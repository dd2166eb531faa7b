/** What every run of the control loop keeps: the armed flag, the handles and the held batch
    agree with each other at every message boundary, and the nonces broadcast for a wallet are
    accounted for exactly. */
module ControlLedger {
  import opened Basics
  import opened ControlLoop

  // ---------------------------------------------------------------- reading the log

  /** Number of batches broadcast. */
  function Fires(log: seq<Event>): nat {
    if log == [] then 0 else Fires(log[..|log| - 1]) + if log[|log| - 1].Fired? then 1 else 0
  }

  /** Copymint batches broadcast since the last batch was signed and kept. */
  function CopiesSincePrepare(log: seq<Event>): nat {
    if log == [] then 0 else
    match log[|log| - 1]
    case Prepared(_) => 0
    case PrepareFailed(_) => CopiesSincePrepare(log[..|log| - 1])
    case Fired(_, _, _, origin) => if origin.Copymint? then CopiesSincePrepare(log[..|log| - 1]) + 1 else 0
  }

  /** The mint value the last failed prepare left behind, if one failed since the last success. */
  function QuotedSincePrepare(log: seq<Event>): Option<nat> {
    if log == [] then None else
    match log[|log| - 1]
    case Prepared(_) => None
    case PrepareFailed(v) => Some(v)
    case Fired(_, _, _, _) => QuotedSincePrepare(log[..|log| - 1])
  }

  function BatchNonces(batch: seq<PreparedWallet>, a: Address): seq<nat> {
    if batch == [] then []
    else BatchNonces(batch[..|batch| - 1], a)
         + if batch[|batch| - 1].address == a then [batch[|batch| - 1].tx.nonce] else []
  }

  /** Every nonce broadcast for address `a`, in order. */
  function Broadcasts(log: seq<Event>, a: Address): seq<nat> {
    if log == [] then []
    else Broadcasts(log[..|log| - 1], a)
         + if log[|log| - 1].Fired? then BatchNonces(log[|log| - 1].batch, a) else []
  }

  /** No batch was broadcast after a copymint fire had used the nonces it was signed for. */
  ghost predicate NoStaleFire(log: seq<Event>) {
    forall k :: 0 <= k < |log| && log[k].Fired? && log[k].origin.HeldBatch? ==> CopiesSincePrepare(log[..k]) == 0
  }

  ghost predicate Consecutive(s: seq<nat>, first: nat) {
    forall j :: 0 <= j < |s| ==> s[j] == first + j
  }

  ghost predicate DistinctAddresses(ws: seq<Wallet>) {
    forall i, j :: 0 <= i < j < |ws| ==> ws[i].address != ws[j].address
  }

  // ---------------------------------------------------------------- invariants

  /** The armed flag, the handles and the held batch at a message boundary. */
  ghost predicate Consistent(l: Loop) {
    && (l.armed <==> l.watcher.Some?)
    && (l.armed ==> (l.prepareTimer.Some? <==> l.reprepare.None?))
    && (!l.armed ==> l.prepareTimer.None? && l.reprepare.None?)
    && (l.prepared.Some? ==>
          && l.armed && l.providers != []
          && l.prepared.value.providers == l.providers && l.prepared.value.sequencer == l.sequencer
          && HeldMatches(l, l.prepared.value.wallets))
  }

  /** The held batch is for these wallets and the current target; its value is `mintValue`
      unless a later prepare moved the price and then failed, and its nonces are behind by
      exactly the copymint fires since it was signed. */
  ghost predicate HeldMatches(l: Loop, batch: seq<PreparedWallet>) {
    && |batch| == |l.wallets|
    && (QuotedSincePrepare(l.log).Some? ==> l.mintValue == QuotedSincePrepare(l.log).value)
    && forall i :: 0 <= i < |batch| ==>
                     && batch[i].address == l.wallets[i].address
                     && batch[i].tx.target == l.target && batch[i].tx.calldata == l.calldata
                     && (QuotedSincePrepare(l.log).None? ==> batch[i].tx.value == l.mintValue)
                     && batch[i].tx.nonce + CopiesSincePrepare(l.log) == l.wallets[i].nextNonce
  }

  /** How far a fire's nonces are behind the loop's own count. */
  function Lag(log: seq<Event>, k: nat): nat
    requires k < |log| && log[k].Fired?
  {
    if log[k].origin.HeldBatch? then CopiesSincePrepare(log[..k]) else 0
  }

  ghost predicate FireAccounted(log: seq<Event>, k: nat, loaded: seq<Wallet>)
    requires k < |log| && log[k].Fired?
  {
    && log[k].providers != []
    && |log[k].batch| == |loaded|
    && forall i :: 0 <= i < |loaded| ==>
                     && log[k].batch[i].address == loaded[i].address
                     && log[k].batch[i].tx.nonce + Lag(log, k) == loaded[i].nextNonce + Fires(log[..k])
  }

  ghost predicate Accounted(log: seq<Event>, loaded: seq<Wallet>) {
    forall k :: 0 <= k < |log| && log[k].Fired? ==> FireAccounted(log, k, loaded)
  }

  ghost predicate Invariant(l: Loop, loaded: seq<Wallet>) {
    && Consistent(l)
    && Accounted(l.log, loaded)
    && |l.wallets| == |loaded|
    && forall i :: 0 <= i < |loaded| ==>
                     l.wallets[i] == Wallet(loaded[i].address, loaded[i].nextNonce + Fires(l.log))
  }

  // ---------------------------------------------------------------- preservation

  lemma AccountedAppend(log: seq<Event>, e: Event, loaded: seq<Wallet>)
    requires Accounted(log, loaded)
    requires e.Fired? ==> FireAccounted(log + [e], |log|, loaded)
    ensures Accounted(log + [e], loaded)
  {
    forall k | 0 <= k < |log + [e]| && (log + [e])[k].Fired? ensures FireAccounted(log + [e], k, loaded) {
      if k < |log| {
        assert FireAccounted(log, k, loaded);
        assert (log + [e])[..k] == log[..k];
      }
    }
  }

  lemma AppendReads(log: seq<Event>, e: Event)
    ensures (log + [e])[..|log|] == log
    ensures Fires(log + [e]) == Fires(log) + if e.Fired? then 1 else 0
  {
    assert (log + [e])[..|log + [e]| - 1] == log;
  }

  /** Committing a batch whose addresses are the wallets' own advances every wallet once. */
  lemma CommitKeeps(l: Loop, loaded: seq<Wallet>, batch: seq<PreparedWallet>, providers: seq<Url>,
          sequencer: Option<Url>, origin: Origin)
    requires Invariant(l, loaded) && providers != [] && |batch| == |loaded|
    requires forall i :: 0 <= i < |loaded| ==>
                           && batch[i].address == loaded[i].address
                           && batch[i].tx.nonce + (if origin.HeldBatch? then CopiesSincePrepare(l.log) else 0)
                              == l.wallets[i].nextNonce
    ensures var l' := Commit(l, batch, providers, sequencer, origin);
            && Accounted(l'.log, loaded)
            && |l'.wallets| == |loaded|
            && forall i :: 0 <= i < |loaded| ==>
                             l'.wallets[i] == Wallet(loaded[i].address, loaded[i].nextNonce + Fires(l'.log))
  {
    var e := Fired(batch, providers, sequencer, origin);
    AppendReads(l.log, e);
    forall i | 0 <= i < |loaded| ensures Holds(batch, l.wallets[i].address) {
      assert batch[i].address == l.wallets[i].address;
    }
    AccountedAppend(l.log, e, loaded);
  }

  lemma JitFireKeeps(l: Loop, loaded: seq<Wallet>, cfg: Config, replies: Replies, target: Address,
          calldata: Calldata, value: nat, origin: Origin)
    requires Invariant(l, loaded) && !origin.HeldBatch?
    ensures var l' := JitFire(l, cfg, replies, target, calldata, value, origin);
            && Accounted(l'.log, loaded)
            && |l'.wallets| == |loaded|
            && forall i :: 0 <= i < |loaded| ==>
                             l'.wallets[i] == Wallet(loaded[i].address, loaded[i].nextNonce + Fires(l'.log))
    ensures origin.Copymint? ==> Consistent(JitFire(l, cfg, replies, target, calldata, value, origin))
  {
    if CanPrepare(l.wallets, JitProviders(l, cfg), replies.rpc) {
      var batch := Signed(l.wallets, target, calldata, value);
      CommitKeeps(l, loaded, batch, JitProviders(l, cfg), JitSequencer(l, cfg), origin);
      AppendReads(l.log, Fired(batch, JitProviders(l, cfg), JitSequencer(l, cfg), origin));
    }
  }

  /** An entry that is not a fire changes neither the accounting nor the count. */
  lemma NonFireKeeps(log: seq<Event>, e: Event, loaded: seq<Wallet>)
    requires Accounted(log, loaded) && !e.Fired?
    ensures Accounted(log + [e], loaded) && Fires(log + [e]) == Fires(log)
    ensures e.Prepared? ==> CopiesSincePrepare(log + [e]) == 0 && QuotedSincePrepare(log + [e]).None?
    ensures e.PrepareFailed? ==> && CopiesSincePrepare(log + [e]) == CopiesSincePrepare(log)
                                 && QuotedSincePrepare(log + [e]) == Some(e.quoted)
  {
    AppendReads(log, e);
    AccountedAppend(log, e, loaded);
  }

  lemma KeepBatchKeeps(l: Loop, loaded: seq<Wallet>, value: nat)
    requires Invariant(l, loaded) && l.armed && l.providers != []
    ensures Invariant(KeepBatch(l, value), loaded)
  {
    NonFireKeeps(l.log, Prepared(value), loaded);
    assert HeldMatches(KeepBatch(l, value), KeepBatch(l, value).prepared.value.wallets);
  }

  lemma FailPrepareKeeps(l: Loop, loaded: seq<Wallet>, value: nat)
    requires Invariant(l, loaded)
    ensures Invariant(FailPrepare(l, value), loaded)
  {
    NonFireKeeps(l.log, PrepareFailed(value), loaded);
    if l.prepared.Some? {
      assert HeldMatches(FailPrepare(l, value), l.prepared.value.wallets);
    }
  }

  /** Unarmed, the loop holds no warmed endpoints. */
  ghost predicate ColdWhenUnarmed(l: Loop) { l.armed || l.providers == [] }

  lemma FireNowKeeps(l: Loop, loaded: seq<Wallet>, cfg: Config, replies: Replies)
    requires Invariant(l, loaded)
    ensures Invariant(HandleFireNow(l, cfg, replies), loaded)
  {
    if l.prepared.Some? {
      var pf := l.prepared.value;
      CommitKeeps(l, loaded, pf.wallets, pf.providers, pf.sequencer, HeldBatch);
    } else {
      JitFireKeeps(l, loaded, cfg, replies, l.target, l.calldata, l.mintValue, JustInTime);
    }
  }

  lemma HandleKeeps(l: Loop, loaded: seq<Wallet>, input: Input)
    requires Invariant(l, loaded) && ColdWhenUnarmed(l)
    ensures Invariant(Handle(l, input), loaded) && ColdWhenUnarmed(Handle(l, input))
  {
    if l.alive {
      match input.msg {
        case Arm =>
        case Disarm =>
        case SetTarget(_, _, _) =>
        case FireDelegated =>
        case Prepare =>
          if l.armed && l.providers != [] {
            var value := Quote(l, input.cfg, input.replies);
            KeepBatchKeeps(l, loaded, value);
            FailPrepareKeeps(l, loaded, value);
          }
        case FireCopymint(t, c, v) => JitFireKeeps(l, loaded, input.cfg, input.replies, t, c, v, Copymint);
        case FireNow =>
          FireNowKeeps(l, loaded, input.cfg, input.replies);
      }
    }
  }

  /** At every message boundary of every run: the flag, the handles and the held batch agree,
      and each fire so far is accounted for. */
  lemma {:induction false} RunKeeps(start: Loop, inputs: seq<Input>)
    requires Initial(start)
    ensures Invariant(Run(start, inputs), start.wallets) && ColdWhenUnarmed(Run(start, inputs))
  {
    if inputs != [] {
      RunKeeps(start, inputs[..|inputs| - 1]);
      HandleKeeps(Run(start, inputs[..|inputs| - 1]), start.wallets, inputs[|inputs| - 1]);
    }
  }

  // ---------------------------------------------------------------- main results

  /** The value of the held batch differs from the loop's mint value exactly when a failed
      prepare left another value behind since the batch was signed. */
  lemma HeldValue(start: Loop, inputs: seq<Input>, i: nat)
    requires Initial(start)
    requires Run(start, inputs).prepared.Some? && i < |start.wallets|
    ensures var l := Run(start, inputs);
            && |l.prepared.value.wallets| == |start.wallets|
            && (l.prepared.value.wallets[i].tx.value != l.mintValue
                <==> QuotedSincePrepare(l.log).Some? &&
                     QuotedSincePrepare(l.log).value != l.prepared.value.wallets[i].tx.value)
  {
    RunKeeps(start, inputs);
  }

  lemma {:induction false} BatchNoncesOf(batch: seq<PreparedWallet>, n: nat, i: nat)
    requires i < |batch| && n <= |batch|
    requires forall p, q :: 0 <= p < q < |batch| ==> batch[p].address != batch[q].address
    ensures BatchNonces(batch[..n], batch[i].address) == if i < n then [batch[i].tx.nonce] else []
  {
    if n > 0 {
      assert batch[..n][..n - 1] == batch[..n - 1];
      BatchNoncesOf(batch, n - 1, i);
    }
  }

  /** One more event: one more nonce for every wallet if it is a fire, nothing otherwise. */
  lemma BroadcastsStep(log: seq<Event>, loaded: seq<Wallet>, i: nat)
    requires log != [] && Accounted(log, loaded) && DistinctAddresses(loaded) && i < |loaded|
    ensures var prefix := log[..|log| - 1]; var e := log[|log| - 1];
            && Accounted(prefix, loaded)
            && Broadcasts(log, loaded[i].address)
               == Broadcasts(prefix, loaded[i].address) + (if e.Fired? then [e.batch[i].tx.nonce] else [])
  {
    var n := |log| - 1;
    var e := log[n];
    forall k | 0 <= k < n && log[..n][k].Fired? ensures FireAccounted(log[..n], k, loaded) {
      assert FireAccounted(log, k, loaded);
      assert log[..n][..k] == log[..k];
    }
    if e.Fired? {
      assert FireAccounted(log, n, loaded);
      forall p, q | 0 <= p < q < |e.batch| ensures e.batch[p].address != e.batch[q].address {}
      BatchNoncesOf(e.batch, |e.batch|, i);
      assert e.batch[..|e.batch|] == e.batch;
    }
  }

  lemma {:induction false} BroadcastsCount(log: seq<Event>, loaded: seq<Wallet>, i: nat)
    requires Accounted(log, loaded) && DistinctAddresses(loaded) && i < |loaded|
    ensures |Broadcasts(log, loaded[i].address)| == Fires(log)
  {
    if log != [] {
      BroadcastsStep(log, loaded, i);
      BroadcastsCount(log[..|log| - 1], loaded, i);
    }
  }

  /** Copymint fires are always signed at the current nonce. */
  lemma {:induction false} RecentCopies(log: seq<Event>, loaded: seq<Wallet>, i: nat)
    requires Accounted(log, loaded) && DistinctAddresses(loaded) && i < |loaded|
    ensures var b := Broadcasts(log, loaded[i].address); var n := |b|;
            && n == Fires(log) && CopiesSincePrepare(log) <= n
            && forall j :: n - CopiesSincePrepare(log) <= j < n ==> b[j] == loaded[i].nextNonce + j
  {
    BroadcastsCount(log, loaded, i);
    if log != [] {
      BroadcastsStep(log, loaded, i);
      RecentCopies(log[..|log| - 1], loaded, i);
      if log[|log| - 1].Fired? { assert FireAccounted(log, |log| - 1, loaded); }
    }
  }

  lemma {:induction false} FreshIsConsecutive(log: seq<Event>, loaded: seq<Wallet>, i: nat)
    requires Accounted(log, loaded) && DistinctAddresses(loaded) && i < |loaded| && NoStaleFire(log)
    ensures Consecutive(Broadcasts(log, loaded[i].address), loaded[i].nextNonce)
  {
    if log != [] {
      var prefix := log[..|log| - 1];
      BroadcastsStep(log, loaded, i);
      forall k | 0 <= k < |prefix| ensures prefix[..k] == log[..k] && prefix[k] == log[k] {}
      FreshIsConsecutive(prefix, loaded, i);
      BroadcastsCount(prefix, loaded, i);
      if log[|log| - 1].Fired? { assert FireAccounted(log, |log| - 1, loaded); }
    }
  }

  lemma RepeatStays(b: seq<nat>, longer: seq<nat>)
    requires !Distinct(b) && b <= longer
    ensures !Distinct(longer)
  {
    var p, q :| 0 <= p < q < |b| && b[p] == b[q];
    assert longer[p] == longer[q];
  }

  /** A stale fire sends a nonce that a copymint fire has already sent. */
  lemma {:induction false} StaleRepeats(log: seq<Event>, loaded: seq<Wallet>, i: nat, k: nat)
    requires Accounted(log, loaded) && DistinctAddresses(loaded) && i < |loaded|
    requires k < |log| && log[k].Fired? && log[k].origin.HeldBatch? && CopiesSincePrepare(log[..k]) > 0
    ensures !Distinct(Broadcasts(log, loaded[i].address))
  {
    var prefix := log[..|log| - 1];
    var b := Broadcasts(prefix, loaded[i].address);
    BroadcastsStep(log, loaded, i);
    if k < |prefix| {
      assert prefix[..k] == log[..k];
      StaleRepeats(prefix, loaded, i, k);
      RepeatStays(b, Broadcasts(log, loaded[i].address));
    } else {
      assert FireAccounted(log, k, loaded);
      RecentCopies(prefix, loaded, i);
      var p := |b| - CopiesSincePrepare(prefix);
      assert Broadcasts(log, loaded[i].address)[p] == Broadcasts(log, loaded[i].address)[|b|];
    }
  }

  /** Over every run with distinct wallet addresses: a wallet's broadcast nonces are the loaded
      nonce and its successors, one per fire, if and only if no consumed batch had a copymint
      fire after its prepare; and otherwise some nonce is broadcast twice. The loop's own next
      nonce counts the fires either way. */
  lemma BroadcastNonces(start: Loop, inputs: seq<Input>, i: nat)
    requires Initial(start) && DistinctAddresses(start.wallets) && i < |start.wallets|
    ensures var l := Run(start, inputs); var b := Broadcasts(l.log, start.wallets[i].address);
            && |l.wallets| == |start.wallets|
            && l.wallets[i].nextNonce == start.wallets[i].nextNonce + |b|
            && (NoStaleFire(l.log) <==> Consecutive(b, start.wallets[i].nextNonce))
            && (NoStaleFire(l.log) <==> Distinct(b))
  {
    RunKeeps(start, inputs);
    var log := Run(start, inputs).log;
    BroadcastsCount(log, start.wallets, i);
    if NoStaleFire(log) {
      FreshIsConsecutive(log, start.wallets, i);
    } else {
      var k :| 0 <= k < |log| && log[k].Fired? && log[k].origin.HeldBatch? && CopiesSincePrepare(log[..k]) != 0;
      StaleRepeats(log, start.wallets, i, k);
    }
  }

  /** The held batch is behind the wallets by exactly the copymint fires since it was signed,
      so firing it is sound if and only if there were none. */
  lemma HeldBatchLag(start: Loop, inputs: seq<Input>, i: nat)
    requires Initial(start) && i < |start.wallets| && Run(start, inputs).prepared.Some?
    ensures var l := Run(start, inputs);
            && l.armed && l.providers != []
            && |l.prepared.value.wallets| == |l.wallets| == |start.wallets|
            && var tx := l.prepared.value.wallets[i].tx;
            && tx.target == l.target && tx.calldata == l.calldata
            && tx.nonce + CopiesSincePrepare(l.log) == l.wallets[i].nextNonce
  {
    RunKeeps(start, inputs);
  }

  /** No run ever broadcasts a batch with no endpoint to send it to. */
  lemma FiresHaveProviders(start: Loop, inputs: seq<Input>, k: nat)
    requires Initial(start) && k < |Run(start, inputs).log| && Run(start, inputs).log[k].Fired?
    ensures Run(start, inputs).log[k].providers != []
  {
    RunKeeps(start, inputs);
    assert FireAccounted(Run(start, inputs).log, k, start.wallets);
  }

  // ---------------------------------------------------------------- runs that go wrong

  /** An environment in which every endpoint answers and every wallet signs. */
  predicate Answering(cfg: Config, replies: Replies) {
    && cfg.triggerMode == "poll_state"
    && |cfg.httpRpcUrls| == 1 && cfg.httpRpcUrls[0].parses
    && replies.rpc == RpcAnswers(true, true, true, {})
  }

  predicate Healthy(cfg: Config, replies: Replies) { Answering(cfg, replies) && cfg.mintMode == "custom" }

  lemma OneEndpoint(cfg: Config)
    requires |cfg.httpRpcUrls| == 1 && cfg.httpRpcUrls[0].parses
    ensures Parseable(cfg.httpRpcUrls) == cfg.httpRpcUrls
  {
    assert Parseable(cfg.httpRpcUrls[..0]) == [];
  }

  lemma BroadcastsAppend(log: seq<Event>, e: Event, a: Address)
    ensures Broadcasts(log + [e], a) == Broadcasts(log, a) + if e.Fired? then BatchNonces(e.batch, a) else []
  {
    assert (log + [e])[..|log + [e]| - 1] == log;
  }

  lemma OneWalletNonces(batch: seq<PreparedWallet>)
    requires |batch| == 1
    ensures BatchNonces(batch, batch[0].address) == [batch[0].tx.nonce]
  {
    BatchNoncesOf(batch, 1, 0);
    assert batch[..1] == batch;
  }

  /** After arming and preparing, a batch at the wallet's next nonce is held, at the value quoted
      in seadrop mode and the loop's own otherwise. */
  lemma ArmThenPrepare(start: Loop, cfg: Config, replies: Replies)
    requires Initial(start) && Answering(cfg, replies)
    ensures var l := Handle(Handle(start, Input(Arm, cfg, replies)), Input(Prepare, cfg, replies));
            var value := Quote(start, cfg, replies);
            && l.alive && l.armed && l.wallets == start.wallets && l.providers == cfg.httpRpcUrls
            && l.mintValue == value && l.prepared.Some? && l.log == [Prepared(value)]
            && l.prepared.value.wallets == Signed(start.wallets, start.target, start.calldata, value)
  {
    OneEndpoint(cfg);
  }

  lemma CopymintThenFire(l: Loop, cfg: Config, replies: Replies, copy: ControlMsg)
    requires l.alive && |l.wallets| == 1 && Healthy(cfg, replies) && copy.FireCopymint?
    requires l.providers == cfg.httpRpcUrls && l.prepared.Some? && Broadcasts(l.log, l.wallets[0].address) == []
    requires |l.prepared.value.wallets| == 1 && l.prepared.value.wallets[0].address == l.wallets[0].address
    ensures var w := l.wallets[0];
            var l' := Handle(Handle(l, Input(copy, cfg, replies)), Input(FireNow, cfg, replies));
            && Broadcasts(l'.log, w.address) == [w.nextNonce, l.prepared.value.wallets[0].tx.nonce]
            && l'.wallets[0].nextNonce == w.nextNonce + 2
  {
    var held := l.prepared.value;
    var batch := Signed(l.wallets, copy.copyTarget, copy.copyCalldata, copy.copyValue);
    BroadcastsAppend(l.log, Fired(batch, l.providers, l.sequencer, Copymint), l.wallets[0].address);
    BroadcastsAppend(l.log + [Fired(batch, l.providers, l.sequencer, Copymint)],
                     Fired(held.wallets, held.providers, held.sequencer, HeldBatch), l.wallets[0].address);
    OneWalletNonces(batch);
    OneWalletNonces(held.wallets);
    assert batch[0].address == l.wallets[0].address;
  }

  /** Arm, prepare, copymint, fire: the armed batch goes out with the nonce the copymint fire
      has just used, and the loop's own count skips ahead. */
  lemma CopymintMakesBatchStale(start: Loop, cfg: Config, replies: Replies, copy: ControlMsg)
    requires Initial(start) && |start.wallets| == 1 && Healthy(cfg, replies) && copy.FireCopymint?
    ensures var w := start.wallets[0];
            var l := Handle(Handle(Handle(Handle(start, Input(Arm, cfg, replies)), Input(Prepare, cfg, replies)),
                                   Input(copy, cfg, replies)), Input(FireNow, cfg, replies));
            Broadcasts(l.log, w.address) == [w.nextNonce, w.nextNonce] && l.wallets[0].nextNonce == w.nextNonce + 2
  {
    ArmThenPrepare(start, cfg, replies);
    var l := Handle(Handle(start, Input(Arm, cfg, replies)), Input(Prepare, cfg, replies));
    assert l.log[..0] == [];
    CopymintThenFire(l, cfg, replies, copy);
  }

  /** Arm, prepare, then a prepare that reads another price and fails to sign: the old batch is
      held beside the new price, and the fire that follows sends the old value. */
  lemma FailedRepriceFiresOldValue(start: Loop, cfg: Config, replies: Replies, quote: nat, i: nat)
    requires Initial(start) && Answering(cfg, replies) && cfg.mintMode == "seadrop"
    requires quote != Quote(start, cfg, replies) && i < |start.wallets|
    ensures var failing := replies.(price := Some(quote), rpc := replies.rpc.(gasPrice := false));
            var held := Handle(Handle(Handle(start, Input(Arm, cfg, replies)), Input(Prepare, cfg, replies)),
                               Input(Prepare, cfg, failing));
            var fired := Handle(held, Input(FireNow, cfg, failing));
            && held.prepared.Some? && |held.prepared.value.wallets| == |start.wallets|
            && held.prepared.value.wallets[i].tx.value == Quote(start, cfg, replies) != held.mintValue == quote
            && fired.log == held.log + [Fired(held.prepared.value.wallets, held.providers, held.sequencer, HeldBatch)]
  {
    ArmThenPrepare(start, cfg, replies);
  }

  // ---------------------------------------------------------------- when the loop ends

  /** A re-prepare that indexes an empty list: the only message that ends the loop. */
  predicate Fatal(l: Loop, i: Input) {
    l.alive && i.msg.Prepare? && l.providers != [] && RechecksPrice(i.cfg) && i.cfg.httpRpcUrls == []
  }

  predicate FatalAt(start: Loop, inputs: seq<Input>, k: nat) {
    k < |inputs| && Fatal(Run(start, inputs[..k]), inputs[k])
  }

  lemma FatalAtPrefix(start: Loop, inputs: seq<Input>, k: nat)
    requires inputs != [] && k < |inputs| - 1
    ensures FatalAt(start, inputs, k) <==> FatalAt(start, inputs[..|inputs| - 1], k)
  {
    assert inputs[..|inputs| - 1][..k] == inputs[..k];
  }

  /** Over every run the loop has ended if and only if some message was handled while endpoints
      were warmed and the configuration listed none, in a mode that reads the price again. */
  lemma {:induction false} DiesExactly(start: Loop, inputs: seq<Input>)
    requires start.alive
    ensures !Run(start, inputs).alive <==> exists k :: FatalAt(start, inputs, k)
  {
    if inputs != [] {
      var n := |inputs| - 1;
      DiesExactly(start, inputs[..n]);
      if !Run(start, inputs[..n]).alive {
        var k :| FatalAt(start, inputs[..n], k);
        FatalAtPrefix(start, inputs, k);
      } else if !Run(start, inputs).alive {
        assert FatalAt(start, inputs, n);
      } else {
        forall k: nat ensures !FatalAt(start, inputs, k) {
          if k < n { FatalAtPrefix(start, inputs, k); }
        }
      }
    }
  }

  /** Arm, prepare, empty the list of endpoints, prepare again: the loop ends with the armed flag
      up and the batch held. */
  lemma EmptiedEndpointsEndTheLoop(start: Loop, cfg: Config, replies: Replies)
    requires Initial(start) && Answering(cfg, replies) && cfg.mintMode == "seadrop"
    ensures var l := Handle(Handle(Handle(start, Input(Arm, cfg, replies)), Input(Prepare, cfg, replies)),
                            Input(Prepare, cfg.(httpRpcUrls := []), replies));
            !l.alive && l.armed && l.prepared.Some?
  {
    ArmThenPrepare(start, cfg, replies);
  }

  /** `FireNow` does not look at the armed flag: handled while disarmed it broadcasts exactly
      when the wallets can be signed for there and then. */
  lemma UnarmedFire(start: Loop, inputs: seq<Input>, input: Input)
    requires Initial(start) && input.msg.FireNow?
    requires Run(start, inputs).alive && !Run(start, inputs).armed
    ensures var l := Run(start, inputs);
            Fires(Handle(l, input).log) == Fires(l.log) +
            if CanPrepare(l.wallets, Parseable(input.cfg.httpRpcUrls), input.replies.rpc) then 1 else 0
  {
    RunKeeps(start, inputs);
    var l := Run(start, inputs);
    AppendReads(l.log, Fired(Signed(l.wallets, l.target, l.calldata, l.mintValue),
                             JitProviders(l, input.cfg), JitSequencer(l, input.cfg), JustInTime));
  }
}
