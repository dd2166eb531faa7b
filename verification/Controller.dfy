/** The control loop itself: locals of `control_loop` as fields, one method per message,
    each proved to have the effect `ControlLoop.Handle` gives it. */
module Controller {
  import opened Basics
  import opened ControlLoop

  /** Warms every endpoint whose URL parses; a cold or stalled one is still used. */
  method WarmConnections(urls: seq<Url>) returns (providers: seq<Url>)
    ensures providers == Parseable(urls)
    ensures forall u :: u in providers <==> u in urls && u.parses
  {
    providers := [];
    for i := 0 to |urls|
      invariant providers == Parseable(urls[..i])
      invariant forall u :: u in providers <==> u in urls[..i] && u.parses
    {
      assert urls[..i + 1][..i] == urls[..i];
      if urls[i].parses {
        providers := providers + [urls[i]];
      }
    }
    assert urls[..|urls|] == urls;
  }

  /** Signs one transaction per wallet without advancing any nonce; the first failure
      abandons the whole batch. */
  method PrepareFire(wallets: array<Wallet>, target: Address, calldata: Calldata, value: nat,
                     providers: seq<Url>, rpc: RpcAnswers)
    returns (prepared: Option<seq<PreparedWallet>>)
    ensures prepared.Some? <==> CanPrepare(wallets[..], providers, rpc)
    ensures prepared.Some? ==> prepared.value == Signed(wallets[..], target, calldata, value)
  {
    if providers == [] || !rpc.chainId || !rpc.gasPrice || !rpc.gasEstimate {
      return None;
    }
    var batch: seq<PreparedWallet> := [];
    for i := 0 to wallets.Length
      invariant |batch| == i
      invariant forall k :: 0 <= k < i ==> wallets[k].address !in rpc.unsignable
      invariant forall k :: 0 <= k < i ==>
                              batch[k] == PreparedWallet(wallets[k].address,
                                                         Tx(target, calldata, value, wallets[k].nextNonce))
    {
      var w := wallets[i];
      if w.address in rpc.unsignable {
        assert wallets[..][i].address in rpc.unsignable;
        return None;
      }
      batch := batch + [PreparedWallet(w.address, Tx(target, calldata, value, w.nextNonce))];
    }
    prepared := Some(batch);
  }

  method AnyWallet(batch: seq<PreparedWallet>, a: Address) returns (found: bool)
    ensures found <==> Holds(batch, a)
  {
    found := false;
    for j := 0 to |batch|
      invariant !found
      invariant forall k :: 0 <= k < j ==> batch[k].address != a
    {
      if batch[j].address == a {
        return true;
      }
    }
  }

  /** Advances the nonce of exactly the wallets the batch is for, in place. */
  method AdvanceNonces(wallets: array<Wallet>, batch: seq<PreparedWallet>)
    modifies wallets
    ensures wallets[..] == Advanced(old(wallets[..]), batch)
  {
    for i := 0 to wallets.Length
      invariant forall k :: 0 <= k < i ==> wallets[k] == Advanced(old(wallets[..]), batch)[k]
      invariant forall k :: i <= k < wallets.Length ==> wallets[k] == old(wallets[k])
    {
      var present := AnyWallet(batch, wallets[i].address);
      if present {
        wallets[i] := wallets[i].(nextNonce := wallets[i].nextNonce + 1);
      }
    }
  }

  class Controller {
    const target: Address
    const wallets: array<Wallet>
    var alive: bool
    var adminWatchTarget: Address
    var calldata: Calldata
    var mintValue: nat
    var watcher: Option<nat>
    var prepareTimer: Option<nat>
    var reprepare: Option<nat>
    var providers: seq<Url>
    var sequencer: Option<Url>
    var ticker: bool
    var prepared: Option<PreparedFire>
    var armed: bool
    var arms: nat // arm sessions so far; numbers the tasks they spawn
    ghost var log: seq<Event>

    ghost function View(): Loop
      reads this, wallets
    {
      Loop(alive, wallets[..], target, adminWatchTarget, calldata, mintValue, watcher, prepareTimer, reprepare,
           providers, sequencer, ticker, prepared, armed, arms, log)
    }

    constructor (loaded: seq<Wallet>, target: Address, adminWatchTarget: Address, calldata: Calldata, mintValue: nat)
      ensures Initial(View()) && View().wallets == loaded && fresh(wallets)
      ensures View().target == target && View().adminWatchTarget == adminWatchTarget
      ensures View().calldata == calldata && View().mintValue == mintValue
    {
      this.target := target;
      var a := new Wallet[|loaded|](i requires 0 <= i < |loaded| => loaded[i]);
      wallets := a;
      alive := true;
      this.adminWatchTarget := adminWatchTarget;
      this.calldata := calldata;
      this.mintValue := mintValue;
      watcher, prepareTimer, reprepare := None, None, None;
      providers, sequencer, ticker := [], None, false;
      prepared, armed := None, false;
      arms, log := 0, [];
    }

    method AbortTasks()
      modifies `watcher, `prepareTimer, `reprepare
      ensures View() == old(View()).(watcher := None, prepareTimer := None, reprepare := None)
    {
      watcher := None;
      prepareTimer := None;
      reprepare := None;
    }

    /** The cleanup `Disarm`, `SetTarget` and `FireNow` share. */
    method Drop()
      modifies this
      ensures View() == Teardown(old(View()))
    {
      AbortTasks();
      prepared := None;
      providers := [];
      sequencer := None;
      ticker := false;
      armed := false;
    }

    method WarmUp(cfg: Config, replies: Replies)
      modifies `providers, `sequencer, `ticker
      ensures View() == old(View()).(providers := Parseable(cfg.httpRpcUrls), sequencer := WarmSequencer(cfg),
                                     ticker := replies.tickerUp)
    {
      providers := WarmConnections(cfg.httpRpcUrls);
      sequencer := WarmSequencer(cfg);
      ticker := replies.tickerUp;
    }

    method SpawnTasks(cfg: Config)
      modifies `watcher, `prepareTimer, `arms
      ensures View() == var l := old(View());
                        l.(watcher := Some(l.arms), arms := l.arms + 1,
                           prepareTimer := if TimerScheduled(cfg) then Some(l.arms) else l.prepareTimer)
    {
      watcher := Some(arms);
      if TimerScheduled(cfg) {
        prepareTimer := Some(arms);
      }
      arms := arms + 1;
    }

    /** Warms the endpoints, raises the flag and spawns the session's watcher and timer. */
    method BeginArm(cfg: Config, replies: Replies)
      modifies this
      ensures View() == ArmBegin(old(View()), cfg, replies)
    {
      WarmUp(cfg, replies);
      prepared := None;
      armed := true;
      SpawnTasks(cfg);
    }

    /** `selfSend` says that a `Prepare` was queued on the loop's own channel. */
    method HandleArm(cfg: Config, replies: Replies) returns (selfSend: bool)
      requires alive
      modifies this
      ensures View() == Handle(old(View()), Input(Arm, cfg, replies))
      ensures selfSend <==> !ArmRefused(old(View()), cfg, replies) && !TimerScheduled(cfg)
    {
      selfSend := false;
      if watcher.Some? {
        return;
      }
      if cfg.triggerMode == "timestamp" && cfg.clockDriftRefuseArmMs > 0 && replies.drift.Some? {
        if Abs(replies.drift.value) >= cfg.clockDriftRefuseArmMs {
          return;
        }
      }
      BeginArm(cfg, replies);
      if !TimerScheduled(cfg) {
        selfSend := true;
        reprepare := watcher;
      }
    }

    method SignAhead(rpc: RpcAnswers)
      modifies `prepared, `log
      ensures View() == var l := old(View());
                        if CanPrepare(l.wallets, l.providers, rpc) then KeepBatch(l, l.mintValue)
                        else FailPrepare(l, l.mintValue)
    {
      var batch := PrepareFire(wallets, target, calldata, mintValue, providers, rpc);
      if batch.Some? {
        prepared := Some(PreparedFire(batch.value, providers, sequencer));
        log := log + [Prepared(mintValue)];
      } else {
        log := log + [PrepareFailed(mintValue)];
      }
    }

    method HandlePrepareMsg(cfg: Config, replies: Replies)
      requires alive
      modifies this
      ensures View() == Handle(old(View()), Input(Prepare, cfg, replies))
    {
      if providers == [] {
        return;
      }
      if RechecksPrice(cfg) {
        if cfg.httpRpcUrls == [] {
          alive := false;
          return;
        }
        if replies.price.Some? && replies.price.value != mintValue {
          mintValue := replies.price.value;
        }
      }
      SignAhead(replies.rpc);
    }

    method CommitBatch(batch: seq<PreparedWallet>, to: seq<Url>, seqTo: Option<Url>, ghost origin: Origin)
      modifies this`log, wallets
      ensures View() == Commit(old(View()), batch, to, seqTo, origin)
    {
      AdvanceNonces(wallets, batch);
      log := log + [Fired(batch, to, seqTo, origin)];
    }

    /** Signs and broadcasts at once, reusing the warmed endpoints if there are any. */
    method FireJustInTime(cfg: Config, replies: Replies, to: Address, data: Calldata, value: nat, ghost origin: Origin)
      modifies this`log, wallets
      ensures View() == JitFire(old(View()), cfg, replies, to, data, value, origin)
    {
      var targets, seqTarget := providers, sequencer;
      if providers == [] {
        targets := WarmConnections(cfg.httpRpcUrls);
        seqTarget := WarmSequencer(cfg);
      }
      var batch := PrepareFire(wallets, to, data, value, targets, replies.rpc);
      if batch.Some? {
        CommitBatch(batch.value, targets, seqTarget, origin);
      }
    }

    method HandleFireNowMsg(cfg: Config, replies: Replies)
      requires alive
      modifies this, wallets
      ensures View() == Handle(old(View()), Input(FireNow, cfg, replies))
    {
      if prepared.Some? {
        var pf := prepared.value;
        prepared := None;
        CommitBatch(pf.wallets, pf.providers, pf.sequencer, HeldBatch);
      } else {
        FireJustInTime(cfg, replies, target, calldata, mintValue, JustInTime);
      }
      Drop();
    }

    method HandleSetTarget(nftContract: Address, newCalldata: Calldata, newValue: nat)
      modifies this
      ensures View() == Teardown(old(View())).(
                          adminWatchTarget := nftContract, calldata := newCalldata, mintValue := newValue)
    {
      Drop();
      adminWatchTarget := nftContract;
      calldata := newCalldata;
      mintValue := newValue;
    }

    method HandleMsg(input: Input)
      requires alive
      modifies this, wallets
      ensures View() == Handle(old(View()), input)
    {
      match input.msg
      case Arm => var _ := HandleArm(input.cfg, input.replies);
      case Prepare => HandlePrepareMsg(input.cfg, input.replies);
      case Disarm => Drop();
      case FireNow => HandleFireNowMsg(input.cfg, input.replies);
      case FireCopymint(t, c, v) => FireJustInTime(input.cfg, input.replies, t, c, v, Copymint);
      case SetTarget(n, c, v) => HandleSetTarget(n, c, v);
      case FireDelegated =>
    }

    /** The receive loop over any sequence of messages. */
    method Serve(inputs: seq<Input>)
      modifies this, wallets
      ensures View() == Run(old(View()), inputs)
    {
      for i := 0 to |inputs|
        invariant View() == Run(old(View()), inputs[..i])
      {
        assert inputs[..i + 1][..i] == inputs[..i];
        if alive {
          HandleMsg(inputs[i]);
        }
      }
      assert inputs[..|inputs|] == inputs;
    }
  }
}
