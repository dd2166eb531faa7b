/** What each control message sends and what it leaves behind, said of the loop's fields alone. */
module ControlEffects {
  import opened Basics
  import opened ControlLoop

  /** A batch can be signed over these endpoints: there is one, its three reads answer, and no
      wallet fails to sign. */
  predicate Signable(wallets: seq<Wallet>, endpoints: seq<Url>, rpc: RpcAnswers) {
    && endpoints != [] && rpc.chainId && rpc.gasPrice && rpc.gasEstimate
    && forall i :: 0 <= i < |wallets| ==> wallets[i].address !in rpc.unsignable
  }

  /** One transaction per wallet, in wallet order, each at that wallet's own next nonce. */
  predicate BatchOf(batch: seq<PreparedWallet>, wallets: seq<Wallet>, target: Address, calldata: Calldata, value: nat) {
    && |batch| == |wallets|
    && forall i :: 0 <= i < |batch| ==>
                     batch[i] == PreparedWallet(wallets[i].address, Tx(target, calldata, value, wallets[i].nextNonce))
  }

  /** Wallets move on by one if the batch has a transaction of theirs, and stay if not. */
  ghost predicate MovedOn(before: seq<Wallet>, after: seq<Wallet>, batch: seq<PreparedWallet>) {
    && |after| == |before|
    && forall i :: 0 <= i < |after| ==>
                     && after[i].address == before[i].address
                     && after[i].nextNonce == before[i].nextNonce
                                              + if exists j :: 0 <= j < |batch| && batch[j].address == before[i].address
                                                then 1 else 0
  }

  /** The configured sequencer, if its URL is given and parses. */
  predicate SequencerOf(s: Option<Url>, cfg: Config) {
    s == if cfg.sequencerHttpUrl.text != "" && cfg.sequencerHttpUrl.parses then Some(cfg.sequencerHttpUrl) else None
  }

  /** From `before` to `after` the log grew by one fire and the wallets moved on with its batch. */
  ghost predicate FiredOnce(before: Loop, after: Loop, e: Event) {
    e.Fired? && after.log == before.log + [e] && MovedOn(before.wallets, after.wallets, e.batch)
  }

  /** A batch signed on the spot: over the warmed endpoints and sequencer if there are endpoints,
      else over what the configuration lists now. */
  ghost predicate SignedNow(l: Loop, cfg: Config, e: Event, target: Address, calldata: Calldata, value: nat,
                            origin: Origin)
  {
    && e.Fired? && e.origin == origin && BatchOf(e.batch, l.wallets, target, calldata, value)
    && (if l.providers != [] then e.providers == l.providers && e.sequencer == l.sequencer
        else e.providers == Parseable(cfg.httpRpcUrls) && SequencerOf(e.sequencer, cfg))
  }

  function Endpoints(l: Loop, cfg: Config): seq<Url> {
    if l.providers != [] then l.providers else Parseable(cfg.httpRpcUrls)
  }

  /** Nothing of an arm session is left. */
  predicate Down(l: Loop) {
    && !l.armed && l.watcher.None? && l.prepareTimer.None? && l.reprepare.None? && l.prepared.None?
    && l.providers == [] && l.sequencer.None? && !l.ticker
  }

  predicate SameTarget(l: Loop, m: Loop) {
    && l.target == m.target && l.adminWatchTarget == m.adminWatchTarget
    && l.calldata == m.calldata && l.mintValue == m.mintValue
  }

  /** A copymint fire sends the transaction it was given, once per wallet at its next nonce, or
      nothing at all; either way it changes nothing but nonces. */
  lemma CopymintEffect(l: Loop, cfg: Config, replies: Replies, target: Address, calldata: Calldata, value: nat)
    requires l.alive
    ensures var l' := Handle(l, Input(FireCopymint(target, calldata, value), cfg, replies));
            if Signable(l.wallets, Endpoints(l, cfg), replies.rpc) then
              && l' == l.(wallets := l'.wallets, log := l'.log) && l'.log != []
              && var e := l'.log[|l'.log| - 1];
                 FiredOnce(l, l', e) && SignedNow(l, cfg, e, target, calldata, value, Copymint)
            else l' == l
  {
  }

  /** A fire sends the held batch over its own endpoints, or, with none held, the loop's own mint
      signed on the spot, or nothing if that cannot be signed; then the session is down. */
  lemma FireNowEffect(l: Loop, cfg: Config, replies: Replies)
    requires l.alive
    ensures var l' := Handle(l, Input(FireNow, cfg, replies));
            && Down(l') && SameTarget(l, l') && l'.alive && l'.arms == l.arms
            && if l.prepared.Some? then
                 && l'.log != []
                 && var e := l'.log[|l'.log| - 1]; var held := l.prepared.value;
                    FiredOnce(l, l', e) && e == Fired(held.wallets, held.providers, held.sequencer, HeldBatch)
               else if Signable(l.wallets, Endpoints(l, cfg), replies.rpc) then
                 && l'.log != []
                 && var e := l'.log[|l'.log| - 1];
                    FiredOnce(l, l', e) && SignedNow(l, cfg, e, l.target, l.calldata, l.mintValue, JustInTime)
               else l'.log == l.log && l'.wallets == l.wallets
  {
  }

  /** The mint value a prepare works with: the price read now, in seadrop mode outside timestamp
      mode, if that read answered. */
  function ValueNow(l: Loop, cfg: Config, replies: Replies): nat {
    if cfg.mintMode == "seadrop" && cfg.triggerMode != "timestamp" && replies.price.Some? then replies.price.value
    else l.mintValue
  }

  /** A prepare changes the price it works with and the held batch, and nothing else: the batch is
      signed for the loop's own target over the warmed endpoints, and stays as it was if signing
      fails. With nothing warmed it does nothing; over an emptied list it ends the loop. */
  lemma PrepareEffect(l: Loop, cfg: Config, replies: Replies)
    requires l.alive
    ensures var l' := Handle(l, Input(Prepare, cfg, replies));
            if l.providers == [] then l' == l
            else if cfg.mintMode == "seadrop" && cfg.triggerMode != "timestamp" && cfg.httpRpcUrls == [] then
              l' == l.(alive := false)
            else
              && l' == l.(mintValue := ValueNow(l, cfg, replies), prepared := l'.prepared, log := l'.log)
              && if Signable(l.wallets, l.providers, replies.rpc) then
                   && l'.prepared.Some? && l'.log == l.log + [Prepared(l'.mintValue)]
                   && BatchOf(l'.prepared.value.wallets, l.wallets, l.target, l.calldata, l'.mintValue)
                   && l'.prepared.value.providers == l.providers && l'.prepared.value.sequencer == l.sequencer
                 else l'.prepared == l.prepared && l'.log == l.log + [PrepareFailed(l'.mintValue)]
  {
  }

  /** Arming is refused while a watcher is held, and in timestamp mode with a threshold that the
      measured drift reaches; otherwise it warms what the configuration lists, drops any old batch,
      and starts one watcher and one of timer and re-prepare task. It fires nothing. */
  lemma ArmEffect(l: Loop, cfg: Config, replies: Replies)
    requires l.alive && (l.watcher.None? ==> l.prepareTimer.None? && l.reprepare.None?)
    ensures var l' := Handle(l, Input(Arm, cfg, replies));
            var drifted := replies.drift.Some?
                           && (replies.drift.value >= cfg.clockDriftRefuseArmMs
                               || -replies.drift.value >= cfg.clockDriftRefuseArmMs);
            if l.watcher.Some? || (cfg.triggerMode == "timestamp" && cfg.clockDriftRefuseArmMs > 0 && drifted) then
              l' == l
            else
              && SameTarget(l, l') && l'.wallets == l.wallets && l'.log == l.log && l'.alive
              && l'.armed && l'.watcher == Some(l.arms) && l'.arms == l.arms + 1 && l'.prepared.None?
              && l'.providers == Parseable(cfg.httpRpcUrls) && SequencerOf(l'.sequencer, cfg)
              && l'.ticker == replies.tickerUp
              && (if cfg.triggerMode == "timestamp" && cfg.triggerTimestampUnix > 0
                  then l'.prepareTimer == Some(l.arms) && l'.reprepare.None?
                  else l'.prepareTimer.None? && l'.reprepare == Some(l.arms))
  {
  }

  /** A disarm takes the session down and touches nothing else. */
  lemma DisarmEffect(l: Loop, cfg: Config, replies: Replies)
    requires l.alive
    ensures var l' := Handle(l, Input(Disarm, cfg, replies));
            Down(l') && SameTarget(l, l') && l'.wallets == l.wallets && l'.log == l.log && l'.alive && l'.arms == l.arms
  {
  }

  /** A new target takes the session down and puts its watched address, calldata and price in force. */
  lemma SetTargetEffect(l: Loop, cfg: Config, replies: Replies, nft: Address, calldata: Calldata, value: nat)
    requires l.alive
    ensures var l' := Handle(l, Input(SetTarget(nft, calldata, value), cfg, replies));
            && Down(l') && l'.target == l.target
            && l'.adminWatchTarget == nft && l'.calldata == calldata && l'.mintValue == value
            && l'.wallets == l.wallets && l'.log == l.log && l'.alive && l'.arms == l.arms
  {
  }

  /** A delegated run leaves the loop as it was, and so does every message once it has ended. */
  lemma NoEffect(l: Loop, input: Input)
    requires !l.alive || input.msg.FireDelegated?
    ensures Handle(l, input) == l
  {
  }
}
