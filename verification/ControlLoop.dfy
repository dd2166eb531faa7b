/** The single-writer loop of `main.rs`: it owns the wallets' nonces, the warmed
    connections, the pre-signed batch, the task handles and the armed flag, and handles
    one control message at a time.

    `Loop` is the loop's state as a value, `Handle` the effect of one message on it, and
    class `Controller` the loop itself, which updates the same state in place and is proved
    to do what `Handle` says. Replies of RPC endpoints are arbitrary. */
module ControlLoop {
  import opened Basics

  type Calldata = nat

  datatype Url = Url(text: string, parses: bool)

  datatype Wallet = Wallet(address: Address, nextNonce: nat)

  datatype Tx = Tx(target: Address, calldata: Calldata, value: nat, nonce: nat)

  datatype PreparedWallet = PreparedWallet(address: Address, tx: Tx)

  datatype PreparedFire = PreparedFire(wallets: seq<PreparedWallet>, providers: seq<Url>, sequencer: Option<Url>)

  /** The configuration fields the loop reads. It is re-read for every message and may have
      been replaced through the API since the previous one. */
  datatype Config = Config(
    triggerMode: string, triggerTimestampUnix: nat, mintMode: string,
    httpRpcUrls: seq<Url>, sequencerHttpUrl: Url, clockDriftRefuseArmMs: nat)

  /** Replies to `prepare_fire`: its three reads, and the wallets whose signing fails. */
  datatype RpcAnswers = RpcAnswers(chainId: bool, gasPrice: bool, gasEstimate: bool, unsignable: set<Address>)

  /** Everything the outside world answers while one message is handled. */
  datatype Replies = Replies(drift: Option<int>, tickerUp: bool, price: Option<nat>, rpc: RpcAnswers)

  datatype ControlMsg =
    | Arm
    | Disarm
    | FireNow
    | Prepare
    | FireCopymint(copyTarget: Address, copyCalldata: Calldata, copyValue: nat)
    | SetTarget(nftContract: Address, newCalldata: Calldata, newValue: nat)
    | FireDelegated

  datatype Input = Input(msg: ControlMsg, cfg: Config, replies: Replies)

  datatype Origin = HeldBatch | JustInTime | Copymint

  /** What the loop did to the outside, in order: batches signed and kept, failed attempts
      to sign (with the mint value they leave behind), and batches broadcast. */
  datatype Event =
    | Prepared(value: nat)
    | PrepareFailed(quoted: nat)
    | Fired(batch: seq<PreparedWallet>, providers: seq<Url>, sequencer: Option<Url>, origin: Origin)

  /** Task handles hold the number of the arm session that spawned the task. */
  datatype Loop = Loop(
    alive: bool,
    wallets: seq<Wallet>,
    target: Address,
    adminWatchTarget: Address,
    calldata: Calldata,
    mintValue: nat,
    watcher: Option<nat>,
    prepareTimer: Option<nat>,
    reprepare: Option<nat>,
    providers: seq<Url>,
    sequencer: Option<Url>,
    ticker: bool,
    prepared: Option<PreparedFire>,
    armed: bool,
    arms: nat,
    log: seq<Event>)

  // ---------------------------------------------------------------- signing a batch

  /** `prepare_fire` succeeds: there is an endpoint, its reads answer, every wallet signs. */
  predicate CanPrepare(wallets: seq<Wallet>, providers: seq<Url>, rpc: RpcAnswers) {
    && providers != []
    && rpc.chainId && rpc.gasPrice && rpc.gasEstimate
    && forall i :: 0 <= i < |wallets| ==> wallets[i].address !in rpc.unsignable
  }

  /** One transaction per wallet, in wallet order, at that wallet's next nonce. */
  function Signed(wallets: seq<Wallet>, target: Address, calldata: Calldata, value: nat): (b: seq<PreparedWallet>)
    ensures |b| == |wallets|
    ensures forall i :: 0 <= i < |b| ==>
                          b[i] == PreparedWallet(wallets[i].address, Tx(target, calldata, value, wallets[i].nextNonce))
  {
    seq(|wallets|, i requires 0 <= i < |wallets| =>
      PreparedWallet(wallets[i].address, Tx(target, calldata, value, wallets[i].nextNonce)))
  }

  predicate Holds(batch: seq<PreparedWallet>, a: Address) {
    exists j :: 0 <= j < |batch| && batch[j].address == a
  }

  /** Next nonces after a batch is committed to broadcast. */
  function Advanced(wallets: seq<Wallet>, batch: seq<PreparedWallet>): (ws: seq<Wallet>)
    ensures |ws| == |wallets|
    ensures forall i :: 0 <= i < |ws| ==>
                          ws[i] == if Holds(batch, wallets[i].address)
                                   then wallets[i].(nextNonce := wallets[i].nextNonce + 1) else wallets[i]
  {
    seq(|wallets|, i requires 0 <= i < |wallets| =>
      if Holds(batch, wallets[i].address) then wallets[i].(nextNonce := wallets[i].nextNonce + 1) else wallets[i])
  }

  /** The endpoints `warm_connections` keeps: those whose URL parses, in order. */
  function Parseable(urls: seq<Url>): seq<Url> {
    if urls == [] then []
    else Parseable(urls[..|urls| - 1]) + (if urls[|urls| - 1].parses then [urls[|urls| - 1]] else [])
  }

  function WarmSequencer(cfg: Config): Option<Url> {
    if cfg.sequencerHttpUrl.text == "" || !cfg.sequencerHttpUrl.parses then None else Some(cfg.sequencerHttpUrl)
  }

  // ---------------------------------------------------------------- one message

  predicate ArmRefused(l: Loop, cfg: Config, replies: Replies) {
    || l.watcher.Some?
    || (&& cfg.triggerMode == "timestamp" && cfg.clockDriftRefuseArmMs > 0
        && replies.drift.Some? && Abs(replies.drift.value) >= cfg.clockDriftRefuseArmMs)
  }

  /** The trigger instant is known, so one prepare is scheduled ahead of it. */
  predicate TimerScheduled(cfg: Config) {
    cfg.triggerMode == "timestamp" && cfg.triggerTimestampUnix > 0
  }

  /** Arming up to the point where the loop may queue a message for itself. */
  function ArmBegin(l: Loop, cfg: Config, replies: Replies): Loop {
    l.(providers := Parseable(cfg.httpRpcUrls),
       sequencer := WarmSequencer(cfg),
       ticker := replies.tickerUp,
       prepared := None,
       armed := true,
       watcher := Some(l.arms),
       prepareTimer := if TimerScheduled(cfg) then Some(l.arms) else l.prepareTimer,
       arms := l.arms + 1)
  }

  /** Arming after the self-sent `Prepare` was accepted by the channel. */
  function ArmFinish(l: Loop): Loop
    requires l.watcher.Some?
  {
    l.(reprepare := l.watcher)
  }

  predicate RechecksPrice(cfg: Config) {
    cfg.mintMode == "seadrop" && cfg.triggerMode != "timestamp"
  }

  /** The mint value a prepare works with: a fresh quote when one is due and answered. */
  function Quote(l: Loop, cfg: Config, replies: Replies): nat {
    if RechecksPrice(cfg) && replies.price.Some? then replies.price.value else l.mintValue
  }

  function KeepBatch(l: Loop, value: nat): Loop {
    l.(mintValue := value,
       prepared := Some(PreparedFire(Signed(l.wallets, l.target, l.calldata, value), l.providers, l.sequencer)),
       log := l.log + [Prepared(value)])
  }

  function FailPrepare(l: Loop, value: nat): Loop {
    l.(mintValue := value, log := l.log + [PrepareFailed(value)])
  }

  function HandlePrepare(l: Loop, cfg: Config, replies: Replies): Loop {
    if l.providers == [] then l
    else if RechecksPrice(cfg) && cfg.httpRpcUrls == [] then l.(alive := false) // index out of bounds
    else if CanPrepare(l.wallets, l.providers, replies.rpc) then KeepBatch(l, Quote(l, cfg, replies))
    else FailPrepare(l, Quote(l, cfg, replies))
  }

  /** Everything an arm session owns is dropped. */
  function Teardown(l: Loop): Loop {
    l.(watcher := None, prepareTimer := None, reprepare := None, prepared := None,
       providers := [], sequencer := None, ticker := false, armed := false)
  }

  function Commit(l: Loop, batch: seq<PreparedWallet>, providers: seq<Url>, sequencer: Option<Url>,
          origin: Origin): Loop {
    l.(wallets := Advanced(l.wallets, batch), log := l.log + [Fired(batch, providers, sequencer, origin)])
  }

  /** Endpoints of a fire that was not prepared ahead: the warmed ones, or fresh ones. */
  function JitProviders(l: Loop, cfg: Config): seq<Url> {
    if l.providers == [] then Parseable(cfg.httpRpcUrls) else l.providers
  }

  function JitSequencer(l: Loop, cfg: Config): Option<Url> {
    if l.providers == [] then WarmSequencer(cfg) else l.sequencer
  }

  function JitFire(l: Loop, cfg: Config, replies: Replies, target: Address, calldata: Calldata, value: nat,
          origin: Origin): Loop {
    if CanPrepare(l.wallets, JitProviders(l, cfg), replies.rpc)
    then Commit(l, Signed(l.wallets, target, calldata, value), JitProviders(l, cfg), JitSequencer(l, cfg), origin)
    else l
  }

  function HandleFireNow(l: Loop, cfg: Config, replies: Replies): Loop {
    Teardown(
      if l.prepared.Some? then
        var pf := l.prepared.value; Commit(l, pf.wallets, pf.providers, pf.sequencer, HeldBatch)
      else JitFire(l, cfg, replies, l.target, l.calldata, l.mintValue, JustInTime))
  }

  function Handle(l: Loop, i: Input): Loop {
    if !l.alive then l else
    match i.msg
    case Arm =>
      if ArmRefused(l, i.cfg, i.replies) then l
      else if TimerScheduled(i.cfg) then ArmBegin(l, i.cfg, i.replies)
      else ArmFinish(ArmBegin(l, i.cfg, i.replies))
    case Prepare => HandlePrepare(l, i.cfg, i.replies)
    case Disarm => Teardown(l)
    case FireNow => HandleFireNow(l, i.cfg, i.replies)
    case FireCopymint(t, c, v) => JitFire(l, i.cfg, i.replies, t, c, v, Copymint)
    case SetTarget(n, c, v) => Teardown(l).(adminWatchTarget := n, calldata := c, mintValue := v)
    case FireDelegated => l
  }

  /** The loop over a whole run of messages. */
  function Run(l: Loop, inputs: seq<Input>): Loop {
    if inputs == [] then l else Handle(Run(l, inputs[..|inputs| - 1]), inputs[|inputs| - 1])
  }

  /** The loop as `main` starts it: nothing armed, warmed, held or logged. */
  predicate Initial(l: Loop) {
    && l.alive && !l.armed && l.watcher.None? && l.prepareTimer.None? && l.reprepare.None?
    && l.prepared.None? && l.providers == [] && l.sequencer.None? && l.arms == 0 && l.log == []
  }
}
