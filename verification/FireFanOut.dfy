/** `executor.rs`: broadcasting a prepared batch. Every wallet has a task of its own that races
    the sequencer against the backup endpoints, waits for inclusion wherever a send was
    acknowledged, and reports one result. Time is a count of milliseconds. */
module FireFanOut {
  import opened Basics
  import Inclusion

  const SEND_TIMEOUT: nat := 10_000

  datatype Reply = Ack(after: nat) | RpcError(after: nat) | Stall

  datatype SendAttempt = Acked | Refused | TimedOut

  /** One endpoint as one wallet sees it: its answer to the send, its answers to receipt reads,
      and the status in the receipt it serves. */
  datatype Target = Target(send: Reply, rpc: Inclusion.Endpoint, status: bool)

  datatype Config = Config(
    blockTimeMs: nat, inclusionTimeoutMs: nat, jitterMin: nat, jitterMax: nat,
    sequencerUrl: string, backupUrls: seq<string>)

  /** Shared by the whole batch: configuration, block ticker, when it started and was triggered. */
  datatype Fire = Fire(cfg: Config, ticker: Option<Inclusion.Ticker>, seen: nat, started: nat, triggered: nat)

  /** `arrival` is the order in which the backups' races happen to end. */
  datatype Wallet = Wallet(address: Address, preparedAt: nat, draw: nat, backups: seq<Target>, sequencer: Option<Target>,
                           arrival: seq<nat>)

  /** Every index below `n`, once each. */
  ghost predicate IsOrder(order: seq<nat>, n: nat) {
    |order| == n && Distinct(order) && forall i: nat :: i in order <==> i < n
  }

  datatype AckSource = FromSequencer | FromBackup

  /** How one broadcast that was acknowledged ended. */
  datatype Attempt =
    | Included(status: bool, ackMs: nat, inclusionMs: nat, url: string)
    | NotSeen(ackMs: nat, url: string)

  datatype Detail = Confirmed | Reverted | NotConfirmed | SequencerOnly | AllFailed | Panic

  datatype MintResult = MintResult(
    address: Address, detail: Detail, triggerToDispatchMs: Option<nat>, prepareAgeMs: nat,
    sendToAckMs: Option<nat>, dispatchToInclusionMs: Option<nat>, ackSource: Option<AckSource>, ackedUrl: Option<string>)

  datatype TaskEnd = Finished(result: MintResult, at: nat) | Panicked(at: nat)

  // ---------------------------------------------------------------- sending

  /** A send never takes longer than the timeout, however the endpoint behaves. */
  function SendRawTx(reply: Reply, timeout: nat): (r: (SendAttempt, nat))
    ensures r.1 <= timeout
    ensures r.0.Acked? <==> reply.Ack? && reply.after <= timeout
    ensures r.0.TimedOut? <==> reply.Stall? || reply.after > timeout
    ensures r.1 == if r.0.TimedOut? then timeout else reply.after
  {
    match reply
    case Stall => (TimedOut, timeout)
    case Ack(d) => if d <= timeout then (Acked, d) else (TimedOut, timeout)
    case RpcError(d) => if d <= timeout then (Refused, d) else (TimedOut, timeout)
  }

  predicate Acks(t: Target) { SendRawTx(t.send, SEND_TIMEOUT).0.Acked? }

  function SendTime(t: Target): nat { SendRawTx(t.send, SEND_TIMEOUT).1 }

  /** Ten seconds decide between an acknowledgement and a timeout. */
  lemma SendMeaning(t: Target)
    ensures Acks(t) <==> t.send.Ack? && t.send.after <= 10_000
    ensures SendTime(t) == if t.send.Stall? || t.send.after > 10_000 then 10_000 else t.send.after
  {
  }

  /** `None` draws nothing and sleeps nothing; an inverted range panics. */
  datatype Jitter = NoJitter | Sleep(ms: nat) | InvertedRange

  function SampleJitter(min: nat, max: nat, draw: nat): (j: Jitter)
    ensures j.Sleep? ==> min <= j.ms <= max
    ensures j.InvertedRange? <==> max != 0 && max < min
    ensures j.NoJitter? <==> max == 0
  {
    if max == 0 then NoJitter else if max < min then InvertedRange
    else Sleep(min + draw % (max - min + 1))
  }

  /** Every delay of the range can be drawn. */
  lemma EveryJitter(min: nat, max: nat, ms: nat)
    requires max != 0 && min <= ms <= max
    ensures exists draw: nat :: SampleJitter(min, max, draw) == Sleep(ms)
  {
    assert SampleJitter(min, max, ms - min) == Sleep(ms);
  }

  // ---------------------------------------------------------------- deciding

  function PreferSequencerAck(sequencer: Option<(nat, string)>, backup: Option<(nat, string)>): (r: Option<(nat, string)>)
    ensures r.None? <==> sequencer.None? && backup.None?
    ensures sequencer.Some? ==> r == sequencer
    ensures sequencer.None? ==> r == backup
  {
    if sequencer.Some? then sequencer else backup
  }

  function ClassifyAckSource(sequencerUrl: string, ackedUrl: string): AckSource {
    if sequencerUrl != "" && ackedUrl == sequencerUrl then FromSequencer else FromBackup
  }

  /** Index of the first included attempt, or the number of results. */
  function FirstIncluded(results: seq<Option<Attempt>>): (i: nat)
    ensures i <= |results|
    ensures i < |results| ==> results[i].Some? && results[i].value.Included?
    ensures forall j :: 0 <= j < i ==> results[j].None? || results[j].value.NotSeen?
  {
    if results == [] then 0
    else if results[0].Some? && results[0].value.Included? then 0
    else
      assert forall j :: 0 <= j < |results[1..]| ==> results[1..][j] == results[j + 1];
      1 + FirstIncluded(results[1..])
  }

  function FirstNotSeen(results: seq<Option<Attempt>>): (i: nat)
    ensures i <= |results|
    ensures i < |results| ==> results[i].Some? && results[i].value.NotSeen?
    ensures forall j :: 0 <= j < i ==> results[j].None? || results[j].value.Included?
  {
    if results == [] then 0
    else if results[0].Some? && results[0].value.NotSeen? then 0
    else
      assert forall j :: 0 <= j < |results[1..]| ==> results[1..][j] == results[j + 1];
      1 + FirstNotSeen(results[1..])
  }

  /** The four-way decision. Taking `.value` of the preferred acknowledgement, and calling every
      result of the last branch a failure, are what the program asserts at run time. */
  function Decide(address: Address, sequencerUrl: string, triggerToDispatch: nat, prepareAge: nat,
                  sequencerAck: Option<(nat, string)>, results: seq<Option<Attempt>>): MintResult
  {
    var i := FirstIncluded(results);
    var k := FirstNotSeen(results);
    if i < |results| then
      var a := results[i].value;
      var ack := PreferSequencerAck(sequencerAck, Some((a.ackMs, a.url))).value;
      MintResult(address, if a.status then Confirmed else Reverted, Some(triggerToDispatch), prepareAge, Some(ack.0),
                 Some(a.inclusionMs), Some(ClassifyAckSource(sequencerUrl, ack.1)), Some(ack.1))
    else if k < |results| then
      var a := results[k].value;
      var ack := PreferSequencerAck(sequencerAck, Some((a.ackMs, a.url))).value;
      MintResult(address, NotConfirmed, Some(triggerToDispatch), prepareAge, Some(ack.0),
                 None, Some(ClassifyAckSource(sequencerUrl, ack.1)), Some(ack.1))
    else if sequencerAck.Some? then
      MintResult(address, SequencerOnly, Some(triggerToDispatch), prepareAge, Some(sequencerAck.value.0),
                 None, Some(FromSequencer), Some(sequencerAck.value.1))
    else
      assert forall j :: 0 <= j < |results| ==> results[j].None?;
      MintResult(address, AllFailed, Some(triggerToDispatch), prepareAge, None, None, None, None)
  }

  function PanicResult(address: Address): MintResult {
    MintResult(address, Panic, None, 0, None, None, None, None)
  }

  // ---------------------------------------------------------------- one wallet's task

  predicate ValidFire(f: Fire) {
    f.cfg.blockTimeMs > 0
  }

  ghost predicate TickerReady(f: Fire) {
    f.ticker.Some? ==> Inclusion.ValidTicker(f.ticker.value) && f.seen <= f.ticker.value.version(f.started)
  }

  /** The name a backup endpoint is reported under: the configured URL at its position. */
  function BackupUrl(cfg: Config, i: nat): string {
    if i < |cfg.backupUrls| then cfg.backupUrls[i] else "rpc[" + Decimal(i) + "]"
  }

  /** `a` is how a wait on `t` that begins at `from` may end. */
  ghost predicate EndOfWait(f: Fire, t: Target, dispatch: nat, from: nat, a: Attempt) {
    var deadline := from + f.cfg.inclusionTimeoutMs;
    if a.Included? then
      a.status == t.status && dispatch + a.inclusionMs <= deadline
      && Inclusion.CanEnd(t.rpc, f.ticker, from, f.cfg.blockTimeMs, deadline,
                          Inclusion.Included(dispatch + a.inclusionMs))
    else Inclusion.CanEnd(t.rpc, f.ticker, from, f.cfg.blockTimeMs, deadline, Inclusion.TimedOut)
  }

  /** Waits on one endpoint from time `from` for a send acknowledged after `ackMs`. */
  method AwaitInclusion(f: Fire, t: Target, dispatch: nat, from: nat, ackMs: nat, url: string)
    returns (attempt: Attempt, end: nat)
    requires ValidFire(f) && TickerReady(f) && f.started <= dispatch <= from
    ensures from <= end <= from + f.cfg.inclusionTimeoutMs
    ensures attempt.ackMs == ackMs && attempt.url == url && EndOfWait(f, t, dispatch, from, attempt)
    ensures end == if attempt.Included? then dispatch + attempt.inclusionMs else from + f.cfg.inclusionTimeoutMs
  {
    var outcome, asks := Inclusion.WaitForReceipt(t.rpc, f.ticker, f.seen, from, f.cfg.blockTimeMs,
                                                 f.cfg.inclusionTimeoutMs);
    assert Inclusion.CanEnd(t.rpc, f.ticker, from, f.cfg.blockTimeMs, from + f.cfg.inclusionTimeoutMs, outcome);
    match outcome
    case Included(at) => attempt, end := Included(t.status, ackMs, at - dispatch, url), at;
    case TimedOut => attempt, end := NotSeen(ackMs, url), from + f.cfg.inclusionTimeoutMs;
  }

  /** What a backup's slot says: nothing unless it acknowledged, else how its own wait ended. */
  ghost predicate SlotOf(f: Fire, w: Wallet, i: nat, dispatch: nat, slot: Option<Attempt>)
    requires i < |w.backups|
  {
    var t := w.backups[i];
    && (slot.Some? <==> Acks(t))
    && (slot.Some? ==> && slot.value.ackMs == SendTime(t) && slot.value.url == BackupUrl(f.cfg, i)
                       && EndOfWait(f, t, dispatch, dispatch + SendTime(t), slot.value))
  }

  predicate AllNone(results: seq<Option<Attempt>>) {
    forall i :: 0 <= i < |results| ==> results[i].None?
  }

  lemma FilledSlot(f: Fire, w: Wallet, i: nat, dispatch: nat, a: Attempt)
    requires i < |w.backups| && Acks(w.backups[i]) && a.ackMs == SendTime(w.backups[i]) && a.url == BackupUrl(f.cfg, i)
    requires EndOfWait(f, w.backups[i], dispatch, dispatch + SendTime(w.backups[i]), a)
    ensures SlotOf(f, w, i, dispatch, Some(a))
  {
  }

  /** One backup: nothing unless its send was acknowledged, else how its own wait ended. */
  method RaceBackup(f: Fire, w: Wallet, i: nat, dispatch: nat) returns (slot: Option<Attempt>, end: nat)
    requires ValidFire(f) && TickerReady(f) && f.started <= dispatch && i < |w.backups|
    ensures SlotOf(f, w, i, dispatch, slot)
    ensures dispatch <= end <= dispatch + SEND_TIMEOUT + if slot.Some? then f.cfg.inclusionTimeoutMs else 0
    ensures slot.None? ==> end == dispatch + SendTime(w.backups[i])
  {
    if Acks(w.backups[i]) {
      slot, end := AwaitBackup(f, w, i, dispatch);
    } else {
      slot, end := None, dispatch + SendTime(w.backups[i]);
    }
  }

  method AwaitBackup(f: Fire, w: Wallet, i: nat, dispatch: nat) returns (slot: Option<Attempt>, end: nat)
    requires ValidFire(f) && TickerReady(f) && f.started <= dispatch && i < |w.backups| && Acks(w.backups[i])
    ensures slot.Some? && SlotOf(f, w, i, dispatch, slot)
    ensures dispatch <= end <= dispatch + SEND_TIMEOUT + f.cfg.inclusionTimeoutMs
  {
    var t := w.backups[i];
    var ackMs, url := SendTime(t), BackupUrl(f.cfg, i);
    var attempt;
    attempt, end := AwaitInclusion(f, t, dispatch, dispatch + ackMs, ackMs, url);
    FilledSlot(f, w, i, dispatch, attempt);
    slot := Some(attempt);
  }

  /** The result of one backup's race, as it arrives. */
  datatype Arrival = Arrival(index: nat, slot: Option<Attempt>)

  /** The slots of `n` backups after these arrivals: each goes where its backup stands. */
  function Joined(n: nat, arrivals: seq<Arrival>): (slots: seq<Option<Attempt>>)
    ensures |slots| == n
  {
    if arrivals == [] then seq(n, _ => None)
    else
      var last, before := arrivals[|arrivals| - 1], Joined(n, arrivals[..|arrivals| - 1]);
      if last.index < n then before[last.index := last.slot] else before
  }

  function Indices(arrivals: seq<Arrival>): seq<nat> {
    seq(|arrivals|, i requires 0 <= i < |arrivals| => arrivals[i].index)
  }

  lemma {:induction false} JoinedAt(n: nat, arrivals: seq<Arrival>, k: nat)
    requires k < |arrivals| && arrivals[k].index < n && Distinct(Indices(arrivals))
    ensures Joined(n, arrivals)[arrivals[k].index] == arrivals[k].slot
  {
    var m := |arrivals| - 1;
    if k < m {
      assert Indices(arrivals)[k] != Indices(arrivals)[m];
      assert Indices(arrivals[..m]) == Indices(arrivals)[..m];
      JoinedAt(n, arrivals[..m], k);
    }
  }

  /** Whatever order the same results arrive in, the joined list is the same. */
  lemma ArrivalOrderIsIrrelevant(n: nat, a: seq<Arrival>, b: seq<Arrival>)
    requires IsOrder(Indices(a), n) && IsOrder(Indices(b), n) && forall x :: x in a <==> x in b
    ensures Joined(n, a) == Joined(n, b)
  {
    forall i | 0 <= i < n ensures Joined(n, a)[i] == Joined(n, b)[i] {
      assert i in Indices(a);
      var k :| 0 <= k < |a| && Indices(a)[k] == i;
      assert a[k] in b;
      var m :| 0 <= m < |b| && b[m] == a[k];
      JoinedAt(n, a, k);
      JoinedAt(n, b, m);
    }
  }

  /** `end` is when the last of these backups' sends was over. */
  ghost predicate SendsOver(w: Wallet, arrived: seq<nat>, dispatch: nat, end: nat) {
    && (forall i :: i in arrived && i < |w.backups| ==> dispatch + SendTime(w.backups[i]) <= end)
    && (end == dispatch || exists i :: i in arrived && i < |w.backups| && end == dispatch + SendTime(w.backups[i]))
  }

  lemma OneSendOver(w: Wallet, arrived: seq<nat>, dispatch: nat, end: nat, i: nat)
    requires SendsOver(w, arrived, dispatch, end) && i < |w.backups|
    ensures SendsOver(w, arrived + [i], dispatch, Max(end, dispatch + SendTime(w.backups[i])))
  {
    var all := arrived + [i];
    assert i in all && forall k :: k in arrived ==> k in all;
  }

  /** All backup endpoints at once, ending in any order: one slot each, where the backup stands,
      and over when the last one is. */
  method RaceBackups(f: Fire, w: Wallet, dispatch: nat)
    returns (results: seq<Option<Attempt>>, end: nat, ghost arrivals: seq<Arrival>)
    requires ValidFire(f) && TickerReady(f) && f.started <= dispatch && IsOrder(w.arrival, |w.backups|)
    ensures |results| == |w.backups|
    ensures forall i :: 0 <= i < |results| ==> SlotOf(f, w, i, dispatch, results[i])
    ensures dispatch <= end <= dispatch + SEND_TIMEOUT + if AllNone(results) then 0 else f.cfg.inclusionTimeoutMs
    ensures Indices(arrivals) == w.arrival && results == Joined(|w.backups|, arrivals)
    ensures AllNone(results) ==> SendsOver(w, w.arrival, dispatch, end)
  {
    results, end, arrivals := seq(|w.backups|, _ => None), dispatch, [];
    for j := 0 to |w.arrival|
      invariant results == Joined(|w.backups|, arrivals) && Indices(arrivals) == w.arrival[..j]
      invariant Racing(f, w, dispatch, w.arrival[..j], results, end)
    {
      var i := w.arrival[j];
      assert i in w.arrival;
      var slot, over := RaceBackup(f, w, i, dispatch);
      OneMoreRaced(f, w, dispatch, w.arrival[..j], results, end, i, slot, over);
      assert w.arrival[..j + 1] == w.arrival[..j] + [i];
      results, arrivals := results[i := slot], arrivals + [Arrival(i, slot)];
      assert arrivals[..|arrivals| - 1] == arrivals[..j];
      end := Max(end, over);
    }
    assert w.arrival[..|w.arrival|] == w.arrival;
  }

  /** The backups in `arrived` have their slots; the others' are empty. */
  ghost predicate Filled(f: Fire, w: Wallet, dispatch: nat, arrived: seq<nat>, results: seq<Option<Attempt>>) {
    && |results| == |w.backups|
    && forall i :: 0 <= i < |results| ==> if i in arrived then SlotOf(f, w, i, dispatch, results[i]) else results[i].None?
  }

  lemma FillsOne(f: Fire, w: Wallet, dispatch: nat, arrived: seq<nat>, results: seq<Option<Attempt>>, i: nat,
                 slot: Option<Attempt>)
    requires Filled(f, w, dispatch, arrived, results) && i < |w.backups| && i !in arrived
    requires SlotOf(f, w, i, dispatch, slot)
    ensures Filled(f, w, dispatch, arrived + [i], results[i := slot])
    ensures AllNone(results[i := slot]) <==> AllNone(results) && slot.None?
  {
    var after := results[i := slot];
    assert after[i] == slot && results[i].None?;
    assert forall j :: 0 <= j < |results| && j != i ==> after[j] == results[j];
  }

  /** The races of the backups in `arrived` are over, the last of them at `end`. */
  ghost predicate Racing(f: Fire, w: Wallet, dispatch: nat, arrived: seq<nat>, results: seq<Option<Attempt>>, end: nat) {
    && Filled(f, w, dispatch, arrived, results)
    && dispatch <= end <= dispatch + SEND_TIMEOUT + (if AllNone(results) then 0 else f.cfg.inclusionTimeoutMs)
    && (AllNone(results) ==> SendsOver(w, arrived, dispatch, end))
  }

  lemma OneMoreRaced(f: Fire, w: Wallet, dispatch: nat, arrived: seq<nat>, results: seq<Option<Attempt>>, end: nat,
                     i: nat, slot: Option<Attempt>, over: nat)
    requires Racing(f, w, dispatch, arrived, results, end) && i < |w.backups| && i !in arrived
    requires SlotOf(f, w, i, dispatch, slot)
    requires dispatch <= over <= dispatch + SEND_TIMEOUT + if slot.Some? then f.cfg.inclusionTimeoutMs else 0
    requires slot.None? ==> over == dispatch + SendTime(w.backups[i])
    ensures Racing(f, w, dispatch, arrived + [i], results[i := slot], Max(end, over))
  {
    FillsOne(f, w, dispatch, arrived, results, i, slot);
    if AllNone(results) { OneSendOver(w, arrived, dispatch, end, i); }
  }

  predicate SequencerAcks(w: Wallet) { w.sequencer.Some? && Acks(w.sequencer.value) }

  function SequencerAck(cfg: Config, w: Wallet): Option<(nat, string)> {
    if SequencerAcks(w) then Some((SendTime(w.sequencer.value), cfg.sequencerUrl)) else None
  }

  /** The endpoint polled when only the sequencer acknowledged. */
  function FallbackTarget(w: Wallet): Target
    requires w.backups != [] || w.sequencer.Some?
  {
    if w.backups != [] then w.backups[0] else w.sequencer.value
  }

  /** `from` is when the last of the wallet's sends was over, the sequencer's among them. */
  ghost predicate LastSendOver(w: Wallet, dispatch: nat, from: nat) {
    && (forall i :: 0 <= i < |w.backups| ==> dispatch + SendTime(w.backups[i]) <= from)
    && (w.sequencer.Some? ==> dispatch + SendTime(w.sequencer.value) <= from)
    && (|| from == dispatch || (w.sequencer.Some? && from == dispatch + SendTime(w.sequencer.value))
        || exists i :: 0 <= i < |w.backups| && from == dispatch + SendTime(w.backups[i]))
  }

  lemma SendsJoined(w: Wallet, dispatch: nat, over: nat)
    requires IsOrder(w.arrival, |w.backups|) && SendsOver(w, w.arrival, dispatch, over)
    ensures LastSendOver(w, dispatch, Max(over, dispatch + if w.sequencer.Some? then SendTime(w.sequencer.value) else 0))
  {
    assert forall i: nat :: i < |w.backups| ==> i in w.arrival;
  }

  ghost predicate FallbackSlot(f: Fire, w: Wallet, dispatch: nat, slot: Option<Attempt>)
    requires w.sequencer.Some?
  {
    && slot.Some?
    && slot.value.ackMs == SendTime(w.sequencer.value) && slot.value.url == f.cfg.sequencerUrl
    && exists from :: dispatch <= from <= dispatch + SEND_TIMEOUT && LastSendOver(w, dispatch, from)
                      && EndOfWait(f, FallbackTarget(w), dispatch, from, slot.value)
  }

  /** The results a task decides on: one slot per backup and, if no backup but the sequencer
      acknowledged, one more for the wait that replaces theirs. */
  ghost predicate Raced(f: Fire, w: Wallet, dispatch: nat, results: seq<Option<Attempt>>)
    requires w.backups != [] || w.sequencer.Some?
  {
    var n := |w.backups|;
    && n <= |results|
    && (forall i :: 0 <= i < n ==> SlotOf(f, w, i, dispatch, results[i]))
    && (if AllNone(results[..n]) && SequencerAcks(w) then
          |results| == n + 1 && FallbackSlot(f, w, dispatch, results[n])
        else |results| == n)
  }

  function Since(later: nat, earlier: nat): nat { if earlier <= later then later - earlier else 0 }

  /** The fallback wait runs only if no backup reached a wait of its own. */
  method Fallback(f: Fire, w: Wallet, dispatch: nat, raced: seq<Option<Attempt>>, from: nat)
    returns (results: seq<Option<Attempt>>, end: nat)
    requires ValidFire(f) && TickerReady(f) && f.started <= dispatch <= from && (w.backups != [] || w.sequencer.Some?)
    requires |raced| == |w.backups| && forall i :: 0 <= i < |raced| ==> SlotOf(f, w, i, dispatch, raced[i])
    requires from <= dispatch + SEND_TIMEOUT + if AllNone(raced) then 0 else f.cfg.inclusionTimeoutMs
    requires AllNone(raced) ==> LastSendOver(w, dispatch, from)
    ensures Raced(f, w, dispatch, results) && |results| >= |raced| && results[..|raced|] == raced
    ensures end <= dispatch + SEND_TIMEOUT + f.cfg.inclusionTimeoutMs
  {
    results, end := raced, from;
    assert raced[..|raced|] == raced;
    if AllNone(raced) && SequencerAcks(w) {
      var attempt;
      attempt, end := AwaitInclusion(f, FallbackTarget(w), dispatch, from, SendTime(w.sequencer.value),
          f.cfg.sequencerUrl);
      results := raced + [Some(attempt)];
      assert results[..|raced|] == raced;
    }
  }

  function TaskResult(f: Fire, w: Wallet, dispatch: nat, results: seq<Option<Attempt>>): MintResult {
    Decide(w.address, f.cfg.sequencerUrl, Since(dispatch, f.triggered), Since(dispatch, w.preparedAt),
           SequencerAck(f.cfg, w), results)
  }

  /** How a wallet's task may end. */
  ghost predicate TaskEnds(f: Fire, w: Wallet, done: TaskEnd)
    requires w.backups != [] || w.sequencer.Some?
  {
    match done
    case Panicked(at) => at == f.started && f.cfg.jitterMax != 0 && f.cfg.jitterMax < f.cfg.jitterMin
    case Finished(result, at) =>
      && !(f.cfg.jitterMax != 0 && f.cfg.jitterMax < f.cfg.jitterMin)
      && at <= f.started + f.cfg.jitterMax + SEND_TIMEOUT + f.cfg.inclusionTimeoutMs
      && exists dispatch, results ::
           && (if f.cfg.jitterMax == 0 then dispatch == f.started
               else f.started + f.cfg.jitterMin <= dispatch <= f.started + f.cfg.jitterMax)
           && Raced(f, w, dispatch, results) && result == TaskResult(f, w, dispatch, results)
  }

  /** One wallet's task: jitter, race, fall back, decide. It panics exactly if the jitter range
      is inverted, and otherwise ends within the two timeouts of its dispatch. */
  method FireWallet(f: Fire, w: Wallet) returns (done: TaskEnd)
    requires ValidFire(f) && TickerReady(f) && (w.backups != [] || w.sequencer.Some?) && IsOrder(w.arrival, |w.backups|)
    ensures TaskEnds(f, w, done)
  {
    var jitter := SampleJitter(f.cfg.jitterMin, f.cfg.jitterMax, w.draw);
    if jitter.InvertedRange? {
      return Panicked(f.started);
    }
    var dispatch := f.started + if jitter.Sleep? then jitter.ms else 0;
    var raced, over, arrivals := RaceBackups(f, w, dispatch);
    var joined := Max(over, dispatch + if w.sequencer.Some? then SendTime(w.sequencer.value) else 0);
    if AllNone(raced) { SendsJoined(w, dispatch, over); }
    var results, end := Fallback(f, w, dispatch, raced, joined);
    done := Finished(TaskResult(f, w, dispatch, results), end);
  }

  // ---------------------------------------------------------------- what a result says

  /** Nothing acknowledged the transaction. */
  predicate Unacknowledged(w: Wallet) {
    !SequencerAcks(w) && forall i :: 0 <= i < |w.backups| ==> !Acks(w.backups[i])
  }

  /** Every task that ends without panicking reports: no source exactly if nothing was
      acknowledged; an inclusion time exactly if a receipt was seen; the sequencer's
      acknowledgement whenever there was one. The branch for a sequencer acknowledgement with
      no wait behind it is never taken. */
  lemma ResultMeaning(f: Fire, w: Wallet, dispatch: nat, results: seq<Option<Attempt>>)
    requires (w.backups != [] || w.sequencer.Some?) && Raced(f, w, dispatch, results)
    ensures var r := TaskResult(f, w, dispatch, results);
            && r.address == w.address && !r.detail.SequencerOnly? && !r.detail.Panic?
            && (r.ackSource.None? <==> Unacknowledged(w))
            && (r.ackSource.None? <==> r.detail.AllFailed?)
            && (r.sendToAckMs.None? <==> r.ackSource.None?) && (r.ackedUrl.None? <==> r.ackSource.None?)
            && (r.dispatchToInclusionMs.Some? <==>
                  exists i :: 0 <= i < |results| && results[i].Some? && results[i].value.Included?)
            && (r.dispatchToInclusionMs.Some? <==> r.detail.Confirmed? || r.detail.Reverted?)
            && (SequencerAcks(w) ==> r.ackedUrl == Some(f.cfg.sequencerUrl)
                                     && r.sendToAckMs == Some(SendTime(w.sequencer.value)))
  {
    var n := |w.backups|;
    forall i | 0 <= i < n ensures results[i].Some? <==> Acks(w.backups[i]) {
      assert SlotOf(f, w, i, dispatch, results[i]);
    }
    if SequencerAcks(w) && AllNone(results[..n]) {
      assert results[n].Some?;
    } else if !AllNone(results[..n]) {
      var i :| 0 <= i < n && results[..n][i].Some?;
      assert results[i].Some?;
    } else {
      forall i | 0 <= i < n ensures results[i].None? { assert results[..n][i].None?; }
    }
  }

  /** With no acknowledgement of the sequencer, the reported one is that of a backup which did
      acknowledge: its own time, and its URL by position. The other two times count to dispatch. */
  lemma AckMeaning(f: Fire, w: Wallet, dispatch: nat, results: seq<Option<Attempt>>)
    requires (w.backups != [] || w.sequencer.Some?) && Raced(f, w, dispatch, results)
    ensures var r := TaskResult(f, w, dispatch, results);
            && r.triggerToDispatchMs == Some(Max(dispatch - f.triggered, 0))
            && r.prepareAgeMs == Max(dispatch - w.preparedAt, 0)
            && (!SequencerAcks(w) && r.ackSource.Some? ==>
                  exists i :: 0 <= i < |w.backups| && Acks(w.backups[i]) && r.sendToAckMs == Some(SendTime(w.backups[i]))
                              && r.ackedUrl == Some(BackupUrl(f.cfg, i)))
  {
    if !SequencerAcks(w) {
      var i, k := FirstIncluded(results), FirstNotSeen(results);
      if i < |results| {
        assert SlotOf(f, w, i, dispatch, results[i]);
      } else if k < |results| {
        assert SlotOf(f, w, k, dispatch, results[k]);
      }
    }
  }

  /** The first included result, if there is one. */
  predicate DecidedBy(results: seq<Option<Attempt>>, i: nat) {
    && i < |results| && results[i].Some? && results[i].value.Included?
    && forall j :: 0 <= j < i ==> results[j].None? || results[j].value.NotSeen?
  }

  /** The first acknowledged result, where none was included. */
  predicate WaitedInVain(results: seq<Option<Attempt>>, k: nat) {
    && k < |results| && results[k].Some?
    && (forall j :: 0 <= j < k ==> results[j].None?)
    && forall j :: 0 <= j < |results| ==> results[j].None? || results[j].value.NotSeen?
  }

  /** `m` reports this acknowledgement. */
  predicate Reports(m: MintResult, ackMs: nat, url: string) { m.sendToAckMs == Some(ackMs) && m.ackedUrl == Some(url) }

  /** What a report says of the attempts. A success or revert is that of the first included one, with
      its inclusion time; a result not confirmed is that of the first acknowledged one. Both report
      the sequencer's acknowledgement, or, if it gave none, the very attempt's. */
  lemma DecisionMeaning(address: Address, url: string, d: nat, p: nat, ack: Option<(nat, string)>,
                        results: seq<Option<Attempt>>)
    ensures var m := Decide(address, url, d, p, ack, results);
            && m.address == address && m.triggerToDispatchMs == Some(d) && m.prepareAgeMs == p
            && (m.detail.Confirmed? || m.detail.Reverted? ==>
                  exists i: nat :: DecidedBy(results, i) && var a := results[i].value;
                              && (m.detail.Confirmed? <==> a.status) && m.dispatchToInclusionMs == Some(a.inclusionMs)
                              && if ack.Some? then Reports(m, ack.value.0, ack.value.1) else Reports(m, a.ackMs, a.url))
            && (m.detail.NotConfirmed? ==>
                  exists k: nat :: WaitedInVain(results, k) && var a := results[k].value;
                              && m.dispatchToInclusionMs.None?
                              && if ack.Some? then Reports(m, ack.value.0, ack.value.1) else Reports(m, a.ackMs, a.url))
            && (m.detail.AllFailed? ==>
                  && ack.None? && (forall j :: 0 <= j < |results| ==> results[j].None?)
                  && m.sendToAckMs.None? && m.ackedUrl.None? && m.ackSource.None? && m.dispatchToInclusionMs.None?)
            && !m.detail.Panic?
  {
    var i, k := FirstIncluded(results), FirstNotSeen(results);
    if i < |results| {
      assert DecidedBy(results, i);
    } else if k < |results| {
      assert WaitedInVain(results, k);
    }
  }

  /** If the sequencer alone acknowledged, the one attempt reported on is a wait on the first backup,
      or on the sequencer itself where there is none, begun when the last send was over. */
  lemma FallbackPolls(f: Fire, w: Wallet, dispatch: nat, results: seq<Option<Attempt>>)
    requires (w.backups != [] || w.sequencer.Some?) && Raced(f, w, dispatch, results)
    requires SequencerAcks(w) && forall i :: 0 <= i < |w.backups| ==> !Acks(w.backups[i])
    ensures var n := |w.backups|;
            && |results| == n + 1 && results[n].Some? && (forall i :: 0 <= i < n ==> results[i].None?)
            && results[n].value.ackMs == SendTime(w.sequencer.value) && results[n].value.url == f.cfg.sequencerUrl
            && var t := if n > 0 then w.backups[0] else w.sequencer.value;
               exists from :: LastSendOver(w, dispatch, from) && EndOfWait(f, t, dispatch, from, results[n].value)
  {
    var n := |w.backups|;
    forall i | 0 <= i < n ensures results[i].None? && results[..n][i].None? {
      assert SlotOf(f, w, i, dispatch, results[i]);
    }
    assert FallbackSlot(f, w, dispatch, results[n]);
  }

  /** `a` is a receipt found in time by a wait on endpoint `t`. */
  ghost predicate SeenOn(f: Fire, t: Target, dispatch: nat, a: Attempt) {
    a.Included? && exists from :: dispatch <= from && EndOfWait(f, t, dispatch, from, a)
  }

  lemma SlotSeen(f: Fire, w: Wallet, i: nat, dispatch: nat, a: Attempt)
    requires i < |w.backups| && SlotOf(f, w, i, dispatch, Some(a)) && a.Included?
    ensures SeenOn(f, w.backups[i], dispatch, a) && a.status == w.backups[i].status
  {
    assert EndOfWait(f, w.backups[i], dispatch, dispatch + SendTime(w.backups[i]), a);
  }

  lemma FallbackSeen(f: Fire, w: Wallet, dispatch: nat, a: Attempt)
    requires w.sequencer.Some? && FallbackSlot(f, w, dispatch, Some(a)) && a.Included?
    ensures SeenOn(f, FallbackTarget(w), dispatch, a) && a.status == FallbackTarget(w).status
  {
  }

  /** The first included attempt decides success or revert. */
  lemma DecidedByFirst(address: Address, url: string, d: nat, p: nat, ack: Option<(nat, string)>,
                       results: seq<Option<Attempt>>)
    ensures var m, i := Decide(address, url, d, p, ack, results), FirstIncluded(results);
            && (m.detail.Confirmed? || m.detail.Reverted? <==> i < |results|)
            && (i < |results| ==> m.dispatchToInclusionMs == Some(results[i].value.inclusionMs)
                                  && (m.detail.Confirmed? <==> results[i].value.status))
  {
  }

  /** The included attempt at `i` was seen on an endpoint of this wallet. */
  lemma AttemptSeen(f: Fire, w: Wallet, dispatch: nat, results: seq<Option<Attempt>>, i: nat) returns (t: Target)
    requires (w.backups != [] || w.sequencer.Some?) && Raced(f, w, dispatch, results)
    requires i < |results| && results[i].Some? && results[i].value.Included?
    ensures t in w.backups || w.sequencer == Some(t)
    ensures SeenOn(f, t, dispatch, results[i].value) && results[i].value.status == t.status
  {
    if i < |w.backups| {
      t := w.backups[i];
      SlotSeen(f, w, i, dispatch, results[i].value);
    } else {
      t := FallbackTarget(w);
      FallbackSeen(f, w, dispatch, results[i].value);
    }
  }

  /** A reported success, and a reported revert, rest on a receipt of that status, found in time
      by a wait on an endpoint of this wallet: the time reported runs from the dispatch to the end of
      the read that brought it. */
  lemma ReportedStatus(f: Fire, w: Wallet, dispatch: nat, results: seq<Option<Attempt>>)
    returns (t: Target, a: Attempt, u: nat)
    requires (w.backups != [] || w.sequencer.Some?) && Raced(f, w, dispatch, results)
    ensures t in w.backups || w.sequencer == Some(t)
    ensures var r := TaskResult(f, w, dispatch, results);
            r.detail.Confirmed? || r.detail.Reverted? ==>
              && SeenOn(f, t, dispatch, a)
              && r.dispatchToInclusionMs == Some(a.inclusionMs) && (r.detail.Confirmed? <==> t.status)
              && dispatch <= u && t.rpc.found(u) && a.inclusionMs == u + t.rpc.latency(u) - dispatch
  {
    var i := FirstIncluded(results);
    t, a, u := FallbackTarget(w), NotSeen(0, ""), 0;
    DecidedByFirst(w.address, f.cfg.sequencerUrl, Since(dispatch, f.triggered), Since(dispatch, w.preparedAt),
                   SequencerAck(f.cfg, w), results);
    if i < |results| {
      a := results[i].value;
      t := AttemptSeen(f, w, dispatch, results, i);
      u := SeenIsRead(f, t, dispatch, a);
    }
  }

  lemma SeenIsRead(f: Fire, t: Target, dispatch: nat, a: Attempt) returns (u: nat)
    requires SeenOn(f, t, dispatch, a)
    ensures dispatch <= u && t.rpc.found(u) && a.inclusionMs == u + t.rpc.latency(u) - dispatch
  {
    var from :| dispatch <= from && EndOfWait(f, t, dispatch, from, a);
    u := WaitIsRead(f, t, dispatch, from, a);
  }

  lemma WaitIsRead(f: Fire, t: Target, dispatch: nat, from: nat, a: Attempt) returns (u: nat)
    requires a.Included? && EndOfWait(f, t, dispatch, from, a)
    ensures from <= u && t.rpc.found(u) && dispatch + a.inclusionMs == u + t.rpc.latency(u)
  {
    u := Inclusion.IncludedIsRead(t.rpc, f.ticker, from, f.cfg.blockTimeMs, from + f.cfg.inclusionTimeoutMs,
                                  dispatch + a.inclusionMs);
  }

  /** The source is the sequencer exactly if the reported URL is the configured one, which a
      sequencer acknowledgement guarantees unless the configured URL has been emptied. */
  lemma SourceMeaning(f: Fire, w: Wallet, dispatch: nat, results: seq<Option<Attempt>>)
    requires (w.backups != [] || w.sequencer.Some?) && Raced(f, w, dispatch, results)
    ensures var r := TaskResult(f, w, dispatch, results);
            && (r.ackSource == Some(FromSequencer) <==>
                  f.cfg.sequencerUrl != "" && r.ackedUrl == Some(f.cfg.sequencerUrl))
            && (SequencerAcks(w) ==> (r.ackSource == Some(FromSequencer) <==> f.cfg.sequencerUrl != ""))
  {
    ResultMeaning(f, w, dispatch, results);
  }

  /** The same attempt with its times forgotten. */
  function Timeless(a: Option<Attempt>): Option<Attempt> {
    match a
    case None => None
    case Some(Included(s, _, _, u)) => Some(Included(s, 0, 0, u))
    case Some(NotSeen(_, u)) => Some(NotSeen(0, u))
  }

  /** The same report, times aside. */
  predicate SameButTimes(m: MintResult, n: MintResult) {
    && m.address == n.address && m.detail == n.detail && m.ackSource == n.ackSource && m.ackedUrl == n.ackedUrl
    && (m.sendToAckMs.Some? <==> n.sendToAckMs.Some?)
    && (m.dispatchToInclusionMs.Some? <==> n.dispatchToInclusionMs.Some?)
  }

  /** The decision looks at no time. */
  lemma DecideIgnoresTimes(address: Address, url: string, d1: nat, d2: nat, p1: nat, p2: nat,
                           ack1: Option<(nat, string)>, ack2: Option<(nat, string)>,
                           r1: seq<Option<Attempt>>, r2: seq<Option<Attempt>>)
    requires |r1| == |r2| && forall i :: 0 <= i < |r1| ==> Timeless(r1[i]) == Timeless(r2[i])
    requires (ack1.Some? <==> ack2.Some?) && (ack1.Some? ==> ack1.value.1 == ack2.value.1)
    ensures var m1 := Decide(address, url, d1, p1, ack1, r1); var m2 := Decide(address, url, d2, p2, ack2, r2);
            SameButTimes(m1, m2)
  {
    assert FirstIncluded(r1) == FirstIncluded(r2) by {
      var i, k := FirstIncluded(r1), FirstIncluded(r2);
      if i < |r1| { assert Timeless(r1[i]) == Timeless(r2[i]); }
      if k < |r2| { assert Timeless(r1[k]) == Timeless(r2[k]); }
    }
    assert FirstNotSeen(r1) == FirstNotSeen(r2) by {
      var i, k := FirstNotSeen(r1), FirstNotSeen(r2);
      if i < |r1| { assert Timeless(r1[i]) == Timeless(r2[i]); }
      if k < |r2| { assert Timeless(r1[k]) == Timeless(r2[k]); }
    }
  }

  /** How an endpoint treats one transaction, whenever it answers: whether it acknowledges it, and
      whether a wait on it comes to see the receipt, with this status. */
  datatype Fate = Fate(acks: bool, lands: bool, status: bool)

  /** Every wait on the endpoint that begins while the sends last ends the same way. */
  ghost predicate AlwaysEnds(f: Fire, t: Target, dispatch: nat, lands: bool) {
    forall from: nat, outcome :: dispatch <= from <= dispatch + SEND_TIMEOUT && WaitEnds(f, t, from, outcome) ==>
                                   (outcome.Included? <==> lands)
  }

  ghost predicate WaitEnds(f: Fire, t: Target, from: nat, outcome: Inclusion.Outcome) {
    Inclusion.CanEnd(t.rpc, f.ticker, from, f.cfg.blockTimeMs, from + f.cfg.inclusionTimeoutMs, outcome)
  }

  ghost predicate Behaves(f: Fire, t: Target, dispatch: nat, fate: Fate) {
    Acks(t) == fate.acks && t.status == fate.status && AlwaysEnds(f, t, dispatch, fate.lands)
  }

  /** An endpoint that never serves the receipt in time loses it, whatever its delays. */
  lemma NeverServedIsLost(f: Fire, t: Target, dispatch: nat)
    requires forall u: nat :: u <= dispatch + SEND_TIMEOUT + f.cfg.inclusionTimeoutMs ==> !t.rpc.found(u)
    ensures AlwaysEnds(f, t, dispatch, false)
  {
  }

  /** Polling, an endpoint that serves the receipt from `r` on shows it, whenever the wait began. */
  lemma ServedIsSeen(f: Fire, t: Target, dispatch: nat, r: nat)
    requires ValidFire(f) && f.ticker.None? && Inclusion.ReadableFrom(t.rpc, r)
    requires f.cfg.blockTimeMs <= f.cfg.inclusionTimeoutMs && r + f.cfg.blockTimeMs <= dispatch + f.cfg.inclusionTimeoutMs
    ensures AlwaysEnds(f, t, dispatch, true)
  {
    forall from: nat, outcome | dispatch <= from <= dispatch + SEND_TIMEOUT && WaitEnds(f, t, from, outcome)
      ensures outcome.Included?
    {
      Inclusion.PollEnds(t.rpc, from, f.cfg.blockTimeMs, from + f.cfg.inclusionTimeoutMs, outcome, r);
    }
  }

  lemma TickedWait(f: Fire, k: Inclusion.Ticker, t: Target, from: nat, outcome: Inclusion.Outcome, r: nat, tick: nat)
    requires f.ticker == Some(k) && Inclusion.ValidTicker(k) && Inclusion.ReadableFrom(t.rpc, r)
    requires WaitEnds(f, t, from, outcome) && Max(r, from) <= tick <= from + f.cfg.inclusionTimeoutMs
    requires tick > 0 && k.version(tick) > k.version(tick - 1)
    ensures outcome.Included?
  {
    Inclusion.PushEnds(t.rpc, k, from, f.cfg.blockTimeMs, from + f.cfg.inclusionTimeoutMs, outcome, r, tick);
  }

  /** Pushed, it shows it if a tick arrives while every such wait still lasts. */
  lemma TickedIsSeen(f: Fire, k: Inclusion.Ticker, t: Target, dispatch: nat, r: nat, tick: nat)
    requires f.ticker == Some(k) && Inclusion.ValidTicker(k) && Inclusion.ReadableFrom(t.rpc, r)
    requires Max(r, dispatch + SEND_TIMEOUT) <= tick <= dispatch + f.cfg.inclusionTimeoutMs
    requires k.version(tick) > k.version(tick - 1)
    ensures AlwaysEnds(f, t, dispatch, true)
  {
    forall from: nat, outcome | dispatch <= from <= dispatch + SEND_TIMEOUT && WaitEnds(f, t, from, outcome)
      ensures outcome.Included?
    {
      TickedWait(f, k, t, from, outcome, r, tick);
    }
  }

  /** What a wait comes to, by the endpoint's fate. */
  function Outcome(fate: Fate, url: string): Attempt {
    if fate.lands then Included(fate.status, 0, 0, url) else NotSeen(0, url)
  }

  lemma WaitByFate(f: Fire, t: Target, dispatch: nat, from: nat, a: Attempt, fate: Fate)
    requires Behaves(f, t, dispatch, fate) && EndOfWait(f, t, dispatch, from, a)
    requires dispatch <= from <= dispatch + SEND_TIMEOUT
    ensures Timeless(Some(a)) == Some(Outcome(fate, a.url))
  {
    if a.Included? {
      assert WaitEnds(f, t, from, Inclusion.Included(dispatch + a.inclusionMs));
    } else {
      assert WaitEnds(f, t, from, Inclusion.TimedOut);
    }
  }

  lemma SlotByFate(f: Fire, w: Wallet, i: nat, dispatch: nat, slot: Option<Attempt>, fate: Fate)
    requires i < |w.backups| && SlotOf(f, w, i, dispatch, slot) && Behaves(f, w.backups[i], dispatch, fate)
    ensures Timeless(slot) == if fate.acks then Some(Outcome(fate, BackupUrl(f.cfg, i))) else None
  {
    match slot
    case None =>
    case Some(a) =>
      WaitByFate(f, w.backups[i], dispatch, dispatch + SendTime(w.backups[i]), a, fate);
      assert slot == Some(a);
  }

  lemma FallbackByFate(f: Fire, w: Wallet, dispatch: nat, slot: Option<Attempt>, fate: Fate)
    requires w.sequencer.Some? && FallbackSlot(f, w, dispatch, slot) && Behaves(f, FallbackTarget(w), dispatch, fate)
    ensures Timeless(slot) == Some(Outcome(fate, f.cfg.sequencerUrl))
  {
    var from :| dispatch <= from <= dispatch + SEND_TIMEOUT
                && EndOfWait(f, FallbackTarget(w), dispatch, from, slot.value);
    WaitByFate(f, FallbackTarget(w), dispatch, from, slot.value, fate);
  }

  /** Every endpoint of the wallet behaves as told; the sequencer is told of last. */
  ghost predicate AllBehave(f: Fire, w: Wallet, dispatch: nat, fates: seq<Fate>) {
    && |fates| == |w.backups| + 1
    && (forall i :: 0 <= i < |w.backups| ==> Behaves(f, w.backups[i], dispatch, fates[i]))
    && (w.sequencer.Some? ==> Behaves(f, w.sequencer.value, dispatch, fates[|w.backups|]))
  }

  /** The fate of the endpoint polled when only the sequencer acknowledged. */
  function FallbackFate(fates: seq<Fate>): Fate
    requires fates != []
  {
    fates[0]
  }

  /** The results of a race are those the endpoints' fates call for, times aside. */
  lemma RacedByFate(f: Fire, w: Wallet, dispatch: nat, results: seq<Option<Attempt>>, fates: seq<Fate>, i: nat)
    requires (w.backups != [] || w.sequencer.Some?) && Raced(f, w, dispatch, results) && AllBehave(f, w, dispatch, fates)
    requires i < |results|
    ensures var n := |w.backups|;
            Timeless(results[i]) == if i == n then Some(Outcome(FallbackFate(fates), f.cfg.sequencerUrl))
                                    else if fates[i].acks then Some(Outcome(fates[i], BackupUrl(f.cfg, i))) else None
  {
    var n := |w.backups|;
    if i < n {
      SlotByFate(f, w, i, dispatch, results[i], fates[i]);
    } else {
      FallbackByFate(f, w, dispatch, results[i], FallbackFate(fates));
    }
  }

  /** How many results there are depends on who acknowledged only. */
  lemma RacedCount(f: Fire, w: Wallet, dispatch: nat, results: seq<Option<Attempt>>, fates: seq<Fate>)
    requires (w.backups != [] || w.sequencer.Some?) && Raced(f, w, dispatch, results) && AllBehave(f, w, dispatch, fates)
    ensures var n := |w.backups|;
            |results| == if (forall i :: 0 <= i < n ==> !fates[i].acks) && w.sequencer.Some? && fates[n].acks
                         then n + 1 else n
  {
    var n := |w.backups|;
    forall i | 0 <= i < n ensures results[..n][i].None? <==> !fates[i].acks {
      assert SlotOf(f, w, i, dispatch, results[i]) && Behaves(f, w.backups[i], dispatch, fates[i]);
    }
  }

  /** Two races of the same transaction over the same endpoints, in which every endpoint meets the
      same fate at whatever times and in whatever order, report the same, times aside. */
  lemma OrderOfRepliesIsIrrelevant(f: Fire, w: Wallet, d: nat, r: seq<Option<Attempt>>,
                                   f': Fire, w': Wallet, d': nat, r': seq<Option<Attempt>>, fates: seq<Fate>)
    requires f.cfg == f'.cfg && w.address == w'.address && (w.sequencer.Some? <==> w'.sequencer.Some?)
    requires (w.backups != [] || w.sequencer.Some?) && |w.backups| == |w'.backups|
    requires AllBehave(f, w, d, fates) && AllBehave(f', w', d', fates)
    requires Raced(f, w, d, r) && Raced(f', w', d', r')
    ensures SameButTimes(TaskResult(f, w, d, r), TaskResult(f', w', d', r'))
  {
    RacedCount(f, w, d, r, fates);
    RacedCount(f', w', d', r', fates);
    forall i | 0 <= i < |r| ensures Timeless(r[i]) == Timeless(r'[i]) {
      RacedByFate(f, w, d, r, fates, i);
      RacedByFate(f', w', d', r', fates, i);
    }
    DecideIgnoresTimes(w.address, f.cfg.sequencerUrl, Since(d, f.triggered), Since(d', f'.triggered),
                       Since(d, w.preparedAt), Since(d', w'.preparedAt),
                       SequencerAck(f.cfg, w), SequencerAck(f'.cfg, w'), r, r');
  }

  // ---------------------------------------------------------------- the whole batch

  /** All wallets see the same endpoints, each in an order of its own. */
  ghost predicate SameTargets(wallets: seq<Wallet>, providers: nat, sequencer: bool) {
    forall i :: 0 <= i < |wallets| ==>
                  && |wallets[i].backups| == providers && (wallets[i].sequencer.Some? <==> sequencer)
                  && IsOrder(wallets[i].arrival, providers)
  }

  ghost predicate EndBy(f: Fire, w: Wallet, done: TaskEnd, over: nat) {
    (w.backups != [] || w.sequencer.Some?) && TaskEnds(f, w, done) && done.at <= over
  }

  /** These are ends of the first tasks, none later than `over`. */
  ghost predicate EndsBy(f: Fire, wallets: seq<Wallet>, ends: seq<TaskEnd>, over: nat) {
    |ends| <= |wallets| && forall i :: 0 <= i < |ends| ==> EndBy(f, wallets[i], ends[i], over)
  }

  lemma OneMoreEnd(f: Fire, wallets: seq<Wallet>, ends: seq<TaskEnd>, over: nat, done: TaskEnd, later: nat)
    requires EndsBy(f, wallets, ends, over) && |ends| < |wallets| && over <= later
    requires EndBy(f, wallets[|ends|], done, later)
    ensures EndsBy(f, wallets, ends + [done], later)
  {
    var longer := ends + [done];
    forall i | 0 <= i < |longer| ensures EndBy(f, wallets[i], longer[i], later) {
      if i < |ends| { assert EndBy(f, wallets[i], ends[i], over); }
    }
  }

  function LastMoment(f: Fire): nat { f.started + f.cfg.jitterMax + SEND_TIMEOUT + f.cfg.inclusionTimeoutMs }

  lemma EndsInTime(f: Fire, w: Wallet, done: TaskEnd)
    requires (w.backups != [] || w.sequencer.Some?) && TaskEnds(f, w, done)
    ensures done.at <= LastMoment(f)
  {
  }

  /** Spawns a task per wallet and awaits them all: whatever the numbers of wallets and
      endpoints, the batch is over within jitter, one send and one inclusion wait. */
  method FirePrepared(f: Fire, wallets: seq<Wallet>, providers: nat, sequencer: bool)
    returns (ok: bool, ends: seq<TaskEnd>, over: nat)
    requires ValidFire(f) && TickerReady(f) && SameTargets(wallets, providers, sequencer)
    ensures ok <==> providers > 0 || sequencer
    ensures EndsBy(f, wallets, ends, over) && |ends| == if ok then |wallets| else 0
    ensures over <= f.started + f.cfg.jitterMax + 10_000 + f.cfg.inclusionTimeoutMs
  {
    ends, over := [], f.started;
    if providers == 0 && !sequencer {
      return false, ends, over;
    }
    ok := true;
    for i := 0 to |wallets|
      invariant |ends| == i && EndsBy(f, wallets, ends, over) && over <= LastMoment(f)
    {
      var done := FireWallet(f, wallets[i]);
      var later := Max(over, done.at);
      EndsInTime(f, wallets[i], done);
      OneMoreEnd(f, wallets, ends, over, done, later);
      ends, over := ends + [done], later;
    }
  }

  // ---------------------------------------------------------------- who reports what

  /** A batch while its tasks run: the tasks that have ended, how many the awaiting loop has
      joined, and whose results were sent, in order. */
  datatype Reporting = Reporting(ended: set<nat>, joined: nat, sent: seq<nat>)

  datatype Progress = TaskDone(i: nat) | Join

  /** A task that finishes sends its own result; one that panicked is reported when joined. */
  function Advance(ends: seq<TaskEnd>, r: Reporting, p: Progress): Reporting {
    match p
    case TaskDone(i) =>
      if i >= |ends| || i in r.ended then r
      else r.(ended := r.ended + {i}, sent := if ends[i].Finished? then r.sent + [i] else r.sent)
    case Join =>
      if r.joined >= |ends| || r.joined !in r.ended then r
      else r.(joined := r.joined + 1, sent := if ends[r.joined].Panicked? then r.sent + [r.joined] else r.sent)
  }

  function AdvanceAll(ends: seq<TaskEnd>, steps: seq<Progress>): Reporting {
    if steps == [] then Reporting({}, 0, [])
    else Advance(ends, AdvanceAll(ends, steps[..|steps| - 1]), steps[|steps| - 1])
  }

  ghost predicate ReportingInvariant(ends: seq<TaskEnd>, r: Reporting) {
    && r.joined <= |ends|
    && (forall i :: i in r.ended ==> i < |ends|)
    && (forall i: nat :: i < r.joined ==> i in r.ended)
    && Distinct(r.sent)
    && forall i: nat :: i in r.sent <==> i < |ends| && if ends[i].Finished? then i in r.ended else i < r.joined
  }

  lemma {:induction false} ReportingKept(ends: seq<TaskEnd>, steps: seq<Progress>)
    ensures ReportingInvariant(ends, AdvanceAll(ends, steps))
  {
    if steps != [] {
      ReportingKept(ends, steps[..|steps| - 1]);
      var r := AdvanceAll(ends, steps[..|steps| - 1]);
      var r' := Advance(ends, r, steps[|steps| - 1]);
      if r'.sent != r.sent {
        var x := r'.sent[|r.sent|];
        assert r'.sent == r.sent + [x] && x !in r.sent;
      }
    }
  }

  /** The result wallet `i` is reported with. */
  function SentResult(wallets: seq<Wallet>, ends: seq<TaskEnd>, i: nat): MintResult
    requires |ends| == |wallets| && i < |ends|
  {
    match ends[i]
    case Finished(result, _) => result
    case Panicked(_) => PanicResult(wallets[i].address)
  }

  /** Once the awaiting loop is through, however the tasks interleaved and whichever panicked:
      every wallet was reported exactly once, by its own task or as a panic, under its address. */
  lemma ExactlyOneResult(f: Fire, wallets: seq<Wallet>, ends: seq<TaskEnd>, over: nat, steps: seq<Progress>)
    requires |ends| == |wallets| && AdvanceAll(ends, steps).joined == |ends| && EndsBy(f, wallets, ends, over)
    ensures var sent := AdvanceAll(ends, steps).sent;
            && Distinct(sent) && (forall i: nat :: i in sent <==> i < |wallets|)
    ensures forall i :: 0 <= i < |ends| ==>
                          && SentResult(wallets, ends, i).address == wallets[i].address
                          && (SentResult(wallets, ends, i).detail.Panic? <==> ends[i].Panicked?)
                          && (ends[i].Panicked? ==>
                                var r := SentResult(wallets, ends, i);
                                && r.triggerToDispatchMs.None? && r.prepareAgeMs == 0 && r.sendToAckMs.None?
                                && r.dispatchToInclusionMs.None? && r.ackSource.None? && r.ackedUrl.None?)
                          && (ends[i].Finished? ==> SentResult(wallets, ends, i) == ends[i].result)
  {
    ReportingKept(ends, steps);
    forall i | 0 <= i < |ends|
      ensures SentResult(wallets, ends, i).address == wallets[i].address
      ensures SentResult(wallets, ends, i).detail.Panic? <==> ends[i].Panicked?
    {
      assert EndBy(f, wallets[i], ends[i], over);
    }
  }

  /** How many of the first `n` tasks panicked. */
  function Panics(ends: seq<TaskEnd>, n: nat): nat
    requires n <= |ends|
  {
    if n == 0 then 0 else Panics(ends, n - 1) + if ends[n - 1].Panicked? then 1 else 0
  }

  /** The awaiting loop itself: one result per panicked task, under its wallet's address, after
      those of the panicked tasks before it, and no other. */
  method AwaitAllAndReportPanics(wallets: seq<Wallet>, ends: seq<TaskEnd>) returns (reports: seq<MintResult>)
    requires |ends| == |wallets|
    ensures |reports| == Panics(ends, |ends|)
    ensures forall i :: 0 <= i < |ends| && ends[i].Panicked? ==>
                          Panics(ends, i) < |reports| && reports[Panics(ends, i)] == PanicResult(wallets[i].address)
  {
    reports := [];
    for i := 0 to |ends|
      invariant |reports| == Panics(ends, i)
      invariant forall j :: 0 <= j < i && ends[j].Panicked? ==>
                              Panics(ends, j) < |reports| && reports[Panics(ends, j)] == PanicResult(wallets[j].address)
    {
      if ends[i].Panicked? {
        reports := reports + [PanicResult(wallets[i].address)];
      }
    }
  }

  /** The panicked ones among the wallets reported so far. */
  function PanicPart(ends: seq<TaskEnd>, sent: seq<nat>): seq<nat> {
    if sent == [] then []
    else
      var last, before := sent[|sent| - 1], PanicPart(ends, sent[..|sent| - 1]);
      if last < |ends| && ends[last].Panicked? then before + [last] else before
  }

  lemma PanicPartAppend(ends: seq<TaskEnd>, sent: seq<nat>, x: nat)
    ensures PanicPart(ends, sent + [x])
            == if x < |ends| && ends[x].Panicked? then PanicPart(ends, sent) + [x] else PanicPart(ends, sent)
  {
    assert (sent + [x])[..|sent|] == sent;
  }

  /** The panicked ones among the first `n` tasks, in order. */
  function PanickedTasks(ends: seq<TaskEnd>, n: nat): seq<nat>
    requires n <= |ends|
  {
    if n == 0 then []
    else if ends[n - 1].Panicked? then PanickedTasks(ends, n - 1) + [n - 1]
    else PanickedTasks(ends, n - 1)
  }

  lemma {:induction false} PanickedAt(ends: seq<TaskEnd>, n: nat)
    requires n <= |ends|
    ensures |PanickedTasks(ends, n)| == Panics(ends, n)
    ensures forall i :: 0 <= i < n && ends[i].Panicked? ==>
                          Panics(ends, i) < Panics(ends, n) && PanickedTasks(ends, n)[Panics(ends, i)] == i
  {
    if n > 0 {
      PanickedAt(ends, n - 1);
      var before := PanickedTasks(ends, n - 1);
      assert forall i :: 0 <= i < |before| ==> PanickedTasks(ends, n)[i] == before[i];
    }
  }

  lemma JoinReports(ends: seq<TaskEnd>, sent: seq<nat>, n: nat)
    requires n < |ends| && PanicPart(ends, sent) == PanickedTasks(ends, n)
    ensures PanicPart(ends, if ends[n].Panicked? then sent + [n] else sent) == PanickedTasks(ends, n + 1)
  {
    if ends[n].Panicked? { PanicPartAppend(ends, sent, n); }
  }

  lemma AdvanceInOrder(ends: seq<TaskEnd>, r: Reporting, p: Progress)
    requires r.joined <= |ends| && PanicPart(ends, r.sent) == PanickedTasks(ends, r.joined)
    ensures var r' := Advance(ends, r, p);
            r'.joined <= |ends| && PanicPart(ends, r'.sent) == PanickedTasks(ends, r'.joined)
  {
    match p
    case TaskDone(i) =>
      if i < |ends| && i !in r.ended && ends[i].Finished? { PanicPartAppend(ends, r.sent, i); }
    case Join =>
      if r.joined < |ends| && r.joined in r.ended { JoinReports(ends, r.sent, r.joined); }
  }

  lemma {:induction false} PanicPartIsPanicked(ends: seq<TaskEnd>, steps: seq<Progress>)
    ensures var r := AdvanceAll(ends, steps);
            r.joined <= |ends| && PanicPart(ends, r.sent) == PanickedTasks(ends, r.joined)
  {
    if steps != [] {
      PanicPartIsPanicked(ends, steps[..|steps| - 1]);
      AdvanceInOrder(ends, AdvanceAll(ends, steps[..|steps| - 1]), steps[|steps| - 1]);
    }
  }

  /** However tasks and joins interleave, the panics are reported in the order in which the loop
      awaits the tasks: among all reports they are exactly the loop's. */
  lemma {:induction false} PanicsReportedInOrder(ends: seq<TaskEnd>, steps: seq<Progress>)
    ensures var r := AdvanceAll(ends, steps); var p := PanicPart(ends, r.sent);
            && r.joined <= |ends| && |p| == Panics(ends, r.joined)
            && forall i :: 0 <= i < r.joined && ends[i].Panicked? ==> Panics(ends, i) < |p| && p[Panics(ends, i)] == i
  {
    PanicPartIsPanicked(ends, steps);
    PanickedAt(ends, AdvanceAll(ends, steps).joined);
  }
}
