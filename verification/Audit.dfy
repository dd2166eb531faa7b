/** `audit.rs`: the audit file written by one receiver of the lossy broadcast bus of `bus.rs`.
    A receiver that is more than the bus's capacity behind has lost the oldest events. */
module Audit {
  import opened Basics

  const CAPACITY := 256

  /** What an event carries besides its kind, taken as one value. */
  type Detail = string

  datatype ServerEvent =
    | ArmedState(armed: bool)
    | TriggerFired(manual: bool)
    | MintResult(d: Detail)
    | ConfigChanged
    | CopyOpportunity(d: Detail)
    | CopymintSkipped(d: Detail)
    | DelegatedRunStarted(d: Detail)
    | DelegatedMintResult(d: Detail)
    | DelegatedRunComplete(d: Detail)
    | Log(d: Detail)
    | WalletUpdate(d: Detail)
    | RpcHealth(d: Detail)

  datatype Kind =
    | Arm | Disarm | Fire(manual: bool) | Mint | Config | Opportunity | Skipped
    | RunStarted | RunResult | RunComplete

  datatype Record = Line(kind: Kind, detail: Detail) | Gap(missed: nat)

  predicate Routine(e: ServerEvent) { e.Log? || e.WalletUpdate? || e.RpcHealth? }

  function Persist(e: ServerEvent): Option<Record> {
    match e
    case ArmedState(armed) => Some(Line(if armed then Arm else Disarm, ""))
    case TriggerFired(manual) => Some(Line(Fire(manual), ""))
    case MintResult(d) => Some(Line(Mint, d))
    case ConfigChanged => Some(Line(Config, ""))
    case CopyOpportunity(d) => Some(Line(Opportunity, d))
    case CopymintSkipped(d) => Some(Line(Skipped, d))
    case DelegatedRunStarted(d) => Some(Line(RunStarted, d))
    case DelegatedMintResult(d) => Some(Line(RunResult, d))
    case DelegatedRunComplete(d) => Some(Line(RunComplete, d))
    case Log(_) => None
    case WalletUpdate(_) => None
    case RpcHealth(_) => None
  }

  /** Exactly the routine kinds are skipped, a record is never a gap, and it tells its event
      apart from every other. */
  lemma PersistIsFaithful(a: ServerEvent, b: ServerEvent)
    ensures Persist(a).None? <==> a.Log? || a.WalletUpdate? || a.RpcHealth?
    ensures Persist(a).Some? ==> Persist(a).value.Line?
    ensures Persist(a).Some? && Persist(a) == Persist(b) ==> a == b
  {
    match a {
      case ArmedState(_) =>
      case _ =>
    }
  }

  /** The event name a record is written under. */
  function NameOf(record: Record): string {
    match record
    case Gap(_) => "audit_gap"
    case Line(kind, _) =>
      match kind
      case Arm => "arm"
      case Disarm => "disarm"
      case Fire(_) => "fire"
      case Mint => "mint_result"
      case Config => "config_change"
      case Opportunity => "copy_opportunity"
      case Skipped => "copymint_skipped"
      case RunStarted => "delegated_run_started"
      case RunResult => "delegated_mint_result"
      case RunComplete => "delegated_run_complete"
  }

  lemma NamesDiffer()
    ensures "copy_opportunity" != "copymint_skipped" && "delegated_run_started" != "delegated_mint_result"
  {
    assert "copy_opportunity"[4] != "copymint_skipped"[4];
    assert "delegated_run_started"[10] != "delegated_mint_result"[10];
  }

  /** The name in the file tells which event was recorded. */
  lemma NamesMean(e: ServerEvent)
    requires !(e.Log? || e.WalletUpdate? || e.RpcHealth?)
    ensures Persist(e).Some? && Persist(e).value.Line?
    ensures var name := NameOf(Persist(e).value);
            && (name == "arm" <==> e == ArmedState(true)) && (name == "disarm" <==> e == ArmedState(false))
            && (name == "fire" <==> e.TriggerFired?) && (name == "config_change" <==> e.ConfigChanged?)
            && (name == "mint_result" <==> e.MintResult?)
            && (name == "copy_opportunity" <==> e.CopyOpportunity?)
            && (name == "copymint_skipped" <==> e.CopymintSkipped?)
            && (name == "delegated_run_started" <==> e.DelegatedRunStarted?)
            && (name == "delegated_mint_result" <==> e.DelegatedMintResult?)
            && (name == "delegated_run_complete" <==> e.DelegatedRunComplete?)
            && name != "audit_gap"
    ensures var line := Persist(e).value;
            && (e.TriggerFired? ==> line.kind.Fire? && line.kind.manual == e.manual)
            && (e.ArmedState? || e.TriggerFired? || e.ConfigChanged? ==> line.detail == "")
            && (!(e.ArmedState? || e.TriggerFired? || e.ConfigChanged?) ==> line.detail == e.d)
  {
    NamesDiffer();
  }

  // ---------------------------------------------------------------- the writer as a state machine

  /** Everything ever sent, how much of it the receiver is past, and the file. */
  datatype State = State(sent: seq<ServerEvent>, next: nat, file: seq<Record>)

  /** A sender's send, or one turn of the writer's loop, whose append succeeds or not. */
  datatype Op = Send(e: ServerEvent) | Receive(appended: bool)

  predicate Lagging(s: State) { |s.sent| - s.next > CAPACITY }

  function Append(file: seq<Record>, record: Record, appended: bool): seq<Record> {
    if appended then file + [record] else file
  }

  /** With nothing to receive the writer waits. */
  function Apply(s: State, op: Op): (r: State)
    requires s.next <= |s.sent|
    ensures r.next <= |r.sent|
  {
    match op
    case Send(e) => s.(sent := s.sent + [e])
    case Receive(appended) =>
      if Lagging(s) then
        var oldest := |s.sent| - CAPACITY;
        s.(next := oldest, file := Append(s.file, Gap(oldest - s.next), appended))
      else if s.next == |s.sent| then s
      else
        var written := match Persist(s.sent[s.next])
          case Some(record) => Append(s.file, record, appended)
          case None => s.file;
        s.(next := s.next + 1, file := written)
  }

  /** A turn with more than 256 events waiting skips to the last 256 and leaves a gap that counts
      what it skipped; any other takes the next event, if there is one, and writes its record. */
  lemma TurnMeaning(s: State, appended: bool)
    requires s.next <= |s.sent|
    ensures var waiting, r := |s.sent| - s.next, Apply(s, Receive(appended));
            && r.sent == s.sent
            && (waiting > 256 ==> |r.sent| - r.next == 256
                                  && r.file == if appended then s.file + [Gap(waiting - 256)] else s.file)
            && (0 < waiting <= 256 ==>
                  && r.next == s.next + 1
                  && var e := s.sent[s.next];
                     if e.Log? || e.WalletUpdate? || e.RpcHealth? || !appended then r.file == s.file
                     else Persist(e).Some? && r.file == s.file + [Persist(e).value])
            && (waiting == 0 ==> r == s)
  {
    if s.next < |s.sent| { PersistIsFaithful(s.sent[s.next], s.sent[s.next]); }
  }

  function Run(s: State, ops: seq<Op>): (r: State)
    requires s.next <= |s.sent|
    ensures r.next <= |r.sent|
  {
    if ops == [] then s else Apply(Run(s, ops[..|ops| - 1]), ops[|ops| - 1])
  }

  /** The writer as it subscribes: events sent before are never seen. */
  predicate Subscribing(s: State) { s.next == |s.sent| && s.file == [] }

  // ---------------------------------------------------------------- what the file says

  /** A stretch of the sent events and what became of it. */
  datatype Stretch = Heard(e: ServerEvent, appended: bool) | Missed(events: seq<ServerEvent>, appended: bool)

  function Events(parts: seq<Stretch>): seq<ServerEvent> {
    if parts == [] then []
    else
      var part := parts[|parts| - 1];
      Events(parts[..|parts| - 1]) + (if part.Heard? then [part.e] else part.events)
  }

  function RecordOf(part: Stretch): Option<Record> {
    if part.Heard? then Persist(part.e) else Some(Gap(|part.events|))
  }

  function Records(parts: seq<Stretch>): seq<Record> {
    if parts == [] then []
    else
      var part := parts[|parts| - 1];
      var before := Records(parts[..|parts| - 1]);
      if RecordOf(part).Some? then Append(before, RecordOf(part).value, part.appended) else before
  }

  predicate NoEmptyGap(parts: seq<Stretch>) { forall k :: 0 <= k < |parts| && parts[k].Missed? ==> parts[k].events != [] }

  /** The sent events up to the receiver's position, in order, fall into `parts`, and the file
      holds one record for each that was to be recorded and was appended. */
  predicate Accounts(parts: seq<Stretch>, start: nat, s: State) {
    && start <= s.next <= |s.sent|
    && Events(parts) == s.sent[start..s.next]
    && Records(parts) == s.file
    && NoEmptyGap(parts)
  }

  /** The part of the sent events that one turn takes. */
  function Taken(s: State, appended: bool): seq<Stretch>
    requires s.next <= |s.sent|
  {
    if Lagging(s) then [Missed(s.sent[s.next..|s.sent| - CAPACITY], appended)]
    else if s.next == |s.sent| then []
    else [Heard(s.sent[s.next], appended)]
  }

  lemma AccountsStep(parts: seq<Stretch>, start: nat, s: State, op: Op)
    requires Accounts(parts, start, s)
    ensures op.Send? ==> Accounts(parts, start, Apply(s, op))
    ensures op.Receive? ==> Accounts(parts + Taken(s, op.appended), start, Apply(s, op))
  {
    var t := Apply(s, op);
    if op.Send? {
      assert t.sent[start..t.next] == s.sent[start..s.next];
    } else if Taken(s, op.appended) == [] {
      assert parts + Taken(s, op.appended) == parts;
    } else {
      var all := parts + Taken(s, op.appended);
      assert all[..|all| - 1] == parts;
      assert t.sent[start..t.next] == s.sent[start..s.next] + s.sent[s.next..t.next];
    }
  }

  /** What became of everything sent in a run. */
  function History(s: State, ops: seq<Op>): seq<Stretch>
    requires s.next <= |s.sent|
  {
    if ops == [] then []
    else
      var before := ops[..|ops| - 1];
      match ops[|ops| - 1]
      case Send(_) => History(s, before)
      case Receive(appended) => History(s, before) + Taken(Run(s, before), appended)
  }

  /** Whatever is sent and however sends and turns interleave, the file accounts for the sent
      events from subscription on, in order, each overrun standing in its place as one gap. */
  lemma {:induction false} FileRefinesEvents(s: State, ops: seq<Op>)
    requires Subscribing(s)
    ensures Accounts(History(s, ops), s.next, Run(s, ops))
  {
    if ops == [] {
    } else {
      FileRefinesEvents(s, ops[..|ops| - 1]);
      AccountsStep(History(s, ops[..|ops| - 1]), s.next, Run(s, ops[..|ops| - 1]), ops[|ops| - 1]);
    }
  }

  // ---------------------------------------------------------------- counting

  function Lines(file: seq<Record>): nat {
    if file == [] then 0 else Lines(file[..|file| - 1]) + if file[|file| - 1].Line? then 1 else 0
  }

  function GapTotal(file: seq<Record>): nat {
    if file == [] then 0
    else GapTotal(file[..|file| - 1]) + if file[|file| - 1].Gap? then file[|file| - 1].missed else 0
  }

  /** Routine events that were heard and rightly not recorded. */
  function RoutineHeard(parts: seq<Stretch>): nat {
    if parts == [] then 0
    else
      var part := parts[|parts| - 1];
      RoutineHeard(parts[..|parts| - 1]) + if part.Heard? && Routine(part.e) then 1 else 0
  }

  predicate AllAppended(parts: seq<Stretch>) { forall k :: 0 <= k < |parts| ==> parts[k].appended }

  lemma {:induction false} PartsCount(parts: seq<Stretch>)
    requires AllAppended(parts)
    ensures |Events(parts)| == Lines(Records(parts)) + GapTotal(Records(parts)) + RoutineHeard(parts)
  {
    if parts != [] {
      var part, before := parts[|parts| - 1], parts[..|parts| - 1];
      PartsCount(before);
      if part.Heard? { PersistIsFaithful(part.e, part.e); }
      if RecordOf(part).Some? {
        assert Records(parts)[..|Records(parts)| - 1] == Records(before);
      }
    }
  }

  predicate AppendsSucceed(ops: seq<Op>) { forall k :: 0 <= k < |ops| && ops[k].Receive? ==> ops[k].appended }

  lemma {:induction false} HistoryAppended(s: State, ops: seq<Op>)
    requires s.next <= |s.sent| && AppendsSucceed(ops)
    ensures AllAppended(History(s, ops))
  {
    if ops != [] {
      HistoryAppended(s, ops[..|ops| - 1]);
    }
  }

  /** Nothing is unaccounted for: every event sent since subscription is a line of the file, a
      routine event, counted in a gap, or still waiting. */
  lemma Conservation(s: State, ops: seq<Op>)
    requires Subscribing(s) && AppendsSucceed(ops)
    ensures var r := Run(s, ops);
            |r.sent| - s.next == Lines(r.file) + GapTotal(r.file) + RoutineHeard(History(s, ops)) + (|r.sent| - r.next)
  {
    FileRefinesEvents(s, ops);
    HistoryAppended(s, ops);
    PartsCount(History(s, ops));
  }

  // ---------------------------------------------------------------- when there are gaps

  predicate HasGap(file: seq<Record>) { exists k :: 0 <= k < |file| && file[k].Gap? }

  /** Some turn of the run found the receiver too far behind. */
  predicate Overrun(s: State, ops: seq<Op>)
    requires s.next <= |s.sent|
  {
    ops != [] && var before := ops[..|ops| - 1];
                 Overrun(s, before) || (ops[|ops| - 1].Receive? && Lagging(Run(s, before)))
  }

  lemma GapAppended(file: seq<Record>, record: Record)
    ensures HasGap(file + [record]) <==> HasGap(file) || record.Gap?
  {
    var longer := file + [record];
    if HasGap(file) {
      var k :| 0 <= k < |file| && file[k].Gap?;
      assert longer[k].Gap?;
    }
    assert longer[|file|] == record;
  }

  /** The file has a gap exactly if some turn found the receiver more than 256 events behind. */
  lemma {:induction false} GapExactlyOnOverrun(s: State, ops: seq<Op>)
    requires Subscribing(s) && AppendsSucceed(ops)
    ensures HasGap(Run(s, ops).file) <==> Overrun(s, ops)
  {
    if ops != [] {
      var before := ops[..|ops| - 1];
      GapExactlyOnOverrun(s, before);
      var r, t := Run(s, before), Run(s, ops);
      if t.file != r.file {
        GapAppended(r.file, t.file[|r.file|]);
        if !Lagging(r) { PersistIsFaithful(r.sent[r.next], r.sent[r.next]); }
        assert t.file == r.file + [t.file[|r.file|]];
      }
    }
  }

  /** The lines of the events in order, as if nothing were ever lost. */
  function AllLines(events: seq<ServerEvent>): seq<Record> {
    if events == [] then []
    else
      var last := Persist(events[|events| - 1]);
      AllLines(events[..|events| - 1]) + if last.Some? then [last.value] else []
  }

  lemma AllLinesStep(events: seq<ServerEvent>, e: ServerEvent)
    ensures AllLines(events + [e]) == AllLines(events) + if Persist(e).Some? then [Persist(e).value] else []
  {
    assert (events + [e])[..|events|] == events;
  }

  lemma NoLossStep(start: nat, r: State, op: Op)
    requires start <= r.next <= |r.sent| && r.file == AllLines(r.sent[start..r.next])
    requires op.Receive? ==> op.appended && !Lagging(r)
    ensures var t := Apply(r, op); start <= t.next && t.file == AllLines(t.sent[start..t.next])
  {
    var t := Apply(r, op);
    if t.next == r.next {
      assert t.sent[start..t.next] == r.sent[start..r.next];
    } else {
      var heard, e := r.sent[start..r.next], r.sent[r.next];
      assert t.sent[start..t.next] == heard + [e];
      AllLinesStep(heard, e);
    }
  }

  /** Without an overrun the file is exactly the line of each recorded event, in order. */
  lemma {:induction false} NoOverrunNoLoss(s: State, ops: seq<Op>)
    requires Subscribing(s) && AppendsSucceed(ops) && !Overrun(s, ops)
    ensures var r := Run(s, ops); s.next <= r.next && r.file == AllLines(r.sent[s.next..r.next])
  {
    if ops != [] {
      NoOverrunNoLoss(s, ops[..|ops| - 1]);
      NoLossStep(s.next, Run(s, ops[..|ops| - 1]), ops[|ops| - 1]);
    }
  }

  // ---------------------------------------------------------------- the writer

  class AuditWriter {
    var sent: seq<ServerEvent>
    var next: nat
    var file: seq<Record>

    ghost predicate Valid()
      reads this
    {
      next <= |sent|
    }

    ghost function View(): State
      reads this
    {
      State(sent, next, file)
    }

    /** Subscribes to a bus on which `earlier` has been sent already. */
    constructor (earlier: seq<ServerEvent>)
      ensures Valid() && Subscribing(View()) && sent == earlier
    {
      sent, next, file := earlier, |earlier|, [];
    }

    method SendEvent(e: ServerEvent)
      requires Valid()
      modifies `sent
      ensures Valid() && View() == Apply(old(View()), Send(e))
    {
      sent := sent + [e];
    }

    method AppendRecord(record: Record, appended: bool)
      modifies `file
      ensures file == Append(old(file), record, appended)
    {
      if appended {
        file := file + [record];
      }
    }

    /** One turn of the loop: either a lag notice, which moves the receiver to the oldest event
        still held, or one event. */
    method Turn(appended: bool)
      requires Valid()
      modifies `next, `file
      ensures Valid() && View() == Apply(old(View()), Receive(appended))
    {
      if |sent| - next > CAPACITY {
        var missed := |sent| - CAPACITY - next;
        next := next + missed;
        AppendRecord(Gap(missed), appended);
        return;
      }
      if next == |sent| {
        return;
      }
      var event := sent[next];
      next := next + 1;
      match Persist(event) {
        case None =>
        case Some(record) => AppendRecord(record, appended);
      }
    }

    /** The writer beside its senders, for as long as `ops` lasts. */
    method RunAuditWriter(ops: seq<Op>)
      requires Valid()
      modifies this
      ensures Valid() && View() == Run(old(View()), ops)
    {
      for i := 0 to |ops|
        invariant Valid() && View() == Run(old(View()), ops[..i])
      {
        assert ops[..i + 1][..i] == ops[..i];
        match ops[i] {
          case Send(e) => SendEvent(e);
          case Receive(appended) => Turn(appended);
        }
      }
      assert ops[..|ops|] == ops;
    }
  }
}
