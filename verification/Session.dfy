/** `identity/session.rs`: a session row is created after the first login stage, two further
    factors are marked on it in either order, and it becomes an admin session once both are.
    Each SQL statement is one step; calls of several statements interleave at will. */
module Session {
  import opened Basics

  type Id = string

  datatype Factor = Totp | WebAuthn

  datatype Session = Session(adminTier: bool, lastSeenAt: int, revokedAt: Option<int>,
                             totpAt: Option<int>, webauthnAt: Option<int>)

  type Rows = map<Id, Session>

  predicate Has(x: Session, f: Factor) { if f == Totp then x.totpAt.Some? else x.webauthnAt.Some? }

  // ---------------------------------------------------------------- the statements

  function Created(now: int): Session { Session(false, now, None, None, None) }

  /** An update of a missing row changes nothing and is no error. */
  function Marked(rows: Rows, id: Id, f: Factor, now: int): Rows {
    if id !in rows then rows
    else if f == Totp then rows[id := rows[id].(totpAt := Some(now))]
    else rows[id := rows[id].(webauthnAt := Some(now))]
  }

  function Promoted(rows: Rows, id: Id): Rows {
    if id in rows && rows[id].totpAt.Some? && rows[id].webauthnAt.Some?
    then rows[id := rows[id].(adminTier := true)] else rows
  }

  function Revoked(rows: Rows, id: Id, now: int): Rows {
    if id in rows && rows[id].revokedAt.None? then rows[id := rows[id].(revokedAt := Some(now))] else rows
  }

  function Touched(rows: Rows, id: Id, now: int): Rows {
    if id in rows then rows[id := rows[id].(lastSeenAt := now)] else rows
  }

  /** Absent and revoked sessions are not told apart. */
  function Active(rows: Rows, id: Id): Option<Session> {
    if id in rows && rows[id].revokedAt.None? then Some(rows[id]) else None
  }

  // ---------------------------------------------------------------- interleaved calls

  /** A marking call between its two statements; `found` tells whether there was a row to mark. */
  datatype Call = Call(id: Id, f: Factor, found: bool)

  /** `completed` are the calls that returned success, `failed` the sessions for which some
      promotion failed. */
  datatype State = State(rows: Rows, pending: map<nat, Call>, completed: set<Call>, failed: set<Id>)

  /** One statement, which succeeds or not; marking calls carry a number. A call that is
      abandoned between its statements just stays pending. */
  datatype Op =
    | Create(id: Id, now: int)
    | Mark(call: nat, id: Id, f: Factor, now: int, ok: bool)
    | Promote(call: nat, ok: bool)
    | Revoke(id: Id, now: int, ok: bool)
    | Touch(id: Id, now: int, ok: bool)

  const START := State(map[], map[], {}, {})

  function Apply(s: State, op: Op): State {
    match op
    case Create(id, now) =>
      if id in s.rows then s else s.(rows := s.rows[id := Created(now)])
    case Mark(call, id, f, now, ok) =>
      if call in s.pending || !ok then s
      else s.(rows := Marked(s.rows, id, f, now), pending := s.pending[call := Call(id, f, id in s.rows)])
    case Promote(call, ok) =>
      if call !in s.pending then s
      else
        var c := s.pending[call];
        if ok then State(Promoted(s.rows, c.id), s.pending - {call}, s.completed + {c}, s.failed)
        else State(s.rows, s.pending - {call}, s.completed, s.failed + {c.id})
    case Revoke(id, now, ok) => if ok then s.(rows := Revoked(s.rows, id, now)) else s
    case Touch(id, now, ok) => if ok then s.(rows := Touched(s.rows, id, now)) else s
  }

  function Run(s: State, ops: seq<Op>): State {
    if ops == [] then s else Apply(Run(s, ops[..|ops| - 1]), ops[|ops| - 1])
  }

  // ---------------------------------------------------------------- what every step keeps

  predicate BothFactors(x: Session) { x.totpAt.Some? && x.webauthnAt.Some? }

  /** A call that found its session has marked its factor. */
  predicate MarkedBy(rows: Rows, c: Call) { c.found ==> c.id in rows && Has(rows[c.id], c.f) }

  predicate Completed(s: State, id: Id, f: Factor) { Call(id, f, true) in s.completed }

  predicate Waiting(s: State, id: Id) { exists call :: call in s.pending && s.pending[call].id == id }

  ghost predicate CallsMarked(s: State) {
    && (forall call :: call in s.pending ==> MarkedBy(s.rows, s.pending[call]))
    && (forall c :: c in s.completed ==> MarkedBy(s.rows, c))
  }

  ghost predicate AdminsHaveBoth(s: State) {
    forall id :: id in s.rows && s.rows[id].adminTier ==> BothFactors(s.rows[id])
  }

  ghost predicate CompletedAreAdmins(s: State) {
    forall id :: id in s.rows && Completed(s, id, Totp) && Completed(s, id, WebAuthn) ==> s.rows[id].adminTier
  }

  ghost predicate OthersWait(s: State) {
    forall id :: id in s.rows && BothFactors(s.rows[id]) && !s.rows[id].adminTier ==> Waiting(s, id) || id in s.failed
  }

  ghost predicate Inv(s: State) { CallsMarked(s) && AdminsHaveBoth(s) && CompletedAreAdmins(s) && OthersWait(s) }

  /** Nothing that a row has is ever taken away. */
  predicate Grows(before: Rows, after: Rows) {
    forall id :: id in before ==>
      && id in after
      && (before[id].adminTier ==> after[id].adminTier)
      && (before[id].totpAt.Some? ==> after[id].totpAt.Some?)
      && (before[id].webauthnAt.Some? ==> after[id].webauthnAt.Some?)
      && (before[id].revokedAt.Some? ==> after[id].revokedAt == before[id].revokedAt)
  }

  lemma StepGrows(s: State, op: Op)
    ensures Grows(s.rows, Apply(s, op).rows)
  {
  }

  lemma KeepsMarked(s: State, op: Op)
    requires CallsMarked(s)
    ensures CallsMarked(Apply(s, op))
  {
    var t := Apply(s, op);
    StepGrows(s, op);
    forall c | MarkedBy(s.rows, c) ensures MarkedBy(t.rows, c) { }
  }

  lemma KeepsAdmins(s: State, op: Op)
    requires CallsMarked(s) && AdminsHaveBoth(s) && CompletedAreAdmins(s)
    ensures AdminsHaveBoth(Apply(s, op)) && CompletedAreAdmins(Apply(s, op))
  {
    StepGrows(s, op);
    KeepsMarked(s, op);
  }

  /** As long as a session has both factors and is no admin session, a promotion is on its way,
      or one has failed. */
  lemma KeepsWaiting(s: State, op: Op, id: Id)
    requires OthersWait(s) && id in Apply(s, op).rows
    requires BothFactors(Apply(s, op).rows[id]) && !Apply(s, op).rows[id].adminTier
    ensures Waiting(Apply(s, op), id) || id in Apply(s, op).failed
  {
    var t := Apply(s, op);
    if op.Mark? && op.call !in s.pending && op.ok && op.id == id {
      assert t.pending[op.call].id == id;
    } else if Waiting(s, id) {
      var call :| call in s.pending && s.pending[call].id == id;
      if !(op.Promote? && op.call == call) { assert call in t.pending && t.pending[call].id == id; }
    }
  }

  lemma StepKeeps(s: State, op: Op)
    requires Inv(s)
    ensures Inv(Apply(s, op))
  {
    KeepsMarked(s, op);
    KeepsAdmins(s, op);
    forall id | id in Apply(s, op).rows && BothFactors(Apply(s, op).rows[id]) && !Apply(s, op).rows[id].adminTier
      ensures Waiting(Apply(s, op), id) || id in Apply(s, op).failed
    {
      KeepsWaiting(s, op, id);
    }
  }

  lemma {:induction false} RunKeeps(ops: seq<Op>)
    ensures Inv(Run(START, ops))
  {
    if ops != [] {
      RunKeeps(ops[..|ops| - 1]);
      StepKeeps(Run(START, ops[..|ops| - 1]), ops[|ops| - 1]);
    }
  }

  // ---------------------------------------------------------------- admin tier

  /** The statement at `k` marked the factor on the session's row. */
  ghost predicate MarkedAt(ops: seq<Op>, k: nat, id: Id, f: Factor) {
    k < |ops| && ops[k].Mark? && ops[k].ok && ops[k].id == id && ops[k].f == f
  }

  lemma {:induction false} FactorWasMarked(ops: seq<Op>, id: Id, f: Factor)
    requires id in Run(START, ops).rows && Has(Run(START, ops).rows[id], f)
    ensures exists k :: MarkedAt(ops, k, id, f)
  {
    var before := ops[..|ops| - 1];
    var s := Run(START, before);
    if id in s.rows && Has(s.rows[id], f) {
      FactorWasMarked(before, id, f);
      var k :| MarkedAt(before, k, id, f);
      assert MarkedAt(ops, k, id, f);
    } else {
      assert MarkedAt(ops, |ops| - 1, id, f);
    }
  }

  /** Admin tier is reached only by a session on which both factors were marked, by their own
      successful statements, earlier in the run. */
  lemma AdminOnlyAfterBoth(ops: seq<Op>, id: Id)
    requires id in Run(START, ops).rows && Run(START, ops).rows[id].adminTier
    ensures exists j :: MarkedAt(ops, j, id, Totp)
    ensures exists k :: MarkedAt(ops, k, id, WebAuthn)
  {
    RunKeeps(ops);
    FactorWasMarked(ops, id, Totp);
    FactorWasMarked(ops, id, WebAuthn);
  }

  /** Once a marking of each factor has returned success, in either order or overlapping, the
      session is an admin session. */
  lemma AdminOnceBothCompleted(ops: seq<Op>, id: Id)
    requires Completed(Run(START, ops), id, Totp) && Completed(Run(START, ops), id, WebAuthn)
    ensures id in Run(START, ops).rows && Run(START, ops).rows[id].adminTier
  {
    RunKeeps(ops);
  }

  /** With no marking under way and no promotion failed, admin tier is exactly both factors. */
  lemma AdminExactlyWhenQuiet(ops: seq<Op>, id: Id)
    requires var s := Run(START, ops); id in s.rows && !Waiting(s, id) && id !in s.failed
    ensures var x := Run(START, ops).rows[id]; x.adminTier <==> BothFactors(x)
  {
    RunKeeps(ops);
  }

  lemma RunTwo(s: State, ops: seq<Op>, a: Op, b: Op)
    ensures Run(s, ops + [a, b]) == Apply(Apply(Run(s, ops), a), b)
  {
    var all := ops + [a, b];
    assert all[..|all| - 1] == ops + [a];
    assert (ops + [a])[..|ops|] == ops;
  }

  // ---------------------------------------------------------------- revocation

  lemma GrowsOn(a: Rows, b: Rows, c: Rows)
    requires Grows(a, b) && Grows(b, c)
    ensures Grows(a, c)
  {
  }

  lemma {:induction false} RunGrows(s: State, ops: seq<Op>)
    ensures Grows(s.rows, Run(s, ops).rows)
  {
    if ops != [] {
      RunGrows(s, ops[..|ops| - 1]);
      StepGrows(Run(s, ops[..|ops| - 1]), ops[|ops| - 1]);
      GrowsOn(s.rows, Run(s, ops[..|ops| - 1]).rows, Run(s, ops).rows);
    }
  }

  /** From a successful revocation on, no statements whatever make the session active again, and
      the time of its first revocation stands. */
  lemma RevokedForGood(s: State, id: Id, now: int, ops: seq<Op>)
    ensures var r := Apply(s, Revoke(id, now, true));
            && (id in s.rows ==> Active(Run(r, ops).rows, id).None?)
            && (Active(s.rows, id).Some? ==> id in Run(r, ops).rows && Run(r, ops).rows[id].revokedAt == Some(now))
  {
    RunGrows(Apply(s, Revoke(id, now, true)), ops);
  }

  /** Statements about one session leave every other as it was. */
  predicate Concerns(s: State, op: Op, id: Id) {
    match op
    case Promote(call, _) => call in s.pending && s.pending[call].id == id
    case _ => op.id == id
  }

  lemma OthersUntouched(s: State, op: Op, id: Id)
    requires !Concerns(s, op, id)
    ensures id in Apply(s, op).rows <==> id in s.rows
    ensures id in s.rows ==> Apply(s, op).rows[id] == s.rows[id]
  {
  }

  /** Revocation is not a guard on promotion: a session revoked between the two markings still
      gets its admin tier; only the lookup keeps it out. */
  lemma RevokedStillPromoted(id: Id, s: State)
    requires id in s.rows && s.rows[id].totpAt.Some? && s.pending == map[]
    ensures var t := Apply(Apply(Apply(s, Revoke(id, 1, true)), Mark(0, id, WebAuthn, 2, true)), Promote(0, true));
            t.rows[id].adminTier && Active(t.rows, id).None?
  {
  }

  // ---------------------------------------------------------------- which sessions are active

  /** The statement at `k` inserts this id, or tries to. */
  predicate CreatesAt(ops: seq<Op>, k: nat, id: Id) { k < |ops| && ops[k].Create? && ops[k].id == id }

  predicate RevokesAt(ops: seq<Op>, k: nat, id: Id) { k < |ops| && ops[k].Revoke? && ops[k].ok && ops[k].id == id }

  /** The first insertion of this id is at `k`, and no successful revocation follows. */
  ghost predicate LiveFrom(ops: seq<Op>, id: Id, k: nat) {
    && CreatesAt(ops, k, id)
    && (forall j: nat :: CreatesAt(ops, j, id) ==> k <= j)
    && (forall j: nat :: RevokesAt(ops, j, id) ==> j < k)
  }

  ghost predicate Live(ops: seq<Op>, id: Id) { exists k: nat :: LiveFrom(ops, id, k) }

  ghost predicate EverCreated(ops: seq<Op>, id: Id) { exists k: nat :: CreatesAt(ops, k, id) }

  lemma CreatedOneMore(ops: seq<Op>, op: Op, id: Id)
    ensures EverCreated(ops + [op], id) <==> EverCreated(ops, id) || (op.Create? && op.id == id)
  {
    var all := ops + [op];
    if EverCreated(ops, id) {
      var k: nat :| CreatesAt(ops, k, id);
      assert CreatesAt(all, k, id);
    }
    if EverCreated(all, id) {
      var k: nat :| CreatesAt(all, k, id);
      assert k < |ops| ==> CreatesAt(ops, k, id);
    }
    if op.Create? && op.id == id { assert CreatesAt(all, |ops|, id); }
  }

  lemma {:induction false} ThereOnceCreated(ops: seq<Op>, id: Id)
    ensures id in Run(START, ops).rows <==> EverCreated(ops, id)
  {
    if ops != [] {
      var before, op := ops[..|ops| - 1], ops[|ops| - 1];
      ThereOnceCreated(before, id);
      CreatedOneMore(before, op, id);
      assert ops == before + [op];
    }
  }

  lemma LiveOneMore(ops: seq<Op>, op: Op, id: Id)
    ensures Live(ops + [op], id)
            <==> if op.Create? && op.id == id && !EverCreated(ops, id) then true
                 else if op.Revoke? && op.ok && op.id == id then false
                 else Live(ops, id)
  {
    var all := ops + [op];
    assert forall k: nat :: k < |ops| ==> (CreatesAt(all, k, id) <==> CreatesAt(ops, k, id));
    assert forall k: nat :: k < |ops| ==> (RevokesAt(all, k, id) <==> RevokesAt(ops, k, id));
    if op.Create? && op.id == id && !EverCreated(ops, id) {
      assert LiveFrom(all, id, |ops|);
    } else if op.Revoke? && op.ok && op.id == id {
      assert RevokesAt(all, |ops|, id);
    } else {
      assert forall k: nat :: k < |ops| ==> (LiveFrom(all, id, k) <==> LiveFrom(ops, id, k));
      if CreatesAt(all, |ops|, id) {
        var k: nat :| CreatesAt(ops, k, id);
        assert CreatesAt(all, k, id);
      }
    }
  }

  /** Over every interleaving, a lookup finds a session exactly if its id was inserted and no successful
      revocation followed its first insertion; a later insertion of the same id brings nothing back. */
  lemma {:induction false} ActiveExactly(ops: seq<Op>, id: Id)
    ensures Active(Run(START, ops).rows, id).Some? <==> Live(ops, id)
    ensures Active(Run(START, ops).rows, id).Some? ==>
              id in Run(START, ops).rows && Active(Run(START, ops).rows, id).value == Run(START, ops).rows[id]
  {
    if ops != [] {
      var before, op := ops[..|ops| - 1], ops[|ops| - 1];
      ActiveExactly(before, id);
      ThereOnceCreated(before, id);
      LiveOneMore(before, op, id);
      assert ops == before + [op];
    }
  }

  // ---------------------------------------------------------------- the functions

  /** Nothing but the row of this id may differ. */
  ghost predicate OnlyThis(before: Rows, after: Rows, id: Id) {
    && (id in before <==> id in after)
    && forall k :: k != id ==> (k in before <==> k in after) && (k in before ==> after[k] == before[k])
  }

  /** The statements of one undisturbed marking call, in order. */
  function MarkingCall(id: Id, f: Factor, now: int, markOk: bool, promoteOk: bool): seq<Op> {
    [Mark(0, id, f, now, markOk), Promote(0, promoteOk)]
  }

  /** The table as that call leaves it. */
  function AfterMarking(rows: Rows, id: Id, f: Factor, now: int, markOk: bool, promoteOk: bool): Rows {
    Run(State(rows, map[], {}, {}), MarkingCall(id, f, now, markOk, promoteOk)).rows
  }

  lemma MarkingMeans(rows: Rows, id: Id, f: Factor, now: int, markOk: bool, promoteOk: bool)
    ensures AfterMarking(rows, id, f, now, markOk, promoteOk)
            == if !markOk then rows
               else if promoteOk then Promoted(Marked(rows, id, f, now), id) else Marked(rows, id, f, now)
  {
    RunTwo(State(rows, map[], {}, {}), [], Mark(0, id, f, now, markOk), Promote(0, promoteOk));
    assert [] + MarkingCall(id, f, now, markOk, promoteOk) == MarkingCall(id, f, now, markOk, promoteOk);
  }

  /** The table behind the pool. A statement that fails changes nothing. */
  class SessionStore {
    var rows: Rows

    constructor ()
      ensures rows == map[]
    {
      rows := map[];
    }

    /** An id that is taken violates the primary key. */
    method CreateGoogleVerifiedSession(id: Id, now: int) returns (ok: bool)
      modifies this
      ensures ok <==> id !in old(rows)
      ensures ok ==> rows == old(rows)[id := Session(false, now, None, None, None)]
      ensures !ok ==> rows == old(rows)
    {
      ok := id !in rows;
      if ok {
        rows := rows[id := Created(now)];
      }
    }

    method PromoteIfComplete(id: Id, statementOk: bool) returns (ok: bool)
      modifies this
      ensures ok == statementOk
      ensures rows == if ok then Promoted(old(rows), id) else old(rows)
      ensures OnlyThis(old(rows), rows, id)
      ensures id in rows ==>
                var was := old(rows)[id];
                rows[id] == was.(adminTier := was.adminTier || (statementOk && was.totpAt.Some? && was.webauthnAt.Some?))
    {
      ok := statementOk;
      if ok && id in rows {
        var x := rows[id];
        if x.totpAt.Some? && x.webauthnAt.Some? {
          rows := rows[id := x.(adminTier := true)];
        }
      }
    }

    /** Undisturbed, the call is its two statements in order. */
    method MarkTotpVerified(id: Id, now: int, markOk: bool, promoteOk: bool) returns (ok: bool)
      modifies this
      ensures ok == (markOk && promoteOk)
      ensures rows == AfterMarking(old(rows), id, Totp, now, markOk, promoteOk)
      ensures OnlyThis(old(rows), rows, id)
      ensures id in rows ==>
                var was := old(rows)[id];
                rows[id] == was.(totpAt := if markOk then Some(now) else was.totpAt,
                                 adminTier := was.adminTier || (markOk && promoteOk && was.webauthnAt.Some?))
    {
      MarkingMeans(rows, id, Totp, now, markOk, promoteOk);
      if !markOk {
        return false;
      }
      if id in rows {
        rows := rows[id := rows[id].(totpAt := Some(now))];
      }
      ok := PromoteIfComplete(id, promoteOk);
    }

    method MarkWebauthnVerified(id: Id, now: int, markOk: bool, promoteOk: bool) returns (ok: bool)
      modifies this
      ensures ok == (markOk && promoteOk)
      ensures rows == AfterMarking(old(rows), id, WebAuthn, now, markOk, promoteOk)
      ensures OnlyThis(old(rows), rows, id)
      ensures id in rows ==>
                var was := old(rows)[id];
                rows[id] == was.(webauthnAt := if markOk then Some(now) else was.webauthnAt,
                                 adminTier := was.adminTier || (markOk && promoteOk && was.totpAt.Some?))
    {
      MarkingMeans(rows, id, WebAuthn, now, markOk, promoteOk);
      if !markOk {
        return false;
      }
      if id in rows {
        rows := rows[id := rows[id].(webauthnAt := Some(now))];
      }
      ok := PromoteIfComplete(id, promoteOk);
    }

    method RevokeSession(id: Id, now: int, statementOk: bool) returns (ok: bool)
      modifies this
      ensures ok == statementOk
      ensures rows == if ok then Revoked(old(rows), id, now) else old(rows)
      ensures OnlyThis(old(rows), rows, id)
      ensures id in rows ==>
                var was := old(rows)[id];
                rows[id] == was.(revokedAt := if statementOk && was.revokedAt.None? then Some(now) else was.revokedAt)
    {
      ok := statementOk;
      if ok && id in rows && rows[id].revokedAt.None? {
        rows := rows[id := rows[id].(revokedAt := Some(now))];
      }
    }

    method Touch(id: Id, now: int, statementOk: bool) returns (ok: bool)
      modifies this
      ensures ok == statementOk
      ensures rows == if ok then Touched(old(rows), id, now) else old(rows)
      ensures OnlyThis(old(rows), rows, id)
      ensures id in rows ==>
                var was := old(rows)[id]; rows[id] == was.(lastSeenAt := if statementOk then now else was.lastSeenAt)
    {
      ok := statementOk;
      if ok && id in rows {
        rows := rows[id := rows[id].(lastSeenAt := now)];
      }
    }

    method GetActive(id: Id) returns (session: Option<Session>)
      ensures session == Active(rows, id)
      ensures session.Some? <==> id in rows && rows[id].revokedAt.None?
      ensures session.Some? ==> session.value == rows[id]
    {
      session := None;
      if id in rows && rows[id].revokedAt.None? {
        session := Some(rows[id]);
      }
    }
  }
}
