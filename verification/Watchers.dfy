/** `watcher.rs`, and the prepare timer of `main.rs`. Time is a count of milliseconds of the
    system clock; a sleep begun at `t` overruns by `overrun(t)`. */
module Watchers {
  import opened Basics

  /** Milliseconds slept after a look at the clock at `t` that found the target still ahead. */
  function Step(target: nat, t: nat): nat { if target - t / 1000 > 5 then 500 else 20 }

  function Deadline(target: nat): nat { target * 1000 }

  function Wake(target: nat, t: nat, overrun: nat -> nat): nat { t + Step(target, t) + overrun(t) }

  /** Every look at the clock, the first at `t`; the last one fires. */
  function Looks(target: nat, t: nat, overrun: nat -> nat): (looks: seq<nat>)
    ensures looks != [] && looks[0] == t
    decreases Deadline(target) - t
  {
    if t / 1000 >= target then [t] else [t] + Looks(target, Wake(target, t, overrun), overrun)
  }

  method RunTimestampWatcher(target: nat, start: nat, overrun: nat -> nat) returns (fired: nat, looks: seq<nat>)
    ensures looks == Looks(target, start, overrun) && fired == looks[|looks| - 1]
  {
    fired, looks := start, [];
    while fired / 1000 < target
      invariant Looks(target, start, overrun) == looks + Looks(target, fired, overrun)
      decreases Deadline(target) - fired
    {
      looks := looks + [fired];
      var remaining := target - fired / 1000;
      var sleep := if remaining > 5 then 500 else 20;
      fired := fired + sleep + overrun(fired);
    }
    looks := looks + [fired];
  }

  function FireTime(target: nat, start: nat, overrun: nat -> nat): nat {
    var looks := Looks(target, start, overrun);
    looks[|looks| - 1]
  }

  /** Never early; at once if the target has passed; and otherwise less than one short step and
      one overrun late, however long overruns may be. */
  lemma {:induction false} FiresOnTime(target: nat, start: nat, overrun: nat -> nat, slack: nat)
    requires forall t :: overrun(t) <= slack
    ensures var fired := FireTime(target, start, overrun);
            Deadline(target) <= fired && if start >= Deadline(target) then fired == start
                                         else fired < Deadline(target) + 20 + slack
    decreases Deadline(target) - start
  {
    if start / 1000 < target {
      FiresOnTime(target, Wake(target, start, overrun), overrun, slack);
    }
  }

  /** No watcher that starts in time does better than 19 milliseconds and one overrun. */
  lemma LatenessIsTight(target: nat, slack: nat)
    requires target > 0
    ensures FireTime(target, (Deadline(target) - 1) as nat, _ => slack) == Deadline(target) + 19 + slack
  {
    var late := (_: nat) => slack;
    var t: nat := Deadline(target) - 1;
    assert Wake(target, t, late) == Deadline(target) + 19 + slack;
    assert Looks(target, t, late) == [t, Deadline(target) + 19 + slack];
  }

  /** Some long step that overruns by `slack` ends past the deadline. */
  ghost predicate LongStepCrosses(target: nat, slack: nat) {
    exists t: nat :: Step(target, t) == 500 && t + 500 + slack >= Deadline(target)
  }

  /** The long step cannot cross the deadline exactly as long as no sleep overruns by more than
      four and a half seconds. */
  lemma LongStepNeverCrosses(target: nat, slack: nat)
    requires target > 5
    ensures LongStepCrosses(target, slack) <==> slack > 4500
  {
    if slack > 4500 {
      var t: nat := Deadline(target) - 5001;
      assert Step(target, t) == 500;
    }
  }

  /** The two rates keep the number of looks at the clock to one per half second, and at most
      251 more. */
  lemma {:induction false} FewLooks(target: nat, t: nat, overrun: nat -> nat)
    ensures var looks := Looks(target, t, overrun);
            && (t < Deadline(target) <= t + 5000 ==> 20 * |looks| < Deadline(target) - t + 40)
            && (t + 5000 < Deadline(target) ==> 500 * (|looks| - 251) < Deadline(target) - 5000 - t + 500)
    decreases Deadline(target) - t
  {
    if t / 1000 < target {
      FewLooks(target, Wake(target, t, overrun), overrun);
    }
  }

  // ---------------------------------------------------------------- the prepare timer

  const PREPARE_LEAD_SECS := 5

  function SaturatingSub(a: nat, b: nat): nat { if a >= b then a - b else 0 }

  /** When the timer of an arm at `armed` is due to send its prepare message. */
  function PrepareDue(target: nat, armed: nat): nat {
    armed + SaturatingSub(SaturatingSub(target, armed / 1000), PREPARE_LEAD_SECS) * 1000
  }

  /** The timer is due at the fraction of a second it was armed at, five seconds before the target's
      second; at once if that is not ahead. */
  lemma PrepareLead(target: nat, armed: nat)
    ensures PrepareDue(target, armed) == if target > armed / 1000 + 5 then (target - 5) * 1000 + armed % 1000 else armed
  {
    assert armed == armed / 1000 * 1000 + armed % 1000;
  }

  predicate Ordered(target: nat, armed: nat, start: nat, overrun: nat -> nat, late: nat) {
    PrepareDue(target, armed) + late < FireTime(target, start, overrun)
  }

  /** A schedule the two tasks of an arm at `armed` may follow: each starts, and each sleep ends,
      at most `slack` late. */
  ghost predicate Schedule(armed: nat, slack: nat, start: nat, overrun: nat -> nat, late: nat) {
    armed <= start <= armed + slack && late <= slack && forall t :: overrun(t) <= slack
  }

  /** In every such schedule the prepare message is sent before the trigger fires. */
  ghost predicate PreparedFirst(target: nat, armed: nat, slack: nat) {
    forall start: nat, overrun: nat -> nat, late: nat ::
      Schedule(armed, slack, start, overrun, late) ==> Ordered(target, armed, start, overrun, late)
  }

  /** The overruns that make a watcher look at the clock exactly at the deadline. */
  function Landing(target: nat, slack: nat): nat -> nat {
    (t: nat) =>
      var ahead := Deadline(target) - t - Step(target, t); if 0 <= ahead <= slack then ahead else 0
  }

  lemma {:induction false} LandsOnDeadline(target: nat, t: nat, slack: nat)
    requires slack >= 500 && t < Deadline(target) && t + Step(target, t) <= Deadline(target)
    ensures FireTime(target, t, Landing(target, slack)) == Deadline(target)
    decreases Deadline(target) - t
  {
    var overrun := Landing(target, slack);
    var next := Wake(target, t, overrun);
    assert Looks(target, t, overrun) == [t] + Looks(target, next, overrun);
    if next < Deadline(target) {
      LandsOnDeadline(target, next, slack);
    } else {
      assert next == Deadline(target) && Looks(target, next, overrun) == [next];
    }
  }

  /** Some schedule in which the prepare message is not first. */
  lemma LateSchedule(target: nat, armed: nat, slack: nat) returns (start: nat, overrun: nat -> nat, late: nat)
    requires PrepareDue(target, armed) + slack >= Deadline(target)
    ensures Schedule(armed, slack, start, overrun, late) && !Ordered(target, armed, start, overrun, late)
  {
    start, overrun, late := armed, _ => 0, slack;
    if armed >= Deadline(target) {
      FiresOnTime(target, armed, overrun, 0);
    } else if armed / 1000 + PREPARE_LEAD_SECS >= target {
      start := Deadline(target);
      FiresOnTime(target, start, overrun, 0);
    } else {
      overrun := Landing(target, slack);
      LandsOnDeadline(target, armed, slack);
    }
  }

  /** The order is certain exactly if the timer at its latest beats the target. */
  lemma PreparedFirstExactly(target: nat, armed: nat, slack: nat)
    ensures PreparedFirst(target, armed, slack) <==> PrepareDue(target, armed) + slack < Deadline(target)
  {
    if PrepareDue(target, armed) + slack < Deadline(target) {
      forall start: nat, overrun: nat -> nat, late: nat | Schedule(armed, slack, start, overrun, late)
        ensures Ordered(target, armed, start, overrun, late)
      {
        FiresOnTime(target, start, overrun, slack);
      }
    } else {
      var start, overrun, late := LateSchedule(target, armed, slack);
    }
  }

  /** Armed with the lead time to spare, the order is certain for overruns of up to four
      seconds, and the batch is then at most the lead time, one short step and one overrun old
      when the trigger fires. */
  lemma PreparedFreshAndFirst(target: nat, armed: nat, slack: nat, start: nat, overrun: nat -> nat, late: nat)
    requires armed / 1000 + 5 <= target && slack <= 4000
    requires (forall t :: overrun(t) <= slack) && late <= slack && start < Deadline(target)
    ensures PreparedFirst(target, armed, slack)
    ensures FireTime(target, start, overrun) - (PrepareDue(target, armed) + late) < 5020 + slack
  {
    PreparedFirstExactly(target, armed, slack);
    FiresOnTime(target, start, overrun, slack);
  }

  // ---------------------------------------------------------------- watchers over a stream

  /** What happened after one new block header: the state call failed, or returned bytes. */
  datatype StateReply = Failed | Returned(bytes: seq<nat>)

  predicate Active(reply: StateReply) {
    reply.Returned? && reply.bytes != [] && reply.bytes[|reply.bytes| - 1] == 1
  }

  datatype PendingTx = PendingTx(signer: nat, to: Option<nat>)

  /** Flips the trigger once, at the first active state; if the stream ends before, the watcher
      returns normally and the trigger never flips. */
  method RunStatePollWatcher(replies: seq<StateReply>) returns (fired: Option<nat>, flips: nat)
    ensures flips == (if fired.Some? then 1 else 0)
    ensures fired.Some? <==> exists i :: 0 <= i < |replies| && Active(replies[i])
    ensures fired.Some? ==> fired.value < |replies| && forall i :: 0 <= i < fired.value ==> !Active(replies[i])
    ensures fired.Some? ==> var reply := replies[fired.value];
                            reply.Returned? && reply.bytes != [] && reply.bytes[|reply.bytes| - 1] == 1
    ensures fired.None? ==> forall i :: 0 <= i < |replies| ==>
                                          replies[i] == Failed || replies[i].bytes == []
                                          || replies[i].bytes[|replies[i].bytes| - 1] != 1
  {
    fired, flips := None, 0;
    for i := 0 to |replies|
      invariant fired == None && flips == 0
      invariant forall k :: 0 <= k < i ==> !Active(replies[k])
    {
      match replies[i]
      case Failed =>
      case Returned(bytes) =>
        if bytes != [] && bytes[|bytes| - 1] == 1 {
          fired, flips := Some(i), flips + 1;
          break;
        }
    }
  }

  /** Flips the trigger once, at the first pending transaction from the admin to the watched
      contract; a contract creation never matches. */
  method RunMempoolWatcher(txs: seq<PendingTx>, admin: nat, watched: nat) returns (fired: Option<nat>, flips: nat)
    ensures flips == (if fired.Some? then 1 else 0)
    ensures fired.Some? <==> PendingTx(admin, Some(watched)) in txs
    ensures fired.Some? ==> fired.value < |txs| && txs[fired.value] == PendingTx(admin, Some(watched))
                            && PendingTx(admin, Some(watched)) !in txs[..fired.value]
  {
    fired, flips := None, 0;
    for i := 0 to |txs|
      invariant fired == None && flips == 0
      invariant PendingTx(admin, Some(watched)) !in txs[..i]
    {
      if txs[i].signer == admin && txs[i].to == Some(watched) {
        fired, flips := Some(i), flips + 1;
        break;
      }
    }
  }
}
