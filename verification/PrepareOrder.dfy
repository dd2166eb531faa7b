/** The clock and the channel together: in a run of the whole system whose steps happen at given
    times, a session armed early enough has its batch signed before its automatic fire. */
module PrepareOrder {
  import opened Basics
  import opened ControlLoop
  import opened ControlSystem
  import ControlHistory
  import Watchers

  /** The steps happen in order of time. */
  ghost predicate InTime(actions: seq<Action>, times: seq<nat>) {
    |times| == |actions| && forall i, j :: 0 <= i <= j < |times| ==> times[i] <= times[j]
  }

  /** Step `i` is this one, and it can be taken. */
  predicate Takes(boot: System, actions: seq<Action>, i: nat, a: Action) {
    i < |actions| && actions[i] == a && Enabled(Execute(boot, actions[..i]), a)
  }

  /** Step `i` arms session `k` for the instant `target`. */
  predicate Arms(boot: System, actions: seq<Action>, i: nat, k: nat, target: nat) {
    && i < |actions| && actions[i].Finish?
    && var s, cfg := Execute(boot, actions[..i]), actions[i].cfg;
       && Accepts(s, cfg, actions[i].replies) && |s.sessions| == k
       && TimerScheduled(cfg) && cfg.triggerTimestampUnix == target
  }

  /** The trigger task sends only after its session's watcher has tripped. */
  lemma SendsAfterTrip(start: Loop, actions: seq<Action>, k: nat, j: nat) returns (m: nat)
    requires Takes(Boot(start), actions, j, TriggerSend(k))
    ensures m < j && Takes(Boot(start), actions, m, Trip(k))
  {
    var before := actions[..j];
    ControlHistory.ExecutePosts(start, before);
    assert ControlHistory.SessionPosts(Execute(Boot(start), before), k);
    m := ControlHistory.TrippedAt(start, before, k);
    assert before[..m] == actions[..m];
  }

  /** Step `a` arms session `k` for `target`. Its timer's message is in the channel at most `slack`
      after it was due, waiting for a slot included, and its watcher trips no earlier than a watcher
      started within `slack` of the arm fires. If the timer at its latest beats the target, the
      message is queued, and handled, before the automatic fire. */
  lemma PreparedBeforeFired(start: Loop, actions: seq<Action>, times: seq<nat>, k: nat, target: nat,
                            a: nat, i: nat, j: nat, slack: nat, began: nat, overrun: nat -> nat, late: nat)
    returns (p: nat, q: nat)
    requires InTime(actions, times) && Arms(Boot(start), actions, a, k, target)
    requires Takes(Boot(start), actions, i, TimerSend(k)) && Takes(Boot(start), actions, j, TriggerSend(k))
    requires Watchers.Schedule(times[a], slack, began, overrun, late)
    requires times[i] == Watchers.PrepareDue(target, times[a]) + late
    requires forall m: nat :: Takes(Boot(start), actions, m, Trip(k)) ==>
                                Watchers.FireTime(target, began, overrun) <= times[m]
    requires Watchers.PrepareDue(target, times[a]) + slack < Watchers.Deadline(target)
    ensures var s := Execute(Boot(start), actions);
            && p < q < |s.posts| && s.posts[p] == Post(Prepare, ByTimer(k)) && s.posts[q] == Post(FireNow, ByTrigger(k))
            && (q < |s.inputs| ==> s.inputs[p].msg == Prepare && s.inputs[q].msg == FireNow)
  {
    var m := SendsAfterTrip(start, actions, k, j);
    Watchers.PreparedFirstExactly(target, times[a], slack);
    assert Watchers.Ordered(target, times[a], began, overrun, late);
    assert i < j;
    p, q := ControlHistory.PrepareHandledFirst(start, actions, k, i, j);
  }
}
