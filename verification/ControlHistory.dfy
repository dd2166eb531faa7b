/** Who sent what to the control loop, in what order, and what came of it: messages are handled
    in the order they were queued, and what each session's tasks have sent is exactly what its
    watcher's end calls for. */
module ControlHistory {
  import opened Basics
  import opened ControlLoop
  import opened ControlSystem
  import ControlLedger

  // ---------------------------------------------------------------- the channel is a queue

  function Posted(posts: seq<Post>): seq<ControlMsg> {
    seq(|posts|, i requires 0 <= i < |posts| => posts[i].msg)
  }

  function Messages(inputs: seq<Input>): seq<ControlMsg> {
    seq(|inputs|, i requires 0 <= i < |inputs| => inputs[i].msg)
  }

  /** The message that is out of the channel and not yet through. */
  function InHand(p: Phase): seq<ControlMsg> {
    match p
    case Receiving => []
    case Handling(msg) => [msg]
    case Queueing(input) => [input.msg]
  }

  predicate Fifo(s: System) { Posted(s.posts) == Messages(s.inputs) + InHand(s.phase) + s.chan }

  lemma StepFifo(s: System, a: Action)
    requires Fifo(s)
    ensures Fifo(Step(s, a))
  {
    var t := Step(s, a);
    if t.posts != s.posts {
      var post := t.posts[|s.posts|];
      assert t.posts == s.posts + [post];
      assert Posted(t.posts) == Posted(s.posts) + [post.msg];
    }
    if t.inputs != s.inputs {
      var input := t.inputs[|s.inputs|];
      assert t.inputs == s.inputs + [input];
      assert Messages(t.inputs) == Messages(s.inputs) + [input.msg];
    }
  }

  lemma {:induction false} ExecuteFifo(start: Loop, actions: seq<Action>)
    ensures Fifo(Execute(Boot(start), actions))
  {
    if actions != [] {
      ExecuteFifo(start, actions[..|actions| - 1]);
      StepFifo(Execute(Boot(start), actions[..|actions| - 1]), actions[|actions| - 1]);
    }
  }

  /** Over every interleaving the loop handles messages in the order in which they were queued,
      each once, and nothing else; what it has not handled yet is in hand or in the channel. */
  lemma HandledInOrder(start: Loop, actions: seq<Action>, m: nat)
    requires m < |Execute(Boot(start), actions).inputs|
    ensures var s := Execute(Boot(start), actions);
            && m < |s.posts| && s.inputs[m].msg == s.posts[m].msg
            && |s.posts| == |s.inputs| + |InHand(s.phase)| + |s.chan|
  {
    ExecuteFifo(start, actions);
    var s := Execute(Boot(start), actions);
    assert |Posted(s.posts)| == |s.posts| && |Messages(s.inputs)| == |s.inputs|;
    assert Posted(s.posts)[m] == Messages(s.inputs)[m];
  }

  // ---------------------------------------------------------------- what a session's tasks sent

  /** What supervision and the trigger task of session `k` have sent so far. */
  ghost predicate SessionPosts(s: System, k: nat)
    requires k < |s.sessions|
  {
    var x := s.sessions[k];
    && (Post(Disarm, BySupervision(k)) in s.posts <==> x.watch.Reported?)
    && (Post(FireNow, ByTrigger(k)) in s.posts <==> x.trigger.Sent?)
    && (x.watch.Failing? || x.watch.Reported? ==> x.supervised)
    && (x.trigger.Firing? || x.trigger.Sent? ==> x.watch.Tripped?)
  }

  /** Supervision sends only `Disarm`, a trigger task only `FireNow`, for sessions that exist; the two
      preparing tasks and the loop itself send only `Prepare`, and the API never does. */
  predicate PostKnown(s: System, post: Post) {
    match post.sender
    case BySupervision(k) => k < |s.sessions| && post.msg.Disarm?
    case ByTrigger(k) => k < |s.sessions| && post.msg.FireNow?
    case ByTimer(k) => k < |s.sessions| && post.msg.Prepare?
    case ByReprepare(k) => k < |s.sessions| && post.msg.Prepare?
    case ByLoop => post.msg.Prepare?
    case ByApi => !post.msg.Prepare?
  }

  ghost predicate PostsKnown(s: System) {
    && (forall k :: 0 <= k < |s.sessions| ==> SessionPosts(s, k))
    && (forall post :: post in s.posts ==> PostKnown(s, post))
  }

  /** A step leaves sessions alone, changes one and perhaps queues one message, or adds one. */
  lemma StepSessions(s: System, a: Action, k: nat)
    requires PostsKnown(s) && k < |Step(s, a).sessions|
    ensures SessionPosts(Step(s, a), k)
  {
    var t := Step(s, a);
    if k < |s.sessions| {
      assert SessionPosts(s, k);
    } else {
      var x := t.sessions[k];
      assert t.posts == s.posts && x.watch.Watching? && x.trigger.Waiting?;
    }
  }

  lemma StepPosts(s: System, a: Action)
    requires PostsKnown(s)
    ensures PostsKnown(Step(s, a))
  {
    var t := Step(s, a);
    forall k | 0 <= k < |t.sessions| ensures SessionPosts(t, k) { StepSessions(s, a, k); }
    forall post | post in t.posts ensures PostKnown(t, post) {
      if post in s.posts { assert PostKnown(s, post); }
    }
  }

  lemma {:induction false} ExecutePosts(start: Loop, actions: seq<Action>)
    ensures PostsKnown(Execute(Boot(start), actions))
  {
    if actions != [] {
      ExecutePosts(start, actions[..|actions| - 1]);
      StepPosts(Execute(Boot(start), actions[..|actions| - 1]), actions[|actions| - 1]);
    }
  }

  /** Over every run, who sends what: fires without a person behind them come only from trigger tasks of
      sessions that tripped, disarms only from supervision of sessions whose watcher failed, prepares
      only from the loop and the two preparing tasks. */
  lemma WhatEachSends(start: Loop, actions: seq<Action>, i: nat)
    requires i < |Execute(Boot(start), actions).posts|
    ensures var s := Execute(Boot(start), actions); var post := s.posts[i];
            && (post.msg.Prepare? <==> post.sender.ByLoop? || post.sender.ByTimer? || post.sender.ByReprepare?)
            && (post.sender.ByTrigger? ==>
                  post.msg.FireNow? && post.sender.k < |s.sessions| && s.sessions[post.sender.k].watch.Tripped?)
            && (post.sender.BySupervision? ==>
                  && post.msg.Disarm? && post.sender.k < |s.sessions|
                  && s.sessions[post.sender.k].supervised && s.sessions[post.sender.k].watch.Reported?)
  {
    var s := Execute(Boot(start), actions);
    ExecutePosts(start, actions);
    assert s.posts[i] in s.posts && PostKnown(s, s.posts[i]);
    match s.posts[i].sender
    case ByTrigger(k) => assert SessionPosts(s, k);
    case BySupervision(k) => assert SessionPosts(s, k);
    case _ =>
  }

  /** The watcher of session `k` returned an error under supervision at some step of the run. */
  predicate HasFailed(s: System, actions: seq<Action>, k: nat) {
    actions != [] && var before := actions[..|actions| - 1];
                     HasFailed(s, before, k)
                     || (actions[|actions| - 1] == Fail(k) && Enabled(Execute(s, before), Fail(k)))
  }

  predicate Failed(w: Watch) { w.Failing? || w.Reported? || w.Aborted? }

  lemma StepFailed(s: System, a: Action, k: nat)
    requires k < |Step(s, a).sessions|
    ensures k < |s.sessions| ==>
              var v, w := s.sessions[k].watch, Step(s, a).sessions[k].watch;
              && (v.Reported? ==> w.Reported?) && (v.Aborted? ==> w.Aborted?)
              && (v.Failing? ==> Failed(w))
              && (w.Failing? || w.Reported? ==> v.Failing? || v.Reported? || (a == Fail(k) && Enabled(s, a)))
              && (a == Fail(k) && Enabled(s, a) ==> w.Failing?)
    ensures k >= |s.sessions| ==> Step(s, a).sessions[k].watch.Watching?
  {
  }

  lemma {:induction false} FailureHistory(start: Loop, actions: seq<Action>, k: nat)
    ensures var s := Execute(Boot(start), actions);
            if k < |s.sessions| then
              && (s.sessions[k].watch.Failing? || s.sessions[k].watch.Reported? ==> HasFailed(Boot(start), actions, k))
              && (HasFailed(Boot(start), actions, k) ==> Failed(s.sessions[k].watch))
            else !HasFailed(Boot(start), actions, k)
  {
    if actions != [] {
      var before, a := actions[..|actions| - 1], actions[|actions| - 1];
      FailureHistory(start, before, k);
      if k < |Execute(Boot(start), actions).sessions| { StepFailed(Execute(Boot(start), before), a, k); }
    }
  }

  /** Supervision puts a `Disarm` into the channel if and only if the session's watcher returned an
      error while supervised and was neither aborted first nor is still waiting for a slot. */
  lemma SupervisionExactly(start: Loop, actions: seq<Action>, k: nat)
    requires k < |Execute(Boot(start), actions).sessions|
    ensures var s := Execute(Boot(start), actions);
            && (Post(Disarm, BySupervision(k)) in s.posts <==>
                  HasFailed(Boot(start), actions, k) && !s.sessions[k].watch.Aborted? && !s.sessions[k].watch.Failing?)
            && (Post(Disarm, BySupervision(k)) in s.posts ==> s.sessions[k].supervised)
  {
    ExecutePosts(start, actions);
    FailureHistory(start, actions, k);
    assert SessionPosts(Execute(Boot(start), actions), k);
  }

  // ---------------------------------------------------------------- a watcher that ends quietly

  lemma {:induction false} EndedStays(s: System, actions: seq<Action>, k: nat)
    requires k < |s.sessions| && s.sessions[k].watch.Ended?
    ensures var t := Execute(s, actions); k < |t.sessions| && t.sessions[k].watch.Ended?
  {
    if actions != [] { EndedStays(s, actions[..|actions| - 1], k); }
  }

  /** A watcher whose stream ended disarms nothing and fires nothing, ever: in every continuation
      of every run its session has sent neither a `Disarm` nor a `FireNow`. */
  lemma QuietEnd(start: Loop, actions: seq<Action>, more: seq<Action>, k: nat)
    requires var s := Execute(Boot(start), actions); k < |s.sessions| && s.sessions[k].watch.Ended?
    ensures var t := Execute(Boot(start), actions + more);
            && k < |t.sessions| && t.sessions[k].watch.Ended?
            && Post(Disarm, BySupervision(k)) !in t.posts && Post(FireNow, ByTrigger(k)) !in t.posts
  {
    ExecuteConcat(Boot(start), actions, more);
    EndedStays(Execute(Boot(start), actions), more, k);
    ExecutePosts(start, actions + more);
    assert SessionPosts(Execute(Boot(start), actions + more), k);
  }

  predicate Ends(msg: ControlMsg) { msg.Disarm? || msg.FireNow? || msg.SetTarget? }

  /** The loop is armed for session `w`, whose watcher has ended, and no message that would
      disarm it is queued or in hand. */
  predicate Abandoned(s: System, w: nat) {
    && s.loop.armed && s.loop.watcher == Some(w) && w < |s.sessions| && s.sessions[w].watch.Ended?
    && !s.sessions[w].trigger.Firing? && !s.sessions[w].trigger.Sent?
    && (forall i :: 0 <= i < |s.chan| ==> !Ends(s.chan[i]))
    && (s.phase.Handling? ==> !Ends(s.phase.msg)) && (s.phase.Queueing? ==> !Ends(s.phase.input.msg))
  }

  /** Someone other than session `w` queues a message that disarms. */
  predicate OthersEnd(a: Action, w: nat) {
    match a
    case Api(msg) => Ends(msg)
    case ReportFailure(k) => k != w
    case TriggerSend(k) => k != w
    case _ => false
  }

  lemma AbandonedStep(s: System, a: Action, w: nat)
    requires Abandoned(s, w) && !OthersEnd(a, w)
    ensures Abandoned(Step(s, a), w)
  {
  }

  lemma {:induction false} AbandonedStays(s: System, actions: seq<Action>, w: nat)
    requires Abandoned(s, w) && forall i :: 0 <= i < |actions| ==> !OthersEnd(actions[i], w)
    ensures Abandoned(Execute(s, actions), w)
  {
    if actions != [] {
      AbandonedStays(s, actions[..|actions| - 1], w);
      AbandonedStep(Execute(s, actions[..|actions| - 1]), actions[|actions| - 1], w);
    }
  }

  /** Once the current watcher has ended, the loop stays armed through every continuation in which
      nobody else queues a disarm, a fire or a new target: nothing of the session itself does. */
  lemma ArmedWithoutWatcher(start: Loop, actions: seq<Action>, more: seq<Action>)
    requires Initial(start)
    requires var s := Execute(Boot(start), actions);
             && s.loop.watcher.Some? && s.loop.watcher.value < |s.sessions|
             && s.sessions[s.loop.watcher.value].watch.Ended?
             && (forall i :: 0 <= i < |s.chan| ==> !Ends(s.chan[i]))
             && forall i :: 0 <= i < |InHand(s.phase)| ==> !Ends(InHand(s.phase)[i])
    requires var w := Execute(Boot(start), actions).loop.watcher.value;
             forall i :: 0 <= i < |more| ==> !OthersEnd(more[i], w)
    ensures var s, t := Execute(Boot(start), actions), Execute(Boot(start), actions + more);
            t.loop.armed && t.loop.watcher == s.loop.watcher
  {
    var s := Execute(Boot(start), actions);
    var w := s.loop.watcher.value;
    ExecuteKeeps(start, actions);
    ArmedForWatcher(s, start);
    if s.phase.Handling? || s.phase.Queueing? { assert !Ends(InHand(s.phase)[0]); }
    ExecutePosts(start, actions);
    assert SessionPosts(s, w);
    AbandonedStays(s, more, w);
    ExecuteConcat(Boot(start), actions, more);
  }

  /** Armed and holding a watcher are one, in the middle of an `Arm` too. */
  lemma ArmedForWatcher(s: System, start: Loop)
    requires Initial(start) && SystemInvariant(s, start)
    ensures s.loop.armed <==> s.loop.watcher.Some?
  {
    ControlLedger.RunKeeps(start, s.inputs);
  }

  lemma StreamEnds(s: System)
    requires FirstArm(s)
    ensures var t := Step(Step(s, SelfSend), End(0)); Abandoned(t, 0) && t.sessions[0].supervised && t.loop.alive
  {
    var t := Step(s, SelfSend);
    assert t.chan == [Prepare] && t.phase.Receiving? && t.loop == ArmFinish(s.loop);
  }

  /** Such a state is reached: arm, and the watcher's stream ends. The session was supervised, and
      its flag stays up for good unless someone else acts. */
  lemma AbandonedReachable(start: Loop, cfg: Config, replies: Replies)
    requires Initial(start) && cfg.triggerMode == "poll_state"
    ensures exists actions ::
              var s := Execute(Boot(start), actions); Abandoned(s, 0) && s.sessions[0].supervised && s.loop.alive
  {
    var first := FirstArmReachable(start, cfg, replies);
    var s := Execute(Boot(start), first);
    StreamEnds(s);
    ExecuteOne(Boot(start), first, SelfSend);
    ExecuteOne(Boot(start), first + [SelfSend], End(0));
    assert Abandoned(Execute(Boot(start), first + [SelfSend] + [End(0)]), 0);
  }

  // ---------------------------------------------------------------- queued in order of sending

  /** A watcher that has tripped did so at some step. */
  lemma {:induction false} TrippedAt(start: Loop, actions: seq<Action>, k: nat) returns (m: nat)
    requires var s := Execute(Boot(start), actions); k < |s.sessions| && s.sessions[k].watch.Tripped?
    ensures m < |actions| && actions[m] == Trip(k) && Enabled(Execute(Boot(start), actions[..m]), Trip(k))
  {
    var before := actions[..|actions| - 1];
    var s := Execute(Boot(start), before);
    if k < |s.sessions| && s.sessions[k].watch.Tripped? {
      m := TrippedAt(start, before, k);
      assert before[..m] == actions[..m];
    } else {
      m := |actions| - 1;
      TripsNow(s, actions[m], k);
    }
  }

  lemma TripsNow(s: System, a: Action, k: nat)
    requires k < |Step(s, a).sessions| && Step(s, a).sessions[k].watch.Tripped?
    requires k >= |s.sessions| || !s.sessions[k].watch.Tripped?
    ensures a == Trip(k) && Enabled(s, a)
  {
  }

  lemma PostsGrow(s: System, a: Action)
    ensures s.posts <= Step(s, a).posts
  {
  }

  lemma {:induction false} PostsOnlyGrow(s: System, actions: seq<Action>, n: nat)
    requires n <= |actions|
    ensures Execute(s, actions[..n]).posts <= Execute(s, actions).posts
    decreases |actions|
  {
    if n < |actions| {
      var before := actions[..|actions| - 1];
      PostsOnlyGrow(s, before, n);
      assert before[..n] == actions[..n];
      PostsGrow(Execute(s, before), actions[|actions| - 1]);
    } else {
      assert actions[..n] == actions;
    }
  }

  lemma PostAt(s: System, actions: seq<Action>, i: nat)
    requires i < |actions|
    ensures var before := Execute(s, actions[..i]);
            Execute(s, actions[..i + 1]) == Step(before, actions[i])
  {
    assert actions[..i + 1] == actions[..i] + [actions[i]];
    ExecuteOne(s, actions[..i], actions[i]);
  }

  /** If the timer of session `k` gets its prepare message into the channel before the trigger
      task gets its fire in, the loop handles them in that order. */
  lemma PrepareHandledFirst(start: Loop, actions: seq<Action>, k: nat, i: nat, j: nat) returns (p: nat, q: nat)
    requires i < j < |actions|
    requires actions[i] == TimerSend(k) && Enabled(Execute(Boot(start), actions[..i]), TimerSend(k))
    requires actions[j] == TriggerSend(k) && Enabled(Execute(Boot(start), actions[..j]), TriggerSend(k))
    ensures var s := Execute(Boot(start), actions);
            && p < q < |s.posts| && s.posts[p] == Post(Prepare, ByTimer(k)) && s.posts[q] == Post(FireNow, ByTrigger(k))
            && (q < |s.inputs| ==> s.inputs[p].msg == Prepare && s.inputs[q].msg == FireNow)
  {
    var boot := Boot(start);
    var s := Execute(boot, actions);
    p, q := |Execute(boot, actions[..i]).posts|, |Execute(boot, actions[..j]).posts|;
    PostAt(boot, actions, i);
    PostAt(boot, actions, j);
    assert actions[..j][..i + 1] == actions[..i + 1];
    PostsOnlyGrow(boot, actions[..j], i + 1);
    PostsOnlyGrow(boot, actions, i + 1);
    PostsOnlyGrow(boot, actions, j + 1);
    if q < |s.inputs| {
      HandledInOrder(start, actions, p);
      HandledInOrder(start, actions, q);
    }
  }
}
