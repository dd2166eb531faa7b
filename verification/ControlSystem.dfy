/** The control loop together with everything that sends to it: the API, and for each arm
    session the watcher, its supervision, the trigger task, the prepare timer and the
    re-prepare task. All of them share one bounded channel; a run is any interleaving of
    their steps. */
module ControlSystem {
  import opened Basics
  import opened ControlLoop
  import ControlLedger

  const CAPACITY := 8

  /** `Tripped` has signalled the trigger; `Ended` returned `Ok` without doing so; `Failing`
      returned an error that supervision has yet to report with a `Disarm`. */
  datatype Watch = Watching | Tripped | Ended | Failing | Reported | Aborted

  /** Waiting for the trigger, sending `FireNow`, done, or given up with the watcher. */
  datatype Trigger = Waiting | Firing | Sent | Quit

  datatype Task = Absent | Sleeping | Sending | Done | Cancelled

  datatype Session = Session(supervised: bool, watch: Watch, trigger: Trigger, timer: Task, reprepare: Task)

  /** `Queueing` is the middle of an `Arm`: the loop is sending a `Prepare` to itself. */
  datatype Phase = Receiving | Handling(msg: ControlMsg) | Queueing(input: Input)

  /** Who sent a message; tasks are told apart by their session. */
  datatype Sender =
    | ByApi
    | ByLoop
    | BySupervision(k: nat)
    | ByTrigger(k: nat)
    | ByTimer(k: nat)
    | ByReprepare(k: nat)

  datatype Post = Post(msg: ControlMsg, sender: Sender)

  /** `inputs` are the messages handled so far, `autoFires` the number of `FireNow`s trigger tasks
      sent, and `posts` everything ever put into the channel, in order. */
  datatype System = System(
    loop: Loop, phase: Phase, chan: seq<ControlMsg>, sessions: seq<Session>, inputs: seq<Input>, autoFires: nat,
    posts: seq<Post>)

  datatype Action =
    | Api(msg: ControlMsg)
    | Receive
    | Finish(cfg: Config, replies: Replies)
    | SelfSend
    | Trip(k: nat)
    | End(k: nat)
    | Fail(k: nat)
    | ReportFailure(k: nat)
    | TriggerWake(k: nat)
    | TriggerQuit(k: nat)
    | TriggerSend(k: nat)
    | TimerWake(k: nat)
    | TimerSend(k: nat)
    | ReprepareWake(k: nat)
    | ReprepareSend(k: nat)

  predicate HasRoom(s: System) { |s.chan| < CAPACITY }

  function Cancel(t: Task): Task { if t.Sleeping? || t.Sending? then Cancelled else t }

  /** Aborting stops what still runs; a finished watcher stays as it ended. */
  function AbortSession(x: Session): Session {
    x.(watch := if x.watch.Watching? || x.watch.Failing? then Aborted else x.watch,
       timer := Cancel(x.timer), reprepare := Cancel(x.reprepare))
  }

  function NewSession(cfg: Config): Session {
    Session(cfg.triggerMode != "timestamp", Watching, Waiting, if TimerScheduled(cfg) then Sleeping else Absent, Absent)
  }

  predicate Accepts(s: System, cfg: Config, replies: Replies) {
    s.phase.Handling? && s.phase.msg.Arm? && s.loop.alive && !ArmRefused(s.loop, cfg, replies)
  }

  predicate Enabled(s: System, a: Action) {
    match a
    case Api(msg) => HasRoom(s) && !msg.Prepare?
    case Receive => s.loop.alive && s.phase.Receiving? && s.chan != []
    case Finish(_, _) => s.phase.Handling?
    case SelfSend => s.phase.Queueing? && HasRoom(s)
    case _ =>
      a.k < |s.sessions| && var x := s.sessions[a.k];
      match a
      case Trip(_) => x.watch.Watching?
      case End(_) => x.watch.Watching?
      case Fail(_) => x.watch.Watching? && x.supervised
      case ReportFailure(_) => x.watch.Failing? && HasRoom(s)
      case TriggerWake(_) => x.trigger.Waiting? && x.watch.Tripped?
      case TriggerQuit(_) => x.trigger.Waiting? && !x.watch.Tripped? && !x.watch.Watching?
      case TriggerSend(_) => x.trigger.Firing? && HasRoom(s)
      case TimerWake(_) => x.timer.Sleeping?
      case TimerSend(_) => x.timer.Sending? && HasRoom(s)
      case ReprepareWake(_) => x.reprepare.Sleeping?
      case _ => x.reprepare.Sending? && HasRoom(s)
  }

  function Queue(s: System, msg: ControlMsg, sender: Sender): System {
    s.(chan := s.chan + [msg], posts := s.posts + [Post(msg, sender)])
  }

  function Put(s: System, k: nat, x: Session): System
    requires k < |s.sessions|
  {
    s.(sessions := s.sessions[k := x])
  }

  /** The loop moves on to state `loop`; a session it let go of is aborted. */
  function Handled(s: System, input: Input, loop: Loop): System {
    var w := s.loop.watcher;
    s.(loop := loop, phase := Receiving, inputs := s.inputs + [input],
       sessions := if w.Some? && w.value < |s.sessions| && loop.watcher.None?
                   then s.sessions[w.value := AbortSession(s.sessions[w.value])] else s.sessions)
  }

  /** The handler of the received message, except that an accepted `Arm` that has to queue a
      `Prepare` stops before doing so. */
  function FinishStep(s: System, cfg: Config, replies: Replies): System
    requires s.phase.Handling?
  {
    var input := Input(s.phase.msg, cfg, replies);
    if Accepts(s, cfg, replies) then
      var armed := s.(loop := ArmBegin(s.loop, cfg, replies), sessions := s.sessions + [NewSession(cfg)]);
      if TimerScheduled(cfg) then armed.(phase := Receiving, inputs := s.inputs + [input])
      else armed.(phase := Queueing(input))
    else Handled(s, input, Handle(s.loop, input))
  }

  function SelfSendStep(s: System): System
    requires s.phase.Queueing?
  {
    var w := s.loop.watcher;
    Queue(s, Prepare, ByLoop).(
       loop := if w.Some? then ArmFinish(s.loop) else s.loop,
       phase := Receiving, inputs := s.inputs + [s.phase.input],
       sessions := if w.Some? && w.value < |s.sessions|
                   then s.sessions[w.value := s.sessions[w.value].(reprepare := Sleeping)] else s.sessions)
  }

  /** One step; an action that is not enabled changes nothing. */
  function Step(s: System, a: Action): System {
    if !Enabled(s, a) then s else
    match a
    case Api(msg) => Queue(s, msg, ByApi)
    case Receive => s.(phase := Handling(s.chan[0]), chan := s.chan[1..])
    case Finish(cfg, replies) => FinishStep(s, cfg, replies)
    case SelfSend => SelfSendStep(s)
    case Trip(k) => Put(s, k, s.sessions[k].(watch := Tripped))
    case End(k) => Put(s, k, s.sessions[k].(watch := Ended))
    case Fail(k) => Put(s, k, s.sessions[k].(watch := Failing))
    case ReportFailure(k) => Queue(Put(s, k, s.sessions[k].(watch := Reported)), Disarm, BySupervision(k))
    case TriggerWake(k) => Put(s, k, s.sessions[k].(trigger := Firing))
    case TriggerQuit(k) => Put(s, k, s.sessions[k].(trigger := Quit))
    case TriggerSend(k) =>
      Queue(Put(s, k, s.sessions[k].(trigger := Sent)), FireNow, ByTrigger(k)).(autoFires := s.autoFires + 1)
    case TimerWake(k) => Put(s, k, s.sessions[k].(timer := Sending))
    case TimerSend(k) => Queue(Put(s, k, s.sessions[k].(timer := Done)), Prepare, ByTimer(k))
    case ReprepareWake(k) => Put(s, k, s.sessions[k].(reprepare := Sending))
    case ReprepareSend(k) => Queue(Put(s, k, s.sessions[k].(reprepare := Sleeping)), Prepare, ByReprepare(k))
  }

  function Execute(s: System, actions: seq<Action>): System {
    if actions == [] then s else Step(Execute(s, actions[..|actions| - 1]), actions[|actions| - 1])
  }

  function Boot(loop: Loop): System { System(loop, Receiving, [], [], [], 0, []) }

  /** Sessions whose trigger task has sent its `FireNow`. */
  function SentCount(xs: seq<Session>): nat {
    if xs == [] then 0 else SentCount(xs[..|xs| - 1]) + if xs[|xs| - 1].trigger.Sent? then 1 else 0
  }

  /** The loop's state is what the handled messages make of its initial state, plus the first
      half of an `Arm` while it is queueing. */
  ghost predicate LoopTracks(s: System, start: Loop) {
    match s.phase
    case Queueing(i) =>
      var l := Run(start, s.inputs);
      i.msg.Arm? && l.alive && !ArmRefused(l, i.cfg, i.replies) && !TimerScheduled(i.cfg)
      && s.loop == ArmBegin(l, i.cfg, i.replies)
    case _ => s.loop == Run(start, s.inputs)
  }

  ghost predicate SystemInvariant(s: System, start: Loop) {
    && LoopTracks(s, start)
    && (s.loop.alive || s.phase.Receiving?)
    && |s.chan| <= CAPACITY
    && |s.sessions| == s.loop.arms
    && (s.loop.watcher.Some? ==> s.loop.watcher.value < |s.sessions|)
    && s.autoFires == SentCount(s.sessions)
    && forall k :: 0 <= k < |s.sessions| && (s.sessions[k].trigger.Sent? || s.sessions[k].trigger.Firing?)
                   ==> s.sessions[k].watch.Tripped?
  }

  lemma {:induction false} SentCountUpdate(xs: seq<Session>, k: nat, x: Session)
    requires k < |xs|
    ensures SentCount(xs[k := x]) + (if xs[k].trigger.Sent? then 1 else 0)
            == SentCount(xs) + (if x.trigger.Sent? then 1 else 0)
  {
    var n := |xs| - 1;
    if k < n {
      assert xs[k := x][..n] == xs[..n][k := x];
      SentCountUpdate(xs[..n], k, x);
    } else {
      assert xs[k := x][..n] == xs[..n];
    }
  }

  lemma {:induction false} SentCountBound(xs: seq<Session>)
    ensures SentCount(xs) <= |xs|
  {
    if xs != [] { SentCountBound(xs[..|xs| - 1]); }
  }

  lemma RunAppend(start: Loop, inputs: seq<Input>, i: Input)
    ensures Run(start, inputs + [i]) == Handle(Run(start, inputs), i)
  {
    assert (inputs + [i])[..|inputs + [i]| - 1] == inputs;
  }

  /** A change to one session, to the channel and to the fire count that agree. */
  lemma PutKeeps(s: System, start: Loop, k: nat, x: Session, chan: seq<ControlMsg>, autoFires: nat, posts: seq<Post>)
    requires SystemInvariant(s, start) && k < |s.sessions| && |chan| <= CAPACITY
    requires x.trigger.Sent? || x.trigger.Firing? ==> x.watch.Tripped?
    requires autoFires + (if s.sessions[k].trigger.Sent? then 1 else 0) == s.autoFires + if x.trigger.Sent? then 1 else 0
    ensures SystemInvariant(s.(sessions := s.sessions[k := x], chan := chan, autoFires := autoFires, posts := posts),
                            start)
  {
    SentCountUpdate(s.sessions, k, x);
  }

  lemma ArmKeeps(s: System, start: Loop, cfg: Config, replies: Replies)
    requires SystemInvariant(s, start) && Accepts(s, cfg, replies)
    ensures SystemInvariant(FinishStep(s, cfg, replies), start)
  {
    RunAppend(start, s.inputs, Input(s.phase.msg, cfg, replies));
    assert (s.sessions + [NewSession(cfg)])[..|s.sessions|] == s.sessions;
  }

  lemma HandleKeepsArms(l: Loop, i: Input)
    requires !l.alive || !i.msg.Arm? || ArmRefused(l, i.cfg, i.replies)
    ensures Handle(l, i).arms == l.arms
    ensures Handle(l, i).watcher == l.watcher || Handle(l, i).watcher.None?
  {
  }

  lemma HandledKeeps(s: System, start: Loop, input: Input, loop: Loop)
    requires SystemInvariant(s, start) && s.phase.Handling?
    requires loop == Run(start, s.inputs + [input]) && loop.arms == s.loop.arms
    requires loop.watcher == s.loop.watcher || loop.watcher.None?
    ensures SystemInvariant(Handled(s, input, loop), start)
  {
    var w := s.loop.watcher;
    if w.Some? {
      SentCountUpdate(s.sessions, w.value, AbortSession(s.sessions[w.value]));
    }
  }

  lemma SelfSendKeeps(s: System, start: Loop)
    requires SystemInvariant(s, start) && s.phase.Queueing? && HasRoom(s)
    ensures SystemInvariant(SelfSendStep(s), start)
  {
    RunAppend(start, s.inputs, s.phase.input);
    var w := s.loop.watcher.value;
    PutKeeps(s, start, w, s.sessions[w].(reprepare := Sleeping), s.chan, s.autoFires, s.posts);
  }

  lemma StepKeeps(s: System, start: Loop, a: Action)
    requires SystemInvariant(s, start)
    ensures SystemInvariant(Step(s, a), start)
  {
    if Enabled(s, a) {
      match a
      case Api(_) =>
      case Receive =>
      case Finish(cfg, replies) =>
        if Accepts(s, cfg, replies) {
          ArmKeeps(s, start, cfg, replies);
        } else {
          var input := Input(s.phase.msg, cfg, replies);
          RunAppend(start, s.inputs, input);
          HandleKeepsArms(s.loop, input);
          HandledKeeps(s, start, input, Handle(s.loop, input));
        }
      case SelfSend => SelfSendKeeps(s, start);
      case _ =>
        var t := Step(s, a);
        PutKeeps(s, start, a.k, t.sessions[a.k], t.chan, t.autoFires, t.posts);
    }
  }

  /** Over every interleaving: the loop's state is that of the messages it handled, so all
      results about runs of messages hold; and the channel never overflows. */
  lemma {:induction false} ExecuteKeeps(start: Loop, actions: seq<Action>)
    requires Initial(start)
    ensures SystemInvariant(Execute(Boot(start), actions), start)
  {
    if actions != [] {
      ExecuteKeeps(start, actions[..|actions| - 1]);
      StepKeeps(Execute(Boot(start), actions[..|actions| - 1]), start, actions[|actions| - 1]);
    }
  }

  /** Automatic fires never outnumber successful arms, and each comes from a session of its own
      whose watcher tripped. */
  lemma AutoFiresBounded(start: Loop, actions: seq<Action>)
    requires Initial(start)
    ensures var s := Execute(Boot(start), actions);
            && s.autoFires <= s.loop.arms
            && s.autoFires == SentCount(s.sessions)
            && forall k :: 0 <= k < |s.sessions| && s.sessions[k].trigger.Sent? ==> s.sessions[k].watch.Tripped?
  {
    ExecuteKeeps(start, actions);
    SentCountBound(Execute(Boot(start), actions).sessions);
  }

  /** The nonce law of `ControlLedger`, over every interleaving of the loop and its senders. */
  lemma InterleavedNonces(start: Loop, actions: seq<Action>, i: nat)
    requires Initial(start) && ControlLedger.DistinctAddresses(start.wallets) && i < |start.wallets|
    ensures var s := Execute(Boot(start), actions);
            var b := ControlLedger.Broadcasts(s.loop.log, start.wallets[i].address);
            && |s.loop.wallets| == |start.wallets|
            && s.loop.wallets[i].nextNonce == start.wallets[i].nextNonce + |b|
            && (ControlLedger.NoStaleFire(s.loop.log) <==> ControlLedger.Consecutive(b, start.wallets[i].nextNonce))
            && (ControlLedger.NoStaleFire(s.loop.log) <==> Distinct(b))
  {
    ExecuteKeeps(start, actions);
    ControlLedger.BroadcastNonces(start, Execute(Boot(start), actions).inputs, i);
  }

  // ---------------------------------------------------------------- what a message does to the tasks

  /** An arm that is refused starts nothing. Any other starts one watcher and its trigger task; the
      watcher is supervised in every mode but timestamp mode; a timer runs from the start if the trigger
      instant is known, and if not the loop goes on to queue a prepare for itself. */
  lemma ArmStarts(s: System, cfg: Config, replies: Replies)
    requires s.phase == Handling(Arm) && s.loop.alive
    ensures var t := Step(s, Finish(cfg, replies));
            var drifted := replies.drift.Some?
                           && (replies.drift.value >= cfg.clockDriftRefuseArmMs
                               || -replies.drift.value >= cfg.clockDriftRefuseArmMs);
            var timed := cfg.triggerMode == "timestamp" && cfg.triggerTimestampUnix > 0;
            if s.loop.watcher.Some? || (cfg.triggerMode == "timestamp" && cfg.clockDriftRefuseArmMs > 0 && drifted) then
              t.sessions == s.sessions && t.loop == s.loop && t.phase == Receiving && t.chan == s.chan
            else
              && t.sessions == s.sessions + [Session(cfg.triggerMode != "timestamp", Watching, Waiting,
                                                     if timed then Sleeping else Absent, Absent)]
              && t.chan == s.chan && t.loop.watcher == Some(s.loop.arms) && t.loop.armed
              && t.phase == if timed then Receiving else Queueing(Input(Arm, cfg, replies))
  {
  }

  /** Once the channel has room, the prepare is queued behind whatever came in meanwhile, the session's
      re-prepare task starts, and the loop receives again. */
  lemma SelfSendStarts(s: System, w: nat)
    requires s.phase.Queueing? && |s.chan| < 8 && s.loop.watcher == Some(w) && w < |s.sessions|
    ensures var t := Step(s, SelfSend);
            && t.chan == s.chan + [Prepare] && t.phase == Receiving && t.loop == s.loop.(reprepare := Some(w))
            && t.sessions == s.sessions[w := s.sessions[w].(reprepare := Sleeping)]
  {
  }

  /** A disarm, a fire or a new target lets go of the session: its watcher, timer and re-prepare task
      run no more, and neither does supervision, but a trigger task that has its signal goes on. */
  lemma LetsGo(s: System, cfg: Config, replies: Replies, w: nat)
    requires s.phase.Handling? && s.loop.alive && s.loop.watcher == Some(w) && w < |s.sessions|
    requires s.phase.msg.Disarm? || s.phase.msg.FireNow? || s.phase.msg.SetTarget?
    ensures var t := Step(s, Finish(cfg, replies)); var was, now := s.sessions[w], t.sessions[w];
            && t.loop.watcher.None? && t.chan == s.chan && t.phase == Receiving
            && |t.sessions| == |s.sessions|
            && (forall k :: 0 <= k < |s.sessions| && k != w ==> t.sessions[k] == s.sessions[k])
            && !now.watch.Watching? && !now.watch.Failing? && (was.watch.Tripped? ==> now.watch.Tripped?)
            && now.trigger == was.trigger && now.supervised == was.supervised
            && !now.timer.Sleeping? && !now.timer.Sending? && !now.reprepare.Sleeping? && !now.reprepare.Sending?
            && (was.timer.Done? ==> now.timer.Done?)
  {
  }

  // ---------------------------------------------------------------- when the loop stops for good

  /** Mid-`Arm`, sending to its own channel, with every slot taken. */
  predicate Blocked(s: System) { s.phase.Queueing? && |s.chan| == CAPACITY }

  /** Whatever anyone does from here, the loop finishes no further message. */
  ghost predicate Stuck(s: System) {
    forall actions :: |Execute(s, actions).inputs| == |s.inputs|
  }

  lemma ExecuteOne(s: System, actions: seq<Action>, a: Action)
    ensures Execute(s, actions + [a]) == Step(Execute(s, actions), a)
  {
    assert (actions + [a])[..|actions + [a]| - 1] == actions;
  }

  lemma {:induction false} ExecuteConcat(s: System, xs: seq<Action>, ys: seq<Action>)
    ensures Execute(s, xs + ys) == Execute(Execute(s, xs), ys)
  {
    if ys == [] {
      assert xs + ys == xs;
    } else {
      var n := |ys| - 1;
      ExecuteConcat(s, xs, ys[..n]);
      ExecuteOne(s, xs + ys[..n], ys[n]);
      assert xs + ys == (xs + ys[..n]) + [ys[n]];
    }
  }

  /** Only the loop empties the channel, so the blocked self-send never completes. */
  lemma {:induction false} BlockedForever(s: System, actions: seq<Action>)
    requires Blocked(s)
    ensures var t := Execute(s, actions);
            t.phase == s.phase && t.chan == s.chan && t.loop == s.loop && t.inputs == s.inputs
  {
    if actions != [] { BlockedForever(s, actions[..|actions| - 1]); }
  }

  /** A configuration under which arming schedules a timer and queues nothing. */
  const TIMED := Config("timestamp", 1, "custom", [], Url("", false), 0)

  const SILENT := Replies(None, false, None, RpcAnswers(false, false, false, {}))

  lemma FinishCompletes(s: System)
    requires s.phase.Handling?
    ensures |Step(s, Finish(TIMED, SILENT)).inputs| == |s.inputs| + 1
  {
  }

  /** Whatever the loop is doing, unless it is blocked some continuation completes a message. */
  lemma Unblocked(s: System) returns (actions: seq<Action>)
    requires s.loop.alive && |s.chan| <= CAPACITY && !Blocked(s)
    ensures |Execute(s, actions).inputs| == |s.inputs| + 1
  {
    actions := [];
    var t := s;
    if t.phase.Queueing? {
      ExecuteOne(s, actions, SelfSend);
      actions := actions + [SelfSend];
    } else {
      if t.phase.Receiving? {
        if t.chan == [] {
          ExecuteOne(s, actions, Api(Disarm));
          actions, t := actions + [Api(Disarm)], Step(t, Api(Disarm));
        }
        ExecuteOne(s, actions, Receive);
        actions, t := actions + [Receive], Step(t, Receive);
      }
      FinishCompletes(t);
      ExecuteOne(s, actions, Finish(TIMED, SILENT));
      actions := actions + [Finish(TIMED, SILENT)];
    }
  }

  /** A loop that has ended receives nothing. */
  lemma {:induction false} DeadForever(s: System, actions: seq<Action>)
    requires !s.loop.alive && s.phase.Receiving?
    ensures var t := Execute(s, actions); t.phase == s.phase && t.loop == s.loop && t.inputs == s.inputs
  {
    if actions != [] { DeadForever(s, actions[..|actions| - 1]); }
  }

  /** In every reachable state: the loop can never finish another message if and only if it is
      sending to itself with all eight slots taken, or has ended. */
  lemma StuckExactlyWhenBlocked(start: Loop, actions: seq<Action>)
    requires Initial(start)
    ensures var s := Execute(Boot(start), actions);
            Stuck(s) <==> (s.phase.Queueing? && |s.chan| == 8) || !s.loop.alive
  {
    var s := Execute(Boot(start), actions);
    ExecuteKeeps(start, actions);
    if Blocked(s) {
      forall more ensures |Execute(s, more).inputs| == |s.inputs| { BlockedForever(s, more); }
    } else if !s.loop.alive {
      forall more ensures |Execute(s, more).inputs| == |s.inputs| { DeadForever(s, more); }
    } else {
      var more := Unblocked(s);
      assert |Execute(s, more).inputs| != |s.inputs|;
    }
  }

  /** In every reachable state the loop has ended if and only if some message it handled was a
      re-prepare in seadrop mode while endpoints were warmed and the configured list was empty. */
  lemma EndedExactly(start: Loop, actions: seq<Action>)
    requires Initial(start)
    ensures var s := Execute(Boot(start), actions);
            !s.loop.alive <==> exists k :: ControlLedger.FatalAt(start, s.inputs, k)
  {
    ExecuteKeeps(start, actions);
    ControlLedger.DiesExactly(start, Execute(Boot(start), actions).inputs);
  }

  /** In the middle of the first arm, with nothing queued behind it. */
  predicate FirstArm(s: System) {
    && s.phase.Queueing? && s.phase.input.msg.Arm? && s.chan == [] && s.loop.alive && s.loop.armed
    && s.loop.watcher == Some(0) && |s.sessions| == 1
    && s.sessions[0].supervised && s.sessions[0].watch.Watching? && s.sessions[0].trigger.Waiting?
  }

  /** Just started, with the first arm queued. */
  predicate ArmQueued(s: System, start: Loop) {
    s.phase.Receiving? && s.chan == [Arm] && s.loop == start && s.sessions == [] && s.autoFires == 0
  }

  predicate ArmTaken(s: System, start: Loop) {
    s.phase == Handling(Arm) && s.chan == [] && s.loop == start && s.sessions == [] && s.autoFires == 0
  }

  lemma QueueArm(start: Loop)
    ensures ArmQueued(Step(Boot(start), Api(Arm)), start)
  {
  }

  lemma TakeArm(s: System, start: Loop)
    requires ArmQueued(s, start) && start.alive
    ensures ArmTaken(Step(s, Receive), start)
  {
  }

  lemma ArmTakenReachable(start: Loop) returns (actions: seq<Action>)
    requires Initial(start)
    ensures ArmTaken(Execute(Boot(start), actions), start)
  {
    QueueArm(start);
    ExecuteOne(Boot(start), [], Api(Arm));
    actions := [] + [Api(Arm)];
    TakeArm(Execute(Boot(start), actions), start);
    ExecuteOne(Boot(start), actions, Receive);
    actions := actions + [Receive];
  }

  lemma BeginFirstArm(s: System, start: Loop, cfg: Config, replies: Replies)
    requires ArmTaken(s, start) && Initial(start) && cfg.triggerMode == "poll_state"
    ensures var t := Step(s, Finish(cfg, replies)); FirstArm(t) && t.loop.providers == Parseable(cfg.httpRpcUrls)
  {
  }

  lemma FirstArmReachable(start: Loop, cfg: Config, replies: Replies) returns (actions: seq<Action>)
    requires Initial(start) && cfg.triggerMode == "poll_state"
    ensures FirstArm(Execute(Boot(start), actions))
    ensures Execute(Boot(start), actions).loop.providers == Parseable(cfg.httpRpcUrls)
  {
    actions := ArmTakenReachable(start);
    BeginFirstArm(Execute(Boot(start), actions), start, cfg, replies);
    ExecuteOne(Boot(start), actions, Finish(cfg, replies));
    actions := actions + [Finish(cfg, replies)];
  }

  /** The prepare queued by the first arm is handled while the configuration lists no endpoint. */
  lemma EmptiedPrepare(s: System, cfg: Config, replies: Replies)
    requires FirstArm(s) && s.loop.providers != [] && RechecksPrice(cfg) && cfg.httpRpcUrls == []
    ensures var t := Step(Step(Step(s, SelfSend), Receive), Finish(cfg, replies));
            !t.loop.alive && t.loop.armed
  {
    var t := Step(s, SelfSend);
    assert t.chan == [Prepare] && t.phase.Receiving? && t.loop == ArmFinish(s.loop);
    assert Step(t, Receive).phase == Handling(Prepare);
  }

  /** Such an end is reachable: arm, empty the list through the API, prepare. The loop is stuck,
      and the armed flag stays up. */
  lemma EndReachable(start: Loop, cfg: Config, replies: Replies)
    requires Initial(start) && ControlLedger.Answering(cfg, replies) && cfg.mintMode == "seadrop"
    ensures exists actions ::
              var s := Execute(Boot(start), actions); !s.loop.alive && s.loop.armed && Stuck(s)
  {
    var first := FirstArmReachable(start, cfg, replies);
    var s, emptied := Execute(Boot(start), first), cfg.(httpRpcUrls := []);
    ControlLedger.OneEndpoint(cfg);
    EmptiedPrepare(s, emptied, replies);
    ExecuteOne(Boot(start), first, SelfSend);
    ExecuteOne(Boot(start), first + [SelfSend], Receive);
    var all := first + [SelfSend] + [Receive] + [Finish(emptied, replies)];
    ExecuteOne(Boot(start), first + [SelfSend] + [Receive], Finish(emptied, replies));
    StuckExactlyWhenBlocked(start, all);
    assert !Execute(Boot(start), all).loop.alive;
  }

  function Flood(n: nat): seq<Action> { if n == 0 then [] else Flood(n - 1) + [Api(Disarm)] }

  lemma {:induction false} FloodFills(s: System, n: nat)
    requires s.phase.Queueing? && |s.chan| + n <= CAPACITY
    ensures Execute(s, Flood(n)).phase == s.phase && |Execute(s, Flood(n)).chan| == |s.chan| + n
  {
    if n > 0 {
      FloodFills(s, n - 1);
      ExecuteOne(s, Flood(n - 1), Api(Disarm));
    }
  }

  /** The block is reachable: eight requests that arrive while an `Arm` is being handled. */
  lemma BlockReachable(start: Loop, cfg: Config, replies: Replies)
    requires Initial(start) && cfg.triggerMode == "poll_state"
    ensures exists actions :: Blocked(Execute(Boot(start), actions))
  {
    var first := FirstArmReachable(start, cfg, replies);
    FloodFills(Execute(Boot(start), first), CAPACITY);
    ExecuteConcat(Boot(start), first, Flood(CAPACITY));
    assert Blocked(Execute(Boot(start), first + Flood(CAPACITY)));
  }

  // ---------------------------------------------------------------- sessions that misfire

  /** The loop stays armed until it handles a `Disarm`, a `FireNow` or a `SetTarget`. */
  lemma {:induction false} ArmedUntilTold(l: Loop, inputs: seq<Input>)
    requires l.armed && l.watcher.Some?
    requires forall i :: 0 <= i < |inputs| ==>
                           !inputs[i].msg.Disarm? && !inputs[i].msg.FireNow? && !inputs[i].msg.SetTarget?
    ensures Run(l, inputs).armed && Run(l, inputs).watcher == l.watcher
  {
    if inputs != [] { ArmedUntilTold(l, inputs[..|inputs| - 1]); }
  }

  /** Nothing queued or in hand, nothing held, fired or logged, and one session. */
  predicate OneSession(s: System, watch: Watch, trigger: Trigger) {
    && s.phase.Receiving? && s.chan == [] && s.autoFires == 0
    && s.loop.alive && s.loop.log == [] && s.loop.prepared.None?
    && |s.sessions| == 1 && s.sessions[0].watch == watch && s.sessions[0].trigger == trigger
  }

  lemma ArmTimed(s: System, start: Loop)
    requires ArmTaken(s, start) && Initial(start)
    ensures OneSession(Step(s, Finish(TIMED, SILENT)), Watching, Waiting)
  {
  }

  lemma TripFirst(s: System)
    requires OneSession(s, Watching, Waiting)
    ensures OneSession(Step(s, Trip(0)), Tripped, Waiting)
  {
  }

  lemma WakeFirst(s: System)
    requires OneSession(s, Tripped, Waiting)
    ensures OneSession(Step(s, TriggerWake(0)), Tripped, Firing)
  {
  }

  /** Armed for a known instant, tripped, and the trigger task about to send. */
  lemma TripReachable(start: Loop) returns (actions: seq<Action>)
    requires Initial(start)
    ensures OneSession(Execute(Boot(start), actions), Tripped, Firing)
  {
    actions := ArmTakenReachable(start);
    ArmTimed(Execute(Boot(start), actions), start);
    ExecuteOne(Boot(start), actions, Finish(TIMED, SILENT));
    actions := actions + [Finish(TIMED, SILENT)];
    TripFirst(Execute(Boot(start), actions));
    ExecuteOne(Boot(start), actions, Trip(0));
    actions := actions + [Trip(0)];
    WakeFirst(Execute(Boot(start), actions));
    ExecuteOne(Boot(start), actions, TriggerWake(0));
    actions := actions + [TriggerWake(0)];
  }

  /** The automatic fire is queued behind a disarm. */
  predicate FireBehind(s: System, loop: Loop, inputs: seq<Input>) {
    s.phase.Receiving? && s.chan == [Disarm, FireNow] && s.autoFires == 1 && s.loop == loop && s.inputs == inputs
  }

  lemma QueueBoth(s: System)
    requires OneSession(s, Tripped, Firing)
    ensures FireBehind(Step(Step(s, Api(Disarm)), TriggerSend(0)), s.loop, s.inputs)
  {
    var t := Step(s, Api(Disarm));
    assert t.chan == [Disarm] && t.sessions == s.sessions && t.loop == s.loop;
  }

  /** The disarm is through, and the fire alone is left. */
  predicate FireLeft(s: System, loop: Loop, inputs: seq<Input>) {
    s.phase.Receiving? && s.chan == [FireNow] && s.autoFires == 1 && s.loop == Teardown(loop) && s.inputs == inputs
  }

  lemma HandleDisarm(s: System, loop: Loop, inputs: seq<Input>, cfg: Config, replies: Replies)
    requires FireBehind(s, loop, inputs) && loop.alive
    ensures FireLeft(Step(Step(s, Receive), Finish(cfg, replies)), loop, inputs + [Input(Disarm, cfg, replies)])
  {
    var t := Step(s, Receive);
    assert t.phase == Handling(Disarm) && t.chan == [FireNow] && t.loop == loop;
  }

  lemma HandleFire(s: System, loop: Loop, inputs: seq<Input>, cfg: Config, replies: Replies)
    requires FireLeft(s, loop, inputs) && loop.alive
    ensures var t := Step(Step(s, Receive), Finish(cfg, replies));
            && t.autoFires == 1 && t.inputs == inputs + [Input(FireNow, cfg, replies)]
            && t.loop == Handle(Teardown(loop), Input(FireNow, cfg, replies))
  {
    var t := Step(s, Receive);
    assert t.phase == Handling(FireNow) && t.chan == [] && t.loop == Teardown(loop);
  }

  /** Handled while torn down, a fire signs afresh and broadcasts once. */
  lemma FiresOnce(loop: Loop, cfg: Config, replies: Replies)
    requires loop.alive && loop.log == [] && ControlLedger.Healthy(cfg, replies)
    ensures ControlLedger.Fires(Handle(Teardown(loop), Input(FireNow, cfg, replies)).log) == 1
  {
    var l := Teardown(loop);
    ControlLedger.OneEndpoint(cfg);
    ControlLedger.AppendReads([], Fired(Signed(l.wallets, l.target, l.calldata, l.mintValue),
                                        cfg.httpRpcUrls, WarmSequencer(cfg), JustInTime));
  }

  lemma ExecuteTwo(s: System, actions: seq<Action>, a: Action, b: Action)
    ensures Execute(s, actions + [a] + [b]) == Step(Step(Execute(s, actions), a), b)
  {
    ExecuteOne(s, actions, a);
    ExecuteOne(s, actions + [a], b);
  }

  /** From there: a `Disarm` gets into the channel first, and both are handled in turn. */
  lemma DisarmThenFire(s: System, cfg: Config, replies: Replies) returns (actions: seq<Action>)
    requires OneSession(s, Tripped, Firing) && ControlLedger.Healthy(cfg, replies)
    ensures var t := Execute(s, actions);
            && t.autoFires == 1 && t.inputs == s.inputs + [Input(Disarm, cfg, replies)] + [Input(FireNow, cfg, replies)]
            && ControlLedger.Fires(t.loop.log) == 1
  {
    var inputs := s.inputs + [Input(Disarm, cfg, replies)];
    QueueBoth(s);
    ExecuteTwo(s, [], Api(Disarm), TriggerSend(0));
    actions := [] + [Api(Disarm)] + [TriggerSend(0)];
    HandleDisarm(Execute(s, actions), s.loop, s.inputs, cfg, replies);
    ExecuteTwo(s, actions, Receive, Finish(cfg, replies));
    actions := actions + [Receive] + [Finish(cfg, replies)];
    HandleFire(Execute(s, actions), s.loop, inputs, cfg, replies);
    FiresOnce(s.loop, cfg, replies);
    ExecuteTwo(s, actions, Receive, Finish(cfg, replies));
    actions := actions + [Receive] + [Finish(cfg, replies)];
  }

  /** An automatic `FireNow` queued behind a `Disarm` still broadcasts: some run disarms, then
      handles the fire of the session it disarmed, and sends a batch. */
  lemma FireBehindDisarm(start: Loop, cfg: Config, replies: Replies)
    requires Initial(start) && ControlLedger.Healthy(cfg, replies)
    ensures exists actions, handled ::
              var t := Execute(Boot(start), actions);
              && t.inputs == handled + [Input(Disarm, cfg, replies)] + [Input(FireNow, cfg, replies)]
              && t.autoFires == 1 && !Run(start, handled + [Input(Disarm, cfg, replies)]).armed
              && ControlLedger.Fires(t.loop.log) == 1
  {
    var first := TripReachable(start);
    ExecuteKeeps(start, first);
    var s := Execute(Boot(start), first);
    var second := DisarmThenFire(s, cfg, replies);
    ExecuteConcat(Boot(start), first, second);
    RunAppend(start, s.inputs, Input(Disarm, cfg, replies));
    assert Execute(Boot(start), first + second).inputs
        == s.inputs + [Input(Disarm, cfg, replies)] + [Input(FireNow, cfg, replies)];
  }
}
