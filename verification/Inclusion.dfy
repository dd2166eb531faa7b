/** `inclusion.rs`: waiting for a transaction's receipt, by push, by poll, or by push that
    degrades to poll when the block ticker dies. Time is a count of milliseconds; a read begun
    at `t` ends `latency(t)` later and brings the receipt exactly if `found(t)`. */
module Inclusion {
  import opened Basics

  datatype Endpoint = Endpoint(found: nat -> bool, latency: nat -> nat)

  /** `version(t)` block ticks were published up to time `t`; the ticker task may be dead
      from some time on, after which nothing is published. */
  datatype Ticker = Ticker(version: nat -> nat, death: Option<nat>)

  datatype Outcome = Included(at: nat) | TimedOut

  predicate Dead(k: Ticker, t: nat) { k.death.Some? && k.death.value <= t }

  ghost predicate ValidTicker(k: Ticker) {
    && (forall s, t :: s <= t ==> k.version(s) <= k.version(t))
    && (forall s, t :: s <= t && Dead(k, s) ==> k.version(t) == k.version(s))
  }

  function End(rpc: Endpoint, t: nat): nat { t + rpc.latency(t) }

  /** The reads that were made: in order, none past the deadline, each one that found the
      receipt being the last and the result, or still in flight at the deadline. */
  ghost predicate Reads(rpc: Endpoint, start: nat, deadline: nat, outcome: Outcome, asks: seq<nat>) {
    && asks != [] && asks[0] == start
    && (forall j :: 0 <= j < |asks| ==> start <= asks[j] <= deadline)
    && (forall j :: 0 <= j < |asks| - 1 ==> End(rpc, asks[j]) <= asks[j + 1])
    && (forall j :: 0 <= j < |asks| && rpc.found(asks[j]) ==>
                      j == |asks| - 1 && (outcome.Included? || End(rpc, asks[j]) > deadline))
    && (outcome.Included? ==> rpc.found(asks[|asks| - 1]) && outcome.at == End(rpc, asks[|asks| - 1]) <= deadline)
  }

  /** Unless time is up, a poll read that found nothing is followed by another after the
      interval, and never by one at any other time. */
  ghost predicate PollNext(rpc: Endpoint, interval: nat, deadline: nat, asks: seq<nat>, j: nat)
    requires j < |asks|
  {
    && (End(rpc, asks[j]) + interval <= deadline ==> j + 1 < |asks|)
    && (j + 1 < |asks| ==> asks[j + 1] == End(rpc, asks[j]) + interval)
  }

  /** Unless time is up, a tick published after a read began forces another read as soon as
      both have happened. */
  ghost predicate TickNext(rpc: Endpoint, k: Ticker, deadline: nat, asks: seq<nat>, j: nat)
    requires j < |asks|
  {
    forall t :: asks[j] < t && k.version(t) > k.version(asks[j]) && Max(t, End(rpc, asks[j])) <= deadline ==>
                  j + 1 < |asks| && asks[j + 1] <= Max(t, End(rpc, asks[j]))
  }

  /** Unless time is up, once the ticker is dead a read follows within the interval. */
  ghost predicate DeadNext(rpc: Endpoint, k: Ticker, interval: nat, deadline: nat, asks: seq<nat>, j: nat)
    requires j < |asks|
  {
    k.death.Some? && Max(k.death.value, End(rpc, asks[j])) + interval <= deadline ==>
      j + 1 < |asks| && asks[j + 1] <= Max(k.death.value, End(rpc, asks[j])) + interval
  }

  /** After the first re-read, push reads only at new ticks, or an interval after the death. */
  ghost predicate OnlyWhenDue(k: Ticker, interval: nat, asks: seq<nat>, j: nat)
    requires j < |asks|
  {
    0 < j < |asks| - 1 ==> || k.version(asks[j + 1]) > k.version(asks[j])
                           || (k.death.Some? && k.death.value + interval <= asks[j + 1])
  }

  ghost predicate PushNext(rpc: Endpoint, k: Ticker, interval: nat, deadline: nat, asks: seq<nat>, j: nat)
    requires j < |asks|
  {
    && TickNext(rpc, k, deadline, asks, j)
    && DeadNext(rpc, k, interval, deadline, asks, j)
    && OnlyWhenDue(k, interval, asks, j)
  }

  /** The whole trace of a wait. */
  ghost predicate Waited(rpc: Endpoint, ticker: Option<Ticker>, start: nat, interval: nat, deadline: nat,
                         outcome: Outcome, asks: seq<nat>)
  {
    && Reads(rpc, start, deadline, outcome, asks)
    && forall j :: 0 <= j < |asks| && !rpc.found(asks[j]) ==>
                     if ticker.Some? then PushNext(rpc, ticker.value, interval, deadline, asks, j)
                     else PollNext(rpc, interval, deadline, asks, j)
  }

  /** Some sequence of reads leads to this outcome. */
  ghost predicate CanEnd(rpc: Endpoint, ticker: Option<Ticker>, start: nat, interval: nat, deadline: nat,
          outcome: Outcome) {
    exists asks :: Waited(rpc, ticker, start, interval, deadline, outcome, asks)
  }

  /** Reads so far, none of which found the receipt. */
  ghost predicate Missed(rpc: Endpoint, start: nat, deadline: nat, asks: seq<nat>) {
    && asks != [] && asks[0] == start
    && (forall j :: 0 <= j < |asks| ==> start <= asks[j] <= deadline && !rpc.found(asks[j]))
    && (forall j :: 0 <= j < |asks| - 1 ==> End(rpc, asks[j]) <= asks[j + 1])
  }

  lemma MissedExtends(rpc: Endpoint, start: nat, deadline: nat, asks: seq<nat>, next: nat)
    requires Missed(rpc, start, deadline, asks) && End(rpc, asks[|asks| - 1]) <= next <= deadline && !rpc.found(next)
    ensures Missed(rpc, start, deadline, asks + [next])
  {
  }

  /** Waits for the receipt. `seen` is the last tick the receiver has observed. */
  method WaitForReceipt(rpc: Endpoint, ticker: Option<Ticker>, seen: nat, start: nat, interval: nat, timeout: nat)
    returns (outcome: Outcome, asks: seq<nat>)
    requires interval > 0
    requires ticker.Some? ==> ValidTicker(ticker.value) && seen <= ticker.value.version(start)
    ensures Waited(rpc, ticker, start, interval, start + timeout, outcome, asks)
    ensures ticker.Some? ==> SecondRead(rpc, ticker.value, seen, start, interval, start + timeout, asks)
  {
    match ticker
    case Some(k) => outcome, asks := WaitPush(rpc, k, seen, start, interval, start + timeout);
    case None => outcome, asks := WaitPoll(rpc, start, interval, timeout);
  }

  /** Each read follows the one before at exactly the interval. */
  ghost predicate Regular(rpc: Endpoint, interval: nat, asks: seq<nat>) {
    forall j :: 0 <= j < |asks| - 1 ==> asks[j + 1] == End(rpc, asks[j]) + interval
  }

  lemma PollFinds(rpc: Endpoint, start: nat, interval: nat, deadline: nat, asks: seq<nat>, next: nat)
    requires if asks == [] then next == start else Missed(rpc, start, deadline, asks)
    requires start <= next <= deadline && rpc.found(next) && Regular(rpc, interval, asks + [next])
    ensures Waited(rpc, None, start, interval, deadline,
                   if End(rpc, next) <= deadline then Included(End(rpc, next)) else TimedOut, asks + [next])
  {
    var all := asks + [next];
    forall j | 0 <= j < |asks| ensures all[j + 1] == End(rpc, all[j]) + interval && !rpc.found(all[j]) {
      assert all[j] == asks[j];
    }
  }

  lemma PollExpires(rpc: Endpoint, start: nat, interval: nat, deadline: nat, asks: seq<nat>)
    requires Missed(rpc, start, deadline, asks) && Regular(rpc, interval, asks)
    requires End(rpc, asks[|asks| - 1]) + interval > deadline
    ensures Waited(rpc, None, start, interval, deadline, TimedOut, asks)
  {
  }

  /** A poll read at `t` is due; all reads before it missed. */
  ghost predicate PollDue(rpc: Endpoint, start: nat, interval: nat, deadline: nat, asks: seq<nat>, t: nat) {
    && start <= t <= deadline
    && (if asks == [] then t == start
        else Missed(rpc, start, deadline, asks) && t == End(rpc, asks[|asks| - 1]) + interval)
    && Regular(rpc, interval, asks + [t])
  }

  lemma PollMisses(rpc: Endpoint, start: nat, interval: nat, deadline: nat, asks: seq<nat>, t: nat)
    requires PollDue(rpc, start, interval, deadline, asks, t) && !rpc.found(t)
    ensures Missed(rpc, start, deadline, asks + [t]) && Regular(rpc, interval, asks + [t])
    ensures (asks + [t])[|asks|] == t
  {
    if asks != [] { MissedExtends(rpc, start, deadline, asks, t); }
  }

  lemma PollAgain(rpc: Endpoint, start: nat, interval: nat, deadline: nat, asks: seq<nat>, last: nat, t: nat)
    requires Missed(rpc, start, deadline, asks) && Regular(rpc, interval, asks) && last == asks[|asks| - 1]
    requires t == End(rpc, last) + interval <= deadline
    ensures PollDue(rpc, start, interval, deadline, asks, t)
  {
    var longer := asks + [t];
    forall j | 0 <= j < |longer| - 1 ensures longer[j + 1] == End(rpc, longer[j]) + interval {
      if j < |asks| - 1 { assert asks[j + 1] == End(rpc, asks[j]) + interval; }
    }
  }

  /** One poll read: the end of the wait, or the time of the next read. */
  method PollOnce(rpc: Endpoint, start: nat, interval: nat, deadline: nat, before: seq<nat>, t: nat)
    returns (next: Option<nat>, outcome: Outcome)
    requires interval > 0 && PollDue(rpc, start, interval, deadline, before, t)
    ensures next.Some? ==> next.value > t && PollDue(rpc, start, interval, deadline, before + [t], next.value)
    ensures next.None? ==> Waited(rpc, None, start, interval, deadline, outcome, before + [t])
  {
    var end := End(rpc, t);
    if rpc.found(t) {
      PollFinds(rpc, start, interval, deadline, before, t);
      return None, if end <= deadline then Included(end) else TimedOut;
    }
    PollMisses(rpc, start, interval, deadline, before, t);
    if end + interval > deadline {
      PollExpires(rpc, start, interval, deadline, before + [t]);
      return None, TimedOut;
    }
    PollAgain(rpc, start, interval, deadline, before + [t], t, end + interval);
    return Some(end + interval), TimedOut;
  }

  method WaitPoll(rpc: Endpoint, start: nat, interval: nat, timeout: nat) returns (outcome: Outcome, asks: seq<nat>)
    requires interval > 0
    ensures Waited(rpc, None, start, interval, start + timeout, outcome, asks)
  {
    var deadline := start + timeout;
    var t: nat := start;
    asks := [];
    while true
      invariant PollDue(rpc, start, interval, deadline, asks, t)
      decreases deadline - t
    {
      var next, end := PollOnce(rpc, start, interval, deadline, asks, t);
      asks := asks + [t];
      if next.None? {
        return end, asks;
      }
      t := next.value;
    }
  }

  /** Blocks until a tick beyond `seen` is published, the ticker is dead, or time is up. */
  method Changed(k: Ticker, seen: nat, from: nat, deadline: nat) returns (t: nat)
    requires ValidTicker(k) && from <= deadline
    ensures from <= t <= deadline
    ensures k.version(t) > seen || Dead(k, t) || t == deadline
    ensures forall u: nat :: from <= u && k.version(u) > seen ==> t <= u
    ensures k.death.Some? ==> t <= Max(k.death.value, from)
  {
    t := from;
    while k.version(t) <= seen && !Dead(k, t) && t < deadline
      invariant from <= t <= deadline
      invariant forall u: nat :: from <= u && k.version(u) > seen ==> t <= u
      invariant k.death.Some? ==> t <= Max(k.death.value, from)
    {
      t := t + 1;
    }
  }

  /** Every read but the last is settled. */
  ghost predicate Settled(rpc: Endpoint, k: Ticker, interval: nat, deadline: nat, asks: seq<nat>) {
    forall j :: 0 <= j < |asks| - 1 ==> PushNext(rpc, k, interval, deadline, asks, j)
  }

  /** What is settled about earlier reads stays settled when more are made. */
  lemma SettledExtends(rpc: Endpoint, k: Ticker, interval: nat, deadline: nat, asks: seq<nat>, next: nat)
    requires asks != [] && Settled(rpc, k, interval, deadline, asks)
    requires PushNext(rpc, k, interval, deadline, asks + [next], |asks| - 1)
    ensures Settled(rpc, k, interval, deadline, asks + [next])
  {
    var longer := asks + [next];
    forall j | 0 <= j < |longer| - 1 ensures PushNext(rpc, k, interval, deadline, longer, j) {
      if j < |asks| - 1 {
        assert PushNext(rpc, k, interval, deadline, asks, j);
      }
    }
  }

  /** The wait is over: the last read found the receipt, in time or not. */
  lemma WaitFinds(rpc: Endpoint, k: Ticker, start: nat, interval: nat, deadline: nat, asks: seq<nat>, next: nat)
    requires if asks == [] then next == start
             else Missed(rpc, start, deadline, asks) && End(rpc, asks[|asks| - 1]) <= next
    requires start <= next <= deadline && rpc.found(next)
    requires Settled(rpc, k, interval, deadline, asks + [next])
    ensures Waited(rpc, Some(k), start, interval, deadline,
                   if End(rpc, next) <= deadline then Included(End(rpc, next)) else TimedOut, asks + [next])
  {
  }

  /** The wait is over: time ran out with nothing due. */
  lemma WaitExpires(rpc: Endpoint, k: Ticker, start: nat, interval: nat, deadline: nat, asks: seq<nat>)
    requires Missed(rpc, start, deadline, asks) && Settled(rpc, k, interval, deadline, asks)
    requires PushNext(rpc, k, interval, deadline, asks, |asks| - 1)
    ensures Waited(rpc, Some(k), start, interval, deadline, TimedOut, asks)
  {
  }

  /** A tick beyond what was seen: reading at once settles the read before. */
  lemma TickSettles(rpc: Endpoint, k: Ticker, seen: nat, interval: nat, deadline: nat, asks: seq<nat>, next: nat)
    requires ValidTicker(k) && asks != [] && seen <= k.version(asks[|asks| - 1])
    requires End(rpc, asks[|asks| - 1]) <= next && k.version(next) > seen
    requires forall u: nat :: End(rpc, asks[|asks| - 1]) <= u && k.version(u) > seen ==> next <= u
    requires k.death.Some? ==> next <= Max(k.death.value, End(rpc, asks[|asks| - 1]))
    requires |asks| > 1 ==> seen == k.version(asks[|asks| - 1])
    ensures PushNext(rpc, k, interval, deadline, asks + [next], |asks| - 1)
  {
    var end := End(rpc, asks[|asks| - 1]);
    forall u: nat | k.version(u) > k.version(asks[|asks| - 1]) ensures next <= Max(u, end) {
      assert k.version(Max(u, end)) > seen;
    }
  }

  /** Nothing is published after death, so reading after the interval settles the read before;
      and past the deadline nothing is due. */
  lemma DeathSettles(rpc: Endpoint, k: Ticker, interval: nat, deadline: nat, asks: seq<nat>, t: nat)
    requires ValidTicker(k) && asks != [] && Dead(k, t)
    requires var last := asks[|asks| - 1]; t <= Max(k.death.value, End(rpc, last)) && k.version(t) == k.version(last)
    ensures t + interval > deadline ==> PushNext(rpc, k, interval, deadline, asks, |asks| - 1)
    ensures PushNext(rpc, k, interval, deadline, asks + [t + interval], |asks| - 1)
  {
    forall u: nat ensures k.version(u) <= k.version(asks[|asks| - 1]) {
      assert u <= t || k.version(u) == k.version(t);
    }
  }

  /** No tick beyond what was seen, and no death, up to the deadline: nothing is due. */
  lemma QuietSettles(rpc: Endpoint, k: Ticker, seen: nat, interval: nat, deadline: nat, asks: seq<nat>)
    requires ValidTicker(k) && asks != [] && interval > 0 && seen <= k.version(asks[|asks| - 1])
    requires k.version(deadline) <= seen && !Dead(k, deadline)
    ensures PushNext(rpc, k, interval, deadline, asks, |asks| - 1)
  {
    forall u: nat | u <= deadline ensures k.version(u) <= k.version(asks[|asks| - 1]) {
      assert k.version(u) <= k.version(deadline);
    }
  }

  /** After the ticker's death: sleep, read, repeat. */
  method WaitDegraded(rpc: Endpoint, k: Ticker, start: nat, interval: nat, deadline: nat, from: nat, before: seq<nat>)
    returns (outcome: Outcome, asks: seq<nat>)
    requires interval > 0 && ValidTicker(k) && Missed(rpc, start, deadline, before)
    requires var last := before[|before| - 1];
             Dead(k, from) && End(rpc, last) <= from <= Max(k.death.value, End(rpc, last))
                 && k.version(from) == k.version(last)
    requires Settled(rpc, k, interval, deadline, before)
    ensures Waited(rpc, Some(k), start, interval, deadline, outcome, asks)
    ensures before <= asks && (|asks| > |before| ==> k.death.value + interval <= asks[|before|])
  {
    var t: nat := from;
    asks := before;
    while true
      invariant Missed(rpc, start, deadline, asks)
      invariant var last := asks[|asks| - 1];
                && Dead(k, t) && End(rpc, last) <= t <= Max(k.death.value, End(rpc, last))
                && k.version(t) == k.version(last)
      invariant Settled(rpc, k, interval, deadline, asks)
      invariant before <= asks && if asks == before then t == from else k.death.value + interval <= asks[|before|]
      decreases deadline + interval - t
    {
      DeathSettles(rpc, k, interval, deadline, asks, t);
      t := t + interval;
      if t > deadline {
        WaitExpires(rpc, k, start, interval, deadline, asks);
        return TimedOut, asks;
      }
      SettledExtends(rpc, k, interval, deadline, asks, t);
      var end := End(rpc, t);
      if rpc.found(t) {
        WaitFinds(rpc, k, start, interval, deadline, asks, t);
        return if end <= deadline then Included(end) else TimedOut, asks + [t];
      }
      MissedExtends(rpc, start, deadline, asks, t);
      asks := asks + [t];
      if end > deadline {
        WaitExpires(rpc, k, start, interval, deadline, asks);
        return TimedOut, asks;
      }
      t := end;
    }
  }

  /** The read at `t` is about to be made; all reads before it missed. */
  ghost predicate AboutToRead(rpc: Endpoint, k: Ticker, start: nat, interval: nat, deadline: nat, asks: seq<nat>,
          t: nat) {
    && start <= t <= deadline
    && (if asks == [] then t == start else Missed(rpc, start, deadline, asks) && End(rpc, asks[|asks| - 1]) <= t)
    && Settled(rpc, k, interval, deadline, asks + [t])
  }

  /** Between two push reads: the next one, at a new tick, or the end of the wait. */
  method AwaitTick(rpc: Endpoint, k: Ticker, seen: nat, start: nat, interval: nat, deadline: nat, before: seq<nat>)
    returns (next: Option<nat>, outcome: Outcome, asks: seq<nat>)
    requires interval > 0 && ValidTicker(k) && Missed(rpc, start, deadline, before)
    requires Settled(rpc, k, interval, deadline, before)
    requires seen <= k.version(before[|before| - 1])
    requires |before| > 1 ==> seen == k.version(before[|before| - 1])
    ensures next.Some? ==> && End(rpc, before[|before| - 1]) <= next.value && k.version(next.value) > seen
                           && AboutToRead(rpc, k, start, interval, deadline, before, next.value)
    ensures next.Some? && k.version(End(rpc, before[|before| - 1])) > seen ==>
              next.value == End(rpc, before[|before| - 1])
    ensures next.None? ==> Waited(rpc, Some(k), start, interval, deadline, outcome, asks)
    ensures next.None? ==>
              && before <= asks && (|asks| > |before| ==> k.death.Some? && k.death.value + interval <= asks[|before|])
              && (k.version(End(rpc, before[|before| - 1])) > seen ==>
                    End(rpc, before[|before| - 1]) > deadline && asks == before)
  {
    var end := End(rpc, before[|before| - 1]);
    if end > deadline {
      WaitExpires(rpc, k, start, interval, deadline, before);
      return None, TimedOut, before;
    }
    var t := Changed(k, seen, end, deadline);
    if k.version(t) > seen {
      TickSettles(rpc, k, seen, interval, deadline, before, t);
      SettledExtends(rpc, k, interval, deadline, before, t);
      return Some(t), TimedOut, before;
    }
    next := None;
    if Dead(k, t) {
      outcome, asks := WaitDegraded(rpc, k, start, interval, deadline, t, before);
    } else {
      QuietSettles(rpc, k, seen, interval, deadline, before);
      WaitExpires(rpc, k, start, interval, deadline, before);
      outcome, asks := TimedOut, before;
    }
  }

  lemma ReadMisses(rpc: Endpoint, k: Ticker, start: nat, interval: nat, deadline: nat, asks: seq<nat>, t: nat)
    requires AboutToRead(rpc, k, start, interval, deadline, asks, t) && !rpc.found(t)
    ensures Missed(rpc, start, deadline, asks + [t]) && Settled(rpc, k, interval, deadline, asks + [t])
    ensures (asks + [t])[|asks|] == t
  {
    if asks != [] { MissedExtends(rpc, start, deadline, asks, t); }
  }

  /** The second read: at once if a tick had gone unseen when the wait began, and otherwise not before
      a new tick or an interval after the ticker's death. */
  ghost predicate SecondRead(rpc: Endpoint, k: Ticker, seen: nat, start: nat, interval: nat, deadline: nat,
                             asks: seq<nat>)
  {
    && (seen < k.version(start) && !rpc.found(start) && End(rpc, start) <= deadline ==>
          |asks| > 1 && asks[1] == End(rpc, start))
    && (|asks| > 1 ==> k.version(asks[1]) > seen || (k.death.Some? && k.death.value + interval <= asks[1]))
  }

  lemma SecondReadStays(rpc: Endpoint, k: Ticker, seen: nat, start: nat, interval: nat, deadline: nat,
                        asks: seq<nat>, all: seq<nat>)
    requires SecondRead(rpc, k, seen, start, interval, deadline, asks) && |asks| > 1 && asks <= all
    ensures SecondRead(rpc, k, seen, start, interval, deadline, all)
  {
    assert all[1] == asks[1];
  }

  lemma SecondReadMade(rpc: Endpoint, k: Ticker, seen: nat, start: nat, interval: nat, deadline: nat, all: seq<nat>)
    requires all != []
    requires |all| > 1 ==> k.version(all[1]) > seen || (k.death.Some? && k.death.value + interval <= all[1])
    requires !rpc.found(start) && k.version(End(rpc, start)) > seen ==>
               if |all| > 1 then all[1] == End(rpc, start) else End(rpc, start) > deadline
    requires forall s, t :: s <= t ==> k.version(s) <= k.version(t)
    ensures SecondRead(rpc, k, seen, start, interval, deadline, all)
  {
    assert k.version(start) <= k.version(End(rpc, start));
  }

  /** One push read: the end of the wait, or the time of the next read. */
  method PushOnce(rpc: Endpoint, k: Ticker, seen: nat, start: nat, interval: nat, deadline: nat, before: seq<nat>, t: nat)
    returns (next: Option<nat>, outcome: Outcome, asks: seq<nat>)
    requires interval > 0 && ValidTicker(k) && seen <= k.version(t) && (before != [] ==> seen == k.version(t))
    requires AboutToRead(rpc, k, start, interval, deadline, before, t)
    ensures next.Some? ==> && t <= next.value <= deadline && asks == before + [t] && (before != [] ==> t < next.value)
                           && AboutToRead(rpc, k, start, interval, deadline, asks, next.value)
    ensures next.Some? ==> k.version(next.value) > seen && (k.version(End(rpc, t)) > seen ==> next.value == End(rpc, t))
    ensures next.None? ==> Waited(rpc, Some(k), start, interval, deadline, outcome, asks)
    ensures before + [t] <= asks
    ensures next.None? ==> (|asks| > |before| + 1 ==> k.death.Some? && k.death.value + interval <= asks[|before| + 1])
                           && (!rpc.found(t) && k.version(End(rpc, t)) > seen ==>
                                 End(rpc, t) > deadline && |asks| == |before| + 1)
  {
    if rpc.found(t) {
      WaitFinds(rpc, k, start, interval, deadline, before, t);
      return None, if End(rpc, t) <= deadline then Included(End(rpc, t)) else TimedOut, before + [t];
    }
    ReadMisses(rpc, k, start, interval, deadline, before, t);
    next, outcome, asks := AwaitTick(rpc, k, seen, start, interval, deadline, before + [t]);
    if next.Some? {
      asks := before + [t];
      assert before != [] ==> k.version(next.value) > k.version(t);
    }
  }

  lemma SecondReadKept(rpc: Endpoint, k: Ticker, seen0: nat, seen: nat, start: nat, interval: nat, deadline: nat,
                       before: seq<nat>, t: nat, next: Option<nat>, all: seq<nat>)
    requires ValidTicker(k) && before + [t] <= all && (next.Some? ==> all == before + [t])
    requires if before == [] then seen == seen0 && t == start
             else SecondRead(rpc, k, seen0, start, interval, deadline, before + [t])
    requires next.Some? ==> k.version(next.value) > seen && (k.version(End(rpc, t)) > seen ==> next.value == End(rpc, t))
    requires next.None? ==> (|all| > |before| + 1 ==> k.death.Some? && k.death.value + interval <= all[|before| + 1])
    requires next.None? && !rpc.found(t) && k.version(End(rpc, t)) > seen ==>
               End(rpc, t) > deadline && |all| == |before| + 1
    ensures SecondRead(rpc, k, seen0, start, interval, deadline, if next.Some? then all + [next.value] else all)
  {
    var whole := if next.Some? then all + [next.value] else all;
    if before == [] {
      assert whole[0] == start;
      SecondReadMade(rpc, k, seen0, start, interval, deadline, whole);
    } else {
      SecondReadStays(rpc, k, seen0, start, interval, deadline, before + [t], whole);
    }
  }

  /** The state between two push reads: the one at `t` is due, and all before it are accounted for. */
  ghost predicate PushDue(rpc: Endpoint, k: Ticker, seen0: nat, seen: nat, start: nat, interval: nat, deadline: nat,
                          asks: seq<nat>, t: nat) {
    && seen <= k.version(t) && (asks != [] ==> seen == k.version(t))
    && AboutToRead(rpc, k, start, interval, deadline, asks, t)
    && if asks == [] then seen == seen0 && t == start
       else SecondRead(rpc, k, seen0, start, interval, deadline, asks + [t])
  }

  method PushTurn(rpc: Endpoint, k: Ticker, ghost seen0: nat, seen: nat, start: nat, interval: nat, deadline: nat,
                  before: seq<nat>, t: nat)
    returns (next: Option<nat>, outcome: Outcome, asks: seq<nat>)
    requires interval > 0 && ValidTicker(k) && PushDue(rpc, k, seen0, seen, start, interval, deadline, before, t)
    ensures next.Some? ==> && t <= next.value <= deadline && (before != [] ==> t < next.value) && asks != []
                           && PushDue(rpc, k, seen0, k.version(next.value), start, interval, deadline, asks, next.value)
    ensures next.None? ==> && Waited(rpc, Some(k), start, interval, deadline, outcome, asks)
                           && SecondRead(rpc, k, seen0, start, interval, deadline, asks)
  {
    next, outcome, asks := PushOnce(rpc, k, seen, start, interval, deadline, before, t);
    SecondReadKept(rpc, k, seen0, seen, start, interval, deadline, before, t, next, asks);
  }

  method WaitPush(rpc: Endpoint, k: Ticker, seen0: nat, start: nat, interval: nat, deadline: nat)
    returns (outcome: Outcome, asks: seq<nat>)
    requires interval > 0 && ValidTicker(k) && seen0 <= k.version(start) && start <= deadline
    ensures Waited(rpc, Some(k), start, interval, deadline, outcome, asks)
    ensures SecondRead(rpc, k, seen0, start, interval, deadline, asks)
  {
    var t: nat, seen: nat := start, seen0;
    var next: Option<nat>;
    asks := [];
    while true
      invariant t <= deadline && PushDue(rpc, k, seen0, seen, start, interval, deadline, asks, t)
      decreases deadline - t, if asks == [] then 1 else 0
    {
      next, outcome, asks := PushTurn(rpc, k, seen0, seen, start, interval, deadline, asks, t);
      if next.None? {
        return;
      }
      t, seen := next.value, k.version(next.value);
    }
  }

  // ---------------------------------------------------------------- what an outcome says

  /** An inclusion is reported at the moment the last read brought the receipt, which is in time; a
      timeout means that no read brought it in time. Reads never overlap. */
  lemma OutcomeMeaning(rpc: Endpoint, ticker: Option<Ticker>, start: nat, interval: nat, deadline: nat,
                       outcome: Outcome, asks: seq<nat>)
    requires Waited(rpc, ticker, start, interval, deadline, outcome, asks)
    ensures asks != [] && asks[0] == start
    ensures outcome.Included? ==> var t := asks[|asks| - 1];
                                  rpc.found(t) && outcome.at == t + rpc.latency(t) <= deadline
    ensures outcome.TimedOut? ==> forall j :: 0 <= j < |asks| && rpc.found(asks[j]) ==>
                                                asks[j] + rpc.latency(asks[j]) > deadline
    ensures forall j :: 0 <= j < |asks| - 1 ==> !rpc.found(asks[j]) && asks[j] + rpc.latency(asks[j]) <= asks[j + 1]
  {
  }

  /** So an outcome that is an inclusion is the end of a read that brought the receipt. */
  lemma IncludedIsRead(rpc: Endpoint, ticker: Option<Ticker>, start: nat, interval: nat, deadline: nat, at: nat)
    returns (t: nat)
    requires CanEnd(rpc, ticker, start, interval, deadline, Included(at))
    ensures start <= t && rpc.found(t) && at == t + rpc.latency(t) <= deadline
  {
    var asks :| Waited(rpc, ticker, start, interval, deadline, Included(at), asks);
    OutcomeMeaning(rpc, ticker, start, interval, deadline, Included(at), asks);
    t := asks[|asks| - 1];
  }

  // ---------------------------------------------------------------- how promptly a receipt is seen

  /** Every read succeeds at once, and brings the receipt from `r` on. */
  ghost predicate ReadableFrom(rpc: Endpoint, r: nat) {
    forall t :: rpc.latency(t) == 0 && (rpc.found(t) <==> r <= t)
  }

  /** The last read begun before `b`. */
  lemma {:induction false} LastBefore(asks: seq<nat>, b: nat, n: nat) returns (j: nat)
    requires n < |asks| && asks[0] < b
    requires forall i :: n < i < |asks| ==> asks[i] >= b
    ensures j < |asks| && asks[j] < b && forall i :: j < i < |asks| ==> asks[i] >= b
  {
    if asks[n] < b { j := n; } else { j := LastBefore(asks, b, n - 1); }
  }

  /** In a whole trace, a tick published after a read that missed forces the next one. */
  lemma TickForces(rpc: Endpoint, k: Ticker, start: nat, interval: nat, deadline: nat, outcome: Outcome, asks: seq<nat>,
                   j: nat, tick: nat)
    requires Waited(rpc, Some(k), start, interval, deadline, outcome, asks) && j < |asks| && !rpc.found(asks[j])
    requires asks[j] < tick && k.version(tick) > k.version(asks[j]) && Max(tick, End(rpc, asks[j])) <= deadline
    ensures j + 1 < |asks| && asks[j + 1] <= Max(tick, End(rpc, asks[j]))
  {
    assert PushNext(rpc, k, interval, deadline, asks, j);
  }

  /** With instantaneous reads, one at `readable` or after ends the wait at once. */
  lemma ReadEnds(rpc: Endpoint, ticker: Option<Ticker>, start: nat, interval: nat, deadline: nat, outcome: Outcome,
                 asks: seq<nat>, r: nat, j: nat)
    requires Waited(rpc, ticker, start, interval, deadline, outcome, asks) && ReadableFrom(rpc, r)
    requires j < |asks| && r <= asks[j]
    ensures outcome == Included(asks[j])
  {
    assert rpc.found(asks[j]) && End(rpc, asks[j]) == asks[j];
  }

  /** Push: a readable receipt is returned by the next tick that arrives in time. */
  lemma PromptPush(rpc: Endpoint, k: Ticker, start: nat, interval: nat, deadline: nat, outcome: Outcome, asks: seq<nat>,
                   r: nat, tick: nat)
    requires Waited(rpc, Some(k), start, interval, deadline, outcome, asks) && ValidTicker(k) && ReadableFrom(rpc, r)
    requires Max(r, start) <= tick <= deadline && tick > 0 && k.version(tick) > k.version(tick - 1)
    ensures outcome.Included? && r <= outcome.at <= tick
  {
    if asks[0] >= tick {
      ReadEnds(rpc, Some(k), start, interval, deadline, outcome, asks, r, 0);
    } else {
      var j := LastBefore(asks, tick, |asks| - 1);
      if r <= asks[j] {
        ReadEnds(rpc, Some(k), start, interval, deadline, outcome, asks, r, j);
      } else {
        assert k.version(asks[j]) <= k.version(tick - 1);
        TickForces(rpc, k, start, interval, deadline, outcome, asks, j, tick);
        ReadEnds(rpc, Some(k), start, interval, deadline, outcome, asks, r, j + 1);
      }
    }
  }

  /** Poll: a readable receipt is returned within one interval. */
  lemma PromptPoll(rpc: Endpoint, start: nat, interval: nat, deadline: nat, outcome: Outcome, asks: seq<nat>, r: nat)
    requires Waited(rpc, None, start, interval, deadline, outcome, asks) && ReadableFrom(rpc, r)
    requires interval > 0 && Max(r, start) + interval <= deadline
    ensures outcome.Included? && r <= outcome.at < Max(r, start) + interval
  {
    if start < r {
      var j := LastBefore(asks, r, |asks| - 1);
      assert PollNext(rpc, interval, deadline, asks, j);
    }
  }

  /** Degraded push: within one interval of the ticker's death. */
  lemma PromptDegraded(rpc: Endpoint, k: Ticker, start: nat, interval: nat, deadline: nat, outcome: Outcome,
          asks: seq<nat>, r: nat)
    requires Waited(rpc, Some(k), start, interval, deadline, outcome, asks) && ReadableFrom(rpc, r)
    requires k.death.Some? && Max(Max(r, start), k.death.value) + interval <= deadline
    ensures outcome.Included? && r <= outcome.at <= Max(Max(r, start), k.death.value) + interval
  {
    var b := Max(Max(r, start), k.death.value);
    if start < b {
      var j := LastBefore(asks, b, |asks| - 1);
      if !rpc.found(asks[j]) { assert PushNext(rpc, k, interval, deadline, asks, j); }
    }
  }

  lemma PushEnds(rpc: Endpoint, k: Ticker, start: nat, interval: nat, deadline: nat, outcome: Outcome, r: nat, tick: nat)
    requires CanEnd(rpc, Some(k), start, interval, deadline, outcome) && ValidTicker(k) && ReadableFrom(rpc, r)
    requires Max(r, start) <= tick <= deadline && tick > 0 && k.version(tick) > k.version(tick - 1)
    ensures outcome.Included? && r <= outcome.at <= tick
  {
    var asks :| Waited(rpc, Some(k), start, interval, deadline, outcome, asks);
    PromptPush(rpc, k, start, interval, deadline, outcome, asks, r, tick);
  }

  lemma PollEnds(rpc: Endpoint, start: nat, interval: nat, deadline: nat, outcome: Outcome, r: nat)
    requires CanEnd(rpc, None, start, interval, deadline, outcome) && ReadableFrom(rpc, r)
    requires interval > 0 && Max(r, start) + interval <= deadline
    ensures outcome.Included? && r <= outcome.at < Max(r, start) + interval
  {
    var asks :| Waited(rpc, None, start, interval, deadline, outcome, asks);
    PromptPoll(rpc, start, interval, deadline, outcome, asks, r);
  }

  lemma {:induction false} PollSpacing(rpc: Endpoint, start: nat, interval: nat, deadline: nat, outcome: Outcome,
          asks: seq<nat>, j: nat)
    requires Waited(rpc, None, start, interval, deadline, outcome, asks) && j < |asks|
    ensures start + j * interval <= asks[j]
  {
    if j > 0 {
      PollSpacing(rpc, start, interval, deadline, outcome, asks, j - 1);
      assert PollNext(rpc, interval, deadline, asks, j - 1);
      assert j * interval == (j - 1) * interval + interval;
    }
  }

  lemma PollSpan(rpc: Endpoint, start: nat, interval: nat, timeout: nat, outcome: Outcome, asks: seq<nat>)
    requires Waited(rpc, None, start, interval, start + timeout, outcome, asks)
    ensures (|asks| - 1) * interval <= timeout
  {
    PollSpacing(rpc, start, interval, start + timeout, outcome, asks, |asks| - 1);
  }

  /** Poll mode makes at most one read per interval, however long each takes. */
  lemma PollCount(rpc: Endpoint, start: nat, interval: nat, timeout: nat, outcome: Outcome, asks: seq<nat>)
    requires interval > 0 && Waited(rpc, None, start, interval, start + timeout, outcome, asks)
    ensures |asks| <= timeout / interval + 1
  {
    PollSpan(rpc, start, interval, timeout, outcome, asks);
    QuotientAtLeast(|asks| - 1, timeout, interval);
  }
}
