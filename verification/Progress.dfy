/** Termination of the two probing loops (pkg/pinger/scaner.go, pkg/pinger/ping.go): a bound on the number of steps a
    run can take on its own, replies apart. Together with the lemmas that some such step is always possible, it says
    that every scan, and every ping with a limit, comes to its end however its goroutines and timers interleave. */
module Progress {
  import opened Wrappers
  import Tracker
  import Scanner
  import Pinger

  // ----- what is left for the tracker to do -----

  /** Running timers have to fire and time out, due timeouts and clean-ups have to run. */
  function Chores(tr: Tracker.State): nat {
    2 * |tr.armed| + |tr.due| + |tr.cleanups|
  }

  lemma MapSizes<K, V>(m: map<K, V>, k: K, v: V)
    ensures |m[k := v]| <= |m| + 1
    ensures |m - {k}| == if k in m then |m| - 1 else |m|
  {
    assert m[k := v].Keys == m.Keys + {k};
    assert (m - {k}).Keys == m.Keys - {k};
  }

  /** A send starts one timer; a reply schedules a clean-up only with an event; every other step does one chore. */
  lemma ChoresStep(tr: Tracker.State, a: Tracker.Action)
    requires Tracker.Enabled(tr, a) && !tr.closed && !a.Close?
    ensures var tr' := Tracker.Apply(tr, a);
            match a
            case Send(_, _, _, _) => Chores(tr') <= Chores(tr) + 2 && tr'.emitted == tr.emitted
            case Reply(_, _, _) => Chores(tr') <= Chores(tr) + |tr'.emitted| - |tr.emitted|
            case _ => Chores(tr') < Chores(tr)
    ensures |Tracker.Apply(tr, a).emitted| >= |tr.emitted|
  {
    hide Chores;
    match a
    case Send(seqNo, ttl, dst, now) => SendChores(tr, seqNo, ttl, dst, now);
    case Reply(seqNo, reply, now) => ReplyChores(tr, seqNo, reply, now);
    case Fire(timer) => FireChores(tr, timer);
    case Timeout(seqNo) => TimeoutChores(tr, seqNo);
    case Cleanup(seqNo) => CleanupChores(tr, seqNo);
    case Close =>
  }

  lemma SendChores(tr: Tracker.State, seqNo: nat, ttl: int, dst: nat, now: int)
    ensures Chores(Tracker.Sent(tr, seqNo, ttl, dst, now)) <= Chores(tr) + 2
  {
    MapSizes(tr.armed, tr.timersMade, seqNo);
  }

  lemma ReplyChores(tr: Tracker.State, seqNo: nat, reply: Tracker.Reply, now: int)
    ensures var tr' := Tracker.Received(tr, seqNo, reply, now);
            Chores(tr') <= Chores(tr) + |tr'.emitted| - |tr.emitted|
  {
    if seqNo in tr.store && tr.store[seqNo].timer.Some? {
      MapSizes(tr.armed, tr.store[seqNo].timer.value, 0);
    }
  }

  lemma FireChores(tr: Tracker.State, timer: nat)
    requires timer in tr.armed
    ensures Chores(Tracker.Apply(tr, Tracker.Fire(timer))) < Chores(tr)
  {
    MapSizes(tr.armed, timer, 0);
  }

  lemma TimeoutChores(tr: Tracker.State, seqNo: nat)
    requires seqNo in tr.due
    ensures Chores(Tracker.Apply(tr, Tracker.Timeout(seqNo))) < Chores(tr)
  {
  }

  lemma CleanupChores(tr: Tracker.State, seqNo: nat)
    requires seqNo in tr.cleanups
    ensures Chores(Tracker.Apply(tr, Tracker.Cleanup(seqNo))) < Chores(tr)
  {
  }

  /** With a chore left some timer, timeout or clean-up can run. */
  lemma ChoreLeft(tr: Tracker.State) returns (a: Tracker.Action)
    requires Chores(tr) > 0
    ensures (a.Fire? || a.Timeout? || a.Cleanup?) && Tracker.Enabled(tr, a)
  {
    if tr.armed != map[] {
      var id :| id in tr.armed;
      a := Tracker.Fire(id);
    } else if tr.due != multiset{} {
      var n :| n in tr.due;
      a := Tracker.Timeout(n);
    } else {
      assert |tr.armed| == 0 && |tr.due| == 0;
      var n :| n in tr.cleanups;
      a := Tracker.Cleanup(n);
    }
  }

  /** When none is left, nothing is stored any more. */
  lemma NoChoresNothingStored(tr: Tracker.State)
    requires Tracker.Watched(tr) && Tracker.CleanupsSound(tr) && Chores(tr) == 0
    ensures tr.store == map[] && tr.armed == map[]
  {
    assert |tr.armed| == 0 && |tr.due| == 0 && |tr.cleanups| == 0;
    assert forall n :: n in tr.store ==> if tr.store[n].receivedAt == [] then Tracker.Watches(tr, n) else n in tr.cleanups;
    assert forall n :: n !in tr.armed && n !in tr.due && n !in tr.cleanups;
  }

  /** Nothing is kept for ever: from every reachable state of an open tracker, the timers, timeouts and clean-ups that are
      there already empty it. */
  lemma {:induction false} TrackerCanSettle(actions: seq<Tracker.Action>, tr: Tracker.State)
    returns (actions': seq<Tracker.Action>, tr': Tracker.State)
    requires Tracker.Reaches(actions, tr) && !tr.closed
    ensures actions <= actions' && Tracker.Reaches(actions', tr') && tr'.store == map[] && tr'.armed == map[]
    ensures forall i :: |actions| <= i < |actions'| ==> actions'[i].Fire? || actions'[i].Timeout? || actions'[i].Cleanup?
    decreases Chores(tr)
  {
    hide Tracker.Reaches, Chores, Tracker.Watched, Tracker.CleanupsSound;
    if Chores(tr) == 0 {
      Tracker.ReachableWatched(actions, tr);
      Tracker.TimersAndCleanups(actions, tr);
      NoChoresNothingStored(tr);
      actions', tr' := actions, tr;
    } else {
      var a := ChoreLeft(tr);
      ChoresStep(tr, a);
      Tracker.StepTo(actions, tr, a);
      actions', tr' := TrackerCanSettle(actions + [a], Tracker.Apply(tr, a));
    }
  }

  // ----- the block scan -----

  /** How many of the steps are not replies from the network. */
  function ScanSteps(actions: seq<Scanner.Action>): nat {
    if actions == [] then 0
    else ScanSteps(actions[..|actions| - 1]) + (if actions[|actions| - 1].Reply? then 0 else 1)
  }

  /** What is left to do in a scan. */
  ghost function ScanLeft(s: Scanner.State): int {
    8 * (|s.addrs| - Scanner.NumMarked(s))
    + 4 * |Tracker.UnAcked(s.tracker)|
    + 3 * |s.inbox|
    + Chores(s.tracker)
    + (match s.drain case Idle => 0 case Holding(_) => 2 case Delivered => 1)
    + (match s.main case Writing => 3 case Taking => 2 case Waiting => 1 case Closed => 0)
  }

  /** A step that reaches the tracker leaves the drain alone, and the send loop too unless it is a send. */
  lemma ScanTrackerStep(s: Scanner.State, a: Scanner.Action)
    requires Scanner.Enabled(s, a) && Scanner.TrackerActionOf(s, a).Some?
    ensures var s' := Scanner.Apply(s, a);
            && s'.addrs == s.addrs && s'.taken == s.taken && s'.drain == s.drain
            && (if a.TakeAddress?
                then s.main == Scanner.Taking && s'.main == Scanner.Writing && Scanner.NumMarked(s') == Scanner.NumMarked(s) + 1
                else s'.main == s.main && Scanner.NumMarked(s') == Scanner.NumMarked(s))
  {
    hide Tracker.Apply, Tracker.Sent, Tracker.Received;
  }

  lemma ScanTrackerStepProgresses(s: Scanner.State, a: Scanner.Action)
    requires Scanner.Inv(s) && Scanner.Enabled(s, a) && Scanner.TrackerActionOf(s, a).Some?
    ensures ScanLeft(Scanner.Apply(s, a)) <= ScanLeft(s) - (if a.Reply? then 0 else 1)
  {
    hide Scanner.Inv, Scanner.Apply, Scanner.Enabled, Scanner.NumMarked, Tracker.UnAcked, Tracker.Apply, Tracker.Enabled, Chores;
    Scanner.ApplyKeepsInv(s, a);
    var s' := Scanner.Apply(s, a);
    ScanCounts(s);
    ScanCounts(s');
    ScanTrackerStep(s, a);
    Scanner.FreshNumber(s, a);
    ChoresStep(s.tracker, Scanner.TrackerActionOf(s, a).value);
  }

  lemma ScanLoopStepProgresses(s: Scanner.State, a: Scanner.Action)
    requires Scanner.Inv(s) && Scanner.Enabled(s, a) && Scanner.TrackerActionOf(s, a).None?
    ensures ScanLeft(Scanner.Apply(s, a)) < ScanLeft(s)
  {
    hide Scanner.Inv, Tracker.UnAcked, Tracker.Apply, Tracker.Sent, Tracker.Received, Scanner.NewProbeEvent, Chores;
    Scanner.ApplyKeepsInv(s, a);
    var s' := Scanner.Apply(s, a);
    ScanCounts(s);
    ScanCounts(s');
    assert s'.tracker == s.tracker;
  }

  lemma ScanStepProgresses(s: Scanner.State, a: Scanner.Action)
    requires Scanner.Inv(s) && Scanner.Enabled(s, a)
    ensures ScanLeft(Scanner.Apply(s, a)) <= ScanLeft(s) - (if a.Reply? then 0 else 1)
  {
    hide Scanner.Inv, Scanner.Apply, Scanner.Enabled, ScanLeft;
    if Scanner.TrackerActionOf(s, a).Some? {
      ScanTrackerStepProgresses(s, a);
    } else {
      ScanLoopStepProgresses(s, a);
    }
  }

  lemma ScanCounts(s: Scanner.State)
    requires Scanner.Inv(s)
    ensures !s.tracker.closed && Scanner.NumMarked(s) <= |s.addrs|
    ensures |s.tracker.emitted| + |Tracker.UnAcked(s.tracker)| == Scanner.NumMarked(s)
    ensures |s.inbox| + |s.taken| == |s.tracker.emitted|
  {
    hide Tracker.Inv, Scanner.Unduplicated;
    Scanner.Counts(s);
  }

  /** A scan of n addresses takes at most 8 n + 2 steps besides replies, under every interleaving. */
  lemma {:induction false} ScanTerminates(addrs: seq<nat>, actions: seq<Scanner.Action>, s: Scanner.State)
    requires Scanner.Reaches(addrs, actions, s)
    ensures ScanSteps(actions) + ScanLeft(s) <= 8 * |addrs| + 2
    ensures ScanSteps(actions) <= 8 * |addrs| + 2
  {
    hide Scanner.Inv, Scanner.Apply, Scanner.Enabled;
    Scanner.ReachableInv(addrs, actions, s);
    ScanCounts(s);
    if actions != [] {
      var m := |actions| - 1;
      var prev :| Scanner.Reaches(addrs, actions[..m], prev) && Scanner.Enabled(prev, actions[m])
                  && s == Scanner.Apply(prev, actions[m]);
      Scanner.ReachableInv(addrs, actions[..m], prev);
      ScanTerminates(addrs, actions[..m], prev);
      ScanStepProgresses(prev, actions[m]);
    }
  }

  /** From every reachable state a scan can be brought to its end without any further reply. */
  lemma {:induction false} ScanCanFinish(addrs: seq<nat>, actions: seq<Scanner.Action>, s: Scanner.State)
    returns (actions': seq<Scanner.Action>, s': Scanner.State)
    requires Scanner.Reaches(addrs, actions, s)
    ensures actions <= actions' && Scanner.Reaches(addrs, actions', s') && s'.main == Scanner.Closed
    ensures forall i :: |actions| <= i < |actions'| ==> !actions'[i].Reply?
    decreases 8 * |addrs| + 2 - ScanSteps(actions)
  {
    hide Scanner.Inv, Scanner.Apply, Scanner.Enabled;
    ScanTerminates(addrs, actions, s);
    if s.main == Scanner.Closed {
      actions', s' := actions, s;
    } else {
      var a := Scanner.NeverStuck(addrs, actions, s);
      assert (actions + [a])[..|actions|] == actions;
      ScanTerminates(addrs, actions + [a], Scanner.Apply(s, a));
      actions', s' := ScanCanFinish(addrs, actions + [a], Scanner.Apply(s, a));
    }
  }

  /** And it leaves nothing behind: from its end the clean-ups that are due empty the tracker. */
  lemma {:induction false} ScanCanSettle(addrs: seq<nat>, actions: seq<Scanner.Action>, s: Scanner.State)
    returns (actions': seq<Scanner.Action>, s': Scanner.State)
    requires Scanner.Reaches(addrs, actions, s) && s.main == Scanner.Closed
    ensures actions <= actions' && Scanner.Reaches(addrs, actions', s') && s'.main == Scanner.Closed
    ensures s'.output == s.output && s'.tracker.store == map[] && s'.tracker.armed == map[]
    decreases Chores(s.tracker)
  {
    hide Scanner.Reaches, Scanner.Inv, Chores, Tracker.Apply, Tracker.Watched, Tracker.CleanupsSound;
    Scanner.ReachableInv(addrs, actions, s);
    ScanCounts(s);
    if Chores(s.tracker) == 0 {
      Scanner.ScanRunsTracker(addrs, actions, s);
      Scanner.ScanWatches(addrs, actions, s);
      Tracker.TimersAndCleanups(Scanner.Requests(addrs, actions), s.tracker);
      NoChoresNothingStored(s.tracker);
      actions', s' := actions, s;
    } else {
      var ta := ChoreLeft(s.tracker);
      ChoresStep(s.tracker, ta);
      var a := match ta
        case Fire(timer) => Scanner.Fire(timer)
        case Timeout(n) => Scanner.Timeout(n)
        case Cleanup(n) => Scanner.Cleanup(n)
        case _ => Scanner.Done;
      var actions1, s1 := Scanner.StepTo(addrs, actions, s, a);
      actions', s' := ScanCanSettle(addrs, actions1, s1);
    }
  }

  // ----- the stop-and-wait ping -----

  function PingSteps(actions: seq<Pinger.Action>): nat {
    if actions == [] then 0
    else PingSteps(actions[..|actions| - 1]) + (if actions[|actions| - 1].Reply? then 0 else 1)
  }

  /** What is left to do in a ping limited to `n` packets. */
  ghost function PingLeft(n: int, s: Pinger.State): int {
    9 * (n - |s.sends|)
    + 6 * |Tracker.UnAcked(s.tracker)|
    + 5 * |s.inbox|
    + Chores(s.tracker)
    + GenLeft(s.gen)
  }

  function GenLeft(gen: Pinger.GenPc): nat {
    match gen
    case Waiting => 0
    case Holding(_) => 4
    case ReadingUnAcked => 3
    case ReadingAcked => 2
    case Signalling => 1
    case Stopped => 0
  }

  lemma PingCounts(s: Pinger.State)
    requires Pinger.Inv(s)
    ensures !s.tracker.closed
    ensures |s.tracker.emitted| + |Tracker.UnAcked(s.tracker)| == |s.sends|
    ensures Pinger.NumTaken(s) + |s.inbox| == |s.tracker.emitted|
    ensures s.totalPkts.Some? && s.totalPkts.value >= 1 ==> |s.sends| <= s.totalPkts.value
  {
    hide Tracker.Inv, Pinger.Unduplicated;
    Pinger.Counts(s);
  }

  lemma PingTrackerStep(s: Pinger.State, a: Pinger.Action)
    requires Pinger.Enabled(s, a) && Pinger.TrackerActionOf(s, a).Some?
    ensures var s' := Pinger.Apply(s, a);
            && s'.gen == s.gen && s'.output == s.output
            && |s'.sends| == |s.sends| + if a.SendNext? then 1 else 0
  {
    hide Tracker.Apply, Tracker.Sent, Tracker.Received;
  }

  lemma PingTrackerStepProgresses(n: int, s: Pinger.State, a: Pinger.Action)
    requires Pinger.Inv(s) && Pinger.Enabled(s, a) && Pinger.TrackerActionOf(s, a).Some?
    ensures PingLeft(n, Pinger.Apply(s, a)) <= PingLeft(n, s) - (if a.Reply? then 0 else 1)
  {
    hide Pinger.Inv, Pinger.Apply, Pinger.Enabled, Tracker.UnAcked, Tracker.Apply, Tracker.Enabled, Chores;
    Pinger.ApplyKeepsInv(s, a);
    var s' := Pinger.Apply(s, a);
    PingCounts(s);
    PingCounts(s');
    PingTrackerStep(s, a);
    Pinger.FreshNumber(s, a);
    ChoresStep(s.tracker, Pinger.TrackerActionOf(s, a).value);
  }

  lemma PingLoopStepProgresses(n: int, s: Pinger.State, a: Pinger.Action)
    requires Pinger.Inv(s) && Pinger.Enabled(s, a) && Pinger.TrackerActionOf(s, a).None?
    ensures PingLeft(n, Pinger.Apply(s, a)) < PingLeft(n, s)
  {
    hide Pinger.Inv, Tracker.UnAcked, Tracker.Apply, Tracker.Sent, Tracker.Received, Chores;
    Pinger.ApplyKeepsInv(s, a);
    var s' := Pinger.Apply(s, a);
    PingCounts(s);
    PingCounts(s');
    assert s'.tracker == s.tracker;
  }

  lemma PingStepProgresses(n: int, s: Pinger.State, a: Pinger.Action)
    requires Pinger.Inv(s) && Pinger.Enabled(s, a)
    ensures PingLeft(n, Pinger.Apply(s, a)) <= PingLeft(n, s) - (if a.Reply? then 0 else 1)
  {
    hide Pinger.Inv, Pinger.Apply, Pinger.Enabled, PingLeft;
    if Pinger.TrackerActionOf(s, a).Some? {
      PingTrackerStepProgresses(n, s, a);
    } else {
      PingLoopStepProgresses(n, s, a);
    }
  }

  /** A ping limited to n >= 1 packets takes at most 9 n steps besides replies, under every interleaving. */
  lemma {:induction false} PingTerminates(n: int, actions: seq<Pinger.Action>, s: Pinger.State)
    requires n >= 1 && Pinger.Reaches(Some(n), actions, s)
    ensures PingSteps(actions) + PingLeft(n, s) <= 9 * n
    ensures PingSteps(actions) <= 9 * n
  {
    hide Pinger.Inv, Pinger.Apply, Pinger.Enabled;
    Pinger.ReachableInv(Some(n), actions, s);
    PingCounts(s);
    if actions != [] {
      var m := |actions| - 1;
      var prev :| Pinger.Reaches(Some(n), actions[..m], prev) && Pinger.Enabled(prev, actions[m])
                  && s == Pinger.Apply(prev, actions[m]);
      Pinger.ReachableInv(Some(n), actions[..m], prev);
      PingTerminates(n, actions[..m], prev);
      PingStepProgresses(n, prev, actions[m]);
    }
  }

  /** From every reachable state a ping with a limit can be brought to its stop without any further reply. */
  lemma {:induction false} PingCanFinish(n: int, actions: seq<Pinger.Action>, s: Pinger.State)
    returns (actions': seq<Pinger.Action>, s': Pinger.State)
    requires n >= 1 && Pinger.Reaches(Some(n), actions, s)
    ensures actions <= actions' && Pinger.Reaches(Some(n), actions', s') && s'.gen == Pinger.Stopped
    ensures forall i :: |actions| <= i < |actions'| ==> !actions'[i].Reply?
    decreases 9 * n - PingSteps(actions)
  {
    hide Pinger.Inv, Pinger.Apply, Pinger.Enabled;
    PingTerminates(n, actions, s);
    if s.gen == Pinger.Stopped {
      actions', s' := actions, s;
    } else {
      var a := Pinger.NeverStuck(Some(n), actions, s);
      assert (actions + [a])[..|actions|] == actions;
      PingTerminates(n, actions + [a], Pinger.Apply(s, a));
      actions', s' := PingCanFinish(n, actions + [a], Pinger.Apply(s, a));
    }
  }

  /** A ping without a limit, or with one below 1, can go on for ever: from every reachable state it can send its next packet
      with no further reply. */
  lemma {:induction false} PingCanGoOn(totalPkts: Option<int>, actions: seq<Pinger.Action>, s: Pinger.State)
    returns (actions': seq<Pinger.Action>, s': Pinger.State)
    requires Pinger.Reaches(totalPkts, actions, s) && (totalPkts.Some? ==> totalPkts.value < 1)
    ensures actions <= actions' && Pinger.Reaches(totalPkts, actions', s') && |s'.sends| == |s.sends| + 1
    ensures forall i :: |actions| <= i < |actions'| ==> !actions'[i].Reply?
    decreases PingLeft(|s.sends|, s)
  {
    hide Pinger.Reaches, Pinger.Inv, Pinger.Apply, Pinger.Enabled, PingLeft;
    Pinger.ReachableInv(totalPkts, actions, s);
    if s.gen == Pinger.Stopped {
      Pinger.StopsOnlyAtPositiveLimit(totalPkts, actions, s);
      assert false;
    }
    var a := Pinger.NeverStuck(totalPkts, actions, s);
    var actions1, s1 := Pinger.StepTo(totalPkts, actions, s, a);
    SendsOf(s, a);
    if a.SendNext? {
      actions', s' := actions1, s1;
    } else {
      PingStepProgresses(|s.sends|, s, a);
      PingLeftAtLeast(s1);
      actions', s' := PingCanGoOn(totalPkts, actions1, s1);
    }
  }

  lemma SendsOf(s: Pinger.State, a: Pinger.Action)
    requires Pinger.Enabled(s, a)
    ensures |Pinger.Apply(s, a).sends| == |s.sends| + if a.SendNext? then 1 else 0
  {
    hide Tracker.Apply, Tracker.Sent, Tracker.Received;
  }

  lemma PingLeftAtLeast(s: Pinger.State)
    ensures PingLeft(|s.sends|, s) >= 0
  {
    hide Chores, Tracker.UnAcked;
  }

  /** And a ping that has stopped leaves nothing behind: the clean-ups that are due empty the tracker. */
  lemma {:induction false} PingCanSettle(totalPkts: Option<int>, actions: seq<Pinger.Action>, s: Pinger.State)
    returns (actions': seq<Pinger.Action>, s': Pinger.State)
    requires Pinger.Reaches(totalPkts, actions, s) && s.gen == Pinger.Stopped
    ensures actions <= actions' && Pinger.Reaches(totalPkts, actions', s') && s'.gen == Pinger.Stopped
    ensures s'.output == s.output && s'.tracker.store == map[] && s'.tracker.armed == map[]
    decreases Chores(s.tracker)
  {
    hide Pinger.Reaches, Pinger.Inv, Chores, Tracker.Apply, Tracker.Watched, Tracker.CleanupsSound;
    Pinger.ReachableInv(totalPkts, actions, s);
    PingCounts(s);
    if Chores(s.tracker) == 0 {
      Pinger.PingRunsTracker(totalPkts, actions, s);
      Pinger.PingWatches(totalPkts, actions, s);
      Tracker.TimersAndCleanups(Pinger.Requests(actions), s.tracker);
      NoChoresNothingStored(s.tracker);
      actions', s' := actions, s;
    } else {
      var ta := ChoreLeft(s.tracker);
      ChoresStep(s.tracker, ta);
      var a := match ta
        case Fire(timer) => Pinger.Fire(timer)
        case Timeout(n) => Pinger.Timeout(n)
        case Cleanup(n) => Pinger.Cleanup(n)
        case _ => Pinger.PassOn;
      var actions1, s1 := Pinger.StepTo(totalPkts, actions, s, a);
      actions', s' := PingCanSettle(totalPkts, actions1, s1);
    }
  }
}
