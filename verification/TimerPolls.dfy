/**
 sys_timer_task with callbacks that poll: while a callback runs, the background tasks may
 be polled again, and with them the timer task, to any depth.
 */
module TimerPolls {
  import opened Timers

  /** One thing a callback does; a poll says what the callback of each slot would do in it. */
  datatype Act = Do(step: Step) | Poll(visits: seq<Visitor>)

  datatype Visitor = Visitor(acts: seq<Act>)

  /** The machine with previous_tick. */
  datatype Poller = Poller(m: Machine, prev: nat)

  /** Callbacks take time, add and remove timers, and poll. */
  predicate Sane(acts: seq<Act>)
    decreases acts
  {
    forall k :: 0 <= k < |acts| ==>
      match acts[k]
      case Do(step) => step.Pass? || step.DoAdd? || step.DoRemove?
      case Poll(visits) => |visits| == MAX_TIMERS && forall i :: 0 <= i < |visits| ==> Sane(visits[i].acts)
  }

  predicate AllSane(visits: seq<Visitor>) {
    |visits| == MAX_TIMERS && forall i :: 0 <= i < |visits| ==> Sane(visits[i].acts)
  }

  /** A callback from its act k on. */
  function PlayActs(s: Poller, acts: seq<Act>, k: nat): (r: Poller)
    requires k <= |acts| && Sane(acts) && |s.m.table| == MAX_TIMERS
    ensures r.m.stack == s.m.stack && |r.m.table| == MAX_TIMERS
    decreases acts, |acts| - k
  {
    if k == |acts| then s
    else
      match acts[k]
      case Do(step) => PlayActs(s.(m := Next(s.m, step)), acts, k + 1)
      case Poll(visits) => PlayActs(PollTask(s, visits), acts, k + 1)
  }

  /** sys_timer_task: at most once per tick. */
  function PollTask(s: Poller, visits: seq<Visitor>): (r: Poller)
    requires AllSane(visits) && |s.m.table| == MAX_TIMERS
    ensures r.m.stack == s.m.stack && |r.m.table| == MAX_TIMERS
    decreases visits, MAX_TIMERS + 1
  {
    if s.prev == Ticks(s.m.now) then s
    else
      var r := PollWalk(s, visits, 0);
      r.(prev := Ticks(r.m.now))
  }

  /** Its loop from slot i on. */
  function PollWalk(s: Poller, visits: seq<Visitor>, i: nat): (r: Poller)
    requires AllSane(visits) && |s.m.table| == MAX_TIMERS && i <= MAX_TIMERS
    ensures r.m.stack == s.m.stack && |r.m.table| == MAX_TIMERS
    decreases visits, MAX_TIMERS - i
  {
    if i == MAX_TIMERS || s.m.table[i].cbk == NO_CBK then s
    else PollWalk(PollVisit(s, i, visits[i]), visits, i + 1)
  }

  function PollVisit(s: Poller, i: nat, v: Visitor): (r: Poller)
    requires Sane(v.acts) && |s.m.table| == MAX_TIMERS
    ensures r.m.stack == s.m.stack && |r.m.table| == MAX_TIMERS
    decreases v
  {
    if Ready(s.m, i) then
      var r := PlayActs(s.(m := Next(s.m, Fire(i))), v.acts, 0);
      r.(m := Next(r.m, Return))
    else s
  }

  // ---------- a poll is part of a run ----------

  /** However deep callbacks poll, the timer task takes a reachable machine to a reachable one. */
  lemma {:induction false} PollTaskReachable(s: Poller, visits: seq<Visitor>)
    requires AllSane(visits) && Reachable(s.m) && |s.m.table| == MAX_TIMERS
    ensures Reachable(PollTask(s, visits).m)
    decreases visits, MAX_TIMERS + 1
  {
    if s.prev == Ticks(s.m.now) {
    } else {
      PollWalkReachable(s, visits, 0);
    }
  }

  lemma {:induction false} PollWalkReachable(s: Poller, visits: seq<Visitor>, i: nat)
    requires AllSane(visits) && Reachable(s.m) && |s.m.table| == MAX_TIMERS && i <= MAX_TIMERS
    ensures Reachable(PollWalk(s, visits, i).m)
    decreases visits, MAX_TIMERS - i
  {
    if i == MAX_TIMERS || s.m.table[i].cbk == NO_CBK {
    } else {
      PollVisitReachable(s, i, visits[i]);
      PollWalkReachable(PollVisit(s, i, visits[i]), visits, i + 1);
    }
  }

  lemma {:induction false} PollVisitReachable(s: Poller, i: nat, v: Visitor)
    requires Sane(v.acts) && Reachable(s.m) && |s.m.table| == MAX_TIMERS
    ensures Reachable(PollVisit(s, i, v).m)
    decreases v
  {
    if !Ready(s.m, i) {
    } else {
      var m := NextReachable(s.m, Fire(i));
      PlayActsReachable(s.(m := m), v.acts, 0);
      m := NextReachable(PlayActs(s.(m := m), v.acts, 0).m, Return);
    }
  }

  lemma {:induction false} PlayActsReachable(s: Poller, acts: seq<Act>, k: nat)
    requires k <= |acts| && Sane(acts) && Reachable(s.m) && |s.m.table| == MAX_TIMERS
    ensures Reachable(PlayActs(s, acts, k).m)
    decreases acts, |acts| - k
  {
    if k == |acts| {
    } else {
      match acts[k]
      case Do(step) =>
        var m := NextReachable(s.m, step);
        PlayActsReachable(s.(m := m), acts, k + 1);
      case Poll(visits) =>
        PollTaskReachable(s, visits);
        PlayActsReachable(PollTask(s, visits), acts, k + 1);
    }
  }

  // ---------- without polls ----------

  function DoAll(script: seq<Step>): (acts: seq<Act>)
    ensures |acts| == |script| && forall k :: 0 <= k < |acts| ==> acts[k] == Do(script[k])
  {
    seq(|script|, k requires 0 <= k < |script| => Do(script[k]))
  }

  lemma PlainIsSane(script: seq<Step>)
    requires Plain(script)
    ensures Sane(DoAll(script))
  {
  }

  lemma {:induction false} PlayActsIsPlay(s: Poller, script: seq<Step>, k: nat)
    requires Plain(script) && k <= |script| && |s.m.table| == MAX_TIMERS && Sane(DoAll(script))
    ensures PlayActs(s, DoAll(script), k) == s.(m := Play(s.m, script[k..]))
    decreases |script| - k
  {
    if k == |script| {
    } else {
      assert script[k..][0] == script[k] && script[k..][1..] == script[k + 1..];
      PlayActsIsPlay(s.(m := Next(s.m, script[k])), script, k + 1);
    }
  }

  function Unpolling(scripts: seq<seq<Step>>): (visits: seq<Visitor>)
    ensures |visits| == |scripts| && forall k :: 0 <= k < |visits| ==> visits[k] == Visitor(DoAll(scripts[k]))
  {
    seq(|scripts|, k requires 0 <= k < |scripts| => Visitor(DoAll(scripts[k])))
  }

  /** With callbacks that do not poll this is the walk of Timers, and so its laws hold of it. */
  lemma {:induction false} PollWalkIsWalk(s: Poller, scripts: seq<seq<Step>>, i: nat)
    requires |scripts| == MAX_TIMERS == |s.m.table| && i <= MAX_TIMERS
    requires forall k :: 0 <= k < |scripts| ==> Plain(scripts[k])
    ensures AllSane(Unpolling(scripts)) && PollWalk(s, Unpolling(scripts), i) == s.(m := Walk(s.m, scripts, i))
    decreases MAX_TIMERS - i
  {
    forall k | 0 <= k < |scripts| ensures Sane(Unpolling(scripts)[k].acts) {
      PlainIsSane(scripts[k]);
    }
    if i == MAX_TIMERS || s.m.table[i].cbk == NO_CBK {
    } else {
      if Ready(s.m, i) {
        PlayActsIsPlay(s.(m := Next(s.m, Fire(i))), scripts[i], 0);
        assert scripts[i][0..] == scripts[i];
      }
      PollWalkIsWalk(s.(m := Visit(s.m, i, scripts[i])), scripts, i + 1);
    }
  }

  // ---------- a nested poll that makes a timer fire too soon ----------

  /** Callbacks that do nothing. */
  function Idle(): (visits: seq<Visitor>)
    ensures AllSane(visits) && forall k :: 0 <= k < MAX_TIMERS ==> visits[k] == Visitor([])
  {
    seq(MAX_TIMERS, _ => Visitor([]))
  }

  /** The callback removes and adds itself, waits two ticks and polls. */
  function Restless(): seq<Act> {
    [Do(DoRemove(1)), Do(DoAdd(1, 0, 2 * US_PER_TICK)), Do(Pass(2)), Poll(Idle())]
  }

  /** Timer 1 alone, with an interval of two ticks. */
  function OneTimer(start: nat, busy: bool, now: nat, stack: seq<Frame>, log: seq<Entry>): Machine {
    FirstSlot(Slot(1, 2, start, 0, busy), now, stack, log)
  }

  lemma OneTimerFires(start: nat, now: nat, stack: seq<Frame>, log: seq<Entry>)
    requires start + 2 <= now < 100
    ensures
      var m := OneTimer(start, false, now, stack, log);
      Ready(m, 0) &&
      Next(m, Fire(0)) == OneTimer(start, true, now, [Frame(0, 1, now)] + stack, log + [Fired(1, now, 2, 0)])
  {
  }

  lemma OneTimerReturns(start: nat, busy: bool, at: nat, now: nat, stack: seq<Frame>, log: seq<Entry>)
    requires at < 100
    ensures
      var m := OneTimer(start, busy, now, [Frame(0, 1, at)] + stack, log);
      m.stack != [] && Next(m, Return) == OneTimer(at, false, now, stack, log)
  {
    var m := OneTimer(start, busy, now, [Frame(0, 1, at)] + stack, log);
    assert m.stack[1..] == stack;
  }

  lemma OneTimerPass(s: Poller, visits: seq<Visitor>)
    requires AllSane(visits) && |s.m.table| == MAX_TIMERS && s.m.table[0].cbk != NO_CBK
    requires PollVisit(s, 0, visits[0]).m.table[1].cbk == NO_CBK
    ensures PollWalk(s, visits, 0) == PollVisit(s, 0, visits[0])
  {
    assert PollWalk(PollVisit(s, 0, visits[0]), visits, 1) == PollVisit(s, 0, visits[0]);
  }

  lemma IdlePass(start: nat, now: nat, stack: seq<Frame>, log: seq<Entry>, prev: nat)
    requires start + 2 <= now < 100 && prev != now
    ensures PollTask(Poller(OneTimer(start, false, now, stack, log), prev), Idle()) ==
            Poller(OneTimer(now, false, now, stack, log + [Fired(1, now, 2, 0)]), now)
  {
    var s := Poller(OneTimer(start, false, now, stack, log), prev);
    OneTimerFires(start, now, stack, log);
    OneTimerReturns(start, true, now, now, stack, log + [Fired(1, now, 2, 0)]);
    assert PollVisit(s, 0, Visitor([])) == Poller(OneTimer(now, false, now, stack, log + [Fired(1, now, 2, 0)]), prev);
    OneTimerPass(s, Idle());
  }

  /** It takes its timer out and puts it back. */
  lemma OneTimerRestarts(stack: seq<Frame>, log: seq<Entry>)
    ensures
      var m := Next(OneTimer(0, true, 2, stack, log), DoRemove(1));
      Next(m, DoAdd(1, 0, 2 * US_PER_TICK)) ==
      OneTimer(2, false, 2, stack, log + [Unregistered(1)] + [Registered(1)])
  {
    var m0 := OneTimer(0, true, 2, stack, log);
    FirstSlotRemoves(m0.table[0]);
    assert Next(m0, DoRemove(1)) == FirstSlot(Slot(NO_CBK, 0, 0, 0, false), 2, stack, log + [Unregistered(1)]);
    FirstSlotAdds(Slot(NO_CBK, 0, 0, 0, false), 1, 2 * US_PER_TICK, 2);
  }

  lemma OneCall(s: Poller, acts: seq<Act>, k: nat, a: Step) returns (t: Poller)
    requires Sane(acts) && k < |acts| && acts[k] == Do(a) && |s.m.table| == MAX_TIMERS
    ensures Enabled(s.m, a) && t == s.(m := Next(s.m, a)) && |t.m.table| == MAX_TIMERS
    ensures PlayActs(s, acts, k) == PlayActs(t, acts, k + 1)
  {
    t := s.(m := Next(s.m, a));
  }

  lemma ThreeCallsAndPoll(s: Poller, acts: seq<Act>, a: Step, b: Step, c: Step, visits: seq<Visitor>)
    requires acts == [Do(a), Do(b), Do(c), Poll(visits)] && |s.m.table| == MAX_TIMERS && AllSane(visits)
    requires Plain([a, b, c])
    ensures Sane(acts) && Enabled(s.m, a) && Enabled(Next(s.m, a), b) && Enabled(Next(Next(s.m, a), b), c)
    ensures |Next(Next(Next(s.m, a), b), c).table| == MAX_TIMERS
    ensures PlayActs(s, acts, 0) == PollTask(s.(m := Next(Next(Next(s.m, a), b), c)), visits)
  {
    assert [a, b, c][0] == a && [a, b, c][1] == b && [a, b, c][2] == c;
    var t := OneCall(s, acts, 0, a);
    t := OneCall(t, acts, 1, b);
    t := OneCall(t, acts, 2, c);
    assert PlayActs(PollTask(t, visits), acts, 4) == PollTask(t, visits);
  }

  /** The restless callback, called at tick 2: its timer is fired at tick 4 while it still runs. */
  lemma RestlessActs(log: seq<Entry>)
    ensures Sane(Restless())
    ensures
      PlayActs(Poller(OneTimer(0, true, 2, [Frame(0, 1, 2)], log), 0), Restless(), 0) ==
      Poller(OneTimer(4, false, 4, [Frame(0, 1, 2)],
                      log + [Unregistered(1)] + [Registered(1)] + [Fired(1, 4, 2, 0)]), 4)
  {
    var stack, l2 := [Frame(0, 1, 2)], log + [Unregistered(1)] + [Registered(1)];
    ThreeCallsAndPoll(Poller(OneTimer(0, true, 2, stack, log), 0), Restless(), DoRemove(1),
                      DoAdd(1, 0, 2 * US_PER_TICK), Pass(2), Idle());
    OneTimerRestarts(stack, log);
    assert Next(OneTimer(2, false, 2, stack, l2), Pass(2)) == OneTimer(2, false, 4, stack, l2);
    IdlePass(2, 4, stack, l2, 0);
  }

  lemma RestlessVisit(log: seq<Entry>)
    ensures Sane(Restless())
    ensures
      PollVisit(Poller(OneTimer(0, false, 2, [], log), 0), 0, Visitor(Restless())) ==
      Poller(OneTimer(2, false, 4, [],
                      log + [Fired(1, 2, 2, 0)] + [Unregistered(1)] + [Registered(1)] + [Fired(1, 4, 2, 0)]), 4)
  {
    var l1 := log + [Fired(1, 2, 2, 0)];
    OneTimerFires(0, 2, [], log);
    RestlessActs(l1);
    assert [Frame(0, 1, 2)] + [] == [Frame(0, 1, 2)];
    OneTimerReturns(4, false, 2, 4, [], l1 + [Unregistered(1)] + [Registered(1)] + [Fired(1, 4, 2, 0)]);
  }

  lemma RestlessPass(log: seq<Entry>)
    ensures AllSane(Idle()[0 := Visitor(Restless())])
    ensures
      PollTask(Poller(OneTimer(0, false, 2, [], log), 0), Idle()[0 := Visitor(Restless())]) ==
      Poller(OneTimer(2, false, 4, [],
                      log + [Fired(1, 2, 2, 0)] + [Unregistered(1)] + [Registered(1)] + [Fired(1, 4, 2, 0)]), 4)
  {
    var s, visits := Poller(OneTimer(0, false, 2, [], log), 0), Idle()[0 := Visitor(Restless())];
    RestlessVisit(log);
    assert visits[0] == Visitor(Restless());
    OneTimerPass(s, visits);
  }

  lemma PowerUpIsReachable()
    ensures Reachable(FirstSlot(Slot(NO_CBK, 0, 0, 0, false), 0, [], []))
  {
    assert IsRun([FirstSlot(Slot(NO_CBK, 0, 0, 0, false), 0, [], [])], []);
  }

  lemma OneTimerAdded() returns (m: Machine)
    ensures Reachable(m) && m == OneTimer(0, false, 2, [], [Registered(1)])
  {
    PowerUpIsReachable();
    FirstSlotAdds(Slot(NO_CBK, 0, 0, 0, false), 1, 2 * US_PER_TICK, 0);
    m := NextReachable(FirstSlot(Slot(NO_CBK, 0, 0, 0, false), 0, [], []), DoAdd(1, 0, 2 * US_PER_TICK));
    m := NextReachable(m, Pass(2));
  }

  /**
   The timer task itself gets there, although it runs once per tick: the restless callback
   fired at tick 2 polls at tick 4, and the next pass at tick 5 fires its timer once more.
   */
  lemma NestedPollFiresTooSoon() returns (m: Machine, s: Poller)
    ensures Reachable(m) && |m.table| == MAX_TIMERS && AllSane(Idle()[0 := Visitor(Restless())])
    ensures s == PollTask(Poller(m, 0), Idle()[0 := Visitor(Restless())])
    ensures !Spaced(PollTask(s.(m := Next(s.m, Pass(1))), Idle()).m.log)
  {
    m := OneTimerAdded();
    RestlessPass([Registered(1)]);
    s := PollTask(Poller(m, 0), Idle()[0 := Visitor(Restless())]);
    IdlePass(2, 5, [], s.m.log, 4);
    LastTooSoon(s.m.log);
  }

  lemma LastTooSoon(log: seq<Entry>)
    requires log != [] && log[|log| - 1] == Fired(1, 4, 2, 0)
    ensures !Spaced(log + [Fired(1, 5, 2, 0)])
  {
    var more := log + [Fired(1, 5, 2, 0)];
    assert more[..|log|] == log;
    assert !SpacedAt(more, |log|);
  }
}
