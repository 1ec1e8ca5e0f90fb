/**
 What timer_add and timer_remove promise their callers (kernel/timer.c): when the callback is
 called, with what argument, and that all other timers are as before. And which timers a pass
 of the timer task calls.
 */
module TimerAdds {
  import opened Timers
  import opened TimerPolls

  /** Slot k holds this timer. */
  predicate HoldsAt(t: seq<Slot>, k: nat, s: Slot) {
    k < |t| && t[k] == s
  }

  /** Callback f has exactly this timer. */
  ghost predicate HasTimer(t: seq<Slot>, s: Slot) {
    (exists k :: HoldsAt(t, k, s)) && forall k :: 0 <= k < |t| && t[k].cbk == s.cbk ==> t[k] == s
  }

  predicate IsKnown(t: seq<Slot>, f: nat) {
    exists k :: 0 <= k < |t| && t[k].cbk == f
  }

  /** The timers of all callbacks but f are the same. */
  ghost predicate OthersKept(t: seq<Slot>, r: seq<Slot>, f: nat) {
    forall s: Slot :: s.cbk != NO_CBK && s.cbk != f ==> (HasTimer(t, s) <==> HasTimer(r, s))
  }

  lemma FoundIsTimer(t: seq<Slot>, f: nat, s: Slot)
    requires TableOk(t) && f != NO_CBK && s.cbk == f
    ensures HasTimer(t, s) <==> FindCbk(t, f, 0) < |t| && t[FindCbk(t, f, 0)] == s
  {
    var k := FindCbk(t, f, 0);
    if k < |t| && t[k] == s {
      assert HoldsAt(t, k, s);
    }
  }

  // ---------- one call ----------

  /** An addition is refused without a callback, or for a new one when all slots are taken; then nothing changes. */
  lemma AddRefused(t: seq<Slot>, f: nat, arg: int, usec: nat, tick: nat)
    ensures !AddFits(t, f) <==>
              f == NO_CBK || (!IsKnown(t, f) && forall k :: 0 <= k < |t| ==> t[k].cbk != NO_CBK)
    ensures !AddFits(t, f) ==> Add(t, f, arg, usec, tick) == t
  {
  }

  /**
   After an accepted addition the callback has one timer, with the interval and argument
   given last, counting from now; all other timers are as before.
   */
  lemma AddMeans(t: seq<Slot>, f: nat, arg: int, usec: nat, tick: nat)
    requires TableOk(t) && AddFits(t, f) && tick < TICK_LIMIT
    requires forall k :: 0 <= k < |t| && t[k].cbk == f ==> !t[k].inprogress
    ensures
      var r := Add(t, f, arg, usec, tick);
      TableOk(r) && HasTimer(r, Slot(f, usec / US_PER_TICK, tick, arg, false)) && OthersKept(t, r, f)
  {
    var r, s := Add(t, f, arg, usec, tick), Slot(f, usec / US_PER_TICK, tick, arg, false);
    AddKeepsTable(t, f, arg, usec, tick);
    var k := FindCbk(t, f, 0);
    var j := if k < |t| then k else FindCbk(t, NO_CBK, 0);
    assert HoldsAt(r, j, s);
    forall o: Slot | o.cbk != NO_CBK && o.cbk != f ensures HasTimer(t, o) <==> HasTimer(r, o) {
      FoundIsTimer(t, o.cbk, o);
      FoundIsTimer(r, o.cbk, o);
      OtherFoundWhereItWas(t, r, j, o.cbk);
    }
  }

  lemma OtherFoundWhereItWas(t: seq<Slot>, r: seq<Slot>, j: nat, g: nat)
    requires |r| == |t| && j < |t| && t[j].cbk != g && r[j].cbk != g
    requires forall k :: 0 <= k < |t| && k != j ==> r[k] == t[k]
    ensures FindCbk(r, g, 0) == FindCbk(t, g, 0)
  {
  }

  /** After a removal the callback has no timer; all others are as before, in the same order. */
  lemma RemoveMeans(t: seq<Slot>, f: nat)
    requires TableOk(t) && f != NO_CBK
    ensures !IsKnown(Remove(t, f), f) && OthersKept(t, Remove(t, f), f)
    ensures !IsKnown(t, f) ==> Remove(t, f) == t
  {
    var r, k := Remove(t, f), FindCbk(t, f, 0);
    RemoveKeepsTable(t, f);
    forall o: Slot | o.cbk != NO_CBK && o.cbk != f ensures HasTimer(t, o) <==> HasTimer(r, o) {
      FoundIsTimer(t, o.cbk, o);
      FoundIsTimer(r, o.cbk, o);
      if k < |t| {
        OtherMovesDown(t, k, o.cbk);
      }
    }
  }

  lemma OtherMovesDown(t: seq<Slot>, k: nat, g: nat)
    requires TableOk(t) && k < |t| && t[k].cbk != g && g != NO_CBK
    ensures
      var h := FindCbk(t, g, 0);
      FindCbk(ShiftDown(t, k), g, 0) == if h < k || h == |t| then h else h - 1
  {
    var r, h := ShiftDown(t, k), FindCbk(t, g, 0);
    if h < |t| {
      assert r[if h < k then h else h - 1] == t[h];
    }
    forall j | 0 <= j < |t| ensures r[j].cbk == g <==> h < |t| && j == if h < k then h else h - 1 {
      assert j < |t| - 1 ==> r[j] == t[if j < k then j else j + 1];
    }
  }

  // ---------- until the next call ----------

  /** The step neither adds, removes nor fires the timer of f, and is no return of an older call of it. */
  predicate LeavesAlone(m: Machine, s: Step, f: nat)
    requires Enabled(m, s)
  {
    match s
    case Pass(_) => true
    case DoAdd(g, _, _) => g != f
    case DoRemove(g) => g != f
    case Fire(i) => m.table[i].cbk != f
    case Return => m.stack[0].cbk != f
  }

  lemma StepLeavesTimer(m: Machine, s: Step, o: Slot)
    requires TableOk(m.table) && o.cbk != NO_CBK && Enabled(m, s) && LeavesAlone(m, s, o.cbk) && HasTimer(m.table, o)
    ensures HasTimer(Next(m, s).table, o) && m.now <= Next(m, s).now
  {
    NextKeepsTable(m, s);
    FoundIsTimer(m.table, o.cbk, o);
    FoundIsTimer(Next(m, s).table, o.cbk, o);
    match s
    case Pass(_) =>
    case DoAdd(g, _, _) => AddLeavesTimer(m, s, o);
    case DoRemove(g) => RemoveLeavesTimer(m, s, o);
    case Fire(i) => OtherFoundWhereItWas(m.table, Next(m, s).table, i, o.cbk);
    case Return =>
      var j := m.stack[0].slot;
      if j < |m.table| && m.table[j].cbk == m.stack[0].cbk {
        OtherFoundWhereItWas(m.table, Next(m, s).table, j, o.cbk);
      }
  }

  lemma AddLeavesTimer(m: Machine, s: Step, o: Slot)
    requires TableOk(m.table) && o.cbk != NO_CBK && s.DoAdd? && s.f != o.cbk && HasTimer(m.table, o)
    ensures HasTimer(Next(m, s).table, o)
  {
    NextKeepsTable(m, s);
    FoundIsTimer(m.table, o.cbk, o);
    FoundIsTimer(Next(m, s).table, o.cbk, o);
    if AddFits(m.table, s.f) {
      var k := FindCbk(m.table, s.f, 0);
      OtherFoundWhereItWas(m.table, Next(m, s).table, if k < |m.table| then k else FindCbk(m.table, NO_CBK, 0), o.cbk);
    }
  }

  lemma RemoveLeavesTimer(m: Machine, s: Step, o: Slot)
    requires TableOk(m.table) && o.cbk != NO_CBK && s.DoRemove? && s.f != o.cbk && HasTimer(m.table, o)
    ensures HasTimer(Next(m, s).table, o)
  {
    NextKeepsTable(m, s);
    FoundIsTimer(m.table, o.cbk, o);
    FoundIsTimer(Next(m, s).table, o.cbk, o);
    var k := FindCbk(m.table, s.f, 0);
    if k < |m.table| {
      OtherMovesDown(m.table, k, o.cbk);
    }
  }

  /** A stretch of a run after timer_add(f, arg, usec) that leaves the timer of f alone. */
  ghost predicate IsWait(ms: seq<Machine>, steps: seq<Step>, f: nat) {
    |ms| == |steps| + 1 &&
    forall k :: 0 <= k < |steps| ==>
      Enabled(ms[k], steps[k]) && ms[k + 1] == Next(ms[k], steps[k]) && LeavesAlone(ms[k], steps[k], f)
  }

  lemma {:induction false} WaitKeepsTimer(ms: seq<Machine>, steps: seq<Step>, k: nat, o: Slot)
    requires o.cbk != NO_CBK && IsWait(ms, steps, o.cbk) && k < |ms| && TableOk(ms[0].table) && HasTimer(ms[0].table, o)
    ensures TableOk(ms[k].table) && HasTimer(ms[k].table, o) && ms[0].now <= ms[k].now
  {
    if k == 0 {
    } else {
      WaitKeepsTimer(ms, steps, k - 1, o);
      NextKeepsTable(ms[k - 1], steps[k - 1]);
      StepLeavesTimer(ms[k - 1], steps[k - 1], o);
    }
  }

  /**
   A callback that is added, known or new, and not in progress, waits usec / US_PER_TICK ticks:
   whatever happens to other timers meanwhile, within 2^32 ticks its timer is ready exactly
   when they have passed, and then the callback is called with the argument given last.
   */
  lemma AddedFiresWhenDue(m: Machine, f: nat, arg: int, usec: nat, ms: seq<Machine>, steps: seq<Step>, k: nat, i: nat)
    requires TableOk(m.table) && AddFits(m.table, f)
    requires forall j :: 0 <= j < |m.table| && m.table[j].cbk == f ==> !m.table[j].inprogress
    requires IsWait(ms, steps, f) && ms[0] == Next(m, DoAdd(f, arg, usec)) && k < |ms|
    requires ms[k].now < m.now + TICK_LIMIT && i < |ms[k].table| && ms[k].table[i].cbk == f
    ensures IsKnown(ms[k].table, f)
    ensures Ready(ms[k], i) <==> ms[k].now - m.now >= usec / US_PER_TICK
    ensures Ready(ms[k], i) ==>
              Next(ms[k], Fire(i)).log == ms[k].log + [Fired(f, ms[k].now, usec / US_PER_TICK, arg)]
  {
    var o := Slot(f, usec / US_PER_TICK, Ticks(m.now), arg, false);
    AddMeans(m.table, f, arg, usec, Ticks(m.now));
    WaitKeepsTimer(ms, steps, k, o);
    assert ms[k].table[i] == o;
    ReachedFiresWhenDue(ms[k], i, m.now);
  }

  /** And there is such a slot, exactly one. */
  lemma AddedHasSlot(m: Machine, f: nat, arg: int, usec: nat, ms: seq<Machine>, steps: seq<Step>, k: nat)
    returns (i: nat)
    requires TableOk(m.table) && AddFits(m.table, f)
    requires forall j :: 0 <= j < |m.table| && m.table[j].cbk == f ==> !m.table[j].inprogress
    requires IsWait(ms, steps, f) && ms[0] == Next(m, DoAdd(f, arg, usec)) && k < |ms|
    ensures i < |ms[k].table| && forall j :: 0 <= j < |ms[k].table| ==> (ms[k].table[j].cbk == f <==> j == i)
  {
    var o := Slot(f, usec / US_PER_TICK, Ticks(m.now), arg, false);
    AddMeans(m.table, f, arg, usec, Ticks(m.now));
    WaitKeepsTimer(ms, steps, k, o);
    i :| HoldsAt(ms[k].table, i, o);
  }

  // ---------- a pass of the timer task ----------

  /** The calls of the timers that are ready in slots i, i + 1, ... */
  function ReadyCalls(m: Machine, i: nat): seq<Entry>
    requires |m.table| == MAX_TIMERS && i <= MAX_TIMERS
    decreases MAX_TIMERS - i
  {
    if i == MAX_TIMERS then []
    else
      (if Ready(m, i) then [Fired(m.table[i].cbk, m.now, m.table[i].interval, m.table[i].arg)] else []) +
      ReadyCalls(m, i + 1)
  }

  lemma {:induction false} LaterSlotsDecide(m: Machine, n: Machine, i: nat)
    requires |m.table| == |n.table| == MAX_TIMERS && m.now == n.now && i <= MAX_TIMERS
    requires forall k :: i <= k < MAX_TIMERS ==> m.table[k] == n.table[k]
    ensures ReadyCalls(m, i) == ReadyCalls(n, i)
    decreases MAX_TIMERS - i
  {
    if i == MAX_TIMERS {
    } else {
      LaterSlotsDecide(m, n, i + 1);
    }
  }

  lemma {:induction false} NoneBehindGap(m: Machine, i: nat)
    requires |m.table| == MAX_TIMERS && i <= MAX_TIMERS
    requires forall k :: i <= k < MAX_TIMERS ==> m.table[k].cbk == NO_CBK
    ensures ReadyCalls(m, i) == []
    decreases MAX_TIMERS - i
  {
    if i == MAX_TIMERS {
    } else {
      NoneBehindGap(m, i + 1);
    }
  }

  /** The visit of one slot whose callback does nothing: a ready timer is called, and counts from now. */
  lemma IdleVisit(s: Poller, i: nat)
    requires TableOk(s.m.table) && i < MAX_TIMERS && s.m.table[i].cbk != NO_CBK
    ensures
      var n := PollVisit(s, i, Visitor([])).m;
      TableOk(n.table) && n.now == s.m.now && n.stack == s.m.stack &&
      (forall k :: 0 <= k < MAX_TIMERS && k != i ==> n.table[k] == s.m.table[k]) &&
      n.table[i] == (if Ready(s.m, i) then s.m.table[i].(start := Ticks(s.m.now)) else s.m.table[i]) &&
      n.log == s.m.log +
        if Ready(s.m, i) then [Fired(s.m.table[i].cbk, s.m.now, s.m.table[i].interval, s.m.table[i].arg)] else []
  {
    if Ready(s.m, i) {
      var m := Next(s.m, Fire(i));
      assert m.stack[1..] == s.m.stack;
      NextKeepsTable(s.m, Fire(i));
      NextKeepsTable(m, Return);
    }
  }

  lemma OneSlotCalled(m: Machine, n: Machine, i: nat)
    requires |m.table| == |n.table| == MAX_TIMERS && m.now == n.now && i < MAX_TIMERS
    requires forall k :: i < k < MAX_TIMERS ==> m.table[k] == n.table[k]
    requires
      n.log == m.log + if Ready(m, i) then [Fired(m.table[i].cbk, m.now, m.table[i].interval, m.table[i].arg)] else []
    ensures n.log + ReadyCalls(n, i + 1) == m.log + ReadyCalls(m, i)
  {
    LaterSlotsDecide(m, n, i + 1);
  }

  lemma IdleTurn(s: Poller, i: nat) returns (t: Poller)
    requires TableOk(s.m.table) && i < MAX_TIMERS && s.m.table[i].cbk != NO_CBK
    ensures TableOk(t.m.table) && PollWalk(s, Idle(), i) == PollWalk(t, Idle(), i + 1)
    ensures t.m.log + ReadyCalls(t.m, i + 1) == s.m.log + ReadyCalls(s.m, i)
  {
    t := PollVisit(s, i, Visitor([]));
    IdleVisit(s, i);
    OneSlotCalled(s.m, t.m, i);
  }

  /** With callbacks that do nothing, a pass calls exactly the timers that were ready, each once, in slot order. */
  lemma {:induction false} IdlePassCallsReady(s: Poller, i: nat)
    requires TableOk(s.m.table) && i <= MAX_TIMERS
    ensures PollWalk(s, Idle(), i).m.log == s.m.log + ReadyCalls(s.m, i)
    decreases MAX_TIMERS - i
  {
    if i == MAX_TIMERS {
    } else if s.m.table[i].cbk == NO_CBK {
      NoneBehindGap(s.m, i);
    } else {
      var t := IdleTurn(s, i);
      IdlePassCallsReady(t, i + 1);
    }
  }

  /** The timer task does so at its first call in a tick, and nothing at a further one. */
  lemma TaskOncePerTick(s: Poller, visits: seq<Visitor>)
    requires TableOk(s.m.table) && AllSane(visits)
    ensures s.prev != Ticks(s.m.now) ==> PollTask(s, Idle()).m.log == s.m.log + ReadyCalls(s.m, 0)
    ensures PollTask(PollTask(s, Idle()), visits) == PollTask(s, Idle())
    ensures s.prev == Ticks(s.m.now) ==> PollTask(s, visits) == s
  {
    IdlePassCallsReady(s, 0);
  }
}
