/** The timer table as kernel/timer.c holds it: an array that its functions fill, shift and stamp in place. */
module TimerTable {
  import opened Timers
  import opened TimerPolls

  class TimerTask {
    const timer: array<Slot>
    var previousTick: nat
    var now: nat
    ghost var stack: seq<Frame>
    ghost var log: seq<Entry>

    ghost predicate Valid()
      reads this, timer
    {
      timer.Length == MAX_TIMERS && TableOk(timer[..])
    }

    ghost function Abs(): Machine
      reads this, timer
    {
      Machine(timer[..], now, stack, log)
    }

    ghost function Polled(): Poller
      reads this, timer
    {
      Poller(Abs(), previousTick)
    }

    /** sys_timer_init, whatever the table held before, at any time. */
    constructor (slots: seq<Slot>, now: nat)
      requires |slots| == MAX_TIMERS && forall k :: 0 <= k < MAX_TIMERS ==> slots[k].start < TICK_LIMIT
      ensures Valid() && Initial(Abs()) && this.now == now && previousTick == Ticks(now)
    {
      timer := new Slot[MAX_TIMERS](i requires 0 <= i < MAX_TIMERS => slots[i].(cbk := NO_CBK));
      this.now, previousTick, stack, log := now, Ticks(now), [], [];
    }

    /** The scan for a callback. */
    method Find(f: nat) returns (k: nat)
      requires timer.Length == MAX_TIMERS
      ensures k == FindCbk(timer[..], f, 0)
    {
      k := 0;
      while k < MAX_TIMERS
        invariant k <= MAX_TIMERS && FindCbk(timer[..], f, 0) == FindCbk(timer[..], f, k)
      {
        if timer[k].cbk == f {
          return;
        }
        k := k + 1;
      }
    }

    /** timer_add */
    method Add(f: nat, arg: int, usec: nat) returns (ok: bool)
      requires Valid()
      modifies this`log, timer
      ensures Valid() && Abs() == Next(old(Abs()), DoAdd(f, arg, usec)) && ok == AddFits(old(timer[..]), f)
    {
      ghost var after := Next(Abs(), DoAdd(f, arg, usec));
      NextKeepsTable(Abs(), DoAdd(f, arg, usec));
      var curr := Ticks(now);
      if f == NO_CBK {
        assert Abs() == after;
        return false;
      }
      var i := Find(f);
      if i < MAX_TIMERS {
        timer[i] := timer[i].(interval := usec / US_PER_TICK, start := curr, arg := arg);
      } else {
        i := Find(NO_CBK);
        if i == MAX_TIMERS {
          assert Abs() == after;
          return false;
        }
        timer[i] := Slot(f, usec / US_PER_TICK, curr, arg, false);
      }
      log := log + [Registered(f)];
      assert Abs() == after;
      return true;
    }

    /** The shift of timer_remove. */
    method MoveDown(k: nat)
      requires timer.Length == MAX_TIMERS && k < MAX_TIMERS
      modifies timer
      ensures timer[..] == ShiftDown(old(timer[..]), k)
    {
      var i := k;
      while i < MAX_TIMERS - 1
        invariant k <= i < MAX_TIMERS
        invariant forall j :: 0 <= j < MAX_TIMERS ==>
          timer[j] == if k <= j < i then old(timer[j + 1]) else old(timer[j])
      {
        timer[i] := timer[i + 1];
        i := i + 1;
      }
      timer[i] := timer[i].(cbk := NO_CBK);
    }

    /** timer_remove */
    method Remove(f: nat)
      requires Valid()
      modifies this`log, timer
      ensures Valid() && Abs() == Next(old(Abs()), DoRemove(f))
    {
      ghost var after := Next(Abs(), DoRemove(f));
      NextKeepsTable(Abs(), DoRemove(f));
      var i := Find(f);
      if i == MAX_TIMERS {
        assert Abs() == after;
        return;
      }
      MoveDown(i);
      log := log + [Unregistered(f)];
      assert Abs() == after;
    }

    /** The visit of one slot up to the call of its callback, if the timer is idle and due. */
    method Begin(i: nat) returns (started: bool, curr: nat)
      requires Valid() && i < MAX_TIMERS && timer[i].cbk != NO_CBK
      modifies this`log, this`stack, timer
      ensures Valid() && curr == Ticks(now) && started == old(Ready(Abs(), i))
      ensures Abs() == if started then Next(old(Abs()), Fire(i)) else old(Abs())
    {
      curr, started := Ticks(now), false;
      if !timer[i].inprogress {
        if timer[i].interval == 0 || Minus32(curr, timer[i].start) >= timer[i].interval {
          NextKeepsTable(Abs(), Fire(i));
          ghost var fired := Next(Abs(), Fire(i));
          stack := [Frame(i, timer[i].cbk, now)] + stack;
          log := log + [Fired(timer[i].cbk, now, timer[i].interval, timer[i].arg)];
          timer[i] := timer[i].(inprogress := true);
          started := true;
          assert Abs() == fired;
        }
      }
    }

    /** The rest of the visit, whatever happened to the table since the callback was called. */
    method Finish(i: nat, cbk: nat, curr: nat)
      requires Valid() && i < MAX_TIMERS && stack != []
      requires stack[0].slot == i && stack[0].cbk == cbk && Ticks(stack[0].at) == curr
      modifies this`stack, timer
      ensures Valid() && Abs() == Next(old(Abs()), Return)
    {
      NextKeepsTable(Abs(), Return);
      ghost var after := Next(Abs(), Return);
      if timer[i].cbk == cbk {
        timer[i] := timer[i].(inprogress := false, start := curr);
      }
      stack := stack[1..];
      assert Abs() == after;
    }

    /** A callback at work: it takes time, adds and removes timers, and polls the timer task. */
    method Run(acts: seq<Act>)
      requires Valid() && Sane(acts)
      modifies this, timer
      ensures Valid() && Polled() == PlayActs(old(Polled()), acts, 0)
      decreases acts, 0
    {
      for k := 0 to |acts|
        invariant Valid() && PlayActs(Polled(), acts, k) == PlayActs(old(Polled()), acts, 0)
      {
        match acts[k] {
          case Do(step) =>
            Call(step);
          case Poll(visits) =>
            Task(visits);
        }
      }
    }

    /** Time passes, or the callback calls timer_add or timer_remove. */
    method Call(step: Step)
      requires Valid() && (step.Pass? || step.DoAdd? || step.DoRemove?)
      modifies this`now, this`log, timer
      ensures Valid() && Abs() == Next(old(Abs()), step)
    {
      match step {
        case Pass(ticks) =>
          now := now + ticks;
        case DoAdd(f, arg, usec) =>
          var _ := Add(f, arg, usec);
        case DoRemove(f) =>
          Remove(f);
      }
    }

    /** The visit of one slot in sys_timer_task, with what its callback does. */
    method VisitSlot(i: nat, v: Visitor)
      requires Valid() && i < MAX_TIMERS && timer[i].cbk != NO_CBK && Sane(v.acts)
      modifies this, timer
      ensures Valid() && Polled() == PollVisit(old(Polled()), i, v)
      decreases v, 0
    {
      var cbk := timer[i].cbk;
      var started, curr := Begin(i);
      if started {
        Run(v.acts);
        Finish(i, cbk, curr);
      }
    }

    /** sys_timer_task, at top level or called again while a callback runs. */
    method Task(visits: seq<Visitor>)
      requires Valid() && AllSane(visits)
      modifies this, timer
      ensures Valid() && Polled() == PollTask(old(Polled()), visits)
      decreases visits, 1
    {
      if previousTick != Ticks(now) {
        Pass(visits);
        previousTick := Ticks(now);
      }
    }

    /** Its loop. */
    method Pass(visits: seq<Visitor>)
      requires Valid() && AllSane(visits)
      modifies this, timer
      ensures Valid() && Polled() == PollWalk(old(Polled()), visits, 0)
      decreases visits, 0
    {
      var i := 0;
      while i < MAX_TIMERS
        invariant i <= MAX_TIMERS && Valid()
        invariant PollWalk(Polled(), visits, i) == PollWalk(old(Polled()), visits, 0)
        decreases MAX_TIMERS - i
      {
        if timer[i].cbk == NO_CBK {
          break;
        }
        VisitSlot(i, visits[i]);
        i := i + 1;
      }
    }
  }
}
