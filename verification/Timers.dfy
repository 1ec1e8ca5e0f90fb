/**
 The timer table of kernel/timer.c as a machine: timers are added and removed at any
 moment, callbacks start and return, and time passes in ticks that wrap at 32 bits.
 */
module Timers {
  const MAX_TIMERS := 16
  const NO_CBK := 0
  const TICK_LIMIT := 0x1_0000_0000

  type Positive = n: nat | n >= 1 witness 1

  /** sal_get_us_per_tick(): fixed for a board. */
  const US_PER_TICK: Positive

  /** struct timer_t; start is a tick count, so it has 32 bits. */
  datatype Slot = Slot(cbk: nat, interval: nat, start: nat, arg: int, inprogress: bool)

  /** A callback that has not returned: where it was started from, and when. */
  datatype Frame = Frame(slot: nat, cbk: nat, at: nat)

  /** What happened to timers, with true times; a callback is called with its timer's argument. */
  datatype Entry = Fired(cbk: nat, at: nat, interval: nat, arg: int) | Registered(cbk: nat) | Unregistered(cbk: nat)

  datatype Machine = Machine(table: seq<Slot>, now: nat, stack: seq<Frame>, log: seq<Entry>)

  /** sal_get_ticks() at a true time. */
  function Ticks(now: nat): nat {
    now % TICK_LIMIT
  }

  /** Unsigned 32-bit subtraction. */
  function Minus32(a: nat, b: nat): nat
    requires b < TICK_LIMIT
  {
    (a + TICK_LIMIT - b) % TICK_LIMIT
  }

  predicate Due(s: Slot, tick: nat)
    requires s.start < TICK_LIMIT
  {
    s.interval == 0 || Minus32(tick, s.start) >= s.interval
  }

  // ---------- the table operations ----------

  function FindCbk(t: seq<Slot>, f: nat, i: nat): (k: nat)
    requires i <= |t|
    ensures i <= k <= |t|
    ensures k < |t| ==> t[k].cbk == f
    ensures forall j :: i <= j < k ==> t[j].cbk != f
    decreases |t| - i
  {
    if i == |t| || t[i].cbk == f then i else FindCbk(t, f, i + 1)
  }

  predicate AddFits(t: seq<Slot>, f: nat) {
    f != NO_CBK && (FindCbk(t, f, 0) < |t| || FindCbk(t, NO_CBK, 0) < |t|)
  }

  /** timer_add: a known callback is updated, another takes the first empty slot. */
  function Add(t: seq<Slot>, f: nat, arg: int, usec: nat, tick: nat): seq<Slot> {
    if !AddFits(t, f) then t
    else
      var k := FindCbk(t, f, 0);
      if k < |t| then t[k := t[k].(interval := usec / US_PER_TICK, start := tick, arg := arg)]
      else t[FindCbk(t, NO_CBK, 0) := Slot(f, usec / US_PER_TICK, tick, arg, false)]
  }

  /** The later slots move down one place. */
  function ShiftDown(t: seq<Slot>, k: nat): (r: seq<Slot>)
    requires k < |t|
    ensures |r| == |t|
    ensures forall j :: 0 <= j < |t| - 1 ==> r[j] == if j < k then t[j] else t[j + 1]
    ensures r[|t| - 1] == t[|t| - 1].(cbk := NO_CBK)
  {
    t[..k] + t[k + 1..] + [t[|t| - 1].(cbk := NO_CBK)]
  }

  /** timer_remove */
  function Remove(t: seq<Slot>, f: nat): seq<Slot> {
    var k := FindCbk(t, f, 0);
    if k == |t| then t else ShiftDown(t, k)
  }

  // ---------- the machine ----------

  datatype Step = Pass(ticks: nat) | DoAdd(f: nat, arg: int, usec: nat) | DoRemove(f: nat) | Fire(i: nat) | Return

  /** Slot i holds an idle timer that is due. */
  predicate Ready(m: Machine, i: nat) {
    i < |m.table| && m.table[i].cbk != NO_CBK && !m.table[i].inprogress &&
    m.table[i].start < TICK_LIMIT && Due(m.table[i], Ticks(m.now))
  }

  predicate Enabled(m: Machine, s: Step) {
    match s
    case Fire(i) => Ready(m, i)
    case Return => m.stack != []
    case _ => true
  }

  /** The callback of a frame has returned; its slot is updated if it still holds that callback. */
  function Returned(t: seq<Slot>, f: Frame): seq<Slot> {
    if f.slot < |t| && t[f.slot].cbk == f.cbk
    then t[f.slot := t[f.slot].(inprogress := false, start := Ticks(f.at))]
    else t
  }

  function Next(m: Machine, s: Step): Machine
    requires Enabled(m, s)
  {
    match s
    case Pass(ticks) => m.(now := m.now + ticks)
    case DoAdd(f, arg, usec) =>
      m.(table := Add(m.table, f, arg, usec, Ticks(m.now)),
         log := m.log + if AddFits(m.table, f) then [Registered(f)] else [])
    case DoRemove(f) =>
      m.(table := Remove(m.table, f),
         log := m.log + if FindCbk(m.table, f, 0) < |m.table| then [Unregistered(f)] else [])
    case Fire(i) =>
      m.(table := m.table[i := m.table[i].(inprogress := true)],
         stack := [Frame(i, m.table[i].cbk, m.now)] + m.stack,
         log := m.log + [Fired(m.table[i].cbk, m.now, m.table[i].interval, m.table[i].arg)])
    case Return => m.(table := Returned(m.table, m.stack[0]), stack := m.stack[1..])
  }

  /** sys_timer_init; the clock may show anything. */
  predicate Initial(m: Machine) {
    |m.table| == MAX_TIMERS && (forall k :: 0 <= k < MAX_TIMERS ==> m.table[k].cbk == NO_CBK) &&
    (forall k :: 0 <= k < MAX_TIMERS ==> m.table[k].start < TICK_LIMIT) && m.stack == [] && m.log == []
  }

  // ---------- the table is gap-free, with distinct callbacks ----------

  ghost predicate TableOk(t: seq<Slot>) {
    |t| == MAX_TIMERS &&
    (forall k {:trigger t[k]} :: 0 <= k < |t| ==> t[k].start < TICK_LIMIT) &&
    forall j, k :: 0 <= j < k < |t| && t[k].cbk != NO_CBK ==> t[j].cbk != NO_CBK && t[j].cbk != t[k].cbk
  }

  lemma AddKeepsTable(t: seq<Slot>, f: nat, arg: int, usec: nat, tick: nat)
    requires TableOk(t) && tick < TICK_LIMIT
    ensures TableOk(Add(t, f, arg, usec, tick))
  {
  }

  lemma RemoveKeepsTable(t: seq<Slot>, f: nat)
    requires TableOk(t)
    ensures TableOk(Remove(t, f))
  {
    var r := Remove(t, f);
    forall j, k | 0 <= j < k < |r| && r[k].cbk != NO_CBK ensures r[j].cbk != NO_CBK && r[j].cbk != r[k].cbk {
      RemoveKeepsPair(t, f, j, k);
    }
  }

  lemma RemoveKeepsPair(t: seq<Slot>, f: nat, j: nat, k: nat)
    requires TableOk(t) && j < k < |t| && Remove(t, f)[k].cbk != NO_CBK
    ensures Remove(t, f)[j].cbk != NO_CBK && Remove(t, f)[j].cbk != Remove(t, f)[k].cbk
  {
  }

  lemma NextKeepsTable(m: Machine, s: Step)
    requires TableOk(m.table) && Enabled(m, s)
    ensures TableOk(Next(m, s).table)
  {
    match s
    case DoAdd(f, arg, usec) => AddKeepsTable(m.table, f, arg, usec, Ticks(m.now));
    case DoRemove(f) => RemoveKeepsTable(m.table, f);
    case _ =>
  }

  // ---------- wrapping ticks and true time ----------

  /** The 32-bit difference of two tick counts is the true difference, up to whole wraps. */
  lemma TickDifference(now: nat, since: nat)
    requires since <= now
    ensures Minus32(Ticks(now), Ticks(since)) == (now - since) % TICK_LIMIT <= now - since
  {
    var a, b := Ticks(now), Ticks(since);
    var q := now / TICK_LIMIT - since / TICK_LIMIT;
    assert now - since == q * TICK_LIMIT + (a - b);
    if a >= b {
      assert (now - since) % TICK_LIMIT == a - b;
      assert a + TICK_LIMIT - b == TICK_LIMIT + (a - b);
    } else {
      assert now - since == (q - 1) * TICK_LIMIT + (a + TICK_LIMIT - b);
      assert (now - since) % TICK_LIMIT == a + TICK_LIMIT - b;
    }
  }

  /** A timer that is found due has truly waited its interval. */
  lemma DueIsTrue(s: Slot, now: nat, since: nat)
    requires since <= now && s.start == Ticks(since)
    ensures Due(s, Ticks(now)) ==> now - since >= s.interval
  {
    TickDifference(now, since);
  }

  /** Within 2^32 ticks of its start, a timer is found due exactly when its interval has passed. */
  lemma DueIsExact(s: Slot, now: nat, since: nat)
    requires since <= now < since + TICK_LIMIT && s.start == Ticks(since)
    ensures Due(s, Ticks(now)) <==> now - since >= s.interval
  {
    TickDifference(now, since);
  }

  // ---------- consecutive firings are an interval apart ----------

  /** The latest entry about a callback; without one it counts as unregistered. */
  function LastOf(log: seq<Entry>, c: nat): (e: Entry)
    ensures e.cbk == c
  {
    if log == [] then Unregistered(c)
    else if log[|log| - 1].cbk == c then log[|log| - 1]
    else LastOf(log[..|log| - 1], c)
  }

  lemma LastOfMore(log: seq<Entry>, e: Entry, c: nat)
    ensures LastOf(log + [e], c) == if e.cbk == c then e else LastOf(log, c)
  {
    assert (log + [e])[..|log|] == log;
  }

  lemma {:induction false} LastOfIs(log: seq<Entry>, i: nat, c: nat)
    requires i < |log| && log[i].cbk == c && forall k :: i < k < |log| ==> log[k].cbk != c
    ensures LastOf(log, c) == log[i]
    decreases |log|
  {
    if i == |log| - 1 {
    } else {
      LastOfIs(log[..|log| - 1], i, c);
    }
  }

  /** Entry j, a firing, came at least its interval after the firing before, if nothing came between. */
  predicate SpacedAt(log: seq<Entry>, j: nat)
    requires j < |log| && log[j].Fired?
  {
    var e := LastOf(log[..j], log[j].cbk);
    e.Fired? ==> log[j].at >= e.at + log[j].interval
  }

  ghost predicate Spaced(log: seq<Entry>) {
    forall j {:trigger SpacedAt(log, j)} :: 0 <= j < |log| && log[j].Fired? ==> SpacedAt(log, j)
  }

  /** An idle timer counts from its last firing, unless it was added again since. */
  predicate CountsFromLastAt(m: Machine, k: nat)
    requires k < |m.table|
  {
    var e := LastOf(m.log, m.table[k].cbk);
    m.table[k].cbk != NO_CBK && !m.table[k].inprogress && e.Fired? ==> m.table[k].start == Ticks(e.at)
  }

  /** A running callback was last fired for the frame it runs in, or again since. */
  predicate FrameOkAt(m: Machine, i: nat)
    requires i < |m.stack|
  {
    var e := LastOf(m.log, m.stack[i].cbk);
    m.stack[i].at <= m.now && (e.Fired? ==> m.stack[i].at <= e.at)
  }

  ghost predicate ClockOk(m: Machine) {
    TableOk(m.table) && Spaced(m.log) &&
    (forall j :: 0 <= j < |m.log| && m.log[j].Fired? ==> m.log[j].at <= m.now) &&
    (forall k {:trigger CountsFromLastAt(m, k)} :: 0 <= k < |m.table| ==> CountsFromLastAt(m, k)) &&
    (forall i {:trigger FrameOkAt(m, i)} :: 0 <= i < |m.stack| ==> FrameOkAt(m, i))
  }

  /** The slot a call was started from still holds its callback when it returns. */
  predicate FindsItself(t: seq<Slot>, f: Frame) {
    f.slot < |t| && t[f.slot].cbk == f.cbk != NO_CBK
  }

  /** A call returns to the slot that holds its callback, which was fired again since: the start goes back. */
  predicate StaleReturn(m: Machine, s: Step) {
    s.Return? && m.stack != [] && FindsItself(m.table, m.stack[0]) &&
    var e := LastOf(m.log, m.stack[0].cbk);
    e.Fired? && Ticks(e.at) != Ticks(m.stack[0].at)
  }

  lemma LogGrows(log: seq<Entry>, e: Entry)
    requires Spaced(log) && (e.Fired? ==> SpacedAt(log + [e], |log|))
    ensures Spaced(log + [e])
  {
    var more := log + [e];
    forall j | 0 <= j < |more| && more[j].Fired? ensures SpacedAt(more, j) {
      if j < |log| {
        assert more[..j] == log[..j] && more[j] == log[j];
        assert SpacedAt(log, j);
      }
    }
  }

  lemma {:induction false} LastOfIsEntry(log: seq<Entry>, c: nat)
    ensures LastOf(log, c) == Unregistered(c) || LastOf(log, c) in log
  {
    if log == [] || log[|log| - 1].cbk == c {
    } else {
      LastOfIsEntry(log[..|log| - 1], c);
    }
  }

  lemma FireKeepsClock(m: Machine, i: nat)
    requires ClockOk(m) && Ready(m, i)
    ensures ClockOk(Next(m, Fire(i)))
  {
    var n, c := Next(m, Fire(i)), m.table[i].cbk;
    var e := Fired(c, m.now, m.table[i].interval, m.table[i].arg);
    assert n.log[..|m.log|] == m.log;
    assert CountsFromLastAt(m, i);
    LastOfIsEntry(m.log, c);
    var last := LastOf(m.log, c);
    if last.Fired? {
      assert last.at <= m.now;
      DueIsTrue(m.table[i], m.now, last.at);
    }
    LogGrows(m.log, e);
    forall k | 0 <= k < |n.table| ensures CountsFromLastAt(n, k) {
      assert CountsFromLastAt(m, k);
      LastOfMore(m.log, e, n.table[k].cbk);
    }
    forall j | 0 <= j < |n.stack| ensures FrameOkAt(n, j) {
      LastOfMore(m.log, e, n.stack[j].cbk);
      if j > 0 {
        assert n.stack[j] == m.stack[j - 1] && FrameOkAt(m, j - 1);
      }
    }
    NextKeepsTable(m, Fire(i));
  }

  lemma ReturnKeepsClock(m: Machine)
    requires ClockOk(m) && m.stack != []
    ensures ClockOk(Next(m, Return)) <==> !StaleReturn(m, Return)
  {
    var n := Next(m, Return);
    if StaleReturn(m, Return) {
      assert !CountsFromLastAt(n, m.stack[0].slot);
      return;
    }
    forall k | 0 <= k < |n.table| ensures CountsFromLastAt(n, k) {
      assert CountsFromLastAt(m, k);
    }
    forall j | 0 <= j < |n.stack| ensures FrameOkAt(n, j) {
      assert n.stack[j] == m.stack[j + 1] && FrameOkAt(m, j + 1);
    }
  }

  lemma AddKeepsClock(m: Machine, f: nat, arg: int, usec: nat)
    requires ClockOk(m)
    ensures ClockOk(Next(m, DoAdd(f, arg, usec)))
  {
    var n := Next(m, DoAdd(f, arg, usec));
    AddKeepsTable(m.table, f, arg, usec, Ticks(m.now));
    if AddFits(m.table, f) {
      LogGrows(m.log, Registered(f));
      forall k | 0 <= k < |n.table| ensures CountsFromLastAt(n, k) {
        assert CountsFromLastAt(m, k);
        LastOfMore(m.log, Registered(f), n.table[k].cbk);
      }
      forall j | 0 <= j < |n.stack| ensures FrameOkAt(n, j) {
        assert FrameOkAt(m, j);
        LastOfMore(m.log, Registered(f), n.stack[j].cbk);
      }
    } else {
      assert n == m;
    }
  }

  lemma RemoveKeepsClock(m: Machine, f: nat)
    requires ClockOk(m)
    ensures ClockOk(Next(m, DoRemove(f)))
  {
    var n, i := Next(m, DoRemove(f)), FindCbk(m.table, f, 0);
    RemoveKeepsTable(m.table, f);
    if i < |m.table| {
      LogGrows(m.log, Unregistered(f));
      forall k | 0 <= k < |n.table| ensures CountsFromLastAt(n, k) {
        assert k < |m.table| - 1 ==> CountsFromLastAt(m, if k < i then k else k + 1);
        LastOfMore(m.log, Unregistered(f), n.table[k].cbk);
      }
      forall j | 0 <= j < |n.stack| ensures FrameOkAt(n, j) {
        assert FrameOkAt(m, j);
        LastOfMore(m.log, Unregistered(f), n.stack[j].cbk);
      }
    } else {
      assert n == m;
    }
  }

  /** Every step keeps the firings spaced and idle timers counting from the last one, except a stale return. */
  lemma NextKeepsClock(m: Machine, s: Step)
    requires ClockOk(m) && Enabled(m, s)
    ensures ClockOk(Next(m, s)) <==> !StaleReturn(m, s)
  {
    match s
    case Pass(ticks) =>
      var n := Next(m, s);
      forall k | 0 <= k < |n.table| ensures CountsFromLastAt(n, k) { assert CountsFromLastAt(m, k); }
      forall j | 0 <= j < |n.stack| ensures FrameOkAt(n, j) { assert FrameOkAt(m, j); }
    case DoAdd(f, arg, usec) => AddKeepsClock(m, f, arg, usec);
    case DoRemove(f) => RemoveKeepsClock(m, f);
    case Fire(i) => FireKeepsClock(m, i);
    case Return => ReturnKeepsClock(m);
  }

  // ---------- runs ----------

  /** Any interleaving of table calls, callbacks that start and return, and passing time: nested polling too. */
  ghost predicate IsRun(ms: seq<Machine>, steps: seq<Step>) {
    |ms| == |steps| + 1 && Initial(ms[0]) &&
    forall k :: 0 <= k < |steps| ==> Enabled(ms[k], steps[k]) && ms[k + 1] == Next(ms[k], steps[k])
  }

  /** Some run leads to this machine. */
  ghost predicate Reachable(m: Machine) {
    exists ms, steps :: IsRun(ms, steps) && ms[|steps|] == m
  }

  lemma NextReachable(m: Machine, s: Step) returns (n: Machine)
    requires Reachable(m) && Enabled(m, s)
    ensures n == Next(m, s) && Reachable(n)
  {
    var ms, steps :| IsRun(ms, steps) && ms[|steps|] == m;
    n := Next(m, s);
    assert IsRun(ms + [n], steps + [s]);
  }

  ghost predicate NoStaleReturn(ms: seq<Machine>, steps: seq<Step>, k: nat)
    requires |ms| == |steps| + 1 && k <= |steps|
  {
    forall i :: 0 <= i < k ==> !StaleReturn(ms[i], steps[i])
  }

  /** Over any run the timers form a gap-free prefix with distinct callbacks. */
  lemma {:induction false} EveryRunKeepsTable(ms: seq<Machine>, steps: seq<Step>, k: nat)
    requires IsRun(ms, steps) && k < |ms|
    ensures TableOk(ms[k].table)
  {
    if k == 0 {
    } else {
      EveryRunKeepsTable(ms, steps, k - 1);
      NextKeepsTable(ms[k - 1], steps[k - 1]);
    }
  }

  lemma {:induction false} EveryRunKeepsClock(ms: seq<Machine>, steps: seq<Step>, k: nat)
    requires IsRun(ms, steps) && k < |ms| && NoStaleReturn(ms, steps, k)
    ensures ClockOk(ms[k])
  {
    if k == 0 {
    } else {
      EveryRunKeepsClock(ms, steps, k - 1);
      NextKeepsClock(ms[k - 1], steps[k - 1]);
    }
  }

  /** Two firings of a callback with no other entry for it between are its interval apart in true time. */
  lemma ConsecutiveFirings(ms: seq<Machine>, steps: seq<Step>, k: nat, i: nat, j: nat)
    requires IsRun(ms, steps) && k < |ms| && NoStaleReturn(ms, steps, k)
    requires i < j < |ms[k].log| && ms[k].log[i].Fired? && ms[k].log[j].Fired?
    requires ms[k].log[i].cbk == ms[k].log[j].cbk
    requires forall h :: i < h < j ==> ms[k].log[h].cbk != ms[k].log[i].cbk
    ensures ms[k].log[j].at - ms[k].log[i].at >= ms[k].log[j].interval
  {
    EveryRunKeepsClock(ms, steps, k);
    assert SpacedAt(ms[k].log, j);
    LastOfIs(ms[k].log[..j], i, ms[k].log[i].cbk);
  }

  // ---------- runs without re-entry ----------

  predicate Entered(m: Machine, c: nat) {
    exists i :: 0 <= i < |m.stack| && m.stack[i].cbk == c
  }

  /** No callback starts while an earlier call of it is still running. */
  predicate NotReentered(m: Machine, s: Step) {
    s.Fire? && s.i < |m.table| ==> !Entered(m, m.table[s.i].cbk)
  }

  /** A running callback was not fired again since its call. */
  predicate FreshAt(m: Machine, i: nat)
    requires i < |m.stack|
  {
    var e := LastOf(m.log, m.stack[i].cbk);
    e.Fired? ==> e.at == m.stack[i].at
  }

  ghost predicate Fresh(m: Machine) {
    forall i {:trigger FreshAt(m, i)} :: 0 <= i < |m.stack| ==> FreshAt(m, i)
  }

  lemma NextKeepsFresh(m: Machine, s: Step)
    requires Fresh(m) && Enabled(m, s) && NotReentered(m, s)
    ensures Fresh(Next(m, s)) && !StaleReturn(m, s)
  {
    var n := Next(m, s);
    if s.Return? {
      assert FreshAt(m, 0);
    }
    forall i | 0 <= i < |n.stack| ensures FreshAt(n, i) {
      var before := if s.Fire? then i - 1 else if s.Return? then i + 1 else i;
      if before >= 0 {
        assert n.stack[i] == m.stack[before] && FreshAt(m, before);
        assert Entered(m, n.stack[i].cbk);
      }
      if |n.log| > |m.log| {
        assert n.log == m.log + [n.log[|m.log|]];
        LastOfMore(m.log, n.log[|m.log|], n.stack[i].cbk);
      } else {
        assert n.log == m.log;
      }
    }
  }

  ghost predicate NeverReentered(ms: seq<Machine>, steps: seq<Step>, k: nat)
    requires |ms| == |steps| + 1 && k <= |steps|
  {
    forall i :: 0 <= i < k ==> NotReentered(ms[i], steps[i])
  }

  /** If no callback is entered while an earlier call of it runs, no return is stale. */
  lemma {:induction false} NeverReenteredNeverStale(ms: seq<Machine>, steps: seq<Step>, k: nat)
    requires IsRun(ms, steps) && k < |ms| && NeverReentered(ms, steps, k)
    ensures NoStaleReturn(ms, steps, k) && Fresh(ms[k])
  {
    if k == 0 {
    } else {
      NeverReenteredNeverStale(ms, steps, k - 1);
      NextKeepsFresh(ms[k - 1], steps[k - 1]);
    }
  }

  // ---------- firing when due ----------

  /** An idle timer reached within 2^32 ticks of its start fires exactly when its interval has passed. */
  lemma ReachedFiresWhenDue(m: Machine, i: nat, since: nat)
    requires TableOk(m.table) && i < MAX_TIMERS && m.table[i].cbk != NO_CBK && !m.table[i].inprogress
    requires m.table[i].start == Ticks(since) && since <= m.now < since + TICK_LIMIT
    ensures Ready(m, i) <==> m.now - since >= m.table[i].interval
    ensures Ready(m, i) ==>
              Next(m, Fire(i)).log == m.log + [Fired(m.table[i].cbk, m.now, m.table[i].interval, m.table[i].arg)]
  {
    DueIsExact(m.table[i], m.now, since);
  }

  /** Later than that a due timer can be passed over: at a whole number of wraps it looks just started. */
  lemma WrapHidesDueTimer(s: Slot, since: nat)
    requires s.start == Ticks(since) && 0 < s.interval < TICK_LIMIT
    ensures !Due(s, Ticks(since + TICK_LIMIT))
  {
    TickDifference(since + TICK_LIMIT, since);
  }

  // ---------- in progress ----------

  /** No nested polling, and a callback removes only its own or later slots. */
  predicate Calm(m: Machine, s: Step) {
    (s.Fire? ==> m.stack == []) &&
    (s.DoRemove? && m.stack != [] ==> FindCbk(m.table, s.f, 0) >= m.stack[0].slot)
  }

  predicate ActiveAt(m: Machine, k: int) {
    0 <= k < |m.table| && m.table[k].cbk != NO_CBK && m.table[k].inprogress
  }

  /** A slot in progress is the slot of the callback that runs. */
  ghost predicate OnlyRunning(m: Machine) {
    |m.stack| <= 1 &&
    forall k {:trigger ActiveAt(m, k)} :: ActiveAt(m, k) ==>
      m.stack != [] && m.stack[0].slot == k && m.stack[0].cbk == m.table[k].cbk
  }

  lemma ReturnClears(m: Machine, k: int)
    requires TableOk(m.table) && OnlyRunning(m) && m.stack != []
    ensures !ActiveAt(Next(m, Return), k)
  {
    assert ActiveAt(Next(m, Return), k) ==> ActiveAt(m, k);
  }

  lemma CalmKeepsOnlyRunning(m: Machine, s: Step)
    requires TableOk(m.table) && OnlyRunning(m) && Enabled(m, s) && Calm(m, s)
    ensures OnlyRunning(Next(m, s))
  {
    var n := Next(m, s);
    forall k | ActiveAt(n, k)
      ensures n.stack != [] && n.stack[0].slot == k && n.stack[0].cbk == n.table[k].cbk
    {
      match s
      case DoRemove(f) =>
        var i := FindCbk(m.table, f, 0);
        assert ActiveAt(m, if k < i then k else k + 1);
      case Fire(i) =>
        assert i == k || ActiveAt(m, k);
      case Return =>
        ReturnClears(m, k);
      case Pass(_) =>
        assert ActiveAt(m, k);
      case DoAdd(_, _, _) =>
        assert ActiveAt(m, k);
    }
  }

  ghost predicate CalmRun(ms: seq<Machine>, steps: seq<Step>, k: nat)
    requires |ms| == |steps| + 1 && k <= |steps|
  {
    forall i :: 0 <= i < k ==> Calm(ms[i], steps[i])
  }

  lemma {:induction false} CalmRunOnlyRunning(ms: seq<Machine>, steps: seq<Step>, k: nat)
    requires IsRun(ms, steps) && k < |ms| && CalmRun(ms, steps, k)
    ensures OnlyRunning(ms[k])
  {
    if k == 0 {
    } else {
      CalmRunOnlyRunning(ms, steps, k - 1);
      EveryRunKeepsTable(ms, steps, k - 1);
      CalmKeepsOnlyRunning(ms[k - 1], steps[k - 1]);
    }
  }

  /** In a calm run no timer is left in progress once no callback runs. */
  lemma NoneLeftInProgress(ms: seq<Machine>, steps: seq<Step>, k: nat)
    requires IsRun(ms, steps) && k < |ms| && CalmRun(ms, steps, k) && ms[k].stack == []
    ensures |ms[k].table| == MAX_TIMERS
    ensures forall i :: 0 <= i < MAX_TIMERS && ms[k].table[i].cbk != NO_CBK ==> !ms[k].table[i].inprogress
  {
    CalmRunOnlyRunning(ms, steps, k);
    EveryRunKeepsTable(ms, steps, k);
    forall i | 0 <= i < MAX_TIMERS && ms[k].table[i].cbk != NO_CBK ensures !ms[k].table[i].inprogress {
      assert ActiveAt(ms[k], i) || !ms[k].table[i].inprogress;
    }
  }

  /** Whatever a callback adds and removes, only its own timer can be in progress. */
  ghost predicate OnlyOwn(m: Machine) {
    |m.stack| == 1 &&
    forall k {:trigger ActiveAt(m, k)} :: ActiveAt(m, k) ==> m.table[k].cbk == m.stack[0].cbk
  }

  lemma {:induction false} PlayKeepsOnlyOwn(m: Machine, script: seq<Step>)
    requires TableOk(m.table) && OnlyOwn(m) && Plain(script)
    ensures TableOk(Play(m, script).table) && OnlyOwn(Play(m, script))
    decreases |script|
  {
    if script == [] {
    } else {
      var n := Next(m, script[0]);
      NextKeepsTable(m, script[0]);
      forall k | ActiveAt(n, k) ensures n.table[k].cbk == n.stack[0].cbk {
        if script[0].DoRemove? {
          var i := FindCbk(m.table, script[0].f, 0);
          assert ActiveAt(m, if k < i then k else k + 1);
        } else {
          assert ActiveAt(m, k);
        }
      }
      PlayKeepsOnlyOwn(n, script[1..]);
    }
  }

  /** A timer is left in progress exactly if it stands in another slot when its callback returns. */
  lemma ReturnStrandsExactly(m: Machine)
    requires TableOk(m.table) && OnlyOwn(m)
    ensures (exists k :: ActiveAt(Next(m, Return), k)) <==> exists k :: ActiveAt(m, k) && k != m.stack[0].slot
  {
    var n, i := Next(m, Return), m.stack[0].slot;
    forall k ensures ActiveAt(n, k) <==> ActiveAt(m, k) && k != i {
      if ActiveAt(m, k) && k == i {
        assert m.table[k].cbk == m.stack[0].cbk;
      }
    }
  }

  /** A callback that removes an earlier timer moves its own slot away and stays in progress after it returned. */
  lemma EarlierRemovalStrands(m: Machine, f: nat)
    requires TableOk(m.table) && |m.stack| == 1 && ActiveAt(m, m.stack[0].slot)
    requires m.stack[0].cbk == m.table[m.stack[0].slot].cbk && FindCbk(m.table, f, 0) < m.stack[0].slot
    ensures
      var n := Next(Next(m, DoRemove(f)), Return);
      n.stack == [] && n.table[m.stack[0].slot - 1].cbk == m.stack[0].cbk && ActiveAt(n, m.stack[0].slot - 1)
  {
    var t, i := Next(m, DoRemove(f)), m.stack[0].slot;
    RemoveKeepsTable(m.table, f);
    assert t.table[i - 1] == m.table[i];
  }

  /** At some moment of the script a timer before the running one, which is listed, is removed. */
  predicate RemovesEarlier(m: Machine, script: seq<Step>)
    requires Plain(script) && m.stack != []
    decreases |script|
  {
    script != [] &&
    ((script[0].DoRemove? && FindCbk(m.table, script[0].f, 0) < FindCbk(m.table, m.stack[0].cbk, 0) < |m.table|) ||
     RemovesEarlier(Next(m, script[0]), script[1..]))
  }

  /** The running timer is listed in slot j, still in progress. */
  predicate OwnAt(m: Machine, j: nat) {
    m.stack != [] && ActiveAt(m, j) && m.table[j].cbk == m.stack[0].cbk
  }

  lemma OwnIsFound(m: Machine, j: nat)
    requires TableOk(m.table) && OwnAt(m, j)
    ensures FindCbk(m.table, m.stack[0].cbk, 0) == j
  {
  }

  /** One call by the callback: its timer is gone, or has moved down exactly if an earlier one was removed. */
  lemma PlainStepMovesOwn(m: Machine, s: Step, j: nat) returns (to: nat)
    requires TableOk(m.table) && OwnAt(m, j) && (s.Pass? || s.DoAdd? || s.DoRemove?)
    requires s != DoRemove(m.stack[0].cbk)
    ensures OwnAt(Next(m, s), to) && to <= j
    ensures to < j <==> s.DoRemove? && FindCbk(m.table, s.f, 0) < FindCbk(m.table, m.stack[0].cbk, 0)
  {
    OwnIsFound(m, j);
    to := if s.DoRemove? && FindCbk(m.table, s.f, 0) < j then j - 1 else j;
  }

  /** Over the whole script: the running timer is in progress to the end unless the script removes it. */
  lemma {:induction false} PlayMovesOwn(m: Machine, script: seq<Step>, j: nat) returns (to: nat)
    requires TableOk(m.table) && OnlyOwn(m) && OwnAt(m, j) && Plain(script)
    ensures DoRemove(m.stack[0].cbk) !in script ==>
              OwnAt(Play(m, script), to) && to <= j && (to < j <==> RemovesEarlier(m, script))
    decreases |script|
  {
    to := j;
    if DoRemove(m.stack[0].cbk) in script || script == [] {
    } else {
      assert script[0] in script;
      var next := PlainStepMovesOwn(m, script[0], j);
      OwnIsFound(m, j);
      var n := Next(m, script[0]);
      assert Play(m, script[..1]) == n;
      PlayKeepsOnlyOwn(m, script[..1]);
      to := PlayMovesOwn(n, script[1..], next);
    }
  }

  /** Once the running timer is removed, nothing is in progress, whatever is added again. */
  lemma {:induction false} PlayKeepsNone(m: Machine, script: seq<Step>, k: int)
    requires TableOk(m.table) && Plain(script) && forall i :: !ActiveAt(m, i)
    ensures !ActiveAt(Play(m, script), k)
    decreases |script|
  {
    if script == [] {
    } else {
      var n := Next(m, script[0]);
      NextKeepsTable(m, script[0]);
      forall i ensures !ActiveAt(n, i) {
        assert !ActiveAt(m, i) && !ActiveAt(m, i + 1);
      }
      PlayKeepsNone(n, script[1..], k);
    }
  }

  lemma {:induction false} PlayRemovesOwn(m: Machine, script: seq<Step>, j: nat, k: int)
    requires TableOk(m.table) && OnlyOwn(m) && OwnAt(m, j) && Plain(script) && DoRemove(m.stack[0].cbk) in script
    ensures !ActiveAt(Play(m, script), k)
    decreases |script|
  {
    var n := Next(m, script[0]);
    assert Play(m, script[..1]) == n;
    PlayKeepsOnlyOwn(m, script[..1]);
    if script[0] == DoRemove(m.stack[0].cbk) {
      OwnIsFound(m, j);
      forall i ensures !ActiveAt(n, i) {
        assert ActiveAt(n, i) ==> ActiveAt(m, if i < j then i else i + 1);
      }
      PlayKeepsNone(n, script[1..], k);
    } else {
      var next := PlainStepMovesOwn(m, script[0], j);
      PlayRemovesOwn(n, script[1..], next, k);
    }
  }

  /**
   What a callback that does not poll may do: its visit leaves a timer in progress exactly if
   the callback removes an earlier timer and never its own.
   */
  lemma VisitStrandsExactly(m: Machine, i: nat, script: seq<Step>)
    requires TableOk(m.table) && m.stack == [] && OnlyRunning(m) && Ready(m, i) && Plain(script)
    ensures (exists k :: ActiveAt(Visit(m, i, script), k)) <==>
            DoRemove(m.table[i].cbk) !in script && RemovesEarlier(Next(m, Fire(i)), script)
  {
    var f := Next(m, Fire(i));
    var n := Play(f, script);
    NextKeepsTable(m, Fire(i));
    forall k | ActiveAt(f, k) ensures f.table[k].cbk == f.stack[0].cbk {
      assert k == i || ActiveAt(m, k);
    }
    PlayKeepsOnlyOwn(f, script);
    ReturnStrandsExactly(n);
    if DoRemove(m.table[i].cbk) in script {
      forall k ensures !ActiveAt(n, k) {
        PlayRemovesOwn(f, script, i, k);
      }
    } else {
      var to := PlayMovesOwn(f, script, i);
      OwnIsFound(n, to);
      forall k | ActiveAt(n, k) ensures k == to {
        OwnIsFound(n, k);
      }
      assert Visit(m, i, script) == Next(n, Return) && n.stack[0].slot == i;
      assert (exists k :: ActiveAt(n, k) && k != i) <==> to < i;
    }
  }

  // ---------- a callback entered twice ----------

  /** A running callback in the last slot that removes and adds itself can be started again before it returns. */
  lemma RemoveAndAddReenters(m: Machine, arg: int, usec: nat)
    requires TableOk(m.table) && |m.stack| == 1 && ActiveAt(m, m.stack[0].slot)
    requires m.stack[0].cbk == m.table[m.stack[0].slot].cbk
    requires m.stack[0].slot + 1 < MAX_TIMERS ==> m.table[m.stack[0].slot + 1].cbk == NO_CBK
    requires usec / US_PER_TICK < TICK_LIMIT
    ensures
      var c, i := m.stack[0].cbk, m.stack[0].slot;
      var n := Next(Next(Next(m, DoRemove(c)), DoAdd(c, arg, usec)), Pass(usec / US_PER_TICK));
      Ready(n, i) && n.table[i].cbk == c && Entered(n, c) && n.stack == m.stack
  {
    var c, i := m.stack[0].cbk, m.stack[0].slot;
    RemovedSelfLeavesRoom(m.table, c, i);
    var t := Add(Remove(m.table, c), c, arg, usec, Ticks(m.now));
    assert t[i] == Slot(c, usec / US_PER_TICK, Ticks(m.now), arg, false);
    DueIsExact(t[i], m.now + usec / US_PER_TICK, m.now);
    assert m.stack[0].cbk == c;
  }

  lemma RemovedSelfLeavesRoom(t: seq<Slot>, c: nat, i: nat)
    requires TableOk(t) && i < MAX_TIMERS && t[i].cbk == c != NO_CBK
    requires i + 1 < MAX_TIMERS ==> t[i + 1].cbk == NO_CBK
    ensures FindCbk(Remove(t, c), c, 0) == MAX_TIMERS && FindCbk(Remove(t, c), NO_CBK, 0) == i
  {
    assert FindCbk(t, c, 0) == i;
    assert forall j :: i < j < MAX_TIMERS ==> t[j].cbk == NO_CBK;
  }

  // ---------- a stale return ----------

  /** After d more ticks the timer in slot i is ready, and firing it comes too soon after its last firing. */
  ghost predicate TooSoon(m: Machine, i: nat, d: nat) {
    var n := Next(m, Pass(d));
    Ready(n, i) && !Spaced(Next(n, Fire(i)).log)
  }

  lemma TooSoonAt(m: Machine, d: nat)
    requires ClockOk(m) && StaleReturn(m, Return) && m.table[m.stack[0].slot].interval < TICK_LIMIT
    ensures
      var f := m.stack[0];
      var e, v := LastOf(m.log, f.cbk), m.table[f.slot].interval;
      f.at <= e.at <= m.now &&
      (TooSoon(Next(m, Return), f.slot, d) <==>
       m.now + d - e.at < v <= (e.at - f.at) % TICK_LIMIT + (m.now + d - e.at) < TICK_LIMIT)
  {
    var f, n := m.stack[0], Next(Next(m, Return), Pass(d));
    var e, v := LastOf(m.log, f.cbk), m.table[f.slot].interval;
    assert FrameOkAt(m, 0);
    LastOfIsEntry(m.log, f.cbk);
    TickDifference(n.now, f.at);
    var again := Fired(f.cbk, n.now, v, n.table[f.slot].arg);
    assert SpacedAt(m.log + [again], |m.log|) <==> n.now - e.at >= v by {
      assert (m.log + [again])[..|m.log|] == m.log;
    }
    if n.now - e.at >= v {
      LogGrows(m.log, again);
    } else {
      RemainderOfSum(e.at - f.at, n.now - e.at);
    }
  }

  lemma RemainderOfSum(a: nat, x: nat)
    requires x < TICK_LIMIT
    ensures
      var r := a % TICK_LIMIT + x;
      (a + x) % TICK_LIMIT == if r < TICK_LIMIT then r else r - TICK_LIMIT
  {
    var r, q := a % TICK_LIMIT + x, a / TICK_LIMIT;
    assert a + x == q * TICK_LIMIT + r;
    if r >= TICK_LIMIT {
      assert a + x == (q + 1) * TICK_LIMIT + (r - TICK_LIMIT);
    }
  }

  /**
   What a stale return costs: the timer can be fired too soon exactly if its interval since
   the last firing has not passed yet, nor a whole wrap since the start that was put back.
   */
  lemma StaleReturnBreaksSpacing(m: Machine)
    requires ClockOk(m) && StaleReturn(m, Return) && m.table[m.stack[0].slot].interval < TICK_LIMIT
    ensures
      var f := m.stack[0];
      var e, v := LastOf(m.log, f.cbk), m.table[f.slot].interval;
      f.at <= e.at <= m.now &&
      ((exists d: nat :: TooSoon(Next(m, Return), f.slot, d)) <==>
       m.now - e.at < v && (e.at - f.at) % TICK_LIMIT + (m.now - e.at) < TICK_LIMIT)
  {
    var f, n := m.stack[0], Next(m, Return);
    var e, v := LastOf(m.log, f.cbk), m.table[f.slot].interval;
    TooSoonAt(m, 0);
    var since, gap := m.now - e.at, (e.at - f.at) % TICK_LIMIT;
    if d: nat :| TooSoon(n, f.slot, d) {
      TooSoonAt(m, d);
    }
    if since < v && gap + since < TICK_LIMIT {
      assert gap > 0 by {
        TickDifference(e.at, f.at);
      }
      var d: nat := if v <= gap + since then 0 else v - gap - since;
      TooSoonAt(m, d);
      assert TooSoon(n, f.slot, d);
    }
  }

  /** So in any run the spacing law holds up to the first stale return, and this is what that return costs. */
  lemma FirstStaleReturn(ms: seq<Machine>, steps: seq<Step>, k: nat)
    requires IsRun(ms, steps) && k < |steps| && NoStaleReturn(ms, steps, k) && StaleReturn(ms[k], steps[k])
    requires ms[k].table[ms[k].stack[0].slot].interval < TICK_LIMIT
    ensures ms[k + 1] == Next(ms[k], Return) && Spaced(ms[k + 1].log)
    ensures
      var m, f := ms[k], ms[k].stack[0];
      var e, v := LastOf(m.log, f.cbk), m.table[f.slot].interval;
      f.at <= e.at <= m.now &&
      ((exists d: nat :: TooSoon(Next(m, Return), f.slot, d)) <==>
       m.now - e.at < v && (e.at - f.at) % TICK_LIMIT + (m.now - e.at) < TICK_LIMIT)
  {
    EveryRunKeepsClock(ms, steps, k);
    StaleReturnBreaksSpacing(ms[k]);
  }

  function EmptySlots(n: nat): seq<Slot> {
    seq(n, _ => Slot(NO_CBK, 0, 0, 0, false))
  }

  /** A machine whose first slot alone may be in use. */
  function FirstSlot(s: Slot, now: nat, stack: seq<Frame>, log: seq<Entry>): Machine {
    Machine([s] + EmptySlots(MAX_TIMERS - 1), now, stack, log)
  }

  lemma FirstSlotAdds(s: Slot, f: nat, usec: nat, tick: nat)
    requires s.cbk == NO_CBK != f
    ensures AddFits([s] + EmptySlots(MAX_TIMERS - 1), f)
    ensures Add([s] + EmptySlots(MAX_TIMERS - 1), f, 0, usec, tick) ==
            [Slot(f, usec / US_PER_TICK, tick, 0, false)] + EmptySlots(MAX_TIMERS - 1)
  {
    var t := [s] + EmptySlots(MAX_TIMERS - 1);
    assert FindCbk(t, NO_CBK, 0) == 0;
    assert FindCbk(t, f, 0) == MAX_TIMERS;
  }

  lemma FirstSlotRemoves(s: Slot)
    requires s.cbk != NO_CBK
    ensures FindCbk([s] + EmptySlots(MAX_TIMERS - 1), s.cbk, 0) == 0
    ensures Remove([s] + EmptySlots(MAX_TIMERS - 1), s.cbk) == EmptySlots(MAX_TIMERS)
    ensures EmptySlots(MAX_TIMERS) == [Slot(NO_CBK, 0, 0, 0, false)] + EmptySlots(MAX_TIMERS - 1)
  {
  }

  /** Callback 1, added with an interval of two ticks, starts when they have passed. */
  lemma EmptyTableStarts(now: nat, stack: seq<Frame>, log: seq<Entry>)
    requires now < 100
    ensures
      var m := FirstSlot(Slot(NO_CBK, 0, 0, 0, false), now, stack, log);
      var n := Next(Next(m, DoAdd(1, 0, 2 * US_PER_TICK)), Pass(2));
      Ready(n, 0) &&
      Next(n, Fire(0)) == FirstSlot(Slot(1, 2, now, 0, true), now + 2, [Frame(0, 1, now + 2)] + stack,
                                    log + [Registered(1)] + [Fired(1, now + 2, 2, 0)])
  {
    var none := Slot(NO_CBK, 0, 0, 0, false);
    FirstSlotAdds(none, 1, 2 * US_PER_TICK, now);
    assert Next(Next(FirstSlot(none, now, stack, log), DoAdd(1, 0, 2 * US_PER_TICK)), Pass(2)) ==
           FirstSlot(Slot(1, 2, now, 0, false), now + 2, stack, log + [Registered(1)]);
  }

  lemma StartReachable(m: Machine)
    requires Reachable(m)
    ensures
      var n := Next(Next(m, DoAdd(1, 0, 2 * US_PER_TICK)), Pass(2));
      Ready(n, 0) ==> Reachable(Next(n, Fire(0)))
  {
    var n := NextReachable(m, DoAdd(1, 0, 2 * US_PER_TICK));
    n := NextReachable(n, Pass(2));
    if Ready(n, 0) {
      n := NextReachable(n, Fire(0));
    }
  }

  lemma RestartReachable(s: Slot, now: nat, stack: seq<Frame>, log: seq<Entry>)
    requires Reachable(FirstSlot(s, now, stack, log)) && s.cbk == 1 && now < 100
    ensures Reachable(FirstSlot(Slot(1, 2, now, 0, true), now + 2, [Frame(0, 1, now + 2)] + stack,
                                log + [Unregistered(1)] + [Registered(1)] + [Fired(1, now + 2, 2, 0)]))
  {
    FirstSlotRemoves(s);
    var m := NextReachable(FirstSlot(s, now, stack, log), DoRemove(1));
    assert m == FirstSlot(Slot(NO_CBK, 0, 0, 0, false), now, stack, log + [Unregistered(1)]);
    EmptyTableStarts(now, stack, log + [Unregistered(1)]);
    StartReachable(m);
  }

  /** Both calls return, the outer one last, and the timer is fired again at once. */
  lemma ReturnsThenFires(log: seq<Entry>)
    requires log != [] && log[|log| - 1] == Fired(1, 4, 2, 0)
    ensures
      var m := FirstSlot(Slot(1, 2, 2, 0, true), 4, [Frame(0, 1, 4), Frame(0, 1, 2)], log);
      var n := Next(Next(m, Return), Return);
      Ready(n, 0) && !Spaced(Next(n, Fire(0)).log)
  {
    var m := FirstSlot(Slot(1, 2, 2, 0, true), 4, [Frame(0, 1, 4), Frame(0, 1, 2)], log);
    var n := Next(Next(Next(m, Return), Return), Fire(0));
    assert n.log == log + [Fired(1, 4, 2, 0)] && n.log[..|log|] == log;
    assert !SpacedAt(n.log, |log|);
  }

  /**
   A run in which the spacing fails: the callback, once fired, removes and adds itself, is
   fired again two ticks later by a nested poll, and the outer call returns last.
   */
  lemma StaleReturnRun() returns (m: Machine)
    ensures Reachable(m) && !Spaced(m.log)
  {
    m := FirstSlot(Slot(NO_CBK, 0, 0, 0, false), 0, [], []);
    assert IsRun([m], []);
    EmptyTableStarts(0, [], []);
    StartReachable(m);
    var log := [] + [Registered(1)] + [Fired(1, 2, 2, 0)];
    RestartReachable(Slot(1, 2, 0, 0, true), 2, [Frame(0, 1, 2)] + [], log);
    log := log + [Unregistered(1)] + [Registered(1)] + [Fired(1, 4, 2, 0)];
    m := FirstSlot(Slot(1, 2, 2, 0, true), 4, [Frame(0, 1, 4)] + ([Frame(0, 1, 2)] + []), log);
    assert m.stack == [Frame(0, 1, 4), Frame(0, 1, 2)];
    ReturnsThenFires(log);
    m := NextReachable(m, Return);
    m := NextReachable(m, Return);
    m := NextReachable(m, Fire(0));
  }

  // ---------- one pass of the timer task ----------

  /** What a callback may do here: take time, add and remove timers. It does not poll. */
  predicate Plain(script: seq<Step>) {
    forall k :: 0 <= k < |script| ==> script[k].Pass? || script[k].DoAdd? || script[k].DoRemove?
  }

  function Play(m: Machine, script: seq<Step>): (n: Machine)
    requires Plain(script)
    ensures n.stack == m.stack && (|m.table| == MAX_TIMERS ==> |n.table| == MAX_TIMERS)
    decreases |script|
  {
    if script == [] then m else Play(Next(m, script[0]), script[1..])
  }

  /** The visit of slot i in sys_timer_task, with what its callback would do. */
  function Visit(m: Machine, i: nat, script: seq<Step>): (n: Machine)
    requires Plain(script) && |m.table| == MAX_TIMERS
    ensures n.stack == m.stack && |n.table| == MAX_TIMERS
  {
    if Ready(m, i) then Next(Play(Next(m, Fire(i)), script), Return) else m
  }

  /** The loop of sys_timer_task from slot i on; it ends at the first empty slot. */
  function Walk(m: Machine, scripts: seq<seq<Step>>, i: nat): (n: Machine)
    requires |m.table| == MAX_TIMERS == |scripts| && i <= MAX_TIMERS
    requires forall k :: 0 <= k < |scripts| ==> Plain(scripts[k])
    ensures n.stack == m.stack && |n.table| == MAX_TIMERS
    decreases MAX_TIMERS - i
  {
    if i == MAX_TIMERS || m.table[i].cbk == NO_CBK then m else Walk(Visit(m, i, scripts[i]), scripts, i + 1)
  }

  /** During this script no timer before the running one is removed. */
  predicate PoliteScript(m: Machine, script: seq<Step>)
    requires Plain(script)
    decreases |script|
  {
    script == [] || (Calm(m, script[0]) && PoliteScript(Next(m, script[0]), script[1..]))
  }

  predicate PoliteWalk(m: Machine, scripts: seq<seq<Step>>, i: nat)
    requires |m.table| == MAX_TIMERS == |scripts| && i <= MAX_TIMERS
    requires forall k :: 0 <= k < |scripts| ==> Plain(scripts[k])
    decreases MAX_TIMERS - i
  {
    i == MAX_TIMERS || m.table[i].cbk == NO_CBK ||
    ((Ready(m, i) ==> PoliteScript(Next(m, Fire(i)), scripts[i])) &&
     PoliteWalk(Visit(m, i, scripts[i]), scripts, i + 1))
  }

  lemma {:induction false} PlayKeeps(m: Machine, script: seq<Step>)
    requires ClockOk(m) && Fresh(m) && Plain(script)
    ensures ClockOk(Play(m, script)) && Fresh(Play(m, script))
    ensures OnlyRunning(m) && PoliteScript(m, script) ==> OnlyRunning(Play(m, script))
    decreases |script|
  {
    if script == [] {
    } else {
      NextKeepsClock(m, script[0]);
      NextKeepsFresh(m, script[0]);
      if OnlyRunning(m) && PoliteScript(m, script) {
        CalmKeepsOnlyRunning(m, script[0]);
      }
      PlayKeeps(Next(m, script[0]), script[1..]);
    }
  }

  lemma VisitKeeps(m: Machine, i: nat, script: seq<Step>)
    requires ClockOk(m) && m.stack == [] && Plain(script)
    ensures ClockOk(Visit(m, i, script))
    ensures OnlyRunning(m) && (Ready(m, i) ==> PoliteScript(Next(m, Fire(i)), script)) ==>
              OnlyRunning(Visit(m, i, script))
  {
    if Ready(m, i) {
      NextKeepsClock(m, Fire(i));
      NextKeepsFresh(m, Fire(i));
      var f := Next(m, Fire(i));
      PlayKeeps(f, script);
      NextKeepsFresh(Play(f, script), Return);
      NextKeepsClock(Play(f, script), Return);
      if OnlyRunning(m) && PoliteScript(f, script) {
        CalmKeepsOnlyRunning(m, Fire(i));
        CalmKeepsOnlyRunning(Play(f, script), Return);
      }
    }
  }

  /**
   A pass of the timer task keeps the table gap-free and the firings spaced; if no callback
   removes an earlier timer, it leaves no timer in progress.
   */
  lemma {:induction false} WalkKeeps(m: Machine, scripts: seq<seq<Step>>, i: nat)
    requires ClockOk(m) && m.stack == [] && |scripts| == MAX_TIMERS && i <= MAX_TIMERS
    requires forall k :: 0 <= k < |scripts| ==> Plain(scripts[k])
    ensures ClockOk(Walk(m, scripts, i))
    ensures OnlyRunning(m) && PoliteWalk(m, scripts, i) ==> OnlyRunning(Walk(m, scripts, i))
    decreases MAX_TIMERS - i
  {
    if i == MAX_TIMERS || m.table[i].cbk == NO_CBK {
    } else {
      VisitKeeps(m, i, scripts[i]);
      WalkKeeps(Visit(m, i, scripts[i]), scripts, i + 1);
    }
  }
}
