/**
 The command history of the line editor (appl/editline/bcma_editline.c): a bounded
 array whose last place readline borrows for the line being typed.
 */
module History {
  const EL_HIST_SIZE := 64

  // ---------- as values ----------

  /** hist_add: the oldest line makes room when the array is full. */
  function Added(h: seq<string>, p: string): (r: seq<string>)
    requires |h| <= EL_HIST_SIZE
    ensures 1 <= |r| <= EL_HIST_SIZE && r[|r| - 1] == p
  {
    if |h| < EL_HIST_SIZE then h + [p] else h[1..] + [p]
  }

  /** readline on a terminal: a scratch entry comes and goes. */
  function AfterReadline(h: seq<string>): seq<string>
    requires |h| <= EL_HIST_SIZE
  {
    Added(h, "")[..|Added(h, "")| - 1]
  }

  /** What happens to the history; input from elsewhere than a terminal bypasses it. */
  datatype Event = ReadTerminal | ReadRedirected | AddLine(line: string) | AddNull

  function After(h: seq<string>, e: Event): (r: seq<string>)
    requires |h| <= EL_HIST_SIZE
    ensures |r| <= EL_HIST_SIZE
  {
    match e
    case ReadTerminal => AfterReadline(h)
    case AddLine(line) => if line == "" then h else Added(h, line)
    case _ => h
  }

  function Replay(events: seq<Event>): (h: seq<string>)
    ensures |h| <= EL_HIST_SIZE
  {
    if events == [] then [] else After(Replay(events[..|events| - 1]), events[|events| - 1])
  }

  /** Every non-empty line added, oldest first. */
  function Lines(events: seq<Event>): seq<string> {
    if events == [] then []
    else
      var last := events[|events| - 1];
      Lines(events[..|events| - 1]) + if last.AddLine? && last.line != "" then [last.line] else []
  }

  /** A line was read from the terminal after the last line was added. */
  predicate ReadSinceAdd(events: seq<Event>) {
    events != [] &&
    var last := events[|events| - 1];
    last.ReadTerminal? || (!(last.AddLine? && last.line != "") && ReadSinceAdd(events[..|events| - 1]))
  }

  function Min(a: nat, b: nat): nat {
    if a < b then a else b
  }

  /** h is the last lines added, as many as fit. */
  predicate IsSuffix(h: seq<string>, lines: seq<string>, read: bool) {
    var n := |lines|;
    |h| == Min(n, if read then EL_HIST_SIZE - 1 else EL_HIST_SIZE) && h == lines[n - |h|..]
  }

  lemma EventKeepsSuffix(h: seq<string>, lines: seq<string>, read: bool, e: Event)
    requires IsSuffix(h, lines, read)
    ensures
      var adds := e.AddLine? && e.line != "";
      IsSuffix(After(h, e), lines + if adds then [e.line] else [], e.ReadTerminal? || (!adds && read))
  {
    if e.AddLine? && e.line != "" {
      var n := |lines|;
      assert (lines + [e.line])[n - |h|..] == h + [e.line];
      assert (lines + [e.line])[n - |h| + 1..] == (h + [e.line])[1..];
    }
  }

  /**
   Over any run the history is the last lines added, as many as fit: 64, or 63 once
   readline has borrowed a place.
   */
  lemma {:induction false} HistoryIsSuffix(events: seq<Event>)
    ensures
      var n := |Lines(events)|;
      |Replay(events)| == Min(n, if ReadSinceAdd(events) then EL_HIST_SIZE - 1 else EL_HIST_SIZE) &&
      Replay(events) == Lines(events)[n - |Replay(events)|..]
  {
    if events == [] {
    } else {
      var before := events[..|events| - 1];
      HistoryIsSuffix(before);
      EventKeepsSuffix(Replay(before), Lines(before), ReadSinceAdd(before), events[|events| - 1]);
    }
  }

  /** In other words: a suffix of length at least min(n, 63) and at most 64. */
  lemma HistoryBounds(events: seq<Event>)
    ensures Min(|Lines(events)|, 63) <= |Replay(events)| <= 64
    ensures exists older :: Lines(events) == older + Replay(events)
  {
    HistoryIsSuffix(events);
    var n := |Lines(events)| - |Replay(events)|;
    assert Lines(events) == Lines(events)[..n] + Replay(events);
  }

  // ---------- in place ----------

  class Buffer {
    const lines: array<string>
    var size: nat
    var pos: int

    ghost predicate Valid()
      reads this
    {
      lines.Length == EL_HIST_SIZE && size <= EL_HIST_SIZE
    }

    ghost function Abs(): (h: seq<string>)
      requires Valid()
      reads this, lines
      ensures |h| <= EL_HIST_SIZE
    {
      lines[..size]
    }

    constructor ()
      ensures Valid() && Abs() == [] && fresh(lines)
    {
      lines := new string[EL_HIST_SIZE](_ => "");
      size, pos := 0, 0;
    }

    /** hist_add */
    method HistAdd(p: string)
      requires Valid()
      modifies this, lines
      ensures Valid() && Abs() == Added(old(Abs()), p) && pos == size - 1
    {
      if size < EL_HIST_SIZE {
        lines[size] := p;
        size := size + 1;
      } else {
        for i := 0 to EL_HIST_SIZE - 1
          invariant size == EL_HIST_SIZE
          invariant forall k :: 0 <= k < i ==> lines[k] == old(lines[k + 1])
          invariant forall k :: i <= k < EL_HIST_SIZE ==> lines[k] == old(lines[k])
        {
          lines[i] := lines[i + 1];
        }
        lines[EL_HIST_SIZE - 1] := p;
      }
      pos := size - 1;
    }

    /** add_history */
    method AddHistory(p: string, isNull: bool)
      requires Valid()
      modifies this, lines
      ensures Valid() && Abs() == After(old(Abs()), if isNull then AddNull else AddLine(p))
    {
      if isNull || p == "" {
        return;
      }
      HistAdd(p);
    }

    /** The parts of readline that touch the history; the moves are what the user typed. */
    method Readline(terminal: bool, moves: seq<Move>)
      requires Valid()
      modifies this, lines
      ensures Valid() && Abs() == After(old(Abs()), if terminal then ReadTerminal else ReadRedirected)
    {
      if !terminal {
        return;
      }
      HistAdd("");
      for i := 0 to |moves|
        invariant Valid() && 0 <= pos < size && Abs() == Added(old(Abs()), "")
      {
        var _ := Go(moves[i]);
      }
      size := size - 1;
      lines[size] := "";
      assert lines[..size] == AfterReadline(old(Abs()));
    }

    /** next_hist, prev_hist, h_first and h_last: the entry gone to, if there is one. */
    method Go(move: Move) returns (line: Shown)
      requires Valid() && 0 <= pos < size
      modifies this`pos
      ensures 0 <= pos < size && pos == Moved(old(pos), size, move)
      ensures line == if (move.Next? && old(pos) == size - 1) || (move.Prev? && old(pos) == 0) then Bell
                      else Entry(lines[pos])
    {
      match move {
        case Next =>
          if pos >= size - 1 { return Bell; }
          pos := pos + 1;
        case Prev =>
          if pos == 0 { return Bell; }
          pos := pos - 1;
        case First =>
          pos := 0;
        case Last =>
          pos := size - 1;
      }
      return Entry(lines[pos]);
    }

    /** do_hist: the move is made once, or as often as the typed count says, and a bell ends it early. */
    method GoRepeated(back: bool, repeat: int) returns (line: Shown)
      requires Valid() && 0 <= pos < size
      modifies this`pos
      ensures
        var n, room := if repeat < 1 then 1 else repeat, if back then old(pos) else size - 1 - old(pos);
        0 <= pos < size &&
        pos == (if n > room then (if back then 0 else size - 1) else if back then old(pos) - n else old(pos) + n) &&
        line == if n > room then Bell else Entry(lines[pos])
    {
      line := Go(if back then Prev else Next);
      var i := 1;
      while line != Bell && i < repeat
        invariant 1 <= i && (i == 1 || i <= repeat) && 0 <= pos < size
        invariant line != Bell ==> pos == (if back then old(pos) - i else old(pos) + i) && line == Entry(lines[pos])
        invariant line == Bell ==>
          pos == (if back then 0 else size - 1) &&
          (if repeat < 1 then 1 else repeat) > if back then old(pos) else size - 1 - old(pos)
        decreases repeat - i, line != Bell
      {
        line := Go(if back then Prev else Next);
        i := i + 1;
      }
    }
  }

  datatype Move = Next | Prev | First | Last

  datatype Shown = Bell | Entry(line: string)

  function Moved(pos: nat, size: nat, move: Move): nat
    requires pos < size
  {
    match move
    case Next => if pos == size - 1 then pos else pos + 1
    case Prev => if pos == 0 then pos else pos - 1
    case First => 0
    case Last => size - 1
  }

  /** The position after going back some entries from the line being typed. */
  function GoneBack(size: nat, times: nat): (pos: nat)
    requires size >= 1
    ensures pos < size
  {
    if times == 0 then size - 1 else Moved(GoneBack(size, times - 1), size, Prev)
  }

  /** Going back i entries from the line being typed shows the i-th latest line. */
  lemma {:induction false} GoingBackShowsLatest(h: seq<string>, i: nat)
    requires |h| <= EL_HIST_SIZE && 1 <= i < |Added(h, "")|
    ensures i <= |h| && Added(h, "")[GoneBack(|Added(h, "")|, i)] == h[|h| - i]
  {
    BackPosition(|Added(h, "")|, i);
  }

  lemma {:induction false} BackPosition(size: nat, i: nat)
    requires size >= 1 && i < size
    ensures GoneBack(size, i) == size - 1 - i
  {
    if i == 0 {
    } else {
      BackPosition(size, i - 1);
    }
  }

  /** The first entry is the oldest line, where going back ends; the last one is the line being typed. */
  lemma EndsOfHistory(h: seq<string>, pos: nat, times: nat)
    requires |h| <= EL_HIST_SIZE && pos < |Added(h, "")|
    ensures
      var shown, size := Added(h, ""), |Added(h, "")|;
      Moved(pos, size, First) < size && Moved(pos, size, Last) < size && shown[Moved(pos, size, Last)] == "" &&
      (h != [] ==> shown[Moved(pos, size, First)] == if |h| < EL_HIST_SIZE then h[0] else h[1]) &&
      (times >= size - 1 ==> GoneBack(size, times) == Moved(pos, size, First))
  {
    BackStopsAtFirst(|Added(h, "")|, times);
  }

  lemma {:induction false} BackStopsAtFirst(size: nat, times: nat)
    requires size >= 1
    ensures times >= size - 1 ==> GoneBack(size, times) == 0
  {
    if times == 0 {
    } else if times == size - 1 {
      BackPosition(size, times);
    } else {
      BackStopsAtFirst(size, times - 1);
    }
  }

  /** Going forward undoes going back, and the other way round, except at the ends, where nothing moves. */
  lemma NextUndoesPrev(pos: nat, size: nat)
    requires pos < size
    ensures pos > 0 ==> Moved(Moved(pos, size, Prev), size, Next) == pos != Moved(pos, size, Prev)
    ensures pos < size - 1 ==> Moved(Moved(pos, size, Next), size, Prev) == pos != Moved(pos, size, Next)
    ensures Moved(0, size, Prev) == 0 && Moved(size - 1, size, Next) == size - 1
  {
  }
}
