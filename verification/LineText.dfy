/**
 The line editor (appl/editline/bcma_editline.c) on plain text: a line, a cursor, a mark
 and the kill buffer as values, and the laws the editing commands obey.
 */
module LineText {
  const NUL := '\0'
  const NO_ARG := -1

  /** No terminator inside. */
  predicate NulFree(s: string) {
    forall i :: 0 <= i < |s| ==> s[i] != NUL
  }

  /** Text and cursor; the mark may lie beyond a text that has shrunk; no kill buffer reads as an empty one. */
  datatype Line = Line(text: string, point: nat, mark: nat, yanked: string)

  predicate CursorInside(l: Line) {
    l.point <= |l.text|
  }

  predicate Wellformed(l: Line) {
    CursorInside(l) && NulFree(l.text) && NulFree(l.yanked)
  }

  /** A typed repeat count, or NO_ARG. */
  type Repeat = r: int | r >= NO_ARG

  datatype Command =
    | InsertChar(c: char, repeat: Repeat)
    | DelChar(repeat: Repeat)
    | BkDelChar(repeat: Repeat)
    | BkChar(repeat: Repeat)
    | FdChar(repeat: Repeat)
    | BegLine
    | EndLine
    | KillLine(repeat: Repeat)
    | KillAll
    | MkSet
    | Exchange(confirmed: bool)
    | Wipe
    | CopyRegion
    | Yank

  // ---------- the commands ----------

  function Insert(l: Line, s: string): Line
    requires CursorInside(l)
  {
    l.(text := l.text[..l.point] + s + l.text[l.point..], point := l.point + |s|)
  }

  function Copies(c: char, n: nat): string {
    if c == NUL then [] else seq(n, _ => c)
  }

  /** How many places a repeated command covers when avail are there. */
  function Times(repeat: int, avail: nat): (n: nat)
    ensures n <= avail
  {
    var n := if repeat < 1 then 1 else repeat;
    if n <= avail then n else avail
  }

  /** A single deleted character does not reach the kill buffer. */
  function Delete(l: Line, count: int): Line
    requires CursorInside(l)
  {
    if count <= 0 then l
    else
      var n := if l.point + count > |l.text| then |l.text| - l.point else count;
      l.(text := l.text[..l.point] + l.text[l.point + n..],
         yanked := if n > 1 then l.text[l.point..l.point + n] else l.yanked)
  }

  /** kill_line with a count to the right of the cursor needs a character under the cursor. */
  predicate Legal(l: Line, cmd: Command) {
    cmd.KillLine? && cmd.repeat > l.point ==> l.point < |l.text|
  }

  function Step(l: Line, cmd: Command): Line
    requires CursorInside(l) && Legal(l, cmd)
  {
    match cmd
    case InsertChar(c, repeat) => Insert(l, Copies(c, if repeat < 2 then 1 else repeat))
    case DelChar(repeat) => Delete(l, if repeat == NO_ARG then 1 else repeat)
    case BkDelChar(repeat) =>
      var n := Times(repeat, l.point);
      Delete(l.(point := l.point - n), n)
    case BkChar(repeat) => l.(point := l.point - Times(repeat, l.point))
    case FdChar(repeat) => l.(point := l.point + Times(repeat, |l.text| - l.point))
    case BegLine => l.(point := 0)
    case EndLine => l.(point := |l.text|)
    case KillLine(repeat) => KillTo(l, repeat)
    case KillAll => KillTo(l.(point := 0), NO_ARG)
    case MkSet => l.(mark := l.point)
    case Exchange(confirmed) => if confirmed && l.mark <= |l.text| then l.(mark := l.point, point := l.mark) else l
    case Wipe => if l.mark > |l.text| then l else Delete(Ordered(l), Ordered(l).mark - Ordered(l).point)
    case CopyRegion => if l.mark > |l.text| then l else l.(yanked := Region(l))
    case Yank => Insert(l, l.yanked)
  }

  /** kill_line; with a count it deletes back to that column, or some places forward. */
  function KillTo(l: Line, repeat: Repeat): Line
    requires CursorInside(l) && (repeat > l.point ==> l.point < |l.text|)
  {
    if repeat == NO_ARG then l.(text := l.text[..l.point], yanked := l.text[l.point..])
    else if repeat < l.point then Delete(l.(point := repeat), l.point - repeat)
    else if repeat > l.point then Delete(l.(point := l.point + 1), repeat - l.point - 2)
    else l
  }

  /** Cursor at the lower end of the region, mark at the upper. */
  function Ordered(l: Line): Line {
    if l.point > l.mark then l.(point := l.mark, mark := l.point) else l
  }

  function Region(l: Line): string
    requires l.point <= |l.text| && l.mark <= |l.text|
  {
    if l.point > l.mark then l.text[l.mark..l.point] else l.text[l.point..l.mark]
  }

  /** A freshly started line; the kill buffer lives on from the line before. */
  predicate Started(l: Line) {
    l.text == "" && l.point == 0 && l.mark == 0 && NulFree(l.yanked)
  }

  ghost predicate IsRun(lines: seq<Line>, cmds: seq<Command>) {
    |lines| == |cmds| + 1 && Started(lines[0]) &&
    forall k :: 0 <= k < |cmds| ==>
      CursorInside(lines[k]) && Legal(lines[k], cmds[k]) && lines[k + 1] == Step(lines[k], cmds[k])
  }

  // ---------- laws ----------

  lemma InsertKeepsShape(l: Line, s: string)
    requires Wellformed(l) && NulFree(s)
    ensures Wellformed(Insert(l, s))
  {
  }

  lemma DeleteKeepsShape(l: Line, count: int)
    requires Wellformed(l)
    ensures Wellformed(Delete(l, count))
  {
  }

  lemma KillToKeepsShape(l: Line, repeat: Repeat)
    requires Wellformed(l) && (repeat > l.point ==> l.point < |l.text|)
    ensures Wellformed(KillTo(l, repeat))
  {
    if repeat == NO_ARG {
    } else if repeat < l.point {
      DeleteKeepsShape(l.(point := repeat), l.point - repeat);
    } else if repeat > l.point {
      DeleteKeepsShape(l.(point := l.point + 1), repeat - l.point - 2);
    }
  }

  lemma BkDelCharKeepsShape(l: Line, repeat: Repeat)
    requires Wellformed(l)
    ensures Wellformed(Step(l, BkDelChar(repeat)))
  {
    DeleteKeepsShape(l.(point := l.point - Times(repeat, l.point)), Times(repeat, l.point));
  }

  lemma WipeKeepsShape(l: Line)
    requires Wellformed(l)
    ensures Wellformed(Step(l, Wipe))
  {
    if l.mark <= |l.text| {
      DeleteKeepsShape(Ordered(l), Ordered(l).mark - Ordered(l).point);
    }
  }

  lemma CopyRegionKeepsShape(l: Line)
    requires Wellformed(l)
    ensures Wellformed(Step(l, CopyRegion))
  {
  }

  /** The commands that only move cursor or mark. */
  predicate Moves(cmd: Command) {
    cmd.BkChar? || cmd.FdChar? || cmd.BegLine? || cmd.EndLine? || cmd.MkSet? || cmd.Exchange?
  }

  lemma MoveKeepsShape(l: Line, cmd: Command)
    requires Wellformed(l) && Moves(cmd)
    ensures Wellformed(Step(l, cmd))
  {
  }

  /** The commands that put something in, or take something out at the cursor. */
  lemma EditKeepsShape(l: Line, cmd: Command)
    requires Wellformed(l) && Legal(l, cmd)
    requires cmd.InsertChar? || cmd.Yank? || cmd.DelChar? || cmd.KillLine? || cmd.KillAll?
    ensures Wellformed(Step(l, cmd))
  {
    match cmd
    case InsertChar(c, repeat) => InsertKeepsShape(l, Copies(c, if repeat < 2 then 1 else repeat));
    case Yank => InsertKeepsShape(l, l.yanked);
    case DelChar(repeat) => DeleteKeepsShape(l, if repeat == NO_ARG then 1 else repeat);
    case KillLine(repeat) => KillToKeepsShape(l, repeat);
    case KillAll => KillToKeepsShape(l.(point := 0), NO_ARG);
  }

  lemma StepKeepsShape(l: Line, cmd: Command)
    requires Wellformed(l) && Legal(l, cmd)
    ensures Wellformed(Step(l, cmd))
  {
    if Moves(cmd) {
      MoveKeepsShape(l, cmd);
    } else if cmd.BkDelChar? {
      BkDelCharKeepsShape(l, cmd.repeat);
    } else if cmd.Wipe? {
      WipeKeepsShape(l);
    } else if cmd.CopyRegion? {
      CopyRegionKeepsShape(l);
    } else {
      EditKeepsShape(l, cmd);
    }
  }

  /** Over any run of commands the cursor stays inside the text, and no terminator gets into it. */
  lemma {:induction false} RunKeepsShape(lines: seq<Line>, cmds: seq<Command>, k: nat)
    requires IsRun(lines, cmds) && k < |lines|
    ensures Wellformed(lines[k])
  {
    if k == 0 {
    } else {
      RunKeepsShape(lines, cmds, k - 1);
      StepKeepsShape(lines[k - 1], cmds[k - 1]);
    }
  }

  /** Kill then yank gives back the text, with the cursor behind it. */
  lemma KillThenYank(l: Line)
    requires CursorInside(l)
    ensures Step(Step(l, KillLine(NO_ARG)), Yank) == l.(point := |l.text|, yanked := l.text[l.point..])
  {
    assert l.text[..l.point] + l.text[l.point..] == l.text;
  }

  /** Deleting a stretch inside the text and yanking gives it back exactly when the kill buffer got it, or held it. */
  lemma DeleteThenYank(l: Line, n: nat)
    requires l.point + n <= |l.text|
    ensures Insert(Delete(l, n), Delete(l, n).yanked).text == l.text <==>
            Delete(l, n).yanked == l.text[l.point..l.point + n]
  {
    YankBack(l.text, l.point, l.point + n, Delete(l, n).yanked);
    if n == 0 {
      YankBack(l.text, l.point, l.point, l.yanked);
      assert l.text[..l.point] + l.text[l.point..] == l.text;
    }
  }

  lemma DeleteClips(l: Line, count: int)
    requires CursorInside(l)
    ensures count <= 0 || l.point == |l.text| ==> Delete(l, count) == l
    ensures l.point + count > |l.text| > l.point ==> Delete(l, count) == Delete(l, |l.text| - l.point)
  {
    assert l.text[..l.point] + l.text[l.point..] == l.text;
  }

  lemma WipedRegionReturns(l: Line)
    requires CursorInside(l) && l.mark <= |l.text|
    ensures Step(Step(l, Wipe), Yank).text == l.text <==> Step(l, Wipe).yanked == Region(l)
    ensures Step(l, Wipe).yanked == if |Region(l)| >= 2 then Region(l) else l.yanked
    ensures |Region(l)| == if l.point > l.mark then l.point - l.mark else l.mark - l.point
  {
    var o := Ordered(l);
    DeleteThenYank(o, o.mark - o.point);
  }

  /** Wipe then yank gives back the text exactly when the region was in the kill buffer afterwards. */
  lemma WipeThenYank(l: Line)
    requires CursorInside(l)
    ensures
      Step(Step(l, Wipe), Yank).text == l.text <==>
      if l.mark > |l.text| || l.mark == l.point then l.yanked == ""
      else |Region(l)| >= 2 || Region(l) == l.yanked
  {
    if l.mark <= |l.text| {
      WipedRegionReturns(l);
    } else {
      DeleteThenYank(l, 0);
    }
  }

  /** Deleting forward and yanking gives back the text exactly when the kill buffer got it. */
  lemma DelCharThenYank(l: Line, repeat: Repeat)
    requires CursorInside(l)
    ensures
      var count := if repeat == NO_ARG then 1 else repeat;
      var n := if count < |l.text| - l.point then count else |l.text| - l.point;
      Step(Step(l, DelChar(repeat)), Yank).text == l.text <==>
      n >= 2 || l.yanked == l.text[l.point..l.point + n]
  {
    var count := if repeat == NO_ARG then 1 else repeat;
    var n := if count < |l.text| - l.point then count else |l.text| - l.point;
    DeleteClips(l, count);
    DeleteThenYank(l, n);
  }

  /** Replacing a stretch leaves the text alone exactly if it is replaced by itself. */
  lemma YankBack(text: string, i: nat, j: nat, s: string)
    requires i <= j <= |text|
    ensures
      var less := text[..i] + text[j..];
      less[..i] + s + less[i..] == text <==> s == text[i..j]
  {
    var less := text[..i] + text[j..];
    assert less[..i] == text[..i] && less[i..] == text[j..];
    var more := text[..i] + s + text[j..];
    assert text[..i] + text[i..j] + text[j..] == text;
    if more == text {
      assert |s| == j - i;
      assert s == more[i..j];
    }
  }

  /** Typing a character some times and erasing it as often leaves text, cursor and mark as they were. */
  lemma InsertThenErase(l: Line, c: char, repeat: Repeat)
    requires CursorInside(l) && c != NUL
    ensures
      var r := Step(Step(l, InsertChar(c, repeat)), BkDelChar(repeat));
      r.text == l.text && r.point == l.point && r.mark == l.mark
      && r.yanked == if repeat < 2 then l.yanked else Copies(c, repeat)
  {
    var s := Copies(c, if repeat < 2 then 1 else repeat);
    var t := Insert(l, s);
    assert Times(repeat, t.point) == |s|;
    assert t.text[..l.point] == l.text[..l.point] && t.text[l.point + |s|..] == l.text[l.point..];
    assert t.text[l.point..l.point + |s|] == s;
    assert l.text[..l.point] + l.text[l.point..] == l.text;
  }

  /** Exchanging cursor and mark twice changes nothing. */
  lemma ExchangeTwice(l: Line)
    requires CursorInside(l)
    ensures Step(Step(l, Exchange(true)), Exchange(true)) == l
  {
  }

  /** Wiping takes what copying copies, except that one character or none does not reach the kill buffer. */
  lemma WipeTakesWhatCopyCopies(l: Line)
    requires CursorInside(l) && l.mark <= |l.text|
    ensures Step(l, Wipe).yanked == Step(l, CopyRegion).yanked <==> |Region(l)| >= 2 || l.yanked == Region(l)
    ensures Step(l, CopyRegion).yanked == Region(l) && Step(l, CopyRegion).text == l.text
    ensures |Region(l)| >= 2 ==> Step(Step(l, Wipe), Yank).text == l.text
  {
    WipeThenYank(l);
  }

  // ---------- moving about ----------

  /** From the beginning of the line to its end: mark and copy take the whole text. */
  lemma CopyWholeLine(l: Line)
    requires CursorInside(l)
    ensures Step(Step(Step(Step(l, BegLine), MkSet), EndLine), CopyRegion) == Line(l.text, |l.text|, 0, l.text)
  {
    assert l.text[0..|l.text|] == l.text;
  }

  function AtLeastOne(repeat: Repeat): nat {
    if repeat < 1 then 1 else repeat
  }

  /** Forward and back again ends where it began, unless the end of the text got in the way. */
  lemma ForthAndBack(l: Line, repeat: Repeat)
    requires CursorInside(l)
    ensures Step(Step(l, FdChar(repeat)), BkChar(repeat)) == l <==>
            l.point + AtLeastOne(repeat) <= |l.text| || l.point == 0
  {
  }

  /** And so does back and forward, unless the beginning got in the way. */
  lemma BackAndForth(l: Line, repeat: Repeat)
    requires CursorInside(l)
    ensures Step(Step(l, BkChar(repeat)), FdChar(repeat)) == l <==>
            AtLeastOne(repeat) <= l.point || l.point == |l.text|
  {
  }

  /** The mark brings the cursor back from wherever it moved, and keeps that place. */
  lemma MarkBringsBack(l: Line, moved: nat)
    requires CursorInside(l) && moved <= |l.text|
    ensures Step(Step(l, MkSet).(point := moved), Exchange(true)) == l.(mark := moved)
  {
  }

  /** Erasing backward is going back and deleting forward. */
  lemma EraseIsBackAndDelete(l: Line, repeat: Repeat)
    requires CursorInside(l)
    ensures
      var n := if AtLeastOne(repeat) <= l.point then AtLeastOne(repeat) else l.point;
      Step(l, BkDelChar(repeat)) == Step(Step(l, BkChar(repeat)), DelChar(n)) &&
      Step(l, BkDelChar(repeat)).text == l.text[..l.point - n] + l.text[l.point..]
  {
  }

  /** Killing the whole line empties it, and yanking gives it back. */
  lemma KillAllThenYank(l: Line)
    requires CursorInside(l)
    ensures Step(l, KillAll).text == [] && Step(l, KillAll).point == 0
    ensures Step(Step(l, KillAll), Yank).text == l.text && Step(Step(l, KillAll), Yank).point == |l.text|
  {
    assert l.text[0..] == l.text;
    assert l.text[..0] + l.text + l.text[..0] == l.text;
  }

  /** Killing to a column on the left takes the stretch between, and the cursor goes there. */
  lemma KillToLeft(l: Line, column: nat)
    requires CursorInside(l) && column < l.point
    ensures
      var r := Step(l, KillLine(column));
      r.text == l.text[..column] + l.text[l.point..] && r.point == column &&
      r.yanked == if l.point - column >= 2 then l.text[column..l.point] else l.yanked
  {
  }

  /** A column on the right: the cursor moves one place, two characters fewer than lie between go, if there are. */
  lemma KillToRight(l: Line, column: nat)
    requires CursorInside(l) && l.point < column && l.point < |l.text|
    ensures
      var r := Step(l, KillLine(column));
      var stop := if column - 1 < l.point + 1 then l.point + 1
                  else if column - 1 < |l.text| then column - 1 else |l.text|;
      r.point == l.point + 1 && r.text == l.text[..l.point + 1] + l.text[stop..] &&
      r.yanked == if stop - l.point - 1 >= 2 then l.text[l.point + 1..stop] else l.yanked
  {
    assert l.text[..l.point + 1] + l.text[l.point + 1..] == l.text;
  }
}
