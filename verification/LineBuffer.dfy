/**
 The line editor as appl/editline/bcma_editline.c holds it: a growable array with
 cursor, end and mark, changed in place by each command.
 */
module LineBuffer {
  import opened LineText

  const MEM_INC := 64
  const CTL_X := '\U{0018}'

  lemma CutIsNulFree(s: string, i: nat, j: nat)
    requires i <= j <= |s| && NulFree(s)
    ensures NulFree(s[..i] + s[j..])
  {
  }

  class Editor {
    var buffer: array<char>
    var point: nat
    var end: nat
    var mark: nat
    var yanked: string
    var repeat: Repeat

    /** Room for the terminator, which stands right after the text and nowhere inside. */
    ghost predicate Valid()
      reads this, buffer
    {
      point <= end < buffer.Length && buffer[end] == NUL && NulFree(buffer[..end]) && NulFree(yanked)
    }

    ghost function Abs(): (l: Line)
      requires end < buffer.Length
      reads this, buffer
    {
      Line(buffer[..end], point, mark, yanked)
    }

    /** The first readline call: an empty buffer and kill buffer. */
    constructor ()
      ensures Valid() && Started(Abs()) && yanked == "" && repeat == NO_ARG && fresh(buffer)
    {
      buffer := new char[MEM_INC](_ => NUL);
      point, end, mark, repeat, yanked := 0, 0, 0, NO_ARG, "";
    }

    /** The start of editinput. */
    method Start()
      requires Valid()
      modifies this, buffer
      ensures Valid() && Started(Abs()) && yanked == old(yanked) && repeat == NO_ARG && buffer == old(buffer)
    {
      repeat := NO_ARG;
      point, mark, end := 0, 0, 0;
      buffer[0] := NUL;
    }

    /** The reallocation at the start of insert_string. */
    method MakeRoom(len: nat)
      requires Valid()
      modifies this`buffer
      ensures Valid() && Abs() == old(Abs()) && end + len < buffer.Length
      ensures buffer == old(buffer) || fresh(buffer)
      ensures buffer.Length == old(buffer.Length) + if old(end + len >= buffer.Length) then len + MEM_INC else 0
    {
      if end + len >= buffer.Length {
        var was := buffer;
        var bigger := new char[was.Length + len + MEM_INC];
        for i := 0 to was.Length
          invariant forall k :: 0 <= k < i ==> bigger[k] == was[k]
          modifies bigger
        {
          bigger[i] := was[i];
        }
        buffer := bigger;
      }
    }

    /** Opens a gap of len places at the cursor: the tail moves up, last character first. */
    method OpenGap(len: nat)
      requires point <= end && end + len < buffer.Length
      modifies buffer
      ensures forall k :: 0 <= k < point ==> buffer[k] == old(buffer[k])
      ensures forall k :: point + len <= k < end + len ==> buffer[k] == old(buffer[k - len])
    {
      var i := end - point;
      while i > 0
        invariant 0 <= i <= end - point
        invariant forall k :: 0 <= k < point + i ==> buffer[k] == old(buffer[k])
        invariant forall k :: point + len + i <= k < end + len ==> buffer[k] == old(buffer[k - len])
      {
        i := i - 1;
        buffer[point + len + i] := buffer[point + i];
      }
    }

    /** sal_memcpy of a string to the cursor. */
    method CopyIn(s: string)
      requires point + |s| <= buffer.Length
      modifies buffer
      ensures forall k :: 0 <= k < buffer.Length ==>
                buffer[k] == if point <= k < point + |s| then s[k - point] else old(buffer[k])
    {
      for i := 0 to |s|
        invariant forall k :: 0 <= k < buffer.Length ==>
          buffer[k] == if point <= k < point + i then s[k - point] else old(buffer[k])
      {
        buffer[point + i] := s[i];
      }
    }

    /** The shift and the copy of insert_string. */
    method Splice(s: string)
      requires point <= end && end + |s| < buffer.Length
      modifies buffer
      ensures buffer[..end + |s|] == old(buffer[..end])[..point] + s + old(buffer[..end])[point..]
    {
      OpenGap(|s|);
      CopyIn(s);
    }

    /** insert_string */
    method InsertString(s: string)
      requires Valid() && NulFree(s)
      modifies this, buffer
      ensures Valid() && Abs() == Insert(old(Abs()), s) && repeat == old(repeat)
      ensures buffer == old(buffer) || fresh(buffer)
    {
      InsertKeepsShape(Abs(), s);
      MakeRoom(|s|);
      Splice(s);
      end := end + |s|;
      Terminate(end);
      point := point + |s|;
    }

    method Terminate(i: nat)
      requires i < buffer.Length
      modifies buffer
      ensures buffer[i] == NUL && buffer[..i] == old(buffer[..i])
    {
      buffer[i] := NUL;
    }

    /** save_yank */
    method SaveYank(begin: nat, i: int)
      requires Valid() && begin + i <= end
      modifies this`yanked
      ensures Valid() && Abs() == old(Abs()).(yanked := yanked)
      ensures yanked == if i < 1 then "" else Abs().text[begin..begin + i]
    {
      yanked := "";
      if i < 1 {
        return;
      }
      yanked := buffer[..end][begin..begin + i];
    }

    /** The tail, with its terminator, moves down over the deleted stretch. */
    method CloseGap(count: nat)
      requires point + count <= end < buffer.Length
      modifies buffer
      ensures forall k :: 0 <= k < point ==> buffer[k] == old(buffer[k])
      ensures forall k :: point <= k <= end - count ==> buffer[k] == old(buffer[k + count])
    {
      for p := point to end - count + 1
        invariant forall k :: 0 <= k < point ==> buffer[k] == old(buffer[k])
        invariant forall k :: point <= k < p ==> buffer[k] == old(buffer[k + count])
        invariant forall k :: p <= k < buffer.Length ==> buffer[k] == old(buffer[k])
      {
        buffer[p] := buffer[p + count];
      }
    }

    /** The text without the stretch, and its terminator. */
    method Squeeze(count: nat)
      requires point + count <= end < buffer.Length
      modifies buffer
      ensures buffer[..end - count] == old(buffer[..end])[..point] + old(buffer[..end])[point + count..]
      ensures buffer[end - count] == old(buffer[end])
    {
      CloseGap(count);
    }

    /** Deletes a stretch that lies inside the text. */
    method Cut(count: nat)
      requires Valid() && point + count <= end
      modifies this`end, buffer
      ensures Valid()
      ensures Abs() == old(Abs()).(text := old(Abs()).text[..point] + old(Abs()).text[point + count..])
    {
      CutIsNulFree(buffer[..end], point, point + count);
      Squeeze(count);
      end := end - count;
    }

    /** The common case of deleting the last character. */
    method DropLast()
      requires Valid() && point == end - 1
      modifies this`end, buffer
      ensures Valid() && Abs() == Delete(old(Abs()), 1)
    {
      ghost var text := buffer[..end];
      end := end - 1;
      Terminate(point);
      assert buffer[..end] == text[..point] == text[..point] + text[point + 1..];
    }

    /** The part of delete_string that saves the stretch, if it is longer than one character, and takes it out. */
    method TakeOut(n: nat)
      requires Valid() && 1 <= n && point + n <= end
      modifies this`end, this`yanked, buffer
      ensures Valid() && Abs() == Delete(old(Abs()), n)
    {
      if n > 1 {
        SaveYank(point, n);
      }
      Cut(n);
    }

    /** delete_string */
    method DeleteString(count: int)
      requires Valid()
      modifies this, buffer
      ensures Valid() && Abs() == Delete(old(Abs()), count) && repeat == old(repeat) && buffer == old(buffer)
    {
      DeleteClips(Abs(), count);
      if count <= 0 || end == point {
        return;
      }
      if count == 1 && point == end - 1 {
        DropLast();
        return;
      }
      var n := count;
      if point + n > end {
        n := end - point;
        if n <= 0 {
          return;
        }
      }
      TakeOut(n);
    }

    /** bk_char */
    method BkChar()
      requires Valid()
      modifies this`point
      ensures Valid() && Abs() == Step(old(Abs()), Command.BkChar(repeat))
    {
      var _ := Back();
    }

    /** The loop of bk_char and bk_del_char, with the number of places gone back. */
    method Back() returns (i: nat)
      requires Valid()
      modifies this`point
      ensures i == Times(repeat, old(point)) && point == old(point) - i
    {
      i := 0;
      if point == 0 {
        return;
      }
      point, i := point - 1, 1;
      while i < repeat
        invariant 1 <= i <= Times(repeat, old(point)) && point == old(point) - i
      {
        if point == 0 {
          break;
        }
        point, i := point - 1, i + 1;
      }
    }

    /** fd_char */
    method FdChar()
      requires Valid()
      modifies this`point
      ensures Valid() && Abs() == Step(old(Abs()), Command.FdChar(repeat))
    {
      if point >= end {
        return;
      }
      point := point + 1;
      var i := 1;
      while i < repeat
        invariant 1 <= i <= Times(repeat, end - old(point)) && point == old(point) + i
      {
        if point >= end {
          break;
        }
        point, i := point + 1, i + 1;
      }
    }

    /** beg_line */
    method BegLine()
      requires Valid()
      modifies this`point
      ensures Valid() && Abs() == Step(old(Abs()), Command.BegLine)
    {
      if point != 0 {
        point := 0;
      }
    }

    /** end_line */
    method EndLine()
      requires Valid()
      modifies this`point
      ensures Valid() && Abs() == Step(old(Abs()), Command.EndLine)
    {
      if point != end {
        point := end;
      }
    }

    /** mk_set */
    method MkSet()
      requires Valid()
      modifies this`mark
      ensures Valid() && Abs() == Step(old(Abs()), Command.MkSet)
    {
      mark := point;
    }

    /** exchange, given the key that followed. */
    method Exchange(key: char)
      requires Valid()
      modifies this`point, this`mark
      ensures Valid() && Abs() == Step(old(Abs()), Command.Exchange(key == CTL_X))
    {
      if key != CTL_X {
        return;
      }
      var c := mark;
      if c <= end {
        mark := point;
        point := c;
      }
    }

    /** insert_char: a repeat count of two or more is used up. */
    method InsertChar(c: char)
      requires Valid()
      modifies this, buffer
      ensures Valid() && Abs() == Step(old(Abs()), Command.InsertChar(c, old(repeat)))
      ensures repeat == if old(repeat) < 2 then old(repeat) else 0
      ensures buffer == old(buffer) || fresh(buffer)
    {
      var n := 1;
      if repeat >= 2 {
        n := repeat;
        repeat := 0;
      }
      InsertString(Copies(c, n));
    }

    /** del_char */
    method DelChar()
      requires Valid()
      modifies this, buffer
      ensures Valid() && Abs() == Step(old(Abs()), Command.DelChar(repeat))
      ensures repeat == old(repeat) && buffer == old(buffer)
    {
      DeleteString(if repeat == NO_ARG then 1 else repeat);
    }

    /** bk_del_char */
    method BkDelChar()
      requires Valid()
      modifies this, buffer
      ensures Valid() && Abs() == Step(old(Abs()), Command.BkDelChar(repeat))
      ensures repeat == old(repeat) && buffer == old(buffer)
    {
      var i := Back();
      DeleteString(i);
    }

    /** kill_line */
    method KillLine()
      requires Valid() && Legal(Abs(), Command.KillLine(repeat))
      modifies this, buffer
      ensures Valid() && Abs() == Step(old(Abs()), Command.KillLine(old(repeat)))
      ensures repeat == old(repeat) && buffer == old(buffer)
    {
      if repeat != NO_ARG {
        if repeat < point {
          KillBack();
        } else if repeat > point {
          KillForward();
        }
        return;
      }
      KillTail();
    }

    /** With a count left of the cursor: back to that column. */
    method KillBack()
      requires Valid() && 0 <= repeat < point
      modifies this, buffer
      ensures Valid() && Abs() == KillTo(old(Abs()), old(repeat)) && repeat == old(repeat) && buffer == old(buffer)
    {
      var i := point;
      point := repeat;
      DeleteString(i - point);
    }

    /** With a count right of the cursor: one place on, and two less than the rest of the way is deleted. */
    method KillForward()
      requires Valid() && repeat > point && point < end
      modifies this, buffer
      ensures Valid() && Abs() == KillTo(old(Abs()), old(repeat)) && repeat == old(repeat) && buffer == old(buffer)
    {
      point := point + 1;
      DeleteString(repeat - point - 1);
    }

    /** Without a count: everything behind the cursor. */
    method KillTail()
      requires Valid()
      modifies this`end, this`yanked, buffer
      ensures Valid() && Abs() == KillTo(old(Abs()), NO_ARG)
    {
      SaveYank(point, end - point);
      CutTail();
    }

    /** A terminator at the cursor ends the text there. */
    method CutTail()
      requires Valid()
      modifies this`end, buffer
      ensures Valid() && Abs() == old(Abs()).(text := old(Abs()).text[..point])
    {
      ghost var text := buffer[..end];
      Terminate(point);
      end := point;
      assert text[..point] == buffer[..end];
    }

    /** The kill key of tty_special. */
    method KillAll()
      requires Valid()
      modifies this, buffer
      ensures Valid() && Abs() == Step(old(Abs()), Command.KillAll)
      ensures repeat == NO_ARG && buffer == old(buffer)
    {
      if point != 0 {
        point := 0;
      }
      repeat := NO_ARG;
      KillLine();
    }

    /** wipe */
    method Wipe()
      requires Valid()
      modifies this, buffer
      ensures Valid() && Abs() == Step(old(Abs()), Command.Wipe)
      ensures repeat == old(repeat) && buffer == old(buffer)
    {
      if mark > end {
        return;
      }
      if point > mark {
        var i := point;
        point := mark;
        mark := i;
      }
      DeleteString(mark - point);
    }

    /** copy_region */
    method CopyRegion()
      requires Valid()
      modifies this`yanked
      ensures Valid() && Abs() == Step(old(Abs()), Command.CopyRegion)
    {
      if mark > end {
        return;
      }
      if point > mark {
        SaveYank(mark, point - mark);
      } else {
        SaveYank(point, mark - point);
      }
    }

    /** yank */
    method Yank()
      requires Valid()
      modifies this, buffer
      ensures Valid() && Abs() == Step(old(Abs()), Command.Yank)
      ensures repeat == old(repeat) && (buffer == old(buffer) || fresh(buffer))
    {
      if yanked != "" {
        InsertString(yanked);
      } else {
        assert Abs().text[..point] + "" + Abs().text[point..] == Abs().text;
      }
    }
  }
}
