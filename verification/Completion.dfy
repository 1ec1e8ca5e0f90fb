/** Word completion of the line editor (el_complete in appl/editline/bcma_editline.c). */
module Completion {
  import opened LineText

  datatype Completion = Nothing | Insert(s: string)

  /** Character i of a terminated string. */
  function CharAt(s: string, i: nat): char
    requires i <= |s|
  {
    if i < |s| then s[i] else NUL
  }

  predicate CommonPrefix(p: string, candidates: seq<string>) {
    forall j :: 0 <= j < |candidates| ==> p <= candidates[j]
  }

  /** The longest common prefix, as a property. */
  ghost predicate LongestCommonPrefix(p: string, candidates: seq<string>) {
    CommonPrefix(p, candidates) && forall q :: CommonPrefix(q, candidates) ==> q <= p
  }

  /** The inner loop: candidates 1, 2, ... have the same character i as candidate 0. */
  method AllAgree(candidates: seq<string>, i: nat) returns (agree: bool)
    requires |candidates| >= 1 && i < |candidates[0]| && NulFree(candidates[0])
    requires CommonPrefix(candidates[0][..i], candidates)
    ensures agree <==> CommonPrefix(candidates[0][..i + 1], candidates)
  {
    var first := candidates[0];
    for j := 1 to |candidates|
      invariant forall h :: 0 <= h < j ==> first[..i + 1] <= candidates[h]
    {
      var other := candidates[j];
      assert first[..i] <= other;
      if first[i] != CharAt(other, i) {
        assert !(first[..i + 1] <= other) by {
          assert first[..i + 1][i] == first[i];
        }
        return false;
      }
      assert first[..i + 1] == first[..i] + [first[i]];
    }
    return true;
  }

  /**
   el_complete without the listing, for candidates that all start with the typed text.
   One candidate is completed and followed by the append character. Several are completed
   to their longest common prefix, and nothing is inserted exactly when that is the text.
   */
  method Complete(text: string, candidates: seq<string>, append: char)
    returns (c: Completion, unique: bool)
    requires CommonPrefix(text, candidates)
    requires forall j :: 0 <= j < |candidates| ==> NulFree(candidates[j])
    ensures candidates == [] ==> c == Nothing
    ensures |candidates| == 1 ==> unique && c.Insert? && text + c.s == candidates[0] + [append]
    ensures |candidates| >= 2 ==>
              !unique && LongestCommonPrefix(text + (if c.Insert? then c.s else ""), candidates)
    ensures |candidates| >= 2 ==> (c == Nothing <==> LongestCommonPrefix(text, candidates))
    ensures c.Insert? ==> c.s != ""
  {
    c, unique := Nothing, false;
    if |candidates| == 1 {
      return Insert(candidates[0][|text|..] + [append]), true;
    }
    if |candidates| >= 2 {
      var first := candidates[0];
      var i := |text|;
      assert first[..i] == text;
      while i < |first|
        invariant |text| <= i <= |first| && CommonPrefix(first[..i], candidates)
      {
        var agree := AllAgree(candidates, i);
        if !agree {
          break;
        }
        i := i + 1;
      }
      StoppedAtLongest(candidates, i);
      assert first[..i] == text + first[|text|..i];
      if i > |text| {
        c := Insert(first[|text|..i]);
        LongerIsNotLongest(first[..i], text, candidates);
      }
    }
  }

  /** The scan stops at the first disagreement, or at the end of the first candidate. */
  lemma StoppedAtLongest(candidates: seq<string>, i: nat)
    requires |candidates| >= 1 && i <= |candidates[0]| && CommonPrefix(candidates[0][..i], candidates)
    requires i < |candidates[0]| ==> !CommonPrefix(candidates[0][..i + 1], candidates)
    ensures LongestCommonPrefix(candidates[0][..i], candidates)
  {
    forall q | CommonPrefix(q, candidates) ensures q <= candidates[0][..i] {
      assert q <= candidates[0];
      if |q| > i {
        PrefixesAreCommon(q, candidates, i + 1);
      }
    }
  }

  lemma PrefixesAreCommon(q: string, candidates: seq<string>, i: nat)
    requires |candidates| >= 1 && CommonPrefix(q, candidates) && i <= |q|
    ensures i <= |candidates[0]| && CommonPrefix(candidates[0][..i], candidates)
  {
    assert q <= candidates[0] && candidates[0][..i] == q[..i];
    forall j | 0 <= j < |candidates| ensures candidates[0][..i] <= candidates[j] {
      assert q <= candidates[j];
    }
  }

  lemma LongerIsNotLongest(p: string, q: string, candidates: seq<string>)
    requires LongestCommonPrefix(p, candidates) && |q| < |p|
    ensures !LongestCommonPrefix(q, candidates)
  {
    assert CommonPrefix(p, candidates) && !(p <= q);
  }
}
