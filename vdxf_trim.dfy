/**
 * The trimming helpers of the VDXF name code: removing a run of one byte
 * from either end of a string, and `TrimSpaces`, which decides which code
 * points of a name are misplaced spaces or invalid characters and rebuilds
 * the name without them.
 */
module VdxfTrim {
  import opened Strings
  import opened Hashing
  import opened Utf8

  /**
   * `nameCopy[i] != ch` compares a (signed) `char` with an `unsigned char`
   * after promotion to `int`: a byte at or above 0x80 reads as negative
   * and never equals `ch`, so only bytes below 0x80 can match.
   */
  predicate Matches(b: byte, ch: byte)
  {
    ch < 0x80 && b == ch
  }

  /** The string without its maximal leading run of `ch`. */
  function LeadingTrimmed(s: Bytes, ch: byte): Bytes
  {
    if s != [] && Matches(s[0], ch) then LeadingTrimmed(s[1..], ch) else s
  }

  /** The string without its maximal trailing run of `ch`. */
  function TrailingTrimmed(s: Bytes, ch: byte): Bytes
  {
    if s != [] && Matches(s[|s| - 1], ch) then TrailingTrimmed(s[..|s| - 1], ch) else s
  }

  /** `TrimLeading`: counts the leading bytes equal to `ch`, then erases them. */
  method TrimLeading(name: Bytes, ch: byte) returns (r: Bytes)
    ensures |r| <= |name| && r == name[|name| - |r|..]
    ensures forall k :: 0 <= k < |name| - |r| ==> Matches(name[k], ch)
    ensures r == [] || !Matches(r[0], ch)
  {
    var removeSpaces := 0;
    while removeSpaces < |name|
      invariant 0 <= removeSpaces <= |name|
      invariant forall k :: 0 <= k < removeSpaces ==> Matches(name[k], ch)
    {
      if !Matches(name[removeSpaces], ch) {
        break;
      }
      removeSpaces := removeSpaces + 1;
    }
    r := name;
    if removeSpaces != 0 {
      r := name[removeSpaces..];
    }
  }

  /**
   * `TrimTrailing`: finds the last byte other than `ch` (index -1 when there
   * is none) and resizes to just after it.
   */
  method TrimTrailing(name: Bytes, ch: byte) returns (r: Bytes)
    ensures |r| <= |name| && r == name[..|r|]
    ensures forall k :: |r| <= k < |name| ==> Matches(name[k], ch)
    ensures r == [] || !Matches(r[|r| - 1], ch)
  {
    var removeSpaces := |name| - 1;
    while removeSpaces >= 0
      invariant -1 <= removeSpaces < |name|
      invariant forall k :: removeSpaces < k < |name| ==> Matches(name[k], ch)
    {
      if !Matches(name[removeSpaces], ch) {
        break;
      }
      removeSpaces := removeSpaces - 1;
    }
    r := name[..|name| - ((|name| - 1) - removeSpaces)];
  }

  /** The three properties `TrimLeading` ensures pin down `LeadingTrimmed`. */
  lemma {:induction false} LeadingTrimmedUnique(s: Bytes, ch: byte, r: Bytes)
    requires |r| <= |s| && r == s[|s| - |r|..]
    requires forall k :: 0 <= k < |s| - |r| ==> Matches(s[k], ch)
    requires r == [] || !Matches(r[0], ch)
    ensures r == LeadingTrimmed(s, ch)
  {
    if |r| < |s| {
      assert Matches(s[0], ch);
      assert s[1..][|s| - 1 - |r|..] == s[|s| - |r|..];
      LeadingTrimmedUnique(s[1..], ch, r);
    } else {
      assert r == s;
    }
  }

  /** The three properties `TrimTrailing` ensures pin down `TrailingTrimmed`. */
  lemma {:induction false} TrailingTrimmedUnique(s: Bytes, ch: byte, r: Bytes)
    requires |r| <= |s| && r == s[..|r|]
    requires forall k :: |r| <= k < |s| ==> Matches(s[k], ch)
    requires r == [] || !Matches(r[|r| - 1], ch)
    ensures r == TrailingTrimmed(s, ch)
  {
    if |r| < |s| {
      assert Matches(s[|s| - 1], ch);
      assert s[..|s| - 1][..|r|] == r;
      TrailingTrimmedUnique(s[..|s| - 1], ch, r);
    } else {
      assert r == s;
    }
  }

  /** Trimming leading `ch` twice is the same as trimming once, and nothing of the rest starts with `ch`. */
  lemma {:induction false} LeadingTrimmedIdempotent(s: Bytes, ch: byte)
    ensures var r := LeadingTrimmed(s, ch);
            LeadingTrimmed(r, ch) == r && (r == [] || !Matches(r[0], ch))
  {
    if s != [] && Matches(s[0], ch) {
      LeadingTrimmedIdempotent(s[1..], ch);
    }
  }

  /** Trimming trailing `ch` twice is the same as trimming once, and nothing of the rest ends with `ch`. */
  lemma {:induction false} TrailingTrimmedIdempotent(s: Bytes, ch: byte)
    ensures var r := TrailingTrimmed(s, ch);
            TrailingTrimmed(r, ch) == r && (r == [] || !Matches(r[|r| - 1], ch))
  {
    if s != [] && Matches(s[|s| - 1], ch) {
      TrailingTrimmedIdempotent(s[..|s| - 1], ch);
    }
  }

  /** A string made only of `ch` (or empty) trims to nothing at either end. */
  lemma {:induction false} AllMatchingTrimsToEmpty(s: Bytes, ch: byte)
    requires forall k :: 0 <= k < |s| ==> Matches(s[k], ch)
    ensures LeadingTrimmed(s, ch) == [] && TrailingTrimmed(s, ch) == []
  {
    if s != [] {
      AllMatchingTrimsToEmpty(s[1..], ch);
      AllMatchingTrimsToEmpty(s[..|s| - 1], ch);
    }
  }

  /** The characters `TrimSpaces` also treats as invalid when asked to remove dual spaces. */
  const CONTROL_CHARS: string := "\n\t\r\U{8}\t\U{B}\U{C}\U{1B}"

  /** The space characters `TrimSpaces` handles when asked to remove dual spaces. */
  const DUAL_SPACES: string :=
    "\U{20}\U{A0}\U{1680}\U{2000}\U{2001}\U{2002}\U{2003}\U{2004}\U{2005}\U{2006}"
    + "\U{2007}\U{2008}\U{2009}\U{200A}\U{200C}\U{200D}\U{202F}\U{205F}\U{3000}"

  /** The invalid characters in effect: the caller's, as a C string, plus the control characters with `removeDuals`. */
  function InvalidSet(removeDuals: bool, invalidChars: string): set<char>
  {
    var list := BeforeFirst(invalidChars + (if removeDuals then CONTROL_CHARS else ""), '\0');
    set k | 0 <= k < |list| :: list[k]
  }

  /** The characters treated as spaces: all of `DUAL_SPACES` with `removeDuals`, else only U+0020. */
  function SpaceSet(removeDuals: bool): set<char>
  {
    var list := if removeDuals then DUAL_SPACES else " ";
    set k | 0 <= k < |list| :: list[k]
  }

  /**
   * Position `k` of `cps` survives when nothing before it is marked: it is
   * not an invalid character, and if it is a space it is neither the first
   * nor the last code point and, with `removeDuals`, does not follow another
   * space.
   */
  predicate Unmarked(cps: string, k: int, removeDuals: bool, invalidChars: string)
    requires 0 <= k < |cps|
  {
    cps[k] !in InvalidSet(removeDuals, invalidChars) &&
    (cps[k] in SpaceSet(removeDuals) ==>
       0 < k < |cps| - 1 && !(removeDuals && cps[k - 1] in SpaceSet(removeDuals)))
  }

  /** No code point of `cps` is marked for removal. */
  predicate NothingToTrim(cps: string, removeDuals: bool, invalidChars: string)
  {
    forall k :: 0 <= k < |cps| ==> Unmarked(cps, k, removeDuals, invalidChars)
  }

  /**
   * The back-fill loop of `TrimSpaces`: walks `allDuals` from the back and
   * inserts into `toRemove`, at the matching place, every position it does
   * not hold yet.  `nextDual` is never changed from 0, so the loop never
   * stops early.
   */
  method FillDualRun(toRemove: seq<int>, allDuals: seq<int>) returns (filled: seq<int>)
    ensures |filled| >= |toRemove|
    ensures forall x :: x in filled ==> x in toRemove || x in allDuals
    ensures forall x :: x in toRemove ==> x in filled
    ensures forall x :: x in allDuals ==> x in filled
  {
    filled := toRemove;
    var toRemoveIdx := |filled| - 1;
    var nextDual := 0;
    var j := |allDuals|;
    while j > 0
      invariant 0 <= j <= |allDuals|
      invariant -1 <= toRemoveIdx < |filled|
      invariant |filled| >= |toRemove|
      invariant forall x :: x in filled ==> x in toRemove || x in allDuals
      invariant forall x :: x in toRemove ==> x in filled
      invariant forall k :: j <= k < |allDuals| ==> allDuals[k] in filled
    {
      var dual := allDuals[j - 1];
      if nextDual != 0 && dual != nextDual - 1 {
        break;
      }
      if toRemoveIdx < 0 || filled[toRemoveIdx] != dual {
        toRemoveIdx := toRemoveIdx + 1;
        filled := filled[..toRemoveIdx] + [dual] + filled[toRemoveIdx..];
      }
      toRemoveIdx := toRemoveIdx - 1;
      j := j - 1;
    }
  }

  /**
   * The marking loop of `TrimSpaces` over the code points `cps` of the name
   * (as a C string); `byteLen` is the byte length of the whole name.
   * Positions marked are all in range, and none is marked exactly when
   * nothing is to trim.
   */
  method MarkForRemoval(cps: string, byteLen: int, removeDuals: bool, invalidChars: string)
    returns (toRemove: seq<int>)
    ensures forall x :: x in toRemove ==> 0 <= x < |cps|
    ensures toRemove == [] <==> NothingToTrim(cps, removeDuals, invalidChars)
  {
    var invalid := InvalidSet(removeDuals, invalidChars);
    var spaces := SpaceSet(removeDuals);
    var len := |cps|;
    var allDuals: seq<int> := [];
    toRemove := [];
    var i := 0;
    while i < len
      invariant 0 <= i <= len
      invariant forall x :: x in toRemove ==> 0 <= x < i
      invariant forall x :: x in allDuals ==> 0 <= x < i
      invariant |allDuals| <= i
      invariant toRemove == [] <==> forall k :: 0 <= k < i ==> Unmarked(cps, k, removeDuals, invalidChars)
      invariant toRemove == [] && i > 0 ==> |allDuals| < i
      invariant toRemove == [] && i > 0 ==>
                  ((|allDuals| > 0 && allDuals[|allDuals| - 1] == i - 1) <==>
                   (removeDuals && cps[i - 1] in spaces))
    {
      var outPoint := cps[i];
      ghost var wasEmpty := toRemove == [];
      ghost var oldDuals := allDuals;
      if |allDuals| > 0 {
        assert allDuals[|allDuals| - 1] in allDuals;
      }
      if outPoint in invalid {
        toRemove := toRemove + [i];
        allDuals := allDuals + [i];
      } else {
        var isDual := outPoint in spaces;
        if (removeDuals || (i == |allDuals| || i == len - 1)) && isDual {
          var wasLastDual := |allDuals| > 0 && allDuals[|allDuals| - 1] == i - 1;
          if i == |allDuals| || i == len - 1 || (removeDuals && wasLastDual) {
            toRemove := toRemove + [i];
          }
          allDuals := allDuals + [i];
          if i != 0 && i == byteLen - 1 && wasLastDual {
            toRemove := FillDualRun(toRemove, allDuals);
          }
        }
      }
      if wasEmpty {
        assert toRemove == [] <==> Unmarked(cps, i, removeDuals, invalidChars);
        assert allDuals == oldDuals || allDuals == oldDuals + [i];
      }
      i := i + 1;
    }
  }

  /**
   * The rebuild loop of `TrimSpaces` as written: one code point is read per
   * pass (`pos`), but while marks remain the index `i` that is compared with
   * the next mark is advanced twice per pass, by the comparison itself and
   * by the loop.
   */
  function RebuiltAsWritten(cps: string, toRemove: seq<int>, pos: nat, i: int, idx: nat): string
    requires pos <= i && idx <= |toRemove|
    decreases |cps| - i
  {
    if i >= |cps| then []
    else if idx < |toRemove| then
      (if i == toRemove[idx] then RebuiltAsWritten(cps, toRemove, pos + 1, i + 2, idx + 1)
       else [cps[pos]] + RebuiltAsWritten(cps, toRemove, pos + 1, i + 2, idx))
    else [cps[pos]] + RebuiltAsWritten(cps, toRemove, pos + 1, i + 1, idx)
  }

  /** One pass of the rebuild loop as written. */
  lemma AsWrittenStep(cps: string, toRemove: seq<int>, pos: nat, i: int, idx: nat)
    requires pos <= i < |cps| && idx <= |toRemove|
    ensures var skip := idx < |toRemove| && i == toRemove[idx];
            RebuiltAsWritten(cps, toRemove, pos, i, idx) ==
            (if skip then [] else [cps[pos]]) +
            RebuiltAsWritten(cps, toRemove, pos + 1, if idx < |toRemove| then i + 2 else i + 1,
                             if skip then idx + 1 else idx)
  {
  }

  /** One pass of the rebuild loop as written keeps `out` a subsequence and on track. */
  lemma AsWrittenPass(cps: string, toRemove: seq<int>, out: string, pos: nat, i: int, idx: nat)
    requires pos <= i < |cps| && idx <= |toRemove|
    requires IsSubsequence(out, cps[..pos])
    ensures idx < |toRemove| && i == toRemove[idx] ==>
              IsSubsequence(out, cps[..pos + 1]) &&
              out + RebuiltAsWritten(cps, toRemove, pos + 1, i + 2, idx + 1) ==
              out + RebuiltAsWritten(cps, toRemove, pos, i, idx)
    ensures !(idx < |toRemove| && i == toRemove[idx]) ==>
              IsSubsequence(out + [cps[pos]], cps[..pos + 1]) &&
              (out + [cps[pos]]) + RebuiltAsWritten(cps, toRemove, pos + 1, if idx < |toRemove| then i + 2 else i + 1, idx) ==
              out + RebuiltAsWritten(cps, toRemove, pos, i, idx)
  {
    AsWrittenStep(cps, toRemove, pos, i, idx);
    if idx < |toRemove| && i == toRemove[idx] {
      SubsequenceSkip(out, cps, pos);
    } else {
      SubsequenceKeep(out, cps, pos);
    }
  }

  /**
   * The rebuild loop as written loses a code point that is not marked: for
   * `" a"` only the leading space is marked, yet the loop stops after one
   * pass and gives `""` where `"a"` is meant.
   */
  lemma RebuildAsWrittenLosesCode()
    ensures RebuiltAsWritten(" a", [0], 0, 0, 0) == []
    ensures Rebuilt(" a", [0], 0, 0) == "a"
  {
    assert RebuiltAsWritten(" a", [0], 1, 2, 1) == [];
    assert Rebuilt(" a", [0], 2, 1) == [];
    assert Rebuilt(" a", [0], 1, 1) == "a";
  }

  /**
   * The rebuild loop of `TrimSpaces` as written, which `TrimSpaces` uses:
   * its output is still a strictly shorter subsequence, but not the one the
   * marks describe (the corrected loop is `RemoveMarked`).
   */
  method RemoveMarkedAsWritten(cps: string, toRemove: seq<int>) returns (out: string)
    requires toRemove != [] && 0 <= toRemove[0] < |cps|
    ensures IsSubsequence(out, cps)
    ensures |out| < |cps|
    ensures out == RebuiltAsWritten(cps, toRemove, 0, 0, 0)
  {
    var len := |cps|;
    out := [];
    var toRemoveIdx := 0;
    var pos := 0;
    var i := 0;
    ghost var whole := RebuiltAsWritten(cps, toRemove, 0, 0, 0);
    while i < len
      invariant 0 <= pos <= i && pos <= len
      invariant 0 <= toRemoveIdx <= |toRemove|
      invariant |out| + toRemoveIdx == pos
      invariant toRemoveIdx == 0 ==> i == 2 * pos
      invariant toRemoveIdx == 0 && pos >= 1 ==> toRemove[0] != 0 && 2 * pos - 2 < len
      invariant IsSubsequence(out, cps[..pos])
      invariant out + RebuiltAsWritten(cps, toRemove, pos, i, toRemoveIdx) == whole
    {
      AsWrittenPass(cps, toRemove, out, pos, i, toRemoveIdx);
      var outPoint := cps[pos];
      // the comparison with the next mark is `i++ == toRemove[toRemoveIdx]`
      var skip := toRemoveIdx < |toRemove| && i == toRemove[toRemoveIdx];
      if toRemoveIdx < |toRemove| {
        i := i + 1;
      }
      if skip {
        toRemoveIdx := toRemoveIdx + 1;
      } else {
        out := out + [outPoint];
      }
      pos := pos + 1;
      i := i + 1;
    }
    if toRemoveIdx == 0 {
      assert 0 <= toRemove[0] < len;
      assert pos >= 1;
      assert toRemove[0] != 0;
    }
    SubsequenceOfPrefix(out, cps, pos);
  }

  /**
   * The rebuild as evidently intended: position `i` is dropped exactly when
   * it is the next mark, and the index moves on once per code point.
   */
  function Rebuilt(cps: string, toRemove: seq<int>, i: nat, idx: nat): string
    requires idx <= |toRemove|
    decreases |cps| - i
  {
    if i >= |cps| then []
    else if idx < |toRemove| && i == toRemove[idx] then Rebuilt(cps, toRemove, i + 1, idx + 1)
    else [cps[i]] + Rebuilt(cps, toRemove, i + 1, idx)
  }

  /** The marks are strictly increasing, as the marking loop records them. */
  predicate Ascending(marks: seq<int>)
  {
    forall a, b :: 0 <= a < b < |marks| ==> marks[a] < marks[b]
  }

  /** Reference definition: the code points of `cps` from `i` on whose position is not a mark. */
  function KeptFrom(cps: string, marks: seq<int>, i: nat): string
    decreases |cps| - i
  {
    if i >= |cps| then []
    else (if i in marks then [] else [cps[i]]) + KeptFrom(cps, marks, i + 1)
  }

  lemma {:induction false} RebuiltKeepsUnmarkedFrom(cps: string, marks: seq<int>, i: nat, idx: nat)
    requires Ascending(marks) && idx <= |marks|
    requires forall k :: 0 <= k < idx ==> marks[k] < i
    requires forall k :: idx <= k < |marks| ==> i <= marks[k]
    ensures Rebuilt(cps, marks, i, idx) == KeptFrom(cps, marks, i)
    decreases |cps| - i
  {
    if i < |cps| {
      if idx < |marks| && i == marks[idx] {
        assert i in marks;
        forall k | idx + 1 <= k < |marks| ensures i + 1 <= marks[k] {
          assert marks[idx] < marks[k];
        }
        RebuiltKeepsUnmarkedFrom(cps, marks, i + 1, idx + 1);
      } else {
        forall k | 0 <= k < |marks| ensures marks[k] != i {
          if k > idx {
            assert marks[idx] < marks[k];
          }
        }
        forall k | idx <= k < |marks| ensures i + 1 <= marks[k] {
          if k > idx {
            assert marks[idx] < marks[k];
          }
        }
        RebuiltKeepsUnmarkedFrom(cps, marks, i + 1, idx);
      }
    }
  }

  lemma {:induction false} RebuiltLengthFrom(cps: string, marks: seq<int>, i: nat, idx: nat)
    requires Ascending(marks) && idx <= |marks| && i <= |cps|
    requires forall k :: idx <= k < |marks| ==> i <= marks[k] < |cps|
    ensures |Rebuilt(cps, marks, i, idx)| == (|cps| - i) - (|marks| - idx)
    decreases |cps| - i
  {
    if i == |cps| {
    } else if idx < |marks| && i == marks[idx] {
      forall k | idx + 1 <= k < |marks| ensures i + 1 <= marks[k] {
        assert marks[idx] < marks[k];
      }
      RebuiltLengthFrom(cps, marks, i + 1, idx + 1);
    } else {
      forall k | idx <= k < |marks| ensures i + 1 <= marks[k] {
        if k > idx {
          assert marks[idx] < marks[k];
        }
      }
      RebuiltLengthFrom(cps, marks, i + 1, idx);
    }
  }

  /**
   * With strictly increasing marks inside the name, the intended rebuild
   * keeps exactly the code points at unmarked positions, in order, and
   * removes one code point per mark.
   */
  lemma RebuiltDropsExactlyMarked(cps: string, marks: seq<int>)
    requires Ascending(marks)
    requires forall k :: 0 <= k < |marks| ==> 0 <= marks[k] < |cps|
    ensures Rebuilt(cps, marks, 0, 0) == KeptFrom(cps, marks, 0)
    ensures |Rebuilt(cps, marks, 0, 0)| == |cps| - |marks|
  {
    RebuiltKeepsUnmarkedFrom(cps, marks, 0, 0);
    RebuiltLengthFrom(cps, marks, 0, 0);
  }

  /**
   * The rebuild loop of `TrimSpaces` as evidently intended, with its index
   * advanced once per code point: it keeps a subsequence of `cps` and drops
   * at least the first mark.  `TrimSpaces` keeps the loop as written.
   */
  method RemoveMarked(cps: string, toRemove: seq<int>) returns (out: string)
    requires toRemove != [] && 0 <= toRemove[0] < |cps|
    ensures out == Rebuilt(cps, toRemove, 0, 0)
    ensures IsSubsequence(out, cps)
    ensures |out| < |cps|
  {
    var len := |cps|;
    out := [];
    var toRemoveIdx := 0;
    var i := 0;
    ghost var whole := Rebuilt(cps, toRemove, 0, 0);
    while i < len
      invariant 0 <= i <= len
      invariant 0 <= toRemoveIdx <= |toRemove|
      invariant |out| + toRemoveIdx == i
      invariant toRemoveIdx == 0 ==> i <= toRemove[0]
      invariant IsSubsequence(out, cps[..i])
      invariant out + Rebuilt(cps, toRemove, i, toRemoveIdx) == whole
    {
      if toRemoveIdx < |toRemove| && i == toRemove[toRemoveIdx] {
        toRemoveIdx := toRemoveIdx + 1;
        SubsequenceSkip(out, cps, i);
      } else {
        SubsequenceKeep(out, cps, i);
        out := out + [cps[i]];
      }
      i := i + 1;
    }
    SubsequenceOfPrefix(out, cps, i);
  }

  /**
   * `TrimSpaces`: gives `""` for invalid UTF-8, gives the name back when no
   * code point is marked, and otherwise rebuilds it code point by code
   * point with the rebuild loop as written (`RemoveMarkedAsWritten`), whose
   * index moves on twice per comparison with a mark.
   */
  method TrimSpaces(name: Text, removeDuals: bool, invalidChars: string) returns (r: string)
    ensures name.Malformed? ==> r == []
    ensures name.Utf8? ==> IsSubsequence(r, name.cps)
    ensures name.Utf8? ==>
              (r == name.cps <==> NothingToTrim(BeforeFirst(name.cps, '\0'), removeDuals, invalidChars))
    ensures name.Utf8? && !NothingToTrim(BeforeFirst(name.cps, '\0'), removeDuals, invalidChars) ==>
              |r| < |BeforeFirst(name.cps, '\0')|
  {
    if name.Malformed? {
      r := [];
    } else {
      var cps := BeforeFirst(name.cps, '\0');
      BeforeFirstPrefix(name.cps, '\0');
      var toRemove := MarkForRemoval(cps, ByteLen(name.cps), removeDuals, invalidChars);
      if |toRemove| != 0 {
        assert toRemove[0] in toRemove;
        var out := RemoveMarkedAsWritten(cps, toRemove);
        SubsequenceOfPrefix(out, name.cps, |cps|);
        r := out;
      } else {
        r := name.cps;
        SubsequenceReflexive(r);
      }
    }
  }
}
