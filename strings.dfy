/**
 * Sequence helpers shared by both name parsers: `boost::split` with
 * `is_any_of` and the default `token_compress_off`, its inverse (joining
 * pieces with one separator), separator counting and subsequences.
 */
module Strings {

  /** Number of elements of `s` that belong to `seps`. */
  function CountIn<T>(s: seq<T>, seps: set<T>): nat
  {
    if s == [] then 0 else (if s[0] in seps then 1 else 0) + CountIn(s[1..], seps)
  }

  /**
   * `boost::split(out, s, is_any_of(seps))` without token compression: every
   * separator ends a piece, so an empty input gives `[[]]` and adjacent
   * separators give empty pieces.
   */
  function Split<T(==)>(s: seq<T>, seps: set<T>): (pieces: seq<seq<T>>)
    ensures |pieces| >= 1
  {
    if s == [] then [[]]
    else
      var rest := Split(s[1..], seps);
      if s[0] in seps then [[]] + rest
      else [[s[0]] + rest[0]] + rest[1..]
  }

  /** The pieces joined back together with `sep` between neighbours. */
  function Join<T>(pieces: seq<seq<T>>, sep: T): seq<T>
  {
    if pieces == [] then []
    else if |pieces| == 1 then pieces[0]
    else pieces[0] + [sep] + Join(pieces[1..], sep)
  }

  /** The part of `s` before the first occurrence of `c` (all of `s` when there is none). */
  function BeforeFirst<T(==)>(s: seq<T>, c: T): seq<T>
  {
    if s == [] || s[0] == c then [] else [s[0]] + BeforeFirst(s[1..], c)
  }

  /** No element of `s` is in `seps`. */
  predicate FreeOf<T>(s: seq<T>, seps: set<T>)
  {
    forall k :: 0 <= k < |s| ==> s[k] !in seps
  }

  /** `a` can be obtained from `b` by deleting elements. */
  predicate IsSubsequence<T(==)>(a: seq<T>, b: seq<T>)
    decreases |b|
  {
    a == [] ||
    (b != [] &&
     ((a[|a| - 1] == b[|b| - 1] && IsSubsequence(a[..|a| - 1], b[..|b| - 1])) ||
      IsSubsequence(a, b[..|b| - 1])))
  }

  /** Splitting yields exactly one more piece than there are separators. */
  lemma {:induction false} SplitCount<T>(s: seq<T>, seps: set<T>)
    ensures |Split(s, seps)| == CountIn(s, seps) + 1
  {
    if s != [] {
      SplitCount(s[1..], seps);
    }
  }

  /** Every element of every piece comes from `s` and is not a separator. */
  lemma {:induction false} SplitPieces<T>(s: seq<T>, seps: set<T>)
    ensures forall k, j :: 0 <= k < |Split(s, seps)| && 0 <= j < |Split(s, seps)[k]| ==>
              Split(s, seps)[k][j] !in seps && Split(s, seps)[k][j] in s
  {
    if s != [] {
      SplitPieces(s[1..], seps);
      var rest := Split(s[1..], seps);
      var pieces := Split(s, seps);
      forall k, j | 0 <= k < |pieces| && 0 <= j < |pieces[k]|
        ensures pieces[k][j] !in seps && pieces[k][j] in s
      {
        if s[0] in seps {
          assert pieces[k] == rest[k - 1];
          assert rest[k - 1][j] in s[1..];
        } else if k == 0 {
          if j > 0 {
            assert pieces[0][j] == rest[0][j - 1];
            assert rest[0][j - 1] in s[1..];
          }
        } else {
          assert pieces[k] == rest[k];
          assert rest[k][j] in s[1..];
        }
      }
    }
  }

  /** Appending one element either opens a new, empty piece or extends the last one. */
  lemma {:induction false} SplitSnoc<T>(s: seq<T>, x: T, seps: set<T>)
    ensures Split(s + [x], seps) == AddToLast(Split(s, seps), x, seps)
  {
    if s == [] {
      assert s + [x] == [x];
      SplitSingle(x, seps);
    } else {
      assert (s + [x])[1..] == s[1..] + [x];
      SplitSnoc(s[1..], x, seps);
      var r := Split(s[1..], seps);
      if s[0] in seps {
        AddToLastCons([], r, x, seps);
      } else {
        AddToLastFirst(s[0], r, x, seps);
      }
    }
  }

  /** The pieces after one more element: a fresh empty piece after a separator, else a longer last piece. */
  function AddToLast<T>(p: seq<seq<T>>, x: T, seps: set<T>): seq<seq<T>>
    requires |p| >= 1
  {
    if x in seps then p + [[]] else p[..|p| - 1] + [p[|p| - 1] + [x]]
  }

  lemma SplitSingle<T>(x: T, seps: set<T>)
    ensures Split([x], seps) == AddToLast([[]], x, seps)
  {
    var e: seq<T> := [];
    assert [x][1..] == e;
    assert Split(e, seps) == [e];
    assert [x] + e == e + [x];
  }

  /** Adding to the last piece leaves a leading piece alone. */
  lemma AddToLastCons<T>(h: seq<T>, r: seq<seq<T>>, x: T, seps: set<T>)
    requires |r| >= 1
    ensures AddToLast([h] + r, x, seps) == [h] + AddToLast(r, x, seps)
  {
    if x !in seps {
      assert ([h] + r)[..|r|] == [h] + r[..|r| - 1];
    }
  }

  /** Adding to the last piece commutes with gluing an element onto the first piece. */
  lemma AddToLastFirst<T>(a: T, r: seq<seq<T>>, x: T, seps: set<T>)
    requires |r| >= 1
    ensures var q := AddToLast(r, x, seps);
            AddToLast([[a] + r[0]] + r[1..], x, seps) == [[a] + q[0]] + q[1..]
  {
    if |r| > 1 {
      AddToLastCons([a] + r[0], r[1..], x, seps);
      assert r == [r[0]] + r[1..];
      AddToLastCons(r[0], r[1..], x, seps);
    } else if x !in seps {
      assert [a] + (r[0] + [x]) == ([a] + r[0]) + [x];
    }
  }

  /** The last piece is empty exactly when `s` is empty or ends with a separator. */
  lemma SplitLastEmpty<T>(s: seq<T>, seps: set<T>)
    ensures var p := Split(s, seps);
            p[|p| - 1] == [] <==> (s == [] || s[|s| - 1] in seps)
  {
    if s != [] {
      var init := s[..|s| - 1];
      assert s == init + [s[|s| - 1]];
      SplitSnoc(init, s[|s| - 1], seps);
    }
  }

  /** The first piece is the prefix before the first separator. */
  lemma {:induction false} SplitFirst<T>(s: seq<T>, c: T)
    ensures Split(s, {c})[0] == BeforeFirst(s, c)
  {
    if s != [] {
      SplitFirst(s[1..], c);
    }
  }

  /** Joining the pieces of a single-separator split gives the input back. */
  lemma {:induction false} SplitThenJoin<T>(s: seq<T>, c: T)
    ensures Join(Split(s, {c}), c) == s
  {
    if s != [] {
      var rest := Split(s[1..], {c});
      SplitThenJoin(s[1..], c);
      if s[0] == c {
        assert Split(s, {c}) == [[]] + rest;
      } else {
        var pieces := Split(s, {c});
        assert pieces == [[s[0]] + rest[0]] + rest[1..];
        if |rest| > 1 {
          assert Join(rest, c) == rest[0] + [c] + Join(rest[1..], c);
          assert pieces[1..] == rest[1..];
        }
      }
    }
  }

  /** A separator-free prefix is glued onto the first piece of what follows. */
  lemma {:induction false} SplitFreePrefix<T>(p: seq<T>, tail: seq<T>, seps: set<T>)
    requires FreeOf(p, seps)
    ensures var q := Split(tail, seps);
            Split(p + tail, seps) == [p + q[0]] + q[1..]
  {
    var q := Split(tail, seps);
    if p != [] {
      assert (p + tail)[0] == p[0] && p[0] !in seps;
      assert (p + tail)[1..] == p[1..] + tail;
      SplitFreePrefix(p[1..], tail, seps);
      var rest := Split(p[1..] + tail, seps);
      assert rest == [p[1..] + q[0]] + q[1..];
      assert Split(p + tail, seps) == [[p[0]] + rest[0]] + rest[1..];
      assert [p[0]] + (p[1..] + q[0]) == p + q[0];
    } else {
      assert p + tail == tail;
      assert p + q[0] == q[0];
      assert q == [q[0]] + q[1..];
    }
  }

  /** A sequence without separators is a single piece. */
  lemma SplitFree<T>(s: seq<T>, seps: set<T>)
    requires FreeOf(s, seps)
    ensures Split(s, seps) == [s]
  {
    SplitFreePrefix(s, [], seps);
    assert s + [] == s;
  }

  /** Splitting separator-free pieces joined with a separator gives the pieces back. */
  lemma {:induction false} JoinThenSplit<T>(pieces: seq<seq<T>>, sep: T, seps: set<T>)
    requires |pieces| >= 1 && sep in seps
    requires forall k :: 0 <= k < |pieces| ==> FreeOf(pieces[k], seps)
    ensures Split(Join(pieces, sep), seps) == pieces
  {
    if |pieces| == 1 {
      SplitFree(pieces[0], seps);
    } else {
      var tail := Join(pieces[1..], sep);
      JoinThenSplit(pieces[1..], sep, seps);
      SplitAfterSeparator(sep, tail, seps);
      assert Join(pieces, sep) == pieces[0] + ([sep] + tail);
      SplitFreePrefix(pieces[0], [sep] + tail, seps);
      assert pieces[0] + [] == pieces[0];
      assert [pieces[0]] + pieces[1..] == pieces;
    }
  }

  /** A leading separator closes an empty first piece. */
  lemma SplitAfterSeparator<T>(x: T, t: seq<T>, seps: set<T>)
    requires x in seps
    ensures Split([x] + t, seps) == [[]] + Split(t, seps)
  {
    assert ([x] + t)[1..] == t;
  }

  /** Joining separator-free pieces with a separator outside `seps` stays free of `seps`. */
  lemma {:induction false} JoinFreeOf<T>(pieces: seq<seq<T>>, sep: T, seps: set<T>)
    requires sep !in seps
    requires forall k :: 0 <= k < |pieces| ==> FreeOf(pieces[k], seps)
    ensures FreeOf(Join(pieces, sep), seps)
  {
    if |pieces| > 1 {
      JoinFreeOf(pieces[1..], sep, seps);
      var tail := Join(pieces[1..], sep);
      var joined := pieces[0] + [sep] + tail;
      assert Join(pieces, sep) == joined;
      assert FreeOf(pieces[0], seps);
      forall k | 0 <= k < |joined|
        ensures joined[k] !in seps
      {
        if k > |pieces[0]| {
          assert joined[k] == tail[k - |pieces[0]| - 1];
        }
      }
    } else if |pieces| == 1 {
      assert FreeOf(pieces[0], seps);
    }
  }

  /** The part before the first `c` is a prefix of `s` without `c`, followed in `s` by `c` or by nothing. */
  lemma {:induction false} BeforeFirstPrefix<T>(s: seq<T>, c: T)
    ensures var p := BeforeFirst(s, c);
            |p| <= |s| && p == s[..|p|] && c !in p && (|p| < |s| ==> s[|p|] == c)
  {
    if s != [] && s[0] != c {
      BeforeFirstPrefix(s[1..], c);
    }
  }

  /** Joining one more piece adds a separator and the piece at the end. */
  lemma {:induction false} JoinSnoc<T>(pieces: seq<seq<T>>, last: seq<T>, sep: T)
    requires |pieces| >= 1
    ensures Join(pieces + [last], sep) == Join(pieces, sep) + [sep] + last
  {
    if |pieces| == 1 {
      assert pieces + [last] == [pieces[0], last];
    } else {
      assert (pieces + [last])[1..] == pieces[1..] + [last];
      JoinSnoc(pieces[1..], last, sep);
    }
  }

  /** Every sequence is a subsequence of itself. */
  lemma {:induction false} SubsequenceReflexive<T>(a: seq<T>)
    ensures IsSubsequence(a, a)
    decreases |a|
  {
    if a != [] {
      SubsequenceReflexive(a[..|a| - 1]);
    }
  }

  /** A subsequence of a prefix of `b` is one of the prefix longer by one. */
  lemma SubsequenceSkip<T>(a: seq<T>, b: seq<T>, k: nat)
    requires k < |b| && IsSubsequence(a, b[..k])
    ensures IsSubsequence(a, b[..k + 1])
  {
    assert b[..k + 1][..k] == b[..k];
  }

  /** Taking the next element of `b` as well extends a subsequence of a prefix of `b`. */
  lemma SubsequenceKeep<T>(a: seq<T>, b: seq<T>, k: nat)
    requires k < |b| && IsSubsequence(a, b[..k])
    ensures IsSubsequence(a + [b[k]], b[..k + 1])
  {
    assert (a + [b[k]])[..|a|] == a;
    assert b[..k + 1][..k] == b[..k];
  }

  /** A subsequence of a prefix of `b` is a subsequence of `b`. */
  lemma {:induction false} SubsequenceOfPrefix<T>(a: seq<T>, b: seq<T>, k: nat)
    requires k <= |b| && IsSubsequence(a, b[..k])
    ensures IsSubsequence(a, b)
    decreases |b| - k
  {
    if k < |b| {
      assert b[..k + 1][..k] == b[..k];
      SubsequenceOfPrefix(a, b, k + 1);
    } else {
      assert b[..k] == b;
    }
  }
}
