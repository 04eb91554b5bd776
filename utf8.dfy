/**
 * UTF-8 (section 3 of RFC 3629) as far as the VDXF name code needs it: the
 * byte length of a string of code points, and cutting a string to a number
 * of bytes, which gives invalid UTF-8 when the cut falls inside a
 * character.  Code points are Dafny `char`s, which are Unicode scalar values.
 */
module Utf8 {
  import opened Hashing

  /** The UTF-8 encoding of one code point: one to four bytes. */
  function EncodeChar(c: char): (b: Bytes)
    ensures 1 <= |b| <= 4
    ensures (|b| == 1) <==> (c as int < 0x80)
  {
    var n := c as int;
    if n < 0x80 then [n]
    else if n < 0x800 then [0xC0 + n / 0x40, 0x80 + n % 0x40]
    else if n < 0x1_0000 then [0xE0 + n / 0x1000, 0x80 + (n / 0x40) % 0x40, 0x80 + n % 0x40]
    else [0xF0 + n / 0x4_0000, 0x80 + (n / 0x1000) % 0x40, 0x80 + (n / 0x40) % 0x40, 0x80 + n % 0x40]
  }

  function Encode(s: string): Bytes
  {
    if s == [] then [] else EncodeChar(s[0]) + Encode(s[1..])
  }

  /** `std::string::size()` of the UTF-8 form of `s`. */
  function ByteLen(s: string): nat
  {
    |Encode(s)|
  }

  /** The contents of a `std::string`: valid UTF-8, given by its code points, or not valid UTF-8. */
  datatype Text = Utf8(cps: string) | Malformed

  /**
   * `std::string(s, 0, n)`: the first `n` bytes of `s`.  When the cut falls
   * inside a character the bytes are not valid UTF-8.
   */
  function Truncate(s: string, n: nat): Text
  {
    if s == [] then Utf8([])
    else
      var w := |EncodeChar(s[0])|;
      if n >= w then
        match Truncate(s[1..], n - w)
        case Utf8(t) => Utf8([s[0]] + t)
        case Malformed => Malformed
      else if n == 0 then Utf8([])
      else Malformed
  }

  /** The byte length of a concatenation is the sum of the byte lengths. */
  lemma {:induction false} ByteLenAppend(a: string, b: string)
    ensures ByteLen(a + b) == ByteLen(a) + ByteLen(b)
  {
    if a != [] {
      assert (a + b)[1..] == a[1..] + b;
      ByteLenAppend(a[1..], b);
    } else {
      assert a + b == b;
    }
  }

  /** A string is at least as many bytes long as it has code points. */
  lemma {:induction false} ByteLenAtLeastLength(s: string)
    ensures ByteLen(s) >= |s|
    ensures ByteLen(s) == |s| <==> forall k :: 0 <= k < |s| ==> s[k] as int < 0x80
  {
    if s != [] {
      ByteLenAtLeastLength(s[1..]);
      if ByteLen(s) == |s| {
        forall k | 0 <= k < |s|
          ensures s[k] as int < 0x80
        {
          if k > 0 {
            assert s[k] == s[1..][k - 1];
          }
        }
      }
    }
  }

  /**
   * Cutting to `n` bytes, when it succeeds, keeps the prefix of whole
   * characters that is exactly `min(n, ByteLen(s))` bytes long.
   */
  lemma {:induction false} TruncateKeepsPrefix(s: string, n: nat)
    ensures Truncate(s, n).Utf8? ==>
              var t := Truncate(s, n).cps;
              |t| <= |s| && t == s[..|t|] &&
              ByteLen(t) == (if n < ByteLen(s) then n else ByteLen(s))
  {
    if s != [] {
      var w := |EncodeChar(s[0])|;
      assert ByteLen(s) == w + ByteLen(s[1..]);
      if n >= w {
        TruncateKeepsPrefix(s[1..], n - w);
        var r := Truncate(s[1..], n - w);
        if r.Utf8? {
          var t := r.cps;
          assert [s[0]] + t == s[..|t| + 1];
          ByteLenAppend([s[0]], t);
          assert Encode([s[0]]) == EncodeChar(s[0]) + Encode([]);
        }
      }
    }
  }

  /** Cutting `s` after `n` bytes lands strictly inside its `k`-th character. */
  predicate CutsInside(s: string, n: nat, k: int)
  {
    0 <= k < |s| && ByteLen(s[..k]) < n < ByteLen(s[..k + 1])
  }

  /** Past the first character, cutting inside `s` is cutting inside its tail, `w` bytes earlier. */
  lemma CutsInsideTail(s: string, n: nat, k: int)
    requires s != [] && 1 <= k && n >= |EncodeChar(s[0])|
    ensures CutsInside(s, n, k) <==> CutsInside(s[1..], n - |EncodeChar(s[0])|, k - 1)
  {
    if k <= |s| {
      ByteLenPrefix(s, k);
    }
    if k + 1 <= |s| {
      ByteLenPrefix(s, k + 1);
    }
  }

  /** The byte length of a non-empty prefix is the first character's width plus that of the rest. */
  lemma ByteLenPrefix(s: string, k: nat)
    requires 1 <= k <= |s|
    ensures ByteLen(s[..k]) == |EncodeChar(s[0])| + ByteLen(s[1..][..k - 1])
  {
    assert s[..k] == [s[0]] + s[1..][..k - 1];
    ByteLenAppend([s[0]], s[1..][..k - 1]);
    assert Encode([s[0]]) == EncodeChar(s[0]) + Encode([]);
  }

  /** Cutting to `n` bytes gives invalid UTF-8 exactly when `n` falls strictly inside some character. */
  lemma {:induction false} TruncateMalformed(s: string, n: nat)
    ensures Truncate(s, n).Malformed? <==> exists k :: CutsInside(s, n, k)
  {
    if s != [] {
      var w := |EncodeChar(s[0])|;
      assert ByteLen(s[..0]) == 0;
      assert ByteLen(s[..1]) == w by {
        ByteLenPrefix(s, 1);
      }
      if n >= w {
        TruncateMalformed(s[1..], n - w);
        assert !CutsInside(s, n, 0);
        if Truncate(s[1..], n - w).Malformed? {
          var k :| CutsInside(s[1..], n - w, k);
          CutsInsideTail(s, n, k + 1);
        } else {
          forall k | CutsInside(s, n, k)
            ensures false
          {
            CutsInsideTail(s, n, k);
          }
        }
      } else if n != 0 {
        assert CutsInside(s, n, 0);
      }
    }
  }

  /** A string that already fits in `n` bytes is kept whole. */
  lemma {:induction false} TruncateShort(s: string, n: nat)
    requires ByteLen(s) <= n
    ensures Truncate(s, n) == Utf8(s)
  {
    if s != [] {
      assert ByteLen(s) == |EncodeChar(s[0])| + ByteLen(s[1..]);
      TruncateShort(s[1..], n - |EncodeChar(s[0])|);
      assert [s[0]] + s[1..] == s;
    }
  }

  /** `to_lower_copy` in the classic locale: only `A`-`Z` change. */
  function LowerChar(c: char): char
  {
    if 'A' <= c <= 'Z' then (c as int + 32) as char else c
  }

  function LowerStr(s: string): (r: string)
    ensures |r| == |s|
  {
    seq(|s|, k requires 0 <= k < |s| => LowerChar(s[k]))
  }
}
