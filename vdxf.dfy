/**
 * VDXF names (`CVDXF` in vdxf.cpp): splitting a name such as
 * `leaf.parent@chain` into validated labels, folding the parent labels into
 * a parent identifier, the identifier of a name, and the data key of a
 * `namespace::key` name.
 *
 * Names are valid UTF-8, given by their code points; byte lengths and byte
 * cuts use their UTF-8 encoding.
 */
module Vdxf {
  import opened Strings
  import opened Hashing
  import opened Wrappers
  import opened Utf8
  import opened ChainParams
  import opened VdxfTrim

  /** The invalid characters `TrimSpaces` uses when given none. */
  const DEFAULT_INVALID_CHARS: string := "\\/:*?\"<>|"

  /** `CVDXF::DATA_KEY_SEPARATOR`. */
  const DATA_KEY_SEPARATOR: string := "::"

  /** The chain-wide inputs: the hash functions, the currency-name decoder, and `VERUS_CHAINID`. */
  datatype VdxfEnv = VdxfEnv(hashes: Hashes, decodeCurrencyName: string -> U160, verusChainId: U160)

  /** The Verus chain name, lower-cased: the implicit root label. */
  function VerusLower(): string
  {
    LowerStr(VERUS_CHAINNAME)
  }

  /** `TrimSpaces(s, removeDuals) == s` for valid UTF-8 `s`: nothing in its C-string part is marked. */
  predicate Untrimmable(s: string, removeDuals: bool)
  {
    NothingToTrim(BeforeFirst(s, '\0'), removeDuals, DEFAULT_INVALID_CHARS)
  }

  /** A label as `ParseSubNames` keeps it: cut to its first 64 bytes when it is longer. */
  function LabelText(l: string): Text
  {
    if ByteLen(l) > MAX_LABEL_BYTES then Truncate(l, MAX_LABEL_BYTES) else Utf8(l)
  }

  /** A label (after the cut) passes when it is valid UTF-8, not empty, and has nothing to trim. */
  predicate Accepted(t: Text, displayfilter: bool)
  {
    t.Utf8? && t.cps != [] && Untrimmable(t.cps, displayfilter)
  }

  /** The labels after the validation loop: all cut and kept when every one passes, none otherwise. */
  function Validated(labels: seq<string>, displayfilter: bool): seq<string>
  {
    if forall k :: 0 <= k < |labels| ==> Accepted(LabelText(labels[k]), displayfilter)
    then seq(|labels|, k requires 0 <= k < |labels| && Accepted(LabelText(labels[k]), displayfilter) =>
               LabelText(labels[k]).cps)
    else []
  }

  /** The labels `ParseSubNames` returns and the chain name it leaves in `ChainOut`. */
  datatype Parsed = Parsed(names: seq<string>, chainOut: string)

  /**
   * The labels of the part of a name before `@`: split on `.`; a trailing
   * empty label is dropped and then no root is added; otherwise, with
   * `addVerus`, the Verus chain name is appended unless the last label
   * already is it.
   */
  function Rooted(local: string, addVerus: bool): seq<string>
  {
    var dotParts := Split(local, {'.'});
    var trailingDot := dotParts[|dotParts| - 1] == [];
    var labels := if trailingDot then dotParts[..|dotParts| - 1] else dotParts;
    if addVerus && !trailingDot && LowerStr(labels[|labels| - 1]) != VerusLower()
    then labels + [VerusLower()]
    else labels
  }

  /** The pieces around `@` are refused: more than two, or a chain part with something to trim. */
  predicate ChainRefused(atParts: seq<string>)
  {
    |atParts| > 2 || (|atParts| > 1 && !Untrimmable(atParts[1], false))
  }

  /**
   * `CVDXF::ParseSubNames`: a refused chain part gives no labels and leaves
   * the chain name alone; otherwise a non-empty chain part becomes the chain
   * name and the rooted labels of the part before `@` are validated.
   */
  function SubNames(name: string, chainIn: string, displayfilter: bool, addVerus: bool): Parsed
  {
    var atParts := Split(name, {'@'});
    if ChainRefused(atParts) then Parsed([], chainIn)
    else
      Parsed(Validated(Rooted(atParts[0], addVerus), displayfilter),
             if |atParts| == 2 && atParts[1] != [] then atParts[1] else chainIn)
  }

  /** `CVDXF::ParseSubNames`, with `ChainOut` passed in as `chainIn` and returned as `chainOut`. */
  method ParseSubNames(name: string, chainIn: string, displayfilter: bool, addVerus: bool)
    returns (names: seq<string>, chainOut: string)
    ensures Parsed(names, chainOut) == SubNames(name, chainIn, displayfilter, addVerus)
  {
    chainOut := chainIn;
    var retNames := Split(name, {'@'});
    if |retNames| > 1 {
      var trimmedChain := TrimSpaces(Utf8(retNames[1]), false, DEFAULT_INVALID_CHARS);
      if |retNames| > 2 || trimmedChain != retNames[1] {
        names := [];
        return;
      }
    }
    if |retNames| == 2 && retNames[1] != [] {
      chainOut := retNames[1];
    }
    var nameCopy := retNames[0];
    retNames := RootLabels(nameCopy, addVerus);
    names := ValidateLabels(retNames, displayfilter);
  }

  /** The middle of `ParseSubNames`: splitting the part before `@` on `.` and adding the root. */
  method RootLabels(nameCopy: string, addVerus: bool) returns (retNames: seq<string>)
    ensures retNames == Rooted(nameCopy, addVerus)
  {
    retNames := Split(nameCopy, {'.'});
    var root := addVerus;
    if |retNames| > 0 && retNames[|retNames| - 1] == [] {
      root := false;
      retNames := retNames[..|retNames| - 1];
    }
    var verusChainName := LowerStr(VERUS_CHAINNAME);
    if root {
      // The last label is not empty here, so the source's branch for an
      // empty last label is never taken and is not modelled.
      var lastRetName := LowerStr(retNames[|retNames| - 1]);
      if lastRetName != verusChainName {
        retNames := retNames + [verusChainName];
      }
    }
  }

  /** The end of `ParseSubNames`: cutting each label to 64 bytes in place and refusing all on the first bad one. */
  method ValidateLabels(labels: seq<string>, displayfilter: bool) returns (names: seq<string>)
    ensures names == Validated(labels, displayfilter)
  {
    var retNames := labels;
    var i := 0;
    while i < |retNames|
      invariant 0 <= i <= |retNames| == |labels|
      invariant forall k :: 0 <= k < i ==>
                  Accepted(LabelText(labels[k]), displayfilter) && retNames[k] == LabelText(labels[k]).cps
      invariant forall k :: i <= k < |labels| ==> retNames[k] == labels[k]
    {
      var t := LabelText(retNames[i]);
      var trimmed := TrimSpaces(t, displayfilter, DEFAULT_INVALID_CHARS);
      if t.Malformed? || t.cps == [] || trimmed != t.cps {
        assert !Accepted(LabelText(labels[i]), displayfilter);
        names := [];
        return;
      }
      retNames := retNames[i := t.cps];
      i := i + 1;
    }
    names := retNames;
  }

  /** Every label `ParseSubNames` returns satisfies this. */
  predicate IsLabel(l: string, displayfilter: bool)
  {
    l != [] && ByteLen(l) <= MAX_LABEL_BYTES && '.' !in l && '@' !in l && Untrimmable(l, displayfilter)
  }

  /** A name with more than one `@`, or a chain part with something to trim, gives no labels and leaves the chain name alone. */
  lemma SubNamesRejects(name: string, chainIn: string, displayfilter: bool, addVerus: bool)
    ensures CountIn(name, {'@'}) > 1 ==> SubNames(name, chainIn, displayfilter, addVerus) == Parsed([], chainIn)
    ensures var atParts := Split(name, {'@'});
            CountIn(name, {'@'}) == 1 ==>
              |atParts| == 2 &&
              (!Untrimmable(atParts[1], false) ==> SubNames(name, chainIn, displayfilter, addVerus) == Parsed([], chainIn))
  {
    SplitCount(name, {'@'});
  }

  /** The chain name is the non-empty text after the one `@`, or the one passed in. */
  lemma SubNamesChain(name: string, chainIn: string, displayfilter: bool, addVerus: bool)
    ensures var atParts := Split(name, {'@'});
            CountIn(name, {'@'}) == 1 ==>
              |atParts| == 2 &&
              (Untrimmable(atParts[1], false) ==>
                 SubNames(name, chainIn, displayfilter, addVerus).chainOut ==
                   (if atParts[1] != [] then atParts[1] else chainIn))
  {
    SplitCount(name, {'@'});
  }

  /** Cutting a label keeps a prefix of it of at most 64 bytes. */
  lemma LabelTextPrefix(l: string)
    ensures LabelText(l).Utf8? ==>
              var t := LabelText(l).cps;
              |t| <= |l| && t == l[..|t|] && ByteLen(t) <= MAX_LABEL_BYTES
  {
    if ByteLen(l) > MAX_LABEL_BYTES {
      TruncateKeepsPrefix(l, MAX_LABEL_BYTES);
    }
  }

  /** A label the validation keeps is the accepted cut of the label it was given. */
  lemma ValidatedElement(labels: seq<string>, displayfilter: bool, k: int)
    requires 0 <= k < |labels| && Validated(labels, displayfilter) != []
    ensures |Validated(labels, displayfilter)| == |labels|
    ensures Accepted(LabelText(labels[k]), displayfilter)
    ensures Validated(labels, displayfilter)[k] == LabelText(labels[k]).cps
  {
  }

  /** Validated labels free of `.` and `@` are labels in the sense of `IsLabel`. */
  lemma ValidatedAreLabels(labels: seq<string>, displayfilter: bool)
    requires forall k :: 0 <= k < |labels| ==> '.' !in labels[k] && '@' !in labels[k]
    ensures var names := Validated(labels, displayfilter);
            forall k :: 0 <= k < |names| ==> IsLabel(names[k], displayfilter)
  {
    var names := Validated(labels, displayfilter);
    forall k | 0 <= k < |names|
      ensures IsLabel(names[k], displayfilter)
    {
      ValidatedElement(labels, displayfilter, k);
      var l := labels[k];
      LabelTextPrefix(l);
      var t := LabelText(l).cps;
      forall j | 0 <= j < |t|
        ensures t[j] != '.' && t[j] != '@'
      {
        assert t[j] == l[j];
      }
    }
  }

  /** The Verus chain name, lower-cased, is `vrsc`. */
  lemma VerusLowerValue()
    ensures VerusLower() == "vrsc" && ByteLen(VerusLower()) == 4
  {
    assert LowerStr(VERUS_CHAINNAME) == "vrsc";
    assert Encode("vrsc") == [0x76, 0x72, 0x73, 0x63];
  }

  /** The rooted labels of a part without `@` are free of `.` and `@`. */
  lemma RootedFree(local: string, addVerus: bool)
    requires '@' !in local
    ensures var labels := Rooted(local, addVerus);
            forall k :: 0 <= k < |labels| ==> '.' !in labels[k] && '@' !in labels[k]
  {
    var dotParts := Split(local, {'.'});
    SplitPieces(local, {'.'});
    VerusLowerValue();
    var labels := Rooted(local, addVerus);
    forall k | 0 <= k < |labels|
      ensures '.' !in labels[k] && '@' !in labels[k]
    {
      if k < |dotParts| && labels[k] == dotParts[k] {
        var l := labels[k];
        forall j | 0 <= j < |l|
          ensures l[j] != '.' && l[j] != '@'
        {
          assert l[j] in local;
        }
      }
    }
  }

  /** Every returned label is non-empty, at most 64 bytes, free of `.` and `@`, and has nothing to trim. */
  lemma SubNamesAreLabels(name: string, chainIn: string, displayfilter: bool, addVerus: bool)
    ensures var names := SubNames(name, chainIn, displayfilter, addVerus).names;
            forall k :: 0 <= k < |names| ==> IsLabel(names[k], displayfilter)
  {
    var atParts := Split(name, {'@'});
    if !ChainRefused(atParts) {
      SplitPieces(name, {'@'});
      var local := atParts[0];
      forall j | 0 <= j < |local|
        ensures local[j] != '@'
      {
      }
      RootedFree(local, addVerus);
      ValidatedAreLabels(Rooted(local, addVerus), displayfilter);
    }
  }

  /** Lower-casing that yields the Verus chain name only comes from a 4-byte ASCII label. */
  lemma VerusLabelShort(l: string)
    requires LowerStr(l) == VerusLower()
    ensures ByteLen(l) == 4
  {
    VerusLowerValue();
    assert |l| == 4;
    forall k | 0 <= k < |l|
      ensures l[k] as int < 0x80
    {
      assert LowerChar(l[k]) == "vrsc"[k];
    }
    ByteLenAtLeastLength(l);
  }

  /** With `addVerus`, the rooted labels of a part that does not end in `.` end in a 4-byte Verus chain label. */
  lemma RootedEndsInVerus(local: string)
    requires local != [] && local[|local| - 1] != '.'
    ensures var labels := Rooted(local, true);
            |labels| >= 1 && LowerStr(labels[|labels| - 1]) == VerusLower() &&
            ByteLen(labels[|labels| - 1]) == 4
  {
    var dotParts := Split(local, {'.'});
    SplitLastEmpty(local, {'.'});
    VerusLowerValue();
    var last := dotParts[|dotParts| - 1];
    if LowerStr(last) == VerusLower() {
      VerusLabelShort(last);
    } else {
      assert LowerStr("vrsc") == "vrsc";
    }
  }

  /**
   * With `addVerus` and a name part that does not end in `.`, a non-empty
   * result always ends in the Verus chain name.
   */
  lemma SubNamesRooted(name: string, chainIn: string, displayfilter: bool)
    requires var local := BeforeFirst(name, '@'); local != [] && local[|local| - 1] != '.'
    ensures var names := SubNames(name, chainIn, displayfilter, true).names;
            names != [] ==> LowerStr(names[|names| - 1]) == VerusLower()
  {
    var atParts := Split(name, {'@'});
    SplitFirst(name, '@');
    var names := SubNames(name, chainIn, displayfilter, true).names;
    if names != [] {
      var labels := Rooted(atParts[0], true);
      RootedEndsInVerus(atParts[0]);
      var last := labels[|labels| - 1];
      ValidatedElement(labels, displayfilter, |labels| - 1);
      assert LabelText(last) == Utf8(last);
    }
  }

  /**
   * `CVDXF::HasExplicitParent`: at most one `@`, and the part before it
   * splits on `.` into a last piece that is empty.
   */
  function HasExplicitParent(name: string): (r: bool)
    ensures var local := BeforeFirst(name, '@');
            r <==> CountIn(name, {'@'}) <= 1 && (local == [] || local[|local| - 1] == '.')
  {
    SplitCount(name, {'@'});
    SplitFirst(name, '@');
    SplitLastEmpty(BeforeFirst(name, '@'), {'.'});
    var atParts := Split(name, {'@'});
    if |atParts| > 2 then false
    else
      var dotParts := Split(atParts[0], {'.'});
      dotParts[|dotParts| - 1] == []
  }

  /**
   * A name whose part before `@` is empty (`""`, `"@"`, `"@chain"`) parses to
   * no labels: the single empty label is dropped as a trailing one.  This is
   * the case in which vdxf.cpp:207 pops a character off an empty string.
   */
  lemma EmptyLocalPartNoLabels(name: string, chainIn: string, displayfilter: bool, addVerus: bool)
    requires BeforeFirst(name, '@') == []
    ensures SubNames(name, chainIn, displayfilter, addVerus).names == []
  {
    SplitFirst(name, '@');
  }

  /** A name with an explicit parent gets no implicit root, whatever `addVerus` says. */
  lemma ExplicitParentHasNoRoot(name: string, chainIn: string, displayfilter: bool)
    requires HasExplicitParent(name)
    ensures SubNames(name, chainIn, displayfilter, true) == SubNames(name, chainIn, displayfilter, false)
  {
  }

  /**
   * A name written out in full, labels joined by `.` with a closing `.`,
   * parses back to exactly those labels.
   */
  lemma SubNamesOfFullName(labels: seq<string>, chainIn: string, displayfilter: bool, addVerus: bool)
    requires |labels| >= 1
    requires forall k :: 0 <= k < |labels| ==> IsLabel(labels[k], displayfilter)
    ensures SubNames(Join(labels, '.') + ".", chainIn, displayfilter, addVerus) == Parsed(labels, chainIn)
  {
    var full := Join(labels, '.') + ".";
    assert forall k :: 0 <= k < |labels| ==> '.' !in labels[k] && '@' !in labels[k];
    FullNameSplits(labels);
    RootedOfFullName(labels, addVerus);
    ValidatedOfLabels(labels, displayfilter);
    SubNamesWithoutAt(full, chainIn, displayfilter, addVerus);
  }

  /** A name without `@` keeps the chain name and validates its rooted labels. */
  lemma SubNamesWithoutAt(name: string, chainIn: string, displayfilter: bool, addVerus: bool)
    requires Split(name, {'@'}) == [name]
    ensures SubNames(name, chainIn, displayfilter, addVerus) ==
              Parsed(Validated(Rooted(name, addVerus), displayfilter), chainIn)
  {
    assert !ChainRefused([name]);
  }

  /** The rooted labels of a full name are its labels: the closing `.` turns the root off. */
  lemma RootedOfFullName(labels: seq<string>, addVerus: bool)
    requires |labels| >= 1
    requires forall k :: 0 <= k < |labels| ==> '.' !in labels[k] && '@' !in labels[k]
    ensures Rooted(Join(labels, '.') + ".", addVerus) == labels
  {
    FullNameSplits(labels);
    var e: string := [];
    assert (labels + [e])[..|labels|] == labels;
  }

  /** Labels joined by `.` with a closing `.` contain no `@` and split on `.` into the labels and one empty piece. */
  lemma FullNameSplits(labels: seq<string>)
    requires |labels| >= 1
    requires forall k :: 0 <= k < |labels| ==> '.' !in labels[k] && '@' !in labels[k]
    ensures Split(Join(labels, '.') + ".", {'@'}) == [Join(labels, '.') + "."]
    ensures Split(Join(labels, '.') + ".", {'.'}) == labels + [[]]
  {
    var e: string := [];
    var pieces := labels + [e];
    var full := Join(pieces, '.');
    JoinSnoc(labels, e, '.');
    assert full == Join(labels, '.') + ".";
    forall k | 0 <= k < |pieces|
      ensures FreeOf(pieces[k], {'.'}) && FreeOf(pieces[k], {'@'})
    {
      if k < |labels| {
        assert pieces[k] == labels[k];
      }
    }
    JoinThenSplit(pieces, '.', {'.'});
    JoinFreeOf(pieces, '.', {'@'});
    SplitFreePrefix(full, [], {'@'});
    assert full + [] == full;
  }

  /** Labels that are already labels pass the validation unchanged. */
  lemma ValidatedOfLabels(labels: seq<string>, displayfilter: bool)
    requires forall k :: 0 <= k < |labels| ==> IsLabel(labels[k], displayfilter)
    ensures Validated(labels, displayfilter) == labels
  {
    forall k | 0 <= k < |labels|
      ensures LabelText(labels[k]) == Utf8(labels[k])
    {
    }
  }

  /** The bytes of a string before its first zero byte are the bytes of the string before its first U+0000. */
  lemma {:induction false} EncodeBeforeNul(s: string)
    ensures BeforeFirst(Encode(s), 0) == Encode(BeforeFirst(s, '\0'))
  {
    if s != [] {
      var b := EncodeChar(s[0]);
      assert Encode(s) == b + Encode(s[1..]);
      EncodeBeforeNul(s[1..]);
      if s[0] == '\0' {
        assert b == [0];
      } else {
        assert b[0] != 0;
        BeforeFirstAppendFree(b, Encode(s[1..]));
        assert Encode([s[0]] + BeforeFirst(s[1..], '\0')) == b + Encode(BeforeFirst(s[1..], '\0')) by {
          assert ([s[0]] + BeforeFirst(s[1..], '\0'))[1..] == BeforeFirst(s[1..], '\0');
        }
      }
    }
  }

  /** A character other than U+0000 encodes without zero bytes, so it passes through `strlen`. */
  lemma BeforeFirstAppendFree(b: Bytes, rest: Bytes)
    requires |b| >= 1 && b[0] != 0 && forall k :: 1 <= k < |b| ==> b[k] >= 0x80
    ensures BeforeFirst(b + rest, 0) == b + BeforeFirst(rest, 0)
    decreases |b|
  {
    assert (b + rest)[1..] == b[1..] + rest;
    if |b| > 1 {
      BeforeFirstAppendFree(b[1..], rest);
    }
  }

  /** The bytes of a lower-cased label that a `strlen`-bounded hash reads. */
  function LabelCStr(l: string): Bytes
  {
    BeforeFirst(Encode(LowerStr(l)), 0)
  }

  /**
   * One parent level in `CVDXF::CleanName`: under a null parent all bytes of
   * the lower-cased label are hashed, under any other parent only those
   * before its first zero byte.
   */
  function VdxfStep(h: Hashes, parent: U160, l: string): U160
  {
    IdStep(h, parent, if IsNull(parent) then Encode(LowerStr(l)) else LabelCStr(l))
  }

  /** The parent identifier: labels from the last down to the second, each chained under the previous. */
  function FoldVdxf(h: Hashes, labels: seq<string>, parent: U160): U160
    decreases |labels|
  {
    if |labels| <= 1 then parent
    else FoldVdxf(h, labels[..|labels| - 1], VdxfStep(h, parent, labels[|labels| - 1]))
  }

  /**
   * `CVDXF::CleanName`: no labels give `""` and the parent unchanged;
   * under a non-null parent a trailing Verus chain label is dropped from a
   * multipart name; the first label is returned with the rest folded into
   * the parent.
   */
  function CleanNameOf(h: Hashes, name: string, parent: U160, displayfilter: bool): (string, U160)
  {
    var names := SubNames(name, [], displayfilter, true).names;
    if names == [] then ([], parent)
    else (Kept(names, parent)[0], FoldVdxf(h, Kept(names, parent), parent))
  }

  /** The labels `CleanName` keeps: a trailing Verus chain label goes when the parent is not null and there are others. */
  function Kept(names: seq<string>, parent: U160): seq<string>
    requires names != []
  {
    if !IsNull(parent) && |names| > 1 && LowerStr(names[|names| - 1]) == VerusLower()
    then names[..|names| - 1]
    else names
  }

  /** `CVDXF::CleanName`, with the parent passed by reference returned as `parentOut`. */
  method CleanName(h: Hashes, name: string, parent: U160, displayfilter: bool)
    returns (clean: string, parentOut: U160)
    ensures (clean, parentOut) == CleanNameOf(h, name, parent, displayfilter)
  {
    var subNames, chainName := ParseSubNames(name, [], displayfilter, true);
    parentOut := parent;
    if |subNames| == 0 {
      clean := [];
      return;
    }
    ghost var kept := Kept(subNames, parent);
    if !IsNull(parentOut) && |subNames| > 1 &&
       LowerStr(subNames[|subNames| - 1]) == LowerStr(VERUS_CHAINNAME) {
      subNames := subNames[..|subNames| - 1];
    }
    assert subNames == kept;
    parentOut := FoldParentLabels(h, subNames, parentOut);
    clean := subNames[0];
  }

  /** The loop of `CVDXF::CleanName`: hashes the labels from the last down to the second into the parent. */
  method FoldParentLabels(h: Hashes, subNames: seq<string>, parent: U160) returns (parentOut: U160)
    requires subNames != []
    ensures parentOut == FoldVdxf(h, subNames, parent)
  {
    parentOut := parent;
    var i := |subNames| - 1;
    assert subNames[..i + 1] == subNames;
    while i > 0
      invariant 0 <= i < |subNames|
      invariant FoldVdxf(h, subNames[..i + 1], parentOut) == FoldVdxf(h, subNames, parent)
    {
      ghost var prefix := subNames[..i + 1];
      assert prefix[..i] == subNames[..i] && prefix[i] == subNames[i];
      assert FoldVdxf(h, prefix, parentOut) == FoldVdxf(h, prefix[..i], VdxfStep(h, parentOut, prefix[i]));
      parentOut := VdxfStep(h, parentOut, subNames[i]);
      i := i - 1;
    }
  }

  /**
   * `CVDXF::GetID(Name, parent)`: `"::"` is hashed as it is, any other name
   * is cleaned first (which updates the parent); an empty clean name gives
   * the null identifier; otherwise the lower-cased clean name is chained
   * under the parent.
   */
  function IdOf(h: Hashes, name: string, parent: U160): (U160, U160)
  {
    if name == DATA_KEY_SEPARATOR then (LeafId(h, name, parent), parent)
    else (LeafId(h, CleanNameOf(h, name, parent, false).0, CleanNameOf(h, name, parent, false).1),
          CleanNameOf(h, name, parent, false).1)
  }

  /** The identifier of a clean name under `parent`: null for `""`, else its lower-cased C string chained under `parent`. */
  function LeafId(h: Hashes, clean: string, parent: U160): U160
  {
    if clean == [] then NULL_ID else IdStep(h, parent, LabelCStr(clean))
  }

  /** `CVDXF::GetID(Name, parent)`, with the updated parent returned as `parentOut`. */
  method GetID(h: Hashes, name: string, parent: U160) returns (id: U160, parentOut: U160)
    ensures (id, parentOut) == IdOf(h, name, parent)
  {
    var cleanName: string;
    parentOut := parent;
    if name == DATA_KEY_SEPARATOR {
      cleanName := name;
    } else {
      cleanName, parentOut := CleanName(h, name, parent, false);
    }
    if cleanName == [] {
      id := NULL_ID;
      return;
    }
    var subName := LowerStr(cleanName);
    var idName := BeforeFirst(Encode(subName), 0);
    var idHash := h.hash(idName);
    if !IsNull(parentOut) {
      idHash := h.hash(parentOut + idHash);
    }
    id := h.hash160(idHash);
  }

  /** `CVDXF::GetID(Name)`: like the two-argument form under a null parent, but without the `"::"` case. */
  function TopLevelIdOf(h: Hashes, name: string): U160
  {
    LeafId(h, CleanNameOf(h, name, NULL_ID, false).0, CleanNameOf(h, name, NULL_ID, false).1)
  }

  /** `CVDXF::GetID(Name)`. */
  method GetTopLevelID(h: Hashes, name: string) returns (id: U160)
    ensures id == TopLevelIdOf(h, name)
  {
    var parent := NULL_ID;
    var cleanName;
    cleanName, parent := CleanName(h, name, parent, false);
    if cleanName == [] {
      id := NULL_ID;
      return;
    }
    var subName := LowerStr(cleanName);
    var idName := BeforeFirst(Encode(subName), 0);
    var idHash := h.hash(idName);
    if !IsNull(parent) {
      idHash := h.hash(parent + idHash);
    }
    id := h.hash160(idHash);
  }

  /**
   * The one-argument `GetID` is the two-argument one under a null parent for
   * every name but `"::"`, which it rejects (`:` is an invalid character)
   * where the two-argument one hashes it.
   */
  lemma TopLevelIdIsNullParent(h: Hashes, name: string)
    ensures name != DATA_KEY_SEPARATOR ==> TopLevelIdOf(h, name) == IdOf(h, name, NULL_ID).0
    ensures TopLevelIdOf(h, DATA_KEY_SEPARATOR) == NULL_ID
    ensures IdOf(h, DATA_KEY_SEPARATOR, NULL_ID) == (IdStep(h, NULL_ID, Encode(DATA_KEY_SEPARATOR)), NULL_ID)
  {
    SeparatorRefused();
    assert LowerStr(DATA_KEY_SEPARATOR) == DATA_KEY_SEPARATOR;
    assert Encode(DATA_KEY_SEPARATOR) == [0x3A, 0x3A];
    BeforeFirstAbsent(Encode(DATA_KEY_SEPARATOR), 0);
  }

  /** `:` is one of the default invalid characters. */
  lemma ColonIsInvalid()
    ensures ':' in InvalidSet(false, DEFAULT_INVALID_CHARS)
  {
    var inv := DEFAULT_INVALID_CHARS;
    assert inv + "" == inv;
    assert '\0' !in inv by {
      forall k | 0 <= k < |inv|
        ensures inv[k] != '\0'
      {
      }
    }
    BeforeFirstAbsent(inv, '\0');
    var list := BeforeFirst(inv + "", '\0');
    assert list[2] == ':';
  }

  /** `::` on its own parses to no labels: `:` is an invalid character. */
  lemma SeparatorRefused()
    ensures SubNames(DATA_KEY_SEPARATOR, [], false, true).names == []
  {
    var s := DATA_KEY_SEPARATOR;
    SplitFree(s, {'@'});
    SplitFree(s, {'.'});
    VerusLowerValue();
    assert LowerStr(s) != VerusLower();
    assert Rooted(s, true) == [s, VerusLower()];
    BeforeFirstAbsent(s, '\0');
    ColonIsInvalid();
    assert !Unmarked(s, 0, false, DEFAULT_INVALID_CHARS);
    assert ByteLen(s) == 2 by {
      assert Encode(s) == [0x3A, 0x3A];
    }
    assert !Accepted(LabelText(s), false);
    var rooted := Rooted(s, true);
    assert !Accepted(LabelText(rooted[0]), false);
    assert Validated(rooted, false) == [];
    assert !ChainRefused(Split(s, {'@'}));
  }

  /**
   * A two-label name resolves like its leaf under the identifier of its
   * parent label: the identifier of `leaf.parent.` under `p` is the
   * identifier of `leaf.` under the identifier of `parent.` under `p`.
   */
  lemma HierarchicalId(h: Hashes, leaf: string, parentLabel: string, p: U160)
    requires IsLabel(leaf, false) && IsLabel(parentLabel, false)
    requires '\0' !in parentLabel
    requires IsNull(p) || LowerStr(parentLabel) != VerusLower()
    ensures IdOf(h, leaf + "." + parentLabel + ".", p).0 ==
            IdOf(h, leaf + ".", IdOf(h, parentLabel + ".", p).0).0
  {
    var full := leaf + "." + parentLabel + ".";
    SubNamesOfFullName([leaf, parentLabel], [], false, true);
    assert Join([leaf, parentLabel], '.') + "." == full;
    SubNamesOfFullName([leaf], [], false, true);
    SubNamesOfFullName([parentLabel], [], false, true);
    var q := VdxfStep(h, p, parentLabel);
    assert Kept([leaf, parentLabel], p) == [leaf, parentLabel];
    assert FoldVdxf(h, [leaf, parentLabel], p) == q by {
      assert [leaf, parentLabel][..1] == [leaf];
    }
    assert CleanNameOf(h, full, p, false) == (leaf, q);
    assert full != DATA_KEY_SEPARATOR by {
      assert |full| >= 4;
    }
    assert IdOf(h, full, p).0 == LeafId(h, leaf, q);
    assert CleanNameOf(h, parentLabel + ".", p, false) == (parentLabel, p);
    assert parentLabel + "." != DATA_KEY_SEPARATOR by {
      assert (parentLabel + ".")[|parentLabel|] == '.';
    }
    assert IdOf(h, parentLabel + ".", p).0 == IdStep(h, p, LabelCStr(parentLabel));
    EncodeBeforeNul(LowerStr(parentLabel));
    LowerKeepsNul(parentLabel);
    BeforeFirstAbsent(LowerStr(parentLabel), '\0');
    assert LabelCStr(parentLabel) == Encode(LowerStr(parentLabel));
    assert q == IdOf(h, parentLabel + ".", p).0;
    assert CleanNameOf(h, leaf + ".", q, false) == (leaf, q);
    assert leaf + "." != DATA_KEY_SEPARATOR by {
      assert (leaf + ".")[|leaf|] == '.';
    }
  }

  /** Lower-casing neither adds nor removes U+0000. */
  lemma LowerKeepsNul(s: string)
    ensures '\0' in LowerStr(s) <==> '\0' in s
  {
    if '\0' in s {
      var k :| 0 <= k < |s| && s[k] == '\0';
      assert LowerStr(s)[k] == '\0';
    }
    if '\0' in LowerStr(s) {
      var k :| 0 <= k < |s| && LowerStr(s)[k] == '\0';
      assert s[k] == '\0';
    }
  }

  /** With no `c` in it, the part of `s` before the first `c` is all of `s`. */
  lemma {:induction false} BeforeFirstAbsent<T>(s: seq<T>, c: T)
    requires c !in s
    ensures BeforeFirst(s, c) == s
  {
    if s != [] {
      assert c !in s[1..];
      BeforeFirstAbsent(s[1..], c);
    }
  }

  /**
   * The key name and namespace `CVDXF::GetDataKey` hashes: a leading
   * `namespace::` sets the namespace to the decoded currency name (given a
   * closing `.` if it lacks one) unless that decodes to null, and the rest
   * is the key; a null namespace becomes `VERUS_CHAINID`.
   */
  function DataKeyOf(env: VdxfEnv, keyName: string, nameSpaceID: U160): (U160, U160)
    requires HasNamespace(keyName)
  {
    var parts := Split(keyName, {':'});
    var split :=
      if |parts| > 2 && parts[1] == [] then
        var nsName := if parts[0][|parts[0]| - 1] == '.' then parts[0] else parts[0] + ".";
        var nsID := env.decodeCurrencyName(nsName);
        (Join(parts[2..], ':'), if !IsNull(nsID) then nsID else nameSpaceID)
      else (keyName, nameSpaceID);
    var nsOut := if IsNull(split.1) then env.verusChainId else split.1;
    var parent := IdOf(env.hashes, DATA_KEY_SEPARATOR, nsOut).0;
    (IdOf(env.hashes, split.0, parent).0, nsOut)
  }

  /**
   * What `GetDataKey` needs of `keyName`: when it has a `::` after its first
   * part, that first part is not empty (the source reads its last
   * character).
   */
  predicate HasNamespace(keyName: string)
  {
    var parts := Split(keyName, {':'});
    |parts| > 2 && parts[1] == [] ==> parts[0] != []
  }

  /** A key name has a usable namespace part exactly when it does not start with `::`. */
  lemma HasNamespaceMeaning(keyName: string)
    ensures HasNamespace(keyName) <==> !(|keyName| >= 2 && keyName[..2] == DATA_KEY_SEPARATOR)
  {
    var parts := Split(keyName, {':'});
    SplitFirst(keyName, ':');
    if keyName != [] && keyName[0] == ':' {
      var rest := Split(keyName[1..], {':'});
      assert parts == [[]] + rest;
      SplitFirst(keyName[1..], ':');
      if |keyName| >= 2 && keyName[1] == ':' {
        assert keyName[..2] == DATA_KEY_SEPARATOR;
        assert Split(keyName[1..], {':'}) == [[]] + Split(keyName[2..], {':'});
      } else if |keyName| == 1 {
        assert keyName[1..] == [];
      }
    }
  }

  /** `CVDXF::GetDataKey`, with the namespace passed by reference returned as `nameSpaceOut`. */
  method GetDataKey(env: VdxfEnv, keyName: string, nameSpaceID: U160) returns (key: U160, nameSpaceOut: U160)
    requires HasNamespace(keyName)
    ensures (key, nameSpaceOut) == DataKeyOf(env, keyName, nameSpaceID)
  {
    var keyCopy := keyName;
    nameSpaceOut := nameSpaceID;
    var addressParts := Split(keyCopy, {':'});
    if |addressParts| > 2 && addressParts[1] == [] {
      var ns := addressParts[0];
      var nsID := env.decodeCurrencyName(if ns[|ns| - 1] == '.' then ns else ns + ".");
      if !IsNull(nsID) {
        nameSpaceOut := nsID;
      }
      keyCopy := RejoinKey(addressParts);
    }
    if IsNull(nameSpaceOut) {
      nameSpaceOut := env.verusChainId;
    }
    var parent, sameNameSpace := GetID(env.hashes, DATA_KEY_SEPARATOR, nameSpaceOut);
    var keyParent;
    key, keyParent := GetID(env.hashes, keyCopy, parent);
  }

  /** The loop of `CVDXF::GetDataKey` that glues the parts after `ns::` back together with `:`. */
  method RejoinKey(addressParts: seq<string>) returns (keyCopy: string)
    requires |addressParts| > 2
    ensures keyCopy == Join(addressParts[2..], ':')
  {
    keyCopy := [];
    var i := 2;
    while i < |addressParts|
      invariant 2 <= i <= |addressParts|
      invariant i > 2 ==> keyCopy == Join(addressParts[2..i], ':')
    {
      if i == 2 {
        keyCopy := addressParts[i];
        assert addressParts[2..3] == [addressParts[2]];
      } else {
        JoinSnoc(addressParts[2..i], addressParts[i], ':');
        assert addressParts[2..i + 1] == addressParts[2..i] + [addressParts[i]];
        keyCopy := keyCopy + ":" + addressParts[i];
      }
      i := i + 1;
    }
    assert addressParts[2..i] == addressParts[2..];
  }

  /**
   * Writing the namespace into the key name, `ns::key`, gives the same data
   * key as passing the namespace's identifier, provided it decodes to a
   * non-null identifier; with a null decoding the namespace passed in is
   * used.
   */
  lemma ExplicitNamespace(env: VdxfEnv, ns: string, key: string, nameSpaceID: U160)
    requires ns != [] && ':' !in ns && ':' !in key
    ensures HasNamespace(ns + "::" + key) && HasNamespace(key)
    ensures var nsID := env.decodeCurrencyName(if ns[|ns| - 1] == '.' then ns else ns + ".");
            DataKeyOf(env, ns + "::" + key, nameSpaceID) ==
              DataKeyOf(env, key, if IsNull(nsID) then nameSpaceID else nsID)
  {
    var e: string := [];
    var pieces := [ns, e, key];
    assert FreeOf(ns, {':'}) && FreeOf(key, {':'});
    assert Join(pieces, ':') == ns + "::" + key by {
      assert Join([e, key], ':') == e + [':'] + key;
    }
    JoinThenSplit(pieces, ':', {':'});
    SplitFreePrefix(key, [], {':'});
    assert key + [] == key;
    assert Split(key, {':'}) == [key];
    assert pieces[2..] == [key];
  }
}
