/**
 * Identity names as the key store handles them: splitting a multipart name
 * such as `alice.bob@` into length-limited, sanitised labels, folding the
 * parent labels into a parent identifier, the name identifier of an
 * identity, and the identifier a script is stored under.
 *
 * Names are byte strings here: nothing in this part of the key store
 * interprets UTF-8.  Every hash is taken over a C string (`strlen`), so a
 * label is hashed only up to its first zero byte.
 */
module IdentityNames {
  import opened Strings
  import opened Hashing
  import opened Wrappers
  import opened ChainParams

  /** The bytes of `\/:*?"<>|`, each replaced by an underscore. */
  const INVALID_NAME_BYTES: set<byte> := {0x5C, 0x2F, 0x3A, 0x2A, 0x3F, 0x22, 0x3C, 0x3E, 0x7C}
  const UNDERSCORE: byte := 0x5F
  const DOT: byte := 0x2E
  const AT: byte := 0x40

  /** Both label separators: `.` and `@`. */
  const SEPARATORS: set<byte> := {DOT, AT}

  function SanitizeByte(b: byte): byte
  {
    if b in INVALID_NAME_BYTES then UNDERSCORE else b
  }

  /** The name with every invalid byte replaced by an underscore. */
  function Sanitized(name: Bytes): Bytes
  {
    seq(|name|, k requires 0 <= k < |name| => SanitizeByte(name[k]))
  }

  /** A label cut to its first `MAX_LABEL_BYTES` bytes when it is longer. */
  function Truncated(piece: Bytes): Bytes
  {
    if |piece| > MAX_LABEL_BYTES then piece[..MAX_LABEL_BYTES] else piece
  }

  /** What `ParseSubNames` returns: the sanitised name split at `.` and `@`, each label truncated. */
  function SubNames(name: Bytes): seq<Bytes>
  {
    var pieces := Split<byte>(Sanitized(name), SEPARATORS);
    seq(|pieces|, k requires 0 <= k < |pieces| => Truncated(pieces[k]))
  }

  /** A label that `ParseSubNames` gives back unchanged. */
  predicate IsCleanLabel(l: Bytes)
  {
    |l| <= MAX_LABEL_BYTES && FreeOf(l, INVALID_NAME_BYTES + SEPARATORS)
  }

  /** `ParseSubNames` in keystore.cpp: sanitise in place, split, truncate in place. */
  method ParseSubNames(name: Bytes) returns (subNames: seq<Bytes>)
    ensures subNames == SubNames(name)
  {
    var nameCopy := name;
    var i := 0;
    while i < |nameCopy|
      invariant 0 <= i <= |nameCopy| == |name|
      invariant forall k :: 0 <= k < i ==> nameCopy[k] == SanitizeByte(name[k])
      invariant forall k :: i <= k < |nameCopy| ==> nameCopy[k] == name[k]
    {
      if nameCopy[i] in INVALID_NAME_BYTES {
        nameCopy := nameCopy[i := UNDERSCORE];
      }
      i := i + 1;
    }
    assert nameCopy == Sanitized(name);
    var pieces := Split<byte>(nameCopy, SEPARATORS);
    subNames := pieces;
    i := 0;
    while i < |subNames|
      invariant 0 <= i <= |subNames| == |pieces|
      invariant forall k :: 0 <= k < i ==> subNames[k] == Truncated(pieces[k])
      invariant forall k :: i <= k < |subNames| ==> subNames[k] == pieces[k]
    {
      if |subNames[i]| > MAX_LABEL_BYTES {
        subNames := subNames[i := subNames[i][..MAX_LABEL_BYTES]];
      }
      i := i + 1;
    }
  }

  /** Sanitising leaves the separators where they are. */
  lemma {:induction false} SanitizedCount(name: Bytes)
    ensures CountIn(Sanitized(name), SEPARATORS) == CountIn(name, SEPARATORS)
  {
    if name != [] {
      assert Sanitized(name)[1..] == Sanitized(name[1..]);
      SanitizedCount(name[1..]);
    }
  }

  /** A name yields one label more than it has `.` and `@` separators. */
  lemma SubNamesCount(name: Bytes)
    ensures |SubNames(name)| == CountIn(name, SEPARATORS) + 1
  {
    SplitCount(Sanitized(name), SEPARATORS);
    SanitizedCount(name);
  }

  /** Every label is at most 64 bytes long and holds no invalid byte and no separator. */
  lemma SubNamesAreClean(name: Bytes)
    ensures forall k :: 0 <= k < |SubNames(name)| ==> IsCleanLabel(SubNames(name)[k])
  {
    var s := Sanitized(name);
    var pieces := Split<byte>(s, SEPARATORS);
    SplitPieces<byte>(s, SEPARATORS);
    forall k | 0 <= k < |pieces|
      ensures IsCleanLabel(Truncated(pieces[k]))
    {
      forall j | 0 <= j < |pieces[k]|
        ensures pieces[k][j] !in INVALID_NAME_BYTES + SEPARATORS
      {
        assert pieces[k][j] in s;
      }
    }
  }

  /** Clean labels joined with dots parse back to the same labels. */
  lemma SubNamesOfJoin(labels: seq<Bytes>)
    requires |labels| >= 1
    requires forall k :: 0 <= k < |labels| ==> IsCleanLabel(labels[k])
    ensures SubNames(Join(labels, DOT)) == labels
  {
    SplitOfJoin(labels);
    var parsed := SubNames(Join(labels, DOT));
    assert |parsed| == |labels|;
    forall k | 0 <= k < |labels|
      ensures parsed[k] == labels[k]
    {
      assert |labels[k]| <= MAX_LABEL_BYTES;
    }
  }

  lemma SplitOfJoin(labels: seq<Bytes>)
    requires |labels| >= 1
    requires forall k :: 0 <= k < |labels| ==> IsCleanLabel(labels[k])
    ensures Split<byte>(Sanitized(Join(labels, DOT)), SEPARATORS) == labels
  {
    forall k | 0 <= k < |labels|
      ensures FreeOf(labels[k], INVALID_NAME_BYTES) && FreeOf(labels[k], SEPARATORS)
    {
      assert FreeOf(labels[k], INVALID_NAME_BYTES + SEPARATORS);
    }
    JoinFreeOf<byte>(labels, DOT, INVALID_NAME_BYTES);
    SanitizedFree(Join(labels, DOT));
    JoinThenSplit<byte>(labels, DOT, SEPARATORS);
  }

  /** A name without invalid bytes is left as it is by sanitising. */
  lemma SanitizedFree(name: Bytes)
    requires FreeOf(name, INVALID_NAME_BYTES)
    ensures Sanitized(name) == name
  {
    assert forall k :: 0 <= k < |name| ==> Sanitized(name)[k] == name[k];
  }

  /** ASCII lower-casing of one byte (`to_lower_copy` in the classic locale). */
  function LowerByte(b: byte): byte
  {
    if 0x41 <= b <= 0x5A then b + 0x20 else b
  }

  function LowerBytes(s: Bytes): Bytes
  {
    seq(|s|, k requires 0 <= k < |s| => LowerByte(s[k]))
  }

  /** The bytes `Hash(p, p + strlen(p))` reads: everything before the first zero byte. */
  function CStr(s: Bytes): Bytes
  {
    BeforeFirst(s, 0)
  }

  /** One parent level in keystore.cpp: the lower-cased label, as a C string, chained under `parent`. */
  function LabelStep(h: Hashes, parent: U160, l: Bytes): U160
  {
    IdStep(h, parent, CStr(LowerBytes(l)))
  }

  /** The parent identifier `CleanName` leaves: labels from the last down to the second, each chained under the previous. */
  function FoldParents(h: Hashes, labels: seq<Bytes>, parent: U160): U160
    decreases |labels|
  {
    if |labels| <= 1 then parent
    else FoldParents(h, labels[..|labels| - 1], LabelStep(h, parent, labels[|labels| - 1]))
  }

  /** `CIdentity::CleanName`: the leaf label and the parent identifier of a multipart name. */
  function CleanNameOf(h: Hashes, name: Bytes, parent: U160): (Bytes, U160)
  {
    var subNames := SubNames(name);
    (subNames[0], FoldParents(h, subNames, parent))
  }

  /** `CIdentity::CleanName` in keystore.cpp, with the parent passed by reference returned as `parentOut`. */
  method CleanName(h: Hashes, name: Bytes, parent: U160) returns (leaf: Bytes, parentOut: U160)
    ensures (leaf, parentOut) == CleanNameOf(h, name, parent)
  {
    var subNames := ParseSubNames(name);
    parentOut := parent;
    if |subNames| == 0 {
      leaf := [];
    } else {
      var i := |subNames| - 1;
      assert subNames[..i + 1] == subNames;
      while i > 0
        invariant 0 <= i < |subNames|
        invariant FoldParents(h, subNames[..i + 1], parentOut) == FoldParents(h, subNames, parent)
      {
        assert subNames[..i + 1][..i] == subNames[..i];
        parentOut := LabelStep(h, parentOut, subNames[i]);
        i := i - 1;
      }
      leaf := subNames[0];
    }
  }

  /**
   * Both `CIdentity::GetNameID(Name, parent)` and the member overload: the
   * whole lower-cased name, as a C string, chained under `parent`.  The
   * `CleanName` call the source makes first is discarded there and is left
   * out here.
   */
  function GetNameID(h: Hashes, name: Bytes, parent: U160): (r: U160)
    ensures r == GetNameIDLower(h, LowerBytes(name), parent)
    ensures IsNull(parent) ==> r == h.hash160(h.hash(CStr(LowerBytes(name))))
    ensures !IsNull(parent) ==> r == h.hash160(h.hash(parent + h.hash(CStr(LowerBytes(name)))))
  {
    LowerBytesIdempotent(name);
    LabelStep(h, parent, name)
  }

  /** The identifier of a name that is already lower-case. */
  function GetNameIDLower(h: Hashes, lower: Bytes, parent: U160): U160
  {
    IdStep(h, parent, CStr(lower))
  }

  lemma LowerBytesIdempotent(s: Bytes)
    ensures LowerBytes(LowerBytes(s)) == LowerBytes(s)
  {
  }

  /** Name identifiers ignore ASCII case. */
  lemma NameIDCaseInsensitive(h: Hashes, a: Bytes, b: Bytes, parent: U160)
    requires LowerBytes(a) == LowerBytes(b)
    ensures GetNameID(h, a, parent) == GetNameID(h, b, parent)
  {
  }

  /**
   * A single clean label parses to itself and leaves the parent unchanged,
   * and the parent `CleanName` computes for `child.label` is the name
   * identifier of `label` under the same parent: a sub-identity's parent is
   * its parent identity's identifier.
   */
  lemma CleanNameOfChild(h: Hashes, child: Bytes, l: Bytes, parent: U160)
    requires IsCleanLabel(child) && IsCleanLabel(l)
    ensures CleanNameOf(h, l, parent) == (l, parent)
    ensures CleanNameOf(h, child + [DOT] + l, parent) == (child, GetNameID(h, l, parent))
  {
    SubNamesOfJoin([l]);
    assert Join([l], DOT) == l;
    var labels := [child, l];
    SubNamesOfJoin(labels);
    assert Join(labels, DOT) == child + [DOT] + Join([l], DOT);
    assert SubNames(child + [DOT] + l) == labels;
    assert labels[..1] == [child];
    assert FoldParents(h, labels, parent) == FoldParents(h, [child], LabelStep(h, parent, l));
  }

  /** An identity as the key store sees it: its parent, its own label and the rest of its fields. */
  datatype Identity = Identity(parent: U160, name: Bytes, details: Bytes)
  {
    /**
     * `CIdentity::GetNameID(Name) const`: the source repeats the static
     * overload's code with this identity's parent, so both give the same
     * identifier.
     */
    function NameIDOf(h: Hashes, n: Bytes): (r: U160)
      ensures r == GetNameID(h, n, parent)
    {
      var lower := CStr(LowerBytes(n));
      var digest := h.hash(lower);
      h.hash160(if IsNull(parent) then digest else h.hash(parent + digest))
    }

    /**
     * `CIdentity::GetNameID() const`: the identity's own name under its
     * parent, so it depends on nothing else (see `SameIdentitySameScriptID`).
     */
    function NameID(h: Hashes): (r: U160)
      ensures r == GetNameID(h, name, parent)
    {
      NameIDOf(h, name)
    }
  }

  /**
   * `ScriptOrIdentityID`: a script that carries a valid primary identity is
   * stored under that identity's name identifier, any other script under its
   * own `Hash160`.  Decoding a script into an identity (a crypto-condition
   * output with the identity evaluation code and valid data) is supplied as
   * `identityIn`.
   */
  function ScriptOrIdentityID(h: Hashes, identityIn: Bytes -> Option<Identity>, script: Bytes): (r: U160)
    ensures identityIn(script).None? ==> r == h.hash160(script)
    ensures identityIn(script).Some? ==>
              r == GetNameID(h, identityIn(script).value.name, identityIn(script).value.parent)
  {
    match identityIn(script)
    case Some(id) => id.NameID(h)
    case None => h.hash160(script)
  }

  /**
   * Two scripts carrying identities with the same parent and the same name
   * up to ASCII case get the same script identifier, whatever else differs,
   * so a newer identity script replaces the older one.
   */
  lemma SameIdentitySameScriptID(h: Hashes, identityIn: Bytes -> Option<Identity>,
                                 s1: Bytes, s2: Bytes)
    requires identityIn(s1).Some? && identityIn(s2).Some?
    requires identityIn(s1).value.parent == identityIn(s2).value.parent
    requires LowerBytes(identityIn(s1).value.name) == LowerBytes(identityIn(s2).value.name)
    ensures ScriptOrIdentityID(h, identityIn, s1) == ScriptOrIdentityID(h, identityIn, s2)
  {
  }

}
