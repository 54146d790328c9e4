/**
 * Semantic Versioning 2.0.0 as the `semver` crate implements it:
 * versions MAJOR.MINOR.PATCH with an optional pre-release (section 2 and
 * section 9 of the SemVer 2.0.0 specification), their precedence
 * (section 11), and version requirements made of comparators.
 */
module Semver {
  import opened Wrappers
  import opened Strings

  /** One dot-separated pre-release identifier (section 9). */
  datatype Identifier = Numeric(n: nat) | Alphanumeric(text: string)

  datatype Version = Version(major: nat, minor: nat, patch: nat, pre: seq<Identifier>)

  predicate IsIdentifierChar(c: char) { IsAsciiAlphanumeric(c) || c == '-' }

  /** An alphanumeric identifier is non-empty, uses [0-9A-Za-z-] and is not all digits. */
  predicate ValidIdentifier(id: Identifier)
  {
    match id
    case Numeric(_) => true
    case Alphanumeric(t) => |t| >= 1 && (forall i :: 0 <= i < |t| ==> IsIdentifierChar(t[i])) && !AllDigits(t)
  }

  predicate ValidPre(pre: seq<Identifier>)
  {
    forall i :: 0 <= i < |pre| ==> ValidIdentifier(pre[i])
  }

  /** The crate stores MAJOR, MINOR and PATCH as `u64`. */
  predicate ValidVersion(v: Version)
  {
    v.major < U64_LIMIT && v.minor < U64_LIMIT && v.patch < U64_LIMIT && ValidPre(v.pre)
  }

  predicate IsPrerelease(v: Version) { v.pre != [] }

  // ---------------------------------------------------------------------
  // Printing

  function IdentifierToString(id: Identifier): (r: string)
  {
    match id
    case Numeric(n) => NatToString(n)
    case Alphanumeric(t) => t
  }

  function IdentifierStrings(pre: seq<Identifier>): (r: seq<string>)
    ensures |r| == |pre|
    ensures forall i :: 0 <= i < |pre| ==> r[i] == IdentifierToString(pre[i])
  {
    if pre == [] then [] else [IdentifierToString(pre[0])] + IdentifierStrings(pre[1..])
  }

  function PreToString(pre: seq<Identifier>): string
  {
    Join(IdentifierStrings(pre), '.')
  }

  function CoreToString(major: nat, minor: nat, patch: nat): string
  {
    NatToString(major) + "." + NatToString(minor) + "." + NatToString(patch)
  }

  /** `Display for Version`: `MAJOR.MINOR.PATCH`, then `-` and the pre-release if any. */
  function VersionToString(v: Version): string
  {
    CoreToString(v.major, v.minor, v.patch) + PreSuffix(v.pre)
  }

  function PreSuffix(pre: seq<Identifier>): string
  {
    if pre == [] then "" else "-" + PreToString(pre)
  }

  // ---------------------------------------------------------------------
  // Parsing

  /** A `u64` numeric part: a canonical decimal (no leading zero) below 2^64. */
  function ParseU64(s: string): (r: Option<nat>)
    ensures r.Some? ==> r.value < U64_LIMIT && NatToString(r.value) == s
  {
    match ParseNat(s)
    case None => None
    case Some(n) =>
      NatToStringOfParse(s);
      if n < U64_LIMIT then Some(n) else None
  }

  function ParseIdentifier(t: string): (r: Option<Identifier>)
    ensures r.Some? ==> ValidIdentifier(r.value) && IdentifierToString(r.value) == t
  {
    if t == [] then None
    else if AllDigits(t) then
      match ParseNat(t)
      case None => None
      case Some(n) =>
        NatToStringOfParse(t);
        Some(Numeric(n))
    else if forall i :: 0 <= i < |t| ==> IsIdentifierChar(t[i]) then Some(Alphanumeric(t))
    else None
  }

  function ParseIdentifiers(parts: seq<string>): (r: Option<seq<Identifier>>)
    ensures r.Some? ==> ValidPre(r.value) && IdentifierStrings(r.value) == parts
  {
    if parts == [] then Some([])
    else
      match (ParseIdentifier(parts[0]), ParseIdentifiers(parts[1..]))
      case (Some(id), Some(rest)) => Some([id] + rest)
      case _ => None
  }

  /** The pre-release after the first `-`: dot-separated identifiers, none empty. */
  function ParsePre(s: string): (r: Option<seq<Identifier>>)
    ensures r.Some? ==> ValidPre(r.value) && r.value != [] && PreToString(r.value) == s
  {
    var parts := Split(s, '.');
    match ParseIdentifiers(parts)
    case None => None
    case Some(pre) =>
      JoinSplit(s, '.');
      Some(pre)
  }

  /** `MAJOR.MINOR.PATCH`: exactly three `u64` numbers separated by dots. */
  function ParseCore(core: string): (r: Option<(nat, nat, nat)>)
    ensures r.Some? ==> r.value.0 < U64_LIMIT && r.value.1 < U64_LIMIT && r.value.2 < U64_LIMIT
    ensures r.Some? ==> CoreToString(r.value.0, r.value.1, r.value.2) == core
  {
    var nums := Split(core, '.');
    if |nums| != 3 then None
    else
      match (ParseU64(nums[0]), ParseU64(nums[1]), ParseU64(nums[2]))
      case (Some(major), Some(minor), Some(patch)) =>
        JoinSplit(core, '.');
        Join3(nums[0], nums[1], nums[2]);
        assert nums == [nums[0], nums[1], nums[2]];
        Some((major, minor, patch))
      case _ => None
  }

  /**
   * `Version::parse`: exactly three numeric parts, then an optional
   * pre-release after the first `-`. Build metadata is not part of this
   * model, so a `+` is refused.
   */
  function ParseVersion(s: string): (r: Option<Version>)
    ensures r.Some? ==> ValidVersion(r.value) && VersionToString(r.value) == s
  {
    match SplitOnce(s, '-')
    case None => ParseWithoutPre(s)
    case Some((core, p)) => ParseWithPre(core, p)
  }

  /** A version with no `-`: the three numbers alone. */
  function ParseWithoutPre(s: string): (r: Option<Version>)
    ensures r.Some? ==> ValidVersion(r.value) && VersionToString(r.value) == s
  {
    var c := ParseCore(s);
    if c.None? then None
    else
      var v := Version(c.value.0, c.value.1, c.value.2, []);
      assert VersionToString(v) == CoreToString(c.value.0, c.value.1, c.value.2);
      Some(v)
  }

  /** A version split at its first `-` into the numbers and the pre-release. */
  function ParseWithPre(core: string, p: string): (r: Option<Version>)
    ensures r.Some? ==> ValidVersion(r.value) && VersionToString(r.value) == core + "-" + p
  {
    var c := ParseCore(core);
    var ids := ParsePre(p);
    if c.None? || ids.None? then None
    else
      var v := Version(c.value.0, c.value.1, c.value.2, ids.value);
      PreVersionText(v, core, p);
      Some(v)
  }

  lemma PreVersionText(v: Version, core: string, p: string)
    requires CoreToString(v.major, v.minor, v.patch) == core && v.pre != [] && PreToString(v.pre) == p
    ensures VersionToString(v) == core + "-" + p
  {
  }

  // ---------------------------------------------------------------------
  // Round trips

  lemma NatStringHasNoSeparators(n: nat)
    ensures '.' !in NatToString(n) && '-' !in NatToString(n) && ',' !in NatToString(n) && ' ' !in NatToString(n)
  {
  }

  lemma IdentifierHasNoSeparators(id: Identifier)
    requires ValidIdentifier(id)
    ensures '.' !in IdentifierToString(id) && ',' !in IdentifierToString(id) && ' ' !in IdentifierToString(id)
  {
    match id
    case Numeric(n) => NatStringHasNoSeparators(n);
    case Alphanumeric(t) =>
  }

  lemma ParseIdentifierOfString(id: Identifier)
    requires ValidIdentifier(id)
    ensures ParseIdentifier(IdentifierToString(id)) == Some(id)
  {
    match id
    case Numeric(n) => ParseNatToString(n);
    case Alphanumeric(t) =>
  }

  lemma {:induction false} ParseIdentifiersOfStrings(pre: seq<Identifier>)
    requires ValidPre(pre)
    ensures ParseIdentifiers(IdentifierStrings(pre)) == Some(pre)
  {
    if pre != [] {
      var strings := IdentifierStrings(pre);
      assert ValidPre(pre[1..]) by {
        forall i | 0 <= i < |pre[1..]| ensures ValidIdentifier(pre[1..][i]) {
          assert pre[1..][i] == pre[i + 1];
        }
      }
      ParseIdentifierOfString(pre[0]);
      ParseIdentifiersOfStrings(pre[1..]);
      assert strings[0] == IdentifierToString(pre[0]) && strings[1..] == IdentifierStrings(pre[1..]);
      assert ParseIdentifiers(strings) == Some([pre[0]] + pre[1..]);
      assert pre == [pre[0]] + pre[1..];
    }
  }

  lemma ParsePreOfString(pre: seq<Identifier>)
    requires ValidPre(pre) && pre != []
    ensures ParsePre(PreToString(pre)) == Some(pre)
  {
    var strs := IdentifierStrings(pre);
    forall k | 0 <= k < |strs| ensures '.' !in strs[k] { IdentifierHasNoSeparators(pre[k]); }
    SplitJoin(strs, '.');
    ParseIdentifiersOfStrings(pre);
  }

  lemma CoreSplits(major: nat, minor: nat, patch: nat)
    ensures '-' !in CoreToString(major, minor, patch)
    ensures Split(CoreToString(major, minor, patch), '.') == [NatToString(major), NatToString(minor), NatToString(patch)]
  {
    NatStringHasNoSeparators(major);
    NatStringHasNoSeparators(minor);
    NatStringHasNoSeparators(patch);
    var parts := [NatToString(major), NatToString(minor), NatToString(patch)];
    Join3(parts[0], parts[1], parts[2]);
    SplitJoin(parts, '.');
    NoCharInConcat(NatToString(major), NatToString(minor), NatToString(patch), '-');
  }

  lemma NoCharInConcat(a: string, b: string, c: string, x: char)
    requires x !in a && x !in b && x !in c && x != '.'
    ensures x !in a + "." + b + "." + c
  {
  }

  lemma ParseCoreOfString(major: nat, minor: nat, patch: nat)
    requires major < U64_LIMIT && minor < U64_LIMIT && patch < U64_LIMIT
    ensures '-' !in CoreToString(major, minor, patch)
    ensures ParseCore(CoreToString(major, minor, patch)) == Some((major, minor, patch))
  {
    CoreSplits(major, minor, patch);
    ParseNatToString(major);
    ParseNatToString(minor);
    ParseNatToString(patch);
  }

  /** A text shorter than `0.0.0` is not a version: all three numbers are required. */
  lemma ShortTextIsNoVersion(s: string)
    requires |s| < 5
    ensures ParseVersion(s).None?
  {
  }

  /** Printing a valid version and parsing the text gives the version back. */
  lemma ParseVersionOfString(v: Version)
    requires ValidVersion(v)
    ensures ParseVersion(VersionToString(v)) == Some(v)
  {
    if v.pre == [] {
      CoreVersionRoundTrip(v);
    } else {
      PreVersionRoundTrip(v);
    }
  }

  lemma CoreVersionRoundTrip(v: Version)
    requires ValidVersion(v) && v.pre == []
    ensures ParseVersion(VersionToString(v)) == Some(v)
  {
    var core := CoreToString(v.major, v.minor, v.patch);
    ParseCoreOfString(v.major, v.minor, v.patch);
    assert VersionToString(v) == core;
    assert ParseWithoutPre(core) == Some(v);
  }

  lemma PreVersionRoundTrip(v: Version)
    requires ValidVersion(v) && v.pre != []
    ensures ParseVersion(VersionToString(v)) == Some(v)
  {
    CoreSplits(v.major, v.minor, v.patch);
    ParseAtHyphen(CoreToString(v.major, v.minor, v.patch), PreToString(v.pre));
    ParseWithPreOf(v);
  }

  /** A text whose numbers hold no `-` is split at the `-` that follows them. */
  lemma ParseAtHyphen(core: string, p: string)
    requires '-' !in core
    ensures ParseVersion(core + "-" + p) == ParseWithPre(core, p)
  {
    SplitOnceAt(core, p, '-');
    assert core + "-" + p == core + ['-'] + p;
  }

  lemma ParseWithPreOf(v: Version)
    requires ValidVersion(v) && v.pre != []
    ensures ParseWithPre(CoreToString(v.major, v.minor, v.patch), PreToString(v.pre)) == Some(v)
  {
    ParseCoreOfString(v.major, v.minor, v.patch);
    ParsePreOfString(v.pre);
  }

  lemma Join3(a: string, b: string, c: string)
    ensures Join([a, b, c], '.') == a + "." + b + "." + c
  {
    assert [a, b, c][1..] == [b, c] && [b, c][1..] == [c];
    assert Join([b, c], '.') == b + ['.'] + c;
    assert Join([a, b, c], '.') == a + ['.'] + (b + ['.'] + c);
  }

  // ---------------------------------------------------------------------
  // Precedence (section 11)

  function CompareNat(a: nat, b: nat): Ordering
  {
    if a < b then Ordering.Less else if a > b then Ordering.Greater else Ordering.Equal
  }

  /** Section 11.4: numeric identifiers compare numerically and sort below alphanumeric ones. */
  function CompareIdentifier(a: Identifier, b: Identifier): Ordering
  {
    match (a, b)
    case (Numeric(x), Numeric(y)) => CompareNat(x, y)
    case (Numeric(_), Alphanumeric(_)) => Ordering.Less
    case (Alphanumeric(_), Numeric(_)) => Ordering.Greater
    case (Alphanumeric(x), Alphanumeric(y)) => Compare(x, y)
  }

  /** Section 11.4.4: identifier by identifier; a proper prefix has lower precedence. */
  function CompareIdentifiers(a: seq<Identifier>, b: seq<Identifier>): Ordering
  {
    if a == [] && b == [] then Ordering.Equal
    else if a == [] then Ordering.Less
    else if b == [] then Ordering.Greater
    else CompareIdentifier(a[0], b[0]).Then(CompareIdentifiers(a[1..], b[1..]))
  }

  /** The crate's `Prerelease` order: the empty pre-release is above every other (section 11.3). */
  function ComparePre(a: seq<Identifier>, b: seq<Identifier>): Ordering
  {
    if a == [] && b == [] then Ordering.Equal
    else if a == [] then Ordering.Greater
    else if b == [] then Ordering.Less
    else CompareIdentifiers(a, b)
  }

  /** `Ord for Version`: MAJOR, MINOR, PATCH numerically, then the pre-release. */
  function CompareVersion(a: Version, b: Version): Ordering
  {
    CompareNat(a.major, b.major).Then(CompareNat(a.minor, b.minor)).Then(CompareNat(a.patch, b.patch)).Then(ComparePre(a.pre, b.pre))
  }

  predicate VersionLess(a: Version, b: Version) { CompareVersion(a, b) == Ordering.Less }

  lemma CompareIdentifierProperties(a: Identifier, b: Identifier)
    ensures CompareIdentifier(b, a) == CompareIdentifier(a, b).Reverse()
    ensures CompareIdentifier(a, b) == Ordering.Equal <==> a == b
  {
    match (a, b)
    case (Alphanumeric(x), Alphanumeric(y)) => CompareReverse(x, y); CompareEqual(x, y);
    case _ =>
  }

  lemma CompareIdentifierTransitive(a: Identifier, b: Identifier, c: Identifier)
    requires CompareIdentifier(a, b) == Ordering.Less && CompareIdentifier(b, c) == Ordering.Less
    ensures CompareIdentifier(a, c) == Ordering.Less
  {
    match (a, b, c)
    case (Alphanumeric(x), Alphanumeric(y), Alphanumeric(z)) => CompareTransitive(x, y, z);
    case _ =>
  }

  lemma {:induction false} CompareIdentifiersProperties(a: seq<Identifier>, b: seq<Identifier>)
    ensures CompareIdentifiers(b, a) == CompareIdentifiers(a, b).Reverse()
    ensures CompareIdentifiers(a, b) == Ordering.Equal <==> a == b
  {
    if a != [] && b != [] {
      CompareIdentifierProperties(a[0], b[0]);
      CompareIdentifiersProperties(a[1..], b[1..]);
      assert a == [a[0]] + a[1..] && b == [b[0]] + b[1..];
    }
  }

  lemma {:induction false} CompareIdentifiersTransitive(a: seq<Identifier>, b: seq<Identifier>, c: seq<Identifier>)
    requires CompareIdentifiers(a, b) == Ordering.Less && CompareIdentifiers(b, c) == Ordering.Less
    ensures CompareIdentifiers(a, c) == Ordering.Less
  {
    if a != [] && b != [] && c != [] {
      CompareIdentifierProperties(a[0], b[0]);
      CompareIdentifierProperties(b[0], c[0]);
      if CompareIdentifier(a[0], b[0]) == Ordering.Less && CompareIdentifier(b[0], c[0]) == Ordering.Less {
        CompareIdentifierTransitive(a[0], b[0], c[0]);
      } else if CompareIdentifier(a[0], b[0]) == Ordering.Equal && CompareIdentifier(b[0], c[0]) == Ordering.Equal {
        CompareIdentifiersTransitive(a[1..], b[1..], c[1..]);
      }
    }
  }

  lemma ComparePreProperties(a: seq<Identifier>, b: seq<Identifier>)
    ensures ComparePre(b, a) == ComparePre(a, b).Reverse()
    ensures ComparePre(a, b) == Ordering.Equal <==> a == b
  {
    CompareIdentifiersProperties(a, b);
  }

  lemma ComparePreTransitive(a: seq<Identifier>, b: seq<Identifier>, c: seq<Identifier>)
    requires ComparePre(a, b) == Ordering.Less && ComparePre(b, c) == Ordering.Less
    ensures ComparePre(a, c) == Ordering.Less
  {
    if a != [] && b != [] && c != [] { CompareIdentifiersTransitive(a, b, c); }
  }

  /** Version precedence is antisymmetric and only ties equal versions. */
  lemma CompareVersionProperties(a: Version, b: Version)
    ensures CompareVersion(b, a) == CompareVersion(a, b).Reverse()
    ensures CompareVersion(a, b) == Ordering.Equal <==> a == b
  {
    ComparePreProperties(a.pre, b.pre);
  }

  lemma CompareVersionTransitive(a: Version, b: Version, c: Version)
    requires VersionLess(a, b) && VersionLess(b, c)
    ensures VersionLess(a, c)
  {
    if a.major == b.major == c.major && a.minor == b.minor == c.minor && a.patch == b.patch == c.patch {
      ComparePreTransitive(a.pre, b.pre, c.pre);
    }
  }

  // ---------------------------------------------------------------------
  // Requirements

  /** The comparison operators of a requirement (the `semver` crate's `Op`, without wildcards). */
  datatype Op = Exact | Greater | GreaterEq | Less | LessEq | Tilde | Caret

  /** One comparator: an operator and a possibly partial version. */
  datatype Comparator = Comparator(op: Op, major: nat, minor: Option<nat>, patch: Option<nat>, pre: seq<Identifier>)

  /** A requirement: every comparator must hold. */
  datatype VersionReq = VersionReq(comparators: seq<Comparator>)

  /** `VersionReq::STAR`: no comparators at all. */
  const STAR: VersionReq := VersionReq([])

  /** `VersionReq::exact`: one `=` comparator naming every part of `v`. */
  function ExactReq(v: Version): VersionReq
  {
    VersionReq([Comparator(Exact, v.major, Some(v.minor), Some(v.patch), v.pre)])
  }

  /** A `^` comparator naming every part of `v`. */
  function CaretReq(v: Version): VersionReq
  {
    VersionReq([Comparator(Caret, v.major, Some(v.minor), Some(v.patch), v.pre)])
  }

  /** Parts are `u64`; PATCH needs MINOR, and a pre-release needs PATCH. */
  predicate ValidComparator(c: Comparator)
  {
    && c.major < U64_LIMIT
    && (c.minor.Some? ==> c.minor.value < U64_LIMIT)
    && (c.patch.Some? ==> c.patch.value < U64_LIMIT && c.minor.Some?)
    && (c.pre != [] ==> c.patch.Some?)
    && ValidPre(c.pre)
  }

  predicate ValidReq(r: VersionReq)
  {
    |r.comparators| >= 1 && forall i :: 0 <= i < |r.comparators| ==> ValidComparator(r.comparators[i])
  }

  // Matching, one operator at a time

  function MatchesExact(c: Comparator, v: Version): bool
  {
    v.major == c.major
    && (c.minor.Some? ==> v.minor == c.minor.value)
    && (c.patch.Some? ==> v.patch == c.patch.value)
    && v.pre == c.pre
  }

  function MatchesGreater(c: Comparator, v: Version): bool
  {
    if v.major != c.major then v.major > c.major
    else if c.minor.None? then false
    else if v.minor != c.minor.value then v.minor > c.minor.value
    else if c.patch.None? then false
    else if v.patch != c.patch.value then v.patch > c.patch.value
    else ComparePre(v.pre, c.pre) == Ordering.Greater
  }

  function MatchesLess(c: Comparator, v: Version): bool
  {
    if v.major != c.major then v.major < c.major
    else if c.minor.None? then false
    else if v.minor != c.minor.value then v.minor < c.minor.value
    else if c.patch.None? then false
    else if v.patch != c.patch.value then v.patch < c.patch.value
    else ComparePre(v.pre, c.pre) == Ordering.Less
  }

  function MatchesTilde(c: Comparator, v: Version): bool
  {
    if v.major != c.major then false
    else if c.minor.Some? && v.minor != c.minor.value then false
    else if c.patch.Some? && v.patch != c.patch.value then v.patch > c.patch.value
    else ComparePre(v.pre, c.pre) != Ordering.Less
  }

  function MatchesCaret(c: Comparator, v: Version): bool
  {
    if v.major != c.major then false
    else if c.minor.None? then true
    else if c.patch.None? then
      (if c.major > 0 then v.minor >= c.minor.value else v.minor == c.minor.value)
    else if c.major > 0 then
      (if v.minor != c.minor.value then v.minor > c.minor.value
       else if v.patch != c.patch.value then v.patch > c.patch.value
       else ComparePre(v.pre, c.pre) != Ordering.Less)
    else if c.minor.value > 0 then
      (if v.minor != c.minor.value then false
       else if v.patch != c.patch.value then v.patch > c.patch.value
       else ComparePre(v.pre, c.pre) != Ordering.Less)
    else if v.minor != c.minor.value || v.patch != c.patch.value then false
    else ComparePre(v.pre, c.pre) != Ordering.Less
  }

  function MatchesComparator(c: Comparator, v: Version): bool
  {
    match c.op
    case Exact => MatchesExact(c, v)
    case Greater => MatchesGreater(c, v)
    case GreaterEq => MatchesExact(c, v) || MatchesGreater(c, v)
    case Less => MatchesLess(c, v)
    case LessEq => MatchesExact(c, v) || MatchesLess(c, v)
    case Tilde => MatchesTilde(c, v)
    case Caret => MatchesCaret(c, v)
  }

  /** A pre-release only matches a comparator that names the same MAJOR.MINOR.PATCH with a pre-release. */
  predicate PreIsCompatible(c: Comparator, v: Version)
  {
    c.major == v.major && c.minor == Some(v.minor) && c.patch == Some(v.patch) && c.pre != []
  }

  /** `VersionReq::matches`. */
  predicate Matches(r: VersionReq, v: Version)
  {
    (forall i :: 0 <= i < |r.comparators| ==> MatchesComparator(r.comparators[i], v))
    && (v.pre == [] || exists i :: 0 <= i < |r.comparators| && PreIsCompatible(r.comparators[i], v))
  }

  /** `VersionReq::exact(v)` matches `v` and nothing else. */
  lemma ExactReqMatchesOnly(v: Version, w: Version)
    ensures Matches(ExactReq(v), w) <==> w == v
  {
    var c := ExactReq(v).comparators[0];
    if Matches(ExactReq(v), w) {
      assert MatchesComparator(c, w);
    }
    if w == v && w.pre != [] {
      assert PreIsCompatible(c, w);
    }
  }

  /** `VersionReq::STAR` matches exactly the versions without a pre-release. */
  lemma StarMatchesReleases(w: Version)
    ensures Matches(STAR, w) <==> w.pre == []
  {
  }

  /** `^v` matches `v` and only versions of at least its precedence. */
  lemma CaretReqBounds(v: Version, w: Version)
    ensures Matches(CaretReq(v), v)
    ensures Matches(CaretReq(v), w) ==> !VersionLess(w, v)
  {
    ComparePreProperties(v.pre, v.pre);
    if v.pre != [] { assert PreIsCompatible(CaretReq(v).comparators[0], v); }
    var c := CaretReq(v).comparators[0];
    if Matches(CaretReq(v), w) {
      assert MatchesCaret(c, w);
      if w.minor == v.minor && w.patch == v.patch {
        ComparePreProperties(w.pre, v.pre);
      }
    }
  }

  // Printing requirements

  function OpToString(op: Op): string
  {
    match op
    case Exact => "="
    case Greater => ">"
    case GreaterEq => ">="
    case Less => "<"
    case LessEq => "<="
    case Tilde => "~"
    case Caret => "^"
  }

  /** MAJOR, then `.MINOR`, `.PATCH` and `-PRE` as far as the comparator names them. */
  function PartialToString(c: Comparator): string
  {
    NumbersToString(c.major, c.minor, c.patch) + (if c.patch.Some? then PreSuffix(c.pre) else "")
  }

  function NumbersToString(major: nat, minor: Option<nat>, patch: Option<nat>): string
  {
    NatToString(major) + (if minor.None? then "" else "." + NatToString(minor.value) + PatchPart(patch))
  }

  function PatchPart(patch: Option<nat>): string
  {
    if patch.None? then "" else "." + NatToString(patch.value)
  }

  /** `Display for Comparator`. */
  function ComparatorToString(c: Comparator): string
  {
    OpToString(c.op) + PartialToString(c)
  }

  /** The comma-separated pieces of a requirement's text, a space after each comma. */
  function ReqPieces(cs: seq<Comparator>): (r: seq<string>)
    ensures |r| == |cs|
  {
    if cs == [] then []
    else [ComparatorToString(cs[0])] + Spaced(cs[1..])
  }

  function Spaced(cs: seq<Comparator>): (r: seq<string>)
    ensures |r| == |cs|
    ensures forall i :: 0 <= i < |cs| ==> r[i] == " " + ComparatorToString(cs[i])
  {
    if cs == [] then [] else [" " + ComparatorToString(cs[0])] + Spaced(cs[1..])
  }

  /** `Display for VersionReq`: comparators joined by `, `, and `*` when there are none. */
  function ReqToString(r: VersionReq): string
  {
    if r.comparators == [] then "*" else Join(ReqPieces(r.comparators), ',')
  }

  // Parsing requirements

  /** Drops ASCII spaces from both ends. */
  function TrimSpaces(s: string): (r: string)
    decreases |s|
  {
    if s != [] && s[0] == ' ' then TrimSpaces(s[1..])
    else if s != [] && s[|s| - 1] == ' ' then TrimSpaces(s[..|s| - 1])
    else s
  }

  function SplitOp(t: string): (Op, string)
  {
    if |t| >= 2 && t[..2] == ">=" then (GreaterEq, t[2..])
    else if |t| >= 2 && t[..2] == "<=" then (LessEq, t[2..])
    else if |t| >= 1 && t[0] == '>' then (Op.Greater, t[1..])
    else if |t| >= 1 && t[0] == '<' then (Op.Less, t[1..])
    else if |t| >= 1 && t[0] == '=' then (Exact, t[1..])
    else if |t| >= 1 && t[0] == '~' then (Tilde, t[1..])
    else if |t| >= 1 && t[0] == '^' then (Caret, t[1..])
    else (Caret, t)
  }

  /** One to three dot-separated `u64` numbers: MAJOR[.MINOR[.PATCH]]. */
  function ParseNumbers(core: string): (r: Option<(nat, Option<nat>, Option<nat>)>)
    ensures r.Some? ==> r.value.0 < U64_LIMIT && (r.value.1.Some? ==> r.value.1.value < U64_LIMIT)
    ensures r.Some? ==> r.value.2.Some? ==> r.value.2.value < U64_LIMIT && r.value.1.Some?
  {
    var nums := Split(core, '.');
    if |nums| > 3 then None
    else if |nums| == 3 then
      match ParseCore(core)
      case None => None
      case Some((major, minor, patch)) => Some((major, Some(minor), Some(patch)))
    else if |nums| == 2 then
      match (ParseU64(nums[0]), ParseU64(nums[1]))
      case (Some(major), Some(minor)) => Some((major, Some(minor), None))
      case _ => None
    else
      match ParseU64(nums[0])
      case None => None
      case Some(major) => Some((major, None, None))
  }

  /** MAJOR[.MINOR[.PATCH[-PRE]]]: a pre-release only after all three numbers. */
  function ParsePartial(op: Op, t: string): (r: Option<Comparator>)
    ensures r.Some? ==> ValidComparator(r.value) && r.value.op == op
  {
    match SplitOnce(t, '-')
    case None =>
      (match ParseNumbers(t)
       case None => None
       case Some((major, minor, patch)) => Some(Comparator(op, major, minor, patch, [])))
    case Some((core, p)) =>
      match (ParseNumbers(core), ParsePre(p))
      case (Some((major, minor, patch)), Some(ids)) =>
        if patch.None? then None
        else Some(Comparator(op, major, minor, patch, ids))
      case _ => None
  }

  /** `Comparator::parse`: an optional operator, optional spaces, then a partial version. */
  function ParseComparator(t: string): Option<Comparator>
  {
    var (op, rest) := SplitOp(t);
    ParsePartial(op, TrimSpaces(rest))
  }

  function ParseComparators(parts: seq<string>): (r: Option<seq<Comparator>>)
    ensures r.Some? ==> |r.value| == |parts|
  {
    if parts == [] then Some([])
    else
      match (ParseComparator(TrimSpaces(parts[0])), ParseComparators(parts[1..]))
      case (Some(c), Some(rest)) => Some([c] + rest)
      case _ => None
  }

  /**
   * `VersionReq::parse` for comma-separated comparators. Wildcards (`*`,
   * `x`) are not part of this model; an empty text has no comparator and is refused.
   */
  function ParseReq(s: string): (r: Option<VersionReq>)
    ensures r.Some? ==> |r.value.comparators| >= 1
  {
    match ParseComparators(Split(s, ','))
    case None => None
    case Some(cs) => Some(VersionReq(cs))
  }

  // Round trip of requirements

  lemma NumbersRoundTrip(major: nat, minor: Option<nat>, patch: Option<nat>)
    requires major < U64_LIMIT && (minor.Some? ==> minor.value < U64_LIMIT)
    requires patch.Some? ==> patch.value < U64_LIMIT && minor.Some?
    ensures ParseNumbers(NumbersToString(major, minor, patch)) == Some((major, minor, patch))
  {
    if minor.None? {
      assert NumbersToString(major, minor, patch) == NatToString(major);
      MajorRoundTrip(major);
    } else if patch.None? {
      assert NumbersToString(major, minor, patch) == NatToString(major) + "." + NatToString(minor.value);
      MajorMinorRoundTrip(major, minor.value);
    } else {
      assert NumbersToString(major, minor, patch) == CoreToString(major, minor.value, patch.value);
      CoreRoundTrip(major, minor.value, patch.value);
    }
  }

  lemma MajorRoundTrip(major: nat)
    requires major < U64_LIMIT
    ensures ParseNumbers(NatToString(major)) == Some((major, None, None))
  {
    var a := NatToString(major);
    ParseNatToString(major);
    OnePart(a);
    assert ParseU64(a) == Some(major);
  }

  lemma MajorMinorRoundTrip(major: nat, minor: nat)
    requires major < U64_LIMIT && minor < U64_LIMIT
    ensures ParseNumbers(NatToString(major) + "." + NatToString(minor)) == Some((major, Some(minor), None))
  {
    ParseNatToString(major);
    ParseNatToString(minor);
    NatStringHasNoSeparators(major);
    NatStringHasNoSeparators(minor);
    ParseTwoNumbers(NatToString(major), NatToString(minor));
  }

  lemma ParseTwoNumbers(a: string, b: string)
    requires '.' !in a && '.' !in b && ParseU64(a).Some? && ParseU64(b).Some?
    ensures ParseNumbers(a + "." + b) == Some((ParseU64(a).value, Some(ParseU64(b).value), None))
  {
    TwoParts(a, b);
    var nums := Split(a + "." + b, '.');
    assert |nums| == 2 && nums[0] == a && nums[1] == b;
  }

  lemma CoreRoundTrip(major: nat, minor: nat, patch: nat)
    requires major < U64_LIMIT && minor < U64_LIMIT && patch < U64_LIMIT
    ensures ParseNumbers(CoreToString(major, minor, patch)) == Some((major, Some(minor), Some(patch)))
  {
    CoreSplits(major, minor, patch);
    ParseCoreOfString(major, minor, patch);
  }

  lemma OnePart(a: string)
    requires '.' !in a
    ensures Split(a, '.') == [a]
  {
  }

  lemma TwoParts(a: string, b: string)
    requires '.' !in a && '.' !in b
    ensures Split(a + "." + b, '.') == [a, b]
  {
    SplitOnceAt(a, b, '.');
  }

  /** The printed numbers are digits and dots, starting and ending with a digit. */
  lemma NumbersChars(major: nat, minor: Option<nat>, patch: Option<nat>)
    ensures NumbersNoSeparators(major, minor, patch)
  {
    var a := NatToString(major);
    if minor.Some? {
      var b := NatToString(minor.value);
      var rest := "." + b + PatchPart(patch);
      assert NumbersToString(major, minor, patch) == a + rest;
      if patch.Some? {
        var c := NatToString(patch.value);
        assert rest == "." + b + "." + c;
        assert rest[|rest| - 1] == c[|c| - 1];
      } else {
        assert rest[|rest| - 1] == b[|b| - 1];
      }
    }
  }

  predicate NumbersNoSeparators(major: nat, minor: Option<nat>, patch: Option<nat>)
  {
    var t := NumbersToString(major, minor, patch);
    '-' !in t && ',' !in t && ' ' !in t && |t| >= 1 && IsAsciiDigit(t[0]) && IsAsciiDigit(t[|t| - 1])
  }

  lemma PartialRoundTrip(op: Op, c: Comparator)
    requires ValidComparator(c)
    ensures ParsePartial(op, PartialToString(c)) == Some(c.(op := op))
  {
    NumbersRoundTrip(c.major, c.minor, c.patch);
    NumbersChars(c.major, c.minor, c.patch);
    if c.pre != [] {
      PartialWithPre(op, c);
    } else {
      assert PartialToString(c) == NumbersToString(c.major, c.minor, c.patch);
    }
  }

  lemma PartialWithPre(op: Op, c: Comparator)
    requires ValidComparator(c) && c.pre != []
    requires '-' !in NumbersToString(c.major, c.minor, c.patch)
    requires ParseNumbers(NumbersToString(c.major, c.minor, c.patch)) == Some((c.major, c.minor, c.patch))
    ensures ParsePartial(op, PartialToString(c)) == Some(c.(op := op))
  {
    var n := NumbersToString(c.major, c.minor, c.patch);
    var p := PreToString(c.pre);
    assert PartialToString(c) == n + "-" + p;
    ParsePreOfString(c.pre);
    PartialSplitPre(op, n, p);
    assert Comparator(op, c.major, c.minor, c.patch, c.pre) == c.(op := op);
  }

  lemma PartialSplitPre(op: Op, n: string, p: string)
    requires '-' !in n
    requires ParseNumbers(n).Some? && ParseNumbers(n).value.2.Some? && ParsePre(p).Some?
    ensures ParsePartial(op, n + "-" + p)
      == Some(Comparator(op, ParseNumbers(n).value.0, ParseNumbers(n).value.1, ParseNumbers(n).value.2, ParsePre(p).value))
  {
    SplitOnceAt(n, p, '-');
  }

  lemma SplitOpOf(op: Op, p: string)
    requires |p| >= 1 && IsAsciiDigit(p[0])
    ensures SplitOp(OpToString(op) + p) == (op, p)
  {
    var t := OpToString(op) + p;
    match op
    case GreaterEq => assert t[..2] == ">=" && t[2..] == p;
    case LessEq => assert t[..2] == "<=" && t[2..] == p;
    case _ =>
      if op == Caret || op == Tilde || op == Exact || op == Op.Greater || op == Op.Less {
        assert t[1] == p[0] && t[1..] == p;
        assert t[..2] == [t[0], p[0]];
      }
  }

  lemma PreStringChars(pre: seq<Identifier>)
    requires ValidPre(pre)
    ensures ',' !in PreToString(pre) && ' ' !in PreToString(pre)
    ensures pre != [] ==> |PreToString(pre)| >= 1 && PreToString(pre)[|PreToString(pre)| - 1] != ' '
  {
    var strs := IdentifierStrings(pre);
    forall k | 0 <= k < |strs| ensures ',' !in strs[k] && ' ' !in strs[k] { IdentifierHasNoSeparators(pre[k]); }
    JoinAvoids(strs, '.', ',');
    JoinAvoids(strs, '.', ' ');
    if pre != [] {
      IdentifierNonEmpty(pre[|pre| - 1]);
      JoinLast(strs, '.');
    }
  }

  lemma IdentifierNonEmpty(id: Identifier)
    requires ValidIdentifier(id)
    ensures |IdentifierToString(id)| >= 1
  {
  }

  lemma {:induction false} JoinAvoids(parts: seq<string>, c: char, x: char)
    requires x != c && forall k :: 0 <= k < |parts| ==> x !in parts[k]
    ensures x !in Join(parts, c)
  {
    if |parts| > 1 {
      JoinAvoids(parts[1..], c, x);
    }
  }

  lemma {:induction false} JoinLast(parts: seq<string>, c: char)
    requires |parts| >= 1 && |parts[|parts| - 1]| >= 1
    ensures |Join(parts, c)| >= 1
    ensures Join(parts, c)[|Join(parts, c)| - 1] == parts[|parts| - 1][|parts[|parts| - 1]| - 1]
  {
    if |parts| > 1 {
      JoinLast(parts[1..], c);
    }
  }

  /** The printed version part has no comma or space and begins with a digit. */
  lemma PartialChars(c: Comparator)
    requires ValidComparator(c)
    ensures var t := PartialToString(c); ',' !in t && ' ' !in t && |t| >= 1 && IsAsciiDigit(t[0]) && t[|t| - 1] != ' '
  {
    NumbersChars(c.major, c.minor, c.patch);
    var n := NumbersToString(c.major, c.minor, c.patch);
    if c.patch.Some? && c.pre != [] {
      PreStringChars(c.pre);
      var p := PreToString(c.pre);
      assert PartialToString(c) == n + "-" + p;
      HyphenJoinChars(n, p);
    } else {
      assert PartialToString(c) == n;
    }
  }

  lemma HyphenJoinChars(n: string, p: string)
    requires ',' !in n && ' ' !in n && ',' !in p && ' ' !in p && |n| >= 1 && |p| >= 1
    ensures var t := n + "-" + p; ',' !in t && ' ' !in t && t[0] == n[0] && t[|t| - 1] == p[|p| - 1]
  {
  }

  /** A printed comparator has no comma or space and starts with its operator. */
  lemma ComparatorChars(c: Comparator)
    requires ValidComparator(c)
    ensures var t := ComparatorToString(c); ',' !in t && ' ' !in t && |t| >= 1 && t[0] != ' ' && t[|t| - 1] != ' '
    ensures SplitOp(ComparatorToString(c)) == (c.op, PartialToString(c))
  {
    var o, p := OpToString(c.op), PartialToString(c);
    PartialChars(c);
    SplitOpOf(c.op, p);
    OpChars(c.op);
    OpPrefixChars(o, p);
  }

  lemma OpChars(op: Op)
    ensures var o := OpToString(op); ',' !in o && ' ' !in o && |o| >= 1 && o[0] != ' '
  {
  }

  lemma OpPrefixChars(o: string, p: string)
    requires ',' !in o && ' ' !in o && ',' !in p && ' ' !in p && |p| >= 1 && |o| >= 1 && o[0] != ' '
    ensures var t := o + p; ',' !in t && ' ' !in t && t[|t| - 1] == p[|p| - 1] && t[0] != ' '
  {
  }

  lemma ComparatorRoundTrip(c: Comparator)
    requires ValidComparator(c)
    ensures ParseComparator(TrimSpaces(ComparatorToString(c))) == Some(c)
    ensures ParseComparator(TrimSpaces(" " + ComparatorToString(c))) == Some(c)
  {
    ComparatorChars(c);
    var t := ComparatorToString(c);
    assert TrimSpaces(t) == t;
    assert TrimSpaces(" " + t) == TrimSpaces(t) by { assert (" " + t)[1..] == t; }
    NumbersRoundTrip(c.major, c.minor, c.patch);
    PreStringChars(c.pre);
    assert TrimSpaces(PartialToString(c)) == PartialToString(c);
    PartialRoundTrip(c.op, c);
  }

  lemma {:induction false} SpacedRoundTrip(cs: seq<Comparator>)
    requires forall i :: 0 <= i < |cs| ==> ValidComparator(cs[i])
    ensures ParseComparators(Spaced(cs)) == Some(cs)
  {
    if cs != [] {
      var p := Spaced(cs);
      ComparatorRoundTrip(cs[0]);
      SpacedRoundTrip(cs[1..]);
      assert p[1..] == Spaced(cs[1..]);
      ParseComparatorsCons(p, cs[0], cs[1..]);
      assert cs == [cs[0]] + cs[1..];
    }
  }

  /** Parsing the pieces one by one: the first comparator, then the rest. */
  lemma ParseComparatorsCons(parts: seq<string>, c: Comparator, cs: seq<Comparator>)
    requires parts != []
    requires ParseComparator(TrimSpaces(parts[0])) == Some(c) && ParseComparators(parts[1..]) == Some(cs)
    ensures ParseComparators(parts) == Some([c] + cs)
  {
  }

  lemma PiecesHaveNoComma(cs: seq<Comparator>)
    requires forall i :: 0 <= i < |cs| ==> ValidComparator(cs[i])
    ensures forall k :: 0 <= k < |ReqPieces(cs)| ==> ',' !in ReqPieces(cs)[k]
  {
    var pieces := ReqPieces(cs);
    forall k | 0 <= k < |pieces| ensures ',' !in pieces[k] {
      ComparatorChars(cs[k]);
      if k > 0 { assert pieces[k] == Spaced(cs[1..])[k - 1]; }
    }
  }

  lemma PiecesRoundTrip(cs: seq<Comparator>)
    requires |cs| >= 1 && forall i :: 0 <= i < |cs| ==> ValidComparator(cs[i])
    ensures ParseComparators(ReqPieces(cs)) == Some(cs)
  {
    var p := ReqPieces(cs);
    assert p[0] == ComparatorToString(cs[0]);
    assert p[1..] == Spaced(cs[1..]);
    ComparatorRoundTrip(cs[0]);
    SpacedRoundTrip(cs[1..]);
    ParseComparatorsCons(p, cs[0], cs[1..]);
    assert cs == [cs[0]] + cs[1..];
  }

  /** Printing a requirement and parsing the text gives the requirement back. */
  lemma ParseReqOfString(r: VersionReq)
    requires ValidReq(r)
    ensures ParseReq(ReqToString(r)) == Some(r)
  {
    var pieces := ReqPieces(r.comparators);
    PiecesHaveNoComma(r.comparators);
    SplitJoin(pieces, ',');
    PiecesRoundTrip(r.comparators);
  }
}
