/** Package requirements `SCOPE/NAME@VERSION_REQ` (src/package_req.rs). */
module PackageReqs {
  import opened Wrappers
  import opened Strings
  import opened Semver
  import opened PackageNames
  import opened PackageIds

  datatype PackageReq = PackageReq(name: PackageName, versionReq: VersionReq)

  /** Why `PackageReq::from_str` refuses a text. */
  datatype ReqError =
    | BadFormat                  // "a package requirement is of the form SCOPE/NAME@VERSION_REQ"
    | BadRequirement             // "could not parse version requirement"
    | BadName(cause: NameError)  // PackageName::new failed, reported under the bad-format message

  predicate ValidPackageReq(r: PackageReq) { Valid(r.name) && ValidReq(r.versionReq) }

  /** `PackageReq::matches`: same name, and the version satisfies the requirement. */
  predicate MatchesNameVersion(r: PackageReq, name: PackageName, version: Version)
  {
    r.name == name && Matches(r.versionReq, version)
  }

  /** `PackageReq::matches_id`. */
  predicate MatchesId(r: PackageReq, id: PackageId)
  {
    MatchesNameVersion(r, id.name, id.version)
  }

  /** The requirement is a single `^` comparator. */
  predicate IsSingleCaret(vr: VersionReq)
  {
    |vr.comparators| == 1 && vr.comparators[0].op == Caret
  }

  /** How many copies of `c` start `s`. */
  function LeadingCount(s: string, c: char): (k: nat)
    ensures k <= |s| && (k == |s| || s[k] != c)
    ensures forall i :: 0 <= i < k ==> s[i] == c
  {
    if s != [] && s[0] == c then 1 + LeadingCount(s[1..], c) else 0
  }

  /** `str::trim_start_matches(c)`: every leading `c` removed. */
  function TrimStartMatches(s: string, c: char): (r: string)
    ensures r == [] || r[0] != c
    ensures |r| <= |s| && r == s[|s| - |r|..]
  {
    s[LeadingCount(s, c)..]
  }

  /** The text after the `@`: a single `^` comparator is printed without its `^`. */
  function RequirementText(vr: VersionReq): string
  {
    if IsSingleCaret(vr) then TrimStartMatches(ReqToString(vr), '^') else ReqToString(vr)
  }

  /** `Display` (and `Serialize`). */
  function PackageReqToString(r: PackageReq): string
  {
    ToString(r.name) + "@" + RequirementText(r.versionReq)
  }

  /** An empty or all-whitespace requirement would parse as a wildcard in the crate; it is refused first. */
  predicate BlankRequirement(source: string)
  {
    |source| == 0 || AllWhitespace(source)
  }

  /**
   * `FromStr`: split at the first `/` and the first `@` after it, refuse a
   * blank requirement, parse the requirement, then validate the name.
   */
  function ParsePackageReq(s: string): (r: Result<PackageReq, ReqError>)
    ensures r.Ok? ==> Valid(r.value.name) && |r.value.versionReq.comparators| >= 1
    ensures '/' !in s ==> r == Err(ReqError.BadFormat)
    ensures SplitOnce(s, '/').Some? && '@' !in SplitOnce(s, '/').value.1 ==> r == Err(ReqError.BadFormat)
  {
    match SplitOnce(s, '/')
    case None => Err(ReqError.BadFormat)
    case Some((scope, rest)) =>
      match SplitOnce(rest, '@')
      case None => Err(ReqError.BadFormat)
      case Some((name, source)) =>
        if BlankRequirement(source) then Err(ReqError.BadFormat)
        else
          match ParseReq(source)
          case None => Err(BadRequirement)
          case Some(vr) =>
            match New(scope, name)
            case Err(e) => Err(ReqError.BadName(e))
            case Ok(packageName) => Ok(PackageReq(packageName, vr))
  }

  /** A blank requirement is refused whatever the name. */
  lemma BlankRequirementRefused(scope: string, name: string, source: string)
    requires '/' !in scope && '@' !in name && BlankRequirement(source)
    ensures ParsePackageReq(scope + "/" + name + "@" + source) == Err(ReqError.BadFormat)
  {
    assert scope + "/" + name + "@" + source == scope + ['/'] + (name + ['@'] + source);
    SplitOnceAt(scope, name + ['@'] + source, '/');
    SplitOnceAt(name, source, '@');
  }

  /** A single `^` comparator prints as its bare version, which parses back to the same `^` comparator. */
  lemma BareCaretRoundTrip(vr: VersionReq)
    requires ValidReq(vr) && IsSingleCaret(vr)
    ensures RequirementText(vr) == PartialToString(vr.comparators[0])
    ensures ParseReq(RequirementText(vr)) == Some(vr)
  {
    var c := vr.comparators[0];
    var p := PartialToString(c);
    BareCaretText(vr);
    BarePartialParses(c);
    assert vr == VersionReq([c]);
  }

  lemma BareCaretText(vr: VersionReq)
    requires ValidReq(vr) && IsSingleCaret(vr)
    ensures RequirementText(vr) == PartialToString(vr.comparators[0])
  {
    var c := vr.comparators[0];
    var p := PartialToString(c);
    PartialChars(c);
    assert ReqPieces(vr.comparators) == [ComparatorToString(c)];
    assert ReqToString(vr) == "^" + p;
    assert LeadingCount("^" + p, '^') == 1 by {
      assert ("^" + p)[1..] == p;
    }
  }

  /** A bare partial version is read with the default `^` operator. */
  lemma BarePartialParses(c: Comparator)
    requires ValidComparator(c) && c.op == Caret
    ensures ParseReq(PartialToString(c)) == Some(VersionReq([c]))
  {
    PartialChars(c);
    PartialRoundTrip(Caret, c);
    BareTextParses(PartialToString(c), c);
  }

  lemma BareTextParses(p: string, c: Comparator)
    requires ',' !in p && ' ' !in p && |p| >= 1 && IsAsciiDigit(p[0])
    requires ParsePartial(Caret, p) == Some(c)
    ensures ParseReq(p) == Some(VersionReq([c]))
  {
    NoCommaSplits(p);
    NoSpaceTrims(p);
    DigitHasNoOp(p);
    assert ParseComparator(p) == Some(c);
    ParseComparatorsCons([p], c, []);
    assert [c] + [] == [c];
  }

  lemma NoCommaSplits(p: string)
    requires ',' !in p
    ensures Split(p, ',') == [p]
  {
  }

  lemma NoSpaceTrims(p: string)
    requires ' ' !in p
    ensures TrimSpaces(p) == p
  {
  }

  lemma DigitHasNoOp(p: string)
    requires |p| >= 1 && IsAsciiDigit(p[0])
    ensures SplitOp(p) == (Caret, p)
  {
  }

  lemma RequirementTextChars(vr: VersionReq)
    requires ValidReq(vr)
    ensures ParseReq(RequirementText(vr)) == Some(vr)
    ensures !BlankRequirement(RequirementText(vr))
  {
    RequirementTextParses(vr);
    RequirementTextStart(vr);
  }

  /** The requirement text of a valid requirement parses back to it. */
  lemma RequirementTextParses(vr: VersionReq)
    requires ValidReq(vr)
    ensures ParseReq(RequirementText(vr)) == Some(vr)
  {
    if IsSingleCaret(vr) {
      BareCaretRoundTrip(vr);
    } else {
      ParseReqOfString(vr);
    }
  }

  /** The requirement text starts with an operator or a digit, never with whitespace. */
  lemma RequirementTextStart(vr: VersionReq)
    requires ValidReq(vr)
    ensures RequirementText(vr) != [] && !IsWhitespace(RequirementText(vr)[0])
  {
    if IsSingleCaret(vr) {
      CaretTextStart(vr);
    } else {
      FullTextStart(vr);
    }
  }

  lemma CaretTextStart(vr: VersionReq)
    requires ValidReq(vr) && IsSingleCaret(vr)
    ensures RequirementText(vr) != [] && IsAsciiDigit(RequirementText(vr)[0])
  {
    BareCaretRoundTrip(vr);
    PartialChars(vr.comparators[0]);
  }

  lemma FullTextStart(vr: VersionReq)
    requires ValidReq(vr)
    ensures ReqToString(vr) != [] && !IsWhitespace(ReqToString(vr)[0])
  {
    var c := vr.comparators[0];
    PartialChars(c);
    ComparatorChars(c);
    var t := ReqToString(vr);
    assert t[0] == ComparatorToString(c)[0] by { JoinFirst(ReqPieces(vr.comparators), ','); }
    OpNotWhitespace(c.op);
  }

  lemma OpNotWhitespace(op: Op)
    ensures !IsWhitespace(OpToString(op)[0])
  {
  }

  lemma {:induction false} JoinFirst(parts: seq<string>, c: char)
    requires |parts| >= 1 && |parts[0]| >= 1
    ensures |Join(parts, c)| >= 1 && Join(parts, c)[0] == parts[0][0]
  {
  }

  /** Printing a valid requirement and parsing the text gives the requirement back. */
  lemma ParsePackageReqOfString(r: PackageReq)
    requires ValidPackageReq(r)
    ensures ParsePackageReq(PackageReqToString(r)) == Ok(r)
  {
    var scope, name, text := r.name.scope, r.name.name, RequirementText(r.versionReq);
    NoSlashInValidPart(scope);
    NoSlashInValidPart(name);
    assert PackageReqToString(r) == scope + ['/'] + (name + ['@'] + text);
    SplitOnceAt(scope, name + ['@'] + text, '/');
    SplitOnceAt(name, text, '@');
    RequirementTextChars(r.versionReq);
  }
}
