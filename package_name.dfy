/**
 * Package names `SCOPE/NAME` (src/package_name.rs). Both parts are made of
 * lowercase ASCII letters, digits and `-`, and are 1 to 64 bytes long.
 */
module PackageNames {
  import opened Wrappers
  import opened Strings

  /** Fields are only built through `New`, which enforces the character and length rules. */
  datatype PackageName = PackageName(scope: string, name: string)

  /** The reasons `PackageName::new` and `PackageName::from_str` give for refusing a name. */
  datatype NameError =
    | InvalidScope(scope: string)   // scope has a character outside [a-z0-9-]
    | EmptyScope
    | ScopeTooLong
    | InvalidName(name: string)     // name has a character outside [a-z0-9-]
    | EmptyName
    | NameTooLong
    | NotScoped                     // "a package name is of the form SCOPE/NAME"

  const MAX_PART_LENGTH: nat := 64

  predicate IsNameChar(c: char) { IsAsciiLower(c) || IsAsciiDigit(c) || c == '-' }

  predicate OnlyNameChars(s: string) { forall i :: 0 <= i < |s| ==> IsNameChar(s[i]) }

  /** A valid scope or name part. All its characters are ASCII, so its byte length is `|s|`. */
  predicate ValidPart(s: string) { OnlyNameChars(s) && 1 <= |s| <= MAX_PART_LENGTH }

  predicate Valid(n: PackageName) { ValidPart(n.scope) && ValidPart(n.name) }

  /** `validate_scope`: characters first, then emptiness, then length. */
  function ValidateScope(scope: string): (r: Option<NameError>)
    ensures r.None? <==> ValidPart(scope)
    ensures !OnlyNameChars(scope) ==> r == Some(InvalidScope(scope))
  {
    if !OnlyNameChars(scope) then Some(InvalidScope(scope))
    else if |scope| == 0 then Some(EmptyScope)
    else if |scope| > MAX_PART_LENGTH then Some(ScopeTooLong)
    else None
  }

  /** `validate_name`: the same rules as the scope, with the name's messages. */
  function ValidateName(name: string): (r: Option<NameError>)
    ensures r.None? <==> ValidPart(name)
    ensures !OnlyNameChars(name) ==> r == Some(InvalidName(name))
  {
    if !OnlyNameChars(name) then Some(InvalidName(name))
    else if |name| == 0 then Some(EmptyName)
    else if |name| > MAX_PART_LENGTH then Some(NameTooLong)
    else None
  }

  /** `PackageName::new`: the scope is validated before the name. */
  function New(scope: string, name: string): (r: Result<PackageName, NameError>)
    ensures r.Ok? <==> ValidPart(scope) && ValidPart(name)
    ensures r.Ok? ==> r.value == PackageName(scope, name) && Valid(r.value)
    ensures !ValidPart(scope) ==> r == Err(ValidateScope(scope).value)
  {
    match ValidateScope(scope)
    case Some(e) => Err(e)
    case None =>
      match ValidateName(name)
      case Some(e) => Err(e)
      case None => Ok(PackageName(scope, name))
  }

  /** `Display` (and `Serialize`): `SCOPE/NAME`. */
  function ToString(n: PackageName): string
  {
    n.scope + "/" + n.name
  }

  /** `FromStr` (and the deserializer's visitor): split at the first `/`, then `New`. */
  function Parse(s: string): (r: Result<PackageName, NameError>)
    ensures '/' !in s ==> r == Err(NotScoped)
    ensures r.Ok? ==> Valid(r.value) && ToString(r.value) == s
  {
    match SplitOnce(s, '/')
    case None => Err(NotScoped)
    case Some((scope, name)) => New(scope, name)
  }

  lemma NoSlashInValidPart(s: string)
    requires ValidPart(s)
    ensures '/' !in s && '@' !in s
  {
  }

  /** Printing a valid name and parsing it gives the name back. */
  lemma ParseToString(n: PackageName)
    requires Valid(n)
    ensures Parse(ToString(n)) == Ok(n)
  {
    NoSlashInValidPart(n.scope);
    SplitOnceAt(n.scope, n.name, '/');
  }

  /** A text with a second `/` is refused: the first `/` splits, and the name then holds a `/`. */
  lemma ParseRejectsTwoSlashes(a: string, b: string, c: string)
    ensures Parse(a + "/" + b + "/" + c).Err?
  {
    var s := a + "/" + b + "/" + c;
    var (scope, name) := SplitOnce(s, '/').value;
    assert s[|a|] == '/' && s[|a| + 1 + |b|] == '/';
    assert |scope| <= |a|;
    assert name[|a| + |b| - |scope|] == s[|a| + 1 + |b|];
    assert !OnlyNameChars(name);
  }

  /** The derived `Ord`: by scope, then by name. */
  function CompareNames(a: PackageName, b: PackageName): Ordering
  {
    Compare(a.scope, b.scope).Then(Compare(a.name, b.name))
  }

  predicate NameLess(a: PackageName, b: PackageName) { CompareNames(a, b) == Ordering.Less }

  lemma CompareNamesProperties(a: PackageName, b: PackageName)
    ensures CompareNames(b, a) == CompareNames(a, b).Reverse()
    ensures CompareNames(a, b) == Ordering.Equal <==> a == b
  {
    CompareReverse(a.scope, b.scope);
    CompareReverse(a.name, b.name);
    CompareEqual(a.scope, b.scope);
    CompareEqual(a.name, b.name);
  }

  lemma NameLessTransitive(a: PackageName, b: PackageName, c: PackageName)
    requires NameLess(a, b) && NameLess(b, c)
    ensures NameLess(a, c)
  {
    CompareNamesProperties(a, b);
    CompareNamesProperties(b, c);
    CompareEqual(a.scope, b.scope);
    CompareEqual(b.scope, c.scope);
    if Compare(a.scope, b.scope) == Ordering.Less && Compare(b.scope, c.scope) == Ordering.Less {
      CompareTransitive(a.scope, b.scope, c.scope);
    } else if Compare(a.scope, b.scope) == Ordering.Equal && Compare(b.scope, c.scope) == Ordering.Equal {
      CompareTransitive(a.name, b.name, c.name);
    }
  }
}
