/**
 * `capitalize` of the registry frontend: the first character upper-cased,
 * the rest of the text kept. An absent text (`undefined`) is `None`.
 */
module Capitalize {
  import opened Wrappers
  import opened Strings

  /** Upper-cases the first character of a present, non-empty text; anything else becomes "". */
  function Capitalize(text: Option<string>): (r: string)
    ensures text.None? || text.value == [] <==> r == []
    ensures text.Some? && text.value != [] ==>
      |r| == |text.value| && r[0] == ToAsciiUpper(text.value[0]) && r[1..] == text.value[1..]
  {
    if text.Some? && text.value != [] then [ToAsciiUpper(text.value[0])] + text.value[1..] else []
  }

  /** Only the first character can change. */
  lemma CapitalizeKeepsRest(text: string, i: nat)
    requires 0 < i < |text|
    ensures Capitalize(Some(text))[i] == text[i]
  {
    assert Capitalize(Some(text))[1..][i - 1] == text[1..][i - 1];
  }

  /** A text that already starts with an upper-case letter, or with no lower-case letter, is returned as it is. */
  lemma CapitalizeUnchanged(text: string)
    requires text != [] && !IsAsciiLower(text[0])
    ensures Capitalize(Some(text)) == text
  {
    assert text == [text[0]] + text[1..];
  }

  /** The first character of a capitalized text is never a lower-case letter. */
  lemma CapitalizedStartsUpper(text: string)
    requires text != []
    ensures !IsAsciiLower(Capitalize(Some(text))[0])
    ensures IsAsciiLower(text[0]) ==> IsAsciiUpper(Capitalize(Some(text))[0])
  {
  }

  /** Capitalizing twice is capitalizing once. */
  lemma CapitalizeIdempotent(text: Option<string>)
    ensures Capitalize(Some(Capitalize(text))) == Capitalize(text)
  {
    var r := Capitalize(text);
    if r != [] {
      CapitalizedStartsUpper(text.value);
      CapitalizeUnchanged(r);
    }
  }
}
