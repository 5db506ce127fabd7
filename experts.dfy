/** Display helpers that several pages share for an expert's profile row. */
module Experts {
  import opened Wrappers
  import opened Strings

  const UnknownExpert: string := "Unknown Expert"

  /** The template `${first || ''} ${last || ''}` the pages build a name from. */
  function NameTemplate(firstName: Option<string>, lastName: Option<string>): string {
    firstName.GetOr("") + " " + lastName.GetOr("")
  }

  /** `getExpertName`: the template with surrounding whitespace trimmed, or
      "Unknown Expert" when nothing but whitespace is left. */
  function ExpertName(firstName: Option<string>, lastName: Option<string>): (r: string)
    ensures r != []
    ensures AllWhitespace(NameTemplate(firstName, lastName)) ==> r == UnknownExpert
    ensures !AllWhitespace(NameTemplate(firstName, lastName)) ==>
      && (exists k :: WhitespaceAround(NameTemplate(firstName, lastName), r, k))
      && Trimmed(r)
  {
    var full := Trim(NameTemplate(firstName, lastName));
    if full == [] then UnknownExpert else full
  }

  /** A name whose two parts are non-empty and carry no surrounding whitespace is shown
      as "first last" exactly. */
  lemma ExpertNameOfCleanParts(first: string, last: string)
    requires first != [] && !IsWhitespace(first[0]) && !IsWhitespace(first[|first| - 1])
    requires last != [] && !IsWhitespace(last[0]) && !IsWhitespace(last[|last| - 1])
    ensures ExpertName(Some(first), Some(last)) == first + " " + last
  {
    var full := first + " " + last;
    assert NameTemplate(Some(first), Some(last)) == full;
    assert full[0] == first[0] && full[|full| - 1] == last[|last| - 1];
    assert TrimStart(full) == full;
    assert TrimEnd(full) == full;
  }

  /** An image URL that the pages use as it is: one that starts with `http` or `/`. */
  predicate IsUsableUrl(url: string) {
    StartsWith(url, "http") || StartsWith(url, "/")
  }

  /** The image choice shared by the marketplace card and the profile page: a usable URL
      is returned unchanged, a missing, empty or other URL gives the page's placeholder. */
  function ResolveImage(url: Option<string>, placeholder: string): (r: string)
    ensures url.Some? && IsUsableUrl(url.value) ==> r == url.value
    ensures !(url.Some? && IsUsableUrl(url.value)) ==> r == placeholder
  {
    match url
    case Some(u) => if u != [] && IsUsableUrl(u) then u else placeholder
    case None => placeholder
  }
}
