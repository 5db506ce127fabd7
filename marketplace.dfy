/**
 * The expert marketplace page: the category and text filter over the loaded experts,
 * the ranking sort, the card helpers and the expert-suggestion form.
 */
module Marketplace {
  import opened Wrappers
  import opened Strings
  import opened Seqs
  import Experts
  import opened Sorting

  /** The fields of a `profiles` row the page reads. */
  datatype Expert = Expert(
    id: string,
    firstName: Option<string>,
    lastName: Option<string>,
    bio: Option<string>,
    previewImageUrl: Option<string>,
    expertRank: Option<int>)

  datatype Category = Category(id: string, name: string)

  datatype Association = Association(expertId: string, categoryId: string)

  const AllExperts: string := "All Experts"

  /** `Number.MAX_SAFE_INTEGER`, the rank given to experts without one. */
  const MaxSafeInteger: int := 9_007_199_254_740_991

  /** The sort key `expert_rank || Number.MAX_SAFE_INTEGER`: a null or zero rank is the largest. */
  function EffectiveRank(e: Expert): (k: int)
    ensures e.expertRank.None? || e.expertRank == Some(0) ==> k == MaxSafeInteger
    ensures e.expertRank.Some? && e.expertRank.value != 0 ==> k == e.expertRank.value
  {
    match e.expertRank
    case Some(r) => if r != 0 then r else MaxSafeInteger
    case None => MaxSafeInteger
  }

  /** `c` is the first index of a category called `name`. */
  predicate FirstNamedAt(categories: seq<Category>, name: string, c: int) {
    0 <= c < |categories| && categories[c].name == name
    && forall d :: 0 <= d < c ==> categories[d].name != name
  }

  /** `categories.find(cat => cat.name === name)?.id`: the id of the first category so named. */
  function CategoryIdByName(categories: seq<Category>, name: string): (r: Option<string>)
    ensures r.None? <==> forall c :: 0 <= c < |categories| ==> categories[c].name != name
    ensures r.Some? ==> exists c :: FirstNamedAt(categories, name, c) && categories[c].id == r.value
    decreases |categories|
  {
    if categories == [] then None
    else if categories[0].name == name then Some(categories[0].id)
    else
      var r := CategoryIdByName(categories[1..], name);
      CategoryIdShift(categories, name, r);
      r
  }

  lemma CategoryIdShift(categories: seq<Category>, name: string, r: Option<string>)
    requires categories != [] && categories[0].name != name
    requires r.Some? ==> exists c :: FirstNamedAt(categories[1..], name, c) && categories[1..][c].id == r.value
    ensures r.Some? ==> exists c :: FirstNamedAt(categories, name, c) && categories[c].id == r.value
  {
    if r.Some? {
      var c :| FirstNamedAt(categories[1..], name, c) && categories[1..][c].id == r.value;
      assert categories[c + 1] == categories[1..][c];
      assert forall d :: 1 <= d < c + 1 ==> categories[d] == categories[1..][d - 1];
      assert FirstNamedAt(categories, name, c + 1);
    }
  }

  /** Some association links the expert to the category. */
  predicate HasAssociation(associations: seq<Association>, expertId: string, categoryId: string) {
    exists a :: 0 <= a < |associations| && associations[a].expertId == expertId
                && associations[a].categoryId == categoryId
  }

  /** The category test. "All Experts" passes everyone; a named category passes exactly
      the experts associated with the first category of that name; an unknown name
      passes no one. */
  predicate MatchesCategory(e: Expert, selected: string, categories: seq<Category>,
                            associations: seq<Association>)
  {
    if selected == AllExperts then true
    else
      match CategoryIdByName(categories, selected)
      case Some(cid) => HasAssociation(associations, e.id, cid)
      case None => false
  }

  /** The full name the search runs on: the trimmed template, without the fallback. */
  function FullName(e: Expert): string {
    Trim(Experts.NameTemplate(e.firstName, e.lastName))
  }

  /** The search test: the lowercased query occurs in the lowercased full name, or in
      the lowercased bio when there is a non-empty one. */
  predicate MatchesSearch(e: Expert, query: string) {
    Includes(ToLower(FullName(e)), ToLower(query))
    || (e.bio.Some? && e.bio.value != [] && Includes(ToLower(e.bio.value), ToLower(query)))
  }

  /** Both tests of the filter. */
  predicate Shown(e: Expert, selected: string, query: string, categories: seq<Category>,
                  associations: seq<Association>)
  {
    MatchesCategory(e, selected, categories, associations) && MatchesSearch(e, query)
  }

  /** The filter's test as a function value. */
  function ShownBy(selected: string, query: string, categories: seq<Category>,
                   associations: seq<Association>): Expert -> bool
  {
    (e: Expert) => Shown(e, selected, query, categories, associations)
  }

  /** `filteredExperts`: the experts passing both tests, ranked. The result holds exactly
      the passing experts (as a multiset, so none is lost or duplicated), sorted by the
      effective rank; with "All Experts" and an empty query it is all the experts. */
  function FilteredExperts(experts: seq<Expert>, selected: string, query: string,
                           categories: seq<Category>, associations: seq<Association>): (r: seq<Expert>)
    ensures SortedBy(r, EffectiveRank)
    ensures multiset(r) <= multiset(experts)
    ensures forall e :: e in r <==> e in experts && Shown(e, selected, query, categories, associations)
    ensures selected == AllExperts && query == [] ==> multiset(r) == multiset(experts)
  {
    FilterThenSort(experts, ShownBy(selected, query, categories, associations), EffectiveRank);
    UnfilteredKeepsAll(experts, selected, query, categories, associations);
    SortBy(Filter(experts, ShownBy(selected, query, categories, associations)), EffectiveRank)
  }

  /** With "All Experts" and an empty query every expert passes the filter. */
  lemma UnfilteredKeepsAll(experts: seq<Expert>, selected: string, query: string,
                      categories: seq<Category>, associations: seq<Association>)
    ensures selected == AllExperts && query == [] ==>
      Filter(experts, ShownBy(selected, query, categories, associations)) == experts
  {
    var p := ShownBy(selected, query, categories, associations);
    if selected == AllExperts && query == [] {
      forall i | 0 <= i < |experts| ensures p(experts[i]) {
        IncludesEmpty(ToLower(FullName(experts[i])));
      }
      FilterAll(experts, p);
    }
  }

  /** The filter keeps the input order among experts of equal rank. */
  lemma FilteredKeepsRankGroups(experts: seq<Expert>, selected: string, query: string,
                                categories: seq<Category>, associations: seq<Association>, k: int)
    ensures WithKey(FilteredExperts(experts, selected, query, categories, associations), EffectiveRank, k)
         == WithKey(Filter(experts, ShownBy(selected, query, categories, associations)), EffectiveRank, k)
  {
    SortKeepsKeyGroups(Filter(experts, ShownBy(selected, query, categories, associations)), EffectiveRank, k);
  }

  const MarketplacePlaceholder: string := "/api/placeholder/200/200"

  /** `getExpertImage` of the marketplace card: the preview image when it starts with
      `http` or `/`, the 200x200 placeholder otherwise. */
  function ExpertImage(e: Expert): (r: string)
    ensures e.previewImageUrl.Some? && Experts.IsUsableUrl(e.previewImageUrl.value) ==> r == e.previewImageUrl.value
    ensures !(e.previewImageUrl.Some? && Experts.IsUsableUrl(e.previewImageUrl.value)) ==> r == MarketplacePlaceholder
  {
    Experts.ResolveImage(e.previewImageUrl, MarketplacePlaceholder)
  }

  /** A row of `expert_suggestions`. */
  datatype Suggestion = Suggestion(name: string, reason: string, submittedBy: Option<string>,
                                   category: Option<string>)

  /** The row `handleExpertSuggestion` inserts, or nothing when the trimmed name or the
      trimmed reason is empty. Fields are trimmed; an empty user id counts as no user;
      the category is null exactly for "All Experts". */
  function SuggestionRow(name: string, reason: string, userId: Option<string>, selected: string)
    : (r: Option<Suggestion>)
    ensures r.None? <==> AllWhitespace(name) || AllWhitespace(reason)
    ensures r.Some? ==>
      && r.value.name == Trim(name) && r.value.reason == Trim(reason)
      && r.value.name != [] && r.value.reason != []
      && (r.value.category.None? <==> selected == AllExperts)
      && (r.value.category.Some? ==> r.value.category.value == selected)
      && (r.value.submittedBy.Some? <==> userId.Some? && userId.value != [])
  {
    if Trim(name) == [] || Trim(reason) == [] then None
    else
      var submitter := if userId.Some? && userId.value != [] then userId else None;
      Some(Suggestion(Trim(name), Trim(reason), submitter, if selected != AllExperts then Some(selected) else None))
  }

  datatype SubmitOutcome = MissingInformation | Submitted | SubmissionFailed

  /** The suggestion form and the table it writes to. */
  class SuggestionForm {
    var name: string
    var reason: string
    var isSubmitting: bool
    var suggestions: seq<Suggestion>

    constructor ()
      ensures name == [] && reason == [] && !isSubmitting && suggestions == []
    {
      name, reason, isSubmitting, suggestions := [], [], false, [];
    }

    /** `handleExpertSuggestion`: refuses a blank name or reason without writing; else
        inserts the row, clears the two fields on success and keeps them on failure;
        once raised, the submitting flag is lowered again whatever the insert does. */
    method Submit(userId: Option<string>, selected: string, insertFails: bool)
      returns (outcome: SubmitOutcome)
      modifies this
      ensures outcome == MissingInformation ==> isSubmitting == old(isSubmitting)
      ensures outcome != MissingInformation ==> !isSubmitting
      ensures outcome == MissingInformation <==> SuggestionRow(old(name), old(reason), userId, selected).None?
      ensures outcome == MissingInformation ==>
        name == old(name) && reason == old(reason) && suggestions == old(suggestions)
      ensures outcome == SubmissionFailed ==>
        name == old(name) && reason == old(reason) && suggestions == old(suggestions)
      ensures outcome != MissingInformation ==> (outcome == SubmissionFailed <==> insertFails)
      ensures outcome == Submitted ==>
        name == [] && reason == []
        && suggestions == old(suggestions) + [SuggestionRow(old(name), old(reason), userId, selected).value]
    {
      var row := SuggestionRow(name, reason, userId, selected);
      assert row == SuggestionRow(old(name), old(reason), userId, selected);
      if row.None? {
        return MissingInformation;
      }
      isSubmitting := true;
      if insertFails {
        outcome := SubmissionFailed;
      } else {
        suggestions := suggestions + [row.value];
        name, reason := [], [];
        outcome := Submitted;
      }
      isSubmitting := false;
    }
  }
}
