/**
 * The header's expert search box: the query, the result list, the dropdown flag and
 * the keyboard cursor `selectedIndex`, which is -1 when no result is highlighted.
 */
module Search {
  import opened Wrappers
  import opened Strings
  import Experts

  /** The columns the search query selects from `profiles`. */
  datatype SearchExpert = SearchExpert(
    id: string,
    firstName: Option<string>,
    lastName: Option<string>,
    bio: Option<string>,
    location: Option<string>,
    profileImageUrl: Option<string>)

  datatype Key = ArrowDown | ArrowUp | Enter | Escape | OtherKey

  /** What the profiles query answered. */
  datatype SearchReply = Rows(rows: seq<SearchExpert>) | QueryError

  function Max(a: int, b: int): int { if a < b then b else a }
  function Min(a: int, b: int): int { if a < b then a else b }

  /** The cursor range for a list of `len` results: -1 up to the last index. */
  predicate InRange(index: int, len: nat) {
    -1 <= index <= Max(-1, len - 1)
  }

  /** ArrowDown: one step further while there is a next result, otherwise no move. */
  function Down(prev: int, len: nat): (r: int)
    ensures InRange(prev, len) ==> InRange(r, len)
    ensures r == prev || r == prev + 1
    ensures r == prev + 1 <==> prev < len - 1
  {
    if prev < len - 1 then prev + 1 else prev
  }

  /** ArrowUp: one step back while past the first result; from the first result, or
      from no selection, back to no selection. */
  function Up(prev: int): (r: int)
    ensures r >= -1
    ensures prev >= -1 ==> r == Max(-1, prev - 1)
    ensures prev > 0 ==> r == prev - 1
    ensures prev <= 0 ==> r == -1
  {
    if prev > 0 then prev - 1 else -1
  }

  /** ArrowUp undoes an ArrowDown that moved. */
  lemma UpUndoesDown(prev: int, len: nat)
    requires -1 <= prev < len - 1
    ensures Up(Down(prev, len)) == prev
  {
  }

  /** `n` presses of ArrowDown. */
  function DownTimes(prev: int, len: nat, n: nat): int
    decreases n
  {
    if n == 0 then prev else DownTimes(Down(prev, len), len, n - 1)
  }

  /** `n` presses of ArrowUp. */
  function UpTimes(prev: int, n: nat): int
    decreases n
  {
    if n == 0 then prev else UpTimes(Up(prev), n - 1)
  }

  /** From a cursor in range, `n` ArrowDowns move `n` steps, stopping at the last result. */
  lemma {:induction false} DownTimesStops(prev: int, len: nat, n: nat)
    requires InRange(prev, len)
    ensures DownTimes(prev, len, n) == Min(prev + n, Max(-1, len - 1))
    decreases n
  {
    if n > 0 {
      DownTimesStops(Down(prev, len), len, n - 1);
    }
  }

  /** From any cursor at -1 or above, `n` ArrowUps move `n` steps back, stopping at -1. */
  lemma {:induction false} UpTimesStops(prev: int, n: nat)
    requires prev >= -1
    ensures UpTimes(prev, n) == Max(-1, prev - n)
    decreases n
  {
    if n > 0 {
      UpTimesStops(Up(prev), n - 1);
    }
  }

  /** Enter's target: the highlighted result, when the cursor is on one. */
  function EnterTarget(results: seq<SearchExpert>, index: int): (r: Option<SearchExpert>)
    ensures r.Some? <==> 0 <= index < |results|
    ensures r.Some? ==> r.value == results[index]
  {
    if 0 <= index < |results| then Some(results[index]) else None
  }

  const SearchPlaceholder: string := "/api/placeholder/40/40"

  /** `getExpertImage` of the search dropdown: the URL as it is whenever it is present and
      non-empty, whatever its form; the 40x40 placeholder otherwise. */
  function ExpertImage(url: Option<string>): (r: string)
    ensures r != []
    ensures url.Some? && url.value != [] ==> r == url.value
    ensures url.None? || url.value == [] ==> r == SearchPlaceholder
  {
    if url.Some? && url.value != [] then url.value else SearchPlaceholder
  }

  /** `getExpertName` of the dropdown, the shared name rule. */
  function ExpertName(e: SearchExpert): (r: string)
    ensures r == Experts.ExpertName(e.firstName, e.lastName)
    ensures r != []
    ensures AllWhitespace(Experts.NameTemplate(e.firstName, e.lastName)) ==> r == Experts.UnknownExpert
  {
    Experts.ExpertName(e.firstName, e.lastName)
  }

  /** The search box's state. */
  class ExpertSearch {
    var query: string
    var results: seq<SearchExpert>
    var isSearching: bool
    var showResults: bool
    var selectedIndex: int
    /** The expert last handed to the selection callback or navigated to. */
    var chosen: Option<SearchExpert>

    /** The cursor is -1 or a position; it can lie past the end when a reply shortens the
        list under it, which no handler corrects. */
    ghost predicate Valid()
      reads this
    {
      selectedIndex >= -1
    }

    constructor ()
      ensures Valid()
      ensures query == [] && results == [] && !isSearching && !showResults
      ensures selectedIndex == -1 && chosen == None
    {
      query, results, isSearching, showResults, selectedIndex, chosen := [], [], false, false, -1, None;
    }

    /** The dropdown is drawn when it is open and has rows or a search is under way. */
    predicate DropdownShown()
      reads this
    {
      showResults && (|results| > 0 || isSearching)
    }

    /** `handleInputChange`: the new text, and no highlighted result. */
    method InputChange(value: string)
      requires Valid()
      modifies this
      ensures Valid()
      ensures query == value && selectedIndex == -1
      ensures results == old(results) && showResults == old(showResults)
      ensures isSearching == old(isSearching) && chosen == old(chosen)
    {
      query := value;
      selectedIndex := -1;
    }

    /** `handleExpertSelect`: hands the expert on, empties the query, closes the dropdown
        and drops the highlight. The result list itself is left as it was. */
    method ExpertSelect(e: SearchExpert)
      requires Valid()
      modifies this
      ensures Valid()
      ensures chosen == Some(e) && query == [] && !showResults && selectedIndex == -1
      ensures results == old(results) && isSearching == old(isSearching)
      ensures !DropdownShown()
    {
      chosen := Some(e);
      query := [];
      showResults := false;
      selectedIndex := -1;
    }

    /** `clearSearch`: everything back to the empty box. */
    method Clear()
      requires Valid()
      modifies this
      ensures Valid()
      ensures query == [] && results == [] && !showResults && selectedIndex == -1
      ensures isSearching == old(isSearching) && chosen == old(chosen)
      ensures !DropdownShown()
    {
      query := [];
      results := [];
      showResults := false;
      selectedIndex := -1;
    }

    /** `handleKeyDown`. The arrows move the cursor within the list, Enter picks the
        highlighted result when there is one, Escape closes the dropdown and drops the
        highlight, and other keys do nothing. */
    method KeyDown(key: Key)
      requires Valid()
      modifies this
      ensures Valid()
      ensures key == ArrowDown ==>
        selectedIndex == Down(old(selectedIndex), |old(results)|)
        && query == old(query) && showResults == old(showResults) && chosen == old(chosen)
      ensures key == ArrowUp ==>
        selectedIndex == Up(old(selectedIndex))
        && query == old(query) && showResults == old(showResults) && chosen == old(chosen)
      ensures (key == ArrowDown || key == ArrowUp) && InRange(old(selectedIndex), |old(results)|) ==>
        InRange(selectedIndex, |results|)
      ensures key == Enter && EnterTarget(old(results), old(selectedIndex)).Some? ==>
        chosen == EnterTarget(old(results), old(selectedIndex))
        && query == [] && !showResults && selectedIndex == -1
      ensures key == Enter && EnterTarget(old(results), old(selectedIndex)).None? ==>
        chosen == old(chosen) && query == old(query) && showResults == old(showResults)
        && selectedIndex == old(selectedIndex)
      ensures key == Escape ==>
        !showResults && selectedIndex == -1 && query == old(query) && chosen == old(chosen)
      ensures key == OtherKey ==>
        selectedIndex == old(selectedIndex) && query == old(query)
        && showResults == old(showResults) && chosen == old(chosen)
      ensures results == old(results) && isSearching == old(isSearching)
    {
      match key {
        case ArrowDown =>
          selectedIndex := Down(selectedIndex, |results|);
        case ArrowUp =>
          selectedIndex := Up(selectedIndex);
        case Enter =>
          var target := EnterTarget(results, selectedIndex);
          if target.Some? {
            ExpertSelect(target.value);
          }
        case Escape =>
          showResults := false;
          selectedIndex := -1;
        case OtherKey =>
      }
    }

    /** The query effect once the debounce has fired: a blank query empties the list and
        closes the dropdown without asking the database (the result is false); otherwise
        the reply's rows replace the list and open the dropdown, an error empties the
        list, and the searching flag ends lowered (the result is true). */
    method RunQuery(reply: SearchReply) returns (queried: bool)
      requires Valid()
      modifies this
      ensures Valid()
      ensures queried <==> !AllWhitespace(query)
      ensures !queried ==> results == [] && !showResults && isSearching == old(isSearching)
      ensures queried && reply.Rows? ==> results == reply.rows && showResults && !isSearching
      ensures queried && reply.QueryError? ==> results == [] && showResults == old(showResults) && !isSearching
      ensures query == old(query) && selectedIndex == old(selectedIndex) && chosen == old(chosen)
    {
      if Trim(query) == [] {
        results := [];
        showResults := false;
        return false;
      }
      isSearching := true;
      match reply {
        case Rows(rows) =>
          results := rows;
          showResults := true;
        case QueryError =>
          results := [];
      }
      isSearching := false;
      queried := true;
    }
  }
}
