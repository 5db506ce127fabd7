# EquiEdge: a verified model of the booking and profile logic

EquiEdge is a marketplace where riders find equestrian experts, book one of their plans
and chat with them while a session runs. Its front end sits on a hosted database. This
project models the logic that front end carries out itself, and proves properties of it:

- **The session lifecycle** (`Sessions`, `sessions.dfy`).
  - `SessionService` holds the `bookings` and `conversations` tables as sequences.
  - `CreateBooking` inserts a `confirmed` booking, looks up the service type, and derives
    the auto-completion instant (+7 days for `1_week`, +30 days for `1_month`, none
    otherwise). It then starts the session as `in_progress` and opens a conversation.
  - The chat gate, the two listings and the expert's completion call are functions.
  - `CheckAndCompleteExpiredSessions` is the bulk expiry sweep.
  - Time is an integer number of milliseconds. The outcome of each database round trip
    is a parameter.
- **The marketplace** (`Marketplace`, `marketplace.dfy`).
  - The filter over the loaded experts is a category match on the association table
    and a case-insensitive substring search.
  - The sort ranks experts by rank, with a missing rank last.
  - Also modelled: the card's name and image helpers, and the expert-suggestion form.
- **The search box** (`Search`, `search.dfy`). This is a class with the query, the
  results, the dropdown flag and the keyboard cursor `selectedIndex`:
  - the arrow keys move the cursor, Enter picks a result, Escape closes;
  - typing, selecting and clearing reset the cursor;
  - a blank query empties the list without asking the database.
- **The profile editor** (`ManageProfile`, `manage_profile.dfy`). This is a class with
  the profile form, the service list and its form, and the video list:
  - a new row is prepended;
  - an update replaces by id;
  - a delete filters by id;
  - the service-type drop-down fills in the title;
  - the loaded profile fills the form with `""` for every null column.
- **The public profile page** (`ExpertProfile`, `expert_profile.dfy`). It covers:
  - the tab bar, with its desktop and mobile label lists and the effect that relabels
    the active tab when the mode changes;
  - the plans built from service rows, including JavaScript's `parseInt` of the row id;
  - the booking lookup, the `about` text and the image helper;
  - the split of a plan description into bullet items.

Shared pieces:

- `Strings`: JavaScript's `trim` whitespace set, `startsWith`, `includes`, and ASCII
  `toLowerCase`.
- `Seqs`: `filter` and counting.
- `Sorting`: the stable sort that `Array.prototype.sort` is.
- `Experts`: the name and image fallbacks that several pages share.
- `Wrappers`: `Option`.

## Model

| member | source | states |
|---|---|---|
| Sessions.AutoCompletionDate | src/services/sessionService.ts:46-52 | a date exists exactly for `1_week` and `1_month`, and is `now` + 604 800 000 ms or + 2 592 000 000 ms |
| Sessions.SessionService.CreateBooking | src/services/sessionService.ts:20-88 | the insert writes a `confirmed` row with the given fields; a failed insert, service lookup or update stops the run with that error and keeps the earlier writes; on success the row is `in_progress` with the computed date, the result reports the id, `created_at` as the start, chat on and that date; the conversation row is written unless its unchecked insert fails; the table invariant is kept |
| Sessions.CanUserChatWithExpert | src/services/sessionService.ts:91-118 | chat is allowed iff the lookup succeeds, exactly one in-progress chat-enabled booking links the pair (the chosen `.single()` policy), and it has no date or `now <= date` |
| Sessions.CompleteSession | src/services/sessionService.ts:121-134 | true exactly when the procedure answers true; false on any error |
| Sessions.UserActiveSessions | src/services/sessionService.ts:137-166 | every listed row is a booking of the user, in progress with chat on; every such booking is listed; a failed query lists nothing |
| Sessions.ExpertActiveSessions | src/services/sessionService.ts:169-198 | the same for the expert's side |
| Sessions.Sweep | src/services/sessionService.ts:203-212 | same length; an in-progress row with a date `<= now` becomes `completed` with chat off, and every other row is unchanged |
| Sessions.SessionService.CheckAndCompleteExpiredSessions | src/services/sessionService.ts:201-220 | on success the table is the sweep of the old table and the count is the number of expired rows; on error nothing changes and the count is 0; the invariant is kept |
| Sessions.SweepIdempotent | src/services/sessionService.ts:201-215 | a second sweep, at the same instant or an earlier one, finds nothing (count 0) and changes nothing |
| Sessions.SweepLeavesNoStaleChat | src/services/sessionService.ts:205-211 | after a sweep no in-progress row has a date at or before `now` |
| Sessions.SweepShrinksChat | src/services/sessionService.ts:205-211 | a row that passes the chat lookup after the sweep passed it before and was not expired |
| Sessions.GateAllowsWhatSweepCompletes | src/services/sessionService.ts:107-111 | with the pair's only chat booking due exactly at `now`, the gate allows chat, the sweep at `now` completes the booking, and the gate then denies |
| Sessions.GateSweepOverlap | src/services/sessionService.ts:110 | the gate allows and the sweep completes the same booking iff its date equals `now`; one of the two always holds |
| Sessions.ChatAfterBooking | src/services/sessionService.ts:55-63 | a started booking that is the pair's only chat booking and not past its date opens chat |
| Sessions.StillLinked | src/services/sessionService.ts:68-75 | growing the table or rewriting rows with the same ids keeps every conversation pointing at an existing booking |
| Sessions.SweepKeepsRows | src/services/sessionService.ts:205-208 | the sweep keeps all ids, their distinctness, and "completed means chat off" |
| Experts.ExpertName | src/pages/ExpertMarketplace.tsx:318-322 | the result is never empty; it is "Unknown Expert" iff the `first last` template is all whitespace, and otherwise the template with its leading and trailing whitespace removed: a slice with only whitespace around it and none at its ends, which `Strings.TrimUnique` shows is the trim |
| Experts.ExpertNameOfCleanParts | src/pages/ExpertMarketplace.tsx:318-322 | two non-empty parts with no whitespace at their ends are shown as exactly `first + " " + last` |
| Experts.ResolveImage | src/pages/ExpertMarketplace.tsx:325-345 | a URL starting with `http` or `/` is returned unchanged; a missing, empty or other URL gives the placeholder |
| Marketplace.EffectiveRank | src/pages/ExpertMarketplace.tsx:257-258 | a null or zero rank is `Number.MAX_SAFE_INTEGER`; any other rank is itself |
| Marketplace.CategoryIdByName | src/pages/ExpertMarketplace.tsx:232 | None iff no category has the name; otherwise the id of the first category with it |
| Marketplace.FilteredExperts | src/pages/ExpertMarketplace.tsx:222-260 | sorted by effective rank; a sub-multiset of the experts; an expert is in it iff it is loaded and passes the category and search tests; with "All Experts" and an empty query it is a permutation of all experts |
| Marketplace.UnfilteredKeepsAll | src/pages/ExpertMarketplace.tsx:228-229 | with "All Experts" and an empty query the filter keeps the whole list |
| Marketplace.FilteredKeepsRankGroups | src/pages/ExpertMarketplace.tsx:255-260 | experts of equal rank keep their input order (the sort is stable) |
| Marketplace.ExpertImage | src/pages/ExpertMarketplace.tsx:325-345 | the preview URL if it starts with `http` or `/`, otherwise `/api/placeholder/200/200` |
| Marketplace.SuggestionRow | src/pages/ExpertMarketplace.tsx:273-294 | no row iff the name or the reason is blank; otherwise the trimmed, non-empty name and reason, no submitter when the user id is absent or empty, and a null category exactly for "All Experts" |
| Marketplace.SuggestionForm.Submit | src/pages/ExpertMarketplace.tsx:270-315 | a blank field refuses with no write and no flag change; a failed insert keeps the fields and the table; a successful one appends the row and clears both fields; the submitting flag ends lowered |
| Strings.Trim | src/pages/ExpertMarketplace.tsx:223 | a slice of the input with only whitespace before and after it and no whitespace at either of its ends, empty exactly when the input is all whitespace |
| Strings.TrimUnique | src/pages/ExpertMarketplace.tsx:223 | any slice with only whitespace around it and none at its ends is the trim, so the contract of `Trim` determines its result |
| Strings.Includes | src/pages/ExpertMarketplace.tsx:249-250 | true iff the needle occurs at some index of the haystack |
| Sorting.SortBy | src/pages/ExpertMarketplace.tsx:255-260 | sorted by the key, and a permutation of the input |
| Sorting.SortKeepsKeyGroups | src/pages/ExpertMarketplace.tsx:255-260 | for every key value, the elements with that key keep their input order |
| Sorting.FilterThenSort | src/pages/ExpertMarketplace.tsx:222-260 | filtering then sorting keeps exactly the satisfying elements, never more copies than the input has |
| Seqs.FilterSingle | src/services/sessionService.ts:93-100 | a filter keeps exactly one element iff exactly one index satisfies the test, and then it keeps that element |
| Seqs.FilterAppend | src/pages/ManageProfile.tsx:373 | the filter distributes over concatenation, so it keeps the order of what it keeps |
| Search.Down | src/components/ExpertSearch.tsx:93-97 | the cursor moves one step exactly when it is below `len - 1`, and otherwise stays; it stays in `[-1, max(-1, len-1)]` |
| Search.Up | src/components/ExpertSearch.tsx:98-100 | one step back from above 0; to -1 from 0 or below; never below -1 |
| Search.UpUndoesDown | src/components/ExpertSearch.tsx:93-100 | ArrowUp undoes an ArrowDown that moved |
| Search.DownTimesStops | src/components/ExpertSearch.tsx:93-97 | from a cursor in range, n ArrowDowns reach `min(prev + n, max(-1, len - 1))` |
| Search.UpTimesStops | src/components/ExpertSearch.tsx:98-100 | from -1 or above, n ArrowUps reach `max(-1, prev - n)` |
| Search.EnterTarget | src/components/ExpertSearch.tsx:101-105 | a target exists iff `0 <= index < len`, and it is the result at that index |
| Search.ExpertImage | src/components/ExpertSearch.tsx:138-148 | any present, non-empty URL is returned unchanged; otherwise `/api/placeholder/40/40` |
| Search.ExpertName | src/components/ExpertSearch.tsx:132-136 | the shared name rule `Experts.ExpertName` of the two name fields: never empty, "Unknown Expert" when the template is all whitespace, otherwise the trimmed template |
| Search.ExpertSearch.InputChange | src/components/ExpertSearch.tsx:87-90 | the new query and cursor -1; nothing else changes |
| Search.ExpertSearch.ExpertSelect | src/components/ExpertSearch.tsx:113-122 | the expert is handed on; the query is emptied, the dropdown closed and the cursor -1; the list is kept |
| Search.ExpertSearch.Clear | src/components/ExpertSearch.tsx:124-130 | empty query and list, dropdown closed, cursor -1 |
| Search.ExpertSearch.KeyDown | src/components/ExpertSearch.tsx:92-111 | each key's effect: the arrows move the cursor by Down/Up and keep it in range; Enter selects exactly when the cursor is on a result; Escape closes and resets the cursor; any other key changes nothing |
| Search.ExpertSearch.RunQuery | src/components/ExpertSearch.tsx:51-81 | a blank query empties the list and closes the dropdown without querying; rows replace the list and open the dropdown; an error empties the list; searching ends lowered |
| ManageProfile.FormOf | src/pages/ManageProfile.tsx:131-141 | each of the nine form fields is its profile column, and `""` when the column is null |
| ManageProfile.TitleIn | src/pages/ManageProfile.tsx:242-247 | the title of the first option with the value, or `""` when no option has it |
| ManageProfile.TitleFor | src/pages/ManageProfile.tsx:241-248 | `""` iff the value is none of the four types of the table at lines 94-99; otherwise the title of the matching option |
| ManageProfile.TitlesOfTheFourTypes | src/pages/ManageProfile.tsx:94-99 | each of the four values gets its own title |
| ManageProfile.EditForm | src/pages/ManageProfile.tsx:388-397 | the form copies type and title, turns a null description into `""`, and shows the given number texts |
| ManageProfile.NewService | src/pages/ManageProfile.tsx:255-265 | the inserted row: the form's title and type, a null description iff the form's is empty, active, owned by the profile |
| ManageProfile.Merge | src/pages/ManageProfile.tsx:328-331 | the form's fields over the row; id, owner and active flag kept |
| ManageProfile.ReplaceById | src/pages/ManageProfile.tsx:328-332 | same length and ids; rows with the edited id merged with the form; all others unchanged |
| ManageProfile.ReplaceByIdIdempotent | src/pages/ManageProfile.tsx:328-332 | repeating the update changes nothing more |
| ManageProfile.ReplaceMissingId | src/pages/ManageProfile.tsx:328-332 | an update for an id no row has leaves the list as it was |
| ManageProfile.WithoutService | src/pages/ManageProfile.tsx:373 | no kept row has the id; every other row is kept; the rest are from the list; the length drops by the number of rows with the id |
| ManageProfile.WithoutVideo | src/pages/ManageProfile.tsx:468 | the same for videos |
| ManageProfile.WithoutServiceSplits | src/pages/ManageProfile.tsx:373 | removal works piecewise over any split, so the order of the rest is kept |
| ManageProfile.WithoutVideoSplits | src/pages/ManageProfile.tsx:468 | the same for videos |
| ManageProfile.WithoutMissingService | src/pages/ManageProfile.tsx:373 | removing an absent id changes nothing |
| ManageProfile.ProfileEditor.LoadProfile | src/pages/ManageProfile.tsx:108-181 | on a profile reply the form is filled from it; for an expert each list is replaced by its reply unless that query failed; on an error nothing changes |
| ManageProfile.ProfileEditor.ServiceTypeChange | src/pages/ManageProfile.tsx:241-248 | the form's type becomes the value and its title `TitleFor(value)`; nothing else changes |
| ManageProfile.ProfileEditor.AddService | src/pages/ManageProfile.tsx:250-300 | no profile: nothing; failed insert: nothing; otherwise the new row is prepended to the unchanged list, the panel closes and the form is emptied |
| ManageProfile.ProfileEditor.UpdateService | src/pages/ManageProfile.tsx:302-354 | nothing edited: nothing; failed write: nothing; otherwise ReplaceById, editing ends and the form is emptied; the add panel is untouched |
| ManageProfile.ProfileEditor.DeleteService | src/pages/ManageProfile.tsx:356-386 | after a successful delete the list is WithoutService of the old one; nothing else changes |
| ManageProfile.ProfileEditor.EditService | src/pages/ManageProfile.tsx:388-397 | the service is being edited and the form is EditForm of it |
| ManageProfile.ProfileEditor.CancelEdit | src/pages/ManageProfile.tsx:399-409 | nothing edited, panel closed, form empty; the lists are untouched |
| ManageProfile.ProfileEditor.AddVideo | src/pages/ManageProfile.tsx:411-449 | no profile or a blank URL: nothing; failed insert: nothing; otherwise the video with the trimmed URL is prepended and the field emptied |
| ManageProfile.ProfileEditor.DeleteVideo | src/pages/ManageProfile.tsx:451-469 | after a successful delete the list is WithoutVideo of the old one |
| ExpertProfile.IndexOf | src/pages/ExpertProfile.tsx:94 | `findIndex`: -1 iff absent; otherwise the first index holding the value |
| ExpertProfile.CurrentTabKey | src/pages/ExpertProfile.tsx:89-96 | the key at the active label's index in the mode's list, or "about" when the label is not there |
| ExpertProfile.LabelForKey | src/pages/ExpertProfile.tsx:99-100 | the mode's label at the key's index, always a label of that mode |
| ExpertProfile.RelabelAsWrittenResets | src/pages/ExpertProfile.tsx:93-103 | as written, switching modes sends any tab to the first tab of the new mode |
| ExpertProfile.RelabelAsWrittenLosesPlansTab | src/pages/ExpertProfile.tsx:93-103 | as written, "Available Plans" (key "plans") becomes "About" on a switch to mobile |
| ExpertProfile.TabListsDistinct | src/pages/ExpertProfile.tsx:51-52 | the keys and both label lists have no repeats |
| ExpertProfile.RelabelKeepsKey | src/pages/ExpertProfile.tsx:97-103 | the corrected relabelling keeps the canonical tab key across the switch |
| ExpertProfile.RelabelRoundTrip | src/pages/ExpertProfile.tsx:97-103 | switching there and back returns the label one started from |
| ExpertProfile.ProfileTabs.SetMobile | src/pages/ExpertProfile.tsx:98-103 | the effect runs only on a mode change, applies the corrected relabelling, and keeps the tab key |
| ExpertProfile.ProfileTabs.Select | src/pages/ExpertProfile.tsx:626 | a click sets the active label |
| ExpertProfile.LeadingDigits | src/pages/ExpertProfile.tsx:159 | the longest digit prefix |
| ExpertProfile.ParseMagnitude | src/pages/ExpertProfile.tsx:159 | `parseInt`'s unsigned part: NaN for the empty text or a non-digit start; a number after a decimal start |
| ExpertProfile.ParseInt | src/pages/ExpertProfile.tsx:159 | NaN for blank text or a start that is neither a digit nor a sign; a non-negative number after a decimal start |
| ExpertProfile.LeadingDigitsOf | src/pages/ExpertProfile.tsx:159 | the digit prefix of digits followed by a non-digit is those digits |
| ExpertProfile.ParseIntDecimal | src/pages/ExpertProfile.tsx:159 | decimal digits followed by a non-digit parse to their value |
| ExpertProfile.ParseIntOfDigitUuid | src/pages/ExpertProfile.tsx:159 | `parseInt("123e4567-e89b-…")` is 123 |
| ExpertProfile.ParseIntOfLetterUuid | src/pages/ExpertProfile.tsx:159 | `parseInt("c0ffee00-…")` is NaN |
| ExpertProfile.ParseIntOfOtherDigitUuid | src/pages/ExpertProfile.tsx:159 | `parseInt("123f4567-e89b-…")` is 123 as well |
| ExpertProfile.PlanOf | src/pages/ExpertProfile.tsx:158-166 | the plan's numeric id is `parseInt` of the row id; name = title, spots = slots, details `""`, duration "30 min" |
| ExpertProfile.PlansOf | src/pages/ExpertProfile.tsx:158 | one plan per row, in order; none when the query failed |
| ExpertProfile.FindPlanAsWritten | src/pages/ExpertProfile.tsx:243 | not found iff the id is NaN or no plan carries it; a found plan is the first plan in the list with that id |
| ExpertProfile.LetterIdPlanNotFound | src/pages/ExpertProfile.tsx:243-251 | as written, the plan of a row whose id `parseInt` (line 159) turns into NaN is never found |
| ExpertProfile.LetterIdPlanNotFoundExample | src/pages/ExpertProfile.tsx:243-251 | the same for the row id "c0ffee00-0000-4000-8000-000000000000" |
| ExpertProfile.DigitIdCollision | src/pages/ExpertProfile.tsx:243-251 | as written, when two distinct rows' ids parse to the same number, the later card's button finds a plan of another row, so the wrong service is booked |
| ExpertProfile.DigitIdCollisionExample | src/pages/ExpertProfile.tsx:243-251 | rows "123e4567-…" ("Lesson") and "123f4567-…" ("Clinic"): booking the "Clinic" card finds the "Lesson" plan |
| ExpertProfile.FindPlan | src/pages/ExpertProfile.tsx:243 | corrected lookup by row id: not found iff no plan has it; a found plan is the first plan in the list with that id |
| ExpertProfile.EveryPlanFound | src/pages/ExpertProfile.tsx:243 | with distinct ids every plan on the page is found, and it is that plan |
| ExpertProfile.PlansKeepDistinctIds | src/pages/ExpertProfile.tsx:158-166 | distinct rows give plans with distinct row ids |
| ExpertProfile.BookPlan | src/pages/ExpertProfile.tsx:232-251 | "Plan not found" iff no plan has the id; otherwise the booking goes ahead with that plan |
| ExpertProfile.About | src/pages/ExpertProfile.tsx:151 | the profile bio when it is non-empty, otherwise "I am <first> <last>, an expert in equestrian sports." |
| ExpertProfile.AboutShowsNull | src/pages/ExpertProfile.tsx:151 | a missing last name is written as the word "null" |
| ExpertProfile.ExpertName | src/pages/ExpertProfile.tsx:204-208 | the profile page's name is the shared name rule `Experts.ExpertName`: never empty, "Unknown Expert" when the template is all whitespace, otherwise the trimmed template |
| ExpertProfile.ExpertImage | src/pages/ExpertProfile.tsx:211-230 | the URL if it starts with `http` or `/`, otherwise `/placeholder.svg` |
| ExpertProfile.MatchLength | src/pages/ExpertProfile.tsx:360 | 0 iff no separator starts the text; otherwise the length of a separator that does |
| ExpertProfile.MatchLengthSingle | src/pages/ExpertProfile.tsx:360 | with one-character separators a match is exactly a separator first character |
| ExpertProfile.SplitPiecesClean | src/pages/ExpertProfile.tsx:360 | no piece of the split holds a separator character |
| ExpertProfile.SplitLosesOnlySeparators | src/pages/ExpertProfile.tsx:360 | the pieces joined again are the input less its separator characters |
| ExpertProfile.SplitPieceCount | src/pages/ExpertProfile.tsx:360 | there is one piece more than there are separator characters |
| ExpertProfile.SplitWhole | src/pages/ExpertProfile.tsx:360 | a text no separator matches in is one piece |
| ExpertProfile.SplitHead | src/pages/ExpertProfile.tsx:360 | a leading separator closes an empty piece; any other leading character joins the first piece |
| ExpertProfile.JoinSplit | src/pages/ExpertProfile.tsx:360 | with one-character separators the split loses nothing: there is one cut per separator character, and putting those characters back between the pieces, in order, gives the text again |
| ExpertProfile.SplitJoin | src/pages/ExpertProfile.tsx:360 | separator-free pieces joined with separator characters split back into exactly those pieces, so the split is the one cutting of the text at its separator characters |
| ExpertProfile.DescriptionItems | src/pages/ExpertProfile.tsx:359-363 | no description gives the one placeholder item; otherwise one item per non-empty piece, each item trimmed and the trim of a non-empty piece |
| ExpertProfile.ItemsOfDecomposition | src/pages/ExpertProfile.tsx:359-363 | a description made of separator-free pieces and separator characters shows exactly its non-empty pieces, in order, each trimmed |
| ExpertProfile.ItemsOfCleanPieces | src/pages/ExpertProfile.tsx:360-361 | pieces that are non-empty and already trimmed are the items themselves |
| ExpertProfile.ItemsHoldNoSeparator | src/pages/ExpertProfile.tsx:360-361 | with one-character separators no item holds a separator character |
| ExpertProfile.BulletSeparatorChars | src/pages/ExpertProfile.tsx:360 | the intended separators are the one-character strings newline, "•" and "-" |
| ExpertProfile.BulletNotSplitAsWritten | src/pages/ExpertProfile.tsx:360 | as written, "a•b" stays the single item "a•b" |
| ExpertProfile.SplitsAtBullet | src/pages/ExpertProfile.tsx:360-361 | with a bullet separator, `x•y` gives the items `x` and `y` |
| ExpertProfile.BulletSplits | src/pages/ExpertProfile.tsx:360-361 | with the intended separators "a•b" gives the items "a" and "b" |

## Left out

- The database client is not modelled. Each query is an operation on an in-memory
  table, and whether it fails is a parameter.
- `.single()` is never run as the client would run it; the model chooses a policy
  instead: exactly one matching row, otherwise an error. Its error on zero or several
  rows is not distinguished from a network error.
- Booking ids are natural numbers from a counter. The database issues uuids.
- The time of the insert (`createdAt`) and the caller's clock (`now`) are two separate
  parameters.
- The inside of the `complete_expert_session` procedure is not visible. Only its
  boolean answer is modelled.
- The server-side `ilike` name search of the dropdown is not modelled. The reply rows
  are an input.
- `handleSaveProfile` is not modelled. It only writes the form and raises a flag.
- Timers are not modelled: the 300 ms debounce, the simulated booking delay and the
  simulated waitlist delay.
- UI concerns are not modelled: JSX, toasts, navigation, click-outside and focus
  handlers, and the YouTube-id regex.
- The `emoji-flags` lookups are not modelled.
- The static pages (landing, waitlist) and the mock messages page are not modelled.
- Numbers are not parsed or printed as JavaScript does:
  - price and slot count are given already parsed to `AddService`/`UpdateService`;
  - `EditService` is given the two number texts;
  - prices are `real`, not doubles.
- `parseInt` of plan ids is modelled for base 10 and the `0x` prefix. The model stops
  at the longest digit prefix and does not round the value to a double.
- Timestamps are integer milliseconds, with no ISO-8601 strings.
- Sessions.UserActiveSessions: returns the matching booking rows themselves. The query
  also joins each row with its service's `title` and `service_type` and the expert's
  `first_name` and `last_name`; that projection is not built, because the service and
  profile tables are not part of the session model.
- Sessions.ExpertActiveSessions: likewise returns the booking rows, without the joined
  service `title`/`service_type` and the client's `first_name`/`last_name`.
- Strings.ToLower: maps only ASCII `A`-`Z`, not the full Unicode case mapping of
  `toLowerCase`.
- Sessions.SessionService.CreateBooking: the chat flag of a new booking is the column
  default `true`, which the schema does not show.
- Sessions.SessionService.Valid: "completed means chat off" is kept by the sweep, but it
  is not re-checked against RPC completions. Those happen inside the procedure.
- ManageProfile.Merge: the local row keeps the form's description text even when it is
  empty, where the database stores null (ManageProfile.tsx:311 against 329). The model
  does what the code does.
- Search.ExpertSearch.Valid: only requires the cursor to be at least -1. A new reply can
  shorten the list under the cursor, and no handler moves it back into range.
- ExpertProfile.DescriptionItems: a piece of spaces alone passes `filter(Boolean)` and
  becomes an empty item, as in the code.
- ExpertProfile.About: a null name part is written "null", as the template literal
  writes it.
- ExpertProfile.ProfileTabs: models the corrected relabelling. The as-written effect is
  the `RelabelAsWritten` function.

## Findings

| source | as written | input that shows it | evidently intended | confidence | as-written member | corrected member |
|---|---|---|---|---|---|---|
| src/pages/ExpertProfile.tsx:93-103 | `currentTabKey` is computed in the render for the new mode, so the effect looks the old label up in the new label list, never finds it, and resets to the first tab | desktop on "Available Plans", then switch to mobile: the tab becomes "About" | the label in the new mode for the same canonical key ("Plans") | not executed | ExpertProfile.RelabelAsWrittenResets, ExpertProfile.RelabelAsWrittenLosesPlansTab | ExpertProfile.RelabelKeepsKey, ExpertProfile.RelabelRoundTrip, ExpertProfile.ProfileTabs.SetMobile |
| src/pages/ExpertProfile.tsx:360 | the split regex holds the three characters "â€¢", which are the UTF-8 bytes of "•" read as Windows-1252, so a real bullet never splits | description "a•b" gives the one item "a•b" | split on newline, "•" and "-", so "a•b" gives "a" and "b" | not executed | ExpertProfile.BulletNotSplitAsWritten | ExpertProfile.BulletSplits, ExpertProfile.ItemsHoldNoSeparator |
| src/pages/ExpertProfile.tsx:159 | plan ids are `parseInt` of uuid row ids: a uuid starting with a letter gives NaN, and `find(p => p.id === planId)` at line 243 never matches NaN; uuids starting with the same digits give the same number, and `find` returns the first such plan | service row id "c0ffee00-0000-4000-8000-000000000000": booking its plan stops at "Plan not found"; rows "123e4567-…" and "123f4567-…": booking the second books the first | look the plan up by the row's own id | not executed | ExpertProfile.LetterIdPlanNotFound, ExpertProfile.LetterIdPlanNotFoundExample, ExpertProfile.DigitIdCollision, ExpertProfile.DigitIdCollisionExample | ExpertProfile.FindPlan, ExpertProfile.EveryPlanFound, ExpertProfile.BookPlan |
