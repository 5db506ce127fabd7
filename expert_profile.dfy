/**
 * The public profile page of an expert: the tab bar, which has one set of labels on
 * desktop and another on mobile; the plans built from the expert's service rows and the
 * booking lookup on them; the `about` text; the name and image helpers; and the split
 * of a plan description into bullet lines.
 */
module ExpertProfile {
  import opened Wrappers
  import opened Strings
  import opened Seqs
  import Experts

  // ---------------------------------------------------------------- tabs

  const TabsDesktop: seq<string> := ["About Me", "Videos & Articles", "Available Plans", "Why It's Valuable"]
  const TabsMobile: seq<string> := ["About", "Media", "Plans", "Reviews"]
  /** The canonical tab keys, index for index with both label lists. */
  const TabKeys: seq<string> := ["about", "media", "plans", "reviews"]

  function Labels(isMobile: bool): (r: seq<string>)
    ensures |r| == |TabKeys|
  {
    if isMobile then TabsMobile else TabsDesktop
  }

  /** `findIndex(l => l === x)`: the first index holding `x`, or -1. */
  function IndexOf(xs: seq<string>, x: string): (r: int)
    ensures -1 <= r < |xs|
    ensures r == -1 <==> x !in xs
    ensures r >= 0 ==> xs[r] == x && forall j :: 0 <= j < r ==> xs[j] != x
    decreases |xs|
  {
    if xs == [] then -1
    else if xs[0] == x then 0
    else
      var r := IndexOf(xs[1..], x);
      assert forall j :: 1 <= j < |xs| ==> xs[j] == xs[1..][j - 1];
      if r == -1 then -1 else r + 1
  }

  /** `currentTabKey`: the key at the position of the active label in the list of the
      given mode, or "about" when the label is not in that list. */
  function CurrentTabKey(isMobile: bool, activeTab: string): (k: string)
    ensures k in TabKeys
    ensures activeTab in Labels(isMobile) ==> k == TabKeys[IndexOf(Labels(isMobile), activeTab)]
    ensures activeTab !in Labels(isMobile) ==> k == "about"
  {
    var idx := IndexOf(Labels(isMobile), activeTab);
    if idx != -1 then TabKeys[idx] else TabKeys[0]
  }

  /** The label list for a mode, looked up by key: `tabLabels[idx] || tabLabels[0]`. */
  function LabelForKey(isMobile: bool, key: string): (r: string)
    ensures r in Labels(isMobile)
    ensures key in TabKeys ==> r == Labels(isMobile)[IndexOf(TabKeys, key)]
  {
    var idx := IndexOf(TabKeys, key);
    if idx != -1 then Labels(isMobile)[idx] else Labels(isMobile)[0]
  }

  /** The label the mode-switch effect sets, as written: the effect runs after the render
      for the new mode, so `currentTabKey` looks the old label up in the NEW list. */
  function RelabelAsWritten(activeTab: string, newIsMobile: bool): string {
    LabelForKey(newIsMobile, CurrentTabKey(newIsMobile, activeTab))
  }

  /** As written, switching modes resets any tab of the old mode to the first tab of
      the new one, because no label appears in both lists. */
  lemma {:induction false} RelabelAsWrittenResets(oldIsMobile: bool, i: int)
    requires 0 <= i < |TabKeys|
    ensures RelabelAsWritten(Labels(oldIsMobile)[i], !oldIsMobile) == Labels(!oldIsMobile)[0]
  {
    var tabLabel := Labels(oldIsMobile)[i];
    assert tabLabel !in Labels(!oldIsMobile);
    assert IndexOf(TabKeys, "about") == 0;
  }

  /** The concrete case: on "Available Plans" a switch to mobile shows "About", not "Plans". */
  lemma RelabelAsWrittenLosesPlansTab()
    ensures RelabelAsWritten("Available Plans", true) == "About"
    ensures CurrentTabKey(false, "Available Plans") == "plans"
  {
    RelabelAsWrittenResets(false, 2);
    assert IndexOf(TabsDesktop, "Available Plans") == 2;
  }

  /** The evidently intended effect: the key is taken from the list of the mode the label
      belongs to, and the label of that key in the new mode replaces it. */
  function Relabel(activeTab: string, oldIsMobile: bool, newIsMobile: bool): string {
    LabelForKey(newIsMobile, CurrentTabKey(oldIsMobile, activeTab))
  }

  /** No two entries of the list are equal. */
  predicate Distinct(xs: seq<string>) {
    forall i, j :: 0 <= i < j < |xs| ==> xs[i] != xs[j]
  }

  /** In a list without repeats, each entry is found at its own index. */
  lemma {:induction false} IndexOfDistinct(xs: seq<string>, i: int)
    requires Distinct(xs) && 0 <= i < |xs|
    ensures IndexOf(xs, xs[i]) == i
  {
    var r := IndexOf(xs, xs[i]);
    assert xs[r] == xs[i];
  }

  /** The keys and both label lists are without repeats. */
  lemma TabListsDistinct()
    ensures Distinct(TabKeys) && Distinct(TabsMobile) && Distinct(TabsDesktop)
  {
    assert TabKeys[0][0] == 'a' && TabKeys[1][0] == 'm' && TabKeys[2][0] == 'p' && TabKeys[3][0] == 'r';
    assert TabsMobile[0][0] == 'A' && TabsMobile[1][0] == 'M' && TabsMobile[2][0] == 'P' && TabsMobile[3][0] == 'R';
    assert TabsDesktop[0][1] == 'b' && TabsDesktop[1][0] == 'V' && TabsDesktop[2][1] == 'v' && TabsDesktop[3][0] == 'W';
  }

  /** The corrected effect keeps the canonical tab across the switch. */
  lemma RelabelKeepsKey(activeTab: string, oldIsMobile: bool, newIsMobile: bool)
    ensures CurrentTabKey(newIsMobile, Relabel(activeTab, oldIsMobile, newIsMobile))
         == CurrentTabKey(oldIsMobile, activeTab)
  {
    TabListsDistinct();
    var key := CurrentTabKey(oldIsMobile, activeTab);
    var i := IndexOf(TabKeys, key);
    IndexOfDistinct(Labels(newIsMobile), i);
  }

  /** Switching there and back returns to the label one started from. */
  lemma RelabelRoundTrip(isMobile: bool, i: int)
    requires 0 <= i < |TabKeys|
    ensures Relabel(Relabel(Labels(isMobile)[i], isMobile, !isMobile), !isMobile, isMobile) == Labels(isMobile)[i]
  {
    TabListsDistinct();
    IndexOfDistinct(TabKeys, i);
    IndexOfDistinct(Labels(isMobile), i);
    IndexOfDistinct(Labels(!isMobile), i);
  }

  /** The tab state of the page, with the corrected mode-switch effect. */
  class ProfileTabs {
    var isMobile: bool
    var activeTab: string

    /** The initial label "About Me", after the effect's first run for the initial mode. */
    constructor (isMobile: bool)
      ensures this.isMobile == isMobile
      ensures activeTab == Labels(isMobile)[0]
      ensures CurrentTabKey(isMobile, activeTab) == "about"
    {
      this.isMobile := isMobile;
      activeTab := LabelForKey(isMobile, CurrentTabKey(isMobile, "About Me"));
    }

    /** A click on a tab. */
    method Select(tabLabel: string)
      modifies this
      ensures activeTab == tabLabel && isMobile == old(isMobile)
    {
      activeTab := tabLabel;
    }

    /** A change of the viewport mode; the effect runs only when the mode changes. */
    method SetMobile(newIsMobile: bool)
      modifies this
      ensures isMobile == newIsMobile
      ensures newIsMobile == old(isMobile) ==> activeTab == old(activeTab)
      ensures newIsMobile != old(isMobile) ==> activeTab == Relabel(old(activeTab), old(isMobile), newIsMobile)
      ensures CurrentTabKey(isMobile, activeTab) == CurrentTabKey(old(isMobile), old(activeTab))
    {
      if newIsMobile != isMobile {
        RelabelKeepsKey(activeTab, isMobile, newIsMobile);
        activeTab := Relabel(activeTab, isMobile, newIsMobile);
      }
      isMobile := newIsMobile;
    }
  }

  // ---------------------------------------------------------------- parseInt

  /** The value of a digit in base 10 or 16, if `c` is one. */
  function DigitValue(c: char, hex: bool): (r: Option<nat>)
    ensures r.Some? ==> r.value < (if hex then 16 else 10)
  {
    if '0' <= c <= '9' then Some(c as int - '0' as int)
    else if hex && 'a' <= c <= 'f' then Some(c as int - 'a' as int + 10)
    else if hex && 'A' <= c <= 'F' then Some(c as int - 'A' as int + 10)
    else None
  }

  /** The longest prefix of `s` made of digits. */
  function LeadingDigits(s: string, hex: bool): (r: string)
    ensures |r| <= |s| && r == s[..|r|]
    ensures forall i :: 0 <= i < |r| ==> DigitValue(r[i], hex).Some?
    ensures |r| < |s| ==> DigitValue(s[|r|], hex).None?
    decreases |s|
  {
    if s != [] && DigitValue(s[0], hex).Some? then [s[0]] + LeadingDigits(s[1..], hex) else []
  }

  /** The number a digit string denotes. */
  function DigitsValue(d: string, hex: bool): (n: nat)
    requires forall i :: 0 <= i < |d| ==> DigitValue(d[i], hex).Some?
    decreases |d|
  {
    if d == [] then 0
    else DigitsValue(d[..|d| - 1], hex) * (if hex then 16 else 10) + DigitValue(d[|d| - 1], hex).value
  }

  /** `t` starts with a decimal digit and not with the hexadecimal prefix. */
  predicate StartsDecimal(t: string) {
    t != [] && DigitValue(t[0], false).Some? && !(|t| >= 2 && t[0] == '0' && (t[1] == 'x' || t[1] == 'X'))
  }

  /** The unsigned part of `parseInt`: a `0x` or `0X` prefix selects base 16, and the
      longest digit prefix that follows is read; with no digit the result is NaN. */
  function ParseMagnitude(u: string): (r: Option<nat>)
    ensures u == [] ==> r.None?
    ensures StartsDecimal(u) ==> r.Some?
    ensures u != [] && DigitValue(u[0], false).None? ==> r.None?
  {
    var hex := |u| >= 2 && u[0] == '0' && (u[1] == 'x' || u[1] == 'X');
    var body := if hex then u[2..] else u;
    var d := LeadingDigits(body, hex);
    if d == [] then None else Some(DigitsValue(d, hex))
  }

  /** `parseInt(s)` without a radix; None stands for NaN. Leading whitespace is skipped
      and one sign is taken before the magnitude is read. */
  function ParseInt(s: string): (r: Option<int>)
    ensures TrimStart(s) == [] ==> r.None?
    ensures StartsDecimal(TrimStart(s)) ==> r.Some? && r.value >= 0
    ensures (TrimStart(s) != [] && DigitValue(TrimStart(s)[0], false).None?
             && TrimStart(s)[0] != '+' && TrimStart(s)[0] != '-') ==> r.None?
  {
    var t := TrimStart(s);
    if t != [] && (t[0] == '-' || t[0] == '+') then
      match ParseMagnitude(t[1..])
      case None => None
      case Some(v) => var n: int := v; if t[0] == '-' then Some(-n) else Some(n)
    else
      match ParseMagnitude(t)
      case None => None
      case Some(v) => Some(v)
  }

  /** The digit prefix of digits followed by a non-digit is those digits. */
  lemma {:induction false} LeadingDigitsOf(d: string, rest: string, hex: bool)
    requires forall i :: 0 <= i < |d| ==> DigitValue(d[i], hex).Some?
    requires rest == [] || DigitValue(rest[0], hex).None?
    ensures LeadingDigits(d + rest, hex) == d
    decreases |d|
  {
    if d == [] {
      assert d + rest == rest;
    } else {
      assert (d + rest)[1..] == d[1..] + rest;
      LeadingDigitsOf(d[1..], rest, hex);
    }
  }

  /** Decimal digits (not "0" before an "x") followed by a non-digit read as their value. */
  lemma MagnitudeDecimal(d: string, rest: string)
    requires d != [] && forall i :: 0 <= i < |d| ==> DigitValue(d[i], false).Some?
    requires rest == [] || DigitValue(rest[0], false).None?
    requires !(d == "0" && rest != [] && (rest[0] == 'x' || rest[0] == 'X'))
    ensures ParseMagnitude(d + rest) == Some(DigitsValue(d, false))
  {
    var u := d + rest;
    assert u[0] == d[0];
    assert |d| >= 2 ==> u[1] == d[1];
    assert |d| == 1 && rest != [] ==> u[1] == rest[0];
    LeadingDigitsOf(d, rest, false);
  }

  /** Without leading whitespace or a sign, `parseInt` is the magnitude alone. */
  lemma ParseIntUnsigned(s: string)
    requires s != [] && DigitValue(s[0], false).Some?
    ensures ParseMagnitude(s).Some? ==> ParseInt(s) == Some(ParseMagnitude(s).value)
  {
    assert !IsWhitespace(s[0]);
    TrimStartClean(s);
  }

  /** Decimal digits (not "0" before an "x") followed by a non-digit parse to their value. */
  lemma ParseIntDecimal(d: string, rest: string)
    requires d != [] && forall i :: 0 <= i < |d| ==> DigitValue(d[i], false).Some?
    requires rest == [] || DigitValue(rest[0], false).None?
    requires !(d == "0" && rest != [] && (rest[0] == 'x' || rest[0] == 'X'))
    ensures ParseInt(d + rest) == Some(DigitsValue(d, false))
  {
    var s := d + rest;
    assert s[0] == d[0];
    MagnitudeDecimal(d, rest);
    ParseIntUnsigned(s);
  }

  /** The decimal value of "123". */
  lemma DigitsOf123()
    ensures DigitsValue("123", false) == 123
  {
    assert DigitsValue("1", false) == 1 by { assert "1"[..0] == ""; }
    assert DigitsValue("12", false) == 12 by { assert "12"[..1] == "1"; }
    assert "123"[..2] == "12";
  }

  /** A uuid whose first character is a digit parses to the decimal number in front. */
  lemma ParseIntOfDigitUuid()
    ensures ParseInt("123e4567-e89b-12d3-a456-426614174000") == Some(123)
  {
    var rest := "e4567-e89b-12d3-a456-426614174000";
    assert "123" + rest == "123e4567-e89b-12d3-a456-426614174000";
    ParseIntDecimal("123", rest);
    DigitsOf123();
  }

  /** A uuid whose first character is a letter parses to NaN. */
  lemma ParseIntOfLetterUuid()
    ensures ParseInt("c0ffee00-0000-4000-8000-000000000000").None?
  {
    var s := "c0ffee00-0000-4000-8000-000000000000";
    assert s[0] == 'c';
    assert TrimStart(s) == s;
  }

  // ---------------------------------------------------------------- plans

  /** The columns of `expert_services` the page asks for. */
  datatype ServiceRow = ServiceRow(id: string, title: string, description: Option<string>,
                                   price: real, availabilitySlots: int)

  /** A plan card. `id` is `parseInt` of the row id (None for NaN); `serviceId` keeps the
      row id itself, which the corrected booking lookup uses. */
  datatype Plan = Plan(id: Option<int>, serviceId: string, name: string, description: Option<string>,
                       price: real, spots: int, details: string, duration: string)

  function PlanOf(row: ServiceRow): (p: Plan)
    ensures p.id == ParseInt(row.id) && p.serviceId == row.id
    ensures p.name == row.title && p.description == row.description
    ensures p.price == row.price && p.spots == row.availabilitySlots
    ensures p.details == "" && p.duration == "30 min"
  {
    Plan(ParseInt(row.id), row.id, row.title, row.description, row.price, row.availabilitySlots, "", "30 min")
  }

  /** `(plansData || []).map(...)`: one plan per row, in row order; none when the query
      failed. */
  function PlansOf(rows: Option<seq<ServiceRow>>): (r: seq<Plan>)
    ensures rows.None? ==> r == []
    ensures rows.Some? ==> |r| == |rows.value|
    ensures rows.Some? ==> forall i :: 0 <= i < |r| ==> r[i] == PlanOf(rows.value[i])
  {
    match rows
    case None => []
    case Some(rs) => seq(|rs|, i requires 0 <= i < |rs| => PlanOf(rs[i]))
  }

  /** `expert.plans?.find(p => p.id === planId)`, as written: the first plan with that
      numeric id; NaN equals nothing, not even NaN. */
  function FindPlanAsWritten(plans: seq<Plan>, planId: Option<int>): (r: Option<Plan>)
    ensures r.None? <==> planId.None? || forall i :: 0 <= i < |plans| ==> plans[i].id != planId
    ensures r.Some? ==> r.value in plans && r.value.id == planId && planId.Some?
    ensures r.Some? ==> exists k :: FirstWithId(plans, planId, k) && plans[k] == r.value
    decreases |plans|
  {
    if planId.None? || plans == [] then None
    else if plans[0].id == planId then
      assert FirstWithId(plans, planId, 0);
      Some(plans[0])
    else
      assert forall j :: 1 <= j < |plans| ==> plans[j] == plans[1..][j - 1];
      assert forall k :: FirstWithId(plans[1..], planId, k) ==> FirstWithId(plans, planId, k + 1);
      FindPlanAsWritten(plans[1..], planId)
  }

  /** `k` is the first index whose plan has the numeric id `planId`. */
  predicate FirstWithId(plans: seq<Plan>, planId: Option<int>, k: int) {
    0 <= k < |plans| && plans[k].id == planId && forall j :: 0 <= j < k ==> plans[j].id != planId
  }

  /** `k` is the first index whose plan has the row id `serviceId`. */
  predicate FirstWithServiceId(plans: seq<Plan>, serviceId: string, k: int) {
    0 <= k < |plans| && plans[k].serviceId == serviceId
    && forall j :: 0 <= j < k ==> plans[j].serviceId != serviceId
  }

  /** The card's button passes the plan's own `id`: as written, the plan built from a row
      whose id starts with a letter is never found, and the booking stops at "Plan not
      found". */
  lemma LetterIdPlanNotFound(rows: seq<ServiceRow>, i: int)
    requires 0 <= i < |rows| && ParseInt(rows[i].id).None?
    ensures FindPlanAsWritten(PlansOf(Some(rows)), PlansOf(Some(rows))[i].id).None?
  {
  }

  /** The concrete case: a service row with the id "c0ffee00-0000-4000-8000-000000000000". */
  lemma LetterIdPlanNotFoundExample()
    ensures FindPlanAsWritten(PlansOf(Some([ServiceRow("c0ffee00-0000-4000-8000-000000000000", "Lesson", None, 50.0, 3)])),
                              PlansOf(Some([ServiceRow("c0ffee00-0000-4000-8000-000000000000", "Lesson", None, 50.0, 3)]))[0].id).None?
  {
    ParseIntOfLetterUuid();
    LetterIdPlanNotFound([ServiceRow("c0ffee00-0000-4000-8000-000000000000", "Lesson", None, 50.0, 3)], 0);
  }

  /** As written, two rows whose ids start with the same decimal digits give plans with
      the same numeric id, and the button of the later one finds the earlier plan: the
      booking goes ahead with the wrong service. */
  lemma DigitIdCollision(rows: seq<ServiceRow>, i: int, j: int)
    requires DistinctIds(rows) && 0 <= i < j < |rows|
    requires ParseInt(rows[i].id).Some? && ParseInt(rows[i].id) == ParseInt(rows[j].id)
    ensures FindPlanAsWritten(PlansOf(Some(rows)), PlansOf(Some(rows))[j].id).Some?
    ensures FindPlanAsWritten(PlansOf(Some(rows)), PlansOf(Some(rows))[j].id).value.serviceId != rows[j].id
  {
    var plans := PlansOf(Some(rows));
    var planId := plans[j].id;
    assert plans[i].id == planId;
    var r := FindPlanAsWritten(plans, planId);
    var k :| FirstWithId(plans, planId, k) && plans[k] == r.value;
    assert k <= i;
    assert rows[k].id != rows[j].id;
  }

  /** A uuid starting "123f" also parses to 123. */
  lemma ParseIntOfOtherDigitUuid()
    ensures ParseInt("123f4567-e89b-12d3-a456-426614174000") == Some(123)
  {
    var rest := "f4567-e89b-12d3-a456-426614174000";
    assert "123" + rest == "123f4567-e89b-12d3-a456-426614174000";
    ParseIntDecimal("123", rest);
    DigitsOf123();
  }

  /** Two service rows whose uuids both start with "123". */
  const CollidingRows: seq<ServiceRow> := [
    ServiceRow("123e4567-e89b-12d3-a456-426614174000", "Lesson", None, 50.0, 3),
    ServiceRow("123f4567-e89b-12d3-a456-426614174000", "Clinic", None, 80.0, 2)
  ]

  /** The concrete case: booking the "Clinic" card finds the "Lesson" plan. */
  lemma DigitIdCollisionExample()
    ensures FindPlanAsWritten(PlansOf(Some(CollidingRows)), PlansOf(Some(CollidingRows))[1].id)
         == Some(PlansOf(Some(CollidingRows))[0])
  {
    ParseIntOfDigitUuid();
    ParseIntOfOtherDigitUuid();
    var plans := PlansOf(Some(CollidingRows));
    assert plans[0].id == Some(123) && plans[1].id == Some(123);
  }

  /** The evidently intended lookup: by the service row's own id. */
  function FindPlan(plans: seq<Plan>, serviceId: string): (r: Option<Plan>)
    ensures r.None? <==> forall i :: 0 <= i < |plans| ==> plans[i].serviceId != serviceId
    ensures r.Some? ==> r.value in plans && r.value.serviceId == serviceId
    ensures r.Some? ==> exists k :: FirstWithServiceId(plans, serviceId, k) && plans[k] == r.value
    decreases |plans|
  {
    if plans == [] then None
    else if plans[0].serviceId == serviceId then
      assert FirstWithServiceId(plans, serviceId, 0);
      Some(plans[0])
    else
      assert forall j :: 1 <= j < |plans| ==> plans[j] == plans[1..][j - 1];
      assert forall k :: FirstWithServiceId(plans[1..], serviceId, k) ==> FirstWithServiceId(plans, serviceId, k + 1);
      FindPlan(plans[1..], serviceId)
  }

  /** Row ids are the table's primary key, hence distinct. */
  predicate DistinctIds(rows: seq<ServiceRow>) {
    forall i, j :: 0 <= i < j < |rows| ==> rows[i].id != rows[j].id
  }

  /** With the corrected lookup every plan on the page is found, and it is that plan. */
  lemma {:induction false} EveryPlanFound(plans: seq<Plan>, i: int)
    requires 0 <= i < |plans|
    requires forall a, b :: 0 <= a < b < |plans| ==> plans[a].serviceId != plans[b].serviceId
    ensures FindPlan(plans, plans[i].serviceId) == Some(plans[i])
    decreases |plans|
  {
    if i > 0 {
      assert plans[0].serviceId != plans[i].serviceId;
      assert plans[i] == plans[1..][i - 1];
      EveryPlanFound(plans[1..], i - 1);
    }
  }

  /** The plans built from distinct rows all carry distinct service ids. */
  lemma PlansKeepDistinctIds(rows: seq<ServiceRow>)
    requires DistinctIds(rows)
    ensures forall a, b :: 0 <= a < b < |PlansOf(Some(rows))| ==>
      PlansOf(Some(rows))[a].serviceId != PlansOf(Some(rows))[b].serviceId
  {
  }

  /** The two ways `handleBookPlan` ends. */
  datatype BookingStart = PlanNotFound | SessionStarted(plan: Plan)

  /** `handleBookPlan` with the corrected lookup: an id that is not among the expert's
      plans stops with "Plan not found"; otherwise the booking goes ahead with that plan. */
  function BookPlan(plans: seq<Plan>, serviceId: string): (r: BookingStart)
    ensures r == PlanNotFound <==> forall i :: 0 <= i < |plans| ==> plans[i].serviceId != serviceId
    ensures r.SessionStarted? ==> r.plan in plans && r.plan.serviceId == serviceId
  {
    match FindPlan(plans, serviceId)
    case None => PlanNotFound
    case Some(p) => SessionStarted(p)
  }

  // ---------------------------------------------------------------- about, name, image

  /** A value interpolated into a template literal: null is written "null". */
  function Interpolate(v: Option<string>): string {
    v.GetOr("null")
  }

  /** `profile_bio || \`I am ${first_name} ${last_name}, an expert in equestrian sports.\``. */
  function About(profileBio: Option<string>, firstName: Option<string>, lastName: Option<string>)
    : (r: string)
    ensures r != []
    ensures profileBio.Some? && profileBio.value != [] ==> r == profileBio.value
    ensures profileBio.None? || profileBio.value == [] ==>
      r == "I am " + Interpolate(firstName) + " " + Interpolate(lastName) + ", an expert in equestrian sports."
  {
    if profileBio.Some? && profileBio.value != [] then profileBio.value
    else "I am " + Interpolate(firstName) + " " + Interpolate(lastName) + ", an expert in equestrian sports."
  }

  /** A missing last name appears in the text as the word "null". */
  lemma AboutShowsNull(first: string)
    ensures About(None, Some(first), None) == "I am " + first + " null, an expert in equestrian sports."
  {
  }

  /** `getExpertName` of the profile page, the shared name rule. */
  function ExpertName(firstName: Option<string>, lastName: Option<string>): (r: string)
    ensures r == Experts.ExpertName(firstName, lastName)
    ensures r != []
    ensures AllWhitespace(Experts.NameTemplate(firstName, lastName)) ==> r == Experts.UnknownExpert
  {
    Experts.ExpertName(firstName, lastName)
  }

  const ProfilePlaceholder: string := "/placeholder.svg"

  /** `getExpertImage` of the profile page. */
  function ExpertImage(url: Option<string>): (r: string)
    ensures url.Some? && Experts.IsUsableUrl(url.value) ==> r == url.value
    ensures !(url.Some? && Experts.IsUsableUrl(url.value)) ==> r == ProfilePlaceholder
  {
    Experts.ResolveImage(url, ProfilePlaceholder)
  }

  // ---------------------------------------------------------------- description lines

  predicate NonEmptySeparators(seps: seq<string>) {
    forall k :: 0 <= k < |seps| ==> seps[k] != []
  }

  /** The length of the first separator `s` starts with, 0 when it starts with none: the
      alternation of the regular expression, tried in order at one position. */
  function MatchLength(s: string, seps: seq<string>): (n: nat)
    requires NonEmptySeparators(seps)
    ensures n <= |s|
    ensures n == 0 <==> forall k :: 0 <= k < |seps| ==> !StartsWith(s, seps[k])
    ensures n > 0 ==> exists k :: 0 <= k < |seps| && StartsWith(s, seps[k]) && |seps[k]| == n
    decreases |seps|
  {
    if seps == [] then 0
    else if StartsWith(s, seps[0]) then |seps[0]|
    else
      assert forall k :: 1 <= k < |seps| ==> seps[k] == seps[1..][k - 1];
      MatchLength(s, seps[1..])
  }

  /** `s.split(/sep1|sep2|.../)`: the pieces between the leftmost separator matches. */
  function Split(s: string, seps: seq<string>): (r: seq<string>)
    requires NonEmptySeparators(seps)
    ensures |r| >= 1
    decreases |s|
  {
    if s == [] then [""]
    else
      var n := MatchLength(s, seps);
      if n > 0 then [""] + Split(s[n..], seps)
      else
        var rest := Split(s[1..], seps);
        [[s[0]] + rest[0]] + rest[1..]
  }

  /** Every separator is a single character. */
  predicate SingleCharSeparators(seps: seq<string>) {
    forall k :: 0 <= k < |seps| ==> |seps[k]| == 1
  }

  /** With one-character separators, a separator starts `s` exactly when its first
      character is one of them. */
  lemma {:induction false} MatchLengthSingle(s: string, seps: seq<string>)
    requires SingleCharSeparators(seps) && s != []
    ensures MatchLength(s, seps) == if [s[0]] in seps then 1 else 0
    decreases |seps|
  {
    if seps != [] {
      assert StartsWith(s, seps[0]) <==> seps[0] == [s[0]] by {
        assert |seps[0]| == 1;
        assert seps[0] == [seps[0][0]];
      }
      if !StartsWith(s, seps[0]) {
        MatchLengthSingle(s, seps[1..]);
        assert [s[0]] in seps <==> [s[0]] in seps[1..] by {
          assert seps == [seps[0]] + seps[1..];
        }
      }
    }
  }

  /** No piece holds a separator character. */
  lemma {:induction false} SplitPiecesClean(s: string, seps: seq<string>)
    requires SingleCharSeparators(seps)
    ensures forall p, j :: 0 <= p < |Split(s, seps)| && 0 <= j < |Split(s, seps)[p]| ==>
      [Split(s, seps)[p][j]] !in seps
    decreases |s|
  {
    if s != [] {
      MatchLengthSingle(s, seps);
      SplitPiecesClean(s[1..], seps);
    }
  }

  /** The characters that survive: those that are not separators. */
  function KeepChar(seps: seq<string>): char -> bool {
    (c: char) => [c] !in seps
  }

  /** The pieces laid end to end. */
  function Concat(pieces: seq<string>): string
    decreases |pieces|
  {
    if pieces == [] then [] else pieces[0] + Concat(pieces[1..])
  }

  /** Nothing but the separators is lost: the pieces joined again are the input with the
      separator characters taken out. */
  lemma {:induction false} SplitLosesOnlySeparators(s: string, seps: seq<string>)
    requires SingleCharSeparators(seps)
    ensures Concat(Split(s, seps)) == Filter(s, KeepChar(seps))
    decreases |s|
  {
    if s == [] {
      assert Concat([""]) == "" + Concat([]);
    } else {
      MatchLengthSingle(s, seps);
      SplitLosesOnlySeparators(s[1..], seps);
      var rest := Split(s[1..], seps);
      assert Filter(s, KeepChar(seps)) ==
        if [s[0]] in seps then Filter(s[1..], KeepChar(seps))
        else [s[0]] + Filter(s[1..], KeepChar(seps));
      if [s[0]] in seps {
        assert Split(s, seps) == [""] + rest;
        assert Concat([""] + rest) == "" + Concat(rest) by {
          assert ([""] + rest)[1..] == rest;
        }
      } else {
        var first := [s[0]] + rest[0];
        assert Split(s, seps) == [first] + rest[1..];
        assert Concat([first] + rest[1..]) == first + Concat(rest[1..]) by {
          assert ([first] + rest[1..])[1..] == rest[1..];
        }
        assert Concat(rest) == rest[0] + Concat(rest[1..]);
      }
    }
  }

  /** The separator characters, those that are cut at. */
  function IsSepChar(seps: seq<string>): char -> bool {
    (c: char) => [c] in seps
  }

  /** There is one piece more than there are separator characters. */
  lemma {:induction false} SplitPieceCount(s: string, seps: seq<string>)
    requires SingleCharSeparators(seps)
    ensures |Split(s, seps)| == 1 + Count(s, IsSepChar(seps))
    decreases |s|
  {
    if s != [] {
      MatchLengthSingle(s, seps);
      SplitPieceCount(s[1..], seps);
    }
  }

  /** The separators of the description regex as the file spells them: newline, the three
      characters "â€¢" (the UTF-8 bytes of the bullet "•" read as Windows-1252), and
      the hyphen. */
  const AsWrittenSeparators: seq<string> := ["\n", "\U{00E2}\U{20AC}\U{00A2}", "-"]

  /** The evidently intended separators: newline, the bullet U+2022 and the hyphen. */
  const BulletSeparators: seq<string> := ["\n", "\U{2022}", "-"]

  const NoDescription: string := "No description provided."

  /** The pieces that `filter(Boolean)` keeps. */
  function NonEmptyPiece(): string -> bool {
    (p: string) => p != []
  }

  /** The bullet items of a plan: with no description the one placeholder item; otherwise
      the non-empty pieces of the split, each trimmed. A piece of spaces alone passes the
      filter and is shown as an empty item. */
  function DescriptionItems(description: Option<string>, seps: seq<string>): (r: seq<string>)
    requires NonEmptySeparators(seps)
    ensures description.None? || description.value == [] ==> r == [NoDescription]
    ensures description.Some? && description.value != [] ==>
      && |r| == Count(Split(description.value, seps), NonEmptyPiece())
      && forall i :: 0 <= i < |r| ==> Trimmed(r[i]) && exists p ::
           && 0 <= p < |Split(description.value, seps)| && Split(description.value, seps)[p] != []
           && r[i] == Trim(Split(description.value, seps)[p])
  {
    if description.None? || description.value == [] then [NoDescription]
    else
      var pieces := Split(description.value, seps);
      var kept := Filter(pieces, NonEmptyPiece());
      var items := TrimAll(kept);
      FilterKeeps(pieces, NonEmptyPiece());
      forall i | 0 <= i < |items| ensures exists p :: 0 <= p < |pieces| && pieces[p] != [] && items[i] == Trim(pieces[p]) {
        var p :| 0 <= p < |pieces| && pieces[p] == kept[i];
      }
      items
  }

  /** Each string trimmed, in order. */
  function TrimAll(xs: seq<string>): (r: seq<string>)
    ensures |r| == |xs|
    ensures forall i :: 0 <= i < |r| ==> r[i] == Trim(xs[i]) && Trimmed(r[i])
  {
    seq(|xs|, i requires 0 <= i < |xs| => Trim(xs[i]))
  }

  /** Every character of a trimmed string comes from the string. */
  lemma TrimKeepsChars(s: string, j: int)
    requires 0 <= j < |Trim(s)|
    ensures Trim(s)[j] in s
  {
    var k :| WhitespaceAround(s, Trim(s), k);
    assert Trim(s)[j] == s[k..k + |Trim(s)|][j] == s[k + j];
  }

  /** With one-character separators no item holds a separator character. */
  lemma ItemsHoldNoSeparator(description: string, seps: seq<string>, i: int, j: int)
    requires NonEmptySeparators(seps) && SingleCharSeparators(seps) && description != []
    requires 0 <= i < |DescriptionItems(Some(description), seps)|
    requires 0 <= j < |DescriptionItems(Some(description), seps)[i]|
    ensures [DescriptionItems(Some(description), seps)[i][j]] !in seps
  {
    var pieces := Split(description, seps);
    var items := DescriptionItems(Some(description), seps);
    var p :| 0 <= p < |pieces| && pieces[p] != [] && items[i] == Trim(pieces[p]);
    TrimKeepsChars(pieces[p], j);
    var q :| 0 <= q < |pieces[p]| && pieces[p][q] == items[i][j];
    SplitPiecesClean(description, seps);
  }

  /** The intended separators are the one-character strings of newline, bullet and hyphen. */
  lemma BulletSeparatorChars(c: char)
    ensures NonEmptySeparators(BulletSeparators) && SingleCharSeparators(BulletSeparators)
    ensures [c] in BulletSeparators <==> c in {'\n', '\U{2022}', '-'}
  {
    assert BulletSeparators == [['\n'], ['\U{2022}'], ['-']];
  }

  /** No separator can start a string whose first character begins none of them. */
  lemma NoSeparatorAhead(t: string, seps: seq<string>)
    requires NonEmptySeparators(seps) && t != []
    requires forall k :: 0 <= k < |seps| ==> seps[k][0] != t[0]
    ensures MatchLength(t, seps) == 0
  {
    forall k | 0 <= k < |seps| ensures !StartsWith(t, seps[k]) {
      if |seps[k]| <= |t| {
        assert t[..|seps[k]|][0] == t[0];
      }
    }
  }

  /** A string in which no separator matches anywhere is one piece. */
  lemma {:induction false} SplitWhole(s: string, seps: seq<string>)
    requires NonEmptySeparators(seps)
    requires forall i :: 0 <= i < |s| ==> MatchLength(s[i..], seps) == 0
    ensures Split(s, seps) == [s]
    decreases |s|
  {
    if s != [] {
      assert s[0..] == s;
      forall i | 0 <= i < |s[1..]| ensures MatchLength(s[1..][i..], seps) == 0 {
        assert s[1..][i..] == s[i + 1..];
      }
      SplitWhole(s[1..], seps);
      assert [s[0]] + s[1..] == s;
    }
  }

  /** With one-character separators, a leading character either closes an empty piece or
      joins the first piece of the rest. */
  lemma SplitHead(c: char, rest: string, seps: seq<string>)
    requires NonEmptySeparators(seps) && SingleCharSeparators(seps)
    ensures Split([c] + rest, seps) ==
      if [c] in seps then [""] + Split(rest, seps)
      else [[c] + Split(rest, seps)[0]] + Split(rest, seps)[1..]
  {
    var s := [c] + rest;
    MatchLengthSingle(s, seps);
    assert s[0] == c && s[1..] == rest;
  }

  /** The pieces joined again, with `cuts[i]` put back between piece `i` and piece `i + 1`. */
  function Join(pieces: seq<string>, cuts: string): string
    requires |pieces| == |cuts| + 1
    decreases |cuts|
  {
    if cuts == [] then pieces[0] else pieces[0] + [cuts[0]] + Join(pieces[1..], cuts[1..])
  }

  /** Joining pieces whose first one starts with `c` starts with `c`. */
  lemma JoinConsHead(c: char, ps: seq<string>, cs: string)
    requires |ps| == |cs| + 1
    ensures Join([[c] + ps[0]] + ps[1..], cs) == [c] + Join(ps, cs)
  {
    var qs := [[c] + ps[0]] + ps[1..];
    assert qs[0] == [c] + ps[0] && qs[1..] == ps[1..];
  }

  /** With one-character separators the split loses nothing: there is one cut per
      separator character of `s`, and putting those characters back, in their order,
      between the pieces gives `s` again. */
  lemma {:induction false} JoinSplit(s: string, seps: seq<string>)
    requires SingleCharSeparators(seps)
    ensures |Split(s, seps)| == |Filter(s, IsSepChar(seps))| + 1
    ensures Join(Split(s, seps), Filter(s, IsSepChar(seps))) == s
    decreases |s|
  {
    if s != [] {
      var c := s[0];
      var ps := Split(s[1..], seps);
      var cs := Filter(s[1..], IsSepChar(seps));
      JoinSplit(s[1..], seps);
      SplitHead(c, s[1..], seps);
      assert [c] + s[1..] == s;
      if [c] in seps {
        assert Filter(s, IsSepChar(seps)) == [c] + cs;
        var qs := [""] + ps;
        assert qs[0] == "" && qs[1..] == ps;
        assert ([c] + cs)[0] == c && ([c] + cs)[1..] == cs;
      } else {
        assert Filter(s, IsSepChar(seps)) == cs;
        JoinConsHead(c, ps, cs);
      }
    }
  }

  /** A piece free of separator characters splits into itself. */
  lemma {:induction false} SplitClean(p: string, seps: seq<string>)
    requires SingleCharSeparators(seps)
    requires forall j :: 0 <= j < |p| ==> [p[j]] !in seps
    ensures Split(p, seps) == [p]
    decreases |p|
  {
    if p != [] {
      SplitClean(p[1..], seps);
      SplitHead(p[0], p[1..], seps);
      assert [p[0]] + p[1..] == p;
    }
  }

  /** A separator-free piece followed by a separator character is the first piece. */
  lemma {:induction false} SplitCleanThenSep(p: string, c: char, rest: string, seps: seq<string>)
    requires SingleCharSeparators(seps) && [c] in seps
    requires forall j :: 0 <= j < |p| ==> [p[j]] !in seps
    ensures Split(p + [c] + rest, seps) == [p] + Split(rest, seps)
    decreases |p|
  {
    if p == [] {
      SplitHead(c, rest, seps);
      assert p + [c] + rest == [c] + rest;
    } else {
      var tail := p[1..] + [c] + rest;
      SplitCleanThenSep(p[1..], c, rest, seps);
      SplitHead(p[0], tail, seps);
      assert [p[0]] + tail == p + [c] + rest;
      assert [p[0]] + p[1..] == p;
    }
  }

  /** The other way round: separator-free pieces joined with separator characters split
      back into exactly those pieces. With `JoinSplit` this makes the split the unique
      cutting of the text at its separator characters. */
  lemma {:induction false} SplitJoin(ps: seq<string>, cs: string, seps: seq<string>)
    requires SingleCharSeparators(seps) && |ps| == |cs| + 1
    requires forall i :: 0 <= i < |cs| ==> [cs[i]] in seps
    requires forall p, j :: 0 <= p < |ps| && 0 <= j < |ps[p]| ==> [ps[p][j]] !in seps
    ensures Split(Join(ps, cs), seps) == ps
    decreases |cs|
  {
    if cs == [] {
      SplitClean(ps[0], seps);
    } else {
      assert forall p, j :: 0 <= p < |ps[1..]| && 0 <= j < |ps[1..][p]| ==> ps[1..][p][j] == ps[p + 1][j];
      SplitJoin(ps[1..], cs[1..], seps);
      SplitCleanThenSep(ps[0], cs[0], Join(ps[1..], cs[1..]), seps);
      assert [ps[0]] + ps[1..] == ps;
    }
  }

  /** With one-character separators, a description made of separator-free pieces and
      separator characters shows as items exactly its non-empty pieces, in order, each
      trimmed. */
  lemma ItemsOfDecomposition(ps: seq<string>, cs: string, seps: seq<string>)
    requires NonEmptySeparators(seps) && SingleCharSeparators(seps) && |ps| == |cs| + 1
    requires forall i :: 0 <= i < |cs| ==> [cs[i]] in seps
    requires forall p, j :: 0 <= p < |ps| && 0 <= j < |ps[p]| ==> [ps[p][j]] !in seps
    requires Join(ps, cs) != []
    ensures DescriptionItems(Some(Join(ps, cs)), seps) == TrimAll(Filter(ps, NonEmptyPiece()))
  {
    SplitJoin(ps, cs, seps);
  }

  /** Pieces that are non-empty and already trimmed are the items themselves. */
  lemma ItemsOfCleanPieces(description: string, seps: seq<string>)
    requires NonEmptySeparators(seps) && description != []
    requires forall i :: 0 <= i < |Split(description, seps)| ==>
      Split(description, seps)[i] != [] && Trimmed(Split(description, seps)[i])
    ensures DescriptionItems(Some(description), seps) == Split(description, seps)
  {
    var pieces := Split(description, seps);
    FilterAll(pieces, NonEmptyPiece());
    assert DescriptionItems(Some(description), seps) == TrimAll(pieces);
    var items := DescriptionItems(Some(description), seps);
    forall i | 0 <= i < |pieces| ensures items[i] == pieces[i] {
      TrimClean(pieces[i]);
    }
  }

  /** As written, a bullet "•" does not split: "a•b" stays one item. */
  lemma BulletNotSplitAsWritten()
    ensures DescriptionItems(Some("a\U{2022}b"), AsWrittenSeparators) == ["a\U{2022}b"]
  {
    var s := "a\U{2022}b";
    var seps := AsWrittenSeparators;
    forall i | 0 <= i < |s| ensures MatchLength(s[i..], seps) == 0 {
      assert s[i..][0] == s[i];
      NoSeparatorAhead(s[i..], seps);
    }
    SplitWhole(s, seps);
    ItemsOfCleanPieces(s, seps);
  }

  /** With one-character separators, a plain character alone is one piece. */
  lemma SplitPlainChar(y: char, seps: seq<string>)
    requires NonEmptySeparators(seps) && SingleCharSeparators(seps) && [y] !in seps
    ensures Split([y], seps) == [[y]]
  {
    SplitHead(y, [], seps);
    assert [y] + [] == [y];
    assert Split([], seps) == [""];
  }

  /** With one-character separators, `•y` closes an empty piece before `y`. */
  lemma SplitBulletTail(y: char, seps: seq<string>)
    requires NonEmptySeparators(seps) && SingleCharSeparators(seps)
    requires ['\U{2022}'] in seps && [y] !in seps
    ensures Split(['\U{2022}', y], seps) == ["", [y]]
  {
    SplitPlainChar(y, seps);
    SplitHead('\U{2022}', [y], seps);
    assert ['\U{2022}'] + [y] == ['\U{2022}', y];
  }

  /** With one-character separators, `x•y` for a bullet separator and two plain
      characters gives the two items `x` and `y`. */
  lemma SplitsAtBullet(x: char, y: char, seps: seq<string>)
    requires NonEmptySeparators(seps) && SingleCharSeparators(seps)
    requires ['\U{2022}'] in seps && [x] !in seps && [y] !in seps
    requires !IsWhitespace(x) && !IsWhitespace(y)
    ensures DescriptionItems(Some([x, '\U{2022}', y]), seps) == [[x], [y]]
  {
    var s := [x, '\U{2022}', y];
    assert Split(s, seps) == [[x], [y]] by {
      var tail := ['\U{2022}', y];
      SplitBulletTail(y, seps);
      SplitHead(x, tail, seps);
      assert [x] + tail == s;
      assert [x] + "" == [x] && ["", [y]][1..] == [[y]];
    }
    ItemsOfCleanPieces(s, seps);
  }

  /** With the intended separators "a•b" gives the two items "a" and "b". */
  lemma BulletSplits()
    ensures DescriptionItems(Some("a\U{2022}b"), BulletSeparators) == ["a", "b"]
  {
    BulletSeparatorChars('a');
    BulletSeparatorChars('b');
    BulletSeparatorChars('\U{2022}');
    SplitsAtBullet('a', 'b', BulletSeparators);
  }
}
