/**
 * collectAppcastSparkleVersionErrors of scripts/release-check.ts, from the point where the items of
 * the feed have been taken apart.
 */
module Appcast {
  import opened Prelude
  import opened SparkleFloors

  const LANE_FLOOR_ADOPTION_DATE_KEY := 20260227

  /** The tags of one item, trimmed; None where a tag is missing. */
  datatype Item = Item(title: Option<string>, shortVersion: Option<string>, sparkleVersion: Option<string>)

  datatype CalVerItem = CalVerItem(title: string, build: nat, floors: Floors)

  datatype FeedError =
    | NoItems
    | MissingVersion(title: string)
    | NonNumericVersion(title: string, version: string)
    | BelowFloor(title: string, build: nat, lane: bool, floor: nat)

  function TitleOf(item: Item): string {
    if item.title.Some? then item.title.value else "unknown"
  }

  /** What the first pass makes of an item: an error, nothing, or an item for the second pass. */
  datatype Finding = Malformed(error: FeedError) | Undated | Dated(item: CalVerItem)

  function Classify(item: Item): Finding {
    if item.sparkleVersion.None? || item.sparkleVersion.value == "" then Malformed(MissingVersion(TitleOf(item)))
    else if !Digits(item.sparkleVersion.value) then Malformed(NonNumericVersion(TitleOf(item), item.sparkleVersion.value))
    else if item.shortVersion.None? || item.shortVersion.value == "" then Undated
    else
      var floors := FloorsFromShortVersion(item.shortVersion.value);
      if floors.None? then Undated
      else Dated(CalVerItem(TitleOf(item), Value(item.sparkleVersion.value), floors.value))
  }

  function Map<A, B>(f: A -> B, xs: seq<A>): seq<B> {
    seq(|xs|, i requires 0 <= i < |xs| => f(xs[i]))
  }

  predicate LaneSized(item: CalVerItem) {
    item.build >= LANE_BUILD_MIN
  }

  // ---------------------------------------------------------------- what the check is for

  /** Lane builds are due from the adoption date on, and from the date of the first lane build in the feed. */
  ghost predicate ExpectsLane(all: seq<CalVerItem>, item: CalVerItem) {
    || LaneSized(item)
    || item.floors.dateKey >= LANE_FLOOR_ADOPTION_DATE_KEY
    || exists other | other in all :: LaneSized(other) && other.floors.dateKey <= item.floors.dateKey
  }

  ghost function FloorFor(all: seq<CalVerItem>, item: CalVerItem): nat {
    if ExpectsLane(all, item) then item.floors.laneFloor else item.floors.legacyFloor
  }

  function FormErrors(findings: seq<Finding>): seq<FeedError> {
    if findings == [] then []
    else
      var last := findings[|findings| - 1];
      FormErrors(findings[..|findings| - 1]) + (if last.Malformed? then [last.error] else [])
  }

  function DatedItems(findings: seq<Finding>): seq<CalVerItem> {
    if findings == [] then []
    else
      var last := findings[|findings| - 1];
      DatedItems(findings[..|findings| - 1]) + (if last.Dated? then [last.item] else [])
  }

  ghost function FloorErrors(all: seq<CalVerItem>, items: seq<CalVerItem>): seq<FeedError> {
    if items == [] then []
    else
      var last := items[|items| - 1];
      FloorErrors(all, items[..|items| - 1])
      + (if last.build < FloorFor(all, last)
         then [BelowFloor(last.title, last.build, ExpectsLane(all, last), FloorFor(all, last))] else [])
  }

  /** The errors in the order in which they are reported. */
  ghost function Report(findings: seq<Finding>): seq<FeedError> {
    (if findings == [] then [NoItems] else []) + FormErrors(findings) + FloorErrors(DatedItems(findings), DatedItems(findings))
  }

  ghost function FeedErrors(items: seq<Item>): seq<FeedError> {
    Report(Map(Classify, items))
  }

  // ---------------------------------------------------------------- the two passes

  /** The smallest date of a lane-sized item: the first of the sorted dates. */
  method FirstLaneDate(items: seq<CalVerItem>) returns (first: Option<nat>)
    ensures first.None? <==> forall item | item in items :: !LaneSized(item)
    ensures first.Some? ==> exists item | item in items :: LaneSized(item) && item.floors.dateKey == first.value
    ensures first.Some? ==> forall item | item in items :: LaneSized(item) ==> first.value <= item.floors.dateKey
  {
    first := None;
    for k := 0 to |items|
      invariant first.None? <==> forall item | item in items[..k] :: !LaneSized(item)
      invariant first.Some? ==> exists item | item in items[..k] :: LaneSized(item) && item.floors.dateKey == first.value
      invariant first.Some? ==> forall item | item in items[..k] :: LaneSized(item) ==> first.value <= item.floors.dateKey
    {
      assert items[..k + 1] == items[..k] + [items[k]];
      if LaneSized(items[k]) && (first.None? || items[k].floors.dateKey < first.value) {
        first := Some(items[k].floors.dateKey);
        assert items[k] in items[..k + 1];
      } else if first.Some? {
        var item :| item in items[..k] && LaneSized(item) && item.floors.dateKey == first.value;
        assert item in items[..k + 1];
      }
    }
    assert items[..|items|] == items;
  }

  lemma NextFinding(findings: seq<Finding>, k: nat)
    requires k < |findings|
    ensures FormErrors(findings[..k + 1])
         == FormErrors(findings[..k]) + (if findings[k].Malformed? then [findings[k].error] else [])
    ensures DatedItems(findings[..k + 1])
         == DatedItems(findings[..k]) + (if findings[k].Dated? then [findings[k].item] else [])
  {
    assert findings[..k + 1][..k] == findings[..k];
  }

  /** The first pass: malformed items are reported, dated ones kept for the second. */
  method CheckForm(items: seq<Item>) returns (errors: seq<FeedError>, calverItems: seq<CalVerItem>)
    ensures errors == FormErrors(Map(Classify, items))
    ensures calverItems == DatedItems(Map(Classify, items))
  {
    errors, calverItems := [], [];
    ghost var findings := Map(Classify, items);
    for k := 0 to |items|
      invariant errors == FormErrors(findings[..k])
      invariant calverItems == DatedItems(findings[..k])
    {
      var item := items[k];
      NextFinding(findings, k);
      assert findings[k] == Classify(item);
      var title := TitleOf(item);
      if item.sparkleVersion.None? || item.sparkleVersion.value == "" {
        errors := errors + [MissingVersion(title)];
        continue;
      }
      if !Digits(item.sparkleVersion.value) {
        errors := errors + [NonNumericVersion(title, item.sparkleVersion.value)];
        continue;
      }
      if item.shortVersion.None? || item.shortVersion.value == "" {
        continue;
      }
      var floors := FloorsFromShortVersion(item.shortVersion.value);
      if floors.None? {
        continue;
      }
      calverItems := calverItems + [CalVerItem(title, Value(item.sparkleVersion.value), floors.value)];
    }
    assert findings[..|items|] == findings;
  }

  lemma NextFloorError(all: seq<CalVerItem>, items: seq<CalVerItem>, k: nat)
    requires k < |items|
    ensures var item := items[k];
            FloorErrors(all, items[..k + 1])
            == FloorErrors(all, items[..k])
               + (if item.build < FloorFor(all, item)
                  then [BelowFloor(item.title, item.build, ExpectsLane(all, item), FloorFor(all, item))] else [])
  {
    assert items[..k + 1][..k] == items[..k];
  }

  function EffectiveDate(observed: Option<nat>): nat {
    if observed.Some? && observed.value < LANE_FLOOR_ADOPTION_DATE_KEY then observed.value else LANE_FLOOR_ADOPTION_DATE_KEY
  }

  /** The date from which lane builds are due decides what is expected of an item. */
  lemma EffectiveDateDecides(all: seq<CalVerItem>, observed: Option<nat>, item: CalVerItem)
    requires observed.None? <==> forall other | other in all :: !LaneSized(other)
    requires observed.Some? ==> exists other | other in all :: LaneSized(other) && other.floors.dateKey == observed.value
    requires observed.Some? ==> forall other | other in all :: LaneSized(other) ==> observed.value <= other.floors.dateKey
    ensures ExpectsLane(all, item)
      <==> LaneSized(item) || item.floors.dateKey >= EffectiveDate(observed)
  {
  }

  /** The second pass: every dated item against the floor that is due for it. */
  method CheckFloors(calverItems: seq<CalVerItem>) returns (errors: seq<FeedError>)
    ensures errors == FloorErrors(calverItems, calverItems)
  {
    errors := [];
    var observed := FirstLaneDate(calverItems);
    var effective := EffectiveDate(observed);
    for k := 0 to |calverItems|
      invariant errors == FloorErrors(calverItems, calverItems[..k])
    {
      var item := calverItems[k];
      NextFloorError(calverItems, calverItems, k);
      EffectiveDateDecides(calverItems, observed, item);
      var expectLaneFloor := item.build >= LANE_BUILD_MIN || item.floors.dateKey >= effective;
      var floor := if expectLaneFloor then item.floors.laneFloor else item.floors.legacyFloor;
      if item.build < floor {
        errors := errors + [BelowFloor(item.title, item.build, expectLaneFloor, floor)];
      }
    }
    assert calverItems[..|calverItems|] == calverItems;
  }

  method CollectAppcastSparkleVersionErrors(items: seq<Item>) returns (errors: seq<FeedError>)
    ensures errors == FeedErrors(items)
  {
    errors := [];
    if |items| == 0 {
      errors := errors + [NoItems];
    }
    var formErrors, calverItems := CheckForm(items);
    var floorErrors := CheckFloors(calverItems);
    errors := errors + formErrors + floorErrors;
  }

  // ---------------------------------------------------------------- feeds without errors

  ghost predicate LaneDue(findings: seq<Finding>, item: CalVerItem) {
    || item.floors.dateKey >= LANE_FLOOR_ADOPTION_DATE_KEY
    || exists other | other in findings :: other.Dated? && LaneSized(other.item) && other.item.floors.dateKey <= item.floors.dateKey
  }

  /** Every item is well formed, and every dated one keeps the floor that is due for its date. */
  ghost predicate Clean(findings: seq<Finding>) {
    && findings != []
    && (forall finding | finding in findings :: !finding.Malformed?)
    && (forall finding | finding in findings && finding.Dated? ::
          finding.item.build >= if LaneDue(findings, finding.item) then finding.item.floors.laneFloor else finding.item.floors.legacyFloor)
  }

  lemma {:induction false} DatedItemsMembers(findings: seq<Finding>)
    ensures forall c :: c in DatedItems(findings) <==> Dated(c) in findings
  {
    if findings == [] {
    } else {
      DatedItemsMembers(findings[..|findings| - 1]);
      assert findings == findings[..|findings| - 1] + [findings[|findings| - 1]];
    }
  }

  lemma {:induction false} FormErrorsEmpty(findings: seq<Finding>)
    ensures FormErrors(findings) == [] <==> forall finding | finding in findings :: !finding.Malformed?
  {
    if findings == [] {
    } else {
      FormErrorsEmpty(findings[..|findings| - 1]);
      assert findings == findings[..|findings| - 1] + [findings[|findings| - 1]];
    }
  }

  lemma {:induction false} FloorErrorsEmpty(all: seq<CalVerItem>, items: seq<CalVerItem>)
    ensures FloorErrors(all, items) == [] <==> forall item | item in items :: item.build >= FloorFor(all, item)
  {
    if items == [] {
    } else {
      FloorErrorsEmpty(all, items[..|items| - 1]);
      assert items == items[..|items| - 1] + [items[|items| - 1]];
    }
  }

  lemma LaneDueIsExpected(findings: seq<Finding>, c: CalVerItem)
    requires Dated(c) in findings
    ensures ExpectsLane(DatedItems(findings), c) <==> LaneDue(findings, c)
  {
    DatedItemsMembers(findings);
    if ExpectsLane(DatedItems(findings), c) && c.floors.dateKey < LANE_FLOOR_ADOPTION_DATE_KEY {
      if LaneSized(c) {
        assert LaneDue(findings, c);
      } else {
        var other :| other in DatedItems(findings) && LaneSized(other) && other.floors.dateKey <= c.floors.dateKey;
        assert Dated(other) in findings;
      }
    }
  }

  /** The check reports nothing exactly for clean feeds. */
  lemma NoErrorsMeansClean(findings: seq<Finding>)
    ensures Report(findings) == [] <==> Clean(findings)
  {
    FormErrorsEmpty(findings);
    FloorErrorsEmpty(DatedItems(findings), DatedItems(findings));
    DatedItemsMembers(findings);
    forall c | Dated(c) in findings ensures ExpectsLane(DatedItems(findings), c) <==> LaneDue(findings, c) {
      LaneDueIsExpected(findings, c);
    }
    if Report(findings) == [] {
      forall finding | finding in findings && finding.Dated? ensures finding.item in DatedItems(findings) {
      }
    }
  }

  lemma MapMembers<A, B>(f: A -> B, xs: seq<A>)
    ensures |Map(f, xs)| == |xs|
    ensures forall x | x in xs :: f(x) in Map(f, xs)
    ensures forall y | y in Map(f, xs) :: exists x | x in xs :: f(x) == y
  {
    forall x | x in xs ensures f(x) in Map(f, xs) {
      var i :| 0 <= i < |xs| && xs[i] == x;
      assert Map(f, xs)[i] == f(x);
    }
  }

  lemma SameImage<A, B>(f: A -> B, xs: seq<A>, ys: seq<A>)
    requires forall x | x in xs :: x in ys
    ensures forall y | y in Map(f, xs) :: y in Map(f, ys)
  {
    MapMembers(f, xs);
    MapMembers(f, ys);
  }

  lemma SameFindings(findings: seq<Finding>, others: seq<Finding>)
    requires forall finding :: finding in findings <==> finding in others
    ensures Clean(findings) <==> Clean(others)
  {
    if findings != [] { assert findings[0] in others; }
    if others != [] { assert others[0] in findings; }
    forall c ensures LaneDue(findings, c) <==> LaneDue(others, c) {
    }
  }

  /** Whether a feed passes does not depend on the order, or the repetition, of its items. */
  lemma OrderDoesNotMatter(items: seq<Item>, others: seq<Item>)
    requires forall item :: item in items <==> item in others
    ensures FeedErrors(items) == [] <==> FeedErrors(others) == []
  {
    SameImage(Classify, items, others);
    SameImage(Classify, others, items);
    SameFindings(Map(Classify, items), Map(Classify, others));
    NoErrorsMeansClean(Map(Classify, items));
    NoErrorsMeansClean(Map(Classify, others));
  }

  // ---------------------------------------------------------------- the same, told from the items

  /** The build number is there, and is a number. */
  ghost predicate HasBuild(item: Item) {
    item.sparkleVersion.Some? && item.sparkleVersion.value != "" && Digits(item.sparkleVersion.value)
  }

  ghost predicate IsReleaseOf(item: Item, v: Version) {
    item.shortVersion.Some? && IsVersion(Trim(item.shortVersion.value), v)
  }

  /** The item has this build number and is a release of this calendar version. */
  ghost predicate IsBuildOf(item: Item, v: Version, build: nat) {
    HasBuild(item) && build == Value(item.sparkleVersion.value) && IsReleaseOf(item, v)
  }

  /** From 27 February 2026 on, and from the date of the first lane-sized build in the feed on. */
  ghost predicate LaneIsDue(items: seq<Item>, v: Version) {
    || DateKey(v) >= 2026_02_27
    || exists other, w, build | other in items && IsBuildOf(other, w, build) :: build >= 1_000_000_000 && DateKey(w) <= DateKey(v)
  }

  lemma NonEmptyVersion(version: string)
    requires FloorsFromShortVersion(version).Some?
    ensures version != ""
  {
    assert Trim("") == "";
  }

  lemma ReleaseHasFloors(version: string, v: Version)
    requires IsVersion(Trim(version), v)
    ensures FloorsFromShortVersion(version) == Some(FloorsOf(v))
  {
    FloorsAreArithmetic(version);
    if FloorsFromShortVersion(version).Some? {
      var w :| IsVersion(Trim(version), w) && FloorsFromShortVersion(version).value == FloorsOf(w);
      assert w == v;
    }
  }

  /** What the first pass makes of an item, told from its tags. */
  lemma ClassifyMeans(item: Item)
    ensures Classify(item).Malformed? <==> !HasBuild(item)
    ensures forall v, build | IsBuildOf(item, v, build) :: Classify(item) == Dated(CalVerItem(TitleOf(item), build, FloorsOf(v)))
    ensures Classify(item).Dated? ==> exists v :: IsBuildOf(item, v, Classify(item).item.build)
  {
    forall v, build | IsBuildOf(item, v, build) ensures Classify(item) == Dated(CalVerItem(TitleOf(item), build, FloorsOf(v))) {
      ReleaseHasFloors(item.shortVersion.value, v);
      NonEmptyVersion(item.shortVersion.value);
    }
    if Classify(item).Dated? {
      FloorsAreArithmetic(item.shortVersion.value);
      var v :| IsVersion(Trim(item.shortVersion.value), v) && Classify(item).item.floors == FloorsOf(v);
      assert IsBuildOf(item, v, Classify(item).item.build);
    }
  }

  /** The dated findings of a feed are its builds. */
  lemma DatedMeans(items: seq<Item>, c: CalVerItem)
    ensures Dated(c) in Map(Classify, items)
      <==> exists item, v, build | item in items && IsBuildOf(item, v, build) :: c == CalVerItem(TitleOf(item), build, FloorsOf(v))
  {
    MapMembers(Classify, items);
    if Dated(c) in Map(Classify, items) {
      var item :| item in items && Classify(item) == Dated(c);
      ClassifyMeans(item);
      var v :| IsBuildOf(item, v, c.build);
      assert c == CalVerItem(TitleOf(item), c.build, FloorsOf(v));
    }
    forall item, v, build | item in items && IsBuildOf(item, v, build) && c == CalVerItem(TitleOf(item), build, FloorsOf(v))
      ensures Dated(c) in Map(Classify, items)
    {
      ClassifyMeans(item);
    }
  }

  lemma LaneDueMeans(items: seq<Item>, c: CalVerItem, v: Version)
    requires c.floors == FloorsOf(v)
    ensures LaneDue(Map(Classify, items), c) <==> LaneIsDue(items, v)
  {
    var findings := Map(Classify, items);
    if other :| other in findings && other.Dated? && LaneSized(other.item) && other.item.floors.dateKey <= c.floors.dateKey {
      DatedMeans(items, other.item);
    }
    forall other, w, build | other in items && IsBuildOf(other, w, build) && build >= 1_000_000_000 && DateKey(w) <= DateKey(v)
      ensures LaneDue(findings, c)
    {
      var d := CalVerItem(TitleOf(other), build, FloorsOf(w));
      DatedMeans(items, d);
      assert Dated(d).item == d;
    }
  }

  /** An item without a title is called unknown. */
  ghost predicate IsTitled(item: Item, title: string) {
    item.title == Some(title) || (item.title == None && title == "unknown")
  }

  /** The error says of one item what is wrong with it, or that there is none. */
  ghost predicate IsDue(items: seq<Item>, e: FeedError) {
    match e
    case NoItems => items == []
    case MissingVersion(title) =>
      exists item | item in items :: IsTitled(item, title) && (item.sparkleVersion == None || item.sparkleVersion == Some(""))
    case NonNumericVersion(title, text) =>
      exists item | item in items :: IsTitled(item, title) && item.sparkleVersion == Some(text) && text != "" && !Digits(text)
    case BelowFloor(title, build, lane, floor) =>
      exists item, v | item in items && IsBuildOf(item, v, build) ::
        && IsTitled(item, title) && build < floor
        && (lane <==> build >= 1_000_000_000 || LaneIsDue(items, v))
        && floor == if lane then 100 * DateKey(v) + v.lane else 10 * DateKey(v)
  }

  lemma {:induction false} FormErrorsMembers(findings: seq<Finding>, e: FeedError)
    ensures e in FormErrors(findings) <==> Malformed(e) in findings
  {
    if findings == [] {
    } else {
      FormErrorsMembers(findings[..|findings| - 1], e);
      assert findings == findings[..|findings| - 1] + [findings[|findings| - 1]];
    }
  }

  /** What the second pass says of an item, if it is below its floor. */
  ghost function FloorError(all: seq<CalVerItem>, c: CalVerItem): FeedError {
    BelowFloor(c.title, c.build, ExpectsLane(all, c), FloorFor(all, c))
  }

  lemma {:induction false} FloorErrorsMembers(all: seq<CalVerItem>, items: seq<CalVerItem>, e: FeedError)
    ensures e in FloorErrors(all, items) <==> exists c | c in items :: c.build < FloorFor(all, c) && e == FloorError(all, c)
  {
    if items == [] {
    } else {
      var before, last := items[..|items| - 1], items[|items| - 1];
      FloorErrorsMembers(all, before, e);
      assert items == before + [last];
      assert forall c :: c in items <==> c in before || c == last;
    }
  }

  lemma MalformedMeans(items: seq<Item>, e: FeedError)
    ensures Malformed(e) in Map(Classify, items) <==> (e.MissingVersion? || e.NonNumericVersion?) && IsDue(items, e)
  {
    MapMembers(Classify, items);
    if Malformed(e) in Map(Classify, items) {
      var item :| item in items && Classify(item) == Malformed(e);
      assert item.sparkleVersion.Some? || item.sparkleVersion == None;
    }
    forall item | item in items ensures Classify(item) in Map(Classify, items) {
    }
  }

  /** The floor error of a build, told from the feed. */
  lemma FloorErrorMeans(items: seq<Item>, item: Item, v: Version, build: nat)
    requires item in items && IsBuildOf(item, v, build)
    ensures var c := CalVerItem(TitleOf(item), build, FloorsOf(v));
            var all := DatedItems(Map(Classify, items));
            && c in all
            && (ExpectsLane(all, c) <==> build >= 1_000_000_000 || LaneIsDue(items, v))
            && FloorFor(all, c) == if ExpectsLane(all, c) then 100 * DateKey(v) + v.lane else 10 * DateKey(v)
  {
    var c := CalVerItem(TitleOf(item), build, FloorsOf(v));
    DatedMeans(items, c);
    DatedItemsMembers(Map(Classify, items));
    LaneDueIsExpected(Map(Classify, items), c);
    LaneDueMeans(items, c, v);
  }

  lemma FloorErrorIsDue(items: seq<Item>, item: Item, v: Version, build: nat)
    requires item in items && IsBuildOf(item, v, build)
    ensures var c := CalVerItem(TitleOf(item), build, FloorsOf(v));
            var all := DatedItems(Map(Classify, items));
            c.build < FloorFor(all, c) ==> IsDue(items, FloorError(all, c))
  {
    FloorErrorMeans(items, item, v, build);
    assert IsTitled(item, TitleOf(item));
  }

  lemma BelowFloorIsDue(items: seq<Item>, e: FeedError)
    ensures var all := DatedItems(Map(Classify, items));
            e in FloorErrors(all, all) ==> e.BelowFloor? && IsDue(items, e)
  {
    var all := DatedItems(Map(Classify, items));
    FloorErrorsMembers(all, all, e);
    DatedItemsMembers(Map(Classify, items));
    if c :| c in all && c.build < FloorFor(all, c) && e == FloorError(all, c) {
      DatedMeans(items, c);
      var item, v, build :| item in items && IsBuildOf(item, v, build) && c == CalVerItem(TitleOf(item), build, FloorsOf(v));
      FloorErrorIsDue(items, item, v, build);
    }
  }

  lemma BelowFloorIsFound(items: seq<Item>, e: FeedError)
    requires e.BelowFloor? && IsDue(items, e)
    ensures var all := DatedItems(Map(Classify, items)); e in FloorErrors(all, all)
  {
    var all := DatedItems(Map(Classify, items));
    var item, v :| item in items && IsBuildOf(item, v, e.build)
      && IsTitled(item, e.title) && e.build < e.floor
      && (e.lane <==> e.build >= 1_000_000_000 || LaneIsDue(items, v))
      && e.floor == if e.lane then 100 * DateKey(v) + v.lane else 10 * DateKey(v);
    FloorErrorMeans(items, item, v, e.build);
    FloorErrorsMembers(all, all, e);
    assert e == FloorError(all, CalVerItem(TitleOf(item), e.build, FloorsOf(v)));
  }

  /** Exactly the errors that the items of a feed give rise to are reported. */
  lemma ErrorsAreExact(items: seq<Item>, e: FeedError)
    ensures e in FeedErrors(items) <==> IsDue(items, e)
  {
    FormErrorsMembers(Map(Classify, items), e);
    MalformedMeans(items, e);
    BelowFloorIsDue(items, e);
    if e.BelowFloor? && IsDue(items, e) {
      BelowFloorIsFound(items, e);
    }
  }

  // ---------------------------------------------------------------- the migration to lane builds

  lemma CleanFeedsMigrate(findings: seq<Finding>, first: CalVerItem, later: CalVerItem)
    requires Report(findings) == [] && Dated(first) in findings && Dated(later) in findings
    requires LaneSized(first) && first.floors.dateKey <= later.floors.dateKey
    ensures later.build >= later.floors.laneFloor
  {
    NoErrorsMeansClean(findings);
    assert LaneDue(findings, later);
    assert Dated(later).item == later;
  }

  lemma DatedFloors(item: Item)
    requires Classify(item).Dated?
    ensures exists v: Version :: v.Valid() && Classify(item).item.floors == FloorsOf(v)
  {
    FloorsAreArithmetic(item.shortVersion.value);
  }

  /**
   * In a feed without errors, once a dated item has a lane-sized build, so has every dated item of the
   * same or a later date, from the year 1000 on.
   */
  lemma MigrationNeverGoesBack(items: seq<Item>, first: Item, later: Item)
    requires FeedErrors(items) == [] && first in items && later in items
    requires Classify(first).Dated? && Classify(later).Dated? && LaneSized(Classify(first).item)
    requires Classify(first).item.floors.dateKey <= Classify(later).item.floors.dateKey
    requires Classify(later).item.floors.dateKey >= 1000_00_00
    ensures LaneSized(Classify(later).item)
  {
    MapMembers(Classify, items);
    CleanFeedsMigrate(Map(Classify, items), Classify(first).item, Classify(later).item);
    DatedFloors(later);
    var v: Version :| v.Valid() && Classify(later).item.floors == FloorsOf(v);
    FloorsAreSeparated(v);
  }

  lemma EarlyFloors(version: string)
    requires FloorsFromShortVersion(version).Some? && FloorsFromShortVersion(version).value.dateKey < 1000_00_00
    ensures FloorsFromShortVersion(version).value.laneFloor < LANE_BUILD_MIN
    ensures FloorsFromShortVersion(version).value.legacyFloor < LANE_BUILD_MIN
  {
    FloorsAreArithmetic(version);
    var v: Version :| v.Valid() && FloorsFromShortVersion(version).value == FloorsOf(v);
    FloorsAreSeparated(v);
  }

  lemma MapOfPair<A, B>(f: A -> B, x: A, y: A)
    ensures Map(f, [x, y]) == [f(x), f(y)]
  {
  }

  ghost predicate AboveBothFloors(c: CalVerItem) {
    c.build >= c.floors.laneFloor && c.build >= c.floors.legacyFloor
  }

  lemma PairIsClean(a: CalVerItem, b: CalVerItem)
    requires AboveBothFloors(a) && AboveBothFloors(b)
    ensures Report([Dated(a), Dated(b)]) == []
  {
    NoErrorsMeansClean([Dated(a), Dated(b)]);
  }

  /**
   * The year 1000 is exact: for every earlier version there is a feed without errors in which two items
   * of that version have a lane-sized build and one that is not.
   */
  lemma EarlierYearsCanGoBack(version: string, lane: string, below: string)
    requires FloorsFromShortVersion(version).Some? && FloorsFromShortVersion(version).value.dateKey < 1000_00_00
    requires Digits(lane) && lane != "" && Value(lane) == LANE_BUILD_MIN
    requires Digits(below) && below != "" && Value(below) == LANE_BUILD_MIN - 1
    ensures var first, later := Item(None, Some(version), Some(lane)), Item(None, Some(version), Some(below));
            && FeedErrors([first, later]) == []
            && Classify(first).Dated? && LaneSized(Classify(first).item)
            && Classify(later).Dated? && !LaneSized(Classify(later).item)
            && Classify(first).item.floors.dateKey == Classify(later).item.floors.dateKey
  {
    NonEmptyVersion(version);
    EarlyFloors(version);
    var first, later := Item(None, Some(version), Some(lane)), Item(None, Some(version), Some(below));
    var a, b := Classify(first), Classify(later);
    MapOfPair(Classify, first, later);
    PairIsClean(a.item, b.item);
  }

  // ---------------------------------------------------------------- instances

  function Power(n: nat): nat {
    if n == 0 then 1 else 10 * Power(n - 1)
  }

  lemma {:induction false} ValueOfZeros(zeros: string, digit: char)
    requires IsDigit(digit) && forall i | 0 <= i < |zeros| :: zeros[i] == '0'
    ensures Digits([digit] + zeros) && Value([digit] + zeros) == (digit as nat - '0' as nat) * Power(|zeros|)
  {
    var s := [digit] + zeros;
    if zeros == "" {
      assert s[..0] == "";
    } else {
      ValueOfZeros(zeros[..|zeros| - 1], digit);
      assert s[..|s| - 1] == [digit] + zeros[..|zeros| - 1];
    }
  }

  lemma {:induction false} ValueOfNines(nines: string)
    requires forall i | 0 <= i < |nines| :: nines[i] == '9'
    ensures Digits(nines) && Value(nines) == Power(|nines|) - 1
  {
    if nines == "" {
    } else {
      ValueOfNines(nines[..|nines| - 1]);
    }
  }

  lemma PowerOfNine()
    ensures Power(9) == LANE_BUILD_MIN
  {
    assert Power(3) == 1000;
    assert Power(6) == 1_000_000;
  }

  /** The two build numbers, as texts. */
  lemma BuildTexts() returns (lane: string, below: string)
    ensures Digits(lane) && lane != "" && Value(lane) == LANE_BUILD_MIN
    ensures Digits(below) && below != "" && Value(below) == LANE_BUILD_MIN - 1
  {
    PowerOfNine();
    var zeros, nines := seq(9, _ => '0'), seq(9, _ => '9');
    ValueOfZeros(zeros, '1');
    ValueOfNines(nines);
    lane, below := ['1'] + zeros, nines;
  }

  lemma ValueOfDigit(digit: char)
    requires IsDigit(digit)
    ensures Value([digit]) == digit as nat - '0' as nat
  {
    assert [digit][..0] == "";
  }

  lemma TrimOfDate(text: string)
    requires text != "" && IsDigit(text[0]) && IsDigit(text[|text| - 1])
    ensures Trim(text) == text
  {
  }

  /** Floors of a version with one-digit month and day. */
  lemma FloorsOfShortDate(year: string, month: char, day: char)
    requires Digits(year) && |year| == 4 && '1' <= month <= '9' && '1' <= day <= '9'
    ensures var floors := FloorsFromShortVersion(year + "." + [month] + "." + [day]);
            && floors.Some?
            && floors.value.dateKey == 10000 * Value(year) + 100 * (month as nat - '0' as nat) + (day as nat - '0' as nat)
  {
    var text := year + "." + [month] + "." + [day];
    var parts := Parts(year, [month], [day], "");
    assert text == text + "";
    TrimOfDate(text);
    MatchIsComplete(text, parts);
    ValueOfDigit(month);
    ValueOfDigit(day);
    DateTextIsDigits(Value(year), Value([month]), Value([day]));
  }

  lemma EarlyYear()
    ensures Digits("0999") && Value("0999") == 999
  {
    ValueOfNines("999");
    assert Power(3) == 1000;
    assert "0999"[..3] == "099" && "099"[..2] == "09" && "09"[..1] == "0" && "0"[..0] == "";
    assert Value("0") == 0 && Value("09") == 9 && Value("099") == 99;
  }

  /** Version 999.1.1 is one for which a feed without errors goes back. */
  lemma AFeedGoesBack() returns (first: Item, later: Item)
    ensures FeedErrors([first, later]) == []
    ensures Classify(first).Dated? && LaneSized(Classify(first).item)
    ensures Classify(later).Dated? && !LaneSized(Classify(later).item)
    ensures Classify(first).item.floors.dateKey == Classify(later).item.floors.dateKey
  {
    var lane, below := BuildTexts();
    EarlyYear();
    FloorsOfShortDate("0999", '1', '1');
    var version := "0999" + "." + ['1'] + "." + ['1'];
    EarlierYearsCanGoBack(version, lane, below);
    first, later := Item(None, Some(version), Some(lane)), Item(None, Some(version), Some(below));
  }

  lemma PowerOfEleven()
    ensures Power(11) == 100 * LANE_BUILD_MIN
  {
    PowerOfNine();
  }

  lemma FloorsAreBelow(v: Version)
    requires v.Valid()
    ensures FloorsOf(v).laneFloor < 100 * LANE_BUILD_MIN && FloorsOf(v).legacyFloor < LANE_BUILD_MIN
  {
  }

  /** A feed to which MigrationNeverGoesBack applies: the same item with a build far above every floor, twice. */
  lemma AFeedMigrates() returns (item: Item)
    ensures FeedErrors([item, item]) == [] && Classify(item).Dated? && LaneSized(Classify(item).item)
    ensures Classify(item).item.floors.dateKey >= 1000_00_00
  {
    ValueOfNines("9999");
    assert Power(4) == 10_000;
    FloorsOfShortDate("9999", '1', '1');
    PowerOfEleven();
    var version, zeros := "9999" + "." + ['1'] + "." + ['1'], seq(11, _ => '0');
    ValueOfZeros(zeros, '1');
    NonEmptyVersion(version);
    item := Item(None, Some(version), Some(['1'] + zeros));
    DatedFloors(item);
    var v: Version :| v.Valid() && Classify(item).item.floors == FloorsOf(v);
    FloorsAreBelow(v);
    MapOfPair(Classify, item, item);
    PairIsClean(Classify(item).item, Classify(item).item);
  }
}
