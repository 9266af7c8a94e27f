/** The search and filter engine behind the map and the list
    (`filterResources`, `getDefaultFilters`): nothing is shown until there is a
    search centre; then the resources with coordinates within the radius that
    pass the secondary filters, nearest first. The distance between two points
    (`haversineMiles`) and the weekday are parameters. */
module Search {
  import opened Wrappers
  import opened Text
  import Js
  import Seqs
  import Sorting
  import Hours
  import Addresses
  import Resources

  /** `filters.searchCenter`; its coordinates are whatever the caller stored. */
  datatype SearchCenter = SearchCenter(lat: Js.Value, lng: Js.Value)

  /** The filter state; `resourceType` is the source's `type`, and a
      `hasDelivery` of `None` is `null` or `undefined`. */
  datatype Filters = Filters(
    resourceType: Option<string>,
    openToday: bool,
    hasDelivery: Option<bool>,
    searchText: Option<string>,
    searchLocation: string,
    searchCenter: Option<SearchCenter>,
    radiusMiles: Js.Number)

  /** `getDefaultFilters`. */
  function GetDefaultFilters(): Filters {
    Filters(Some("all"), false, None, Some(""), "", None, Js.Finite(1.0))
  }

  /** `centerPoint`: the search centre once both coordinates are numbers. */
  datatype CenterPoint = CenterPoint(lat: Js.Number, lng: Js.Number)

  /** `haversineMiles(centerPoint, { lat, lng })`, which is not part of this model. */
  type Distance = (CenterPoint, Addresses.Coordinates) -> Js.Number

  /** `{ ...resource, distanceMiles }`. */
  datatype Hit = Hit(resource: Resources.Resource, distanceMiles: Js.Number)

  /** A centre is there, and both its coordinates are numbers (`NaN` included). */
  predicate HasCenter(f: Filters) {
    f.searchCenter.Some? && f.searchCenter.value.lat.Num? && f.searchCenter.value.lng.Num?
  }

  function CenterOf(f: Filters): CenterPoint
    requires HasCenter(f)
  {
    CenterPoint(f.searchCenter.value.lat.n, f.searchCenter.value.lng.n)
  }

  /** `Number(filters.radiusMiles) || 1`: `NaN` and zero fall back to one mile. */
  function EffectiveRadius(radiusMiles: Js.Number): (r: Js.Number)
    ensures r != Js.NaN && r != Js.Finite(0.0)
    ensures radiusMiles != Js.NaN && radiusMiles != Js.Finite(0.0) ==> r == radiusMiles
  {
    if radiusMiles == Js.NaN || radiusMiles == Js.Finite(0.0) then Js.Finite(1.0) else radiusMiles
  }

  // ---------------------------------------------------------------------------
  // The stages

  /** `Array.isArray(r.address.coordinates) && r.address.coordinates.length === 2`. */
  predicate HasCoordinates(r: Resources.Resource) {
    r.address.coordinates.Some?
  }

  /** The map stage: the resource with its distance from the centre. Only
      resources with coordinates reach it, so the `NaN` branch is not taken. */
  function Measure(center: CenterPoint, distance: Distance): Resources.Resource -> Hit {
    (r: Resources.Resource) =>
      Hit(r, if r.address.coordinates.Some? then distance(center, r.address.coordinates.value) else Js.NaN)
  }

  /** `r.distanceMiles <= radiusMiles`. */
  function WithinRadius(radius: Js.Number): Hit -> bool {
    (h: Hit) => Js.Le(h.distanceMiles, radius)
  }

  /** `filters.type` is unset, "all", or the resource's type. */
  predicate TypeMatches(f: Filters, r: Resources.Resource) {
    !(Js.Present(f.resourceType) && f.resourceType.value != "all" && r.resourceType != f.resourceType.value)
  }

  /** The text filter applies when the search text is not blank. */
  predicate TextActive(f: Filters) {
    Js.Present(f.searchText) && Trim(f.searchText.value) != ""
  }

  /** The street, city and zip that are present, joined by spaces, lower-cased. */
  function AddressText(r: Resources.Resource): string {
    Lower(Join(NonEmpty([r.address.street, r.address.city, r.address.zip]), " "))
  }

  /** The lower-cased search text, not trimmed, occurs in the lower-cased name
      or in the address text. */
  predicate TextMatches(f: Filters, r: Resources.Resource) {
    TextActive(f) ==>
      var term := Lower(f.searchText.value);
      Contains(Lower(r.name), term) || Contains(AddressText(r), term)
  }

  predicate OpenMatches(f: Filters, r: Resources.Resource, today: Hours.Weekday) {
    f.openToday ==> Resources.HasHoursToday(Some(r), today)
  }

  predicate DeliveryMatches(f: Filters, r: Resources.Resource) {
    f.hasDelivery.Some? ==> r.hasDelivery == f.hasDelivery.value
  }

  /** The secondary filters, AND-combined. */
  predicate Passes(f: Filters, r: Resources.Resource, today: Hours.Weekday) {
    TypeMatches(f, r) && TextMatches(f, r) && OpenMatches(f, r, today) && DeliveryMatches(f, r)
  }

  function PassesTest(f: Filters, today: Hours.Weekday): Hit -> bool {
    (h: Hit) => Passes(f, h.resource, today)
  }

  /** `a.distanceMiles || 0`. */
  function SortKey(d: Js.Number): (k: Js.Number)
    ensures k != Js.NaN
  {
    if d == Js.NaN || d == Js.Finite(0.0) then Js.Finite(0.0) else d
  }

  /** `(a.distanceMiles || 0) - (b.distanceMiles || 0)` is not positive:
      `a` may stay before `b`. */
  function ByDistance(): (Hit, Hit) -> bool {
    (a: Hit, b: Hit) => Js.Le(SortKey(a.distanceMiles), SortKey(b.distanceMiles))
  }

  /** What reaches the sort: the resources with coordinates, measured, within
      the radius, passing the secondary filters. */
  function Candidates(resources: seq<Resources.Resource>, f: Filters, today: Hours.Weekday, distance: Distance): seq<Hit>
    requires HasCenter(f)
  {
    var located := Seqs.Filter(resources, HasCoordinates);
    var inRadius := Seqs.Filter(Seqs.Map(located, Measure(CenterOf(f), distance)), WithinRadius(EffectiveRadius(f.radiusMiles)));
    Seqs.Filter(inRadius, PassesTest(f, today))
  }

  /** What `filterResources` returns. */
  function Filtered(resources: seq<Resources.Resource>, f: Filters, today: Hours.Weekday, distance: Distance): seq<Hit> {
    if !HasCenter(f) then [] else Sorting.StableSort(Candidates(resources, f, today, distance), ByDistance())
  }

  /** `filterResources`: `filtered` is reassigned stage by stage, then sorted in place. */
  method FilterResources(resources: seq<Resources.Resource>, filters: Filters, today: Hours.Weekday, distance: Distance)
    returns (r: seq<Hit>)
    ensures r == Filtered(resources, filters, today, distance)
  {
    var radiusMiles := EffectiveRadius(filters.radiusMiles);
    if !HasCenter(filters) {
      return [];
    }
    var filtered := Seqs.Filter(resources, HasCoordinates);
    var centerPoint := CenterOf(filters);
    var measured := Seqs.Filter(Seqs.Map(filtered, Measure(centerPoint, distance)), WithinRadius(radiusMiles));
    measured := Seqs.Filter(measured, PassesTest(filters, today));
    var a := new Hit[|measured|](i requires 0 <= i < |measured| => measured[i]);
    assert a[..] == measured;
    Sorting.InsertionSort(a, ByDistance());
    r := a[..];
  }

  // ---------------------------------------------------------------------------
  // What the result holds

  /** A resource is selected when it has coordinates, its distance is within
      the radius, and it passes the secondary filters. */
  predicate Selected(f: Filters, today: Hours.Weekday, distance: Distance, x: Resources.Resource)
    requires HasCenter(f)
  {
    && HasCoordinates(x)
    && Js.Le(distance(CenterOf(f), x.address.coordinates.value), EffectiveRadius(f.radiusMiles))
    && Passes(f, x, today)
  }

  function SelectedTest(f: Filters, today: Hours.Weekday, distance: Distance): Resources.Resource -> bool
    requires HasCenter(f)
  {
    (x: Resources.Resource) => Selected(f, today, distance, x)
  }

  /** The stages in a row are one filter by all the tests, then the map: the
      selected resources, in input order, each with its distance. */
  lemma CandidatesAre(resources: seq<Resources.Resource>, f: Filters, today: Hours.Weekday, distance: Distance)
    requires HasCenter(f)
    ensures Candidates(resources, f, today, distance) ==
      Seqs.Map(Seqs.Filter(resources, SelectedTest(f, today, distance)), Measure(CenterOf(f), distance))
  {
    var m := Measure(CenterOf(f), distance);
    var w := WithinRadius(EffectiveRadius(f.radiusMiles));
    var p := PassesTest(f, today);
    var both := (h: Hit) => w(h) && p(h);
    var located := Seqs.Filter(resources, HasCoordinates);
    Seqs.FilterFilter(Seqs.Map(located, m), w, p, both);
    var composed := (x: Resources.Resource) => both(m(x));
    Seqs.FilterMap(located, m, both, composed);
    var sel := SelectedTest(f, today, distance);
    forall x ensures sel(x) == (HasCoordinates(x) && composed(x)) {
    }
    Seqs.FilterFilter(resources, HasCoordinates, composed, sel);
  }

  /** With no centre, or one whose coordinates are not both numbers, the
      result is empty; in particular it is empty for the default filters. */
  lemma NoCenterNoResults(resources: seq<Resources.Resource>, f: Filters, today: Hours.Weekday, distance: Distance)
    requires f.searchCenter.None? || !f.searchCenter.value.lat.Num? || !f.searchCenter.value.lng.Num?
    ensures Filtered(resources, f, today, distance) == []
    ensures Filtered(resources, GetDefaultFilters(), today, distance) == []
  {
  }

  /** A hit is in the result exactly when its resource is in the input and is
      selected, and its distance is the distance of that resource: an input
      resource with only `distanceMiles` added. */
  lemma FilteredMember(resources: seq<Resources.Resource>, f: Filters, today: Hours.Weekday, distance: Distance, h: Hit)
    requires HasCenter(f)
    ensures h in Filtered(resources, f, today, distance) <==>
      && h.resource in resources
      && Selected(f, today, distance, h.resource)
      && h.distanceMiles == distance(CenterOf(f), h.resource.address.coordinates.value)
  {
    var c := Candidates(resources, f, today, distance);
    var m := Measure(CenterOf(f), distance);
    var sel := SelectedTest(f, today, distance);
    Sorting.StableSortPermutes(c, ByDistance());
    assert h in Filtered(resources, f, today, distance) <==> h in c by {
      assert h in multiset(Filtered(resources, f, today, distance)) <==> h in multiset(c);
    }
    CandidatesAre(resources, f, today, distance);
    Seqs.MapMember(Seqs.Filter(resources, sel), m, h);
    Seqs.FilterMember(resources, sel, h.resource);
    if h in c {
      var x :| x in Seqs.Filter(resources, sel) && h == m(x);
      Seqs.FilterMember(resources, sel, x);
    }
  }

  /** Every hit has coordinates, and a distance within the radius (the radius
      itself included). */
  lemma FilteredWithinRadius(resources: seq<Resources.Resource>, f: Filters, today: Hours.Weekday, distance: Distance, h: Hit)
    requires h in Filtered(resources, f, today, distance)
    ensures HasCenter(f) && HasCoordinates(h.resource)
    ensures Js.Le(h.distanceMiles, EffectiveRadius(f.radiusMiles))
    ensures Passes(f, h.resource, today)
  {
    FilteredMember(resources, f, today, distance, h);
  }

  /** Nearest first, and hits at the same distance keep the input order: the
      hits tied with any `e` come in the order the stages left them in. */
  lemma FilteredOrder(resources: seq<Resources.Resource>, f: Filters, today: Hours.Weekday, distance: Distance, e: Hit)
    requires HasCenter(f)
    ensures var r := Filtered(resources, f, today, distance);
      && (forall i, j :: 0 <= i < j < |r| ==> Js.Le(SortKey(r[i].distanceMiles), SortKey(r[j].distanceMiles)))
      && Sorting.TiedWith(r, e, ByDistance()) == Sorting.TiedWith(Candidates(resources, f, today, distance), e, ByDistance())
  {
    var c := Candidates(resources, f, today, distance);
    ByDistanceTotal();
    Sorting.StableSortSorted(c, ByDistance());
    Sorting.StableSortKeepsTies(c, e, ByDistance());
    var r := Sorting.StableSort(c, ByDistance());
    forall i, j | 0 <= i < j < |r| ensures Js.Le(SortKey(r[i].distanceMiles), SortKey(r[j].distanceMiles)) {
      assert ByDistance()(r[i], r[j]);
    }
  }

  /** The comparator orders the hits totally, since no sort key is `NaN`. */
  lemma ByDistanceTotal()
    ensures Sorting.TotalPreorder(ByDistance())
  {
    var le := ByDistance();
    forall x, y, z | le(x, y) && le(y, z) ensures le(x, z) {
      Js.LeOrdersNumbers(SortKey(x.distanceMiles), SortKey(y.distanceMiles), SortKey(z.distanceMiles));
    }
    forall x, y ensures le(x, y) || le(y, x) {
      Js.LeOrdersNumbers(SortKey(x.distanceMiles), SortKey(y.distanceMiles), SortKey(y.distanceMiles));
    }
  }

  /** An input without duplicates gives a result without duplicates. */
  lemma FilteredNoDuplicates(resources: seq<Resources.Resource>, f: Filters, today: Hours.Weekday, distance: Distance)
    requires Seqs.NoDuplicates(resources)
    ensures Seqs.NoDuplicates(Filtered(resources, f, today, distance))
  {
    if HasCenter(f) {
      var c := Candidates(resources, f, today, distance);
      var m := Measure(CenterOf(f), distance);
      var sel := SelectedTest(f, today, distance);
      CandidatesAre(resources, f, today, distance);
      Seqs.FilterNoDuplicates(resources, sel);
      assert forall x, y :: m(x) == m(y) ==> x == y;
      Seqs.MapNoDuplicates(Seqs.Filter(resources, sel), m);
      Sorting.StableSortPermutes(c, ByDistance());
      Seqs.PermutationNoDuplicates(c, Sorting.StableSort(c, ByDistance()));
    }
  }

  /** A search term without spaces matches the address text exactly when it
      occurs in the street, the city or the zip, lower-cased. */
  lemma TextMatchesFields(f: Filters, r: Resources.Resource)
    requires TextActive(f)
    requires forall k :: 0 <= k < |f.searchText.value| ==> f.searchText.value[k] != ' '
    ensures TextMatches(f, r) <==>
      var term := Lower(f.searchText.value);
      || Contains(Lower(r.name), term)
      || Contains(Lower(r.address.street), term)
      || Contains(Lower(r.address.city), term)
      || Contains(Lower(r.address.zip), term)
  {
    var term := Lower(f.searchText.value);
    assert forall k :: 0 <= k < |term| ==> term[k] == LowerChar(f.searchText.value[k]);
    ContainsJoinedLower([r.address.street, r.address.city, r.address.zip], term);
  }
}
