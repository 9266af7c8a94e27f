/** Location helpers: the table of Chicagoland ZIP centres, the ZIP lookup,
    geocoding of a search query and the map zoom for a search radius. */
module Location {
  import opened Wrappers
  import opened Text
  import Js

  /** A point in degrees. */
  datatype LatLng = LatLng(lat: real, lng: real)

  /** `ZIP_CENTERS`: the approximate centre of each Chicagoland ZIP code that the
      lookup knows. Its keys are numeric literals, so its property names are
      their decimal spellings. */
  const ZipCenters: map<nat, LatLng> := ZipCentersOutside + ZipCentersChicago

  /** The first thirty entries: the suburbs, then Chicago from 60601 to 60626. */
  const ZipCentersOutside: map<nat, LatLng> := map[
    60076 := LatLng(42.032, -87.747),
    60153 := LatLng(41.879, -87.844),
    60160 := LatLng(41.9, -87.833),
    60201 := LatLng(42.045, -87.687),
    60601 := LatLng(41.885, -87.622),
    60602 := LatLng(41.883, -87.629),
    60603 := LatLng(41.88, -87.629),
    60604 := LatLng(41.878, -87.629),
    60605 := LatLng(41.869, -87.624),
    60606 := LatLng(41.881, -87.637),
    60607 := LatLng(41.875, -87.651),
    60608 := LatLng(41.849, -87.67),
    60609 := LatLng(41.812, -87.653),
    60610 := LatLng(41.904, -87.637),
    60611 := LatLng(41.894, -87.621),
    60612 := LatLng(41.88, -87.687),
    60613 := LatLng(41.953, -87.655),
    60614 := LatLng(41.924, -87.653),
    60615 := LatLng(41.802, -87.602),
    60616 := LatLng(41.844, -87.629),
    60617 := LatLng(41.713, -87.565),
    60618 := LatLng(41.947, -87.703),
    60619 := LatLng(41.744, -87.606),
    60620 := LatLng(41.741, -87.652),
    60621 := LatLng(41.776, -87.641),
    60622 := LatLng(41.902, -87.679),
    60623 := LatLng(41.846, -87.717),
    60624 := LatLng(41.881, -87.703),
    60625 := LatLng(41.971, -87.702),
    60626 := LatLng(42.009, -87.669)
  ]

  /** The other thirty entries, Chicago from 60628 to 60661. */
  const ZipCentersChicago: map<nat, LatLng> := map[
    60628 := LatLng(41.692, -87.621),
    60629 := LatLng(41.775, -87.711),
    60630 := LatLng(41.972, -87.759),
    60631 := LatLng(41.995, -87.707),
    60632 := LatLng(41.81, -87.708),
    60633 := LatLng(41.653, -87.549),
    60634 := LatLng(41.946, -87.796),
    60636 := LatLng(41.776, -87.669),
    60637 := LatLng(41.781, -87.604),
    60638 := LatLng(41.782, -87.771),
    60639 := LatLng(41.92, -87.755),
    60640 := LatLng(41.972, -87.663),
    60641 := LatLng(41.946, -87.747),
    60642 := LatLng(41.899, -87.657),
    60643 := LatLng(41.699, -87.662),
    60644 := LatLng(41.882, -87.757),
    60645 := LatLng(42.008, -87.694),
    60646 := LatLng(41.994, -87.761),
    60647 := LatLng(41.921, -87.704),
    60649 := LatLng(41.762, -87.571),
    60651 := LatLng(41.902, -87.741),
    60652 := LatLng(41.748, -87.714),
    60653 := LatLng(41.819, -87.611),
    60654 := LatLng(41.889, -87.637),
    60655 := LatLng(41.692, -87.701),
    60656 := LatLng(41.974, -87.817),
    60657 := LatLng(41.94, -87.654),
    60659 := LatLng(41.996, -87.707),
    60660 := LatLng(41.985, -87.663),
    60661 := LatLng(41.883, -87.644)
  ]

  /** `s.replace(/\D/g, "")`: the digits of `s`, in order. */
  function DigitsOnly(s: string): (r: string)
    ensures |r| <= |s|
    ensures forall i :: 0 <= i < |r| ==> IsDigit(r[i])
  {
    if s == [] then [] else (if IsDigit(s[0]) then [s[0]] else []) + DigitsOnly(s[1..])
  }

  /** The numeric key that the property name `name` denotes, if `name` is the
      decimal spelling of a number. */
  function KeyNamed(name: string): Option<nat> {
    if Canonical(name) then Some(ValueIn(name, 0, |name|)) else None
  }

  /** `ZIP_CENTERS[name] || null`. */
  function Property(name: string): Option<LatLng> {
    match KeyNamed(name)
    case Some(n) => if n in ZipCenters then Some(ZipCenters[n]) else None
    case None => None
  }

  /** `getZipCenter`: the table entry for the digits of the query when there are
      exactly five of them. */
  function GetZipCenter(query: string): Option<LatLng> {
    var zip := DigitsOnly(query);
    if |zip| != 5 then None else Property(zip)
  }

  /** A property name denotes the key `n` exactly when it is `String(n)`. */
  lemma KeyNamedIff(name: string, n: nat)
    ensures KeyNamed(name) == Some(n) <==> NatToString(n) == name
  {
    if KeyNamed(name) == Some(n) {
      NatToStringOfValue(name);
    }
    if NatToString(n) == name {
      NatToStringCanonical(n);
      ValueOfNatToString(n);
    }
  }

  lemma {:induction false} DigitsOnlyConcat(a: string, b: string)
    ensures DigitsOnly(a + b) == DigitsOnly(a) + DigitsOnly(b)
  {
    if a == [] {
      assert a + b == b;
    } else {
      assert (a + b)[1..] == a[1..] + b;
      DigitsOnlyConcat(a[1..], b);
    }
  }

  lemma {:induction false} DigitsOnlyNone(s: string)
    requires forall i :: 0 <= i < |s| ==> !IsDigit(s[i])
    ensures DigitsOnly(s) == ""
  {
    if s != [] {
      DigitsOnlyNone(s[1..]);
    }
  }

  lemma {:induction false} DigitsOnlyAll(s: string)
    requires forall i :: 0 <= i < |s| ==> IsDigit(s[i])
    ensures DigitsOnly(s) == s
  {
    if s != [] {
      DigitsOnlyAll(s[1..]);
      assert [s[0]] + s[1..] == s;
    }
  }

  lemma OutsideKeysInRange(n: nat)
    requires n in ZipCentersOutside
    ensures 10000 <= n < 100000
  {
  }

  lemma ChicagoKeysInRange(n: nat)
    requires n in ZipCentersChicago
    ensures 10000 <= n < 100000
  {
  }

  /** Every key of the table is a five-digit number. */
  lemma ZipKeysAreFiveDigits(n: nat)
    requires n in ZipCenters
    ensures |NatToString(n)| == 5
  {
    if n in ZipCentersOutside {
      OutsideKeysInRange(n);
    } else {
      ChicagoKeysInRange(n);
    }
    NatToStringFive(n);
  }

  /** A query finds a centre exactly when its digits, taken together, spell a key
      of the table, and then it is that key's centre; the length test never
      rejects a key of the table. */
  lemma GetZipCenterIff(query: string, n: nat)
    requires n in ZipCenters
    ensures GetZipCenter(query) == Some(ZipCenters[n]) <== DigitsOnly(query) == NatToString(n)
    ensures GetZipCenter(query).Some? <==> exists m :: m in ZipCenters && DigitsOnly(query) == NatToString(m)
    ensures GetZipCenter(query).Some? ==>
      && KeyNamed(DigitsOnly(query)).Some?
      && KeyNamed(DigitsOnly(query)).value in ZipCenters
      && GetZipCenter(query) == Some(ZipCenters[KeyNamed(DigitsOnly(query)).value])
  {
    KeyNamedIff(DigitsOnly(query), n);
    ZipKeysAreFiveDigits(n);
    if GetZipCenter(query).Some? {
      GetZipCenterSound(query);
    }
    if exists m :: m in ZipCenters && DigitsOnly(query) == NatToString(m) {
      var m :| m in ZipCenters && DigitsOnly(query) == NatToString(m);
      KeyNamedIff(DigitsOnly(query), m);
      ZipKeysAreFiveDigits(m);
    }
  }

  /** Anything the lookup returns is the entry of the key its digits spell. */
  lemma GetZipCenterSound(query: string)
    requires GetZipCenter(query).Some?
    ensures var n := KeyNamed(DigitsOnly(query)).value;
      n in ZipCenters && NatToString(n) == DigitsOnly(query) && GetZipCenter(query) == Some(ZipCenters[n])
  {
    KeyNamedIff(DigitsOnly(query), KeyNamed(DigitsOnly(query)).value);
  }

  /** The centre of a key found inside text without other digits, such as
      "Chicago, IL 60637", is that key's entry. */
  lemma GetZipCenterInText(before: string, n: nat, after: string)
    requires n in ZipCenters
    requires forall i :: 0 <= i < |before| ==> !IsDigit(before[i])
    requires forall i :: 0 <= i < |after| ==> !IsDigit(after[i])
    ensures GetZipCenter(before + NatToString(n) + after) == Some(ZipCenters[n])
  {
    var zip := NatToString(n);
    DigitsOnlyConcat(before + zip, after);
    DigitsOnlyConcat(before, zip);
    DigitsOnlyNone(before);
    DigitsOnlyNone(after);
    DigitsOnlyAll(zip);
    assert DigitsOnly(before + zip + after) == zip;
    GetZipCenterIff(before + zip + after, n);
  }

  /** A query with more or fewer than five digits, such as a ZIP+4 code, finds nothing. */
  lemma GetZipCenterNeedsFive(query: string)
    requires |DigitsOnly(query)| != 5
    ensures GetZipCenter(query) == None
  {
  }

  lemma HydeParkInChicago()
    ensures 60637 in ZipCentersChicago && ZipCentersChicago[60637] == LatLng(41.781, -87.604)
  {
  }

  lemma NoCode60627()
    ensures 60627 !in ZipCentersOutside && 60627 !in ZipCentersChicago
  {
  }

  lemma HydeParkEntry()
    ensures 60637 in ZipCenters && ZipCenters[60637] == LatLng(41.781, -87.604)
    ensures 60627 !in ZipCenters
  {
    HydeParkInChicago();
    NoCode60627();
  }

  lemma SpellingOfKeys()
    ensures KeyNamed("60637") == Some(60637) && KeyNamed("60627") == Some(60627)
  {
    assert ValueIn("60637", 0, 5) == 60637;
    assert ValueIn("60627", 0, 5) == 60627;
  }

  /** The Hyde Park code is in the table; 60627, which is not, finds nothing. */
  lemma GetZipCenterHydePark()
    ensures GetZipCenter("60637") == Some(LatLng(41.781, -87.604))
    ensures GetZipCenter("60627") == None
  {
    DigitsOnlyAll("60637");
    DigitsOnlyAll("60627");
    SpellingOfKeys();
    HydeParkEntry();
  }

  // ---------------------------------------------------------------------------
  // Geocoding

  /** One feature of a geocoding response: its `center`, `[lng, lat]`. */
  datatype Feature = Feature(lng: real, lat: real)

  /** What the geocoding request came to: the `fetch` threw (or reading the body
      did), or a response arrived with its `ok` flag and its `features`
      (`None` when the field is missing). */
  datatype Outcome = Thrown | Response(ok: bool, features: Option<seq<Feature>>)

  /** The centre found, if any, and the query sent to the geocoding service, if
      a request was made. */
  datatype Geocoded = Geocoded(center: Option<LatLng>, request: Option<string>)

  /** `geocodeSearchQuery`. The service is the function `service`, which maps
      the trimmed query and the access token to the request's outcome. */
  function GeocodeSearchQuery(query: Js.Value, token: Option<string>, service: (string, string) -> Outcome): (r: Geocoded)
    ensures r.request.Some? ==> query.Str? && token.Some? && r.request.value == Trim(query.s) && GetZipCenter(r.request.value) == None
  {
    if !Js.Truthy(query) || !query.Str? then Geocoded(None, None)
    else
      var trimmed := Trim(query.s);
      if trimmed == "" then Geocoded(None, None)
      else match GetZipCenter(trimmed)
        case Some(c) => Geocoded(Some(c), None)
        case None =>
          if !Js.Present(token) then Geocoded(None, None)
          else
            var center := match service(trimmed, token.value)
              case Thrown => None
              case Response(ok, features) =>
                if !ok then None
                else if features.None? || |features.value| == 0 then None
                else Some(LatLng(features.value[0].lat, features.value[0].lng));
            Geocoded(center, Some(trimmed))
  }

  /** Anything but a string with a non-blank character gives no centre and sends nothing. */
  lemma GeocodeBlank(query: Js.Value, token: Option<string>, service: (string, string) -> Outcome)
    requires !query.Str? || Trim(query.s) == ""
    ensures GeocodeSearchQuery(query, token, service) == Geocoded(None, None)
  {
  }

  /** A query whose digits spell a key of the table is answered from the table
      and sends nothing, whatever the token. */
  lemma GeocodeZipFirst(query: string, n: nat, token: Option<string>, service: (string, string) -> Outcome)
    requires n in ZipCenters && DigitsOnly(Trim(query)) == NatToString(n)
    ensures GeocodeSearchQuery(Js.Str(query), token, service) == Geocoded(Some(ZipCenters[n]), None)
  {
    GetZipCenterIff(Trim(query), n);
  }

  /** A request is made exactly for a non-blank string query that the table does
      not answer, when a token is present; it carries the trimmed query. */
  lemma GeocodeRequestIff(query: Js.Value, token: Option<string>, service: (string, string) -> Outcome)
    ensures GeocodeSearchQuery(query, token, service).request.Some? <==>
      query.Str? && Trim(query.s) != "" && GetZipCenter(Trim(query.s)) == None && Js.Present(token)
  {
  }

  /** Without the table's answer, a centre comes only from the first feature of a
      successful response that has features; every failure gives none. */
  lemma GeocodeFromService(query: string, token: string, service: (string, string) -> Outcome)
    requires Trim(query) != "" && GetZipCenter(Trim(query)) == None && token != ""
    ensures var r := GeocodeSearchQuery(Js.Str(query), Some(token), service);
      var out := service(Trim(query), token);
      r.center.Some? <==> out.Response? && out.ok && out.features.Some? && |out.features.value| > 0
    ensures var r := GeocodeSearchQuery(Js.Str(query), Some(token), service);
      var out := service(Trim(query), token);
      r.center.Some? ==> r.center.value == LatLng(out.features.value[0].lat, out.features.value[0].lng)
  {
  }

  // ---------------------------------------------------------------------------
  // Map zoom

  /** `zoomForRadiusMiles`: the largest radius bound the radius meets picks the
      zoom; `NaN` and larger radii give 10. */
  function ZoomForRadiusMiles(radiusMiles: Js.Number): (zoom: int)
    ensures 10 <= zoom <= 15
  {
    if Js.Le(radiusMiles, Js.Finite(0.5)) then 15
    else if Js.Le(radiusMiles, Js.Finite(1.0)) then 14
    else if Js.Le(radiusMiles, Js.Finite(2.0)) then 13
    else if Js.Le(radiusMiles, Js.Finite(5.0)) then 12
    else if Js.Le(radiusMiles, Js.Finite(10.0)) then 11
    else 10
  }

  /** A larger radius never zooms in further. */
  lemma ZoomMonotone(a: real, b: real)
    requires a <= b
    ensures ZoomForRadiusMiles(Js.Finite(b)) <= ZoomForRadiusMiles(Js.Finite(a))
  {
  }

  /** The zoom for each radius the filter panel offers, for the default radius of
      one mile, and for radii that are not numbers. */
  lemma ZoomValues()
    ensures ZoomForRadiusMiles(Js.Finite(0.5)) == 15
    ensures ZoomForRadiusMiles(Js.Finite(1.0)) == 14
    ensures ZoomForRadiusMiles(Js.Finite(2.0)) == 13
    ensures ZoomForRadiusMiles(Js.Finite(5.0)) == 12
    ensures ZoomForRadiusMiles(Js.Finite(10.0)) == 11
    ensures ZoomForRadiusMiles(Js.Finite(25.0)) == 10
    ensures ZoomForRadiusMiles(Js.NaN) == 10 && ZoomForRadiusMiles(Js.PosInfinity) == 10
  {
  }
}
