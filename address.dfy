/** `parseAddress`: splitting a one-line address into street, city, state and
    ZIP with two regular expressions, written here as hand matchers that find
    what the expressions' backtracking finds. */
module Addresses {
  import opened Wrappers
  import opened Text
  import Js

  /** `[longitude, latitude]`. */
  datatype Coordinates = Coordinates(lng: real, lat: real)

  /** The address record of a resource. */
  datatype Address = Address(street: string, city: string, state: string, zip: string,
                             fullAddress: string, coordinates: Option<Coordinates>)

  const NoAddress := Address("", "", "", "", "", None)

  // ---------------------------------------------------------------------------
  // The common tail: `(IL)\s+(\d{5})$`, after optional white space

  /** Where `IL` starts when the text from `i` is white space, `IL` in either
      case, white space, and exactly five digits that end the text. */
  function StateZipAt(t: string, i: nat): (r: Option<nat>)
    requires i <= |t|
    ensures r.Some? ==> i <= r.value && r.value + 8 <= |t|
  {
    var p := i + SpaceRun(t, i);
    if p + 2 <= |t| && LowerChar(t[p]) == 'i' && LowerChar(t[p + 1]) == 'l' then
      var q := p + 2 + SpaceRun(t, p + 2);
      if q > p + 2 && q + 5 == |t| && DigitsIn(t, q, |t|) then Some(p) else None
    else None
  }

  /** What `StateZipAt` finds, position by position. */
  predicate StateZipLayout(t: string, i: nat, p: nat) {
    && i <= p && p + 8 <= |t|
    && SpacesIn(t, i, p)
    && LowerChar(t[p]) == 'i' && LowerChar(t[p + 1]) == 'l'
    && SpacesIn(t, p + 2, |t| - 5)
    && DigitsIn(t, |t| - 5, |t|)
  }

  lemma StateZipSound(t: string, i: nat)
    requires i <= |t| && StateZipAt(t, i).Some?
    ensures StateZipLayout(t, i, StateZipAt(t, i).value)
  {
    var p := StateZipAt(t, i).value;
    SpaceRunSpaces(t, i);
    SpaceRunSpaces(t, p + 2);
  }

  /** No comma in `[i, j)`. */
  predicate CommaFree(t: string, i: int, j: int) {
    forall k :: i <= k < j && 0 <= k < |t| ==> t[k] != ','
  }

  /** The tail holds no comma, and its state and ZIP are `IL` and five digits
      once trimmed. */
  lemma StateZipParts(t: string, i: nat, p: nat)
    requires StateZipLayout(t, i, p)
    ensures CommaFree(t, i, |t|)
    ensures Trim(t[p..p + 2]) == t[p..p + 2] && Lower(t[p..p + 2]) == "il"
    ensures Trim(t[|t| - 5..]) == t[|t| - 5..] && |t[|t| - 5..]| == 5 && DigitsIn(t[|t| - 5..], 0, 5)
  {
    var st := t[p..p + 2];
    assert st[0] == t[p] && st[1] == t[p + 1];
    TrimNoop(st);
    var z := t[|t| - 5..];
    assert z[0] == t[|t| - 5] && z[4] == t[|t| - 1];
    TrimNoop(z);
  }

  /** The common tail found at `i` holds no comma. */
  lemma StateZipFacts(t: string, i: nat, p: nat)
    requires i <= |t| && StateZipAt(t, i) == Some(p)
    ensures p + 8 <= |t| && CommaFree(t, i, |t|)
  {
    StateZipSound(t, i);
    StateZipParts(t, i, p);
  }

  /** The state and ZIP groups of the common tail found at `i`, once trimmed:
      `IL` in some case and five digits. */
  lemma StateZipGroups(t: string, i: nat, p: nat)
    requires i <= |t| && StateZipAt(t, i) == Some(p)
    ensures p + 8 <= |t| && Lower(Trim(t[p..p + 2])) == "il"
    ensures |Trim(t[|t| - 5..])| == 5 && DigitsIn(Trim(t[|t| - 5..]), 0, 5)
  {
    StateZipSound(t, i);
    StateZipParts(t, i, p);
  }

  // ---------------------------------------------------------------------------
  // The strict expression: `^(.*?),(?:\s*)([A-Za-z\s]+?),(?:\s*)(IL)\s+(\d{5})$`, `i` flag

  /** `[A-Za-z\s]`. */
  predicate IsCityChar(c: char) {
    IsLetter(c) || IsSpace(c)
  }

  /** Length of the run of `[A-Za-z\s]` that starts at `i`. */
  function CityRun(t: string, i: nat): (n: nat)
    requires i <= |t|
    ensures i + n <= |t|
    ensures i + n < |t| ==> !IsCityChar(t[i + n])
    decreases |t| - i
  {
    if i < |t| && IsCityChar(t[i]) then 1 + CityRun(t, i + 1) else 0
  }

  lemma {:induction false} CityRunChars(t: string, i: nat)
    requires i <= |t|
    ensures forall k :: i <= k < i + CityRun(t, i) ==> IsCityChar(t[k])
    decreases |t| - i
  {
    if i < |t| && IsCityChar(t[i]) {
      CityRunChars(t, i + 1);
    }
  }

  lemma {:induction false} CityRunIs(t: string, i: nat, n: nat)
    requires i + n <= |t| && forall k :: i <= k < i + n ==> IsCityChar(t[k])
    requires i + n < |t| ==> !IsCityChar(t[i + n])
    ensures CityRun(t, i) == n
    decreases n
  {
    if n > 0 {
      CityRunIs(t, i + 1, n - 1);
    }
  }

  /** Where the groups of the strict expression lie: the street is `[0, streetEnd)`,
      the city group `[cityStart, cityEnd)`, `IL` starts at `stateAt`, and the
      ZIP is the last five characters. */
  datatype StrictMatch = StrictMatch(streetEnd: nat, cityStart: nat, cityEnd: nat, stateAt: nat)

  /** The rest of the strict expression after the comma at `c`: white space and
      a city group up to the next comma (the city group keeps one character when
      all is white space), then the common tail. */
  function StrictRest(t: string, c: nat): (r: Option<StrictMatch>)
    requires c < |t|
    ensures r.Some? ==> var m := r.value;
      m.streetEnd == c && c < m.cityStart < m.cityEnd < m.stateAt && m.stateAt + 8 <= |t|
  {
    var cityEnd := c + 1 + CityRun(t, c + 1);
    if cityEnd > c + 1 && cityEnd < |t| && t[cityEnd] == ',' then
      match StateZipAt(t, cityEnd + 1)
      case Some(p) =>
        var sp := SpaceRun(t, c + 1);
        var cityStart := if c + 1 + sp < cityEnd then c + 1 + sp else cityEnd - 1;
        Some(StrictMatch(c, cityStart, cityEnd, p))
      case None => None
    else None
  }

  /** The lazy `(.*?)` of the strict expression: the first comma from `c` on
      after which the rest matches, as long as no line terminator has been passed. */
  function StrictFrom(t: string, c: nat): (r: Option<StrictMatch>)
    requires c <= |t|
    ensures r.Some? ==> var m := r.value;
      c <= m.streetEnd < m.cityStart < m.cityEnd < m.stateAt && m.stateAt + 8 <= |t|
    decreases |t| - c
  {
    if c == |t| then None
    else if t[c] == ',' && StrictRest(t, c).Some? then StrictRest(t, c)
    else if IsLineTerminator(t[c]) then None
    else StrictFrom(t, c + 1)
  }

  // ---------------------------------------------------------------------------
  // The alternative expression: `^(.*?)(?:\s+)(Chicago|...|Skokie)\s*,?\s*(IL)\s+(\d{5})$`, `i` flag

  /** The municipalities of the alternative expression, in its order. */
  const Municipalities: seq<string> := MunicipalitiesFirst + MunicipalitiesSecond

  const MunicipalitiesFirst: seq<string> := [
    "Chicago",
    "Skokie",
    "Evanston",
    "Maywood",
    "Melrose Park",
    "Cicero",
    "Berwyn",
    "Oak Park",
    "River Forest",
    "Bellwood",
    "Harvey",
    "Dolton",
    "Calumet City",
    "Blue Island",
    "Alsip",
    "Summit",
    "Elmwood Park",
    "Burbank",
    "Crestwood",
    "Evergreen Park",
    "Oak Lawn",
    "Bridgeview",
    "Bedford Park",
    "Niles",
    "Lincolnwood",
    "Des Plaines",
    "Park Ridge",
    "Morton Grove",
    "Rosemont"
  ]

  const MunicipalitiesSecond: seq<string> := [
    "Forest Park",
    "Lansing",
    "Country Club Hills",
    "Markham",
    "Homewood",
    "Hillside",
    "Hines",
    "La Grange",
    "La Grange Park",
    "Lyons",
    "North Riverside",
    "Riverside",
    "Westchester",
    "Broadview",
    "Stone Park",
    "Stickney",
    "Robbins",
    "Posen",
    "Phoenix",
    "River Grove",
    "Glenview",
    "Wheeling",
    "Palatine",
    "Arlington Heights",
    "Rolling Meadows",
    "Schaumburg",
    "Skokie"
  ]

  /** `name` at position `q`, ignoring ASCII case. */
  predicate NameAt(t: string, q: nat, name: string) {
    q + |name| <= |t| && Lower(t[q..q + |name|]) == Lower(name)
  }

  /** Where the common tail starts after `\s*,?` from `i`. */
  function AltTailStart(t: string, i: nat): (b: nat)
    requires i <= |t|
    ensures i <= b <= |t|
  {
    var a := i + SpaceRun(t, i);
    if a < |t| && t[a] == ',' then a + 1 else a
  }

  /** `\s*,?\s*` followed by the common tail, from `i`: where `IL` starts. */
  function AltTail(t: string, i: nat): (r: Option<nat>)
    requires i <= |t|
    ensures r.Some? ==> i <= r.value && r.value + 8 <= |t|
  {
    StateZipAt(t, AltTailStart(t, i))
  }

  /** Name `name` at `q`, ignoring case, followed by the tail: where `IL` starts. */
  function CityAt(t: string, q: nat, name: string): (r: Option<nat>)
    requires q <= |t|
    ensures r.Some? ==> q + |name| <= r.value && r.value + 8 <= |t|
  {
    if NameAt(t, q, name) then AltTail(t, q + |name|) else None
  }

  /** The alternative that matched: the index of the name and where `IL` starts. */
  datatype CityHit = CityHit(name: nat, stateAt: nat)

  /** The alternation over `names`, tried in order from name `k` on: the first
      name at `q` after which the tail matches. */
  function CityFrom(t: string, names: seq<string>, q: nat, k: nat): (r: Option<CityHit>)
    requires q <= |t|
    ensures r.Some? ==> k <= r.value.name < |names| && q + |names[r.value.name]| <= r.value.stateAt
                        && r.value.stateAt + 8 <= |t|
    decreases |names| - k
  {
    if k >= |names| then None
    else
      match CityAt(t, q, names[k])
      case Some(p) => Some(CityHit(k, p))
      case None => CityFrom(t, names, q, k + 1)
  }

  /** Where the groups of the alternative expression lie: the street is
      `[0, streetEnd)`, the city is name number `name`, at `[cityStart, cityEnd)`,
      `IL` starts at `stateAt`, and the ZIP is the last five characters. */
  datatype AltMatch = AltMatch(streetEnd: nat, cityStart: nat, name: nat, cityEnd: nat, stateAt: nat)

  /** The lazy `(.*?)` of the alternative expression with the alternation over
      `names`: the first position from `e` on where white space, a name and the
      tail follow, as long as no line terminator has been passed. `\s+` takes
      the whole run of white space, since no municipality starts with white space. */
  function AltFrom(t: string, names: seq<string>, e: nat): (r: Option<AltMatch>)
    requires e <= |t|
    ensures r.Some? ==> var m := r.value;
      e <= m.streetEnd < m.cityStart && m.name < |names|
      && m.cityEnd == m.cityStart + |names[m.name]| <= m.stateAt && m.stateAt + 8 <= |t|
    decreases |t| - e
  {
    if e == |t| then None
    else if IsSpace(t[e]) && CityFrom(t, names, e + SpaceRun(t, e), 0).Some? then
      var found := CityFrom(t, names, e + SpaceRun(t, e), 0).value;
      Some(AltMatch(e, e + SpaceRun(t, e), found.name, e + SpaceRun(t, e) + |names[found.name]|, found.stateAt))
    else if IsLineTerminator(t[e]) then None
    else AltFrom(t, names, e + 1)
  }

  // ---------------------------------------------------------------------------
  // The parse

  /** The four captured groups, before trimming. */
  datatype Groups = Groups(street: string, city: string, state: string, zip: string)

  function StrictGroups(t: string, m: StrictMatch): Groups
    requires m.streetEnd <= m.cityStart <= m.cityEnd && m.stateAt + 8 <= |t| && m.cityEnd <= |t|
  {
    Groups(t[..m.streetEnd], t[m.cityStart..m.cityEnd], t[m.stateAt..m.stateAt + 2], t[|t| - 5..])
  }

  function AltGroups(t: string, m: AltMatch): Groups
    requires m.streetEnd <= m.cityStart <= m.cityEnd <= m.stateAt && m.stateAt + 8 <= |t|
  {
    Groups(t[..m.streetEnd], t[m.cityStart..m.cityEnd], t[m.stateAt..m.stateAt + 2], t[|t| - 5..])
  }

  /** The strict expression first, then the alternative one, else the whole
      address as the street. */
  function GroupsOf(t: string, names: seq<string>): Groups {
    match StrictFrom(t, 0)
    case Some(m) => StrictGroups(t, m)
    case None =>
      match AltFrom(t, names, 0)
      case Some(m) => AltGroups(t, m)
      case None => Groups(t, "", "", "")
  }

  /** The address record of the trimmed groups. */
  function FromGroups(g: Groups, full: string): Address {
    Address(Trim(g.street), Trim(g.city), Trim(g.state), Trim(g.zip), full, None)
  }

  /** What `parseAddress` returns when its alternative expression lists the
      municipalities `names`. */
  function AddressIn(address: Js.Value, names: seq<string>): Address {
    if !Js.Truthy(address) || !address.Str? then NoAddress
    else
      var full := Trim(address.s);
      FromGroups(GroupsOf(full, names), full)
  }

  /** What `parseAddress` returns. */
  function AddressOf(address: Js.Value): Address {
    AddressIn(address, Municipalities)
  }

  /** `parseAddress`, with its locals `street`, `city`, `state` and `zip`. */
  method ParseAddress(address: Js.Value) returns (r: Address)
    ensures r == AddressOf(address)
  {
    if !Js.Truthy(address) || !address.Str? {
      return NoAddress;
    }
    var fullAddress := Trim(address.s);
    var street, city, state, zip := "", "", "", "";
    var strict := StrictFrom(fullAddress, 0);
    if strict.Some? {
      var g := StrictGroups(fullAddress, strict.value);
      street, city, state, zip := g.street, g.city, g.state, g.zip;
    } else {
      var alt := AltFrom(fullAddress, Municipalities, 0);
      if alt.Some? {
        var g := AltGroups(fullAddress, alt.value);
        street, city, state, zip := g.street, g.city, g.state, g.zip;
      } else {
        street := fullAddress;
      }
    }
    r := Address(Trim(street), Trim(city), Trim(state), Trim(zip), fullAddress, None);
  }

  // ---------------------------------------------------------------------------
  // Properties of the strict expression

  /** What `StrictRest` reads, as equations. */
  lemma StrictRestParts(t: string, c: nat, m: StrictMatch)
    requires c < |t| && StrictRest(t, c) == Some(m)
    ensures m.cityEnd == c + 1 + CityRun(t, c + 1) && m.cityEnd < |t| && t[m.cityEnd] == ','
    ensures m.cityStart <= c + 1 + SpaceRun(t, c + 1)
    ensures StateZipAt(t, m.cityEnd + 1) == Some(m.stateAt)
  {
  }

  /** The state and ZIP groups of a strict match, once trimmed. */
  lemma StrictRestTail(t: string, c: nat, m: StrictMatch)
    requires c < |t| && StrictRest(t, c) == Some(m)
    ensures Lower(Trim(t[m.stateAt..m.stateAt + 2])) == "il"
    ensures |Trim(t[|t| - 5..])| == 5 && DigitsIn(Trim(t[|t| - 5..]), 0, 5)
  {
    StrictRestParts(t, c, m);
    StateZipGroups(t, m.cityEnd + 1, m.stateAt);
  }

  /** The city group runs over city characters, so no comma, after white space. */
  lemma CityGroupFacts(t: string, c: nat, st: nat, e: nat)
    requires c < |t| && e == c + 1 + CityRun(t, c + 1) && st <= c + 1 + SpaceRun(t, c + 1)
    ensures CommaFree(t, c + 1, e) && forall k :: c < k < e ==> IsCityChar(t[k])
    ensures SpacesIn(t, c + 1, st)
  {
    CityRunChars(t, c + 1);
    SpaceRunSpaces(t, c + 1);
  }

  /** After its comma, the strict expression reads city characters up to the
      next comma, then the tail: no comma follows that second one. */
  lemma StrictRestSound(t: string, c: nat, m: StrictMatch)
    requires c < |t| && StrictRest(t, c) == Some(m)
    ensures t[m.cityEnd] == ',' && CommaFree(t, c + 1, m.cityEnd) && CommaFree(t, m.cityEnd + 1, |t|)
    ensures forall k :: c < k < m.cityEnd ==> IsCityChar(t[k])
    ensures SpacesIn(t, c + 1, m.cityStart)
  {
    StrictRestParts(t, c, m);
    CityGroupFacts(t, c, m.cityStart, m.cityEnd);
    StateZipFacts(t, m.cityEnd + 1, m.stateAt);
  }

  /** The strict search stops at a comma after which the rest matches, and it
      has passed no line terminator to get there. */
  lemma {:induction false} StrictFromSound(t: string, c: nat, m: StrictMatch)
    requires c <= |t| && StrictFrom(t, c) == Some(m)
    ensures t[m.streetEnd] == ','
    ensures StrictRest(t, m.streetEnd) == Some(m)
    ensures forall k :: c <= k < m.streetEnd ==> !IsLineTerminator(t[k])
    decreases |t| - c
  {
    if t[c] == ',' && StrictRest(t, c).Some? {
      assert StrictRest(t, c) == Some(m);
    } else {
      assert !IsLineTerminator(t[c]);
      assert StrictFrom(t, c + 1) == Some(m);
      StrictFromSound(t, c + 1, m);
      forall k | c <= k < m.streetEnd ensures !IsLineTerminator(t[k]) {
        if k > c {
          assert c + 1 <= k < m.streetEnd;
        }
      }
    }
  }

  /** The strict search finds the first comma after which the rest matches. */
  lemma {:induction false} StrictFromFinds(t: string, c0: nat, c: nat)
    requires c0 <= c < |t| && t[c] == ',' && StrictRest(t, c).Some?
    requires forall k :: c0 <= k < c ==> !IsLineTerminator(t[k]) && (t[k] == ',' ==> StrictRest(t, k).None?)
    ensures StrictFrom(t, c0) == StrictRest(t, c)
    decreases c - c0
  {
    if c0 < c {
      StrictFromFinds(t, c0 + 1, c);
    }
  }

  /** The trimmed city group is the trimmed text between the two commas. */
  lemma StrictCity(t: string, c: nat, m: StrictMatch)
    requires c < |t| && StrictRest(t, c) == Some(m)
    ensures Trim(t[m.cityStart..m.cityEnd]) == Trim(t[c + 1..m.cityEnd])
  {
    StrictRestSound(t, c, m);
    var between := t[c + 1..m.cityEnd];
    var k := m.cityStart - (c + 1);
    assert SpacesIn(between, 0, k);
    assert between[k..] == t[m.cityStart..m.cityEnd];
    TrimSkipSpaces(between, k);
  }

  /** `parseAddress` on a string reads the groups of its trimmed text. */
  lemma AddressOfGroups(s: string, names: seq<string>)
    requires Trim(s) != ""
    ensures AddressIn(Js.Str(s), names) == FromGroups(GroupsOf(Trim(s), names), Trim(s))
  {
    TrimIsSlice(s);
  }

  /** The groups of a strict match: the two commas it splits at, no line break
      before the first, and the city between them. */
  lemma StrictShape(t: string, m: StrictMatch)
    requires StrictFrom(t, 0) == Some(m)
    ensures t[m.streetEnd] == ',' && t[m.cityEnd] == ','
    ensures CommaFree(t, m.streetEnd + 1, m.cityEnd) && CommaFree(t, m.cityEnd + 1, |t|)
    ensures forall k :: 0 <= k < m.streetEnd ==> !IsLineTerminator(t[k])
  {
    StrictFromSound(t, 0, m);
    StrictRestSound(t, m.streetEnd, m);
  }

  /** The trimmed city group of a strict match is the trimmed text between the commas. */
  lemma StrictCityOf(t: string, m: StrictMatch)
    requires StrictFrom(t, 0) == Some(m)
    ensures Trim(t[m.cityStart..m.cityEnd]) == Trim(t[m.streetEnd + 1..m.cityEnd])
  {
    StrictFromSound(t, 0, m);
    StrictCity(t, m.streetEnd, m);
  }

  /** When the strict expression matches, the address splits at its last two
      commas: the street is the trimmed text before the second-to-last comma
      (it may hold other commas, but no line break), the city the trimmed text
      between the two. */
  lemma StrictAddress(s: string, names: seq<string>)
    requires StrictFrom(Trim(s), 0).Some?
    ensures var a := AddressIn(Js.Str(s), names); var t := Trim(s);
      exists c, c2 ::
        && 0 <= c < c2 < |t| && t[c] == ',' && t[c2] == ','
        && CommaFree(t, c + 1, c2) && CommaFree(t, c2 + 1, |t|)
        && (forall k :: 0 <= k < c ==> !IsLineTerminator(t[k]))
        && a.street == Trim(t[..c]) && a.city == Trim(t[c + 1..c2])
  {
    var t := Trim(s);
    var m := StrictFrom(t, 0).value;
    var a := StrictAddressOf(s, t, m, names);
    StrictHeadFields(t, m, a);
    StrictShape(t, m);
  }

  /** When the strict expression matches, the state is `IL` in some case and
      the ZIP five digits. */
  lemma StrictAddressTail(s: string, t: string, names: seq<string>)
    requires t == Trim(s) && StrictFrom(t, 0).Some?
    ensures var a := AddressIn(Js.Str(s), names);
      |a.zip| == 5 && DigitsIn(a.zip, 0, 5) && Lower(a.state) == "il"
  {
    var m := StrictFrom(t, 0).value;
    var a := StrictAddressOf(s, t, m, names);
    StrictTailFields(t, m, a);
  }

  /** `parseAddress` when the strict expression matches: the trimmed groups. */
  lemma StrictAddressOf(s: string, t: string, m: StrictMatch, names: seq<string>) returns (a: Address)
    requires t == Trim(s) && StrictFrom(t, 0) == Some(m)
    ensures a == AddressIn(Js.Str(s), names) == FromGroups(StrictGroups(t, m), t)
  {
    AddressOfGroups(s, names);
    assert GroupsOf(t, names) == StrictGroups(t, m);
    a := FromGroups(StrictGroups(t, m), t);
  }

  lemma StrictFields(t: string, m: StrictMatch, a: Address)
    requires m.streetEnd <= m.cityStart <= m.cityEnd && m.stateAt + 8 <= |t| && m.cityEnd <= |t|
    requires a == FromGroups(StrictGroups(t, m), t)
    ensures a.street == Trim(t[..m.streetEnd]) && a.city == Trim(t[m.cityStart..m.cityEnd])
    ensures a.state == Trim(t[m.stateAt..m.stateAt + 2]) && a.zip == Trim(t[|t| - 5..])
  {
    var g := StrictGroups(t, m);
    assert g.street == t[..m.streetEnd] && g.city == t[m.cityStart..m.cityEnd];
    assert g.state == t[m.stateAt..m.stateAt + 2] && g.zip == t[|t| - 5..];
    GroupFields(g, t, a);
  }

  /** The fields of the record are the trimmed groups. */
  lemma GroupFields(g: Groups, full: string, a: Address)
    requires a == FromGroups(g, full)
    ensures a.street == Trim(g.street) && a.city == Trim(g.city) && a.state == Trim(g.state) && a.zip == Trim(g.zip)
  {
  }

  /** The state and ZIP of a strict match: `IL` in some case and five digits. */
  lemma StrictTailFields(t: string, m: StrictMatch, a: Address)
    requires StrictFrom(t, 0) == Some(m) && a == FromGroups(StrictGroups(t, m), t)
    ensures |a.zip| == 5 && DigitsIn(a.zip, 0, 5) && Lower(a.state) == "il"
  {
    StrictFields(t, m, a);
    StrictFromSound(t, 0, m);
    StrictRestTail(t, m.streetEnd, m);
  }

  /** The street and city of a strict match: the trimmed text before the first
      of the two commas and between them. */
  lemma StrictHeadFields(t: string, m: StrictMatch, a: Address)
    requires StrictFrom(t, 0) == Some(m) && a == FromGroups(StrictGroups(t, m), t)
    ensures a.street == Trim(t[..m.streetEnd]) && a.city == Trim(t[m.streetEnd + 1..m.cityEnd])
  {
    StrictFields(t, m, a);
    StrictCityOf(t, m);
  }

  /** A comma inside the street never ends the street: two commas follow it. */
  lemma StrictSkipsStreetComma(t: string, k: nat, c: nat, c2: nat)
    requires k < c < c2 < |t| && t[c] == ',' && t[c2] == ','
    ensures StrictRest(t, k).None?
  {
    if StrictRest(t, k).Some? {
      StrictRestSound(t, k, StrictRest(t, k).value);
    }
  }

  /** The common tail, given its white space runs. */
  lemma StateZipIs(t: string, i: nat, p: nat)
    requires i <= p && p + 8 <= |t| && SpaceRun(t, i) == p - i
    requires LowerChar(t[p]) == 'i' && LowerChar(t[p + 1]) == 'l'
    requires SpaceRun(t, p + 2) == |t| - 5 - (p + 2) > 0 && DigitsIn(t, |t| - 5, |t|)
    ensures StateZipAt(t, i) == Some(p)
  {
  }

  /** The rest of the strict expression, given the city run and the tail. */
  lemma StrictRestIs(t: string, c: nat, e: nat, p: nat)
    requires c + 1 < e < |t| && CityRun(t, c + 1) == e - c - 1 && t[e] == ','
    requires StateZipAt(t, e + 1) == Some(p)
    ensures StrictRest(t, c).Some?
    ensures StrictRest(t, c).value.streetEnd == c && StrictRest(t, c).value.cityEnd == e
    ensures StrictRest(t, c).value.stateAt == p
  {
  }

  /** The pieces of `street, city, IL zip`. */
  lemma UsualSlices(street: string, city: string, zip: string, t: string, n: nat, e: nat)
    requires |zip| == 5
    requires t == street + ", " + city + ", IL " + zip && n == |street| && e == n + 2 + |city|
    ensures |t| == e + 10
    ensures t[..n] == street && t[n + 1..e] == " " + city && t[e + 2..e + 4] == "IL" && t[|t| - 5..] == zip
    ensures t[n] == ',' && t[n + 1] == ' ' && t[e] == ',' && t[e + 1] == ' ' && t[e + 4] == ' '
    ensures t[e + 2] == 'I' && t[e + 3] == 'L'
    ensures forall k :: n + 2 <= k < e ==> t[k] == city[k - n - 2]
    ensures forall k :: 0 <= k < n ==> t[k] == street[k]
    ensures forall k :: e + 5 <= k < |t| ==> t[k] == zip[k - e - 5]
  {
  }

  /** The positions of `street, city, IL zip`. */
  lemma StrictRestOfUsual(street: string, city: string, zip: string, t: string, n: nat, e: nat)
    requires forall k :: 0 <= k < |city| ==> IsCityChar(city[k])
    requires |zip| == 5 && DigitsIn(zip, 0, 5)
    requires t == street + ", " + city + ", IL " + zip && n == |street| && e == n + 2 + |city|
    ensures StrictRest(t, n).Some?
    ensures StrictRest(t, n).value.cityEnd == e && StrictRest(t, n).value.stateAt == e + 2
  {
    UsualCityRun(street, city, zip, t, n, e);
    UsualTail(street, city, zip, t, n, e);
    StrictRestIs(t, n, e, e + 2);
  }

  lemma UsualCityRun(street: string, city: string, zip: string, t: string, n: nat, e: nat)
    requires forall k :: 0 <= k < |city| ==> IsCityChar(city[k])
    requires |zip| == 5
    requires t == street + ", " + city + ", IL " + zip && n == |street| && e == n + 2 + |city|
    ensures e < |t| && t[e] == ',' && CityRun(t, n + 1) == e - n - 1
  {
    UsualSlices(street, city, zip, t, n, e);
    CityRunIs(t, n + 1, 1 + |city|);
  }

  lemma UsualTail(street: string, city: string, zip: string, t: string, n: nat, e: nat)
    requires |zip| == 5 && DigitsIn(zip, 0, 5)
    requires t == street + ", " + city + ", IL " + zip && n == |street| && e == n + 2 + |city|
    ensures StateZipAt(t, e + 1) == Some(e + 2)
  {
    UsualTailChars(street, city, zip, t, n, e);
    StateZipIs(t, e + 1, e + 2);
  }

  lemma UsualTailChars(street: string, city: string, zip: string, t: string, n: nat, e: nat)
    requires |zip| == 5 && DigitsIn(zip, 0, 5)
    requires t == street + ", " + city + ", IL " + zip && n == |street| && e == n + 2 + |city|
    ensures e + 10 == |t| && SpaceRun(t, e + 1) == 1 && SpaceRun(t, e + 4) == 1
    ensures LowerChar(t[e + 2]) == 'i' && LowerChar(t[e + 3]) == 'l' && DigitsIn(t, |t| - 5, |t|)
  {
    UsualSlices(street, city, zip, t, n, e);
    SpaceRunIs(t, e + 1, 1);
    SpaceRunIs(t, e + 4, 1);
  }

  /** The usual form `street, city, IL zip` (the street may hold commas, but no
      line break, and starts with a non-blank; the city is letters and white
      space; the ZIP five digits) parses into its parts, trimmed. */
  lemma StrictUsual(street: string, city: string, zip: string, names: seq<string>)
    requires street != [] && !IsSpace(street[0]) && forall k :: 0 <= k < |street| ==> !IsLineTerminator(street[k])
    requires forall k :: 0 <= k < |city| ==> IsCityChar(city[k])
    requires |zip| == 5 && DigitsIn(zip, 0, 5)
    ensures var full := street + ", " + city + ", IL " + zip;
      AddressIn(Js.Str(full), names) == Address(Trim(street), Trim(city), "IL", zip, full, None)
  {
    var t := street + ", " + city + ", IL " + zip;
    var n := |street|;
    var e := n + 2 + |city|;
    UsualSlices(street, city, zip, t, n, e);
    TrimNoop(t);
    var m := UsualMatch(street, city, zip, t, n, e);
    var a := StrictAddressOf(t, t, m, names);
    UsualFields(street, city, zip, t, n, e, m);
  }

  /** The strict search on `street, city, IL zip` stops at the comma after the street. */
  lemma UsualMatch(street: string, city: string, zip: string, t: string, n: nat, e: nat) returns (m: StrictMatch)
    requires forall k :: 0 <= k < |street| ==> !IsLineTerminator(street[k])
    requires forall k :: 0 <= k < |city| ==> IsCityChar(city[k])
    requires |zip| == 5 && DigitsIn(zip, 0, 5)
    requires t == street + ", " + city + ", IL " + zip && n == |street| && e == n + 2 + |city|
    ensures StrictFrom(t, 0) == StrictRest(t, n) == Some(m)
    ensures m.streetEnd == n && m.cityEnd == e && m.stateAt == e + 2
  {
    UsualSlices(street, city, zip, t, n, e);
    StrictRestOfUsual(street, city, zip, t, n, e);
    forall k | 0 <= k < n
      ensures !IsLineTerminator(t[k]) && (t[k] == ',' ==> StrictRest(t, k).None?)
    {
      if t[k] == ',' {
        StrictSkipsStreetComma(t, k, n, e);
      }
    }
    StrictFromFinds(t, 0, n);
    m := StrictRest(t, n).value;
  }

  /** The trimmed groups of `street, city, IL zip`. */
  lemma UsualFields(street: string, city: string, zip: string, t: string, n: nat, e: nat, m: StrictMatch)
    requires |zip| == 5 && DigitsIn(zip, 0, 5)
    requires t == street + ", " + city + ", IL " + zip && n == |street| && e == n + 2 + |city|
    requires StrictRest(t, n) == Some(m) && m.streetEnd == n && m.cityEnd == e && m.stateAt == e + 2
    ensures t[..m.streetEnd] == street && Trim(t[m.cityStart..m.cityEnd]) == Trim(city)
    ensures Trim(t[m.stateAt..m.stateAt + 2]) == "IL" && Trim(t[|t| - 5..]) == zip
  {
    UsualSlices(street, city, zip, t, n, e);
    StrictCity(t, n, m);
    TrimSkipSpaces(" " + city, 1);
    assert (" " + city)[1..] == city;
    TrimNoop("IL");
    TrimNoop(zip);
  }

  /** A suite before the street stays in the street. */
  lemma StrictUsualExample()
    ensures AddressOf(Js.Str("Suite 2, 100 Main St, Chicago, IL 60601")) ==
      Address("Suite 2, 100 Main St", "Chicago", "IL", "60601", "Suite 2, 100 Main St, Chicago, IL 60601", None)
  {
    var street, city, zip := "Suite 2, 100 Main St", "Chicago", "60601";
    assert street + ", " + city + ", IL " + zip == "Suite 2, 100 Main St, Chicago, IL 60601";
    TrimNoop(street);
    TrimNoop(city);
    StrictUsual(street, city, zip, Municipalities);
  }

  // ---------------------------------------------------------------------------
  // Properties of the alternative expression

  lemma {:induction false} CityFromSound(t: string, names: seq<string>, q: nat, k: nat, h: CityHit)
    requires q <= |t| && CityFrom(t, names, q, k) == Some(h)
    ensures h.name < |names| && CityAt(t, q, names[h.name]) == Some(h.stateAt)
    decreases |names| - k
  {
    if CityAt(t, q, names[k]).None? {
      CityFromSound(t, names, q, k + 1, h);
    }
  }

  lemma CityAtSound(t: string, q: nat, name: string, p: nat)
    requires q <= |t| && CityAt(t, q, name) == Some(p)
    ensures NameAt(t, q, name) && StateZipAt(t, AltTailStart(t, q + |name|)) == Some(p)
  {
  }

  /** The state and ZIP groups after a city name, once trimmed. */
  lemma CityAtTail(t: string, q: nat, name: string, p: nat)
    requires q <= |t| && CityAt(t, q, name) == Some(p)
    ensures Lower(Trim(t[p..p + 2])) == "il"
    ensures |Trim(t[|t| - 5..])| == 5 && DigitsIn(Trim(t[|t| - 5..]), 0, 5)
  {
    CityAtSound(t, q, name, p);
    StateZipGroups(t, AltTailStart(t, q + |name|), p);
  }

  lemma {:induction false} AltFromSound(t: string, names: seq<string>, e: nat, m: AltMatch)
    requires e <= |t| && AltFrom(t, names, e) == Some(m)
    ensures IsSpace(t[m.streetEnd]) && m.cityStart == m.streetEnd + SpaceRun(t, m.streetEnd)
    ensures CityFrom(t, names, m.cityStart, 0) == Some(CityHit(m.name, m.stateAt))
    ensures forall k :: e <= k < m.streetEnd ==> !IsLineTerminator(t[k])
    decreases |t| - e
  {
    if IsSpace(t[e]) && CityFrom(t, names, e + SpaceRun(t, e), 0).Some? {
      var found := CityFrom(t, names, e + SpaceRun(t, e), 0).value;
      assert m == AltMatch(e, e + SpaceRun(t, e), found.name, e + SpaceRun(t, e) + |names[found.name]|, found.stateAt);
    } else {
      assert !IsLineTerminator(t[e]);
      assert AltFrom(t, names, e + 1) == Some(m);
      AltFromSound(t, names, e + 1, m);
      forall k | e <= k < m.streetEnd ensures !IsLineTerminator(t[k]) {
        if k > e {
          assert e + 1 <= k < m.streetEnd;
        }
      }
    }
  }

  /** The alternation takes the first name after which the tail matches. */
  lemma {:induction false} CityFromFirst(t: string, names: seq<string>, q: nat, k: nat, h: CityHit)
    requires q <= |t| && CityFrom(t, names, q, k) == Some(h)
    ensures forall i :: k <= i < h.name ==> CityAt(t, q, names[i]).None?
    decreases |names| - k
  {
    if CityAt(t, q, names[k]).None? {
      CityFromFirst(t, names, q, k + 1, h);
    }
  }

  /** The alternation finds the first name after which the tail matches. */
  lemma CityFromFinds(t: string, names: seq<string>, q: nat, k: nat, j: nat, p: nat)
    requires q <= |t| && k <= j < |names| && CityAt(t, q, names[j]) == Some(p)
    requires forall i :: k <= i < j ==> CityAt(t, q, names[i]).None?
    ensures CityFrom(t, names, q, k) == Some(CityHit(j, p))
  {
    CityFromSome(t, names, q, k, j);
    var h := CityFrom(t, names, q, k).value;
    CityFromSound(t, names, q, k, h);
    CityFromFirst(t, names, q, k, h);
  }

  /** White space followed by a name and the tail: where `(.*?)` can stop. */
  predicate AltSplit(t: string, names: seq<string>, e: nat)
    requires e < |t|
  {
    IsSpace(t[e]) && CityFrom(t, names, e + SpaceRun(t, e), 0).Some?
  }

  /** The lazy street group stops at the first split: none lies before it. */
  lemma {:induction false} AltFromFirst(t: string, names: seq<string>, e: nat, m: AltMatch)
    requires e <= |t| && AltFrom(t, names, e) == Some(m)
    ensures forall k :: e <= k < m.streetEnd ==> !AltSplit(t, names, k)
    decreases |t| - e
  {
    assert e < |t|;
    if !AltSplit(t, names, e) {
      assert AltFrom(t, names, e + 1) == Some(m);
      AltFromFirst(t, names, e + 1, m);
      forall k | e <= k < m.streetEnd ensures !AltSplit(t, names, k) {
        if k > e {
          assert e + 1 <= k < m.streetEnd;
        }
      }
    }
  }

  /** At the split, the alternation takes the first name after which the tail matches. */
  lemma AltFirstName(t: string, names: seq<string>, e: nat, m: AltMatch)
    requires e <= |t| && AltFrom(t, names, e) == Some(m)
    ensures forall i :: 0 <= i < m.name ==> CityAt(t, m.cityStart, names[i]).None?
  {
    AltFromSound(t, names, e, m);
    CityFromFirst(t, names, m.cityStart, 0, CityHit(m.name, m.stateAt));
  }

  /** The alternative search finds the first split, provided no line
      terminator comes before it. */
  lemma {:induction false} AltFromFinds(t: string, names: seq<string>, e0: nat, e: nat)
    requires e0 <= e < |t| && AltSplit(t, names, e)
    requires forall k :: e0 <= k < e ==> !IsLineTerminator(t[k]) && !AltSplit(t, names, k)
    ensures AltFrom(t, names, e0) == AltFrom(t, names, e)
    ensures AltFrom(t, names, e).Some? && AltFrom(t, names, e).value.streetEnd == e
    decreases e - e0
  {
    if e0 < e {
      AltFromSkips(t, names, e0);
      AltFromFinds(t, names, e0 + 1, e);
    } else {
      AltFromAtSplit(t, names, e);
    }
  }

  lemma AltFromSkips(t: string, names: seq<string>, e: nat)
    requires e < |t| && !AltSplit(t, names, e) && !IsLineTerminator(t[e])
    ensures AltFrom(t, names, e) == AltFrom(t, names, e + 1)
  {
  }

  lemma AltFromAtSplit(t: string, names: seq<string>, e: nat)
    requires e < |t| && AltSplit(t, names, e)
    ensures AltFrom(t, names, e).Some? && AltFrom(t, names, e).value.streetEnd == e
  {
  }

  /** The groups of an alternative match: white space and no line break before
      the city, and the city one of the names in some case. */
  lemma AltShape(t: string, names: seq<string>, m: AltMatch)
    requires AltFrom(t, names, 0) == Some(m)
    ensures IsSpace(t[m.streetEnd]) && (forall k :: 0 <= k < m.streetEnd ==> !IsLineTerminator(t[k]))
    ensures Lower(t[m.cityStart..m.cityEnd]) == Lower(names[m.name])
  {
    AltFromSound(t, names, 0, m);
    CityFromSound(t, names, m.cityStart, 0, CityHit(m.name, m.stateAt));
    CityAtSound(t, m.cityStart, names[m.name], m.stateAt);
    assert m.cityEnd == m.cityStart + |names[m.name]|;
  }

  /** When only the alternative expression matches: the street is the trimmed
      text before the white space ahead of the city, without line breaks, and
      the city is the text of one of the municipalities, in any case. */
  lemma AltAddress(s: string, t: string, names: seq<string>, m: AltMatch)
    requires t == Trim(s) && StrictFrom(t, 0).None? && AltFrom(t, names, 0) == Some(m)
    ensures AddressIn(Js.Str(s), names).street == Trim(t[..m.streetEnd])
    ensures IsSpace(t[m.streetEnd]) && forall k :: 0 <= k < m.streetEnd ==> !IsLineTerminator(t[k])
    ensures AddressIn(Js.Str(s), names).city == Trim(t[m.cityStart..m.cityEnd])
    ensures Lower(t[m.cityStart..m.cityEnd]) == Lower(names[m.name])
  {
    var a := AltAddressOf(s, t, names, m);
    AltFields(t, m, a);
    AltShape(t, names, m);
  }

  /** When only the alternative expression matches, the state is `IL` in some
      case and the ZIP five digits. */
  lemma AltAddressTail(s: string, t: string, names: seq<string>, m: AltMatch)
    requires t == Trim(s) && StrictFrom(t, 0).None? && AltFrom(t, names, 0) == Some(m)
    ensures var a := AddressIn(Js.Str(s), names);
      |a.zip| == 5 && DigitsIn(a.zip, 0, 5) && Lower(a.state) == "il"
  {
    var a := AltAddressOf(s, t, names, m);
    AltTailFields(t, names, m, a);
  }

  /** The state and ZIP groups of an alternative match, once trimmed. */
  lemma AltTailGroups(t: string, names: seq<string>, m: AltMatch)
    requires AltFrom(t, names, 0) == Some(m)
    ensures Lower(Trim(t[m.stateAt..m.stateAt + 2])) == "il"
    ensures |Trim(t[|t| - 5..])| == 5 && DigitsIn(Trim(t[|t| - 5..]), 0, 5)
  {
    AltFromCityAt(t, names, m);
    CityAtTail(t, m.cityStart, names[m.name], m.stateAt);
  }

  /** The name of an alternative match stands at its city, followed by the tail. */
  lemma AltFromCityAt(t: string, names: seq<string>, m: AltMatch)
    requires AltFrom(t, names, 0) == Some(m)
    ensures m.cityStart <= |t| && m.name < |names| && CityAt(t, m.cityStart, names[m.name]) == Some(m.stateAt)
  {
    AltFromSound(t, names, 0, m);
    CityFromSound(t, names, m.cityStart, 0, CityHit(m.name, m.stateAt));
  }

  /** `parseAddress` when only the alternative expression matches: the trimmed groups. */
  lemma AltAddressOf(s: string, t: string, names: seq<string>, m: AltMatch) returns (a: Address)
    requires t == Trim(s) && StrictFrom(t, 0).None? && AltFrom(t, names, 0) == Some(m)
    ensures a == AddressIn(Js.Str(s), names) == FromGroups(AltGroups(t, m), t)
  {
    AddressOfGroups(s, names);
    assert GroupsOf(t, names) == AltGroups(t, m);
    a := FromGroups(AltGroups(t, m), t);
  }

  lemma AltFields(t: string, m: AltMatch, a: Address)
    requires m.streetEnd <= m.cityStart <= m.cityEnd <= m.stateAt && m.stateAt + 8 <= |t|
    requires a == FromGroups(AltGroups(t, m), t)
    ensures a.street == Trim(t[..m.streetEnd]) && a.city == Trim(t[m.cityStart..m.cityEnd])
    ensures a.state == Trim(t[m.stateAt..m.stateAt + 2]) && a.zip == Trim(t[|t| - 5..])
  {
    var g := AltGroups(t, m);
    assert g.street == t[..m.streetEnd] && g.city == t[m.cityStart..m.cityEnd];
    assert g.state == t[m.stateAt..m.stateAt + 2] && g.zip == t[|t| - 5..];
    GroupFields(g, t, a);
  }

  /** The state and ZIP of an alternative match: `IL` in some case and five digits. */
  lemma AltTailFields(t: string, names: seq<string>, m: AltMatch, a: Address)
    requires AltFrom(t, names, 0) == Some(m) && a == FromGroups(AltGroups(t, m), t)
    ensures |a.zip| == 5 && DigitsIn(a.zip, 0, 5) && Lower(a.state) == "il"
  {
    AltFields(t, m, a);
    AltTailGroups(t, names, m);
  }

  // ---------------------------------------------------------------------------
  // The usual form without commas: `street city IL zip`

  /** `x` ends, in any case, with `s`. */
  predicate EndsWithLower(x: string, s: string) {
    |s| <= |x| && Lower(x[|x| - |s|..]) == Lower(s)
  }

  /** No name is longer than `city` and ends, in any case, with the word `city`
      (as `North Riverside` ends with `Riverside`), or with `city` and a blank. */
  predicate NoLongerName(names: seq<string>, city: string) {
    forall i :: 0 <= i < |names| ==> !EndsWithLower(names[i], " " + city) && !EndsWithLower(names[i], city + " ")
  }

  /** The end of `street city IL zip`: the city ends at `e` with a non-blank,
      then come ` IL ` and five digits, and the text holds no comma. */
  predicate AltLayout(t: string, e: nat) {
    && 0 < e && e + 9 == |t| && !IsSpace(t[e - 1])
    && t[e] == ' ' && t[e + 1] == 'I' && t[e + 2] == 'L' && t[e + 3] == ' ' && DigitsIn(t, e + 4, |t|)
    && CommaFree(t, 0, |t|)
  }

  /** Without a comma the strict expression has nothing to split at. */
  lemma {:induction false} StrictFromNoComma(t: string, c: nat)
    requires c <= |t| && CommaFree(t, c, |t|)
    ensures StrictFrom(t, c).None?
    decreases |t| - c
  {
    if c < |t| {
      assert t[c] != ',';
      StrictFromNoComma(t, c + 1);
    }
  }

  /** In that layout the tail matches only right after the city, with or
      without the blank before `IL`, and always finds the `IL` at `e + 1`. */
  lemma AltTailOnlyAtEnd(t: string, e: nat, i: nat)
    requires AltLayout(t, e) && i <= |t| && AltTail(t, i).Some?
    ensures (i == e || i == e + 1) && AltTail(t, i) == Some(e + 1)
  {
    var a := i + SpaceRun(t, i);
    SpaceRunSpaces(t, i);
    assert a < |t| ==> t[a] != ',';
    assert AltTailStart(t, i) == a;
    var p := AltTail(t, i).value;
    StateZipSound(t, a);
    assert !IsSpace(t[e + 2]) && !IsSpace(t[e - 1]);
    assert p == e + 1;
  }

  lemma AltTailAtEnd(t: string, e: nat)
    requires AltLayout(t, e)
    ensures AltTail(t, e) == Some(e + 1)
  {
    SpaceRunIs(t, e, 1);
    SpaceRunIs(t, e + 1, 0);
    SpaceRunIs(t, e + 3, 1);
    StateZipIs(t, e + 1, e + 1);
  }

  /** A name after which the tail matches ends where the city does, or one
      blank later. */
  lemma CityAtEnd(t: string, e: nat, q: nat, x: string)
    requires AltLayout(t, e) && q <= |t| && CityAt(t, q, x).Some?
    ensures q + |x| == e || q + |x| == e + 1
    ensures NameAt(t, q, x) && CityAt(t, q, x) == Some(e + 1)
  {
    AltTailOnlyAtEnd(t, e, q + |x|);
  }

  /** A name that spells the text `[q, j)` ends with what that text ends with. */
  lemma SpanEndsWith(t: string, q: nat, j: nat, x: string, b: nat, s: string)
    requires q + |x| == j <= |t| && NameAt(t, q, x)
    requires q <= b <= j && t[b..j] == s
    ensures EndsWithLower(x, s)
  {
    var d := b - q;
    LowerDrop(t[q..j], d);
    LowerDrop(x, d);
    assert t[q..j][d..] == s;
  }

  /** A name equal in some case to the text `[q, j)` stands there. */
  lemma NameAtSpan(t: string, q: nat, j: nat, x: string, c: string)
    requires q <= j <= |t| && t[q..j] == c && Lower(x) == Lower(c)
    ensures q + |x| == j && NameAt(t, q, x)
  {
    assert |Lower(x)| == |x| && |Lower(c)| == |c|;
  }

  /** The alternation finds some name once one of them matches. */
  lemma {:induction false} CityFromSome(t: string, names: seq<string>, q: nat, k: nat, j: nat)
    requires q <= |t| && k <= j < |names| && CityAt(t, q, names[j]).Some?
    ensures CityFrom(t, names, q, k).Some?
    decreases j - k
  {
    if k < j && CityAt(t, q, names[k]).None? {
      CityFromSome(t, names, q, k + 1, j);
    }
  }

  /** A split in that layout: white space from `k` to `q`, then a name that
      spells the text up to the end of the city, or one blank further. */
  lemma SplitName(t: string, names: seq<string>, e: nat, k: nat) returns (q: nat, i: nat)
    requires AltLayout(t, e) && k < |t| && AltSplit(t, names, k)
    ensures q == k + SpaceRun(t, k) && SpacesIn(t, k, q) && i < |names|
    ensures q + |names[i]| == e || q + |names[i]| == e + 1
    ensures NameAt(t, q, names[i])
  {
    q := k + SpaceRun(t, k);
    SpaceRunSpaces(t, k);
    var h := CityFrom(t, names, q, 0).value;
    CityFromSound(t, names, q, 0, h);
    i := h.name;
    CityAtEnd(t, e, q, names[i]);
  }

  /** Inside the street no split succeeds: a name starting there would have to
      end with the word of the city. */
  lemma NoSplitInStreet(t: string, names: seq<string>, n: nat, e: nat, city: string, k: nat)
    requires AltLayout(t, e) && k < n < e && !IsSpace(t[n - 1])
    requires t[n..e] == " " + city && t[n + 1..e + 1] == city + " "
    requires NoLongerName(names, city)
    ensures !AltSplit(t, names, k)
  {
    if AltSplit(t, names, k) {
      SplitEndsWithCity(t, names, n, e, city, k);
    }
  }

  /** A split inside the street starts a name that ends with the word of the city. */
  lemma SplitEndsWithCity(t: string, names: seq<string>, n: nat, e: nat, city: string, k: nat)
    requires AltLayout(t, e) && k < n < e && !IsSpace(t[n - 1])
    requires t[n..e] == " " + city && t[n + 1..e + 1] == city + " "
    requires AltSplit(t, names, k)
    ensures exists i :: 0 <= i < |names| && (EndsWithLower(names[i], " " + city) || EndsWithLower(names[i], city + " "))
  {
    var q, i := SplitName(t, names, e, k);
    assert q <= n - 1 by {
      assert !IsSpace(t[n - 1]);
    }
    if q + |names[i]| == e {
      SpanEndsWith(t, q, e, names[i], n, " " + city);
      assert EndsWithLower(names[i], " " + city);
    } else {
      SpanEndsWith(t, q, e + 1, names[i], n + 1, city + " ");
      assert EndsWithLower(names[i], city + " ");
    }
  }

  /** The blank after the street is a split: the city's name follows it. */
  lemma SplitAfterStreet(t: string, names: seq<string>, n: nat, e: nat, city: string)
    requires AltLayout(t, e) && 0 < n < e && t[n] == ' ' && !IsSpace(t[n + 1]) && t[n + 1..e] == city
    requires exists j :: 0 <= j < |names| && Lower(names[j]) == Lower(city)
    ensures SpaceRun(t, n) == 1 && AltSplit(t, names, n)
  {
    SpaceRunIs(t, n, 1);
    var j :| 0 <= j < |names| && Lower(names[j]) == Lower(city);
    AltTailAtEnd(t, e);
    NameAtSpan(t, n + 1, e, names[j], city);
    CityAtOf(t, n + 1, names[j], e, e + 1);
    SplitAtName(t, names, n, j);
  }

  /** A single blank followed by a name after which the tail matches is a split. */
  lemma SplitAtName(t: string, names: seq<string>, n: nat, j: nat)
    requires n < |t| && IsSpace(t[n]) && SpaceRun(t, n) == 1
    requires j < |names| && CityAt(t, n + 1, names[j]).Some?
    ensures AltSplit(t, names, n)
  {
    CityFromSome(t, names, n + 1, 0, j);
  }

  lemma CityAtOf(t: string, q: nat, x: string, j: nat, p: nat)
    requires q + |x| == j <= |t| && NameAt(t, q, x) && AltTail(t, j) == Some(p)
    ensures CityAt(t, q, x) == Some(p)
  {
  }

  /** The split of the alternative expression after the street, where the
      city's text runs from `n + 1` to `e` and `IL` follows. */
  lemma MatchAfterStreet(t: string, names: seq<string>, n: nat, e: nat, city: string)
    requires AltLayout(t, e) && 0 < n < e && SpaceRun(t, n) == 1 && AltSplit(t, names, n)
    requires t[n + 1..e + 1] == city + " " && NoLongerName(names, city)
    ensures AltFrom(t, names, n).Some?
    ensures var m := AltFrom(t, names, n).value;
      m.streetEnd == n && m.cityStart == n + 1 && m.cityEnd == e && m.stateAt == e + 1
  {
    var h := CityFrom(t, names, n + 1, 0).value;
    CityFromSound(t, names, n + 1, 0, h);
    CityAtEnd(t, e, n + 1, names[h.name]);
    NameEndsWithCity(t, n + 1, e, names[h.name], city);
  }

  /** On `street city IL zip` the alternative expression splits at the blank
      after the street, and its city is the text of the city. */
  lemma AltUsualMatch(t: string, names: seq<string>, n: nat, e: nat, city: string) returns (m: AltMatch)
    requires AltLayout(t, e) && 0 < n < e && !IsSpace(t[n - 1]) && t[n] == ' ' && !IsSpace(t[n + 1])
    requires t[n + 1..e] == city
    requires t[n..e] == " " + city && t[n + 1..e + 1] == city + " "
    requires forall k :: 0 <= k < n ==> !IsLineTerminator(t[k])
    requires exists j :: 0 <= j < |names| && Lower(names[j]) == Lower(city)
    requires NoLongerName(names, city)
    ensures AltFrom(t, names, 0) == Some(m)
    ensures m.streetEnd == n && m.cityStart == n + 1 && m.cityEnd == e && m.stateAt == e + 1
  {
    SplitAfterStreet(t, names, n, e, city);
    forall k | 0 <= k < n ensures !IsLineTerminator(t[k]) && !AltSplit(t, names, k) {
      NoSplitInStreet(t, names, n, e, city, k);
    }
    AltFromFinds(t, names, 0, n);
    MatchAfterStreet(t, names, n, e, city);
    m := AltFrom(t, names, 0).value;
  }

  /** A name at the start of the city that reaches the end of the city, or
      one blank further, ends with the city itself unless it ends with
      the city and a blank. */
  lemma NameEndsWithCity(t: string, q: nat, e: nat, x: string, city: string)
    requires NameAt(t, q, x) && (q + |x| == e || q + |x| == e + 1) && e + 1 <= |t|
    requires t[q..e + 1] == city + " " && !EndsWithLower(x, city + " ")
    ensures q + |x| == e
  {
    if q + |x| == e + 1 {
      SpanEndsWith(t, q, e + 1, x, q, city + " ");
    }
  }

  /** The pieces of `street city IL zip`. */
  lemma AltSlices(street: string, city: string, zip: string, t: string, n: nat, e: nat)
    requires |zip| == 5
    requires t == street + " " + city + " IL " + zip && n == |street| && e == n + 1 + |city|
    ensures |t| == e + 9 && t[..n] == street && t[n] == ' ' && t[n + 1..e] == city
    ensures t[n..e] == " " + city && t[n + 1..e + 1] == city + " "
    ensures t[e] == ' ' && t[e + 1] == 'I' && t[e + 2] == 'L' && t[e + 3] == ' '
    ensures t[e + 1..e + 3] == "IL" && t[|t| - 5..] == zip
  {
  }

  /** The characters of `street city IL zip`, part by part. */
  lemma AltChars(street: string, city: string, zip: string, t: string, n: nat, e: nat)
    requires |zip| == 5
    requires t == street + " " + city + " IL " + zip && n == |street| && e == n + 1 + |city|
    ensures forall k :: 0 <= k < n ==> t[k] == street[k]
    ensures forall k :: n + 1 <= k < e ==> t[k] == city[k - n - 1]
    ensures forall k :: e + 4 <= k < |t| ==> t[k] == zip[k - e - 4]
  {
  }

  /** The layout of `street city IL zip` when neither part holds a comma. */
  lemma AltLayoutOfUsual(street: string, city: string, zip: string, t: string, n: nat, e: nat)
    requires CommaFree(street, 0, |street|) && city != [] && !IsSpace(city[|city| - 1]) && CommaFree(city, 0, |city|)
    requires |zip| == 5 && DigitsIn(zip, 0, 5)
    requires t == street + " " + city + " IL " + zip && n == |street| && e == n + 1 + |city|
    ensures AltLayout(t, e)
  {
    AltSlices(street, city, zip, t, n, e);
    AltChars(street, city, zip, t, n, e);
    forall k | 0 <= k < |t| ensures t[k] != ',' {
      if k < n {
        assert t[k] == street[k];
      } else if n + 1 <= k < e {
        assert t[k] == city[k - n - 1];
      } else if e + 4 <= k {
        assert t[k] == zip[k - e - 4];
      }
    }
  }

  /** The usual form without commas, `street city IL zip` (the street without
      line breaks, both parts without commas or blanks at their ends, the city
      one of `names` in some case, no longer name ending with it, the ZIP five
      digits), parses into its parts. */
  lemma AltUsual(street: string, city: string, zip: string, names: seq<string>)
    requires street != [] && !IsSpace(street[0]) && !IsSpace(street[|street| - 1]) && CommaFree(street, 0, |street|)
    requires forall k :: 0 <= k < |street| ==> !IsLineTerminator(street[k])
    requires city != [] && !IsSpace(city[0]) && !IsSpace(city[|city| - 1]) && CommaFree(city, 0, |city|)
    requires exists j :: 0 <= j < |names| && Lower(names[j]) == Lower(city)
    requires NoLongerName(names, city)
    requires |zip| == 5 && DigitsIn(zip, 0, 5)
    ensures var full := street + " " + city + " IL " + zip;
      AddressIn(Js.Str(full), names) == Address(street, city, "IL", zip, full, None)
  {
    AltUsualAt(street, city, zip, names, street + " " + city + " IL " + zip);
  }

  /** The same, with the text `t` named. */
  lemma AltUsualAt(street: string, city: string, zip: string, names: seq<string>, t: string)
    requires street != [] && !IsSpace(street[0]) && !IsSpace(street[|street| - 1]) && CommaFree(street, 0, |street|)
    requires forall k :: 0 <= k < |street| ==> !IsLineTerminator(street[k])
    requires city != [] && !IsSpace(city[0]) && !IsSpace(city[|city| - 1]) && CommaFree(city, 0, |city|)
    requires exists j :: 0 <= j < |names| && Lower(names[j]) == Lower(city)
    requires NoLongerName(names, city)
    requires |zip| == 5 && DigitsIn(zip, 0, 5)
    requires t == street + " " + city + " IL " + zip
    ensures AddressIn(Js.Str(t), names) == Address(street, city, "IL", zip, t, None)
  {
    UsualTextOf(street, city, zip, t);
    AltUsualOfText(t, street, city, zip, names, |street|, |street| + 1 + |city|);
  }

  /** The same, on a text already taken apart into its pieces. */
  lemma AltUsualOfText(t: string, street: string, city: string, zip: string, names: seq<string>, n: nat, e: nat)
    requires UsualText(t, street, city, zip, n, e)
    requires street != [] && !IsSpace(street[0]) && !IsSpace(street[|street| - 1])
    requires city != [] && !IsSpace(city[0]) && !IsSpace(city[|city| - 1])
    requires exists j :: 0 <= j < |names| && Lower(names[j]) == Lower(city)
    requires NoLongerName(names, city)
    requires |zip| == 5 && DigitsIn(zip, 0, 5)
    ensures AddressIn(Js.Str(t), names) == Address(street, city, "IL", zip, t, None)
  {
    var m := AltUsualMatchOf(t, street, city, zip, names, n, e);
    AltUsualFields(street, city, zip, t, m);
    AltAddressIs(t, names, m, Address(street, city, "IL", zip, t, None));
  }

  /** A trimmed text the strict expression rejects and the alternative one
      matches yields that match's address. */
  lemma AltAddressIs(t: string, names: seq<string>, m: AltMatch, a: Address)
    requires Trim(t) == t && StrictFrom(t, 0).None? && AltFrom(t, names, 0) == Some(m)
    requires FromGroups(AltGroups(t, m), t) == a
    ensures AddressIn(Js.Str(t), names) == a
  {
  }

  /** What the parse needs to know of `street city IL zip`, at the street's end
      `n` and the city's end `e`. */
  predicate UsualText(t: string, street: string, city: string, zip: string, n: nat, e: nat) {
    UsualShape(t, n, e) && UsualParts(t, street, city, zip, n, e)
  }

  /** The blanks around the city, the tail, and a street without line breaks. */
  predicate UsualShape(t: string, n: nat, e: nat) {
    && 0 < n < e && |t| == e + 9 && AltLayout(t, e)
    && !IsSpace(t[n - 1]) && t[n] == ' ' && !IsSpace(t[n + 1])
    && (forall k :: 0 <= k < n ==> !IsLineTerminator(t[k]))
    && Trim(t) == t
  }

  /** Where the parts stand in the text. */
  predicate UsualParts(t: string, street: string, city: string, zip: string, n: nat, e: nat) {
    && n == |street| && n < e && |t| == e + 9
    && t[..n] == street && t[n + 1..e] == city && t[n..e] == " " + city && t[n + 1..e + 1] == city + " "
    && t[e + 1..e + 3] == "IL" && t[|t| - 5..] == zip
  }

  lemma UsualTextOf(street: string, city: string, zip: string, t: string)
    requires street != [] && !IsSpace(street[0]) && !IsSpace(street[|street| - 1]) && CommaFree(street, 0, |street|)
    requires forall k :: 0 <= k < |street| ==> !IsLineTerminator(street[k])
    requires city != [] && !IsSpace(city[0]) && !IsSpace(city[|city| - 1]) && CommaFree(city, 0, |city|)
    requires |zip| == 5 && DigitsIn(zip, 0, 5)
    requires t == street + " " + city + " IL " + zip
    ensures UsualText(t, street, city, zip, |street|, |street| + 1 + |city|)
  {
    var n := |street|;
    var e := n + 1 + |city|;
    AltLayoutOfUsual(street, city, zip, t, n, e);
    AltSlices(street, city, zip, t, n, e);
    StreetUnbroken(street, t);
    assert t[0] == street[0] && t[n - 1] == street[n - 1] && t[n + 1] == city[0] && t[|t| - 1] == zip[4];
    TrimNoop(t);
  }

  /** On such a text the strict expression fails and the alternative one splits
      it at its parts. */
  lemma AltUsualMatchOf(t: string, street: string, city: string, zip: string, names: seq<string>, n: nat, e: nat)
    returns (m: AltMatch)
    requires UsualText(t, street, city, zip, n, e)
    requires exists j :: 0 <= j < |names| && Lower(names[j]) == Lower(city)
    requires NoLongerName(names, city)
    ensures StrictFrom(t, 0).None? && AltFrom(t, names, 0) == Some(m)
    ensures m.streetEnd == n && m.cityStart == n + 1 && m.cityEnd == e && m.stateAt == e + 1
    ensures Trim(t) == t && m.stateAt + 8 == |t|
    ensures t[..m.streetEnd] == street && t[m.cityStart..m.cityEnd] == city
    ensures t[m.stateAt..m.stateAt + 2] == "IL" && t[|t| - 5..] == zip
  {
    StrictFromNoComma(t, 0);
    m := AltUsualMatch(t, names, n, e, city);
  }

  lemma StreetUnbroken(street: string, t: string)
    requires |street| <= |t| && t[..|street|] == street
    requires forall k :: 0 <= k < |street| ==> !IsLineTerminator(street[k])
    ensures forall k :: 0 <= k < |street| ==> !IsLineTerminator(t[k])
  {
    forall k | 0 <= k < |street| ensures !IsLineTerminator(t[k]) {
      assert t[k] == t[..|street|][k];
    }
  }

  /** The groups of that match, trimmed, are the parts themselves. */
  lemma AltUsualFields(street: string, city: string, zip: string, t: string, m: AltMatch)
    requires street != [] && !IsSpace(street[0]) && !IsSpace(street[|street| - 1])
    requires city != [] && !IsSpace(city[0]) && !IsSpace(city[|city| - 1])
    requires |zip| == 5 && DigitsIn(zip, 0, 5)
    requires m.streetEnd <= m.cityStart <= m.cityEnd <= m.stateAt && m.stateAt + 8 == |t|
    requires t[..m.streetEnd] == street && t[m.cityStart..m.cityEnd] == city
    requires t[m.stateAt..m.stateAt + 2] == "IL" && t[|t| - 5..] == zip
    ensures FromGroups(AltGroups(t, m), t) == Address(street, city, "IL", zip, t, None)
  {
    AltFields(t, m, FromGroups(AltGroups(t, m), t));
    TrimNoop(street);
    TrimNoop(city);
    TrimNoop("IL");
    TrimNoop(zip);
  }

  /** One name against both endings `NoLongerName` rules out, checked on at
      most three characters: no blank at its end, and no blank just before the
      city's length or, if there is one, a different first letter after it. */
  predicate ClearOf(x: string, city: string)
    requires city != []
  {
    |x| <= |city| || (x[|x| - 1] != ' ' && (x[|x| - |city| - 1] != ' ' || LowerChar(x[|x| - |city|]) != LowerChar(city[0])))
  }

  /** `ClearOf` for every name from `k` on, name by name. */
  predicate ClearFrom(names: seq<string>, city: string, k: nat)
    requires city != []
    decreases |names| - k
  {
    k >= |names| || (ClearOf(names[k], city) && ClearFrom(names, city, k + 1))
  }

  lemma ClearOfNoLonger(x: string, city: string)
    requires city != [] && ClearOf(x, city)
    ensures !EndsWithLower(x, " " + city) && !EndsWithLower(x, city + " ")
  {
    if |x| > |city| {
      var d := |x| - |city| - 1;
      assert Lower(x[d..])[0] == LowerChar(x[d]) && Lower(x[d..])[1] == LowerChar(x[d + 1]);
      assert Lower(x[d..])[|city|] == LowerChar(x[|x| - 1]);
      assert Lower(" " + city)[0] == ' ' && Lower(" " + city)[1] == LowerChar(city[0]);
      assert Lower(city + " ")[|city|] == ' ';
    }
  }

  lemma {:induction false} ClearFromNoLonger(names: seq<string>, city: string, k: nat)
    requires city != [] && ClearFrom(names, city, k)
    ensures forall i :: k <= i < |names| ==> !EndsWithLower(names[i], " " + city) && !EndsWithLower(names[i], city + " ")
    decreases |names| - k
  {
    if k < |names| {
      ClearOfNoLonger(names[k], city);
      ClearFromNoLonger(names, city, k + 1);
    }
  }

  lemma NoLongerNameConcat(a: seq<string>, b: seq<string>, city: string)
    requires NoLongerName(a, city) && NoLongerName(b, city)
    ensures NoLongerName(a + b, city)
  {
    forall i | 0 <= i < |a + b|
      ensures !EndsWithLower((a + b)[i], " " + city) && !EndsWithLower((a + b)[i], city + " ")
    {
      if i >= |a| {
        assert (a + b)[i] == b[i - |a|];
      }
    }
  }

  lemma ChicagoClearFirstTail()
    ensures ClearFrom(MunicipalitiesFirst, "Chicago", 14)
  {
    assert ClearFrom(MunicipalitiesFirst, "Chicago", 26);
    assert ClearFrom(MunicipalitiesFirst, "Chicago", 23);
    assert ClearFrom(MunicipalitiesFirst, "Chicago", 20);
    assert ClearFrom(MunicipalitiesFirst, "Chicago", 17);
  }

  lemma ChicagoClearFirst()
    ensures ClearFrom(MunicipalitiesFirst, "Chicago", 0)
  {
    ChicagoClearFirstTail();
    assert ClearFrom(MunicipalitiesFirst, "Chicago", 11);
    assert ClearFrom(MunicipalitiesFirst, "Chicago", 8);
    assert ClearFrom(MunicipalitiesFirst, "Chicago", 5);
    assert ClearFrom(MunicipalitiesFirst, "Chicago", 2);
  }

  lemma ChicagoClearSecondTail()
    ensures ClearFrom(MunicipalitiesSecond, "Chicago", 12)
  {
    assert ClearFrom(MunicipalitiesSecond, "Chicago", 24);
    assert ClearFrom(MunicipalitiesSecond, "Chicago", 21);
    assert ClearFrom(MunicipalitiesSecond, "Chicago", 18);
    assert ClearFrom(MunicipalitiesSecond, "Chicago", 15);
  }

  lemma ChicagoClearSecond()
    ensures ClearFrom(MunicipalitiesSecond, "Chicago", 0)
  {
    ChicagoClearSecondTail();
    assert ClearFrom(MunicipalitiesSecond, "Chicago", 9);
    assert ClearFrom(MunicipalitiesSecond, "Chicago", 6);
    assert ClearFrom(MunicipalitiesSecond, "Chicago", 3);
  }

  /** No municipality ends with the word `Chicago`. */
  lemma ChicagoIsNoSuffix()
    ensures NoLongerName(Municipalities, "Chicago")
  {
    ChicagoClearFirst();
    ClearFromNoLonger(MunicipalitiesFirst, "Chicago", 0);
    ChicagoClearSecond();
    ClearFromNoLonger(MunicipalitiesSecond, "Chicago", 0);
    NoLongerNameConcat(MunicipalitiesFirst, MunicipalitiesSecond, "Chicago");
  }

  /** An address without commas: the street ends at the blank before the city. */
  lemma AltUsualExample()
    ensures AddressOf(Js.Str("1200 W Main St Chicago IL 60637")) ==
      Address("1200 W Main St", "Chicago", "IL", "60637", "1200 W Main St Chicago IL 60637", None)
  {
    var street, city, zip := "1200 W Main St", "Chicago", "60637";
    assert street + " " + city + " IL " + zip == "1200 W Main St Chicago IL 60637";
    assert Municipalities[0] == city;
    ChicagoIsNoSuffix();
    AltUsual(street, city, zip, Municipalities);
  }

  // ---------------------------------------------------------------------------
  // The parse as a whole

  /** Every field is trimmed, the full address is the trimmed input (or "" for
      anything but a non-empty string), and the coordinates are unset. */
  lemma AddressFieldsTrimmed(address: Js.Value, names: seq<string>)
    ensures var a := AddressIn(address, names);
      && a.coordinates == None
      && a.fullAddress == (if address.Str? then Trim(address.s) else "")
      && Trim(a.street) == a.street && Trim(a.city) == a.city
      && Trim(a.state) == a.state && Trim(a.zip) == a.zip
  {
    if Js.Truthy(address) && address.Str? {
      var g := GroupsOf(Trim(address.s), names);
      TrimTwice(g.street);
      TrimTwice(g.city);
      TrimTwice(g.state);
      TrimTwice(g.zip);
    } else if address.Str? {
      assert Trim("") == "";
    }
  }

  /** Anything but a non-empty string gives the empty address. */
  lemma AddressOfNonString(address: Js.Value, names: seq<string>)
    requires !address.Str? || address.s == ""
    ensures AddressIn(address, names) == NoAddress
  {
  }

  /** An address that neither expression matches is kept whole as the street. */
  lemma AddressFallback(s: string, names: seq<string>)
    requires s != "" && StrictFrom(Trim(s), 0).None? && AltFrom(Trim(s), names, 0).None?
    ensures AddressIn(Js.Str(s), names) == Address(Trim(s), "", "", "", Trim(s), None)
  {
    TrimTwice(s);
    assert Trim("") == "";
  }
}
