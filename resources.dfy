/** The resource normaliser: how a raw pantry record becomes the resource the
    map and the list show (`pickPrimaryProgram`, `deriveHasDelivery`,
    `deriveRequiresReferral`, `buildDescription`, `normalizeResource`), the
    lookup by id, the questions asked of a resource's hours on a given day, and
    `sortResources`. */
module Resources {
  import opened Wrappers
  import opened Text
  import Js
  import Seqs
  import Sorting
  import Hours
  import Addresses

  // ---------------------------------------------------------------------------
  // Raw records

  /** One entry of a record's `programs`. A text field is `None` when it is
      missing or not a string. */
  datatype Program = Program(
    category: Option<string>,
    notes: Option<string>,
    description: Option<string>,
    phone: Option<string>,
    email: Option<string>,
    contactName: Option<string>,
    regularHours: Js.Value)

  /** A record of the pantry data; `programs` is `None` when it is not an array. */
  datatype RawRecord = RawRecord(
    organizationName: Option<string>,
    address: Js.Value,
    latitude: Js.Value,
    longitude: Js.Value,
    programs: Option<seq<Program>>,
    phone: Option<string>,
    website: Option<string>,
    contactName: Option<string>)

  /** `${t || ""}`: the text, or "" when it is missing or empty. */
  function OrEmpty(t: Option<string>): string {
    if Js.Present(t) then t.value else ""
  }

  // ---------------------------------------------------------------------------
  // The primary program and the derived flags

  /** A program whose category is a string that mentions "pantry" in any case. */
  predicate IsPantry(p: Program) {
    p.category.Some? && Contains(Lower(p.category.value), "pantry")
  }

  /** `pickPrimaryProgram`: the first pantry program, else the first program;
      nothing for a non-array or an empty list. */
  function PickPrimaryProgram(programs: Option<seq<Program>>): (r: Option<Program>)
    ensures r.None? <==> programs.None? || programs.value == []
    ensures r.Some? && (exists k :: 0 <= k < |programs.value| && IsPantry(programs.value[k])) ==>
      exists i :: 0 <= i < |programs.value| && programs.value[i] == r.value && IsPantry(r.value) &&
        forall k :: 0 <= k < i ==> !IsPantry(programs.value[k])
    ensures r.Some? && (forall k :: 0 <= k < |programs.value| ==> !IsPantry(programs.value[k])) ==>
      r.value == programs.value[0]
  {
    if programs.None? || programs.value == [] then None
    else
      var ps := programs.value;
      var i := Seqs.FindIndex(ps, IsPantry, 0);
      Some(if i < |ps| then ps[i] else ps[0])
  }

  /** The category, lower-cased, mentions "delivery". */
  predicate MentionsDelivery(p: Program) {
    Contains(Lower(OrEmpty(p.category)), "delivery")
  }

  /** `deriveHasDelivery`: some program's category mentions "delivery". */
  function DeriveHasDelivery(programs: Option<seq<Program>>): (r: bool)
    ensures r <==> programs.Some? && exists i :: 0 <= i < |programs.value| && MentionsDelivery(programs.value[i])
  {
    programs.Some? && Seqs.FindIndex(programs.value, MentionsDelivery, 0) < |programs.value|
  }

  /** Only a present category can mention "delivery". */
  lemma DeliveryNeedsCategory(p: Program)
    ensures MentionsDelivery(p) <==> Js.Present(p.category) && Contains(Lower(p.category.value), "delivery")
  {
    assert !Contains("", "delivery");
  }

  /** The text `deriveRequiresReferral` searches: the present ones among
      category, notes and description, joined by spaces and lower-cased. */
  function ReferralText(p: Program): string {
    Lower(Join(NonEmpty([OrEmpty(p.category), OrEmpty(p.notes), OrEmpty(p.description)]), " "))
  }

  predicate MentionsReferral(p: Program) {
    Contains(ReferralText(p), "referral")
  }

  /** `deriveRequiresReferral`: `true` when some program mentions "referral",
      otherwise `null`; never `false`. */
  function DeriveRequiresReferral(programs: Option<seq<Program>>): (r: Option<bool>)
    ensures r != Some(false)
    ensures r == Some(true) <==> programs.Some? && exists i :: 0 <= i < |programs.value| && MentionsReferral(programs.value[i])
  {
    if programs.Some? && Seqs.FindIndex(programs.value, MentionsReferral, 0) < |programs.value| then Some(true)
    else None
  }

  /** Joining the fields with spaces neither creates nor hides a mention: a
      program mentions "referral" exactly when one of its three fields does. */
  lemma ReferralInSomeField(p: Program)
    ensures MentionsReferral(p) <==>
      || Contains(Lower(OrEmpty(p.category)), "referral")
      || Contains(Lower(OrEmpty(p.notes)), "referral")
      || Contains(Lower(OrEmpty(p.description)), "referral")
  {
    ContainsJoinedLower([OrEmpty(p.category), OrEmpty(p.notes), OrEmpty(p.description)], "referral");
  }

  // ---------------------------------------------------------------------------
  // The description

  /** `programs.map((p) => p.category).filter(Boolean)`. */
  function CategoryTexts(ps: seq<Program>): seq<string> {
    NonEmpty(Seqs.Map(ps, (p: Program) => OrEmpty(p.category)))
  }

  /** `Array.from(new Set(...))` of the categories. */
  function UniqueCategories(ps: seq<Program>): seq<string> {
    Seqs.Distinct(CategoryTexts(ps))
  }

  const Bullet: string := " \U{2022} "

  /** `buildDescription`. */
  function BuildDescription(organizationName: string, programs: Option<seq<Program>>): (r: string)
    ensures r == "" <==> programs.None? || forall p :: p in programs.value ==> !Js.Present(p.category)
    ensures r != "" ==> r == organizationName + " offers: " + Join(UniqueCategories(programs.value), Bullet) + "."
  {
    if programs.None? || |programs.value| == 0 then ""
    else
      var categoriesText := Join(UniqueCategories(programs.value), Bullet);
      CategoriesEmptyIff(programs.value);
      if categoriesText == "" then "" else organizationName + " offers: " + categoriesText + "."
  }

  /** The joined categories are empty exactly when no program has a category. */
  lemma CategoriesEmptyIff(ps: seq<Program>)
    ensures Join(UniqueCategories(ps), Bullet) == "" <==> forall p :: p in ps ==> !Js.Present(p.category)
  {
    var u := UniqueCategories(ps);
    Seqs.DistinctMembers(CategoryTexts(ps));
    if u != [] {
      assert u[0] in u;
      UniqueCategoriesAre(ps, u[0]);
      JoinNonEmpty(u, Bullet);
    }
    forall p | p in ps && Js.Present(p.category) ensures u != [] {
      UniqueCategoriesAre(ps, p.category.value);
    }
  }

  /** A joined list of non-empty parts is non-empty. */
  lemma JoinNonEmpty(parts: seq<string>, sep: string)
    requires parts != [] && parts[0] != ""
    ensures Join(parts, sep) != ""
  {
  }

  /** The categories listed are exactly the present categories. */
  lemma UniqueCategoriesAre(ps: seq<Program>, c: string)
    ensures c in UniqueCategories(ps) <==> c != "" && exists p :: p in ps && p.category == Some(c)
  {
    var texts := Seqs.Map(ps, (p: Program) => OrEmpty(p.category));
    Seqs.DistinctMembers(CategoryTexts(ps));
    NonEmptyMember(texts, c);
    Seqs.MapMember(ps, (p: Program) => OrEmpty(p.category), c);
  }

  /** Each category is listed once, in the order of its first program. */
  lemma UniqueCategoriesOrder(ps: seq<Program>, i: nat, j: nat)
    requires i < j < |UniqueCategories(ps)|
    ensures var u := UniqueCategories(ps); var texts := CategoryTexts(ps);
      u[i] != u[j] && u[i] in texts && u[j] in texts &&
      Seqs.FirstIndex(texts, u[i]) < Seqs.FirstIndex(texts, u[j])
  {
    Seqs.DistinctMembers(CategoryTexts(ps));
    Seqs.DistinctOrder(CategoryTexts(ps), i, j);
  }

  // ---------------------------------------------------------------------------
  // The id

  predicate IsSlugChar(c: char) {
    'a' <= c <= 'z' || '0' <= c <= '9'
  }

  /** `.replace(/[^a-z0-9]+/g, "-")`: every run of other characters becomes one hyphen. */
  function Dashed(s: string): string {
    if s == [] then []
    else
      var init, c := s[..|s| - 1], s[|s| - 1];
      if IsSlugChar(c) then Dashed(init) + [c]
      else if init != [] && !IsSlugChar(init[|init| - 1]) then Dashed(init)
      else Dashed(init) + "-"
  }

  /** `.replace(/^-+|-+$/g, "")`, the leading run. */
  function DropLeadingHyphens(s: string): (r: string)
    ensures |r| <= |s| && r == s[|s| - |r|..]
    ensures forall k :: 0 <= k < |s| - |r| ==> s[k] == '-'
    ensures r != [] ==> r[0] != '-'
  {
    if s != [] && s[0] == '-' then DropLeadingHyphens(s[1..]) else s
  }

  /** `.replace(/^-+|-+$/g, "")`, the trailing run. */
  function DropTrailingHyphens(s: string): (r: string)
    ensures |r| <= |s| && r == s[..|r|]
    ensures forall k :: |r| <= k < |s| ==> s[k] == '-'
    ensures r != [] ==> r[|r| - 1] != '-'
  {
    if s != [] && s[|s| - 1] == '-' then DropTrailingHyphens(s[..|s| - 1]) else s
  }

  /** The slug of a name. */
  function Slug(name: string): string {
    DropTrailingHyphens(DropLeadingHyphens(Dashed(Lower(name))))
  }

  /** Only `[a-z0-9-]`, with no hyphen at either end and no two hyphens in a row. */
  predicate SlugShape(s: string) {
    && (forall k :: 0 <= k < |s| ==> IsSlugChar(s[k]) || s[k] == '-')
    && (s != [] ==> s[0] != '-' && s[|s| - 1] != '-')
    && (forall k :: 0 <= k < |s| - 1 ==> !(s[k] == '-' && s[k + 1] == '-'))
  }

  /** Only letters, digits and hyphens, never two hyphens in a row. */
  predicate HyphenShape(d: string) {
    && (forall k :: 0 <= k < |d| ==> IsSlugChar(d[k]) || d[k] == '-')
    && (forall k :: 0 <= k < |d| - 1 ==> !(d[k] == '-' && d[k + 1] == '-'))
  }

  /** Hyphenation writes nothing but letters, digits and single hyphens, and
      ends as its input does. */
  lemma {:induction false} DashedShape(s: string)
    ensures HyphenShape(Dashed(s))
    ensures s != [] ==> Dashed(s) != [] && Dashed(s)[|Dashed(s)| - 1] == (if IsSlugChar(s[|s| - 1]) then s[|s| - 1] else '-')
  {
    if s != [] {
      DashedShape(s[..|s| - 1]);
    }
  }

  /** Hyphenation keeps the letters and digits, in order. */
  lemma {:induction false} DashedLetters(s: string)
    ensures Seqs.Filter(Dashed(s), IsSlugChar) == Seqs.Filter(s, IsSlugChar)
  {
    if s != [] {
      var init, c := s[..|s| - 1], s[|s| - 1];
      DashedLetters(init);
      var di := Dashed(init);
      assert s == init + [c];
      Seqs.FilterConcat(init, [c], IsSlugChar);
      assert Seqs.Filter([c], IsSlugChar) == Seqs.Filter([], IsSlugChar) + (if IsSlugChar(c) then [c] else []);
      if IsSlugChar(c) {
        Seqs.FilterConcat(di, [c], IsSlugChar);
      } else if !(init != [] && !IsSlugChar(init[|init| - 1])) {
        Seqs.FilterConcat(di, "-", IsSlugChar);
        assert Seqs.Filter("-", IsSlugChar) == Seqs.Filter([], IsSlugChar) + [];
      }
    }
  }

  /** Hyphens around a text do not change its letters and digits. */
  lemma DropHyphensKeepsLetters(a: string, r: string, b: string)
    requires (forall k :: 0 <= k < |a| ==> a[k] == '-') && (forall k :: 0 <= k < |b| ==> b[k] == '-')
    ensures Seqs.Filter(a + r + b, IsSlugChar) == Seqs.Filter(r, IsSlugChar)
  {
    NoLetters(a);
    NoLetters(b);
    Seqs.FilterConcat(a + r, b, IsSlugChar);
    Seqs.FilterConcat(a, r, IsSlugChar);
  }

  lemma {:induction false} NoLetters(a: string)
    requires forall k :: 0 <= k < |a| ==> a[k] == '-'
    ensures Seqs.Filter(a, IsSlugChar) == []
  {
    if a != [] {
      NoLetters(a[..|a| - 1]);
    }
  }

  /** Cutting the hyphens off both ends of a hyphen-shaped text leaves the slug
      shape and the same letters and digits. */
  lemma TrimHyphens(d: string)
    requires HyphenShape(d)
    ensures SlugShape(DropTrailingHyphens(DropLeadingHyphens(d)))
    ensures Seqs.Filter(DropTrailingHyphens(DropLeadingHyphens(d)), IsSlugChar) == Seqs.Filter(d, IsSlugChar)
  {
    TrimShape(d);
    TrimLetters(d);
  }

  lemma TrimShape(d: string)
    requires HyphenShape(d)
    ensures SlugShape(DropTrailingHyphens(DropLeadingHyphens(d)))
  {
    var l := DropLeadingHyphens(d);
    var r := DropTrailingHyphens(l);
    TrimParts(d, l, r);
    SliceShape(d, |d| - |l|, |d| - |l| + |r|);
    if r != [] {
      assert r[0] == l[0];
    }
  }

  lemma TrimLetters(d: string)
    ensures Seqs.Filter(DropTrailingHyphens(DropLeadingHyphens(d)), IsSlugChar) == Seqs.Filter(d, IsSlugChar)
  {
    var l := DropLeadingHyphens(d);
    var r := DropTrailingHyphens(l);
    TrimParts(d, l, r);
    DropHyphensKeepsLetters(d[..|d| - |l|], r, d[|d| - |l| + |r|..]);
  }

  /** Where the text left by the two cuts sits in the original, and that only
      hyphens were cut. */
  lemma TrimParts(d: string, l: string, r: string)
    requires |l| <= |d| && l == d[|d| - |l|..] && (forall k :: 0 <= k < |d| - |l| ==> d[k] == '-')
    requires |r| <= |l| && r == l[..|r|] && (forall k :: |r| <= k < |l| ==> l[k] == '-')
    ensures var i, j := |d| - |l|, |d| - |l| + |r|;
      && r == d[i..j] && d == d[..i] + r + d[j..]
      && (forall k :: 0 <= k < |d[..i]| ==> d[..i][k] == '-')
      && (forall k :: 0 <= k < |d[j..]| ==> d[j..][k] == '-')
  {
    var i, j := |d| - |l|, |d| - |l| + |r|;
    assert r == d[i..j];
    forall k | 0 <= k < |d[j..]| ensures d[j..][k] == '-' {
      assert d[j..][k] == l[|r| + k];
    }
  }

  /** A piece of a hyphen-shaped text is hyphen-shaped. */
  lemma SliceShape(d: string, i: nat, j: nat)
    requires HyphenShape(d) && i <= j <= |d|
    ensures HyphenShape(d[i..j])
  {
    var r := d[i..j];
    forall k | 0 <= k < |r| ensures IsSlugChar(r[k]) || r[k] == '-' {
      assert r[k] == d[i + k];
    }
    forall k | 0 <= k < |r| - 1 ensures !(r[k] == '-' && r[k + 1] == '-') {
      assert r[k] == d[i + k] && r[k + 1] == d[i + k + 1];
    }
  }

  /** The slug has the slug shape and holds the letters and digits of the
      lower-cased name, in order. */
  lemma SlugIsClean(name: string)
    ensures SlugShape(Slug(name))
    ensures Seqs.Filter(Slug(name), IsSlugChar) == Seqs.Filter(Lower(name), IsSlugChar)
  {
    DashedShape(Lower(name));
    DashedLetters(Lower(name));
    TrimHyphens(Dashed(Lower(name)));
  }

  const IdPrefix: string := "org-"

  /** `org-<index>-<slug>`. */
  function Id(index: nat, name: string): (id: string)
    ensures |id| > |IdPrefix| + 1
  {
    IdPrefix + NatToString(index) + "-" + Slug(name)
  }

  /** The hyphen after the index ends the index: two ids name the same index
      only if they start with the same index. */
  lemma IdIndex(i: nat, j: nat, a: string, b: string)
    requires Id(i, a) == Id(j, b)
    ensures i == j
  {
    HyphenEndsDigits(IdPrefix, NatToString(i), Slug(a), NatToString(j), Slug(b));
    NatToStringInjective(i, j);
  }

  /** In `p + u + "-" + x`, a run of digits `u` ends at the hyphen. */
  lemma HyphenEndsDigits(p: string, u: string, x: string, v: string, y: string)
    requires p + u + "-" + x == p + v + "-" + y
    requires DigitsIn(u, 0, |u|) && DigitsIn(v, 0, |v|)
    ensures u == v
  {
    var s, t := p + u + "-" + x, p + v + "-" + y;
    assert t[|p| + |u|] == '-' && s[|p| + |v|] == '-';
    assert forall k :: 0 <= k < |u| ==> s[|p| + k] == u[k];
    assert forall k :: 0 <= k < |v| ==> t[|p| + k] == v[k];
    assert |u| == |v|;
    assert u == s[|p|..|p| + |u|] && v == t[|p|..|p| + |v|];
  }

  // ---------------------------------------------------------------------------
  // The normalised resource

  datatype Contact = Contact(phone: Option<string>, email: Option<string>, website: Option<string>,
                             contactName: Option<string>)

  /** A resource as the directory shows it; `resourceType` is the source's `type`. */
  datatype Resource = Resource(
    id: string,
    name: string,
    resourceType: string,
    description: string,
    address: Addresses.Address,
    hours: Option<Hours.Week>,
    requiresReferral: Option<bool>,
    hasDelivery: bool,
    contact: Contact)

  const FoodPantry: string := "food_pantry"

  /** `raw.organization_name || "Unknown"`. */
  function NameOf(raw: RawRecord): string {
    if Js.Present(raw.organizationName) then raw.organizationName.value else "Unknown"
  }

  /** `[longitude, latitude]` when both are finite numbers. */
  function CoordinatesOf(raw: RawRecord): Option<Addresses.Coordinates> {
    if Js.IsFiniteNumber(raw.latitude) && Js.IsFiniteNumber(raw.longitude)
    then Some(Addresses.Coordinates(raw.longitude.n.value, raw.latitude.n.value))
    else None
  }

  /** `Array.isArray(raw.programs) ? raw.programs : []`. */
  function ProgramsOf(raw: RawRecord): seq<Program> {
    if raw.programs.Some? then raw.programs.value else []
  }

  /** `primaryProgram?.field`. */
  function FieldOf(primary: Option<Program>, field: Program -> Option<string>): Option<string> {
    if primary.Some? then field(primary.value) else None
  }

  /** What `normalizeResource(raw, index)` returns. */
  function Normalized(raw: RawRecord, index: nat): Resource {
    var name := NameOf(raw);
    var parsed := Addresses.AddressOf(raw.address);
    var address := if CoordinatesOf(raw).Some? then parsed.(coordinates := CoordinatesOf(raw)) else parsed;
    var programs := ProgramsOf(raw);
    var primary := PickPrimaryProgram(Some(programs));
    var regularHours := if primary.Some? then primary.value.regularHours else Js.Undefined;
    Resource(
      Id(index, name), name, FoodPantry, BuildDescription(name, Some(programs)), address,
      Hours.WeeklyHours(regularHours), DeriveRequiresReferral(Some(programs)), DeriveHasDelivery(Some(programs)),
      Contact(
        Js.Or(raw.phone, FieldOf(primary, (p: Program) => p.phone)),
        Js.Or(FieldOf(primary, (p: Program) => p.email), None),
        Js.Or(raw.website, None),
        Js.Or(raw.contactName, FieldOf(primary, (p: Program) => p.contactName))))
  }

  /** `normalizeResource`: the address is parsed, then its coordinates patched. */
  method NormalizeResource(raw: RawRecord, index: nat) returns (r: Resource)
    ensures r == Normalized(raw, index)
  {
    var name := if Js.Present(raw.organizationName) then raw.organizationName.value else "Unknown";
    var address := Addresses.ParseAddress(raw.address);
    if Js.IsFiniteNumber(raw.latitude) && Js.IsFiniteNumber(raw.longitude) {
      address := address.(coordinates := Some(Addresses.Coordinates(raw.longitude.n.value, raw.latitude.n.value)));
    }
    var programs := if raw.programs.Some? then raw.programs.value else [];
    var primaryProgram := PickPrimaryProgram(Some(programs));
    var regularHours := if primaryProgram.Some? then primaryProgram.value.regularHours else Js.Undefined;
    var hours := Hours.BuildWeeklyHours(regularHours);
    var hasDelivery := DeriveHasDelivery(Some(programs));
    var requiresReferral := DeriveRequiresReferral(Some(programs));
    var idSafe := IdPrefix + NatToString(index) + "-" + Slug(name);
    var primaryPhone := if primaryProgram.Some? then primaryProgram.value.phone else None;
    var primaryEmail := if primaryProgram.Some? then primaryProgram.value.email else None;
    var primaryContact := if primaryProgram.Some? then primaryProgram.value.contactName else None;
    r := Resource(
      idSafe, name, FoodPantry, BuildDescription(name, Some(programs)), address, hours,
      requiresReferral, hasDelivery,
      Contact(Js.Or(raw.phone, primaryPhone), Js.Or(primaryEmail, None), Js.Or(raw.website, None),
              Js.Or(raw.contactName, primaryContact)));
  }

  /** The id, name and type of a normalised resource. */
  lemma NormalizedIdentity(raw: RawRecord, index: nat)
    ensures var r := Normalized(raw, index);
      && r.id == "org-" + NatToString(index) + "-" + Slug(r.name) && SlugShape(Slug(r.name))
      && r.name != ""
      && (Js.Present(raw.organizationName) ==> r.name == raw.organizationName.value)
      && (!Js.Present(raw.organizationName) ==> r.name == "Unknown")
      && r.resourceType == "food_pantry"
  {
    SlugIsClean(NameOf(raw));
  }

  /** The address is the parsed address, with coordinates exactly when the
      record carries two finite numbers, as `[longitude, latitude]`. */
  lemma NormalizedAddress(raw: RawRecord, index: nat)
    ensures var a := Normalized(raw, index).address;
      && a.(coordinates := None) == Addresses.AddressOf(raw.address)
      && (a.coordinates.Some? <==> Js.IsFiniteNumber(raw.latitude) && Js.IsFiniteNumber(raw.longitude))
      && (a.coordinates.Some? ==>
            a.coordinates.value == Addresses.Coordinates(raw.longitude.n.value, raw.latitude.n.value))
  {
    Addresses.AddressFieldsTrimmed(raw.address, Addresses.Municipalities);
  }

  /** Contact precedence: the record's phone before the primary program's, the
      email from the primary program only, the website from the record only. */
  lemma NormalizedContact(raw: RawRecord, index: nat)
    ensures var c := Normalized(raw, index).contact; var primary := PickPrimaryProgram(Some(ProgramsOf(raw)));
      && (Js.Present(raw.phone) ==> c.phone == raw.phone)
      && (!Js.Present(raw.phone) && primary.Some? && Js.Present(primary.value.phone) ==> c.phone == primary.value.phone)
      && (!Js.Present(raw.phone) && (primary.None? || !Js.Present(primary.value.phone)) ==> c.phone == None)
      && (c.email == if primary.Some? && Js.Present(primary.value.email) then primary.value.email else None)
      && (c.website == if Js.Present(raw.website) then raw.website else None)
      && (Js.Present(raw.contactName) ==> c.contactName == raw.contactName)
      && (!Js.Present(raw.contactName) && primary.Some? && Js.Present(primary.value.contactName) ==>
            c.contactName == primary.value.contactName)
      && (!Js.Present(raw.contactName) && (primary.None? || !Js.Present(primary.value.contactName)) ==>
            c.contactName == None)
  {
  }

  /** `rawFoodPantries.map(normalizeResource)`: each record with its position. */
  function NormalizeAll(raws: seq<RawRecord>): (r: seq<Resource>)
    ensures |r| == |raws| && forall i :: 0 <= i < |raws| ==> r[i] == Normalized(raws[i], i)
  {
    seq(|raws|, i requires 0 <= i < |raws| => Normalized(raws[i], i))
  }

  /** No two resources of the directory share an id. */
  lemma NormalizeAllIdsDistinct(raws: seq<RawRecord>, i: nat, j: nat)
    requires i < j < |raws|
    ensures NormalizeAll(raws)[i].id != NormalizeAll(raws)[j].id
  {
    if NormalizeAll(raws)[i].id == NormalizeAll(raws)[j].id {
      IdIndex(i, j, NameOf(raws[i]), NameOf(raws[j]));
    }
  }

  // ---------------------------------------------------------------------------
  // Lookup by id

  /** `getResourceById`: the first resource with the id; nothing for an empty id. */
  function GetResourceById(resources: seq<Resource>, id: Option<string>): (r: Option<Resource>)
    ensures r.None? <==> !Js.Present(id) || forall k :: 0 <= k < |resources| ==> resources[k].id != id.value
    ensures r.Some? ==> exists i :: 0 <= i < |resources| && resources[i] == r.value && r.value.id == id.value &&
                                  forall k :: 0 <= k < i ==> resources[k].id != id.value
  {
    if !Js.Present(id) then None
    else
      var i := Seqs.FindIndex(resources, (x: Resource) => x.id == id.value, 0);
      if i < |resources| then Some(resources[i]) else None
  }

  /** No two resources share an id. */
  predicate UniqueIds(resources: seq<Resource>) {
    forall k, l :: 0 <= k < l < |resources| ==> resources[k].id != resources[l].id
  }

  /** Among resources with unique ids, looking up a non-empty id of one finds that one. */
  lemma GetByUniqueId(resources: seq<Resource>, i: nat)
    requires i < |resources| && UniqueIds(resources) && resources[i].id != ""
    ensures GetResourceById(resources, Some(resources[i].id)) == Some(resources[i])
  {
    var r := GetResourceById(resources, Some(resources[i].id));
    var k :| 0 <= k < |resources| && resources[k] == r.value && r.value.id == resources[i].id &&
             forall m :: 0 <= m < k ==> resources[m].id != resources[i].id;
  }

  /** The ids of the directory are unique. */
  lemma NormalizeAllUnique(raws: seq<RawRecord>)
    ensures UniqueIds(NormalizeAll(raws))
  {
    forall k, l | 0 <= k < l < |raws| ensures NormalizeAll(raws)[k].id != NormalizeAll(raws)[l].id {
      NormalizeAllIdsDistinct(raws, k, l);
    }
  }

  /** Looking up the id of a record of the directory finds that record. */
  lemma GetNormalizedById(raws: seq<RawRecord>, i: nat)
    requires i < |raws|
    ensures GetResourceById(NormalizeAll(raws), Some(NormalizeAll(raws)[i].id)) == Some(NormalizeAll(raws)[i])
  {
    var all := NormalizeAll(raws);
    NormalizeAllUnique(raws);
    assert all[i].id == Id(i, NameOf(raws[i]));
    GetByUniqueId(all, i);
  }

  // ---------------------------------------------------------------------------
  // The day queries; the weekday and the minute of the day are parameters

  /** `resource.hours[dayName]`, or nothing when there are no hours. */
  function DayHours(resource: Option<Resource>, today: Hours.Weekday): Option<Hours.DayWindow> {
    if resource.Some? && resource.value.hours.Some? && today in resource.value.hours.value
    then resource.value.hours.value[today]
    else None
  }

  /** `hasHoursToday`. */
  predicate HasHoursToday(resource: Option<Resource>, today: Hours.Weekday) {
    DayHours(resource, today).Some? && DayHours(resource, today).value.isOpen
  }

  /** The regular hours `normalizeResource` hands to `buildWeeklyHours`: the
      primary program's, or nothing. */
  function PrimaryHours(raw: RawRecord): Js.Value {
    var primary := PickPrimaryProgram(Some(ProgramsOf(raw)));
    if primary.Some? then primary.value.regularHours else Js.Undefined
  }

  lemma NormalizedHours(raw: RawRecord, index: nat)
    ensures Normalized(raw, index).hours == Hours.WeeklyHours(PrimaryHours(raw))
  {
  }

  /** A resource whose hours were built from `rh` has hours today exactly when
      `rh` is truthy and holds a line that parses and names today; the window is
      then the one of the last such line. */
  lemma HasHoursTodayOf(resource: Resource, rh: Js.Value, today: Hours.Weekday)
    requires resource.hours == Hours.WeeklyHours(rh)
    ensures HasHoursToday(Some(resource), today) <==>
      (Js.Truthy(rh) && exists i :: 0 <= i < |Hours.LinesOf(rh)| && Hours.NamesDay(Hours.ParseHoursLine(Hours.LinesOf(rh)[i]), today))
    ensures HasHoursToday(Some(resource), today) ==>
      DayHours(Some(resource), today) == Hours.LastWindow(Hours.ParseAll(Hours.LinesOf(rh)), today)
  {
    var w := Hours.WeeklyHours(rh);
    assert DayHours(Some(resource), today) == if w.Some? && today in w.value then w.value[today] else None;
    Hours.WeeklyHoursOpenOn(rh, today);
    Hours.WeeklyHoursLastWins(rh, today);
  }

  /** A normalised resource has hours today exactly when its primary program's
      regular hours are truthy and hold a line that parses and names today; the
      window is then the one of the last such line. */
  lemma HasHoursTodayOfNormalized(raw: RawRecord, index: nat, today: Hours.Weekday)
    ensures var rh := PrimaryHours(raw);
      HasHoursToday(Some(Normalized(raw, index)), today) <==>
        (Js.Truthy(rh) && exists i :: 0 <= i < |Hours.LinesOf(rh)| && Hours.NamesDay(Hours.ParseHoursLine(Hours.LinesOf(rh)[i]), today))
    ensures var rh := PrimaryHours(raw);
      HasHoursToday(Some(Normalized(raw, index)), today) ==>
        DayHours(Some(Normalized(raw, index)), today) == Hours.LastWindow(Hours.ParseAll(Hours.LinesOf(rh)), today)
  {
    NormalizedHours(raw, index);
    HasHoursTodayOf(Normalized(raw, index), PrimaryHours(raw), today);
  }

  /** The number of digits from position `i` on. */
  function DigitRun(s: string, i: nat): (n: nat)
    requires i <= |s|
    ensures i + n <= |s| && DigitsIn(s, i, i + n) && (i + n < |s| ==> !IsDigit(s[i + n]))
    decreases |s| - i
  {
    if i < |s| && IsDigit(s[i]) then 1 + DigitRun(s, i + 1) else 0
  }

  /** `clock.split(":").map(Number)` read as `h * 60 + m`: the first two fields
      between colons, each a run of digits (an empty field reads 0); nothing
      (NaN) when there is no colon or a field holds anything else. */
  function ClockMinutes(clock: string): Option<nat> {
    var k := DigitRun(clock, 0);
    if k < |clock| && clock[k] == ':' then
      var j := k + 1 + DigitRun(clock, k + 1);
      if j == |clock| || clock[j] == ':' then Some(60 * ValueIn(clock, 0, k) + ValueIn(clock, k + 1, j))
      else None
    else None
  }

  /** `isOpenNow`: open today, and `now` between the opening and the closing
      minute, both included. */
  function IsOpenNow(resource: Option<Resource>, today: Hours.Weekday, now: nat): (r: bool)
    ensures r <==> (HasHoursToday(resource, today) &&
      var w := DayHours(resource, today).value;
      exists o, c :: ClockMinutes(w.open) == Some(o) && ClockMinutes(w.close) == Some(c) && o <= now <= c)
  {
    if !HasHoursToday(resource, today) then false
    else
      var w := DayHours(resource, today).value;
      var o, c := ClockMinutes(w.open), ClockMinutes(w.close);
      o.Some? && c.Some? && o.value <= now && now <= c.value
  }

  const EnDash: string := " \U{2013} "

  /** `getHoursToday`: "<open> – <close>" when open today, otherwise nothing. */
  function GetHoursToday(resource: Option<Resource>, today: Hours.Weekday): (r: Option<string>)
    ensures r.Some? <==> HasHoursToday(resource, today)
    ensures r.Some? ==> r.value == DayHours(resource, today).value.open + EnDash + DayHours(resource, today).value.close
  {
    if HasHoursToday(resource, today) then
      var w := DayHours(resource, today).value;
      Some(w.open + EnDash + w.close)
    else None
  }

  /** Leading zeros do not change a value. */
  lemma Pad2Value(s: string)
    requires DigitsIn(s, 0, |s|)
    ensures DigitsIn(Pad2(s), 0, |Pad2(s)|) && ValueIn(Pad2(s), 0, |Pad2(s)|) == ValueIn(s, 0, |s|)
  {
    var p := Pad2(s);
    if |s| == 1 {
      assert ValueIn(p, 0, 1) == 0;
    } else if |s| == 0 {
      assert ValueIn(p, 0, 1) == 0;
    }
  }

  /** A clock of digits, one colon and digits reads as its minute of the day. */
  lemma ClockMinutesAt(s: string, k: nat)
    requires k < |s| && DigitsIn(s, 0, k) && s[k] == ':' && DigitsIn(s, k + 1, |s|)
    ensures ClockMinutes(s) == Some(60 * ValueIn(s, 0, k) + ValueIn(s, k + 1, |s|))
  {
    DigitRunIs(s, 0, k);
    DigitRunIs(s, k + 1, |s| - k - 1);
  }

  /** The minutes of `h:m`, where both are digit strings. */
  lemma ClockMinutesOf(h: string, m: string)
    requires DigitsIn(h, 0, |h|) && DigitsIn(m, 0, |m|)
    ensures ClockMinutes(h + ":" + m) == Some(60 * ValueIn(h, 0, |h|) + ValueIn(m, 0, |m|))
  {
    ClockParts(h, m);
    ClockMinutesAt(h + ":" + m, |h|);
  }

  /** `h:m` holds the digits of `h`, a colon, and the digits of `m`. */
  lemma ClockParts(h: string, m: string)
    requires DigitsIn(h, 0, |h|) && DigitsIn(m, 0, |m|)
    ensures var s := h + ":" + m;
      && |s| == |h| + 1 + |m| && DigitsIn(s, 0, |h|) && s[|h|] == ':' && DigitsIn(s, |h| + 1, |s|)
      && ValueIn(s, 0, |h|) == ValueIn(h, 0, |h|) && ValueIn(s, |h| + 1, |s|) == ValueIn(m, 0, |m|)
  {
    var s := h + ":" + m;
    var k := |h|;
    assert s[..k] == s[0..k] == h && s[k + 1..|s|] == m;
    ValueInSlice(s, 0, k);
    ValueInSlice(s, k + 1, |s|);
  }

  lemma {:induction false} DigitRunIs(s: string, i: nat, n: nat)
    requires i + n <= |s| && DigitsIn(s, i, i + n) && (i + n < |s| ==> !IsDigit(s[i + n]))
    ensures DigitRun(s, i) == n
    decreases n
  {
    if n > 0 {
      DigitRunIs(s, i + 1, n - 1);
    }
  }

  /** A time the hours parser writes, `HH:MM`, reads back as its minute of the day. */
  lemma ClockMinutesOfClock24(s: string, i: nat, sp: Hours.ClockSpan)
    requires Hours.ClockLayout(s, i, sp)
    ensures ClockMinutes(Hours.Clock24(s, i, sp)) ==
      Some(60 * Hours.Hour24(ValueIn(s, i, sp.hourEnd), Hours.IsPmAt(s, sp.markerAt)) + ValueIn(s, sp.hourEnd + 1, sp.hourEnd + 3))
  {
    var h := Pad2(NatToString(Hours.Hour24(ValueIn(s, i, sp.hourEnd), Hours.IsPmAt(s, sp.markerAt))));
    var m := s[sp.hourEnd + 1..sp.hourEnd + 3];
    Pad2Value(NatToString(Hours.Hour24(ValueIn(s, i, sp.hourEnd), Hours.IsPmAt(s, sp.markerAt))));
    ValueOfNatToString(Hours.Hour24(ValueIn(s, i, sp.hourEnd), Hours.IsPmAt(s, sp.markerAt)));
    MinuteDigits(s, sp.hourEnd + 1);
    ClockMinutesOf(h, m);
    SameMinutes(60 * ValueIn(h, 0, |h|) + ValueIn(m, 0, |m|),
      60 * Hours.Hour24(ValueIn(s, i, sp.hourEnd), Hours.IsPmAt(s, sp.markerAt)) + ValueIn(s, sp.hourEnd + 1, sp.hourEnd + 3));
    SameClock(Hours.Clock24(s, i, sp), h + ":" + m,
      60 * Hours.Hour24(ValueIn(s, i, sp.hourEnd), Hours.IsPmAt(s, sp.markerAt)) + ValueIn(s, sp.hourEnd + 1, sp.hourEnd + 3));
  }

  lemma SameMinutes(x: nat, y: nat)
    requires x == y
    ensures Some(x) == Some(y)
  {
  }

  lemma SameClock(c: string, x: string, a: nat)
    requires c == x && ClockMinutes(x) == Some(a)
    ensures ClockMinutes(c) == Some(a)
  {
  }

  /** Two digits of `s` at `a`, cut out, keep their value. */
  lemma MinuteDigits(s: string, a: nat)
    requires a + 2 <= |s| && IsDigit(s[a]) && IsDigit(s[a + 1])
    ensures DigitsIn(s[a..a + 2], 0, 2) && ValueIn(s[a..a + 2], 0, 2) == ValueIn(s, a, a + 2)
  {
    ValueInShift(s, a, a + 2, s[a..a + 2], 0);
  }

  // ---------------------------------------------------------------------------
  // Sorting by name; `localeCompare` is the abstract order `nameLe`

  /** `(a.name || "").localeCompare(b.name || "") <= 0`. */
  function ByName(nameLe: (string, string) -> bool): (Resource, Resource) -> bool {
    (x: Resource, y: Resource) => nameLe(x.name, y.name)
  }

  /** `sortResources`: a sorted copy when `sortBy` is "name" or absent,
      otherwise a plain copy. */
  method SortResources(resources: seq<Resource>, sortBy: Option<string>, nameLe: (string, string) -> bool)
    returns (r: seq<Resource>)
    ensures r == if sortBy.None? || sortBy.value == "name" then Sorting.StableSort(resources, ByName(nameLe)) else resources
  {
    var key := if sortBy.Some? then sortBy.value else "name";
    var copy := new Resource[|resources|](i requires 0 <= i < |resources| => resources[i]);
    assert copy[..] == resources;
    if key == "name" {
      Sorting.InsertionSort(copy, ByName(nameLe));
    }
    r := copy[..];
  }

  /** A total preorder on names orders the resources totally. */
  lemma ByNameTotal(nameLe: (string, string) -> bool)
    requires Sorting.TotalPreorder(nameLe)
    ensures Sorting.TotalPreorder(ByName(nameLe))
  {
    var le := ByName(nameLe);
    forall x, y, z | le(x, y) && le(y, z) ensures le(x, z) {
      assert nameLe(x.name, y.name) && nameLe(y.name, z.name);
    }
    forall x, y ensures le(x, y) || le(y, x) {
      assert nameLe(x.name, y.name) || nameLe(y.name, x.name);
    }
  }

  /** The sorted copy holds the same resources, ordered by name, with equal
      names in their original order. */
  lemma SortedByName(resources: seq<Resource>, nameLe: (string, string) -> bool, e: Resource)
    requires Sorting.TotalPreorder(nameLe)
    ensures var s := Sorting.StableSort(resources, ByName(nameLe));
      && multiset(s) == multiset(resources)
      && (forall i, j :: 0 <= i < j < |s| ==> nameLe(s[i].name, s[j].name))
      && Sorting.TiedWith(s, e, ByName(nameLe)) == Sorting.TiedWith(resources, e, ByName(nameLe))
  {
    ByNameTotal(nameLe);
    Sorting.StableSortPermutes(resources, ByName(nameLe));
    Sorting.StableSortSorted(resources, ByName(nameLe));
    Sorting.StableSortKeepsTies(resources, e, ByName(nameLe));
    var s := Sorting.StableSort(resources, ByName(nameLe));
    forall i, j | 0 <= i < j < |s| ensures nameLe(s[i].name, s[j].name) {
      assert ByName(nameLe)(s[i], s[j]);
    }
  }
}
