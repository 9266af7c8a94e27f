# Food pantry directory — a Dafny model of its data layer

The directory shows the food pantries of the Chicago area on a map and in a
list. Its data layer reads the pantries' raw records and turns each one into a
*resource*:

- a stable id (`org-<index>-<slug of the name>`), the name and the type;
- an address split into street, city, state and ZIP by two regular
  expressions, plus the coordinates when the record carries finite ones;
- a weekly schedule parsed from lines such as `Saturday 1:00 PM - 3:00 PM`;
- flags for delivery and referral drawn from the programs' texts;
- a one-line description listing the programs' categories;
- contact fields chosen by a fixed precedence.

The layer also supplies the rest:

- lookup by id;
- three questions about today: does the place have hours, what are they, is it
  open now;
- sorting by name;
- the search filter, which keeps the resources within a radius of a search
  centre, applies the type, text, open-today and delivery filters, and sorts
  nearest first;
- the search centre from a ZIP table or from a geocoding service;
- the map zoom for a radius;
- the HTML escaping of the map popups.

This project models that layer in Dafny and proves what the code promises.

| Module | File | Models |
|---|---|---|
| `Wrappers` | `wrappers.dfy` | `Option` |
| `Js` | `js.dfy` | JavaScript values, truthiness, `Number.isFinite`, `a \|\| b` on strings, and `<=` on numbers including `NaN` and the infinities |
| `Text` | `text.dfy` | `trim` with the white space of `\s`, ASCII `toLowerCase`, `includes`, `join`, decimal digits, `String(n)`, `padStart(2, "0")` |
| `Seqs` | `seqs.dfy` | `filter`, `map`, `find`/`some`, and `Array.from(new Set(xs))` |
| `Sorting` | `sorting.dfy` | the stable sort `Array.prototype.sort` performs, written as insertion: a specification function and an in-place array method proved equal to it |
| `Hours` | `hours.dfy` | `createEmptyWeek`, `to24HourTime`, `parseHoursLine`, `buildWeeklyHours` |
| `Addresses` | `address.dfy` | `parseAddress` and its two regular expressions |
| `Resources` | `resources.dfy` | the program helpers, the id slug, `normalizeResource`, the normalised directory, `getResourceById`, `hasHoursToday`, `getHoursToday`, `isOpenNow`, `sortResources` |
| `Search` | `search.dfy` | `filterResources`, `getDefaultFilters` |
| `Location` | `location.dfy` | `ZIP_CENTERS`, `getZipCenter`, `geocodeSearchQuery`, `zoomForRadiusMiles` |
| `Html` | `html.dfy` | `escapeHtml` and the address line of the map popup |

Each regular expression becomes a hand-written matcher. A lemma shows that the
matcher accepts exactly the texts the pattern describes, or, where the pattern
backtracks, that it finds the split the expression's engine finds. Code that
works by loops and in-place updates is modelled imperatively:

- the reduce in `createEmptyWeek`;
- the `forEach` in `buildWeeklyHours`;
- the locals of `parseAddress`;
- `normalizeResource`;
- the copy-then-sort of `sortResources` and `filterResources`.

Each method's postcondition ties its result to a specification function. The
lemmas are stated about those functions.

The clock, the weekday, the geocoding service and the distance function are
parameters; see "Left out".

## Model

| member | source | states |
|---|---|---|
| Hours.CreateEmptyWeek | src/data/foodResourcesService.js:13-38 | the reduce over the seven day keys yields a week in which every weekday is present and null |
| Hours.EmptyWeekIsEmpty | src/data/foodResourcesService.js:33-38 | the empty week holds every weekday, each mapped to null |
| Hours.DayNameMapOfKey | src/data/foodResourcesService.js:23-31 | the lower-case name of every weekday is a key of the day-name map and maps to that weekday |
| Hours.DayKeysDiffer | src/data/foodResourcesService.js:13-21 | no two weekday names share their first two letters, so the day is decided by its start |
| Hours.ClockAtIff | src/data/foodResourcesService.js:42 | the clock matcher succeeds with a layout exactly when the text there reads one or two digits, a colon, two digits, optional white space and AM or PM in any case |
| Hours.To24HourTimeIff | src/data/foodResourcesService.js:40-58 | `to24HourTime` gives a value exactly when the trimmed label is one whole clock label, and the value is that label in 24-hour form |
| Hours.TwelveHourLabel | src/data/foodResourcesService.js:45-57 | for hours 1-12 the result is five characters `HH:MM`: the hour is `h % 12`, plus 12 after PM, and the minutes are copied from the label |
| Hours.HourAboveTwelveKept | src/data/foodResourcesService.js:45-55 | an hour above 12 is not rejected: it is kept, and 12 is added after PM |
| Hours.MatchLineIff | src/data/foodResourcesService.js:74-77 | the line matcher succeeds with a layout exactly when the line starts with a weekday name in any case, the `\s*:?\s+` separator, a clock label, a dash between optional white space, and a second clock label; what follows is ignored |
| Hours.ParseHoursLineIff | src/data/foodResourcesService.js:69-92 | a line parses exactly when it is a string whose trimmed text has that layout, and the result is its day with both labels converted |
| Hours.SaturdayAfternoon | src/data/foodResourcesService.js:60-67 | `Saturday 1:00 PM - 3:00 PM`, followed by anything, parses to Saturday 13:00 to 15:00 |
| Hours.BuildWeeklyHours | src/data/foodResourcesService.js:94-115 | the `forEach` over the lines computes the weekly schedule function |
| Hours.WeeklyHoursLastWins | src/data/foodResourcesService.js:94-115 | a schedule is returned exactly when the input is truthy and some line parses; each day then holds the window of the last line that names it, or null |
| Hours.LastWindowIsLast | src/data/foodResourcesService.js:101-112 | a day has a window exactly when some parsed line names it, and the window comes from the last such line |
| Hours.FoldWindowsOpen | src/data/foodResourcesService.js:106-110 | every window the loop writes is marked open |
| Hours.WeeklyHoursOfList | src/data/foodResourcesService.js:95-97 | an array is taken line by line; the schedule is null when no line parses |
| Hours.WeeklyHoursOpenOn | src/data/foodResourcesService.js:94-115 | a built week has an open window on a day exactly when the input is truthy and one of its lines parses and names that day |
| Hours.LaterLineWins | src/data/foodResourcesService.js:101-112 | when two lines name the same day, the second line's window is the one kept |
| Addresses.ParseAddress | src/data/foodResourcesService.js:117-162 | the method, with its four locals, computes the address function |
| Addresses.AddressOfNonString | src/data/foodResourcesService.js:118-127 | a non-string or empty address gives the blank record |
| Addresses.AddressFieldsTrimmed | src/data/foodResourcesService.js:154-161 | every field is trimmed, the full address is the trimmed input, and the coordinates are null |
| Addresses.StrictAddress | src/data/foodResourcesService.js:132-143 | when the strict expression matches, the street ends at a comma before any line break, the city lies between that comma and a second one, and no comma follows the second |
| Addresses.StrictAddressTail | src/data/foodResourcesService.js:132-143 | after a strict match the ZIP is five digits and the state is IL in some case |
| Addresses.StrictSkipsStreetComma | src/data/foodResourcesService.js:132 | a comma followed by two more commas cannot end the street: the lazy street group moves on to the last two commas |
| Addresses.StrictUsual | src/data/foodResourcesService.js:132-161 | `street, city, IL zip` with a letters-and-spaces city and a five-digit ZIP splits into exactly those parts |
| Addresses.StrictUsualExample | src/data/foodResourcesService.js:131-132 | `Suite 2, 100 Main St, Chicago, IL 60601` keeps `Suite 2, 100 Main St` as its street |
| Addresses.AltAddress | src/data/foodResourcesService.js:133-147 | when only the alternative expression matches, the street ends at white space before any line break, and the city is one of the listed municipalities, in the case it is written |
| Addresses.AltFromFirst | src/data/foodResourcesService.js:133-134 | the lazy street group stops at the earliest split: at no earlier position do white space, a listed name and the tail follow |
| Addresses.AltFromFinds | src/data/foodResourcesService.js:133-134 | conversely, when a split exists and no line break or other split comes before it, the street group ends exactly there |
| Addresses.AltFirstName | src/data/foodResourcesService.js:133-134 | at the split the city is the first listed name after which the tail matches: every name listed before it fails there |
| Addresses.CityFromFirst | src/data/foodResourcesService.js:133-134 | the ordered alternation returns a name only when every earlier name fails at that position |
| Addresses.CityFromFinds | src/data/foodResourcesService.js:133-134 | conversely, a name that fits where every earlier name fails is the one the alternation returns, with its tail |
| Addresses.ChicagoIsNoSuffix | src/data/foodResourcesService.js:133-134 | no listed municipality ends with the word `Chicago`, alone or followed by a blank |
| Addresses.AltUsual | src/data/foodResourcesService.js:133-161 | `street city IL zip` without commas, with a street without line breaks, a listed city and a five-digit ZIP, parses into exactly those parts when no listed name ends with the city's word |
| Addresses.AltUsualExample | src/data/foodResourcesService.js:133-161 | `1200 W Main St Chicago IL 60637` gives street `1200 W Main St`, city `Chicago`, state `IL` and ZIP `60637` |
| Addresses.AltAddressTail | src/data/foodResourcesService.js:133-147 | after an alternative match the ZIP is five digits and the state is IL in some case |
| Addresses.AddressFallback | src/data/foodResourcesService.js:148-151 | when neither expression matches, the whole trimmed address is the street and city, state and ZIP are blank |
| Resources.PickPrimaryProgram | src/data/foodResourcesService.js:164-175 | null exactly for a missing or empty list; otherwise the first program whose category mentions "pantry", or the first program when none does |
| Resources.DeriveHasDelivery | src/data/foodResourcesService.js:177-184 | true exactly when some program mentions delivery |
| Resources.DeliveryNeedsCategory | src/data/foodResourcesService.js:181-182 | a program mentions delivery exactly when its category is present and contains "delivery", ignoring case |
| Resources.DeriveRequiresReferral | src/data/foodResourcesService.js:186-200 | never false: true exactly when some program mentions referral, null otherwise |
| Resources.ReferralInSomeField | src/data/foodResourcesService.js:189-196 | a program mentions referral exactly when its category, notes or description, lower-cased, contains "referral": joining the present fields with spaces creates no new match |
| Resources.BuildDescription | src/data/foodResourcesService.js:202-215 | empty exactly when there are no programs or none has a category; otherwise `<name> offers: <categories joined by " • ">.` |
| Resources.UniqueCategoriesAre | src/data/foodResourcesService.js:207-209 | an entry of the category list is a non-empty category of some program, and every such category is an entry |
| Resources.UniqueCategoriesOrder | src/data/foodResourcesService.js:207-209 | the entries are distinct and come in the order in which they first appear |
| Resources.SlugIsClean | src/data/foodResourcesService.js:240-243 | the slug uses only `a-z`, `0-9` and single inner hyphens, and keeps every letter and digit of the lower-cased name in order |
| Resources.IdIndex | src/data/foodResourcesService.js:240-243 | two ids are equal only when their indices are |
| Resources.NormalizeResource | src/data/foodResourcesService.js:217-269 | the method computes the normalised resource function |
| Resources.NormalizedIdentity | src/data/foodResourcesService.js:240-248 | the id is `org-<index>-<slug>`; the name is the organisation name, or "Unknown" when that is missing or empty; the type is `food_pantry` |
| Resources.NormalizedAddress | src/data/foodResourcesService.js:219-229 | the address is the parsed one; coordinates `[longitude, latitude]` are set exactly when both are finite numbers |
| Resources.NormalizedContact | src/data/foodResourcesService.js:256-261 | phone and contact name come from the record, else from the primary program; email only from the primary program; website only from the record; each is null when empty |
| Resources.NormalizeAll | src/data/foodResourcesService.js:271-275 | the directory has one resource per raw record, normalised with its index |
| Resources.NormalizeAllIdsDistinct | src/data/foodResourcesService.js:240-243 | resources at different positions of the directory have different ids |
| Resources.GetResourceById | src/data/foodResourcesService.js:284-287 | null exactly when the id is missing or empty or no resource has it; otherwise the first resource with that id |
| Resources.GetNormalizedById | src/data/foodResourcesService.js:284-287 | looking up the id of any resource of the directory returns that resource |
| Resources.HasHoursTodayOf | src/data/foodResourcesService.js:331-353 | a resource whose hours were built from some regular hours has hours today exactly when those are truthy and one of their lines parses and names today; the window is then the last such line's |
| Resources.HasHoursTodayOfNormalized | src/data/foodResourcesService.js:231-235 | for a normalised resource the same holds of its primary program's regular hours |
| Resources.IsOpenNow | src/data/foodResourcesService.js:293-325 | open now exactly when today has an open window and both of its times read as minutes with the current minute between them, bounds included |
| Resources.ClockMinutesOfClock24 | src/data/foodResourcesService.js:318-322 | a time written by the hours parser reads back as 60 times its 24-hour hour plus its minutes |
| Resources.GetHoursToday | src/data/foodResourcesService.js:359-385 | a label exactly when today has an open window; it is the opening time, an en dash between spaces, and the closing time |
| Resources.SortResources | src/data/foodResourcesService.js:394-406 | a copy, sorted stably by name when `sortBy` is missing or "name", and left in order otherwise |
| Resources.SortedByName | src/data/foodResourcesService.js:397-405 | the sorted copy is a permutation of the input, ordered by name, and resources whose names compare equal keep their order |
| Sorting.InsertionSort | src/data/foodResourcesService.js:400-402 | the in-place sort of the array computes the stable sort function |
| Sorting.StableSortPermutes | src/utils/filterResources.js:92 | sorting keeps every element as often as it occurs |
| Sorting.StableSortSorted | src/utils/filterResources.js:92 | under a total preorder, the sorted list is in order |
| Sorting.StableSortKeepsTies | src/utils/filterResources.js:92 | elements that compare equal keep their relative order |
| Search.EffectiveRadius | src/utils/filterResources.js:21 | the radius is never NaN or 0: those two fall back to 1 mile and any other number is kept |
| Search.NoCenterNoResults | src/utils/filterResources.js:23-30 | with no search centre, or a centre whose latitude or longitude is not a number, the result is empty, and so it is under the default filters |
| Search.FilterResources | src/utils/filterResources.js:19-95 | the method's stages and in-place sort compute the filter function |
| Search.CandidatesAre | src/utils/filterResources.js:32-89 | the unsorted hits are the resources with coordinates, within the radius and passing every secondary filter, each paired with its distance |
| Search.FilteredMember | src/utils/filterResources.js:32-89 | a hit is in the result exactly when its resource is an input that passes every stage and its distance is the distance from the centre to the resource's coordinates |
| Search.FilteredWithinRadius | src/utils/filterResources.js:41-89 | every hit in the result has coordinates, lies within the radius and passes the type, text, open-today and delivery filters |
| Search.TextMatchesFields | src/utils/filterResources.js:60-74 | for a search term without spaces, a resource matches exactly when its name, street, city or ZIP, lower-cased, contains the lower-cased term |
| Search.FilteredOrder | src/utils/filterResources.js:91-92 | the result is ordered by distance, a missing distance counting as 0, and hits at equal distance keep their input order |
| Search.ByDistanceTotal | src/utils/filterResources.js:92 | the distance comparator is a total preorder |
| Search.FilteredNoDuplicates | src/utils/filterResources.js:33-92 | a list of distinct resources yields a list of distinct hits |
| Location.ZipKeysAreFiveDigits | src/utils/locationUtils.js:60-121 | every key of the ZIP table is a five-digit number |
| Location.HydeParkEntry | src/utils/locationUtils.js:99 | 60637 is in the table with its centre; 60627 is not |
| Location.GetZipCenterIff | src/utils/locationUtils.js:128-132 | a query whose digits spell a table key gets that key's centre; a centre is returned exactly when the digits spell some key, and it is the centre of the key they spell |
| Location.GetZipCenterSound | src/utils/locationUtils.js:128-132 | a centre is returned only for a table key spelled by the query's digits |
| Location.GetZipCenterInText | src/utils/locationUtils.js:128-132 | a ZIP surrounded by text without digits, as in `Chicago, IL 60637`, is found |
| Location.GetZipCenterNeedsFive | src/utils/locationUtils.js:129-130 | a query with other than five digits gets no centre |
| Location.GetZipCenterHydePark | src/utils/locationUtils.js:128-132 | `60637` gets its centre and `60627` gets none |
| Location.GeocodeSearchQuery | src/utils/locationUtils.js:31-53 | a request goes out only for a string query, trimmed, that the table does not answer, and only when a token exists |
| Location.GeocodeBlank | src/utils/locationUtils.js:32-34 | a query that is not a string, or is blank, gives no centre and sends nothing |
| Location.GeocodeZipFirst | src/utils/locationUtils.js:36-38 | a query the ZIP table answers gets the table's centre and sends nothing, whatever the token |
| Location.GeocodeRequestIff | src/utils/locationUtils.js:31-42 | a request is made exactly for a non-blank string the table does not answer, when the token is non-empty |
| Location.GeocodeFromService | src/utils/locationUtils.js:42-52 | a centre comes from the service only when the response is ok and has features; it is the first feature's `[lng, lat]`, read as latitude and longitude; a thrown request or any other failure gives none |
| Location.ZoomForRadiusMiles | src/utils/locationUtils.js:138-145 | the zoom is always between 10 and 15 |
| Location.ZoomMonotone | src/utils/locationUtils.js:138-145 | a larger radius never gives a larger zoom |
| Location.ZoomValues | src/utils/locationUtils.js:138-145 | the zoom for 0.5, 1, 2, 5, 10 and 25 miles is 15, 14, 13, 12, 11 and 10; NaN and infinity give 10 |
| Js.LeOrdersNumbers | src/utils/filterResources.js:48 | on numbers other than NaN, `<=` is reflexive, total and transitive |
| Html.EscapeHtmlIsMap | src/components/ResourceMap.jsx:13-22 | the five `replace` calls in a row escape each character on its own: `&`, `<`, `>`, `"` and `'` become their entities and other characters stay |
| Html.StageFiveIsEscape | src/components/ResourceMap.jsx:16-21 | after the five replacements each input character has become its own escape |
| Html.EscapeHtmlIsSafe | src/components/ResourceMap.jsx:13-22 | the escaped text holds no `<`, `>`, `"` or `'`, null and undefined included |
| Html.AmpersandsStartEntities | src/components/ResourceMap.jsx:16-21 | every `&` in the output starts one of the five entities; replacing `&` first means no ampersand is left bare |
| Html.UnescapeEscape | src/components/ResourceMap.jsx:13-22 | escaping loses nothing: decoding the five entities gives the input back |
| Html.EscapeLength | src/components/ResourceMap.jsx:16-21 | the output grows by 4, 3, 3, 5 and 4 characters for each `&`, `<`, `>`, `"` and `'` |
| Html.EscapePlain | src/components/ResourceMap.jsx:13-22 | text without the five special characters is unchanged |
| Html.EscapeEmptyIff | src/components/ResourceMap.jsx:13-22 | the escape is empty exactly when the input is |
| Html.AddressLineParts | src/components/ResourceMap.jsx:111-118 | the popup line is the escaped street and city, each followed by a comma when non-empty, then `IL <zip>`, or `IL` when there is no ZIP |
| Html.AddressLineEndsWithState | src/components/ResourceMap.jsx:114-118 | the line always ends with the state part, which is the bare `IL` exactly when the ZIP is empty |

## Left out

- Loading the records: importing `pantryData.json` and its `food_pantries` check at `src/data/foodResourcesService.js:271-273` are left out. The directory is `NormalizeAll` over any list of records.
- The clock of `isOpenNow`, `hasHoursToday` and `getHoursToday`: `new Date()` and `toLocaleDateString` are left out. Today's weekday and the minute of the day are parameters; locales and time zones are not modelled.
- Resources.IsOpenNow: only times written by the hours parser are read with full precision. A field that is not all digits reads as NaN, so the comparison fails. `Number()` would also accept white space, a sign, a decimal point or hex digits. That difference matters only for hand-made schedules.
- Addresses.AltUsual: completeness is proved only when no listed name ends with the city's word, alone or followed by a blank. Otherwise a longer name such as `North Riverside` can take the last word of the street with the city, the lemma does not apply, and the split is only described by `AltFromFirst` and `AltFirstName`.
- `haversineMiles` (`src/utils/locationUtils.js:15-23`) is floating-point trigonometry. The filter takes the distance as a function parameter returning a JavaScript number. The order it induces and the radius test are modelled; the formula is not.
- `localeCompare` in `sortResources` is an abstract comparator on names. The properties are proved for any total preorder. Collation rules are not modelled.
- Search.EffectiveRadius: the radius is taken as a number already, so the `Number()` conversion of a string radius is not modelled. The `|| 1` fallback for NaN and 0 is.
- `toLowerCase` and `toUpperCase` fold ASCII letters only. Other scripts are left unchanged.
- `fetch`, `await` and the Mapbox response are left out. The geocoding service is a function from the trimmed query and the token to the outcome: a thrown error, or a response with its `ok` flag and its features. The URL encoding is not modelled.
- Program text fields are modelled as strings or missing. A non-string category is treated as missing, and a null element of the programs array would make the source throw. The model has no such element.
- Resources.SortResources: a missing `sortBy` takes the default "name". A `sortBy` of null leaves the copy unsorted in the source; the model has no separate null, so it stands for any value other than "name".
- The constant fields of the normalised resource (`deliveryDetails`, `eligibility`, `notes`, `sourceMetadata`) are always null or undefined and are not in the record.
- Search.GetDefaultFilters is a constant, stated by its body. `Search.NoCenterNoResults` proves what it is for: an empty result.
- The `searchLocation` filter field is carried but never read by the filter.
- The React components other than the popup's text are left out: the map, the markers, the list, the filter panel and routing.
