/** The weekly-hours parser of the resource normaliser: `to24HourTime`,
    `parseHoursLine`, `createEmptyWeek` and `buildWeeklyHours`. The regular
    expressions of the source are written as matchers; each matcher comes with
    a lemma that it accepts exactly the texts the pattern describes. */
module Hours {
  import opened Wrappers
  import opened Text
  import Js

  datatype Weekday = Monday | Tuesday | Wednesday | Thursday | Friday | Saturday | Sunday

  /** `DAY_KEYS`, in the order the empty week is built. */
  const DayKeys: seq<Weekday> := [Monday, Tuesday, Wednesday, Thursday, Friday, Saturday, Sunday]

  lemma EveryDayIsKey(d: Weekday)
    ensures d in DayKeys
  {
  }

  /** The lower-case key of a day, which is also its name in the hours pattern. */
  function DayKey(d: Weekday): string {
    match d
    case Monday => "monday"
    case Tuesday => "tuesday"
    case Wednesday => "wednesday"
    case Thursday => "thursday"
    case Friday => "friday"
    case Saturday => "saturday"
    case Sunday => "sunday"
  }

  /** `DAY_NAME_MAP`. */
  const DayNameMap: map<string, Weekday> := map[
    "monday" := Monday, "tuesday" := Tuesday, "wednesday" := Wednesday, "thursday" := Thursday,
    "friday" := Friday, "saturday" := Saturday, "sunday" := Sunday]

  lemma DayNameMapOfKey(d: Weekday)
    ensures DayKey(d) in DayNameMap && DayNameMap[DayKey(d)] == d
  {
  }

  /** The first two letters of a day name. */
  function DayStart(d: Weekday): string {
    match d
    case Monday => "mo"
    case Tuesday => "tu"
    case Wednesday => "we"
    case Thursday => "th"
    case Friday => "fr"
    case Saturday => "sa"
    case Sunday => "su"
  }

  lemma DayKeyStart(d: Weekday)
    ensures |DayKey(d)| >= 6 && DayKey(d)[..2] == DayStart(d)
  {
    match d
    case Monday => assert "monday"[..2] == "mo";
    case Tuesday => assert "tuesday"[..2] == "tu";
    case Wednesday => assert "wednesday"[..2] == "we";
    case Thursday => assert "thursday"[..2] == "th";
    case Friday => assert "friday"[..2] == "fr";
    case Saturday => assert "saturday"[..2] == "sa";
    case Sunday => assert "sunday"[..2] == "su";
  }

  /** No two day names share their first two letters, so at most one of them can start a text. */
  lemma DayKeysDiffer(d1: Weekday, d2: Weekday)
    requires DayKey(d1)[..2] == DayKey(d2)[..2]
    ensures d1 == d2
  {
    DayKeyStart(d1);
    DayKeyStart(d2);
  }

  // ---------------------------------------------------------------------------
  // Clock labels: ^(\d{1,2}):(\d{2})\s*([AP]M)$ under the `i` flag
  //
  // The patterns are read at positions of one text: a layout predicate says where
  // each part of a match sits, and each matcher returns exactly that layout.

  /** `[AP]M` under the `i` flag, at position `k`. */
  predicate IsMarkerAt(s: string, k: nat)
    requires k + 2 <= |s|
  {
    (LowerChar(s[k]) == 'a' || LowerChar(s[k]) == 'p') && LowerChar(s[k + 1]) == 'm'
  }

  /** `ampm.toUpperCase() === "PM"`. */
  predicate IsPmAt(s: string, k: nat)
    requires k < |s|
  {
    LowerChar(s[k]) == 'p'
  }

  /** Where a clock label sits: `hourEnd` is the position of the colon and
      `markerAt` that of the A or P. */
  datatype ClockSpan = ClockSpan(hourEnd: nat, markerAt: nat)

  /** The position just after the label. */
  function ClockStop(sp: ClockSpan): nat {
    sp.markerAt + 2
  }

  /** The positions of `sp` are in order and inside `s`. */
  predicate ClockBounds(s: string, i: nat, sp: ClockSpan) {
    i < sp.hourEnd <= i + 2 && sp.hourEnd + 3 <= sp.markerAt && sp.markerAt + 2 <= |s|
  }

  /** The text from `i` reads `\d{1,2}:\d{2}\s*[AP]M`, with its parts where `sp` says. */
  predicate ClockLayout(s: string, i: nat, sp: ClockSpan) {
    && ClockBounds(s, i, sp)
    && IsDigit(s[i]) && (sp.hourEnd == i + 2 ==> IsDigit(s[i + 1]))
    && s[sp.hourEnd] == ':' && IsDigit(s[sp.hourEnd + 1]) && IsDigit(s[sp.hourEnd + 2])
    && SpacesIn(s, sp.hourEnd + 3, sp.markerAt)
    && IsMarkerAt(s, sp.markerAt)
  }

  /** Matches the clock pattern at position `i`; what follows it is not looked at. */
  function ClockAt(s: string, i: nat): (r: Option<ClockSpan>)
    requires i <= |s|
    ensures r.Some? ==> ClockBounds(s, i, r.value)
  {
    if i >= |s| || !IsDigit(s[i]) then None
    else
      var j := if i + 1 < |s| && IsDigit(s[i + 1]) then i + 2 else i + 1;
      if j + 3 > |s| || s[j] != ':' || !IsDigit(s[j + 1]) || !IsDigit(s[j + 2]) then None
      else
        var k := j + 3 + SpaceRun(s, j + 3);
        if k + 2 <= |s| && IsMarkerAt(s, k) then Some(ClockSpan(j, k)) else None
  }

  lemma NotSpaceMarker(c: char)
    requires LowerChar(c) == 'a' || LowerChar(c) == 'p' || LowerChar(c) == 'm'
    ensures !IsSpace(c) && !IsDigit(c)
  {
  }

  lemma DigitNotSpace(c: char)
    requires IsDigit(c)
    ensures !IsSpace(c)
  {
  }

  /** The matcher finds every layout: a label is matched exactly where the pattern says. */
  lemma ClockAtIff(s: string, i: nat, sp: ClockSpan)
    requires i <= |s|
    ensures ClockAt(s, i) == Some(sp) <==> ClockLayout(s, i, sp)
  {
    if i < |s| && IsDigit(s[i]) {
      var j := if i + 1 < |s| && IsDigit(s[i + 1]) then i + 2 else i + 1;
      if j + 3 <= |s| {
        SpaceRunSpaces(s, j + 3);
      }
    }
    if ClockLayout(s, i, sp) {
      NotSpaceMarker(s[sp.markerAt]);
      SpaceRunIs(s, sp.hourEnd + 3, sp.markerAt - sp.hourEnd - 3);
    }
  }

  /** The conversion rule: 12 AM is hour 0, 12 PM stays 12, other PM hours gain 12.
      Hours above 12 are not rejected. */
  function Hour24(hour: nat, pm: bool): nat {
    if pm && hour != 12 then hour + 12
    else if !pm && hour == 12 then 0
    else hour
  }

  /** The 24-hour text of the label laid out at `i`: the hour converted and padded
      to two digits, the minutes as written. */
  function Clock24(s: string, i: nat, sp: ClockSpan): string
    requires ClockLayout(s, i, sp)
  {
    Pad2(NatToString(Hour24(ValueIn(s, i, sp.hourEnd), IsPmAt(s, sp.markerAt)))) + ":" + s[sp.hourEnd + 1..sp.hourEnd + 3]
  }

  /** `to24HourTime`. */
  function To24HourTime(text: string): Option<string> {
    var t := Trim(text);
    match ClockAt(t, 0)
    case None => None
    case Some(sp) =>
      if ClockStop(sp) != |t| then None
      else
        var hour := Hour24(ValueIn(t, 0, sp.hourEnd), IsPmAt(t, sp.markerAt));
        var minute := ValueIn(t, sp.hourEnd + 1, sp.hourEnd + 3);
        Some(Pad2(NatToString(hour)) + ":" + Pad2(NatToString(minute)))
  }

  /** The trimmed text is one whole label laid out as `sp`. */
  predicate WholeClock(t: string, sp: ClockSpan) {
    ClockLayout(t, 0, sp) && ClockStop(sp) == |t|
  }

  /** A whole label converts to `Clock24` of it. */
  lemma To24HourTimeOfWhole(text: string, sp: ClockSpan)
    requires WholeClock(Trim(text), sp)
    ensures To24HourTime(text) == Some(Clock24(Trim(text), 0, sp))
  {
    var t := Trim(text);
    ClockAtIff(t, 0, sp);
    PadTwoDigits(t, sp.hourEnd + 1);
  }

  /** Every text that converts is, trimmed, one whole label. */
  lemma To24HourTimeIsWhole(text: string)
    requires To24HourTime(text).Some?
    ensures ClockAt(Trim(text), 0).Some? && WholeClock(Trim(text), ClockAt(Trim(text), 0).value)
  {
    var t := Trim(text);
    ClockAtIff(t, 0, ClockAt(t, 0).value);
  }

  /** A text converts exactly when, trimmed, it is one whole label; the result is
      `Clock24` of that label. */
  lemma To24HourTimeIff(text: string, r: string)
    ensures To24HourTime(text) == Some(r) <==>
      exists sp :: WholeClock(Trim(text), sp) && r == Clock24(Trim(text), 0, sp)
  {
    var t := Trim(text);
    if To24HourTime(text) == Some(r) {
      To24HourTimeIsWhole(text);
      var sp := ClockAt(t, 0).value;
      To24HourTimeOfWhole(text, sp);
      assert WholeClock(t, sp) && r == Clock24(t, 0, sp);
    }
    forall sp | WholeClock(t, sp) && r == Clock24(t, 0, sp) ensures To24HourTime(text) == Some(r) {
      To24HourTimeOfWhole(text, sp);
    }
  }

  /** A label laid out inside a longer text, cut out, is a whole label with the same parts. */
  lemma ClockLayoutCut(s: string, i: nat, sp: ClockSpan)
    requires ClockLayout(s, i, sp)
    ensures var u := s[i..ClockStop(sp)]; var sp' := ClockSpan(sp.hourEnd - i, sp.markerAt - i);
      && WholeClock(u, sp')
      && Clock24(u, 0, sp') == Clock24(s, i, sp)
  {
    var u := s[i..ClockStop(sp)];
    var sp' := ClockSpan(sp.hourEnd - i, sp.markerAt - i);
    assert forall k :: 0 <= k < |u| ==> u[k] == s[i + k];
    assert ClockLayout(u, 0, sp');
    ValueInShift(s, i, sp.hourEnd, u, 0);
    assert u[sp'.hourEnd + 1..sp'.hourEnd + 3] == s[sp.hourEnd + 1..sp.hourEnd + 3];
  }

  /** A label laid out inside a longer text converts on its own. */
  lemma To24HourTimeOfSlice(s: string, i: nat, sp: ClockSpan)
    requires ClockLayout(s, i, sp)
    ensures To24HourTime(s[i..ClockStop(sp)]) == Some(Clock24(s, i, sp))
  {
    var u := s[i..ClockStop(sp)];
    var sp' := ClockSpan(sp.hourEnd - i, sp.markerAt - i);
    ClockLayoutCut(s, i, sp);
    DigitNotSpace(u[0]);
    NotSpaceMarker(u[|u| - 1]);
    TrimNoop(u);
    To24HourTimeOfWhole(u, sp');
  }

  /** On a 12-hour label the result is `HH:MM` with two digits each side, the minutes
      copied, and the hour `h mod 12` for AM and `h mod 12 + 12` for PM. */
  lemma TwelveHourLabel(s: string, i: nat, sp: ClockSpan)
    requires ClockLayout(s, i, sp) && 1 <= ValueIn(s, i, sp.hourEnd) <= 12
    ensures var r := Clock24(s, i, sp); var h := ValueIn(s, i, sp.hourEnd);
      && |r| == 5 && DigitsIn(r, 0, 2) && r[2] == ':' && r[3..] == s[sp.hourEnd + 1..sp.hourEnd + 3]
      && ValueIn(r, 0, 2) == (if IsPmAt(s, sp.markerAt) then h % 12 + 12 else h % 12)
  {
    var v := ValueIn(s, i, sp.hourEnd);
    var h := Hour24(v, IsPmAt(s, sp.markerAt));
    if v == 12 {
      assert v % 12 == 0;
    } else {
      assert v % 12 == v;
    }
    Pad2OfSmall(h);
    var p := Pad2(NatToString(h));
    var r := Clock24(s, i, sp);
    assert r[..2] == p && r[3..] == s[sp.hourEnd + 1..sp.hourEnd + 3];
    ValueInShift(p, 0, 2, r, 0);
  }

  lemma Pad2OfSmall(n: nat)
    requires n < 100
    ensures var p := Pad2(NatToString(n)); |p| == 2 && DigitsIn(p, 0, 2) && ValueIn(p, 0, 2) == n
  {
    var s := NatToString(n);
    var p := Pad2(s);
    ValueOfNatToString(n);
    if n < 10 {
      assert p == "0" + s;
      assert ValueIn(p, 0, 1) == 0;
      ValueInShift(s, 0, 1, p, 1);
    }
  }

  /** Hours above 12 are not rejected: PM adds 12 to them and AM keeps them, so
      "13:00 PM" gives "25:00". */
  lemma HourAboveTwelveKept(s: string, i: nat, sp: ClockSpan)
    requires ClockLayout(s, i, sp) && ValueIn(s, i, sp.hourEnd) > 12
    ensures Clock24(s, i, sp)
         == NatToString(ValueIn(s, i, sp.hourEnd) + (if IsPmAt(s, sp.markerAt) then 12 else 0)) + ":" + s[sp.hourEnd + 1..sp.hourEnd + 3]
  {
  }

  // ---------------------------------------------------------------------------
  // Hours lines: ^(Monday|...|Sunday)\s*:?\s+(clock)\s*-\s*(clock) under the `i` flag

  /** The day name that starts `s`, in any case. */
  predicate DayLayout(s: string, d: Weekday) {
    |DayKey(d)| <= |s| && Lower(s[..|DayKey(d)|]) == DayKey(d)
  }

  /** The first day, in `ds` order, whose name starts `s`. */
  function DayAt(s: string, ds: seq<Weekday>): (r: Option<Weekday>)
    ensures r.Some? ==> r.value in ds && |DayKey(r.value)| <= |s|
  {
    if ds == [] then None
    else if DayLayout(s, ds[0]) then Some(ds[0])
    else DayAt(s, ds[1..])
  }

  lemma {:induction false} DayAtSound(s: string, ds: seq<Weekday>)
    requires DayAt(s, ds).Some?
    ensures DayLayout(s, DayAt(s, ds).value)
  {
    if !DayLayout(s, ds[0]) {
      DayAtSound(s, ds[1..]);
    }
  }

  /** At most one day name starts a text, so the order of the alternatives does not matter. */
  lemma {:induction false} DayAtLayout(s: string, d: Weekday, ds: seq<Weekday>)
    requires DayLayout(s, d) && d in ds
    ensures DayAt(s, ds) == Some(d)
  {
    if ds[0] != d {
      if DayLayout(s, ds[0]) {
        DayKeyStart(ds[0]);
        DayKeyStart(d);
        assert DayKey(ds[0])[..2] == DayKey(d)[..2] by {
          forall k | 0 <= k < 2 ensures DayKey(ds[0])[k] == DayKey(d)[k] {
            assert Lower(s[..|DayKey(ds[0])|])[k] == LowerChar(s[k]);
            assert Lower(s[..|DayKey(d)|])[k] == LowerChar(s[k]);
          }
        }
        DayKeysDiffer(ds[0], d);
      }
      DayAtLayout(s, d, ds[1..]);
    }
  }

  /** Where `\s*:?\s+` sits: the position of the colon, if there is one, and the
      position where the separator stops. */
  datatype SepSpan = SepSpan(colon: Option<nat>, end: nat)

  predicate SepLayout(s: string, i: nat, sp: SepSpan) {
    && sp.end <= |s|
    && match sp.colon
       case None => i < sp.end && SpacesIn(s, i, sp.end)
       case Some(c) => i <= c && c + 1 < sp.end && SpacesIn(s, i, c) && s[c] == ':' && SpacesIn(s, c + 1, sp.end)
  }

  /** The separator at `i`, read the only way that lets a digit follow it. */
  function SepAt(s: string, i: nat): (r: Option<SepSpan>)
    requires i <= |s|
    ensures r.Some? ==> r.value.end <= |s|
  {
    var a := i + SpaceRun(s, i);
    if a < |s| && s[a] == ':' then
      var e := a + 1 + SpaceRun(s, a + 1);
      if e > a + 1 then Some(SepSpan(Some(a), e)) else None
    else if a > i then Some(SepSpan(None, a))
    else None
  }

  lemma SepAtSound(s: string, i: nat)
    requires i <= |s| && SepAt(s, i).Some?
    ensures SepLayout(s, i, SepAt(s, i).value)
  {
    var a := i + SpaceRun(s, i);
    SpaceRunSpaces(s, i);
    if a < |s| && s[a] == ':' {
      SpaceRunSpaces(s, a + 1);
    }
  }

  lemma SepAtLayout(s: string, i: nat, sp: SepSpan)
    requires i <= |s| && SepLayout(s, i, sp)
    requires sp.end < |s| && IsDigit(s[sp.end])
    ensures SepAt(s, i) == Some(sp)
  {
    match sp.colon
    case None =>
      SpaceRunIs(s, i, sp.end - i);
    case Some(c) =>
      SpaceRunIs(s, i, c - i);
      SpaceRunIs(s, c + 1, sp.end - c - 1);
  }

  /** Where `\s*-\s*` sits: the position of the dash and the position where it stops. */
  datatype DashSpan = DashSpan(dashAt: nat, end: nat)

  predicate DashLayout(s: string, i: nat, sp: DashSpan) {
    i <= sp.dashAt < sp.end <= |s| && SpacesIn(s, i, sp.dashAt) && s[sp.dashAt] == '-' && SpacesIn(s, sp.dashAt + 1, sp.end)
  }

  function DashAt(s: string, i: nat): (r: Option<DashSpan>)
    requires i <= |s|
    ensures r.Some? ==> r.value.end <= |s|
  {
    var a := i + SpaceRun(s, i);
    if a < |s| && s[a] == '-' then Some(DashSpan(a, a + 1 + SpaceRun(s, a + 1))) else None
  }

  lemma DashAtSound(s: string, i: nat)
    requires i <= |s| && DashAt(s, i).Some?
    ensures DashLayout(s, i, DashAt(s, i).value)
  {
    var a := i + SpaceRun(s, i);
    SpaceRunSpaces(s, i);
    SpaceRunSpaces(s, a + 1);
  }

  lemma DashAtLayout(s: string, i: nat, sp: DashSpan)
    requires i <= |s| && DashLayout(s, i, sp)
    requires sp.end < |s| && IsDigit(s[sp.end])
    ensures DashAt(s, i) == Some(sp)
  {
    SpaceRunIs(s, i, sp.dashAt - i);
    SpaceRunIs(s, sp.dashAt + 1, sp.end - sp.dashAt - 1);
  }

  /** Where the parts of an hours line sit: the day name from 0, the separator, the
      opening label, the dash and the closing label. */
  datatype LineSpans = LineSpans(day: Weekday, sep: SepSpan, open: ClockSpan, dash: DashSpan, close: ClockSpan)

  /** The positions of `m` are in order and inside `t`. */
  predicate LineBounds(t: string, m: LineSpans) {
    |DayKey(m.day)| <= m.sep.end && ClockBounds(t, m.sep.end, m.open) && ClockBounds(t, m.dash.end, m.close)
  }

  /** `t` starts with an hours line laid out as `m` says; what follows is not looked at. */
  predicate LineLayout(t: string, m: LineSpans) {
    && DayLayout(t, m.day)
    && SepLayout(t, |DayKey(m.day)|, m.sep)
    && ClockLayout(t, m.sep.end, m.open)
    && DashLayout(t, ClockStop(m.open), m.dash)
    && ClockLayout(t, m.dash.end, m.close)
  }

  /** Matches the hours-line pattern at the start of `t`. */
  function MatchLine(t: string): (r: Option<LineSpans>)
    ensures r.Some? ==> LineBounds(t, r.value)
  {
    match DayAt(t, DayKeys)
    case None => None
    case Some(d) =>
      match SepAt(t, |DayKey(d)|)
      case None => None
      case Some(sep) =>
        match ClockAt(t, sep.end)
        case None => None
        case Some(open) =>
          match DashAt(t, ClockStop(open))
          case None => None
          case Some(dash) =>
            match ClockAt(t, dash.end)
            case None => None
            case Some(close) => Some(LineSpans(d, sep, open, dash, close))
  }

  /** The matcher finds every layout, and only layouts. */
  lemma MatchLineIff(t: string, m: LineSpans)
    ensures MatchLine(t) == Some(m) <==> LineLayout(t, m)
  {
    if MatchLine(t).Some? {
      var d := DayAt(t, DayKeys).value;
      DayAtSound(t, DayKeys);
      SepAtSound(t, |DayKey(d)|);
      var sep := SepAt(t, |DayKey(d)|).value;
      var open := ClockAt(t, sep.end).value;
      ClockAtIff(t, sep.end, open);
      DashAtSound(t, ClockStop(open));
      var dash := DashAt(t, ClockStop(open)).value;
      ClockAtIff(t, dash.end, ClockAt(t, dash.end).value);
    }
    if LineLayout(t, m) {
      EveryDayIsKey(m.day);
      DayAtLayout(t, m.day, DayKeys);
      SepAtLayout(t, |DayKey(m.day)|, m.sep);
      ClockAtIff(t, m.sep.end, m.open);
      DashAtLayout(t, ClockStop(m.open), m.dash);
      ClockAtIff(t, m.dash.end, m.close);
    }
  }

  /** One parsed line: the day and its two converted times. */
  datatype HoursLine = HoursLine(dayKey: Weekday, open: string, close: string)

  /** What a line laid out as `m` parses to. */
  function LineOf(t: string, m: LineSpans): HoursLine
    requires LineLayout(t, m)
  {
    HoursLine(m.day, Clock24(t, m.sep.end, m.open), Clock24(t, m.dash.end, m.close))
  }

  /** `parseHoursLine`. */
  function ParseHoursLine(line: Js.Value): Option<HoursLine> {
    if !Js.Truthy(line) || !line.Str? then None
    else
      var t := Trim(line.s);
      match MatchLine(t)
      case None => None
      case Some(m) =>
        var key := Lower(t[..|DayKey(m.day)|]);
        var open := To24HourTime(t[m.sep.end..ClockStop(m.open)]);
        var close := To24HourTime(t[m.dash.end..ClockStop(m.close)]);
        if key !in DayNameMap || open.None? || close.None? then None
        else Some(HoursLine(DayNameMap[key], open.value, close.value))
  }

  /** A line whose trimmed text starts with an hours line parses to that line's
      day and converted times: the guard `!dayKey || !open || !close` never
      rejects a matched line. */
  lemma ParseHoursLineOfLayout(line: Js.Value, m: LineSpans)
    requires line.Str? && LineLayout(Trim(line.s), m)
    ensures ParseHoursLine(line) == Some(LineOf(Trim(line.s), m))
  {
    var t := Trim(line.s);
    MatchLineIff(t, m);
    DayNameMapOfKey(m.day);
    To24HourTimeOfSlice(t, m.sep.end, m.open);
    To24HourTimeOfSlice(t, m.dash.end, m.close);
    DayKeyStart(m.day);
    assert Js.Truthy(line);
  }

  /** Only strings whose trimmed text the pattern matches parse. */
  lemma ParseHoursLineMatched(line: Js.Value)
    requires ParseHoursLine(line).Some?
    ensures line.Str? && MatchLine(Trim(line.s)).Some?
  {
  }

  /** A line parses exactly when it is a string whose trimmed text starts with an
      hours line, and then to that line's day and converted times. */
  lemma ParseHoursLineIff(line: Js.Value, h: HoursLine)
    ensures ParseHoursLine(line) == Some(h) <==>
      line.Str? && exists m :: LineLayout(Trim(line.s), m) && h == LineOf(Trim(line.s), m)
  {
    if ParseHoursLine(line) == Some(h) {
      ParseHoursLineMatched(line);
      var t := Trim(line.s);
      var m := MatchLine(t).value;
      MatchLineIff(t, m);
      ParseHoursLineOfLayout(line, m);
      assert LineLayout(t, m) && h == LineOf(t, m);
    }
    if line.Str? {
      forall m | LineLayout(Trim(line.s), m) && h == LineOf(Trim(line.s), m) ensures ParseHoursLine(line) == Some(h) {
        ParseHoursLineOfLayout(line, m);
      }
    }
  }

  /** Where the parts of "Saturday 1:00 PM - 3:00 PM" sit. */
  const SaturdaySpans := LineSpans(Saturday, SepSpan(None, 9), ClockSpan(10, 14), DashSpan(17, 19), ClockSpan(20, 24))

  lemma SaturdayLayout(t: string)
    requires |t| >= 26 && t[..26] == "Saturday 1:00 PM - 3:00 PM"
    ensures LineLayout(t, SaturdaySpans)
  {
    var x := "Saturday 1:00 PM - 3:00 PM";
    assert t[..8] == "Saturday" by {
      assert t[..8] == t[..26][..8];
    }
    assert Lower("Saturday") == "saturday";
    SaturdayClocks(t);
  }

  lemma SaturdayClocks(t: string)
    requires |t| >= 26 && t[..26] == "Saturday 1:00 PM - 3:00 PM"
    ensures SepLayout(t, 8, SaturdaySpans.sep) && ClockLayout(t, 9, SaturdaySpans.open)
    ensures DashLayout(t, 16, SaturdaySpans.dash) && ClockLayout(t, 19, SaturdaySpans.close)
  {
    var x := "Saturday 1:00 PM - 3:00 PM";
    assert forall k :: 8 <= k < 26 ==> t[k] == x[k] by {
      forall k | 8 <= k < 26 ensures t[k] == x[k] {
        assert t[k] == t[..26][k];
      }
    }
  }

  lemma SaturdayLine(t: string)
    requires |t| >= 26 && t[..26] == "Saturday 1:00 PM - 3:00 PM"
    ensures LineLayout(t, SaturdaySpans) && LineOf(t, SaturdaySpans) == HoursLine(Saturday, "13:00", "15:00")
  {
    SaturdayLayout(t);
    var x := "Saturday 1:00 PM - 3:00 PM";
    assert t[9] == x[9] && t[11] == x[11] && t[12] == x[12] && t[14] == x[14];
    assert t[19] == x[19] && t[21] == x[21] && t[22] == x[22] && t[24] == x[24];
    OnePmIsThirteen(t, 9, SaturdaySpans.open, 1);
    OnePmIsThirteen(t, 19, SaturdaySpans.close, 3);
    assert NatToString(13) == "13" && NatToString(15) == "15";
  }

  /** A PM label whose hour is the digit `h` and whose minutes are "00". */
  lemma OnePmIsThirteen(t: string, i: nat, sp: ClockSpan, h: nat)
    requires ClockLayout(t, i, sp) && sp.hourEnd == i + 1 && 1 <= h <= 9
    requires t[i] == DigitChar(h) && t[sp.hourEnd + 1] == '0' && t[sp.hourEnd + 2] == '0' && IsPmAt(t, sp.markerAt)
    ensures Clock24(t, i, sp) == NatToString(h + 12) + ":00"
  {
    assert ValueIn(t, i, i + 1) == h;
    assert t[sp.hourEnd + 1..sp.hourEnd + 3] == "00";
  }

  /** The example of the source's doc comment: a second Saturday line with text
      after the range, such as " (2nd, 4th of Month)", which is ignored. */
  lemma SaturdayAfternoon(tail: string)
    ensures ParseHoursLine(Js.Str("Saturday 1:00 PM - 3:00 PM" + tail))
         == Some(HoursLine(Saturday, "13:00", "15:00"))
  {
    var x := "Saturday 1:00 PM - 3:00 PM";
    TrimKeepsFront(x, tail);
    SaturdayLine(Trim(x + tail));
    ParseHoursLineOfLayout(Js.Str(x + tail), SaturdaySpans);
  }

  // ---------------------------------------------------------------------------
  // The weekly table

  /** One day's hours: `{ open, close, isOpen }`. */
  datatype DayWindow = DayWindow(open: string, close: string, isOpen: bool)

  /** A schedule: every weekday maps to its window or to `null`. */
  type Week = map<Weekday, Option<DayWindow>>

  function EmptyWeek(): Week {
    map d | d in DayKeys :: None
  }

  /** `createEmptyWeek`: the reduce over `DAY_KEYS` that sets every day to `null`. */
  method CreateEmptyWeek() returns (week: Week)
    ensures forall d: Weekday :: d in week && week[d] == None
  {
    week := map[];
    for i := 0 to |DayKeys|
      invariant forall k :: 0 <= k < i ==> DayKeys[k] in week
      invariant forall d | d in week :: week[d] == None
    {
      week := week[DayKeys[i] := None];
    }
    forall d: Weekday ensures d in week {
      EveryDayIsKey(d);
    }
  }

  lemma EmptyWeekIsEmpty()
    ensures forall d: Weekday :: d in EmptyWeek() && EmptyWeek()[d] == None
  {
    forall d: Weekday ensures d in EmptyWeek() {
      EveryDayIsKey(d);
    }
  }

  /** The window a parsed line sets. */
  function WindowOf(h: HoursLine): DayWindow {
    DayWindow(h.open, h.close, true)
  }

  /** Every line of the input, parsed, in order. */
  function ParseAll(lines: seq<Js.Value>): (r: seq<Option<HoursLine>>)
    ensures |r| == |lines|
  {
    if lines == [] then [] else ParseAll(lines[..|lines| - 1]) + [ParseHoursLine(lines[|lines| - 1])]
  }

  /** Entry `i` of `ParseAll` is line `i` parsed. */
  lemma {:induction false} ParseAllAt(lines: seq<Js.Value>, i: nat)
    requires i < |lines|
    ensures ParseAll(lines)[i] == ParseHoursLine(lines[i])
  {
    if i < |lines| - 1 {
      ParseAllAt(lines[..|lines| - 1], i);
    }
  }

  /** The loop body of `buildWeeklyHours` for one parsed line. */
  function Step(week: Week, parsed: Option<HoursLine>): Week {
    match parsed
    case None => week
    case Some(h) => week[h.dayKey := Some(WindowOf(h))]
  }

  /** The week after the loop has visited the parsed lines in order. */
  function Fold(week: Week, parsed: seq<Option<HoursLine>>): Week {
    if parsed == [] then week else Step(Fold(week, parsed[..|parsed| - 1]), parsed[|parsed| - 1])
  }

  /** A single value is treated as a one-line list. */
  function LinesOf(regularHours: Js.Value): seq<Js.Value> {
    if regularHours.Arr? then regularHours.elems else [regularHours]
  }

  /** Some line parsed. */
  predicate AnyParsed(parsed: seq<Option<HoursLine>>) {
    parsed != [] && (parsed[|parsed| - 1].Some? || AnyParsed(parsed[..|parsed| - 1]))
  }

  lemma {:induction false} AnyParsedIff(parsed: seq<Option<HoursLine>>)
    ensures AnyParsed(parsed) <==> exists i :: 0 <= i < |parsed| && parsed[i].Some?
  {
    if parsed != [] {
      var init := parsed[..|parsed| - 1];
      AnyParsedIff(init);
      if exists i :: 0 <= i < |parsed| && parsed[i].Some? {
        var i :| 0 <= i < |parsed| && parsed[i].Some?;
        if i < |init| {
          assert init[i] == parsed[i];
        }
      }
      if AnyParsed(init) {
        var i :| 0 <= i < |init| && init[i].Some?;
        assert parsed[i] == init[i];
      }
    }
  }

  /** The value `buildWeeklyHours` returns. */
  function WeeklyHours(regularHours: Js.Value): Option<Week> {
    if !Js.Truthy(regularHours) then None
    else
      var parsed := ParseAll(LinesOf(regularHours));
      if AnyParsed(parsed) then Some(Fold(EmptyWeek(), parsed)) else None
  }

  /** Parsing one more line appends its result. */
  lemma ParseAllSnoc(lines: seq<Js.Value>, x: Js.Value)
    ensures ParseAll(lines + [x]) == ParseAll(lines) + [ParseHoursLine(x)]
  {
    assert (lines + [x])[..|lines|] == lines;
  }

  /** Visiting one more parsed line applies one more step. */
  lemma FoldStep(week: Week, p: seq<Option<HoursLine>>, x: Option<HoursLine>)
    ensures Fold(week, p + [x]) == Step(Fold(week, p), x)
    ensures AnyParsed(p + [x]) == (x.Some? || AnyParsed(p))
  {
    assert (p + [x])[..|p|] == p;
  }

  /** `buildWeeklyHours`: the forEach loop updating `week` and `hasAny`. */
  method BuildWeeklyHours(regularHours: Js.Value) returns (r: Option<Week>)
    ensures r == WeeklyHours(regularHours)
  {
    if !Js.Truthy(regularHours) {
      return None;
    }
    var lines := if regularHours.Arr? then regularHours.elems else [regularHours];
    var week := CreateEmptyWeek();
    EmptyWeekIsEmpty();
    assert week == EmptyWeek();
    var hasAny := false;
    for i := 0 to |lines|
      invariant week == Fold(EmptyWeek(), ParseAll(lines[..i]))
      invariant hasAny == AnyParsed(ParseAll(lines[..i]))
    {
      var parsed := ParseHoursLine(lines[i]);
      ParseAllSnoc(lines[..i], lines[i]);
      assert lines[..i] + [lines[i]] == lines[..i + 1];
      FoldStep(EmptyWeek(), ParseAll(lines[..i]), parsed);
      if parsed.Some? {
        week := week[parsed.value.dayKey := Some(DayWindow(parsed.value.open, parsed.value.close, true))];
        hasAny := true;
      }
    }
    assert lines[..|lines|] == lines;
    r := if hasAny then Some(week) else None;
  }

  /** The parsed line sets day `d`. */
  predicate NamesDay(parsed: Option<HoursLine>, d: Weekday) {
    parsed.Some? && parsed.value.dayKey == d
  }

  /** The window of the last parsed line that names `d`. */
  function LastWindow(parsed: seq<Option<HoursLine>>, d: Weekday): Option<DayWindow> {
    if parsed == [] then None
    else if NamesDay(parsed[|parsed| - 1], d) then Some(WindowOf(parsed[|parsed| - 1].value))
    else LastWindow(parsed[..|parsed| - 1], d)
  }

  lemma {:induction false} FoldIsLastWindow(parsed: seq<Option<HoursLine>>, d: Weekday)
    ensures d in Fold(EmptyWeek(), parsed) && Fold(EmptyWeek(), parsed)[d] == LastWindow(parsed, d)
  {
    if parsed == [] {
      EmptyWeekIsEmpty();
    } else {
      FoldIsLastWindow(parsed[..|parsed| - 1], d);
    }
  }

  /** `LastWindow` is the window of the last naming line: some line names `d`, and
      none after it does; it is `None` exactly when no line names `d`. */
  lemma {:induction false} LastWindowIsLast(parsed: seq<Option<HoursLine>>, d: Weekday)
    ensures LastWindow(parsed, d).Some? <==> exists i :: 0 <= i < |parsed| && NamesDay(parsed[i], d)
    ensures LastWindow(parsed, d).Some? ==>
      exists i :: 0 <= i < |parsed| && NamesDay(parsed[i], d)
        && LastWindow(parsed, d).value == WindowOf(parsed[i].value)
        && forall j :: i < j < |parsed| ==> !NamesDay(parsed[j], d)
  {
    if parsed != [] {
      var init := parsed[..|parsed| - 1];
      LastWindowIsLast(init, d);
      if !NamesDay(parsed[|parsed| - 1], d) {
        if exists i :: 0 <= i < |parsed| && NamesDay(parsed[i], d) {
          var i :| 0 <= i < |parsed| && NamesDay(parsed[i], d);
          assert init[i] == parsed[i];
        }
        if LastWindow(init, d).Some? {
          var i :| 0 <= i < |init| && NamesDay(init[i], d)
            && LastWindow(init, d).value == WindowOf(init[i].value)
            && forall j :: i < j < |init| ==> !NamesDay(init[j], d);
          assert parsed[i] == init[i];
          forall j | i < j < |parsed| ensures !NamesDay(parsed[j], d) {
            if j < |init| {
              assert parsed[j] == init[j];
            }
          }
        }
      }
    }
  }

  /** `buildWeeklyHours` returns `null` for falsy input and when no line parses;
      otherwise every day has an entry, and a day's entry is the window of the last
      line that names it, or `null` when no line names it. */
  lemma WeeklyHoursLastWins(regularHours: Js.Value, d: Weekday)
    ensures WeeklyHours(regularHours).Some? <==>
      Js.Truthy(regularHours) && exists i :: 0 <= i < |LinesOf(regularHours)| && ParseHoursLine(LinesOf(regularHours)[i]).Some?
    ensures WeeklyHours(regularHours).Some? ==>
      d in WeeklyHours(regularHours).value
      && WeeklyHours(regularHours).value[d] == LastWindow(ParseAll(LinesOf(regularHours)), d)
  {
    var lines := LinesOf(regularHours);
    var parsed := ParseAll(lines);
    FoldIsLastWindow(parsed, d);
    AnyParsedIff(parsed);
    if exists i :: 0 <= i < |lines| && ParseHoursLine(lines[i]).Some? {
      var i :| 0 <= i < |lines| && ParseHoursLine(lines[i]).Some?;
      ParseAllAt(lines, i);
    }
    if exists i :: 0 <= i < |parsed| && parsed[i].Some? {
      var i :| 0 <= i < |parsed| && parsed[i].Some?;
      ParseAllAt(lines, i);
    }
  }

  /** A built week has an open window on `d` exactly when the input is truthy and
      one of its lines parses and names `d`. */
  lemma WeeklyHoursOpenOn(regularHours: Js.Value, d: Weekday)
    ensures (&& WeeklyHours(regularHours).Some? && d in WeeklyHours(regularHours).value
             && WeeklyHours(regularHours).value[d].Some? && WeeklyHours(regularHours).value[d].value.isOpen)
      <==> (Js.Truthy(regularHours)
            && exists i :: 0 <= i < |LinesOf(regularHours)| && NamesDay(ParseHoursLine(LinesOf(regularHours)[i]), d))
  {
    var lines := LinesOf(regularHours);
    NamesDayParsed(lines, d);
    OpenOnParsed(ParseAll(lines), d);
  }

  /** The folded week has an open window on `d` exactly when a parsed line names
      `d`, and then some line parsed. */
  lemma OpenOnParsed(parsed: seq<Option<HoursLine>>, d: Weekday)
    ensures (d in Fold(EmptyWeek(), parsed) && Fold(EmptyWeek(), parsed)[d].Some? && Fold(EmptyWeek(), parsed)[d].value.isOpen)
      <==> exists i :: 0 <= i < |parsed| && NamesDay(parsed[i], d)
    ensures (exists i :: 0 <= i < |parsed| && NamesDay(parsed[i], d)) ==> AnyParsed(parsed)
  {
    FoldIsLastWindow(parsed, d);
    LastWindowIsLast(parsed, d);
    FoldWindowsOpen(parsed, d);
    AnyParsedIff(parsed);
  }

  /** A line names `d` exactly when its entry in `ParseAll` does, and then it parsed. */
  lemma NamesDayParsed(lines: seq<Js.Value>, d: Weekday)
    ensures (exists i :: 0 <= i < |ParseAll(lines)| && NamesDay(ParseAll(lines)[i], d))
      <==> (exists i :: 0 <= i < |lines| && NamesDay(ParseHoursLine(lines[i]), d))
    ensures (exists i :: 0 <= i < |lines| && NamesDay(ParseHoursLine(lines[i]), d))
      ==> (exists i :: 0 <= i < |lines| && ParseHoursLine(lines[i]).Some?)
  {
    var parsed := ParseAll(lines);
    if exists i :: 0 <= i < |parsed| && NamesDay(parsed[i], d) {
      var i :| 0 <= i < |parsed| && NamesDay(parsed[i], d);
      ParseAllAt(lines, i);
    }
    if exists i :: 0 <= i < |lines| && NamesDay(ParseHoursLine(lines[i]), d) {
      var i :| 0 <= i < |lines| && NamesDay(ParseHoursLine(lines[i]), d);
      ParseAllAt(lines, i);
      assert NamesDay(parsed[i], d);
    }
  }

  /** Every window in a built week is marked open. */
  lemma {:induction false} FoldWindowsOpen(parsed: seq<Option<HoursLine>>, d: Weekday)
    ensures d in Fold(EmptyWeek(), parsed) && Fold(EmptyWeek(), parsed)[d].Some? ==> Fold(EmptyWeek(), parsed)[d].value.isOpen
  {
    if parsed == [] {
      EmptyWeekIsEmpty();
    } else {
      FoldWindowsOpen(parsed[..|parsed| - 1], d);
    }
  }

  /** Two parsed lines for one day: the later overwrites the earlier. */
  lemma FoldTwoSameDay(p1: Option<HoursLine>, p2: Option<HoursLine>, d: Weekday)
    requires NamesDay(p1, d) && NamesDay(p2, d)
    ensures AnyParsed([p1, p2])
    ensures Fold(EmptyWeek(), [p1, p2]) == EmptyWeek()[d := Some(WindowOf(p2.value))]
  {
    FoldStep(EmptyWeek(), [], p1);
    FoldStep(EmptyWeek(), [p1], p2);
    assert [] + [p1] == [p1] && [p1] + [p2] == [p1, p2];
    var w := EmptyWeek()[d := Some(WindowOf(p1.value))];
    assert w[d := Some(WindowOf(p2.value))] == EmptyWeek()[d := Some(WindowOf(p2.value))];
  }

  /** A list of lines builds the fold of its parses. */
  lemma WeeklyHoursOfList(lines: seq<Js.Value>)
    ensures WeeklyHours(Js.Arr(lines)) ==
      (if AnyParsed(ParseAll(lines)) then Some(Fold(EmptyWeek(), ParseAll(lines))) else None)
  {
  }

  lemma ParseAllTwo(first: Js.Value, second: Js.Value)
    ensures ParseAll([first, second]) == [ParseHoursLine(first), ParseHoursLine(second)]
  {
    ParseAllSnoc([], first);
    ParseAllSnoc([first], second);
    assert [] + [first] == [first] && [first] + [second] == [first, second];
    assert ParseAll([]) == [];
  }

  /** Two lines for one day: the later wins. */
  lemma LaterLineWins(first: Js.Value, second: Js.Value, d: Weekday)
    requires NamesDay(ParseHoursLine(first), d) && NamesDay(ParseHoursLine(second), d)
    ensures WeeklyHours(Js.Arr([first, second])) == Some(EmptyWeek()[d := Some(WindowOf(ParseHoursLine(second).value))])
  {
    WeeklyHoursOfList([first, second]);
    ParseAllTwo(first, second);
    FoldTwoSameDay(ParseHoursLine(first), ParseHoursLine(second), d);
  }
}
