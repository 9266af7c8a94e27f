/** `escapeHtml` and the address line of a map popup. The escape is written as
    the source writes it, five global replaces in a row with `&` first, and
    proved equal to a single per-character map. */
module Html {
  import opened Wrappers
  import opened Text

  /** `s.replace(/c/g, rep)` for a one-character pattern: every occurrence of `c`,
      left to right, becomes `rep`; the replacement text is not searched again. */
  function ReplaceAll(s: string, c: char, rep: string): string {
    if s == [] then [] else (if s[0] == c then rep else [s[0]]) + ReplaceAll(s[1..], c, rep)
  }

  lemma {:induction false} ReplaceAllConcat(a: string, b: string, c: char, rep: string)
    ensures ReplaceAll(a + b, c, rep) == ReplaceAll(a, c, rep) + ReplaceAll(b, c, rep)
  {
    if a == [] {
      assert a + b == b;
    } else {
      assert (a + b)[1..] == a[1..] + b;
      ReplaceAllConcat(a[1..], b, c, rep);
    }
  }

  lemma {:induction false} ReplaceAllAbsent(s: string, c: char, rep: string)
    requires forall i :: 0 <= i < |s| ==> s[i] != c
    ensures ReplaceAll(s, c, rep) == s
  {
    if s != [] {
      ReplaceAllAbsent(s[1..], c, rep);
    }
  }

  // ---------------------------------------------------------------------------
  // The chain of replaces, one stage at a time

  /** The character that replace number `k` (from 0) looks for. */
  function Target(k: nat): (c: char)
    requires k < 5
    ensures Index(c) == k
  {
    if k == 0 then '&' else if k == 1 then '<' else if k == 2 then '>' else if k == 3 then '"' else '\''
  }

  /** The entity that replace number `k` writes. */
  function Entity(k: nat): string
    requires k < 5
  {
    if k == 0 then "&amp;" else if k == 1 then "&lt;" else if k == 2 then "&gt;" else if k == 3 then "&quot;" else "&#39;"
  }

  /** What one input character has become after the first `k` replaces. */
  function StageChar(k: nat, c: char): string
    requires k <= 5
  {
    if k == 0 then [c] else ReplaceAll(StageChar(k - 1, c), Target(k - 1), Entity(k - 1))
  }

  /** Every character of `s` mapped by `StageChar(k, _)`. */
  function Stage(k: nat, s: string): string
    requires k <= 5
  {
    if s == [] then [] else StageChar(k, s[0]) + Stage(k, s[1..])
  }

  lemma {:induction false} StageZero(s: string)
    ensures Stage(0, s) == s
  {
    if s != [] {
      StageZero(s[1..]);
      assert [s[0]] + s[1..] == s;
    }
  }

  /** Replace number `k` applied to the text after `k` replaces is a per-character map again. */
  lemma {:induction false} StageStep(k: nat, s: string)
    requires k < 5
    ensures ReplaceAll(Stage(k, s), Target(k), Entity(k)) == Stage(k + 1, s)
  {
    if s != [] {
      ReplaceAllConcat(StageChar(k, s[0]), Stage(k, s[1..]), Target(k), Entity(k));
      StageStep(k, s[1..]);
    }
  }

  // ---------------------------------------------------------------------------
  // The per-character map

  /** The entity of one character, or the character itself. */
  function EscapeChar(c: char): (r: string)
    ensures Index(c) < 5 ==> r == Entity(Index(c))
    ensures Index(c) == 5 ==> r == [c]
  {
    if c == '&' then "&amp;"
    else if c == '<' then "&lt;"
    else if c == '>' then "&gt;"
    else if c == '"' then "&quot;"
    else if c == '\'' then "&#39;"
    else [c]
  }

  /** Every character of `s` mapped by `EscapeChar`, in order. */
  function Escape(s: string): string {
    if s == [] then [] else EscapeChar(s[0]) + Escape(s[1..])
  }

  /** Which of the five replaces rewrites `c`: 0 to 4, or 5 for any other character. */
  function Index(c: char): (k: nat)
    ensures k <= 5
  {
    if c == '&' then 0 else if c == '<' then 1 else if c == '>' then 2 else if c == '"' then 3 else if c == '\'' then 4 else 5
  }

  lemma ReplaceSingle(c: char, t: char, rep: string)
    ensures ReplaceAll([c], t, rep) == if c == t then rep else [c]
  {
    assert [c][1..] == [];
  }

  /** An entity holds none of the characters that later replaces look for. */
  lemma EntityClean(j: nat, m: nat)
    requires j < m < 5
    ensures forall i :: 0 <= i < |Entity(j)| ==> Entity(j)[i] != Target(m)
  {
  }

  /** After `k` replaces a character is its entity if one of them rewrote it, and
      itself otherwise. */
  lemma {:induction false} StageOf(k: nat, c: char)
    requires k <= 5
    ensures StageChar(k, c) == if Index(c) < k then EscapeChar(c) else [c]
  {
    if k > 0 {
      StageOf(k - 1, c);
      if Index(c) < k - 1 {
        EntityClean(Index(c), k - 1);
        ReplaceAllAbsent(EscapeChar(c), Target(k - 1), Entity(k - 1));
      } else {
        ReplaceSingle(c, Target(k - 1), Entity(k - 1));
      }
    }
  }

  /** After the five replaces, each character has become exactly its entity: no
      entity written by an earlier replace is touched by a later one. */
  lemma StageFive(c: char)
    ensures StageChar(5, c) == EscapeChar(c)
  {
    StageOf(5, c);
  }

  lemma {:induction false} StageFiveIsEscape(s: string)
    ensures Stage(5, s) == Escape(s)
  {
    if s != [] {
      StageFive(s[0]);
      StageFiveIsEscape(s[1..]);
    }
  }

  /** `escapeHtml`: `null` and `undefined` give "", a string goes through the five
      replaces, `&` first. */
  function EscapeHtml(str: Option<string>): string {
    match str
    case None => ""
    case Some(s) =>
      ReplaceAll(ReplaceAll(ReplaceAll(ReplaceAll(ReplaceAll(s, '&', "&amp;"), '<', "&lt;"), '>', "&gt;"), '"', "&quot;"), '\'', "&#39;")
  }

  /** The chain of five replaces is the single per-character map. */
  lemma EscapeHtmlIsMap(s: string)
    ensures EscapeHtml(Some(s)) == Escape(s)
  {
    StageZero(s);
    StageStep(0, s);
    StageStep(1, s);
    StageStep(2, s);
    StageStep(3, s);
    StageStep(4, s);
    StageFiveIsEscape(s);
  }

  // ---------------------------------------------------------------------------
  // Properties of the escape

  /** A character that cannot appear in escaped text. */
  predicate Unsafe(c: char) {
    c == '<' || c == '>' || c == '"' || c == '\''
  }

  lemma {:induction false} EscapeIsSafe(s: string)
    ensures forall i :: 0 <= i < |Escape(s)| ==> !Unsafe(Escape(s)[i])
  {
    if s != [] {
      EscapeIsSafe(s[1..]);
      var e := EscapeChar(s[0]);
      assert forall i :: 0 <= i < |e| ==> !Unsafe(e[i]);
    }
  }

  /** The output of `escapeHtml` holds no `<`, `>`, `"` or `'`. */
  lemma EscapeHtmlIsSafe(str: Option<string>)
    ensures forall i :: 0 <= i < |EscapeHtml(str)| ==> !Unsafe(EscapeHtml(str)[i])
  {
    if str.Some? {
      EscapeHtmlIsMap(str.value);
      EscapeIsSafe(str.value);
    }
  }

  /** The number of occurrences of `c` in `s`. */
  function Count(s: string, c: char): nat {
    if s == [] then 0 else (if s[0] == c then 1 else 0) + Count(s[1..], c)
  }

  /** Each `&` adds four characters, each `<` and `>` three, each `"` five and each `'` four. */
  lemma {:induction false} EscapeLength(s: string)
    ensures |Escape(s)| == |s| + 4 * Count(s, '&') + 3 * Count(s, '<') + 3 * Count(s, '>')
                           + 5 * Count(s, '"') + 4 * Count(s, '\'')
  {
    if s != [] {
      EscapeLength(s[1..]);
    }
  }

  /** Text without any of the five characters is left as it is. */
  lemma {:induction false} EscapePlain(s: string)
    requires forall i :: 0 <= i < |s| ==> s[i] != '&' && !Unsafe(s[i])
    ensures Escape(s) == s
  {
    if s != [] {
      EscapePlain(s[1..]);
      assert [s[0]] + s[1..] == s;
    }
  }

  /** The entity whose second character is `c`: 0 to 4, or 5 for none. No two
      entities share their second character. */
  function SecondIndex(c: char): nat {
    if c == 'a' then 0 else if c == 'l' then 1 else if c == 'g' then 2 else if c == 'q' then 3 else if c == '#' then 4 else 5
  }

  /** The entity that starts at position `i` of `t`, if any. */
  function EntityAt(t: string, i: nat): (r: Option<nat>)
    ensures r.Some? ==> r.value < 5 && i + |Entity(r.value)| <= |t| && t[i..i + |Entity(r.value)|] == Entity(r.value)
  {
    if i + 1 < |t| && t[i] == '&' then
      var k := SecondIndex(t[i + 1]);
      if k < 5 && i + |Entity(k)| <= |t| && t[i..i + |Entity(k)|] == Entity(k) then Some(k) else None
    else None
  }

  lemma EntityAtOf(t: string, i: nat, k: nat)
    requires k < 5 && i + |Entity(k)| <= |t| && t[i..i + |Entity(k)|] == Entity(k)
    ensures EntityAt(t, i) == Some(k)
  {
    var e := Entity(k);
    assert t[i] == e[0] && t[i + 1] == e[1];
  }

  /** Decoding the five entities, left to right; any other text is copied. */
  function Unescape(t: string): string
    decreases |t|
  {
    if t == [] then []
    else match EntityAt(t, 0)
      case Some(k) => [Target(k)] + Unescape(t[|Entity(k)|..])
      case None => [t[0]] + Unescape(t[1..])
  }

  lemma UnescapeStep(c: char, rest: string)
    ensures Unescape(EscapeChar(c) + rest) == [c] + Unescape(rest)
  {
    var e := EscapeChar(c);
    var t := e + rest;
    assert t[..|e|] == e && t[|e|..] == rest;
    if Index(c) < 5 {
      EntityAtOf(t, 0, Index(c));
    } else {
      assert t[0] == c && t[1..] == rest;
    }
  }

  /** Decoding the entities gives back the original text. */
  lemma {:induction false} UnescapeEscape(s: string)
    ensures Unescape(Escape(s)) == s
  {
    if s != [] {
      UnescapeStep(s[0], Escape(s[1..]));
      UnescapeEscape(s[1..]);
      assert [s[0]] + s[1..] == s;
    }
  }

  /** Only the first character of an entity is `&`. */
  lemma AmpersandFirst(k: nat, i: nat)
    requires k < 5 && i < |Entity(k)| && Entity(k)[i] == '&'
    ensures i == 0
  {
  }

  /** Every `&` in escaped text starts one of the five entities. */
  lemma {:induction false} AmpersandsStartEntities(s: string)
    ensures forall i :: 0 <= i < |Escape(s)| && Escape(s)[i] == '&' ==> EntityAt(Escape(s), i).Some?
  {
    if s != [] {
      var e := EscapeChar(s[0]);
      var rest := Escape(s[1..]);
      var t := e + rest;
      AmpersandsStartEntities(s[1..]);
      forall i | 0 <= i < |t| && t[i] == '&' ensures EntityAt(t, i).Some? {
        if i < |e| {
          AmpersandInHead(s[0], rest, i);
        } else {
          assert rest[i - |e|] == '&';
          AmpersandInRest(e, rest, i);
        }
      }
    }
  }

  /** An `&` written for the first character starts that character's entity. */
  lemma AmpersandInHead(c: char, rest: string, i: nat)
    requires i < |EscapeChar(c)| && (EscapeChar(c) + rest)[i] == '&'
    ensures EntityAt(EscapeChar(c) + rest, i).Some?
  {
    var e := EscapeChar(c);
    var t := e + rest;
    assert e[i] == '&';
    AmpersandFirst(Index(c), i);
    assert t[..|e|] == e;
    EntityAtOf(t, 0, Index(c));
  }

  /** An entity of the rest is still one after a prefix. */
  lemma AmpersandInRest(e: string, rest: string, i: nat)
    requires |e| <= i < |e| + |rest| && EntityAt(rest, i - |e|).Some?
    ensures EntityAt(e + rest, i).Some?
  {
    var t := e + rest;
    var j := i - |e|;
    var k := EntityAt(rest, j).value;
    var n := |Entity(k)|;
    assert t[i..i + n] == rest[j..j + n];
    EntityAtOf(t, i, k);
  }

  // ---------------------------------------------------------------------------
  // The popup address line

  /** `zip ? \`IL ${zip}\` : "IL"`. */
  function StatePart(zip: string): string {
    if zip != "" then "IL " + zip else "IL"
  }

  /** The popup address line: the escaped street, city and state part, the empty
      ones dropped (`filter(Boolean)`), joined with ", ". */
  function AddressLine(street: string, city: string, zip: string): string {
    var parts := [EscapeHtml(Some(street)), EscapeHtml(Some(city)), StatePart(EscapeHtml(Some(zip)))];
    Join(NonEmpty(parts), ", ")
  }

  lemma EscapeEmptyIff(s: string)
    ensures EscapeHtml(Some(s)) == "" <==> s == ""
  {
    EscapeHtmlIsMap(s);
    EscapeLength(s);
  }

  /** The address line lists the non-empty escaped street and city, in that order,
      each followed by ", ", and always ends with the state part. */
  lemma AddressLineParts(street: string, city: string, zip: string)
    ensures var st := EscapeHtml(Some(street)); var ci := EscapeHtml(Some(city));
      AddressLine(street, city, zip) ==
        (if street != "" then st + ", " else "") + (if city != "" then ci + ", " else "") + StatePart(EscapeHtml(Some(zip)))
  {
    EscapeEmptyIff(street);
    EscapeEmptyIff(city);
    var st := EscapeHtml(Some(street));
    var ci := EscapeHtml(Some(city));
    var il := StatePart(EscapeHtml(Some(zip)));
    var parts := [st, ci, il];
    assert parts[1..] == [ci, il] && [ci, il][1..] == [il] && [il][1..] == [];
    assert NonEmpty([il]) == [il];
    assert NonEmpty([ci, il]) == (if ci != "" then [ci] else []) + [il];
    assert NonEmpty(parts) == (if st != "" then [st] else []) + NonEmpty([ci, il]);
    assert Join([il], ", ") == il;
    if st != "" && ci != "" {
      assert NonEmpty(parts) == [st, ci, il];
      assert Join([ci, il], ", ") == ci + ", " + il;
      assert Join(parts, ", ") == st + ", " + Join([ci, il], ", ");
    } else if st != "" {
      assert NonEmpty(parts) == [st, il];
      assert [st, il][1..] == [il];
    } else if ci != "" {
      assert NonEmpty(parts) == [ci, il];
    } else {
      assert NonEmpty(parts) == [il];
    }
  }

  /** When the zip is empty the line ends in "IL"; otherwise in "IL " and the escaped zip. */
  lemma AddressLineEndsWithState(street: string, city: string, zip: string)
    ensures var line := AddressLine(street, city, zip); var il := StatePart(EscapeHtml(Some(zip)));
      |il| <= |line| && line[|line| - |il|..] == il
    ensures zip == "" <==> StatePart(EscapeHtml(Some(zip))) == "IL"
  {
    AddressLineParts(street, city, zip);
    EscapeEmptyIff(zip);
    if zip != "" {
      assert |StatePart(EscapeHtml(Some(zip)))| > 2;
    }
  }
}
