/** String operations of JavaScript that the parsers rely on: the white space
    of `\s` and `trim()`, ASCII case folding (`toLowerCase` restricted to ASCII),
    the digits of `\d`, `includes`, `join`, `String(n)` and `padStart`. */
module Text {

  /** `\s` in a regular expression; also exactly what `trim()` removes. */
  predicate IsSpace(c: char) {
    var n := c as int;
    if n <= 0x20 then n == 0x20 || 0x09 <= n <= 0x0D
    else if n < 0xA0 then false
    else (n == 0xA0 || n == 0x1680 || (0x2000 <= n <= 0x200A) || n == 0x2028 || n == 0x2029 ||
          n == 0x202F || n == 0x205F || n == 0x3000 || n == 0xFEFF)
  }

  /** The characters that `.` in a regular expression does not match. */
  predicate IsLineTerminator(c: char) {
    var n := c as int;
    n == 0x0A || n == 0x0D || n == 0x2028 || n == 0x2029
  }

  /** `\d`. */
  predicate IsDigit(c: char) {
    '0' <= c <= '9'
  }

  /** `[A-Za-z]`, which the `i` flag does not widen. */
  predicate IsLetter(c: char) {
    'a' <= c <= 'z' || 'A' <= c <= 'Z'
  }

  /** ASCII `toLowerCase` of one character. */
  function LowerChar(c: char): (r: char)
    ensures 'A' <= c <= 'Z' ==> r as int == c as int + 32
    ensures !('A' <= c <= 'Z') ==> r == c
  {
    if 'A' <= c <= 'Z' then (c as int + 32) as char else c
  }

  /** ASCII `toLowerCase`. */
  function Lower(s: string): (r: string)
    ensures |r| == |s|
    ensures forall i :: 0 <= i < |s| ==> r[i] == LowerChar(s[i])
  {
    seq(|s|, i requires 0 <= i < |s| => LowerChar(s[i]))
  }

  lemma LowerConcat(a: string, b: string)
    ensures Lower(a + b) == Lower(a) + Lower(b)
  {
    assert forall i :: 0 <= i < |a + b| ==> Lower(a + b)[i] == (Lower(a) + Lower(b))[i];
  }

  /** Lowering commutes with dropping a prefix. */
  lemma LowerDrop(s: string, d: nat)
    requires d <= |s|
    ensures Lower(s[d..]) == Lower(s)[d..]
  {
  }

  /** Every position in `[i, j)` holds white space. */
  predicate SpacesIn(s: string, i: int, j: int) {
    forall k :: i <= k < j && 0 <= k < |s| ==> IsSpace(s[k])
  }

  /** Every position in `[i, j)` holds a decimal digit. */
  predicate DigitsIn(s: string, i: int, j: int) {
    forall k :: i <= k < j && 0 <= k < |s| ==> IsDigit(s[k])
  }

  /** Length of the run of white space that starts at position `i` (what `\s*` consumes). */
  function SpaceRun(s: string, i: nat): (n: nat)
    requires i <= |s|
    ensures i + n <= |s|
    ensures i + n < |s| ==> !IsSpace(s[i + n])
    decreases |s| - i
  {
    if i < |s| && IsSpace(s[i]) then 1 + SpaceRun(s, i + 1) else 0
  }

  /** The run consists of white space. */
  lemma {:induction false} SpaceRunSpaces(s: string, i: nat)
    requires i <= |s|
    ensures SpacesIn(s, i, i + SpaceRun(s, i))
    decreases |s| - i
  {
    if i < |s| && IsSpace(s[i]) {
      SpaceRunSpaces(s, i + 1);
    }
  }

  /** The run of white space at `i` is the only one with those two properties. */
  lemma {:induction false} SpaceRunIs(s: string, i: nat, n: nat)
    requires i + n <= |s| && SpacesIn(s, i, i + n)
    requires i + n < |s| ==> !IsSpace(s[i + n])
    ensures SpaceRun(s, i) == n
    decreases n
  {
    if n > 0 {
      SpaceRunIs(s, i + 1, n - 1);
    }
  }

  /** Length of the run of white space that ends just before position `j`. */
  function SpaceRunBack(s: string, j: nat): (n: nat)
    requires j <= |s|
    ensures n <= j && SpacesIn(s, j - n, j)
    ensures n < j ==> !IsSpace(s[j - n - 1])
  {
    if j > 0 && IsSpace(s[j - 1]) then 1 + SpaceRunBack(s, j - 1) else 0
  }

  /** `trim()`: the text between the leading and the trailing white space. */
  function Trim(s: string): (r: string)
    ensures |r| <= |s|
  {
    var a := SpaceRun(s, 0);
    var b := |s| - SpaceRunBack(s, |s|);
    if a < b then s[a..b] else []
  }

  /** `trim()` keeps one slice of its input, which neither starts nor ends with
      white space, and removes only white space around it. */
  lemma TrimIsSlice(s: string)
    ensures var r := Trim(s); var a := SpaceRun(s, 0);
      && a + |r| <= |s| && r == s[a..a + |r|]
      && SpacesIn(s, 0, a) && SpacesIn(s, a + |r|, |s|)
      && (r != [] ==> !IsSpace(r[0]) && !IsSpace(r[|r| - 1]))
  {
    var a := SpaceRun(s, 0);
    var b := |s| - SpaceRunBack(s, |s|);
    SpaceRunSpaces(s, 0);
    if a >= b {
      assert SpacesIn(s, a, |s|);
    }
  }

  /** Text that neither starts nor ends with white space is its own trim. */
  lemma TrimNoop(s: string)
    requires s != [] ==> !IsSpace(s[0]) && !IsSpace(s[|s| - 1])
    ensures Trim(s) == s
  {
    if s != [] {
      SpaceRunIs(s, 0, 0);
      assert SpaceRunBack(s, |s|) == 0;
    }
  }

  /** The run of white space before `j` is the only one with those two properties. */
  lemma {:induction false} SpaceRunBackIs(s: string, j: nat, n: nat)
    requires n <= j <= |s| && SpacesIn(s, j - n, j)
    requires n < j ==> !IsSpace(s[j - n - 1])
    ensures SpaceRunBack(s, j) == n
    decreases n
  {
    if n > 0 {
      SpaceRunBackIs(s, j - 1, n - 1);
    }
  }

  /** Text made of white space, a core that neither starts nor ends with white
      space, and white space, trims to the core. */
  lemma TrimIs(s: string, a: nat, r: string)
    requires a + |r| <= |s| && s[a..a + |r|] == r
    requires SpacesIn(s, 0, a) && SpacesIn(s, a + |r|, |s|)
    requires r != [] ==> !IsSpace(r[0]) && !IsSpace(r[|r| - 1])
    ensures Trim(s) == r
  {
    if r != [] {
      assert s[a] == r[0] && s[a + |r| - 1] == r[|r| - 1];
      SpaceRunIs(s, 0, a);
      SpaceRunBackIs(s, |s|, |s| - a - |r|);
    } else {
      SpaceRunIs(s, 0, |s|);
    }
  }

  lemma TrimTwice(s: string)
    ensures Trim(Trim(s)) == Trim(s)
  {
    TrimIsSlice(s);
    TrimNoop(Trim(s));
  }

  /** White space skipped before trimming makes no difference. */
  lemma TrimSkipSpaces(s: string, k: nat)
    requires k <= |s| && SpacesIn(s, 0, k)
    ensures Trim(s[k..]) == Trim(s)
  {
    TrimIsSlice(s);
    var r := Trim(s);
    var a := SpaceRun(s, 0);
    if r != [] {
      assert s[a] == r[0];
      assert k <= a;
      assert s[k..][a - k..a - k + |r|] == r;
      TrimIs(s[k..], a - k, r);
    } else {
      assert SpacesIn(s, 0, |s|);
      TrimIs(s[k..], 0, r);
    }
  }

  /** Trimming text that starts with `x`, where `x` neither starts nor ends with
      white space, keeps `x` at the front. */
  lemma TrimKeepsFront(x: string, tail: string)
    requires x != [] && !IsSpace(x[0]) && !IsSpace(x[|x| - 1])
    ensures |x| <= |Trim(x + tail)| && Trim(x + tail)[..|x|] == x
  {
    var s := x + tail;
    SpaceRunIs(s, 0, 0);
    var b := |s| - SpaceRunBack(s, |s|);
    assert s[|x| - 1] == x[|x| - 1];
    assert Trim(s) == s[0..b];
  }

  /** `sub` occurs in `s` at position `i`. */
  predicate OccursAt(s: string, sub: string, i: int) {
    0 <= i && i + |sub| <= |s| && s[i..i + |sub|] == sub
  }

  /** `s.includes(sub)`. */
  predicate Contains(s: string, sub: string) {
    exists i :: 0 <= i <= |s| && OccursAt(s, sub, i)
  }

  lemma ContainsLeft(a: string, b: string, sub: string)
    requires Contains(a, sub)
    ensures Contains(a + b, sub)
  {
    var i :| 0 <= i <= |a| && OccursAt(a, sub, i);
    assert (a + b)[i..i + |sub|] == sub;
    assert OccursAt(a + b, sub, i);
  }

  lemma ContainsRight(a: string, b: string, sub: string)
    requires Contains(b, sub)
    ensures Contains(a + b, sub)
  {
    var i :| 0 <= i <= |b| && OccursAt(b, sub, i);
    assert (a + b)[|a| + i..|a| + i + |sub|] == sub;
    assert OccursAt(a + b, sub, |a| + i);
  }

  lemma SliceAt(s: string, i: nat, n: nat, k: nat)
    requires i + n <= |s| && k < n
    ensures s[i..i + n][k] == s[i + k]
  {
  }

  /** A slice of `p + b` that starts past `p` is a slice of `b`. */
  lemma SliceRight(p: string, b: string, i: nat, n: nat)
    requires |p| <= i && i + n <= |p| + |b|
    ensures (p + b)[i..i + n] == b[i - |p|..i - |p| + n]
  {
    var l, r := (p + b)[i..i + n], b[i - |p|..i - |p| + n];
    forall k | 0 <= k < n ensures l[k] == r[k] {
      assert l[k] == (p + b)[i + k];
    }
  }

  /** An occurrence of `sub` in `a + [c] + b`, where `c` does not occur in `sub`,
      is an occurrence in `a` or in `b`. */
  lemma ContainsAcross(a: string, c: char, b: string, sub: string)
    requires forall k :: 0 <= k < |sub| ==> sub[k] != c
    ensures Contains(a + [c] + b, sub) <==> Contains(a, sub) || Contains(b, sub)
  {
    var s := a + [c] + b;
    if Contains(s, sub) {
      var i :| 0 <= i <= |s| && OccursAt(s, sub, i);
      if i + |sub| <= |a| {
        assert a[i..i + |sub|] == s[i..i + |sub|];
        assert OccursAt(a, sub, i);
      } else if i <= |a| {
        SliceAt(s, i, |sub|, |a| - i);
        assert false;
      } else {
        var j := i - |a| - 1;
        SliceRight(a + [c], b, i, |sub|);
        assert s == (a + [c]) + b;
        assert OccursAt(b, sub, j);
      }
    }
    if Contains(a, sub) {
      ContainsLeft(a, [c] + b, sub);
      assert a + ([c] + b) == s;
    }
    if Contains(b, sub) {
      ContainsRight(a + [c], b, sub);
    }
  }

  /** `parts.join(sep)`. */
  function Join(parts: seq<string>, sep: string): string {
    if |parts| == 0 then ""
    else if |parts| == 1 then parts[0]
    else parts[0] + sep + Join(parts[1..], sep)
  }

  /** `filter(Boolean)` on strings: the non-empty ones, in order. */
  function NonEmpty(parts: seq<string>): (r: seq<string>)
    ensures |r| <= |parts|
    ensures forall i :: 0 <= i < |r| ==> r[i] != ""
  {
    if parts == [] then [] else (if parts[0] != "" then [parts[0]] else []) + NonEmpty(parts[1..])
  }

  /** The survivors of `filter(Boolean)` are the non-empty parts. */
  lemma {:induction false} NonEmptyMember(parts: seq<string>, x: string)
    ensures x in NonEmpty(parts) <==> x in parts && x != ""
  {
    if parts != [] {
      NonEmptyMember(parts[1..], x);
      assert parts == [parts[0]] + parts[1..];
    }
  }

  /** An occurrence of `sub` in parts joined by `c`, where `c` does not occur in
      `sub`, lies inside one of the parts. */
  lemma {:induction false} ContainsJoin(parts: seq<string>, c: char, sub: string)
    requires sub != [] && forall k :: 0 <= k < |sub| ==> sub[k] != c
    ensures Contains(Join(parts, [c]), sub) <==> exists i :: 0 <= i < |parts| && Contains(parts[i], sub)
    decreases |parts|
  {
    if |parts| >= 2 {
      var rest := parts[1..];
      ContainsJoin(rest, c, sub);
      ContainsAcross(parts[0], c, Join(rest, [c]), sub);
      if exists i :: 0 <= i < |rest| && Contains(rest[i], sub) {
        var i :| 0 <= i < |rest| && Contains(rest[i], sub);
        assert parts[i + 1] == rest[i];
      }
      if exists i :: 0 <= i < |parts| && Contains(parts[i], sub) {
        var i :| 0 <= i < |parts| && Contains(parts[i], sub);
        if i > 0 {
          assert rest[i - 1] == parts[i];
        }
      }
    } else if |parts| == 0 {
      assert !Contains("", sub);
    }
  }

  lemma LowerJoin(parts: seq<string>, sep: string)
    ensures Lower(Join(parts, sep)) == Join(seq(|parts|, i requires 0 <= i < |parts| => Lower(parts[i])), Lower(sep))
    decreases |parts|
  {
    var low := seq(|parts|, i requires 0 <= i < |parts| => Lower(parts[i]));
    if |parts| >= 2 {
      LowerConcat(parts[0], sep);
      LowerConcat(parts[0] + sep, Join(parts[1..], sep));
      LowerJoin(parts[1..], sep);
      assert low[1..] == seq(|parts| - 1, i requires 0 <= i < |parts| - 1 => Lower(parts[1..][i]));
    }
  }

  /** `parts.filter(Boolean).join(" ").toLowerCase()` holds a text without a
      space exactly when one of the parts, lower-cased, holds it. */
  lemma ContainsJoinedLower(parts: seq<string>, sub: string)
    requires sub != [] && forall k :: 0 <= k < |sub| ==> sub[k] != ' '
    ensures Contains(Lower(Join(NonEmpty(parts), " ")), sub) <==> exists x :: x in parts && Contains(Lower(x), sub)
  {
    var ne := NonEmpty(parts);
    var low := seq(|ne|, i requires 0 <= i < |ne| => Lower(ne[i]));
    LowerJoin(ne, " ");
    assert Lower(" ") == [' '];
    ContainsJoin(low, ' ', sub);
    if Contains(Lower(Join(ne, " ")), sub) {
      var i :| 0 <= i < |low| && Contains(low[i], sub);
      assert ne[i] in ne;
      NonEmptyMember(parts, ne[i]);
    }
    forall x | x in parts && Contains(Lower(x), sub) ensures Contains(Lower(Join(ne, " ")), sub) {
      assert x != "";
      NonEmptyMember(parts, x);
      var i :| 0 <= i < |ne| && ne[i] == x;
      assert low[i] == Lower(x);
    }
  }

  function DigitChar(d: nat): (c: char)
    requires d < 10
    ensures IsDigit(c) && c as int - '0' as int == d
  {
    ('0' as int + d) as char
  }

  /** `String(n)` for a non-negative integer. */
  function NatToString(n: nat): (s: string)
    ensures s != [] && DigitsIn(s, 0, |s|)
    ensures n < 10 <==> |s| == 1
    ensures n < 100 <==> |s| <= 2
  {
    if n < 10 then [DigitChar(n)] else NatToString(n / 10) + [DigitChar(n % 10)]
  }

  /** The value of a decimal digit. */
  function DigitValue(c: char): (v: nat)
    ensures IsDigit(c) ==> v == c as int - '0' as int
  {
    if IsDigit(c) then c as int - '0' as int else 0
  }

  /** `parseInt` of the digits at positions `[i, j)`. */
  function ValueIn(s: string, i: nat, j: nat): nat
    requires i <= j <= |s|
    decreases j - i
  {
    if i == j then 0 else 10 * ValueIn(s, i, j - 1) + DigitValue(s[j - 1])
  }

  /** The value of a range depends only on the characters in it. */
  lemma {:induction false} ValueInShift(s: string, i: nat, j: nat, u: string, k: nat)
    requires i <= j <= |s|
    requires k + (j - i) <= |u| && forall m :: k <= m < k + (j - i) ==> u[m] == s[m - k + i]
    ensures ValueIn(u, k, k + (j - i)) == ValueIn(s, i, j)
    decreases j - i
  {
    if i < j {
      ValueInShift(s, i, j - 1, u, k);
    }
  }

  /** The value of a range is the value of the slice it spans. */
  lemma ValueInSlice(s: string, i: nat, j: nat)
    requires i <= j <= |s|
    ensures ValueIn(s[i..j], 0, j - i) == ValueIn(s, i, j)
  {
    ValueInShift(s, i, j, s[i..j], 0);
  }

  lemma {:induction false} ValueOfNatToString(n: nat)
    ensures ValueIn(NatToString(n), 0, |NatToString(n)|) == n
  {
    var s := NatToString(n);
    if n >= 10 {
      var p := NatToString(n / 10);
      ValueOfNatToString(n / 10);
      ValueInShift(p, 0, |p|, s, 0);
    }
  }

  lemma NatToStringInjective(m: nat, n: nat)
    requires NatToString(m) == NatToString(n)
    ensures m == n
  {
    ValueOfNatToString(m);
    ValueOfNatToString(n);
  }

  /** A decimal spelling as `String(n)` writes it: digits, and no leading zero
      unless the number is 0. */
  predicate Canonical(name: string) {
    name != [] && DigitsIn(name, 0, |name|) && (name[0] != '0' || |name| == 1)
  }

  lemma {:induction false} NatToStringLead(n: nat)
    ensures n >= 10 ==> NatToString(n)[0] != '0'
  {
    if n >= 10 {
      NatToStringLead(n / 10);
    }
  }

  lemma {:induction false} ValueInAtLeastLead(s: string, j: nat)
    requires 1 <= j <= |s|
    ensures ValueIn(s, 0, j) >= DigitValue(s[0])
  {
    if j > 1 {
      ValueInAtLeastLead(s, j - 1);
    }
  }

  /** Printing the value of a canonical spelling gives the spelling back. */
  lemma {:induction false} NatToStringOfValue(name: string)
    requires Canonical(name)
    ensures NatToString(ValueIn(name, 0, |name|)) == name
    decreases |name|
  {
    var n := |name|;
    if n == 1 {
      assert DigitChar(DigitValue(name[0])) == name[0];
      assert [name[0]] == name;
    } else {
      var p := name[..n - 1];
      ValueInShift(name, 0, n - 1, p, 0);
      NatToStringOfValue(p);
      ValueInAtLeastLead(p, n - 1);
      var v := ValueIn(name, 0, n);
      var d := DigitValue(name[n - 1]);
      assert v == 10 * ValueIn(p, 0, n - 1) + d && d < 10;
      assert v / 10 == ValueIn(p, 0, n - 1) && v % 10 == d;
      assert DigitChar(d) == name[n - 1];
      assert p + [name[n - 1]] == name;
    }
  }

  /** The canonical spellings are exactly the results of `String(n)`. */
  lemma NatToStringCanonical(n: nat)
    ensures Canonical(NatToString(n))
  {
    NatToStringLead(n);
  }

  /** The number of digits of a number between 10000 and 99999. */
  lemma {:induction false} NatToStringFive(n: nat)
    requires 10000 <= n < 100000
    ensures |NatToString(n)| == 5
  {
    assert NatToString(n) == NatToString(n / 10) + [DigitChar(n % 10)];
    assert NatToString(n / 10) == NatToString(n / 100) + [DigitChar(n / 10 % 10)];
    assert NatToString(n / 100) == NatToString(n / 1000) + [DigitChar(n / 100 % 10)];
  }

  /** `padStart(2, "0")`. */
  function Pad2(s: string): string {
    if |s| == 0 then "00" else if |s| == 1 then "0" + s else s
  }

  /** Printing the value of two digits and padding it to two gives the digits back. */
  lemma PadTwoDigits(s: string, k: nat)
    requires k + 2 <= |s| && IsDigit(s[k]) && IsDigit(s[k + 1])
    ensures Pad2(NatToString(ValueIn(s, k, k + 2))) == s[k..k + 2]
  {
    var a := s[k] as int - '0' as int;
    var b := s[k + 1] as int - '0' as int;
    assert ValueIn(s, k, k + 1) == 10 * ValueIn(s, k, k) + a;
    var v := ValueIn(s, k, k + 2);
    assert v == 10 * a + b;
    assert DigitChar(a) == s[k] && DigitChar(b) == s[k + 1];
    if a == 0 {
      assert NatToString(v) == [DigitChar(b)];
    } else {
      assert v / 10 == a && v % 10 == b;
      assert NatToString(v) == NatToString(a) + [DigitChar(b)];
    }
  }
}
