/**
 String helpers that stand in for the JavaScript string built-ins the front end
 uses: decimal rendering of numbers, `padStart(2, '0')`, `split`, `join`,
 `trim`, `includes`, the `"`-doubling `replace` of the CSV export, and the
 code-unit ordering behind `<=` on strings.
 */
module Text {

  // ---------------------------------------------------------------------------
  // Digits and decimal numbers
  // ---------------------------------------------------------------------------

  predicate IsDigit(c: char) {
    '0' <= c <= '9'
  }

  predicate AllDigits(s: string) {
    forall i :: 0 <= i < |s| ==> IsDigit(s[i])
  }

  function DigitChar(d: nat): (c: char)
    requires d < 10
    ensures IsDigit(c)
    ensures DigitValue(c) == d
  {
    ['0', '1', '2', '3', '4', '5', '6', '7', '8', '9'][d]
  }

  function DigitValue(c: char): (d: nat)
    requires IsDigit(c)
    ensures d < 10
  {
    (c as int - '0' as int) as nat
  }

  /** The value of a string of decimal digits, most significant first. */
  function ParseNat(s: string): nat
    requires AllDigits(s)
  {
    if |s| == 0 then 0 else ParseNat(s[..|s| - 1]) * 10 + DigitValue(s[|s| - 1])
  }

  function Pow10(n: nat): (p: nat)
    ensures p >= 1
  {
    if n == 0 then 1 else 10 * Pow10(n - 1)
  }

  /** `String(n)` for a natural number: shortest decimal form. */
  function NatToString(n: nat): (s: string)
    ensures 1 <= |s| && AllDigits(s)
    ensures ParseNat(s) == n
    ensures |s| == 1 || s[0] != '0'
    ensures n < 10 <==> |s| == 1
    decreases n
  {
    if n < 10 then [DigitChar(n)]
    else
      var front := NatToString(n / 10);
      var s := front + [DigitChar(n % 10)];
      assert s[..|s| - 1] == front;
      s
  }

  /** `String(i)` for an integer: a leading '-' for negatives. */
  function IntToString(i: int): (s: string)
    ensures 1 <= |s|
    ensures i >= 0 ==> s == NatToString(i)
    ensures i < 0 ==> s == "-" + NatToString(-i)
  {
    if i < 0 then "-" + NatToString(-i) else NatToString(i)
  }

  /** `s.padStart(2, '0')`: left-pads with zeros up to two characters. */
  function PadStart2(s: string): (r: string)
    ensures |s| >= 2 ==> r == s
    ensures |s| < 2 ==> |r| == 2
    ensures |r| >= |s| && r[|r| - |s|..] == s
    ensures forall i :: 0 <= i < |r| - |s| ==> r[i] == '0'
  {
    if |s| >= 2 then s else if |s| == 1 then "0" + s else "00"
  }

  /** `String(n).padStart(2, '0')`. */
  function TwoDigits(n: nat): string {
    PadStart2(NatToString(n))
  }

  lemma {:induction false} ParseNatLeadingZero(s: string)
    requires AllDigits(s)
    ensures AllDigits("0" + s) && ParseNat("0" + s) == ParseNat(s)
    decreases |s|
  {
    if |s| > 0 {
      var t := "0" + s;
      assert t[..|t| - 1] == "0" + s[..|s| - 1];
      ParseNatLeadingZero(s[..|s| - 1]);
    }
  }

  /** Below one hundred, the padded form has exactly two digits and reads back as `n`. */
  lemma TwoDigitsRoundTrip(n: nat)
    requires n < 100
    ensures var t := TwoDigits(n); |t| == 2 && AllDigits(t) && ParseNat(t) == n
  {
    var s := NatToString(n);
    if n < 10 {
      ParseNatLeadingZero(s);
      assert TwoDigits(n) == "0" + s;
    }
  }

  lemma {:induction false} ParseNatBound(s: string)
    requires AllDigits(s)
    ensures ParseNat(s) < Pow10(|s|)
    decreases |s|
  {
    if |s| > 0 {
      ParseNatBound(s[..|s| - 1]);
    }
  }

  /** Appending a digit to `d * p + x` multiplies both parts by ten. */
  lemma ShiftDigit(d: int, p: int, x: int, e: int)
    ensures (d * p + x) * 10 + e == d * (10 * p) + (x * 10 + e)
  {
  }

  /** Reading a digit string from the front: the first digit weighs 10^(|s|-1). */
  lemma {:induction false} ParseNatFront(s: string)
    requires |s| >= 1 && AllDigits(s)
    ensures ParseNat(s) == DigitValue(s[0]) * Pow10(|s| - 1) + ParseNat(s[1..])
    decreases |s|
  {
    if |s| > 1 {
      var init := s[..|s| - 1];
      assert AllDigits(init) && AllDigits(s[1..]) && AllDigits(init[1..]);
      var d, p, x, e := DigitValue(s[0]), Pow10(|s| - 2), ParseNat(init[1..]), DigitValue(s[|s| - 1]);
      assert ParseNat(init) == d * p + x by {
        ParseNatFront(init);
        assert init[0] == s[0];
      }
      assert ParseNat(s[1..]) == x * 10 + e by {
        assert init[1..] == s[1..][..|s[1..]| - 1];
      }
      ShiftDigit(d, p, x, e);
    } else {
      assert s[1..] == "";
    }
  }

  // ---------------------------------------------------------------------------
  // Lexicographic order (JavaScript `<=` on strings, by character)
  // ---------------------------------------------------------------------------

  predicate LexLe(a: string, b: string)
    decreases |a|
  {
    if |a| == 0 then true
    else if |b| == 0 then false
    else if a[0] != b[0] then a[0] < b[0]
    else LexLe(a[1..], b[1..])
  }

  /** Comparing two concatenations whose first parts have equal length. */
  lemma {:induction false} LexLeConcat(x: string, y: string, x': string, y': string)
    requires |x| == |x'|
    ensures LexLe(x + y, x' + y') <==> (x != x' && LexLe(x, x')) || (x == x' && LexLe(y, y'))
    decreases |x|
  {
    if |x| == 0 {
      assert x + y == y && x' + y' == y';
    } else {
      assert (x + y)[0] == x[0] && (x' + y')[0] == x'[0];
      assert (x + y)[1..] == x[1..] + y && (x' + y')[1..] == x'[1..] + y';
      LexLeConcat(x[1..], y, x'[1..], y');
      if x[0] == x'[0] {
        assert x == x' <==> x[1..] == x'[1..];
      }
    }
  }

  lemma LeadingDigitDecides(d: nat, d': nat, p: nat, x: nat, x': nat)
    requires d < d' && x < p
    ensures d * p + x < d' * p + x'
  {
    var k: nat := d' - d - 1;
    assert d' * p == d * p + p + k * p;
  }

  /** On digit strings of equal width, string order is numeric order. */
  lemma {:induction false} LexLeDigits(a: string, b: string)
    requires |a| == |b| && AllDigits(a) && AllDigits(b)
    ensures LexLe(a, b) <==> ParseNat(a) <= ParseNat(b)
    ensures a == b <==> ParseNat(a) == ParseNat(b)
    decreases |a|
  {
    if |a| > 0 {
      ParseNatFront(a);
      ParseNatFront(b);
      ParseNatBound(a[1..]);
      ParseNatBound(b[1..]);
      LexLeDigits(a[1..], b[1..]);
      var p := Pow10(|a| - 1);
      var da, db := DigitValue(a[0]), DigitValue(b[0]);
      if da < db {
        LeadingDigitDecides(da, db, p, ParseNat(a[1..]), ParseNat(b[1..]));
      } else if da > db {
        LeadingDigitDecides(db, da, p, ParseNat(b[1..]), ParseNat(a[1..]));
      } else {
        assert a[0] == b[0];
        assert a == b <==> a[1..] == b[1..] by {
          if a[1..] == b[1..] {
            assert a == [a[0]] + a[1..] && b == [b[0]] + b[1..];
          }
        }
      }
    }
  }

  // ---------------------------------------------------------------------------
  // split / join
  // ---------------------------------------------------------------------------

  /** `s.split(sep)` for a one-character separator: always at least one part. */
  function Split(s: string, sep: char): (parts: seq<string>)
    ensures |parts| >= 1
    decreases |s|
  {
    if |s| == 0 then [""]
    else
      var rest := Split(s[1..], sep);
      if s[0] == sep then [""] + rest
      else [[s[0]] + rest[0]] + rest[1..]
  }

  /** `parts.join(sep)`. */
  function Join(parts: seq<string>, sep: string): string {
    if |parts| == 0 then ""
    else if |parts| == 1 then parts[0]
    else parts[0] + sep + Join(parts[1..], sep)
  }

  lemma {:induction false} SplitNoSep(a: string, sep: char)
    requires sep !in a
    ensures Split(a, sep) == [a]
    decreases |a|
  {
    if |a| > 0 {
      SplitNoSep(a[1..], sep);
      assert [a[0]] + a[1..] == a;
    }
  }

  lemma {:induction false} SplitAfterPart(a: string, sep: char, b: string)
    requires sep !in a
    ensures Split(a + [sep] + b, sep) == [a] + Split(b, sep)
    decreases |a|
  {
    var s := a + [sep] + b;
    if |a| == 0 {
      assert s[1..] == b;
    } else {
      assert s[1..] == a[1..] + [sep] + b;
      SplitAfterPart(a[1..], sep, b);
      assert [a[0]] + a[1..] == a;
    }
  }

  /** Joining separator-free parts and splitting again gives the parts back. */
  lemma {:induction false} SplitJoin(parts: seq<string>, sep: char)
    requires |parts| >= 1
    requires forall i :: 0 <= i < |parts| ==> sep !in parts[i]
    ensures Split(Join(parts, [sep]), sep) == parts
    decreases |parts|
  {
    if |parts| == 1 {
      SplitNoSep(parts[0], sep);
    } else {
      SplitJoin(parts[1..], sep);
      SplitAfterPart(parts[0], sep, Join(parts[1..], [sep]));
      assert parts == [parts[0]] + parts[1..];
    }
  }

  /** A first line and further lines, none holding the separator, split back apart after joining. */
  lemma SplitJoinAfter(first: string, more: seq<string>, sep: char)
    requires sep !in first
    requires forall k :: 0 <= k < |more| ==> sep !in more[k]
    ensures Split(Join([first] + more, [sep]), sep) == [first] + more
  {
    var all := [first] + more;
    forall i | 0 <= i < |all|
      ensures sep !in all[i]
    {
      if i > 0 {
        assert all[i] == more[i - 1];
      }
    }
    SplitJoin(all, sep);
  }

  /** Text after a join of two or more parts: the first part, the separator, then the rest of the join. */
  lemma JoinFirst(parts: seq<string>, sep: string, after: string)
    requires |parts| >= 2
    ensures Join(parts, sep) + after == parts[0] + sep + (Join(parts[1..], sep) + after)
  {
  }

  /** Splitting three separator-free parts joined by the separator gives the three parts. */
  lemma SplitThree(a: string, b: string, c: string, sep: char)
    requires sep !in a && sep !in b && sep !in c
    ensures Join([a, b, c], [sep]) == a + [sep] + b + [sep] + c
    ensures Split(a + [sep] + b + [sep] + c, sep) == [a, b, c]
  {
    var parts := [a, b, c];
    assert parts[1..] == [b, c] && parts[1..][1..] == [c];
    assert Join([b, c], [sep]) == b + [sep] + c;
    assert Join(parts, [sep]) == a + [sep] + b + [sep] + c;
    assert forall i :: 0 <= i < |parts| ==> sep !in parts[i];
    SplitJoin(parts, sep);
  }

  // ---------------------------------------------------------------------------
  // trim
  // ---------------------------------------------------------------------------

  /** The characters `String.prototype.trim` removes: WhiteSpace and LineTerminator. */
  predicate IsJsSpace(c: char) {
    || c == '\t' || c == '\n' || c == '\U{000B}' || c == '\U{000C}' || c == '\r' || c == ' '
    || c == '\U{00A0}' || c == '\U{1680}' || ('\U{2000}' <= c <= '\U{200A}')
    || c == '\U{2028}' || c == '\U{2029}' || c == '\U{202F}' || c == '\U{205F}'
    || c == '\U{3000}' || c == '\U{FEFF}'
  }

  function TrimStart(s: string): (r: string)
    ensures |r| <= |s| && r == s[|s| - |r|..]
    ensures |r| > 0 ==> !IsJsSpace(r[0])
    ensures forall i :: 0 <= i < |s| - |r| ==> IsJsSpace(s[i])
    decreases |s|
  {
    if |s| > 0 && IsJsSpace(s[0]) then TrimStart(s[1..]) else s
  }

  function TrimEnd(s: string): (r: string)
    ensures |r| <= |s| && r == s[..|r|]
    ensures |r| > 0 ==> !IsJsSpace(r[|r| - 1])
    ensures forall i :: |r| <= i < |s| ==> IsJsSpace(s[i])
    decreases |s|
  {
    if |s| > 0 && IsJsSpace(s[|s| - 1]) then TrimEnd(s[..|s| - 1]) else s
  }

  /** `s.trim()`: the slice of `s` left after dropping white space at both ends. */
  function Trim(s: string): (r: string)
    ensures LeadingSpaces(s) + |r| <= |s|
    ensures r == s[LeadingSpaces(s)..LeadingSpaces(s) + |r|]
  {
    var i := LeadingSpaces(s);
    var r := TrimEnd(s[i..]);
    assert s[i..][..|r|] == s[i..i + |r|];
    r
  }

  /**
   `trim` drops nothing but white space, at either end, and all of it: what
   is left neither starts nor ends with white space.
   */
  lemma TrimDropsOnlySpace(s: string)
    ensures forall k :: 0 <= k < LeadingSpaces(s) ==> IsJsSpace(s[k])
    ensures forall k :: LeadingSpaces(s) + |Trim(s)| <= k < |s| ==> IsJsSpace(s[k])
    ensures var r := Trim(s); |r| > 0 ==> !IsJsSpace(r[0]) && !IsJsSpace(r[|r| - 1])
  {
    var i := LeadingSpaces(s);
    var t := TrimStart(s);
    TrimEndOfSuffix(s, i);
    var r := Trim(s);
    if |r| > 0 {
      assert t == s[i..];
      assert r[0] == t[0];
    }
  }

  /** Trimming the end of a suffix `s[i..]` keeps a slice of `s` and drops only white space after it. */
  lemma TrimEndOfSuffix(s: string, i: nat)
    requires i <= |s|
    ensures var r := TrimEnd(s[i..]);
      i + |r| <= |s| && r == s[i..i + |r|]
      && forall k :: i + |r| <= k < |s| ==> IsJsSpace(s[k])
  {
    var t := s[i..];
    var r := TrimEnd(t);
    forall k | i + |r| <= k < |s|
      ensures IsJsSpace(s[k])
    {
      assert s[k] == t[k - i];
    }
  }

  /** How many white-space characters `trim` drops at the front. */
  function LeadingSpaces(s: string): (n: nat)
    ensures n <= |s|
  {
    |s| - |TrimStart(s)|
  }

  // ---------------------------------------------------------------------------
  // includes / quote doubling
  // ---------------------------------------------------------------------------

  /** `s.includes(sub)`. */
  predicate Contains(s: string, sub: string)
    decreases |s|
  {
    (|sub| <= |s| && s[..|sub|] == sub) || (|s| > 0 && Contains(s[1..], sub))
  }

  /** `s.replace(/"/g, '""')`. */
  function DoubleQuotes(s: string): (r: string)
    ensures |r| >= |s|
  {
    if |s| == 0 then ""
    else if s[0] == '"' then "\"\"" + DoubleQuotes(s[1..])
    else [s[0]] + DoubleQuotes(s[1..])
  }

  /** A CSV text field: wrapped in `"`, every inner `"` doubled. */
  function QuoteField(s: string): string {
    "\"" + DoubleQuotes(s) + "\""
  }

  /**
   Reads a quoted field's content up to its closing quote (the opening quote
   already consumed): `""` stands for one `"`, a lone `"` ends the field.
   Returns the content and what follows the closing quote.
   */
  function ReadQuoted(t: string): Option2<string, string>
    decreases |t|
  {
    if |t| == 0 then None2
    else if t[0] == '"' then
      if |t| >= 2 && t[1] == '"' then
        match ReadQuoted(t[2..])
        case None2 => None2
        case Some2(content, rest) => Some2("\"" + content, rest)
      else Some2("", t[1..])
    else
      match ReadQuoted(t[1..])
      case None2 => None2
      case Some2(content, rest) => Some2([t[0]] + content, rest)
  }

  datatype Option2<A, B> = None2 | Some2(first: A, second: B)

  /**
   A quoted field can be read back exactly, even when further CSV text follows,
   as long as that text does not start with a quote.
   */
  lemma {:induction false} ReadQuotedDoubleQuotes(s: string, rest: string)
    requires |rest| == 0 || rest[0] != '"'
    ensures ReadQuoted(DoubleQuotes(s) + "\"" + rest) == Some2(s, rest)
    decreases |s|
  {
    var t := DoubleQuotes(s) + "\"" + rest;
    if |s| == 0 {
      assert t == "\"" + rest;
      assert t[1..] == rest;
    } else if s[0] == '"' {
      assert t == "\"\"" + (DoubleQuotes(s[1..]) + "\"" + rest);
      assert t[2..] == DoubleQuotes(s[1..]) + "\"" + rest;
      ReadQuotedDoubleQuotes(s[1..], rest);
      assert "\"" + s[1..] == s;
    } else {
      assert t == [s[0]] + (DoubleQuotes(s[1..]) + "\"" + rest);
      assert t[1..] == DoubleQuotes(s[1..]) + "\"" + rest;
      ReadQuotedDoubleQuotes(s[1..], rest);
      assert [s[0]] + s[1..] == s;
    }
  }
}
