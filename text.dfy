/**
 * Character classes and the small pieces of Python's string handling the log
 * parser and the cache loaders rely on: greedy runs of a character class (what
 * `\s+`, `\S+` and `\d+` consume), `int(s, 10)` and `int(s, 16)` on digit
 * strings, `str(n)`, `str.split(sep)` and `str.split()`.
 */
module Text {

  /** Python's `str.isspace()`, which is also the class `\s` matches in a `str` pattern. */
  predicate IsSpace(c: char) {
    || ('\t' <= c <= '\r')
    || ('\U{1c}' <= c <= ' ')
    || c == '\U{85}' || c == '\U{a0}' || c == '\U{1680}'
    || ('\U{2000}' <= c <= '\U{200a}')
    || c == '\U{2028}' || c == '\U{2029}' || c == '\U{202f}' || c == '\U{205f}' || c == '\U{3000}'
  }

  predicate IsDigit(c: char) { '0' <= c <= '9' }

  predicate IsHexDigit(c: char) { IsDigit(c) || 'a' <= c <= 'f' || 'A' <= c <= 'F' }

  /**
   * The character classes the source's patterns use (`\s`, `\S`, `\d`, hex
   * digits and `.`), and the characters of an IP address literal.
   */
  datatype CharClass = Space | NonSpace | Digit | HexDigit | NotNewline | AddrChar | Ascii

  predicate In(c: char, k: CharClass) {
    match k
    case Space => IsSpace(c)
    case NonSpace => !IsSpace(c)
    case Digit => IsDigit(c)
    case HexDigit => IsHexDigit(c)
    case NotNewline => c != '\n'
    case AddrChar => IsHexDigit(c) || c == '.' || c == ':'
    case Ascii => c as int < 128
  }

  /** The characters of an address literal are ASCII and not blanks. */
  lemma AddrCharsAre(s: string)
    requires All(s, AddrChar)
    ensures All(s, NonSpace) && All(s, Ascii)
  {
  }

  /** Every character of `s` belongs to class `k`. */
  predicate All(s: string, k: CharClass) {
    forall i :: 0 <= i < |s| ==> In(s[i], k)
  }

  predicate StartsWith(s: string, prefix: string) {
    |prefix| <= |s| && s[..|prefix|] == prefix
  }

  predicate EndsWith(s: string, suffix: string) {
    |suffix| <= |s| && s[|s| - |suffix|..] == suffix
  }

  /**
   * Length of the longest prefix of `s` whose characters are in class `k`:
   * what a greedy `k*` consumes at the start of `s`.
   */
  function Span(s: string, k: CharClass): (n: nat)
    ensures n <= |s|
    ensures forall i :: 0 <= i < n ==> In(s[i], k)
    ensures n < |s| ==> !In(s[n], k)
  {
    if s == [] || !In(s[0], k) then 0 else 1 + Span(s[1..], k)
  }

  /** A run of class `k` followed by a character outside it (or by nothing) is exactly what `Span` measures. */
  lemma {:induction false} SpanOf(a: string, b: string, k: CharClass)
    requires All(a, k)
    requires b == [] || !In(b[0], k)
    ensures Span(a + b, k) == |a|
  {
    if a != [] {
      assert (a + b)[1..] == a[1..] + b;
      SpanOf(a[1..], b, k);
    } else {
      assert a + b == b;
    }
  }

  /** A greedy run of class `k` at the start of `s`, and what follows it. */
  function Cut(s: string, k: CharClass): (r: (string, string))
    ensures All(r.0, k)
    ensures r.1 == [] || !In(r.1[0], k)
  {
    var n := Span(s, k);
    (s[..n], s[n..])
  }

  lemma CutJoin(s: string, k: CharClass)
    ensures Cut(s, k).0 + Cut(s, k).1 == s
  {
    var n := Span(s, k);
    assert s[..n] + s[n..] == s;
  }

  lemma CutOf(a: string, b: string, k: CharClass)
    requires All(a, k)
    requires b == [] || !In(b[0], k)
    ensures Cut(a + b, k) == (a, b)
  {
    SpanOf(a, b, k);
    assert (a + b)[..|a|] == a && (a + b)[|a|..] == b;
  }

  lemma {:induction false} SpanAppend(a: string, b: string, k: CharClass)
    requires All(a, k)
    ensures Span(a + b, k) == |a| + Span(b, k)
  {
    if a != [] {
      assert (a + b)[1..] == a[1..] + b;
      SpanAppend(a[1..], b, k);
    } else {
      assert a + b == b;
    }
  }

  /** Cutting a run that starts with a whole run `a` of the class goes on past `a`. */
  lemma CutAppend(a: string, b: string, k: CharClass)
    requires All(a, k)
    ensures Cut(a + b, k) == (a + Cut(b, k).0, Cut(b, k).1)
  {
    SpanAppend(a, b, k);
    var n := Span(b, k);
    assert (a + b)[..|a| + n] == a + b[..n];
    assert (a + b)[|a| + n..] == b[n..];
  }

  function DigitValue(c: char): nat
    requires IsDigit(c)
  {
    c as int - '0' as int
  }

  function DigitChar(d: nat): (c: char)
    requires d < 10
    ensures IsDigit(c) && DigitValue(c) == d
  {
    ('0' as int + d) as char
  }

  /** Python's `int(s, 10)` on a non-empty string of ASCII digits (leading zeros allowed). */
  function Decimal(s: string): nat
    requires All(s, Digit)
  {
    if s == [] then 0 else 10 * Decimal(s[..|s| - 1]) + DigitValue(s[|s| - 1])
  }

  /** `int()` reads leading zeros as nothing: the value is 0 exactly when every digit is '0', and `k` digits stay below 10 to the power `k`. */
  lemma {:induction false} DecimalZeros(s: string)
    requires All(s, Digit)
    ensures Decimal(s) == 0 <==> forall i :: 0 <= i < |s| ==> s[i] == '0'
    ensures Decimal(s) < Pow(10, |s|)
  {
    if s != [] {
      var init := s[..|s| - 1];
      DecimalZeros(init);
      assert forall i :: 0 <= i < |init| ==> init[i] == s[i];
    }
  }

  /** Python's `str(n)` for a natural number: decimal digits, no leading zero. */
  function DecimalString(n: nat): (s: string)
    ensures |s| > 0 && All(s, Digit)
  {
    if n < 10 then [DigitChar(n)] else DecimalString(n / 10) + [DigitChar(n % 10)]
  }

  lemma {:induction false} DecimalRoundTrip(n: nat)
    ensures Decimal(DecimalString(n)) == n
  {
    if n >= 10 {
      var s := DecimalString(n);
      assert s[..|s| - 1] == DecimalString(n / 10);
      DecimalRoundTrip(n / 10);
    }
  }

  /** `str(n)` has no leading zero, and needs one digit below 10, two below 100, three below 1000. */
  lemma {:induction false} DecimalStringShape(n: nat)
    ensures n > 0 ==> DecimalString(n)[0] != '0'
    ensures n < 10 ==> |DecimalString(n)| == 1
    ensures 10 <= n < 100 ==> |DecimalString(n)| == 2
    ensures 100 <= n < 1000 ==> |DecimalString(n)| == 3
  {
    if n >= 10 {
      DecimalStringShape(n / 10);
    }
  }

  /** Two decimal digits with a leading zero, as in `%02d`. */
  function Pad2(n: nat): (s: string)
    requires n < 100
    ensures |s| == 2 && All(s, Digit)
  {
    [DigitChar(n / 10), DigitChar(n % 10)]
  }

  lemma Pad2RoundTrip(n: nat)
    requires n < 100
    ensures Decimal(Pad2(n)) == n
  {
    var s := Pad2(n);
    assert s[..1] == [s[0]] && [s[0]][..0] == [];
    assert Decimal([s[0]]) == DigitValue(s[0]);
  }

  function HexDigitValue(c: char): nat
    requires IsHexDigit(c)
  {
    if IsDigit(c) then c as int - '0' as int
    else if 'a' <= c <= 'f' then c as int - 'a' as int + 10
    else c as int - 'A' as int + 10
  }

  function HexChar(d: nat): (c: char)
    requires d < 16
    ensures IsHexDigit(c) && HexDigitValue(c) == d
  {
    if d < 10 then ('0' as int + d) as char else ('a' as int + d - 10) as char
  }

  /** Python's `int(s, 16)` on a string of hexadecimal digits. */
  function HexValue(s: string): nat
    requires All(s, HexDigit)
  {
    if s == [] then 0 else 16 * HexValue(s[..|s| - 1]) + HexDigitValue(s[|s| - 1])
  }

  function Pow(b: nat, e: nat): nat {
    if e == 0 then 1 else b * Pow(b, e - 1)
  }

  /** `k` hexadecimal digits hold a value below 16 to the power `k`. */
  lemma {:induction false} HexValueBound(s: string)
    requires All(s, HexDigit)
    ensures HexValue(s) < Pow(16, |s|)
  {
    if s != [] {
      HexValueBound(s[..|s| - 1]);
    }
  }

  /** A 16-bit value as four lower-case hexadecimal digits, as in `'%04x'`. */
  function Hex4(n: nat): (s: string)
    requires n < 0x1_0000
    ensures |s| == 4 && All(s, HexDigit)
  {
    var q1 := n / 16;
    var q2 := q1 / 16;
    var q3 := q2 / 16;
    [HexChar(q3), HexChar(q2 % 16), HexChar(q1 % 16), HexChar(n % 16)]
  }

  lemma Hex4RoundTrip(n: nat)
    requires n < 0x1_0000
    ensures HexValue(Hex4(n)) == n
  {
    var s := Hex4(n);
    var q1 := n / 16;
    var q2 := q1 / 16;
    var q3 := q2 / 16;
    assert s[..3] == [s[0], s[1], s[2]] && [s[0], s[1], s[2]][..2] == [s[0], s[1]];
    assert [s[0], s[1]][..1] == [s[0]] && [s[0]][..0] == [];
    assert HexValue([s[0]]) == q3;
    assert HexValue([s[0], s[1]]) == 16 * q3 + q2 % 16 == q2;
    assert HexValue([s[0], s[1], s[2]]) == 16 * q2 + q1 % 16 == q1;
  }

  /** Index of the first `sep` in `s`, or `|s|` when there is none. */
  function IndexOf(s: string, sep: char): (i: nat)
    ensures i <= |s|
    ensures i < |s| ==> s[i] == sep
    ensures forall j :: 0 <= j < i ==> s[j] != sep
  {
    if s == [] || s[0] == sep then 0 else 1 + IndexOf(s[1..], sep)
  }

  /** Python's `s.split(sep)` for a one-character separator: the pieces between separators, at least one. */
  function Split(s: string, sep: char): (parts: seq<string>)
    ensures |parts| >= 1
    ensures forall p :: p in parts ==> sep !in p
    decreases |s|
  {
    var i := IndexOf(s, sep);
    if i == |s| then [s] else [s[..i]] + Split(s[i + 1..], sep)
  }

  /** Python's `sep.join(parts)` for a one-character separator. */
  function Join(parts: seq<string>, sep: char): string
    requires |parts| >= 1
  {
    if |parts| == 1 then parts[0] else parts[0] + [sep] + Join(parts[1..], sep)
  }

  /** A joined string is in a class when its pieces and its separator are. */
  lemma {:induction false} JoinIn(parts: seq<string>, sep: char, k: CharClass)
    requires |parts| >= 1 && In(sep, k)
    requires forall i :: 0 <= i < |parts| ==> All(parts[i], k)
    ensures All(Join(parts, sep), k)
  {
    if |parts| > 1 {
      JoinIn(parts[1..], sep, k);
      var s := Join(parts, sep);
      assert s == parts[0] + [sep] + Join(parts[1..], sep);
      forall i | 0 <= i < |s| ensures In(s[i], k) {
        if i > |parts[0]| {
          assert s[i] == Join(parts[1..], sep)[i - |parts[0]| - 1];
        }
      }
    }
  }

  /** Splitting undoes joining when no piece contains the separator. */
  lemma {:induction false} SplitJoin(parts: seq<string>, sep: char)
    requires |parts| >= 1
    requires forall p :: p in parts ==> sep !in p
    ensures Split(Join(parts, sep), sep) == parts
  {
    var s := Join(parts, sep);
    assert parts[0] in parts;
    if |parts| > 1 {
      var rest := Join(parts[1..], sep);
      assert s == parts[0] + ([sep] + rest);
      assert IndexOf(s, sep) == |parts[0]| by {
        assert s[|parts[0]|] == sep;
        forall j | 0 <= j < |parts[0]| ensures s[j] != sep {
          assert s[j] == parts[0][j] && parts[0][j] in parts[0];
        }
      }
      assert s[..|parts[0]|] == parts[0];
      assert s[|parts[0]| + 1..] == rest;
      SplitJoin(parts[1..], sep);
    }
  }

  /** Python's `s.split()` with no argument: the maximal runs of non-whitespace, in order. */
  function Words(s: string): (ws: seq<string>)
    ensures forall w :: w in ws ==> |w| > 0 && All(w, NonSpace)
    decreases |s|
  {
    if s == [] then []
    else if IsSpace(s[0]) then Words(s[1..])
    else
      var n := Span(s, NonSpace);
      [s[..n]] + Words(s[n..])
  }

  /** Lines of text, each terminated by a newline. */
  function Unlines(ls: seq<string>): string {
    if ls == [] then [] else ls[0] + "\n" + Unlines(ls[1..])
  }

  /** Lines of a class that holds the newline make a text of that class. */
  lemma {:induction false} UnlinesIn(ls: seq<string>, k: CharClass)
    requires In('\n', k)
    requires forall i :: 0 <= i < |ls| ==> All(ls[i], k)
    ensures All(Unlines(ls), k)
  {
    if ls != [] {
      UnlinesIn(ls[1..], k);
      var s := Unlines(ls);
      assert s == ls[0] + ("\n" + Unlines(ls[1..]));
      forall i | 0 <= i < |s| ensures In(s[i], k) {
        if i > |ls[0]| {
          assert s[i] == Unlines(ls[1..])[i - |ls[0]| - 1];
        }
      }
    }
  }

  /** A file of one whitespace-free word per line is split back into exactly those words. */
  lemma {:induction false} WordsUnlines(ws: seq<string>)
    requires forall w :: w in ws ==> |w| > 0 && All(w, NonSpace)
    ensures Words(Unlines(ws)) == ws
  {
    if ws != [] {
      var w, rest := ws[0], Unlines(ws[1..]);
      var s := Unlines(ws);
      assert s == w + ("\n" + rest);
      SpanOf(w, "\n" + rest, NonSpace);
      assert s[..|w|] == w;
      assert s[|w|..] == "\n" + rest;
      assert ("\n" + rest)[1..] == rest;
      WordsUnlines(ws[1..]);
    }
  }

  function LowerAscii(c: char): char {
    if 'A' <= c <= 'Z' then (c as int + 32) as char else c
  }

  /** ASCII lower-casing, used for case-insensitive matching of month names. */
  function Lower(s: string): (r: string)
    ensures |r| == |s|
  {
    if s == [] then [] else [LowerAscii(s[0])] + Lower(s[1..])
  }
}
