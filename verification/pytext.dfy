/**
 * The few Python string primitives the storage format relies on:
 * `str.strip()`, `str.split(sep)`, `int(s)` for base-10 text and `str(n)`
 * for integers. Characters are Unicode code points (`char`).
 */
module PyText {
  import opened Wrappers

  /** Python's `str.isspace()` for a single character. */
  predicate IsSpace(c: char) {
    || '\t' <= c <= '\r' || '\U{1c}' <= c <= ' ' || c == '\U{85}' || c == '\U{a0}'
    || c == '\U{1680}' || '\U{2000}' <= c <= '\U{200a}' || c == '\U{2028}' || c == '\U{2029}'
    || c == '\U{202f}' || c == '\U{205f}' || c == '\U{3000}'
  }

  /**
   * ASCII whitespace: tab, line feed, vertical tab, form feed, carriage
   * return and space.
   */
  predicate IsAsciiSpace(c: char) {
    '\t' <= c <= '\r' || c == ' '
  }

  /**
   * The whitespace `int()` skips around its digits. CPython copies ASCII
   * characters unchanged and turns only non-ASCII `isspace` characters into
   * spaces, then its digit parser skips ASCII whitespace; so U+001C to U+001F,
   * which `str.strip()` removes, are not skipped.
   */
  predicate IsIntSpace(c: char) {
    IsAsciiSpace(c) || (c >= '\U{80}' && IsSpace(c))
  }

  /** How many blank characters `s` starts with. */
  function LeadingSpaces(s: string, blank: char -> bool): (n: nat)
    ensures n <= |s|
    ensures forall k :: 0 <= k < n ==> blank(s[k])
    ensures n < |s| ==> !blank(s[n])
  {
    if s != [] && blank(s[0]) then 1 + LeadingSpaces(s[1..], blank) else 0
  }

  /** How many blank characters `s` ends with. */
  function TrailingSpaces(s: string, blank: char -> bool): (n: nat)
    ensures n <= |s|
    ensures forall k :: |s| - n <= k < |s| ==> blank(s[k])
    ensures n < |s| ==> !blank(s[|s| - 1 - n])
  {
    if s != [] && blank(s[|s| - 1]) then 1 + TrailingSpaces(s[..|s| - 1], blank) else 0
  }

  /** `s` with its blank characters removed from both ends. */
  function Trim(s: string, blank: char -> bool): string {
    var t := s[LeadingSpaces(s, blank)..];
    t[..|t| - TrailingSpaces(t, blank)]
  }

  /** Python's `s.strip()` with no argument. */
  function Strip(s: string): string {
    Trim(s, IsSpace)
  }

  /** A trim is the part of `s` after its leading blanks, followed by blanks only. */
  lemma TrimSlice(s: string, blank: char -> bool)
    ensures LeadingSpaces(s, blank) + |Trim(s, blank)| <= |s|
    ensures Trim(s, blank) == s[LeadingSpaces(s, blank)..LeadingSpaces(s, blank) + |Trim(s, blank)|]
    ensures forall k :: LeadingSpaces(s, blank) + |Trim(s, blank)| <= k < |s| ==> blank(s[k])
  {
    var i := LeadingSpaces(s, blank);
    var r := Trim(s, blank);
    assert |r| == |s| - i - TrailingSpaces(s[i..], blank) && r == s[i..i + |r|] by {
      var t := s[i..];
      assert r == t[..|t| - TrailingSpaces(t, blank)];
    }
    TrailingBlanksShift(s, i, blank);
  }

  /** The trailing blanks of a suffix of `s` are trailing blanks of `s`. */
  lemma TrailingBlanksShift(s: string, i: nat, blank: char -> bool)
    requires i <= |s|
    ensures forall k :: |s| - TrailingSpaces(s[i..], blank) <= k < |s| ==> blank(s[k])
  {
    var t := s[i..];
    forall k | |s| - TrailingSpaces(t, blank) <= k < |s|
      ensures blank(s[k])
    {
      assert s[k] == t[k - i];
    }
  }

  /**
   * A trim keeps the middle of `s` from its first to its last non-blank
   * character and drops only blanks around it; a string of blanks trims to
   * nothing.
   */
  lemma TrimRemovesBlanks(s: string, blank: char -> bool)
    ensures LeadingSpaces(s, blank) + |Trim(s, blank)| <= |s|
    ensures Trim(s, blank) == s[LeadingSpaces(s, blank)..LeadingSpaces(s, blank) + |Trim(s, blank)|]
    ensures forall k :: 0 <= k < LeadingSpaces(s, blank) ==> blank(s[k])
    ensures forall k :: LeadingSpaces(s, blank) + |Trim(s, blank)| <= k < |s| ==> blank(s[k])
    ensures Trim(s, blank) != [] ==> !blank(Trim(s, blank)[0])
    ensures Trim(s, blank) != [] ==> !blank(Trim(s, blank)[|Trim(s, blank)| - 1])
    ensures Trim(s, blank) == [] <==> forall k :: 0 <= k < |s| ==> blank(s[k])
  {
    TrimSlice(s, blank);
    var i := LeadingSpaces(s, blank);
    var r := Trim(s, blank);
    if r != [] {
      assert r[0] == s[i];
      assert !blank(r[|r| - 1]) by {
        var t := s[i..];
        var n := TrailingSpaces(t, blank);
        assert |r| == |t| - n;
        assert r[|r| - 1] == t[|t| - 1 - n];
      }
      assert !blank(s[i]);
    } else {
      forall k | 0 <= k < |s|
        ensures blank(s[k])
      {
        if k >= i {
          assert i + |r| <= k;
        }
      }
    }
  }

  /** A string whose two ends are not blank is its own trim. */
  lemma TrimUnblanked(s: string, blank: char -> bool)
    requires s != [] && !blank(s[0]) && !blank(s[|s| - 1])
    ensures Trim(s, blank) == s
  {
    assert s[0..] == s;
  }

  /** Appending a blank to such a string is undone by a trim. */
  lemma {:induction false} TrimTrailingBlank(s: string, c: char, blank: char -> bool)
    requires s != [] && !blank(s[0]) && !blank(s[|s| - 1]) && blank(c)
    ensures Trim(s + [c], blank) == s
  {
    var t := s + [c];
    assert LeadingSpaces(t, blank) == 0;
    assert t[..|t| - 1] == s;
    assert TrailingSpaces(t, blank) == 1;
  }

  /** The inverse of `Split`: Python's `sep.join(fields)`. */
  function Join(fields: seq<string>, sep: char): string {
    if |fields| == 0 then ""
    else if |fields| == 1 then fields[0]
    else fields[0] + [sep] + Join(fields[1..], sep)
  }

  /**
   * Python's `s.split(sep)` with a one-character separator: the pieces between
   * the separators, always at least one (`"".split(",") == [""]`).
   */
  function Split(s: string, sep: char): (r: seq<string>)
    ensures |r| >= 1
    ensures Join(r, sep) == s
    ensures forall k :: 0 <= k < |r| ==> sep !in r[k]
  {
    if s == [] then [""]
    else
      var rest := Split(s[1..], sep);
      if s[0] == sep then [""] + rest
      else [[s[0]] + rest[0]] + rest[1..]
  }

  /** Splitting joined fields that hold no separator gives the fields back. */
  lemma {:induction false} SplitJoin(fields: seq<string>, sep: char)
    requires |fields| >= 1
    requires forall k :: 0 <= k < |fields| ==> sep !in fields[k]
    ensures Split(Join(fields, sep), sep) == fields
  {
    if |fields| == 1 {
      SplitWhole(fields[0], sep);
    } else {
      SplitJoin(fields[1..], sep);
      SplitFront(fields[0], Join(fields[1..], sep), sep);
    }
  }

  /** Text without a separator splits into itself alone. */
  lemma {:induction false} SplitWhole(f: string, sep: char)
    requires sep !in f
    ensures Split(f, sep) == [f]
  {
    if f != [] {
      SplitWhole(f[1..], sep);
      assert [f[0]] + f[1..] == f;
    }
  }

  /** A separator-free field, a separator and more text split into that field and the text's pieces. */
  lemma {:induction false} SplitFront(f: string, more: string, sep: char)
    requires sep !in f
    ensures Split(f + [sep] + more, sep) == [f] + Split(more, sep)
  {
    var s := f + [sep] + more;
    if f == [] {
      assert s[1..] == more;
    } else {
      SplitFront(f[1..], more, sep);
      assert s[1..] == f[1..] + [sep] + more;
      assert [f[0]] + f[1..] == f;
    }
  }

  /** The text that writing `lines` one after the other produces. */
  function Concat(lines: seq<string>): string {
    if lines == [] then "" else lines[0] + Concat(lines[1..])
  }

  /**
   * Reading in text mode with universal newlines: `\r\n` and a lone `\r`
   * each become `\n`.
   */
  function TranslateNewlines(s: string): (r: string)
    ensures '\r' !in r
    ensures '\r' !in s ==> r == s
    decreases |s|
  {
    if s == [] then ""
    else if s[0] == '\r' then "\n" + TranslateNewlines(if |s| > 1 && s[1] == '\n' then s[2..] else s[1..])
    else
      assert s == [s[0]] + s[1..];
      [s[0]] + TranslateNewlines(s[1..])
  }

  /** A line as file iteration yields it: a line feed at its end and nowhere else. */
  predicate IsLine(line: string) {
    line != [] && line[|line| - 1] == '\n' && '\n' !in line[..|line| - 1]
  }

  /**
   * The lines that iterating over translated text yields: each runs up to and
   * including a line feed, and text after the last line feed is a final line
   * without one.
   */
  function SplitLines(s: string): (r: seq<string>)
    ensures Concat(r) == s
    ensures forall k :: 0 <= k < |r| - 1 ==> IsLine(r[k])
    ensures r != [] ==> r[|r| - 1] != [] && '\n' !in r[|r| - 1][..|r[|r| - 1]| - 1]
  {
    if s == [] then []
    else
      var rest := SplitLines(s[1..]);
      if s[0] == '\n' || rest == [] then [[s[0]]] + rest
      else
        var first := [s[0]] + rest[0];
        assert first[..|first| - 1] == [s[0]] + rest[0][..|rest[0]| - 1];
        [first] + rest[1..]
  }

  /** `for line in f` over a file opened for reading in text mode. */
  function ReadLines(text: string): seq<string> {
    SplitLines(TranslateNewlines(text))
  }

  /** A line followed by more text splits into that line and the lines of the rest. */
  lemma {:induction false} SplitLinesFront(line: string, more: string)
    requires IsLine(line)
    ensures SplitLines(line + more) == [line] + SplitLines(more)
    decreases |line|
  {
    var s := line + more;
    if |line| == 1 {
      assert s[0] == '\n' && [s[0]] == line && s[1..] == more;
    } else {
      var tail := line[1..];
      assert IsLine(tail) by {
        assert tail[..|tail| - 1] == line[1..|line| - 1];
      }
      assert s[0] != '\n' by {
        assert line[0] in line[..|line| - 1];
      }
      assert SplitLines(s[1..]) == [tail] + SplitLines(more) by {
        assert s[1..] == tail + more;
        SplitLinesFront(tail, more);
      }
      assert [s[0]] + tail == line;
    }
  }

  /**
   * Reading back the text written as a sequence of lines, none holding a
   * carriage return, yields exactly those lines.
   */
  lemma {:induction false} ReadConcatLines(lines: seq<string>)
    requires forall k :: 0 <= k < |lines| ==> IsLine(lines[k]) && '\r' !in lines[k]
    ensures ReadLines(Concat(lines)) == lines
  {
    if lines != [] {
      ReadConcatLines(lines[1..]);
      assert '\r' !in Concat(lines[1..]);
      assert '\r' !in Concat(lines);
      SplitLinesFront(lines[0], Concat(lines[1..]));
    }
  }

  predicate IsDigit(c: char) {
    '0' <= c <= '9'
  }

  function DigitValue(c: char): (d: nat)
    requires IsDigit(c)
    ensures d < 10
  {
    c as int - '0' as int
  }

  /** The decimal digit character for `d`. */
  function DigitChar(d: nat): (c: char)
    requires d < 10
    ensures IsDigit(c) && DigitValue(c) == d
  {
    ['0', '1', '2', '3', '4', '5', '6', '7', '8', '9'][d]
  }

  /** The decimal digits of `n`, most significant first, with no leading zero. */
  function NatDigits(n: nat): (r: string)
    ensures r != [] && forall k :: 0 <= k < |r| ==> IsDigit(r[k])
    ensures r[0] == '0' <==> n == 0
    ensures n == 0 ==> |r| == 1
  {
    if n < 10 then [DigitChar(n)] else NatDigits(n / 10) + [DigitChar(n % 10)]
  }

  /**
   * Python's `str(n)` for an integer `n`: a minus sign exactly when `n` is
   * negative, then decimal digits with no leading zero (`0` is written `0`).
   */
  function IntToString(n: int): (r: string)
    ensures r != [] && (r[0] == '-' <==> n < 0)
    ensures forall k :: 0 <= k < |r| ==> IsDigit(r[k]) || (k == 0 && n < 0)
    ensures n < 0 ==> |r| >= 2 && r[1] != '0'
    ensures n >= 0 ==> (r[0] == '0' <==> n == 0) && (n == 0 ==> r == "0")
  {
    if n < 0 then "-" + NatDigits(-n) else NatDigits(n)
  }

  /** The value of a string of decimal digits. */
  function DigitsValue(ds: string): nat
    requires forall k :: 0 <= k < |ds| ==> IsDigit(ds[k])
  {
    if ds == [] then 0
    else DigitsValue(ds[..|ds| - 1]) * 10 + DigitValue(ds[|ds| - 1])
  }

  lemma {:induction false} DigitsValueOfNatDigits(n: nat)
    ensures DigitsValue(NatDigits(n)) == n
  {
    if n >= 10 {
      DigitsValueOfNatDigits(n / 10);
      var ds := NatDigits(n);
      assert ds[..|ds| - 1] == NatDigits(n / 10);
    }
  }

  /**
   * The body of a Python decimal integer literal: digits, with single
   * underscores allowed between two digits (`1_000`).
   */
  predicate IsDecimalBody(b: string) {
    && b != []
    && IsDigit(b[0]) && IsDigit(b[|b| - 1])
    && (forall k :: 0 <= k < |b| ==> IsDigit(b[k]) || b[k] == '_')
    && (forall k :: 0 <= k < |b| - 1 ==> b[k] == '_' ==> b[k + 1] != '_')
  }

  /** The digits of a literal body with its underscores dropped. */
  function DropUnderscores(b: string): (r: string)
    requires forall k :: 0 <= k < |b| ==> IsDigit(b[k]) || b[k] == '_'
    ensures forall k :: 0 <= k < |r| ==> IsDigit(r[k])
    ensures (forall k :: 0 <= k < |b| ==> IsDigit(b[k])) ==> r == b
  {
    if b == [] then []
    else (if b[0] == '_' then [] else [b[0]]) + DropUnderscores(b[1..])
  }

  /**
   * Python's `int(s)` on base-10 text: surrounding `IsIntSpace` whitespace is
   * ignored, then an optional `+` or `-` sign and a decimal body. Anything
   * else is the `ValueError` that `int` raises, here `None`.
   */
  function ParseInt(s: string): Option<int> {
    ParseSigned(Trim(s, IsIntSpace))
  }

  /** An optional sign and a decimal body, with nothing around them. */
  function ParseSigned(t: string): Option<int> {
    if t == [] then None
    else
      var negative := t[0] == '-';
      var body := if t[0] == '-' || t[0] == '+' then t[1..] else t;
      if !IsDecimalBody(body) then None
      else
        var magnitude: int := DigitsValue(DropUnderscores(body));
        Some(if negative then -magnitude else magnitude)
  }

  /** `str(n)` starts and ends with a character that is not whitespace. */
  lemma IntToStringEnds(n: int)
    ensures !IsSpace(IntToString(n)[0]) && !IsSpace(IntToString(n)[|IntToString(n)| - 1])
    ensures !IsIntSpace(IntToString(n)[0]) && !IsIntSpace(IntToString(n)[|IntToString(n)| - 1])
  {
  }

  /** The text of `str(n)` parses back to `n`. */
  lemma ParseSignedToString(n: int)
    ensures ParseSigned(IntToString(n)) == Some(n)
  {
    var m: nat := if n < 0 then -n else n;
    var ds := NatDigits(m);
    var s := IntToString(n);
    var body := if s[0] == '-' || s[0] == '+' then s[1..] else s;
    if n < 0 {
      assert s == "-" + ds;
      assert s[1..] == ds;
    } else {
      assert s == ds;
    }
    assert body == ds;
    assert IsDecimalBody(ds);
    assert DropUnderscores(ds) == ds;
    DigitsValueOfNatDigits(m);
  }

  /** `str(n)` followed by a character that is not a digit is no integer. */
  lemma ParseSignedTrailingJunk(n: int, c: char)
    requires !IsDigit(c)
    ensures ParseSigned(IntToString(n) + [c]) == None
  {
    var t := IntToString(n) + [c];
    var body := if t[0] == '-' || t[0] == '+' then t[1..] else t;
    assert body != [] && body[|body| - 1] == c;
  }

  /** `int(str(n)) == n`: the id written to storage reads back unchanged. */
  lemma ParseIntToString(n: int)
    ensures ParseInt(IntToString(n)) == Some(n)
  {
    IntToStringEnds(n);
    TrimUnblanked(IntToString(n), IsIntSpace);
    ParseSignedToString(n);
  }

  /** `int()` ignores whitespace after the digits: `int("5 ") == 5`. */
  lemma ParseIntTrailingBlank(n: int, c: char)
    requires IsIntSpace(c)
    ensures ParseInt(IntToString(n) + [c]) == Some(n)
  {
    IntToStringEnds(n);
    TrimTrailingBlank(IntToString(n), c, IsIntSpace);
    ParseSignedToString(n);
  }

  /**
   * `int()` rejects an information separator (U+001C to U+001F) after the
   * digits, although `strip()` would remove it: `int("5\x1c")` raises
   * `ValueError`.
   */
  lemma ParseIntTrailingSeparator(n: int, c: char)
    requires '\U{1c}' <= c <= '\U{1f}'
    ensures ParseInt(IntToString(n) + [c]) == None
    ensures Strip(IntToString(n) + [c]) == IntToString(n)
  {
    var s := IntToString(n);
    var t := s + [c];
    IntToStringEnds(n);
    assert t[0] == s[0];
    TrimUnblanked(t, IsIntSpace);
    ParseSignedTrailingJunk(n, c);
    TrimTrailingBlank(s, c, IsSpace);
  }

  /**
   * Non-ASCII whitespace after such a separator does not help either:
   * `int("5\x1c\xa0")` raises `ValueError`, because only the no-break space
   * is skipped.
   */
  lemma ParseIntSeparatorThenSpace(n: int, c: char, w: char)
    requires '\U{1c}' <= c <= '\U{1f}' && w >= '\U{80}' && IsSpace(w)
    ensures ParseInt(IntToString(n) + [c, w]) == None
  {
    var s := IntToString(n);
    var t := s + [c];
    IntToStringEnds(n);
    assert t[0] == s[0];
    assert s + [c, w] == t + [w];
    TrimTrailingBlank(t, w, IsIntSpace);
    ParseSignedTrailingJunk(n, c);
  }

  /** Python's `str(b)` for a bool. */
  function BoolToString(b: bool): (r: string)
    ensures r == "True" <==> b
    ensures !b ==> r == "False"
  {
    if b then "True" else "False"
  }
}
