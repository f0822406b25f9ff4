/** The java.lang string and integer operations the generator relies on
    (Integer.parseInt, String.trim, int-to-decimal conversion), together
    with the repetition, splitting and joining used to state the layout
    of the generated text. */
module JavaStrings {
  import opened Wrappers

  /** Number of occurrences of `c` in `s`. */
  function Count(s: string, c: char): (n: nat)
    ensures n <= |s|
    ensures n == 0 <==> c !in s
  {
    if s == [] then 0
    else
      assert s == [s[0]] + s[1..];
      (if s[0] == c then 1 else 0) + Count(s[1..], c)
  }

  /** `s` written `n` times in a row, as a loop of `n` writes produces it. */
  function Repeat(s: string, n: nat): string
  {
    if n == 0 then [] else Repeat(s, n - 1) + s
  }

  /** n writes of s produce n times as many characters as s has. */
  lemma {:induction false} RepeatLength(s: string, n: nat)
    ensures |Repeat(s, n)| == n * |s|
  {
    if n > 0 {
      RepeatLength(s, n - 1);
    }
  }
  /** One more write of `s` after `n` of them, following a prefix. */
  lemma RepeatAppend(prefix: string, s: string, n: nat)
    ensures prefix + Repeat(s, n) + s == prefix + Repeat(s, n + 1)
  {
  }


  lemma {:induction false} RepeatCons(s: string, n: nat)
    ensures Repeat(s, n + 1) == s + Repeat(s, n)
  {
    if n > 0 {
      RepeatCons(s, n - 1);
    }
  }

  /** `n` copies of `x`. */
  function Copies<T>(x: T, n: nat): (r: seq<T>)
    ensures |r| == n
    ensures forall k :: 0 <= k < |r| ==> r[k] == x
  {
    if n == 0 then [] else [x] + Copies(x, n - 1)
  }

  // ---------------------------------------------------------------------
  // Fields separated by one character
  // ---------------------------------------------------------------------

  /** The fields of `s` between occurrences of `sep`, empty fields kept
      (also a trailing one): "a\tb\t" gives ["a", "b", ""]. */
  function SplitOn(s: string, sep: char): (parts: seq<string>)
    ensures |parts| == Count(s, sep) + 1
    ensures forall k :: 0 <= k < |parts| ==> sep !in parts[k]
  {
    if s == [] then [[]]
    else
      var rest := SplitOn(s[1..], sep);
      if s[0] == sep then [[]] + rest
      else
        assert sep !in [s[0]] + rest[0];
        [[s[0]] + rest[0]] + rest[1..]
  }

  /** The fields of `parts` with `sep` between each two. */
  function Join(parts: seq<string>, sep: char): string
    requires |parts| >= 1
  {
    if |parts| == 1 then parts[0] else parts[0] + [sep] + Join(parts[1..], sep)
  }

  lemma {:induction false} SplitNoSep(a: string, sep: char)
    requires sep !in a
    ensures SplitOn(a, sep) == [a]
  {
    if a != [] {
      assert a == [a[0]] + a[1..];
      SplitNoSep(a[1..], sep);
    }
  }

  lemma {:induction false} SplitAfterField(a: string, sep: char, b: string)
    requires sep !in a
    ensures SplitOn(a + [sep] + b, sep) == [a] + SplitOn(b, sep)
  {
    if a == [] {
      assert (a + [sep] + b)[1..] == b;
    } else {
      assert a == [a[0]] + a[1..];
      assert (a + [sep] + b)[1..] == a[1..] + [sep] + b;
      SplitAfterField(a[1..], sep, b);
    }
  }

  /** Splitting a joined sequence of fields gives the fields back. */
  lemma {:induction false} SplitJoin(parts: seq<string>, sep: char)
    requires |parts| >= 1
    requires forall k :: 0 <= k < |parts| ==> sep !in parts[k]
    ensures SplitOn(Join(parts, sep), sep) == parts
  {
    if |parts| == 1 {
      SplitNoSep(parts[0], sep);
    } else {
      SplitJoin(parts[1..], sep);
      SplitAfterField(parts[0], sep, Join(parts[1..], sep));
      assert parts == [parts[0]] + parts[1..];
    }
  }

  /** Lines, each followed by a newline, as a loop writing one line per
      round produces them. */
  function Terminated(lines: seq<string>): string
  {
    if lines == [] then []
    else Terminated(lines[..|lines| - 1]) + lines[|lines| - 1] + "\n"
  }

  lemma {:induction false} TerminatedAppend(a: seq<string>, b: seq<string>)
    ensures Terminated(a + b) == Terminated(a) + Terminated(b)
  {
    if b != [] {
      var b' := b[..|b| - 1];
      assert (a + b)[..|a + b| - 1] == a + b';
      assert (a + b)[|a + b| - 1] == b[|b| - 1];
      TerminatedAppend(a, b');
      calc {
        Terminated(a + b);
        Terminated(a + b') + b[|b| - 1] + "\n";
        Terminated(a) + (Terminated(b') + b[|b| - 1] + "\n");
      }
    } else {
      assert a + b == a;
    }
  }

  lemma {:induction false} TerminatedIsJoin(lines: seq<string>)
    ensures Terminated(lines) == Join(lines + [[]], '\n')
  {
    if lines != [] {
      TerminatedIsJoin(lines[1..]);
      TerminatedAppend([lines[0]], lines[1..]);
      assert lines == [lines[0]] + lines[1..];
      assert (lines + [[]])[1..] == lines[1..] + [[]];
    }
  }

  /** Splitting newline-terminated lines at the newlines gives the lines
      back, followed by the empty remainder after the last newline. */
  lemma SplitTerminated(lines: seq<string>)
    requires forall k :: 0 <= k < |lines| ==> '\n' !in lines[k]
    ensures SplitOn(Terminated(lines), '\n') == lines + [[]]
  {
    var parts := lines + [[]];
    forall k | 0 <= k < |parts| ensures '\n' !in parts[k] {
      if k < |lines| {
        assert parts[k] == lines[k];
      }
    }
    TerminatedIsJoin(lines);
    SplitJoin(parts, '\n');
  }

  // ---------------------------------------------------------------------
  // Decimal numbers
  // ---------------------------------------------------------------------

  predicate IsDigit(c: char) { '0' <= c <= '9' }

  predicate AllDigits(s: string) { forall k :: 0 <= k < |s| ==> IsDigit(s[k]) }

  function DigitChar(d: nat): (c: char)
    requires d < 10
    ensures IsDigit(c) && c as int - '0' as int == d
  {
    (d + '0' as int) as char
  }

  function DigitValue(c: char): nat
    requires IsDigit(c)
  {
    c as int - '0' as int
  }

  /** The decimal notation of `n`, as Java writes a non-negative int. */
  function NatToString(n: nat): (s: string)
    ensures |s| >= 1 && AllDigits(s)
    ensures s[0] == '0' <==> n == 0
  {
    if n < 10 then [DigitChar(n)] else NatToString(n / 10) + [DigitChar(n % 10)]
  }

  /** The decimal notation of `n`, with a minus sign when negative. */
  function IntToString(n: int): string
  {
    if n < 0 then "-" + NatToString(-n) else NatToString(n)
  }

  /** The value of a string of decimal digits (leading zeros allowed). */
  function DigitsValue(s: string): nat
    requires AllDigits(s)
  {
    if s == [] then 0 else DigitsValue(s[..|s| - 1]) * 10 + DigitValue(s[|s| - 1])
  }

  lemma {:induction false} DigitsValueOfNat(n: nat)
    ensures DigitsValue(NatToString(n)) == n
  {
    if n >= 10 {
      var s := NatToString(n);
      assert s[..|s| - 1] == NatToString(n / 10);
      DigitsValueOfNat(n / 10);
    }
  }

  /** A leading zero does not change the value of a digit string. */
  lemma {:induction false} DigitsValueLeadingZero(s: string)
    requires AllDigits(s)
    ensures DigitsValue("0" + s) == DigitsValue(s)
  {
    if s != [] {
      var p := s[..|s| - 1];
      assert ("0" + s)[..|s|] == "0" + p;
      DigitsValueLeadingZero(p);
    } else {
      assert ("0" + s)[..0] == [];
    }
  }

  lemma {:induction false} DigitsValuePositive(s: string)
    requires |s| >= 1 && AllDigits(s) && s[0] != '0'
    ensures DigitsValue(s) >= 1
  {
    if |s| > 1 {
      DigitsValuePositive(s[..|s| - 1]);
    }
  }

  /** A digit string without leading zeros is the notation of its value. */
  lemma {:induction false} NatToStringOfDigits(s: string)
    requires |s| >= 1 && AllDigits(s) && (|s| > 1 ==> s[0] != '0')
    ensures NatToString(DigitsValue(s)) == s
  {
    var p := s[..|s| - 1];
    var d := DigitValue(s[|s| - 1]);
    if |s| == 1 {
      assert DigitsValue(s) == d;
    } else {
      DigitsValuePositive(p);
      NatToStringOfDigits(p);
      var n := DigitsValue(s);
      assert n / 10 == DigitsValue(p) && n % 10 == d;
      assert s == p + [s[|s| - 1]];
    }
  }

  const IntMin: int := -0x8000_0000
  const IntMax: int := 0x7fff_ffff

  /** Integer.parseInt on ASCII input: an optional '+' or '-', then at
      least one decimal digit (leading zeros allowed), and the value must
      fit a 32-bit int; anything else is a NumberFormatException (None). */
  function ParseInt(s: string): (r: Option<int>)
    ensures r.Some? ==> IntMin <= r.value <= IntMax
  {
    if s == [] then None
    else
      var digits := if s[0] == '-' || s[0] == '+' then s[1..] else s;
      if digits == [] || !AllDigits(digits) then None
      else
        var v: int := if s[0] == '-' then -(DigitsValue(digits) as int) else DigitsValue(digits);
        if IntMin <= v <= IntMax then Some(v) else None
  }

  /** Every 32-bit int survives printing and parsing. */
  lemma ParseIntToString(n: int)
    requires IntMin <= n <= IntMax
    ensures ParseInt(IntToString(n)) == Some(n)
  {
    var s := IntToString(n);
    if n < 0 {
      var digits := NatToString(-n);
      DigitsValueOfNat(-n);
      assert s[0] == '-' && s[1..] == digits;
      assert DigitsValue(digits) == -n;
    } else {
      DigitsValueOfNat(n);
      assert IsDigit(s[0]);
      assert DigitsValue(s) == n;
    }
  }

  /** The notation Java prints for an int: no '+', no leading zero, no "-0". */
  predicate CanonicalInt(s: string)
  {
    var digits := if s != [] && s[0] == '-' then s[1..] else s;
    |digits| >= 1 && AllDigits(digits) && (|digits| > 1 ==> digits[0] != '0')
    && (s[0] == '-' ==> digits != "0")
  }

  /** A canonical numeral that parses is printed back unchanged. */
  lemma IntToStringOfParse(s: string)
    requires CanonicalInt(s) && ParseInt(s).Some?
    ensures IntToString(ParseInt(s).value) == s
  {
    if s[0] == '-' {
      var digits := s[1..];
      NatToStringOfDigits(digits);
      DigitsValuePositive(digits);
    } else {
      NatToStringOfDigits(s);
    }
  }

  // ---------------------------------------------------------------------
  // UTF-16: String.length and substring count 16-bit code units
  // ---------------------------------------------------------------------

  /** The UTF-16 code units of one character: the character itself below
      U+10000, a high and a low surrogate above. */
  function Utf16Char(c: char): (units: seq<int>)
    ensures |units| == (if c as int < 0x1_0000 then 1 else 2)
    ensures c as int < 0x1_0000 ==> units == [c as int]
    ensures c as int >= 0x1_0000 ==> 0xD800 <= units[0] < 0xDC00 <= units[1] < 0xE000
  {
    if c as int < 0x1_0000 then [c as int]
    else
      var v := c as int - 0x1_0000;
      [0xD800 + v / 0x400, 0xDC00 + v % 0x400]
  }

  /** The UTF-16 code units of `s`, the sequence a Java String holds. */
  function Utf16(s: string): (units: seq<int>)
    ensures |s| <= |units| <= 2 * |s|
  {
    if s == [] then [] else Utf16(s[..|s| - 1]) + Utf16Char(s[|s| - 1])
  }

  lemma {:induction false} Utf16Append(a: string, b: string)
    ensures Utf16(a + b) == Utf16(a) + Utf16(b)
  {
    if b != [] {
      var b', c := b[..|b| - 1], b[|b| - 1];
      assert (a + b)[..|a + b| - 1] == a + b';
      assert (a + b)[|a + b| - 1] == c;
      calc {
        Utf16(a + b);
        Utf16(a + b') + Utf16Char(c);
        { Utf16Append(a, b'); }
        Utf16(a) + Utf16(b') + Utf16Char(c);
        Utf16(a) + (Utf16(b') + Utf16Char(c));
        Utf16(a) + Utf16(b);
      }
    } else {
      assert a + b == a;
    }
  }

  /** Below U+10000 every character is one code unit, itself. */
  lemma {:induction false} Utf16Bmp(s: string)
    requires forall k :: 0 <= k < |s| ==> s[k] as int < 0x1_0000
    ensures |Utf16(s)| == |s|
    ensures forall k :: 0 <= k < |s| ==> Utf16(s)[k] == s[k] as int
  {
    if s != [] {
      Utf16Bmp(s[..|s| - 1]);
    }
  }

  /** When none of the last k code units of `s` is a surrogate, they are
      the last k characters of `s`, one unit each. */
  lemma {:induction false} Utf16Tail(s: string, k: nat)
    requires k <= |Utf16(s)|
    requires forall j :: |Utf16(s)| - k <= j < |Utf16(s)| ==> !(0xD800 <= Utf16(s)[j] < 0xE000)
    ensures k <= |s|
    ensures forall j :: |s| - k <= j < |s| ==> s[j] as int == Utf16(s)[|Utf16(s)| - |s| + j]
  {
    if k > 0 {
      var u := Utf16(s);
      Utf16Last(s);
      assert !(0xD800 <= u[|u| - 1] < 0xE000);
      var s' := s[..|s| - 1];
      var u' := Utf16(s');
      assert u == u' + [s[|s| - 1] as int];
      forall j | |u'| - (k - 1) <= j < |u'| ensures !(0xD800 <= u'[j] < 0xE000) {
        assert u'[j] == u[j];
      }
      Utf16Tail(s', k - 1);
      assert |u| - |s| == |u'| - |s'|;
      forall j | |s| - k <= j < |s| ensures s[j] as int == u[|u| - |s| + j] {
        if j < |s| - 1 {
          assert s[j] == s'[j];
          assert u[|u'| - |s'| + j] == u'[|u'| - |s'| + j];
        }
      }
    }
  }

  /** Characters below U+10000 at the end of a string are its last code
      units, one each. */
  lemma {:induction false} Utf16TailBmp(s: string, k: nat)
    requires k <= |s|
    requires forall j :: |s| - k <= j < |s| ==> s[j] as int < 0x1_0000
    ensures forall j :: |s| - k <= j < |s| ==> Utf16(s)[|Utf16(s)| - |s| + j] == s[j] as int
  {
    if k > 0 {
      var u := Utf16(s);
      Utf16Last(s);
      var s' := s[..|s| - 1];
      var u' := Utf16(s');
      Utf16TailBmp(s', k - 1);
      assert |u| - |s| == |u'| - |s'|;
      forall j | |s| - k <= j < |s| ensures u[|u| - |s| + j] == s[j] as int {
        if j < |s| - 1 {
          assert s[j] == s'[j];
          assert u[|u'| - |s'| + j] == u'[|u'| - |s'| + j];
        }
      }
    }
  }

  /** The last character of a string is one code unit, itself, when it is
      below U+10000, and otherwise ends in a low surrogate. */
  lemma Utf16Last(s: string)
    requires s != []
    ensures s[|s| - 1] as int < 0x1_0000 ==> Utf16(s) == Utf16(s[..|s| - 1]) + [s[|s| - 1] as int]
    ensures s[|s| - 1] as int >= 0x1_0000 ==> 0xDC00 <= Utf16(s)[|Utf16(s)| - 1] < 0xE000
  {
    assert Utf16(s) == Utf16(s[..|s| - 1]) + Utf16Char(s[|s| - 1]);
  }

  // ---------------------------------------------------------------------
  // String.trim
  // ---------------------------------------------------------------------

  /** `s` without its leading characters at or below U+0020. */
  function TrimStart(s: string): (r: string)
    ensures |r| <= |s| && r == s[|s| - |r|..]
    ensures forall k :: 0 <= k < |s| - |r| ==> s[k] <= ' '
    ensures r != [] ==> r[0] > ' '
  {
    if s != [] && s[0] <= ' ' then TrimStart(s[1..]) else s
  }

  /** `s` without its trailing characters at or below U+0020. */
  function TrimEnd(s: string): (r: string)
    ensures |r| <= |s| && r == s[..|r|]
    ensures forall k :: |r| <= k < |s| ==> s[k] <= ' '
    ensures r != [] ==> r[|r| - 1] > ' '
  {
    if s != [] && s[|s| - 1] <= ' ' then TrimEnd(s[..|s| - 1]) else s
  }

  /** Every character is at or below U+0020. */
  predicate AllBlank(s: string)
  {
    forall k :: 0 <= k < |s| ==> s[k] <= ' '
  }

  /** String.trim: both ends stripped of characters at or below U+0020.
      Java compares UTF-16 code units; a surrogate unit is above U+0020,
      so counting characters instead strips exactly the same prefix and
      suffix. */
  function Trim(s: string): (r: string)
    ensures |r| <= |s|
    ensures r == [] <==> AllBlank(s)
    ensures r != [] ==> r[0] > ' ' && r[|r| - 1] > ' '
  {
    TrimEnd(TrimStart(s))
  }
}
