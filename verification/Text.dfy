/** The Python string operations the signature header relies on. */
module Text {
  import opened Common

  /** Which characters count as blanks: those `strip()` removes, or those `int()` skips. */
  datatype Blanks = OfStrip | OfInt

  /** `str.isspace` for one character. */
  predicate IsSpace(c: char) {
    var n := c as int;
    || 0x09 <= n <= 0x0D || 0x1C <= n <= 0x20 || n == 0x85 || n == 0xA0 || n == 0x1680
    || 0x2000 <= n <= 0x200A || n == 0x2028 || n == 0x2029 || n == 0x202F || n == 0x205F || n == 0x3000
  }

  /** `int()` skips what `strip()` removes except the separators U+001C to U+001F. */
  predicate IsBlank(kind: Blanks, c: char) {
    IsSpace(c) && (kind.OfInt? ==> !(0x1C <= c as int <= 0x1F))
  }

  function StripLeft(kind: Blanks, s: string): string {
    if s != [] && IsBlank(kind, s[0]) then StripLeft(kind, s[1..]) else s
  }

  function StripRight(kind: Blanks, s: string): string {
    if s != [] && IsBlank(kind, s[|s| - 1]) then StripRight(kind, s[..|s| - 1]) else s
  }

  function Strip(kind: Blanks, s: string): string {
    StripRight(kind, StripLeft(kind, s))
  }

  predicate Blank(kind: Blanks, s: string) {
    forall i :: 0 <= i < |s| ==> IsBlank(kind, s[i])
  }

  /** Not empty and without blanks at either end. */
  predicate Trimmed(kind: Blanks, s: string) {
    s != [] && !IsBlank(kind, s[0]) && !IsBlank(kind, s[|s| - 1])
  }

  lemma {:induction false} StripPadded(kind: Blanks, before: string, s: string, after: string)
    requires Blank(kind, before) && Blank(kind, after) && Trimmed(kind, s)
    ensures Strip(kind, before + s + after) == s
  {
    StripLeftPadded(kind, before, s + after);
    assert before + s + after == before + (s + after);
    StripRightPadded(kind, s, after);
  }

  lemma {:induction false} StripLeftPadded(kind: Blanks, before: string, s: string)
    requires Blank(kind, before) && s != [] && !IsBlank(kind, s[0])
    ensures StripLeft(kind, before + s) == s
  {
    if before == [] {
      assert before + s == s;
    } else {
      assert (before + s)[1..] == before[1..] + s;
      StripLeftPadded(kind, before[1..], s);
    }
  }

  lemma {:induction false} StripRightPadded(kind: Blanks, s: string, after: string)
    requires Blank(kind, after) && s != [] && !IsBlank(kind, s[|s| - 1])
    ensures StripRight(kind, s + after) == s
  {
    if after == [] {
      assert s + after == s;
    } else {
      assert (s + after)[..|s + after| - 1] == s + after[..|after| - 1];
      StripRightPadded(kind, s, after[..|after| - 1]);
    }
  }

  /** Stripping removes blanks only, and all of them at both ends. */
  lemma {:induction false} StripDecomposes(kind: Blanks, s: string) returns (before: string, after: string)
    ensures s == before + Strip(kind, s) + after
    ensures Blank(kind, before) && Blank(kind, after) && (Strip(kind, s) == [] || Trimmed(kind, Strip(kind, s)))
  {
    before := StripLeftDecomposes(kind, s);
    after := StripRightDecomposes(kind, StripLeft(kind, s));
    assert before + (Strip(kind, s) + after) == before + Strip(kind, s) + after;
  }

  lemma {:induction false} StripLeftDecomposes(kind: Blanks, s: string) returns (before: string)
    ensures s == before + StripLeft(kind, s) && Blank(kind, before)
    ensures StripLeft(kind, s) == [] || !IsBlank(kind, StripLeft(kind, s)[0])
  {
    if s != [] && IsBlank(kind, s[0]) {
      var rest := StripLeftDecomposes(kind, s[1..]);
      before := [s[0]] + rest;
    } else {
      before := [];
    }
  }

  lemma {:induction false} StripRightDecomposes(kind: Blanks, s: string) returns (after: string)
    ensures s == StripRight(kind, s) + after && Blank(kind, after)
    ensures
      var r := StripRight(kind, s);
      r == [] || (!IsBlank(kind, r[|r| - 1]) && r[0] == s[0])
  {
    if s != [] && IsBlank(kind, s[|s| - 1]) {
      var rest := StripRightDecomposes(kind, s[..|s| - 1]);
      after := rest + [s[|s| - 1]];
    } else {
      after := [];
    }
  }

  lemma {:induction false} StripBlank(kind: Blanks, s: string)
    requires Blank(kind, s)
    ensures Strip(kind, s) == []
  {
    StripLeftBlank(kind, s);
  }

  lemma {:induction false} StripLeftBlank(kind: Blanks, s: string)
    requires Blank(kind, s)
    ensures StripLeft(kind, s) == []
  {
    if s == [] {
    } else {
      StripLeftBlank(kind, s[1..]);
    }
  }

  // ---------------------------------------------------------------- split and partition

  /** `s.split(sep)` for a one-character separator. */
  function Split(s: string, sep: char): (parts: seq<string>)
    ensures |parts| >= 1
  {
    if s == [] then [[]]
    else
      var rest := Split(s[1..], sep);
      if s[0] == sep then [[]] + rest else [[s[0]] + rest[0]] + rest[1..]
  }

  /** `sep.join(parts)`. */
  function Join(parts: seq<string>, sep: char): string
    requires |parts| >= 1
  {
    if |parts| == 1 then parts[0] else parts[0] + [sep] + Join(parts[1..], sep)
  }

  lemma {:induction false} SplitPart(part: string, rest: string, sep: char)
    requires sep !in part
    ensures Split(part + [sep] + rest, sep) == [part] + Split(rest, sep)
  {
    var s := part + [sep] + rest;
    if part == [] {
      assert s[1..] == rest;
    } else {
      assert s[1..] == part[1..] + [sep] + rest;
      SplitPart(part[1..], rest, sep);
      assert [part[0]] + part[1..] == part;
    }
  }

  lemma {:induction false} SplitWhole(part: string, sep: char)
    requires sep !in part
    ensures Split(part, sep) == [part]
  {
    if part == [] {
    } else {
      SplitWhole(part[1..], sep);
      assert [part[0]] + part[1..] == part;
    }
  }

  lemma {:induction false} SplitJoin(parts: seq<string>, sep: char)
    requires |parts| >= 1 && forall i :: 0 <= i < |parts| ==> sep !in parts[i]
    ensures Split(Join(parts, sep), sep) == parts
  {
    if |parts| == 1 {
      SplitWhole(parts[0], sep);
    } else {
      SplitPart(parts[0], Join(parts[1..], sep), sep);
      SplitJoin(parts[1..], sep);
    }
  }

  lemma {:induction false} JoinSplit(s: string, sep: char)
    ensures Join(Split(s, sep), sep) == s
    ensures forall i :: 0 <= i < |Split(s, sep)| ==> sep !in Split(s, sep)[i]
  {
    if s == [] {
    } else {
      var rest, parts := Split(s[1..], sep), Split(s, sep);
      JoinSplit(s[1..], sep);
      if s[0] == sep {
        assert parts[1..] == rest;
        assert s == [] + [sep] + s[1..];
      } else if |rest| == 1 {
        assert s == [s[0]] + s[1..];
      } else {
        assert parts[1..] == rest[1..];
        assert s == [s[0]] + rest[0] + [sep] + Join(rest[1..], sep);
      }
    }
  }

  /** `s.partition(sep)` without the separator itself. */
  function Partition(s: string, sep: char): (string, string) {
    if s == [] then ([], [])
    else if s[0] == sep then ([], s[1..])
    else
      var (key, value) := Partition(s[1..], sep);
      ([s[0]] + key, value)
  }

  lemma {:induction false} PartitionAtFirst(key: string, value: string, sep: char)
    requires sep !in key
    ensures Partition(key + [sep] + value, sep) == (key, value)
  {
    var s := key + [sep] + value;
    if key == [] {
      assert s[1..] == value;
    } else {
      assert s[1..] == key[1..] + [sep] + value;
      PartitionAtFirst(key[1..], value, sep);
      assert [key[0]] + key[1..] == key;
    }
  }

  lemma {:induction false} PartitionDecomposes(s: string, sep: char)
    ensures
      var (key, value) := Partition(s, sep);
      && sep !in key
      && (if sep in s then s == key + [sep] + value else key == s && value == [])
  {
    if s == [] {
    } else if s[0] == sep {
      assert s == [] + [sep] + s[1..];
    } else {
      PartitionDecomposes(s[1..], sep);
      assert s == [s[0]] + s[1..];
      assert sep in s <==> sep in s[1..];
    }
  }

  // ---------------------------------------------------------------- integers

  predicate IsDigit(c: char) {
    '0' <= c <= '9'
  }

  function DigitValue(c: char): nat
    requires IsDigit(c)
  {
    c as int - '0' as int
  }

  function Digit(n: nat): (c: char)
    requires n < 10
    ensures IsDigit(c) && DigitValue(c) == n
  {
    (n + '0' as int) as char
  }

  function PrintNat(n: nat): (s: string)
    ensures s != [] && forall i :: 0 <= i < |s| ==> IsDigit(s[i])
  {
    if n < 10 then [Digit(n)] else PrintNat(n / 10) + [Digit(n % 10)]
  }

  /** The decimal form an f-string gives an integer. */
  function PrintInt(n: int): (s: string)
    ensures s != [] && IsDigit(s[|s| - 1])
    ensures forall i :: 0 <= i < |s| ==> IsDigit(s[i]) || s[i] == '-'
  {
    if n < 0 then "-" + PrintNat(-n) else PrintNat(n)
  }

  /** Decimal digits, single underscores allowed between them. */
  function ParseNat(s: string): Option<nat> {
    if s == [] || !IsDigit(s[|s| - 1]) then None
    else
      var d := DigitValue(s[|s| - 1]);
      if |s| == 1 then Some(d)
      else
        var front := if s[|s| - 2] == '_' then ParseNat(s[..|s| - 2]) else ParseNat(s[..|s| - 1]);
        if front.None? then None else Some(10 * front.value + d)
  }

  /** `int(s)`: surrounding blanks, an optional sign, then digits; None where it raises. */
  function ParseInt(s: string): Option<int> {
    ParseTrimmed(Strip(OfInt, s))
  }

  function ParseTrimmed(t: string): Option<int> {
    if t == [] then None
    else if t[0] == '-' then
      var n := ParseNat(t[1..]);
      if n.None? then None else var v: int := 0 - n.value; Some(v)
    else
      var n := ParseNat(if t[0] == '+' then t[1..] else t);
      if n.None? then None else var v: int := n.value; Some(v)
  }

  lemma {:induction false} NatRoundTrip(n: nat)
    ensures ParseNat(PrintNat(n)) == Some(n)
  {
    if n >= 10 {
      NatRoundTrip(n / 10);
      var s := PrintNat(n);
      assert s[..|s| - 1] == PrintNat(n / 10);
    }
  }

  lemma {:induction false} PrintIsTrimmed(kind: Blanks, n: int)
    ensures Trimmed(kind, PrintInt(n))
  {
    assert IsDigit(PrintInt(n)[0]) || PrintInt(n)[0] == '-';
  }

  lemma {:induction false} PrintedIntParses(n: int)
    ensures ParseTrimmed(PrintInt(n)) == Some(n)
  {
    var s := PrintInt(n);
    if n < 0 {
      assert s[0] == '-' && s[1..] == PrintNat(-n);
      NatRoundTrip(-n);
    } else {
      assert IsDigit(s[0]);
      NatRoundTrip(n);
    }
  }

  /** Every integer is read back from its decimal form, with any blanks `int()` skips around it. */
  lemma {:induction false} IntRoundTrip(before: string, n: int, after: string)
    requires Blank(OfInt, before) && Blank(OfInt, after)
    ensures ParseInt(before + PrintInt(n) + after) == Some(n)
  {
    PrintIsTrimmed(OfInt, n);
    StripPadded(OfInt, before, PrintInt(n), after);
    PrintedIntParses(n);
  }

  /** The i-th character is a digit, or an underscore between two digits. */
  predicate FitsNumeral(s: string, i: nat)
    requires i < |s|
  {
    IsDigit(s[i]) || (s[i] == '_' && 0 < i < |s| - 1 && IsDigit(s[i - 1]) && IsDigit(s[i + 1]))
  }

  predicate Numeral(s: string) {
    s != [] && forall i: nat :: i < |s| ==> FitsNumeral(s, i)
  }

  /** The value of the digits; underscores do not count. */
  function NumeralValue(s: string): nat {
    if s == [] then 0
    else
      var n := NumeralValue(s[..|s| - 1]);
      if IsDigit(s[|s| - 1]) then 10 * n + DigitValue(s[|s| - 1]) else n
  }

  lemma NumeralEnds(s: string)
    requires Numeral(s)
    ensures IsDigit(s[0]) && IsDigit(s[|s| - 1])
  {
    assert FitsNumeral(s, 0) && FitsNumeral(s, |s| - 1);
  }

  /** A numeral of two or more digits is a shorter one, perhaps an underscore, and a digit. */
  lemma NumeralSplits(s: string)
    requires |s| >= 2 && IsDigit(s[|s| - 1])
    ensures Numeral(s) <==> Numeral(if s[|s| - 2] == '_' then s[..|s| - 2] else s[..|s| - 1])
  {
    var front := if s[|s| - 2] == '_' then s[..|s| - 2] else s[..|s| - 1];
    if Numeral(s) {
      assert FitsNumeral(s, |s| - 2);
      forall i: nat | i < |front|
        ensures FitsNumeral(front, i)
      {
        assert FitsNumeral(s, i);
      }
    }
    if Numeral(front) {
      NumeralEnds(front);
      forall i: nat | i < |s|
        ensures FitsNumeral(s, i)
      {
        assert i < |front| ==> FitsNumeral(front, i);
      }
    }
  }

  lemma {:induction false} ParseNatExactly(s: string)
    ensures ParseNat(s) == if Numeral(s) then Some(NumeralValue(s)) else None
  {
    if Numeral(s) {
      NumeralEnds(s);
    }
    if |s| == 1 && IsDigit(s[0]) {
      assert FitsNumeral(s, 0);
      assert NumeralValue(s[..0]) == 0;
    }
    if |s| >= 2 && IsDigit(s[|s| - 1]) {
      NumeralSplits(s);
      ParseNatExactly(if s[|s| - 2] == '_' then s[..|s| - 2] else s[..|s| - 1]);
      assert s[..|s| - 1][..|s| - 2] == s[..|s| - 2];
    }
  }

  /** `s` spells `v`: blanks that `int()` skips, at most one sign, a numeral, and blanks. */
  ghost predicate SpelledAs(s: string, v: int, before: string, sign: string, digits: string, after: string) {
    && s == before + sign + digits + after
    && Blank(OfInt, before) && Blank(OfInt, after)
    && sign in {"", "+", "-"} && Numeral(digits)
    && v == if sign == "-" then 0 - NumeralValue(digits) else NumeralValue(digits)
  }

  lemma {:induction false} SignedParses(sign: string, digits: string)
    requires sign in {"", "+", "-"} && Numeral(digits)
    ensures Trimmed(OfInt, sign + digits)
    ensures ParseTrimmed(sign + digits) ==
            Some(if sign == "-" then 0 - NumeralValue(digits) else NumeralValue(digits))
  {
    var core := sign + digits;
    NumeralEnds(digits);
    ParseNatExactly(digits);
    assert core[|core| - 1] == digits[|digits| - 1];
    if sign == "" {
      assert core == digits;
    } else {
      assert core[1..] == digits && core[0] == sign[0];
    }
  }

  lemma {:induction false} SpelledParses(s: string, v: int, before: string, sign: string, digits: string, after: string)
    requires SpelledAs(s, v, before, sign, digits, after)
    ensures ParseInt(s) == Some(v)
  {
    SignedParses(sign, digits);
    assert s == before + (sign + digits) + after;
    StripPadded(OfInt, before, sign + digits, after);
  }

  lemma {:induction false} TrimmedIsSigned(core: string) returns (sign: string, digits: string)
    requires ParseTrimmed(core).Some?
    ensures core == sign + digits && sign in {"", "+", "-"} && Numeral(digits)
  {
    sign := if core[0] in {'+', '-'} then [core[0]] else "";
    digits := core[|sign|..];
    ParseNatExactly(digits);
  }

  lemma {:induction false} ParsedIsSpelled(s: string)
    requires ParseInt(s).Some?
    ensures exists before, sign, digits, after :: SpelledAs(s, ParseInt(s).value, before, sign, digits, after)
  {
    var before, after := StripDecomposes(OfInt, s);
    var sign, digits := TrimmedIsSigned(Strip(OfInt, s));
    SignedParses(sign, digits);
    assert s == before + sign + digits + after;
    assert SpelledAs(s, ParseInt(s).value, before, sign, digits, after);
  }

  /** What `int()` reads, exactly: a text parses to `v` if and only if it spells `v`. */
  lemma {:induction false} ParseIntExactly(s: string, v: int)
    ensures ParseInt(s) == Some(v) <==>
            exists before, sign, digits, after :: SpelledAs(s, v, before, sign, digits, after)
  {
    if before, sign, digits, after :| SpelledAs(s, v, before, sign, digits, after) {
      SpelledParses(s, v, before, sign, digits, after);
    }
    if ParseInt(s) == Some(v) {
      ParsedIsSpelled(s);
    }
  }

  /** The decimal form: digits in base ten, no leading zero and no sign but a minus. */
  lemma {:induction false} PrintIsCanonical(n: int)
    ensures n < 0 <==> PrintInt(n)[0] == '-'
    ensures n != 0 ==> PrintInt(n)[if n < 0 then 1 else 0] != '0'
    ensures 0 <= n < 10 ==> PrintInt(n) == ["0123456789"[n]]
    ensures n >= 10 ==> PrintInt(n) == PrintInt(n / 10) + PrintInt(n % 10)
  {
    if n > 0 {
      NoLeadingZero(n);
    } else if n < 0 {
      NoLeadingZero(-n);
    }
  }

  lemma {:induction false} NoLeadingZero(n: nat)
    requires n > 0
    ensures PrintNat(n)[0] != '0'
  {
    if n >= 10 {
      NoLeadingZero(n / 10);
    }
  }

  lemma {:induction false} NumbersStartWithDigits(s: string)
    requires ParseNat(s).Some?
    ensures s != [] && IsDigit(s[0])
  {
    if |s| > 1 {
      NumbersStartWithDigits(if s[|s| - 2] == '_' then s[..|s| - 2] else s[..|s| - 1]);
    }
  }

  lemma {:induction false} StripRightKeepsFirst(kind: Blanks, s: string)
    requires s != [] && !IsBlank(kind, s[0])
    ensures StripRight(kind, s) != [] && StripRight(kind, s)[0] == s[0]
  {
    if IsBlank(kind, s[|s| - 1]) {
      StripRightKeepsFirst(kind, s[..|s| - 1]);
    }
  }

  /** The blanks of Latin-1: tab to carriage return, the space, U+0085 and U+00A0, and for
      `strip()` also the separators U+001C to U+001F. */
  lemma LatinBlanks(kind: Blanks, c: char)
    requires c as int < 256
    ensures IsBlank(kind, c) <==>
            c as int in {9, 10, 11, 12, 13, 32, 0x85, 0xA0} || (kind.OfStrip? && c as int in {28, 29, 30, 31})
  {
  }

  /** Of the ASCII characters only a blank that `int()` skips, a sign or a digit can start an
      integer; in particular U+001C to U+001F, which `strip()` removes, cannot. */
  lemma {:induction false} StrayStartIsNoInt(s: string)
    requires s != [] && s[0] as int < 128
    requires s[0] as int !in {9, 10, 11, 12, 13, 32} && !('0' <= s[0] <= '9') && s[0] !in {'+', '-'}
    ensures ParseInt(s) == None
  {
    LatinBlanks(OfInt, s[0]);
    StripRightKeepsFirst(OfInt, s);
    if ParseInt(s).Some? {
      NumbersStartWithDigits(Strip(OfInt, s));
    }
  }

  /** And in front of a printed number each of these characters does start one. */
  lemma {:induction false} AsciiStartExactly(c: char, n: nat)
    requires c as int < 128
    ensures ParseInt([c] + PrintInt(n)).Some? <==>
            c as int in {9, 10, 11, 12, 13, 32} || '0' <= c <= '9' || c in {'+', '-'}
  {
    var s, digits := [c] + PrintInt(n), PrintInt(n);
    LatinBlanks(OfInt, c);
    assert Numeral(digits) by {
      assert forall i: nat :: i < |digits| ==> FitsNumeral(digits, i);
    }
    if IsBlank(OfInt, c) {
      assert s == [c] + digits + [];
      IntRoundTrip([c], n, []);
    } else if IsDigit(c) {
      assert forall i: nat :: i < |s| ==> FitsNumeral(s, i);
      assert s == "" + "" + s + "";
      SpelledParses(s, NumeralValue(s), "", "", s, "");
    } else if c in {'+', '-'} {
      assert s == "" + [c] + digits + "";
      SpelledParses(s, if c == '-' then 0 - NumeralValue(digits) else NumeralValue(digits), "", [c], digits, "");
    } else {
      StrayStartIsNoInt(s);
    }
  }
}
