/**
 * String operations of Python that the bot relies on: whitespace stripping
 * (`str.strip`, `str.rstrip`, `str.lstrip`), `str.capitalize`, `str.replace`
 * of one character, `str.startswith`, decimal rendering of integers, the
 * `"{:,}".format(n).replace(",", " ")` grouping, and `int(text)`.
 * Case mapping is modelled for ASCII letters only.
 */
module Text {
  import opened Wrappers

  // ---------------------------------------------------------------------------
  // Characters

  /** The characters for which Python's `str.isspace()` holds. */
  predicate IsSpace(c: char) {
    var n := c as int;
    n == 0x20 || (0x09 <= n <= 0x0d) || (0x1c <= n <= 0x1f) || n == 0x85 || n == 0xa0 ||
    n == 0x1680 || (0x2000 <= n <= 0x200a) || n == 0x2028 || n == 0x2029 || n == 0x202f ||
    n == 0x205f || n == 0x3000
  }

  predicate IsDigit(c: char) { '0' <= c <= '9' }

  predicate AllDigits(s: string) { forall i :: 0 <= i < |s| ==> IsDigit(s[i]) }

  predicate AllSpaces(s: string) { forall i :: 0 <= i < |s| ==> IsSpace(s[i]) }

  function Upper(c: char): char { if 'a' <= c <= 'z' then (c as int - 32) as char else c }

  function Lower(c: char): char { if 'A' <= c <= 'Z' then (c as int + 32) as char else c }

  function LowerAll(s: string): (r: string)
    ensures |r| == |s|
    ensures forall i :: 0 <= i < |s| ==> r[i] == Lower(s[i])
  {
    if s == [] then [] else [Lower(s[0])] + LowerAll(s[1..])
  }

  /** Python's `str.capitalize()`: the first character upper-cased, the others lower-cased. */
  function Capitalize(s: string): (r: string)
    ensures |r| == |s|
    ensures s != [] ==> r[0] == Upper(s[0])
    ensures forall i :: 1 <= i < |s| ==> r[i] == Lower(s[i])
  {
    if s == [] then [] else [Upper(s[0])] + LowerAll(s[1..])
  }

  /** Python's `s.replace(a, b)` for single characters. */
  function ReplaceChar(s: string, a: char, b: char): (r: string)
    ensures |r| == |s|
    ensures forall i :: 0 <= i < |s| ==> r[i] == (if s[i] == a then b else s[i])
  {
    if s == [] then [] else [if s[0] == a then b else s[0]] + ReplaceChar(s[1..], a, b)
  }

  predicate StartsWith(s: string, prefix: string) {
    |prefix| <= |s| && s[..|prefix|] == prefix
  }

  // ---------------------------------------------------------------------------
  // Stripping

  /** Python's `str.lstrip()`: drops the leading whitespace and nothing else. */
  function LStrip(s: string): (r: string)
    ensures |r| <= |s| && s[|s| - |r|..] == r
    ensures AllSpaces(s[..|s| - |r|])
    ensures r != [] ==> !IsSpace(r[0])
  {
    if s != [] && IsSpace(s[0]) then LStrip(s[1..]) else s
  }

  /** Python's `str.rstrip()`: drops the trailing whitespace and nothing else. */
  function RStrip(s: string): (r: string)
    ensures |r| <= |s| && s[..|r|] == r
    ensures AllSpaces(s[|r|..])
    ensures r != [] ==> !IsSpace(r[|r| - 1])
  {
    if s != [] && IsSpace(s[|s| - 1]) then
      var r := RStrip(s[..|s| - 1]);
      assert s[|r|..] == s[..|s| - 1][|r|..] + [s[|s| - 1]];
      r
    else s
  }

  /** Python's `str.strip()`. */
  function Strip(s: string): (r: string)
    ensures r != [] ==> !IsSpace(r[0]) && !IsSpace(r[|r| - 1])
  {
    RStrip(LStrip(s))
  }

  // ---------------------------------------------------------------------------
  // Decimal rendering and parsing

  function DigitChar(d: nat): char
    requires d < 10
  {
    "0123456789"[d]
  }

  function DigitValue(c: char): nat
    requires IsDigit(c)
  {
    c as int - '0' as int
  }

  /** A digit character reads back as its digit. */
  lemma DigitCharValue(d: nat)
    requires d < 10
    ensures IsDigit(DigitChar(d)) && DigitValue(DigitChar(d)) == d
  {
  }

  /** `str(n)` for a natural number. */
  function Decimal(n: nat): (r: string)
    ensures r != [] && AllDigits(r)
  {
    if n < 10 then [DigitChar(n)] else Decimal(n / 10) + [DigitChar(n % 10)]
  }

  /** `str(i)` for any integer. */
  function IntStr(i: int): string {
    if i < 0 then "-" + Decimal(-i) else Decimal(i)
  }

  /** The value of a string of decimal digits. */
  function ParseDecimal(s: string): nat
    requires AllDigits(s)
  {
    if s == [] then 0 else ParseDecimal(s[..|s| - 1]) * 10 + DigitValue(s[|s| - 1])
  }

  lemma {:induction false} ParseDecimalOfDecimal(n: nat)
    ensures ParseDecimal(Decimal(n)) == n
  {
    if n >= 10 {
      var s := Decimal(n);
      assert s[..|s| - 1] == Decimal(n / 10);
      ParseDecimalOfDecimal(n / 10);
    }
  }

  /** The three-digit, zero-padded group that follows a separator. */
  function Pad3(k: nat): (r: string)
    requires k < 1000
    ensures |r| == 3 && AllDigits(r)
  {
    [DigitChar(k / 100), DigitChar((k / 10) % 10), DigitChar(k % 10)]
  }

  /** A zero-padded two-digit field (`%H`, `%M`, `%S`, `%m`, `%d`). */
  function Pad2(k: nat): (r: string)
    requires k < 100
    ensures |r| == 2 && AllDigits(r)
  {
    [DigitChar(k / 10), DigitChar(k % 10)]
  }

  /**
   * `"{:,}".format(n).replace(",", " ")` for a natural number: the decimal
   * digits split into groups of three from the right, joined by spaces.
   */
  function Grouped(n: nat): string {
    if n < 1000 then Decimal(n) else Grouped(n / 1000) + " " + Pad3(n % 1000)
  }

  /** The same for any integer; Python puts the minus sign before the groups. */
  function GroupedInt(i: int): string {
    if i < 0 then "-" + Grouped(-i) else Grouped(i)
  }

  /** A grouped delta as the reports show it: `+` in front exactly when it is not negative. */
  function Signed(d: int): string {
    if d >= 0 then "+" + GroupedInt(d) else GroupedInt(d)
  }

  function RemoveSpaces(s: string): (r: string)
    ensures |r| <= |s|
  {
    if s == [] then [] else (if s[0] == ' ' then [] else [s[0]]) + RemoveSpaces(s[1..])
  }

  lemma {:induction false} RemoveSpacesConcat(a: string, b: string)
    ensures RemoveSpaces(a + b) == RemoveSpaces(a) + RemoveSpaces(b)
  {
    if a == [] {
      assert a + b == b;
    } else {
      var head := if a[0] == ' ' then [] else [a[0]];
      assert (a + b)[0] == a[0] && (a + b)[1..] == a[1..] + b;
      RemoveSpacesConcat(a[1..], b);
      assert RemoveSpaces(a + b) == head + (RemoveSpaces(a[1..]) + RemoveSpaces(b));
    }
  }

  lemma {:induction false} RemoveSpacesOfDigits(s: string)
    requires AllDigits(s)
    ensures RemoveSpaces(s) == s
  {
    if s != [] {
      RemoveSpacesOfDigits(s[1..]);
    }
  }

  /** The digit positions of `n` seen through `n / 1000` and `n % 1000`. */
  lemma ThousandsDigits(n: nat)
    ensures n / 10 / 10 == n / 100 && n / 100 / 10 == n / 1000
    ensures (n % 1000) / 100 == (n / 100) % 10
    ensures ((n % 1000) / 10) % 10 == (n / 10) % 10
    ensures (n % 1000) % 10 == n % 10
  {
    var c, r := n / 1000, n % 1000;
    assert n == 1000 * c + r;
    assert n / 10 == 100 * c + r / 10;
    assert n / 100 == 10 * c + r / 100;
    assert r / 10 == 10 * (r / 100) + (r / 10) % 10;
    assert n / 10 / 10 == 10 * c + r / 10 / 10;
  }

  /** The decimal digits of `n >= 1000` are those of `n / 1000` followed by a padded group. */
  lemma DecimalSplit(n: nat)
    requires n >= 1000
    ensures Decimal(n) == Decimal(n / 1000) + Pad3(n % 1000)
  {
    ThousandsDigits(n);
    var a, b, c := n / 10, n / 100, n / 1000;
    assert Decimal(b) == Decimal(c) + [DigitChar(b % 10)];
    assert Decimal(a) == Decimal(b) + [DigitChar(a % 10)];
  }

  /** Taking the separators out of a grouped number gives back its plain decimal digits. */
  lemma {:induction false} GroupedDigits(n: nat)
    ensures RemoveSpaces(Grouped(n)) == Decimal(n)
  {
    if n < 1000 {
      RemoveSpacesOfDigits(Decimal(n));
    } else {
      GroupedDigits(n / 1000);
      RemoveSpacesConcat(Grouped(n / 1000) + " ", Pad3(n % 1000));
      RemoveSpacesConcat(Grouped(n / 1000), " ");
      RemoveSpacesOfDigits(Pad3(n % 1000));
      DecimalSplit(n);
    }
  }

  /** So the grouped rendering shows exactly the value: parsing its digits gives `n` back. */
  lemma GroupedValue(n: nat)
    ensures AllDigits(RemoveSpaces(Grouped(n)))
    ensures ParseDecimal(RemoveSpaces(Grouped(n))) == n
  {
    GroupedDigits(n);
    ParseDecimalOfDecimal(n);
  }

  /** A grouped number never starts with a separator, so a sign put in front is its first character. */
  lemma {:induction false} GroupedStartsWithDigit(n: nat)
    ensures Grouped(n) != [] && IsDigit(Grouped(n)[0])
  {
    if n >= 1000 {
      GroupedStartsWithDigit(n / 1000);
    }
  }

  /** No difference shows as `+0`. */
  lemma SignedZero()
    ensures Signed(0) == "+0"
  {
    assert DigitChar(0) == '0';
  }

  /** The delta text starts with `+` exactly when the delta is not negative, and with `-` otherwise. */
  lemma SignedSign(d: int)
    ensures Signed(d) != []
    ensures Signed(d)[0] == '+' <==> d >= 0
    ensures Signed(d)[0] == '-' <==> d < 0
  {
    GroupedStartsWithDigit(if d < 0 then -d else d);
  }

  // ---------------------------------------------------------------------------
  // Python's int(text)

  function RemoveUnderscores(s: string): (r: string)
    ensures |r| <= |s|
  {
    if s == [] then [] else (if s[0] == '_' then [] else [s[0]]) + RemoveUnderscores(s[1..])
  }

  /**
   * The digit strings `int()` accepts: digits, with single underscores allowed
   * between two digits.
   */
  predicate DigitGroups(s: string) {
    && s != [] && IsDigit(s[0]) && IsDigit(s[|s| - 1])
    && (forall i :: 0 <= i < |s| ==> IsDigit(s[i]) || s[i] == '_')
    && (forall i :: 0 <= i < |s| - 1 ==> !(s[i] == '_' && s[i + 1] == '_'))
  }

  lemma {:induction false} RemoveUnderscoresDigits(s: string)
    requires forall i :: 0 <= i < |s| ==> IsDigit(s[i]) || s[i] == '_'
    ensures AllDigits(RemoveUnderscores(s))
  {
    if s != [] {
      RemoveUnderscoresDigits(s[1..]);
    }
  }

  lemma {:induction false} RemoveUnderscoresOfDigits(s: string)
    requires AllDigits(s)
    ensures RemoveUnderscores(s) == s
  {
    if s != [] {
      RemoveUnderscoresOfDigits(s[1..]);
    }
  }

  function ParseUnsigned(s: string): Option<nat> {
    if DigitGroups(s) then
      RemoveUnderscoresDigits(s);
      Some(ParseDecimal(RemoveUnderscores(s)))
    else None
  }

  /**
   * Python's `int(text)` for ASCII input: surrounding whitespace is ignored,
   * an optional sign, then the digits; `None` stands for the ValueError.
   */
  function ParseInt(text: string): Option<int> {
    var t := Strip(text);
    if t != [] && (t[0] == '+' || t[0] == '-') then
      match ParseUnsigned(t[1..])
      case Some(n) => var v: int := n; Some(if t[0] == '-' then -v else v)
      case None => None
    else match ParseUnsigned(t)
      case Some(n) => Some(n)
      case None => None
  }

  lemma ParseUnsignedOfDecimal(n: nat)
    ensures ParseUnsigned(Decimal(n)) == Some(n)
  {
    var s := Decimal(n);
    RemoveUnderscoresOfDigits(s);
    ParseDecimalOfDecimal(n);
  }

  lemma {:induction false} StripOfNonSpaceEnds(s: string)
    requires s != [] && !IsSpace(s[0]) && !IsSpace(s[|s| - 1])
    ensures Strip(s) == s
  {
  }

  /** `int(str(i)) == i`: what the bot prints as an id it reads back as the same id. */
  lemma ParseIntOfIntStr(i: int)
    ensures ParseInt(IntStr(i)) == Some(i)
  {
    var s := IntStr(i);
    var digits := Decimal(if i < 0 then -i else i);
    ParseUnsignedOfDecimal(if i < 0 then -i else i);
    assert !IsSpace(s[0]) && !IsSpace(s[|s| - 1]);
    StripOfNonSpaceEnds(s);
    if i < 0 {
      assert s[1..] == digits;
    } else {
      assert s[0] != '+' && s[0] != '-';
    }
  }

  /** Concatenation regroups freely (stated once, so that proofs over texts with literal parts need not rediscover it). */
  lemma AppendAssoc(p: string, q: string, r: string)
    ensures (p + q) + r == p + (q + r)
  {
  }

  /** `lstrip()` leaves a text that starts with a non-space character as it is. */
  lemma LStripKeeps(s: string)
    requires s != [] && !IsSpace(s[0])
    ensures LStrip(s) == s
  {
  }

  /** `lstrip()` drops one leading space before a non-space character. */
  lemma LStripOneSpace(s: string)
    requires s != [] && !IsSpace(s[0])
    ensures LStrip(" " + s) == s
  {
    assert (" " + s)[1..] == s;
  }

  /** No upper-case ASCII letter anywhere in `s`. */
  predicate NoCapitals(s: string) {
    forall i :: 0 <= i < |s| ==> !('A' <= s[i] <= 'Z')
  }

  lemma NoCapitalsConcat(a: string, b: string)
    requires NoCapitals(a) && NoCapitals(b)
    ensures NoCapitals(a + b)
  {
    assert forall i :: 0 <= i < |a + b| ==> (a + b)[i] == if i < |a| then a[i] else b[i - |a|];
  }

  /** `capitalize()` of a text with no capitals after its first character upper-cases just that character. */
  lemma CapitalizeFirstOnly(c: char, rest: string)
    requires NoCapitals(rest)
    ensures Capitalize([c] + rest) == [Upper(c)] + rest
  {
    var s := [c] + rest;
    assert forall i :: 0 <= i < |s| ==> Capitalize(s)[i] == ([Upper(c)] + rest)[i];
  }

  /** `rstrip()` drops whitespace typed after a text that ends with a non-space character, and nothing else. */
  lemma RStripSpacesAfter(t: string, sp: string)
    requires t != [] && !IsSpace(t[|t| - 1]) && AllSpaces(sp)
    ensures RStrip(t + sp) == t
  {
    assert (t + sp)[..|t|] == t;
  }
}
