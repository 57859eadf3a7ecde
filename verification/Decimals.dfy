/** Whole numbers as text: how they are printed, and how `int` reads them. */
module Decimals {
  import opened Domain

  /** What `str.strip` removes. */
  predicate IsSpace(c: char) {
    || '\U{0009}' <= c <= '\U{000D}'
    || '\U{001C}' <= c <= '\U{0020}'
    || c == '\U{0085}' || c == '\U{00A0}' || c == '\U{1680}'
    || '\U{2000}' <= c <= '\U{200A}'
    || c == '\U{2028}' || c == '\U{2029}' || c == '\U{202F}' || c == '\U{205F}' || c == '\U{3000}'
  }

  function StripLeft(s: string): string {
    if s != [] && IsSpace(s[0]) then StripLeft(s[1..]) else s
  }

  function StripRight(s: string): string {
    if s != [] && IsSpace(s[|s| - 1]) then StripRight(s[..|s| - 1]) else s
  }

  function Strip(s: string): string { StripRight(StripLeft(s)) }

  predicate Trimmed(s: string) {
    s != [] && !IsSpace(s[0]) && !IsSpace(s[|s| - 1])
  }

  lemma StripTrimmed(s: string)
    requires Trimmed(s)
    ensures Strip(s) == s
  {
  }

  function DigitChar(d: nat): (c: char)
    requires d < 10
  {
    ('0' as int + d) as char
  }

  function Digits(n: nat): string {
    if n < 10 then [DigitChar(n)] else Digits(n / 10) + [DigitChar(n % 10)]
  }

  function Decimal(n: int): string {
    if n < 0 then "-" + Digits(-n) else Digits(n)
  }

  /** The decimal value of a character in Unicode; of that table only the ASCII part matters here. */
  type DigitTable = char -> Option<nat>

  function AsciiDigit(c: char): Option<nat> {
    if '0' <= c <= '9' then Some(c as int - '0' as int) else None
  }

  ghost predicate IsDigitTable(table: DigitTable) {
    && (forall c :: '0' <= c <= '9' ==> table(c) == Some(c as int - '0' as int))
    && (forall c :: table(c).Some? ==> table(c).value < 10)
  }

  /** Digits, with single underscores allowed between them. */
  function ParseDigits(s: string, table: DigitTable): Option<nat> {
    if s == [] || table(s[|s| - 1]).None? then None
    else
      var d, rest := table(s[|s| - 1]).value, s[..|s| - 1];
      if rest == [] then Some(d)
      else
        var high := ParseDigits(if rest[|rest| - 1] == '_' then rest[..|rest| - 1] else rest, table);
        if high.None? then None else Some(10 * high.value + d)
  }

  /** `int`: surrounding space, one sign, digits. */
  function ParseInt(s: string, table: DigitTable): Option<int> {
    var t := Strip(s);
    if t != [] && (t[0] == '-' || t[0] == '+') then
      var n := ParseDigits(t[1..], table);
      if n.None? then None
      else
        var v: int := n.value;
        Some(if t[0] == '-' then -v else v)
    else
      var n := ParseDigits(t, table);
      if n.None? then None else Some(n.value)
  }

  lemma {:induction false} DigitsShape(n: nat)
    ensures Digits(n) != [] && (forall c :: c in Digits(n) ==> '0' <= c <= '9')
  {
    if n >= 10 {
      DigitsShape(n / 10);
    }
  }

  lemma {:induction false} DigitsRoundTrip(n: nat, table: DigitTable)
    requires IsDigitTable(table)
    ensures ParseDigits(Digits(n), table) == Some(n)
  {
    if n >= 10 {
      DigitsRoundTrip(n / 10, table);
      DigitsShape(n / 10);
      assert Digits(n) == Digits(n / 10) + [DigitChar(n % 10)];
      hide Digits, DigitChar, IsDigitTable;
      OneMoreDigit(Digits(n / 10), n % 10, table);
    }
  }

  lemma OneMoreDigit(high: string, d: nat, table: DigitTable)
    requires IsDigitTable(table) && d < 10
    requires high != [] && (forall c :: c in high ==> '0' <= c <= '9') && ParseDigits(high, table).Some?
    ensures ParseDigits(high + [DigitChar(d)], table) == Some(10 * ParseDigits(high, table).value + d)
  {
    var s := high + [DigitChar(d)];
    assert high[|high| - 1] in high;
    assert s[..|s| - 1] == high;
  }

  lemma DecimalShape(n: int)
    ensures Trimmed(Decimal(n)) && (forall c :: c in Decimal(n) ==> c == '-' || '0' <= c <= '9')
    ensures Decimal(n)[0] == '-' <==> n < 0
    ensures Decimal(n)[0] != '+'
  {
    var digits := Digits(if n < 0 then -n else n);
    DigitsShape(if n < 0 then -n else n);
    assert digits[0] in digits && digits[|digits| - 1] in digits;
    assert Decimal(n)[|Decimal(n)| - 1] == digits[|digits| - 1];
  }

  /** Reading a printed integer gives it back. */
  lemma DecimalRoundTrip(n: int, table: DigitTable)
    requires IsDigitTable(table)
    ensures ParseInt(Decimal(n), table) == Some(n)
  {
    DecimalShape(n);
    StripTrimmed(Decimal(n));
    DigitsRoundTrip(if n < 0 then -n else n, table);
    assert n < 0 ==> Decimal(n)[1..] == Digits(-n);
  }

  /** What else is read: single underscores between digits, a plus sign; and what is not. */
  lemma UnderscoresAndSigns(table: DigitTable)
    requires IsDigitTable(table) && table('_') == None && table('+') == None
    ensures ParseInt("1_0", table) == Some(10) && ParseInt("+7", table) == Some(7)
    ensures ParseInt("1__0", table) == None && ParseInt("_1", table) == None && ParseInt("1_", table) == None
  {
    assert "1_0"[..2] == "1_" && "1_"[..1] == "1";
    assert ParseDigits("1", table) == Some(1);
    assert "+7"[1..] == "7";
    assert "1__0"[..3] == "1__" && "1__"[..2] == "1_";
    assert "_1"[..1] == "_" && "_"[..0] == "";
    StripTrimmed("1_0");
    StripTrimmed("+7");
    StripTrimmed("1__0");
    StripTrimmed("_1");
    StripTrimmed("1_");
  }

  /** A printed number has no sign but a leading minus, so it determines its number. */
  lemma DecimalInjective(m: int, n: int)
    ensures Decimal(m) == Decimal(n) ==> m == n
  {
    DecimalRoundTrip(m, AsciiDigit);
    DecimalRoundTrip(n, AsciiDigit);
  }
}
