/** The decimal numbers of libdstr/cvt.c, as the envelope's parser reads its lengths. */
module Decimal {
  import opened Bytes

  const UINTMAX_MAX: nat := 0xFFFF_FFFF_FFFF_FFFF
  const UINT_MAX: nat := 0xFFFF_FFFF
  const MINUS: byte := 0x2D
  const PLUS: byte := 0x2B

  /** read_base10 */
  function ReadDigit(c: byte): (d: Option<nat>)
    ensures d.Some? ==> d.value < 10
  {
    if c == 0x30 then Some(0) else if c == 0x31 then Some(1)
    else if c == 0x32 then Some(2) else if c == 0x33 then Some(3)
    else if c == 0x34 then Some(4) else if c == 0x35 then Some(5)
    else if c == 0x36 then Some(6) else if c == 0x37 then Some(7)
    else if c == 0x38 then Some(8) else if c == 0x39 then Some(9)
    else None
  }

  function DigitChar(d: nat): (c: byte)
    requires d < 10
  {
    if d == 0 then 0x30 else if d == 1 then 0x31 else if d == 2 then 0x32
    else if d == 3 then 0x33 else if d == 4 then 0x34 else if d == 5 then 0x35
    else if d == 6 then 0x36 else if d == 7 then 0x37 else if d == 8 then 0x38
    else 0x39
  }

  const NUMERALS := "0123456789"

  /** The digits, spelled out. */
  lemma DigitsSpelled(d: nat, c: byte)
    requires d < 10
    ensures |NUMERALS| == 10 && DigitChar(d) as int == NUMERALS[d] as int
    ensures ReadDigit(c) == Some(d) <==> c as int == NUMERALS[d] as int
  {
  }

  /** The number that a string of digits denotes, however large; None if it has a non-digit. */
  function Denotes(t: dstr): (v: Option<nat>) {
    if t == [] then Some(0)
    else
      var front, d := Denotes(t[..|t| - 1]), ReadDigit(t[|t| - 1]);
      if front.None? || d.None? then None else Some(front.value * 10 + d.value)
  }

  /** The result of parse_integer. */
  datatype Integer = Integer(negative: bool, integer: nat, ok: bool)

  predicate Signed(t: dstr) {
    t != [] && (t[0] == MINUS || t[0] == PLUS)
  }

  function Unsigned(t: dstr): (digits: dstr) {
    if Signed(t) then t[1..] else t
  }

  lemma {:induction false} DenotesPrefix(t: dstr, n: nat)
    requires n <= |t|
    ensures Denotes(t[..n]).None? ==> Denotes(t).None?
    ensures Denotes(t).Some? ==> Denotes(t[..n]).Some? && Denotes(t[..n]).value <= Denotes(t).value
    decreases |t| - n
  {
    hide ReadDigit;
    if n < |t| {
      DenotesPrefix(t, n + 1);
      assert t[..n + 1][..n] == t[..n];
    } else {
      assert t[..n] == t;
    }
  }

  /** parse_integer in base 10: an optional sign, then at least one digit and nothing else, and a
      value that fits.  The limit is checked digit by digit, before it can wrap. */
  method ParseInteger(text: dstr) returns (out: Integer)
    ensures out.ok <==>
              var digits := Unsigned(text);
              digits != [] && Denotes(digits).Some? && Denotes(digits).value <= UINTMAX_MAX
    ensures out.ok ==>
              && out.integer == Denotes(Unsigned(text)).value
              && out.negative == (text[0] == MINUS)
  {
    hide ReadDigit;
    out := Integer(false, 0, false);
    if |text| == 0 {
      return;
    }
    var i := 0;
    if text[i] == MINUS || text[i] == PLUS {
      out := out.(negative := text[i] == MINUS);
      i := i + 1;
      if i == |text| {
        return;
      }
    }
    ghost var digits, sign := Unsigned(text), i;
    var limit, mod := UINTMAX_MAX / 10, UINTMAX_MAX % 10;
    assert digits[..0] == [];
    while true
      invariant sign <= i < |text| && digits == text[sign..]
      invariant !out.ok && out.negative == (text[0] == MINUS)
      invariant Denotes(digits[..i - sign]) == Some(out.integer) && out.integer <= UINTMAX_MAX
      decreases |text| - i
    {
      ghost var n := i - sign;
      assert digits[..n + 1][..n] == digits[..n];
      DenotesPrefix(digits, n + 1);
      var digit := ReadDigit(text[i]);
      if digit.None? {
        return;
      }
      if out.integer > limit || (out.integer == limit && digit.value > mod) {
        return;
      }
      out := out.(integer := out.integer * 10 + digit.value);
      i := i + 1;
      if i == |text| {
        assert digits[..n + 1] == digits;
        return out.(ok := true);
      }
    }
  }

  /** The meaning of dstr_tou_quiet. */
  function ToUint(text: dstr): (v: Option<nat>) {
    var digits := Unsigned(text);
    if digits == [] || Denotes(digits).None? || Denotes(digits).value > UINT_MAX
       || text[0] == MINUS then None
    else Denotes(digits)
  }

  /** dstr_tou_quiet in base 10 */
  method DstrToU(text: dstr) returns (err: Error, v: nat)
    ensures err == E_NONE <==> ToUint(text).Some?
    ensures err == E_NONE || err == E_PARAM
    ensures v == if err == E_NONE then ToUint(text).value else 0
  {
    hide ReadDigit, Denotes;
    v := 0;
    var num := ParseInteger(text);
    if !num.ok || num.negative || num.integer > UINT_MAX {
      return E_PARAM, 0;
    }
    return E_NONE, num.integer;
  }

  /** A number in decimal, without leading zeros. */
  function Printed(n: nat): (t: dstr)
    ensures t != []
  {
    if n < 10 then [DigitChar(n)] else Printed(n / 10) + [DigitChar(n % 10)]
  }

  lemma ReadDigitChar(d: nat)
    requires d < 10
    ensures ReadDigit(DigitChar(d)) == Some(d)
    ensures DigitChar(d) != MINUS && DigitChar(d) != PLUS && DigitChar(d) != NEWLINE
            && DigitChar(d) != 0x3A
  {
  }

  /** A printed number denotes itself and holds digits only. */
  lemma {:induction false} PrintedDenotes(n: nat)
    ensures Denotes(Printed(n)) == Some(n)
    ensures NEWLINE !in Printed(n) && 0x3A !in Printed(n)
    ensures !Signed(Printed(n)) && Printed(n)[0] != MINUS
    ensures n < 10000 ==> |Printed(n)| <= 4
    decreases n
  {
    hide ReadDigit, DigitChar;
    var t := Printed(n);
    if n < 10 {
      ReadDigitChar(n);
      assert t[..0] == [];
    } else {
      PrintedDenotes(n / 10);
      ReadDigitChar(n % 10);
      assert t[..|t| - 1] == Printed(n / 10);
      PrintedLength(n);
    }
  }

  lemma PrintedLength(n: nat)
    ensures n < 10000 ==> |Printed(n)| <= 4
  {
    hide DigitChar;
    if 10 <= n < 10000 {
      assert |Printed(n)| == |Printed(n / 10)| + 1;
      if n >= 100 {
        assert |Printed(n / 10)| == |Printed(n / 10 / 10)| + 1;
        if n >= 1000 {
          assert |Printed(n / 10 / 10)| == |Printed(n / 10 / 10 / 10)| + 1;
        }
      }
    }
  }

  lemma PrintedReadsBack(n: nat)
    requires n <= UINT_MAX
    ensures ToUint(Printed(n)) == Some(n)
  {
    hide Printed, Denotes;
    PrintedDenotes(n);
  }
}
