/** What RFC 4648 says of base64, in arithmetic and independent of any codec: the two alphabets
    (its sections 4 and 5) and the characters of a byte string. */
module Rfc4648 {
  import opened Bytes

  const UPPER := "ABCDEFGHIJKLMNOPQRSTUVWXYZ"
  const LOWER := "abcdefghijklmnopqrstuvwxyz"
  const NUMERALS := "0123456789"

  const BASE64 := UPPER + LOWER + NUMERALS + "+/"
  const BASE64URL := UPPER + LOWER + NUMERALS + "-_"

  /** The character at a place of an alphabet. */
  lemma CharAt(v: nat)
    requires v < 62
    ensures |BASE64| == |BASE64URL| == 64 && BASE64[v] == BASE64URL[v]
    ensures BASE64[v] as int == if v < 26 then 'A' as int + v
                                else if v < 52 then 'a' as int + (v - 26)
                                else '0' as int + (v - 52)
  {
    Lengths();
    if v < 26 {
      UpperAt(v);
      assert (UPPER + LOWER + NUMERALS + "+/")[v] == UPPER[v];
      assert (UPPER + LOWER + NUMERALS + "-_")[v] == UPPER[v];
    } else if v < 52 {
      LowerAt(v - 26);
      assert (UPPER + LOWER + NUMERALS + "+/")[v] == LOWER[v - 26];
      assert (UPPER + LOWER + NUMERALS + "-_")[v] == LOWER[v - 26];
    } else {
      NumeralAt(v - 52);
      assert (UPPER + LOWER + NUMERALS + "+/")[v] == NUMERALS[v - 52];
      assert (UPPER + LOWER + NUMERALS + "-_")[v] == NUMERALS[v - 52];
    }
  }

  lemma Lengths()
    ensures |UPPER| == |LOWER| == 26 && |NUMERALS| == 10
  {
  }

  lemma UpperAt(v: nat)
    requires v < 26
    ensures |UPPER| == 26 && UPPER[v] as int == 'A' as int + v
  {
  }

  lemma LowerAt(v: nat)
    requires v < 26
    ensures |LOWER| == 26 && LOWER[v] as int == 'a' as int + v
  {
  }

  lemma NumeralAt(v: nat)
    requires v < 10
    ensures |NUMERALS| == 10 && NUMERALS[v] as int == '0' as int + v
  {
  }

  lemma LastTwo()
    ensures |BASE64| == |BASE64URL| == 64
    ensures BASE64[62] == '+' && BASE64[63] == '/' && BASE64URL[62] == '-' && BASE64URL[63] == '_'
  {
  }

  /* ---------- the characters of a byte string ---------- */

  function ByteAt(s: dstr, i: nat): (b: nat)
    ensures b < 256
  {
    if i < |s| then s[i] as nat else 0
  }

  /** Three bytes as one number. */
  function Number(s: dstr, i: nat): (n: nat) {
    (ByteAt(s, i) * 256 + ByteAt(s, i + 1)) * 256 + ByteAt(s, i + 2)
  }

  /** The `k`th slice of six bits of a byte string, zeros after its end: a digit in base 64 of the
      number that three bytes make. */
  function Slice(s: dstr, k: nat): (v: nat)
    ensures v < 64
  {
    var n := Number(s, k / 4 * 3);
    if k % 4 == 0 then n / (64 * 64 * 64) % 64
    else if k % 4 == 1 then n / (64 * 64) % 64
    else if k % 4 == 2 then n / 64 % 64
    else n % 64
  }

  /** How many slices it takes to hold `len` bytes. */
  function SliceCount(len: nat): (n: nat) {
    (8 * len + 5) / 6
  }

  /** An alphabet of 64 characters that fit a byte. */
  ghost predicate IsAlphabet(alphabet: string) {
    |alphabet| == 64 && forall v :: 0 <= v < 64 ==> alphabet[v] < 128 as char
  }

  /** The character for a slice. */
  ghost function Letter(alphabet: string, v: nat): (c: byte)
    requires IsAlphabet(alphabet) && v < 64
  {
    alphabet[v] as byte
  }

  /** The characters of a byte string, without padding. */
  ghost function Characters(s: dstr, alphabet: string): (t: dstr)
    requires IsAlphabet(alphabet)
    ensures |t| == SliceCount(|s|)
  {
    seq(SliceCount(|s|), k requires 0 <= k < SliceCount(|s|) => Letter(alphabet, Slice(s, k)))
  }

  /** The characters of the first three bytes, or of fewer at the end. */
  ghost function FirstCharacters(s: dstr, alphabet: string): (t: dstr)
    requires s != [] && IsAlphabet(alphabet)
    ensures |t| == Min(4, |s| + 1)
  {
    seq(Min(4, |s| + 1), k requires 0 <= k < 4 => Letter(alphabet, Slice(s, k)))
  }

  lemma CharactersStep(s: dstr, alphabet: string)
    requires s != [] && IsAlphabet(alphabet)
    ensures Characters(s, alphabet)
         == FirstCharacters(s, alphabet) + Characters(s[Min(3, |s|)..], alphabet)
  {
    var rest := s[Min(3, |s|)..];
    var whole, first := Characters(s, alphabet), FirstCharacters(s, alphabet);
    assert |whole| == |first| + SliceCount(|rest|);
    forall k | |first| <= k < |whole|
      ensures whole[k] == Characters(rest, alphabet)[k - |first|]
    {
      SliceLater(s, k - 4);
    }
  }

  /** Three bytes further, four slices further. */
  lemma SliceLater(s: dstr, k: nat)
    requires |s| >= 3
    ensures Slice(s, k + 4) == Slice(s[3..], k)
  {
    var i := k / 4 * 3;
    assert (k + 4) / 4 * 3 == i + 3 && (k + 4) % 4 == k % 4;
    assert ByteAt(s, i + 3) == ByteAt(s[3..], i) && ByteAt(s, i + 4) == ByteAt(s[3..], i + 1);
    assert ByteAt(s, i + 5) == ByteAt(s[3..], i + 2);
  }

  /** The slices of a number of three bytes, byte by byte. */
  lemma SlicesOfThree(a: nat, b: nat, c: nat)
    requires a < 256 && b < 256 && c < 256
    ensures var n := (a * 256 + b) * 256 + c;
      && n / (64 * 64 * 64) % 64 == a / 4
      && n / (64 * 64) % 64 == a % 4 * 16 + b / 16
      && n / 64 % 64 == b % 16 * 4 + c / 64
      && n % 64 == c % 64
  {
    Quotients(a, b, c);
    Remainders(a, b / 16, b, c / 64);
  }

  /** The first four slices. */
  lemma FirstSlices(s: dstr, k: nat)
    requires k < 4
    ensures var a, b, c := ByteAt(s, 0), ByteAt(s, 1), ByteAt(s, 2);
      Slice(s, k) == if k == 0 then a / 4
                     else if k == 1 then a % 4 * 16 + b / 16
                     else if k == 2 then b % 16 * 4 + c / 64
                     else c % 64
  {
    hide ByteAt;
    SlicesOfThree(ByteAt(s, 0), ByteAt(s, 1), ByteAt(s, 2));
    assert k / 4 * 3 == 0 && k % 4 == k;
  }

  lemma Quotients(a: nat, b: nat, c: nat)
    requires a < 256 && b < 256 && c < 256
    ensures var n := (a * 256 + b) * 256 + c;
      && n / (64 * 64 * 64) == a / 4
      && n / (64 * 64) == a * 16 + b / 16
      && n / 64 == (a * 256 + b) * 4 + c / 64
      && n % 64 == c % 64
  {
  }

  lemma Remainders(a: nat, x: nat, b: nat, y: nat)
    requires x < 16 && y < 4 && a < 256
    ensures (a * 16 + x) % 64 == a % 4 * 16 + x
    ensures ((a * 256 + b) * 4 + y) % 64 == b % 16 * 4 + y
    ensures a / 4 % 64 == a / 4
  {
  }

  /* ---------- padding and lines ---------- */

  /** With padding to a multiple of four characters. */
  ghost function Padded(s: dstr, alphabet: string): (t: dstr)
    requires IsAlphabet(alphabet)
  {
    var t := Characters(s, alphabet);
    t + seq((4 - |t| % 4) % 4, _ => EQUALS)
  }

  lemma PaddedStep(s: dstr, alphabet: string)
    requires s != [] && IsAlphabet(alphabet)
    ensures var first, rest := FirstCharacters(s, alphabet), s[Min(3, |s|)..];
      Padded(s, alphabet) == (first + seq(4 - |first|, _ => EQUALS)) + Padded(rest, alphabet)
  {
    hide Characters, FirstCharacters, IsAlphabet;
    CharactersStep(s, alphabet);
    var first, rest := FirstCharacters(s, alphabet), s[Min(3, |s|)..];
    var later := Characters(rest, alphabet);
    if |s| < 3 {
      assert later == [] && Padded(rest, alphabet) == [];
    } else {
      assert |first| == 4;
      assert (first + later) + seq((4 - |later| % 4) % 4, _ => EQUALS)
          == first + (later + seq((4 - |later| % 4) % 4, _ => EQUALS));
    }
  }

  /** A text with a line break after every `width` characters and at its end (no line breaks at all
      if `width` is 0); it starts behind `col` characters of a line. */
  function Broken(t: dstr, width: nat, col: nat): (r: dstr) {
    if t == [] then []
    else
      var ends := width > 0 && (col + 1 >= width || |t| == 1);
      [t[0]] + (if ends then [NEWLINE] else []) + Broken(t[1..], width, if col + 1 >= width then 0 else col + 1)
  }

  lemma BrokenOne(c: byte, rest: dstr, width: nat, col: nat)
    ensures Broken([c] + rest, width, col)
         == [c] + (if width > 0 && (col + 1 >= width || rest == []) then [NEWLINE] else [])
            + Broken(rest, width, if col + 1 >= width then 0 else col + 1)
  {
    assert ([c] + rest)[1..] == rest;
  }

  /** Four characters at a time. */
  lemma BrokenFour(q: dstr, rest: dstr, width: nat, col: nat)
    requires |q| == 4 && width % 4 == 0 && col % 4 == 0 && (width == 0 ==> col == 0)
    requires width > 0 ==> col < width
    ensures Broken(q + rest, width, col)
         == (q + (if width > 0 && (col + 4 >= width || rest == []) then [NEWLINE] else []))
            + Broken(rest, width, if col + 4 >= width then 0 else col + 4)
  {
    hide Broken;
    if width == 0 {
      BrokenOne(q[0], q[1..] + rest, 0, 0);
      BrokenOne(q[1], q[2..] + rest, 0, 0);
      BrokenOne(q[2], q[3..] + rest, 0, 0);
      BrokenOne(q[3], rest, 0, 0);
    } else {
      BrokenOne(q[0], q[1..] + rest, width, col);
      BrokenOne(q[1], q[2..] + rest, width, col + 1);
      BrokenOne(q[2], q[3..] + rest, width, col + 2);
      BrokenOne(q[3], rest, width, col + 3);
    }
    assert q + rest == [q[0]] + (q[1..] + rest);
    assert q[1..] + rest == [q[1]] + (q[2..] + rest);
    assert q[2..] + rest == [q[2]] + (q[3..] + rest);
    assert q[3..] + rest == [q[3]] + rest;
    assert q == [q[0], q[1], q[2], q[3]];
  }

  lemma BrokenNothing(width: nat, col: nat)
    ensures Broken([], width, col) == []
  {
  }
}
