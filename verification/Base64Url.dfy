/** The strict unpadded codec of libacme/b64url.c (the alphabet of section 5 of RFC 4648, without
    padding as in section 2 of RFC 7515). */
module Base64Url {
  import opened Bytes

  /** b64urllut */
  function Digit(v: byte): (c: byte)
    requires v < 64
  {
    if v < 26 then 0x41 + v
    else if v < 52 then 0x61 + (v - 26)
    else if v < 62 then 0x30 + (v - 52)
    else if v == 62 then 0x2D
    else 0x5F
  }

  /** unb64urllut; None stands for its 255. */
  function Value(c: byte): (v: Option<byte>)
    ensures v.Some? ==> v.value < 64
  {
    if 0x41 <= c <= 0x5A then Some(c - 0x41)
    else if 0x61 <= c <= 0x7A then Some(c - 0x61 + 26)
    else if 0x30 <= c <= 0x39 then Some(c - 0x30 + 52)
    else if c == 0x2D then Some(62)
    else if c == 0x5F then Some(63)
    else None
  }

  /* ---------- encoding ---------- */

  /** The bits of byte `c`, the `i`th of a group, that wait for the next byte. */
  function EncodeLeft(i: nat, c: byte): (u: byte)
    ensures u < 64
  {
    if i == 0 then (c & 0x03) << 4 else if i == 1 then (c & 0x0f) << 2 else 0
  }

  /** The characters that byte `c` completes, with the leftover bits `u`. */
  function EncodeChars(i: nat, u: byte, c: byte): (t: dstr)
    requires u < 64
  {
    if i == 0 then [Digit((c >> 2) & 0x3f)]
    else if i == 1 then [Digit(u | ((c >> 4) & 0x0f))]
    else [Digit(u | ((c >> 6) & 0x03)), Digit(c & 0x3f)]
  }

  /** The text of the bytes from place `i` of a group on, with the leftover bits `u`. */
  function Encode(s: dstr, i: nat, u: byte): (t: dstr)
    requires u < 64
  {
    if s == [] then (if i == 0 then [] else [Digit(u)])
    else EncodeChars(i, u, s[0]) + Encode(s[1..], if i == 2 then 0 else i + 1, EncodeLeft(i, s[0]))
  }

  /** One byte of do_bin2b64url: the switch over its place in a group. */
  method EncodeByte(i: nat, u: byte, c: byte) returns (chars: dstr, u': byte)
    requires i < 3 && u < 64
    ensures chars == EncodeChars(i, u, c) && u' == EncodeLeft(i, c)
  {
    hide Digit;
    u' := u;
    if i == 0 {
      u' := (c >> 2) & 0x3f;
      chars := [Digit(u')];
      u' := (c & 0x03) << 4;
    } else if i == 1 {
      u' := u' | ((c >> 4) & 0x0f);
      chars := [Digit(u')];
      u' := (c & 0x0f) << 2;
    } else {
      u' := u' | ((c >> 6) & 0x03);
      chars := [Digit(u')];
      u' := c & 0x3f;
      chars := chars + [Digit(u')];
      u' := 0;
    }
  }

  /** do_bin2b64url */
  method Bin2B64Url(bin: dstr) returns (t: dstr)
    ensures t == Encode(bin, 0, 0)
  {
    hide Digit, EncodeChars, EncodeLeft;
    t := [];
    var u: byte := 0;
    assert bin[0..] == bin;
    var i := 0;
    while i < |bin|
      invariant i <= |bin| && u < 64
      invariant t + Encode(bin[i..], i % 3, u) == Encode(bin, 0, 0)
    {
      var chars, u' := EncodeByte(i % 3, u, bin[i]);
      assert bin[i..][1..] == bin[i + 1..];
      Assoc(t, chars, Encode(bin[i + 1..], (i + 1) % 3, u'));
      t, u := t + chars, u';
      i := i + 1;
    }
    assert bin[i..] == [];
    if |bin| % 3 != 0 {
      t := t + [Digit(u)];
    }
  }

  /* ---------- decoding ---------- */

  /** The byte that value `u`, the `i`th of a group, completes, with the leftover bits `l`. */
  function DecodeByte(i: nat, l: byte, u: byte): (b: byte) {
    if i == 1 then l | ((u >> 4) & 0x03) else if i == 2 then l | ((u >> 2) & 0x0f) else l | u
  }

  /** The bits of value `u` that wait for the next one. */
  function DecodeLeft(i: nat, u: byte): (l: byte) {
    if i == 0 then u << 2
    else if i == 1 then (u & 0x0f) << 4
    else if i == 2 then (u & 0x03) << 6
    else 0
  }

  /** The bytes of the text from place `i` of a group on, with the leftover bits `l`: the loop of
      b64url2bin_quiet and the check after it; None is E_PARAM. */
  function Decode(t: dstr, i: nat, l: byte): (s: Option<dstr>) {
    if t == [] then (if l != 0 then None else Some([]))
    else
      var u := Value(t[0]);
      if u.None? then None
      else
        var later := Decode(t[1..], if i == 3 then 0 else i + 1, DecodeLeft(i, u.value));
        if later.None? then None
        else Some((if i == 0 then [] else [DecodeByte(i, l, u.value)]) + later.value)
  }

  /** What b64url2bin accepts, and the bytes it gives: the length is checked first. */
  function B64Url(t: dstr): (s: Option<dstr>) {
    if |t| % 4 == 1 then None else Decode(t, 0, 0)
  }

  /** b64url2bin_quiet */
  method B64Url2Bin(b64: dstr, bin: Dstr) returns (err: Error)
    requires !bin.fixedSize
    modifies bin
    ensures err == E_NONE || err == E_PARAM
    ensures err == E_NONE <==> B64Url(b64).Some?
    ensures err == E_NONE ==> bin.data == old(bin.data) + B64Url(b64).value
  {
    hide Value, Decode;
    if |b64| % 4 == 1 {
      return E_PARAM;
    }
    var l: byte := 0;
    assert b64[0..] == b64;
    var i := 0;
    while i < |b64|
      invariant i <= |b64|
      invariant Decode(b64, 0, 0).Some? <==> Decode(b64[i..], i % 4, l).Some?
      invariant Decode(b64, 0, 0).Some? ==>
                bin.data + Decode(b64[i..], i % 4, l).value == old(bin.data) + Decode(b64, 0, 0).value
    {
      DecodeStep(b64[i..], i % 4, l);
      assert b64[i..][1..] == b64[i + 1..];
      var u := Value(b64[i]);
      if u.None? {
        return E_PARAM;
      }
      ghost var before := bin.data;
      l := DecodeChar(i % 4, l, u.value, bin);
      if Decode(b64, 0, 0).Some? {
        Assoc(before, bin.data[|before|..], Decode(b64[i + 1..], (i + 1) % 4, l).value);
      }
      i := i + 1;
    }
    DecodeEnd(i % 4, l);
    assert b64[i..] == [];
    if l != 0 {
      return E_PARAM;
    }
    err := E_NONE;
  }

  /** One character of b64url2bin_quiet: the switch over its place in a group. */
  method DecodeChar(i: nat, l: byte, u: byte, bin: Dstr) returns (l': byte)
    requires i < 4 && !bin.fixedSize
    modifies bin
    ensures l' == DecodeLeft(i, u)
    ensures bin.data == old(bin.data) + if i == 0 then [] else [DecodeByte(i, l, u)]
  {
    l' := l;
    if i == 0 {
      l' := u << 2;
    } else if i == 1 {
      l' := l' | ((u >> 4) & 0x03);
      var ok := bin.Append([l']);
      l' := (u & 0x0f) << 4;
    } else if i == 2 {
      l' := l' | ((u >> 2) & 0x0f);
      var ok := bin.Append([l']);
      l' := (u & 0x03) << 6;
    } else {
      l' := l' | u;
      var ok := bin.Append([l']);
      l' := 0;
    }
  }

  lemma DecodeEnd(i: nat, l: byte)
    ensures Decode([], i, l) == if l != 0 then None else Some([])
  {
  }

  lemma DecodeStep(t: dstr, i: nat, l: byte)
    requires t != []
    ensures var u := Value(t[0]);
      if u.None? then Decode(t, i, l) == None
      else
        var later := Decode(t[1..], if i == 3 then 0 else i + 1, DecodeLeft(i, u.value));
        Decode(t, i, l) ==
          if later.None? then None
          else Some((if i == 0 then [] else [DecodeByte(i, l, u.value)]) + later.value)
  {
    hide Value, DecodeLeft, DecodeByte;
  }

  /* ---------- the bijection ---------- */

  lemma DigitValue(v: byte)
    requires v < 64
    ensures Value(Digit(v)) == Some(v)
  {
  }

  lemma ValueDigit(c: byte)
    requires Value(c).Some?
    ensures Value(c).value < 64 && Digit(Value(c).value) == c
  {
  }

  /** The four sextets of three bytes, and the three bytes of four sextets. */
  function Sextet(a: byte, b: byte, c: byte, i: nat): (v: byte)
    ensures v < 64
  {
    if i == 0 then (a >> 2) & 0x3f
    else if i == 1 then ((a & 0x03) << 4) | ((b >> 4) & 0x0f)
    else if i == 2 then ((b & 0x0f) << 2) | ((c >> 6) & 0x03)
    else c & 0x3f
  }

  function Octet(v0: byte, v1: byte, v2: byte, v3: byte, i: nat): (b: byte) {
    if i == 0 then (v0 << 2) | ((v1 >> 4) & 0x03)
    else if i == 1 then ((v1 & 0x0f) << 4) | ((v2 >> 2) & 0x0f)
    else ((v2 & 0x03) << 6) | v3
  }

  lemma SextetsOfBytes(a: byte, b: byte, c: byte)
    ensures var v0, v1, v2, v3 := Sextet(a, b, c, 0), Sextet(a, b, c, 1), Sextet(a, b, c, 2), Sextet(a, b, c, 3);
      && Octet(v0, v1, v2, v3, 0) == a && Octet(v0, v1, v2, v3, 1) == b && Octet(v0, v1, v2, v3, 2) == c
      && (b == 0 && c == 0 ==> DecodeLeft(1, v1) == 0)
      && (c == 0 ==> DecodeLeft(2, v2) == 0)
  {
  }

  lemma OctetsOfSextets(v0: byte, v1: byte, v2: byte, v3: byte)
    requires v0 < 64 && v1 < 64 && v2 < 64 && v3 < 64
    ensures var a, b, c := Octet(v0, v1, v2, v3, 0), Octet(v0, v1, v2, v3, 1), Octet(v0, v1, v2, v3, 2);
      Sextet(a, b, c, 0) == v0 && Sextet(a, b, c, 1) == v1 && Sextet(a, b, c, 2) == v2 && Sextet(a, b, c, 3) == v3
  {
  }

  /** A short group without leftover bits: its missing bytes count as zero. */
  lemma ShortOctets(v0: byte, v1: byte, v2: byte)
    requires v0 < 64 && v1 < 64 && v2 < 64
    ensures DecodeLeft(1, v1) == 0 ==>
              var a := Octet(v0, v1, 0, 0, 0); Sextet(a, 0, 0, 0) == v0 && Sextet(a, 0, 0, 1) == v1
    ensures DecodeLeft(2, v2) == 0 ==>
              var a, b := Octet(v0, v1, v2, 0, 0), Octet(v0, v1, v2, 0, 1);
              Sextet(a, b, 0, 0) == v0 && Sextet(a, b, 0, 1) == v1 && Sextet(a, b, 0, 2) == v2
  {
  }

  /** The characters of a group, byte by byte. */
  lemma CharsAreSextets(a: byte, b: byte, c: byte)
    ensures EncodeChars(0, 0, a) == [Digit(Sextet(a, b, c, 0))]
    ensures EncodeChars(1, EncodeLeft(0, a), b) == [Digit(Sextet(a, b, c, 1))]
    ensures EncodeChars(2, EncodeLeft(1, b), c) == [Digit(Sextet(a, b, c, 2)), Digit(Sextet(a, b, c, 3))]
    ensures EncodeLeft(0, a) == Sextet(a, 0, 0, 1) && EncodeLeft(1, b) == Sextet(a, b, 0, 2)
    ensures EncodeLeft(2, c) == 0
  {
    hide Digit;
  }

  /** The bytes of a group, character by character. */
  lemma BytesAreOctets(v0: byte, v1: byte, v2: byte, v3: byte)
    ensures DecodeByte(1, DecodeLeft(0, v0), v1) == Octet(v0, v1, v2, v3, 0)
    ensures DecodeByte(2, DecodeLeft(1, v1), v2) == Octet(v0, v1, v2, v3, 1)
    ensures DecodeByte(3, DecodeLeft(2, v2), v3) == Octet(v0, v1, v2, v3, 2)
    ensures DecodeLeft(3, v3) == 0
  {
  }

  /** The text of the first group of some bytes, and the bytes of the first group of a text. */
  function GroupText(s: dstr): (t: dstr)
    requires s != []
  {
    var a, b, c := s[0], if |s| > 1 then s[1] else 0, if |s| > 2 then s[2] else 0;
    var d0, d1, d2, d3 := Digit(Sextet(a, b, c, 0)), Digit(Sextet(a, b, c, 1)),
                          Digit(Sextet(a, b, c, 2)), Digit(Sextet(a, b, c, 3));
    if |s| == 1 then [d0, d1] else if |s| == 2 then [d0, d1, d2] else [d0, d1, d2, d3]
  }

  function GroupBytes(v: dstr, n: nat): (s: dstr)
    requires |v| == 4
  {
    var o0, o1, o2 := Octet(v[0], v[1], v[2], v[3], 0), Octet(v[0], v[1], v[2], v[3], 1),
                      Octet(v[0], v[1], v[2], v[3], 2);
    if n <= 2 then [o0] else if n == 3 then [o0, o1] else [o0, o1, o2]
  }

  /** No leftover bits after a short group. */
  predicate NothingLeft(v: dstr, n: nat)
    requires |v| == 4
  {
    (n == 2 ==> DecodeLeft(1, v[1]) == 0) && (n == 3 ==> DecodeLeft(2, v[2]) == 0)
  }

  lemma EncodeStep(s: dstr, i: nat, u: byte)
    requires s != [] && u < 64
    ensures Encode(s, i, u)
         == EncodeChars(i, u, s[0]) + Encode(s[1..], if i == 2 then 0 else i + 1, EncodeLeft(i, s[0]))
  {
    hide Digit, EncodeChars, EncodeLeft;
  }

  lemma EncodeEnd(i: nat, u: byte)
    requires u < 64
    ensures Encode([], i, u) == if i == 0 then [] else [Digit(u)]
  {
    hide Digit;
  }

  lemma EncodeGroup(s: dstr)
    requires s != []
    ensures Encode(s, 0, 0) == GroupText(s) + Encode(s[Min(3, |s|)..], 0, 0)
  {
    hide Digit, Encode, EncodeChars, EncodeLeft, Sextet, GroupText;
    EncodeStep(s, 0, 0);
    if |s| == 1 {
      EncodeOne(s[0]);
      assert s == [s[0]] && s[Min(3, |s|)..] == [];
    } else {
      EncodeAfterFirst(s);
    }
  }

  /** A group of one byte. */
  lemma EncodeOne(a: byte)
    ensures Encode([a], 0, 0) == GroupText([a]) + Encode([], 0, 0)
  {
    hide Digit, Encode, EncodeChars, EncodeLeft, Sextet;
    EncodeStep([a], 0, 0);
    CharsAreSextets(a, 0, 0);
    EncodeEnd(1, EncodeLeft(0, a));
    EncodeEnd(0, 0);
    assert [a][1..] == [];
  }

  /** The rest of a group that has at least two bytes. */
  lemma EncodeAfterFirst(s: dstr)
    requires |s| >= 2
    ensures EncodeChars(0, 0, s[0]) + Encode(s[1..], 1, EncodeLeft(0, s[0]))
         == GroupText(s) + Encode(s[Min(3, |s|)..], 0, 0)
  {
    hide Digit, Encode, EncodeChars, EncodeLeft, Sextet;
    var a, b, c := s[0], s[1], if |s| > 2 then s[2] else 0;
    CharsAreSextets(a, b, c);
    assert s[1..][1..] == s[2..];
    EncodeStep(s[1..], 1, EncodeLeft(0, a));
    var x, y := EncodeChars(0, 0, a), EncodeChars(1, EncodeLeft(0, a), b);
    Assoc(x, y, Encode(s[2..], 2, EncodeLeft(1, b)));
    EncodeEnd(0, 0);
    if |s| == 2 {
      EncodeEnd(2, EncodeLeft(1, b));
      assert s[2..] == [];
    } else {
      assert s[2..][1..] == s[3..];
      EncodeStep(s[2..], 2, EncodeLeft(1, b));
      Assoc(x + y, EncodeChars(2, EncodeLeft(1, b), c), Encode(s[3..], 0, 0));
    }
  }

  lemma DecodeGroup(t: dstr, v: dstr)
    requires |v| == 4 && |t| > 1
    requires forall i :: 0 <= i < 4 && i < |t| ==> Value(t[i]) == Some(v[i])
    requires forall i :: |t| <= i < 4 ==> v[i] == 0
    ensures Decode(t, 0, 0) ==
      if |t| < 4 then (if NothingLeft(v, |t|) then Some(GroupBytes(v, |t|)) else None)
      else if Decode(t[4..], 0, 0).None? then None
      else Some(GroupBytes(v, 4) + Decode(t[4..], 0, 0).value)
  {
    hide Value, Decode, DecodeByte, DecodeLeft, Octet;
    BytesAreOctets(v[0], v[1], v[2], v[3]);
    DecodeStep(t, 0, 0);
    assert t[1..][1..] == t[2..];
    DecodeStep(t[1..], 1, DecodeLeft(0, v[0]));
    if |t| == 2 {
      DecodeEnd(2, DecodeLeft(1, v[1]));
      assert t[2..] == [];
      assert [] + ([Octet(v[0], v[1], v[2], v[3], 0)] + []) == GroupBytes(v, 2);
    } else {
      DecodeAfterSecond(t, v);
      JoinBytes(v, |t|, if |t| > 3 && Decode(t[4..], 0, 0).Some? then Decode(t[4..], 0, 0).value else []);
    }
  }

  lemma JoinBytes(v: dstr, n: nat, later: dstr)
    requires |v| == 4 && n > 2
    ensures var o0, o1, o2 := Octet(v[0], v[1], v[2], v[3], 0), Octet(v[0], v[1], v[2], v[3], 1),
                              Octet(v[0], v[1], v[2], v[3], 2);
      && (n == 3 ==> [] + ([o0] + [o1]) == GroupBytes(v, n))
      && (n > 3 ==> [] + ([o0] + ([o1, o2] + later)) == GroupBytes(v, 4) + later)
  {
    hide Octet;
  }

  /** The rest of a group that has at least three characters. */
  lemma DecodeAfterSecond(t: dstr, v: dstr)
    requires |v| == 4 && |t| > 2 && Value(t[2]) == Some(v[2])
    requires if |t| > 3 then Value(t[3]) == Some(v[3]) else v[3] == 0
    ensures var rest := Decode(t[2..], 2, DecodeLeft(1, v[1]));
      var o1, o2 := Octet(v[0], v[1], v[2], v[3], 1), Octet(v[0], v[1], v[2], v[3], 2);
      if |t| == 3 then rest == (if DecodeLeft(2, v[2]) == 0 then Some([o1]) else None)
      else if Decode(t[4..], 0, 0).None? then rest == None
      else rest == Some([o1, o2] + Decode(t[4..], 0, 0).value)
  {
    hide Value, Decode, DecodeByte, DecodeLeft, Octet;
    BytesAreOctets(v[0], v[1], v[2], v[3]);
    assert t[2..][1..] == t[3..];
    DecodeStep(t[2..], 2, DecodeLeft(1, v[1]));
    var o1, o2 := Octet(v[0], v[1], v[2], v[3], 1), Octet(v[0], v[1], v[2], v[3], 2);
    if |t| == 3 {
      DecodeEnd(3, DecodeLeft(2, v[2]));
      assert t[3..] == [] && [o1] + [] == [o1];
    } else {
      assert t[3..][1..] == t[4..];
      DecodeStep(t[3..], 3, DecodeLeft(2, v[2]));
      if Decode(t[4..], 0, 0).Some? {
        assert [o1] + ([o2] + Decode(t[4..], 0, 0).value) == [o1, o2] + Decode(t[4..], 0, 0).value;
      }
    }
  }

  /** A character that has no value makes the whole text undecodable. */
  lemma {:induction false} BadCharacter(t: dstr, i: nat, l: byte, k: nat)
    requires k < |t| && Value(t[k]) == None
    ensures Decode(t, i, l) == None
    decreases k
  {
    hide Value, Decode, DecodeByte, DecodeLeft;
    DecodeStep(t, i, l);
    if k > 0 && Value(t[0]).Some? {
      BadCharacter(t[1..], if i == 3 then 0 else i + 1, DecodeLeft(i, Value(t[0]).value), k - 1);
    }
  }

  /** Decoding inverts encoding. */
  lemma {:induction false} DecodeEncode(s: dstr)
    ensures B64Url(Encode(s, 0, 0)) == Some(s)
    ensures |Encode(s, 0, 0)| % 4 != 1
    decreases |s|
  {
    hide Digit, Value, Encode, Decode, GroupText, GroupBytes, NothingLeft;
    EncodeEnd(0, 0);
    if s == [] {
      DecodeEnd(0, 0);
    } else {
      var n := Min(3, |s|);
      EncodeGroup(s);
      DecodeEncode(s[n..]);
      var v := GroupValues(s);
      var t := Encode(s, 0, 0);
      if |s| < 3 {
        assert s[n..] == [];
        assert t == GroupText(s);
      } else {
        assert t[4..] == Encode(s[n..], 0, 0);
      }
      DecodeGroup(t, v);
      assert s[..n] + s[n..] == s;
      assert |s| < 3 ==> s[..n] == s;
    }
  }

  /** The values of a group's characters give back its bytes. */
  lemma GroupValues(s: dstr) returns (v: dstr)
    requires s != []
    ensures |v| == 4 && |GroupText(s)| == Min(4, |s| + 1)
    ensures forall i :: 0 <= i < |GroupText(s)| ==> Value(GroupText(s)[i]) == Some(v[i])
    ensures forall i :: |GroupText(s)| <= i < 4 ==> v[i] == 0
    ensures NothingLeft(v, |GroupText(s)|) && GroupBytes(v, |GroupText(s)|) == s[..Min(3, |s|)]
  {
    hide Digit, Value, Sextet, Octet, DecodeLeft;
    var a, b, c := s[0], if |s| > 1 then s[1] else 0, if |s| > 2 then s[2] else 0;
    v := [Sextet(a, b, c, 0), Sextet(a, b, c, 1), Sextet(a, b, c, 2), Sextet(a, b, c, 3)];
    DigitValue(v[0]); DigitValue(v[1]); DigitValue(v[2]); DigitValue(v[3]);
    SextetsOfBytes(a, b, c);
    EncodedZeros(a, b);
  }

  /** The digits that a short group leaves out are zero. */
  lemma EncodedZeros(a: byte, b: byte)
    ensures Sextet(a, 0, 0, 2) == 0 && Sextet(a, 0, 0, 3) == 0 && Sextet(a, b, 0, 3) == 0
  {
  }

  /** Encoding inverts decoding: every accepted text is the encoding of the bytes it gives. */
  lemma {:induction false} EncodeDecode(t: dstr)
    ensures B64Url(t).Some? ==> Encode(B64Url(t).value, 0, 0) == t
    decreases |t|
  {
    hide Digit, Value, Encode, Decode, GroupText, GroupBytes, DecodeLeft;
    EncodeEnd(0, 0);
    DecodeEnd(0, 0);
    if k :| 0 <= k < |t| && Value(t[k]) == None {
      BadCharacter(t, 0, 0, k);
    } else if |t| > 1 && B64Url(t).Some? {
      var v := seq(4, i requires 0 <= i < 4 => if i < |t| then Value(t[i]).value else 0);
      DecodeGroup(t, v);
      var n := Min(4, |t|);
      GroupTextOfBytes(t[..n], v);
      var s := B64Url(t).value;
      EncodeGroup(s);
      GroupTextLocal(s, GroupBytes(v, n));
      if n == 4 {
        EncodeDecode(t[4..]);
        assert s[3..] == Decode(t[4..], 0, 0).value;
      }
      assert t == t[..n] + t[n..];
      if n < 4 {
        assert s[Min(3, |s|)..] == [] && t[n..] == [];
      }
    }
  }

  /** The bytes of a group give back its characters, if no bits are left over. */
  lemma GroupTextOfBytes(t: dstr, v: dstr)
    requires |v| == 4 && 2 <= |t| <= 4 && NothingLeft(v, |t|)
    requires forall i :: 0 <= i < |t| ==> Value(t[i]) == Some(v[i])
    requires forall i :: |t| <= i < 4 ==> v[i] == 0
    ensures |GroupBytes(v, |t|)| == |t| - 1 && GroupText(GroupBytes(v, |t|)) == t
  {
    hide Digit, Value, Sextet, Octet, DecodeLeft;
    assert Value(t[0]) == Some(v[0]) && Value(t[1]) == Some(v[1]);
    ValueDigit(t[0]);
    ValueDigit(t[1]);
    if |t| > 2 { ValueDigit(t[2]); }
    if |t| > 3 { ValueDigit(t[3]); }
    OctetsOfSextets(v[0], v[1], v[2], v[3]);
    ShortOctets(v[0], v[1], v[2]);
  }

  lemma GroupTextLocal(s: dstr, g: dstr)
    requires g != [] && g <= s && |g| <= 3 && (|g| == 3 || g == s)
    ensures GroupText(s) == GroupText(g)
  {
    hide Digit, Sextet;
  }

  /** So the accepted texts are exactly the encodings, and each stands for one string. */
  lemma Bijection(t: dstr)
    ensures B64Url(t).Some? <==> exists s :: Encode(s, 0, 0) == t
    ensures forall s, s' :: Encode(s, 0, 0) == Encode(s', 0, 0) ==> s == s'
  {
    hide Encode, B64Url;
    EncodeDecode(t);
    forall s
      ensures B64Url(Encode(s, 0, 0)) == Some(s)
    {
      DecodeEncode(s);
    }
  }
}
