/** The base64 codecs of libdstr and libacme write and read the texts of RFC 4648. */
module StandardText {
  import opened Bytes
  import opened Rfc4648
  import B = Base64
  import U = Base64Url

  lemma AreAlphabets()
    ensures IsAlphabet(BASE64) && IsAlphabet(BASE64URL)
  {
    LastTwo();
    forall v | 0 <= v < 64
      ensures BASE64[v] < 128 as char && BASE64URL[v] < 128 as char
    {
      if v < 62 {
        CharAt(v);
      }
    }
  }

  /** The character of each value is the one at its place in the alphabet. */
  lemma DigitIsStandard(v: byte)
    requires v < 64
    ensures IsAlphabet(BASE64) && B.Digit(v) == Letter(BASE64, v as nat)
    ensures IsAlphabet(BASE64URL) && U.Digit(v) == Letter(BASE64URL, v as nat)
  {
    AreAlphabets();
    LastTwo();
    if v < 62 {
      CharAt(v as nat);
      DigitCode(v);
    }
  }

  lemma DigitCode(v: byte)
    requires v < 62
    ensures B.Digit(v) == U.Digit(v)
    ensures B.Digit(v) as int == if v < 26 then 'A' as int + v as int
                                 else if v < 52 then 'a' as int + (v as int - 26)
                                 else '0' as int + (v as int - 52)
  {
  }

  /** A character has a value exactly if it is in the alphabet, and then its place there. */
  lemma ValueIsPlace(c: byte, v: byte)
    ensures IsAlphabet(BASE64) && IsAlphabet(BASE64URL)
    ensures B.Value(c) == Some(v) <==> v < 64 && c == Letter(BASE64, v as nat)
    ensures U.Value(c) == Some(v) <==> v < 64 && c == Letter(BASE64URL, v as nat)
  {
    hide B.Digit, U.Digit, B.Value, U.Value;
    AreAlphabets();
    if v < 64 {
      DigitIsStandard(v);
      B.DigitValue(v);
      U.DigitValue(v);
    }
    if B.Value(c).Some? { ValueDigit(c); }
    if U.Value(c).Some? { U.ValueDigit(c); }
  }

  lemma ValueDigit(c: byte)
    requires B.Value(c).Some?
    ensures B.Value(c).value < 64 && B.Digit(B.Value(c).value) == c
  {
  }

  /* ---------- encoding ---------- */

  lemma SextetIsSlice(s: dstr, k: nat)
    requires s != [] && k < 4
    ensures B.Sextet(s[0], B.At(s, 1), B.At(s, 2), k) < 64
    ensures B.Sextet(s[0], B.At(s, 1), B.At(s, 2), k) as nat == Slice(s, k)
  {
    hide B.Sextet, Slice;
    SextetNumber(s[0], B.At(s, 1), B.At(s, 2), k);
    FirstSlices(s, k);
  }

  lemma SextetNumber(a: byte, b: byte, c: byte, k: nat)
    requires k < 4
    ensures B.Sextet(a, b, c, k) < 64
    ensures B.Sextet(a, b, c, k) as nat
         == if k == 0 then a as nat / 4
            else if k == 1 then a as nat % 4 * 16 + b as nat / 16
            else if k == 2 then b as nat % 16 * 4 + c as nat / 64
            else c as nat % 64
  {
    if k == 0 { HighBits(a); }
    else if k == 1 { LowBits(a); HighBits(b); OrIsSum4(0x30 & (a << 4), 0x0f & (b >> 4)); }
    else if k == 2 { LowBits(b); HighBits(c); OrIsSum2(0x3c & (b << 2), 0x03 & (c >> 6)); }
    else { LowBits(c); }
  }

  lemma HighBits(a: byte)
    ensures (0x3f & (a >> 2)) as nat == a as nat / 4
    ensures (0x0f & (a >> 4)) as nat == a as nat / 16
    ensures (0x03 & (a >> 6)) as nat == a as nat / 64
  {
  }

  lemma LowBits(a: byte)
    ensures (0x30 & (a << 4)) as nat == a as nat % 4 * 16
    ensures (0x3c & (a << 2)) as nat == a as nat % 16 * 4
    ensures (0x3f & a) as nat == a as nat % 64
  {
    LowTwo(a);
    LowFour(a);
  }

  lemma LowTwo(a: byte)
    ensures (0x30 & (a << 4)) as nat == a as nat % 4 * 16
  {
  }

  lemma LowFour(a: byte)
    ensures (0x3c & (a << 2)) as nat == a as nat % 16 * 4
  {
  }

  lemma OrIsSum4(p: byte, q: byte)
    requires p & 0x0f == 0 && q < 16
    ensures (p | q) as nat == p as nat + q as nat
  {
  }

  lemma OrIsSum2(p: byte, q: byte)
    requires p & 0x03 == 0 && q < 4
    ensures (p | q) as nat == p as nat + q as nat
  {
  }

  lemma DigitOfSlice(s: dstr, k: nat)
    requires s != [] && k < 4
    ensures IsAlphabet(BASE64) && IsAlphabet(BASE64URL)
    ensures var v := B.Sextet(s[0], B.At(s, 1), B.At(s, 2), k);
      v < 64 && B.Digit(v) == Letter(BASE64, Slice(s, k)) && U.Digit(v) == Letter(BASE64URL, Slice(s, k))
  {
    hide B.Sextet, B.Digit, U.Digit, Slice;
    SextetIsSlice(s, k);
    DigitIsStandard(B.Sextet(s[0], B.At(s, 1), B.At(s, 2), k));
  }

  /** A group is the first characters, and padding. */
  lemma QuadIsStandard(s: dstr)
    requires s != []
    ensures IsAlphabet(BASE64)
    ensures var first := FirstCharacters(s, BASE64);
      B.Quad(s[0], B.At(s, 1), B.At(s, 2), B.GroupLen(s)) == first + seq(4 - |first|, _ => EQUALS)
  {
    hide B.Sextet, B.Quad, B.Digit, Slice, Letter, BASE64, BASE64URL, IsAlphabet;
    AreAlphabets();
    var a, b, c := s[0], B.At(s, 1), B.At(s, 2);
    B.QuadDigits(a, b, c, B.GroupLen(s));
    DigitOfSlice(s, 0);
    DigitOfSlice(s, 1);
    DigitOfSlice(s, 2);
    DigitOfSlice(s, 3);
  }

  /** The text of every byte string: the characters of RFC 4648, padded to a multiple of four, with
      a line break after every `chunk / 3 * 4` of them and at the end, or none if `chunk` is 0. */
  lemma TextIsStandard(s: dstr, chunk: nat)
    requires chunk % 3 == 0
    ensures IsAlphabet(BASE64)
    ensures B.Text(s, chunk, 0) == Broken(Padded(s, BASE64), chunk / 3 * 4, 0)
  {
    hide B.Text, Broken, Padded;
    TextInGroups(s, chunk / 3, 0);
  }

  /** In lines of `width` groups, from behind `at` groups on. */
  lemma {:induction false} TextInGroups(s: dstr, width: nat, at: nat)
    requires if width == 0 then at == 0 else at < width
    ensures IsAlphabet(BASE64)
    ensures B.Text(s, 3 * width, 3 * at) == Broken(Padded(s, BASE64), 4 * width, 4 * at)
    decreases |s|
  {
    hide B.Text, B.Quad, Broken, Padded, FirstCharacters, IsAlphabet, BASE64, BASE64URL;
    AreAlphabets();
    if s == [] {
      B.TextOfNothing(3 * width, 3 * at);
      BrokenNothing(4 * width, 4 * at);
      PaddedNothing();
    } else {
      var n := B.GroupLen(s);
      var rest := s[n..];
      var next := if at + 1 >= width then 0 else at + 1;
      GroupInText(s, width, at);
      if rest == [] {
        PaddedNothing();
        B.TextOfNothing(3 * width, B.NextColumn(3 * width, 3 * at, n));
        BrokenNothing(4 * width, 4 * next);
      } else {
        TextInGroups(rest, width, next);
      }
    }
  }

  /** The first group, on both sides. */
  lemma GroupInText(s: dstr, width: nat, at: nat)
    requires s != [] && if width == 0 then at == 0 else at < width
    ensures IsAlphabet(BASE64)
    ensures var n := B.GroupLen(s);
      var rest, first := s[n..], B.FirstChars(s, 3 * width, 3 * at);
      var next := if at + 1 >= width then 0 else at + 1;
      && B.Text(s, 3 * width, 3 * at) == first + B.Text(rest, 3 * width, B.NextColumn(3 * width, 3 * at, n))
      && Broken(Padded(s, BASE64), 4 * width, 4 * at) == first + Broken(Padded(rest, BASE64), 4 * width, 4 * next)
      && (rest != [] ==> B.NextColumn(3 * width, 3 * at, n) == 3 * next)
  {
    hide B.Text, B.Quad, Broken, Padded, FirstCharacters, IsAlphabet, BASE64, BASE64URL;
    AreAlphabets();
    var n := B.GroupLen(s);
    var q, rest := B.Quad(s[0], B.At(s, 1), B.At(s, 2), n), s[n..];
    assert |q| == 4 by { B.QuadDigits(s[0], B.At(s, 1), B.At(s, 2), n); }
    QuadIsStandard(s);
    PaddedStep(s, BASE64);
    B.TextStep(s, 3 * width, 3 * at);
    BrokenFour(q, Padded(rest, BASE64), 4 * width, 4 * at);
    PaddedNothing();
    if rest != [] {
      PaddedSomething(rest);
    }
  }

  lemma PaddedNothing()
    ensures IsAlphabet(BASE64) && Padded([], BASE64) == []
  {
    AreAlphabets();
  }

  lemma PaddedSomething(s: dstr)
    requires s != []
    ensures IsAlphabet(BASE64) && Padded(s, BASE64) != []
  {
    AreAlphabets();
  }

  /** The text of libacme: the same with the other alphabet, and without padding. */
  lemma {:induction false} UrlTextIsStandard(s: dstr)
    ensures IsAlphabet(BASE64URL)
    ensures U.Encode(s, 0, 0) == Characters(s, BASE64URL)
    decreases |s|
  {
    hide U.Encode, U.GroupText, Characters, FirstCharacters;
    AreAlphabets();
    if s == [] {
      U.EncodeEnd(0, 0);
      NoCharacters();
    } else {
      U.EncodeGroup(s);
      GroupIsStandard(s);
      CharactersStep(s, BASE64URL);
      UrlTextIsStandard(s[Min(3, |s|)..]);
    }
  }

  lemma NoCharacters()
    ensures IsAlphabet(BASE64URL) && Characters([], BASE64URL) == []
  {
    AreAlphabets();
  }

  lemma GroupIsStandard(s: dstr)
    requires s != []
    ensures IsAlphabet(BASE64URL) && U.GroupText(s) == FirstCharacters(s, BASE64URL)
  {
    hide B.Sextet, U.Sextet, U.Digit, Slice, Letter, BASE64, BASE64URL, IsAlphabet;
    AreAlphabets();
    var a, b, c := s[0], B.At(s, 1), B.At(s, 2);
    DigitOfSlice(s, 0);
    DigitOfSlice(s, 1);
    DigitOfSlice(s, 2);
    DigitOfSlice(s, 3);
    SameSextets(a, b, c);
  }

  lemma SameSextets(a: byte, b: byte, c: byte)
    ensures U.Sextet(a, b, c, 0) == B.Sextet(a, b, c, 0) && U.Sextet(a, b, c, 1) == B.Sextet(a, b, c, 1)
    ensures U.Sextet(a, b, c, 2) == B.Sextet(a, b, c, 2) && U.Sextet(a, b, c, 3) == B.Sextet(a, b, c, 3)
  {
  }

  /* ---------- decoding ---------- */

  /** The characters of a text that b642bin looks at: padding, and what is in the alphabet. */
  ghost function Relevant(t: dstr): (r: dstr) {
    if t == [] then []
    else
      AreAlphabets();
      (if t[0] == EQUALS || exists v :: 0 <= v < 64 && t[0] == Letter(BASE64, v) then [t[0]] else [])
      + Relevant(t[1..])
  }

  /** All others are passed over. */
  lemma {:induction false} OthersPassedOver(st: B.Decoding, t: dstr)
    requires st.idx < 4
    ensures var r, r' := B.TakeAll(st, t), B.TakeAll(st, Relevant(t));
      r.out == r'.out && r.idx == r'.idx && r.skip == r'.skip && r.ch == r'.ch && r.done == r'.done
    decreases t
  {
    hide B.Take, Relevant;
    RelevantStep(t);
    if t != [] && st.done {
      B.TakeAllDone(st, t);
      B.TakeAllDone(st, Relevant(t));
    } else if t != [] {
      var c, later := t[0], Relevant(t[1..]);
      OthersPassedOver(B.Take(st, c), t[1..]);
      if Relevant(t) == [c] + later {
        assert ([c] + later)[1..] == later;
      } else {
        B.TakeForeign(st, c);
        PositionDoesNotMatter(B.Take(st, c), st, later);
      }
    }
  }

  lemma RelevantStep(t: dstr)
    ensures t == [] ==> Relevant(t) == []
    ensures t != [] ==>
              || Relevant(t) == [t[0]] + Relevant(t[1..])
              || (Relevant(t) == Relevant(t[1..]) && t[0] != EQUALS && B.Value(t[0]) == None)
  {
    hide B.Value, BASE64;
    if t != [] && t[0] != EQUALS && B.Value(t[0]).Some? {
      ValueIsPlace(t[0], B.Value(t[0]).value);
    }
  }

  lemma {:induction false} PositionDoesNotMatter(a: B.Decoding, b: B.Decoding, t: dstr)
    requires a.idx < 4 && a.(pos := 0, total := 0) == b.(pos := 0, total := 0)
    ensures var r, r' := B.TakeAll(a, t), B.TakeAll(b, t); r.(pos := 0, total := 0) == r'.(pos := 0, total := 0)
    decreases t
  {
    hide B.Value, B.Digits.Put, B.Digits.Bytes;
    if t != [] {
      PositionDoesNotMatter(B.Take(a, t[0]), B.Take(b, t[0]), t[1..]);
    }
  }
}
