/** Whatever the encrypter prints, the decrypter reads back, however the text is cut. */
module EnvelopeRoundTrip {
  import opened Bytes
  import opened Recode
  import opened Base64
  import opened EnvelopeFormat
  import opened MetadataParser
  import opened Decrypter

  /* ---------- the lines of the encoded bytes ---------- */

  /** How many bytes are on the first line of the text of `b`. */
  function LineLen(b: dstr): (n: nat) {
    Min(LINE, |b|)
  }

  /** The characters of a line, without the line break that ends it. */
  ghost predicate LineBody(body: dstr) {
    NEWLINE !in body && |body| <= B64_WIDTH && body != [] && body[0] != EQUALS
  }

  /** The text of at most a line is one line. */
  lemma {:induction false} OneLine(b: dstr, col: nat) returns (body: dstr)
    requires b != [] && col % 3 == 0 && col + |b| <= LINE
    ensures Text(b, LINE, col) == body + [NEWLINE]
    ensures NEWLINE !in body && body != [] && body[0] != EQUALS
    ensures |body| <= 4 * ((|b| + 2) / 3)
    decreases |b|
  {
    hide Text, Quad;
    var n := GroupLen(b);
    var quad := Quad(b[0], At(b, 1), At(b, 2), n);
    QuadCharacters(b[0], At(b, 1), At(b, 2), n);
    TextStep(b, LINE, col);
    if |b| <= 3 {
      TextOfNothing(LINE, NextColumn(LINE, col, n));
      assert b[n..] == [];
      body := quad;
    } else {
      var later := OneLine(b[3..], col + 3);
      body := quad + later;
      Assoc(quad, later, [NEWLINE]);
    }
  }

  /** The text of some bytes starts with the line of the first 48 of them. */
  lemma FirstLine(b: dstr) returns (body: dstr)
    requires b != []
    ensures LineBody(body)
    ensures Text(b[..LineLen(b)], LINE, 0) == body + [NEWLINE]
    ensures Text(b, LINE, 0) == (body + [NEWLINE]) + Text(b[LineLen(b)..], LINE, 0)
  {
    hide Text;
    var n := LineLen(b);
    body := OneLine(b[..n], 0);
    assert b[..n] + b[n..] == b;
    if n == LINE {
      TextSplit(b[..n], b[n..], LINE, 0);
    } else {
      assert b[n..] == [] && b[..n] == b;
      TextOfNothing(LINE, 0);
    }
  }

  /** A line decodes to its bytes, and its line break waits for the next line. */
  lemma DecodeLine(b: dstr)
    requires b != [] && |b| <= LINE
    ensures DecodeCall([NEWLINE] + Text(b, LINE, 0)) == Call(b, [NEWLINE])
  {
    hide Text, DecodeCall;
    var x := [NEWLINE] + Text(b, LINE, 0);
    var none: dstr := [];
    assert none + Flatten([x]) == x by {
      assert [x][1..] == [];
      assert Flatten([x]) == x + [];
    }
    assert none + x == x;
    DecodeStreamOfText([], [x], [NEWLINE], b, LINE, 0);
    assert DecodeStream(none, [x]) == DecodeCall(x) by {
      assert [x][1..] == [];
      assert DecodeCall(x).out + none == DecodeCall(x).out;
    }
  }

  lemma DecodeBareBreak()
    ensures DecodeCall([NEWLINE]) == Call([], [NEWLINE])
  {
    hide Take;
    TakeLineBreak(START, [NEWLINE]);
  }

  /** The tag's line, with the line break that follows the padding. */
  lemma DecodeTag(tag: dstr)
    ensures DecodeCall(Text(tag, 0, 0) + [NEWLINE]).out == tag
  {
    hide Text, Take, TakeAll;
    StrictDecode(tag, 0);
    var st := TakeAll(START, Text(tag, 0, 0));
    TakeAllConcat(START, Text(tag, 0, 0), [NEWLINE]);
    if st.done {
      TakeAllDone(st, [NEWLINE]);
    } else {
      TakeLineBreak(st, [NEWLINE]);
    }
  }

  /** Finding the end of the first line in a prefix of a text. */
  lemma LineEnd(x: dstr, body: dstr, rest: dstr)
    requires NEWLINE !in body && x <= (body + [NEWLINE]) + rest
    ensures IndexOf(x, NEWLINE) == if |x| > |body| then Some(|body|) else None
    ensures |x| > |body| ==>
              x == (body + [NEWLINE]) + x[|body| + 1..] && x[|body| + 1..] <= rest
              && x[..|body| + 1] == body + [NEWLINE]
    ensures |x| <= |body| ==> NEWLINE !in x
  {
    hide IndexOf;
    var whole := (body + [NEWLINE]) + rest;
    if |x| > |body| {
      assert x[..|body|] == body && x[|body|] == NEWLINE;
      IndexOfUnique(x, NEWLINE, |body|);
    } else {
      assert forall i :: 0 <= i < |x| ==> x[i] == body[i] && body[i] in body;
      IndexOfAbsent(x, NEWLINE);
    }
  }

  /* ---------- what the message is ---------- */

  /** A message and its reader.  The sealed keys of our fingerprint hold the message's key. */
  datatype Message = Message(recips: seq<Recipient>, iv: dstr, key: dstr, ciphertext: dstr)

  ghost predicate Wellformed(m: Message, c: Cipher, me: dstr) {
    && c.Opens()
    && |m.iv| == CIPHER_IV_LEN
    && (forall i :: 0 <= i < |m.recips| ==> Readable(R(m.recips[i].fpr, m.recips[i].sealed)))
    && (forall i :: 0 <= i < |m.recips| && m.recips[i].fpr == me ==>
          c.unwrap(me, m.recips[i].sealed) == Some(m.key))
  }

  ghost predicate Addressed(m: Message, me: dstr) {
    exists i :: 0 <= i < |m.recips| && m.recips[i].fpr == me
  }

  function Fingerprints(recips: seq<Recipient>): (fprs: seq<dstr>)
    ensures |fprs| == |recips|
    ensures forall i :: 0 <= i < |recips| ==> fprs[i] == recips[i].fpr
  {
    seq(|recips|, i requires 0 <= i < |recips| => recips[i].fpr)
  }

  function AllItems(m: Message): (items: seq<Item>) {
    Header(m.recips, m.iv)
  }

  /** The parser's fields once all of the metadata is read. */
  function Known(m: Message, me: dstr): (p: Parser) {
    Effects(START_PARSER, AllItems(m), me)
  }

  /** The key sealed for a fingerprint: the last recipient line with it wins. */
  function SealedFor(recips: seq<Recipient>, me: dstr): (key: Option<dstr>)
    decreases |recips|
  {
    if recips == [] then None
    else
      var later := SealedFor(recips[1..], me);
      if later.Some? || recips[0].fpr != me then later else Some(recips[0].sealed)
  }

  lemma {:induction false} SealedForIsSealed(recips: seq<Recipient>, me: dstr)
    ensures var key := SealedFor(recips, me);
      if key.Some? then
        exists i :: 0 <= i < |recips| && recips[i].fpr == me && recips[i].sealed == key.value
      else forall i :: 0 <= i < |recips| ==> recips[i].fpr != me
    decreases |recips|
  {
    if recips != [] {
      SealedForIsSealed(recips[1..], me);
      var later := SealedFor(recips[1..], me);
      if later.Some? {
        var i :| 0 <= i < |recips[1..]| && recips[1..][i].fpr == me
                 && recips[1..][i].sealed == later.value;
        assert recips[i + 1].fpr == me;
      } else {
        assert forall i :: 1 <= i < |recips| ==> recips[i] == recips[1..][i - 1];
      }
    }
  }

  lemma FirstFingerprint(before: seq<dstr>, recips: seq<Recipient>)
    requires recips != []
    ensures before + Fingerprints(recips) == (before + [recips[0].fpr]) + Fingerprints(recips[1..])
  {
  }

  lemma {:induction false} RecipEffects(p: Parser, recips: seq<Recipient>, me: dstr)
    ensures var key := SealedFor(recips, me);
      Effects(p, RecipItems(recips), me)
      == p.(recips := p.recips + Fingerprints(recips), keyFound := p.keyFound || key.Some?,
            encKey := if key.Some? then key.value else p.encKey)
    decreases |recips|
  {
    var items := RecipItems(recips);
    if recips == [] {
      assert items == [] && p.recips + Fingerprints(recips) == p.recips;
    } else {
      var rest := recips[1..];
      assert items[1..] == RecipItems(rest);
      RecipEffects(Effect(p, items[0], me), rest, me);
      FirstFingerprint(p.recips, recips);
    }
  }

  lemma {:induction false} EffectsConcat(p: Parser, a: seq<Item>, b: seq<Item>, me: dstr)
    ensures Effects(p, a + b, me) == Effects(Effects(p, a, me), b, me)
    decreases |a|
  {
    hide Effect;
    if a == [] {
      assert a + b == b;
    } else {
      assert (a + b)[0] == a[0] && (a + b)[1..] == a[1..] + b;
      EffectsConcat(Effect(p, a[0], me), a[1..], b, me);
    }
  }

  /** The parser learns the recipients in order, the IV, and our key exactly if we have one. */
  lemma WhatIsKnown(m: Message, c: Cipher, me: dstr)
    requires Wellformed(m, c, me)
    ensures var p := Known(m, me);
      && p.recips == Fingerprints(m.recips) && p.ivFound && p.iv == m.iv && p.versionFound
      && (p.keyFound <==> Addressed(m, me))
      && (p.keyFound ==> c.unwrap(me, p.encKey) == Some(m.key))
      && !p.started && p.buffer == []
  {
    hide Wellformed;
    var rs := RecipItems(m.recips);
    EffectsConcat(START_PARSER, [V] + rs, [I(m.iv)], me);
    EffectsConcat(START_PARSER, [V], rs, me);
    var p1 := Effect(START_PARSER, V, me);
    assert Effects(START_PARSER, [V], me) == p1 by { assert [V][1..] == []; }
    RecipEffects(p1, m.recips, me);
    var p2 := Effects(p1, rs, me);
    assert Effects(p2, [I(m.iv)], me) == Effect(p2, I(m.iv), me) by { assert [I(m.iv)][1..] == []; }
    SealedForUs(m, c, me);
  }

  lemma SealedForUs(m: Message, c: Cipher, me: dstr)
    requires Wellformed(m, c, me)
    ensures var key := SealedFor(m.recips, me);
      (key.Some? <==> Addressed(m, me)) && (key.Some? ==> c.unwrap(me, key.value) == Some(m.key))
  {
    SealedForIsSealed(m.recips, me);
  }

  /* ---------- how far a decrypter has come ---------- */

  /** What was decoded, when `b` is still to come: either a part of the metadata, of which `items`
      are left, or all of it and a part of the ciphertext, which went through the cipher. */
  ghost predicate Decoded(s: State, m: Message, me: dstr, items: seq<Item>, b: dstr) {
    if s.parser.started then
      && s.parser == Known(m, me).(started := true, session := m.key)
      && Known(m, me).keyFound && s.fed + b == m.ciphertext && s.fed != []
    else
      && Holds(s.parser, items, m.ciphertext, b)
      && Effects(s.parser, items, me) == Known(m, me).(buffer := s.parser.buffer)
      && s.fed == [] && |s.parser.buffer| <= PRE64_SIZE
      && (b == [] ==> m.ciphertext == [])
  }

  /** Between two lines: the line break of the line before is all that is not decoded. */
  ghost predicate BetweenLines(s: State, m: Message, me: dstr, items: seq<Item>, b: dstr) {
    && s.headerFound && !s.tagFound && s.tag == [] && s.base64 == [NEWLINE]
    && Decoded(s, m, me, items, b)
  }

  /** Behind the header, but before the end of its line. */
  ghost predicate BehindHeader(s: State) {
    s == START_STATE.(headerFound := true)
  }

  /** Behind the tag: all bytes were decoded, so the message has started unless it is empty. */
  ghost predicate Done(s: State, m: Message, me: dstr, tag: dstr) {
    && s.headerFound && s.tagFound && s.tag == tag && s.base64 == []
    && (exists items :: Decoded(s, m, me, items, []))
    && (if m.ciphertext == [] then !s.parser.started else s.parser.started)
  }

  /** The plaintext the cipher has put out so far. */
  function PlainSoFar(s: State, m: Message, c: Cipher): (p: dstr) {
    c.open(m.key, m.iv, s.fed)
  }

  /** The only way to fail on a well-formed message. */
  ghost predicate NotForUs(m: Message, me: dstr) {
    !Addressed(m, me) && m.ciphertext != []
  }

  /** The outcome of reading lines from `x`, a part of the text `left`. */
  ghost predicate Advanced(o: Outcome, s: State, x: dstr, left: dstr, m: Message, c: Cipher,
                           me: dstr, tag: dstr) {
    if o.err != E_NONE then o.err == E_NOT4ME && NotForUs(m, me)
    else
      && o.used <= |x| <= |left|
      && PlainSoFar(o.s, m, c) == PlainSoFar(s, m, c) + o.plain
      && Reached(o.s, left[o.used..], m, me, tag)
      && (o.s.tagFound || NEWLINE !in x[o.used..])
      && (o.s.tagFound && !s.tagFound ==> |left| - |x| <= FooterLength())
  }

  /** What follows the tag's line. */
  function FooterLength(): (n: nat) {
    |PemFooter()| + 1
  }

  ghost predicate Reached(s: State, left: dstr, m: Message, me: dstr, tag: dstr) {
    || (BehindHeader(s) && left == [NEWLINE] + (Text(BinaryText(AllItems(m), m.ciphertext), LINE, 0) + Tail(tag)))
    || (exists items, b :: BetweenLines(s, m, me, items, b) && left == Text(b, LINE, 0) + Tail(tag))
    || Done(s, m, me, tag)
  }

  /** Decoding one line of bytes moves them from what is to come to what was decoded. */
  lemma LineDecoded(s: State, m: Message, c: Cipher, me: dstr, items: seq<Item>, b: dstr)
    returns (items': seq<Item>)
    requires Wellformed(m, c, me) && b != []
    requires BetweenLines(s, m, me, items, b)
    ensures var n := LineLen(b);
      var (s', plain, err, more) := TakeLine(s, Text(b[..n], LINE, 0), c, me);
      if err != E_NONE then err == E_NOT4ME && NotForUs(m, me)
      else
        && more && BetweenLines(s', m, me, items', b[n..])
        && PlainSoFar(s', m, c) == PlainSoFar(s, m, c) + plain
  {
    hide Text, DecodeCall, ParseAll, Decrypt, Known, Holds, Effects, Wellformed;
    var n := LineLen(b);
    var line, later := b[..n], b[n..];
    assert line + later == b;
    DecodeLine(line);
    var p := s.parser.(buffer := s.parser.buffer + line);
    var s1 := s.(parser := p);
    items' := items;
    if s.parser.started {
      assert s.parser.buffer == [] by { WhatIsKnown(m, c, me); }
      assert p.buffer == line;
      DecryptMore(s1, m, c, me, later, s.fed);
    } else {
      LineParsed(s.parser, m, c, me, items, line, later);
      items' := ParseInverts(p, items, m.ciphertext, later, me, c.unwrap);
      var r := ParseAll(p, me, c.unwrap);
      if r.err == E_NONE && r.p.started {
        WhatIsKnown(m, c, me);
        DecryptMore(s1.(parser := r.p), m, c, me, later, []);
      }
    }
  }

  /** The metadata parser's hypotheses, with one more line in its buffer. */
  lemma LineParsed(p: Parser, m: Message, c: Cipher, me: dstr, items: seq<Item>, line: dstr, later: dstr)
    requires Wellformed(m, c, me)
    requires Holds(p, items, m.ciphertext, line + later)
    requires Effects(p, items, me) == Known(m, me).(buffer := p.buffer)
    ensures var p1 := p.(buffer := p.buffer + line);
      && Holds(p1, items, m.ciphertext, later)
      && Effects(p1, items, me) == Known(m, me).(buffer := p1.buffer)
      && CanStart(p1, items, me, c.unwrap)
      && (Effects(p1, items, me).keyFound <==> Addressed(m, me))
  {
    hide Known, Effects, Wellformed, BinaryText;
    EffectsKeepBuffer(p, items, me, p.buffer + line);
    WhatIsKnown(m, c, me);
    Assoc(p.buffer, line, later);
  }

  /** Bytes of the ciphertext go through the cipher. */
  lemma DecryptMore(s: State, m: Message, c: Cipher, me: dstr, later: dstr, fed: dstr)
    requires Wellformed(m, c, me)
    requires s.parser == Known(m, me).(started := true, session := m.key, buffer := s.parser.buffer)
    requires Known(m, me).keyFound && s.parser.buffer != []
    requires s.fed == fed && fed + s.parser.buffer + later == m.ciphertext
    ensures var (s', plain) := Decrypt(s, c);
      && s' == s.(parser := Known(m, me).(started := true, session := m.key), fed := s'.fed)
      && s'.fed == fed + s.parser.buffer && s'.fed + later == m.ciphertext && s'.fed != []
      && PlainSoFar(s', m, c) == PlainSoFar(s, m, c) + plain
  {
    hide Known, Wellformed;
    WhatIsKnown(m, c, me);
    OpenGrows(m, c, me, fed, s.parser.buffer);
    var before, after := c.open(m.key, m.iv, fed), c.open(m.key, m.iv, fed + s.parser.buffer);
    assert after == before + after[|before|..];
  }

  lemma OpenGrows(m: Message, c: Cipher, me: dstr, fed: dstr, more: dstr)
    requires Wellformed(m, c, me)
    ensures c.open(m.key, m.iv, fed) <= c.open(m.key, m.iv, fed + more)
    ensures c.open(m.key, m.iv, []) == []
  {
  }

  /** The end of the header's line leaves a line break in front of the first line of bytes. */
  lemma HeaderLineEnds(m: Message, c: Cipher, me: dstr, s: State)
    requires Wellformed(m, c, me) && BehindHeader(s)
    ensures var (s', plain, err, more) := TakeLine(s, [NEWLINE], c, me);
      && err == E_NONE && more && plain == []
      && BetweenLines(s', m, me, AllItems(m), BinaryText(AllItems(m), m.ciphertext))
      && s'.fed == s.fed == []
  {
    hide DecodeCall, BinaryText, ItemText, Effects;
    DecodeBareBreak();
    assert s.base64 + [NEWLINE] == [NEWLINE];
    var items := AllItems(m);
    var binary := BinaryText(items, m.ciphertext);
    assert START_PARSER.buffer + binary == binary;
    EffectsKeepBuffer(START_PARSER, items, me, []);
    HeaderIsReadable(m, c, me);
    BinaryIsNotEmpty(items, m.ciphertext);
  }

  lemma HeaderIsReadable(m: Message, c: Cipher, me: dstr)
    requires Wellformed(m, c, me)
    ensures forall i :: 0 <= i < |AllItems(m)| ==> Readable(AllItems(m)[i])
    ensures AllItems(m)[0] == V
  {
    hide Decimal.Printed;
    SmallNumbers();
  }

  lemma SmallNumbers()
    ensures |Decimal.Printed(1)| <= 4 && |Decimal.Printed(CIPHER_IV_LEN)| <= 4
  {
    Decimal.PrintedDenotes(1);
    Decimal.PrintedDenotes(CIPHER_IV_LEN);
  }

  lemma BinaryIsNotEmpty(items: seq<Item>, ciphertext: dstr)
    ensures BinaryText(items, ciphertext) != []
  {
    hide ItemText;
    if items != [] {
      ItemParts(items[0]);
    }
  }

  /** The tag's line ends the message. */
  lemma TagLineTaken(m: Message, c: Cipher, me: dstr, s: State, items: seq<Item>, tag: dstr, len: nat)
    requires Wellformed(m, c, me) && |tag| <= CIPHER_TAG_LEN
    requires BetweenLines(s, m, me, items, [])
    ensures var o := TakeTag(s, [EQUALS] + Text(tag, 0, 0) + [NEWLINE], len);
      && o.err == E_NONE && o.used == len && o.plain == []
      && Done(o.s, m, me, tag) && o.s.fed == s.fed
  {
    hide Text, DecodeCall, Known, Holds, Effects, TakeTag, Decoded;
    TagTaken(s, tag, len);
    var s1 := s.(tagFound := true, base64 := [], tag := tag);
    assert Decoded(s1, m, me, items, []) by { DecodedIgnores(s, s1, m, me, items); }
    assert Decoded(s1, m, me, items, []) && s.fed + [] == s.fed;
    DecodedAll(s, m, me, items);
  }

  lemma DecodedIgnores(s: State, s1: State, m: Message, me: dstr, items: seq<Item>)
    requires Decoded(s, m, me, items, []) && s1.parser == s.parser && s1.fed == s.fed
    ensures Decoded(s1, m, me, items, [])
  {
    hide Known, Holds, Effects;
  }

  /** With nothing more to come, the message has started unless it is empty. */
  lemma DecodedAll(s: State, m: Message, me: dstr, items: seq<Item>)
    requires Decoded(s, m, me, items, [])
    ensures s.parser.started <==> m.ciphertext != []
  {
    hide Known, Holds, Effects;
  }

  lemma TagTaken(s: State, tag: dstr, len: nat)
    requires s.tag == [] && |tag| <= CIPHER_TAG_LEN
    ensures TakeTag(s, [EQUALS] + Text(tag, 0, 0) + [NEWLINE], len)
         == Outcome(s.(tagFound := true, base64 := [], tag := tag), len, [], E_NONE)
  {
    hide Text, TakeTag, DecodeCall, Sub;
    var t := Text(tag, 0, 0) + [NEWLINE];
    var line := [EQUALS] + Text(tag, 0, 0) + [NEWLINE];
    assert line == [EQUALS] + t;
    BehindEquals(t);
    DecodeTag(tag);
    ShortTagTaken(s, line, len, tag);
  }

  lemma BehindEquals(t: dstr)
    ensures Sub([EQUALS] + t, 1, 0) == t
  {
  }

  lemma ShortTagTaken(s: State, line: dstr, len: nat, tag: dstr)
    requires s.tag == [] && line != [] && |tag| <= CIPHER_TAG_LEN && DecodeCall(Sub(line, 1, 0)).out == tag
    ensures TakeTag(s, line, len) == Outcome(s.(tagFound := true, base64 := [], tag := tag), len, [], E_NONE)
  {
    hide DecodeCall, Sub, FullGroups;
    assert s.tag + tag == tag;
  }

  /** However much of a message's text has arrived, reading it advances through it. */
  lemma {:induction false} LinesAdvance(s: State, x: dstr, left: dstr, m: Message, c: Cipher,
                                        me: dstr, tag: dstr)
    requires Wellformed(m, c, me) && |tag| <= CIPHER_TAG_LEN
    requires Reached(s, left, m, me, tag) && x <= left
    requires |s.base64| <= BUFFER_SIZE
    ensures Advanced(TakeLines(s, x, c, me), s, x, left, m, c, me, tag)
    decreases |x|
  {
    hide TakeLines, TakeLine, TakeTag, Text, BinaryText, Decoded, Wellformed, Tail;
    LinesTurn(s, x, c, me);
    assert left[0..] == left;
    if x == [] || s.tagFound {
      var o := TakeLines(s, x, c, me);
      assert PlainSoFar(s, m, c) + [] == PlainSoFar(s, m, c);
      assert x[|x|..] == [];
    } else if BehindHeader(s) {
      var b := BinaryText(AllItems(m), m.ciphertext);
      var rest := Text(b, LINE, 0) + Tail(tag);
      HeaderLineEnds(m, c, me, s);
      assert left == ([] + [NEWLINE]) + rest;
      LineEnd(x, [], rest);
      assert [] + [NEWLINE] == [NEWLINE];
      LineAdvances(s, x, left, [], rest, m, c, me, tag);
    } else {
      var items, b :| BetweenLines(s, m, me, items, b) && left == Text(b, LINE, 0) + Tail(tag);
      if b == [] {
        TagAdvances(s, x, left, m, c, me, tag, items);
      } else {
        var body := FirstLine(b);
        var n := LineLen(b);
        var rest := Text(b[n..], LINE, 0) + Tail(tag);
        Assoc(body + [NEWLINE], Text(b[n..], LINE, 0), Tail(tag));
        LineEnd(x, body, rest);
        var items' := LineDecoded(s, m, c, me, items, b);
        LineAdvances(s, x, left, body, rest, m, c, me, tag);
      }
    }
  }

  /** One line of a part `x` of the text, if all of it has arrived, and then the rest. */
  lemma {:induction false} LineAdvances(s: State, x: dstr, left: dstr, body: dstr, rest: dstr,
                                        m: Message, c: Cipher, me: dstr, tag: dstr)
    requires Wellformed(m, c, me) && |tag| <= CIPHER_TAG_LEN
    requires x != [] && x <= left == (body + [NEWLINE]) + rest
    requires NEWLINE !in body && |body| <= B64_WIDTH && (body == [] || body[0] != EQUALS)
    requires |s.base64| <= 1 && !s.tagFound
    requires var (s', plain, err, more) := TakeLine(s, body + [NEWLINE], c, me);
      if err != E_NONE then err == E_NOT4ME && NotForUs(m, me)
      else
        && more && Reached(s', rest, m, me, tag) && |s'.base64| <= BUFFER_SIZE && !s'.tagFound
        && PlainSoFar(s', m, c) == PlainSoFar(s, m, c) + plain
    ensures Advanced(TakeLines(s, x, c, me), s, x, left, m, c, me, tag) || |x| <= |body|
    ensures |x| <= |body| ==> TakeLines(s, x, c, me) == Outcome(s, 0, [], E_NONE) && NEWLINE !in x
    decreases |x|, 0
  {
    hide TakeLines, TakeLine, TakeTag, Text, BinaryText, Reached, Wellformed, Tail;
    LinesTurn(s, x, c, me);
    LineEnd(x, body, rest);
    if |x| > |body| {
      var line := body + [NEWLINE];
      var (s', plain, err, more) := TakeLine(s, line, c, me);
      assert x[0] == line[0];
      if err == E_NONE {
        var x' := x[|line|..];
        LinesAdvance(s', x', rest, m, c, me, tag);
        var o' := TakeLines(s', x', c, me);
        Assoc(PlainSoFar(s, m, c), plain, o'.plain);
        DropConcat(line, rest, Min(o'.used, |rest|));
        DropConcat(line, x', Min(o'.used, |x'|));
      }
    }
  }

  lemma NothingMore(plain: dstr, x: dstr, left: dstr)
    ensures plain + [] == plain && x[|x|..] == [] && x[0..] == x && left[0..] == left
  {
  }

  /** The tag's line, if all of it has arrived. */
  lemma TagAdvances(s: State, x: dstr, left: dstr, m: Message, c: Cipher, me: dstr, tag: dstr,
                    items: seq<Item>)
    requires Wellformed(m, c, me) && |tag| <= CIPHER_TAG_LEN
    requires BetweenLines(s, m, me, items, []) && left == Text([], LINE, 0) + Tail(tag)
    requires x != [] && x <= left && Reached(s, left, m, me, tag)
    ensures Advanced(TakeLines(s, x, c, me), s, x, left, m, c, me, tag)
  {
    hide TakeLines, TakeLine, TakeTag, Text, Decoded, Wellformed, PemFooter;
    LinesTurn(s, x, c, me);
    TextOfNothing(LINE, 0);
    var body := [EQUALS] + Text(tag, 0, 0);
    var rest := PemFooter() + [NEWLINE];
    TextWithoutBreaks(tag);
    assert left == (body + [NEWLINE]) + rest;
    LineEnd(x, body, rest);
    NothingMore(PlainSoFar(s, m, c), x, left);
    if |x| > |body| {
      TagLineTaken(m, c, me, s, items, tag, |x|);
    }
  }

  /* ---------- whole runs ---------- */

  datatype Received = Received(s: State, plain: dstr, rest: dstr, err: Error)

  /** Feeding a decrypter piece by piece: what a call does not consume is kept in front of the
      next piece, and the first failure ends it. */
  function Receive(s: State, pending: dstr, pieces: seq<dstr>, c: Cipher, me: dstr): (r: Received)
    requires |s.base64| <= BUFFER_SIZE
    decreases |pieces|
  {
    if pieces == [] then Received(s, [], pending, E_NONE)
    else
      var text := pending + pieces[0];
      var o := UpdateOf(s, text, c, me);
      if o.err != E_NONE then Received(o.s, o.plain, text, o.err)
      else
        var r := Receive(o.s, text[o.used..], pieces[1..], c, me);
        Received(r.s, o.plain + r.plain, r.rest, r.err)
  }

  /** Where a decrypter may be between two calls, with `pending` carried over. */
  ghost predicate Underway(s: State, pending: dstr, left: dstr, m: Message, me: dstr, tag: dstr) {
    || (s == START_STATE && |pending| < |PemHeader()|
        && left == Envelope(m.recips, m.iv, m.ciphertext, tag))
    || (s.headerFound && Reached(s, left, m, me, tag) && (s.tagFound || NEWLINE !in pending))
  }

  /** One call of decrypter_update on whatever has arrived. */
  lemma UpdateAdvances(s: State, pending: dstr, x: dstr, left: dstr, m: Message, c: Cipher, me: dstr, tag: dstr)
    requires Wellformed(m, c, me) && |tag| <= CIPHER_TAG_LEN
    requires Underway(s, pending, left, m, me, tag)
    requires x <= left && |s.base64| <= BUFFER_SIZE
    ensures var o := UpdateOf(s, x, c, me);
      if o.err != E_NONE then o.err == E_NOT4ME && NotForUs(m, me)
      else
        && o.used <= |x|
        && PlainSoFar(o.s, m, c) == PlainSoFar(s, m, c) + o.plain
        && Underway(o.s, x[o.used..], left[o.used..], m, me, tag)
        && (o.s.tagFound && !s.tagFound ==> |left| - |x| <= FooterLength())
  {
    hide TakeLines, PemHeader, Text, BinaryText, Decoded, Wellformed, Tail;
    var header := PemHeader();
    assert PlainSoFar(s, m, c) + [] == PlainSoFar(s, m, c);
    assert x[0..] == x && left[0..] == left;
    if s.headerFound {
      assert s.(headerFound := true) == s;
      var none: dstr := [];
      assert x[..0] == none;
      LinesAdvance(s, x, left, m, c, me, tag);
      AdvancedKeepsHeader(TakeLines(s, x, c, me), s, x, left, m, c, me, tag);
    } else if |x| >= |header| {
      var text := Text(BinaryText(AllItems(m), m.ciphertext), LINE, 0);
      EnvelopeParts(header, text, Tail(tag));
      assert x[..|header|] == left[..|header|] == header;
      var s1 := s.(headerFound := true);
      var x1, left1 := x[|header|..], left[|header|..];
      assert x1 <= left1;
      LinesAdvance(s1, x1, left1, m, c, me, tag);
      var o := TakeLines(s1, x1, c, me);
      AdvancedKeepsHeader(o, s1, x1, left1, m, c, me, tag);
      if o.err == E_NONE {
        assert left1[o.used..] == left[|header| + o.used..];
        assert x1[o.used..] == x[|header| + o.used..];
      }
    }
  }

  lemma EnvelopeParts(header: dstr, text: dstr, tail: dstr)
    ensures var whole := header + [NEWLINE] + text + tail;
      whole[..|header|] == header && whole[|header|..] == [NEWLINE] + (text + tail)
  {
  }

  lemma AdvancedKeepsHeader(o: Outcome, s: State, x: dstr, left: dstr, m: Message, c: Cipher,
                            me: dstr, tag: dstr)
    requires Advanced(o, s, x, left, m, c, me, tag)
    ensures o.err == E_NONE ==> o.s.headerFound
  {
    hide Decoded, Text, BinaryText, Tail;
  }

  /** A decrypter that has got `all` of the text `left`, and keeps the last `rest` of it for later. */
  ghost predicate StandsIn(s: State, rest: dstr, all: dstr, left: dstr, m: Message, me: dstr, tag: dstr) {
    && |rest| <= |all| <= |left|
    && rest <= left[|all| - |rest|..]
    && Underway(s, rest, left[|all| - |rest|..], m, me, tag)
  }

  /** However much of a message's text arrives, and however it is cut into pieces, the decrypter is
      under way in it, or fails because the message is not for us; it has found the tag exactly if
      all of the tag's line has arrived. */
  lemma {:induction false} ReceiveAdvances(s: State, pending: dstr, pieces: seq<dstr>, left: dstr,
                                           m: Message, c: Cipher, me: dstr, tag: dstr)
    requires Wellformed(m, c, me) && |tag| <= CIPHER_TAG_LEN
    requires Underway(s, pending, left, m, me, tag)
    requires pending + Flatten(pieces) <= left && |s.base64| <= BUFFER_SIZE
    requires s.tagFound ==> |left| - |pending| <= FooterLength()
    ensures var r, all := Receive(s, pending, pieces, c, me), pending + Flatten(pieces);
      if r.err != E_NONE then r.err == E_NOT4ME && NotForUs(m, me)
      else
        && StandsIn(r.s, r.rest, all, left, m, me, tag)
        && PlainSoFar(r.s, m, c) == PlainSoFar(s, m, c) + r.plain
        && (r.s.tagFound <==> |left| - |all| <= FooterLength())
    decreases |pieces|
  {
    hide UpdateOf, Underway, StandsIn, Wellformed, FooterLength, PlainSoFar, NotForUs;
    if pieces == [] {
      StandsAtStart(s, pending, left, m, me, tag);
      NothingMore(PlainSoFar(s, m, c), pending, left);
      assert pending + [] == pending;
      if !s.tagFound {
        TagLineMissing(s, pending, left, m, me, tag);
      }
    } else {
      var x, later := pending + pieces[0], Flatten(pieces[1..]);
      Assoc(pending, pieces[0], later);
      assert x <= left;
      UpdateAdvances(s, pending, x, left, m, c, me, tag);
      var o := UpdateOf(s, x, c, me);
      if o.err == E_NONE {
        assert x[o.used..] + later == (x + later)[o.used..] <= left[o.used..];
        ReceiveAdvances(o.s, x[o.used..], pieces[1..], left[o.used..], m, c, me, tag);
        var r := Receive(o.s, x[o.used..], pieces[1..], c, me);
        Assoc(PlainSoFar(s, m, c), o.plain, r.plain);
        if r.err == E_NONE {
          StandsLater(r.s, r.rest, x, later, left, o.used, m, me, tag);
        }
      }
    }
  }

  lemma StandsAtStart(s: State, pending: dstr, left: dstr, m: Message, me: dstr, tag: dstr)
    requires Underway(s, pending, left, m, me, tag) && pending <= left
    ensures StandsIn(s, pending, pending, left, m, me, tag)
  {
    hide Underway;
    assert left[0..] == left;
  }

  lemma StandsLater(s: State, rest: dstr, x: dstr, later: dstr, left: dstr, used: nat, m: Message, me: dstr, tag: dstr)
    requires used <= |x| <= |left| && StandsIn(s, rest, x[used..] + later, left[used..], m, me, tag)
    ensures StandsIn(s, rest, x + later, left, m, me, tag)
  {
    hide Underway;
    var k := |x[used..] + later| - |rest|;
    assert left[used..][k..] == left[used + k..];
  }

  /** Where the tag has not been found, the end of its line has not arrived: every line before it
      ends. */
  lemma TagLineMissing(s: State, pending: dstr, left: dstr, m: Message, me: dstr, tag: dstr)
    requires Underway(s, pending, left, m, me, tag) && !s.tagFound && pending <= left
    ensures |left| - |pending| > FooterLength()
  {
    hide Text, BinaryText, Decoded, PemHeader, PemFooter, Tail, Envelope;
    EnvelopeLength(m, tag);
    var first := Text(BinaryText(AllItems(m), m.ciphertext), LINE, 0);
    Assoc([NEWLINE], first, Tail(tag));
    if pending <= ([NEWLINE] + first) + Tail(tag) && NEWLINE !in pending {
      LastBreak([NEWLINE] + first, tag, pending);
    }
    forall b | pending <= Text(b, LINE, 0) + Tail(tag) && NEWLINE !in pending
      ensures |pending| + FooterLength() < |Text(b, LINE, 0) + Tail(tag)|
    {
      LastBreak(Text(b, LINE, 0), tag, pending);
    }
  }

  lemma LastBreak(t: dstr, tag: dstr, x: dstr)
    requires x <= t + Tail(tag) && NEWLINE !in x
    ensures |x| + FooterLength() < |t + Tail(tag)|
  {
    hide Text, PemFooter;
    var whole := t + Tail(tag);
    var k := |t| + |Text(tag, 0, 0)| + 1;
    assert whole[k] == NEWLINE;
    assert forall i :: 0 <= i < |x| ==> whole[i] == x[i] && x[i] in x;
  }

  lemma EnvelopeLength(m: Message, tag: dstr)
    ensures |Envelope(m.recips, m.iv, m.ciphertext, tag)| >= |PemHeader()| + FooterLength()
  {
    hide Text, BinaryText, PemHeader, PemFooter;
  }

  /** The tag's line has arrived. */
  predicate TagArrived(x: dstr, m: Message, tag: dstr) {
    |Envelope(m.recips, m.iv, m.ciphertext, tag)| - |x| <= FooterLength()
  }

  /** What may come of any part of a message with any tag, for every cut of that part into pieces: it
      is finished successfully if and only if the message is for us and not empty, the tag's line has
      arrived, and the tag verifies the ciphertext; and then it yields the whole plaintext. */
  lemma FinishesExactlyIfVerified(m: Message, c: Cipher, me: dstr, tag: dstr, pieces: seq<dstr>)
    requires Wellformed(m, c, me) && |tag| <= CIPHER_TAG_LEN
    requires Flatten(pieces) <= Envelope(m.recips, m.iv, m.ciphertext, tag)
    ensures var r := Receive(START_STATE, [], pieces, c, me);
      var (last, err) := FinishOf(r.s, c);
      if r.err != E_NONE then r.err == E_NOT4ME && NotForUs(m, me)
      else
        && (err == E_NONE <==>
              && m.ciphertext != [] && Addressed(m, me) && TagArrived(Flatten(pieces), m, tag)
              && c.Verifies(m.key, m.iv, m.ciphertext, tag))
        && (err == E_NONE ==>
              r.plain + last == c.open(m.key, m.iv, m.ciphertext) + c.openFinal(m.key, m.iv, m.ciphertext))
        && (TagArrived(Flatten(pieces), m, tag) ==> Done(r.s, m, me, tag) && r.plain == PlainSoFar(r.s, m, c))
  {
    hide Receive, Envelope, Known, Holds, Effects, Wellformed, PemHeader, PemFooter, Text, Tail, BinaryText;
    var whole, none: dstr := Envelope(m.recips, m.iv, m.ciphertext, tag), [];
    assert none + Flatten(pieces) == Flatten(pieces);
    HeaderIsNotEmpty();
    ReceiveAdvances(START_STATE, none, pieces, whole, m, c, me, tag);
    var r := Receive(START_STATE, none, pieces, c, me);
    OpenGrows(m, c, me, [], []);
    assert none + r.plain == r.plain;
    if r.err == E_NONE {
      WhatIsKnown(m, c, me);
      assert r.s.fed + none == r.s.fed;
    }
  }

  /** The envelope round trip, for a message with any tag.  For every cut of the text into pieces: a
      message for us yields exactly its plaintext, its tag and its recipients in order, and is
      accepted if its tag verifies and refused with E_SSL if not; a message for others ends in
      E_NOT4ME; and an empty message, whose header ends in a bare "M:", never starts. */
  lemma ReceivedAsSent(m: Message, c: Cipher, me: dstr, tag: dstr, pieces: seq<dstr>)
    requires Wellformed(m, c, me) && |tag| <= CIPHER_TAG_LEN
    requires Flatten(pieces) == Envelope(m.recips, m.iv, m.ciphertext, tag)
    ensures var r := Receive(START_STATE, [], pieces, c, me);
      var (last, err) := FinishOf(r.s, c);
      if m.ciphertext == [] then r.err == E_NONE && err == E_PARAM && r.plain == []
      else if !Addressed(m, me) then r.err == E_NOT4ME
      else
        && r.err == E_NONE && r.plain == c.open(m.key, m.iv, m.ciphertext)
        && (if c.Verifies(m.key, m.iv, m.ciphertext, tag)
            then err == E_NONE && last == c.openFinal(m.key, m.iv, m.ciphertext)
            else err == E_SSL && last == [])
        && r.s.tag == tag
        && r.s.parser.recips == Fingerprints(m.recips)
  {
    hide Receive, Envelope, Known, Holds, Effects, Wellformed, PemHeader;
    FinishesExactlyIfVerified(m, c, me, tag, pieces);
    var r := Receive(START_STATE, [], pieces, c, me);
    WhatIsKnown(m, c, me);
    OpenGrows(m, c, me, [], []);
    if r.err == E_NONE {
      var none: dstr := [];
      assert r.s.fed + none == r.s.fed;
    }
  }

  /** A tag of full length is accepted if and only if it is the ciphertext's own. */
  lemma FullTagDecides(m: Message, c: Cipher, me: dstr, tag: dstr, pieces: seq<dstr>)
    requires Wellformed(m, c, me) && c.Streams() && |tag| == CIPHER_TAG_LEN
    requires m.ciphertext != [] && Addressed(m, me)
    requires Flatten(pieces) == Envelope(m.recips, m.iv, m.ciphertext, tag)
    ensures var r := Receive(START_STATE, [], pieces, c, me);
      var err := FinishOf(r.s, c).1;
      r.err == E_NONE && err == if tag == c.mac(m.key, m.iv, m.ciphertext) then E_NONE else E_SSL
  {
    hide Receive, Envelope, FinishOf, Wellformed;
    ReceivedAsSent(m, c, me, tag, pieces);
    var mac := c.mac(m.key, m.iv, m.ciphertext);
    assert tag <= mac <==> tag == mac;
  }

  lemma HeaderIsNotEmpty()
    ensures PemHeader() != []
  {
  }

  /** In terms of the plaintext: decryption succeeds, and gives it back, exactly if it is not empty
      and one of the recipients is us. */
  lemma EncryptedForUs(plain: dstr, m: Message, c: Cipher, me: dstr, pieces: seq<dstr>)
    requires Wellformed(m, c, me) && c.Streams()
    requires m.ciphertext == c.Ciphertext(m.key, m.iv, plain)
    requires Flatten(pieces)
          == Envelope(m.recips, m.iv, m.ciphertext, c.mac(m.key, m.iv, m.ciphertext))
    ensures var r := Receive(START_STATE, [], pieces, c, me);
      var (last, err) := FinishOf(r.s, c);
      && (r.err == E_NONE && err == E_NONE <==> plain != [] && Addressed(m, me))
      && (r.err == E_NONE && err == E_NONE ==> r.plain + last == plain)
  {
    hide Receive, Envelope, FinishOf;
    ReceivedAsSent(m, c, me, c.mac(m.key, m.iv, m.ciphertext), pieces);
    assert |m.ciphertext| == |plain|;
  }

  /* ---------- any text at all ---------- */

  /** A message under way was opened with a key that was sealed for us, and what came out is what the
      cipher makes of what was put in; before that, nothing went in or came out. */
  ghost predicate Genuine(s: State, c: Cipher, me: dstr, plain: dstr) {
    var p := s.parser;
    if p.started then c.unwrap(me, p.encKey) == Some(p.session) && plain == c.open(p.session, p.iv, s.fed)
    else s.fed == [] && plain == []
  }

  /** Parsing starts a message only with a key that the library unsealed for us. */
  lemma {:induction false} ParseUnwraps(p: Parser, c: Cipher, me: dstr)
    requires !p.started
    ensures var r := ParseAll(p, me, c.unwrap);
      r.err == E_NONE && r.p.started ==> c.unwrap(me, r.p.encKey) == Some(r.p.session)
    decreases |p.buffer|
  {
    hide ParseLine;
    if |p.buffer| >= LONGEST_TAG_LEN {
      var turn := ParseLine(p, me, c.unwrap);
      LineUnwraps(p, c, me);
      if turn.Next? && !turn.p.started {
        ParseUnwraps(turn.p, c, me);
      }
    }
  }

  lemma LineUnwraps(p: Parser, c: Cipher, me: dstr)
    requires !p.started && |p.buffer| >= LONGEST_TAG_LEN
    ensures var turn := ParseLine(p, me, c.unwrap);
      turn.Next? && turn.p.started ==> c.unwrap(me, turn.p.encKey) == Some(turn.p.session)
  {
    hide Find, ReadBlock, IndexOf, Sub;
  }

  lemma DecryptGenuine(s: State, c: Cipher, me: dstr, plain: dstr)
    requires c.Opens() && s.parser.started && Genuine(s, c, me, plain)
    ensures var (s', out) := Decrypt(s, c); Genuine(s', c, me, plain + out) && s'.parser.started
  {
    var p := s.parser;
    var fed := s.fed + p.buffer;
    var before, after := c.open(p.session, p.iv, s.fed), c.open(p.session, p.iv, fed);
    assert before <= after;
    assert after == before + after[|before|..];
  }

  lemma TakeLineGenuine(s: State, line: dstr, c: Cipher, me: dstr, plain: dstr)
    requires c.Opens() && Genuine(s, c, me, plain)
    ensures var (s', out, err, more) := TakeLine(s, line, c, me);
      err == E_NONE ==> Genuine(s', c, me, plain + out)
  {
    hide TakeBase64, ParseAll, Decrypt, Cipher.Opens;
    var (s1, err) := TakeBase64(s, line);
    assert plain + [] == plain;
    if err == E_NONE {
      BufferOnly(s, line);
      if !s1.parser.started {
        ParseUnwraps(s1.parser, c, me);
      }
      var parsed := if s1.parser.started then Parsed(s1.parser, E_NONE) else ParseAll(s1.parser, me, c.unwrap);
      var s2 := s1.(parser := parsed.p);
      if parsed.err == E_NONE && parsed.p.started {
        assert Genuine(s2, c, me, plain) by { OpensNothing(c, parsed.p); }
        DecryptGenuine(s2, c, me, plain);
      }
    }
  }

  lemma OpensNothing(c: Cipher, p: Parser)
    requires c.Opens()
    ensures c.open(p.session, p.iv, []) == []
  {
  }

  /** Decoding fills the buffer and changes nothing else. */
  lemma BufferOnly(s: State, line: dstr)
    ensures var (s1, err) := TakeBase64(s, line);
      err == E_NONE ==> s1.fed == s.fed && s1.parser == s.parser.(buffer := s1.parser.buffer)
  {
    hide DecodeCall;
  }

  lemma {:induction false} TakeLinesGenuine(s: State, x: dstr, c: Cipher, me: dstr, plain: dstr)
    requires c.Opens() && Genuine(s, c, me, plain) && |s.base64| <= BUFFER_SIZE
    ensures var o := TakeLines(s, x, c, me); o.err == E_NONE ==> Genuine(o.s, c, me, plain + o.plain)
    decreases |x|
  {
    hide TakeLines, TakeLine, TakeTag, IndexOf, Cipher.Opens;
    LinesTurn(s, x, c, me);
    assert plain + [] == plain;
    if x != [] && !s.tagFound && |s.base64| < BUFFER_SIZE && IndexOf(x, NEWLINE).Some? {
      var n := Min(BUFFER_SIZE - |s.base64|, IndexOf(x, NEWLINE).value + 1);
      if x[0] == EQUALS {
        TagOnly(s, x[..n], |x|);
      } else {
        TakeLineGenuine(s, x[..n], c, me, plain);
        TakeLineBound(s, x[..n], c, me);
        var (s1, out, err, more) := TakeLine(s, x[..n], c, me);
        if err == E_NONE && more {
          TakeLinesGenuine(s1, x[n..], c, me, plain + out);
          Assoc(plain, out, TakeLines(s1, x[n..], c, me).plain);
        }
      }
    }
  }

  lemma TagOnly(s: State, line: dstr, len: nat)
    requires line != []
    ensures var o := TakeTag(s, line, len);
      o.plain == [] && (o.err == E_NONE ==> o.s.parser == s.parser && o.s.fed == s.fed)
  {
    hide DecodeCall, FullGroups;
  }

  lemma {:induction false} ReceiveGenuine(s: State, pending: dstr, pieces: seq<dstr>, c: Cipher, me: dstr, plain: dstr)
    requires c.Opens() && Genuine(s, c, me, plain) && |s.base64| <= BUFFER_SIZE
    ensures var r := Receive(s, pending, pieces, c, me); r.err == E_NONE ==> Genuine(r.s, c, me, plain + r.plain)
    decreases |pieces|
  {
    hide TakeLines, Cipher.Opens, PemHeader;
    assert plain + [] == plain;
    if pieces != [] {
      var x := pending + pieces[0];
      var o := UpdateOf(s, x, c, me);
      var len := if s.headerFound then 0 else |PemHeader()|;
      if |x| >= len {
        TakeLinesGenuine(s.(headerFound := true), x[len..], c, me, plain);
      }
      if o.err == E_NONE {
        ReceiveGenuine(o.s, x[o.used..], pieces[1..], c, me, plain + o.plain);
        Assoc(plain, o.plain, Receive(o.s, x[o.used..], pieces[1..], c, me).plain);
      }
    }
  }

  /** Whatever text arrives in whatever pieces: if all calls succeed and the last does too, then a tag
      was received that verifies exactly the bytes that were put into the cipher, under a key sealed
      for us, and what was given out is what the cipher makes of those bytes. */
  lemma NothingUnverifiedSucceeds(pieces: seq<dstr>, c: Cipher, me: dstr)
    requires c.Opens()
    ensures var r := Receive(START_STATE, [], pieces, c, me);
      var (last, err) := FinishOf(r.s, c);
      var p := r.s.parser;
      r.err == E_NONE && err == E_NONE ==>
        && c.unwrap(me, p.encKey) == Some(p.session)
        && r.s.tag != [] && r.s.tag <= c.mac(p.session, p.iv, r.s.fed)
        && r.plain + last == c.open(p.session, p.iv, r.s.fed) + c.openFinal(p.session, p.iv, r.s.fed)
  {
    hide Receive, Cipher.Opens;
    ReceiveGenuine(START_STATE, [], pieces, c, me, []);
    var none: dstr, plain := [], Receive(START_STATE, [], pieces, c, me).plain;
    assert none + plain == plain;
  }
}
