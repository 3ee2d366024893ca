/** What the decrypter makes of any text at all: what it accepts is an envelope, and what it refuses
    stays refused. */
module EnvelopeAccepts {
  import opened Bytes
  import opened Recode
  import opened Base64
  import opened EnvelopeFormat
  import opened MetadataParser
  import opened Decrypter
  import opened EnvelopeRoundTrip

  /* ---------- the grammar ---------- */

  /** A length, a colon, that many bytes, and what must follow them.  (No bytes are taken for all that
      had arrived, because the substring function takes a zero end for "to the end".) */
  ghost predicate SpellsBlock(text: dstr, block: dstr, sep: byte) {
    exists n: dstr :: SpellsLength(text, n, block, sep)
  }

  ghost predicate SpellsLength(text: dstr, n: dstr, block: dstr, sep: byte) {
    && COLON !in n
    && (if Decimal.ToUint(n) == Some(0) then text == n + [COLON] + [sep] && [sep] <= block
        else text == n + [COLON] + block + [sep] && Decimal.ToUint(n) == Some(|block|))
  }

  ghost predicate SpellsVersion(text: dstr, n: dstr) {
    NEWLINE !in n && Decimal.ToUint(n) == Some(1) && text == TAG_V + n + [NEWLINE]
  }

  ghost predicate SpellsRecipient(text: dstr, a: dstr, b: dstr, fpr: dstr, sealed: dstr) {
    text == TAG_R + a + b && SpellsBlock(a, fpr, COLON) && SpellsBlock(b, sealed, NEWLINE)
  }

  /** A line of metadata as the decrypter reads it: the numbers may be signed or have leading zeros. */
  ghost predicate Spells(text: dstr, item: Item) {
    match item
    case V => exists n: dstr :: SpellsVersion(text, n)
    case R(fpr, sealed) => exists a: dstr, b: dstr :: SpellsRecipient(text, a, b, fpr, sealed)
    case I(iv) => |iv| == CIPHER_IV_LEN && exists a: dstr :: text == TAG_IV + a && SpellsBlock(a, iv, NEWLINE)
  }

  lemma BlockIsSpelled(t: dstr, sep: byte)
    requires ReadBlock(t, sep).Got?
    ensures var b := ReadBlock(t, sep);
      |b.rest| <= |t| && t == t[..|t| - |b.rest|] + b.rest && SpellsBlock(t[..|t| - |b.rest|], b.block, sep)
  {
    hide IndexOf, Decimal.ToUint;
    var b, pos := ReadBlock(t, sep), IndexOf(t, COLON).value;
    IndexOfIsFirst(t, COLON);
    var n := Sub(t, 0, pos);
    NoEmptyNumber(t, pos);
    assert n == t[..pos];
    var left, len := Sub(t, pos + 1, 0), Decimal.ToUint(n).value;
    assert left == t[pos + 1..];
    var text := t[..|t| - |b.rest|];
    assert b.rest == left[len + 1..] && text == n + [COLON] + left[..len + 1];
    if len == 0 {
      assert left[..1] == [sep] && b.block == left && left == [sep] + left[1..];
    } else {
      assert b.block == left[..len] && left[..len + 1] == left[..len] + [sep];
    }
    assert SpellsLength(text, n, b.block, sep);
  }

  /** A text that starts with the colon has no length. */
  lemma NoEmptyNumber(t: dstr, pos: nat)
    requires pos < |t| && t[pos] == COLON && Decimal.ToUint(Sub(t, 0, pos)).Some?
    ensures pos > 0
  {
    ColonIsNoDigit(t);
    assert Sub(t, 0, 0) == t;
  }

  lemma ColonIsNoDigit(t: dstr)
    requires t != []
    ensures t[0] == COLON ==> Decimal.ToUint(t) == None
  {
    Decimal.DenotesPrefix(t, 1);
    assert t[..1][..0] == [];
  }

  /** What a turn of the parser takes off its buffer is a line of metadata, and has its effect; the first
      is the version. */
  ghost predicate TakesLine(p: Parser, p': Parser, me: dstr, text: dstr, item: Item) {
    && p.buffer == text + p'.buffer && Spells(text, item)
    && p' == Effect(p, item, me).(buffer := p'.buffer)
    && (p.versionFound || item == V)
  }

  lemma LineIsSpelled(p: Parser, c: Cipher, me: dstr) returns (text: dstr, item: Item)
    requires |p.buffer| >= LONGEST_TAG_LEN && !p.started
    ensures var turn := ParseLine(p, me, c.unwrap);
      turn.Next? && !turn.p.started ==> TakesLine(p, turn.p, me, text, item)
  {
    hide Find, ParseVersion, ParseRecip, ParseIv, ParseStart, Spells;
    text, item := [], V;
    var turn := ParseLine(p, me, c.unwrap);
    var m := Find(p.buffer, 0, TAGS);
    if turn.Next? && !turn.p.started {
      FindIsLeftmost(p.buffer, 0, TAGS);
      var which := m.value.which;
      StartsWithTag(p.buffer, which);
      StartIsStarted(p, c, me);
      if which == 0 {
        text, item := VersionIsSpelled(p, me);
      } else if which == 1 {
        text, item := RecipIsSpelled(p, me);
      } else if which == 2 {
        text, item := IvIsSpelled(p, me);
      }
    }
  }

  lemma StartsWithTag(t: dstr, which: nat)
    requires which < |TAGS| && MatchesAt(t, 0, TAGS[which])
    ensures TAGS[which] <= t && |TAGS[which]| <= |t|
  {
  }

  lemma StartIsStarted(p: Parser, c: Cipher, me: dstr)
    ensures var turn := ParseStart(p, me, c.unwrap); turn.Next? ==> turn.p.started
  {
  }

  lemma VersionIsSpelled(p: Parser, me: dstr) returns (text: dstr, item: Item)
    requires TAG_V <= p.buffer
    ensures var turn := ParseVersion(p, Sub(p.buffer, 2, 0), me);
      turn.Next? ==> item == V && TakesLine(p, turn.p, me, text, item)
  {
    hide IndexOf, Decimal.ToUint;
    SubRest(p.buffer, 2);
    var t := p.buffer[2..];
    item, text := V, [];
    IndexOfIsFirst(t, NEWLINE);
    if ParseVersion(p, t, me).Next? {
      var pos := IndexOf(t, NEWLINE).value;
      NoEmptyVersion(t, pos);
      var n := t[..pos];
      assert Sub(t, 0, pos) == n;
      text := TAG_V + n + [NEWLINE];
      assert p.buffer == TAG_V + t && t == n + [NEWLINE] + t[pos + 1..];
      assert SpellsVersion(text, n);
    }
  }

  lemma NoEmptyVersion(t: dstr, pos: nat)
    requires pos < |t| && t[pos] == NEWLINE && Decimal.ToUint(Sub(t, 0, pos)).Some?
    ensures pos > 0
  {
    Decimal.DenotesPrefix(t, 1);
    assert t[..1][..0] == [];
    assert Sub(t, 0, 0) == t;
  }

  lemma RecipIsSpelled(p: Parser, me: dstr) returns (text: dstr, item: Item)
    requires TAG_R <= p.buffer
    ensures var turn := ParseRecip(p, Sub(p.buffer, 2, 0), me);
      turn.Next? ==> item.R? && (p.versionFound ==> TakesLine(p, turn.p, me, text, item))
  {
    hide ReadBlock, Spells, SpellsBlock, Sub;
    SubRest(p.buffer, 2);
    var t := p.buffer[2..];
    item, text := R([], []), [];
    if ParseRecip(p, t, me).Next? {
      var hash := ReadBlock(t, COLON);
      BlockIsSpelled(t, COLON);
      var key := ReadBlock(hash.rest, NEWLINE);
      BlockIsSpelled(hash.rest, NEWLINE);
      var a, b := t[..|t| - |hash.rest|], hash.rest[..|hash.rest| - |key.rest|];
      item, text := R(hash.block, key.block), TAG_R + a + b;
      RecipParts(p.buffer, t, a, b, hash.rest, key.rest);
      RecipSpells(a, b, hash.block, key.block);
    }
  }

  lemma RecipParts(buffer: dstr, t: dstr, a: dstr, b: dstr, middle: dstr, rest: dstr)
    requires TAG_R <= buffer && t == buffer[2..] && t == a + middle && middle == b + rest
    ensures buffer == TAG_R + a + b + rest
  {
  }

  lemma RecipSpells(a: dstr, b: dstr, fpr: dstr, sealed: dstr)
    requires SpellsBlock(a, fpr, COLON) && SpellsBlock(b, sealed, NEWLINE)
    ensures Spells(TAG_R + a + b, R(fpr, sealed))
  {
    hide SpellsBlock;
    assert SpellsRecipient(TAG_R + a + b, a, b, fpr, sealed);
  }

  lemma IvIsSpelled(p: Parser, me: dstr) returns (text: dstr, item: Item)
    requires TAG_IV <= p.buffer
    ensures var turn := ParseIv(p, Sub(p.buffer, 3, 0), me);
      turn.Next? ==> item.I? && (p.versionFound ==> TakesLine(p, turn.p, me, text, item))
  {
    hide ReadBlock, SpellsBlock;
    SubRest(p.buffer, 3);
    var t := p.buffer[3..];
    item, text := I([]), [];
    if ParseIv(p, t, me).Next? {
      var b := ReadBlock(t, NEWLINE);
      BlockIsSpelled(t, NEWLINE);
      var a := t[..|t| - |b.rest|];
      item, text := I(b.block), TAG_IV + a;
      assert p.buffer == TAG_IV + t;
      assert p.buffer == text + b.rest;
    }
  }

  /* ---------- what was heard ---------- */

  /** An account of the text that was read: the base64 lines after the header, the lines of metadata that
      they spell, and perhaps the line with the tag and what came after it. */
  datatype Account = Account(lines: seq<dstr>, texts: seq<dstr>, items: seq<Item>, tagLine: dstr, after: dstr)

  const NOTHING := Account([], [], [], [], [])

  /** The metadata is spelled line by line, the version first, and is what the parser knows. */
  ghost predicate Metadata(a: Account, p: Parser, me: dstr) {
    && |a.texts| == |a.items|
    && (forall i :: 0 <= i < |a.items| ==> Spells(a.texts[i], a.items[i]))
    && (a.items != [] ==> a.items[0] == V)
    && p == Effects(START_PARSER, a.items, me).(buffer := p.buffer, started := p.started, session := p.session)
  }

  /** The bytes that the base64 lines hold: the metadata, and once the message has started, its
      ciphertext as far as it has been decrypted; and what waits in the buffer. */
  function Held(a: Account, s: State): dstr {
    Flatten(a.texts) + (if s.parser.started then TAG_M + s.fed else []) + s.parser.buffer
  }

  /** The account is right: it is the text that was read, and the decrypter's state. */
  ghost predicate Right(a: Account, s: State, c: Cipher, me: dstr, read: dstr) {
    && Metadata(a, s.parser, me)
    && (if s.parser.started
        then s.parser.keyFound && s.parser.ivFound && c.unwrap(me, s.parser.encKey) == Some(s.parser.session)
        else s.fed == [])
    && (if s.headerFound then read == PemHeader() + Flatten(a.lines) + a.tagLine + a.after
        else read == [] && a == NOTHING && s == START_STATE)
    && (if s.tagFound
        then a.tagLine != [] && a.tagLine[0] == EQUALS && s.tag == DecodeCall(Sub(a.tagLine, 1, 0)).out
             && DecodeStream([], a.lines).out == Held(a, s)
        else a.tagLine == a.after == s.tag == [] && DecodeStream([], a.lines) == Call(Held(a, s), s.base64))
  }

  /** One more piece of a stream. */
  lemma {:induction false} StreamOneMore(pending: dstr, lines: seq<dstr>, line: dstr)
    ensures var before := DecodeStream(pending, lines);
      DecodeStream(pending, lines + [line])
      == Call(before.out + DecodeCall(before.rest + line).out, DecodeCall(before.rest + line).rest)
    decreases |lines|
  {
    hide DecodeCall;
    if lines == [] {
      var d := DecodeCall(pending + line);
      var none: dstr := [];
      assert lines + [line] == [line] && [line][1..] == [];
      assert d.out + none == d.out && none + d.out == d.out;
    } else {
      var d := DecodeCall(pending + lines[0]);
      assert (lines + [line])[1..] == lines[1..] + [line];
      StreamOneMore(d.rest, lines[1..], line);
      var later := DecodeStream(d.rest, lines[1..]);
      Assoc(d.out, later.out, DecodeCall(later.rest + line).out);
    }
  }

  lemma {:induction false} FlattenOneMore(pieces: seq<dstr>, piece: dstr)
    ensures Flatten(pieces + [piece]) == Flatten(pieces) + piece
    decreases |pieces|
  {
    if pieces == [] {
      assert pieces + [piece] == [piece] && [piece][1..] == [];
      assert Flatten([piece]) == piece + [];
    } else {
      assert (pieces + [piece])[1..] == pieces[1..] + [piece];
      FlattenOneMore(pieces[1..], piece);
      Assoc(pieces[0], Flatten(pieces[1..]), piece);
    }
  }

  lemma EffectsOneMore(items: seq<Item>, item: Item, me: dstr)
    ensures Effects(START_PARSER, items + [item], me) == Effect(Effects(START_PARSER, items, me), item, me)
  {
    hide Effect;
    EffectsConcat(START_PARSER, items, [item], me);
    assert [item][1..] == [];
  }

  lemma {:induction false} EffectsKeepVersion(p: Parser, items: seq<Item>, me: dstr)
    ensures Effects(p, items, me).versionFound <==> p.versionFound || exists i :: 0 <= i < |items| && items[i] == V
    decreases |items|
  {
    if items != [] {
      EffectsKeepVersion(Effect(p, items[0], me), items[1..], me);
      assert forall i :: 1 <= i < |items| ==> items[i] == items[1..][i - 1];
      assert forall i :: 0 <= i < |items[1..]| ==> items[1..][i] == items[i + 1];
    }
  }

  /** What the parser's loop takes off its buffer. */
  lemma {:induction false} ParsingIsSpelled(p: Parser, c: Cipher, me: dstr, a: Account) returns (a': Account)
    requires !p.started && p.session == [] && Metadata(a, p, me)
    ensures a'.lines == a.lines && a'.tagLine == a.tagLine && a'.after == a.after
    ensures var r := ParseAll(p, me, c.unwrap);
      r.err == E_NONE ==>
        && Metadata(a', r.p, me)
        && Flatten(a.texts) + p.buffer
           == Flatten(a'.texts) + (if r.p.started then TAG_M else []) + r.p.buffer
        && (if r.p.started then r.p.keyFound && r.p.ivFound && c.unwrap(me, r.p.encKey) == Some(r.p.session)
            else r.p.session == [])
    decreases |p.buffer|
  {
    hide ParseLine, Spells, Effect;
    a' := a;
    var none: dstr := [];
    assert Flatten(a.texts) + none == Flatten(a.texts);
    if |p.buffer| >= LONGEST_TAG_LEN {
      var turn := ParseLine(p, me, c.unwrap);
      if turn.Next? && turn.p.started {
        StartTakesTag(p, c, me);
        assert Flatten(a.texts) + (TAG_M + turn.p.buffer) == Flatten(a.texts) + TAG_M + turn.p.buffer;
      } else if turn.Next? {
        var text, item := LineIsSpelled(p, c, me);
        var more := LineAccounted(p, turn.p, me, a, text, item);
        a' := ParsingIsSpelled(turn.p, c, me, more);
      }
    }
  }

  lemma StartTakesTag(p: Parser, c: Cipher, me: dstr)
    requires |p.buffer| >= LONGEST_TAG_LEN && !p.started
    ensures var turn := ParseLine(p, me, c.unwrap);
      turn.Next? && turn.p.started ==>
        && p.buffer == TAG_M + turn.p.buffer && p.keyFound && p.ivFound
        && turn.p == p.(started := true, session := turn.p.session, buffer := turn.p.buffer)
        && c.unwrap(me, p.encKey) == Some(turn.p.session)
  {
    hide Find, ReadBlock, IndexOf;
    var m := Find(p.buffer, 0, TAGS);
    FindIsLeftmost(p.buffer, 0, TAGS);
    if m.Some? && m.value.pos == 0 {
      StartsWithTag(p.buffer, m.value.which);
    }
  }

  lemma LineAccounted(p: Parser, p': Parser, me: dstr, a: Account, text: dstr, item: Item) returns (a': Account)
    requires !p.started && p.session == [] && Metadata(a, p, me) && TakesLine(p, p', me, text, item) && !p'.started
    ensures a' == a.(texts := a.texts + [text], items := a.items + [item])
    ensures Metadata(a', p', me) && p'.session == []
    ensures Flatten(a.texts) + p.buffer == Flatten(a'.texts) + p'.buffer
  {
    hide Spells;
    a' := a.(texts := a.texts + [text], items := a.items + [item]);
    EffectsOneMore(a.items, item, me);
    EffectsKeepVersion(START_PARSER, a.items, me);
    FlattenOneMore(a.texts, text);
    Assoc(Flatten(a.texts), text, p'.buffer);
  }

  /* ---------- lines, calls and runs ---------- */

  /** A session is there exactly while the message is under way. */
  ghost predicate Heard(a: Account, s: State, c: Cipher, me: dstr, read: dstr) {
    Right(a, s, c, me, read) && (s.parser.started || s.parser.session == [])
  }

  /** And between two lines, all of the message that was decoded has been decrypted. */
  ghost predicate Settled(a: Account, s: State, c: Cipher, me: dstr, read: dstr) {
    Heard(a, s, c, me, read) && (s.parser.started ==> s.parser.buffer == [])
  }

  /** A line of base64. */
  lemma LineIsHeard(a: Account, s: State, line: dstr, c: Cipher, me: dstr, read: dstr) returns (a': Account)
    requires c.Opens() && Settled(a, s, c, me, read) && s.headerFound && !s.tagFound
    ensures var (s', out, err, more) := TakeLine(s, line, c, me);
      err == E_NONE ==> Settled(a', s', c, me, read + line) && s'.headerFound && !s'.tagFound
  {
    hide TakeBase64, ParseAll, Decrypt, Cipher.Opens, DecodeCall, Metadata, Flatten;
    var (s1, err) := TakeBase64(s, line);
    a' := a;
    if err == E_NONE {
      Base64IsHeard(a, s, line, c, me, read);
      var b := a.(lines := a.lines + [line]);
      if s1.parser.started {
        DecryptIsHeard(b, s1, c, me, read + line);
        a' := b;
      } else {
        SameMetadata(b, s1.parser, me);
        a' := ParsingIsSpelled(s1.parser, c, me, b);
        var r := ParseAll(s1.parser, me, c.unwrap);
        if r.err == E_NONE {
          ParsedIsRight(b, a', s1, r.p, c, me, read + line);
          if r.p.started {
            DecryptIsHeard(a', s1.(parser := r.p), c, me, read + line);
          }
        }
      }
    }
  }

  lemma SameMetadata(a: Account, p: Parser, me: dstr)
    requires Metadata(a, p, me)
    ensures Metadata(a, p, me)
  {
  }

  /** Decoding a line adds it to the lines, and its bytes to the buffer. */
  lemma Base64IsHeard(a: Account, s: State, line: dstr, c: Cipher, me: dstr, read: dstr)
    requires Heard(a, s, c, me, read) && s.headerFound && !s.tagFound
    ensures var (s1, err) := TakeBase64(s, line);
      err == E_NONE ==>
        && Heard(a.(lines := a.lines + [line]), s1, c, me, read + line) && s1.headerFound && !s1.tagFound
        && s1.fed == s.fed && s1.parser == s.parser.(buffer := s1.parser.buffer)
  {
    hide DecodeCall, DecodeStream, Flatten, Spells, Effects;
    var (s1, err) := TakeBase64(s, line);
    if err == E_NONE {
      StreamOneMore([], a.lines, line);
      FlattenOneMore(a.lines, line);
      var d := DecodeCall(s.base64 + line);
      Assoc(Flatten(a.texts) + (if s.parser.started then TAG_M + s.fed else []), s.parser.buffer, d.out);
      ReadOneMore(PemHeader(), Flatten(a.lines), line);
    }
  }

  lemma ReadOneMore(header: dstr, lines: dstr, line: dstr)
    ensures header + lines + [] + [] + line == header + (lines + line) + [] + []
  {
  }

  /** Parsing moves bytes from the buffer to the metadata. */
  lemma ParsedIsRight(a: Account, a': Account, s: State, p: Parser, c: Cipher, me: dstr, read: dstr)
    requires Heard(a, s, c, me, read) && s.headerFound && !s.tagFound && !s.parser.started
    requires a'.lines == a.lines && a'.tagLine == a.tagLine && a'.after == a.after
    requires Metadata(a', p, me)
    requires Flatten(a.texts) + s.parser.buffer == Flatten(a'.texts) + (if p.started then TAG_M else []) + p.buffer
    requires if p.started then p.keyFound && p.ivFound && c.unwrap(me, p.encKey) == Some(p.session) else p.session == []
    ensures Heard(a', s.(parser := p), c, me, read)
  {
    hide DecodeCall, DecodeStream, Flatten, Spells, Effects;
    var none: dstr := [];
    assert TAG_M + none == TAG_M;
    assert Flatten(a.texts) + none + s.parser.buffer == Flatten(a.texts) + s.parser.buffer;
  }

  /** Decrypting moves bytes from the buffer to what was fed. */
  lemma DecryptIsHeard(a: Account, s: State, c: Cipher, me: dstr, read: dstr)
    requires Heard(a, s, c, me, read) && s.headerFound && !s.tagFound && s.parser.started
    ensures var (s', out) := Decrypt(s, c); Settled(a, s', c, me, read) && s'.headerFound && !s'.tagFound
  {
    hide DecodeCall, DecodeStream, Flatten, Spells, Effects;
    var m, b := Flatten(a.texts), s.parser.buffer;
    var none: dstr := [];
    assert m + (TAG_M + (s.fed + b)) + none == m + (TAG_M + s.fed) + b;
  }

  /** The line with the tag. */
  lemma TagIsHeard(a: Account, s: State, line: dstr, after: dstr, c: Cipher, me: dstr, read: dstr, len: nat)
    requires Settled(a, s, c, me, read) && s.headerFound && !s.tagFound && line != [] && line[0] == EQUALS
    ensures var o := TakeTag(s, line, len);
      o.err == E_NONE ==>
        && Settled(a.(tagLine := line, after := after), o.s, c, me, read + (line + after))
        && o.s.headerFound && o.s.tagFound
  {
    hide DecodeCall, DecodeStream, Flatten, Spells, Effects, FullGroups;
    var d := DecodeCall(Sub(line, 1, 0)).out;
    assert [] + d == d;
    ReadTag(PemHeader() + Flatten(a.lines), line, after);
  }

  lemma ReadTag(read: dstr, line: dstr, after: dstr)
    ensures read + [] + [] + (line + after) == read + line + after
  {
  }

  /** The loop over lines. */
  lemma {:induction false} LinesAreHeard(a: Account, s: State, x: dstr, c: Cipher, me: dstr, read: dstr)
    returns (a': Account)
    requires c.Opens() && Settled(a, s, c, me, read) && s.headerFound && |s.base64| <= BUFFER_SIZE
    ensures var o := TakeLines(s, x, c, me);
      o.err == E_NONE ==> Settled(a', o.s, c, me, read + x[..o.used]) && o.s.headerFound
    decreases |x|
  {
    hide TakeLines, TakeLine, TakeTag, IndexOf, Cipher.Opens, Right;
    LinesTurn(s, x, c, me);
    a' := a;
    assert x[..0] == [] && read + [] == read;
    if x != [] && s.tagFound {
      a' := a.(after := a.after + x);
      MoreAfter(a, s, x, c, me, read);
    } else if x != [] && |s.base64| < BUFFER_SIZE && IndexOf(x, NEWLINE).Some? {
      var n := Min(BUFFER_SIZE - |s.base64|, IndexOf(x, NEWLINE).value + 1);
      var line := x[..n];
      if x[0] == EQUALS {
        a' := a.(tagLine := line, after := x[n..]);
        TagIsHeard(a, s, line, x[n..], c, me, read, |x|);
        TagTakesAll(s, line, |x|);
        assert line + x[n..] == x == x[..|x|];
      } else {
        a' := LineIsHeard(a, s, line, c, me, read);
        TakeLineBound(s, line, c, me);
        var (s1, out, err, more) := TakeLine(s, line, c, me);
        if err == E_NONE && more {
          a' := LinesAreHeard(a', s1, x[n..], c, me, read + line);
          CutTwice(x, n, TakeLines(s1, x[n..], c, me).used);
          Assoc(read, line, x[n..][..TakeLines(s1, x[n..], c, me).used]);
        }
      }
    }
  }

  lemma TagTakesAll(s: State, line: dstr, len: nat)
    requires line != []
    ensures var o := TakeTag(s, line, len); o.err == E_NONE ==> o.used == len
  {
    hide DecodeCall, FullGroups;
  }

  lemma MoreAfter(a: Account, s: State, x: dstr, c: Cipher, me: dstr, read: dstr)
    requires Settled(a, s, c, me, read) && s.headerFound && s.tagFound
    ensures Settled(a.(after := a.after + x), s, c, me, read + x[..|x|])
  {
    hide DecodeCall, DecodeStream, Flatten, Spells, Effects;
    assert x[..|x|] == x;
    Assoc(PemHeader() + Flatten(a.lines) + a.tagLine, a.after, x);
  }

  lemma HeaderIsHeard(c: Cipher, me: dstr, header: dstr)
    requires header == PemHeader()
    ensures Settled(NOTHING, START_STATE.(headerFound := true), c, me, [] + header)
  {
    assert header + [] + [] + [] == [] + header;
    assert Flatten([]) + [] + [] == [];
  }

  lemma {:induction false} PiecesAreHeard(a: Account, s: State, pending: dstr, pieces: seq<dstr>, c: Cipher, me: dstr,
                                          read: dstr)
    returns (a': Account)
    requires c.Opens() && Settled(a, s, c, me, read) && |s.base64| <= BUFFER_SIZE
    ensures var r := Receive(s, pending, pieces, c, me);
      r.err == E_NONE ==> HeardUpTo(a', r.s, c, me, read, pending + Flatten(pieces), r.rest)
    decreases |pieces|
  {
    hide UpdateOf, Cipher.Opens, PemHeader, Settled, HeardUpTo;
    a' := a;
    if pieces == [] {
      HeardNothing(a, s, c, me, read, pending);
      assert pending + [] == pending;
    } else {
      var x, later := pending + pieces[0], Flatten(pieces[1..]);
      Assoc(pending, pieces[0], later);
      a' := CallIsHeard(a, s, x, c, me, read);
      var o := UpdateOf(s, x, c, me);
      if o.err == E_NONE {
        a' := PiecesAreHeard(a', o.s, x[o.used..], pieces[1..], c, me, read + x[..o.used]);
        var r := Receive(o.s, x[o.used..], pieces[1..], c, me);
        if r.err == E_NONE {
          HeardMore(a', r.s, c, me, read, x, later, o.used, r.rest);
        }
      }
    }
  }

  /** Of the text `all`, everything but the last `rest` has been heard after `read`. */
  ghost predicate HeardUpTo(a: Account, s: State, c: Cipher, me: dstr, read: dstr, all: dstr, rest: dstr) {
    && |rest| <= |all| && rest == all[|all| - |rest|..]
    && Settled(a, s, c, me, read + all[..|all| - |rest|])
  }

  lemma HeardNothing(a: Account, s: State, c: Cipher, me: dstr, read: dstr, pending: dstr)
    requires Settled(a, s, c, me, read)
    ensures HeardUpTo(a, s, c, me, read, pending, pending)
  {
    hide Settled;
    assert pending[..0] == [] && read + [] == read;
  }

  lemma HeardMore(a: Account, s: State, c: Cipher, me: dstr, read: dstr, x: dstr, later: dstr, used: nat, rest: dstr)
    requires used <= |x| && HeardUpTo(a, s, c, me, read + x[..used], x[used..] + later, rest)
    ensures HeardUpTo(a, s, c, me, read, x + later, rest)
  {
    hide Settled;
    var all, left := x + later, x[used..] + later;
    assert all == x[..used] + left;
    var n := |left| - |rest|;
    assert all[..used + n] == x[..used] + left[..n];
    Assoc(read, x[..used], left[..n]);
  }

  lemma CallIsHeard(a: Account, s: State, x: dstr, c: Cipher, me: dstr, read: dstr) returns (a': Account)
    requires c.Opens() && Settled(a, s, c, me, read) && |s.base64| <= BUFFER_SIZE
    ensures var o := UpdateOf(s, x, c, me);
      o.err == E_NONE ==> Settled(a', o.s, c, me, read + x[..o.used])
  {
    hide TakeLines, Cipher.Opens, PemHeader;
    a' := a;
    var none: dstr := [];
    assert x[..0] == none && read + none == read && x[0..] == x;
    if s.headerFound {
      assert s.(headerFound := true) == s;
      a' := LinesAreHeard(a, s, x, c, me, read);
    } else if |x| >= |PemHeader()| && x[..|PemHeader()|] == PemHeader() {
      var n := |PemHeader()|;
      HeaderIsHeard(c, me, x[..n]);
      a' := LinesAreHeard(NOTHING, s.(headerFound := true), x[n..], c, me, none + x[..n]);
      CutTwice(x, n, TakeLines(s.(headerFound := true), x[n..], c, me).used);
      Assoc(none, x[..n], x[n..][..TakeLines(s.(headerFound := true), x[n..], c, me).used]);
    }
  }

  /** Whatever is accepted is an envelope.  If a text in any pieces is taken without an error to the end,
      then it is the header, lines of base64, the line of a tag, and anything after it; the lines decode
      to metadata, line by line, with the version first, then "M:" and a ciphertext; our key is sealed in
      it; the tag verifies the ciphertext; and what was given out is what the cipher makes of it. */
  lemma AcceptedIsAnEnvelope(pieces: seq<dstr>, c: Cipher, me: dstr) returns (a: Account)
    requires c.Opens()
    ensures var r := Receive(START_STATE, [], pieces, c, me);
      var (last, err) := FinishOf(r.s, c);
      r.err == E_NONE && err == E_NONE ==>
        && Flatten(pieces) == PemHeader() + Flatten(a.lines) + a.tagLine + a.after + r.rest
        && a.tagLine != [] && a.tagLine[0] == EQUALS
        && Envelops(a, r.s.fed, DecodeCall(Sub(a.tagLine, 1, 0)).out, r.plain + last, c, me)
  {
    hide Receive, FinishOf, Cipher.Opens, DecodeCall, DecodeStream, PemHeader, Settled, Envelops;
    StartIsRight(c, me);
    a := PiecesAreHeard(NOTHING, START_STATE, [], pieces, c, me, []);
    NothingUnverifiedSucceeds(pieces, c, me);
    var r := Receive(START_STATE, [], pieces, c, me);
    var text: dstr, none: dstr := Flatten(pieces), [];
    assert none + text == text;
    if r.err == E_NONE && FinishOf(r.s, c).1 == E_NONE {
      var read := none + text[..|text| - |r.rest|];
      assert read == text[..|text| - |r.rest|] && text == read + r.rest;
      FinishTells(r.s, c);
      RightEnvelops(a, r.s, c, me, read, r.plain + FinishOf(r.s, c).0);
    }
  }

  lemma FinishTells(s: State, c: Cipher)
    requires FinishOf(s, c).1 == E_NONE
    ensures s.parser.started && s.tag != [] && c.Verifies(s.parser.session, s.parser.iv, s.fed, s.tag)
  {
  }

  lemma StartIsRight(c: Cipher, me: dstr)
    ensures Settled(NOTHING, START_STATE, c, me, [])
  {
    assert Flatten([]) + [] + [] == [];
  }

  /** The metadata, the ciphertext and the tag, and the plaintext that they stand for. */
  ghost predicate Envelops(a: Account, ciphertext: dstr, tag: dstr, plain: dstr, c: Cipher, me: dstr) {
    var p := Effects(START_PARSER, a.items, me);
    && |a.texts| == |a.items| && (forall i :: 0 <= i < |a.items| ==> Spells(a.texts[i], a.items[i]))
    && (a.items != [] ==> a.items[0] == V)
    && DecodeStream([], a.lines).out == Flatten(a.texts) + TAG_M + ciphertext
    && p.keyFound && p.ivFound
    && var key := c.unwrap(me, p.encKey);
      && key.Some? && c.Verifies(key.value, p.iv, ciphertext, tag)
      && plain == c.open(key.value, p.iv, ciphertext) + c.openFinal(key.value, p.iv, ciphertext)
  }

  lemma RightEnvelops(a: Account, s: State, c: Cipher, me: dstr, read: dstr, plain: dstr)
    requires Settled(a, s, c, me, read) && s.parser.started
    requires s.tag != [] && c.Verifies(s.parser.session, s.parser.iv, s.fed, s.tag)
    requires plain == c.open(s.parser.session, s.parser.iv, s.fed) + c.openFinal(s.parser.session, s.parser.iv, s.fed)
    ensures a.tagLine != [] && a.tagLine[0] == EQUALS
    ensures read == PemHeader() + Flatten(a.lines) + a.tagLine + a.after
    ensures Envelops(a, s.fed, DecodeCall(Sub(a.tagLine, 1, 0)).out, plain, c, me)
  {
    hide DecodeCall, DecodeStream, Flatten, Spells, Effects, PemHeader;
    var none: dstr := [];
    assert Flatten(a.texts) + (TAG_M + s.fed) + none == Flatten(a.texts) + TAG_M + s.fed;
  }

  /* ---------- what is refused ---------- */

  /** A text that does not start with the header is refused once enough of it is there. */
  lemma {:induction false} WrongHeaderIsRefused(pending: dstr, pieces: seq<dstr>, c: Cipher, me: dstr)
    requires |pending| < |PemHeader()| <= |pending + Flatten(pieces)| && !(PemHeader() <= pending + Flatten(pieces))
    ensures var r := Receive(START_STATE, pending, pieces, c, me); r.err == E_PARAM && r.plain == []
    decreases |pieces|
  {
    hide TakeLines, PemHeader;
    assert pending + [] == pending;
    if pieces != [] {
      var x, later := pending + pieces[0], Flatten(pieces[1..]);
      Assoc(pending, pieces[0], later);
      if |x| < |PemHeader()| {
        assert x[0..] == x;
        WrongHeaderIsRefused(x, pieces[1..], c, me);
        var r := Receive(START_STATE, x, pieces[1..], c, me);
        assert [] + r.plain == r.plain;
      } else {
        assert x <= x + later;
      }
    }
  }

  /** After a failure nothing can be finished: the message is not under way any more. */
  lemma FailureIsFinal(s: State, text: dstr, c: Cipher, me: dstr)
    requires |s.base64| <= BUFFER_SIZE
    ensures var o := UpdateOf(s, text, c, me);
      o.err != E_NONE ==> o.used == 0 && FinishOf(o.s, c) == ([], E_PARAM)
  {
    hide TakeLines, PemHeader;
    var len := if s.headerFound then 0 else |PemHeader()|;
    if |text| >= len {
      FailedLines(s.(headerFound := true), text[len..], c, me);
    }
  }

  lemma {:induction false} FailedLines(s: State, x: dstr, c: Cipher, me: dstr)
    requires |s.base64| <= BUFFER_SIZE
    ensures var o := TakeLines(s, x, c, me); o.err != E_NONE ==> !o.s.parser.started
    decreases |x|
  {
    hide TakeLines, TakeLine, TakeTag, IndexOf;
    LinesTurn(s, x, c, me);
    if x != [] && !s.tagFound && |s.base64| < BUFFER_SIZE && IndexOf(x, NEWLINE).Some? {
      var n := Min(BUFFER_SIZE - |s.base64|, IndexOf(x, NEWLINE).value + 1);
      if x[0] == EQUALS {
        FailedTag(s, x[..n], |x|);
      } else {
        FailedLine(s, x[..n], c, me);
        TakeLineBound(s, x[..n], c, me);
        var (s1, out, err, more) := TakeLine(s, x[..n], c, me);
        if err == E_NONE && more {
          FailedLines(s1, x[n..], c, me);
        }
      }
    }
  }

  lemma FailedTag(s: State, line: dstr, len: nat)
    requires line != []
    ensures var o := TakeTag(s, line, len); o.err != E_NONE ==> !o.s.parser.started
  {
    hide DecodeCall, FullGroups;
  }

  lemma FailedLine(s: State, line: dstr, c: Cipher, me: dstr)
    ensures var (s1, out, err, more) := TakeLine(s, line, c, me); err != E_NONE ==> !s1.parser.started
  {
    hide DecodeCall, ParseAll, Decrypt, FullGroups;
  }

  /** A call gets on with its text: it takes a part of it whenever a line is complete, or fails; and once
      the tag is there it takes everything. */
  lemma {:induction false} CallGetsOn(s: State, x: dstr, c: Cipher, me: dstr)
    requires |s.base64| <= BUFFER_SIZE
    ensures var o := TakeLines(s, x, c, me);
      o.err == E_NONE ==> (NEWLINE in x ==> o.used > 0) && (o.s.tagFound ==> o.used == |x|)
    decreases |x|
  {
    hide TakeLines, TakeLine, TakeTag, IndexOf;
    LinesTurn(s, x, c, me);
    if x != [] && !s.tagFound && |s.base64| < BUFFER_SIZE {
      IndexOfIsFirst(x, NEWLINE);
      if IndexOf(x, NEWLINE).Some? {
        var n := Min(BUFFER_SIZE - |s.base64|, IndexOf(x, NEWLINE).value + 1);
        if x[0] == EQUALS {
          TagTakesAll(s, x[..n], |x|);
        } else {
          TakeLineBound(s, x[..n], c, me);
          var (s1, out, err, more) := TakeLine(s, x[..n], c, me);
          LineFindsNoTag(s, x[..n], c, me);
          if err == E_NONE && more {
            CallGetsOn(s1, x[n..], c, me);
          }
        }
      }
    }
  }

  lemma LineFindsNoTag(s: State, line: dstr, c: Cipher, me: dstr)
    ensures TakeLine(s, line, c, me).0.tagFound == s.tagFound
  {
    hide DecodeCall, ParseAll, FullGroups;
  }

  /** The line of a tag that is too long is refused. */
  lemma LongTagIsRefused(s: State, tag: dstr, len: nat)
    requires s.tag == [] && |tag| > CIPHER_TAG_LEN
    ensures TakeTag(s, [EQUALS] + Text(tag, 0, 0) + [NEWLINE], len).err == E_PARAM
  {
    hide Text, DecodeCall, FullGroups, Sub;
    var t := Text(tag, 0, 0) + [NEWLINE];
    assert [EQUALS] + Text(tag, 0, 0) + [NEWLINE] == [EQUALS] + t;
    BehindEquals(t);
    DecodeTag(tag);
  }

  /** A block is waited for exactly while its length may still be complete, in at most five characters,
      or while some of its bytes are missing. */
  lemma BlockWaitsExactly(t: dstr, sep: byte, n: dstr, left: dstr)
    requires COLON !in n && t == n + [COLON] + left
    ensures ReadBlock(t, sep) == More <==>
              n != [] && Decimal.ToUint(n).Some? && |left| < Decimal.ToUint(n).value + 1
  {
    hide IndexOf, Decimal.ToUint;
    assert t[|n|] == COLON && t[..|n|] == n;
    IndexOfUnique(t, COLON, |n|);
    assert t[|n| + 1..] == left;
    SubRest(t, |n| + 1);
    if n == [] {
      ColonIsNoDigit(t);
      assert Sub(t, 0, 0) == t;
    }
  }

  lemma LengthWaitsExactly(t: dstr, sep: byte)
    requires COLON !in t
    ensures ReadBlock(t, sep) == if |t| <= 5 then More else Bad
  {
    hide IndexOf;
    IndexOfAbsent(t, COLON);
  }

  /** So is the version, in at most four. */
  lemma VersionWaitsExactly(p: Parser, t: dstr, me: dstr)
    ensures ParseVersion(p, t, me) == Wait <==> NEWLINE !in t && |t| <= 4
  {
    hide IndexOf, Decimal.ToUint;
    IndexOfIsFirst(t, NEWLINE);
  }

  /** Why a message does not start: we are no recipient, there is no IV, or the library cannot open the
      key that was sealed for us. */
  lemma StartFailsExactly(p: Parser, c: Cipher, me: dstr)
    requires TAG_M <= p.buffer && |p.buffer| >= LONGEST_TAG_LEN && p.versionFound
    ensures var turn := ParseLine(p, me, c.unwrap);
      && (turn == Fail(E_NOT4ME) <==> !p.keyFound)
      && (turn == Fail(E_PARAM) <==> p.keyFound && !p.ivFound)
      && (turn == Fail(E_SSL) <==> p.keyFound && p.ivFound && c.unwrap(me, p.encKey) == None)
  {
    hide Find;
    TagFound(p.buffer, 3);
  }
}
