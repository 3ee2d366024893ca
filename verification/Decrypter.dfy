/** The decrypter of libcrypto/crypto.c: it takes the text of a message in any pieces, whole lines
    at a time, and leaves the rest for the next call. */
module Decrypter {
  import opened Bytes
  import opened Recode
  import opened Base64
  import opened EnvelopeFormat
  import opened MetadataParser

  /* ---------- one call, on values ---------- */

  /** A decrypter_t.  `fed` is what was put into the cipher since the message started. */
  datatype State = State(
    headerFound: bool, tagFound: bool, parser: Parser, base64: dstr, tag: dstr, fed: dstr)

  const CIPHER_BLOCK_SIZE: nat := 16
  const START_PARSER: Parser := Parser([], false, false, false, false, [], [], [], [])
  const START_STATE: State := State(false, false, START_PARSER, [], [], [])

  /** The outcome of reading lines: how much was read, and the plaintext that came out. */
  datatype Outcome = Outcome(s: State, used: nat, plain: dstr, err: Error)

  /** A failure resets the cipher, and no message is under way any more. */
  function Failed(s: State): (s': State) {
    s.(parser := s.parser.(started := false), fed := [])
  }

  /** The line with the authentication tag: it ends the message, whatever follows.  Of a tag that
      is too long, the groups that fit are kept. */
  function TakeTag(s: State, line: dstr, len: nat): (o: Outcome)
    requires line != []
    ensures o.plain == [] && o.used == if o.err == E_NONE then len else 0
  {
    var s1 := s.(tagFound := true, base64 := []);
    var decoded := DecodeCall(Sub(line, 1, 0)).out;
    if |s.tag| + |decoded| > CIPHER_TAG_LEN then
      var kept := decoded[..Min(FullGroups(CIPHER_TAG_LEN - |s.tag|), |decoded|)];
      Outcome(Failed(s1.(tag := s.tag + kept)), 0, [], E_PARAM)
    else Outcome(s1.(tag := s.tag + decoded), len, [], E_NONE)
  }

  /** Put the decoded bytes through the cipher. */
  function Decrypt(s: State, c: Cipher): (r: (State, dstr)) {
    var p := s.parser;
    var fed := s.fed + p.buffer;
    var before, after := c.open(p.session, p.iv, s.fed), c.open(p.session, p.iv, fed);
    (s.(parser := p.(buffer := []), fed := fed), after[Min(|before|, |after|)..])
  }

  /** Decode the complete groups of what is held and `line`.  Of too many, those that fit are kept. */
  function TakeBase64(s: State, line: dstr): (r: (State, Error)) {
    var d := DecodeCall(s.base64 + line);
    if |s.parser.buffer| + |d.out| > BUFFER_SIZE then
      var kept := d.out[..Min(FullGroups(BUFFER_SIZE - |s.parser.buffer|), |d.out|)];
      var s1 := s.(base64 := s.base64 + line, parser := s.parser.(buffer := s.parser.buffer + kept));
      (Failed(s1), E_INTERNAL)
    else (s.(base64 := d.rest, parser := s.parser.(buffer := s.parser.buffer + d.out)), E_NONE)
  }

  /** A line of base64: decode it, parse metadata until the message starts, and from then on
      decrypt.  The last value says whether the call may go on reading. */
  function TakeLine(s: State, line: dstr, c: Cipher, me: dstr): (r: (State, dstr, Error, bool)) {
    var (s1, err) := TakeBase64(s, line);
    if err != E_NONE then (s1, [], err, false)
    else
      var parsed := if s1.parser.started then Parsed(s1.parser, E_NONE)
                    else ParseAll(s1.parser, me, c.unwrap);
      var s2 := s1.(parser := parsed.p);
      if parsed.err != E_NONE then (Failed(s2), [], parsed.err, false)
      else if !parsed.p.started then (s2, [], E_NONE, true)
      else if parsed.p.buffer == [] then (s2, [], E_NONE, false)
      else
        var (s3, plain) := Decrypt(s2, c);
        (s3, plain, E_NONE, true)
  }

  /** The loop of decrypter_update over the lines of `x`, the text behind what was read. */
  function TakeLines(s: State, x: dstr, c: Cipher, me: dstr): (o: Outcome)
    requires |s.base64| <= BUFFER_SIZE
    ensures o.used <= |x| && |o.s.base64| <= BUFFER_SIZE
    decreases |x|, 1
  {
    if x == [] then Outcome(s, 0, [], E_NONE) else LinesAfterTurn(s, x, c, me)
  }

  /** One turn of the loop, and what comes after it. */
  function LinesAfterTurn(s: State, x: dstr, c: Cipher, me: dstr): (o: Outcome)
    requires |s.base64| <= BUFFER_SIZE && x != []
    ensures o.used <= |x| && |o.s.base64| <= BUFFER_SIZE
    decreases |x|, 0
  {
    if s.tagFound then Outcome(s, |x|, [], E_NONE)
    else if |s.base64| == BUFFER_SIZE then Outcome(Failed(s), 0, [], E_PARAM)
    else if IndexOf(x, NEWLINE).None? then Outcome(s, 0, [], E_NONE)
    else
      var n := Min(BUFFER_SIZE - |s.base64|, IndexOf(x, NEWLINE).value + 1);
      if x[0] == EQUALS then TakeTag(s, x[..n], |x|)
      else
        var (s1, plain, err, more) := TakeLine(s, x[..n], c, me);
        TakeLineBound(s, x[..n], c, me);
        if err != E_NONE then Outcome(s1, 0, plain, err)
        else if !more then Outcome(s1, n, plain, E_NONE)
        else
          var o := TakeLines(s1, x[n..], c, me);
          Outcome(o.s, n + o.used, plain + o.plain, o.err)
  }

  lemma TakeLineBound(s: State, line: dstr, c: Cipher, me: dstr)
    requires |s.base64| + |line| <= BUFFER_SIZE
    ensures |TakeLine(s, line, c, me).0.base64| <= BUFFER_SIZE
  {
    hide DecodeCall, ParseAll, Decrypt;
    DecodeLeavesLess(s.base64 + line);
    var s1 := TakeBase64(s, line).0;
    var parsed := if s1.parser.started then Parsed(s1.parser, E_NONE)
                  else ParseAll(s1.parser, me, c.unwrap);
    DecryptKeepsBase64(s1.(parser := parsed.p), c);
  }

  lemma DecodeLeavesLess(x: dstr)
    ensures |DecodeCall(x).rest| <= |x|
  {
    hide TakeAll;
    TakeAllBounds(START, x);
  }

  lemma DecryptKeepsBase64(s: State, c: Cipher)
    ensures Decrypt(s, c).0.base64 == s.base64
  {
  }

  /** decrypter_update: the header first, once enough text is there, then lines.  On failure
      nothing is taken off the input. */
  function UpdateOf(s: State, text: dstr, c: Cipher, me: dstr): (o: Outcome)
    requires |s.base64| <= BUFFER_SIZE
    ensures o.used <= |text| && |o.s.base64| <= BUFFER_SIZE
  {
    var len := if s.headerFound then 0 else |PemHeader()|;
    if |text| < len then Outcome(s, 0, [], E_NONE)
    else if text[..len] != (if s.headerFound then [] else PemHeader()) then
      Outcome(Failed(s), 0, [], E_PARAM)
    else
      var o := TakeLines(s.(headerFound := true), text[len..], c, me);
      if o.err != E_NONE then Outcome(o.s, 0, o.plain, o.err)
      else Outcome(o.s, len + o.used, o.plain, E_NONE)
  }

  /** decrypter_finish */
  function FinishOf(s: State, c: Cipher): (r: (dstr, Error)) {
    var p := s.parser;
    if !p.started then ([], E_PARAM)
    else if !c.Verifies(p.session, p.iv, s.fed, s.tag) then ([], E_SSL)
    else (c.openFinal(p.session, p.iv, s.fed), E_NONE)
  }

  /* ---------- the same, in place ---------- */

  /** Reading one length-prefixed block, as decrypter_parse_metadata does three times. */
  method ReadBlockIn(t: dstr, sep: byte) returns (b: Block)
    ensures b == ReadBlock(t, sep)
  {
    hide Find, HeldBack;
    var m, _ := DstrFind(t, [[COLON]]);
    if m.None? {
      return if |t| <= 5 then More else Bad;
    }
    var err, len := Decimal.DstrToU(Sub(t, 0, m.value.pos));
    if err != E_NONE {
      return Bad;
    }
    var left := Sub(t, m.value.pos + 1, 0);
    if |left| < len + 1 {
      return More;
    }
    var block := Sub(left, 0, len);
    if left[len] != sep {
      return Bad;
    }
    b := Got(block, Sub(left, len + 1, 0));
  }

  /** How the outcome of a turn shows in the fields. */
  ghost predicate Turned(turn: Turn, err: Error, wait: bool, p: Parser, p': Parser) {
    match turn
    case Wait => err == E_NONE && wait && p' == p
    case Fail(e) => err == e && e != E_NONE && p' == p
    case Next(next) => err == E_NONE && !wait && p' == next
  }

  class Decrypter {
    const cipher: Cipher
    const kp: dstr  // the fingerprint of our key
    var headerFound: bool
    var versionFound: bool
    var keyFound: bool
    var ivFound: bool
    var messageStarted: bool
    var tagFound: bool
    var encKey: dstr
    var iv: dstr
    var session: dstr
    var recips: seq<dstr>
    const base64: Dstr
    const buffer: Dstr
    const tag: Dstr
    var fed: dstr

    ghost predicate Valid()
      reads this, base64, buffer, tag
    {
      && base64 != buffer && base64 != tag && buffer != tag
      && base64.fixedSize && base64.size == BUFFER_SIZE && base64.Room(0)
      && buffer.fixedSize && buffer.size == BUFFER_SIZE && buffer.Room(0)
      && tag.fixedSize && tag.size == CIPHER_TAG_LEN && tag.Room(0)
    }

    ghost function ParserState(): (p: Parser)
      reads this, buffer
    {
      Parser(buffer.data, versionFound, keyFound, ivFound, messageStarted, encKey, iv, session, recips)
    }

    ghost function Abstract(): (s: State)
      reads this, base64, buffer, tag
    {
      State(headerFound, tagFound, ParserState(), base64.data, tag.data, fed)
    }

    /** decrypter_new and decrypter_start */
    constructor (cipher: Cipher, me: dstr)
      ensures Valid() && Abstract() == START_STATE && this.cipher == cipher && kp == me
      ensures fresh(base64) && fresh(buffer) && fresh(tag)
    {
      this.cipher, kp := cipher, me;
      headerFound, versionFound, keyFound, ivFound := false, false, false, false;
      messageStarted, tagFound, recips, fed := false, false, [], [];
      encKey, iv, session := [], [], [];
      base64 := new Dstr(true, BUFFER_SIZE);
      buffer := new Dstr(true, BUFFER_SIZE);
      tag := new Dstr(true, CIPHER_TAG_LEN);
    }

    /** The version line of decrypter_parse_metadata; `wait` is its early return. */
    method ParseVersionLine(t: dstr) returns (err: Error, wait: bool)
      requires Valid() && |buffer.data| >= 2 && t == buffer.data[2..]
      modifies this`versionFound, buffer
      ensures Valid()
      ensures Turned(ParseVersion(old(ParserState()), t, kp), err, wait, old(ParserState()), ParserState())
    {
      hide Find, HeldBack;
      err, wait := E_NONE, false;
      var m, _ := DstrFind(t, [[NEWLINE]]);
      if m.None? {
        if |t| <= 4 {
          return E_NONE, true;
        }
        return E_PARAM, false;
      }
      var version;
      err, version := Decimal.DstrToU(Sub(t, 0, m.value.pos));
      if err != E_NONE || version != 1 {
        return E_PARAM, false;
      }
      versionFound := true;
      buffer.LeftShift(2 + m.value.pos + 1);
    }

    /** The recipient line: its fingerprint is collected, and if it is ours, its key is kept. */
    method ParseRecipLine(t: dstr) returns (err: Error, wait: bool)
      requires Valid() && |buffer.data| >= 2 && t == buffer.data[2..]
      modifies this`keyFound, this`encKey, this`recips, buffer
      ensures Valid()
      ensures Turned(ParseRecip(old(ParserState()), t, kp), err, wait, old(ParserState()), ParserState())
    {
      hide ReadBlock;
      err, wait := E_NONE, false;
      var hash := ReadBlockIn(t, COLON);
      if !hash.Got? {
        return if hash.More? then E_NONE else E_PARAM, hash.More?;
      }
      var key := ReadBlockIn(hash.rest, NEWLINE);
      if !key.Got? {
        return if key.More? then E_NONE else E_PARAM, key.More?;
      }
      if hash.block == kp {
        keyFound := true;
        encKey := key.block;
      }
      recips := recips + [hash.block];
      BlockRestIsSuffix(t, COLON);
      BlockRestIsSuffix(hash.rest, NEWLINE);
      buffer.LeftShift(|buffer.data| - |key.rest|);
    }

    /** The IV line */
    method ParseIvLine(t: dstr) returns (err: Error, wait: bool)
      requires Valid() && |buffer.data| >= 3 && t == buffer.data[3..]
      modifies this`ivFound, this`iv, buffer
      ensures Valid()
      ensures Turned(ParseIv(old(ParserState()), t, kp), err, wait, old(ParserState()), ParserState())
    {
      hide ReadBlock;
      err, wait := E_NONE, false;
      var b := ReadBlockIn(t, NEWLINE);
      if !b.Got? {
        return if b.More? then E_NONE else E_PARAM, b.More?;
      }
      if |b.block| != CIPHER_IV_LEN {
        return E_PARAM, false;
      }
      ivFound := true;
      iv := b.block;
      BlockRestIsSuffix(t, NEWLINE);
      buffer.LeftShift(|buffer.data| - |b.rest|);
    }

    /** The start of the message: the sealed key is opened and the cipher set up. */
    method StartMessage() returns (err: Error)
      requires Valid()
      modifies this`messageStarted, this`session, buffer
      ensures Valid()
      ensures Turned(ParseStart(old(ParserState()), kp, cipher.unwrap), err, false,
                     old(ParserState()), ParserState())
    {
      if !keyFound {
        return E_NOT4ME;
      }
      if !ivFound {
        return E_PARAM;
      }
      var key := cipher.unwrap(kp, encKey);
      if key.None? {
        return E_SSL;
      }
      session := key.value;
      messageStarted := true;
      buffer.LeftShift(2);
      err := E_NONE;
    }

    /** decrypter_parse_metadata */
    method ParseMetadata() returns (err: Error)
      requires Valid() && !messageStarted
      modifies this`versionFound, this`keyFound, this`ivFound, this`messageStarted,
               this`encKey, this`iv, this`session, this`recips, buffer
      ensures Valid()
      ensures Parsed(ParserState(), err) == ParseAll(old(ParserState()), kp, cipher.unwrap)
    {
      hide Find, HeldBack, ParseVersion, ParseRecip, ParseIv, ParseStart, ParseAll;
      err := E_NONE;
      while |buffer.data| >= LONGEST_TAG_LEN
        invariant Valid() && !messageStarted && err == E_NONE
        invariant ParseAll(ParserState(), kp, cipher.unwrap)
               == ParseAll(old(ParserState()), kp, cipher.unwrap)
        decreases |buffer.data|
      {
        ghost var before := ParserState();
        ParseTurn(before, kp, cipher.unwrap);
        var m, _ := DstrFind(buffer.data, TAGS);
        if m.None? || m.value.pos > 0 {
          return E_PARAM;
        }
        var which := m.value.which;
        if !versionFound && which != 0 {
          return E_PARAM;
        }
        var wait := false;
        if which == 0 {
          err, wait := ParseVersionLine(Sub(buffer.data, 2, 0));
        } else if which == 1 {
          err, wait := ParseRecipLine(Sub(buffer.data, 2, 0));
        } else if which == 2 {
          err, wait := ParseIvLine(Sub(buffer.data, 3, 0));
        } else {
          err := StartMessage();
        }
        if err != E_NONE || wait || messageStarted {
          return;
        }
      }
      ParseTurn(ParserState(), kp, cipher.unwrap);
    }

    /** What every failure of decrypter_update does. */
    method Reset()
      requires Valid()
      modifies this`messageStarted, this`fed
      ensures Valid() && Abstract() == Failed(old(Abstract()))
    {
      messageStarted, fed := false, [];
    }

    /** The line with the tag. */
    method ReadTagLine(line: dstr, len: nat) returns (err: Error)
      requires Valid() && line != []
      modifies this`tagFound, this`messageStarted, this`fed, base64, tag
      ensures Valid()
      ensures var o := TakeTag(old(Abstract()), line, len); err == o.err && Abstract() == o.s
    {
      hide TakeAll, DecodeCall;
      tagFound := true;
      base64.LeftShift(|base64.data|);
      var sub := new Dstr(true, |line|);
      var ok := sub.Append(Sub(line, 1, 0));
      assert sub.data == Sub(line, 1, 0);
      err := B642BinStream(sub, tag);
      if err == E_FIXEDSIZE {
        Reset();
        err := E_PARAM;
      }
    }

    /** Pass the decoded bytes through the cipher and empty the buffer. */
    method DecryptBuffer(out: Dstr)
      requires Valid() && out !in {base64, buffer, tag} && !out.fixedSize
      requires cipher.Opens()
      modifies this`fed, buffer, out
      ensures Valid()
      ensures (Abstract(), out.data)
           == var (s, plain) := Decrypt(old(Abstract()), cipher); (s, old(out.data) + plain)
    {
      var before := cipher.open(session, iv, fed);
      fed := fed + buffer.data;
      var after := cipher.open(session, iv, fed);
      var outl := |after| - |before|;
      assert outl <= |buffer.data| + CIPHER_BLOCK_SIZE - 1;
      var ok := out.Append(after[|before|..]);
      buffer.LeftShift(|buffer.data|);
    }

    /** Append a line to what is held, and decode. */
    method ReadBase64(line: dstr) returns (err: Error)
      requires Valid() && base64.Room(|line|)
      modifies this`messageStarted, this`fed, base64, buffer
      ensures Valid()
      ensures (Abstract(), err) == TakeBase64(old(Abstract()), line)
    {
      hide TakeAll, DecodeCall;
      var ok := base64.Append(line);
      DecodeLeavesLess(base64.data);
      err := B642BinStream(base64, buffer);
      if err != E_NONE {
        Reset();
        return E_INTERNAL;
      }
    }

    /** A line of base64; `more` says whether the loop of decrypter_update goes on. */
    method ReadLine(line: dstr, out: Dstr) returns (err: Error, more: bool)
      requires Valid() && out !in {base64, buffer, tag} && !out.fixedSize
      requires cipher.Opens() && base64.Room(|line|)
      modifies this, base64, buffer, out
      ensures Valid()
      ensures var (s, plain, e, m) := TakeLine(old(Abstract()), line, cipher, kp);
        && err == e && more == m
        && out.data == old(out.data) + plain
        && Abstract() == s
    {
      hide TakeBase64, ParseAll, Decrypt;
      more := false;
      err := ReadBase64(line);
      if err != E_NONE {
        return;
      }
      if !messageStarted {
        err := ParseMetadata();
        if err != E_NONE {
          Reset();
          return;
        }
      }
      if messageStarted {
        if |buffer.data| == 0 {
          return E_NONE, false;
        }
        DecryptBuffer(out);
      }
      more := true;
    }

    /** The outcome of the lines read so far and of those to come is the outcome of the call. */
    ghost predicate Ahead(o: Outcome, plain: dstr, read: nat, x: dstr, out: dstr)
      reads this, base64, buffer, tag
    {
      |base64.data| <= BUFFER_SIZE
      && var o' := TakeLines(Abstract(), x, cipher, kp);
      o.s == o'.s && o.err == o'.err && o.used == read + o'.used && plain + o.plain == out + o'.plain
    }

    /** The loop of decrypter_update, over the lines of `x`. */
    method ReadLines(x: dstr, out: Dstr) returns (err: Error, read: nat)
      requires Valid() && out !in {base64, buffer, tag} && !out.fixedSize
      requires cipher.Opens()
      modifies this, base64, buffer, tag, out
      ensures Valid()
      ensures var o := TakeLines(old(Abstract()), x, cipher, kp);
        && err == o.err
        && out.data == old(out.data) + o.plain
        && Abstract() == o.s
        && (err == E_NONE ==> read == o.used <= |x|)
    {
      hide TakeLines, TakeLine, TakeTag, Find, HeldBack;
      read := 0;
      err := E_NONE;
      ghost var o := TakeLines(Abstract(), x, cipher, kp);
      assert x[0..] == x;
      while read < |x|
        invariant read <= |x| && Valid() && err == E_NONE
        invariant Ahead(o, old(out.data), read, x[read..], out.data)
        decreases |x| - read
      {
        var sub := x[read..];
        LinesTurn(Abstract(), sub, cipher, kp);
        if tagFound {
          return E_NONE, |x|;
        }
        var free := base64.size - |base64.data|;
        if free == 0 {
          Reset();
          err := E_PARAM;
          return;
        }
        var pos, _ := DstrFind(sub, [[NEWLINE]]);
        if pos.None? {
          return;
        }
        var n := Min(free, pos.value.pos + 1);
        var line := sub[..n];
        if line[0] == EQUALS {
          err := ReadTagLine(line, |sub|);
          read := |x|;
          return;
        }
        TakeLineBound(Abstract(), line, cipher, kp);
        ghost var before := out.data;
        var more;
        err, more := ReadLine(line, out);
        read := read + n;
        if err != E_NONE || !more {
          return;
        }
        assert sub[n..] == x[read..];
        Assoc(before, out.data[|before|..], TakeLines(Abstract(), x[read..], cipher, kp).plain);
      }
      assert x[read..] == [];
      LinesTurn(Abstract(), [], cipher, kp);
    }

    /** decrypter_update */
    method Update(text: Dstr, out: Dstr) returns (err: Error)
      requires Valid() && text != out && text !in {base64, buffer, tag}
      requires out !in {base64, buffer, tag} && !out.fixedSize
      requires cipher.Opens()
      modifies this, base64, buffer, tag, text, out
      ensures Valid()
      ensures var o := UpdateOf(old(Abstract()), old(text.data), cipher, kp);
        && err == o.err
        && out.data == old(out.data) + o.plain
        && Abstract() == o.s
        && text.data == if err == E_NONE then old(text.data)[o.used..] else old(text.data)
    {
      hide TakeLines, PemHeader;
      var header := PemHeader();
      var read := 0;
      if !headerFound {
        if |text.data| < |header| {
          return E_NONE;
        }
        if text.data[..|header|] != header {
          Reset();
          return E_PARAM;
        }
        headerFound := true;
        read := |header|;
      }
      var used;
      err, used := ReadLines(text.data[read..], out);
      if err != E_NONE {
        return;
      }
      text.LeftShift(read + used);
    }

    /** decrypter_finish */
    method Finish(out: Dstr) returns (err: Error)
      requires Valid() && out !in {base64, buffer, tag} && !out.fixedSize
      modifies out
      ensures Valid()
      ensures var (plain, e) := FinishOf(Abstract(), cipher);
        err == e && out.data == old(out.data) + plain
    {
      if !messageStarted {
        return E_PARAM;
      }
      if !cipher.Verifies(session, iv, fed, tag.data) {
        return E_SSL;
      }
      var ok := out.Append(cipher.openFinal(session, iv, fed));
      err := E_NONE;
    }
  }

  /** One turn of the loop over the lines. */
  lemma LinesTurn(s: State, x: dstr, c: Cipher, me: dstr)
    requires |s.base64| <= BUFFER_SIZE
    ensures TakeLines(s, x, c, me) == if x == [] then Outcome(s, 0, [], E_NONE) else LinesAfterTurn(s, x, c, me)
  {
    hide TakeLine, TakeTag, Find;
  }

  lemma BlockRestIsSuffix(t: dstr, sep: byte)
    ensures var b := ReadBlock(t, sep); b.Got? ==> |b.rest| < |t| && b.rest == t[|t| - |b.rest|..]
  {
    hide Find;
  }

  lemma ParseTurn(p: Parser, me: dstr, unwrap: (dstr, dstr) -> Option<dstr>)
    ensures ParseAll(p, me, unwrap)
         == if |p.buffer| < LONGEST_TAG_LEN then Parsed(p, E_NONE) else AfterTurn(p, me, unwrap)
  {
    hide ParseLine;
  }
}
