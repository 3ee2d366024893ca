/** decrypter_parse_metadata of libcrypto/crypto.c: the incremental parser of the lines that
    precede the ciphertext. */
module MetadataParser {
  import opened Bytes
  import opened Recode
  import opened Decimal
  import opened EnvelopeFormat

  const TAGS: seq<dstr> := [TAG_V, TAG_R, TAG_IV, TAG_M]
  const LONGEST_TAG_LEN: nat := 3

  /** The parser's part of a decrypter_t, with the message key once the message has started. */
  datatype Parser = Parser(
    buffer: dstr, versionFound: bool, keyFound: bool, ivFound: bool, started: bool,
    encKey: dstr, iv: dstr, session: dstr, recips: seq<dstr>)

  /** Reading a length-prefixed block: there may not be enough text yet, it may be malformed, or
      there is a block, and the text after its separator. */
  datatype Block = More | Bad | Got(block: dstr, rest: dstr)

  function ReadBlock(t: dstr, sep: byte): (b: Block)
    ensures b.Got? ==> |b.rest| < |t|
  {
    var pos := IndexOf(t, COLON);
    if pos.None? then (if |t| <= 5 then More else Bad)
    else
      var len := ToUint(Sub(t, 0, pos.value));
      if len.None? then Bad
      else
        var left := Sub(t, pos.value + 1, 0);
        if |left| < len.value + 1 then More
        else if left[len.value] != sep then Bad
        else Got(Sub(left, 0, len.value), Sub(left, len.value + 1, 0))
  }

  /** One line: wait for more text, fail, or go on behind it. */
  datatype Turn = Wait | Fail(err: Error) | Next(p: Parser)

  /** What a complete line changes, apart from the buffer. */
  function Effect(p: Parser, item: Item, me: dstr): (p': Parser) {
    match item
    case V => p.(versionFound := true)
    case R(fpr, sealed) =>
      var p1 := if fpr == me then p.(keyFound := true, encKey := sealed) else p;
      p1.(recips := p1.recips + [fpr])
    case I(iv) => p.(ivFound := true, iv := iv)
  }

  function ParseVersion(p: Parser, t: dstr, me: dstr): (turn: Turn) {
    var pos := IndexOf(t, NEWLINE);
    if pos.None? then (if |t| <= 4 then Wait else Fail(E_PARAM))
    else if ToUint(Sub(t, 0, pos.value)) != Some(1) then Fail(E_PARAM)
    else Next(Effect(p, V, me).(buffer := t[pos.value + 1..]))
  }

  function ParseRecip(p: Parser, t: dstr, me: dstr): (turn: Turn) {
    match ReadBlock(t, COLON)
    case More => Wait
    case Bad => Fail(E_PARAM)
    case Got(hash, left) =>
      match ReadBlock(left, NEWLINE)
      case More => Wait
      case Bad => Fail(E_PARAM)
      case Got(key, rest) => Next(Effect(p, R(hash, key), me).(buffer := rest))
  }

  function ParseIv(p: Parser, t: dstr, me: dstr): (turn: Turn) {
    match ReadBlock(t, NEWLINE)
    case More => Wait
    case Bad => Fail(E_PARAM)
    case Got(iv, rest) =>
      if |iv| != CIPHER_IV_LEN then Fail(E_PARAM) else Next(Effect(p, I(iv), me).(buffer := rest))
  }

  function ParseStart(p: Parser, me: dstr, unwrap: (dstr, dstr) -> Option<dstr>): (turn: Turn) {
    if !p.keyFound then Fail(E_NOT4ME)
    else if !p.ivFound then Fail(E_PARAM)
    else
      var session := unwrap(me, p.encKey);
      if session.None? then Fail(E_SSL)
      else Next(p.(started := true, session := session.value,
                   buffer := p.buffer[Min(2, |p.buffer|)..]))
  }

  /** One turn of the loop: a line must start with a tag, and the first with the version's. */
  function ParseLine(p: Parser, me: dstr, unwrap: (dstr, dstr) -> Option<dstr>): (turn: Turn)
    requires |p.buffer| >= LONGEST_TAG_LEN
    ensures turn.Next? ==> |turn.p.buffer| < |p.buffer|
  {
    var m := Find(p.buffer, 0, TAGS);
    if m.None? || m.value.pos > 0 then Fail(E_PARAM)
    else if !p.versionFound && m.value.which != 0 then Fail(E_PARAM)
    else if m.value.which == 0 then ParseVersion(p, Sub(p.buffer, 2, 0), me)
    else if m.value.which == 1 then ParseRecip(p, Sub(p.buffer, 2, 0), me)
    else if m.value.which == 2 then ParseIv(p, Sub(p.buffer, 3, 0), me)
    else ParseStart(p, me, unwrap)
  }

  datatype Parsed = Parsed(p: Parser, err: Error)

  function ParseAll(p: Parser, me: dstr, unwrap: (dstr, dstr) -> Option<dstr>): (r: Parsed)
    decreases |p.buffer|, 1
  {
    if |p.buffer| < LONGEST_TAG_LEN then Parsed(p, E_NONE) else AfterTurn(p, me, unwrap)
  }

  /** One turn of the loop, and what comes after it. */
  function AfterTurn(p: Parser, me: dstr, unwrap: (dstr, dstr) -> Option<dstr>): (r: Parsed)
    requires |p.buffer| >= LONGEST_TAG_LEN
    decreases |p.buffer|, 0
  {
    match ParseLine(p, me, unwrap)
    case Wait => Parsed(p, E_NONE)
    case Fail(err) => Parsed(p, err)
    case Next(p') => if p'.started then Parsed(p', E_NONE) else ParseAll(p', me, unwrap)
  }

  /* ---------- reading back what the encrypter prints ---------- */

  lemma SubFront(t: dstr, n: nat)
    requires 0 < n <= |t|
    ensures Sub(t, 0, n) == t[..n]
  {
  }

  lemma SubRest(t: dstr, n: nat)
    requires n <= |t|
    ensures Sub(t, n, 0) == t[n..]
  {
  }

  /** A complete block is read back, whatever bytes it holds and whatever follows it. */
  lemma BlockReadsBack(block: dstr, sep: byte, rest: dstr)
    requires block != [] && |block| <= UINT_MAX
    ensures ReadBlock(BlockText(block, sep) + rest, sep) == Got(block, rest)
  {
    hide Printed, ToUint, IndexOf, Sub;
    var digits := Printed(|block|);
    PrintedDenotes(|block|);
    PrintedReadsBack(|block|);
    var t := BlockText(block, sep) + rest;
    var left := block + [sep] + rest;
    assert t == digits + ([COLON] + left);
    assert t[..|digits|] == digits && t[|digits|] == COLON && t[|digits| + 1..] == left;
    IndexOfUnique(t, COLON, |digits|);
    SubFront(t, |digits|);
    SubRest(t, |digits| + 1);
    SubFront(left, |block|);
    SubRest(left, |block| + 1);
    assert left[..|block|] == block && left[|block|] == sep && left[|block| + 1..] == rest;
  }

  /** An incomplete block is waited for. */
  lemma BlockWaits(block: dstr, sep: byte, t: dstr)
    requires |block| < 10000
    requires t < BlockText(block, sep)
    ensures ReadBlock(t, sep) == More
  {
    hide Printed, ToUint, IndexOf, Sub;
    var digits := Printed(|block|);
    PrintedDenotes(|block|);
    PrintedReadsBack(|block|);
    var whole := BlockText(block, sep);
    assert whole[..|digits|] == digits && whole[|digits|] == COLON;
    if |t| <= |digits| {
      assert t == digits[..|t|];
      assert forall i :: 0 <= i < |t| ==> t[i] == digits[i] && digits[i] in digits;
      IndexOfAbsent(t, COLON);
    } else {
      assert t[..|digits|] == digits && t[|digits|] == COLON;
      IndexOfUnique(t, COLON, |digits|);
      SubFront(t, |digits|);
      SubRest(t, |digits| + 1);
    }
  }

  /** The tag at the start of a line, once three bytes are there. */
  lemma TagFound(t: dstr, which: nat)
    requires which < 4 && |t| >= LONGEST_TAG_LEN && TAGS[which] <= t
    ensures Find(t, 0, TAGS) == Some(Match(0, which))
  {
    hide Find, MatchesAt;
    TagMatches(t, which);
    WhichIsFirst(t, 0, TAGS, which);
    FindHere(t, 0, TAGS);
  }

  lemma TagMatches(t: dstr, which: nat)
    requires which < 4 && |t| >= LONGEST_TAG_LEN && TAGS[which] <= t
    ensures MatchesAt(t, 0, TAGS[which])
    ensures forall p :: 0 <= p < which ==> !MatchesAt(t, 0, TAGS[p])
  {
    assert t[0..|TAGS[which]|] == TAGS[which];
    forall p | 0 <= p < which
      ensures !MatchesAt(t, 0, TAGS[p])
    {
      assert t[0..|TAGS[p]|][0] == t[0] == TAGS[which][0];
    }
  }

  function TagIndex(item: Item): (which: nat) {
    match item
    case V => 0
    case R(_, _) => 1
    case I(_) => 2
  }

  /** A line behind its tag. */
  function Body(item: Item): (t: dstr) {
    match item
    case V => Printed(1) + [NEWLINE]
    case R(fpr, sealed) => BlockText(fpr, COLON) + BlockText(sealed, NEWLINE)
    case I(iv) => BlockText(iv, NEWLINE)
  }

  lemma ItemParts(item: Item)
    ensures ItemText(item) == TAGS[TagIndex(item)] + Body(item)
    ensures |TAGS[TagIndex(item)]| == if item.I? then 3 else 2
    ensures Body(item) != []
  {
    hide Printed;
  }

  lemma BlockLengths(item: Item)
    requires Readable(item)
    ensures match item
            case V => true
            case R(fpr, sealed) => 0 < |fpr| < 10000 && 0 < |sealed| < 10000
            case I(iv) => 0 < |iv| < 10000
  {
    hide Printed;
  }

  /** The parser takes a complete line off its buffer and nothing else, whatever follows. */
  lemma LineReadsBack(p: Parser, item: Item, rest: dstr, me: dstr,
                      unwrap: (dstr, dstr) -> Option<dstr>)
    requires Readable(item) && (item.V? || p.versionFound)
    requires p.buffer == ItemText(item) + rest
    ensures |p.buffer| >= LONGEST_TAG_LEN
    ensures ParseLine(p, me, unwrap) == Next(Effect(p, item, me).(buffer := rest))
  {
    hide Find, ReadBlock, Sub, ItemText, ToUint, Printed, BlockText, ParseVersion;
    ItemParts(item);
    BlockLengths(item);
    var tag, body := TAGS[TagIndex(item)], Body(item);
    assert p.buffer == tag + (body + rest);
    TagFound(p.buffer, TagIndex(item));
    SubRest(p.buffer, |tag|);
    assert p.buffer[|tag|..] == body + rest;
    match item
    case V =>
      VersionReadsBack(p, rest, me);
    case R(fpr, sealed) =>
      Assoc(BlockText(fpr, COLON), BlockText(sealed, NEWLINE), rest);
      BlockReadsBack(fpr, COLON, BlockText(sealed, NEWLINE) + rest);
      BlockReadsBack(sealed, NEWLINE, rest);
    case I(iv) =>
      BlockReadsBack(iv, NEWLINE, rest);
  }

  lemma VersionReadsBack(p: Parser, rest: dstr, me: dstr)
    ensures ParseVersion(p, Printed(1) + [NEWLINE] + rest, me)
         == Next(Effect(p, V, me).(buffer := rest))
  {
    hide Printed, ToUint, IndexOf, Sub;
    var digits := Printed(1);
    var t := digits + [NEWLINE] + rest;
    PrintedDenotes(1);
    PrintedReadsBack(1);
    assert t[..|digits|] == digits && t[|digits| + 1..] == rest;
    IndexOfUnique(t, NEWLINE, |digits|);
    SubFront(t, |digits|);
  }

  lemma VersionWaits(p: Parser, t: dstr, me: dstr)
    requires t < Printed(1) + [NEWLINE]
    ensures ParseVersion(p, t, me) == Wait
  {
    hide Printed, IndexOf, Sub;
    PrintedDenotes(1);
    var digits := Printed(1);
    assert t == digits[..|t|];
    assert forall i :: 0 <= i < |t| ==> t[i] == digits[i] && digits[i] in digits;
    IndexOfAbsent(t, NEWLINE);
    assert |t| <= 4;
  }

  /** The parser leaves an incomplete line alone. */
  lemma LineWaits(p: Parser, item: Item, me: dstr, unwrap: (dstr, dstr) -> Option<dstr>)
    requires Readable(item) && (item.V? || p.versionFound)
    requires |p.buffer| >= LONGEST_TAG_LEN && p.buffer < ItemText(item)
    ensures ParseLine(p, me, unwrap) == Wait
  {
    hide Find, ReadBlock, Sub, ItemText, ToUint, Printed, BlockText, ParseVersion;
    ItemParts(item);
    BlockLengths(item);
    var tag, body := TAGS[TagIndex(item)], Body(item);
    var t := p.buffer[|tag|..];
    assert p.buffer == tag + t && t < body;
    TagFound(p.buffer, TagIndex(item));
    SubRest(p.buffer, |tag|);
    match item
    case V =>
      VersionWaits(p, t, me);
    case R(fpr, sealed) =>
      RecipWaits(t, fpr, sealed);
    case I(iv) =>
      BlockWaits(iv, NEWLINE, t);
  }

  lemma RecipWaits(t: dstr, fpr: dstr, sealed: dstr)
    requires 0 < |fpr| < 10000 && 0 < |sealed| < 10000
    requires t < BlockText(fpr, COLON) + BlockText(sealed, NEWLINE)
    ensures ReadBlock(t, COLON) == More
         || (ReadBlock(t, COLON).Got? && ReadBlock(ReadBlock(t, COLON).rest, NEWLINE) == More)
  {
    hide ReadBlock, BlockText;
    var first := BlockText(fpr, COLON);
    if |t| < |first| {
      assert t < first;
      BlockWaits(fpr, COLON, t);
    } else {
      var left := t[|first|..];
      assert t == first + left && left < BlockText(sealed, NEWLINE);
      BlockReadsBack(fpr, COLON, left);
      BlockWaits(sealed, NEWLINE, left);
    }
  }

  /* ---------- the parser inverts the printer ---------- */

  /** What all of some lines change. */
  function Effects(p: Parser, items: seq<Item>, me: dstr): (p': Parser)
    decreases |items|
  {
    if items == [] then p else Effects(Effect(p, items[0], me), items[1..], me)
  }

  /** The lines a parser may still expect. */
  ghost predicate Expected(p: Parser, items: seq<Item>) {
    && !p.started
    && (forall i :: 0 <= i < |items| ==> Readable(items[i]))
    && (p.versionFound || (items != [] && items[0].V?))
  }

  /** The buffer holds the beginning of what is still to be parsed; `future` is the rest of it. */
  ghost predicate Holds(p: Parser, items: seq<Item>, ciphertext: dstr, future: dstr) {
    Expected(p, items) && p.buffer + future == BinaryText(items, ciphertext)
  }

  /** Whether the message can start once all lines are read. */
  ghost predicate CanStart(p: Parser, items: seq<Item>, me: dstr,
                           unwrap: (dstr, dstr) -> Option<dstr>) {
    var all := Effects(p, items, me);
    all.keyFound ==> all.ivFound && unwrap(me, all.encKey).Some?
  }

  lemma EffectKeepsBuffer(p: Parser, item: Item, me: dstr, b: dstr)
    ensures Effect(p.(buffer := b), item, me) == Effect(p, item, me).(buffer := b)
    ensures Effect(p, item, me).started == p.started
    ensures Effect(p, item, me).buffer == p.buffer
  {
  }

  lemma {:induction false} EffectsKeepBuffer(p: Parser, items: seq<Item>, me: dstr, b: dstr)
    ensures Effects(p.(buffer := b), items, me) == Effects(p, items, me).(buffer := b)
    decreases |items|
  {
    hide Effect;
    if items != [] {
      EffectKeepsBuffer(p, items[0], me, b);
      EffectsKeepBuffer(Effect(p, items[0], me), items[1..], me, b);
    }
  }

  /** However much of the metadata has arrived, the parser ends in one of three ways: it waits,
      having taken off the complete lines (all of them, if everything has arrived); or it has
      started the message with the whole metadata behind it; or it has read all of the metadata
      without finding its key. */
  lemma {:induction false} ParseInverts(p: Parser, items: seq<Item>, ciphertext: dstr, future: dstr,
                                        me: dstr, unwrap: (dstr, dstr) -> Option<dstr>)
    returns (left: seq<Item>)
    requires Holds(p, items, ciphertext, future) && CanStart(p, items, me, unwrap)
    ensures var r := ParseAll(p, me, unwrap);
      var all := Effects(p, items, me);
      if r.err == E_NOT4ME then !all.keyFound && ciphertext != []
      else if r.p.started then
        && r.err == E_NONE && all.keyFound && left == []
        && r.p == all.(started := true, session := unwrap(me, all.encKey).value, buffer := r.p.buffer)
        && r.p.buffer != [] && r.p.buffer + future == ciphertext
      else
        && r.err == E_NONE
        && Holds(r.p, left, ciphertext, future)
        && Effects(r.p, left, me) == all.(buffer := r.p.buffer)
        && |r.p.buffer| <= PRE64_SIZE
        && (future == [] ==> left == [] && ciphertext == [])
    decreases |items|
  {
    hide ParseLine, Effect, BinaryText, ItemText, Readable;
    left := items;
    BinaryHead(items, ciphertext);
    if items == [] {
      ParseMessageStart(p, ciphertext, future, me, unwrap);
      return;
    }
    var text := ItemText(items[0]);
    var later := BinaryText(items[1..], ciphertext);
    EffectsKeepBuffer(p, items, me, p.buffer);
    assert p.(buffer := p.buffer) == p;
    if |p.buffer| < |text| {
      assert p.buffer < text by { PrefixOfFirst(p.buffer, future, text, later); }
      ItemLength(items[0]);
      if |p.buffer| >= LONGEST_TAG_LEN {
        LineWaits(p, items[0], me, unwrap);
      }
    } else {
      var rest := p.buffer[|text|..];
      PrefixSplit(p.buffer, future, text, later);
      LineReadsBack(p, items[0], rest, me, unwrap);
      var next := Effect(p, items[0], me).(buffer := rest);
      EffectKeepsBuffer(p, items[0], me, rest);
      VersionStaysFound(p, items[0], me);
      EffectsKeepBuffer(Effect(p, items[0], me), items[1..], me, rest);
      left := ParseInverts(next, items[1..], ciphertext, future, me, unwrap);
    }
  }

  lemma BinaryHead(items: seq<Item>, ciphertext: dstr)
    ensures BinaryText(items, ciphertext)
         == if items == [] then TAG_M + ciphertext
            else ItemText(items[0]) + BinaryText(items[1..], ciphertext)
  {
    hide ItemText;
  }

  lemma ItemLength(item: Item)
    requires Readable(item)
    ensures 3 <= |ItemText(item)| <= PRE64_SIZE
  {
    hide Printed;
  }

  lemma VersionStaysFound(p: Parser, item: Item, me: dstr)
    requires p.versionFound || item.V?
    ensures Effect(p, item, me).versionFound && Effect(p, item, me).started == p.started
  {
  }

  lemma PrefixOfFirst(b: dstr, future: dstr, first: dstr, later: dstr)
    requires b + future == first + later && |b| < |first|
    ensures b < first
  {
    assert b == (b + future)[..|b|];
    assert first[..|b|] == (first + later)[..|b|];
  }

  lemma PrefixSplit(b: dstr, future: dstr, first: dstr, later: dstr)
    requires b + future == first + later && |b| >= |first|
    ensures b == first + b[|first|..] && b[|first|..] + future == later
  {
    assert first == (first + later)[..|first|] == (b + future)[..|first|] == b[..|first|];
    assert later == (first + later)[|first|..] == (b + future)[|first|..];
  }

  /** The end of the metadata: the parser needs three bytes, so a bare "M:" starts nothing. */
  lemma ParseMessageStart(p: Parser, ciphertext: dstr, future: dstr, me: dstr,
                          unwrap: (dstr, dstr) -> Option<dstr>)
    requires Holds(p, [], ciphertext, future) && CanStart(p, [], me, unwrap)
    ensures var r := ParseAll(p, me, unwrap);
      if |p.buffer| < LONGEST_TAG_LEN then r == Parsed(p, E_NONE)
      else if !p.keyFound then r.err == E_NOT4ME
      else r == Parsed(p.(started := true, session := unwrap(me, p.encKey).value,
                          buffer := p.buffer[2..]), E_NONE)
    ensures |p.buffer| < LONGEST_TAG_LEN ==> (future == [] ==> ciphertext == [])
    ensures |p.buffer| >= LONGEST_TAG_LEN ==>
              p.buffer[2..] != [] && p.buffer[2..] + future == ciphertext
  {
    hide Find;
    BinaryHead([], ciphertext);
    if |p.buffer| >= LONGEST_TAG_LEN {
      PrefixSplit(p.buffer, future, TAG_M, ciphertext);
      TagFound(p.buffer, 3);
    } else {
      assert future == [] ==> p.buffer + future == p.buffer;
    }
  }
}
