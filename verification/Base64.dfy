/** The chunked base64 codec of libdstr/common.c (the alphabet of section 4 of RFC 4648, plus line
    breaks on encoding, and tolerance for foreign characters on decoding). */
module Base64 {
  import opened Bytes

  /* ---------- encoding ---------- */

  function Digit(v: byte): (c: byte)
    requires v < 64
  {
    if v < 26 then 0x41 + v
    else if v < 52 then 0x61 + (v - 26)
    else if v < 62 then 0x30 + (v - 52)
    else if v == 62 then 0x2B
    else 0x2F
  }

  /** The four characters for one to three bytes; the missing bytes are zero. */
  function Quad(a: byte, b: byte, c: byte, n: nat): (q: dstr) {
    [Digit(0x3f & (a >> 2)),
     Digit((0x30 & (a << 4)) | (0x0f & (b >> 4))),
     if 2 > n then EQUALS else Digit((0x3c & (b << 2)) | (0x03 & (c >> 6))),
     if 3 > n then EQUALS else Digit(0x3f & c)]
  }

  function At(s: dstr, i: nat): (b: byte) {
    if i < |s| then s[i] else 0
  }

  /** The length of the next group of a string: three bytes, fewer only at its end. */
  function GroupLen(s: dstr): (n: nat) {
    Min(3, |s|)
  }

  /** How many bytes the current line already holds once `pos` bytes are encoded in lines of
      `chunk` bytes: the remainder of `pos`, by repeated subtraction. */
  function Column(pos: nat, chunk: nat): (col: nat)
    requires chunk > 0
    ensures col < chunk && col <= pos
  {
    if pos < chunk then pos else Column(pos - chunk, chunk)
  }

  lemma {:induction false} ColumnIsMod(pos: nat, chunk: nat)
    requires chunk > 0
    ensures Column(pos, chunk) == pos % chunk
  {
    if pos >= chunk {
      ColumnIsMod(pos - chunk, chunk);
      ModStep(pos, chunk);
    }
  }

  lemma ModStep(pos: nat, m: nat)
    requires 0 < m <= pos
    ensures pos % m == (pos - m) % m
  {
    var q, r := pos / m, pos % m;
    var q', r' := (pos - m) / m, (pos - m) % m;
    var d := q - q' - 1;
    assert d * m == r' - r by {
      assert q * m + r == pos;
      assert q' * m + r' == pos - m;
    }
    assert d >= 1 ==> d * m >= m;
    assert d <= -1 ==> d * m + m <= 0;
  }

  /** One group further: the column advances, or wraps when the line is full. */
  lemma {:induction false} ColumnStep(pos: nat, chunk: nat)
    requires chunk > 0 && chunk % 3 == 0 && pos % 3 == 0
    ensures Column(pos, chunk) % 3 == 0
    ensures Column(pos + 3, chunk) == NextColumn(chunk, Column(pos, chunk), 3)
  {
    if pos >= chunk {
      ColumnStep(pos - chunk, chunk);
    }
  }

  /** The column after a group of `n` bytes that starts at column `col`. */
  function NextColumn(chunk: nat, col: nat, n: nat): (next: nat) {
    if chunk == 0 || col + n >= chunk then 0 else col + n
  }

  /** The line break, if any, after a group of `n` bytes at column `col`. */
  function Break(chunk: nat, col: nat, n: nat, last: bool): (nl: dstr) {
    if chunk > 0 && (col + n >= chunk || last) then [NEWLINE] else []
  }

  /** The base64 text of `s`, which starts at column `col` of a line of `chunk` bytes; a `chunk`
      of 0 means no line breaks at all. */
  function Text(s: dstr, chunk: nat, col: nat): (t: dstr) {
    if s == [] then []
    else
      var n := GroupLen(s);
      (Quad(s[0], At(s, 1), At(s, 2), n) + Break(chunk, col, n, n == |s|))
      + Text(s[n..], chunk, NextColumn(chunk, col, n))
  }

  /** The first group of a text, with its line break. */
  function FirstChars(s: dstr, chunk: nat, col: nat): (t: dstr)
    requires s != []
  {
    Quad(s[0], At(s, 1), At(s, 2), GroupLen(s))
    + Break(chunk, col, GroupLen(s), GroupLen(s) == |s|)
  }

  lemma TextStep(s: dstr, chunk: nat, col: nat)
    requires s != []
    ensures Text(s, chunk, col)
         == FirstChars(s, chunk, col) + Text(s[GroupLen(s)..], chunk, NextColumn(chunk, col, GroupLen(s)))
  {
    hide Quad;
  }

  /** The number of bytes that a line of `width` characters holds. */
  function Chunk(width: nat): (chunk: nat) {
    width / 4 * 3
  }

  /** How much of its input one call encodes: without `force`, only full lines. */
  function EncodeEnd(len: nat, chunk: nat, force: bool): (end: nat)
    ensures end <= len
  {
    if chunk > 0 && !force then len - Column(len, chunk) else len
  }

  lemma {:induction false} FullLines(len: nat, chunk: nat)
    requires chunk > 0
    ensures Column(len - Column(len, chunk), chunk) == 0
    ensures chunk % 3 == 0 ==> (len - Column(len, chunk)) % 3 == 0
  {
    if len >= chunk {
      FullLines(len - chunk, chunk);
    }
  }

  /** bin2b64_quiet */
  method Bin2B64Quiet(bin: dstr, b64: Dstr, width: nat, force: bool)
    returns (err: Error, consumed: nat)
    requires width == 0 || width >= 4
    requires b64.Room(0)
    modifies b64
    ensures err == E_NONE || err == E_FIXEDSIZE
    ensures err == E_NONE <==>
            old(b64.Room(|Text(bin[..EncodeEnd(|bin|, Chunk(width), force)], Chunk(width), 0)|))
    ensures err == E_NONE ==> consumed == EncodeEnd(|bin|, Chunk(width), force)
    ensures err == E_NONE ==>
              b64.data == old(b64.data) + Text(bin[..consumed], Chunk(width), 0)
    ensures err != E_NONE ==> consumed == 0 && old(b64.data) <= b64.data
  {
    consumed := 0;
    var chunk := width / 4 * 3;
    var end := |bin|;
    if width > 0 {
      ColumnIsMod(|bin|, chunk);
      FullLines(|bin|, chunk);
      var endOfFullLines := |bin| - |bin| % chunk;
      end := if force then |bin| else endOfFullLines;
    }
    var ok := EncodeUntil(bin, b64, chunk, end);
    if !ok {
      return E_FIXEDSIZE, 0;
    }
    consumed := end;
    err := E_NONE;
  }

  /** The loop of bin2b64_quiet, up to its end condition. */
  method EncodeUntil(bin: dstr, b64: Dstr, chunk: nat, end: nat) returns (ok: bool)
    requires chunk % 3 == 0
    requires end <= |bin|
    requires end < |bin| ==> end % 3 == 0 && chunk > 0 && Column(end, chunk) == 0
    requires b64.Room(0)
    modifies b64
    ensures ok == old(b64.Room(|Text(bin[..end], chunk, 0)|))
    ensures ok ==> b64.data == old(b64.data) + Text(bin[..end], chunk, 0)
    ensures old(b64.data) <= b64.data
  {
    hide Quad, Text;
    var ch: seq<byte> := [0, 0, 0];
    var idx := 0;
    ghost var s := bin[..end];
    ghost var from, groups := 0, 0;
    assert s[0..] == s;
    var i := 0;
    ok := true;
    while i < end
      invariant 0 <= from <= i <= end == |s|
      invariant b64.Room(0) && old(b64.data) <= b64.data
      invariant b64.data + Text(s[from..], chunk, ColumnAt(from, chunk))
             == old(b64.data) + Text(s, chunk, 0)
      invariant idx == i - from < 3
      invariant Partial(ch, s, from, idx)
      invariant from == 3 * groups || from == |bin|
      invariant i == end ==> from == i
    {
      ch := ch[idx := bin[i]];
      idx := idx + 1;
      if idx == 3 || i == |bin| - 1 {
        NextGroup(s, |bin|, chunk, groups, i + 1, ch);
        Assoc(b64.data, Flushed(ch, idx, chunk, i + 1, |bin|),
              Text(s[i + 1..], chunk, ColumnAt(i + 1, chunk)));
        var quad := Quad(ch[0], ch[1], ch[2], idx);
        var nl := LineEnds(chunk, i + 1, |bin|);
        ok := AppendGroup(b64, quad, nl);
        if !ok {
          return;
        }
        ch, idx, from, groups := [0, 0, 0], 0, i + 1, groups + 1;
      }
      i := i + 1;
    }
    assert s[from..] == [];
    TextOfNothing(chunk, ColumnAt(from, chunk));
  }

  lemma TextOfNothing(chunk: nat, col: nat)
    ensures Text([], chunk, col) == []
  {
  }

  /** Whether bin2b64_quiet appends a line break after byte `end` of `len`. */
  method LineEnds(chunk: nat, end: nat, len: nat) returns (nl: bool)
    ensures nl == EndsLine(chunk, end, len)
  {
    nl := false;
    if chunk > 0 {
      ColumnIsMod(end, chunk);
      nl := end % chunk == 0 || end == len;
    }
  }

  ghost predicate EndsLine(chunk: nat, end: nat, len: nat) {
    chunk > 0 && (Column(end, chunk) == 0 || end == len)
  }

  ghost function ColumnAt(pos: nat, chunk: nat): (col: nat) {
    if chunk == 0 then 0 else Column(pos, chunk)
  }

  /** The bytes `ch` collected of the group at `from`, zeros after them. */
  ghost predicate Partial(ch: dstr, s: dstr, from: nat, n: nat) {
    |ch| == 3 && from + n <= |s| && n <= 3
    && ch[0] == (if n > 0 then s[from] else 0)
    && ch[1] == (if n > 1 then s[from + 1] else 0)
    && ch[2] == (if n > 2 then s[from + 2] else 0)
  }

  /** What is flushed after byte `to`: the group in `ch`, then a line break where one is due. */
  ghost function Flushed(ch: dstr, n: nat, chunk: nat, to: nat, len: nat): (t: dstr)
    requires |ch| == 3
  {
    Quad(ch[0], ch[1], ch[2], n) + if EndsLine(chunk, to, len) then [NEWLINE] else []
  }

  /** The flushed group is what the text still to be written starts with. */
  lemma NextGroup(s: dstr, len: nat, chunk: nat, groups: nat, to: nat, ch: dstr)
    requires chunk % 3 == 0
    requires 3 * groups < to <= |s| <= len
    requires |s| < len ==> chunk > 0 && Column(|s|, chunk) == 0
    requires to - 3 * groups == 3 || (to - 3 * groups < 3 && to == len)
    requires Partial(ch, s, 3 * groups, to - 3 * groups)
    ensures Text(s[3 * groups..], chunk, ColumnAt(3 * groups, chunk))
         == Flushed(ch, to - 3 * groups, chunk, to, len) + Text(s[to..], chunk, ColumnAt(to, chunk))
  {
    hide Quad, Text;
    var from := 3 * groups;
    var rest, n, col := s[from..], to - from, ColumnAt(from, chunk);
    assert rest[n..] == s[to..];
    assert ch[0] == rest[0] && ch[1] == At(rest, 1) && ch[2] == At(rest, 2);
    TextStep(rest, chunk, col);
    if chunk > 0 {
      ColumnStep(from, chunk);
    }
    if n < 3 {
      assert s[to..] == [];
    }
    if to == |s| {
      TextOfNothing(chunk, NextColumn(chunk, col, n));
      TextOfNothing(chunk, ColumnAt(to, chunk));
    }
  }

  /** The flush of one group: its four characters, then a line break where one is due. */
  method AppendGroup(b64: Dstr, quad: dstr, nl: bool) returns (ok: bool)
    requires b64.Room(0)
    modifies b64
    ensures ok == old(b64.Room(|quad| + if nl then 1 else 0))
    ensures ok ==> b64.data == old(b64.data) + (quad + if nl then [NEWLINE] else [])
    ensures old(b64.data) <= b64.data
  {
    ok := b64.Append(quad);
    if ok && nl {
      ok := b64.Append([NEWLINE]);
    }
  }

  /** bin2b64_stream: encode what may be encoded yet and keep the rest. */
  method Bin2B64Stream(bin: Dstr, b64: Dstr, width: nat, force: bool) returns (err: Error)
    requires width == 0 || width >= 4
    requires bin != b64 && b64.Room(0)
    modifies bin, b64
    ensures err == E_NONE || err == E_FIXEDSIZE
    ensures err == E_NONE <==>
            old(b64.Room(|EncodeCall(bin.data, Chunk(width), force).out|))
    ensures err == E_NONE ==>
              && b64.data == old(b64.data) + EncodeCall(old(bin.data), Chunk(width), force).out
              && bin.data == EncodeCall(old(bin.data), Chunk(width), force).rest
    ensures err != E_NONE ==> bin.data == old(bin.data) && old(b64.data) <= b64.data
  {
    var consumed;
    err, consumed := Bin2B64Quiet(bin.data, b64, width, force);
    if err == E_NONE {
      bin.LeftShift(consumed);
    }
  }

  /** What one call of a stream function appends, and what it leaves for the next call. */
  datatype Call = Call(out: dstr, rest: dstr)

  function EncodeCall(pending: dstr, chunk: nat, force: bool): (c: Call) {
    var end := EncodeEnd(|pending|, chunk, force);
    Call(Text(pending[..end], chunk, 0), pending[end..])
  }

  /** A whole stream: every piece is appended to the pending bytes and encoded, and only the
      last piece forces the end. */
  function EncodeStream(pending: dstr, pieces: seq<dstr>, chunk: nat): (c: Call)
    requires pieces != []
    decreases |pieces|
  {
    var c := EncodeCall(pending + pieces[0], chunk, |pieces| == 1);
    if |pieces| == 1 then c
    else
      var later := EncodeStream(c.rest, pieces[1..], chunk);
      Call(c.out + later.out, later.rest)
  }

  /** Text may be cut where a line ends. */
  lemma {:induction false} TextSplit(a: dstr, b: dstr, chunk: nat, col: nat)
    requires chunk > 0 && chunk % 3 == 0 && col % 3 == 0 && col < chunk
    requires |a| % 3 == 0 && Column(col + |a|, chunk) == 0
    ensures Text(a + b, chunk, col) == Text(a, chunk, col) + Text(b, chunk, 0)
    decreases |a|
  {
    hide Quad, Text;
    if a == [] {
      assert a + b == b;
      TextOfNothing(chunk, col);
    } else {
      var ab, next := a + b, NextColumn(chunk, col, 3);
      ColumnStep(col, chunk);
      ColumnShift(col, |a|, chunk);
      TextSplit(a[3..], b, chunk, next);
      TextStep(a, chunk, col);
      TextStep(ab, chunk, col);
      assert ab[3..] == a[3..] + b;
      assert |a| == 3 ==> col + 3 >= chunk;
      assert FirstChars(ab, chunk, col) == FirstChars(a, chunk, col);
      Assoc(FirstChars(a, chunk, col), Text(a[3..], chunk, next), Text(b, chunk, 0));
    }
  }

  lemma ColumnShift(col: nat, n: nat, chunk: nat)
    requires chunk > 0 && chunk % 3 == 0 && col % 3 == 0 && col < chunk && n >= 3
    ensures Column(col + n, chunk) == Column(NextColumn(chunk, col, 3) + (n - 3), chunk)
  {
    assert col + 3 <= chunk;
    if col + 3 == chunk {
      assert col + n >= chunk;
    }
  }

  /** However the bytes are cut into pieces, the stream's text is the text of all of them at once
      and nothing is left behind. */
  lemma {:induction false} EncodeStreamIsBatch(pending: dstr, pieces: seq<dstr>, chunk: nat)
    requires chunk > 0 && chunk % 3 == 0 && pieces != []
    ensures EncodeStream(pending, pieces, chunk) == Call(Text(pending + Flatten(pieces), chunk, 0), [])
    decreases |pieces|
  {
    hide Text;
    var all := pending + pieces[0];
    if |pieces| == 1 {
      assert pieces[1..] == [];
      assert Flatten(pieces) == pieces[0] + [];
      assert all[..|all|] == all && all[|all|..] == [];
      assert pending + Flatten(pieces) == all;
    } else {
      var end := EncodeEnd(|all|, chunk, false);
      var later := Flatten(pieces[1..]);
      EncodeStreamIsBatch(all[end..], pieces[1..], chunk);
      FullLines(|all|, chunk);
      TextSplit(all[..end], all[end..] + later, chunk, 0);
      assert all[..end] + (all[end..] + later) == pending + Flatten(pieces) by {
        assert all == all[..end] + all[end..];
      }
    }
  }

  /* ---------- decoding ---------- */

  /** The value of a base64 digit; padding and foreign characters have none. */
  function Value(c: byte): (v: Option<byte>) {
    if 0x41 <= c <= 0x5A then Some(c - 0x41)
    else if 0x61 <= c <= 0x7A then Some(c - 0x61 + 26)
    else if 0x30 <= c <= 0x39 then Some(c - 0x30 + 52)
    else if c == 0x2B then Some(62)
    else if c == 0x2F then Some(63)
    else None
  }

  function Byte0(d0: byte, d1: byte): (b: byte) { (d0 << 2) | (d1 >> 4) }

  function Byte1(d1: byte, d2: byte): (b: byte) { (d1 << 4) | (d2 >> 2) }

  function Byte2(d2: byte, d3: byte): (b: byte) { (d2 << 6) | d3 }

  /** The four digits being collected.  They are not cleared between groups, so a misplaced
      padding character leaves the digit of the group before in place. */
  datatype Digits = Digits(d0: byte, d1: byte, d2: byte, d3: byte) {
    function Put(i: nat, v: byte): (d: Digits) {
      if i == 0 then this.(d0 := v)
      else if i == 1 then this.(d1 := v)
      else if i == 2 then this.(d2 := v)
      else this.(d3 := v)
    }

    /** The bytes of a complete group with `skip` padding characters. */
    function Bytes(skip: nat): (b: dstr)
      ensures |b| == 3 - Min(skip, 2)
    {
      [Byte0(d0, d1)]
      + (if skip < 2 then [Byte1(d1, d2)] else [])
      + (if skip < 1 then [Byte2(d2, d3)] else [])
    }
  }

  /** The variables of the loop of b642bin_quiet. */
  datatype Decoding =
    Decoding(ch: Digits, idx: nat, skip: nat, out: dstr, pos: nat, total: nat, done: bool)

  const START: Decoding := Decoding(Digits(0, 0, 0, 0), 0, 0, [], 0, 0, false)

  /** One character; a group with padding ends the loop. */
  function Take(st: Decoding, c: byte): (r: Decoding)
    requires st.idx < 4
    ensures r.idx < 4
  {
    if st.done then st
    else
      var v := Value(c);
      var ch := if v.Some? then st.ch.Put(st.idx, v.value) else st.ch;
      var skip := if c == EQUALS then st.skip + 1 else st.skip;
      var idx := if v.Some? || c == EQUALS then st.idx + 1 else st.idx;
      if idx == 4 then
        Decoding(ch, 0, skip, st.out + ch.Bytes(skip), st.pos + 1, st.pos + 1, skip > 0)
      else
        Decoding(ch, idx, skip, st.out, st.pos + 1, st.total, false)
  }

  function TakeAll(st: Decoding, t: dstr): (r: Decoding)
    requires st.idx < 4
    ensures r.idx < 4
    decreases |t|
  {
    if t == [] then st else TakeAll(Take(st, t[0]), t[1..])
  }

  lemma PaddingHasNoValue()
    ensures Value(EQUALS) == None
  {
  }

  lemma {:induction false} TakeAllDone(st: Decoding, t: dstr)
    requires st.idx < 4 && st.done
    ensures TakeAll(st, t) == st
    decreases |t|
  {
    if t != [] {
      TakeAllDone(st, t[1..]);
    }
  }

  lemma {:induction false} TakeAllBounds(st: Decoding, t: dstr)
    requires st.idx < 4 && st.total <= st.pos
    ensures TakeAll(st, t).total <= TakeAll(st, t).pos <= st.pos + |t|
    ensures st.out <= TakeAll(st, t).out
    decreases |t|
  {
    hide Value, Digits.Put, Digits.Bytes;
    if t != [] {
      TakeAllBounds(Take(st, t[0]), t[1..]);
    }
  }

  /** As much of `room` as can be filled with groups of three bytes. */
  function FullGroups(room: int): (n: nat)
    ensures room >= 0 ==> n <= room < n + 3 && n % 3 == 0
  {
    if room < 0 then 0 else room / 3 * 3
  }

  /** When a group does not fit behind full groups, these are all that fit. */
  lemma NoMoreGroups(out: dstr, group: dstr, all: dstr, room: nat)
    requires out + group <= all && |group| <= 3 && |out| % 3 == 0
    requires |out| <= room < |out| + |group|
    ensures out == all[..FullGroups(room)]
  {
    assert out == (out + group)[..|out|] == all[..|out|];
  }

  /** b642bin_quiet.  A caller that passes no `consumed` wants the whole string to be base64, and
      is refused anything after the last group, be it a line break. */
  method B642BinQuiet(b64: dstr, bin: Dstr, wantConsumed: bool)
    returns (err: Error, consumed: nat)
    requires bin.Room(0)
    modifies bin
    ensures var r := TakeAll(START, b64);
      && (err == E_FIXEDSIZE <==> !old(bin.Room(|r.out|)))
      && (err == E_FIXEDSIZE ==> bin.data == old(bin.data) + r.out[..FullGroups(old(bin.size - |bin.data|))])
      && (err != E_FIXEDSIZE ==> bin.data == old(bin.data) + r.out)
      && (err != E_FIXEDSIZE ==>
            (err == E_PARAM <==> !wantConsumed && !(r.total == |b64| && r.idx == 0)))
      && (err == E_NONE && wantConsumed ==> consumed == r.total <= |b64|)
    ensures err == E_NONE || err == E_PARAM || err == E_FIXEDSIZE
    ensures old(bin.data) <= bin.data && bin.Room(0)
  {
    hide Value, Digits.Put, Digits.Bytes, FullGroups;
    var ch := Digits(0, 0, 0, 0);
    var idx, skip, total := 0, 0, 0;
    consumed := 0;
    ghost var out: dstr := [];
    TakeAllBounds(START, b64);
    assert b64[0..] == b64;
    var i := 0;
    var done := false;
    while i < |b64| && !done
      invariant 0 <= i <= |b64| && idx < 4 && total <= i
      invariant bin.data == old(bin.data) + out && bin.Room(0)
      invariant !done ==> |out| % 3 == 0
      invariant TakeAll(START, b64)
             == TakeAll(Decoding(ch, idx, skip, out, i, total, done), b64[i..])
    {
      ghost var st := Decoding(ch, idx, skip, out, i, total, false);
      TakeAllBounds(Take(st, b64[i]), b64[i..][1..]);
      assert b64[i..][1..] == b64[i + 1..];
      PaddingHasNoValue();
      var c := b64[i];
      var v := Value(c);
      if v.Some? {
        ch := ch.Put(idx, v.value);
        idx := idx + 1;
      } else if c == EQUALS {
        skip := skip + 1;
        idx := idx + 1;
      }
      if idx == 4 {
        var ok := bin.Append(ch.Bytes(skip));
        if !ok {
          NoMoreGroups(out, ch.Bytes(skip), TakeAll(START, b64).out, bin.size - |old(bin.data)|);
          return E_FIXEDSIZE, 0;
        }
        out := out + ch.Bytes(skip);
        idx := 0;
        total := i + 1;
        if skip > 0 {
          done := true;
        }
      }
      i := i + 1;
    }
    ghost var st := Decoding(ch, idx, skip, out, i, total, done);
    if done {
      TakeAllDone(st, b64[i..]);
    } else {
      assert b64[i..] == [];
    }
    assert TakeAll(START, b64) == st;
    if wantConsumed {
      consumed := total;
    } else if total != |b64| || idx != 0 {
      return E_PARAM, 0;
    }
    err := E_NONE;
  }

  /** b642bin: the whole string must decode. */
  method B642Bin(b64: dstr, bin: Dstr) returns (err: Error)
    requires bin.Room(0)
    modifies bin
    ensures err == E_NONE ==>
              && TakeAll(START, b64).total == |b64| && TakeAll(START, b64).idx == 0
              && bin.data == old(bin.data) + TakeAll(START, b64).out
    ensures !bin.fixedSize ==>
              (err == E_NONE <==>
                 TakeAll(START, b64).total == |b64| && TakeAll(START, b64).idx == 0)
  {
    hide Take;
    var consumed;
    err, consumed := B642BinQuiet(b64, bin, false);
  }

  function DecodeCall(pending: dstr): (c: Call) {
    var r := TakeAll(START, pending);
    TakeAllBounds(START, pending);
    Call(r.out, pending[r.total..])
  }

  /** b642bin_stream: decode the complete groups and keep what follows them. */
  method B642BinStream(b64: Dstr, bin: Dstr) returns (err: Error)
    requires b64 != bin && bin.Room(0)
    modifies b64, bin
    ensures err == E_NONE || err == E_FIXEDSIZE
    ensures err == E_NONE <==> old(bin.Room(|DecodeCall(b64.data).out|))
    ensures err == E_NONE ==>
              && bin.data == old(bin.data) + DecodeCall(old(b64.data)).out
              && b64.data == DecodeCall(old(b64.data)).rest
    ensures err != E_NONE ==>
              && bin.data == old(bin.data) + DecodeCall(old(b64.data)).out[..FullGroups(old(bin.size - |bin.data|))]
              && b64.data == old(b64.data)
    ensures bin.Room(0)
  {
    hide Take, TakeAll;
    var consumed;
    TakeAllBounds(START, b64.data);
    err, consumed := B642BinQuiet(b64.data, bin, true);
    if err == E_NONE {
      b64.LeftShift(consumed);
    }
  }

  function DecodeStream(pending: dstr, pieces: seq<dstr>): (c: Call)
    decreases |pieces|
  {
    if pieces == [] then Call([], pending)
    else
      var c := DecodeCall(pending + pieces[0]);
      var later := DecodeStream(c.rest, pieces[1..]);
      Call(c.out + later.out, later.rest)
  }

  /* ---------- the round trip ---------- */

  lemma {:induction false} TakeAllConcat(st: Decoding, a: dstr, b: dstr)
    requires st.idx < 4
    ensures TakeAll(st, a + b) == TakeAll(TakeAll(st, a), b)
    decreases |a|
  {
    hide Take;
    if a == [] {
      assert a + b == b;
    } else {
      var ab := a + b;
      assert ab[0] == a[0] && ab[1..] == a[1..] + b;
      TakeAllConcat(Take(st, a[0]), a[1..], b);
    }
  }

  lemma DigitValue(v: byte)
    requires v < 64
    ensures Value(Digit(v)) == Some(v)
    ensures Digit(v) != EQUALS && Digit(v) != NEWLINE
  {
  }

  lemma QuadCharacters(a: byte, b: byte, c: byte, n: nat)
    requires 1 <= n <= 3
    ensures var q := Quad(a, b, c, n); |q| == 4 && NEWLINE !in q && q[0] != EQUALS
  {
    hide Digit, Sextet;
    QuadDigits(a, b, c, n);
    DigitValue(Sextet(a, b, c, 0));
    DigitValue(Sextet(a, b, c, 1));
    DigitValue(Sextet(a, b, c, 2));
    DigitValue(Sextet(a, b, c, 3));
  }

  /** A text of width 0 is one line. */
  lemma {:induction false} TextWithoutBreaks(s: dstr)
    ensures NEWLINE !in Text(s, 0, 0)
    ensures |Text(s, 0, 0)| <= 4 * ((|s| + 2) / 3)
    decreases |s|
  {
    hide Text, Quad;
    if s == [] {
      TextOfNothing(0, 0);
    } else {
      TextStep(s, 0, 0);
      QuadCharacters(s[0], At(s, 1), At(s, 2), GroupLen(s));
      TextWithoutBreaks(s[GroupLen(s)..]);
      if |s| <= 3 {
        assert s[GroupLen(s)..] == [];
        TextOfNothing(0, 0);
      }
    }
  }

  /** The loop's state between two groups. */
  predicate Between(st: Decoding) {
    st.idx == 0 && st.skip == 0 && !st.done
  }

  /** Collecting one more digit, or one more padding character, short of a complete group. */
  lemma TakeOne(st: Decoding, c: byte, v: byte)
    requires st.idx < 3 && !st.done
    requires (v < 64 && c == Digit(v)) || c == EQUALS
    ensures Take(st, c) == Decoding(if c == EQUALS then st.ch else st.ch.Put(st.idx, v), st.idx + 1,
                                    if c == EQUALS then st.skip + 1 else st.skip,
                                    st.out, st.pos + 1, st.total, false)
  {
    hide Digit, Value, Digits.Put, Digits.Bytes;
    PaddingHasNoValue();
    if c != EQUALS {
      DigitValue(v);
    }
  }

  /** Collecting the fourth. */
  lemma TakeFourth(st: Decoding, c: byte, v: byte)
    requires st.idx == 3 && !st.done
    requires (v < 64 && c == Digit(v)) || c == EQUALS
    ensures var ch := if c == EQUALS then st.ch else st.ch.Put(3, v);
      var skip := if c == EQUALS then st.skip + 1 else st.skip;
      Take(st, c) == Decoding(ch, 0, skip, st.out + ch.Bytes(skip),
                              st.pos + 1, st.pos + 1, skip > 0)
  {
    hide Digit, Value, Digits.Put, Digits.Bytes;
    PaddingHasNoValue();
    if c != EQUALS {
      DigitValue(v);
    }
  }

  lemma TakeAllFour(st: Decoding, t: dstr)
    requires st.idx < 4 && |t| == 4
    ensures TakeAll(st, t) == Take(Take(Take(Take(st, t[0]), t[1]), t[2]), t[3])
  {
    hide Take;
    var s1 := Take(st, t[0]);
    var s2 := Take(s1, t[1]);
    var s3 := Take(s2, t[2]);
    assert TakeAll(s3, t[3..]) == Take(s3, t[3]) by { assert t[3..][1..] == []; }
    assert TakeAll(s2, t[2..]) == TakeAll(s3, t[3..]) by { assert t[2..][1..] == t[3..]; }
    assert TakeAll(s1, t[1..]) == TakeAll(s2, t[2..]) by { assert t[1..][1..] == t[2..]; }
  }

  function Sextet(a: byte, b: byte, c: byte, i: nat): (v: byte)
    ensures v < 64
  {
    if i == 0 then 0x3f & (a >> 2)
    else if i == 1 then (0x30 & (a << 4)) | (0x0f & (b >> 4))
    else if i == 2 then (0x3c & (b << 2)) | (0x03 & (c >> 6))
    else 0x3f & c
  }

  /** The bits of three bytes survive being split into four sextets. */
  lemma SextetBits(a: byte, b: byte, c: byte)
    ensures var s0, s1 := Sextet(a, b, c, 0), Sextet(a, b, c, 1);
      var s2, s3 := Sextet(a, b, c, 2), Sextet(a, b, c, 3);
      && Byte0(s0, s1) == a && Byte1(s1, s2) == b && Byte2(s2, s3) == c
  {
  }

  /** The bytes of a group, collected again, whatever digits stood there before. */
  lemma CollectedBytes(ch: Digits, a: byte, b: byte, c: byte, n: nat)
    requires 1 <= n <= 3 && (n < 2 ==> b == 0) && (n < 3 ==> c == 0)
    ensures var c1 := ch.Put(0, Sextet(a, b, c, 0)).Put(1, Sextet(a, b, c, 1));
      var c2 := if n < 2 then c1 else c1.Put(2, Sextet(a, b, c, 2));
      var c3 := if n < 3 then c2 else c2.Put(3, Sextet(a, b, c, 3));
      c3.Bytes(3 - n) == [a, b, c][..n]
  {
    hide Sextet, Byte0, Byte1, Byte2;
    SextetBits(a, b, c);
    assert [a, b, c][..1] == [a];
    assert [a, b, c][..2] == [a, b];
    assert [a, b, c][..3] == [a, b, c];
  }

  lemma QuadDigits(a: byte, b: byte, c: byte, n: nat)
    requires 1 <= n <= 3
    ensures Quad(a, b, c, n)
         == [Digit(Sextet(a, b, c, 0)), Digit(Sextet(a, b, c, 1)),
             if n < 2 then EQUALS else Digit(Sextet(a, b, c, 2)),
             if n < 3 then EQUALS else Digit(Sextet(a, b, c, 3))]
  {
    hide Digit;
  }

  /** A group restores the bytes it was made of, and ends the loop if it is padded. */
  lemma TakeQuad(st: Decoding, a: byte, b: byte, c: byte, n: nat)
    requires Between(st)
    requires 1 <= n <= 3 && (n < 2 ==> b == 0) && (n < 3 ==> c == 0)
    ensures var r := TakeAll(st, Quad(a, b, c, n));
      && r.idx == 0 && r.done == (n < 3) && (n == 3 ==> Between(r))
      && r.out == st.out + [a, b, c][..n]
      && r.pos == r.total == st.pos + 4
  {
    hide Quad, Digit, Sextet, Take, TakeAll, Digits.Put, Digits.Bytes;
    var q := Quad(a, b, c, n);
    QuadDigits(a, b, c, n);
    TakeAllFour(st, q);
    var s1 := Take(st, q[0]);
    TakeOne(st, q[0], Sextet(a, b, c, 0));
    var s2 := Take(s1, q[1]);
    TakeOne(s1, q[1], Sextet(a, b, c, 1));
    DigitValue(Sextet(a, b, c, 0));
    DigitValue(Sextet(a, b, c, 1));
    DigitValue(Sextet(a, b, c, 2));
    DigitValue(Sextet(a, b, c, 3));
    TakeOne(s2, q[2], Sextet(a, b, c, 2));
    TakeFourth(Take(s2, q[2]), q[3], Sextet(a, b, c, 3));
    CollectedBytes(st.ch, a, b, c, n);
  }

  /** Less than a group changes nothing but the digits being collected. */
  lemma TakePartialQuad(st: Decoding, a: byte, b: byte, c: byte, n: nat, k: nat)
    requires Between(st) && 1 <= n <= 3 && k < 4
    ensures var r := TakeAll(st, Quad(a, b, c, n)[..k]);
      r.out == st.out && r.total == st.total
  {
    hide Quad, Digit, Sextet, Take, Digits.Put, Digits.Bytes;
    var q := Quad(a, b, c, n);
    QuadDigits(a, b, c, n);
    var s1 := Take(st, q[0]);
    TakeOne(st, q[0], Sextet(a, b, c, 0));
    var s2 := Take(s1, q[1]);
    TakeOne(s1, q[1], Sextet(a, b, c, 1));
    TakeOne(s2, q[2], Sextet(a, b, c, 2));
    var p := q[..k];
    if k == 1 {
      assert p == [q[0]];
    } else if k == 2 {
      assert p == [q[0], q[1]];
      assert TakeAll(s1, p[1..]) == s2 by { assert p[1..][1..] == []; }
    } else if k == 3 {
      assert p == [q[0], q[1], q[2]];
      var s3 := Take(s2, q[2]);
      assert TakeAll(s2, p[2..]) == s3 by { assert p[2..][1..] == []; }
      assert TakeAll(s1, p[1..]) == s3 by { assert p[1..][1..] == p[2..]; }
    }
  }

  /** A foreign character is passed over. */
  lemma TakeForeign(st: Decoding, c: byte)
    requires st.idx < 4 && !st.done && c != EQUALS && Value(c) == None
    ensures Take(st, c) == st.(pos := st.pos + 1)
  {
    hide Value;
  }

  /** Nothing, or one line break. */
  predicate IsBreak(nl: dstr) {
    nl == [] || nl == [NEWLINE]
  }

  /** What follows the last group. */
  function EndBreak(chunk: nat): (nl: dstr) {
    if chunk > 0 then [NEWLINE] else []
  }

  /** A prefix that ends before the first group does leaves everything unconsumed. */
  lemma TakeShort(st: Decoding, x: dstr, nl: dstr, b: dstr, chunk: nat, col: nat)
    requires Between(st) && IsBreak(nl)
    requires x <= nl + Text(b, chunk, col)
    requires b == [] || |x| < |nl| + 4
    ensures TakeAll(st, x).out == st.out && TakeAll(st, x).total == st.total
    ensures b == [] ==> TakeAll(st, x).idx == 0
  {
    hide Quad, Take, TakeAll, Value, Digit;
    if |x| <= |nl| {
      assert x == nl[..|x|];
      TakeLineBreak(st, x);
    } else {
      var n, part := GroupLen(b), |x| - |nl|;
      var quad := Quad(b[0], At(b, 1), At(b, 2), n);
      QuadDigits(b[0], At(b, 1), At(b, 2), n);
      TakeLineBreak(st, nl);
      assert x == nl + quad[..part];
      TakeAllConcat(st, nl, quad[..part]);
      TakePartialQuad(TakeAll(st, nl), b[0], At(b, 1), At(b, 2), n, part);
    }
  }

  /** The first group of a text, behind its line break. */
  lemma TakeGroup(st: Decoding, nl: dstr, b: dstr)
    requires Between(st) && IsBreak(nl) && b != []
    ensures var r := TakeAll(st, nl + Quad(b[0], At(b, 1), At(b, 2), GroupLen(b)));
      && r.idx == 0 && r.done == (|b| < 3) && (|b| >= 3 ==> Between(r))
      && r.out == st.out + b[..GroupLen(b)]
      && r.pos == r.total == st.pos + |nl| + 4
  {
    hide Quad, Take, TakeAll, Value, Digit;
    var n := GroupLen(b);
    TakeLineBreak(st, nl);
    var st1 := TakeAll(st, nl);
    TakeQuad(st1, b[0], At(b, 1), At(b, 2), n);
    TakeAllConcat(st, nl, Quad(b[0], At(b, 1), At(b, 2), n));
    assert [b[0], At(b, 1), At(b, 2)][..n] == b[..n];
  }

  /** A text starts with its first group and the line break after it. */
  lemma FirstGroup(x: dstr, nl: dstr, b: dstr, chunk: nat, col: nat)
    requires b != [] && |nl| + 4 <= |x|
    requires x <= nl + Text(b, chunk, col)
    ensures var n := GroupLen(b);
      var head := nl + Quad(b[0], At(b, 1), At(b, 2), n);
      var rest := Break(chunk, col, n, n == |b|) + Text(b[n..], chunk, NextColumn(chunk, col, n));
      && |head| == |nl| + 4
      && nl + Text(b, chunk, col) == head + rest
      && x == head + x[|head|..] && x[|head|..] <= rest
  {
    hide Quad;
    var n := GroupLen(b);
    QuadDigits(b[0], At(b, 1), At(b, 2), n);
    var quad := Quad(b[0], At(b, 1), At(b, 2), n);
    var nl1 := Break(chunk, col, n, n == |b|);
    var t := Text(b[n..], chunk, NextColumn(chunk, col, n));
    Assoc(quad, nl1, t);
    Assoc(nl, quad, nl1 + t);
  }

  /** Decoding any prefix `x` of a text (after a line break, perhaps) yields the first `k` bytes,
      consumes `m` characters, stops where a group ends, and leaves less than a group. */
  lemma {:induction false} TakePrefix(st: Decoding, x: dstr, nl: dstr, b: dstr, chunk: nat, col: nat)
    returns (k: nat, m: nat, nl': dstr, col': nat)
    requires Between(st) && st.total <= st.pos
    requires IsBreak(nl)
    requires x <= nl + Text(b, chunk, col)
    ensures k <= |b| && m <= |x|
    ensures var r := TakeAll(st, x);
      r.out == st.out + b[..k] && r.total == if m == 0 then st.total else st.pos + m
    ensures IsBreak(nl') && (nl + Text(b, chunk, col))[m..] == nl' + Text(b[k..], chunk, col')
    ensures b[k..] != [] ==> |x| - m < |nl'| + 4
    ensures nl' == if k == 0 then nl else if k == |b| then EndBreak(chunk) else nl'
    ensures k == |b| ==> TakeAll(st, x).idx == 0
    decreases |b|
  {
    hide Quad, Text, Take, TakeAll;
    if b == [] || |x| < |nl| + 4 {
      TakeShort(st, x, nl, b, chunk, col);
      k, m, nl', col' := 0, 0, nl, col;
      assert b[0..] == b && b[..0] == [];
    } else {
      var n := GroupLen(b);
      var head := nl + Quad(b[0], At(b, 1), At(b, 2), n);
      var nl1, col1 := Break(chunk, col, n, n == |b|), NextColumn(chunk, col, n);
      FirstGroup(x, nl, b, chunk, col);
      TakeGroup(st, nl, b);
      TakeAllConcat(st, head, x[|head|..]);
      var k2, m2;
      k2, m2, nl', col' := TakeTail(TakeAll(st, head), x[|head|..], nl1, b, n, chunk, col1);
      DropConcat(head, nl1 + Text(b[n..], chunk, col1), m2);
      CutTwice(b, n, k2);
      Assoc(st.out, b[..n], b[n..][..k2]);
      k, m := n + k2, |head| + m2;
    }
  }

  /** What follows the first group: nothing more if it was padded, the rest of the text if not. */
  lemma {:induction false} TakeTail(st: Decoding, x: dstr, nl: dstr, b: dstr, n: nat, chunk: nat, col: nat)
    returns (k: nat, m: nat, nl': dstr, col': nat)
    requires b != [] && n == GroupLen(b) && IsBreak(nl)
    requires st.idx == 0 && st.pos == st.total && st.done == (n < 3) && (n == 3 ==> Between(st))
    requires x <= nl + Text(b[n..], chunk, col)
    requires n == |b| ==> nl == EndBreak(chunk)
    ensures k <= |b| - n && m <= |x|
    ensures var r := TakeAll(st, x);
      r.out == st.out + b[n..][..k] && r.total == st.pos + m
    ensures IsBreak(nl')
    ensures (nl + Text(b[n..], chunk, col))[m..] == nl' + Text(b[n..][k..], chunk, col')
    ensures b[n..][k..] != [] ==> |x| - m < |nl'| + 4
    ensures n + k == |b| ==> nl' == EndBreak(chunk) && TakeAll(st, x).idx == 0
    decreases |b|, 0
  {
    hide Quad, Take, TakeAll, Value, Digit;
    if n < 3 {
      TakeAllDone(st, x);
      k, m, nl', col' := 0, 0, nl, col;
      assert b[n..] == [];
    } else {
      k, m, nl', col' := TakePrefix(st, x, nl, b[3..], chunk, col);
    }
  }

  lemma TakeLineBreak(st: Decoding, nl: dstr)
    requires st.idx < 4 && !st.done && IsBreak(nl)
    ensures TakeAll(st, nl) == st.(pos := st.pos + |nl|)
  {
    hide Take;
    assert Value(NEWLINE) == None;
    TakeForeign(st, NEWLINE);
  }

  /** However a text is cut into pieces, the stream gives back its bytes and leaves at most the
      last line break undecoded. */
  lemma {:induction false} DecodeStreamOfText(pending: dstr, pieces: seq<dstr>, nl: dstr, b: dstr,
                                              chunk: nat, col: nat)
    requires IsBreak(nl) && pending + Flatten(pieces) == nl + Text(b, chunk, col)
    requires b == [] || |pending| < |nl| + 4
    ensures DecodeStream(pending, pieces).out == b
    ensures DecodeStream(pending, pieces).rest == if b == [] then nl else EndBreak(chunk)
    decreases |pieces|
  {
    hide Quad, Text, Take, TakeAll;
    var whole := nl + Text(b, chunk, col);
    if pieces == [] {
      TextLength(b, chunk, col);
      TextOfNothing(chunk, col);
      assert pending + [] == pending && nl + [] == nl;
    } else {
      var x, later := pending + pieces[0], Flatten(pieces[1..]);
      assert whole == x + later by { Assoc(pending, pieces[0], later); }
      var k, m, nl', col' := TakePrefix(START, x, nl, b, chunk, col);
      assert b[..k] + b[k..] == b;
      assert x[m..] + later == whole[m..];
      assert k == 0 && b != [] ==> b[k..] == b;
      DecodeStreamOfText(x[m..], pieces[1..], nl', b[k..], chunk, col');
      if k == |b| && b != [] {
        TextOfNothing(chunk, col');
      }
    }
  }

  lemma TextLength(b: dstr, chunk: nat, col: nat)
    ensures b != [] ==> |Text(b, chunk, col)| >= 4
  {
    hide Quad;
    if b != [] {
      QuadDigits(b[0], At(b, 1), At(b, 2), GroupLen(b));
    }
  }

  /** Bytes pushed through bin2b64_stream in any pieces, and the emitted text through
      b642bin_stream in any other pieces, come back unchanged. */
  lemma Base64StreamRoundTrip(bytePieces: seq<dstr>, textPieces: seq<dstr>, width: nat)
    requires width >= 4 && bytePieces != []
    requires Flatten(textPieces) == EncodeStream([], bytePieces, Chunk(width)).out
    ensures EncodeStream([], bytePieces, Chunk(width)).rest == []
    ensures DecodeStream([], textPieces).out == Flatten(bytePieces)
    ensures DecodeStream([], textPieces).rest == if Flatten(bytePieces) == [] then [] else [NEWLINE]
  {
    hide Text, EncodeStream, DecodeStream;
    var b := Flatten(bytePieces);
    EncodeStreamIsBatch([], bytePieces, Chunk(width));
    assert [] + b == b && [] + Text(b, Chunk(width), 0) == Text(b, Chunk(width), 0);
    assert [] + Flatten(textPieces) == Flatten(textPieces);
    DecodeStreamOfText([], textPieces, [], Flatten(bytePieces), Chunk(width), 0);
  }

  /** The strict b642bin inverts bin2b64, but it refuses any text with line breaks, because a
      line break follows the last group. */
  lemma StrictDecode(b: dstr, chunk: nat)
    ensures TakeAll(START, Text(b, chunk, 0)).out == b
    ensures (TakeAll(START, Text(b, chunk, 0)).total == |Text(b, chunk, 0)|) <==> chunk == 0 || b == []
    ensures TakeAll(START, Text(b, chunk, 0)).idx == 0
  {
    hide Quad, Text, Take, TakeAll;
    var t := Text(b, chunk, 0);
    TextOfNothing(chunk, 0);
    TextLength(b, chunk, 0);
    var k, m, nl', col' := TakePrefix(START, t, [], b, chunk, 0);
    TextOfNothing(chunk, col');
    if k < |b| {
      TextLength(b[k..], chunk, col');
    } else {
      assert [] + t == t && b[k..] == [] && nl' + [] == nl';
    }
  }
}
