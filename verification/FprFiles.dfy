/** The files in which libcitm/fpr_watcher.c keeps its sets, one element a line: mailbox names
    with their backslashes and newlines escaped, fingerprints in hex. */
module FprFiles {
  import opened Bytes
  import opened Recode

  const BACKSLASH: byte := 0x5C
  const LETTER_N: byte := 0x6E

  const ESCAPE: Rules :=
    Rules([[BACKSLASH], [NEWLINE]], [[BACKSLASH, BACKSLASH], [BACKSLASH, LETTER_N]], None)
  const UNESCAPE: Rules :=
    Rules([[BACKSLASH, BACKSLASH], [BACKSLASH, LETTER_N]], [[BACKSLASH], [NEWLINE]], None)

  /* ---------- escaping ---------- */

  /** The reference meaning of escaping: byte by byte. */
  function Escaped(s: dstr): (t: dstr)
    ensures NEWLINE !in t
    ensures s != [] <==> t != []
  {
    if s == [] then []
    else (if s[0] == BACKSLASH then [BACKSLASH, BACKSLASH]
          else if s[0] == NEWLINE then [BACKSLASH, LETTER_N]
          else [s[0]]) + Escaped(s[1..])
  }

  lemma {:induction false} RecodeEscapes(s: dstr)
    ensures RecodeText(s, ESCAPE, true).out == Escaped(s)
  {
    hide RecodeText;
    if s == [] {
      RecodeOfNothing(ESCAPE, true);
    } else {
      RecodeEscapes(s[1..]);
      assert s == s[..1] + s[1..];
      if s[0] == BACKSLASH || s[0] == NEWLINE {
        FirstMatch(s, ESCAPE, if s[0] == BACKSLASH then 0 else 1, true);
      } else {
        SkipPassed(s[..1], s[1..], ESCAPE);
      }
    }
  }

  lemma {:induction false} RecodeUnescapes(s: dstr)
    ensures RecodeText(Escaped(s), UNESCAPE, true).out == s
  {
    hide RecodeText;
    var t := Escaped(s);
    if s == [] {
      RecodeOfNothing(UNESCAPE, true);
    } else {
      RecodeUnescapes(s[1..]);
      assert s == [s[0]] + s[1..];
      if s[0] == BACKSLASH || s[0] == NEWLINE {
        assert t[2..] == Escaped(s[1..]);
        FirstMatch(t, UNESCAPE, if s[0] == BACKSLASH then 0 else 1, true);
      } else {
        forall p | 0 <= p < 2
          ensures !MatchesAt([s[0]] + Escaped(s[1..]), 0, UNESCAPE.search[p])
        {
          FirstByteDiffers(t, UNESCAPE.search[p]);
        }
        SkipPassed([s[0]], Escaped(s[1..]), UNESCAPE);
      }
    }
  }

  lemma FirstByteDiffers(t: dstr, pat: dstr)
    requires t != [] && pat != [] && t[0] != pat[0]
    ensures !MatchesAt(t, 0, pat)
  {
    assert |pat| <= |t| ==> t[0..|pat|][0] != pat[0];
  }

  /* ---------- splitting into lines ---------- */

  datatype Split = Split(line: dstr, extra: dstr)

  /** The text up to the first newline, and the text after it. */
  function SplitLine(text: dstr): (s: Split)
    ensures (s.line == [] && s.extra == []) || |s.extra| < |text|
  {
    var m := Find(text, 0, [[NEWLINE]]);
    if m.Some? then Split(text[..m.value.pos], text[m.value.pos + 1..]) else Split(text, [])
  }

  /** dstr_split2_soft(text, "\n", NULL, &line, &extra): the words fill the outputs, and the last
      output takes all the rest of the text. */
  method SplitLineSoft(text: dstr) returns (line: dstr, extra: dstr)
    ensures Split(line, extra) == SplitLine(text)
  {
    hide Find, HeldBack;
    line, extra := [], [];
    var len, wordStart, lastStart := 0, 0, 0;
    var shouldContinue := true;
    ghost var first := SplitLine(text);
    FindIsLeftmost(text, 0, [[NEWLINE]]);
    while shouldContinue
      invariant len <= 2 && wordStart <= |text| + 1
      invariant len <= 1 ==> extra == []
      invariant len == 0 ==> shouldContinue && wordStart == 0
      invariant len > 0 ==> line == first.line
      invariant len == 1 && shouldContinue ==> IsExtra(text, wordStart, first)
      invariant len == 1 && !shouldContinue ==> first.extra == []
      invariant len == 2 ==> IsExtra(text, lastStart, first)
      invariant len == 2 && !shouldContinue ==> extra == first.extra
      invariant len == 2 && shouldContinue ==> wordStart <= |text|
      decreases shouldContinue, 2 - len
    {
      var sub := text[wordStart..];
      var position, _ := DstrFind(sub, [[NEWLINE]]);
      assert len == 0 ==> sub == text;
      var wordEnd := |text|;
      if position.Some? {
        wordEnd := wordStart + position.value.pos;
      } else {
        shouldContinue := false;
      }
      var word := text[wordStart..wordEnd];
      if len == 2 {
        extra := text[lastStart..];
        shouldContinue := false;
      } else {
        if len == 0 {
          line := word;
        } else {
          extra := word;
          lastStart := wordStart;
        }
        len := len + 1;
        wordStart := wordEnd + 1;
      }
    }
  }

  ghost predicate IsExtra(text: dstr, start: nat, s: Split) {
    start == |s.line| + 1 <= |text| && s.extra == text[start..]
  }

  /** The lines of a file come off one at a time. */
  lemma SplitFirstLine(line: dstr, rest: dstr)
    requires NEWLINE !in line
    ensures SplitLine(line + [NEWLINE] + rest) == Split(line, rest)
  {
    hide Find;
    var text := line + [NEWLINE] + rest;
    FindIsLeftmost(text, 0, [[NEWLINE]]);
    assert text[|line|..|line| + 1] == [NEWLINE];
    assert MatchesAt(text, |line|, [[NEWLINE]][0]);
    forall i | 0 <= i < |line|
      ensures !MatchesAt(text, i, [[NEWLINE]][0])
    {
      assert text[i] == line[i];
    }
    var m := Find(text, 0, [[NEWLINE]]);
    if m.Some? {
      assert MatchesAt(text, m.value.pos, [[NEWLINE]][m.value.which]);
    }
  }

  /* ---------- the two files ---------- */

  /** How an element is written on its line, and how it is read back. */
  datatype Format = Names | Fingerprints

  function Line(f: Format, x: dstr): (t: dstr) {
    match f
    case Names => Escaped(x)
    case Fingerprints => HexOf(x)
  }

  function ReadLine(f: Format, t: dstr): (x: Option<dstr>) {
    match f
    case Names => Some(RecodeText(t, UNESCAPE, true).out)
    case Fingerprints => HexRead(t, None)
  }

  function FileOf(f: Format, order: seq<dstr>): (file: dstr) {
    if order == [] then [] else Line(f, order[0]) + [NEWLINE] + FileOf(f, order[1..])
  }

  /** The loading loop; None is a load that failed, after which nothing was loaded. */
  function Loaded(f: Format, file: dstr): (s: Option<set<dstr>>)
    decreases |file|
  {
    var s := SplitLine(file);
    if s.line == [] && s.extra == [] then Some({})
    else if s.line == [] then Loaded(f, s.extra)
    else
      var x := ReadLine(f, s.line);
      if x.None? then None
      else
        var more := Loaded(f, s.extra);
        if more.None? then None else Some({x.value} + more.value)
  }

  /* ---------- hex ---------- */

  function HexDigit(n: byte): (c: byte) {
    if n < 10 then 0x30 + n else 0x61 + (n - 10)
  }

  function HexOf(s: dstr): (t: dstr)
    ensures |t| == 2 * |s|
  {
    if s == [] then [] else [HexDigit(s[0] >> 4), HexDigit(s[0] & 0x0f)] + HexOf(s[1..])
  }

  function Nibble(c: byte): (n: Option<byte>) {
    if 0x30 <= c <= 0x39 then Some(c - 0x30)
    else if 0x41 <= c <= 0x46 then Some(c - 0x41 + 10)
    else if 0x61 <= c <= 0x66 then Some(c - 0x61 + 10)
    else None
  }

  predicate IsSpace(c: byte) {
    c == 0x20 || 0x09 <= c <= 0x0D
  }

  /** Reading hex digits in pairs; `high` is the first digit of a pair already begun, white space
      is passed over, and a lone last digit is dropped. */
  function HexRead(t: dstr, high: Option<byte>): (s: Option<dstr>) {
    if t == [] then Some([])
    else
      var n := Nibble(t[0]);
      if n.None? then (if IsSpace(t[0]) then HexRead(t[1..], high) else None)
      else if high.None? then HexRead(t[1..], Some(n.value << 4))
      else
        var more := HexRead(t[1..], None);
        if more.None? then None else Some([high.value | n.value] + more.value)
  }

  /** The hexadecimal digits of a string. */
  function DigitsIn(t: dstr): (d: dstr) {
    if t == [] then [] else (if Nibble(t[0]).Some? then [t[0]] else []) + DigitsIn(t[1..])
  }

  /** What hex2bin accepts, and how many bytes it makes of it: white space counts for nothing, and a
      last digit without a partner is dropped. */
  lemma {:induction false} HexAccepts(t: dstr, high: Option<byte>)
    ensures HexRead(t, high).Some? <==> forall i :: 0 <= i < |t| ==> Nibble(t[i]).Some? || IsSpace(t[i])
    ensures HexRead(t, high).Some? ==>
              |HexRead(t, high).value| == (|DigitsIn(t)| + if high.Some? then 1 else 0) / 2
    decreases t
  {
    hide Nibble, IsSpace;
    if t != [] {
      var n := Nibble(t[0]);
      HexAccepts(t[1..], if n.None? then high else if high.None? then Some(n.value << 4) else None);
      assert forall i :: 1 <= i < |t| ==> t[i] == t[1..][i - 1];
      assert forall i :: 0 <= i < |t[1..]| ==> t[1..][i] == t[i + 1];
    }
  }

  const LOWER_HEX := "0123456789abcdef"
  const UPPER_HEX := "0123456789ABCDEF"

  /** The digits, spelled out: lower case is written, both are read, and nothing else is. */
  lemma HexDigitsSpelled(v: byte, c: byte)
    requires v < 16
    ensures |LOWER_HEX| == |UPPER_HEX| == 16
    ensures HexDigit(v) as int == LOWER_HEX[v as nat] as int
    ensures Nibble(c) == Some(v) <==> c as int == LOWER_HEX[v as nat] as int || c as int == UPPER_HEX[v as nat] as int
    ensures IsSpace(c) <==> c as int == 0x20 || 0x09 <= c as int <= 0x0D
  {
  }

  /** A byte is written as its sixteens and its ones. */
  lemma {:induction false} HexOfDigits(s: dstr, i: nat)
    requires i < |s|
    ensures |LOWER_HEX| == 16
    ensures HexOf(s)[2 * i] as int == LOWER_HEX[s[i] as nat / 16] as int
    ensures HexOf(s)[2 * i + 1] as int == LOWER_HEX[s[i] as nat % 16] as int
    decreases i
  {
    hide HexDigit, LOWER_HEX;
    if i == 0 {
      HighAndLow(s[0]);
      HexDigitsSpelled(s[0] >> 4, 0);
      HexDigitsSpelled(s[0] & 0x0f, 0);
    } else {
      HexOfDigits(s[1..], i - 1);
      assert HexOf(s)[2..] == HexOf(s[1..]);
      assert HexOf(s)[2 * i] == HexOf(s)[2..][2 * i - 2] && HexOf(s)[2 * i + 1] == HexOf(s)[2..][2 * i - 1];
    }
  }

  lemma HighAndLow(b: byte)
    ensures b >> 4 < 16 && (b >> 4) as nat == b as nat / 16
    ensures b & 0x0f < 16 && (b & 0x0f) as nat == b as nat % 16
  {
  }

  lemma NibbleOfDigit(n: byte)
    requires n < 16
    ensures Nibble(HexDigit(n)) == Some(n) && HexDigit(n) != NEWLINE
  {
  }

  lemma JoinNibbles(b: byte)
    ensures ((b >> 4) << 4) | (b & 0x0f) == b && b >> 4 < 16 && b & 0x0f < 16
  {
  }

  lemma {:induction false} HexRoundTrip(s: dstr)
    ensures HexRead(HexOf(s), None) == Some(s) && NEWLINE !in HexOf(s)
  {
    hide Nibble, HexDigit;
    if s != [] {
      HexRoundTrip(s[1..]);
      var t := HexOf(s);
      JoinNibbles(s[0]);
      NibbleOfDigit(s[0] >> 4);
      NibbleOfDigit(s[0] & 0x0f);
      assert t[1..][1..] == HexOf(s[1..]);
      assert s == [s[0]] + s[1..];
    }
  }

  /** bin2hex, with its loop; the digits of snprintf("%.2x"). */
  method Bin2Hex(bin: dstr, hex: Dstr)
    requires !hex.fixedSize
    modifies hex
    ensures hex.data == old(hex.data) + HexOf(bin)
  {
    hide HexDigit;
    assert bin[0..] == bin;
    for i := 0 to |bin|
      invariant hex.data + HexOf(bin[i..]) == old(hex.data) + HexOf(bin)
    {
      var two := [HexDigit(bin[i] >> 4), HexDigit(bin[i] & 0x0f)];
      assert bin[i..][1..] == bin[i + 1..];
      Assoc(hex.data, two, HexOf(bin[i + 1..]));
      var ok := hex.Append(two);
    }
    assert bin[|bin|..] == [];
  }

  /** hex2bin, with its loop over `shift` and the byte being collected. */
  method Hex2Bin(hex: dstr, bin: Dstr) returns (ok: bool)
    requires !bin.fixedSize
    modifies bin
    ensures ok == HexRead(hex, None).Some?
    ensures ok ==> bin.data == old(bin.data) + HexRead(hex, None).value
  {
    hide Nibble, IsSpace, HexRead;
    var shift, b: byte := 0, 0;
    assert hex[0..] == hex;
    ghost var high: Option<byte> := None;
    var i := 0;
    while i < |hex|
      invariant 0 <= i <= |hex|
      invariant if high.Some? then shift == 1 && b == high.value else shift == 0 && b == 0
      invariant HexRead(hex, None).Some? <==> HexRead(hex[i..], high).Some?
      invariant HexRead(hex, None).Some? ==>
                old(bin.data) + HexRead(hex, None).value == bin.data + HexRead(hex[i..], high).value
    {
      HexReadOne(hex[i..], high);
      assert hex[i..][1..] == hex[i + 1..];
      var n := Nibble(hex[i]);
      if n.None? {
        if !IsSpace(hex[i]) {
          return false;
        }
      } else {
        shift := 1 - shift;
        if shift == 1 {
          b := ShiftNibble(n.value, b);
          high := Some(b);
        } else {
          b := b | n.value;
          var appended := bin.Append([b]);
          high, b := None, 0;
        }
      }
      i := i + 1;
    }
    HexReadNothing(high);
    assert hex[i..] == [];
    ok := true;
  }

  lemma HexReadNothing(high: Option<byte>)
    ensures HexRead([], high) == Some([])
  {
  }

  lemma HexReadOne(t: dstr, high: Option<byte>)
    requires t != []
    ensures var n := Nibble(t[0]);
      HexRead(t, high) ==
        if n.None? then (if IsSpace(t[0]) then HexRead(t[1..], high) else None)
        else if high.None? then HexRead(t[1..], Some(n.value << 4))
        else if HexRead(t[1..], None).None? then None
        else Some([high.value | n.value] + HexRead(t[1..], None).value)
  {
    hide Nibble, IsSpace;
  }

  /** The high digit of a pair, put into an empty byte. */
  method ShiftNibble(n: byte, b: byte) returns (r: byte)
    requires b == 0
    ensures r == n << 4
  {
    r := b | (n << 4);
  }

  /* ---------- saving and loading ---------- */

  /** One element and its newline. */
  method SaveLine(f: Format, x: dstr, out: Dstr)
    requires !out.fixedSize
    modifies out
    ensures out.data == old(out.data) + (Line(f, x) + [NEWLINE])
  {
    hide RecodeText, HexOf, Escaped;
    if f == Names {
      RecodeEscapes(x);
      var err, found, consumed := DoRecode(x, out, ESCAPE, true);
    } else {
      Bin2Hex(x, out);
    }
    var ok := out.Append([NEWLINE]);
    Assoc(old(out.data), Line(f, x), [NEWLINE]);
  }

  /** The writing loops of save_fprs and save_synced, over the elements in the tree's order. */
  method Save(f: Format, order: seq<dstr>) returns (file: dstr)
    ensures file == FileOf(f, order)
  {
    hide Line;
    var out := new Dstr(false, 0);
    assert order[0..] == order;
    for i := 0 to |order|
      invariant fresh(out) && !out.fixedSize
      invariant out.data + FileOf(f, order[i..]) == FileOf(f, order)
    {
      assert order[i..][1..] == order[i + 1..];
      Assoc(out.data, Line(f, order[i]) + [NEWLINE], FileOf(f, order[i + 1..]));
      SaveLine(f, order[i], out);
    }
    assert order[|order|..] == [];
    file := out.data;
  }

  /** One line, unescaped or decoded into a fresh buffer. */
  method LoadLine(f: Format, line: dstr) returns (x: Option<dstr>)
    ensures x == ReadLine(f, line)
  {
    hide RecodeText, HexRead;
    var buf := new Dstr(false, 0);
    if f == Names {
      var err, found, consumed := DoRecode(line, buf, UNESCAPE, true);
    } else {
      var read := Hex2Bin(line, buf);
      if !read {
        return None;
      }
    }
    var empty: dstr := [];
    assert forall y: dstr :: empty + y == y;
    x := Some(buf.data);
  }

  /** The reading loops of load_fprs and load_synced.  A line that cannot be read fails the load,
      and then the set that was being filled is emptied. */
  method Load(f: Format, raw: dstr) returns (ok: bool, elems: set<dstr>)
    ensures ok == Loaded(f, raw).Some?
    ensures elems == if ok then Loaded(f, raw).value else {}
  {
    hide ReadLine, SplitLine, Loaded;
    elems := {};
    var line, extra := SplitLineSoft(raw);
    ghost var rest := raw;
    while line != [] || extra != []
      invariant Split(line, extra) == SplitLine(rest)
      invariant Loaded(f, raw).Some? <==> Loaded(f, rest).Some?
      invariant Loaded(f, raw).Some? ==> Loaded(f, raw).value == elems + Loaded(f, rest).value
      decreases |rest|
    {
      LoadedTurn(f, rest);
      if line != [] {
        var x := LoadLine(f, line);
        if x.None? {
          return false, {};
        }
        elems := elems + {x.value};
      }
      rest := extra;
      line, extra := SplitLineSoft(extra);
    }
    LoadedTurn(f, rest);
    ok := true;
  }

  lemma LoadedTurn(f: Format, file: dstr)
    ensures var s := SplitLine(file);
      Loaded(f, file) ==
        if s.line == [] && s.extra == [] then Some({})
        else if s.line == [] then Loaded(f, s.extra)
        else if ReadLine(f, s.line).None? || Loaded(f, s.extra).None? then None
        else Some({ReadLine(f, s.line).value} + Loaded(f, s.extra).value)
    ensures var s := SplitLine(file); (s.line == [] && s.extra == []) || |s.extra| < |file|
  {
    hide RecodeText, HexRead, SplitLine;
  }

  lemma LineRoundTrip(f: Format, x: dstr)
    ensures NEWLINE !in Line(f, x) && (Line(f, x) == [] <==> x == [])
    ensures ReadLine(f, Line(f, x)) == Some(x)
  {
    hide RecodeText, HexRead, Escaped, HexOf;
    if f == Names {
      RecodeUnescapes(x);
    } else {
      HexRoundTrip(x);
    }
  }

  /** A saved set, written in any order, is loaded back, but for the empty string, whose line the
      loading loop skips: so exactly the sets without it survive. */
  lemma {:induction false} SaveThenLoad(f: Format, order: seq<dstr>)
    ensures Loaded(f, FileOf(f, order)) == Some((set x | x in order) - {[]})
    ensures (Loaded(f, FileOf(f, order)) == Some(set x | x in order)) <==> [] !in order
    decreases |order|
  {
    hide Line, ReadLine, SplitLine, Loaded;
    LoadedTurn(f, FileOf(f, order));
    if order == [] {
      SplitNothing();
      assert (set x | x in order) == {} && (set x | x in order) - {[]} == {};
    } else {
      var rest := FileOf(f, order[1..]);
      LineRoundTrip(f, order[0]);
      SplitFirstLine(Line(f, order[0]), rest);
      SaveThenLoad(f, order[1..]);
      assert order == [order[0]] + order[1..];
      assert (set x | x in order) == {order[0]} + (set x | x in order[1..]);
      var later := set x | x in order[1..];
      if order[0] == [] {
        assert rest == [] ==> later == {};
        assert ({order[0]} + later) - {[]} == later - {[]};
      } else {
        assert ({order[0]} + later) - {[]} == {order[0]} + (later - {[]});
      }
    }
  }

  lemma SplitNothing()
    ensures SplitLine([]) == Split([], [])
  {
    var text: dstr := [];
    assert Find(text, 0, [[NEWLINE]]) == None;
  }
}
