/** WB64 of libdstr/b64.c: a base64 encoder that is fed one byte at a time. */
module Base64Writer {
  import opened Bytes
  import opened Base64

  /** The characters already written when the bytes `s` have been fed: whole groups, and those
      characters of the last group whose bits are complete. */
  function Written(s: dstr): (t: dstr) {
    if |s| == 0 then []
    else if |s| == 1 then [Digit(Sextet(s[0], 0, 0, 0))]
    else if |s| == 2 then [Digit(Sextet(s[0], 0, 0, 0)), Digit(Sextet(s[0], s[1], 0, 1))]
    else Quad(s[0], s[1], s[2], 3) + Written(s[3..])
  }

  /** The position inside a group, and the bits that wait for the next byte. */
  function Position(s: dstr): (pos: nat) {
    if |s| < 3 then |s| else Position(s[3..])
  }

  function Leftover(s: dstr): (bits: byte) {
    if |s| == 0 then 0
    else if |s| == 1 then (s[0] & 0x03) << 4
    else if |s| == 2 then (s[1] & 0x0f) << 2
    else Leftover(s[3..])
  }

  /** The characters that one more byte completes. */
  function NewChars(pos: nat, left: byte, c: byte): (t: dstr)
    requires pos < 3 && (pos != 0 ==> left < 64)
    requires (pos == 1 ==> left & 0x0f == 0) && (pos == 2 ==> left & 0x03 == 0)
  {
    if pos == 0 then [Digit((c >> 2) & 0x3f)]
    else if pos == 1 then [Digit(left | ((c >> 4) & 0x0f))]
    else [Digit(left | ((c >> 6) & 0x03)), Digit(c & 0x3f)]
  }

  /** The characters that finishing adds. */
  function LastChars(pos: nat, left: byte): (t: dstr)
    requires pos < 3 && left < 64
  {
    if pos == 0 then []
    else if pos == 1 then [Digit(left), EQUALS, EQUALS]
    else [Digit(left), EQUALS]
  }

  lemma {:induction false} LeftoverBits(s: dstr)
    ensures Position(s) < 3 && Leftover(s) < 64
    ensures Position(s) == 1 ==> Leftover(s) & 0x0f == 0
    ensures Position(s) == 2 ==> Leftover(s) & 0x03 == 0
    decreases |s|
  {
    if |s| >= 3 {
      LeftoverBits(s[3..]);
    }
  }

  /** Feeding one byte adds its characters and leaves its bits. */
  lemma {:induction false} FeedOne(s: dstr, c: byte)
    ensures Position(s) < 3 && Leftover(s) < 64
    ensures Position(s) == 1 ==> Leftover(s) & 0x0f == 0
    ensures Position(s) == 2 ==> Leftover(s) & 0x03 == 0
    ensures Written(s + [c]) == Written(s) + NewChars(Position(s), Leftover(s), c)
    ensures Position(s + [c]) == if Position(s) == 2 then 0 else Position(s) + 1
    ensures Position(s) == 0 ==> forall left :: NewChars(0, left, c) == NewChars(0, Leftover(s), c)
    ensures Leftover(s + [c]) == if Position(s) == 0 then (c & 0x03) << 4
                                 else if Position(s) == 1 then (c & 0x0f) << 2 else 0
    decreases |s|
  {
    hide Digit, Sextet, Quad, NewChars;
    LeftoverBits(s);
    if |s| < 3 {
      FeedFirstGroup(s, c);
    } else {
      assert (s + [c])[3..] == s[3..] + [c];
      FeedOne(s[3..], c);
      var more := NewChars(Position(s), Leftover(s), c);
      Assoc(Quad(s[0], s[1], s[2], 3), Written(s[3..]), more);
    }
  }

  /** How a byte is fed, as one statement about the bytes before it. */
  ghost predicate Feeds(s: dstr, c: byte) {
    && Position(s) < 3 && Leftover(s) < 64
    && (Position(s) == 1 ==> Leftover(s) & 0x0f == 0)
    && (Position(s) == 2 ==> Leftover(s) & 0x03 == 0)
    && Written(s + [c]) == Written(s) + NewChars(Position(s), Leftover(s), c)
    && Position(s + [c]) == (if Position(s) == 2 then 0 else Position(s) + 1)
    && (Position(s) == 0 ==> forall left :: NewChars(0, left, c) == NewChars(0, Leftover(s), c))
    && Leftover(s + [c]) == if Position(s) == 0 then (c & 0x03) << 4
                            else if Position(s) == 1 then (c & 0x0f) << 2 else 0
  }

  /** In the first group. */
  lemma FeedFirstGroup(s: dstr, c: byte)
    requires |s| < 3
    ensures Feeds(s, c)
  {
    hide Feeds;
    if |s| == 0 {
      assert s == [];
      FeedFirst(c);
    } else if |s| == 1 {
      assert s == [s[0]];
      FeedSecond(s[0], c);
    } else {
      assert s == [s[0], s[1]];
      FeedThird(s[0], s[1], c);
    }
  }

  lemma FeedFirst(c: byte)
    ensures Feeds([], c)
  {
    hide Digit, Sextet, Quad;
    FirstBits(c);
    assert [] + [c] == [c];
  }

  lemma FeedSecond(a: byte, c: byte)
    ensures Feeds([a], c)
  {
    hide Digit, Sextet, Quad;
    LeftoverBits([a]);
    SecondBits(a, c);
    assert [a] + [c] == [a, c];
  }

  lemma FeedThird(a: byte, b: byte, c: byte)
    ensures Feeds([a, b], c)
  {
    hide Digit, Sextet, Quad;
    LeftoverBits([a, b]);
    ThirdBits(a, b, c);
    QuadDigits(a, b, c, 3);
    assert [a, b] + [c] == [a, b, c] && [a, b, c][3..] == [];
    assert Written([a, b, c]) == Quad(a, b, c, 3) + Written([]) == Quad(a, b, c, 3);
    assert Position([a, b, c]) == Position([]) && Leftover([a, b, c]) == Leftover([]);
  }

  lemma FirstBits(a: byte)
    ensures (a >> 2) & 0x3f == Sextet(a, 0, 0, 0)
  {
  }

  lemma SecondBits(a: byte, b: byte)
    ensures ((a & 0x03) << 4) | ((b >> 4) & 0x0f) == Sextet(a, b, 0, 1)
  {
  }

  lemma ThirdBits(a: byte, b: byte, c: byte)
    ensures Sextet(a, 0, 0, 0) == Sextet(a, b, c, 0)
    ensures Sextet(a, b, 0, 1) == Sextet(a, b, c, 1)
    ensures ((b & 0x0f) << 2) | ((c >> 6) & 0x03) == Sextet(a, b, c, 2)
    ensures c & 0x3f == Sextet(a, b, c, 3)
  {
  }

  lemma LastBits(a: byte, b: byte)
    ensures (a & 0x03) << 4 == Sextet(a, 0, 0, 1)
    ensures (b & 0x0f) << 2 == Sextet(a, b, 0, 2)
    ensures Sextet(a, 0, 0, 0) == Sextet(a, b, 0, 0)
  {
  }

  /** What was written, and what finishing adds, is the text the batch encoder gives without line
      breaks. */
  lemma {:induction false} FinishedIsBatch(s: dstr)
    ensures Position(s) < 3 && Leftover(s) < 64
    ensures Written(s) + LastChars(Position(s), Leftover(s)) == Text(s, 0, 0)
    decreases |s|
  {
    hide Digit, Sextet, Quad;
    LeftoverBits(s);
    if |s| == 1 {
      LastBits(s[0], 0);
      QuadDigits(s[0], 0, 0, 1);
      TextStep(s, 0, 0);
    } else if |s| == 2 {
      LastBits(s[0], s[1]);
      QuadDigits(s[0], s[1], 0, 2);
      TextStep(s, 0, 0);
    } else if |s| >= 3 {
      FinishedIsBatch(s[3..]);
      TextStep(s, 0, 0);
      Assoc(Quad(s[0], s[1], s[2], 3), Written(s[3..]), LastChars(Position(s), Leftover(s)));
      assert FirstChars(s, 0, 0) == Quad(s[0], s[1], s[2], 3);
    }
  }

  /** _b64_encode_char: the switch over the position inside a group. */
  method EncodeChar(pos: nat, leftover: byte, c: byte)
    returns (chars: dstr, nextPos: nat, nextLeftover: byte)
    requires pos < 3 && (pos != 0 ==> leftover < 64)
    requires (pos == 1 ==> leftover & 0x0f == 0) && (pos == 2 ==> leftover & 0x03 == 0)
    ensures chars == NewChars(pos, leftover, c)
    ensures nextPos == if pos == 2 then 0 else pos + 1
    ensures pos == 0 ==> nextLeftover == (c & 0x03) << 4
    ensures pos == 1 ==> nextLeftover == (c & 0x0f) << 2
  {
    hide Digit;
    nextLeftover := leftover;
    if pos == 0 {
      nextPos := 1;
      nextLeftover := (c & 0x03) << 4;
      chars := [Digit((c >> 2) & 0x3f)];
    } else if pos == 1 {
      nextPos := 2;
      nextLeftover := (c & 0x0f) << 2;
      chars := [Digit(leftover | ((c >> 4) & 0x0f))];
    } else {
      nextPos := 0;
      chars := [Digit(leftover | ((c >> 6) & 0x03)), Digit(c & 0x3f)];
    }
  }

  /** The writer's own state; the writer behind it is a growable dstr. */
  class Writer {
    const out: Dstr
    var pos: nat
    var leftover: byte
    ghost var base: dstr  // the output when the current text was begun
    ghost var fed: dstr   // the bytes fed since then

    ghost predicate Valid()
      reads this, out
    {
      && !out.fixedSize
      && out.data == base + Written(fed)
      && pos == Position(fed)
      && (pos != 0 ==> leftover == Leftover(fed))
    }

    constructor (out: Dstr)
      requires !out.fixedSize
      ensures Valid() && this.out == out && fed == [] && base == out.data
    {
      this.out, pos, leftover := out, 0, 0;
      fed, base := [], out.data;
    }

    method Put(c: byte)
      requires Valid()
      modifies this, out
      ensures Valid() && base == old(base) && fed == old(fed) + [c]
    {
      hide Digit, Written, Position, Leftover, NewChars;
      FeedOne(fed, c);
      Assoc(base, Written(fed), NewChars(Position(fed), Leftover(fed), c));
      var chars;
      chars, pos, leftover := EncodeChar(pos, leftover, c);
      var ok := out.Append(chars);
      fed := fed + [c];
    }

    /** _writer_b64_puts */
    method PutAll(bytes: dstr)
      requires Valid()
      modifies this, out
      ensures Valid() && base == old(base) && fed == old(fed) + bytes
    {
      hide Written, Position, Leftover;
      assert fed == old(fed) + bytes[..0];
      for i := 0 to |bytes|
        invariant Valid() && base == old(base) && fed == old(fed) + bytes[..i]
      {
        Put(bytes[i]);
        assert bytes[..i + 1] == bytes[..i] + [bytes[i]];
      }
      assert bytes[..|bytes|] == bytes;
    }

    /** _b64_encode_finish: whatever the calls were that fed the bytes, the output is the batch
        encoder's, and a new text may begin. */
    method Finish()
      requires Valid()
      modifies this, out
      ensures Valid() && fed == []
      ensures out.data == base == old(base) + Text(old(fed), 0, 0)
    {
      hide Digit, Written, Position, Leftover, Text;
      FinishedIsBatch(fed);
      Assoc(base, Written(fed), LastChars(Position(fed), Leftover(fed)));
      var oldPos, left := pos, leftover;
      leftover, pos := 0, 0;
      var ok;
      if oldPos == 1 {
        ok := out.Append([Digit(left)]);
        ok := out.Append([EQUALS, EQUALS]);
      } else if oldPos == 2 {
        ok := out.Append([Digit(left)]);
        ok := out.Append([EQUALS]);
      }
      base, fed := base + Text(fed, 0, 0), [];
      NothingWritten();
    }
  }

  lemma NothingWritten()
    ensures Written([]) == [] && Position([]) == 0
  {
  }
}
