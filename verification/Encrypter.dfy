/** The encrypter of libcrypto/crypto.c: a fixed staging buffer between the cipher and the base64
    lines of the message. */
module Encrypter {
  import opened Bytes
  import opened Base64
  import opened EnvelopeFormat

  /** Of all the bytes staged so far, the ones still `pending` follow a whole number of lines, and
      those lines were written as `text`. */
  ghost predicate Staged(binary: dstr, pending: dstr, text: dstr) {
    |pending| <= |binary|
    && var n := |binary| - |pending|;
    pending == binary[n..] && n % 3 == 0 && Column(n, LINE) == 0 && text == Text(binary[..n], LINE, 0)
  }

  /** Flushing full lines. */
  lemma FlushLines(binary: dstr, pending: dstr, text: dstr, more: dstr)
    requires Staged(binary, pending, text)
    ensures var c := EncodeCall(pending + more, LINE, false);
      Staged(binary + more, c.rest, text + c.out) && |c.rest| < LINE
  {
    hide Text;
    var all, n := pending + more, |binary| - |pending|;
    var end := EncodeEnd(|all|, LINE, false);
    FullLines(|all|, LINE);
    ColumnsAdd(n, end);
    assert (binary + more)[..n + end] == binary[..n] + all[..end];
    TextSplit(binary[..n], all[..end], LINE, 0);
  }

  /** Flushing everything. */
  lemma FlushAll(binary: dstr, pending: dstr, text: dstr, more: dstr)
    requires Staged(binary, pending, text)
    ensures var c := EncodeCall(pending + more, LINE, true);
      text + c.out == Text(binary + more, LINE, 0) && c.rest == []
  {
    hide Text;
    var all, n := pending + more, |binary| - |pending|;
    assert all[..|all|] == all;
    assert binary[..n] + all == binary + more;
    TextSplit(binary[..n], all, LINE, 0);
  }

  lemma {:induction false} ColumnsAdd(n: nat, m: nat)
    requires Column(n, LINE) == 0 && Column(m, LINE) == 0
    ensures Column(n + m, LINE) == 0
  {
    if n >= LINE {
      ColumnsAdd(n - LINE, m);
    }
  }

  /** What is pending after a flush is the part of the last line. */
  lemma PendingIsColumn(binary: dstr, pending: dstr, text: dstr)
    requires Staged(binary, pending, text) && |pending| < LINE
    ensures |pending| == Column(|binary|, LINE)
  {
    ColumnOfSum(|binary| - |pending|, |pending|);
  }

  lemma {:induction false} ColumnOfSum(n: nat, m: nat)
    requires Column(n, LINE) == 0 && m < LINE
    ensures Column(n + m, LINE) == m
  {
    if n >= LINE {
      ColumnOfSum(n - LINE, m);
    }
  }

  /** Printing to a buffer of fixed size ends it with a null character, which needs a byte as well. */
  predicate Prints(staged: nat, line: dstr) {
    staged + |line| < PRE64_SIZE
  }

  /** The line number `i` fits what the lines before it leave in the staging buffer. */
  predicate LineFits(items: seq<Item>, i: nat)
    requires i < |items|
  {
    Prints(Column(|Lines(items[..i])|, LINE), ItemText(items[i]))
  }

  /** The lines from number 1 to number `n` fit. */
  ghost predicate FitUpTo(items: seq<Item>, n: nat)
    requires n < |items|
  {
    forall i :: 1 <= i <= n ==> LineFits(items, i)
  }

  /** All recipients' lines fit. */
  ghost predicate RecipsFit(recips: seq<Recipient>) {
    FitUpTo([V] + RecipItems(recips), |recips|)
  }

  lemma FittingLinesAreShort(recips: seq<Recipient>)
    requires RecipsFit(recips)
    ensures forall r :: r in recips ==> |ItemText(R(r.fpr, r.sealed))| < PRE64_SIZE
  {
    hide ItemText, Lines;
    forall r | r in recips
      ensures |ItemText(R(r.fpr, r.sealed))| < PRE64_SIZE
    {
      var i :| 0 <= i < |recips| && recips[i] == r;
      assert LineFits([V] + RecipItems(recips), i + 1);
    }
  }

  /** Lines that leave a line's room always do. */
  lemma ShortLinesFit(recips: seq<Recipient>)
    requires forall r :: r in recips ==> |ItemText(R(r.fpr, r.sealed))| <= PRE64_SIZE - LINE
    ensures RecipsFit(recips)
  {
    hide ItemText, Lines;
    var items := [V] + RecipItems(recips);
    forall i | 1 <= i <= |recips|
      ensures LineFits(items, i)
    {
      assert recips[i - 1] in recips;
      assert Column(|Lines(items[..i])|, LINE) < LINE;
    }
  }

  /** One more line. */
  lemma LinesUpTo(items: seq<Item>, i: nat)
    requires 1 <= i < |items|
    ensures Lines(items[..i + 1]) == Lines(items[..i]) + ItemText(items[i])
    ensures FitUpTo(items, i) <==> FitUpTo(items, i - 1) && LineFits(items, i)
    ensures FitUpTo(items, |items| - 1) ==> FitUpTo(items, i)
  {
    hide ItemText, Lines, LineFits;
    assert items[..i + 1] == items[..i] + [items[i]];
    LinesAppend(items[..i], items[i]);
  }

  class Encrypter {
    const cipher: Cipher
    const pre64: Dstr
    var key: dstr
    var iv: dstr
    var fed: dstr  // what the cipher was given
    ghost var started: bool
    ghost var recips: seq<Recipient>
    ghost var binary: dstr   // everything staged since the start of the message
    ghost var written: dstr  // everything given to the caller since then

    ghost predicate Valid()
      reads this, pre64
    {
      && cipher.Streams() && pre64.fixedSize && pre64.size == PRE64_SIZE && pre64.Room(0)
    }

    /** Between two calls: the staging buffer holds less than a line. */
    ghost predicate Underway()
      reads this, pre64
    {
      && Valid() && started && |pre64.data| < LINE && |iv| == CIPHER_IV_LEN
      && binary == BinaryText(Header(recips, iv), cipher.seal(key, iv, fed))
      && HasText()
    }

    /** What the caller got is the header and the full lines. */
    ghost predicate HasText()
      reads this`binary, this`written, pre64
    {
      exists text :: Staged(binary, pre64.data, text) && written == PemHeader() + [NEWLINE] + text
    }

    constructor (cipher: Cipher)
      requires cipher.Streams()
      ensures Valid() && !started && this.cipher == cipher && fresh(pre64)
    {
      this.cipher, key, iv, fed := cipher, [], [], [];
      started, recips, binary, written := false, [], [], [];
      pre64 := new Dstr(true, PRE64_SIZE);
    }

    /** The cipher writes straight into the free memory of the staging buffer, so there must be
        room: it has no other check. */
    method CipherWrites(bytes: dstr)
      requires Valid() && |pre64.data| + |bytes| <= PRE64_SIZE
      modifies pre64
      ensures Valid() && pre64.data == old(pre64.data) + bytes
    {
      var ok := pre64.Append(bytes);
    }

    /** bin2b64_stream(&ec->pre64, out, B64_WIDTH, false), after `more` was added to the buffer. */
    method Flush(out: Dstr, ghost before: dstr, ghost more: dstr)
      requires Valid() && out != pre64 && !out.fixedSize
      requires pre64.data == before + more
      requires exists text :: Staged(binary, before, text) && written == PemHeader() + [NEWLINE] + text
      modifies pre64, out, this`written, this`binary
      ensures Valid() && |pre64.data| < LINE && HasText()
      ensures binary == old(binary) + more
      ensures old(written) <= written && out.data == old(out.data) + written[|old(written)|..]
    {
      hide EncodeCall, Staged, PemHeader;
      ghost var text :| Staged(binary, before, text) && written == PemHeader() + [NEWLINE] + text;
      FlushLines(binary, before, text, more);
      ghost var c := EncodeCall(pre64.data, LINE, false);
      var err := Bin2B64Stream(pre64, out, B64_WIDTH, false);
      written := written + c.out;
      binary := binary + more;
      Assoc(PemHeader() + [NEWLINE], text, c.out);
    }

    /** Print a line of metadata, if the buffer has room for it. */
    method PrintLine(line: dstr, out: Dstr) returns (err: Error)
      requires Valid() && out != pre64 && !out.fixedSize
      requires |pre64.data| < LINE && HasText()
      modifies pre64, out, this`written, this`binary
      ensures Valid() && (err == E_NONE ==> |pre64.data| < LINE && HasText())
      ensures err == E_NONE || err == E_FIXEDSIZE
      ensures err == E_NONE <==> Prints(Column(|old(binary)|, LINE), line)
      ensures err == E_NONE ==> binary == old(binary) + line
      ensures old(written) <= written && out.data == old(out.data) + written[|old(written)|..]
    {
      hide Staged, PemHeader, Column;
      ghost var before := pre64.data;
      ghost var text :| Staged(binary, before, text) && written == PemHeader() + [NEWLINE] + text;
      PendingIsColumn(binary, before, text);
      var ok := pre64.Append(line);
      if !ok || |pre64.data| == pre64.size {
        return E_FIXEDSIZE;
      }
      Flush(out, before, line);
      err := E_NONE;
    }

    /** The recipients' lines of encrypter_start. */
    method PrintRecips(recips: seq<Recipient>, out: Dstr) returns (err: Error)
      requires Valid() && out != pre64 && !out.fixedSize
      requires |pre64.data| < LINE && HasText() && binary == ItemText(V)
      modifies pre64, out, this`written, this`binary
      ensures Valid() && (err == E_NONE ==> |pre64.data| < LINE && HasText())
      ensures old(written) <= written && out.data == old(out.data) + written[|old(written)|..]
      ensures err == E_NONE <==> RecipsFit(recips)
      ensures err == E_NONE ==> binary == Lines([V] + RecipItems(recips))
    {
      hide HasText, ItemText, Lines, Column;
      ghost var items := [V] + RecipItems(recips);
      assert items[..1] == [V];
      LinesOfOne(V);
      ghost var out0, written0 := out.data, written;
      err := E_NONE;
      var i := 0;
      while i < |recips|
        invariant i <= |recips| && Valid() && !out.fixedSize && err == E_NONE
        invariant |pre64.data| < LINE && HasText()
        invariant binary == Lines(items[..1 + i])
        invariant written0 <= written && out.data == out0 + written[|written0|..]
        invariant FitUpTo(items, i)
      {
        ghost var written1 := written;
        err := PrintLine(ItemText(R(recips[i].fpr, recips[i].sealed)), out);
        Extends(out0, written0, written1, written);
        assert items[1 + i] == R(recips[i].fpr, recips[i].sealed);
        LinesUpTo(items, 1 + i);
        assert err == E_NONE <==> LineFits(items, 1 + i);
        if err != E_NONE {
          return;
        }
        i := i + 1;
      }
      assert recips[..|recips|] == recips && items[..1 + |recips|] == items;
    }

    /** The header and the version line of encrypter_start. */
    method PrintHeader(out: Dstr)
      requires Valid() && out != pre64 && !out.fixedSize
      modifies pre64, out, this`written, this`binary
      ensures Valid() && |pre64.data| < LINE && HasText() && binary == ItemText(V)
      ensures out.data == old(out.data) + written
    {
      hide ItemText, PemHeader, Text, Staged;
      var ok := out.Append(PemHeader());
      ok := out.Append([NEWLINE]);
      pre64.LeftShift(|pre64.data|);
      binary, written := [], PemHeader() + [NEWLINE];
      NothingStaged();
      assert written + [] == written && binary + ItemText(V) == ItemText(V);
      Assoc(old(out.data), PemHeader(), [NEWLINE]);
      ghost var written0 := written;
      VersionLineFits();
      var err := PrintLine(ItemText(V), out);
      Assoc(old(out.data), written0, written[|written0|..]);
    }

    /** encrypter_start.  The library made the message's key, sealed it for every recipient, and
        chose the IV. */
    method Start(key: dstr, iv: dstr, recips: seq<Recipient>, out: Dstr) returns (err: Error)
      requires Valid() && out != pre64 && !out.fixedSize && |iv| == CIPHER_IV_LEN
      modifies this, pre64, out
      ensures Valid()
      ensures err == E_NONE ==>
                && Underway() && fed == []
                && this.key == key && this.iv == iv && this.recips == recips
                && out.data == old(out.data) + written
                && forall r :: r in recips ==> |ItemText(R(r.fpr, r.sealed))| < PRE64_SIZE
      ensures err == E_NONE <==> |recips| <= MAX_ENCRYPTER_PUBKEYS && RecipsFit(recips)
    {
      hide HasText, ItemText, Lines, BinaryText;
      started := false;
      if |recips| > MAX_ENCRYPTER_PUBKEYS {
        return E_FIXEDSIZE;
      }
      this.key, this.iv, this.recips, fed := key, iv, recips, [];
      PrintHeader(out);
      ghost var written1 := written;
      err := PrintRecips(recips, out);
      Assoc(old(out.data), written1, written[|written1|..]);
      if err != E_NONE {
        return;
      }
      FittingLinesAreShort(recips);
      ghost var written2 := written;
      IvLineFits(iv);
      err := PrintLine(ItemText(I(iv)) + TAG_M, out);
      Assoc(old(out.data), written2, written[|written2|..]);
      HeaderText(recips, iv);
      assert cipher.seal(key, iv, []) == [];
      started := true;
    }

    /** encrypter_update: pieces small enough that the cipher's output always fits. */
    method Update(text: dstr, out: Dstr)
      requires Underway() && out != pre64 && !out.fixedSize
      modifies this`fed, this`binary, this`written, pre64, out
      ensures Underway() && fed == old(fed) + text
      ensures old(written) <= written && out.data == old(out.data) + written[|old(written)|..]
    {
      hide Staged, Header, PemHeader, BinaryText;
      var chunkSize := pre64.size - LINE - cipher.blockSize + 1;
      ghost var out0, written0 := out.data, written;
      var i := 0;
      while i < |text|
        invariant 0 <= i && Underway() && !out.fixedSize
        invariant fed == old(fed) + text[..Min(i, |text|)]
        invariant written0 <= written && out.data == out0 + written[|written0|..]
        decreases |text| - i
      {
        var end := i + Min(|text| - i, chunkSize);
        var chunk := text[i..end];
        StreamGrows(cipher, key, iv, fed, chunk);
        var outBytes := cipher.seal(key, iv, fed + chunk)[|cipher.seal(key, iv, fed)|..];
        ghost var before, written1 := pre64.data, written;
        CipherWrites(outBytes);
        Flush(out, before, outBytes);
        BodyGrows(Header(recips, iv), cipher.seal(key, iv, fed), outBytes);
        fed := fed + chunk;
        assert text[..end] == text[..i] + chunk;
        Extends(out0, written0, written1, written);
        i := i + chunkSize;
      }
    }

    /** encrypter_finish: the last bytes, the tag and the footer.  Everything the caller was given
        since the start makes up the message, whatever the pieces of the plaintext were. */
    method Finish(out: Dstr)
      requires Underway() && out != pre64 && !out.fixedSize
      modifies this`binary, this`written, this`started, pre64, out
      ensures Valid() && !started
      ensures var ciphertext := cipher.Ciphertext(key, iv, fed);
        written == Envelope(recips, iv, ciphertext, cipher.mac(key, iv, ciphertext))
      ensures old(written) <= written && out.data == old(out.data) + written[|old(written)|..]
    {
      hide EncodeCall, Staged, Header, PemHeader, BinaryText, Text, Tail;
      ghost var text :| Staged(binary, pre64.data, text) && written == PemHeader() + [NEWLINE] + text;
      var last := cipher.sealFinal(key, iv, fed);
      FlushAll(binary, pre64.data, text, last);
      BodyGrows(Header(recips, iv), cipher.seal(key, iv, fed), last);
      ghost var c := EncodeCall(pre64.data + last, LINE, true);
      CipherWrites(last);
      var err := Bin2B64Stream(pre64, out, B64_WIDTH, true);
      var tagBytes := cipher.mac(key, iv, cipher.Ciphertext(key, iv, fed));
      WriteTail(tagBytes, out);
      ghost var tail := Tail(tagBytes);
      Assoc(PemHeader() + [NEWLINE], text, c.out);
      written := written + c.out + tail;
      ReadsTail(old(written), c.out, tail);
      Assoc(old(out.data), c.out, tail);
      started := false;
    }
  }

  /** The tag's line and the footer. */
  method WriteTail(tag: dstr, out: Dstr)
    requires |tag| == CIPHER_TAG_LEN && !out.fixedSize
    modifies out
    ensures out.data == old(out.data) + Tail(tag)
  {
    hide PemFooter, Text;
    var b64tag := EncodeTag(tag);
    var ok := out.Append([EQUALS]);
    ok := out.Append(b64tag + [NEWLINE]);
    ok := out.Append(PemFooter());
    ok := out.Append([NEWLINE]);
    TailParts(old(out.data), [EQUALS], b64tag + [NEWLINE], PemFooter(), [NEWLINE]);
  }

  lemma TailParts(a: dstr, b: dstr, c: dstr, d: dstr, e: dstr)
    ensures a + b + c + d + e == a + (b + c + (d + e))
  {
  }

  lemma ReadsTail(a: dstr, b: dstr, c: dstr)
    ensures a <= a + b + c && (a + b + c)[|a|..] == b + c
  {
  }

  lemma Extends(out0: dstr, w0: dstr, w1: dstr, w2: dstr)
    requires w0 <= w1 <= w2
    ensures out0 + w1[|w0|..] + w2[|w1|..] == out0 + w2[|w0|..]
  {
  }

  /** The tag, in base64 without line breaks, in a buffer twice its size. */
  method EncodeTag(tag: dstr) returns (b64: dstr)
    requires |tag| == CIPHER_TAG_LEN
    ensures b64 == Text(tag, 0, 0)
  {
    hide Text;
    var out := new Dstr(true, CIPHER_TAG_LEN * 2);
    TextWithoutBreaks(tag);
    assert tag[..|tag|] == tag;
    var err, consumed := Bin2B64Quiet(tag, out, 0, true);
    b64 := out.data;
  }

  lemma StreamGrows(c: Cipher, k: dstr, iv: dstr, p: dstr, x: dstr)
    requires c.Streams()
    ensures c.seal(k, iv, p) <= c.seal(k, iv, p + x)
    ensures |c.seal(k, iv, p + x)| <= |c.seal(k, iv, p)| + |x| + (c.blockSize - 1)
    ensures c.seal(k, iv, p) + c.seal(k, iv, p + x)[|c.seal(k, iv, p)|..] == c.seal(k, iv, p + x)
  {
  }

  lemma NothingStaged()
    ensures Staged([], [], [])
  {
  }

  /* ---------- the metadata, line by line ---------- */

  function Lines(items: seq<Item>): (t: dstr) {
    if items == [] then [] else ItemText(items[0]) + Lines(items[1..])
  }

  lemma LinesOfOne(item: Item)
    ensures Lines([item]) == ItemText(item)
  {
    hide ItemText;
    assert [item][1..] == [];
    assert ItemText(item) + [] == ItemText(item);
  }

  lemma {:induction false} LinesAppend(items: seq<Item>, item: Item)
    ensures Lines(items + [item]) == Lines(items) + ItemText(item)
    decreases |items|
  {
    hide ItemText;
    if items == [] {
      assert items + [item] == [item];
      LinesOfOne(item);
      assert [] + ItemText(item) == ItemText(item);
    } else {
      assert (items + [item])[1..] == items[1..] + [item];
      LinesAppend(items[1..], item);
      Assoc(ItemText(items[0]), Lines(items[1..]), ItemText(item));
    }
  }

  lemma {:induction false} LinesThenBody(items: seq<Item>, ciphertext: dstr)
    ensures BinaryText(items, ciphertext) == Lines(items) + (TAG_M + ciphertext)
    decreases |items|
  {
    hide ItemText;
    if items == [] {
      assert [] + (TAG_M + ciphertext) == TAG_M + ciphertext;
    } else {
      LinesThenBody(items[1..], ciphertext);
      Assoc(ItemText(items[0]), Lines(items[1..]), TAG_M + ciphertext);
    }
  }

  lemma HeaderText(recips: seq<Recipient>, iv: dstr)
    ensures Lines([V] + RecipItems(recips)) + (ItemText(I(iv)) + TAG_M)
         == BinaryText(Header(recips, iv), [])
  {
    hide ItemText, Lines, BinaryText;
    var items := [V] + RecipItems(recips);
    LinesAppend(items, I(iv));
    Assoc(Lines(items), ItemText(I(iv)), TAG_M);
    LinesThenBody(items + [I(iv)], []);
    assert TAG_M + [] == TAG_M;
  }

  lemma BodyGrows(items: seq<Item>, ciphertext: dstr, more: dstr)
    ensures BinaryText(items, ciphertext) + more == BinaryText(items, ciphertext + more)
  {
    hide Lines, BinaryText;
    LinesThenBody(items, ciphertext);
    LinesThenBody(items, ciphertext + more);
    Assoc(Lines(items), TAG_M + ciphertext, more);
    Assoc(TAG_M, ciphertext, more);
  }

  lemma VersionLineFits()
    ensures |ItemText(V)| <= PRE64_SIZE - LINE
  {
    Decimal.PrintedDenotes(1);
  }

  lemma IvLineFits(iv: dstr)
    requires |iv| == CIPHER_IV_LEN
    ensures |ItemText(I(iv)) + TAG_M| <= PRE64_SIZE - LINE
  {
    hide Decimal.Printed;
    Decimal.PrintedDenotes(CIPHER_IV_LEN);
  }
}
