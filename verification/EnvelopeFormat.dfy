/** The encrypted message format of libcrypto/crypto.c and libcrypto/crypto.h, and what the code
    relies on in the cipher library. */
module EnvelopeFormat {
  import opened Bytes
  import opened Base64
  import opened Decimal

  const COLON: byte := 0x3A
  const LETTER_V: byte := 0x56
  const LETTER_R: byte := 0x52
  const LETTER_I: byte := 0x49
  const LETTER_M: byte := 0x4D

  const TAG_V: dstr := [LETTER_V, COLON]
  const TAG_R: dstr := [LETTER_R, COLON]
  const TAG_IV: dstr := [LETTER_I, LETTER_V, COLON]
  const TAG_M: dstr := [LETTER_M, COLON]

  const B64_WIDTH: nat := 64
  const LINE: nat := 48  // bytes in a full line: B64_CHUNK
  const CIPHER_IV_LEN: nat := 12
  const CIPHER_TAG_LEN: nat := 16
  const MAX_ENCRYPTER_PUBKEYS: nat := 128
  const PRE64_SIZE: nat := 1024     // encrypter_t.pre64
  const BUFFER_SIZE: nat := 2048    // decrypter_t.base64 and decrypter_t.buffer

  /** -----BEGIN SPLINTERMAIL MESSAGE----- */
  function PemHeader(): (t: dstr) {
    DASHES() + [0x42, 0x45, 0x47, 0x49, 0x4E, 0x20] + PemName() + DASHES()
  }

  /** -----END SPLINTERMAIL MESSAGE----- */
  function PemFooter(): (t: dstr) {
    DASHES() + [0x45, 0x4E, 0x44, 0x20] + PemName() + DASHES()
  }

  function DASHES(): (t: dstr) {
    [0x2D, 0x2D, 0x2D, 0x2D, 0x2D]
  }

  /** SPLINTERMAIL MESSAGE */
  function PemName(): (t: dstr) {
    [0x53, 0x50, 0x4C, 0x49, 0x4E, 0x54, 0x45, 0x52, 0x4D, 0x41, 0x49, 0x4C, 0x20,
     0x4D, 0x45, 0x53, 0x53, 0x41, 0x47, 0x45]
  }

  ghost predicate IsText(t: dstr, text: string) {
    |t| == |text| && forall i :: 0 <= i < |t| ==> t[i] as int == text[i] as int
  }

  /** The fixed texts, spelled out. */
  lemma TextsSpelled()
    ensures IsText(PemHeader(), "-----" + "BEGIN " + "SPLINTERMAIL MESSAGE" + "-----")
    ensures IsText(PemFooter(), "-----" + "END " + "SPLINTERMAIL MESSAGE" + "-----")
    ensures IsText(TAG_V, "V:") && IsText(TAG_R, "R:") && IsText(TAG_IV, "IV:") && IsText(TAG_M, "M:")
  {
    hide PemName, DASHES;
    DashesSpelled();
    NameSpelled();
  }

  lemma DashesSpelled()
    ensures IsText(DASHES(), "-----")
  {
  }

  lemma NameSpelled()
    ensures IsText(PemName(), "SPLINTERMAIL MESSAGE")
  {
  }

  /* ---------- the metadata ---------- */

  /** A line of metadata: the version, a recipient with the message key sealed for it, the IV. */
  datatype Item = V | R(fpr: dstr, sealed: dstr) | I(iv: dstr)

  /** A length-prefixed block of arbitrary bytes, and the byte that must follow it. */
  function BlockText(block: dstr, sep: byte): (t: dstr) {
    Printed(|block|) + [COLON] + block + [sep]
  }

  function ItemText(item: Item): (t: dstr) {
    match item
    case V => TAG_V + (Printed(1) + [NEWLINE])
    case R(fpr, sealed) => TAG_R + (BlockText(fpr, COLON) + BlockText(sealed, NEWLINE))
    case I(iv) => TAG_IV + BlockText(iv, NEWLINE)
  }

  /** Everything that is base64-encoded: the lines that are left, the start of the message, and
      the ciphertext. */
  function BinaryText(items: seq<Item>, ciphertext: dstr): (t: dstr) {
    if items == [] then TAG_M + ciphertext
    else ItemText(items[0]) + BinaryText(items[1..], ciphertext)
  }

  /** The recipients' lines. */
  function RecipItems(recips: seq<Recipient>): (items: seq<Item>)
    ensures |items| == |recips|
    ensures forall i :: 0 <= i < |recips| ==> items[i] == R(recips[i].fpr, recips[i].sealed)
  {
    seq(|recips|, i requires 0 <= i < |recips| => R(recips[i].fpr, recips[i].sealed))
  }

  datatype Recipient = Recipient(fpr: dstr, sealed: dstr)

  function Header(recips: seq<Recipient>, iv: dstr): (items: seq<Item>) {
    [V] + RecipItems(recips) + [I(iv)]
  }

  /** The whole message. */
  function Envelope(recips: seq<Recipient>, iv: dstr, ciphertext: dstr, tag: dstr): (t: dstr) {
    PemHeader() + [NEWLINE] + Text(BinaryText(Header(recips, iv), ciphertext), LINE, 0) + Tail(tag)
  }

  /** What follows the encoded bytes: the tag on a line of its own, and the footer. */
  function Tail(tag: dstr): (t: dstr) {
    [EQUALS] + (Text(tag, 0, 0) + [NEWLINE]) + (PemFooter() + [NEWLINE])
  }

  /** What the decrypter's parser can read back: no empty block (its substring function takes a
      zero end for "to the end"), and lines that fit the encrypter's buffer. */
  predicate Readable(item: Item) {
    && |ItemText(item)| <= PRE64_SIZE
    && match item
       case V => true
       case R(fpr, sealed) => fpr != [] && sealed != []
       case I(iv) => |iv| == CIPHER_IV_LEN
  }

  /* ---------- the cipher library ---------- */

  /** The cipher as the code sees it.  `seal` and `open` give all the bytes an update sequence has
      put out once some bytes were put in, `sealFinal` and `openFinal` the last bytes, `mac` the
      authentication tag of a ciphertext, and `unwrap` the message key inside a sealed key, which
      only the private key of a fingerprint's owner can unseal. */
  datatype Cipher = Cipher(
    seal: (dstr, dstr, dstr) -> dstr,
    sealFinal: (dstr, dstr, dstr) -> dstr,
    open: (dstr, dstr, dstr) -> dstr,
    openFinal: (dstr, dstr, dstr) -> dstr,
    mac: (dstr, dstr, dstr) -> dstr,
    unwrap: (dstr, dstr) -> Option<dstr>,
    blockSize: nat)
  {
    function Ciphertext(key: dstr, iv: dstr, plain: dstr): (c: dstr) {
      seal(key, iv, plain) + sealFinal(key, iv, plain)
    }

    /** Whether the library takes `tag` for the tag of a ciphertext: it compares as many bytes as it
        is given, and refuses to be given none. */
    predicate Verifies(key: dstr, iv: dstr, c: dstr, tag: dstr) {
      tag != [] && tag <= mac(key, iv, c)
    }

    /** What the OpenSSL manual promises of any cipher: an update puts out at most its input and
        a block less one byte, the last call at most a block. */
    ghost predicate Streams() {
      && 1 <= blockSize <= 16
      && (forall k, iv :: seal(k, iv, []) == [])
      && (forall k, iv, p, x :: seal(k, iv, p) <= seal(k, iv, p + x))
      && (forall k, iv, p, x :: |seal(k, iv, p + x)| <= |seal(k, iv, p)| + |x| + (blockSize - 1))
      && (forall k, iv, p :: |sealFinal(k, iv, p)| <= blockSize)
      && (forall k, iv, c :: |mac(k, iv, c)| == CIPHER_TAG_LEN)
    }

    /** What makes it this cipher: opening inverts sealing however the bytes are cut, and a
        ciphertext is as long as its plaintext, as in Galois/Counter Mode. */
    ghost predicate Opens() {
      && (forall k, iv :: open(k, iv, []) == [])
      && (forall k, iv, c, x :: open(k, iv, c) <= open(k, iv, c + x))
      && (forall k, iv, c, x :: |open(k, iv, c + x)| <= |open(k, iv, c)| + |x| + 15)
      && (forall k, iv, c :: |openFinal(k, iv, c)| <= 16)
      && (forall k, iv, p :: |Ciphertext(k, iv, p)| == |p|)
      && (forall k, iv, p ::
            var c := Ciphertext(k, iv, p); open(k, iv, c) + openFinal(k, iv, c) == p)
    }
  }

  /** The two sets of promises can be kept together: a cipher that copies its input keeps them. */
  lemma PromisesAreConsistent()
    ensures exists c: Cipher :: c.Streams() && c.Opens()
  {
    var c := Cipher((k, iv, p) => p, (k, iv, p) => [], (k, iv, p) => p, (k, iv, p) => [],
                    (k, iv, p) => seq(CIPHER_TAG_LEN, i => 0), (me, s) => Some(s), 1);
    assert forall k, iv, p :: c.Ciphertext(k, iv, p) == p;
    assert c.Streams() && c.Opens();
  }
}
