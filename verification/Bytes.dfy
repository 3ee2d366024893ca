/** The byte strings of libdstr: values (`dstr`) and the buffers that hold them (`Dstr`). */
module Bytes {
  type byte = bv8
  type dstr = seq<byte>

  const NEWLINE: byte := 0x0A
  const EQUALS: byte := 0x3D

  datatype Option<+T> = None | Some(value: T)

  /** The error types the modelled code raises (E_NONE is success). */
  datatype Error = E_NONE | E_FIXEDSIZE | E_PARAM | E_SSL | E_NOT4ME | E_INTERNAL

  function Min(a: int, b: int): (m: int) {
    if a < b then a else b
  }

  /** The concatenation of the pieces a stream is cut into. */
  function Flatten(pieces: seq<dstr>): (whole: dstr) {
    if pieces == [] then [] else pieces[0] + Flatten(pieces[1..])
  }

  lemma Assoc(a: dstr, b: dstr, c: dstr)
    ensures (a + b) + c == a + (b + c)
  {
  }

  lemma DropConcat(a: dstr, b: dstr, m: nat)
    requires m <= |b|
    ensures (a + b)[|a| + m..] == b[m..]
  {
  }

  lemma CutTwice(s: dstr, n: nat, k: nat)
    requires n + k <= |s|
    ensures s[..n] + s[n..][..k] == s[..n + k]
    ensures s[n..][k..] == s[n + k..]
  {
  }

  /** dstr_sub: `end == 0` means "to the end of the string". */
  function Sub(s: dstr, start: nat, end: nat): (r: dstr) {
    var so := Min(|s|, start);
    var eo := Min(|s|, if end != 0 then end else |s|);
    if eo < so then [] else s[so..eo]
  }

  /** A dstr_t: a string that is appended to and left-shifted in place.  Memory may always be
      found for a growable one; a fixed-size one refuses what does not fit. */
  class Dstr {
    var data: dstr
    const fixedSize: bool
    const size: nat

    constructor (fixedSize: bool, size: nat)
      ensures data == [] && this.fixedSize == fixedSize && this.size == size
    {
      this.data, this.fixedSize, this.size := [], fixedSize, size;
    }

    predicate Room(n: nat)
      reads this
    {
      fixedSize ==> |data| + n <= size
    }

    /** dstr_append */
    method Append(text: dstr) returns (ok: bool)
      modifies this
      ensures ok == old(Room(|text|))
      ensures data == if ok then old(data) + text else old(data)
    {
      ok := Room(|text|);
      if ok {
        data := data + text;
      }
    }

    /** dstr_leftshift */
    method LeftShift(count: nat)
      modifies this
      ensures data == old(data)[Min(count, |old(data)|)..]
    {
      if count == 0 {
        return;
      }
      var shift := Min(count, |data|);
      data := data[shift..];
    }
  }
}
