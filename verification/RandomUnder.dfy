/** random_uint_under and random_uint64_under of libcrypto/crypto.c: raw words are divided down, and
    a word that would favour some value is drawn again. */
module RandomUnder {
  import opened Bytes

  const UINT32_MAX: nat := 0xFFFF_FFFF
  const UINT64_MAX: nat := 0xFFFF_FFFF_FFFF_FFFF
  const LIMIT: nat := 100000

  ghost function Interval(lo: nat, n: nat): (r: set<nat>)
    ensures forall w :: w in r <==> lo <= w < lo + n
  {
    if n == 0 then {} else Interval(lo, n - 1) + {lo + n - 1}
  }

  /** The raw words are 0 up to and including `max`. */
  ghost function Words(max: nat): set<nat> {
    Interval(0, max + 1)
  }

  function Divisor(end: nat, max: nat): (d: nat)
    requires 0 < end <= max
    ensures d == max / end && d > 0 && end * d <= max < end * d + end
  {
    var d := max / end;
    assert d * end <= max < d * end + end;
    assert d <= 0 ==> d * end <= 0;
    d
  }

  /** The value that a word is divided down to. */
  function Divided(w: nat, end: nat, max: nat): nat
    requires 0 < end <= max
  {
    w / Divisor(end, max)
  }

  predicate Accepted(w: nat, end: nat, max: nat)
    requires 0 < end <= max
  {
    Divided(w, end, max) < end
  }

  /** The words that give the value `v`. */
  ghost function WordsFor(v: nat, end: nat, max: nat): set<nat>
    requires 0 < end <= max
  {
    set w | w in Words(max) && Divided(w, end, max) == v
  }

  lemma {:induction false} IntervalSize(lo: nat, n: nat)
    ensures |Interval(lo, n)| == n
  {
    if n > 0 {
      IntervalSize(lo, n - 1);
    }
  }

  lemma DividedIs(w: nat, end: nat, max: nat, v: nat)
    requires 0 < end <= max
    ensures var d := Divisor(end, max); Divided(w, end, max) == v <==> v * d <= w < v * d + d
  {
    hide Divisor;
    var d := Divisor(end, max);
    QuotientBounds(w, d);
    if v * d <= w < v * d + d {
      Gap(w / d, v, d);
      Gap(v, w / d, d);
    }
  }

  lemma QuotientBounds(w: nat, d: nat)
    requires d > 0
    ensures var q := w / d; q * d <= w < q * d + d
  {
  }

  lemma Gap(x: nat, y: nat, d: nat)
    ensures x < y ==> y * d >= x * d + d
  {
    assert x < y ==> y * d - (x + 1) * d == (y - x - 1) * d >= 0;
  }

  /** Every value below `end` comes from exactly as many raw words as every other. */
  lemma EveryValueIsAsLikely(v: nat, end: nat, max: nat)
    requires v < end <= max
    ensures |WordsFor(v, end, max)| == max / end
  {
    hide Interval, Divisor, Divided;
    var d := Divisor(end, max);
    assert (v + 1) * d <= end * d;
    forall w: nat
      ensures w in WordsFor(v, end, max) <==> w in Interval(v * d, d)
    {
      DividedIs(w, end, max, v);
    }
    assert WordsFor(v, end, max) == Interval(v * d, d);
    IntervalSize(v * d, d);
  }

  ghost function AcceptedWords(end: nat, max: nat): set<nat>
    requires 0 < end <= max
  {
    set w | w in Words(max) && Accepted(w, end, max)
  }

  /** At least half of all raw words are accepted. */
  lemma AtLeastHalfAreAccepted(end: nat, max: nat)
    requires 0 < end <= max
    ensures 2 * |AcceptedWords(end, max)| >= |Words(max)| == max + 1
  {
    hide Interval, Accepted, Divisor, Divided;
    var d := Divisor(end, max);
    assert 0 <= end * d;
    forall w: nat
      ensures w in AcceptedWords(end, max) <==> w in Interval(0, end * d)
    {
      AcceptedBelow(w, end, max);
    }
    assert AcceptedWords(end, max) == Interval(0, end * d);
    IntervalSize(0, end * d);
    IntervalSize(0, max + 1);
    assert end <= end * d;
  }

  lemma AcceptedBelow(w: nat, end: nat, max: nat)
    requires 0 < end <= max
    ensures Accepted(w, end, max) <==> w < end * Divisor(end, max)
  {
    hide Divisor, Divided;
    var d := Divisor(end, max);
    var q := Divided(w, end, max);
    DividedIs(w, end, max, q);
    assert q < end ==> (q + 1) * d <= end * d;
    assert q >= end ==> q * d >= end * d;
  }

  datatype Drawn = Value(v: nat) | NoRandomBytes | TooManyTries

  /** What a run of draws comes to: the first word that is accepted decides, unless random_bytes
      fails first or the tries run out. */
  ghost function Outcome(draws: nat -> Option<nat>, i: nat, end: nat, max: nat): Drawn
    requires 0 < end <= max
    decreases LIMIT - i
  {
    if i >= LIMIT then TooManyTries
    else match draws(i)
      case None => NoRandomBytes
      case Some(w) =>
        if Accepted(w, end, max) then Value(Divided(w, end, max)) else Outcome(draws, i + 1, end, max)
  }

  /** The first `k` tries gave words, and none of them was accepted. */
  ghost predicate AllRejected(draws: nat -> Option<nat>, k: nat, end: nat, max: nat)
    requires 0 < end <= max
  {
    forall j :: 0 <= j < k ==> draws(j).Some? && draws(j).value / (max / end) >= end
  }

  /** The first try that does not give a word to be rejected decides: a word below `end` when it is
      divided down is the value, and a failure of random_bytes is the failure. */
  ghost predicate DecidedBy(r: Drawn, draws: nat -> Option<nat>, k: nat, end: nat, max: nat)
    requires 0 < end <= max
  {
    && k < LIMIT && AllRejected(draws, k, end, max)
    && match draws(k)
       case None => r == NoRandomBytes
       case Some(w) => w / (max / end) < end && r == Value(w / (max / end))
  }

  /** There are no other outcomes, but for too many tries when every one was rejected. */
  lemma {:induction false} FirstTryDecides(draws: nat -> Option<nat>, i: nat, end: nat, max: nat)
    requires 0 < end <= max && i <= LIMIT && AllRejected(draws, i, end, max)
    ensures var r := Outcome(draws, i, end, max);
      || (r == TooManyTries && AllRejected(draws, LIMIT, end, max))
      || exists k: nat :: DecidedBy(r, draws, k, end, max)
    decreases LIMIT - i
  {
    if i < LIMIT {
      if draws(i).None? || Accepted(draws(i).value, end, max) {
        assert DecidedBy(Outcome(draws, i, end, max), draws, i, end, max);
      } else {
        FirstTryDecides(draws, i + 1, end, max);
      }
    }
  }

  /** random_uint_under (max is UINT32_MAX) and random_uint64_under (UINT64_MAX) */
  method RandomUnder(draws: nat -> Option<nat>, end: nat, max: nat) returns (r: Drawn)
    requires 0 < end <= max
    ensures r == Outcome(draws, 0, end, max)
    ensures r.Value? ==> r.v < end
  {
    var divisor := max / end;
    assert divisor == Divisor(end, max);
    var tries := 0;
    while tries < LIMIT
      invariant tries <= LIMIT
      invariant Outcome(draws, tries, end, max) == Outcome(draws, 0, end, max)
    {
      match draws(tries) {
        case None =>
          return NoRandomBytes;
        case Some(w) =>
          var temp := w / divisor;
          if temp < end {
            return Value(temp);
          }
      }
      tries := tries + 1;
    }
    r := TooManyTries;
  }

  /** No value is favoured whichever try decides: after the same words before it, as many words of
      try number `k` lead to `v` as to `u`. */
  lemma NoTryFavoursAValue(draws: nat -> Option<nat>, k: nat, u: nat, v: nat, end: nat, max: nat)
    requires u < end <= max && v < end && k < LIMIT
    requires forall i :: 0 <= i < k ==> draws(i).Some? && !Accepted(draws(i).value, end, max)
    ensures |LeadingTo(draws, k, u, end, max)| == |LeadingTo(draws, k, v, end, max)| == max / end
  {
    LeadersAreWords(draws, k, u, end, max);
    LeadersAreWords(draws, k, v, end, max);
    EveryValueIsAsLikely(u, end, max);
    EveryValueIsAsLikely(v, end, max);
  }

  /** The words that, drawn at try `k`, make `v` the outcome. */
  ghost function LeadingTo(draws: nat -> Option<nat>, k: nat, v: nat, end: nat, max: nat): set<nat>
    requires 0 < end <= max
  {
    set w | w in Words(max) && Outcome(i => if i == k then Some(w) else draws(i), 0, end, max) == Value(v)
                 && Accepted(w, end, max)
  }

  lemma LeadersAreWords(draws: nat -> Option<nat>, k: nat, v: nat, end: nat, max: nat)
    requires v < end <= max && k < LIMIT
    requires forall i :: 0 <= i < k ==> draws(i).Some? && !Accepted(draws(i).value, end, max)
    ensures LeadingTo(draws, k, v, end, max) == WordsFor(v, end, max)
  {
    hide Interval, Divisor, Divided, Outcome;
    forall w | w in Words(max) && Accepted(w, end, max)
      ensures Outcome(i => if i == k then Some(w) else draws(i), 0, end, max) == Value(Divided(w, end, max))
    {
      ReachesTry(i => if i == k then Some(w) else draws(i), 0, k, end, max);
    }
  }

  lemma {:induction false} ReachesTry(draws: nat -> Option<nat>, i: nat, k: nat, end: nat, max: nat)
    requires 0 < end <= max && i <= k < LIMIT && draws(k).Some? && Accepted(draws(k).value, end, max)
    requires forall j :: i <= j < k ==> draws(j).Some? && !Accepted(draws(j).value, end, max)
    ensures Outcome(draws, i, end, max) == Value(Divided(draws(k).value, end, max))
    decreases k - i
  {
    if i < k {
      ReachesTry(draws, i + 1, k, end, max);
    }
  }
}
