/** Multi-pattern search and replace of libdstr/common.c, in one call or over a stream. */
module Recode {
  import opened Bytes

  /* ---------- dstr_find ---------- */

  predicate MatchesAt(t: dstr, i: nat, pat: dstr) {
    i + |pat| <= |t| && t[i..i + |pat|] == pat
  }

  /** The first pattern, from index `p` on, that matches at position `i`. */
  function WhichAt(t: dstr, i: nat, pats: seq<dstr>, p: nat): (w: Option<nat>)
    requires p <= |pats|
    ensures w.Some? ==> p <= w.value < |pats| && MatchesAt(t, i, pats[w.value])
    ensures w.Some? ==> forall q :: p <= q < w.value ==> !MatchesAt(t, i, pats[q])
    ensures w.None? ==> forall q :: p <= q < |pats| ==> !MatchesAt(t, i, pats[q])
    decreases |pats| - p
  {
    if p == |pats| then None
    else if MatchesAt(t, i, pats[p]) then Some(p)
    else WhichAt(t, i, pats, p + 1)
  }

  datatype Match = Match(pos: nat, which: nat)

  /** The leftmost match at position `i` or later. */
  function Find(t: dstr, i: nat, pats: seq<dstr>): (m: Option<Match>)
    requires i <= |t|
    ensures m.Some? ==> i <= m.value.pos < |t| && m.value.which < |pats|
    decreases |t| - i
  {
    if i == |t| then None
    else
      var w := WhichAt(t, i, pats, 0);
      if w.Some? then Some(Match(i, w.value)) else Find(t, i + 1, pats)
  }

  /** What it means to be the leftmost match, and to have none. */
  ghost predicate Leftmost(t: dstr, i: nat, pats: seq<dstr>, m: Option<Match>) {
    match m
    case Some(Match(pos, which)) =>
      && i <= pos < |t| && which < |pats| && MatchesAt(t, pos, pats[which])
      && (forall j, p :: i <= j < pos && 0 <= p < |pats| ==> !MatchesAt(t, j, pats[p]))
      && (forall p :: 0 <= p < which ==> !MatchesAt(t, pos, pats[p]))
    case None =>
      forall j, p :: i <= j < |t| && 0 <= p < |pats| ==> !MatchesAt(t, j, pats[p])
  }

  lemma {:induction false} FindIsLeftmost(t: dstr, i: nat, pats: seq<dstr>)
    requires i <= |t|
    ensures Leftmost(t, i, pats, Find(t, i, pats))
    decreases |t| - i
  {
    hide MatchesAt;
    if i < |t| && WhichAt(t, i, pats, 0).None? {
      FindIsLeftmost(t, i + 1, pats);
    }
  }

  lemma LeftmostIsUnique(t: dstr, i: nat, pats: seq<dstr>, m: Option<Match>, m': Option<Match>)
    requires Leftmost(t, i, pats, m) && Leftmost(t, i, pats, m')
    ensures m == m'
  {
    hide MatchesAt;
    if m.Some? && m'.Some? {
      assert m.value.pos == m'.value.pos;
    }
  }

  /** A search for a single character, the way the callers use dstr_find most. */
  function IndexOf(t: dstr, c: byte): (pos: Option<nat>)
    ensures pos.Some? ==> pos.value < |t|
  {
    var m := Find(t, 0, [[c]]);
    if m.Some? then Some(m.value.pos) else None
  }

  lemma CharMatches(t: dstr, i: nat, c: byte)
    ensures MatchesAt(t, i, [c]) <==> i < |t| && t[i] == c
  {
    if i < |t| {
      assert t[i..i + 1] == [t[i]];
    }
  }

  lemma IndexOfIsFirst(t: dstr, c: byte)
    ensures var pos := IndexOf(t, c);
      if pos.Some? then t[pos.value] == c && c !in t[..pos.value] else c !in t
  {
    hide Find, MatchesAt;
    FindIsLeftmost(t, 0, [[c]]);
    forall i | 0 <= i < |t|
      ensures MatchesAt(t, i, [[c]][0]) <==> t[i] == c
    {
      CharMatches(t, i, c);
    }
  }

  lemma IndexOfAbsent(t: dstr, c: byte)
    requires c !in t
    ensures IndexOf(t, c) == None
  {
    hide IndexOf;
    IndexOfIsFirst(t, c);
  }

  lemma IndexOfUnique(t: dstr, c: byte, pos: nat)
    requires pos < |t| && t[pos] == c && c !in t[..pos]
    ensures IndexOf(t, c) == Some(pos)
  {
    hide IndexOf;
    IndexOfIsFirst(t, c);
    assert forall i :: 0 <= i < pos ==> t[..pos][i] == t[i];
    assert forall i :: pos < i <= |t| ==> t[..i][pos] == c;
  }

  /** Whether the end of the text, from `i` on, is the beginning of a longer pattern. */
  predicate Begins(t: dstr, i: nat, pat: dstr)
    requires i <= |t|
  {
    |t| - i < |pat| && t[i..] == pat[..|t| - i]
  }

  /** The length of the longest end of the text, from `i` on, that may turn into a match. */
  function HeldBack(t: dstr, i: nat, pats: seq<dstr>): (n: nat)
    requires i <= |t|
    ensures n <= |t| - i
    ensures forall j, p :: i <= j < |t| - n && 0 <= p < |pats| ==> !Begins(t, j, pats[p])
    ensures n > 0 ==> exists p :: 0 <= p < |pats| && Begins(t, |t| - n, pats[p])
    decreases |t| - i
  {
    if i == |t| then 0
    else if exists p :: 0 <= p < |pats| && Begins(t, i, pats[p]) then |t| - i
    else HeldBack(t, i + 1, pats)
  }

  /** dstr_find, with its scan over positions, patterns and characters. */
  method DstrFind(text: dstr, patterns: seq<dstr>) returns (m: Option<Match>, partial: nat)
    ensures m == Find(text, 0, patterns)
    ensures partial == if m.Some? then 0 else HeldBack(text, 0, patterns)
  {
    hide HeldBack, Find, WhichAt, MatchesAt, Begins;
    var maxPartial := 0;
    for i := 0 to |text|
      invariant Find(text, 0, patterns) == Find(text, i, patterns)
      invariant if maxPartial > 0 then maxPartial == HeldBack(text, 0, patterns) >= |text| - i
                else HeldBack(text, 0, patterns) == HeldBack(text, i, patterns)
    {
      ghost var heldAt := if maxPartial > 0 then 0 else HeldBack(text, i, patterns);
      ghost var before := maxPartial;
      for p := 0 to |patterns|
        invariant forall q :: 0 <= q < p ==> !MatchesAt(text, i, patterns[q])
        invariant maxPartial ==
          if before > 0 then before
          else if exists q :: 0 <= q < p && Begins(text, i, patterns[q]) then |text| - i
          else 0
      {
        var isMatch, part := CompareAt(text, i, patterns[p]);
        if isMatch {
          WhichIsFirst(text, i, patterns, p);
          FindHere(text, i, patterns);
          return Some(Match(i, p)), 0;
        }
        if maxPartial < part {
          maxPartial := part;
        }
      }
      FindHere(text, i, patterns);
      HeldBackHere(text, i, patterns);
    }
    FindHere(text, |text|, patterns);
    HeldBackHere(text, |text|, patterns);
    return None, maxPartial;
  }

  /** The innermost loop: whether `pat` matches at `i`, and if the text ends inside it, how much
      of the pattern was there. */
  method CompareAt(text: dstr, i: nat, pat: dstr) returns (isMatch: bool, part: nat)
    requires i < |text|
    ensures isMatch == MatchesAt(text, i, pat)
    ensures part == if Begins(text, i, pat) then |text| - i else 0
  {
    for j := 0 to |pat|
      invariant i + j <= |text| && text[i..i + j] == pat[..j]
    {
      if i + j == |text| {
        assert text[i..] == text[i..i + j];
        return false, j;
      }
      if text[i + j] != pat[j] {
        assert text[i..][j] != pat[j];
        assert i + |pat| <= |text| ==> text[i..i + |pat|][j] != pat[j];
        return false, 0;
      }
      assert text[i..i + j + 1] == text[i..i + j] + [text[i + j]];
      assert pat[..j + 1] == pat[..j] + [pat[j]];
    }
    assert pat[..|pat|] == pat;
    return true, 0;
  }

  lemma WhichIsFirst(t: dstr, i: nat, pats: seq<dstr>, p: nat)
    requires p < |pats| && MatchesAt(t, i, pats[p])
    requires forall q :: 0 <= q < p ==> !MatchesAt(t, i, pats[q])
    ensures WhichAt(t, i, pats, 0) == Some(p)
  {
    hide MatchesAt;
  }

  lemma FindHere(t: dstr, i: nat, pats: seq<dstr>)
    requires i <= |t|
    ensures Find(t, i, pats) ==
      if i == |t| then None
      else if WhichAt(t, i, pats, 0).Some? then Some(Match(i, WhichAt(t, i, pats, 0).value))
      else Find(t, i + 1, pats)
  {
  }

  lemma HeldBackHere(t: dstr, i: nat, pats: seq<dstr>)
    requires i <= |t|
    ensures HeldBack(t, i, pats) ==
      if i == |t| then 0
      else if exists p :: 0 <= p < |pats| && Begins(t, i, pats[p]) then |t| - i
      else HeldBack(t, i + 1, pats)
  {
  }

  /* ---------- do_dstr_recode ---------- */

  /** The search strings with their replacements, and the one that means "stop", if any. */
  datatype Rules = Rules(search: seq<dstr>, replace: seq<dstr>, stop: Option<nat>) {
    /** What the C code relies on: as many replacements as search strings, and no empty ones. */
    predicate Usable() {
      |search| == |replace| && forall p :: 0 <= p < |search| ==> search[p] != []
    }

    /** The documented condition: no search string is a substring of another. */
    ghost predicate NoSubstrings() {
      forall p, q, k: nat :: 0 <= p < |search| && 0 <= q < |search| && p != q ==>
        !MatchesAt(search[q], k, search[p])
    }
  }

  /** Search string `q` can be found: no lower-numbered one is a beginning of it. */
  ghost predicate Findable(search: seq<dstr>, q: nat)
    requires q < |search|
  {
    forall p :: 0 <= p < q ==> !MatchesAt(search[q], 0, search[p])
  }

  /** Search string `p` is found before the end of `q` has arrived, and `q` would have been preferred. */
  ghost predicate EndsInside(search: seq<dstr>, q: nat, p: nat, k: nat)
    requires q < |search| && p < |search|
  {
    MatchesAt(search[q], k, search[p]) && k + |search[p]| < |search[q]| && (k > 0 || q < p)
  }

  /** The exact condition for streaming. */
  ghost predicate NoneEndsInside(search: seq<dstr>) {
    forall q: nat, p: nat, k: nat ::
      q < |search| && p < |search| && Findable(search, q) ==> !EndsInside(search, q, p, k)
  }

  lemma DocumentedConditionSuffices(r: Rules)
    requires r.NoSubstrings()
    ensures NoneEndsInside(r.search)
  {
    hide MatchesAt;
  }

  datatype Recoded = Recoded(out: dstr, consumed: nat, stopped: bool)

  function RecodeText(t: dstr, r: Rules, force: bool): (res: Recoded)
    requires r.Usable()
    ensures res.consumed <= |t|
    decreases |t|, 1
  {
    if t == [] then Recoded([], 0, false) else RecodeTurn(t, r, force)
  }

  /** One turn of the loop, and what comes after it. */
  function RecodeTurn(t: dstr, r: Rules, force: bool): (res: Recoded)
    requires r.Usable() && t != []
    ensures res.consumed <= |t|
    decreases |t|, 0
  {
    match Find(t, 0, r.search)
    case None =>
      var until := |t| - if force then 0 else HeldBack(t, 0, r.search);
      Recoded(t[..until], until, false)
    case Some(Match(pos, which)) =>
      FindIsLeftmost(t, 0, r.search);
      var out, n := t[..pos] + r.replace[which], pos + |r.search[which]|;
      if r.stop == Some(which) then Recoded(out, n, true)
      else
        var later := RecodeText(t[n..], r, force);
        Recoded(out + later.out, n + later.consumed, later.stopped)
  }

  /** do_dstr_recode */
  method DoRecode(text: dstr, out: Dstr, r: Rules, force: bool)
    returns (err: Error, foundStop: bool, consumed: nat)
    requires r.Usable() && out.Room(0)
    modifies out
    ensures err == E_NONE || err == E_FIXEDSIZE
    ensures err == E_NONE <==> old(out.Room(|RecodeText(text, r, force).out|))
    ensures err == E_NONE ==>
              && out.data == old(out.data) + RecodeText(text, r, force).out
              && foundStop == RecodeText(text, r, force).stopped
              && consumed == RecodeText(text, r, force).consumed
    ensures old(out.data) <= out.data
  {
    hide RecodeText, Find, HeldBack, WhichAt, MatchesAt;
    foundStop := false;
    err := E_NONE;
    var from := 0;
    assert text[0..] == text;
    while from < |text|
      invariant 0 <= from <= |text| && out.Room(0) && old(out.data) <= out.data && !foundStop
      invariant RecodeText(text, r, force).consumed == from + RecodeText(text[from..], r, force).consumed
      invariant RecodeText(text, r, force).stopped == RecodeText(text[from..], r, force).stopped
      invariant old(out.data) + RecodeText(text, r, force).out
             == out.data + RecodeText(text[from..], r, force).out
    {
      var sub := text[from..];
      RecodeStep(sub, r, force);
      FindIsLeftmost(sub, 0, r.search);
      var position, partial := DstrFind(sub, r.search);
      if force {
        partial := 0;
      }
      if position.None? {
        var until := |sub| - partial;
        var ok := out.Append(sub[..until]);
        if !ok {
          return E_FIXEDSIZE, false, 0;
        }
        return E_NONE, false, from + until;
      }
      var Match(pos, which) := position.value;
      ghost var n := pos + |r.search[which]|;
      assert sub[n..] == text[from + n..];
      Assoc(out.data, sub[..pos] + r.replace[which], RecodeText(sub[n..], r, force).out);
      var ok := AppendBoth(out, sub[..pos], r.replace[which]);
      if !ok {
        return E_FIXEDSIZE, false, 0;
      }
      from := from + pos + |r.search[which]|;
      if r.stop == Some(which) {
        return E_NONE, true, from;
      }
    }
    assert text[from..] == [];
    RecodeOfNothing(r, force);
    consumed := from;
  }

  method AppendBoth(out: Dstr, a: dstr, b: dstr) returns (ok: bool)
    requires out.Room(0)
    modifies out
    ensures ok == old(out.Room(|a + b|))
    ensures ok ==> out.data == old(out.data) + (a + b)
    ensures old(out.data) <= out.data
  {
    ok := out.Append(a);
    if ok {
      ok := out.Append(b);
    }
  }

  lemma RecodeOfNothing(r: Rules, force: bool)
    requires r.Usable()
    ensures RecodeText([], r, force) == Recoded([], 0, false)
  {
  }

  lemma RecodeStep(t: dstr, r: Rules, force: bool)
    requires r.Usable() && t != []
    ensures RecodeText(t, r, force) == RecodeTurn(t, r, force)
  {
  }

  /** One replacement: the text passed over, and which search string was found behind it. */
  datatype Edit = Edit(gap: dstr, which: nat)

  /** What was read for some edits, and what was written for them. */
  ghost function Read(edits: seq<Edit>, r: Rules): dstr
    requires r.Usable() && forall e :: e in edits ==> e.which < |r.search|
  {
    if edits == [] then [] else (edits[0].gap + r.search[edits[0].which]) + Read(edits[1..], r)
  }

  ghost function Written(edits: seq<Edit>, r: Rules): dstr
    requires r.Usable() && forall e :: e in edits ==> e.which < |r.search|
  {
    if edits == [] then [] else (edits[0].gap + r.replace[edits[0].which]) + Written(edits[1..], r)
  }

  /** Each edit is the leftmost match of what was not read before it, and none but the last finds the
      stop string. */
  ghost predicate InTurn(t: dstr, edits: seq<Edit>, r: Rules)
    requires r.Usable()
    decreases edits
  {
    edits != [] ==>
      var e := edits[0];
      && e.which < |r.search|
      && Leftmost(t, 0, r.search, Some(Match(|e.gap|, e.which)))
      && e.gap + r.search[e.which] <= t
      && (r.stop == Some(e.which) ==> edits[1..] == [])
      && InTurn(t[|e.gap| + |r.search[e.which]|..], edits[1..], r)
  }

  lemma {:induction false} InTurnIsUsable(t: dstr, edits: seq<Edit>, r: Rules)
    requires r.Usable() && InTurn(t, edits, r)
    ensures forall e :: e in edits ==> e.which < |r.search|
    decreases edits
  {
    if edits != [] {
      InTurnIsUsable(t[|edits[0].gap| + |r.search[edits[0].which]|..], edits[1..], r);
    }
  }

  /** What do_dstr_recode does to a text: matches are replaced one after another, each the leftmost that
      is left; if the stop string is found, its replacement is the last thing written, and otherwise text
      without a match is passed through, all of it when forced. */
  lemma {:induction false} RecodesInTurn(t: dstr, r: Rules, force: bool) returns (edits: seq<Edit>, tail: dstr)
    requires r.Usable()
    ensures Recodes(t, r, force, RecodeText(t, r, force), edits, tail)
    decreases |t|
  {
    hide RecodeText, Find, HeldBack, Recodes;
    edits, tail := [], [];
    if t == [] {
      RecodeOfNothing(r, force);
      assert t[..0] == [];
      NoEdits(t, r, force);
    } else {
      RecodeStep(t, r, force);
      FindIsLeftmost(t, 0, r.search);
      var m := Find(t, 0, r.search);
      if m.None? {
        tail := t[..RecodeText(t, r, force).consumed];
        NoEdits(t, r, force);
      } else {
        var pos, which := m.value.pos, m.value.which;
        var e, n := Edit(t[..pos], which), pos + |r.search[which]|;
        var later := [];
        if r.stop != Some(which) {
          later, tail := RecodesInTurn(t[n..], r, force);
        }
        edits := [e] + later;
        FirstEdit(t, r, force, e, later, tail);
      }
    }
  }

  /** The edits and the text behind them tell what was read and what was written. */
  ghost predicate Recodes(t: dstr, r: Rules, force: bool, res: Recoded, edits: seq<Edit>, tail: dstr)
    requires r.Usable() && res.consumed <= |t|
  {
    && InTurn(t, edits, r) && (forall e :: e in edits ==> e.which < |r.search|)
    && t[..res.consumed] == Read(edits, r) + tail
    && res.out == Written(edits, r) + tail
    && (res.stopped <==> edits != [] && r.stop == Some(edits[|edits| - 1].which))
    && (res.stopped ==> tail == [])
    && (!res.stopped ==> Find(t[|Read(edits, r)|..], 0, r.search) == None)
    && (!res.stopped && force ==> res.consumed == |t|)
  }

  lemma NoEdits(t: dstr, r: Rules, force: bool)
    requires r.Usable() && (t == [] || Find(t, 0, r.search) == None)
    ensures Recodes(t, r, force, RecodeText(t, r, force), [], t[..RecodeText(t, r, force).consumed])
  {
    hide HeldBack;
    FindHere(t, 0, r.search);
    assert t[0..] == t;
    var none, tail: dstr := [], t[..RecodeText(t, r, force).consumed];
    assert none + tail == tail;
  }

  lemma FirstEdit(t: dstr, r: Rules, force: bool, e: Edit, later: seq<Edit>, tail: dstr)
    requires r.Usable() && t != [] && Find(t, 0, r.search) == Some(Match(|e.gap|, e.which))
    requires e.which < |r.search| && |e.gap| <= |t| && e.gap == t[..|e.gap|]
    requires |e.gap| + |r.search[e.which]| <= |t|
    requires var rest := t[|e.gap| + |r.search[e.which]|..];
      if r.stop == Some(e.which) then later == [] && tail == []
      else Recodes(rest, r, force, RecodeText(rest, r, force), later, tail)
    ensures Recodes(t, r, force, RecodeText(t, r, force), [e] + later, tail)
  {
    hide RecodeText, Find, Leftmost;
    RecodeStep(t, r, force);
    FindIsLeftmost(t, 0, r.search);
    assert MatchesAt(t, |e.gap|, r.search[e.which]) by { FoundMatches(t, r.search, |e.gap|, e.which); }
    MatchIsThere(t, |e.gap|, r.search[e.which]);
    var n := |e.gap| + |r.search[e.which]|;
    if r.stop == Some(e.which) {
      OneEdit(e, r);
      assert [e] + later == [e] && ([e] + later)[1..] == [];
      assert t[..n] == (e.gap + r.search[e.which]) + tail;
      assert e.gap + r.replace[e.which] == (e.gap + r.replace[e.which]) + tail;
      assert InTurn(t[n..], [], r);
      assert RecodeText(t, r, force) == Recoded(e.gap + r.replace[e.which], n, true);
    } else {
      var rest := t[n..];
      var res := RecodeText(rest, r, force);
      assert ([e] + later)[1..] == later;
      Assoc(e.gap + r.search[e.which], Read(later, r), tail);
      Assoc(e.gap + r.replace[e.which], Written(later, r), tail);
      assert t[..n + res.consumed] == t[..n] + rest[..res.consumed];
      assert rest[|Read(later, r)|..] == t[n + |Read(later, r)|..] by {
        assert |Read(later, r)| <= |rest[..res.consumed]|;
      }
    }
  }

  lemma FoundMatches(t: dstr, pats: seq<dstr>, pos: nat, which: nat)
    requires Leftmost(t, 0, pats, Some(Match(pos, which)))
    ensures which < |pats| && MatchesAt(t, pos, pats[which])
  {
  }

  lemma MatchIsThere(t: dstr, pos: nat, pat: dstr)
    requires MatchesAt(t, pos, pat)
    ensures pos + |pat| <= |t| && t[..pos + |pat|] == t[..pos] + pat && t[..pos] + pat <= t
  {
    assert t[..pos + |pat|] == t[..pos] + t[pos..pos + |pat|];
  }

  lemma OneEdit(e: Edit, r: Rules)
    requires r.Usable() && e.which < |r.search|
    ensures Read([e], r) == e.gap + r.search[e.which] && Written([e], r) == e.gap + r.replace[e.which]
  {
    assert [e][1..] == [];
  }

  /** dstr_recode_stream: recode what is certain yet and keep the rest. */
  method RecodeStreamCall(text: Dstr, out: Dstr, r: Rules, force: bool)
    returns (err: Error, foundStop: bool)
    requires r.Usable() && text != out && out.Room(0)
    modifies text, out
    ensures err == E_NONE || err == E_FIXEDSIZE
    ensures err == E_NONE <==> old(out.Room(|RecodeText(text.data, r, force).out|))
    ensures err == E_NONE ==>
              var res := RecodeText(old(text.data), r, force);
              && out.data == old(out.data) + res.out && foundStop == res.stopped
              && text.data == old(text.data)[res.consumed..]
    ensures err != E_NONE ==> text.data == old(text.data) && old(out.data) <= out.data
  {
    var consumed;
    err, foundStop, consumed := DoRecode(text.data, out, r, force);
    if err == E_NONE {
      text.LeftShift(consumed);
    }
  }

  /** A whole stream: every piece is appended to the pending text, only the last forces the end,
      and nothing more is fed once the stop string was found.  `rest` is all the text that was
      not consumed, fed or not. */
  datatype Streamed = Streamed(out: dstr, rest: dstr, stopped: bool)

  function RecodeStream(pending: dstr, pieces: seq<dstr>, r: Rules): (s: Streamed)
    requires r.Usable() && pieces != []
    decreases |pieces|
  {
    var text := pending + pieces[0];
    var res := RecodeText(text, r, |pieces| == 1);
    var rest := text[res.consumed..];
    if res.stopped || |pieces| == 1 then
      Streamed(res.out, rest + Flatten(pieces[1..]), res.stopped)
    else
      var later := RecodeStream(rest, pieces[1..], r);
      Streamed(res.out + later.out, later.rest, later.stopped)
  }

  /* ---------- streaming equals batch ---------- */

  lemma MatchShift(c: dstr, x: dstr, i: nat, pat: dstr)
    ensures MatchesAt(c + x, |c| + i, pat) == MatchesAt(x, i, pat)
  {
    if i + |pat| <= |x| {
      assert (c + x)[|c| + i..|c| + i + |pat|] == x[i..i + |pat|];
    }
  }

  /** Text in which no match starts is only passed through. */
  lemma SkipPassed(c: dstr, x: dstr, r: Rules)
    requires r.Usable()
    requires forall i, p :: 0 <= i < |c| && 0 <= p < |r.search| ==> !MatchesAt(c + x, i, r.search[p])
    ensures var res := RecodeText(x, r, true);
      RecodeText(c + x, r, true) == Recoded(c + res.out, |c| + res.consumed, res.stopped)
  {
    hide MatchesAt, RecodeText;
    var cx := c + x;
    if cx == [] {
      assert c == [] && x == [];
      RecodeOfNothing(r, true);
      return;
    }
    var mx := Find(x, 0, r.search);
    var m := if mx.Some? then Some(Match(|c| + mx.value.pos, mx.value.which)) else None;
    FindIsLeftmost(x, 0, r.search);
    FindIsLeftmost(cx, 0, r.search);
    LeftmostShift(c, x, r.search, mx);
    LeftmostIsUnique(cx, 0, r.search, m, Find(cx, 0, r.search));
    RecodeStep(cx, r, true);
    if x == [] {
      RecodeOfNothing(r, true);
    } else {
      RecodeStep(x, r, true);
      SkipParts(c, x, r, m);
    }
  }

  lemma SkipParts(c: dstr, x: dstr, r: Rules, m: Option<Match>)
    requires r.Usable()
    requires m.Some? ==> |c| <= m.value.pos && m.value.which < |r.search|
    requires m.Some? ==> m.value.pos + |r.search[m.value.which]| <= |c + x|
    ensures m.Some? ==>
      var n := m.value.pos + |r.search[m.value.which]|;
      (c + x)[..m.value.pos] == c + x[..m.value.pos - |c|] && (c + x)[n..] == x[n - |c|..]
    ensures (c + x)[..|c + x|] == c + x[..|x|]
  {
  }

  lemma LeftmostShift(c: dstr, x: dstr, pats: seq<dstr>, mx: Option<Match>)
    requires Leftmost(x, 0, pats, mx)
    requires forall i, p :: 0 <= i < |c| && 0 <= p < |pats| ==> !MatchesAt(c + x, i, pats[p])
    ensures Leftmost(c + x, 0, pats,
                     if mx.Some? then Some(Match(|c| + mx.value.pos, mx.value.which)) else None)
  {
    hide MatchesAt;
    var cx := c + x;
    if mx.Some? {
      MatchShift(c, x, mx.value.pos, pats[mx.value.which]);
    }
    forall j, p | |c| <= j < |cx| && 0 <= p < |pats|
      ensures MatchesAt(cx, j, pats[p]) == MatchesAt(x, j - |c|, pats[p])
    {
      MatchShift(c, x, j - |c|, pats[p]);
    }
  }

  /** A match that starts before the held back end of a text without matches cannot appear when
      the text grows: it would have been a partial match. */
  lemma NoMatchInPassed(a: dstr, b: dstr, pats: seq<dstr>, i: nat, p: nat)
    requires Find(a, 0, pats) == None && p < |pats|
    requires i < |a| - HeldBack(a, 0, pats)
    ensures !MatchesAt(a + b, i, pats[p])
  {
    hide Find, HeldBack, WhichAt, MatchesAt, Begins;
    FindIsLeftmost(a, 0, pats);
    if MatchesAt(a + b, i, pats[p]) {
      GrownMatchBegins(a, b, i, pats[p]);
    }
  }

  lemma GrownMatchBegins(a: dstr, b: dstr, i: nat, pat: dstr)
    requires i < |a| && MatchesAt(a + b, i, pat) && !MatchesAt(a, i, pat)
    ensures Begins(a, i, pat)
  {
    var ab := a + b;
    if i + |pat| <= |a| {
      MatchGrows(a, b, i, pat);
    }
    assert a[i..] == ab[i..i + |pat|][..|a| - i];
  }

  /** The leftmost match of a text stays the leftmost when the text grows, if no search string ends
      inside of another that would have been preferred. */
  lemma MatchIsStable(a: dstr, b: dstr, r: Rules)
    requires r.Usable() && NoneEndsInside(r.search)
    requires Find(a, 0, r.search).Some?
    ensures Find(a + b, 0, r.search) == Find(a, 0, r.search)
  {
    hide Find, MatchesAt, NoneEndsInside;
    FindIsLeftmost(a, 0, r.search);
    FindIsLeftmost(a + b, 0, r.search);
    LeftmostGrows(a, b, r.search, Find(a, 0, r.search).value, Find(a + b, 0, r.search));
  }

  lemma LeftmostGrows(a: dstr, b: dstr, search: seq<dstr>, m: Match, m': Option<Match>)
    requires NoneEndsInside(search)
    requires Leftmost(a, 0, search, Some(m)) && Leftmost(a + b, 0, search, m')
    ensures m' == Some(m)
  {
    hide MatchesAt, NoneEndsInside, Findable;
    var ab := a + b;
    MatchLength(a, m.pos, search[m.which]);
    MatchGrows(a, b, m.pos, search[m.which]);
    assert m'.Some? && m'.value.pos <= m.pos;
    var Match(i, v) := m'.value;
    if i < m.pos || v < m.which {
      assert !MatchesAt(a, i, search[v]);
      ContainsMatch(a, b, i, search[v], m.pos, search[m.which]);
      LeftmostIsFindable(ab, search, m'.value);
      NotInside(search, v, m.which, m.pos - i);
    }
  }

  lemma NotInside(search: seq<dstr>, q: nat, p: nat, k: nat)
    requires NoneEndsInside(search) && q < |search| && p < |search| && Findable(search, q)
    ensures !(MatchesAt(search[q], k, search[p]) && k + |search[p]| < |search[q]| && (k > 0 || q < p))
  {
    assert !EndsInside(search, q, p, k);
  }

  lemma LeftmostIsFindable(t: dstr, pats: seq<dstr>, m: Match)
    requires Leftmost(t, 0, pats, Some(m))
    ensures Findable(pats, m.which)
  {
    forall p | 0 <= p < m.which
      ensures !MatchesAt(pats[m.which], 0, pats[p])
    {
      if |pats[p]| <= |pats[m.which]| {
        assert t[m.pos..m.pos + |pats[m.which]|][..|pats[p]|] == t[m.pos..m.pos + |pats[p]|];
      }
    }
  }

  lemma MatchLength(t: dstr, i: nat, pat: dstr)
    requires MatchesAt(t, i, pat)
    ensures i + |pat| <= |t|
  {
  }

  lemma MatchGrows(a: dstr, b: dstr, i: nat, pat: dstr)
    requires i + |pat| <= |a|
    ensures MatchesAt(a + b, i, pat) == MatchesAt(a, i, pat)
  {
    assert (a + b)[i..i + |pat|] == a[i..i + |pat|];
  }

  /** A match that grows over the end of `a` and starts no later than the match of `w` inside `a`
      contains `w`. */
  lemma ContainsMatch(a: dstr, b: dstr, i: nat, pat: dstr, pos: nat, w: dstr)
    requires i <= pos && MatchesAt(a, pos, w) && MatchesAt(a + b, i, pat)
    requires !MatchesAt(a, i, pat)
    ensures |pat| > pos - i + |w| && MatchesAt(pat, pos - i, w)
  {
    var ab := a + b;
    if i + |pat| <= |a| {
      MatchGrows(a, b, i, pat);
    }
    assert ab[i..i + |pat|][pos - i..pos - i + |w|] == ab[pos..pos + |w|];
    assert ab[pos..pos + |w|] == a[pos..pos + |w|];
  }

  /** What an unforced call consumed, and a forced call on what it left and the text that follows,
      make one forced call on all of it. */
  lemma {:induction false} RecodeSplit(a: dstr, b: dstr, r: Rules)
    requires r.Usable() && NoneEndsInside(r.search)
    ensures var first, whole := RecodeText(a, r, false), RecodeText(a + b, r, true);
      if first.stopped then whole == first
      else
        var second := RecodeText(a[first.consumed..] + b, r, true);
        whole == Recoded(first.out + second.out, first.consumed + second.consumed, second.stopped)
    decreases |a|
  {
    hide RecodeText, Find, MatchesAt, NoneEndsInside;
    var ab := a + b;
    if a == [] {
      RecodeOfNothing(r, false);
      assert ab == b && a[0..] + b == b;
      return;
    }
    RecodeStep(a, r, false);
    FindIsLeftmost(a, 0, r.search);
    match Find(a, 0, r.search)
    case None =>
      var until := |a| - HeldBack(a, 0, r.search);
      var c, x := a[..until], a[until..] + b;
      assert c + x == ab;
      forall i, p | 0 <= i < |c| && 0 <= p < |r.search|
        ensures !MatchesAt(c + x, i, r.search[p])
      {
        NoMatchInPassed(a, b, r.search, i, p);
      }
      SkipPassed(c, x, r);
    case Some(Match(pos, which)) =>
      MatchIsStable(a, b, r);
      RecodeStep(ab, r, true);
      MatchLength(a, pos, r.search[which]);
      var n := pos + |r.search[which]|;
      assert ab[..pos] == a[..pos] && ab[n..] == a[n..] + b;
      if r.stop != Some(which) {
        RecodeSplit(a[n..], b, r);
        RejoinAfter(a, b, r, n);
      }
  }

  /** The part of a split that lies behind the first match. */
  lemma RejoinAfter(a: dstr, b: dstr, r: Rules, n: nat)
    requires r.Usable() && n <= |a|
    ensures var first := RecodeText(a[n..], r, false);
      a[n..][first.consumed..] + b == a[n + first.consumed..] + b
  {
    hide RecodeText;
  }

  /** Any cut of the text into pieces yields the output of one batch call on the whole text; if
      the stop string was found, what remains is exactly what follows it. */
  lemma {:induction false} RecodeStreamIsBatch(pending: dstr, pieces: seq<dstr>, r: Rules)
    requires r.Usable() && NoneEndsInside(r.search) && pieces != []
    ensures var whole := RecodeText(pending + Flatten(pieces), r, true);
      RecodeStream(pending, pieces, r)
      == Streamed(whole.out, (pending + Flatten(pieces))[whole.consumed..], whole.stopped)
    decreases |pieces|
  {
    hide RecodeText, NoneEndsInside;
    var text, later := pending + pieces[0], Flatten(pieces[1..]);
    Assoc(pending, pieces[0], later);
    if |pieces| == 1 {
      assert later == [] && text + later == text;
      assert text[RecodeText(text, r, true).consumed..] + [] == text[RecodeText(text, r, true).consumed..];
    } else {
      RecodeSplit(text, later, r);
      var first := RecodeText(text, r, false);
      if first.stopped {
        assert (text + later)[first.consumed..] == text[first.consumed..] + later;
      } else {
        RecodeStreamIsBatch(text[first.consumed..], pieces[1..], r);
        DropSum(text, later, first.consumed, RecodeText(text[first.consumed..] + later, r, true).consumed);
      }
    }
  }

  lemma DropSum(a: dstr, b: dstr, n: nat, m: nat)
    requires n <= |a| && n + m <= |a| + |b|
    ensures (a[n..] + b)[m..] == (a + b)[n + m..]
  {
    assert a[n..] + b == (a + b)[n..];
  }

  /** A forced call consumes everything unless it stops, and then it stops right behind the stop
      string. */
  lemma {:induction false} ForcedConsumesAll(t: dstr, r: Rules)
    requires r.Usable()
    ensures var res := RecodeText(t, r, true);
      if res.stopped then
        && r.stop.Some? && r.stop.value < |r.search|
        && |r.search[r.stop.value]| <= res.consumed
        && MatchesAt(t, res.consumed - |r.search[r.stop.value]|, r.search[r.stop.value])
      else res.consumed == |t|
    decreases |t|
  {
    hide RecodeText, Find, MatchesAt;
    if t == [] {
      RecodeOfNothing(r, true);
    } else {
      RecodeStep(t, r, true);
      FindIsLeftmost(t, 0, r.search);
      var m := Find(t, 0, r.search);
      if m.Some? && r.stop != Some(m.value.which) {
        MatchLength(t, m.value.pos, r.search[m.value.which]);
        var n := m.value.pos + |r.search[m.value.which]|;
        ForcedConsumesAll(t[n..], r);
        var later := RecodeText(t[n..], r, true);
        if later.stopped {
          var s := r.search[r.stop.value];
          assert t == t[..n] + t[n..];
          MatchShift(t[..n], t[n..], later.consumed - |s|, s);
        }
      }
    }
  }

  /** A text that starts with search string `which`, and with no earlier one. */
  lemma FirstMatch(t: dstr, r: Rules, which: nat, force: bool)
    requires r.Usable() && which < |r.search| && r.stop == None
    requires MatchesAt(t, 0, r.search[which])
    requires forall p :: 0 <= p < which ==> !MatchesAt(t, 0, r.search[p])
    ensures |r.search[which]| <= |t|
    ensures var later := RecodeText(t[|r.search[which]|..], r, force);
      RecodeText(t, r, force)
      == Recoded(r.replace[which] + later.out, |r.search[which]| + later.consumed, later.stopped)
  {
    hide RecodeText, MatchesAt;
    MatchLength(t, 0, r.search[which]);
    WhichIsFirst(t, 0, r.search, which);
    FindHere(t, 0, r.search);
    RecodeStep(t, r, force);
    assert t[..0] + r.replace[which] == r.replace[which];
  }

  /* ---------- the condition is exact ---------- */

  /** What one call makes of the whole text. */
  function Batch(t: dstr, r: Rules): Streamed
    requires r.Usable()
  {
    var whole := RecodeText(t, r, true);
    Streamed(whole.out, t[whole.consumed..], whole.stopped)
  }

  /** If only `q` has a replacement and the text is too short for `q`, no output is longer than what
      it stands for. */
  lemma {:induction false} NothingGrows(t: dstr, r: Rules, q: nat, force: bool)
    requires r.Usable() && r.stop == None && q < |r.search| && |t| < |r.search[q]|
    requires forall i :: 0 <= i < |r.search| && i != q ==> r.replace[i] == []
    ensures var res := RecodeText(t, r, force); |res.out| <= res.consumed && !res.stopped
    decreases |t|
  {
    hide RecodeText, Find, MatchesAt;
    if t == [] {
      RecodeOfNothing(r, force);
    } else {
      RecodeStep(t, r, force);
      FindIsLeftmost(t, 0, r.search);
      var m := Find(t, 0, r.search);
      if m.Some? {
        MatchLength(t, m.value.pos, r.search[m.value.which]);
        NothingGrows(t[m.value.pos + |r.search[m.value.which]|..], r, q, force);
      }
    }
  }

  /** With only `q` replaced, by something longer than itself. */
  function OnlyReplacing(search: seq<dstr>, q: nat): (r: Rules)
    requires q < |search|
  {
    var longer := seq(|search[q]| + 1, _ => 0);
    Rules(search, seq(|search|, i requires 0 <= i < |search| => if i == q then longer else []), None)
  }

  /** If search string `p` ends inside of `q`, a cut behind it changes what becomes of the text `q`. */
  lemma CutChangesOutput(search: seq<dstr>, q: nat, p: nat, k: nat)
    requires forall i :: 0 <= i < |search| ==> search[i] != []
    requires q < |search| && p < |search| && Findable(search, q) && EndsInside(search, q, p, k)
    ensures k + |search[p]| <= |search[q]|
    ensures var r, n := OnlyReplacing(search, q), k + |search[p]|;
      r.Usable() && RecodeStream([], [search[q][..n], search[q][n..]], r).out != Batch(search[q], r).out
  {
    hide RecodeText, RecodeTurn, Find, MatchesAt, RecodeStream;
    var r, n, t := OnlyReplacing(search, q), k + |search[p]|, search[q];
    var a, b := t[..n], t[n..];
    WholeMatches(t);
    FirstMatch(t, r, q, true);
    assert |Batch(t, r).out| > |t|;
    EarlyMatchIsTaken(t, search, p, k, r);
    NothingGrows(a, r, q, false);
    var first := RecodeText(a, r, false);
    var rest := a[first.consumed..] + b;
    NothingGrows(rest, r, q, true);
    StreamOfTwo(a, b, r);
  }

  lemma WholeMatches(t: dstr)
    ensures MatchesAt(t, 0, t)
  {
    assert t[0..|t|] == t;
  }

  /** A search string that has arrived is found without waiting for more. */
  lemma EarlyMatchIsTaken(t: dstr, search: seq<dstr>, p: nat, k: nat, r: Rules)
    requires r.Usable() && r.search == search && p < |search| && MatchesAt(t, k, search[p])
    ensures k + |search[p]| <= |t| && RecodeText(t[..k + |search[p]|], r, false).consumed > 0
  {
    hide RecodeText, Find;
    var a := t[..k + |search[p]|];
    RecodeStep(a, r, false);
    FindIsLeftmost(a, 0, search);
    assert MatchesAt(a, k, search[p]) by { assert a[k..k + |search[p]|] == t[k..k + |search[p]|]; }
  }

  lemma StreamOfTwo(a: dstr, b: dstr, r: Rules)
    requires r.Usable() && r.stop == None && !RecodeText(a, r, false).stopped
    ensures var first := RecodeText(a, r, false);
      RecodeStream([], [a, b], r).out == first.out + RecodeText(a[first.consumed..] + b, r, true).out
  {
    hide RecodeText;
    assert [] + a == a && [a, b][1..] == [b] && [b][1..] == [];
  }

  /** Which sets of search strings can be streamed: for all replacements, texts and cuts the stream
      equals the batch call if and only if none of them ends inside of another that is found and
      would have been preferred. */
  lemma StreamingIsBatchExactly(search: seq<dstr>)
    requires forall i :: 0 <= i < |search| ==> search[i] != []
    ensures NoneEndsInside(search) <==>
            forall r: Rules, pieces: seq<dstr> :: r.search == search && r.Usable() && pieces != [] ==>
              RecodeStream([], pieces, r) == Batch(Flatten(pieces), r)
  {
    hide RecodeText, Findable, EndsInside, Batch, RecodeStream;
    if NoneEndsInside(search) {
      forall r: Rules, pieces: seq<dstr> | r.search == search && r.Usable() && pieces != []
        ensures RecodeStream([], pieces, r) == Batch(Flatten(pieces), r)
      {
        StreamFromNothing(pieces, r);
      }
    } else {
      var q: nat, p: nat, k: nat :| q < |search| && p < |search| && Findable(search, q) && EndsInside(search, q, p, k);
      CutChangesOutput(search, q, p, k);
      CutInTwo(search[q], k + |search[p]|);
    }
  }

  lemma StreamFromNothing(pieces: seq<dstr>, r: Rules)
    requires r.Usable() && NoneEndsInside(r.search) && pieces != []
    ensures RecodeStream([], pieces, r) == Batch(Flatten(pieces), r)
  {
    hide RecodeText, RecodeStream;
    RecodeStreamIsBatch([], pieces, r);
    assert [] + Flatten(pieces) == Flatten(pieces);
  }

  lemma CutInTwo(t: dstr, n: nat)
    requires n <= |t|
    ensures Flatten([t[..n], t[n..]]) == t
  {
    assert [t[..n], t[n..]][1..] == [t[n..]] && [t[n..]][1..] == [];
    assert Flatten([t[n..]]) == t[n..];
  }

  /** With "ab" before "a" a cut between the letters changes the output.  With "ab" and "b", which the
      documented condition also forbids, none does. */
  lemma SubstringsBreakStreaming()
    ensures var a: dstr, b: dstr, ab: dstr := [0x61], [0x62], [0x61, 0x62];
      && !NoneEndsInside([ab, a])
      && NoneEndsInside([ab, b]) && !Rules([ab, b], [ab, b], None).NoSubstrings()
  {
    var a: dstr, b: dstr, ab: dstr := [0x61], [0x62], [0x61, 0x62];
    assert ab[0..1] == a && ab[1..2] == b;
    assert EndsInside([ab, a], 0, 1, 0) && Findable([ab, a], 0);
    assert MatchesAt([ab, b][0], 1, [ab, b][1]);
    forall q: nat, p: nat, k: nat | q < 2 && p < 2
      ensures !EndsInside([ab, b], q, p, k)
    {
      if k == 0 && p == 1 && q == 0 {
        assert ab[0..1] != b;
      }
    }
  }
}
