/** The status server from the side of one client: where it stands after each event, and how the
    server comes to its end. */
module StatusClients {
  import opened StatusServer

  /* ---------- one client ---------- */

  /** Where a client stands: it waits for its first status, or for a new one, or has the current one; it
      is to be told that it is bad, or is being told; it is being closed; or it is not there. */
  datatype Phase = Absent | Arrived | Stale | Idle | Bad | Punished | Closing

  function PhaseOf(s: State, c: Id): Phase {
    if c in s.lists.closing then Closing
    else if c in s.lists.bad then (if c in s.wire.closeOnWrite then Punished else Bad)
    else if c in s.lists.arrived then Arrived
    else if c in s.lists.stale then Stale
    else if c in s.lists.idle then Idle
    else Absent
  }

  /** Whose turn it is to be written to: first those that have arrived, then those whose status is old,
      then the bad ones, each in the order of their lists. */
  function InTurn(l: Lists): seq<Id> {
    if l.arrived != [] then [l.arrived[0]]
    else if l.stale != [] then [l.stale[0]]
    else if l.bad != [] then [l.bad[0]]
    else []
  }

  /** What an advance makes of a client: in its turn it is sent the status, or told that it is bad; once
      there is an error and the listener is closed, it is closed. */
  function AfterAdvance(s: State, c: Id): Phase {
    var phase := PhaseOf(s, c);
    if s.life.failed then
      (if s.life.listenerDone && phase != Absent then Closing else phase)
    else if s.wire.writing || InTurn(s.lists) != [c] then phase
    else if phase == Bad then Punished
    else Idle
  }

  /** What an event makes of a client. */
  function Next(s: State, ev: Event, c: Id): Phase {
    var phase := PhaseOf(s, c);
    match ev
    case DoAdvance(_) => AfterAdvance(s, c)
    case DoWriteDone(ok) =>
      if !s.life.failed && s.wire.inflight == [c] && (!ok || phase == Punished) then Closing else phase
    case DoUpdate(_) => if !s.life.failed && phase == Idle then Stale else phase
    case DoAccept(d) => if d == c then Arrived else phase
    case DoReceive(_, _) => phase
    case ReadFails(d) => if d == c && !s.life.failed then Closing else phase
    case TooLong(d) => if d == c && !s.life.failed then Bad else phase
    case ClientClosed(d) => if d == c then Absent else phase
    case ListenerClosed => phase
    case DoClose => phase
  }

  /** Besides the server's invariant: who is to be closed after a write is bad, and only an error has
      the listener closed. */
  ghost predicate Orderly(s: State) {
    && Inv(s)
    && (forall c :: c in s.wire.closeOnWrite && c in s.lists.All() ==> c in s.lists.bad || c in s.lists.closing)
    && (!s.life.failed ==> !s.life.listenerStarted)
    && (!s.life.failed ==> forall c :: c in s.wire.closeOnWrite && c in s.lists.bad ==> s.wire.inflight == [c])
    && (s.life.listenerDone ==> s.life.listenerStarted)
  }

  /** A list without a client has all others. */
  lemma UnlinkedPhases(l: Lists, c: Id)
    requires Linked(l)
    ensures var u := l.Unlink(c);
      && c !in u.arrived && c !in u.stale && c !in u.idle && c !in u.bad && c !in u.closing
      && forall d :: d != c ==>
           && (d in u.arrived <==> d in l.arrived) && (d in u.stale <==> d in l.stale) && (d in u.idle <==> d in l.idle)
           && (d in u.bad <==> d in l.bad) && (d in u.closing <==> d in l.closing)
  {
    hide Without;
    WithoutHas(l.arrived, c);
    WithoutHas(l.stale, c);
    WithoutHas(l.idle, c);
    WithoutHas(l.bad, c);
    WithoutHas(l.closing, c);
  }

  /** A client is in one list. */
  lemma OneList(l: Lists, c: Id)
    requires Linked(l)
    ensures c in l.arrived ==> c !in l.stale && c !in l.idle && c !in l.bad && c !in l.closing
    ensures c in l.stale ==> c !in l.idle && c !in l.bad && c !in l.closing
    ensures c in l.idle ==> c !in l.bad && c !in l.closing
    ensures c in l.bad ==> c !in l.closing
    ensures c in l.All() <==> c in l.arrived || c in l.stale || c in l.idle || c in l.bad || c in l.closing
  {
    assert l.All()[c] <= 1;
  }

  lemma ClosedClientMoves(s: State, d: Id, c: Id)
    requires Orderly(s) && (Reading(s, d) || d in s.lists.bad || d in s.lists.closing)
    ensures PhaseOf(CloseClient(s, d), c) == if d == c then Closing else PhaseOf(s, c)
  {
    hide Without, Lists.Unlink, Lists.All;
    UnlinkedPhases(s.lists, d);
    OneList(s.lists, d);
  }

  lemma BadClientMoves(s: State, d: Id, c: Id)
    requires Orderly(s) && Reading(s, d)
    ensures PhaseOf(BadClient(s, d), c) == if d == c then Bad else PhaseOf(s, c)
  {
    hide Without, Lists.Unlink, Lists.All;
    UnlinkedPhases(s.lists, d);
    OneList(s.lists, d);
  }

  lemma HeadMoves(l: seq<Id>, c: Id)
    requires l != [] && multiset(l)[l[0]] <= 1
    ensures c in l[1..] <==> c in l && c != l[0]
  {
    HeadAndTail(l);
    assert c in l <==> c in multiset(l);
    assert c in l[1..] <==> c in multiset(l[1..]);
  }

  lemma AdvanceMoves(s: State, ok: bool, c: Id)
    requires Orderly(s) && Enabled(s, DoAdvance(ok))
    ensures PhaseOf(Advance(s, ok), c) == AfterAdvance(s, c)
  {
    hide NextRead, Lists.All;
    var l := s.lists;
    OneList(l, c);
    if s.life.failed {
      ShutDownMoves(s.(scheduled := false), c);
    } else if !s.wire.writing {
      if l.arrived != [] {
        OneList(l, l.arrived[0]);
        AtMostOnce(l);
        HeadMoves(l.arrived, c);
      } else if l.stale != [] {
        OneList(l, l.stale[0]);
        AtMostOnce(l);
        HeadMoves(l.stale, c);
      } else if l.bad != [] {
        OneList(l, l.bad[0]);
      } else {
        ReadingMovesNobody(s.(scheduled := false), ok, c);
      }
    }
  }

  lemma AtMostOnce(l: Lists)
    requires Linked(l)
    ensures l.arrived != [] ==> multiset(l.arrived)[l.arrived[0]] <= 1
    ensures l.stale != [] ==> multiset(l.stale)[l.stale[0]] <= 1
  {
    if l.arrived != [] { assert l.All()[l.arrived[0]] <= 1; }
    if l.stale != [] { assert l.All()[l.stale[0]] <= 1; }
  }

  lemma ShutDownMoves(s: State, c: Id)
    requires s.life.failed && (s.life.listenerDone ==> s.life.listenerStarted)
    ensures PhaseOf(ShutDown(s), c)
         == if s.life.listenerDone && PhaseOf(s, c) != Absent then Closing else PhaseOf(s, c)
  {
  }

  lemma {:induction false} ReadingMovesNobody(s: State, ok: bool, c: Id)
    requires !s.life.failed && !s.life.listenerStarted
    ensures PhaseOf(NextRead(s, ok), c) == PhaseOf(s, c)
    decreases s.readers
  {
    if s.readers != [] {
      var d := s.readers[0];
      if d !in s.commands || s.commands[d] == [] {
        ReadingMovesNobody(s.(readers := s.readers[1..]), ok, c);
      }
    }
  }

  lemma WriteDoneMoves(s: State, ok: bool, c: Id)
    requires Orderly(s) && Enabled(s, DoWriteDone(ok))
    ensures PhaseOf(WriteDone(s, ok), c) == Next(s, DoWriteDone(ok), c)
  {
    hide Without, Lists.Unlink, Lists.All;
    var d := s.wire.inflight[0];
    assert d in s.wire.inflight;
    OneList(s.lists, d);
    var t := s.(wire := s.wire.(writing := false, inflight := s.wire.inflight[1..]), scheduled := true);
    assert PhaseOf(t, c) == PhaseOf(s, c);
    UnlinkedPhases(s.lists, d);
  }

  /** After every event, every client stands where the event, and its turn, put it. */
  lemma StepMoves(s: State, ev: Event, c: Id)
    requires Orderly(s) && Enabled(s, ev)
    ensures PhaseOf(Step(s, ev), c) == Next(s, ev, c)
  {
    hide Advance, WriteDone, CloseClient, BadClient, Without, Lists.Unlink, Inv;
    match ev {
      case DoAdvance(ok) => AdvanceMoves(s, ok, c);
      case DoWriteDone(ok) => WriteDoneMoves(s, ok, c);
      case ReadFails(d) => if !s.life.failed { ClosedClientMoves(s, d, c); }
      case TooLong(d) => if !s.life.failed { BadClientMoves(s, d, c); BadIsNotPunished(s, d); }
      case ClientClosed(d) => GoneMoves(s, d, c);
      case DoAccept(d) => NewMoves(s, d, c);
      case DoUpdate(_) => UpdateMoves(s, ev.status, c);
      case _ =>
    }
  }

  lemma BadIsNotPunished(s: State, d: Id)
    requires Orderly(s) && Reading(s, d)
    ensures d !in s.wire.closeOnWrite
  {
    OneList(s.lists, d);
  }

  lemma GoneMoves(s: State, d: Id, c: Id)
    requires Orderly(s) && d in s.lists.closing
    ensures PhaseOf(s.(lists := s.lists.Unlink(d), scheduled := true), c) == if d == c then Absent else PhaseOf(s, c)
  {
    hide Without, Lists.Unlink, Lists.All;
    UnlinkedPhases(s.lists, d);
    OneList(s.lists, d);
  }

  lemma NewMoves(s: State, d: Id, c: Id)
    requires Orderly(s) && s.lists.All()[d] == 0
    ensures PhaseOf(Accept(s, d), c) == if d == c then Arrived else PhaseOf(s, c)
  {
    OneList(s.lists, d);
  }

  lemma UpdateMoves(s: State, status: int, c: Id)
    requires Orderly(s)
    ensures PhaseOf(Update(s, status), c) == Next(s, DoUpdate(status), c)
  {
    OneList(s.lists, c);
  }

  /* ---------- runs ---------- */

  /** Whether an advance tells the first bad client that it is bad. */
  predicate Punishes(s: State, ev: Event) {
    && ev.DoAdvance? && !s.life.failed && !s.wire.writing
    && s.lists.arrived == [] && s.lists.stale == [] && s.lists.bad != []
  }

  /** Who is to be closed after a write, and whose write is under way. */
  lemma StepWires(s: State, ev: Event)
    requires Orderly(s) && Enabled(s, ev)
    ensures var w, w' := s.wire, Step(s, ev).wire;
      && w'.closeOnWrite == (if Punishes(s, ev) then w.closeOnWrite + {s.lists.bad[0]}
                             else if ev.DoAccept? then w.closeOnWrite - {ev.c} else w.closeOnWrite)
      && (Punishes(s, ev) && !Step(s, ev).life.failed ==> w'.inflight == [s.lists.bad[0]])
      && (!ev.DoAdvance? && !ev.DoWriteDone? ==> w'.inflight == w.inflight)
      && (ev.DoAdvance? && w.inflight != [] ==> w'.inflight == w.inflight)
  {
    hide NextRead, Without, Lists.Unlink, Linked;
    if ev.DoAdvance? && !s.life.failed && !s.wire.writing && InTurn(s.lists) == [] {
      ReadingMarksNobody(s.(scheduled := false), ev.ok);
    }
  }

  lemma {:induction false} ReadingMarksNobody(s: State, ok: bool)
    ensures NextRead(s, ok).wire.closeOnWrite == s.wire.closeOnWrite
    decreases s.readers
  {
    if s.readers != [] {
      ReadingMarksNobody(s.(readers := s.readers[1..]), ok);
    }
  }

  lemma StepLives(s: State, ev: Event)
    requires Orderly(s) && Enabled(s, ev)
    ensures var l := Step(s, ev).life;
      && (!l.failed ==> !s.life.failed && !l.listenerStarted)
      && (l.listenerDone ==> l.listenerStarted)
      && (l.listenerDone <==> s.life.listenerDone || ev == ListenerClosed)
  {
    hide NextRead, Without, Lists.Unlink, Linked;
    if ev.DoAdvance? && !s.life.failed && !s.wire.writing && InTurn(s.lists) == [] {
      ReadingLives(s.(scheduled := false), ev.ok);
    }
  }

  lemma {:induction false} ReadingLives(s: State, ok: bool)
    requires !s.life.failed && !s.life.listenerStarted
    ensures var l := NextRead(s, ok).life;
      && (!l.failed ==> l == s.life) && l.listenerDone == s.life.listenerDone && l.closed == s.life.closed
      && (l.failed ==> l.listenerStarted)
    decreases s.readers
  {
    if s.readers != [] {
      ReadingLives(s.(readers := s.readers[1..]), ok);
    }
  }

  lemma StepKeepsOrderly(s: State, ev: Event)
    requires Orderly(s) && Enabled(s, ev)
    ensures Orderly(Step(s, ev))
  {
    hide Inv, Step, Lists.All, Linked;
    StepKeepsInv(s, ev);
    StepWires(s, ev);
    StepLives(s, ev);
    forall c | c in Step(s, ev).wire.closeOnWrite
      ensures c in Step(s, ev).lists.All() ==> c in Step(s, ev).lists.bad || c in Step(s, ev).lists.closing
      ensures !Step(s, ev).life.failed && c in Step(s, ev).lists.bad ==> Step(s, ev).wire.inflight == [c]
    {
      StepMoves(s, ev, c);
      InvLinks(s);
      InvLinks(Step(s, ev));
      OneList(Step(s, ev).lists, c);
      OneList(s.lists, c);
      MarkedAreDoomed(s, ev, c);
    }
  }

  lemma InvLinks(s: State)
    requires Inv(s)
    ensures Linked(s.lists)
  {
  }

  /** A client that is to be closed after a write is not served any more. */
  lemma MarkedAreDoomed(s: State, ev: Event, c: Id)
    requires Orderly(s) && Enabled(s, ev)
    requires if Punishes(s, ev) && c == s.lists.bad[0] then true else c in s.wire.closeOnWrite && ev != DoAccept(c)
    ensures Next(s, ev, c) in {Absent, Punished, Closing}
    ensures !s.life.failed && !(Punishes(s, ev) && c == s.lists.bad[0]) && Next(s, ev, c) == Punished ==>
              s.wire.inflight == [c] && !ev.DoWriteDone?
  {
    OneList(s.lists, c);
  }

  lemma {:induction false} RunKeepsOrderly(s: State, evs: seq<Event>)
    requires Orderly(s) && CanRun(s, evs)
    ensures Orderly(Run(s, evs))
    decreases evs
  {
    hide Orderly, Enabled, Step;
    if evs != [] {
      StepKeepsOrderly(s, evs[0]);
      RunKeepsOrderly(Step(s, evs[0]), evs[1..]);
    }
  }

  lemma InitIsOrderly(status: int)
    ensures Orderly(Init(status))
  {
  }

  /** In every reachable state, each event puts each client where its turn, and what happened to it, say;
      and nobody else. */
  lemma EveryClientMoves(status: int, evs: seq<Event>, ev: Event, c: Id)
    requires CanRun(Init(status), evs) && Enabled(Run(Init(status), evs), ev)
    ensures var s := Run(Init(status), evs); PhaseOf(Step(s, ev), c) == Next(s, ev, c)
  {
    hide Orderly, Enabled, Step, Run, CanRun;
    InitIsOrderly(status);
    RunKeepsOrderly(Init(status), evs);
    StepMoves(Run(Init(status), evs), ev, c);
  }

  /* ---------- the end ---------- */

  /** The command that an advance would take, if nobody waits for a write. */
  function NextCommand(readers: seq<Id>, commands: map<Id, seq<Command>>): seq<Command> {
    if readers == [] then []
    else if readers[0] in commands && commands[readers[0]] != [] then [commands[readers[0]][0]]
    else NextCommand(readers[1..], commands)
  }

  /** An advance that starts a write: to a client in its turn, or in reply to a command. */
  predicate StartsWrite(s: State) {
    !s.wire.writing && (InTurn(s.lists) != [] || NextCommand(s.readers, s.commands) == [OtherCommand])
  }

  /** What ends the server in every reachable state: being closed by its owner, and a write that cannot
      be started; and it reports that it is done exactly once the listener is closed and nobody is left. */
  lemma EndsExactly(status: int, evs: seq<Event>, ev: Event)
    requires CanRun(Init(status), evs) && Enabled(Run(Init(status), evs), ev)
    ensures var s := Run(Init(status), evs);
      && (Step(s, ev).life.failed <==> s.life.failed || ev == DoClose || (ev == DoAdvance(false) && StartsWrite(s)))
      && (Step(s, ev).life.closed <==>
            ev.DoAdvance? && s.life.failed && s.life.listenerDone && s.lists.All() == multiset{})
  {
    hide Orderly, Enabled, Step, Run, CanRun;
    InitIsOrderly(status);
    RunKeepsOrderly(Init(status), evs);
    StepEnds(Run(Init(status), evs), ev);
  }

  lemma StepEnds(s: State, ev: Event)
    requires Orderly(s) && Enabled(s, ev)
    ensures Step(s, ev).life.failed <==> s.life.failed || ev == DoClose || (ev == DoAdvance(false) && StartsWrite(s))
    ensures Step(s, ev).life.closed <==>
              ev.DoAdvance? && s.life.failed && s.life.listenerDone && s.lists.All() == multiset{}
  {
    hide NextRead, Without, Lists.Unlink, Linked;
    if ev.DoAdvance? && !s.life.failed && !s.wire.writing && InTurn(s.lists) == [] {
      ReadingLives(s.(scheduled := false), ev.ok);
      ReadingFails(s.(scheduled := false), ev.ok);
    }
    NobodyLeft(s.lists);
  }

  lemma NobodyLeft(l: Lists)
    ensures l.All() == multiset{} <==> l.closing + l.arrived + l.stale + l.idle + l.bad == []
  {
    var all := l.closing + l.arrived + l.stale + l.idle + l.bad;
    assert multiset(all) == l.All();
    if all != [] {
      assert all[0] in multiset(all);
    }
  }

  lemma {:induction false} ReadingFails(s: State, ok: bool)
    requires !s.life.failed
    ensures NextRead(s, ok).life.failed <==> !ok && NextCommand(s.readers, s.commands) == [OtherCommand]
    decreases s.readers
  {
    if s.readers != [] && (s.readers[0] !in s.commands || s.commands[s.readers[0]] == []) {
      ReadingFails(s.(readers := s.readers[1..]), ok);
    }
  }

  /** Something will wake a server that is coming to its end: an advance is due, or the listener or a
      client is being closed. */
  ghost predicate Ending(s: State) {
    s.life.failed && !s.life.closed ==>
      s.scheduled || (s.life.listenerStarted && !s.life.listenerDone) || s.lists.closing != []
  }

  /** In every run, until the server reports that it is done. */
  lemma NeverHangs(status: int, evs: seq<Event>)
    requires CanRun(Init(status), evs)
    ensures Ending(Run(Init(status), evs))
  {
    InitIsOrderly(status);
    RunKeepsEnding(Init(status), evs);
  }

  lemma {:induction false} RunKeepsEnding(s: State, evs: seq<Event>)
    requires Orderly(s) && Ending(s) && CanRun(s, evs)
    ensures Ending(Run(s, evs))
    decreases evs
  {
    hide Orderly, Enabled, Step, Ending;
    if evs != [] {
      StepKeepsOrderly(s, evs[0]);
      StepKeepsEnding(s, evs[0]);
      RunKeepsEnding(Step(s, evs[0]), evs[1..]);
    }
  }

  lemma StepKeepsEnding(s: State, ev: Event)
    requires Orderly(s) && Ending(s) && Enabled(s, ev)
    ensures Ending(Step(s, ev))
  {
    hide NextRead, Without, Lists.Unlink, Linked, Lists.All;
    if ev.DoAdvance? && !s.life.failed && !s.wire.writing && InTurn(s.lists) == [] {
      ReadingLives(s.(scheduled := false), ev.ok);
    }
    StepLives(s, ev);
  }
}
