/** What becomes of the commands that clients send to the status server. */
module StatusCommands {
  import opened StatusServer

  predicate Has(commands: map<Id, seq<Command>>, c: Id) {
    c in commands && commands[c] != []
  }

  /** The clients with a complete command are queued, each once, if they may still be read from; a
      client that has just arrived has sent nothing. */
  ghost predicate InLine(lists: Lists, readers: seq<Id>, commands: map<Id, seq<Command>>) {
    && (forall c :: multiset(readers)[c] <= 1)
    && (forall c :: c in readers ==> Has(commands, c))
    && (forall c :: (c in lists.stale || c in lists.idle) && Has(commands, c) ==> c in readers)
    && (forall c :: c in lists.arrived ==> !Has(commands, c))
  }

  /** A client that is to be closed after its write is read from no more. */
  ghost predicate Marked(lists: Lists, closeOnWrite: set<Id>) {
    forall c :: c in closeOnWrite ==> c !in lists.stale && c !in lists.idle && c !in lists.arrived
  }

  ghost predicate Queues(s: State) {
    !s.life.failed ==> InLine(s.lists, s.readers, s.commands) && Marked(s.lists, s.wire.closeOnWrite)
  }

  lemma UnlinkedQueues(s: State, c: Id, lists: Lists)
    requires Queues(s) && !s.life.failed
    requires forall d :: d in lists.arrived ==> d in s.lists.arrived
    requires forall d :: d != c ==>
               && (d in lists.stale <==> d in s.lists.stale)
               && (d in lists.idle <==> d in s.lists.idle)
    requires c !in lists.stale && c !in lists.idle
    ensures Queues(s.(lists := lists, readers := Without(s.readers, c)))
  {
    hide Without;
    WithoutHas(s.readers, c);
  }

  lemma UnlinkKeepsOthers(l: Lists, c: Id)
    ensures var u := l.Unlink(c);
      && (forall d :: d in u.arrived ==> d in l.arrived)
      && (forall d :: d != c ==> (d in u.stale <==> d in l.stale) && (d in u.idle <==> d in l.idle))
      && c !in u.stale && c !in u.idle
  {
    WithoutHas(l.arrived, c);
    WithoutHas(l.stale, c);
    WithoutHas(l.idle, c);
    hide Without;
  }

  lemma CloseClientKeepsQueues(s: State, c: Id)
    requires Queues(s) && !s.life.failed
    ensures Queues(CloseClient(s, c)) && Queues(BadClient(s, c))
  {
    hide Without, Lists.Unlink, Queues;
    var u := s.lists.Unlink(c);
    UnlinkKeepsOthers(s.lists, c);
    UnlinkedQueues(s, c, u.(closing := u.closing + [c]));
    UnlinkedQueues(s, c, u.(bad := u.bad + [c]));
  }

  lemma WriteDoneKeepsQueues(s: State, ok: bool)
    requires Queues(s) && s.wire.inflight != []
    ensures Queues(WriteDone(s, ok))
  {
    hide CloseClient;
    var t := s.(wire := s.wire.(writing := false, inflight := s.wire.inflight[1..]), scheduled := true);
    assert Queues(t);
    if !s.life.failed {
      CloseClientKeepsQueues(t, s.wire.inflight[0]);
    }
  }

  lemma ListEventKeepsQueues(s: State, ev: Event)
    requires Inv(s) && Queues(s) && Enabled(s, ev) && !ev.DoAdvance? && !ev.DoWriteDone?
    ensures Queues(Step(s, ev))
  {
    hide CloseClient, BadClient, Accept, Receive, Lists.Unlink;
    match ev {
      case DoAccept(c) => AcceptKeepsQueues(s, c);
      case DoReceive(c, cmds) => ReceiveKeepsQueues(s, c, cmds);
      case ReadFails(c) => if !s.life.failed { CloseClientKeepsQueues(s, c); }
      case TooLong(c) => if !s.life.failed { CloseClientKeepsQueues(s, c); }
      case ClientClosed(c) => ClosedClientKeepsQueues(s, c);
      case _ =>
    }
  }

  lemma AcceptKeepsQueues(s: State, c: Id)
    requires Inv(s) && Queues(s) && Enabled(s, DoAccept(c))
    ensures Queues(Accept(s, c))
  {
    NotListed(s.lists, c);
    hide Lists.All, Linked;
  }

  lemma NotListed(l: Lists, c: Id)
    requires l.All()[c] == 0
    ensures c !in l.arrived && c !in l.stale && c !in l.idle && c !in l.bad && c !in l.closing
  {
  }

  lemma ReceiveKeepsQueues(s: State, c: Id, cmds: seq<Command>)
    requires Inv(s) && Queues(s) && Reading(s, c)
    ensures Queues(Receive(s, c, cmds))
  {
    hide Without, Lists.All, Linked, InLine, Marked;
    OneList(s.lists, c);
    var all := (if c in s.commands then s.commands[c] else []) + cmds;
    if !s.life.failed {
      if cmds == [] {
        assert all == if c in s.commands then s.commands[c] else [];
        NothingReceived(s.lists, s.readers, s.commands, c, all);
      } else {
        assert all != [];
        CommandReceived(s.lists, s.readers, s.commands, c, all);
      }
    }
  }

  lemma NothingReceived(lists: Lists, readers: seq<Id>, commands: map<Id, seq<Command>>, c: Id, all: seq<Command>)
    requires InLine(lists, readers, commands) && all == if c in commands then commands[c] else []
    ensures InLine(lists, readers, commands[c := all])
  {
    assert forall d :: Has(commands[c := all], d) <==> Has(commands, d);
  }

  lemma CommandReceived(lists: Lists, readers: seq<Id>, commands: map<Id, seq<Command>>, c: Id, all: seq<Command>)
    requires InLine(lists, readers, commands) && all != [] && c !in lists.arrived
    ensures InLine(lists, Without(readers, c) + [c], commands[c := all])
  {
    hide Without;
    WithoutHas(readers, c);
    assert forall d :: d != c ==> (Has(commands[c := all], d) <==> Has(commands, d));
    assert multiset(Without(readers, c) + [c]) == multiset(readers)[c := 0] + multiset{c};
  }

  lemma OneList(l: Lists, c: Id)
    requires Linked(l) && (c in l.stale || c in l.idle)
    ensures c !in l.arrived && c !in l.bad && c !in l.closing
  {
    assert l.All()[c] <= 1;
  }

  lemma ClosedClientKeepsQueues(s: State, c: Id)
    requires Inv(s) && Queues(s) && c in s.lists.closing
    ensures Queues(s.(lists := s.lists.Unlink(c), scheduled := true))
  {
    hide Without, Lists.Unlink, Lists.All, Linked;
    OnlyClosing(s.lists, c);
    UnlinkKeepsOthers(s.lists, c);
  }

  lemma AdvanceKeepsQueues(s0: State, ok: bool)
    requires Inv(s0) && Queues(s0) && Enabled(s0, DoAdvance(ok))
    ensures Queues(Advance(s0, ok))
  {
    hide ShutDown, NextRead, Lists.All, Linked;
    var s := s0.(scheduled := false);
    var l := s.lists;
    if s.life.failed {
      FailedQueues(s);
    } else if s.wire.writing {
    } else if l.arrived != [] {
      MoveKeepsQueues(s, l.(arrived := l.arrived[1..], idle := l.idle + [l.arrived[0]]), l.arrived[0], ok);
    } else if l.stale != [] {
      StaleToIdle(l);
      MoveKeepsQueues(s, l.(stale := l.stale[1..], idle := l.idle + [l.stale[0]]), l.stale[0], ok);
    } else if l.bad != [] {
      OnlyBad(l, l.bad[0]);
      var wire := s.wire.(closeOnWrite := s.wire.closeOnWrite + {l.bad[0]});
      FailedQueues(s.(wire := wire, life := s.life.(failed := true)));
    } else {
      NextReadTakes(s, ok);
    }
  }

  lemma FailedQueues(s: State)
    requires s.life.failed
    ensures Queues(s) && ShutDown(s).life.failed && Queues(ShutDown(s))
  {
  }

  lemma OnlyBad(l: Lists, c: Id)
    requires Linked(l) && c in l.bad
    ensures c !in l.arrived && c !in l.stale && c !in l.idle
  {
    assert l.All()[c] <= 1;
  }

  lemma MoveKeepsQueues(s: State, lists: Lists, c: Id, ok: bool)
    requires Queues(s) && !s.life.failed && c in s.lists.arrived + s.lists.stale
    requires forall d :: d in lists.arrived ==> d in s.lists.arrived
    requires forall d :: d in lists.stale ==> d in s.lists.stale
    requires forall d :: d in s.lists.stale ==> d in lists.stale || d == c
    requires lists.idle == s.lists.idle + [c]
    ensures var t := s.(lists := lists);
      Queues(if ok then t.(wire := Tell(Write(t.wire, c), c, t.status)) else Fail(t))
  {
    hide ShutDown;
    FailedQueues(s.(lists := lists, life := s.life.(failed := true)));
  }

  /** With nobody waiting for a write, the first command of the first client in the queue is taken. */
  lemma NextReadTakes(s: State, ok: bool)
    requires Queues(s) && !s.life.failed
    ensures Queues(NextRead(s, ok))
    ensures s.readers == [] ==> NextRead(s, ok) == s
    ensures s.readers != [] ==> Has(s.commands, s.readers[0]) && NextRead(s, ok) == Taken(s, ok)
  {
    hide ShutDown;
    if s.readers != [] {
      var c := s.readers[0];
      assert c in s.readers && Has(s.commands, c);
      assert [c] + s.readers[1..] == s.readers;
      TakenKeepsQueues(s, ok);
    }
  }

  lemma TakenKeepsQueues(s: State, ok: bool)
    requires Queues(s) && !s.life.failed && s.readers != [] && Has(s.commands, s.readers[0])
    ensures Queues(Taken(s, ok))
  {
    hide ShutDown, InLine, Marked;
    FailedQueues(s.(readers := s.readers[1..], life := s.life.(failed := true)));
    var left := s.commands[s.readers[0]][1..];
    if left == [] {
      LastTaken(s.lists, s.readers, s.commands);
    } else {
      OneTaken(s.lists, s.readers, s.commands, s.readers[0], left);
    }
  }

  lemma LastTaken(lists: Lists, readers: seq<Id>, commands: map<Id, seq<Command>>)
    requires InLine(lists, readers, commands) && readers != []
    ensures InLine(lists, readers[1..], commands[readers[0] := []])
  {
    var c := readers[0];
    HeadAndTail(readers);
    assert multiset(readers)[c] <= 1;
    forall d
      ensures multiset(readers[1..])[d] <= 1 && (d in readers[1..] <==> d in readers && d != c)
    {
      assert multiset(readers)[d] <= 1;
      assert d in readers[1..] <==> d in multiset(readers[1..]);
      assert d in readers <==> d in multiset(readers);
    }
    assert forall d :: d != c ==> (Has(commands[c := []], d) <==> Has(commands, d));
  }

  lemma OneTaken(lists: Lists, readers: seq<Id>, commands: map<Id, seq<Command>>, c: Id, left: seq<Command>)
    requires InLine(lists, readers, commands) && Has(commands, c) && left != []
    ensures InLine(lists, readers, commands[c := left])
  {
    assert forall d :: Has(commands[c := left], d) <==> Has(commands, d);
  }

  function Taken(s: State, ok: bool): State
    requires s.readers != [] && Has(s.commands, s.readers[0])
  {
    var c := s.readers[0];
    var cmd, left := s.commands[c][0], s.commands[c][1..];
    if cmd == OtherCommand && !ok then Fail(s.(readers := s.readers[1..]))
    else
      s.(commands := s.commands[c := left], readers := if left == [] then s.readers[1..] else s.readers,
         wire := if cmd == OtherCommand then Write(s.wire, c) else s.wire)
  }

  lemma StepKeepsQueues(s: State, ev: Event)
    requires Inv(s) && Queues(s) && Enabled(s, ev)
    ensures Queues(Step(s, ev))
  {
    hide Advance, WriteDone, Inv, Queues;
    match ev {
      case DoAdvance(ok) => AdvanceKeepsQueues(s, ok);
      case DoWriteDone(ok) => WriteDoneKeepsQueues(s, ok);
      case _ => ListEventKeepsQueues(s, ev);
    }
  }

  /* ---------- commands that nobody will look at ---------- */

  /** How many commands the queued clients have sent. */
  function CountOf(readers: seq<Id>, commands: map<Id, seq<Command>>): nat {
    if readers == [] then 0
    else (if readers[0] in commands then |commands[readers[0]]| else 0) + CountOf(readers[1..], commands)
  }

  function Queued(s: State): nat {
    CountOf(s.readers, s.commands)
  }

  /** A command is queued, and nothing is under way or scheduled that would have it looked at. */
  ghost predicate Stranded(s: State) {
    !s.life.failed && s.readers != [] && s.wire.inflight == [] && !s.scheduled
  }

  /** This advance takes a "check", and it is not the last command. */
  ghost predicate TakesCheckOnly(s: State) {
    && !s.life.failed && !s.wire.writing && s.lists.Waiting() == 0
    && s.readers != [] && Has(s.commands, s.readers[0]) && s.commands[s.readers[0]][0] == CheckCommand
    && Queued(s) > 1
  }

  lemma {:induction false} CountIgnores(readers: seq<Id>, commands: map<Id, seq<Command>>, c: Id, left: seq<Command>)
    requires c !in readers
    ensures CountOf(readers, commands[c := left]) == CountOf(readers, commands)
    decreases readers
  {
    if readers != [] {
      CountIgnores(readers[1..], commands, c, left);
    }
  }

  /** Taking a command leaves one less, and leaves the queue empty if it was the last. */
  lemma TakenLeavesFewer(s: State)
    requires Queues(s) && !s.life.failed && s.readers != [] && Has(s.commands, s.readers[0])
    ensures Queued(Taken(s, true)) == Queued(s) - 1
    ensures Taken(s, true).readers == [] <==> Queued(s) == 1
  {
    var c := s.readers[0];
    var left := s.commands[c][1..];
    HeadAndTail(s.readers);
    assert multiset(s.readers)[c] <= 1;
    CountIgnores(s.readers[1..], s.commands, c, left);
    if s.readers[1..] != [] {
      assert s.readers[1] in s.readers;
    }
  }

  /** Exactly when an advance leaves a command stranded, in every reachable state. */
  lemma AdvanceStrands(s: State, ok: bool)
    requires Inv(s) && Queues(s) && Enabled(s, DoAdvance(ok))
    ensures Stranded(Advance(s, ok)) <==> TakesCheckOnly(s)
  {
    hide ShutDown, NextRead, Linked, Lists.All, CountOf, Taken, Queues;
    if !s.life.failed && !s.wire.writing && s.lists.Waiting() == 0 {
      var t := s.(scheduled := false);
      assert Queues(t) by { SameQueues(s); }
      NextReadTakes(t, ok);
      if t.readers != [] {
        TakenLeavesFewer(t);
        TakenStrands(t, ok);
      }
    } else {
      OtherwiseNotStranded(s, ok);
    }
  }

  lemma OtherwiseNotStranded(s: State, ok: bool)
    requires Writes(s.lists, s.wire) && (s.life.failed || s.wire.writing || s.lists.Waiting() > 0)
    ensures !Stranded(Advance(s, ok))
  {
    hide NextRead;
  }

  lemma SameQueues(s: State)
    requires Queues(s)
    ensures Queues(s.(scheduled := false)) && Queues(s.(scheduled := true))
  {
  }

  lemma TakenStrands(s: State, ok: bool)
    requires !s.life.failed && s.readers != [] && Has(s.commands, s.readers[0]) && s.wire.inflight == [] && !s.scheduled
    ensures Stranded(Taken(s, ok)) <==> s.commands[s.readers[0]][0] == CheckCommand && Taken(s, true).readers != []
  {
    hide ShutDown;
    FailedQueues(s.(readers := s.readers[1..], life := s.life.(failed := true)));
  }

  /** Exactly which events leave a command stranded: such an advance, or the failure of another client
      once that is so. */
  lemma StepStrands(s: State, ev: Event)
    requires Inv(s) && Queues(s) && Enabled(s, ev)
    ensures Stranded(Step(s, ev)) <==>
              match ev
              case DoAdvance(_) => TakesCheckOnly(s)
              case ReadFails(c) => Stranded(s) && Without(s.readers, c) != []
              case _ => false
  {
    hide Advance, Linked, Lists.All, Without, Queues, TakesCheckOnly;
    match ev {
      case DoAdvance(ok) => AdvanceStrands(s, ok);
      case ReadFails(c) =>
        if !s.life.failed {
          OneList(s.lists, c);
          WithoutHas(s.readers, c);
        }
      case _ =>
    }
  }

  lemma {:induction false} RunKeepsQueues(s: State, evs: seq<Event>)
    requires Inv(s) && Queues(s) && CanRun(s, evs)
    ensures Inv(Run(s, evs)) && Queues(Run(s, evs))
    decreases evs
  {
    hide Inv, Queues, Enabled, Step;
    if evs != [] {
      StepKeepsInv(s, evs[0]);
      StepKeepsQueues(s, evs[0]);
      RunKeepsQueues(Step(s, evs[0]), evs[1..]);
    }
  }

  lemma {:induction false} AllButTheLast(s: State, evs: seq<Event>)
    requires CanRun(s, evs) && evs != []
    ensures var n := |evs| - 1;
      && CanRun(s, evs[..n]) && Enabled(Run(s, evs[..n]), evs[n])
      && Run(s, evs) == Step(Run(s, evs[..n]), evs[n])
    decreases evs
  {
    hide Enabled, Step;
    var n := |evs| - 1;
    if n == 0 {
      assert evs[..0] == [] && evs[1..] == [];
    } else {
      AllButTheLast(Step(s, evs[0]), evs[1..]);
      assert evs[1..][..n - 1] == evs[..n][1..] && evs[1..][n - 1] == evs[n];
    }
  }

  /** The last thing that happened in a run, but for failures of clients that left others in the queue,
      was an advance that took a "check" and left commands behind. */
  ghost predicate EndsWithACheck(s: State, evs: seq<Event>)
    requires CanRun(s, evs)
    decreases |evs|
  {
    evs != [] &&
    (AllButTheLast(s, evs);
     var before := Run(s, evs[..|evs| - 1]);
     match evs[|evs| - 1]
     case DoAdvance(_) => TakesCheckOnly(before)
     case ReadFails(c) => EndsWithACheck(s, evs[..|evs| - 1]) && Without(before.readers, c) != []
     case _ => false)
  }

  /** Exactly the runs that leave a command stranded. */
  lemma {:induction false} RunStrands(status: int, evs: seq<Event>)
    requires CanRun(Init(status), evs)
    ensures Stranded(Run(Init(status), evs)) <==> EndsWithACheck(Init(status), evs)
    decreases |evs|
  {
    hide Enabled, Step, TakesCheckOnly, Without, Inv, Queues;
    var s := Init(status);
    if evs != [] {
      var n := |evs| - 1;
      AllButTheLast(s, evs);
      RunStrands(status, evs[..n]);
      InitQueues(status);
      RunKeepsQueues(s, evs[..n]);
      StepStrands(Run(s, evs[..n]), evs[n]);
    }
  }

  lemma InitQueues(status: int)
    ensures Inv(Init(status)) && Queues(Init(status))
  {
  }

  /* ---------- how long commands wait ---------- */

  /** One more advance, for whatever reason, and the end of the write it may start. */
  function CommandRound(s: State): State {
    var t := Advance(s.(scheduled := true), true);
    if t.wire.inflight != [] then WriteDone(t, true) else t
  }

  /** With no client waiting for a write and nothing under way, a round takes exactly one command. */
  lemma RoundTakesOneCommand(s: State)
    requires Quiet(s) && Queues(s) && s.lists.Waiting() == 0
    ensures var t := CommandRound(s);
      && Quiet(t) && Queues(t) && t.lists.Waiting() == 0
      && Queued(t) == if Queued(s) == 0 then 0 else Queued(s) - 1
  {
    hide NextRead, Linked, Lists.All, InLine, Without, Taken, CountOf;
    var w := s.(scheduled := true);
    AdvanceKeepsInv(w, true);
    AdvanceKeepsQueues(w, true);
    var v := s.(scheduled := false);
    NextReadTakes(v, true);
    if v.readers == [] {
      NobodyQueued(v);
    } else {
      TakenLeavesFewer(v);
      SomebodyQueued(v);
      TakenIsQuiet(v);
      var t := Taken(v, true);
      if t.wire.inflight != [] {
        WriteDoneKeepsInv(t, true);
        WriteDoneKeepsQueues(t, true);
      }
    }
  }

  lemma NobodyQueued(s: State)
    requires s.readers == []
    ensures Queued(s) == 0
  {
  }

  lemma SomebodyQueued(s: State)
    requires s.readers != [] && Has(s.commands, s.readers[0])
    ensures Queued(s) > 0
  {
  }

  /** The reply to a command closes nobody. */
  lemma TakenIsQuiet(s: State)
    requires Quiet(s.(scheduled := true)) && Queues(s) && s.readers != [] && Has(s.commands, s.readers[0])
    ensures var t := Taken(s, true);
      && t.lists == s.lists && t.life == s.life
      && (t.wire.inflight == [] || t.wire.inflight == [s.readers[0]])
      && (t.wire.inflight != [] ==>
            WriteDone(t, true) == t.(wire := t.wire.(writing := false, inflight := []), scheduled := true))
  {
    hide Linked, Lists.All, InLine;
    assert s.readers[0] in s.readers;
    assert Reading(s, s.readers[0]);
  }

  function CommandRounds(s: State, n: nat): State
    decreases n
  {
    if n == 0 then s else CommandRounds(CommandRound(s), n - 1)
  }

  /** So as many further advances as there are commands, and no fewer, have all of them looked at. */
  lemma {:induction false} CommandsTakeOneRoundEach(s: State, n: nat)
    requires Quiet(s) && Queues(s) && s.lists.Waiting() == 0
    ensures Queued(CommandRounds(s, n)) == if n <= Queued(s) then Queued(s) - n else 0
    decreases n
  {
    hide CommandRound, Quiet, Queues, Queued, Lists.Waiting;
    if n > 0 {
      RoundTakesOneCommand(s);
      CommandsTakeOneRoundEach(CommandRound(s), n - 1);
    }
  }

  lemma StrandedIsQuiet(s: State)
    requires Inv(s) && Stranded(s)
    ensures Quiet(s) && s.lists.Waiting() == 0
  {
    hide Linked;
    assert s.readers[0] in s.lists.stale || s.readers[0] in s.lists.idle;
    assert s.readers[0] in s.lists.All();
  }

  /** In particular wherever a run leaves commands stranded. */
  lemma StrandedUntilThen(status: int, evs: seq<Event>, n: nat)
    requires CanRun(Init(status), evs) && Stranded(Run(Init(status), evs))
    ensures var s := Run(Init(status), evs);
      && Queued(s) > 0
      && (Queued(CommandRounds(s, n)) == 0 <==> n >= Queued(s))
  {
    hide Enabled, Step, Quiet, Inv, Queues, CommandRound, Queued;
    var s := Run(Init(status), evs);
    InitQueues(status);
    RunKeepsQueues(Init(status), evs);
    StrandedIsQuiet(s);
    FirstHas(s);
    SomebodyQueued(s);
    CommandsTakeOneRoundEach(s, n);
  }

  lemma FirstHas(s: State)
    requires Queues(s) && !s.life.failed && s.readers != []
    ensures Has(s.commands, s.readers[0])
  {
  }
}
