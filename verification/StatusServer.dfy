/** The status server of libcitm/status_server.c: one writer, and a list for every thing a client
    may be waiting for. */
module StatusServer {
  type Id = nat

  /** A complete line that a client has sent: the "check" command, or anything else. */
  datatype Command = CheckCommand | OtherCommand

  /** The lists that clients are linked into through wlink. */
  datatype Lists = Lists(arrived: seq<Id>, stale: seq<Id>, idle: seq<Id>, bad: seq<Id>, closing: seq<Id>)
  {
    /** How often a client is linked, in all lists together. */
    ghost function All(): multiset<Id> {
      multiset(arrived) + multiset(stale) + multiset(idle) + multiset(bad) + multiset(closing)
    }

    function Unlink(c: Id): Lists {
      Lists(Without(arrived, c), Without(stale, c), Without(idle, c), Without(bad, c), Without(closing, c))
    }

    /** How many clients are waiting for a write. */
    function Waiting(): nat {
      |arrived| + |stale| + |bad|
    }
  }

  /** The flag that only one write may be under way, the writes that really are, the clients to be
      closed after their write, and the status that each client was last sent. */
  datatype Wire = Wire(writing: bool, inflight: seq<Id>, closeOnWrite: set<Id>, told: map<Id, int>)

  datatype Life = Life(failed: bool, listenerStarted: bool, listenerDone: bool, closed: bool)

  datatype State = State(
    status: int, lists: Lists, readers: seq<Id>, commands: map<Id, seq<Command>>, wire: Wire,
    scheduled: bool, life: Life)

  function Without(l: seq<Id>, c: Id): seq<Id> {
    if l == [] then [] else (if l[0] == c then [] else [l[0]]) + Without(l[1..], c)
  }

  /* ---------- the pieces ---------- */

  /** ss_client_close */
  function CloseClient(s: State, c: Id): State {
    if c in s.lists.closing then s
    else
      var lists := s.lists.Unlink(c);
      s.(lists := lists.(closing := lists.closing + [c]), readers := Without(s.readers, c))
  }

  /** ss_client_bad */
  function BadClient(s: State, c: Id): State {
    var lists := s.lists.Unlink(c);
    s.(lists := lists.(bad := lists.bad + [c]), readers := Without(s.readers, c))
  }

  /** do_write, when uv_write takes the buffer */
  function Write(w: Wire, c: Id): Wire {
    w.(writing := true, inflight := w.inflight + [c])
  }

  function Tell(w: Wire, c: Id, status: int): Wire {
    w.(told := w.told[c := status])
  }

  /** The end of advance_state once there is an error. */
  function ShutDown(s: State): State {
    if !s.life.listenerStarted then s.(life := s.life.(listenerStarted := true))
    else if !s.life.listenerDone then s
    else
      var l := s.lists;
      var closing := l.closing + l.arrived + l.stale + l.idle + l.bad;
      s.(lists := Lists([], [], [], [], closing), readers := [],
         life := if closing == [] then s.life.(closed := true) else s.life)
  }

  function Fail(s: State): State {
    ShutDown(s.(life := s.life.(failed := true)))
  }

  /** The first client with a complete command gets it processed; a reply may have to be written. */
  function NextRead(s: State, ok: bool): State
    decreases s.readers
  {
    if s.readers == [] then s
    else
      var c, s := s.readers[0], s.(readers := s.readers[1..]);
      if c !in s.commands || s.commands[c] == [] then NextRead(s, ok)
      else
        var cmd, left := s.commands[c][0], s.commands[c][1..];
        if cmd == OtherCommand && !ok then Fail(s)
        else
          var s := if cmd == OtherCommand then s.(wire := Write(s.wire, c)) else s;
          s.(commands := s.commands[c := left], readers := if left != [] then [c] + s.readers else s.readers)
  }

  /** advance_state; `ok` says whether uv_write takes what it is given */
  function Advance(s0: State, ok: bool): State {
    var s := s0.(scheduled := false);
    var l := s.lists;
    if s.life.failed then ShutDown(s)
    else if s.wire.writing then s
    else if l.arrived != [] then
      var s := s.(lists := l.(arrived := l.arrived[1..], idle := l.idle + [l.arrived[0]]));
      if ok then s.(wire := Tell(Write(s.wire, l.arrived[0]), l.arrived[0], s.status)) else Fail(s)
    else if l.stale != [] then
      var s := s.(lists := l.(stale := l.stale[1..], idle := l.idle + [l.stale[0]]));
      if ok then s.(wire := Tell(Write(s.wire, l.stale[0]), l.stale[0], s.status)) else Fail(s)
    else if l.bad != [] then
      var s := s.(wire := s.wire.(closeOnWrite := s.wire.closeOnWrite + {l.bad[0]}));
      if ok then s.(wire := Write(s.wire, l.bad[0])) else Fail(s)
    else NextRead(s, ok)
  }

  /** write_cb for the write that is under way */
  function WriteDone(s0: State, ok: bool): State
    requires s0.wire.inflight != []
  {
    var c := s0.wire.inflight[0];
    var s := s0.(wire := s0.wire.(writing := false, inflight := s0.wire.inflight[1..]), scheduled := true);
    if s.life.failed then s
    else if !ok || c in s.wire.closeOnWrite then CloseClient(s, c)
    else s
  }

  /** status_server_update: all idle clients become stale */
  function Update(s: State, status: int): State {
    if s.life.closed || s.life.failed then s
    else
      s.(status := status, lists := s.lists.(stale := s.lists.stale + s.lists.idle, idle := []), scheduled := true)
  }

  /** on_listener: a client that has sent nothing and was sent nothing */
  function Accept(s: State, c: Id): State {
    s.(lists := s.lists.(arrived := s.lists.arrived + [c]), commands := s.commands - {c},
       wire := s.wire.(told := s.wire.told - {c}, closeOnWrite := s.wire.closeOnWrite - {c}), scheduled := true)
  }

  /** read_cb with complete commands */
  function Receive(s: State, c: Id, cmds: seq<Command>): State {
    if s.life.failed then s
    else
      s.(commands := s.commands[c := (if c in s.commands then s.commands[c] else []) + cmds],
         readers := if cmds == [] then s.readers else Without(s.readers, c) + [c], scheduled := true)
  }

  datatype Event =
    | DoAdvance(ok: bool)
    | DoWriteDone(ok: bool)
    | DoUpdate(status: int)
    | DoAccept(c: Id)
    | DoReceive(c: Id, cmds: seq<Command>)
    | ReadFails(c: Id)
    | TooLong(c: Id)
    | ClientClosed(c: Id)
    | ListenerClosed
    | DoClose

  /** A client that may still be read from. */
  predicate Reading(s: State, c: Id) {
    c in s.lists.stale || c in s.lists.idle
  }

  /** What libuv may do: it runs what was scheduled, ends writes that are under way, ends a close
      only after the client's writes have ended, and accepts no one after the listener is closed. */
  ghost predicate Enabled(s: State, ev: Event) {
    && !s.life.closed
    && match ev
       case DoAdvance(_) => s.scheduled
       case DoWriteDone(_) => s.wire.inflight != []
       case DoAccept(c) => s.lists.All()[c] == 0 && c !in s.wire.inflight && !s.life.listenerDone
       case DoReceive(c, _) => Reading(s, c)
       case ReadFails(c) => Reading(s, c)
       case TooLong(c) => Reading(s, c)
       case ClientClosed(c) => c in s.lists.closing && c !in s.wire.inflight
       case ListenerClosed => s.life.listenerStarted && !s.life.listenerDone
       case _ => true
  }

  ghost function Step(s: State, ev: Event): State
    requires Enabled(s, ev)
  {
    match ev
    case DoAdvance(ok) => Advance(s, ok)
    case DoWriteDone(ok) => WriteDone(s, ok)
    case DoUpdate(status) => Update(s, status)
    case DoAccept(c) => Accept(s, c)
    case DoReceive(c, cmds) => Receive(s, c, cmds)
    case ReadFails(c) => if s.life.failed then s else CloseClient(s, c)
    case TooLong(c) => if s.life.failed then s else BadClient(s, c).(scheduled := true)
    case ClientClosed(c) => s.(lists := s.lists.Unlink(c), scheduled := true)
    case ListenerClosed => s.(life := s.life.(listenerDone := true), scheduled := true)
    case DoClose => if s.life.failed then s else s.(life := s.life.(failed := true), scheduled := true)
  }

  /* ---------- what holds in every run ---------- */

  /** Every client is in one list, the flag tells the writes, and unless there is an error, an idle
      client was last sent the current status, and whoever waits for a write will get a turn. */
  ghost predicate Inv(s: State) {
    && Linked(s.lists) && Writes(s.lists, s.wire)
    && (s.life.closed ==> s.lists.All() == multiset{})
    && (!s.life.failed ==> Current(s) && ReadersOpen(s.lists, s.readers))
    && (!s.life.failed && s.lists.Waiting() > 0 ==> s.wire.writing || s.scheduled)
  }

  ghost predicate Linked(l: Lists) {
    forall c :: l.All()[c] <= 1
  }

  ghost predicate Writes(lists: Lists, wire: Wire) {
    && (wire.inflight != [] <==> wire.writing) && |wire.inflight| <= 1
    && (forall c :: c in wire.inflight ==> c in lists.stale || c in lists.idle || c in lists.bad || c in lists.closing)
  }

  ghost predicate Current(s: State) {
    forall c :: c in s.lists.idle ==> c in s.wire.told && s.wire.told[c] == s.status
  }

  /** Only clients that are told the status are read from. */
  ghost predicate ReadersOpen(lists: Lists, readers: seq<Id>) {
    forall c :: c in readers ==> c in lists.stale || c in lists.idle
  }

  lemma {:induction false} WithoutHas(l: seq<Id>, c: Id)
    ensures multiset(Without(l, c)) == multiset(l)[c := 0]
    ensures forall d :: d in Without(l, c) <==> d in l && d != c
    ensures |Without(l, c)| <= |l|
  {
    if l != [] {
      WithoutHas(l[1..], c);
      assert l == [l[0]] + l[1..];
    }
  }

  lemma UnlinkHas(l: Lists, c: Id)
    requires Linked(l)
    ensures Linked(l.Unlink(c)) && l.Unlink(c).All() == l.All()[c := 0]
    ensures l.Unlink(c).Waiting() <= l.Waiting()
  {
    WithoutHas(l.arrived, c);
    WithoutHas(l.stale, c);
    WithoutHas(l.idle, c);
    WithoutHas(l.bad, c);
    WithoutHas(l.closing, c);
    hide Without;
  }

  lemma HeadAndTail(l: seq<Id>)
    requires l != []
    ensures multiset(l) == multiset{l[0]} + multiset(l[1..])
  {
    assert l == [l[0]] + l[1..];
  }

  lemma CloseClientKeepsInv(s: State, c: Id)
    requires Inv(s) && !s.life.failed && !s.life.closed && (Reading(s, c) || c in s.lists.bad || c in s.lists.closing)
    ensures Inv(CloseClient(s, c)) && CloseClient(s, c).lists.Waiting() <= s.lists.Waiting()
    ensures CloseClient(s, c).scheduled == s.scheduled
  {
    hide Without, Lists.Unlink, Lists.Waiting, Lists.All;
    WithoutHas(s.readers, c);
    ClosedListsHave(s.lists, c);
  }

  /** A client that moves to the end of the closing list. */
  lemma ClosedListsHave(l: Lists, c: Id)
    requires Linked(l)
    ensures var u := l.Unlink(c); Linked(u.(closing := u.closing + [c]))
    ensures var u := l.Unlink(c); u.(closing := u.closing + [c]).Waiting() <= l.Waiting()
    ensures var u := l.Unlink(c); Linked(u.(bad := u.bad + [c]))
    ensures forall d :: d != c ==> (d in l.idle <==> d in l.Unlink(c).idle)
    ensures forall d :: d != c ==> (d in l.stale <==> d in l.Unlink(c).stale)
    ensures forall d :: d != c ==> (d in l.bad <==> d in l.Unlink(c).bad)
    ensures forall d :: d != c ==> (d in l.closing <==> d in l.Unlink(c).closing)
    ensures c !in l.Unlink(c).idle
  {
    hide Without;
    WithoutHas(l.stale, c);
    WithoutHas(l.idle, c);
    WithoutHas(l.bad, c);
    WithoutHas(l.closing, c);
    UnlinkHas(l, c);
    var u := l.Unlink(c);
    assert u.(closing := u.closing + [c]).All() == u.All() + multiset{c};
    assert u.(bad := u.bad + [c]).All() == u.All() + multiset{c};
  }

  lemma WriteDoneKeepsInv(s: State, ok: bool)
    requires Inv(s) && Enabled(s, DoWriteDone(ok))
    ensures Inv(WriteDone(s, ok)) && (WriteDone(s, ok).scheduled)
    ensures WriteDone(s, ok).lists.Waiting() <= s.lists.Waiting()
  {
    hide CloseClient;
    var c := s.wire.inflight[0];
    var t := s.(wire := s.wire.(writing := false, inflight := s.wire.inflight[1..]), scheduled := true);
    assert Inv(t);
    if !s.life.failed {
      CloseClientKeepsInv(t, c);
    }
  }

  lemma ShutDownKeepsInv(s: State)
    requires Inv(s) && s.life.failed && !s.life.closed
    ensures Inv(ShutDown(s))
  {
    var l := s.lists;
    var closing := l.closing + l.arrived + l.stale + l.idle + l.bad;
    assert multiset(closing) == l.All();
    assert Lists([], [], [], [], closing).All() == l.All();
  }

  lemma NextReadKeepsInv(s: State, ok: bool)
    requires Inv(s) && !s.life.failed && !s.life.closed && !s.wire.writing && s.lists.Waiting() == 0
    ensures Inv(NextRead(s, ok))
    decreases s.readers
  {
    hide Linked, ShutDown, Writes, ReadersOpen, Lists.All;
    if s.readers != [] {
      var c, t := s.readers[0], s.(readers := s.readers[1..]);
      FewerReaders(s.lists, s.readers);
      if c !in t.commands || t.commands[c] == [] {
        NextReadKeepsInv(t, ok);
      } else if t.commands[c][0] == OtherCommand {
        if ok {
          WriteToReader(s, c);
        } else {
          ShutDownKeepsInv(t.(life := t.life.(failed := true)));
        }
      }
    }
  }

  lemma FewerReaders(lists: Lists, readers: seq<Id>)
    requires ReadersOpen(lists, readers) && readers != []
    ensures ReadersOpen(lists, readers[1..]) && readers == [readers[0]] + readers[1..]
    ensures readers[0] in lists.stale || readers[0] in lists.idle
  {
    assert readers[0] in readers;
    forall c | c in readers[1..]
      ensures c in readers
    {
    }
  }

  lemma WriteToReader(s: State, c: Id)
    requires Writes(s.lists, s.wire) && !s.wire.writing && Reading(s, c)
    ensures Writes(s.lists, Write(s.wire, c))
  {
  }

  lemma AdvanceKeepsInv(s0: State, ok: bool)
    requires Inv(s0) && Enabled(s0, DoAdvance(ok))
    ensures Inv(Advance(s0, ok))
  {
    hide ShutDown, NextRead, Linked, Lists.All;
    var s := s0.(scheduled := false);
    var l := s.lists;
    if s.life.failed {
      ShutDownKeepsInv(s);
    } else if s.wire.writing {
    } else if l.arrived != [] {
      ArrivedToIdle(l);
      ServeKeepsInv(s, l.(arrived := l.arrived[1..], idle := l.idle + [l.arrived[0]]), l.arrived[0], ok);
    } else if l.stale != [] {
      StaleToIdle(l);
      ServeKeepsInv(s, l.(stale := l.stale[1..], idle := l.idle + [l.stale[0]]), l.stale[0], ok);
    } else if l.bad != [] {
      if !ok {
        var wire := s.wire.(closeOnWrite := s.wire.closeOnWrite + {l.bad[0]});
        ShutDownKeepsInv(s.(wire := wire, life := s.life.(failed := true)));
      }
    } else {
      NextReadKeepsInv(s, ok);
    }
  }

  /** A client that is sent the current status becomes idle. */
  lemma ServeKeepsInv(s: State, lists: Lists, c: Id, ok: bool)
    requires Inv(s.(scheduled := true)) && !s.life.failed && !s.life.closed && !s.wire.writing
    requires lists.All() == s.lists.All() && lists.idle == s.lists.idle + [c]
    requires forall d :: Reading(s, d) ==> d in lists.stale || d in lists.idle
    ensures var t := s.(lists := lists);
      Inv(if ok then t.(wire := Tell(Write(t.wire, c), c, t.status)) else Fail(t))
  {
    hide ShutDown, Lists.Waiting, Lists.All;
    if !ok {
      ShutDownKeepsInv(s.(lists := lists, life := s.life.(failed := true)));
    }
  }

  lemma ArrivedToIdle(l: Lists)
    requires l.arrived != []
    ensures var m := l.(arrived := l.arrived[1..], idle := l.idle + [l.arrived[0]]);
      m.All() == l.All() && m.Waiting() == l.Waiting() - 1
  {
    HeadAndTail(l.arrived);
    assert multiset(l.idle + [l.arrived[0]]) == multiset(l.idle) + multiset{l.arrived[0]};
  }

  lemma StaleToIdle(l: Lists)
    requires l.stale != []
    ensures var m := l.(stale := l.stale[1..], idle := l.idle + [l.stale[0]]);
      && m.All() == l.All() && m.Waiting() == l.Waiting() - 1
      && forall d :: d in l.stale ==> d in m.stale || d in m.idle
  {
    HeadAndTail(l.stale);
    assert multiset(l.idle + [l.stale[0]]) == multiset(l.idle) + multiset{l.stale[0]};
    assert l.stale == [l.stale[0]] + l.stale[1..];
  }

  lemma UpdateKeepsInv(s: State, status: int)
    requires Inv(s)
    ensures Inv(Update(s, status))
  {
    var l := s.lists;
    assert l.(stale := l.stale + l.idle, idle := []).All() == l.All();
    hide Lists.All;
  }

  lemma AcceptKeepsInv(s: State, c: Id)
    requires Inv(s) && Enabled(s, DoAccept(c))
    ensures Inv(Accept(s, c))
  {
    assert s.lists.(arrived := s.lists.arrived + [c]).All() == s.lists.All() + multiset{c};
    hide Lists.All;
  }

  lemma ReceiveKeepsInv(s: State, c: Id, cmds: seq<Command>)
    requires Inv(s) && !s.life.closed && Reading(s, c)
    ensures Inv(Receive(s, c, cmds))
  {
    hide Without, Lists.All, Linked;
    WithoutHas(s.readers, c);
  }

  lemma ListEventKeepsInv(s: State, ev: Event)
    requires Inv(s) && Enabled(s, ev) && !ev.DoAdvance? && !ev.DoWriteDone?
    ensures Inv(Step(s, ev))
  {
    hide Update, Accept, Receive, CloseClient, BadClient, Lists.Unlink, Lists.All, Linked, Lists.Waiting;
    match ev {
      case DoUpdate(status) => UpdateKeepsInv(s, status);
      case DoAccept(c) => AcceptKeepsInv(s, c);
      case DoReceive(c, cmds) => ReceiveKeepsInv(s, c, cmds);
      case ReadFails(c) => if !s.life.failed { CloseClientKeepsInv(s, c); }
      case TooLong(c) => if !s.life.failed { BadClientKeepsInv(s, c); }
      case ClientClosed(c) => ClosedClientKeepsInv(s, c);
      case _ =>
    }
  }

  lemma BadClientKeepsInv(s: State, c: Id)
    requires Inv(s) && !s.life.failed && !s.life.closed && Reading(s, c)
    ensures Inv(BadClient(s, c).(scheduled := true))
  {
    hide Without, Lists.Unlink, Lists.Waiting, Lists.All;
    WithoutHas(s.readers, c);
    ClosedListsHave(s.lists, c);
  }

  lemma ClosedClientKeepsInv(s: State, c: Id)
    requires Inv(s) && Enabled(s, ClientClosed(c))
    ensures Inv(s.(lists := s.lists.Unlink(c), scheduled := true))
  {
    hide Without, Lists.Unlink, Lists.Waiting;
    OnlyClosing(s.lists, c);
    UnlinkHas(s.lists, c);
    ClosedListsHave(s.lists, c);
  }

  lemma OnlyClosing(l: Lists, c: Id)
    requires Linked(l) && c in l.closing
    ensures c !in l.idle && c !in l.stale && c !in l.bad && c !in l.arrived
  {
    assert l.All()[c] <= 1;
  }

  lemma StepKeepsInv(s: State, ev: Event)
    requires Inv(s) && Enabled(s, ev)
    ensures Inv(Step(s, ev))
  {
    hide Advance, WriteDone;
    match ev {
      case DoAdvance(ok) => AdvanceKeepsInv(s, ok);
      case DoWriteDone(ok) => WriteDoneKeepsInv(s, ok);
      case _ => ListEventKeepsInv(s, ev);
    }
  }

  /* ---------- runs ---------- */

  ghost predicate CanRun(s: State, evs: seq<Event>)
    decreases evs
  {
    evs == [] || (Enabled(s, evs[0]) && CanRun(Step(s, evs[0]), evs[1..]))
  }

  ghost function Run(s: State, evs: seq<Event>): State
    requires CanRun(s, evs)
    decreases evs
  {
    if evs == [] then s else Run(Step(s, evs[0]), evs[1..])
  }

  /** status_server_init */
  function Init(status: int): State {
    State(status, Lists([], [], [], [], []), [], map[], Wire(false, [], {}, map[]), false,
          Life(false, false, false, false))
  }

  lemma {:induction false} RunKeepsInv(s: State, evs: seq<Event>)
    requires Inv(s) && CanRun(s, evs)
    ensures Inv(Run(s, evs))
    decreases evs
  {
    hide Inv, Enabled, Step;
    if evs != [] {
      StepKeepsInv(s, evs[0]);
      RunKeepsInv(Step(s, evs[0]), evs[1..]);
    }
  }

  /** The status published last, in a history that starts with `status`. */
  ghost function Published(status: int, evs: seq<Event>): int
    decreases evs
  {
    if evs == [] then status
    else Published(if evs[0].DoUpdate? then evs[0].status else status, evs[1..])
  }

  /** A server without an error goes by what was published last. */
  lemma {:induction false} GoesByThePublished(s: State, evs: seq<Event>)
    requires CanRun(s, evs) && !Run(s, evs).life.failed
    ensures !s.life.failed && Run(s, evs).status == Published(s.status, evs)
    decreases evs
  {
    hide Enabled, Step;
    if evs != [] {
      GoesByThePublished(Step(s, evs[0]), evs[1..]);
      OnlyUpdatesPublish(s, evs[0]);
    }
  }

  lemma OnlyUpdatesPublish(s: State, ev: Event)
    requires Enabled(s, ev)
    ensures s.life.failed ==> Step(s, ev).life.failed
    ensures !Step(s, ev).life.failed ==> Step(s, ev).status == if ev.DoUpdate? then ev.status else s.status
  {
    hide NextRead;
    if ev.DoAdvance? {
      ReadingPublishesNothing(s.(scheduled := false), ev.ok);
    }
  }

  lemma {:induction false} ReadingPublishesNothing(s: State, ok: bool)
    ensures NextRead(s, ok).status == s.status && (s.life.failed ==> NextRead(s, ok).life.failed)
    decreases s.readers
  {
    if s.readers != [] {
      ReadingPublishesNothing(s.(readers := s.readers[1..]), ok);
    }
  }

  /** In every run: at most one write is under way; a client is in one list; an idle client was last
      sent the status published last; and while a client waits for a write, a write or an advance is
      due. */
  lemma EveryRunIsSafe(status: int, evs: seq<Event>)
    requires CanRun(Init(status), evs)
    ensures var s := Run(Init(status), evs);
      && |s.wire.inflight| <= 1 && (forall c :: s.lists.All()[c] <= 1)
      && (!s.life.failed ==>
            forall c :: c in s.lists.idle ==> c in s.wire.told && s.wire.told[c] == Published(status, evs))
      && (!s.life.failed && s.lists.Waiting() > 0 ==> s.wire.inflight != [] || s.scheduled)
  {
    hide Run, CanRun, Published;
    assert Inv(Init(status));
    RunKeepsInv(Init(status), evs);
    if !Run(Init(status), evs).life.failed {
      GoesByThePublished(Init(status), evs);
    }
  }

  /** When the server reports that it is done, no client is left and no write is under way. */
  lemma DoneMeansNothingLeft(status: int, evs: seq<Event>)
    requires CanRun(Init(status), evs) && Run(Init(status), evs).life.closed
    ensures var s := Run(Init(status), evs); s.lists.All() == multiset{} && s.wire.inflight == []
  {
    hide Run, CanRun;
    assert Inv(Init(status));
    RunKeepsInv(Init(status), evs);
    var s := Run(Init(status), evs);
    NoClientNoWrite(s);
  }

  lemma NoClientNoWrite(s: State)
    requires Writes(s.lists, s.wire)
    ensures s.wire.inflight != [] ==> s.wire.inflight[0] in s.lists.All()
  {
    if s.wire.inflight != [] {
      assert s.wire.inflight[0] in s.wire.inflight;
    }
  }

  /* ---------- progress ---------- */

  /** Nothing is under way. */
  ghost predicate Quiet(s: State) {
    Inv(s) && !s.life.failed && !s.life.closed && s.wire.inflight == []
  }

  lemma WithoutShrinks(l: seq<Id>, c: Id)
    requires c in l
    ensures |Without(l, c)| < |l|
  {
    WithoutHas(l, c);
    assert multiset(l)[c := 0] < multiset(l);
    MultisetSmaller(multiset(Without(l, c)), multiset(l));
  }

  lemma MultisetSmaller(a: multiset<Id>, b: multiset<Id>)
    requires a < b
    ensures |a| < |b|
  {
    assert b == a + (b - a);
    assert b - a != multiset{};
  }

  /** Without new events, one advance and the end of the write it starts, whether or not the write
      succeeds, leave fewer clients waiting. */
  lemma RoundMakesProgress(s: State, ok: bool)
    requires Quiet(s) && s.lists.Waiting() > 0
    ensures Enabled(s, DoAdvance(true)) && Enabled(Advance(s, true), DoWriteDone(ok))
    ensures var t := WriteDone(Advance(s, true), ok); Quiet(t) && t.lists.Waiting() < s.lists.Waiting()
  {
    hide NextRead, ShutDown, CloseClient, Linked;
    var l := s.lists;
    AdvanceKeepsInv(s, true);
    var t := Advance(s, true);
    assert |t.wire.inflight| == 1;
    WriteDoneKeepsInv(t, ok);
    StaysUp(t, ok);
    if l.arrived != [] {
      ArrivedToIdle(l);
    } else if l.stale != [] {
      StaleToIdle(l);
    } else {
      ClosingABadClient(t, l.bad[0]);
    }
  }

  lemma StaysUp(s: State, ok: bool)
    requires |s.wire.inflight| == 1
    ensures WriteDone(s, ok).life == s.life && WriteDone(s, ok).wire.inflight == []
  {
  }

  lemma ClosingABadClient(s: State, c: Id)
    requires Inv(s) && s.wire.inflight == [c] && c in s.lists.bad && c in s.wire.closeOnWrite && !s.life.failed
    ensures forall ok :: WriteDone(s, ok).lists.Waiting() < s.lists.Waiting()
  {
    hide Without;
    if c in s.lists.closing {
      OnlyClosing(s.lists, c);
    }
    WithoutShrinks(s.lists.bad, c);
    WithoutHas(s.lists.arrived, c);
    WithoutHas(s.lists.stale, c);
  }

  /** Rounds of an advance and the end of its write, while somebody waits. */
  ghost function Rounds(s: State, oks: seq<bool>): State
    requires Quiet(s)
    decreases oks
  {
    if s.lists.Waiting() == 0 || oks == [] then s
    else
      RoundMakesProgress(s, oks[0]);
      Rounds(WriteDone(Advance(s, true), oks[0]), oks[1..])
  }

  /** So after as many rounds as clients were waiting, nobody waits any more. */
  lemma {:induction false} RoundsServeAll(s: State, oks: seq<bool>)
    requires Quiet(s) && |oks| >= s.lists.Waiting()
    ensures var t := Rounds(s, oks); Quiet(t) && t.lists.Waiting() == 0 && t.status == s.status
    decreases oks
  {
    hide Advance, WriteDone, Quiet;
    if s.lists.Waiting() > 0 {
      RoundMakesProgress(s, oks[0]);
      RoundPublishesNothing(s, oks[0]);
      RoundsServeAll(WriteDone(Advance(s, true), oks[0]), oks[1..]);
    }
  }

  lemma RoundPublishesNothing(s: State, ok: bool)
    requires Quiet(s) && s.lists.Waiting() > 0
    ensures Advance(s, true).wire.inflight != [] && WriteDone(Advance(s, true), ok).status == s.status
  {
    hide NextRead, Linked;
  }

  /** Wherever a run leaves clients waiting and no write under way, as many rounds later every client
      that is still open was last sent the status published last. */
  lemma EverybodyIsTold(status: int, evs: seq<Event>, oks: seq<bool>)
    requires CanRun(Init(status), evs) && Quiet(Run(Init(status), evs))
    requires |oks| >= Run(Init(status), evs).lists.Waiting()
    ensures var t := Rounds(Run(Init(status), evs), oks);
      && t.lists.Waiting() == 0
      && forall c :: c in t.lists.All() && c !in t.lists.closing ==>
           c in t.wire.told && t.wire.told[c] == Published(status, evs)
  {
    hide Run, CanRun, Published, Rounds;
    var s := Run(Init(status), evs);
    GoesByThePublished(Init(status), evs);
    RoundsServeAll(s, oks);
    var t := Rounds(s, oks);
    forall c | c in t.lists.All() && c !in t.lists.closing
      ensures c in t.lists.idle
    {
      assert t.lists.arrived == t.lists.stale == t.lists.bad == [];
    }
  }

  lemma First(s: State, ev: Event, rest: seq<Event>)
    requires Enabled(s, ev) && CanRun(Step(s, ev), rest)
    ensures CanRun(s, [ev] + rest) && Run(s, [ev] + rest) == Run(Step(s, ev), rest)
  {
    assert ([ev] + rest)[1..] == rest;
  }

  /** Commands have no such guarantee: a "check" is not answered, and a command that came with it
      waits although nothing is under way and nothing scheduled. */
  lemma CommandsMayWait()
    ensures exists evs :: CanRun(Init(0), evs) &&
              var s := Run(Init(0), evs);
              s.readers != [] && s.wire.inflight == [] && !s.scheduled && !s.life.failed
  {
    hide Enabled, Step;
    var advance, done, commands := DoAdvance(true), DoWriteDone(true), DoReceive(1, [CheckCommand, CheckCommand]);
    var s1, s2, s3, s4, s5 := OneClientTwoChecks();
    First(s4, advance, []);
    First(s3, commands, [advance]);
    First(s2, done, [commands] + [advance]);
    First(s1, advance, [done] + ([commands] + [advance]));
    First(Init(0), DoAccept(1), [advance] + ([done] + ([commands] + [advance])));
  }

  lemma OneClientTwoChecks() returns (s1: State, s2: State, s3: State, s4: State, s5: State)
    ensures Enabled(Init(0), DoAccept(1)) && s1 == Step(Init(0), DoAccept(1))
    ensures Enabled(s1, DoAdvance(true)) && s2 == Step(s1, DoAdvance(true))
    ensures Enabled(s2, DoWriteDone(true)) && s3 == Step(s2, DoWriteDone(true))
    ensures Enabled(s3, DoReceive(1, [CheckCommand, CheckCommand]))
    ensures s4 == Step(s3, DoReceive(1, [CheckCommand, CheckCommand]))
    ensures Enabled(s4, DoAdvance(true)) && s5 == Step(s4, DoAdvance(true))
    ensures s5.readers == [1] && s5.wire.inflight == [] && !s5.scheduled && !s5.life.failed
  {
    s1 := Step(Init(0), DoAccept(1));
    assert s1.lists == Lists([1], [], [], [], []);
    s2 := Step(s1, DoAdvance(true));
    assert s2.lists == Lists([], [], [1], [], []) && s2.wire.inflight == [1] && s2.readers == [];
    s3 := Step(s2, DoWriteDone(true));
    assert s3.lists == s2.lists && s3.wire.inflight == [] && s3.readers == [] && s3.commands == map[];
    s4 := Step(s3, DoReceive(1, [CheckCommand, CheckCommand]));
    assert s4.readers == [1] && s4.commands[1] == [CheckCommand, CheckCommand] && s4.scheduled;
    s5 := Step(s4, DoAdvance(true));
    assert s5.readers == [1] + [];
  }

  /* ---------- the server in place ---------- */

  class Server {
    var status: int
    var lists: Lists
    var readers: seq<Id>
    var commands: map<Id, seq<Command>>
    var wire: Wire
    var scheduled: bool
    var life: Life

    ghost function Abs(): State
      reads this
    {
      State(status, lists, readers, commands, wire, scheduled, life)
    }

    ghost predicate Valid()
      reads this
    {
      Inv(Abs())
    }

    constructor (status: int)
      ensures Valid() && Abs() == Init(status)
    {
      this.status, lists, readers, commands := status, Lists([], [], [], [], []), [], map[];
      wire, scheduled, life := Wire(false, [], {}, map[]), false, Life(false, false, false, false);
    }

    /** status_server_update */
    method UpdateStatus(status: int)
      requires Valid()
      modifies this
      ensures Valid() && Abs() == Update(old(Abs()), status)
    {
      UpdateKeepsInv(Abs(), status);
      if life.closed || life.failed {
        return;
      }
      this.status := status;
      lists := lists.(stale := lists.stale + lists.idle, idle := []);
      scheduled := true;
    }

    /** ss_client_close */
    method Drop(c: Id)
      modifies this`lists, this`readers
      ensures Abs() == CloseClient(old(Abs()), c)
    {
      if c !in lists.closing {
        readers := Without(readers, c);
        lists := lists.Unlink(c);
        lists := lists.(closing := lists.closing + [c]);
      }
    }

    /** ss_client_bad */
    method Punish(c: Id)
      requires Valid() && Enabled(Abs(), TooLong(c)) && !life.failed
      modifies this`lists, this`readers, this`scheduled
      ensures Valid() && Abs() == Step(old(Abs()), TooLong(c))
    {
      hide Without;
      BadClientKeepsInv(Abs(), c);
      readers := Without(readers, c);
      lists := lists.Unlink(c);
      lists := lists.(bad := lists.bad + [c]);
      scheduled := true;
    }

    /** ss_write_cb, through write_cb */
    method WriteEnds(ok: bool)
      requires Valid() && Enabled(Abs(), DoWriteDone(ok))
      modifies this
      ensures Valid() && Abs() == WriteDone(old(Abs()), ok)
    {
      hide CloseClient, Inv;
      WriteDoneKeepsInv(Abs(), ok);
      var c := wire.inflight[0];
      wire := wire.(writing := false, inflight := wire.inflight[1..]);
      scheduled := true;
      if !life.failed && (!ok || c in wire.closeOnWrite) {
        Drop(c);
      }
    }

    method Stop()
      modifies this
      ensures Abs() == ShutDown(old(Abs()))
    {
      if !life.listenerStarted {
        life := life.(listenerStarted := true);
      } else if life.listenerDone {
        var closing := lists.closing + lists.arrived + lists.stale + lists.idle + lists.bad;
        lists, readers := Lists([], [], [], [], closing), [];
        if closing == [] {
          life := life.(closed := true);
        }
      }
    }

    /** The loop over the clients that have written commands. */
    method ProcessCommands(ok: bool)
      modifies this
      ensures Abs() == NextRead(old(Abs()), ok)
    {
      hide ShutDown;
      while readers != []
        invariant NextRead(Abs(), ok) == NextRead(old(Abs()), ok)
        decreases |readers|
      {
        var c := readers[0];
        readers := readers[1..];
        if c in commands && commands[c] != [] {
          var cmd, left := commands[c][0], commands[c][1..];
          if cmd == OtherCommand {
            if !ok {
              life := life.(failed := true);
              Stop();
              return;
            }
            wire := Write(wire, c);
          }
          if left != [] {
            readers := [c] + readers;
          }
          commands := commands[c := left];
          return;
        }
      }
    }

    /** advance_state */
    method AdvanceState(ok: bool)
      requires Valid() && Enabled(Abs(), DoAdvance(ok))
      modifies this
      ensures Valid() && Abs() == Advance(old(Abs()), ok)
    {
      hide ShutDown, NextRead, Inv;
      AdvanceKeepsInv(Abs(), ok);
      scheduled := false;
      if life.failed {
        Stop();
        return;
      }
      if wire.writing {
        return;
      }
      if lists.arrived == [] && lists.stale == [] && lists.bad == [] {
        ProcessCommands(ok);
        return;
      }
      var c: Id;
      var telling := lists.arrived != [] || lists.stale != [];
      if lists.arrived != [] {
        c := lists.arrived[0];
        lists := lists.(arrived := lists.arrived[1..], idle := lists.idle + [c]);
      } else if lists.stale != [] {
        c := lists.stale[0];
        lists := lists.(stale := lists.stale[1..], idle := lists.idle + [c]);
      } else {
        c := lists.bad[0];
        wire := wire.(closeOnWrite := wire.closeOnWrite + {c});
      }
      if !ok {
        life := life.(failed := true);
        Stop();
        return;
      }
      wire := Write(wire, c);
      if telling {
        wire := Tell(wire, c, status);
      }
    }

    /** on_listener */
    method AcceptClient(c: Id)
      requires Valid() && Enabled(Abs(), DoAccept(c))
      modifies this`lists, this`commands, this`wire, this`scheduled
      ensures Valid() && Abs() == Accept(old(Abs()), c)
    {
      hide Inv;
      AcceptKeepsInv(Abs(), c);
      lists, commands := lists.(arrived := lists.arrived + [c]), commands - {c};
      wire := wire.(told := wire.told - {c}, closeOnWrite := wire.closeOnWrite - {c});
      scheduled := true;
    }

    /** read_cb, when complete commands have come in */
    method CommandsArrive(c: Id, cmds: seq<Command>)
      requires Valid() && Enabled(Abs(), DoReceive(c, cmds))
      modifies this`commands, this`readers, this`scheduled
      ensures Valid() && Abs() == Receive(old(Abs()), c, cmds)
    {
      hide Inv;
      ReceiveKeepsInv(Abs(), c, cmds);
      if life.failed {
        return;
      }
      if cmds != [] {
        readers := Without(readers, c) + [c];
      }
      commands := commands[c := (if c in commands then commands[c] else []) + cmds];
      scheduled := true;
    }
  }
}
