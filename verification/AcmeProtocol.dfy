/** What the certificate manager asks of the outside, and in which order, told from the answers it
    got and the requests it made and nothing else. */
module AcmeProtocol {
  import opened Bytes
  import opened AcmeState
  import opened AcmeInvariants
  import opened AcmePlan

  /* ---------- what can be seen from outside ---------- */

  /** A call to the outside: the key generation that starts an attempt, or a request. */
  datatype Call = StartsKey | Asks(r: Request)

  /** What is under way when an event is delivered: an answer or a key ends something. */
  function Remaining(a: Outside, ev: Event): Outside {
    match ev
    case Answer(i, _) => if i < |a.pending| then a.Answered(i) else a
    case KeygenEnds(_) => if a.keygens > 0 then a.(keygens := a.keygens - 1) else a
    case _ => a
  }

  /** The calls between two moments: key generations first, requests in the order they were sent. */
  function Calls(a: Outside, b: Outside): (calls: seq<Call>) {
    var requests := if |a.pending| <= |b.pending| then b.pending[|a.pending|..] else [];
    (if b.keygens > a.keygens then seq(b.keygens - a.keygens, _ => StartsKey) else [])
    + seq(|requests|, i requires 0 <= i < |requests| => Asks(requests[i]))
  }

  function CallsOf(s: State, ev: Event): (calls: seq<Call>)
    requires Enabled(s, ev)
  {
    Calls(Remaining(s.ami, ev), Step(s, ev).ami)
  }

  /* ---------- the protocol ---------- */

  /** How an attempt goes on after an error: another one starts, unless the error is fatal. */
  function AfterError(err: Err): set<Call> {
    if err == Other then {} else {StartsKey}
  }

  /** A challenge is picked up where it was left; one that failed ends the attempt. */
  function AfterAuthz(status: AcmeStatus): set<Call> {
    match status
    case Pending => {Asks(SetChallenge), StartsKey}
    case Processing => {Asks(ChallengeFinish)}
    case Validated => {Asks(Finalize)}
    case _ => {StartsKey}
  }

  /** What the next call may be once a request was answered. */
  function AfterReply(reply: Reply): set<Call> {
    match reply
    case AccountReply(err, _) =>
      if err.None? then {StartsKey} else if err.value == Network then {Asks(NewAccount)} else {}
    case GetOrderReply(ours, status) => {Asks(ByOrder(ours, status))}
    case NewOrderReply(err) => if err.None? then {Asks(GetAuthz)} else AfterError(err.value)
    case AuthzReply(err, status) => if err.None? then AfterAuthz(status) else AfterError(err.value)
    case PrepareReply(result) =>
      (match result
       case PrepareOk => {Asks(Challenge)}
       case PrepareTimeout => {Asks(SetChallenge), StartsKey}
       case PrepareError(err) => AfterError(err))
    case ChallengeReply(err) => if err.None? then {Asks(Finalize)} else AfterError(err.value)
    case FinalizeReply(err) => if err.None? then {Asks(DeleteChallenge), StartsKey} else AfterError(err.value)
    case UnprepareReply(ok, _) => if ok then {StartsKey} else {Asks(DeleteChallenge), StartsKey}
  }

  /** An attempt looks at the order on file first, or has none and asks for a new one, or fails; a
      request is waited for. */
  function AfterCall(call: Call): set<Call> {
    match call
    case StartsKey => {Asks(GetOrder), Asks(NewOrder), StartsKey}
    case Asks(_) => {}
  }

  /** What the first call of a run may be. */
  function AtFirst(disk: Disk): set<Call> {
    if disk.HasAccount? then {StartsKey, Asks(DeleteChallenge)} else {Asks(NewAccount)}
  }

  /** Calls that are allowed one after another. */
  predicate Allows(next: set<Call>, calls: seq<Call>)
    decreases calls
  {
    calls == [] || (calls[0] in next && Allows(AfterCall(calls[0]), calls[1..]))
  }

  function AfterCalls(next: set<Call>, calls: seq<Call>): set<Call> {
    if calls == [] then next else AfterCall(calls[|calls| - 1])
  }

  /** What may come next after an event, and the calls made in it. */
  function AfterEvent(next: set<Call>, ev: Event, calls: seq<Call>): set<Call> {
    AfterCalls(if ev.Answer? then AfterReply(ev.reply) else next, calls)
  }

  /** Every call of a run is one that the calls and answers before it allow. */
  ghost predicate Speaks(next: set<Call>, s: State, evs: seq<Event>)
    requires CanRun(s, evs)
    decreases evs
  {
    evs != [] ==>
      var calls := CallsOf(s, evs[0]);
      && Allows(if evs[0].Answer? then AfterReply(evs[0].reply) else next, calls)
      && Speaks(AfterEvent(next, evs[0], calls), Step(s, evs[0]), evs[1..])
  }

  /* ---------- what the plan allows ---------- */

  /** What the next call may be, by the plan. */
  function May(p: Plans): set<Call> {
    match p.plan
    case Over => {}
    case Await(_) => {}
    case Configuring => {Asks(NewAccount)}
    case MakingAccount => {Asks(NewAccount)}
    case SavingAccount => {StartsKey}
    case Resting =>
      if p.ami.pending != [] then {}
      else {StartsKey} + (if p.cert.want || p.clean.done then {} else {Asks(DeleteChallenge)})
    case Ask(r) => if r == SetChallenge then {Asks(r), StartsKey} else {Asks(r)}
    case GiveUp(err) => AfterError(err)
    case Install => {Asks(DeleteChallenge), StartsKey}
  }

  /** What is outstanding fits the plan: only between attempts is a challenge being cleaned up, and
      before there is an account there is nothing to look after. */
  ghost predicate Fits(p: Plans) {
    match p.plan
    case Over => true
    case Resting => p.ami.pending == if p.clean.sent && !p.clean.done then [DeleteChallenge] else []
    case Configuring => Unused(p) && p.ami.pending == []
    case MakingAccount => Unused(p) && p.ami.pending == []
    case SavingAccount => Unused(p) && p.ami.pending == []
    case Await(NewAccount) => Unused(p) && p.ami.pending == [NewAccount]
    case Await(r) => Attempted(p) && p.ami.pending == [r] && r != DeleteChallenge
    case Ask(r) => Attempted(p) && p.ami.pending == [] && r != NewAccount && r != DeleteChallenge
    case _ => Attempted(p) && p.ami.pending == []
  }

  /** There is no account yet. */
  predicate Unregistered(plan: Plan) {
    plan == Configuring || plan == MakingAccount || plan == SavingAccount || plan == Await(NewAccount)
  }

  ghost predicate Unused(p: Plans) {
    !p.cert.active && p.cert.renewal == 0 && !p.clean.sent && !p.clean.done
  }

  ghost predicate Attempted(p: Plans) {
    p.cert.want && !(p.clean.sent && !p.clean.done)
  }

  /** What an event may show: nothing; the start of an attempt; a request; both.  What it leaves allows
      no more than that. */
  ghost predicate Shows(may: set<Call>, a: Outside, p: Plans) {
    && Fits(p)
    && (p.ami.keygens == a.keygens || (p.ami.keygens == a.keygens + 1 && StartsKey in may))
    && var may := if p.ami.keygens == a.keygens then may else AfterCall(StartsKey);
    if p.ami.pending == a.pending then May(p) <= may
    else a.pending == [] && |p.ami.pending| == 1 && Asks(p.ami.pending[0]) in may && May(p) == {}
  }

  lemma EndsWithShows(p: Plans, err: Err, env: Env, may: set<Call>, a: Outside)
    requires Attempted(p) && p.ami.pending == a.pending == [] && AfterError(err) <= may
    requires p.ami.keygens == a.keygens || (p.ami.keygens == a.keygens + 1 && StartsKey in may)
    requires p.ami.keygens == a.keygens + 1 ==> AfterError(err) <= AfterCall(StartsKey)
    ensures var t := EndsWith(p, err, env); Shows(may, a, if t.flow.Stop? then EndAll(t.p) else t.p)
  {
    hide Delay;
  }

  lemma AskingShows(p: Plans, r: Request, env: Env)
    requires Attempted(p) && p.ami.pending == [] && p.plan == Ask(r) && r != NewAccount && r != DeleteChallenge
    ensures var t := Asking(p, r, env); Shows(May(p), p.ami, if t.flow.Stop? then EndAll(t.p) else t.p)
  {
    hide EndsWith;
    if r == SetChallenge && env.prepareNonce.Some? {
      EndsWithShows(p, env.prepareNonce.value, env, May(p), p.ami);
    }
  }

  lemma BeginShows(p: Plans, env: Env)
    requires Attempted(p) && p.ami.pending == [] && StartsKey in May(p)
    ensures var t := Begin(p, env); Shows(May(p), p.ami, if t.flow.Stop? then EndAll(t.p) else t.p)
  {
    hide EndsWith, May;
    MayOf(p);
    if env.keygen.Some? {
      EndsWithShows(p, env.keygen.value, env, May(p), p.ami);
    } else if p.looks && env.order.OrderFailed? {
      EndsWithShows(p.(ami := p.ami.(keygens := p.ami.keygens + 1)), env.order.err, env, May(p), p.ami);
    }
  }

  lemma MayOf(p: Plans)
    ensures StartsKey in May(p) ==> forall err :: AfterError(err) <= May(p)
    ensures forall q: Plans :: q.plan.Await? ==> May(q) == {}
  {
  }

  lemma CleanShows(p: Plans, env: Env, may: set<Call>)
    requires Fits(p) && p.plan == Resting && !p.cert.want && May(p) <= may
    ensures var t := Clean(p, env); Shows(may, p.ami, if t.flow.Stop? then EndAll(t.p) else t.p)
  {
  }

  lemma InstalledShows(p: Plans, env: Env)
    requires Fits(p) && p.plan == Install
    ensures var t := AcmePlan.Installed(p, env); Shows(May(p), p.ami, if t.flow.Stop? then EndAll(t.p) else t.p)
  {
    hide EndsWith, GetRenewal;
    if env.certSaved.Some? {
      EndsWithShows(p, env.certSaved.value, env, May(p), p.ami);
    }
  }

  lemma ServingShows(p: Plans, env: Env)
    requires Fits(p) && p.plan != Over && !Unregistered(p.plan)
    ensures var t := Serving(p, env); Shows(May(p), p.ami, if t.flow.Stop? then EndAll(t.p) else t.p)
  {
    hide Clean, AcmePlan.Installed, Asking, EndsWith, Begin;
    if !p.cert.want {
      CleanShows(p, env, May(p));
    } else if !(p.clean.sent && !p.clean.done) && env.now >= p.until {
      match p.plan {
        case Ask(r) => if !(NeedsKey(r) && !p.key) { AskingShows(p, r, env); }
        case GiveUp(err) => EndsWithShows(p, err, env, May(p), p.ami);
        case Install => InstalledShows(p, env);
        case Await(_) =>
        case Resting => BeginShows(p, env);
      }
    }
  }

  lemma CertifyingShows(p: Plans, env: Env)
    requires Fits(p) && p.plan != Over && !Unregistered(p.plan)
    ensures var t := Certifying(p, env); Shows(May(p), p.ami, if t.flow.Stop? then EndAll(t.p) else t.p)
  {
    hide Serving;
    var expires := p.cert.active && env.now >= p.cert.expiry;
    var q := if expires then p.(cert := p.cert.(active := false, want := true)) else p;
    var due := !q.cert.want && env.now >= q.cert.renewal;
    var r := if due then q.(cert := q.cert.(want := true)).Timer(q.cert.expiry) else q;
    if !(expires && env.closesAtExpiry) {
      ServingShows(r, env);
      var t := Serving(r, env);
      ShowsMore(May(r), May(p), r.ami, p.ami, if t.flow.Stop? then EndAll(t.p) else t.p);
    }
  }

  lemma ShowsMore(may: set<Call>, more: set<Call>, a: Outside, b: Outside, p: Plans)
    requires Shows(may, a, p) && may <= more && a.pending == b.pending && a.keygens == b.keygens
    ensures Shows(more, b, p)
  {
    hide May, Fits;
  }

  /** With an account, and a certificate wanted because there is none. */
  lemma SavedShows(p: Plans, env: Env)
    requires p.plan == Resting && Unused(p) && p.ami.pending == [] && env.now >= p.until
    ensures var t := Certifying(p, env); Shows({StartsKey}, p.ami, if t.flow.Stop? then EndAll(t.p) else t.p)
  {
    hide Serving;
    var r := if p.cert.want then p else p.(cert := p.cert.(want := true)).Timer(p.cert.expiry);
    ServingShows(r, env);
    var t := Serving(r, env);
    ShowsMore(May(r), {StartsKey}, r.ami, p.ami, if t.flow.Stop? then EndAll(t.p) else t.p);
  }

  lemma GoingShows(p: Plans, env: Env)
    requires Fits(p) && p.plan != Over
    ensures var t := Going(p, env); Shows(May(p), p.ami, if t.flow.Stop? then EndAll(t.p) else t.p)
  {
    hide Certifying;
    if p.plan == SavingAccount && env.now >= p.until && env.accountSaved {
      var q := p.(plan := Resting, looks := false);
      SavedShows(q, env);
    } else if !Unregistered(p.plan) {
      CertifyingShows(p, env);
    }
  }

  /** One call of am_advance_state asks only for what may be asked for. */
  lemma AdvanceShows(p: Plans, env: Env)
    requires Fits(p)
    ensures Shows(May(p), p.ami, AcmePlan.Advanced(p, env))
  {
    hide Going;
    if p.plan != Over {
      GoingShows(p, env);
      var t := Going(p, env);
      if !t.flow.Stop? {
        EndingShowsNoMore(May(p), p.ami, t.p);
      }
      ClosingShows(May(p), p.ami, EndAll(t.p));
    } else {
      ClosingShows(May(p), p.ami, p);
    }
  }

  lemma EndingShowsNoMore(may: set<Call>, a: Outside, p: Plans)
    requires Shows(may, a, p)
    ensures Shows(may, a, EndAll(p))
  {
  }

  lemma ClosingShows(may: set<Call>, a: Outside, p: Plans)
    requires p.plan == Over && (p.ami == a || Shows(may, a, p))
    ensures Shows(may, a, Closing(p))
  {
  }

  /** An answer asks for nothing, and allows what it calls for. */
  lemma AnswerShows(p: Plans, i: nat, reply: Reply)
    requires Fits(p) && MayHappen(p, Answer(i, reply))
    ensures var q := Answered(p, i, reply);
      && q.ami.pending == p.ami.Answered(i).pending && q.ami.keygens == p.ami.keygens
      && Fits(q) && May(q) <= AfterReply(reply) && (p.plan != Over ==> q.ami.pending == [])
  {
    hide Delay;
    assert p.plan != Over ==> p.ami.Answered(i).pending == [];
    match reply {
      case PrepareReply(result) =>
      case _ =>
    }
  }

  /** Whatever else happens allows no more than before. */
  lemma OthersAllowNoMore(p: Plans, ev: Event)
    requires Fits(p) && MayHappen(p, ev) && !ev.AdvanceState? && !ev.Answer?
    ensures var q := Happens(p, ev);
      && q.ami.pending == p.ami.pending && q.ami.keygens == Remaining(p.ami, ev).keygens
      && Fits(q) && May(q) <= May(p)
  {
  }

  lemma ShowsAllowed(may: set<Call>, a: Outside, p: Plans)
    requires Shows(may, a, p)
    ensures Allows(may, Calls(a, p.ami)) && May(p) <= AfterCalls(may, Calls(a, p.ami))
  {
    hide May, Fits;
    var calls := Calls(a, p.ami);
    var started := p.ami.keygens > a.keygens;
    if p.ami.pending == a.pending {
      assert calls == if started then [StartsKey] else [];
    } else {
      assert p.ami.pending[|a.pending|..] == p.ami.pending;
      var asks := [Asks(p.ami.pending[0])];
      assert calls == if started then [StartsKey] + asks else asks;
      assert asks[1..] == [];
      if started {
        assert calls[1..] == asks;
        assert Allows(AfterCall(StartsKey), asks);
      }
    }
  }

  /* ---------- runs ---------- */

  /** A state of the manager whose flags tell a plan that fits. */
  ghost predicate Sane(s: State) {
    Inv(s) && Started(s) && Fits(Told(s))
  }

  lemma TellsOutside(s: State)
    ensures Told(s).ami == s.ami
  {
  }

  /** Every event keeps to the protocol. */
  lemma StepSpeaks(s: State, ev: Event, next: set<Call>)
    requires Sane(s) && Enabled(s, ev) && May(Told(s)) <= next
    ensures var calls := CallsOf(s, ev);
      && Allows(if ev.Answer? then AfterReply(ev.reply) else next, calls)
      && May(Told(Step(s, ev))) <= AfterEvent(next, ev, calls) && Sane(Step(s, ev))
  {
    hide Inv, Started, Told, Fits, May, AfterReply, Step, Happens, Enabled, MayHappen;
    StepIsSame(s, ev);
    StepKeepsInv(s, ev);
    SameMayHappen(s, ev);
    TellsOutside(s);
    TellsOutside(Step(s, ev));
    PlanSpeaks(Told(s), ev, next);
  }

  lemma PlanSpeaks(p: Plans, ev: Event, next: set<Call>)
    requires Fits(p) && MayHappen(p, ev) && May(p) <= next
    ensures var q := Happens(p, ev);
      var calls := Calls(Remaining(p.ami, ev), q.ami);
      && Allows(if ev.Answer? then AfterReply(ev.reply) else next, calls)
      && May(q) <= AfterEvent(next, ev, calls) && Fits(q)
  {
    hide AcmePlan.Advanced, Answered, Fits, May, AfterReply;
    match ev {
      case AdvanceState(env) =>
        AdvanceShows(p, env);
        ShowsFits(May(p), p.ami, Happens(p, ev));
        ShowsMore(May(p), next, p.ami, p.ami, Happens(p, ev));
        ShowsAllowed(next, p.ami, Happens(p, ev));
      case Answer(i, reply) =>
        AnswerShows(p, i, reply);
        assert Calls(Remaining(p.ami, ev), Happens(p, ev).ami) == [];
      case _ =>
        OthersAllowNoMore(p, ev);
        assert Calls(Remaining(p.ami, ev), Happens(p, ev).ami) == [];
    }
  }

  lemma ShowsFits(may: set<Call>, a: Outside, p: Plans)
    requires Shows(may, a, p)
    ensures Fits(p)
  {
  }

  lemma {:induction false} RunSpeaks(s: State, evs: seq<Event>, next: set<Call>)
    requires Sane(s) && CanRun(s, evs) && May(Told(s)) <= next
    ensures Speaks(next, s, evs)
    decreases evs
  {
    hide Sane, May, Told, Step, Enabled, CallsOf, AfterEvent, AfterReply, Allows;
    if evs != [] {
      StepSpeaks(s, evs[0], next);
      RunSpeaks(Step(s, evs[0]), evs[1..], AfterEvent(next, evs[0], CallsOf(s, evs[0])));
    }
  }

  /** In every run, every key generation and every request is one that the protocol allows after the
      calls and answers before it. */
  lemma ProtocolIsKept(disk: Disk, now: nat, evs: seq<Event>)
    requires CanRun(Init(disk, now), evs)
    ensures Speaks(AtFirst(disk), Init(disk, now), evs)
  {
    hide Init, Sane, Told, May;
    InitIsSane(disk, now);
    RunSpeaks(Init(disk, now), evs, AtFirst(disk));
  }

  lemma InitIsSane(disk: Disk, now: nat)
    ensures Sane(Init(disk, now)) && May(Told(Init(disk, now))) <= AtFirst(disk)
  {
    hide Inv, Init, Told, GetRenewal;
    InitIsSound(disk, now);
    InitIsSame(disk, now);
  }

  /* ---------- what follows an answer ---------- */

  /** All calls of a run, in order. */
  ghost function AllCalls(s: State, evs: seq<Event>): (calls: seq<Call>)
    requires CanRun(s, evs)
    decreases evs
  {
    if evs == [] then [] else CallsOf(s, evs[0]) + AllCalls(Step(s, evs[0]), evs[1..])
  }

  /** The first call, if there is one. */
  ghost predicate FirstIsIn(calls: seq<Call>, next: set<Call>) {
    calls != [] ==> calls[0] in next
  }

  /** Until another attempt starts, only these requests are made. */
  ghost predicate OnlyUntilNext(calls: seq<Call>, these: set<Request>)
    decreases calls
  {
    calls == [] || calls[0] == StartsKey || (calls[0].r in these && OnlyUntilNext(calls[1..], these))
  }

  /** Requests whose answers lead to each other, or to another attempt. */
  ghost predicate Closed(these: set<Request>) {
    forall r, reply: Reply :: r in these && reply.Answers(r) ==> Within(AfterReply(reply), these)
  }

  ghost predicate Within(next: set<Call>, these: set<Request>) {
    forall c :: c in next && c.Asks? ==> c.r in these
  }

  lemma {:induction false} FirstCall(s: State, evs: seq<Event>, next: set<Call>)
    requires Sane(s) && CanRun(s, evs) && s.ami.pending == [] && May(Told(s)) <= next
    ensures FirstIsIn(AllCalls(s, evs), next)
    decreases evs
  {
    hide Sane, Told, May, Step, CallsOf, AfterReply;
    if evs != [] {
      StepSpeaks(s, evs[0], next);
      if CallsOf(s, evs[0]) == [] {
        NoCallNoRequest(s, evs[0]);
        FirstCall(Step(s, evs[0]), evs[1..], next);
      }
    }
  }

  lemma NoCallNoRequest(s: State, ev: Event)
    requires Enabled(s, ev) && s.ami.pending == [] && CallsOf(s, ev) == []
    ensures Step(s, ev).ami.pending == []
  {
    hide Step, Enabled;
    var a, b := Remaining(s.ami, ev), Step(s, ev).ami;
    assert a.pending == [] && b.pending[0..] == b.pending;
    assert |Calls(a, b)| >= |b.pending|;
  }

  lemma {:induction false} StaysWithin(s: State, evs: seq<Event>, these: set<Request>)
    requires Sane(s) && CanRun(s, evs) && Closed(these)
    requires Within(May(Told(s)), these) && forall r :: r in s.ami.pending ==> r in these
    ensures OnlyUntilNext(AllCalls(s, evs), these)
    decreases evs
  {
    hide Sane, Told, May, Step, Enabled, CallsOf, Closed, Within;
    if evs != [] {
      StepSpeaks(s, evs[0], May(Told(s)));
      StepWithin(s, evs[0], these);
      if StartsKey !in CallsOf(s, evs[0]) {
        StaysWithin(Step(s, evs[0]), evs[1..], these);
      }
      LaterUntilNext(CallsOf(s, evs[0]), AllCalls(Step(s, evs[0]), evs[1..]), these);
    }
  }

  lemma {:induction false} LaterUntilNext(now: seq<Call>, later: seq<Call>, these: set<Request>)
    requires OnlyUntilNext(now, these) && (StartsKey !in now ==> OnlyUntilNext(later, these))
    ensures OnlyUntilNext(now + later, these)
    decreases now
  {
    if now == [] {
      assert now + later == later;
    } else if now[0] != StartsKey {
      assert (now + later)[1..] == now[1..] + later;
      LaterUntilNext(now[1..], later, these);
    }
  }

  /** One event: what it calls for, and what may be called for after it. */
  lemma StepWithin(s: State, ev: Event, these: set<Request>)
    requires Sane(s) && Enabled(s, ev) && Closed(these)
    requires Within(May(Told(s)), these) && forall r :: r in s.ami.pending ==> r in these
    ensures OnlyUntilNext(CallsOf(s, ev), these)
    ensures StartsKey !in CallsOf(s, ev) ==>
              Within(May(Told(Step(s, ev))), these) && forall r :: r in Step(s, ev).ami.pending ==> r in these
  {
    hide Inv, Started, Told, Fits, May, Step, Happens, Enabled, MayHappen;
    StepIsSame(s, ev);
    SameMayHappen(s, ev);
    TellsOutside(s);
    TellsOutside(Step(s, ev));
    PlanWithin(Told(s), ev, these);
  }

  lemma PlanWithin(p: Plans, ev: Event, these: set<Request>)
    requires Fits(p) && MayHappen(p, ev) && Closed(these)
    requires Within(May(p), these) && forall r :: r in p.ami.pending ==> r in these
    ensures var q := Happens(p, ev);
      var calls := Calls(Remaining(p.ami, ev), q.ami);
      && OnlyUntilNext(calls, these)
      && (StartsKey !in calls ==> Within(May(q), these) && forall r :: r in q.ami.pending ==> r in these)
  {
    hide AcmePlan.Advanced, Answered, Fits, May, AfterReply;
    match ev {
      case AdvanceState(env) =>
        AdvanceShows(p, env);
        ShownWithin(May(p), p.ami, Happens(p, ev), these);
      case Answer(i, reply) =>
        AnswerShows(p, i, reply);
        assert Calls(Remaining(p.ami, ev), Happens(p, ev).ami) == [];
        assert Within(AfterReply(reply), these);
      case _ =>
        OthersAllowNoMore(p, ev);
        assert Calls(Remaining(p.ami, ev), Happens(p, ev).ami) == [];
    }
  }

  lemma ShownWithin(may: set<Call>, a: Outside, p: Plans, these: set<Request>)
    requires Shows(may, a, p) && Within(may, these) && forall r :: r in a.pending ==> r in these
    ensures OnlyUntilNext(Calls(a, p.ami), these)
    ensures StartsKey !in Calls(a, p.ami) ==>
              Within(May(p), these) && forall r :: r in p.ami.pending ==> r in these
  {
    hide Fits, May;
    var calls := Calls(a, p.ami);
    if p.ami.keygens > a.keygens {
      assert calls[0] == StartsKey;
    } else if p.ami.pending != a.pending {
      assert p.ami.pending[|a.pending|..] == p.ami.pending;
      assert calls == [Asks(p.ami.pending[0])] && calls[1..] == [];
    } else {
      assert calls == [];
    }
  }

  /** The requests that end an attempt, and those that come after an answered challenge. */
  const ENDING := {Finalize, FinalizeFromProcessing, FinalizeFromValid, DeleteChallenge}
  const ANSWERED := ENDING + {Challenge, ChallengeFinish}

  lemma EndingIsClosed()
    ensures Closed(ENDING) && Closed(ANSWERED)
  {
  }

  /** In every run: the first thing the manager asks for after it was told about the order on file is
      what the order's status calls for.  And unless a new order or an authorization is called for, it
      asks for neither, nor for a challenge, until another attempt starts. */
  lemma OrderIsPickedUp(disk: Disk, now: nat, before: seq<Event>, i: nat, ours: bool, status: AcmeStatus,
                        after: seq<Event>)
    requires CanRun(Init(disk, now), before)
    requires var s := Run(Init(disk, now), before);
      && Enabled(s, Answer(i, GetOrderReply(ours, status)))
      && CanRun(Step(s, Answer(i, GetOrderReply(ours, status))), after)
    ensures var s := Run(Init(disk, now), before);
      var calls := AllCalls(Step(s, Answer(i, GetOrderReply(ours, status))), after);
      && FirstIsIn(calls, {Asks(ByOrder(ours, status))})
      && (ByOrder(ours, status) != NewOrder && ByOrder(ours, status) != GetAuthz ==>
            OnlyUntilNext(calls, ENDING))
  {
    hide Init, Run, Step, Sane, Told, May, Closed;
    var s := Run(Init(disk, now), before);
    var reply := GetOrderReply(ours, status);
    AnsweredSpeaks(disk, now, before, i, reply);
    var t := Step(s, Answer(i, reply));
    FirstCall(t, after, AfterReply(reply));
    if ByOrder(ours, status) != NewOrder && ByOrder(ours, status) != GetAuthz {
      EndingIsClosed();
      StaysWithin(t, after, ENDING);
    }
  }

  /** So it goes by the status of the challenge: one that is pending is set and answered (or the attempt
      is given up), one that is being processed is waited for, one that is valid is left alone, and any
      other ends the attempt. */
  lemma ChallengeIsPickedUp(disk: Disk, now: nat, before: seq<Event>, i: nat, status: AcmeStatus, after: seq<Event>)
    requires CanRun(Init(disk, now), before)
    requires var s := Run(Init(disk, now), before);
      Enabled(s, Answer(i, AuthzReply(None, status))) && CanRun(Step(s, Answer(i, AuthzReply(None, status))), after)
    ensures var s := Run(Init(disk, now), before);
      var calls := AllCalls(Step(s, Answer(i, AuthzReply(None, status))), after);
      && FirstIsIn(calls, AfterAuthz(status))
      && (status == Processing ==> OnlyUntilNext(calls, ANSWERED))
      && (status == Validated ==> OnlyUntilNext(calls, ENDING))
  {
    hide Init, Run, Step, Sane, Told, May, Closed;
    var s := Run(Init(disk, now), before);
    var reply := AuthzReply(None, status);
    AnsweredSpeaks(disk, now, before, i, reply);
    var t := Step(s, Answer(i, reply));
    FirstCall(t, after, AfterReply(reply));
    EndingIsClosed();
    if status == Processing {
      StaysWithin(t, after, ANSWERED);
    } else if status == Validated {
      StaysWithin(t, after, ENDING);
    }
  }

  /** What a reachable state may call for once a request was answered. */
  lemma AnsweredSpeaks(disk: Disk, now: nat, before: seq<Event>, i: nat, reply: Reply)
    requires CanRun(Init(disk, now), before) && Enabled(Run(Init(disk, now), before), Answer(i, reply))
    ensures var t := Step(Run(Init(disk, now), before), Answer(i, reply));
      Sane(t) && t.ami.pending == [] && May(Told(t)) <= AfterReply(reply)
  {
    hide Init, Run, Step, Sane, Told, May, AfterReply, Enabled, CallsOf;
    var s := Run(Init(disk, now), before);
    InitIsSane(disk, now);
    RunIsSane(Init(disk, now), before);
    StepSpeaks(s, Answer(i, reply), May(Told(s)));
    AnsweredCallsNothing(s, i, reply);
  }

  lemma AnsweredCallsNothing(s: State, i: nat, reply: Reply)
    requires Sane(s) && Enabled(s, Answer(i, reply))
    ensures var t := Step(s, Answer(i, reply));
      t.ami.pending == [] && May(Told(t)) <= AfterReply(reply)
  {
    hide Inv, Started, Told, Fits, May, AfterReply, Step, Enabled, MayHappen, Answered;
    StepIsSame(s, Answer(i, reply));
    SameMayHappen(s, Answer(i, reply));
    AnswerShows(Told(s), i, reply);
    TellsOutside(s);
    TellsOutside(Step(s, Answer(i, reply)));
    OnlyRequest(s, i, reply);
  }

  lemma {:induction false} RunIsSane(s: State, evs: seq<Event>)
    requires Sane(s) && CanRun(s, evs)
    ensures Sane(Run(s, evs))
    decreases evs
  {
    hide Sane, Told, May, Step, Enabled, CallsOf, AfterEvent, AfterReply, Allows;
    if evs != [] {
      StepSpeaks(s, evs[0], May(Told(s)));
      RunIsSane(Step(s, evs[0]), evs[1..]);
    }
  }
}
