/** The certificate manager told simply: instead of the flags of libcitm/acme_manager.c, a plan that
    says what it will do next.  The manager with the flags is proved to do the same. */
module AcmePlan {
  import opened Bytes
  import opened AcmeState
  import opened AcmeInvariants

  /** What comes next: wait for a configuration; make an account, or save the one that was made; start
      an attempt when a certificate is wanted; ask for something, wait for the answer, give the attempt
      up, or install the certificate.  After a fatal error it is over. */
  datatype Plan =
    | Configuring | MakingAccount | SavingAccount
    | Resting
    | Ask(r: Request) | Await(r: Request) | GiveUp(err: Err) | Install
    | Over

  /** `key` says whether a key is there, `looks` whether the next attempt looks at the order on file,
      `failures` how many tries in a row have failed. */
  datatype Plans = Plans(
    plan: Plan, key: bool, looks: bool, failures: nat, until: int,
    cert: Cert, clean: Cleanup, life: Life, ami: Outside)
  {
    function Send(r: Request): Plans {
      this.(ami := ami.Send(r))
    }

    function Backoff(now: int, delay: int): Plans {
      this.(until := now + delay, ami := ami.(timers := ami.timers.(backoff := now + delay)))
    }

    function Timer(deadline: int): Plans {
      this.(ami := ami.(timers := ami.timers.(cert := deadline)))
    }
  }

  /** A delay from a table: the first one after the first failure, the last one from then on. */
  function Delay(failures: nat, table: seq<int>): int
    requires failures > 0 && table != []
  {
    table[Min(failures, |table|) - 1]
  }

  /** It is over: nothing is planned any more. */
  function EndAll(p: Plans): Plans {
    p.(plan := Over, key := false, looks := false, until := 0)
  }

  /* ---------- answers ---------- */

  /** What an order on file calls for: to be picked up where it was left, or replaced. */
  function ByOrder(ours: bool, status: AcmeStatus): Request {
    if !ours then NewOrder
    else match status
      case Pending => GetAuthz
      case Ready => Finalize
      case Processing => FinalizeFromProcessing
      case Validated => FinalizeFromValid
      case _ => NewOrder
  }

  /** What a challenge calls for. */
  function ByChallenge(status: AcmeStatus): Plan {
    match status
    case Pending => Ask(SetChallenge)
    case Processing => Ask(ChallengeFinish)
    case Validated => Ask(Finalize)
    case _ => GiveUp(Response)
  }

  function Unless(err: Option<Err>, plan: Plan): Plan {
    if err.Some? then GiveUp(err.value) else plan
  }

  /** What an answer makes of the plan of an attempt. */
  function ByReply(reply: Reply): Plan {
    match reply
    case GetOrderReply(ours, status) => Ask(ByOrder(ours, status))
    case NewOrderReply(err) => Unless(err, Ask(GetAuthz))
    case AuthzReply(err, status) => Unless(err, ByChallenge(status))
    case PrepareReply(PrepareOk) => Ask(Challenge)
    case PrepareReply(PrepareTimeout) => Ask(SetChallenge)
    case PrepareReply(PrepareError(err)) => GiveUp(err)
    case ChallengeReply(err) => Unless(err, Ask(Finalize))
    case FinalizeReply(err) => Unless(err, Install)
    case _ => Resting
  }

  /** An answer comes in. */
  function Answered(p: Plans, i: nat, reply: Reply): Plans
    requires i < |p.ami.pending|
  {
    var p := p.(ami := p.ami.Answered(i));
    match reply
    case AccountReply(err, now) =>
      if err == Some(Network) then
        var p := p.(failures := p.failures + 1).Backoff(now, Delay(p.failures + 1, ACCOUNT_DELAYS));
        if p.plan.Over? then EndAll(p) else p.(plan := MakingAccount)
      else if err.Some? || p.plan.Over? then EndAll(p)
      else p.(plan := SavingAccount, failures := 0)
    case UnprepareReply(ok, now) =>
      var p := if ok then p.(ami := p.ami.(dirty := false)) else p;
      if p.plan.Over? then p
      else if ok then p.(clean := p.clean.(done := true))
      else
        p.(clean := Cleanup(false, p.clean.done, now + 600),
           ami := p.ami.(timers := p.ami.timers.(unprepare := now + 600)))
    case _ => if p.plan.Over? then p else p.(plan := ByReply(reply))
  }

  /* ---------- a call of am_advance_state ---------- */

  datatype Turn = Turn(p: Plans, flow: Flow)

  /** The attempt is over: an error that may pass is tried again after a delay. */
  function EndsWith(p: Plans, err: Err, env: Env): Turn {
    var p := p.(plan := Resting, key := false, looks := false);
    if err == Other then Turn(p, Stop(Other))
    else
      Turn(p.(failures := p.failures + 1, looks := true).Backoff(env.now, Delay(p.failures + 1, CERT_DELAYS)), Wait)
  }

  /** Ask for something: the challenge needs a nonce, and is to be cleaned up from then on. */
  function Asking(p: Plans, r: Request, env: Env): Turn {
    if r == SetChallenge && env.prepareNonce.Some? then EndsWith(p, env.prepareNonce.value, env)
    else
      var p := p.(plan := Await(r)).Send(r);
      Turn(if r == SetChallenge then p.(clean := Cleanup(false, false, 0)) else p, Wait)
  }

  /** A new attempt generates a key, and looks at the order on file if it should and there is one. */
  function Begin(p: Plans, env: Env): Turn {
    if env.keygen.Some? then EndsWith(p, env.keygen.value, env)
    else
      var p := p.(ami := p.ami.(keygens := p.ami.keygens + 1));
      if !p.looks then Asking(p, NewOrder, env)
      else match env.order
        case OrderFailed(err) => EndsWith(p, err, env)
        case NoOrder => Asking(p.(looks := false), NewOrder, env)
        case OrderLoaded => Asking(p.(looks := false), GetOrder, env)
  }

  /** The certificate is there: it is served and renewed in time, and the challenge cleaned up. */
  function Installed(p: Plans, env: Env): Turn {
    if env.certSaved.Some? then EndsWith(p, env.certSaved.value, env)
    else
      var p := p.(plan := Resting, key := false, failures := 0, cert := p.cert.(want := false));
      if !env.certLoads then Turn(p, Stop(Other))
      else
        var p := p.(cert := p.cert.(active := true));
        if env.closesAtUpdate || env.dates.None? then Turn(p, Stop(Other))
        else
          var (issue, expiry) := env.dates.value;
          var p := p.(cert := p.cert.(expiry := expiry, renewal := GetRenewal(issue, expiry)));
          if env.now >= p.cert.renewal then Turn(p, Stop(Other)) else Clean(p.Timer(p.cert.renewal), env)
  }

  function Clean(p: Plans, env: Env): Turn {
    if p.clean.done || p.clean.sent || env.now < p.clean.after then Turn(p, Wait)
    else
      var p := p.(clean := p.clean.(sent := true));
      if env.unprepareNonceOk then Turn(p.Send(DeleteChallenge), Wait) else Turn(p, Stop(Other))
  }

  /** Finalizing needs the key. */
  predicate NeedsKey(r: Request) {
    r == Finalize || r == FinalizeFromProcessing || r == FinalizeFromValid
  }

  function Attempting(p: Plans, env: Env): Turn {
    match p.plan
    case Ask(r) => if NeedsKey(r) && !p.key then Turn(p, Wait) else Asking(p, r, env)
    case GiveUp(err) => EndsWith(p, err, env)
    case Install => Installed(p, env)
    case Await(_) => Turn(p, Wait)
    case _ => Begin(p, env)
  }

  /** With an account: a certificate that has expired is withdrawn, one that is due is renewed, and
      while none is wanted the challenge is cleaned up. */
  function Certifying(p: Plans, env: Env): Turn {
    var expires := p.cert.active && env.now >= p.cert.expiry;
    var p := if expires then p.(cert := p.cert.(active := false, want := true)) else p;
    if expires && env.closesAtExpiry then Turn(p, Stop(Other))
    else
      var due := !p.cert.want && env.now >= p.cert.renewal;
      var p := if due then p.(cert := p.cert.(want := true)).Timer(p.cert.expiry) else p;
      Serving(p, env)
  }

  function Serving(p: Plans, env: Env): Turn {
    if !p.cert.want then Clean(p, env)
    else if (p.clean.sent && !p.clean.done) || env.now < p.until then Turn(p, Wait)
    else Attempting(p, env)
  }

  function Going(p: Plans, env: Env): Turn {
    match p.plan
    case Configuring =>
      if env.now < p.until then Turn(p, Wait)
      else (match env.installation
        case InstallationFailed => Turn(p, Stop(Other))
        case NotInstalled => Turn(p.Backoff(env.now, 5), Wait)
        case Installed => Registering(p.(plan := MakingAccount, cert := p.cert.(want := true)), env))
    case MakingAccount => Registering(p, env)
    case Await(NewAccount) => Turn(p, Wait)
    case SavingAccount =>
      if env.now < p.until then Turn(p, Wait)
      else if !env.accountSaved then Turn(p, Stop(Other))
      else Certifying(p.(plan := Resting, looks := false), env)
    case _ => Certifying(p, env)
  }

  function Registering(p: Plans, env: Env): Turn {
    if env.now < p.until then Turn(p, Wait)
    else if !env.jwkOk then Turn(p, Stop(Other))
    else Turn(p.(plan := Await(NewAccount)).Send(NewAccount), Wait)
  }

  /** Once it is over, everything is closed, and then freed. */
  function Closing(p: Plans): Plans {
    p.(life := if p.life.closeDone then p.life.(freed := true) else p.life.(closeSent := true))
  }

  function Advanced(p: Plans, env: Env): Plans {
    if p.plan.Over? then Closing(p)
    else
      var t := Going(p, env);
      if t.flow.Stop? || env.closesAtStatus then Closing(EndAll(t.p)) else t.p
  }

  /* ---------- events ---------- */

  function Happens(p: Plans, ev: Event): Plans
    requires ev.Answer? ==> ev.i < |p.ami.pending|
    requires ev.KeygenEnds? ==> p.ami.keygens > 0
  {
    match ev
    case AdvanceState(env) => Advanced(p, env)
    case Answer(i, reply) => Answered(p, i, reply)
    case KeygenEnds(ok) =>
      var p := p.(ami := p.ami.(keygens := p.ami.keygens - 1));
      if p.plan.Over? then p else if ok then p.(key := true) else EndAll(p)
    case CheckNow => if p.plan == Configuring then p.(until := 0) else p
    case Close => EndAll(p)
    case CloseDone => p.(life := p.life.(closeDone := true))
  }

  /* ---------- the flags tell the plan ---------- */

  /** The plan that the flags of an attempt tell, when nothing is waited for. */
  ghost function PlanOf(nc: NewCert, reloaded: bool): Plan {
    if !reloaded then Ask(ByOrder(true, nc.orderStatus))
    else if !nc.authz.done then (if nc.authz.resp then ByChallenge(nc.challengeStatus) else Ask(GetAuthz))
    else if !nc.prepare.done then Ask(SetChallenge)
    else if !nc.challenge.done then Ask(Challenge)
    else if !nc.finalize.done then Ask(Finalize)
    else Install
  }

  ghost function AttemptPlan(s: State): Plan {
    if s.nc.e.Some? then GiveUp(s.nc.e.value)
    else if !s.nc.keygen.sent then Resting
    else if s.ami.pending != [] then Await(s.ami.pending[0])
    else PlanOf(s.nc, s.retry.reloaded)
  }

  ghost function ThePlan(s: State): Plan {
    if s.failed then Over
    else if !s.acct.configured then Configuring
    else if s.acct.accounted then AttemptPlan(s)
    else if s.acct.done then SavingAccount
    else if s.acct.sent then Await(NewAccount)
    else MakingAccount
  }

  ghost function Told(s: State): Plans {
    var plan := ThePlan(s);
    Plans(plan, !s.failed && s.nc.keygen.done, plan == Resting && !s.retry.reloaded, s.retry.failures,
          if s.failed then 0 else s.retry.until, s.cert, s.clean, s.life, s.ami)
  }

  /** An attempt that is under way has got past its start. */
  ghost predicate Started(s: State) {
    !s.failed && s.nc.e.None? && s.nc.keygen.sent ==>
      && (!s.retry.reloaded ==> s.nc.check.sent)
      && (s.retry.reloaded ==> s.nc.order.sent || s.nc.order.done)
  }

  /* ---------- one attempt ---------- */

  lemma Delays(failures: nat)
    requires failures > 0
    ensures GetBackoff(failures, CERT_DELAYS) == Delay(failures, CERT_DELAYS)
    ensures GetBackoff(failures, ACCOUNT_DELAYS) == Delay(failures, ACCOUNT_DELAYS)
  {
  }

  /** What advance_new_cert leaves, as a turn of the simple form. */
  ghost predicate Same(o: Outcome, t: Turn, env: Env) {
    match o.flow
    case Stop(err) => o.s.nc == FRESH && EndsWith(Told(o.s), err, env) == t && Trying(o.s)
    case Wait => Turn(Told(o.s), Wait) == t && Started(o.s) && !o.s.failed
    case Go => false
  }

  lemma GivesUp(s: State, env: Env)
    requires Trying(s) && s.nc.e.Some?
    ensures Same(AdvanceNewCert(s, env), Attempting(Told(s), env), env)
  {
  }

  lemma Waits(s: State, env: Env)
    requires Trying(s) && Started(s) && s.nc.e.None? && s.nc.keygen.sent && s.ami.pending != []
    ensures AdvanceNewCert(s, env) == Outcome(s, Wait)
  {
  }

  /** An attempt under way with nothing outstanding. */
  ghost predicate Free(s: State) {
    Trying(s) && Started(s) && s.nc.e.None? && s.nc.keygen.sent && s.ami.pending == []
  }

  lemma PicksUpOrder(s: State, env: Env)
    requires Free(s) && !s.retry.reloaded
    ensures Same(AdvanceNewCert(s, env), Attempting(Told(s), env), env)
  {
    var o := Reload(s, env);
    assert StartKeygen(s, env) == Outcome(s, Go);
    assert o == ResumeOrder(s);
    if s.nc.orderStatus == Pending {
      assert OrderToCert(o.s, env) == Authorize(o.s);
    } else if s.nc.orderStatus == Ready {
      assert OrderToCert(o.s, env) == FinalizeOrder(o.s);
    } else if s.nc.orderStatus == Processing || s.nc.orderStatus == Validated {
      if o.flow == Go {
        assert OrderToCert(o.s, env) == FinalizeOrder(o.s) == Outcome(o.s, Wait);
      }
    } else {
      assert OrderToCert(o.s, env) == CreateOrder(o.s);
    }
  }

  lemma PicksUpAuthz(s: State, env: Env)
    requires Free(s) && s.retry.reloaded && !s.nc.authz.done
    ensures Same(AdvanceNewCert(s, env), Attempting(Told(s), env), env)
  {
    hide Same, Free, Attempting, Told;
    UpToAuthz(s, env);
    if !s.nc.authz.resp {
      AsksAuthz(s, env);
    } else if s.nc.challengeStatus == Pending {
      PendingChallenge(s, env);
    } else if s.nc.challengeStatus == Processing {
      ProcessingChallenge(s, env);
    } else if s.nc.challengeStatus == Validated {
      ValidChallenge(s, env);
    } else {
      BadChallenge(s, env);
    }
  }

  lemma UpToAuthz(s: State, env: Env)
    requires Free(s) && s.retry.reloaded && !s.nc.authz.done
    ensures StartKeygen(s, env) == Reload(s, env) == CreateOrder(s) == Outcome(s, Go)
  {
  }

  lemma AsksAuthz(s: State, env: Env)
    requires Free(s) && s.retry.reloaded && !s.nc.authz.done && !s.nc.authz.resp
    requires StartKeygen(s, env) == Reload(s, env) == CreateOrder(s) == Outcome(s, Go)
    ensures Same(AdvanceNewCert(s, env), Attempting(Told(s), env), env)
  {
    assert OrderToCert(s, env) == Authorize(s);
  }

  lemma PendingChallenge(s: State, env: Env)
    requires Free(s) && s.retry.reloaded && !s.nc.authz.done && s.nc.authz.resp && s.nc.challengeStatus == Pending
    requires StartKeygen(s, env) == Reload(s, env) == CreateOrder(s) == Outcome(s, Go)
    ensures Same(AdvanceNewCert(s, env), Attempting(Told(s), env), env)
  {
    assert OrderToCert(s, env) == PrepareDns(Authorize(s).s, env);
  }

  lemma ProcessingChallenge(s: State, env: Env)
    requires Free(s) && s.retry.reloaded && !s.nc.authz.done && s.nc.authz.resp && s.nc.challengeStatus == Processing
    requires StartKeygen(s, env) == Reload(s, env) == CreateOrder(s) == Outcome(s, Go)
    ensures Same(AdvanceNewCert(s, env), Attempting(Told(s), env), env)
  {
    var o := Authorize(s);
    assert OrderToCert(s, env) == Respond(o.s) == Outcome(o.s, Wait);
  }

  lemma ValidChallenge(s: State, env: Env)
    requires Free(s) && s.retry.reloaded && !s.nc.authz.done && s.nc.authz.resp && s.nc.challengeStatus == Validated
    requires StartKeygen(s, env) == Reload(s, env) == CreateOrder(s) == Outcome(s, Go)
    ensures Same(AdvanceNewCert(s, env), Attempting(Told(s), env), env)
  {
    assert OrderToCert(s, env) == FinalizeOrder(Authorize(s).s);
  }

  lemma BadChallenge(s: State, env: Env)
    requires Free(s) && s.retry.reloaded && !s.nc.authz.done && s.nc.authz.resp
    requires s.nc.challengeStatus !in {Pending, Processing, Validated}
    requires StartKeygen(s, env) == Reload(s, env) == CreateOrder(s) == Outcome(s, Go)
    ensures Same(AdvanceNewCert(s, env), Attempting(Told(s), env), env)
  {
    assert OrderToCert(s, env) == Authorize(s);
  }

  lemma Continues(s: State, env: Env)
    requires Free(s) && s.retry.reloaded && s.nc.authz.done
    ensures !s.nc.finalize.done ==> Same(AdvanceNewCert(s, env), Attempting(Told(s), env), env)
    ensures s.nc.finalize.done ==>
              AdvanceNewCert(s, env) == Outcome(s.(nc := FRESH), SaveCert(s, env).flow) && Told(s).plan == Install
  {
    assert StartKeygen(s, env) == Reload(s, env) == CreateOrder(s) == Authorize(s) == Outcome(s, Go);
    if !s.nc.prepare.done {
      assert OrderToCert(s, env) == PrepareDns(s, env);
    } else if !s.nc.challenge.done {
      assert OrderToCert(s, env) == Respond(s);
    } else if !s.nc.finalize.done {
      assert OrderToCert(s, env) == FinalizeOrder(s);
    } else {
      assert OrderToCert(s, env) == SaveCert(s, env);
    }
  }

  lemma Begins(s: State, env: Env)
    requires Trying(s) && s.nc.e.None? && !s.nc.keygen.sent
    ensures Same(AdvanceNewCert(s, env), Begin(Told(s), env), env)
  {
    var o := StartKeygen(s, env);
    if o.flow == Go {
      if s.retry.reloaded {
        assert Reload(o.s, env) == Outcome(o.s, Go);
        assert OrderToCert(o.s, env) == CreateOrder(o.s);
      } else {
        var c := CheckOrder(o.s, env);
        if env.order == NoOrder {
          assert Reload(o.s, env) == ResumeOrder(c.s);
          assert OrderToCert(ResumeOrder(c.s).s, env) == CreateOrder(ResumeOrder(c.s).s);
        } else if env.order == OrderLoaded {
          assert Reload(o.s, env) == ResumeOrder(c.s) == Outcome(c.s, Wait);
        } else {
          assert Reload(o.s, env) == c;
        }
      }
    }
  }

  /* ---------- the manager ---------- */

  /** What a piece of am_advance_good leaves, as a turn of the simple form. */
  ghost predicate SameTurn(o: Outcome, t: Turn) {
    match o.flow
    case Go => false
    case Wait => Turn(Told(o.s), Wait) == t && !o.s.failed && Started(o.s)
    case Stop(_) => t.flow.Stop? && Told(o.s.(failed := true)) == EndAll(t.p)
  }

  /** An attempt, whatever its plan is. */
  lemma AttemptIsSame(s: State, env: Env)
    requires Trying(s) && Started(s) && Told(s).plan != Install
    ensures Same(AdvanceNewCert(s, env), Attempting(Told(s), env), env)
  {
    hide AdvanceNewCert, Same, Attempting, Trying, PlanOf;
    NotConfiguring(s, env);
    if s.nc.e.Some? {
      GivesUp(s, env);
    } else if !s.nc.keygen.sent {
      Begins(s, env);
    } else if s.ami.pending != [] {
      Waits(s, env);
      WaitingIsSame(s, env);
    } else if !s.retry.reloaded {
      PicksUpOrder(s, env);
    } else if !s.nc.authz.done {
      PicksUpAuthz(s, env);
    } else {
      FinalizedIsInstall(s);
      Continues(s, env);
    }
  }

  lemma NotConfiguring(s: State, env: Env)
    requires Trying(s)
    ensures s.nc.e.None? && !s.nc.keygen.sent ==> Attempting(Told(s), env) == Begin(Told(s), env)
  {
    hide Begin;
  }

  lemma WaitingIsSame(s: State, env: Env)
    requires Trying(s) && s.nc.e.None? && s.nc.keygen.sent && s.ami.pending != []
    ensures Same(Outcome(s, Wait), Attempting(Told(s), env), env)
  {
  }

  lemma FinalizedIsInstall(s: State)
    requires Free(s) && s.retry.reloaded && s.nc.authz.done
    ensures s.nc.finalize.done ==> Told(s).plan == Install
  {
  }

  lemma InstallIsFree(s: State)
    requires Trying(s) && Told(s).plan == Install
    ensures s.nc.e.None? && s.nc.keygen.sent && s.ami.pending == [] && s.retry.reloaded
    ensures s.nc.authz.done && s.nc.finalize.done
  {
  }

  lemma RetryIsSame(s: State, err: Err, env: Env)
    requires Trying(s) && s.nc == FRESH && err != Other
    ensures Turn(Told(Retry(s, env)), Wait) == EndsWith(Told(s), err, env)
  {
    hide GetBackoff, Delay;
    Delays(s.retry.failures + 1);
  }

  lemma FatalIsSame(s: State, env: Env)
    requires Trying(s) && s.nc == FRESH
    ensures Told(s.(failed := true)) == EndAll(EndsWith(Told(s), Other, env).p)
  {
  }

  lemma CleanUpIsSame(s: State, env: Env)
    requires !s.failed && Started(s)
    ensures SameTurn(CleanUp(s, env), Clean(Told(s), env)) || s.ami.pending != [] || s.nc.keygen.sent
  {
  }

  lemma ReportIsSame(s: State, env: Env)
    requires Trying(s) && Started(s) && Told(s).plan == Install && env.certSaved.None?
    ensures var r := Report(s.(nc := FRESH), env);
      SameTurn(if r.flow == Go then CleanUp(r.s, env) else r, Installed(Told(s), env))
  {
    hide GetRenewal;
    InstallIsFree(s);
  }

  lemma ConcludedIsSame(s: State, env: Env)
    requires Inv(s) && !s.failed && s.acct.accounted && Started(s)
    ensures SameTurn(Concluded(s, env), Serving(Told(s), env))
  {
    hide AdvanceNewCert, Report, Retry, CleanUp, Attempting, Trying, Told, SameTurn, Clean, Sound;
    TellsFields(s);
    if !s.cert.want {
      IdleCleanUp(s, env);
    } else if (s.clean.sent && !s.clean.done) || env.now < s.retry.until {
      WaitIsSame(s);
    } else {
      WantedIsTrying(s);
      AttemptConcluded(s, env);
    }
  }

  lemma TellsFields(s: State)
    requires !s.failed
    ensures var p := Told(s); p.cert == s.cert && p.clean == s.clean && p.until == s.retry.until
  {
  }

  lemma WaitIsSame(s: State)
    requires !s.failed && Started(s)
    ensures SameTurn(Outcome(s, Wait), Turn(Told(s), Wait))
  {
  }

  lemma IdleCleanUp(s: State, env: Env)
    requires Inv(s) && !s.failed && s.acct.accounted && Started(s) && !s.cert.want
    ensures SameTurn(CleanUp(s, env), Clean(Told(s), env))
  {
  }

  lemma AttemptConcluded(s: State, env: Env)
    requires Trying(s) && Started(s)
    ensures var o := AdvanceNewCert(s, env);
      var o := match o.flow
        case Wait => o
        case Stop(err) => if err == Other then o else Outcome(Retry(o.s, env), Wait)
        case Go => Report(o.s, env);
      SameTurn(if o.flow == Go then CleanUp(o.s, env) else o, Attempting(Told(s), env))
  {
    hide AdvanceNewCert, Report, Retry, CleanUp, Trying, Told, Installed, Begin, Asking;
    AdvanceNewCertTries(s, env);
    if Told(s).plan == Install {
      InstallIsFree(s);
      Continues(s, env);
      InstallConcluded(s, env);
    } else {
      AttemptIsSame(s, env);
      var o := AdvanceNewCert(s, env);
      if o.flow.Stop? {
        if o.flow.err == Other {
          FatalIsSame(o.s, env);
        } else {
          RetryIsSame(o.s, o.flow.err, env);
          RetryIsWaiting(o.s, env);
        }
      }
    }
  }

  lemma RetryIsWaiting(s: State, env: Env)
    requires Trying(s) && s.nc == FRESH
    ensures Started(Retry(s, env)) && !Retry(s, env).failed
  {
    hide GetBackoff;
  }

  lemma InstallConcluded(s: State, env: Env)
    requires Trying(s) && Started(s) && Told(s).plan == Install
    requires AdvanceNewCert(s, env) == Outcome(s.(nc := FRESH), SaveCert(s, env).flow)
    requires Trying(s.(nc := FRESH))
    ensures var o := AdvanceNewCert(s, env);
      var o := match o.flow
        case Wait => o
        case Stop(err) => if err == Other then o else Outcome(Retry(o.s, env), Wait)
        case Go => Report(o.s, env);
      SameTurn(if o.flow == Go then CleanUp(o.s, env) else o, Installed(Told(s), env))
  {
    hide AdvanceNewCert, Report, Retry, CleanUp, Trying;
    var t := s.(nc := FRESH);
    if env.certSaved.None? {
      ReportIsSame(s, env);
    } else {
      EndsAlike(s, env.certSaved.value, env);
      if env.certSaved.value == Other {
        FatalIsSame(t, env);
      } else {
        RetryIsSame(t, env.certSaved.value, env);
        RetryIsWaiting(t, env);
      }
    }
  }

  /** The end of an attempt does not depend on where it stood. */
  lemma EndsAlike(s: State, err: Err, env: Env)
    requires !s.failed
    ensures EndsWith(Told(s), err, env) == EndsWith(Told(s.(nc := FRESH)), err, env)
  {
    hide Delay;
  }

  lemma CertifyingIsSame(s: State, env: Env)
    requires Underway(s) && Started(s)
    ensures var e := Expire(s, env);
      var o := if e.flow == Go then Concluded(Renew(e.s, env).s, env) else e;
      SameTurn(o, Certifying(Told(s), env))
  {
    hide Concluded, Serving;
    ExpireAdvances(s, env);
    var e := Expire(s, env);
    ExpireKeepsPlan(s, env);
    if e.flow == Go {
      RenewAdvances(e.s, env);
      ConcludedIsSame(Renew(e.s, env).s, env);
    }
  }

  lemma ExpireKeepsPlan(s: State, env: Env)
    requires Underway(s) && Started(s)
    ensures var e, expires := Expire(s, env), s.cert.active && env.now >= s.cert.expiry;
      var p := Told(s);
      var p := if expires then p.(cert := p.cert.(active := false, want := true)) else p;
      && (e.flow == Go <==> !(expires && env.closesAtExpiry)) && e.flow != Wait
      && (e.flow.Stop? ==> Told(e.s.(failed := true)) == EndAll(p))
      && (e.flow == Go ==>
            && Told(e.s) == p && Started(e.s) && Started(Renew(e.s, env).s)
            && Told(Renew(e.s, env).s) == if !p.cert.want && env.now >= p.cert.renewal
                                          then p.(cert := p.cert.(want := true)).Timer(p.cert.expiry) else p)
  {
  }

  lemma AccountIsSame(s: State, env: Env)
    requires Inv(s) && !s.failed && Started(s) && s.acct.configured && !s.acct.accounted
    ensures var o := CreateAccount(s, env);
      && (o.flow != Go ==> SameTurn(o, Going(Told(s), env)))
      && (o.flow == Go ==> Started(o.s) && Going(Told(s), env) == Certifying(Told(o.s), env))
  {
    hide Certifying;
  }

  lemma ConfigureIsSame(s: State, env: Env)
    requires Inv(s) && !s.failed && Started(s) && !s.acct.configured
    ensures var o := Configure(s, env);
      && (o.flow != Go ==> SameTurn(o, Going(Told(s), env)))
      && (o.flow == Go ==>
            && Inv(o.s) && !o.s.failed && Started(o.s) && o.s.acct.configured && !o.s.acct.accounted
            && Going(Told(s), env) == Going(Told(o.s), env))
  {
    hide Certifying;
  }

  lemma GoingIsSame(s: State, env: Env)
    requires Inv(s) && !s.failed && Started(s)
    ensures SameTurn(AdvanceGood(s, env), Going(Told(s), env))
  {
    hide Configure, CreateAccount, Expire, Renew, Concluded, Going, Certifying, Inv, Sound, Told;
    var o := Configure(s, env);
    if s.acct.configured {
      ConfiguredGoesOn(s, env);
    } else {
      ConfigureIsSame(s, env);
    }
    if o.flow == Go {
      CreateAccountAdvances(o.s, env);
      var a := CreateAccount(o.s, env);
      if o.s.acct.accounted {
        AccountedGoesOn(o.s, env);
      } else {
        AccountIsSame(o.s, env);
      }
      if a.flow == Go {
        CertifyingIsSame(a.s, env);
        RenewGoesOn(a.s, env);
      }
    }
  }

  lemma ConfiguredGoesOn(s: State, env: Env)
    requires s.acct.configured
    ensures Configure(s, env) == Outcome(s, Go)
  {
  }

  lemma AccountedGoesOn(s: State, env: Env)
    requires Inv(s) && !s.failed && s.acct.accounted
    ensures CreateAccount(s, env) == Outcome(s, Go) && Going(Told(s), env) == Certifying(Told(s), env)
  {
    hide Certifying;
  }

  lemma RenewGoesOn(s: State, env: Env)
    ensures Renew(Expire(s, env).s, env).flow == Go
  {
  }

  /** One call of am_advance_state. */
  lemma AdvanceIsSame(s: State, env: Env)
    requires Inv(s) && Started(s)
    ensures Told(Advance(s, env)) == Advanced(Told(s), env) && Started(Advance(s, env))
  {
    hide AdvanceGood, Going, Inv;
    if !s.failed {
      GoingIsSame(s, env);
      ClosingIsSame(s, AdvanceGood(s, env), Going(Told(s), env), env);
    }
  }

  lemma ClosingIsSame(s: State, o: Outcome, t: Turn, env: Env)
    requires SameTurn(o, t)
    ensures var u := if o.flow.Stop? || env.closesAtStatus then ShutDown(o.s.(failed := true)) else o.s;
      Told(u) == (if t.flow.Stop? || env.closesAtStatus then Closing(EndAll(t.p)) else t.p) && Started(u)
  {
  }

  /* ---------- events and runs ---------- */

  lemma AccountReplyIsSame(s: State, i: nat, err: Option<Err>, now: nat)
    requires Inv(s) && Started(s) && Enabled(s, Answer(i, AccountReply(err, now)))
    ensures var t := Deliver(s, i, AccountReply(err, now));
      Told(t) == Answered(Told(s), i, AccountReply(err, now)) && Started(t)
  {
    hide GetBackoff, Delay;
    Delays(s.retry.failures + 1);
  }

  lemma UnprepareReplyIsSame(s: State, i: nat, ok: bool, now: nat)
    requires Inv(s) && Started(s) && Enabled(s, Answer(i, UnprepareReply(ok, now)))
    ensures var t := Deliver(s, i, UnprepareReply(ok, now));
      Told(t) == Answered(Told(s), i, UnprepareReply(ok, now)) && Started(t)
  {
  }

  /** The callbacks of an attempt. */
  lemma AttemptReplyIsSame(s: State, i: nat, reply: Reply)
    requires Inv(s) && Started(s) && Enabled(s, Answer(i, reply))
    requires !reply.AccountReply? && !reply.UnprepareReply?
    ensures var t := Deliver(s, i, reply);
      Told(t) == Answered(Told(s), i, reply) && Started(t)
  {
    hide Inv, Answering, Callback, Deliver, Told, Answered, SameReply;
    OnlyRequest(s, i, reply);
    var r :| reply.Answers(r) && Answering(s.(ami := s.ami.Answered(i)), r);
    var u := s.(ami := s.ami.Answered(i));
    match reply {
      case GetOrderReply(_, _) => OrderReplyIsSame(u, reply);
      case NewOrderReply(_) => NewOrderReplyIsSame(u, reply);
      case AuthzReply(_, _) => AuthzReplyIsSame(u, reply);
      case ChallengeReply(_) => ChallengeReplyIsSame(u, reply, r);
      case FinalizeReply(_) => FinalizeReplyIsSame(u, reply, r);
      case PrepareReply(_) => PrepareReplyIsSame(u, reply);
    }
    OfAnAttempt(u, r);
    AnsweredByPlan(s, i, reply);
  }

  /** What a callback leaves, by its reply. */
  ghost predicate SameReply(s: State, t: State, reply: Reply) {
    var p := Told(s);
    Started(t) && Told(t) == if s.failed then p else p.(plan := ByReply(reply), looks := false)
  }

  lemma OrderReplyIsSame(s: State, reply: Reply)
    requires reply.GetOrderReply? && Started(s) && Answering(s, GetOrder)
    ensures SameReply(s, Callback(s, reply), reply)
  {
  }

  lemma NewOrderReplyIsSame(s: State, reply: Reply)
    requires reply.NewOrderReply? && Started(s) && Answering(s, NewOrder)
    ensures SameReply(s, Callback(s, reply), reply)
  {
  }

  lemma AuthzReplyIsSame(s: State, reply: Reply)
    requires reply.AuthzReply? && Started(s) && Answering(s, GetAuthz)
    ensures SameReply(s, Callback(s, reply), reply)
  {
  }

  lemma ChallengeReplyIsSame(s: State, reply: Reply, r: Request)
    requires reply.ChallengeReply? && reply.Answers(r) && Started(s) && Answering(s, r)
    ensures SameReply(s, Callback(s, reply), reply)
  {
  }

  lemma FinalizeReplyIsSame(s: State, reply: Reply, r: Request)
    requires reply.FinalizeReply? && reply.Answers(r) && Started(s) && Answering(s, r)
    ensures SameReply(s, Callback(s, reply), reply)
  {
  }

  lemma PrepareReplyIsSame(s: State, reply: Reply)
    requires reply.PrepareReply? && Started(s) && Answering(s, SetChallenge)
    ensures SameReply(s, Callback(s, reply), reply)
  {
  }

  lemma OfAnAttempt(s: State, r: Request)
    requires Answering(s, r) && r != NewAccount && r != DeleteChallenge
    ensures !s.failed ==> s.nc.keygen.sent && s.nc.e.None? && s.acct.accounted && s.acct.configured
  {
  }

  lemma AnsweredByPlan(s: State, i: nat, reply: Reply)
    requires i < |s.ami.pending| && !reply.AccountReply? && !reply.UnprepareReply?
    requires !s.failed ==> s.nc.keygen.sent && s.nc.e.None? && s.acct.accounted && s.acct.configured
    requires SameReply(s.(ami := s.ami.Answered(i)), Callback(s.(ami := s.ami.Answered(i)), reply), reply)
    ensures Told(Deliver(s, i, reply)) == Answered(Told(s), i, reply) && Started(Deliver(s, i, reply))
  {
    hide Callback, ByReply, PlanOf;
  }

  lemma OthersAreSame(s: State, ev: Event)
    requires Inv(s) && Started(s) && Enabled(s, ev) && !ev.AdvanceState? && !ev.Answer?
    ensures Told(Step(s, ev)) == Happens(Told(s), ev) && Started(Step(s, ev))
  {
  }

  /** Every event does to the flags what it does to the plan. */
  lemma StepIsSame(s: State, ev: Event)
    requires Inv(s) && Started(s) && Enabled(s, ev)
    ensures Told(Step(s, ev)) == Happens(Told(s), ev) && Started(Step(s, ev))
  {
    hide Advance, Deliver, Advanced, Answered, Inv, Started, Told;
    assert Told(s).ami == s.ami by { TellsOutside(s); }
    match ev {
      case AdvanceState(env) => AdvanceIsSame(s, env);
      case Answer(i, reply) =>
        match reply {
          case AccountReply(err, now) => AccountReplyIsSame(s, i, err, now);
          case UnprepareReply(ok, now) => UnprepareReplyIsSame(s, i, ok, now);
          case _ => AttemptReplyIsSame(s, i, reply);
        }
      case _ => OthersAreSame(s, ev);
    }
  }

  lemma TellsOutside(s: State)
    ensures Told(s).ami == s.ami
  {
  }

  /** What the outside may do. */
  predicate MayHappen(p: Plans, ev: Event) {
    && !p.life.freed
    && match ev
       case Answer(i, reply) => i < |p.ami.pending| && reply.Answers(p.ami.pending[i])
       case KeygenEnds(_) => p.ami.keygens > 0
       case CloseDone => p.life.closeSent
       case _ => true
  }

  predicate CanHappen(p: Plans, evs: seq<Event>)
    decreases evs
  {
    evs == [] || (MayHappen(p, evs[0]) && CanHappen(Happens(p, evs[0]), evs[1..]))
  }

  function AllHappen(p: Plans, evs: seq<Event>): Plans
    requires CanHappen(p, evs)
    decreases evs
  {
    if evs == [] then p else AllHappen(Happens(p, evs[0]), evs[1..])
  }

  const NOTHING := Plans(Configuring, false, false, 0, 0, Cert(false, false, 0, 0), Cleanup(false, false, 0),
                         Life(false, false, false), Outside([], false, true, 0, Timers(0, 0, 0)))

  /** The plan at the start: poll for a configuration; make an account; or look after the certificate
      on disk, if there is one, by its dates. */
  function AtStart(disk: Disk, now: nat): Plans {
    match disk
    case NoInstallation => NOTHING.Backoff(now, 5)
    case NoAccount => NOTHING.(plan := MakingAccount)
    case HasAccount(None) => NOTHING.(plan := Resting, looks := true, cert := Cert(false, true, 0, 0))
    case HasAccount(Some((issue, expiry))) =>
      var renewal := GetRenewal(issue, expiry);
      var valid, due := now < expiry, now >= expiry || now >= renewal;
      var p := NOTHING.(plan := Resting, looks := true, cert := Cert(valid, due, expiry, renewal));
      if !valid then p else p.Timer(if due then expiry else renewal)
  }

  lemma InitIsSame(disk: Disk, now: nat)
    ensures Told(Init(disk, now)) == AtStart(disk, now) && Started(Init(disk, now))
  {
    hide GetRenewal;
  }

  /** From outside, the manager with its flags cannot be told from the simple one: in every run, the same
      events may happen, and they leave the same requests, key generations, timers, and certificate. */
  lemma FlagsDoWhatIsPlanned(disk: Disk, now: nat, evs: seq<Event>)
    ensures CanRun(Init(disk, now), evs) <==> CanHappen(AtStart(disk, now), evs)
    ensures CanRun(Init(disk, now), evs) ==>
              var s, p := Run(Init(disk, now), evs), AllHappen(AtStart(disk, now), evs);
              && Told(s) == p
              && p.ami == s.ami && p.cert == s.cert && p.clean == s.clean && p.life == s.life
              && (p.plan == Over <==> s.failed)
  {
    hide Init, AtStart, Run, CanRun, CanHappen, AllHappen;
    InitIsSame(disk, now);
    InitIsSound(disk, now);
    RunIsSame(Init(disk, now), evs);
    if CanRun(Init(disk, now), evs) {
      OverIsFailed(Run(Init(disk, now), evs));
    }
  }

  lemma OverIsFailed(s: State)
    ensures var p := Told(s);
      && p.ami == s.ami && p.cert == s.cert && p.clean == s.clean && p.life == s.life
      && (p.plan == Over <==> s.failed)
  {
  }

  lemma {:induction false} RunIsSame(s: State, evs: seq<Event>)
    requires Inv(s) && Started(s)
    ensures CanRun(s, evs) <==> CanHappen(Told(s), evs)
    ensures CanRun(s, evs) ==>
              Told(Run(s, evs)) == AllHappen(Told(s), evs) && Inv(Run(s, evs)) && Started(Run(s, evs))
    decreases evs
  {
    hide Inv, Started, Told, Step, Happens, Enabled, MayHappen;
    if evs != [] {
      SameMayHappen(s, evs[0]);
      if Enabled(s, evs[0]) {
        StepIsSame(s, evs[0]);
        StepKeepsInv(s, evs[0]);
        RunIsSame(Step(s, evs[0]), evs[1..]);
      }
    }
  }

  lemma SameMayHappen(s: State, ev: Event)
    ensures Enabled(s, ev) <==> MayHappen(Told(s), ev)
  {
    OverIsFailed(s);
  }
}
