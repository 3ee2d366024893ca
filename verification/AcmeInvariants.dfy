/** What holds in every run of the ACME certificate manager. */
module AcmeInvariants {
  import opened Bytes
  import opened AcmeState

  /** No attempt is under way (an old key generation may still end). */
  ghost predicate Idle(nc: NewCert) {
    nc.e.None? && !nc.keygen.sent && nc.check == UNSENT && BeforeOrder(nc)
  }

  ghost predicate BeforeOrder(nc: NewCert) {
    nc.order == UNSENT && !nc.authz.sent && !nc.authz.resp && BeforeAuthz(nc)
  }

  ghost predicate BeforeAuthz(nc: NewCert) {
    !nc.authz.done && nc.prepare == UNSENT && BeforeChallenge(nc)
  }

  ghost predicate BeforeChallenge(nc: NewCert) {
    nc.challenge == UNSENT && nc.finalize == UNSENT
  }

  /** The stages of an attempt come one after another. */
  ghost predicate InOrder(nc: NewCert, reloaded: bool) {
    && (nc.check.done ==> nc.check.sent)
    && (if reloaded then nc.check.sent ==> nc.check.done else BeforeOrder(nc))
    && (!nc.order.done ==> !nc.authz.sent && !nc.authz.resp && BeforeAuthz(nc))
    && (nc.authz.resp ==> nc.authz.sent)
    && (if nc.authz.done then nc.authz.sent ==> nc.authz.resp else BeforeAuthz(nc))
    && (!nc.prepare.done ==> BeforeChallenge(nc))
    && (!nc.challenge.done ==> nc.finalize == UNSENT)
    && (nc.finalize.done ==> nc.finalize.sent)
    && (nc.finalize.sent ==> nc.keygen.done)
    && (!nc.check.done ==> nc.orderStatus == Invalid)
    && (reloaded && !nc.finalize.sent ==> nc.orderStatus != Processing && nc.orderStatus != Validated)
    && (nc.authz.done && nc.challenge == UNSENT ==> nc.challengeStatus != Processing)
  }

  /** The one request that the flags say is outstanding. */
  ghost function Expected(s: State): seq<Request> {
    if s.acct.sent && !s.acct.done then [NewAccount]
    else if s.clean.sent && !s.clean.done then [DeleteChallenge]
    else ExpectedOf(s.nc)
  }

  ghost function ExpectedOf(nc: NewCert): seq<Request> {
    if nc.e.Some? then []
    else if nc.check.sent && !nc.check.done then [GetOrder]
    else if nc.order.sent && !nc.order.done then [NewOrder]
    else if nc.authz.sent && !nc.authz.resp then [GetAuthz]
    else if nc.prepare.sent && !nc.prepare.done then [SetChallenge]
    else if nc.challenge.sent && !nc.challenge.done then
      [if nc.challengeStatus == Processing then ChallengeFinish else Challenge]
    else if nc.finalize.sent && !nc.finalize.done then [FinalizeOf(nc.orderStatus)]
    else []
  }

  /** The request that ends an order of this status. */
  function FinalizeOf(status: AcmeStatus): Request {
    match status
    case Processing => FinalizeFromProcessing
    case Validated => FinalizeFromValid
    case _ => Finalize
  }

  /** At most one request is outstanding, none was ever started while another was, and what is
      thought to be cleaned up is clean. */
  ghost predicate Safe(s: State) {
    |s.ami.pending| <= 1 && !s.ami.busy && (s.clean.done ==> !s.ami.dirty)
  }

  /** The flags of the attempt fit what is outstanding. */
  ghost predicate Attempting(nc: NewCert, reloaded: bool, pending: seq<Request>, keygens: nat) {
    && pending == ExpectedOf(nc)
    && (nc.e.None? ==> InOrder(nc, reloaded) && (!nc.keygen.sent ==> Idle(nc)))
    && (nc.keygen.sent && !nc.keygen.done ==> keygens > 0)
  }

  /** Every time the manager waits for has its timer. */
  ghost predicate Timed(s: State) {
    && (s.retry.until != 0 ==> s.ami.timers.backoff == s.retry.until)
    && (s.clean.after != 0 ==> s.ami.timers.unprepare == s.clean.after)
    && (s.acct.accounted && !s.cert.want ==> s.cert.active && s.ami.timers.cert == s.cert.renewal)
    && (s.cert.active && s.cert.want ==> s.ami.timers.cert == s.cert.expiry)
  }

  /* ---------- one attempt ---------- */

  /** The manager wants a certificate, has an account and is not cleaning up. */
  ghost predicate Willing(s: State) {
    && Safe(s) && !s.failed && s.cert.want && s.acct.accounted && s.acct.configured
    && !(s.clean.sent && !s.clean.done) && s.acct.sent == s.acct.done && Timed(s)
  }

  ghost predicate Trying(s: State) {
    Willing(s) && Attempting(s.nc, s.retry.reloaded, s.ami.pending, s.ami.keygens)
  }

  /** A request of the attempt is outstanding, or its own key generation is. */
  ghost predicate AttemptWaits(s: State) {
    || (s.ami.pending != [] && s.ami.pending == ExpectedOf(s.nc))
    || (s.nc.keygen.sent && !s.nc.keygen.done && s.ami.keygens > 0)
  }

  /** What a piece of advance_new_cert leaves: it goes on trying, or waits for an answer or a key;
      after an error, nothing is outstanding. */
  ghost predicate Tried(s: State, o: Outcome) {
    && Willing(o.s) && o.s.cert == s.cert
    && match o.flow
       case Go => Trying(o.s) && o.s.nc.e.None? && o.s.nc.keygen.sent
       case Wait => Trying(o.s) && AttemptWaits(o.s) && o.s.nc.e.None? && o.s.nc.keygen.sent
       case Stop(_) => o.s.ami.pending == []
  }

  lemma StartKeygenTries(s: State, env: Env)
    requires Trying(s)
    ensures Tried(s, StartKeygen(s, env))
  {
  }

  lemma CheckOrderTries(s: State, env: Env)
    requires Trying(s) && s.nc.e.None? && s.nc.keygen.sent && !s.retry.reloaded
    ensures Tried(s, CheckOrder(s, env)) && CheckOrder(s, env).s.nc.check.sent && !CheckOrder(s, env).s.retry.reloaded
  {
  }

  lemma ResumeOrderTries(s: State)
    requires Trying(s) && s.nc.e.None? && s.nc.keygen.sent && !s.retry.reloaded && s.nc.check.sent
    ensures Tried(s, ResumeOrder(s)) && (ResumeOrder(s).flow == Go ==> ResumeOrder(s).s.retry.reloaded)
  {
  }

  lemma CreateOrderTries(s: State)
    requires Trying(s) && s.nc.e.None? && s.nc.keygen.sent && s.retry.reloaded
    ensures Tried(s, CreateOrder(s)) && (CreateOrder(s).flow == Go ==> s.nc.order.done)
  {
  }

  lemma AuthorizedTries(s: State)
    requires Trying(s) && s.nc.e.None? && s.nc.keygen.sent && s.retry.reloaded && s.nc.order.done
    requires s.nc.authz.resp && !s.nc.authz.done
    ensures Tried(s, Authorized(s))
    ensures Authorized(s).flow == Go ==> Authorized(s).s.nc.authz.done && Authorized(s).s.retry.reloaded
  {
    hide Timed;
    var o := Authorized(s);
    assert Timed(o.s) by { SameTimers(s, o.s); }
  }

  lemma SameTimers(s: State, t: State)
    requires Timed(s)
    requires t.retry == s.retry && t.clean == s.clean && t.acct == s.acct && t.cert == s.cert
    requires t.ami.timers == s.ami.timers
    ensures Timed(t)
  {
  }

  lemma AuthorizeTries(s: State)
    requires Trying(s) && s.nc.e.None? && s.nc.keygen.sent && s.retry.reloaded && s.nc.order.done
    ensures Tried(s, Authorize(s))
    ensures Authorize(s).flow == Go ==> Authorize(s).s.nc.authz.done && Authorize(s).s.retry.reloaded
  {
    hide Authorized;
    if !s.nc.authz.done && s.nc.authz.resp {
      AuthorizedTries(s);
    }
  }

  lemma PrepareDnsTries(s: State, env: Env)
    requires Trying(s) && s.nc.e.None? && s.nc.keygen.sent && s.retry.reloaded && s.nc.authz.done
    ensures Tried(s, PrepareDns(s, env)) && (PrepareDns(s, env).flow == Go ==> s.nc.prepare.done)
  {
  }

  lemma RespondTries(s: State)
    requires Trying(s) && s.nc.e.None? && s.nc.keygen.sent && s.retry.reloaded && s.nc.prepare.done
    ensures Tried(s, Respond(s)) && (Respond(s).flow == Go ==> s.nc.challenge.done)
  {
  }

  lemma FinalizeOrderTries(s: State)
    requires Trying(s) && s.nc.e.None? && s.nc.keygen.sent && s.retry.reloaded && s.nc.challenge.done
    ensures Tried(s, FinalizeOrder(s)) && (FinalizeOrder(s).flow == Go ==> s.nc.finalize.done)
  {
  }

  lemma AttemptTries(s: State, env: Env)
    requires Trying(s)
    ensures Tried(s, Attempt(s, env)) && (Attempt(s, env).flow == Go ==> Attempt(s, env).s.ami.pending == [])
  {
    hide StartKeygen, Reload, OrderToCert, Willing, Attempting;
    StartKeygenTries(s, env);
    var o := StartKeygen(s, env);
    if o.flow == Go {
      ReloadTries(o.s, env);
      o := Reload(o.s, env);
      if o.flow == Go {
        OrderToCertTries(o.s, env);
      }
    }
  }

  lemma ReloadTries(s: State, env: Env)
    requires Trying(s) && s.nc.e.None? && s.nc.keygen.sent
    ensures Tried(s, Reload(s, env)) && (Reload(s, env).flow == Go ==> Reload(s, env).s.retry.reloaded)
  {
    hide CheckOrder, ResumeOrder, Willing, Attempting;
    if !s.retry.reloaded {
      CheckOrderTries(s, env);
      var o := CheckOrder(s, env);
      if o.flow == Go {
        ResumeOrderTries(o.s);
      }
    }
  }

  lemma OrderToCertTries(s: State, env: Env)
    requires Trying(s) && s.nc.e.None? && s.nc.keygen.sent && s.retry.reloaded
    ensures Tried(s, OrderToCert(s, env))
    ensures OrderToCert(s, env).flow == Go ==> OrderToCert(s, env).s.ami.pending == []
  {
    hide CreateOrder, Authorize, PrepareDns, Respond, FinalizeOrder, Willing, Attempting;
    CreateOrderTries(s);
    GoKeeps(s, env);
    if CreateOrder(s).flow == Go {
      AuthorizeTries(s);
      var o := Authorize(s);
      if o.flow == Go {
        PrepareDnsTries(o.s, env);
        GoKeeps(o.s, env);
        if PrepareDns(o.s, env).flow == Go {
          RespondTries(o.s);
          if Respond(o.s).flow == Go {
            FinalizeOrderTries(o.s);
            if FinalizeOrder(o.s).flow == Go {
              NothingPending(o.s);
            }
          }
        }
      }
    }
  }

  /** These pieces change nothing when they let the next one go on. */
  lemma GoKeeps(s: State, env: Env)
    ensures CreateOrder(s).flow == Go ==> CreateOrder(s).s == s
    ensures PrepareDns(s, env).flow == Go ==> PrepareDns(s, env).s == s
    ensures Respond(s).flow == Go ==> Respond(s).s == s
    ensures FinalizeOrder(s).flow == Go ==> FinalizeOrder(s).s == s
  {
  }

  lemma NothingPending(s: State)
    requires Trying(s) && s.nc.e.None? && s.retry.reloaded && s.nc.challenge.done && s.nc.finalize.done
    ensures s.ami.pending == []
  {
  }

  /** One call of advance_new_cert: an attempt that ends leaves nothing outstanding. */
  lemma AdvanceNewCertTries(s: State, env: Env)
    requires Trying(s)
    ensures var o := AdvanceNewCert(s, env);
      && Trying(o.s) && o.s.cert == s.cert
      && if o.flow == Wait then AttemptWaits(o.s) && o.s.nc.e.None? && o.s.nc.keygen.sent
         else o.s.nc == FRESH && o.s.ami.pending == []
  {
    hide Attempt;
    AttemptTries(s, env);
  }

  /* ---------- the manager ---------- */

  /** The flags of a manager without an error. */
  ghost predicate Sound(s: State) {
    && s.ami.pending == Expected(s)
    && (s.nc.e.None? ==> InOrder(s.nc, s.retry.reloaded) && (!s.nc.keygen.sent ==> Idle(s.nc)))
    && (s.nc.keygen.sent && !s.nc.keygen.done ==> s.ami.keygens > 0)
    && (!s.cert.want || (s.clean.sent && !s.clean.done) || !s.acct.accounted ==> Idle(s.nc))
    && (s.acct.accounted ==> s.acct.configured && !(s.acct.sent && !s.acct.done))
    && (!s.acct.accounted ==> !s.clean.sent && !s.clean.done && !s.cert.active && s.cert.renewal == 0)
    && (!s.acct.configured ==> !s.acct.sent) && (s.acct.done ==> s.acct.sent)
    && Timed(s)
  }

  ghost predicate Inv(s: State) {
    Safe(s) && (!s.failed ==> Sound(s))
  }

  ghost predicate BackingOff(s: State, now: int) {
    now < s.retry.until && s.ami.timers.backoff == s.retry.until
  }

  /** What the manager waits for after `now`, and the request or timer that will wake it up then: a
      configuration; an account; the end of a cleanup, a backoff, or its attempt, and the expiry of
      the certificate that is served meanwhile; or the time for a cleanup, and the renewal. */
  ghost predicate Waiting(s: State, now: int) {
    if !s.acct.configured then BackingOff(s, now)
    else if !s.acct.accounted then s.ami.pending == [NewAccount] || BackingOff(s, now)
    else if s.cert.want then
      && (if s.clean.sent && !s.clean.done then s.ami.pending == [DeleteChallenge]
          else BackingOff(s, now) || AttemptWaits(s))
      && (s.cert.active ==> now < s.cert.expiry == s.ami.timers.cert)
    else
      && (s.clean.done || s.ami.pending == [DeleteChallenge] || now < s.clean.after == s.ami.timers.unprepare)
      && now < s.cert.renewal == s.ami.timers.cert
  }

  /** What a piece of am_advance_good leaves. */
  ghost predicate Advanced(o: Outcome, env: Env) {
    && Safe(o.s)
    && (o.flow.Stop? || (!o.s.failed && Sound(o.s)))
    && (o.flow == Wait ==> Waiting(o.s, env.now) && Current(o.s, env.now))
  }

  /** The certificate that is served has not expired. */
  ghost predicate Current(s: State, now: int) {
    s.cert.active ==> now < s.cert.expiry
  }

  lemma ConfigureAdvances(s: State, env: Env)
    requires Inv(s) && !s.failed
    ensures Advanced(Configure(s, env), env) && (Configure(s, env).flow == Go ==> Configure(s, env).s.acct.configured)
  {
    hide Attempting;
  }

  lemma CreateAccountAdvances(s: State, env: Env)
    requires Inv(s) && !s.failed && s.acct.configured
    ensures var o := CreateAccount(s, env);
      && Safe(o.s) && (o.flow == Go ==> o.s.acct.accounted && Underway(o.s))
      && (o.flow == Wait ==> Advanced(o, env))
  {
  }

  /** Sound, but for a certificate that is wanted only from the next lines of am_advance_good on. */
  ghost predicate Underway(s: State) {
    && Safe(s) && !s.failed && s.acct.accounted
    && (Sound(s) || (Sound(s.(cert := s.cert.(want := true))) && s.cert.renewal == 0))
  }

  lemma ExpireAdvances(s: State, env: Env)
    requires Underway(s)
    ensures var o := Expire(s, env);
      Safe(o.s) && (o.flow == Go ==> Underway(o.s) && Current(o.s, env.now)) && o.flow != Wait
  {
  }

  lemma RenewAdvances(s: State, env: Env)
    requires Underway(s) && Current(s, env.now)
    ensures var o := Renew(s, env);
      o.flow == Go && Safe(o.s) && Sound(o.s) && !o.s.failed && o.s.acct.accounted && Current(o.s, env.now)
      && (o.s.cert.want || env.now < o.s.cert.renewal)
  {
  }

  lemma WantedIsTrying(s: State)
    requires Inv(s) && !s.failed && s.acct.accounted && s.cert.want && !(s.clean.sent && !s.clean.done)
    ensures Trying(s)
  {
  }

  lemma TryingIsSound(s: State)
    requires Trying(s)
    ensures Inv(s)
  {
  }

  lemma BackoffPositive(attempts: nat)
    requires attempts > 0
    ensures GetBackoff(attempts, CERT_DELAYS) >= 15 && GetBackoff(attempts, ACCOUNT_DELAYS) >= 1
  {
  }

  /** The delays grow with the failures in a row, up to the last one of their table. */
  lemma BackoffGrows(a: nat, b: nat)
    requires 0 < a <= b
    ensures GetBackoff(a, CERT_DELAYS) <= GetBackoff(b, CERT_DELAYS) <= 30 * 60
    ensures GetBackoff(a, ACCOUNT_DELAYS) <= GetBackoff(b, ACCOUNT_DELAYS) <= 60
    ensures GetBackoff(1, CERT_DELAYS) == 15 && (b >= 6 ==> GetBackoff(b, CERT_DELAYS) == 30 * 60)
    ensures GetBackoff(1, ACCOUNT_DELAYS) == 1 && (b >= 6 ==> GetBackoff(b, ACCOUNT_DELAYS) == 60)
  {
  }

  lemma RetryAdvances(s: State, env: Env)
    requires Trying(s) && s.nc == FRESH && s.ami.pending == [] && Current(s, env.now)
    ensures Advanced(Outcome(Retry(s, env), Wait), env)
  {
    hide GetBackoff;
    BackoffPositive(s.retry.failures + 1);
  }

  lemma RenewalIsEarlier(issue: int, expiry: int, now: nat)
    requires now < GetRenewal(issue, expiry)
    ensures now < expiry
  {
  }

  /** A certificate is renewed when two thirds of its lifetime are over, rounded down to a second; one
      with its dates in the wrong order, at once. */
  lemma RenewalAtTwoThirds(issue: int, expiry: int)
    ensures var renewal := GetRenewal(issue, expiry);
      if expiry < issue then renewal == 0
      else 3 * (renewal - issue) <= 2 * (expiry - issue) < 3 * (renewal - issue + 1)
  {
  }

  lemma ReportAdvances(s: State, env: Env)
    requires Trying(s) && s.nc == FRESH && s.ami.pending == []
    ensures var o := Report(s, env);
      Safe(o.s) && o.flow != Wait
      && (o.flow == Go ==> Ready(o.s, env))
  {
    hide GetRenewal;
    if env.dates.Some? && env.now < GetRenewal(env.dates.value.0, env.dates.value.1) {
      RenewalIsEarlier(env.dates.value.0, env.dates.value.1, env.now);
    }
  }

  /** No certificate is wanted, and there is a timer for when one will be. */
  ghost predicate Ready(s: State, env: Env) {
    && Safe(s) && !s.failed && Sound(s) && !s.cert.want && s.acct.accounted
    && env.now < s.cert.renewal && Current(s, env.now)
  }

  lemma ObtainCertAdvances(s: State, env: Env)
    requires Inv(s) && !s.failed && s.acct.accounted && Current(s, env.now)
    requires s.cert.want || env.now < s.cert.renewal
    ensures var o := ObtainCert(s, env);
      Safe(o.s) && (o.flow == Go ==> Ready(o.s, env)) && (o.flow == Wait ==> Advanced(o, env))
  {
    hide AdvanceNewCert, Report, Retry, Attempting;
    if s.cert.want && !(s.clean.sent && !s.clean.done) && env.now >= s.retry.until {
      WantedIsTrying(s);
      AdvanceNewCertTries(s, env);
      var o := AdvanceNewCert(s, env);
      TryingIsSound(o.s);
      match o.flow {
        case Wait =>
        case Stop(_) => RetryAdvances(o.s, env);
        case Go => ReportAdvances(o.s, env);
      }
    }
  }

  lemma CleanUpAdvances(s: State, env: Env)
    requires Ready(s, env)
    ensures Advanced(CleanUp(s, env), env)
  {
  }

  /** One call of am_advance_good on a manager without an error: an error is all that can stop it
      from ending in a state that something will wake up. */
  lemma AdvanceGoodAdvances(s: State, env: Env)
    requires Inv(s) && !s.failed
    ensures var o := AdvanceGood(s, env); Advanced(o, env) && o.flow != Go
  {
    hide Configure, CreateAccount, Expire, Renew, ObtainCert, CleanUp, Safe, Sound, Current, Waiting;
    ConfigureAdvances(s, env);
    var o := Configure(s, env);
    if o.flow == Go {
      CreateAccountAdvances(o.s, env);
      o := CreateAccount(o.s, env);
      if o.flow == Go {
        ExpireAdvances(o.s, env);
        o := Expire(o.s, env);
        if o.flow == Go {
          RenewAdvances(o.s, env);
          o := Renew(o.s, env);
          ObtainCertAdvances(o.s, env);
          o := ObtainCert(o.s, env);
          if o.flow == Go {
            CleanUpAdvances(o.s, env);
            CleanUpIsLast(o.s, env);
          }
        }
      }
    }
  }

  lemma CleanUpIsLast(s: State, env: Env)
    ensures CleanUp(s, env).flow != Go
  {
  }

  lemma AdvanceKeepsInv(s: State, env: Env)
    requires Inv(s)
    ensures Inv(Advance(s, env))
  {
    hide AdvanceGood, Sound, Current, Waiting;
    if !s.failed {
      AdvanceGoodAdvances(s, env);
    }
  }

  /* ---------- callbacks ---------- */

  /** The state that a callback finds: its request, the only one, is over. */
  ghost predicate Answering(s: State, r: Request) {
    && s.ami.pending == [] && !s.ami.busy && (s.clean.done ==> !s.ami.dirty)
    && (!s.failed ==> Expected(s) == [r] && Sound(s.(ami := s.ami.(pending := [r]))))
  }

  lemma NewAccountDoneKeepsInv(s: State, err: Option<Err>, now: nat)
    requires Answering(s, NewAccount)
    ensures Inv(NewAccountDone(s, err, now))
  {
    hide GetBackoff;
  }

  lemma GetOrderDoneKeepsInv(s: State, ours: bool, status: AcmeStatus)
    requires Answering(s, GetOrder)
    ensures Inv(GetOrderDone(s, ours, status))
  {
  }

  lemma NewOrderDoneKeepsInv(s: State, err: Option<Err>)
    requires Answering(s, NewOrder)
    ensures Inv(NewOrderDone(s, err))
  {
  }

  lemma GetAuthzDoneKeepsInv(s: State, err: Option<Err>, status: AcmeStatus)
    requires Answering(s, GetAuthz)
    ensures Inv(GetAuthzDone(s, err, status))
  {
  }

  lemma ChallengeDoneKeepsInv(s: State, err: Option<Err>)
    requires exists r :: ChallengeReply(err).Answers(r) && Answering(s, r)
    ensures Inv(ChallengeDone(s, err))
  {
  }

  lemma FinalizeDoneKeepsInv(s: State, err: Option<Err>)
    requires exists r :: FinalizeReply(err).Answers(r) && Answering(s, r)
    ensures Inv(FinalizeDone(s, err))
  {
  }

  lemma PrepareDoneKeepsInv(s: State, result: PrepareResult)
    requires Answering(s, SetChallenge)
    ensures Inv(PrepareDone(s, result))
  {
  }

  lemma UnprepareDoneKeepsInv(s: State, ok: bool, now: nat)
    requires Answering(s, DeleteChallenge) && (ok ==> !s.ami.dirty)
    ensures Inv(UnprepareDone(s, ok, now))
  {
  }

  lemma AnswerKeepsInv(s: State, i: nat, reply: Reply)
    requires Inv(s) && Enabled(s, Answer(i, reply))
    ensures Inv(Deliver(s, i, reply))
  {
    hide Inv, NewAccountDone, GetOrderDone, NewOrderDone, GetAuthzDone, ChallengeDone, FinalizeDone, PrepareDone,
         UnprepareDone;
    OnlyRequest(s, i, reply);
    var ami := s.ami.Answered(i);
    var t := s.(ami := if reply.UnprepareReply? && reply.ok then ami.(dirty := false) else ami);
    match reply {
      case AccountReply(err, now) => NewAccountDoneKeepsInv(t, err, now);
      case GetOrderReply(ours, status) => GetOrderDoneKeepsInv(t, ours, status);
      case NewOrderReply(err) => NewOrderDoneKeepsInv(t, err);
      case AuthzReply(err, status) => GetAuthzDoneKeepsInv(t, err, status);
      case ChallengeReply(err) => ChallengeDoneKeepsInv(t, err);
      case FinalizeReply(err) => FinalizeDoneKeepsInv(t, err);
      case PrepareReply(result) => PrepareDoneKeepsInv(t, result);
      case UnprepareReply(ok, now) => UnprepareDoneKeepsInv(t, ok, now);
    }
  }

  lemma OnlyRequest(s: State, i: nat, reply: Reply)
    requires Inv(s) && Enabled(s, Answer(i, reply))
    ensures var ami := s.ami.Answered(i);
      var ami := if reply.UnprepareReply? && reply.ok then ami.(dirty := false) else ami;
      exists r :: reply.Answers(r) && Answering(s.(ami := ami), r)
  {
    var r := s.ami.pending[i];
    assert s.ami.pending == [r] && reply.Answers(r);
    assert s.ami.Answered(i).pending == [];
  }

  lemma KeygenKeepsInv(s: State, ok: bool)
    requires Inv(s) && Enabled(s, KeygenEnds(ok))
    ensures Inv(Step(s, KeygenEnds(ok)))
  {
  }

  lemma StepKeepsInv(s: State, ev: Event)
    requires Inv(s) && Enabled(s, ev)
    ensures Inv(Step(s, ev))
  {
    hide Advance, Deliver, KeygenDone, ExpectedOf, InOrder, Idle;
    match ev {
      case AdvanceState(env) => AdvanceKeepsInv(s, env);
      case Answer(i, reply) => AnswerKeepsInv(s, i, reply);
      case KeygenEnds(ok) => KeygenKeepsInv(s, ok);
      case _ =>
    }
  }

  lemma InitIsSound(disk: Disk, now: nat)
    ensures Inv(Init(disk, now))
  {
  }

  /* ---------- runs ---------- */

  lemma {:induction false} RunKeepsInv(s: State, evs: seq<Event>)
    requires Inv(s) && CanRun(s, evs)
    ensures Inv(Run(s, evs))
    decreases evs
  {
    hide Inv, Step, Enabled;
    if evs != [] {
      StepKeepsInv(s, evs[0]);
      RunKeepsInv(Step(s, evs[0]), evs[1..]);
    }
  }

  /** In every run, at most one request is outstanding across the ACME client and the REST client,
      and no request is ever started while another one is. */
  lemma OneRequestAtATime(disk: Disk, now: nat, evs: seq<Event>)
    requires CanRun(Init(disk, now), evs)
    ensures var s := Run(Init(disk, now), evs); |s.ami.pending| <= 1 && !s.ami.busy
  {
    hide Init, Run, CanRun;
    InitIsSound(disk, now);
    RunKeepsInv(Init(disk, now), evs);
  }

  /** In every run, while unprepare_done is set, no set-challenge has been started since the last
      delete-challenge that succeeded. */
  lemma CleanedUpIsClean(disk: Disk, now: nat, evs: seq<Event>)
    requires CanRun(Init(disk, now), evs)
    ensures var s := Run(Init(disk, now), evs); s.clean.done ==> !s.ami.dirty
  {
    hide Init, Run, CanRun;
    InitIsSound(disk, now);
    RunKeepsInv(Init(disk, now), evs);
  }

  /** No step of any run starts a request, in particular a set-challenge, while a delete-challenge
      is outstanding. */
  lemma NothingStartsDuringDelete(disk: Disk, now: nat, evs: seq<Event>, ev: Event)
    requires CanRun(Init(disk, now), evs) && Enabled(Run(Init(disk, now), evs), ev)
    requires DeleteChallenge in Run(Init(disk, now), evs).ami.pending
    ensures var s := Run(Init(disk, now), evs);
      Step(s, ev).ami.pending == s.ami.pending || Step(s, ev).ami.pending == []
  {
    hide Init, Run, CanRun, Step;
    var s := Run(Init(disk, now), evs);
    InitIsSound(disk, now);
    RunKeepsInv(Init(disk, now), evs);
    StepKeepsInv(s, ev);
    DeleteStaysAlone(s, ev);
  }

  lemma DeleteStaysAlone(s: State, ev: Event)
    requires Inv(s) && Enabled(s, ev) && DeleteChallenge in s.ami.pending
    ensures Step(s, ev).ami.pending == s.ami.pending || Step(s, ev).ami.pending == []
  {
    hide Advance, Deliver, KeygenDone;
    match ev {
      case AdvanceState(env) => WaitsForDelete(s, env);
      case Answer(i, reply) => OnlyRequest(s, i, reply); CallbackSendsNothing(s, i, reply);
      case KeygenEnds(ok) => KeygenSendsNothing(s.(ami := s.ami.(keygens := s.ami.keygens - 1)), ok);
      case _ =>
    }
  }

  lemma WaitsForDelete(s: State, env: Env)
    requires Inv(s) && DeleteChallenge in s.ami.pending
    ensures Advance(s, env).ami.pending == s.ami.pending
  {
    hide AdvanceNewCert, Report, Retry;
    if !s.failed {
      assert s.ami.pending == [DeleteChallenge] && s.clean.sent && !s.clean.done && s.acct.accounted;
      assert Configure(s, env) == CreateAccount(s, env) == Outcome(s, Go);
      ExpireSendsNothing(s, env);
    }
  }

  lemma ExpireSendsNothing(s: State, env: Env)
    ensures Expire(s, env).s.ami.pending == s.ami.pending && Expire(s, env).s.clean == s.clean
    ensures Renew(s, env).s.ami.pending == s.ami.pending && Renew(s, env).s.clean == s.clean
  {
  }

  lemma CallbackSendsNothing(s: State, i: nat, reply: Reply)
    requires i < |s.ami.pending|
    ensures Deliver(s, i, reply).ami.pending == s.ami.Answered(i).pending
  {
    hide GetBackoff;
  }

  lemma KeygenSendsNothing(s: State, ok: bool)
    ensures KeygenDone(s, ok).ami == s.ami
  {
  }

  /** After every call of am_advance_state in every run, a manager that goes on without an error has
      something to wait for, and what it waits for is what will wake it up. */
  lemma NeverStuck(disk: Disk, now: nat, evs: seq<Event>, env: Env)
    requires CanRun(Init(disk, now), evs) && Enabled(Run(Init(disk, now), evs), AdvanceState(env))
    ensures var s := Advance(Run(Init(disk, now), evs), env); !s.failed ==> Waiting(s, env.now)
  {
    hide Init, Run, CanRun, AdvanceGood, Waiting, Current, Sound;
    InitIsSound(disk, now);
    RunKeepsInv(Init(disk, now), evs);
    if !Run(Init(disk, now), evs).failed {
      AdvanceGoodAdvances(Run(Init(disk, now), evs), env);
    }
  }

  /** After every call of am_advance_state in every run, a certificate that is still served by a
      manager without an error has not expired. */
  lemma ServedCertIsCurrent(disk: Disk, now: nat, evs: seq<Event>, env: Env)
    requires CanRun(Init(disk, now), evs) && Enabled(Run(Init(disk, now), evs), AdvanceState(env))
    ensures var s := Advance(Run(Init(disk, now), evs), env);
      !s.failed && s.cert.active ==> env.now < s.cert.expiry
  {
    hide Init, Run, CanRun, AdvanceGood, Waiting, Sound;
    InitIsSound(disk, now);
    RunKeepsInv(Init(disk, now), evs);
    if !Run(Init(disk, now), evs).failed {
      AdvanceGoodAdvances(Run(Init(disk, now), evs), env);
    }
  }

  /** In every run without an error, each request that is outstanding comes after what it needs: a
      new order only after the old one has been looked at, a set-challenge after the authorization,
      a challenge once the DNS record is there, a finalize once there is also a key; and a
      delete-challenge only between attempts. */
  lemma RequestsComeInOrder(disk: Disk, now: nat, evs: seq<Event>)
    requires CanRun(Init(disk, now), evs)
    ensures var s := Run(Init(disk, now), evs);
      !s.failed ==>
        && (NewAccount in s.ami.pending ==> s.acct.configured && !s.acct.accounted)
        && (NewOrder in s.ami.pending ==> s.retry.reloaded)
        && (GetAuthz in s.ami.pending ==> s.retry.reloaded && s.nc.order.done)
        && (SetChallenge in s.ami.pending ==> s.nc.authz.done)
        && (Challenge in s.ami.pending || ChallengeFinish in s.ami.pending ==> s.nc.authz.done && s.nc.prepare.done)
        && (Finalize in s.ami.pending || FinalizeFromProcessing in s.ami.pending || FinalizeFromValid in s.ami.pending
            ==> s.nc.challenge.done && s.nc.keygen.done)
        && (DeleteChallenge in s.ami.pending ==> Idle(s.nc))
  {
    hide Init, Run, CanRun;
    InitIsSound(disk, now);
    RunKeepsInv(Init(disk, now), evs);
  }

  /** Key generations, on the other hand, may overlap: a failed attempt forgets that its own is
      still running. */
  lemma KeygensMayOverlap()
    ensures exists evs :: CanRun(Init(HasAccount(None), 0), evs) && Run(Init(HasAccount(None), 0), evs).ami.keygens == 2
  {
    hide Advance, Retry;
    var env := Env(0, Installed, true, true, None, NoOrder, None, None, true, None, true, false, false, false);
    var s0 := Init(HasAccount(None), 0);
    AttemptBegins(s0, env);
    var s1 := Advance(s0, env);
    var fails := Answer(0, NewOrderReply(Some(Network)));
    var s2 := Step(s1, fails);
    assert s2.nc.e == Some(Network) && s2.ami.keygens == 1;
    AttemptFails(s2, env);
    var s3 := Advance(s2, env);
    var later := env.(now := 15);
    AttemptBegins(s3, later);
    RunOfFour(s0, AdvanceState(env), fails, AdvanceState(env), AdvanceState(later));
  }

  /** Nothing comes before the attempt. */
  ghost predicate AttemptIsNext(s: State, env: Env) {
    && s.acct.configured && s.acct.accounted && !s.failed && s.cert.want && !s.cert.active
    && !s.clean.sent && env.now >= s.retry.until && !env.closesAtStatus
  }

  lemma AttemptBegins(s: State, env: Env)
    requires AttemptIsNext(s, env) && s.nc == FRESH && !s.retry.reloaded
    requires env.keygen == None && env.order == NoOrder
    ensures var t := Advance(s, env);
      && t == s.(nc := t.nc, retry := t.retry, ami := t.ami)
      && t.ami.pending == s.ami.pending + [NewOrder] && t.ami.keygens == s.ami.keygens + 1 && t.nc.e == None
      && t.retry.until == s.retry.until && t.retry.failures == s.retry.failures
  {
    var o := StartKeygen(s, env);
    assert o.flow == Go && o.s.ami.keygens == s.ami.keygens + 1;
    var o1 := CheckOrder(o.s, env);
    var o2 := ResumeOrder(o1.s);
    assert o2 == Reload(o.s, env) && o2.flow == Go;
    var o3 := CreateOrder(o2.s);
    assert Attempt(s, env) == o3 && o3.flow == Wait;
    assert Renew(s, env) == Expire(s, env) == Outcome(s, Go);
    assert AdvanceGood(s, env) == ObtainCert(s, env) == o3;
  }

  lemma AttemptFails(s: State, env: Env)
    requires AttemptIsNext(s, env) && s.nc.e == Some(Network) && s.retry.failures == 0
    ensures var t := Advance(s, env);
      && t.nc == FRESH && t.retry == Retries(env.now + 15, 1, false)
      && t == s.(nc := FRESH, retry := t.retry, ami := t.ami)
      && t.ami.pending == s.ami.pending && t.ami.keygens == s.ami.keygens
  {
    assert Attempt(s, env) == Outcome(s, Stop(Network));
    assert Renew(s, env) == Expire(s, env) == Outcome(s, Go);
    assert GetBackoff(1, CERT_DELAYS) == 15;
    assert AdvanceGood(s, env) == Outcome(Retry(s.(nc := FRESH), env), Wait);
  }

  lemma RunOfFour(s: State, a: Event, b: Event, c: Event, d: Event)
    requires Enabled(s, a) && Enabled(Step(s, a), b) && Enabled(Step(Step(s, a), b), c)
    requires Enabled(Step(Step(Step(s, a), b), c), d)
    ensures CanRun(s, [a, b, c, d])
    ensures Run(s, [a, b, c, d]) == Step(Step(Step(Step(s, a), b), c), d)
  {
    hide Enabled, Step;
    assert [a, b, c, d][1..] == [b, c, d] && [b, c, d][1..] == [c, d] && [c, d][1..] == [d] && [d][1..] == [];
    var t := Step(Step(Step(Step(s, a), b), c), d);
    assert CanRun(Step(Step(Step(s, a), b), c), [d]) && Run(Step(Step(Step(s, a), b), c), [d]) == t;
    assert CanRun(Step(Step(s, a), b), [c, d]) && Run(Step(Step(s, a), b), [c, d]) == t;
    assert CanRun(Step(s, a), [b, c, d]) && Run(Step(s, a), [b, c, d]) == t;
  }

  /* ---------- how many key generations run ---------- */

  /** What decides, before a call of am_advance_state, whether the call starts a key generation: the
      manager gets as far as its attempt, which has not been started, and the generation can be
      started. */
  predicate StartsAttempt(s: State, env: Env) {
    && !s.failed && s.acct.configured
    && (s.acct.accounted || (s.acct.done && env.now >= s.retry.until && env.accountSaved))
    && !(s.cert.active && env.now >= s.cert.expiry && env.closesAtExpiry)
    && (s.cert.want || (s.cert.active && env.now >= s.cert.expiry) || env.now >= s.cert.renewal)
    && !(s.clean.sent && !s.clean.done) && env.now >= s.retry.until
    && s.nc.e.None? && !s.nc.keygen.sent && env.keygen.None?
  }

  lemma StagesKeepKeygens(s: State, env: Env)
    ensures Reload(s, env).s.ami.keygens == s.ami.keygens
    ensures CreateOrder(s).s.ami.keygens == s.ami.keygens
    ensures PrepareDns(s, env).s.ami.keygens == s.ami.keygens
    ensures Respond(s).s.ami.keygens == s.ami.keygens
    ensures FinalizeOrder(s).s.ami.keygens == s.ami.keygens
  {
  }

  lemma AuthorizeKeepsKeygens(s: State)
    ensures Authorize(s).s.ami.keygens == s.ami.keygens
  {
  }

  lemma OrderToCertKeepsKeygens(s: State, env: Env)
    ensures OrderToCert(s, env).s.ami.keygens == s.ami.keygens
  {
    hide Reload, CreateOrder, Authorize, PrepareDns, Respond, FinalizeOrder;
    StagesKeepKeygens(s, env);
    var o := CreateOrder(s);
    if o.flow == Go {
      AuthorizeKeepsKeygens(o.s);
      o := Authorize(o.s);
      if o.flow == Go {
        StagesKeepKeygens(o.s, env);
        o := PrepareDns(o.s, env);
        if o.flow == Go {
          StagesKeepKeygens(o.s, env);
          o := Respond(o.s);
          if o.flow == Go {
            StagesKeepKeygens(o.s, env);
          }
        }
      }
    }
  }

  lemma AttemptKeygens(s: State, env: Env)
    ensures AdvanceNewCert(s, env).s.ami.keygens
         == s.ami.keygens + if s.nc.e.None? && !s.nc.keygen.sent && env.keygen.None? then 1 else 0
  {
    hide Reload, OrderToCert;
    var o := StartKeygen(s, env);
    if o.flow == Go {
      StagesKeepKeygens(o.s, env);
      o := Reload(o.s, env);
      if o.flow == Go {
        OrderToCertKeepsKeygens(o.s, env);
      }
    }
  }

  lemma ManagerKeepsKeygens(s: State, env: Env)
    ensures Retry(s, env).ami.keygens == s.ami.keygens
    ensures Report(s, env).s.ami.keygens == s.ami.keygens
    ensures CleanUp(s, env).s.ami.keygens == s.ami.keygens
  {
    hide GetBackoff, GetRenewal;
  }

  lemma PreparedForAttempt(s: State, env: Env)
    requires Inv(s) && !s.failed
    ensures var o := Prepared(s, env);
      && o.s.ami.keygens == s.ami.keygens
      && (if o.flow == Go
          then
            && o.s.nc == s.nc && o.s.clean == s.clean && o.s.retry.until == s.retry.until
            && (StartsAttempt(s, env) <==>
                  && o.s.cert.want && !(s.clean.sent && !s.clean.done) && env.now >= s.retry.until
                  && s.nc.e.None? && !s.nc.keygen.sent && env.keygen.None?)
          else !StartsAttempt(s, env))
  {
    hide Attempting, ExpectedOf, InOrder;
    ConfigureLeaves(s, env);
    var o := Configure(s, env);
    if o.flow == Go {
      CreateAccountLeaves(s, o.s, env);
    }
  }

  lemma ConfigureLeaves(s: State, env: Env)
    requires Inv(s) && !s.failed
    ensures var o := Configure(s, env);
      && o.s.ami.keygens == s.ami.keygens
      && (o.flow != Go ==> !s.acct.configured)
      && (o.flow == Go ==> o.s == s || (!s.acct.configured && !o.s.acct.accounted && !o.s.acct.done))
  {
  }

  lemma CreateAccountLeaves(s0: State, s: State, env: Env)
    requires Inv(s0) && !s0.failed
    requires s == s0 || (!s0.acct.configured && !s.acct.accounted && !s.acct.done)
    ensures var o := CreateAccount(s, env);
      && o.s.ami.keygens == s.ami.keygens
      && (o.flow != Go ==> !StartsAttempt(s0, env))
      && (o.flow == Go ==> s == s0 && !o.s.failed && s.acct.configured)
      && (o.flow == Go ==> o.s.nc == s.nc && o.s.clean == s.clean && o.s.cert == s.cert)
      && (o.flow == Go ==> o.s.retry.until == s.retry.until)
      && (o.flow == Go ==> s.acct.accounted || (s.acct.done && env.now >= s.retry.until && env.accountSaved))
  {
  }

  lemma AdvanceGoodKeygens(s: State, env: Env)
    requires Inv(s) && !s.failed
    ensures AdvanceGood(s, env).s.ami.keygens == s.ami.keygens + if StartsAttempt(s, env) then 1 else 0
  {
    hide Configure, CreateAccount, Expire, Renew, AdvanceNewCert, Retry, Report, CleanUp, Inv, StartsAttempt;
    PreparedForAttempt(s, env);
    var o := Prepared(s, env);
    if o.flow == Go {
      AttemptKeygens(o.s, env);
      ManagerKeepsKeygens(AdvanceNewCert(o.s, env).s, env);
      ManagerKeepsKeygens(ObtainCert(o.s, env).s, env);
    }
  }

  /** In every reachable state, a call of am_advance_state starts one key generation if the guard says
      so, and none otherwise; so two run after it if and only if they did before, or one did and
      another is started. */
  lemma KeygensAfterAdvance(disk: Disk, now: nat, evs: seq<Event>, env: Env)
    requires CanRun(Init(disk, now), evs)
    ensures var s := Run(Init(disk, now), evs);
      && Advance(s, env).ami.keygens == s.ami.keygens + (if StartsAttempt(s, env) then 1 else 0)
      && (Advance(s, env).ami.keygens > 1 <==>
            s.ami.keygens > 1 || (s.ami.keygens == 1 && StartsAttempt(s, env)))
  {
    hide Init, Run, CanRun, Inv, Advance, StartsAttempt;
    InitIsSound(disk, now);
    RunKeepsInv(Init(disk, now), evs);
    AdvanceKeygens(Run(Init(disk, now), evs), env);
  }

  lemma AdvanceKeygens(s: State, env: Env)
    requires Inv(s)
    ensures Advance(s, env).ami.keygens == s.ami.keygens + if StartsAttempt(s, env) then 1 else 0
  {
    hide AdvanceGood, Inv;
    if !s.failed {
      AdvanceGoodKeygens(s, env);
    }
  }

  /** At most one key generation is ever under way in this run. */
  ghost predicate NeverTwoKeygens(s: State, evs: seq<Event>)
    requires CanRun(s, evs)
    decreases evs
  {
    s.ami.keygens <= 1 && (evs != [] ==> NeverTwoKeygens(Step(s, evs[0]), evs[1..]))
  }

  /** No call in this run starts an attempt while a key generation is under way. */
  ghost predicate NeverStartsEarly(s: State, evs: seq<Event>)
    requires CanRun(s, evs)
    decreases evs
  {
    evs != [] ==>
      && (evs[0].AdvanceState? && StartsAttempt(s, evs[0].env) ==> s.ami.keygens == 0)
      && NeverStartsEarly(Step(s, evs[0]), evs[1..])
  }

  /** Key generations never overlap in a run if and only if no call of it starts an attempt while one
      is under way. */
  lemma OverlapIsAnEarlyStart(disk: Disk, now: nat, evs: seq<Event>)
    requires CanRun(Init(disk, now), evs)
    ensures NeverTwoKeygens(Init(disk, now), evs) <==> NeverStartsEarly(Init(disk, now), evs)
  {
    InitIsSound(disk, now);
    OverlapFrom(Init(disk, now), evs);
  }

  lemma {:induction false} OverlapFrom(s: State, evs: seq<Event>)
    requires Inv(s) && CanRun(s, evs) && s.ami.keygens <= 1
    ensures NeverTwoKeygens(s, evs) <==> NeverStartsEarly(s, evs)
    decreases evs
  {
    hide Inv, Step, Enabled, StartsAttempt;
    if evs != [] {
      StepKeepsInv(s, evs[0]);
      StepKeygens(s, evs[0]);
      if Step(s, evs[0]).ami.keygens <= 1 {
        OverlapFrom(Step(s, evs[0]), evs[1..]);
      } else {
        assert !NeverTwoKeygens(Step(s, evs[0]), evs[1..]);
      }
    }
  }

  lemma StepKeygens(s: State, ev: Event)
    requires Inv(s) && Enabled(s, ev)
    ensures Step(s, ev).ami.keygens
         == match ev
            case AdvanceState(env) => s.ami.keygens + (if StartsAttempt(s, env) then 1 else 0)
            case KeygenEnds(_) => s.ami.keygens - 1
            case _ => s.ami.keygens
  {
    hide Advance, Deliver, KeygenDone, Inv, StartsAttempt;
    match ev {
      case AdvanceState(env) => AdvanceKeygens(s, env);
      case Answer(i, reply) => DeliverKeepsKeygens(s, i, reply);
      case KeygenEnds(ok) => KeygenSendsNothing(s.(ami := s.ami.(keygens := s.ami.keygens - 1)), ok);
      case _ =>
    }
  }

  lemma DeliverKeepsKeygens(s: State, i: nat, reply: Reply)
    requires i < |s.ami.pending|
    ensures Deliver(s, i, reply).ami.keygens == s.ami.keygens
  {
    hide GetBackoff;
  }
}
