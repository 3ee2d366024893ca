/** The ACME certificate manager of libcitm/acme_manager.c as a state machine: what every callback
    and every call of am_advance_state makes of the manager's flags, and what it asks of the
    outside.  The class AcmeManager does the same in place. */
module AcmeState {
  import opened Bytes

  /** Errors, as far as the manager tells them apart: E_SOCK and E_CONN, E_RESPONSE, all others. */
  datatype Err = Network | Response | Other

  datatype AcmeStatus = Invalid | Revoked | Deactivated | Expired | Pending | Ready | Processing | Validated

  /** The asynchronous requests.  A challenge may be answered or, if it was answered before, waited
      for; an order may be finalized, or picked up while it is processed or once it is valid. */
  datatype Request = NewAccount | GetOrder | NewOrder | GetAuthz | Challenge | ChallengeFinish
                   | Finalize | FinalizeFromProcessing | FinalizeFromValid
                   | SetChallenge | DeleteChallenge

  datatype Timers = Timers(cert: int, backoff: int, unprepare: int)

  /** What the manager's interface holds.  `busy` remembers that some request was ever started
      while another was outstanding; `dirty`, that a set-challenge was started since the last
      delete-challenge that succeeded. */
  datatype Outside = Outside(pending: seq<Request>, busy: bool, dirty: bool, keygens: nat, timers: Timers)
  {
    function Send(r: Request): Outside {
      this.(pending := pending + [r], busy := busy || pending != [], dirty := dirty || r == SetChallenge)
    }

    /** The request number `i` is over. */
    function Answered(i: nat): Outside
      requires i < |pending|
    {
      this.(pending := pending[..i] + pending[i + 1..])
    }
  }

  /** A stage of an attempt: whether it was started, and whether it is over. */
  datatype Stage = Stage(sent: bool, done: bool)

  const UNSENT := Stage(false, false)

  /** The stage of get_authz knows its response before it is done. */
  datatype Authz = Authz(sent: bool, resp: bool, done: bool)

  /** new_cert_t: one attempt to get a certificate. */
  datatype NewCert = NewCert(
    e: Option<Err>, orderStatus: AcmeStatus, challengeStatus: AcmeStatus,
    keygen: Stage, check: Stage, order: Stage, authz: Authz,
    prepare: Stage, challenge: Stage, finalize: Stage)
  {
    /** The first error stays. */
    function Raise(err: Option<Err>): NewCert {
      if e.Some? then this else this.(e := err)
    }
  }

  const FRESH := NewCert(None, Invalid, Invalid, UNSENT, UNSENT, UNSENT, Authz(false, false, false),
                         UNSENT, UNSENT, UNSENT)

  datatype Life = Life(closeSent: bool, closeDone: bool, freed: bool)
  datatype Account = Account(configured: bool, accounted: bool, sent: bool, done: bool)
  datatype Cert = Cert(active: bool, want: bool, expiry: int, renewal: int)
  datatype Retries = Retries(until: int, failures: nat, reloaded: bool)
  datatype Cleanup = Cleanup(sent: bool, done: bool, after: int)

  /** acme_manager_t, its flags in groups. */
  datatype State = State(
    failed: bool, life: Life, acct: Account, cert: Cert, retry: Retries, clean: Cleanup,
    nc: NewCert, ami: Outside)
  {
    function Send(r: Request): State {
      this.(ami := ami.Send(r))
    }

    /** backoff() */
    function Backoff(now: int, delay: int): State {
      this.(retry := retry.(until := now + delay), ami := ami.(timers := ami.timers.(backoff := now + delay)))
    }
  }

  datatype Installation = Installed | NotInstalled | InstallationFailed
  datatype OrderFile = OrderLoaded | NoOrder | OrderFailed(err: Err)

  /** What one call of am_advance_state meets: the clock, the outcome of each file operation it
      may do, and whether the owner closes the manager from inside of a callback. */
  datatype Env = Env(
    now: nat, installation: Installation, jwkOk: bool, accountSaved: bool,
    keygen: Option<Err>, order: OrderFile, prepareNonce: Option<Err>, certSaved: Option<Err>,
    certLoads: bool, dates: Option<(int, int)>, unprepareNonceOk: bool,
    closesAtExpiry: bool, closesAtUpdate: bool, closesAtStatus: bool)

  /** How a piece of the advance code ends: go on with the next, return, or return an error. */
  datatype Flow = Go | Wait | Stop(err: Err)
  datatype Outcome = Outcome(s: State, flow: Flow)

  function GetBackoff(attempts: nat, backoffs: seq<int>): int {
    if backoffs == [] then 0
    else if attempts > |backoffs| then backoffs[|backoffs| - 1]
    else if attempts == 0 then backoffs[0]
    else backoffs[attempts - 1]
  }

  const ACCOUNT_DELAYS := [1, 5, 15, 30, 45, 60]
  const CERT_DELAYS := [15, 30, 60, 5 * 60, 15 * 60, 30 * 60]

  function GetRenewal(issue: int, expiry: int): int {
    if expiry < issue then 0 else issue + 2 * (expiry - issue) / 3
  }

  /* ---------- advance_new_cert, step by step ---------- */

  function StartKeygen(s: State, env: Env): Outcome {
    if s.nc.e.Some? then Outcome(s, Stop(s.nc.e.value))
    else if s.nc.keygen.sent then Outcome(s, Go)
    else
      var s := s.(nc := s.nc.(keygen := s.nc.keygen.(sent := true)));
      if env.keygen.Some? then Outcome(s, Stop(env.keygen.value))
      else Outcome(s.(ami := s.ami.(keygens := s.ami.keygens + 1)), Go)
  }

  /** Ask for the order on file, once. */
  function CheckOrder(s: State, env: Env): Outcome {
    if s.nc.check.sent then Outcome(s, Go)
    else
      var s := s.(nc := s.nc.(check := s.nc.check.(sent := true), orderStatus := Invalid));
      match env.order
      case OrderFailed(err) => Outcome(s, Stop(err))
      case NoOrder => Outcome(s.(nc := s.nc.(check := s.nc.check.(done := true))), Go)
      case OrderLoaded => Outcome(s.Send(GetOrder), Go)
  }

  function Resumed(s: State, nc: NewCert): State {
    s.(nc := nc, retry := s.retry.(reloaded := true))
  }

  function PastChallenge(nc: NewCert): NewCert {
    nc.(order := nc.order.(done := true), authz := nc.authz.(done := true),
        prepare := nc.prepare.(done := true), challenge := nc.challenge.(done := true))
  }

  /** Pick up the old order where it was left. */
  function ResumeOrder(s: State): Outcome {
    if !s.nc.check.done then Outcome(s, Wait)
    else match s.nc.orderStatus
      case Pending =>
        Outcome(Resumed(s, s.nc.(order := s.nc.order.(done := true))), Go)
      case Ready =>
        Outcome(Resumed(s, PastChallenge(s.nc)), Go)
      case Processing | Validated =>
        if !s.nc.keygen.done then Outcome(s, Wait)
        else
          var nc := PastChallenge(s.nc);
          var r := if s.nc.orderStatus == Processing then FinalizeFromProcessing else FinalizeFromValid;
          Outcome(Resumed(s.Send(r), nc.(finalize := nc.finalize.(sent := true))), Go)
      case _ => Outcome(Resumed(s, s.nc), Go)
  }

  function Reload(s: State, env: Env): Outcome {
    if s.retry.reloaded then Outcome(s, Go)
    else
      var o := CheckOrder(s, env);
      if o.flow != Go then o else ResumeOrder(o.s)
  }

  function CreateOrder(s: State): Outcome {
    if s.nc.order.done then Outcome(s, Go)
    else if s.nc.order.sent then Outcome(s, Wait)
    else Outcome(s.(nc := s.nc.(order := s.nc.order.(sent := true))).Send(NewOrder), Wait)
  }

  function Authorize(s: State): Outcome {
    if s.nc.authz.done then Outcome(s, Go)
    else if !s.nc.authz.sent then
      var s := s.(nc := s.nc.(authz := s.nc.authz.(sent := true))).Send(GetAuthz);
      if s.nc.authz.resp then Authorized(s) else Outcome(s, Wait)
    else if !s.nc.authz.resp then Outcome(s, Wait)
    else Authorized(s)
  }

  function Authorized(s: State): Outcome {
    var nc := s.nc.(authz := s.nc.authz.(done := true));
    match s.nc.challengeStatus
    case Pending => Outcome(s.(nc := nc), Go)
    case Processing =>
      var nc := nc.(prepare := nc.prepare.(done := true), challenge := nc.challenge.(sent := true));
      Outcome(s.Send(ChallengeFinish).(nc := nc), Go)
    case Validated =>
      Outcome(s.(nc := nc.(prepare := nc.prepare.(done := true), challenge := nc.challenge.(done := true))), Go)
    case _ => Outcome(s, Stop(Response))
  }

  function PrepareDns(s: State, env: Env): Outcome {
    if s.nc.prepare.done then Outcome(s, Go)
    else if s.nc.prepare.sent then Outcome(s, Wait)
    else
      var s := s.(nc := s.nc.(prepare := s.nc.prepare.(sent := true)));
      if env.prepareNonce.Some? then Outcome(s, Stop(env.prepareNonce.value))
      else
        Outcome(s.Send(SetChallenge).(clean := Cleanup(false, false, 0)), Wait)
  }

  function Respond(s: State): Outcome {
    if s.nc.challenge.done then Outcome(s, Go)
    else if s.nc.challenge.sent then Outcome(s, Wait)
    else Outcome(s.(nc := s.nc.(challenge := s.nc.challenge.(sent := true))).Send(Challenge), Wait)
  }

  function FinalizeOrder(s: State): Outcome {
    if !s.nc.keygen.done then Outcome(s, Wait)
    else if s.nc.finalize.done then Outcome(s, Go)
    else if s.nc.finalize.sent then Outcome(s, Wait)
    else Outcome(s.(nc := s.nc.(finalize := s.nc.finalize.(sent := true))).Send(Finalize), Wait)
  }

  function SaveCert(s: State, env: Env): Outcome {
    Outcome(s, if env.certSaved.Some? then Stop(env.certSaved.value) else Go)
  }

  /** From new_order on. */
  function OrderToCert(s: State, env: Env): Outcome {
    var o := CreateOrder(s);
    var o := if o.flow == Go then Authorize(o.s) else o;
    var o := if o.flow == Go then PrepareDns(o.s, env) else o;
    var o := if o.flow == Go then Respond(o.s) else o;
    var o := if o.flow == Go then FinalizeOrder(o.s) else o;
    if o.flow == Go then SaveCert(o.s, env) else o
  }

  function Attempt(s: State, env: Env): Outcome {
    var o := StartKeygen(s, env);
    var o := if o.flow == Go then Reload(o.s, env) else o;
    if o.flow == Go then OrderToCert(o.s, env) else o
  }

  /** An attempt that is over, either way, leaves nothing behind. */
  function AdvanceNewCert(s: State, env: Env): Outcome {
    var o := Attempt(s, env);
    if o.flow == Wait then o else o.(s := o.s.(nc := FRESH))
  }

  /* ---------- am_advance_good, step by step ---------- */

  function Configure(s: State, env: Env): Outcome {
    if s.acct.configured then Outcome(s, Go)
    else if env.now < s.retry.until then Outcome(s, Wait)
    else match env.installation
      case InstallationFailed => Outcome(s, Stop(Other))
      case NotInstalled => Outcome(s.Backoff(env.now, 5), Wait)
      case Installed => Outcome(s.(acct := s.acct.(configured := true), cert := s.cert.(want := true)), Go)
  }

  function CreateAccount(s: State, env: Env): Outcome {
    if s.acct.accounted then Outcome(s, Go)
    else if env.now < s.retry.until then Outcome(s, Wait)
    else if !s.acct.sent && !env.jwkOk then Outcome(s.(acct := s.acct.(sent := true)), Stop(Other))
    else
      var s := if s.acct.sent then s else s.(acct := s.acct.(sent := true)).Send(NewAccount);
      if !s.acct.done then Outcome(s, Wait)
      else if !env.accountSaved then Outcome(s, Stop(Other))
      else Outcome(s.(acct := s.acct.(accounted := true), retry := s.retry.(reloaded := true)), Go)
  }

  function Expire(s: State, env: Env): Outcome {
    if !(s.cert.active && env.now >= s.cert.expiry) then Outcome(s, Go)
    else
      var s := s.(cert := s.cert.(active := false, want := true));
      if env.closesAtExpiry then Outcome(s.(failed := true), Stop(Other)) else Outcome(s, Go)
  }

  function CertTimer(s: State, deadline: int): State {
    s.(ami := s.ami.(timers := s.ami.timers.(cert := deadline)))
  }

  function Renew(s: State, env: Env): Outcome {
    if !s.cert.want && env.now >= s.cert.renewal
    then Outcome(CertTimer(s.(cert := s.cert.(want := true)), s.cert.expiry), Go)
    else Outcome(s, Go)
  }

  /** A failure that a later attempt may not meet again. */
  function Retry(s: State, env: Env): State {
    s.(retry := s.retry.(failures := s.retry.failures + 1, reloaded := false))
     .Backoff(env.now, GetBackoff(s.retry.failures + 1, CERT_DELAYS))
  }

  /** Report the new certificate and set the timer for its renewal. */
  function Report(s: State, env: Env): Outcome {
    var s := s.(cert := s.cert.(want := false), retry := s.retry.(failures := 0));
    if !env.certLoads then Outcome(s, Stop(Other))
    else
      var s := s.(cert := s.cert.(active := true));
      if env.closesAtUpdate then Outcome(s.(failed := true), Stop(Other))
      else if env.dates.None? then Outcome(s, Stop(Other))
      else
        var (issue, expiry) := env.dates.value;
        var s := s.(cert := s.cert.(expiry := expiry, renewal := GetRenewal(issue, expiry)));
        if env.now >= s.cert.renewal then Outcome(s, Stop(Other))
        else Outcome(CertTimer(s, s.cert.renewal), Go)
  }

  function ObtainCert(s: State, env: Env): Outcome {
    if !s.cert.want then Outcome(s, Go)
    else if s.clean.sent && !s.clean.done then Outcome(s, Wait)
    else if env.now < s.retry.until then Outcome(s, Wait)
    else
      var o := AdvanceNewCert(s, env);
      match o.flow
      case Wait => o
      case Stop(err) => if err == Other then o else Outcome(Retry(o.s, env), Wait)
      case Go => Report(o.s, env)
  }

  function CleanUp(s: State, env: Env): Outcome {
    if s.clean.done || env.now < s.clean.after || s.clean.sent then Outcome(s, Wait)
    else
      var s := s.(clean := s.clean.(sent := true));
      if !env.unprepareNonceOk then Outcome(s, Stop(Other)) else Outcome(s.Send(DeleteChallenge), Wait)
  }

  /** What comes before the attempt in am_advance_good. */
  function Prepared(s: State, env: Env): Outcome {
    var o := Configure(s, env);
    var o := if o.flow == Go then CreateAccount(o.s, env) else o;
    var o := if o.flow == Go then Expire(o.s, env) else o;
    if o.flow == Go then Renew(o.s, env) else o
  }

  /** The attempt and what comes after it. */
  function Concluded(s: State, env: Env): Outcome {
    var o := ObtainCert(s, env);
    if o.flow == Go then CleanUp(o.s, env) else o
  }

  function AdvanceGood(s: State, env: Env): Outcome {
    var o := Prepared(s, env);
    if o.flow == Go then Concluded(o.s, env) else o
  }

  /** The end of am_advance_state once there is an error: close, and when that is done, be freed. */
  function ShutDown(s: State): State {
    if !s.life.closeDone then s.(life := s.life.(closeSent := true)) else s.(life := s.life.(freed := true))
  }

  /** am_advance_state */
  function Advance(s: State, env: Env): State {
    if s.failed then ShutDown(s)
    else
      var o := AdvanceGood(s, env);
      if o.flow.Stop? || env.closesAtStatus then ShutDown(o.s.(failed := true)) else o.s
  }

  /* ---------- callbacks ---------- */

  datatype PrepareResult = PrepareOk | PrepareTimeout | PrepareError(err: Err)

  /** The outcome of a request, with what else its callback meets. */
  datatype Reply =
    | AccountReply(err: Option<Err>, now: nat)
    | GetOrderReply(ours: bool, status: AcmeStatus)
    | NewOrderReply(err: Option<Err>)
    | AuthzReply(err: Option<Err>, status: AcmeStatus)
    | ChallengeReply(err: Option<Err>)
    | FinalizeReply(err: Option<Err>)
    | PrepareReply(result: PrepareResult)
    | UnprepareReply(ok: bool, now: nat)
  {
    /** Whether this is the callback of a request. */
    predicate Answers(r: Request) {
      match this
      case AccountReply(_, _) => r == NewAccount
      case GetOrderReply(_, _) => r == GetOrder
      case NewOrderReply(_) => r == NewOrder
      case AuthzReply(_, _) => r == GetAuthz
      case ChallengeReply(_) => r == Challenge || r == ChallengeFinish
      case FinalizeReply(_) => r == Finalize || r == FinalizeFromProcessing || r == FinalizeFromValid
      case PrepareReply(_) => r == SetChallenge
      case UnprepareReply(_, _) => r == DeleteChallenge
    }
  }

  /** am_new_account_done */
  function NewAccountDone(s: State, err: Option<Err>, now: nat): State {
    if err == Some(Network) then
      s.(retry := s.retry.(failures := s.retry.failures + 1), acct := s.acct.(sent := false))
       .Backoff(now, GetBackoff(s.retry.failures + 1, ACCOUNT_DELAYS))
    else if err.Some? || s.failed then s.(failed := true)
    else s.(retry := s.retry.(failures := 0), acct := s.acct.(done := true))
  }

  /** am_get_order_done; an error is no different from an order for another domain. */
  function GetOrderDone(s: State, ours: bool, status: AcmeStatus): State {
    var nc := s.nc.(check := s.nc.check.(done := true));
    s.(nc := if ours then nc.(orderStatus := status) else nc)
  }

  /** am_new_order_done; failing to write the order to its file is an error too. */
  function NewOrderDone(s: State, err: Option<Err>): State {
    var nc := s.nc.Raise(err);
    s.(nc := if nc.e.Some? then nc else nc.(order := nc.order.(done := true)))
  }

  /** am_get_authz_done */
  function GetAuthzDone(s: State, err: Option<Err>, status: AcmeStatus): State {
    var nc := s.nc.Raise(err);
    s.(nc := if nc.e.Some? then nc else nc.(challengeStatus := status, authz := nc.authz.(resp := true)))
  }

  /** am_challenge_done */
  function ChallengeDone(s: State, err: Option<Err>): State {
    var nc := s.nc.Raise(err);
    s.(nc := if nc.e.Some? then nc else nc.(challenge := nc.challenge.(done := true)))
  }

  /** am_finalize_done */
  function FinalizeDone(s: State, err: Option<Err>): State {
    var nc := s.nc.Raise(err);
    s.(nc := if nc.e.Some? then nc else nc.(finalize := nc.finalize.(done := true)))
  }

  /** am_prepare_done; the server may say "timeout", which is not an error. */
  function PrepareDone(s: State, result: PrepareResult): State {
    if s.nc.e.Some? then s
    else match result
      case PrepareOk => s.(nc := s.nc.(prepare := s.nc.prepare.(done := true)))
      case PrepareTimeout => s.(nc := s.nc.(prepare := s.nc.prepare.(sent := false)))
      case PrepareError(err) => s.(nc := s.nc.Raise(Some(err)))
  }

  /** am_unprepare_done */
  function UnprepareDone(s: State, ok: bool, now: nat): State {
    if s.failed then s
    else if ok then s.(clean := s.clean.(done := true))
    else s.(clean := s.clean.(sent := false, after := now + 600),
            ami := s.ami.(timers := s.ami.timers.(unprepare := now + 600)))
  }

  function Callback(s: State, reply: Reply): State {
    match reply
    case AccountReply(err, now) => NewAccountDone(s, err, now)
    case GetOrderReply(ours, status) => GetOrderDone(s, ours, status)
    case NewOrderReply(err) => NewOrderDone(s, err)
    case AuthzReply(err, status) => GetAuthzDone(s, err, status)
    case ChallengeReply(err) => ChallengeDone(s, err)
    case FinalizeReply(err) => FinalizeDone(s, err)
    case PrepareReply(result) => PrepareDone(s, result)
    case UnprepareReply(ok, now) => UnprepareDone(s, ok, now)
  }

  /** Request number `i` is answered: it is over, and its callback runs. */
  function Deliver(s: State, i: nat, reply: Reply): State
    requires i < |s.ami.pending|
  {
    var ami := s.ami.Answered(i);
    var ami := if reply.UnprepareReply? && reply.ok then ami.(dirty := false) else ami;
    Callback(s.(ami := ami), reply)
  }

  /** am_keygen_done */
  function KeygenDone(s: State, ok: bool): State {
    if !ok || s.failed then s.(failed := true) else s.(nc := s.nc.(keygen := s.nc.keygen.(done := true)))
  }

  /** am_check */
  function Check(s: State): State {
    if s.acct.configured then s else s.(retry := s.retry.(until := 0))
  }

  /* ---------- runs ---------- */

  datatype Event =
    | AdvanceState(env: Env)
    | Answer(i: nat, reply: Reply)
    | KeygenEnds(ok: bool)
    | CheckNow
    | Close
    | CloseDone

  /** What the outside may do: answer a request that is outstanding, end a key generation that is
      running, finish a close that was asked for; anything else at any time. */
  predicate Enabled(s: State, ev: Event) {
    && !s.life.freed
    && match ev
       case Answer(i, reply) => i < |s.ami.pending| && reply.Answers(s.ami.pending[i])
       case KeygenEnds(_) => s.ami.keygens > 0
       case CloseDone => s.life.closeSent
       case _ => true
  }

  function Step(s: State, ev: Event): State
    requires Enabled(s, ev)
  {
    match ev
    case AdvanceState(env) => Advance(s, env)
    case Answer(i, reply) => Deliver(s, i, reply)
    case KeygenEnds(ok) => KeygenDone(s.(ami := s.ami.(keygens := s.ami.keygens - 1)), ok)
    case CheckNow => Check(s)
    case Close => s.(failed := true)
    case CloseDone => s.(life := s.life.(closeDone := true))
  }

  predicate CanRun(s: State, evs: seq<Event>)
    decreases evs
  {
    evs == [] || (Enabled(s, evs[0]) && CanRun(Step(s, evs[0]), evs[1..]))
  }

  function Run(s: State, evs: seq<Event>): State
    requires CanRun(s, evs)
    decreases evs
  {
    if evs == [] then s else Run(Step(s, evs[0]), evs[1..])
  }

  /* ---------- acme_manager_init ---------- */

  /** What is on disk when the manager starts: no installation yet, an installation without an
      account, or both; the dates (issue and expiry) of a certificate that is ours, if any. */
  datatype Disk = NoInstallation | NoAccount | HasAccount(dates: Option<(int, int)>)

  const ZERO := State(
    false, Life(false, false, false), Account(false, false, false, false), Cert(false, false, 0, 0),
    Retries(0, 0, false), Cleanup(false, false, 0), FRESH,
    Outside([], false, true, 0, Timers(0, 0, 0)))

  function Init(disk: Disk, now: nat): State {
    match disk
    case NoInstallation => ZERO.Backoff(now, 5)
    case NoAccount => ZERO.(acct := ZERO.acct.(configured := true))
    case HasAccount(dates) =>
      var s := ZERO.(acct := ZERO.acct.(configured := true, accounted := true));
      if dates.None? then s.(cert := s.cert.(want := true))
      else InitWithCert(s, dates.value.0, dates.value.1, now)
  }

  function InitWithCert(s: State, issue: int, expiry: int, now: nat): State {
    var s := s.(cert := s.cert.(expiry := expiry, renewal := GetRenewal(issue, expiry)));
    if now >= expiry then s.(cert := s.cert.(want := true))
    else if now >= s.cert.renewal then CertTimer(s.(cert := s.cert.(active := true, want := true)), expiry)
    else CertTimer(s.(cert := s.cert.(active := true)), s.cert.renewal)
  }
}
