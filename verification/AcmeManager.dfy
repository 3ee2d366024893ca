/** The ACME certificate manager as the object that libcitm/acme_manager.c updates in place. */
module AcmeManager {
  import opened Bytes
  import opened AcmeState
  import opened AcmeInvariants

  class Manager {
    var failed: bool
    var life: Life
    var acct: Account
    var cert: Cert
    var retry: Retries
    var clean: Cleanup
    var nc: NewCert
    var ami: Outside

    ghost function Abs(): State
      reads this
    {
      State(failed, life, acct, cert, retry, clean, nc, ami)
    }

    ghost predicate Valid()
      reads this
    {
      Inv(Abs())
    }

    /** acme_manager_init, when nothing fails */
    constructor (disk: Disk, now: nat)
      ensures Valid() && Abs() == Init(disk, now)
    {
      failed, life := false, Life(false, false, false);
      acct := Account(!disk.NoInstallation?, disk.HasAccount?, false, false);
      cert, retry, clean, nc := Cert(false, false, 0, 0), Retries(0, 0, false), Cleanup(false, false, 0), FRESH;
      ami := Outside([], false, true, 0, Timers(0, 0, 0));
      if disk.NoInstallation? {
        retry, ami := Retries(now + 5, 0, false), Outside([], false, true, 0, Timers(0, now + 5, 0));
      } else if disk.HasAccount? {
        if disk.dates.None? {
          cert := Cert(false, true, 0, 0);
        } else {
          var (issue, expiry) := disk.dates.value;
          var renewal := GetRenewal(issue, expiry);
          if now >= expiry {
            cert := Cert(false, true, expiry, renewal);
          } else if now >= renewal {
            cert, ami := Cert(true, true, expiry, renewal), Outside([], false, true, 0, Timers(expiry, 0, 0));
          } else {
            cert, ami := Cert(true, false, expiry, renewal), Outside([], false, true, 0, Timers(renewal, 0, 0));
          }
        }
      }
      new;
      InitIsSound(disk, now);
    }

    method Backoff(now: int, delay: int)
      modifies this
      ensures Abs() == old(Abs()).Backoff(now, delay)
    {
      retry := retry.(until := now + delay);
      ami := ami.(timers := ami.timers.(backoff := retry.until));
    }

    /* ---------- advance_new_cert ---------- */

    method StartKeygen(env: Env) returns (flow: Flow)
      modifies this
      ensures Outcome(Abs(), flow) == AcmeState.StartKeygen(old(Abs()), env)
    {
      if nc.e.Some? {
        return Stop(nc.e.value);
      }
      if !nc.keygen.sent {
        nc := nc.(keygen := nc.keygen.(sent := true));
        if env.keygen.Some? {
          return Stop(env.keygen.value);
        }
        ami := ami.(keygens := ami.keygens + 1);
      }
      flow := Go;
    }

    method CheckOrder(env: Env) returns (flow: Flow)
      modifies this
      ensures Outcome(Abs(), flow) == AcmeState.CheckOrder(old(Abs()), env)
    {
      if !nc.check.sent {
        nc := nc.(check := nc.check.(sent := true), orderStatus := Invalid);
        match env.order {
          case OrderFailed(err) =>
            return Stop(err);
          case NoOrder =>
            nc := nc.(check := nc.check.(done := true));
          case OrderLoaded =>
            ami := ami.Send(GetOrder);
        }
      }
      flow := Go;
    }

    method SkipChallenge()
      modifies this`nc
      ensures nc == PastChallenge(old(nc))
    {
      nc := nc.(order := nc.order.(done := true));
      nc := nc.(authz := nc.authz.(done := true));
      nc := nc.(prepare := nc.prepare.(done := true));
      nc := nc.(challenge := nc.challenge.(done := true));
    }

    method ResumeOrder() returns (flow: Flow)
      modifies this
      ensures Outcome(Abs(), flow) == AcmeState.ResumeOrder(old(Abs()))
    {
      if !nc.check.done {
        return Wait;
      }
      if nc.orderStatus == Pending {
        nc := nc.(order := nc.order.(done := true));
      } else if nc.orderStatus == Ready {
        SkipChallenge();
      } else if nc.orderStatus == Processing || nc.orderStatus == Validated {
        if !nc.keygen.done {
          return Wait;
        }
        ami := ami.Send(if nc.orderStatus == Processing then FinalizeFromProcessing else FinalizeFromValid);
        SkipChallenge();
        nc := nc.(finalize := nc.finalize.(sent := true));
      }
      retry := retry.(reloaded := true);
      flow := Go;
    }

    method Reload(env: Env) returns (flow: Flow)
      modifies this
      ensures Outcome(Abs(), flow) == AcmeState.Reload(old(Abs()), env)
    {
      hide AcmeState.CheckOrder, AcmeState.ResumeOrder;
      if retry.reloaded {
        return Go;
      }
      flow := CheckOrder(env);
      if flow == Go {
        flow := ResumeOrder();
      }
    }

    method CreateOrder() returns (flow: Flow)
      modifies this
      ensures Outcome(Abs(), flow) == AcmeState.CreateOrder(old(Abs()))
    {
      if nc.order.done {
        return Go;
      }
      if !nc.order.sent {
        nc := nc.(order := nc.order.(sent := true));
        ami := ami.Send(NewOrder);
      }
      flow := Wait;
    }

    method Authorize() returns (flow: Flow)
      modifies this
      ensures Outcome(Abs(), flow) == AcmeState.Authorize(old(Abs()))
    {
      hide AcmeState.Authorized;
      if nc.authz.done {
        return Go;
      }
      if !nc.authz.sent {
        nc := nc.(authz := nc.authz.(sent := true));
        ami := ami.Send(GetAuthz);
      }
      if !nc.authz.resp {
        return Wait;
      }
      flow := Authorized();
    }

    method Authorized() returns (flow: Flow)
      modifies this
      ensures Outcome(Abs(), flow) == AcmeState.Authorized(old(Abs()))
    {
      if nc.challengeStatus == Processing {
        ami := ami.Send(ChallengeFinish);
        nc := nc.(prepare := nc.prepare.(done := true), challenge := nc.challenge.(sent := true));
      } else if nc.challengeStatus == Validated {
        nc := nc.(prepare := nc.prepare.(done := true), challenge := nc.challenge.(done := true));
      } else if nc.challengeStatus != Pending {
        return Stop(Response);
      }
      nc := nc.(authz := nc.authz.(done := true));
      flow := Go;
    }

    method PrepareDns(env: Env) returns (flow: Flow)
      modifies this
      ensures Outcome(Abs(), flow) == AcmeState.PrepareDns(old(Abs()), env)
    {
      if nc.prepare.done {
        return Go;
      }
      if !nc.prepare.sent {
        nc := nc.(prepare := nc.prepare.(sent := true));
        if env.prepareNonce.Some? {
          return Stop(env.prepareNonce.value);
        }
        ami := ami.Send(SetChallenge);
        clean := Cleanup(false, false, 0);
      }
      flow := Wait;
    }

    method Respond() returns (flow: Flow)
      modifies this
      ensures Outcome(Abs(), flow) == AcmeState.Respond(old(Abs()))
    {
      if nc.challenge.done {
        return Go;
      }
      if !nc.challenge.sent {
        nc := nc.(challenge := nc.challenge.(sent := true));
        ami := ami.Send(Challenge);
      }
      flow := Wait;
    }

    method FinalizeOrder() returns (flow: Flow)
      modifies this
      ensures Outcome(Abs(), flow) == AcmeState.FinalizeOrder(old(Abs()))
    {
      if !nc.keygen.done {
        return Wait;
      }
      if nc.finalize.done {
        return Go;
      }
      if !nc.finalize.sent {
        nc := nc.(finalize := nc.finalize.(sent := true));
        ami := ami.Send(Finalize);
      }
      flow := Wait;
    }

    method Attempt(env: Env) returns (flow: Flow)
      modifies this
      ensures Outcome(Abs(), flow) == AcmeState.Attempt(old(Abs()), env)
    {
      hide AcmeState.StartKeygen, AcmeState.Reload, AcmeState.CreateOrder, AcmeState.Authorize,
           AcmeState.PrepareDns, AcmeState.Respond, AcmeState.FinalizeOrder;
      flow := StartKeygen(env);
      if flow != Go { return; }
      flow := Reload(env);
      if flow != Go { return; }
      flow := CreateOrder();
      if flow != Go { return; }
      flow := Authorize();
      if flow != Go { return; }
      flow := PrepareDns(env);
      if flow != Go { return; }
      flow := Respond();
      if flow != Go { return; }
      flow := FinalizeOrder();
      if flow != Go { return; }
      if env.certSaved.Some? {
        flow := Stop(env.certSaved.value);
      }
    }

    method AdvanceNewCert(env: Env) returns (flow: Flow)
      modifies this
      ensures Outcome(Abs(), flow) == AcmeState.AdvanceNewCert(old(Abs()), env)
    {
      hide AcmeState.Attempt;
      flow := Attempt(env);
      if flow != Wait {
        nc := FRESH;
      }
    }

    /* ---------- am_advance_good ---------- */

    method Configure(env: Env) returns (flow: Flow)
      modifies this
      ensures Outcome(Abs(), flow) == AcmeState.Configure(old(Abs()), env)
    {
      if !acct.configured {
        if env.now < retry.until {
          return Wait;
        }
        match env.installation {
          case InstallationFailed =>
            return Stop(Other);
          case NotInstalled =>
            Backoff(env.now, 5);
            return Wait;
          case Installed =>
            acct, cert := acct.(configured := true), cert.(want := true);
        }
      }
      flow := Go;
    }

    method CreateAccount(env: Env) returns (flow: Flow)
      modifies this
      ensures Outcome(Abs(), flow) == AcmeState.CreateAccount(old(Abs()), env)
    {
      if !acct.accounted {
        if env.now < retry.until {
          return Wait;
        }
        if !acct.sent {
          acct := acct.(sent := true);
          if !env.jwkOk {
            return Stop(Other);
          }
          ami := ami.Send(NewAccount);
        }
        if !acct.done {
          return Wait;
        }
        if !env.accountSaved {
          return Stop(Other);
        }
        acct, retry := acct.(accounted := true), retry.(reloaded := true);
      }
      flow := Go;
    }

    method Expire(env: Env) returns (flow: Flow)
      modifies this
      ensures Outcome(Abs(), flow) == AcmeState.Expire(old(Abs()), env)
    {
      if cert.active && env.now >= cert.expiry {
        cert := cert.(active := false, want := true);
        if env.closesAtExpiry {
          failed := true;
          return Stop(Other);
        }
      }
      flow := Go;
    }

    method Renew(env: Env)
      modifies this
      ensures Outcome(Abs(), Go) == AcmeState.Renew(old(Abs()), env)
    {
      if !cert.want && env.now >= cert.renewal {
        cert := cert.(want := true);
        ami := ami.(timers := ami.timers.(cert := cert.expiry));
      }
    }

    method Retry(env: Env)
      modifies this
      ensures Abs() == AcmeState.Retry(old(Abs()), env)
    {
      hide GetBackoff;
      retry := retry.(failures := retry.failures + 1);
      Backoff(env.now, GetBackoff(retry.failures, CERT_DELAYS));
      retry := retry.(reloaded := false);
    }

    method Report(env: Env) returns (flow: Flow)
      modifies this
      ensures Outcome(Abs(), flow) == AcmeState.Report(old(Abs()), env)
    {
      hide GetRenewal;
      cert, retry := cert.(want := false), retry.(failures := 0);
      if !env.certLoads {
        return Stop(Other);
      }
      cert := cert.(active := true);
      if env.closesAtUpdate {
        failed := true;
        return Stop(Other);
      }
      if env.dates.None? {
        return Stop(Other);
      }
      cert := cert.(expiry := env.dates.value.1, renewal := GetRenewal(env.dates.value.0, env.dates.value.1));
      if env.now >= cert.renewal {
        return Stop(Other);
      }
      ami := ami.(timers := ami.timers.(cert := cert.renewal));
      flow := Go;
    }

    method ObtainCert(env: Env) returns (flow: Flow)
      modifies this
      ensures Outcome(Abs(), flow) == AcmeState.ObtainCert(old(Abs()), env)
    {
      hide AcmeState.AdvanceNewCert, AcmeState.Retry, AcmeState.Report;
      if !cert.want {
        return Go;
      }
      if (clean.sent && !clean.done) || env.now < retry.until {
        return Wait;
      }
      flow := AdvanceNewCert(env);
      match flow {
        case Wait =>
        case Stop(err) =>
          if err != Other {
            Retry(env);
            flow := Wait;
          }
        case Go =>
          flow := Report(env);
      }
    }

    method CleanUp(env: Env) returns (flow: Flow)
      modifies this
      ensures Outcome(Abs(), flow) == AcmeState.CleanUp(old(Abs()), env)
    {
      if !clean.done && env.now >= clean.after && !clean.sent {
        clean := clean.(sent := true);
        if !env.unprepareNonceOk {
          return Stop(Other);
        }
        ami := ami.Send(DeleteChallenge);
      }
      flow := Wait;
    }

    method AdvanceGood(env: Env) returns (flow: Flow)
      modifies this
      ensures Outcome(Abs(), flow) == AcmeState.AdvanceGood(old(Abs()), env)
    {
      hide AcmeState.Configure, AcmeState.CreateAccount, AcmeState.Expire, AcmeState.Renew,
           AcmeState.ObtainCert, AcmeState.CleanUp;
      flow := Configure(env);
      if flow != Go { return; }
      flow := CreateAccount(env);
      if flow != Go { return; }
      flow := Expire(env);
      if flow != Go { return; }
      Renew(env);
      flow := ObtainCert(env);
      if flow != Go { return; }
      flow := CleanUp(env);
    }

    /** am_advance_state */
    method Advance(env: Env)
      requires Valid() && !life.freed
      modifies this
      ensures Valid() && Abs() == Step(old(Abs()), AdvanceState(env))
    {
      hide AcmeState.AdvanceGood, Inv;
      StepKeepsInv(Abs(), AdvanceState(env));
      if !failed {
        var flow := AdvanceGood(env);
        if !flow.Stop? && !env.closesAtStatus {
          return;
        }
        failed := true;
      }
      if !life.closeDone {
        life := life.(closeSent := true);
      } else {
        life := life.(freed := true);
      }
    }

    /* ---------- callbacks ---------- */

    /** An answer comes in for the request that is outstanding. */
    method Receive(reply: Reply)
      requires Valid() && Enabled(Abs(), Answer(0, reply))
      modifies this
      ensures Valid() && Abs() == Step(old(Abs()), Answer(0, reply))
    {
      hide Inv, NewAccountDone, GetOrderDone, NewOrderDone, GetAuthzDone, ChallengeDone, FinalizeDone, PrepareDone,
           UnprepareDone;
      StepKeepsInv(Abs(), Answer(0, reply));
      ami := ami.Answered(0);
      match reply {
        case AccountReply(err, now) => AccountDone(err, now);
        case GetOrderReply(ours, status) => OrderChecked(ours, status);
        case NewOrderReply(err) => OrderCreated(err);
        case AuthzReply(err, status) => AuthzGot(err, status);
        case ChallengeReply(err) => ChallengeAnswered(err);
        case FinalizeReply(err) => Finalized(err);
        case PrepareReply(result) => Prepared(result);
        case UnprepareReply(ok, now) =>
          if ok {
            ami := ami.(dirty := false);
          }
          Unprepared(ok, now);
      }
    }

    /** am_new_account_done */
    method AccountDone(err: Option<Err>, now: nat)
      modifies this
      ensures Abs() == NewAccountDone(old(Abs()), err, now)
    {
      hide GetBackoff;
      if err == Some(Network) {
        retry := retry.(failures := retry.failures + 1);
        Backoff(now, GetBackoff(retry.failures, ACCOUNT_DELAYS));
        acct := acct.(sent := false);
      } else if err.Some? || failed {
        failed := true;
      } else {
        retry, acct := retry.(failures := 0), acct.(done := true);
      }
    }

    /** am_get_order_done */
    method OrderChecked(ours: bool, status: AcmeStatus)
      modifies this
      ensures Abs() == GetOrderDone(old(Abs()), ours, status)
    {
      nc := nc.(check := nc.check.(done := true));
      if ours {
        nc := nc.(orderStatus := status);
      }
    }

    /** am_new_order_done */
    method OrderCreated(err: Option<Err>)
      modifies this
      ensures Abs() == NewOrderDone(old(Abs()), err)
    {
      nc := nc.Raise(err);
      if nc.e.None? {
        nc := nc.(order := nc.order.(done := true));
      }
    }

    /** am_get_authz_done */
    method AuthzGot(err: Option<Err>, status: AcmeStatus)
      modifies this
      ensures Abs() == GetAuthzDone(old(Abs()), err, status)
    {
      nc := nc.Raise(err);
      if nc.e.None? {
        nc := nc.(challengeStatus := status);
        nc := nc.(authz := nc.authz.(resp := true));
      }
    }

    /** am_challenge_done */
    method ChallengeAnswered(err: Option<Err>)
      modifies this
      ensures Abs() == ChallengeDone(old(Abs()), err)
    {
      nc := nc.Raise(err);
      if nc.e.None? {
        nc := nc.(challenge := nc.challenge.(done := true));
      }
    }

    /** am_finalize_done */
    method Finalized(err: Option<Err>)
      modifies this
      ensures Abs() == FinalizeDone(old(Abs()), err)
    {
      nc := nc.Raise(err);
      if nc.e.None? {
        nc := nc.(finalize := nc.finalize.(done := true));
      }
    }

    /** am_prepare_done */
    method Prepared(result: PrepareResult)
      modifies this
      ensures Abs() == PrepareDone(old(Abs()), result)
    {
      if nc.e.None? {
        match result {
          case PrepareOk => nc := nc.(prepare := nc.prepare.(done := true));
          case PrepareTimeout => nc := nc.(prepare := nc.prepare.(sent := false));
          case PrepareError(err) => nc := nc.Raise(Some(err));
        }
      }
    }

    /** am_unprepare_done */
    method Unprepared(ok: bool, now: nat)
      modifies this
      ensures Abs() == UnprepareDone(old(Abs()), ok, now)
    {
      if failed {
        return;
      }
      if ok {
        clean := clean.(done := true);
      } else {
        clean := clean.(sent := false, after := now + 600);
        ami := ami.(timers := ami.timers.(unprepare := clean.after));
      }
    }

    /** am_keygen_done */
    method KeyReady(ok: bool)
      requires Valid() && Enabled(Abs(), KeygenEnds(ok))
      modifies this
      ensures Valid() && Abs() == Step(old(Abs()), KeygenEnds(ok))
    {
      hide Inv;
      StepKeepsInv(Abs(), KeygenEnds(ok));
      ami := ami.(keygens := ami.keygens - 1);
      if !ok || failed {
        failed := true;
      } else {
        nc := nc.(keygen := nc.keygen.(done := true));
      }
    }

    /** am_check: do not wait any longer for a configuration. */
    method CheckNow()
      requires Valid() && Enabled(Abs(), Event.CheckNow)
      modifies this`retry
      ensures Valid() && Abs() == Step(old(Abs()), Event.CheckNow)
    {
      hide Inv;
      StepKeepsInv(Abs(), Event.CheckNow);
      if !acct.configured {
        retry := retry.(until := 0);
      }
    }

    /** am_close */
    method Close()
      requires Valid() && Enabled(Abs(), Event.Close)
      modifies this`failed
      ensures Valid() && Abs() == Step(old(Abs()), Event.Close)
    {
      hide Inv;
      StepKeepsInv(Abs(), Event.Close);
      failed := true;
    }

    /** am_close_done */
    method CloseEnds()
      requires Valid() && Enabled(Abs(), Event.CloseDone)
      modifies this`life
      ensures Valid() && Abs() == Step(old(Abs()), Event.CloseDone)
    {
      hide Inv;
      StepKeepsInv(Abs(), Event.CloseDone);
      life := life.(closeDone := true);
    }
  }
}
