/** The fingerprint watcher of libcitm/fpr_watcher.c and its two users in libcitm/keydir.c, which
    alert the user about new fingerprints before they remember them. */
module FprAlerts {
  import opened Bytes
  import opened FprFiles

  /* ---------- the state machine ---------- */

  /** Where a fingerprint was observed: among the keys of XKEYSYNC, or in a message of a mailbox. */
  datatype Source = FromKeys | FromMailbox(mailbox: dstr)

  /** What happened, in order: the keys or a mailbox were recorded as synced, an alert message was
      injected for a fingerprint, or a fingerprint was remembered. */
  datatype Entry =
    | KeysSynced
    | SyncedMailbox(mailbox: dstr)
    | Alerted(fpr: dstr, src: Source)
    | Remembered(fpr: dstr, src: Source)

  /** The sync from which on a fingerprint of this source is alerted. */
  function SyncOf(src: Source): Entry {
    match src
    case FromKeys => KeysSynced
    case FromMailbox(mailbox) => SyncedMailbox(mailbox)
  }

  /** The watcher's sets in memory, what loading its files would give, and the history. */
  datatype State = State(
    fprs: set<dstr>, synced: set<dstr>, xkeysynced: bool,
    diskFprs: set<dstr>, diskSynced: set<dstr>, diskXkeysynced: bool,
    log: seq<Entry>)

  const FRESH: State := State({}, {}, false, {}, {}, false, [])

  /** fpr_watcher_should_alert_on_decrypt and fpr_watcher_should_alert_on_new_key */
  predicate Due(s: State, fpr: dstr, src: Source) {
    fpr !in s.fprs && match src case FromKeys => s.xkeysynced case FromMailbox(mailbox) => mailbox in s.synced
  }

  /** Alert if due, then remember; either part may fail, and then the caller gives up. */
  function Observe(s: State, fpr: dstr, src: Source, injectOk: bool, saveOk: bool): (r: (State, bool)) {
    var due := Due(s, fpr, src);
    if due && !injectOk then (s, false)
    else
      var s1 := if due then s.(log := s.log + [Alerted(fpr, src)]) else s;
      if fpr in s.fprs then (s1, true)
      else if !saveOk then (s1, false)
      else
        (s1.(fprs := s.fprs + {fpr}, diskFprs := (s.fprs + {fpr}) - {[]},
             log := s1.log + [Remembered(fpr, src)]), true)
  }

  /** One recipient of a message, and how injecting and saving will go. */
  datatype Recip = Recip(fpr: dstr, injectOk: bool, saveOk: bool)

  function ObserveRecips(s: State, mailbox: dstr, recips: seq<Recip>): (r: (State, bool))
    decreases |recips|
  {
    if recips == [] then (s, true)
    else
      var p := recips[0];
      var (s1, ok) := Observe(s, p.fpr, FromMailbox(mailbox), p.injectOk, p.saveOk);
      if ok then ObserveRecips(s1, mailbox, recips[1..]) else (s1, false)
  }

  /** Everything that may happen to a watcher.  A crash inside an operation is the operation with
      its next step failing, followed by a restart. */
  datatype Op =
    | AddKey(fpr: dstr, injectOk: bool, saveOk: bool)
    | Decrypt(mailbox: dstr, recips: seq<Recip>)
    | MailboxSynced(mailbox: dstr, saveOk: bool)
    | XkeysyncCompleted(touchOk: bool)
    | Restart

  function Step(s: State, op: Op): (s': State) {
    match op
    case AddKey(fpr, injectOk, saveOk) =>
      Observe(s, fpr, FromKeys, injectOk, saveOk).0
    case Decrypt(mailbox, recips) =>
      ObserveRecips(s, mailbox, recips).0
    case MailboxSynced(mailbox, saveOk) =>
      if mailbox in s.synced || !saveOk then s
      else
        s.(synced := s.synced + {mailbox}, diskSynced := (s.synced + {mailbox}) - {[]},
           log := s.log + [SyncedMailbox(mailbox)])
    case XkeysyncCompleted(touchOk) =>
      if s.xkeysynced || !touchOk then s
      else s.(xkeysynced := true, diskXkeysynced := true, log := s.log + [KeysSynced])
    case Restart =>
      s.(fprs := s.diskFprs, synced := s.diskSynced, xkeysynced := s.diskXkeysynced)
  }

  function Run(s: State, ops: seq<Op>): (s': State)
    decreases |ops|
  {
    if ops == [] then s else Run(Step(s, ops[0]), ops[1..])
  }

  /* ---------- what every run keeps ---------- */

  /** Memory is what was last saved (a file cannot hold the empty string). */
  ghost predicate Saved(s: State) {
    && s.diskFprs == s.fprs - {[]}
    && s.diskSynced == s.synced - {[]}
    && s.diskXkeysynced == s.xkeysynced
  }

  ghost predicate SyncedBefore(log: seq<Entry>, j: nat, src: Source)
    requires j <= |log|
  {
    SyncOf(src) in log[..j]
  }

  /** An alert is injected only after a sync that makes it due. */
  ghost predicate AlertsAreDue(log: seq<Entry>) {
    forall j: nat :: j < |log| && log[j].Alerted? ==> SyncedBefore(log, j, log[j].src)
  }

  /** A fingerprint is remembered without its alert right before it only if no sync that makes the
      alert due comes earlier.  (The mailbox without a name is forgotten at a restart.) */
  ghost predicate AlertedFirst(log: seq<Entry>) {
    forall j: nat ::
      j < |log| && log[j].Remembered? && log[j].src != FromMailbox([]) && SyncedBefore(log, j, log[j].src) ==>
        j > 0 && log[j - 1] == Alerted(log[j].fpr, log[j].src)
  }

  /** What is recorded as synced is what the history says. */
  ghost predicate SyncsAreHistory(s: State) {
    && (s.xkeysynced <==> KeysSynced in s.log)
    && (forall m :: m in s.synced ==> SyncedMailbox(m) in s.log)
    && (forall m :: SyncedMailbox(m) in s.log && m != [] ==> m in s.synced)
  }

  /** A remembered fingerprint never alerts again. */
  ghost predicate NeverAgain(log: seq<Entry>) {
    forall i, j :: 0 <= i < j < |log| && log[i].Remembered? && log[j].Alerted? && log[i].fpr != [] ==>
      log[i].fpr != log[j].fpr
  }

  ghost predicate WasRemembered(log: seq<Entry>, fpr: dstr) {
    exists i :: 0 <= i < |log| && log[i].Remembered? && log[i].fpr == fpr
  }

  /** The set in memory holds exactly the fingerprints that were ever remembered. */
  ghost predicate MemoryIsHistory(s: State) {
    forall fpr :: fpr != [] ==> (fpr in s.fprs <==> WasRemembered(s.log, fpr))
  }

  ghost predicate Safe(s: State) {
    && Saved(s) && SyncsAreHistory(s) && MemoryIsHistory(s)
    && AlertsAreDue(s.log) && AlertedFirst(s.log) && NeverAgain(s.log)
  }

  lemma ObserveKeepsSafe(s: State, fpr: dstr, src: Source, injectOk: bool, saveOk: bool)
    requires Safe(s)
    ensures Safe(Observe(s, fpr, src, injectOk, saveOk).0)
  {
    hide Safe;
    var due := Due(s, fpr, src);
    var s1 := if due then s.(log := s.log + [Alerted(fpr, src)]) else s;
    if due && injectOk {
      AlertKeepsSafe(s, fpr, src);
    }
    if fpr !in s.fprs && saveOk && (due ==> injectOk) {
      if !due {
        NotDueNotSynced(s, fpr, src);
      }
      RememberKeepsSafe(s1, fpr, src);
    }
  }

  lemma NotDueNotSynced(s: State, fpr: dstr, src: Source)
    requires Safe(s) && fpr !in s.fprs && !Due(s, fpr, src)
    ensures src != FromMailbox([]) ==> SyncOf(src) !in s.log
  {
  }

  /** A longer history says the same of its beginning. */
  lemma LongerHistory(log: seq<Entry>, e: Entry)
    requires AlertsAreDue(log) && AlertedFirst(log)
    requires e.Alerted? ==> SyncOf(e.src) in log
    requires e.Remembered? && e.src != FromMailbox([]) && SyncOf(e.src) in log ==>
               log != [] && log[|log| - 1] == Alerted(e.fpr, e.src)
    ensures AlertsAreDue(log + [e]) && AlertedFirst(log + [e])
  {
    hide SyncedBefore;
    var more := log + [e];
    forall j: nat | j < |more| && more[j].Alerted?
      ensures SyncedBefore(more, j, more[j].src)
    {
      SameBeginning(log, e, j, more[j].src);
    }
    forall j: nat | j < |more| && more[j].Remembered? && more[j].src != FromMailbox([])
                    && SyncedBefore(more, j, more[j].src)
      ensures j > 0 && more[j - 1] == Alerted(more[j].fpr, more[j].src)
    {
      SameBeginning(log, e, j, more[j].src);
    }
  }

  lemma SameBeginning(log: seq<Entry>, e: Entry, j: nat, src: Source)
    requires j <= |log|
    ensures SyncedBefore(log + [e], j, src) == SyncedBefore(log, j, src)
    ensures j == |log| ==> SyncedBefore(log, j, src) == (SyncOf(src) in log)
    ensures j < |log| ==> (log + [e])[j] == log[j]
  {
    assert (log + [e])[..j] == log[..j];
    assert j == |log| ==> log[..j] == log;
  }

  lemma AlertKeepsSafe(s: State, fpr: dstr, src: Source)
    requires Safe(s) && Due(s, fpr, src)
    ensures Safe(s.(log := s.log + [Alerted(fpr, src)]))
  {
    var e := Alerted(fpr, src);
    var log := s.log + [e];
    assert SyncOf(src) in s.log;
    LongerHistory(s.log, e);
    hide AlertsAreDue, AlertedFirst;
    forall f | f != []
      ensures WasRemembered(log, f) == WasRemembered(s.log, f)
    {
      if WasRemembered(s.log, f) {
        var i :| 0 <= i < |s.log| && s.log[i].Remembered? && s.log[i].fpr == f;
        assert log[i] == s.log[i];
      }
    }
    forall i | 0 <= i < |s.log| && s.log[i].Remembered? && s.log[i].fpr != []
      ensures s.log[i].fpr != fpr
    {
      assert WasRemembered(s.log, s.log[i].fpr);
    }
    assert forall x :: x in log <==> x in s.log || x == e;
  }

  lemma RememberKeepsSafe(s: State, fpr: dstr, src: Source)
    requires Safe(s)
    requires src != FromMailbox([]) && SyncOf(src) in s.log ==>
               s.log != [] && s.log[|s.log| - 1] == Alerted(fpr, src)
    ensures Safe(s.(fprs := s.fprs + {fpr}, diskFprs := (s.fprs + {fpr}) - {[]},
                    log := s.log + [Remembered(fpr, src)]))
  {
    var e := Remembered(fpr, src);
    var log := s.log + [e];
    LongerHistory(s.log, e);
    hide AlertsAreDue, AlertedFirst;
    assert log[|s.log|] == e;
    forall f | f != []
      ensures WasRemembered(log, f) == (f == fpr || WasRemembered(s.log, f))
    {
      if WasRemembered(s.log, f) {
        var i :| 0 <= i < |s.log| && s.log[i].Remembered? && s.log[i].fpr == f;
        assert log[i] == s.log[i];
      }
    }
    assert forall x :: x in log <==> x in s.log || x == e;
  }

  /** Recording a sync. */
  lemma SyncKeepsSafe(s: State, op: Op)
    requires Safe(s) && (op.MailboxSynced? || op.XkeysyncCompleted?)
    ensures Safe(Step(s, op))
  {
    var s' := Step(s, op);
    if s' != s {
      var e := if op.MailboxSynced? then SyncedMailbox(op.mailbox) else KeysSynced;
      var log := s.log + [e];
      LongerHistory(s.log, e);
      hide AlertsAreDue, AlertedFirst;
      forall f | f != []
        ensures WasRemembered(log, f) == WasRemembered(s.log, f)
      {
        if WasRemembered(s.log, f) {
          var i :| 0 <= i < |s.log| && s.log[i].Remembered? && s.log[i].fpr == f;
          assert log[i] == s.log[i];
        }
      }
      assert forall x :: x in log <==> x in s.log || x == e;
    }
  }

  lemma {:induction false} RecipsKeepSafe(s: State, mailbox: dstr, recips: seq<Recip>)
    requires Safe(s)
    ensures Safe(ObserveRecips(s, mailbox, recips).0)
    decreases |recips|
  {
    hide Safe, Observe;
    if recips != [] {
      var p := recips[0];
      ObserveKeepsSafe(s, p.fpr, FromMailbox(mailbox), p.injectOk, p.saveOk);
      RecipsKeepSafe(Observe(s, p.fpr, FromMailbox(mailbox), p.injectOk, p.saveOk).0,
                     mailbox, recips[1..]);
    }
  }

  lemma StepKeepsSafe(s: State, op: Op)
    requires Safe(s)
    ensures Safe(Step(s, op))
  {
    match op
    case AddKey(fpr, injectOk, saveOk) =>
      ObserveKeepsSafe(s, fpr, FromKeys, injectOk, saveOk);
    case Decrypt(mailbox, recips) =>
      RecipsKeepSafe(s, mailbox, recips);
    case MailboxSynced(_, _) => SyncKeepsSafe(s, op);
    case XkeysyncCompleted(_) => SyncKeepsSafe(s, op);
    case Restart =>
  }

  /** In every run from an empty directory, whatever fails and wherever it is restarted. */
  lemma {:induction false} EveryRunIsSafe(s: State, ops: seq<Op>)
    requires Safe(s)
    ensures Safe(Run(s, ops))
    decreases |ops|
  {
    hide Safe, Step;
    if ops != [] {
      StepKeepsSafe(s, ops[0]);
      EveryRunIsSafe(Step(s, ops[0]), ops[1..]);
    }
  }

  lemma FreshIsSafe()
    ensures Safe(FRESH)
  {
  }

  /* ---------- in terms of the operations ---------- */

  /** The operation that makes fingerprints of this source alert from then on. */
  function SyncOp(src: Source): Op {
    match src
    case FromKeys => XkeysyncCompleted(true)
    case FromMailbox(mailbox) => Op.MailboxSynced(mailbox, true)
  }

  lemma {:induction false} RunAppend(s: State, ops: seq<Op>, op: Op)
    ensures Run(s, ops + [op]) == Step(Run(s, ops), op)
    decreases |ops|
  {
    hide Step;
    if ops == [] {
      assert [] + [op] == [op] && [op][1..] == [];
      assert Run(Step(s, op), []) == Step(s, op);
    } else {
      assert (ops + [op])[1..] == ops[1..] + [op];
      RunAppend(Step(s, ops[0]), ops[1..], op);
    }
  }

  /** A history grows, and gains the sync of a source only by a successful operation. */
  lemma StepLogsSyncs(s: State, op: Op, src: Source)
    requires Safe(s)
    ensures s.log <= Step(s, op).log
    ensures SyncOf(src) in Step(s, op).log <==> SyncOf(src) in s.log || op == SyncOp(src)
    ensures op != SyncOp(src) ==> SyncOf(src) !in Step(s, op).log[|s.log|..]
  {
    match op
    case AddKey(fpr, injectOk, saveOk) => ObserveLogsNoSync(s, fpr, FromKeys, injectOk, saveOk, src);
    case Decrypt(mailbox, recips) => RecipsLogNoSync(s, mailbox, recips, src);
    case _ =>
  }

  lemma ObserveLogsNoSync(s: State, fpr: dstr, from: Source, injectOk: bool, saveOk: bool, src: Source)
    ensures var s' := Observe(s, fpr, from, injectOk, saveOk).0;
      && s.log <= s'.log && SyncOf(src) !in s'.log[|s.log|..]
      && (SyncOf(src) in s'.log <==> SyncOf(src) in s.log)
  {
    var s' := Observe(s, fpr, from, injectOk, saveOk).0;
    assert s'.log == s.log + s'.log[|s.log|..];
  }

  lemma {:induction false} RecipsLogNoSync(s: State, mailbox: dstr, recips: seq<Recip>, src: Source)
    ensures var s' := ObserveRecips(s, mailbox, recips).0;
      && s.log <= s'.log && SyncOf(src) !in s'.log[|s.log|..]
      && (SyncOf(src) in s'.log <==> SyncOf(src) in s.log)
    decreases |recips|
  {
    hide Observe, SyncOf;
    if recips != [] {
      var p := recips[0];
      var s1 := Observe(s, p.fpr, FromMailbox(mailbox), p.injectOk, p.saveOk).0;
      ObserveLogsNoSync(s, p.fpr, FromMailbox(mailbox), p.injectOk, p.saveOk, src);
      RecipsLogNoSync(s1, mailbox, recips[1..], src);
      var s' := ObserveRecips(s, mailbox, recips).0;
      assert s'.log[|s.log|..] == s1.log[|s.log|..] + s'.log[|s1.log|..];
    }
  }

  lemma {:induction false} LogSaysWhatSynced(ops: seq<Op>, src: Source)
    ensures SyncOf(src) in Run(FRESH, ops).log <==> SyncOp(src) in ops
    decreases |ops|
  {
    hide Step, SyncOf, SyncOp, Safe;
    if ops != [] {
      var n := |ops| - 1;
      assert ops == ops[..n] + [ops[n]];
      LogSaysWhatSynced(ops[..n], src);
      RunAppend(FRESH, ops[..n], ops[n]);
      FreshIsSafe();
      EveryRunIsSafe(FRESH, ops[..n]);
      StepLogsSyncs(Run(FRESH, ops[..n]), ops[n], src);
    }
  }

  /** In every run from an empty directory, a mailbox counts as synced, in memory and in what loading
      the file gives, if and only if an operation recorded it; and so do the keys. */
  lemma SyncedIfRecorded(ops: seq<Op>, mailbox: dstr)
    requires mailbox != []
    ensures var s := Run(FRESH, ops);
      && (mailbox in s.synced <==> Op.MailboxSynced(mailbox, true) in ops)
      && (mailbox in s.diskSynced <==> Op.MailboxSynced(mailbox, true) in ops)
      && (s.xkeysynced <==> XkeysyncCompleted(true) in ops)
      && (s.diskXkeysynced <==> XkeysyncCompleted(true) in ops)
  {
    hide Run;
    FreshIsSafe();
    EveryRunIsSafe(FRESH, ops);
    LogSaysWhatSynced(ops, FromMailbox(mailbox));
    LogSaysWhatSynced(ops, FromKeys);
  }

  /** The mailbox without a name is recorded only until the next restart, because its line in the file
      is empty. */
  ghost predicate RecordedSinceRestart(ops: seq<Op>)
    decreases |ops|
  {
    ops != [] &&
    (ops[|ops| - 1] == Op.MailboxSynced([], true)
     || (ops[|ops| - 1] != Restart && RecordedSinceRestart(ops[..|ops| - 1])))
  }

  lemma {:induction false} NamelessIsForgotten(ops: seq<Op>)
    ensures [] in Run(FRESH, ops).synced <==> RecordedSinceRestart(ops)
    decreases |ops|
  {
    hide Step;
    if ops != [] {
      var n := |ops| - 1;
      assert ops == ops[..n] + [ops[n]];
      NamelessIsForgotten(ops[..n]);
      RunAppend(FRESH, ops[..n], ops[n]);
      FreshIsSafe();
      EveryRunIsSafe(FRESH, ops[..n]);
      StepOnNameless(Run(FRESH, ops[..n]), ops[n]);
    }
  }

  lemma StepOnNameless(s: State, op: Op)
    requires Safe(s)
    ensures [] in Step(s, op).synced <==> op == Op.MailboxSynced([], true) || (op != Restart && [] in s.synced)
  {
    match op
    case Decrypt(m, recips) => RecipsKeepSynced(s, m, recips);
    case _ =>
  }

  /** Operation number `n` of a run made entry number `j` of its history. */
  ghost predicate AddedBy(ops: seq<Op>, n: nat, j: nat) {
    n < |ops| && |Run(FRESH, ops[..n]).log| <= j < |Run(FRESH, ops[..n + 1]).log|
  }

  /** What the history of every run from an empty directory says: a fingerprint that an operation
      remembered was remembered right after its alert if and only if an earlier operation recorded the
      sync that makes the alert due. */
  lemma RememberedAfterAlert(ops: seq<Op>, n: nat, j: nat)
    requires AddedBy(ops, n, j)
    requires var e := Run(FRESH, ops[..n + 1]).log[j]; e.Remembered? && e.src != FromMailbox([])
    ensures var log := Run(FRESH, ops[..n + 1]).log;
      SyncOp(log[j].src) in ops[..n] <==> j > 0 && log[j - 1] == Alerted(log[j].fpr, log[j].src)
  {
    hide Run, Step, Safe, SyncOp, SyncOf;
    var before, op := Run(FRESH, ops[..n]), ops[n];
    var log := Run(FRESH, ops[..n + 1]).log;
    var src := log[j].src;
    assert ops[..n + 1] == ops[..n] + [op];
    RunAppend(FRESH, ops[..n], op);
    FreshIsSafe();
    EveryRunIsSafe(FRESH, ops[..n]);
    EveryRunIsSafe(FRESH, ops[..n + 1]);
    LogSaysWhatSynced(ops[..n], src);
    StepLogsSyncs(before, op, src);
    SyncsAddOneEntry(before, op, src, j);
    var later := log[|before.log|..];
    assert SyncOf(src) in log[..j] <==> SyncOf(src) in before.log by {
      assert log[..j] == before.log + later[..j - |before.log|];
      assert forall e :: e in later[..j - |before.log|] ==> e in later;
    }
    AlertComesFirst(Run(FRESH, ops[..n + 1]), j);
  }

  lemma SyncsAddOneEntry(s: State, op: Op, src: Source, j: nat)
    requires |s.log| <= j < |Step(s, op).log| && Step(s, op).log[j].Remembered?
    ensures op != SyncOp(src)
  {
  }

  lemma AlertComesFirst(s: State, j: nat)
    requires Safe(s) && j < |s.log| && s.log[j].Remembered? && s.log[j].src != FromMailbox([])
    ensures SyncOf(s.log[j].src) in s.log[..j] <==> j > 0 && s.log[j - 1] == Alerted(s.log[j].fpr, s.log[j].src)
  {
    var src := s.log[j].src;
    if j > 0 && s.log[j - 1] == Alerted(s.log[j].fpr, src) {
      assert SyncedBefore(s.log, j - 1, src);
      assert s.log[..j - 1] <= s.log[..j];
    }
    if SyncOf(src) in s.log[..j] {
      assert SyncedBefore(s.log, j, src);
    }
  }

  /** An observation after any run: an alert is injected exactly if the fingerprint was never remembered,
      an operation recorded the sync, and injecting works; and the fingerprint is remembered exactly if
      it was not, no alert that was due failed, and saving works. */
  ghost predicate ObservedAfter(ops: seq<Op>, op: Op, fpr: dstr, src: Source, injectOk: bool, saveOk: bool) {
    var s := Run(FRESH, ops);
    var due := !WasRemembered(s.log, fpr) && SyncOp(src) in ops;
    Run(FRESH, ops + [op]).log
    == s.log + (if due && injectOk then [Alerted(fpr, src)] else [])
       + (if !WasRemembered(s.log, fpr) && (due ==> injectOk) && saveOk then [Remembered(fpr, src)] else [])
  }

  lemma NewKeyObserved(ops: seq<Op>, fpr: dstr, injectOk: bool, saveOk: bool)
    requires fpr != []
    ensures ObservedAfter(ops, AddKey(fpr, injectOk, saveOk), fpr, FromKeys, injectOk, saveOk)
  {
    hide Run;
    RunAppend(FRESH, ops, AddKey(fpr, injectOk, saveOk));
    FreshIsSafe();
    EveryRunIsSafe(FRESH, ops);
    SyncedIfRecorded(ops, [0]);
  }

  lemma RecipientObserved(ops: seq<Op>, mailbox: dstr, p: Recip)
    requires p.fpr != [] && mailbox != []
    ensures ObservedAfter(ops, Decrypt(mailbox, [p]), p.fpr, FromMailbox(mailbox), p.injectOk, p.saveOk)
  {
    hide Run;
    RunAppend(FRESH, ops, Decrypt(mailbox, [p]));
    FreshIsSafe();
    EveryRunIsSafe(FRESH, ops);
    SyncedIfRecorded(ops, mailbox);
    var s := Run(FRESH, ops);
    OneRecipient(s, mailbox, p);
    assert Step(s, Decrypt(mailbox, [p])) == Observe(s, p.fpr, FromMailbox(mailbox), p.injectOk, p.saveOk).0;
  }

  lemma OneRecipient(s: State, mailbox: dstr, p: Recip)
    ensures ObserveRecips(s, mailbox, [p]) == Observe(s, p.fpr, FromMailbox(mailbox), p.injectOk, p.saveOk)
  {
    hide Observe;
    assert [p][1..] == [];
  }

  /** The recipients of a message are observed one after another, up to the first failure. */
  lemma RecipientsInTurn(ops: seq<Op>, mailbox: dstr, p: Recip, rest: seq<Recip>)
    ensures Run(FRESH, ops + [Decrypt(mailbox, [p] + rest)])
         == if ObserveRecips(Run(FRESH, ops), mailbox, [p]).1
            then Run(FRESH, ops + [Decrypt(mailbox, [p])] + [Decrypt(mailbox, rest)])
            else Run(FRESH, ops + [Decrypt(mailbox, [p])])
  {
    hide Run, Observe;
    RunAppend(FRESH, ops, Decrypt(mailbox, [p] + rest));
    RunAppend(FRESH, ops, Decrypt(mailbox, [p]));
    RunAppend(FRESH, ops + [Decrypt(mailbox, [p])], Decrypt(mailbox, rest));
    assert ([p] + rest)[1..] == rest && [p][1..] == [];
  }

  /** An observation that succeeds injects the alert that was due; one that fails leaves the
      fingerprint unknown, in memory and on disk, so that the alert stays due. */
  lemma AlertsAreNotDropped(s: State, fpr: dstr, src: Source, injectOk: bool, saveOk: bool)
    ensures var (s', ok) := Observe(s, fpr, src, injectOk, saveOk);
      && s.log <= s'.log
      && (ok ==> fpr in s'.fprs && (Due(s, fpr, src) <==> Alerted(fpr, src) in s'.log[|s.log|..]))
      && (!ok ==> s'.fprs == s.fprs && s'.diskFprs == s.diskFprs && fpr !in s'.fprs)
      && s'.synced == s.synced && s'.xkeysynced == s.xkeysynced
  {
    var (s', ok) := Observe(s, fpr, src, injectOk, saveOk);
    var more := s'.log[|s.log|..];
    if ok && Due(s, fpr, src) {
      assert more == [Alerted(fpr, src), Remembered(fpr, src)];
      assert more[0] == Alerted(fpr, src);
    }
  }

  /** What makes an alert due lasts: mailboxes and keys once synced stay so, in every run. */
  lemma {:induction false} DueLasts(s: State, ops: seq<Op>, mailbox: dstr)
    requires Safe(s) && mailbox != []
    ensures mailbox in s.synced ==> mailbox in Run(s, ops).synced
    ensures s.xkeysynced ==> Run(s, ops).xkeysynced
    decreases |ops|
  {
    hide Safe, Step;
    if ops != [] {
      StepKeepsSafe(s, ops[0]);
      StepKeepsDue(s, ops[0], mailbox);
      DueLasts(Step(s, ops[0]), ops[1..], mailbox);
    }
  }

  lemma StepKeepsDue(s: State, op: Op, mailbox: dstr)
    requires Safe(s) && mailbox != []
    ensures mailbox in s.synced ==> mailbox in Step(s, op).synced
    ensures s.xkeysynced ==> Step(s, op).xkeysynced
  {
    match op
    case Decrypt(m, recips) => RecipsKeepSynced(s, m, recips);
    case _ =>
  }

  lemma {:induction false} RecipsKeepSynced(s: State, mailbox: dstr, recips: seq<Recip>)
    ensures ObserveRecips(s, mailbox, recips).0.synced == s.synced
    ensures ObserveRecips(s, mailbox, recips).0.xkeysynced == s.xkeysynced
    decreases |recips|
  {
    if recips != [] {
      var p := recips[0];
      RecipsKeepSynced(Observe(s, p.fpr, FromMailbox(mailbox), p.injectOk, p.saveOk).0,
                       mailbox, recips[1..]);
    }
  }

  /** So an alert that is due for a fingerprint stays due, through failures and restarts, until
      the fingerprint is remembered. */
  lemma DueUntilRemembered(s: State, ops: seq<Op>, fpr: dstr, src: Source)
    requires Safe(s) && fpr != [] && src != FromMailbox([])
    ensures Due(s, fpr, src) && !WasRemembered(Run(s, ops).log, fpr) ==> Due(Run(s, ops), fpr, src)
  {
    EveryRunIsSafe(s, ops);
    DueLasts(s, ops, if src.FromMailbox? then src.mailbox else [0]);
  }

  /* ---------- the watcher and its users ---------- */

  /** The watcher's three files: their contents, or None while they do not exist. */
  datatype Files = Files(fprs: Option<dstr>, synced: Option<dstr>, xkeysynced: bool)

  function OnDisk(f: Format, file: Option<dstr>): (s: Option<set<dstr>>) {
    if file.None? then Some({}) else Loaded(f, file.value)
  }

  /** The elements of a tree, in some order. */
  method Enumerate(s: set<dstr>) returns (order: seq<dstr>)
    ensures (set x | x in order) == s
  {
    order := [];
    var rest := s;
    while rest != {}
      invariant (set x | x in order) + rest == s
      decreases |rest|
    {
      var x :| x in rest;
      ghost var before := order;
      order := order + [x];
      rest := rest - {x};
      assert (set y | y in order) == (set y | y in before) + {x};
    }
  }

  class Keydir {
    var fprs: set<dstr>
    var synced: set<dstr>
    var xkeysynced: bool
    var files: Files
    ghost var log: seq<Entry>

    ghost predicate Valid()
      reads this
    {
      OnDisk(Fingerprints, files.fprs).Some? && OnDisk(Names, files.synced).Some?
    }

    ghost function Abstract(): (s: State)
      reads this
      requires Valid()
    {
      State(fprs, synced, xkeysynced, OnDisk(Fingerprints, files.fprs).value,
            OnDisk(Names, files.synced).value, files.xkeysynced, log)
    }

    /** A directory without files. */
    constructor ()
      ensures Valid() && Abstract() == FRESH
    {
      fprs, synced, xkeysynced := {}, {}, false;
      files, log := Files(None, None, false), [];
    }

    /** fpr_watcher_init, in a new process: the files of an earlier one are all there is. */
    method Init()
      requires Valid()
      modifies this
      ensures Valid() && Abstract() == Step(old(Abstract()), Restart)
    {
      hide Loaded;
      fprs, synced := {}, {};
      var ok := true;
      if files.fprs.Some? {
        ok, fprs := Load(Fingerprints, files.fprs.value);
      }
      if files.synced.Some? {
        ok, synced := Load(Names, files.synced.value);
      }
      xkeysynced := files.xkeysynced;
    }

    /** fpr_watcher_add_fpr; `saveOk` says whether the temporary file was written and renamed. */
    method AddFpr(fpr: dstr, saveOk: bool, ghost src: Source) returns (ok: bool)
      requires Valid()
      modifies this
      ensures Valid()
      ensures fpr in old(fprs) ==> ok && Abstract() == old(Abstract())
      ensures fpr !in old(fprs) && !saveOk ==> !ok && Abstract() == old(Abstract())
      ensures fpr !in old(fprs) && saveOk ==>
                ok && Abstract() == old(Abstract()).(
                  fprs := old(fprs) + {fpr}, diskFprs := (old(fprs) + {fpr}) - {[]},
                  log := old(log) + [Remembered(fpr, src)])
    {
      hide Loaded;
      if fpr in fprs {
        return true;
      }
      fprs := fprs + {fpr};
      var order := Enumerate(fprs);
      var content := Save(Fingerprints, order);
      SaveThenLoad(Fingerprints, order);
      if !saveOk {
        fprs := fprs - {fpr};
        return false;
      }
      files := files.(fprs := Some(content));
      log := log + [Remembered(fpr, src)];
      return true;
    }

    /** inject_new_key_msg */
    method Inject(fpr: dstr, injectOk: bool, ghost src: Source) returns (ok: bool)
      requires Valid()
      modifies this`log
      ensures Valid() && ok == injectOk
      ensures Abstract() == if ok then old(Abstract()).(log := old(log) + [Alerted(fpr, src)])
                            else old(Abstract())
    {
      if injectOk {
        log := log + [Alerted(fpr, src)];
      }
      ok := injectOk;
    }

    /** kd_add_key, up to its last step that concerns the watcher */
    method AddKey(fpr: dstr, injectOk: bool, saveOk: bool) returns (ok: bool)
      requires Valid()
      modifies this
      ensures Valid()
      ensures (Abstract(), ok)
           == Observe(old(Abstract()), fpr, FromKeys, injectOk, saveOk)
    {
      hide Loaded, OnDisk;
      var alert := fpr !in fprs && xkeysynced;
      if alert {
        ok := Inject(fpr, injectOk, FromKeys);
        if !ok {
          return;
        }
      }
      ok := AddFpr(fpr, saveOk, FromKeys);
    }

    /** The recipient loop of decrypt_msg */
    method DecryptRecips(mailbox: dstr, recips: seq<Recip>) returns (ok: bool)
      requires Valid()
      modifies this
      ensures Valid()
      ensures (Abstract(), ok) == ObserveRecips(old(Abstract()), mailbox, recips)
    {
      hide Loaded, OnDisk;
      assert recips[0..] == recips;
      for i := 0 to |recips|
        invariant Valid()
        invariant ObserveRecips(Abstract(), mailbox, recips[i..])
               == ObserveRecips(old(Abstract()), mailbox, recips)
      {
        var p := recips[i];
        assert recips[i..][1..] == recips[i + 1..];
        var alert := p.fpr !in fprs && mailbox in synced;
        if alert {
          ok := Inject(p.fpr, p.injectOk, FromMailbox(mailbox));
          if !ok {
            return;
          }
        }
        ok := AddFpr(p.fpr, p.saveOk, FromMailbox(mailbox));
        if !ok {
          return;
        }
      }
      assert recips[|recips|..] == [];
      ok := true;
    }

    /** fpr_watcher_mailbox_synced */
    method MailboxSynced(mailbox: dstr, saveOk: bool) returns (ok: bool)
      requires Valid()
      modifies this
      ensures Valid() && Abstract() == Step(old(Abstract()), Op.MailboxSynced(mailbox, saveOk))
      ensures ok == (mailbox in old(synced) || saveOk)
    {
      hide Loaded;
      if mailbox in synced {
        return true;
      }
      synced := synced + {mailbox};
      var order := Enumerate(synced);
      var content := Save(Names, order);
      SaveThenLoad(Names, order);
      if !saveOk {
        synced := synced - {mailbox};
        return false;
      }
      files := files.(synced := Some(content));
      log := log + [SyncedMailbox(mailbox)];
      return true;
    }

    /** fpr_watcher_xkeysync_completed */
    method XkeysyncCompleted(touchOk: bool) returns (ok: bool)
      requires Valid()
      modifies this
      ensures Valid() && Abstract() == Step(old(Abstract()), Op.XkeysyncCompleted(touchOk))
      ensures ok == (old(xkeysynced) || touchOk)
    {
      if xkeysynced {
        return true;
      }
      if !touchOk {
        return false;
      }
      files := files.(xkeysynced := true);
      xkeysynced := true;
      log := log + [KeysSynced];
      return true;
    }
  }
}
