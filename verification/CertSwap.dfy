/** The swap of a new key and certificate into place (libcitm/acme_manager.c): certnew.pem is
    written, keynew.pem is renamed to key.pem, certnew.pem to cert.pem, and order.json is removed.
    The process may die between any two of these operations, and in the middle of writing a file; a
    start finishes the renames, and the next attempt may pick up the order on file. */
module CertSwap {
  import opened Bytes

  /** A key file: a key (known by a number), or the beginning of one. */
  datatype KeyFile = Key(id: nat) | TornKey

  /** A certificate file for a key: its first certificate (the leaf) may be complete, and the chain
      after it as well. */
  datatype CertFile = Cert(key: nat, leaf: bool, whole: bool)

  /** order.json, with what the server knows of the order: the key of the request that finalized
      it, if one has. */
  datatype OrderFile = Order(key: Option<nat>)

  datatype Files = Files(
    key: Option<KeyFile>, keynew: Option<KeyFile>, cert: Option<CertFile>, certnew: Option<CertFile>,
    order: Option<OrderFile>)
  {
    /** check_cert: PEM_read_X509 reads one certificate, the leaf. */
    predicate NewCertLoads() {
      certnew.Some? && certnew.value.leaf
    }

    function KeyRenamed(): Files {
      if keynew.Some? then this.(key := keynew, keynew := None) else this
    }

    function CertRenamed(): Files {
      if certnew.Some? then this.(cert := certnew, certnew := None) else this
    }

    /** key.pem and cert.pem belong together; either both are there or neither. */
    ghost predicate Matched() {
      if cert.None? then key.None? else cert.value.leaf && key == Some(Key(cert.value.key))
    }
  }

  /** What a start that is not interrupted makes of the files. */
  function Recover(f: Files): Files {
    if f.NewCertLoads() then f.KeyRenamed().CertRenamed() else f
  }

  /* ---------- rename_new_key_and_cert in place ---------- */

  class Directory {
    var key: Option<KeyFile>
    var keynew: Option<KeyFile>
    var cert: Option<CertFile>
    var certnew: Option<CertFile>
    var order: Option<OrderFile>

    ghost function Contents(): Files
      reads this
    {
      Files(key, keynew, cert, certnew, order)
    }

    /** rename_new_key_and_cert; only the first `renames` renames succeed, because of an error or
        because the process dies.  It is done if none was missing. */
    method RenameNewKeyAndCert(check: bool, renames: nat) returns (done: bool)
      modifies this
      ensures var f := old(Contents());
        var needed := if f.certnew.None? || (check && !f.NewCertLoads()) then 0 else if f.keynew.Some? then 2 else 1;
        && (done <==> renames >= needed)
        && Contents() == if needed == 0 || renames == 0 then f
                         else if done then f.KeyRenamed().CertRenamed() else f.KeyRenamed()
    {
      if certnew.None? {
        return true;
      }
      if check && !certnew.value.leaf {
        return true;
      }
      var left := renames;
      if keynew.Some? {
        if left == 0 {
          return false;
        }
        key, keynew := keynew, None;
        left := left - 1;
      }
      if left == 0 {
        return false;
      }
      cert, certnew := certnew, None;
      done := true;
    }
  }

  /* ---------- the process and its crashes ---------- */

  /** Where the process is: not running; finishing the renames at start, before the first or
      between the two; between attempts; in an attempt; waiting for a certificate for a key; writing
      it; renaming, before the first or between the two; about to remove the order. */
  datatype Place =
    | Down | Recovering | RecoveringCert
    | Settled | Trying | Finalizing(k: nat) | Writing(k: nat, leaf: bool) | Renaming(k: nat) | RenamingCert(k: nat)
    | Unlinking

  /** The files and the process.  `held` is the key that the attempt was given.  `lookers` counts the
      key generations that have not yet looked for keynew.pem, `writers` those that found no key
      there; they outlive the attempt that started them.  `cut` remembers that the process died
      between the leaf and the rest of a certnew.pem that has not been opened again. */
  datatype World = World(
    files: Files, at: Place, held: Option<nat>, lookers: nat, writers: nat, cut: bool, nextKey: nat)

  /** A crash, or one operation: of a start (one that finds no account does not get to the renames,
      libcitm/acme_manager.c:1190-1196); of an attempt; or of a key generation (Look, Tear and
      WriteKey, libcitm/acme_manager.c:63-92; the last one writes the key and reads it back). */
  datatype Op =
    | Crash | Start | StartWithoutAccount | Rename
    | Begin | GiveUp | OpenOrder | WriteOrder | Finalize | Resume
    | OpenCert | LeafWritten | CertWritten | RemoveOrder
    | Look | Tear | WriteKey

  predicate Can(w: World, op: Op) {
    match op
    case Crash => w.at != Down
    case Start | StartWithoutAccount => w.at == Down
    case Rename => w.at.Recovering? || w.at.RecoveringCert? || w.at.Renaming? || w.at.RenamingCert?
    case Begin => w.at == Settled
    case GiveUp => w.at == Trying || w.at.Finalizing?
    case OpenOrder | WriteOrder => w.at == Trying
    case Finalize => w.at == Trying && w.held.Some? && w.files.order == Some(Order(None))
    case Resume => w.at == Trying && w.held.Some? && w.files.order.Some? && w.files.order.value.key.Some?
    case OpenCert => w.at.Finalizing?
    case LeafWritten => w.at.Writing? && !w.at.leaf
    case CertWritten => w.at.Writing? && w.at.leaf
    case RemoveOrder => w.at == Unlinking
    case Look => w.lookers > 0
    case Tear | WriteKey => w.writers > 0
  }

  function Do(w: World, op: Op): World
    requires Can(w, op)
  {
    match op
    case Crash =>
      w.(at := Down, held := None, lookers := 0, writers := 0, cut := w.cut || (w.at.Writing? && w.at.leaf))
    case Start => w.(at := if w.files.NewCertLoads() then Recovering else Settled)
    case StartWithoutAccount => w.(at := Settled)
    case Rename => DoRename(w)
    case Begin => w.(at := Trying, lookers := w.lookers + 1)
    case GiveUp => w.(at := Settled, held := None)
    case OpenOrder => w.(files := w.files.(order := None))
    case WriteOrder => w.(files := w.files.(order := Some(Order(None))))
    case Finalize => w.(files := w.files.(order := Some(Order(w.held))), at := Finalizing(w.held.value))
    case Resume => w.(at := Finalizing(w.files.order.value.key.value))
    case OpenCert =>
      w.(files := w.files.(certnew := Some(Cert(w.at.k, false, false))), at := Writing(w.at.k, false), cut := false)
    case LeafWritten =>
      w.(files := w.files.(certnew := Some(Cert(w.at.k, true, false))), at := Writing(w.at.k, true))
    case CertWritten => w.(files := w.files.(certnew := Some(Cert(w.at.k, true, true))), at := Renaming(w.at.k))
    case RemoveOrder => w.(files := w.files.(order := None), at := Settled, held := None)
    case Look => DoLook(w)
    case Tear => w.(files := w.files.(keynew := Some(TornKey)))
    case WriteKey =>
      w.(files := w.files.(keynew := Some(Key(w.nextKey))), held := Some(w.nextKey),
         writers := w.writers - 1, nextKey := w.nextKey + 1)
  }

  function DoRename(w: World): World
    requires Can(w, Rename)
  {
    match w.at
    case Recovering => w.(files := w.files.KeyRenamed(), at := RecoveringCert)
    case RecoveringCert => w.(files := w.files.CertRenamed(), at := Settled, cut := false)
    case Renaming(k) => w.(files := w.files.KeyRenamed(), at := RenamingCert(k))
    case _ => w.(files := w.files.CertRenamed(), at := Unlinking)
  }

  /** keygen_or_load: a key that can be read is taken, otherwise one will be written. */
  function DoLook(w: World): World
    requires Can(w, Look)
  {
    var w := w.(lookers := w.lookers - 1);
    if w.files.keynew.Some? && w.files.keynew.value.Key? then w.(held := Some(w.files.keynew.value.id))
    else w.(writers := w.writers + 1)
  }

  predicate CanAll(w: World, ops: seq<Op>)
    decreases ops
  {
    ops == [] || (Can(w, ops[0]) && CanAll(Do(w, ops[0]), ops[1..]))
  }

  function DoAll(w: World, ops: seq<Op>): World
    requires CanAll(w, ops)
    decreases ops
  {
    if ops == [] then w else DoAll(Do(w, ops[0]), ops[1..])
  }

  /* ---------- what holds in every careful run ---------- */

  /** A certificate whose leaf is complete waits for its swap: either nothing was renamed yet and
      its key waits as well, or its key is already in place. */
  ghost predicate Consistent(f: Files) {
    if !f.NewCertLoads() then f.Matched()
    else if f.keynew.Some? then f.keynew.value == Key(f.certnew.value.key) && f.Matched()
    else f.key == Some(Key(f.certnew.value.key))
  }

  /** The key generated next is a new one, and a pair that is in place is not swapped for itself. */
  ghost predicate Fresh(w: World) {
    && (w.files.cert.Some? ==>
          && w.files.cert.value.key < w.nextKey
          && w.files.keynew != Some(Key(w.files.cert.value.key))
          && (w.files.NewCertLoads() ==> w.files.certnew.value.key != w.files.cert.value.key))
    && (w.files.certnew.Some? ==> w.files.certnew.value.key < w.nextKey)
    && (w.files.keynew.Some? && w.files.keynew.value.Key? ==> w.files.keynew.value.id < w.nextKey)
    && (w.files.order.Some? && w.files.order.value.key.Some? ==> w.files.order.value.key.value < w.nextKey)
    && (w.held.Some? ==> w.held.value < w.nextKey)
    && (w.at.Finalizing? ==> w.at.k < w.nextKey)
  }

  ghost predicate Inv(w: World) {
    && Consistent(w.files) && Fresh(w)
    && match w.at
       case Down => Unstarted(w)
       case Recovering => Unstarted(w) && w.files.NewCertLoads()
       case RecoveringCert => Unstarted(w) && w.files.NewCertLoads() && w.files.keynew.None?
       case Settled | Trying => (w.files.NewCertLoads() || w.held.Some?) ==> w.files.keynew.Some?
       case Finalizing(k) => w.files.keynew == Some(Key(k))
       case Writing(k, leaf) => w.files.keynew == Some(Key(k)) && w.files.certnew == Some(Cert(k, leaf, false))
       case Renaming(k) => w.files.NewCertLoads() && w.files.certnew.value.key == k
       case RenamingCert(k) => w.files.NewCertLoads() && w.files.keynew.None? && w.files.certnew.value.key == k
       case Unlinking => !w.files.NewCertLoads()
  }

  /** No attempt and no key generation has been started. */
  ghost predicate Unstarted(w: World) {
    w.held.None? && w.lookers == 0 && w.writers == 0
  }

  ghost predicate BetweenRenames(f: Files) {
    f.NewCertLoads() && f.keynew.None?
  }

  /** What would have to be looked at before an operation, and is not: a start must not skip the
      renames when it comes between them; a certificate must be asked for, and an order on file
      resumed, only if its key is the one in keynew.pem; and no key generation may write while a
      certificate is on its way or waits for its swap. */
  ghost predicate CarefulOp(w: World, op: Op)
    requires Can(w, op)
  {
    match op
    case StartWithoutAccount => !BetweenRenames(w.files)
    case Finalize => w.files.keynew == Some(Key(w.held.value))
    case Resume => w.files.keynew == Some(Key(w.files.order.value.key.value))
    case Tear | WriteKey => !w.files.NewCertLoads() && !w.at.Finalizing? && !w.at.Writing?
    case _ => true
  }

  ghost predicate Careful(w: World, ops: seq<Op>)
    requires CanAll(w, ops)
    decreases ops
  {
    ops != [] ==> CarefulOp(w, ops[0]) && Careful(Do(w, ops[0]), ops[1..])
  }

  lemma OpKeepsInv(w: World, op: Op)
    requires Inv(w) && Can(w, op) && CarefulOp(w, op)
    ensures Inv(Do(w, op))
  {
  }

  lemma {:induction false} RunKeepsInv(w: World, ops: seq<Op>)
    requires Inv(w) && CanAll(w, ops) && Careful(w, ops)
    ensures Inv(DoAll(w, ops))
    decreases ops
  {
    if ops != [] {
      OpKeepsInv(w, ops[0]);
      RunKeepsInv(Do(w, ops[0]), ops[1..]);
    }
  }

  /** A world in which the process has yet to start: a directory whose pair matches (or lacks both
      files) and that has nothing to swap, but perhaps a new key and an order. */
  ghost predicate Initial(w: World) {
    w.at == Down && Unstarted(w) && Fresh(w) && w.files.Matched() && !w.files.NewCertLoads() && !w.cut
  }

  /** However often and wherever the process dies in a careful run, key.pem and cert.pem belong
      together whenever it is between attempts; and at any moment a start that is not interrupted
      makes them so. */
  lemma SwapIsCrashSafe(w: World, ops: seq<Op>)
    requires Initial(w) && CanAll(w, ops) && Careful(w, ops)
    ensures var v := DoAll(w, ops);
      && (v.at.Settled? ==> v.files.Matched())
      && Recover(v.files).Matched() && !Recover(v.files).NewCertLoads()
  {
    RunKeepsInv(w, ops);
  }

  /** `v` can be reached from `w` by a careful run. */
  ghost predicate Reaches(w: World, v: World) {
    exists ops :: CanAll(w, ops) && Careful(w, ops) && DoAll(w, ops) == v
  }

  lemma Stay(w: World)
    ensures Reaches(w, w)
  {
    assert CanAll(w, []) && Careful(w, []) && DoAll(w, []) == w;
  }

  lemma ThenDo(w: World, v: World, op: Op)
    requires Reaches(w, v) && Can(v, op) && CarefulOp(v, op)
    ensures Reaches(w, Do(v, op))
  {
    hide Do, Can, CarefulOp;
    var ops :| CanAll(w, ops) && Careful(w, ops) && DoAll(w, ops) == v;
    Longer(w, ops, op);
  }

  lemma {:induction false} Longer(w: World, ops: seq<Op>, op: Op)
    requires CanAll(w, ops) && Careful(w, ops)
    requires Can(DoAll(w, ops), op) && CarefulOp(DoAll(w, ops), op)
    ensures CanAll(w, ops + [op]) && Careful(w, ops + [op]) && DoAll(w, ops + [op]) == Do(DoAll(w, ops), op)
    decreases ops
  {
    hide Do, Can, CarefulOp;
    if ops == [] {
      assert [op][1..] == [] && [] + [op] == [op];
      assert CanAll(Do(w, op), []);
    } else {
      Longer(Do(w, ops[0]), ops[1..], op);
      assert (ops + [op])[1..] == ops[1..] + [op];
    }
  }

  /** What a careful run may end in after `op`. */
  ghost predicate EndsWell(w: World) {
    forall v :: Reaches(w, v) && v.at.Settled? ==> v.files.Matched()
  }

  /** The conditions are exact: after an operation, every careful run keeps the pair together if and
      only if the operation was careful. */
  lemma CarefulIsExact(w: World, op: Op)
    requires Inv(w) && Can(w, op)
    ensures CarefulOp(w, op) <==> EndsWell(Do(w, op))
  {
    hide Do, CarefulOp, Reaches, Inv;
    if CarefulOp(w, op) {
      OpKeepsInv(w, op);
      InvEndsWell(Do(w, op));
    } else {
      var v := CarelessEndsBadly(w, op);
    }
  }

  /** A start that finds no account keeps every later careful run safe if and only if it does not come
      between the two renames. */
  lemma SkippingIsSafeUnlessBetweenRenames(w: World)
    requires Inv(w) && w.at == Down
    ensures !BetweenRenames(w.files) <==> EndsWell(Do(w, StartWithoutAccount))
  {
    hide EndsWell;
    CarefulIsExact(w, StartWithoutAccount);
  }

  /** Resuming the order on file is safe if and only if the key it was finalized with is the one that
      waits in keynew.pem. */
  lemma ResumingIsSafeIfItsKeyWaits(w: World)
    requires Inv(w) && Can(w, Resume)
    ensures w.files.keynew == Some(Key(w.files.order.value.key.value)) <==> EndsWell(Do(w, Resume))
  {
    hide EndsWell;
    CarefulIsExact(w, Resume);
  }

  lemma InvEndsWell(w: World)
    requires Inv(w)
    ensures EndsWell(w)
  {
    forall v | Reaches(w, v) && v.at.Settled?
      ensures v.files.Matched()
    {
      var ops :| CanAll(w, ops) && Careful(w, ops) && DoAll(w, ops) == v;
      RunKeepsInv(w, ops);
    }
  }

  lemma CarelessEndsBadly(w: World, op: Op) returns (v: World)
    requires Inv(w) && Can(w, op) && !CarefulOp(w, op)
    ensures Reaches(Do(w, op), v) && v.at.Settled? && !v.files.Matched()
  {
    hide Reaches;
    var u := Do(w, op);
    v := u;
    Stay(u);
    if u.at.Finalizing? {
      ThenDo(u, v, OpenCert);
      v := Do(v, OpenCert);
    }
    if v.at.Writing? && !v.at.leaf {
      ThenDo(u, v, LeafWritten);
      v := Do(v, LeafWritten);
    }
    if op != StartWithoutAccount {
      v := SwappedByAStart(u, v);
    }
  }

  /** From a state in which a key waits that is not the certificate's, a crash and a start put the
      two in place. */
  lemma SwappedByAStart(u: World, w: World) returns (v: World)
    requires Reaches(u, w) && w.at != Down && w.files.NewCertLoads() && w.files.keynew.Some?
    requires w.files.keynew.value != Key(w.files.certnew.value.key)
    ensures Reaches(u, v) && v.at.Settled? && !v.files.Matched()
  {
    hide Reaches;
    ThenDo(u, w, Crash);
    v := Do(w, Crash);
    ThenDo(u, v, Start);
    v := Do(v, Start);
    ThenDo(u, v, Rename);
    v := Do(v, Rename);
    ThenDo(u, v, Rename);
    v := Do(v, Rename);
  }

  /* ---------- the two ways to lose the pair ---------- */

  /** A start in which nothing waits, and an attempt up to its key. */
  lemma AttemptWithKey(u: World, w: World) returns (v: World)
    requires Reaches(u, w) && Inv(w) && w.at == Settled && !w.files.NewCertLoads()
    requires w.held.None? && w.lookers == 0 && w.writers == 0
    ensures Reaches(u, v) && Inv(v) && v.at == Trying && !v.files.NewCertLoads() && v.held.Some?
    ensures v.files.keynew == Some(Key(v.held.value)) && v.lookers == 0 && v.writers == 0
    ensures v.files.order == w.files.order && v.files.key == w.files.key && v.nextKey >= w.nextKey
    ensures w.files.keynew.None? ==> v.held == Some(w.nextKey)
  {
    hide Reaches;
    v := w;
    ThenDo(u, v, Begin);
    v := Do(v, Begin);
    ThenDo(u, v, Look);
    v := Do(v, Look);
    if v.writers > 0 {
      ThenDo(u, v, WriteKey);
      v := Do(v, WriteKey);
    }
  }

  /** From an attempt that holds the waiting key to the moment its certificate's leaf is written. */
  lemma UpToTheLeaf(u: World, w: World) returns (v: World)
    requires Reaches(u, w) && Inv(w) && w.at == Trying && w.held.Some?
    requires w.files.keynew == Some(Key(w.held.value))
    ensures Reaches(u, v) && Inv(v) && v.at == Writing(w.held.value, true)
    ensures v.files.order == Some(Order(w.held)) && v.nextKey == w.nextKey
  {
    hide Reaches;
    v := w;
    ThenDo(u, v, OpenOrder);
    v := Do(v, OpenOrder);
    ThenDo(u, v, WriteOrder);
    v := Do(v, WriteOrder);
    ThenDo(u, v, Finalize);
    v := Do(v, Finalize);
    ThenDo(u, v, OpenCert);
    v := Do(v, OpenCert);
    ThenDo(u, v, LeafWritten);
    v := Do(v, LeafWritten);
  }

  /** The process dies once a leaf waits, and a start puts the pair in place. */
  lemma DieAndRecover(u: World, w: World) returns (v: World)
    requires Reaches(u, w) && Inv(w) && w.at != Down && w.files.NewCertLoads()
    ensures Reaches(u, v) && Inv(v) && v.at == Settled && Unstarted(v) && !v.files.NewCertLoads()
    ensures v.files.cert == w.files.certnew && v.files.keynew.None?
    ensures v.files.order == w.files.order && v.nextKey == w.nextKey
  {
    hide Reaches;
    ThenDo(u, w, Crash);
    v := Do(w, Crash);
    ThenDo(u, v, Start);
    v := Do(v, Start);
    ThenDo(u, v, Rename);
    v := Do(v, Rename);
    ThenDo(u, v, Rename);
    v := Do(v, Rename);
  }

  /** The first start of a run. */
  lemma FirstStart(w: World) returns (v: World)
    requires Initial(w)
    ensures Reaches(w, v) && Inv(v) && v == w.(at := Settled)
  {
    hide Reaches;
    Stay(w);
    ThenDo(w, w, Start);
    v := Do(w, Start);
  }

  /** A start leaves order.json behind.  From every directory, a run that is careful until then
      comes to an attempt that may resume an order whose certificate is already in place; if it
      does, its new key replaces the one that belongs to that certificate. */
  lemma StaleOrderLosesThePair(w: World) returns (u: World, v: World)
    requires Initial(w)
    ensures Reaches(w, u) && Can(u, Resume) && u.files.Matched()
    ensures u.files.key == Some(Key(u.files.order.value.key.value))
    ensures Reaches(Do(u, Resume), v) && v.at.Settled? && !v.files.Matched()
  {
    hide Reaches;
    u := FirstStart(w);
    u := AttemptWithKey(w, u);
    u := UpToTheLeaf(w, u);
    u := DieAndRecover(w, u);
    u := AttemptWithKey(w, u);
    v := CarelessEndsBadly(u, Resume);
  }

  /** The order on file is one whose certificate is in place. */
  predicate StaleOrder(f: Files) {
    f.order.Some? && f.order.value.key.Some? && f.cert.Some? && f.order.value.key.value == f.cert.value.key
  }

  /** A process that runs, and has a stale order only in the moment before it removes it. */
  ghost predicate Tidy(w: World) {
    !w.at.Down? && !w.at.Recovering? && !w.at.RecoveringCert? && (w.at.Unlinking? || !StaleOrder(w.files))
  }

  /** Only a crash does that: a process that goes on removes an order together with the attempt. */
  lemma {:induction false} OnlyACrashLeavesAStaleOrder(w: World, ops: seq<Op>)
    requires Inv(w) && CanAll(w, ops) && Careful(w, ops) && Crash !in ops && Tidy(w)
    ensures Tidy(DoAll(w, ops))
    decreases ops
  {
    hide Inv, Tidy, Do, Can, CarefulOp;
    if ops != [] {
      OpKeepsInv(w, ops[0]);
      OpKeepsTidy(w, ops[0]);
      OnlyACrashLeavesAStaleOrder(Do(w, ops[0]), ops[1..]);
    }
  }

  lemma OpKeepsTidy(w: World, op: Op)
    requires Inv(w) && Can(w, op) && CarefulOp(w, op) && op != Crash && Tidy(w)
    ensures Tidy(Do(w, op))
  {
  }

  /** Two key generations that overlap: the older one writes when the newer one's key has been sent
      to be certified. */
  lemma OldGenerationLosesThePair(w: World) returns (u: World, v: World)
    requires Initial(w) && w.files.keynew.None?
    ensures Reaches(w, u) && u.at.Finalizing? && Can(u, WriteKey)
    ensures Reaches(Do(u, WriteKey), v) && v.at.Settled? && !v.files.Matched()
  {
    hide Reaches;
    u := FirstStart(w);
    ThenDo(w, u, Begin);
    u := Do(u, Begin);
    ThenDo(w, u, Look);
    u := Do(u, Look);
    ThenDo(w, u, GiveUp);
    u := Do(u, GiveUp);
    ThenDo(w, u, Begin);
    u := Do(u, Begin);
    ThenDo(w, u, Look);
    u := Do(u, Look);
    ThenDo(w, u, WriteKey);
    u := Do(u, WriteKey);
    ThenDo(w, u, OpenOrder);
    u := Do(u, OpenOrder);
    ThenDo(w, u, WriteOrder);
    u := Do(u, WriteOrder);
    ThenDo(w, u, Finalize);
    u := Do(u, Finalize);
    v := CarelessEndsBadly(u, WriteKey);
  }

  /* ---------- what a start leads to ---------- */

  /** A start may be interrupted and repeated: no rename, no crash, nothing before the certificate is
      opened changes where it leads. */
  lemma RecoveryMayBeInterrupted(w: World, op: Op)
    requires Inv(w) && Can(w, op) && op in {Crash, Start, Rename, Begin, GiveUp, Look, Finalize, Resume}
    ensures Recover(Do(w, op).files).key == Recover(w.files).key
    ensures Recover(Do(w, op).files).cert == Recover(w.files).cert
  {
  }

  /** Both old or both new: what the next start will put in place changes at one operation only,
      the one that completes the leaf of certnew.pem, and then to the new pair.  (An attempt after a
      start that found no account may open a certnew.pem that waits; then the pair that is in place
      is what the next start leads to again.) */
  lemma LeafCommits(w: World, op: Op)
    requires Inv(w) && Can(w, op) && CarefulOp(w, op)
    ensures var was, now := Recover(w.files), Recover(Do(w, op).files);
      if op == LeafWritten then now.key == Some(Key(w.at.k)) && now.cert == Some(Cert(w.at.k, true, false))
      else if op == OpenCert then now.key == w.files.key && now.cert == w.files.cert
      else
        && now.key == was.key && (op != CertWritten ==> now.cert == was.cert)
        && (now.cert.None? ==> was.cert.None?)
        && (now.cert.Some? ==> was.cert.Some? && now.cert.value.key == was.cert.value.key)
  {
  }

  /* ---------- whole chains ---------- */

  /** In any run, careful or not: certnew.pem holds a cut chain exactly while it is being written, or
      after the process died there. */
  ghost predicate CutIsKnown(w: World) {
    && (w.files.NewCertLoads() && !w.files.certnew.value.whole <==> w.cut || (w.at.Writing? && w.at.leaf))
    && match w.at
       case Writing(k, leaf) => !w.cut && w.files.certnew == Some(Cert(k, leaf, false))
       case Renaming(k) => w.files.certnew == Some(Cert(k, true, true))
       case RenamingCert(k) => w.files.certnew == Some(Cert(k, true, true))
       case Recovering => w.files.NewCertLoads()
       case RecoveringCert => w.files.NewCertLoads()
       case _ => true
  }

  /** Whether, in a run, the last certificate that was put in place came from a start after the
      process had died between the leaf and the rest of the chain; `before` says so of the one that
      was in place when the run began. */
  ghost predicate CutInstalled(w: World, ops: seq<Op>, before: bool)
    requires CanAll(w, ops)
    decreases ops
  {
    if ops == [] then before
    else
      CutInstalled(Do(w, ops[0]), ops[1..],
                   if ops[0] == Rename && w.at.RecoveringCert? then w.cut
                   else if ops[0] == Rename && w.at.RenamingCert? then false else before)
  }

  lemma OpKeepsCutKnown(w: World, op: Op)
    requires CutIsKnown(w) && Can(w, op)
    ensures CutIsKnown(Do(w, op))
  {
  }

  /** In every run, the chain in place is cut if and only if it was put there by a start after the
      process had died between the leaf and the rest, with certnew.pem not opened in between. */
  lemma {:induction false} ChainIsWholeUnlessCut(w: World, ops: seq<Op>)
    requires CutIsKnown(w) && CanAll(w, ops)
    ensures CutChain(DoAll(w, ops).files.cert) <==> CutInstalled(w, ops, CutChain(w.files.cert))
    decreases ops
  {
    if ops != [] {
      OpKeepsCutKnown(w, ops[0]);
      ChainIsWholeUnlessCut(Do(w, ops[0]), ops[1..]);
    }
  }

  predicate CutChain(cert: Option<CertFile>) {
    cert.Some? && !cert.value.whole
  }

  /** And that can happen: from every directory a careful run leads to a matching pair whose chain is
      cut short. */
  lemma ChainMayBeCut(w: World) returns (v: World)
    requires Initial(w)
    ensures Reaches(w, v) && v.at.Settled? && v.files.Matched() && CutChain(v.files.cert)
  {
    hide Reaches;
    v := FirstStart(w);
    v := AttemptWithKey(w, v);
    v := UpToTheLeaf(w, v);
    v := DieAndRecover(w, v);
  }
}
