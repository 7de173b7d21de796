/**
 What a run of the install/upgrade acceptance leaves on disk, and the history of its effects.

 A run may die at any of its external steps, before or after the step took effect; the next run starts from the disk
 alone. Revisions, operations and identities are numbers.
 */
module InstallJournal {
  import opened Wrappers

  datatype Op = Install | Upgrade

  datatype Receipt = Receipt(revision: nat, operation: nat)

  /** An installation receipt together with the identity of the containers it was made for. */
  datatype Effect = Effect(receipt: Receipt, runtime: nat)

  /** `rootId` is the directory and the operation that owns it. Without `current` the journal holds only an intent. */
  datatype Journal = Journal(op: Op, base: nat, target: nat, rootId: (nat, nat),
                             baseEffect: Option<Effect>, current: Option<Effect>, private: Option<nat>)

  /** The ownership receipt; `Partial` if the process died while writing it. */
  datatype Ownership = NoFile | Partial | Owned(operation: nat, commit: nat, root: nat)

  /** Everything that survives a crash. `log` is the history of durable writes and effects. */
  datatype Disk = Disk(root: Option<nat>, own: Ownership, journal: Option<Journal>, receipt: Option<Receipt>,
                       runtime: nat, private: Option<nat>, nextRoot: nat, log: seq<Event>)

  datatype Event =
    | RootMade(root: nat)
    | Intended(op: Op, root: nat, revision: nat)
    | Started(op: Op, root: nat, revision: nat)
    | Completed(op: Op, root: nat, revision: nat, runtime: nat)
    | Journaled(op: Op, root: nat, revision: nat)
    | ReceiptWritten(root: nat, revision: nat)
    | JournalRemoved(root: nat)
    | RemovalStarted(root: nat)
    | RootRemoved(root: nat)

  // ---------------------------------------------------------------- safety of a history

  datatype Pending = Clear | Intent(op: Op, revision: nat) | Effective(op: Op, revision: nat)

  /** What the journal under a root holds, read off the history. */
  function JournalState(log: seq<Event>, root: nat): Pending {
    if log == [] then Clear
    else
      var n := |log| - 1;
      match log[n]
      case Intended(op, r, revision) => if r == root then Intent(op, revision) else JournalState(log[..n], root)
      case Journaled(op, r, revision) => if r == root then Effective(op, revision) else JournalState(log[..n], root)
      case JournalRemoved(r) => if r == root then Clear else JournalState(log[..n], root)
      case RootRemoved(r) => if r == root then Clear else JournalState(log[..n], root)
      case _ => JournalState(log[..n], root)
  }

  ghost predicate NeverStarted(log: seq<Event>, op: Op, root: nat) {
    forall revision :: Started(op, root, revision) !in log
  }

  /** The history tells of the completed effect, with its containers. */
  ghost predicate CompletedAs(log: seq<Event>, op: Op, root: nat, e: Effect) {
    Completed(op, root, e.receipt.revision, e.runtime) in log
  }

  ghost predicate WasCompleted(log: seq<Event>, op: Op, root: nat, revision: nat) {
    exists runtime :: Completed(op, root, revision, runtime) in log
  }

  /** When an event may follow a history. */
  ghost predicate Allowed(past: seq<Event>, e: Event) {
    match e
    case Started(op, root, revision) =>
      NeverStarted(past, op, root) && JournalState(past, root) == Intent(op, revision)
    case Completed(op, root, revision, _) => Started(op, root, revision) in past
    case Journaled(op, root, revision) => WasCompleted(past, op, root, revision)
    case ReceiptWritten(root, revision) =>
      Journaled(Install, root, revision) in past || Journaled(Upgrade, root, revision) in past
    case RemovalStarted(root) => JournalState(past, root) == Clear
    case RootRemoved(root) => JournalState(past, root) == Clear
    case _ => true
  }

  /**
   Each effect is started at most once per root and only under a journaled intent, is journaled only after it completed,
   is receipted only after it was journaled, and nothing is removed under a journal.
   */
  ghost predicate Safe(log: seq<Event>) {
    forall i {:trigger Allowed(log[..i], log[i])} :: 0 <= i < |log| ==> Allowed(log[..i], log[i])
  }

  lemma SafeSnoc(log: seq<Event>, e: Event)
    requires Safe(log) && Allowed(log, e)
    ensures Safe(log + [e])
  {
    var after := log + [e];
    forall i | 0 <= i < |after| ensures Allowed(after[..i], after[i]) {
      assert i < |log| ==> after[..i] == log[..i] && after[i] == log[i];
      assert i == |log| ==> after[..i] == log;
    }
  }

  /** At most once: two starts are of different effects or under different roots. */
  lemma StartedOnce(log: seq<Event>, i: nat, j: nat)
    requires Safe(log) && i < j < |log| && log[i].Started? && log[j].Started?
    ensures log[i].op != log[j].op || log[i].root != log[j].root
  {
    assert Allowed(log[..j], log[j]);
    assert log[..j][i] == log[i];
    assert Started(log[i].op, log[i].root, log[i].revision) in log[..j];
  }

  /** A receipt in the history is preceded by the journal entry, that by the completion, and that by the start. */
  lemma ReceiptFollowsEffect(log: seq<Event>, i: nat) returns (op: Op, j: nat, c: nat, s: nat)
    requires Safe(log) && i < |log| && log[i].ReceiptWritten?
    ensures s < c < j < i
    ensures log[j] == Journaled(op, log[i].root, log[i].revision)
    ensures log[c].Completed? && log[c] == Completed(op, log[i].root, log[i].revision, log[c].runtime)
    ensures log[s] == Started(op, log[i].root, log[i].revision)
  {
    assert Allowed(log[..i], log[i]);
    op := if Journaled(Install, log[i].root, log[i].revision) in log[..i] then Install else Upgrade;
    j :| 0 <= j < i && log[j] == Journaled(op, log[i].root, log[i].revision);
    assert Allowed(log[..j], log[j]);
    var runtime :| Completed(op, log[i].root, log[i].revision, runtime) in log[..j];
    c :| 0 <= c < j && log[c] == Completed(op, log[i].root, log[i].revision, runtime);
    assert Allowed(log[..c], log[c]);
    s :| 0 <= s < c && log[s] == Started(op, log[i].root, log[i].revision);
  }

  // ---------------------------------------------------------------- the disk agrees with the history

  ghost predicate Mentions(e: Event, below: nat) { e.root < below }

  ghost predicate JournalOk(d: Disk)
    requires d.root.Some? && d.journal.Some?
  {
    var r, j := d.root.value, d.journal.value;
    && JournalState(d.log, r) == (if j.current.Some? then Effective(j.op, j.target) else Intent(j.op, j.target))
    && (j.op == Install ==> NeverStarted(d.log, Upgrade, r))
    && (j.current.Some? ==> j.current.value.receipt.revision == j.target && Journaled(j.op, r, j.target) in d.log)
    && (j.current.Some? ==> CompletedAs(d.log, j.op, r, j.current.value))
    && (j.op == Upgrade ==> j.baseEffect.Some? && j.baseEffect.value.receipt.revision == j.base
                            && CompletedAs(d.log, Install, r, j.baseEffect.value))
  }

  /**
   What a journal records is true: it names the root and the operation that own it, an installation is of its own base
   and an upgrade of the owner's commit, a completed effect comes with the private state it left, and a receipt beside a
   journaled installation is the one of its effect.
   */
  ghost predicate Attested(d: Disk)
    requires d.root.Some? && d.journal.Some?
  {
    var j := d.journal.value;
    && d.own.Owned? && d.own.root == d.root.value && j.rootId == (d.root.value, d.own.operation)
    && (j.current.Some? ==> j.private.Some?) && j.base != d.own.commit
    && match j.op
       case Install => j.target == j.base && j.baseEffect.None?
                       && (d.receipt.None? || (j.current.Some? && d.receipt == Some(j.current.value.receipt)))
       case Upgrade => j.target == d.own.commit
  }

  ghost predicate Inv(d: Disk) {
    && Safe(d.log)
    && (forall i {:trigger Mentions(d.log[i], d.nextRoot)} :: 0 <= i < |d.log| ==> Mentions(d.log[i], d.nextRoot))
    && (d.root.None? ==> d.journal.None? && d.receipt.None?)
    && (d.root.Some? ==>
          var r := d.root.value;
          && r < d.nextRoot
          && (if d.journal.Some? then JournalOk(d) && Attested(d) else JournalState(d.log, r) == Clear)
          && (d.receipt.Some? ==>
                var revision := d.receipt.value.revision;
                Journaled(Install, r, revision) in d.log || Journaled(Upgrade, r, revision) in d.log))
  }

  /** The history of one disk continues that of the other. */
  ghost predicate Extends(before: Disk, after: Disk) { before.log <= after.log }

  const BLANK := Disk(None, NoFile, None, None, 0, None, 0, [])

  lemma BlankInv()
    ensures Inv(BLANK)
  {}

  // ---------------------------------------------------------------- durable writes

  function MakeRoot(d: Disk): Disk {
    d.(root := Some(d.nextRoot), private := None, nextRoot := d.nextRoot + 1, log := d.log + [RootMade(d.nextRoot)])
  }

  function PutJournal(d: Disk, j: Journal): Disk
    requires d.root.Some?
  {
    var e := if j.current.Some? then Journaled(j.op, d.root.value, j.target) else Intended(j.op, d.root.value, j.target);
    d.(journal := Some(j), log := d.log + [e])
  }

  function Begin(d: Disk, op: Op, revision: nat, runtime: nat): Disk
    requires d.root.Some?
  {
    d.(runtime := runtime, log := d.log + [Started(op, d.root.value, revision)])
  }

  function Complete(d: Disk, op: Op, revision: nat): Disk
    requires d.root.Some?
  {
    d.(log := d.log + [Completed(op, d.root.value, revision, d.runtime)])
  }

  function PutReceipt(d: Disk, receipt: Receipt): Disk
    requires d.root.Some?
  {
    d.(receipt := Some(receipt), log := d.log + [ReceiptWritten(d.root.value, receipt.revision)])
  }

  function DropJournal(d: Disk): Disk
    requires d.root.Some?
  {
    d.(journal := None, log := d.log + [JournalRemoved(d.root.value)])
  }

  function BeginRemoval(d: Disk): Disk
    requires d.root.Some?
  {
    d.(log := d.log + [RemovalStarted(d.root.value)])
  }

  function RemoveRoot(d: Disk): Disk
    requires d.root.Some?
  {
    d.(root := None, journal := None, receipt := None, private := None, log := d.log + [RootRemoved(d.root.value)])
  }

  /** Nothing has happened under a root yet except that it was made. */
  ghost predicate Untouched(d: Disk) {
    d.root.Some? && d.journal.None? && d.receipt.None? && NeverStarted(d.log, Install, d.root.value)
    && NeverStarted(d.log, Upgrade, d.root.value)
  }

  lemma JournalStateSnoc(log: seq<Event>, e: Event, root: nat)
    ensures JournalState(log + [e], root) ==
            match e
            case Intended(op, r, revision) => if r == root then Intent(op, revision) else JournalState(log, root)
            case Journaled(op, r, revision) => if r == root then Effective(op, revision) else JournalState(log, root)
            case JournalRemoved(r) => if r == root then Clear else JournalState(log, root)
            case RootRemoved(r) => if r == root then Clear else JournalState(log, root)
            case _ => JournalState(log, root)
  {
    assert (log + [e])[..|log|] == log;
  }

  lemma {:induction false} FreshIsClear(log: seq<Event>, root: nat)
    requires forall i {:trigger log[i]} :: 0 <= i < |log| ==> log[i].root < root
    ensures JournalState(log, root) == Clear
  {
    if log != [] {
      FreshIsClear(log[..|log| - 1], root);
    }
  }

  lemma MakeRootKeeps(d: Disk)
    requires Inv(d) && d.root.None?
    ensures Inv(MakeRoot(d)) && Untouched(MakeRoot(d))
  {
    var r := d.nextRoot;
    forall i | 0 <= i < |d.log| ensures d.log[i].root < r {
      assert Mentions(d.log[i], d.nextRoot);
    }
    FreshIsClear(d.log, r);
    JournalStateSnoc(d.log, RootMade(r), r);
    SafeSnoc(d.log, RootMade(r));
  }

  /** Journaling the intent to install under an untouched root, or to upgrade over an installed base. */
  lemma IntentKeeps(d: Disk, j: Journal)
    requires Inv(d) && d.root.Some? && j.current.None?
    requires j.op == Install ==> Untouched(d)
    requires j.op == Upgrade ==> j.baseEffect.Some? && j.baseEffect.value.receipt.revision == j.base
                                 && CompletedAs(d.log, Install, d.root.value, j.baseEffect.value)
    requires Attested(d.(journal := Some(j)))
    ensures Inv(PutJournal(d, j))
  {
    var e := Intended(j.op, d.root.value, j.target);
    SafeSnoc(d.log, e);
    JournalStateSnoc(d.log, e, d.root.value);
  }

  /** Starting an effect whose intent is journaled and that was never started under this root. */
  lemma BeginKeeps(d: Disk, op: Op, revision: nat, runtime: nat)
    requires Inv(d) && d.root.Some? && d.journal.Some? && d.journal.value.current.None?
    requires d.journal.value.op == op && d.journal.value.target == revision && NeverStarted(d.log, op, d.root.value)
    ensures Inv(Begin(d, op, revision, runtime))
    ensures Started(op, d.root.value, revision) in Begin(d, op, revision, runtime).log
  {
    var e := Started(op, d.root.value, revision);
    SafeSnoc(d.log, e);
    JournalStateSnoc(d.log, e, d.root.value);
    StartKeepsJournal(d, op, revision, runtime);
  }

  lemma StartKeepsJournal(d: Disk, op: Op, revision: nat, runtime: nat)
    requires d.root.Some? && d.journal.Some? && JournalOk(d) && d.journal.value.current.None? && d.journal.value.op == op
    ensures JournalOk(Begin(d, op, revision, runtime))
  {
    JournalStateSnoc(d.log, Started(op, d.root.value, revision), d.root.value);
  }

  lemma CompleteKeeps(d: Disk, op: Op, revision: nat)
    requires Inv(d) && d.root.Some? && Started(op, d.root.value, revision) in d.log
    ensures Inv(Complete(d, op, revision))
  {
    var e := Completed(op, d.root.value, revision, d.runtime);
    SafeSnoc(d.log, e);
    JournalStateSnoc(d.log, e, d.root.value);
  }

  lemma EffectKeeps(d: Disk, j: Journal)
    requires Inv(d) && d.root.Some? && d.journal.Some? && j.current.Some?
    requires d.journal.value.op == j.op && CompletedAs(d.log, j.op, d.root.value, j.current.value)
    requires j.current.value.receipt.revision == j.target
    requires j.op == Upgrade ==> j.baseEffect.Some? && j.baseEffect.value.receipt.revision == j.base
                                 && CompletedAs(d.log, Install, d.root.value, j.baseEffect.value)
    requires Attested(d.(journal := Some(j)))
    ensures Inv(PutJournal(d, j))
  {
    var e := Journaled(j.op, d.root.value, j.target);
    SafeSnoc(d.log, e);
    JournalStateSnoc(d.log, e, d.root.value);
  }

  lemma ReceiptKeeps(d: Disk, receipt: Receipt)
    requires Inv(d) && d.root.Some?
    requires Journaled(Install, d.root.value, receipt.revision) in d.log || Journaled(Upgrade, d.root.value, receipt.revision) in d.log
    requires d.journal.Some? ==> Attested(d.(receipt := Some(receipt)))
    ensures Inv(PutReceipt(d, receipt))
  {
    var e := ReceiptWritten(d.root.value, receipt.revision);
    SafeSnoc(d.log, e);
    JournalStateSnoc(d.log, e, d.root.value);
  }

  lemma DropJournalKeeps(d: Disk)
    requires Inv(d) && d.root.Some?
    ensures Inv(DropJournal(d))
  {
    var e := JournalRemoved(d.root.value);
    SafeSnoc(d.log, e);
    JournalStateSnoc(d.log, e, d.root.value);
  }

  lemma RemovalKeeps(d: Disk)
    requires Inv(d) && d.root.Some? && d.journal.None?
    ensures Inv(BeginRemoval(d)) && Inv(RemoveRoot(d))
  {
    var r := d.root.value;
    SafeSnoc(d.log, RemovalStarted(r));
    JournalStateSnoc(d.log, RemovalStarted(r), r);
    SafeSnoc(d.log, RootRemoved(r));
  }
}
