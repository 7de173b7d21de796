/**
 The acceptance run itself: the driver's methods and `run_native`, step by step. Every external step asks the
 environment, which may let it succeed, make it raise, or kill the process, before or after it took effect.
 */
module NativeRuns {
  import opened Wrappers
  import opened InstallJournal

  datatype Answer = Good | Fail(managed: bool, applied: bool) | Halt(applied: bool)

  /** How a call ends: with a value, with an exception, or not at all because the process died. */
  datatype Outcome<+T> = Done(value: T) | Raised(managed: bool, preserve: bool) | Halted {
    predicate IsFailure() { !Done? }

    function PropagateFailure<U>(): Outcome<U>
      requires IsFailure()
    {
      if Halted? then Halted else Raised(managed, preserve)
    }

    function Extract(): T
      requires Done?
    {
      value
    }
  }

  /** What a reconciled journal gives back. */
  datatype Recovered = Recovered(base: Option<Effect>, current: Effect, private: nat)

  /** The evidence of a completed upgrade. */
  datatype Evidence = Evidence(base: Effect, current: Effect, private: nat, recovered: bool)

  /** The journal belongs to the root that the ownership receipt of this commit names. */
  ghost predicate Ours(d: Disk, commit: nat) {
    && d.root.Some? && d.own.Owned? && d.own.commit == commit && d.own.root == d.root.value
    && d.journal.Some? && d.journal.value.rootId == (d.root.value, d.own.operation)
  }

  /** The journaled effect is complete and the containers and the private state are still the ones it recorded. */
  ghost predicate Undisturbed(d: Disk) {
    && d.journal.Some? && d.journal.value.current.Some? && d.journal.value.current.value.runtime == d.runtime
    && d.private.Some? && d.journal.value.private == d.private
  }

  /** A run for these revisions can take up where the journal left off. */
  ghost predicate Recoverable(d: Disk, base: nat, commit: nat) {
    && Ours(d, commit) && Undisturbed(d)
    && var j := d.journal.value;
       match j.op
       case Install => j.target == base && j.base == base && j.baseEffect.None?
                       && (d.receipt.None? || d.receipt == Some(j.current.value.receipt))
       case Upgrade => j.target == commit && j.base == base
  }

  ghost predicate Finished(d: Disk, commit: nat) {
    d.root.Some? && d.journal.None? && d.receipt.Some? && d.receipt.value.revision == commit
  }

  /** The revision of the receipt has a journaled effect under the current root; beside a journaled installation it is its own. */
  ghost predicate Receiptable(d: Disk, receipt: Receipt)
    requires d.root.Some?
  {
    && (Journaled(Install, d.root.value, receipt.revision) in d.log || Journaled(Upgrade, d.root.value, receipt.revision) in d.log)
    && (d.journal.Some? && d.journal.value.op == Install ==>
          d.journal.value.current.Some? && receipt == d.journal.value.current.value.receipt)
  }

  /** The effect of the operation is journaled as complete. */
  ghost predicate EffectLeft(d: Disk, op: Op) {
    d.journal.Some? && d.journal.value.op == op && d.journal.value.current.Some?
  }

  /** If a completed effect is journaled, a run for these revisions can take it up. */
  ghost predicate LeftRecoverable(d: Disk, base: nat, commit: nat) {
    d.journal.Some? && d.journal.value.current.Some? ==> Recoverable(d, base, commit)
  }

  /** A journaled effect can be taken up, for its own base and the commit that owns the root, exactly while undisturbed. */
  lemma EffectCanBeTakenUp(d: Disk)
    requires Inv(d) && d.journal.Some? && d.journal.value.current.Some?
    ensures d.own.Owned? && d.journal.value.base != d.own.commit
    ensures Recoverable(d, d.journal.value.base, d.own.commit) <==> Undisturbed(d)
  {}

  /** The states that writing a receipt, and removing the journal for the target revision, passes through. */
  ghost predicate Persisting(before: Disk, after: Disk, receipt: Receipt, commit: nat)
    requires before.root.Some?
  {
    || after == before
    || after == PutReceipt(before, receipt)
    || (receipt.revision == commit && after == DropJournal(PutReceipt(before, receipt)))
  }

  /** A run for these revisions has something to do: a journaled effect to take up, or nothing there at all. */
  ghost predicate Startable(d: Disk, base: nat, commit: nat) {
    Recoverable(d, base, commit) || Gone(d)
  }

  /** Neither a root nor an ownership receipt. */
  predicate Gone(d: Disk) { d.root.None? && d.own.NoFile? }

  /**
   The evidence names the two revisions, the receipt that is stored now, and the containers and private state that are there;
   both effects it names were completed under this root.
   */
  ghost predicate Reported(d: Disk, base: nat, commit: nat, e: Evidence) {
    && Finished(d, commit) && e.base.receipt.revision == base && e.current.receipt.revision == commit
    && d.receipt == Some(e.current.receipt) && e.current.runtime == d.runtime && d.private == Some(e.private)
    && CompletedAs(d.log, Install, d.root.value, e.base) && CompletedAs(d.log, Upgrade, d.root.value, e.current)
  }

  /** It says whether a journal was taken up, and then its base effect is the one that journal held. */
  ghost predicate FromJournal(j: Option<Journal>, e: Evidence) {
    && (e.recovered <==> j.Some?)
    && (j.Some? && j.value.op == Install ==> Some(e.base) == j.value.current)
    && (j.Some? && j.value.op == Upgrade ==> Some(e.base) == j.value.baseEffect && Some(e.current) == j.value.current)
  }

  /** Nothing is there, or what is there belongs to this commit and has no journal. */
  ghost predicate Removable(d: Disk, commit: nat) {
    || Gone(d)
    || (d.own.Owned? && d.own.commit == commit && d.journal.None? && (d.root.Some? ==> d.own.root == d.root.value)
        && (d.receipt.Some? ==> d.receipt.value.revision == commit))
  }

  class DockerDriver {
    const commit: nat
    /** What the environment answers, and what it shows, at each step. */
    const answers: nat -> Answer
    const readings: nat -> nat
    var pos: nat
    var disk: Disk
    var operation: nat
    var baseEffect: Option<Effect>
    var privateBefore: Option<nat>

    constructor (disk: Disk, commit: nat, operation: nat, answers: nat -> Answer, readings: nat -> nat)
      ensures this.disk == disk && this.commit == commit && this.answers == answers && pos == 0
      ensures baseEffect.None? && privateBefore.None?
    {
      this.disk, this.commit, this.operation := disk, commit, operation;
      this.answers, this.readings, pos := answers, readings, 0;
      baseEffect, privateBefore := None, None;
    }

    /** The environment does not interfere from one step up to another. */
    ghost predicate Steady(from: nat, to: nat) {
      forall i {:trigger answers(i)} :: from <= i < to ==> answers(i).Good?
    }

    /** It interferes at least twice. */
    ghost predicate TwoFaults(from: nat, to: nat) {
      exists i, j {:trigger answers(i), answers(j)} :: from <= i < j < to && !answers(i).Good? && !answers(j).Good?
    }

    method Next() returns (a: Answer)
      modifies this`pos
      ensures pos == old(pos) + 1 && a == answers(old(pos))
    {
      a := answers(pos);
      pos := pos + 1;
    }

    /** An external step that leaves the disk alone. */
    method Ask() returns (o: Outcome<()>)
      modifies this`pos
      ensures old(pos) <= pos && (Steady(old(pos), pos) ==> o.Done?)
      ensures o.Raised? ==> !o.preserve
    {
      var a := Next();
      match a
      case Good => o := Done(());
      case Fail(managed, _) => o := Raised(managed, false);
      case Halt(_) => o := Halted;
    }

    /** An atomic durable write of the whole disk state: the old one or the new one, never anything between. */
    method Store(after: Disk) returns (o: Outcome<()>)
      requires Extends(disk, after)
      modifies this`pos, this`disk
      ensures Extends(old(disk), disk)
      ensures old(pos) <= pos && (Steady(old(pos), pos) ==> o.Done?)
      ensures disk == old(disk) || disk == after
      ensures o.Done? ==> disk == after
      ensures o.Raised? ==> !o.preserve
    {
      var a := Next();
      if a.Good? || a.applied {
        disk := after;
      }
      match a
      case Good => o := Done(());
      case Fail(managed, _) => o := Raised(managed, false);
      case Halt(_) => o := Halted;
    }

    /** `_root_identity` */
    method RootIdentity() returns (o: Outcome<(nat, nat)>)
      modifies this`pos
      ensures o.Done? ==> disk.root.Some? && disk.own == Owned(operation, commit, disk.root.value)
                          && o.value == (disk.root.value, operation)
      ensures Steady(old(pos), pos) && disk.root.Some? && disk.own == Owned(operation, commit, disk.root.value) ==> o.Done?
      ensures old(pos) <= pos
      ensures o.Raised? ==> !o.preserve
    {
      var _ :- Ask();
      if disk.root.Some? && disk.own == Owned(operation, commit, disk.root.value) {
        return Done((disk.root.value, operation));
      }
      return Raised(true, false);
    }

    /** `private_state`: fails while the sentinels are missing. */
    method PrivateState() returns (o: Outcome<nat>)
      modifies this`pos
      ensures o.Done? ==> disk.private == Some(o.value)
      ensures Steady(old(pos), pos) && disk.private.Some? ==> o.Done?
      ensures old(pos) <= pos
      ensures o.Raised? ==> !o.preserve
    {
      var _ :- Ask();
      if disk.private.None? {
        return Raised(false, false);
      }
      return Done(disk.private.value);
    }

    /** What a journal written by this run holds, under its own root. */
    ghost function Written(op: Op, base: nat, revision: nat, root: nat, kept: Option<Effect>, current: Option<Effect>,
                           private: Option<nat>): Journal
      reads this`operation
    {
      Journal(op, base, revision, (root, operation), if op == Install then None else kept, current, private)
    }

    /** Journals the intent, with what is known of the base. */
    method WriteIntent(op: Op, base: nat, revision: nat) returns (o: Outcome<()>)
      requires Inv(disk) && disk.root.Some? && (if op == Install then Untouched(disk) && base == revision else revision == commit) && base != commit
      requires op == Upgrade ==> baseEffect.Some? && baseEffect.value.receipt.revision == base
                                 && CompletedAs(disk.log, Install, disk.root.value, baseEffect.value)
      modifies this`pos, this`disk
      ensures Extends(old(disk), disk)
      ensures Inv(disk)
      ensures disk == old(disk) ||
              (disk.own == Owned(operation, commit, old(disk).root.value)
               && disk == PutJournal(old(disk), Written(op, base, revision, old(disk).root.value, baseEffect, None,
                                                        if op == Install then None else privateBefore)))
      ensures o.Done? ==> disk.journal.Some? && disk.journal.value.current.None? && disk != old(disk)
      ensures Steady(old(pos), pos) && disk.own == Owned(operation, commit, old(disk).root.value) ==> o.Done?
      ensures old(pos) <= pos
      ensures o.Raised? ==> !o.preserve
    {
      var id :- RootIdentity();
      var effect, private := if op == Install then None else baseEffect, if op == Install then None else privateBefore;
      var intent := Journal(op, base, revision, id, effect, None, private);
      IntentKeeps(disk, intent);
      o := Store(PutJournal(disk, intent));
    }

    /** Pulls, creates and starts the containers; for an installation also seeds the private state. */
    method Perform(op: Op, revision: nat) returns (o: Outcome<Effect>)
      requires Inv(disk) && disk.root.Some? && disk.journal.Some? && disk.journal.value.current.None?
      requires disk.journal.value.op == op && disk.journal.value.target == revision
      requires NeverStarted(disk.log, op, disk.root.value)
      modifies this`pos, this`disk
      ensures Extends(old(disk), disk)
      ensures Inv(disk) && disk.root == old(disk).root && disk.own == old(disk).own && disk.receipt == old(disk).receipt
      ensures disk.journal == old(disk).journal && (op == Upgrade ==> disk.private == old(disk).private)
      ensures o.Done? ==> o.value == Effect(Receipt(revision, operation), disk.runtime)
      ensures o.Done? ==> CompletedAs(disk.log, op, disk.root.value, o.value)
      ensures o.Done? && op == Install ==> disk.private.Some?
      ensures Steady(old(pos), pos) && (op == Install ==> old(disk).private.None?) ==> o.Done?
      ensures old(pos) <= pos
      ensures o.Raised? ==> !o.preserve
    {
      BeginKeeps(disk, op, revision, readings(pos));
      disk := Begin(disk, op, revision, readings(pos));
      var _ :- Ask();
      if op == Install {
        if disk.private.Some? {
          return Raised(false, false);
        }
        disk := disk.(private := Some(readings(pos)));
        var _ :- Ask();
      }
      CompleteKeeps(disk, op, revision);
      disk := Complete(disk, op, revision);
      return Done(Effect(Receipt(revision, operation), disk.runtime));
    }

    /** Journals the completed effect over its intent. */
    method WriteEffect(op: Op, base: nat, revision: nat, effect: Effect) returns (o: Outcome<()>)
      requires Inv(disk) && disk.root.Some? && disk.journal.Some? && disk.journal.value.op == op
      requires CompletedAs(disk.log, op, disk.root.value, effect) && effect.receipt.revision == revision
      requires if op == Install then base == revision && disk.receipt.None? else revision == commit && privateBefore.Some?
      requires base != commit
      requires op == Upgrade ==> baseEffect.Some? && baseEffect.value.receipt.revision == base
                                 && CompletedAs(disk.log, Install, disk.root.value, baseEffect.value)
      modifies this`pos, this`disk
      ensures Extends(old(disk), disk)
      ensures Inv(disk)
      ensures disk == old(disk) ||
              (disk.own == Owned(operation, commit, old(disk).root.value) && (op == Install ==> disk.private.Some?)
               && disk == PutJournal(old(disk), Written(op, base, revision, old(disk).root.value, baseEffect, Some(effect),
                                                        if op == Install then old(disk).private else privateBefore)))
      ensures o.Done? ==> disk.journal.Some? && disk.journal.value.current == Some(effect) && disk != old(disk)
      ensures (Steady(old(pos), pos) && disk.own == Owned(operation, commit, old(disk).root.value)
               && (op == Install ==> old(disk).private.Some?)) ==> o.Done?
      ensures old(pos) <= pos
      ensures o.Raised? ==> !o.preserve
    {
      var id :- RootIdentity();
      var kept, private := baseEffect, privateBefore;
      if op == Install {
        var state :- PrivateState();
        kept, private := None, Some(state);
      }
      var done := Journal(op, base, revision, id, kept, Some(effect), private);
      EffectKeeps(disk, done);
      o := Store(PutJournal(disk, done));
    }

    /** `apply_install` */
    method ApplyInstall(revision: nat) returns (o: Outcome<Effect>)
      requires Inv(disk) && Untouched(disk) && revision != commit
      modifies this`pos, this`disk, this`baseEffect
      ensures Extends(old(disk), disk)
      ensures Inv(disk) && disk.root == old(disk).root && disk.own == old(disk).own && disk.receipt == old(disk).receipt
      ensures disk.journal.None? ==> disk == old(disk)
      ensures disk.journal.Some? ==>
                disk.journal.value == Written(Install, revision, revision, disk.root.value, None, disk.journal.value.current,
                                              if disk.journal.value.current.None? then None else disk.private)
      ensures disk.journal.Some? && disk.journal.value.current.Some? ==>
                disk.journal.value.current == Some(Effect(Receipt(revision, operation), disk.runtime)) && Undisturbed(disk)
      ensures o.Done? ==> disk.journal.Some? && disk.journal.value.current == Some(o.value) && baseEffect == Some(o.value)
      ensures (Steady(old(pos), pos) && disk.own == Owned(operation, commit, old(disk).root.value) && old(disk).private.None?) ==> o.Done?
      ensures old(pos) <= pos
      ensures o.Raised? ==> !o.preserve
    {
      var _ :- Ask();
      var _ :- WriteIntent(Install, revision, revision);
      IntentStartsNothing(old(disk), disk.journal.value);
      var effect :- Perform(Install, revision);
      var _ :- WriteEffect(Install, revision, revision, effect);
      baseEffect := Some(effect);
      return Done(effect);
    }

    /** `apply_upgrade` */
    method ApplyUpgrade(revision: nat) returns (o: Outcome<Effect>)
      requires Inv(disk) && disk.root.Some? && disk.journal.Some? && disk.journal.value.op == Install && revision == commit
      requires baseEffect.Some? ==>
                 baseEffect.value.receipt.revision != commit && CompletedAs(disk.log, Install, disk.root.value, baseEffect.value)
      modifies this`pos, this`disk
      ensures Extends(old(disk), disk)
      ensures Inv(disk) && disk.root == old(disk).root && disk.own == old(disk).own && disk.receipt == old(disk).receipt
      ensures disk.private == old(disk).private && disk.journal.Some?
      ensures disk.journal.value.op == Install ==> disk == old(disk)
      ensures disk.journal.value.op == Upgrade ==>
                && baseEffect.Some?
                && disk.journal.value == Written(Upgrade, baseEffect.value.receipt.revision, revision, disk.root.value, baseEffect,
                                                 disk.journal.value.current, privateBefore)
      ensures disk.journal.value.op == Upgrade && disk.journal.value.current.Some? ==>
                disk.journal.value.current == Some(Effect(Receipt(revision, operation), disk.runtime))
      ensures o.Done? ==> disk.journal.value.op == Upgrade && disk.journal.value.current == Some(o.value)
      ensures (Steady(old(pos), pos) && baseEffect.Some? && privateBefore.Some?
               && old(disk).own == Owned(operation, commit, old(disk).root.value)) ==> o.Done?
      ensures old(pos) <= pos
      ensures o.Raised? ==> !o.preserve
    {
      if baseEffect.None? || privateBefore.None? {
        return Raised(true, false);
      }
      var base := baseEffect.value.receipt.revision;
      var _ :- Ask();
      var _ :- WriteIntent(Upgrade, base, revision);
      IntentStartsNothing(old(disk), disk.journal.value);
      var effect :- Perform(Upgrade, revision);
      var _ :- WriteEffect(Upgrade, base, revision, effect);
      return Done(effect);
    }

    /** `reconcile_upgrade`: nothing without a journal; otherwise the journaled effect, if it is ours and undisturbed. */
    method Reconcile(revision: nat, op: Op) returns (o: Outcome<Option<Recovered>>)
      requires Inv(disk)
      modifies this`pos, this`baseEffect, this`privateBefore
      ensures disk.journal.None? ==> o == Done(None) && baseEffect == old(baseEffect) && privateBefore == old(privateBefore)
      ensures o.Done? && disk.journal.Some? ==> o.value.Some?
      ensures o.Done? && o.value.Some? ==>
                && disk.journal.Some? && Undisturbed(disk)
                && disk.root.Some? && disk.own == Owned(operation, commit, disk.root.value)
                && disk.journal.value.rootId == (disk.root.value, operation)
                && var j, x := disk.journal.value, o.value.value;
                   && j.op == op && j.target == revision && j.current == Some(x.current) && j.private == Some(x.private)
                   && privateBefore == Some(x.private)
                   && (op == Install ==> j.base == revision && j.baseEffect.None? && baseEffect == Some(x.current))
                   && (op == Upgrade ==> j.baseEffect == x.base && baseEffect == x.base && x.base.Some?)
      ensures (Steady(old(pos), pos) && disk.journal.Some? && Undisturbed(disk)
               && disk.root.Some? && disk.own == Owned(operation, commit, disk.root.value)
               && disk.journal.value.rootId == (disk.root.value, operation)
               && disk.journal.value.op == op && disk.journal.value.target == revision
               && (op == Install ==> disk.journal.value.base == revision && disk.journal.value.baseEffect.None?))
              ==> o.Done?
      ensures old(pos) <= pos
    {
      if disk.journal.None? {
        return Done(None);
      }
      var j := disk.journal.value;
      var _ :- Ask();
      var id :- RootIdentity();
      if j.op != op || j.target != revision || j.rootId != id || j.current.None? {
        return Raised(true, true);
      }
      if (op == Install && (j.base != revision || j.baseEffect.Some?)) || j.private.None? {
        return Raised(true, true);
      }
      var _ :- Ask();
      if disk.runtime != j.current.value.runtime {
        return Raised(true, true);
      }
      var private :- PrivateState();
      if private != j.private.value {
        return Raised(true, false);
      }
      baseEffect := if op == Install then j.current else j.baseEffect;
      privateBefore := j.private;
      return Done(Some(Recovered(j.baseEffect, j.current.value, private)));
    }

    method WriteReceipt(receipt: Receipt) returns (o: Outcome<()>)
      requires Inv(disk) && disk.root.Some? && Receiptable(disk, receipt)
      modifies this`pos, this`disk
      ensures Extends(old(disk), disk)
      ensures Inv(disk) && (disk == old(disk) || disk == PutReceipt(old(disk), receipt))
      ensures o.Done? ==> disk == PutReceipt(old(disk), receipt)
      ensures old(pos) <= pos && (Steady(old(pos), pos) ==> o.Done?)
      ensures o.Raised? ==> !o.preserve
    {
      ReceiptKeeps(disk, receipt);
      o := Store(PutReceipt(disk, receipt));
    }

    method RemoveJournal() returns (o: Outcome<()>)
      requires Inv(disk) && disk.root.Some?
      modifies this`pos, this`disk
      ensures Extends(old(disk), disk)
      ensures Inv(disk) && (disk == old(disk) || disk == DropJournal(old(disk)))
      ensures o.Done? ==> disk == DropJournal(old(disk))
      ensures old(pos) <= pos && (Steady(old(pos), pos) ==> o.Done?)
      ensures o.Raised? ==> !o.preserve
    {
      DropJournalKeeps(disk);
      var _ :- Store(DropJournal(disk));
      o := Ask();
    }

    /** `persist_installation_receipt`: the receipt first, and only then, for the target revision, the journal. */
    method Persist(receipt: Receipt) returns (o: Outcome<()>)
      requires Inv(disk) && disk.root.Some? && Receiptable(disk, receipt)
      modifies this`pos, this`disk, this`baseEffect, this`privateBefore
      ensures Extends(old(disk), disk)
      ensures Inv(disk) && Persisting(old(disk), disk, receipt, commit)
      ensures o.Done? ==> disk == if receipt.revision == commit then DropJournal(PutReceipt(old(disk), receipt))
                                  else PutReceipt(old(disk), receipt)
      ensures o.Done? && receipt.revision != commit ==>
                && privateBefore == disk.private && privateBefore.Some?
                && old(baseEffect).Some? && baseEffect == Some(Effect(receipt, old(baseEffect).value.runtime))
      ensures Steady(old(pos), pos) && (receipt.revision == commit || (old(baseEffect).Some? && old(disk).private.Some?)) ==> o.Done?
      ensures old(pos) <= pos
      ensures o.Raised? ==> !o.preserve
    {
      var _ :- WriteReceipt(receipt);
      if receipt.revision == commit {
        o := RemoveJournal();
      } else {
        var _ :- Ask();
        o := RememberBase(receipt);
      }
    }

    /** The base receipt and the private state that an upgrade has to preserve. */
    method RememberBase(receipt: Receipt) returns (o: Outcome<()>)
      modifies this`pos, this`baseEffect, this`privateBefore
      ensures o.Done? ==> privateBefore == disk.private && privateBefore.Some?
      ensures o.Done? ==> old(baseEffect).Some? && baseEffect == Some(Effect(receipt, old(baseEffect).value.runtime))
      ensures Steady(old(pos), pos) && old(baseEffect).Some? && disk.private.Some? ==> o.Done?
      ensures old(pos) <= pos
      ensures o.Raised? ==> !o.preserve
    {
      if baseEffect.None? {
        return Raised(false, false);
      }
      baseEffect := Some(Effect(receipt, baseEffect.value.runtime));
      var private :- PrivateState();
      privateBefore := Some(private);
      return Done(());
    }

    /**
     `_apply_or_reconcile`: an exception after the effect was journaled is answered by reconciling, never by applying again;
     it takes a second fault to make the call fail then.
     */
    method ApplyOrReconcile(op: Op, revision: nat) returns (o: Outcome<Effect>)
      requires Inv(disk) && disk.root.Some? && (if op == Install then Untouched(disk) && revision != commit else revision == commit)
      requires op == Upgrade ==> disk.journal.Some? && disk.journal.value.op == Install
      requires op == Upgrade && baseEffect.Some? ==>
                 baseEffect.value.receipt.revision != commit && CompletedAs(disk.log, Install, disk.root.value, baseEffect.value)
      modifies this`pos, this`disk, this`baseEffect, this`privateBefore
      ensures Extends(old(disk), disk)
      ensures Inv(disk) && disk.root == old(disk).root && disk.own == old(disk).own && disk.receipt == old(disk).receipt
      ensures disk.journal.None? ==> disk == old(disk)
      ensures o.Raised? && o.preserve ==> disk.journal.Some?
      ensures op == Install && disk.journal.Some? ==> disk.journal.value.op == Install && disk.journal.value.target == revision
      ensures op == Upgrade ==> disk.journal.Some? && disk.private == old(disk).private
      ensures op == Upgrade && disk.journal.value.op == Install ==> disk == old(disk)
      ensures op == Upgrade && disk.journal.value.op == Upgrade ==>
                && old(baseEffect).Some? && disk.journal.value.target == revision
                && disk.journal.value.base == old(baseEffect).value.receipt.revision
                && disk.journal.value.baseEffect == old(baseEffect) && disk.journal.value.private == old(privateBefore)
      ensures EffectLeft(disk, op) && (op == Upgrade ==> old(privateBefore) == disk.private && disk.private.Some?) ==> Undisturbed(disk)
      ensures o.Done? ==>
                && EffectLeft(disk, op) && disk.journal.value.target == revision
                && disk.journal.value.current == Some(o.value) && o.value.runtime == disk.runtime
      ensures o.Done? && op == Install ==> baseEffect == Some(o.value) && disk.private.Some?
      ensures (Steady(old(pos), pos) && disk.own == Owned(operation, commit, old(disk).root.value)
               && (op == Install ==> old(disk).private.None?)
               && (op == Upgrade ==> old(baseEffect).Some? && old(privateBefore).Some?)) ==> o.Done?
      ensures o.Raised? && EffectLeft(disk, op) && disk.own == Owned(operation, commit, old(disk).root.value)
              && (if op == Install then old(disk).private.None?
                  else old(baseEffect).Some? && old(privateBefore) == disk.private && disk.private.Some?) ==>
                TwoFaults(old(pos), pos)
      ensures old(pos) <= pos
    {
      if op == Install {
        o := ApplyInstall(revision);
      } else {
        o := ApplyUpgrade(revision);
      }
      if o.Raised? {
        var pending := disk.journal.Some?;
        var x := Reconcile(revision, op);
        if x.Halted? {
          return Halted;
        } else if x.Raised? {
          return Raised(true, o.managed || pending);
        } else if x.value.None? {
          return Raised(true, pending);
        }
        return Done(x.value.value.current);
      }
    }

    /** Taking up a journaled installation. */
    method RecoverInstall(base: nat) returns (o: Outcome<Effect>)
      requires Inv(disk) && disk.root.Some? && disk.journal.Some? && disk.journal.value.op == Install && base != commit
      requires disk.own == Owned(operation, commit, disk.root.value)
      modifies this`pos, this`disk, this`baseEffect, this`privateBefore
      ensures Extends(old(disk), disk)
      ensures Inv(disk) && disk.root == old(disk).root && disk.own == old(disk).own && disk.journal == old(disk).journal
      ensures disk.private == old(disk).private
      ensures if Recoverable(old(disk), base, commit) then Recoverable(disk, base, commit) else disk == old(disk) && !o.Done?
      ensures Steady(old(pos), pos) && Recoverable(old(disk), base, commit) ==> o.Done?
      ensures o.Done? ==> Some(o.value) == old(disk).journal.value.current
      ensures o.Done? ==> o.value.receipt.revision == base && disk.receipt == Some(o.value.receipt)
      ensures o.Done? ==>
                && baseEffect == Some(o.value)
                && privateBefore == disk.private && disk.private.Some?
      ensures old(pos) <= pos
      ensures o.Raised? ==> o.preserve
    {
      var x := Reconcile(base, Install);
      if x.IsFailure() {
        return Preserved(x);
      }
      var effect := x.value.value.current;
      var read := Ask();
      if read.IsFailure() {
        return Preserved(read);
      }
      if disk.receipt.None? {
        var stored := Persist(effect.receipt);
        if stored.IsFailure() {
          return Preserved(stored);
        }
      }
      if disk.receipt != Some(effect.receipt) {
        return Raised(true, true);
      }
      var state := PrivateState();
      if state.IsFailure() {
        return Preserved(state);
      }
      return Done(effect);
    }

    /** Taking up a journaled upgrade: nothing is applied; the receipt is written and the journal removed. */
    method RecoverUpgrade(base: nat) returns (o: Outcome<Evidence>)
      requires Inv(disk) && disk.root.Some? && disk.journal.Some? && disk.journal.value.op == Upgrade
      requires disk.own == Owned(operation, commit, disk.root.value)
      modifies this`pos, this`disk, this`baseEffect, this`privateBefore
      ensures Extends(old(disk), disk)
      ensures Inv(disk)
      ensures !Recoverable(old(disk), base, commit) ==> disk == old(disk) && !o.Done?
      ensures disk == old(disk) || (Recoverable(old(disk), base, commit)
                && Persisting(old(disk), disk, old(disk).journal.value.current.value.receipt, commit))
      ensures disk.root == old(disk).root && disk.own == old(disk).own
      ensures Recoverable(old(disk), base, commit) ==> LeftRecoverable(disk, base, commit)
      ensures o.Done? ==> disk == DropJournal(PutReceipt(old(disk), old(disk).journal.value.current.value.receipt))
      ensures Steady(old(pos), pos) && Recoverable(old(disk), base, commit) ==> o.Done?
      ensures o.Done? ==> Reported(disk, base, commit, o.value) && o.value.recovered
      ensures o.Done? ==> Some(o.value.base) == old(disk).journal.value.baseEffect && Some(o.value.current) == old(disk).journal.value.current
      ensures old(pos) <= pos
      ensures o.Raised? ==> o.preserve
    {
      var x := Reconcile(commit, Upgrade);
      if x.IsFailure() {
        return Preserved(x);
      }
      var r := x.value.value;
      if r.base.value.receipt.revision != base {
        return Raised(true, true);
      }
      var state := PrivateState();
      if state.IsFailure() {
        return Preserved(state);
      }
      var stored := Persist(r.current.receipt);
      if stored.IsFailure() {
        return Preserved(stored);
      }
      var read := Ask();
      if read.IsFailure() {
        return Preserved(read);
      }
      return Done(Evidence(r.base.value, r.current, r.private, true));
    }

    /** A clean installation under an untouched root. */
    method FreshInstall(base: nat) returns (o: Outcome<Effect>)
      requires Inv(disk) && Untouched(disk) && disk.private.None? && base != commit
      requires disk.own == Owned(operation, commit, disk.root.value)
      modifies this`pos, this`disk, this`baseEffect, this`privateBefore
      ensures Extends(old(disk), disk)
      ensures Inv(disk) && disk.root == old(disk).root && disk.own == old(disk).own
      ensures o.Raised? && o.preserve ==> disk.journal.Some?
      ensures disk.journal.Some? ==> disk.journal.value.op == Install
      ensures LeftRecoverable(disk, base, commit)
      ensures o.Done? ==>
                && EffectLeft(disk, Install) && disk.journal.value.current == Some(o.value)
                && o.value.receipt.revision == base && disk.receipt == Some(o.value.receipt)
                && baseEffect == Some(o.value)
                && privateBefore == disk.private && disk.private.Some?
      ensures old(pos) <= pos && (Steady(old(pos), pos) ==> o.Done?)
    {
      var _ :- Ask();
      var effect :- ApplyOrReconcile(Install, base);
      assert JournalOk(disk);
      var _ :- Persist(effect.receipt);
      var _ :- Ask();
      var _ :- PrivateState();
      return Done(effect);
    }

    /** The upgrade over an installed base. */
    method UpgradeOver(base: nat, effect: Effect, recovered: bool) returns (o: Outcome<Evidence>)
      requires Inv(disk) && disk.root.Some? && disk.journal.Some? && disk.journal.value.op == Install && base != commit
      requires disk.own == Owned(operation, commit, disk.root.value)
      requires disk.receipt == Some(effect.receipt) && effect.receipt.revision == base
      requires baseEffect == Some(effect) && privateBefore == disk.private && disk.private.Some?
      requires Recoverable(disk, base, commit) && disk.journal.value.current == Some(effect)
      modifies this`pos, this`disk, this`baseEffect, this`privateBefore
      ensures Extends(old(disk), disk)
      ensures Inv(disk) && disk.root == old(disk).root && disk.own == old(disk).own && LeftRecoverable(disk, base, commit)
      ensures o.Raised? && o.preserve ==> disk.journal.Some?
      ensures o.Done? ==> Reported(disk, base, commit, o.value) && o.value.base == effect && o.value.recovered == recovered
      ensures old(pos) <= pos && (Steady(old(pos), pos) ==> o.Done?)
    {
      var private := disk.private.value;
      var _ :- Ask();
      var current :- ApplyOrReconcile(Upgrade, commit);
      assert JournalOk(disk);
      var _ :- Persist(current.receipt);
      var _ :- Ask();
      var after :- PrivateState();
      if after != private {
        return Raised(true, false);
      }
      return Done(Evidence(effect, current, private, recovered));
    }

    /** `_install_upgrade`: nothing is installed anew while a journal exists. */
    method InstallUpgrade(base: nat) returns (o: Outcome<Evidence>)
      requires Inv(disk) && disk.root.Some? && base != commit && disk.own == Owned(operation, commit, disk.root.value)
      requires disk.journal.None? ==> Untouched(disk) && disk.private.None?
      modifies this`pos, this`disk, this`baseEffect, this`privateBefore
      ensures Extends(old(disk), disk)
      ensures Inv(disk) && disk.root == old(disk).root && disk.own == old(disk).own
      ensures o.Raised? && o.preserve ==> old(disk).journal.Some? || disk.journal.Some?
      ensures old(disk).journal.None? || Recoverable(old(disk), base, commit) ==> LeftRecoverable(disk, base, commit)
      ensures o.Done? && old(disk).journal.Some? && old(disk).journal.value.op == Upgrade ==>
                && old(disk).journal.value.current.Some?
                && disk == DropJournal(PutReceipt(old(disk), old(disk).journal.value.current.value.receipt))
      ensures old(disk).journal.Some? && !Recoverable(old(disk), base, commit) ==> disk == old(disk) && !o.Done?
      ensures old(disk).journal.Some? && old(disk).journal.value.op == Upgrade ==>
                disk == old(disk) || (Recoverable(old(disk), base, commit)
                  && Persisting(old(disk), disk, old(disk).journal.value.current.value.receipt, commit))
      ensures Steady(old(pos), pos) && (old(disk).journal.Some? ==> Recoverable(old(disk), base, commit)) ==> o.Done?
      ensures o.Done? ==> Reported(disk, base, commit, o.value) && FromJournal(old(disk).journal, o.value)
      ensures old(pos) <= pos
    {
      var _ :- Ask();
      var recovering := disk.journal.Some?;
      if recovering && disk.journal.value.op == Upgrade {
        o := RecoverUpgrade(base);
      } else {
        var effect;
        if recovering {
          effect := RecoverInstall(base);
        } else {
          effect := FreshInstall(base);
        }
        if effect.IsFailure() {
          return effect.PropagateFailure();
        }
        o := UpgradeOver(base, effect.value, recovering);
      }
    }

    /** `prepare_owned`: adopts a root with a pending journal of this commit, or makes a new one; anything else is foreign. */
    method PrepareOwned() returns (o: Outcome<bool>)
      requires Inv(disk)
      modifies this`pos, this`disk, this`operation
      ensures Extends(old(disk), disk)
      ensures Inv(disk) && (old(disk).root.Some? ==> disk == old(disk))
      ensures old(disk).root.None? ==> disk.journal.None?
      ensures old(disk).root.Some? && old(disk).journal.None? ==> !o.Done? && (Steady(old(pos), pos) ==> o.Raised?)
      ensures o.Done? && old(disk).root.None? ==> old(disk).own.NoFile?
      ensures o.Done? ==> disk.root.Some? && disk.own == Owned(operation, commit, disk.root.value)
      ensures o.Done? && old(disk).root.None? ==> Untouched(disk) && disk.private.None?
      ensures o.Done? ==> (o.value <==> old(disk).root.Some?)
      ensures Steady(old(pos), pos) && old(disk).journal.Some? && Ours(old(disk), commit) ==> o.Done?
      ensures Steady(old(pos), pos) && old(disk).root.None? && old(disk).own.NoFile? ==> o.Done?
      ensures old(pos) <= pos
      ensures o.Raised? ==> !o.preserve
    {
      var _ :- Ask();
      if disk.root.Some? {
        if disk.journal.None? || !disk.own.Owned? || disk.own.commit != commit || disk.own.root != disk.root.value {
          return Raised(true, false);
        }
        operation := disk.own.operation;
        var _ :- Ask();
        return Done(true);
      }
      MakeRootKeeps(disk);
      var _ :- Store(MakeRoot(disk));
      var _ :- Ask();
      if !disk.own.NoFile? {
        return Raised(false, false);
      }
      disk := disk.(own := Partial);
      var _ :- Store(disk.(own := Owned(operation, commit, disk.root.value)));
      return Done(false);
    }

    /** `cleanup_owned`: removes the root, the receipts with it, and last the ownership receipt; never under a journal. */
    method CleanupOwned() returns (o: Outcome<()>)
      requires Inv(disk)
      modifies this`pos, this`disk
      ensures Extends(old(disk), disk)
      ensures Inv(disk) && (old(disk).journal.Some? ==> disk == old(disk) && !o.Done?)
      ensures old(disk).journal.None? ==> disk.journal.None?
      ensures o.Done? ==> disk.root.None? && disk.own.NoFile?
      ensures Steady(old(pos), pos) ==> (o.Done? <==> Removable(old(disk), commit))
      ensures !Removable(old(disk), commit) ==> disk == old(disk)
      ensures Steady(old(pos), pos) && Removable(disk, commit) ==> o.Done?
      ensures old(pos) <= pos
    {
      var _ :- Ask();
      if disk.own.NoFile? {
        if disk.root.Some? {
          return Raised(true, false);
        }
        return Done(());
      }
      if disk.own.Partial? || disk.own.commit != commit || (disk.root.Some? && disk.own.root != disk.root.value)
         || disk.journal.Some? || (disk.receipt.Some? && disk.receipt.value.revision != commit)
      {
        return Raised(true, false);
      }
      o := RemoveOwned();
    }

    /** Removes what is known to be this commit's and without a journal. */
    method RemoveOwned() returns (o: Outcome<()>)
      requires Inv(disk) && disk.own.Owned? && disk.own.commit == commit && disk.journal.None?
      requires disk.root.Some? ==> disk.own.root == disk.root.value
      modifies this`pos, this`disk
      ensures Extends(old(disk), disk) && Inv(disk) && disk.journal.None?
      ensures o.Done? ==> Gone(disk)
      ensures old(pos) <= pos && (Steady(old(pos), pos) ==> o.Done?)
    {
      var _ :- Ask();
      if disk.root.Some? {
        RemovalKeeps(disk);
        disk := BeginRemoval(disk);
        var _ :- Ask();
        disk := disk.(receipt := None, private := None);
        RemovalKeeps(disk);
        var _ :- Store(RemoveRoot(disk));
      }
      o := Store(disk.(own := NoFile));
    }

    /** The guarded part of `run_native`. */
    method Attempt(base: nat) returns (o: Outcome<Evidence>)
      requires Inv(disk) && base != commit
      modifies this`pos, this`disk, this`operation, this`baseEffect, this`privateBefore
      ensures Extends(old(disk), disk)
      ensures Inv(disk) && old(pos) <= pos
      ensures old(disk).root.Some? ==> disk.root == old(disk).root
      ensures o.Raised? && o.preserve ==> disk.root.Some? && (old(disk).journal.Some? || disk.journal.Some?)
      ensures Steady(old(pos), pos) && old(disk).root.Some? && old(disk).journal.None? ==> o.Raised? && !o.preserve && disk == old(disk)
      ensures old(disk).journal.None? || Recoverable(old(disk), base, commit) ==> LeftRecoverable(disk, base, commit)
      ensures o.Done? && old(disk).journal.Some? && old(disk).journal.value.op == Upgrade ==>
                && old(disk).journal.value.current.Some?
                && disk == DropJournal(PutReceipt(old(disk), old(disk).journal.value.current.value.receipt))
      ensures old(disk).journal.Some? && !Recoverable(old(disk), base, commit) ==> disk == old(disk) && !o.Done?
      ensures old(disk).journal.Some? && old(disk).journal.value.op == Upgrade ==>
                disk == old(disk) || (Recoverable(old(disk), base, commit)
                  && Persisting(old(disk), disk, old(disk).journal.value.current.value.receipt, commit))
      ensures Steady(old(pos), pos) && Startable(old(disk), base, commit) ==> o.Done?
      ensures o.Done? ==> Startable(old(disk), base, commit) && Finished(disk, commit) && Removable(disk, commit)
      ensures o.Done? ==> Reported(disk, base, commit, o.value) && FromJournal(old(disk).journal, o.value)
    {
      var _ :- Ask();
      var adopted :- PrepareOwned();
      if adopted {
        var refreshed := Ask();
        if refreshed.IsFailure() {
          return Preserved(refreshed);
        }
      }
      var _ :- Ask();
      var evidence :- InstallUpgrade(base);
      var _ :- Ask();
      if disk.runtime != evidence.current.runtime {
        return Raised(true, false);
      }
      var private :- PrivateState();
      if private != evidence.private {
        return Raised(true, false);
      }
      return Done(evidence);
    }

    /**
     `run_native` with an upgrade source. A journal that cannot be taken up makes the run fail without touching anything.
     One that can is taken up, and a run that is interrupted anyhow leaves every journaled effect such that the same run
     can take it up again; without interference it ends with the target receipt and no journal. A journaled upgrade is
     never applied again: only its receipt is written and its journal removed. A run without interference succeeds exactly
     when it has an effect to take up or finds nothing at all.

     After an exception the resources are removed only if no journal is left, and never if the exception asks to preserve
     them, which needs a journal. Otherwise they are removed unless the removal fails as well. A second run after a success
     is such an exception: it is refused and removes the finished installation.
     */
    method RunNative(base: nat) returns (o: Outcome<Evidence>)
      requires Inv(disk)
      modifies this`pos, this`disk, this`operation, this`baseEffect, this`privateBefore
      ensures Extends(old(disk), disk)
      ensures Inv(disk) && old(pos) <= pos
      ensures base == commit ==> disk == old(disk) && !o.Done?
      ensures old(disk).journal.Some? && !Recoverable(old(disk), base, commit) ==> disk == old(disk) && !o.Done?
      ensures base != commit && (old(disk).journal.None? || Recoverable(old(disk), base, commit)) ==>
                LeftRecoverable(disk, base, commit)
      ensures old(disk).journal.Some? && old(disk).journal.value.op == Upgrade && disk.journal.Some? ==>
                disk == old(disk) || disk == PutReceipt(old(disk), old(disk).journal.value.current.value.receipt)
      ensures o.Done? && old(disk).journal.Some? && old(disk).journal.value.op == Upgrade ==>
                && old(disk).journal.value.current.Some?
                && disk == DropJournal(PutReceipt(old(disk), old(disk).journal.value.current.value.receipt))
      ensures base != commit && Steady(old(pos), pos) ==> (o.Done? <==> Startable(old(disk), base, commit))
      ensures o.Done? ==> Startable(old(disk), base, commit) && Finished(disk, commit) && Removable(disk, commit)
      ensures o.Done? ==> Reported(disk, base, commit, o.value) && FromJournal(old(disk).journal, o.value)
      ensures o.Raised? && o.preserve ==>
                && disk.root.Some? && (old(disk).root.Some? ==> disk.root == old(disk).root)
                && (old(disk).journal.Some? || disk.journal.Some?)
      ensures base != commit && Steady(old(pos), pos) && old(disk).root.Some? && old(disk).journal.None? ==>
                if Removable(old(disk), commit) then Gone(disk) else disk == old(disk)
      ensures base != commit && o.Raised? && !o.preserve && disk.journal.None? && Removable(disk, commit) && !Gone(disk) ==>
                if Startable(old(disk), base, commit) then TwoFaults(old(pos), pos) else !Steady(old(pos), pos)
    {
      if base == commit {
        return Raised(true, false);
      }
      o := Attempt(base);
      if o.Raised? && !o.preserve && disk.journal.None? {
        var removed := CleanupOwned();
        if removed.Halted? {
          return Halted;
        } else if removed.Raised? {
          return Raised(true, false);
        }
      }
    }
  }

  /** A run of `--run-native`, of `--cleanup-owned`, or something else touching the containers or the private state. */
  datatype Episode =
    | Native(base: nat, target: nat, operation: nat, answers: nat -> Answer, readings: nat -> nat)
    | Cleanup(target: nat, answers: nat -> Answer)
    | Disturb(runtime: nat, private: Option<nat>)

  /**
   Any sequence of runs, each of which may die at any step. Whatever disk it starts from agrees with a safe history, and
   so does the one it leaves: effects at most once per root, receipts never ahead of effects, no removal under a journal.
   The history only grows, and a journal that holds just an intent stays, untouched, whatever is run. A journaled effect
   can be taken up, for its own base and commit, exactly when containers and private state are still as it left them.
   */
  method RunAll(start: Disk, episodes: seq<Episode>) returns (disk: Disk)
    requires Inv(start)
    ensures Inv(disk) && Extends(start, disk)
    ensures start.journal.Some? && start.journal.value.current.None? ==>
              disk == start.(runtime := disk.runtime, private := disk.private)
    ensures disk.journal.Some? && disk.journal.value.current.Some? ==>
              && disk.own.Owned? && disk.journal.value.base != disk.own.commit
              && (Recoverable(disk, disk.journal.value.base, disk.own.commit) <==> Undisturbed(disk))
  {
    disk := start;
    for i := 0 to |episodes|
      invariant Inv(disk) && Extends(start, disk)
      invariant start.journal.Some? && start.journal.value.current.None? ==>
                  disk == start.(runtime := disk.runtime, private := disk.private)
    {
      match episodes[i]
      case Native(base, target, operation, answers, readings) =>
        var driver := new DockerDriver(disk, target, operation, answers, readings);
        var _ := driver.RunNative(base);
        disk := driver.disk;
      case Cleanup(target, answers) =>
        var driver := new DockerDriver(disk, target, 0, answers, _ => 0);
        var _ := driver.CleanupOwned();
        disk := driver.disk;
      case Disturb(runtime, private) =>
        disk := disk.(runtime := runtime, private := private);
    }
    if disk.journal.Some? && disk.journal.value.current.Some? {
      EffectCanBeTakenUp(disk);
    }
  }

  /**
   Whatever happened before, a journaled effect that nobody disturbed is brought to its end by one more run without
   interference: the target receipt is written and the journal is gone.
   */
  method FinishAfter(start: Disk, episodes: seq<Episode>, readings: nat -> nat) returns (before: Disk, disk: Disk)
    requires Inv(start)
    ensures Inv(before) && Extends(start, before) && Inv(disk) && Extends(before, disk)
    ensures before.journal.Some? && before.journal.value.current.Some? && Undisturbed(before) ==>
              before.own.Owned? && Finished(disk, before.own.commit)
  {
    before := RunAll(start, episodes);
    disk := before;
    if before.journal.Some? && before.own.Owned? {
      var driver := new DockerDriver(before, before.own.commit, 0, _ => Good, readings);
      var _ := driver.RunNative(before.journal.value.base);
      disk := driver.disk;
    }
  }

  /** Only runs for these revisions and cleanups: nothing else touches containers or private state. */
  predicate Retries(episodes: seq<Episode>, base: nat, target: nat) {
    forall i :: 0 <= i < |episodes| ==>
      !episodes[i].Disturb? && (episodes[i].Native? ==> episodes[i].base == base && episodes[i].target == target)
  }

  /**
   Runs for one base and target, each of which may die anywhere, with cleanups between them: a journaled effect they leave
   is always one the next run can take up, and without interference that run finishes it.
   */
  method RetryThenFinish(start: Disk, base: nat, target: nat, episodes: seq<Episode>, readings: nat -> nat)
    returns (before: Disk, disk: Disk)
    requires Inv(start) && base != target && LeftRecoverable(start, base, target) && Retries(episodes, base, target)
    ensures Inv(before) && Extends(start, before) && Inv(disk) && Extends(before, disk)
    ensures LeftRecoverable(before, base, target)
    ensures (before.journal.Some? && before.journal.value.current.Some?) || Gone(before) ==> Finished(disk, target)
  {
    before := start;
    for i := 0 to |episodes|
      invariant Inv(before) && Extends(start, before) && LeftRecoverable(before, base, target)
    {
      assert !episodes[i].Disturb?;
      if episodes[i].Native? {
        var e := episodes[i];
        var driver := new DockerDriver(before, target, e.operation, e.answers, e.readings);
        var _ := driver.RunNative(base);
        before := driver.disk;
      } else {
        var driver := new DockerDriver(before, episodes[i].target, 0, episodes[i].answers, _ => 0);
        var _ := driver.CleanupOwned();
        before := driver.disk;
      }
    }
    var last := new DockerDriver(before, target, 0, _ => Good, readings);
    var _ := last.RunNative(base);
    disk := last.disk;
  }

  /** A second run after a success, even without interference, is refused and removes the finished installation. */
  method RunTwice(start: Disk, base: nat, target: nat, operation: nat, readings: nat -> nat)
    returns (first: Disk, second: Disk, refused: bool)
    requires Inv(start) && base != target && Startable(start, base, target)
    ensures Finished(first, target) && refused && Gone(second) && Extends(first, second)
  {
    var driver := new DockerDriver(start, target, operation, _ => Good, readings);
    var _ := driver.RunNative(base);
    first := driver.disk;
    driver := new DockerDriver(first, target, operation, _ => Good, readings);
    var again := driver.RunNative(base);
    return first, driver.disk, !again.Done?;
  }

  /** An exception met during recovery keeps the resources. */
  function Preserved<T, U>(o: Outcome<T>): (r: Outcome<U>)
    requires o.IsFailure()
    ensures !r.Done? && (r.Raised? ==> r.preserve)
  {
    if o.Halted? then Halted else Raised(true, true)
  }

  /** Before an effect's intent is journaled, and right after, that effect has not been started. */
  lemma IntentStartsNothing(d: Disk, j: Journal)
    requires Inv(d) && d.root.Some? && j.current.None?
    requires if j.op == Install then Untouched(d) else d.journal.Some? && d.journal.value.op == Install
    ensures NeverStarted(PutJournal(d, j).log, j.op, d.root.value)
  {}
}
