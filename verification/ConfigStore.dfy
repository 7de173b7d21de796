/**
 The directory a service configuration is installed in, as a file system shows it now and as a power loss may leave it.
 File contents survive once the file is synced; a name may fall back to any value it had since the directory was synced.
 */
module ConfigStore {
  import opened Wrappers

  newtype Byte = x: int | 0 <= x < 256

  type Bytes = seq<Byte>

  /** `proper`: a regular file with the owner and mode the helper demands. */
  datatype File = File(data: Bytes, synced: bool, proper: bool)

  /**
   `present`: the directory exists; `anchored`: its own name is synced. `temps` and `finals` are the values the two
   names may have after a power loss.
   */
  datatype Store = Store(present: bool, anchored: bool, files: map<nat, File>, temp: Option<nat>, final: Option<nat>,
                         temps: set<Option<nat>>, finals: set<Option<nat>>)

  /** The calls that change the directory, and the reading of the configuration, which does not. */
  datatype Call = MakeDirectory | Create(inode: nat, proper: bool) | Write(piece: Bytes) | SyncFile | Link | Unlink
                | SyncNames | SyncRoot | Read(found: Bytes)

  /** A call of a run that installs `content`, or a power loss. */
  datatype Move = By(content: Bytes, call: Call) | PowerLoss

  datatype Verdict = Installed | AlreadyInstalled | Conflict | Unavailable

  const LIMIT := 4096

  function Empty(nested: bool): Store {
    Store(!nested, !nested, map[], None, None, {None}, {None})
  }

  // ---------------------------------------------------------------- what one call does

  function Made(s: Store): Store {
    s.(present := true, anchored := false)
  }

  function Created(s: Store, inode: nat, proper: bool): Store {
    s.(temp := Some(inode), temps := s.temps + {Some(inode)}, files := s.files[inode := File([], false, proper)])
  }

  function Written(s: Store, inode: nat, piece: Bytes): Store
    requires inode in s.files
  {
    s.(files := s.files[inode := File(s.files[inode].data + piece, false, s.files[inode].proper)])
  }

  function FileSynced(s: Store, inode: nat): Store
    requires inode in s.files
  {
    s.(files := s.files[inode := s.files[inode].(synced := true)])
  }

  function Linked(s: Store, inode: nat): Store {
    s.(final := Some(inode), finals := s.finals + {Some(inode)})
  }

  function Unlinked(s: Store): Store {
    s.(temp := None, temps := s.temps + {None})
  }

  function NamesSynced(s: Store): Store {
    s.(temps := {s.temp}, finals := {s.final})
  }

  function Anchored(s: Store): Store {
    s.(anchored := true)
  }

  /** The call leads from one state to the other; a link needs the complete, synced content. */
  predicate Step(s: Store, t: Store, content: Bytes, call: Call) {
    match call
    case MakeDirectory => !s.present && t == Made(s)
    case Create(inode, proper) =>
      s.present && s.temp.None? && s.final.None? && inode !in s.files && t == Created(s, inode, proper)
    case Write(piece) =>
      s.present && s.temp.Some? && s.final.None? && s.temp.value in s.files && t == Written(s, s.temp.value, piece)
    case SyncFile => s.present && s.temp.Some? && s.temp.value in s.files && t == FileSynced(s, s.temp.value)
    case Link =>
      s.present && s.temp.Some? && s.final.None? && s.temp.value in s.files
      && s.files[s.temp.value] == File(content, true, true) && t == Linked(s, s.temp.value)
    case Unlink => s.present && s.temp.Some? && s.final == s.temp && t == Unlinked(s)
    case SyncNames => s.present && t == NamesSynced(s)
    case SyncRoot => s.present && t == Anchored(s)
    case Read(found) => s.final.Some? && s.final.value in s.files && s.files[s.final.value].data == found && t == s
  }

  /** Synced files keep their contents, other files may hold anything, and each name falls back on its own. */
  predicate Lost(s: Store, t: Store) {
    && t.files.Keys == s.files.Keys
    && (forall i :: i in s.files && s.files[i].synced ==> t.files[i] == s.files[i])
    && (forall i :: i in s.files ==> t.files[i].synced)
    && t.temps == {t.temp} && t.finals == {t.final} && t.anchored == t.present
    && (|| (t.present == s.present && t.temp in s.temps && t.final in s.finals)
        || (!s.anchored && !t.present && t.temp.None? && t.final.None?))
  }

  predicate Moves(s: Store, move: Move, t: Store) {
    match move
    case By(content, call) => Step(s, t, content, call)
    case PowerLoss => Lost(s, t)
  }

  ghost predicate Trace(states: seq<Store>, moves: seq<Move>) {
    |states| == |moves| + 1 && forall k :: 0 <= k < |moves| ==> Moves(states[k], moves[k], states[k + 1])
  }

  // ---------------------------------------------------------------- the invariant

  function Links(s: Store, inode: nat): nat {
    (if s.temp == Some(inode) then 1 else 0) + (if s.final == Some(inode) then 1 else 0)
  }

  /** Holds exactly these bytes, for good. */
  predicate Solid(s: Store, inode: nat, content: Bytes) {
    inode in s.files && s.files[inode] == File(content, true, true)
  }

  /** Whatever the final name is or may fall back to, it is nothing or one complete file. */
  ghost predicate Safe(s: Store, content: Bytes) {
    && (!s.present ==> s.temps == {None} && s.finals == {None} && !s.anchored)
    && s.temp in s.temps && s.final in s.finals
    && (s.final.None? ==> s.finals == {None} && s.temps <= {None, s.temp})
    && (s.final.Some? ==> s.finals <= {None, s.final} && s.temps <= {None, s.final} && Solid(s, s.final.value, content))
    && (forall i :: Some(i) in s.temps ==> i in s.files)
  }

  /** The bytes the final name shows are those some run linked. */
  ghost predicate Sound(s: Store, moves: seq<Move>) {
    exists content :: Safe(s, content) && (s.final.Some? ==> By(content, Link) in moves)
  }

  lemma StepSafe(s: Store, t: Store, content: Bytes, call: Call, now: Bytes)
    requires Safe(s, now) && Step(s, t, content, call)
    ensures Safe(t, if s.final.Some? then now else content)
  {}

  lemma LostSafe(s: Store, t: Store, content: Bytes)
    requires Safe(s, content) && Lost(s, t)
    ensures Safe(t, content)
  {}

  lemma MoveSound(s: Store, move: Move, t: Store, moves: seq<Move>)
    requires Sound(s, moves) && Moves(s, move, t)
    ensures Sound(t, moves + [move])
  {
    var now :| Safe(s, now) && (s.final.Some? ==> By(now, Link) in moves);
    match move
    case By(content, call) =>
      StepSafe(s, t, content, call, now);
      assert Safe(t, if s.final.Some? then now else content);
    case PowerLoss =>
      LostSafe(s, t, now);
  }

  /** In every state of every history the final name is absent or holds exactly the bytes some run was installing. */
  lemma {:induction false} FinalIsValidated(states: seq<Store>, moves: seq<Move>, nested: bool, k: nat)
    requires Trace(states, moves) && states[0] == Empty(nested) && k < |states|
    ensures Sound(states[k], moves[..k])
  {
    if k == 0 {
      assert Safe(states[0], []);
    } else {
      FinalIsValidated(states, moves, nested, k - 1);
      assert Moves(states[k - 1], moves[k - 1], states[k - 1 + 1]);
      MoveSound(states[k - 1], moves[k - 1], states[k], moves[..k - 1]);
      assert moves[..k] == moves[..k - 1] + [moves[k - 1]];
    }
  }

  // ---------------------------------------------------------------- stability

  /** Once it shows bytes, the final name shows the same bytes until a power loss, whatever later runs install. */
  lemma {:induction false} FinalStable(states: seq<Store>, moves: seq<Move>, content: Bytes, from: nat, to: nat)
    requires Trace(states, moves) && from <= to < |states|
    requires Safe(states[from], content) && states[from].final.Some?
    requires forall k :: from <= k < to ==> moves[k].By?
    ensures states[to].final == states[from].final && Safe(states[to], content)
  {
    if from < to {
      FinalStable(states, moves, content, from, to - 1);
      assert Moves(states[to - 1], moves[to - 1], states[to - 1 + 1]);
      StepSafe(states[to - 1], states[to], moves[to - 1].content, moves[to - 1].call, content);
    }
  }

  /** A power loss leaves the same bytes or nothing. */
  lemma LossKeepsOrRemoves(s: Store, t: Store, content: Bytes)
    requires Safe(s, content) && s.final.Some? && Lost(s, t)
    ensures t.final.None? || (t.final == s.final && Solid(t, t.final.value, content))
  {
    LostSafe(s, t, content);
  }

  /** Installed beyond the reach of a power loss. */
  ghost predicate Settled(s: Store, content: Bytes) {
    && s.present && s.anchored && s.temp.None? && s.temps == {None}
    && s.final.Some? && s.finals == {s.final} && Solid(s, s.final.value, content)
  }

  lemma MoveSettled(s: Store, move: Move, t: Store, content: Bytes)
    requires Settled(s, content) && Moves(s, move, t)
    ensures Settled(t, content)
  {}

  /** A settled configuration stays through all later runs and power losses. */
  lemma {:induction false} SettledForever(states: seq<Store>, moves: seq<Move>, content: Bytes, from: nat, to: nat)
    requires Trace(states, moves) && from <= to < |states| && Settled(states[from], content)
    ensures Settled(states[to], content)
  {
    if from < to {
      SettledForever(states, moves, content, from, to - 1);
      assert Moves(states[to - 1], moves[to - 1], states[to - 1 + 1]);
      MoveSettled(states[to - 1], moves[to - 1], states[to], content);
    }
  }

  lemma SurvivesByFlags(s: Store, content: Bytes)
    requires Safe(s, content) && s.final.Some?
    ensures (forall t :: Lost(s, t) ==> t.final == s.final) <==> s.anchored && None !in s.finals
  {
    var kept := map i | i in s.files :: s.files[i].(synced := true);
    if !s.anchored {
      var t := Store(false, false, kept, None, None, {None}, {None});
      assert Lost(s, t);
    } else if None in s.finals {
      var t := Store(true, true, kept, s.temp, None, {s.temp}, {None});
      assert Lost(s, t);
    } else {
      forall t | Lost(s, t) ensures t.final == s.final {
        LostSafe(s, t, content);
      }
    }
  }

  /** A power loss settles everything; otherwise only the given call does. */
  predicate Settles(move: Move, sync: Call) { move.PowerLoss? || move.call == sync }

  /** Some settling move follows every move that makes the given call. */
  ghost predicate SyncedSince(moves: seq<Move>, sync: Call, call: Call) {
    exists j :: 0 <= j < |moves| && Settles(moves[j], sync) && NoneAfter(moves, j, call)
  }

  ghost predicate NoneAfter(moves: seq<Move>, j: nat, call: Call) {
    forall k :: j < k < |moves| ==> !(moves[k].By? && moves[k].call == call)
  }

  lemma StaysSynced(moves: seq<Move>, move: Move, sync: Call, call: Call)
    requires Settles(move, sync) || (SyncedSince(moves, sync, call) && !(move.By? && move.call == call))
    ensures SyncedSince(moves + [move], sync, call)
  {
    var more := moves + [move];
    if Settles(move, sync) {
      assert Settles(more[|moves|], sync) && NoneAfter(more, |moves|, call);
    } else {
      var j :| 0 <= j < |moves| && Settles(moves[j], sync) && NoneAfter(moves, j, call);
      assert Settles(more[j], sync) && NoneAfter(more, j, call);
    }
  }

  lemma WasSynced(moves: seq<Move>, move: Move, sync: Call, call: Call)
    requires SyncedSince(moves + [move], sync, call) && !Settles(move, sync)
    ensures SyncedSince(moves, sync, call) && !(move.By? && move.call == call)
  {
    var more := moves + [move];
    var j :| 0 <= j < |more| && Settles(more[j], sync) && NoneAfter(more, j, call);
    assert more[|moves|] == move && j < |moves|;
    forall k | j < k < |moves| ensures !(moves[k].By? && moves[k].call == call) {
      assert more[k] == moves[k];
    }
    assert Settles(moves[j], sync) && NoneAfter(moves, j, call);
  }

  lemma SyncedSinceSnoc(moves: seq<Move>, move: Move, sync: Call, call: Call)
    ensures SyncedSince(moves + [move], sync, call) <==>
            Settles(move, sync) || (SyncedSince(moves, sync, call) && !(move.By? && move.call == call))
  {
    if SyncedSince(moves + [move], sync, call) && !Settles(move, sync) {
      WasSynced(moves, move, sync, call);
    }
    if Settles(move, sync) || (SyncedSince(moves, sync, call) && !(move.By? && move.call == call)) {
      StaysSynced(moves, move, sync, call);
    }
  }

  /** How far the names of a state are synced, told by the moves that led to it. */
  ghost predicate SyncTold(s: Store, moves: seq<Move>, nested: bool) {
    && (!nested ==> s.present && s.anchored)
    && (s.final.Some? ==> (None !in s.finals <==> SyncedSince(moves, SyncNames, Link)))
    && (nested && s.present ==> (s.anchored <==> SyncedSince(moves, SyncRoot, MakeDirectory)))
  }

  lemma MoveTold(s: Store, move: Move, t: Store, moves: seq<Move>, nested: bool, content: Bytes)
    requires Safe(s, content) && Moves(s, move, t) && SyncTold(s, moves, nested)
    ensures SyncTold(t, moves + [move], nested)
  {
    SyncedSinceSnoc(moves, move, SyncNames, Link);
    SyncedSinceSnoc(moves, move, SyncRoot, MakeDirectory);
  }

  lemma {:induction false} HistoryTells(states: seq<Store>, moves: seq<Move>, nested: bool, k: nat)
    requires Trace(states, moves) && states[0] == Empty(nested) && k < |states|
    ensures SyncTold(states[k], moves[..k], nested)
  {
    if k > 0 {
      HistoryTells(states, moves, nested, k - 1);
      FinalIsValidated(states, moves, nested, k - 1);
      assert Moves(states[k - 1], moves[k - 1], states[k - 1 + 1]);
      var content :| Safe(states[k - 1], content);
      MoveTold(states[k - 1], moves[k - 1], states[k], moves[..k - 1], nested, content);
      assert moves[..k] == moves[..k - 1] + [moves[k - 1]];
    }
  }

  /**
   In every history the bytes shown now survive every power loss exactly when, since they were linked, the directory was
   synced or the power was lost already, and, for a directory of its own, the same for the root since that directory was
   made.
   */
  lemma SurvivesExactly(states: seq<Store>, moves: seq<Move>, nested: bool, k: nat)
    requires Trace(states, moves) && states[0] == Empty(nested) && k < |states| && states[k].final.Some?
    ensures (forall t :: Lost(states[k], t) ==> t.final == states[k].final) <==>
            SyncedSince(moves[..k], SyncNames, Link) && (nested ==> SyncedSince(moves[..k], SyncRoot, MakeDirectory))
  {
    HistoryTells(states, moves, nested, k);
    FinalIsValidated(states, moves, nested, k);
    var content :| Safe(states[k], content);
    SurvivesByFlags(states[k], content);
  }

  // ---------------------------------------------------------------- verdicts

  /** What a run without faults answers, read off the state it starts in. */
  function Judge(s: Store, content: Bytes): Verdict {
    if s.final.Some? then
      if s.final.value in s.files && s.files[s.final.value].proper && Links(s, s.final.value) == 1
         && |s.files[s.final.value].data| <= LIMIT && s.files[s.final.value].data == content
      then AlreadyInstalled
      else Conflict
    else if s.temp.Some? then Conflict
    else Installed
  }

  /** In every history a leftover temporary file, alone or as a second link, makes every run a conflict. */
  lemma LeftoverConflicts(states: seq<Store>, moves: seq<Move>, nested: bool, k: nat, content: Bytes)
    requires Trace(states, moves) && states[0] == Empty(nested) && k < |states| && states[k].temp.Some?
    ensures Judge(states[k], content) == Conflict
    ensures states[k].final.Some? ==> Links(states[k], states[k].final.value) == 2
  {
    FinalIsValidated(states, moves, nested, k);
  }

  /** After a settled installation every rerun finds it, and every other configuration is a conflict. */
  lemma SettledJudgement(s: Store, content: Bytes, other: Bytes)
    requires Settled(s, content) && |content| <= LIMIT
    ensures Judge(s, other) == if other == content then AlreadyInstalled else Conflict
  {}

  /**
   In every history: a run answers installed exactly when neither name is there, and already installed exactly when only
   the final name is there and shows these bytes, at most 4096 of them.
   */
  lemma VerdictMeans(states: seq<Store>, moves: seq<Move>, nested: bool, k: nat, content: Bytes)
    requires Trace(states, moves) && states[0] == Empty(nested) && k < |states|
    ensures var s := states[k];
            && (s.final.Some? ==> s.final.value in s.files)
            && (Judge(s, content) == Installed <==> s.final.None? && s.temp.None?)
            && (Judge(s, content) == AlreadyInstalled <==>
                  s.final.Some? && s.temp.None? && s.files[s.final.value].data == content && |content| <= 4096)
            && Judge(s, content) != Unavailable
  {
    FinalIsValidated(states, moves, nested, k);
    if states[k].temp.Some? {
      LeftoverConflicts(states, moves, nested, k, content);
    }
  }
}
