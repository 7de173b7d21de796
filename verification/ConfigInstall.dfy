/** The installation of a validated configuration: temporary file, sync, link, unlink, sync, read back. */
module ConfigInstall {
  import opened Wrappers
  import opened ConfigStore

  /** How the next call goes: it may fail, and reads and writes may be short. `fine` also answers metadata checks. */
  datatype Answer = Fails(conflict: bool) | Goes(count: nat, fine: bool)

  datatype Outcome<+T> = Done(value: T) | Stopped(verdict: Verdict) {
    predicate IsFailure() { Stopped? }
    function PropagateFailure<U>(): Outcome<U> requires Stopped? { Stopped(verdict) }
    function Extract(): T requires Done? { value }
  }

  /** From one call up to another none fails, none finds metadata it refuses, and each moves at least a byte. */
  ghost predicate Smooth(answers: nat -> Answer, from: nat, to: nat) {
    forall i {:trigger answers(i)} :: from <= i < to ==> answers(i).Goes? && answers(i).fine && answers(i).count > 0
  }

  /** From one call up to another every one goes through, in one piece. */
  ghost predicate Ample(answers: nat -> Answer, from: nat, to: nat) {
    forall i {:trigger answers(i)} :: from <= i < to ==> answers(i) == Goes(LIMIT, true)
  }

  /** The bytes show under both the name and no other, and only the sync of the directory is still missing. */
  ghost predicate Dangling(s: Store, content: Bytes) {
    && s.present && s.temp.None? && None in s.temps && None in s.finals
    && s.final.Some? && Solid(s, s.final.value, content)
  }

  class Volume {
    /** The configuration lives in a directory of its own below the root. */
    const nested: bool
    const answers: nat -> Answer
    var tick: nat
    var store: Store
    var states: seq<Store>
    var moves: seq<Move>

    ghost predicate Valid()
      reads this
    {
      && Trace(states, moves) && states[|states| - 1] == store && store.final in store.finals
      && (!nested ==> store.present && store.anchored)
      && (!store.present ==> store.temp.None? && store.final.None? && store.temps == {None} && store.finals == {None})
      && (forall i :: i in store.files ==> i < |states|)
    }

    /** This run added calls of its own and nothing else. */
    twostate predicate Grown(content: Bytes)
      reads this
    {
      && old(states) <= states && old(moves) <= moves && old(tick) <= tick
      && forall k :: |old(moves)| <= k < |moves| ==> moves[k].By? && moves[k].content == content
    }

    constructor (nested: bool, answers: nat -> Answer)
      ensures Valid() && store == Empty(nested) && states == [Empty(nested)] && moves == []
      ensures this.nested == nested && this.answers == answers && tick == 0
    {
      this.nested, this.answers, tick := nested, answers, 0;
      store, states, moves := Empty(nested), [Empty(nested)], [];
    }

    method Ask() returns (o: Outcome<nat>)
      modifies this`tick
      ensures tick == old(tick) + 1
      ensures o == match answers(old(tick))
                   case Fails(conflict) => Stopped(if conflict then Conflict else Unavailable)
                   case Goes(count, fine) => if fine then Done(count) else Stopped(Conflict)
    {
      var answer := answers(tick);
      tick := tick + 1;
      match answer {
        case Fails(conflict) =>
          return Stopped(if conflict then Conflict else Unavailable);
        case Goes(count, fine) =>
          if !fine {
            return Stopped(Conflict);
          }
          return Done(count);
      }
    }

    /** One call that changes the directory, unless it fails. */
    method Make(call: Call, next: Store, content: Bytes) returns (o: Outcome<()>)
      requires Valid() && Step(store, next, content, call) && next.present && (!nested ==> next.anchored)
      requires forall i :: i in next.files ==> i <= |states|
      modifies this
      ensures Valid() && Grown(content) && tick == old(tick) + 1
      ensures o.Done? <==> answers(old(tick)).Goes? && answers(old(tick)).fine
      ensures store == if o.Done? then next else old(store)
      ensures o.Done? ==> moves == old(moves) + [By(content, call)]
      ensures o.Stopped? ==> o.verdict in {Conflict, Unavailable}
    {
      var _ :- Ask();
      states, moves, store := states + [next], moves + [By(content, call)], next;
      return Done(());
    }

    /** `_read_bounded`: all of the file, however short the reads, unless it exceeds the limit. */
    method ReadBounded(data: Bytes) returns (o: Outcome<Bytes>)
      modifies this`tick
      ensures old(tick) <= tick
      ensures o.Done? ==> o.value == data && |data| <= 4096
      ensures o.Stopped? ==> o.verdict in {Conflict, Unavailable}
      ensures o.Stopped? && Smooth(answers, old(tick), tick) ==> |data| > 4096 && o.verdict == Conflict
    {
      var result: Bytes := [];
      var remaining := LIMIT + 1;
      while remaining > 0
        invariant 0 <= remaining && |result| + remaining == LIMIT + 1
        invariant result <= data && old(tick) <= tick
      {
        var count :- Ask();
        var left := |data| - |result|;
        var most := if left < remaining then left else remaining;
        if most == 0 {
          break;
        }
        var taken := if count == 0 then 1 else if count < most then count else most;
        result := result + data[|result|..|result| + taken];
        remaining := remaining - taken;
      }
      if |result| > LIMIT {
        return Stopped(Conflict);
      }
      return Done(result);
    }

    /** `_open_existing_config`: what it read is part of the history. */
    method OpenExisting(content: Bytes) returns (o: Outcome<Option<Bytes>>)
      requires Valid()
      modifies this
      ensures Valid() && Grown(content) && store == old(store)
      ensures store.final.None? ==> tick == old(tick) + 1 && (Ample(answers, old(tick), old(tick) + 1) ==> o.Done?)
      ensures o.Done? ==> (o.value.None? <==> store.final.None?)
      ensures o.Done? && o.value.Some? ==>
                Judge(store, o.value.value) == AlreadyInstalled && moves == old(moves) + [By(content, Read(o.value.value))]
      ensures o.Stopped? ==> o.verdict in {Conflict, Unavailable}
      ensures o.Stopped? && Smooth(answers, old(tick), tick) ==>
                o.verdict == Conflict && forall c :: Judge(store, c) == Conflict
    {
      var _ :- Ask();
      if store.final.None? {
        return Done(None);
      }
      var inode := store.final.value;
      if inode !in store.files || !store.files[inode].proper || Links(store, inode) != 1 {
        return Stopped(Conflict);
      }
      var found :- ReadBounded(store.files[inode].data);
      states, moves := states + [store], moves + [By(content, Read(found))];
      return Done(Some(found));
    }

    /** `_write_all` on the temporary file: the content arrives whole or the run stops. */
    method WriteAll(inode: nat, content: Bytes) returns (o: Outcome<()>)
      requires Valid() && store.present && store.temp == Some(inode) && store.final.None?
      requires inode in store.files && store.files[inode].data == [] && store.files[inode].proper
      modifies this
      ensures Valid() && Grown(content)
      ensures o.Done? ==>
                && inode in store.files && store.files[inode].data == content && store.files[inode].proper
                && store == old(store).(files := old(store).files[inode := store.files[inode]])
      ensures o.Stopped? ==> !Smooth(answers, old(tick), tick) && o.verdict in {Conflict, Unavailable}
      ensures 1 <= |content| <= LIMIT && Ample(answers, old(tick), old(tick) + 2) ==> o.Done? && tick == old(tick) + 2
    {
      var position := 0;
      while position < |content|
        invariant position <= |content| && Valid() && Grown(content)
        invariant inode in store.files && store.files[inode].data == content[..position] && store.files[inode].proper
        invariant store == old(store).(files := old(store).files[inode := store.files[inode]])
        invariant if position == 0 then tick == old(tick)
                  else |content| <= LIMIT && Ample(answers, old(tick), old(tick) + 2) ==>
                    tick == old(tick) + 2 && position == |content|
      {
        var written :- WritePiece(inode, content, position);
        position := position + written;
      }
      return Done(());
    }

    /** One `os.write`, which takes at least a byte or is refused. */
    method WritePiece(inode: nat, content: Bytes, position: nat) returns (o: Outcome<nat>)
      requires Valid() && store.present && store.temp == Some(inode) && store.final.None? && position < |content|
      requires inode in store.files && store.files[inode].data == content[..position] && store.files[inode].proper
      modifies this
      ensures Valid() && Grown(content)
      ensures o.Done? ==>
                && 0 < o.value <= |content| - position
                && inode in store.files && store.files[inode].data == content[..position + o.value]
                && store.files[inode].proper
                && store == old(store).(files := old(store).files[inode := store.files[inode]])
      ensures o.Stopped? ==> !Smooth(answers, old(tick), tick) && o.verdict in {Conflict, Unavailable}
      ensures |content| - position <= LIMIT && Ample(answers, old(tick), old(tick) + 2) ==>
                o == Done(|content| - position) && tick == old(tick) + 2
    {
      var count :- Ask();
      var left := |content| - position;
      var written := if count < left then count else left;
      if written == 0 {
        return Stopped(Conflict);
      }
      var piece := content[position..position + written];
      var _ :- Make(Write(piece), Written(store, inode, piece), content);
      assert content[..position + written] == content[..position] + piece;
      return Done(written);
    }

    /** The directory exists when the run goes on. */
    method EnsureDirectory(content: Bytes) returns (o: Outcome<()>)
      requires Valid()
      modifies this
      ensures Valid() && Grown(content)
      ensures o.Done? ==> store.present
      ensures store == old(store) || (!old(store).present && store == Made(old(store)))
      ensures o.Stopped? ==> !Smooth(answers, old(tick), tick) && o.verdict in {Conflict, Unavailable}
      ensures old(store).present ==> tick == old(tick) + 1 && (Ample(answers, old(tick), old(tick) + 1) ==> o.Done?)
    {
      if !store.present {
        var _ :- Make(MakeDirectory, Made(store), content);
      }
      var _ :- Ask();
      return Done(());
    }

    /** The temporary file under its own name, complete and synced. */
    method Prepare(content: Bytes) returns (o: Outcome<nat>)
      requires Valid() && store.present && store.final.None? && store.temp.None?
      modifies this
      ensures Valid() && Grown(content)
      ensures o.Done? ==>
                && store.present && store.final.None? && store.temp == Some(o.value)
                && o.value in store.files && store.files[o.value] == File(content, true, true)
      ensures o.Stopped? ==> !Smooth(answers, old(tick), tick) && o.verdict in {Conflict, Unavailable}
      ensures 1 <= |content| <= LIMIT && Ample(answers, old(tick), old(tick) + 5) ==> o.Done? && tick == old(tick) + 5
    {
      var inode := |states|;
      var _ :- Make(Create(inode, true), Created(store, inode, true), content);
      var _ :- Ask();
      var _ :- WriteAll(inode, content);
      var _ :- Make(SyncFile, FileSynced(store, inode), content);
      return Done(inode);
    }

    /** The link that makes the configuration visible, and everything that makes it durable. */
    method Publish(inode: nat, content: Bytes) returns (o: Outcome<()>)
      requires Valid() && store.present && store.final.None? && store.temp == Some(inode)
      requires inode in store.files && store.files[inode] == File(content, true, true)
      modifies this
      ensures Valid() && Grown(content)
      ensures o.Done? ==> Settled(store, content)
      ensures o.Stopped? ==> !Smooth(answers, old(tick), tick) && o.verdict in {Conflict, Unavailable}
      ensures Ample(answers, old(tick), old(tick) + 2) && answers(old(tick) + 2).Fails? ==>
                tick == old(tick) + 3 && Dangling(store, content)
    {
      var _ :- Make(Link, Linked(store, inode), content);
      var _ :- Make(Unlink, Unlinked(store), content);
      var _ :- Make(SyncNames, NamesSynced(store), content);
      if nested {
        var _ :- Make(SyncRoot, Anchored(store), content);
      }
      return Done(());
    }

    /** The last thing the run did was to read exactly these bytes under the final name. */
    ghost predicate JustRead(content: Bytes)
      reads this
    {
      moves != [] && moves[|moves| - 1] == By(content, Read(content))
    }

    /** A first installation, read back at the end. */
    method InstallFresh(content: Bytes) returns (o: Outcome<()>)
      requires Valid() && |content| <= LIMIT && store.present && store.final.None? && store.temp.None?
      modifies this
      ensures Valid() && Grown(content)
      ensures o.Done? ==> Settled(store, content) && JustRead(content)
      ensures o.Stopped? ==> !Smooth(answers, old(tick), tick) && o.verdict in {Conflict, Unavailable}
      ensures content != [] && Ample(answers, old(tick), old(tick) + 7) && answers(old(tick) + 7).Fails? ==>
                tick == old(tick) + 8 && Dangling(store, content)
    {
      var inode :- Prepare(content);
      var _ :- Publish(inode, content);
      o := ReadBack(content);
    }

    /** The final check, which only reads. */
    method ReadBack(content: Bytes) returns (o: Outcome<()>)
      requires Valid() && |content| <= LIMIT && Settled(store, content)
      modifies this
      ensures Valid() && Grown(content) && store == old(store)
      ensures o.Done? ==> JustRead(content)
      ensures o.Stopped? ==> !Smooth(answers, old(tick), tick) && o.verdict in {Conflict, Unavailable}
    {
      SettledJudgement(store, content, content);
      var readback :- OpenExisting(content);
      if readback != Some(content) {
        return Stopped(Conflict);
      }
      var _ :- Ask();
      return Done(());
    }

    /** `_install_qbittorrent_config` and `_install_arr_config` */
    method Install(content: Bytes) returns (r: Verdict)
      requires Valid() && 1 <= |content| <= LIMIT
      modifies this
      ensures Valid() && Grown(content)
      ensures Smooth(answers, old(tick), tick) ==> r == Judge(old(store), content)
      ensures r == Installed ==> Judge(old(store), content) == Installed && Settled(store, content)
      ensures r == AlreadyInstalled ==> Judge(old(store), content) == AlreadyInstalled
      ensures r == Installed || r == AlreadyInstalled ==> |old(moves)| < |moves| && JustRead(content)
      ensures Judge(old(store), content) != Installed ==> store == old(store)
      ensures KilledBeforeSync(answers, old(tick)) && old(store).present && Judge(old(store), content) == Installed ==>
                tick == old(tick) + 12 && Dangling(store, content)
    {
      var o := TryInstall(content);
      return if o.Done? then o.value else o.verdict;
    }

    /** What is there before anything is installed, in a directory that exists. */
    method Look(content: Bytes) returns (o: Outcome<Option<Bytes>>)
      requires Valid()
      modifies this
      ensures Valid() && Grown(content)
      ensures Judge(store, content) == Judge(old(store), content)
      ensures store == old(store) || (!old(store).present && store == Made(old(store)))
      ensures o.Done? ==> store.present && (o.value.None? <==> store.final.None?)
      ensures o.Done? && o.value.Some? ==>
                Judge(store, o.value.value) == AlreadyInstalled && |old(moves)| < |moves| && moves[|moves| - 1] == By(content, Read(o.value.value))
      ensures o.Stopped? ==> o.verdict in {Conflict, Unavailable}
      ensures o.Stopped? && Smooth(answers, old(tick), tick) ==> o.verdict == Conflict == Judge(old(store), content)
      ensures old(store).present && store.final.None? && Ample(answers, old(tick), old(tick) + 3) ==> o.Done? && tick == old(tick) + 3
    {
      var _ :- Ask();
      var _ :- EnsureDirectory(content);
      o := OpenExisting(content);
    }

    method TryInstall(content: Bytes) returns (o: Outcome<Verdict>)
      requires Valid() && 1 <= |content| <= LIMIT
      modifies this
      ensures Valid() && Grown(content)
      ensures o.Done? ==> o.value in {Installed, AlreadyInstalled} && o.value == Judge(old(store), content)
      ensures o == Done(Installed) ==> Settled(store, content)
      ensures o.Done? ==> |old(moves)| < |moves| && JustRead(content)
      ensures o.Stopped? ==> o.verdict in {Conflict, Unavailable}
      ensures o.Stopped? && Smooth(answers, old(tick), tick) ==> o.verdict == Judge(old(store), content)
      ensures Judge(old(store), content) != Installed ==> store == old(store)
      ensures KilledBeforeSync(answers, old(tick)) && old(store).present && Judge(old(store), content) == Installed ==>
                tick == old(tick) + 12 && Dangling(store, content)
    {
      var existing :- Look(content);
      if existing.Some? {
        if existing.value != content {
          return Stopped(Conflict);
        }
        return Done(AlreadyInstalled);
      }
      var _ :- Ask();
      if store.temp.Some? {
        return Stopped(Conflict);
      }
      var _ :- InstallFresh(content);
      return Done(Installed);
    }

    /** The machine stops; the names and the unsynced files fall back as `after` says. */
    method LosePower(after: Store)
      requires Valid() && Lost(store, after)
      modifies this
      ensures Valid() && store == after && states == old(states) + [after] && moves == old(moves) + [PowerLoss]
      ensures tick == old(tick)
    {
      states, moves, store := states + [after], moves + [PowerLoss], after;
    }
  }

  /** A first run in an existing directory goes through up to the removal of its temporary name, and is killed there. */
  ghost predicate KilledBeforeSync(answers: nat -> Answer, from: nat) {
    Ample(answers, from, from + 11) && answers(from + 11).Fails?
  }

  /** A run of the helper with the bytes it is given, or a power loss. */
  datatype Task = Run(input: Bytes) | Cut(after: Store)

  /** A run as the history records it: its input and verdict, the calls it made, and the states around it. */
  datatype Entry = Entry(input: Bytes, verdict: Verdict, began: nat, ended: nat, from: nat, to: nat)

  /** What the history shows of one run. */
  ghost predicate Recorded(e: Entry, answers: nat -> Answer, states: seq<Store>, moves: seq<Move>, pattern: Bytes -> bool) {
    && e.from <= e.to < |states| && |states| == |moves| + 1
    && (forall k :: e.from <= k < e.to ==> moves[k].By? && moves[k].content == e.input)
    && (!Acceptable(e.input, pattern) ==> e.verdict == Conflict && e.from == e.to)
    && (Acceptable(e.input, pattern) && Smooth(answers, e.began, e.ended) ==> e.verdict == Judge(states[e.from], e.input))
    && (e.verdict == Installed ==> Judge(states[e.from], e.input) == Installed && Settled(states[e.to], e.input))
    && (e.verdict == AlreadyInstalled ==> Judge(states[e.from], e.input) == AlreadyInstalled)
    && (e.verdict == Installed || e.verdict == AlreadyInstalled ==>
          e.from < e.to && moves[e.to - 1] == By(e.input, Read(e.input)))
    && (Judge(states[e.from], e.input) != Installed ==> states[e.to] == states[e.from])
  }

  /** The validation of the bytes on standard input. */
  predicate Acceptable(input: Bytes, pattern: Bytes -> bool) {
    1 <= |input| <= 4096 && pattern(input)
  }

  function Inputs(tasks: seq<Task>): seq<Bytes> {
    if tasks == [] then []
    else
      var n := |tasks| - 1;
      Inputs(tasks[..n]) + if tasks[n].Run? then [tasks[n].input] else []
  }

  /** A run begins with the call, and not before the state, at which the one before it ended. */
  ghost predicate Follows(entries: seq<Entry>, k: nat)
    requires k < |entries|
  {
    entries[k].began == NextCall(entries[..k]) && (k > 0 ==> entries[k - 1].to <= entries[k].from)
  }

  /** One entry for every run, in order. */
  ghost predicate Consecutive(entries: seq<Entry>, inputs: seq<Bytes>) {
    && |entries| == |inputs|
    && (forall k :: 0 <= k < |entries| ==> entries[k].input == inputs[k])
    && (forall k {:trigger Follows(entries, k)} :: 0 <= k < |entries| ==> Follows(entries, k))
  }

  lemma OneMoreFollows(entries: seq<Entry>, inputs: seq<Bytes>, e: Entry)
    requires Consecutive(entries, inputs) && e.began == NextCall(entries)
    requires entries != [] ==> entries[|entries| - 1].to <= e.from
    ensures Consecutive(entries + [e], inputs + [e.input])
  {
    var all := entries + [e];
    forall k | 0 <= k < |all| ensures Follows(all, k) {
      assert all[..k] == if k < |entries| then entries[..k] else entries;
      if k < |entries| {
        assert Follows(entries, k);
      }
    }
  }

  /** The call the next run begins with. */
  function NextCall(entries: seq<Entry>): nat {
    if entries == [] then 0 else entries[|entries| - 1].ended
  }

  /** The account of all runs: one entry for each input, and no call but those of acceptable runs. */
  ghost predicate Logged(entries: seq<Entry>, inputs: seq<Bytes>, answers: nat -> Answer, states: seq<Store>,
                         moves: seq<Move>, pattern: Bytes -> bool)
  {
    && Consecutive(entries, inputs)
    && (forall k :: 0 <= k < |entries| ==> Recorded(entries[k], answers, states, moves, pattern))
    && (forall k :: 0 <= k < |moves| && moves[k].By? ==> Acceptable(moves[k].content, pattern))
  }

  /** One more run. */
  method RunOne(volume: Volume, input: Bytes, pattern: Bytes -> bool) returns (e: Entry)
    requires volume.Valid()
    modifies volume
    ensures volume.Valid() && old(volume.states) <= volume.states && old(volume.moves) <= volume.moves
    ensures Recorded(e, volume.answers, volume.states, volume.moves, pattern)
    ensures e.input == input && e.began == old(volume.tick) && e.ended == volume.tick
    ensures e.from == |old(volume.states)| - 1 && e.to == |volume.states| - 1
    ensures forall k :: |old(volume.moves)| <= k < |volume.moves| && volume.moves[k].By? ==>
              Acceptable(volume.moves[k].content, pattern)
  {
    var began, from, verdict := volume.tick, |volume.states| - 1, Conflict;
    if Acceptable(input, pattern) {
      verdict := volume.Install(input);
    }
    return Entry(input, verdict, began, volume.tick, from, |volume.states| - 1);
  }

  lemma LoggedRun(entries: seq<Entry>, inputs: seq<Bytes>, answers: nat -> Answer, states: seq<Store>,
                  moves: seq<Move>, pattern: Bytes -> bool, e: Entry, later: seq<Store>, more: seq<Move>)
    requires Logged(entries, inputs, answers, states, moves, pattern) && states <= later && moves <= more
    requires Recorded(e, answers, later, more, pattern) && e.began == NextCall(entries) && e.from == |states| - 1 && e.from >= 0
    requires |states| == |moves| + 1
    requires forall k :: |moves| <= k < |more| && more[k].By? ==> Acceptable(more[k].content, pattern)
    ensures Logged(entries + [e], inputs + [e.input], answers, later, more, pattern)
  {
    StillRecorded(entries, answers, states, moves, later, more, pattern);
    if entries != [] {
      assert Recorded(entries[|entries| - 1], answers, states, moves, pattern);
    }
    OneMoreFollows(entries, inputs, e);
  }

  /** One task, added to the account. */
  method Perform(volume: Volume, task: Task, entries: seq<Entry>, ghost inputs: seq<Bytes>, pattern: Bytes -> bool)
    returns (after: seq<Entry>)
    requires volume.Valid()
    requires Logged(entries, inputs, volume.answers, volume.states, volume.moves, pattern) && volume.tick == NextCall(entries)
    modifies volume
    ensures volume.Valid() && volume.states[0] == old(volume.states)[0]
    ensures Logged(after, if task.Run? then inputs + [task.input] else inputs, volume.answers, volume.states, volume.moves,
                   pattern)
    ensures volume.tick == NextCall(after)
  {
    ghost var before, past := volume.states, volume.moves;
    match task {
      case Run(input) =>
        var e := RunOne(volume, input, pattern);
        LoggedRun(entries, inputs, volume.answers, before, past, pattern, e, volume.states, volume.moves);
        return entries + [e];
      case Cut(after) =>
        if Lost(volume.store, after) {
          volume.LosePower(after);
        }
        StillRecorded(entries, volume.answers, before, past, volume.states, volume.moves, pattern);
        return entries;
    }
  }

  /** Any number of runs with any inputs, each with any faults, and power losses between them. */
  method RunAll(nested: bool, answers: nat -> Answer, pattern: Bytes -> bool, tasks: seq<Task>)
    returns (states: seq<Store>, moves: seq<Move>, entries: seq<Entry>)
    ensures Trace(states, moves) && states[0] == Empty(nested)
    ensures Logged(entries, Inputs(tasks), answers, states, moves, pattern)
  {
    var volume := new Volume(nested, answers);
    entries := [];
    for i := 0 to |tasks|
      invariant volume.Valid() && volume.states[0] == Empty(nested) && volume.answers == answers
      invariant Logged(entries, Inputs(tasks[..i]), answers, volume.states, volume.moves, pattern)
      invariant volume.tick == NextCall(entries)
    {
      assert tasks[..i + 1][..i] == tasks[..i];
      entries := Perform(volume, tasks[i], entries, Inputs(tasks[..i]), pattern);
    }
    assert tasks[..|tasks|] == tasks;
    return volume.states, volume.moves, entries;
  }

  lemma StillRecorded(entries: seq<Entry>, answers: nat -> Answer, states: seq<Store>, moves: seq<Move>, later: seq<Store>,
                      more: seq<Move>, pattern: Bytes -> bool)
    requires forall k :: 0 <= k < |entries| ==> Recorded(entries[k], answers, states, moves, pattern)
    requires states <= later && moves <= more && |later| == |more| + 1
    ensures forall k :: 0 <= k < |entries| ==> Recorded(entries[k], answers, later, more, pattern)
  {
    forall k | 0 <= k < |entries| ensures Recorded(entries[k], answers, later, more, pattern) {
      var e := entries[k];
      assert later[e.from] == states[e.from] && later[e.to] == states[e.to];
      forall m | e.from <= m < e.to ensures more[m].By? && more[m].content == e.input {
        assert more[m] == moves[m];
      }
    }
  }

  // ---------------------------------------------------------------- what runs answer

  /** A run that finds a leftover temporary file changes nothing and, unless a call fails, answers "conflict". */
  lemma LeftoverRun(e: Entry, answers: nat -> Answer, states: seq<Store>, moves: seq<Move>, nested: bool, pattern: Bytes -> bool)
    requires Recorded(e, answers, states, moves, pattern) && Trace(states, moves) && states[0] == Empty(nested)
    requires states[e.from].temp.Some?
    ensures states[e.to] == states[e.from] && e.verdict != Installed && e.verdict != AlreadyInstalled
    ensures Smooth(answers, e.began, e.ended) ==> e.verdict == Conflict
  {
    LeftoverConflicts(states, moves, nested, e.from, e.input);
  }

  /**
   After a run answered "installed", every later run, whatever happened between, changes nothing; unless a call fails it
   answers "already installed" to the same bytes and "conflict" to all others.
   */
  lemma RunAfterSuccess(first: Entry, later: Entry, answers: nat -> Answer, states: seq<Store>, moves: seq<Move>,
                        pattern: Bytes -> bool)
    requires Trace(states, moves) && first.verdict == Installed && first.to <= later.from
    requires Recorded(first, answers, states, moves, pattern) && Recorded(later, answers, states, moves, pattern)
    requires Acceptable(first.input, pattern)
    ensures states[later.to] == states[later.from] && Settled(states[later.to], first.input)
    ensures Smooth(answers, later.began, later.ended) ==>
              later.verdict == if later.input == first.input then AlreadyInstalled else Conflict
  {
    SettledForever(states, moves, first.input, first.to, later.from);
    SettledJudgement(states[later.from], first.input, later.input);
  }

  // ---------------------------------------------------------------- durability

  /**
   "Already installed" is not a promise of durability. The first run is killed when it has removed its temporary name and
   not yet synced the directory; the second finds the file and answers without syncing; a power loss then removes it.
   */
  method AlreadyInstalledMayVanish(content: Bytes)
    returns (first: Verdict, second: Verdict, states: seq<Store>, moves: seq<Move>)
    requires 1 <= |content| <= LIMIT
    ensures Trace(states, moves) && states[0] == Empty(false) && |states| >= 2 && moves[|moves| - 1] == PowerLoss
    ensures first != Installed && second == AlreadyInstalled
    ensures Dangling(states[|states| - 2], content) && states[|states| - 1].final.None?
  {
    var volume := new Volume(false, i => if i == 11 then Fails(false) else Goes(LIMIT, true));
    first := volume.Install(content);
    ghost var shown := volume.store;
    second := volume.Install(content);
    var kept := map i | i in volume.store.files :: volume.store.files[i].(synced := true);
    volume.LosePower(volume.store.(files := kept, final := None, temps := {None}, finals := {None}));
    return first, second, volume.states, volume.moves;
  }
}
