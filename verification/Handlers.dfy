/**
 All event handlers of one client at once. Every section guarded by a mutex is one step, so other
 handlers may run between a handler's look at the track, its look at the registry and its addition to
 the track. Key generation found at start-up looks only at the registry and never at the track.
 */
module Handlers {
  import opened Wrappers
  import opened Registry

  datatype Kind = KeyGen | Closing | Terminating | Signing(digest: string)

  /** What a track entry stands for. */
  datatype Key = Key(kind: Kind, keep: KeepID)

  datatype Progress = Started | TrackChecked | GuardChecked | Running | Worked | Ended

  /** `deduplicated` is false for key generation found by checkAwaitingKeyGeneration. */
  datatype Handler = Handler(key: Key, deduplicated: bool, progress: Progress)

  /** `awaiting` holds the signature requests that the chain still waits for. */
  datatype State = State(store: Store, awaiting: set<Key>, tracks: set<Key>, handlers: map<nat, Handler>)

  datatype Step =
    | Spawn(h: nat, key: Key, deduplicated: bool)
    | CheckTrack(h: nat)
    | CheckGuard(h: nat, answered: bool)
    | AddToTrack(h: nat)
    | Register(h: nat, signer: Signer, save: SaveResult)
    | Unregister(h: nat, archive: ArchiveResult)
    | Publish(h: nat)
    | Complete(h: nat)
    | ArchiveInactive(keep: KeepID, archive: ArchiveResult)
    | RequestSignature(keep: KeepID, digest: string)
    | PublishElsewhere(keep: KeepID, digest: string)

  /** The event is not settled: no signer yet for key generation, a signer for the end of a keep, a pending request. */
  predicate Wanted(s: State, key: Key) {
    match key.kind
    case KeyGen => key.keep !in s.store.memory
    case Closing => key.keep in s.store.memory
    case Terminating => key.keep in s.store.memory
    case Signing(_) => key in s.awaiting
  }

  /** What the deduplicator asks before it adds to the track; only for signing it has to ask the chain. */
  predicate Guard(s: State, key: Key, answered: bool) {
    Wanted(s, key) && (key.kind.Signing? ==> answered)
  }

  predicate Enabled(s: State, step: Step) {
    match step
    case Spawn(h, key, deduplicated) => h !in s.handlers && (deduplicated || key.kind == KeyGen)
    case ArchiveInactive(_, _) => true
    case RequestSignature(_, _) => true
    case PublishElsewhere(_, _) => true
    case CheckTrack(h) => h in s.handlers && s.handlers[h].progress == Started && s.handlers[h].deduplicated
    case CheckGuard(h, _) =>
      h in s.handlers && s.handlers[h].progress == (if s.handlers[h].deduplicated then TrackChecked else Started)
    case AddToTrack(h) => h in s.handlers && s.handlers[h].progress == GuardChecked
    case Register(h, _, _) => h in s.handlers && s.handlers[h].progress == Running && s.handlers[h].key.kind == KeyGen
    case Unregister(h, _) =>
      h in s.handlers && s.handlers[h].progress == Running && s.handlers[h].key.kind in {Closing, Terminating}
    case Publish(h) => h in s.handlers && s.handlers[h].progress == Running && s.handlers[h].key.kind.Signing?
    case Complete(h) => h in s.handlers && s.handlers[h].progress in {Running, Worked}
  }

  function Apply(c: Codec, s: State, step: Step): State
    requires Enabled(s, step)
  {
    match step
    case Spawn(h, key, deduplicated) => s.(handlers := s.handlers[h := Handler(key, deduplicated, Started)])
    case ArchiveInactive(keep, archive) => s.(store := UnregisterAfter(c, s.store, keep, archive))
    case CheckTrack(h) => Move(s, h, if s.handlers[h].key in s.tracks then Ended else TrackChecked)
    case RequestSignature(keep, digest) => s.(awaiting := s.awaiting + {Key(Signing(digest), keep)})
    case PublishElsewhere(keep, digest) => s.(awaiting := s.awaiting - {Key(Signing(digest), keep)})
    case Publish(h) => Move(s, h, Worked).(awaiting := s.awaiting - {s.handlers[h].key})
    case CheckGuard(h, answered) =>
      Move(s, h, if !Guard(s, s.handlers[h].key, answered) then Ended
                 else if s.handlers[h].deduplicated then GuardChecked else Running)
    case AddToTrack(h) =>
      Move(s, h, if s.handlers[h].key in s.tracks then Ended else Running).(tracks := s.tracks + {s.handlers[h].key})
    case Register(h, signer, save) =>
      Move(s, h, Worked).(store := RegisterAfter(c, s.store, s.handlers[h].key.keep, signer, save))
    case Unregister(h, archive) =>
      Move(s, h, Worked).(store := UnregisterAfter(c, s.store, s.handlers[h].key.keep, archive))
    case Complete(h) =>
      Move(s, h, Ended).(tracks := if s.handlers[h].deduplicated then s.tracks - {s.handlers[h].key} else s.tracks)
  }

  function Move(s: State, h: nat, progress: Progress): State
    requires h in s.handlers
  {
    s.(handlers := s.handlers[h := s.handlers[h].(progress := progress)])
  }

  ghost predicate IsRun(c: Codec, run: seq<State>, steps: seq<Step>) {
    && |run| == |steps| + 1
    && forall i :: 0 <= i < |steps| ==> Enabled(run[i], steps[i]) && run[i + 1] == Apply(c, run[i], steps[i])
  }

  // ---- Exclusion ----

  /** Between a true Notify-Started and the matching Notify-Completed. */
  predicate Active(h: Handler) { h.deduplicated && h.progress in {Running, Worked} }

  predicate Holds(s: State, h: nat, key: Key) { h in s.handlers && Active(s.handlers[h]) && s.handlers[h].key == key }

  ghost predicate Tracked(s: State, key: Key) { exists h :: Holds(s, h, key) }

  ghost predicate Exclusion(s: State) {
    && (forall key :: key in s.tracks <==> Tracked(s, key))
    && (forall g, h, key :: Holds(s, g, key) && Holds(s, h, key) ==> g == h)
  }

  /** The step of handler `h` neither starts nor ends its hold. */
  lemma SameHolds(s: State, s': State)
    requires Exclusion(s) && s'.tracks == s.tracks
    requires forall h, key :: Holds(s', h, key) <==> Holds(s, h, key)
    ensures Exclusion(s')
  {
    forall key ensures Tracked(s', key) <==> Tracked(s, key) {
      if Tracked(s, key) {
        var h :| Holds(s, h, key);
        assert Holds(s', h, key);
      }
      if Tracked(s', key) {
        var h :| Holds(s', h, key);
        assert Holds(s, h, key);
      }
    }
  }

  lemma AddingKeepsExclusion(c: Codec, s: State, step: Step)
    requires step.AddToTrack? && Enabled(s, step) && Exclusion(s) && s.handlers[step.h].deduplicated
    ensures Exclusion(Apply(c, s, step))
  {
    var s', h, key := Apply(c, s, step), step.h, s.handlers[step.h].key;
    assert forall g, k :: g != h ==> (Holds(s', g, k) <==> Holds(s, g, k));
    assert forall k :: !Holds(s, h, k);
    if key in s.tracks {
      assert s'.tracks == s.tracks;
      SameHolds(s, s');
    } else {
      assert Holds(s', h, key);
      forall k ensures k in s'.tracks <==> Tracked(s', k) {
        if k in s.tracks {
          var g :| Holds(s, g, k);
          assert Holds(s', g, k);
        }
      }
      assert forall g :: !Holds(s, g, key);
    }
  }

  lemma CompletingKeepsExclusion(c: Codec, s: State, step: Step)
    requires step.Complete? && Enabled(s, step) && Exclusion(s)
    ensures Exclusion(Apply(c, s, step))
  {
    var s', h, key := Apply(c, s, step), step.h, s.handlers[step.h].key;
    assert forall g, k :: g != h ==> (Holds(s', g, k) <==> Holds(s, g, k));
    assert forall k :: !Holds(s', h, k);
    if s.handlers[h].deduplicated {
      assert Holds(s, h, key);
      forall k ensures k in s'.tracks <==> Tracked(s', k) {
        if k in s'.tracks {
          var g :| Holds(s, g, k);
          assert Holds(s', g, k);
        }
      }
    } else {
      SameHolds(s, s');
    }
  }

  ghost predicate Sound(s: State) {
    forall h :: h in s.handlers && s.handlers[h].progress in {TrackChecked, GuardChecked} ==> s.handlers[h].deduplicated
  }

  lemma StepKeepsExclusion(c: Codec, s: State, step: Step)
    requires Enabled(s, step) && Exclusion(s) && Sound(s)
    ensures Exclusion(Apply(c, s, step)) && Sound(Apply(c, s, step))
  {
    if step.AddToTrack? {
      AddingKeepsExclusion(c, s, step);
    } else if step.Complete? {
      CompletingKeepsExclusion(c, s, step);
    } else {
      SameHolds(s, Apply(c, s, step));
    }
  }

  ghost predicate IsStart(s: State) { s.tracks == {} && s.handlers == map[] }

  lemma {:induction false} RunKeepsExclusion(c: Codec, run: seq<State>, steps: seq<Step>, i: nat)
    requires IsRun(c, run, steps) && i < |run| && IsStart(run[0])
    ensures Exclusion(run[i]) && Sound(run[i])
  {
    if i > 0 {
      RunKeepsExclusion(c, run, steps, i - 1);
      StepKeepsExclusion(c, run[i - 1], steps[i - 1]);
    }
  }

  /**
   Under every interleaving at most one deduplicated handler per keep and kind, and per digest for
   signing, is running, and the track holds an entry exactly while such a handler runs.
   */
  lemma AtMostOneHandler(c: Codec, run: seq<State>, steps: seq<Step>, i: nat, g: nat, h: nat, key: Key)
    requires IsRun(c, run, steps) && i < |run| && IsStart(run[0])
    ensures Holds(run[i], g, key) && Holds(run[i], h, key) ==> g == h
    ensures key in run[i].tracks <==> Tracked(run[i], key)
  {
    RunKeepsExclusion(c, run, steps, i);
  }

  // ---- One signer ----

  predicate Unregisters(s: State, step: Step, keep: KeepID)
    requires Enabled(s, step)
  {
    || (step.ArchiveInactive? && step.keep == keep)
    || (step.Unregister? && s.handlers[step.h].key.keep == keep)
  }

  predicate RegistersIn(c: Codec, s: State, step: Step, keep: KeepID)
    requires Enabled(s, step)
  {
    step.Register? && s.handlers[step.h].key.keep == keep && Registry.Registers(c, s.store, keep, step.signer, step.save)
  }

  /** One step changes a keep's signer only by registering a first one or unregistering the keep. */
  lemma SignerAfterStep(c: Codec, s: State, step: Step, keep: KeepID)
    requires Enabled(s, step)
    ensures Lookup(Apply(c, s, step).store.memory, keep)
         == if Unregisters(s, step, keep) then None
            else if RegistersIn(c, s, step, keep) then Some(step.signer)
            else Lookup(s.store.memory, keep)
    ensures RegistersIn(c, s, step, keep) ==> keep !in s.store.memory
  {
  }

  /**
   The signer of a registered keep never changes until the keep is unregistered, whichever handlers
   run, with or without deduplication, and however their registrations interleave.
   */
  lemma {:induction false} SignerNeverChanges(c: Codec, run: seq<State>, steps: seq<Step>, i: nat, j: nat, keep: KeepID)
    requires IsRun(c, run, steps) && i <= j < |run|
    requires keep in run[i].store.memory
    requires forall k :: i <= k < j ==> Enabled(run[k], steps[k]) && !Unregisters(run[k], steps[k], keep)
    ensures Lookup(run[j].store.memory, keep) == Some(run[i].store.memory[keep])
  {
    if i < j {
      SignerNeverChanges(c, run, steps, i, j - 1, keep);
      SignerAfterStep(c, run[j - 1], steps[j - 1], keep);
    }
  }

  // ---- The disk ----

  /** In every run the memory is contained in the saved data, whatever saves and archives fail. */
  lemma {:induction false} MemoryStaysOnDisk(c: Codec, run: seq<State>, steps: seq<Step>, i: nat)
    requires c.Faithful() && IsRun(c, run, steps) && i < |run| && MemoryOnDisk(c, run[0].store)
    ensures MemoryOnDisk(c, run[i].store)
  {
    if i > 0 {
      MemoryStaysOnDisk(c, run, steps, i - 1);
      var st, step := run[i - 1].store, steps[i - 1];
      assert Enabled(run[i - 1], step);
      match step
      case Register(h, signer, save) =>
        CallsKeepMemoryOnDisk(c, st, run[i - 1].handlers[h].key.keep, signer, save, Archived);
      case Unregister(h, archive) =>
        CallsKeepMemoryOnDisk(c, st, run[i - 1].handlers[h].key.keep, Signer([], 0), Saved, archive);
      case ArchiveInactive(keep, archive) =>
        CallsKeepMemoryOnDisk(c, st, keep, Signer([], 0), Saved, archive);
      case _ =>
    }
  }

  predicate FilesSucceed(step: Step) {
    match step
    case Register(_, _, save) => save.Saved?
    case Unregister(_, archive) => archive.Archived?
    case ArchiveInactive(_, archive) => archive.Archived?
    case _ => true
  }

  lemma {:induction false} DiskStaysMemory(c: Codec, run: seq<State>, steps: seq<Step>, i: nat)
    requires c.Faithful() && IsRun(c, run, steps) && i < |run| && DiskIsMemory(c, run[0].store)
    requires forall k :: 0 <= k < i ==> FilesSucceed(steps[k])
    ensures DiskIsMemory(c, run[i].store)
  {
    if i > 0 {
      DiskStaysMemory(c, run, steps, i - 1);
      var st, step := run[i - 1].store, steps[i - 1];
      assert Enabled(run[i - 1], step) && FilesSucceed(step);
      match step
      case Register(h, signer, _) => RegisterKeepsDiskIsMemory(c, st, run[i - 1].handlers[h].key.keep, signer);
      case Unregister(h, _) => UnregisterKeepsDiskIsMemory(c, st, run[i - 1].handlers[h].key.keep);
      case ArchiveInactive(keep, _) => UnregisterKeepsDiskIsMemory(c, st, keep);
      case _ =>
    }
  }

  /** With no failed save or archive, loading the disk at any point of any run gives back the registry. */
  lemma FreshLoadAnytime(c: Codec, run: seq<State>, steps: seq<Step>, i: nat, ds: seq<Descriptor>)
    requires c.Faithful() && IsRun(c, run, steps) && i < |run| && DiskIsMemory(c, run[0].store)
    requires forall k :: 0 <= k < i ==> FilesSucceed(steps[k])
    requires Enumerates(ds, run[i].store.disk)
    ensures LoadAll(map[], Signers(c, ds)) == run[i].store.memory
  {
    DiskStaysMemory(c, run, steps, i);
    FreshLoadIsMemory(c, run[i].store, ds);
  }

  // ---- What deduplication does not give ----

  /** A handler of this kind does its work, or another client or the start-up check does. */
  predicate Settles(c: Codec, s: State, step: Step, key: Key)
    requires Enabled(s, step)
  {
    match key.kind
    case KeyGen => RegistersIn(c, s, step, key.keep)
    case Closing => Unregisters(s, step, key.keep)
    case Terminating => Unregisters(s, step, key.keep)
    case Signing(digest) =>
      (step.Publish? && s.handlers[step.h].key == key) || step == PublishElsewhere(key.keep, digest)
  }

  predicate Reopens(c: Codec, s: State, step: Step, key: Key)
    requires Enabled(s, step)
  {
    match key.kind
    case KeyGen => Unregisters(s, step, key.keep)
    case Closing => RegistersIn(c, s, step, key.keep)
    case Terminating => RegistersIn(c, s, step, key.keep)
    case Signing(digest) => step == RequestSignature(key.keep, digest)
  }

  lemma WantedAfterStep(c: Codec, s: State, step: Step, key: Key)
    requires Enabled(s, step)
    ensures Wanted(Apply(c, s, step), key) <==> Reopens(c, s, step, key) || (Wanted(s, key) && !Settles(c, s, step, key))
    ensures !(Reopens(c, s, step, key) && Settles(c, s, step, key))
  {
  }

  /** The handler `h` looks at step `i`, finds the event unsettled, and is added to the track at step `j`. */
  ghost predicate StartsBetween(c: Codec, run: seq<State>, steps: seq<Step>, i: nat, j: nat, h: nat, key: Key)
    requires IsRun(c, run, steps)
  {
    && i < j < |steps|
    && steps[i].CheckGuard? && steps[i].h == h
    && h in run[i].handlers && run[i].handlers[h].key == key
    && run[i + 1].handlers[h].progress == GuardChecked
    && steps[j] == AddToTrack(h) && key !in run[j].tracks
  }

  /**
   Step `m` settles the event and nothing reopens it before `j`. Whoever settled it is not in the way
   of the track: it is no handler of this kind, or it is outside the deduplicator, or it has completed.
   */
  ghost predicate Overtakes(c: Codec, run: seq<State>, steps: seq<Step>, m: nat, j: nat, key: Key)
    requires IsRun(c, run, steps) && m < j < |run|
  {
    && Settles(c, run[m], steps[m], key)
    && (forall l :: m < l < j ==> !Reopens(c, run[l], steps[l], key))
    && (IsWork(steps[m]) && Holds(run[m], steps[m].h, key) ==> Completes(steps, m, j, steps[m].h))
  }

  predicate IsWork(step: Step) { step.Register? || step.Unregister? || step.Publish? }

  ghost predicate Completes(steps: seq<Step>, m: nat, j: nat, g: nat) {
    exists l :: m < l < j && l < |steps| && steps[l] == Complete(g)
  }

  /**
   The one gap in "never handled again", for all four kinds: a deduplicated handler starts on an event
   that is already settled exactly when it was overtaken between its look and its addition to the track.
   */
  lemma LateStartExactly(c: Codec, run: seq<State>, steps: seq<Step>, i: nat, j: nat, h: nat, key: Key)
    requires IsRun(c, run, steps) && IsStart(run[0]) && StartsBetween(c, run, steps, i, j, h, key)
    ensures !Wanted(run[j], key) <==> exists m :: i < m < j && Overtakes(c, run, steps, m, j, key)
  {
    assert Enabled(run[i], steps[i]);
    assert Wanted(run[i + 1], key);
    if !Wanted(run[j], key) {
      var m := LastSettling(c, run, steps, i + 1, j, key);
      if IsWork(steps[m]) && Holds(run[m], steps[m].h, key) {
        RunKeepsExclusion(c, run, steps, j);
        HoldsUntilComplete(c, run, steps, m, j, steps[m].h, key);
        assert key in run[j].tracks <==> Tracked(run[j], key);
      }
      assert Overtakes(c, run, steps, m, j, key);
    } else {
      forall m | i < m < j ensures !Overtakes(c, run, steps, m, j, key) {
        if Overtakes(c, run, steps, m, j, key) {
          WantedAfterStep(c, run[m], steps[m], key);
          StaysSettled(c, run, steps, m + 1, j, key);
        }
      }
    }
  }

  lemma {:induction false} StaysSettled(c: Codec, run: seq<State>, steps: seq<Step>, m: nat, j: nat, key: Key)
    requires IsRun(c, run, steps) && m <= j < |run| && !Wanted(run[m], key)
    requires forall l :: m <= l < j ==> !Reopens(c, run[l], steps[l], key)
    ensures !Wanted(run[j], key)
  {
    if m < j {
      StaysSettled(c, run, steps, m, j - 1, key);
      WantedAfterStep(c, run[j - 1], steps[j - 1], key);
    }
  }

  lemma {:induction false} LastSettling(c: Codec, run: seq<State>, steps: seq<Step>, i: nat, j: nat, key: Key)
    returns (m: nat)
    requires IsRun(c, run, steps) && i <= j < |run| && Wanted(run[i], key) && !Wanted(run[j], key)
    ensures i <= m < j && Settles(c, run[m], steps[m], key)
    ensures forall l :: m < l < j ==> !Reopens(c, run[l], steps[l], key)
  {
    WantedAfterStep(c, run[j - 1], steps[j - 1], key);
    if Settles(c, run[j - 1], steps[j - 1], key) {
      m := j - 1;
    } else {
      m := LastSettling(c, run, steps, i, j - 1, key);
    }
  }

  /** A running handler keeps its hold on the track until it completes. */
  lemma {:induction false} HoldsUntilComplete(
    c: Codec, run: seq<State>, steps: seq<Step>, m: nat, j: nat, g: nat, key: Key)
    requires IsRun(c, run, steps) && m <= j < |run| && Holds(run[m], g, key)
    ensures Holds(run[j], g, key) || exists l :: m <= l < j && steps[l] == Complete(g)
  {
    if m < j {
      HoldsUntilComplete(c, run, steps, m, j - 1, g, key);
      assert Enabled(run[j - 1], steps[j - 1]);
      if Holds(run[j - 1], g, key) && steps[j - 1] == Complete(g) {
        assert m <= j - 1 < j;
      }
    }
  }

  function After(c: Codec, s: State, steps: seq<Step>): Option<State>
    decreases steps
  {
    if steps == [] then Some(s)
    else if Enabled(s, steps[0]) then After(c, Apply(c, s, steps[0]), steps[1..])
    else None
  }

  lemma {:induction false} AfterBoth(c: Codec, s: State, before: seq<Step>, rest: seq<Step>)
    requires After(c, s, before).Some?
    ensures After(c, s, before + rest) == After(c, After(c, s, before).value, rest)
    decreases before
  {
    if before == [] {
      assert before + rest == rest;
    } else {
      assert (before + rest)[1..] == before[1..] + rest;
      AfterBoth(c, Apply(c, s, before[0]), before[1..], rest);
    }
  }

  function TwoCopies(first: Progress, second: Progress): map<nat, Handler> {
    map[0 := Handler(Key(KeyGen, 0), true, first), 1 := Handler(Key(KeyGen, 0), true, second)]
  }

  const NEW_CLIENT := State(Store(map[], map[]), {}, {}, map[])

  const BOTH_LOOK := [
    Spawn(0, Key(KeyGen, 0), true), Spawn(1, Key(KeyGen, 0), true),
    CheckTrack(0), CheckTrack(1), CheckGuard(1, false), CheckGuard(0, false)]

  lemma BothCopiesLook(c: Codec)
    ensures After(c, NEW_CLIENT, BOTH_LOOK)
         == Some(NEW_CLIENT.(handlers := TwoCopies(GuardChecked, GuardChecked)))
  {
    var s2 := NEW_CLIENT.(handlers := TwoCopies(Started, Started));
    var s4 := NEW_CLIENT.(handlers := TwoCopies(TrackChecked, TrackChecked));
    var s6 := NEW_CLIENT.(handlers := TwoCopies(GuardChecked, GuardChecked));
    var s5 := Apply(c, s4, CheckGuard(1, false));
    assert Apply(c, s5, CheckGuard(0, false)) == s6;
    assert After(c, s5, BOTH_LOOK[5..]) == Some(s6);
    assert After(c, s4, BOTH_LOOK[4..]) == Some(s6);
    var s3 := Apply(c, s2, CheckTrack(0));
    assert Apply(c, s3, CheckTrack(1)) == s4;
    assert After(c, s3, BOTH_LOOK[3..]) == Some(s6);
    assert After(c, s2, BOTH_LOOK[2..]) == Some(s6);
    var s1 := Apply(c, NEW_CLIENT, BOTH_LOOK[0]);
    assert After(c, s1, BOTH_LOOK[1..]) == Some(s6);
  }

  /** Two copies of one event: the second starts to generate a key for a keep that already has its signer. */
  lemma HandledTwice(c: Codec, signer: Signer)
    requires c.marshal(signer).Some?
    ensures var end := After(c, NEW_CLIENT,
                             BOTH_LOOK + [AddToTrack(0), Register(0, signer, Saved), Complete(0), AddToTrack(1)]);
            end.Some? && Holds(end.value, 1, Key(KeyGen, 0)) && Lookup(end.value.store.memory, 0) == Some(signer)
  {
    var rest := [AddToTrack(0), Register(0, signer, Saved), Complete(0), AddToTrack(1)];
    BothCopiesLook(c);
    AfterBoth(c, NEW_CLIENT, BOTH_LOOK, rest);
    var s6 := NEW_CLIENT.(handlers := TwoCopies(GuardChecked, GuardChecked));
    var s7 := Apply(c, s6, rest[0]);
    var s8 := Apply(c, s7, rest[1]);
    var s9 := Apply(c, s8, rest[2]);
    var s10 := Apply(c, s9, rest[3]);
    assert After(c, s9, rest[3..]) == Some(s10);
    assert After(c, s8, rest[2..]) == Some(s10);
    assert After(c, s7, rest[1..]) == Some(s10);
    assert After(c, s6, rest) == Some(s10);
  }
}
