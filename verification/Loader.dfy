/**
 Loading the stored signers: one goroutine decodes files, one passes storage errors on, one closes the
 two output channels, and two loops of the registry consume them. The output channels are unbuffered,
 so a delivery is one step of a sender and a receiver together; everything else interleaves freely.
 */
module Loader {
  import opened Wrappers
  import opened Registry

  datatype DataRoutine = Receiving | SendingSigner(ks: KeepSigner) | SendingError(error: LoadError) | DataDone

  datatype ErrorRoutine = Waiting | Passing(message: string) | ErrorsDone

  datatype Closer = WaitsForBoth | ClosesSigners | ClosesErrors | Closed

  /** An entry of the error log: a file that could not be loaded, or an error of the storage itself. */
  datatype Logged = FromFile(error: LoadError) | FromStorage(message: string)

  datatype State = State(
    inputData: seq<Descriptor>,
    inputErrors: seq<string>,
    data: DataRoutine,
    errors: ErrorRoutine,
    closer: Closer,
    signersClosed: nat,
    errorsClosed: nat,
    signerLoop: bool,
    errorLoop: bool,
    memory: map<KeepID, Signer>,
    received: seq<KeepSigner>,
    log: seq<Logged>)

  function Start(memory: map<KeepID, Signer>, inputData: seq<Descriptor>, inputErrors: seq<string>): State {
    State(inputData, inputErrors, Receiving, Waiting, WaitsForBoth, 0, 0, true, true, memory, [], [])
  }

  datatype Step =
    | ReceiveDescriptor | EndOfData | DeliverSigner | DeliverFileError
    | ReceiveError | EndOfErrors | DeliverError
    | Wake | CloseSigners | CloseErrors
    | EndSignerLoop | EndErrorLoop

  predicate Enabled(s: State, step: Step) {
    match step
    case ReceiveDescriptor => s.data == Receiving && s.inputData != []
    case EndOfData => s.data == Receiving && s.inputData == []
    case DeliverSigner => s.data.SendingSigner? && s.signerLoop
    case DeliverFileError => s.data.SendingError? && s.errorLoop
    case ReceiveError => s.errors == Waiting && s.inputErrors != []
    case EndOfErrors => s.errors == Waiting && s.inputErrors == []
    case DeliverError => s.errors.Passing? && s.errorLoop
    case Wake => s.closer == WaitsForBoth && s.data == DataDone && s.errors == ErrorsDone
    case CloseSigners => s.closer == ClosesSigners
    case CloseErrors => s.closer == ClosesErrors
    case EndSignerLoop => s.signerLoop && s.signersClosed > 0
    case EndErrorLoop => s.errorLoop && s.errorsClosed > 0
  }

  function Apply(c: Codec, s: State, step: Step): State
    requires Enabled(s, step)
  {
    match step
    case ReceiveDescriptor =>
      var decoded := Decode(c, s.inputData[0]);
      s.(inputData := s.inputData[1..],
         data := if decoded.Ok? then SendingSigner(decoded.value) else SendingError(decoded.error))
    case EndOfData => s.(data := DataDone)
    case DeliverSigner =>
      s.(data := Receiving, received := s.received + [s.data.ks], memory := LoadOne(s.memory, s.data.ks))
    case DeliverFileError => s.(data := Receiving, log := s.log + [FromFile(s.data.error)])
    case ReceiveError => s.(inputErrors := s.inputErrors[1..], errors := Passing(s.inputErrors[0]))
    case EndOfErrors => s.(errors := ErrorsDone)
    case DeliverError => s.(errors := Waiting, log := s.log + [FromStorage(s.errors.message)])
    case Wake => s.(closer := ClosesSigners)
    case CloseSigners => s.(closer := ClosesErrors, signersClosed := s.signersClosed + 1)
    case CloseErrors => s.(closer := Closed, errorsClosed := s.errorsClosed + 1)
    case EndSignerLoop => s.(signerLoop := false)
    case EndErrorLoop => s.(errorLoop := false)
  }

  ghost predicate IsRun(c: Codec, run: seq<State>, steps: seq<Step>) {
    && |run| == |steps| + 1
    && forall i :: 0 <= i < |steps| ==> Enabled(run[i], steps[i]) && run[i + 1] == Apply(c, run[i], steps[i])
  }

  // ---- The channels ----

  predicate ChannelInvariant(s: State) {
    && s.signersClosed == (if s.closer in {ClosesErrors, Closed} then 1 else 0)
    && s.errorsClosed == (if s.closer == Closed then 1 else 0)
    && (s.closer != WaitsForBoth ==> s.data == DataDone && s.errors == ErrorsDone)
    && (!s.signerLoop ==> s.signersClosed == 1)
    && (!s.errorLoop ==> s.errorsClosed == 1)
  }

  /** A goroutine is about to send on a channel, which Go punishes with a panic once it is closed. */
  predicate SendsOnClosedChannel(s: State) {
    || (s.data.SendingSigner? && s.signersClosed > 0)
    || ((s.data.SendingError? || s.errors.Passing?) && s.errorsClosed > 0)
  }

  /** LoadExistingKeeps returns once both of its loops have ended. */
  predicate Returned(s: State) { !s.signerLoop && !s.errorLoop }

  // ---- The contents ----

  function FileErrors(log: seq<Logged>): seq<LoadError> {
    if log == [] then []
    else
      var last := log[|log| - 1];
      FileErrors(log[..|log| - 1]) + (if last.FromFile? then [last.error] else [])
  }

  function StorageErrors(log: seq<Logged>): seq<string> {
    if log == [] then []
    else
      var last := log[|log| - 1];
      StorageErrors(log[..|log| - 1]) + (if last.FromStorage? then [last.message] else [])
  }

  function PendingSigners(s: State): seq<KeepSigner> {
    if s.data.SendingSigner? then [s.data.ks] else []
  }

  function PendingErrors(s: State): seq<LoadError> {
    if s.data.SendingError? then [s.data.error] else []
  }

  function PendingMessages(s: State): seq<string> {
    if s.errors.Passing? then [s.errors.message] else []
  }

  /** No signer is lost or doubled: those delivered, being sent and still to come are the input's. */
  predicate SignersInvariant(c: Codec, start: State, s: State) {
    && s.received + (PendingSigners(s) + Signers(c, s.inputData)) == Signers(c, start.inputData)
    && s.memory == LoadAll(start.memory, s.received)
    && (s.data == DataDone ==> s.inputData == [])
  }

  predicate FileErrorsInvariant(c: Codec, start: State, s: State) {
    && FileErrors(s.log) + (PendingErrors(s) + Errors(c, s.inputData)) == Errors(c, start.inputData)
    && (s.data == DataDone ==> s.inputData == [])
  }

  predicate MessagesInvariant(start: State, s: State) {
    && StorageErrors(s.log) + (PendingMessages(s) + s.inputErrors) == start.inputErrors
    && (s.errors == ErrorsDone ==> s.inputErrors == [])
  }

  lemma StepKeepsChannels(c: Codec, s: State, step: Step)
    requires Enabled(s, step) && ChannelInvariant(s)
    ensures ChannelInvariant(Apply(c, s, step))
  {
  }

  lemma {:induction false} LoadAllAppends(memory: map<KeepID, Signer>, signers: seq<KeepSigner>, ks: KeepSigner)
    ensures LoadAll(memory, signers + [ks]) == LoadOne(LoadAll(memory, signers), ks)
    decreases signers
  {
    if signers == [] {
      assert LoadAll(memory, [ks]) == LoadAll(LoadOne(memory, ks), []);
    } else {
      assert (signers + [ks])[1..] == signers[1..] + [ks];
      LoadAllAppends(LoadOne(memory, signers[0]), signers[1..], ks);
    }
  }

  lemma LogAppends(log: seq<Logged>, entry: Logged)
    ensures FileErrors(log + [entry]) == FileErrors(log) + (if entry.FromFile? then [entry.error] else [])
    ensures StorageErrors(log + [entry]) == StorageErrors(log) + (if entry.FromStorage? then [entry.message] else [])
  {
    assert (log + [entry])[..|log|] == log;
  }

  lemma Shift<T>(done: seq<T>, x: T, rest: seq<T>)
    ensures (done + [x]) + rest == done + ([x] + rest)
  {
  }

  lemma StepKeepsSigners(c: Codec, start: State, s: State, step: Step)
    requires Enabled(s, step) && SignersInvariant(c, start, s)
    ensures SignersInvariant(c, start, Apply(c, s, step))
  {
    hide LoadAll;
    var s' := Apply(c, s, step);
    var rest := PendingSigners(s) + Signers(c, s.inputData);
    var rest' := PendingSigners(s') + Signers(c, s'.inputData);
    if step == DeliverSigner {
      LoadAllAppends(start.memory, s.received, s.data.ks);
      assert rest == [s.data.ks] + Signers(c, s.inputData) && rest' == Signers(c, s.inputData);
      Shift(s.received, s.data.ks, rest');
    } else {
      assert rest' == rest;
    }
  }

  lemma StepKeepsFileErrors(c: Codec, start: State, s: State, step: Step)
    requires Enabled(s, step) && FileErrorsInvariant(c, start, s)
    ensures FileErrorsInvariant(c, start, Apply(c, s, step))
  {
    hide FileErrors, LoadOne;
    var s' := Apply(c, s, step);
    var rest := PendingErrors(s) + Errors(c, s.inputData);
    var rest' := PendingErrors(s') + Errors(c, s'.inputData);
    if step == DeliverFileError {
      LogAppends(s.log, FromFile(s.data.error));
      assert rest == [s.data.error] + Errors(c, s.inputData) && rest' == Errors(c, s.inputData);
      Shift(FileErrors(s.log), s.data.error, rest');
    } else {
      assert rest' == rest;
      if step == DeliverError {
        LogAppends(s.log, FromStorage(s.errors.message));
        assert FileErrors(s'.log) == FileErrors(s.log);
      }
    }
  }

  lemma StepKeepsMessages(c: Codec, start: State, s: State, step: Step)
    requires Enabled(s, step) && MessagesInvariant(start, s)
    ensures MessagesInvariant(start, Apply(c, s, step))
  {
    hide StorageErrors;
    var s' := Apply(c, s, step);
    var rest := PendingMessages(s) + s.inputErrors;
    var rest' := PendingMessages(s') + s'.inputErrors;
    if step == DeliverError {
      LogAppends(s.log, FromStorage(s.errors.message));
      assert rest == [s.errors.message] + s.inputErrors && rest' == s.inputErrors;
      Shift(StorageErrors(s.log), s.errors.message, rest');
    } else {
      assert rest' == rest;
      if step == DeliverFileError {
        LogAppends(s.log, FromFile(s.data.error));
        assert StorageErrors(s'.log) == StorageErrors(s.log);
      }
    }
  }

  // ---- Every schedule ends ----

  function Measure(s: State): nat {
    2 * |s.inputData| + 2 * |s.inputErrors|
    + (match s.data case DataDone => 0 case Receiving => 1 case _ => 2)
    + (match s.errors case ErrorsDone => 0 case Waiting => 1 case _ => 2)
    + (match s.closer case Closed => 0 case ClosesErrors => 1 case ClosesSigners => 2 case WaitsForBoth => 3)
    + (if s.signerLoop then 1 else 0) + (if s.errorLoop then 1 else 0)
  }

  lemma StepDecreases(c: Codec, s: State, step: Step)
    requires Enabled(s, step)
    ensures Measure(Apply(c, s, step)) < Measure(s)
  {
  }

  ghost predicate Invariant(c: Codec, start: State, s: State) {
    && ChannelInvariant(s) && SignersInvariant(c, start, s)
    && FileErrorsInvariant(c, start, s) && MessagesInvariant(start, s)
  }

  lemma StartInvariant(c: Codec, start: State)
    requires start == Start(start.memory, start.inputData, start.inputErrors)
    ensures Invariant(c, start, start)
  {
  }

  lemma {:induction false} RunInvariant(c: Codec, run: seq<State>, steps: seq<Step>, i: nat)
    requires IsRun(c, run, steps) && i < |run|
    requires run[0] == Start(run[0].memory, run[0].inputData, run[0].inputErrors)
    ensures Invariant(c, run[0], run[i]) && Measure(run[i]) + i <= Measure(run[0])
  {
    StartInvariant(c, run[0]);
    if i > 0 {
      RunInvariant(c, run, steps, i - 1);
      hide ChannelInvariant, SignersInvariant, FileErrorsInvariant, MessagesInvariant, Measure, Apply;
      StepKeepsChannels(c, run[i - 1], steps[i - 1]);
      StepKeepsSigners(c, run[0], run[i - 1], steps[i - 1]);
      StepKeepsFileErrors(c, run[0], run[i - 1], steps[i - 1]);
      StepKeepsMessages(c, run[0], run[i - 1], steps[i - 1]);
      StepDecreases(c, run[i - 1], steps[i - 1]);
    }
  }

  /** In every schedule, nothing is sent on a closed channel and no channel is closed twice. */
  lemma ChannelsAreUsedSafely(c: Codec, run: seq<State>, steps: seq<Step>, i: nat)
    requires IsRun(c, run, steps) && i < |run|
    requires run[0] == Start(run[0].memory, run[0].inputData, run[0].inputErrors)
    ensures !SendsOnClosedChannel(run[i])
    ensures run[i].signersClosed <= 1 && run[i].errorsClosed <= 1
    ensures Returned(run[i]) ==> run[i].signersClosed == 1 && run[i].errorsClosed == 1
  {
    RunInvariant(c, run, steps, i);
  }

  /** Every schedule is bounded, and it can only stop by returning: there is no deadlock. */
  lemma EveryScheduleReturns(c: Codec, run: seq<State>, steps: seq<Step>)
    requires IsRun(c, run, steps)
    requires run[0] == Start(run[0].memory, run[0].inputData, run[0].inputErrors)
    ensures |steps| <= 2 * |run[0].inputData| + 2 * |run[0].inputErrors| + 7
    ensures Returned(run[|steps|]) || exists step :: Enabled(run[|steps|], step)
  {
    RunInvariant(c, run, steps, |steps|);
    NoDeadlock(run[|steps|]);
    hide ChannelInvariant, SignersInvariant, FileErrorsInvariant, MessagesInvariant, Enabled, Apply;
  }

  /** While loading has not returned, some goroutine can go on. */
  lemma NoDeadlock(s: State)
    requires ChannelInvariant(s)
    ensures Returned(s) || exists step :: Enabled(s, step)
  {
    var step :=
      if s.data.Receiving? then (if s.inputData == [] then EndOfData else ReceiveDescriptor)
      else if s.data.SendingSigner? then DeliverSigner
      else if s.data.SendingError? then DeliverFileError
      else if s.errors.Waiting? then (if s.inputErrors == [] then EndOfErrors else ReceiveError)
      else if s.errors.Passing? then DeliverError
      else if s.closer == WaitsForBoth then Wake
      else if s.closer == ClosesSigners then CloseSigners
      else if s.closer == ClosesErrors then CloseErrors
      else if s.signerLoop then EndSignerLoop
      else EndErrorLoop;
    assert Returned(s) || Enabled(s, step);
  }

  /**
   Whatever the schedule, when loading returns each file has given one signer or one logged error, the
   storage errors are all logged, and the map holds the first signer of every keep.
   */
  lemma EveryFileIsAccountedFor(c: Codec, run: seq<State>, steps: seq<Step>)
    requires IsRun(c, run, steps) && Returned(run[|steps|])
    requires run[0] == Start(run[0].memory, run[0].inputData, run[0].inputErrors)
    ensures var s := run[|steps|];
            && s.received == Signers(c, run[0].inputData)
            && FileErrors(s.log) == Errors(c, run[0].inputData)
            && StorageErrors(s.log) == run[0].inputErrors
            && |s.received| + |FileErrors(s.log)| == |run[0].inputData|
            && s.memory == LoadAll(run[0].memory, Signers(c, run[0].inputData))
  {
    RunInvariant(c, run, steps, |steps|);
    OneResultPerFile(c, run[0].inputData);
  }

  /**
   When loading returns, the file at any place has given the very signer its directory and content
   spell, or the log entry that says what is wrong with it, in the order of the files.
   */
  lemma EachFileGivesItsResult(c: Codec, run: seq<State>, steps: seq<Step>, i: nat)
    requires IsRun(c, run, steps) && Returned(run[|steps|]) && i < |run[0].inputData|
    requires run[0] == Start(run[0].memory, run[0].inputData, run[0].inputErrors)
    ensures var (s, d) := (run[|steps|], run[0].inputData[i]);
            var n := |Signers(c, run[0].inputData[..i])|;
            && n <= i
            && match (d.content, c.unmarshalID(d.dir))
               case (None, _) => HasAt(FileErrors(s.log), i - n, Unreadable(d))
               case (Some(_), None) => HasAt(FileErrors(s.log), i - n, NotAKeepID(d))
               case (Some(content), Some(id)) =>
                 if c.unmarshal(content).Some?
                 then HasAt(s.received, n, KeepSigner(id, c.unmarshal(content).value))
                 else HasAt(FileErrors(s.log), i - n, NotASigner(d))
  {
    EveryFileIsAccountedFor(c, run, steps);
    FileGivesItsResult(c, run[0].inputData, i);
  }

  lemma {:induction false} OneResultPerFile(c: Codec, ds: seq<Descriptor>)
    ensures |Signers(c, ds)| + |Errors(c, ds)| == |ds|
  {
    if ds != [] {
      OneResultPerFile(c, ds[1..]);
    }
  }

  /** Restarting the client: whatever the schedule, loading its own disk gives back the registry. */
  lemma RestartRestoresTheRegistry(c: Codec, st: Store, run: seq<State>, steps: seq<Step>)
    requires c.Faithful() && DiskIsMemory(c, st)
    requires IsRun(c, run, steps) && Returned(run[|steps|])
    requires run[0] == Start(map[], run[0].inputData, run[0].inputErrors)
    requires Enumerates(run[0].inputData, st.disk)
    ensures run[|steps|].memory == st.memory
  {
    EveryFileIsAccountedFor(c, run, steps);
    FreshLoadIsMemory(c, st, run[0].inputData);
  }
}
