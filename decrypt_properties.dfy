/** What the decrypt worker promises: `init` runs once and its module is
    reused, a missing runtime is reported before anything is staged, a
    successful run climbs through fixed milestones to the decrypted bytes and
    cleans up, a failed run ends in one classified error, and the captured
    engine output is never cleared between runs. */
module DecryptProperties {
  import opened Messages
  import opened Text
  import opened PdfcpuWorker

  /** The failure classification as a decision table, each outcome with the
      condition that selects it. */
  lemma ClassifyDecisionTable(d: string, password: Option<string>)
    ensures Classify(d, password) == NotEncrypted <==> Contains(d, NotEncryptedMarker)
    ensures Classify(d, password) == WrongPassword
      <==> !Contains(d, NotEncryptedMarker) && Contains(d, PasswordMarker) && Truthy(password)
    ensures Classify(d, password) == PasswordRequired
      <==> !Contains(d, NotEncryptedMarker) && Contains(d, PasswordMarker) && !Truthy(password)
    ensures Classify(d, password) == JavaScriptError
      <==> !Contains(d, NotEncryptedMarker) && !Contains(d, PasswordMarker) && Contains(d, JavaScriptMarker)
    ensures Classify(d, password) == UnknownFailure
      <==> !Contains(d, NotEncryptedMarker) && !Contains(d, PasswordMarker) && !Contains(d, JavaScriptMarker)
  {
  }

  /** Each failure has its own description, so the page can tell them apart. */
  lemma DescriptionsDistinct(f: Failure, g: Failure)
    requires Description(f) == Description(g)
    ensures f == g
  {
  }

  /** The worker starts uninitialized, which satisfies the invariant. */
  lemma InitialValid()
    ensures Valid(Initial()) && !Initial().initialized
  {
  }

  /** `init`, which only ever runs on an uninitialized worker, always installs
      an empty filesystem; it sets `initialized`, and stores the compiled
      module, exactly when the Go runtime was created, and it reports an error
      exactly when it was not. */
  lemma InitOutcome(s: WorkerState, env: InitEnv)
    requires !s.initialized
    ensures var r := InitStep(s, env);
      && r.state.fs == Some(map[])
      && Valid(r.state)
      && (r.state.initialized <==> env.goCreated)
      && (r.state.initialized ==> r.state.pdfcpuModule == Some(env.compiled))
      && (r.events == [] <==> env.goCreated)
      && (!env.goCreated ==> r.events == [GoInitFailed] && r.state.go.None?)
      && r.state.stdoutStderr == s.stdoutStderr
  {
  }

  /** A decrypt request keeps the invariant, whatever the environment and the
      engine do. */
  lemma DecryptKeepsValid(s: WorkerState, file: seq<byte>, password: Option<string>, env: InitEnv, engine: Engine)
    requires Valid(s)
    ensures Valid(DecryptStep(s, file, password, env, engine).state)
  {
  }

  /** Once initialized, a request does not consult the environment again: the
      outcome is the same for every `init` environment and the module is kept. */
  lemma InitializedSkipsInit(s: WorkerState, file: seq<byte>, password: Option<string>,
                             env1: InitEnv, env2: InitEnv, engine: Engine)
    requires Valid(s) && s.initialized
    ensures DecryptStep(s, file, password, env1, engine) == DecryptStep(s, file, password, env2, engine)
    ensures DecryptStep(s, file, password, env1, engine).state.pdfcpuModule == s.pdfcpuModule
    ensures DecryptStep(s, file, password, env1, engine).state.initialized
  {
  }

  /** The first request on a fresh worker compiles the module; a second request
      reuses it, whatever its own environment would have compiled. */
  lemma ModuleCompiledOnce(file1: seq<byte>, password1: Option<string>, env1: InitEnv, engine1: Engine,
                           file2: seq<byte>, password2: Option<string>, env2: InitEnv, engine2: Engine)
    requires env1.goCreated
    ensures var s1 := DecryptStep(Initial(), file1, password1, env1, engine1).state;
      && s1.initialized && s1.pdfcpuModule == Some(env1.compiled)
      && DecryptStep(s1, file2, password2, env2, engine2).state.pdfcpuModule == Some(env1.compiled)
  {
    var s1 := DecryptStep(Initial(), file1, password1, env1, engine1).state;
    InitialValid();
    DecryptKeepsValid(Initial(), file1, password1, env1, engine1);
    InitializedSkipsInit(s1, file2, password2, env2, env2, engine2);
  }

  /** In a valid state the filesystem and the module are never found missing:
      the only missing piece `decrypt` can meet is the Go runtime, which happens
      exactly when `init` ran and took its `if (!go)` branch. JavaScript never
      takes that branch, since `new Go()` always yields an object; taken as
      written, it makes the request post two errors, stage nothing, and leave
      the worker uninitialized so that the next request retries `init`. */
  lemma MissingRuntimeReported(s: WorkerState, file: seq<byte>, password: Option<string>, env: InitEnv, engine: Engine)
    requires Valid(s)
    ensures var t := Boot(s, env).state;
      && t.fs.Some? && (t.go.Some? ==> t.pdfcpuModule.Some?)
      && (t.go.None? <==> !s.initialized && !env.goCreated)
    ensures !s.initialized && !env.goCreated ==>
      var r := DecryptStep(s, file, password, env, engine);
      && r.events == [Progress(0.0), GoInitFailed, Progress(10.0), NoGo]
      && r.state.fs == Some(map[])
      && !r.state.initialized
  {
  }

  /** Whatever the state, once `init` has had its chance the missing pieces are
      checked in the order filesystem, runtime, module; the first one missing
      ends the request with its own error, and the filesystem is left as it was. */
  lemma MissingStateCheckOrder(s: WorkerState, file: seq<byte>, password: Option<string>, env: InitEnv, engine: Engine)
    ensures var t := Boot(s, env).state;
            var r := DecryptStep(s, file, password, env, engine);
            var begun := [Progress(0.0)] + Boot(s, env).events + [Progress(10.0)];
      && (t.fs.None? ==> r == Step(t, begun + [NoFs]))
      && (t.fs.Some? && t.go.None? ==> r == Step(t, begun + [NoGo]))
      && (t.fs.Some? && t.go.Some? && t.pdfcpuModule.None? ==> r == Step(t, begun + [NoModule]))
      && (t.fs.None? || t.go.None? || t.pdfcpuModule.None? ==> r.state.fs == t.fs)
    ensures NoFs.message != NoGo.message && NoGo.message != NoModule.message && NoFs.message != NoModule.message
  {
  }

  /** The argument vector sent to the engine, by whether a password is given. */
  lemma EngineArguments(s: WorkerState, file: seq<byte>, password: Option<string>, env: InitEnv, engine: Engine)
    requires Valid(s) && (s.initialized || env.goCreated)
    ensures DecryptStep(s, file, password, env, engine).state.go == Some(GoRuntime(Argv(password)))
    ensures Truthy(password) <==> "-upw" in Argv(password)
  {
    ArgvPasswordFlag(password);
  }

  /** The paths a decrypt run touches. */
  predicate Scratch(p: string) {
    p == InputPath || p == OutputPath
  }

  /** A run that finds `/output.pdf` posts the fixed milestones and the bytes it
      found, removes both staged files and leaves every other file alone. */
  lemma DecryptSucceeds(s: WorkerState, file: seq<byte>, password: Option<string>, env: InitEnv, engine: Engine)
    requires Valid(s) && (s.initialized || env.goCreated)
    requires OutputPath in AfterRun(Boot(s, env).state.fs.value, file, password, engine)
    ensures var before := Boot(s, env).state.fs.value;
      var after := AfterRun(before, file, password, engine);
      var r := DecryptStep(s, file, password, env, engine);
      && r.events == [Progress(0.0), Progress(10.0), Progress(20.0), Progress(30.0), Progress(80.0),
                      Progress(90.0), Progress(100.0), Success(after[OutputPath])]
      && r.state.fs.Some?
      && InputPath !in r.state.fs.value && OutputPath !in r.state.fs.value
      && (forall p :: !Scratch(p) ==> (p in r.state.fs.value <==> p in before))
      && (forall p :: !Scratch(p) && p in before ==> r.state.fs.value[p] == before[p])
  {
  }

  /** The bytes the engine writes are the bytes posted. */
  lemma EngineOutputPosted(s: WorkerState, file: seq<byte>, password: Option<string>, env: InitEnv, engine: Engine,
                           bytes: seq<byte>)
    requires Valid(s) && (s.initialized || env.goCreated)
    requires engine(Argv(password), Boot(s, env).state.fs.value[InputPath := file]).output == Some(bytes)
    ensures var events := DecryptStep(s, file, password, env, engine).events;
      |events| > 0 && events[|events| - 1] == Success(bytes)
  {
    DecryptSucceeds(s, file, password, env, engine);
  }

  /** A run that finds no `/output.pdf` posts the milestones up to 80 and one
      error classified from everything captured so far, and leaves the staged
      input in place. */
  lemma DecryptFails(s: WorkerState, file: seq<byte>, password: Option<string>, env: InitEnv, engine: Engine)
    requires Valid(s) && (s.initialized || env.goCreated)
    requires OutputPath !in AfterRun(Boot(s, env).state.fs.value, file, password, engine)
    ensures var t := Boot(s, env).state;
      var r := DecryptStep(s, file, password, env, engine);
      && r.state.stdoutStderr == t.stdoutStderr + Printed(t.fs.value, file, password, engine)
      && r.events == [Progress(0.0), Progress(10.0), Progress(20.0), Progress(30.0), Progress(80.0),
                      FailureEvent(Classify(r.state.stdoutStderr, password))]
      && r.state.fs.Some? && InputPath in r.state.fs.value && r.state.fs.value[InputPath] == file
      && OutputPath !in r.state.fs.value
  {
  }

  /** Once the engine has printed that a file is not encrypted, every later
      failed run is reported as "The file is not encrypted", whatever the engine
      prints then, because the model's captured output only ever grows: the
      worker never clears it, and neither, by assumption, does `wasm_exec`. */
  lemma NotEncryptedSticks(s: WorkerState, file: seq<byte>, password: Option<string>, env: InitEnv, engine: Engine)
    requires Valid(s) && s.initialized
    requires Contains(s.stdoutStderr, NotEncryptedMarker)
    requires OutputPath !in AfterRun(s.fs.value, file, password, engine)
    ensures var events := DecryptStep(s, file, password, env, engine).events;
      events[|events| - 1] == Error(DecryptFailed, "The file is not encrypted")
  {
    DecryptFails(s, file, password, env, engine);
    ContainsAppendRight(s.stdoutStderr, Printed(s.fs.value, file, password, engine), NotEncryptedMarker);
  }

  /** Whatever earlier runs left in the captured output, a failed run whose own
      output says that the file is not encrypted is reported that way. */
  lemma PrintedMarkerDecides(s: WorkerState, file: seq<byte>, password: Option<string>, env: InitEnv, engine: Engine)
    requires Valid(s) && s.initialized
    requires Contains(Printed(s.fs.value, file, password, engine), NotEncryptedMarker)
    requires OutputPath !in AfterRun(s.fs.value, file, password, engine)
    ensures var events := DecryptStep(s, file, password, env, engine).events;
      events[|events| - 1] == Error(DecryptFailed, "The file is not encrypted")
  {
    DecryptFails(s, file, password, env, engine);
    ContainsAppendLeft(s.stdoutStderr, Printed(s.fs.value, file, password, engine), NotEncryptedMarker);
  }

  /** The milestones a failed run reports, and the longer list a successful run reports. */
  const FailureLadder: seq<real> := [0.0, 10.0, 20.0, 30.0, 80.0]
  const SuccessLadder: seq<real> := FailureLadder + [90.0, 100.0]

  function Reports(values: seq<real>): (r: seq<Event>)
    ensures |r| == |values| && forall k :: 0 <= k < |r| ==> r[k] == Progress(values[k])
  {
    seq(|values|, k requires 0 <= k < |values| => Progress(values[k]))
  }

  /** Progress reports that never go down, followed by one terminal message. */
  lemma ReportsThenTerminal(values: seq<real>, last: Event)
    requires NonDecreasing(values) && Within(values, 0.0, 100.0)
    requires IsTerminal(last)
    ensures var events := Reports(values) + [last];
      && IsTerminal(events[|events| - 1])
      && (forall k :: 0 <= k < |events| - 1 ==> !IsTerminal(events[k]))
      && NonDecreasing(ProgressValues(events)) && Within(ProgressValues(events), 0.0, 100.0)
  {
    var reports := Reports(values);
    ProgressValuesAllProgress(reports);
    assert ProgressValues(reports) == values;
    ProgressValuesAppend(reports, [last]);
    assert ProgressValues([last]) == [];
    assert ProgressValues(reports + [last]) == values;
    forall k | 0 <= k < |reports| ensures !IsTerminal((reports + [last])[k]) {
      assert (reports + [last])[k] == reports[k];
    }
  }

  lemma LaddersClimb()
    ensures NonDecreasing(FailureLadder) && Within(FailureLadder, 0.0, 100.0)
    ensures NonDecreasing(SuccessLadder) && Within(SuccessLadder, 0.0, 100.0)
  {
  }

  /** Exactly one terminal message, last, after progress that never goes down. */
  ghost predicate EndsOnce(events: seq<Event>) {
    && |events| > 0 && IsTerminal(events[|events| - 1])
    && (forall k :: 0 <= k < |events| - 1 ==> !IsTerminal(events[k]))
    && NonDecreasing(ProgressValues(events)) && Within(ProgressValues(events), 0.0, 100.0)
  }

  lemma SuccessEndsOnce(s: WorkerState, file: seq<byte>, password: Option<string>, env: InitEnv, engine: Engine)
    requires Valid(s) && (s.initialized || env.goCreated)
    requires OutputPath in AfterRun(Boot(s, env).state.fs.value, file, password, engine)
    ensures EndsOnce(DecryptStep(s, file, password, env, engine).events)
  {
    var events := DecryptStep(s, file, password, env, engine).events;
    DecryptSucceeds(s, file, password, env, engine);
    LaddersClimb();
    assert events == Reports(SuccessLadder) + [events[7]];
    ReportsThenTerminal(SuccessLadder, events[7]);
  }

  lemma FailureEndsOnce(s: WorkerState, file: seq<byte>, password: Option<string>, env: InitEnv, engine: Engine)
    requires Valid(s) && (s.initialized || env.goCreated)
    requires OutputPath !in AfterRun(Boot(s, env).state.fs.value, file, password, engine)
    ensures EndsOnce(DecryptStep(s, file, password, env, engine).events)
  {
    var events := DecryptStep(s, file, password, env, engine).events;
    DecryptFails(s, file, password, env, engine);
    LaddersClimb();
    assert events == Reports(FailureLadder) + [events[5]];
    ReportsThenTerminal(FailureLadder, events[5]);
  }

  /** Whenever the runtime is available, a request posts exactly one terminal
      message, as its last, and the progress before it never goes down. The
      engine is a total function here: a `go.run` or a filesystem call that
      rejects would end the request with no terminal message. */
  lemma DecryptEndsOnce(s: WorkerState, file: seq<byte>, password: Option<string>, env: InitEnv, engine: Engine)
    requires Valid(s) && (s.initialized || env.goCreated)
    ensures var events := DecryptStep(s, file, password, env, engine).events;
      && |events| > 0 && IsTerminal(events[|events| - 1])
      && (forall k :: 0 <= k < |events| - 1 ==> !IsTerminal(events[k]))
      && NonDecreasing(ProgressValues(events)) && Within(ProgressValues(events), 0.0, 100.0)
  {
    if OutputPath in AfterRun(Boot(s, env).state.fs.value, file, password, engine) {
      SuccessEndsOnce(s, file, password, env, engine);
    } else {
      FailureEndsOnce(s, file, password, env, engine);
    }
  }

  /** Any message type other than `decrypt` is refused and changes nothing. */
  lemma OtherMessageRefused(s: WorkerState, msgType: string, file: seq<byte>, password: Option<string>,
                            env: InitEnv, engine: Engine)
    requires msgType != "decrypt"
    ensures OnMessageStep(s, msgType, file, password, env, engine) == Step(s, [InvalidMessageType])
  {
  }
}
