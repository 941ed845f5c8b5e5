/** The decrypt worker built on pdfcpu compiled to WebAssembly. Its module-level
    variables (the in-memory filesystem, the Go runtime bridge, the compiled
    module, the `initialized` flag) and the Go bridge's shared stdout/stderr
    capture are the fields of `Pdfcpu`; `postMessage` appends to `posted`.

    The engine itself is a parameter: given the argument vector and the
    filesystem, one run may write `/output.pdf` and prints some text, which is
    appended to the capture (the buffer lives in `wasm_exec`, which is taken to
    append and never to clear it). */
module PdfcpuWorker {
  import opened Messages
  import opened Text

  /** BrowserFS's in-memory filesystem: file contents by path. */
  type FileSystem = map<string, seq<byte>>

  /** The compiled pdfcpu module; only its identity matters here. */
  datatype WasmModule = WasmModule(id: nat)

  /** The Go runtime bridge; the argument vector is the only part the worker sets. */
  datatype GoRuntime = GoRuntime(argv: seq<string>)

  /** What the environment yields during `init`: whether the Go runtime counts
      as present at the `if (!go)` test (in JavaScript it always does), and the
      module compiled from `/pdfcpu.wasm`. */
  datatype InitEnv = InitEnv(goCreated: bool, compiled: WasmModule)

  /** One run of pdfcpu: the bytes it writes to `/output.pdf`, if any, and the
      text it prints. */
  datatype RunResult = RunResult(output: Option<seq<byte>>, printed: string)

  type Engine = (seq<string>, FileSystem) -> RunResult

  /** A snapshot of the worker's module-level state. */
  datatype WorkerState = WorkerState(
    fs: Option<FileSystem>,
    go: Option<GoRuntime>,
    pdfcpuModule: Option<WasmModule>,
    initialized: bool,
    stdoutStderr: string)

  /** A state change together with the messages posted during it. */
  datatype Step = Step(state: WorkerState, events: seq<Event>)

  const InputPath := "/input.pdf"
  const OutputPath := "/output.pdf"
  const DecryptFailed := "Failed to decrypt PDF"
  const RefreshHint := "Unknown error, you can try refreshing the page"

  const GoInitFailed := Error("Failed to initialize Go wasm runtime", RefreshHint)
  const NoFs := Error("BrowserFS is not initialized", RefreshHint)
  const NoGo := Error("Go wasm runtime is not initialized", RefreshHint)
  const NoModule := Error("pdfcpu wasm module is not initialized", RefreshHint)
  const InvalidMessageType := Error("Invalid message type", RefreshHint)

  const NotEncryptedMarker := "This file is not encrypted"
  const PasswordMarker := "Please provide the correct password"
  const JavaScriptMarker := "JavaScript error"

  /** The state when the worker starts. */
  function Initial(): WorkerState {
    WorkerState(None, None, None, false, "")
  }

  /** Once `initialized` is set, the filesystem, the runtime and the module are all present. */
  predicate Valid(s: WorkerState) {
    s.initialized ==> s.fs.Some? && s.go.Some? && s.pdfcpuModule.Some?
  }

  /** JavaScript truthiness of `password: string | null`. */
  predicate Truthy(password: Option<string>) {
    password.Some? && password.value != ""
  }

  /** The argument vector given to pdfcpu: the decrypt command on the fixed
      input and output paths, with the user password flag only for a truthy
      password. */
  function Argv(password: Option<string>): (argv: seq<string>)
    ensures |argv| >= 4 && argv[..2] == ["pdfcpu.wasm", "decrypt"]
    ensures argv[|argv| - 2..] == [InputPath, OutputPath]
    ensures Truthy(password) ==> |argv| == 6 && argv[2] == "-upw" && argv[3] == password.value
    ensures !Truthy(password) ==> |argv| == 4
  {
    if Truthy(password) then ["pdfcpu.wasm", "decrypt", "-upw", password.value, InputPath, OutputPath]
    else ["pdfcpu.wasm", "decrypt", InputPath, OutputPath]
  }

  /** The password flag appears in the argument vector exactly when the
      password is truthy, and the password follows it. */
  lemma ArgvPasswordFlag(password: Option<string>)
    ensures Truthy(password) <==> "-upw" in Argv(password)
    ensures Truthy(password) ==> Argv(password)[3] == password.value
  {
    if !Truthy(password) {
      assert Argv(password) == ["pdfcpu.wasm", "decrypt", InputPath, OutputPath];
    }
  }

  /** Why a run left no `/output.pdf`, as read from the captured text. */
  datatype Failure = NotEncrypted | WrongPassword | PasswordRequired | JavaScriptError | UnknownFailure

  /** The first marker found in the captured text decides the failure; the
      password marker is split by whether a password was given, so a wrong
      password is reported only when one was given and a missing one only when
      none was. The whole decision chain is stated by the decision-table lemma
      beside the worker's properties. */
  function Classify(diagnostics: string, password: Option<string>): (f: Failure)
    ensures f == WrongPassword ==> Truthy(password)
    ensures f == PasswordRequired ==> !Truthy(password)
  {
    if Contains(diagnostics, NotEncryptedMarker) then NotEncrypted
    else if Contains(diagnostics, PasswordMarker) then (if Truthy(password) then WrongPassword else PasswordRequired)
    else if Contains(diagnostics, JavaScriptMarker) then JavaScriptError
    else UnknownFailure
  }

  function Description(f: Failure): string {
    match f
    case NotEncrypted => "The file is not encrypted"
    case WrongPassword => "Invalid password"
    case PasswordRequired => "Password is required to decrypt this file"
    case JavaScriptError => "Unknown JavaScript error, refresh the page and try again"
    case UnknownFailure => "Unknown error, check the developer console for more information"
  }

  function FailureEvent(f: Failure): Event {
    Error(DecryptFailed, Description(f))
  }

  /** `init`: a fresh in-memory filesystem and Go runtime; when the runtime
      exists, the compiled module is stored and only then `initialized` is set;
      otherwise the failure is reported and the rest of the state is kept. */
  function InitStep(s: WorkerState, env: InitEnv): (r: Step)
    ensures r.state.fs == Some(map[]) && r.state.stdoutStderr == s.stdoutStderr
    ensures r.state.go.Some? <==> env.goCreated
    ensures env.goCreated ==> r.events == [] && r.state.initialized && r.state.pdfcpuModule == Some(env.compiled)
    ensures !env.goCreated ==>
              && r.events == [GoInitFailed]
              && r.state.initialized == s.initialized
              && r.state.pdfcpuModule == s.pdfcpuModule
  {
    var t := s.(fs := Some(map[]), go := if env.goCreated then Some(GoRuntime([])) else None);
    if !env.goCreated then Step(t, [GoInitFailed])
    else Step(t.(pdfcpuModule := Some(env.compiled), initialized := true), [])
  }

  /** The first part of `decrypt`: `init` runs only while the worker is not initialized. */
  function Boot(s: WorkerState, env: InitEnv): Step {
    if s.initialized then Step(s, []) else InitStep(s, env)
  }

  /** The filesystem after staging the input and running the engine. */
  function AfterRun(fs: FileSystem, file: seq<byte>, password: Option<string>, engine: Engine): FileSystem {
    var staged := fs[InputPath := file];
    var run := engine(Argv(password), staged);
    if run.output.Some? then staged[OutputPath := run.output.value] else staged
  }

  function Printed(fs: FileSystem, file: seq<byte>, password: Option<string>, engine: Engine): string {
    engine(Argv(password), fs[InputPath := file]).printed
  }

  /** What `decrypt` does once `init` has had its chance: the checks for a
      missing filesystem, runtime and module in that order, staging at 20 and
      30, the engine run and 80, then either the classified error or 90, 100 and
      the bytes of `/output.pdf` with both staged files removed. Whichever way
      it ends with a terminal message, keeps the module and the flag, and only
      adds to the captured text. */
  function AfterBoot(t: WorkerState, file: seq<byte>, password: Option<string>, engine: Engine): (r: Step)
    ensures t.stdoutStderr <= r.state.stdoutStderr
    ensures r.state.initialized == t.initialized && r.state.pdfcpuModule == t.pdfcpuModule
    ensures |r.events| > 0 && IsTerminal(r.events[|r.events| - 1])
  {
    if t.fs.None? then Step(t, [NoFs])
    else if t.go.None? then Step(t, [NoGo])
    else if t.pdfcpuModule.None? then Step(t, [NoModule])
    else
      var after := AfterRun(t.fs.value, file, password, engine);
      var diagnostics := t.stdoutStderr + Printed(t.fs.value, file, password, engine);
      var ran := t.(fs := Some(after), go := Some(t.go.value.(argv := Argv(password))), stdoutStderr := diagnostics);
      var staged := [Progress(20.0), Progress(30.0), Progress(80.0)];
      if OutputPath !in after then
        Step(ran, staged + [FailureEvent(Classify(diagnostics, password))])
      else
        Step(ran.(fs := Some(after - {InputPath} - {OutputPath})),
             staged + [Progress(90.0), Progress(100.0), Success(after[OutputPath])])
  }

  /** `decrypt`: progress 0, the lazy `init`, progress 10, then the rest. A
      request opens with progress 0 and ends with an error or a success; it
      never drops captured text, nor the module of an initialized worker. */
  function DecryptStep(s: WorkerState, file: seq<byte>, password: Option<string>, env: InitEnv, engine: Engine): (r: Step)
    ensures s.stdoutStderr <= r.state.stdoutStderr
    ensures |r.events| > 1 && r.events[0] == Progress(0.0) && IsTerminal(r.events[|r.events| - 1])
    ensures s.initialized ==> r.state.initialized && r.state.pdfcpuModule == s.pdfcpuModule
  {
    var boot := Boot(s, env);
    var rest := AfterBoot(boot.state, file, password, engine);
    Step(rest.state, [Progress(0.0)] + boot.events + [Progress(10.0)] + rest.events)
  }

  function OnMessageStep(s: WorkerState, msgType: string, file: seq<byte>, password: Option<string>,
                         env: InitEnv, engine: Engine): Step {
    if msgType == "decrypt" then DecryptStep(s, file, password, env, engine)
    else Step(s, [InvalidMessageType])
  }

  /** The worker: its module-level variables and the messages it has posted. */
  class Pdfcpu {
    var fs: Option<FileSystem>
    var go: Option<GoRuntime>
    var pdfcpuModule: Option<WasmModule>
    var initialized: bool
    var stdoutStderr: string
    var posted: seq<Event>

    function State(): WorkerState
      reads this
    {
      WorkerState(fs, go, pdfcpuModule, initialized, stdoutStderr)
    }

    constructor ()
      ensures State() == Initial() && posted == []
    {
      fs, go, pdfcpuModule, initialized, stdoutStderr := None, None, None, false, "";
      posted := [];
    }

    method Init(env: InitEnv)
      requires !initialized
      modifies this
      ensures State() == InitStep(old(State()), env).state
      ensures posted == old(posted) + InitStep(old(State()), env).events
    {
      fs := Some(map[]);
      go := if env.goCreated then Some(GoRuntime([])) else None;
      if go.None? {
        posted := posted + [GoInitFailed];
        return;
      }
      pdfcpuModule := Some(env.compiled);
      initialized := true;
    }

    method Decrypt(file: seq<byte>, password: Option<string>, env: InitEnv, engine: Engine)
      modifies this
      ensures State() == DecryptStep(old(State()), file, password, env, engine).state
      ensures posted == old(posted) + DecryptStep(old(State()), file, password, env, engine).events
    {
      Begin(env);
      Run(file, password, engine);
    }

    /** The part of `decrypt` up to progress 10: `init` runs while the worker
        is not initialized. */
    method Begin(env: InitEnv)
      modifies this
      ensures State() == Boot(old(State()), env).state
      ensures posted == old(posted) + ([Progress(0.0)] + Boot(old(State()), env).events + [Progress(10.0)])
    {
      posted := posted + [Progress(0.0)];
      if !initialized {
        Init(env);
      }
      posted := posted + [Progress(10.0)];
    }

    /** The part of `decrypt` after progress 10. The engine's effects are
        computed first and the fields are assigned once per outcome. */
    method Run(file: seq<byte>, password: Option<string>, engine: Engine)
      modifies this
      ensures State() == AfterBoot(old(State()), file, password, engine).state
      ensures posted == old(posted) + AfterBoot(old(State()), file, password, engine).events
    {
      if fs.None? {
        posted := posted + [NoFs];
        return;
      }
      if go.None? {
        posted := posted + [NoGo];
        return;
      }
      if pdfcpuModule.None? {
        posted := posted + [NoModule];
        return;
      }
      Execute(file, password, engine);
    }

    /** The part of `decrypt` that runs once the filesystem, the runtime and
        the module are all present: staging, the engine run, then either the
        classified error or the output's bytes and the cleanup. */
    method Execute(file: seq<byte>, password: Option<string>, engine: Engine)
      requires fs.Some? && go.Some? && pdfcpuModule.Some?
      modifies this
      ensures State() == AfterBoot(old(State()), file, password, engine).state
      ensures posted == old(posted) + AfterBoot(old(State()), file, password, engine).events
    {
      var staged := fs.value[InputPath := file];
      var argv := Argv(password);
      var run := engine(argv, staged);
      var after := staged;
      if run.output.Some? {
        after := staged[OutputPath := run.output.value];
      }
      var diagnostics := stdoutStderr + run.printed;
      go, stdoutStderr := Some(go.value.(argv := argv)), diagnostics;
      if OutputPath !in after {
        fs := Some(after);
        posted := posted + [Progress(20.0), Progress(30.0), Progress(80.0), FailureEvent(Classify(diagnostics, password))];
        return;
      }
      var output := after[OutputPath];
      fs := Some(after - {InputPath} - {OutputPath});
      posted := posted + [Progress(20.0), Progress(30.0), Progress(80.0), Progress(90.0), Progress(100.0), Success(output)];
    }

    /** `onmessage`: a `decrypt` request runs `decrypt`; any other type is refused. */
    method OnMessage(msgType: string, file: seq<byte>, password: Option<string>, env: InitEnv, engine: Engine)
      modifies this
      ensures State() == OnMessageStep(old(State()), msgType, file, password, env, engine).state
      ensures posted == old(posted) + OnMessageStep(old(State()), msgType, file, password, env, engine).events
    {
      if msgType == "decrypt" {
        Decrypt(file, password, env, engine);
      } else {
        posted := posted + [InvalidMessageType];
      }
    }
  }
}
