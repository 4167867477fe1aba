/** main: the six stages chained as promises, each receiving what the previous one
    resolved with, and a single catch that logs the first rejection. */
module Pipeline {
  import opened Common
  import opened Meta
  import opened Download
  import opened Caption

  /** The macOS lock-screen image that the last stage overwrites. */
  const LockScreenPath: string := "/Library/Caches/com.apple.desktop.admin.png"

  /** A JavaScript value passed between stages: null or undefined, a parsed
      document, an image record, or a string (falsy when empty). */
  datatype Value = Nothing | Json(doc: Doc) | Rec(rec: ImageRecord) | Str(s: string)

  datatype Stage = FetchStage | AdaptStage | DownloadStage | CaptionStage | DesktopStage | LoginStage

  /** get_bing_json, adapt_image_meta, download_image, add_description_to_image,
      set_desktop_background, set_login_screen_background, in chain order. */
  const MainStages: seq<Stage> :=
    [FetchStage, AdaptStage, DownloadStage, CaptionStage, DesktopStage, LoginStage]

  /** What the run observably does: a stage ran on an input and settled, or
      handle_error logged an error. */
  datatype Event = Ran(stage: Stage, input: Value, result: Settlement<Value>) | HandleError(error: Error)

  /** How the chain ends: the last stage resolved, handle_error ran on the first
      rejection, or some stage never settled so neither happened. */
  datatype Outcome = Completed(value: Value) | Handled(error: Error) | Stalled

  datatype Run = Run(files: Files, trace: seq<Event>, outcome: Outcome)

  /** What Jimp does, as parameters: whether the font loads, whether the image
      decodes, the measured caption width, the printed and re-encoded image, and
      whether writing it back succeeds. Measuring and printing read the caption's
      characters, so they need a copyright string. */
  datatype CaptionEnv = CaptionEnv(
    fontLoads: bool,
    decodes: bool,
    width: int,
    printText: (seq<byte>, Coords, string) -> seq<byte>,
    writeOk: bool)

  /** Everything outside the program: the user name, the settled metadata request,
      whether the new image file can be opened for writing, the image response,
      Jimp, whether osascript succeeds, whether the copy to the privileged
      lock-screen path is permitted. */
  datatype Env = Env(
    user: string,
    fetched: Settlement<Value>,
    createOk: bool,
    response: Response,
    caption: CaptionEnv,
    desktopOk: bool,
    copyOk: bool)

  /** The chain as written, or with its two defects corrected (see Stall and
      LoginArgument). */
  datatype Wiring = AsWritten | Corrected

  /** Whether a value is falsy: null, undefined, or the empty string. */
  predicate Falsy(v: Value) {
    v.Nothing? || v == Str("")
  }

  /** The document adapt_image_meta reads from a value: a falsy value is none, and
      a truthy value that is not a document has no `images`. */
  function AsDoc(v: Value): Option<Doc> {
    if Falsy(v) then None
    else if v.Json? then Some(v.doc)
    else Some(Doc(None))
  }

  /** A synchronous throw inside a `then` handler rejects the chain. */
  function AdaptStep(user: string, v: Value): Settlement<Value> {
    match AdaptImageMeta(user, AsDoc(v))
    case Ok(rec) => Resolved(Rec(rec))
    case Err(e) => Rejected(e)
  }

  /** What running one stage leaves: the filesystem, and how the stage settled. */
  datatype Stepped = Stepped(files: Files, settled: Settlement<Value>)

  function Lift(d: (Files, Settlement<ImageRecord>)): Stepped {
    match d.1
    case Resolved(rec) => Stepped(d.0, Resolved(Rec(rec)))
    case Rejected(e) => Stepped(d.0, Rejected(e))
    case Unsettled => Stepped(d.0, Unsettled)
  }

  /** download_image on a value: a falsy value is no record; a truthy value that
      is no record has no physical path, and createWriteStream(undefined) throws a
      TypeError. */
  function DownloadStep(files: Files, v: Value, opens: bool, response: Response): Stepped {
    if Falsy(v) then Lift(DownloadSpec(files, None, opens, response))
    else if v.Rec? then Lift(DownloadSpec(files, Some(v.rec), opens, response))
    else Stepped(files, Rejected(TypeError))
  }

  /** A font that does not load, or an image that cannot be read, rejects a promise
      that has no handler: as written the stage never settles; corrected, it
      rejects. */
  function Stall(w: Wiring): Settlement<Value> {
    match w
    case AsWritten => Unsettled
    case Corrected => Rejected(RenderError)
  }

  /** add_description_to_image: print the copyright at the caption position and
      write the image back to its physical path. A record without a copyright makes
      measureText throw inside the unhandled inner handler, which stalls like a
      decode failure. */
  function CaptionStep(files: Files, v: Value, c: CaptionEnv, w: Wiring): Stepped {
    if !c.fontLoads then Stepped(files, Stall(w))
    else if !(v.Rec? && v.rec.physicalPath in files && c.decodes) then Stepped(files, Stall(w))
    else if v.rec.copyright.None? then Stepped(files, Stall(w))
    else if !c.writeOk then Stepped(files, Rejected(RenderError))
    else
      var p := v.rec.physicalPath;
      Stepped(files[p := c.printText(files[p], CaptionPosition(c.width), v.rec.copyright.value)], Resolved(v))
  }

  /** set_desktop_background: reading the path of null or undefined throws; otherwise
      the osascript exit status decides, and the stage resolves with its input. */
  function DesktopStep(v: Value, ok: bool): Settlement<Value> {
    if v.Nothing? then Rejected(TypeError)
    else if ok then Resolved(v)
    else Rejected(ExternalToolError)
  }

  /** What set_login_screen_background receives: as written, the record that
      set_desktop_background resolved with; corrected, its physical path. */
  function LoginArgument(v: Value, w: Wiring): Value {
    if w == Corrected && v.Rec? then Str(v.rec.physicalPath) else v
  }

  /** set_login_screen_background: fs.copyFile throws a TypeError for a source that
      is not a string, and fails for a missing source or a refused copy. */
  function LoginStep(files: Files, file: Value, copyOk: bool): Stepped {
    match file
    case Str(p) =>
      if p in files && copyOk then Stepped(files[LockScreenPath := files[p]], Resolved(file))
      else Stepped(files, Rejected(FilesystemError))
    case _ => Stepped(files, Rejected(TypeError))
  }

  function Step(stage: Stage, files: Files, v: Value, env: Env, w: Wiring): Stepped {
    match stage
    case FetchStage => Stepped(files, env.fetched)
    case AdaptStage => Stepped(files, AdaptStep(env.user, v))
    case DownloadStage => DownloadStep(files, v, env.createOk, env.response)
    case CaptionStage => CaptionStep(files, v, env.caption, w)
    case DesktopStage => Stepped(files, DesktopStep(v, env.desktopOk))
    case LoginStage => LoginStep(files, LoginArgument(v, w), env.copyOk)
  }

  /** A stage runner: what a stage does to the filesystem and how it settles on
      an input. */
  type StepFn = (Stage, Files, Value) -> Stepped

  /** The promise chain `s0.then(s1)...then(sn).catch(handle_error)` started on
      `input`: a resolved stage hands its value to the next one, the first
      rejection skips the rest and goes to handle_error, and a stage that never
      settles ends the run with neither. */
  function Chain(step: StepFn, stages: seq<Stage>, files: Files, input: Value): Run
    decreases |stages|
  {
    if stages == [] then Run(files, [], Completed(input))
    else
      var r := step(stages[0], files, input);
      var ran := Ran(stages[0], input, r.settled);
      match r.settled
      case Resolved(v) =>
        var rest := Chain(step, stages[1..], r.files, v);
        Run(rest.files, [ran] + rest.trace, rest.outcome)
      case Rejected(e) => Run(r.files, [ran, HandleError(e)], Handled(e))
      case Unsettled => Run(r.files, [ran], Stalled)
  }

  /** The stages of main in the environment `env`. */
  function MainStep(env: Env, w: Wiring): StepFn {
    (stage, files, v) => Step(stage, files, v, env, w)
  }

  /** main. */
  function RunMain(env: Env, files: Files, w: Wiring): Run {
    Chain(MainStep(env, w), MainStages, files, Nothing)
  }

  /** Stages run in chain order: the i-th stage event is the i-th stage, the first
      gets the chain's input and each later one gets what its predecessor resolved
      with. */
  lemma {:induction false} ChainOrder(step: StepFn, stages: seq<Stage>, files: Files, input: Value)
    ensures var t := Chain(step, stages, files, input).trace;
      (forall i :: 0 <= i < |t| && t[i].Ran? ==> i < |stages| && t[i].stage == stages[i])
      && (|t| > 0 ==> t[0].Ran? && t[0].input == input)
      && (forall i :: 0 < i < |t| && t[i].Ran? ==> t[i - 1].Ran? && t[i - 1].result.Resolved?
                                                   && t[i].input == t[i - 1].result.value)
    decreases |stages|
  {
    if stages != [] {
      var r := step(stages[0], files, input);
      var after, s := r.files, r.settled;
      if s.Resolved? {
        ChainOrder(step, stages[1..], after, s.value);
      }
    }
  }

  /** handle_error runs at most once, as the last event, and logs the error that
      the stage just before it rejected with. */
  predicate HandlerOnlyLast(t: seq<Event>) {
    (forall i :: 0 <= i < |t| - 1 ==> t[i].Ran?)
    && (forall i :: 0 < i < |t| && t[i].HandleError? ==> t[i - 1].Ran? && t[i - 1].result == Rejected(t[i].error))
  }

  /** handle_error runs, and runs last, exactly when the run is handled; it then
      logs the error that the stage just before it rejected with. */
  predicate HandledLast(run: Run) {
    var t := run.trace;
    (run.outcome.Handled? <==> |t| >= 2 && t[|t| - 1].HandleError?)
    && (run.outcome.Handled? ==>
          |t| >= 2 && t[|t| - 1] == HandleError(run.outcome.error)
          && t[|t| - 2].Ran? && t[|t| - 2].result == Rejected(run.outcome.error))
  }

  /** A run stalls exactly when its last event is a stage that never settled. */
  predicate StalledLast(run: Run) {
    var t := run.trace;
    run.outcome.Stalled? <==> |t| >= 1 && t[|t| - 1].Ran? && t[|t| - 1].result.Unsettled?
  }

  /** Fail fast: handle_error runs once, at the end, on the error of the stage
      that rejected (ChainOrder adds that a stage runs only after its predecessor
      resolved); a run that stalls never reaches handle_error. */
  lemma {:induction false} ChainFailFast(step: StepFn, stages: seq<Stage>, files: Files, input: Value)
    ensures HandlerOnlyLast(Chain(step, stages, files, input).trace)
    ensures HandledLast(Chain(step, stages, files, input))
    ensures StalledLast(Chain(step, stages, files, input))
    decreases |stages|
  {
    if stages != [] {
      var r := step(stages[0], files, input);
      var after, s := r.files, r.settled;
      if s.Resolved? {
        var rest := Chain(step, stages[1..], after, s.value);
        var t := Chain(step, stages, files, input).trace;
        ChainFailFast(step, stages[1..], after, s.value);
        assert t == [Ran(stages[0], input, s)] + rest.trace;
        assert forall i :: 0 < i < |t| ==> t[i] == rest.trace[i - 1];
      }
    }
  }

  /** Every event is a stage that ran and resolved. */
  predicate AllResolved(t: seq<Event>) {
    forall i :: 0 <= i < |t| ==> t[i].Ran? && t[i].result.Resolved?
  }

  /** The chain completes exactly when every stage ran and resolved, and it then
      yields what the last stage resolved with. */
  lemma {:induction false} ChainCompletes(step: StepFn, stages: seq<Stage>, files: Files, input: Value)
    ensures Chain(step, stages, files, input).outcome.Completed?
      <==> |Chain(step, stages, files, input).trace| == |stages|
           && AllResolved(Chain(step, stages, files, input).trace)
    ensures var run := Chain(step, stages, files, input);
      run.outcome.Completed? ==>
        run.outcome.value == if run.trace == [] then input else run.trace[|run.trace| - 1].result.value
    decreases |stages|
  {
    if stages != [] {
      var r := step(stages[0], files, input);
      var after, s := r.files, r.settled;
      if s.Resolved? {
        var rest := Chain(step, stages[1..], after, s.value);
        var t := Chain(step, stages, files, input).trace;
        ChainCompletes(step, stages[1..], after, s.value);
        assert t == [Ran(stages[0], input, s)] + rest.trace;
        assert forall j :: 0 <= j < |rest.trace| ==> rest.trace[j] == t[j + 1];
        assert AllResolved(t) <==> AllResolved(rest.trace);
      } else {
        var t := Chain(step, stages, files, input).trace;
        assert !t[0].result.Resolved?;
      }
    }
  }

  /** The environment in which every stage after the download succeeds. */
  predicate LaterStagesSucceed(env: Env) {
    env.caption.fontLoads && env.caption.decodes && env.caption.writeOk
    && env.desktopOk && env.copyOk
  }

  /** The metadata arrives, adapts to `rec`, and the body of a new file arrives. */
  predicate DownloadSucceeds(env: Env, files: Files, v: Value, rec: ImageRecord, chunks: seq<seq<byte>>) {
    env.fetched == Resolved(v)
    && AdaptImageMeta(env.user, AsDoc(v)) == Ok(rec)
    && rec.physicalPath !in files
    && env.createOk
    && env.response == Delivered(chunks)
  }

  /** The stages that follow each stage of main. */
  const FromAdapt: seq<Stage> := [AdaptStage, DownloadStage, CaptionStage, DesktopStage, LoginStage]
  const FromDownload: seq<Stage> := [DownloadStage, CaptionStage, DesktopStage, LoginStage]
  const FromCaption: seq<Stage> := [CaptionStage, DesktopStage, LoginStage]
  const FromDesktop: seq<Stage> := [DesktopStage, LoginStage]
  const FromLogin: seq<Stage> := [LoginStage]

  lemma MainStagesTails()
    ensures MainStages[0] == FetchStage && MainStages[1..] == FromAdapt
    ensures FromAdapt[0] == AdaptStage && FromAdapt[1..] == FromDownload
    ensures FromDownload[0] == DownloadStage && FromDownload[1..] == FromCaption
    ensures FromCaption[0] == CaptionStage && FromCaption[1..] == FromDesktop
    ensures FromDesktop[0] == DesktopStage && FromDesktop[1..] == FromLogin
    ensures FromLogin[0] == LoginStage && FromLogin[1..] == []
  {
  }

  /** Running the first stage of a chain: a stage that resolves hands its value
      and the filesystem to the rest of the chain; a rejection goes straight to
      handle_error; a stage that never settles ends the run. */
  lemma ChainCons(step: StepFn, stages: seq<Stage>, files: Files, input: Value)
    requires stages != []
    ensures var r := step(stages[0], files, input);
      var after, s := r.files, r.settled;
      var run := Chain(step, stages, files, input);
      match s
      case Resolved(v) =>
        var rest := Chain(step, stages[1..], after, v);
        run == Run(rest.files, [Ran(stages[0], input, s)] + rest.trace, rest.outcome)
      case Rejected(e) => run == Run(after, [Ran(stages[0], input, s), HandleError(e)], Handled(e))
      case Unsettled => run == Run(after, [Ran(stages[0], input, s)], Stalled)
  {
  }

  /** A stage that does not resolve ends the run without completing it. */
  lemma ChainHead(step: StepFn, stages: seq<Stage>, files: Files, input: Value)
    requires stages != []
    ensures var r := step(stages[0], files, input);
      var after, s := r.files, r.settled;
      if s.Resolved? then Chain(step, stages, files, input).outcome == Chain(step, stages[1..], after, s.value).outcome
      else !Chain(step, stages, files, input).outcome.Completed?
  {
    ChainCons(step, stages, files, input);
  }

  /** The stage where no later chain can complete: no chain containing it can. */
  lemma {:induction false} ChainStuckFrom(step: StepFn, stages: seq<Stage>, k: nat, files: Files, input: Value)
    requires k <= |stages|
    requires forall f, x :: !Chain(step, stages[k..], f, x).outcome.Completed?
    ensures !Chain(step, stages, files, input).outcome.Completed?
    decreases k
  {
    if k == 0 {
      assert stages[0..] == stages;
      assert !Chain(step, stages[0..], files, input).outcome.Completed?;
    } else {
      var r := step(stages[0], files, input);
      ChainHead(step, stages, files, input);
      if r.settled.Resolved? {
        assert forall f, x :: Chain(step, stages[1..][k - 1..], f, x) == Chain(step, stages[k..], f, x) by {
          assert stages[1..][k - 1..] == stages[k..];
        }
        ChainStuckFrom(step, stages[1..], k - 1, r.files, r.settled.value);
      }
    }
  }

  /** Three stages that resolve in turn hand the third one's value and filesystem
      to the rest of the chain. */
  lemma ThreeResolve(step: StepFn, stages: seq<Stage>, f0: Files, f1: Files, f2: Files, f3: Files,
                     v0: Value, v1: Value, v2: Value, v3: Value)
    requires |stages| >= 3
    requires step(stages[0], f0, v0) == Stepped(f1, Resolved(v1))
    requires step(stages[1], f1, v1) == Stepped(f2, Resolved(v2))
    requires step(stages[2], f2, v2) == Stepped(f3, Resolved(v3))
    ensures var rest := Chain(step, stages[3..], f3, v3);
      Chain(step, stages, f0, v0) == Run(rest.files,
        [Ran(stages[0], v0, Resolved(v1)), Ran(stages[1], v1, Resolved(v2)), Ran(stages[2], v2, Resolved(v3))]
        + rest.trace,
        rest.outcome)
  {
    var rest := Chain(step, stages[3..], f3, v3);
    assert step(stages[1..][0], f1, v1) == Stepped(f2, Resolved(v2));
    assert step(stages[2..][0], f2, v2) == Stepped(f3, Resolved(v3));
    ChainCons(step, stages, f0, v0);
    ChainCons(step, stages[1..], f1, v1);
    assert stages[1..][1..] == stages[2..] && stages[2..][1..] == stages[3..];
    ChainCons(step, stages[2..], f2, v2);
    assert [Ran(stages[0], v0, Resolved(v1))]
           + ([Ran(stages[1], v1, Resolved(v2))] + ([Ran(stages[2], v2, Resolved(v3))] + rest.trace))
        == [Ran(stages[0], v0, Resolved(v1)), Ran(stages[1], v1, Resolved(v2)), Ran(stages[2], v2, Resolved(v3))]
           + rest.trace;
  }

  /** Three stages that resolve in turn, and nothing after them: the run completes
      with the third one's value. */
  lemma ThreeComplete(step: StepFn, stages: seq<Stage>, f0: Files, f1: Files, f2: Files, f3: Files,
                      v0: Value, v1: Value, v2: Value, v3: Value)
    requires |stages| == 3
    requires step(stages[0], f0, v0) == Stepped(f1, Resolved(v1))
    requires step(stages[1], f1, v1) == Stepped(f2, Resolved(v2))
    requires step(stages[2], f2, v2) == Stepped(f3, Resolved(v3))
    ensures Chain(step, stages, f0, v0) == Run(f3,
        [Ran(stages[0], v0, Resolved(v1)), Ran(stages[1], v1, Resolved(v2)), Ran(stages[2], v2, Resolved(v3))],
        Completed(v3))
  {
    ThreeResolve(step, stages, f0, f1, f2, f3, v0, v1, v2, v3);
    assert stages[3..] == [];
  }

  /** A stage that does not resolve: a rejection goes to handle_error, a stage
      that never settles ends the run there. */
  lemma Stops(step: StepFn, stages: seq<Stage>, files: Files, input: Value, s: Settlement<Value>)
    requires stages != []
    requires step(stages[0], files, input) == Stepped(files, s)
    ensures s.Rejected? ==>
      Chain(step, stages, files, input) == Run(files, [Ran(stages[0], input, s), HandleError(s.error)], Handled(s.error))
    ensures s.Unsettled? ==>
      Chain(step, stages, files, input) == Run(files, [Ran(stages[0], input, s)], Stalled)
  {
  }

  /** main's chain, whatever its stages do, when every stage resolves: the fetch
      and the adapter leave the filesystem alone, the later stages pass the record
      along, and the login stage's value is the run's. */
  lemma MainChainCompletes(step: StepFn, f0: Files, f3: Files, f4: Files, f6: Files, v: Value, x: Value, out: Value)
    requires step(FetchStage, f0, Nothing) == Stepped(f0, Resolved(v))
    requires step(AdaptStage, f0, v) == Stepped(f0, Resolved(x))
    requires step(DownloadStage, f0, x) == Stepped(f3, Resolved(x))
    requires step(CaptionStage, f3, x) == Stepped(f4, Resolved(x))
    requires step(DesktopStage, f4, x) == Stepped(f4, Resolved(x))
    requires step(LoginStage, f4, x) == Stepped(f6, Resolved(out))
    ensures Chain(step, MainStages, f0, Nothing) == Run(f6,
      [Ran(FetchStage, Nothing, Resolved(v)), Ran(AdaptStage, v, Resolved(x)),
       Ran(DownloadStage, x, Resolved(x)), Ran(CaptionStage, x, Resolved(x)),
       Ran(DesktopStage, x, Resolved(x)), Ran(LoginStage, x, Resolved(out))],
      Completed(out))
  {
    MainStagesTails();
    ThreeResolve(step, MainStages, f0, f0, f0, f3, Nothing, v, x, x);
    assert MainStages[3..] == FromCaption;
    ThreeComplete(step, FromCaption, f3, f4, f4, f6, x, x, x, out);
  }

  /** main's chain, whatever its stages do, when the first three resolve and the
      caption stage does not. */
  lemma MainChainStopsAtCaption(step: StepFn, f0: Files, f3: Files, v: Value, x: Value, s: Settlement<Value>)
    requires step(FetchStage, f0, Nothing) == Stepped(f0, Resolved(v))
    requires step(AdaptStage, f0, v) == Stepped(f0, Resolved(x))
    requires step(DownloadStage, f0, x) == Stepped(f3, Resolved(x))
    requires step(CaptionStage, f3, x) == Stepped(f3, s)
    ensures var head := [Ran(FetchStage, Nothing, Resolved(v)), Ran(AdaptStage, v, Resolved(x)),
                         Ran(DownloadStage, x, Resolved(x)), Ran(CaptionStage, x, s)];
      (s.Rejected? ==> Chain(step, MainStages, f0, Nothing) == Run(f3, head + [HandleError(s.error)], Handled(s.error)))
      && (s.Unsettled? ==> Chain(step, MainStages, f0, Nothing) == Run(f3, head, Stalled))
  {
    MainStagesTails();
    ThreeResolve(step, MainStages, f0, f0, f0, f3, Nothing, v, x, x);
    assert MainStages[3..] == FromCaption;
    Stops(step, FromCaption, f3, x, s);
    var first := [Ran(FetchStage, Nothing, Resolved(v)), Ran(AdaptStage, v, Resolved(x)), Ran(DownloadStage, x, Resolved(x))];
    if s.Rejected? {
      assert first + [Ran(CaptionStage, x, s), HandleError(s.error)] == first + [Ran(CaptionStage, x, s)] + [HandleError(s.error)];
    }
  }

  /** main's chain, whatever its stages do, when the fetch and the adapter resolve
      and the download stage never settles: the run ends there. */
  lemma MainChainStopsAtDownload(step: StepFn, f0: Files, v: Value, x: Value)
    requires step(FetchStage, f0, Nothing) == Stepped(f0, Resolved(v))
    requires step(AdaptStage, f0, v) == Stepped(f0, Resolved(x))
    requires step(DownloadStage, f0, x) == Stepped(f0, Unsettled)
    ensures Chain(step, MainStages, f0, Nothing) == Run(f0,
      [Ran(FetchStage, Nothing, Resolved(v)), Ran(AdaptStage, v, Resolved(x)), Ran(DownloadStage, x, Unsettled)],
      Stalled)
  {
    MainStagesTails();
    ChainCons(step, MainStages, f0, Nothing);
    ChainCons(step, FromAdapt, f0, v);
    ChainCons(step, FromDownload, f0, x);
  }

  lemma FetchResolves(env: Env, files: Files, v: Value, w: Wiring)
    requires env.fetched == Resolved(v)
    ensures MainStep(env, w)(FetchStage, files, Nothing) == Stepped(files, Resolved(v))
  {
  }

  lemma AdaptResolves(env: Env, files: Files, v: Value, rec: ImageRecord, w: Wiring)
    requires AdaptImageMeta(env.user, AsDoc(v)) == Ok(rec)
    ensures MainStep(env, w)(AdaptStage, files, v) == Stepped(files, Resolved(Rec(rec)))
  {
  }

  lemma DownloadResolves(env: Env, files: Files, rec: ImageRecord, chunks: seq<seq<byte>>, w: Wiring)
    requires rec.physicalPath !in files && env.createOk && env.response == Delivered(chunks)
    ensures MainStep(env, w)(DownloadStage, files, Rec(rec))
         == Stepped(files[rec.physicalPath := Concat(chunks)], Resolved(Rec(rec)))
  {
  }

  lemma DownloadStalls(env: Env, files: Files, rec: ImageRecord, w: Wiring)
    requires rec.physicalPath !in files && !env.createOk
    ensures MainStep(env, w)(DownloadStage, files, Rec(rec)) == Stepped(files, Unsettled)
  {
  }

  lemma CaptionResolves(env: Env, files: Files, rec: ImageRecord, w: Wiring)
    requires rec.physicalPath in files && rec.copyright.Some? && LaterStagesSucceed(env)
    ensures var p := rec.physicalPath;
      var image := env.caption.printText(files[p], CaptionPosition(env.caption.width), rec.copyright.value);
      MainStep(env, w)(CaptionStage, files, Rec(rec)) == Stepped(files[p := image], Resolved(Rec(rec)))
  {
  }

  lemma CaptionStalls(env: Env, files: Files, rec: ImageRecord, w: Wiring)
    requires !env.caption.fontLoads || !env.caption.decodes || rec.copyright.None?
    ensures MainStep(env, w)(CaptionStage, files, Rec(rec)) == Stepped(files, Stall(w))
  {
  }

  lemma DesktopResolves(env: Env, files: Files, x: Value, w: Wiring)
    requires !x.Nothing? && env.desktopOk
    ensures MainStep(env, w)(DesktopStage, files, x) == Stepped(files, Resolved(x))
  {
  }

  lemma LoginCopies(env: Env, files: Files, rec: ImageRecord)
    requires rec.physicalPath in files && env.copyOk
    ensures MainStep(env, Corrected)(LoginStage, files, Rec(rec))
         == Stepped(files[LockScreenPath := files[rec.physicalPath]], Resolved(Str(rec.physicalPath)))
  {
  }

  /** The corrected main, when the metadata arrives, the destination is new and
      every stage succeeds: the six stages run once each, in order, each on what
      the previous one resolved with; the wallpaper holds the body with the caption
      printed at the caption position, and the lock screen holds a copy of it. */
  lemma MainCompletes(env: Env, files: Files, v: Value, rec: ImageRecord, chunks: seq<seq<byte>>)
    requires DownloadSucceeds(env, files, v, rec, chunks)
    requires rec.copyright.Some?
    requires LaterStagesSucceed(env)
    ensures var run := RunMain(env, files, Corrected);
      var image := env.caption.printText(Concat(chunks), CaptionPosition(env.caption.width), rec.copyright.value);
      run.outcome == Completed(Str(rec.physicalPath))
      && run.trace == [
           Ran(FetchStage, Nothing, Resolved(v)),
           Ran(AdaptStage, v, Resolved(Rec(rec))),
           Ran(DownloadStage, Rec(rec), Resolved(Rec(rec))),
           Ran(CaptionStage, Rec(rec), Resolved(Rec(rec))),
           Ran(DesktopStage, Rec(rec), Resolved(Rec(rec))),
           Ran(LoginStage, Rec(rec), Resolved(Str(rec.physicalPath)))]
      && run.files == files[rec.physicalPath := image][LockScreenPath := image]
  {
    var p := rec.physicalPath;
    var f2 := files[p := Concat(chunks)];
    var image := env.caption.printText(Concat(chunks), CaptionPosition(env.caption.width), rec.copyright.value);
    var f3 := files[p := image];
    assert f2[p] == Concat(chunks) && f2[p := image] == f3;
    FetchResolves(env, files, v, Corrected);
    AdaptResolves(env, files, v, rec, Corrected);
    DownloadResolves(env, files, rec, chunks, Corrected);
    CaptionResolves(env, f2, rec, Corrected);
    DesktopResolves(env, f3, Rec(rec), Corrected);
    LoginCopies(env, f3, rec);
    assert f3[p] == image;
    MainChainCompletes(MainStep(env, Corrected), files, f2, f3, f3[LockScreenPath := image], v, Rec(rec), Str(p));
  }

  /** The fetch stage resolves only with the metadata received. */
  lemma FetchOnly(env: Env, files: Files, x: Value, w: Wiring)
    ensures MainStep(env, w)(FetchStage, files, x) == Stepped(files, env.fetched)
  {
  }

  /** The adapter stage resolves only with the record that adapt_image_meta builds. */
  lemma AdaptOnly(env: Env, files: Files, x: Value, w: Wiring)
    ensures var r := MainStep(env, w)(AdaptStage, files, x);
      r.settled.Resolved? ==>
        AdaptImageMeta(env.user, AsDoc(x)).Ok?
        && r == Stepped(files, Resolved(Rec(AdaptImageMeta(env.user, AsDoc(x)).value)))
  {
    var a := AdaptImageMeta(env.user, AsDoc(x));
    assert MainStep(env, w)(AdaptStage, files, x) == Stepped(files, AdaptStep(env.user, x));
    assert AdaptStep(env.user, x) == if a.Ok? then Resolved(Rec(a.value)) else Rejected(a.error);
  }

  /** The download stage resolves only when the destination is new and the body
      arrives, and it then resolves with its input, the body in the new file. */
  lemma DownloadOnly(env: Env, files: Files, rec: ImageRecord, w: Wiring)
    ensures var r := MainStep(env, w)(DownloadStage, files, Rec(rec));
      r.settled.Resolved? ==>
        rec.physicalPath !in files && env.createOk && env.response.Delivered?
        && r == Stepped(files[rec.physicalPath := Concat(env.response.chunks)], Resolved(Rec(rec)))
  {
  }

  /** The caption stage resolves only when Jimp succeeds on a record with a
      copyright, and then with its input. */
  lemma CaptionOnly(env: Env, files: Files, x: Value, w: Wiring)
    ensures var r := MainStep(env, w)(CaptionStage, files, x);
      r.settled.Resolved? ==>
        env.caption.fontLoads && env.caption.decodes && env.caption.writeOk
        && x.Rec? && x.rec.copyright.Some? && r.settled.value == x
  {
  }

  /** The desktop stage resolves only when osascript succeeds, and then with its input. */
  lemma DesktopOnly(env: Env, files: Files, x: Value, w: Wiring)
    ensures var r := MainStep(env, w)(DesktopStage, files, x);
      r.settled.Resolved? ==> env.desktopOk && r == Stepped(files, Resolved(x))
  {
  }

  /** The corrected login stage resolves on a record only when the copy is permitted. */
  lemma LoginOnly(env: Env, files: Files, rec: ImageRecord)
    ensures MainStep(env, Corrected)(LoginStage, files, Rec(rec)).settled.Resolved? ==> env.copyOk
  {
  }

  /** As written, the login stage always rejects a record. */
  lemma LoginRejectsRecord(env: Env, files: Files, rec: ImageRecord)
    ensures MainStep(env, AsWritten)(LoginStage, files, Rec(rec)) == Stepped(files, Rejected(TypeError))
  {
  }

  /** adapt_image_meta on a value that is not a document: a falsy one (null,
      undefined, "") fails its truthiness check, and any other one has no `images`,
      so reading `images[0]` throws a TypeError. */
  lemma AdaptRejects(user: string, v: Value)
    ensures Falsy(v) ==> AdaptStep(user, v) == Rejected(NoBingJson)
    ensures !Falsy(v) && !v.Json? ==> AdaptStep(user, v) == Rejected(TypeError)
    ensures v.Json? ==> AdaptStep(user, v).Resolved? == HasFirstImage(Some(v.doc))
  {
  }

  /** download_image on a value that is not a record: a falsy one is rejected as
      no image meta, any other one makes createWriteStream(undefined) throw; either
      way nothing is written. */
  lemma DownloadRejects(files: Files, v: Value, opens: bool, response: Response)
    ensures Falsy(v) ==> DownloadStep(files, v, opens, response) == Stepped(files, Rejected(NoImageMeta))
    ensures !Falsy(v) && !v.Rec? ==> DownloadStep(files, v, opens, response) == Stepped(files, Rejected(TypeError))
  {
  }

  /** The corrected main completes only if the metadata arrived; the rest of the
      chain then completes on it. */
  lemma FetchedIfCompletes(env: Env, files: Files)
    requires RunMain(env, files, Corrected).outcome.Completed?
    ensures env.fetched.Resolved?
    ensures Chain(MainStep(env, Corrected), FromAdapt, files, env.fetched.value).outcome.Completed?
  {
    MainStagesTails();
    FetchOnly(env, files, Nothing, Corrected);
    ChainHead(MainStep(env, Corrected), MainStages, files, Nothing);
  }

  lemma AdaptedIfCompletes(env: Env, files: Files, v: Value)
    requires Chain(MainStep(env, Corrected), FromAdapt, files, v).outcome.Completed?
    ensures AdaptImageMeta(env.user, AsDoc(v)).Ok?
    ensures Chain(MainStep(env, Corrected), FromDownload, files, Rec(AdaptImageMeta(env.user, AsDoc(v)).value))
              .outcome.Completed?
  {
    MainStagesTails();
    AdaptOnly(env, files, v, Corrected);
    ChainHead(MainStep(env, Corrected), FromAdapt, files, v);
  }

  lemma DownloadedIfCompletes(env: Env, files: Files, rec: ImageRecord)
    requires Chain(MainStep(env, Corrected), FromDownload, files, Rec(rec)).outcome.Completed?
    ensures rec.physicalPath !in files && env.createOk && env.response.Delivered?
    ensures Chain(MainStep(env, Corrected), FromCaption, files[rec.physicalPath := Concat(env.response.chunks)], Rec(rec))
              .outcome.Completed?
  {
    MainStagesTails();
    DownloadOnly(env, files, rec, Corrected);
    ChainHead(MainStep(env, Corrected), FromDownload, files, Rec(rec));
  }

  /** The last three stages of the corrected main complete only when each of them
      succeeds. */
  lemma LastThreeOnlyIf(env: Env, f2: Files, rec: ImageRecord)
    requires Chain(MainStep(env, Corrected), FromCaption, f2, Rec(rec)).outcome.Completed?
    ensures rec.copyright.Some?
    ensures LaterStagesSucceed(env)
  {
    var step := MainStep(env, Corrected);
    MainStagesTails();
    ChainHead(step, FromCaption, f2, Rec(rec));
    CaptionOnly(env, f2, Rec(rec), Corrected);
    var f3 := step(CaptionStage, f2, Rec(rec)).files;
    ChainHead(step, FromDesktop, f3, Rec(rec));
    DesktopOnly(env, f3, Rec(rec), Corrected);
    ChainHead(step, FromLogin, f3, Rec(rec));
    LoginOnly(env, f3, rec);
  }

  /** Conversely, the corrected main completes only when the metadata arrived and
      adapted to a record with a copyright, the destination was new, the body
      arrived, and every later stage succeeded. */
  lemma MainCompletesOnlyIf(env: Env, files: Files)
    requires RunMain(env, files, Corrected).outcome.Completed?
    ensures env.fetched.Resolved?
    ensures AdaptImageMeta(env.user, AsDoc(env.fetched.value)).Ok?
    ensures AdaptImageMeta(env.user, AsDoc(env.fetched.value)).value.physicalPath !in files
    ensures env.createOk
    ensures env.response.Delivered?
    ensures AdaptImageMeta(env.user, AsDoc(env.fetched.value)).value.copyright.Some?
    ensures LaterStagesSucceed(env)
  {
    FetchedIfCompletes(env, files);
    var v := env.fetched.value;
    AdaptedIfCompletes(env, files, v);
    var rec := AdaptImageMeta(env.user, AsDoc(v)).value;
    DownloadedIfCompletes(env, files, rec);
    LastThreeOnlyIf(env, files[rec.physicalPath := Concat(env.response.chunks)], rec);
  }

  /** As written, the chain from the caption stage on never completes: the stages
      before set_login_screen_background pass the record along, and fs.copyFile
      throws a TypeError on a source that is a record rather than a path. */
  lemma AsWrittenFromCaption(files: Files, x: Value, env: Env)
    ensures !Chain(MainStep(env, AsWritten), FromCaption, files, x).outcome.Completed?
  {
    var step := MainStep(env, AsWritten);
    MainStagesTails();
    ChainHead(step, FromCaption, files, x);
    CaptionOnly(env, files, x, AsWritten);
    var r3 := step(CaptionStage, files, x);
    if r3.settled.Resolved? {
      ChainHead(step, FromDesktop, r3.files, x);
      DesktopOnly(env, r3.files, x, AsWritten);
      ChainHead(step, FromLogin, r3.files, x);
      LoginRejectsRecord(env, r3.files, x.rec);
    }
  }

  /** main as written never completes, whatever the network, Jimp, osascript and
      the filesystem do: set_login_screen_background is always handed the record. */
  lemma MainAsWrittenNeverCompletes(env: Env, files: Files)
    ensures !RunMain(env, files, AsWritten).outcome.Completed?
  {
    MainStagesTails();
    assert MainStages[3..] == FromCaption;
    forall f, x
      ensures !Chain(MainStep(env, AsWritten), MainStages[3..], f, x).outcome.Completed?
    {
      AsWrittenFromCaption(f, x, env);
    }
    ChainStuckFrom(MainStep(env, AsWritten), MainStages, 3, files, Nothing);
  }

  /** As written, a font that does not load, an image that does not decode or a
      record without a copyright leaves main hanging: the caption stage never
      settles and handle_error never runs. */
  lemma CaptionFailureStallsAsWritten(env: Env, files: Files, v: Value, rec: ImageRecord, chunks: seq<seq<byte>>)
    requires DownloadSucceeds(env, files, v, rec, chunks)
    requires !env.caption.fontLoads || !env.caption.decodes || rec.copyright.None?
    ensures var run := RunMain(env, files, AsWritten);
      run.outcome == Stalled
      && run.trace == [
           Ran(FetchStage, Nothing, Resolved(v)),
           Ran(AdaptStage, v, Resolved(Rec(rec))),
           Ran(DownloadStage, Rec(rec), Resolved(Rec(rec))),
           Ran(CaptionStage, Rec(rec), Unsettled)]
      && run.files == files[rec.physicalPath := Concat(chunks)]
  {
    var f2 := files[rec.physicalPath := Concat(chunks)];
    FetchResolves(env, files, v, AsWritten);
    AdaptResolves(env, files, v, rec, AsWritten);
    DownloadResolves(env, files, rec, chunks, AsWritten);
    CaptionStalls(env, f2, rec, AsWritten);
    MainChainStopsAtCaption(MainStep(env, AsWritten), files, f2, v, Rec(rec), Unsettled);
  }

  /** Corrected, the same failure rejects the caption stage, and the run goes
      straight to handle_error with the render error, skipping the later stages. */
  lemma CaptionFailureRejectsCorrected(env: Env, files: Files, v: Value, rec: ImageRecord, chunks: seq<seq<byte>>)
    requires DownloadSucceeds(env, files, v, rec, chunks)
    requires !env.caption.fontLoads || !env.caption.decodes || rec.copyright.None?
    ensures var run := RunMain(env, files, Corrected);
      run.outcome == Handled(RenderError)
      && run.trace == [
           Ran(FetchStage, Nothing, Resolved(v)),
           Ran(AdaptStage, v, Resolved(Rec(rec))),
           Ran(DownloadStage, Rec(rec), Resolved(Rec(rec))),
           Ran(CaptionStage, Rec(rec), Rejected(RenderError)),
           HandleError(RenderError)]
      && run.files == files[rec.physicalPath := Concat(chunks)]
  {
    var f2 := files[rec.physicalPath := Concat(chunks)];
    FetchResolves(env, files, v, Corrected);
    AdaptResolves(env, files, v, rec, Corrected);
    DownloadResolves(env, files, rec, chunks, Corrected);
    CaptionStalls(env, f2, rec, Corrected);
    MainChainStopsAtCaption(MainStep(env, Corrected), files, f2, v, Rec(rec), Rejected(RenderError));
  }

  /** A new file that cannot be opened (the wallpaper directory is missing or not
      writable) ends the process from the stream's unhandled 'error' event: main
      stops at the download stage, writes nothing, and handle_error never runs. */
  lemma OpenFailureStalls(env: Env, files: Files, v: Value, rec: ImageRecord, w: Wiring)
    requires env.fetched == Resolved(v)
    requires AdaptImageMeta(env.user, AsDoc(v)) == Ok(rec)
    requires rec.physicalPath !in files && !env.createOk
    ensures RunMain(env, files, w) == Run(files,
      [Ran(FetchStage, Nothing, Resolved(v)),
       Ran(AdaptStage, v, Resolved(Rec(rec))),
       Ran(DownloadStage, Rec(rec), Unsettled)],
      Stalled)
  {
    FetchResolves(env, files, v, w);
    AdaptResolves(env, files, v, rec, w);
    DownloadStalls(env, files, rec, w);
    MainChainStopsAtDownload(MainStep(env, w), files, v, Rec(rec));
  }
}
