/**
 * The orchestration in `Analyser`: `run` assembles the analysis class path and the target
 * map from the collected JDK dependencies, target files and libraries, `runSootAnalysis`
 * runs the two scanners on the targets that are not ignored yet, and `getTargets` filters
 * the targets and records them as ignored.
 *
 * The scanners, the data container and Soot are not modelled. The calls whose order the
 * properties below are about are `Event`s appended to the analyser's trace; the Soot set-up
 * calls before the class path is set have no event of their own. Where Soot, a scanner or
 * the rules container throws is given by an `Engine` value.
 */
module Analyser {
  import opened Wrappers

  /** The process-wide switches `run` reads. */
  datatype Flags = Flags(
    buildEnabled: bool,
    loadEnabled: bool,
    excludeJdk: bool,
    jdkOnly: bool,
    jdkProcess: bool)

  /** The status a `CompilationDeathException` carries: success, or any other status. */
  datatype DeathStatus = CompilationSucceeded | CompilationFailed

  /**
   * What Soot, a scanner or the rules container may throw: a `CompilationDeathException`,
   * any other `Exception`, or a `java.lang.Error`, which neither catch clause matches.
   */
  datatype Failure =
    | CompilationDeath(status: DeathStatus)
    | OtherException(message: string)
    | JavaError(message: string)

  /**
   * Where the analysis fails, if it does, one slot per step of `runSootAnalysis`:
   * `initSootOption`, `addBasicClasses` and the loading of basic and dynamic classes
   * (setup), `setSootClassPath`, `autoSetOptions`, the class-information scan, the
   * call-graph build and `saveStatus`.
   */
  datatype Engine = Engine(
    setupFailure: Option<Failure>,
    classPathFailure: Option<Failure>,
    optionsFailure: Option<Failure>,
    classInfoFailure: Option<Failure>,
    callGraphFailure: Option<Failure>,
    saveStatusFailure: Option<Failure>)

  /**
   * How `runSootAnalysis` ends: it returns, rethrows what it caught, throws it wrapped, or
   * lets an `Error` pass through.
   */
  datatype Outcome = Normal | Rethrown(failure: Failure) | Wrapped(failure: Failure) | Escaped(failure: Failure)

  /** A call into the data container, Soot or a scanner. */
  datatype Event =
    | CleanAll                          // dataContainer.cleanAll() is started
    | AwaitCleanup                      // the busy-wait on the clean-up future
    | SetClassPath(paths: set<string>)  // Scene.setSootClassPath
    | AutoSetOptions                    // Main.v().autoSetOptions()
    | ScanClassInfo(targets: seq<string>)
    | BuildCallGraph
    | SaveStatus                        // rulesContainer.saveStatus()
    | Count
    | SaveCsv
    | ResetSoot                         // G.reset()
    | SaveGraph                         // save(): dataContainer.save2Neo4j()

  // ---------------------------------------------------------------- the exception policy

  /**
   * The two catch clauses: a `CompilationDeathException` is swallowed only with status
   * `COMPILATION_SUCCEEDED` and rethrown otherwise; any other exception is wrapped; an
   * `Error` is caught by neither.
   */
  function Caught(f: Failure): (r: Outcome)
    ensures r.Normal? <==> f == CompilationDeath(CompilationSucceeded)
    ensures r.Rethrown? <==> f.CompilationDeath? && f.status != CompilationSucceeded
    ensures r.Wrapped? <==> f.OtherException?
    ensures r.Escaped? <==> f.JavaError?
    ensures !r.Normal? ==> r.failure == f
  {
    match f
    case CompilationDeath(s) => if s == CompilationSucceeded then Normal else Rethrown(f)
    case OtherException(_) => Wrapped(f)
    case JavaError(_) => Escaped(f)
  }

  // ---------------------------------------------------------------- getTargets

  /** The paths of the targets whose file name is not ignored. */
  function TargetPaths(targets: map<string, string>, ignored: set<string>): set<string> {
    set n | n in targets && n !in ignored :: targets[n]
  }

  /** The file names `getTargets` adds to the ignored set. */
  function NewlyIgnored(targets: map<string, string>, ignored: set<string>): (r: set<string>)
    ensures r <= targets.Keys && r !! ignored
    ensures forall n | n in targets && n !in ignored :: n in r
  {
    set n | n in targets && n !in ignored
  }

  /** `xs` lists the elements of `s`, each once, in some order. */
  ghost predicate IsListOf(xs: seq<string>, s: set<string>) {
    (forall i, j | 0 <= i < j < |xs| :: xs[i] != xs[j]) && (forall x :: x in xs <==> x in s)
  }

  /** `new ArrayList<>(set)`: the elements in the set's iteration order. */
  method ListOf(s: set<string>) returns (xs: seq<string>)
    ensures IsListOf(xs, s)
  {
    xs := [];
    var rest := s;
    while rest != {}
      invariant rest <= s
      invariant forall i, j | 0 <= i < j < |xs| :: xs[i] != xs[j]
      invariant forall x :: x in xs <==> x in s && x !in rest
      decreases rest
    {
      var x :| x in rest;
      xs := xs + [x];
      rest := rest - {x};
    }
  }

  /**
   * The `forEach` of `getTargets`: the paths of the targets that are not ignored, and their
   * file names, in the map's iteration order.
   */
  method FilterTargets(targets: map<string, string>, ignored: set<string>)
    returns (stuff: set<string>, newIgnore: seq<string>)
    ensures stuff == TargetPaths(targets, ignored)
    ensures forall n :: n in newIgnore <==> n in NewlyIgnored(targets, ignored)
  {
    stuff := {};
    newIgnore := [];
    var rest := targets.Keys;
    while rest != {}
      invariant rest <= targets.Keys
      invariant stuff == TargetPaths(targets - rest, ignored)
      invariant forall n :: n in newIgnore <==> n in targets && n !in rest && n !in ignored
      decreases rest
    {
      var filename :| filename in rest;
      ghost var seen := targets - rest;
      if filename !in ignored {
        stuff := stuff + {targets[filename]};
        newIgnore := newIgnore + [filename];
      }
      rest := rest - {filename};
      assert targets - rest == seen[filename := targets[filename]];
    }
    assert targets - rest == targets;
  }

  /** A second `getTargets` over the same map finds nothing left to analyse. */
  lemma GetTargetsSecondRunIsEmpty(targets: map<string, string>, ignored: set<string>)
    ensures TargetPaths(targets, ignored + NewlyIgnored(targets, ignored)) == {}
    ensures NewlyIgnored(targets, ignored + NewlyIgnored(targets, ignored)) == {}
  {
  }

  /** Ignoring more names never adds a target. */
  lemma TargetPathsAntitone(targets: map<string, string>, i1: set<string>, i2: set<string>)
    requires i1 <= i2
    ensures TargetPaths(targets, i2) <= TargetPaths(targets, i1)
  {
  }

  // ---------------------------------------------------------------- assembling the inputs

  /** `cps.putIfAbsent(k, v)` for every library entry: existing entries are never replaced. */
  function PutAbsent(m: map<string, string>, libs: map<string, string>): (r: map<string, string>)
    ensures r.Keys == m.Keys + libs.Keys
    ensures forall k | k in m :: r[k] == m[k]
    ensures forall k | k in libs && k !in m :: r[k] == libs[k]
  {
    map k | k in m.Keys + libs.Keys :: if k in m then m[k] else libs[k]
  }

  /** The loop of `putIfAbsent` calls over the library entries. */
  method MergeLibraries(cps: map<string, string>, libs: map<string, string>) returns (r: map<string, string>)
    ensures r == PutAbsent(cps, libs)
  {
    r := cps;
    var rest := libs.Keys;
    while rest != {}
      invariant rest <= libs.Keys
      invariant r == PutAbsent(cps, libs - rest)
      decreases rest
    {
      var k :| k in rest;
      if k !in r {
        r := r[k := libs[k]];
      }
      rest := rest - {k};
    }
    assert libs - rest == libs;
  }

  /**
   * The analysis class path `run` builds: the JDK dependencies unless they are excluded,
   * then the target files (unless only the JDK is analysed), which override same-named
   * dependencies, then every library whose name is still absent.
   */
  function Classpath(flags: Flags, deps: map<string, string>, files: map<string, string>, libs: map<string, string>)
    : (r: map<string, string>)
    ensures forall k :: k in r <==>
      (k in deps && !flags.excludeJdk) || (k in files && !flags.jdkOnly) || k in libs
  {
    var cps := if flags.excludeJdk then map[] else deps;
    var withFiles := if flags.jdkOnly then cps else cps + files;
    PutAbsent(withFiles, libs)
  }

  /** Target files take priority over same-named dependencies, and both over libraries. */
  lemma ClasspathPriorities(flags: Flags, deps: map<string, string>, files: map<string, string>, libs: map<string, string>)
    ensures var r := Classpath(flags, deps, files, libs);
      && (forall k | k in files && !flags.jdkOnly :: r[k] == files[k])
      && (forall k | k in deps && !flags.excludeJdk && (k !in files || flags.jdkOnly) :: r[k] == deps[k])
      && (forall k | k in libs && (k !in deps || flags.excludeJdk) && (k !in files || flags.jdkOnly) ::
            r[k] == libs[k])
  {
  }

  /**
   * The targets `run` hands to the analysis: the target files unless only the JDK is
   * analysed, and the JDK dependencies when only the JDK is analysed or it is processed too.
   */
  function Targets(flags: Flags, deps: map<string, string>, files: map<string, string>): (r: map<string, string>)
    ensures flags.jdkOnly ==> r == deps
    ensures flags.jdkOnly || flags.jdkProcess ==> forall k | k in deps :: k in r && r[k] == deps[k]
    ensures !flags.jdkOnly && !flags.jdkProcess ==> r == files
    ensures !flags.jdkOnly ==> forall k | k in files && (k !in deps || !flags.jdkProcess) :: k in r && r[k] == files[k]
    ensures forall k :: k in r <==> (k in files && !flags.jdkOnly) || (k in deps && (flags.jdkOnly || flags.jdkProcess))
  {
    var none: map<string, string> := map[];
    var fromFiles := if flags.jdkOnly then none else none + files;
    if flags.jdkOnly || flags.jdkProcess then fromFiles + deps else fromFiles
  }

  /** The global library map after `run`: the collected library files are added when the folder exists. */
  function LibrariesAfter(libraries: map<string, string>, libFiles: Option<map<string, string>>)
    : (r: map<string, string>)
    ensures libFiles.None? ==> r == libraries
    ensures libFiles.Some? ==> r.Keys == libraries.Keys + libFiles.value.Keys
    ensures libFiles.Some? ==> forall k | k in libFiles.value :: r[k] == libFiles.value[k]
    ensures libFiles.Some? ==> forall k | k in libraries && k !in libFiles.value :: r[k] == libraries[k]
  {
    if libFiles.Some? then libraries + libFiles.value else libraries
  }

  // ---------------------------------------------------------------- the traces

  /**
   * The calls `runSootAnalysis` makes, given the targets `getTargets` returned. A call is
   * recorded when it starts, so a failing call is the last one recorded.
   */
  function AnalysisTrace(engine: Engine, classpath: set<string>, realTargets: seq<string>): seq<Event> {
    if engine.setupFailure.Some? then []
    else if engine.classPathFailure.Some? || |realTargets| == 0 then [SetClassPath(classpath)]
    else if engine.optionsFailure.Some? then [SetClassPath(classpath), AutoSetOptions]
    else if engine.classInfoFailure.Some? then
      [SetClassPath(classpath), AutoSetOptions, ScanClassInfo(realTargets)]
    else if engine.callGraphFailure.Some? then
      [SetClassPath(classpath), AutoSetOptions, ScanClassInfo(realTargets), BuildCallGraph]
    else [SetClassPath(classpath), AutoSetOptions, ScanClassInfo(realTargets), BuildCallGraph, SaveStatus]
  }

  /** Whether the analysis stops before `getTargets`: in the Soot setup or in `setSootClassPath`. */
  predicate StopsBeforeTargets(engine: Engine) {
    engine.setupFailure.Some? || engine.classPathFailure.Some?
  }

  /** How `runSootAnalysis` ends, given whether `getTargets` returned nothing. */
  function AnalysisOutcome(engine: Engine, noTargets: bool): Outcome {
    if engine.setupFailure.Some? then Caught(engine.setupFailure.value)
    else if engine.classPathFailure.Some? then Caught(engine.classPathFailure.value)
    else if noTargets then Normal
    else if engine.optionsFailure.Some? then Caught(engine.optionsFailure.value)
    else if engine.classInfoFailure.Some? then Caught(engine.classInfoFailure.value)
    else if engine.callGraphFailure.Some? then Caught(engine.callGraphFailure.value)
    else if engine.saveStatusFailure.Some? then Caught(engine.saveStatusFailure.value)
    else Normal
  }

  /**
   * Without targets neither `autoSetOptions` nor a scanner runs, and the analysis ends
   * normally once the class path is set.
   */
  lemma NoScanWithoutTargets(engine: Engine, classpath: set<string>)
    ensures forall e | e in AnalysisTrace(engine, classpath, []) ::
      !e.ScanClassInfo? && e != BuildCallGraph && e != AutoSetOptions
    ensures !StopsBeforeTargets(engine) ==> AnalysisOutcome(engine, true) == Normal
  {
  }

  /**
   * `autoSetOptions` runs right after the class path is set, the class scan on exactly the
   * targets `getTargets` returned right after it, and the call graph only after the class scan.
   */
  lemma ScannersRunOnTargets(engine: Engine, classpath: set<string>, rt: seq<string>, i: nat)
    requires i < |AnalysisTrace(engine, classpath, rt)|
    ensures var tr := AnalysisTrace(engine, classpath, rt);
      && (tr[i] == AutoSetOptions ==> i == 1 && tr[0] == SetClassPath(classpath) && |rt| > 0)
      && (tr[i].ScanClassInfo? ==>
            tr[i].targets == rt && i == 2 && tr[1] == AutoSetOptions && engine.optionsFailure.None?)
      && (tr[i] == BuildCallGraph ==> i == 3 && tr[2] == ScanClassInfo(rt) && engine.classInfoFailure.None?)
  {
  }

  /**
   * A failure the analysis does not swallow leaves the status unsaved, unless it is
   * `saveStatus` itself that fails, as the last call.
   */
  lemma FailureStopsAnalysis(engine: Engine, classpath: set<string>, rt: seq<string>)
    requires !AnalysisOutcome(engine, |rt| == 0).Normal?
    ensures var tr := AnalysisTrace(engine, classpath, rt);
      SaveStatus in tr ==> engine.saveStatusFailure.Some? && tr[|tr| - 1] == SaveStatus
  {
  }

  /**
   * A normal end that did not save the status had no targets, or swallowed a
   * `CompilationDeathException` with status `COMPILATION_SUCCEEDED` from a step before the save.
   */
  lemma NormalEndWithoutSave(engine: Engine, classpath: set<string>, rt: seq<string>)
    requires AnalysisOutcome(engine, |rt| == 0).Normal?
    requires SaveStatus !in AnalysisTrace(engine, classpath, rt)
    ensures || (|rt| == 0 && !StopsBeforeTargets(engine))
            || Some(CompilationDeath(CompilationSucceeded)) in
                 [engine.setupFailure, engine.classPathFailure, engine.optionsFailure,
                  engine.classInfoFailure, engine.callGraphFailure]
  {
  }

  /** The opening calls of `run`: the clean-up starts when loading, and is awaited at once when not building. */
  function StartTrace(flags: Flags): seq<Event> {
    if !flags.loadEnabled then []
    else if flags.buildEnabled then [CleanAll]
    else [CleanAll, AwaitCleanup]
  }

  /** How `run` ends: as the analysis does when building, normally otherwise. */
  function RunOutcome(flags: Flags, engine: Engine, realTargets: seq<string>): Outcome {
    if flags.buildEnabled then AnalysisOutcome(engine, |realTargets| == 0) else Normal
  }

  /** The calls of the build block: the analysis, then `count` and `save2CSV` if it ended normally. */
  function BuildTrace(engine: Engine, classpath: set<string>, realTargets: seq<string>): seq<Event> {
    AnalysisTrace(engine, classpath, realTargets)
      + (if AnalysisOutcome(engine, |realTargets| == 0).Normal? then [Count, SaveCsv] else [])
  }

  /** The calls `run` makes. An exception out of the analysis ends `run` there. */
  function RunTrace(flags: Flags, engine: Engine, classpath: set<string>, realTargets: seq<string>): seq<Event> {
    var ok := RunOutcome(flags, engine, realTargets).Normal?;
    var build := if flags.buildEnabled then BuildTrace(engine, classpath, realTargets) else [];
    var load := if flags.loadEnabled && ok then [ResetSoot, AwaitCleanup, SaveGraph] else [];
    StartTrace(flags) + build + load
  }

  /** Calls appended one phase at a time are the calls of the phases appended together. */
  lemma AppendAssoc(a: seq<Event>, b: seq<Event>, c: seq<Event>)
    ensures a + (b + c) == a + b + c
  {
  }

  /** `count` and `save2CSV` are called only when building, and always when building succeeds. */
  lemma CountOnlyWhenBuilding(flags: Flags, engine: Engine, cp: set<string>, rt: seq<string>)
    ensures Count in RunTrace(flags, engine, cp, rt) || SaveCsv in RunTrace(flags, engine, cp, rt) ==>
      flags.buildEnabled && RunOutcome(flags, engine, rt).Normal?
    ensures flags.buildEnabled && RunOutcome(flags, engine, rt).Normal? ==>
      Count in RunTrace(flags, engine, cp, rt) && SaveCsv in RunTrace(flags, engine, cp, rt)
  {
    var tr := RunTrace(flags, engine, cp, rt);
    if Count in tr || SaveCsv in tr {
      assert Count !in AnalysisTrace(engine, cp, rt) && SaveCsv !in AnalysisTrace(engine, cp, rt);
    }
  }

  /**
   * The graph is saved only when loading, as the last call, after the build phase and after
   * the clean-up has been awaited.
   */
  lemma SaveOnlyWhenLoadingAndLast(flags: Flags, engine: Engine, cp: set<string>, rt: seq<string>, i: nat)
    requires i < |RunTrace(flags, engine, cp, rt)| && RunTrace(flags, engine, cp, rt)[i] == SaveGraph
    ensures var tr := RunTrace(flags, engine, cp, rt);
      && flags.loadEnabled && i == |tr| - 1 && i >= 2 && tr[i - 1] == AwaitCleanup && tr[0] == CleanAll
      && (flags.buildEnabled ==> i >= 4 && tr[i - 3] == SaveCsv && tr[i - 4] == Count)
  {
    var tr := RunTrace(flags, engine, cp, rt);
    var ok := RunOutcome(flags, engine, rt).Normal?;
    var build :=
      if !flags.buildEnabled then []
      else AnalysisTrace(engine, cp, rt) + (if ok then [Count, SaveCsv] else []);
    var load := if flags.loadEnabled && ok then [ResetSoot, AwaitCleanup, SaveGraph] else [];
    assert tr == (StartTrace(flags) + build) + load;
    assert SaveGraph !in StartTrace(flags) + build;
  }

  /** When loading and the analysis does not throw, `run` ends with the save. */
  lemma LoadingEndsWithSave(flags: Flags, engine: Engine, cp: set<string>, rt: seq<string>)
    requires flags.loadEnabled && RunOutcome(flags, engine, rt).Normal?
    ensures var tr := RunTrace(flags, engine, cp, rt); |tr| > 0 && tr[|tr| - 1] == SaveGraph
  {
  }

  // ---------------------------------------------------------------- the objects

  /** The part of the rules container `getTargets` uses: the set of ignored file names. */
  class RulesContainer {
    var ignored: set<string>

    constructor(ignored0: set<string>)
      ensures ignored == ignored0
    {
      ignored := ignored0;
    }

    /** `isIgnore(filename)` */
    predicate IsIgnore(filename: string)
      reads this
    {
      filename in ignored
    }
  }

  /**
   * The analyser with the state it changes: the rules container, the global library map
   * `GlobalConfiguration.libraries`, Soot's process directory, and the trace of calls made.
   */
  class Analyser {
    const rules: RulesContainer
    var libraries: map<string, string>
    var processDir: seq<string>
    var trace: seq<Event>

    constructor(rules: RulesContainer, libraries: map<string, string>)
      ensures this.rules == rules && this.libraries == libraries
      ensures processDir == [] && trace == []
    {
      this.rules := rules;
      this.libraries := libraries;
      processDir := [];
      trace := [];
    }

    /**
     * `getTargets(targets)`: the distinct paths of the targets not ignored yet, which also
     * become Soot's process directory; their file names join the ignored set.
     */
    method GetTargets(targets: map<string, string>) returns (realTargets: seq<string>)
      modifies this, rules
      ensures rules.ignored == old(rules.ignored) + NewlyIgnored(targets, old(rules.ignored))
      ensures IsListOf(realTargets, TargetPaths(targets, old(rules.ignored)))
      ensures processDir == realTargets
      ensures libraries == old(libraries) && trace == old(trace)
    {
      var stuff, newIgnore := FilterTargets(targets, rules.ignored);
      rules.ignored := rules.ignored + (set n | n in newIgnore);
      realTargets := ListOf(stuff);
      processDir := realTargets;
    }

    /**
     * `runSootAnalysis(targets, classpaths)`: set Soot up, take the targets, and unless there
     * are none run the class-information scan, the call-graph build and the status save;
     * what is thrown on the way is handled by `Caught`.
     */
    method RunSootAnalysis(targets: map<string, string>, classpaths: seq<string>, engine: Engine)
      returns (outcome: Outcome)
      modifies this, rules
      ensures StopsBeforeTargets(engine) ==> rules.ignored == old(rules.ignored) && processDir == old(processDir)
      ensures !StopsBeforeTargets(engine) ==>
        && rules.ignored == old(rules.ignored) + NewlyIgnored(targets, old(rules.ignored))
        && IsListOf(processDir, TargetPaths(targets, old(rules.ignored)))
      ensures trace == old(trace) + AnalysisTrace(engine, (set p | p in classpaths), processDir)
      ensures outcome == AnalysisOutcome(engine, |processDir| == 0)
      ensures libraries == old(libraries)
    {
      if engine.setupFailure.Some? {
        outcome := Caught(engine.setupFailure.value);
        return;
      }
      trace := trace + [SetClassPath(set p | p in classpaths)];
      if engine.classPathFailure.Some? {
        outcome := Caught(engine.classPathFailure.value);
        return;
      }
      var realTargets := GetTargets(targets);
      if |realTargets| == 0 {
        outcome := Normal;
        return;
      }
      trace := trace + [AutoSetOptions];
      if engine.optionsFailure.Some? {
        outcome := Caught(engine.optionsFailure.value);
        return;
      }
      trace := trace + [ScanClassInfo(realTargets)];
      if engine.classInfoFailure.Some? {
        outcome := Caught(engine.classInfoFailure.value);
        return;
      }
      trace := trace + [BuildCallGraph];
      if engine.callGraphFailure.Some? {
        outcome := Caught(engine.callGraphFailure.value);
        return;
      }
      trace := trace + [SaveStatus];
      outcome := if engine.saveStatusFailure.Some? then Caught(engine.saveStatusFailure.value) else Normal;
    }

    /**
     * The build-phase assembly of `run`: the class path map `cps` and the `targets` map,
     * with the collected library files added to the global library map first.
     */
    method AssembleInputs(flags: Flags, deps: map<string, string>, files: map<string, string>,
                          libFiles: Option<map<string, string>>)
      returns (cps: map<string, string>, targets: map<string, string>)
      modifies this
      ensures libraries == LibrariesAfter(old(libraries), libFiles)
      ensures cps == Classpath(flags, deps, files, libraries)
      ensures targets == Targets(flags, deps, files)
      ensures processDir == old(processDir) && trace == old(trace)
    {
      cps := if flags.excludeJdk then map[] else deps;
      targets := map[];
      if !flags.jdkOnly {
        cps := cps + files;
        targets := targets + files;
      }
      if flags.jdkOnly || flags.jdkProcess {
        targets := targets + deps;
      }
      if libFiles.Some? {
        libraries := libraries + libFiles.value;
      }
      cps := MergeLibraries(cps, libraries);
    }

    /**
     * The build block of `run`: assemble the inputs, run the analysis, and on a normal end
     * count the results and save them to CSV.
     */
    method Build(flags: Flags, deps: map<string, string>, files: map<string, string>,
                 libFiles: Option<map<string, string>>, engine: Engine)
      returns (outcome: Outcome)
      modifies this, rules
      ensures libraries == LibrariesAfter(old(libraries), libFiles)
      ensures !StopsBeforeTargets(engine) ==>
        && rules.ignored == old(rules.ignored) + NewlyIgnored(Targets(flags, deps, files), old(rules.ignored))
        && IsListOf(processDir, TargetPaths(Targets(flags, deps, files), old(rules.ignored)))
      ensures StopsBeforeTargets(engine) ==> rules.ignored == old(rules.ignored) && processDir == old(processDir)
      ensures outcome == AnalysisOutcome(engine, |processDir| == 0)
      ensures trace == old(trace) + BuildTrace(engine, Classpath(flags, deps, files, libraries).Values, processDir)
    {
      var cps, targets := AssembleInputs(flags, deps, files, libFiles);
      var classpaths := ListOf(cps.Values);
      assert (set p | p in classpaths) == cps.Values;
      ghost var before := trace;
      outcome := RunSootAnalysis(targets, classpaths, engine);
      ghost var counted: seq<Event> := [];
      if outcome.Normal? {
        trace := trace + [Count, SaveCsv];
        counted := [Count, SaveCsv];
      }
      AppendAssoc(before, AnalysisTrace(engine, cps.Values, processDir), counted);
    }

    /**
     * `run()`: with the JDK dependencies, the collected target files and the library files
     * (None when the library folder does not exist) given as values.
     */
    method Run(flags: Flags, deps: map<string, string>, files: map<string, string>,
               libFiles: Option<map<string, string>>, engine: Engine)
      returns (outcome: Outcome)
      modifies this, rules
      ensures libraries == if flags.buildEnabled then LibrariesAfter(old(libraries), libFiles) else old(libraries)
      ensures flags.buildEnabled && !StopsBeforeTargets(engine) ==>
        && rules.ignored == old(rules.ignored) + NewlyIgnored(Targets(flags, deps, files), old(rules.ignored))
        && IsListOf(processDir, TargetPaths(Targets(flags, deps, files), old(rules.ignored)))
      ensures !flags.buildEnabled || StopsBeforeTargets(engine) ==>
        rules.ignored == old(rules.ignored) && processDir == old(processDir)
      ensures trace == old(trace) + RunTrace(flags, engine, Classpath(flags, deps, files, libraries).Values, processDir)
      ensures outcome == RunOutcome(flags, engine, processDir)
    {
      if flags.loadEnabled {
        trace := trace + [CleanAll];
        if !flags.buildEnabled {
          trace := trace + [AwaitCleanup];
        }
      }
      outcome := Normal;
      ghost var built: seq<Event> := [];
      if flags.buildEnabled {
        outcome := Build(flags, deps, files, libFiles, engine);
        built := BuildTrace(engine, Classpath(flags, deps, files, libraries).Values, processDir);
      }
      // An exception out of the analysis leaves `run` before the load phase.
      ghost var loaded: seq<Event> := [];
      if flags.loadEnabled && outcome.Normal? {
        trace := trace + [ResetSoot, AwaitCleanup, SaveGraph];
        loaded := [ResetSoot, AwaitCleanup, SaveGraph];
      }
      AppendAssoc(old(trace), StartTrace(flags) + built, loaded);
      AppendAssoc(old(trace), StartTrace(flags), built);
    }
  }
}
