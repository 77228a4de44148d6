/** A worker's start-up as a pure function of the `projects/` tree: Phase 1
    runs every project's initialiser with errors isolated per project, Phase 2
    registers every route file of every project except `template` and stops
    at the first step (an import, or a routes listing) that fails, and the worker then listens or exits.
    Each `seq` function below is the fold of one `for … of` loop of the
    worker, taken over the listing in order. */
module Loader {
  import opened Routes
  import opened Projects

  // ---------------------------------------------------------------------
  // Phase 1: initialisers
  // ---------------------------------------------------------------------

  /** The event one project contributes to Phase 1. A missing `startup.ts`
      or a default export that is not a function is skipped silently; an
      import or call that throws is caught and logged. */
  function InitEvents(p: Project): seq<Event> {
    match p.startup
    case NoStartup => []
    case NotCallable => []
    case Completes => [Init(p.name)]
    case ImportFails => [InitError(p.name)]
    case Throws => [InitError(p.name)]
  }

  /** Phase 1 over the listing: one optional event per project, in order. */
  function Phase1(ps: seq<Project>): seq<Event> {
    if |ps| == 0 then []
    else Phase1(ps[..|ps| - 1]) + InitEvents(ps[|ps| - 1])
  }

  /** Phase 1 emits only initialiser events, and no more events than projects. */
  lemma {:induction false} Phase1OnlyInits(ps: seq<Project>)
    ensures forall i :: 0 <= i < |Phase1(ps)| ==> IsInitEvent(Phase1(ps)[i])
    ensures |Phase1(ps)| <= |ps|
    decreases |ps|
  {
    if |ps| > 0 {
      var init := ps[..|ps| - 1];
      Phase1OnlyInits(init);
      var r, e := Phase1(init), InitEvents(ps[|ps| - 1]);
      assert Phase1(ps) == r + e;
      forall i | 0 <= i < |r + e|
        ensures IsInitEvent((r + e)[i])
      {
        if i >= |r| {
          assert (r + e)[i] == e[i - |r|];
        }
      }
    }
  }

  // ---------------------------------------------------------------------
  // Phase 2: route imports
  // ---------------------------------------------------------------------

  /** One step of Phase 2: either the `import(filePath)` of a route file, or
      a routes listing that fails (`ListingFailure`). It carries the prefix a
      successful step is registered under and whether the step succeeds. */
  datatype RouteImport = RouteImport(prefix: string, succeeds: bool)

  /** The imports of one routes folder: one per route file, in listing order. */
  function FileImports(project: string, files: seq<RouteFile>): (r: seq<RouteImport>)
    ensures |r| <= |files|
  {
    if |files| == 0 then []
    else
      var f := files[|files| - 1];
      FileImports(project, files[..|files| - 1])
        + (if IsRouteFile(f.name) then [ImportOf(project, f)] else [])
  }

  /** The import of a route file: its mount prefix and its outcome. */
  function ImportOf(project: string, file: RouteFile): RouteImport {
    RouteImport(Prefix(project, BaseName(file.name)), file.imports)
  }

  /** Phase 2 looks inside `routes` only for non-template projects whose
      `routes` exists and is a directory. */
  predicate ScansRoutes(p: Project) {
    p.name != Template && (p.routes.Directory? || p.routes.Unlistable?)
  }

  /** A `readdirSync` of a routes folder that throws: a step that fails
      before any file of the folder is imported. It never registers, so its
      prefix (the project root) is never mounted. */
  function ListingFailure(project: string): RouteImport {
    RouteImport(Prefix(project, Index), false)
  }

  /** The steps Phase 2 takes for one project: none unless it scans the
      project's `routes`, then the listing (which may fail) and its imports. */
  function ProjectImports(p: Project): seq<RouteImport> {
    if !ScansRoutes(p) then []
    else if p.routes.Directory? then FileImports(p.name, p.routes.files)
    else [ListingFailure(p.name)]
  }

  /** Every step Phase 2 would take if none failed (an import, or a routes
      listing that fails), in project-listing order, then file-listing order. */
  function Imports(ps: seq<Project>): seq<RouteImport> {
    if |ps| == 0 then []
    else Imports(ps[..|ps| - 1]) + ProjectImports(ps[|ps| - 1])
  }

  function Prefixes(ims: seq<RouteImport>): (r: seq<string>)
    ensures |r| == |ims| && forall k :: 0 <= k < |ims| ==> r[k] == ims[k].prefix
  {
    seq(|ims|, k requires 0 <= k < |ims| => ims[k].prefix)
  }

  /** What Phase 2 achieved: the prefixes registered, in order, and whether
      a step failed (which aborts the worker). */
  datatype Outcome = Outcome(registered: seq<string>, aborted: bool)

  /** `r` registers the steps of `ims` one by one and stops at the first
      one that fails: the registered prefixes are the longest run of
      successful steps at the front of `ims`, and `r` is aborted exactly
      when that run stops short of the end. */
  predicate StopsAtFirstFailure(r: Outcome, ims: seq<RouteImport>) {
    && |r.registered| <= |ims|
    && (forall j :: 0 <= j < |r.registered| ==> ims[j].succeeds && r.registered[j] == ims[j].prefix)
    && (r.aborted <==> |r.registered| < |ims|)
    && (r.aborted ==> !ims[|r.registered|].succeeds)
  }

  /** Registers steps in order; a failing step stops everything. */
  function RegisterAll(ims: seq<RouteImport>): Outcome {
    if |ims| == 0 then Outcome([], false)
    else if !ims[0].succeeds then Outcome([], true)
    else
      var rest := RegisterAll(ims[1..]);
      Outcome([ims[0].prefix] + rest.registered, rest.aborted)
  }

  /** `RegisterAll` stops at the first failure, and aborts exactly when some
      step fails. */
  lemma {:induction false} RegisterAllStops(ims: seq<RouteImport>)
    ensures StopsAtFirstFailure(RegisterAll(ims), ims)
    ensures RegisterAll(ims).aborted <==> exists j :: 0 <= j < |ims| && !ims[j].succeeds
    decreases |ims|
  {
    if |ims| > 0 && ims[0].succeeds {
      var rest := ims[1..];
      RegisterAllStops(rest);
      var r, t := RegisterAll(ims), RegisterAll(rest);
      assert r.registered == [ims[0].prefix] + t.registered;
      forall j | 0 <= j < |r.registered|
        ensures ims[j].succeeds && r.registered[j] == ims[j].prefix
      {
        if j > 0 {
          assert r.registered[j] == t.registered[j - 1];
          assert ims[j] == rest[j - 1];
        }
      }
      if r.aborted {
        assert ims[|r.registered|] == rest[|t.registered|];
        var j :| 0 <= j < |rest| && !rest[j].succeeds;
        assert !ims[j + 1].succeeds;
      } else {
        forall j | 0 <= j < |ims|
          ensures ims[j].succeeds
        {
          if j > 0 {
            assert ims[j] == rest[j - 1];
          }
        }
      }
    }
  }

  function Phase2(ps: seq<Project>): Outcome {
    RegisterAll(Imports(ps))
  }

  // ---------------------------------------------------------------------
  // The worker
  // ---------------------------------------------------------------------

  datatype Status = Listening | Exited(code: int)

  datatype WorkerRun = WorkerRun(trace: seq<Event>, status: Status)

  function Registers(prefixes: seq<string>): (r: seq<Event>)
    ensures |r| == |prefixes|
    ensures forall k :: 0 <= k < |r| ==> r[k] == Register(prefixes[k])
  {
    seq(|prefixes|, k requires 0 <= k < |prefixes| => Register(prefixes[k]))
  }

  /** Every initialiser event comes before every registration. */
  predicate PhasesOrdered(t: seq<Event>) {
    forall i, j :: 0 <= i < j < |t| ==> !(t[i].Register? && IsInitEvent(t[j]))
  }

  /** The trace ends in exactly one `Listen` or `Abort`, and has none before. */
  predicate EndsOnce(t: seq<Event>) {
    && |t| > 0
    && IsFinal(t[|t| - 1])
    && forall i :: 0 <= i < |t| - 1 ==> !IsFinal(t[i])
  }

  /** A worker's start-up: nothing is loaded when `projects/` is absent;
      a `projects/` that cannot be listed ends in exit code 1 at once;
      otherwise Phase 1 then Phase 2; a failed route import or routes
      listing, or a failed `listen`, ends in exit code 1. */
  function StartWorker(projects: Folder, listenOk: bool): (r: WorkerRun)
    ensures EndsOnce(r.trace)
    ensures PhasesOrdered(r.trace)
    ensures r.status == Listening <==> r.trace[|r.trace| - 1] == Listen
    ensures r.status != Listening ==> r.status == Exited(1)
    ensures r.status == Listening ==> listenOk
    ensures !projects.Present? ==> |r.trace| == 1
    ensures projects.Unreadable? ==> r.status == Exited(1)
  {
    match projects
    case Absent =>
      Finish([], listenOk)
    case Unreadable =>
      Exit([])
    case Present(ps) =>
      var loaded := Phase2(ps);
      var trace := Phase1(ps) + Registers(loaded.registered);
      assert PhasesOrdered(trace) && forall e :: e in trace ==> !IsFinal(e) by {
        Phase1OnlyInits(ps);
        PhasesOrderedConcat(Phase1(ps), Registers(loaded.registered));
      }
      if loaded.aborted then Exit(trace) else Finish(trace, listenOk)
  }

  /** The `listen` step after loading. */
  function Finish(trace: seq<Event>, listenOk: bool): (r: WorkerRun)
    requires PhasesOrdered(trace) && forall e :: e in trace ==> !IsFinal(e)
    ensures EndsOnce(r.trace) && PhasesOrdered(r.trace)
    ensures r.trace[..|r.trace| - 1] == trace
    ensures r.status == Listening <==> listenOk
  {
    if listenOk then WorkerRun(trace + [Listen], Listening) else Exit(trace)
  }

  /** `server.log.error(err); process.exit(1)`. */
  function Exit(trace: seq<Event>): (r: WorkerRun)
    requires PhasesOrdered(trace) && forall e :: e in trace ==> !IsFinal(e)
    ensures EndsOnce(r.trace) && PhasesOrdered(r.trace)
    ensures r.trace[..|r.trace| - 1] == trace && r.trace[|r.trace| - 1] == Abort
    ensures r.status == Exited(1)
  {
    var t := trace + [Abort];
    assert t[..|t| - 1] == trace;
    WorkerRun(t, Exited(1))
  }

  lemma PhasesOrderedConcat(inits: seq<Event>, regs: seq<Event>)
    requires forall i :: 0 <= i < |inits| ==> IsInitEvent(inits[i])
    requires forall i :: 0 <= i < |regs| ==> regs[i].Register?
    ensures PhasesOrdered(inits + regs)
    ensures forall e :: e in inits + regs ==> !IsFinal(e)
  {
    var t := inits + regs;
    forall i, j | 0 <= i < j < |t|
      ensures !(t[i].Register? && IsInitEvent(t[j]))
    {
      if i < |inits| {
        assert t[i] == inits[i];
      } else {
        assert t[i] == regs[i - |inits|];
        assert t[j] == regs[j - |inits|];
      }
    }
  }
}
