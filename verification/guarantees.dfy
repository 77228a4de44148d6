/** What the start-up sequence guarantees about its trace: Phase 1 isolation,
    the exact registrations of Phase 2, the fatal route-import failure, and
    the `template` exclusion. */
module Guarantees {
  import opened Text
  import opened Routes
  import opened Projects
  import opened Loader
  import opened Sequences

  // ---------------------------------------------------------------------
  // Phase 1
  // ---------------------------------------------------------------------

  /** Phase 1 over a listing is Phase 1 over each part of it. */
  lemma {:induction false} Phase1Concat(a: seq<Project>, b: seq<Project>)
    ensures Phase1(a + b) == Phase1(a) + Phase1(b)
    decreases |b|
  {
    if |b| == 0 {
      assert a + b == a;
    } else {
      var b', last := b[..|b| - 1], b[|b| - 1];
      SplitLast(a, b);
      Phase1Snoc(a + b', last);
      Phase1Snoc(b', last);
      Phase1Concat(a, b');
      assert (Phase1(a) + Phase1(b')) + InitEvents(last) == Phase1(a) + (Phase1(b') + InitEvents(last));
    }
  }

  lemma Phase1Snoc(ps: seq<Project>, p: Project)
    ensures Phase1(ps + [p]) == Phase1(ps) + InitEvents(p)
  {
    assert (ps + [p])[..|ps|] == ps;
  }

  /** Isolation: for given outcomes of each initialiser, a project
      contributes at most one event of its own, and the events of the projects
      before and after it are those they produce on their own. */
  lemma Phase1Isolation(before: seq<Project>, p: Project, after: seq<Project>)
    ensures Phase1(before + [p] + after) == Phase1(before) + InitEvents(p) + Phase1(after)
    ensures |InitEvents(p)| <= 1
  {
    Phase1Concat(before + [p], after);
    Phase1Concat(before, [p]);
    assert [p][..0] == [];
  }

  /** `Init(n)` is in Phase 1 exactly when a project named `n` has an
      initialiser that runs to completion. */
  lemma {:induction false} Phase1Inits(ps: seq<Project>, n: string)
    ensures Init(n) in Phase1(ps) <==>
              exists k :: 0 <= k < |ps| && ps[k].name == n && ps[k].startup == Completes
    decreases |ps|
  {
    if |ps| > 0 {
      var m := |ps| - 1;
      var init, last := ps[..m], ps[m];
      Phase1Inits(init, n);
      assert Phase1(ps) == Phase1(init) + InitEvents(last);
      if Init(n) in Phase1(ps) {
        if Init(n) in Phase1(init) {
          var k :| 0 <= k < |init| && init[k].name == n && init[k].startup == Completes;
          assert ps[k] == init[k];
        } else {
          assert Init(n) in InitEvents(last);
          assert ps[m].name == n && ps[m].startup == Completes;
        }
      }
      if exists k :: 0 <= k < |ps| && ps[k].name == n && ps[k].startup == Completes {
        var k :| 0 <= k < |ps| && ps[k].name == n && ps[k].startup == Completes;
        if k < m {
          assert init[k] == ps[k];
        } else {
          assert InitEvents(last) == [Init(n)];
        }
      }
    }
  }

  /** `InitError(n)` is in Phase 1 exactly when a project named `n` has an
      initialiser whose import or call throws. */
  lemma {:induction false} Phase1Errors(ps: seq<Project>, n: string)
    ensures InitError(n) in Phase1(ps) <==>
              exists k :: 0 <= k < |ps| && ps[k].name == n && Fails(ps[k].startup)
    decreases |ps|
  {
    if |ps| > 0 {
      var m := |ps| - 1;
      var init, last := ps[..m], ps[m];
      Phase1Errors(init, n);
      assert Phase1(ps) == Phase1(init) + InitEvents(last);
      if InitError(n) in Phase1(ps) {
        if InitError(n) in Phase1(init) {
          var k :| 0 <= k < |init| && init[k].name == n && Fails(init[k].startup);
          assert ps[k] == init[k];
        } else {
          assert InitError(n) in InitEvents(last);
          assert ps[m].name == n && Fails(ps[m].startup);
        }
      }
      if exists k :: 0 <= k < |ps| && ps[k].name == n && Fails(ps[k].startup) {
        var k :| 0 <= k < |ps| && ps[k].name == n && Fails(ps[k].startup);
        if k < m {
          assert init[k] == ps[k];
        } else {
          assert InitEvents(last) == [InitError(n)];
        }
      }
    }
  }

  /** The initialiser outcomes Phase 1 catches and logs. */
  predicate Fails(s: Startup) {
    s == ImportFails || s == Throws
  }

  // ---------------------------------------------------------------------
  // Phase 2
  // ---------------------------------------------------------------------

  lemma {:induction false} FileImportsConcat(project: string, a: seq<RouteFile>, b: seq<RouteFile>)
    ensures FileImports(project, a + b) == FileImports(project, a) + FileImports(project, b)
    decreases |b|
  {
    if |b| == 0 {
      assert a + b == a;
    } else {
      var b', last := b[..|b| - 1], b[|b| - 1];
      SplitLast(a, b);
      FileImportsSnoc(project, a + b', last);
      FileImportsSnoc(project, b', last);
      FileImportsConcat(project, a, b');
    }
  }

  lemma FileImportsSnoc(project: string, files: seq<RouteFile>, f: RouteFile)
    ensures FileImports(project, files + [f])
         == FileImports(project, files) + (if IsRouteFile(f.name) then [ImportOf(project, f)] else [])
  {
    assert (files + [f])[..|files|] == files;
  }

  lemma {:induction false} ImportsConcat(a: seq<Project>, b: seq<Project>)
    ensures Imports(a + b) == Imports(a) + Imports(b)
    decreases |b|
  {
    if |b| == 0 {
      assert a + b == a;
    } else {
      var b', last := b[..|b| - 1], b[|b| - 1];
      SplitLast(a, b);
      ImportsSnoc(a + b', last);
      ImportsSnoc(b', last);
      ImportsConcat(a, b');
    }
  }

  lemma ImportsSnoc(ps: seq<Project>, p: Project)
    ensures Imports(ps + [p]) == Imports(ps) + ProjectImports(p)
  {
    assert (ps + [p])[..|ps|] == ps;
  }

  /** The indices of the route files of a folder. */
  function RouteFileIndices(files: seq<RouteFile>): set<nat> {
    set k: nat | k < |files| && IsRouteFile(files[k].name)
  }

  /** One import per route file: a folder yields as many imports as it has
      route files. */
  lemma {:induction false} FileImportsCount(project: string, files: seq<RouteFile>)
    ensures |FileImports(project, files)| == |RouteFileIndices(files)|
    decreases |files|
  {
    if |files| > 0 {
      var init, f := files[..|files| - 1], files[|files| - 1];
      assert files == init + [f];
      FileImportsSnoc(project, init, f);
      RouteFileIndicesSnoc(init, f);
      FileImportsCount(project, init);
    }
  }

  lemma RouteFileIndicesSnoc(files: seq<RouteFile>, f: RouteFile)
    ensures |RouteFileIndices(files + [f])|
         == |RouteFileIndices(files)| + (if IsRouteFile(f.name) then 1 else 0)
  {
    var n := |files|;
    var all := files + [f];
    var extra: set<nat> := if IsRouteFile(f.name) then {n} else {};
    forall k | k in RouteFileIndices(all)
      ensures k in RouteFileIndices(files) + extra
    {
      if k < n {
        assert all[k] == files[k];
      }
    }
    forall k | k in RouteFileIndices(files) + extra
      ensures k in RouteFileIndices(all)
    {
      if k < n {
        assert all[k] == files[k];
      }
    }
    assert RouteFileIndices(all) == RouteFileIndices(files) + extra;
    assert n !in RouteFileIndices(files);
  }

  /** The `k`-th entry of `files` is a route file whose import is `im`. */
  predicate Produces(project: string, files: seq<RouteFile>, k: int, im: RouteImport) {
    0 <= k < |files| && IsRouteFile(files[k].name) && im == ImportOf(project, files[k])
  }

  /** An import is attempted exactly when some route file of the folder
      produces it. */
  lemma FileImportsMembers(project: string, files: seq<RouteFile>, im: RouteImport)
    ensures im in FileImports(project, files) <==> exists k :: Produces(project, files, k, im)
  {
    if im in FileImports(project, files) {
      FileImportsProduced(project, files, im);
    }
    if exists k :: Produces(project, files, k, im) {
      var k :| Produces(project, files, k, im);
      FileImportsComplete(project, files, k);
    }
  }

  lemma {:induction false} FileImportsProduced(project: string, files: seq<RouteFile>, im: RouteImport)
    requires im in FileImports(project, files)
    ensures exists k :: Produces(project, files, k, im)
    decreases |files|
  {
    var n := |files| - 1;
    var init := files[..n];
    FileImportsLast(project, files);
    if im in FileImports(project, init) {
      FileImportsProduced(project, init, im);
      var k :| Produces(project, init, k, im);
      assert files[k] == init[k];
      assert Produces(project, files, k, im);
    } else {
      assert Produces(project, files, n, im);
    }
  }

  lemma {:induction false} FileImportsComplete(project: string, files: seq<RouteFile>, k: nat)
    requires k < |files| && IsRouteFile(files[k].name)
    ensures ImportOf(project, files[k]) in FileImports(project, files)
    decreases |files|
  {
    var n := |files| - 1;
    var init := files[..n];
    FileImportsLast(project, files);
    if k < n {
      assert files[k] == init[k];
      FileImportsComplete(project, init, k);
    }
  }

  lemma FileImportsLast(project: string, files: seq<RouteFile>)
    requires |files| > 0
    ensures FileImports(project, files)
         == FileImports(project, files[..|files| - 1])
            + (if IsRouteFile(files[|files| - 1].name) then [ImportOf(project, files[|files| - 1])] else [])
  {
  }

  /** The events of a trace that are registrations, as their prefixes. */
  function Registrations(t: seq<Event>): (r: seq<string>)
    ensures |r| <= |t|
  {
    if |t| == 0 then []
    else
      Registrations(t[..|t| - 1])
        + (if t[|t| - 1].Register? then [t[|t| - 1].prefix] else [])
  }

  lemma {:induction false} RegistrationsConcat(a: seq<Event>, b: seq<Event>)
    ensures Registrations(a + b) == Registrations(a) + Registrations(b)
    decreases |b|
  {
    if |b| == 0 {
      assert a + b == a;
    } else {
      var ab := a + b;
      assert ab[..|ab| - 1] == a + b[..|b| - 1];
      assert ab[|ab| - 1] == b[|b| - 1];
      RegistrationsConcat(a, b[..|b| - 1]);
    }
  }

  lemma {:induction false} RegistrationsOfRegisters(prefixes: seq<string>)
    ensures Registrations(Registers(prefixes)) == prefixes
    decreases |prefixes|
  {
    if |prefixes| > 0 {
      var n := |prefixes| - 1;
      assert Registers(prefixes)[..n] == Registers(prefixes[..n]);
      RegistrationsOfRegisters(prefixes[..n]);
      assert prefixes == prefixes[..n] + [prefixes[n]];
    }
  }

  lemma {:induction false} RegistrationsWithout(t: seq<Event>)
    requires forall i :: 0 <= i < |t| ==> !t[i].Register?
    ensures Registrations(t) == []
    decreases |t|
  {
    if |t| > 0 {
      RegistrationsWithout(t[..|t| - 1]);
    }
  }

  /** The `Register` events of a worker's trace are exactly what Phase 2
      registered. */
  lemma WorkerRegistrations(ps: seq<Project>, listenOk: bool)
    ensures Registrations(StartWorker(Present(ps), listenOk).trace) == Phase2(ps).registered
  {
    var t := StartWorker(Present(ps), listenOk).trace;
    var regs := Phase2(ps).registered;
    var n := |t| - 1;
    WorkerTrace(ps, listenOk);
    assert Registrations(t) == Registrations(t[..n]) by {
      assert IsFinal(t[n]);
    }
    assert Registrations(t[..n]) == regs by {
      RegistrationsConcat(Phase1(ps), Registers(regs));
      Phase1OnlyInits(ps);
      RegistrationsWithout(Phase1(ps));
      RegistrationsOfRegisters(regs);
      assert [] + regs == regs;
    }
  }

  /** Before its final event, a worker's trace is Phase 1's events followed
      by Phase 2's registrations. */
  lemma WorkerTrace(ps: seq<Project>, listenOk: bool)
    ensures var t := StartWorker(Present(ps), listenOk).trace;
            t[..|t| - 1] == Phase1(ps) + Registers(Phase2(ps).registered)
  {
  }

  /** Start-up depends on the listing only through Phase 1's events and
      Phase 2's steps. */
  lemma SameLoading(ps: seq<Project>, qs: seq<Project>, listenOk: bool)
    requires Phase1(ps) == Phase1(qs) && Imports(ps) == Imports(qs)
    ensures StartWorker(Present(ps), listenOk) == StartWorker(Present(qs), listenOk)
  {
  }

  /** Phase 2 registers the steps in project-listing then file-listing
      order, each under its prefix, as long as they succeed. */
  lemma RegistersInOrder(ps: seq<Project>, listenOk: bool)
    ensures |Registrations(StartWorker(Present(ps), listenOk).trace)| <= |Imports(ps)|
    ensures forall j :: 0 <= j < |Registrations(StartWorker(Present(ps), listenOk).trace)| ==>
              Imports(ps)[j].succeeds && Registrations(StartWorker(Present(ps), listenOk).trace)[j] == Imports(ps)[j].prefix
  {
    WorkerRegistrations(ps, listenOk);
    RegisterAllStops(Imports(ps));
  }

  /** Registration stops short only at a failing step, and then the worker
      exits with code 1 and never listens. */
  lemma StopsShortOnlyOnFailure(ps: seq<Project>, listenOk: bool)
    requires |Registrations(StartWorker(Present(ps), listenOk).trace)| < |Imports(ps)|
    ensures !Imports(ps)[|Registrations(StartWorker(Present(ps), listenOk).trace)|].succeeds
    ensures StartWorker(Present(ps), listenOk).status == Exited(1)
    ensures Listen !in StartWorker(Present(ps), listenOk).trace
  {
    WorkerRegistrations(ps, listenOk);
    RegisterAllStops(Imports(ps));
    AbortedWorker(ps, listenOk);
  }

  /** A worker whose Phase 2 aborts exits with code 1 and never listens. */
  lemma AbortedWorker(ps: seq<Project>, listenOk: bool)
    requires Phase2(ps).aborted
    ensures StartWorker(Present(ps), listenOk).status == Exited(1)
    ensures Listen !in StartWorker(Present(ps), listenOk).trace
  {
    var run := StartWorker(Present(ps), listenOk);
    assert forall i :: 0 <= i < |run.trace| - 1 ==> run.trace[i] != Listen;
  }

  /** When every step is registered, the worker listens exactly when
      `listen` succeeds. */
  lemma AllRegisteredListens(ps: seq<Project>, listenOk: bool)
    requires |Registrations(StartWorker(Present(ps), listenOk).trace)| == |Imports(ps)|
    ensures StartWorker(Present(ps), listenOk).status == Listening <==> listenOk
  {
    WorkerRegistrations(ps, listenOk);
    RegisterAllStops(Imports(ps));
  }

  /** A failing route import is fatal: a route file of a scanned project
      that cannot be imported means the worker exits with code 1 and never
      listens, whatever else succeeds. */
  lemma ImportFailureIsFatal(before: seq<Project>, p: Project, after: seq<Project>, f: nat, listenOk: bool)
    requires ScansRoutes(p) && p.routes.Directory? && f < |p.routes.files|
    requires IsRouteFile(p.routes.files[f].name) && !p.routes.files[f].imports
    ensures StartWorker(Present(before + [p] + after), listenOk).status == Exited(1)
    ensures Listen !in StartWorker(Present(before + [p] + after), listenOk).trace
  {
    var ps := before + [p] + after;
    var files := p.routes.files;
    var im := ImportOf(p.name, files[f]);
    FileImportsMembers(p.name, files, im);
    assert Produces(p.name, files, f, im);
    ImportsAround(before, p, after);
    assert im in Imports(ps);
    RegisterAllStops(Imports(ps));
    AbortedWorker(ps, listenOk);
  }

  /** A routes folder that cannot be listed is fatal like a failing import:
      the worker exits with code 1 and never listens, and nothing of that
      project or any later one is registered. */
  lemma UnlistableRoutesAreFatal(before: seq<Project>, p: Project, after: seq<Project>, listenOk: bool)
    requires p.name != Template && p.routes.Unlistable?
    ensures StartWorker(Present(before + [p] + after), listenOk).status == Exited(1)
    ensures Listen !in StartWorker(Present(before + [p] + after), listenOk).trace
    ensures |Registrations(StartWorker(Present(before + [p] + after), listenOk).trace)| <= |Imports(before)|
  {
    var ps := before + [p] + after;
    ImportsAround(before, p, after);
    assert Imports(ps)[|Imports(before)|] == ListingFailure(p.name);
    RegisterAllStops(Imports(ps));
    WorkerRegistrations(ps, listenOk);
    AbortedWorker(ps, listenOk);
  }

  /** A `projects/` folder that exists but cannot be listed ends start-up
      before either phase: the trace is `Abort` alone. */
  lemma UnreadableProjectsFolder(listenOk: bool)
    ensures StartWorker(Unreadable, listenOk) == WorkerRun([Abort], Exited(1))
  {
  }

  /** When every step succeeds, every one is registered, in order, and
      the worker listens exactly when `listen` succeeds. */
  lemma AllImportsSucceed(ps: seq<Project>, listenOk: bool)
    requires forall j :: 0 <= j < |Imports(ps)| ==> Imports(ps)[j].succeeds
    ensures Registrations(StartWorker(Present(ps), listenOk).trace) == Prefixes(Imports(ps))
    ensures StartWorker(Present(ps), listenOk).status == Listening <==> listenOk
  {
    WorkerRegistrations(ps, listenOk);
    RegisterAllStops(Imports(ps));
  }

  /** The steps of a listing are those before a project, the project's
      own, and those after it. */
  lemma ImportsAround(before: seq<Project>, p: Project, after: seq<Project>)
    ensures Imports(before + [p] + after) == Imports(before) + ProjectImports(p) + Imports(after)
  {
    ImportsConcat(before + [p], after);
    ImportsConcat(before, [p]);
    assert [p][..0] == [];
  }

  /** Without a `projects/` folder nothing is loaded: the trace is the
      `listen` alone. */
  lemma AbsentProjectsFolder()
    ensures StartWorker(Absent, true) == WorkerRun([Listen], Listening)
    ensures StartWorker(Absent, false) == WorkerRun([Abort], Exited(1))
  {
  }

  /** Two listings that differ only in their initialisers. */
  predicate SameRoutes(ps: seq<Project>, qs: seq<Project>) {
    |ps| == |qs|
    && forall k :: 0 <= k < |ps| ==> ps[k].name == qs[k].name && ps[k].routes == qs[k].routes
  }

  lemma {:induction false} ImportsIgnoreStartup(ps: seq<Project>, qs: seq<Project>)
    requires SameRoutes(ps, qs)
    ensures Imports(ps) == Imports(qs)
    decreases |ps|
  {
    if |ps| > 0 {
      var n := |ps| - 1;
      assert SameRoutes(ps[..n], qs[..n]);
      ImportsIgnoreStartup(ps[..n], qs[..n]);
    }
  }

  /** Phase 1 failures never reach Phase 2: for given outcomes of each route
      file and of `listen`, every outcome of the initialisers registers the
      same routes and ends the worker the same way. */
  lemma InitFailuresDoNotAffectRoutes(ps: seq<Project>, qs: seq<Project>, listenOk: bool)
    requires SameRoutes(ps, qs)
    ensures Registrations(StartWorker(Present(ps), listenOk).trace)
         == Registrations(StartWorker(Present(qs), listenOk).trace)
    ensures StartWorker(Present(ps), listenOk).status == StartWorker(Present(qs), listenOk).status
  {
    ImportsIgnoreStartup(ps, qs);
    WorkerRegistrations(ps, listenOk);
    WorkerRegistrations(qs, listenOk);
  }

  // ---------------------------------------------------------------------
  // The reserved template project
  // ---------------------------------------------------------------------

  /** The `template` routes folder is never looked at: replacing it by
      anything leaves the whole start-up unchanged. */
  lemma TemplateRoutesIgnored(before: seq<Project>, p: Project, after: seq<Project>,
                              routes: RoutesPath, listenOk: bool)
    requires p.name == Template
    ensures StartWorker(Present(before + [p] + after), listenOk)
         == StartWorker(Present(before + [p.(routes := routes)] + after), listenOk)
  {
    var q := p.(routes := routes);
    var ps, qs := before + [p] + after, before + [q] + after;
    assert Phase1(ps) == Phase1(qs) by {
      Phase1Isolation(before, p, after);
      Phase1Isolation(before, q, after);
      assert InitEvents(p) == InitEvents(q);
    }
    assert Imports(ps) == Imports(qs) by {
      ImportsAround(before, p, after);
      ImportsAround(before, q, after);
      assert ProjectImports(p) == [] == ProjectImports(q);
    }
    SameLoading(ps, qs, listenOk);
  }

  /** Every project and route file name is a single path segment, as
      directory listings guarantee. */
  predicate WellNamed(ps: seq<Project>) {
    forall k :: 0 <= k < |ps| ==>
      IsSegment(ps[k].name)
      && (ps[k].routes.Directory? ==>
            forall f :: 0 <= f < |ps[k].routes.files| ==> IsSegment(ps[k].routes.files[f].name))
  }

  /** The prefix of an import names the project it came from, which is
      never `template`. */
  predicate MountedOutsideTemplate(im: RouteImport) {
    ParsePrefix(im.prefix).Some? && ParsePrefix(im.prefix).value.project != Template
  }

  lemma {:induction false} FileImportsOutsideTemplate(project: string, files: seq<RouteFile>)
    requires IsSegment(project) && project != Template
    requires forall f :: 0 <= f < |files| ==> IsSegment(files[f].name)
    ensures forall im :: im in FileImports(project, files) ==>
              ParsePrefix(im.prefix).Some? && ParsePrefix(im.prefix).value.project == project
    ensures forall im :: im in FileImports(project, files) ==> MountedOutsideTemplate(im)
  {
    forall im | im in FileImports(project, files)
      ensures ParsePrefix(im.prefix).Some? && ParsePrefix(im.prefix).value.project == project
      ensures MountedOutsideTemplate(im)
    {
      FileImportsMembers(project, files, im);
      var k :| Produces(project, files, k, im);
      BaseNameIsSegment(files[k].name);
      PrefixRoundTrip(project, BaseName(files[k].name));
    }
  }

  lemma {:induction false} ImportsOutsideTemplate(ps: seq<Project>)
    requires WellNamed(ps)
    ensures forall im :: im in Imports(ps) ==> MountedOutsideTemplate(im)
    decreases |ps|
  {
    if |ps| > 0 {
      var n := |ps| - 1;
      assert WellNamed(ps[..n]);
      ImportsOutsideTemplate(ps[..n]);
      if ScansRoutes(ps[n]) && ps[n].routes.Directory? {
        FileImportsOutsideTemplate(ps[n].name, ps[n].routes.files);
      } else if ScansRoutes(ps[n]) {
        PrefixRoundTrip(ps[n].name, Index);
      }
    }
  }

  /** No registered prefix belongs to the `template` project. */
  lemma TemplateNeverRegisters(ps: seq<Project>, listenOk: bool)
    requires WellNamed(ps)
    ensures forall x :: x in Registrations(StartWorker(Present(ps), listenOk).trace) ==>
              ParsePrefix(x).Some? && ParsePrefix(x).value.project != Template
  {
    RegistersInOrder(ps, listenOk);
    ImportsOutsideTemplate(ps);
    var regs := Registrations(StartWorker(Present(ps), listenOk).trace);
    var ims := Imports(ps);
    forall x | x in regs
      ensures ParsePrefix(x).Some? && ParsePrefix(x).value.project != Template
    {
      var j :| 0 <= j < |regs| && regs[j] == x;
      assert ims[j] in ims;
      assert MountedOutsideTemplate(ims[j]);
    }
  }

  /** The `template` initialiser still runs in Phase 1. */
  lemma TemplateStillInitialises(before: seq<Project>, p: Project, after: seq<Project>, listenOk: bool)
    requires p.name == Template && p.startup == Completes
    ensures Init(Template) in StartWorker(Present(before + [p] + after), listenOk).trace
  {
    var ps := before + [p] + after;
    Phase1Isolation(before, p, after);
    assert Init(Template) in Phase1(ps);
    var t := StartWorker(Present(ps), listenOk).trace;
    WorkerTrace(ps, listenOk);
    assert Init(Template) in t[..|t| - 1];
  }

  // ---------------------------------------------------------------------
  // Inert projects
  // ---------------------------------------------------------------------

  /** A project with no `startup.ts` whose `routes` Phase 2 does not scan
      (missing, not a directory, or belonging to `template`) leaves the
      worker's start-up exactly as if it were not there. */
  lemma InertProjectContributesNothing(a: seq<Project>, p: Project, b: seq<Project>, listenOk: bool)
    requires p.startup == NoStartup && !ScansRoutes(p)
    ensures StartWorker(Present(a + [p] + b), listenOk) == StartWorker(Present(a + b), listenOk)
  {
    InertPhase1(a, p, b);
    InertImports(a, p, b);
    SameLoading(a + [p] + b, a + b, listenOk);
  }

  lemma InertPhase1(a: seq<Project>, p: Project, b: seq<Project>)
    requires p.startup == NoStartup
    ensures Phase1(a + [p] + b) == Phase1(a + b)
  {
    Phase1Isolation(a, p, b);
    Phase1Concat(a, b);
    assert InitEvents(p) == [];
    assert Phase1(a) + [] + Phase1(b) == Phase1(a) + Phase1(b);
  }

  lemma InertImports(a: seq<Project>, p: Project, b: seq<Project>)
    requires !ScansRoutes(p)
    ensures Imports(a + [p] + b) == Imports(a + b)
  {
    ImportsAround(a, p, b);
    ImportsConcat(a, b);
    assert ProjectImports(p) == [];
    assert Imports(a) + [] + Imports(b) == Imports(a) + Imports(b);
  }
}
