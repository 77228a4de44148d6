/** The worker's start-up written as the source writes it — two `for … of`
    loops over the project listing, the second with an inner loop over each
    routes folder — and proved to produce exactly the trace of
    `Loader.StartWorker`. */
module Worker {
  import opened Routes
  import opened Projects
  import opened Loader
  import opened Guarantees
  import opened Sequences

  method RunWorker(projects: Folder, listenOk: bool) returns (trace: seq<Event>, status: Status)
    ensures WorkerRun(trace, status) == StartWorker(projects, listenOk)
  {
    trace := [];
    if projects.Unreadable? {
      return [Abort], Exited(1);
    }
    if projects.Present? {
      var ps := projects.projects;
      trace := RunPhase1(ps);
      var registered, aborted := RunPhase2(ps);
      trace := trace + Registers(registered);
      if aborted {
        trace := trace + [Abort];
        status := Exited(1);
        return;
      }
    }
    if listenOk {
      trace := trace + [Listen];
      status := Listening;
    } else {
      trace := trace + [Abort];
      status := Exited(1);
    }
  }

  /** Phase 1: every project's initialiser, errors caught per project. */
  method RunPhase1(ps: seq<Project>) returns (trace: seq<Event>)
    ensures trace == Phase1(ps)
  {
    trace := [];
    var i := 0;
    while i < |ps|
      invariant 0 <= i <= |ps|
      invariant trace == Phase1(ps[..i])
    {
      var p := ps[i];
      if p.startup != NoStartup {
        if p.startup == ImportFails {
          trace := trace + [InitError(p.name)];
        } else if p.startup != NotCallable {
          if p.startup == Throws {
            trace := trace + [InitError(p.name)];
          } else {
            trace := trace + [Init(p.name)];
          }
        }
      }
      assert ps[..i + 1][..i] == ps[..i];
      i := i + 1;
    }
    assert ps[..|ps|] == ps;
  }

  /** Phase 2: the routes of every non-template project whose `routes` is a
      directory; the first failing listing or import ends the loop. */
  method RunPhase2(ps: seq<Project>) returns (registered: seq<string>, aborted: bool)
    ensures Outcome(registered, aborted) == Phase2(ps)
  {
    registered := [];
    var i := 0;
    while i < |ps|
      invariant 0 <= i <= |ps|
      invariant RegisterAll(Imports(ps[..i])) == Outcome(registered, false)
    {
      var p := ps[i];
      var more, failed := [], false;
      if p.name != Template && p.routes.Directory? {
        more, failed := RegisterFolder(p.name, p.routes.files);
      } else if p.name != Template && p.routes.Unlistable? {
        failed := true;
      }
      Phase2Step(ps, i, registered, more, failed);
      registered := registered + more;
      if failed {
        return registered, true;
      }
      i := i + 1;
    }
    assert ps[..|ps|] == ps;
    aborted := false;
  }

  /** The inner loop over one routes folder. */
  method RegisterFolder(project: string, files: seq<RouteFile>) returns (registered: seq<string>, failed: bool)
    ensures Outcome(registered, failed) == RegisterAll(FileImports(project, files))
  {
    registered := [];
    var j := 0;
    while j < |files|
      invariant 0 <= j <= |files|
      invariant RegisterAll(FileImports(project, files[..j])) == Outcome(registered, false)
    {
      var file := files[j];
      if IsRouteFile(file.name) {
        var fileName := BaseName(file.name);
        var routePrefix := Prefix(project, fileName);
        FolderStep(project, files, j, registered);
        if !file.imports {
          return registered, true;
        }
        registered := registered + [routePrefix];
      } else {
        FolderSkip(project, files, j, registered);
      }
      j := j + 1;
    }
    assert files[..|files|] == files;
    failed := false;
  }

  /** Phase 2 over a concatenation: the second part runs only if the first
      did not abort. */
  lemma {:induction false} RegisterAllConcat(a: seq<RouteImport>, b: seq<RouteImport>)
    ensures RegisterAll(a).aborted ==> RegisterAll(a + b) == RegisterAll(a)
    ensures !RegisterAll(a).aborted
        ==> RegisterAll(a + b) == Outcome(RegisterAll(a).registered + RegisterAll(b).registered, RegisterAll(b).aborted)
    decreases |a|
  {
    if |a| == 0 {
      assert a + b == b;
    } else {
      var ab := a + b;
      assert ab[0] == a[0];
      if a[0].succeeds {
        assert ab[1..] == a[1..] + b;
        RegisterAllConcat(a[1..], b);
        var rest, tail, second := RegisterAll(ab[1..]), RegisterAll(a[1..]), RegisterAll(b);
        assert RegisterAll(ab) == Outcome([a[0].prefix] + rest.registered, rest.aborted);
        assert RegisterAll(a) == Outcome([a[0].prefix] + tail.registered, tail.aborted);
        if !tail.aborted {
          assert rest == Outcome(tail.registered + second.registered, second.aborted);
          assert [a[0].prefix] + (tail.registered + second.registered)
              == ([a[0].prefix] + tail.registered) + second.registered;
        }
      }
    }
  }

  lemma Phase2Step(ps: seq<Project>, i: nat, registered: seq<string>, more: seq<string>, failed: bool)
    requires i < |ps|
    requires RegisterAll(Imports(ps[..i])) == Outcome(registered, false)
    requires Outcome(more, failed) == RegisterAll(ProjectImports(ps[i]))
    ensures !failed ==> RegisterAll(Imports(ps[..i + 1])) == Outcome(registered + more, false)
    ensures failed ==> RegisterAll(Imports(ps)) == Outcome(registered + more, true)
  {
    var done := ps[..i + 1];
    SplitAt(ps, i);
    assert Imports(done) == Imports(ps[..i]) + ProjectImports(ps[i]) by {
      ImportsSnoc(ps[..i], ps[i]);
    }
    RegisterAllConcat(Imports(ps[..i]), ProjectImports(ps[i]));
    if failed {
      assert Imports(ps) == Imports(done) + Imports(ps[i + 1..]) by {
        ImportsConcat(done, ps[i + 1..]);
      }
      RegisterAllConcat(Imports(done), Imports(ps[i + 1..]));
    }
  }

  lemma FolderStep(project: string, files: seq<RouteFile>, j: nat, registered: seq<string>)
    requires j < |files| && IsRouteFile(files[j].name)
    requires RegisterAll(FileImports(project, files[..j])) == Outcome(registered, false)
    ensures files[j].imports
        ==> RegisterAll(FileImports(project, files[..j + 1])) == Outcome(registered + [ImportOf(project, files[j]).prefix], false)
    ensures !files[j].imports ==> RegisterAll(FileImports(project, files)) == Outcome(registered, true)
  {
    var done := files[..j + 1];
    var im := [ImportOf(project, files[j])];
    SplitAt(files, j);
    FileImportsSnoc(project, files[..j], files[j]);
    RegisterAllConcat(FileImports(project, files[..j]), im);
    assert RegisterAll(im) == if files[j].imports then Outcome([im[0].prefix], false) else Outcome([], true) by {
      assert im[1..] == [];
    }
    if !files[j].imports {
      FileImportsConcat(project, done, files[j + 1..]);
      RegisterAllConcat(FileImports(project, done), FileImports(project, files[j + 1..]));
    }
  }

  lemma FolderSkip(project: string, files: seq<RouteFile>, j: nat, registered: seq<string>)
    requires j < |files| && !IsRouteFile(files[j].name)
    requires RegisterAll(FileImports(project, files[..j])) == Outcome(registered, false)
    ensures RegisterAll(FileImports(project, files[..j + 1])) == Outcome(registered, false)
  {
    SplitAt(files, j);
    FileImportsSnoc(project, files[..j], files[j]);
    assert FileImports(project, files[..j]) + [] == FileImports(project, files[..j]);
  }
}
