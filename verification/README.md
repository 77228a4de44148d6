# fastify-hub start-up, modelled in Dafny

fastify-hub is a single Fastify server that hosts several independent
projects. `server.ts` runs either as the cluster primary or as a worker.

**The primary** picks a worker count: the configured value when it is
positive, otherwise the CPU count. It forks that many workers. Its `exit`
handler forks one replacement for every worker that dies.

**Each worker** loads the `projects/` folder in two phases:

1. **Phase 1** imports and calls every project's `startup.ts`. A failure is
   logged and the loop moves on to the next project.
2. **Phase 2** mounts every route module in `projects/{name}/routes/`, except
   those of the reserved `template` project. Each module is mounted under a
   prefix derived from the project and file names. A route import that fails,
   or a `routes` folder that cannot be listed, is not caught per file: the
   worker logs it and exits with code 1 before it listens.

This project models the worker's start-up as a pure function of an abstract
picture of the `projects/` tree. Every filesystem probe and dynamic import is
replaced by its outcome, and a folder listing that throws is one of those
outcomes (`Folder.Unreadable`, `RoutesPath.Unlistable`). A route file whose
import throws, or whose default export `server.register` rejects at once, is
a `RouteFile` with `imports` false. Phase 2 is modelled as a sequence of
steps (`Loader.Imports`): one import per route file, and one failing step for
a `routes` folder whose listing throws. `StartWorker` maps that picture to a
trace of events:

- `Init`, `InitError`: an initialiser completed or failed;
- `Register`: a route module was mounted;
- `Abort`: the logged error followed by `process.exit(1)`;
- `Listen`: the worker is listening.

The pure rules inside the loader are modelled exactly: which files are route
modules, how the mount name is cut from the file name, and how the prefix is
built. The worker loops are also written as methods in the source's own
shape, and they are proved to produce the same trace. The primary is modelled
as a counter state machine driven by two signals:

- a worker dies;
- the `exit` handler runs for a dead worker.

Modules:

- `Text`: JavaScript's `endsWith`, `indexOf`, and `replace` with a string
  pattern, which removes only the first occurrence.
- `Projects`: the picture of the `projects/` tree, and the trace events.
- `Routes`: route-file eligibility, mount names, prefixes, and `ParsePrefix`,
  which reads a prefix back into its project and mount name.
- `Loader`: Phase 1, Phase 2 and `StartWorker` as functions.
- `Guarantees`: lemmas about the trace.
- `Worker`: the worker's loops as methods, proved equal to `StartWorker`.
- `Cluster`: the worker count and the fork/exit counter.

Facts about `server.ts` that the model follows:

- The initialiser is `projects/{name}/startup.ts`.
- Both phases iterate over every entry of `projects/`, plain files included.
  A plain file entry has no `startup.ts` and no `routes`, and
  `InertProjectContributesNothing` shows that such an entry changes nothing.
- `routes` is probed with `lstat`. A symbolic link to a directory therefore
  counts as "not a directory", and its routes are not mounted.
- Both `readdirSync` calls sit inside the one `try` whose `catch` exits with
  code 1, so a listing that throws ends start-up like a failing import.

## Model

The rules themselves are functions without rows of their own; the lemmas
below state what they do:

- `Routes.IsRouteFile` models the `.ts` / `.d.ts` test (server.ts:85).
- `Routes.BaseName` models `replace('.ts', '')` (server.ts:86).
- `Routes.Prefix` models the prefix rule (server.ts:87-88), and
  `Routes.ParsePrefix` is its inverse.
- `Loader.InitEvents` and `Loader.Phase1` model the Phase 1 loop
  (server.ts:63-77).
- `Loader.FileImports`, `Loader.ProjectImports` and `Loader.Imports` model
  the steps of the Phase 2 loops (server.ts:80-97).
- `Loader.RegisterAll` models registering them until one throws
  (server.ts:91-93).

| member | source | states |
|---|---|---|
| Text.IndexOf | server.ts:86 | the result is the first position where the pattern occurs, and it is absent exactly when the pattern does not occur |
| Text.RemoveFirst | server.ts:86 | `replace` with a string pattern: with no occurrence the string is unchanged; otherwise the result with the pattern put back at its first occurrence is the original, and the result is shorter by the pattern's length |
| Routes.RouteFileOfStem | server.ts:85 | a name `{stem}.ts` is a route file exactly when the stem does not end in `.d` |
| Routes.RouteFileHasStem | server.ts:85 | every route file is a stem not ending in `.d`, followed by `.ts` |
| Routes.DeclarationFileExcluded | server.ts:85 | a `.d.ts` declaration file is never a route file |
| Routes.BaseNameOfStem | server.ts:85-86 | when `.ts` occurs only as the extension, the mount name is the file name without the extension |
| Routes.PlainStemBaseName | server.ts:86 | a file `{stem}.ts` whose stem has no `.` is mounted as `stem` |
| Routes.BaseNameCutsFirstOccurrence | server.ts:86 | `replace` removes the first `.ts`, not the extension: `data.tsv.ts` is mounted as `datav.ts` |
| Routes.BaseNameCollision | server.ts:85-86 | two different route files (`x.tsy.ts`, `xy.ts.ts`) receive the same mount name |
| Routes.PrefixRoundTrip | server.ts:87-88 | the prefix can be read back: for separator-free names, `ParsePrefix` returns the project and mount name the prefix was built from, with `index` collapsed to `/{project}` |
| Routes.PrefixInjective | server.ts:87-88 | different projects or different mount names never share a prefix |
| Routes.DistinctFilesDistinctPrefixes | server.ts:85-88 | two different route files of one project, each with `.ts` only as its extension, get different prefixes |
| Routes.ShopIndexExample | server.ts:88 | `shop/routes/index.ts` is mounted at `/shop` |
| Routes.ShopCatalogExample | server.ts:87 | `shop/routes/catalog.ts` is mounted at `/shop/catalog` |
| Loader.Phase1OnlyInits | server.ts:62-77 | Phase 1 emits only initialiser events, and no more events than projects |
| Loader.RegisterAllStops | server.ts:84-93 | registrations are the longest run of successful steps at the front, in order, each under its prefix; the outcome is aborted exactly when some step fails, and then the first step not registered is a failing one |
| Loader.StartWorker | server.ts:56-110 | the trace ends in exactly one `Listen` or `Abort`; every initialiser event precedes every registration; the worker listens exactly when the trace ends in `Listen`, only if `listen` succeeds, and otherwise has exit code 1; without `projects/` the trace is a single event; a `projects/` that cannot be listed gives exit code 1 at once |
| Guarantees.Phase1Concat | server.ts:63-77 | Phase 1 over a listing is Phase 1 over each part of it |
| Guarantees.Phase1Isolation | server.ts:66-75 | for given outcomes of each initialiser, a project contributes at most one event of its own, and the projects before and after it contribute the events they produce on their own |
| Guarantees.Phase1Inits | server.ts:66-72 | `Init(n)` appears exactly when a project named `n` has an initialiser that runs to completion |
| Guarantees.Phase1Errors | server.ts:66-75 | `InitError(n)` appears exactly when a project named `n` has an initialiser whose import or call throws |
| Guarantees.FileImportsConcat | server.ts:84-97 | the imports of a folder listing are the imports of its parts, in order |
| Guarantees.ImportsConcat | server.ts:80-99 | the steps of a project listing are the steps of its parts, in order |
| Guarantees.FileImportsCount | server.ts:84-85 | a folder yields exactly one import per route file |
| Guarantees.FileImportsMembers | server.ts:84-91 | an import is attempted exactly when some route file of the folder produces it |
| Guarantees.RegistrationsOfRegisters | server.ts:93 | reading the registrations back out of the `Register` events gives the prefixes in order |
| Guarantees.WorkerRegistrations | server.ts:79-99 | the `Register` events of a worker's trace are exactly what Phase 2 registered |
| Guarantees.SameLoading | server.ts:56-110 | start-up depends on the listing only through Phase 1's events and Phase 2's steps |
| Guarantees.RegistersInOrder | server.ts:80-93 | the registrations of a worker's trace follow project-listing then file-listing order, each under its step's prefix, and every one of them is a step that succeeded |
| Guarantees.StopsShortOnlyOnFailure | server.ts:91-109 | when registration stops short of the last step, the next step is a failing one, the worker exits with code 1, and the trace has no `Listen` |
| Guarantees.AllRegisteredListens | server.ts:104-109 | when every step is registered, the worker listens exactly when `listen` succeeds |
| Guarantees.ImportFailureIsFatal | server.ts:91-109 | one unimportable route file of a scanned project makes the worker exit with code 1 without listening, whatever else succeeds |
| Guarantees.UnlistableRoutesAreFatal | server.ts:81-109 | a non-template project whose `routes` directory cannot be listed makes the worker exit with code 1 without listening, registering nothing of that project or any later one |
| Guarantees.UnreadableProjectsFolder | server.ts:59-109 | a `projects/` folder whose listing throws gives the trace `Abort` alone and exit code 1 |
| Guarantees.AllImportsSucceed | server.ts:80-104 | when every step succeeds, the registered prefixes are exactly the steps' prefixes in order, and the worker listens exactly when `listen` succeeds |
| Guarantees.AbortedWorker | server.ts:91-109 | once Phase 2 aborts, the worker exits with code 1 and its trace has no `Listen` |
| Guarantees.ImportsAround | server.ts:80-99 | a listing's steps are those before a project, then its own, then those after it |
| Guarantees.AbsentProjectsFolder | server.ts:59-109 | without `projects/`, the trace is `Listen` alone, or `Abort` alone when `listen` fails |
| Guarantees.ImportsIgnoreStartup | server.ts:80-99 | Phase 2's steps do not depend on the initialisers' outcomes |
| Guarantees.InitFailuresDoNotAffectRoutes | server.ts:66-99 | for given outcomes of each route file and of `listen`, every outcome of the initialisers registers the same routes and ends the worker with the same status |
| Guarantees.TemplateRoutesIgnored | server.ts:82 | the `routes` of `template` are never looked at: replacing them leaves start-up unchanged |
| Guarantees.FileImportsOutsideTemplate | server.ts:82-88 | every import of a non-template folder parses back to that project, and so never to `template` |
| Guarantees.ImportsOutsideTemplate | server.ts:82-88 | with well-formed names, no step of a listing belongs to `template` |
| Guarantees.TemplateNeverRegisters | server.ts:82 | no registered prefix belongs to the `template` project |
| Guarantees.TemplateStillInitialises | server.ts:63-72 | the `template` initialiser still runs in Phase 1 |
| Guarantees.InertProjectContributesNothing | server.ts:63-99 | an entry with no `startup.ts` whose `routes` Phase 2 does not scan (missing, not a directory, or `template`'s) leaves start-up exactly as if it were absent |
| Worker.RunWorker | server.ts:56-110 | the worker's loops, written as the source writes them, produce exactly `StartWorker`'s trace and status |
| Worker.RunPhase1 | server.ts:62-77 | the Phase 1 loop produces `Phase1` |
| Worker.RunPhase2 | server.ts:79-99 | the Phase 2 loop, stopping at the first routes listing or import that fails, produces `Phase2` |
| Worker.RegisterFolder | server.ts:83-97 | the loop over one routes folder registers what `RegisterAll` of its imports registers, and fails exactly when that aborts |
| Worker.RegisterAllConcat | server.ts:80-97 | registering a concatenation registers the first part, then the second part only if the first did not abort |
| Cluster.WorkerCount | server.ts:15-17 | the configured count when positive, else the CPU count; positive exactly when either is |
| Cluster.ForkWorkers | server.ts:28-30 | start-up forks exactly the worker count: that many workers are live, each came from one fork, and none has died or been replaced |
| Cluster.Step | server.ts:33-36 | no signal changes the number of worker slots (live plus awaiting replacement), nor the excess of forks over handled exits |
| Cluster.RunKeepsInv | server.ts:28-36 | every run keeps live plus pending equal to the worker count, and forks equal to the count plus handled exits; live never exceeds the count and returns to it once no exit is pending |
| Cluster.RunCounts | server.ts:33-36 | after a run, forks and handled exits have each grown by the number of exit notifications |
| Cluster.DrainRestores | server.ts:33-36 | handling every pending exit brings the live count back to the worker count |
| Cluster.FourCoreExample | server.ts:15-36 | with no setting on four CPUs, two handled crashes leave four live workers after six forks |

## Left out

- Filesystem calls (`existsSync`, `readdirSync`, `lstatSync`) and `import()`: the model takes their outcomes as data (`Folder`, `Project`, `RoutesPath`, `RouteFile`, `Startup`). Of these only the two `readdirSync` listings are modelled as able to throw; `existsSync` never throws, and an `lstatSync` that throws is not modelled.
- The Fastify instance, CORS and JWT plugin options, and `server.register` internals. A registration is only a `Register(prefix)` event.
- `listen`, port 3000 and port sharing: `listen` is reduced to the input `listenOk`. Plugin errors that Fastify reports at `listen` are folded into `listenOk = false`.
- What an initialiser does to the shared server, the file system or the process. An initialiser could make a later project's initialiser throw (a duplicate `server.decorate`), change what Phase 2 finds or imports, or make `listen` fail (a failing plugin). The model takes every initialiser, route file and `listen` outcome as an independent input, so `Phase1Isolation`, `ImportsIgnoreStartup` and `InitFailuresDoNotAffectRoutes` hold for given outcomes, not across such interference.
- Logging (`console.*`, `server.log`), `dotenv`, and the JWT secret fallback: these have no effect on the trace beyond the events above.
- Parsing `FASTIFY_CLUSTER_WORKERS` with `Number(...) || 0`: the configured count arrives as an integer. A fractional value, which would make the fork loop run up to the next integer, is floating-point behaviour and is not modelled.
- Process creation, OS load balancing, and the concurrency of workers: the primary is an abstract counter. A fork that fails to spawn is not modelled.
- Asynchrony: awaits are taken in program order. An initialiser that never settles is not modelled.
- `projects/template/routes/templateRoutes.ts` declares a constant GET handler with no logic. It is not part of this model beyond the `template` exclusion.
