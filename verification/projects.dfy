/** The `projects/` tree as the worker sees it at start-up, with every
    filesystem probe and dynamic import replaced by its outcome, and the events
    the start-up sequence produces. */
module Projects {

  /** What Phase 1 finds for `projects/{name}/startup.ts`. */
  datatype Startup =
    | NoStartup      // the file does not exist
    | ImportFails    // `import(startupFile)` throws
    | NotCallable    // the default export is missing or not a function
    | Completes      // the default export is called with the server and returns
    | Throws         // the default export is called and throws

  /** One entry of `projects/{name}/routes/`, in listing order. `imports` is
      false when `import(filePath)` throws, and also when the module's default
      export is not a plugin, so that `server.register` throws at once. */
  datatype RouteFile = RouteFile(name: string, imports: bool)

  /** What `projects/{name}/routes` is: absent, present but not a directory
      (a plain file or a symbolic link, as `lstat` reports it), a directory
      whose listing throws (`readdirSync` fails, for instance on EACCES), or a
      directory with its entries. */
  datatype RoutesPath = Missing | NotDirectory | Unlistable | Directory(files: seq<RouteFile>)

  /** One entry of `projects/`, identified by its name. */
  datatype Project = Project(name: string, startup: Startup, routes: RoutesPath)

  /** The `projects/` folder itself: absent, present but its listing throws
      (`readdirSync` fails, for instance with ENOTDIR on a plain file), or its
      entries in listing order. */
  datatype Folder = Absent | Unreadable | Present(projects: seq<Project>)

  /** Observable steps of a worker's start-up. `Abort` is the logged error
      followed by `process.exit(1)`; `Listen` is a successful `listen`. */
  datatype Event =
    | Init(project: string)
    | InitError(project: string)
    | Register(prefix: string)
    | Abort
    | Listen

  predicate IsInitEvent(e: Event) {
    e.Init? || e.InitError?
  }

  predicate IsFinal(e: Event) {
    e.Abort? || e.Listen?
  }
}
