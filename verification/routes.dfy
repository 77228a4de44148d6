/** The pure rules of route registration: which files of a routes folder are
    route modules, the name a file is mounted under, and the prefix a project
    and that name produce. */
module Routes {
  import opened Text

  /** The reserved project whose routes are never mounted. */
  const Template: string := "template"

  /** The file name mounted at the project root instead of under its own name. */
  const Index: string := "index"

  /** A route module is a `.ts` file that is not a `.d.ts` declaration file. */
  predicate IsRouteFile(file: string) {
    EndsWith(file, ".ts") && !EndsWith(file, ".d.ts")
  }

  /** The mount name of a route file: its name with the FIRST `.ts` removed. */
  function BaseName(file: string): string {
    RemoveFirst(file, ".ts")
  }

  /** `/{project}/{base}`, collapsed to `/{project}` for the index file. */
  function Prefix(project: string, base: string): string {
    if base == Index then "/" + project else "/" + project + "/" + base
  }

  /** A directory entry name never contains a path separator. */
  predicate IsSegment(name: string) {
    '/' !in name
  }

  /** The project and file name a prefix was mounted from. */
  datatype Mount = Mount(project: string, file: string)

  /** Reads a prefix back: the first segment names the project, the rest
      names the file, and a prefix with a single segment is the index file. */
  function ParsePrefix(prefix: string): Option<Mount> {
    if |prefix| == 0 || prefix[0] != '/' then None
    else
      var rest := prefix[1..];
      match IndexOf(rest, "/")
      case None => Some(Mount(rest, Index))
      case Some(k) => Some(Mount(rest[..k], rest[k + 1..]))
  }

  /** A name ending in `.ts` is a route file exactly when the part before
      `.ts` does not end in `.d`. */
  lemma RouteFileOfStem(stem: string)
    ensures IsRouteFile(stem + ".ts") <==> !EndsWith(stem, ".d")
  {
    var file := stem + ".ts";
    assert file[|file| - 3..] == ".ts";
    if |stem| >= 2 {
      assert file[|file| - 5..] == stem[|stem| - 2..] + ".ts";
    }
  }

  /** Every route file is some stem not ending in `.d`, followed by `.ts`. */
  lemma RouteFileHasStem(file: string)
    requires IsRouteFile(file)
    ensures file == file[..|file| - 3] + ".ts"
    ensures !EndsWith(file[..|file| - 3], ".d")
  {
    assert file == file[..|file| - 3] + file[|file| - 3..];
    RouteFileOfStem(file[..|file| - 3]);
  }

  /** When `.ts` occurs only as the extension, the mount name is the file
      name without its extension. */
  lemma BaseNameOfStem(stem: string)
    requires !Contains(stem, ".ts")
    ensures BaseName(stem + ".ts") == stem
  {
    var file := stem + ".ts";
    var n := |stem|;
    assert file[n..n + 3] == ".ts";
    forall j | 0 <= j < n
      ensures !OccursAt(file, ".ts", j)
    {
      if j + 3 <= n {
        assert file[j..j + 3] == stem[j..j + 3];
        assert !OccursAt(stem, ".ts", j);
      } else if j + 3 <= n + 3 {
        assert file[n] == '.';
        assert file[j..j + 3][n - j] == file[n];
      }
    }
    IndexOfFirst(file, ".ts", n);
    var r := BaseName(file);
    assert r[..n] + ".ts" + r[n..] == file;
    assert r[..n] == stem;
  }

  /** `replace` cuts the first `.ts`, not the extension: `data.tsv.ts` is
      mounted as `datav.ts`. */
  lemma BaseNameCutsFirstOccurrence()
    ensures IsRouteFile("data.tsv.ts")
    ensures BaseName("data.tsv.ts") == "datav.ts"
  {
    var file := "data.tsv.ts";
    assert file[4..7] == ".ts";
    forall j | 0 <= j < 4
      ensures !OccursAt(file, ".ts", j)
    {
      assert file[j] != '.';
      assert file[j..j + 3][0] == file[j];
    }
    IndexOfFirst(file, ".ts", 4);
    assert file[..4] + file[7..] == "datav.ts";
  }

  /** Two different route files of one folder can receive the same mount
      name, and so the same prefix. */
  lemma BaseNameCollision()
    ensures IsRouteFile("x.tsy.ts") && IsRouteFile("xy.ts.ts")
    ensures BaseName("x.tsy.ts") == "xy.ts" && BaseName("xy.ts.ts") == "xy.ts"
  {
    CutInsideName();
    CutBeforeExtension();
  }

  lemma CutInsideName()
    ensures BaseName("x.tsy.ts") == "xy.ts"
  {
    var a := "x.tsy.ts";
    assert a[1..4] == ".ts";
    assert a[0..3][0] == a[0];
    IndexOfFirst(a, ".ts", 1);
    assert a[..1] + a[4..] == "xy.ts";
  }

  lemma CutBeforeExtension()
    ensures BaseName("xy.ts.ts") == "xy.ts"
  {
    var b := "xy.ts.ts";
    assert b[2..5] == ".ts";
    forall j | 0 <= j < 2
      ensures !OccursAt(b, ".ts", j)
    {
      assert b[j..j + 3][0] == b[j];
    }
    IndexOfFirst(b, ".ts", 2);
    assert b[..2] + b[5..] == "xy.ts";
  }

  /** The prefix determines the project and the mount name it came from:
      `ParsePrefix` inverts `Prefix` for separator-free names. */
  lemma PrefixRoundTrip(project: string, base: string)
    requires IsSegment(project) && IsSegment(base)
    ensures ParsePrefix(Prefix(project, base)) == Some(Mount(project, base))
  {
    var prefix := Prefix(project, base);
    var rest := prefix[1..];
    var n := |project|;
    forall j | 0 <= j < n
      ensures !OccursAt(rest, "/", j)
    {
      assert rest[j] == project[j];
      assert rest[j..j + 1][0] == rest[j];
    }
    if base == Index {
      assert rest == project;
      assert !Contains(rest, "/");
    } else {
      assert rest == project + "/" + base;
      assert rest[n..n + 1] == "/";
      IndexOfFirst(rest, "/", n);
      assert rest[..n] == project;
      assert rest[n + 1..] == base;
    }
  }

  /** Different projects, or different mount names, never share a prefix. */
  lemma PrefixInjective(p1: string, b1: string, p2: string, b2: string)
    requires IsSegment(p1) && IsSegment(b1) && IsSegment(p2) && IsSegment(b2)
    requires Prefix(p1, b1) == Prefix(p2, b2)
    ensures p1 == p2 && b1 == b2
  {
    PrefixRoundTrip(p1, b1);
    PrefixRoundTrip(p2, b2);
  }

  /** Removing `.ts` cannot introduce a separator. */
  lemma BaseNameIsSegment(file: string)
    requires IsSegment(file)
    ensures IsSegment(BaseName(file))
  {
  }

  /** Two different route files of one project, each with `.ts` only as its
      extension, are mounted under different prefixes. */
  lemma DistinctFilesDistinctPrefixes(project: string, f1: string, f2: string)
    requires IsSegment(project) && IsSegment(f1) && IsSegment(f2)
    requires IsRouteFile(f1) && IsRouteFile(f2) && f1 != f2
    requires !Contains(f1[..|f1| - 3], ".ts") && !Contains(f2[..|f2| - 3], ".ts")
    ensures Prefix(project, BaseName(f1)) != Prefix(project, BaseName(f2))
  {
    RouteFileHasStem(f1);
    RouteFileHasStem(f2);
    BaseNameOfStem(f1[..|f1| - 3]);
    BaseNameOfStem(f2[..|f2| - 3]);
    BaseNameIsSegment(f1);
    BaseNameIsSegment(f2);
    if Prefix(project, BaseName(f1)) == Prefix(project, BaseName(f2)) {
      PrefixInjective(project, BaseName(f1), project, BaseName(f2));
    }
  }

  /** Worked example: `shop/routes/index.ts` is mounted at `/shop`. */
  lemma ShopIndexExample()
    ensures Prefix("shop", BaseName("index.ts")) == "/shop"
  {
    assert BaseName("index.ts") == "index" by {
      PlainStemBaseName("index");
      assert "index" + ".ts" == "index.ts";
    }
  }

  /** Worked example: `shop/routes/catalog.ts` is mounted at `/shop/catalog`. */
  lemma ShopCatalogExample()
    ensures Prefix("shop", BaseName("catalog.ts")) == "/shop/catalog"
  {
    assert BaseName("catalog.ts") == "catalog" by {
      PlainStemBaseName("catalog");
      assert "catalog" + ".ts" == "catalog.ts";
    }
    CatalogPrefix();
  }

  lemma CatalogPrefix()
    ensures Prefix("shop", "catalog") == "/shop/catalog"
  {
  }

  /** A file named `{stem}.ts` whose stem has no `.` is mounted as `stem`. */
  lemma PlainStemBaseName(stem: string)
    requires '.' !in stem
    ensures BaseName(stem + ".ts") == stem
  {
    NoTsIn(stem);
    BaseNameOfStem(stem);
  }

  /** A declaration file such as `types.d.ts` is not a route file. */
  lemma DeclarationFileExcluded(stem: string)
    ensures !IsRouteFile(stem + ".d.ts")
  {
    var file := stem + ".d.ts";
    assert file[|file| - 5..] == ".d.ts";
  }

  /** A name without a `.` contains no `.ts`. */
  lemma NoTsIn(stem: string)
    requires '.' !in stem
    ensures !Contains(stem, ".ts")
  {
    forall j | 0 <= j <= |stem| - 3
      ensures !OccursAt(stem, ".ts", j)
    {
      assert stem[j..j + 3][0] == stem[j];
    }
  }
}
