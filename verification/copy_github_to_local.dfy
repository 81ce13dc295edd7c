/**
 * `place_files` of backend/utilities/copy_github_to_local.py: walk the clone,
 * route each directory to the web or the back-end tree by a substring test on
 * its path, copy the files that are new or newer there, and after each copy run
 * the hooks the file calls for (`pipenv install` for a `Pipfile`, then the
 * restart `check_for_restart_needed` chooses). The walk, the file system's
 * answers (does the target exist, the modification times, did the copy
 * succeed) are inputs; what the run does is returned as a log of actions.
 */
module CopyGithubToLocal {
  import opened Wrappers
  import opened PyStr

  /** The clone and the two deployment trees. */
  const CloneDir := "/home/bsea/github"
  const DestWww := "/var/www/em"
  const DestBack := "/home/bsea/em"

  /** The files whose change needs the web app reloaded by touching its WSGI file. */
  const WsgiTriggers := {"EnshittificationMetrics.py", "routes.py", "models.py", "forms.py", "Pipfile"}

  /** One file as the walk lists it, with what the file system says about it. */
  datatype FileEntry = FileEntry(
    name: string,
    dstExists: bool,   // `os.path.exists(dst_file)`
    srcMtime: int,     // `os.path.getmtime(src_file)`, in whole units
    dstMtime: int,     // `os.path.getmtime(dst_file)` when the target exists
    copyOk: bool)      // the copy (`shutil.copy2` or `cp`) succeeded

  /**
   * One directory of the walk: its path relative to the clone (`.` for the clone
   * itself, as `os.path.relpath` gives it), whether its target directory exists,
   * and its files.
   */
  datatype DirEntry = DirEntry(rel: string, dstDirExists: bool, files: seq<FileEntry>)

  /** What the run does, in order. */
  datatype Action =
    | MakeDirs(dir: string)              // `os.makedirs`
    | Copy(src: string, dst: string)     // a copy that succeeded
    | PipenvInstall(dir: string)         // `pipenv install` where the Pipfile landed
    | ReloadFlag                         // touch `utilities/apache_reload_needed`
    | TouchWsgi                          // touch `middleapp.wsgi`
    | DbUpgrade                          // `pipenv run flask db upgrade`

  /** The path `os.walk` yields for a directory: the clone itself, or the clone joined with the relative path. */
  function DirPath(src: string, rel: string): string {
    if rel == "." then src else Join(src, rel)
  }

  /**
   * The tree a directory goes to: `www` anywhere in its path wins, then
   * `backend`; a directory with neither is skipped.
   */
  function Route(dirpath: string, destWww: string, destBack: string): (r: Option<string>)
    ensures Contains(dirpath, "www") ==> r == Some(destWww)
    ensures !Contains(dirpath, "www") && Contains(dirpath, "backend") ==> r == Some(destBack)
    ensures r.None? <==> !Contains(dirpath, "www") && !Contains(dirpath, "backend")
  {
    if Contains(dirpath, "www") then Some(destWww)
    else if Contains(dirpath, "backend") then Some(destBack)
    else None
  }

  /** The relative path without its first component: empty when there is only one. */
  function StripFirst(rel: string): string {
    var parts := Split(rel);
    if |parts| > 1 then JoinAll(parts[1..]) else ""
  }

  /** `dst_dirpath`: the target tree joined with the stripped path. */
  function DstDir(dst: string, rel: string): string {
    Join(dst, StripFirst(rel))
  }

  /** A file is copied when its target is missing, or older than the source. */
  predicate ShouldCopy(f: FileEntry) {
    !f.dstExists || f.srcMtime > f.dstMtime
  }

  /** The copy happened: it was due and it succeeded. */
  predicate Copies(f: FileEntry) {
    ShouldCopy(f) && f.copyOk
  }

  /**
   * The restart a copied file calls for: a database upgrade for anything under
   * a `/migrations/version` directory (the pattern `.*\/migrations/versions*`
   * searched in the directory path), else by the file name.
   */
  function RestartFor(dirpath: string, name: string): (r: Option<Action>)
    ensures Contains(dirpath, "/migrations/version") ==> r == Some(DbUpgrade)
    ensures !Contains(dirpath, "/migrations/version") && name == "middleapp.wsgi" ==> r == Some(ReloadFlag)
    ensures !Contains(dirpath, "/migrations/version") && name in WsgiTriggers ==> r == Some(TouchWsgi)
    ensures r.None? <==> !Contains(dirpath, "/migrations/version") && name != "middleapp.wsgi" && name !in WsgiTriggers
  {
    if Contains(dirpath, "/migrations/version") then Some(DbUpgrade)
    else if name == "middleapp.wsgi" then Some(ReloadFlag)
    else if name in WsgiTriggers then Some(TouchWsgi)
    else None
  }

  /** What one file causes: nothing unless it was copied; then the copy, `pipenv install` for a Pipfile, and the restart. */
  function FileLog(dirpath: string, dstDir: string, f: FileEntry): seq<Action> {
    if !Copies(f) then []
    else
      [Copy(Join(dirpath, f.name), Join(dstDir, f.name))] +
      (if f.name == "Pipfile" then [PipenvInstall(dstDir)] else []) +
      (match RestartFor(dirpath, f.name) case None => [] case Some(a) => [a])
  }

  function FilesLog(dirpath: string, dstDir: string, files: seq<FileEntry>): seq<Action>
    decreases |files|
  {
    if files == [] then []
    else FilesLog(dirpath, dstDir, files[..|files| - 1]) + FileLog(dirpath, dstDir, files[|files| - 1])
  }

  function FilesCopied(files: seq<FileEntry>): nat
    decreases |files|
  {
    if files == [] then 0
    else FilesCopied(files[..|files| - 1]) + if Copies(files[|files| - 1]) then 1 else 0
  }

  /** What one directory causes: nothing when it is not routed; else `makedirs` if needed, then its files. */
  function DirLog(src: string, destWww: string, destBack: string, d: DirEntry): seq<Action> {
    var dirpath := DirPath(src, d.rel);
    match Route(dirpath, destWww, destBack)
    case None => []
    case Some(dst) =>
      var dstDir := DstDir(dst, d.rel);
      (if d.dstDirExists then [] else [MakeDirs(dstDir)]) + FilesLog(dirpath, dstDir, d.files)
  }

  function DirCopied(src: string, destWww: string, destBack: string, d: DirEntry): nat {
    if Route(DirPath(src, d.rel), destWww, destBack).None? then 0 else FilesCopied(d.files)
  }

  function WalkLog(src: string, destWww: string, destBack: string, walk: seq<DirEntry>): seq<Action>
    decreases |walk|
  {
    if walk == [] then []
    else WalkLog(src, destWww, destBack, walk[..|walk| - 1]) + DirLog(src, destWww, destBack, walk[|walk| - 1])
  }

  function WalkCopied(src: string, destWww: string, destBack: string, walk: seq<DirEntry>): nat
    decreases |walk|
  {
    if walk == [] then 0
    else WalkCopied(src, destWww, destBack, walk[..|walk| - 1]) + DirCopied(src, destWww, destBack, walk[|walk| - 1])
  }

  /** Every file the walk lists. */
  function WalkFiles(walk: seq<DirEntry>): nat
    decreases |walk|
  {
    if walk == [] then 0 else WalkFiles(walk[..|walk| - 1]) + |walk[|walk| - 1].files|
  }

  /**
   * `place_files`: the number of files copied and the actions taken, in walk
   * order, directory by directory and file by file.
   */
  method PlaceFiles(src: string, destWww: string, destBack: string, walk: seq<DirEntry>)
    returns (filesCopied: nat, log: seq<Action>)
    ensures filesCopied == WalkCopied(src, destWww, destBack, walk)
    ensures log == WalkLog(src, destWww, destBack, walk)
  {
    filesCopied := 0;
    log := [];
    var k := 0;
    while k < |walk|
      invariant 0 <= k <= |walk|
      invariant filesCopied == WalkCopied(src, destWww, destBack, walk[..k])
      invariant log == WalkLog(src, destWww, destBack, walk[..k])
    {
      WalkStep(src, destWww, destBack, walk, k);
      var copied, dirLog := PlaceDir(src, destWww, destBack, walk[k]);
      filesCopied := filesCopied + copied;
      log := log + dirLog;
      k := k + 1;
    }
    assert walk[..k] == walk;
  }

  /** The walk's count and log grow by one directory's at a time. */
  lemma WalkStep(src: string, destWww: string, destBack: string, walk: seq<DirEntry>, k: nat)
    requires k < |walk|
    ensures WalkCopied(src, destWww, destBack, walk[..k + 1]) ==
            WalkCopied(src, destWww, destBack, walk[..k]) + DirCopied(src, destWww, destBack, walk[k])
    ensures WalkLog(src, destWww, destBack, walk[..k + 1]) ==
            WalkLog(src, destWww, destBack, walk[..k]) + DirLog(src, destWww, destBack, walk[k])
  {
    assert walk[..k + 1][..k] == walk[..k];
  }

  /** One directory of the walk: route it, make its target if missing, then place its files. */
  method PlaceDir(src: string, destWww: string, destBack: string, d: DirEntry) returns (copied: nat, log: seq<Action>)
    ensures copied == DirCopied(src, destWww, destBack, d)
    ensures log == DirLog(src, destWww, destBack, d)
  {
    copied := 0;
    log := [];
    var dirpath := DirPath(src, d.rel);
    var dst := Route(dirpath, destWww, destBack);
    if dst.Some? {
      var dstDir := DstDir(dst.value, d.rel);
      if !d.dstDirExists {
        log := [MakeDirs(dstDir)];
      }
      var filesLog;
      copied, filesLog := PlaceDirFiles(dirpath, dstDir, d.files);
      log := log + filesLog;
    }
  }

  /** The inner loop of `place_files` over one routed directory's files. */
  method PlaceDirFiles(dirpath: string, dstDir: string, files: seq<FileEntry>) returns (copied: nat, log: seq<Action>)
    ensures copied == FilesCopied(files)
    ensures log == FilesLog(dirpath, dstDir, files)
  {
    copied := 0;
    log := [];
    var m := 0;
    while m < |files|
      invariant 0 <= m <= |files|
      invariant copied == FilesCopied(files[..m])
      invariant log == FilesLog(dirpath, dstDir, files[..m])
    {
      assert files[..m + 1][..m] == files[..m];
      var done, fileLog := PlaceFile(dirpath, dstDir, files[m]);
      if done {
        copied := copied + 1;
      }
      log := log + fileLog;
      m := m + 1;
    }
    assert files[..m] == files;
  }

  /**
   * One file of a routed directory: copy it when its target is missing or older
   * (a failed copy is skipped), then run its hooks.
   */
  method PlaceFile(dirpath: string, dstDir: string, f: FileEntry) returns (done: bool, log: seq<Action>)
    ensures done == Copies(f)
    ensures log == FileLog(dirpath, dstDir, f)
  {
    log := [];
    done := false;
    if !f.dstExists {
      done := f.copyOk;
    } else if f.srcMtime > f.dstMtime {
      done := f.copyOk;
    }
    if !done {
      return;
    }
    log := [Copy(Join(dirpath, f.name), Join(dstDir, f.name))];
    if f.name == "Pipfile" {
      log := log + [PipenvInstall(dstDir)];
    }
    var restart := RestartFor(dirpath, f.name);
    if restart.Some? {
      log := log + [restart.value];
    }
  }

  // ----- Properties -----

  /** How many copies a log records. */
  function CopyCount(log: seq<Action>): nat
    decreases |log|
  {
    if log == [] then 0 else CopyCount(log[..|log| - 1]) + if log[|log| - 1].Copy? then 1 else 0
  }

  lemma {:induction false} CopyCountAppend(a: seq<Action>, b: seq<Action>)
    ensures CopyCount(a + b) == CopyCount(a) + CopyCount(b)
    decreases |b|
  {
    if b == [] {
      assert a + b == a;
    } else {
      CopyCountAppend(a, b[..|b| - 1]);
      assert (a + b)[..|a + b| - 1] == a + b[..|b| - 1];
    }
  }

  /** One file adds one copy to the log exactly when it counts as copied. */
  lemma FileLogCopies(dirpath: string, dstDir: string, f: FileEntry)
    ensures CopyCount(FileLog(dirpath, dstDir, f)) == if Copies(f) then 1 else 0
  {
    var l := FileLog(dirpath, dstDir, f);
    if Copies(f) {
      var c: seq<Action> := [Copy(Join(dirpath, f.name), Join(dstDir, f.name))];
      var p: seq<Action> := if f.name == "Pipfile" then [PipenvInstall(dstDir)] else [];
      var r: seq<Action> := match RestartFor(dirpath, f.name) case None => [] case Some(a) => [a];
      assert l == c + p + r;
      CopyCountAppend(c + p, r);
      CopyCountAppend(c, p);
      assert CopyCount(c) == 1 by { assert c[..0] == []; }
      assert CopyCount(p) == 0 by { if p != [] { assert p[..0] == []; } }
      assert CopyCount(r) == 0 by { if r != [] { assert r[..0] == []; } }
    }
  }

  lemma {:induction false} FilesLogCopies(dirpath: string, dstDir: string, files: seq<FileEntry>)
    ensures CopyCount(FilesLog(dirpath, dstDir, files)) == FilesCopied(files)
    decreases |files|
  {
    if files != [] {
      var init := files[..|files| - 1];
      FilesLogCopies(dirpath, dstDir, init);
      CopyCountAppend(FilesLog(dirpath, dstDir, init), FileLog(dirpath, dstDir, files[|files| - 1]));
      FileLogCopies(dirpath, dstDir, files[|files| - 1]);
    }
  }

  lemma DirLogCopies(src: string, destWww: string, destBack: string, d: DirEntry)
    ensures CopyCount(DirLog(src, destWww, destBack, d)) == DirCopied(src, destWww, destBack, d)
  {
    var dirpath := DirPath(src, d.rel);
    var dst := Route(dirpath, destWww, destBack);
    if dst.Some? {
      var dstDir := DstDir(dst.value, d.rel);
      var made: seq<Action> := if d.dstDirExists then [] else [MakeDirs(dstDir)];
      CopyCountAppend(made, FilesLog(dirpath, dstDir, d.files));
      assert CopyCount(made) == 0 by { if made != [] { assert made[..0] == []; } }
      FilesLogCopies(dirpath, dstDir, d.files);
    }
  }

  /** `files_copied` counts exactly the copies that succeeded: one per `Copy` in the log. */
  lemma {:induction false} CounterIsCopies(src: string, destWww: string, destBack: string, walk: seq<DirEntry>)
    ensures CopyCount(WalkLog(src, destWww, destBack, walk)) == WalkCopied(src, destWww, destBack, walk)
    decreases |walk|
  {
    if walk != [] {
      var init := walk[..|walk| - 1];
      CounterIsCopies(src, destWww, destBack, init);
      CopyCountAppend(WalkLog(src, destWww, destBack, init), DirLog(src, destWww, destBack, walk[|walk| - 1]));
      DirLogCopies(src, destWww, destBack, walk[|walk| - 1]);
    }
  }

  lemma {:induction false} FilesCopiedBound(files: seq<FileEntry>)
    ensures FilesCopied(files) <= |files|
    decreases |files|
  {
    if files != [] {
      FilesCopiedBound(files[..|files| - 1]);
    }
  }

  /** The counter never exceeds the number of files the walk lists. */
  lemma {:induction false} CounterBound(src: string, destWww: string, destBack: string, walk: seq<DirEntry>)
    ensures WalkCopied(src, destWww, destBack, walk) <= WalkFiles(walk)
    decreases |walk|
  {
    if walk != [] {
      CounterBound(src, destWww, destBack, walk[..|walk| - 1]);
      FilesCopiedBound(walk[|walk| - 1].files);
    }
  }

  /**
   * Hooks only follow a copy: a file that was not copied (up to date, or the
   * copy failed) causes nothing, and a copied file's actions open with its copy,
   * the only copy among them.
   */
  lemma HooksFollowCopy(dirpath: string, dstDir: string, f: FileEntry)
    ensures FileLog(dirpath, dstDir, f) == [] <==> !Copies(f)
    ensures Copies(f) ==> FileLog(dirpath, dstDir, f)[0] == Copy(Join(dirpath, f.name), Join(dstDir, f.name))
    ensures forall k :: 1 <= k < |FileLog(dirpath, dstDir, f)| ==> !FileLog(dirpath, dstDir, f)[k].Copy?
  {
  }

  /**
   * A copied Pipfile gets `pipenv install` in its target directory, and no
   * other file does; outside the migrations directories it also gets the WSGI
   * touch.
   */
  lemma PipfileHooks(dirpath: string, dstDir: string, f: FileEntry)
    requires Copies(f)
    ensures PipenvInstall(dstDir) in FileLog(dirpath, dstDir, f) <==> f.name == "Pipfile"
    ensures f.name == "Pipfile" && !Contains(dirpath, "/migrations/version") ==>
      FileLog(dirpath, dstDir, f) == [Copy(Join(dirpath, f.name), Join(dstDir, f.name)), PipenvInstall(dstDir), TouchWsgi]
  {
  }

  /**
   * The directory test comes first: any file copied into a migrations directory
   * triggers the database upgrade and no reload, whatever its name.
   */
  lemma MigrationsWin(dirpath: string, dstDir: string, f: FileEntry)
    requires Copies(f) && Contains(dirpath, "/migrations/version")
    ensures DbUpgrade in FileLog(dirpath, dstDir, f)
    ensures ReloadFlag !in FileLog(dirpath, dstDir, f) && TouchWsgi !in FileLog(dirpath, dstDir, f)
  {
  }

  /** Outside the migrations directories a file nobody listed causes no restart at all. */
  lemma OtherFilesNoRestart(dirpath: string, dstDir: string, f: FileEntry)
    requires Copies(f) && !Contains(dirpath, "/migrations/version")
    requires f.name != "middleapp.wsgi" && f.name !in WsgiTriggers
    ensures FileLog(dirpath, dstDir, f) == [Copy(Join(dirpath, f.name), Join(dstDir, f.name))]
  {
  }

  /** `sub in s` is false when some character of `sub` does not occur in `s`. */
  lemma NotContainsChar(s: string, sub: string, k: nat)
    requires k < |sub| && sub[k] !in s
    ensures !Contains(s, sub)
  {
    forall i | 0 <= i <= |s| - |sub|
      ensures !OccursAt(s, sub, i)
    {
      assert s[i..i + |sub|][k] == s[i + k];
    }
  }

  /** `sub` occurs in `a + sub + b`. */
  lemma ContainsMiddle(a: string, sub: string, b: string)
    ensures Contains(a + sub + b, sub)
  {
    assert OccursAt(a + sub + b, sub, |a|);
  }

  /**
   * Routing is by substring on the whole path: a back-end directory whose name
   * holds `www` goes to the web tree, and so does every directory of a clone
   * whose own path holds `www`.
   */
  lemma RouteBySubstring(a: string, b: string, destWww: string, destBack: string)
    ensures Route(a + "www" + b, destWww, destBack) == Some(destWww)
  {
    ContainsMiddle(a, "www", b);
  }

  /** The clone's own directory (and its `.git` and other top-level directories without either name) is skipped. */
  lemma CloneRootSkipped(destWww: string, destBack: string)
    ensures Route(DirPath(CloneDir, "."), destWww, destBack).None?
  {
    assert DirPath(CloneDir, ".") == CloneDir;
    assert 'w' !in CloneDir && 'k' !in CloneDir;
    NotContainsChar(CloneDir, "www", 0);
    NotContainsChar(CloneDir, "backend", 3);
  }

  /** A directory of the clone's `backend` tree goes to the back-end tree when nothing in its path holds a `w`. */
  lemma BackendTreeRouted(rest: string, destWww: string, destBack: string)
    requires 'w' !in rest
    ensures Route(CloneDir + "/backend" + rest, destWww, destBack) == Some(destBack)
  {
    var d := CloneDir + "/backend" + rest;
    assert 'w' !in CloneDir + "/backend";
    assert 'w' !in d;
    NotContainsChar(d, "www", 0);
    assert d == (CloneDir + "/") + "backend" + rest;
    ContainsMiddle(CloneDir + "/", "backend", rest);
  }

  /**
   * The target directory keeps the relative path after its first component:
   * nothing of a one-component path (the clone itself, `www`, `backend`), so
   * the target is the tree's root with a trailing `/`.
   */
  lemma DstDirStripsFirst(dst: string, rel: string)
    requires NormalRelative(rel)
    requires dst != "" && dst[|dst| - 1] != '/'
    ensures Find(rel, '/') == -1 ==> DstDir(dst, rel) == dst + "/"
    ensures Find(rel, '/') != -1 ==> DstDir(dst, rel) == dst + "/" + rel[Find(rel, '/') + 1..]
  {
    var i := Find(rel, '/');
    if i == -1 {
      assert Split(rel) == [rel];
    } else {
      FirstComponent(rel, i);
      var rest := rel[i + 1..];
      assert Split(rel)[1..] == Split(rest);
      JoinSplitRoundTrip(rest);
      assert rest != "" && rest[0] != '/' by {
        var j := Find(rest, '/');
        if j != -1 {
          FirstComponent(rest, j);
          assert rest[..j][0] == rest[0];
        }
      }
    }
  }
}
