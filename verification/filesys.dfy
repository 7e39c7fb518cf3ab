/** The file-system helpers the client uses: where its configuration file
    lives, and the directory walk of the synchronizer (create a directory if
    it is missing, enter it, and later go back up). Directories are modelled
    as the set of existing absolute paths, each a sequence of components,
    together with the working directory. */
module FileSys {
  import opened Wrappers
  import opened Strings

  const PathSeparator: char := '/'

  // ---------------------------------------------------------------------
  // get_home_directory and get_config_path

  /** `get_home_directory`: the password entry's home directory, or the empty
      string when there is no entry or no directory in it. */
  function HomeDirectory(pwDir: Option<string>): (home: string)
    ensures pwDir.None? ==> home == ""
    ensures pwDir.Some? ==> home == CString(pwDir.value)
  {
    match pwDir
    case None => ""
    case Some(dir) => CString(dir)
  }

  /** The home directory with a separator appended unless it is empty or
      already ends in one. */
  function DirPrefix(home: string): (r: string)
    ensures home <= r
    ensures home == "" ==> r == ""
    ensures home != "" ==> r[|r| - 1] == PathSeparator
    ensures |r| <= |home| + 1
    ensures home != "" && home[|home| - 1] == PathSeparator ==> r == home
    ensures home != "" && home[|home| - 1] != PathSeparator ==> r == home + [PathSeparator]
  {
    if home != "" && home[|home| - 1] != PathSeparator then home + [PathSeparator] else home
  }

  /** `get_config_path`: the file name joined to the home directory with
      exactly one separator between them, or the bare file name when there
      is no home directory. */
  function ConfigPath(pwDir: Option<string>, fname: string): (r: string)
    ensures var home, f := HomeDirectory(pwDir), CString(fname);
      && home <= r
      && |f| <= |r|
      && r[|r| - |f|..] == f
      && (home == "" ==> r == f)
      && (home != "" ==> |r| > |f| && r[|r| - |f| - 1] == PathSeparator)
      && |r| == |home| + |f| + (if home != "" && home[|home| - 1] != PathSeparator then 1 else 0)
  {
    DirPrefix(HomeDirectory(pwDir)) + CString(fname)
  }

  /** A home directory that already ends in the separator is not given a second one. */
  lemma DirPrefixIdempotent(home: string)
    ensures DirPrefix(DirPrefix(home)) == DirPrefix(home)
  {
  }

  /** The file name can be read back from the configuration path: it is what
      follows the last separator, whenever there is a home directory and the
      name itself holds no separator. */
  lemma ConfigPathFileName(pwDir: Option<string>, fname: string)
    requires HomeDirectory(pwDir) != ""
    requires PathSeparator !in CString(fname)
    ensures var r, f := ConfigPath(pwDir, fname), CString(fname);
      LastIndexOf(r, PathSeparator) == Some(|r| - |f| - 1) && r[|r| - |f|..] == f
  {
    var r, f := ConfigPath(pwDir, fname), CString(fname);
    var k := |r| - |f| - 1;
    assert r[k + 1..] == f;
    LastIndexOfIs(r, PathSeparator, k);
  }

  // ---------------------------------------------------------------------
  // create_dir_then_change and go_up

  /** The directories that exist and the process's working directory. */
  datatype Dirs = Dirs(existing: set<seq<string>>, cwd: seq<string>)

  /** The root exists, every directory's parent exists, and the working
      directory exists. */
  predicate WellFormed(fs: Dirs) {
    && [] in fs.existing
    && fs.cwd in fs.existing
    && forall p :: p in fs.existing && p != [] ==> p[..|p| - 1] in fs.existing
  }

  /** The directory containing `p`; the root is its own parent. */
  function Parent(p: seq<string>): (r: seq<string>)
    ensures p != [] ==> r == p[..|p| - 1]
    ensures p == [] ==> r == []
  {
    if p == [] then [] else p[..|p| - 1]
  }

  /** A single path component, which is all the synchronizer passes. */
  predicate IsComponent(name: string) {
    name != "" && PathSeparator !in name && NUL !in name
  }

  /** A component that names a child rather than `.` or `..`. */
  predicate IsChildName(name: string) {
    IsComponent(name) && name != "." && name != ".."
  }

  /** The directory a component names, relative to the working directory. */
  function Resolve(cwd: seq<string>, name: string): (p: seq<string>)
    requires IsComponent(name)
    ensures IsChildName(name) ==> p == cwd + [name]
    ensures name == "." ==> p == cwd
    ensures name == ".." ==> p == Parent(cwd)
  {
    if name == "." then cwd else if name == ".." then Parent(cwd) else cwd + [name]
  }

  /** `mkdir`: fails when the directory exists or its parent does not. */
  function MakeDir(fs: Dirs, p: seq<string>): (r: Dirs)
    ensures r.cwd == fs.cwd
    ensures p != [] && p !in fs.existing && Parent(p) in fs.existing ==> r.existing == fs.existing + {p}
    ensures p == [] || p in fs.existing || Parent(p) !in fs.existing ==> r.existing == fs.existing
  {
    if p == [] || p in fs.existing || Parent(p) !in fs.existing then fs
    else fs.(existing := fs.existing + {p})
  }

  /** `chdir`: moves to an existing directory, and fails otherwise. */
  function ChangeDir(fs: Dirs, p: seq<string>): (r: Dirs)
    ensures r.existing == fs.existing
    ensures p in fs.existing ==> r.cwd == p
    ensures p !in fs.existing ==> r.cwd == fs.cwd
  {
    if p in fs.existing then fs.(cwd := p) else fs
  }

  /** `create_dir_then_change`: `access` reports ENOENT exactly when the
      directory is missing, which is the only case `mkdir` is tried; `chdir`
      follows either way. None for a name that is not a single component,
      which this model does not cover. */
  function CreateDirThenChange(fs: Dirs, name: string): (r: Option<Dirs>)
    ensures r.Some? <==> IsComponent(name)
    ensures r.Some? ==> fs.existing <= r.value.existing <= fs.existing + {Resolve(fs.cwd, name)}
    ensures r.Some? && Resolve(fs.cwd, name) in fs.existing ==> r.value.existing == fs.existing
    ensures r.Some? && WellFormed(fs) ==>
      && WellFormed(r.value)
      && r.value.cwd == Resolve(fs.cwd, name)
      && r.value.existing == fs.existing + {Resolve(fs.cwd, name)}
  {
    if !IsComponent(name) then None
    else
      var p := Resolve(fs.cwd, name);
      var made := if p !in fs.existing then MakeDir(fs, p) else fs;
      Some(ChangeDir(made, p))
  }

  /** `go_up`: `chdir("..")`. */
  function GoUp(fs: Dirs): (r: Dirs)
    ensures r.existing == fs.existing
    ensures WellFormed(fs) ==> WellFormed(r) && r.cwd == Parent(fs.cwd)
  {
    ChangeDir(fs, Parent(fs.cwd))
  }

  /** Entering a child directory and going back up returns to where the walk
      was, with that child now existing and nothing else created. */
  lemma EnterThenGoUp(fs: Dirs, name: string)
    requires WellFormed(fs)
    requires IsChildName(name)
    ensures var r := GoUp(CreateDirThenChange(fs, name).value);
      r.cwd == fs.cwd && r.existing == fs.existing + {fs.cwd + [name]}
  {
    var entered := CreateDirThenChange(fs, name).value;
    assert entered.cwd == fs.cwd + [name];
    assert Parent(entered.cwd) == fs.cwd;
  }

  /** Entering a directory that already exists changes nothing on disk. */
  lemma ExistingDirNotRecreated(fs: Dirs, name: string)
    requires IsComponent(name)
    requires Resolve(fs.cwd, name) in fs.existing
    ensures CreateDirThenChange(fs, name).value.existing == fs.existing
    ensures CreateDirThenChange(fs, name).value.cwd == Resolve(fs.cwd, name)
  {
  }
}
