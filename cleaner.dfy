/** The code cache cleaner: a one-shot scheduler armed at construction and a
    sweep that lists the cache root and removes stale sibling folders of the
    current code cache. */
module Cleaner {
  import opened Retention

  /** Why a file system call failed: the directory does not exist. */
  datatype FsError = NotFound(path: string)

  datatype Result<T> = Ok(value: T) | Err(error: FsError)

  /** No name occurs twice. */
  predicate Distinct(names: seq<string>)
  {
    forall i, j :: 0 <= i < j < |names| ==> names[i] != names[j]
  }

  /** The directory listings the cleanup reads: a directory path, when it
      can be listed, with the stat of each of its children. Deleting a child
      removes it from its parent's listing only. */
  class FileSystem {
    var dirs: map<string, Listing>

    constructor (dirs: map<string, Listing>)
      ensures this.dirs == dirs
    {
      this.dirs := dirs;
    }

    /** Lists the children of a directory, each once, in an unspecified
        order; fails when the directory does not exist. */
    method Readdir(path: string) returns (r: Result<seq<string>>)
      ensures path !in dirs ==> r == Err(NotFound(path))
      ensures path in dirs ==> r.Ok? && Distinct(r.value)
      ensures path in dirs ==> forall n :: n in r.value <==> n in dirs[path]
    {
      if path !in dirs {
        return Err(NotFound(path));
      }
      var rest := dirs[path].Keys;
      var names := [];
      while rest != {}
        invariant rest <= dirs[path].Keys
        invariant forall n :: n in names <==> n in dirs[path] && n !in rest
        invariant Distinct(names)
        decreases rest
      {
        var n :| n in rest;
        names := names + [n];
        rest := rest - {n};
      }
      return Ok(names);
    }

    /** Recursively deletes the child `name` of `dir`, seen as removing it
        from the listing of `dir`; a missing target is tolerated and changes
        nothing. */
    method Rimraf(dir: string, name: string)
      modifies this
      ensures dirs == if dir in old(dirs) then old(dirs)[dir := old(dirs)[dir] - {name}] else old(dirs)
    {
      if dir in dirs {
        dirs := dirs[dir := dirs[dir] - {name}];
      }
    }
  }

  /** The process-wide sink for errors nobody else handles. */
  class ErrorSink {
    var errors: seq<FsError>

    constructor ()
      ensures errors == []
    {
      errors := [];
    }

    method OnUnexpectedError(e: FsError)
      modifies this
      ensures errors == old(errors) + [e]
    {
      errors := errors + [e];
    }
  }

  /** The directories after a sweep of `root`: its children reduced to the
      retained ones when it exists, nothing changed otherwise. */
  ghost function AfterSweep(dirs: map<string, Listing>, root: string, leaf: string, now: int, maxAge: nat): (after: map<string, Listing>)
  {
    if root in dirs then dirs[root := Retained(dirs[root], leaf, now, maxAge)] else dirs
  }

  /** The error a sweep of `root` reports: none when the root exists. */
  ghost function SweepErrors(dirs: map<string, Listing>, root: string): (errs: seq<FsError>)
  {
    if root in dirs then [] else [NotFound(root)]
  }

  /** A path is truthy when it is present and not the empty string. */
  predicate IsTruthy(path: Option<string>)
  {
    path.Some? && path.value != ""
  }

  /** The one-shot scheduler: never scheduled, scheduled and pending, or run. */
  datatype SchedulerState = Inert | Armed | Fired

  class CodeCacheCleaner {
    const maxAge: nat
    const currentCodeCachePath: Option<string>
    var state: SchedulerState
    /** How many sweeps this instance has started. */
    ghost var sweeps: nat

    ghost predicate Valid()
      reads this
    {
      && (state == Armed ==> IsTruthy(currentCodeCachePath))
      && (!IsTruthy(currentCodeCachePath) ==> state == Inert)
      && sweeps == (if state == Fired then 1 else 0)
    }

    /** Fixes the age threshold from the product quality and arms the one-shot
        sweep exactly when the current cache path is truthy. */
    constructor (currentCodeCachePath: Option<string>, quality: Option<string>)
      ensures Valid()
      ensures maxAge == DataMaxAge(quality)
      ensures this.currentCodeCachePath == currentCodeCachePath
      ensures state == (if IsTruthy(currentCodeCachePath) then Armed else Inert)
      ensures sweeps == 0
    {
      maxAge := DataMaxAge(quality);
      this.currentCodeCachePath := currentCodeCachePath;
      state := if IsTruthy(currentCodeCachePath) then Armed else Inert;
      sweeps := 0;
    }

    /** The scheduled timer elapses: a pending sweep runs, once; in any other
        state nothing happens. */
    method Fire(fs: FileSystem, sink: ErrorSink, now: int, dirname: string -> string, basename: string -> string)
      requires Valid()
      modifies this, fs, sink
      ensures Valid()
      ensures old(state) != Armed ==> state == old(state) && sweeps == old(sweeps)
      ensures old(state) != Armed ==> fs.dirs == old(fs.dirs) && sink.errors == old(sink.errors)
      ensures old(state) == Armed ==> state == Fired && sweeps == old(sweeps) + 1
      ensures old(state) == Armed ==>
        var path := currentCodeCachePath.value;
        && fs.dirs == AfterSweep(old(fs.dirs), dirname(path), basename(path), now, maxAge)
        && sink.errors == old(sink.errors) + SweepErrors(old(fs.dirs), dirname(path))
    {
      if state == Armed {
        state := Fired;
        sweeps := sweeps + 1;
        CleanUpCodeCaches(currentCodeCachePath.value, fs, sink, now, dirname, basename);
      }
    }

    /** Teardown: a pending sweep is cancelled and never runs. */
    method Dispose()
      requires Valid()
      modifies this
      ensures Valid()
      ensures state == (if old(state) == Armed then Inert else old(state))
      ensures sweeps == old(sweeps)
    {
      if state == Armed {
        state := Inert;
      }
    }

    /** Lists the siblings of the current cache folder and deletes each one
        the retention rule selects; a listing failure is reported to the sink
        and deletes nothing. */
    method CleanUpCodeCaches(currentCodeCachePath: string, fs: FileSystem, sink: ErrorSink, now: int,
                             dirname: string -> string, basename: string -> string)
      modifies fs, sink
      ensures fs.dirs == AfterSweep(old(fs.dirs), dirname(currentCodeCachePath), basename(currentCodeCachePath), now, maxAge)
      ensures sink.errors == old(sink.errors) + SweepErrors(old(fs.dirs), dirname(currentCodeCachePath))
    {
      var root := dirname(currentCodeCachePath);
      var leaf := basename(currentCodeCachePath);
      var listing := fs.Readdir(root);
      match listing
      case Err(e) =>
        sink.OnUnexpectedError(e);
      case Ok(names) =>
        RemoveStale(fs, root, names, leaf, now);
    }

    /** The per-entry part of the sweep over one listing of `root`: every
        listed child is examined and the selected ones are deleted. */
    method RemoveStale(fs: FileSystem, root: string, names: seq<string>, leaf: string, now: int)
      requires root in fs.dirs
      requires forall n :: n in fs.dirs[root] ==> n in names
      modifies fs
      ensures fs.dirs == old(fs.dirs)[root := Retained(old(fs.dirs)[root], leaf, now, maxAge)]
    {
      ghost var children := fs.dirs[root];
      var i := 0;
      while i < |names|
        invariant 0 <= i <= |names|
        invariant fs.dirs == old(fs.dirs)[root := SweepInOrder(children, names[..i], leaf, now, maxAge)]
      {
        CleanUpEntry(fs, root, names[i], leaf, now);
        assert names[..i + 1][..i] == names[..i];
        i := i + 1;
      }
      assert names[..|names|] == names;
      SweepOfFullListingIsRetained(children, names, leaf, now, maxAge);
    }

    /** The work for one listed child: the current folder is skipped; any
        other child is stat-ed and deleted when it is a directory strictly
        older than the threshold. A child no longer present is skipped. */
    method CleanUpEntry(fs: FileSystem, root: string, name: string, leaf: string, now: int)
      requires root in fs.dirs
      modifies fs
      ensures
        var children := old(fs.dirs)[root];
        fs.dirs == if name in children && ShouldDelete(name, children[name], leaf, now, maxAge)
                   then old(fs.dirs)[root := children - {name}]
                   else old(fs.dirs)
    {
      if name == leaf {
        return;
      }
      if name in fs.dirs[root] {
        var stat := fs.dirs[root][name];
        if stat.isDirectory && now - stat.mtime > maxAge {
          fs.Rimraf(root, name);
        }
      }
    }
  }

  /** Two sweeps at the same instant: the second one deletes nothing and
      reports nothing new. */
  method SweepTwice(cleaner: CodeCacheCleaner, path: string, fs: FileSystem, sink: ErrorSink, now: int,
                    dirname: string -> string, basename: string -> string)
    requires dirname(path) in fs.dirs
    modifies fs, sink
    ensures fs.dirs == AfterSweep(old(fs.dirs), dirname(path), basename(path), now, cleaner.maxAge)
    ensures sink.errors == old(sink.errors)
  {
    cleaner.CleanUpCodeCaches(path, fs, sink, now, dirname, basename);
    ghost var afterFirst := fs.dirs;
    cleaner.CleanUpCodeCaches(path, fs, sink, now, dirname, basename);
    RetainedIdempotent(old(fs.dirs)[dirname(path)], basename(path), now, cleaner.maxAge);
    assert fs.dirs == afterFirst;
  }
}
