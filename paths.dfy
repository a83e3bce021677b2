/**
 * The string handling of the path helpers: the syntax test of
 * validateFilePath and the path splitting, directory choice and mode
 * mapping of createFileAtPath. The calls into the operating system
 * (os.Stat, os.MkdirAll, os.OpenFile) are not made: the outcome of MkdirAll
 * is a parameter and the OpenFile call is returned as a request.
 */
module Paths {
  import opened Results
  import opened Seqs

  datatype PathError = EndsWithSlash | EmptyPath

  /**
   * The syntax part of validateFilePath: None when the path is acceptable.
   * A path ending in '/' is refused before the empty path is looked at.
   */
  function SyntaxError(path: string): (e: Option<PathError>)
    ensures e.None? <==> path != "" && path[|path| - 1] != '/'
    ensures e == Some(EndsWithSlash) <==> path != "" && path[|path| - 1] == '/'
    ensures e == Some(EmptyPath) <==> path == ""
  {
    if HasSuffix(path, "/") then Some(EndsWithSlash)
    else if path == "" then Some(EmptyPath)
    else None
  }

  /** The access flags passed to os.OpenFile. */
  datatype OpenFlag = Append | Create | WriteOnly | ReadWrite | Truncate

  datatype CreateError =
    | CannotCreateDirectory(directory: string)
    | IncorrectPath
    | UnsupportedMode(mode: string)

  /** The os.OpenFile call createFileAtPath ends with: path, flags and permission bits. */
  datatype OpenRequest = OpenRequest(fullPath: string, flags: set<OpenFlag>, perm: nat)

  /** What createFileAtPath does: the directory it passes to os.MkdirAll, if any, and its result. */
  datatype CreateStep = CreateStep(mkdir: Option<string>, result: Result<OpenRequest, CreateError>)

  /** The directory part and the rebuilt full path that createFileAtPath computes. */
  datatype PathParts = PathParts(directory: Option<string>, fullPath: string)

  /** `d` is `path` up to (not including) its last '/'. */
  predicate IsDirectoryOf(d: string, path: string)
  {
    |d| < |path| && path[..|d|] == d && path[|d|] == '/'
    && forall k :: |d| < k < |path| ==> path[k] != '/'
  }

  /** `path` holds a '/' somewhere after its first character. */
  predicate HasInnerSlash(path: string)
  {
    exists k :: 0 < k < |path| && path[k] == '/'
  }

  /** The mode argument as open flags; only "APPEND" and "OVERWRITE" are accepted. */
  function ModeFlags(mode: string): (r: Result<set<OpenFlag>, CreateError>)
    ensures r.Ok? <==> mode == "APPEND" || mode == "OVERWRITE"
    ensures r.Err? ==> r.error == UnsupportedMode(mode)
    ensures r.Ok? ==> Create in r.value && (WriteOnly in r.value <==> ReadWrite !in r.value)
    ensures r.Ok? ==> (Append in r.value <==> mode == "APPEND") && (Truncate in r.value <==> mode == "OVERWRITE")
    ensures mode == "APPEND" ==> r == Ok({Append, Create, WriteOnly})
    ensures mode == "OVERWRITE" ==> r == Ok({ReadWrite, Create, Truncate})
  {
    if mode == "APPEND" then Ok({Append, Create, WriteOnly})
    else if mode == "OVERWRITE" then Ok({ReadWrite, Create, Truncate})
    else Err(UnsupportedMode(mode))
  }

  /** The path components split on '/', without the empty one in front of a leading '/'. */
  function Components(path: string): (comps: seq<string>)
  {
    var all := Split(path, '/');
    if all[0] == "" then all[1..] else all
  }

  /** The root prefix createFileAtPath puts back in front of the joined components. */
  function RootPrefix(path: string): string
  {
    if HasPrefix(path, "/") then "/" else ""
  }

  /** The split-and-rejoin of createFileAtPath, for a path with at least one component. */
  function RebuildPath(path: string): PathParts
    requires |Components(path)| >= 1
  {
    var comps, prefix := Components(path), RootPrefix(path);
    if |comps| > 1 then
      PathParts(Some(prefix + Join(comps[..|comps| - 1], '/')), prefix + Join(comps, '/'))
    else
      PathParts(None, prefix + comps[0])
  }

  /** The components are empty exactly for the empty path. */
  lemma ComponentsEmpty(path: string)
    ensures |Components(path)| == 0 <==> path == ""
  {
    var all := Split(path, '/');
    if path != "" && all[0] == "" {
      var i := IndexOf(path, '/');
      assert i < |path|;
      assert |all| >= 2;
    }
  }

  /** The prefix and the components join back to the path. */
  lemma {:induction false} ComponentsJoin(path: string)
    requires path != ""
    ensures RootPrefix(path) + Join(Components(path), '/') == path
    ensures RootPrefix(path) == "" ==> path[0] != '/'
    ensures forall k :: 0 <= k < |Components(path)| ==> '/' !in Components(path)[k]
  {
    var all := Split(path, '/');
    JoinOfSplit(path, '/');
    SplitPiecesLackSeparator(path, '/');
    var i := IndexOf(path, '/');
    if all[0] == "" {
      assert i == 0;
      assert all == [""] + Split(path[1..], '/');
      assert Components(path) == Split(path[1..], '/');
      JoinOfSplit(path[1..], '/');
      assert path == "/" + path[1..];
    }
    forall k | 0 <= k < |Components(path)| ensures '/' !in Components(path)[k] {
      if all[0] == "" {
        assert Components(path)[k] == all[k + 1];
      }
    }
  }

  /** For a non-empty path the rebuilt full path is the path itself. */
  lemma RebuildPathFullPath(path: string)
    requires path != ""
    ensures |Components(path)| >= 1
    ensures RebuildPath(path).fullPath == path
  {
    ComponentsEmpty(path);
    ComponentsJoin(path);
  }

  /**
   * The directory createFileAtPath may create is the path up to its last
   * '/', and it is never empty; there is one exactly when a '/' occurs after
   * the first character.
   */
  lemma RebuildPathDirectory(path: string)
    requires path != ""
    ensures |Components(path)| >= 1
    ensures RebuildPath(path).directory.Some? <==> HasInnerSlash(path)
    ensures RebuildPath(path).directory.Some? ==>
              RebuildPath(path).directory.value != "" && IsDirectoryOf(RebuildPath(path).directory.value, path)
  {
    ComponentsEmpty(path);
    ComponentsJoin(path);
    var comps, prefix := Components(path), RootPrefix(path);
    if |comps| > 1 {
      var init, last := comps[..|comps| - 1], comps[|comps| - 1];
      var d := prefix + Join(init, '/');
      JoinLast(comps, '/');
      assert path == d + ['/'] + last;
      assert path[..|d|] == d;
      assert path[|d|] == '/';
      forall k | |d| < k < |path| ensures path[k] != '/' {
        assert path[k] == last[k - |d| - 1];
      }
      assert HasInnerSlash(path) by {
        assert 0 < |d| < |path| && path[|d|] == '/';
      }
    } else {
      assert path == prefix + comps[0];
      forall k | 0 < k < |path| ensures path[k] != '/' {
        if prefix == "" {
          assert path[k] == comps[0][k];
        } else {
          assert path[k] == comps[0][k - 1];
        }
      }
    }
  }

  /**
   * createFileAtPath up to the os.OpenFile call. `mkdirSucceeds` is the
   * outcome of os.MkdirAll when it is called. The directory is created
   * before the mode is looked at, as in the source.
   */
  function CreateFileAtPath(path: string, mode: string, createPathIfNotExists: bool, mkdirSucceeds: bool): (r: CreateStep)
    ensures r.result.Ok? <==> path != "" && ModeFlags(mode).Ok? && (r.mkdir.None? || mkdirSucceeds)
    ensures r.result.Ok? ==> r.result.value == OpenRequest(path, ModeFlags(mode).value, 420)
    ensures r.mkdir.Some? <==> createPathIfNotExists && HasInnerSlash(path)
    ensures r.mkdir.Some? ==> IsDirectoryOf(r.mkdir.value, path)
    ensures r.mkdir.Some? && !mkdirSucceeds ==> r.result == Err(CannotCreateDirectory(r.mkdir.value))
    ensures path == "" ==> r == CreateStep(None, Err(IncorrectPath))
    ensures path != "" && (r.mkdir.None? || mkdirSucceeds) && ModeFlags(mode).Err? ==> r.result == Err(UnsupportedMode(mode))
  {
    ComponentsEmpty(path);
    if |Components(path)| == 0 then CreateStep(None, Err(IncorrectPath))
    else
      RebuildPathFullPath(path);
      RebuildPathDirectory(path);
      var parts := RebuildPath(path);
      var mkdir := if parts.directory.Some? && parts.directory.value != "" && createPathIfNotExists then parts.directory else None;
      if mkdir.Some? && !mkdirSucceeds then CreateStep(mkdir, Err(CannotCreateDirectory(mkdir.value)))
      else match ModeFlags(mode)
        case Err(e) => CreateStep(mkdir, Err(e))
        case Ok(flags) => CreateStep(mkdir, Ok(OpenRequest(parts.fullPath, flags, 420)))
  }
}
