/**
 * The save behaviour shared by the post-processes. With an intermediate folder, every image is
 * saved under a per-run temporary folder first and mirrored back onto its packaged path at the
 * end, so that a post-process reading sibling images never sees half-processed ones.
 */
module SaveImage {
  import opened Wrappers
  import opened Text
  import Path

  /** The name of the application's temporary folder. */
  const TempFolder := "temp"

  /** The files the post-process reads and writes, by path, and the folders created. */
  class FileSystem {
    var files: map<string, string>
    var folders: set<string>
    /** Targets a copy cannot open for writing; copying onto one raises an I/O error. */
    const unwritable: set<string>

    constructor (files: map<string, string>, unwritable: set<string>)
      ensures this.files == files && this.folders == {} && this.unwritable == unwritable
    {
      this.files := files;
      this.folders := {};
      this.unwritable := unwritable;
    }
  }

  /**
   * What `mirrorTemporaryFolderIfRequired` does to the files: each entry `(fileName,
   * packagePath)` whose staged copy exists is copied onto its packaged path, overwriting it. A
   * failing copy ends the loop; its origin and target are returned.
   */
  function Mirrored(files: map<string, string>, tmp: string, images: seq<(string, string)>, unwritable: set<string>)
    : (map<string, string>, Option<(string, string)>)
    decreases |images|
  {
    if images == [] then (files, None)
    else
      var origin := Path.Join([tmp, images[0].0]);
      var target := images[0].1;
      if origin !in files then Mirrored(files, tmp, images[1..], unwritable)
      else if target in unwritable then (files, Some((origin, target)))
      else Mirrored(files[target := files[origin]], tmp, images[1..], unwritable)
  }

  function Targets(images: seq<(string, string)>): set<string> {
    set j | 0 <= j < |images| :: images[j].1
  }

  /** Mirroring changes only packaged paths of the list: every other path keeps its contents. */
  lemma {:induction false} MirrorFrame(files: map<string, string>, tmp: string, images: seq<(string, string)>, unwritable: set<string>)
    ensures var r := Mirrored(files, tmp, images, unwritable).0;
      && files.Keys <= r.Keys <= files.Keys + Targets(images)
      && forall p :: p in files && p !in Targets(images) ==> r[p] == files[p]
    decreases |images|
  {
    if images != [] {
      var origin := Path.Join([tmp, images[0].0]);
      var target := images[0].1;
      assert Targets(images) == {target} + Targets(images[1..]) by {
        forall t | t in Targets(images) ensures t in {target} + Targets(images[1..]) {
          var j :| 0 <= j < |images| && images[j].1 == t;
          if j > 0 { assert images[1..][j - 1].1 == t; }
        }
        forall t | t in Targets(images[1..]) ensures t in Targets(images) {
          var j :| 0 <= j < |images[1..]| && images[1..][j].1 == t;
          assert images[j + 1].1 == t;
        }
      }
      if origin !in files {
        MirrorFrame(files, tmp, images[1..], unwritable);
      } else if target !in unwritable {
        MirrorFrame(files[target := files[origin]], tmp, images[1..], unwritable);
      }
    }
  }

  /** A failed copy is reported with the target that could not be written. */
  lemma {:induction false} MirrorErrorTarget(files: map<string, string>, tmp: string, images: seq<(string, string)>, unwritable: set<string>)
    ensures var e := Mirrored(files, tmp, images, unwritable).1;
      e.Some? ==> e.value.1 in unwritable && e.value.1 in Targets(images)
    ensures Targets(images) !! unwritable ==> Mirrored(files, tmp, images, unwritable).1.None?
    decreases |images|
  {
    if images != [] {
      var origin := Path.Join([tmp, images[0].0]);
      var target := images[0].1;
      assert target in Targets(images);
      assert Targets(images[1..]) <= Targets(images) by {
        forall t | t in Targets(images[1..]) ensures t in Targets(images) {
          var j :| 0 <= j < |images[1..]| && images[1..][j].1 == t;
          assert images[j + 1].1 == t;
        }
      }
      if origin !in files {
        MirrorErrorTarget(files, tmp, images[1..], unwritable);
      } else if target !in unwritable {
        MirrorErrorTarget(files[target := files[origin]], tmp, images[1..], unwritable);
      }
    }
  }

  /** The packaged paths are distinct and none is the staged origin of an entry. */
  ghost predicate Separate(tmp: string, images: seq<(string, string)>) {
    && (forall j, k :: 0 <= j < k < |images| ==> images[j].1 != images[k].1)
    && (forall j, k :: 0 <= j < |images| && 0 <= k < |images| ==> Path.Join([tmp, images[j].0]) != images[k].1)
  }

  /**
   * Without failing copies, and with the packaged paths apart from the staged ones, every entry
   * whose staged file exists ends with the staged contents, and every other entry's target keeps
   * what it had.
   */
  lemma {:induction false} MirrorCopies(files: map<string, string>, tmp: string, images: seq<(string, string)>, unwritable: set<string>)
    requires Separate(tmp, images) && Targets(images) !! unwritable
    ensures var r := Mirrored(files, tmp, images, unwritable).0;
      forall j :: 0 <= j < |images| ==>
        var origin := Path.Join([tmp, images[j].0]);
        if origin in files then images[j].1 in r && r[images[j].1] == files[origin]
        else (images[j].1 in r <==> images[j].1 in files) && (images[j].1 in files ==> r[images[j].1] == files[images[j].1])
    decreases |images|
  {
    if images != [] {
      var origin := Path.Join([tmp, images[0].0]);
      var target := images[0].1;
      assert target in Targets(images);
      var rest := images[1..];
      assert Separate(tmp, rest) by {
        forall j, k | 0 <= j < k < |rest| ensures rest[j].1 != rest[k].1 {
          assert rest[j] == images[j + 1] && rest[k] == images[k + 1];
        }
        forall j, k | 0 <= j < |rest| && 0 <= k < |rest| ensures Path.Join([tmp, rest[j].0]) != rest[k].1 {
          assert rest[j] == images[j + 1] && rest[k] == images[k + 1];
        }
      }
      assert Targets(rest) !! unwritable by {
        forall t | t in Targets(rest) ensures t in Targets(images) {
          var j :| 0 <= j < |rest| && rest[j].1 == t;
          assert images[j + 1].1 == t;
        }
      }
      assert target !in Targets(rest) by {
        forall j | 0 <= j < |rest| ensures rest[j].1 != target { assert rest[j] == images[j + 1]; }
      }
      var next := if origin in files then files[target := files[origin]] else files;
      assert Mirrored(files, tmp, images, unwritable) == Mirrored(next, tmp, rest, unwritable);
      MirrorCopies(next, tmp, rest, unwritable);
      MirrorFrame(next, tmp, rest, unwritable);
      FirstCopyApart(files, next, tmp, images);
      assert forall j :: 0 < j < |images| ==> images[j] == rest[j - 1];
    }
  }

  /** The first copy touches no staged origin and no later target. */
  lemma FirstCopyApart(files: map<string, string>, next: map<string, string>, tmp: string, images: seq<(string, string)>)
    requires images != [] && Separate(tmp, images)
    requires next == files || (Path.Join([tmp, images[0].0]) in files && next == files[images[0].1 := files[Path.Join([tmp, images[0].0])]])
    ensures forall j :: 0 < j < |images| ==>
      var origin := Path.Join([tmp, images[j].0]);
      && (origin in next <==> origin in files) && (origin in files ==> next[origin] == files[origin])
      && (images[j].1 in next <==> images[j].1 in files) && (images[j].1 in files ==> next[images[j].1] == files[images[j].1])
  {
  }

  /** The post-process's save state: the temporary folder, once set up, and the logged errors. */
  class Saver {
    var tmpFolder: Option<string>
    var loggedErrors: seq<(string, string)>
    /** The post-process's strategy name, part of the temporary folder's path. */
    const name: string

    constructor (name: string)
      ensures tmpFolder == None && loggedErrors == [] && this.name == name
    {
      this.name := name;
      tmpFolder := None;
      loggedErrors := [];
    }

    /**
     * `setupSaveBehaviour`: with an intermediate folder, `temp/post-process/<name>/<nonce>` under
     * the base path becomes the temporary folder and is created. `nonce` stands for the hash of
     * `mt_rand()`; `basePath` is `None` when the post-process has no `Path` service.
     */
    method SetupSaveBehaviour(useIntermediateFolder: bool, basePath: Option<string>, nonce: string, fs: FileSystem)
      returns (err: Option<Exception>)
      modifies this, fs
      ensures !useIntermediateFolder ==> err.None? && tmpFolder == old(tmpFolder) && fs.folders == old(fs.folders)
      ensures useIntermediateFolder && basePath.None? ==>
        err == Some(Exception(RuntimeException, "Path must be defined to use this postprocessing trait"))
        && tmpFolder == old(tmpFolder) && fs.folders == old(fs.folders)
      ensures useIntermediateFolder && basePath.Some? ==>
        var t := Path.JoinWithBase(basePath.value, [TempFolder, "post-process", name, nonce]);
        err.None? && tmpFolder == Some(t) && fs.folders == old(fs.folders) + {t}
      ensures loggedErrors == old(loggedErrors) && fs.files == old(fs.files)
    {
      if !useIntermediateFolder {
        return None;
      }
      if basePath.None? {
        return Some(Exception(RuntimeException, "Path must be defined to use this postprocessing trait"));
      }
      var t := Path.JoinWithBase(basePath.value, [TempFolder, "post-process", name, nonce]);
      tmpFolder := Some(t);
      fs.folders := fs.folders + {t};
      return None;
    }

    /** `getSavePath` for a path given as a string. */
    function GetSavePath(file: string): Result<string>
      reads this
    {
      match tmpFolder
      case None => Success(file)
      case Some(tmp) =>
        var filename := Basename(file);
        if !Truthy(filename) then Failure(Exception(LogicException, ""))
        else Success(Path.Join([tmp, filename]))
    }

    /** `mirrorTemporaryFolderIfRequired`; `hasLogger` says whether a logger is injected. */
    method MirrorTemporaryFolderIfRequired(images: seq<(string, string)>, fs: FileSystem, hasLogger: bool)
      modifies this, fs
      ensures tmpFolder == old(tmpFolder) && fs.folders == old(fs.folders)
      ensures tmpFolder.None? || !Truthy(tmpFolder.value) ==> fs.files == old(fs.files) && loggedErrors == old(loggedErrors)
      ensures tmpFolder.Some? && Truthy(tmpFolder.value) ==>
        var (r, e) := Mirrored(old(fs.files), tmpFolder.value, images, fs.unwritable);
        fs.files == r && loggedErrors == old(loggedErrors) + (if e.Some? && hasLogger then [e.value] else [])
    {
      if tmpFolder.None? || !Truthy(tmpFolder.value) {
        return;
      }
      var tmp := tmpFolder.value;
      ghost var goal := Mirrored(fs.files, tmp, images, fs.unwritable);
      var i := 0;
      while i < |images|
        invariant 0 <= i <= |images|
        invariant Mirrored(fs.files, tmp, images[i..], fs.unwritable) == goal
        invariant loggedErrors == old(loggedErrors) && fs.folders == old(fs.folders) && tmpFolder == old(tmpFolder)
      {
        var origin := Path.Join([tmp, images[i].0]);
        var target := images[i].1;
        assert images[i..][1..] == images[i + 1..];
        if origin in fs.files {
          if target in fs.unwritable {
            if hasLogger {
              loggedErrors := loggedErrors + [(origin, target)];
            }
            return;
          }
          fs.files := fs.files[target := fs.files[origin]];
        }
        i := i + 1;
      }
    }
  }

  /** Without a temporary folder a file is saved in place. */
  lemma SavePathInPlace(s: Saver, file: string)
    requires s.tmpFolder.None?
    ensures s.GetSavePath(file) == Success(file)
  {
  }

  /**
   * With a temporary folder a file is saved in it under its own base name; a base name that PHP
   * reads as false ("" or "0") raises LogicException.
   */
  lemma SavePathStaged(s: Saver, file: string)
    requires s.tmpFolder.Some?
    ensures !Truthy(Basename(file)) ==> s.GetSavePath(file).Failure? && s.GetSavePath(file).error.kind == LogicException
    ensures Truthy(Basename(file)) ==> s.GetSavePath(file) == Success(Path.Join([s.tmpFolder.value, Basename(file)]))
    ensures Path.PlainSegment(Basename(file)) && Basename(file) != "0" ==>
      s.GetSavePath(file).Success? && Basename(s.GetSavePath(file).value) == Basename(file)
  {
    if Path.PlainSegment(Basename(file)) && Basename(file) != "0" {
      Path.JoinedBasename(s.tmpFolder.value, Basename(file));
    }
  }

  /**
   * The staging protocol: when every entry is keyed by its packaged path's base name, the file a
   * post-process saved for that path is what the mirror copies onto it.
   */
  lemma SavedIsMirrored(s: Saver, files: map<string, string>, images: seq<(string, string)>, unwritable: set<string>)
    requires s.tmpFolder.Some?
    requires forall j :: 0 <= j < |images| ==> images[j].0 == Basename(images[j].1) && Truthy(images[j].0)
    requires Separate(s.tmpFolder.value, images) && Targets(images) !! unwritable
    ensures var r := Mirrored(files, s.tmpFolder.value, images, unwritable).0;
      forall j :: 0 <= j < |images| && s.GetSavePath(images[j].1).value in files ==>
        images[j].1 in r && r[images[j].1] == files[s.GetSavePath(images[j].1).value]
  {
    MirrorCopies(files, s.tmpFolder.value, images, unwritable);
  }
}
