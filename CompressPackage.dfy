/**
 * The clean-up script that goes into a compressed package: it always removes the extra folder
 * and then, for each namespace whose nuke option is on, deletes the files that namespace
 * produced in the last ten minutes. The zip writing around it is I/O and is not modelled.
 */
module CompressPackage {
  import opened Wrappers
  import opened Commands

  const Header := "rm -rf /mnt/mmc/extra"

  const ArtworkNamespace := "artwork"
  const FolderNamespace := "folder"
  const PortmasterNamespace := "portmaster"

  const Catalogue := "/mnt/mmc/MUOS/info/catalogue"
  const FolderCatalogue := Catalogue + "/Folder"
  const PortsCatalogue := Catalogue + "/External - Ports"
  /** The `find` tests selecting files changed in the last ten minutes. */
  const RecentFiles := " -type f -mmin -10 -print0"
  const RemoveListed := " | xargs -0 rm"

  /** The artwork namespace skips the folder and ports catalogues. */
  const ArtworkNuke := "find '" + Catalogue + "'" + RecentFiles
    + " -o -path '" + FolderCatalogue + "' -prune -o -path '" + PortsCatalogue + "' -prune" + RemoveListed
  const PortmasterNuke := "find '" + PortsCatalogue + "'" + RecentFiles + RemoveListed
  const FolderNuke := "find '" + FolderCatalogue + "'" + RecentFiles + RemoveListed

  /** The `match` over the namespace: one command per known namespace, any other raises. */
  function NukeCommand(namespace: string): (r: Result<string>)
    ensures r.Success? <==> namespace in {ArtworkNamespace, PortmasterNamespace, FolderNamespace}
    ensures r.Failure? ==> r.error == Exception(InvalidArgumentException, "")
  {
    if namespace == ArtworkNamespace then Success(ArtworkNuke)
    else if namespace == PortmasterNamespace then Success(PortmasterNuke)
    else if namespace == FolderNamespace then Success(FolderNuke)
    else Failure(Exception(InvalidArgumentException, ""))
  }

  /** Each nuke command is a single line of shell. */
  lemma NukeCommandOneLine(namespace: string)
    requires NukeCommand(namespace).Success?
    ensures '\n' !in NukeCommand(namespace).value
  {
    CatalogueOneLine();
    CataloguesOneLine();
    FindPartsOneLine();
  }

  lemma CatalogueOneLine()
    ensures '\n' !in Catalogue
  {
  }

  lemma CataloguesOneLine()
    ensures '\n' !in "/Folder" && '\n' !in "/External - Ports"
  {
  }

  lemma FindPartsOneLine()
    ensures '\n' !in RecentFiles && '\n' !in RemoveListed
    ensures '\n' !in "find '" && '\n' !in "'" && '\n' !in " -o -path '" && '\n' !in "' -prune -o -path '" && '\n' !in "' -prune"
  {
  }

  /** `in_array(true, $nukeOptions, true)` */
  predicate ShouldAddNukeScript(nukeOptions: seq<(string, bool)>) {
    exists i :: 0 <= i < |nukeOptions| && nukeOptions[i].1
  }

  /** The namespaces whose option is on, in option order. */
  function NukedNamespaces(nukeOptions: seq<(string, bool)>): seq<string> {
    if nukeOptions == [] then []
    else
      var last := nukeOptions[|nukeOptions| - 1];
      NukedNamespaces(nukeOptions[..|nukeOptions| - 1]) + (if last.1 then [last.0] else [])
  }

  /** The lines after the header, or the exception the first unknown namespace raises. */
  function NukeLines(nukeOptions: seq<(string, bool)>): Result<seq<string>> {
    if nukeOptions == [] then Success([])
    else
      var r := NukeLines(nukeOptions[..|nukeOptions| - 1]);
      var last := nukeOptions[|nukeOptions| - 1];
      if r.Failure? || !last.1 then r
      else
        var c := NukeCommand(last.0);
        if c.Failure? then Failure(c.error) else Success(r.value + [c.value])
  }

  /** The script `generateNukeUpdateSh` returns: the header and the lines, joined with newlines. */
  function NukeUpdateSh(nukeOptions: seq<(string, bool)>): Result<string> {
    var lines := NukeLines(nukeOptions);
    if lines.Failure? then Failure(lines.error) else Success(Text.Implode("\n", [Header] + lines.value))
  }

  /** `generateNukeUpdateSh` */
  method GenerateNukeUpdateSh(nukeOptions: seq<(string, bool)>) returns (r: Result<string>)
    ensures r == NukeUpdateSh(nukeOptions)
  {
    var update := [Header];
    var i := 0;
    while i < |nukeOptions|
      invariant 0 <= i <= |nukeOptions|
      invariant NukeLines(nukeOptions[..i]).Success?
      invariant update == [Header] + NukeLines(nukeOptions[..i]).value
    {
      assert nukeOptions[..i + 1][..i] == nukeOptions[..i];
      var namespace := nukeOptions[i].0;
      if nukeOptions[i].1 {
        var c := NukeCommand(namespace);
        if c.Failure? {
          NukeFailureSticks(nukeOptions, i + 1);
          return Failure(c.error);
        }
        update := update + [c.value];
      }
      i := i + 1;
    }
    assert nukeOptions[..i] == nukeOptions;
    r := Success(Text.Implode("\n", update));
  }

  /**
   * What `handle` decides before any I/O: a command of another class raises; otherwise the
   * content of update.sh when some nuke option is on, or `None` when no script is added.
   */
  function NukeScriptFor(command: Command): (r: Result<Option<string>>)
    ensures !command.CompressPackage? ==> r == Failure(Exception(InvalidArgumentException, ""))
    ensures command.CompressPackage? && !ShouldAddNukeScript(command.nukeOptions) ==> r == Success(None)
    ensures command.CompressPackage? && ShouldAddNukeScript(command.nukeOptions) ==>
      (r.Success? <==> NukeUpdateSh(command.nukeOptions).Success?)
      && (r.Success? ==> r.value == Some(NukeUpdateSh(command.nukeOptions).value))
  {
    if !command.CompressPackage? then Failure(Exception(InvalidArgumentException, ""))
    else if !ShouldAddNukeScript(command.nukeOptions) then Success(None)
    else
      var s := NukeUpdateSh(command.nukeOptions);
      if s.Failure? then Failure(s.error) else Success(Some(s.value))
  }

  /** Once a namespace has raised, the later options do not matter. */
  lemma {:induction false} NukeFailureSticks(nukeOptions: seq<(string, bool)>, n: nat)
    requires n <= |nukeOptions|
    requires NukeLines(nukeOptions[..n]).Failure?
    ensures NukeLines(nukeOptions) == NukeLines(nukeOptions[..n])
    decreases |nukeOptions| - n
  {
    if n < |nukeOptions| {
      assert nukeOptions[..n + 1][..n] == nukeOptions[..n];
      NukeFailureSticks(nukeOptions, n + 1);
    } else {
      assert nukeOptions[..n] == nukeOptions;
    }
  }

  /**
   * The lines exist exactly when every namespace whose option is on is known; there is then one
   * line per such namespace, in option order, and a script whose options are off is the header.
   */
  lemma {:induction false} NukeLinesSpec(nukeOptions: seq<(string, bool)>)
    ensures NukeLines(nukeOptions).Success? <==>
      forall i :: 0 <= i < |nukeOptions| && nukeOptions[i].1 ==> NukeCommand(nukeOptions[i].0).Success?
    ensures NukeLines(nukeOptions).Success? ==>
      var lines := NukeLines(nukeOptions).value;
      var names := NukedNamespaces(nukeOptions);
      |lines| == |names| && forall k :: 0 <= k < |lines| ==> NukeCommand(names[k]) == Success(lines[k])
    ensures NukeLines(nukeOptions).Failure? ==> NukeLines(nukeOptions).error == Exception(InvalidArgumentException, "")
  {
    if nukeOptions != [] {
      var init := nukeOptions[..|nukeOptions| - 1];
      NukeLinesSpec(init);
      assert forall i :: 0 <= i < |init| ==> init[i] == nukeOptions[i];
    }
  }

  /** The namespaces listed are those whose option is on, and there are none when all are off. */
  lemma {:induction false} NukedNamespacesSpec(nukeOptions: seq<(string, bool)>, x: string)
    ensures x in NukedNamespaces(nukeOptions) <==> exists i :: 0 <= i < |nukeOptions| && nukeOptions[i] == (x, true)
    ensures NukedNamespaces(nukeOptions) == [] <==> !ShouldAddNukeScript(nukeOptions)
  {
    if nukeOptions != [] {
      var init := nukeOptions[..|nukeOptions| - 1];
      var last := nukeOptions[|nukeOptions| - 1];
      NukedNamespacesSpec(init, x);
      assert forall i :: 0 <= i < |init| ==> init[i] == nukeOptions[i];
      if last.1 {
        assert ShouldAddNukeScript(nukeOptions) by {
          assert nukeOptions[|nukeOptions| - 1].1;
        }
      } else if ShouldAddNukeScript(nukeOptions) {
        var i :| 0 <= i < |nukeOptions| && nukeOptions[i].1;
        assert ShouldAddNukeScript(init);
      }
    }
  }

  /** `explode("\n", $s)`: the pieces between the newlines. */
  function Explode(s: string): (r: seq<string>)
    ensures |r| >= 1
    decreases |s|
  {
    if '\n' !in s then [s]
    else
      var i := NewlineAt(s);
      [s[..i]] + Explode(s[i + 1..])
  }

  /** The position of the first newline of a string that has one. */
  function NewlineAt(s: string): (i: nat)
    requires '\n' in s
    ensures i < |s| && s[i] == '\n'
    ensures forall j :: 0 <= j < i ==> s[j] != '\n'
  {
    if s[0] == '\n' then 0 else NewlineAt(s[1..]) + 1
  }

  /** Splitting a newline-joined list of newline-free lines gives the lines back. */
  lemma {:induction false} ExplodeImplode(parts: seq<string>)
    requires parts != []
    requires forall k :: 0 <= k < |parts| ==> '\n' !in parts[k]
    ensures Explode(Text.Implode("\n", parts)) == parts
  {
    if |parts| > 1 {
      var rest := parts[1..];
      ExplodeCons(parts[0], Text.Implode("\n", rest));
      ExplodeImplode(rest);
    }
  }

  /** A first line without a newline is split off as it is. */
  lemma ExplodeCons(p: string, t: string)
    requires '\n' !in p
    ensures Explode(p + "\n" + t) == [p] + Explode(t)
  {
    var s := p + "\n" + t;
    assert s[|p|] == '\n';
    assert forall j :: 0 <= j < |p| ==> s[j] == p[j];
    NewlineFirst(s, |p|);
    assert s[..|p|] == p;
    assert s[|p| + 1..] == t;
  }

  /** A newline with none before it is the first one. */
  lemma {:induction false} NewlineFirst(s: string, i: nat)
    requires i < |s| && s[i] == '\n'
    requires forall j :: 0 <= j < i ==> s[j] != '\n'
    ensures NewlineAt(s) == i
  {
    if i > 0 {
      assert forall j :: 0 <= j < i - 1 ==> s[1..][j] == s[j + 1];
      NewlineFirst(s[1..], i - 1);
    }
  }

  /** The script's lines are the header and then the nuke lines, one per line of text. */
  lemma ScriptLines(nukeOptions: seq<(string, bool)>)
    requires NukeUpdateSh(nukeOptions).Success?
    ensures Explode(NukeUpdateSh(nukeOptions).value) == [Header] + NukeLines(nukeOptions).value
    ensures Explode(NukeUpdateSh(nukeOptions).value)[0] == Header
  {
    var lines := NukeLines(nukeOptions).value;
    NukeLinesSpec(nukeOptions);
    var parts := [Header] + lines;
    forall k | 0 <= k < |parts|
      ensures '\n' !in parts[k]
    {
      if k > 0 {
        assert parts[k] == lines[k - 1];
        assert NukeCommand(NukedNamespaces(nukeOptions)[k - 1]) == Success(lines[k - 1]);
        NukeCommandOneLine(NukedNamespaces(nukeOptions)[k - 1]);
      }
    }
    ExplodeImplode(parts);
  }
}
