/**
 * The argument vector builder for the Skyscraper scraper: fluent setters fill optional fields,
 * and `build` lists the program name, the rom name when truthy, and one flag/value pair per set
 * field in a fixed flag order.
 */
module SkyscraperCommand {
  import opened Wrappers
  import opened Text

  /** A snapshot of the builder's fields; `None` is PHP's null. */
  datatype BuilderValue = BuilderValue(
    gamelistPath: Option<string>,
    artworkPath: Option<string>,
    inputPath: Option<string>,
    outputPath: Option<string>,
    flags: Option<seq<string>>,
    exts: Option<seq<string>>,
    platform: Option<string>,
    credentials: Option<string>,
    scraper: Option<string>,
    verbosity: Option<int>,
    romName: Option<string>,
    query: Option<string>,
    threads: Option<int>)

  const EmptyBuilder := BuilderValue(None, None, None, None, None, None, None, None, None, None, None, None, None)

  /** The flags in the order `build` emits them. */
  const FlagOrder: seq<string> := ["-g", "-a", "-i", "-o", "-p", "-u", "-s", "-t", "--flags", "--verbosity", "--query", "--addext"]

  /** The arguments that follow the flags of `FlagOrder`, one per flag, `None` for an unset field. */
  function Fields(v: BuilderValue): (r: seq<Option<string>>)
    ensures |r| == |FlagOrder|
  {
    [v.gamelistPath, v.artworkPath, v.inputPath, v.outputPath, v.platform, v.credentials, v.scraper,
     if v.threads.Some? then Some(IntToString(v.threads.value)) else None,
     if v.flags.Some? then Some(Implode(",", v.flags.value)) else None,
     if v.verbosity.Some? then Some(IntToString(v.verbosity.value)) else None,
     v.query,
     if v.exts.Some? then Some(Implode(" ", v.exts.value)) else None]
  }

  /** One flag/value pair per set field from position `i` on. */
  function PairsFrom(flags: seq<string>, fields: seq<Option<string>>, i: nat): seq<(string, string)>
    requires |flags| == |fields| && i <= |fields|
    decreases |fields| - i
  {
    if i == |fields| then []
    else (if fields[i].Some? then [(flags[i], fields[i].value)] else []) + PairsFrom(flags, fields, i + 1)
  }

  /** The `$parts` array of `build`. */
  function Parts(v: BuilderValue): seq<(string, string)> {
    PairsFrom(FlagOrder, Fields(v), 0)
  }

  /** How many fields from position `i` on are set. */
  function SetFrom(fields: seq<Option<string>>, i: nat): nat
    requires i <= |fields|
    decreases |fields| - i
  {
    if i == |fields| then 0 else (if fields[i].Some? then 1 else 0) + SetFrom(fields, i + 1)
  }

  /** `foreach ($parts as $arg => $val)`: each pair as two arguments. */
  function Flatten(parts: seq<(string, string)>): (r: seq<string>)
    ensures |r| == 2 * |parts|
  {
    if parts == [] then [] else [parts[0].0, parts[0].1] + Flatten(parts[1..])
  }

  /** The argument vector `build` returns. */
  function Argv(v: BuilderValue): seq<string> {
    ["Skyscraper"] + (if v.romName.Some? && Truthy(v.romName.value) then [v.romName.value] else []) + Flatten(Parts(v))
  }

  /** The positions of the set fields from position `i` on, in increasing order. */
  function SourcesFrom(fields: seq<Option<string>>, i: nat): seq<nat>
    requires i <= |fields|
    decreases |fields| - i
  {
    if i == |fields| then []
    else (if fields[i].Some? then [i] else []) + SourcesFrom(fields, i + 1)
  }

  /** There is one pair per set field. */
  lemma {:induction false} PairsCount(flags: seq<string>, fields: seq<Option<string>>, i: nat)
    requires |flags| == |fields| && i <= |fields|
    ensures |PairsFrom(flags, fields, i)| == SetFrom(fields, i) == |SourcesFrom(fields, i)|
    decreases |fields| - i
  {
    if i < |fields| {
      PairsCount(flags, fields, i + 1);
    }
  }

  /** Pair `k` is the flag of the `k`-th set field with that field's value. */
  lemma {:induction false} PairsAt(flags: seq<string>, fields: seq<Option<string>>, i: nat)
    requires |flags| == |fields| && i <= |fields|
    ensures |PairsFrom(flags, fields, i)| == |SourcesFrom(fields, i)|
    ensures forall k :: 0 <= k < |SourcesFrom(fields, i)| ==>
      var j := SourcesFrom(fields, i)[k];
      i <= j < |fields| && fields[j].Some? && PairsFrom(flags, fields, i)[k] == (flags[j], fields[j].value)
    decreases |fields| - i
  {
    PairsCount(flags, fields, i);
    if i < |fields| {
      PairsAt(flags, fields, i + 1);
    }
  }

  /** The set fields are listed in order, and exactly the set fields are listed. */
  lemma {:induction false} SourcesInOrder(fields: seq<Option<string>>, i: nat)
    requires i <= |fields|
    ensures forall k, l :: 0 <= k < l < |SourcesFrom(fields, i)| ==> SourcesFrom(fields, i)[k] < SourcesFrom(fields, i)[l]
    ensures forall j :: i <= j < |fields| ==> (j in SourcesFrom(fields, i) <==> fields[j].Some?)
    ensures forall j :: j in SourcesFrom(fields, i) ==> i <= j < |fields|
    decreases |fields| - i
  {
    if i < |fields| {
      SourcesInOrder(fields, i + 1);
      var rest := SourcesFrom(fields, i + 1);
      assert forall k :: 0 <= k < |rest| ==> rest[k] in rest;
    }
  }

  /** A pair is listed exactly when some set field has that flag and that value. */
  lemma {:induction false} PairsMembership(flags: seq<string>, fields: seq<Option<string>>, i: nat, p: (string, string))
    requires |flags| == |fields| && i <= |fields|
    ensures p in PairsFrom(flags, fields, i) <==> exists j :: i <= j < |fields| && fields[j] == Some(p.1) && flags[j] == p.0
    decreases |fields| - i
  {
    if i < |fields| {
      PairsMembership(flags, fields, i + 1, p);
      var head := if fields[i].Some? then [(flags[i], fields[i].value)] else [];
      assert PairsFrom(flags, fields, i) == head + PairsFrom(flags, fields, i + 1);
      assert p in head <==> fields[i] == Some(p.1) && flags[i] == p.0;
      if p in PairsFrom(flags, fields, i + 1) {
        var j :| i + 1 <= j < |fields| && fields[j] == Some(p.1) && flags[j] == p.0;
        assert i <= j;
      }
    }
  }

  /** The flags are distinct, so each pair names the one field it comes from. */
  lemma FlagsDistinct()
    ensures forall j, k :: 0 <= j < k < |FlagOrder| ==> FlagOrder[j] != FlagOrder[k]
  {
  }

  /** `build` with nothing set: the program name alone. */
  lemma EmptyBuild()
    ensures Argv(EmptyBuilder) == ["Skyscraper"]
  {
    assert Parts(EmptyBuilder) == [] by {
      PairsCount(FlagOrder, Fields(EmptyBuilder), 0);
    }
  }

  /** `Flatten` puts pair `k` at positions `2k` and `2k + 1`. */
  lemma {:induction false} FlattenAt(parts: seq<(string, string)>, k: nat)
    requires k < |parts|
    ensures Flatten(parts)[2 * k] == parts[k].0 && Flatten(parts)[2 * k + 1] == parts[k].1
  {
    if k > 0 {
      FlattenAt(parts[1..], k - 1);
    }
  }

  /**
   * The vector starts with the program name, then the rom name when it is truthy, then the
   * pairs; its length is 1, plus 1 for the rom name, plus 2 per set field.
   */
  lemma ArgvShape(v: BuilderValue)
    ensures var argv := Argv(v);
      var start := if v.romName.Some? && Truthy(v.romName.value) then 2 else 1;
      && argv[0] == "Skyscraper"
      && (start == 2 ==> argv[1] == v.romName.value)
      && |argv| == start + 2 * SetFrom(Fields(v), 0)
      && forall k :: 0 <= k < |Parts(v)| ==> argv[start + 2 * k] == Parts(v)[k].0 && argv[start + 2 * k + 1] == Parts(v)[k].1
  {
    PairsCount(FlagOrder, Fields(v), 0);
    forall k | 0 <= k < |Parts(v)|
      ensures Flatten(Parts(v))[2 * k] == Parts(v)[k].0 && Flatten(Parts(v))[2 * k + 1] == Parts(v)[k].1
    {
      FlattenAt(Parts(v), k);
    }
  }

  /** A string or a list of strings, as `addFlag` and `addExt` accept. */
  datatype Items = One(item: string) | Many(items: seq<string>)

  function ItemsList(x: Items): seq<string> {
    match x
    case One(s) => [s]
    case Many(s) => s
  }

  class SkyscraperCommandBuilder {
    var gamelistPath: Option<string>
    var artworkPath: Option<string>
    var inputPath: Option<string>
    var outputPath: Option<string>
    var flags: Option<seq<string>>
    var exts: Option<seq<string>>
    var platform: Option<string>
    var credentials: Option<string>
    var scraper: Option<string>
    var verbosity: Option<int>
    var romName: Option<string>
    var query: Option<string>
    var threads: Option<int>

    function Value(): BuilderValue
      reads this
    {
      BuilderValue(gamelistPath, artworkPath, inputPath, outputPath, flags, exts, platform,
        credentials, scraper, verbosity, romName, query, threads)
    }

    /** The constructor: every field from its (nullable) argument. */
    constructor (initial: BuilderValue)
      ensures Value() == initial
    {
      gamelistPath, artworkPath, inputPath, outputPath := initial.gamelistPath, initial.artworkPath, initial.inputPath, initial.outputPath;
      flags, exts, platform, credentials := initial.flags, initial.exts, initial.platform, initial.credentials;
      scraper, verbosity, romName, query, threads := initial.scraper, initial.verbosity, initial.romName, initial.query, initial.threads;
    }

    /** `build` */
    method Build() returns (argv: seq<string>)
      ensures argv == Argv(Value())
    {
      var parts := Parts(Value());
      argv := ["Skyscraper"];
      if romName.Some? && Truthy(romName.value) {
        argv := argv + [romName.value];
      }
      var prefix := argv;
      var j := 0;
      while j < |parts|
        invariant 0 <= j <= |parts|
        invariant argv == prefix + Flatten(parts[..j])
      {
        FlattenSnoc(parts[..j], parts[j]);
        assert parts[..j + 1] == parts[..j] + [parts[j]];
        argv := argv + [parts[j].0, parts[j].1];
        j := j + 1;
      }
      assert parts[..j] == parts;
    }

    method SetCredentials(credentials: string)
      modifies this
      ensures Value() == old(Value()).(credentials := Some(credentials))
    {
      this.credentials := Some(credentials);
    }

    method SetVerbosity(verbosity: int)
      modifies this
      ensures Value() == old(Value()).(verbosity := Some(verbosity))
    {
      this.verbosity := Some(verbosity);
    }

    method SetScraper(scraper: string)
      modifies this
      ensures Value() == old(Value()).(scraper := Some(scraper))
    {
      this.scraper := Some(scraper);
    }

    method SetInputPath(inputPath: string)
      modifies this
      ensures Value() == old(Value()).(inputPath := Some(inputPath))
    {
      this.inputPath := Some(inputPath);
    }

    method SetPlatform(platform: string)
      modifies this
      ensures Value() == old(Value()).(platform := Some(platform))
    {
      this.platform := Some(platform);
    }

    method SetOutputPath(outputPath: string)
      modifies this
      ensures Value() == old(Value()).(outputPath := Some(outputPath))
    {
      this.outputPath := Some(outputPath);
    }

    method SetArtworkPath(artworkPath: string)
      modifies this
      ensures Value() == old(Value()).(artworkPath := Some(artworkPath))
    {
      this.artworkPath := Some(artworkPath);
    }

    method SetGamelistPath(gamelistPath: string)
      modifies this
      ensures Value() == old(Value()).(gamelistPath := Some(gamelistPath))
    {
      this.gamelistPath := Some(gamelistPath);
    }

    /** `addFlag`: a string is appended, a list concatenated; a null list starts empty. */
    method AddFlag(flag: Items)
      modifies this
      ensures Value() == old(Value()).(flags := Some(old(flags).GetOr([]) + ItemsList(flag)))
    {
      flags := Some(flags.GetOr([]) + ItemsList(flag));
    }

    /** `addExt`: as `addFlag`, for the extensions. */
    method AddExt(ext: Items)
      modifies this
      ensures Value() == old(Value()).(exts := Some(old(exts).GetOr([]) + ItemsList(ext)))
    {
      exts := Some(exts.GetOr([]) + ItemsList(ext));
    }

    method SetRomName(romName: Option<string>)
      modifies this
      ensures Value() == old(Value()).(romName := romName)
    {
      this.romName := romName;
    }

    method SetQuery(query: string)
      modifies this
      ensures Value() == old(Value()).(query := Some(query))
    {
      this.query := Some(query);
    }

    method SetThreads(threads: int)
      modifies this
      ensures Value() == old(Value()).(threads := Some(threads))
    {
      this.threads := Some(threads);
    }
  }

  lemma {:induction false} FlattenSnoc(parts: seq<(string, string)>, p: (string, string))
    ensures Flatten(parts + [p]) == Flatten(parts) + [p.0, p.1]
  {
    if parts == [] {
      assert parts + [p] == [p];
    } else {
      assert (parts + [p])[1..] == parts[1..] + [p];
      FlattenSnoc(parts[1..], p);
    }
  }

  /** Added flags keep their order and come after the ones already there: `--flags` joins them all with commas. */
  lemma AddedFlagsJoined(v: BuilderValue, added: Items)
    ensures var w := v.(flags := Some(v.flags.GetOr([]) + ItemsList(added)));
      Fields(w)[8] == Some(Implode(",", v.flags.GetOr([]) + ItemsList(added)))
  {
  }

  /** Setting the platform adds its pair and leaves every other flag's pair as it was. */
  lemma SetFieldEmitsFlag(v: BuilderValue, platform: string)
    ensures var w := v.(platform := Some(platform));
      && ("-p", platform) in Parts(w)
      && forall p: (string, string) :: p.0 != "-p" ==> (p in Parts(w) <==> p in Parts(v))
  {
    var w := v.(platform := Some(platform));
    assert Fields(w) == Fields(v)[4 := Some(platform)];
    PairsMembership(FlagOrder, Fields(w), 0, ("-p", platform));
    assert FlagOrder[4] == "-p";
    forall p: (string, string) | p.0 != "-p"
      ensures p in Parts(w) <==> p in Parts(v)
    {
      PairsMembership(FlagOrder, Fields(w), 0, p);
      PairsMembership(FlagOrder, Fields(v), 0, p);
    }
  }
}
