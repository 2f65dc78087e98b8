/**
 * The rom extensions of a platform, read from Skyscraper's peas.json: the platform's own
 * formats and, for a platform with aliases, the formats of every alias and the archive formats,
 * without repeats. The decoded file is held in a lazily filled field.
 */
module RomExtensions {
  import opened Wrappers

  /** A platform entry of peas.json; an absent `formats` key or a non-list `aliases` is `None`. */
  datatype Pea = Pea(formats: Option<seq<string>>, aliases: Option<seq<string>>)

  type Peas = map<string, Pea>

  /** The archive formats added by hand to a platform with aliases. */
  const ArchiveFormats: seq<string> := ["*.zip", "*.tar", "*.tar.gz", "*.7z"]

  /** The extensions of the fake platform that ports are scraped under. */
  const PortmasterFormats: seq<string> := ["*.sh", "*.7z", "*.zip"]

  const MissingPeasMessage := "Cannot read peas.json from skyscraper config folder"

  predicate Distinct(s: seq<string>) {
    forall i, j :: 0 <= i < j < |s| ==> s[i] != s[j]
  }

  /** `$peas[$platform]['formats'] ?? []` */
  function Formats(peas: Peas, platform: string): seq<string> {
    if platform in peas && peas[platform].formats.Some? then peas[platform].formats.value else []
  }

  /** The formats of the aliases, concatenated in alias order, as the `array_merge` loop gathers them. */
  function AliasFormats(peas: Peas, aliases: seq<string>): seq<string> {
    if aliases == [] then [] else AliasFormats(peas, aliases[..|aliases| - 1]) + Formats(peas, aliases[|aliases| - 1])
  }

  /** `array_values(array_unique($s))`: the first occurrence of each value, in order. */
  function Unique(s: seq<string>): (r: seq<string>)
    ensures forall x :: x in r <==> x in s
    ensures Distinct(r)
  {
    if s == [] then []
    else
      var init := s[..|s| - 1];
      assert s == init + [s[|s| - 1]];
      var u := Unique(init);
      if s[|s| - 1] in u then u else u + [s[|s| - 1]]
  }

  /** The extensions of a real platform, as the method below computes them from the decoded file. */
  function Extensions(peas: Peas, platform: string): seq<string> {
    var own := Formats(peas, platform);
    if platform in peas && peas[platform].aliases.Some? then
      Unique(own + AliasFormats(peas, peas[platform].aliases.value) + ArchiveFormats)
    else own
  }

  class RomExtensionProvider {
    /** The decoded peas.json, `None` while it has not been read (PHP's `null`). */
    var peas: Option<Peas>
    /** What reading peas.json yields: its decoded content, or `None` when the file is missing. */
    const peasFile: Option<Peas>
    /** The name of the fake ports platform, a constant of the application. */
    const fakePortmasterPlatform: string
    /** How often the file has been read. */
    ghost var loads: nat

    constructor (peasFile: Option<Peas>, fakePortmasterPlatform: string)
      ensures this.peasFile == peasFile && this.fakePortmasterPlatform == fakePortmasterPlatform
      ensures peas == None && loads == 0
    {
      this.peasFile := peasFile;
      this.fakePortmasterPlatform := fakePortmasterPlatform;
      peas := None;
      loads := 0;
    }

    /** PHP's `!$this->peas`: true for `null` and for an empty array. */
    predicate NeedsLoad()
      reads this
    {
      peas.None? || peas.value == map[]
    }

    /**
     * `getRomExtensionsForPlatform`. The fake ports platform never reads the file; otherwise the
     * file is read when the field is still empty, and a missing file raises a RuntimeException.
     */
    method GetRomExtensionsForPlatform(platform: string) returns (r: Result<seq<string>>)
      modifies this
      ensures platform == fakePortmasterPlatform ==>
        r == Success(PortmasterFormats) && peas == old(peas) && loads == old(loads)
      ensures platform != fakePortmasterPlatform && !old(NeedsLoad()) ==>
        peas == old(peas) && loads == old(loads) && r == Success(Extensions(peas.value, platform))
      ensures platform != fakePortmasterPlatform && old(NeedsLoad()) && peasFile.None? ==>
        peas == old(peas) && loads == old(loads) && r == Failure(Exception(RuntimeException, MissingPeasMessage))
      ensures platform != fakePortmasterPlatform && old(NeedsLoad()) && peasFile.Some? ==>
        peas == peasFile && loads == old(loads) + 1 && r == Success(Extensions(peasFile.value, platform))
    {
      if platform == fakePortmasterPlatform {
        return Success(PortmasterFormats);
      }
      if NeedsLoad() {
        if peasFile.None? {
          return Failure(Exception(RuntimeException, MissingPeasMessage));
        }
        peas := peasFile;
        loads := loads + 1;
      }
      var p := peas.value;
      var extensions := Formats(p, platform);
      if !(platform in p && p[platform].aliases.Some?) {
        return Success(extensions);
      }
      extensions := MergeAliasFormats(p, extensions, p[platform].aliases.value);
      extensions := extensions + ArchiveFormats;
      return Success(Unique(extensions));
    }
  }

  /** The `foreach` over the aliases: each alias's formats are appended in turn. */
  method MergeAliasFormats(peas: Peas, own: seq<string>, aliases: seq<string>) returns (extensions: seq<string>)
    ensures extensions == own + AliasFormats(peas, aliases)
  {
    extensions := own;
    var i := 0;
    while i < |aliases|
      invariant 0 <= i <= |aliases|
      invariant extensions == own + AliasFormats(peas, aliases[..i])
    {
      assert aliases[..i + 1][..i] == aliases[..i];
      extensions := extensions + Formats(peas, aliases[i]);
      i := i + 1;
    }
    assert aliases[..i] == aliases;
  }

  /** Deduplicating a list without repeats changes nothing. */
  lemma {:induction false} UniqueOfDistinct(s: seq<string>)
    requires Distinct(s)
    ensures Unique(s) == s
  {
    if s != [] {
      var init := s[..|s| - 1];
      assert Distinct(init);
      UniqueOfDistinct(init);
      assert s[|s| - 1] !in init;
      assert s == init + [s[|s| - 1]];
    }
  }

  /** What is kept of a list is kept, in front and in order, when more values follow it. */
  lemma {:induction false} UniquePrefix(p: seq<string>, q: seq<string>)
    ensures |Unique(p)| <= |Unique(p + q)| && Unique(p + q)[..|Unique(p)|] == Unique(p)
  {
    if q == [] {
      assert p + q == p;
    } else {
      var q' := q[..|q| - 1];
      assert (p + q)[..|p + q| - 1] == p + q';
      UniquePrefix(p, q');
    }
  }

  /**
   * A platform with aliases lists each of its own formats, each alias format and each archive
   * format exactly once and nothing else; when its own formats have no repeats they come first,
   * in their order.
   */
  lemma ExtensionsWithAliases(peas: Peas, platform: string)
    requires platform in peas && peas[platform].aliases.Some?
    ensures var r := Extensions(peas, platform);
      && Distinct(r)
      && (forall x :: x in r <==>
            x in Formats(peas, platform) || x in AliasFormats(peas, peas[platform].aliases.value) || x in ArchiveFormats)
      && (Distinct(Formats(peas, platform)) ==>
            |Formats(peas, platform)| <= |r| && r[..|Formats(peas, platform)|] == Formats(peas, platform))
  {
    var own := Formats(peas, platform);
    var rest := AliasFormats(peas, peas[platform].aliases.value) + ArchiveFormats;
    assert own + AliasFormats(peas, peas[platform].aliases.value) + ArchiveFormats == own + rest;
    if Distinct(own) {
      UniquePrefix(own, rest);
      UniqueOfDistinct(own);
    }
  }

  /** A platform without aliases gets its own formats as they are, or none when it is unknown. */
  lemma ExtensionsWithoutAliases(peas: Peas, platform: string)
    requires !(platform in peas && peas[platform].aliases.Some?)
    ensures Extensions(peas, platform) == Formats(peas, platform)
    ensures platform !in peas ==> Extensions(peas, platform) == []
  {
  }

  /** An alias's formats are among the aliases' formats. */
  lemma {:induction false} AliasFormatsContain(peas: Peas, aliases: seq<string>, k: nat, x: string)
    requires k < |aliases| && x in Formats(peas, aliases[k])
    ensures x in AliasFormats(peas, aliases)
  {
    if k < |aliases| - 1 {
      AliasFormatsContain(peas, aliases[..|aliases| - 1], k, x);
    }
  }
}
