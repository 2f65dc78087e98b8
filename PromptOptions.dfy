/**
 * What the interactive build prompt offers: the variants of each package, the options of each
 * variant and the themes, as read-only ordered PHP arrays, and the lookups over them.
 */
module PromptOptions {
  import opened Wrappers
  import opened PhpArray

  const ArtworkOption := "artwork"
  const FolderOption := "folder"

  /** An option key or variant name with its prompt text. */
  type Labels = seq<(string, string)>

  datatype PromptOptions = PromptOptions(
    variants: seq<(string, Labels)>,
    options: seq<(string, seq<(string, Labels)>)>,
    themes: Labels)
  {
    /** `getPackages`: the keys of the variant map, in order. */
    function GetPackages(): (r: seq<string>)
      ensures |r| == |variants|
      ensures forall i :: 0 <= i < |r| ==> r[i] == variants[i].0
    {
      Keys(variants)
    }

    /** `getVariants`: the variants of a package; an unknown package raises. */
    function GetVariants(package: string): (r: Result<Labels>)
      ensures r.Success? <==> HasKey(variants, package)
      ensures r.Success? ==> (package, r.value) in variants
      ensures r.Failure? ==> r.error == Exception(InvalidArgumentException, "")
    {
      var v := Get(variants, package);
      if v.None? then Failure(Exception(InvalidArgumentException, "")) else Success(v.value)
    }

    /** `getOptions`: the options of a variant; a missing package or variant raises. */
    function GetOptions(package: string, variant: string): (r: Result<Labels>)
      ensures r.Success? <==> HasKey(options, package) && HasKey(Get(options, package).value, variant)
      ensures r.Success? ==> (variant, r.value) in Get(options, package).value
      ensures r.Failure? ==> r.error == Exception(InvalidArgumentException, "")
    {
      var p := Get(options, package);
      if p.None? then Failure(Exception(InvalidArgumentException, ""))
      else
        var o := Get(p.value, variant);
        if o.None? then Failure(Exception(InvalidArgumentException, "")) else Success(o.value)
    }

    /**
     * `getOptionDefaults`: "artwork" and then "folder", each one only when the variant offers
     * that option; the errors of `getOptions` propagate.
     */
    function GetOptionDefaults(package: string, variant: string): (r: Result<seq<string>>)
      ensures r.Failure? <==> GetOptions(package, variant).Failure?
      ensures r.Failure? ==> r.error == GetOptions(package, variant).error
      ensures r.Success? ==>
        var o := GetOptions(package, variant).value;
        && (ArtworkOption in r.value <==> HasKey(o, ArtworkOption))
        && (FolderOption in r.value <==> HasKey(o, FolderOption))
        && (forall d :: d in r.value ==> d == ArtworkOption || d == FolderOption)
        && |r.value| <= 2
        && (|r.value| == 2 ==> r.value == [ArtworkOption, FolderOption])
    {
      var o := GetOptions(package, variant);
      if o.Failure? then Failure(o.error)
      else
        Success((if HasKey(o.value, ArtworkOption) then [ArtworkOption] else [])
                + (if HasKey(o.value, FolderOption) then [FolderOption] else []))
    }
  }

  /** A name is among the packages exactly when asking for its variants succeeds. */
  lemma PackagesHaveVariants(o: PromptOptions, package: string)
    ensures package in o.GetPackages() <==> o.GetVariants(package).Success?
  {
    if package in o.GetPackages() {
      var i :| 0 <= i < |o.GetPackages()| && o.GetPackages()[i] == package;
      assert o.variants[i].0 == package;
    }
  }
}
