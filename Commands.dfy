/** The command value objects the build is made of (one variant per command class). */
module Commands {
  import opened Wrappers
  import opened Text

  /** A post-process command: which strategy to run over which packaged images. */
  datatype PostProcessCommand = PostProcessCommand(
    source: string,
    package: string,
    strategy: string,
    options: map<string, string>,
    files: bool,
    folders: bool)

  /** Only the fields this model reads are kept in each variant. */
  datatype Command =
    | CopyResources(artworkFolders: seq<string>)
    | GenerateRomArtwork(romAbsolutePath: string)
    | GenerateFolderArtwork(folderAbsolutePath: string)
    | GenerateEmptyImage(absolutePath: string)
    | PostProcess(pp: PostProcessCommand)
    | Preview(target: string, previewName: string, previewType: string)
    | GenerateStaticPreview(target: string, previewName: string)
    | Package(packageName: string)
    | Optimize(packageName: string)
    | CompressPackage(packageName: string, nukeOptions: seq<(string, bool)>)
    | Transfer(packageName: string, zipped: bool)
    | CopyBackPreview(packageName: string)
    | PrimeCache

  const CopyResourcesName := "copy-resources"
  const PackageName := "package"
  const PostProcessName := "post-process"
  const OptimizeName := "optimize"
  const CompressPackageName := "compress-package"
  const TransferName := "transfer"
  const CopyBackPreviewName := "copy-back-preview"

  /** The fully qualified PHP class name, as `get_class` reports it. */
  function ClassName(c: Command): string {
    "App\\Command\\" +
    match c
    case CopyResources(_) => "CopyResourcesCommand"
    case GenerateRomArtwork(_) => "GenerateRomArtworkCommand"
    case GenerateFolderArtwork(_) => "GenerateFolderArtworkCommand"
    case GenerateEmptyImage(_) => "GenerateEmptyImageCommand"
    case PostProcess(_) => "PostProcessCommand"
    case Preview(_, _, _) => "PreviewCommand"
    case GenerateStaticPreview(_, _) => "GenerateStaticPreviewCommand"
    case Package(_) => "PackageCommand"
    case Optimize(_) => "OptimizeCommand"
    case CompressPackage(_, _) => "CompressPackageCommand"
    case Transfer(_, _) => "TransferCommand"
    case CopyBackPreview(_) => "CopyBackPreviewCommand"
    case PrimeCache => "PrimeCacheCommand"
  }

  /**
   * `getTarget()` of the commands that have one (TargetableCommandInterface);
   * None for the commands without that method.
   */
  function Target(c: Command): Option<string> {
    match c
    case GenerateRomArtwork(p) => Some(Basename(p))
    case GenerateFolderArtwork(p) => Some(Basename(p))
    case GenerateEmptyImage(p) => Some(Basename(p))
    case PostProcess(pp) => Some(pp.strategy + ": `" + pp.source + "`")
    case Preview(_, _, _) => Some("animated")
    case GenerateStaticPreview(_, _) => Some("static")
    case _ => None
  }
}
