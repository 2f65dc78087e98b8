/** The aggregate of every command of one build: singleton slots and ordered lists. */
module BuildCollection {
  import opened Wrappers
  import opened Commands

  /** A snapshot of a collection's fields, as the orchestrator reads them. */
  datatype CollectionValue = CollectionValue(
    copyResources: Option<Command>,
    package: Option<Command>,
    optimize: Option<Command>,
    compressPackage: Option<Command>,
    transfer: Option<Command>,
    copyBackPreview: Option<Command>,
    generateArtwork: seq<Command>,
    generateEmptyImage: seq<Command>,
    postProcess: seq<Command>,
    preview: seq<Command>)

  class BuildCommandCollection {
    const id: string
    var copyResourcesCommand: Option<Command>
    var packageCommand: Option<Command>
    var optimizeCommand: Option<Command>
    var compressPackageCommand: Option<Command>
    var transferCommand: Option<Command>
    var copyBackPreviewCommand: Option<Command>
    var generateArtworkCommands: seq<Command>
    var generateEmptyImageCommands: seq<Command>
    var postProcessCommands: seq<Command>
    var previewCommands: seq<Command>

    function Value(): CollectionValue
      reads this
    {
      CollectionValue(copyResourcesCommand, packageCommand, optimizeCommand, compressPackageCommand,
        transferCommand, copyBackPreviewCommand, generateArtworkCommands, generateEmptyImageCommands,
        postProcessCommands, previewCommands)
    }

    /** A new collection holding the given commands; by default every slot is null and every list empty. */
    constructor (id: string,
      copyResources: Option<Command> := None, package: Option<Command> := None,
      optimize: Option<Command> := None, compressPackage: Option<Command> := None,
      transfer: Option<Command> := None, copyBackPreview: Option<Command> := None,
      generateArtwork: seq<Command> := [], generateEmptyImage: seq<Command> := [],
      postProcess: seq<Command> := [], preview: seq<Command> := [])
      ensures this.id == id
      ensures Value() == CollectionValue(copyResources, package, optimize, compressPackage, transfer,
        copyBackPreview, generateArtwork, generateEmptyImage, postProcess, preview)
      ensures HasCopyResourcesCommand() == copyResources.Some? && HasPackageCommand() == package.Some?
      ensures HasOptimizeCommand() == optimize.Some? && HasCompressPackageCommand() == compressPackage.Some?
      ensures HasTransferCommand() == transfer.Some? && HasCopyBackPreviewCommand() == copyBackPreview.Some?
      ensures HasGenerateArtworkCommands() == (generateArtwork != [])
      ensures HasGenerateEmptyImageCommands() == (generateEmptyImage != [])
      ensures HasPostProcessCommands() == (postProcess != []) && HasPreviewCommands() == (preview != [])
    {
      this.id := id;
      copyResourcesCommand, packageCommand, optimizeCommand := copyResources, package, optimize;
      compressPackageCommand, transferCommand, copyBackPreviewCommand := compressPackage, transfer, copyBackPreview;
      generateArtworkCommands, generateEmptyImageCommands := generateArtwork, generateEmptyImage;
      postProcessCommands, previewCommands := postProcess, preview;
    }

    predicate HasCopyResourcesCommand() reads this { copyResourcesCommand.Some? }
    predicate HasPackageCommand() reads this { packageCommand.Some? }
    predicate HasOptimizeCommand() reads this { optimizeCommand.Some? }
    predicate HasCompressPackageCommand() reads this { compressPackageCommand.Some? }
    predicate HasTransferCommand() reads this { transferCommand.Some? }
    predicate HasCopyBackPreviewCommand() reads this { copyBackPreviewCommand.Some? }
    predicate HasGenerateArtworkCommands() reads this { generateArtworkCommands != [] }
    predicate HasGenerateEmptyImageCommands() reads this { generateEmptyImageCommands != [] }
    predicate HasPostProcessCommands() reads this { postProcessCommands != [] }
    predicate HasPreviewCommands() reads this { previewCommands != [] }

    // The setters take the command class PHP's parameter type demands.

    method SetCopyResourcesCommand(c: Command)
      requires c.CopyResources?
      modifies this
      ensures Value() == old(Value()).(copyResources := Some(c))
      ensures HasCopyResourcesCommand() && copyResourcesCommand.value == c
    {
      copyResourcesCommand := Some(c);
    }

    method SetPackageCommand(c: Command)
      requires c.Package?
      modifies this
      ensures Value() == old(Value()).(package := Some(c))
      ensures HasPackageCommand() && packageCommand.value == c
    {
      packageCommand := Some(c);
    }

    method SetOptimizeCommand(c: Command)
      requires c.Optimize?
      modifies this
      ensures Value() == old(Value()).(optimize := Some(c))
      ensures HasOptimizeCommand() && optimizeCommand.value == c
    {
      optimizeCommand := Some(c);
    }

    method SetCompressPackageCommand(c: Command)
      requires c.CompressPackage?
      modifies this
      ensures Value() == old(Value()).(compressPackage := Some(c))
      ensures HasCompressPackageCommand() && compressPackageCommand.value == c
    {
      compressPackageCommand := Some(c);
    }

    method SetTransferCommand(c: Command)
      requires c.Transfer?
      modifies this
      ensures Value() == old(Value()).(transfer := Some(c))
      ensures HasTransferCommand() && transferCommand.value == c
    {
      transferCommand := Some(c);
    }

    method SetCopyBackPreviewCommand(c: Command)
      requires c.CopyBackPreview?
      modifies this
      ensures Value() == old(Value()).(copyBackPreview := Some(c))
      ensures HasCopyBackPreviewCommand() && copyBackPreviewCommand.value == c
    {
      copyBackPreviewCommand := Some(c);
    }

    method SetGenerateArtworkCommands(cs: seq<Command>)
      modifies this
      ensures Value() == old(Value()).(generateArtwork := cs)
      ensures HasGenerateArtworkCommands() <==> cs != []
    {
      generateArtworkCommands := cs;
    }

    method SetGenerateEmptyImageCommands(cs: seq<Command>)
      modifies this
      ensures Value() == old(Value()).(generateEmptyImage := cs)
      ensures HasGenerateEmptyImageCommands() <==> cs != []
    {
      generateEmptyImageCommands := cs;
    }

    /** `array_merge` of the current list and the new commands: appends, keeping the existing order. */
    method AddPostProcessCommands(cs: seq<Command>)
      modifies this
      ensures Value() == old(Value()).(postProcess := old(postProcessCommands) + cs)
      ensures |postProcessCommands| == |old(postProcessCommands)| + |cs|
      ensures postProcessCommands[..|old(postProcessCommands)|] == old(postProcessCommands)
      ensures HasPostProcessCommands() <==> old(HasPostProcessCommands()) || cs != []
    {
      postProcessCommands := postProcessCommands + cs;
    }

    /** Replaces the post-process list wholesale. */
    method SetPostProcessCommands(cs: seq<Command>)
      modifies this
      ensures Value() == old(Value()).(postProcess := cs)
      ensures HasPostProcessCommands() <==> cs != []
    {
      postProcessCommands := cs;
    }

    method SetPreviewCommands(cs: seq<Command>)
      modifies this
      ensures Value() == old(Value()).(preview := cs)
      ensures HasPreviewCommands() <==> cs != []
    {
      previewCommands := cs;
    }
  }
}
