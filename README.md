# boxart-buddy core, modelled in Dafny

boxart-buddy builds artwork packages for handheld emulation front ends. It scrapes box art with
Skyscraper, composites it through a chain of post-processing strategies (counters, scrollbars,
text, sibling carousels), packages and optionally compresses the result, and transfers it to a
device. This project models the deterministic logic at the centre of that pipeline and proves
what the code promises about it:

- **Build orchestration.** `BuildCommandCollection` is modelled as a class with singleton slots and
  command lists. `CentralHandler` becomes a stage machine over an abstract outcome oracle: each
  command either succeeds or throws with a message. The machine records its lifecycle events and
  filesystem effects in an effect log. The proofs cover:
  - the fixed stage order;
  - the critical versus best-effort failure policy;
  - the LogicException raised when the Package command is missing;
  - the shape of repeatable stages.
- **Post-processing.** The models cover:
  - the name-based strategy dispatch;
  - the sibling-carousel windows with their modular loop fix-up, and the out-to-in draw order;
  - artwork sorting;
  - save staging and the temporary-folder mirror;
  - the counter label, offsets and radius;
  - the geometry of the bar scrollbar and of the dot pagination;
  - bracket trimming and title truncation in the text strategy.

  Image primitives become recorded draw operations, or are left out.
- **Pure helpers.** The models cover:
  - the luma-based colour inversion and the cover/fit sizing;
  - the path string helpers;
  - the Skyscraper argv builder;
  - configuration lookups;
  - the ordered-list provider and the rom-extension provider;
  - folder-to-platform resolution;
  - the theme-to-make configuration merge;
  - the nuke script;
  - the interactive prompt choices and options.

The modelling follows these conventions:

- PHP arrays that are only looked up become maps. Ordered PHP arrays become sequences of key/value
  pairs (module `PhpArray`).
- `null` is `Option.None`. A thrown exception is `Result.Failure` carrying its exception class and
  message (module `Wrappers`).
- Floating-point expressions whose operands are rationals are computed exactly on `real`. PHP's
  `round` rounds halves away from zero (module `PhpMath`).
- Objects whose fields the code updates become classes with `modifies` clauses. Loops become
  methods with invariants, proved equal to a specification function about which the properties are
  stated as lemmas.

## Model

| member | source | states |
|---|---|---|
| Path.SplitImplode | src/Util/Path.php:40-41 | splitting a path on '/' and joining the pieces with '/' gives the path back, and no piece holds a '/' |
| Path.CollapseSlashesSpec | src/Util/Path.php:38-41 | after `preg_replace('#(/)+#', '/')` no two slashes are adjacent, the string is no longer than before, and its first and last characters are kept |
| Path.CollapseAppend | src/Util/Path.php:38-41 | collapsing slashes works piecewise at a boundary where the second part does not start with a slash |
| Path.CanonicalPartsClean | src/Util/Path.php:40-42 | the canonical segments of a path are never empty or ".", hold no '/', and an absolute path keeps no ".." |
| Path.MapBackslashesSpec | src/Util/Path.php:40-42 | canonicalisation first turns every backslash into '/' and keeps every other character in place |
| Path.JoinClean | src/Util/Path.php:36-43 | a joined path never holds two slashes in a row, and it ends in '/' only when it is the root "/" itself |
| Path.CanonicalizeLast | src/Util/Path.php:40-42 | a plain last segment survives canonicalisation as the last segment of the result |
| Path.JoinedBasename | src/Util/Path.php:36-43 | joining a folder with a plain file name gives a path whose basename is that name |
| Path.SplitImplodeAll | src/Util/Path.php:36-43 | splitting the parts joined with '/' on '/' gives the pieces of each part, one part after the other |
| Path.SplitCollapse | src/Util/Path.php:39-42 | collapsing runs of slashes keeps the first piece of the split and removes only empty pieces after it |
| Path.CanonicalPartsKeep | src/Util/Path.php:40-42 | when no piece is "." or "..", the canonical segments are exactly the non-empty pieces, in order |
| Path.JoinAbsolute | src/Util/Path.php:36-43 | joining parts that start with '/', hold no backslash and no "." or ".." piece gives "/" followed by every non-empty piece of every part, one slash apart |
| Path.JoinWithBaseAppends | src/Util/Path.php:17-22 | under a canonical absolute base, `joinWithBase` gives the base, then every non-empty piece of the parts in order, one slash apart; with no such piece it gives the base itself |
| Path.ReplaceAbsent | src/Util/Path.php:33 | `str_replace` of a needle that does not occur changes nothing |
| Path.ReplaceByNothingShortens | src/Util/Path.php:33 | deleting the needle never lengthens the string, and shortens it by at least the needle's length when it occurs |
| Path.RemoveNoLeadingSlash | src/Util/Path.php:29-34 | the result of `remove` never starts with a slash |
| Path.RemoveBaseOfChild | src/Util/Path.php:24-34 | removing the base "/b" from "/b/rel" gives "rel", and from "/b" itself gives "", when "rel" does not contain "b" again (as in tests/Util/PathTest.php:56-63) |
| Path.RemoveExtensionSpec | src/Util/Path.php:45-48 | `removeExtension` keeps a prefix of the name: all of it without a '.', otherwise everything before the last '.' |
| Path.RemoveLastExtension | src/Util/Path.php:45-48 | only the last extension goes: "stem.ext" becomes "stem" whatever dots "stem" holds, and an empty extension after a trailing dot goes too (as in tests/Util/PathTest.php:44-53) |
| Path.RemoveExtensionExamples | tests/Util/PathTest.php:47-52 | the test cases "my_file.php", "readme." and "readme" give "my_file", "readme" and "readme" |
| Path.RemoveExtensionDottedExamples | tests/Util/PathTest.php:47-52 | the test cases "a.b.c.d.file.php", "a.b.c.d.file.7z" and "readme.archive" give "a.b.c.d.file", "a.b.c.d.file" and "readme" |
| Path.SizeUnitOf | src/Util/Path.php:72-81 | megabytes above 10^6 bytes, kilobytes above 1000 up to 10^6, bytes otherwise: exactly one unit for every size |
| Path.RoundHundredthsNearest | src/Util/Path.php:75-77 | the printed quotient is the hundredth nearest to bytes/1000 (or /10^6), a tie going up, as PHP's `round(…, 2)` does for non-negative values |
| Path.FormatSmall | src/Util/Path.php:80 | at most 1000 bytes are printed as the integer followed by " B" |
| Path.PrettifyRunSpec | src/Util/Path.php:85 | the replacement of every run of characters outside [a-z0-9] by one '-' yields only [a-z0-9-] and never two dashes in a row |
| Path.PrettifyFilenameSpec | src/Util/Path.php:83-86 | a prettified file name consists of lower-case letters, digits and single dashes |
| Path.PathToDash | src/Util/Path.php:88-91 | `pathToDash` keeps the length and replaces exactly the slashes by '-' |
| Path.PathToDashNoSlash | src/Util/Path.php:88-91 | the result holds no '/' |
| Text.LowerChar | src/Model/Config.php:82-85 | `strtolower` leaves no ASCII capital and keeps every other character |
| Text.Lower | src/Model/Config.php:82-85 | `strtolower` keeps the length and folds each character on its own |
| Text.NatToString | src/Util/Path.php:80 | an integer is printed as a non-empty run of decimal digits |
| Text.StrCmp | src/PostProcess/ArtworkTrait.php:29 | `strcmp` returns -1, 0 or 1, and 0 exactly for equal strings |
| Text.StrCmpAntisymmetric | src/PostProcess/ArtworkTrait.php:29 | swapping the arguments of `strcmp` negates the result |
| Text.StrCmpTransitive | src/PostProcess/ArtworkTrait.php:29 | `strcmp` orders strings transitively, so sorting folders by it is well defined |
| Text.NatCaseCmp | src/PostProcess/ArtworkTrait.php:15 | the natural comparison, characters compared after `toupper` and digit runs by value, returns -1, 0 or 1 |
| Text.NatCaseCmpAntisymmetric | src/PostProcess/ArtworkTrait.php:15 | swapping the arguments of the natural comparison negates the result |
| Text.UpperChar | src/PostProcess/ArtworkTrait.php:15 | `toupper` leaves no ASCII small letter and keeps every other character |
| Text.Upper | src/PostProcess/ArtworkTrait.php:15 | upper-casing keeps the length and folds each character on its own |
| Text.NatCaseCmpWithoutDigits | src/PostProcess/ArtworkTrait.php:15 | on strings without digits the natural comparison is `strcmp` of the two upper-cased strings |
| Text.NatCaseCmpDigitRuns | src/PostProcess/ArtworkTrait.php:15 | two strings of digits compare by their numeric values, so "9" sorts before "10" |
| Text.NatCaseCmpCommonPrefix | src/PostProcess/ArtworkTrait.php:15 | a common prefix without digits does not change the natural comparison |
| Text.NatCaseCmpUnderscore | src/PostProcess/ArtworkTrait.php:15 | "Mario_Kart.png" sorts after "MarioKart.png", because '_' is above 'K' once letters are upper-cased |
| Text.DigitRunLength | src/PostProcess/ArtworkTrait.php:15 | the natural comparison reads the longest run of digits at the head of a string |
| Text.ContainsAt | src/PostProcess/ArtworkTrait.php:59 | `Str::contains` holds exactly when the needle occurs at some position of the string |
| Text.LastIndexOfSpec | src/Util/Path.php:47 | the last occurrence of a character: -1 exactly when it is absent, and no occurrence after the returned index |
| Text.TrimLeftSpec | src/Util/Path.php:31-33 | `ltrim` removes a prefix and leaves a string that does not start with a trimmed character |
| Text.TrimRightSpec | src/PostProcess/ArtworkTrait.php:33 | `rtrim` removes a suffix and leaves a string that does not end with a trimmed character |
| Text.BasenameHasNoSlash | src/PostProcess/ArtworkTrait.php:33-34 | a basename holds no '/' |
| Text.DirnameOfRelative | src/Generator/ConfigFolderGenerator.php:58-66 | the parent of a relative path with a slash is shorter than the path and still relative, so walking up through the parents ends |
| Sorting.InsertionSort | src/PostProcess/ArtworkTrait.php:15-51 | the sort computes the insertion fold `InsertAll`; under a comparator relating any two elements the result is ordered by it and a permutation of the input |
| Sorting.InsertKeepsSorted | src/PostProcess/ArtworkTrait.php:19-51 | inserting an element comparable with all others into an ordered list keeps it ordered and adds exactly that element |
| Sorting.InsertAllSorted | src/PostProcess/ArtworkTrait.php:15-51 | the insertion fold under a comparator relating any two elements is ordered and a permutation of its input |
| Sorting.InsertAllStable | src/PostProcess/ArtworkTrait.php:19-51 | the sort is stable: under a total, transitive comparator, the elements of any class of mutually tied elements come out in their input order |
| Sorting.TiesKeepOrder | src/PostProcess/ArtworkTrait.php:19-51 | the elements tied with any one input element keep their input order |
| Sorting.StableLast | src/Provider/OrderedListProvider.php:28 | the last element of a class of tied elements in the sorted output is the last element of that class in the input |
| BuildCollection.BuildCommandCollection.constructor | src/Command/BuildCommandCollection.php:8-21 | a new collection has its id and the given commands, by default none in any slot or list; each `has…` query is true exactly when its slot or list was given a command |
| BuildCollection.BuildCommandCollection.SetCopyResourcesCommand | src/Command/BuildCommandCollection.php:93-101 | the copy-resources slot holds the command afterwards, so `hasCopyResourcesCommand` is true, and no other slot or list changes |
| BuildCollection.BuildCommandCollection.SetPackageCommand | src/Command/BuildCommandCollection.php:103-111 | the package slot holds the command afterwards and nothing else changes |
| BuildCollection.BuildCommandCollection.SetOptimizeCommand | src/Command/BuildCommandCollection.php:113-121 | the optimize slot holds the command afterwards and nothing else changes |
| BuildCollection.BuildCommandCollection.SetCompressPackageCommand | src/Command/BuildCommandCollection.php:123-131 | the compress-package slot holds the command afterwards and nothing else changes |
| BuildCollection.BuildCommandCollection.SetTransferCommand | src/Command/BuildCommandCollection.php:133-141 | the transfer slot holds the command afterwards and nothing else changes |
| BuildCollection.BuildCommandCollection.SetCopyBackPreviewCommand | src/Command/BuildCommandCollection.php:143-151 | the copy-back-preview slot holds the command afterwards and nothing else changes |
| BuildCollection.BuildCommandCollection.SetGenerateArtworkCommands | src/Command/BuildCommandCollection.php:58-156 | the artwork list is replaced, and `hasGenerateArtworkCommands` is true exactly when the new list is not empty |
| BuildCollection.BuildCommandCollection.SetGenerateEmptyImageCommands | src/Command/BuildCommandCollection.php:63-161 | the empty-image list is replaced, and its `has…` query is true exactly when the new list is not empty |
| BuildCollection.BuildCommandCollection.AddPostProcessCommands | src/Command/BuildCommandCollection.php:163-166 | `array_merge` appends: the old post-process commands stay in front, in order, the new ones follow, and the list is non-empty exactly when either part was |
| BuildCollection.BuildCommandCollection.SetPostProcessCommands | src/Command/BuildCommandCollection.php:168-171 | the post-process list is replaced, and nothing else changes |
| BuildCollection.BuildCommandCollection.SetPreviewCommands | src/Command/BuildCommandCollection.php:83-176 | the preview list is replaced, and its `has…` query is true exactly when the new list is not empty |
| CentralHandler.Handle | src/Command/Handler/CentralHandler.php:50-92 | every command class with a registered handler goes to that handler, whose outcome is the result; any other class raises a RuntimeException |
| CentralHandler.EffectLog.constructor | src/Command/Handler/CentralHandler.php:45 | the dispatcher has seen no event yet |
| CentralHandler.EffectLog.Emit | src/Command/Handler/CentralHandler.php:105 | dispatching records exactly one more event at the end |
| CentralHandler.DeleteOutputFolder | src/Command/Handler/CentralHandler.php:224-247 | the output folder, the temporary artwork folder and the post-process folder are removed, in that order |
| CentralHandler.RunSingle | src/Command/Handler/CentralHandler.php:104-113 | a singleton stage does nothing without its command; otherwise it dispatches Started, handles the command, then Completed, or Failed with the message, and re-throws only when it is critical |
| CentralHandler.RunItems | src/Command/Handler/CentralHandler.php:118-121 | the `foreach` of a repeatable stage dispatches Progressed with each command's target before handling it, and stops at the first exception |
| CentralHandler.RunRepeat | src/Command/Handler/CentralHandler.php:115-127 | a repeatable stage with commands dispatches Started with the count, the items, then Completed or Failed; a critical one re-throws, the preview stage does not |
| CentralHandler.CriticalStages | src/Command/Handler/CentralHandler.php:104-141 | copy-resources, artwork and empty-image stages run in order; the first exception ends the build with that exception |
| CentralHandler.PackageStages | src/Command/Handler/CentralHandler.php:143-168 | a missing package command raises the LogicException "Package command must always be present"; otherwise the package stage and the post-process stage run, and an exception in either ends the build |
| CentralHandler.PostProcessStage | src/Command/Handler/CentralHandler.php:156-168 | the post-process stage runs its commands and re-throws the first exception |
| CentralHandler.BestEffortStages | src/Command/Handler/CentralHandler.php:170-221 | preview, optimize, compress-package, transfer and copy-back-preview run in order and none of them lets an exception out |
| CentralHandler.DeliveryStages | src/Command/Handler/CentralHandler.php:193-221 | compress-package, transfer and copy-back-preview run in order and none of them lets an exception out |
| CentralHandler.HandleBuildCommandCollection | src/Command/Handler/CentralHandler.php:99-222 | the events dispatched and the exception thrown are exactly those of the stage plan `Build` run over the collection's contents |
| BuildProperties.StagesStartInFixedOrder | src/Command/Handler/CentralHandler.php:99-222 | whatever the handlers do, the stages that start do so in the fixed order copy-resources, artwork, empty images, package, post-process, preview, optimize, compress, transfer, copy-back-preview |
| BuildProperties.PlanStartsInOrder | src/Command/Handler/CentralHandler.php:99-222 | running any prefix of the plan starts stages only in the plan's order |
| BuildProperties.StepStartsOwnStage | src/Command/Handler/CentralHandler.php:105-147 | a stage dispatches at most its own Started event and no other |
| BuildProperties.ItemsStartNothing | src/Command/Handler/CentralHandler.php:118-121 | the items of a repeatable stage dispatch only Progressed events |
| BuildProperties.PlanNamesOfPlan | src/Command/Handler/CentralHandler.php:99-222 | the stage plan names the stages in the fixed order |
| BuildProperties.PreludeComesFirst | src/Command/Handler/CentralHandler.php:101-102 | every build starts with removing the three temporary folders and resetting the missing-rom file, before any stage starts |
| BuildProperties.PlanTraceSplit | src/Command/Handler/CentralHandler.php:99-222 | when the first k steps complete, the build's effects are theirs followed by those of the rest of the plan |
| BuildProperties.ThrowingStageEndsFailed | src/Command/Handler/CentralHandler.php:109-126 | a stage that throws has dispatched Failed with the exception's message as its last event |
| BuildProperties.CriticalFailureHalts | src/Command/Handler/CentralHandler.php:104-168 | when critical step k is the first to throw, the build ends right after it with its exception, and, unless it is the package check, with its Failed event last |
| BuildProperties.CopyResourcesFailureStopsBuild | src/Command/Handler/CentralHandler.php:104-113 | a failing copy-resources command leaves only the prelude, Started and Failed, and the build throws its exception |
| BuildProperties.MissingPackageRaisesLogicException | src/Command/Handler/CentralHandler.php:143-145 | without a package command the build throws the LogicException after the first three stages and before any package event |
| BuildProperties.BestEffortNeverThrows | src/Command/Handler/CentralHandler.php:170-221 | none of the steps from preview on throws |
| BuildProperties.BestEffortStagesAllRun | src/Command/Handler/CentralHandler.php:170-221 | once the critical steps complete, the build throws nothing and every present best-effort stage starts, even after an earlier one failed |
| BuildProperties.ItemsAllSucceed | src/Command/Handler/CentralHandler.php:118-121 | when no item fails, every item dispatches its Progressed event, in order, and nothing is thrown |
| BuildProperties.FirstFailureStopsItems | src/Command/Handler/CentralHandler.php:118-121 | the first failing item ends the loop with its error; only the items up to it dispatched Progressed, the failing one too when it has a target |
| BuildProperties.RepeatStageShape | src/Command/Handler/CentralHandler.php:115-127 | a repeatable stage whose items all succeed dispatches Started with the count, one Progressed per item, then Completed |
| BuildProperties.PackageOnlyBuild | src/Command/Handler/CentralHandler.php:99-222 | a collection holding only a successful package command produces the prelude, then the package stage's Started and Completed, and nothing is thrown |
| PostProcessHandler.FirstArm | src/Command/Handler/PostProcessHandler.php:40-51 | `match` picks an arm whose strategy name equals the command's strategy, and finds none only when no arm has that name |
| PostProcessHandler.Dispatch | src/Command/Handler/PostProcessHandler.php:34-52 | a command that is not a post-process command raises an InvalidArgumentException; otherwise the strategy run is exactly the one whose name is the command's strategy, and an unknown name raises the RuntimeException `Cannot handle unknown strategy "…"` |
| PostProcessHandler.ArmsComplete | src/Command/Handler/PostProcessHandler.php:21-49 | every registered strategy has an arm |
| PostProcessHandler.NamesDistinct | src/Command/Handler/PostProcessHandler.php:41-49 | no two strategies share a name, so at most one arm can match |
| Artwork.IsFolderExactly | src/PostProcess/ArtworkTrait.php:57-60 | a path counts as a folder exactly when "catalogue/Folder/box" occurs somewhere in it |
| Artwork.Position | src/PostProcess/ArtworkTrait.php:36-37 | `array_search` finds nothing exactly when no display name of the sort list is the rom name; otherwise it returns the key of the first entry holding that name |
| Artwork.CompareAntisymmetric | src/PostProcess/ArtworkTrait.php:19-51 | swapping the two arguments of the `usort` callback negates its result |
| Artwork.FoldersCompareByPath | src/PostProcess/ArtworkTrait.php:21-29 | two folder paths are ordered by `strcmp` of the paths, and compare equal only when they are the same path |
| Artwork.ImagesCompareByDisplayName | src/PostProcess/ArtworkTrait.php:33-50 | two non-folder images are ordered by `strcmp` of the keys `array_search` finds for their names without ".png"; an unknown name sorts before a known truthy key; two unknown names compare equal |
| Artwork.ByFileNameTotal | src/PostProcess/ArtworkTrait.php:15 | the `strnatcasecmp` order on the image keys relates every pair of images one way or the other |
| Artwork.CompareTotal | src/PostProcess/ArtworkTrait.php:19-51 | the `usort` callback relates every pair of paths one way or the other |
| Artwork.CompareTransitive | src/PostProcess/ArtworkTrait.php:19-51 | when every key of the sort list is truthy, `Compare(a, b) <= 0` and `Compare(b, c) <= 0` give `Compare(a, c) <= 0`: folders by `strcmp` of the path first, then images of unknown roms, then images by `strcmp` of their display name |
| Artwork.TiedPathsKeepOrder | src/PostProcess/ArtworkTrait.php:15-51 | when every key of the sort list is truthy, the paths the callback ties with a given path appear in the `usort` result in the order they had after the `uksort` (PHP 8 sorts are stable) |
| Artwork.UnknownRomsKeepOrder | src/PostProcess/ArtworkTrait.php:36-50 | when no display name is falsy, the images whose rom `array_search` does not find (the ones logged as out of order) keep, among themselves, the order of the natural sort |
| Artwork.FoldersFirst | src/PostProcess/ArtworkTrait.php:21-27 | in a list sorted by the callback, every path before a folder path is itself a folder path |
| Artwork.SortArtwork | src/PostProcess/ArtworkTrait.php:11-55 | the result is a permutation of the image paths; the natural sort is the insertion fold by `strnatcasecmp` of the keys; with an empty sort list the result is those paths in that order, otherwise, when every key of the sort list is truthy, the insertion fold of them by the callback, hence sorted by it, with every class of tied paths keeping its natural order; the sort list is the one `getOrderedList` builds: distinct keys in strictly ascending `strcmp` order, each mapping to the last relevant rom the names map gives it, exactly the named roms that have an image |
| OrderedList.ImageExactly | src/Provider/OrderedListProvider.php:14-18 | a name is collected exactly when some element maps to it |
| OrderedList.RomNamesExactly | src/Provider/OrderedListProvider.php:14-18 | the rom keys are exactly the image basenames without ".png" |
| OrderedList.CollectRomNames | src/Provider/OrderedListProvider.php:14-18 | the `foreach` collects exactly the set of rom keys of the images |
| OrderedList.Relevant | src/Provider/OrderedListProvider.php:22 | `array_intersect_key` keeps exactly the name entries whose rom key is among the images |
| OrderedList.ByDisplayNameTotal | src/Provider/OrderedListProvider.php:28 | the `asort` order by display name relates every pair of entries one way or the other |
| OrderedList.SortedByDisplayNameAll | src/Provider/OrderedListProvider.php:28 | after the `asort`, modelled as a `strcmp` order of the display names, every entry's display name is at most every later one's |
| OrderedList.FlipStepOrder | src/Provider/OrderedListProvider.php:30 | flipping the next entry of a display-name-sorted list keeps the flipped keys strictly ascending and puts that name last |
| OrderedList.FlipStepContents | src/Provider/OrderedListProvider.php:30 | after each flip step the keys are distinct, every entry is an inverted input entry, and every display name seen so far is a key |
| OrderedList.FlipOfSorted | src/Provider/OrderedListProvider.php:30 | `array_flip` of a sorted list keeps all the properties above for the whole list |
| OrderedList.Flip | src/Provider/OrderedListProvider.php:30 | the flip loop computes the `array_flip` of its input |
| OrderedList.FlipOfLast | src/Provider/OrderedListProvider.php:30 | `array_flip` has distinct keys and maps each value to the key of the last entry holding it, since later entries overwrite |
| OrderedList.ByDisplayNameTransitive | src/Provider/OrderedListProvider.php:28 | the display-name order of `asort` is transitive |
| OrderedList.SortedFlipLast | src/Provider/OrderedListProvider.php:28-30 | after the stable `asort` and the flip, each display name maps to the last relevant rom the names list gives it |
| OrderedList.FlipOfRelevant | src/Provider/OrderedListProvider.php:28-30 | the flipped relevant names are empty only when none are relevant, map each display name to a relevant rom name, cover every relevant display name once, and are strictly ascending, so duplicate display names collapse to one entry |
| OrderedList.GetOrderedList | src/Provider/OrderedListProvider.php:12-31 | the result is empty exactly when no name entry has a rom among the images; otherwise it maps each relevant display name, once, to the last relevant rom the names list gives it, in strictly ascending display-name order |
| SaveImage.FileSystem.constructor | src/PostProcess/SaveImageTrait.php:65 | a file system holds the given files, no created folders and the given unwritable targets |
| SaveImage.MirrorFrame | src/PostProcess/SaveImageTrait.php:68-78 | mirroring only adds or overwrites the target paths of the images; every other file keeps its content |
| SaveImage.MirrorErrorTarget | src/PostProcess/SaveImageTrait.php:73-83 | an error is raised only by a copy onto an unwritable target path, and none when no target is unwritable |
| SaveImage.MirrorCopies | src/PostProcess/SaveImageTrait.php:68-78 | for each image, a staged file present in the temporary folder overwrites its package path; when the staged file is absent the target is left as it was |
| SaveImage.FirstCopyApart | src/PostProcess/SaveImageTrait.php:68-78 | one copy does not touch the staged files or targets of the other images when the paths are separate |
| SaveImage.Saver.constructor | src/PostProcess/SaveImageTrait.php:12 | a fresh post-process has no temporary folder and has logged nothing |
| SaveImage.Saver.SetupSaveBehaviour | src/PostProcess/SaveImageTrait.php:14-34 | without staging nothing changes; staging without a base path raises the RuntimeException with its message; otherwise the temporary folder becomes base/temp/post-process/name/nonce and is created |
| SaveImage.Saver.MirrorTemporaryFolderIfRequired | src/PostProcess/SaveImageTrait.php:59-84 | no temporary folder (or a falsy one) changes nothing; otherwise the files become the mirrored files, and the first copy error is logged only when a logger is set, never raised |
| SaveImage.SavePathInPlace | src/PostProcess/SaveImageTrait.php:36-40 | without a temporary folder the save path is the file itself |
| SaveImage.SavePathStaged | src/PostProcess/SaveImageTrait.php:42-56 | with a temporary folder a falsy basename raises LogicException, and any other file is saved as temporary-folder/basename, keeping its basename |
| SaveImage.SavedIsMirrored | src/PostProcess/SaveImageTrait.php:36-78 | an image saved to its staged path is copied back to its package path by the mirror |
| Counter.ReProcessOptionsSpec | src/PostProcess/CounterPostProcess.php:329-348 | after `reProcessOptions` both offsets are set; explicit offsets and all other options are kept; a missing offset_x is 40 exactly for the corner, left and right positions and 0 otherwise; a missing offset_y is 40 exactly for the corner, top and bottom positions and 0 otherwise; a second pass changes nothing |
| Counter.PlacementPositionSpec | src/PostProcess/CounterPostProcess.php:70-76 | each "absolute-" position is placed at its plain counterpart and every other position passes through; the mapping is idempotent |
| Counter.AlignmentAgrees | src/PostProcess/CounterPostProcess.php:143-195 | right alignment draws the text at width-5, left at 5 and centre at width/2; the counter is shifted from the centre exactly for the corner, left and right positions, and vertically aligned off the middle exactly for the corner, top and bottom positions |
| Counter.DigitCount | src/PostProcess/CounterPostProcess.php:296 | `strlen((string) $total)` is the number of decimal digits of the total |
| Counter.CircleRadiusByTotal | src/PostProcess/CounterPostProcess.php:296-303 | the circle radius is 35, 46, 57, 69 or 82 for totals of 1 to 5 digits and 75 for longer ones |
| Counter.VariantOf | src/PostProcess/CounterPostProcess.php:94-102 | "simple" and "circular" are the only variants; any other raises InvalidArgumentException "unknown variant <name>" |
| Counter.ProcessWorkset | src/PostProcess/CounterPostProcess.php:54-91 | each image of the working set, in order, gets the counter of its position placed at the mapped position with the re-processed offsets and is saved in place; an unknown variant fails at the first image; an empty working set draws nothing |
| Counter.LabelsCountUp | src/PostProcess/CounterPostProcess.php:137-278 | for a working set without repeated paths image j is labelled "j+1 / n" by the simple counter and j+1 by the circular one |
| Counter.CurrentInRange | src/PostProcess/CounterPostProcess.php:139-278 | every current number lies between 1 and the total |
| OffsetWithSiblings.BuildWindows | src/PostProcess/OffsetWithSiblingsPostProcess.php:50-64 | one window per file, each of 2k+1 slots, where slot x of window i holds the file at i - k + x and is null when that position lies before the first or after the last file |
| OffsetWithSiblings.FixRight | src/PostProcess/OffsetWithSiblingsPostProcess.php:71-81 | one pass of the "behind the end" fix-up fills the k slots after the middle of window `count + k - x` with the files that follow it, wrapping to the front, and leaves every other slot as it was |
| OffsetWithSiblings.FixLeft | src/PostProcess/OffsetWithSiblingsPostProcess.php:82-95 | one pass of the "before the start" fix-up fills the k slots before the middle of window `k - x - 1` with the files that precede it, wrapping to the back, and leaves every other slot as it was |
| OffsetWithSiblings.FixLoop | src/PostProcess/OffsetWithSiblingsPostProcess.php:66-97 | after the whole fix-up loop every slot x of every window i holds the file at position (i - k + x) modulo the number of files: the windows wrap around both ends |
| OffsetWithSiblings.Windows | src/PostProcess/OffsetWithSiblingsPostProcess.php:45-97 | the workset has one window of 2k+1 slots per file; with the loop option set to true each slot is the wrapped neighbour, otherwise the plain neighbour or null |
| OffsetWithSiblings.MiddleIsCurrent | src/PostProcess/OffsetWithSiblingsPostProcess.php:56-59 | the middle slot k of window i is file i itself, with and without looping |
| OffsetWithSiblings.SlotEmptyBeyondEnds | src/PostProcess/OffsetWithSiblingsPostProcess.php:57-59 | without looping a slot is null exactly when its position falls outside the list of files |
| OffsetWithSiblings.LoopExample | src/PostProcess/OffsetWithSiblingsPostProcess.php:66-97 | with five files and two siblings a side, the looping window of the first file is the files 3, 4, 0, 1, 2 |
| OffsetWithSiblings.PhpMod | src/PostProcess/OffsetWithSiblingsPostProcess.php:78-89 | PHP's remainder lies strictly between -n and n and agrees with the Euclidean one on a non-negative dividend |
| OffsetWithSiblings.PhpModCorrected | src/PostProcess/OffsetWithSiblingsPostProcess.php:89-92 | adding the count to a negative remainder yields the Euclidean remainder, so the wrapped position lies within the list |
| OffsetWithSiblings.ReorderOutToIn | src/PostProcess/OffsetWithSiblingsPostProcess.php:304-327 | the two-pointer loop keeps every entry once, under its own key, taking keys 0, n-1, 1, n-2, ... alternately from both ends |
| OffsetWithSiblings.OutToInIsPermutation | src/PostProcess/OffsetWithSiblingsPostProcess.php:304-327 | the out-to-in order of n keys lists each key from 0 to n-1 exactly once |
| OffsetWithSiblings.LastIsMiddle | src/PostProcess/OffsetWithSiblingsPostProcess.php:108-111 | the entry popped last from the reordered window is the one under key floor(n/2), the window's own file |
| OffsetWithSiblings.OutToInApproachesMiddle | src/PostProcess/OffsetWithSiblingsPostProcess.php:304-327 | siblings are drawn from the farthest to the nearest: the distance of a key from the middle never grows along the order, so nearer siblings are painted over farther ones |
| OffsetWithSiblings.AxisOffset | src/PostProcess/OffsetWithSiblingsPostProcess.php:135-143 | in "fixed" mode a sibling is shifted by the configured offset alone; in any other mode by the offset times its distance from the middle |
| OffsetWithSiblings.DrawSiblings | src/PostProcess/OffsetWithSiblingsPostProcess.php:115-143 | the drawing loop skips null siblings and those the render option hides and places the rest, in order, at the offsets `Drawn` gives |
| OffsetWithSiblings.DrawWindow | src/PostProcess/OffsetWithSiblingsPostProcess.php:108-143 | the window's own image is its middle slot, and the placements are those of the other slots in out-to-in order |
| OffsetWithSiblings.DrawnAt | src/PostProcess/OffsetWithSiblingsPostProcess.php:115-128 | the drawing of a suffix of siblings is the placement of its first sibling, when that one is drawn, followed by the drawing of the rest |
| OffsetWithSiblings.DrawnExactly | src/PostProcess/OffsetWithSiblingsPostProcess.php:115-143 | a placement is made exactly when some sibling is non-null and allowed by the render option ("ahead" hides those before the middle, "behind" those after it), and it carries that sibling's offsets |
| SkyscraperCommand.Fields | src/Builder/SkyscraperCommandBuilder.php:26-62 | there is one argument value, set or unset, for each of the twelve flags; the flags list is joined with ',' and the extensions with ' ' |
| SkyscraperCommand.Flatten | src/Builder/SkyscraperCommandBuilder.php:70-73 | each (flag, value) pair becomes two consecutive arguments |
| SkyscraperCommand.PairsCount | src/Builder/SkyscraperCommandBuilder.php:26-62 | the built pairs are as many as the fields that are set |
| SkyscraperCommand.PairsAt | src/Builder/SkyscraperCommandBuilder.php:26-62 | pair k is the flag and value of the k-th set field |
| SkyscraperCommand.SourcesInOrder | src/Builder/SkyscraperCommandBuilder.php:26-62 | the set fields are taken in increasing field order, each exactly once, and an unset field contributes nothing |
| SkyscraperCommand.PairsMembership | src/Builder/SkyscraperCommandBuilder.php:26-62 | a (flag, value) pair is built exactly when the field for that flag is set to that value |
| SkyscraperCommand.FlagsDistinct | src/Builder/SkyscraperCommandBuilder.php:28-61 | the twelve flags are pairwise different, so no key of `$parts` overwrites another |
| SkyscraperCommand.EmptyBuild | src/Builder/SkyscraperCommandBuilder.php:24-76 | a builder with nothing set builds just ["Skyscraper"] |
| SkyscraperCommand.FlattenAt | src/Builder/SkyscraperCommandBuilder.php:70-73 | argument 2k is the k-th flag and argument 2k+1 its value |
| SkyscraperCommand.ArgvShape | src/Builder/SkyscraperCommandBuilder.php:64-75 | the command starts with "Skyscraper", then the rom name when it is truthy, then every set flag followed by its value in the fixed flag order, and nothing else |
| SkyscraperCommand.SkyscraperCommandBuilder.constructor | src/Builder/SkyscraperCommandBuilder.php:7-22 | the builder starts from the given field values |
| SkyscraperCommand.SkyscraperCommandBuilder.Build | src/Builder/SkyscraperCommandBuilder.php:24-76 | the method's loop produces the argument list `Argv` of the builder's fields |
| SkyscraperCommand.SkyscraperCommandBuilder.SetCredentials | src/Builder/SkyscraperCommandBuilder.php:78-83 | only the credentials field changes, to the given value |
| SkyscraperCommand.SkyscraperCommandBuilder.SetVerbosity | src/Builder/SkyscraperCommandBuilder.php:85-90 | only the verbosity field changes |
| SkyscraperCommand.SkyscraperCommandBuilder.SetScraper | src/Builder/SkyscraperCommandBuilder.php:92-97 | only the scraper field changes |
| SkyscraperCommand.SkyscraperCommandBuilder.SetInputPath | src/Builder/SkyscraperCommandBuilder.php:99-104 | only the input path changes |
| SkyscraperCommand.SkyscraperCommandBuilder.SetPlatform | src/Builder/SkyscraperCommandBuilder.php:106-111 | only the platform changes |
| SkyscraperCommand.SkyscraperCommandBuilder.SetOutputPath | src/Builder/SkyscraperCommandBuilder.php:113-118 | only the output path changes |
| SkyscraperCommand.SkyscraperCommandBuilder.SetArtworkPath | src/Builder/SkyscraperCommandBuilder.php:120-125 | only the artwork path changes |
| SkyscraperCommand.SkyscraperCommandBuilder.SetGamelistPath | src/Builder/SkyscraperCommandBuilder.php:127-132 | only the gamelist path changes |
| SkyscraperCommand.SkyscraperCommandBuilder.AddFlag | src/Builder/SkyscraperCommandBuilder.php:134-144 | a single flag or a list of flags is appended to the flags, which start empty when unset; nothing else changes |
| SkyscraperCommand.SkyscraperCommandBuilder.AddExt | src/Builder/SkyscraperCommandBuilder.php:146-156 | a single extension or a list is appended to the extensions, which start empty when unset; nothing else changes |
| SkyscraperCommand.SkyscraperCommandBuilder.SetRomName | src/Builder/SkyscraperCommandBuilder.php:158-163 | only the rom name changes, and it may be reset to null |
| SkyscraperCommand.SkyscraperCommandBuilder.SetQuery | src/Builder/SkyscraperCommandBuilder.php:165-170 | only the query changes |
| SkyscraperCommand.SkyscraperCommandBuilder.SetThreads | src/Builder/SkyscraperCommandBuilder.php:172-177 | only the thread count changes |
| SkyscraperCommand.FlattenSnoc | src/Builder/SkyscraperCommandBuilder.php:70-73 | appending one pair appends its flag and value |
| SkyscraperCommand.AddedFlagsJoined | src/Builder/SkyscraperCommandBuilder.php:51-144 | after adding flags, the `--flags` value is all flags, old then new, joined by ',' |
| SkyscraperCommand.SetFieldEmitsFlag | src/Builder/SkyscraperCommandBuilder.php:39-111 | setting the platform makes ("-p", platform) one of the built pairs and leaves every pair of another flag as it was |
| ConfigModel.Config.PackageFolderForPlatform | src/Model/Config.php:80-93 | "folder" and "ports" in any letter case give "Folder" and "External - Ports"; any other platform succeeds exactly when it is a key of the package mapping, with its entry, and otherwise raises the InvalidArgumentException `Platform "…" does not exist in the package mapping.` |
| ConfigModel.Config.PlatformForFolder | src/Model/Config.php:95-102 | a platform is returned exactly when the folder is mapped to a non-null platform, and it is that platform |
| ConfigModel.Config.SingleRomForFolder | src/Model/Config.php:104-111 | a rom is returned exactly when the folder has a non-null entry, since `isset` fails for an absent key and a null entry alike |
| ConfigModel.Config.PortmasterAlternatePlatform | src/Model/Config.php:113-116 | a platform is returned exactly when the port has a non-null 'platform' entry, and it is that entry |
| ConfigModel.ReservedNamesShadowMapping | src/Model/Config.php:82-92 | the reserved names are matched before the mapping: a platform spelt "Folder" in any case gets "Folder" even when the mapping says otherwise |
| ConfigModel.ReservedNamesIgnoreCase | src/Model/Config.php:82-87 | two spellings of a reserved name that differ only in case give the same folder |
| ConfigModel.ColonAt | src/Model/Config.php:73-77 | the index of the first ':' of a string, or its length when it has none |
| ConfigModel.CredentialsSplit | src/Model/Config.php:71-78 | the credentials string splits back into user and password at its first colon when the user name holds none |
| RomExtensions.Unique | src/Skyscraper/RomExtensionProvider.php:53 | `array_values(array_unique(…))` keeps exactly the values of the list, each once |
| RomExtensions.RomExtensionProvider.constructor | src/Skyscraper/RomExtensionProvider.php:14-18 | the provider starts with peas.json not yet read |
| RomExtensions.RomExtensionProvider.GetRomExtensionsForPlatform | src/Skyscraper/RomExtensionProvider.php:29-66 | the fake ports platform gets "*.sh", "*.7z", "*.zip" without reading the file; otherwise an empty cache (null or an empty array) triggers one read, a missing file raises the RuntimeException `Cannot read peas.json from skyscraper config folder`, and the result is the platform's `Extensions` |
| RomExtensions.MergeAliasFormats | src/Skyscraper/RomExtensionProvider.php:45-48 | the loop appends the formats of each alias in alias order |
| RomExtensions.UniqueOfDistinct | src/Skyscraper/RomExtensionProvider.php:53 | deduplicating a list without repeats changes nothing |
| RomExtensions.UniquePrefix | src/Skyscraper/RomExtensionProvider.php:53 | what is kept of a list stays in front, in order, when more values follow |
| RomExtensions.ExtensionsWithAliases | src/Skyscraper/RomExtensionProvider.php:39-53 | a platform with aliases lists each of its own formats, each alias format and each archive format exactly once and nothing else; its own formats, when they have no repeats, come first in their order |
| RomExtensions.ExtensionsWithoutAliases | src/Skyscraper/RomExtensionProvider.php:39-43 | a platform without a list of aliases gets its own formats as they are, and an unknown platform gets none |
| RomExtensions.AliasFormatsContain | src/Skyscraper/RomExtensionProvider.php:45-48 | every format of every alias is among the gathered alias formats |
| VerticalScrollbar.ThumbYFails | src/PostProcess/VerticalScrollbarPostProcess.php:117 | the thumb position raises a division by zero exactly when the working set has one image |
| VerticalScrollbar.ThumbYEnds | src/PostProcess/VerticalScrollbarPostProcess.php:112-117 | with two or more images the first image puts the thumb at 4 and the last at trackRange+4 |
| VerticalScrollbar.ThumbYMonotone | src/PostProcess/VerticalScrollbarPostProcess.php:117 | the thumb never moves up for a later position |
| VerticalScrollbar.ThumbYInRange | src/PostProcess/VerticalScrollbarPostProcess.php:117 | every thumb position lies between 4 and trackRange+4 |
| VerticalScrollbar.StepAtEnd | src/PostProcess/VerticalScrollbarPostProcess.php:117 | the last position times the step is exactly the track range |
| VerticalScrollbar.BarLayout | src/PostProcess/VerticalScrollbarPostProcess.php:108-166 | the canvas is (width+2) x (height+2), the thumb is width-4 wide and centred on the track, and a plain track is the rectangle at (1, 1) of the full width and height without caps |
| VerticalScrollbar.RoundedShapes | src/PostProcess/VerticalScrollbarPostProcess.php:126-189 | a rounded track uses caps of radius width/2 on a rectangle shortened by the width; the top caps sit where the plain track and thumb start; the thumb's bottom cap ends where the plain thumb ends, while the track's bottom cap sits 2 pixels above the shortened rectangle's end |
| VerticalScrollbar.ThumbFollowsImage | src/PostProcess/VerticalScrollbarPostProcess.php:82-117 | for a working set without repeats a later image never has its thumb higher than an earlier one |
| VerticalDotScrollbar.MaxNumberOfDotsIs18 | src/PostProcess/VerticalDotScrollbarPostProcess.php:86-90 | at most floor(300/16) = 18 dots are drawn |
| VerticalDotScrollbar.DotsScrollBar | src/PostProcess/VerticalDotScrollbarPostProcess.php:82-125 | the division by zero of the gap or of the page size is raised when it occurs; otherwise one dot per dot index, in order, each at its computed place and active exactly when its index is the current page |
| VerticalDotScrollbar.DotsFailExactly | src/PostProcess/VerticalDotScrollbarPostProcess.php:91-107 | the dots are computed exactly when the working set has at least two images; with fewer a division by zero is raised |
| VerticalDotScrollbar.PagesCover | src/PostProcess/VerticalDotScrollbarPostProcess.php:91-109 | the number of dots is min(count, 18), a page holds at least one image, and the current page is between 0 and the image's position |
| VerticalDotScrollbar.ActiveDotIsCurrentPage | src/PostProcess/VerticalDotScrollbarPostProcess.php:111-112 | a dot is active exactly when its index is the current page, so at most one dot is active |
| VerticalDotScrollbar.GapNotNegative | src/PostProcess/VerticalDotScrollbarPostProcess.php:92-96 | for 2 to 18 dots the gap between dots is not negative and the gaps fit in the height left by the dots |
| VerticalDotScrollbar.DotsDescend | src/PostProcess/VerticalDotScrollbarPostProcess.php:111-113 | dot y positions strictly increase with the dot index and stay within the padded bar |
| VerticalDotScrollbar.DotsDescendBy | src/PostProcess/VerticalDotScrollbarPostProcess.php:113 | for any gap that fits, y positions strictly increase and stay within the padded bar |
| VerticalDotScrollbar.LastImagesHaveNoActiveDot | src/PostProcess/VerticalDotScrollbarPostProcess.php:90-112 | with 19 to 26 distinct images a page holds one image, so image j (from 18 on) is on page j and none of the 18 dots is active for it |
| VerticalDotScrollbar.DotPlacement | src/PostProcess/VerticalDotScrollbarPostProcess.php:64-68 | "left" places the bar top-left, "right" top-right, and any other position raises RuntimeException |
| TextPostProcess.NoBracketsOnlyTrimmed | src/PostProcess/TextPostProcess.php:279-282 | a title without opening brackets is only trimmed |
| TextPostProcess.PlainPrefixCopied | src/PostProcess/TextPostProcess.php:281 | text before the first opening bracket (not ending in whitespace) is copied unchanged by the replacement |
| TextPostProcess.GroupMatched | src/PostProcess/TextPostProcess.php:281 | the pattern matches leading whitespace, an opening bracket, the shortest run up to a closing bracket, and the trailing whitespace |
| TextPostProcess.GroupBecomesSpace | src/PostProcess/TextPostProcess.php:281 | a bracketed group with the whitespace around it is replaced by one space, and the scan goes on after it |
| TextPostProcess.TrimBracketsTrimmed | src/PostProcess/TextPostProcess.php:281 | the result of `trimBrackets` neither starts nor ends with whitespace |
| TextPostProcess.FirstOverflowSpec | src/PostProcess/TextPostProcess.php:160-172 | the first counter whose prefix is too wide is found, and every counter before it fits; when none is found every prefix up to 99 characters fits |
| TextPostProcess.TruncateSpec | src/PostProcess/TextPostProcess.php:160-173 | when no prefix of up to 99 characters is too wide the title is its first 99 characters; otherwise it is the longest fitting prefix plus the ellipsis, or the whole title plus the ellipsis when the first character already overflows |
| TextPostProcess.TruncateText | src/PostProcess/TextPostProcess.php:160-173 | the truncation loop computes that truncation |
| TextPostProcess.FontSizeSteps | src/PostProcess/TextPostProcess.php:144-155 | the sizes xxxs..xxxl map to 16..48 in steps of 4, any other size to 32 |
| TextPostProcess.ColoursSpec | src/PostProcess/TextPostProcess.php:111-119 | the alternative text colour is used only when it is set and asked for; inverting swaps text and background colours; without the flag the alternative colour plays no part |
| TextPostProcess.PlacementAgrees | src/PostProcess/TextPostProcess.php:80-142 | the x offset is 20 exactly for left and right aligned positions, the text is drawn at 1, 559 or 280 for left, right and centre alignment, only the six corner-like positions are remapped, and the strip is moved up exactly for the three top positions |
| TextPostProcess.TitleSpec | src/PostProcess/TextPostProcess.php:60-69 | outside the ports folder the title is the names entry of the file name without extension, else that name, which is a prefix of the basename |
| TextPostProcess.DrawImage | src/PostProcess/TextPostProcess.php:59-173 | the strip drawn on one image carries the shown title from the truncation loop, the mapped placement, the chosen colours, the font size and alignment, and is saved over the image |
| TextPostProcess.ProcessWorkset | src/PostProcess/TextPostProcess.php:57-107 | one strip per image of the working set, in order |
| Color.Inverse | src/Util/Color.php:7-28 | the inverse colour is a grey: its three channels are equal |
| Color.InverseShift | src/Util/Color.php:12-21 | the inverse level differs from the luma by between 128 and 192; a dark luma (below 128) gets a lighter level and a light one a darker level |
| Color.PlainOppositeKept | src/Util/Color.php:13-18 | when the plain opposite 255-y is already between 128 and 192 away from y, it is returned unchanged |
| Color.InverseLevelInRange | src/Util/Color.php:12-21 | for a luma in 0..255 the inverse level is in 0..255 |
| Color.LumaInRange | src/Util/Color.php:12 | the rounded luma of channels in 0..255 is in 0..255 |
| Color.InverseInRange | src/Util/Color.php:7-28 | for channels in 0..255 every output channel is in 0..255 |
| ImageSizing.Scaled | src/Util/ImageSizing.php:19-40 | `ceil` of a side scaled by the target ratio gives the target, and a larger or smaller scale gives at least or at most the target |
| ImageSizing.ZeroSideFails | src/Util/ImageSizing.php:14-35 | `cover` and `fit` raise a division by zero exactly when the source width or height is zero |
| ImageSizing.CoverCovers | src/Util/ImageSizing.php:11-23 | the covering size is at least the target in both dimensions, and equals the target in the dimension whose ratio was chosen |
| ImageSizing.FitFits | src/Util/ImageSizing.php:31-43 | the fitting size is at most the target in both dimensions, and equals the target in the dimension whose ratio was chosen |
| ImageSizing.SameSizeUnchanged | src/Util/ImageSizing.php:11-43 | a source already at the target size covers and fits it unchanged |
| PhpMath.RoundSpec | src/Util/Color.php:12 | PHP `round` is within one half of its argument and rounds halves away from zero |
| PhpMath.RoundMonotone | src/PostProcess/VerticalScrollbarPostProcess.php:117 | PHP `round` is monotone |
| ConfigFolder.FirstPrefixIndex | src/Generator/ConfigFolderGenerator.php:77-81 | the index of the first assignment whose non-empty key starts the name, or -1 when no key does |
| ConfigFolder.ExactNameWins | src/Generator/ConfigFolderGenerator.php:69-75 | a folder whose lower-cased name is an assignment key gets that key's platform, whatever prefix keys stand before it |
| ConfigFolder.PrefixDecides | src/Generator/ConfigFolderGenerator.php:77-86 | without an exact key the first key that starts the lower-cased name decides, and without one the folder gets null |
| ConfigFolder.FolderNameIgnoresCase | src/Generator/ConfigFolderGenerator.php:71 | folder names that differ only in letter case get the same platform |
| ConfigFolder.NearestSetAncestor | src/Generator/ConfigFolderGenerator.php:56-67 | `getPlatformByParent` returns the platform of the nearest ancestor whose entry is set, null exactly when no ancestor is set, and null for a path without a slash |
| ConfigFolder.Filled | src/Generator/ConfigFolderGenerator.php:45-49 | the fill loop keeps the keys and their order |
| ConfigFolder.FillFromParents | src/Generator/ConfigFolderGenerator.php:45-49 | the loop replaces each null entry, in listing order, by what `getPlatformByParent` finds in the configuration as far as it is filled |
| ConfigFolder.FilledKeepsSet | src/Generator/ConfigFolderGenerator.php:45-49 | an entry that had a platform is left as it was |
| ConfigFolder.FilledStable | src/Generator/ConfigFolderGenerator.php:45-49 | once the loop has passed an entry it is not changed again |
| ConfigFolder.InheritsFromParent | src/Generator/ConfigFolderGenerator.php:32-67 | a directory without a platform of its own whose parent comes earlier and ends up with a platform inherits exactly that platform |
| ConfigFolder.DepthCompareTotal | src/Generator/ConfigFolderGenerator.php:33-37 | the Finder's comparison makes any two directories comparable |
| ConfigFolder.SortedByDepth | src/Generator/ConfigFolderGenerator.php:33-37 | in the sorted listing depths never decrease, and neighbouring paths of one depth are in `strcmp` order |
| ConfigFolder.InitialWellFormed | src/Generator/ConfigFolderGenerator.php:40-43 | the first loop yields one key per relative folder, all distinct, none starting with '/' |
| ConfigFolder.BuildInitial | src/Generator/ConfigFolderGenerator.php:40-43 | each directory of the listing sets the entry of its path relative to the rom folder to the platform of its name |
| ConfigFolder.GenerateConfig | src/Generator/ConfigFolderGenerator.php:25-49 | the directories are sorted by depth and path (a permutation of the listing), then the first loop and the fill loop run over them |
| MakeConfiguration.GetPostProcessMatchingIndexes | src/Command/Transformer/MakeConfigurationTransformer.php:47-63 | the loop collects, in order, the keys of the make data's post-process entries whose strategy is the given one, and nothing when the make data has no post-process list |
| MakeConfiguration.PutAtIndexes | src/Command/Transformer/MakeConfigurationTransformer.php:38-40 | the inner loop stores the theme entry at every matching index in turn |
| MakeConfiguration.ConvertThemeDataToMakeShape | src/Command/Transformer/MakeConfigurationTransformer.php:26-45 | the replacement data holds the package name suffixed with "-" and the lower-cased theme name, then, when the theme has post-process entries matching any make entry, the converted post-process list; a theme entry whose strategy is not a string raises a TypeError |
| MakeConfiguration.TransformForTheme | src/Command/Transformer/MakeConfigurationTransformer.php:14-23 | the result is the make data with the replacement data merged over it by `array_replace_recursive`, or the conversion's error |
| MakeConfiguration.ConvertedFailureSticks | src/Command/Transformer/MakeConfigurationTransformer.php:37-41 | once a theme entry raises, the later entries do not change the outcome |
| MakeConfiguration.ReplaceKeepsOthers | src/Command/Transformer/MakeConfigurationTransformer.php:22 | `array_replace_recursive` leaves every key the replacement does not name as it was, and keeps the keys distinct |
| MakeConfiguration.ReplaceTakesEntry | src/Command/Transformer/MakeConfigurationTransformer.php:22 | every key the replacement names gets the replacement's value, merged recursively into the old value when both are arrays |
| MakeConfiguration.PackageNameSuffixed | src/Command/Transformer/MakeConfigurationTransformer.php:22-34 | the transformed package name is the make package name, "-", and the lower-cased theme name |
| MakeConfiguration.MatchingSpec | src/Command/Transformer/MakeConfigurationTransformer.php:56-60 | a key is matched exactly when some make entry under it has the strategy |
| MakeConfiguration.MatchingAscending | src/Command/Transformer/MakeConfigurationTransformer.php:56-60 | over a list indexed 0, 1, 2, … the matching keys are indexes of entries with the strategy, strictly ascending |
| MakeConfiguration.NoPostProcessNoMatches | src/Command/Transformer/MakeConfigurationTransformer.php:52-54 | without a post-process list in the make data no index matches |
| MakeConfiguration.PutAllSpec | src/Command/Transformer/MakeConfigurationTransformer.php:38-40 | storing an entry at a list of keys sets exactly those keys to it and leaves the others |
| MakeConfiguration.LaterThemeEntryWins | src/Command/Transformer/MakeConfigurationTransformer.php:37-41 | each converted index holds the last theme entry whose strategy matches the make entry there, and no other index is set |
| MakeConfiguration.MergedPostProcessList | src/Command/Transformer/MakeConfigurationTransformer.php:14-45 | the transformed post-process list is the make list with the theme's converted entries laid over it |
| MakeConfiguration.PostProcessMerge | src/Command/Transformer/MakeConfigurationTransformer.php:14-45 | a make post-process entry no theme entry matches is unchanged; one that a theme entry matches gets the last such theme entry merged over it recursively |
| PhpArray.IndexOfKey | src/Command/Transformer/MakeConfigurationTransformer.php:34-39 | the position of the first entry with a key, or -1 when there is none |
| PhpArray.Get | src/Command/Transformer/MakeConfigurationTransformer.php:34-52 | a lookup finds nothing exactly when the key is absent, and otherwise an entry of the array |
| PhpArray.IndexOfKeyAt | src/Command/Transformer/MakeConfigurationTransformer.php:39 | the first entry with a key is found where it stands |
| PhpArray.PutSpec | src/Command/Transformer/MakeConfigurationTransformer.php:34-39 | assignment sets the key, leaves other keys alone, keeps an existing key in place and appends a new one |
| PhpArray.ValuesConcat | src/PostProcess/ArtworkTrait.php:54 | `array_values` of two parts is the values of each, in order |
| PhpArray.PermutedValues | src/PostProcess/ArtworkTrait.php:54 | reordering entries reorders their values the same way |
| CompressPackage.NukeCommand | src/Command/Handler/CompressPackageHandler.php:70-75 | the three known namespaces (artwork, portmaster, folder) each get their `find … \| xargs -0 rm` line; any other namespace raises an InvalidArgumentException |
| CompressPackage.NukeCommandOneLine | src/Command/Handler/CompressPackageHandler.php:71-73 | each nuke command is a single line of shell |
| CompressPackage.GenerateNukeUpdateSh | src/Command/Handler/CompressPackageHandler.php:63-79 | the loop builds the header "rm -rf /mnt/mmc/extra" followed by the command of every namespace whose option is on, joined with newlines, or raises at the first unknown namespace |
| CompressPackage.NukeScriptFor | src/Command/Handler/CompressPackageHandler.php:26-48 | a command that is not a compress-package command raises an InvalidArgumentException; with no option on no script is written; otherwise the script is written exactly when its generation succeeds |
| CompressPackage.NukeFailureSticks | src/Command/Handler/CompressPackageHandler.php:66-76 | once a namespace has raised, the later options do not change the outcome |
| CompressPackage.NukeLinesSpec | src/Command/Handler/CompressPackageHandler.php:66-76 | generation succeeds exactly when every namespace whose option is on is known; then there is one line per such namespace, in option order, each that namespace's command; otherwise the error is an InvalidArgumentException |
| CompressPackage.NukedNamespacesSpec | src/Command/Handler/CompressPackageHandler.php:43-69 | a namespace is nuked exactly when its option is true, and none is exactly when `in_array(true, …, true)` is false |
| CompressPackage.NewlineAt | src/Command/Handler/CompressPackageHandler.php:78 | the position of the first newline of a string that has one |
| CompressPackage.ExplodeImplode | src/Command/Handler/CompressPackageHandler.php:78 | splitting a newline-joined list of newline-free lines gives the lines back |
| CompressPackage.ExplodeCons | src/Command/Handler/CompressPackageHandler.php:78 | a first line without a newline is split off as it is |
| CompressPackage.NewlineFirst | src/Command/Handler/CompressPackageHandler.php:78 | a newline with none before it is the first one |
| CompressPackage.ScriptLines | src/Command/Handler/CompressPackageHandler.php:63-79 | the lines of the generated update.sh are exactly the header followed by the nuke commands, so the script starts by removing /mnt/mmc/extra |
| PromptChoices.PromptChoices.CloneWithAdditionalPostProcessChoices | src/ConsoleCommand/Interactive/PromptChoices.php:26-39 | the clone holds the new post-process choices first, then the old ones, and copies every other field |
| PromptChoices.CloneWithNothing | src/ConsoleCommand/Interactive/PromptChoices.php:26-39 | cloning with no additional choices gives an equal value |
| PromptChoices.CloneTwice | src/ConsoleCommand/Interactive/PromptChoices.php:26-39 | two clones in a row equal one clone with the later choices in front of the earlier ones |
| PromptOptions.PromptOptions.GetPackages | src/ConsoleCommand/Interactive/PromptOptions.php:14-17 | the packages are the keys of the variant map, in order |
| PromptOptions.PromptOptions.GetVariants | src/ConsoleCommand/Interactive/PromptOptions.php:19-26 | the variants are found exactly when the package is a key, and are its entry; otherwise an InvalidArgumentException is raised |
| PromptOptions.PromptOptions.GetOptions | src/ConsoleCommand/Interactive/PromptOptions.php:28-35 | the options are found exactly when both the package and its variant are keys, and are that entry; otherwise an InvalidArgumentException is raised |
| PromptOptions.PromptOptions.GetOptionDefaults | src/ConsoleCommand/Interactive/PromptOptions.php:37-49 | "artwork" is a default exactly when the variant offers it, likewise "folder", nothing else is, and when both are they come in that order; the errors of `getOptions` propagate |
| PromptOptions.PackagesHaveVariants | src/ConsoleCommand/Interactive/PromptOptions.php:14-26 | a name is among the packages exactly when asking for its variants succeeds |
| PhpArray.SearchIndex | src/PostProcess/CounterPostProcess.php:139 | `(int) array_search($file, $files)` gives the first position holding the file, and 0 when the file is absent, because `false` casts to 0 |
| PhpArray.SearchIndexListed | src/PostProcess/CounterPostProcess.php:278 | for a listed file the search gives a position at or before it that holds the same file, and exactly its own position when that is its first occurrence |
| PhpMath.FloorSpec | src/PostProcess/VerticalDotScrollbarPostProcess.php:90-109 | `floor` is the integer at or below its argument and less than one below it |
| PhpMath.CeilSpec | src/Util/ImageSizing.php:19-40 | `ceil` is the integer at or above its argument and less than one above it |
| PhpMath.RoundOfInt | src/Util/Color.php:12 | `round` leaves an integral argument unchanged |

## Left out

- Image primitives: placing, scaling, trimming, text rendering, drawing and saving are foreign
  library calls. They become recorded draw operations, or are left out entirely.
- Floating-point functions: `getScaledValue`, `getTargetOffset`, the adjust and scale offset modes,
  the circle and opacity options of the sibling carousel, rotation and font-metric sizing are left
  out. ImageSizing and Color compute on exact rationals, so rounding error is not modelled.
- Network, subprocess and filesystem-heavy handlers are left out. They include:
  - transfer, prime-cache, preview, package, copy-resources, optimize, copy-back and empty-image
    handlers;
  - zip writing in CompressPackageHandler;
  - `Path::getDirectorySize` and `Path::hashForDirectoryContents`.

  Their outcomes enter the orchestrator only as the success-or-message oracle.
- Clocks, the random nonce of temporary folders, and the event dispatcher are parameters or entries
  of the effect log.
- Configuration and theme parsing (YAML, JSON, Symfony config trees) are left out. Their results
  are inputs as plain data. `getThemes` and pretty printing are left out.
- RomExtensions.RomExtensionProvider.constructor: the value of the application constant naming the
  fake ports platform is not part of this model, so it is a constructor parameter.
- Text.NatCaseCmp: `strnatcasecmp` compares characters after `toupper` (ASCII only) and digit runs
  by value. Its whitespace skipping and leading-zero rules are not modelled. Its transitivity is not
  proved, so no lemma states that the `uksort` by file name keeps tied names in input order.
- Artwork.SortArtwork: the natural sort is stated as the stable insertion fold, but without a
  tie-order lemma, for the reason given for Text.NatCaseCmp. The tie order of the `usort` is stated
  only for sort lists whose keys are all truthy, as for Artwork.TiedPathsKeepOrder. The
  `$logger->debug` message for each rom missing from the sort list is not modelled; the logger is
  left out.
- Artwork.SortArtwork: with a "" or "0" key in the sort list the callback is not transitive, and
  the result of the `usort` then depends on the comparisons `zend_sort` makes. The contract states
  only that the result is a permutation of the paths in that case. Example: names a => "0" and
  c => "" with images a.png, b.png and c.png (b unnamed); the callback ties a with b and b with c
  but puts c before a, so the insertion fold c, a, b need not be PHP's order.
- PHP 8 compares two numeric strings as numbers, both in `<=>` and in `asort`'s default
  SORT_REGULAR mode. The model compares every display name with `strcmp`. The lines below name each
  member this weakens. Example: the names "a" => "10" and "b" => "9" with images a.png and b.png
  give `[9 => "b", 10 => "a"]` in PHP, but "10" before "9" in the model.
- OrderedList.ByDisplayName: compares display names with `strcmp`, not with SORT_REGULAR.
- OrderedList.SortedByDisplayNameAll: the order proved is the `strcmp` order. SORT_REGULAR orders
  numeric display names by value and is not transitive across numeric and non-numeric strings.
- OrderedList.FlipOfRelevant: the key order is the `strcmp` order. `array_flip` would also turn an
  integer-like display name into an int key; the model keeps every key a string.
- OrderedList.GetOrderedList: the key order and the string keys are as for FlipOfRelevant.
- Artwork.Compare: two keys found by `array_search` are compared with `strcmp`. For two numeric
  keys, or an int key from `array_flip`, PHP's `<=>` compares numbers.
- Artwork.ImagesCompareByDisplayName: the order between two found keys is the `strcmp` order, as
  for Artwork.Compare.
- Artwork.Position: `array_search` is modelled with exact string equality. PHP's loose `==` also
  matches two numeric strings of equal value, such as "10" and "010".
- Artwork.TiedPathsKeepOrder: the tie-order property is stated only when no display name is "" or
  "0"; Artwork.CompareTransitive and Artwork.UnknownRomsKeepOrder require the same. With such a
  name the callback is not transitive: `false` ties with both "" and "0", but ""
  sorts before "0".
- Text.Lower: only ASCII letters are lowered. Strings are sequences of characters, so byte-counting
  functions such as `substr` and `strlen` count characters.
- Path.Canonicalize: the Symfony path canonicalization used by `join` is a vendor library. It is
  modelled only for POSIX paths: slashes, and `.` and `..` segments. Windows drive letters and
  schemes are not modelled. Neither is the expansion of a leading `~` to the home directory.
- Path.JoinWithBaseAppends: the `joinWithBase` cases of tests/Util/PathTest.php:33-42 are not
  proved as concrete instances. This lemma proves the general rule they exemplify, for a base made
  of plain segments.
- MakeConfiguration.GetPostProcessMatchingIndexes: a make post-process entry that is not an array
  is treated as non-matching.
- PromptOptions.PromptOptions.GetOptionDefaults: option keys are a set of strings, so an option key
  with a `null` value cannot be represented. There `isset` and key existence would differ.
- ConfigFolder.NearestSetAncestor: `getPlatformByParent` would not terminate for an absolute path
  (`dirname('/')` is `/`). Folder paths in the source are always relative, so the model takes
  relative paths.
- RomExtensions.RomExtensionProvider: the lazy `peas` field is reloaded whenever it is empty,
  because PHP's `!$this->peas` is true for an empty array. The model keeps that behaviour: an empty
  decoded file is read again on each call.
- Console interaction, Twig, translation, the build-collection factory filters, the command
  factory, the theme-to-default processor, the font and packaged-image path providers and the log
  regexes are outside the modelled core.

## Observations

The proofs make several behaviours of the code explicit:

- The bottom caps of a rounded scrollbar track sit 2 pixels above the end of the plain track
  (`VerticalScrollbar.RoundedShapes`).
- With 19 to 26 images the dot scrollbar rounds the page size down to one image. Images 19 and
  later then have no active dot (`VerticalDotScrollbar.LastImagesHaveNoActiveDot`).
- The ellipsis that the text strategy appends is the literal three-character sequence `â€¦` stored
  in the source, the UTF-8 bytes of "…" decoded as Windows-1252.
- In the sibling carousel, PHP's `%` truncates toward zero. The code corrects a negative remainder
  by adding the count, which is the Euclidean residue (`OffsetWithSiblings.PhpModCorrected`).
- `BuildCommandCollectionFactory::create` (src/Command/BuildCommandCollectionFactory.php:60) calls
  `new BuildCommandCollection()` without the required `$id`. Under PHP 8 that call raises an
  `ArgumentCountError`. The factory is not part of this model.
