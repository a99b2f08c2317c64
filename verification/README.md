# Verified models of the authoring tools and the client front end

This project models the parts of the repository whose correctness does not show in any single function, and proves
what they promise: for every input, every run and, where files are written, every crash.

- **Authoring journal** (`Names`, `Journal`, `JournalSafety`, `JournalTheorems`, `JournalConflicts`,
  `JournalIdempotence`, `JournalAnswers`, `AuthoringSave`). The disk is a map from paths to bytes with journal
  directories beside it. Each file operation is one step, a process may die between any two steps and inside any write
  that is not an atomic replace, and recovery may die the same way any number of times. `Journal` gives the scripts of file steps,
  `AuthoringSave` the classes and loops that perform them.
- **Serializable editing** (`Revision`, `Editing`). Clients of both Labs open and save under the catalog lock, step by
  step and with crashes, against one atomic store.
- **Items** (`Catalog`, `CatalogAnswers`, `ItemFiles`, `ItemTheorems`, `ItemAnswers`, `ItemLab`) and **monster
  allocation** (`Monsters`, `MonsterAnswers`): the catalog and ledger, the four files of an item, and what creates and
  saves keep. `Registries` treats runs of both Labs over the one catalog, `ItemDurability` the item commits step by step
  on the journal.
- **Slicer** (`Paths`, `Pixels`, `Sorting`, `Slicer`, `Crops`): the flood fill against path reachability, and the crops.
- **PNG** (`Png`, `PngTheorems`): the chunk parser and the in-place row reconstruction (sections 3.2 and 6 of RFC 2083).
- **Character part lab** (`Atlas`, `AtlasTheorems`, `Bones`, `VisualPack`, `PackTheorems`, `PackAnswers`): shelf
  packing, memoised bone evaluation, and the visual pack's writer and checker.
- **Client front end** (`Scene`, `Frontend`, `FrontendAnswers`, `Dialogue`, `DialogueAnswers`): the stage, creation and
  enter-world machine with its camera, and the dialogue projection.
- **NPC Lab** (`NpcDocument`, `NpcRules`, `NpcSelection`, `NpcProgress`, `NpcAnswers`): the validator, the selector with
  its diagnostics, and synthetic progress.

Methods are proved against specification functions. So that a result does not rest on whatever such a function happens
to compute, the modules with `Answers` and `Rules` in their names, with `PngTheorems` and `AtlasTheorems`, tell what the
functions give on the input itself: the bytes of a row, the fields of a document, the lines of a text.

`dafny verify dfyconfig.toml` checks the project.

## What the proofs found

Where a promise does not hold of the code on all inputs, the code is modelled as it is, with the exact condition proved
and an input outside it.

- A save that stages one path twice with different contents can crash into a journal that recovery refuses for ever;
  agreement of the staged paths is exactly what is needed (`JournalConflicts.RecoverableIffAgreeing`).
- A negative atlas padding makes sprites overlap (`Atlas.NegativePaddingOverlaps`).
- Monster allocation reserves only ids of `MONSTER_` constants and monster ledger rows, so an id that another label
  holds inside the monster range is handed out again. Labels stay on distinct ids over all runs of both Labs exactly
  when they start so and no label holds such an id, or no monster can be inserted (`Registries.RunsStayDistinctIff`,
  `Monsters.ForeignIdIsHandedOut`).
- Item allocation does not look at the equipment directory, so a left-over equipment file makes a repeated create answer
  with a conflict; tags that cannot be listed make it fail (`ItemTheorems.CreateRepeatsIff`,
  `ItemTheorems.OrphanSpoilsRepeat`). Two equipment files with one id and different slots make the slot depend on the
  directory order (`ItemTheorems.SlotFixedIff`, `ItemTheorems.TwoSlotsNotFixed`).
- A built visual pack is refused, for instance, when its id is blank or has a slash, or when a made-up key equals a given
  one (`PackTheorems.BuiltIsAcceptedIff` has the whole condition, `PackTheorems.MadeUpKeyClashes` a clash).
- A roster longer than three characters can leave a selected slot that does not exist (`Frontend.SelectionKeptIff`,
  `Frontend.FourthPlaceBreaksSelection`).
- When an interaction is replaced by another without being closed, the pending line of the old one still comes up
  (`Dialogue.ShowsOpenSessionIff`, `Dialogue.StaleLineComesUp`).

## Model

| member | source | states |
|---|---|---|
| `JournalTheorems.AllOrNothing` | tools/authoring_save.py:71-170 | A save dies at any file step, inside a write too, and any number of recoveries die after it; the first recovery that ends succeeds without an error and leaves every staged file at its after-image if the `complete` manifest was in place, all files as before otherwise, and no journal |
| `JournalTheorems.UninterruptedSave` | tools/authoring_save.py:71-121 | A save that nothing interrupts raises nothing, leaves no journal, and has committed everything if the validator agreed and nothing otherwise |
| `JournalTheorems.PublishingKeepsItsImages` | tools/authoring_save.py:134-194 | In every crash state, however many recoveries have died, a manifest that says `publishing` has every before- and after-image it names, with the right bytes |
| `JournalTheorems.ForeignBytesSurvive` | tools/authoring_save.py:124-170 | On any disk, with any journals and outside edits, a recovery cut at any point changes a file only if a publishing journal lists it and its bytes were one of that journal's two images |
| `JournalTheorems.RecoverOneShape` | tools/authoring_save.py:150-168 | A refused journal causes no step at all; handling a journal touches only files it vouches for and its own directory |
| `JournalTheorems.SaveCrashConsistent` | tools/authoring_save.py:71-121 | Every crash of a save leaves a consistent state on the side of the commit point on which the crash was, and no step of the whole save raises |
| `JournalIdempotence.RecoverTwice` | tools/authoring_save.py:124-170 | Recovery is idempotent on any disk: after one that ended without a refusal, the next takes no step and reports nothing |
| `JournalConflicts.RecoverableIffAgreeing` | tools/authoring_save.py:66-108 | Recovery accepts every crash of a publish if and only if no path is staged with two different new contents |
| `JournalConflicts.ConflictGetsStuck` | tools/authoring_save.py:150-163 | For two different contents of one path there is a crash that recovery refuses |
| `JournalAnswers.RecoveryTells` | tools/authoring_save.py:124-170 | Recovery goes through the journals in listing order: one without a manifest, a complete one and one of another status is removed, a publishing one whose files all agree has every listed file put back as its before-image says first, and the first one that cannot be read or has a file of neither image stops it; each leaves its own note, and the recovery directory goes when all were passed |
| `JournalAnswers.CompareTells` | tools/authoring_save.py:151-163 | The verdict is given by the first row whose images cannot be read or whose file is at neither of them |
| `JournalAnswers.LessIsListedBefore` | tools/authoring_save.py:134 | The listing order is the one in which the first differing character decides and a prefix comes first |
| `JournalSafety.RecoverThroughout` | tools/authoring_save.py:124-170 | Recovery from any consistent state succeeds, stays consistent after each of its steps, and ends with exactly the committed files |
| `JournalSafety.RemoveThroughout` | tools/authoring_save.py:186-194 | Deleting in reverse name order is consistent throughout: while the manifest is there, so is every image |
| `JournalSafety.WritesThroughout` | tools/authoring_save.py:105-108 | Each single write keeps every file at one of its two images with the journal intact, and the loop ends with all written |
| `JournalSafety.FinishThroughout` | tools/authoring_save.py:110-116 | Up to the manifest replace of `finish` the save is undone by recovery, from there on it stands |
| `JournalSafety.CompareImages` | tools/authoring_save.py:151-163 | The comparison loop accepts exactly when every current file is one of its two images, and otherwise refuses |
| `JournalSafety.RestoredFiles` | tools/authoring_save.py:164-165 | Writing all before-images over any mixture gives back exactly the files that were staged from |
| `Names.ManifestListedBeforeImages` | tools/authoring_save.py:186-194 | Reverse name order lists the manifest ahead of every image |
| `Names.ImageNamesDistinct` | tools/authoring_save.py:91-105 | Image names clash neither with one another nor with the manifest files |
| `Names.DescendingUnique` | tools/authoring_save.py:189 | The reverse-sorted listing of a directory is determined by its names |
| `Names.SortDescending` | tools/authoring_save.py:189 | The sort of the deletion loop gives that listing |
| `Names.SortAscending` | tools/authoring_save.py:134 | The sort of the journal loop gives the ascending listing |
| `AuthoringSave.WriteFile` | tools/authoring_save.py:47-55 | Unlink, or temporary file and replace, as two file steps of a process that may die at either |
| `AuthoringSave.RemoveTree` | tools/authoring_save.py:186-194 | Performs the removal script of the journal directory, cut where the process dies |
| `AuthoringSave.AuthoringOperation.Stage` | tools/authoring_save.py:66-69 | Appends the path with the bytes it has now and the new ones |
| `AuthoringSave.AuthoringOperation.Publish` | tools/authoring_save.py:71-108 | Performs exactly the publishing script, cut where the process dies |
| `AuthoringSave.AuthoringOperation.Finish` | tools/authoring_save.py:110-116 | Performs exactly the finishing script, cut where the process dies |
| `AuthoringSave.AuthoringOperation.Rollback` | tools/authoring_save.py:118-121 | Recovers if the operation was opened, and does nothing otherwise |
| `AuthoringSave.CompareFiles` | tools/authoring_save.py:151-163 | The loop finds the verdict of the comparison |
| `AuthoringSave.RecoverDirectory` | tools/authoring_save.py:134-168 | One journal directory is handled as specified, with its notes |
| `AuthoringSave.RecoverAuthoring` | tools/authoring_save.py:124-170 | The whole loop performs the recovery script and returns its notes and outcome |
| `AuthoringSave.PublishFiles` | tools/item_lab/server.py:543-556 | If the process survives it has committed everything or put everything back; if not, the next complete recovery does one or the other, whatever recoveries die before it |
| `Editing.Serializable` | tools/item_lab/server.py:606-690 | In every interleaving of clients, lock, file steps and crashes, the reads, refusals and commits are those of one atomic store in the order of their effects |
| `Editing.NoLostUpdate` | tools/item_lab/server.py:648-690 | A committed save that carries a revision some client read replaced, byte for byte and resource by resource, what that client had read |
| `Editing.LogTells` | tools/item_lab/server.py:606-690 | In every run, a create commits only where the first file of its document is absent and is refused only where it is present; an update commits only with the current revision and is refused only without it; reads return the store of that moment |
| `Editing.EverythingWasAsked` | tools/item_lab/server.py:606-690 | No event without a request for it, and a commit leaves at every path what its request wrote there, or what was there |
| `Editing.GoodRequestCommits` | tools/mob_lab/server.py:1214-1289 | Under the lock, a create of an absent document and an update with the current revision commit when the pack is valid and the process lives on |
| `Editing.BadRequestIsRefused` | tools/mob_lab/server.py:1214-1289 | Any other request is refused at once and writes nothing |
| `Editing.RecoveryGivesCommitted` | tools/mob_lab/server.py:1214-1289 | In every reachable world the next complete recovery succeeds and leaves exactly the committed files |
| `Editing.NeverNeedsRepair` | tools/authoring_catalog.py:40-70 | Under the lock, recovery never answers with a repair request |
| `Editing.TakeKeeps` | tools/mob_lab/server.py:1171-1289 | Every single step of any handler, including a death, keeps the invariant |
| `Revision.FrameInjective` | tools/item_lab/server.py:111-116 | NUL framing is injective on NUL-free parts |
| `Revision.RevisionIdentifiesSnapshot` | tools/item_lab/server.py:208-248 | Two readable states have the same revision exactly when all resources agree, absent ones included |
| `Slicer.DetectComponents` | tools/asset_slicer/asset_slicer_runtime.js:13-96 | Refuses a buffer of the wrong size. Otherwise, in terms of the bytes: a component is an island of pixels whose alpha exceeds the cut (0 if negative, at most 254), linked by steps to a side; each has at least the minimum of pixels (at least 1), true counts and a tight box; every visible pixel left out lies on a smaller island; each pixel once, sorted |
| `Slicer.Scan` | tools/asset_slicer/asset_slicer_runtime.js:32-95 | The raster loops and the sort: exact components, largest first, ties in raster order |
| `Slicer.Fill` | tools/asset_slicer/asset_slicer_runtime.js:37-79 | One flood fill returns the whole class of its start and marks exactly it |
| `Slicer.PushSides` | tools/asset_slicer/asset_slicer_runtime.js:63-78 | After the four tests every solid neighbour has been pushed, and marks and stack agree |
| `Slicer.FillRound` | tools/asset_slicer/asset_slicer_runtime.js:47-79 | One round of the stack loop keeps the fill invariant |
| `Slicer.Consider` | tools/asset_slicer/asset_slicer_runtime.js:63-78 | A neighbour is pushed if and only if it is solid and not yet visited, and then marked |
| `Slicer.FilledIsClass` | tools/asset_slicer/asset_slicer_runtime.js:47-79 | With the stack empty, the popped pixels are exactly the reachable ones |
| `Slicer.FillBounded` | tools/asset_slicer/asset_slicer_runtime.js:47-79 | The pushed pixels are distinct and within the image, so the loop ends |
| `Sorting.TiesKeepOrder` | tools/asset_slicer/asset_slicer_runtime.js:94 | The sort is stable |
| `Sorting.StableSortSorted` | tools/asset_slicer/asset_slicer_runtime.js:94 | The sort orders the list under the comparator |
| `Sorting.SortedUnique` | tools/Character part lab/character_lab_runtime.js:364 | Under a total order there is only one sorted arrangement |
| `Crops.ExtractComponent` | tools/asset_slicer/asset_slicer_runtime.js:98-124 | The buffer has the box's size plus the padding and shows at each place the last listed pixel that goes there, wherever the pixels lie; with its pixels in its box the crop shows exactly the component |
| `Crops.ExtractedIsCrop` | tools/asset_slicer/asset_slicer_runtime.js:98-124 | In-box pixels are written each to its own place and nothing else is |
| `Crops.CropTells` | tools/asset_slicer/asset_slicer_runtime.js:98-124 | Column by column and row by row, the crop shows the four bytes of the component's pixel that lies there in the sheet, less the padding, and four zero bytes where there is none |
| `Crops.TargetInjective` | tools/asset_slicer/asset_slicer_runtime.js:110-122 | No two pixels of a component are written to one place of the crop |
| `Crops.Lossless` | tools/asset_slicer/asset_slicer_runtime.js:13-124 | Pasting every crop back where its component was, whatever the paddings, reproduces every solid pixel and leaves the rest transparent |
| `Png.PaethIsNearest` | tools/item_lab/server.py:119-128 | The predictor is the neighbour nearest to left + up - upper left, ties to left and then up (section 6.6 of RFC 2083) |
| `Png.UnfilterInvertsFilter` | tools/item_lab/server.py:166-194 | For each of the five filters, reconstructing a filtered row gives the row |
| `Png.FilterInvertsUnfilter` | tools/item_lab/server.py:166-194 | Conversely every scan line is the filtering of its reconstruction |
| `Png.UnfilterInPlace` | tools/item_lab/server.py:181-192 | Every byte of the row is as section 6 of RFC 2083 says for its filter, written out for all five filters on the rebuilt row; the loop computes the reconstruction |
| `Png.UnfilterByte` | tools/item_lab/server.py:182-192 | One byte is rebuilt in place from its decoded neighbours, and no other changes |
| `Png.DecodeRows` | tools/item_lab/server.py:166-194 | The loop over rows reads each filter byte, rejects any above 4, and reconstructs against the row before |
| `Png.DecodingInvertsFiltering` | tools/item_lab/server.py:166-194 | For every image and every choice of filters per row, decoding the filtered bytes gives the rows |
| `Png.ReadChunks` | tools/item_lab/server.py:131-160 | The chunk loop ends on every input and never reads outside the data |
| `Png.ReadWritten` | tools/item_lab/server.py:131-160 | Reading a written run of chunks takes exactly those chunks, whatever follows the end chunk |
| `Png.ReadIsWritten` | tools/item_lab/server.py:131-160 | Whatever the loop accepts is a run of well-formed chunks with right checksums |
| `Png.NumberRoundTrip` | tools/item_lab/server.py:139-147 | Four big-endian bytes read back as the number written |
| `Png.DecodePngRgba` | tools/item_lab/server.py:131-194 | The method computes the decoder function, errors included |
| `Png.DecodesEveryPng` | tools/item_lab/server.py:131-194 | Every well-formed RGBA PNG is accepted with its size and original pixels: any filters, any split of the data, any extra chunks before it, any bytes after the end |
| `PngTheorems.AcceptedIs` | tools/item_lab/server.py:131-194 | Whatever is accepted is a PNG: signature, proper chunks, a header that gives the size, an end chunk last, and data that inflates to rows whose filters are at most 4 and whose pixels are, byte by byte, those returned |
| `PngTheorems.RefusedFor` | tools/item_lab/server.py:131-194 | Every refusal names a reason that is there: the signature, a chunk that is cut short or has a wrong checksum or header, a missing part, data that does not inflate or has the wrong size, or a filter above 4 |
| `PngTheorems.RowsTell` | tools/item_lab/server.py:166-194 | The rows are read one behind the other, each rebuilt byte by byte against the row above |
| `Atlas.NextPow2` | tools/Character part lab/character_lab_runtime.js:339-343 | The least power of two that is not below the value |
| `Atlas.LeastPow2Correct` | tools/Character part lab/character_lab_runtime.js:339-343 | That number is a power of two, not below the value, and no smaller one is |
| `Atlas.PackAt` | tools/Character part lab/character_lab_runtime.js:366-381 | The shelf loop computes the packing |
| `Atlas.PackSound` | tools/Character part lab/character_lab_runtime.js:366-381 | Every sprite once, inside the width with the padding to each edge, any two the padding apart |
| `Atlas.SearchStopsFirst` | tools/Character part lab/character_lab_runtime.js:383-389 | The search stops at the first tried width that meets the target height, or at the maximum width |
| `Atlas.PlanAtlas` | tools/Character part lab/character_lab_runtime.js:345-395 | The method computes the plan, with its five refusals |
| `Atlas.PlanIsSound` | tools/Character part lab/character_lab_runtime.js:345-395 | For every input and padding of at least 0: every sprite placed once, inside, apart; height a power of two of at least 64; both sides within the limit |
| `Atlas.NegativePaddingOverlaps` | tools/Character part lab/character_lab_runtime.js:345-395 | For every negative padding the plan of two equal squares, two larger than the padding is negative, makes them overlap |
| `Atlas.OrderDoesNotMatter` | tools/Character part lab/character_lab_runtime.js:364 | Reordering accepted input changes nothing in the plan |
| `AtlasTheorems.PlanTells` | tools/Character part lab/character_lab_runtime.js:345-395 | With a padding that is not negative: the first unusable or oversized rectangle is refused; otherwise the sprites, taller first, then wider, then by id, stand on shelves one behind the other, at the first width of the doubling sequence that is low enough, with the height rounded up to a power of two of at least 64, or the plan says which limit is exceeded |
| `AtlasTheorems.SortedInOrder` | tools/Character part lab/character_lab_runtime.js:364 | Taller sprites come before lower ones, of equal height wider ones first, then by the order of the ids |
| `AtlasTheorems.PackStands` | tools/Character part lab/character_lab_runtime.js:366-381 | Each sprite stands the padding to the right of the one before, or first on a new shelf below the tallest of the shelf |
| `Bones.EvaluateBoneWorld` | tools/Character part lab/character_lab_runtime.js:12-49 | Whatever the key order it ends; it succeeds exactly when every parent chain is sound. Then a root is at its own translation, every other bone lies by its translation, turned by the parent's angle, from its parent, and its angle is the sum of the rotations and offsets along its chain; an error names a flaw that is there |
| `Bones.Evaluator.Resolve` | tools/Character part lab/character_lab_runtime.js:15-45 | The memoised recursion ends, keeps the memo right, and its errors are true |
| `Bones.PlaceableIff` | tools/Character part lab/character_lab_runtime.js:15-45 | A bone can be placed exactly when its chain is neither dangling nor cyclic nor malformed |
| `Bones.WorldUnique` | tools/Character part lab/character_lab_runtime.js:12-49 | The transform of a bone is determined by its chain |
| `Bones.TurnsFromParent` | tools/Character part lab/character_lab_runtime.js:33-43 | Turned back by the parent's angle, a bone's distance from its parent is its own translation |
| `Bones.AngleIsSum` | tools/Character part lab/character_lab_runtime.js:33-43 | The angle of a bone is the sum of the rotation and offset of the bone and of all its ancestors |
| `VisualPack.BuildVisualPackManifest` | tools/Character part lab/character_lab_runtime.js:397-443 | Refuses exactly the unusable requests, each for the first reason that holds, a repeated part by its first repetition, and otherwise writes the specified manifest |
| `VisualPack.ResolveVisualPack` | tools/Character part lab/character_lab_runtime.js:133-247 | Reports no issue exactly for accepted manifests, and resolves the drawn parts in order |
| `VisualPack.CheckVisuals` | tools/Character part lab/character_lab_runtime.js:172-211 | The visual loop reports nothing exactly when all visuals are good with fresh keys, and indexes the first visual of each key |
| `VisualPack.CountsDistinct` | tools/Character part lab/character_lab_runtime.js:172-214 | No part is counted twice exactly when the parts are distinct |
| `PackAnswers.ManifestTells` | tools/Character part lab/character_lab_runtime.js:397-443 | The built manifest field by field: its constants, the default file name, one entry for each drawn part that has a visual in draw order, with default bone and key, and each part's key in the base appearance |
| `PackAnswers.AcceptedIffRules` | tools/Character part lab/character_lab_runtime.js:133-247 | The checker accepts exactly the manifests that follow its rules, written out one by one |
| `PackAnswers.ResolvedTells` | tools/Character part lab/character_lab_runtime.js:220-246 | A manifest resolves to the first visual with the key of each drawn part, if it shows that part, in draw order |
| `PackTheorems.BuiltIsAcceptedIff` | tools/Character part lab/character_lab_runtime.js:133-443 | The checker accepts what the writer built if and only if the request was ready for it; the condition is on the request alone |
| `PackTheorems.MadeUpKeyClashes` | tools/Character part lab/character_lab_runtime.js:413-414 | A concrete request that is built, in order but for a given key equal to a made-up one, and refused whatever is expected |
| `PackTheorems.ResolvesToWritten` | tools/Character part lab/character_lab_runtime.js:220-246 | An accepted pack, resolved in the order it was drawn in, gives back exactly the written visuals |
| `PackTheorems.DefaultKeysDistinct` | tools/Character part lab/character_lab_runtime.js:413-414 | Made-up keys of different parts differ |
| `PackTheorems.PlannedRectFits` | tools/Character part lab/character_lab_runtime.js:366-395 | Every rectangle of a plan passes the checker's test against that plan's atlas |
| `PackTheorems.PlannedPackIsAccepted` | tools/Character part lab/character_lab_runtime.js:133-443 | Packing, writing and checking fit together: a pack made from a plan's rectangles is built, accepted and reads back whole |
| `Catalog.RawIdReadsBack` | tools/item_lab/server.py:385-386 | The numeral written for an id reads back as the id |
| `Catalog.ConstNameForm` | tools/item_lab/server.py:378-382 | The constant made of any label has the form the catalog patterns look for |
| `Catalog.NextItemId` | tools/item_lab/server.py:362-375 | The loop finds the allocation of the specification |
| `Catalog.NextFree` | tools/item_lab/server.py:362-375 | The id is the least of the range in neither text; exhaustion means none is free |
| `Catalog.InsertResolves` | tools/item_lab/server.py:398-430 | After an insertion the label resolves to its id through its constant, and every other label as before |
| `Catalog.CreateAllocatesLeast` | tools/item_lab/server.py:362-457 | A create takes the least id used by neither catalog nor ledger and records it in the ledger |
| `Catalog.CreateExtends` | tools/item_lab/server.py:606-643 | One create adds one label on a fresh id, moves no other, and keeps the label map injective |
| `Catalog.CreatesKeepLabels` | tools/item_lab/server.py:606-643 | Over any run of creates no label moves and no two labels share an id |
| `Catalog.ConstantClashRefused` | tools/item_lab/server.py:398-404 | Two labels that need one constant cannot both be created |
| `CatalogAnswers.ConstNameTells` | tools/item_lab/server.py:378-382 | The constant is `ITEM_` and the words of the label behind `item.`, joined by underscores and in capitals; a label without words is refused |
| `CatalogAnswers.RawIdTells` | tools/item_lab/server.py:385-386 | The numeral is the decimal text of the id with an underscore in front of its last three digits |
| `CatalogAnswers.InsertCatalogTells` | tools/item_lab/server.py:398-430 | The three lines go right behind the last line of their kind and the kind in front of the first list end behind the cap; a constant or a label that occurs, or a block that is missing, is refused in that order, and nothing else is |
| `CatalogAnswers.InsertLedgerTells` | tools/item_lab/server.py:449-457 | The row goes right behind the last item row; an id that has a row and a ledger without item rows are refused |
| `CatalogAnswers.CreateTells` | tools/item_lab/server.py:606-643 | A create takes the least id of 30000 to 39999 that no line of both texts uses and extends both by it; each refusal says what is in the way, and the ledger never refuses the id |
| `Monsters.NextMonsterContentId` | tools/mob_lab/server.py:264-269 | The loop finds the least id that no monster constant or ledger row holds |
| `Monsters.NextMonster` | tools/mob_lab/server.py:225-269 | The id is unreserved, all lower ones are reserved; none means all are |
| `Monsters.InsertMonsterEffect` | tools/mob_lab/server.py:272-377 | An insertion adds exactly one entry to the label map |
| `Monsters.FreshAllocation` | tools/mob_lab/server.py:272-377 | A fresh allocation adds the label on the least unreserved id |
| `Monsters.StaysInjectiveIff` | tools/mob_lab/server.py:225-247 | One allocation keeps labels on distinct ids if and only if no label holds the least unreserved id of the block |
| `MonsterAnswers.PrepareTells` | tools/mob_lab/server.py:272-377 | A label with an arm and a constant gets that id back, the last ones counting; one that only the ledger has, a label of another form, a full block, a constant that occurs and a missing block are refused; otherwise the least free id of 10001 to 19999 goes into both texts, each line behind the last of its kind. A monster label always has a constant |
| `MonsterAnswers.NumericTells` | tools/mob_lab/server.py:196-212 | The map of labels holds exactly what the last arm with a declared constant and the last declaration of that constant say |
| `Registries.LabelsNeverMove` | tools/mob_lab/server.py:196-377 | Over any run of item creates and monster allocations in any order, from any registry, no label of the map moves |
| `Registries.ClearRunsStayDistinct` | tools/mob_lab/server.py:196-377 | Where every label with an id of the monster block is on a reserved one, any mixed run keeps all labels on distinct ids, and the registry as clear |
| `Registries.RunsStayDistinctIff` | tools/mob_lab/server.py:196-377 | Labels are on distinct ids after every mixed run if and only if they are now and every label in the monster block is on a reserved id, or no monster can be inserted at all |
| `Registries.ReachesClash` | tools/mob_lab/server.py:225-269 | From any other registry some run of allocations ends with two labels on one id |
| `Registries.MixedRunsKeepItems` | tools/item_lab/server.py:606-645 | Over any mixed run every item label keeps resolving to its id, and no two item labels get one id |
| `Registries.ItemNumeric` | tools/mob_lab/server.py:196-212 | An item create adds exactly one entry to the map the Mob Lab reads, on an id no label had |
| `Registries.MonsterReserves` | tools/mob_lab/server.py:225-247 | After an allocation exactly its id is reserved in addition |
| `Monsters.ForeignIdIsHandedOut` | tools/mob_lab/server.py:225-247 | A concrete catalog in which a map's id is given to a new monster |
| `ItemLab.Lab.Create` | tools/item_lab/server.py:606-645 | The method changes files and registry as the specification says, with every refusal, the idempotent answer and the roll back; `RepeatAnswers` and `CreateAnswers` tell the specification on the fields |
| `ItemLab.Lab.Save` | tools/item_lab/server.py:648-690 | The method changes the files exactly as specified, with every guard in order |
| `ItemLab.Lab.ScanEquipment` | tools/item_lab/server.py:219-230 | The loop finds the first file that carries the id, passes over unreadable ones and raises on a non-object |
| `ItemLab.Lab.ScanPath` | tools/item_lab/server.py:101-108 | The same search for the plan, which raises on a file that is not UTF-8 as well |
| `ItemTheorems.FindFinds` | tools/item_lab/server.py:219-230 | What the search for the equipment file finds, and the only reason it raises |
| `ItemTheorems.PlanReadsBack` | tools/item_lab/server.py:208-540 | The snapshot of the planned files shows the payload field by field, and raises only if the equipment search does |
| `ItemTheorems.ShownIsSame` | tools/item_lab/server.py:559-571 | What shows a payload is the same draft exactly when the slots agree, and raises exactly when the tags cannot be listed |
| `ItemAnswers.SnapshotTells` | tools/item_lab/server.py:201-248 | An item can be read exactly when its gameplay file is an object with a numeric id, its other files are objects or absent and the equipment search does not raise; it shows the fields of its four files with the defaults of the code, and its revision is those four files |
| `ItemAnswers.RepeatAnswers` | tools/item_lab/server.py:606-620 | A create for a label on file writes nothing; if the item can be read, it is answered as a repeat exactly when category, stack limit, the four texts, tags, confirmation and slot all agree, falsy values counting as absent, and a draft that differs in any of them is a conflict, unless the comparison raises |
| `ItemAnswers.SameDraftIff` | tools/item_lab/server.py:559-571 | The comparison is true exactly when all nine fields agree, and raises exactly at a stack limit that is no number or tags that cannot be listed, once it gets that far |
| `ItemAnswers.ValidIffRules` | tools/item_lab/server.py:317-344 | A payload is accepted exactly when it follows the rules, field by field |
| `ItemAnswers.PublishWrites` | tools/item_lab/server.py:479-540 | A commit writes the gameplay, presentation and notes files with these fields over what they held, for equipment the slot file, and nothing else |
| `ItemAnswers.SaveAnswers` | tools/item_lab/server.py:648-690 | A save goes through exactly when it is about the stored item, carries its revision, keeps category, slot and stack limit, can be planned and the pack is valid; another revision is a conflict and nothing else is |
| `ItemAnswers.SaveOfNothing` | tools/item_lab/server.py:648-658 | A save that breaks the rules or has no file is rejected, one of an item that cannot be read raises that error, and neither writes anything |
| `ItemAnswers.CreateAnswers` | tools/item_lab/server.py:606-645 | A create for a new label publishes under the least unused id when the registry has room for it, the files can be planned and the pack is valid, and otherwise changes nothing and says why |
| `ItemTheorems.CreateRepeatsIff` | tools/item_lab/server.py:606-645 | After a create has published, repeating it answers with the same id and changes nothing, for every directory order, if and only if the tags can be listed and no other equipment file stands in the way |
| `ItemTheorems.OrphanSpoilsRepeat` | tools/item_lab/server.py:362-375 | With one left-over equipment file for the id, the same create publishes and can then not be repeated |
| `ItemTheorems.SaveReadsBack` | tools/item_lab/server.py:648-690 | A save that changes anything carried the revision of the files it replaces, and its answer shows the payload under the old id |
| `ItemTheorems.IdentityNeverChanges` | tools/item_lab/server.py:606-690 | Over any run of creates and saves an item's id, label and category stay fixed and its stack limit never falls |
| `ItemTheorems.SlotFixedIff` | tools/item_lab/server.py:648-690 | The slot reads the same over every run of saves and in every directory order if and only if all files that carry the id name one slot |
| `ItemTheorems.TwoSlotsNotFixed` | tools/item_lab/server.py:219-230 | A concrete store with two files of one id whose slot depends on the directory order |
| `ItemTheorems.SaveKeepsSlots` | tools/item_lab/server.py:682-686 | One save leaves the slot of every id that has one slot |
| `ItemDurability.CreateIsAtomic` | tools/item_lab/server.py:606-645 | Run to its end, the file steps of a create leave exactly the store of the one-step commit; cut anywhere, with any recoveries cut after it, the next complete one leaves that store or the one before, item files, catalog and ledger together |
| `ItemDurability.SaveIsAtomic` | tools/item_lab/server.py:648-690 | The same of a save, which leaves catalog and ledger alone |
| `ItemDurability.RefusedCommitsStay` | tools/item_lab/server.py:606-690 | A commit that has nothing to publish leaves the store as it was |
| `Scene.FrontendScene.Request` | apps/client/src/frontend_scene.rs:47-58 | The method makes the specified request |
| `Scene.FrontendScene.Advance` | apps/client/src/frontend_scene.rs:64-80 | The method makes the specified advance |
| `Scene.EaseMonotone` | apps/client/src/frontend_scene.rs:64-80 | The easing is monotone and stays within the unit interval |
| `Scene.AdvanceTowards` | apps/client/src/frontend_scene.rs:64-80 | A tick moves the camera towards the destination, never past it, and between source and destination |
| `Scene.AdvanceKeepsCoherent` | apps/client/src/frontend_scene.rs:64-80 | A moving camera is on its way to its target's stop and a resting one exactly there |
| `Scene.ArrivesAfterOneSecond` | apps/client/src/frontend_scene.rs:47-80 | Any ticks that add up to one second since the request arrive |
| `Frontend.FrontendRuntime.Perform` | apps/client/src/frontend_runtime.rs:200-265 | The method makes the specified transition for every stage and action |
| `Frontend.FrontendRuntime.TakeRoster` | apps/client/src/frontend_runtime.rs:267-285 | The method replaces slots and selection as specified |
| `Frontend.FrontendRuntime.OnCreateResult` | apps/client/src/frontend_runtime.rs:293-315 | The method takes the answer of the server as specified |
| `Frontend.FrontendRuntime.AdvanceFade` | apps/client/src/frontend_runtime.rs:349-379 | The method moves the fade as specified and yields at black |
| `Frontend.FrontendRuntime.Tick` | apps/client/src/frontend_runtime.rs:410-427 | The method moves stage and camera as specified |
| `Frontend.FrontendRuntime.OnDisconnected` | apps/client/src/frontend_runtime.rs:400-408 | The method resets as specified |
| `FrontendAnswers.ActTravels` | apps/client/src/frontend_runtime.rs:200-265 | Input starts a travel exactly by a table of four, and leaves with area cancelled and camera on its way from where it is; nothing else moves target or camera |
| `FrontendAnswers.ActEnters` | apps/client/src/frontend_runtime.rs:200-265 | Entering starts the fade exactly when the selected character stands in a slot and nothing is going on |
| `FrontendAnswers.ActChangesArea` | apps/client/src/frontend_runtime.rs:200-265 | Selecting, beginning, sending and cancelling a creation change the area as they say, each only when it may |
| `FrontendAnswers.RequestTells` | apps/client/src/frontend_runtime.rs:187-198 | A request departs unless a handoff, a pending creation or a travel goes on, or it is the stage shown |
| `FrontendAnswers.SessionReadyTells` | apps/client/src/frontend_runtime.rs:267-291 | A ready session shows the first three characters, keeps or drops the selection with its character, and departs for the channels unless something goes on |
| `FrontendAnswers.CreationTells` | apps/client/src/frontend_runtime.rs:293-315 | The answer to a pending creation selects the first character of the draft's name, or rejects the creation; any other answer does nothing |
| `FrontendAnswers.FadeTells` | apps/client/src/frontend_runtime.rs:349-379 | Black three tenths of a second after the start with the yield at that tick, clear four tenths after the world is ready |
| `FrontendAnswers.IntroTells` | apps/client/src/frontend_runtime.rs:410-427 | The intro departs after five quarters of a second |
| `FrontendAnswers.CameraTells` | apps/client/src/frontend_scene.rs:47-80 | A second after a request the camera is at the stage's height, and before that the smooth step of the elapsed time on the way from where it was |
| `Frontend.Reachable` | apps/client/src/frontend_runtime.rs:187-427 | In every reachable state: Browsing has no draft and no creation, Creating has its draft at the character stage, the selected id names the occupant of the selected slot, no creation during a handoff, and the camera rests at the stage's stop or heads for the target's with no foreground |
| `Frontend.PendingHasDraft` | apps/client/src/app.rs:1829-1834 | Whenever a creation is pending there is a draft to send |
| `Frontend.SelectionKeptIff` | apps/client/src/frontend_runtime.rs:267-285 | A roster keeps the selection sound exactly when the selected id stands in its first three places |
| `Frontend.FourthPlaceBreaksSelection` | apps/client/src/frontend_runtime.rs:267-285 | A roster with the selected id in its fourth place only leaves a selected slot that does not exist |
| `Frontend.TravelArrives` | apps/client/src/frontend_runtime.rs:410-427 | Travel ends on the new stage if and only if the ticks add up to what remains of the second, however they are cut; after a disconnect at the login the first tick ends it |
| `Frontend.EntersOnce` | apps/client/src/frontend_runtime.rs:200-379 | Over every run, each yield answers the acceptance just before it, once and with the same id |
| `Frontend.AcceptedIsSelected` | apps/client/src/frontend_runtime.rs:317-328 | The accepted id is the selected character in its occupied slot, and nothing is being created |
| `Frontend.DarkUntilReleased` | apps/client/src/frontend_runtime.rs:330-347 | From the yield until the world is ready, the entry is rejected or the connection drops, the overlay is black and input is locked |
| `Frontend.YieldIsDark` | apps/client/src/frontend_runtime.rs:349-379 | A yield happens at the end of the fade and turns the screen black |
| `Dialogue.DialogueRuntime.OnLine` | apps/client/src/dialogue_runtime.rs:64-100 | The method takes a line as specified, with its three refusals |
| `Dialogue.DialogueRuntime.OnChoiceAccepted` | apps/client/src/dialogue_runtime.rs:102-127 | The method takes an accepted choice as specified |
| `Dialogue.DialogueRuntime.OnInteract` | apps/client/src/dialogue_runtime.rs:129-146 | The method follows the interaction as specified |
| `Dialogue.DialogueRuntime.OnTick` | apps/client/src/dialogue_runtime.rs:259-272 | The method counts time and continues as specified |
| `Dialogue.DialogueRuntime.Next` | apps/client/src/dialogue_runtime.rs:227-238 | The method moves the selection as specified |
| `DialogueAnswers.LineTells` | apps/client/src/dialogue_runtime.rs:64-100 | A line counts only in the open interaction; one that is not authored takes the shown line away, one that is waits while a choice of its session is shown and is shown with the first choice selected otherwise |
| `DialogueAnswers.ChoiceTells` | apps/client/src/dialogue_runtime.rs:102-127 | An acceptance counts for the session and beat on show and a choice written there, and shows the text written for that choice |
| `DialogueAnswers.TickTells` | apps/client/src/dialogue_runtime.rs:259-279 | The accepted choice is shown until its ticks make a second, then the waiting line comes up with the first choice selected |
| `DialogueAnswers.SelectionTells` | apps/client/src/dialogue_runtime.rs:215-238 | Picking selects an offered choice, moving goes to its neighbour around the ends, and neither does anything else |
| `DialogueAnswers.ShownWasSent` | apps/client/src/dialogue_runtime.rs:64-100 | In every run from the start, a line that is shown or waits is authored and came while its own interaction was open |
| `DialogueAnswers.AcceptedWasChosen` | apps/client/src/dialogue_runtime.rs:102-127 | In every run from the start, the accepted choice on show was accepted for the line then on show: its text is the one written for that choice, its age the ticks since, on the same screen |
| `Dialogue.Reachable` | apps/client/src/dialogue_runtime.rs:64-279 | In every reachable state a pending line has an accepted choice of its session, what is shown meanwhile is of that session, and the selected index is valid for the active beat |
| `Dialogue.OfferedChoiceIsSent` | apps/client/src/dialogue_runtime.rs:240-251 | Whenever choices are offered, confirming sends one of them with a valid index |
| `Dialogue.RevisionCountsActivations` | apps/client/src/dialogue_runtime.rs:274-279 | The revision moves by one exactly when a different line becomes active |
| `Dialogue.ContinuesAfterOneSecond` | apps/client/src/dialogue_runtime.rs:259-279 | Undisturbed, the pending line waits while less than a second has passed and becomes active with the tick that reaches it |
| `Dialogue.ShowsOpenSessionIff` | apps/client/src/dialogue_runtime.rs:129-166 | The shown line stays one of the open interaction in every step, except for a tick that brings up a pending line of a replaced one |
| `Dialogue.StaleLineComesUp` | apps/client/src/dialogue_runtime.rs:129-146 | A concrete run with that step |
| `NpcDocument.ValidateCondition` | tools/npc_lab/server.py:34-81 | No error exactly for good conditions |
| `NpcDocument.ValidateAction` | tools/npc_lab/server.py:84-136 | No error exactly for good actions |
| `NpcDocument.ValidateBeats` | tools/npc_lab/server.py:166-234 | No error exactly for good beats with distinct ids, and the ids are those of the beats |
| `NpcDocument.ValidateNexts` | tools/npc_lab/server.py:236-252 | The second loop reports nothing exactly when every next names a known beat, passing over malformed values |
| `NpcDocument.ValidateNpcDocument` | tools/npc_lab/server_n6.py:23-45 | The validator with its pool check reports nothing exactly for valid documents |
| `NpcRules.DocumentIffRules` | tools/npc_lab/server_n6.py:23-45 | The valid documents are those that follow the rules, written on the JSON: header, beats and choices with distinct filled ids, conditions, actions, pools, nexts that name a beat, and no Hebrew text anywhere |
| `NpcRules.ConditionIffRules` | tools/npc_lab/server.py:34-81 | A good condition has exactly one of the five keys, with the reference that key asks for, and a truth value |
| `NpcRules.ActionIffRules` | tools/npc_lab/server.py:84-136 | A good action has exactly one of the five keys, with the data that key asks for |
| `NpcSelection.SelectEntryBeat` | tools/npc_lab/selection.py:110-125 | The loop finds the winner of the specification or the first error |
| `NpcSelection.SelectsFirstBest` | tools/npc_lab/selection.py:110-125 | The winner is the first authored beat of maximal priority among the eligible ones |
| `NpcSelection.ExplainEntrySelection` | tools/npc_lab/selection.py:153-232 | The loop lists the diagnostics of the specification or the first error |
| `NpcSelection.RunActions` | tools/npc_lab/selection.py:257-303 | The loop applies the actions in order and stops at the first error |
| `NpcAnswers.ConditionTells` | tools/npc_lab/selection.py:46-75 | A condition matches exactly when what it asks about, a fact, a meeting, a line heard, an item owned or equipped, is as it says |
| `NpcAnswers.SelectionTells` | tools/npc_lab/selection.py:78-125 | On a valid document the answer is the first beat of greatest priority among the entries whose conditions are met, that are not rare, and that are no one-shot already heard; none exactly when there is no such beat |
| `NpcAnswers.DiagnosticsTell` | tools/npc_lab/selection.py:153-232 | Each beat is judged by its conditions, its pool and both, and exactly the chosen one is the winner |
| `NpcAnswers.ActionTells` | tools/npc_lab/selection.py:257-303 | A good action sets its fact, adds to its list or removes every copy from it, and changes nothing else; moving several items is refused |
| `NpcAnswers.CompleteTells` | tools/npc_lab/selection.py:306-313 | Completing puts the beat on the list of what was heard, once, and fails exactly for a beat the document does not have |
| `NpcAnswers.AdvanceTells` | tools/npc_lab/selection.py:316-352 | Advancing finds the choice under its ids, records the beat, does the actions in their order and answers the beat the choice names; each refusal says what is missing |
| `NpcProgress.DiagnosticsAgree` | tools/npc_lab/selection.py:153-232 | One entry per beat in order, eligible exactly when it takes part in the selection, and the statuses classify every beat once with exactly the selected one as winner |
| `NpcProgress.SelectNeverRaises` | tools/npc_lab/selection.py:78-125 | Selection does not raise on a valid document and a well-shaped state |
| `NpcProgress.CompleteNeverStuck` | tools/npc_lab/selection.py:306-313 | Completing raises only for an unknown beat, keeps the state well shaped, forgets nothing and has the beat heard |
| `NpcProgress.AdvanceNeverStuck` | tools/npc_lab/selection.py:316-352 | Advancing succeeds exactly when the beat exists, offers the choice and none of its actions moves several items, and what it raises says which is missing; it leads to the beat the choice names, or nowhere, and the state stays well shaped and forgets nothing |
| `NpcProgress.OffersOne` | tools/npc_lab/selection.py:316-331 | A valid document offers at most one choice under an id, so the three cases of advancing exclude each other |
| `NpcProgress.ActionIsSeen` | tools/npc_lab/selection.py:257-303 | A successful action gives the condition about its subject the new answer, all others of that kind the old one, and touches no other memory |
| `NpcProgress.RunsRemember` | tools/npc_lab/server_n6.py:98-123 | Over any run of complete and advance requests the state stays well shaped and nothing heard is forgotten |
| `NpcProgress.OneShotsAreOneShot` | tools/npc_lab/selection.py:78-96 | A once or lore beat that has been heard is never selected again in any run |
| `NpcProgress.FinishedIsHeard` | tools/npc_lab/selection.py:306-352 | Completing a beat and advancing past it both make it heard, so neither way is it selected twice |
| `NpcProgress.OneShotLoopStops` | tools/npc_lab/selection.py:78-125 | Selecting and completing over once and lore entries ends within as many rounds as there are beats |

## Left out

- Power loss and `fsync`: the code does not sync, and a process crash is its boundary. The creation of missing parent
  directories of target files is not a step of the model.
- The text syntax of JSON: a manifest on disk is a document or unreadable bytes, and item and NPC documents are parsed
  values. NaN and infinite numbers, which Python's JSON admits, are not among them.
- SHA-256: a revision is the framed bytes themselves (in `ItemFiles`, the four files as read), so the hash is taken to
  have no collisions. The Mob Lab hashes its one file without framing, which is the case of one resource.
- The fault hook `fail_after` of `publish`; an exception inside a save followed by `rollback` is a cut followed by a recovery.
- The timeout and retry loop of `CatalogWriteLock`: the lock is held by one session or nobody and is released by a death.
  The startup recovery of both `main()` functions runs outside that lock and is not modelled.
- Editing.Serializable: a document is a fixed list of resource paths, while the Item Lab finds the equipment file by its
  id; `ItemFiles` models that search.
- AuthoringSave.PublishFiles: requires that no journal is left and that no path is staged with two contents. Under the
  lock the recovery before it ensures the first, and the second is exactly what recovery needs.
- HTTP handling, routing, subprocesses, the browser pages, icon upload, `insert_lib_export` and `rustfmt` (taken as the
  identity); pack validation is a yes or no from outside.
- Catalog and ledger texts are sequences of typed lines instead of text under regular expressions; a match in the middle
  of a line or across lines is not modelled.
- ItemFiles.SameDraft: when tags are given as an object, the order of its keys is not compared.
- ItemDurability.CreateIsAtomic: paths and the written texts are parameters; what a commit writes is taken to read back.
- ItemFiles.ParseInt: of the digits that Python's `int` takes in a text, only the ASCII ones are modelled.
- Slicer.DetectComponents: pixel indices are unbounded, while JavaScript's `| 0` would wrap above 2^31; sizes are integers.
- Crops.ExtractComponent: requires a box whose sides are in order, as those of `detectComponents` are.
- Png.DecodePngRgba: the checksum and the decompression are parameters; the reconstructed rows are returned, while the
  original drops them after the check.
- Atlas.PlanAtlas: options are integers, and the comparison of ids is a parameter.
- Bones.EvaluateBoneWorld: numbers are reals without rounding, sine and cosine are parameters, and a table entry that is
  `null` is not modelled.
- VisualPack.ResolveVisualPack: manifests are typed. Values of other JavaScript types, numeric strings, a missing atlas or
  appearance and the removal of repeated messages are not modelled.
- Template checks, template placement, preview frames and canvas conversions of the character runtime: they would add
  only easy members.
- Scene and Frontend: times and positions are reals, so rounding and non-finite ticks are left out; the texture
  rectangles of the scene are constants of one line.
- Dialogue: the texts of lines and the presentation cue are lookups only and are left out.
- NpcSelection.ExplainEntrySelection: each diagnostic has its id, its flags and its status; the explaining texts are left out.
- NpcSelection: an ill-shaped state or document raises one common error in the model, where the original raises several kinds.
- NpcDocument: each problem stands for one message, without its text and path.
- The remainder of `app.rs`, the camera follow, display presets, asset loading and the load reports.
