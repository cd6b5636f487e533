# P5136 asset and protocol models

Dafny models of the parts of the P5136 compatibility project where order, state and bounds matter, with proofs of
what they promise. Each file holds one module; `dafny verify dfyconfig.toml` checks them all.

- **Trees.** `Text` and `BmlTree` hold ASCII case folding and the n-ary BML node. `Tachometer` specifies the migration
  of the XUN tachometer, `TachometerRun` runs it as the source does, and `TachometerProof`, `TachometerFixpoint`,
  `TachometerFrame` and `TachometerTheorems` prove when a migrated tree is a fixed point, exactly, where every node
  of the input ends and what the client finds there. `SelectorMerge` merges themes into the track selector and
  `SelectorRows` says what the merged rows hold; `AbilityMerge` merges item abilities, and `AbilityKeys` says which.
- **Index and planner.** `AssetIndex` scans mounts, picks effective records, extracts through a one-archive slot and
  stores its cache. `Planner` resolves references and keeps the format memo; `Closure` is the work list with its byte
  budget. `Paths` is the path normaliser.
- **Installers.** `Installer` models both DataRaw installers with one-time backups. A run carries a fault that may stop
  it at any entry, before or after its backup and its write, so statements about runs cover interrupted ones. `Packing`
  and `ArchiveNames` split a bundle into archives and name them.
- **Codecs.** `Reading` is the outcome of reading at an offset; `LittleEndian` and `Utf16` are the integers and strings.
  `PinBml`, `PinBmlProof` and `PinBmlRun` are the connector's recursive BML codec with its depth bound and shared node
  budget. `Cursor` and `Layout` are the client oracle's reader; `GameResult` and `Room` characterise the packets it
  accepts, and `PacketOffsets` places their fields byte by byte. `XmlText` re-encodes XML text and `SoundScan`
  finds sound keys in track files.
- **State machines.** `FinalStage` and `FinalStageTiming` give the podium schedulers and their bounds in true time under
  a wrapping 32-bit clock. `ItemFsm` replays item operations and `ItemOutcomes` says what its labels, table
  and queue hold. `Protocol` has the invariant of all protocol runs and shows that it is exact; `ProtocolHistory` tells
  the whole state from the accepted events.

Code that updates state is a class or a method with loops, proved against a specification function; the theorems are
lemmas about that function. Library code that is not part of this model enters as arbitrary functions or parameters.

Three expectations of the code turn out to hold only under a condition. Each condition is exact; for the
first two a failing input is given:

- The tachometer migration is idempotent exactly when no looked-up node is lost inside a removed slice while the next
  node of that name is out of order (`TachometerTheorems.Idempotent`, `TachometerTheorems.SecondPassCanChange`).
- A second selector merge changes nothing exactly when the aliased row, and the borrowed code's row if asked for, stand
  where they would be inserted. The first merge can spoil this by inserting a neighbour later
  (`SelectorMerge.FixedExactly`, `SelectorMerge.QuietExactly`, `SelectorMerge.SecondMergeCanChange`).
- XML text that is written as plain UTF-8 and begins with a byte order mark is detected as marked UTF-8
  (`XmlText.EncodedTextComesBack`).

The documentation of the track installer calls repeated installs idempotent. The code meets this exactly for bundles in
which no place is given two different contents (`Installer.ReinstallIsQuiet`); a bundle with two different track tables
completes its first install and is written again by the second (`Installer.InconsistentBundle`).

## Model

| member | source | states |
|---|---|---|
| BmlTree.AssignLookup | crates/p5136-assets/src/bundle.rs:1009-1023 | setting an attribute is seen by every spelling of its key and by no other key |
| Text.LowerExactly | crates/p5136-assets/src/bundle.rs:1009-1048 | folding turns the 26 capital ASCII letters into the small ones and changes nothing else |
| BmlTree.WithoutLookup | crates/p5136-assets/src/bundle.rs:1025-1030 | removing a key removes all its spellings and leaves every other lookup as it was |
| BmlTree.WithoutNothing | crates/p5136-assets/src/bundle.rs:1025-1030 | a removal reports a change exactly when the key was there |
| Tachometer.LabelsDistinct | crates/p5136-assets/src/bundle.rs:877-991 | no node answers to two of the looked-up names, in any spelling |
| Tachometer.FindInFirst | crates/p5136-assets/src/bundle.rs:1032-1048 | the lookup descends into the first child that holds the name, and no earlier child holds it |
| TachometerFrame.FindsFirst | crates/p5136-assets/src/bundle.rs:1032-1048 | the recursive lookup finds exactly the preorder first node whose name attribute folds to the literal name |
| TachometerFrame.LooksUpMeans | crates/p5136-assets/src/bundle.rs:877-957 | which literal name each row of edits looks up |
| TachometerFrame.RenamedAt | crates/p5136-assets/src/bundle.rs:841-864 | at every position of the tree: each of the seven obsolete names becomes its own literal name, every other node keeps all attributes, and no tag, value, other attribute or child count changes |
| TachometerFrame.MigratedAt | crates/p5136-assets/src/bundle.rs:817-1000 | every node outside the removed slices is found again in the migrated tree, at the position given: value kept, tag kept or made a window, every attribute reads its prescribed literal or what it was, and its children are those it had but for the slices of the first charger |
| TachometerFrame.MigratedIcon | crates/p5136-assets/src/bundle.rs:930-947 | the first `n2o` ends with one more child, a childless copy of the first `n2o_always` with prescribed attributes, exactly when it had none to switch on |
| TachometerFrame.EngineIcons | crates/p5136-assets/src/bundle.rs:845-848 | a modern tree whose only sources of `n2o` and `n2o_always` are the two engine icons ends with the first named `n2o` and holding an `on` child that shows what the second shows |
| TachometerFrame.ActiveIconContract | crates/p5136-assets/src/bundle.rs:930-947 | the cloned state panel has its template's tag and value, the prescribed attributes, its template's remaining attributes and no children, for every template |
| TachometerRun.RenameNodes | crates/p5136-assets/src/bundle.rs:834-864 | the work list over borrowed nodes renames exactly the obsolete names anywhere in the tree; the flag is set exactly when the tree differs |
| TachometerRun.Dress | crates/p5136-assets/src/bundle.rs:877-922 | one row of edits leaves the node with all its edits, and reports a change exactly when the node differs |
| TachometerRun.RunRow | crates/p5136-assets/src/bundle.rs:877-956 | one lookup-and-edit row on the whole tree; changed exactly when the tree differs |
| TachometerRun.RunCharger | crates/p5136-assets/src/bundle.rs:957-991 | cutting the synthetic slices and settling the gauge; changed exactly when the charger was not in order |
| TachometerRun.NormalizeTachometer | crates/p5136-assets/src/bundle.rs:817-1000 | the imperative migration gives the specified tree, and `changed` is true exactly when the tree differs from the input |
| TachometerRun.IsSafeTachometerMigration | crates/p5136-assets/src/bundle.rs:786-799 | a staged tree is accepted exactly when it is the migration of the existing one, differs from it, and the existing one has no harmful loss |
| TachometerTheorems.FixedPoints | crates/p5136-assets/src/bundle.rs:817-1000 | a tree is unchanged by the migration exactly when every step finds it in order |
| TachometerTheorems.MigratedSettled | crates/p5136-assets/src/bundle.rs:817-1000 | the migrated tree is in order exactly when the input loses no looked-up node harmfully |
| TachometerTheorems.Idempotent | crates/p5136-assets/src/bundle.rs:786-799 | migrating twice equals migrating once exactly when no looked-up node is lost inside a removed slice while its successor is still out of order |
| TachometerTheorems.QuietSlicesSuffice | crates/p5136-assets/src/bundle.rs:965-976 | idempotence holds on every tree whose removed slices hold none of the looked-up names |
| TachometerTheorems.SecondPassCanChange | crates/p5136-assets/src/bundle.rs:904-912 | a concrete tree whose second migration still changes it: a name looked up inside a removed slice |
| TachometerTheorems.ClientContract | crates/p5136-assets/src/bundle.rs:866-956 | when no looked-up node is lost harmfully (the exact condition of `Idempotent`), in the migrated tree the first node of every name that the controller looks up shows, name by name, its position, texture, animation, window and visibility, and `n2o` has a child to switch on |
| TachometerTheorems.ChargerContract | crates/p5136-assets/src/bundle.rs:957-991 | the first charger of every migrated tree shows none of the three synthetic slices, and its first gauge panel is named and visible |
| TachometerTheorems.MigratedNames | crates/p5136-assets/src/bundle.rs:841-857 | no obsolete name is left anywhere, although later steps clone and edit nodes |
| TachometerTheorems.MigratedRoot | crates/p5136-assets/src/bundle.rs:869 | the root keeps the misspelled property through all later steps |
| TachometerFixpoint.MigratedRow | crates/p5136-assets/src/bundle.rs:877-956 | a row is in order in the final tree exactly when its node is not lost in a slice, or its successor is in order already; no later step spoils it |
| TachometerFixpoint.MigratedCharger | crates/p5136-assets/src/bundle.rs:957-991 | the charger of every migrated tree is in order |
| LittleEndian.SignedRoundTrip | crates/p5136-connector/src/wire.rs:33-36 | a two's complement number in range is read back from its little-endian bytes |
| LittleEndian.SignedInverse | crates/p5136-connector/src/wire.rs:33-36 | every byte string is the image of the number it reads as, which is in range |
| LittleEndian.DigitsPlaces | crates/p5136-connector/src/wire.rs:33-36 | byte i of a written number is its i-th digit to the base 256, the least significant first |
| Utf16.UnitsRoundTrip | crates/p5136-connector/src/wire.rs:52-71 | the UTF-16 code units of a string read back as the string, strictly and with replacement |
| Utf16.StrictInverse | crates/p5136-client-oracle/src/cursor.rs:119-130 | a strict reading of code units loses nothing: its text has exactly these units |
| Utf16.LossyLength | crates/p5136-connector/src/wire.rs:52-71 | reading with replacement keeps the number of code units, so limits hold for what is written again |
| Utf16.UnitsExactly | crates/p5136-connector/src/wire.rs:144-160 | a character below U+10000 is one unit, any other a high and a low surrogate that spell its value (section 2.1 of RFC 2781) |
| Utf16.StrictRefuses | crates/p5136-client-oracle/src/cursor.rs:119-130 | a strict reading refuses exactly the unit sequences that no text has |
| Utf16.LossyExactly | crates/p5136-connector/src/wire.rs:52-71 | behind any well-formed front an unpaired surrogate is read as U+FFFD, and the rest as it would be alone |
| PinBmlRun.BmlBudget.Enter | crates/p5136-connector/src/bml.rs:36-43 | the node budget grows by one, or the depth or the node limit is reported |
| PinBmlRun.WireReader.Bml | crates/p5136-connector/src/bml.rs:71-109 | the recursive reader returns the specified tree, offset and node count, or the specified error |
| PinBmlRun.WireWriter.Bml | crates/p5136-connector/src/bml.rs:111-143 | the recursive writer appends the specified bytes and node count, or reports the specified error |
| PinBmlRun.WireReader.String | crates/p5136-connector/src/wire.rs:52-71 | a counted string is read, or the error of its count or its bytes is reported |
| PinBmlRun.WireReader.AttributeList | crates/p5136-connector/src/bml.rs:81-91 | attributes are read in order and the first repeated key is refused |
| PinBmlRun.WireWriter.String | crates/p5136-connector/src/wire.rs:144-160 | a string is appended in full, or refused for its limit or the payload bound |
| PinBmlProof.BmlWritten | crates/p5136-connector/src/bml.rs:111-143 | writing succeeds exactly when depth, counts, strings, node budget and payload bound all fit, and then appends exactly the image of the tree |
| PinBmlProof.BmlRead | crates/p5136-connector/src/bml.rs:71-109 | wherever the image of a fitting tree without repeated keys stands, reading there returns the tree, the offset behind it and the node count |
| PinBmlProof.BmlAccepted | crates/p5136-connector/src/bml.rs:71-109 | every tree read is within all limits, repeats no key, is paid for in the budget and took as many bytes as its image |
| PinBmlProof.BmlRefused | crates/p5136-connector/src/bml.rs:71-109 | wherever the image of a fitting tree with a repeated key in any node stands, reading there reports a repeated key and no other error |
| PinBmlProof.RepeatedKeyRefused | crates/p5136-connector/src/bml.rs:81-91 | reading the image of an attribute list stops at the first key that was there before, and names it |
| PinBmlProof.RoundTrip | crates/p5136-connector/src/bml.rs:27-143 | what was written anywhere in a payload reads back as the same tree with the same budget, whatever follows, exactly when no key is repeated; otherwise a repeated key is reported |
| PinBmlProof.Savable | crates/p5136-connector/src/bml.rs:71-143 | a fitting tree needs exactly the room of its image |
| PinBmlProof.Resave | crates/p5136-connector/src/bml.rs:71-143 | a tree accepted from any input, malformed surrogates included, can be written again in the same number of bytes and reads back as itself |
| PinBmlProof.RemovalStaysSavable | crates/p5136-connector/src/bml.rs:17-25 | after dropping the children with a name the tree is smaller, holds none of them, and can still be saved and loaded |
| PinBmlRun.RemoveDirectChildrenNamed | crates/p5136-connector/src/bml.rs:19-24 | every child without the name is kept, moved up by the number of named children before it, and nothing else is kept; the rest of the node stays and the count is the number of children with the name |
| Paths.WalkExactly | crates/p5136-assets/src/planner.rs:1097-1113 | the component stack survives exactly when no prefix climbs above the root, and ends at the net depth |
| Paths.WalkPlaces | crates/p5136-assets/src/planner.rs:1097-1113 | the component at each level of the final directory is one that was entered at that depth and that no later prefix falls back to or below |
| Paths.RefusedExactly | crates/p5136-assets/src/planner.rs:1097-1113 | a path is refused exactly for a colon, a leading slash, a climb above the root or an empty result |
| Paths.NormalizeIdempotent | crates/p5136-assets/src/track_bundle.rs:2067-2083 | a normalised path is its own normal form and has no empty, `.` or `..` component |
| Paths.NormalizePrefix | crates/p5136-assets/src/planner.rs:1097-1113 | normalising a prefix first does not change where a path leads |
| Paths.NormalizeVirtual | crates/p5136-assets/src/planner.rs:1097-1113 | the stack loop computes the walk from the root |
| AssetIndex.FoldExactly | crates/p5136-assets/src/asset_index.rs:479-483 | a folded path loses the separators at both ends and has the same length otherwise, slashes for separators and small letters for capital ASCII ones |
| AssetIndex.JoinExactly | crates/p5136-assets/src/asset_index.rs:485-491 | a virtual path is the prefix without slashes around it, a slash, and the entry's path with backslashes turned |
| AssetIndex.PlainExactly | crates/p5136-assets/src/asset_index.rs:493-503 | an archive name is accepted exactly when it ends in `.rho`, in any case, and holds no separator and no NUL |
| AssetIndex.ScanExactly | crates/p5136-assets/src/asset_index.rs:250-331 | a scan is the concatenation, mount by mount, of the entries of the archives that open where they are first named, and fails exactly when some mount breaks it |
| AssetIndex.GroupedAt | crates/p5136-assets/src/asset_index.rs:312-327 | a group holds exactly the records of its folded path, in scan order |
| AssetIndex.EffectiveIsLast | crates/p5136-assets/src/asset_index.rs:168-172 | the effective record of a path is the last one scanned for it, RHO5 overlays after all legacy mounts |
| AssetIndex.ScanSpelling | crates/p5136-assets/src/asset_index.rs:270-277 | a scan keeps one spelling per case-folded archive name, and every record names an archive that opened |
| AssetIndex.ScanLegacyMounts | crates/p5136-assets/src/asset_index.rs:250-331 | the mount loop yields the grouped records of the specified scan, or fails when it does |
| AssetIndex.AssetExtractor.Extract | crates/p5136-assets/src/asset_index.rs:449-476 | one extraction opens an archive only when the slot holds another name, leaves the slot alone when opening fails, and answers from the slot |
| AssetIndex.ServeAgrees | crates/p5136-assets/src/asset_index.rs:448-477 | for any sequence of requests every answer of the cached extractor is that of uncached extraction |
| AssetIndex.ExtractorRefinesExtraction | crates/p5136-assets/src/asset_index.rs:193-213 | so it is for every scanned index with its overlays, from an empty slot |
| AssetIndex.CacheRoundTrip | crates/p5136-assets/src/asset_index.rs:399-446 | a cached index restores to the legacy part of every group, under the same keys |
| AssetIndex.ScanCacheRoundTrip | crates/p5136-assets/src/asset_index.rs:399-446 | what a fresh scan stores comes back unchanged |
| Planner.SortAscending | crates/p5136-assets/src/planner.rs:968-969 | the attempts are sorted, distinct and the same strings |
| Planner.ResolveLeast | crates/p5136-assets/src/planner.rs:952-981 | a reference leads to the least attempt that the source has, only otherwise to the least the target has, and to neither exactly when nobody has one |
| Planner.AttemptsExactly | crates/p5136-assets/src/planner.rs:952-969 | the places tried for a reference are those beside its file, below the group and below the group's root, and the reference itself exactly when it starts with one of twelve asset folders |
| Planner.FormatMemo.Seen | crates/p5136-assets/src/planner.rs:698-725 | whatever was asked before, the memo answers as a direct scan of the first 128 files does |
| Planner.DirectScanExactly | crates/p5136-assets/src/planner.rs:698-725 | a scan that answers says whether some file has the signature, and it gives up only on a file that cannot be extracted |
| Planner.DirectScanStops | crates/p5136-assets/src/planner.rs:698-725 | it stops at the first file that has the signature or cannot be extracted |
| Closure.FollowReferences | crates/p5136-assets/src/planner.rs:573-595 | the work list grows by exactly the references the source resolves; dangling exactly when some reference resolves nowhere |
| Closure.Inspect | crates/p5136-assets/src/planner.rs:531-613 | one record adds its references and findings, or makes the group unusable exactly when it cannot be read |
| Closure.ReachIsLeast | crates/p5136-assets/src/planner.rs:481-500 | the reachable set holds the seeds, is closed under source references and lies in every such set |
| Closure.SeedsExactly | crates/p5136-assets/src/planner.rs:478-500 | a plan starts from exactly the effective files at or below the group's prefix and, for a XUN kart, the two gauge folders |
| Closure.OwnFilesExactly | crates/p5136-assets/src/planner.rs:480-486 | a group is planned exactly when some effective file lies at or below its prefix |
| Closure.BadExactly | crates/p5136-assets/src/planner.rs:536-606 | a record makes its group unusable exactly when it cannot be extracted, its length has changed, or the format check of a `1s` file meets a file it cannot extract before one with the signature |
| Closure.OneSExactly | crates/p5136-assets/src/planner.rs:597-606 | the format check is made for exactly the files with extension `1s`, in any case, whatever query follows |
| Closure.TotalIsExtracted | crates/p5136-assets/src/planner.rs:525-548 | in a plan the sum of the indexed sizes is the number of bytes extracted |
| Closure.ExtensionExactly | crates/p5136-assets/src/planner.rs:1044-1050 | the extension of a path is what stands between its last dot and a query or fragment behind it |
| Closure.PlanGroup | crates/p5136-assets/src/planner.rs:469-696 | the work list ends with exactly the reachable set, each folded path once and sorted, the byte sum over that set, and its verdict, one of five, each stated over the reachable records; the byte limit fails it exactly when that sum exceeds it |
| Closure.VerdictOf | crates/p5136-assets/src/planner.rs:647-662 | the status computed from the findings is the verdict on the reachable records: experimental exactly when asked for with a native record and every record readable, satisfied and translated; backport for the other native plans; then unresolved, localization and compatible |
| Closure.VerdictOnce | crates/p5136-assets/src/planner.rs:647-662 | no two of the five verdicts hold together, so each is given exactly when its condition holds |
| Closure.SatisfiedExactly | crates/p5136-assets/src/planner.rs:573-595 | every reference of the plan leads into the plan or the target exactly when no reachable record has one that resolves nowhere |
| Closure.CompatibleMeansComplete | crates/p5136-assets/src/planner.rs:647-662 | in a plan called compatible every reference of every file is in the plan or in the target, and nothing is native-only, of unknown format or untranslated |
| Closure.ScannedViewIsValid | crates/p5136-assets/src/asset_index.rs:168-176 | the views of scanned indexes meet the planner's assumption |
| FinalStage.TeamFinalScheduler.Update | crates/p5136-client-oracle/src/final_stage_scheduler.rs:220-246 | a tick leaves exactly the state and gives the outcome of the transition whose runs are bounded below: arming, strict comparisons, and each phase entered unarmed |
| FinalStage.TeamFinalScheduler.Input | crates/p5136-client-oracle/src/final_stage_scheduler.rs:250-260 | a key press moves only the manual confirmation, and only on its action |
| FinalStage.IndividualFinalScheduler.Update | crates/p5136-client-oracle/src/final_stage_scheduler.rs:94-140 | a tick leaves exactly the state and gives the outcome of the transition whose runs are bounded below: each phase is entered at the tick's own time |
| FinalStage.IndividualFinalScheduler.Input | crates/p5136-client-oracle/src/final_stage_scheduler.rs:145-170 | a key press shortens or restarts only the two observer holds, with the confirmations counted without overflow |
| FinalStageTiming.ElapsedIsTrue | crates/p5136-client-oracle/src/final_stage_scheduler.rs:183-185 | wrapping subtraction of clock readings never exceeds the true elapsed time and equals it below 2^32 ms |
| FinalStageTiming.TeamTickExactly | crates/p5136-client-oracle/src/final_stage_scheduler.rs:220-276 | from every team state with a truthful stamp, a tick's phase, stamp and outcome in literal durations |
| FinalStageTiming.IndividualTickExactly | crates/p5136-client-oracle/src/final_stage_scheduler.rs:94-140 | from every individual state with a truthful stamp, a tick's phase, stamp, count and outcome in literal durations |
| FinalStageTiming.PressesExactly | crates/p5136-client-oracle/src/final_stage_scheduler.rs:145-170 | exactly which presses are heard on which screen, and where each leads |
| FinalStageTiming.StageInstalled | crates/p5136-client-oracle/src/final_stage_scheduler.rs:94-276 | in every run the stage installed is the observers' for an observer and the players' for a player |
| FinalStageTiming.TeamNotBefore | crates/p5136-client-oracle/src/final_stage_scheduler.rs:220-276 | no run of ticks and presses installs the ready stage before 8103 ms, wherever the clock wraps |
| FinalStageTiming.TeamBoundIsMet | crates/p5136-client-oracle/src/final_stage_scheduler.rs:220-246 | a run that installs after exactly 8103 ms |
| FinalStageTiming.TeamNotAfter | crates/p5136-client-oracle/src/final_stage_scheduler.rs:220-276 | without manual confirmation, with complete animations and ticks at most gap apart, every run longer than 8100 + 9 gap ms has installed the ready stage |
| FinalStageTiming.IndividualNotBefore | crates/p5136-client-oracle/src/final_stage_scheduler.rs:94-186 | a player's podium lasts at least 6103 ms, an observer's 4103 ms without manual input and 101 ms with it |
| FinalStageTiming.PlayerBoundIsMet | crates/p5136-client-oracle/src/final_stage_scheduler.rs:94-140 | a run that installs a player's ready stage after exactly 6103 ms |
| FinalStageTiming.ObserverBoundIsMet | crates/p5136-client-oracle/src/final_stage_scheduler.rs:94-140 | a run without presses that installs an observer's ready stage after exactly 4103 ms |
| FinalStageTiming.PressedBoundIsMet | crates/p5136-client-oracle/src/final_stage_scheduler.rs:94-170 | a run whose press cuts an observer's podium to exactly 101 ms |
| FinalStageTiming.IndividualNotAfter | crates/p5136-client-oracle/src/final_stage_scheduler.rs:94-186 | with complete animations and ticks at most gap apart, a player's ready stage is installed within 6100 + 7 gap ms whatever is pressed, an observer's within 4100 + 9 gap ms unless somebody presses on the manual screen |
| Cursor.PacketCursor.Take | crates/p5136-client-oracle/src/cursor.rs:139-156 | bytes and the new offset, or an end-of-packet error that names offset, need and rest |
| Cursor.PacketCursor.Count | crates/p5136-client-oracle/src/cursor.rs:96-117 | a count within its bound, or the error with the value that was read |
| Cursor.PacketCursor.Utf16 | crates/p5136-client-oracle/src/cursor.rs:119-130 | a counted name, or the error of its count, its units or its surrogates |
| Cursor.PacketCursor.Finish | crates/p5136-client-oracle/src/cursor.rs:158-168 | succeeds exactly when no bytes are left |
| Cursor.CountAccepted | crates/p5136-client-oracle/src/cursor.rs:96-117 | every accepted count stands in the packet as its own four-byte image |
| Cursor.NameRead | crates/p5136-client-oracle/src/cursor.rs:119-130 | the image of a name within the limit reads back as the name |
| Cursor.NameAccepted | crates/p5136-client-oracle/src/cursor.rs:119-130 | every accepted name is within its limit and stands in the packet as its own image |
| Layout.FieldsRead | crates/p5136-client-oracle/src/cursor.rs:76-94 | the image of a run of typed fields reads back as these values |
| Layout.FieldsAccepted | crates/p5136-client-oracle/src/cursor.rs:76-94 | values read from a run of typed fields are in range and the packet shows exactly their image |
| Layout.RowsAccepted | crates/p5136-client-oracle/src/room.rs:227-234 | a sequence of accepted rows stands in the packet as the image of its values, tags included |
| GameResult.Decode | crates/p5136-client-oracle/src/game_result.rs:48-76 | the decoder with its two row loops returns the specified result or the first error |
| GameResult.ReadHuman | crates/p5136-client-oracle/src/game_result.rs:78-121 | a human row is read in full or the first error is reported, and each result field comes from its own place in the row |
| GameResult.ReadAi | crates/p5136-client-oracle/src/game_result.rs:123-143 | an AI row is read in full or the first error is reported, and each result field comes from its own place in the row |
| GameResult.RoundTrip | crates/p5136-client-oracle/src/game_result.rs:48-143 | decoding what the reference writer wrote gives the result back, whatever the opaque bytes are |
| GameResult.Accepted | crates/p5136-client-oracle/src/game_result.rs:48-143 | every accepted packet is an output of the reference writer for its own result and some opaque bytes |
| GameResult.AcceptedLength | crates/p5136-client-oracle/src/game_result.rs:48-143 | an accepted packet with h human and a AI rows has 52 + 212h + 22a bytes, and h + a is at most 8 |
| GameResult.LengthDeterminesCounts | crates/p5136-client-oracle/src/game_result.rs:48-76 | accepted packets of one length have the same two counts |
| GameResult.PrefixFree | crates/p5136-client-oracle/src/game_result.rs:48-76 | no accepted packet is a proper prefix of another |
| PacketOffsets.ResultOffsets | crates/p5136-client-oracle/src/game_result.rs:48-143 | in every accepted packet each field of the result stands at its literal byte offset, row by row |
| Room.DecodeSlotData | crates/p5136-client-oracle/src/room.rs:215-250 | the decoder with its member and observer loops returns the specified snapshot or the first error |
| Room.ReadMember | crates/p5136-client-oracle/src/room.rs:252-306 | one member row, selected by its discriminant |
| Room.ReadObserver | crates/p5136-client-oracle/src/room.rs:308-320 | one observer row, empty for discriminant 0 |
| Room.RoundTrip | crates/p5136-client-oracle/src/room.rs:215-327 | decoding what the reference writer wrote gives the snapshot back, whatever the opaque bytes are |
| Room.Accepted | crates/p5136-client-oracle/src/room.rs:215-327 | every accepted packet is an output of the reference writer for its own snapshot and some opaque bytes |
| Room.PrefixFree | crates/p5136-client-oracle/src/room.rs:239 | no accepted packet is a proper prefix of another |
| Room.AcceptedSeats | crates/p5136-client-oracle/src/room.rs:223-238 | an accepted snapshot has eight members, eight observers, eight positions and at most eight closed slots |
| PacketOffsets.SlotOffsets | crates/p5136-client-oracle/src/room.rs:215-327 | in every accepted packet each field of the snapshot, the head and the rows included, stands at the byte offset that the rows and names before it give, and every name is within its limit of 32, 128 or 64 units |
| Installer.SafePlaceStaysInside | crates/p5136-assets/src/asset_import.rs:979-994 | an accepted path stays inside the installation and is where the path normaliser leads |
| Installer.SafePlaceExactly | crates/p5136-assets/src/track_bundle.rs:1679-1698 | a path is safe exactly when it has no leading separator, no `..`, a leading `.` only where that is allowed, and some plain component |
| Installer.TrackCatalogExactly | crates/p5136-assets/src/track_bundle.rs:2580-2588 | the catalog paths of a track bundle, spelled out |
| Installer.AssetCatalogExactly | crates/p5136-assets/src/asset_import.rs:970-977 | the catalog paths of an asset bundle, spelled out, and the item table apart from the others |
| Installer.Installation.BackUpOnce | crates/p5136-assets/src/track_bundle.rs:2093-2113 | a file is copied once; an existing backup is left alone; a folder in the way fails it |
| Installer.Installation.InstallEntry | crates/p5136-assets/src/asset_import.rs:896-938 | one entry: identical files are left, replacements are backed up first, conflicts fail, and a fault at any point leaves the specified partial state |
| Installer.Installation.InstallTracks | crates/p5136-assets/src/track_bundle.rs:1517-1577 | the loop leaves the tree, the backups and the tally of the specified run, wherever a fault stops it |
| Installer.Installation.InstallAssets | crates/p5136-assets/src/asset_import.rs:877-939 | the loop leaves the tree, the backups and the tally of the specified run, wherever a fault stops it |
| Installer.Installation.ReplaceArchives | crates/p5136-assets/src/asset_import.rs:941-966 | the two data archives are backed up beside themselves and replaced |
| Installer.HistoryRecoverable | crates/p5136-assets/src/track_bundle.rs:1517-1577 | over any sequence of installs of both kinds, each stopping anywhere, no file is lost, no backup changes, and the original content of every file stays what it was |
| Installer.BackupsRestore | crates/p5136-assets/src/track_bundle.rs:2093-2113 | from an empty backup folder, copying all backups over the tree restores every original file after any such history |
| Installer.NonCatalogFilesKept | crates/p5136-assets/src/track_bundle.rs:1546-1558 | no run of the track installer, complete or not, changes an existing file to which no catalog path leads |
| Installer.RunShielded | crates/p5136-assets/src/asset_import.rs:914-920 | a file is overwritten only by a catalog entry or one that passes the replacement test |
| Installer.RunPlaces | crates/p5136-assets/src/track_bundle.rs:1517-1577 | a completed run leaves exactly the bundle's contents at the bundle's places and every other file alone |
| Installer.RunCounts | crates/p5136-assets/src/asset_import.rs:877-939 | written and identical together count every selected entry once; a run that wrote nothing changed nothing |
| Installer.TracksInstalled | crates/p5136-assets/src/track_bundle.rs:1517-1577 | a track installation that completes met only its two roles; every resource, and every catalog entry on a catalog path, stands at its safe place, the last one for a place; every other file is as it was, and written plus identical is their number |
| Installer.AssetsInstalled | crates/p5136-assets/src/asset_import.rs:877-939 | an asset installation that completes installed exactly the entries of its roles, the last one for a place, left every other file as it was and counted each once |
| Installer.RunCompletes | crates/p5136-assets/src/track_bundle.rs:1536-1574 | without outside faults a run over separate places completes exactly when no entry is refused and each can be installed where it goes, judged before the run; its tally of identical and replaced is known before it starts |
| Installer.TracksComplete | crates/p5136-assets/src/track_bundle.rs:1517-1577 | a track installation over separate places completes, without outside faults, exactly when every entry has one of the two roles and every resource and every catalog has bytes, a safe place and can be installed there |
| Installer.AssetsComplete | crates/p5136-assets/src/asset_import.rs:877-939 | an asset installation over separate places completes, without outside faults, exactly when every entry is reported and every one of its roles has bytes, a safe place without a colon and can be installed there; all others are passed over |
| Installer.FaultStops | crates/p5136-assets/src/track_bundle.rs:1536-1574 | what each fault leaves behind when an entry replaces a file: the file is there in its old or its new form, and the backup is made before the new form |
| Installer.ReinstallIsQuiet | crates/p5136-assets/src/track_bundle.rs:1546-1551 | after a completed install a second one writes nothing, exactly for bundles that never give one place two contents |
| Installer.InconsistentBundle | crates/p5136-assets/src/track_bundle.rs:1447-1577 | wherever the track table is a file that can be backed up, a bundle with two different tables completes a first install, is not consistent, and has both tables written again by the second install |
| Installer.RunOk | crates/p5136-assets/src/track_bundle.rs:1559-1569 | files and folders stay a proper directory tree in the tree and in the backups |
| Installer.DataArchivesRecoverable | crates/p5136-assets/src/asset_import.rs:1012-1022 | over any number of updates, complete or not, the first contents of both data archives stay known |
| Installer.ArchivesUpdated | crates/p5136-assets/src/asset_import.rs:941-966 | without faults the update completes exactly when both archives are staged and there; then both are as staged, the two backups hold the first contents, and no other file of the folder is touched |
| Installer.ArchiveFaulted | crates/p5136-assets/src/asset_import.rs:941-966 | what each fault leaves of one archive update: the old archive, or the new one with its first contents beside it |
| SelectorMerge.MergeThemeTabOrder | crates/p5136-assets/src/track_bundle.rs:2314-2407 | the merge loop over the themes, and the set of registered keys is the set requested |
| SelectorMerge.SelectorHasEveryTheme | crates/p5136-assets/src/track_bundle.rs:2561-2571 | the check that follows an installation passes for every requested native or aliased theme |
| SelectorMerge.EveryThemeRegistered | crates/p5136-assets/src/track_bundle.rs:2340-2405 | every requested theme has a row under its registration id, although a later theme may clear rows |
| SelectorMerge.OtherRowsKept | crates/p5136-assets/src/track_bundle.rs:2340-2403 | outside the slots to be filled no row is added, removed or reordered |
| SelectorMerge.AliasCounts | crates/p5136-assets/src/track_bundle.rs:2341-2350 | with the aliased theme its slot ends with one row, its own name with none, and the borrowed code with one exactly when it was requested too |
| SelectorMerge.OneAliasRow | crates/p5136-assets/src/track_bundle.rs:305-319 | the alias slot ends with exactly one row |
| SelectorMerge.IdempotentWithoutAlias | crates/p5136-assets/src/track_bundle.rs:2314-2407 | without the aliased theme a second merge changes nothing |
| SelectorMerge.AliasPicks | crates/p5136-assets/src/track_bundle.rs:2341-2350 | after a merge the alias slot holds the new aliased row, its own name none, and the borrowed code's slot the row of its own theme if that was asked for |
| SelectorMerge.MergeReplaces | crates/p5136-assets/src/track_bundle.rs:2340-2403 | where every other theme has a row, the borrowed code aside, a merge only takes out the slots of the aliased theme and puts the aliased row, then the borrowed code's row, in at their places |
| SelectorMerge.FixedExactly | crates/p5136-assets/src/track_bundle.rs:2314-2407 | any catalog is left as it is by a merge exactly when every requested theme has its row and, with the aliased theme, its slots hold exactly the rows they would get, at the places where they would be inserted |
| SelectorMerge.QuietExactly | crates/p5136-assets/src/track_bundle.rs:2314-2407 | a second merge of the same themes changes nothing exactly when the aliased theme is not asked for, or its row, and the borrowed code's row if asked for, stand where they would be inserted |
| SelectorMerge.IdempotentWithAlias | crates/p5136-assets/src/track_bundle.rs:2314-2407 | so a second merge changes nothing when every theme processed after the aliased one, the borrowed code aside, had a row before the first |
| SelectorMerge.SecondMergeCanChange | crates/p5136-assets/src/track_bundle.rs:2377-2403 | a concrete catalog and request on which the second merge moves the aliased row, because the first inserted its neighbour; its row does not stand in place |
| SelectorRows.NewRowExactly | crates/p5136-assets/src/track_bundle.rs:2361-2376 | a new row is the first source row of its theme with tag `theme`, its id and, for the alias, its string key and icon set, and every other attribute, the value and the children kept; without a source row it is bare |
| SelectorRows.InsertionExactly | crates/p5136-assets/src/track_bundle.rs:2377-2403 | a row goes in before the first target row of the nearest later source neighbour that has one, else behind that of the nearest earlier one, else at the end |
| SelectorRows.MergedSlot | crates/p5136-assets/src/track_bundle.rs:2340-2403 | outside the aliased slots every slot ends as it was when it had a row, otherwise with one new row for the theme that asks for it |
| SelectorRows.InsertedRow | crates/p5136-assets/src/track_bundle.rs:2361-2376 | in the merged catalog the row inserted for a theme has the value, the children and every attribute of its first source row but those set: the id, and for the alias `17`, `themeFengshen` and `fengshen` |
| SelectorRows.MergedElsewhere | crates/p5136-assets/src/track_bundle.rs:2314-2337 | the merge fails exactly without a `config` root and a tab order in it, and outside that order's rows the catalog is as it was |
| SelectorRows.SelectorHasExactly | crates/p5136-assets/src/track_bundle.rs:2561-2571 | the check behind the installation passes exactly when the first tab order has a row with the theme's id, `17` for the aliased one, in any case |
| SelectorRows.NativeExactly | crates/p5136-assets/src/track_bundle.rs:33-68 | the 34 native themes in any case, and the one aliased theme |
| AbilityMerge.AdditionsSound | crates/p5136-assets/src/bundle.rs:1305-1344 | every added node is a source node of a selected kart with supported items and a key that neither the target nor an earlier addition has |
| AbilityMerge.MergeComplete | crates/p5136-assets/src/bundle.rs:1305-1353 | every eligible source node, nested ones included, has its key in the merged tree |
| AbilityMerge.MergeAgain | crates/p5136-assets/src/bundle.rs:1246-1264 | merging the same source again adds nothing |
| AbilityMerge.KeyIgnoresOrder | crates/p5136-assets/src/bundle.rs:1355-1369 | the key is the same whichever sorted order the unstable sort leaves the attributes in, exactly when any two attributes of one exact name are spelled alike in both orders |
| AbilityMerge.KeyOfReordered | crates/p5136-assets/src/bundle.rs:1355-1369 | under that condition nodes that differ only in the order of their attributes and the case of their names have one key |
| AbilityMerge.SkippedCount | crates/p5136-assets/src/bundle.rs:1330-1331 | every selected node with an unsupported item is counted once |
| AbilityKeys.KeysTell | crates/p5136-assets/src/bundle.rs:1355-1369 | nodes without bars and equals signs have one key exactly when they agree, but for case, in name and sorted attributes; one that differs in a value has another key |
| AbilityKeys.BarsCanCollide | crates/p5136-assets/src/bundle.rs:1355-1369 | two different nodes with one key, by a bar in a value |
| AbilityKeys.ParseIdExactly | crates/p5136-assets/src/bundle.rs:1305-1329 | a kart id is read exactly from a 16-bit decimal number, zeros and a plus sign before it allowed |
| AbilityKeys.EligibleExactly | crates/p5136-assets/src/bundle.rs:1305-1331 | a node counts exactly when its kart is selected and each of five named references is absent or names a supported item |
| AbilityKeys.MergedExactly | crates/p5136-assets/src/bundle.rs:1241-1344 | a merged tree is the target with exactly the newcomers behind its children, each at its place: eligible nodes whose key neither the target nor an earlier eligible node has |
| AbilityMerge.Collector.CollectNodes | crates/p5136-assets/src/bundle.rs:1305-1344 | the recursion over the tree does what visiting its nodes in preorder does |
| AbilityMerge.Collector.CollectKeys | crates/p5136-assets/src/bundle.rs:1346-1353 | the recursion collects the keys of all nodes with a kart id |
| AbilityMerge.BuildOverlay | crates/p5136-assets/src/bundle.rs:1241-1265 | the merged tree, the number of additions and the number of skipped nodes |
| ItemFsm.ItemClientFsm.Accept | crates/p5136-client-oracle/src/item_client_fsm.rs:109-163 | one operation body: the specified state and transition, and no change at all when decoding fails |
| ItemFsm.ItemClientFsm.TakeDeferredOutbound | crates/p5136-client-oracle/src/item_client_fsm.rs:187-190 | hands out the whole queue and empties it |
| ItemFsm.LastTellingIsLast | crates/p5136-client-oracle/src/item_client_fsm.rs:120-146 | the last telling operation of a key is the last one with a known action, and none exists exactly when no operation of the key has one |
| ItemFsm.ObjectsAreReplayed | crates/p5136-client-oracle/src/item_client_fsm.rs:109-196 | after any run an object is present exactly when the last telling operation of its key was no removal, and has that operation's state; the counter is the number of operations since the reset |
| ItemFsm.QueueIsArmed | crates/p5136-client-oracle/src/item_client_fsm.rs:120-156 | after any run the queue holds, in order, one marker per deferring operation since it was last taken that no later telling operation superseded |
| ItemFsm.OnePendingMarkerPerKey | crates/p5136-client-oracle/src/item_client_fsm.rs:120-156 | when no deferring operation is labelled without action, a key has at most one pending marker, and it stems from the key's last telling operation |
| ItemFsm.NoActionNeverDefers | crates/p5136-client-oracle/src/item_client_fsm.rs:205-214 | no branch that the decoder labels as without action is one that defers an answer |
| ItemOutcomes.NoActionExactly | crates/p5136-client-oracle/src/item_operation.rs:521-1079 | which classes the decoder labels as without action, state by state |
| ItemFsm.OneMarkerPerKey | crates/p5136-client-oracle/src/item_client_fsm.rs:120-156 | in every run of operations labelled as the decoder labels them, a key has at most one pending marker, that of its last telling operation |
| ItemFsm.TwoMarkersWithoutLabels | crates/p5136-client-oracle/src/item_client_fsm.rs:205-214 | without the decoder's labels a run of two operations leaves two markers of one key |
| ItemFsm.Play | crates/p5136-client-oracle/src/item_client_fsm.rs:187-196 | a whole run on the machine; each drain returns what was armed since the one before |
| ItemOutcomes.OutcomeExactly | crates/p5136-client-oracle/src/item_client_fsm.rs:205-269 | which label every operation gets: unknown meaning, the armed classes of each state, local otherwise, and never the immediate one |
| ItemOutcomes.TableTells | crates/p5136-client-oracle/src/item_client_fsm.rs:109-163 | after any run an object stands in the table exactly when the last operation about it was no removal, with that operation's own state, meaning and details |
| ItemOutcomes.QueueTells | crates/p5136-client-oracle/src/item_client_fsm.rs:120-156 | after any run the queue is one marker per pending operation, in order, each with its operation's own class, object, state and meaning |
| SoundScan.NoOverlap | crates/p5136-assets/src/track_bundle.rs:1817-1829 | the key pattern cannot match inside a match of itself |
| SoundScan.PatternIsFilename | crates/p5136-assets/src/track_bundle.rs:1818-1821 | the sixteen pattern bytes are the UTF-16LE text `filename` |
| SoundScan.JumpSkipsNothing | crates/p5136-assets/src/track_bundle.rs:1856 | jumping behind a match misses no key that starts in between |
| SoundScan.AcceptedExactly | crates/p5136-assets/src/track_bundle.rs:1834-1855 | a value names a sound exactly when, without padding, it has no NUL, no colon and no leading separator; the key is it with backslashes turned |
| SoundScan.AcceptedParts | crates/p5136-assets/src/track_bundle.rs:1834-1855 | every accepted value is padding, a text without padding at its ends, and padding |
| SoundScan.KeyExactly | crates/p5136-assets/src/track_bundle.rs:1823-1856 | a key is found at an offset exactly when the bytes there are the image of a value of 1 to 256 units that names a sound, and is that sound |
| SoundScan.TrackSoundKeys | crates/p5136-assets/src/track_bundle.rs:1817-1859 | the jumping scan returns exactly the keys found by testing every byte offset |
| Packing.PartitionEntries | crates/p5136-assets/src/track_bundle.rs:2948-2966 | concatenating the chunks gives the entries, every chunk holds at most 40 MiB or is a single entry, and no order-preserving packing under that rule has fewer chunks |
| Packing.TwoTogether | crates/p5136-assets/src/bundle.rs:1762-1780 | two entries share an archive exactly when they have at most 40 MiB together |
| Packing.GreedyAhead | crates/p5136-assets/src/bundle.rs:1762-1780 | the greedy packing of any rest never needs more chunks than a packing of the whole |
| Packing.SlotCheckExact | crates/p5136-assets/src/track_bundle.rs:1259-1265 | the check against the supplied archive slots passes exactly when some packing fits into them |
| ArchiveNames.SequentialArchiveNames | crates/p5136-assets/src/bundle.rs:1782-1806 | the names, or the suffix, sequence or overflow error, exactly as specified |
| ArchiveNames.NamesExactly | crates/p5136-assets/src/bundle.rs:1782-1806 | from prefix, digits and either spelling of the suffix: the count of names, each with its number padded to the given width, or an overflow exactly when the last number exceeds 32 bits |
| ArchiveNames.RefusedExactly | crates/p5136-assets/src/bundle.rs:1782-1794 | which names are refused for their suffix and which for their sequence |
| ArchiveNames.NamesParseBack | crates/p5136-assets/src/bundle.rs:1782-1806 | the i-th name parses back to the same prefix and the first number plus i, within 32 bits |
| ArchiveNames.NamesDistinct | crates/p5136-assets/src/bundle.rs:1782-1806 | the names are pairwise distinct |
| ArchiveNames.FirstNameIsGiven | crates/p5136-assets/src/bundle.rs:1800-1803 | the first name is the given stem with its zero padding |
| XmlText.DecodedBytesComeBack | crates/p5136-assets/src/track_bundle.rs:2431-2476 | whatever decodes is written back byte for byte in the detected encoding, surrogate pairs and byte order marks included |
| XmlText.EncodedTextComesBack | crates/p5136-assets/src/track_bundle.rs:2431-2476 | text written in an encoding is detected and read back as itself, exactly unless it is unmarked UTF-8 that begins with a byte order mark |
| XmlText.TextBack | crates/p5136-assets/src/track_bundle.rs:2462-2476 | UTF-8 (section 3 of RFC 3629) reads back every string |
| XmlText.BytesBack | crates/p5136-assets/src/track_bundle.rs:2446-2459 | every accepted UTF-8 byte string is the encoding of its text, so overlong forms and surrogates are refused |
| XmlText.Utf8Exactly | crates/p5136-assets/src/track_bundle.rs:2462-2476 | one to four bytes by the character's range, with its value spread over them (section 3 of RFC 3629) |
| XmlText.DecodeExactly | crates/p5136-assets/src/track_bundle.rs:2431-2459 | which encoding the leading bytes tell, what each failure means, and that a text read is the one whose encoding the rest is |
| XmlText.EncodeExactly | crates/p5136-assets/src/track_bundle.rs:2462-2476 | written text is the literal mark of its encoding, if any, and the text in that encoding |
| Protocol.ProtocolFsm.Accept | crates/p5136-client-oracle/src/protocol_fsm.rs:154-166 | a valid event moves the state as specified; an invalid one is reported with the transport and scene that refused it and leaves the state as it was |
| Protocol.ProtocolFsm.ApplyTransport | crates/p5136-client-oracle/src/protocol_fsm.rs:199-258 | the guards and field updates of the transport events make exactly the moves whose runs keep the invariant |
| Protocol.ProtocolFsm.ApplyRoom | crates/p5136-client-oracle/src/protocol_fsm.rs:260-308 | the guards and field updates of the room events make exactly the moves whose runs keep the invariant |
| Protocol.ProtocolFsm.ApplyRace | crates/p5136-client-oracle/src/protocol_fsm.rs:310-387 | the guards and field updates of the race events make exactly the moves whose runs keep the invariant |
| Protocol.RunsKeepInvariant | crates/p5136-client-oracle/src/protocol_fsm.rs:168-388 | over every run: migration is pending exactly in its scene, menu, room and race scenes are authenticated, races have a complete room snapshot, and an accepted time sync was requested |
| Protocol.ReachableExactly | crates/p5136-client-oracle/src/protocol_fsm.rs:168-388 | the invariant is exact: every state that satisfies it is reached by some run |
| Protocol.RaceInOrder | crates/p5136-client-oracle/src/protocol_fsm.rs:276-363 | in every run the accepted milestones of the race in progress are the first ones of the race order, as many as the scene says |
| Protocol.RaceStartsAndCompletes | crates/p5136-client-oracle/src/protocol_fsm.rs:272-363 | a race completes only after all its milestones; starting and slot data are accepted only outside a race |
| ProtocolHistory.HistoryTells | crates/p5136-client-oracle/src/protocol_fsm.rs:154-388 | on every run the whole state is told by the accepted events: transport, scene, migration, session, room snapshot, slot, time-sync, record and finish fields, each by the last event that decides it |
| ProtocolHistory.AllowedExactly | crates/p5136-client-oracle/src/protocol_fsm.rs:199-388 | on every run each event is accepted exactly when the events accepted before it allow it |
| ProtocolHistory.ConnectionInOrder | crates/p5136-client-oracle/src/protocol_fsm.rs:199-258 | on every run a connection is opened, then gets its first message, and only then is entered, by a log-in, or by a move-in while a switch is pending; as far as the transport says |
| ProtocolHistory.MenuAfterSwitch | crates/p5136-client-oracle/src/protocol_fsm.rs:238-258 | a client is in the menu only by a rider snapshot, by leaving a room, or by the move-in that ends a switch |

## Left out

- the BML parser and writer of the core crate, and with them the decoding and encoding around the migrations, the trailing-byte check and the limits of those files: the migrations are stated on decoded trees.
- mutable borrows into a tree: a borrowed node is a position in a tree value, and a write through it replaces the subtree there; owned trees are values, so update in place inside a node is not captured.
- the ordered edit rows of the tachometer migration are a table walked by a loop, where the source spells each edit out; `kart_` XML sidecars and the line comparison of their migrations are not modelled.
- TachometerRun.IsSafeTachometerMigration: models the tachometer branch of the test; the branch that compares kart XML line by line needs text normalisation that is not part of this model.
- Installer.Installation.InstallAssets: takes the replacement test as an arbitrary function of path, existing and staged bytes, because that test works on encoded files.
- PinBmlRun.WireReader.Bml: allocation failures are not modelled.
- PinBmlRun.WireReader.String: allocation failures are not modelled.
- PinBmlRun.WireReader.AttributeList: allocation failures are not modelled.
- PinBmlRun.WireWriter.Bml: allocation failures are not modelled.
- PinBmlRun.WireWriter.String: allocation failures are not modelled.
- where equal attribute names make the key of an ability node depend on the unstable sort, the model keeps the given order.
- the two data archives that an asset installation updates are not counted in its tally.
- file-system effects below one operation: a copy or a write happens as a whole or not at all, places are compared by their components with case, and links, permissions and canonicalisation are absent.
- drive prefixes in bundle paths are treated as ordinary characters unless the code itself looks for a colon.
- the pre-install checks of size, hash and report, and the post-install checks other than the selector's: they change no file of the tree.
- Closure.PlanGroup: models paths, bytes, findings and status; the texts of reports, the reference list and the manifest file are not modelled, and content analysis and extraction are arbitrary functions of the record.
- AssetIndex.ScanLegacyMounts: warnings about repeated or missing archives, keys, hashes and sizes are not recorded.
- the typed reads of a packet row are a table of field kinds walked by a loop; the source writes one read per field.
- the item operation decoder is an arbitrary function from bytes to an operation or an error, of which `ItemFsm.LabelsAsRead` assumes only which branches it labels as without action.
- archives, hashes and XML parsing come from other crates: archives are sequences of paths and bytes.
- the other packets of the client oracle, the ordinary-track rules, material symbols, catalog rows, content-registry edits and progress reports: finite tables, presentation, or repeats of what is shown here.
- the user interface, the command line and the network client.
