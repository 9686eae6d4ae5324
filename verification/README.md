# VisionData Gate build tools: a verified model

This project models the build, release and audit tools of VisionData Gate in Dafny and proves
what they promise. The tools decide what may be shipped: they unfold dependency trees, publish
files that others rely on, merge dependency graphs, export and validate public snapshots, parse
git's output, compare compiled code with its source, and hold quality ratchets. Eight groups of
modules follow them:

- **Dependency walk** (`Dependency*.dfy`): a directory tree with internal links is walked with
  an explicit stack and copied without links. A reference exploration says what a walk means;
  the loop is proved to compute it, and the exploration to accept exactly the acyclic trees.
  `DependencyRoutes` says what is accepted and listed in terms of the real directories alone.
  The order in which directories are listed does not matter.
- **Publishing** (`Publish*.dfy`): the defense kit's transaction as a machine over one shared
  disk. Any number of builders interleave, with a fault or an interrupt possible at every step,
  the cleanup included. `PublishBuild` is the code itself, proved to take the machine's steps in
  whatever world the others make for it, and `PublishWorlds` relates those worlds to the runs.
- **SBOM** (`NpmResolve`, `NpmLock`, `PythonLock`, `CargoLock`, `Reachability`, `SbomGraphs`,
  `SupplyChain`, `SbomMeaning`): three lock formats, one graph with every package and every
  dependency, told once more in terms of the locks alone.
- **Git streams** (`Words`, `CatFile`, `HistoryScan`, `RawLog`, `WorktreeStatus`): framing and
  parsing, each against what git writes.
- **Compiled code** (`Json`, `CodeValue`): the canonical encoding and when two codes agree.
- **Public snapshots** (`Public*.dfy`): the selection rule, one exporter, three validators of the
  same manifest, and what the kit and the upload read before they validate.
- **Bundles and frozen sources** (`TechnicalBundle`, `BundleMeaning`; `SourceWalk`, `TreeWrite`,
  `SourceSelection`, `SelectionChanges`, `FrozenSources`): what is packed and staged, and that
  verifying it later says what it should.
- **Ratchets** (`CoverageFloors`, `BanditBaseline`).

`Text`, `Sorting` and `Sums` hold the shared vocabulary. Hashes, JSON codecs, name rules and content
rules are parameters; where a result needs a hash without collisions or a codec that reads what
it writes, it says so in its `requires`.

Some promises do not hold as they stand. Each is stated with the exact condition under which it
does, and where useful with an input on which it fails:

- A receipt is visible only with its ZIP, except after an interrupt between a link and its flag,
  or a failed unlink, of which `PublishRuns.ReceiptBindsZip` gives the exact condition and
  `PublishWitness.InterruptOrphansReceipt` a run.
- A build that returns normally has published its pair, unless it was called while an exception
  was being handled: the cleanup asks whether any exception is, and takes the caller's for its
  own (`PublishRuns.SuccessIsLasting`, `PublishSuccess.HandlingRunUndoesItself`).
- The npm name recovered from a path is the dependency asked for only when the name does not
  itself pass through `node_modules` (`NpmResolve.NameIsDependency`, `NpmResolve.OneMisreadName`),
  and a lookup from within a workspace never reaches the root level (`NpmResolve.WorkspaceMissesRoot`,
  `NpmLock.OneWorkspaceMiss`).
- Package references are distinct exactly when the NUL-joined fields are: a lock with a NUL in a
  package path can give two packages one reference (`NpmLock.OneReferenceTwice`), and then, and
  only then, the graph is not closed (`SupplyChain.SbomClosed`).
- An exported snapshot passes its own validation only when no selected path holds a backslash:
  the selection and the validator normalise the paths they are given and the copying does not
  (`PublicSelection.BackslashRefused`, `PublicRequired.OneRefusedExport`). For the same reason
  the validator can miss a file (`PublicChecker.ShadowedFileIsUnseen`).
- The kit and the upload refuse some exports that the exporter and its validator accept: another
  source, empty files, sensitive or unsafe paths, paths that fold alike, what the kit's own scan
  finds, and sizes and counts beyond limits that each of the two has of its own
  (`PublicIntake.KitTakesExport`, `PublicIntake.ReadableIffWithinLimits`,
  `PublicUpload.UploadTakesExport`, `PublicUpload.ReadableIffWithinLimits`).
- The placeholder path also marks objects recorded under a path spelled like it
  (`RawLog.PlaceholderMarksUnrecorded`, `RawLog.PlaceholderHidesRecord`).
- A build step starts from the frozen sources only while the manifest on disk keeps its rows:
  the loop reads it anew each time (`FrozenSources.StepsStartFromFrozenSources`,
  `FrozenSources.RewrittenManifestPasses`).
- Coverage never falls file by file, but the overall fraction may
  (`CoverageFloors.AggregateMayFall`); which numbers of lines and branches rule that out is
  known exactly (`CoverageFloors.AggregateHoldsIff`).
- Bundles verify only up to 64 MiB, because the limit per file is applied to the archive as well.

## Model

| member | source | states |
|---|---|---|
| `DependencyVerdict.ExploredExactly` | tools/build_learning_installer.py:910-957 | the walk that keeps one ancestor set per branch accepts a tree if and only if no path through directories and internal links ever returns to a directory above it, and nothing on a path is refused; plain children are never tested against the ancestors |
| `DependencyVerdict.AcceptedIsAcyclic` | tools/build_learning_installer.py:910-957 | testing links alone is enough: an accepted tree has no cycle of any shape |
| `DependencyVerdict.AcceptedIsAcceptable` | tools/build_learning_installer.py:910-957 | an accepted tree has no private file, unsafe name, special file, broken or outside link on any path |
| `DependencyVerdict.RefusedForAReason` | tools/build_learning_installer.py:910-957 | and whatever is refused has a cycle or something unacceptable, for every frame the walk can be in |
| `DependencyExplore.AncestorsGrow` | tools/build_learning_installer.py:910-957 | following a link to a new directory strictly shrinks the directories not yet on the branch, the half of the termination measure that plain subdirectories do not provide |
| `DependencyMeaning.ExploreLists` | tools/build_learning_installer.py:910-957 | an accepted walk lists each file and each link of the unfolding exactly once |
| `DependencyWalk.DependencyInventory` | tools/build_learning_installer.py:910-957 | the stack-driven loop terminates on every finite tree, succeeds exactly when the tree is acyclic, acceptable and below the file limit, and its rows are then the unfolding's files, one per path, in order, with their sizes summed and their sources recorded |
| `DependencySize.TotalIsUnfoldedBytes` | tools/build_learning_installer.py:948-957 | the total of an inventory is the sum of the lengths of the files that the trails of the unfolding lead to, each trail once |
| `DependencyWalk.VisitLink` | tools/build_learning_installer.py:910-957 | a link is refused exactly when it leaves the root, is broken, does not point at a directory or points at an ancestor; otherwise it gets a row, and its target is pushed as an ancestor of what it shows |
| `DependencyWalk.VisitDir` | tools/build_learning_installer.py:910-957 | a plain subdirectory is never refused and is pushed with itself added to the branch's ancestors |
| `DependencyWalk.VisitFile` | tools/build_learning_installer.py:910-957 | a file is refused exactly when it is private or one too many; otherwise it gets one row and one place to read it from |
| `DependencyCopy.InventoryUnique` | tools/build_learning_installer.py:910-957 | a tree has one inventory |
| `DependencyCopy.InventoryIgnoresListing` | tools/build_learning_installer.py:910-957 | two listings of one tree, with the entries of every directory in any order, are accepted or refused alike and have the same inventory |
| `DependencyTree.SafeBySegments` | tools/build_learning_installer.py:248-259 | a relative name is safe exactly when all its segments are: not empty or dots, no dot or blank at the end, no reserved or control character |
| `Text.StrLeIsLexicographic` | tools/build_learning_installer.py:948 | texts are ordered by the first character in which they differ, a prefix before what extends it |
| `DependencyRoutes.AcceptedByRoutes` | tools/build_learning_installer.py:910-957 | told by real directories and names alone: a tree is accepted exactly when no route through directories and links comes back to a place it has been at, every entry that a route shows is a public regular file, a directory or a link to one inside the root under safe names, and at most 100,000 files are shown |
| `DependencyRoutes.InventoryByRoutes` | tools/build_learning_installer.py:910-957 | an inventory has a row with path, length and digest for each file that some route shows, and one for each link, and no others |
| `DependencyRoutes.UnfoldingByRoutes` | tools/build_learning_installer.py:910-957 | and the unfolding that is copied is what the routes show |
| `DependencyCopy.FilesDoNotNest` | tools/build_learning_installer.py:960-984 | no file of an unfolding lies above another, so the copy never finds its destination in the way |
| `DependencyCopy.TargetTree.CopyVerified` | tools/build_learning_installer.py:507-519 | a copy goes to a free place, and both the copy and the source, hashed once more, are compared with the row |
| `DependencyCopy.CopyDependencyTree` | tools/build_learning_installer.py:960-984 | the copy succeeds exactly for acceptable trees within both limits and an absent target, and then holds a link-free tree equal to the unfolding; a refusal leaves the target as it was |
| `PublishSteps.ActKeeps` | tools/build_semifinal_defense_kit.py:741-755 | each step of the transaction, undisturbed, failed or interrupted, keeps what a builder knows about its own files and touches no name or inode that is not its own |
| `PublishSteps.MishapNeedsCause` | tools/build_semifinal_defense_kit.py:741-984 | a step strands something exactly when it is an interrupt between a link and its flag or during the cleanup, or a removal that fails |
| `PublishRuns.RunKeepsInvariant` | tools/build_semifinal_defense_kit.py:898-984 | the invariant of all builders holds in every state of every interleaving |
| `PublishRuns.OthersPublicationsUntouched` | tools/build_semifinal_defense_kit.py:741-755 | no step overwrites, deletes or changes an output that another builder has published |
| `PublishRuns.PreexistingFilesUntouched` | tools/build_semifinal_defense_kit.py:741-755 | files present before the builders started are never replaced, removed or changed |
| `PublishRuns.OneOwner` | tools/build_semifinal_defense_kit.py:741-755 | a destination shows the file of at most one builder |
| `PublishRuns.SuccessIsLasting` | tools/build_semifinal_defense_kit.py:898-984 | once a builder has returned normally, its pair stays published, byte for byte, whatever the others do, unless it was called while an exception was being handled: then its own cleanup has removed the pair, but for what could not be unlinked |
| `PublishRuns.ReceiptBindsZip` | tools/build_semifinal_defense_kit.py:912-984 | in every reachable state a visible receipt carries its ZIP's digest, and the ZIP is visible too unless a finished run that undid its work stranded the receipt and not the ZIP: the exact condition under which a receipt is orphaned |
| `PublishRuns.FailureLeaves` | tools/build_semifinal_defense_kit.py:966-984 | a failed run, interrupted during its cleanup or not, leaves an output behind exactly when its removal was prevented, and a temporary file only when its unlink failed or was never reached |
| `PublishRuns.FaultsRollBack` | tools/build_semifinal_defense_kit.py:912-984 | with faults at any steps but cleanup that works, a visible receipt always has its ZIP, and a run that undoes its work ends with nothing of its own on disk |
| `PublishSuccess.UndisturbedRunSucceeds` | tools/build_semifinal_defense_kit.py:898-965 | on any disk and with any builders in between, a builder whose two destinations are absent and wanted by no other, and whose own operations all go through, publishes both files once it has had its eighteen operations |
| `PublishWitness.InterruptOrphansReceipt` | tools/build_semifinal_defense_kit.py:954-984 | an interrupt right after the receipt is linked, before its flag is set, ends with a receipt whose ZIP was rolled back |
| `PublishSuccess.HandlingRunUndoesItself` | tools/build_semifinal_defense_kit.py:966-984 | called while an exception is being handled, such an undisturbed build returns its receipt and leaves neither the ZIP nor the receipt on disk |
| `PublishSuccess.TakenDestinationFails` | tools/build_semifinal_defense_kit.py:949-955 | a builder one of whose destinations existed from the start never shows either of its files, not even for a moment, and never succeeds |
| `PublishSuccess.FaultFails` | tools/build_semifinal_defense_kit.py:898-984 | a run one of whose working operations fails or is interrupted never returns normally, whatever follows |
| `PublishBuild.SharedDisk.PublishNoReplace` | tools/build_semifinal_defense_kit.py:741-755 | the link, unlink and undo of one output are the machine's steps, whatever other builders do in between |
| `PublishBuild.SharedDisk.Try` | tools/build_semifinal_defense_kit.py:902-965 | the flags that reach the cleanup say exactly what this run has published |
| `PublishBuild.SharedDisk.Finally` | tools/build_semifinal_defense_kit.py:966-984 | the cleanup removes what the machine removes, for this run's exception as for one the caller is handling, and an interrupt ends it |
| `PublishBuild.SharedDisk.Build` | tools/build_semifinal_defense_kit.py:898-984 | the code with its try and finally ends where the machine's steps end, and returns normally exactly when the machine has succeeded |
| `PublishWorlds.RunIsEachBuildersSteps` | tools/build_semifinal_defense_kit.py:898-984 | in every run of any builders each one is where its own steps have led it, in the world that the others make for it |
| `PublishWorlds.BuildFollowsRun` | tools/build_semifinal_defense_kit.py:898-984 | so a build that shares its disk with others is, after each of its steps, where the interleaved run has it, and so is the disk |
| `PublishWorlds.UndisturbedStepsAreARun` | tools/build_semifinal_defense_kit.py:898-984 | without interference the code's steps are a run of the system with this builder alone |
| `NpmResolve.ResolveNpmDependency` | tools/generate_supply_chain_artifacts.py:489-507 | the string loop terminates on every path and computes the outward search |
| `NpmResolve.OutwardUndoes` | tools/generate_supply_chain_artifacts.py:489-507 | cutting at the last marker undoes appending one level, for names that hide no marker |
| `NpmResolve.ResolveIsNearest` | tools/generate_supply_chain_artifacts.py:489-507 | on every path written as enclosing levels the string surgery finds what the search over levels finds |
| `NpmResolve.NearestIsDeepest` | tools/generate_supply_chain_artifacts.py:489-507 | the candidate found is present and no deeper level has one; nothing is found only if no level has one |
| `NpmResolve.EveryPathHasLevels` | tools/generate_supply_chain_artifacts.py:489-507 | every path that does not begin with the marker can be written as levels, so the previous results cover it |
| `NpmResolve.WorkspaceMissesRoot` | tools/generate_supply_chain_artifacts.py:489-507 | from a workspace directory the root level is never consulted: adding the root's package does not help |
| `NpmResolve.NameIsDependency` | tools/generate_supply_chain_artifacts.py:470-477 | the name read back from a found path is the requested dependency exactly for non-empty names that contain no node_modules/ and do not end in /node_modules |
| `NpmResolve.NameIsRead` | tools/generate_supply_chain_artifacts.py:470-477 | a path has a name exactly when it ends, behind some node_modules/, in a name that does not pass through node_modules itself |
| `NpmLock.ReadableMeans` | tools/generate_supply_chain_artifacts.py:520-555 | a lock is read exactly when it has version 3, a root with name and version, and below it only paths that have a name, with a version and a licence, if any, that is text |
| `NpmResolve.OneMisreadName` | tools/generate_supply_chain_artifacts.py:470-477 | the dependency a/node_modules/b is read back as b |
| `NpmLock.OneWorkspaceMiss` | tools/generate_supply_chain_artifacts.py:470-596 | such a miss happens on a lock that the tool reads: a package installed in a workspace depends on a package of the root, and the edge is left out |
| `NpmLock.DependsOn` | tools/generate_supply_chain_artifacts.py:567-596 | a package's references are those of the lock entries its dependencies resolve to, unresolved ones left out |
| `NpmLock.NpmLockGraph` | tools/generate_supply_chain_artifacts.py:510-596 | a lock of version 3 with a root, readable names and versions, and licences that are text becomes one component and one record per path, and any other lock is refused |
| `NpmLock.RootIdentityIsFree` | tools/generate_supply_chain_artifacts.py:510-566 | no accepted path has the stand-in identity of the root |
| `NpmLock.NpmRefsDistinct` | tools/generate_supply_chain_artifacts.py:407-468 | two lock paths have different references exactly when their joined fields differ, hash collisions apart |
| `NpmLock.NulFreeLocksApart` | tools/generate_supply_chain_artifacts.py:407-468 | which they always do when no field holds a NUL |
| `NpmLock.OneReferenceTwice` | tools/generate_supply_chain_artifacts.py:407-468 | but a lock with a NUL in a package path can give two paths one reference, whatever the hash |
| `NpmLock.NpmGraphClosed` | tools/generate_supply_chain_artifacts.py:510-596 | every reference of the npm graph resolves to one component and one record exactly when no two paths share their joined fields |
| `SbomMeaning.NpmRecord` | tools/generate_supply_chain_artifacts.py:567-596 | in the generated graph the record of a lock path holds exactly the references of the candidates that the dependencies of its entry, of both kinds, resolve to |
| `SbomMeaning.NeedsByLevels` | tools/generate_supply_chain_artifacts.py:489-507 | such a candidate is the one that the search over the enclosing levels finds |
| `SbomMeaning.NpmListed` | tools/generate_supply_chain_artifacts.py:510-566 | and its component carries the name, version and reference of the entry |
| `SbomMeaning.PythonRecord` | tools/generate_supply_chain_artifacts.py:867-934 | the record of a Python package holds exactly the references of its plain dependencies and, for the product alone, of its optional ones; the product also refers to the two other roots |
| `SbomMeaning.PythonListed` | tools/generate_supply_chain_artifacts.py:877-923 | the component of a Python package carries its name, version and label |
| `SbomMeaning.RequiredIsReached` | tools/generate_supply_chain_artifacts.py:856-876 | and is labelled required exactly when a chain of dependencies leads to it from a plain dependency of the product |
| `SbomMeaning.CargoRecord` | tools/generate_supply_chain_artifacts.py:664-747 | the record of a crate holds exactly the references of the dependencies of its last node |
| `SbomMeaning.ResolvesMeans` | tools/generate_supply_chain_artifacts.py:725-735 | a snapshot resolves exactly when the last entry of every crate depends only on listed crates |
| `SbomMeaning.ReadableMeans` | tools/generate_supply_chain_artifacts.py:807-932 | the generator succeeds on exactly the locks of which each, if present, can be read, with a snapshot that belongs to the Cargo lock and resolves |
| `SbomMeaning.CrateListed` | tools/generate_supply_chain_artifacts.py:664-747 | and its component the crate's name, version and reference, the workspace crate as a root |
| `SbomMeaning.NothingElseListed` | tools/generate_supply_chain_artifacts.py:789-943 | every component of the generated graph is the product or comes from one of the three locks |
| `Reachability.RequiredReachable` | tools/generate_supply_chain_artifacts.py:867-876 | the worklist ends, cycles included, with exactly the packages reachable from the required dependencies |
| `Reachability.ReachableIsLeast` | tools/generate_supply_chain_artifacts.py:867-876 | which is the least set that holds them and is closed under the graph |
| `PythonLock.FindRoot` | tools/generate_supply_chain_artifacts.py:820-828 | the product root is the one editable package and anything else is refused |
| `PythonLock.IndexByName` | tools/generate_supply_chain_artifacts.py:807-818 | indexing by normalised name succeeds exactly when the normalised names are distinct |
| `PythonLock.PythonLockGraph` | tools/generate_supply_chain_artifacts.py:807-923 | succeeds exactly for a single root, distinct names and no missing dependency, and then labels and links every package |
| `PythonLock.PyReadableMeans` | tools/generate_supply_chain_artifacts.py:807-853 | a Python lock is read exactly when normalised names differ, one package is the product, and whatever a package asks for is in the lock |
| `PythonLock.PythonGraphClosed` | tools/generate_supply_chain_artifacts.py:867-923 | the Python graph is closed, and a component is labelled required exactly when it is the root or reachable from it |
| `CargoLock.IdentifyPackages` | tools/generate_cargo_license_snapshot.py:51-83 | identities are accepted exactly when complete and distinct |
| `CargoLock.IdentifiedMeans` | tools/generate_cargo_license_snapshot.py:51-83 | there must be packages, each with name, version and id, no two with the same name, version and source, where no source counts as the workspace |
| `CargoLock.NodesKnownMeans` | tools/generate_cargo_license_snapshot.py:88-106 | and the resolve graph may name only ids of packages |
| `CargoLock.CargoSnapshot` | tools/generate_cargo_license_snapshot.py:47-117 | patching dependency lists in place gives each package the identities of its last node's dependencies, under a header with the lock's digest and the number of packages; it fails exactly on an unknown package or a bad identity |
| `CargoLock.ProjectedIdentity` | tools/generate_cargo_license_snapshot.py:74-83 | an entry carries its package's identity, and no dependencies if the resolve graph has no node for it |
| `CargoLock.ProjectedDependencies` | tools/generate_cargo_license_snapshot.py:84-108 | otherwise its dependencies are the packages that the ids of its last node stand for |
| `CargoLock.CargoLockGraph` | tools/generate_supply_chain_artifacts.py:603-747 | a snapshot whose header is not the one for this lock, or whose packages are not locked, is refused, one with an unresolved dependency is reported as such, any other becomes the graph over its identities |
| `CargoLock.AcceptableMeans` | tools/generate_supply_chain_artifacts.py:609-673 | a snapshot belongs to a lock exactly when schema, target, flags, digest and count are right, no locked crate repeats, all listed crates are locked and the workspace crate is listed |
| `CargoLock.GeneratedSnapshotResolves` | tools/generate_cargo_license_snapshot.py:84-108 | a generated snapshot never has an unresolved dependency |
| `CargoLock.GeneratedSnapshotIsBound` | tools/generate_supply_chain_artifacts.py:628-662 | a generated snapshot is accepted with the lock it was generated from and with no other, hash collisions apart |
| `CargoLock.CargoGraphClosed` | tools/generate_supply_chain_artifacts.py:664-747 | every reference of the Cargo graph resolves to one component and one record exactly when no two crates share their joined fields |
| `CargoLock.CargoRefsDistinct` | tools/generate_supply_chain_artifacts.py:407-468 | two crates have different references exactly when their joined fields differ, hash collisions apart |
| `CargoLock.NulFreeCratesApart` | tools/generate_supply_chain_artifacts.py:407-468 | which they always do when no field holds a NUL |
| `SbomGraphs.Translate` | tools/generate_supply_chain_artifacts.py:567-596 | a record per key whose references are its neighbours' references |
| `SbomGraphs.TranslationClosed` | tools/generate_supply_chain_artifacts.py:567-596 | with edges that stay among the keys, such a graph is closed exactly when the references are distinct |
| `SbomGraphs.WrapTranslates` | tools/generate_supply_chain_artifacts.py:924-933 | a graph over the keys of one lock is one over packages of all locks |
| `SbomGraphs.ExtendTranslates` | tools/generate_supply_chain_artifacts.py:934-943 | adding references to one record adds edges to its key and to no other |
| `SbomGraphs.FieldTextInjective` | tools/generate_supply_chain_artifacts.py:407-468 | fields without separators can be read back from the text that is hashed |
| `SupplyChain.GenerateSbom` | tools/generate_supply_chain_artifacts.py:789-943 | succeeds exactly when all three locks are readable; the merged graph then has, for each package of each lock and for nothing else, its component and a record of exactly its dependencies, the product's extended by the other two roots |
| `SupplyChain.SbomClosed` | tools/generate_supply_chain_artifacts.py:789-943 | for readable locks the references of that graph are those of the packages of the three locks, and each resolves to one component and one record exactly when the joined fields are apart |
| `SupplyChain.SbomRequired` | tools/generate_supply_chain_artifacts.py:867-923 | its Python components are labelled required exactly when they are the product or reachable from it |
| `CatFile.Stream.Read` | tools/check_public_repository.py:904-926 | a buffered read returns all the bytes asked for unless the stream ends |
| `CatFile.Stream.ReadSome` | tools/check_public_repository.py:904-926 | a drain read may come back short but only comes back empty at the end |
| `CatFile.Stream.ReadLine` | tools/check_public_repository.py:1061 | a header is everything up to the first newline |
| `CatFile.ReadPayload` | tools/check_public_repository.py:904-926 | both branches, the direct read and the drain by arbitrary short reads, accept exactly a payload of the announced size followed by a newline and stop right after it |
| `CatFile.ReadAnswer` | tools/check_public_repository.py:1061-1069 | one loop pass: header, size, payload |
| `CatFile.HeaderLineIsRead` | tools/check_public_repository.py:1061-1068 | reading a header that git wrote gives back its kind and size |
| `Words.NumberMeans` | tools/check_public_repository.py:1066-1068 | a text is a number exactly when it is an optional sign and digits with single underscores between them |
| `Words.NumberOfDecimal` | tools/check_public_repository.py:1066-1068 | what is written in decimal is read back |
| `Words.SignDecides` | tools/check_public_repository.py:1066-1068 | a sign before the digits decides the sign |
| `Words.UnderscoreDropped` | tools/check_public_repository.py:1066-1068 | and underscores make no difference |
| `CatFile.PassTakesOneAnswer` | tools/check_public_repository.py:1061-1069 | a pass takes exactly one record off the stream, whatever its payload and whatever follows |
| `CatFile.PassesKeepStep` | tools/check_public_repository.py:1058-1069 | on any concatenation of records pass i ends exactly where record i ends, payloads that look like headers included |
| `CatFile.CutAnswerIsRefused` | tools/check_public_repository.py:904-926 | a record cut anywhere is refused |
| `CatFile.TruncatedStreamIsRefused` | tools/check_public_repository.py:1058-1069 | and so is every proper prefix of the whole stream |
| `HistoryScan.ScanHistoryBlobs` | tools/check_public_repository.py:1040-1103 | the scan reports, for each requested object in order, what its answer deserves, and fails exactly when an answer is malformed or git ends with an error |
| `HistoryScan.FindingsAreExplained` | tools/check_public_repository.py:1062-1103 | and conversely: what the scan returns are exactly the findings that some requested blob and one of its paths give cause for, so a clean history is not reported |
| `HistoryScan.EveryPathIsExaminedOrReported` | tools/check_public_repository.py:1040-1103 | whatever the scan returns on a stream of the requested objects' records has, for every path of every blob, the findings on its contents, or that it is too large; a pathless blob is reported as such |
| `RawLog.ReadChanges` | tools/check_public_repository.py:968-1022 | the index-driven parser reads what the grammar reads, and collects the recorded paths and the submodule entries |
| `RawLog.RecordIsRead` | tools/check_public_repository.py:968-1004 | for any fields, one record at a time: an empty field is skipped, a record starts with a colon, takes the next field as its path, has five words and identifiers in ASCII, and anything else is refused |
| `RawLog.SeparatorsAre` | tools/check_public_repository.py:981 | words are separated by ASCII white space |
| `RawLog.PairsAre` | tools/check_public_repository.py:993-1019 | an object is recorded under a path exactly when some record names it on a side that is there and is no submodule |
| `RawLog.GitlinksAre` | tools/check_public_repository.py:1005-1018 | and the submodules are the sides of mode 160000 |
| `RawLog.ReadReachable` | tools/check_public_repository.py:929-947 | identifiers are accepted exactly when each is 40 to 64 hexadecimal digits, and added without losing paths |
| `RawLog.ReachableMeans` | tools/check_public_repository.py:929-947 | each non-empty field must be 40 to 64 lower-case hexadecimal digits, and all of them are taken |
| `RawLog.HistoryInventory` | tools/check_public_repository.py:950-1033 | the map's keys are exactly the recorded non-null, non-submodule objects and the reachable identifiers; recorded objects have exactly their paths, the others the placeholder |
| `RawLog.PlaceholderMarksUnrecorded` | tools/check_public_repository.py:1021-1026 | every entry has a path, and the placeholder appears exactly for objects without a record or recorded under a path spelled like it |
| `RawLog.PlaceholderHidesRecord` | tools/check_public_repository.py:1021-1026 | a log that records one object under the placeholder's spelling gives the inventory of a log without any record of it |
| `RawLog.ReadingInvertsWriting` | tools/check_public_repository.py:968-998 | reading inverts writing for all record sequences, backslashes in paths turned to slashes |
| `RawLog.RenameRecordIsRefused` | tools/check_public_repository.py:976-990 | a rename record, whose second path stands where metadata is expected, is refused unless that path is empty or starts with a colon |
| `WorktreeStatus.StatusEntries` | tools/audit_worktree_namespaces.py:208-227 | the index-driven parser computes the entries that the two-field grammar gives |
| `WorktreeStatus.FieldIsRead` | tools/audit_worktree_namespaces.py:213-226 | one field at a time, for any fields: a status with R or C takes the next field as its source and is refused without one, an empty field is skipped, any other is an entry by itself |
| `WorktreeStatus.ReadingInvertsWriting` | tools/audit_worktree_namespaces.py:208-227 | reading inverts writing for all entries, renames and copies included, up to backslashes |
| `WorktreeStatus.UnchangedIffNoBackslash` | tools/audit_worktree_namespaces.py:219-226 | the entries come back unchanged exactly when no path holds a backslash |
| `WorktreeStatus.BuildInventory` | tools/audit_worktree_namespaces.py:370-407 | entries are grouped by the namespace of their destination, and the frozen history counts as modified exactly when an entry's destination lies in it |
| `WorktreeStatus.GroupsPartition` | tools/audit_worktree_namespaces.py:373-378 | grouping loses and duplicates nothing, and orders each group by path |
| `Json.RenderInjective` | tools/build_learning_installer.py:234-245 | canonical JSON text determines the value |
| `Json.RenderDecodes` | tools/build_learning_installer.py:234-245 | and is told apart from any other value's text whatever follows it |
| `Json.RenderJoins` | tools/build_learning_installer.py:234-241 | arrays and objects are their parts, joined by commas without blanks |
| `Json.EscapesAre` | tools/build_learning_installer.py:234-241 | and in strings only quotes, backslashes and control characters are escaped |
| `CodeValue.ValueIffSupported` | tools/build_learning_installer.py:783-821 | the recursive encoding fails exactly when an unsupported constant occurs at some level |
| `CodeValue.SupportedMeans` | tools/build_learning_installer.py:783-821 | a constant is supported exactly when it holds nothing unknown and only code with all its seventeen fields |
| `CodeValue.SameWhatever` | tools/build_learning_installer.py:783-821 | file names, the kind of sequence and the order of a frozen set are not looked at |
| `CodeValue.SameIsEqual` | tools/build_learning_installer.py:783-821 | and on constants without any of these, the same code is equal code |
| `CodeValue.SortedAlike` | tools/build_learning_installer.py:808-811 | the encoding of a frozen set depends only on its members, not on their order |
| `CodeValue.EncodesSame` | tools/build_learning_installer.py:783-821 | two constants have the same encoding if and only if they are the same code: field by field and member by member, ignoring file names, tuple against list, and the iteration order of frozen sets, at every nesting level |
| `CodeValue.AcceptedIffSameCode` | tools/build_learning_installer.py:824-854 | compiled code is accepted exactly when it is the code its staged source compiles to |
| `CodeValue.FilenameBySegments` | tools/build_learning_installer.py:836-846 | a recorded file name is accepted if it is absolute and below the source root, or relative with safe segments only, however its slashes are written |
| `PublicManifest.PreimageDecodes` | tools/export_public_repository.py:419-424 | the path-NUL-digest-NUL text can be read back in only one way |
| `PublicManifest.PreimageSnoc` | tools/export_public_repository.py:419-424 | each entry adds its path, NUL, its digest, NUL |
| `PublicManifest.DigestDeterminesFiles` | tools/check_public_repository.py:330-354 | the snapshot digest alone fixes which files there are and every byte of them |
| `PublicChecker.EntryViolations` | tools/check_public_repository.py:306-333 | nothing is found exactly on an entry with the right shape, source copy, size and digest, whose row then feeds the running digest |
| `PublicChecker.EntriesViolations` | tools/check_public_repository.py:275-333 | the loop over the entries finds nothing wrong exactly on distinct, faithful entries, and feeds the digest their rows |
| `PublicChecker.BoundaryViolations` | tools/check_public_repository.py:241-263 | the declared boundary has no violation exactly when it is the public one and names its source by object identifiers |
| `PublicChecker.MirrorViolations` | tools/check_public_repository.py:195-354 | there is no violation if and only if the boundary is in order and the snapshot mirrors its manifest |
| `PublicMeaning.SealedMeans` | tools/check_public_repository.py:225-262 | the boundary is in order exactly when schema and flags are the public ones and commit and tree are 40 or 64 lower-case hexadecimal digits |
| `PublicMeaning.CleanMeans` | tools/check_public_repository.py:195-354 | condition by condition: the manifest is tracked and readable, tells size and digest of every listed file in order, the generated ones as copies of their templates, and lists exactly what is tracked |
| `PublicChecker.CleanIffSlashless` | tools/check_public_repository.py:199-354 | a snapshot bound by its manifest, generated copies included, has no violation exactly when its boundary is in order and none of its paths holds a backslash |
| `PublicChecker.CleanBinds` | tools/check_public_repository.py:199-354 | conversely, no violation means that the files are the listed ones and the manifest binds every byte, exactly when no file name holds a backslash |
| `PublicChecker.ShadowedFileIsUnseen` | tools/check_public_repository.py:199 | a file whose name becomes a listed one when backslashes are turned goes unseen with any contents |
| `PublicExport.CopyFiles` | tools/export_public_repository.py:314-343 | copies exactly the selected files, failing exactly when one is missing, with one entry each |
| `PublicExport.BuildSnapshot` | tools/export_public_repository.py:392-440 | the snapshot holds the selected files, the two generated copies and a manifest that binds them |
| `PublicExport.ValidateExport` | tools/export_public_repository.py:346-360 | the check before publication passes exactly when the source is named by object identifiers, no selected path holds a backslash and the privacy scan is silent |
| `PublicExport.AssembleSnapshot` | tools/export_public_repository.py:362-445 | a complete selection is written out as the snapshot its manifest binds, and the export succeeds exactly when the selection is complete, free of backslashes and of private content, and the source is identified and unchanged at the end |
| `PublicExport.SelectionMembers` | tools/export_public_repository.py:367 | what is copied are the tracked paths that the selection admits |
| `PublicMeaning.AssembledMeans` | tools/export_public_repository.py:367-435 | an assembled snapshot holds each selected file as it is in the source, the two copies of templates, the manifest, and nothing else, and its manifest tells them all |
| `PublicSelection.GeneratedNotSelected` | tools/export_public_repository.py:265-287 | the generated files and the manifest are never among the selected ones, as the assembly relies on |
| `PublicSelection.SelectedExactly` | tools/export_public_repository.py:216-287 | which paths are public, segment by segment: those listed or under a public prefix, without an unwanted or environment segment, and without a forbidden name, prefix or extension once folded |
| `PublicSelection.SecretsNotSelected` | tools/export_public_repository.py:281-286 | keys, certificates, databases and environment files are never selected |
| `PublicSelection.SlashTurned` | tools/export_public_repository.py:265-287 | the selection reads a backslash as a slash: it cannot tell the two spellings of a path apart |
| `PublicSelection.BackslashRefused` | tools/export_public_repository.py:346-445 | so any complete export with one more tracked path that is spelled with a backslash stays complete and is refused by its own check |
| `PublicRequired.OneRefusedExport` | tools/export_public_repository.py:346-445 | under the tool's own tables and its fourteen required files, every repository that tracks the required files is refused once it also tracks a source file spelled with a backslash |
| `PublicRequired.RequiredSelected` | tools/export_public_repository.py:368-388 | the rule selects all fourteen required files |
| `PublicConsumers.ValidateKitManifest` | tools/build_semifinal_defense_kit.py:546-630 | the kit accepts exactly a manifest with the public boundary of its own commit and tree that binds the files, with no empty file, no sensitive path, and no two paths that fold alike |
| `PublicMeaning.KitAcceptsMeans` | tools/build_semifinal_defense_kit.py:546-630 | the same for the kit, which also wants all files listed, none empty, sensitive or the manifest itself, and none folding alike |
| `PublicIntake.ReadSnapshot` | tools/build_semifinal_defense_kit.py:460-543 | the snapshot directory is read exactly when it holds at least one and at most 20,001 files, no path is sensitive, every file, the manifest included, has between one byte and 128 MiB and nothing the kit's scan finds, and all together have at most 256 MiB |
| `PublicIntake.ReadableIffWithinLimits` | tools/build_semifinal_defense_kit.py:460-543 | the same in terms of the files: their number, each one's path, size and contents, and the size of all together |
| `PublicMeaning.KitReadsMeans` | tools/build_semifinal_defense_kit.py:460-543 | the limits in figures: at most 20,001 files, each of up to 128 MiB and together up to 256 MiB, their sizes added up in any order |
| `PublicIntake.TakeSnapshot` | tools/build_semifinal_defense_kit.py:633-658 | the intake succeeds exactly when the directory can be read, the manifest is the kit's own and accepted, the checker finds nothing, and a second reading gives the same files |
| `PublicIntake.KitTakesExport` | tools/build_semifinal_defense_kit.py:460-658 | end to end, the kit takes an exported snapshot exactly when it was made from the kit's own source, named by object identifiers, no selected path holds a backslash, the checker's scan is silent, the directory is one that can be read, and no two listed paths fold alike |
| `PublicUpload.ExpectedFiles` | tools/build_submission_upload_bundle.py:380-419 | bindings for the selected files and the generated copies, or a refusal exactly when one is missing, empty, too large or badly named, or there are too many |
| `PublicMeaning.TreeAcceptedMeans` | tools/build_submission_upload_bundle.py:380-420 | the source tree is bound exactly when both templates are selected, every selected file is there under an archive path, not empty and of up to 32 MiB, and with the generated copies there are at most 20,000 |
| `PublicUpload.ReadMembers` | tools/build_submission_upload_bundle.py:434-478 | a ZIP is read exactly when its members have archive paths without git history, fold apart and stay within the limits |
| `PublicMeaning.ZipReadsMeans` | tools/build_submission_upload_bundle.py:434-478 | the limits in figures: at most 20,001 members, files of up to 32 MiB and together up to 128 MiB, outside any .git and apart when folded |
| `PublicMeaning.ZipContentsAre` | tools/build_submission_upload_bundle.py:434-478 | what is read is the data of the named file members, under their names |
| `PublicUpload.ValidatePublicSourceZip` | tools/build_submission_upload_bundle.py:422-570 | a ZIP is accepted exactly when it can be read, declares the public boundary of the uploaded source, and its members, its manifest's declarations and the source tree agree three ways |
| `PublicMeaning.ZipAcceptedMeans` | tools/build_submission_upload_bundle.py:422-570 | a ZIP is accepted exactly when it can be read and its manifest is readable, declares the public boundary for the uploaded source, and is accepted with the files |
| `PublicMeaning.UploadAcceptsMeans` | tools/build_submission_upload_bundle.py:479-570 | condition by condition: the manifest tells all files but itself, each entry has an archive path, a size and the right template, and the files are the expected ones |
| `PublicUpload.AcceptedZipIsTheSource` | tools/build_submission_upload_bundle.py:422-570 | an accepted ZIP holds, byte for byte, the public files of the source tree |
| `PublicUpload.AcceptedZipIsClean` | tools/build_submission_upload_bundle.py:422-570 | and the mirror validator finds no violation in it |
| `PublicUpload.UploadTakesExport` | tools/build_submission_upload_bundle.py:380-570 | end to end, the binding of the source tree and the validation of the ZIP both succeed on an export exactly when it was made from the uploaded source and its ZIP can be read |
| `PublicUpload.ReadableIffWithinLimits` | tools/build_submission_upload_bundle.py:434-478 | and a ZIP of one member per file can be read exactly when the files have archive paths, are neither empty nor above 32 MiB, fold apart, number at most 20001 and total at most 128 MiB |
| `TechnicalBundle.CheckNames` | tools/build_finals_technical_bundle.py:75-81 | names are accepted exactly when safe and apart after case folding |
| `TechnicalBundle.Inventory` | tools/build_finals_technical_bundle.py:147-149 | a row per member in order |
| `TechnicalBundle.InventoryIsUnique` | tools/build_finals_technical_bundle.py:147-149 | a payload has one inventory |
| `TechnicalBundle.VerifyContents` | tools/build_finals_technical_bundle.py:284-300 | the contents are accepted exactly when manifest, inventory and source identity agree with them |
| `BundleMeaning.VerifiedMeans` | tools/build_finals_technical_bundle.py:284-300 | condition by condition: the manifest vouches for its rows, which tell path, length and digest of all other members in order, the start page and identity are there, and the identity counts and vouches for the sources |
| `BundleMeaning.ContentsAre` | tools/build_finals_technical_bundle.py:257-282 | what is verified is what the members hold under their names |
| `TechnicalBundle.VerifyBundle` | tools/build_finals_technical_bundle.py:246-304 | a directory or ZIP is accepted exactly when names and sizes are admissible, the archive itself included, an expected digest is the archive's, and the contents agree |
| `BundleMeaning.AdmissibleMeans` | tools/build_finals_technical_bundle.py:257-283 | the limits in figures: 50,000 members, 64 MiB each and for the ZIP, 512 MiB together, safe names apart when folded |
| `BundleMeaning.AsExpectedMeans` | tools/build_finals_technical_bundle.py:263-269 | a digest that is asked for must be that of the ZIP, and none may be asked of a directory |
| `TechnicalBundle.ManifestDeterminesBundle` | tools/build_finals_technical_bundle.py:284-292 | two accepted bundles with the same manifest have the same contents |
| `TechnicalBundle.DigestDeterminesPayload` | tools/build_finals_technical_bundle.py:286-292 | the payload digest alone fixes everything but the manifest's spelling |
| `TechnicalBundle.AddEvidence` | tools/build_finals_technical_bundle.py:197-210 | evidence is added exactly when each text is reviewable and no name repeats, and disturbs no source file |
| `TechnicalBundle.BuildBundle` | tools/build_finals_technical_bundle.py:152-243 | a built bundle always has contents that verify, and holds the sources, every evidence text under its name, the start page and the two generated members and nothing else, the sources reading back as they were; building succeeds exactly when its own limits hold, no member exceeds 64 MiB and the archive itself does not either |
| `BundleMeaning.BuildableMeans` | tools/build_finals_technical_bundle.py:163-212 | sources and evidence are taken exactly when there are sources, names are safe, files within the limit, and evidence is reviewed, without slash and not repeated |
| `BundleMeaning.BundledMeans` | tools/build_finals_technical_bundle.py:196-232 | the bundle holds the sources under source/, the evidence under evidence/, the start page and the two generated members, and nothing else |
| `SourceWalk.WalkFiles` | tools/build_learning_installer.py:332-346 | the stack loop terminates on every tree; it fails exactly when it comes across a link or a special file, and otherwise finds exactly the files reached without an excluded path or an ignored directory |
| `SourceWalk.WalkedStep` | tools/build_learning_installer.py:332-346 | the walk goes one name further unless the new path is excluded or the directory it is in is ignored |
| `SourceSelection.SourceNames` | tools/build_learning_installer.py:476-504 | the loops over the source trees fail exactly when one that exists is not an orderly directory of admissible names, and otherwise give exactly the selected files |
| `SourceSelection.SelectedMeans` | tools/build_learning_installer.py:476-504 | what is selected are the required inputs and the sources of the source trees, none of which may stop the selection |
| `SourceSelection.ChosenMeans` | tools/build_learning_installer.py:486-503 | a walked file is a source exactly when no name below the source tree is package metadata and it is not compiled code |
| `SourceSelection.UsableMeans` | tools/build_learning_installer.py:479-503 | a source tree stops the selection exactly when it is there but no directory, holds something else than files and directories, or has a source with a private or unsafe name |
| `TreeWrite.LookupPut` | tools/build_learning_installer.py:507-519 | writing a file creates the directories above it and changes nothing else |
| `SelectionChanges.SelectionIsFixpoint` | tools/build_learning_installer.py:476-504 | in a tree rebuilt from the selected files, the walks select the same files and refuse nothing |
| `FrozenSources.VerifyFrozen` | tools/build_learning_installer.py:573-587 | verification accepts exactly a staging tree whose manifest has the right schema and digest, whose walked selection is the manifest's and whose files match the rows |
| `FrozenSources.FrozenRows` | tools/build_learning_installer.py:573-587 | an accepted manifest has a row with path, length and digest for each source that is there, and for nothing else |
| `FrozenSources.HashSources` | tools/build_learning_installer.py:529-546 | hashing stops at the first file that is missing or not allowed, and otherwise gives one ordered row per name |
| `FrozenSources.CopySources` | tools/build_learning_installer.py:564-568 | the staged tree holds exactly the listed files and the directories above them; no copy is ever in the way of another |
| `FrozenSources.FreezeSources` | tools/build_learning_installer.py:522-570 | freezing succeeds exactly when every selected source is there and allowed; the verification that ends it never fails, and the staged sources are the authority's, byte for byte |
| `FrozenSources.FreshlyFrozen` | tools/build_learning_installer.py:564-570 | right after freezing, verification succeeds |
| `FrozenSources.OutsideFilesDoNotMatter` | tools/build_learning_installer.py:573-587 | writing a file that no walk keeps, such as a copied dependency or compiled code, does not affect verification |
| `FrozenSources.SameSourcesIffSameRows` | tools/build_learning_installer.py:573-587 | two verified trees have the same selected sources, byte for byte, exactly when their manifests have the same rows |
| `FrozenSources.RunSteps` | tools/build_learning_installer.py:1189-1201 | the build loop ends normally exactly when every step succeeds and the tree verifies before each of them and after the last |
| `FrozenSources.StepsStartFromFrozenSources` | tools/build_learning_installer.py:1189-1201 | a step that the run gets to starts from the frozen sources exactly when the manifest on disk still has the rows it began with |
| `FrozenSources.RewrittenManifestPasses` | tools/build_learning_installer.py:573-587 | a step that changes a source and rewrites the manifest to match goes through |
| `CoverageFloors.FractionsCross` | tools/check_engineering_quality.py:123-130 | comparing exact fractions is comparing cross products |
| `CoverageFloors.FloorReflexive` | tools/check_engineering_quality.py:123-130 | the floor relation is a partial order on valid pairs: reflexivity |
| `CoverageFloors.FloorAntisymmetric` | tools/check_engineering_quality.py:123-130 | the floor relation is a partial order on valid pairs: antisymmetry |
| `CoverageFloors.FloorTransitive` | tools/check_engineering_quality.py:123-130 | the floor relation is a partial order on valid pairs: transitivity |
| `CoverageFloors.CoveredNeverFalls` | tools/check_engineering_quality.py:123-130 | a count that meets its floor covers at least as much in absolute numbers |
| `CoverageFloors.NormaliseReport` | tools/check_engineering_quality.py:218-224 | a report is usable exactly when its paths stay apart once normalised |
| `CoverageFloors.CheckCoverage` | tools/check_engineering_quality.py:201-246 | accepts exactly the same scope, floors met file by file, and the same test identities |
| `CoverageFloors.CollectCases` | tools/check_engineering_quality.py:133-147 | collecting identities succeeds exactly when all are well formed and none is repeated |
| `CoverageFloors.AcceptedFileByFile` | tools/check_engineering_quality.py:217-243 | in integers and file by file: hits and misses add up to the total, no total shrinks, no fraction falls and no exclusion count grows, for exactly the profile's files |
| `CoverageFloors.ReportMeetsItself` | tools/check_engineering_quality.py:201-246 | an accepted report meets the floors frozen from it |
| `CoverageFloors.RatchetsCompose` | tools/check_engineering_quality.py:201-246 | replacing floors by an accepted report's own lets nothing through that they would refuse |
| `CoverageFloors.SumNeverFalls` | tools/check_engineering_quality.py:201-246 | summed over any files, neither the covered lines nor the lines fall, and neither do the branches |
| `CoverageFloors.LeastHitIsLeast` | tools/check_engineering_quality.py:123-130 | the fewest hits that meet a floor, rounded up, for any total |
| `CoverageFloors.AggregateHoldsIff` | tools/check_engineering_quality.py:201-246 | given how many lines or branches each file now has, every report that meets the floors also keeps the overall fraction exactly when the fewest hits that the floors ask for already do |
| `CoverageFloors.AggregateHoldsOnEqualTotals` | tools/check_engineering_quality.py:201-246 | in particular while the number of lines, or of branches, stays put |
| `CoverageFloors.AggregateMayFall` | tools/check_engineering_quality.py:123-130 | but it may fall although every file meets its floor |
| `BanditBaseline.FingerprintIdentifies` | tools/check_bandit_baseline.py:74-83 | equal fingerprints mean equal identities, hash collisions apart |
| `BanditBaseline.SharedIdentity` | tools/check_bandit_baseline.py:74-83 | two findings have one fingerprint exactly when they agree in file, severity, confidence, weakness, text and test and their snippets agree once line numbers are taken off |
| `BanditBaseline.NumberTakenOff` | tools/check_bandit_baseline.py:80-82 | from a snippet line, the leading digits and the blank or tab behind them are taken off, and nothing else |
| `BanditBaseline.RenumberingKeepsFingerprint` | tools/check_bandit_baseline.py:78-82 | renumbering the lines of a snippet keeps the fingerprint |
| `BanditBaseline.NormalizeResults` | tools/check_bandit_baseline.py:41-71 | normalisation fails exactly on a scan with errors or a finding without a path |
| `BanditBaseline.CountFingerprints` | tools/check_bandit_baseline.py:65-83 | the counter holds each finding's fingerprint with its multiplicity, and fails exactly on a finding without code |
| `BanditBaseline.CountsByFinding` | tools/check_bandit_baseline.py:65-83 | the counts are those of the fingerprints of the findings with the slashes of their paths turned |
| `BanditBaseline.BuildBaseline` | tools/check_bandit_baseline.py:90-121 | a baseline is built exactly from a clean scan of low findings with snippets, and holds their normalised findings in order under their digest |
| `BanditBaseline.FreshBaseline` | tools/check_bandit_baseline.py:90-152 | which validates, and counts what the report counts |
| `BanditBaseline.CompareToBaseline` | tools/check_bandit_baseline.py:155-189 | the steps of the comparison, each of which may refuse, give the verdict of the counters |
| `BanditBaseline.CheckIsInclusion` | tools/check_bandit_baseline.py:155-189 | a report passes exactly when it is low-only and its fingerprints are included in the baseline's as a multiset; the baseline is then the current findings and the resolved ones |
| `BanditBaseline.FreezeThenCheck` | tools/check_bandit_baseline.py:90-189 | a report checked against a baseline frozen from it passes with nothing resolved |
| `BanditBaseline.RefreezingOnlyTightens` | tools/check_bandit_baseline.py:90-189 | refreezing from an accepted report lets nothing through that the old baseline would refuse |
| `BanditBaseline.VerdictIgnoresOrder` | tools/check_bandit_baseline.py:155-189 | the verdict does not depend on the order of the findings |
| `BanditBaseline.VerdictIgnoresNumbers` | tools/check_bandit_baseline.py:74-83 | nor on the line numbers of the snippets, whatever the severities |

## Left out

- DependencyWalk.DependencyInventory: file metadata that changes while it is read, and the listing that records links without following them, are not modelled.
- DependencyCopy.CopyDependencyTree: equality is on files, because the copy does not create empty directories.
- DependencyCopy.TargetTree.CopyVerified: links at or above the two paths are not modelled, since the walk has resolved the source and the target is new.
- PublishSteps.ActKeeps: temporary file names are taken never to be used twice, and what a failed `mkstemp` may leave is not modelled; an interrupt stands before each operation, not inside one.
- PublishWorlds.UndisturbedStepsAreARun: covers one builder alone; `PublishWorlds.RunIsEachBuildersSteps` covers interleavings.
- NpmResolve.EveryPathHasLevels: paths that begin with the marker itself, which no lock file contains, are not written as levels.
- NpmLock.NpmLockGraph: JSON of another shape and the integrity field, which does not enter the graph, are not modelled.
- CargoLock.CargoLockGraph: the lock is read twice, as text and as its list of packages; licences and checksums, which do not enter the graph, and JSON of another shape are not modelled.
- SupplyChain.GenerateSbom: what the three lock readers leave out is left out here too.
- CatFile.ReadAnswer: headers are read as ASCII; a negative size is refused at once, where the code refuses it at the read it asks for.
- RawLog.HistoryInventory: the final sorting of keys and paths, and the path policy applied to submodule entries, are left out; UTF-8 decoding is a parameter.
- RawLog.RenameRecordIsRefused: says nothing of rename targets that start with a colon, since the log is asked for without renames.
- WorktreeStatus.StatusEntries: works on decoded text; output that is not UTF-8 raises before.
- CodeValue.EncodesSame: floats are represented by their hexadecimal spelling, so all NaN values are one; strings hold no lone surrogates, which the encoder cannot write.
- CodeValue.AcceptedIffSameCode: whether an absolute file name resolves below the source root is a parameter.
- PublicChecker.MirrorViolations: rules that only name a violation are merged, and JSON of another shape is one refusal.
- PublicExport.CopyFiles: links, paths that resolve outside the repository and the repeated test of the selection are not modelled.
- PublicExport.AssembleSnapshot: the selection is a predicate here; `PublicSelection` and `PublicRequired` give the tool's own.
- PublicRequired.OneRefusedExport: the table of paths that are public by name is a parameter, known to hold the nine required files that are public by name; case folding is known on ASCII only.
- PublicIntake.ReadSnapshot: links and special files in the directory are not modelled; the path rule and the scan are parameters.
- PublicIntake.KitTakesExport: the snapshot is left alone between the two readings.
- PublicConsumers.ValidateKitManifest: the spelling of digests and unknown entry fields are not modelled, since a digest is compared with the file's own.
- PublicUpload.ReadMembers: encryption flags and file modes of ZIP members are not modelled.
- PublicUpload.ValidatePublicSourceZip: as for the kit, the spelling of digests and unknown fields are not modelled.
- TechnicalBundle.BuildBundle: the selection of source files from git, the start page's text and ZIP encoding are parameters.
- SourceWalk.WalkFiles: the final sort is left out, because its caller makes a set of the files.
- SourceSelection.SourceNames: whether a path that leads through a link exists is a parameter; links above the source root are resolved before.
- FrozenSources.FreezeSources: the state of git and the fields of the manifest that no check reads are left out; files do not change while they are hashed.
- CoverageFloors.CheckCoverage: the JUnit tree and its counts are represented by the identities read from it; schema and tool versions are tested before.
- BanditBaseline.BuildBaseline: the sort key of fingerprint and line number is one text; field types are checked before.
- Secret, e-mail and path scanning, licence texts, receipts' claim fields, command lines, process launch and user interfaces are not modelled.
- The archive verification inside the defense kit is the comparison of a file's contents with the archive it should be.
