# A model of go-mockfs

go-mockfs is an in-memory filesystem for tests. It stores a flat map from path to file node
that has to behave like a tree, and adds error rules with counters, sub-filesystems, file
handles, simulated latency and statistics. This project models that logic in Dafny and proves
what it promises over whole runs, iteration orders and interleavings.

## How the model is laid out

Each part has a specification on values and, where the program changes state step by step,
objects whose methods are proved to refine it.

| part | on values | as objects |
|---|---|---|
| paths as strings and as component lists | `Paths` | |
| the file map and its operations | `Files`, `Tree`, `Rename`, `RenameOrders`, `Listing`, `Orphans`, `OrphanRuns`, `Order`, `Builder` | `Nodes`, `FileMaps`, `MockFS`, `Options` |
| the filesystem as a state machine | `FsMachine`, `FsCalls` | `MockFS`, `OpenFiles` |
| error rules and matchers | `Matchers`, `Injector`, `SubInjector`, `SharedRules` | `ErrorRules` |
| checks running concurrently | `ConcurrentInjection`, `ConcurrentTotals` | |
| sub-filesystems | `SubFs`, `SubOrders`, `SubRuns`, `SubView` | `SubMap`, `SubObjects` |
| file handles and paged directory reads | `Handles`, `HandleCalls`, `Pagination` | `MockFile`, `Pagination` |
| filesystems and handles used together | | `Sessions` |
| tickets and latency | `Tickets`, `TicketSleeps`, `Latency` | `Latency` |
| statistics | `Stats` | `Stats` |

Some choices a reader should know:

- Keys are the strings the program uses. `path.Clean` is the identity on valid paths.
- A file mode is the directory bit and all other bits; times are opaque numbers given by the
  caller, one clock reading for each operation.
- `for p := range m.files` picks any key next. An entry inserted while ranging may be visited
  or not; one that was there keeps its turn. A run of the machine goes with what its renames
  have come to; everything else is a function of the map.
- `FileMap.Stays` says that a node never changes its key and never comes back once it is gone,
  and that a buffer stays with its node. `Session.Valid` says who owns which node and buffer
  when several filesystems and handles are used together.
- A rule has an identity, so that one rule object standing in two lists shares its counter.
- Regular expressions and glob patterns are arbitrary predicates on strings.
- Injected errors, `errors.Join` and the program's own error kinds are values of one datatype;
  an injected `io.EOF` on Read ends ReadFile like the real one.
- Machine integers are written out: 64-bit wrap-around in Seek, WriteAt, paging and counters.
- Lemmas carry `{:induction false}`: their bodies are the whole proofs.

## Where the code does not do what its documentation says

The model follows the code. Each of these is a proved statement.

- Rename promises that an existing destination is overwritten. That is so exactly when the paths
  differ and everything at or below the destination is itself replaced or carried along
  (`Rename.OverwritesIff`, which the code comes to by `RenameOrders.RewritesIff`;
  `RenameOrders.OutcomeOverwritesIff` for every Rename that does not depend on an order): renaming
  a path to itself erases it with all its entries (`Rename.RenameToItselfErases`), and a directory
  renamed onto another merges with it (`Rename.RenameMerges`).
- Renaming a directory into itself gives a map that depends on the order of the loop
  (`RenameOrders.IntoItself`); when the order matters is `RenameOrders.OrderIndependentIff`.
- collectDirEntries calls its skip unreachable and names Remove and Rename among the operations
  that keep it so. For valid keys the skip is dead exactly while every proper ancestor of every
  key is stored; for any keys `Orphans.SkipIsDeadIff` says it of proper names. WriteFile with
  createIfMissing and Rename need a stored parent for that, Remove and Rename of a file need that
  nothing lies below it, and a file must not be renamed to below itself
  (`OrphanRuns.StepSkipsIff`); `OrphanRuns.WriteFileSkips` and `OrphanRuns.RemoveSkips` show the
  skip taken.
- Concurrent checks can come to other totals than the same checks made one after the other
  (`ConcurrentInjection.TotalsDependOnOrder`), unless calls that have met at a rule go on alike
  (`ConcurrentTotals.TotalsAsSequential`).
- A rule object added to two lists behaves differently in a sub-filesystem when its decisions
  depend on its counter (`SharedRules.SharedDiverges`, `SharedRules.AgreesIff`); a rule that
  always fires may be shared freely.
- Success counts of a recorder and of its snapshot differ once a total exceeds MaxInt
  (`Stats.SuccessAgreesIff`).

## Model

| member | source | states |
|---|---|---|
| `Paths.RenderBijection` | mockfs.go:1363-1368 | Valid paths are in one-to-one correspondence with lists of valid components. |
| `Paths.UnderIsProperAncestor` | mockfs.go:949-953 | The prefix test `HasPrefix(p, dir+"/")` is true exactly when dir is a proper ancestor of p as a list of components. |
| `Paths.DirDropsLast` | mockfs.go:1289-1293 | `path.Dir` on a valid path drops the last component. |
| `Tree.AncestorsPresent` | mockfs.go:1177-1183 | In a tree every proper ancestor of a stored path is stored and is a directory. |
| `Tree.MkdirAllAny` | mockfs.go:1330-1359 | On any map at all: mkdirAll fails with NotDir exactly when a file stands on the path, and else adds exactly the missing ancestors and the target. |
| `Tree.MkdirAllAtomic` | mockfs.go:1330-1359 | In a tree an error of mkdirAll leaves the map as it was; success adds exactly what was missing and touches no other entry. |
| `Tree.AddFileAtomic` | mockfs.go:554-573 | AddFile is all-or-nothing: error and unchanged map, or exactly the missing ancestors and the file. |
| `Tree.MkdirKeepsTree` | mockfs.go:1301-1326 | Mkdir keeps the tree. |
| `Tree.RemoveKeepsTree` | mockfs.go:941-958 | Remove keeps the tree, because it refuses a directory with descendants. |
| `Tree.RemoveTreeKeepsTree` | mockfs.go:982-990 | Removing a whole subtree keeps the tree. |
| `Tree.WriteFileKeepsTreeIff` | mockfs.go:1082-1117 | WriteFile keeps the tree if and only if it is read-only, or need not create, or the parent is there: its create path checks no parent. |
| `Tree.WriteFileOrphan` | mockfs.go:1089-1099 | A concrete WriteFile that leaves an entry without a parent. |
| `Rename.RenameIsRename` | mockfs.go:1022-1051 | The one-shot prefix rewrite, key by key: what is carried is found under its new name, what is neither carried nor overwritten stays. |
| `Rename.RenameUnique` | mockfs.go:1022-1051 | This description determines the map. |
| `Rename.UnderwayStep` | mockfs.go:1037-1046 | One round of Rename's loop takes the half-moved map to the half-moved map with one key more, whichever key it is. |
| `Rename.UnderwayDone` | mockfs.go:1033-1051 | When no key is left and the old path is deleted, the loop has produced the one-shot rewrite, less an entry that has taken the old path itself. |
| `RenameOrders.Confluent` | mockfs.go:1033-1051 | Rename's loop is confluent: when no entry gets a name below the source again, every order range allows, revisiting inserted entries or not, ends after at most two visits for each key in the same map, the one-shot prefix rewrite less an entry that has taken the name of the source. |
| `RenameOrders.ConfluentRewrites` | mockfs.go:1033-1051 | When none takes the name of the source either, that map is the one-shot prefix rewrite; incomparable paths are one such case. |
| `RenameOrders.OrderIndependentIff` | mockfs.go:1033-1051 | Rename has one outcome whatever the order if and only if the source is no directory, or the paths are equal, or no entry below the source gets a name below it again. |
| `RenameOrders.RewritesIff` | mockfs.go:1033-1051 | Renaming a directory ends in the one-shot rewrite in every order if and only if the paths are equal or no entry below the source gets a name at or below it. |
| `RenameOrders.TwoEnds` | mockfs.go:1033-1051 | An entry moved to below the source: one order ends with the moved name in the map, another without. |
| `RenameOrders.IntoItself` | mockfs.go:1033-1051 | Renaming a directory into itself always has two orders that end in different maps. |
| `Rename.IncomparableRenamable` | mockfs.go:1022-1051 | Between incomparable paths no entry moves back to or below the source, whatever the map. |
| `Rename.RenameConserves` | mockfs.go:1022-1051 | Onto a vacant place the number of entries is unchanged and every moved entry keeps its data and mode. |
| `Rename.RenameUndoes` | mockfs.go:1022-1051 | Renaming back restores the map, apart from the modification time of the top entry. |
| `Rename.RenameKeepsTreeIff` | mockfs.go:1022-1051 | Between incomparable paths Rename keeps the tree if and only if the new parent is there and no file comes to lie on a path that has entries below it. |
| `Rename.RenameToItselfErases` | mockfs.go:1022-1051 | Renaming a path to itself erases it and everything below it. |
| `Rename.OverwritesIff` | mockfs.go:993-996 | In the one-shot rewrite of any two paths the destination holds what was moved and nothing else, if and only if the paths differ and everything at or below the destination is replaced or carried along. |
| `RenameOrders.OutcomeOverwritesIff` | mockfs.go:993-1051 | The same of what Rename comes to, whenever that does not depend on an order, provided that no entry takes the name of the source. |
| `Rename.RenameMerges` | mockfs.go:1028-1046 | In a sound tree a directory renamed onto another can leave that one's entries in place. |
| `Listing.ReadDirCanonical` | mockfs.go:1124-1194 | For any map the listing is strictly increasing, holds a proper name exactly when the child path has an entry, and gives that entry's mode, modification time and size; it holds other names only if some key is not a valid path. |
| `Listing.EntriesAreChildren` | mockfs.go:1185-1190 | Entry by entry: mode, time and size of a listed child are those stored at its path. |
| `Order.LessIsLexicographic` | mockfs.go:1133-1136 | The order of listings is the lexicographic one: the first difference decides, and a proper prefix comes first. |
| `Listing.ReadDirRepresents` | mockfs.go:1141-1194 | In a tree every entry below a directory is represented by exactly one listed name. |
| `Listing.SkipIsDead` | mockfs.go:1177-1183 | In a tree the second pass never skips a name. |
| `Orphans.SkipIsDeadIff` | mockfs.go:1177-1183 | For any map: no listing skips a proper name if and only if every proper ancestor of every key that is a valid path has an entry. |
| `Orphans.RemoveConnectedIff` | mockfs.go:941-958 | Remove keeps all ancestors stored if and only if it does not remove a file that has entries below it. |
| `Orphans.RenameConnectedIff` | mockfs.go:1022-1051 | For any two paths whose Rename does not depend on an order: it does if and only if the new parent is stored, the source is no file with entries below it, and the destination is not below the source. |
| `OrphanRuns.StepSkipsIff` | mockfs.go:1177-1183 | From a map that no listing skips a name of, a call leads to another if and only if it is stopped or leaves no orphan, for every operation of the machine and every outcome of Rename. |
| `OrphanRuns.RunSkipsNothing` | mockfs.go:1177-1183 | Over all runs, whatever the renames come to, the skip stays dead as long as no call leaves an orphan. |
| `OrphanRuns.TreeRunsSkipNothing` | mockfs.go:1177-1183 | From a tree, every run of calls that keep the tree is a run in which no call leaves an orphan. |
| `OrphanRuns.WriteFileSkips` | mockfs.go:1089-1099 | WriteFile("a/b") into an empty filesystem makes the listing of the root skip a name. |
| `OrphanRuns.RemoveSkips` | mockfs.go:941-1117 | So does AddFile("a"), WriteFile("a/b") and then Remove("a"); before the Remove no listing skipped a name. |
| `Listing.GatheredSorted` | mockfs.go:1124-1138 | Whatever the order of both passes, sorting what they gather gives the one listing. |
| `Builder.FlattenIsDescription` | mockfs.go:71-166 | The flattened map holds an entry at a component list exactly when the nested description leads there. |
| `Builder.BuilderYieldsDescription` | mockfs.go:277-306 | With valid, distinct sibling names NewMockFS holds, besides the root with 0o755, exactly the described files with their bytes and permission bits and the described directories. |
| `Builder.BuildThenList` | mockfs.go:277-306 | Listing the built filesystem recursively from the root, going down where the listing says there is a directory, gives the description back, children sorted by name and permissions masked. |
| `Builder.LaterOptionWins` | mockfs.go:71-105 | Of two options for one path the later one counts, and what was put elsewhere stays. |
| `Options.NewMockFS` | mockfs.go:277-306 | NewMockFS gives a filesystem of its own with the built map, overwrite mode, no creation on write, no rules and zero counters, or fails when an option does. |
| `Options.ApplyAll` | mockfs.go:296-305 | Applying options one by one yields the specified map and restores buildCtx, also after a failure. |
| `Options.ApplyOne` | mockfs.go:71-166 | One File or Dir option: rejected names, the stored entry, children in the new context, the caller's context restored. |
| `FsMachine.StepKeepsTree` | mockfs.go:868-1118 | Every public operation keeps the tree; WriteFile and Rename under conditions a caller can check before the call. |
| `FsMachine.OneStep` | mockfs.go:1022-1051 | A Rename that ends in the one-shot rewrite in every order is that one step of the machine. |
| `FsMachine.SomeRun` | mockfs.go:868-1118 | Every sequence of calls has a run: Rename always comes to something. |
| `FsMachine.RunKeepsTree` | mockfs.go:534-621 | Over all runs of such calls every key is a valid path with a directory as parent, and so the defensive skip in collectDirEntries is dead. |
| `FsMachine.RunLedger` | mockfs.go:868-1079 | Over any run, whatever its renames come to, the filesystem's statistics are the record of its calls: one entry for each recorded call, its failure, the bytes of each successful WriteFile. |
| `FsMachine.ReadAllReadsAll` | mockfs.go:434-460 | When no rule concerns Read, reading until EOF with buffers of any sizes yields the stored bytes. |
| `FsMachine.ReadFileReturnsStored` | mockfs.go:434-460 | ReadFile of a file that no rule concerns returns its stored bytes and no error. |
| `FsCalls.InjectedErrorReaches` | mockfs.go:868-1078 | For Mkdir, MkdirAll, Remove, RemoveAll, Rename, WriteFile, Stat and ReadDir on proper paths: an injected error for the operation's kind and path is what the caller gets, and no file changes; if no rule fires, outcome, files and statistics are those of the filesystem without rules. The rules count on in both cases. |
| `FsCalls.ImproperIsInvalid` | mockfs.go:1363-1368 | An improper path is refused with Invalid by every operation, before the rules are asked. |
| `FsCalls.BeneathTheRules` | mockfs.go:534-621 | AddFile, AddDir and RemoveEntry ask no rule, count nothing and change only files. |
| `FsCalls.CallCounts` | mockfs.go:868-1079 | Every call counts once for its kind, as a failure exactly if it fails, and WriteFile with the bytes it has written; of ReadFile the opening counts. |
| `FsCalls.MkdirComesTo` | mockfs.go:1301-1326 | Mkdir of the child n of d when no rule fires: Exist, NotExist or NotDir with the map unchanged, or a directory with the permission bits and nothing else. |
| `FsCalls.MkdirAllComesTo` | mockfs.go:1330-1359 | MkdirAll and AddDir when no rule fires: NotDir exactly when a file is on the way, else exactly the missing ones among the path and its ancestors become directories. |
| `FsCalls.AddFileComesTo` | mockfs.go:554-573 | AddFile in a tree: NotDir, IsDir with the map unchanged, or the file with its bytes and permission bits, missing ancestors as directories with 0o755, nothing else. |
| `FsCalls.RemoveComesTo` | mockfs.go:941-958 | Remove when no rule fires: NotExist, NotEmpty exactly for a directory with something below it, else this one entry is gone, an empty directory too. |
| `FsCalls.RemoveAllComesTo` | mockfs.go:982-990 | RemoveAll and RemoveEntry take away the path and all below it, and nothing else. |
| `FsCalls.RenameComesTo` | mockfs.go:1022-1051 | Rename between incomparable paths when no rule fires, whatever the order of its loop: every entry that goes arrives under its new name, the source itself with a new time; the others stay unless one arrives in their place. |
| `FsCalls.WriteFileComesTo` | mockfs.go:1082-1117 | WriteFile when no rule fires: Permission, NotExist, or the stored bytes are the given ones, behind the old ones in append mode; an existing entry keeps its mode, a new one has the given bits, and no other key changes. |
| `FsCalls.WriteThenRead` | mockfs.go:434-1117 | A ReadFile after a successful WriteFile returns those bytes, when no rule for Open, Read or Close concerns the path. |
| `FsCalls.StatComesTo` | mockfs.go:341-360 | Stat when no rule fires: NotExist, or the last element of the path with the stored mode, time and size. |
| `FsCalls.ReadDirComesTo` | mockfs.go:480-496 | ReadDir when no rule fires: NotExist, NotDir, or exactly the children in order with their stored modes, times and sizes. |
| `FsCalls.ReadAllStops` | mockfs.go:454-459 | Reading to the end is a run of checks for Read: any number that no rule stops, and one that ends it, by a rule or because the bytes are used up. |
| `FsCalls.ReadFileComesTo` | mockfs.go:434-460 | ReadFile: an error injected into Open, then NotExist; else the bytes read until a read was stopped or all were read, with the error injected into that read, joined with one injected into Close. |
| `FsCalls.SubRefuses` | mockfs.go:1232-1258 | Sub refuses a valid path with NotExist or NotDir, as ReadDir does when no rule fires. |
| `FileMaps.FileMap.Put` | mockfs.go:567-571 | Storing a node under a key replaces exactly that entry, and the old node is gone from the map. |
| `FileMaps.FileMap.Append` | mockfs.go:1103-1106 | Appending through the node of one path, in place or in a new buffer, changes that path's entry only. |
| `FileMaps.FileMap.MoveTo` | mockfs.go:1042-1045 | A copy under the new key and deletion of the old one; the copy is a new node with a new buffer. |
| `FileMaps.FileMap.OthersKept` | mockfs.go:1101-1113 | Writing to one node leaves every other entry as it was, because no two keys share a node or a buffer. |
| `MockFS.MockFS.MakeDirAll` | mockfs.go:1330-1359 | The index loop of mkdirAll computes its specification; every key that was there leads to the node it led to. |
| `MockFS.MockFS.DropTree` | mockfs.go:612-618 | Deleting while ranging over the keys, in any order, removes exactly the subtree; its nodes are stored no more, and the other keys keep theirs. |
| `MockFS.MockFS.MoveRound` | mockfs.go:1037-1046 | One round of Rename's loop on the object is one visit of the loop relation, for any two paths; the inserted key may or may not be visited later. |
| `MockFS.MockFS.MoveChildren` | mockfs.go:1034-1047 | Rename's insert-and-delete-while-ranging loop, with any number of inserted keys visited again, is one of the orders of the loop relation, for any two paths; what was stored below the source, or where it went, is stored no more. |
| `MockFS.MockFS.Move` | mockfs.go:1022-1051 | Rename below the simulation layer comes to an outcome of the loop relation, for any two paths, and replaces or takes away the nodes at every name it moves or moves something to. |
| `MockFS.MockFS.Mkdir` | mockfs.go:868-893 | Mkdir refines one step of the machine: validation, rules, map, outcome and statistics; what that step comes to is `FsCalls.InjectedErrorReaches` and `FsCalls.MkdirComesTo`. |
| `MockFS.MockFS.MkdirAll` | mockfs.go:897-918 | MkdirAll refines one step of the machine; what that step comes to is `FsCalls.InjectedErrorReaches` and `FsCalls.MkdirAllComesTo`. |
| `MockFS.MockFS.Remove` | mockfs.go:923-959 | Remove refines one step of the machine, whatever the order of its emptiness check; the node of the path is stored no more; what that step comes to is `FsCalls.InjectedErrorReaches` and `FsCalls.RemoveComesTo`. |
| `MockFS.MockFS.RemoveAll` | mockfs.go:964-991 | RemoveAll refines one step of the machine; the nodes of the subtree are stored no more; what that step comes to is `FsCalls.InjectedErrorReaches` and `FsCalls.RemoveAllComesTo`. |
| `MockFS.MockFS.Rename` | mockfs.go:998-1052 | For any two paths Rename refines one step of the machine, to one of the outcomes its loop allows; what stood at a name that it moves, or moves something to, is stored no more, and what lies elsewhere keeps its node; what that step comes to is `FsCalls.InjectedErrorReaches` and `FsCalls.RenameComesTo`. |
| `MockFS.MockFS.WriteFile` | mockfs.go:1057-1118 | WriteFile refines one step of the machine, writes to no node but that of its path, and every key keeps its node; what that step comes to is `FsCalls.InjectedErrorReaches` and `FsCalls.WriteFileComesTo`. |
| `MockFS.MockFS.AddFile` | mockfs.go:534-574 | AddFile refines one step of the machine; the node it replaces is stored no more. |
| `MockFS.MockFS.AddDir` | mockfs.go:579-596 | AddDir refines one step of the machine. |
| `MockFS.MockFS.RemoveEntry` | mockfs.go:601-621 | RemoveEntry refines one step of the machine; the nodes of the subtree are stored no more. |
| `MockFS.MockFS.Stat` | mockfs.go:323-361 | Stat refines one step of the machine and changes no file; what that step comes to is `FsCalls.InjectedErrorReaches` and `FsCalls.StatComesTo`. |
| `MockFS.MockFS.ReadDir` | mockfs.go:466-497 | ReadDir refines one step of the machine and changes no file; what that step comes to is `FsCalls.InjectedErrorReaches` and `FsCalls.ReadDirComesTo`. |
| `MockFS.MockFS.List` | mockfs.go:1124-1194 | The two passes over any iteration order and the sort return the canonical listing, which `Listing.ReadDirCanonical` describes. |
| `OpenFiles.Open` | mockfs.go:367-411 | Open checks, counts and records, and hands out a handle on the very node of the path, with a sorted listing for a directory. |
| `OpenFiles.ReadAllOf` | mockfs.go:459 | The loop of io.ReadAll on a handle computes the specified bytes, error and rule counters, and ends. |
| `OpenFiles.ReadFile` | mockfs.go:434-460 | ReadFile as Open, ReadAll and Close refines one step of the machine, with both errors joined. |
| `SubFs.MkdirAllAgrees` | mockfs.go:1330-1359 | mkdirAll at x in the sub-filesystem does what mkdirAll at d/x does in the parent. |
| `SubOrders.OutcomeLifts` | mockfs.go:1022-1051 | Whatever Rename comes to in a sub-filesystem, for any two of its paths and any order of its loop, it can come to the like below d in the parent. |
| `SubOrders.OutcomeDrops` | mockfs.go:1022-1051 | And conversely: the parent's loop passes over all keys that the sub-filesystem does not have. |
| `SubFs.ListingAgrees` | mockfs.go:1141-1194 | A directory lists the same in the sub-filesystem and in the parent. |
| `SubRuns.StepLifts` | mockfs.go:501-526 | Whatever an operation at x comes to in a sub-filesystem, it can come to the like at d/x in the related parent: the same outcome, and the two stay related. |
| `SubRuns.StepDrops` | mockfs.go:501-526 | And conversely. |
| `SubRuns.SubBisimulation` | mockfs.go:501-526 | Over any calls on non-root paths every run of Sub(d) is one that its parent can have on d/x with fresh counters, and conversely: the same answers, the map stays the parent's subtree re-rooted, nothing outside d changes; only rules that count within d must not stand in two places. |
| `SubRuns.SubComposes` | mockfs.go:501-526 | Sub(a) then Sub(b) has the same error, files, rules and settings as Sub(a/b). |
| `SubRuns.SubRoot` | mockfs.go:1263-1285 | The root of the sub-filesystem is a directory with the permissions and the time of the directory it was made of. |
| `SubMap.CopyFiles` | mockfs.go:1263-1285 | The copying loop, in any order, fills the new map with the re-rooted subtree in new nodes and new buffers. |
| `SubObjects.Sub` | mockfs.go:501-526 | Sub returns the receiver for ".", the specified error, or a filesystem sharing no node, buffer, rule or counter with its parent. |
| `SubView.RecastMirrors` | error.go:551-563 | The rule objects that Sub clones mirror the parent's lists, place by place, with fresh counters. |
| `SubView.SubObjectBisimulates` | mockfs.go:501-526 | A filesystem object that Sub made has the runs that its parent has on d/x with fresh rule counters, and no others. |
| `Matchers.CloneExactIff` | pathmatcher.go:49-202 | The clone of any matcher for a matches s exactly when the original matches a/s (a itself for "."), if and only if the matcher is not the exact path "a/.". |
| `Matchers.CloneComposes` | pathmatcher.go:49-202 | Cloning for a and then for b gives the matcher that cloning for a/b gives. |
| `SubInjector.CloneInjectorComposes` | error.go:551-563 | Cloning an injector for a and then for b gives the injector that cloning for a/b gives. |
| `SubInjector.CloneSimulates` | error.go:551-563 | With fresh counters, and unless a rule whose decisions vary and that concerns d stands in two places, the clone does at x what the original does at d/x from then on. |
| `SubInjector.SharedRuleDiverges` | error.go:192-200 | A rule that stands in two lists counts once in the original and twice in a clone: a concrete run in which they differ. |
| `SharedRules.UnsharedAgrees` | error.go:551-592 | Unless such a rule is shared, original and clone return the same errors over every run. |
| `SharedRules.SharedDiverges` | error.go:192-200 | The converse: a rule whose decisions vary, consulted alone in two places, has a run on which original and clone return different errors. |
| `SharedRules.AgreesIff` | error.go:551-592 | Where no two rules concern one call: original and clone agree over every run if and only if no rule that counts within d stands in two places. |
| `Injector.ConsultExact` | error.go:567-592 | A rule is consulted exactly when it matches and no earlier rule fired; the error is that of the rule that fired. |
| `Injector.CascadeClosedForm` | error.go:173-189 | Over any run, k consultations of a rule (k < 2^64) have produced k, min(k,1), max(0,k-N) or min(k,N) errors. |
| `Injector.CounterWraps` | error.go:173-189 | The bound is sharp: at the 2^64-th consultation the counter wraps around. |
| `Injector.RunAlike` | error.go:173-189 | Replacing Once by Next with N=1, or Always by AfterSuccesses with N=0, changes no error and no consultation of any run. |
| `ErrorRules.ErrorRule.ShouldReturnError` | error.go:173-189 | The decision and the new counter of each mode. |
| `ErrorRules.ErrorInjector.CheckAndApply` | error.go:567-592 | The operation's own list is tried first; if a rule of it fires, its error is the answer and no rule outside that list counts; only otherwise the list for all operations is tried, from the counters so reached. |
| `Injector.OwnListFirst` | error.go:571-590 | The same of the specification: which list decides, which error it gives, and whose counters change. |
| `Injector.FirstToFire` | error.go:571-590 | The first rule of the own list that fires gives its error and counts; no later rule and no rule for all operations does. |
| `Injector.OneRule` | error.go:156-171 | A single rule that always fires: its error comes from exactly the checks of its operation, or of any if it is for all, on a path that one of its matchers takes, matcher kind by kind. |
| `ErrorRules.ErrorInjector.AddForAllOps` | error.go:442-524 | Every valid operation gets a rule object of its own, fresh, at the end of its list; other lists stay. |
| `ErrorRules.ErrorInjector.CloneForSub` | error.go:551-563 | Every rule is cloned into a new object with fresh counters, list by list, for any order of the operations. |
| `ConcurrentInjection.Conservation` | error.go:567-592 | In every reachable state of every interleaving, a rule's fires plus passes are its consultations, and its fires are the closed form of them. |
| `ConcurrentInjection.HandOverAny` | error.go:567-592 | Whatever rules each call matches: the passes of a rule are the consultations right after them, plus the calls waiting to consult the next rule, plus the calls with no rule left. |
| `ConcurrentTotals.AtRest` | error.go:567-592 | Once no call is under way a rule has been consulted once for every call that begins there and once for every pass of a rule before it, if the rules that follow a rule are the same for all calls that come to it. |
| `ConcurrentTotals.TotalsDetermined` | error.go:567-592 | Then any two schedules of the same calls end with the same consultations and fires of every rule. |
| `ConcurrentTotals.TotalsAsSequential` | error.go:567-592 | They are the totals of the same calls made one after the other. |
| `ConcurrentInjection.TotalsDependOnOrder` | error.go:567-592 | For calls that part after a rule they need not be: two schedules of the same two calls with different totals. |
| `ConcurrentInjection.SequentialSchedule` | error.go:567-592 | A sequential run of checks is one of the interleavings, with the same counters and the same log. |
| `Tickets.StepTickets` | latency.go:128-188 | Every step keeps tokens plus holders at exactly one, for every handle and every simulator. |
| `Tickets.Exclusive` | mockfile.go:210-214 | No two goroutines are inside operations on one handle, and no two serialized sleeps of one simulator overlap. |
| `Tickets.SendsNeverBlock` | latency.go:160-181 | Returning a ticket never blocks on the one-place channel. |
| `Tickets.NoDeadlock` | latency.go:128-188 | While any goroutine has work left, some goroutine can step, however many handles share a simulator. |
| `Tickets.RunsKeepTickets` | mockfile.go:317-345 | Every reachable state has each ticket in exactly one place, and the number of steps is bounded by the initial work. |
| `Tickets.StuckMeansDone` | latency.go:128-188 | A reachable state in which nobody can step has no work left. |
| `Tickets.OnceAtMostOnce` | latency.go:153-170 | However many goroutines race, a Once call passes its flag at most once between two clearings. |
| `Tickets.FromFresh` | latency.go:128-188 | All of this from the start, with every ticket in its channel and nobody in a call: tickets, Once, the bound on schedules, and no deadlock. |
| `TicketSleeps.ChoosesAsSimulate` | latency.go:128-188 | A goroutine in a call goes to sleep, to the ticket or past it, and sets its Once flag, exactly as Simulate does for its simulator's durations and flags. |
| `TicketSleeps.SleepsExclude` | latency.go:153-188 | In every reachable state, of two goroutines asleep at one simulator at least one is Async, and both are in calls that have a duration. |
| `TicketSleeps.ResetClears` | latency.go:192-196 | When a call that resets comes to its end, every flag of its simulator has been cleared since it began, whatever the others have done meanwhile. |
| `Latency.LatencySimulator.Simulate` | latency.go:128-188 | What one call sleeps, with or without the ticket, which flag it sets, and that the ticket is back afterwards. |
| `Latency.SleptIs` | latency.go:135-187 | Which duration applies, with the one of OpUnknown as default, and when nothing is slept. |
| `Latency.OnceSleepsOnce` | latency.go:153-170 | Of two Once calls of one operation without a Reset between them at most one sleeps. |
| `Nodes.OverlaysCommute` | mockfile.go:468-479 | Overlays that do not meet commute. |
| `Nodes.MapFile.PutAt` | mockfile.go:468-479 | WriteAt's growing and copying in machine arithmetic: the overlay, a cut-short copy, or a panic. |
| `MockFile.MockFile.Read` | mockfile.go:317-345 | Read refines one step of the handle machine and fills the caller's buffer with what it reports. |
| `MockFile.MockFile.ReadAt` | mockfile.go:351-386 | ReadAt refines one step of the handle machine without moving the position. |
| `MockFile.MockFile.Write` | mockfile.go:391-434 | Write refines one step of the handle machine, which comes to what `HandleCalls.WriteComesTo` says; the node keeps its buffer or takes a new one. |
| `MockFile.MockFile.WriteAt` | mockfile.go:440-482 | WriteAt refines one step of the handle machine, checking the write mode before the rules. |
| `MockFile.MockFile.Seek` | mockfile.go:488-525 | Seek refines one step of the handle machine in 64-bit arithmetic. |
| `MockFile.MockFile.ReadDir` | mockfile.go:533-566 | ReadDir refines one step of the handle machine for all three kinds of handler. |
| `MockFile.MockFile.Stat` | mockfile.go:572-608 | Stat refines one step of the handle machine. |
| `MockFile.MockFile.Close` | mockfile.go:615-645 | Close refines one step of the handle machine: closed even when a rule makes it fail. |
| `Handles.FileRun` | mockfile.go:317-645 | Over every run of handle operations the position stays within 0..MaxInt64. |
| `Handles.FileRunLedger` | mockfile.go:317-645 | A handle's statistics are the record of its answers, with the bytes returned, over any run. |
| `Handles.ClosedIsDead` | mockfile.go:317-645 | After Close every call fails with ErrClosed and changes only the handle's statistics. |
| `Handles.SeekSucceedsIff` | mockfile.go:507-524 | An uninjected Seek succeeds exactly when the mathematical target lies in 0..2^63-1, and leads there. |
| `Handles.WriteAtIsOverlayIff` | mockfile.go:463-481 | WriteAt is the zero-padded overlay exactly when its end fits; beyond that it panics exactly when it starts behind the data. |
| `Handles.ReadAtAfterWriteAt` | mockfile.go:351-482 | ReadAt after WriteAt returns what was written, unless a rule fires. |
| `Handles.DisjointWritesCommute` | mockfile.go:440-482 | Positioned writes that do not meet can be swapped: same bytes, position, rule counters and statistics. |
| `Handles.ReadsYieldTheData` | mockfile.go:317-345 | From any position reads with any non-empty buffers yield exactly the data from there on, which is nothing behind the end. |
| `Handles.ReadsEndAtEOF` | mockfile.go:317-345 | From any position the k-th read reports EOF exactly when the buffers before it have used the data up. |
| `HandleCalls.RefusedFirst` | mockfile.go:440-556 | Calls on a closed handle, ReadDir on a file and WriteAt on a read-only handle are refused before the rules are asked and change only the statistics. |
| `HandleCalls.InjectedErrorReaches` | mockfile.go:317-645 | An injected error for the call's kind reaches the caller; bytes, position and cursor are as they were, and only Close closes the handle. |
| `HandleCalls.CallCounts` | mockfile.go:317-645 | Every call counts once for its kind, as a failure exactly if its answer holds an error, with the bytes it returned or wrote. |
| `HandleCalls.WriteComesTo` | mockfile.go:408-433 | Write when no rule fires: behind the old bytes with the position unmoved, or in their place with the position behind them, or Permission; appending beyond MaxInt64 panics. |
| `HandleCalls.AppendsAddUp` | mockfile.go:416-420 | Any number of appending writes leaves the old bytes followed by all of theirs in order. |
| `HandleCalls.LastWriteStays` | mockfile.go:422-428 | After any number of overwriting writes the bytes are those of the last one, and the position is behind them. |
| `HandleCalls.ReadComesTo` | mockfile.go:317-345 | Read when no rule fires: the stored bytes from the position on, at most as many as asked for, EOF only when there are none. |
| `HandleCalls.ReadAtComesTo` | mockfile.go:351-386 | ReadAt when no rule fires: the stored bytes from the offset on, with EOF when they are fewer than asked for; the position stays. |
| `HandleCalls.BadArguments` | mockfile.go:440-525 | WriteAt at a negative offset and Seek from nowhere fail and change nothing. |
| `HandleCalls.ReadDirComesTo` | mockfile.go:533-566 | ReadDir when no rule fires: the listing from the cursor on, all the rest for n <= 0, else at most n, with EOF at the end. |
| `HandleCalls.StatComesTo` | mockfile.go:572-608 | Stat when no rule fires: the last element of the name with the stored mode and time, and the size, which is 0 for a directory. |
| `HandleCalls.CloseComesTo` | mockfile.go:615-645 | Close when no rule fires closes the handle and changes nothing else. |
| `Pagination.FsCursor.Next` | mockfs.go:1198-1229 | The filesystem's closure answers as the page specification, overflow panic included. |
| `Pagination.StaticCursor.Next` | mockfile.go:678-710 | NewDirHandler's closure answers as the same page specification. |
| `Pagination.AskBoth` | mockfile.go:678-710 | Both closures give the same batches, EOF flags and panics to every sequence of requests. |
| `Pagination.BatchesAreAStretch` | mockfs.go:1198-1229 | The batches, one after the other, are the entries between the first and the last offset: none skipped, none repeated. |
| `Pagination.PositiveRequests` | mockfs.go:1198-1229 | With positive requests a page carries EOF exactly when the requests so far reach the end, and is short only then. |
| `Pagination.PageIs` | mockfs.go:1198-1228 | One page, case by case: all the rest for n <= 0 and never EOF then; else at most n, EOF exactly when the end is reached; a panic when the end of the page exceeds MaxInt64. |
| `Sessions.Perform` | mockfs.go:534-1118 | Whatever operation a filesystem performs is one step of the machine; keys that it does not name keep their nodes, and what it removes, renames or replaces is stored no more. |
| `Sessions.UseOnMap` | mockfile.go:391-482 | An operation on a handle changes the entry under the key that holds its node, or no entry at all. |
| `Sessions.Session.OnFs` | mockfs.go:534-1118 | An operation of one filesystem is one step of the machine there and changes no other's files; all stay separate, and handles on what it removed, renamed or replaced have lost their file. |
| `Sessions.Session.MakeSub` | mockfs.go:1263-1285 | A new sub-filesystem joins the session owning all its nodes, buffers, rules and counters alone. |
| `Sessions.Session.OnHandle` | mockfile.go:317-645 | An operation on a handle changes, of all files of all filesystems, the one the handle was opened on, if its node is still stored there. |
| `Sessions.Session.Run` | mockfs.go:534-1118 | Over all runs of calls on filesystems, sub-filesystems and handles, in any order: all stay separate, no node comes to be stored where it was not, each call has no effect on files but that of its operation where it names it, or on the file its handle was opened on, and handles that have lost their file change nothing. |
| `Sessions.Session.Separation` | mockfs.go:1278-1282 | In every such state no two keys, of one filesystem or of two, share a node or a buffer. |
| `Sessions.Session.RunDetached` | mockfs.go:534-1051 | After a Remove, RemoveAll, RemoveEntry, Rename or AddFile that takes away or replaces the file of a handle, and whatever is called afterwards, no call on the handle changes any file. |
| `Stats.StatsRecorder.Record` | stats.go:187-211 | Record counts the call, the failure and the transferred bytes modulo 2^64; negative byte counts are ignored. |
| `Stats.StatsRecorder.Snapshot` | stats.go:272-297 | Snapshot clamps every counter. |
| `Stats.StatsRecorder.FromSnapshot` | stats.go:164-183 | A recorder built from a snapshot holds the specified ledger. |
| `Stats.LedgerSums` | stats.go:187-211 | After any records each counter is the old one plus the calls, failures and bytes, modulo 2^64. |
| `Stats.LedgerExact` | stats.go:187-211 | From zero and below 2^64 the counters are exact, and failures never exceed totals. |
| `Stats.SuccessAgreesIff` | stats.go:320-473 | The recorder's and the snapshot's success counts agree if and only if the total is within MaxInt, nothing failed or everything did. |
| `Stats.DeltaTelescopes` | stats.go:535-550 | For any three snapshots: what happened since b is what happened since c less what had happened by b, in 64-bit arithmetic. |
| `Stats.DeltaCountsCalls` | stats.go:535-550 | Below MaxInt the delta across a run counts exactly the calls and failures of the run. |
| `Stats.DeltaCountsBytes` | stats.go:535-550 | Below MaxInt the delta across a run counts exactly the bytes the run has read and written. |
| `Stats.SnapshotExact` | stats.go:272-299 | A snapshot of counters within MaxInt shows them as they are, and both success counts are the calls less the failures. |
| `Stats.RebuildLosslessIff` | stats.go:164-183 | Rebuilding a recorder from a snapshot loses nothing if and only if all counters are within MaxInt. |

## Left out

- MockFS.MockFS.MoveChildren: the loop visits inserted keys again a number of times fixed beforehand, any number; Go allows an endless loop when a directory is renamed into itself, and that is not modelled.
- Rename.RenameKeepsTreeIff: the root as source or destination is excluded, and so are comparable paths.
- OrphanRuns.StepSkipsIff: renames whose outcome depends on the order of the loop are excluded, and renames of the root when it carries entries along, which needs keys that are no valid paths.
- ConcurrentTotals.TotalsDetermined: calls that meet at a rule and part again are excluded. `ConcurrentInjection.TotalsDependOnOrder` shows that their totals can depend on the schedule; for which modes they do is not decided.
- SubInjector.CloneSimulates: whether rules that get into each other's way hide the sharing of a rule that counts is not decided; `SharedRules.AgreesIff` is exact where no two rules concern one call.
- Sessions.Session.Run: one rule object in the injectors of two filesystems that Sub did not relate is excluded.
- SubRuns.SubBisimulation: operations on the root of the sub-filesystem itself are excluded, because a sub-filesystem always has its root entry while the parent can lose the directory.
- Injector.CascadeClosedForm: rules consulted 2^64 times or more; the counters wrap around there.
- OpenFiles.Open: files and listings longer than MaxInt64 cannot exist and are excluded.
- MockFile.MockFile.WriteAt: the limit on allocations below MaxInt64 is not modelled; an allocation that the machine refuses is a panic outside the model.
- Latency at the filesystem level: Simulate has no effect on files, rules or statistics, so the operations leave it out; `Tickets` and `Latency` model it on its own. Real time is not modelled.
- Races between a handle's lock and the filesystem's lock on one node: operations are atomic here, except for the ticket protocol and the counters of the error rules.
- `toBytes`: content is a byte sequence from the start.
- Regular expression and glob engines, and custom matchers, injectors, simulators and directory handlers.
- Validation of modes and counts when rules are made; nil errors; CheckAndApply called with OpUnknown itself.
- Permission bits beyond the stored value, error texts and PathError wrapping.
- Option setters, the Must and Fail wrappers, the names of operations, FileInfo accessors, MarkNonExistent, StatsAssertion and printing: they would add easy members only.
- `path.Base` for names that are not valid paths, which only handles made without a filesystem can have.
