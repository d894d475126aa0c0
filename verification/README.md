# Verification of the gNMI/gNOI target

A Dafny model of the parts of the gNMI/gNOI target (`gnxi`) that carry state, loops and recursion, with proofs about
them. `dafny verify dfyconfig.toml` checks everything.

| file | what it models |
|---|---|
| `Text.dfy` | strings and sequences as Go's standard library handles them |
| `XPath.dfy`, `KeyValues.dfy`, `PathText.dfy`, `PathGrammar.dfy`, `PrintExact.dfy` | the text of gNMI paths: splitter, key-value parser, parser, printer, exactly which texts are read as which paths, and how parser and printer undo each other |
| `FullPath.dfy` | a path under a prefix, with `.` and `..` |
| `Schema.dfy` | a schema node found from the elements of a path, and by the second scanner straight from its text |
| `Wildcards.dfy`, `Repeats.dfy` | `*` and `...` against the schema tree: two enumerators and a validator, and how often a node is listed |
| `DataSearch.dfy`, `SearchMeaning.dfy`, `SearchLoss.dfy` | the two searches of the data tree, one of which rewrites its own cursors, what a pattern finds, and what that search loses |
| `DataTree.dfy`, `Transaction.dfy`, `Rollback.dfy` | the Set transaction on the tree with its backup log, and the rollback that walks the log forwards |
| `Objects.dfy`, `ObjectSet.dfy`, `ObjectRun.dfy`, `ObjectRollback.dfy`, `ObjectWrite.dfy` | the same on the structs behind the tree, where old values are pointers: when it refines the tree, and what it does where it does not |
| `PushSync.dfy`, `PushTrace.dfy`, `PushLaw.dfy` | what is pushed to the external store for each target, all calls of a request and when it fails, and that the store stays in step with the tree |
| `ModelSet.dfy` | the Set RPC |
| `StateConfig.dfy` | how a difference is pushed to the external store through callbacks that may fail |
| `Certificates.dfy`, `CertServer.dfy` | certificate rotation: the lock protocol over many ids, the RPCs that drive it, and the mode of the target |
| `Telemetry.dfy`, `SubscriptionLoop.dfy` | the index of subscriptions, the events of a transaction, and the loop that counts and sends |
| `Aliases.dfy` | the two alias tables under server and client updates |

Objects that the Go code updates are classes here (`CertServer.Manager`, `CertServer.Target`, `ModelSet.Model`,
`StateConfig.ExternalStore`, `Telemetry.TeleCtrl`, `SubscriptionLoop.Subscription`, `Aliases.ClientAliases`,
`DataSearch.Cursor`); loops over text and lists are methods with loops. Each method is tied to a function of its inputs
or of the old state, and the theorems are about these functions over every input, every run or every interleaving. Go
maps are walked in an arbitrary order.

## Assumptions of the model

- A string is a sequence of characters. Go indexes bytes; every character that the code looks for is ASCII.
- ygot, ytypes and ydb are replaced by a tree from paths to leaves and list entries. A container is there as long as
  something is below it. What a value decodes to, whether a push is accepted, whether a node is read-only, the clock,
  the PEM decoder, the trie's match relation and what `Get` and `ListAll` find are parameters.
- `PushSync.ListsBelow` is what is taken of `ListAll`: it depends on what is at the path and below only, finds nothing
  where nothing is, and no less where there is more.
- `ObjectSet.Writes` is what is taken of `ytypes.Unmarshal` and `ytypes.SetNode`: they write into the structs that are
  there, make those that are missing, and touch no others; there is such a writer (`ObjectWrite.WriterExists`).
  `ObjectSet.Fits` is what is taken of a decoded value: exactly list entries have keys, and a node below an entry comes
  with that entry. `ModelSet.FindsThere` is what is taken of `Get`: what it returns is there.
- For the external store, `PushLaw.SchemaLeaves` says that leaves have no keys and nothing below them, and different texts,
  and `PushLaw.ListsLeaves` that `ListAll` lists exactly the leaves below a path, besides nodes that are no leaves, and that
  a store that deletes a listed node takes away nothing but what is below that path (`PushLaw.ListerExists`: this can be
  met). The trees and values of a request have leaves where the schema has (`PushLaw.Typed`, `PushLaw.TypedTarget`).
- Pointers are followed without a step of their own. Under a trailing `...` the second loop of `findAllData` moves cursors
  that are already in its result from a pointer to the struct behind it (`gnmi/model/utilities.go:124-127`, `261-263`), so
  the agreement of the two data searches holds up to following pointers.
- `ytypes.DeleteNode` does nothing for an empty path. SetDelete treats the root by itself
  (`gnmi/model/set.go:136-139`), SetReplace does not, so what is said about a replace of the root rests on that.
- One critical section is one step. A notification is a pending step that reads the counts when it fires.
- An old value is what `Get` returned: nil, the value of a leaf, or a pointer to a struct, which has the content of that
  struct when it is written back (`ObjectSet.Revert`). On the tree (`Transaction.Held`) that is a snapshot for a struct
  that the operation takes out, and for one that stays in the tree a mark that undoing it does nothing.

## Where the code differs from what it is documented to do

- An identifier may start with a digit (section 6.2 of RFC 6020 does not allow that), and an element without brackets
  may hold `=`: `PathText.NameExact`.
- `ToXPath` does not escape brackets, so not every path that it prints is read back: `PrintExact.PrintableExact` says which
  are.
- The comment on the splitter says that the first unescaped `]` ends a pair (`utilities/xpath/xpath.go:51-73`); the
  parser counts brackets that nest: `KeyValues.RawValueExact`.
- mergePaths guards a `..` above the root by a length below zero, which no length is (`utilities/xpath/path.go:116-121`):
  `FullPath.MergeExact` says exactly when there is a result.
- The text scanner never resolves the text of a path with several keys in an element: `Schema.SeveralKeysNotFound`; that
  is the only way in which it differs from the structured lookup: `Schema.ScannerExact`.
- With two `...` a schema path can be listed twice (`Wildcards.TwoDotsRepeat`), as often as it can be divided among the
  elements (`Repeats.ListedPerWidths`), and exactly such patterns do that: `Repeats.OneDotsExact`.
- A name right after `...` makes `findAllData` lose nodes (`DataSearch.ListAfterDotsLoses`). It never finds too much
  (`SearchLoss.NeverInvents`), and exactly such patterns lose: `SearchLoss.AgreeExactly`.
- Rollback walks the log forwards, leaves created list entries above a missing target, skips nodes whose name occurs in
  the key text of the parent, and does not undo container updates or a replace of the root: `Rollback.RollbackExact`,
  `ObjectRollback.RestoredExact` and `Transaction.MissingTargetExact` say exactly when that shows. Where targets lie at or
  below each other the last entry wins (`Transaction.TwiceUpdated`), a container whose struct was put out of its place keeps
  the updated content (`ObjectRollback.RollbackYields`), and a container that a request makes and updates is not rolled
  back at all (`ObjectRollback.MadeThenUpdated`). Section 3.4.3 of the gNMI specification asks for the original
  configuration.
- A deleted leaf is not pushed to the external store, and a replaced leaf is pushed as a new one:
  `PushSync.LeafChangesPushed`. The delete of a leaf is exactly what takes the store out of step:
  `PushSync.OperationPushedExact`. For the pushes of the rollback see `PushSync.CompensationExact`. The key leaves of a
  list entry that is made on the way to a target are not pushed: `PushLaw.NewEntryOutOfStep`.
- A refused delete or write of the startup push leaves the store without its end call; `StateConfig.LoadLeavesBusy` says
  for which answers of the store.
- A load that cannot be decoded leaves its id locked for good: `Certificates.LoadSticks`, `Certificates.StuckForever`.
  It can also provision the target without notifying it: `Certificates.ModeStepExact`.
- A rollback can drop a CA bundle that another operation loaded meanwhile: `Certificates.RollbackDropsBundle`.
- A third tick that is taken before the first is processed blocks a subscription for good:
  `SubscriptionLoop.BlockedExactly`, `SubscriptionLoop.BlockedForGood`.
- A subscription that is stopped after a change that concerns it and before the transaction is completed leaves an event for
  a queue that is closed, and sending to a closed queue is fatal: `Telemetry.TeleCtrl.ChangeCompleted`,
  `Telemetry.StoppedBetween`.
- A server alias for a path that already has an alias breaks the inverse: `Aliases.StepInverseExact`.

## Model

| member | source | states |
|---|---|---|
| XPath.SplitPath | utilities/xpath/xpath.go:74-127 | the index loop over begin, end and insideBrackets yields the pieces that `Split` defines character by character, and its error |
| XPath.SplitExact | utilities/xpath/xpath.go:74-127 | it fails exactly when brackets stay open; otherwise it yields the one way to read the text as well-formed pieces separated by runs of slashes, both directions |
| XPath.SplitSlashed | utilities/xpath/xpath.go:74-127 | well-formed pieces printed with a slash before each are split back into themselves |
| XPath.SplitNormalises | utilities/xpath/xpath.go:74-127 | every piece is non-empty and ends outside brackets, and joining the pieces by `/` and splitting again changes nothing, for every text |
| XPath.ReadPastBoundary | utilities/xpath/xpath.go:74-127 | past a place outside brackets the text is split as if it stood alone |
| KeyValues.PairMeaning | utilities/xpath/xpath.go:33-39 | the pattern for a pair is met exactly by a bracketed identifier, `=` and a non-empty value |
| KeyValues.ParseKeyValueString | utilities/xpath/xpath.go:139-189 | the bracket-counting loop yields the pairs that `Pairs` defines by the first closing bracket of each, later ones replacing earlier ones, or its error |
| KeyValues.ReadPairs | utilities/xpath/xpath.go:139-189 | printed pairs are all read, in whatever order they come |
| KeyValues.LaterReplaces | utilities/xpath/xpath.go:139-189 | of several pairs with the same key the last one counts, with the escapes of its value undone, and exactly the keys of the pairs are read |
| KeyValues.PairsExact | utilities/xpath/xpath.go:139-189 | a text is no error if and only if it is a sequence of pairs and nothing else, each with an identifier and a value that is not empty, does not end in a backslash, and whose brackets nest but for those behind a backslash |
| KeyValues.EscapesRecovered | utilities/xpath/xpath.go:49-58 | a value with its brackets escaped is read back as it was exactly when it is not empty and does not end in a backslash, also when it holds backslash-bracket pairs itself |
| KeyValues.RawValueExact | utilities/xpath/xpath.go:139-189 | a value printed as it stands is read back exactly when it is not empty, does not end in a backslash, and its brackets nest and follow no backslash |
| KeyValues.NeverCloses | utilities/xpath/xpath.go:160-183 | a backslash at the end of a value escapes the closing bracket, and the text is an error |
| PathText.ParseStringPath | utilities/xpath/xpath.go:267-285 | the parsed parts of all pieces in order, or the first error |
| PathText.ToGNMIPath | utilities/xpath/path.go:185-209 | the loop that appends elements and sets keys on the last one yields `PathOf`, or its error |
| PathText.ToSchemaPath | utilities/xpath/path.go:212-229 | the names of the parsed parts, each led by a slash |
| PathText.ToXPathElem | utilities/xpath/path.go:264-281 | an element prints its name and its pairs in some order of its keys |
| PathText.ToXPath | utilities/xpath/path.go:257-284 | what is printed is the text of the path for some order of the keys of each element |
| PathText.PrintedReads | utilities/xpath/path.go:257-284 | text printed in any key order is read back with the escapes of its values undone |
| PathText.PrintThenParse | utilities/xpath/path.go:185-209 | print then parse gives back exactly the path, for identifiers as names and non-empty bracket-free values that do not end in a backslash, in every key order |
| PathText.EscapePrintParse | utilities/xpath/path.go:185-209 | with its brackets escaped first every path comes back whose values are not empty and do not end in a backslash |
| PathText.NameExact | utilities/xpath/xpath.go:212-236 | a text without slashes and opening brackets is read as a name exactly if it is a letter, digit or `_` followed by letters, digits, `_`, `-` or `.`, or `.`, or `..`, or holds `=` but not first; any other is an error |
| PathText.ListNameExact | utilities/xpath/xpath.go:238-247 | a list element with a plain value is read exactly if its name and its key are such characters; else it is an error |
| PathGrammar.PathExact | utilities/xpath/path.go:185-209 | a text is read as a path if and only if it splits into as many pieces as the path has elements, each of them the text of its element: a name, or an identifier and pairs that say its keys |
| PathGrammar.SchemaPathExact | utilities/xpath/path.go:212-229 | the same texts have a schema path, and it is the names of that path, each led by a slash |
| PrintExact.PrintableExact | utilities/xpath/path.go:257-284 | without escaping, a path whose names and keys are identifiers comes back if and only if every value is not empty, does not end in a backslash, nests its brackets and keeps its slashes enclosed as the splitter sees them; any number of elements and keys, in every key order |
| PrintExact.PiecesAsPrinted | utilities/xpath/xpath.go:74-127 | and whatever path comes back was split into exactly the pieces that were printed, by the length that each piece needs |
| FullPath.MergePaths | utilities/xpath/path.go:108-127 | the loop that pushes and pops elements yields `Merge`, or leaves the slice |
| FullPath.MergeExact | utilities/xpath/path.go:108-127 | there is a result exactly when the path never climbs above the root; it has the length that its steps add up to, and keeps of the prefix as much as was never left |
| FullPath.StepsCancel | utilities/xpath/path.go:108-127 | a step down and up again, or a `.`, anywhere in a path makes no difference |
| FullPath.MergeFromRoot | utilities/xpath/path.go:108-127 | a plain prefix and a path merge as one path from the root does |
| FullPath.GNMIFullPath | utilities/xpath/path.go:130-149 | without a prefix the path itself, with one the merged path |
| Schema.FindSchemaByRelativeGNMIPath | gnmi/model/mo.go:169-187 | the node that the names of the elements lead to, or nil |
| Schema.FindSchemaByRelativeXPath | gnmi/model/mo.go:94-161 | the loop over begin, end, insideBrackets and entry looks up the names that `ScanTo` collects, stopping at the first that is missing |
| Schema.ScannerRefinesLookup | gnmi/model/mo.go:94-187 | on the text of a path with at most one key an element the scanner and the structured lookup agree, found or nil, in every key order |
| Schema.SeveralKeysNotFound | gnmi/model/mo.go:94-161 | the text of a path with two keys or more in any element is never resolved, whatever comes before and after |
| Schema.ScannerExact | gnmi/model/mo.go:94-187 | scanner and structured lookup agree on a path if and only if no element has several keys, or it leads nowhere, in every key order |
| Wildcards.FindSchemaPath | gnmi/model/model.go:393-430 | the recursion lists the text of every node of `Nodes`, in its order, under a measure of tree height and pattern length |
| Wildcards.NameWithKeys | gnmi/model/model.go:466-490 | the keys of an element as text, up to the first that is missing or `*` |
| Wildcards.FindPaths | gnmi/model/model.go:447-498 | the same nodes, written with the keys of the pattern |
| Wildcards.ValidatePathSchema | gnmi/model/model.go:308-338 | the validator accepts a pattern exactly when the enumerator finds something |
| Wildcards.ValidateChildren | gnmi/model/model.go:310-324 | the loops over the children accept exactly when something is listed under the wildcard |
| Wildcards.NodesSound | gnmi/model/model.go:393-430 | every listed node matches the pattern: a width for each element, one for a name or `*`, one or more for `...` |
| Wildcards.NodesComplete | gnmi/model/model.go:393-430 | every path that matches with some widths is listed |
| Wildcards.EnumerationExact | gnmi/model/model.go:393-430 | a path is listed if and only if it matches, over every finite schema tree |
| Wildcards.ListedIffMatched | gnmi/model/model.go:308-338 | something is listed, so the validator accepts, exactly when some path matches |
| Wildcards.SchemaPathsExact | gnmi/model/model.go:378-430 | the same for the texts that findSchemaPath returns |
| Wildcards.WildcardsExact | gnmi/model/model.go:400-417 | `*` lists exactly the nodes one level down and `...` exactly those on any level below |
| Wildcards.NodesNoRepeats | gnmi/model/model.go:400-417 | with at most one `...` no node is listed twice, by the number of levels that `...` must absorb |
| Wildcards.SchemaPathsOnce | gnmi/model/model.go:400-417 | with at most one `...` no text is listed twice |
| Wildcards.TwoDotsRepeat | gnmi/model/model.go:400-417 | a tree and a pattern with two `...` for which one is |
| Repeats.ListedPerWidths | gnmi/model/model.go:393-430 | a path is listed exactly as often as there are ways to divide it among the elements of the pattern |
| Repeats.NoRepeatsExact | gnmi/model/model.go:393-430 | over a given tree no node is listed twice if and only if no path has two such ways |
| Repeats.OneDotsExact | gnmi/model/model.go:400-417 | a pattern lists no node twice over any tree if and only if it has at most one `...` |
| Wildcards.KeysRemoved | gnmi/model/model.go:433-498 | taking the keys out of the i-th path of findPaths gives the i-th path of findSchemaPath |
| Wildcards.KeyTextExact | gnmi/model/model.go:484-495 | the keys are printed in the order of the schema, exactly as many as come before the first that is missing or `*` |
| Wildcards.KeysExact | gnmi/model/model.go:478-483 | a key that occurs nowhere in the key text of its node makes the element list nothing; any other keys make no difference to what is listed |
| DataSearch.FindAllData | gnmi/model/utilities.go:230-282 | the search over cursors finds the values of `Found`, and leaves its cursor where `After` says |
| DataSearch.Cursor.FindChildren | gnmi/model/utilities.go:216-227 | the children of a name, the entries for a list, and the cursor moved to that list |
| DataSearch.Cursor.GetAllChildren | gnmi/model/utilities.go:120-214 | the loop over the fields with its two buckets yields, through fresh cursors, the plain fields and then the entries of all lists |
| DataSearch.FindTwice | gnmi/model/utilities.go:254-266 | the two loops under `...` over the same cursors, in the values they find |
| DataSearch.SearchesAgree | gnmi/model/utilities.go:230-369 | both searches find the same values equally often, for every tree and every pattern with no list name right after a `...` |
| SearchMeaning.FoundInParts | gnmi/model/utilities.go:309-369 | a pattern of two parts finds, in this order, what the second part finds from what the first part finds |
| SearchMeaning.StarFinds | gnmi/model/utilities.go:326-336 | `*` finds the fields of a struct, and for a list its entries |
| SearchMeaning.NameFinds | gnmi/model/utilities.go:354-369 | a name finds the field of that name, or the entries of the list, and with keys the entry that has them |
| SearchMeaning.DotsAreStars | gnmi/model/utilities.go:337-351 | `...` finds exactly what one or more `*` find |
| DataSearch.CursorStays | gnmi/model/utilities.go:216-266 | under such a pattern the first loop leaves the cursors that the second one reuses alone |
| DataSearch.ChildrenReached | gnmi/model/utilities.go:309-347 | to findAllDataNodes a list and its entries are the same, up to the order |
| DataSearch.ListAfterDotsLoses | gnmi/model/utilities.go:216-266 | a tree on which findAllData loses a node that findAllDataNodes finds, by a list name right after `...` |
| SearchLoss.NeverInvents | gnmi/model/utilities.go:230-369 | for every tree and every pattern, findAllData finds no value more often than findAllDataNodes does |
| SearchLoss.NameAfterDotsLoses | gnmi/model/utilities.go:216-266 | for every pattern with a name right after `...` there is a tree on which it finds fewer |
| SearchLoss.AgreeExactly | gnmi/model/utilities.go:230-369 | the two searches agree on all trees if and only if the pattern has no name right after a `...` |
| DataTree.GetOrCreateNode | gnmi/model/utilities.go:786-818 | the loop over the elements creates exactly the missing list entries with their key leaves |
| DataTree.WriteTypedAnchored | gnmi/model/utilities.go:843-877 | below existing list entries, writing changes nothing outside its target |
| DataTree.WriteValueAt | gnmi/model/utilities.go:821-840 | below existing list entries, writing back puts exactly the old nodes at the target and changes nothing else |
| DataTree.CreateNothing | gnmi/model/utilities.go:786-818 | getting a node whose list entries exist creates nothing |
| DataTree.DeleteValueExact | gnmi/model/utilities.go:943-960 | a node of the schema is deleted with everything below it, unless it is the root or its name occurs in the key text of its parent; anything else is left |
| DataTree.UnresolvedWrite | gnmi/model/utilities.go:843-877 | a value for a path that leaves the schema makes the list entries on the part that does not, and nothing more |
| Rollback.CreatedExact | gnmi/model/utilities.go:786-818 | creating a path makes exactly its missing list entries, each with a leaf for every key that has the value of the key, and takes nothing away |
| Transaction.WrittenExact | gnmi/model/set.go:117-264 | an operation that succeeds leaves at its target nothing (delete), the decoded value only (replace), or the decoded value over what was there (update), with the key leaves of the entry it names |
| Transaction.WrittenOutside | gnmi/model/set.go:117-264 | an operation changes nothing outside its target, also when it fails |
| Transaction.TargetsKeepLog | gnmi/model/set.go:117-264 | over all targets of an operation, outside the logged targets the tree is the one at the start and every log entry holds what was there at the start |
| Transaction.OpKeepsLog | gnmi/model/set.go:117-264 | the same for one operation, with a missing target logged as nil |
| Transaction.RunKeepsLog | gnmi/server/server.go:444-482 | the same for every request, up to the operation that fails |
| Transaction.UndoCommutes | gnmi/model/set.go:77-109 | undoing entries of unrelated targets commutes, so the forward walk is as good as a backward one |
| Transaction.UndoAllExact | gnmi/model/set.go:77-109 | a log of unrelated targets walked forwards gives back the tree at the start exactly when no entry whose undoing does nothing was changed |
| Transaction.RollbackRestores | gnmi/model/set.go:77-109 | deletes of any node, replaces of any node but the root and updates of leaves are always rolled back, for pairwise unrelated targets whose list entries existed |
| Rollback.RollbackExact | gnmi/server/server.go:444-482 | for a request with pairwise unrelated targets under list entries that exist, whichever operation failed: restored if and only if every updated container, and every new node that DeleteValue skips, was given nothing but cells that were there, in a list entry that was there |
| Rollback.LastEntryWins | gnmi/model/set.go:77-109 | the walk over any log on the tree, where updated containers are left alone: it leaves at every path what the last entry at or above it holds, or a list entry made anew on the way to a later one, and the rest as it was, so it restores a tree if and only if that is what the tree had |
| Rollback.WalkIs | gnmi/model/utilities.go:786-840 | which list entries are there after the walk, also when it takes them away and makes them again |
| Objects.EnsureSees | gnmi/model/utilities.go:786-818 | on the structs, getting or creating a node shows the tree with exactly the missing list entries created |
| Objects.EnsureTame | gnmi/model/utilities.go:786-818 | it leaves every struct in its place and touches none outside the tree |
| Objects.WriteStructShows | gnmi/model/utilities.go:821-840 | writing a pointer back shows what its struct holds then, and nothing changes if the struct is still in its place |
| Objects.WriteLeafSees | gnmi/model/utilities.go:821-840 | writing a leaf back shows that leaf and takes away what was below it |
| Objects.RemoveTree | gnmi/model/utilities.go:944-960 | deleting a node takes it out of the tree and leaves the struct that was there as it is |
| ObjectSet.RevertRefines | gnmi/model/set.go:77-109 | as long as no updated struct loses its place, walking the log on the structs shows what walking it on the tree gives, although old values share structs with the tree |
| ObjectRun.RequestRefines | gnmi/server/server.go:444-482 | so does running a request on the structs and rolling it back |
| ObjectRollback.RevertYields | gnmi/model/set.go:77-109 | and where a struct loses its place, its entry is an old value with the updated content |
| ObjectRollback.RestoredExact | gnmi/server/server.go:444-482 | on the structs, for unrelated targets: the tree is restored if and only if no updated container and no new node that DeleteValue skips was given anything that was not there |
| ObjectRollback.RollbackYields | gnmi/server/server.go:444-482 | for targets that lie at, above or below each other: each path goes back to where the last operation on it began, but a container that lost its place keeps what the request made of it, and missing list entries are made anew; the start is restored if and only if that is what it had |
| ObjectRollback.MadeThenUpdated | gnmi/model/set.go:213-264 | a request that makes a container and updates it again leaves its whole effect after the rollback |
| Transaction.MissingTargetExact | gnmi/model/utilities.go:944-960 | rolling back one missing target restores the tree exactly when the list entries it needed existed and, if its name occurs in the key text of the parent, nothing was written |
| Transaction.TwiceUpdated | gnmi/model/set.go:77-109 | two updates of the same leaf roll back to the tree after the first one |
| ModelSet.Model.ExecuteStateConfig | gnmi/model/set.go:276-315 | with a store, one bracketed push of the difference between the nodes that the old value has now and those of the tree, and what the store holds if all is accepted; without a store, nothing |
| ModelSet.Model.DeleteTarget | gnmi/model/set.go:123-149 | one round of SetDelete is `ObjectSet.Take`; it fails exactly if the target is refused or cannot be deleted or its push is refused; the store gets exactly one push for a deleted target and none for any other |
| ModelSet.Model.ReplaceTarget | gnmi/model/set.go:181-208 | one round of SetReplace is `ObjectSet.Take`, with the same for its failure, which is also a path outside the schema or a value that does not decode, and for its push |
| ModelSet.Model.WriteTarget | gnmi/model/set.go:220-262 | so is one round of SetUpdate, and the missing target of SetReplace and SetUpdate |
| ModelSet.Model.SetEdit | gnmi/model/set.go:117-264 | each of the three operations is `ObjectSet.TakeOp` on the targets and old values found at its start, and the store gets the pushes of its targets one after the other |
| ModelSet.Model.Restore | gnmi/model/set.go:84-95 | one entry is undone on the structs, and it is an error only outside the schema |
| ModelSet.Model.SetRollback | gnmi/model/set.go:77-109 | the whole log is undone and cleared; the store gets one push for each entry that was executed and is no error to undo; a leaf in step with the tree before is in step after, if the store accepts what it is told and the walk takes the leaf away from no one unseen |
| ModelSet.Model.SetDone | gnmi/model/set.go:44-74 | with a store the log is undone and cleared; without one nothing happens |
| ModelSet.Model.Next | gnmi/server/server.go:454-461 | after a failure an operation is aborted, otherwise it runs on the tree as it is now |
| ModelSet.Model.AllEdits | gnmi/server/server.go:454-482 | deletes, replaces, updates in this order, each on the tree as it is then, with one outcome each and the pushes of all that were run |
| ModelSet.Model.Set | gnmi/server/server.go:444-489 | it fails if and only if something is wrong with a target that the last operation reaches; outcomes are done up to that, failed there, aborted after it; a failed request is rolled back, and one that can be restored leaves what is seen of the structs unchanged; the calls of the store are those of its operations and of the rollback; without a failure every leaf that no target harms and that was in step with the old tree is in step with the tree that the request wrote |
| ModelSet.RequestFails | gnmi/server/server.go:444-482 | the failure and the outcomes of a request, over the fields of the targets: read-only, unreadable text with an old value, not deletable, outside the schema, a value that does not decode, or a refused push |
| ModelSet.RequestMarks | gnmi/model/set.go:117-264 | all entries of the log are marked executed but the last one of a request that failed with it |
| PushTrace.OpFails | gnmi/model/set.go:117-264 | an operation fails if and only if something is wrong with a target that it reaches |
| PushTrace.TakeMarks | gnmi/model/set.go:117-264 | a target that is refused is not logged; any other is, and is marked executed exactly if it was changed and its push accepted |
| PushLaw.PushedAt | gnmi/model/set.go:276-315 | which leaves are in step after one push, below the path, at it, and elsewhere |
| PushLaw.TargetInStep | gnmi/model/set.go:117-264 | a leaf in step before a target is in step after it and its push if and only if it is not the deleted target itself, and not a leaf outside the target that the target changed |
| PushLaw.NewEntryOutOfStep | gnmi/model/set.go:276-315 | the key leaf of a list entry that is made on the way to a target is out of step |
| PushLaw.RequestInStep | gnmi/server/server.go:444-482 | over a whole request without failure: a leaf in step before it, that no target deletes and no target makes with a new list entry, is in step with the tree it wrote, however the targets of different operations lie to each other |
| PushLaw.RollbackInStep | gnmi/model/set.go:77-109 | a leaf in step before the walk back is in step after it, if the store accepts what it is told and no entry takes the leaf away unseen |
| ModelSet.RequestReady | gnmi/server/server.go:444-482 | what this loop runs meets the conditions under which running on the structs is running on the tree |
| ModelSet.OldListAlike | gnmi/model/set.go:276-284 | the nodes listed for an old value on the structs are those listed for it on the tree |
| PushSync.LeafChangesPushed | gnmi/model/mo.go:319-350 | a deleted leaf pushes no call, and a changed leaf is pushed as a creation |
| PushSync.TargetPushedExact | gnmi/model/set.go:276-315 | a store in step with the tree at a target is in step after the push if and only if the old value was no leaf that is gone, and no container changed in place that lists less |
| PushSync.OperationPushedExact | gnmi/model/set.go:117-264 | after any operation that succeeds, for a missing target, a leaf or a container: the store stays in step if and only if the operation is not the delete of a leaf |
| PushSync.CompensationExact | gnmi/model/set.go:77-109 | the push of the rollback keeps the store in step for a deleted node and a new container, not for a new leaf, and for a container written back if and only if it lists again all that it listed |
| StateConfig.MapDataAndPath | gnmi/model/set.go:266-274 | every path leads to the first node that has it |
| StateConfig.ExecuteStateConfig | gnmi/model/set.go:276-315 | on every exit the calls are Start, a prefix of the deletes and then the writes, and End, up to the first refusal; without one the store holds what all of them make of it |
| StateConfig.CallsExact | gnmi/model/set.go:289-310 | a node only in the old list is deleted, one only in the new list is created, one in both is replaced, and nothing else is called |
| StateConfig.PushBrackets | gnmi/model/set.go:285-314 | Start is called once and first, End once and last, on every exit |
| StateConfig.PushKeepsIdle | gnmi/model/set.go:285-314 | a store that waits for no End before a push waits for none after it |
| StateConfig.ScriptEffect | gnmi/model/set.go:289-310 | at any path the script leaves the last new value, nothing where a deleted node takes the path away, and else what was there, whatever a delete removes besides its node |
| StateConfig.PushesNewState | gnmi/model/set.go:276-315 | a part of the store that held exactly the old nodes holds exactly the new ones, and the rest is unchanged but for what goes with a deleted node |
| StateConfig.PushesNewStateExact | gnmi/model/set.go:276-315 | where the store had other nodes than the push takes for the old ones, it holds exactly the new nodes afterwards if and only if each node it had is a new one or goes with a deleted one |
| StateConfig.CreatesAreNew | gnmi/model/set.go:299-305 | a node is created only where the store has nothing |
| StateConfig.LoadPush | gnmi/model/model.go:98-140 | the calls of the startup push are those of the script for the first nodes of both lists, over the maps in any order, up to the first refusal, after which there is no End |
| StateConfig.LoadAgrees | gnmi/model/model.go:98-140 | for distinct paths the startup push and executeStateConfig leave the same store |
| StateConfig.LoadLeavesBusy | gnmi/model/model.go:117-133 | the store is left waiting for End if and only if the first call that it refuses is one of the calls after Start, one for each path only in the old list and one for each path of the new one |
| Certificates.ValidRun | gnoi/cert/manager.go:125-205 | in every interleaving whoever is in the middle of an operation holds the lock and the entry is there |
| Certificates.OpenUntouched | gnoi/cert/manager.go:125-184 | no step but its own closure changes the entry or the ticket of an open rotation |
| Certificates.OpenThroughRun | gnoi/cert/manager.go:125-263 | the same over every run |
| Certificates.InstallingThroughRun | gnoi/cert/manager.go:188-195 | nothing but its own accept changes an install in progress, over every run |
| Certificates.RollbackRestores | gnoi/cert/manager.go:161-170 | after any interleaving a rollback puts back exactly the entry held when the rotation began, changes no other id, and frees the lock |
| Certificates.RollbackRestoresBundle | gnoi/cert/manager.go:145-170 | it also restores the CA bundle when no other load or rollback replaced the bundle in between |
| Certificates.IdsDoNotInterfere | gnoi/cert/manager.go:125-263 | to every other id a run looks as if no step on this id had been taken |
| Certificates.LoadSticks | gnoi/cert/manager.go:135-160 | a load leaves a stuck lock exactly when it is admitted but cannot be decoded |
| Certificates.StuckForever | gnoi/cert/manager.go:135-160 | nothing ever frees a stuck lock or changes its entry |
| Certificates.RollbackDropsBundle | gnoi/cert/manager.go:145-170 | a rollback throws away the bundle that an install on another id loaded meanwhile |
| Certificates.LoadedBundle | gnoi/cert/manager.go:147-160 | a load that goes all the way leaves the CA certificates that it was sent, in their order, for an install as for a rotation; without any the bundle stays |
| Certificates.LoadRefused | gnoi/cert/manager.go:125-138 | a load changes nothing exactly if the id is locked, an install finds an entry, or a rotation finds none |
| Certificates.ModeFollowsCredentials | gnoi_target/gnoi_target.go:63-86 | over every run, whenever no notification is pending the target is bootstrapping exactly when certificates or CA certificates are missing |
| Certificates.ModeStepExact | gnoi/cert/manager.go:139-182 | the condition of that is exact: the mode goes wrong exactly on the first install with a CA certificate that cannot be decoded while an old bundle is there |
| Certificates.SilentlyProvisionedRun | gnoi/cert/manager.go:139-182 | a run from the start in which that happens |
| CertServer.Target.Notify | gnoi_target/gnoi_target.go:63-86 | the server is the one for the mode, the mode the one for the counts, and a new server starts exactly on a switch |
| CertServer.Manager.constructor | gnoi/cert/manager.go:55-63 | a manager starts without certificates |
| CertServer.Manager.Update | gnoi/cert/manager.go:125-184 | the whole new state, with the partial changes of a failed decoding, and what the closures hold on to |
| CertServer.Manager.InstallLoad | gnoi/cert/manager.go:188-192 | the first half of Install is its step of the protocol |
| CertServer.Manager.InstallAccept | gnoi/cert/manager.go:172-176 | so is its accept |
| CertServer.Manager.Rotate | gnoi/cert/manager.go:198-200 | so is Rotate, which hands out closures exactly when it succeeds |
| CertServer.Manager.Accept | gnoi/cert/manager.go:172-176 | so is the accept of a rotation |
| CertServer.Manager.Rollback | gnoi/cert/manager.go:161-170 | so is its rollback |
| CertServer.Manager.Revoke | gnoi/cert/manager.go:241-263 | exactly the existing unlocked ids are revoked, each once, and every other id asked for is reported |
| CertServer.Manager.Notify | gnoi/cert/manager.go:96-107 | a notification reads the counts as they are when it fires |
| CertServer.Manager.TakeAll | gnoi/cert/manager.go:125-263 | the object runs any interleaving of steps as the protocol does |
| CertServer.Rotate | gnoi/cert/server.go:182-326 | among any steps of others, an RPC that sends its load response runs exactly one closure, accept if and only if FinalizeRequest arrives, and before that none |
| CertServer.RpcOutcome | gnoi/cert/server.go:182-326 | with others at work, a rolled-back RPC leaves the entry from before its load and an accepted one the certificate it was sent, unlocked; if nothing else replaces the bundle meanwhile, an accepted RPC leaves the CA certificates it was sent and a rolled-back one the bundle from before |
| CertServer.UnsentOutcome | gnoi/cert/server.go:282-301 | an RPC that cannot send its load response leaves the new certificate, and its id locked for good |
| CertServer.Install | gnoi/cert/server.go:56-179 | the certificate is installed exactly when the exchange reaches a load that succeeds, and the client is told so only if the response can be sent |
| CertServer.InstallOutcome | gnoi/cert/server.go:56-179 | an install that is let in leaves its certificate and no lock, whatever others do and also without a response, and its CA certificates if nothing else replaces the bundle |
| Telemetry.TeleCtrl.constructor | gnmi/server/subscribe.go:41-47 | no registrations, no changes |
| Telemetry.TeleCtrl.Register | gnmi/server/subscribe.go:49-70 | the index stays exactly that of the registrations, with this one more |
| Telemetry.TeleCtrl.Unregister | gnmi/server/subscribe.go:72-89 | so does it with this id taken away everywhere |
| Telemetry.IndexDetermined | gnmi/server/subscribe.go:49-89 | the registrations determine the index: who is under a path, and that no set is empty |
| Telemetry.RegisterAgain | gnmi/server/subscribe.go:454-462 | registering again adds the new paths and is idempotent on the old ones |
| Telemetry.UnregisterForgets | gnmi/server/subscribe.go:72-89 | an unregistered id is nowhere, and the others stay where they are |
| Telemetry.TeleCtrl.ChangeStarted | gnmi/server/subscribe.go:92-97 | no event is under construction |
| Telemetry.TeleCtrl.UpdateTeleEvent | gnmi/server/subscribe.go:99-129 | each event gets the path once for every matching entry of the index that has its subscription, whatever order they come in |
| Telemetry.TeleCtrl.Changed | gnmi/server/subscribe.go:132-180 | the events stay those of the changes so far: the path is searched as it is and, with keys, without them; an unreadable path is nothing |
| Telemetry.TeleCtrl.Stop | gnmi/server/subscribe.go:465-472 | the subscription is unregistered and its queue closed, if there is one |
| Telemetry.TeleCtrl.ChangeCompleted | gnmi/server/subscribe.go:183-198 | every queue gets at most one event, exactly that of the changes, and nothing is left under construction; it breaks off if and only if a subscription whose queue is closed has an event |
| Telemetry.StoppedBefore | gnmi/server/subscribe.go:92-198 | a subscription that was out of the index at every change of the transaction has no event |
| Telemetry.StoppedBetween | gnmi/server/subscribe.go:183-198 | one that is stopped between a change of its path and the end of the transaction makes the end break off |
| Telemetry.EventExact | gnmi/server/subscribe.go:92-198 | a subscription gets an event exactly when some change of the transaction matches an entry that has it |
| Telemetry.EventLists | gnmi/server/subscribe.go:99-129 | the updated paths are those created or replaced, the deleted ones those replaced or deleted, among the changes that concern the subscription |
| Telemetry.SearchesExact | gnmi/server/subscribe.go:132-180 | a change is searched by the text of its path, and also by the names alone if some key is not `*`; an unreadable path by nothing |
| Telemetry.ListedExact | gnmi/server/subscribe.go:116-126 | a path is listed exactly when some change of that kind to that path concerns the subscription |
| Telemetry.ListedInOrder | gnmi/server/subscribe.go:116-126 | what is listed keeps the order of the changes |
| Telemetry.CopiesExact | gnmi/server/subscribe.go:99-102 | a change is listed at all exactly when some matching entry has the subscription |
| SubscriptionLoop.Subscription.Select | gnmi/server/subscribe.go:356-451 | each ready case of the select is its step of the loop |
| SubscriptionLoop.Subscription.RunLoop | gnmi/server/subscribe.go:319-451 | the loop takes the inputs one by one until it stops |
| SubscriptionLoop.Subscription.CountPaths | gnmi/server/subscribe.go:370-385 | the counters of the paths go up by one for each occurrence, modulo 2^32 |
| SubscriptionLoop.TallyExact | gnmi/server/subscribe.go:370-385 | a counter says how often its path was received, modulo 2^32, and there is one for every path received |
| SubscriptionLoop.TallyConserves | gnmi/server/subscribe.go:370-385 | the counters add up to the number of entries, modulo 2^32, and exactly below 2^32 entries |
| SubscriptionLoop.RunAccounted | gnmi/server/subscribe.go:356-438 | in every run each telemetryUpdate call has exactly the entries received since the call before it, and the lists those since the last call |
| SubscriptionLoop.CountsConserved | gnmi/server/subscribe.go:356-438 | in every run what was reported and what waits add up to the entries received |
| SubscriptionLoop.TimersExact | gnmi/server/subscribe.go:398-412 | the channel holds the ticks that were taken and not yet processed, in order, true exactly for heartbeats |
| SubscriptionLoop.SuppressedExactly | gnmi/server/subscribe.go:413-438 | an expired timer makes a telemetryUpdate call exactly when a tick waits and the first that does is a heartbeat, or redundant updates are not suppressed, or some entry arrived since the last call |
| SubscriptionLoop.EventCounts | gnmi/server/subscribe.go:367-397 | events are counted in the modes ON_CHANGE and SAMPLE only, and reported at once in the first |
| SubscriptionLoop.QuitsExactly | gnmi/server/subscribe.go:356-451 | in every run the loop returns if and only if the subscription is closed or a telemetryUpdate call fails |
| SubscriptionLoop.OnChangeReports | gnmi/server/subscribe.go:386-396 | a subscription on changes reports every event at once and nothing but it |
| SubscriptionLoop.BlockedExactly | gnmi/server/subscribe.go:398-412 | in every run the loop hangs if and only if some tick came while two others were waiting to be processed |
| SubscriptionLoop.ThreeTicksBlock | gnmi/server/subscribe.go:398-412 | three ticks in a row do that |
| SubscriptionLoop.BlockedForGood | gnmi/server/subscribe.go:398-412 | from then on no later input makes it report |
| Aliases.ClientAliases.constructor | gnmi/server/aliases.go:29-36 | both tables start empty |
| Aliases.ClientAliases.UpdateServerAlias | gnmi/server/aliases.go:43-70 | one server alias is its update of the tables, and it is reported when it changes them |
| Aliases.ClientAliases.UpdateServerAliases | gnmi/server/aliases.go:39-73 | every server alias is taken once, in some order, and those that changed something are reported |
| Aliases.ClientAliases.UpdateClientAlias | gnmi/server/aliases.go:76-114 | it succeeds exactly for a good name with an empty path or with a name and a path that are free, and changes nothing when it fails |
| Aliases.ClientAliases.UpdateClientAliases | gnmi/server/aliases.go:116-128 | it stops at the first alias that fails and keeps what came before |
| Aliases.ClientAliases.ToPathInPlace | gnmi/server/aliases.go:135-160 | the elements of the argument become those of the alias in its first element, if there is one |
| Aliases.ClientAliases.ToAliasPath | gnmi/server/aliases.go:182-198 | the alias found under the text of the path, with its target and origin, or the path itself |
| Aliases.RunConsistent | gnmi/server/aliases.go:39-114 | after every run each entry of path2alias sits under its own path and is the entry of its name |
| Aliases.MadeExact | gnmi/server/aliases.go:39-114 | after every run each alias was made by one update that is still in force: a server alias by adding one, a client alias by setting one to a path that is not empty, with the path given there |
| Aliases.EmptyPathDeletes | gnmi/server/aliases.go:87-95 | a client alias with an empty path takes the alias and its path away, and no other |
| Aliases.NamesHash | gnmi/server/aliases.go:43-86 | every alias starts with `#` |
| Aliases.PathRoundTrip | gnmi/server/aliases.go:135-218 | after every run ToPath(ToAlias(p)) is p exactly when p is no alias name, or has an alias of its own, or is an alias for itself |
| Aliases.StepInverseExact | gnmi/server/aliases.go:39-114 | one update keeps the tables inverse to each other exactly when it is no new server alias for a path that has an alias |
| Aliases.RunInverse | gnmi/server/aliases.go:39-218 | without such an update, after every run the tables invert each other and ToAlias(ToPath(n)) is n for every alias name |
| Aliases.ServerNamesAdded | gnmi/server/aliases.go:51-62 | in whatever order, adding gives a name to exactly the aliases whose path can be read and leaves older names alone |
| Aliases.ServerNamesDropped | gnmi/server/aliases.go:63-69 | in whatever order, dropping takes away exactly server aliases and no client alias |
| Aliases.ElemsRoundTrip | gnmi/server/aliases.go:135-198 | a gNMI path of plain elements comes back from its alias, whatever order its keys are printed in |

## Left out

- ygot and ytypes reflection, JSON and typed-value encoding, ydb, and the search of the reflect types (findAllPaths, findAllSchemaPaths).
- Transaction.RollbackRestores: says nothing about related targets; `ObjectRollback.RollbackYields` does.
- Rollback.RollbackExact: does not cover targets whose list entries did not exist before; a single missing target is in `Transaction.MissingTargetExact`, any others and related targets are in `ObjectRollback.RollbackYields`.
- ObjectRollback.RollbackYields: where an updated container has lost its place (`ObjectRollback.Settled`), three cases are not covered, in which old values come to share structs with each other: a later operation took the container out as well; something at or below it is undone before it loses its place or between two entries for it; or a container above or below it was updated too and lost its place. For all these `ModelSet.Model.Set` still says step by step what is done to the structs.
- ObjectRun.RequestRefines: the targets that one operation logs are unrelated to each other.
- ModelSet.Model.SetRollback: the law is for leaves; which nodes of any kind one entry's push puts back is in `PushSync.CompensationExact`. Operations that failed midway through their callbacks are not compensated by the code.
- PushLaw.RequestInStep: the targets that one operation finds are unrelated to each other (`PushLaw.Plain`); those of different operations may lie anywhere.
- ModelSet.Model.Set: takes the paths as `FullPath.GNMIFullPath` gives them; a path for which that has no result is in no request here.
- FullPath.GNMIFullPath: the target, the origin and the deprecated element texts of a path are not modelled.
- DataSearch.FindAllData: finds values; the path text that goes with each value is not modelled.
- DataSearch.SearchesAgree: is stated for trees whose list entries are structs, as generated structs are, and on what ydb is assumed to return for a key.
- SubscriptionLoop.SuppressedExactly: what a telemetryUpdate call sends for its counts (getUpdates, getDeletes) is not modelled.
- Telemetry.TeleCtrl.Stop: the stop channel of the subscription is not modelled; nothing stops a subscription twice.
- PrintExact.PrintableExact: names and keys are identifiers, as in a schema.
- Wildcards.FindPaths: the keys of a list are taken in the order of the schema's key text, as in the code.
- Real timers, channels other than the one for expired timers, goroutine scheduling inside a critical section, logging, gRPC streams, TLS and x509.
- addStreamSubscription's choice of intervals, polling, and sessions.
- The state synchronisation of Get and the StateUpdate calls of the model.
