# Proofs about go-solid

go-solid is a Go library that bundles Solid components, renders pages around them,
checks the Go props a page is rendered with against the TypeScript type the component
declares, serves static assets, and reloads browser tabs when a source changes. This
project models its stateful and its recursive parts in Dafny and proves what they are
relied on for.

| file | what it models |
|---|---|
| `Canonical.dfy`, `CanonicalScan.dfy`, `CanonicalForms.dfy` | the comparison form of a type text: a rune loop, and the token language it decides |
| `Shapes.dfy`, `Assignability.dfy` | shapes, union splitting, assignability, violations |
| `Extract.dfy`, `ExtractGuard.dfy`, `ExtractRoutes.dfy`, `ExtractCycle.dfy` | unfolding a cyclic graph of TypeScript declarations, bounded and guarded |
| `TypeText.dfy`, `TypeScan.dfy`, `Mapper.dfy`, `MapperWalk.dfy`, `Promotion.dfy`, `PrinterScanner.dfy`, `PrinterNames.dfy`, `PropTypes.dfy` | Go types printed as TypeScript, the printed text read back, and what it says of their JSON |
| `Debounce.dfy`, `Reload.dfy`, `ReloadProgress.dfy`, `ReloadRuns.dfy` | the debounced reload protocol, as objects and as a state machine |
| `Collections.dfy`, `Caches.dfy`, `DiskCache.dfy`, `DiskIndex.dfy`, `DiskRuns.dfy`, `Invalidation.dfy` | the set map, both caches, the dependency index and the bundler's invalidation closures |
| `Coherence.dfy`, `CoherenceLimits.dfy`, `Schedules.dfy`, `Settling.dfy`, `EventEffects.dfy` | edits, file events and renders over both caches, as a state machine |
| `Stamps.dfy`, `StampLimits.dfy`, `StampedCaches.dfy` | caches validated by a stamp taken before the read |
| `AssetUrls.dfy`, `AssetTree.dfy`, `AssetScan.dfy`, `AssetClashes.dfy`, `AssetPlaces.dfy`, `ManifestIndex.dfy` | asset keys and URLs, the scan, the manifest |
| `Events.dfy`, `Dispatch.dfy` | event ancestry and handler dispatch |
| `Behaviour.dfy`, `RenderCalls.dfy` | the render call builder, as values and as objects that share slices |
| `Islands.dfy`, `IslandTexts.dfy` | escaping into script elements, and who reads it |
| `Text.dfy`, `Sorting.dfy` | the string functions and the stable sort the others share |

Where the source updates fields, an array or a map in place, the model is a class or a
method with the same loop, proved against a function; the theorems are about the
function. Where several goroutines meet, the model is a state machine with one step for
each lock-held section, and the theorems are about every run of it.

## What turned out not to hold

Each of these is proved, with the exact condition where there is one.

- Canonicalizing twice is not always canonicalizing once: a text whose canonical tokens
  end, or reach a closing brace, with two separators in a row loses one of them each
  time (`IdempotentIff`).
- The self-reference guard of the extractor never costs a field name, a found flag, a
  source file or the report of a name that leads nowhere, but on a cycle it can change a
  field's type and which of the other names are reported (`CycleChangesType`). It changes
  no type exactly when the fields spelled out give each name one type and one optionality
  (`GuardKeepsTypesIff`).
- A bundle can be served stale for good when a file event is seen between a render's
  read and its recording (`RaceServesStale`), or its component is invalidated before the
  render stores (`LateStoreServesStale`); and with a reactive registry but no HMR when a
  file that other components import is deleted (`DeletionServesStale`, `DeletionIff`).
  While the invariant holds this can happen exactly when an open render holds an older text
  of a file it reported, or a cached bundle is out of date that nothing to come affects
  (`StaleIff`). It can also after a restart, because promotion from disk records nothing
  in the dependency index (`RestartIff`).
- "Equal stamps mean equal text" (`internal/sources/sources.go:20-21`) does not make a
  cache that stamps before it reads safe: the text may come back with its stamp, and a
  run then serves what was read in between (`ReturningTextServesStale`). It is safe
  exactly when no stamp comes back around another text (`StampBeforeReadIff`).
- `AnonymousSourceFailureEvent` is emitted but not among the types the ancestry is built
  from, so no handler ever hears of it (`AnonymousSourceIsUnheard`).
- A JSON name can make the mapper take a struct for a union, or the checker lose the
  null of a pointer: a bracket it leaves open, a bar lower than it begins, a comment or a
  string it does not close (`http://x` as well as `>|`). Printer and scanner agree on
  every type over a set of names exactly when no name does any of these
  (`NamesReadIff`); identifiers do not.
- Satisfying a shape is transitive only through a shape that settles every field
  (`SatisfiesComposesIff`).

## Model

| member | source | states |
|---|---|---|
| CanonicalScan.Canonicalize | internal/types/canonical.go:10-72 | The rune loop, with its index, last rune and pending flag, computes the scanner function the lemmas below are about, for every text: bare slashes, unterminated strings and comments included. |
| CanonicalScan.SkipLine | internal/types/canonical.go:33-37 | The inner loop of a line comment stops where the specification says a line ends, the newline left for the next turn. |
| CanonicalScan.SkipBlock | internal/types/canonical.go:38-44 | The inner loop of a block comment stops after its first `*/`, or past the end. |
| CanonicalScan.CopyString | internal/types/canonical.go:45-60 | The inner loop of a string copies up to and with its own closing quote, an escaped quote not counting, or to the end. |
| Canonical.CanonicalOfLayout | internal/types/canonical.go:10-72 | For every layout of tokens by the six blanks it lists and comments, with some gap between adjacent words, the canonical form is the rendering of the tokens alone, commas as semicolons. |
| Canonical.LayoutDoesNotMatter | internal/types/canonical.go:10-72 | Any two layouts of token sequences that agree once commas are semicolons canonicalize alike. |
| CanonicalForms.CanonicalIsNorm | internal/types/canonical.go:70-71 | With terminated strings none of which contains `;}`, the final replacement and trim act on tokens: they drop a separator before each closing brace and one at the end. |
| CanonicalForms.SameFormIff | internal/types/canonical.go:5-9 | Two texts have one canonical form exactly when their normalized tokens are equal: nothing else is identified. |
| CanonicalForms.IdempotentIff | internal/types/canonical.go:70-71 | Canonicalizing a canonical text changes nothing exactly when no empty member is left before a closing brace or at the end. |
| Shapes.NewShapeKeepsFirst | internal/types/shape.go:22-28 | A new shape is strictly sorted by name and looks up, for every name, the first field declared under it. |
| Shapes.ShapesAgree | internal/types/shape.go:16-28 | Two shapes with the same fields are equal. |
| Shapes.Lookup | internal/types/shape.go:38-46 | Binary search over a shape finds the first match of a linear search, or nothing when there is none. |
| Shapes.SplitTopLevelUnion | internal/types/shape.go:163-183 | The bracket-counting loop splits at exactly the bars outside brackets. |
| Shapes.JoinSplit | internal/types/shape.go:163-183 | Joining the members of a split on bars gives back the text, whatever the text. |
| Shapes.SplitMembers | internal/types/shape.go:163-183 | Whatever the text, no member has a bar with as many brackets closed before it as opened, and every member but the last closes what it opens: it splits at every bar outside brackets and at no other. |
| Shapes.SplitJoinIff | internal/types/shape.go:163-183 | Splitting members joined on bars gives back the members exactly when they are of that kind. |
| Assignability.AssignableTS | internal/types/shape.go:141-159 | The nested loops decide exactly: the target is `unknown`, or every member of the source's union is among the target's. |
| Assignability.AssignableIff | internal/types/shape.go:136-159 | However the two are laid out, a source can stand in exactly when the target's canonical text is `unknown` or every member the source's canonical text is joined from is among those of the target's. |
| Assignability.Violations | internal/types/shape.go:107-130 | The loop over wanted fields, with binary search and a final stable sort, lists the violations in the target's order: sorting finds nothing to move. |
| Assignability.ViolationsIff | internal/types/shape.go:107-130 | What is listed is exactly, for some wanted field: missing, with the type wanted; optional where always present was wanted; or of another type, with both types. |
| Assignability.SatisfiesIff | internal/types/shape.go:134 | No violations exactly when every wanted field is absent and optional, or present, no more optional than wanted, and assignable. |
| Assignability.SatisfiesReflexive | internal/types/shape.go:132-134 | Every shape satisfies itself. |
| Assignability.StrangerIsNotAssignable | internal/types/shape.go:141-159 | For every target but `unknown` there is a type it does not take. |
| Assignability.SatisfiesTransitive | internal/types/shape.go:132-134 | Satisfying composes through a middle shape that carries, at a type other than `unknown`, every target field that is not `unknown`. |
| Assignability.SatisfiesComposesIff | internal/types/shape.go:132-134 | A middle shape passes on all its sources exactly when it settles every field the target is not `unknown` about. |
| Extract.MembersToFields | internal/types/extract.go:441-463 | The loop keeps, in order, exactly the property members with a name, their types and optionality. |
| Extract.FindImport | internal/types/extract.go:267-314 | The nested loops find the first import that binds the local name, under the name it was exported as, if its specifier resolves. |
| ExtractGuard.GuardIsFree | internal/types/extract.go:179-263 | For every program, cyclic or diamond, the guarded walk finds the same field names, found flag and source files as plain depth-bounded unfolding with no guard, and reports the same of the names that no file declares or can import. |
| ExtractRoutes.WalkFinds | internal/types/extract.go:179-314 | What a walk yields, said without it: a field name, the found flag, a source file or a name reported as leading nowhere is yielded exactly when a route through the first declaration of a name, its alias, an intersection's arms and the first import that binds it, within the bound, reaches it. |
| ExtractRoutes.ImportIsFollowed | internal/types/extract.go:267-314 | A name imported, under its own or another name, from a file that declares it as an interface is found under the exported name, with the interface's fields and that file among the sources. |
| ExtractRoutes.IntersectionTakesFirst | internal/types/extract.go:196-218 | Where two arms have a field of one name, the earlier arm's is the one, its type and optionality. |
| ExtractRoutes.MembersSpell | internal/types/extract.go:441-463 | The field under a name is the first property of that name, with its type, `unknown` where it states none, and its question mark. |
| ExtractCycle.CycleChangesType | internal/types/extract.go:225-252 | For any two fields of one name there is a cyclic program over which the guarded and the unguarded walk give the name the one and the other, and leave different names unresolved. |
| ExtractCycle.GuardKeepsTypesIff | internal/types/extract.go:225-252 | Over every program that spells out only fields of a given set, every node and every depth, the guard changes no field exactly when the set gives each name one type and one optionality. |
| Extract.KeyTextInjective | internal/types/extract.go:225-231 | The text a declaration is guarded under tells declarations apart. |
| ExtractGuard.DeeperResolve | internal/types/extract.go:225-252 | Resolving a name one step deeper yields no more than resolving it here. |
| Extract.Resolver.ShapeOfTypeNode | internal/types/extract.go:179-221 | The recursion over a type node returns and records the outcome the guard theorems are about, and leaves `visited` as it found it. |
| Extract.Resolver.MergeArms | internal/types/extract.go:196-218 | The loop over an intersection's arms accumulates the outcome the guard theorems are about: every arm that resolves merged, every one that does not noted, `visited` as it was. |
| Extract.Resolver.ResolveNamed | internal/types/extract.go:225-252 | Guard, local declaration and import chasing yield the outcome the guard theorems are about; the guard's mark is taken back on every path out. |
| ExtractGuard.DeclarationIsFree | internal/types/extract.go:225-263 | A declared interface has, for every name, the first member that declares it, and reads no other file; an alias has the field names, verdict and sources of plain unfolding one step deeper, guard or no guard. |
| Extract.Resolver.Finish | internal/types/extract.go:161-171 | The sources and unresolved names come out sorted, each once, and none lost. |
| Mapper.PickFieldIff | internal/types/mapper.go:263-277 | Among candidates of one name a field is picked exactly when it is uniquely shallowest, or uniquely tagged among the shallowest. |
| Mapper.FlatteningIff | internal/types/mapper.go:140-161 | A field is in a flattened struct's shape exactly when a candidate that carries it wins its name. |
| Mapper.FlatteningIgnoresOrder | internal/types/mapper.go:140-161 | Candidates in any other order make the same shape. |
| Promotion.OwnFieldWins | internal/types/mapper.go:137-210 | A field a struct declares itself is in its shape, with its own type, whenever no other field it declares has the name, whatever embedded structs promote and however deep. |
| Promotion.OwnAreAtDepth | internal/types/mapper.go:163-210 | At a struct's own embedding depth its candidates are exactly its own named fields, in order. |
| Promotion.EmbeddedIsDeeper | internal/types/mapper.go:187-197 | Every candidate a flattened field contributes lies deeper. |
| Mapper.SameKeptSameShape | internal/types/mapper.go:150-160 | Whatever order a map gives the groups, the winners make one shape. |
| PropTypes.PlainFieldIsOne | internal/types/mapper.go:163-210 | An exported field that is no struct is one candidate, under the name its tag gives or its own, at the walk's depth. |
| PropTypes.StructFieldIsOneIff | internal/types/mapper.go:173-197 | A struct's fields take its place exactly when it is anonymous without a name or its tag says embed; otherwise it is one candidate. |
| PropTypes.HiddenFieldIsNone | internal/types/mapper.go:166-172 | A field told to be left out, or neither exported nor an anonymous struct, gives nothing. |
| PropTypes.EmbeddedTwiceIsNone | internal/types/mapper.go:187-197 | A struct embedded again inside itself gives nothing. |
| MapperWalk.GroupByName | internal/types/mapper.go:150-153 | Grouping keeps, under each name, its candidates in order, and no empty group. |
| MapperWalk.PickAll | internal/types/mapper.go:154-160 | The loop over the groups, in an arbitrary order, keeps exactly the winners. |
| MapperWalk.Walk.PrintType | internal/types/mapper.go:314-358 | The recursion prints the specified text for every type, terminates, and leaves `seen` as it found it. |
| PropTypes.TextReads | internal/types/mapper.go:314-383 | Read from its end, as a bar binds weaker than brackets, the printed text says of a value exactly what it is encoded as: texts, numbers, booleans, anything, lists and records of what their elements are, and null besides for a pointer, once. |
| MapperWalk.Walk.FieldsOf | internal/types/mapper.go:140-161 | The fields of a struct are the winners among its candidates, make the same shape as the specification's, and `seen` is restored. |
| MapperWalk.Walk.CollectInto | internal/types/mapper.go:163-210 | The loop appends the candidates of every field, embedded structs in place and in order, and `seen` is restored. |
| MapperWalk.Walk.CollectOne | internal/types/mapper.go:164-209 | One field's candidates: skipped, flattened one embedding deeper, or typed under its JSON name. |
| MapperWalk.Walk.PrintFieldType | internal/types/mapper.go:281-287 | The text and optionality of a key, as the lemma on its members describes it. |
| PropTypes.OptionalIff | internal/types/mapper.go:281-312 | A key may be absent exactly when its tag says `omitzero`, or says `omitempty` of a text, list, map, pointer, interface or raw JSON, or of a struct every member of whose shape may be absent; never of a number, boolean or time. |
| PropTypes.OptionalIsMarked | internal/types/mapper.go:403-422 | A member is its name, a question mark exactly when it may be absent, and its type. |
| PropTypes.MembersStand | internal/types/mapper.go:403-422 | Every member of an object stands in its place, told apart from its neighbours by a separator, with none at either end. |
| MapperWalk.Walk.MayEncodeEmpty | internal/types/mapper.go:291-312 | Decides emptiness as specified, structs by all their members being optional in any order. |
| MapperWalk.PrintObject | internal/types/mapper.go:403-422 | The builder loop writes the members with one separator between each two. |
| TypeText.ScanTopLevelUnion | internal/types/mapper.go:385-400 | The bracket-counting loop finds a bar or ampersand outside every bracket exactly when there is one. |
| TypeText.HasTopLevelUnionIff | internal/types/mapper.go:385-400 | A type is taken for a union exactly when it has a bar or an ampersand before which as many of the four kinds of bracket are closed as are opened. |
| TypeScan.CanonicalBones | internal/types/canonical.go:10-72 | Canonicalizing any text changes no bracket and no bar outside its comments, nor their order. |
| TypeScan.KeptAppend | internal/types/canonical.go:27-69 | After a text that leaves no string and no comment open, what follows is read as if it stood alone. |
| TypeScan.OpenScan | internal/types/canonical.go:33-60 | After one that does, what follows and closes nothing is swallowed whole or copied as it is. |
| TypeScan.SplitOneIff | internal/types/shape.go:163-183 | A text is its own only member exactly when it has no bar outside brackets. |
| TypeScan.SplitNullIff | internal/types/shape.go:163-183 | With null added it splits into itself and `null` exactly when, besides, its brackets end where they began. |
| PrinterScanner.TypesAreBalanced | internal/types/mapper.go:314-422 | Over names the scanners read through, every type's text ends the brackets it begins and is a union at its top exactly when the type is a pointer; where no name closes a bracket it did not open, no text does. |
| PrinterScanner.IdentifierReads | internal/types/mapper.go:403-422 | Every identifier is such a name. |
| PrinterScanner.PrinterAndScannerAgree | internal/types/mapper.go:314-400 | Printed, canonicalized and split, every type has exactly one member, followed by `null` exactly when it is a pointer, however often it points. |
| PrinterScanner.FieldTypeMembers | internal/types/mapper.go:281-287 | A key that may be absent never is a union; one always present is one exactly for a pointer. |
| PrinterScanner.ArrayOfPrints | internal/types/mapper.go:378-383 | An array parenthesizes its element exactly when the element is a pointer, and is itself no union. |
| PrinterScanner.OrNullPrints | internal/types/mapper.go:369-374 | Null is added once: a nested union that ends in null is never mistaken for one at the top. |
| PrinterNames.NamesReadIff | internal/types/mapper.go:369-422 | For any set of JSON names, printer and both scanners agree on every type of every world over them exactly when each name leaves no string or comment open, ends the brackets it begins, and has no bar lower than it begins, comments counted or not. |
| PrinterNames.UnreadableReadsWrong | internal/types/mapper.go:378-422 | For every other name, a struct of that one field and a type made of it that is parenthesized, split or stripped of null wrongly. |
| PrinterNames.SlashesAreUnread | internal/types/canonical.go:33-44 | A name with two slashes outside a string and no newline after them is one of those. |
| PrinterScanner.PointerTakesElem | internal/types/shape.go:141-159 | A prop of pointer type takes what the pointer points at. |
| PrinterScanner.ElemTakesPointerIff | internal/types/shape.go:141-159 | The other way round only when the text is `unknown`. |
| Debounce.Debouncer.Arm | internal/watching/debounce.go:29-39 | Ignored once stopped; otherwise the old timer is disarmed and a new one armed, so at most one ever is. |
| Debounce.Debouncer.Enter | internal/watching/debounce.go:41-48 | A fire goes ahead, counted in the wait group, exactly when not stopped. |
| Debounce.Debouncer.Leave | internal/watching/debounce.go:49-51 | A fire that returns is counted off and nothing else changes. |
| Debounce.Debouncer.MarkStopped | internal/watching/debounce.go:56-65 | Stopped for good and disarmed, whatever came before; running fires are left counted. |
| Debounce.Watcher.Enqueue | internal/hmr/watching.go:66-76 | The names join the pending set and the debouncer is armed; no names do nothing. |
| Debounce.Watcher.Drain | internal/hmr/watching.go:77-86 | Every pending name is handed out once, in any order, and none is left. |
| Reload.PendingIsAlwaysDue | internal/hmr/watching.go:40-45 | In every interleaving, until a stop, a non-empty pending set has an armed timer, a fire that has not drained, or an enqueuer about to arm. |
| Reload.NoReloadIsLost | internal/hmr/watching.go:66-86 | Left alone until quiet and not stopped, every name ever touched has since been invalidated and, after that, reloaded, by one fire. |
| Reload.EachInsertionDrainedOnce | internal/hmr/watching.go:66-86 | Each insertion of a name into the pending set is drained by exactly one fire, or is the one still there. |
| Reload.EachOccurrenceOnce | internal/hmr/watching.go:40-45 | Each name a fire drained it has, when it is gone, invalidated once and reloaded once; no fire drains a name twice. |
| Reload.InvalidatedBeforeReloaded | internal/hmr/watching.go:42-43 | Every reload comes after its own fire's invalidation of the name. |
| ReloadProgress.StoppedForGood | internal/watching/debounce.go:54-68 | Once any stop has returned no callback runs, and from then on nothing but touches is ever logged, for every interleaving of arms, timers and stops. |
| ReloadProgress.NeverStuck | internal/watching/debounce.go:29-52 | A reachable state that is not quiet can always take a step by itself. |
| ReloadProgress.QuietIsReached | internal/hmr/watching.go:40-45 | Left alone, the watcher takes at most a computed number of steps, whichever it takes, and can take no more exactly when it is quiet. |
| Reload.CountStep | internal/watching/debounce.go:41-52 | Every step keeps the wait group equal to the number of callbacks that run. |
| ReloadRuns.TouchIsReloaded | internal/hmr/watching.go:40-86 | From any reachable quiet state that is not stopped, a touched name can be armed, drained, invalidated and reloaded by one fire, and then all is quiet again. |
| ReloadRuns.StopsWait | internal/watching/debounce.go:54-68 | A stop can be marked at any time, any number of times over, and one can return exactly when one is waiting and no callback runs. |
| ReloadRuns.StopsReturn | internal/watching/debounce.go:54-68 | Once no callback runs, every stop that waits can return. |
| Collections.SetMap.Add | internal/collections/setmap.go:11-18 | The member joins its key's set, every other set is as it was, no set is empty. |
| Collections.SetMap.Remove | internal/collections/setmap.go:20-29 | The member leaves its key's set, an emptied set leaves the map, every other key is as it was. |
| Collections.SetMap.MembersOf | internal/collections/setmap.go:32-37 | A key's members, each once, in any order. |
| Collections.SetMap.KeysWhere | internal/collections/setmap.go:40-48 | Exactly the keys that satisfy the predicate. |
| Collections.DependencyIndex.Record | internal/depindex.go:20-27 | Every path that normalizes to a source's gains the component, every other path's dependents are as they were. |
| Collections.DependencyIndex.DependentsOf | internal/depindex.go:29-36 | Exactly the components recorded under any spelling of the path. |
| Caches.WriteKey | internal/caching/memcache.go:36-44 | The loop over the parts writes the length-prefixed text the next row is about. |
| Caches.KeyTextInjective | internal/caching/memcache.go:36-44 | Two keys are written alike exactly when component, root and build all agree. |
| Caches.MemCache.Get | internal/caching/memcache.go:55-63 | Exactly the entry stored, nothing when disabled. |
| Caches.MemCache.Put | internal/caching/memcache.go:66-74 | One entry changes, and the by-component index again lists exactly the live keys. |
| Caches.MemCache.InvalidateComponent | internal/caching/memcache.go:76-83 | All of a component's entries go and no others, and the index again lists exactly the live keys. |
| Caches.MemCache.ComponentsInFile | internal/caching/memcache.go:85-92 | Exactly the components in the file that have a live entry. |
| Caches.ListedAreItsOwn | internal/caching/memcache.go:76-83 | When the index lists exactly the live keys, removing what it lists for a component removes the component's entries and leaves an exact index. |
| DiskCaching.HoldsIff | internal/hashing/digest.go:33-42 | An entry holds exactly when it recorded a source and none it recorded has changed or gone. |
| DiskIndex.DiskCache.Get | internal/caching/diskcache.go:103-139 | Returns what a scan of the directory made now would find and read, if its sources hold; the lazy index makes no difference. |
| DiskIndex.DiskCache.Put | internal/caching/diskcache.go:143-191 | Writes the entry under its stem whether or not the index was read yet, and the index stays true of the directory. |
| DiskIndex.DiskCache.InvalidateComponent | internal/caching/diskcache.go:195-220 | All listed entries of the component leave the directory, no other file does, and the count is their number. |
| DiskIndex.DiskCache.ComponentsInFile | internal/caching/diskcache.go:224-235 | Exactly the components in the file that have a listed entry in the directory. |
| DiskIndex.DiskCache.ScanDirectory | internal/caching/diskcache.go:253-267 | The scan, in any order, indexes every listed entry and keeps what was indexed before it true. |
| DiskIndex.IndexIsRescan | internal/caching/diskcache.go:237-268 | A sound and complete index finds for every key what rescanning the directory finds. |
| DiskCaching.WrittenIsRead | internal/caching/diskcache.go:164-187 | An entry's script and style are written where they are looked for; with no style an older file of one stays, and every other entry is as it was. |
| DiskCaching.KeylessIsUnlisted | internal/caching/diskcache.go:252-268 | A manifest that names no key is never found and never cleared away. |
| DiskCaching.LostPartIs | internal/caching/diskcache.go:103-139 | An entry that holds but whose script is lost is a miss; one whose style is lost is found without it. |
| DiskCaching.PutThenGet | internal/caching/diskcache.go:101-191 | What is put comes back, then or later, exactly while its record holds; no other key is found differently, and every entry is again under its own stem. |
| DiskCaching.InvalidateThenGet | internal/caching/diskcache.go:195-220 | After invalidating a component no key of it is found, and every other key is found as before. |
| DiskRuns.OperateAll | internal/caching/diskcache.go:101-273 | Over every sequence of puts, gets, invalidations and lookups by file, the lazily indexed cache gives, answer by answer, what one that rescans the directory each time gives, and leaves the same directory. |
| DiskRuns.LastPutIsFound | internal/caching/diskcache.go:101-220 | After any operations on an empty directory, getting a key gives what was last put under it, unless its component was invalidated since or a source it recorded no longer holds. |
| Caches.InFileIff | internal/caching/shared.go:25-27 | A component is in a file exactly when it is the file's name, or that name, `#` and an export. |
| Caches.NeighbourIsNotInFile | internal/caching/shared.go:25-27 | A name that only begins like the file's is not in it. |
| Invalidation.Bundler.InvalidateComponentFile | bundler.go:196-204 | Afterwards each cache holds exactly the entries it held whose component is neither the file's name nor that name, `#` and some export. |
| Invalidation.Bundler.InvalidateForSource | bundler.go:206-213 | Exactly the entries of the source's dependents go and, for a component file, those selected out of it. |
| Invalidation.Bundler.SearchCaches | bundler.go:534-549 | Memory first, then disk; a disk hit is promoted, and the dependency index is left as it was. |
| Invalidation.Bundler.Keep | render.go:227-232 | After a bundling both caches hold it and every reported source names the component. |
| Schedules.RunsAreCoherent | bundler.go:189-213 | In every run from empty caches in which no event and no invalidation is dealt with while an open render holds an older text of what it is about, and no reactive registry sees the deletion of a file another component read: once each event is handled every render returns what bundling from scratch would; before that a stale memory entry is about to be invalidated or has a source with an event to come. |
| EventEffects.HmrRemovesAffected | bundler.go:189-213 | The state machine's affected components are those whose entries the bundler's closure for a source removes. |
| EventEffects.ReactiveRemovesAffected | bundler.go:189-213 | Under a reactive registry they are those the closures for a source and a component file remove, or dropping the component of a deleted file. |
| EventEffects.RenderTakesOneWay | render.go:214-234 | A render memory cannot serve has one way to go: promoting what holds on disk, or else bundling, if that succeeds. |
| EventEffects.DigestsAreRecorded | internal/caching/diskcache.go:157-162 | What the state machine records of a bundle's sources is what the disk cache does. |
| Settling.StaleIff | bundler.go:189-213 | Under either watcher and while the invariant holds, with nothing further edited or opened, events and open renders can be dealt with so that a stale bundle stays, exactly when an open render holds an older text of a file it reported, or a cached bundle is out of date that no invalidation due and no event to come affects. |
| Settling.HmrOrphansNone | internal/hmr/watching.go:40-45 | Under the HMR watcher the second never happens: every cached bundle that is out of date is affected by what is to come. |
| Coherence.QuietIsCoherent | render.go:214-234 | The invariant alone gives coherence when nothing is pending. |
| Coherence.StaleHasPendingSource | render.go:214-217 | The invariant alone gives every stale memory entry a pending source or invalidation. |
| CoherenceLimits.GuardIff | render.go:223-234 | A step keeps the invariant exactly when it is guarded: no event is seen, and no invalidation done, behind the back of a render that read too early, and no deletion orphans another component. |
| CoherenceLimits.RaceServesStale | render.go:223-234 | For every component, source and edit that changes its bundle, a run in which the event is seen between read and store ends quiet and stale. |
| Settling.LateStoreServesStale | render.go:223-234 | For every component, source and edit, the run that records in time but stores after the invalidation ends quiet and stale. |
| CoherenceLimits.DeletionIff | internal/registry.go:104-109 | With a reactive registry, the run that deletes a file and deals with the event ends quiet, and leaves a cached bundle right exactly when the bundle had not read the file or is of the file's own component. |
| CoherenceLimits.DeletionServesStale | internal/registry.go:104-109 | For every component and source of it that is not its own file, the run that renders once and deletes the source ends quiet and stale. |
| CoherenceLimits.RestartIff | bundler.go:534-542 | A restart over what is on disk stays coherent exactly when no entry left there recorded a source. |
| CoherenceLimits.RestartServesStale | bundler.go:534-542 | For every served entry left on disk, a guarded run that promotes it and then edits one of its sources ends quiet and stale. |
| Stamps.HitsAreCurrent | internal/types/extract.go:106-129 | Under every interleaving of edits and readers, overlapping ones included, a hit was made from the text that is there now, if no stamp misleads. |
| StampLimits.LoneReadHits | internal/types/extract.go:106-129 | A reader nothing comes between leaves a hit on the text that is there, and one forgotten is a miss. |
| StampLimits.StampBeforeReadIff | internal/sources/sources.go:71-83 | Over a history of versions no run has a stale hit exactly when no stamp comes back around another text; for caches that keep failures and ones that do not, and for readers that stamp and read at once. |
| Stamps.FreshNeverMisleads | internal/sources/sources.go:61-69 | Stamps that are never given twice never mislead. |
| StampLimits.ReturningTextServesStale | internal/sources/sources.go:20-22 | Equal text for equal stamps is not enough: for any two texts and stamps, a run over a history in which the first comes back ends with a stale hit. |
| Stamps.FaithfulAtomicNeverMisleads | internal/sources/sources.go:105-133 | It is enough for parsed files of in-process sources, which are stamped and read at once. |
| StampedCaches.ParsedFiles.File | internal/types/extract.go:106-129 | A hit on an equal stamp; otherwise what was read is kept under the stamp of its own read, and nothing is kept of a file that cannot be read. |
| StampedCaches.Programs.Get | internal/ssr/programs.go:48-66 | A hit on an equal stamp; otherwise the analysis, or its failure, is kept under the stamp taken first. |
| AssetUrls.Sanitize | internal/static/sanitize.go:9-40 | The rune loop with its flag computes the key the next row is about. |
| AssetUrls.SanitizedIsIdentifier | internal/static/sanitize.go:8-45 | Every non-empty name becomes an identifier; exactly the identifiers stay as they are; sanitizing twice changes nothing. |
| AssetUrls.RunCollapses | internal/static/sanitize.go:9-40 | A run of anything else between identifier runes comes out as one underscore, the runes before it as they are. |
| AssetUrls.DigitIsLed | internal/static/sanitize.go:30-40 | Identifier runes gain an underscore in front exactly when a digit leads them. |
| AssetUrls.UrlInjective | internal/static/manifest.go:252-258 | Under one mount two assets share a URL exactly when their paths and digests agree, with or without extensions. |
| AssetUrls.MountKeeps | shared/static/config.go:70-82 | The mount is the given path, or the default, with exactly the slashes around it that it lacks. |
| AssetScan.ScanSucceeds | internal/static/manifest.go:128-245 | When a scan succeeds no access path equals or leads through another, and the tree's leaves are exactly the servable files with their multiplicities. |
| AssetPlaces.ServableIff | internal/static/manifest.go:128-258 | What a scan is to serve is exactly what lies at the end of a trail of folders that are neither ignored nor dotted, a readable file with a name of that kind, under the trail's path and with its digest before the extension. |
| AssetPlaces.ExtensionKeyIs | internal/static/manifest.go:210-234 | A file is told apart under a shared key by its last extension without the dot, made an identifier. |
| AssetPlaces.NoExtensionKey | internal/static/manifest.go:218-221 | One with no extension, or only a dot, is told apart as `none`. |
| AssetPlaces.ScannedIsNamed | internal/static/manifest.go:128-205 | Every directory of the tree is called by its folder's key, lies where the folder does and has its folders and files sorted. |
| AssetPlaces.FailureIs | internal/static/manifest.go:145-188 | A bad pattern, a file or folder that cannot be read and a key claimed twice each fail the walk as what they are. |
| AssetClashes.ScanIff | internal/static/manifest.go:128-245 | A scan succeeds exactly when no pattern is bad, everything not skipped can be read, and no two siblings, folders or files, claim one key, files under one key told apart by their extensions' keys, here and below. |
| AssetScan.ScanKeeps | internal/static/manifest.go:128-205 | A successful scan leaves no key claimed twice in any directory. |
| AssetTree.ClearIsPrefixFree | internal/static/manifest.go:49-68 | A tree in which no key is claimed twice has prefix-free access paths. |
| AssetScan.EntryForKeeps | internal/static/manifest.go:210-234 | One leaf for a key: its assets all there, under distinct extension keys when there are several. |
| ManifestIndex.ServableDiffer | internal/static/manifest.go:145-188 | No two files of a scan share a relative path. |
| ManifestIndex.ServableUrlsDiffer | internal/static/manifest.go:247-258 | No two files of a scan share a URL, whatever is in them. |
| ManifestIndex.IndexesHoldAll | internal/static/manifest.go:179-181 | The URL index and the path index each lose no file and hold nothing else; the sources are the files' paths. |
| ManifestIndex.Manifest.Scan | internal/static/manifest.go:128-205 | The recursive scan returns the specified tree or error and adds to the three indices exactly the files below the directory. |
| ManifestIndex.Manifest.ScanNode | internal/static/manifest.go:145-188 | One directory entry: skipped, added, descended into, or the error it ends the scan with. |
| ManifestIndex.Manifest.Build | internal/static/manifest.go:71-90 | The finished manifest has the specified tree and indices, and the files' paths as its sources, sorted and none lost. |
| ManifestIndex.Manifest.Resolve | internal/static/manifest.go:98-110 | Exact lookups only, as the next row describes them. |
| ManifestIndex.ResolvedIff | internal/static/manifest.go:98-110 | A path names an asset by its URL or by what is below the mount, and in no other way. |
| ManifestIndex.AssetIsFound | internal/static/manifest.go:92-110 | Every file a scan finds is found again by its URL, and by its URL without the mount, with or without a slash, when that does not itself begin with the mount. |
| Events.BuildAncestry | shared/networking/events/events.go:156-195 | The two loops build, for each listed type, the ancestry the next row is about, and sorting by list lengths changes no length. |
| Events.AncestryHolds | shared/networking/events/events.go:176-195 | For any transitive relation, preorders included, every ancestry begins with the type itself, holds each ancestor once and nothing else, and puts narrower before wider. |
| Dispatch.Run | shared/networking/handlermap.go:127-137 | Handlers run in order to the first error, nil ones passed over. |
| Dispatch.ErrorIsFirst | shared/networking/handlermap.go:127-151 | It ends with the error of the first handler that errs once those before it have run, and with none exactly when none does. |
| Dispatch.HandlerMap.AddType | shared/networking/handlermap.go:72-94 | The three modes replace, prefix and postfix one chain and leave every other alone. |
| Dispatch.HandlerMap.Dispatch | shared/networking/handlermap.go:139-151 | Dispatching equals running the concatenated chains of the ancestry up to the first error. |
| Dispatch.NewHasOnePlace | shared/networking/handlermap.go:72-94 | A handler that is registered nowhere yet gets one place: the last, the first or the only one of its chain, by the mode. |
| Dispatch.HearsIff | shared/networking/handlermap.go:127-151 | Whatever else is registered, a handler is called exactly when the event's type is listed, its key is the type or a category the type implements, and no handler that runs before it errs. |
| Dispatch.LibraryAncestry | shared/networking/events/events.go:17-104 | The ancestry of each of the library's event types, as its embedded bases and marker methods make it, in order. |
| Dispatch.AnonymousSourceIsUnheard | shared/networking/events/events.go:157-165 | One emitted failure implements the failure category but is not listed: with any handlers registered, none is called. |
| Dispatch.ListedFailureIsHeard | shared/networking/events/events.go:157-183 | Every listed failure reaches a handler for failures, unless a handler that runs before it errs. |
| Behaviour.BehaviourIs | renderCallBuilder.go:61-86 | After any calls the middleware is the bundler's, once, then what was added since the last set; the handlers are the bundler's registrations, once, and then those since; the last bound writer and request survive; the writer is wrapped once. |
| Behaviour.LastBindingWins | renderCallBuilder.go:61-86 | Whatever came before, the last writer bound is the call's, wrapped once, and so is the last request. |
| Behaviour.ChainIs | shared/networking/requestBehaviourBuilder.go:30-60 | Whatever mix of prefixing, postfixing and replacing registrations, an event type's chain is what replaced it last, or what it was, behind what was put first since, the latest foremost, and before what was put last since. |
| Behaviour.DefaultsStay | renderCallBuilder.go:61-69 | Unless replaced since the last set, the bundler's own chain for an event type is in the call's, once and unbroken. |
| Behaviour.FirstStatusWins | shared/networking/requestBehaviourBuilder.go:75-86 | However often a status is committed, one is written: the first with a writer to write it. |
| RenderCalls.Append | shared/networking/requestBehaviourBuilder.go:25-28 | Appending writes in place while there is room and moves when there is not; the shorter slice still reads as it did. |
| RenderCalls.Request.Configure | renderCallBuilder.go:71-80 | Applying a configurator acts as the value-level specification, in an array that stays the request's or is new. |
| RenderCalls.Request.CommitStatus | shared/networking/requestBehaviourBuilder.go:77-86 | Writes and reports exactly the first commit with a writer bound. |
| RenderCalls.Defaults.NewRequest | internal/networking/defaults.go:63-79 | A seeded request that shares no array with the defaults, which are left as they were. |
| RenderCalls.CallBuilder.SetHTTPBehaviour | renderCallBuilder.go:76-80 | Starts over from the defaults keeping writer and request; the defaults are unchanged. |
| RenderCalls.CallBuilder.AlterHTTPBehaviour | renderCallBuilder.go:71-74 | Adds to what is there; the defaults are unchanged, even where appending writes in place. |
| RenderCalls.CallBuilder.ForRequestOf | renderCallBuilder.go:82-86 | Binds writer and request and nothing else; the defaults are unchanged. |
| RenderCalls.ExecMiddleware | render.go:157-168 | The loop puts into the one map it was handed, in order, to the first error. |
| RenderCalls.MiddlewareIff | render.go:157-168 | Middleware fails with the first error; when there is none, an island is what was put last under its key, or what was there if nothing was. |
| RenderCalls.IslandsAreThisCalls | render.go:122-131 | Every island middleware leaves was there before, the call's own props, or was put by that middleware. |
| RenderCalls.Respond | render.go:122-138 | A response of its own, with the artifact's script and style under their served names and this call's islands in a map nobody else holds; nothing that was there before is written, the artifact and its own islands among it. |
| RenderCalls.RespondTwice | render.go:287-302 | Of two renders of one artifact, each has what its own middleware put and nothing of the other's. |
| Islands.InlineJSONLacksCloser | internal/code-gen/templateTemplating.go:212-215 | No output of the island escaping holds `</`. |
| Islands.InlineJSONKeepsValue | internal/code-gen/templateTemplating.go:212-215 | For every JSON text the escaped text has the same marks and the same decoded strings, so the same value (section 7 of RFC 8259). |
| Islands.InlineJSONKeepsRest | internal/code-gen/templateTemplating.go:212-215 | For any text, JSON or not: without the backslashes between a `<` and a `/` the output is the input, letter for letter. |
| IslandTexts.UnitsOfWritten | internal/code-gen/templateTemplating.go:212-215 | The reader `InlineJSONKeepsValue` goes by: whatever units a JSON text is written from, escapes included, it reads those. |
| IslandTexts.UnitsCanStand | internal/code-gen/templateTemplating.go:212-215 | That reader takes no text with a bare control character in a string or a stray character outside one. |
| Islands.InlineJSLacksCloser | internal/code-gen/templateTemplating.go:217-227 | No output of the script escaping holds `</script` in any case, the folded long s included. |
| IslandTexts.ClosesScriptIff | internal/code-gen/templateTemplating.go:217-220 | Such a closer is these eight characters, letter by letter, in either case, or with the long s. |
| Islands.InlineJSKeepsRest | internal/code-gen/templateTemplating.go:222-227 | Without the backslashes between a `<` and a `/` the escaped script is the script, letter for letter. |
| Islands.InlineJSKeepsIff | internal/code-gen/templateTemplating.go:222-227 | A script is changed exactly when it holds such a closer. |
| Islands.DataIslands | internal/code-gen/templateTemplating.go:194-210 | The props island first, under `props-` and the root, filled or not, then every other island once, sorted by mount; each that was filled holds what was put, as `IsFilled` says, and each other `{}`. |
| Islands.IslandsAt | internal/code-gen/templateTemplating.go:200-208 | Each island stands at its mount's place and none can end its element. |

## Left out

- Canonical.CanonicalOfLayout: a `/` that opens no comment is no token of the layouts, since the scanner then depends on what follows it; `Canonicalize` itself covers every text.
- CanonicalForms.SameFormIff: strings are terminated and hold no `;}`, which the final replacement would act on inside them.
- PrinterScanner.PrinterAndScannerAgree: over names the scanners read through; `NamesReadIff` says there are no others it holds for.
- PrinterScanner.FieldTypeMembers: over the same names.
- PrinterScanner.PointerTakesElem: over the same names.
- PrinterScanner.ElemTakesPointerIff: over the same names.
- PropTypes.TextReads: over the same names; an object is told by its text, whose members `MembersStand` and `OptionalIsMarked` describe.
- MapperWalk.Walk.PrintType: Go types that contain themselves without passing through a struct (`type T []T`) are not values of the model; the source would not return on them.
- Mapper: `parseJSONTag`, `shapeOfMap` and the classification of props that are no object are not modelled; a parsed tag is an input.
- Extract: syntax trees are given as literal, reference, intersection and other; the export probes, `resolveCandidates` and reading text off a node are not modelled, and where a specifier leads is an input.
- Reload.NoReloadIsLost: what the hub does with a reload, and the clock behind a timer, are not modelled; a timer may run out at any moment.
- Schedules.RunsAreCoherent: bundling is a function that reports every file it looks at; files outside the watched tree, which would send no event, do not occur; the in-process type and markup caches are the subject of `Stamps`; with both HMR and a reactive registry on there would be two queues, and the model has one watcher at a time. Dropping a component from both caches is one step, and so is storing in both. Registry lookups and the export check before a bundling only refuse renders.
- Settling.StaleIff: that a bundle comes out differently where a file it reported has another text is assumed of the bundler; `OwnFileMeetsAll` gives one for which this and the two next assumptions hold.
- CoherenceLimits.DeletionIff: that a bundle which read a file comes out differently without it is assumed of the bundler.
- CoherenceLimits.RestartIff: that every reported file has some text that changes the bundle is assumed of the bundler.
- DiskIndex.DiskCache.Get: distinct keys are assumed to have distinct stems and digests, and files to be removable; entries were written by `Put`, or are not listed.
- Invalidation.Bundler.InvalidateComponentFile: the type cache and the markup analyses that are dropped alongside are not part of the object; `Stamps` treats them.
- DiskRuns.OperateAll: the cache is enabled; a disabled one does nothing and finds nothing.
- DiskRuns.LastPutIsFound: an artifact without a style has no name for one, as bundling makes them.
- DiskCaching: path normalization, atomic writes and partial failures of a write.
- AssetScan.ScanSucceeds: media types, sizes and inlined bodies of assets are not modelled; ignore patterns are a function that may fail.
- ManifestIndex.Manifest.Resolve: `Lookup` cleans a path with a library function that is not part of this model.
- Behaviour.BehaviourIs: a configurator is the list of what it does to the builder; panics on a nil writer or request are not modelled.
- Dispatch.HandlerMap.AddType: the panics on nil arguments and on an unknown mode.
- Islands.InlineJSKeepsIff: whether the escaped script means the same to JavaScript is not stated, as it depends on where the closer stood.
- Hash functions: digests are opaque identifiers.
- Configuration, templates, generated modules, the client script, HTTP serving and the websocket hub: no property that spans operations.
- Server-side markup: evaluated by a library outside the repository.
