# Verification of the descriptor pool, the packet codec and the session pool

Dafny models of the four parts of the repository with the most state, and proofs about them.
`dafny verify dfyconfig.toml` checks everything; nothing is executed.

## What is modelled

**Descriptor pool** (`descriptor.cc`). `Tables` keeps the symbols, files and extension numbers of a pool together
with the strings and blocks they live in, and can roll all of it back to a checkpoint. `DescriptorBuilder` builds a file:
it declares what the file defines, resolves names against the files in sight, links fields to types and numbers to
messages, and commits or rolls back. With a fallback database both the imports of a file and unknown symbols make the
builder call itself for other files. Both are classes with the fields of the source (`Tables.dfy`, `Pool.dfy`); the
functions they are proved against are in `TablesSpec.dfy`, `PublicImports.dfy`, `Resolver.dfy`, `Declarations.dfy`,
`Linking.dfy`, `NumberClaims.dfy`, `NumberMeanings.dfy` and `Acceptance.dfy`; `StableTables.dfy`, `Evolution.dfy` and
`References.dfy` say how tables may change while files are loaded and what that cannot change. `FileElements.dfy` and
`Requirements.dfy` describe files by their elements, not by traversals, and with the bounds written out: what is
declared, linked and accepted is proved to be just that. A descriptor is identified by the full name of its symbol, a
pointer is a block number that is never given out twice, and `saved` (ghost) holds what each checkpoint must bring
back. `Committed` says what every call of a client keeps: no checkpoint, nothing pending, parents closed, imports
closed and older, no symbol without its file, files sound, and files settled: what a file declares is in the table,
what its fields, extensions and methods refer to is in the table, and its numbers are claimed once. Where imports are
enforced the files are resolved as well: every reference still leads where the scope rule leads it now.

**Descriptor database** (`descriptor_database.cc`). The sorted map of symbols is a sorted sequence with `UpperBound`;
`DescriptorIndex` is the class that fills it; `MergedDatabases` asks several sources in turn. `IndexedElements.dfy` says
which elements of a file are indexed.

**Packet codec** (`MyPacket.pb.cc`, `wire_format_lite*`, `coded_stream*`). One class stands for all seven generated
ones: `GeneratedMessage` has a schema and follows the template that the generator fills in for each. The input stream
has the position, limit, recursion depth and end flag of the source. `Parse` is the plain loop: read a tag, dispatch,
repeat. The generated parser with its jumps is a method proved equal to it for every byte string; its two shortcuts may
answer no at any time (`*`). The merge law speaks of *pieces*: values, nested messages, and unknown fields, in any order;
`CutShort.dfy` says which beginnings of them are accepted. `WireBytes.dfy` has the bytes themselves, with the numbers of
the format: varints, tags, messages and well-formed unknown fields.

**Session pool** (Homework5). `SessionPool` is a state machine whose steps are single atomic accesses by any number of
threads: the exchange on the lock flag, each list or counter update, each reference count change. Operating system
results are chosen freely. A worker may also flush a session it holds no context of, which is *orderly* as long as
others keep the session referenced: `FlushRaces.dfy` has the runs that end badly otherwise. `LostSessions.dfy` and
`StrandedSessions.dfy` have the steps after which a session is issued for good, and `ReturningSessions.dfy` shows that
every other session can come back. A session records, besides the source's fields, whether the reference of its
issue is still held and how many I/O contexts are on their way. `ClientSessions` has the same code as classes, seen by one thread,
which waits for the lock while another holds it and then finds what that one left.

## Where the code falls short

- `FindLastLessOrEqual` returns the first key when every key is greater (descriptor_database.cc:222), and `AddSymbol`
  then steps past it. The invariant the header promises is broken exactly in the case `SymbolIndex.Overlooks`, which is
  a condition on the first two keys; `AdmitsMeans` and `InsertKeepsIndex` say so in both directions.
- A nested message whose length runs past the end of the input is not rejected for that: it is accepted if and only if
  what there is of it parses to its end (`CutShort.OverlongLength`). So a message cut short is accepted exactly when the
  cut falls between pieces at every level (`CutShort.ParseCut`).
- A file that imports itself is never refused for it, with a database or without (`Acceptance.SelfImportIsPresent`, and
  the conditions of `BuildFile`).
- A session stays issued for good when its accept or its disconnect is refused (`LostSessions.StepLoses`), and when its
  first receive is: the code reports that and goes on, so the session stays connected with no I/O whose end would be
  noticed (`StrandedSessions.StepStrands`, `FirstReceiveStrands`). In the model, where every I/O that was started can
  complete, these are the only ways: every other session can come back (`ReturningSessions.ComesBackUnlessGone`).
- A flush can touch a session after its last reference is gone; then an assertion fails or the thread waits for its own
  lock (`FlushRaces.FlushCanBreak`). A step is safe if and only if it is orderly, which is a condition on the reference
  count: an orderly step keeps the invariant (`SessionPool.StepFine`), and any other breaks, at once or when the send it
  prepares is refused (`SessionPool.DisorderBreaks`).

## Model

| member | source | states |
|---|---|---|
| TablesSpec.NestedRollbackExact | Homework7/Protobuf/google/protobuf/descriptor.cc:575-636 | After a checkpoint and any well-nested run of additions, allocations and inner checkpoints, each cleared or rolled back, rolling back gives the whole earlier state again: the three tables, the four allocation vectors, the pending vectors and the checkpoint stack |
| TablesSpec.StepConsistent | Homework7/Protobuf/google/protobuf/descriptor.cc:575-636 | Every operation at any stack depth keeps each checkpoint of the stack able to recover exactly what was there when it was taken |
| TablesSpec.RunKeepsLowest | Homework7/Protobuf/google/protobuf/descriptor.cc:591-636 | Over a whole well-nested run the lowest checkpoint keeps recovering its own contents, and what was pending below it stays untouched |
| TablesSpec.LowerSurvivesRollback | Homework7/Protobuf/google/protobuf/descriptor.cc:591-635 | Undoing back to an upper checkpoint and then to a lower one is undoing to the lower one |
| TablesSpec.StepSound | Homework7/Protobuf/google/protobuf/descriptor.cc:731-739 | No single operation, rollback included, makes a key or a target of a table dangle now or in any contents a checkpoint can bring back |
| TablesSpec.NothingDangles | Homework7/Protobuf/google/protobuf/descriptor.cc:591-636 | In every run that allocates before it adds, afterwards every key string and every target lies among the strings and blocks that have survived |
| PoolTables.Tables.AddCheckpoint | Homework7/Protobuf/google/protobuf/descriptor.cc:575-577 | The new checkpoint stands for exactly the present contents |
| PoolTables.Tables.ClearLastCheckpoint | Homework7/Protobuf/google/protobuf/descriptor.cc:579-589 | The contents stay, one checkpoint is gone, and the pending vectors are emptied only with the last one |
| PoolTables.Tables.RollbackToLastCheckpoint | Homework7/Protobuf/google/protobuf/descriptor.cc:591-636 | The contents are those of the last checkpoint still on the stack, whatever was cleared or rolled back above it |
| PoolTables.Tables.EraseSymbols | Homework7/Protobuf/google/protobuf/descriptor.cc:595-599 | The erasing loop removes exactly the symbols recorded since the checkpoint |
| PoolTables.Tables.EraseFiles | Homework7/Protobuf/google/protobuf/descriptor.cc:600-604 | The same for files |
| PoolTables.Tables.EraseExtensions | Homework7/Protobuf/google/protobuf/descriptor.cc:605-609 | The same for extension numbers |
| PoolTables.Tables.AddSymbol | Homework7/Protobuf/google/protobuf/descriptor.cc:731-739 | Inserts and records a new key and reports failure, changing nothing, for one that is taken |
| PoolTables.Tables.AddFile | Homework7/Protobuf/google/protobuf/descriptor.cc:747-754 | The same for files |
| PoolTables.Tables.AddExtension | Homework7/Protobuf/google/protobuf/descriptor.cc:787-795 | The same for extension numbers |
| PoolTables.Tables.AllocateString | Homework7/Protobuf/google/protobuf/descriptor.cc:809-813 | A fresh string is owned; nothing else changes |
| PoolTables.Tables.AllocateBytes | Homework7/Protobuf/google/protobuf/descriptor.cc:828-838 | A request for no bytes allocates nothing; otherwise the block is newer than the block of every file in the tables |
| PoolTables.Tables.FindSymbol | Homework7/Protobuf/google/protobuf/descriptor.cc:640-647 | What is in the table under a name |
| DescriptorPools.DescriptorBuilder.RecordPublicDependencies | Homework7/Protobuf/google/protobuf/descriptor.cc:2583-2588 | The depth-first walk adds exactly the files reachable over public imports that were not visited before, and ends on cyclic graphs |
| DescriptorPools.DescriptorBuilder.RecordAllDependencies | Homework7/Protobuf/google/protobuf/descriptor.cc:3184-3188 | Run over all imports with one visited set it yields the visible files |
| PublicImports.RecordedAllIsVisible | Homework7/Protobuf/google/protobuf/descriptor.cc:2583-2588 | The accumulated set is the set of files reachable from a direct import by zero or more public imports, for any finite graph |
| PublicImports.VisibleUnfolds | Homework7/Protobuf/google/protobuf/descriptor.cc:2583-2588 | A file is visible if and only if it is a direct import or a public import of a visible file |
| PublicImports.PublicTargetsMeans | Homework7/Protobuf/google/protobuf/descriptor.cc:2583-2588 | The files a file imports publicly are its imports at the positions listed, as far as these are in range |
| DescriptorPools.DescriptorBuilder.LookupSymbolNoPlaceholder | Homework7/Protobuf/google/protobuf/descriptor.cc:2656-2723 | The loop that chops the scope string refines the recursive lookup and ends, without a database and also with one where imports are enforced, whatever is loaded on the way; in any pool what it returns is in the table under the name put into an enclosing scope or at the root |
| DescriptorPools.DescriptorBuilder.FindSymbol | Homework7/Protobuf/google/protobuf/descriptor.cc:2590-2654 | The symbol found is the one in the tables, if it was there or its file could be loaded, and if the file may use it: defined in the file itself, in a visible file, or a package one of these is in. Where imports are enforced this is what the name meant before anything was loaded |
| DescriptorPools.DescriptorBuilder.MayUseSymbol | Homework7/Protobuf/google/protobuf/descriptor.cc:2625-2653 | The loop over the visible files decides whether some file in sight is in the package |
| Resolver.InnermostScopeDecides | Homework7/Protobuf/google/protobuf/descriptor.cc:2665-2723 | On dotted components: the innermost enclosing scope whose first part settles the search decides the answer, even if the rest is undefined there; if none does, the name is looked up at the root |
| Resolver.LookupUnfolds | Homework7/Protobuf/google/protobuf/descriptor.cc:2656-2723 | Scope by scope and kind by kind: for a compound name nothing, a field, an enum value or a method under its first part lets the search go on outwards, and a message, enum, service or package ends it; a simple name ends it when found, if it is a message or an enum or others are wanted too |
| Resolver.VisibleMeans | Homework7/Protobuf/google/protobuf/descriptor.cc:2609-2653 | A symbol may be used if and only if it is the file's own, that of a visible file, or a package that the file or a visible one is in, or imports are not enforced |
| Resolver.NonTypeReturned | Homework7/Protobuf/google/protobuf/descriptor.cc:2656-2723 | When only types are wanted a symbol that is no type is returned if and only if the name is fully qualified and stands for one, or no scope settles the search and it stands for one at the root, or it is compound and stands for one in the scope that settles the search; so a simple name found in an enclosing scope is a type |
| Resolver.NonTypeExamples | Homework7/Protobuf/google/protobuf/descriptor.cc:2656-2723 | Each of the three cases comes up |
| Resolver.DottedComponents | Homework7/Protobuf/google/protobuf/descriptor.cc:2686-2698 | Splitting a name at its dots and joining gives the name again |
| Resolver.ComponentsDotted | Homework7/Protobuf/google/protobuf/descriptor.cc:2686-2698 | Joining dotless components and splitting gives them again |
| DescriptorPools.DescriptorBuilder.BuildMessage | Homework7/Protobuf/google/protobuf/descriptor.cc:3251-3316 | Declares exactly the symbols of the message and of everything inside it, in order, and finds an error exactly when a name, number or range is bad or a name is taken |
| DescriptorPools.DescriptorBuilder.BuildFieldOrExtension | Homework7/Protobuf/google/protobuf/descriptor.cc:3318-3548 | The same for a field or an extension |
| DescriptorPools.DescriptorBuilder.BuildEnum | Homework7/Protobuf/google/protobuf/descriptor.cc:3574-3611 | The same for an enum and its values |
| DescriptorPools.DescriptorBuilder.BuildEnumValue | Homework7/Protobuf/google/protobuf/descriptor.cc:3613-3641 | A value is declared beside its enum, not inside it |
| DescriptorPools.DescriptorBuilder.BuildService | Homework7/Protobuf/google/protobuf/descriptor.cc:3681-3705 | The same for a service |
| DescriptorPools.DescriptorBuilder.BuildMethod | Homework7/Protobuf/google/protobuf/descriptor.cc:3707-3733 | The same for a method |
| DescriptorPools.DescriptorBuilder.BuildExtensionRange | Homework7/Protobuf/google/protobuf/descriptor.cc:3550-3572 | An error exactly when the range is empty or does not start above zero |
| DescriptorPools.DescriptorBuilder.CheckFieldsOutside | Homework7/Protobuf/google/protobuf/descriptor.cc:3285-3299 | The two loops find an error exactly when a field lies in a range |
| DescriptorPools.DescriptorBuilder.CheckRangesApart | Homework7/Protobuf/google/protobuf/descriptor.cc:3301-3315 | The two loops find an error exactly when two ranges overlap |
| DescriptorPools.DescriptorBuilder.ValidateMessageOptions | Homework7/Protobuf/google/protobuf/descriptor.cc:4054-4074 | An error exactly when a range of the message or of a nested one ends above the bound that applies to it |
| DescriptorPools.DescriptorBuilder.AddPackage | Homework7/Protobuf/google/protobuf/descriptor.cc:2893-2918 | Declares the package and the parents that are missing, stopping at the first known one |
| Declarations.ClashMeansTaken | Homework7/Protobuf/google/protobuf/descriptor.cc:2855-2890 | Declarations clash exactly when a name is taken already or declared twice |
| Declarations.PackageClosure | Homework7/Protobuf/google/protobuf/descriptor.cc:2893-2918 | Stopping early still leaves every parent of the package in the table as an aggregate, provided the table was closed |
| Declarations.DeclarationClosure | Homework7/Protobuf/google/protobuf/descriptor.cc:3251-3283 | Declarations rooted in a known scope keep the table closed under parents |
| Declarations.FileClosure | Homework7/Protobuf/google/protobuf/descriptor.cc:2893-2937 | A file without errors keeps the table closed: the dotted parent of each symbol is present and is an aggregate |
| Declarations.FileSymbolsGrow | Homework7/Protobuf/google/protobuf/descriptor.cc:2855-2890 | A file without errors overwrites no symbol |
| FileElements.ElementsDeclared | Homework7/Protobuf/google/protobuf/descriptor.cc:3251-3733 | What a file declares is exactly its messages at any depth, their fields, extensions, enums and enum values, and its own extensions, enums and services with their methods, each in its scope and under its full name, values beside their enum |
| FileElements.ElementsCount | Homework7/Protobuf/google/protobuf/descriptor.cc:3251-3733 | Each of them is declared once, and each field, extension and method is linked once |
| FileElements.ElementsLinked | Homework7/Protobuf/google/protobuf/descriptor.cc:3739-4010 | What is linked is exactly the fields and extensions at any depth and the methods, a field as one of its message |
| Requirements.ElementsMean | Homework7/Protobuf/google/protobuf/descriptor.cc:3251-3733 | The checks made while declaring pass if and only if every element is fine: names of letters, digits and underscores; numbers from 1 and not from 19000 to 19999; numbers of fields up to 536870911; enums with a value; extension ranges that are not empty, share no number, contain no field and end at 536870911, or at 2147483647 in a message set |
| Requirements.PackageMeans | Homework7/Protobuf/google/protobuf/descriptor.cc:2893-2918 | A package is declared without an error if and only if the new parts of its name are named properly and the longest known part is a package |
| Requirements.PackageDeclares | Homework7/Protobuf/google/protobuf/descriptor.cc:2893-2918 | The new parts, and nothing else, are declared as packages of the file |
| Requirements.SymbolsAfter | Homework7/Protobuf/google/protobuf/descriptor.cc:2855-2918 | After a file without errors the symbols are those from before, its new package parts and its elements |
| DescriptorPools.DescriptorBuilder.CrossLinkFile | Homework7/Protobuf/google/protobuf/descriptor.cc:3739-3760 | Links the references in order. Without a database, or where imports are enforced, the numbers claimed and the outcome are those of the linking function for what the names meant when the file had been declared. In any pool, unless an error is found, every reference leads to a symbol of the right kind in the table, under the name put into an enclosing scope or at the root, and every field and extension gets a number of a message |
| DescriptorPools.DescriptorBuilder.CrossLinkMessage | Homework7/Protobuf/google/protobuf/descriptor.cc:3762-3783 | The same for a message and what is inside it |
| DescriptorPools.DescriptorBuilder.CrossLinkField | Homework7/Protobuf/google/protobuf/descriptor.cc:3785-3948 | The same for one field or extension |
| DescriptorPools.DescriptorBuilder.LinkExtendee | Homework7/Protobuf/google/protobuf/descriptor.cc:3791-3815 | The message is the one that the scope rule gives, and declares the number, or an error is found; in any pool it is one that the name may stand for |
| DescriptorPools.DescriptorBuilder.LinkType | Homework7/Protobuf/google/protobuf/descriptor.cc:3817-3912 | The type is the one that the scope rule gives among types, and is of the kind the field needs, or an error is found; in any pool it is one that the name may stand for |
| DescriptorPools.DescriptorBuilder.LinkKind | Homework7/Protobuf/google/protobuf/descriptor.cc:3851-3912 | Case by case as in the source: which kinds of symbol suit the type of the field, and that the default of an enum field is a value of that enum |
| DescriptorPools.DescriptorBuilder.AddFieldByNumber | Homework7/Protobuf/google/protobuf/descriptor.cc:3914-3944 | A number that is taken is an error; an extension number goes to the pool either way |
| DescriptorPools.DescriptorBuilder.CrossLinkMethod | Homework7/Protobuf/google/protobuf/descriptor.cc:3979-4010 | Both types of a method must be messages, by the scope rule |
| Linking.LinkingGoodMeans | Homework7/Protobuf/google/protobuf/descriptor.cc:3785-3948 | Linking finds no error if and only if every reference resolves well and no two fields claim one number of one message |
| Linking.TableHoldsClaims | Homework7/Protobuf/google/protobuf/descriptor.cc:776-779 | The table of fields by number holds exactly the claims made |
| Requirements.ReferenceMeans | Homework7/Protobuf/google/protobuf/descriptor.cc:3785-4010 | A reference resolves well if and only if its extendee is a message with a range for the number; its type name leads to a message, the kind being that or left open and without a default, or to an enum, the kind being that or left open and with none but one of its own values as default; without a type name the kind is neither; and both types of a method are messages |
| Requirements.ReferencesMean | Homework7/Protobuf/google/protobuf/descriptor.cc:3785-3948 | Linking finds no error if and only if all references are fine and no two have one number of one message |
| Requirements.ExtensionsAfter | Homework7/Protobuf/google/protobuf/descriptor.cc:3914-3944 | The extension numbers added are those of the file's extensions, each of the message it extends |
| NumberClaims.ClaimsFromAppend | Homework7/Protobuf/google/protobuf/descriptor.cc:3762-3783 | References that were settled stay settled while nested loads make the tables grow |
| NumberClaims.ClaimsFitLater | Homework7/Protobuf/google/protobuf/descriptor.cc:3739-3760 | Whatever references lead to stays in the tables, and the claims on numbers fit on, while the tables grow |
| StableTables.LoadingIsInvisible | Homework7/Protobuf/google/protobuf/descriptor.cc:2602-2607 | The comment gives the reason why asking the database for an unknown symbol should make no difference, since imports are loaded already. It makes none: for a file that enforces its imports, all of them loaded, every name means the same before and after any files are added to good tables |
| StableTables.VisibleStays | Homework7/Protobuf/google/protobuf/descriptor.cc:2583-2588 | What is visible through imports that are loaded does not change when files are added |
| StableTables.SteadyWith | Homework7/Protobuf/google/protobuf/descriptor.cc:2893-2937 | A file declared without errors, its imports present, keeps the tables such that this holds: parents closed, packages declared, imports loaded, and no symbol without its file |
| StableTables.NewSymbolsAreOwn | Homework7/Protobuf/google/protobuf/descriptor.cc:2855-2918 | Every symbol that a file adds, packages included, is recorded as its own |
| Evolution.AnswersStay | Homework7/Protobuf/google/protobuf/descriptor.cc:2602-2607 | The same across any number of nested loads |
| Evolution.BuiltIsResolved | Homework7/Protobuf/google/protobuf/descriptor.cc:3739-3760 | A file whose references resolved by the answers it got is resolved by the scope rule in the tables as they are when its build ends |
| Evolution.BuildingEvolves | Homework7/Protobuf/google/protobuf/descriptor.cc:3082-3249 | Declaring a file and linking it, both without errors, lets the tables change only as they may: nothing lost, nothing overwritten, good tables good, settled files settled, resolved files resolved |
| References.ReferencesInSight | Homework7/Protobuf/google/protobuf/descriptor.cc:2609-2654 | In the tables of a pool that enforces imports, also after any loading, every type, extendee and method type that a file names is a message or enum of that file or of one visible to it, under the name put into an enclosing scope or at the root |
| NumberMeanings.NumbersMeanOneThing | Homework7/Protobuf/google/protobuf/descriptor.cc:3914-3938 | In every file of the tables, for every message at any depth: field numbers are distinct, in bounds and outside the reserved block, ranges are non-empty and disjoint and hold no field, and an extension of the file uses a number inside the ranges that no other field or extension has |
| NumberMeanings.ExtensionMeansOneThing | Homework7/Protobuf/google/protobuf/descriptor.cc:3807-3814 | The part of that about one extension |
| NumberMeanings.RangesAreFine | Homework7/Protobuf/google/protobuf/descriptor.cc:3301-3315 | The part of that about ranges |
| NumberMeanings.FieldsAreFine | Homework7/Protobuf/google/protobuf/descriptor.cc:3496-3519 | The part of that about fields |
| DescriptorPools.DescriptorPool.BuildFile | Homework7/Protobuf/google/protobuf/descriptor.cc:2499-2507 | In a pool without a database a file is built if and only if it is the identical file already there or passes every check; if it is refused the tables are as before, if it is accepted everything of it is there, and the tables stay good |
| Requirements.AcceptsMeans | Homework7/Protobuf/google/protobuf/descriptor.cc:3082-3249 | The condition for being built, spelled out without the builder's traversals: a file is accepted if and only if it is new, its imports are itself or loaded and listed once, indexes are in range, package and elements are fine, no full name is taken or repeated, references are fine, and no other check fails |
| DescriptorPools.DescriptorBuilder.BuildFile | Homework7/Protobuf/google/protobuf/descriptor.cc:3020-3080 | Every exit leaves the checkpoint and pending stacks as at entry, and a failed build leaves the tables as its own checkpoint saw them, nested builds included; it ends on every finite database, cyclic imports included. Without a database, or where imports are enforced, a file is built if and only if it is there and identical, or is not pending and passes every check against the tables of its own checkpoint, whatever is loaded later |
| DescriptorPools.DescriptorBuilder.BuildUnderCheckpoint | Homework7/Protobuf/google/protobuf/descriptor.cc:3082-3249 | A build that fails leaves the tables as they were; one that succeeds leaves the file and its symbols in them; which of the two is decided by the tables of the checkpoint |
| DescriptorPools.DescriptorBuilder.BuildBody | Homework7/Protobuf/google/protobuf/descriptor.cc:3085-3240 | What a build does between checkpoint and commit or rollback keeps both stacks, and without errors only lets the tables grow as they may |
| DescriptorPools.DescriptorBuilder.PreloadDependencies | Homework7/Protobuf/google/protobuf/descriptor.cc:3069-3080 | Loading the imports leaves both stacks as they were and never loads the file that is pending |
| DescriptorPools.DescriptorBuilder.CheckDependencies | Homework7/Protobuf/google/protobuf/descriptor.cc:3129-3165 | An error exactly when an import is listed twice or is not in the table |
| DescriptorPools.DescriptorPool.FindFileByName | Homework7/Protobuf/google/protobuf/descriptor.cc:964-977 | Finds a file exactly when it is in the tables afterwards; loading keeps the tables good and every file in them settled and, where imports are enforced, resolved |
| DescriptorPools.DescriptorPool.FindSymbolByName | Homework7/Protobuf/google/protobuf/descriptor.cc:667-686 | The symbol the pool has, without loading; otherwise the symbol in the tables if the file named by the database could be built and brought one of that name; otherwise none |
| DescriptorPools.DescriptorPool.TryFindFileInFallbackDatabase | Homework7/Protobuf/google/protobuf/descriptor.cc:1320-1333 | True exactly when the file is in the tables; a failure is remembered and not tried again; ends |
| DescriptorPools.DescriptorPool.TryFindSymbolInFallbackDatabase | Homework7/Protobuf/google/protobuf/descriptor.cc:1357-1394 | True if and only if the database names a file that was not there, the symbol is not inside a type that was, and the file is there now; otherwise, if there was nothing to load, nothing changes; ends |
| DescriptorPools.DescriptorPool.FileToLoadMeans | Homework7/Protobuf/google/protobuf/descriptor.cc:1335-1394 | There is a file to load for a name if and only if the database names it and has it, the pool has not, and the name is in no message, field, enum, enum value, service or method that is known |
| DescriptorPools.DescriptorPool.IsSubSymbolOfBuiltType | Homework7/Protobuf/google/protobuf/descriptor.cc:1335-1355 | The loop answers whether some proper dotted prefix is a symbol other than a package |
| Acceptance.AcceptedKeepsGoodCore | Homework7/Protobuf/google/protobuf/descriptor.cc:3116-3165 | Adding an accepted file keeps the tables good: parents closed, packages declared, no symbol without its file, imports present and added before, every file sound |
| Acceptance.ImportsAcyclic | Homework7/Protobuf/google/protobuf/descriptor.cc:3129-3165 | No walk along imports that leaves each file for another comes back to where it started |
| Acceptance.SelfImportIsPresent | Homework7/Protobuf/google/protobuf/descriptor.cc:3141-3164 | For all files: the imports are present if and only if those other than the file itself are, so importing itself is never a reason for refusal |
| Acceptance.SelfImportAccepted | Homework7/Protobuf/google/protobuf/descriptor.cc:3141-3164 | For example, a file that imports itself alone is accepted by the empty pool |
| SymbolIndex.FindSymbolIsScan | Homework7/Protobuf/google/protobuf/descriptor_database.cc:179-186 | For every search string, with invalid characters too, the search in the sorted map agrees with scanning all keys for the unique one that is the string or a dotted prefix of it |
| SymbolIndex.MatchIsLastLessOrEqual | Homework7/Protobuf/google/protobuf/descriptor_database.h:184-233 | The informal proof of the header: a key that matches is the last one not greater than the search string |
| SymbolIndex.AdmitsMeans | Homework7/Protobuf/google/protobuf/descriptor_database.cc:85-134 | The test of two neighbours accepts exactly the names of letters, digits, underscores and dots that conflict with no key, plus those of the overlooked case; so it is right if and only if the name is not overlooked |
| SymbolIndex.AdmittedAlone | Homework7/Protobuf/google/protobuf/descriptor_database.cc:235-247 | The empty index admits a name if and only if all its characters are letters, digits, underscores or dots |
| SymbolIndex.PredecessorMeansNotOverlooked | Homework7/Protobuf/google/protobuf/descriptor_database.cc:214-224 | Nothing is overlooked when the map is empty or some key is not greater than the name |
| SymbolIndex.InsertKeepsIndex | Homework7/Protobuf/google/protobuf/descriptor_database.cc:100-134 | Inserting an admitted name keeps the map sorted and valid, and prefix-free if and only if the name was not overlooked |
| SymbolIndex.OverlookedExample | Homework7/Protobuf/google/protobuf/descriptor_database.cc:214-224 | With "a.b" in the map "a" is accepted, and then "a.c" is not found |
| ExtensionIndex.FindIsLookup | Homework7/Protobuf/google/protobuf/descriptor_database.cc:188-195 | The search finds exactly the entry of the key |
| ExtensionIndex.ListedIsAll | Homework7/Protobuf/google/protobuf/descriptor_database.cc:197-212 | The numbers listed are all non-negative ones of the message, ascending |
| ExtensionIndex.OneListOnly | Homework7/Protobuf/google/protobuf/descriptor_database.cc:197-212 | Only one list is that of a message: ascending, without a number twice |
| DescriptorIndexes.DescriptorIndex.AddSymbol | Homework7/Protobuf/google/protobuf/descriptor_database.cc:85-134 | Adds the name exactly when the test of two neighbours admits it |
| DescriptorIndexes.DescriptorIndex.AddExtension | Homework7/Protobuf/google/protobuf/descriptor_database.cc:149-171 | Adds a fully qualified extension unless its key is taken; ignores one that is not |
| DescriptorIndexes.DescriptorIndex.AddNestedExtensions | Homework7/Protobuf/google/protobuf/descriptor_database.cc:136-147 | Adds the extensions of nested messages and then its own, stopping at the first failure |
| DescriptorIndexes.DescriptorIndex.AddFile | Homework7/Protobuf/google/protobuf/descriptor_database.cc:52-83 | Adds the items of the file in order, stopping at the first failure, with what was added before it left in place |
| DescriptorIndexes.DescriptorIndex.FindAllExtensionNumbers | Homework7/Protobuf/google/protobuf/descriptor_database.cc:197-212 | The loop appends exactly the numbers of the message, ascending |
| DescriptorIndexes.AddedFileIsFound | Homework7/Protobuf/google/protobuf/descriptor_database.cc:52-83 | With nothing overlooked, whatever could be found still is, and an accepted file is found by its name, by each top-level symbol and anything below it, and by each fully qualified extension |
| DescriptorIndexes.WithFileMeans | Homework7/Protobuf/google/protobuf/descriptor_database.cc:52-171 | Adding a file succeeds if and only if its name is new and each of its items can be added in turn: a symbol that the neighbour test admits, an extension whose key is not taken |
| IndexedElements.SymbolsIndexed | Homework7/Protobuf/google/protobuf/descriptor_database.cc:52-83 | The symbols a file contributes are exactly the names of its messages, enums, extensions and services under its package |
| IndexedElements.ExtensionsAreIndexed | Homework7/Protobuf/google/protobuf/descriptor_database.cc:136-171 | The extensions it contributes are exactly those of the file and of its messages at any depth whose extendee has a leading dot |
| MergedDatabases.FindFileByName | Homework7/Protobuf/google/protobuf/descriptor_database.cc:461-470 | The first source that has the file |
| MergedDatabases.FindFileContainingSymbol | Homework7/Protobuf/google/protobuf/descriptor_database.cc:472-492 | The loops give the merged answer by symbol |
| MergedDatabases.FindFileContainingExtension | Homework7/Protobuf/google/protobuf/descriptor_database.cc:494-516 | The loops give the merged answer by extension |
| MergedDatabases.MergedByMeans | Homework7/Protobuf/google/protobuf/descriptor_database.cc:472-492 | That answer is a file if and only if the first source with an answer gives it and no earlier source has a file of that name |
| MergedDatabases.MergedByNameMeans | Homework7/Protobuf/google/protobuf/descriptor_database.cc:461-470 | The answer by name is that of the first source to have one |
| MergedDatabases.MergedViewsAgree | Homework7/Protobuf/google/protobuf/descriptor_database.cc:461-516 | For self-consistent sources, a file found by symbol or extension is the one the merged database finds by its name |
| MergedDatabases.MergedIsSelfConsistent | Homework7/Protobuf/google/protobuf/descriptor_database.cc:461-516 | So the merged database is self-consistent itself |
| MergedDatabases.SimpleIsSelfConsistent | Homework7/Protobuf/google/protobuf/descriptor_database.cc:173-195 | A simple database whose values are its files is self-consistent |
| MergedDatabases.AddFileKeepsNamed | Homework7/Protobuf/google/protobuf/descriptor_database.cc:52-83 | Adding a file keeps that so |
| MergedDatabases.FindAllExtensionNumbers | Homework7/Protobuf/google/protobuf/descriptor_database.cc:518-538 | Appends the ascending union, without duplicates, of the sources that succeed |
| Varint.DecodeEncode | Homework7/Protobuf/google/protobuf/io/coded_stream.cc:422-441 | A written varint followed by anything reads back, and reading stops at its end |
| WireBytes.EncodeMeans | Homework7/Protobuf/google/protobuf/io/coded_stream.cc:771-792 | What is written is seven-bit groups of the value, the low ones first, the top bit set on all but the last, and no group too many |
| WireBytes.DecodeMeans | Homework7/Protobuf/google/protobuf/io/coded_stream.cc:422-441 | What is read is the value of the first such sequence in the input, with superfluous groups or without, if it is short enough |
| WireBytes.ReadsMean | Homework7/Protobuf/google/protobuf/io/coded_stream.cc:365-441 | Tags and lengths are varints of at most ten bytes cut to 32 bits; a tag that is zero then is bad |
| Varint.EncodeSize64 | Homework7/Protobuf/google/protobuf/io/coded_stream.cc:813-853 | The size tables give the number of bytes written, at most ten |
| Varint.Int32RoundTrip | Homework7/Protobuf/google/protobuf/wire_format_lite_inl.h:54-61 | Every int32 comes back, negative ones through ten bytes, and has the size computed for it |
| WireBytes.SignsMean | Homework7/Protobuf/google/protobuf/wire_format_lite_inl.h:54-61 | A negative number is written as its 64-bit two's complement; what is read is the signed 32-bit number congruent to the varint |
| CodedStreams.CodedInputStream.ReadVarint64 | Homework7/Protobuf/google/protobuf/io/coded_stream.cc:422-441 | The byte loop reads exactly the varint at the position, and keeps the low 64 bits of its value |
| CodedStreams.CodedInputStream.ReadTag | Homework7/Protobuf/google/protobuf/io/coded_stream.cc:365-420 | A tag, the end of the input (a legitimate end) or zero for a bad tag (not one) |
| CodedStreams.CodedInputStream.ExpectTag | Homework7/Protobuf/google/protobuf/io/coded_stream.h:861-882 | Takes the expected tag only if it comes next; may answer no at any time |
| CodedStreams.CodedInputStream.ExpectAtEnd | Homework7/Protobuf/google/protobuf/io/coded_stream.h:905-918 | Answers yes only at the end; may answer no at any time |
| CodedStreams.CodedInputStream.PushLimit | Homework7/Protobuf/google/protobuf/io/coded_stream.cc:112-135 | Narrows the input to the length, or leaves the enclosing limit if the length is negative or too long |
| CodedStreams.CodedInputStream.SkipField | Homework7/Protobuf/google/protobuf/wire_format_lite.cc:111-154 | Passes over one field of any wire type, groups with matching end tags within the recursion limit included |
| CodedStreams.CodedInputStream.SkipMessage | Homework7/Protobuf/google/protobuf/wire_format_lite.cc:156-174 | Passes over fields up to an end-group tag or the end |
| CodedStreams.CodedOutputStream.WriteVarint | Homework7/Protobuf/google/protobuf/io/coded_stream.cc:771-792 | The writing loop writes the varint |
| WireFormat.SkipFieldAppend | Homework7/Protobuf/google/protobuf/wire_format_lite.cc:111-174 | A field that can be skipped can be skipped with anything behind it, and nothing more is taken |
| WireBytes.FieldSkips | Homework7/Protobuf/google/protobuf/wire_format_lite.cc:111-174 | Every well-formed field, written with the wire type numbers, is passed over exactly: a varint, eight bytes, counted bytes, four bytes, or a group of fields up to the end-group tag of its number, if and only if groups are nested no deeper than allowed |
| WireBytes.NeverSkips | Homework7/Protobuf/google/protobuf/wire_format_lite.cc:139-153 | A field of wire type 4, 6 or 7 is malformed |
| WireBytes.UnknownFieldIsIgnored | Homework7/Protobuf/MyPacket.pb.cc:579-622 | So parsing goes on behind a field that is not the message's own, with groups nested up to a hundred deep, and fails on deeper ones |
| WireBytes.TagsMean | Homework7/Protobuf/google/protobuf/wire_format_lite.h:86-93 | The tag of field number n is 8n for integers, 8n + 2 for strings and messages, 8n + 5 for floats |
| WireBytes.OwnMeans | Homework7/Protobuf/MyPacket.pb.cc:579-622 | A tag is a message's own if and only if it is that of one of its fields, wire type included |
| GeneratedMessages.GeneratedMessage.MergePartialFromCodedStream | Homework7/Protobuf/MyPacket.pb.cc:573-635 | For every byte string the parser with jumps from field to field gives the same result, message, position and end as the plain loop of reading a tag and dispatching on it, whichever times the two shortcuts choose to answer no |
| GeneratedMessages.GeneratedMessage.ReadFields | Homework7/Protobuf/MyPacket.pb.cc:579-622 | The chain of jumps is what the plain loop would do with the tags that follow |
| GeneratedMessages.GeneratedMessage.ReadField | Homework7/Protobuf/MyPacket.pb.cc:581-616 | One value is read into its field; a string or message is marked present even when reading it fails |
| GeneratedMessages.GeneratedMessage.ReadMessage | Homework7/Protobuf/google/protobuf/wire_format_lite_inl.h:396-411 | A nested message is merged within its limit, must end there, and costs one level of recursion |
| GeneratedMessages.GeneratedMessage.Clear | Homework7/Protobuf/MyPacket.pb.cc:558-571 | Resetting only the fields that are set clears the message, because the others hold their defaults |
| WireBytes.DefaultsMean | Homework7/Protobuf/MyPacket.pb.cc:513-519 | An empty message has nothing set, numbers zero, strings empty, and empty messages inside |
| GeneratedMessages.GeneratedMessage.MergeFrom | Homework7/Protobuf/MyPacket.pb.cc:695-708 | The fields set in the other message are taken over, nested messages merged |
| GeneratedMessages.GeneratedMessage.IsInitialized | Homework7/Protobuf/MyPacket.pb.cc:716-723 | Every field is set and nested messages are complete |
| WireBytes.InitializedMeans | Homework7/Protobuf/MyPacket.pb.cc:716-723 | A message is complete if and only if every field is set that can be reached from it through nested messages |
| GeneratedMessages.GeneratedMessage.ByteSize | Homework7/Protobuf/MyPacket.pb.cc:658-688 | The sum computed is the size |
| GeneratedMessages.GeneratedMessage.SerializeWithCachedSizes | Homework7/Protobuf/MyPacket.pb.cc:637-656 | Appends the fields that are set, in order |
| GeneratedMessages.GeneratedMessage.WriteField | Homework7/Protobuf/MyPacket.pb.cc:639-655 | Writes the tag and then the value of the field, as the specification of the bytes has it |
| GeneratedMessages.GeneratedMessage.ParseFromArray | Homework7/Protobuf/google/protobuf/message_lite.cc:141-145 | Succeeds exactly when the bytes parse to their end and every required field is set |
| GeneratedMessages.GeneratedMessage.SerializeToArray | Homework7/Protobuf/google/protobuf/message_lite.cc:299-317 | The bytes written have the size computed beforehand |
| Messages.SizeIsLength | Homework7/Protobuf/MyPacket.pb.cc:658-688 | The size computed is the number of bytes serialized |
| WireBytes.SerializeMeans | Homework7/Protobuf/MyPacket.pb.cc:637-656 | The bytes of a message are, field by field in the order of the numbers, a tag byte and a varint, four bytes, or a count and what is counted; a field that is not set has none |
| Messages.ParseAtTag | Homework7/Protobuf/MyPacket.pb.cc:591-606 | At the tag of a field the plain loop reads that field, as a jump does |
| Messages.MergeIntoDefault | Homework7/Protobuf/MyPacket.pb.cc:710-714 | Merging into an empty message gives the message merged |
| MergeLaw.ParsePieces | Homework7/Protobuf/MyPacket.pb.cc:573-635 | Any sequence of values, nested messages in pieces and unknown fields parses to what the pieces do one after the other |
| MergeLaw.ApplyAllAt | Homework7/Protobuf/MyPacket.pb.cc:573-635 | The last value of a field wins, all pieces of a nested message are merged, a field not mentioned stays |
| MergeLaw.ParseMerges | Homework7/Protobuf/MyPacket.pb.cc:695-708 | Whatever spells a message, with fields in any order and unknown fields anywhere, nested ones included, parses into any message as the merge with it |
| MergeLaw.ParseThenMerge | Homework7/Protobuf/MyPacket.pb.cc:695-708 | Parsing into a message is parsing into an empty one and merging the result |
| MergeLaw.ParseSerialized | Homework7/Protobuf/MyPacket.pb.cc:637-656 | Parsing a serialized message into any message merges it, for every subset of fields |
| MergeLaw.RoundTrip | Homework7/Protobuf/MyPacket.pb.cc:637-656 | A serialized message comes back from its bytes |
| WireBytes.ShortMessagesFit | Homework7/Protobuf/MyPacket.pb.cc:658-688 | Every message of fewer than 2^31 bytes meets the condition of the round trip |
| MyPacket.PacketsComeBack | Homework7/Protobuf/MyPacket.pb.cc:637-688 | The same for the seven packets within the default recursion limit, with the computed size |
| MyPacket.PacketTags | Homework7/Protobuf/MyPacket.pb.cc:342-604 | The tag bytes of the seven packets: 8; 13, 21, 29; 8, 18, 26; 8, 18; 10, 18; 8, 18; 8, 18; the nested messages are positions |
| CutShort.OverlongLength | Homework7/Protobuf/google/protobuf/wire_format_lite_inl.h:396-411 | For any bytes: a nested message whose length is that of the rest of the input or more, up to 2^32 - 1, is accepted if and only if the recursion depth allows for it and what there is of it parses to its end |
| CutShort.ParseCut | Homework7/Protobuf/MyPacket.pb.cc:573-635 | The first k bytes of any sequence of values, nested messages and unknown fields are accepted if and only if the cut falls between two of them, at every nesting level the cut lies inside |
| CutShort.SerializedCut | Homework7/Protobuf/MyPacket.pb.cc:637-656 | So the first k bytes of a serialized message are accepted if and only if the cut falls between fields, at every nesting level it lies inside |
| MyPacket.OverlongLengthAccepted | Homework7/Protobuf/google/protobuf/wire_format_lite_inl.h:396-411 | Whole pieces behind an overlong length read as behind the true one |
| LocationPaths.GetMessagePath | Homework7/Protobuf/google/protobuf/descriptor.cc:2060-2069 | Pushes the path of a message at any depth |
| LocationPaths.GetLocationPath | Homework7/Protobuf/google/protobuf/descriptor.cc:2060-2103 | Pushes the path of any element |
| LocationPaths.PathsMean | Homework7/Protobuf/google/protobuf/descriptor.cc:2060-2103 | Each path with its numbers: messages of a file 4, enums 5, services 6; in a message fields 2, messages 3, enums 4; values of an enum and methods of a service 2 |
| LocationPaths.PathLeadsBack | Homework7/Protobuf/google/protobuf/descriptor.cc:2060-2103 | Following the path of an element down the file leads back to it |
| LocationPaths.FoundHasThatPath | Homework7/Protobuf/google/protobuf/descriptor.cc:2060-2103 | Whatever a path leads to is an element of the file and has that path |
| LocationPaths.PathsDiffer | Homework7/Protobuf/google/protobuf/descriptor.h:1443-1479 | No two elements of a file have one path |
| SessionPool.EveryRunIsSafe | Homework5/EduServer_IOCP/ClientSessionManager.cpp:35-67 | Under any interleaving of any number of threads in which a flush creates its context only while the session is referenced, and has another reference left if its send fails: the list is never popped empty, no assertion fails, no thread waits for the lock it holds; with the lock free, free sessions and the wrapped difference of the counters add up to MAX_CONNECTION; no session is free and in use, or free twice |
| SessionPool.StepFine | Homework5/EduServer_IOCP/ClientSessionManager.cpp:35-67 | A step keeps the invariant that implies this, and does not break, if and only if it is orderly in that sense: no other step of the pool can fail |
| SessionPool.DisorderBreaks | Homework5/EduServer_IOCP/OverlappedIOContext.cpp:6-21 | A step that is not orderly makes an assertion fail or waits for the lock of the send buffer at once, or creates a context whose deletion does so if the send is refused |
| SessionPool.InitInv | Homework5/EduServer_IOCP/ClientSessionManager.cpp:19-28 | It holds of the prepared pool |
| SessionPool.NeverPopsEmpty | Homework5/EduServer_IOCP/ClientSessionManager.cpp:52-55 | Whoever has passed the test finds a session in the list |
| SessionPool.DeleteAcceptFine | Homework5/EduServer_IOCP/ClientSession.cpp:56-65 | Deleting the context of a failed accept leaves the reference of the issue, so the lock is not entered again |
| SessionPool.FinishFine | Homework5/EduServer_IOCP/OverlappedIOContext.cpp:16-21 | Dropping the last reference leaves the session to one thread alone |
| SessionPool.ClaimedIsIdle | Homework5/EduServer_IOCP/ClientSessionManager.cpp:39 | A session being returned is not connected and has no references |
| SessionPool.CountersWrap | Homework5/EduServer_IOCP/ClientSessionManager.cpp:45-57 | Counting moves the difference by one also when a 64-bit counter wraps around |
| SessionPool.OnlyInside | Homework5/EduServer_IOCP/FastSpinlock.cpp:15-33 | At most one thread is between entering and leaving the lock |
| SessionPool.CreateSendFine | Homework5/EduServer_IOCP/OverlappedIOContext.cpp:8-14 | Creating the context of a flushed send is fine if and only if the session is still referenced |
| SessionPool.SendFine | Homework5/EduServer_IOCP/OverlappedIOContext.cpp:16-21 | Deleting it after a send that failed is fine if and only if it does not hold the last reference |
| FlushRaces.FlushCanBreak | Homework5/EduServer_IOCP/OverlappedIOContext.cpp:6-21 | With three threads the prepared pool has runs in which a worker that has handled a receive flushes its answer (FlushSend, Session.cpp from line 118) while another disconnects: in one the context it creates makes the assertion of a return fail, in the other deleting that context waits for the lock of the send buffer that it holds itself |
| FlushRaces.BreakingIsDisorderly | Homework5/EduServer_IOCP/ClientSessionManager.cpp:35-46 | Every run that breaks has a flush that is not orderly |
| LostSessions.StepLoses | Homework5/EduServer_IOCP/ClientSession.cpp:46-69 | A step loses a session, so that it is issued, not connected, and nothing is under way that would release it, if and only if in it the operating system refuses an accept or a disconnect of the session |
| LostSessions.FailedAcceptLoses | Homework5/EduServer_IOCP/ClientSession.cpp:56-65 | A session whose accept fails is lost |
| LostSessions.FailedDisconnectLoses | Homework5/EduServer_IOCP/OverlappedIOContext.cpp:16-21 | A session whose disconnect fails is lost |
| LostSessions.LostForever | Homework5/EduServer_IOCP/ClientSession.cpp:56-65 | A lost session never comes back to the list in any orderly run |
| StrandedSessions.StepStrands | Homework5/EduServer_IOCP/ClientSession.cpp:133-139 | A step strands a session, so that it is connected, held by nothing but the reference of its issue, and in no thread's hands, if and only if in it the last thread that has it in its hands leaves it connected with no I/O on its way |
| StrandedSessions.FirstReceiveStrands | Homework5/EduServer_IOCP/ClientSession.cpp:133-139 | This comes about when the first receive after an accept is refused, which the code reports without disconnecting |
| StrandedSessions.StrandedAfter | Homework5/EduServer_IOCP/ClientSession.cpp:133-139 | No step other than a flush of the session takes it up again |
| ReturningSessions.StepLosesForGood | Homework5/EduServer_IOCP/ClientSession.cpp:46-69 | A step makes it impossible for a session to come back if and only if in it an accept or a disconnect of the session is refused, or it is stranded |
| ReturningSessions.GoneForever | Homework5/EduServer_IOCP/ClientSession.cpp:149-152 | Such a session never comes back to the list in any orderly run without a flush of it |
| ReturningSessions.ComesBackUnlessGone | Homework5/EduServer_IOCP/ClientSession.cpp:149-152 | In every reachable state, for every session: it can come back to the list, in an orderly run without a flush of it, if and only if it is not lost, not about to be, and not stranded |
| ReturningSessions.FlushTakesUp | Homework5/EduServer_IOCP/OverlappedIOContext.cpp:6-12 | A stranded session can come back once it is flushed |
| ClientSessions.ClientSessionManager.PrepareClientSessions | Homework5/EduServer_IOCP/ClientSessionManager.cpp:19-28 | Fills the list with distinct new sessions |
| ClientSessions.ClientSessionManager.AcceptClientSessions | Homework5/EduServer_IOCP/ClientSessionManager.cpp:48-67 | Waits for the lock and issues from the end of the list as it is found then, until it is empty or an accept fails; each issued session holds two references, the failed one a single one |
| ClientSessions.ClientSessionManager.ReturnClientSession | Homework5/EduServer_IOCP/ClientSessionManager.cpp:35-46 | Waits for the lock, puts the session back and counts it, keeping the sum |
| ClientSessions.ClientSession.PostAccept | Homework5/EduServer_IOCP/ClientSession.cpp:46-69 | Takes a reference for the context, or leaves the count as it was |
| ClientSessions.ClientSession.ReleaseRef | Homework5/EduServer_IOCP/ClientSession.cpp:149-152 | Returns the session exactly with the last reference, waiting for the lock if another thread is inside |
| ClientSessions.FastSpinlock.EnterLock | Homework5/EduServer_IOCP/FastSpinlock.cpp:15-28 | Waits while the flag is set, and then is inside; only a thread that is inside already must not enter |

## Left out

- DescriptorPools.DescriptorBuilder.BuildFile: in a pool with a database that does not enforce imports, acceptance is not stated as an if-and-only-if, because a file may see what nested loads bring in; what every accepted file satisfies is stated (sound, settled, imports closed, numbers unique).
- DescriptorPools.DescriptorBuilder.LookupSymbolNoPlaceholder: in such a pool the equation with the recursive lookup is not stated either, since the tables may change between two scopes; stated are termination, the growth of the tables, and that the result stands in them under the name put into an enclosing scope or at the root. The linking methods inherit this.
- DescriptorPools.DescriptorBuilder.BuildFieldOrExtension: the parsing of default values and of names in camel and lower case in the same lines is left out; an error in a default value is part of one flag of the file, but for enum defaults, which are checked while linking.
- DescriptorPools.DescriptorBuilder.ValidateMessageOptions: the checks of message, field and enum options are one flag of the file; the bounds of extension ranges are modelled.
- DescriptorPools.DescriptorBuilder.AddFieldByNumber: the extension is recorded under the block of its file, and uniqueness of extension numbers across files is not stated, since the source ignores the collision.
- GeneratedMessages.GeneratedMessage.SerializeWithCachedSizes: sizes of nested messages are computed again where the source reads the cached ones, which it has computed just before.
- GeneratedMessages.GeneratedMessage.ReadMessage: the nested message is taken out, merged and put back instead of being merged through a pointer; it has no aliases in the source.
- CodedStreams.CodedInputStream.ReadTag: where the position is after a bad tag is left open; the source leaves it in different places on its fast and slow paths.
- CodedStreams.CodedInputStream.PushLimit: the total bytes limit (64 MB by default) and the division of the input into buffers are not modelled; the effect of buffers on the two shortcuts is.
- ClientSessions.FastSpinlock.EnterLock: the other holder of the lock leaves after any number of tries, given as a parameter; that it leaves at all is assumed here, and the state machine has the steps in which it does.
- SessionPool.EveryRunIsSafe: holds for orderly runs; that others keep a session referenced while it is flushed is an assumption, and the code does not ensure it.
- ReturningSessions.ComesBackUnlessGone: every I/O that was started is assumed to complete. An accept completion that fails before the socket is tied to the completion port (ClientSession.cpp:85-114) requests a disconnect whose completion nothing in the source delivers; the model has no such ties. A handler of the model may still disconnect after its receive was refused, which the source does for every handler but that of an accept.
- StrandedSessions.StepStrands: a handler of the model may end without posting a receive after any I/O; the source disconnects in that case except after an accept, and a flush finds an answer queued unless another thread has sent it, so that the refused first receive is the case the source has.
- ClientSessions.ClientSession.ReleaseRef: reference counts are unbounded integers.
- LocationPaths.GetLocationPath: extension fields, whose index is relative to another scope than the path they push.
- Varint.DecodeEncode: the unrolled fast paths for varints; the byte loops are modelled.
- Underlay pools, allow_unknown and placeholders.
- Option interpretation, default values other than enum ones, numbers of enum values, stylized names, lite and map key checks: the model has one flag per file for errors found there.
- The tables of symbols by parent, of names in lower and camel case and of enum values by number.
- Error messages, and the undeclared-dependency hint that only serves them.
- Mutexes of the pool.
- Names with zero characters, which the source cuts off in table keys.
- Comparing a file with the one already there is a parameter of the pool; serializing descriptors is not part of this model.
- What the merged database leaves in the output of a call that fails.
- The encoded descriptor database, which shares the index, and the database made from a pool.
- Floats are four bytes; strings are bytes.
- Sockets, completion ports and the contents of buffers; whether a flush finds something to send is chosen freely.
- Session code of the other homeworks, which repeats that of Homework5.
