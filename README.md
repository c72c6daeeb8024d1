# FlatFiles core, modelled in Dafny

This project models six pieces of the FlatFiles library, which reads and writes delimited (CSV) and fixed-width files:

- **`CircularQueue<T>`** is the ring buffer behind the record tokenizer. `PrepareBlock` hands out one contiguous free block. It first moves the live items to index 0 when the free space would otherwise be split. `RecordGrowth` commits items written into that block. `Peek` and `Peek(i)` look ahead, and `Dequeue` consumes. The model is a class over an `array`, with `front`, `back` and `Count` fields. The ghost function `Contents()` reads the buffer as a queue (oldest item first), and every operation is proved against it.
- **`TwoCharacterRecordSeparatorMatcher`** has `Trim` (strip one trailing two-character separator such as `"\r\n"`) and `Size`.
- **`MemberLookup`** is the type mapper's mapping table. Get-or-add gives a new mapping physical index = number of mappings so far, and logical index = that minus the ignored columns. Ignored columns take a physical slot only. `GetMappings` lists the mappings by physical index. Factories are registered per entity type. The class keeps the table invariant `Valid()`: physical indices are 0..n-1 in insertion order, logical indices are dense, and the ignored counter is exact.
- **`DelimitedSchemaInjector`** picks a schema for a record: the first registered predicate that holds wins, then the default, else a missing-matcher error. It includes the `When(...).Use(...)` registration builder.
- **`DelimitedWriter`** is a state machine over the emitted output. The output is a sequence of tokens: `Header`, `Record(values)`, `Separator`, `Raw(text)`. Pure step functions specify `WriteSchema`, `Write` and `WriteRaw`. The class methods are proved to perform exactly those steps. The invariant `Consistent` says:
  - at most one header, and never one after a record;
  - the logical counter is the number of records;
  - the physical counter is records plus header.
- **`DelimitedTypeMapper`, static part.** Split over two files:
  - `auto_map_rules.dfy` holds the pure selection rules: the CLR type → column kind table, `IsNullable`, `GetMembers`, and `GetProperty`/`GetField` with their disambiguation and `GetMemberExpression`'s choice between them.
  - `type_mapper.dfy` holds the mapper's custom-mapping surface (`CustomMapping`, `Ignored`, `UseFactory`, `GetSchemaInternal`) and the loops of `GetAutoMappedWriter` and `GetAutoMapReader`. Each loop is proved equal to a pure plan (`WriterPlan`, `ReaderPlan`), and the plans' properties are proved as lemmas.

Shared types (`Option`, `Result`, `Outcome`, the error kinds, column definitions, schemas, `IsBlank` for `String.IsNullOrWhiteSpace`) are in `flat_files.dfy`.

Abstractions:
- CLR types are the datatype `ClrType`. It covers:
  - the 17 value types of the column table, each plain or as `Nullable<>`;
  - `byte[]`, `char[]`, `string`;
  - any other struct or class, by name.
- Reflection members are the record `MemberInfo(name, kind, memberType, isPublic, canWrite)`. An entity type is the sequence of its members in declaration order.
- `IAutoMapResolver` and `IAutoMapMatcher` are records of functions. The text writer is a token value. A record writer's formatting failure, and whether the `RecordError` handler marked it handled, are the input `RecordAttempt`.
- The getters and setters that the source compiles from expression trees are replaced by the member they read or assign (`TypeMapper.readers` and `TypeMapper.writers`).

## Model

| member | source | states |
|---|---|---|
| RecordSeparators.TwoCharacterRecordSeparatorMatcher.Size | FlatFiles/TwoCharacterRecordSeparatorMatcher.cs:16 | the size is the length of the separator text, 2 |
| RecordSeparators.TwoCharacterRecordSeparatorMatcher.Trim | FlatFiles/TwoCharacterRecordSeparatorMatcher.cs:23-31 | the result is a prefix of the input; when the input ends with the two characters, the result followed by them is the input, otherwise it is the input; the length drops by 0 or by `Size()` |
| RecordSeparators.TrimAppended | FlatFiles/TwoCharacterRecordSeparatorMatcher.cs:25-29 | trimming `s + separator` gives `s` back |
| RecordSeparators.TrimWithoutSeparator | FlatFiles/TwoCharacterRecordSeparatorMatcher.cs:26-30 | a text shorter than 2 or not ending with the separator is unchanged |
| RecordSeparators.TrimRemovesOne | FlatFiles/TwoCharacterRecordSeparatorMatcher.cs:26-29 | of two trailing separators only one is removed |
| RecordSeparators.TrimThenAppend | FlatFiles/TwoCharacterRecordSeparatorMatcher.cs:23-31 | when trimming changed the text, appending the separator restores it and exactly `Size()` characters were removed |
| CircularQueues.Wrap | FlatFiles/CircularQueue.cs:36-39 | the single conditional subtraction of the length: the result is the index or the index minus the length, and lies in the array |
| CircularQueues.WrapAdd | FlatFiles/CircularQueue.cs:34-39 | wrapping after each step of an advance equals wrapping once after the whole advance |
| CircularQueues.CopyToFront | FlatFiles/CircularQueue.cs:25 | `Array.Copy(items, front, items, 0, Count)`: the first `count` slots receive the old items from `source` on, even when the ranges overlap; later slots are unchanged |
| CircularQueues.CircularQueue.Position | FlatFiles/CircularQueue.cs:49-53 | the slot `index` places after `front` lies inside the array |
| CircularQueues.CircularQueue.Contents | FlatFiles/CircularQueue.cs:7-16 | the queue has `Count` items, item `i` stored at `Position(i)` |
| CircularQueues.CircularQueue.SlotsSplit | FlatFiles/CircularQueue.cs:32-40 | a run of slots splits into two runs, the second starting where the first ends (wrapping) |
| CircularQueues.CircularQueue.constructor | FlatFiles/CircularQueue.cs:11-14 | a fresh array of `bufferSize` slots; the queue is empty and the invariant holds |
| CircularQueues.CircularQueue.PrepareBlock | FlatFiles/CircularQueue.cs:18-30 | the count and the queue's contents are unchanged (also when it compacts); the block starts at `back`, has `capacity - Count` slots, lies in the array and overlaps no live item |
| CircularQueues.CircularQueue.RecordGrowth | FlatFiles/CircularQueue.cs:32-40 | for growth within the free space: the queue becomes the old queue followed by the `size` slots from the old `back`; `front` is unchanged and the invariant (indices in range, `back` = `front + Count` wrapped) is kept |
| CircularQueues.CircularQueue.Peek | FlatFiles/CircularQueue.cs:42-45 | returns the slot at `Position(0)`, which is the oldest item when the queue is not empty |
| CircularQueues.CircularQueue.PeekAt | FlatFiles/CircularQueue.cs:47-55 | for any index the single subtraction brings inside the array, returns the slot `front + index` wrapped once, which is item `index` of the queue when `index < Count` |
| CircularQueues.CircularQueue.Dequeue | FlatFiles/CircularQueue.cs:57-65 | the queue becomes `old queue[count..]` and the invariant is kept |
| CircularQueues.Refill | FlatFiles/CircularQueue.cs:18-40 | prepare, fill and commit: the queue becomes the old queue followed by as many new items as fit |
| MemberLookups.WellIndexedAppend | FlatFiles/TypeMapping/MemberLookup.cs:35-39 | appending a mapping at physical index n with logical index n minus the ignored count keeps the indexing rule and adds one ignored mapping exactly when it is ignored |
| MemberLookups.LogicalIndicesDense | FlatFiles/TypeMapping/MemberLookup.cs:13 | under the indexing rule, the logical indices in physical order are exactly 0, 1, …, n - ignored - 1 |
| MemberLookups.TableAppend | FlatFiles/TypeMapping/MemberLookup.cs:35-49 | adding a fresh key whose mapping follows the indexing rule keeps the table invariant, and the table grows by one |
| MemberLookups.MemberLookup.constructor | FlatFiles/TypeMapping/MemberLookup.cs:9-11 | an empty table with no factories and no ignored columns, satisfying the invariant |
| MemberLookups.MemberLookup.LogicalCount | FlatFiles/TypeMapping/MemberLookup.cs:13 | the logical count is the number of logical indices in use, and these are exactly 0 … count-1 in physical order |
| MemberLookups.MemberLookup.KeyAtPhysicalIndex | FlatFiles/TypeMapping/MemberLookup.cs:35-47 | every key sits at the insertion position given by its mapping's physical index |
| MemberLookups.MemberLookup.GetOrAdd | FlatFiles/TypeMapping/MemberLookup.cs:27-40 | a present key returns its mapping and changes nothing; a new key gets a column mapping with physical index = old size and logical index = old size − ignored, appended at the end, and one more logical column |
| MemberLookups.MemberLookup.AddColumn | FlatFiles/TypeMapping/MemberLookup.cs:35-39 | the add half of get-or-add, with the same indices |
| MemberLookups.MemberLookup.GetOrAddMember | FlatFiles/TypeMapping/MemberLookup.cs:15-19 | get-or-add keyed by the member's name |
| MemberLookups.MemberLookup.GetOrAddCustomMapping | FlatFiles/TypeMapping/MemberLookup.cs:21-25 | get-or-add keyed by the custom name: a repeated name returns the same mapping and leaves the table unchanged |
| MemberLookups.MemberLookup.AddIgnored | FlatFiles/TypeMapping/MemberLookup.cs:42-50 | an ignored mapping at physical index = old size under a key not yet present; the ignored count grows by one and the logical count is unchanged |
| MemberLookups.MemberLookup.GetMappings | FlatFiles/TypeMapping/MemberLookup.cs:52-55 | all mappings in insertion order, entry i having physical index i, and every key's mapping at its physical index |
| MemberLookups.MemberLookup.SetFactory | FlatFiles/TypeMapping/MemberLookup.cs:73-81 | fails with a duplicate-key error exactly when the type already has a factory, else registers it; the mapping table is untouched |
| SchemaInjectors.Select | FlatFiles/DelimitedSchemaInjector.cs:61-75 | the earliest matcher whose predicate holds wins; else the default when its predicate holds; else the missing-matcher error |
| SchemaInjectors.FirstMatchExists | FlatFiles/DelimitedSchemaInjector.cs:63-69 | when some predicate holds there is an earliest one |
| SchemaInjectors.RegisteredBeatsDefault | FlatFiles/DelimitedSchemaInjector.cs:63-73 | when a registered predicate holds, the result succeeds and does not depend on the default |
| SchemaInjectors.LaterRegistrationKeepsChoice | FlatFiles/DelimitedSchemaInjector.cs:55-69 | appending a matcher does not change the choice for a record an earlier matcher takes |
| SchemaInjectors.NoMatchNoDefaultFails | FlatFiles/DelimitedSchemaInjector.cs:70-74 | with no default and no holding predicate the result is the missing-matcher error |
| SchemaInjectors.DelimitedSchemaInjector.constructor | FlatFiles/DelimitedSchemaInjector.cs:12-20 | no matchers and no default |
| SchemaInjectors.DelimitedSchemaInjector.When | FlatFiles/DelimitedSchemaInjector.cs:29-36 | a null predicate is an argument-null error; otherwise a new builder for this injector and predicate |
| SchemaInjectors.DelimitedSchemaInjector.WithDefault | FlatFiles/DelimitedSchemaInjector.cs:43-53 | null clears the default; a schema replaces it with one whose predicate always holds; matchers untouched |
| SchemaInjectors.DelimitedSchemaInjector.Add | FlatFiles/DelimitedSchemaInjector.cs:55-59 | appends exactly one matcher and keeps the default |
| SchemaInjectors.DelimitedSchemaInjector.GetSchema | FlatFiles/DelimitedSchemaInjector.cs:61-75 | the loop's result is `Select` of the matchers, the default and the values |
| SchemaInjectors.WhenBuilder.constructor | FlatFiles/DelimitedSchemaInjector.cs:95-99 | remembers the injector and the predicate |
| SchemaInjectors.WhenBuilder.Use | FlatFiles/DelimitedSchemaInjector.cs:101-108 | a null schema is an argument-null error and registers nothing; otherwise exactly one matcher is appended and the default is kept |
| DelimitedWriters.WriteSchemaStep | FlatFiles/DelimitedWriter.cs:108-121 | afterwards the schema counts as written; when it already was, nothing changes; the logical counter never changes |
| DelimitedWriters.AutoSchemaStep | FlatFiles/DelimitedWriter.cs:153-162 | afterwards the schema counts as written; when it already was, nothing changes |
| DelimitedWriters.WriteStep | FlatFiles/DelimitedWriter.cs:147-179 | null values: argument-null error, nothing changes; a formatted record follows the schema step with the record and a separator and both counters + 1; a failed record adds nothing after the schema step and is passed over when handled, raised when not |
| DelimitedWriters.EmitHeader | FlatFiles/DelimitedWriter.cs:114-119 | appends exactly the header and a separator: one more header and no record; the physical counter grows by one, the logical one is unchanged, and the schema counts as written |
| DelimitedWriters.InitialConsistent | FlatFiles/DelimitedWriter.cs:40-51 | a new writer satisfies the invariant |
| DelimitedWriters.EmitHeaderConsistent | FlatFiles/DelimitedWriter.cs:114-119 | emitting the header before the schema step keeps the invariant |
| DelimitedWriters.WriteSchemaConsistent | FlatFiles/DelimitedWriter.cs:108-121 | `WriteSchema` keeps the invariant |
| DelimitedWriters.WriteConsistent | FlatFiles/DelimitedWriter.cs:147-179 | `Write` keeps the invariant in every outcome |
| DelimitedWriters.WriteRawConsistent | FlatFiles/DelimitedWriter.cs:226-233 | `WriteRaw` keeps the invariant |
| DelimitedWriters.WriteRawStep | FlatFiles/DelimitedWriter.cs:226-233 | appends exactly the raw text, then a separator only when asked; no header or record is added, and both counters and the schema flag are unchanged |
| DelimitedWriters.WriteSchemaIdempotent | FlatFiles/DelimitedWriter.cs:108-121 | a second `WriteSchema` changes nothing |
| DelimitedWriters.WriteSchemaAfterWrite | FlatFiles/DelimitedWriter.cs:153-162 | after any `Write` of non-null values, `WriteSchema` changes nothing |
| DelimitedWriters.FirstWriteHeader | FlatFiles/DelimitedWriter.cs:153-162 | the first `Write` emits one header, first in the output, exactly when the first record is the schema and a schema exists, and none otherwise |
| DelimitedWriters.HandledErrorKeepsCounters | FlatFiles/DelimitedWriter.cs:163-178 | once the schema step has run, a handled record error succeeds and leaves the whole state unchanged |
| DelimitedWriters.RunConsistent | FlatFiles/DelimitedWriter.cs:108-233 | after any sequence of calls: at most one header, none after a record, logical counter = records, physical counter = records + header |
| DelimitedWriters.DelimitedWriter.constructor | FlatFiles/DelimitedWriter.cs:40-51 | initial state with the given schema, options flag and schema source |
| DelimitedWriters.DelimitedWriter.InitialIsValid | FlatFiles/DelimitedWriter.cs:40-51 | a writer in the initial state satisfies the invariant |
| DelimitedWriters.DelimitedWriter.WriteHeader | FlatFiles/DelimitedWriter.cs:114-119 | emits the header and a separator, counts one physical record and marks the schema written |
| DelimitedWriters.DelimitedWriter.WriteSchema | FlatFiles/DelimitedWriter.cs:108-121 | performs `WriteSchemaStep` and keeps the invariant |
| DelimitedWriters.DelimitedWriter.Write | FlatFiles/DelimitedWriter.cs:147-179 | returns the outcome and reaches the state of `WriteStep`, keeping the invariant |
| DelimitedWriters.DelimitedWriter.AutoSchema | FlatFiles/DelimitedWriter.cs:153-162 | performs `AutoSchemaStep` |
| DelimitedWriters.DelimitedWriter.ProcessError | FlatFiles/DelimitedWriter.cs:250-262 | a handled error passes, an unhandled one is raised |
| DelimitedWriters.DelimitedWriter.WriteRaw | FlatFiles/DelimitedWriter.cs:226-233 | performs `WriteRawStep` and keeps the invariant |
| DelimitedWriters.Create | FlatFiles/DelimitedWriter.cs:40-51 | a null writer, then a required schema that is null, are argument-null errors with no writer; otherwise a fresh writer in the initial state with that schema and the options' first-record-is-schema flag (default options when none) |
| DelimitedWriters.NewWriter | FlatFiles/DelimitedWriter.cs:22-25 | a null writer is refused; otherwise a fresh writer without schema |
| DelimitedWriters.NewWriterWithSchema | FlatFiles/DelimitedWriter.cs:35-38 | a null writer, then a null schema, are refused; otherwise a fresh writer with that schema |
| DelimitedWriters.NewWriterWithInjector | FlatFiles/DelimitedWriter.cs:61-72 | a null writer, then a null injector, are refused; otherwise a fresh writer with no schema of its own, so no header is ever written |
| AutoMapRules.ColumnLookup | FlatFiles/TypeMapping/DelimitedTypeMapper.cs:17-56 | the 37-entry table equals the independent reference definition `ExpectedKind`: each listed value type and its nullable twin give the kind named after it, `byte[]`, `char[]` and `string` their kinds, and every other type none |
| AutoMapRules.GetColumnDefinition | FlatFiles/TypeMapping/DelimitedTypeMapper.cs:328-335 | a definition exactly for table types, with the given name and the table's kind |
| AutoMapRules.NullableTwinSameColumn | FlatFiles/TypeMapping/DelimitedTypeMapper.cs:17-56 | `T` and `T?` give the same column; an unlisted struct gives none |
| AutoMapRules.UnknownClassUnsupported | FlatFiles/TypeMapping/DelimitedTypeMapper.cs:328-335 | a class outside the table gives no column |
| AutoMapRules.IsNullable | FlatFiles/TypeMapping/DelimitedTypeMapper.cs:1085-1092 | nullable exactly when the type is not a plain struct: every reference type and every `Nullable<>` |
| AutoMapRules.IsNullableExactly | FlatFiles/TypeMapping/DelimitedTypeMapper.cs:1085-1092 | a `T?` is nullable and its `T` is not |
| AutoMapRules.DataMembers | FlatFiles/TypeMapping/DelimitedTypeMapper.cs:317-319 | keeps exactly the public properties and fields |
| AutoMapRules.DataMembersAppend | FlatFiles/TypeMapping/DelimitedTypeMapper.cs:319 | the filter of a concatenation is the concatenation of the filtered parts, so the filter keeps declaration order |
| AutoMapRules.DataIndex | FlatFiles/TypeMapping/DelimitedTypeMapper.cs:319-320 | a public property or field at declaration index `a` is the data member at index "number of data members before `a`", the index `Select` pairs it with |
| AutoMapRules.DataIndexMonotone | FlatFiles/TypeMapping/DelimitedTypeMapper.cs:319-320 | a data member declared earlier gets a smaller index among the data members |
| AutoMapRules.WithPositions | FlatFiles/TypeMapping/DelimitedTypeMapper.cs:320 | pairs each member with the resolver's position and its declaration index |
| AutoMapRules.Kept | FlatFiles/TypeMapping/DelimitedTypeMapper.cs:321 | keeps exactly the entries whose user position is not -1, drawn from the input |
| AutoMapRules.InsertPermutes | FlatFiles/TypeMapping/DelimitedTypeMapper.cs:322 | insertion adds exactly the inserted entry |
| AutoMapRules.InsertSorted | FlatFiles/TypeMapping/DelimitedTypeMapper.cs:322 | insertion into a sorted sequence keeps it sorted by (user position, declaration index) |
| AutoMapRules.SortByPosition | FlatFiles/TypeMapping/DelimitedTypeMapper.cs:322 | the result is sorted by (user position, declaration index) and is a permutation of its input |
| AutoMapRules.Members | FlatFiles/TypeMapping/DelimitedTypeMapper.cs:323 | projects each entry to its member, in order |
| AutoMapRules.GetMembersOrdered | FlatFiles/TypeMapping/DelimitedTypeMapper.cs:315-326 | the sorted entries are ordered lexicographically by (user position, declaration index) and are a permutation of the kept candidates; each is a public property or field of the entity with position ≠ -1 and carries its own resolver position |
| AutoMapRules.CandidatesComplete | FlatFiles/TypeMapping/DelimitedTypeMapper.cs:319-322 | every public property or field with position ≠ -1 has a sorted entry |
| AutoMapRules.GetMembers | FlatFiles/TypeMapping/DelimitedTypeMapper.cs:315-326 | returns exactly the public properties and fields of the entity whose resolver position is not -1 |
| AutoMapRules.ListedEntry | FlatFiles/TypeMapping/DelimitedTypeMapper.cs:320-322 | such a member's sorted entry carries its user position and its index among the data members |
| AutoMapRules.GetMembersOrder | FlatFiles/TypeMapping/DelimitedTypeMapper.cs:322-323 | of two such members, the one with the smaller user position comes first in the result, and on equal positions the one declared first |
| AutoMapRules.GetMembersStrict | FlatFiles/TypeMapping/DelimitedTypeMapper.cs:320-322 | no two entries share a declaration index, so the order is strict and no member appears twice |
| AutoMapRules.KeptDistinct | FlatFiles/TypeMapping/DelimitedTypeMapper.cs:320-321 | entries indexed by declaration position survive filtering at most once each |
| AutoMapRules.Matches | FlatFiles/TypeMapping/DelimitedTypeMapper.cs:222-225 | keeps exactly the members of the kind that the matcher accepts for the column, each as often as the entity has it |
| AutoMapRules.LoneMatch | FlatFiles/TypeMapping/DelimitedTypeMapper.cs:222-225 | when one member of the kind matches and the entity has it once, the match list is just that member |
| AutoMapRules.Named | FlatFiles/TypeMapping/DelimitedTypeMapper.cs:233 | keeps exactly the members named like the column |
| AutoMapRules.SingleOrDefault | FlatFiles/TypeMapping/DelimitedTypeMapper.cs:235 | more than one element is the multiple-matches error; one element gives it; none gives nothing |
| AutoMapRules.Disambiguate | FlatFiles/TypeMapping/DelimitedTypeMapper.cs:226-235 | zero or one match gives that; several without fallback give none; several with fallback give only a member named exactly as the column, and fail exactly when several have that name |
| AutoMapRules.ExactNameFallback | FlatFiles/TypeMapping/DelimitedTypeMapper.cs:226-234 | with fallback, the unique exact-name member among several matches is chosen |
| AutoMapRules.GetProperty | FlatFiles/TypeMapping/DelimitedTypeMapper.cs:220-236 | a chosen member is a matching property of the entity; with no matching property nothing is chosen; the only error is the multiple-matches error |
| AutoMapRules.GetField | FlatFiles/TypeMapping/DelimitedTypeMapper.cs:238-254 | a chosen member is a matching field of the entity; with no matching field nothing is chosen; the only error is the multiple-matches error |
| AutoMapRules.SelectMember | FlatFiles/TypeMapping/DelimitedTypeMapper.cs:201-218 | a chosen member is a matching property or field of the entity; the property `GetProperty` chooses is selected when writable, else the read-only error for the column; when no property is chosen, the field `GetField` chooses is selected; a multiple-matches error from either is passed on; the bad-selector error exactly when neither chooses a member |
| AutoMapRules.LonePropertySelected | FlatFiles/TypeMapping/DelimitedTypeMapper.cs:203-211 | a writable property that is the only property matching the column is selected, whatever the fields |
| AutoMapRules.LoneFieldSelected | FlatFiles/TypeMapping/DelimitedTypeMapper.cs:212-216 | with no matching property, the only field matching the column is selected |
| AutoMapRules.PropertyPreferred | FlatFiles/TypeMapping/DelimitedTypeMapper.cs:203-211 | when a property matches, the fields do not affect the choice |
| AutoMapRules.PropertyMatchesIgnoreFields | FlatFiles/TypeMapping/DelimitedTypeMapper.cs:222-225 | fields never appear among the matching properties |
| AutoMapRules.MatchesSkip | FlatFiles/TypeMapping/DelimitedTypeMapper.cs:222-225 | a member of another kind never changes a match list |
| TypeMappers.Columns | FlatFiles/TypeMapping/DelimitedTypeMapper.cs:914-918 | one column per mapping, the mapping's column definition, in order |
| TypeMappers.BindValid | FlatFiles/TypeMapping/DelimitedTypeMapper.cs:812-824 | rebinding keeps column names distinct and bound; a new name is appended, a repeated one keeps the columns |
| TypeMappers.WriterStep | FlatFiles/TypeMapping/DelimitedTypeMapper.cs:281-310 | a member with no name, a blank name or an unsupported type changes nothing; otherwise its name is a column afterwards and its getter reads the member; earlier columns stay in place and other names keep their getters |
| TypeMappers.WriterPlan | FlatFiles/TypeMapping/DelimitedTypeMapper.cs:279-310 | every member with a non-blank resolved name and a supported type has its name among the writer's columns |
| TypeMappers.WriterStepFrom | FlatFiles/TypeMapping/DelimitedTypeMapper.cs:281-310 | a writer step maps only a member of the entity under its resolved name and the table's column for its type |
| TypeMappers.FromMembersGrow | FlatFiles/TypeMapping/DelimitedTypeMapper.cs:279 | columns that come from some members still come from a larger set of members |
| TypeMappers.WriterPlanValid | FlatFiles/TypeMapping/DelimitedTypeMapper.cs:265-313 | the auto-mapped writer's columns have distinct names, and exactly those names have getters |
| TypeMappers.WriterPlanColumns | FlatFiles/TypeMapping/DelimitedTypeMapper.cs:279-310 | every column has a non-blank name and is the table's column for the type of a member resolved to that name; every getter reads such a member |
| TypeMappers.WriterSkips | FlatFiles/TypeMapping/DelimitedTypeMapper.cs:281-292 | a member with a missing or blank name or an unsupported type adds nothing |
| TypeMappers.WriterPlanLastWins | FlatFiles/TypeMapping/DelimitedTypeMapper.cs:279-310 | the getter of a column reads the last member mapped under that name: a later getter replaces an earlier one |
| TypeMappers.ReaderStep | FlatFiles/TypeMapping/DelimitedTypeMapper.cs:183-195 | succeeds exactly when a member is selected, it is assignable, its type has a column and the header name is not blank, and then binds the header name to that member with the column of its type; a selection error is passed on unchanged |
| TypeMappers.ReaderRejectsReadOnlyField | FlatFiles/TypeMapping/DelimitedTypeMapper.cs:186-187 | a selected member that cannot be assigned is a read-only field, and the column fails with the unassignable-member error |
| TypeMappers.ReaderPlan | FlatFiles/TypeMapping/DelimitedTypeMapper.cs:180-196 | succeeds exactly when every header column can be mapped in that sense |
| TypeMappers.ReaderFailureSticks | FlatFiles/TypeMapping/DelimitedTypeMapper.cs:180-196 | the first header column that cannot be mapped decides the reader's error |
| TypeMappers.ReaderStepAppends | FlatFiles/TypeMapping/DelimitedTypeMapper.cs:183-195 | a successful step for a new name appends one column under the header's name and binds the selected member to it |
| TypeMappers.ReaderKeepsHeader | FlatFiles/TypeMapping/DelimitedTypeMapper.cs:180-197 | a header with distinct names that maps fully gives the reader exactly those names in header order, each bound |
| TypeMappers.ReaderBindsHeader | FlatFiles/TypeMapping/DelimitedTypeMapper.cs:180-196 | in that case each header column is set through an assignable member of the entity, with the column kind of that member's type |
| TypeMappers.HoldsAfterBindExisting | FlatFiles/TypeMapping/DelimitedTypeMapper.cs:812-824 | mapping a name already present leaves the table's columns as the plan's |
| TypeMappers.HoldsAfterBindNew | FlatFiles/TypeMapping/DelimitedTypeMapper.cs:812-824 | mapping a new name appends its column to the table and the plan alike |
| TypeMappers.TypeMapper.constructor | FlatFiles/TypeMapping/DelimitedTypeMapper.cs:351-357 | an empty mapper; a given factory is registered for the entity type |
| TypeMappers.TypeMapper.CustomMapping | FlatFiles/TypeMapping/DelimitedTypeMapper.cs:812-824 | a blank name is refused and changes nothing; otherwise the mapping of `CustomKey(name)`, created at the end with the given column when new, the same one when repeated |
| TypeMappers.TypeMapper.WithReader | FlatFiles/TypeMapping/DelimitedTypeMapper.cs:195 | the column's setter now assigns the member; getters untouched |
| TypeMappers.TypeMapper.WithWriter | FlatFiles/TypeMapping/DelimitedTypeMapper.cs:296 | the column's getter now reads the member; setters untouched |
| TypeMappers.TypeMapper.BindWriter | FlatFiles/TypeMapping/DelimitedTypeMapper.cs:296 | `CustomMapping(column).WithWriter(...)` performs one `Bind` of the plan |
| TypeMappers.TypeMapper.BindReader | FlatFiles/TypeMapping/DelimitedTypeMapper.cs:195 | `CustomMapping(column).WithReader(...)`: blank-name error, or one `Bind` of the plan |
| TypeMappers.TypeMapper.MapMember | FlatFiles/TypeMapping/DelimitedTypeMapper.cs:281-310 | one iteration of the writer loop performs `WriterStep` on the mapper's table and getters |
| TypeMappers.TypeMapper.MapHeaderColumn | FlatFiles/TypeMapping/DelimitedTypeMapper.cs:183-195 | one iteration of the reader loop performs `ReaderStep`, failing with its error |
| TypeMappers.TypeMapper.Ignored | FlatFiles/TypeMapping/DelimitedTypeMapper.cs:807-810 | appends one ignored mapping; the logical count is unchanged |
| TypeMappers.TypeMapper.UseFactory | FlatFiles/TypeMapping/DelimitedTypeMapper.cs:1149-1152 | a second factory for a type is the duplicate-key error; mappings untouched |
| TypeMappers.TypeMapper.GetSchema | FlatFiles/TypeMapping/DelimitedTypeMapper.cs:910-920 | the schema lists exactly the mappings' columns in physical-index order |
| TypeMappers.AutoWriterOptions | FlatFiles/TypeMapping/DelimitedTypeMapper.cs:267-269 | given options are used as they are; no options means the first record is the schema, the opposite of a writer's own default |
| TypeMappers.GetAutoMappedWriter | FlatFiles/TypeMapping/DelimitedTypeMapper.cs:265-313 | the mapper's columns and getters are `WriterPlan` of `GetMembers`; the entity type has the (throwing) factory; a null text writer is refused, else a fresh writer on that schema which writes the header first unless given options say otherwise (write-only and indexer properties: see "Left out") |
| TypeMappers.GetAutoMapReader | FlatFiles/TypeMapping/DelimitedTypeMapper.cs:169-199 | no header: no mappings, no schema; otherwise the reader's error is `ReaderPlan`'s, or the reader gets `ReaderPlan`'s columns with its setters |

## Left out

- I/O: the `TextWriter`/`TextReader`, the record writer and the reader are not part of this model. Output is a token sequence. The text reader filling the queue is a copy of given data (`ReadInto`).
- All async variants (`WriteAsync`, `WriteSchemaAsync`, `WriteRawAsync`, `GetAutoMappedReaderAsync`). They repeat the synchronous logic.
- `IsMatch` of the separator matcher delegates to `RetryReader.IsMatch2`, which is not part of this model.
- `GetAutoMappedReader` only reads the header through the delimited reader and passes the schema to `GetAutoMapReader`, which is modelled.
- TypeMappers.WriterStep: a public write-only property or an indexer property is mapped like any other. In the source, building its getter (`Expression.Property` or `Expression.Convert` at DelimitedTypeMapper.cs:293) throws an `ArgumentException`. `MemberInfo` records neither readability nor index parameters.
- TypeMappers.GetAutoMappedWriter: for the same reason it succeeds for an entity with such a property, where the source throws.
- AutoMapRules.SelectMember: an indexer property chosen for a header column is selected, while `Expression.Property` at DelimitedTypeMapper.cs:210 throws for it in the source.
- TypeMappers.ReaderStep: `Expression.Assign` refusing a read-only field (an `ArgumentException` at DelimitedTypeMapper.cs:187) is modelled as the `UnassignableMember` error; no other expression-tree failure is modelled.
- Expression trees, `Compile()`, the emit and reflection code generators, `Define`/`DefineDynamic` and the typed readers and writers that use the mappings. Getters and setters are the members they access.
- `AutoMapResolver.Default` and `AutoMapMatcher.Default` are not shown. The resolver and matcher are parameters, so `null` arguments are not modelled.
- `MemberLookup.GetFactory`: its casts between `Func<TEntity>` and `Func<object>` are type-system glue; only key presence (`HasFactory`) is kept. Factories are not invoked.
- Integer widths: indices and counters are unbounded. The source's `int` cannot overflow at any realistic size.
- CircularQueues.CircularQueue.constructor: a negative `bufferSize` (which throws in .NET) is excluded by the `nat` type.
- CircularQueues.CircularQueue.Peek: requires a non-empty array; `Peek` on a zero-length buffer throws `IndexOutOfRangeException` in the source.
- CircularQueues.CircularQueue.RecordGrowth: requires growth within the prepared free space; the source does not check it, and larger growth breaks `Count <= capacity`.
- CircularQueues.CircularQueue.Dequeue: requires `count <= Count`, which the reader always meets; the source does not check it.
- DelimitedWriters.WriteStep: a record that fails part-way may already have written some text in the source; the model adds no tokens for a failed record.
- DelimitedWriters.NewWriterWithInjector: the per-record schema choice with the injector belongs to the record writer, which is not part of this model. The writer only records that it uses one. The model assumes that the record writer's `ActualSchema` is null when it is built from an injector. So an injector writer never writes a header, and `WriteSchema` only sets the flag.
- `DelimitedOptions` is reduced to `IsFirstRecordSchema`, the only option the modelled code reads; `Clone()` is the identity on it.
- `DelimitedSchema.AddColumn` may refuse duplicate column names; it is not part of this model, and `GetSchema` appends every mapping's column.
- TypeMappers.TypeMapper.constructor: does not model the `Func<object>` overload's cast wrapper; a factory is just its presence.
- Typed member mappings (`Property(...)`, `EnumProperty(...)` and the rest) use `GetOrAddMember`, which is modelled. Their column types and options are outside the static auto-mapping part.
- Static members and member visibility beyond the `isPublic` flag: `GetMembers` sees public instance members only, while `GetProperty`/`GetField` see every instance member.
- MemberLookups.MemberLookup.GetMappings: the source sorts the values with `OrderBy` on the physical index; the model places each mapping at its physical index, which gives the same array because the indices are 0..n-1.
- TypeMappers.TypeMapper.CustomMapping: column names are `string`, so a null `ColumnName` (which `String.IsNullOrWhiteSpace` also refuses) is not modelled separately from a blank one.
- MemberLookups.MemberLookup.AddIgnored: an ignored column is always named `""`; the `IgnoredColumn` class is not part of this model, so neither is a name set later through the ignored mapping's `ColumnName(...)`.
- `RecordError`/`ColumnError` events are reduced to whether the record error was handled.
