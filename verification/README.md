# A verified model of xprocess

xprocess is a Go library of helpers for goroutines, with a form decoder and a byte-buffer pool beside them. This
project models its three intricate parts in Dafny and proves what they promise.

**Schema** (`Schema*.dfy`, `Text.dfy`, `Converter.dfy`). A struct type is flattened into a table of aliases, with
promotion from embedded structs; dotted keys are parsed against the table into path parts; decoding applies each key
to a tree of values, allocating pointers and growing slices on the way; required fields are found by a recursion of
their own; the encoder prints a struct into the same kind of form. Types are finite trees (`SchemaTypes`), and the
target of a decoder is an object whose value tree is changed at addresses (`SchemaDecode.Target`). The methods that
change it are tied to *effects* (`SchemaEffects`): a location in the target and what happens there. The proofs about
the order of keys, panics and the round trip are about effects, for every type, value and form.

**Goroutines** (`Promise*.dfy`, `Future*.dfy`, `WaitGroups.dfy`, `Groups.dfy`). Each protocol is a state and a set of
labelled steps, one per atomic action of the code (a check of a flag, an `Inc`, the start of a goroutine, a rendezvous
on a channel, a `Done`). Statements are about every run from the start state: invariants, what can panic, a measure
that every step lowers, and what a state looks like in which no step is possible.

**Byte buffers** (`ByteBuffers.dfy`, `Calibration.dfy`, `Percentiles.dfy`, `Pools.dfy`, `PoolRaces.dfy`). The read loop against any
reader, the pool as an object used by one goroutine, with the sorted greedy cut and the exchange argument that it is
optimal, and the atomic operations of the histogram interleaved between any number of goroutines.

In the schema part, `SchemaCache`, `SchemaPath`, `SchemaEffects`, `SchemaRequired` and `SchemaForms` are functions that say
what is computed, `SchemaOrder`, `SchemaOverlap` and `SchemaRuns` are about edits and their order, and `SchemaStore`,
`SchemaDecode`, `SchemaFill` and `SchemaEncode` are the methods that compute it in place. `SchemaPlaces`, `SchemaRoutes`,
`SchemaValues` and `SchemaEntries` say what those functions mean without naming them: which place a key leads to, what
its texts leave there and elsewhere, and what the encoder writes for a value.

`Sums`, `Permutations` and `Wrappers` are helpers. `dafny verify dfyconfig.toml` checks everything.

## Conditions

Where a statement about the schema package needs more than a type and a value, it asks for one of these:
- `AliasesUnique`: the aliases of the fields declared in one struct differ by more than case. Without it, the first of
  two fields hides the other.
- `WellNamed`, `NamesUnique`: Go names are unambiguous through embedding. The table promotes by alias, but `decode`
  walks by Go name (`xprocess_schema/decoder.go:202`).
- `KeysSafe`: no key walks through an embedded pointer that may be nil. `decode` allocates the embedded pointers of one
  struct only; a key that goes further panics on the zero target, and the condition is exact key by key
  (`SchemaEffects.KeyPanicsIff`). `ShallowEmbedding`, embedding by value or one pointer deep, is enough for all keys, and
  `SchemaSmall.DeepExample` is a type two pointers deep that panics.
- `Compatible`: any two keys leave the same in both orders, which can be seen from the keys alone; `Independent`, no
  key's location a prefix of another's, is enough.
- `Plain`, `FlatAliases`, `NoneRequired`, `LeafKeys`: the structs and forms of the round trip.
- `Addressable`, `IsRoute`, `Reaches`: keys made of aliases and indices, in any spelling, through structs whose aliases and
  Go names are unambiguous and whose fields are all in the table, with a walk that is safe.

`SchemaSmall` shows for the smallest structs that the conditions can be met together.

## What the code does that its documentation does not say

- A single value is decoded from the last value of a key (`xprocess_schema/decoder.go:328-332`); the package
  documentation says the first (`xprocess_schema/doc.go:97`). The model takes the last.
- A negative slice index in a key makes `decode` panic, although `parsePath` accepts it (`SchemaPath.ParsedPathLocates`;
  `SchemaSmall.NegativeIndexPanics` is an instance).
- With `zeroEmpty`, an empty piece in a slice of pointers to basic values, or behind a pointer to such a slice, makes
  `decode` panic, because the zero item is no pointer (`SchemaEffects.LeafCrashIff` says exactly when, for every type of
  field; `SchemaSmall.EmptyPiecePanics` is an instance). This and a negative index are all that panics when the keys are
  safe (`SchemaEffects.DecodePanics`).
- Two keys that spell one field in different cases are both accepted, and the one that is visited last wins
  (`SchemaRoundTrip.LastSpellingWins`), so the result depends on the order of a Go map unless both set the same value
  (`SchemaSmall.TwoSpellings`: `{"Name": ["a"], "name": ["b"]}`).
  `SchemaEffects.DecodeIgnoresOrder` says exactly when the order matters.
- A field left out by `omitempty` keeps whatever the form already held under its alias, and that comes back
  instead (`SchemaRoundTrip.StaleKeyWins`; `SchemaSmall.StaleEntry` for a string). `SchemaRoundTrip.DecodeUndoesEncode` has the exact condition on the form.
- `isEmpty` does not list `int16` and `uint` (`xprocess_schema/decoder.go:174-178`): an empty text for a required field
  of these types counts as given (`SchemaSmall.SmallEmptyText`).
- `Await` with something that is no function installs `valFn` before it fails, so every reader of that future, and of
  all that follow it, blocks for ever (`FutureRuns.ResolvesIffChainIsSound`, `FutureRuns.Confluent`).
- An output channel of `Await` that nobody drains blocks the whole promise, other consumers included
  (`PromiseRuns.UndrainedBlocks`), and a promise without a call of `Await` or `Map` never closes its channel.
  `Map(nil)` starts the goroutine that closes it but receives nothing, so without another call every sender waits for
  ever.
  `PromiseCalls.AlwaysCompletesIff` says exactly which scripts and calls are safe. `Map` drains its output as long as
  the futures it is handed resolve, and takes nothing after the first that does not.
- `Map` does not return when one of the futures never resolves, as after `YieldFn(val, 5)`, whatever its own function
  is, nor when it is given a nil value of a function type with outputs: that passes the test for nil, and the futures it
  makes block for ever (`PromiseMap.Map`, `PromiseMap.MappedBlocksIff`).
- The error of a panicking body is stored but never read; `Map` does not report it. Nor does `Map` report the error of
  its own function: a failed call shows as an index panic (`PromiseMap.Map`).
- The limit of the wait group holds only while it and the number of callers fit in the 16 bits of `Count`
  (`WaitGroups.LimitedIff`).

## Model

| member | source | states |
|---|---|---|
| Text.SplitThenJoin | xprocess_schema/cache.go:53 | joining the segments of a key gives the key back |
| Text.JoinThenSplit | xprocess_schema/cache.go:53 | segments without dots survive joining and splitting |
| Converter.ParseFormatUint | xprocess_schema/converter.go:112-145 | a printed unsigned number parses back at exactly the widths it fits, and is refused at the others |
| Converter.ParseFormatInt | xprocess_schema/converter.go:73-106 | the same for signed numbers, with the asymmetric range of two's complement |
| Converter.FormatDecimal | xprocess_schema/encoder.go:191-197 | numbers are printed in decimal notation, without leading zeros |
| Converter.ParseUintIff | xprocess_schema/converter.go:112-145 | a text parses as an unsigned number if and only if it is that number in decimal notation, with any number of leading zeros, and it fits |
| Converter.ParseIntIff | xprocess_schema/converter.go:73-106 | the same for signed numbers, with or without a sign |
| Converter.ParseBoolIff | xprocess_schema/converter.go:50-57 | every text that is true, "on" among them, and every text that is false |
| Text.EqualFoldIff | xprocess_schema/cache.go:214-221 | two texts are equal up to case if and only if they have the same letters, one by one |
| SchemaTypes.ZeroHasType | xprocess_schema/decoder.go:187 | the zero value of a type has the type |
| SchemaTypes.RangesInNumbers | xprocess_schema/converter.go:73-145 | the range of every integer kind, in numbers |
| SchemaCache.PromoteFromRule | xprocess_schema/cache.go:144-148 | appending an embedded table keeps what is there, refuses what another embedded table has, adds the rest |
| SchemaCache.PromoteRule | xprocess_schema/cache.go:140-149 | the promotion loop finds an alias in the struct itself, else in the only table that has it, else nowhere |
| SchemaCache.FlattenedAliasesUnique | xprocess_schema/cache.go:129-151 | if direct aliases are unique up to case in every struct, so are the aliases of the flattened table |
| SchemaCache.AliasRule | xprocess_schema/cache.go:129-151 | a direct field wins; else the only embedded struct that offers the alias; an alias of two embedded structs finds nothing |
| SchemaCache.LookupFolded | xprocess_schema/cache.go:214-221 | a lookup does not see the case of the alias |
| SchemaCache.LookupIgnoresFieldOrder | xprocess_schema/cache.go:129-151 | reordering the fields of a struct, embedded ones included, changes no lookup |
| SchemaCache.FirstFieldWins | xprocess_schema/cache.go:129-151 | whatever the aliases, the first field of a struct that declares an alias is found under it |
| SchemaCache.TagParts | xprocess_schema/cache.go:276-295 | the alias is the first part of the tag, or the name if that is empty, and the options are the others |
| SchemaCache.CreateFieldIff | xprocess_schema/cache.go:154-202 | a field is in the table if and only if it is not ignored and of a supported type, which are listed; its entry has its name, type, alias and options |
| SchemaStore.Collect | xprocess_schema/cache.go:130-139 | the first loop collects the supported direct fields, and one table per embedded struct |
| SchemaStore.CreateInfo | xprocess_schema/cache.go:129-151 | the two loops of `create` compute the flattened table of the specification |
| SchemaStore.Cache.Get | xprocess_schema/cache.go:115-126 | returns the table of the type whatever is cached, and caches it and nothing else |
| SchemaStore.Cache.ParsePath | xprocess_schema/cache.go:46-112 | the parsing loop gives the parts of the specification, independent of the cache |
| SchemaPath.EntryOrigin | xprocess_schema/cache.go:129-202 | every entry of a flattened table describes a field that is reached by an embedding path, and its canonical alias is the aliases on that path joined by dots |
| SchemaPath.SearchFinds | xprocess_schema/decoder.go:202 | with unambiguous Go names, `FieldByName` finds exactly the field at an embedding path |
| SchemaPath.FieldByNameIff | xprocess_schema/decoder.go:202 | with any Go names, the field of a name that is embedded least deep, and nothing if there are two such |
| SchemaPath.ParsedWalk | xprocess_schema/cache.go:54-104 | from every state of the parsing loop, the parts to come lead on from the type reached so far |
| SchemaPath.LocateTyped | xprocess_schema/decoder.go:182-231 | a walk that does not crash ends at a typed location, and stops only in a struct; shallow embedding makes it safe |
| SchemaPath.ParsedPathLocates | xprocess_schema/cache.go:46-112 | names and indices of the parts account for every segment; only the last part has no index; the walk of `decode` ends at a slot of the last field's type, or panics if and only if an index is negative |
| SchemaTarget.PutHasType | xprocess_schema/decoder.go:182-231 | an edit at a typed location keeps the tree well typed and never makes a pointer nil again |
| SchemaTarget.AllocHasType | xprocess_schema/decoder.go:192-200 | allocating the embedded pointers of a struct keeps it well typed |
| SchemaOrder.SafePutIsDone | xprocess_schema/decoder.go:184-203 | with embedding at most one pointer deep, no walk through a nil pointer panics |
| SchemaOrder.UnsafePutPanics | xprocess_schema/decoder.go:184-203 | the condition is exact: on a target with nothing set, every walk that is not safe panics |
| SchemaOrder.EditsCommute | xprocess_schema/decoder.go:182-231 | two edits at locations neither of which is a prefix of the other commute, allocations and slice growth included |
| SchemaRuns.RunPanics | xprocess_schema/decoder.go:78-86 | a run of effects panics if and only if one of them panics by itself |
| SchemaOverlap.OrderUnseenIff | xprocess_schema/decoder.go:182-231 | of two edits, one at or below the other, the order is unseen if and only if the upper one keeps its slot, or touches a struct above the other, or sets a value that the lower one leaves as it is |
| SchemaRuns.EffectsCommuteIff | xprocess_schema/decoder.go:78-86 | two keys leave the same in both orders, on every target alike, if and only if they agree: locations apart, or the upper edit keeps or only touches its slot, or the lower one leaves the value it sets as it is |
| SchemaRuns.RunIgnoresOrder | xprocess_schema/decoder.go:78-86 | effects that agree pairwise have the same result in every order |
| SchemaRuns.ApplyPanicsIff | xprocess_schema/decoder.go:182-231 | an edit panics on some target if and only if it is a panic by itself or its walk is not safe, and then it panics on the zero target |
| SchemaEffects.BasicSliceAllOrNothing | xprocess_schema/decoder.go:255-326 | a slice of basic values becomes the concatenation of its conversions, or is kept and the error has the least failing index |
| SchemaEffects.PointerSlicePanics | xprocess_schema/decoder.go:255-325 | decoding into a slice of pointers panics if and only if `zeroEmpty` is on, all values convert and some piece is empty |
| SchemaEffects.LeafCrashIff | xprocess_schema/decoder.go:233-387 | for a slot of any type: it is such a slice, or a pointer to one, and its values are like that |
| SchemaEffects.CrashesIff | xprocess_schema/decoder.go:182-387 | a key panics whatever the target is if and only if it is parsed and has a negative index, or the slot it denotes and its values are like that; and otherwise whether its walk is safe depends on its text alone |
| SchemaEffects.KeyPanicsIff | xprocess_schema/decoder.go:182-231 | a key panics on some target, and then on the zero target, if and only if it panics by itself or its walk is not safe; with unambiguous Go names both are conditions on its text and its values |
| SchemaEffects.ShallowKeysAreSafe | xprocess_schema/decoder.go:192-202 | with embedding by value or one pointer deep no key walks through a nil embedded pointer |
| SchemaEffects.IndependentIsCompatible | xprocess_schema/decoder.go:78-86 | keys none of whose locations is a prefix of another agree pairwise |
| SchemaEffects.DecodeIgnoresOrder | xprocess_schema/decoder.go:78-86 | all orders of the keys leave the same target, or all panic, if and only if the keys agree pairwise or one of them panics by itself |
| SchemaEffects.DecodePanics | xprocess_schema/decoder.go:78-86 | decoding panics, in any order, if and only if some key does so by itself: has a negative index, or decodes an empty piece into a slice of pointers |
| SchemaPlaces.EditedHere | xprocess_schema/decoder.go:182-231 | after an edit its place reads as the action makes it of what it was, and its pointer is not nil |
| SchemaPlaces.EditedElsewhere | xprocess_schema/decoder.go:182-231 | every place apart reads as before, but for the nil embedded pointers beside the way, which are allocated |
| SchemaPlaces.SliceGrown | xprocess_schema/decoder.go:219-230 | a slice on the way has as many elements as before, or just enough for the index |
| SchemaAliases.AliasIsFound | xprocess_schema/cache.go:129-151 | with unambiguous aliases every field of the flattened struct is found under its alias |
| SchemaRoutes.RouteParses | xprocess_schema/cache.go:46-112 | from every state of the parsing loop, names and indices along a route through the type are parsed, and lead along it |
| SchemaRoutes.RouteIsFound | xprocess_schema/decoder.go:182-231 | the key of a route, through nested structs, embedded ones, pointers and slices, acts on the place where the route ends, whose type it has |
| SchemaValues.ConvertIff | xprocess_schema/converter.go:44-145 | which texts convert to which value, kind by kind |
| SchemaValues.SingleValueLeaves | xprocess_schema/decoder.go:327-385 | what a key leaves in a slot that is no slice: an empty or missing last text sets the zero value if `zeroEmpty` is on and else nothing; one that converts sets its value; one that does not is reported with index -1 and sets nothing |
| SchemaValues.SliceHasItems | xprocess_schema/decoder.go:255-324 | the values convert if and only if all their texts do, split at commas where the whole does not convert; then there is one item per text, in order, empty texts being zero items with `zeroEmpty` and skipped without |
| SchemaValues.SliceLeaves | xprocess_schema/decoder.go:235-326 | what a key leaves in a slice: these items, whatever it held, or what it held and the first value that fails |
| SchemaValues.KeyElsewhere | xprocess_schema/decoder.go:182-231 | beside its slot a key changes nothing but nil embedded pointers on its way |
| SchemaValues.MissingNameSetsNothing | xprocess_schema/decoder.go:202-207 | a parsed key whose last Go name is not found sets nothing and reports nothing |
| SchemaValues.NameNotFound | xprocess_schema/decoder.go:202-207 | so it is with a Go name that two embedded structs have |
| SchemaCursor.EnterKeepsOutcome | xprocess_schema/decoder.go:184-231 | moving into a part of the target, with the allocations made, leaves the outcome of the edit as it was |
| SchemaDecode.ConvertPieces | xprocess_schema/decoder.go:293-315 | the loop over comma-separated pieces converts all of them or fails |
| SchemaDecode.ConvertItems | xprocess_schema/decoder.go:255-324 | the loop over the values gives the concatenated items, or the least index that fails |
| SchemaDecode.StartLookup | xprocess_schema/decoder.go:185-200 | follows a pointer and allocates the embedded nil pointers of the struct behind it, and changes nothing else |
| SchemaDecode.FollowPromoted | xprocess_schema/decoder.go:202 | goes on through embedded structs without allocating; fails exactly where the edit panics |
| SchemaDecode.FollowSelector | xprocess_schema/decoder.go:192-202 | reaches the field of a lookup, with the edit still to make unchanged |
| SchemaDecode.StepName | xprocess_schema/decoder.go:184-203 | one turn of the loop over names keeps the final outcome, or returns it |
| SchemaDecode.FollowPointer | xprocess_schema/decoder.go:209-217 | dereferences, allocating a zero value behind a nil pointer |
| SchemaDecode.EnterElement | xprocess_schema/decoder.go:219-230 | grows a slice just enough, keeps its elements, fills up with zero values, and moves to the element |
| SchemaDecode.SetSlot | xprocess_schema/decoder.go:233-387 | converts the values and sets the slot, or keeps it and returns the error, or panics |
| SchemaDecode.Decode | xprocess_schema/decoder.go:182-387 | leaves the target, and returns the error, that the effect of the parts says, or panics when it does |
| SchemaFill.Decoder.DecodeKey | xprocess_schema/decoder.go:79-85 | one key has exactly its effect on the target, and its error |
| SchemaFill.Decoder.Decode | xprocess_schema/decoder.go:70-92 | for some order of the keys, the target has all their effects, and the report all their errors and those of the required fields |
| SchemaFill.ReportSays | xprocess_schema/decoder.go:70-92 | one error per key, its own before that of a required field; a key is reported as unknown if and only if it is not parsed and unknown keys are not ignored |
| SchemaFill.DecodeIsDetermined | xprocess_schema/decoder.go:70-92 | two calls on the same input, with keys that agree, end with the same report, and the same target unless they panic |
| SchemaRequired.FindRequiredLists | xprocess_schema/decoder.go:115-144 | the recursion lists exactly the spellings of exactly the required fields |
| SchemaRequired.RequiredReported | xprocess_schema/decoder.go:99-167 | a key is reported if and only if it is the canonical path of a required field and every source key that starts with one of its spellings is empty |
| SchemaRequired.EmptyIff | xprocess_schema/decoder.go:170-179 | when values count as not given: none at all, or an empty first one for a basic kind that is not `int16` or `uint` |
| SchemaRequired.GivenFieldNotReported | xprocess_schema/decoder.go:99-167 | a source key that walks, in exact case, to a required field and is not empty keeps its canonical path out of the report |
| SchemaRequired.ParserWalksTo | xprocess_schema/cache.go:46-112 | the field such a walk ends at is the one that the parser finds |
| SchemaEncode.EncodeOne | xprocess_schema/encoder.go:89-136 | one turn changes the form, and collects unsupported types, as specified, or calls a missing function |
| SchemaEncode.Encode | xprocess_schema/encoder.go:78-143 | the loop over the fields does so for the whole struct |
| SchemaEntries.PrintedText | xprocess_schema/encoder.go:187-217 | booleans, strings and numbers as they are printed |
| SchemaEntries.PointerText | xprocess_schema/encoder.go:166-172 | through any number of pointers, the text of what is behind them, "null" at a nil pointer, and a crash at anything else |
| SchemaEntries.PointerField | xprocess_schema/encoder.go:103-113 | a pointer to a basic value gets the entry of that value and is never left out; nil is "null", or left out |
| SchemaEntries.BasicField | xprocess_schema/encoder.go:103-113 | a basic value is added to its entry, unless it is zero and left out |
| SchemaEntries.StructPointerField | xprocess_schema/encoder.go:97-101 | a pointer to a struct is written like the struct |
| SchemaEntries.SliceField | xprocess_schema/encoder.go:120-136 | a slice replaces its entry by the texts of its elements, unless it is empty and left out; it crashes if one of them does |
| SchemaEntries.UnsupportedIff | xprocess_schema/encoder.go:124-127 | exactly the unsupported types of the fields declared in the struct itself are reported |
| SchemaEntries.NestedInPlace | xprocess_schema/encoder.go:89-136 | nested structs, by value or behind pointers, are written as if their fields were declared in place, in order |
| SchemaRoundTrip.EncodeLeaf | xprocess_schema/encoder.go:78-143 | encoding writes the entry of every field that is not omitted, on top of what was there, and no other key of a field |
| SchemaRoundTrip.LeafBack | xprocess_schema/decoder.go:255-343 | decoding the entry of a field gives its value back, even behind entries that were there before |
| SchemaRoundTrip.PutLeaf | xprocess_schema/decoder.go:182-207 | decoding into a field sets or keeps that field and changes nothing else |
| SchemaRoundTrip.RunActs | xprocess_schema/decoder.go:78-86 | decoding keys of fields, in any order, leaves every field as its own key says, and the others as they were |
| SchemaRoundTrip.DecodeUndoesEncode | xprocess_schema/encoder.go:78-143 | whatever a form held under the aliases of the fields, decoding the encoded struct into a zero struct, in every order, gives it back without errors, nil slices as empty ones, if and only if no omitted field had an entry that decodes to something else |
| SchemaRoundTrip.PrintedComesBack | xprocess_schema/encoder.go:166-172 | what is printed for a basic value, or a pointer to one, comes back as that value, or a pointer to it, wherever its key leads and whatever the form held before |
| SchemaRoundTrip.MethodsRoundTrip | xprocess_schema/decoder.go:70-92 | the same of what `Decode` reports and leaves |
| SchemaRoundTrip.WrittenKeysAreNotStale | xprocess_schema/encoder.go:106-110 | a form that only has keys that are written meets the condition |
| SchemaRoundTrip.StaleKeyWins | xprocess_schema/encoder.go:106-108 | what any form held under an omitted field comes back as that field's value |
| SchemaRoundTrip.LastSpellingWins | xprocess_schema/decoder.go:78-86 | of two spellings of one field the one visited last wins, and the two orders give the same if and only if the values are the same |
| SchemaSmall.SmallMeetsConditions | xprocess_schema/cache.go:129-151 | a struct of one basic field meets the conditions on types all at once |
| SchemaSmall.SmallPath | xprocess_schema/cache.go:46-112 | its alias parses into the one part that names the field |
| SchemaSmall.SmallRequired | xprocess_schema/decoder.go:99-167 | with an empty source it is reported if and only if it is required; given a text it is not |
| SchemaSmall.SmallEmptyText | xprocess_schema/decoder.go:170-179 | given an empty text, a required field is reported if and only if it is no `int16` and no `uint` |
| SchemaSmall.EmptyPiecePanics | xprocess_schema/decoder.go:258-262 | an empty text for a slice of pointers, or a pointer to one, panics if and only if `zeroEmpty` is on |
| SchemaSmall.TwoSpellings | xprocess_schema/decoder.go:78-86 | with two spellings of a field and different values the order of the keys is seen, on every target |
| SchemaSmall.StaleEntry | xprocess_schema/encoder.go:106-108 | an empty string that `omitempty` leaves out comes back as the text the form held |
| SchemaSmall.NegativeIndexPanics | xprocess_schema/cache.go:77-84 | an index of a slice of structs is parsed with its sign, and decoding panics if and only if it is negative |
| SchemaSmall.RouteExample | xprocess_schema/decoder.go:182-231 | a key into an element of a slice of structs, in lower case, sets the field of that element |
| SchemaSmall.DeepEmbeddingPanics | xprocess_schema/decoder.go:192-202 | with an embedded pointer inside an embedded pointer the innermost field's key panics on the zero target |
| SchemaSmall.DeepExample | xprocess_schema/decoder.go:192-202 | one such type and key |
| Promise.AdvanceBalance | xprocess_future/future.promise.go:43-70 | a step of a body changes its share of the counter by what it adds, and its values by what it accepts |
| Promise.StepKeepsInv | xprocess_future/future.promise.go:25-138 | every step keeps the invariant of counter, values, threads and closer |
| Promise.InvSafe | xprocess_future/future.promise.go:26-41 | in an invariant state nothing can send on or close a closed channel or call `Done` at zero; there is at most one closer and one close |
| PromiseRuns.ZeroStays | xprocess_future/future.promise.go:26 | once the counter is zero it stays zero |
| PromiseRuns.PromiseIsSafe | xprocess_future/future.promise.go:25-138 | in every reachable state: no fault, at most one close, the counter is the sum over all goroutines, and accepted values are under way or handed out, each once |
| PromiseRuns.StepFalls | xprocess_future/future.promise.go:25-138 | every step lowers the measure |
| PromiseRuns.StuckMeansComplete | xprocess_future/future.promise.go:28-41 | a state without a step, after a call, with no value in an undrained output and no sender left, is complete |
| PromiseRuns.RunAccounts | xprocess_future/future.promise.go:43-70 | along every run, every value of the scripts is still to come, accepted or dropped |
| PromiseRuns.PromiseDelivers | xprocess_future/future.promise.go:25-138 | in the end the outputs have exactly the accepted values; with the dropped ones these are all values of the scripts, and without a panic none is dropped |
| PromiseRuns.UndrainedBlocks | xprocess_future/future.promise.go:34-37 | an output that is not drained holds its value for ever, and the promise never completes |
| PromiseRuns.PromiseCompletes | xprocess_future/future.promise.go:25-138 | every run is bounded; a run that can go no further is complete if and only if there was a call of `Await` or `Map`, no undrained output holds a value and no sender waits; the last is so if some call makes a consumer |
| PromisePanics.PanicCancels | xprocess_future/future.promise.go:123-131 | a body that is done with its panic has cancelled the promise; in the end the promise is cancelled, and has an error, if and only if the scripts panic |
| PromisePanics.CancelStops | xprocess_future/future.promise.go:43-70 | once cancelled always cancelled; from then on at most the values are accepted, and the goroutines started, whose bodies were past the check |
| PromisePanics.CancelledGoesOn | xprocess_future/future.promise.go:43-47 | a cancelled body drops what it would yield, one after the other, and may still panic |
| PromisePanics.PanicCutsOff | xprocess_future/future.promise.go:43-70 | no value behind a panic of its body is ever accepted, and until the promise is cancelled no other one is lost |
| PromisePanics.OutputsGrow | xprocess_future/future.promise.go:31-39 | a consumer hands out what it receives, one after the other, behind what it has handed out |
| PromiseCalls.DrainedCompletes | xprocess_future/future.promise.go:25-138 | if some call makes a consumer and every output is drained, every run that can go no further is complete |
| PromiseCalls.UndrainedIsReachable | xprocess_future/future.promise.go:28-41 | if a value is yielded and an output is not drained, some run gives that output a value that it keeps |
| PromiseCalls.UndrainedExample | xprocess_future/future.promise.go:28-41 | the run for one yield and one output |
| PromiseCalls.AlwaysCompletesIff | xprocess_future/future.promise.go:25-138 | every run completes if and only if there is a call of `Await` or `Map`, and no script yields before it panics, or some call is not `Map(nil)` and every output is drained |
| PromiseCalls.PanicFreeCompletesIff | xprocess_future/future.promise.go:25-138 | without panics: if and only if there is a call, and the scripts have no values, or some call is not `Map(nil)` and every output is drained |
| PromiseMap.MappedBlocksIff | xprocess_future/future.promise.go:163-188 | the future that `Map` makes of a received one blocks its readers if and only if `Map` was given no real function; with one it has what the function returns on the values of the received future, or its error |
| PromiseMap.Map | xprocess_future/future.promise.go:72-121 | which of the results comes when: errors of the futures, nil, no list, an index panic, the first outputs in the order of arrival, or, if and only if a future does not resolve or the function is a nil value with outputs, no return at all; and how many futures it takes |
| PromiseMap.ErrorsInOrder | xprocess_future/future.promise.go:79-92 | the reported errors are those of the failed futures, in the order of arrival |
| PromiseMap.MapDeliversAll | xprocess_future/future.promise.go:72-121 | as the only consumer, `Map` receives each accepted future once, so any list it can return is a permutation of the first outputs of its function on any listing of them |
| Futures.ReadKeepsCell | xprocess_future/future.value.go:39-46 | each step of `getVal` and `Err` keeps the cell and its reader right: the `Once` only goes on, the error does not change |
| Futures.WorkKeepsCell | xprocess_future/future.promise.go:150-188 | each step of a goroutine of `Async` or `Await` keeps its cell right; the error is set before the send |
| Futures.StepKeepsInv | xprocess_future/future.promise.go:140-191 | every step of any goroutine keeps the invariant of all cells and readers |
| FutureRuns.SingleAssignment | xprocess_future/future.promise.go:147-188 | at most one send, one receive and one call per future; with the send the error is final, with the receive the values are |
| FutureRuns.FutureHolds | xprocess_future/future.promise.go:140-188 | what a future holds, by the way it was made: what its function returns, whole and in order, or nothing and the error of its panic; for `Await`, the function is called on the values of the future before |
| FutureRuns.AsyncIsRead | xprocess_future/future.promise.go:147-156 | whoever has read a future of `Async` has what its function returned, or the error of its panic |
| FutureRuns.ReadersAgree | xprocess_future/future.value.go:25-46 | whoever has read a future, and whenever, has read its sequential meaning |
| FutureRuns.ChainResolves | xprocess_future/future.promise.go:140-191 | when nothing can happen any more, every future with a meaning is filled |
| FutureRuns.Confluent | xprocess_future/future.promise.go:140-191 | every run is bounded, and every end has every reader at the sequential fold of its chain, or blocked if there is none, has called exactly the functions that nothing failed before, and has filled each future with a meaning by exactly one send |
| FutureRuns.FirstErrorWins | xprocess_future/future.promise.go:176-180 | the error of a stage is that of every stage after it, and no function after it is called |
| FutureRuns.ResolvesIffChainIsSound | xprocess_future/future.promise.go:171-174 | a future resolves if and only if no `Await` in its chain was given something that is no function |
| WaitGroups.WaitGroup.constructor | xprocess_waitgroup/waitgroup.go:13-20 | starts at zero, with the given limit or twice the number of CPUs, cut to 16 bits |
| WaitGroups.WaitGroup.Check | xprocess_waitgroup/waitgroup.go:34-43 | a limit of zero becomes the default; the caller is sent on or to wait as the step of the relation says |
| WaitGroups.WaitGroup.Wait | xprocess_waitgroup/waitgroup.go:44 | blocks exactly when the counter is not zero, as the step says |
| WaitGroups.WaitGroup.Increment | xprocess_waitgroup/waitgroup.go:49 | the addition after the check is the step of the relation |
| WaitGroups.WaitGroup.Inc | xprocess_waitgroup/waitgroup.go:49 | takes two or three steps of the relation, to the addition or into the wait, and changes no other caller |
| WaitGroups.WaitGroup.Done | xprocess_waitgroup/waitgroup.go:51 | takes one off and releases those that wait exactly when that makes zero, as the step says |
| WaitGroups.StepKeepsBound | xprocess_waitgroup/waitgroup.go:34-53 | no step lifts the counter and the callers past the check above the bound |
| WaitGroups.OverTheLimit | xprocess_waitgroup/waitgroup.go:29-49 | a run that exceeds a bound of more than 16 bits |
| WaitGroups.LimitedIff | xprocess_waitgroup/waitgroup.go:29-49 | with limit C and k callers, the counter and the callers past the check never exceed C - 1 + k, and `Count` is exact, if and only if C - 1 + k fits in 16 bits |
| WaitGroups.OneCallerKeepsLimit | xprocess_waitgroup/waitgroup.go:34-49 | one producer never has more tasks than the limit |
| WaitGroups.WaitersAreReleased | xprocess_waitgroup/waitgroup.go:43-52 | no wakeup is lost: from every reachable state the `Done` calls of the counted tasks release all that wait |
| Groups.RunKeepsInv | xprocess_group/group.go:29-50 | every run keeps the invariant of counter, limit, context, and started and submitted tasks |
| Groups.GroupIsSafe | xprocess_group/group.go:29-50 | never more live tasks than the limit; tasks are started in order, each once; the context is done if and only if `Cancel` was called or `Wait` is over, and no task sees it done unless `Cancel` was called |
| Groups.WaitMeansDone | xprocess_group/group.go:37 | `Wait` returns only when every submitted task was started and has ended, having done all its work up to a panic |
| Groups.GroupCompletes | xprocess_group/group.go:29-50 | every run is bounded and ends with everything done |
| Groups.CancelIsSeen | xprocess_group/group.go:29 | once `Cancel` is called, by the producer or by a task, every task that looks from then on sees it |
| Groups.GoesOn | xprocess_group/group.go:41-49 | below the limit the producer starts its next task by three steps of its own |
| Groups.BlockedWaits | xprocess_group/group.go:44 | at the limit it waits |
| Groups.NobodyIsHeldUp | xprocess_group/group.go:29-50 | a call of `Cancel` waits for nobody, and neither does a task |
| ByteBuffers.ByteBuffer.Write | xprocess_bytebuffer/bytebuffer.go:72-75 | appends, in place if there is room |
| ByteBuffers.ByteBuffer.WriteByte | xprocess_bytebuffer/bytebuffer.go:82-85 | appends one byte |
| ByteBuffers.ByteBuffer.Set | xprocess_bytebuffer/bytebuffer.go:94-96 | the contents are those given |
| ByteBuffers.ByteBuffer.Reset | xprocess_bytebuffer/bytebuffer.go:109-111 | empties the buffer and keeps its array |
| ByteBuffers.ReadMore | xprocess_bytebuffer/bytebuffer.go:37-45 | one turn doubles a full array, reads into a window that is not empty, and keeps what was read before |
| ByteBuffers.ByteBuffer.ReadFrom | xprocess_bytebuffer/bytebuffer.go:27-56 | whatever the capacity and the windows, the buffer ends as the old contents and all bytes up to the first error, with their exact count, and that error unless it is the end of the input |
| Calibration.ClassOf | xprocess_bytebuffer/pool.go:139-151 | the least class that fits the size, or the last one |
| Calibration.ClassesInNumbers | xprocess_bytebuffer/pool.go:9-17 | 20 classes, the first for up to 64 bytes and each twice as large as the one before |
| Calibration.FrontIsBest | xprocess_bytebuffer/pool.go:96-112 | no choice of classes has more calls than as many classes from the front of the sorted histogram |
| Calibration.FrontIsFewest | xprocess_bytebuffer/pool.go:101-112 | a front that just exceeds 95 % of the calls is a smallest set of classes that does |
| Calibration.ScanCalibrates | xprocess_bytebuffer/pool.go:86-112 | the scan of any sorted permutation of the histogram finds an optimal cut of the histogram |
| Calibration.MaxSizeCovers | xprocess_bytebuffer/pool.go:98-115 | buffers up to the maximal size had more than 95 % of the calls; the default size is a class no larger |
| Percentiles.FloatPercentile | xprocess_bytebuffer/pool.go:101 | for up to 2^40 calls, any nearest double of the sum times the double constant, rounded down, is the exact 95 % rounded down |
| Percentiles.PercentIsNearest | xprocess_bytebuffer/pool.go:16 | that constant is the double next to 0.95 |
| Percentiles.SequentialPercentile | xprocess_bytebuffer/pool.go:101 | so the product is exact in a pool used by one goroutine |
| Pools.Index | xprocess_bytebuffer/pool.go:139-151 | the shift loop computes the class, also for an empty buffer |
| Pools.Sort | xprocess_bytebuffer/pool.go:96 | sorts in place by falling calls, and permutes; ties are left open |
| Pools.Pool.Get | xprocess_bytebuffer/pool.go:48-56 | an empty buffer, out of the pool or new with the default size |
| Pools.Pool.Put | xprocess_bytebuffer/pool.go:67-79 | counts the size, calibrates over the threshold, keeps the buffer, emptied, if and only if it is not too large; all counters are at most 42000 again |
| Pools.Pool.CountCall | xprocess_bytebuffer/pool.go:68-72 | the call is in the histogram, or the histogram with it was harvested and is zero |
| Pools.Pool.TakeCalls | xprocess_bytebuffer/pool.go:86-95 | the histogram is taken, in class order, with its sum, and is zero |
| Pools.Pool.Scan | xprocess_bytebuffer/pool.go:98-112 | the greedy loop finds an optimal cut |
| Pools.Pool.Calibrate | xprocess_bytebuffer/pool.go:81-118 | publishes an optimal cut of the histogram it takes, or does nothing while another calibration runs |
| PoolRaces.StepKeepsCalls | xprocess_bytebuffer/pool.go:67-118 | no atomic step loses or invents a call, of any class |
| PoolRaces.StepKeepsInv | xprocess_bytebuffer/pool.go:81-118 | every step keeps: one calibration at most, and the published pair belongs to it or to the last |
| PoolRaces.OneCall | xprocess_bytebuffer/pool.go:67-118 | a goroutine that is not interrupted counts its call, and calibrates if that makes more than 42000 of its class and nobody else does |
| PoolRaces.CalibrationIsAtomic | xprocess_bytebuffer/pool.go:67-118 | over all interleavings: calls made are in the histogram or harvested, one goroutine is past the compare-and-swap at most, and while none is the published pair is zero or that of the last calibration |
| PoolRaces.AllIsCounted | xprocess_bytebuffer/pool.go:67-118 | when all have finished, every call is in the histogram or in one finished calibration |

## Left out

- Floats, arrays, `TextUnmarshaler` types, registered converters and encoders, and unexported fields.
- Recursive and named Go types: a type is a finite tree, and two types with the same structure are the same.
- Aliasing in the target: it is a tree, and two pointers of it to one object are not modelled. That edits at diverging
  locations commute depends on this.
- Case folding beyond ASCII; slice indices so large that memory runs out.
- The lock of the cache, and its use by several goroutines; the branch for a cache that returns nil, which it never does.
- The texts of error messages, and of wrapped panics.
- What the target looks like after a panic in the middle of `decode`.
- SchemaRequired.GivenFieldNotReported: asks for the exact case of every alias, because the parser folds the case of a
  key and `isEmptyFields` does not.
- SchemaRoundTrip.DecodeUndoesEncode: covers structs of booleans, numbers, strings, slices of them and structs embedded
  by value. The encoder prints floats with six digits, drops the prefix of named nested structs, and prints a nil
  pointer as "null", none of which decodes back.
- Goroutines are steps of a state machine rather than methods of `promise`, `futureValue` and `group`, since they
  interleave inside those methods; `Map` is a method over the results of the futures that its `Await` hands out, or
  their absence. An output of the promise is drained for good or not at all: one that stops in the middle, like that of
  `Map` at a future that does not resolve, is not part of `PromiseCalls`.
- Graphs of futures are fixed before the run; futures made by the functions of other futures are not modelled.
- Bodies of promises and tasks of groups are finite scripts. A `Future` is used only while its body runs, a group has
  one producer, and `Cancel` is called by the producer or by a task.
- The run-time panic of Go for a wait group that is used again while a `Wait` returns: all waiters are released when the
  counter becomes zero.
- WaitGroups.WaitGroup.Done: asks for a counter that is not zero, where Go panics; `PromiseRuns.PromiseIsSafe` shows that
  the promise never does that. `Add` is modelled for one only, which is `Inc`.
- The normalisation of arguments and the pooled argument slices in `xutil`: functions are given as total functions on
  argument values that return or panic.
- Pools.Sort: the algorithm of `sort.Sort` is not that of the Go library; callers know only that the result is a
  sorted permutation.
- Pools.Pool.Calibrate: computes 95 % in integers, to which the floating-point product comes for up to 2^40 calls
  (`Percentiles.FloatPercentile`); sums beyond that, and wrap-around of 64-bit counters, are not modelled.
- PoolRaces.CalibrationIsAtomic: buffers, and the load of the maximal size in `Put`, are not part of it.
- ByteBuffers.ByteBuffer.Write: how far `append` grows a full array is left open; other slices of the same array are
  not part of the model.
- The small writers and readers of the byte buffer that only rename these (`WriteString`, `SetString`, `WriteTo`,
  `Bytes`, `String`).
- `process.go`, `xprocess_event`, `xprocess_strings`, `xprocess_test`, `xprocess_isatty`, `xprocess_errs` and the
  wrappers in the root package: timers, logging, system calls, unsafe aliasing, or too little to prove.
