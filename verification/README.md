# Ruminate, modelled and proved in Dafny

Ruminate lets a C program look at its own types through a debugger. This project models the
parts of it where the reasoning is hard, and proves what they promise.

**The JSON codec.** `_json_serialize` prints a typed C value from raw memory as a JSON tree;
`_json_deserialize` reads a tree back into freshly allocated, typed blocks. There are two layers.

- *Values.* A deep value (`Values.Value`) is what a typed location holds once every pointer is
  followed. `Serializer.Serialize` and `Deserializer.Deserialize` say what the two walks compute
  on values, with hooks, typedefs, abort outcomes and endless recursion. `RoundTrip`,
  `SerializerLaws`, `DeserializerLaws` and `Termination` prove the laws.
- *Memory.* `Memory.Holds` says when a location in a store of byte cells holds a value: integers
  are little-endian two's complement, a pointer occupies eight cells, offsets come from a type
  table. `Print` and `Build` are the walks over that memory, with the loops, stores, copies,
  temporaries, library handles and failing calls of the C code. Both are proved against the value
  layer (`Placement` and `Failures` say what a build has done, finished or broken off), `Images`
  says what single bytes print as and are built from, and `EndToEnd` puts the walks together.

Values are finite trees, so a location holds a value exactly if its heap is acyclic from there;
`EndToEnd.AcyclicExactly` proves that this is the same as having a rank that pointers decrease.

**Reference counts.** `Ownership` models strings, types, members and memory blocks with their
owning cache slots (`Introspection` updates them in place), and proves over every sequence of
calls that each count is the number of owners, that nothing dangles, that each call changes the
client's references by just the one it returns or takes back, and that a run leaves nothing
behind exactly if the client gave back what it was handed.

**The stop/continue handshake.** `Handshake` interleaves the client thread, the server thread
and the event thread step by step, with Python's iteration over a list that changes underneath.

**Small parts these depend on.** `Types` (layout, the `getMembers` loop), `Bytes` (integer
images), `Allocator`, `Session` and `EnumMember` (handles, failing backend calls), `Port`
(`read_child_port`).

Conventions. The target is LP64 and little-endian with a signed `char`. The backend is a fixed
function: a type table, type names, a lookup by name, and a plan of which checked calls fail. A
hook is a function of its type, its value (or tree) and what its continuation returns for them.
All enumerators of an enum have the enum's integer type. Doubles are 64-bit patterns, of which
only the exponent field is looked at.

Where a claim of the library fails, the exact condition is proved, and an input that fails it is
given: pointers that collapse (`RoundTrip.RoundTripExact`, `CollapseWitness`), stores of narrow
enums (`EndToEnd.SpillsExactly`, `NarrowEnumSpills`), handles kept by the walk
(`Print.KeepsNothingExactly`, `MatchKeepsThree`), a lost stop (`Handshake.RequestsFinish`, `StopCanBeLost`),
arrays whose size wraps around (`Codec.AllocatesExactly`, `HugeArrayFails`),
recursion that does not end (`DeserializerLaws.OutcomeExactly` with `Termination.EndsExactly`,
`ListNeverEnds`), a read loop that does not end (`Port.EndsExactly`, `OneByteNeverEnds`).

Verify with `dafny verify dfyconfig.toml`.

## Model

| member | source | states |
|---|---|---|
| RoundTrip.RoundTripExact | util/ruminate-jansson/deserialize.c:230-274 | For every value the codec represents, hooks included, deserializing the serialization gives the value back if and only if no non-null pointer heads a chain of pointers that ends in NULL |
| RoundTrip.PrintThenRead | util/ruminate-jansson/serialize.c:287-345 | In all cases what comes back is the value with each such chain cut to NULL, and the tree is JSON null exactly for a chain ending in NULL |
| RoundTrip.CollapseFixed | util/ruminate-jansson/serialize.c:317-329 | Cutting the null chains changes exactly the values that contain a non-null pointer heading one |
| RoundTrip.CollapseWitness | util/ruminate-jansson/deserialize.c:250-256 | A pointer to a null `int *` prints as null and is read back as a null pointer |
| RoundTrip.JsonStable | util/ruminate-jansson/serialize.c:309-345 | Serializing what was deserialized from a serialization gives the same tree again, collapsing chains included |
| RoundTrip.CollapsePrintsAlike | util/ruminate-jansson/serialize.c:317-329 | A value and its collapse print alike |
| RoundTrip.TopLevelRoundTrip | util/ruminate-jansson/deserialize.c:280-299 | With the type/value wrapper the top-level calls compose if the type's name resolves first to that type |
| RoundTrip.BareRoundTrip | util/ruminate-jansson/serialize.c:351-381 | Without the invertable flag the top-level call returns the tree itself, from which the collapsed value is read back |
| RoundTrip.SupportedIsCodable | util/ruminate-jansson/deserialize.c:238-273 | Values of supported types are represented at any nesting depth if each hooked node, whatever it holds, has a pair of hooks that inverts itself there and yields neither nothing nor null; only what is outside the hooked nodes must be well-typed |
| SerializerLaws.ObjectShape | util/ruminate-jansson/serialize.c:80-114 | An emitted object is not empty, and its keys are exactly the names of the members that print, each with what that member prints |
| SerializerLaws.ArrayShape | util/ruminate-jansson/serialize.c:235-276 | An emitted array has the array's length, with null exactly where an element prints as nothing or null |
| SerializerLaws.AbortsExactly | util/ruminate-jansson/serialize.c:31-40 | Without hooks a well-typed value fails an assertion if and only if the walk reaches a void, union or function it may not skip or an enum that stores none of its enumerators |
| SerializerLaws.SkipModeTotal | util/ruminate-jansson/serialize.c:201-232 | With unknowns skipped, only such an enum fails an assertion |
| SerializerLaws.SkippedMemberAbsent | util/ruminate-jansson/serialize.c:42-60 | A member of unknown type, or an unhooked union, function or void that is skipped, or a double that is not finite, has no key in the object around it |
| SerializerLaws.SkippedElementIsNull | util/ruminate-jansson/serialize.c:235-276 | As an array element, such a value leaves null in its place |
| SerializerLaws.WrappedExactly | util/ruminate-jansson/serialize.c:361-374 | With the invertable flag exactly the type's name and the tree are wrapped; without it nothing is |
| SerializerLaws.HookDecides | util/ruminate-jansson/serialize.c:302-309 | The result of a type's hook is final unless it is nothing, and its continuation disables this hook only |
| SerializerLaws.HookBehind | util/ruminate-jansson/serialize.c:317-338 | An unhooked typedef, and an unhooked pointer, print as the hook of what is behind them says |
| SerializerLaws.PassThroughInvisible | util/ruminate-jansson/serialize.c:302-309 | Hooks that only return what their continuation returns, installed for any names without a serializer and beside any other hooks, change no output at any depth |
| SerializerLaws.TypedefsErased | util/ruminate-jansson/serialize.c:333-338 | Without hooks a type prints as the same type with typedefs replaced by canonical types throughout |
| Deserializer.PartsExactly | util/ruminate-jansson/deserialize.c:104-130 | A struct or array is built if and only if each of its parts is, from the tree under the part's own name or index; a missing element, unlike a missing member, is fatal |
| DeserializerLaws.OutcomeExactly | util/ruminate-jansson/deserialize.c:230-274 | Without hooks, on every type and every tree, absent ones included: a value is built if and only if no void, union, function or typedef is reached, every array passes the allocator's assertion and has all its elements, and no struct is re-entered with nothing left to read; the recursion is endless if and only if such a struct is re-entered before anything else stops the walk |
| DeserializerLaws.IntegerNarrows | util/ruminate-jansson/deserialize.c:20-44 | Without hooks, any 64-bit integer read as an integer type builds the value of that type with the same low bytes |
| DeserializerLaws.EnumNarrows | util/ruminate-jansson/deserialize.c:142-149 | The same for an enum, whether or not the number is an enumerator |
| DeserializerLaws.HookDecides | util/ruminate-jansson/deserialize.c:238-243 | The hook of a type is asked for every tree, null and absent ones included, and its result is final |
| DeserializerLaws.PartHookDecides | util/ruminate-jansson/deserialize.c:67-140 | A member or element of hooked type is what its hook makes of the tree under its own key or index, or of none |
| DeserializerLaws.PointeeHookDecides | util/ruminate-jansson/deserialize.c:250-267 | An unhooked pointer reads null itself and leaves any other tree to the hook of its pointee |
| DeserializerLaws.EndlessExactly | util/ruminate-jansson/deserialize.c:95-132 | Without hooks, where nothing the walk can reach fails, in whatever order it is walked, the recursion is endless if and only if somewhere a struct is re-entered with nothing left to read, and otherwise builds a value |
| DeserializerLaws.AbsentReadsAsZero | util/ruminate-jansson/deserialize.c:20-56 | Without hooks, what is built from no tree is zero, false or null all the way down |
| DeserializerLaws.BuiltIsWellTyped | util/ruminate-jansson/deserialize.c:230-274 | Without hooks, on a table a C compiler produces, what is built is a value of the type, whatever the tree |
| DeserializerLaws.BuiltCollapsesExactly | util/ruminate-jansson/deserialize.c:250-267 | Without hooks, whatever the tree, a non-null pointer that is built heads a chain ending in NULL if and only if its type is a chain of pointers to an unknown type; all other built values are free of collapsing pointers |
| Termination.EndsExactly | util/ruminate-jansson/deserialize.c:245-273 | Without hooks, no call depth is enough if and only if the walk re-enters a struct with nothing left to read; otherwise some depth is, and every depth that is enough gives the specified result |
| Termination.ListNeverEnds | util/ruminate-jansson/deserialize.c:95-120 | Without hooks, `struct node { struct node *next; }` read from an empty object asks for its successor for ever |
| Termination.WrongKindReadsAsAbsent | util/ruminate-jansson/deserialize.c:15-56 | Without hooks, a tree in which nothing can be read as the type, behind any pointers, is read just as an absent one: as zeroes, as the same abort, or for ever |
| Termination.SuppliedEnds | util/ruminate-jansson/deserialize.c:95-132 | Without hooks, the recursion ends on every tree that supplies each member and element the walk looks up |
| EndToEnd.AcyclicExactly | util/ruminate-jansson/serialize.c:317-329 | A place in memory holds a finite value, over which the serializer's walk ends, if and only if it lies in a closed set of readable places with a rank that pointers decrease and parts do not increase |
| Images.BytesPrint | util/ruminate-jansson/serialize.c:13-36 | Without hooks, a builtin in memory prints as its bytes say: an integer as their two's complement, a bool by its one byte, a double as their pattern, or not at all if the exponent field is all ones |
| Images.BytesBuilt | util/ruminate-jansson/deserialize.c:15-65 | Without hooks, the bytes of a builtin that is built are the low bytes of the tree's number, or zero, or one for true; its block records the plain type of that width |
| Images.EnumBytesBuilt | util/ruminate-jansson/deserialize.c:142-149 | Without hooks, an enum's block has the low bytes of any number that was read |
| Images.NullBytes | util/ruminate-jansson/serialize.c:317-329 | A pointer in memory is NULL exactly if its eight bytes are zero |
| EndToEnd.IntegerImageSurvives | util/ruminate-jansson/serialize.c:19-26 | Any bytes of an integer type, signed or unsigned, survive the load as the signed type, the 64-bit JSON integer and the store |
| EndToEnd.ThroughJson | util/ruminate-jansson/serialize.c:287-345 | Over memory, through the two walks, with any plan of failing calls. If none fails, a fresh tree of blocks holds the collapsed value, there is one new block for the root and one per non-null pointer, nothing old changes, every store stayed in its block exactly if no enum met is narrower than eight bytes, and every handle is given back exactly if no enum is met. If printing fails, memory is as it was; if building fails, what was there is as it was and at most one block per non-null pointer is left. An enum-free trip that returns keeps no handle |
| EndToEnd.TopThroughJson | util/ruminate-jansson/serialize.c:351-381 | The same for the top-level calls, which wrap the tree with the type's name and take the first type of that name |
| EndToEnd.TopPrint | util/ruminate-jansson/serialize.c:351-381 | Over memory, for any object: without the invertable flag the result is that of the walk; unless a backend call fails, the call fails an assertion if and only if the walk reaches a void, union or function it may not skip or an enum that stores none of its enumerators (with unknowns skipped, only the latter), and a run that completes gives back every handle if and only if it meets no enum |
| EndToEnd.HeldAborts | util/ruminate-jansson/serialize.c:201-232 | Any value that a location in memory holds aborts exactly where `SerializerLaws.AbortsExactly` and, with unknowns skipped, `SkipModeTotal` say |
| EndToEnd.TopBuild | util/ruminate-jansson/deserialize.c:280-299 | Over memory: the first type of the tree's name is built from the tree's value, as specified, and failures leave what a build may leave; no name gives no block, an unknown name ends the process |
| EndToEnd.Reprint | util/ruminate-jansson/serialize.c:287-345 | Over memory: the built copy prints as the tree it was built from |
| EndToEnd.BlocksConserved | util/ruminate-jansson/deserialize.c:250-267 | A build leaves one new block for the root and one for each non-null pointer; each but the root is reached by exactly one pointer |
| EndToEnd.NarrowEnumSpills | util/ruminate-jansson/deserialize.c:142-149 | An enum of four bytes is stored with four bytes too many |
| EndToEnd.SpillsExactly | util/ruminate-jansson/deserialize.c:142-149 | Storing a value writes past no block if and only if it meets no enum narrower than eight bytes |
| Memory.HeldValueUnique | util/ruminate-jansson/serialize.c:287-345 | A location holds at most one value of a type, so equal values mean deep equality |
| Memory.Transfer | util/ruminate-jansson/deserialize.c:79-79 | Copying an object's bytes moves its value and what it reaches, as long as the blocks it reaches are unchanged |
| Build.BuildValue | util/ruminate-jansson/deserialize.c:230-274 | Where the recursion ends, with any plan of failing calls: without a failure it returns what the specification says, a tree of new blocks that hold the value, each reached once, with no temporary left and nothing old changed; with one it reports an error, changes nothing old and leaves no more than `Failures.MayLeave`, or ends the process where `MayWreck` says. A build that returns gives back every handle |
| Build.BuildStruct | util/ruminate-jansson/deserialize.c:95-140 | Every member is copied inside the block, none overwrites an earlier one, and each slot ends up with its own member's value; if a call fails the struct is freed, and what the members already copied point to is left as it was |
| Build.BuildArray | util/ruminate-jansson/deserialize.c:171-226 | The same for array elements, in a block of exactly the array's length times its size, as far as 64 bits go, which must pass the allocator's assertion; a failing call is an error at the first query and ends the process later |
| Codec.AllocatesExactly | util/ruminate-jansson/deserialize.c:174-181 | An array is allocated if and only if its size is at most the low eight bytes of its length times its size; so whenever that product fits, which is then the block's size |
| Codec.SizeProductBytes | src/memory.cpp:130-133 | A size product is what the low eight bytes of the true product hold |
| Codec.HugeArrayFails | util/ruminate-jansson/deserialize.c:174-181 | For 2^32 chars the product wraps around to zero, and the allocator's assertion fails |
| Build.BuildPart | util/ruminate-jansson/deserialize.c:67-93 | One member: a tree is built, its root's bytes are copied into the slot, and the root is released; a failed type or size query or a failed build leaves nothing but what that build leaves, and the type's handle is given back through each label |
| Build.BuildMember | util/ruminate-jansson/deserialize.c:104-126 | The loop body with its labels: the member's and the name's handle are given back whichever call fails |
| Build.BuildPointer | util/ruminate-jansson/deserialize.c:250-267 | JSON null gives a null pointer; any other tree gives a pointer to the pointee built from that tree, or null if the pointee gives no block. A failed pointee is not noticed and one more block is left; a failed allocation after it ends the process |
| Build.BuildEnum | util/ruminate-jansson/deserialize.c:142-149 | The eight-byte store leaves the narrowed value in the block; the rest is counted as spilled |
| Build.BuildBuiltin | util/ruminate-jansson/deserialize.c:15-65 | Each builtin's block holds the tree's value narrowed to the type, with zero for a tree of another kind |
| Failures.LeavesNoMore | util/ruminate-jansson/deserialize.c:67-140 | A build that reports an error leaves at most as many blocks as the value would have had non-null pointers, so one without pointers leaves nothing |
| Failures.PairLeaves | util/ruminate-jansson/deserialize.c:95-140 | A failed build of `struct { int *p; int q; }` leaves one block or none, and one of its pointer alone leaves one |
| Failures.FlatNeverWrecks | util/ruminate-jansson/deserialize.c:95-140 | Where the value has neither pointer nor array a failing call ends in an error, never in the end of the process |
| Print.PrintValue | util/ruminate-jansson/serialize.c:287-345 | Over memory, with any plan of failing calls: without a failure the result is the specification's and exactly `Leak` is kept; with one it is an error and no more than that is kept |
| Print.PrintStruct | util/ruminate-jansson/serialize.c:80-121 | The same account for the struct loop through every exit label |
| Print.PrintArray | util/ruminate-jansson/serialize.c:235-283 | The same account for the array loop through every exit label |
| Print.PrintMember | util/ruminate-jansson/serialize.c:42-78 | The same account for one member, and the key is set exactly if the member printed and its name was found |
| Print.SearchEnum | util/ruminate-jansson/serialize.c:123-212 | The search emits the stored value if and only if an enumerator equals it, and keeps one type reference per enumerator asked and two handles of the matching one |
| Print.TryEnumerator | util/ruminate-jansson/serialize.c:133-200 | The signed and the unsigned comparison both decide equality of the 64-bit values; on failure every handle is given back |
| EnumMember.UnsignedImage | src/enum_member.cpp:49-58 | The unsigned reading of a 64-bit value has the same bytes |
| Values.IntegerRanges | python/type_impl.py:28-60 | What a variable of each builtin integer type can hold, as the codec loads it |
| Values.FiniteByFields | util/ruminate-jansson/serialize.c:27-28 | A double is an infinity or not a number exactly if its exponent field is all ones (section 3.4 of IEEE 754) |
| EnumMember.Enumerator.EnsureValueInit | src/enum_member.cpp:29-69 | The value is stored once, in the signedness of the type; success keeps the type reference, failure stores nothing and keeps nothing |
| EnumMember.Enumerator.ValueSigned | src/enum_member.cpp:92-99 | The stored value, or a failed assertion exactly for an unsigned type |
| EnumMember.Enumerator.ValueUnsigned | src/enum_member.cpp:101-108 | The value as `uintmax_t`, or a failed assertion exactly for a signed type |
| Print.KeepsNothingExactly | util/ruminate-jansson/serialize.c:80-121 | A walk that meets no enum keeps no handle, and one that completes past an enum always keeps some |
| Print.EnumKeepsExactly | util/ruminate-jansson/serialize.c:123-212 | A stored enumerator keeps the enum's type once for each enumerator before it, and three handles for itself |
| Print.MatchKeepsThree | util/ruminate-jansson/serialize.c:133-200 | An enum whose first enumerator is the stored value keeps the enumerator and its type twice |
| Session.Client.MemberByName | src/aggregate_type.cpp:138-172 | The first member of the name is returned with its handle as the only one kept; failures and unknown names keep nothing |
| Types.ArrayMembers | python/type_impl.py:125-141 | The running offset gives element i the offset i * element size |
| Types.ArrayTiles | python/type_impl.py:128-141 | The elements tile the array without gap or overlap |
| Allocator.Heap.MallocSized | src/memory.cpp:83-96 | A new block with one reference and undefined contents; an error and no block if the size query fails; or a failed assertion exactly if the size is smaller than the type's |
| Allocator.Heap.CallocSized | src/memory.cpp:130-137 | The size product wraps around at 64 bits and the whole block is zero |
| Allocator.Heap.Unref | src/memory.cpp:30-35 | The block goes exactly with its last reference |
| Ownership.RunsStayCounted | src/type.cpp:226-245 | After any allowed sequence of calls every live object's count is the number of slots that point at it plus the references the client holds, no slot or handle dangles, and an object is live exactly as long as it has an owner |
| Ownership.RunsBalance | src/type_member.cpp:131-160 | After any allowed sequence of calls, what the client holds and what it gave back add up to what it held before and was handed |
| Ownership.BalancedExactly | src/type.cpp:96-121 | A run from the empty state leaves no object behind if and only if the client gave back just the references it was handed |
| Ownership.NextHandles | src/type_member.cpp:131-160 | Each call changes the client's references by exactly the one it returns, or takes back, and by none if a backend call fails; in particular the cascade of an unref gives back all the dead objects owned |
| Ownership.Next | src/type_member.cpp:131-160 | Every call keeps the counts, links and ids right, backend failures included |
| Ownership.NamedTypeComesAndGoes | src/type.cpp:226-245 | A client that makes a type, asks for its name and gives both back leaves nothing |
| Ownership.CallsMake | src/memory.cpp:19-28 | New strings, types, members and blocks hold what the caller passed, one reference, and nothing else changes |
| Ownership.FirstName | src/type.cpp:226-235 | The first name asked for is the backend's answer, in a new string that the slot and the client own; a failed call changes nothing |
| Ownership.FirstType | src/type_member.cpp:131-140 | The same for the first type of a member |
| Ownership.LaterAnswers | src/type.cpp:226-235 | A later call raises the count of what the slot holds and changes nothing else, whatever the backend would say |
| Ownership.NothingLeaks | src/type.cpp:96-121 | No object is left if and only if the client holds no reference |
| Ownership.CachesNeverChange | src/type.cpp:226-235 | Along any run an object never changes but for its count and empty slots: a filled cache stays, the dead stay dead, and every block has a type |
| Introspection.Library.StringUnref | src/string.cpp:41-48 | One client reference goes, and with the last owner the string |
| Introspection.Library.TypeUnref | src/type.cpp:96-121 | One client reference and no other goes; the last owner takes the type, and the reference to its name is given back |
| Introspection.Library.MemberUnref | src/type_member.cpp:59-70 | The same for a member, whose references to its name and then its type are given back |
| Introspection.Library.MemoryUnref | src/memory.cpp:30-35 | The same for a block, whose reference to its type is given back |
| Introspection.Library.NameOf | src/type.cpp:226-235 | The first call caches the backend's name in a string with two owners, later calls add one to the cached string; the client gains just the reference returned, and a failed call changes nothing |
| Introspection.Library.TypeOf | src/type_member.cpp:131-140 | The same for the type of a member |
| Introspection.Library.MallocSized | src/memory.cpp:19-28 | A new block owns one more reference to its type |
| Introspection.Library.MemoryType | src/memory.cpp:152-154 | The block's type gains an owner |
| Handshake.StopSafety | python/stopped_thread.py:31-44 | In every interleaving, over any number of requests, the body runs only while the process is stopped at the breakpoint by the client being served, each callback fires at most once, and each stop is answered by exactly one Continue |
| Handshake.EachBodyRunsOnce | python/stopped_thread.py:31-44 | In every interleaving the bodies entered are those of requests 1, 2, .. in order, once each, and no request is replied to, and no later one begun, before its body has run |
| Handshake.RequestsFinish | python/lldb_em.py:64-73 | From every reachable state a run without a new request is bounded by the measure, and where it can go no further the client is idle if and only if no stop was missed; either way no event is left and the process is not left stopped |
| Handshake.RequestCanFinish | python/stopped_thread.py:31-44 | A request whose callback is registered before the hit can run to its end |
| Handshake.MissedExactly | python/lldb_em.py:64-73 | A stop is missed exactly when `onEvent` tests the list before the request's callback is in it |
| Handshake.MissedForEver | python/lldb_em.py:70-73 | After a missed stop the client never finishes, whatever any thread does |
| Handshake.StopCanBeLost | python/lldb_em.py:64-73 | The race is reachable: the client hits the breakpoint and the event is tested before the server has accepted the request |
| Handshake.MovesDescend | python/lldb_em.py:52-73 | Every step but the beginning of a request makes the measure smaller |
| Handshake.NotStuck | python/stopped_thread.py:31-44 | While a request that was not missed is under way, some thread can move |
| Port.ReadChildPort | src/ruminate.cpp:88-116 | For any bytes written, any splitting and any failing reads: the port is made of the first four bytes in order and no more are consumed, a failing read is the only error, a short read is an empty pipe, and the read that leaves the loop is the first that can |
| Port.EndsExactly | src/ruminate.cpp:93-112 | Followed for four or more reads, the loop is still running if and only if one to three bytes were written and no read failed |
| Port.OneByteNeverEnds | src/ruminate.cpp:93-112 | One byte is read for ever |

## Left out

- Hooks over memory: `Print` and `Build` run without hooks; hooks act on values in `Serializer` and `Deserializer`, where a continuation is only called on the hook's own arguments.
- Print.PrintValue: no hooks are registered, for that reason.
- EndToEnd.ThroughJson: likewise.
- EndToEnd.Reprint: likewise.
- Build.BuildValue: is called without hooks, and only where the recursion ends; where it does not (`DeserializerLaws.OutcomeExactly`, `Termination.EndsExactly`) the C code runs out of stack.
- EndToEnd.TopThroughJson: likewise without hooks.
- EndToEnd.TopPrint: likewise.
- EndToEnd.TopBuild: likewise, and only where the recursion ends.
- Build.BuildArray: after a failing call the source's cleanup hands a block that is not JSON to `json_decref`; here the process ends.
- Failures.LeavesNoMore: is a bound on what a failed build leaves; that each count in `MayLeave` occurs for some plan of failing calls is not proved.
- Ownership.RunsStayCounted: counts are unbounded; the source's wrap around after 2^32 references to one object.
- The queries of `r_mem_malloc` count as one call that may fail, and the size of a type whose block was allocated is known from then on.
- Out-of-memory: allocation always succeeds, and block ids are not reused.
- Unchecked backend calls in the codec (`r_type_name`, `r_pointer_type_pointee`, `r_typedef_type_canonical`) always succeed; the source dereferences NULL otherwise. So does `r_type_new` inside `r_type_member_type`.
- Enums of type bool, double or void: C gives enums integer types, and the backend's signedness table has no entry for bool.
- Bitfields, overlapping members and duplicate member names: `Types.WellLaid` excludes them over memory; unions are opaque bytes.
- References kept by `_r_mem_malloc_sized`, `_r_mem_calloc_sized` and, in `Ownership`, by `ensure_value_init`; `Print` counts the latter as kept handles.
- The handshake's threads are transitions of one state and not methods, because their steps interleave; shutdown, crash, unrelated stops and several client threads are not part of it.
- `Introspection.Library` takes an object out of the store before it releases what the object's slots own, where the source frees it afterwards.
- JSON text, jansson's own counts, the order of object keys, and Unicode in keys and names.
- The quark and size caches, which own nothing; frames, function types' return types, Ice, LLDB and process spawning.
