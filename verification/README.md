# goffi: a verified model of the call marshaller and the re-exec bridge

goffi lets Go call C without cgo. Two of its parts are easy to get wrong and hard to test, and this
project models both and proves what they promise.

**The marshaller.** `Execute` turns typed arguments into integer registers, float registers and stack
words; `callbackWrap` is a separately written decoder of the same frame; `PrepareCallInterface` predicts
the use of both through a third set of classification functions; the return path turns result registers
back into memory. On arm64 a counting pass must agree with a bit-packing pass. Struct layout is computed
by two different passes into shared descriptors.

**The re-exec bridge.** A universal binary runs, before the Go runtime starts, a protocol between
processes (guard, probe, host loader, memfd image, pid-tagged environment records) written on raw
buffers: a bump allocator, NUL-delimited scanners, decimal printing and parsing, pointer arrays, an ELF
header patch and short-read/short-write loops.

Modules, bottom up:

| files | what they hold |
|---|---|
| `Bits`, `Words` | bit operations on naturals, bytes and 64-bit words; `WordBits` ties them to machine arithmetic |
| `Types`, `Layout`, `LayoutHeap`, `LayoutUses` | descriptors, struct layout, the two layout passes over heap objects, what the marshallers take from them |
| `Placement` | where argument words go, and how a frame is read back; shared by both architectures |
| `Amd64Classify`, `Amd64Args`, `Amd64Prepare`, `Amd64Slots`, `Amd64Call`, `Amd64Callback`, `Amd64Agree`, `Amd64RoundTrip`, `Amd64Return`, `Amd64Nested` | the amd64 directions and how they fit; `Amd64Slots` says by counting where a callee finds every word |
| `Arm64Regs`, `Arm64Pack`, `Arm64Place`, `Arm64Count`, `Arm64Lossless`, `Arm64Struct`, `Arm64Mixed` | struct packing on arm64 |
| `Arm64Hfa`, `Arm64Return`, `Arm64Args`, `Arm64Slots`, `Arm64Call`, `Arm64Scalars`, `Arm64Callback` | homogeneous float aggregates, calls, returns and callbacks on arm64; `Arm64Slots` says where a callee finds every argument |
| `BridgeText`, `Staging`, `Tags`, `EnvBlock`, `EnvSight`, `EnvRebuild`, `EnvArrays`, `EnvLaunch`, `BridgePaths`, `Reexec` | the bridge's buffer code against byte-string specifications; `EnvSight` says how much of an environment the 256 KiB read shows |
| `Elf`, `ElfCopy` | the program header edit and the file loops |
| `Protocol` | processes, events and runs of the bridge |
| `ProtocolSafety`, `ProtocolRoomy`, `ProtocolRecords`, `ProtocolOrderly` | what every run keeps; what runs with readable environments keep; when recorded paths are right |
| `ProtocolRuns` | runs that show the conditions to be needed |
| `SelfInfo` | `ffi.Executable` on what the bridge recorded |

Code that works in place is modelled in place: classes with fields, arrays, `while` loops with
invariants, each proved against a specification function; the properties are lemmas about those
functions. `dafny verify dfyconfig.toml` checks everything.

A word is its eight bytes. A descriptor or argument is taken with the memory it points at. Pointers,
files, readlink answers, file existence, fork and exec results are parameters or nondeterministic
choices; in the protocol readlink may fail, and the names it gives for a program's file and for a loader are
free. What stands in memory behind a buffer is a parameter too. On arm64 the three fixed-size register files are sequence fields that keep their length.

## What was found

Where code and comment disagree, or a property fails, the model follows the code.

- amd64 `Execute` never returns its stack-limit error: a tenth stack word already panics on the array
  index (`Amd64Call.Execute`). On arm64 the same check is unreachable because excess words are dropped
  silently (`Arm64Call.Execute`).
- The two amd64 sides disagree on exactly one family of structs: at most eight bytes, nothing but floats,
  with a nested struct (`Amd64Agree.ClassesAgreeIff`). The call passes them as INTEGER, the callback reads
  them as SSE. As the only argument such a struct is read as zeros
  (`Amd64RoundTrip.ConfusedAloneReadsZeros`); among others it may pick up another argument's word, and it
  survives where both register files are full. A list of values is always read back exactly when every
  such struct is reached in that state and no parameter is a float32 (`Amd64RoundTrip.ListSurvivesIff`).
- `PrepareCallInterface` does not count the hidden result pointer: fifteen pointer arguments are accepted,
  and panic when the callee returns a 24-byte struct (`Amd64Prepare.HiddenPointerIsNotPredicted`).
- amd64 structs of at most eight bytes are always taken from RAX, so they come back right exactly when
  their eightbyte is not SSE (`Amd64Return.SmallStructIff`); an arm64 struct of one float is taken from X0
  (`Arm64Return.SingleElementComesFromX0`).
- An amd64 struct of two eightbytes may come apart, one in a register and one on the stack, where the ABI wants
  all of it in memory; `Amd64Slots.SplitIff` says exactly when.
- On arm64 a struct that is no HFA should be passed as its memory image in integer registers. The packer puts
  a word that holds floats only into a float register, so a flat struct gets the ABI's form exactly when every
  float member has an integer member in its eightbyte (`Arm64Mixed.MemoryImageIff`); a float in front of a
  64-bit integer does not (`Arm64Mixed.FloatBeforeLong`).
- An arm64 HFA that does not find its registers is cut into 4-byte units. The comment says that all of it goes
  to the stack, but some units still go to float registers exactly when one is left
  (`Arm64Slots.OverflowSplitsIff`).
- Both architectures store a whole register for a struct of less than eight bytes, so a result buffer of
  the struct's size is overrun; from eight bytes on nothing is stored past the size
  (`Amd64Return.StoresWithinIff`, `Arm64Return.StoresWithinIff`).
- amd64 looks at direct members only. A 9 to 16 byte struct comes back from every conforming callee exactly
  when these give the classes its leaves do (`Amd64Nested.NestedComesBackIff`); a struct around a pair of
  doubles does not (`Amd64Nested.NestedPairIsLost`).
- The preparation applies the amd64 limits on arm64 too, so an accepted list can still lose arguments:
  exactly when it has fewer than eight integer and more than fifteen float arguments
  (`Arm64Scalars.AcceptedNothingDroppedIff`).
- An empty struct member makes `initializeCompositeType` forget the members before it; the two layout
  passes agree on exactly the complete trees (`Layout.EmptyMemberResets`, `Layout.PassesAgreeIff`).
- Strip-then-restore is the identity exactly when no earlier PT_NULL entry points at a slash
  (`Elf.StripThenRestore`).
- The bridge reads 256 KiB of its environment, and its records come last. When a launch's own entries fill
  the buffer, a probe child does not see its variable and runs the program while its forker waits
  (`ProtocolRuns.CutProbeEscapes`), and a re-execed process does not see its guard, so that only readlink
  keeps it from a second re-exec (`ProtocolRuns.ReexecTwice`). The exact conditions are
  `ProtocolSafety.BridgeIsSafe`, `ProtocolSafety.ReexecAgainIff` and `ProtocolSafety.ProbesStop`; below 253888
  bytes per environment neither happens (`ProtocolRoomy.RoomyRunsAreSafe`).
- A probe child whose waiting forker is killed is reparented, no longer recognises its probe variable and
  runs the program (`ProtocolRuns.OrphanedProbeEscapes`).
- The memfd descriptor is inherited by everything below, so one program can start the image of another;
  the bridge of that image then records the starter's file as its own (`ProtocolRuns.ImageOfAnother`). A
  program started by hand through a loader that resolves to a name like `ld-2.31.so` is not recognised and
  records the loader (`ProtocolRuns.UnrecognisedLoader`, `ProtocolRuns.OldGlibcLoader`). A program whose file
  is unlinked, replaced or renamed before its bridge asks for it records the name readlink then gives, for
  an unlinked one a name ending in ` (deleted)` that no file has (`ProtocolRuns.RenamedProgram`,
  `ProtocolRuns.DeletedIsPlain`). While environments can be read whole, these three are the only ways to a
  wrong record (`ProtocolRecords.RecordsRightIff`).
- `ffi.Executable` takes a copy started by hand through the loader to run its parent's image and tells it the
  parent's file, whatever program the copy is (`SelfInfo.HandStartedCopy`).
- The command line is read into 256 KiB too. The program gets its arguments, whatever stands behind that
  buffer, exactly when there are none or they are within those bytes and the pointer array
  (`EnvLaunch.ArgsArriveIff`); three arguments of 90000 bytes are not (`EnvLaunch.LongCommandLine`).
- A tag is read modulo 2^64, so a tag that is not a pid can pass for one (`Tags.TagIsModulo`); the bridge
  itself never writes such a tag.
- When the environment has 4092 own entries and the executable was recorded, argv[0] is not
  (`EnvRebuild.FullArrayLosesArgv0`); otherwise it is whenever it fits (`EnvRebuild.RecordsFound`).

## Model

| member | source | states |
|---|---|---|
| Bits.AlignMaskIsAlignUp | ffi/cif.go:181-183 | on a power of two the mask form of `align` is the least multiple not below its argument |
| Bits.AlignUpIsLeast | internal/arch/arm64/classification.go:24-29 | no multiple lies between a value and its aligned value |
| WordBits.OrIsBitOr | internal/arch/arm64/call_arm64.go:93-94 | the byte-wise or of two words is the machine's `or` on the numbers they denote |
| WordBits.ShlIsShift | internal/arch/arm64/call_arm64.go:101-118 | the byte shift is multiplication by a power of two truncated to 64 bits |
| Types.OffsetAtIsOffset | internal/arch/amd64/classification.go:84-105 | the offsets `classifyEightbyte` revisits are those of the layout passes |
| Layout.PassesAgreeIff | ffi/cif.go:116-165 | the two layout passes compute the same tree exactly when no undeclared struct is empty and no alignment is missing or declared otherwise |
| Layout.EmptyMemberResets | ffi/cif.go:149-163 | a concrete struct with an empty member on which the passes differ |
| Layout.OffsetIsLeast | internal/arch/arm64/classification.go:54-67 | each offset is the least multiple of the member's alignment not below the end of its predecessor |
| Layout.MembersAreDisjoint | ffi/cif.go:144-160 | members never overlap |
| Layout.LayIsSized | internal/arch/arm64/classification.go:69-76 | a laid out struct is power-of-two aligned and its size is the least multiple of its alignment holding all members |
| LayoutHeap.InitializeCompositeType | ffi/cif.go:116-165 | over shared descriptors the whole tree below a struct is laid out and nothing laid out before is disturbed; anything but a struct is an error |
| LayoutHeap.EnsureStructLayout | internal/arch/arm64/classification.go:31-77 | the same for the pass that fills in only what is missing, whatever was laid out or declared before |
| LayoutHeap.SettledView | internal/arch/arm64/classification.go:31-77 | the fields of a laid out tree spell out the layout of its shape |
| LayoutHeap.LayOutBoth | ffi/cif.go:116-165 | on two copies of a complete tree both passes leave the same size, alignment and tree |
| LayoutHeap.EnsureAfterPrepare | internal/arch/arm64/classification.go:31-77 | on the objects of a complete tree that the first pass laid out, the second changes nothing |
| LayoutHeap.PrepareThenEnsure | ffi/cif.go:116-165 | both passes in the order they run in leave one layout, which is the layout of the shape |
| LayoutUses.LayIsLaidOut | internal/arch/arm64/classification.go:31-77 | the layout of a natural tree has the form the HFA rules on arm64 rely on |
| LayoutUses.LayIsConsistent | internal/arch/arm64/classification.go:31-77 | in the layout of a natural tree every member starts inside its struct, as the amd64 prediction relies on |
| LayoutUses.AlignmentsAreSupplied | internal/arch/arm64/classification.go:31-77 | a tree whose scalars leave out their alignments gets the same layout as the tree that writes them out |
| Placement.PlaceConserves | internal/arch/amd64/call_unix.go:37-196 | every argument word lands in exactly one register or stack slot |
| Placement.PlaceGrows | internal/arch/amd64/call_unix.go:82-196 | placing later arguments moves no earlier word |
| Placement.FrameHolds | ffi/callback.go:193-221 | the word placed i-th is found in the slot the decoder's three cursors name |
| Amd64Classify.ClassifyEightbyte | internal/arch/amd64/classification.go:84-105 | the early-exit loop says SSE exactly when some member starts in the range and all that do are floats |
| Amd64Call.Execute | internal/arch/amd64/call_unix.go:37-201 | the address of a result above 16 bytes is in the first integer register; behind it every word of every argument, a scalar zero-extended and a struct eight bytes at a time, is in the register or stack slot that counting the words before it by class gives; the call panics exactly when more than 9 words spill |
| Amd64Slots.FrameArrives | internal/arch/amd64/call_unix.go:77-196 | what `Execute` says of the arrays holds of any frame that holds the words of a call |
| Amd64Slots.SplitIff | internal/arch/amd64/call_unix.go:130-166 | a struct of two eightbytes is split between a register and the stack exactly if just one of its words finds a register |
| Amd64Return.ArgumentClassIsAbi | internal/arch/amd64/classification.go:69-105 | the words of a flat natural struct up to 16 bytes have the classes the ABI gives its eightbytes |
| Amd64Callback.Reader.CallbackArgs | ffi/callback.go:189-353 | the decoder returns the value each parameter has in the frame and panics exactly when the frame is too short |
| Amd64Callback.ClassifyEightbyte | ffi/callback.go:417-431 | the reflect-side loop classifies by field offsets as the call side does by recomputed ones |
| Amd64Agree.ClassesAgreeIff | ffi/callback.go:394-431 | descriptor-side and reflect-side classification assign the same words to a type exactly when it is not a small nested all-float struct |
| Amd64RoundTrip.CursorsAgree | ffi/callback.go:193-221 | both sides stand at the same cursors after every argument |
| Amd64RoundTrip.DecodeOne | ffi/callback.go:189-353 | behind parameters that survive, a parameter is read as its bytes, and a float32 as the narrowing of the float64 whose low half it is |
| Amd64RoundTrip.RoundTrip | internal/arch/amd64/call_unix.go:37-196 | decoding what `Execute` laid out gives back every argument's bytes, in any mix, order and struct size that fits, if no parameter is a float32 and every small nested all-float struct is reached with both register files full |
| Amd64RoundTrip.ListSurvivesIff | ffi/callback.go:189-353 | that condition is exact: all values of a parameter list that fits come back if and only if it holds |
| Amd64RoundTrip.CallThroughCallback | ffi/callback.go:173-353 | the same end to end through both imperative sides, with the exact condition for a panic |
| Amd64RoundTrip.ConfusedAloneReadsZeros | ffi/callback.go:394-410 | as the only argument, a small nested all-float struct is read back as zeros |
| Amd64Prepare.PreparePlatformSpecific | ffi/cif.go:74-113 | the preparation accepts exactly when the predicted overflow is at most nine words |
| Amd64Prepare.PredictionMatches | internal/arch/amd64/classification.go:108-138 | per argument the predicted counts are the numbers of words `Execute` places by class |
| Amd64Prepare.StackWordsNeeded | internal/arch/amd64/call_unix.go:44-191 | the exact number of stack words a call needs, including what the preparation does not count |
| Amd64Prepare.PreparedIffPlaceable | ffi/cif.go:81-105 | without a hidden pointer and MEMORY structs, prediction and need are equal: accepted means placeable |
| Amd64Prepare.HiddenPointerIsNotPredicted | ffi/cif.go:85-105 | an accepted interface that panics because of the hidden pointer |
| Amd64Return.HandleReturn | internal/arch/amd64/implementation.go:45-132 | what is stored for each type and flag and nothing beyond it; of a void result or a struct above 16 bytes nothing |
| Amd64Return.ReturnScalar | internal/arch/amd64/implementation.go:69-87 | classification then `handleReturn` leaves exactly a scalar's bytes, floats and doubles taken from XMM0, all others from RAX, and touches nothing behind them |
| Amd64Return.UnsupportedIff | internal/arch/amd64/implementation.go:127-129 | the unsupported results are those of kind int that claim at most eight bytes |
| Amd64Return.HiddenPointerIff | internal/arch/amd64/call_unix.go:77-80 | the call passes a hidden pointer exactly for the structs whose classification says so, and for exactly these nothing is stored |
| Amd64Return.StoresWithinIff | internal/arch/amd64/implementation.go:98-126 | what is stored of a struct stays within its size exactly if that is at least eight |
| Amd64Return.ClassifiesAsAbi | internal/arch/amd64/classification.go:84-105 | looking at where members start is looking at where they have bytes, the ABI's rule |
| Amd64Return.ReturnReconstructs | internal/arch/amd64/classification.go:43-56 | for every flat struct of 9 to 16 bytes, what a conforming callee left in the next free registers is stored as the struct's bytes |
| Amd64Return.ReturnStruct | internal/arch/amd64/implementation.go:98-126 | the same for the buffer: it starts with the struct and is untouched past its size |
| Amd64Return.SmallStructIff | internal/arch/amd64/implementation.go:99-102 | structs of at most 8 bytes come back exactly when their eightbyte is not SSE |
| Amd64Nested.NestedComesBackIff | internal/arch/amd64/classification.go:43-105 | for every 9 to 16 byte struct, nested or not: every conforming callee's result is stored as the struct's bytes exactly if direct members give each eightbyte the class its leaves do |
| Amd64Nested.FlatIsDirect | internal/arch/amd64/classification.go:84-105 | flat structs of natural members always meet that condition |
| Amd64Nested.NestedPairIsLost | internal/arch/amd64/classification.go:84-105 | a struct around a pair of doubles does not |
| Arm64Regs.RegFile.AddInt | internal/arch/arm64/call_arm64.go:170-182 | X0-X7 first, then seven stack slots; false exactly when the word finds no place |
| Arm64Place.PlaceStructRegisters | internal/arch/arm64/call_arm64.go:22-148 | true exactly when every leaf is supported and every word fits; then the allocator holds precisely the packed words |
| Arm64Count.CountStructRegUsage | internal/arch/arm64/classification.go:172-262 | the mutating walk returns the pair of the counting machine over the flattened leaves |
| Arm64Lossless.CountEqualsPlace | internal/arch/arm64/classification.go:172-262 | for naturally aligned leaves the pair is the number of integer and of float words the placer emits |
| Arm64Lossless.CountCoversPlace | internal/arch/arm64/classification.go:172-262 | whatever the alignments, the pair is never less than the words the placer emits |
| Arm64Lossless.PackingIsLossless | internal/arch/arm64/call_arm64.go:61-136 | from the shape alone, the word and bit of every leaf are known and hold its bytes |
| Arm64Struct.CountEqualsPlaceOf | internal/arch/arm64/classification.go:172-262 | count equals place for every naturally aligned descriptor tree |
| Arm64Struct.StructIsRecovered | internal/arch/arm64/call_arm64.go:61-147 | replaying a descriptor tree over its words recovers every leaf value |
| Arm64Struct.AdmittedStaysInRegisters | internal/arch/arm64/call_arm64.go:286-298 | a struct of fixed-width leaves that passes the fit test is neither refused nor spilled, whatever its alignments |
| Arm64Struct.IntegersPackAsImage | internal/arch/arm64/call_arm64.go:61-136 | integer leaves pack to their memory image with padding zeroed, all in integer registers |
| Arm64Struct.FlatIntegersPackAsMemory | internal/arch/arm64/call_arm64.go:61-136 | byte b of word k of a flat integer struct is byte 8k+b of the value, or zero in padding |
| Arm64Mixed.IntegerWordsIff | internal/arch/arm64/call_arm64.go:22-148 | the words of a struct all go to integer registers exactly if no eightbyte of its image holds floats only |
| Arm64Mixed.MemoryImageIff | internal/arch/arm64/classification.go:147-164 | a flat struct reaches the callee as its memory image in integer registers exactly if every float member has an integer member in its eightbyte |
| Arm64Mixed.FloatBeforeLong | internal/arch/arm64/classification.go:159-162 | a float in front of a 64-bit integer does not |
| Arm64Hfa.IsHomogeneousFloatAggregate | internal/arch/arm64/classification.go:266-309 | the stateful early-exit walk says yes with (n, kind) exactly when no struct node is empty and the leaves are 1 to 4 of one float kind |
| Arm64Hfa.HfaUsesFloatRegisters | internal/arch/arm64/classification.go:172-262 | an HFA of n elements counts as (0, n) at any nesting depth and alignment |
| Arm64Hfa.HfaPacks | internal/arch/arm64/call_arm64.go:92-105 | an HFA is packed one element to a word, in order |
| Arm64Hfa.ElementBytes | internal/arch/arm64/implementation.go:133-149 | a laid out HFA has no padding: element i is the i-th slice of memory |
| Arm64Return.ClassifyReturn | internal/arch/arm64/classification.go:84-131 | flags by element count and kind for HFAs, by size for everything else |
| Arm64Return.HandleHfaReturn | internal/arch/arm64/implementation.go:111-150 | element i goes to i times the element size and nothing past the last one |
| Arm64Return.ReturnHfa | internal/arch/arm64/implementation.go:61-64 | classification then `handleReturn` rebuilds every HFA of 2 to 4 elements, nested or not, and touches nothing beyond |
| Arm64Return.SingleElementComesFromX0 | internal/arch/arm64/implementation.go:87-89 | a struct of a single float is taken from X0 |
| Arm64Return.StoresWithinIff | internal/arch/arm64/implementation.go:61-95 | what is stored of a laid out struct stays within its size exactly if that is at least eight |
| Arm64Return.ReturnInRegisters | internal/arch/arm64/implementation.go:66-98 | classification then `handleReturn` gives back every scalar, and every struct of 8 to 16 bytes that is no HFA, from where a conforming callee left it, and touches nothing beyond |
| Arm64Return.SmallStructPrefix | internal/arch/arm64/implementation.go:87-89 | a smaller struct comes back with what is left of X0 behind it |
| Arm64Return.LeftToCalleeIff | internal/arch/arm64/classification.go:117-130 | nothing is stored exactly of void results and of those whose flags make the call pass the buffer in X8: structs above 16 bytes that are no HFA, and scalars that claim more than eight |
| Arm64Return.ReturnThroughPointer | internal/arch/arm64/implementation.go:54-59 | such a struct stays as the callee wrote it |
| Arm64Return.UnsupportedIff | internal/arch/arm64/implementation.go:99-104 | the unsupported results are those of kind int that claim at most eight bytes |
| Arm64Call.Execute | internal/arch/arm64/call_arm64.go:150-312 | every argument is in the register or stack word its predecessors leave it: scalars sign- or zero-extended to 64 bits, HFAs one element to a register or 4-byte units and the address as last resort, other structs up to 16 bytes packed, the rest by address; words without a place are dropped, from the Apple boundary on no register is taken; X8 has the buffer exactly for results by pointer; the limit error is unreachable |
| Arm64Slots.RegistersHoldAll | internal/arch/arm64/call_arm64.go:170-302 | what `Execute` says of the register files follows from the placement of the words alone |
| Arm64Slots.SignLoadIsValue | internal/arch/arm64/call_arm64.go:231-240 | the sign-extended word denotes the value of the bytes in 64-bit two's complement |
| Arm64Slots.OverflowSplitsIff | internal/arch/arm64/call_arm64.go:273-291 | an HFA without its registers is passed in 4-byte units, some of them in float registers exactly if one is left |
| Arm64Args.AdmittedFits | internal/arch/arm64/call_arm64.go:256-298 | whatever passes either fit test is placed completely |
| Arm64Scalars.NothingDroppedIff | internal/arch/arm64/call_arm64.go:170-195 | scalars are placed one word each, in order and all of them, exactly when they fit |
| Arm64Scalars.PreparePlatformSpecific | ffi/cif.go:81-105 | acceptance on arm64, with the amd64 limits the code uses |
| Arm64Scalars.AcceptedNothingDroppedIff | ffi/cif.go:81-105 | of an accepted scalar list nothing is dropped exactly when g >= 8 or s <= 15 |
| Arm64Scalars.CountedIsTaken | internal/arch/arm64/classification.go:138-170 | what the preparation counts for an argument, scalar or struct, is what `Execute` takes while there are as many registers |
| Arm64Scalars.CountedInRegisters | ffi/cif.go:81-105 | a list of scalars and structs counted within the registers is passed in them: nothing on the stack, no small struct by reference |
| Arm64Scalars.VariadicOnStack | internal/arch/arm64/call_arm64.go:212-222 | on darwin everything from the fixed count on, structs included, takes consecutive stack slots after the fixed spills and no register |
| Arm64Scalars.VariadicScalars | internal/arch/arm64/call_arm64.go:212-246 | those slots hold the variadic scalars' words in order, while they fit |
| Arm64Callback.Reader.CallbackArgs | ffi/callback_arm64.go:142-225 | the decoder reads each scalar from the slot its cursors name and panics exactly when the frame is too short |
| Arm64Callback.ScalarRoundTrip | ffi/callback_arm64.go:142-225 | every scalar list that fits is read back, sign extension included, a float32 as the narrowing of the float64 whose low half it is |
| Arm64Callback.CallThroughCallback | internal/arch/arm64/call_arm64.go:150-246 | the same end to end through both imperative sides |
| BridgeText.PrintDecimal | internal/fakecgo/reexec_universal_linux.go:180-189 | backward digit printing into twenty bytes is exact for every 64-bit number |
| BridgeText.DecimalValue | internal/fakecgo/reexec_universal_linux.go:375-389 | the digits denote the number printed |
| Staging.Buffer.Cstr | internal/fakecgo/reexec_universal_linux.go:157-169 | nil exactly when string and NUL do not fit, and then nothing changed; else one more string after all earlier ones |
| Staging.Buffer.TaggedEnv | internal/fakecgo/reexec_universal_linux.go:176-219 | the record of the value for the pid, even when the value is itself in the buffer; nil exactly for a nil value or lack of room |
| Staging.Buffer.ProcFdPath | internal/fakecgo/reexec_universal_linux.go:375-405 | the descriptor's path, or nil and nothing changed |
| Staging.Buffer.StagedText | internal/fakecgo/reexec_universal_linux.go:157-219 | every string ever staged is still there, NUL-terminated, however much was staged later |
| Staging.RegionsAreDisjoint | internal/fakecgo/reexec_universal_linux.go:157-219 | no two staged strings share a byte |
| Tags.MatchAt | internal/fakecgo/reexec_universal_linux.go:264-274 | true exactly when the block continues with the key |
| Tags.TaggedAt | internal/fakecgo/reexec_universal_linux.go:280-300 | where the value of the key's record for the pid starts, with the accumulator's wrap-around |
| Tags.TagGrammar | internal/fakecgo/reexec_universal_linux.go:276-300 | a record for a pid is exactly the key, one digit or more that denote the pid modulo 2^64, a colon and any value |
| Tags.FoundByItsPid | internal/fakecgo/reexec_universal_linux.go:280-300 | a record is found by exactly the pid it was written for, whatever follows |
| Tags.TagInEntry | internal/fakecgo/reexec_universal_linux.go:264-300 | a key is never matched across an entry boundary |
| Tags.TagIsModulo | internal/fakecgo/reexec_universal_linux.go:285-299 | whatever its tag, a record is found by exactly the number the tag denotes modulo 2^64 |
| Tags.ReadBack | ffi/selfinfo.go:98-112 | the ffi reader returns the recorded value, colons included, exactly for a non-empty value and the right pid that fits a Go int |
| Tags.ParsersAgree | ffi/selfinfo.go:98-112 | the bridge's parser and the ffi reader accept the same records |
| EnvBlock.ScanTags | internal/fakecgo/reexec_universal_linux.go:644-662 | guard, probe and parent record are found exactly when an entry is such a record; the last parent record wins, and its value is the C string that starts there, even if it runs on behind the buffer |
| EnvSight.EntriesOfRead | internal/fakecgo/reexec_universal_linux.go:623-662 | scanning what one read of an environment delivers shows its entries up to 262144 bytes, the last perhaps cut |
| EnvSight.StringsOfRead | internal/fakecgo/reexec_universal_linux.go:789-801 | the pointers into the buffer stand for the entries seen, a cut one with whatever memory follows |
| EnvSight.RecordSeenIff | internal/fakecgo/reexec_universal_linux.go:276-300 | the only record of its key is found exactly if the bytes before it, its key, pid and colon are within those read |
| EnvBlock.EntriesOfJoin | internal/fakecgo/reexec_universal_linux.go:648-662 | scanning the block made of a list of strings gives the list back |
| EnvRebuild.OwnVariablesSurvive | internal/fakecgo/reexec_universal_linux.go:789-830 | the program's own variables pass through in order up to the cap, with at most three bridge variables added |
| EnvRebuild.RecordsFound | internal/fakecgo/reexec_universal_linux.go:802-829 | in a rebuilt environment the guard counts for exactly the pid it was built for, nobody finds a probe variable, a recorded path or argv[0] is that pid's; argv[0] is there exactly if there is one, it fits, and the path has not taken the last place of a full array |
| EnvRebuild.FullArrayLosesArgv0 | internal/fakecgo/reexec_universal_linux.go:789-829 | with 4092 own entries the path is recorded and argv[0] is not |
| EnvRebuild.GenerationsStayBounded | internal/fakecgo/reexec_universal_linux.go:303-310 | over any number of generations, each reading at most 256 KiB, the bridge variables stay at most three, and the own variables of an environment that leaves the records room stay unchanged |
| EnvRebuild.GuardSeen | internal/fakecgo/reexec_universal_linux.go:632-662 | in a rebuilt environment the guard is seen exactly if the own entries and the guard's head are within the bytes read, and nobody sees a probe variable |
| EnvRebuild.RebuiltIsShort | internal/fakecgo/reexec_universal_linux.go:789-830 | rebuilding adds no more bytes to the own entries than the staging buffer holds |
| EnvArrays.IsBridgeVarAt | internal/fakecgo/reexec_universal_linux.go:307-310 | at an entry's start the four key tests are a question about that entry alone |
| EnvArrays.BuildEnvp | internal/fakecgo/reexec_universal_linux.go:789-830 | the NULL-terminated array points at exactly the rebuilt environment |
| EnvArrays.PointsReads | internal/fakecgo/reexec_universal_linux.go:256-258 | what execve reads through such a pointer is the string recorded for it |
| EnvLaunch.BuildArgv | internal/fakecgo/reexec_universal_linux.go:760-787 | by name: glibc's loader if it exists, else musl's; `--preload`; the libraries of that libc; the filled memfd's descriptor on glibc, else the readlink answer, else the link; then the C strings of the command line read, after the first, up to 4091 |
| EnvLaunch.ArgvFor | internal/fakecgo/reexec_universal_linux.go:745-787 | for a program started with given arguments these are the arguments as read, the last perhaps cut and running on behind the buffer |
| EnvLaunch.ArgsArriveIff | internal/fakecgo/reexec_universal_linux.go:745-787 | the program's arguments arrive, whatever stands behind the buffer, exactly if there are none or they are within 262144 bytes and 4091 places |
| EnvLaunch.LongCommandLine | internal/fakecgo/reexec_universal_linux.go:81 | three arguments of 90000 bytes do not |
| EnvLaunch.BuildArrays | internal/fakecgo/reexec_universal_linux.go:733-830 | both arrays, that command line and the rebuilt environment with the program's first string as its invocation name; the strings before the guard always leave room for it |
| EnvLaunch.InvokedAs | internal/fakecgo/reexec_universal_linux.go:818-829 | a program started under a name gets that name recorded, however long its other arguments are |
| BridgePaths.HasPrefixC | internal/fakecgo/reexec_universal_linux.go:315-326 | prefix test on a C string, nil included |
| BridgePaths.SameBase | internal/fakecgo/reexec_universal_linux.go:334-362 | true exactly when the two last path elements are equal |
| BridgePaths.RecognisedIff | internal/fakecgo/reexec_universal_linux.go:707-713 | in whatever directory, a file is taken for a loader exactly under the two names the host's loaders have |
| Elf.PatchInterpInBuf | internal/fakecgo/reexec_universal_linux.go:414-444 | the buffer becomes the patched image, or is unchanged and the answer is no |
| Elf.StripInterp | cmd/goffi-strip-interp/main.go:80-111 | the file becomes the image with its first PT_INTERP entry cleared |
| Elf.TableOfHeader | cmd/goffi-strip-interp/main.go:80-102 | offset, entry size and number of entries are those fields of an ELF64 header |
| Elf.EntryFields | internal/fakecgo/reexec_universal_linux.go:423-442 | an entry's type and file offset are those fields of an ELF64 program header |
| Elf.SetTypeFrame | cmd/goffi-strip-interp/main.go:103-111 | editing one entry's type changes no other entry, no offset and not the table |
| Elf.StripThenRestore | internal/fakecgo/reexec_universal_linux.go:431-442 | patching what stripping produced gives back the image exactly when no earlier PT_NULL entry points at a slash |
| Elf.IntactStaysIntact | internal/fakecgo/reexec_universal_linux.go:423-430 | an image that still has PT_INTERP is not changed |
| ElfCopy.ReadAll | internal/fakecgo/reexec_universal_linux.go:234-253 | for every pattern of short reads: the first bytes of the file up to the cap, or an error |
| ElfCopy.CopyExeToMemfd | internal/fakecgo/reexec_universal_linux.go:489-513 | for every pattern of short reads and writes, success means the first chunk patched and the rest verbatim |
| ElfCopy.CopyRestores | internal/fakecgo/reexec_universal_linux.go:489-513 | a successful copy of a stripped image is the original image |
| ElfCopy.CopyOfIntact | internal/fakecgo/reexec_universal_linux.go:423-430 | a successful copy of an image with PT_INTERP is that image |
| Reexec.NeedsPreloadProbe | internal/fakecgo/reexec_universal_linux.go:521-539 | a probe is needed exactly if an entry sets LD_PRELOAD to something or the preload file, whose name fits, has text |
| Reexec.AnyPreloadIff | internal/fakecgo/reexec_universal_linux.go:521-532 | the entries that count are those that set LD_PRELOAD to a text |
| Reexec.ProbeHostLoader | internal/fakecgo/reexec_universal_linux.go:557-586 | the child's environment is the launch's and the probe variable; there is no child exactly if the variable does not fit or the fork fails |
| Reexec.ReexecUniversal | internal/fakecgo/reexec_universal_linux.go:614-847 | one pass decides exactly as the protocol does on what it has read, hands execve the loader's command line by name and the protocol's next environment, with the program's first string as its invocation name, and a probe child the same with the probe variable, even where a buffer ends inside an entry |
| ProtocolSafety.EventKeeps | internal/fakecgo/reexec_universal_linux.go:557-847 | every launch, spawn, decision, probe, exec and death keeps the protocol's invariant, for environments of any size |
| ProtocolSafety.BridgeIsSafe | internal/fakecgo/reexec_universal_linux.go:605-668 | in every run: true means started through a loader, and a guard counts exactly for a process its own bridge re-execed while the guard's head is within the bytes read |
| ProtocolSafety.ReexecAgainIff | internal/fakecgo/reexec_universal_linux.go:632-713 | in every run: a re-execed process is re-execed again exactly if its guard is cut off and readlink does not show it the loader |
| ProtocolSafety.ProbesStop | internal/fakecgo/reexec_universal_linux.go:557-586 | in every run: a probe child sees its variable exactly if its forker is its parent and the variable's head is within the bytes read; it gets past the bridge only if the forker is gone, the variable cut off, or the environment unreadable; else only probe children hold the variable |
| ProtocolRoomy.RoomyRunsAreSafe | internal/fakecgo/reexec_universal_linux.go:605-668 | while nobody is started with more than 253888 bytes of environment: no pid is re-execed twice, a guard counts exactly for re-execed processes, and a probe child with a live forker never gets past |
| ProtocolRecords.RealExeIs | internal/fakecgo/reexec_universal_linux.go:694-725 | the path the bridge takes for its own is the file of its image, or none, unless the file has lost the name it was started under, or it runs under an unrecognised loader name or from another program's memfd |
| ProtocolRecords.RightStepIff | internal/fakecgo/reexec_universal_linux.go:687-724 | recorded paths stay right in every event but one: a bridge that goes on and takes a name its file has got since, a loader, or another program's file for its own |
| ProtocolRecords.RecordsRightIff | internal/fakecgo/reexec_universal_linux.go:687-724 | over whole runs with readable environments: all recorded paths are right all the time exactly if that event never happens |
| ProtocolRecords.RecordedPathsAreFiles | internal/fakecgo/reexec_universal_linux.go:818-823 | then any recorded path is the one the process it is about was started from on disk, never the loader, a memfd or a deleted file's name |
| ProtocolOrderly.OrderlyRecordsAreRight | internal/fakecgo/reexec_universal_linux.go:687-724 | that event never happens if files keep their names until their bridge has asked, loaders have recognised names, and memfd images are started only by re-execed processes of their own program |
| SelfInfo.ExecutableOf | ffi/selfinfo.go:39-69 | on an environment a bridge rebuilt: its process is told the recorded path, a child under the loader or a memfd the parent's, everybody else what the system says |
| SelfInfo.OwnFileIff | ffi/selfinfo.go:39-69 | over whole runs without a mistaken bridge: a re-execed process is told its own file if its bridge recorded a path, and only then while its loader has a recognised name |
| SelfInfo.LoaderOrMemfdIff | ffi/selfinfo.go:61-69 | the system's name for a process is a loader or a memfd exactly if it runs under the host's loader or a memfd image |
| SelfInfo.ChildIsTold | ffi/selfinfo.go:39-69 | over whole runs: a process started from a re-execed one is told its parent's file exactly if it runs under the host's loader or a memfd; any other program is told what the system says |
| SelfInfo.HandStartedCopy | ffi/selfinfo.go:49-62 | a copy started by hand from a re-execed process is told its parent's file |
| ProtocolRuns.OrphanedProbeEscapes | internal/fakecgo/reexec_universal_linux.go:652-665 | a run in which a probe child whose forker was killed runs the program |
| ProtocolRuns.CutProbeEscapes | internal/fakecgo/reexec_universal_linux.go:627-665 | a run in which a probe child runs the program while its forker waits, for every environment that fills the buffer |
| ProtocolRuns.ReexecTwice | internal/fakecgo/reexec_universal_linux.go:627-668 | a run in which a pid is re-execed twice, for every such environment |
| ProtocolRuns.BufferCanBeFilled | internal/fakecgo/reexec_universal_linux.go:80 | such an environment: three variables of 87373 bytes |
| ProtocolRuns.ImageOfAnother | internal/fakecgo/reexec_universal_linux.go:715-725 | a run in which the memfd image of one program records the file of another |
| ProtocolRuns.UnrecognisedLoader | internal/fakecgo/reexec_universal_linux.go:707-713 | a run in which a program started by hand records the loader, for every loader name that is not recognised |
| ProtocolRuns.OldGlibcLoader | internal/fakecgo/reexec_universal_linux.go:328-360 | the loader's name on glibc 2.31 is one of those |
| ProtocolRuns.RenamedProgram | internal/fakecgo/reexec_universal_linux.go:694-705 | a run in which a program records the name its file has got since it was started, for every such name |
| ProtocolRuns.DeletedIsPlain | internal/fakecgo/reexec_universal_linux.go:707-724 | the name readlink gives for an unlinked file is one of those: no test of the bridge catches it |

## Left out

- Amd64RoundTrip.RoundTrip: takes bools that are 0 or 1.
- Amd64RoundTrip.ListSurvivesIff: of the conversion from float64 to float32, which belongs to the hardware, it takes only that a float64 whose upper four bytes are zero becomes zero.
- Amd64Return.ReturnScalar: descriptors that claim at most eight bytes, as all scalar descriptors of the repository do.
- Amd64Return.ReturnReconstructs: flat structs; `Amd64Nested.NestedComesBackIff` gives the exact condition for all.
- Amd64Return.HandleReturn: takes a result buffer that holds what is stored; for a struct of less than eight bytes that is eight, and the source overruns a shorter buffer.
- Arm64Return.HandleReturn: the same.
- SelfInfo.OwnFileIff: pids that fit a Go int, and a program started from a path that is not empty.
- Amd64Prepare.PreparedIffPlaceable: does not cover MEMORY-class structs and the hidden result pointer, because the preparation does not count them; `Amd64Prepare.StackWordsNeeded` gives the exact need for those too.
- Arm64Call.Execute: takes structs whose leaves have a fixed width, at any alignment; `IntType` and `VoidType` leaves, which the placer refuses half-way, are outside it, so the source's fall-through after a refused placement is dead code here.
- Arm64Struct.CountEqualsPlaceOf: `IntType` and `VoidType` members are outside it, because counting and placing treat them differently.
- Arm64Scalars.AcceptedNothingDroppedIff: scalar lists only; for structs `Arm64Call.Execute` says word by word what is dropped.
- Arm64Return.ClassifyReturn: takes descriptors whose layout is filled in; the call to the layout pass is modelled in `LayoutHeap`.
- Arm64Count.CountStructRegUsage: the running offset is not kept, because nothing in the counting walk reads it.
- LayoutHeap.InitializeCompositeType: does not model the nil-member and nil-descriptor errors, nor a wrap-around of sizes at 2^64.
- Elf.PatchInterpInBuf: takes headers whose table ends below 2^64, because past that the source indexes outside its buffer.
- Elf.StripInterp: ELF64 little-endian files whose header the Go library accepted; the 32-bit and big-endian variants are not part of this model.
- Amd64Callback.Reader.GetStruct: the scratch buffer is rounded up to whole eightbytes, while the source allocates the larger of 8 and the size; for sizes such as 13 or 19 the source writes an eightbyte past the end of that, which is not modelled.
- Reexec.ReexecUniversal: the passes that fail for lack of scratch memory or an unreadable /proc file are events of `Protocol`, not of this method. It takes memory behind the buffers in which there is a NUL somewhere.
- ProtocolSafety.BridgeIsSafe: assumes that pids are not reused, that programs make up no bridge variables, that no program execs itself in place without forking, which the guard cannot tell from a re-exec, that a program's file is never named like a loader or a memfd, and that the memory after a full buffer completes no bridge variable.
- ProtocolRecords.RecordsRightIff: runs with environments too large to read whole are outside it, because a path that is cut off runs on into memory outside the buffer.
- Arm64Mixed.MemoryImageIff: flat structs; inside a nested struct the packer takes leaves at their own alignment and not at their struct's.
- Whether a probe is needed is a free choice in the protocol; `Reexec.NeedsPreloadProbe` is the code's decision.
- Assembly trampolines, `runtime.cgocall`, errno capture, garbage-collector concerns, the callback registry and the conversion of callback results: foreign code, or nothing hard.
- Windows call paths, dynamic-loading wrappers, thread start, symbol tables and the probe commands: plumbing.
