# Readium SDK: verified models of CFIs, media-overlay timing and content filters

This project models three parts of the Readium EPUB 3 SDK and proves how their operations
fit together.

**Canonical fragment identifiers (CFIs).** The bracket-aware splitter, the step scanner on a
string stream (with its fail and end-of-file bits), the range compiler with its ordering checks,
the printer, equality, append and sub-path. The main result is an if-and-only-if over *every*
CFI: compiling `String()` succeeds with an equal CFI exactly when the CFI is `Canonical`.

**Media-overlay timing.** The four traversals of a SMIL timing tree with `uint32_t` accumulators
(duration, clip offset, lookup by time, lookup by index) and the moves between times and
positions in a whole publication, all proved against one flat list of clips.

**Content filters.** The priority registry, the filter chain, the cached filtered stream, the
byte-range stream, the pass-through filter and font obfuscation, from registrations to bytes.

## How to read it

| file | content |
|---|---|
| `Prelude.dfy` | options, `uint32_t` arithmetic |
| `CfiNumbers.dfy`, `CfiSplitter.dfy`, `CfiComponent.dfy`, `CfiCompiler.dfy` | numbers, splitter, steps, whole CFIs |
| `CfiComponentLaws.dfy`, `CfiScannerRuns.dfy`, `CfiLaws.dfy`, `CfiRoundTrip.dfy`, `CfiCompileRuns.dfy` | the CFI theorems |
| `CfiExamples.dfy` | strings of the header and the unit tests |
| `CfiObject.dfy`, `RangedCfiScript.dfy` | the mutable CFI class; the JavaScript range splitter |
| `SmilTiming.dfy`, `SmilLaws.dfy`, `SmilBook.dfy` | one timing tree; its theorems; a whole publication |
| `FontObfuscation.dfy`, `ByteStreams.dfy`, `RangeStream.dfy` | XOR filter; streams and pass-through; range reads |
| `Filters.dfy`, `CachedStream.dfy`, `FilterRegistry.dfy` | chains; the cached stream; registry to bytes |

Operations that the source writes as loops or as updates of an object are methods and classes,
proved equal to specification functions; the theorems are about those functions. Every lemma
carries `{:induction false}`: its proof is its body.

Conventions of the model:

- `Outcome` says how a CFI call ends: a value, a raised error, `Hangs` (the scanner loop never
  ends), `Undefined` (the source reads past the end of a vector) or `Float` (see below). The
  loop is also modelled turn by turn on every state, a failed stream included, and `Hangs` is
  proved to be the answer exactly when the loop is still going after every number of turns.
- `Handler` is the installed error handler. The default one lets violations of medium severity
  pass (`RangeComponentCount`, `RangeSideBias`), the strict one raises them; both raise the rest.
- `Wrap`, `Add32` and `Sub32` are arithmetic modulo 2^32 (`Prelude.WrapIsModulo`, `Prelude.Add32IsModulo`).
- Where the source has a null result or an empty output of a filter, the model has `[]` or `None`.

## What the proofs say about the code

- The step scanner does not end on every text. `ParseFate` sorts all strings: of those whose scan
  reaches no float offset, it hangs exactly on those whose first number exceeds 32 bits with more
  text behind it, or with an unbracketed colon before a number that cannot be read, with more text
  behind it; it refuses exactly those without a first number or with an unterminated bracket; and
  it ends on all others. `CompileHangs` lifts the hang to whole CFI strings.
- A printed CFI comes back equal exactly when its base is not empty, ids and texts hold no `]`,
  texts hold no `;s=` and stand behind a non-zero offset, an indirection carries no offset, and
  the ends of a range are `Acceptable`. In particular a text assertion at offset 0, which
  `/4:5[y]:0` compiles to, is read back as an id (`TextAtOffsetZeroLost`).
- The range check compares node indices one by one, so it also rejects ranges that are in
  document order, such as `/6,/2/8,/4/2` (`OrderedStringRejected`). Ends of different lengths are
  never accepted: when they pass the checks before and no common index decreases, as in
  `/6,/2,/2/4`, the comparison reads past the shorter end (`ChecksRunOff`, and `CompileRunsOff`
  for whole strings); otherwise an error is raised.
- The header promises that a sub-CFI of `/6/4!/2/11:5` prints as `/2/11:5`; `String()` prints the
  wrapped form. Comparing with a bare string is therefore always false (`BareStringCompares`). A
  string compares with all canonical CFIs as its compiled CFI does exactly when that CFI is not
  canonical or the string is its printed form (`StringsThatCompare`).
- Under the default handler a base with a single further piece compiles as the base alone
  (`LonePiece`).
- Lookup by time is right for every tree, also when the total exceeds 32 bits; clip offsets and
  durations are right modulo 2^32, and the exact conditions are proved (`OverflowWitness` shows
  three clips on which they go wrong).
- A position turned into a time and back does not always come back: the start of every clip is
  lost, except at time 0, because that time still belongs to the clip before (`ClipStartLost`).
  Exactly the positions inside a clip of positive length, past its start unless that is time 0,
  and with a time below 2^32 come back (`PositionRoundTrip`).
- When a filter of a chain returns no data the cached stream delivers the raw bytes
  (`DeliversIntended`, `NoDataDeliversRaw`).
- A range stream for an item with one filter that is not range-capable reads the unfiltered
  resource. All requests that the buffer has room for agree with the cached stream exactly when
  the resource is empty, or the filter does not change it or returns no data
  (`RangeReadsSkipFilter`). For an obfuscated font a read agrees exactly when
  the key is zero at every obfuscated byte of the range (`ObfuscatedRangeReads`).
- A full-range read through the pass-through filter into too small a buffer reports more bytes
  than the buffer holds, where the raw read refuses (`FilteredIsRaw`).

## Model

| member | source | states |
|---|---|---|
| `CfiNumbers.ReadDecimal` | ePub3/ePub/cfi.cpp:427-428 | reading a printed number back gives the number and leaves exactly the rest of the text, for every 32-bit number not followed by a digit |
| `CfiNumbers.ReadNumber` | ePub3/ePub/cfi.cpp:428-433 | any number behind any spaces: its value, or the largest 32-bit value with the fail bit on overflow |
| `CfiNumbers.ReadSigned` | ePub3/ePub/cfi.cpp:540-541 | a sign is accepted, and a minus negates modulo 2^32 |
| `CfiNumbers.ReadNoNumber` | ePub3/ePub/cfi.cpp:540-541 | with no number there the fail bit is set; the target is kept at the end of the text and zeroed elsewhere |
| `CfiNumbers.ReadBareSign` | ePub3/ePub/cfi.cpp:540-541 | a sign without a number is consumed, 0 is stored and the fail bit set |
| `CfiNumbers.SpacesAre` | ePub3/ePub/cfi.cpp:437-438 | the characters that extraction skips |
| `CfiSplitter.ComponentStrings` | ePub3/ePub/cfi.cpp:231-288 | the splitting loop terminates on every string and computes the token-by-token splitting, failing on an unterminated bracket |
| `CfiSplitter.FindBreak` | ePub3/ePub/cfi.cpp:234-240 | the next delimiter or bracket, and none before it |
| `CfiSplitter.SplitSucceeds` | ePub3/ePub/cfi.cpp:258-264 | splitting succeeds exactly on strings whose brackets are closed |
| `CfiSplitter.SplitCorrect` | ePub3/ePub/cfi.cpp:238-287 | the pieces are non-empty, hold no unbracketed delimiter, and join to the input without its unbracketed delimiters |
| `CfiSplitter.SplitJoin` | ePub3/ePub/cfi.cpp:231-288 | splitting the join of such pieces gives the pieces back |
| `CfiSplitter.SplitPrefixed` | ePub3/ePub/cfi.cpp:198-231 | splitting the printer's delimiter-before-each-piece form gives the pieces back |
| `RangedCfiScript.SplitRangedCfi` | ePub3/ePub/cfi-resolver.js:109-141 | on every string the script terminates and yields the pieces between unbracketed commas, only a last empty one dropped; an unterminated bracket reaches to the end |
| `RangedCfiScript.SplitIsNonEmpty` | ePub3/ePub/cfi.cpp:269-279 | the C++ splitter yields the same pieces with every empty one dropped |
| `RangedCfiScript.SplittersAgree` | ePub3/ePub/cfi-resolver.js:109-141 | on every string script and C++ agree exactly when all brackets are closed and no piece before the last is empty |
| `RangedCfiScript.SplittersDisagree` | ePub3/ePub/cfi-resolver.js:123-130 | an input with an empty base on which they differ |
| `CfiComponent.Parse` | ePub3/ePub/cfi.cpp:416-559 | the scanner loop refines the turn-by-turn scanner, with every error and the case that never ends |
| `CfiComponent.AppendComponents` | ePub3/ePub/cfi.cpp:193-230 | the printing loop appends the printed steps to what the stream held |
| `CfiComponent.PrintOne` | ePub3/ePub/cfi.cpp:198-226 | one step prints as slash, number, id, offset with text, bang |
| `CfiComponentLaws.ParsedScannable` | ePub3/ePub/cfi.cpp:442-494 | whatever string is scanned, ids and texts of the result hold no closing bracket and texts no bias clause |
| `CfiComponentLaws.ScanBody` | ePub3/ePub/cfi.cpp:416-559 | what scanning any printed scannable step gives, field by field |
| `CfiComponentLaws.StepRoundTrip` | ePub3/ePub/cfi.cpp:416-575 | scanning a printed step gives an equal step if and only if the step is well formed |
| `CfiComponentLaws.ScanBias` | ePub3/ePub/cfi.cpp:460-484 | a clause `;s=` behind a text holding none is cut off, and the letter behind it sets the side, for every text, number and clause |
| `CfiComponentLaws.BracketBias` | ePub3/ePub/cfi.cpp:454-484 | a clause without a side keeps the side read before |
| `CfiComponentLaws.ScanMeaningless` | ePub3/ePub/cfi.cpp:440-556 | a bang before the end, a float mark behind an offset and every character but the five special ones change nothing |
| `CfiScannerRuns.ScanHangs` | ePub3/ePub/cfi.cpp:435-558 | from every state of the loop, a failed stream included: the scan is `Hangs` if and only if the loop is still going after every number of turns, and otherwise it ends with its outcome (`Float` where it reaches a float offset) within one turn more than the unread text has characters |
| `CfiScannerRuns.ParseReturns` | ePub3/ePub/cfi.cpp:416-559 | the same for the whole call on every string, again with `Float` as the outcome where a float offset is reached |
| `CfiScannerRuns.ScanFate` | ePub3/ePub/cfi.cpp:435-558 | whatever step was gathered before, a walk over the unread text alone says how its scan ends: it hangs at the first unbracketed colon before an unreadable number with more text behind it, is refused at an unterminated bracket, meets a float at `~` or `@` with no offset before, and succeeds otherwise |
| `CfiScannerRuns.ParseFate` | ePub3/ePub/cfi.cpp:416-559 | for every string, if and only if: the call hangs, raises the parse error, reaches a float offset or gives a step |
| `CfiCompileRuns.StepListHangs` | ePub3/ePub/cfi.cpp:386-406 | a step list that reaches no float offset hangs if and only if one of its strings does and all before it scan |
| `CfiCompileRuns.CompileHangs` | ePub3/ePub/cfi.cpp:289-385 | for every string that reaches no float offset: compiling hangs if and only if a step list among the base and the two range ends does, and those compiled before it succeed |
| `CfiComponentLaws.ColonWithoutNumber` | ePub3/ePub/cfi.cpp:533-543 | the family `n:rest` of such strings: a hang, unless the colon ends the text |
| `CfiComponentLaws.OversizedNumber` | ePub3/ePub/cfi.cpp:427-438 | the family of oversized first numbers: clamped at the end of the text, a hang before it |
| `CfiComponentLaws.ScanReoffset` | ePub3/ePub/cfi.cpp:448-543 | every step `n:k[t]:0` scans to a text assertion at offset 0 |
| `CfiComponentLaws.SameStepSameBody` | ePub3/ePub/cfi.cpp:560-575 | steps that compare equal print alike |
| `CfiComponentLaws.BodyClean` | ePub3/ePub/cfi.cpp:193-230 | a printed step is never empty and holds no unbracketed slash or comma |
| `CfiLaws.SameIsEquivalence` | ePub3/ePub/cfi.cpp:51-65 | equality of CFIs is reflexive, symmetric and transitive |
| `CfiLaws.SamePrintsAlike` | ePub3/ePub/cfi.cpp:51-83 | equal CFIs have equal `String()`, well formed or not |
| `CfiLaws.RangeAcceptance` | ePub3/ePub/cfi.cpp:325-379 | the checks pass exactly when both ends have one kind of offset, equal length, document order and no decreasing index, and carry no bias under the strict handler |
| `CfiLaws.OrderedRangeRejected` | ePub3/ePub/cfi.cpp:349-357 | two ends in document order that the checks reject |
| `CfiRoundTrip.OrderedStringRejected` | ePub3/ePub/cfi.cpp:349-357 | the string with those ends, `/6,/2/8,/4/2`, raises the range error |
| `CfiLaws.ChecksRunOff` | ePub3/ePub/cfi.cpp:325-379 | the checks read past the shorter end if and only if both ends are non-empty, end in one kind of offset, are free of bias under the strict handler, differ in length and no common index decreases; all other ends of unequal length raise an error |
| `CfiLaws.RefusalKinds` | ePub3/ePub/cfi.cpp:325-379 | the side-bias error is raised exactly for biased ends of one kind under the strict handler; every other refusal is the range error |
| `CfiCompileRuns.CompileRunsOff` | ePub3/ePub/cfi.cpp:289-385 | for every string that reaches no float offset: compiling reads past the shorter end if and only if there are three comma pieces (or more, under the default handler), all three compile, and the ends are such ends |
| `CfiRoundTrip.RunsOffWitness` | ePub3/ePub/cfi.cpp:349-354 | a string on which it does: `/6,/2,/2/4` |
| `CfiLaws.CompiledRangeOrdered` | ePub3/ePub/cfi.cpp:318-382 | every string accepted as a range denotes ends in document order with one kind of offset |
| `CfiLaws.SubOfAppended` | ePub3/ePub/cfi.cpp:97-143 | cutting an appended CFI at the join gives the appended one back with its range, or is out of range if that has no component |
| `CfiLaws.AppendBack` | ePub3/ePub/cfi.cpp:97-143 | cut anywhere, the first components with the sub-path appended are the CFI again; at the end or past it the cut is out of range |
| `CfiLaws.AppendToRange` | ePub3/ePub/cfi.cpp:126-143 | appending raises its error exactly on a range |
| `CfiLaws.AppendAssociative` | ePub3/ePub/cfi.cpp:126-143 | append is associative for all CFIs, raised errors included |
| `CfiLaws.SubPrintedIsPrintedSub` | ePub3/ePub/cfi.cpp:170-192 | the text of the sub-path from an index is the printed sub-CFI exactly below the base length, the range alone at it, undefined past it, and out of range exactly from the total number of components on |
| `CfiLaws.AssignForgets` | ePub3/ePub/cfi.cpp:97-117 | a sub-path assignment does not depend on what the object held |
| `CfiLaws.WrappingOptional` | ePub3/ePub/cfi.cpp:291-305 | `epubcfi(` in front and any one character behind change nothing about how a string compiles |
| `CfiLaws.BareStart` | ePub3/ePub/cfi.cpp:297-305 | a string without that prefix is refused when empty and when it does not start with a slash, with which error |
| `CfiLaws.EmptyWrapping` | ePub3/ePub/cfi.cpp:293-313 | the wrapping alone is refused, with the error the handler decides |
| `CfiLaws.PrintedShape` | ePub3/ePub/cfi.cpp:177-192 | every `String()` starts with `epubcfi(`, ends with `)`, and compiles as what stands between |
| `CfiLaws.PieceCounts` | ePub3/ePub/cfi.cpp:307-318 | for every string and number of comma pieces: the strict handler refuses all counts but 1 and 3; the default one refuses none at all, drops a lone second piece and every piece behind the third |
| `CfiLaws.UnclosedRefused` | ePub3/ePub/cfi.cpp:258-264 | a string with an unterminated bracket raises the parse error |
| `CfiRoundTrip.CompilePrintedSteps` | ePub3/ePub/cfi.cpp:193-288 | a printed step list is one comma piece and compiles to the rereading of its steps |
| `CfiRoundTrip.CompiledScannable` | ePub3/ePub/cfi.cpp:289-385 | whatever any string compiles to is scannable |
| `CfiRoundTrip.RoundTrip` | ePub3/ePub/cfi.cpp:177-385 | for every CFI and both handlers: compiling `String()` gives an equal CFI if and only if the CFI is canonical |
| `CfiRoundTrip.ReoffsetCompiles` | ePub3/ePub/cfi.cpp:289-318 | every string `/n:k[t]:0` compiles to a text assertion at offset 0 |
| `CfiRoundTrip.TextAtOffsetZeroLost` | ePub3/ePub/cfi.cpp:454-491 | none of the CFIs so compiled survives printing and compiling |
| `CfiRoundTrip.PrinterInjective` | ePub3/ePub/cfi.cpp:70-79 | canonical CFIs are equal exactly when their strings are |
| `CfiRoundTrip.CompareWithString` | ePub3/ePub/cfi.cpp:70-79 | for every CFI and every string that compiles: comparing with the string agrees with compiling it and comparing if and only if a CFI printing as the string is canonical and one equal to the compiled CFI meets that CFI's printed form |
| `CfiRoundTrip.StringsThatCompare` | ePub3/ePub/cfi.cpp:70-79 | a string compares so with every canonical CFI if and only if its compiled CFI is not canonical or the string is its printed form |
| `CfiRoundTrip.BareStringCompares` | ePub3/ePub/cfi.cpp:70-79 | the unwrapped string of a canonical CFI compiles alike but compares unequal |
| `CfiRoundTrip.CompileStable` | ePub3/ePub/cfi.cpp:289-385 | a compiled CFI survives printing and compiling exactly when its steps are well formed and its base is not empty |
| `CfiRoundTrip.LonePiece` | ePub3/ePub/cfi.cpp:307-318 | a lone second piece is refused by the strict handler and dropped by the default one |
| `CfiRoundTrip.AppendPrints` | ePub3/ePub/cfi.cpp:126-192 | the text of an appended CFI is the two texts one after the other |
| `CfiRoundTrip.CompileJoined` | ePub3/ePub/cfi.cpp:126-385 | compiling the joined texts of canonical CFIs gives the appended CFI with its range |
| `CfiExamples.HeaderExample` | ePub3/ePub/cfi.cpp:177-385 | `/6/4!/2/11:5`, bare and wrapped, compiles to its four steps and prints as itself, wrapped |
| `CfiExamples.HeaderSubCfi` | ePub3/ePub/cfi.cpp:170-176 | its sub-CFI from step 2 on prints as `epubcfi(/2/11:5)` |
| `CfiExamples.RangeOfPoints` | UnitTests/cfi_tests.cpp:56-59 | behind every base, a range between two character offsets compiles to itself exactly when they are in order, and else raises the range error |
| `CfiExamples.StartErrors` | UnitTests/cfi_tests.cpp:38-43 | the tested strings that do not start as a CFI, with their errors |
| `CfiExamples.NumberMissing` | UnitTests/cfi_tests.cpp:39 | `/:22` raises the parse error |
| `CfiExamples.PieceMissing` | UnitTests/cfi_tests.cpp:53 | `/6/4!,1:22` raises the count error under the strict handler and is its base under the default one |
| `CfiExamples.PieceEmpty` | UnitTests/cfi_tests.cpp:54 | the same for `/6/4!,/1:22,` |
| `CfiExamples.BiasExamples` | UnitTests/cfi_tests.cpp:34-35 | `3:22[;s=b]` has side before, `12:3[;s=a]` side after |
| `CfiObject.CompileComponentsToList` | ePub3/ePub/cfi.cpp:386-406 | the loop scans the strings in order and stops at the first failure |
| `CfiObject.CompareIndices` | ePub3/ePub/cfi.cpp:349-362 | the index loop refines the recursive comparison, out-of-bounds reads included |
| `CfiObject.CFI.CompileCFI` | ePub3/ePub/cfi.cpp:289-313 | the object holds exactly the compiled value on success, and every failure is the specified one |
| `CfiObject.CFI.CompilePieces` | ePub3/ePub/cfi.cpp:307-385 | one piece makes a location, three a range, other counts by the handler |
| `CfiObject.CFI.Append` | ePub3/ePub/cfi.cpp:126-143 | the new state is the appended value, and a failed append changes nothing |
| `CfiObject.CFI.AppendString` | ePub3/ePub/cfi.cpp:144-162 | appending a string is appending its compiled CFI, and a range is refused before the string is looked at |
| `CfiObject.CFI.AssignFrom` | ePub3/ePub/cfi.cpp:97-117 | the new state is the sub-path with the other's range, and an index out of range changes nothing |
| `CfiObject.CFI.Stringify` | ePub3/ePub/cfi.cpp:177-192 | prints the components from an index on, with the range |
| `CfiObject.CFI.EqualsString` | ePub3/ePub/cfi.cpp:70-79 | compares the printed form with the string |
| `CfiObject.CFI.SubCFIFromIndex` | ePub3/ePub/cfi.cpp:170-176 | the printed sub-path, with its two failures |
| `SmilTiming.ClipDurationEnds` | ePub3/ePub/media-overlays_smil_data.h:521-529 | a clip lasts from its beginning to its end, or not at all |
| `SmilLaws.ParallelInPlace` | ePub3/ePub/media-overlays_smil_data.h:185-195 | a parallel stands in the flat list where it stands in the tree; it counts for its clip's length, and for 0 without audio or when its text names another item than the document's own |
| `SmilLaws.NestingIrrelevant` | ePub3/ePub/media-overlays_smil_data.h:197-206 | a nested sequence counts as its children in its place, so by induction at any depth |
| `SmilTiming.DurationMilliseconds` | ePub3/ePub/media-overlays_smil_data.h:370-409 | the recursive total is the sum of the flat clip list, modulo 2^32 |
| `SmilTiming.ChildDuration` | ePub3/ePub/media-overlays_smil_data.h:382-405 | what each kind of child adds |
| `SmilTiming.ClipOffset` | ePub3/ePub/media-overlays_smil_data.h:166-211 | through any nesting: found exactly when the parallel is there, and the accumulator grows by the time before it, modulo 2^32 |
| `SmilTiming.ParallelAt` | ePub3/ePub/media-overlays_smil_data.h:213-266 | for every tree and time the answer is that of the flat list, and the unsigned subtraction never wraps at any depth |
| `SmilTiming.NthParallel` | ePub3/ePub/media-overlays_smil_data.h:268-296 | answer and counter are those of counting through the flat list |
| `SmilLaws.LookupNone` | ePub3/ePub/media-overlays_smil_data.h:213-266 | nothing is found exactly when the duration is 0 or the time exceeds it |
| `SmilLaws.NullMeansPastReportedEnd` | ePub3/ePub/media-overlays_smil_data.h:213-409 | the same against the reported duration, exactly when the true one fits into 32 bits or wraps to the largest value |
| `SmilLaws.LookupSounding` | ePub3/ePub/media-overlays_smil_data.h:242-249 | every time within a clip finds that clip |
| `SmilLaws.LookupFinds` | ePub3/ePub/media-overlays_smil_data.h:242-258 | whatever is found has time and contains the time asked for |
| `SmilLaws.OffsetIsStart` | ePub3/ePub/media-overlays_smil_data.h:690-704 | on a real tree the clip offset is the clip's start modulo 2^32 |
| `SmilLaws.LookupInvertsOffset` | ePub3/ePub/media-overlays_smil_data.h:166-266 | every time after a clip's offset up to its length beyond finds the clip, exactly for clips starting inside 32 bits or with no later time to ask for |
| `SmilLaws.LookupZero` | ePub3/ePub/media-overlays_smil_data.h:244-247 | time 0 finds the first counted parallel of positive length |
| `SmilLaws.NthIsIndex` | ePub3/ePub/media-overlays_smil_data.h:268-296 | from a counter one below `passed`, the answer is the parallel `index - passed` places on, or null |
| `SmilLaws.OffsetsAddUpExactly` | ePub3/ePub/media-overlays_smil_data.h:166-409 | each offset plus its clip's length is the next offset, and the last one the reported duration, exactly when the true duration fits into 32 bits |
| `SmilLaws.OverflowWitness` | ePub3/ePub/media-overlays_smil_data.h:166-409 | three clips, the last starting at 2^32: its offset is reported as 0, the time after that finds the first clip, and the offsets do not add up |
| `SmilLaws.OffsetsRise` | ePub3/ePub/media-overlays_smil_data.h:166-211 | offsets that add up rise in document order |
| `SmilBook.DocDuration` | ePub3/ePub/media-overlays_smil_data.h:756-764 | the document's duration modulo 2^32, 0 without a tree |
| `SmilBook.DocParallelAt` | ePub3/ePub/media-overlays_smil_data.h:669-677 | lookup by time in a document |
| `SmilBook.DocNthParallel` | ePub3/ePub/media-overlays_smil_data.h:679-688 | with the counter starting at the largest value, the `index`-th parallel in document order or null |
| `SmilBook.DocClipOffset` | ePub3/ePub/media-overlays_smil_data.h:690-704 | the time before the parallel modulo 2^32, 0 if it is not there |
| `SmilBook.BookDuration` | ePub3/ePub/media-overlays_smil_model.cpp:1068-1078 | the publication's duration modulo 2^32 |
| `SmilBook.BookParallelAt` | ePub3/ePub/media-overlays_smil_model.cpp:1080-1099 | lookup by time over all documents, again without wrap-around |
| `SmilBook.OwnerDocument` | ePub3/ePub/media-overlays_smil_model.cpp:1126-1135 | the document owning a parallel and the time before it |
| `SmilBook.TimeToPosition` | ePub3/ePub/media-overlays_smil_model.cpp:1114-1137 | the document and milliseconds of the sounding parallel: start of document, start of clip and milliseconds add up to the time, within the clip |
| `SmilBook.TimeBefore` | ePub3/ePub/media-overlays_smil_model.cpp:1147-1152 | the time before a document modulo 2^32 |
| `SmilBook.PositionToTime` | ePub3/ePub/media-overlays_smil_model.cpp:1140-1162 | the time of a position, for exactly the positions that exist |
| `SmilBook.PositionFound` | ePub3/ePub/media-overlays_smil_model.cpp:1101-1171 | the time of a position past a clip's start finds that clip again |
| `SmilBook.OnePosition` | ePub3/ePub/media-overlays_smil_model.cpp:1101-1171 | a time past a clip's start has one position only |
| `SmilBook.PositionRoundTrip` | ePub3/ePub/media-overlays_smil_model.cpp:1101-1171 | for every position and any 32-bit milliseconds: document, parallel and milliseconds come back from the 32-bit time if and only if the milliseconds lie in a clip of positive length, past its start unless that is time 0, and the exact time is below 2^32; otherwise another parallel or none is found |
| `SmilBook.ClipStartLost` | ePub3/ePub/media-overlays_smil_model.cpp:1101-1171 | with two clips of one millisecond, the time of the second one's start finds the first |
| `FontObfuscation.FilterData` | ePub3/ePub/font_obfuscation.cpp:52-68 | the in-place loop XORs the chunk by its position in the stream, leaves the rest of the buffer and advances the count |
| `FontObfuscation.ChunkInvariance` | ePub3/ePub/font_obfuscation.cpp:52-68 | for every chunking the joined outputs equal the output on the whole stream |
| `FontObfuscation.SelfInverse` | ePub3/ePub/font_obfuscation.h:31-39 | a second pass with a fresh context restores the stream, whatever the two chunkings |
| `FontObfuscation.ObfuscatedBytes` | ePub3/ePub/font_obfuscation.cpp:58-62 | length is kept, byte `i` below 1040 is XORed with key byte `i % 20`, the others are unchanged |
| `ByteStreams.SeekableByteStream.ReadBytes` | ePub3/utilities/byte_stream.cpp:783-800 | reads as many bytes as fit and remain, and notices the end |
| `ByteStreams.SeekableByteStream.Seek` | ePub3/utilities/byte_stream.cpp:806-826 | moves to the target or the end |
| `ByteStreams.RangeFilterContext.GetAllocateTemporaryByteBuffer` | ePub3/ePub/filter.h:166-187 | a zeroed buffer with room for the request, replaced exactly when the recorded size is too small |
| `ByteStreams.TemporaryRun` | ePub3/ePub/filter.h:137-187 | over any run of requests the recorded size fits the allocation, and allocations are counted by the rises of the requests |
| `ByteStreams.ReadThrough` | ePub3/ePub/PassThroughFilter.cpp:97-129 | with a stream attached the filter answers the requested slice of the resource, or all of it |
| `ByteStreams.PassThrough` | ePub3/ePub/PassThroughFilter.cpp:76-129 | without a stream it hands its input on |
| `RangeStream.FilterChainByteStreamRange.ReadRawBytes` | ePub3/ePub/filter_chain_byte_stream_range.cpp:153-176 | the raw read is the slice of the resource, whatever the stream position before; a full range that exceeds the buffer returns 0 and leaves the buffer alone |
| `RangeStream.FilterChainByteStreamRange.FilterRange` | ePub3/ePub/filter_chain_byte_stream_range.cpp:90-116 | filtering a range leaves the context at full range with no stream attached |
| `RangeStream.FilterChainByteStreamRange.ReadFilteredBytes` | ePub3/ePub/filter_chain_byte_stream_range.cpp:118-150 | at most the buffer's length is copied, all filtered bytes are reported |
| `RangeStream.FilterChainByteStreamRange.ReadBytes` | ePub3/ePub/filter_chain_byte_stream_range.cpp:69-151 | rejected ranges return 0 and move nothing, accepted ones return their slice, raw or filtered |
| `RangeStream.FilteredIsRaw` | ePub3/ePub/filter_chain_byte_stream_range.cpp:131-176 | filtered and raw reads agree exactly unless the whole resource is asked for with too small a buffer |
| `RangeStream.ReadByRequest` | ePub3/ePub/filter_chain_byte_stream_range.cpp:69-176 | what the raw and the filtered read deliver, byte by byte and by the request alone; the raw read of a full range into too small a buffer delivers nothing |
| `RangeStream.AdjacentReads` | ePub3/ePub/filter_chain_byte_stream_range.cpp:153-176 | adjacent accepted ranges read the stretch they cover |
| `RangeStream.TilingReassembles` | ePub3/ePub/filter_chain_byte_stream_range.cpp:153-176 | any tiling of the resource by accepted ranges reassembles it |
| `Filters.ChainComposes` | ePub3/ePub/filter_chain_byte_stream.cpp:130-227 | every chain that returns data is the composition of its filters from the last range-capable one on; of all of them when that is the first or absent |
| `Filters.LateRangeFilterDiscards` | ePub3/ePub/filter_chain_byte_stream.cpp:137-172 | a later range-capable filter throws away what the filters before it did |
| `CachedStream.StepConserves` | ePub3/ePub/filter_chain_byte_stream.cpp:74-84 | every request delivers a prefix of what was to come and leaves the rest; a read of no bytes changes nothing, every other request reads the input to its end |
| `CachedStream.PlayConserves` | ePub3/ePub/filter_chain_byte_stream.cpp:74-84 | over any run, what was delivered and what remains are what was to come |
| `CachedStream.RefinesFilterThenRead` | ePub3/ePub/filter_chain_byte_stream.cpp:74-275 | over any interleaving of requests a fresh stream delivers a prefix of the filtered resource and has the rest available |
| `CachedStream.DeliversIntended` | ePub3/ePub/filter_chain_byte_stream.cpp:259-271 | the intended output is delivered exactly when the resource is empty or every filter returns data; otherwise the raw bytes are |
| `CachedStream.NoDataDeliversRaw` | ePub3/ePub/filter_chain_byte_stream.cpp:262-271 | a filter without output anywhere in a chain makes the stream deliver the raw bytes of every non-empty resource |
| `CachedStream.EnoughReadsDeliverAll` | ePub3/ePub/filter_chain_byte_stream.cpp:235-243 | a run delivers as many bytes as were asked for, up to all of them |
| `CachedStream.FiltersRunOnce` | ePub3/ePub/filter_chain_byte_stream.cpp:78-84 | no run sends data through the filters twice |
| `CachedStream.RunFilter` | ePub3/ePub/filter_chain_byte_stream.cpp:132-186 | one turn of the filter loop, for each kind of filter |
| `CachedStream.FilterChainByteStream.constructor` | ePub3/ePub/filter_chain_byte_stream.cpp:55-72 | a new stream has read nothing and each filter has an unused context of its own |
| `CachedStream.FilterChainByteStream.FilterBytes` | ePub3/ePub/filter_chain_byte_stream.cpp:122-233 | the loop computes the chain, or 0 with the read cache untouched |
| `CachedStream.FilterChainByteStream.ReadInput` | ePub3/ePub/filter_chain_byte_stream.cpp:247-257 | the block-wise loop reads the input to its end |
| `CachedStream.FilterChainByteStream.CacheBytes` | ePub3/ePub/filter_chain_byte_stream.cpp:245-275 | fills the cache as specified, the case of no data included |
| `CachedStream.FilterChainByteStream.ReadBytes` | ePub3/ePub/filter_chain_byte_stream.cpp:74-84 | the new state and the bytes written are those of the specified step |
| `CachedStream.FilterChainByteStream.ReadAllBytes` | ePub3/utilities/byte_stream.h:133-164 | the block-wise loop ends and returns everything still to come, leaving nothing |
| `CachedStream.FilterChainByteStream.BytesAvailable` | ePub3/ePub/filter_chain_byte_stream.h:66-78 | exactly the number of bytes still to come |
| `CachedStream.FilterChainByteStream.AtEnd` | ePub3/ePub/filter_chain_byte_stream.h:98-105 | true exactly when nothing is to come and the input has noticed its end |
| `FilterRegistry.RegistryKeepsFirst` | ePub3/ePub/filter_manager_impl.h:54 | after any history the registry is strictly descending and keeps the first record of each priority |
| `FilterRegistry.RegisteredMembers` | ePub3/ePub/filter_manager_impl.cpp:37-40 | a record is kept exactly when it was the first of its priority |
| `FilterRegistry.DescendingUnique` | ePub3/ePub/filter_manager.h:56-78 | a strictly descending list is determined by its record at each priority |
| `FilterRegistry.HistoryOrderIrrelevant` | ePub3/ePub/filter_manager_impl.cpp:37-40 | the order of registrations matters only between records of one priority |
| `FilterRegistry.AppliedFilters` | ePub3/ePub/filter_chain.cpp:114-125 | an item gets exactly the filters of kept records whose factory makes one and whose sniffer accepts it, in descending priority |
| `FilterRegistry.RawFirstChain` | ePub3/ePub/PassThroughFilter.cpp:131-137 | with range-capable filters registered at the raw-bytes priority, one can only be first in a chain |
| `FilterRegistry.PassThroughRegistered` | ePub3/ePub/PassThroughFilter.cpp:131-137 | the pass-through filter registered at 1000 among filters below, in any order, meets that condition |
| `FilterRegistry.RegistryToBytes` | ePub3/ePub/filter_chain_byte_stream.cpp:74-275 | from any registrations to bytes, for every resource and run of reads: delivered and remaining bytes are the composition of the item's filters from the last range-capable one on (of all of them when range-capable filters are registered at the raw-bytes priority), or the raw resource when some filter returns no data |
| `FilterRegistry.FilterManager.RegisterFilter` | ePub3/ePub/filter_manager_impl.cpp:37-40 | the registry stays that of the whole history |
| `FilterRegistry.FilterManager.GetFilterByName` | ePub3/ePub/filter_manager_impl.cpp:27-35 | the highest-priority kept record of the name makes the filter |
| `FilterRegistry.FilterManager.BuildFilterChainForPackage` | ePub3/ePub/filter_manager_impl.cpp:42-53 | the filters of all kept records that do not opt out, in order |
| `FilterRegistry.FilterChain.GetFilterChainByteStream` | ePub3/ePub/filter_chain.cpp:114-125 | a fresh stream over exactly the accepting filters |
| `FilterRegistry.FilterChain.GetFilterChainByteStreamRange` | ePub3/ePub/filter_chain.cpp:138-175 | refused with several filters, filtered with one range-capable filter, raw otherwise |
| `FilterRegistry.RangeReadsAgree` | ePub3/ePub/filter_chain.cpp:138-175 | with no filter or only the range-capable one, every request the buffer has room for, full range included, reads the fully filtered resource |
| `FilterRegistry.RangeReadsSkipFilter` | ePub3/ePub/filter_chain.cpp:166-172 | with one filter of any kind, all requests agree with the cached stream if and only if the filter leaves the resource as it is or returns no data, or there is nothing to read |
| `FilterRegistry.ObfuscatedRangeReads` | ePub3/ePub/filter_chain.cpp:166-172 | for an obfuscated font, a request agrees with the cached stream if and only if the key is zero at every obfuscated byte of the range |
| `FilterRegistry.ObfuscatedRangeWitness` | ePub3/ePub/filter_chain.cpp:166-172 | a font of one zero byte where the two streams differ |

## Left out

- CFI temporal and spatial offsets (`~`, `@`) and `Point` comparisons: they rest on printing and reading floats; the scanner model ends in `Float` when it reaches one.
- CfiScannerRuns.ParseFate: says nothing about how a string whose scan reaches a float offset goes on, where the source can loop too (as on `4~x`), because float reads are not modelled; the same holds for ScanFate, ScanHangs and ParseReturns.
- CfiCompileRuns.CompileHangs: a string that reaches a float offset ends in `Float`, whatever follows there; the same holds for StepListHangs and CompileRunsOff.
- Error handlers other than the default one and one that raises everything; a handler that continues after a major violation.
- UTF-8: strings are sequences of characters, and code-point and byte positions are not told apart; the C locale is assumed for numbers.
- Self-aliasing calls `c.Append(c)` and `c.Assign(c, k)`: undefined in the source, excluded by a precondition.
- A SMIL document whose owner has been released: the traversals then answer nothing; a live owner is assumed.
- `PercentToPosition` and `PositionToPercent`: only their integer parts are modelled, not the conversion between percent and milliseconds; the index outputs that the source never sets are left out.
- The uncached branch of the filtered stream: constructed streams never take it.
- Range-mode filters other than the pass-through filter, and range filters without a range context: the repository has none.
- Filters that return different outputs for the same complete data under a fresh context; ownership of returned buffers; secure erasure.
- ByteStreams.SeekableByteStream.Seek: on a closed stream it does nothing, as the file stream does (ePub3/utilities/byte_stream.cpp:670-671); the zip stream dereferences a null pointer there (byte_stream.cpp:823-824).
- RangeStream.FilterChainByteStreamRange.ReadRawBytes: on a closed input it reads nothing, for the same reason; a closed zip stream crashes at the seek.
- Short reads of an input stream before its end, and 64-bit overflow of sizes and counts.
- The asynchronous filter chain, key derivation by SHA-1, and the sniffers' own conditions: outside the model or parameters of it.
- `GetFilterChainSize`, `Clear`, the accessors and the copy and move operations: easy members.
- `Container`, `Archive`, `Library`, navigation and package parsing: XML, ZIP and URL plumbing.
