# Models and proofs for the Stele tool chain

The repository specifies Ethereum contracts in Stele and proves, in Lean, that compiled bytecode refines
those specifications. This project models the parts of it that compute or generate something, and proves
what those parts are for:

- the ABI codec: the encoder, one decoder per compiler policy, the decoder that reads calldata through
  references, and the printed function signatures;
- the bytecode front end: disassembly, jump destinations, immutable sites, basic blocks, bounded segments;
- the symbolic executor that summarises a block, together with a concrete machine for the same opcodes,
  and the composition of summaries by substitution;
- the dispatcher analysis: an abstract interpreter over those pieces and its case tree over pivots;
- the translation of Solidity's memory references to copies that are written back, and the analysis that
  decides what is written back;
- the lock that a Vyper translation puts around nonreentrant functions.

Words are naturals below 2^256 and every wrap-around is written out. Loops of the scripts are methods with
loops, proved equal to specification functions; the Lean functions are functions. Every lemma switches
Dafny's automatic induction off, so inductions are the recursive calls its body makes. The 0.8 calldata decoder
follows solc's own decoder, so its arithmetic wraps and its bounds checks compare signed words.

| file | contents |
|---|---|
| `Words`, `Arith`, `WordArith`, `Options` | bytes, 256-bit words and their arithmetic |
| `WordLaws` | what that arithmetic and the memory mean, of integers, single bits and single bytes |
| `AbiTypes`, `AbiEncode`, `AbiDecode`, `AbiCalldata` | the codec |
| `AbiRoundTrip`, `AbiStatic`, `AbiPlans`, `AbiPlanCaps`, `AbiStrict`, `AbiModes`, `AbiLegacy`, `AbiCalls`, `Signature` | its laws |
| `AbiWords`, `AbiPlanPaths` | single words, lengths and offsets; what a plan says of the parts of a value |
| `Bytecode`, `Blocks`, `StackShapes`, `Stability` | instruction streams, blocks, stack depths, patching |
| `Machine`, `Symbolic`, `SymSound`, `SymBlocks` | concrete and symbolic execution |
| `Opcodes`, `OpcodeSummaries` | both of them opcode by opcode, with the opcodes written as numbers |
| `Substitution`, `Composition` | composing summaries |
| `Dispatcher`, `DispatchPieces`, `DispatchSound`, `ForkTree`, `LeafReverts` | the dispatcher analysis |
| `DispatchComplete`, `DispatchRuns` | where it gives up, and a dispatcher followed and run from end to end |
| `MemoryLang`, `MemoryCopy`, `WritebackAnalysis` | the two languages, the translation between them and its analysis |
| `WritebackFrames`, `WritebackReturns`, `WritebackSound`, `WritebackPlain` | the translation preserves meaning |
| `WritebackGap`, `WritebackNames`, `WritebackExtend`, `WritebackHoists`, `WritebackEffects` | where it does not, and exactly when |
| `Lock` | the reentrancy lock |

Where the code differs from what is expected of it:

- Legacy Solidity 0.5 decoding caps element offsets as well as lengths, so the round trip is stated with
  the caps as part of the answer: the canonical value if they are met, rejection otherwise.
- The overlap test at the end of `validate_immutable_sites` can never fire, because two distinct payloads
  of a stream never overlap; `Stability.ValidateImmutableSites` proves it.
- The dispatcher answers `4 < calldatasize` and `calldatasize > 4` with 1 for every size of at least 4,
  which is wrong for a size of exactly 4; `DispatchSound.BigAnswersExact` gives the exact condition.
- A recognised full return-data copy omits its bounds check even when the zero it is recognised by is an
  immutable site; `SymBlocks.OmittedCheckIsExact` gives the exact condition.
- Composition substitutes the stack, the memory and the active words but neither the account map nor the
  cost, so a piece that reads the map after an earlier piece stored to it, or the gas counter after an
  earlier piece spent, is composed wrongly. `Composition.PathIsRight` says that along a path this is the
  only way to go wrong, and `Composition.LoadAfterStore` when a load after a store is wrong at an entry state.
- The overlap check of memory arguments compares written-back arguments with each other only, and their
  texts only. `WritebackGap.CallsExactly` says when a call is translated right for all functions. The check
  accepts `f(p, p)` with one parameter only read (`ReadArgumentMissed`), `f(p[i], p[j])` with equal indices
  (`EqualIndicesMissed`), and `f(p, q[p.n])`, whose second path is read again after `p` has been assigned
  back (`MovedIndexMissed`).
- A second name for a memory object is translated right exactly if neither name is used to write the object,
  whether the name is made by an assignment (`WritebackNames.AliasesExactly`) or by a function that returns a
  reference (`ReturnedExactly`). The analysis reports only a local name that is declared alone with, or
  assigned outside of a tuple, a path of a memory parameter's object, and that is written under the local name
  (`AliasReportedExactly`). It reports nothing, and the write is lost, if the object is a local variable's
  (`LocalAliasMissed`), if the name is bound by a tuple (`TupleAliasMissed`) or a conditional
  (`ConditionalAliasMissed`), or if a function has returned the reference (`ReturnedAliasMissed`). Nor does
  `a.f().g()` write `a`, even if `f` returns `a` itself (`WritebackEffects.ChainMissed`).
- An internal call in the path of a written-back argument is made twice, the second time when the argument is
  assigned back. `WritebackHoists.HoistedExactly` says when this does no harm; `f(q[next(p)])` is right only if
  calling `next` again changes nothing (`WritebackEffects.HoistedNext`).
- An internal call in an operand of `&&` or `||` or in a branch of a conditional expression is hoisted out of
  it, so it is made whether or not it would be evaluated; `WritebackEffects.GuardedExactly` says when this
  does no harm.
- An internal call of a nonreentrant function runs its body past the wrapper. So such a body runs without
  the lock exactly if internal calls lead to it from an external function that does not lock;
  `Lock.BodiesHeldExactly` proves this and `Lock.InternalBodyUnlocked` is such a contract.
- Printed signatures determine name and types even if the name contains parentheses.

## Model

| member | source | states |
|---|---|---|
| AbiTypes.StaticSizeDefined | ABI/Types.lean:175-190 | a type has a static size exactly when it is not dynamic, and static sizes are whole words |
| AbiTypes.DynamicExactly | ABI/Types.lean:163-173 | a type is dynamic exactly if a byte string, a string or a dynamic array stands in it, through fixed arrays and tuples |
| AbiTypes.HeadSizeDefined | ABI/Types.lean:192-205 | every tuple has a head size of whole words, which for static members is their static size |
| AbiRoundTrip.RoundTripWord | ABI/Decode.lean:113-212 | every encodable word value, signed and unsigned integers of all widths included, decodes to itself in every mode |
| AbiWords.EncodesWhatItMeans | ABI/Encode.lean:33-57 | a word encodes a value if and only if it is the value's number, two's complement for signed integers, in the type's range |
| AbiWords.StrictWord | ABI/Decode.lean:113-212 | every decoder but the legacy one accepts exactly the words that mean a value of the type, each as that value |
| AbiWords.LegacyCleans | ABI/Decode.lean:113-212 | the legacy decoder accepts every word: a bool is true exactly if the word is not 0, and any other value is one of its type whose word agrees with the word read modulo 2^bits, 2^160 for addresses |
| AbiWords.LegacyInteger | ABI/Decode.lean:168-211 | an unsigned integer is the word modulo 2^bits, a signed one the number of its range congruent to it |
| AbiWords.LegacyUnique | ABI/Decode.lean:113-212 | no other value of the type has a word that agrees with the word read |
| AbiWords.LegacyElement | ABI/Decode.lean:244-247 | such an element is decoded whenever its 32 bytes are in the input |
| AbiWords.FixedBytesElement | ABI/Decode.lean:219-238 | bytesN keeps the first N bytes; all but the legacy decoder demand zeros after them |
| AbiWords.OtherElements | ABI/Decode.lean:240-243 | function references are 24 bytes whose padding every decoder checks, and fixed-point types do not decode |
| AbiWords.RawBoolWords | ABI/Decode.lean:75-85 | the elements of a bool array are all its words, unchecked, exactly if they are in the input |
| AbiWords.AddressWords | ABI/Decode.lean:87-107 | the elements of an address array are the addresses among its words and the other words as they are |
| AbiWords.DeferredArrays | ABI/Decode.lean:281-297 | so decode dynamic arrays of bools in every mode, and of addresses in the 0.8.15 mode, under their length word |
| AbiWords.BytesExactly | ABI/Decode.lean:263-282 | byte strings decode exactly if their length is at most 2^64 - 1, 2^32 in legacy mode, and they lie in the input; they end at a whole word |
| AbiWords.TooManyElements | ABI/Decode.lean:283-288 | arrays longer than that are rejected |
| AbiWords.ElementAtOffset | ABI/Decode.lean:324-340 | an array element is decoded at its offset from the first one, modulo 2^256 but for the legacy and Vyper decoders; only the legacy one caps the offset |
| AbiWords.MemberAtOffset | ABI/Decode.lean:342-368 | a dynamic tuple member is decoded at its capped offset from the start of the tuple |
| AbiRoundTrip.RoundTripBytes | ABI/Encode.lean:84-95 | bytes and strings decode to themselves with the padded end offset, exactly when the length is within the mode's cap |
| AbiRoundTrip.RoundTripRawBools | ABI/Decode.lean:75-85 | elements of dynamic bool arrays come back in raw-word form |
| AbiRoundTrip.RoundTripAddresses | ABI/Decode.lean:92-105 | address arrays decode, in the 0.8.15 mode, to the canonical elements |
| AbiRoundTrip.RoundTripDynamicElems | ABI/Decode.lean:318-340 | offset-addressed array elements written by the encoder decode to the canonical elements and the exact end, exactly within the caps |
| AbiRoundTrip.RoundTripFields | ABI/Encode.lean:136-158 | head and tail of a tuple, from any point of the encoder's accumulators, decode to the canonical fields and the exact end, exactly within the caps |
| AbiRoundTrip.RoundTripValue | ABI/Decode.lean:215-302 | for every nested type, value, surrounding bytes and mode, decoding at the encoding's start gives the canonical value and the exact end if lengths and offsets are within the mode's caps and rejects otherwise |
| AbiStatic.StaticCanonical | ABI/Decode.lean:215-316 | successful static decoding ends one stride later, and encoding the value reproduces the bytes read |
| AbiStatic.StaticDecodingIsEncoding | ABI/Decode.lean:215-316 | on every window, static decoding gives a value if and only if the window is the value's encoding |
| AbiStatic.StaticDecodingInjective | ABI/Decode.lean:342-368 | no two byte strings decode to the same static value, even in different modes |
| AbiStatic.StaticTransparent | ABI/Encode.lean:59-107 | encodable static values are their own canonical form and meet every cap |
| AbiModes.BeyondInput | ABI/Decode.lean:318-340 | past the end of the input only an array of no elements decodes |
| AbiModes.ModeRefines | ABI/Decode.lean:31-44 | a Vyper success is a modern success, and a modern success a 0.8.15 success, with the same value, although they wrap nested offsets differently |
| AbiModes.FieldsRefine | ABI/Decode.lean:342-368 | the same for tuples, whatever end offsets they have accumulated |
| AbiPlans.PlanRoundTrip | ABI/Decode.lean:474-515 | every plan, with references, copies and deferred errors, decodes an encoding to what the plan makes of the value: a function of value and plan in which only lengths and the offsets of copied parts have caps |
| AbiPlans.PlanFields | ABI/Decode.lean:536-552 | the same for the fields of a tuple from any point of the encoder's accumulators |
| AbiPlanPaths.PlanFollowsPath | ABI/Decode.lean:410-419 | at any depth a part is copied exactly if a path to it or to what holds it is listed, and deferred exactly if its own path is |
| AbiPlanPaths.FieldPlansAt | ABI/Decode.lean:410-419 | the members of a tuple are decoded under the plans at their own paths |
| AbiPlanPaths.FieldStep | ABI/Decode.lean:536-552 | a field that fails to decode becomes the marker if its path is deferred and fails the whole otherwise; a field without a plan is copied |
| AbiPlanPaths.ElementStep | ABI/Decode.lean:517-534 | so does an array element, deferred if the path of elements is |
| AbiPlanPaths.ArrayByElements | ABI/Decode.lean:474-515 | a fixed array inside the input is decoded element by element if its elements are dynamic or a part of them is deferred |
| AbiPlanPaths.DynamicArrayByElements | ABI/Decode.lean:474-515 | so is a dynamic array behind its length |
| AbiPlanPaths.LoadedByte | ABI/Decode.lean:434-437 | reading past the end of the input gives zeros, from an address that wraps |
| AbiPlanPaths.TargetInBounds | ABI/Decode.lean:455-466 | a reference is followed exactly if its signed offset leaves room for the head of its target, a copy exactly if its offset is below 2^64, both to the sum modulo 2^256 |
| AbiPlanPaths.ExtentInBounds | ABI/Decode.lean:468-473 | a length is in bounds exactly if what it counts ends within the input |
| AbiPlanPaths.AggregatesInBounds | ABI/Decode.lean:474-515 | tuples and fixed arrays that are copied or stand in a head are rejected past the end of the input |
| AbiPlanCaps.PlansAgree | ABI/Decode.lean:474-515 | within caps of 2^64 - 1 on lengths and offsets every plan makes the canonical value of a value |
| AbiPlanCaps.PlansExactly | ABI/Decode.lean:457-515 | a plan that copies everything, or references everything, makes the canonical value exactly within its caps, which for references are on lengths only, and rejects otherwise |
| AbiStrict.EagerIsStrict | ABI/Decode.lean:408-515 | what a copying plan accepts lies within the input, and the reference decoder and every plan accept it with the same value |
| AbiStrict.EagerFields | ABI/Decode.lean:536-552 | the same for the fields of a tuple |
| AbiLegacy.LegacyAccepts | ABI/Decode.lean:31-44 | on inputs of at most 2^32 bytes and types without empty arrays or tuples, a Vyper success is a success of the legacy 0.5 decoder, with the same value and end |
| AbiCalls.CallRoundTrip | ABI/Decode.lean:578-661 | decoding an encoded call stores the canonical arguments exactly when lengths and offsets are within the mode's caps |
| AbiCalls.InsertedExactly | ABI/Decode.lean:571-661 | every name is bound to its value, the last of a repeated name, and nothing else; the numbers of both must agree |
| AbiCalls.HugeCalls | ABI/Decode.lean:571-661 | calls of 2^255 bytes are rejected by the modern and the 0.8.15 decoder, whose sizes are signed words, and by no other for that |
| AbiCalls.TableDecides | ABI/Decode.lean:554-564 | the arguments are decoded under the plans of the first table entry for the call's selector, under none if there is no such entry |
| AbiCalls.UnlistedIsDefault | ABI/Decode.lean:554-564 | a call whose selector is not listed decodes as without a table |
| AbiCalls.OtherEntriesDoNotMatter | ABI/Decode.lean:554-564 | an entry for another selector makes no difference, wherever it stands |
| AbiCalls.PlannedCallRoundTrip | ABI/Decode.lean:554-564 | under every plan table an encoded call decodes to what the plans listed for its selector make of its arguments: within the caps to the canonical arguments, whatever the table, and beyond them to nothing if all arguments are copied |
| AbiCalls.ReturnRoundTrip | ABI/Decode.lean:663-694 | in every mode, the copying one included, encoded return values decode to their canonical forms exactly when lengths and offsets are within the mode's caps |
| AbiCalls.ReturnModes | ABI/Decode.lean:663-694 | return data decodes in the 0.8.15 mode as in the modern one, under no plan in the copying one, and 2^255 bytes are rejected |
| AbiCalls.CanonHasNoMarker | ABI/Decode.lean:423-427 | neither encodable nor canonical values contain the deferred-failure marker |
| AbiCalls.CopiedCallIsStrict | ABI/Decode.lean:554-564 | calldata accepted when every argument is copied gives the same arguments under every plan table |
| AbiCalls.ReturnDecodersOrdered | ABI/Decode.lean:566-569 | return data accepted by the copying decoder is accepted by Vyper's, and what that accepts by the modern one, with equal values |
| Signature.TypeNameInjective | ABI/Signature.lean:22-36 | printed type names determine the type, through tuples, arrays and numeric suffixes |
| Signature.PrintSignatureInjective | ABI/Signature.lean:38-40 | printed signatures determine the name and the parameter types, for all names |
| Signature.DecimalReads | ABI/Signature.lean:14-20 | a printed number reads back as itself and has no leading zero |
| Signature.ElementaryNames | ABI/Signature.lean:14-28 | uint256, int8, address, bool, function, bytes4, fixed128x18 and ufixed128x18 are printed as these |
| Signature.ComposedNames | ABI/Signature.lean:30-36 | arrays are their item followed by brackets, tuples their members in parentheses |
| Bytecode.Disassemble | scripts/generate_rd_blocks.py:194-207 | the scan yields the instruction stream of the code |
| Bytecode.StreamTiles | scripts/generate_rd_blocks.py:194-207 | instructions tile the code, each decoded from its own bytes, at increasing pcs |
| Bytecode.ScanJumpDests | scripts/evm_tools.py:38-49 | the separate scan yields the jump destinations |
| Bytecode.JumpDestsAreInstructions | scripts/evm_tools.py:38-49 | a pc is a jump destination exactly if the disassembler has a JUMPDEST instruction there |
| Stability.PayloadStarts | scripts/generate_rd_blocks.py:138-159 | the payload table lists exactly the payloads of complete PUSH20 and PUSH32 instructions |
| Stability.ValidateImmutableSites | scripts/generate_rd_blocks.py:138-159 | a layout is accepted exactly if its sites are good and distinct, the returned map is the layout, and overlap is never reported |
| Stability.PayloadsAreDisjoint | scripts/generate_rd_blocks.py:138-159 | two distinct payloads of a stream never overlap |
| Stability.PatchKeepsStream | scripts/generate_rd_blocks.py:138-159 | patching any words into accepted sites keeps every pc, opcode, width and jump destination |
| Stability.PatchedArgument | scripts/generate_rd_blocks.py:194-207 | a patched push pushes its word's low bytes, every other push is unchanged |
| Stability.AppendKeepsStream | scripts/generate_rd_blocks.py:194-207 | appending bytes keeps every complete instruction and every jump destination of the code |
| Blocks.BlockStarts | scripts/generate_rd_blocks.py:210-231 | a block starts exactly at the first instruction, at a JUMPDEST and after a terminator |
| Blocks.BasicBlocks | scripts/generate_rd_blocks.py:210-231 | blocks concatenate back to the instructions, are entered only first and left only last, and are as long as that allows |
| Blocks.CopiesAreDisjoint | scripts/generate_rd_blocks.py:80-88 | two full return-data copies never share an instruction |
| Blocks.SupportedSegments | scripts/generate_rd_blocks.py:472-486 | maximal supported runs and unsupported instructions concatenate back to the block and cut no full copy |
| Blocks.BoundRun | scripts/generate_rd_blocks.py:489-513 | parts concatenate back to the run, have at most the bound or four instructions, cut no full copy, and are as long as that allows |
| Blocks.BoundedSupportedSegments | scripts/generate_rd_blocks.py:489-513 | the same for whole blocks, of runs that another run follows; only a bound that is not positive is refused |
| StackShapes.RequiredInputDepth | scripts/generate_rd_blocks.py:451-458 | the computed depth is the least one at which no instruction underflows |
| StackShapes.RequiredDepthIsLeast | scripts/generate_rd_blocks.py:413-458 | a depth avoids underflow if and only if it is at least the required one |
| StackShapes.MaxPrefixIsExact | scripts/generate_rd_blocks.py:955-990 | a rest of the stack fits within 1024 if and only if every intermediate stack does |
| Machine.ClassifyMatchesShapes | scripts/generate_rd_blocks.py:413-448 | the machine's operations are exactly the opcodes of the shape table, with its depths and height changes |
| WordLaws.AddSubModulo | scripts/generate_rd_blocks.py:516-520 | addition and subtraction are those of integers modulo 2^256 |
| WordLaws.DivisionExact | scripts/generate_rd_blocks.py:520-522 | unsigned quotient and remainder, both 0 for a divisor of 0 |
| WordLaws.SignedDivisionExact | scripts/generate_rd_blocks.py:521 | signed division truncates towards zero, and the quotient that does not fit is the dividend |
| WordLaws.ModularExact | scripts/generate_rd_blocks.py:727-731 | ADDMOD and MULMOD take the remainder before anything wraps |
| WordLaws.SignedExact | scripts/generate_rd_blocks.py:526-527 | the signed reading of a word is the integer of [-2^255, 2^255) congruent to it |
| WordLaws.PowerAdds | scripts/generate_rd_blocks.py:523 | exponents add, and an exponent of 1 gives the base |
| WordLaws.ShiftsExact | scripts/generate_rd_blocks.py:532-536 | shifts by any distance multiply modulo 2^256, divide, and divide the signed reading rounding down |
| WordLaws.AndBitwise | scripts/generate_rd_blocks.py:529 | a bit of the conjunction is set exactly if it is set in both operands |
| WordLaws.OrBitwise | scripts/generate_rd_blocks.py:530 | a bit of the disjunction is set exactly if it is set in one of them |
| WordLaws.XorBitwise | scripts/generate_rd_blocks.py:531 | a bit of the exclusive disjunction is set exactly if it differs |
| WordLaws.ByteExact | scripts/generate_rd_blocks.py:535 | BYTE gives byte i of the big-endian encoding, 0 past the last |
| WordLaws.SignExtendExact | scripts/generate_rd_blocks.py:534 | sign extension gives the number with the low bytes as its signed reading |
| WordLaws.WriteByte | scripts/generate_rd_blocks.py:764-823 | a write changes exactly the bytes of its window, to the source's bytes or 0, and memory grows to hold it |
| WordLaws.LoadExact | scripts/generate_rd_blocks.py:756-763 | a load is the word of the 32 bytes at its address, zeros past the end |
| WordLaws.LoadStored | scripts/generate_rd_blocks.py:756-771 | a stored word is loaded, and a store elsewhere does not change a load |
| WordLaws.TouchLeast | scripts/generate_rd_blocks.py:756-805 | the active words after touching a window are the fewest that cover it and what was active |
| Opcodes.PushSteps | scripts/generate_rd_blocks.py:685-703 | PUSHn pushes the n bytes that follow it, most significant first |
| Opcodes.DupSteps | scripts/generate_rd_blocks.py:704-708 | DUPn copies the n-th word |
| Opcodes.SwapSteps | scripts/generate_rd_blocks.py:709-714 | SWAPn exchanges the top with the n-th word below it |
| Opcodes.PopSteps | scripts/generate_rd_blocks.py:732-734 | POP drops a word, for 2 gas |
| Opcodes.JumpDestSteps | scripts/generate_rd_blocks.py:878-879 | JUMPDEST does nothing, for 1 gas |
| Opcodes.ArithmeticSteps | scripts/generate_rd_blocks.py:516-548 | 0x01 to 0x06, 0x0A and 0x0B: result, operands and price of each |
| Opcodes.ComparisonSteps | scripts/generate_rd_blocks.py:516-548 | 0x10 to 0x14: which comparison each makes |
| Opcodes.BitSteps | scripts/generate_rd_blocks.py:516-548 | 0x16 to 0x18 and 0x1A to 0x1D: which operation each is, shifts taking the distance on top |
| Opcodes.UnarySteps | scripts/generate_rd_blocks.py:719-755 | ISZERO, NOT, CALLDATALOAD and BLOCKHASH |
| Opcodes.TernarySteps | scripts/generate_rd_blocks.py:727-731 | 0x08 adds and 0x09 multiplies, both modulo the third operand |
| Opcodes.CallerSteps | scripts/generate_rd_blocks.py:735-743 | which word of the call or size of its data each of six opcodes pushes |
| Opcodes.HeaderSteps | scripts/generate_rd_blocks.py:744-751 | which word of the block header each of six opcodes pushes |
| Opcodes.GasSteps | scripts/generate_rd_blocks.py:859-877 | GAS pushes what is left once its own price is paid |
| Opcodes.LoadSteps | scripts/generate_rd_blocks.py:756-763 | MLOAD loads a word, touches 32 bytes and pays for them |
| Opcodes.KeccakSteps | scripts/generate_rd_blocks.py:778-786 | KECCAK256 hashes its window and pays for its words |
| Opcodes.StoreSteps | scripts/generate_rd_blocks.py:764-771 | 0x52 writes the 32 bytes of a word |
| Opcodes.StoreByteSteps | scripts/generate_rd_blocks.py:772-777 | 0x53 writes its last byte |
| Opcodes.CallDataCopySteps | scripts/generate_rd_blocks.py:787-798 | 0x37 copies from the calldata |
| Opcodes.CodeCopySteps | scripts/generate_rd_blocks.py:787-798 | 0x39 copies from the code |
| Opcodes.ReturnDataCopySteps | scripts/generate_rd_blocks.py:806-823 | 0x3E copies from the return data and faults past its end |
| Opcodes.MemoryCopySteps | scripts/generate_rd_blocks.py:799-805 | 0x5E copies within memory and touches the farther range |
| Opcodes.LogSteps | scripts/generate_rd_blocks.py:920-934 | LOGn takes its topics, needs a call that may write and pays for data and topics |
| Opcodes.StorageLoadSteps | scripts/generate_rd_blocks.py:824-828 | 0x54 reads the storage |
| Opcodes.StorageStoreSteps | scripts/generate_rd_blocks.py:829-834 | 0x55 writes the storage in a call that may write |
| Opcodes.TransientLoadSteps | scripts/generate_rd_blocks.py:835-838 | 0x5C reads the transient storage, for 100 gas |
| Opcodes.TransientStoreSteps | scripts/generate_rd_blocks.py:839-843 | 0x5D writes the transient storage in a call that may write |
| Opcodes.AccountSteps | scripts/generate_rd_blocks.py:844-854 | BALANCE, EXTCODESIZE and EXTCODEHASH ask for the account's word under their own opcode |
| Opcodes.JumpSteps | scripts/generate_rd_blocks.py:880-884 | 0x56 goes to its operand, which must be a jump destination |
| Opcodes.JumpIfSteps | scripts/generate_rd_blocks.py:885-898 | 0x57 does so if its condition is not 0, and goes on otherwise |
| Opcodes.StopSteps | scripts/generate_rd_blocks.py:899-906 | STOP returns no bytes, INVALID fails |
| Opcodes.ReturnSteps | scripts/generate_rd_blocks.py:907-919 | 0xF3 returns its window of memory and the account map |
| Opcodes.RevertSteps | scripts/generate_rd_blocks.py:907-919 | 0xFD reverts |
| Opcodes.OtherOpcodesFault | scripts/generate_rd_blocks.py:935-936 | every other opcode faults |
| Symbolic.FullCopyPcs | scripts/generate_rd_blocks.py:611-614 | the marked pcs are those of the recognised full copies |
| Symbolic.Simulate | scripts/generate_rd_blocks.py:586-961 | the loop computes the summary: symbolic execution from a fresh entry of the required depth |
| OpcodeSummaries.PushAdds | scripts/generate_rd_blocks.py:685-703 | constants push themselves, the push of an immutable site its word |
| OpcodeSummaries.SwapAdds | scripts/generate_rd_blocks.py:709-714 | SWAPn exchanges two terms |
| OpcodeSummaries.ArithmeticAdds | scripts/generate_rd_blocks.py:516-548 | which term and cost each of 0x01 to 0x06, 0x0A and 0x0B adds |
| OpcodeSummaries.ComparisonAdds | scripts/generate_rd_blocks.py:516-548 | which term each comparison adds |
| OpcodeSummaries.BitAdds | scripts/generate_rd_blocks.py:516-548 | which term each bit operation adds, shifts taking the value first |
| OpcodeSummaries.GasAdds | scripts/generate_rd_blocks.py:859-877 | GAS adds the accumulated cost, or a fresh word once the cost is hidden |
| OpcodeSummaries.StoreAdds | scripts/generate_rd_blocks.py:764-771 | 0x52 adds a write of a word |
| OpcodeSummaries.CallDataCopyAdds | scripts/generate_rd_blocks.py:787-798 | 0x37 adds a copy of calldata |
| OpcodeSummaries.CodeCopyAdds | scripts/generate_rd_blocks.py:787-798 | 0x39 adds a copy of code |
| OpcodeSummaries.ReturnDataCopyAdds | scripts/generate_rd_blocks.py:806-823 | 0x3E adds a copy of return data, and its bounds unless it is a recognised full copy |
| OpcodeSummaries.FullCopyRecognised | scripts/generate_rd_blocks.py:80-88 | RETURNDATASIZE, a zero, a zero or DUP1 and RETURNDATACOPY add no condition |
| OpcodeSummaries.StorageLoadAdds | scripts/generate_rd_blocks.py:824-828 | 0x54 adds a read of the storage and hides the cost |
| OpcodeSummaries.StorageStoreAdds | scripts/generate_rd_blocks.py:829-834 | 0x55 adds a write of the storage and the condition that the call may write |
| OpcodeSummaries.TransientStoreAdds | scripts/generate_rd_blocks.py:839-843 | 0x5D adds a write of the transient storage and the same condition |
| OpcodeSummaries.JumpIfTaken | scripts/generate_rd_blocks.py:885-898 | a taken JUMPI adds that its condition is not 0 and its target a jump destination |
| OpcodeSummaries.JumpIfNotTaken | scripts/generate_rd_blocks.py:885-898 | a JUMPI not taken adds that its condition is 0 |
| OpcodeSummaries.ReturnEnds | scripts/generate_rd_blocks.py:907-919 | 0xF3 ends a summary with the window of memory, 0xFD with a revert |
| OpcodeSummaries.TerminalOfSummary | scripts/generate_rd_blocks.py:899-919 | a summary's ending is that of the last opcode of its block, and there is none for other opcodes |
| OpcodeSummaries.EmptyReturn | scripts/generate_rd_blocks.py:907-919 | PUSH0 PUSH0 RETURN is summarised as returning no bytes |
| SymSound.ResultDenotes | scripts/generate_rd_blocks.py:668-936 | every pushed term denotes the word the machine pushes, the remaining gas included |
| SymSound.CostDenotes | scripts/generate_rd_blocks.py:938-948 | the appended costs are the operation's price, outside warm and cold operations |
| SymSound.HypsDenote | scripts/generate_rd_blocks.py:616-652 | an operation's side conditions hold exactly if it does not fault and goes the summary's way |
| SymSound.StepSound | scripts/generate_rd_blocks.py:655-957 | one symbolic step and one concrete step agree, and the step faults exactly if its conditions fail |
| SymSound.RunSound | scripts/generate_rd_blocks.py:655-957 | from any instruction of a block, the side conditions and the promised outcome correspond |
| SymSound.SummarySound | scripts/generate_rd_blocks.py:586-961 | from every instantiating state, the conditions give the evaluated stack, memory, active words, account map, pc and gas or the stated halt, and every run without fault meets them or took the other branch |
| OpcodeSummaries.SummaryHalts | scripts/generate_rd_blocks.py:899-961 | where the conditions hold and gas suffices, a block ending in 0x00, 0xF3, 0xFD or 0xFE halts as its summary says: with the account map and the window of memory before that opcode, reverting, or failing; any other block goes on |
| SymSound.BranchesComplement | scripts/generate_rd_blocks.py:895-911 | the two summaries of a conditional jump differ only in pc and in requiring one term to be nonzero or zero |
| SymSound.OneBranchApplies | scripts/generate_rd_blocks.py:895-911 | never both, and for every run without fault one of the two summaries applies |
| SymBlocks.SummaryExists | scripts/generate_rd_blocks.py:586-961 | every supported block has a summary, and its stack bound is the block's exact one |
| SymBlocks.ExistentialExactly | scripts/generate_rd_blocks.py:824-858 | a summary hides its gas exactly if the block has a warm or cold operation |
| SymBlocks.BlockPlaced | scripts/generate_rd_blocks.py:138-159 | a block of a template is, with its sites filled in, a block of the patched and extended code |
| SymBlocks.NoSiteFromZero | scripts/generate_rd_blocks.py:806-823 | without an immutable site in its zeros a full copy starts at offset zero |
| SymBlocks.OmittedCheckIsExact | scripts/generate_rd_blocks.py:806-823 | the bounds check a full copy omits holds exactly if the word pushed as its offset is zero |
| Substitution.SubstDenotes | scripts/proof_skeleton.py:672-675 | a term with a symbolic state substituted, account map and cost included, means the term at the entry state the substitution denotes |
| Substitution.SameExactly | scripts/proof_skeleton.py:688-698 | leaving out the account map and the cost makes no difference to a term exactly if it reads neither a changed map nor a counter already spent from |
| Composition.StepLifts | scripts/generate_rd_blocks.py:655-957 | executing an instruction, a store included, on a substituted state is substituting into its result |
| Composition.ApplyIsRun | scripts/proof_skeleton.py:688-698 | applying a block's summary gives the stack, memory and active words of executing the block if and only if they read neither a map stored to before nor a gas counter spent from before |
| Composition.PathIsRight | scripts/proof_skeleton.py:769-808 | along a path of pieces composition is right after every piece if and only if no piece's summary reads a map an earlier piece stored to or a counter an earlier piece spent from |
| Composition.CuttingKeepsResult | scripts/generate_rd_blocks.py:489-513 | however a block is cut, as long as the pieces meet that condition, their summaries applied in turn give what the block's summary gives |
| Composition.LoadAfterStore | scripts/proof_skeleton.py:672-698 | a load composed with an earlier store gives the entry word, which is the loaded word exactly if the slots differ or the stored word was there before |
| Dispatcher.Execute | scripts/proof_skeleton.py:526-610 | the loop over a piece computes its abstract execution |
| Dispatcher.RunPath | scripts/proof_skeleton.py:502-524 | the loop computes the path of at most 200 pieces to the stop, a terminator or a fork |
| Dispatcher.RunWithDecisions | scripts/proof_skeleton.py:940-961 | the loop computes the path of at most 300 pieces along the recorded decisions |
| DispatchPieces.BuildPieces | scripts/proof_skeleton.py:474-484 | splitting the code yields a table of pieces as the analysis needs them: each instruction the code's own, every supported instruction in a piece, pieces of at most 64 instructions and as long as that allows |
| DispatchPieces.DeployedDispatcherSound | scripts/proof_skeleton.py:467-484 | the analysis of the pieces of a code without its metadata, checked once against that code, is right for every call to the code with its metadata |
| DispatchSound.CompareSound | scripts/proof_skeleton.py:612-652 | a decided comparison has the concrete comparison's value |
| DispatchSound.BigAnswersExact | scripts/proof_skeleton.py:620-631 | an answer about a size of at least 4 is right for all such sizes exactly if it does not test for strictly more than 4 |
| DispatchSound.BigUndecidedRightly | scripts/proof_skeleton.py:620-631 | for a constant up to 4 the analysis gives up only where sizes of at least 4 compare differently |
| DispatchSound.NoMatchAnswerExact | scripts/proof_skeleton.py:637-642 | the analysis' answer to comparing an unmatched selector with a constant, on either side, is the concrete EQ of every unmatched call exactly if the constant is a table selector or no selector |
| DispatchComplete.KnownCompared | scripts/proof_skeleton.py:614-615 | two known numbers are always compared, and rightly |
| DispatchComplete.ComparedExactly | scripts/proof_skeleton.py:612-652 | a comparison is answered exactly if one operand is a number and the other is a number, an unmatched selector, a size of at least 4 against less than 4, or against 4 but for equality, or a smaller size against 4 |
| DispatchComplete.BigCompared | scripts/proof_skeleton.py:620-631 | the answers for a size of at least 4 |
| DispatchComplete.SmallCompared | scripts/proof_skeleton.py:632-636 | the answers for a size below 4 |
| DispatchComplete.UnmatchedCompared | scripts/proof_skeleton.py:637-642 | an unmatched selector equals no constant, and splits the path where it is ordered against one |
| DispatchSound.SelectorTaken | scripts/proof_skeleton.py:550-556 | shifting right by 224 and dividing by 2^224 both give the selector |
| DispatchSound.StepSound | scripts/proof_skeleton.py:526-610 | one instruction: the concrete step does what the abstract one says |
| DispatchComplete.PushSteps | scripts/proof_skeleton.py:526-546 | what pushes, POP and JUMPDEST do to the abstract stack |
| DispatchComplete.CallSteps | scripts/proof_skeleton.py:543-549 | what is known of call value, calldata size and the first calldata word |
| DispatchComplete.SelectorSteps | scripts/proof_skeleton.py:550-567 | where the selector is recognised: shifted down, divided or masked |
| DispatchComplete.TestSteps | scripts/proof_skeleton.py:568-578 | ISZERO decides numbers and a nonzero call value; comparisons answer or give up |
| DispatchComplete.JumpSteps | scripts/proof_skeleton.py:583-601 | jumps go to known destinations, conditional ones by known conditions, and split at a pivot |
| DispatchComplete.OtherSteps | scripts/proof_skeleton.py:579-609 | every other supported opcode takes its operands and leaves an unknown word where it leaves one |
| DispatchComplete.StuckExactly | scripts/proof_skeleton.py:526-610 | the analysis gives up exactly at an unsupported opcode, where operands are missing, at a jump with unknown destination or condition, and at a comparison it does not answer |
| DispatchSound.PieceSound | scripts/proof_skeleton.py:526-610 | one piece: branch, next pc and stack are those of the concrete execution |
| DispatchComplete.PathErrorExactly | scripts/proof_skeleton.py:526-610 | a piece has no execution if and only if the analysis gives up at an instruction it reaches |
| DispatchSound.PathSound | scripts/proof_skeleton.py:502-524 | from any abstract state, concrete executions take exactly the listed pieces and branches |
| DispatchComplete.NoPathExactly | scripts/proof_skeleton.py:502-524 | there is no path if and only if the analysis exceeds its bound or comes to a pc without a piece or to a piece without an execution |
| DispatchComplete.ArrivalFound | scripts/proof_skeleton.py:502-524 | a path that arrives at the stop, a terminator or an open pivot within the bound is found |
| DispatchComplete.PathBounds | scripts/proof_skeleton.py:502-524 | the bounds are 200 pieces for a path and 300 for a replay, both inclusive |
| DispatchSound.DispatcherSound | scripts/proof_skeleton.py:502-652 | every execution of a call of the class takes exactly the listed pieces and branches and then halts, reaches the stop or is at the listed fork |
| DispatchComplete.SelectorTested | scripts/proof_skeleton.py:526-610 | the test for a selector jumps in the class of exactly that selector |
| DispatchComplete.ListedSelectorFollowed | scripts/proof_skeleton.py:502-524 | the call of a listed selector is followed into its function and to its end |
| DispatchRuns.ListedSelectorRuns | scripts/proof_skeleton.py:502-652 | every call of that selector, whatever its value and arguments, takes this path on the machine and halts at its end, unless it faults or runs out of gas |
| ForkTree.FollowConsumes | scripts/proof_skeleton.py:940-961 | every used decision consumes a visited piece, so there are fewer than the step bound |
| ForkTree.FollowResumes | scripts/proof_skeleton.py:940-961 | replaying a path's decisions and one more repeats the path and goes on from its fork |
| ForkTree.BuildTree | scripts/proof_skeleton.py:908-938 | the recursion ends and computes the case tree |
| ForkTree.LeavesReplay | scripts/proof_skeleton.py:908-938 | a leaf's decisions replay to the leaf's path, which ends in a revert |
| ForkTree.NoTreeExactly | scripts/proof_skeleton.py:908-938 | there is no case tree if and only if some decisions at its forks lead to no path or to an end other than a revert |
| LeafReverts.LeafReverts | scripts/proof_skeleton.py:908-938 | an execution that follows a leaf to its end reverts there, unless it faults or runs out of gas |
| ForkTree.SomeLeaf | scripts/proof_skeleton.py:908-938 | every call of the class follows some leaf as far as it gets |
| ForkTree.OneLeaf | scripts/proof_skeleton.py:908-938 | no call follows two leaves to their ends |
| ForkTree.UnmatchedFollowsOneLeaf | scripts/proof_skeleton.py:908-938 | an unmatched call that neither faults nor runs out of gas follows exactly one leaf, the one of its pivots' truth values |
| WritebackAnalysis.InPlaceExactly | scripts/sol2stele.py:859-899 | a name is written in place exactly if some statement of the body assigns a member of it or passes a path of it to a parameter written back |
| WritebackAnalysis.ReboundExactly | scripts/sol2stele.py:859-899 | a name is rebound exactly if some statement of the body assigns the name itself, names another object by it or binds it to a result |
| WritebackAnalysis.AliasesExactly | scripts/sol2stele.py:874-895 | a name is a second name exactly if some statement binds it alone to a path of a memory parameter |
| WritebackAnalysis.MemoryEffects | scripts/sol2stele.py:850-907 | one walk finds the memory parameters some statement writes in place, whether one of them is also rebound, and whether a second name that is no parameter is written in place |
| WritebackAnalysis.MemoryWritebacks | scripts/sol2stele.py:834-848 | the iteration ends in every order with the same result: a parameter is listed exactly if there is a chain of calls, each a statement of its function's body that passes a path of the parameter, to a function with an assignment to a member of the last one |
| WritebackAnalysis.OnlyReadIsNotListed | scripts/sol2stele.py:834-907 | a parameter whose members no statement assigns and which no statement passes on is not listed, whatever reads it |
| WritebackAnalysis.AnalysisFits | scripts/sol2stele.py:900-907 | without the reassignment pattern, and with written objects under one name, the result is what the translation needs |
| MemoryLang.Evaluates | scripts/sol2stele.py:805-811 | reading gives the numbers below the path in the name's object, zero where nothing was set, and operators are applied to their arguments in order |
| MemoryLang.SetReplaces | scripts/sol2stele.py:805-811 | a write replaces what is below its path and nothing else |
| MemoryLang.Conditions | scripts/sol2stele.py:805-811 | by reference, zero is false in branches, loops and requirements |
| MemoryCopy.CopyConditions | scripts/sol2stele.py:805-811 | by copy likewise |
| WritebackFrames.WriteKeeps | scripts/sol2stele.py:805-811 | a write through a shared object is the same write to the one name's copy |
| WritebackFrames.EnterKeeps | scripts/sol2stele.py:909-921 | the copies passed to a translated function are what its names denote by reference |
| WritebackReturns.ResultsHanded | scripts/sol2stele.py:1481-1499 | returned references denote what the returned copies are, and are parts of no parameter's object but those noted |
| WritebackReturns.BacksRun | scripts/sol2stele.py:930-949 | assigning the final values back, with calls in the paths made again, turns the caller's copies into what its shared objects have become |
| WritebackReturns.ResultsKeep | scripts/sol2stele.py:916-929 | after a call whose results may be parts of its arguments' objects, every object the caller writes still has one name |
| WritebackSound.ReturnedSimulates | scripts/sol2stele.py:1481-1499 | returning references and values gives the same results by copy, followed by the final values |
| WritebackSound.CallRuns | scripts/sol2stele.py:909-950 | a call whose arguments are apart at its state ends as its translation does, whatever the text of its paths |
| WritebackSound.Simulates | scripts/sol2stele.py:909-950 | every statement, with nested calls, recursion, returned references, loops, jumps and reverts, runs the same by reference and translated by copy |
| WritebackSound.WritebackPreserves | scripts/sol2stele.py:1607-1627 | a call by reference and its translation diverge and revert together, and return the same results followed by the final values of the modified objects |
| WritebackPlain.PlainPreserved | scripts/sol2stele.py:834-950 | of programs whose functions have at most one memory parameter each, bind no second names and return no references, this is so with what the analysis finds, and nothing else need be known of them |
| WritebackGap.OverlapIsLost | scripts/sol2stele.py:930-949 | for every call whose written-back argument overlaps another memory argument there is a function, modifying exactly the listed parameters, whose result is the written value by reference and the old value by copy |
| WritebackGap.CallsExactly | scripts/sol2stele.py:930-949 | at any state, a call is translated right for all functions of all programs that may modify the listed parameters if and only if its written-back arguments overlap no other memory argument there |
| WritebackGap.StaticCallsExactly | scripts/sol2stele.py:936-943 | for arguments that are paths of members this is so if and only if the call passes the condition the programs above are held to |
| WritebackGap.CheckSuffices | scripts/sol2stele.py:936-943 | the translator's text comparison is that condition if every memory argument is written back and is a path of members |
| WritebackGap.ReadArgumentMissed | scripts/sol2stele.py:936-943 | it accepts one object passed to a modified and to a read parameter, which is never translated right for all functions |
| WritebackGap.EqualIndicesMissed | scripts/sol2stele.py:936-943 | it accepts elements at differently written indices, which are translated right exactly if the indices differ |
| WritebackGap.OtherMemberPreserved | scripts/sol2stele.py:936-949 | an index read from another member of the object written back first does no harm |
| WritebackGap.MovedIndexMissed | scripts/sol2stele.py:936-949 | it accepts an argument whose index is a member written back before it; the two meanings agree exactly if the index stays or the values coincide |
| WritebackNames.AliasesExactly | scripts/sol2stele.py:874-879 | a second name for an object is translated right for all code writing under the given names if and only if neither name is among them |
| WritebackNames.AliasReportedExactly | scripts/sol2stele.py:874-906 | of these the analysis reports exactly a local name, bound alone and by a path to a memory parameter's object, and written under the local name |
| WritebackNames.LocalAliasMissed | scripts/sol2stele.py:874-906 | nothing is reported of a second name for a local variable's object, and a write under it is lost |
| WritebackNames.TupleAliasMissed | scripts/sol2stele.py:1325-1336 | the same of names bound by a tuple to memory parameters' objects |
| WritebackNames.ConditionalAliasMissed | scripts/sol2stele.py:471-475 | the same of a name bound by a conditional expression |
| WritebackNames.ReturnedExactly | scripts/sol2stele.py:909-929 | a reference to the caller's object that a function returns is translated right for all code writing under the given names if and only if neither the result's name nor the argument's is among them |
| WritebackNames.ReturnedAliasMissed | scripts/sol2stele.py:874-906 | nothing is written back for or reported of a function that writes through a returned reference to its parameter; by reference it returns the written value, by copy the old one |
| WritebackNames.ReturnedAliasExcluded | scripts/sol2stele.py:909-929 | the condition on programs, under which meaning is preserved, does not hold of it, whatever is noted of its functions |
| WritebackExtend.SameCopy | scripts/sol2stele.py:909-921 | what translated code does depends only on the functions it can reach |
| WritebackHoists.HoistedExactly | scripts/sol2stele.py:917-949 | a call with an internal call in its argument's path is translated right for all functions of all larger programs if and only if, whenever the inner call returns, making it again leaves the path and everything outside the part at it |
| WritebackEffects.HoistedNext | scripts/sol2stele.py:917-949 | `f(q[next(p)])` is translated right for all functions f if and only if stepping p's counter twice leaves what stepping it once leaves |
| WritebackEffects.CountedTwice | scripts/sol2stele.py:936-949 | with a counter that counts it is accepted and never translated right |
| WritebackEffects.GuardedExactly | scripts/sol2stele.py:471-513 | a call that is evaluated only under a condition, but made in any case, is translated right if and only if the condition holds or the call would return and change nothing |
| WritebackEffects.GuardedNext | scripts/sol2stele.py:502-513 | with a false condition and `next` this is so exactly if stepping leaves the counter as it is |
| WritebackEffects.ChainMissed | scripts/sol2stele.py:933-935 | `id(p).set()` writes p by reference and leaves it by copy; they agree exactly if the member had the value before |
| Lock.LockValues | scripts/vy2stele.py:1535-1537 | the locked and the unlocked value differ, and an unused slot is not locked |
| Lock.WrapperCases | scripts/vy2stele.py:1501-1590 | what is emitted, case by case: the bare body, a check for a view or pure function, and check, lock and release otherwise and for the fallback, with 1 and 0 in transient storage, 2 and 3 in storage |
| Lock.Translator.RenderFunction | scripts/vy2stele.py:1570-1590 | a nonreentrant function becomes the wrapper, its body is scheduled once, and the lock is recorded as used |
| Lock.Translator.RenderDefault | scripts/vy2stele.py:1778-1793 | a nonreentrant fallback function becomes the wrapper that always takes the lock, whatever its mutability, and its body is scheduled once |
| Lock.StepSafe | scripts/vy2stele.py:1570-1586 | every step of a run, re-entrant calls and reverts included, keeps the lock telling who is active, now and in every saved state |
| Lock.LockTellsWhoIsActive | scripts/vy2stele.py:1570-1586 | in every reachable state the lock is locked exactly while a locking wrapper is active, at most one is, and no transaction ends locked |
| Lock.NoneStartsMeanwhile | scripts/vy2stele.py:1570-1576 | a checked wrapper, view or not, passes its check exactly if no wrapper is active |
| Lock.BodiesHeldExactly | scripts/vy2stele.py:1036-1041 | locking functions' bodies run only under the lock, in all runs, if and only if no chain of internal calls leads from an external function that does not lock to one that does |
| Lock.InternalBodyUnlocked | scripts/vy2stele.py:1036-1041 | an external function without a lock that calls an internal nonreentrant one runs its body without the lock |
| Lock.NormalExitReleases | scripts/vy2stele.py:1577-1586 | when a locking wrapper returns, early from its body or not, the lock has its unlocked value |
| Lock.ReentryRejected | scripts/vy2stele.py:1570-1586 | a whole transaction: a locked body changes the state through an internal function, its re-entrant call is rejected and caught, and when it returns the change is kept and the lock is open |

## Left out

- Struct values other than the failure marker, and storage references, are never produced or consumed by the codec.
- Errors are one `None`; the texts and kinds of the Lean and Python errors are not distinguished.
- Layouts read from JSON: keys and sizes have their types; only the conditions on their values are modelled.
- Keccak, EXTCODEHASH, EXTCODESIZE, BALANCE, BLOCKHASH and the prices of warm and cold accesses are uninterpreted functions; other accounts are seen only through them.
- CALL, CREATE, SELFDESTRUCT and the other opcodes without a stack shape: they end a supported run in the code as in the model.
- SymSound.SummarySound: says nothing of the gas spent after a warm or cold operation, because the summary hides it there as well.
- AbiPlanPaths.TargetInBounds: and `ExtentInBounds` and `AggregatesInBounds` are for inputs and extents below 2^255, where the signed sizes of the decoder are the sizes.
- The `hstack` condition of a block of INVALID instructions only, and the numbering of `hguard` names, are data of the rendered text; conditions are compared as terms instead of names.
- Composition.ApplyIsRun: says nothing of a block that reads the gas counter after a warm or cold operation of an earlier piece, because the counter is then a name the summary leaves open, and is for blocks that do not halt, as a halting summary is never composed.
- DispatchSound.DispatcherSound: follows executions that fault or run out of gas only up to that point, and needs the comparisons it depends on to be right, which `PathOk` states piece by piece.
- The proof terms, lemma names and Lean text that the scripts write are not modelled.
- Buckets of Vyper's hashed dispatchers are easy variants of the path analysis.
- WritebackSound.Simulates: judges a program by its text and by a note for each function of the names and results that may share objects, so it does not cover programs whose argument paths differ only at run time; `WritebackSound.CallRuns` and `WritebackGap.CallsExactly` cover each of their calls.
- WritebackGap.CallsExactly: is for argument paths that, evaluated at the call, read no part written back before them; `WritebackGap.MovedIndexMissed` shows what happens to others.
- WritebackHoists.HoistedExactly: is for calls with one memory argument and hoisted calls that give no object a second name; calls with several such arguments are covered by `WritebackSound.Simulates` where the text shows that the hoisted calls can be made again.
- References stored inside objects: an object is a tree, so two members never share a part.
- WritebackSound.WritebackPreserves: claims nothing of programs that use undeclared names or return the wrong number of results, which the compiler excludes, nor of runs off the end of a function whose results are not all named, for which the translator emits no return.
- Internal calls in expressions stand in front of the statement, in the translator's order; Solidity leaves the order of evaluating operands open. A reference that one hoisted call returns and the next one modifies is assigned back to a temporary, where the translator skips the assignment.
- Storage references, calldata copies and external calls in Solidity bodies are other value arguments to the write-back translation.
- Modifiers are inlined before the body's own statements and are not separate statements of the small language; `for` loops are `while` loops with the update at the end of the body, so a `continue` inside one is not covered.
- The lock model lets a view function's body re-enter anything; static calls only remove such runs.
