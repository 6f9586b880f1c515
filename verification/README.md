# XLinSpeak in Dafny

XLinSpeak is an X-Plane plugin that detours the simulator's own speech functions and speaks their
texts through Piper or speech-dispatcher. This project models its core in Dafny and proves what that
core is for:

* a function that has been detoured still does what it did, but for one call of the callback;
* no text is lost in the queue between the simulator's thread and the speaking thread, except by the
  documented dropping of the oldest of 64, and both threads come to an end;
* the WAV header reader, the argument splitter, the symbol search and the listener lists compute what
  their simple descriptions say, on all inputs.

## Modules

| file | what it holds |
|---|---|
| `Options.dfy`, `Bytes.dfy` | values that may be missing; bytes, words, little-endian layout and its round trips |
| `Decoder.dfy`, `LengthGrammar.dfy` | the instruction measurer; instruction encodings in 64-bit mode, and where the two agree |
| `HookSpace.dfy` | instruction boundaries and the size of the entry that has to move |
| `Machine.dfy` | a small x86-64: registers, byte memory, a step function that fetches from bytes |
| `Detour.dfy` | the patching code on the bytes of a process, with its page protection |
| `Stub.dfy`, `Passage.dfy`, `Transparency.dfy` | running the patched code: entry, stub, callback, copied block, way back; the theorem |
| `HookedCall.dfy`, `Prologue.dfy` | from `hook` to the first call of the hooked function; the entry that is hooked in practice |
| `Fifo.dfy`, `SpeechQueue.dfy`, `WorkerProtocol.dfy` | the drop-oldest queue and its histories; the ring buffer on a heap; the two threads as a step system |
| `Tokens.dfy`, `Commands.dfy`, `Speech.dfy`, `Sessions.dfy` | the splitter, the argument vectors, the life of the service, and whole sessions of it |
| `Wav.dfy` | the RIFF/WAVE header reader over short and interrupted reads |
| `Removal.dfy`, `Observers.dfy`, `Registrations.dfy` | removal from a list during a round of notifications; broadcaster and listener; whole runs of them |
| `Symbols.dfy` | symbol tables in two layouts and the search for function addresses |

`dafny verify dfyconfig.toml` checks everything.

## How the detour theorem is put together

Memory is a sequence of bytes, and the machine fetches instructions from it. Lengths are those of the
processor (`LengthGrammar.Length64`, written from the Intel SDM), not those of the decoder under study.
`Length64` measures encodings of any length; the machine looks at 15 bytes and faults on anything longer.
The emitted forms, push and pop have concrete effects. The other opcodes of the decoder's table have an
effect that is a parameter (`Isa`); `LocalIsa` says what is asked of it: without a rip-relative operand
an instruction does the same wherever it stands, given the same registers and the same bytes at the
addresses it loads from, and changes only the addresses it stores to.

`DetourIsTransparent` compares two runs from the same registers: the untouched function, and the
function after `Installed`, which is what `Process.Hook` is proved to leave in memory. Its premises
(`Premises`) are:

* the pieces do not overlap, the stub is in place, and the two table slots and `kuk` hold what the
  loader and `hook` put there (`Layout`, `Fixture`);
* at the entry rsp is aligned as after a call (System V AMD64 psABI, section 3.2.2), with the stub's 80
  bytes of stack below it;
* the callback keeps rbx, rbp and r12 to r15, returns, and writes only the stack below its caller and its
  own memory (`AbiCallback`). This is asked of it only for the calls the stub makes from this entry
  (`StubCall`): with these arguments, rsp 80 lower, and memory that differs from that at the entry only
  in the stack below. It may push and call as it likes, down to the end of the stack;
* the moved instructions are those the decoder finds, none rip-relative, each `Regular` (measured as
  the processor measures it), none loading a byte that the detour or the callback may have changed and
  the block has not written itself, none storing into the moved code (`BlockOk`).

The conclusion covers all sixteen general registers, the list of callback calls, and memory. Where two
runs may still differ is tracked exactly: `DirtyAtEntry` is the dead stack, the thirteen patched bytes,
the trampoline and the callback's memory, and every store of the block removes addresses from it.

`HookThenCall` starts one step earlier, from a process in which nothing is hooked: it performs `Hook`,
which sets `kuk`, finds the boundary and rewrites the entry, and concludes exactly the same of the next
call, `StillDirty` being what the moved instructions leave of the dirty addresses. For the recorded entry
below, `StablePrologueIsTransparent` works that out: everything but the four words it pushes.

The premises can be met: for the recorded entry of the function that is hooked in practice
(src/len64_test.c:44-47), `Prologue` proves those about the moved block in every state, and
`PremisesCanBeMet` gives one memory, one entry state and a callback that pushes and writes its own memory
for which all of them hold together.

## Where code and description differ

* `hook` returns true also when the function's pages could not be made writable, because `hook_proc`
  then returns -1 (src/hook.c:210), and for a NULL function. `Process.Hook` states it: otherwise true means
  "installed". `RefusedUnprotect` is a process in which it is true and nothing is installed.
* The decoder's lengths are not the processor's for 0x66 with an effective REX.W before opcode 0x05, for
  the reserved F6 /1, for 8D (LEA) with a register operand, and for 0x67 before certain ModRM bytes.
  `DecoderMeetsGrammar` has the exact condition, in both directions, and there is one example for each.
* Decoder and `Length64` agree on encodings of more than 15 bytes (`OverlongMeasured`), which no processor
  executes (`TooLongFaults`); the premises of the detour theorem exclude them.
* The repository's README says that PIPER_ARGS and PIPER_SINK are split on spaces; the code splits on
  every `isspace` character (src/utils.c:190-199). The model follows the code. `SplitsOnSpaces`: the two
  agree exactly when none of the other five occurs; `TabSplits` is a string for which they do not.
* A comment in `hook_proc` writes `mov [esp + 4]`; the emitted bytes address `[rsp+4]` (src/hook.c:83,87).
* `find_functions` uses address zero for "not found yet" (src/sec.c:286,304), so a symbol with value zero
  counts as found without giving an address. `FindFunctions` returns true and changes no entry exactly
  when some entry without address is named by a function symbol and every function symbol that names such
  an entry has the value zero; `ZeroValuedSymbol` is such a table.

## Model

| member | source | states |
|---|---|---|
| Decoder.ReadInstruction64 | src/len64.c:339-425 | the pointer walk with its flags and variant scan measures prefixes, opcode, ModRM, SIB, displacement and immediate, for any number of prefixes; refusal and running off the readable bytes are told apart |
| Decoder.RegMask | src/len64.c:373-375 | masking the ModRM byte with 0x38 selects the reg field, so the variant scan of F6 finds /0 |
| Decoder.SelfDelimiting | src/len64.c:354-424 | a measured length is decided by the instruction's own bytes, whatever follows |
| Decoder.PrefixFree | src/len64.c:354-424 | no decodable instruction is a proper prefix of another |
| Decoder.AcceptsStraightLineOnly | src/len64.c:45-331 | no accepted opcode is a jump, call, loop, return, interrupt or escape |
| Decoder.RefusesExactly | src/len64.c:45-331 | the accepted opcodes, listed |
| LengthGrammar.MeasuresEncodings | src/len64.c:383-424 | the reference length of any well-formed encoding (prefixes, opcode, ModRM, SIB, displacement, immediate) is its number of bytes, whatever follows |
| LengthGrammar.MeasuredIsEncoded | src/len64.c:383-424 | conversely, whatever the reference measures is a well-formed encoding |
| LengthGrammar.FieldsTell | src/len64.c:383-412 | SIB and displacement on raw bytes are those of the ModRM and SIB fields that the byte is put together from |
| LengthGrammar.DecoderMeetsGrammar | src/len64.c:354-424 | decoder and reference agree if and only if the encoding is outside the four irregular families |
| LengthGrammar.RegularMeasured | src/len64.c:354-424 | a whole regular instruction has the reference length |
| LengthGrammar.IrregularImmediate | src/len64.c:378 | 66 48 05: measured 5, executed 7 |
| LengthGrammar.RexWidens | src/len64.c:378 | the reference: two bytes of immediate after 05 with 0x66, four when a REX prefix with W stands right before the opcode |
| LengthGrammar.IrregularGroup3 | src/len64.c:37-40 | F6 /1 is measured although it is reserved |
| LengthGrammar.IrregularMemoryOperand | src/len64.c:202 | 8D C0 is measured although it is reserved |
| LengthGrammar.IrregularAddressSize | src/len64.c:391-399 | 67 89 04 24: measured 3, executed 4 |
| LengthGrammar.OverlongMeasured | src/len64.c:354-365 | sixteen prefixes before an opcode are measured 17 |
| LengthGrammar.SixteenBitLayout | src/len64.c:386-404 | with 0x67 the decoder takes the displacements of the 16-bit ModRM layout, without SIB |
| LengthGrammar.RecordedInstructions | src/len64_test.c:41-55 | the lengths expected there, and four bytes for 48 89 7D F8 |
| LengthGrammar.EachForm | src/len64.c:383-424 | the length of 00 to 03, 89 and 8D with each operand form, whatever follows |
| LengthGrammar.EachImmediate | src/len64.c:45-331 | the lengths of 04, 05, 83 and of the opcodes without operand bytes |
| Machine.TooLongFaults | src/len64.c:354-365 | and an instruction of more than 15 bytes faults |
| Machine.SignExtends | src/hook.c:81-86 | a dword pushed in 64-bit mode becomes the word of the same signed value |
| HookSpace.GetHookSpace | src/hook.c:149-179 | the result is the first instruction boundary at or past 13, and a failure exactly when an instruction starting before it cannot be measured |
| HookSpace.TilingsNest | src/hook.c:161-176 | instruction boundaries are unique: of two ways to cut the code, one continues the other |
| HookSpace.HookSpaceBounds | src/hook.c:149-179 | with instructions of at most 15 bytes, 13 to 27 bytes move, and 41 of the 64 trampoline bytes suffice |
| HookSpace.TiledIsStraightLine | src/len64.c:45-331 | every instruction that moves is straight-line code |
| HookSpace.BlockRelocates | src/hook.c:54-56 | the copied bytes decode into the same instructions wherever they stand, whatever follows |
| Detour.TwoPagesCover | src/hook.c:12-32 | the two unprotected pages cover any range of up to 4096 bytes and the byte after it |
| Detour.TwoPagesCoverExactly | src/hook.c:12-32 | they cover a longer range exactly when no page lies between its first and last |
| Detour.Process.WritableBytes | src/hook.c:12-38 | a byte that may be written lies on a page, of 4096 bytes and starting at a multiple of 4096, that has been made writable |
| Detour.Process.ChangeRangeProt | src/hook.c:22-38 | which pages become writable, and when the call succeeds |
| Detour.Process.Store | src/hook.c:54-89 | every byte written lies on a page that was made writable, and nothing else changes |
| Detour.Process.CopyOut | src/hook.c:54-56 | the copy loop leaves the function's first bytes in the trampoline |
| Detour.Process.PatchEntry | src/hook.c:70-75 | the stored bytes are push rax, mov rax imm64, push rax, ret |
| Detour.Process.WriteTail | src/hook.c:77-89 | the stored bytes are push imm32, mov dword [rsp+4] imm32, ret, for the address behind the moved entry |
| Detour.Process.HookProc | src/hook.c:44-91 | result and memory for each outcome: NULL, refused unprotect (copy only), complete installation |
| Detour.Process.Hook | src/hook.c:183-214 | memory `kuk` holds kuk1 for 0, kuk2 for 1, kuk0 for 2 and NULL otherwise, whatever the outcome; nothing else changes without a hook boundary or a writable trampoline; with them, a NULL function and a refused unprotect give true without installation, everything else true with it |
| Detour.RoomEnough | src/hook.c:199-211 | with instructions of at most 15 bytes the moved entry and its way back fit the function's first 27 bytes and the 64-byte buffer |
| Detour.InstalledLayout | src/hook.c:50-91 | after installation: patched entry, copied block with the way back, every other byte of memory unchanged |
| Machine.FetchEmitted | src/hook.c:70-89 | the emitted bytes are fetched as the instructions they were emitted for |
| Machine.StepPush | src/hook_asm64.asm:23-30 | the bytes of a push execute as that push |
| Machine.StepPop | src/hook_asm64.asm:36-44 | the bytes of a pop execute as that pop |
| Stub.PushRun | src/hook_asm64.asm:23-30 | pushing any list of registers saves each of them and changes nothing else |
| Stub.PopRun | src/hook_asm64.asm:36-44 | popping in the opposite order restores each of them and the stack pointer |
| Passage.StubSpelled | src/hook_asm64.asm:17-46 | the stub byte by byte, with pops mirroring the pushes and the rax pushed by the entry |
| Passage.EntryRun | src/hook.c:64-75 | the patched entry reaches the stub with the old rax on top of the stack, for every 64-bit stub address |
| Passage.SavePhase | src/hook_asm64.asm:18-30 | all nine caller-saved registers are on the stack before the call |
| Passage.CallbackOne | src/hook_asm64.asm:33-34 | the callback is entered on an aligned stack and comes back behind the call |
| Passage.CallPhase | src/hook_asm64.asm:31-34 | exactly one call, with the function's own rdi, rsi and rdx; what was saved is intact afterwards, whatever the callback does on the stack below |
| Passage.RestorePhase | src/hook_asm64.asm:35-46 | the trampoline is entered with every general register and rsp as at the entry |
| Passage.EntryToTrampoline | src/hook_asm64.asm:17-46 | entry, stub and callback together; memory differs only in the dead stack and the callback's own memory |
| Transparency.ResumeWord | src/hook.c:77-89 | sign-extended push and high-dword store leave exactly the resume address, for every 64-bit address |
| Transparency.ResumeRun | src/hook.c:78-89 | the way back reaches the resume address with registers and rsp unchanged |
| Transparency.TableLocal | src/hook.c:54-56 | one moved instruction has the same effect in both places, over memories that agree on what it loads |
| Transparency.RipRelativeFields | src/hook.c:54-56 | a rip-relative operand is one with mod 0 and rm 5 |
| Transparency.BlockRun | src/hook.c:54-56 | the copied block runs in step with the original one |
| Transparency.InstalledUnderway | src/hook.c:70-89 | installing disturbs neither stub nor table slots nor `kuk` |
| Transparency.DetourIsTransparent | src/hook.c:44-91 | the hooked function calls the callback once with the entry's arguments and then reaches the instruction behind the moved block with the registers, rsp and memory of the unhooked one |
| Transparency.VisibleMemoryIsTheSame | src/hook.c:44-91 | in particular every byte at or above the entry's rsp is the same in both runs, outside the patched code, the trampoline, the callback's memory and the eight bytes below the final rsp |
| HookedCall.MovedIs | src/hook.c:161-176 | the lengths of the moved instructions are determined by the boundary |
| HookedCall.KukStored | src/hook.c:183-198 | storing `kuk` completes what stub and loader have prepared, and disturbs none of it |
| HookedCall.HookedIsTransparent | src/hook.c:183-214 | the boundary that `get_hook_space` finds yields the moved instructions, so the installed hook is transparent, up to the addresses that were dirty and that none of them wrote |
| HookedCall.HookThenCall | src/hook.c:183-214 | `hook` and then a call of the hooked function: one callback, and otherwise as a call of the untouched function, the stack words written by the moved instructions included |
| Prologue.StableHookBoundary | src/len64_test.c:44-47 | the recorded entry of the hooked function moves thirteen bytes |
| Prologue.BetaHookBoundary | src/len64_test.c:48-51 | so does the other recorded entry |
| Prologue.StableBlockOk | src/len64_test.c:44-47 | for that entry the premises about the moved block hold in every memory and stack state, and it leaves dirty all but the four words it pushes |
| Prologue.StablePremises | src/hook.c:44-91 | for that entry nothing is left of the premises but layout and an obedient callback |
| Prologue.StablePrologueIsTransparent | src/hook.c:44-91 | so its detour is transparent, with no premise left about the block, and the saved rbp, r15, r14 and rbx are on the stack as without it |
| Prologue.CopyIsNotInstallation | src/hook.c:58-62 | a refused unprotect leaves the function unpatched, unless it began with push rax |
| Prologue.RefusedUnprotect | src/hook.c:210-213 | a process in which `hook` returns true and the function is not patched |
| Prologue.PremisesCanBeMet | src/hook.c:44-91 | a concrete memory and entry state, with a callback that pushes and writes its own memory, in which the hook can be installed and all premises hold together |
| Prologue.EnvObeys | src/hook.c:44-91 | that callback obeys the ABI in every call the stub makes from there |
| Fifo.EveryHistoryIsSound | src/utils.c:308-357 | over all histories: the queue holds the last accepted texts, deliveries increase, text i is dropped only for text i + 64, and every accepted text has exactly one fate |
| Fifo.TextsStep | src/utils.c:308-357 | on texts: a push appends the first 4096 characters, and drops the oldest of 64; a pop takes the oldest |
| Fifo.NothingAcceptedAfterStop | src/utils.c:323-328 | after a stop no text is accepted any more |
| SpeechQueue.RingDrop | src/utils.c:350-353 | taking the head slot keeps the index and NULL invariants and removes the oldest pointer |
| SpeechQueue.RingAdd | src/utils.c:335-337 | filling the tail slot keeps them and appends a pointer |
| SpeechQueue.RingSpelled | src/utils.c:36-47 | the k-th slot from the head on, modulo 64, is filled exactly when k is below the count, and holds the k-th pointer |
| SpeechQueue.AppendAccepts | src/utils.c:315-337 | an accepted text goes to the end as its first 4096 characters, or whole if it is shorter, and the first of 64 goes |
| SpeechQueue.PushOwns | src/utils.c:329-337 | a push keeps ownership: queued pointers distinct, and exactly they and the worker's are live |
| SpeechQueue.Heap.Malloc | src/utils.c:316-321 | a fresh block, or none |
| SpeechQueue.Heap.Free | src/utils.c:326 | only a live block can be freed, and it is live no more |
| SpeechQueue.TtsQueue.constructor | src/utils.c:277-282 | an empty queue that owns nothing |
| SpeechQueue.TtsQueue.Push | src/utils.c:308-340 | refusals change nothing and leak nothing; otherwise the text, or its first 4096 characters, goes to the end and the oldest of 64 is dropped |
| SpeechQueue.TtsQueue.Pop | src/utils.c:342-357 | the oldest item changes hands, or none after a stop on an empty queue |
| SpeechQueue.TtsQueue.Stop | src/utils.c:300-306 | sets the flag and keeps the contents |
| SpeechQueue.TtsQueue.Destroy | src/utils.c:284-298 | exactly the queued texts are freed |
| SpeechQueue.Serve | src/utils.c:277-357 | any sequence of operations on the ring delivers what the history says; one block is allocated for each copied text, and in the end all of them have been freed |
| WorkerProtocol.EveryRunKeepsInvariant | src/utils.c:300-357 | in every interleaving, spurious wake-ups included: mutual exclusion, no lost wake-up, order, and what is owed after a stop |
| WorkerProtocol.EveryRunIsAHistory | src/utils.c:308-357 | every run takes the shared queue through a history of the drop-oldest queue |
| WorkerProtocol.StopDrains | src/utils.c:741-753 | past the join the queue is empty and exactly what was delivered, held or queued at the stop has been delivered, in order |
| WorkerProtocol.DestroyedIsDrained | src/utils.c:825-837 | whatever happens, a destroyed queue has been stopped before, and everything delivered, held or queued then has been delivered |
| WorkerProtocol.WorkerCanMove | src/utils.c:342-357 | with work or a stop pending and the mutex free of the main thread, the worker is never blocked |
| WorkerProtocol.WorkerStepsDescend | src/utils.c:741-753 | each worker step brings it closer to sleep or exit |
| WorkerProtocol.JoinIsBounded | src/utils.c:830-835 | the join takes no more steps than the worker's rank, so it ends |
| WorkerProtocol.NeverStuck | src/utils.c:300-357 | no deadlock |
| WorkerProtocol.IdleMayBegin | src/utils.c:817-835 | an idle main thread may begin a push and may begin to stop |
| WorkerProtocol.SleeperMayWake | src/utils.c:346-348 | a sleeping worker may wake up without a signal |
| WorkerProtocol.EveryRunCanFinish | src/utils.c:825-837 | every run can be continued until the queue is destroyed |
| Tokens.TokensAreMaximalRuns | src/utils.c:181-213 | the tokens are exactly the maximal runs of non-whitespace, in order |
| Tokens.SplitJoin | src/utils.c:181-213 | splitting the space-join of non-empty, whitespace-free tokens gives the tokens |
| Tokens.TokensAreTokens | src/utils.c:189-199 | every token is non-empty and free of whitespace |
| Tokens.SplitsOnSpaces | src/utils.c:190-199 | the tokens are those of a split on spaces exactly when no tab, newline, vertical tab, form feed or carriage return occurs |
| Tokens.TabSplits | src/utils.c:190-199 | a string on which the two differ |
| Commands.TtsCmd.AddOwned | src/utils.c:147-162 | appends one argument, keeps the vector NULL-terminated and owns the argument's memory, or changes nothing and leaves it to the caller |
| Commands.TtsCmd.Add | src/utils.c:164-179 | the same for a copy, which is freed when it cannot be kept |
| Commands.TtsCmd.AddSplit | src/utils.c:181-213 | appends the tokens; without memory, the old entries and exactly the tokens for which there was memory, and nothing leaks |
| Commands.Grow | src/utils.c:153-160 | the vector after `realloc`, argument and NULL: the old values and one more, in distinct blocks |
| Commands.TtsCmd.Free | src/utils.c:133-145 | an empty vector, and exactly its blocks freed, each once |
| Commands.BuildPiper | src/utils.c:230-260 | the command is program, split arguments and model, or an initial part when memory runs out; it succeeds exactly when two requests for each argument are granted |
| Commands.BuildSink | src/utils.c:262-275 | the command is the split sink; success exactly when it is not empty and its requests are granted |
| Commands.GivenArgs | src/utils.c:230-275 | what is set in the environment is taken: program, tokens of the arguments, "--model" before the model |
| Commands.UnsetArgs | src/utils.c:230-275 | the defaults for what is unset or empty |
| Commands.TtsCmd.VectorShape | src/utils.c:147-162 | an argument vector holds its arguments in order and NULL behind them |
| Speech.Service.ChooseBackend | src/utils.c:766-788 | the backend is decided by environment, allocator and speech-dispatcher: Piper with both commands complete, else speech-dispatcher, else none with both commands freed |
| Speech.PiperFirst | src/utils.c:766-788 | Piper exactly when its commands can be built; speech-dispatcher exactly when they cannot and it opens |
| Speech.Service.Init | src/utils.c:755-815 | succeeds exactly when there is a backend and the thread starts, and otherwise leaves everything off; Piper whenever the sink has a token and no request is refused, whatever speech-dispatcher does, and speech-dispatcher only otherwise; commands are those of this environment only |
| Speech.Service.Say | src/utils.c:817-823 | a text reaches the queue exactly when the service is ready, the text is not empty and there is memory; it is its first 4096 characters, at the end, and the oldest of 64 is dropped |
| Speech.Service.WorkerTakes | src/utils.c:745-748 | the worker's item leaves the queue and stays alive |
| Speech.Service.WorkerSpeaks | src/utils.c:749-750 | it is spoken once and freed, and a failing Piper may bring the connection up |
| Speech.Service.JoinWorker | src/utils.c:833 | after a stop the worker speaks what it holds and then everything queued, in order; the connection is up if it was, or if Piper failed for one of these texts |
| Speech.Service.Close | src/utils.c:825-860 | nothing pending is lost and nothing is left: no worker, backend, command, connection, text or argument memory |
| Speech.Service.NotReadyIsOff | src/utils.c:755-860 | not ready: no backend, worker, connection, command, text or argument memory |
| Speech.Service.PiperVectors | src/utils.c:755-860 | ready with Piper: both vectors start with an argument and end with NULL |
| Sessions.DrainingDelivers | src/utils.c:741-753 | a stop and one pop for each queued text deliver everything that is queued, in order |
| Sessions.Session | src/utils.c:755-860 | after any sequence of events and failures nothing is left, no block of texts or arguments included; the events decide which inits succeed, and what has been spoken is, cycle by cycle, what the drop-oldest queue delivers |
| Sessions.Happen | src/utils.c:755-860 | every call and every turn of the worker takes the service where the story of the events says |
| Sessions.EveryCycleIsComplete | src/utils.c:755-860 | in every cycle each accepted text has been delivered once or dropped for the 64th after it |
| Wav.ParsesWritten | src/utils.c:429-488 | any file head with any chunks (odd sizes padded) parses to the fields of its last format chunk and the offset of the first payload byte; without a format chunk it fails |
| Wav.ParsedIsWritten | src/utils.c:429-488 | success means the consumed bytes are such a file head, with a format chunk before the data |
| Wav.UsualHeader | src/utils.c:429-488 | the 44-byte header, byte by byte: payload at 44, format at 20, channels at 22, rate at 24, bits at 34 |
| Wav.OtherChunkPassed | src/utils.c:475-484 | any other chunk is passed over with its size, rounded up to an even number |
| Wav.OwnChunks | src/utils.c:450-475 | a format chunk of at least 16 bytes is taken and passed over, a shorter one fails, and the data header ends the walk |
| Wav.Descriptor.ReadExact | src/utils.c:377-394 | all bytes, in order, however reads are split or interrupted; failure exactly at the end of the stream when no read fails hard |
| Wav.Descriptor.SkipBytes | src/utils.c:396-407 | the same for bytes that are forgotten |
| Wav.LeIsFromLE | src/utils.c:409-420 | le16 and le32 read the little-endian values |
| Wav.WavReadHeader | src/utils.c:429-488 | succeeds with these fields and at this position exactly when the bytes parse, independent of read splitting and interruption |
| Removal.RemoveInParts | src/SDK/CHeaders/Wrappers/XPCBroadcaster.cpp:29-40 | removal of a first occurrence, seen from entries that had their turn and entries that had not |
| Removal.RoundIsExact | src/SDK/CHeaders/Wrappers/XPCBroadcaster.cpp:44-55 | a round notifies in order and leaves out exactly what is removed before its turn |
| Removal.BroadcastIsExact | src/SDK/CHeaders/Wrappers/XPCBroadcaster.cpp:44-55 | over distinct listeners: registration order, no repetition, and exactly once for whoever is never removed |
| Removal.LeftIsExact | src/SDK/CHeaders/Wrappers/XPCBroadcaster.cpp:26-55 | over distinct listeners: a round leaves exactly those that none of its notifications removes, before or after their turn |
| Observers.XPCBroadcaster.AddListener | src/SDK/CHeaders/Wrappers/XPCBroadcaster.cpp:19-24 | both lists grow and stay in agreement |
| Observers.XPCBroadcaster.RemoveListener | src/SDK/CHeaders/Wrappers/XPCBroadcaster.cpp:26-42 | both lists lose one entry and stay in agreement; the shared position moves back when it stood at or behind the entry |
| Observers.XPCBroadcaster.BroadcastMessage | src/SDK/CHeaders/Wrappers/XPCBroadcaster.cpp:44-55 | the index loop over the shrinking list notifies whom the round says; with distinct listeners, exactly those not removed before their turn are notified, and exactly those never removed stay, in order |
| Observers.XPCBroadcaster.Destroy | src/SDK/CHeaders/Wrappers/XPCBroadcaster.cpp:9-17 | every listener forgets this broadcaster, and the rest stays in agreement |
| Observers.XPCListener.BroadcasterRemoved | src/SDK/CHeaders/Wrappers/XPCListener.cpp:20-27 | one registration is forgotten |
| Observers.XPCListener.Destroy | src/SDK/CHeaders/Wrappers/XPCListener.cpp:8-12 | the loop ends, and no broadcaster holds this listener any more |
| Registrations.RoundOfObjects | src/SDK/CHeaders/Wrappers/XPCBroadcaster.cpp:44-55 | a round over objects is the round over their names |
| Registrations.ExistingOnes | src/SDK/CHeaders/Wrappers/XPCBroadcaster.cpp:26-55 | of the named listeners those that exist, in order |
| Registrations.NotedTimes | src/SDK/CHeaders/Wrappers/XPCBroadcaster.cpp:9-42 | how each event changes the number of times that a listener is registered |
| Registrations.Happen | src/SDK/CHeaders/Wrappers/XPCBroadcaster.cpp:9-55 | one creation, add, remove, broadcast or destruction on the objects does to all their lists what it does to the names in the book |
| Registrations.Life | src/SDK/CHeaders/Wrappers/XPCListener.cpp:8-27 | after any sequence of these: every list is the book's, registration is two-way, nobody refers to a destroyed object, and every broadcast has notified whom its round says |
| Symbols.TableRoundTrip | src/sec.c:249-265 | an encoded table reads back as its symbols, in either layout |
| Symbols.RecordSpelled | src/sec.c:249-265 | the bytes of a record in either layout: where name, info, value and size lie |
| Symbols.MatchesIsBears | src/sec.c:282-286 | a symbol matches a C string exactly when its name offset and size are not zero, the low nibble of its info is 2, and the bytes at the offset are that string and a zero |
| Symbols.NthValueAppend | src/sec.c:282-294 | one more symbol serves exactly the entry that is next in turn for its name |
| Symbols.Assign | src/sec.c:285-292 | the first entry without address and with this name takes the value, and no other |
| Symbols.Scan | src/sec.c:282-294 | the nested loops agree with the independent search of each name |
| Symbols.FindFunctions | src/sec.c:268-315 | every entry, with any addresses and any repetition of names, ends with what the independent search yields; the result tells whether an entry without address was named by a function symbol; and exactly when it does so without any address |
| Symbols.LookupIsFirstMatch | src/sec.c:268-315 | with distinct names, no addresses and non-zero values of the matching function symbols: the first match's value or zero, and true exactly when some entry got an address |
| Symbols.LookupByBytes | src/sec.c:268-315 | the same in terms of the tables' bytes: the value of the first symbol whose bytes spell the name, or zero |
| Symbols.FoundWithoutAddress | src/sec.c:286-289 | no entry changes exactly when every function symbol that names an entry without address has the value zero |
| Symbols.ZeroValuedSymbol | src/sec.c:300-309 | a table for which the result is true and no address was found |
| Symbols.LayoutsAgree | src/sec.c:278-313 | the same symbols in 32-bit and 64-bit records resolve alike |

## Left out

* Transparency.DetourIsTransparent: says nothing about flags and vector registers, which the stub does not save; a moved instruction whose effect depends on flags from before the entry (an ADC or SBB form of opcode 83, say) does not satisfy `LocalIsa`. It says nothing either about the eight bytes below the final rsp, which the way back overwrites.
* Detour.Process.Hook: asks that copy and way back fit memory and the trampoline's page, which the source does not check; `RoomEnough` shows that they fit the 64-byte buffer whenever instructions have at most 15 bytes. It does not model a store to a page that was not made writable.
* Decoder.ReadInstruction64: does not model the truncation of the returned length to `int`, which would need two gigabytes of prefixes.
* A second installed hook: trampoline and `kuk` are single globals, and a second `hook` call replaces them.
* The 32-bit branches of src/hook.c and src/hook.c's string-reading callbacks `kuk0`, `kuk1` and `kuk2`, which stand behind `AbiCallback`.
* SpeechQueue.TtsQueue.Pop: starts where the wait on the condition variable has ended; waiting, signals and spurious wake-ups are in `WorkerProtocol`, which speaks of text numbers instead of heap blocks.
* WorkerProtocol: one cycle from `speech_init` to `speech_close`; repeated cycles are in `Sessions`, whose worker takes its turns between calls.
* Speech.Service.WorkerSpeaks: speaking is one step that ends; pipes, processes, Pulse and speech-dispatcher behind it are foreign calls.
* Wav.WavReadHeader: the information of a failed parse is not described, as its caller does not use it; what follows a hard read error is not either.
* Observers.XPCBroadcaster.BroadcastMessage: listeners added and messages broadcast from inside a callback, which move or forget the shared position in ways the C++ library leaves undefined.
* Symbols.FindFunctions: starts from loaded tables; a name offset beyond the string table reads as an empty name.
* Loading of ELF files, mprotect itself, logging, environment lookup, the plugin's entry points, the manifest tool, and the rest of the SDK: foreign calls and glue.
