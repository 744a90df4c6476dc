# PearPC x86-64 JIT instruction decoder, modelled in Dafny

PearPC's x86-64 JIT decodes each 32-bit PowerPC instruction word twice:
- `ppc_exec_opc` picks the interpreter handler.
- `ppc_gen_opc` picks the code-generator handler.

Both index a 64-entry main table by the primary opcode. Four entries look further into the word:
- opcode 19 is a switch on the extended opcode (XO);
- opcode 31 reads a 1015-slot table built by `ppc_opc_init_group2`;
- opcodes 59 and 63 are floating-point switches that first check `MSR_FP`;
- the reserved opcode 0 holds host hooks: the PROM/OSI callback, the VM escape, and two bulk-memory helpers (a page-chunked fill and a byte-wise copy).

The model has seven modules:
- `PpcOps` (ops.dfy): words, fields, handler tags and dispatch results.
- `PpcGroups` (groups.dfy): groups 19, 59 and 63.
- `PpcGroup2` (group2.dfy): the group-31 tables, their initialiser and both lookups.
- `PpcDispatch` (dispatch.dfy): the main tables, both entry points and opcode 0.
- `PpcBulk` (bulk.dfy): the byte memory and the block fill.
- `PpcCopy` (copy.dfy): the block copy.
- `PpcSpecial` (special.dfy): `ppc_opc_special` over the CPU state.

How the source maps onto the model:
- The decoders are pure functions from a word to an `Op` tag, one per leaf handler pair.
- The group-31 initialiser is a method over two arrays. It is proved to build the tables that a pure specification describes.
- The fill and the copy are methods over an abstract byte memory, which records every page-window resolve in order. Each is proved equal to a function of the old memory.

The model takes these as given:
- `PPC_OPC_MAIN(w)` is `w >> 26` and `PPC_OPC_EXT(w)` is `(w >> 1) & 0x3ff`, as in Book I, section 1.6 of the Power ISA. The header that defines them is not part of this model.
- `gPromOSIEntry`, `PROM_MAGIC_OPCODE`, `PPC_OPC_ESCAPE_VM` and `MSR_FP` are parameters (`HostConfig`).
- The processor version read by `ppc_dec_init` is a parameter.

## Model

| member | source | states |
|---|---|---|
| PpcOps.Main | src/cpu/cpu_jitc_x86_64/ppc_dec.cc:1114-1118 | the primary opcode is below 64, so every word selects exactly one main-table entry; with the low 26 bits it rebuilds the word |
| PpcOps.Ext | src/cpu/cpu_jitc_x86_64/ppc_dec.cc:448-451 | the extended opcode is below 1024; with the other 22 bits of the word it rebuilds the word |
| PpcOps.KnownFlow | src/cpu/cpu_jitc_x86_64/ppc_dec.cc:46-55 | the invalid gen handler is the only gen action whose flow the decoder itself fixes to `flowEndBlockUnreachable`; the VM escape and PROM paths end it with `flowEndBlock`; any other leaf decides its own flow |
| PpcGroups.Group1 | src/cpu/cpu_jitc_x86_64/ppc_dec.cc:138-173 | group 19, interpreter: with XO bit 0 set, only 33, 129, 193, 225, 257, 289, 417 and 449 decode; with bit 0 clear and bit 9 set, only 528; with both clear, only 0, 16, 50 and 150; everything else is invalid |
| PpcGroups.GenGroup1 | src/cpu/cpu_jitc_x86_64/ppc_dec.cc:174-208 | the same classification of group 19 on the code-generation path |
| PpcGroups.Group19Agree | src/cpu/cpu_jitc_x86_64/ppc_dec.cc:138-208 | both group-19 decoders name the same instruction for every XO |
| PpcGroups.F1Switch | src/cpu/cpu_jitc_x86_64/ppc_dec.cc:473-485 | the group-59 switch decodes exactly the low-five values 18, 20, 21, 22, 24, 25, 28, 29, 30, 31 |
| PpcGroups.GenF1Switch | src/cpu/cpu_jitc_x86_64/ppc_dec.cc:490-503 | the same set on the code-generation path |
| PpcGroups.GroupF1 | src/cpu/cpu_jitc_x86_64/ppc_dec.cc:466-486 | with `MSR_FP` clear, nothing is dispatched, and that happens only then; otherwise it executes a real instruction exactly when `ext & 0x1f` is in the set |
| PpcGroups.GenGroupF1 | src/cpu/cpu_jitc_x86_64/ppc_dec.cc:487-504 | always emits the FPU check, then a real instruction exactly when `ext & 0x1f` is in the set |
| PpcGroups.F2Switch | src/cpu/cpu_jitc_x86_64/ppc_dec.cc:514-548 | group 63: with `ext & 16` set, it decodes exactly the low-five values 18, 20-23, 25, 26, 28-31; with it clear, exactly the XO values 0, 12, 14, 15, 32, 38, 40, 64, 70, 72, 134, 136, 264, 583, 711 |
| PpcGroups.GenF2Switch | src/cpu/cpu_jitc_x86_64/ppc_dec.cc:554-588 | the same classification on the code-generation path |
| PpcGroups.GroupF2 | src/cpu/cpu_jitc_x86_64/ppc_dec.cc:507-549 | nothing is dispatched exactly when `MSR_FP` is clear; otherwise it executes as classified |
| PpcGroups.GenGroupF2 | src/cpu/cpu_jitc_x86_64/ppc_dec.cc:550-589 | always emits the FPU check, then decodes as classified |
| PpcGroups.FpuGroupsAgree | src/cpu/cpu_jitc_x86_64/ppc_dec.cc:466-589 | with the FPU enabled, both floating-point groups execute exactly the instruction the code generator emits |
| PpcGroups.F2ExactCodesReachable | src/cpu/cpu_jitc_x86_64/ppc_dec.cc:528-546 | every exact-match code of group 63 has bit 4 clear and decodes to a real instruction on both paths |
| PpcGroup2.SlotAfter | src/cpu/cpu_jitc_x86_64/ppc_dec.cc:214-407 | after the stores, a slot holds a handler some store put there, or the invalid handler; it holds the invalid handler when no store names it |
| PpcGroup2.StoreAll | src/cpu/cpu_jitc_x86_64/ppc_dec.cc:220-407 | applying the slot stores in order to an all-invalid array leaves the array equal to `TableAfter(stores)` |
| PpcGroup2.Group2Tables.InitGroup2 | src/cpu/cpu_jitc_x86_64/ppc_dec.cc:214-407 | afterwards the two arrays equal `ExecTable()` and `GenTable()`, whatever they held before, so running it again yields identical tables |
| PpcGroup2.DecInit | src/cpu/cpu_jitc_x86_64/ppc_dec.cc:1143-1154 | builds the same two tables for every processor version |
| PpcGroup2.InstallListsEqual | src/cpu/cpu_jitc_x86_64/ppc_dec.cc:220-407 | the code-generation stores name the same slots and instructions, in the same order, as the interpreter stores |
| PpcGroup2.InstallListsWellFormed | src/cpu/cpu_jitc_x86_64/ppc_dec.cc:220-407 | every store names a slot below 1015 and a real handler, and the stores run in strictly increasing slot order, so no slot is stored twice |
| PpcGroup2.StoredSlotHoldsHandler | src/cpu/cpu_jitc_x86_64/ppc_dec.cc:220-313 | when the stores run in strictly increasing slot order, each stored slot ends up holding the handler stored to it |
| PpcGroup2.TableSlot | src/cpu/cpu_jitc_x86_64/ppc_dec.cc:214-407 | after initialisation, each slot holds its installed handler, or the invalid handler exactly when no store names it; both tables agree at the slot |
| PpcGroup2.TablesAgree | src/cpu/cpu_jitc_x86_64/ppc_dec.cc:214-407 | the two tables are equal, and both have exactly the stored slots as their installed indices |
| PpcGroup2.ExecGroup2 | src/cpu/cpu_jitc_x86_64/ppc_dec.cc:448-455 | as written: XO at or past 1015 gives the invalid handler followed by a read of slot XO, and only those values do; below 1015 it runs the slot's handler |
| PpcGroup2.ExecGroup2Intended | src/cpu/cpu_jitc_x86_64/ppc_dec.cc:448-455 | with the missing `return` added, it always executes a handler; a real one only from an in-range slot |
| PpcGroup2.GenGroup2 | src/cpu/cpu_jitc_x86_64/ppc_dec.cc:456-463 | XO at or past 1015 emits the invalid handler; below 1015 it emits the slot's handler, with no FPU check |
| PpcGroup2.Group2Agree | src/cpu/cpu_jitc_x86_64/ppc_dec.cc:448-463 | over the initialised tables, both lookups name the same instruction inside the table; past it the interpreter reads out of bounds while the code generator emits the invalid handler |
| PpcGroup2.Group2IntendedAgree | src/cpu/cpu_jitc_x86_64/ppc_dec.cc:448-463 | with the intended `return`, both lookups agree on every XO |
| PpcGroup2.Slot444IsOrx | src/cpu/cpu_jitc_x86_64/ppc_dec.cc:277-371 | slot 444 holds orx in both tables |
| PpcDispatch.ExecSpecial | src/cpu/cpu_jitc_x86_64/ppc_dec.cc:57-109 | the PROM callback fires exactly when both the pc and the word match; otherwise 0x00333301 gives the fill, 0x00333302 the copy, and every other word the invalid handler |
| PpcDispatch.GenSpecial | src/cpu/cpu_jitc_x86_64/ppc_dec.cc:111-135 | the VM escape is checked first; the PROM call fires exactly when the word is not the escape word, the pc equals `gPromOSIEntry & 0xfff`, and the word matches; every other word, the bulk-memory words included, emits the invalid handler |
| PpcDispatch.MainTablesEqual | src/cpu/cpu_jitc_x86_64/ppc_dec.cc:981-1112 | the two 64-entry main tables are equal |
| PpcDispatch.MainTableShape | src/cpu/cpu_jitc_x86_64/ppc_dec.cc:981-1112 | both tables hold the same entry at each primary opcode; exactly 1, 2, 4, 5, 6, 9, 22, 30, 56, 57, 58, 60, 61, 62 are invalid; 0, 19, 31, 59 and 63 are exactly where the special and group decoders sit |
| PpcDispatch.ExecOpc | src/cpu/cpu_jitc_x86_64/ppc_dec.cc:1114-1118 | an out-of-bounds read happens exactly for primary opcode 31 with XO at or past 1015; the FPU-unavailable return happens exactly for opcodes 59 and 63 with `MSR_FP` clear; the host hooks happen only under opcode 0 |
| PpcDispatch.ExecOpcIntended | src/cpu/cpu_jitc_x86_64/ppc_dec.cc:1114-1118 | with the group-31 `return`, no word leads to an out-of-bounds read |
| PpcDispatch.GenOpc | src/cpu/cpu_jitc_x86_64/ppc_dec.cc:1122-1141 | only opcode 0 emits something other than a handler; the FPU check is emitted exactly for opcodes 59 and 63 |
| PpcDispatch.DispatchAgree | src/cpu/cpu_jitc_x86_64/ppc_dec.cc:981-1141 | outside opcode 0 and with the FPU enabled, the interpreter runs the instruction the code generator emits; the only exception is opcode 31 with XO at or past 1015, where the interpreter reads out of bounds |
| PpcDispatch.DispatchIntendedAgree | src/cpu/cpu_jitc_x86_64/ppc_dec.cc:981-1141 | with the group-31 `return`, the two paths agree on every word outside opcode 0 while the FPU is enabled |
| PpcDispatch.InvalidPrimaryDecodesInvalid | src/cpu/cpu_jitc_x86_64/ppc_dec.cc:981-1112 | a word with an invalid primary opcode decodes to the invalid handler on both paths, and the generated block ends unreachable |
| PpcDispatch.OrWordDecodesToOrx | src/cpu/cpu_jitc_x86_64/ppc_dec.cc:1114-1141 | 0x7C632378 has primary opcode 31 and XO 444, and decodes to orx on both paths |
| PpcDispatch.Group2OverrunWord | src/cpu/cpu_jitc_x86_64/ppc_dec.cc:448-463 | 0x7C0007FE (opcode 31, XO 1023): the code generator emits the invalid handler, while the interpreter reads slot 1023 |
| PpcDispatch.BulkWordsInvalidInCodegen | src/cpu/cpu_jitc_x86_64/ppc_dec.cc:57-135 | the fill and copy words run their helpers in the interpreter but are invalid in the code generator |
| PpcBulk.Wrap | src/cpu/cpu_jitc_x86_64/ppc_dec.cc:73-74 | uint32 `+=` and `-=`: a value in range is unchanged, and one just below or above the range is moved by 2^32 |
| PpcBulk.FillResolvesStarts | src/cpu/cpu_jitc_x86_64/ppc_dec.cc:68-87 | the fill only appends to the resolve history, one window per chunk, at the chunk's start |
| PpcBulk.PageRunChunks | src/cpu/cpu_jitc_x86_64/ppc_dec.cc:76-87 | from an aligned address, the page run writes page-aligned chunks that stay inside their pages, each starting where the previous one ended, `size` bytes in all |
| PpcBulk.PageRunAligned | src/cpu/cpu_jitc_x86_64/ppc_dec.cc:76-82 | from an aligned address, every chunk of the page run starts on a page boundary |
| PpcBulk.PageRunLengths | src/cpu/cpu_jitc_x86_64/ppc_dec.cc:76-87 | the page run is `size / 4096` chunks of 4096 bytes, then one chunk of `size % 4096` bytes when that is not zero |
| PpcBulk.RestOfPageThenRun | src/cpu/cpu_jitc_x86_64/ppc_dec.cc:68-82 | the rest of an unaligned page followed by the page run ends the first chunk on a page boundary, stays inside pages, is contiguous and adds up the lengths |
| PpcBulk.FillChunksShape | src/cpu/cpu_jitc_x86_64/ppc_dec.cc:63-87 | no fill chunk crosses a page boundary, and each follows the previous one; an unaligned `dest` first gets exactly `4096 - (dest & 0xfff)` bytes; every later chunk is page aligned; the total is `size` exactly when `dest` is aligned or `size` covers the first chunk, and `size + 2^32` otherwise |
| PpcBulk.FillExample | src/cpu/cpu_jitc_x86_64/ppc_dec.cc:63-87 | dest 0x1ffd with size 10 gives chunks of 3 bytes at 0x1ffd and 7 bytes at 0x2000 |
| PpcBulk.FillOverrunExample | src/cpu/cpu_jitc_x86_64/ppc_dec.cc:68-74 | dest 0x1ffd with size 2 writes a first chunk of 3 bytes, and 2^32 + 2 bytes in all |
| PpcBulk.FillChunksIntendedShape | src/cpu/cpu_jitc_x86_64/ppc_dec.cc:63-87 | the corrected fill writes exactly `size` bytes, in contiguous chunks that each stay inside one page |
| PpcBulk.FillChunksIntendedAgrees | src/cpu/cpu_jitc_x86_64/ppc_dec.cc:63-87 | wherever the size does not wrap, the fill as written equals the corrected fill |
| PpcBulk.FillCoverage | src/cpu/cpu_jitc_x86_64/ppc_dec.cc:63-87 | the memsets of contiguous in-page chunks set exactly the `Total` bytes from the start, counted modulo 2^32, and leave every other byte unchanged |
| PpcBulk.FillIntendedEffect | src/cpu/cpu_jitc_x86_64/ppc_dec.cc:63-87 | the corrected fill sets exactly the `size` bytes from `dest` on to the fill byte |
| PpcBulk.FillEffect | src/cpu/cpu_jitc_x86_64/ppc_dec.cc:63-87 | the fill as written sets exactly the `size` bytes from `dest` on when the size does not wrap; when it wraps, it sets every byte of memory |
| PpcBulk.Memory.Resolve | src/cpu/cpu_jitc_x86_64/ppc_dec.cc:70 | appends the address to the resolve history and leaves the bytes alone |
| PpcBulk.Memory.Memset | src/cpu/cpu_jitc_x86_64/ppc_dec.cc:72 | sets `n` bytes from the address just resolved, inside its page, and nothing else |
| PpcBulk.Memory.CopyByte | src/cpu/cpu_jitc_x86_64/ppc_dec.cc:102 | writes the byte at `src` to `dest`, each inside the page of its resolved window, and nothing else |
| PpcBulk.FillPageRun | src/cpu/cpu_jitc_x86_64/ppc_dec.cc:76-87 | the loop resolves the start of each page-run chunk, in order, and leaves the memory equal to the memsets of that run |
| PpcBulk.BlockFill | src/cpu/cpu_jitc_x86_64/ppc_dec.cc:63-90 | the fill resolves exactly the chunk starts of `FillChunks(dest, size)`, in order, and leaves the memory equal to their memsets with the low byte of r4 |
| PpcCopy.CopyResolvesAtBoundaries | src/cpu/cpu_jitc_x86_64/ppc_dec.cc:99-101 | the copy loop only appends to the resolve history, at most two windows per byte, and every window it resolves is at a page boundary |
| PpcCopy.CopyStable | src/cpu/cpu_jitc_x86_64/ppc_dec.cc:99-104 | stores `j` to `n` touch only the destination addresses `j` to `n - 1` after `dest` |
| PpcCopy.CopyWritten | src/cpu/cpu_jitc_x86_64/ppc_dec.cc:99-104 | the byte `i` after `dest` ends up holding what the byte `i` after `src` held just before store `i` |
| PpcCopy.CopyUntouched | src/cpu/cpu_jitc_x86_64/ppc_dec.cc:99-104 | bytes outside the `size` destination addresses, counted modulo 2^32, are unchanged |
| PpcCopy.CopyFromOriginal | src/cpu/cpu_jitc_x86_64/ppc_dec.cc:99-104 | within the first `dest - src` stores, each byte copied is an original source byte |
| PpcCopy.CopyFromEarlier | src/cpu/cpu_jitc_x86_64/ppc_dec.cc:99-104 | from store `dest - src` on, each byte read is the one stored `dest - src` steps earlier |
| PpcCopy.CopyPeriodic | src/cpu/cpu_jitc_x86_64/ppc_dec.cc:99-104 | with `dest` lying `d` bytes after `src`, the byte `q*d + r` after `dest`, for `r < d`, receives the original byte `r` after `src` |
| PpcCopy.CopyPropagates | src/cpu/cpu_jitc_x86_64/ppc_dec.cc:99-104 | forward copy into an overlapping region above the source: the byte `i` after `dest` receives the original byte `i % d` after `src`, so already-written bytes propagate |
| PpcCopy.CopyAsMove | src/cpu/cpu_jitc_x86_64/ppc_dec.cc:91-107 | when `dest == src` or the destination does not start inside the source bytes, each destination byte receives the original source byte |
| PpcCopy.CopySmear | src/cpu/cpu_jitc_x86_64/ppc_dec.cc:91-107 | copying one place forward fills the whole destination with the first source byte |
| PpcCopy.CopyRound | src/cpu/cpu_jitc_x86_64/ppc_dec.cc:100-102 | one loop round re-resolves the destination window exactly when `dest & 0xfff == 0`, then the source window exactly when `src & 0xfff == 0`, then stores one byte |
| PpcCopy.BlockCopy | src/cpu/cpu_jitc_x86_64/ppc_dec.cc:91-107 | the copy resolves `dest` and `src`, then the windows `CopyResolves` names; it leaves the memory equal to the forward byte copy of `size` bytes with uint32 address wrap |
| PpcSpecial.RunSpecial | src/cpu/cpu_jitc_x86_64/ppc_dec.cc:57-109 | chooses the action `ExecSpecial` names; fill and copy take r3, r4 and r5, have the effects of `BlockFill` and `BlockCopy`, then set `pc := npc`; the invalid handler changes neither the CPU nor memory; the PROM path makes exactly one host call, and only then |

## Left out

- AltiVec decoding is compiled out with `#if 0`, so primary opcode 4 is invalid in both main tables. This covers `ppc_opc_init_groupv`, `ppc_opc_group_v`, `ppc_opc_gen_group_v`, the vector slots of group 31 and the vector install in `ppc_dec_init`.
- Leaf handler bodies (`ppc_opc_X`, `ppc_opc_gen_X`) are outside this model. Each is only a tag of `Op`.
- x86 code emission is not modelled: `asmALU32`, `asmALU64`, `asmJMP`, `asmCALL`, `clobberAll`, `getClientRegister` and `ppc_opc_gen_check_fpu`. Only the returned `JITCFlow` is kept, and only where the decoder itself fixes it.
- PpcSpecial.RunSpecial: on the PROM/OSI path the new `pc`, registers and memory are whatever `call_prom_osi` leaves. That host call is outside this model, so the contract promises only that the call was made once (`promCalls`), and nothing about that state.
- The bodies of the host calls `call_prom_osi` and `ppc_escape_vm` are outside this model. So are `SINGLESTEP` and the commented-out instruction trace.
- MMU translation (`ppc_direct_effective_memory_handle`) is modelled as a recorded "resolve the window of this address" call. The model assumes these:
  - effective addresses index the byte memory directly;
  - translation never fails;
  - the host pointers `d`, `s` and `dst` are not modelled, and which window each store goes through is tracked only as ghost state.
- Floating-point semantics, and the Rc bit, which no decoder in this core reads.
- Concurrency: the tables are built once, before decoding.
- StoreAll: the 94 straight-line stores of each table are one loop over a list of stores in source order. The list of each table is written out separately, and `InstallListsEqual` proves the two lists equal.

## Findings

| source | as written | input that shows it | evidently intended | confidence | as-written member | corrected member |
|---|---|---|---|---|---|---|
| src/cpu/cpu_jitc_x86_64/ppc_dec.cc:448-455 | `ppc_opc_group_2` calls `ppc_opc_invalid` for XO ≥ 1015 and has no `return`, so it then calls through `ppc_opc_table_group2[ext]`, past the end of the 1015-slot table | word 0x7C0007FE (primary opcode 31, XO 1023) | return after the invalid handler, as `ppc_opc_gen_group_2` does | not executed | PpcDispatch.Group2OverrunWord | PpcDispatch.DispatchIntendedAgree |
| src/cpu/cpu_jitc_x86_64/ppc_dec.cc:68-74 | for an unaligned `dest`, the first memset writes `4096 - (dest & 0xfff)` bytes whatever `size` is, and `size -= a` wraps as a uint32 when `size` is smaller | r3 = 0x1ffd, r5 = 2: 3 bytes are set, then the wrapped size 0xffffffff fills the rest of memory, 2^32 + 2 bytes in all | cut the first chunk to `size`, writing exactly `size` bytes | not executed | PpcBulk.FillOverrunExample | PpcBulk.FillIntendedEffect |

The code-generation PROM check compares `jitc.pc` with `gPromOSIEntry & 0xfff`, which is only the page offset of the entry address. `GenSpecial` models this as written.
