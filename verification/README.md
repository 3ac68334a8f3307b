# A verified model of the pipelined RISC-V core and its programs

This project models, in Dafny, the three-stage RISC-V core of `pipeline_3` and the bare-metal
programs that come with it, and proves what each of them is for. Code that works in place is
modelled in place (classes, arrays, linked cells), and each such method is tied to a
specification whose properties are proved as lemmas. Check everything with
`dafny verify dfyconfig.toml`.

## The parts

**Heap allocator** (`FlatMemory`, `HeapLayout`, `FreeList`, `ListUpdates`, `AllocatorSpec`,
`AlignedSpec`, `TinyMalloc`, `AllocatorRuns`, `ProgramRuns`, `Masks`). The managed memory is one sequence of bytes;
headers and links lie inside it, as 8-byte words. `HeapLayout` is the layout of live and free
blocks, which the code does not have; `AllocatorSpec` and `AlignedSpec` say what `malloc`,
`free`, `realloc` and `memalign` do to it; `TinyMalloc.Heap` is the code on raw memory and is
proved to compute exactly that, without touching the payload of any live block. `RunKeeps` is
the statement about all runs of calls, and `RunProgram` the one about programs that also use the
blocks they hold. `RealSizeExact`, `CanAllocExact` and `SumsFitExact` say exactly where the size
arithmetic of the code is right; `Masks` compares its bit masks with the remainders used here.

**Pipelined core** (`Isa`, `Datapath`, `PipelineSpec`, `PipelineRefinement`, `PipelineCore`).
`Isa` is the one-instruction-at-a-time machine; `Datapath` the ALU, immediate generator and
decoder; `PipelineSpec` the registers after one clock edge; `PipelineCore` the Verilog modules as
classes with one method per clocked block. `Refines` says that every run of the pipeline is a
run of the sequential machine, `CycleCount` how long it takes. The core's own description says
that a redirect flushes one fetched instruction and that `xor` and `sra` are not implemented
(`rtl_pipeline/README.md:44-47` and `:170`); the modules flush two and decode both, and the
model follows the modules. Illegal words pass through as if they were no-ops, because the
modules let them.

**CoreMark list** (`CoreList`, `ListOrder`, `ListLinks`, `ListSort`, `ListBench`). Cells and
items are objects; the comparators rewrite the items they compare. `MergeSort` is proved for
both comparators at once by showing that a key, once settled, never changes. The comment in the
code that the benchmark leaves the list in its original state does not hold for every list: cells
with the same index may come back exchanged (`TiesStayReversed` is one input). `RestoredExactly`
says, from the list before, exactly when they do.

**Quicksort** (`Quicksort`). The invariant is that every pair of elements not in a common
pending range is in order, and that (size + 1) * 2^depth never exceeds n + 1. The fixed stack is
large enough for all arrays of n elements exactly when n + 1 is below 12 * 2^24.

**Barrier and vector addition** (`SenseBarrier`, `VectorAdd`). State machines whose steps are
single accesses to shared variables, for any number of threads; theorems are about every
interleaved run.

**Radix sort** (`RadixSort`), **CRC-32** (`Checksum`), **demand pager** (`PageFrames`,
`PagerSpec`, `Pager`), **CoreMark state machine** (`TokenMachine`, `StateBench`), **blocked matrix
product** (`MatrixProduct`, `BlockedMultiply`, `CacheBlocks`, `CacheBlockedMultiply`), **towers of
Hanoi** (`Towers`), **number printing and reading** (`NumberText`, `FormattedText`). In each, the
loops of the source refine a plain definition: stable distribution by a digit, the byte-wise CRC
of section 8 of RFC 1952, flat memory, the grammar of the number formats, the dot product, the legal moves,
the digits of a number. The patterns of the state benchmark are read as the kinds they are named
after, but for one scientific pattern, which has no point and which the machine rejects
(`PatternKinds`).

`Basics` and `Remainder` hold what several parts share.

## Model

| member | source | states |
|---|---|---|
| `FlatMemory.DecodeEncode` | riscv_cpu_design/pipeline_3/e203_hbirdv2/riscv-tools/riscv-tests/debug/programs/tiny-malloc.c:164-165 | A size or pointer kept in w bytes of the managed memory reads back as the number that was stored, for every number that fits and every w. |
| `FlatMemory.StoreEffect` | riscv_cpu_design/pipeline_3/e203_hbirdv2/riscv-tools/riscv-tests/debug/programs/tiny-malloc.c:162-164 | Writing one header word makes that word read back the value, and changes no other word and no byte outside it. |
| `FlatMemory.Copy` | riscv_cpu_design/pipeline_3/e203_hbirdv2/riscv-tools/riscv-tests/debug/programs/tiny-malloc.c:298 | `memcpy`: the destination gets the source bytes and every other byte of memory stays. |
| `HeapLayout.RealSizeExact` | riscv_cpu_design/pipeline_3/e203_hbirdv2/riscv-tools/riscv-tests/debug/programs/tiny-malloc.c:122-125 | `REAL_SIZE` gives a block with header, room for the request and aligned length if and only if the request is at most `SIZE_MAX - 15`. |
| `HeapLayout.RealSizeLeast` | riscv_cpu_design/pipeline_3/e203_hbirdv2/riscv-tools/riscv-tests/debug/programs/tiny-malloc.c:122-125 | No smaller block would be usable for the request. |
| `HeapLayout.RealSizeWraps` | riscv_cpu_design/pipeline_3/e203_hbirdv2/riscv-tools/riscv-tests/debug/programs/tiny-malloc.c:122-125 | The concrete failure: for the largest request the sum wraps and `REAL_SIZE` is one word. |
| `HeapLayout.CanAllocBelowGap` | riscv_cpu_design/pipeline_3/e203_hbirdv2/riscv-tools/riscv-tests/debug/programs/tiny-malloc.c:115-117 | With the heap end at least the gap below the stack, `CAN_ALLOC_P` says exactly whether the grown heap leaves the gap. |
| `HeapLayout.CanAllocExact` | riscv_cpu_design/pipeline_3/e203_hbirdv2/riscv-tools/riscv-tests/debug/programs/tiny-malloc.c:101-118 | `CAN_ALLOC_P` is right for every size if and only if the heap end is at least the gap below the stack; otherwise its subtraction wraps. |
| `HeapLayout.CanAllocWraps` | riscv_cpu_design/pipeline_3/e203_hbirdv2/riscv-tools/riscv-tests/debug/programs/tiny-malloc.c:101-118 | The failure at a real request: with the stack closer than the gap, the smallest block is granted although it does not fit. |
| `HeapLayout.AllApart` | riscv_cpu_design/pipeline_3/e203_hbirdv2/riscv-tools/riscv-tests/debug/programs/tiny-malloc.c:232-236 | In a valid heap all blocks, live and free, are aligned, inside the heap and pairwise disjoint, in address order. |
| `HeapLayout.SpliceValid` | riscv_cpu_design/pipeline_3/e203_hbirdv2/riscv-tools/riscv-tests/debug/programs/tiny-malloc.c:149-167 | Replacing a window of blocks by blocks that cover the same addresses, leave no two free blocks touching and have room for their requests, keeps the heap valid. |
| `HeapLayout.SpliceLive` | riscv_cpu_design/pipeline_3/e203_hbirdv2/riscv-tools/riscv-tests/debug/programs/tiny-malloc.c:149-167 | Such a replacement changes the set of live blocks by exactly the window. |
| `AllocatorSpec.FirstFit` | riscv_cpu_design/pipeline_3/e203_hbirdv2/riscv-tools/riscv-tests/debug/programs/tiny-malloc.c:142-149 | The search stops at the first free block that is large enough: every free block passed over is too small. |
| `AllocatorSpec.MallocKeeps` | riscv_cpu_design/pipeline_3/e203_hbirdv2/riscv-tools/riscv-tests/debug/programs/tiny-malloc.c:133-210 | `malloc` keeps tiling and coalescing; it fails if and only if no free block fits and growing the top would enter the gap, and then changes nothing; otherwise exactly one new live block with room for the request appears and all other live blocks stay. The block is the first free one that is large enough, or lies where the heap is extended, by no more than needed; it is less than a list entry above the least usable size, and exactly that size unless it has no free block behind it. |
| `AllocatorSpec.ReleaseKeeps` | riscv_cpu_design/pipeline_3/e203_hbirdv2/riscv-tools/riscv-tests/debug/programs/tiny-malloc.c:216-272 | `free` keeps the heap valid, with no two free blocks touching after any of the merges, does not move its ends, and takes away exactly the freed block from the live ones. |
| `AllocatorSpec.FreeUndoesMalloc` | riscv_cpu_design/pipeline_3/e203_hbirdv2/riscv-tools/riscv-tests/debug/programs/tiny-malloc.c:133-272 | Freeing what `malloc` just returned restores the very layout if and only if the block came out of a free block; when the heap had grown, the growth stays. |
| `AllocatorSpec.ReallocKeeps` | riscv_cpu_design/pipeline_3/e203_hbirdv2/riscv-tools/riscv-tests/debug/programs/tiny-malloc.c:276-311 | `realloc` keeps the invariant in every branch; on failure nothing changes, on success the old block is replaced by one at the returned address with room for the new size, less than a list entry above the least usable size, and no other live block changes. A block that is large enough stays in place, cut to the least usable size or left as it is; otherwise address, heap end, failure and the other live blocks are those of `malloc`. |
| `AllocatorSpec.Accounts` | riscv_cpu_design/pipeline_3/e203_hbirdv2/riscv-tools/riscv-tests/debug/programs/tiny-malloc.c:520-557 | Free bytes and live bytes add up to the size of the heap. |
| `AllocatorSpec.FreeCounted` | riscv_cpu_design/pipeline_3/e203_hbirdv2/riscv-tools/riscv-tests/debug/programs/tiny-malloc.c:528-545 | The count of free blocks is the number of places where one is. |
| `AlignedSpec.MAlignAligns` | riscv_cpu_design/pipeline_3/e203_hbirdv2/riscv-tools/riscv-tests/debug/programs/tiny-malloc.c:87-89 | Adding `M_ALIGN(x, align)` to x gives a multiple of align. |
| `AlignedSpec.MAlignLeast` | riscv_cpu_design/pipeline_3/e203_hbirdv2/riscv-tools/riscv-tests/debug/programs/tiny-malloc.c:87-89 | Nothing smaller does. |
| `AlignedSpec.BeforeAligns` | riscv_cpu_design/pipeline_3/e203_hbirdv2/riscv-tools/riscv-tests/debug/programs/tiny-malloc.c:398-400 | The space `memalign` leaves before the block aligns the payload, and is zero or enough for a free-list entry, and below an entry plus the alignment. |
| `AlignedSpec.BeforeLeast` | riscv_cpu_design/pipeline_3/e203_hbirdv2/riscv-tools/riscv-tests/debug/programs/tiny-malloc.c:398-400 | No smaller space does that. |
| `AlignedSpec.SumsFitExact` | riscv_cpu_design/pipeline_3/e203_hbirdv2/riscv-tools/riscv-tests/debug/programs/tiny-malloc.c:381-449 | For every power of two and request up to `SIZE_MAX - 15`, no sum of the padded request and the space for the alignment wraps, at any word address, if and only if the alignment is at most a word or the padded request plus the alignment plus 16 is at most 2^64. |
| `AlignedSpec.SumsWrap` | riscv_cpu_design/pipeline_3/e203_hbirdv2/riscv-tools/riscv-tests/debug/programs/tiny-malloc.c:375-449 | A call where they wrap: from an empty heap the test for room sees 200 bytes, the test for size sees the same 200, and the address given out is 2^63, far beyond the stack, where the unbounded sums would have failed the call. |
| `AlignedSpec.FirstAligned` | riscv_cpu_design/pipeline_3/e203_hbirdv2/riscv-tools/riscv-tests/debug/programs/tiny-malloc.c:358-404 | The search of `memalign` stops at the first free block with room for the request after its own alignment space. |
| `AlignedSpec.CarveKeeps` | riscv_cpu_design/pipeline_3/e203_hbirdv2/riscv-tools/riscv-tests/debug/programs/tiny-malloc.c:431-488 | Carving an aligned block out of a free one, with a piece before, a piece after, both or neither, keeps the heap valid, returns a multiple of the alignment, and adds exactly that live block. |
| `AlignedSpec.CarveFrugal` | riscv_cpu_design/pipeline_3/e203_hbirdv2/riscv-tools/riscv-tests/debug/programs/tiny-malloc.c:431-488 | The carved block is at most a list entry above the least usable size, and exactly that size unless no free block is left behind it. |
| `AlignedSpec.MemalignKeeps` | riscv_cpu_design/pipeline_3/e203_hbirdv2/riscv-tools/riscv-tests/debug/programs/tiny-malloc.c:336-494 | The specification of `memalign`, whose sums do not wrap, as those of the code do not where `SumsFitExact` says: it keeps the invariant even when it fails, and returns null or a multiple of the alignment with room for the request; a value that is not a power of two returns null and changes nothing. |
| `AlignedSpec.MemalignPlaces` | riscv_cpu_design/pipeline_3/e203_hbirdv2/riscv-tools/riscv-tests/debug/programs/tiny-malloc.c:358-494 | For every power of two: `memalign` fails if and only if no free block has room behind its alignment space and the top cannot be extended that far; otherwise the block lies in the first free block with room, or at the top, which is extended by no more than needed, and is no larger than `CarveFrugal` says. When it fails the heap is as before, but for a free block at its end where there was room for the first padding only. |
| `ListUpdates.SplitBlock` | riscv_cpu_design/pipeline_3/e203_hbirdv2/riscv-tools/riscv-tests/debug/programs/tiny-malloc.c:160-165 | The four header writes of a split leave the in-memory free list linking exactly the free blocks of the new layout, and touch nothing but the link and the block. |
| `ListUpdates.TakeTop` | riscv_cpu_design/pipeline_3/e203_hbirdv2/riscv-tools/riscv-tests/debug/programs/tiny-malloc.c:171-188 | Unlinking and enlarging the top block leaves a list of exactly the remaining free blocks. |
| `ListUpdates.MergeBoth` | riscv_cpu_design/pipeline_3/e203_hbirdv2/riscv-tools/riscv-tests/debug/programs/tiny-malloc.c:232-243 | The writes that join a block with both neighbours leave a list of exactly the free blocks of the merged layout. |
| `ListUpdates.LinkBlock` | riscv_cpu_design/pipeline_3/e203_hbirdv2/riscv-tools/riscv-tests/debug/programs/tiny-malloc.c:269-270 | Linking a block that touches no free block leaves the list complete and in address order. |
| `TinyMalloc.Heap.constructor` | riscv_cpu_design/pipeline_3/e203_hbirdv2/riscv-tools/riscv-tests/debug/programs/tiny-malloc.c:129-130 | The initial heap: empty, with a null free list. |
| `TinyMalloc.Heap.Use` | riscv_cpu_design/pipeline_3/e203_hbirdv2/riscv-tools/riscv-tests/debug/programs/tiny-malloc.c:147-167 | The code that unlinks or splits the found block, on raw memory, computes the layout of the specification and keeps the payload of every live block. |
| `TinyMalloc.Heap.UseTop` | riscv_cpu_design/pipeline_3/e203_hbirdv2/riscv-tools/riscv-tests/debug/programs/tiny-malloc.c:169-208 | The code that grows the top block or the heap end computes the layout of the specification and keeps every live payload. |
| `TinyMalloc.Heap.Grow` | riscv_cpu_design/pipeline_3/e203_hbirdv2/riscv-tools/riscv-tests/debug/programs/tiny-malloc.c:171-208 | The two places that ask for room and then grow: on refusal nothing changes, otherwise the block is given out as the specification says. |
| `TinyMalloc.Heap.Malloc` | riscv_cpu_design/pipeline_3/e203_hbirdv2/riscv-tools/riscv-tests/debug/programs/tiny-malloc.c:133-210 | The loop over headers and links in raw memory refines the specification: same result pointer, same new layout, and the bytes of every block that stays live are unchanged. |
| `TinyMalloc.Heap.Free` | riscv_cpu_design/pipeline_3/e203_hbirdv2/riscv-tools/riscv-tests/debug/programs/tiny-malloc.c:216-272 | The search and merge loop refines the specification of `free` for null and for every live block, and keeps the bytes of every other live block. |
| `TinyMalloc.Heap.JoinPrevious` | riscv_cpu_design/pipeline_3/e203_hbirdv2/riscv-tools/riscv-tests/debug/programs/tiny-malloc.c:232-243 | The branch that merges with the free block before, and with the one after if it touches too, frees exactly this block. |
| `TinyMalloc.Heap.JoinNext` | riscv_cpu_design/pipeline_3/e203_hbirdv2/riscv-tools/riscv-tests/debug/programs/tiny-malloc.c:244-261 | The branch that merges with the free block after frees exactly this block. |
| `TinyMalloc.Heap.Insert` | riscv_cpu_design/pipeline_3/e203_hbirdv2/riscv-tools/riscv-tests/debug/programs/tiny-malloc.c:262-271 | The branch without a neighbour to merge with frees exactly this block and keeps the list in address order. |
| `TinyMalloc.Heap.Realloc` | riscv_cpu_design/pipeline_3/e203_hbirdv2/riscv-tools/riscv-tests/debug/programs/tiny-malloc.c:276-311 | `realloc` refines its specification, and the first min(old payload, new size) bytes of the payload are the same at the returned address. |
| `TinyMalloc.Heap.Move` | riscv_cpu_design/pipeline_3/e203_hbirdv2/riscv-tools/riscv-tests/debug/programs/tiny-malloc.c:289-301 | The allocate, copy and free branch preserves those bytes and, when allocation fails, leaves everything as it was. |
| `TinyMalloc.Heap.Shrink` | riscv_cpu_design/pipeline_3/e203_hbirdv2/riscv-tools/riscv-tests/debug/programs/tiny-malloc.c:302-309 | The branch that gives space back frees the cut-off tail, with merging, and keeps the payload that remains. |
| `TinyMalloc.Heap.Memalign` | riscv_cpu_design/pipeline_3/e203_hbirdv2/riscv-tools/riscv-tests/debug/programs/tiny-malloc.c:336-494 | With the sums of `size_t`, and the alignment and request such that they do not wrap (`SumsFitExact`), the loop terminates and refines the specification of `memalign`, keeping the bytes of every live block. |
| `TinyMalloc.Heap.Attempt` | riscv_cpu_design/pipeline_3/e203_hbirdv2/riscv-tools/riscv-tests/debug/programs/tiny-malloc.c:396-488 | One round at a free block carves it, grows the top, fails, or goes on with nothing changed, exactly as the specification decides. |
| `TinyMalloc.Heap.Enlarge` | riscv_cpu_design/pipeline_3/e203_hbirdv2/riscv-tools/riscv-tests/debug/programs/tiny-malloc.c:402-429 | The top block, too small for the padded request, grows by what is missing and is carved, or nothing changes where there is no room. |
| `TinyMalloc.Heap.GiveBehind` | riscv_cpu_design/pipeline_3/e203_hbirdv2/riscv-tools/riscv-tests/debug/programs/tiny-malloc.c:435-467 | Carving with space before the aligned block, with and without a remainder behind it. |
| `TinyMalloc.Heap.GiveFront` | riscv_cpu_design/pipeline_3/e203_hbirdv2/riscv-tools/riscv-tests/debug/programs/tiny-malloc.c:469-487 | Carving without space before, with and without a remainder. |
| `TinyMalloc.Heap.Append` | riscv_cpu_design/pipeline_3/e203_hbirdv2/riscv-tools/riscv-tests/debug/programs/tiny-malloc.c:365-429 | Without room for the padded block nothing changes; otherwise a fresh top block is put on the free list and carved, or, where its alignment needs more room and there is none, stays there as a free block. |
| `TinyMalloc.Heap.Mallinfo` | riscv_cpu_design/pipeline_3/e203_hbirdv2/riscv-tools/riscv-tests/debug/programs/tiny-malloc.c:515-559 | The reported figures are the heap size, the sum of the free blocks, the sum of the live blocks, the number of free blocks, and the size of the top block if it is free. |
| `AllocatorRuns.StepKeeps` | riscv_cpu_design/pipeline_3/e203_hbirdv2/riscv-tools/riscv-tests/debug/programs/tiny-malloc.c:132-494 | Any legal call of `malloc`, `free`, `realloc` or `memalign` keeps the heap valid. Legal are live or null pointers, a stack above the gap, requests up to `SIZE_MAX - 15`, and for `memalign` alignments whose sums do not wrap. |
| `AllocatorRuns.RunKeeps` | riscv_cpu_design/pipeline_3/e203_hbirdv2/riscv-tools/riscv-tests/debug/programs/tiny-malloc.c:132-559 | After any sequence of such legal calls from the empty heap: live blocks are inside the heap, have room for their requests and are pairwise disjoint, no two free blocks touch, and free plus live bytes are the whole heap. |
| `ProgramRuns.RunProgram` | riscv_cpu_design/pipeline_3/e203_hbirdv2/riscv-tools/riscv-tests/debug/programs/tiny-malloc.c:129-494 | A program that mixes legal calls with its own reads and writes of the blocks it holds, on the allocator in raw memory: it gets the pointers and the heap layout that the calls determine, and reads back every byte it has written into a block, also after `realloc` has moved or cut the block. |
| `ProgramRuns.ResizedBytes` | riscv_cpu_design/pipeline_3/e203_hbirdv2/riscv-tools/riscv-tests/debug/programs/tiny-malloc.c:276-311 | In the reference store, a resized block has at its new place every byte that both sizes cover. |
| `ProgramRuns.LayoutRun` | riscv_cpu_design/pipeline_3/e203_hbirdv2/riscv-tools/riscv-tests/debug/programs/tiny-malloc.c:129-494 | The layout after a program is that of its calls alone, so what `RunKeeps` says of runs holds for programs. |
| `ProgramRuns.Survives` | riscv_cpu_design/pipeline_3/e203_hbirdv2/riscv-tools/riscv-tests/debug/programs/tiny-malloc.c:129-494 | A byte written into a live block keeps its value, and the block stays live, through every program that neither writes that byte again nor frees or reallocates that block. |
| `Masks.OneBitIsPower` | riscv_cpu_design/pipeline_3/e203_hbirdv2/riscv-tools/riscv-tests/debug/programs/tiny-malloc.c:347-349 | On 64-bit words, the test of `memalign` on the alignment passes exactly the powers of two. |
| `Masks.MaskIsMAlign` | riscv_cpu_design/pipeline_3/e203_hbirdv2/riscv-tools/riscv-tests/debug/programs/tiny-malloc.c:87-89 | On 64-bit words, for every x and every alignment that passes the test, the mask in `M_ALIGN` is the number of bytes from x to the next multiple. |
| `Isa.DecodeAssemble` | riscv_cpu_design/pipeline_3/rtl_pipeline/Decoder.v:39-176 | Every supported instruction is recovered from its own encoding. |
| `Isa.AssembleDecode` | riscv_cpu_design/pipeline_3/rtl_pipeline/Decoder.v:39-176 | Every word that decodes to a supported instruction is that instruction's encoding, so decoding loses no bit. |
| `Isa.WordsInOrder` | riscv_cpu_design/pipeline_3/rtl_pipeline/IM.v:34-38 | The memories hold one word every four bytes: the first four addresses are word 0, and the next instruction address is the next word, after the last one the first. |
| `Isa.OffsetCounts` | riscv_cpu_design/pipeline_3/rtl_pipeline/riscv_pipeline.v:170-171 | Offsets are distances modulo 2^32, forwards and backwards. |
| `Isa.ClearBit0Even` | riscv_cpu_design/pipeline_3/rtl_pipeline/riscv_pipeline.v:170 | The target of `jalr` is the even address at the sum or just below it. |
| `Isa.ShiftsByOne` | riscv_cpu_design/pipeline_3/rtl_pipeline/ALU.v:22-44 | Each place of a left shift doubles, each place of a logical right shift halves. |
| `Isa.HalfAndBit` | riscv_cpu_design/pipeline_3/rtl_pipeline/ALU.v:22-44 | A word is twice its half plus its lowest bit. |
| `Isa.LowFiveRemains` | riscv_cpu_design/pipeline_3/rtl_pipeline/ALU.v:22-44 | The shift amount is the remainder of the operand by 32. |
| `Datapath.AdderSubtracts` | riscv_cpu_design/pipeline_3/rtl_pipeline/ALU.v:22-24 | Adding the inverted operand and the carry is subtraction modulo 2^32: the adder gives a - b. |
| `Datapath.AluComputes` | riscv_cpu_design/pipeline_3/rtl_pipeline/ALU.v:22-44 | For every operation, both operands and the code the decoder emits, the ALU result is the instruction-set meaning, including arithmetic right shift. |
| `Datapath.ImmGenI` | riscv_cpu_design/pipeline_3/rtl_pipeline/ImmGen.v:13 | The I-immediate is the sign-extended field of section 2.3 of the RISC-V Unprivileged ISA. |
| `Datapath.ImmGenS` | riscv_cpu_design/pipeline_3/rtl_pipeline/ImmGen.v:14 | The same for the S-immediate. |
| `Datapath.ImmGenB` | riscv_cpu_design/pipeline_3/rtl_pipeline/ImmGen.v:15 | The same for the B-immediate, an even offset. |
| `Datapath.ImmGenJ` | riscv_cpu_design/pipeline_3/rtl_pipeline/ImmGen.v:16 | The same for the J-immediate, an even offset. |
| `Datapath.DecoderDecodes` | riscv_cpu_design/pipeline_3/rtl_pipeline/Decoder.v:25-176 | For all words: the decoder flags illegal exactly the words outside the supported instructions, and gives every other word the control signals of its instruction. |
| `PipelineRefinement.OperandIsPending` | riscv_cpu_design/pipeline_3/rtl_pipeline/riscv_pipeline.v:74-77 | Forwarding gives each source register its value with the pending write-back applied, and zero for x0 even when x0 is written. |
| `PipelineRefinement.RfIsPending` | riscv_cpu_design/pipeline_3/rtl_pipeline/RF.v:35-45 | At the edge the register file becomes the registers with the pending write-back applied; x0 stays zero. |
| `PipelineRefinement.InvKept` | riscv_cpu_design/pipeline_3/rtl_pipeline/riscv_pipeline.v:176-196 | The pipeline invariant (valid fetched words are the program's words at their addresses, fetch addresses are consecutive, x0 is zero) holds after every cycle. |
| `PipelineRefinement.Stutters` | riscv_cpu_design/pipeline_3/rtl_pipeline/riscv_pipeline.v:71-72 | A cycle without a valid IF/ID entry leaves the abstract machine where it is. |
| `PipelineRefinement.Computes` | riscv_cpu_design/pipeline_3/rtl_pipeline/riscv_pipeline.v:74-174 | For each kind of instruction, the ALU result and the redirect of the wiring are those of the instruction on the pending registers. |
| `PipelineRefinement.Retires` | riscv_cpu_design/pipeline_3/struc.dot:40-103 | A cycle with a valid IF/ID entry is exactly one step of the sequential machine on program counter, registers with the pending write applied, and memory. |
| `PipelineRefinement.FollowsNext` | riscv_cpu_design/pipeline_3/struc.dot:40-103 | From any state the pipeline can be in, one more cycle keeps it at the place of the sequential machine, one step further if an instruction was in EX. |
| `PipelineRefinement.Refines` | riscv_cpu_design/pipeline_3/struc.dot:40-103 | For every program and any number of cycles, the pipeline is at the sequential machine's state after as many steps as instructions have retired. |
| `PipelineRefinement.StraightLine` | riscv_cpu_design/pipeline_3/rtl_pipeline/riscv_pipeline.v:70-174 | Over every run without a redirect the program counter ends four bytes on for each instruction retired. |
| `PipelineRefinement.CycleCount` | riscv_cpu_design/pipeline_3/rtl_pipeline/riscv_pipeline.v:169-187 | For every run: cycles and the bubbles at its end equal the bubbles at its start, the retired instructions and twice the redirects. |
| `PipelineRefinement.RedirectCost` | riscv_cpu_design/pipeline_3/rtl_pipeline/riscv_pipeline.v:169-187 | After a redirect exactly two cycles have no valid entry and the third executes at the target. |
| `PipelineRefinement.Progress` | riscv_cpu_design/pipeline_3/rtl_pipeline/riscv_pipeline.v:71-187 | The pipeline never stalls for good: k instructions retire within 3k + 2 cycles. |
| `PipelineRefinement.ResetEstablishes` | riscv_cpu_design/pipeline_3/rtl_pipeline/riscv_pipeline.v:176-185 | A reset cycle from any state establishes the invariant at the reset address with two bubbles; a write in flight is still committed. |
| `PipelineCore.ProgramCounter.Posedge` | riscv_cpu_design/pipeline_3/rtl_pipeline/PC.v:13-19 | Reset has priority over enable; without either the address is held. |
| `PipelineCore.InstructionMemory.Posedge` | riscv_cpu_design/pipeline_3/rtl_pipeline/IM.v:34-38 | The registered read delivers the word addressed before the edge. |
| `PipelineCore.FetchRegister.Posedge` | riscv_cpu_design/pipeline_3/rtl_pipeline/IF_ID.v:20-37 | Reset has priority over clear, clear over enable; otherwise all four registers hold. |
| `PipelineCore.RegisterFile.Posedge` | riscv_cpu_design/pipeline_3/rtl_pipeline/RF.v:35-42 | The written register file, with x0 zero whatever is written. |
| `PipelineCore.RegisterFile.Read` | riscv_cpu_design/pipeline_3/rtl_pipeline/RF.v:44-45 | A read port gives the register, and zero for x0. |
| `PipelineCore.DataMemory.Posedge` | riscv_cpu_design/pipeline_3/rtl_pipeline/DM.v:41-52 | Writes commit at the edge, reads return the old word through the output register, and a write suppresses the read. |
| `PipelineCore.Core.constructor` | riscv_cpu_design/pipeline_3/rtl_pipeline/riscv_pipeline.v:86-163 | The assembled core with the given program and a zero x0. |
| `PipelineCore.Core.Operands` | riscv_cpu_design/pipeline_3/rtl_pipeline/riscv_pipeline.v:74-77 | The two operands are read from the register file or forwarded from the write-back stage, as in the specification. |
| `PipelineCore.Core.Wiring` | riscv_cpu_design/pipeline_3/rtl_pipeline/riscv_pipeline.v:70-174 | The combinational wires of the top module, read off the registers, are the specification's. |
| `PipelineCore.Core.ClockFetch` | riscv_cpu_design/pipeline_3/rtl_pipeline/riscv_pipeline.v:86-113 | The fetch registers after the edge: program counter, instruction memory output, fetch request and IF/ID. |
| `PipelineCore.Core.ClockBack` | riscv_cpu_design/pipeline_3/rtl_pipeline/riscv_pipeline.v:137-196 | Register file, data memory and write-back registers after the edge. |
| `PipelineCore.Core.Clock` | riscv_cpu_design/pipeline_3/rtl_pipeline/riscv_pipeline.v:176-196 | One clock of the assembled modules is one step of the specification machine that `Refines` is about, with and without reset. Without reset and redirect the program counter is the old one plus 4. |
| `CoreList.DataParts` | riscv_cpu_design/pipeline_3/e203_hbirdv2/riscv-tools/fpga_test4sim/coremark4sim/core_list_join.c:63-95 | A data word is its high byte, the mark of a computed value and seven bits of value, and nothing else. |
| `CoreList.OperandHalves` | riscv_cpu_design/pipeline_3/e203_hbirdv2/riscv-tools/fpga_test4sim/coremark4sim/core_list_join.c:68-72 | Both halves of the kernel operand are the four upper bits of the value; the lower three bits decide whether a kernel is run. |
| `CoreList.ComputedBy` | riscv_cpu_design/pipeline_3/e203_hbirdv2/riscv-tools/fpga_test4sim/coremark4sim/core_list_join.c:72-88 | Which kernel gets the operand, and that the first one gets no less than 0x22. |
| `CoreList.RestoredFrom` | riscv_cpu_design/pipeline_3/e203_hbirdv2/riscv-tools/fpga_test4sim/coremark4sim/core_list_join.c:112-118 | Restoring the low byte depends on the high byte only, so caching never changes what is restored. |
| `CoreList.CalcFunc` | riscv_cpu_design/pipeline_3/e203_hbirdv2/riscv-tools/fpga_test4sim/coremark4sim/core_list_join.c:63-95 | The value is computed at most once: afterwards the item is cached with that value and the same high byte; a cached item and the results are left alone; the running CRC and the first state and matrix CRC are updated exactly when computing. |
| `CoreList.Compare` | riscv_cpu_design/pipeline_3/e203_hbirdv2/riscv-tools/fpga_test4sim/coremark4sim/core_list_join.c:101-118 | Both comparators return the difference of two keys that depend on the items as they are afterwards, and change only low bytes, and those only the first time. |
| `ListOrder.MergeTakeFirst` | riscv_cpu_design/pipeline_3/e203_hbirdv2/riscv-tools/fpga_test4sim/coremark4sim/core_list_join.c:454-478 | Taking the front of the first run when it is not larger keeps the merged part sorted, stable and below all that is left. |
| `ListOrder.MergeTakeSecond` | riscv_cpu_design/pipeline_3/e203_hbirdv2/riscv-tools/fpga_test4sim/coremark4sim/core_list_join.c:454-478 | The same for taking the front of the second run when it is strictly smaller. |
| `ListLinks.Find` | riscv_cpu_design/pipeline_3/e203_hbirdv2/riscv-tools/fpga_test4sim/coremark4sim/core_list_join.c:370-380 | Returns the first cell with the index (or, for a negative index, the low data byte), or null if there is none. |
| `ListLinks.Reverse` | riscv_cpu_design/pipeline_3/e203_hbirdv2/riscv-tools/fpga_test4sim/coremark4sim/core_list_join.c:395-404 | The same cells linked in the opposite order, ending in null. |
| `ListLinks.ReversedTwice` | riscv_cpu_design/pipeline_3/e203_hbirdv2/riscv-tools/fpga_test4sim/coremark4sim/core_list_join.c:395-404 | Reversing twice gives the original order. |
| `ListSort.CompareCells` | riscv_cpu_design/pipeline_3/e203_hbirdv2/riscv-tools/fpga_test4sim/coremark4sim/core_list_join.c:463-469 | Comparing two cells settles exactly these two keys and no settled key ever changes again, although the comparator rewrites the data. |
| `ListSort.MergeStep` | riscv_cpu_design/pipeline_3/e203_hbirdv2/riscv-tools/fpga_test4sim/coremark4sim/core_list_join.c:454-478 | One round of the merge loop moves one cell to the merged list, keeps links, sizes and sortedness, and shortens what is left. |
| `ListSort.Merge` | riscv_cpu_design/pipeline_3/e203_hbirdv2/riscv-tools/fpga_test4sim/coremark4sim/core_list_join.c:454-478 | Two adjacent sorted runs become one sorted run of the same cells, appended to the merged list, ties in input order. |
| `ListSort.Advance` | riscv_cpu_design/pipeline_3/e203_hbirdv2/riscv-tools/fpga_test4sim/coremark4sim/core_list_join.c:441-448 | The walk finds the end of the first run: as many places as asked for, or to the end of the list. |
| `ListSort.RunsMerged` | riscv_cpu_design/pipeline_3/e203_hbirdv2/riscv-tools/fpga_test4sim/coremark4sim/core_list_join.c:433-484 | Replacing two neighbouring runs by their merge keeps all runs sorted and in stable order to each other. |
| `ListSort.PassStep` | riscv_cpu_design/pipeline_3/e203_hbirdv2/riscv-tools/fpga_test4sim/coremark4sim/core_list_join.c:439-482 | One round of a pass merges the next pair of runs and keeps every other run. |
| `ListSort.Pass` | riscv_cpu_design/pipeline_3/e203_hbirdv2/riscv-tools/fpga_test4sim/coremark4sim/core_list_join.c:433-484 | A pass over sorted runs of one length leaves sorted runs of twice the length of the same cells in a null-terminated list, and halves their number. |
| `ListSort.MergeSort` | riscv_cpu_design/pipeline_3/e203_hbirdv2/riscv-tools/fpga_test4sim/coremark4sim/core_list_join.c:426-496 | On any non-empty acyclic list and both comparators: terminates with an acyclic null-terminated list of the same cells, sorted by the comparator's final keys with ties in input order; with two cells or more every key has been settled; keys known beforehand (cached values, and values of the types that need no kernel) are the final ones; only low bytes of data change. |
| `ListBench.Remove` | riscv_cpu_design/pipeline_3/e203_hbirdv2/riscv-tools/fpga_test4sim/coremark4sim/core_list_join.c:316-327 | The next cell is unlinked and its item swapped into the current cell. |
| `ListBench.UndoRemove` | riscv_cpu_design/pipeline_3/e203_hbirdv2/riscv-tools/fpga_test4sim/coremark4sim/core_list_join.c:345-355 | The removed cell is linked back behind the modified one and the items are swapped back. |
| `ListBench.FindAndWalk` | riscv_cpu_design/pipeline_3/e203_hbirdv2/riscv-tools/fpga_test4sim/coremark4sim/core_list_join.c:175-182 | While the cell is out, the walk takes one checksum step for every cell from the first match on, or from the second cell if nothing matches; each step is on the item of the first cell. |
| `ListBench.RemoveAndRestore` | riscv_cpu_design/pipeline_3/e203_hbirdv2/riscv-tools/fpga_test4sim/coremark4sim/core_list_join.c:174-186 | Removing and undoing gives back cell order, item binding and data. |
| `ListBench.RoundPermutes` | riscv_cpu_design/pipeline_3/e203_hbirdv2/riscv-tools/fpga_test4sim/coremark4sim/core_list_join.c:144-163 | A find and relink round permutes the list, wherever the found cell is. |
| `ListBench.Relink` | riscv_cpu_design/pipeline_3/e203_hbirdv2/riscv-tools/fpga_test4sim/coremark4sim/core_list_join.c:157-162 | The cell after the found one moves to second place, including the cases where it is already there. |
| `ListBench.FindAndReverse` | riscv_cpu_design/pipeline_3/e203_hbirdv2/riscv-tools/fpga_test4sim/coremark4sim/core_list_join.c:144-163 | One round reverses the list and then moves the cell after the found one, as the specification on sequences says, and counts a find or a miss and one bit of an item. |
| `ListBench.FindRounds` | riscv_cpu_design/pipeline_3/e203_hbirdv2/riscv-tools/fpga_test4sim/coremark4sim/core_list_join.c:143-169 | All rounds, for any number and any start index: exactly the specified order of the same cells, data unchanged, and the counts of all rounds. |
| `ListBench.EachRoundCounts` | riscv_cpu_design/pipeline_3/e203_hbirdv2/riscv-tools/fpga_test4sim/coremark4sim/core_list_join.c:144-170 | The finds and misses counted are as many as the rounds. |
| `ListBench.CountedOne` | riscv_cpu_design/pipeline_3/e203_hbirdv2/riscv-tools/fpga_test4sim/coremark4sim/core_list_join.c:148-154 | A round adds one to the finds if and only if an item matched, and to one of the two counts. |
| `ListBench.BitsCounted` | riscv_cpu_design/pipeline_3/e203_hbirdv2/riscv-tools/fpga_test4sim/coremark4sim/core_list_join.c:148-156 | A miss adds the lowest bit of the high byte of the item in second place after the reversal; a find adds the next bit of the item found, if that is odd. |
| `ListBench.PointsCounted` | riscv_cpu_design/pipeline_3/e203_hbirdv2/riscv-tools/fpga_test4sim/coremark4sim/core_list_join.c:170 | A find adds four and a miss takes one, modulo 2^16; without either the sum is zero. |
| `ListBench.SoughtAfter` | riscv_cpu_design/pipeline_3/e203_hbirdv2/riscv-tools/fpga_test4sim/coremark4sim/core_list_join.c:143-165 | The index looked for is the first plus the number of rounds, until it wraps; a negative one stays. The data looked for are the low byte of the last round. |
| `ListBench.BytesInOrder` | riscv_cpu_design/pipeline_3/e203_hbirdv2/riscv-tools/fpga_test4sim/coremark4sim/core_list_join.c:145 | That byte counts up from zero and wraps at 2^8. |
| `ListBench.CrcLast` | riscv_cpu_design/pipeline_3/e203_hbirdv2/riscv-tools/fpga_test4sim/coremark4sim/core_list_join.c:179-195 | Every step works the datum into the checksum so far. |
| `ListBench.SortedUnique` | riscv_cpu_design/pipeline_3/e203_hbirdv2/riscv-tools/fpga_test4sim/coremark4sim/core_list_join.c:426-496 | There is only one stably sorted arrangement of the same cells. |
| `ListBench.IncreasingIsSorted` | riscv_cpu_design/pipeline_3/e203_hbirdv2/riscv-tools/fpga_test4sim/coremark4sim/core_list_join.c:186-188 | A list with strictly increasing indices is the stably sorted one, whatever the order before sorting. |
| `ListBench.SortedIsNonDecreasing` | riscv_cpu_design/pipeline_3/e203_hbirdv2/riscv-tools/fpga_test4sim/coremark4sim/core_list_join.c:112-188 | Sorted by index means non-decreasing indices. |
| `ListBench.ReachedTie` | riscv_cpu_design/pipeline_3/e203_hbirdv2/riscv-tools/fpga_test4sim/coremark4sim/core_list_join.c:143-173 | Two cells with the same index reach the sort by index in an order that can be told from the data before: by value if the list is sorted by value in between and the values are known, then by their order after the find rounds. |
| `ListBench.RestoredExactly` | riscv_cpu_design/pipeline_3/e203_hbirdv2/riscv-tools/fpga_test4sim/coremark4sim/core_list_join.c:125-188 | Told from the list before: it comes back as it was if and only if every pair of cells is in increasing index order, or has equal indices and keeps its order through the rounds and the sort by value; exact unless two cells with equal indices have values still to be computed by a kernel, and then one way. |
| `ListBench.TiesStayReversed` | riscv_cpu_design/pipeline_3/e203_hbirdv2/riscv-tools/fpga_test4sim/coremark4sim/core_list_join.c:125-188 | An input that does not come back: a list sorted by index whose two cells with equal indices are exchanged by one find round that finds nothing. |
| `ListBench.AllRestored` | riscv_cpu_design/pipeline_3/e203_hbirdv2/riscv-tools/fpga_test4sim/coremark4sim/core_list_join.c:112-118 | When every item has taken part in a comparison by index, every low byte is rebuilt from its high byte. |
| `ListBench.BenchList` | riscv_cpu_design/pipeline_3/e203_hbirdv2/riscv-tools/fpga_test4sim/coremark4sim/core_list_join.c:132-199 | Every run on a list of three cells or more: an acyclic list of the same cells, each with its own item; every datum has its low byte rebuilt from its high byte; the final list is the initial one exactly under the condition of `RestoredExactly`, and always when indices strictly increase. The value returned is the sum of the counts, as `PointsCounted` and `BitsCounted` determine it, followed by the checksum steps of both walks, all on the item that is first in the list at that time. |
| `Quicksort.Insert` | riscv_cpu_design/pipeline_3/e203_hbirdv2/riscv-tools/riscv-tests/benchmarks/qsort/qsort_main.c:46-57 | The inner loop, which stops at the front of the subarray, inserts one element into a sorted prefix. |
| `Quicksort.InsertionSort` | riscv_cpu_design/pipeline_3/e203_hbirdv2/riscv-tools/riscv-tests/benchmarks/qsort/qsort_main.c:42-58 | The subarray becomes a sorted rearrangement and nothing outside it changes. |
| `Quicksort.MedianOfThree` | riscv_cpu_design/pipeline_3/e203_hbirdv2/riscv-tools/riscv-tests/benchmarks/qsort/qsort_main.c:91-101 | The four swaps put the pivot next to the front with sentinels at both ends, rearranging the range only; increasing elements only have their middle one moved. |
| `Quicksort.Sentinels` | riscv_cpu_design/pipeline_3/e203_hbirdv2/riscv-tools/riscv-tests/benchmarks/qsort/qsort_main.c:103-108 | In every round of the partition loop there is an element inside the current range at which each scan must stop. |
| `Quicksort.ScanUp` | riscv_cpu_design/pipeline_3/e203_hbirdv2/riscv-tools/riscv-tests/benchmarks/qsort/qsort_main.c:104 | The upward scan stops no later than its sentinel, at the first element not below the pivot. |
| `Quicksort.ScanDown` | riscv_cpu_design/pipeline_3/e203_hbirdv2/riscv-tools/riscv-tests/benchmarks/qsort/qsort_main.c:105 | The downward scan stops no later than its sentinel, at the first element not above the pivot. |
| `Quicksort.Separated` | riscv_cpu_design/pipeline_3/e203_hbirdv2/riscv-tools/riscv-tests/benchmarks/qsort/qsort_main.c:106-112 | When the scans have crossed, placing the pivot leaves two parts of the range whose elements are all in order with everything outside their part. |
| `Quicksort.Partition` | riscv_cpu_design/pipeline_3/e203_hbirdv2/riscv-tools/riscv-tests/benchmarks/qsort/qsort_main.c:91-112 | Partitioning rearranges the range only and splits it into two disjoint, smaller, separated parts; increasing elements are left as they were and split at the middle. |
| `Quicksort.OpenedScan` | riscv_cpu_design/pipeline_3/e203_hbirdv2/riscv-tools/riscv-tests/benchmarks/qsort/qsort_main.c:96-112 | On increasing elements the scans cross at the middle in the first round, and putting the pivot back restores the order. |
| `Quicksort.PendingRearranged` | riscv_cpu_design/pipeline_3/e203_hbirdv2/riscv-tools/riscv-tests/benchmarks/qsort/qsort_main.c:74-131 | Working inside one pending range leaves every pair not in a common pending range in order. |
| `Quicksort.PendingDone` | riscv_cpu_design/pipeline_3/e203_hbirdv2/riscv-tools/riscv-tests/benchmarks/qsort/qsort_main.c:77-86 | Once the current range is sorted it can be dropped: the stacked ranges are the only unsorted parts. |
| `Quicksort.PendingSplit` | riscv_cpu_design/pipeline_3/e203_hbirdv2/riscv-tools/riscv-tests/benchmarks/qsort/qsort_main.c:103-129 | After partitioning, the two parts and the stacked ranges are the only unsorted parts. |
| `Quicksort.FitsSplit` | riscv_cpu_design/pipeline_3/e203_hbirdv2/riscv-tools/riscv-tests/benchmarks/qsort/qsort_main.c:115-129 | Stacking the larger part and going on with the smaller keeps (size + 1) * 2^depth at most n + 1 for every range, through pushes and pops. |
| `Quicksort.DepthBound` | riscv_cpu_design/pipeline_3/e203_hbirdv2/riscv-tools/riscv-tests/benchmarks/qsort/qsort_main.c:21-129 | Hence, below 12 * 2^24 elements, a push never goes past the end of the 50-entry stack. |
| `Quicksort.DeepNext` | riscv_cpu_design/pipeline_3/e203_hbirdv2/riscv-tools/riscv-tests/benchmarks/qsort/qsort_main.c:115-129 | On increasing elements every push halves the range at hand, so that from 12 * 2^24 - 1 elements on it is still long after 24 pushes. |
| `Quicksort.SortShort` | riscv_cpu_design/pipeline_3/e203_hbirdv2/riscv-tools/riscv-tests/benchmarks/qsort/qsort_main.c:77-79 | A short current range is sorted in place and the stacked ranges remain the only unsorted parts. |
| `Quicksort.Divide` | riscv_cpu_design/pipeline_3/e203_hbirdv2/riscv-tools/riscv-tests/benchmarks/qsort/qsort_main.c:89-129 | A long current range is divided; the larger part is to be stacked, and the work that is left shrinks. |
| `Quicksort.Pop` | riscv_cpu_design/pipeline_3/e203_hbirdv2/riscv-tools/riscv-tests/benchmarks/qsort/qsort_main.c:81-85 | The two pointers taken from the stack are the range on its top; the rest stays. |
| `Quicksort.DivideAndPush` | riscv_cpu_design/pipeline_3/e203_hbirdv2/riscv-tools/riscv-tests/benchmarks/qsort/qsort_main.c:89-129 | The push stores the larger part inside the stack array and the invariant of all ranges goes on; it has no room exactly when 24 ranges are stacked, never below the bound. |
| `Quicksort.Sort` | riscv_cpu_design/pipeline_3/e203_hbirdv2/riscv-tools/riscv-tests/benchmarks/qsort/qsort_main.c:67-132 | Terminates for every input with a rearrangement of the first n elements, sorted unless the stack was too small. It is large enough for all inputs of length n if n + 1 is below 12 * 2^24, and from there on too small for the increasing input: the exact bound. |
| `SenseBarrier.InvKept` | riscv_cpu_design/pipeline_3/e203_hbirdv2/riscv-tools/riscv-tests/benchmarks/common/util.h:44-62 | Every atomic step of every thread keeps the barrier invariant (senses match epochs, one leader at a time, the count is the number of arrived threads). |
| `SenseBarrier.Safety` | riscv_cpu_design/pipeline_3/e203_hbirdv2/riscv-tools/riscv-tests/benchmarks/common/util.h:44-62 | No thread has left its k-th barrier before all have entered theirs, episode counts differ by at most one, and the count stays between 0 and the number of threads. |
| `SenseBarrier.RunSafety` | riscv_cpu_design/pipeline_3/e203_hbirdv2/riscv-tools/riscv-tests/benchmarks/common/util.h:44-62 | The invariant holds in every state of every interleaved run of any number of threads. |
| `SenseBarrier.NotStuck` | riscv_cpu_design/pipeline_3/e203_hbirdv2/riscv-tools/riscv-tests/benchmarks/common/util.h:52-59 | With all threads inside the barrier some thread can move. |
| `SenseBarrier.MoveAdvances` | riscv_cpu_design/pipeline_3/e203_hbirdv2/riscv-tools/riscv-tests/benchmarks/common/util.h:52-59 | Every move inside the barrier brings its thread closer to leaving, whatever the others do. |
| `SenseBarrier.Drained` | riscv_cpu_design/pipeline_3/e203_hbirdv2/riscv-tools/riscv-tests/benchmarks/common/util.h:52-61 | If all have entered the same episode and nobody can move, everybody has left it. |
| `SenseBarrier.EverybodyLeaves` | riscv_cpu_design/pipeline_3/e203_hbirdv2/riscv-tools/riscv-tests/benchmarks/common/util.h:52-61 | Any sequence of moves in an episode is bounded in length, and when it cannot be prolonged every thread has left. |
| `VectorAdd.InvKept` | riscv_cpu_design/pipeline_3/e203_hbirdv2/riscv-tools/riscv-tests/benchmarks/mt-vvadd/mt-vvadd.c:47-78 | Each memory access or barrier step of any thread keeps what is known of every element in every phase, or a check stops the program, and then some expected value is not the sum. |
| `VectorAdd.RunKeeps` | riscv_cpu_design/pipeline_3/e203_hbirdv2/riscv-tools/riscv-tests/benchmarks/mt-vvadd/mt-vvadd.c:47-78 | For any number of threads, length, interleaving and reference data: in every state of every run the invariant holds, or a check has stopped the program on a wrong expected value. |
| `VectorAdd.NoCheckFails` | riscv_cpu_design/pipeline_3/e203_hbirdv2/riscv-tools/riscv-tests/benchmarks/mt-vvadd/mt-vvadd.c:56-74 | With the sums as reference data no check ever fails. |
| `VectorAdd.WrongDataStops` | riscv_cpu_design/pipeline_3/e203_hbirdv2/riscv-tools/riscv-tests/benchmarks/mt-vvadd/mt-vvadd.c:56-68 | With any other reference data no thread ever gets past the barrier after the first check. |
| `VectorAdd.AccessesNamed` | riscv_cpu_design/pipeline_3/e203_hbirdv2/riscv-tools/riscv-tests/benchmarks/mt-vvadd/vvadd.c:14-17 | A step changes only the element its named access writes. |
| `VectorAdd.AccessesExact` | riscv_cpu_design/pipeline_3/e203_hbirdv2/riscv-tools/riscv-tests/benchmarks/mt-vvadd/mt-vvadd.c:47-78 | A step that reads an element depends on no other element of the results, and one that writes an element leaves the same results whatever was there. |
| `VectorAdd.RaceFree` | riscv_cpu_design/pipeline_3/e203_hbirdv2/riscv-tools/riscv-tests/benchmarks/mt-vvadd/mt-vvadd.c:53-76 | Two threads whose next accesses meet at one element both read it, in every reachable state, including the in-place addition. |
| `VectorAdd.ChecksSeeSums` | riscv_cpu_design/pipeline_3/e203_hbirdv2/riscv-tools/riscv-tests/benchmarks/mt-vvadd/mt-vvadd.c:56-74 | At every index, both checks by thread 0 read the sum of the two inputs. |
| `VectorAdd.CheckFinds` | riscv_cpu_design/pipeline_3/e203_hbirdv2/riscv-tools/riscv-tests/benchmarks/common/util.h:28-42 | A round of a check, two elements read and then compared, stops the program if and only if an expected value of the round is not the sum. |
| `VectorAdd.StopsWithVerdict` | riscv_cpu_design/pipeline_3/e203_hbirdv2/riscv-tools/riscv-tests/benchmarks/common/util.h:28-42 | The answer of the round that stops is the answer of the check on all the sums: one more than the first index that differs. |
| `VectorAdd.ResultsAreSums` | riscv_cpu_design/pipeline_3/e203_hbirdv2/riscv-tools/riscv-tests/benchmarks/mt-vvadd/mt-vvadd.c:69-77 | When a thread has left the last barrier all results are the sums, and so is all reference data. |
| `VectorAdd.ProgramEnds` | riscv_cpu_design/pipeline_3/e203_hbirdv2/riscv-tools/riscv-tests/benchmarks/mt-vvadd/mt-vvadd.c:47-78 | In whatever order the threads go on, the program ends: the number of steps that change something is bounded, and when no thread can go on, a check has stopped the program or every thread has left the fifth barrier. |
| `VectorAdd.VerifyDouble` | riscv_cpu_design/pipeline_3/e203_hbirdv2/riscv-tools/riscv-tests/benchmarks/common/util.h:28-42 | Zero means all equal; otherwise the result is one more than the first index that differs, also with the unrolled loop. |
| `RadixSort.Histogram` | riscv_cpu_design/pipeline_3/e203_hbirdv2/riscv-tools/riscv-tests/benchmarks/rsort/rsort.c:43-58 | After the unrolled and the remainder loop each bucket holds the number of elements with its digit. |
| `RadixSort.PrefixSums` | riscv_cpu_design/pipeline_3/e203_hbirdv2/riscv-tools/riscv-tests/benchmarks/rsort/rsort.c:60-67 | After the unrolled in-place sums each bucket holds the end of its region. |
| `RadixSort.CursorRoom` | riscv_cpu_design/pipeline_3/e203_hbirdv2/riscv-tools/riscv-tests/benchmarks/rsort/rsort.c:69-89 | While the elements are placed from the end, each cursor is the start of its region plus the number of its elements still to come. |
| `RadixSort.ScatterStep` | riscv_cpu_design/pipeline_3/e203_hbirdv2/riscv-tools/riscv-tests/benchmarks/rsort/rsort.c:79-89 | Placing one element decrements a cursor that stays inside the scratch array, and every placed element is at its stable position. |
| `RadixSort.ScatterFour` | riscv_cpu_design/pipeline_3/e203_hbirdv2/riscv-tools/riscv-tests/benchmarks/rsort/rsort.c:71-86 | The unrolled round, which decrements four cursors before it writes, places four elements correctly even when digits coincide. |
| `RadixSort.Scatter` | riscv_cpu_design/pipeline_3/e203_hbirdv2/riscv-tools/riscv-tests/benchmarks/rsort/rsort.c:69-89 | The scratch array becomes the stable distribution of the array by the current digit. |
| `RadixSort.GatherIsBelow` | riscv_cpu_design/pipeline_3/e203_hbirdv2/riscv-tools/riscv-tests/benchmarks/rsort/rsort.c:60-89 | The buckets below a digit hold exactly the elements with smaller digits. |
| `RadixSort.PassPermutes` | riscv_cpu_design/pipeline_3/e203_hbirdv2/riscv-tools/riscv-tests/benchmarks/rsort/rsort.c:41-96 | A pass is a permutation. |
| `RadixSort.GatherSorted` | riscv_cpu_design/pipeline_3/e203_hbirdv2/riscv-tools/riscv-tests/benchmarks/rsort/rsort.c:41-96 | Stable distribution of data ordered by the low k digits is ordered by the low k + 1 digits. |
| `RadixSort.LeIsLessOrEqual` | riscv_cpu_design/pipeline_3/e203_hbirdv2/riscv-tools/riscv-tests/benchmarks/rsort/rsort.c:48-58 | Ordering by the four base-256 digits is the order of the 32-bit words. |
| `RadixSort.PassesSort` | riscv_cpu_design/pipeline_3/e203_hbirdv2/riscv-tools/riscv-tests/benchmarks/rsort/rsort.c:41-96 | After k passes the data is a permutation ordered by the low k digits. |
| `RadixSort.FourPassesSort` | riscv_cpu_design/pipeline_3/e203_hbirdv2/riscv-tools/riscv-tests/benchmarks/rsort/rsort.c:41-96 | After the four passes the data is sorted. |
| `RadixSort.Sort` | riscv_cpu_design/pipeline_3/e203_hbirdv2/riscv-tools/riscv-tests/benchmarks/rsort/rsort.c:32-99 | For every n of at least 3 the caller's array ends as a sorted permutation of its input, in the caller's array because the number of swaps is even. |
| `Checksum.ReverseMirrors` | riscv_cpu_design/pipeline_3/e203_hbirdv2/riscv-tools/riscv-tests/debug/programs/checksum.c:6-13 | The five masked shifts put bit 31 - i at bit i, for every i. |
| `Checksum.ReverseTwice` | riscv_cpu_design/pipeline_3/e203_hbirdv2/riscv-tools/riscv-tests/debug/programs/checksum.c:6-13 | Reversing twice is the identity. |
| `Checksum.StepsReversed` | riscv_cpu_design/pipeline_3/e203_hbirdv2/riscv-tools/riscv-tests/debug/programs/checksum.c:29-34 | Any number of most-significant-bit-first steps, seen through `reverse`, are least-significant-bit-first steps with the reflected polynomial. |
| `Checksum.TableSplit` | riscv_cpu_design/pipeline_3/e203_hbirdv2/riscv-tools/riscv-tests/debug/programs/checksum.c:29-34 | Eight reflected steps are one table step: the entry for the low byte combined with the register shifted by a byte. |
| `Checksum.ByteMatches` | riscv_cpu_design/pipeline_3/e203_hbirdv2/riscv-tools/riscv-tests/debug/programs/checksum.c:27-34 | The inner loop on a reversed byte is the byte update of section 8 of RFC 1952. |
| `Checksum.MatchesRfc` | riscv_cpu_design/pipeline_3/e203_hbirdv2/riscv-tools/riscv-tests/debug/programs/checksum.c:20-38 | For every message the bit-wise algorithm and the byte-wise table algorithm of RFC 1952 give the same CRC. |
| `Checksum.FeedByte` | riscv_cpu_design/pipeline_3/e203_hbirdv2/riscv-tools/riscv-tests/debug/programs/checksum.c:29-34 | The loop of eight rounds computes eight most-significant-bit-first steps. |
| `Checksum.Crc32a` | riscv_cpu_design/pipeline_3/e203_hbirdv2/riscv-tools/riscv-tests/debug/programs/checksum.c:20-38 | The function returns the CRC-32 of section 8 of RFC 1952 of its message, whose length an `int` can count. |
| `Checksum.InPieces` | riscv_cpu_design/pipeline_3/e203_hbirdv2/riscv-tools/riscv-tests/debug/gdbserver.py:671-697 | The RFC update over a concatenation is the update over the pieces, the property by which a CRC is taken piecewise. |
| `PageFrames.LfsrStep` | riscv_cpu_design/pipeline_3/e203_hbirdv2/riscv-tools/riscv-tests/env/v/riscv_test.h:43-44 | The shift register maps 1..63 to itself and advances the position in its cycle by one. |
| `PageFrames.OrbitDistinct` | riscv_cpu_design/pipeline_3/e203_hbirdv2/riscv-tools/riscv-tests/env/v/riscv_test.h:43-44 | From any start the first 63 values are pairwise distinct. |
| `PageFrames.OrbitReturns` | riscv_cpu_design/pipeline_3/e203_hbirdv2/riscv-tools/riscv-tests/env/v/riscv_test.h:43-44 | After 63 steps the register has its first value again: its period is `MAX_TEST_PAGES`. |
| `PagerSpec.BootedInv` | riscv_cpu_design/pipeline_3/e203_hbirdv2/riscv-tools/riscv-tests/env/v/vm.c:258-267 | After boot, for every random start, the pager invariant holds and the program sees the initial pages. |
| `PagerSpec.BringInKeeps` | riscv_cpu_design/pipeline_3/e203_hbirdv2/riscv-tools/riscv-tests/env/v/vm.c:139-159 | Bringing a page in finds a free node, passes its assertion, keeps the invariant and changes what no page shows. |
| `PagerSpec.RoomLeft` | riscv_cpu_design/pipeline_3/e203_hbirdv2/riscv-tools/riscv-tests/env/v/vm.c:139-141 | There are more frames than user pages, so the free list is never empty when a page is to be brought in. |
| `PagerSpec.FaultKeeps` | riscv_cpu_design/pipeline_3/e203_hbirdv2/riscv-tools/riscv-tests/env/v/vm.c:123-160 | For any hardware fault at a user address no assertion fails, the invariant holds afterwards, A and D bits only grow, other entries stay, the page comes strictly closer to being accessible, and what every page shows is unchanged. |
| `PagerSpec.FaultExact` | riscv_cpu_design/pipeline_3/e203_hbirdv2/riscv-tools/riscv-tests/env/v/vm.c:128-137 | On a mapped page the assertion of the handler fails exactly when entry and cause gave no reason for a fault; otherwise one bit is set, the dirty bit for stores only. |
| `PagerSpec.MappedApart` | riscv_cpu_design/pipeline_3/e203_hbirdv2/riscv-tools/riscv-tests/env/v/vm.c:145-153 | Mapped frames are pairwise distinct and disjoint from all backing pages. |
| `PagerSpec.StoreKeeps` | riscv_cpu_design/pipeline_3/e203_hbirdv2/riscv-tools/riscv-tests/env/v/vm.c:123-160 | A store that does not fault keeps the invariant, so a page without D still equals its backing page, and changes exactly one byte of one page. |
| `PagerSpec.EvictKeeps` | riscv_cpu_design/pipeline_3/e203_hbirdv2/riscv-tools/riscv-tests/env/v/vm.c:94-121 | Evicting the next page passes all assertions, in particular that a changed page has its D bit. |
| `PagerSpec.EvictAllKeeps` | riscv_cpu_design/pipeline_3/e203_hbirdv2/riscv-tools/riscv-tests/env/v/vm.c:164-172 | The eviction of all pages at the ecall passes all assertions. |
| `Pager.VirtualMemory.constructor` | riscv_cpu_design/pipeline_3/e203_hbirdv2/riscv-tools/riscv-tests/env/v/vm.c:258-267 | The boot code, with the loop over the shift register, produces the booted state of the specification. |
| `Pager.VirtualMemory.FillNodes` | riscv_cpu_design/pipeline_3/e203_hbirdv2/riscv-tools/riscv-tests/env/v/vm.c:261-267 | Each free-list node gets its own frame address and the link to the next, the last none. |
| `Pager.VirtualMemory.HandleFault` | riscv_cpu_design/pipeline_3/e203_hbirdv2/riscv-tools/riscv-tests/env/v/vm.c:123-160 | The handler computes the specified fault, and stops at an assertion exactly where the specification has no result. |
| `Pager.VirtualMemory.Evict` | riscv_cpu_design/pipeline_3/e203_hbirdv2/riscv-tools/riscv-tests/env/v/vm.c:94-121 | The same for `evict`. |
| `Pager.VirtualMemory.UserCall` | riscv_cpu_design/pipeline_3/e203_hbirdv2/riscv-tools/riscv-tests/env/v/vm.c:164-172 | The same for the loop over all pages at the ecall. |
| `Pager.VirtualMemory.Perform` | riscv_cpu_design/pipeline_3/e203_hbirdv2/riscv-tools/riscv-tests/env/v/vm.c:162-192 | Any user load, fetch or store succeeds after at most three faults and acts as on flat memory. |
| `Pager.VirtualMemory.RunProgram` | riscv_cpu_design/pipeline_3/e203_hbirdv2/riscv-tools/riscv-tests/env/v/vm.c:94-192 | For every sequence of user accesses up to the ecall no assertion fails, every load returns what flat memory would, and after eviction the pages show the initial image again. |
| `TokenMachine.MeansStep` | riscv_cpu_design/pipeline_3/e203_hbirdv2/riscv-tools/fpga_test4sim/coremark4sim/core_state.c:194-273 | A transition that does not reject keeps the meaning of the state: the text read so far has that state's number format. |
| `TokenMachine.MeansBefore` | riscv_cpu_design/pipeline_3/e203_hbirdv2/riscv-tools/fpga_test4sim/coremark4sim/core_state.c:194-273 | Conversely every text of a state's format comes from a shorter text by one transition. |
| `TokenMachine.Recognises` | riscv_cpu_design/pipeline_3/e203_hbirdv2/riscv-tools/fpga_test4sim/coremark4sim/core_state.c:184-277 | A text ends in an accepting or intermediate state if and only if it has that state's format (signed integer, decimal, exponent form). |
| `TokenMachine.TrackAdds` | riscv_cpu_design/pipeline_3/e203_hbirdv2/riscv-tools/fpga_test4sim/coremark4sim/core_state.c:196-272 | Over a whole token, the counter of a state grows by the number of times the state is left; of the rejecting state, by the number of times the first character or the digits of the exponent are rejected; of the last state, not at all. |
| `StateBench.ScanMoves` | riscv_cpu_design/pipeline_3/e203_hbirdv2/riscv-tools/fpga_test4sim/coremark4sim/core_state.c:188-276 | A call never passes the terminating zero and moves on unless it starts there. |
| `StateBench.ScanClassifies` | riscv_cpu_design/pipeline_3/e203_hbirdv2/riscv-tools/fpga_test4sim/coremark4sim/core_state.c:188-276 | A scan returns the beginning of the next token, the machine's state on the token read, which stops at a comma, a zero or the first rejected character, and counters increased by what the token adds. |
| `StateBench.CoreStateTransition` | riscv_cpu_design/pipeline_3/e203_hbirdv2/riscv-tools/fpga_test4sim/coremark4sim/core_state.c:184-277 | The loop computes the specified scan; so it returns the beginning of the next token and the state after this one, and increases each counter by what this token adds (`TrackAdds`). |
| `StateBench.ScanBlock` | riscv_cpu_design/pipeline_3/e203_hbirdv2/riscv-tools/fpga_test4sim/coremark4sim/core_state.c:58-67 | The loop over tokens terminates inside the block with the specified counts. |
| `StateBench.ScanAllCounts` | riscv_cpu_design/pipeline_3/e203_hbirdv2/riscv-tools/fpga_test4sim/coremark4sim/core_state.c:58-67 | Scanning the block counts, for each state, the tokens that end in it and all transitions out of it, over the sequence of tokens of the block. |
| `StateBench.Corrupt` | riscv_cpu_design/pipeline_3/e203_hbirdv2/riscv-tools/fpga_test4sim/coremark4sim/core_state.c:69-74 | Every step-th byte that is not a comma is combined with the seed; nothing else changes. |
| `StateBench.XorBits` | riscv_cpu_design/pipeline_3/e203_hbirdv2/riscv-tools/fpga_test4sim/coremark4sim/core_state.c:72-73 | Combining leaves exactly the bits in which byte and seed differ. |
| `StateBench.ZeroSurvives` | riscv_cpu_design/pipeline_3/e203_hbirdv2/riscv-tools/fpga_test4sim/coremark4sim/core_state.c:69-86 | With a step of at least two, one of the two zero bytes at the end survives every corruption, so the second scan ends inside the block. |
| `StateBench.RestoredIff` | riscv_cpu_design/pipeline_3/e203_hbirdv2/riscv-tools/fpga_test4sim/coremark4sim/core_state.c:87-92 | Corrupting twice restores the block if and only if for every visited non-comma byte the seeds agree and the byte does not become a comma. |
| `StateBench.BothScans` | riscv_cpu_design/pipeline_3/e203_hbirdv2/riscv-tools/fpga_test4sim/coremark4sim/core_state.c:54-86 | The counters of the benchmark are those of the tokens of the block and of the tokens of the corrupted block. |
| `StateBench.DigestInTurn` | riscv_cpu_design/pipeline_3/e203_hbirdv2/riscv-tools/fpga_test4sim/coremark4sim/core_state.c:95-98 | The digest is taken over all counters in turn, the count of ends before the count of transitions. |
| `StateBench.CoreBenchState` | riscv_cpu_design/pipeline_3/e203_hbirdv2/riscv-tools/fpga_test4sim/coremark4sim/core_state.c:43-99 | The whole benchmark: the digest of both scans' counts, the block after both corruptions, and when it is restored, for every seed and every step of at least two. |
| `StateBench.FilledIsBlock` | riscv_cpu_design/pipeline_3/e203_hbirdv2/riscv-tools/fpga_test4sim/coremark4sim/core_state.c:116-166 | For every size of at least two and every seed the filled block ends in two zero bytes. |
| `StateBench.PatternKinds` | riscv_cpu_design/pipeline_3/e203_hbirdv2/riscv-tools/fpga_test4sim/coremark4sim/core_state.c:103-155 | Each pattern is read as a token of its kind, except that one of the four scientific patterns has no point and is rejected. |
| `StateBench.TokensWritten` | riscv_cpu_design/pipeline_3/e203_hbirdv2/riscv-tools/fpga_test4sim/coremark4sim/core_state.c:124-158 | The patterns of the seeds that follow are written in order with commas, as many as end below the limit. |
| `StateBench.CoreInitState` | riscv_cpu_design/pipeline_3/e203_hbirdv2/riscv-tools/fpga_test4sim/coremark4sim/core_state.c:116-166 | The fill loops produce exactly the token sequence chosen by the running seed, then zeros, within the block. |
| `MatrixProduct.DotSelects` | riscv_cpu_design/pipeline_3/e203_hbirdv2/riscv-tools/riscv-tests/benchmarks/mm/mm.c:19-28 | A row with a single one selects the element of the column at the same depth. |
| `MatrixProduct.DotSplit` | riscv_cpu_design/pipeline_3/e203_hbirdv2/riscv-tools/riscv-tests/benchmarks/mm/mm.c:19-28 | A dot product over p + q terms is the sum of its two parts. |
| `MatrixProduct.RowsSplit` | riscv_cpu_design/pipeline_3/e203_hbirdv2/riscv-tools/riscv-tests/benchmarks/mm/mm.c:36-43 | Adding a product to the upper and then to the lower rows is adding it to all. |
| `MatrixProduct.ColumnsSplit` | riscv_cpu_design/pipeline_3/e203_hbirdv2/riscv-tools/riscv-tests/benchmarks/mm/mm.c:39-41 | The same for left and right columns. |
| `MatrixProduct.DepthSplit` | riscv_cpu_design/pipeline_3/e203_hbirdv2/riscv-tools/riscv-tests/benchmarks/mm/mm.c:100-113 | The same for two blocks of the inner dimension. |
| `MatrixProduct.WorkedOnCopy` | riscv_cpu_design/pipeline_3/e203_hbirdv2/riscv-tools/riscv-tests/benchmarks/mm/mm.c:92-142 | Working on a copy of a block and pasting it back is working in place. |
| `MatrixProduct.AddedFrom` | riscv_cpu_design/pipeline_3/e203_hbirdv2/riscv-tools/riscv-tests/benchmarks/mm/mm.c:84-105 | Repacked operands give the same product as the originals. |
| `MatrixProduct.Within` | riscv_cpu_design/pipeline_3/e203_hbirdv2/riscv-tools/riscv-tests/benchmarks/mm/mm.c:36-142 | A part of the work, done on operands that lie in the matrix of the result but apart from its block, is that part of the product of the original operands and leaves them in place. |
| `BlockedMultiply.MmNaive` | riscv_cpu_design/pipeline_3/e203_hbirdv2/riscv-tools/riscv-tests/benchmarks/mm/mm.c:11-31 | With four partial sums and a remainder, the block of c gains the product and everything else in c stays. |
| `BlockedMultiply.Inner` | riscv_cpu_design/pipeline_3/e203_hbirdv2/riscv-tools/riscv-tests/benchmarks/mm/mm.c:18-28 | The unrolled sum of one element is its initial value plus the dot product. |
| `BlockedMultiply.Kloop` | riscv_cpu_design/pipeline_3/e203_hbirdv2/riscv-tools/riscv-tests/benchmarks/mm/rb.h:3-210 | The register block: 20 accumulators loaded, updated and stored add the product to a 4 by 5 block only. |
| `BlockedMultiply.Depth` | riscv_cpu_design/pipeline_3/e203_hbirdv2/riscv-tools/riscv-tests/benchmarks/mm/rb.h:29-189 | The loop in steps of six and its remainder cover the whole inner dimension once. |
| `BlockedMultiply.Repack` | riscv_cpu_design/pipeline_3/e203_hbirdv2/riscv-tools/riscv-tests/benchmarks/mm/mm.c:46-72 | The eight-wise copy and its remainder paste one block of one matrix into another. |
| `BlockedMultiply.MmRb` | riscv_cpu_design/pipeline_3/e203_hbirdv2/riscv-tools/riscv-tests/benchmarks/mm/mm.c:33-44 | The register-blocked product with both remainder strips is the plain product. |
| `CacheBlocks.WorkNext` | riscv_cpu_design/pipeline_3/e203_hbirdv2/riscv-tools/riscv-tests/benchmarks/mm/mm.c:96-114 | After a tile is finished the tiles done so far are right and all others untouched. |
| `CacheBlocks.BackNext` | riscv_cpu_design/pipeline_3/e203_hbirdv2/riscv-tools/riscv-tests/benchmarks/mm/mm.c:140-142 | Copying a tile back keeps what is already back. |
| `CacheBlocks.WholeBlock` | riscv_cpu_design/pipeline_3/e203_hbirdv2/riscv-tools/riscv-tests/benchmarks/mm/mm.c:96-142 | Tiles, right strip and bottom strip together are the product on the whole block. |
| `CacheBlockedMultiply.Pack` | riscv_cpu_design/pipeline_3/e203_hbirdv2/riscv-tools/riscv-tests/benchmarks/mm/mm.c:84-94 | After the two loops every tile of the packed array is a copy of its block. |
| `CacheBlockedMultiply.TileProduct` | riscv_cpu_design/pipeline_3/e203_hbirdv2/riscv-tools/riscv-tests/benchmarks/mm/mm.c:100-113 | Packed blocks and the unpacked rest of the inner dimension together add the full product to one tile. |
| `CacheBlockedMultiply.DepthBlocks` | riscv_cpu_design/pipeline_3/e203_hbirdv2/riscv-tools/riscv-tests/benchmarks/mm/mm.c:115-124 | The strip loop with the shorter last block adds the full product. |
| `CacheBlockedMultiply.BottomStrip` | riscv_cpu_design/pipeline_3/e203_hbirdv2/riscv-tools/riscv-tests/benchmarks/mm/mm.c:126-138 | The two loops over the remaining rows add the full product there. |
| `CacheBlockedMultiply.Strips` | riscv_cpu_design/pipeline_3/e203_hbirdv2/riscv-tools/riscv-tests/benchmarks/mm/mm.c:96-125 | The main loop: all tiles in the packed array and the right strip in c. |
| `CacheBlockedMultiply.Unpack` | riscv_cpu_design/pipeline_3/e203_hbirdv2/riscv-tools/riscv-tests/benchmarks/mm/mm.c:140-142 | All tiles are copied back to their blocks and nothing else changes. |
| `CacheBlockedMultiply.MmCb` | riscv_cpu_design/pipeline_3/e203_hbirdv2/riscv-tools/riscv-tests/benchmarks/mm/mm.c:74-143 | The cache-blocked, repacked product with all remainder strips is the plain product. |
| `CacheBlockedMultiply.Mm` | riscv_cpu_design/pipeline_3/e203_hbirdv2/riscv-tools/riscv-tests/benchmarks/mm/mm.c:145-152 | For every m, n and p, on both paths, whether the three blocks lie in different matrices or apart in one: each element of the block gains its dot product of the original operands, every other element of c is unchanged. |
| `Towers.ListPop` | riscv_cpu_design/pipeline_3/e203_hbirdv2/riscv-tools/riscv-tests/benchmarks/towers/towers_main.c:73-93 | The front value is returned and its node moves to the free list; the node's value stays. |
| `Towers.ListPush` | riscv_cpu_design/pipeline_3/e203_hbirdv2/riscv-tools/riscv-tests/benchmarks/towers/towers_main.c:53-71 | The first free node moves to the front of the list with the value; nothing else changes. |
| `Towers.MoveDisc` | riscv_cpu_design/pipeline_3/e203_hbirdv2/riscv-tools/riscv-tests/benchmarks/towers/towers_main.c:147-151 | Moving the top disc keeps both pegs strictly increasing, and the pool partitioned among pegs and free list, the same as before. |
| `Towers.SolveSteps` | riscv_cpu_design/pipeline_3/e203_hbirdv2/riscv-tools/riscv-tests/benchmarks/towers/towers_main.c:152-156 | From a legal position for n discs each of the three recursive calls starts in a legal position, and together they move the n discs. |
| `Towers.SolveH` | riscv_cpu_design/pipeline_3/e203_hbirdv2/riscv-tools/riscv-tests/benchmarks/towers/towers_main.c:140-158 | Exactly the n top discs move to the destination in order, in 2^n - 1 moves, each made by `MoveDisc`, which accepts legal moves only; the nodes are conserved and no push meets an empty free list. |
| `Towers.Game.constructor` | riscv_cpu_design/pipeline_3/e203_hbirdv2/riscv-tools/riscv-tests/benchmarks/towers/towers_main.c:204-214 | The pool is linked into a free list of all its nodes. |
| `Towers.Game.Init` | riscv_cpu_design/pipeline_3/e203_hbirdv2/riscv-tools/riscv-tests/benchmarks/towers/towers_main.c:113-127 | With enough free nodes peg A gets the discs 1..n and the other pegs are empty. |
| `Towers.Game.Clear` | riscv_cpu_design/pipeline_3/e203_hbirdv2/riscv-tools/riscv-tests/benchmarks/towers/towers_main.c:129-138 | All nodes go back to the free list and the start position is set up again. |
| `Towers.Game.Solve` | riscv_cpu_design/pipeline_3/e203_hbirdv2/riscv-tools/riscv-tests/benchmarks/towers/towers_main.c:160-163 | All discs are on peg C in order after 2^n - 1 moves. |
| `Towers.Game.Verify` | riscv_cpu_design/pipeline_3/e203_hbirdv2/riscv-tools/riscv-tests/benchmarks/towers/towers_main.c:165-194 | Zero is returned if and only if peg C holds exactly 1..n, the others nothing, and the moves are 2^n - 1. |
| `Towers.Benchmark` | riscv_cpu_design/pipeline_3/e203_hbirdv2/riscv-tools/riscv-tests/benchmarks/towers/towers_main.c:199-231 | For every n of at least 1, filling, clearing, solving and verifying returns 0. |
| `NumberText.DigitsMean` | riscv_cpu_design/pipeline_3/e203_hbirdv2/riscv-tools/riscv-tests/benchmarks/common/syscalls.c:163-169 | The digits stand for the number, each is below the base, there is at least one, and the leading one is not zero unless the number is. |
| `NumberText.MoreDigits` | riscv_cpu_design/pipeline_3/e203_hbirdv2/riscv-tools/riscv-tests/benchmarks/common/syscalls.c:163-169 | While there is another digit there is another place in the buffer, and the number that is left is below half of what the places can hold. |
| `NumberText.DigitsFit` | riscv_cpu_design/pipeline_3/e203_hbirdv2/riscv-tools/riscv-tests/benchmarks/common/syscalls.c:160-169 | In a base of at least two a number below 2^k has at most k digits. |
| `NumberText.BufferSuffices` | riscv_cpu_design/pipeline_3/e203_hbirdv2/riscv-tools/riscv-tests/benchmarks/common/syscalls.c:160-169 | Hence the 64 entries of the digit buffer suffice for every 64-bit number in every base of at least two. |
| `NumberText.NumberShows` | riscv_cpu_design/pipeline_3/e203_hbirdv2/riscv-tools/riscv-tests/benchmarks/common/syscalls.c:157-176 | In every base up to 36: behind as many padding characters as the width asks for, a numeral without superfluous zeros whose digits, read from the left, give the number. |
| `NumberText.Printnum` | riscv_cpu_design/pipeline_3/e203_hbirdv2/riscv-tools/riscv-tests/benchmarks/common/syscalls.c:157-176 | In every base of at least two: the digits, most significant first, after as many padding characters as the width asks for. |
| `FormattedText.Atol` | riscv_cpu_design/pipeline_3/e203_hbirdv2/riscv-tools/riscv-tests/benchmarks/common/syscalls.c:451-470 | Skips spaces, takes one sign, and gives the value of the remaining characters, or none where the accumulation overflows. |
| `FormattedText.AtolSigns` | riscv_cpu_design/pipeline_3/e203_hbirdv2/riscv-tools/riscv-tests/benchmarks/common/syscalls.c:456-469 | Spaces in front and a plus sign change nothing, a minus sign negates. |
| `FormattedText.TakeFits` | riscv_cpu_design/pipeline_3/e203_hbirdv2/riscv-tools/riscv-tests/benchmarks/common/syscalls.c:464-467 | One more character multiplies by ten and adds, where both results are 64-bit numbers. |
| `FormattedText.TakenText` | riscv_cpu_design/pipeline_3/e203_hbirdv2/riscv-tools/riscv-tests/benchmarks/common/syscalls.c:464-467 | On the digits of a number the loop gives the number, unless it exceeds `LONG_MAX`. |
| `FormattedText.LongRoundTrip` | riscv_cpu_design/pipeline_3/e203_hbirdv2/riscv-tools/riscv-tests/benchmarks/common/syscalls.c:451-470 | `atol` recovers v from its decimal text if and only if v is not the most negative `long`. |
| `FormattedText.ParseDirective` | riscv_cpu_design/pipeline_3/e203_hbirdv2/riscv-tools/riscv-tests/benchmarks/common/syscalls.c:216-275 | The flag, width and precision loop terminates within the format and consumes the specified arguments. |
| `FormattedText.DirectiveParsed` | riscv_cpu_design/pipeline_3/e203_hbirdv2/riscv-tools/riscv-tests/benchmarks/common/syscalls.c:222-275 | Flags, width, point and precision, long flags and letter: the padding character is that of the last flag, width and precision are the numbers written, and the length is the number of long flags. |
| `FormattedText.DirectiveFormatted` | riscv_cpu_design/pipeline_3/e203_hbirdv2/riscv-tools/riscv-tests/benchmarks/common/syscalls.c:216-345 | Such a directive is replaced by the text of its conversion, and the rest of the format follows with the next argument. |
| `FormattedText.UnknownFormatted` | riscv_cpu_design/pipeline_3/e203_hbirdv2/riscv-tools/riscv-tests/benchmarks/common/syscalls.c:341-344 | A directive with any other letter is written as it stands. |
| `FormattedText.StarFormatted` | riscv_cpu_design/pipeline_3/e203_hbirdv2/riscv-tools/riscv-tests/benchmarks/common/syscalls.c:250-252 | A star takes the width from an argument of its own. |
| `FormattedText.PercentFormatted` | riscv_cpu_design/pipeline_3/e203_hbirdv2/riscv-tools/riscv-tests/benchmarks/common/syscalls.c:335-338 | A doubled percent sign is one. |
| `FormattedText.PutString` | riscv_cpu_design/pipeline_3/e203_hbirdv2/riscv-tools/riscv-tests/benchmarks/common/syscalls.c:283-295 | A string is cut at the precision and padded on the left or right to the width. |
| `FormattedText.Convert` | riscv_cpu_design/pipeline_3/e203_hbirdv2/riscv-tools/riscv-tests/benchmarks/common/syscalls.c:277-345 | The conversion letter decides the text, and unknown letters are recognised as such. |
| `FormattedText.ConversionLetters` | riscv_cpu_design/pipeline_3/e203_hbirdv2/riscv-tools/riscv-tests/benchmarks/common/syscalls.c:277-345 | The letters that take an argument. |
| `FormattedText.SignedShown` | riscv_cpu_design/pipeline_3/e203_hbirdv2/riscv-tools/riscv-tests/benchmarks/common/syscalls.c:188-196 | `%d` shows the number in the range of an int, or of a long with the long flag, that the argument is up to multiples of 2^32 or 2^64; a negative one as its magnitude behind a minus sign. |
| `FormattedText.UnsignedShown` | riscv_cpu_design/pipeline_3/e203_hbirdv2/riscv-tools/riscv-tests/benchmarks/common/syscalls.c:178-186 | `%u`, `%o` and `%x` show the number below 2^32 or 2^64 in base 10, 8 and 16. |
| `FormattedText.PointerShown` | riscv_cpu_design/pipeline_3/e203_hbirdv2/riscv-tools/riscv-tests/benchmarks/common/syscalls.c:317-331 | `%p` shows it in base 16 behind 0x, always as a long. |
| `FormattedText.StringShown` | riscv_cpu_design/pipeline_3/e203_hbirdv2/riscv-tools/riscv-tests/benchmarks/common/syscalls.c:283-295 | `%s` shows the first characters, as many as the precision allows, padded to the width in front, or with the minus flag by spaces behind; a null pointer as the text for it. |
| `FormattedText.CharShown` | riscv_cpu_design/pipeline_3/e203_hbirdv2/riscv-tools/riscv-tests/benchmarks/common/syscalls.c:278-280 | `%c` shows one character. |
| `FormattedText.Vprintfmt` | riscv_cpu_design/pipeline_3/e203_hbirdv2/riscv-tools/riscv-tests/benchmarks/common/syscalls.c:198-347 | Terminates on every format without reading past its end, and writes the text of the specification. |
| `FormattedText.PlainFormat` | riscv_cpu_design/pipeline_3/e203_hbirdv2/riscv-tools/riscv-tests/benchmarks/common/syscalls.c:207-213 | A format without a percent sign is written as it is. |
| `FormattedText.FormatLong` | riscv_cpu_design/pipeline_3/e203_hbirdv2/riscv-tools/riscv-tests/benchmarks/common/syscalls.c:297-333 | `%ld` writes the decimal text of every `long`, and `atol` of it is the number again if and only if it is not the most negative. |
| `FormattedText.FormatInt` | riscv_cpu_design/pipeline_3/e203_hbirdv2/riscv-tools/riscv-tests/benchmarks/common/syscalls.c:297-333 | `%d` writes the decimal text of every `int`, and `atol` of it is the number again. |

## Left out

- TinyMalloc.Heap.Memalign: requires, besides what `malloc` requires, that for a power of two above a word the padded request plus the alignment plus 16 is at most 2^64; short of that the sums wrap at some word address (`SumsFitExact`), and at the input of `SumsWrap` the code hands out an address beyond the stack.
- AlignedSpec.MemalignKeeps: is about the specification, which adds without wrap-around; the code computes it under the condition of `Heap.Memalign`.
- TinyMalloc.Heap.Malloc: requires the request to be at most `SIZE_MAX - 15` and the heap end at least the gap below the stack; `RealSizeExact` and `CanAllocExact` say that beyond that the macros are wrong.
- TinyMalloc.Heap.Realloc: requires the same of the new size and the heap end as `malloc` does.
- Quicksort.Sort: where the stack is too small the model stops and reports it; what the write past the end of the stack does is not modelled. The bound covers the 2^25 elements that the source allows for that stack (`NSTACK` must be at least 2 lg n).
- FormattedText.Vprintfmt: width and precision are unbounded integers, and the variable arguments are a total function of their position; reading an argument as another type than it was passed is not modelled. For the most negative number the printer's negation overflows, which C leaves undefined; the model prints the magnitude that wrapping leaves. `atol` has no value where its accumulation overflows. So for that number neither side has a value defined by C, and the round trip excludes it under either reading.
- StateBench.CoreBenchState: requires a step of at least 2 and a block from `core_init_state`, and counts without wrap-around; the CRC step is an arbitrary function.
- ListBench.BenchList: for cells with equal indices whose values a kernel has still to compute, the order at the end is stated one way only. The comment in the code says that the checksum is over the data of the list; the code takes the first item at every step, and the model follows the code. The datum looked for before any round is uninitialised in the code and a parameter here; the two kernels the comparator calls, and its CRC step, are arbitrary functions of the results; the list and the number of rounds are parameters instead of fields of the results.
- Checksum.Crc32a: does not model the `int` index of the loop, which overflows for messages of 2^31 bytes or more; the statement is for shorter ones.
- ListSort.MergeSort: the run length is an unbounded integer, which the code's 32-bit one is for lists below 2^30 cells.
- CacheBlockedMultiply.Mm: arithmetic is exact, over the reals; rounding of the fused multiply-add is not modelled.
- Allocator: heaps that grow downwards, `calloc`, `cfree`, `valloc`, `pvalloc` and `malloc_stats`; the stack address is a parameter of each call, and the masks are stated as remainders, which `Masks` justifies. Programs access the payload of their blocks only.
- Core: the technology placeholder memories and register file, exceptions, interrupts and CSRs, which the modules do not have; the adder's carry-out and the ALU zero flag, which nothing reads.
- CoreMark: `core_list_init` and `core_list_insert_new`, the matrix kernel, drivers and reporting.
- Barrier and vector addition: the reads of the read-only inputs are part of the step that uses them; executions weaker than sequential consistency, the statistics around the calls, and what follows `exit`; the addition is an arbitrary function, so rounding is covered.
- Radix sort: shifts and remainders are stated as divisions; the two arrays are distinct; the final copy is unreachable with four passes and is left out.
- Pager: page table entries are a frame with its A and D bits; TLB and instruction-cache flushes, the floating-point trap, other traps, the coherence test and the host interface are left out. The kernel's view of a backing page is the page itself. Reuse of pages after `evict` is not claimed: nothing runs after it. When one node is left the code drops the tail of the free list, and so does the model.
- Matrix product: strided blocks are rows of two-dimensional arrays, so blocks that share memory have one stride; the 20 scalar accumulators of the register block are a 4 by 5 array with loops over it; alignment of the stack buffers is left out.
- Towers: the pool size is a parameter; counters do not wrap, as they do not for fewer than 31 discs.
- Text: strings are the characters before the terminating null; the character buffer of `putchar` and the destination buffer of `sprintf` are the sequence of characters put.
- Host side: debugger scripts, simulators, hex files, argument parsing and data sets.
- Other programs: `median`, `rot13`, `fib`, `multiply`, `spmv`, the multi-core matrix variants and the byte string routines, which would add only easier members.
