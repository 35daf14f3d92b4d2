# RISC-V CLINT register block and test-kernel board-info extraction, in Dafny

This project models two pieces of a RustSBI-based firmware tree:

- **The SiFive CLINT register block** (`crates/aclint`): 4095 per-hart 32-bit
  machine software-interrupt words (`msip`, the MSWI device of the RISC-V
  ACLINT specification, section 3), 4095 per-hart 64-bit timer compare
  registers (`mtimecmp`) and the shared 64-bit counter `mtime` (the MTIMER
  device, section 2). `Aclint.SifiveClint` is a class with an `msip` array,
  an `mtimecmp` array and an `mtime` field. Each accessor is a method that
  reads or writes exactly one cell. Its contract gives the value read, or
  the whole new register state after a write. Read accessors have no
  `modifies` clause, so Dafny checks that they change nothing.
  `AclintLayout` describes the `repr(C)` / `repr(transparent)` types as shapes.
  It computes their sizes and field offsets from the layout rules: each field
  is rounded up to its alignment, and the whole struct to its largest
  alignment. From that it proves the sizes the crate's test asserts: 0x4000
  for MSWI and SSWI, 0x7ff8 for the compare array and 0xc000 for the block.
  It also proves the field offsets 0x0, 0x4000 and 0xbff8.
- **`BoardInfo::parse` of the test kernel** (`crates/rustsbi-qemu/test-kernel`).
  The kernel walks the flattened device tree once. A callback decides for
  each sub-node and property whether to step into it, step over it or step
  out of the current node. Along the way it fills an accumulator with the
  hart count (`smp`), the timebase frequency and the console UART base
  address. `BoardInfo.Decide` is that callback, as a pure function returning
  the step and the new accumulator. `BoardInfo.DecodeFrequency` decodes the
  4- or 8-byte big-endian frequency. `BoardInfo.CheckHeader` is the
  header-defect filter. `BoardInfo.Parse` puts them together.
  `DeviceTree.WalkNode` is the walk over an abstract tree of named nodes,
  whose entries (properties and sub-nodes) come in structure-block order. It
  is the step semantics assumed of the external walker crate (Devicetree
  Specification v0.3, section 5.4):
  - StepInto on a sub-node visits its contents.
  - StepOver skips it.
  - StepOut abandons the rest of the current node.
  - StepInto on a property acts as StepOver.

  `BoardInfoWalk` proves the decision table row by row. It also proves,
  against reference functions and predicates that only look at the tree,
  when a whole walk completes and what it computes when it does:
  - The parse succeeds exactly when the header has only tolerated defects
    and no `timebase-frequency` the walk reaches in a root `cpus` node has
    a length other than 4 or 8, and no console node the walk reaches in a
    root `soc` node has a first `reg` with no range. Entries after a node's
    own `reg` property are never reached, so a defect there does no harm.
    A missing `cpus`, `soc`, frequency or console node is never an error.
  - For every tree the walk completes on, `smp` equals the number of
    `cpu@…` sub-nodes the walk reaches under the root's `cpus` node;
    `frequency` is the last well-formed `timebase-frequency` reached there;
    `uart` is the `reg` start of the last console node reached under `soc`
    that has a `reg` property. Without a `cpus` node the hart count and
    frequency stay zero, and without a `soc` node the address stays zero.
  - Header defects the filter tolerates have no effect.

  `BoardInfoExamples` works through concrete trees.

Two points about the console address, as the code has them:

- With several `uart…`/`serial…` nodes under `soc`, the last one visited
  that has a `reg` property supplies the console address, not the first. Each such node's `reg`
  property assigns `ans.uart` unconditionally
  (`crates/rustsbi-qemu/test-kernel/src/main.rs:145-150`). StepOut only
  leaves the current UART node, so a later sibling is still visited and its
  address overwrites the earlier one (`BoardInfoExamples.TwoConsolesLastWins`).
- There is no separate "unknown" sentinel: the address starts at 0.

Rust panics are modelled as error results, not preconditions, so `Parse` is
total:

- `unreachable!()` on a frequency payload that is neither 4 nor 8 bytes
  gives `FrequencyLength`.
- `reg.next().unwrap()` on a console node's `reg` property with no range
  gives `RegWithoutRange`.
- `.unwrap()` on a header the filter rejects gives `HeaderRejected`.

The accessors' `hart_idx < 4095` is a precondition, because indexing
a `[_; 4095]` array out of range is a caller fault the crate does not handle.

## Model

| member | source | states |
|---|---|---|
| `Aclint.SifiveClint.View` | crates/aclint/src/lib.rs:57-65 | a view over the block holds exactly 4095 `msip` words, 4095 `mtimecmp` registers and one `mtime`, with the given current contents |
| `Aclint.SifiveClint.ReadMtime` | crates/aclint/src/lib.rs:69-72 | returns the counter's value; changes no register |
| `Aclint.SifiveClint.WriteMtime` | crates/aclint/src/lib.rs:74-78 | the counter holds the written value afterwards; every `msip` and `mtimecmp` cell is unchanged |
| `Aclint.SifiveClint.ReadMtimecmp` | crates/aclint/src/lib.rs:80-84 | for a hart index below 4095, returns that hart's compare register; changes no register |
| `Aclint.SifiveClint.WriteMtimecmp` | crates/aclint/src/lib.rs:86-90 | for a hart index below 4095, the compare array afterwards equals the old one with only that hart's cell replaced; `msip` and `mtime` are unchanged |
| `Aclint.SifiveClint.ReadMsip` | crates/aclint/src/lib.rs:92-96 | pending is true exactly when the hart's whole 32-bit word is non-zero, not only bit 0; changes no register |
| `Aclint.SifiveClint.SetMsip` | crates/aclint/src/lib.rs:98-102 | the `msip` array afterwards equals the old one with only that hart's word set to 1; `mtimecmp` and `mtime` are unchanged |
| `Aclint.SifiveClint.ClearMsip` | crates/aclint/src/lib.rs:104-108 | the `msip` array afterwards equals the old one with only that hart's word set to 0; `mtimecmp` and `mtime` are unchanged |
| `Aclint.MtimeRoundTrip` | crates/aclint/src/lib.rs:70-78 | writing `mtime` then reading it returns the written value, and no per-hart register changes |
| `Aclint.MtimecmpRoundTrip` | crates/aclint/src/lib.rs:82-90 | writing hart i's compare register then reading it returns the written value; reading another hart k's register gives the same value before and after |
| `Aclint.MsipSetClear` | crates/aclint/src/lib.rs:94-107 | after `set_msip(i)`, `read_msip(i)` is true; after `clear_msip(i)` it is false; another hart's pending state is the same before and after |
| `AclintLayout.SoftwareInterruptDeviceSize` | crates/aclint/src/lib.rs:42-54 | MSWI and SSWI (4095 four-byte cells plus a reserved word) are each 0x4000 bytes, with the reserved word at 0x3ffc |
| `AclintLayout.MtimecmpArraySize` | crates/aclint/src/lib.rs:115 | `[MTIMECMP; 4095]` is 0x7ff8 bytes |
| `AclintLayout.SifiveClintLayout` | crates/aclint/src/lib.rs:57-65 | in `repr(C)` order, `mswi` sits at 0x0, `mtimecmp` at 0x4000 and `mtime` at 0xbff8 (0x7ff8 past the compare array, as in the MTIMER device); the block is 0xc000 bytes |
| `BigEndian.FromBeBytes` | crates/rustsbi-qemu/test-kernel/src/main.rs:153-155 | the big-endian value of n bytes is below 256^n |
| `BigEndian.FromToBeBytes` | crates/rustsbi-qemu/test-kernel/src/main.rs:154-155 | decoding the n-byte big-endian encoding of a value below 256^n gives back the value |
| `BigEndian.ToFromBeBytes` | crates/rustsbi-qemu/test-kernel/src/main.rs:154-155 | re-encoding a decoded byte string at its own width gives back the bytes, so decoding is injective |
| `BoardInfo.DecodeFrequency` | crates/rustsbi-qemu/test-kernel/src/main.rs:153-157 | a value exists exactly for 4- and 8-byte payloads; a 4-byte payload gives a value below 2^32 (u32 widened); the value is the one whose big-endian encoding at the payload's width is the payload |
| `BoardInfo.CheckHeader` | crates/rustsbi-qemu/test-kernel/src/main.rs:125-129 | the blob opens exactly when every reported header defect is `Misaligned(4)` or `LastCompVersion(_)`; otherwise the error is the first defect not tolerated |
| `BoardInfo.Decide` | crates/rustsbi-qemu/test-kernel/src/main.rs:130-162 | a sub-node never panics and is never stepped out of; a property is never stepped into; each callback changes at most one accumulator field; `smp` grows by at most one, and only for a sub-node |
| `BoardInfo.Parse` | crates/rustsbi-qemu/test-kernel/src/main.rs:116-164 | a header the filter rejects aborts the parse with that defect; a successful parse had only tolerated defects |
| `BoardInfoWalk.SubNodeDecision` | crates/rustsbi-qemu/test-kernel/src/main.rs:131-144 | step into exactly for "cpus"/"soc" at the root and "uart…"/"serial…" under "soc"; otherwise step over; `smp` grows by one exactly for "cpu@…" under "cpus"; nothing else changes |
| `BoardInfoWalk.RegDecision` | crates/rustsbi-qemu/test-kernel/src/main.rs:145-150 | a `reg` property always steps out; in a "uart…"/"serial…" node, `uart` becomes the first range's start whatever it held before, and a `reg` with no range panics; elsewhere nothing changes |
| `BoardInfoWalk.GeneralDecision` | crates/rustsbi-qemu/test-kernel/src/main.rs:151-160 | a general property always steps over; "timebase-frequency" in "cpus" sets `frequency` to the decoded payload, or panics when its length is neither 4 nor 8; any other general property changes nothing |
| `BoardInfoWalk.OtherPropertyDecision` | crates/rustsbi-qemu/test-kernel/src/main.rs:161 | any other property kind steps over and leaves the accumulator unchanged |
| `BoardInfoWalk.WalkCpusNode` | crates/rustsbi-qemu/test-kernel/src/main.rs:134-136 | walking a "cpus" node adds one to `smp` per "cpu@…" sub-node before its first `reg` property, sets `frequency` to the last well-formed "timebase-frequency" before it, and leaves `uart` unchanged; it completes exactly when no "timebase-frequency" before that `reg` has a length other than 4 or 8 |
| `BoardInfoWalk.WalkOutsideCpus` | crates/rustsbi-qemu/test-kernel/src/main.rs:137-143 | walking any non-root node not named "cpus" (such as "soc" and the UART nodes inside it) leaves `smp` and `frequency` unchanged |
| `BoardInfoWalk.WalkConsoleNode` | crates/rustsbi-qemu/test-kernel/src/main.rs:145-149 | walking a "uart…"/"serial…" node sets `uart` to the first range start of its first `reg` property, and leaves it unchanged when the node has none; it completes exactly unless that first `reg` has no range |
| `BoardInfoWalk.WalkSocNode` | crates/rustsbi-qemu/test-kernel/src/main.rs:137-140 | walking a "soc" node leaves `uart` at the `reg` start of the last console sub-node reached that has one, or unchanged when none has; it completes exactly when no reached console sub-node has a first `reg` with no range |
| `BoardInfoWalk.WalkRoot` | crates/rustsbi-qemu/test-kernel/src/main.rs:132-136 | a completed walk from the root adds the "cpu@…" count of every "cpus" child it reaches; without a "cpus" child, `frequency` is unchanged |
| `BoardInfoWalk.WalkRootReads` | crates/rustsbi-qemu/test-kernel/src/main.rs:132-159 | a completed walk from the root ends with `uart` and `frequency` given by the last console with a `reg` reached under "soc" and the last well-formed timebase reached under "cpus" |
| `BoardInfoWalk.WalkRootSucceeds` | crates/rustsbi-qemu/test-kernel/src/main.rs:132-159 | the walk from the root completes exactly when no "timebase-frequency" the walk reaches in a root "cpus" node has a length other than 4 or 8, and no console node the walk reaches in a root "soc" node has a first `reg` with no range |
| `BoardInfoWalk.ParseCountsHarts` | crates/rustsbi-qemu/test-kernel/src/main.rs:119-162 | a successful parse's `smp` is the number of "cpu@…" sub-nodes reached under the root's "cpus" node(s); without a "cpus" node, `smp` and `frequency` stay at their initial 0 |
| `BoardInfoWalk.ParseReadsConsoleAndFrequency` | crates/rustsbi-qemu/test-kernel/src/main.rs:145-159 | a successful parse's `uart` is the `reg` start of the last console node reached under the root's "soc" node(s), 0 without a "soc" node; its `frequency` is the last well-formed "timebase-frequency" reached under "cpus", the initial 0 when none is reached |
| `BoardInfoWalk.ParseIgnoresToleratedDefects` | crates/rustsbi-qemu/test-kernel/src/main.rs:125-129 | when every reported header defect is `Misaligned(4)` or `LastCompVersion(_)`, the parse gives the same result as with no defect |
| `BoardInfoWalk.ParseSucceeds` | crates/rustsbi-qemu/test-kernel/src/main.rs:116-164 | the parse returns a value exactly when the header filter accepts, no "timebase-frequency" the walk reaches in a root "cpus" node has a length other than 4 or 8, and no console node the walk reaches in a root "soc" node has a first `reg` with no range; missing nodes or properties never abort it |
| `BoardInfoExamples.TenMegahertzPayload` | crates/rustsbi-qemu/test-kernel/src/main.rs:154 | the 4-byte payload 00 98 96 80 decodes to 10 000 000 |
| `BoardInfoExamples.MinimalBoard` | crates/rustsbi-qemu/test-kernel/src/main.rs:116-164 | two `cpu@` nodes, a 4-byte 10 MHz timebase and one UART at 0x1000_0000 yield (2, 10 000 000, 0x1000_0000) |
| `BoardInfoExamples.TwoConsolesLastWins` | crates/rustsbi-qemu/test-kernel/src/main.rs:145-149 | with two console nodes under "soc", the address of the one visited later is kept |
| `BoardInfoExamples.NoCpusNode` | crates/rustsbi-qemu/test-kernel/src/main.rs:119-129 | without a "cpus" node, and with only tolerated header defects, the parse returns the all-zero accumulator |
| `BoardInfoExamples.DefectsAfterRegIgnored` | crates/rustsbi-qemu/test-kernel/src/main.rs:145-157 | a malformed timebase after the `reg` of "cpus" and an empty console `reg` after the `reg` of "soc" are never reached: the parse returns the all-zero accumulator |
| `BoardInfoExamples.BadMagicAborts` | crates/rustsbi-qemu/test-kernel/src/main.rs:125-129 | a wrong magic number aborts the parse, whatever the tree holds |

## Left out

- Volatile access, memory ordering and concurrent access by several harts.
  The registers are sequential state. That each register access is atomic
  in hardware is an assumption about the environment.
- The hardware effect of the registers: the timer interrupt when
  `mtime >= mtimecmp`, and IPI delivery. The block only exposes the
  registers.
- The SSWI device beyond its size: the crate has no accessors for it.
- The target is taken to be 64-bit RISC-V: `usize` is 64 bits and `u64` is
  8-byte aligned.
- `_start`, the stack, the `.bss` zeroing loop, `rust_main`'s console set-up
  and banner, `sbi::system_reset`, the panic handler, `Console` and
  `Uart16550Map`. These are boot glue, inline `ecall`s and calls into the
  `uart16550`/`rcore_console` crates. None of them is part of this model.
- The `dtb_walker` crate is not part of this model: blob header validation,
  token decoding and the exact step semantics. `CheckHeader` takes the
  header defects the walker reports, in order, as input.
  `DeviceTree.WalkNode` is the assumed walk over an already decoded tree. Of
  the walker's header error kinds, only `Misaligned`, `LastCompVersion` and
  `Magic` are distinct. The rest are one `OtherHeaderError` case.
- The closure updates `ans` in place. The model threads the accumulator
  through the walk as a value instead.
- BoardInfo.Decide: `smp` is an unbounded `nat`, so the `usize` overflow of
  `ans.smp += 1` is not modelled. It would take 2^64 `cpu@` nodes, which no
  blob addressable on a 64-bit machine can hold.
- BoardInfoWalk.WalkRoot: the root is taken to be named "" (the structure
  block gives the root node an empty name). `WalkRootReads`,
  `WalkRootSucceeds` and the whole-parse theorems assume this too.
