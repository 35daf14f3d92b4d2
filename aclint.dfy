/** The SiFive CLINT register block (RISC-V ACLINT MSWI device followed by
    an MTIMER device) as a typed view over its registers.  Every accessor is
    one whole-register read or write of one cell. */
module Aclint {
  import opened Machine

  /** Harts served by one MSWI / MTIMER device (`[_; 4095]`). */
  const HART_COUNT: nat := 4095

  /** Value `set_msip` writes to raise a machine software interrupt. */
  const MSIP_SET: u32 := 1
  /** Value `clear_msip` writes to acknowledge it. */
  const MSIP_CLEAR: u32 := 0

  class SifiveClint {
    /** `mswi.msip`: one 32-bit machine IPI word per hart. */
    const msip: array<u32>
    /** `mtimecmp`: one 64-bit timer compare register per hart. */
    const mtimecmp: array<u64>
    /** `mtime`: the shared 64-bit time counter. */
    var mtime: u64

    ghost predicate Valid()
      reads this
    {
      msip.Length == HART_COUNT && mtimecmp.Length == HART_COUNT
    }

    /** A view over a block whose registers currently hold the given values. */
    constructor View(msipNow: seq<u32>, mtimecmpNow: seq<u64>, mtimeNow: u64)
      requires |msipNow| == HART_COUNT && |mtimecmpNow| == HART_COUNT
      ensures Valid() && fresh(msip) && fresh(mtimecmp)
      ensures msip[..] == msipNow && mtimecmp[..] == mtimecmpNow && mtime == mtimeNow
    {
      msip := new u32[HART_COUNT](i requires 0 <= i < HART_COUNT => msipNow[i]);
      mtimecmp := new u64[HART_COUNT](i requires 0 <= i < HART_COUNT => mtimecmpNow[i]);
      mtime := mtimeNow;
    }

    /** `read_mtime`: the current counter value. */
    method ReadMtime() returns (v: u64)
      ensures v == mtime
    {
      v := mtime;
    }

    /** `write_mtime`: sets the counter; no other register changes. */
    method WriteMtime(val: u64)
      requires Valid()
      modifies this
      ensures Valid()
      ensures mtime == val
      ensures msip[..] == old(msip[..]) && mtimecmp[..] == old(mtimecmp[..])
    {
      mtime := val;
    }

    /** `read_mtimecmp`: the compare register of hart `hartIdx`. */
    method ReadMtimecmp(hartIdx: usize) returns (v: u64)
      requires Valid() && hartIdx as int < HART_COUNT
      ensures v == mtimecmp[hartIdx]
    {
      v := mtimecmp[hartIdx];
    }

    /** `write_mtimecmp`: sets the compare register of hart `hartIdx` only. */
    method WriteMtimecmp(hartIdx: usize, val: u64)
      requires Valid() && hartIdx as int < HART_COUNT
      modifies mtimecmp
      ensures Valid()
      ensures mtimecmp[..] == old(mtimecmp[..])[hartIdx as int := val]
      ensures msip[..] == old(msip[..]) && mtime == old(mtime)
    {
      mtimecmp[hartIdx] := val;
    }

    /** `read_msip`: a software interrupt is pending for hart `hartIdx`
        exactly when its whole 32-bit word is non-zero. */
    method ReadMsip(hartIdx: usize) returns (pending: bool)
      requires Valid() && hartIdx as int < HART_COUNT
      ensures pending <==> msip[hartIdx] != 0
    {
      pending := msip[hartIdx] != 0;
    }

    /** `set_msip`: writes 1 into the IPI word of hart `hartIdx` only. */
    method SetMsip(hartIdx: usize)
      requires Valid() && hartIdx as int < HART_COUNT
      modifies msip
      ensures Valid()
      ensures msip[..] == old(msip[..])[hartIdx as int := MSIP_SET]
      ensures mtimecmp[..] == old(mtimecmp[..]) && mtime == old(mtime)
    {
      msip[hartIdx] := MSIP_SET;
    }

    /** `clear_msip`: writes 0 into the IPI word of hart `hartIdx` only. */
    method ClearMsip(hartIdx: usize)
      requires Valid() && hartIdx as int < HART_COUNT
      modifies msip
      ensures Valid()
      ensures msip[..] == old(msip[..])[hartIdx as int := MSIP_CLEAR]
      ensures mtimecmp[..] == old(mtimecmp[..]) && mtime == old(mtime)
    {
      msip[hartIdx] := MSIP_CLEAR;
    }
  }

  /** Writing the counter and reading it back yields the written value;
      the per-hart registers keep their contents. */
  method MtimeRoundTrip(clint: SifiveClint, val: u64) returns (readBack: u64)
    requires clint.Valid()
    modifies clint
    ensures readBack == val
    ensures clint.msip[..] == old(clint.msip[..]) && clint.mtimecmp[..] == old(clint.mtimecmp[..])
  {
    clint.WriteMtime(val);
    readBack := clint.ReadMtime();
  }

  /** Writing hart `hartIdx`'s compare register and reading it back yields the
      written value, and reading any other hart's compare register yields
      what it held before. */
  method MtimecmpRoundTrip(clint: SifiveClint, hartIdx: usize, other: usize, val: u64)
    returns (readBack: u64, otherBefore: u64, otherAfter: u64)
    requires clint.Valid() && hartIdx as int < HART_COUNT && other as int < HART_COUNT
    requires other != hartIdx
    modifies clint.mtimecmp
    ensures readBack == val && otherAfter == otherBefore
    ensures clint.mtime == old(clint.mtime) && clint.msip[..] == old(clint.msip[..])
  {
    otherBefore := clint.ReadMtimecmp(other);
    clint.WriteMtimecmp(hartIdx, val);
    readBack := clint.ReadMtimecmp(hartIdx);
    otherAfter := clint.ReadMtimecmp(other);
  }

  /** After `set_msip(i)` hart `i` sees a pending IPI, after `clear_msip(i)`
      it does not, and hart `other`'s pending state is the same before and after. */
  method MsipSetClear(clint: SifiveClint, hartIdx: usize, other: usize)
    returns (afterSet: bool, afterClear: bool, otherBefore: bool, otherAfter: bool)
    requires clint.Valid() && hartIdx as int < HART_COUNT && other as int < HART_COUNT
    requires other != hartIdx
    modifies clint.msip
    ensures afterSet && !afterClear && otherAfter == otherBefore
    ensures clint.mtime == old(clint.mtime) && clint.mtimecmp[..] == old(clint.mtimecmp[..])
  {
    otherBefore := clint.ReadMsip(other);
    clint.SetMsip(hartIdx);
    afterSet := clint.ReadMsip(hartIdx);
    clint.ClearMsip(hartIdx);
    afterClear := clint.ReadMsip(hartIdx);
    otherAfter := clint.ReadMsip(other);
  }
}
