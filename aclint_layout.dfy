/** The `repr(C)` memory layout of the CLINT register types on a 64-bit
    RISC-V target, computed from the layout rules rather than written down,
    and the size and offset facts the hardware requires of it. */
module AclintLayout {
  import Aclint

  /** The shape of a `repr(C)` / `repr(transparent)` type. */
  datatype Shape =
    | U32                              // u32, and the transparent MSIP / SETSSIP cells
    | U64                              // u64, and the transparent MTIME / MTIMECMP cells
    | Array(elem: Shape, count: nat)   // [elem; count]
    | Struct(fields: seq<Shape>)       // #[repr(C)] struct, fields in declaration order

  function RoundUp(n: nat, align: nat): (r: nat)
    requires align > 0
    ensures n <= r < n + align
  {
    if n % align == 0 then n else n + (align - n % align)
  }

  /** Alignment: that of the element for an array, the largest field
      alignment for a struct (1 for an empty one). */
  function Align(t: Shape): (r: nat)
    ensures r > 0
    decreases t, if t.Struct? then |t.fields| + 1 else 0
  {
    match t
    case U32 => 4
    case U64 => 8
    case Array(elem, _) => Align(elem)
    case Struct(fields) => MaxAlign(t, |fields|)
  }

  /** Largest alignment among the first `k` fields of struct `t`. */
  function MaxAlign(t: Shape, k: nat): (r: nat)
    requires t.Struct? && k <= |t.fields|
    ensures r > 0
    decreases t, k
  {
    if k == 0 then 1
    else
      var a := Align(t.fields[k - 1]);
      var b := MaxAlign(t, k - 1);
      if a < b then b else a
  }

  /** Size: `count` elements for an array; the end of the last field rounded
      up to the struct's alignment for a struct. */
  function Size(t: Shape): nat
    decreases t, if t.Struct? then 2 * |t.fields| + 1 else 0
  {
    match t
    case U32 => 4
    case U64 => 8
    case Array(elem, count) => count * Size(elem)
    case Struct(fields) => RoundUp(FieldsEnd(t, |fields|), Align(t))
  }

  /** Offset of field `k` of struct `t`: the end of field `k - 1` rounded up
      to the alignment of field `k`. */
  function Offset(t: Shape, k: nat): nat
    requires t.Struct? && k < |t.fields|
    decreases t, 2 * k + 1
  {
    RoundUp(FieldsEnd(t, k), Align(t.fields[k]))
  }

  /** First byte after the first `k` fields of struct `t`. */
  function FieldsEnd(t: Shape, k: nat): nat
    requires t.Struct? && k <= |t.fields|
    decreases t, 2 * k
  {
    if k == 0 then 0 else Offset(t, k - 1) + Size(t.fields[k - 1])
  }

  const MSIP_ARRAY: Shape := Array(U32, Aclint.HART_COUNT)
  /** `MSWI { msip: [MSIP; 4095], _reserved: u32 }` */
  const MSWI: Shape := Struct([MSIP_ARRAY, U32])
  /** `SSWI { setssip: [SETSSIP; 4095], _reserved: u32 }` */
  const SSWI: Shape := Struct([Array(U32, Aclint.HART_COUNT), U32])
  /** `[MTIMECMP; 4095]` */
  const MTIMECMP_ARRAY: Shape := Array(U64, Aclint.HART_COUNT)
  /** `SifiveClint { mswi: MSWI, mtimecmp: [MTIMECMP; 4095], mtime: MTIME }` */
  const SIFIVE_CLINT: Shape := Struct([MSWI, MTIMECMP_ARRAY, U64])

  /** An MSWI or SSWI device occupies 4095 four-byte words plus one reserved
      word: 0x4000 bytes, with the reserved word at 0x3ffc. */
  lemma SoftwareInterruptDeviceSize()
    ensures Size(MSWI) == 0x4000 && Size(SSWI) == 0x4000
    ensures Offset(MSWI, 0) == 0 && Offset(MSWI, 1) == 0x3ffc
  {
    assert Align(MSWI) == 4 by { assert MaxAlign(MSWI, 1) == 4; }
    assert Offset(MSWI, 0) == 0 by { assert FieldsEnd(MSWI, 0) == 0; }
    assert Size(MSIP_ARRAY) == 0x3ffc;
    assert FieldsEnd(MSWI, 1) == 0x3ffc;
    assert FieldsEnd(MSWI, 2) == 0x4000;
    assert Align(SSWI) == 4 by { assert MaxAlign(SSWI, 1) == 4; }
    assert Offset(SSWI, 0) == 0 by { assert FieldsEnd(SSWI, 0) == 0; }
    assert FieldsEnd(SSWI, 1) == 0x3ffc;
    assert FieldsEnd(SSWI, 2) == 0x4000;
  }

  /** The compare array holds 4095 eight-byte registers and nothing else. */
  lemma MtimecmpArraySize()
    ensures Size(MTIMECMP_ARRAY) == 0x7ff8
  {
  }

  /** Field placement in `SifiveClint`: `mswi` at 0x0, `mtimecmp` at 0x4000,
      `mtime` at 0xbff8, no padding anywhere, 0xc000 bytes in all.  The
      MTIMER part starts at 0x4000 with MTIME 0x7ff8 bytes into it, as
      section 2 of the RISC-V ACLINT specification places it. */
  lemma SifiveClintLayout()
    ensures Offset(SIFIVE_CLINT, 0) == 0
    ensures Offset(SIFIVE_CLINT, 1) == 0x4000
    ensures Offset(SIFIVE_CLINT, 2) == 0xbff8
    ensures Size(SIFIVE_CLINT) == 0xc000
  {
    SoftwareInterruptDeviceSize();
    MtimecmpArraySize();
    assert Align(SIFIVE_CLINT) == 8 by {
      assert Align(MSWI) == 4 by { assert MaxAlign(MSWI, 1) == 4; }
      assert MaxAlign(SIFIVE_CLINT, 1) == 4;
      assert MaxAlign(SIFIVE_CLINT, 2) == 8;
    }
    assert Offset(SIFIVE_CLINT, 0) == 0 by { assert FieldsEnd(SIFIVE_CLINT, 0) == 0; }
    assert FieldsEnd(SIFIVE_CLINT, 1) == 0x4000;
    assert FieldsEnd(SIFIVE_CLINT, 2) == 0xbff8;
    assert FieldsEnd(SIFIVE_CLINT, 3) == 0xc000;
  }
}
