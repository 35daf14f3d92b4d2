/** `BoardInfo::parse` of the test kernel: the callback handed to the device
    tree walker, which counts the harts, reads the timebase frequency and
    finds the console UART's base address, and the filter deciding which
    header defects of the blob are tolerated. */
module BoardInfo {
  import opened Machine
  import opened BigEndian
  import opened DeviceTree

  /** The accumulator `ans`: hart count, timebase frequency in Hz and the
      console UART's base address. */
  datatype Info = Info(smp: nat, frequency: u64, uart: usize)

  /** `ans` before the walk: all three fields zero. */
  const INITIAL: Info := Info(0, 0, 0)

  /** What makes the callback panic. */
  datatype Panic =
    | RegWithoutRange                  // `reg.next().unwrap()` on a `reg` with no range
    | FrequencyLength(length: nat)     // `unreachable!()`: payload neither 4 nor 8 bytes

  /** Header defects reported by the walker when it opens the blob.  The
      walker's error type is not part of this model; the variants named by
      the kernel are kept and the rest are one case. */
  datatype HeaderError =
    | Misaligned(align: u32)
    | Magic(found: u32)
    | LastCompVersion(version: u32)
    | OtherHeaderError

  /** Why `BoardInfo::parse` does not return. */
  datatype Abort = HeaderRejected(error: HeaderError) | CallbackPanic(panic: Panic)

  /** The kernel's filter: a blob only 4-byte aligned, and an unexpected
      last-compatible-version field, are tolerated. */
  predicate Tolerated(e: HeaderError)
  {
    e == Misaligned(4) || e.LastCompVersion?
  }

  /** Opening the blob with the filter: the first defect (in the order the
      walker reports them) that the filter does not tolerate is returned as
      the error, which the kernel's `.unwrap()` turns into a panic. */
  function CheckHeader(found: seq<HeaderError>): (r: Result<(), HeaderError>)
    ensures r.Ok? <==> forall k :: 0 <= k < |found| ==> Tolerated(found[k])
    ensures r.Err? ==>
      exists k :: 0 <= k < |found| && found[k] == r.error && !Tolerated(found[k])
                  && forall j :: 0 <= j < k ==> Tolerated(found[j])
  {
    if found == [] then Ok(())
    else if !Tolerated(found[0]) then Err(found[0])
    else
      var r := CheckHeader(found[1..]);
      assert forall k :: 1 <= k < |found| ==> found[k] == found[1..][k - 1];
      if r.Err? then
        var k :| 0 <= k < |found[1..]| && found[1..][k] == r.error && !Tolerated(found[1..][k])
                  && forall j :: 0 <= j < k ==> Tolerated(found[1..][j]);
        assert found[k + 1] == r.error;
        r
      else r
  }

  /** `name.starts_with("uart") || name.starts_with("serial")` */
  predicate IsConsoleName(name: string)
  {
    "uart" <= name || "serial" <= name
  }

  /** The `timebase-frequency` payload as an integer: a 4-byte payload is a
      big-endian u32 widened to u64, an 8-byte payload a big-endian u64; any
      other length has no value. */
  function DecodeFrequency(value: seq<u8>): (r: Option<u64>)
    ensures r.Some? <==> |value| == 4 || |value| == 8
    ensures r.Some? && |value| == 4 ==> r.value < 0x1_0000_0000
    ensures r.Some? ==> ToBeBytes(r.value as nat, |value|) == value
  {
    if |value| == 4 || |value| == 8 then
      var v := FromBeBytes(value);
      assert Pow256(4) == 0x1_0000_0000 && Pow256(8) == 0x1_0000_0000_0000_0000;
      ToFromBeBytes(value);
      Some(v as u64)
    else None
  }

  /** How many of the three fields differ between `a` and `b`. */
  function FieldsChanged(a: Info, b: Info): nat
  {
    (if a.smp != b.smp then 1 else 0)
    + (if a.frequency != b.frequency then 1 else 0)
    + (if a.uart != b.uart then 1 else 0)
  }

  /** The walk callback: the step to take for `obj` seen in context `ctx`,
      and the accumulator after it. */
  function Decide(ctx: Ctx, obj: Obj, ans: Info): (r: Result<Visit<Info>, Panic>)
    ensures obj.SubNode? ==> r.Ok? && r.value.step != StepOut
    ensures obj.PropertyObj? && r.Ok? ==> r.value.step != StepInto
    ensures r.Ok? ==> FieldsChanged(ans, r.value.acc) <= 1
    ensures r.Ok? ==> r.value.acc.smp == ans.smp || (obj.SubNode? && r.value.acc.smp == ans.smp + 1)
  {
    match obj
    case SubNode(name) =>
      if ctx.isRoot && (name == "cpus" || name == "soc") then Ok(Visit(StepInto, ans))
      else if ctx.name == "cpus" && "cpu@" <= name then Ok(Visit(StepOver, ans.(smp := ans.smp + 1)))
      else if ctx.name == "soc" && IsConsoleName(name) then Ok(Visit(StepInto, ans))
      else Ok(Visit(StepOver, ans))
    case PropertyObj(Reg(ranges)) =>
      if IsConsoleName(ctx.name) then
        if ranges == [] then Err(RegWithoutRange)
        else Ok(Visit(StepOut, ans.(uart := ranges[0].start)))
      else Ok(Visit(StepOut, ans))
    case PropertyObj(General(name, value)) =>
      if ctx.name == "cpus" && name == "timebase-frequency" then
        match DecodeFrequency(value)
        case None => Err(FrequencyLength(|value|))
        case Some(f) => Ok(Visit(StepOver, ans.(frequency := f)))
      else Ok(Visit(StepOver, ans))
    case PropertyObj(OtherKind(_)) => Ok(Visit(StepOver, ans))
  }

  /** `BoardInfo::parse`: open the blob (header defects filtered), then walk
      it from the root with Decide, starting from INITIAL. */
  function Parse(header: seq<HeaderError>, root: Node): (r: Result<Info, Abort>)
    ensures CheckHeader(header).Err? ==> r == Err(HeaderRejected(CheckHeader(header).error))
    ensures r.Ok? ==> forall k :: 0 <= k < |header| ==> Tolerated(header[k])
  {
    match CheckHeader(header)
    case Err(e) => Err(HeaderRejected(e))
    case Ok(_) =>
      match WalkNode(Decide, root, true, INITIAL)
      case Err(p) => Err(CallbackPanic(p))
      case Ok(info) => Ok(info)
  }
}
