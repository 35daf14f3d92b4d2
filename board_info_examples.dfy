/** Concrete boards: what `BoardInfo::parse` yields for a minimal QEMU-like
    tree, for a tree with two console nodes, for a tree without "cpus", and
    for a blob whose magic number is wrong. */
module BoardInfoExamples {
  import opened Machine
  import opened DeviceTree
  import opened BoardInfo
  import BigEndian

  /** A UART node whose `reg` is the single range `base..base + 0x100`. */
  function UartNode(name: string, base: usize): Node
    requires base as int + 0x100 < 0x1_0000_0000_0000_0000
  {
    Node(name, [Prop(OtherKind("compatible")), Prop(Reg([AddrRange(base, base + 0x100)]))])
  }

  /** Two harts, a 10 MHz timebase given as a 4-byte big-endian payload, one
      UART at 0x1000_0000. */
  const MINIMAL_BOARD: Node :=
    Node("", [
      Child(Node("cpus", [
        Prop(General("timebase-frequency", [0x00, 0x98, 0x96, 0x80])),
        Child(Node("cpu@0", [])),
        Child(Node("cpu@1", []))])),
      Child(Node("soc", [
        Child(UartNode("uart@10000000", 0x1000_0000))]))])

  /** 0x00989680 read big-endian is 10 000 000. */
  lemma TenMegahertzPayload()
    ensures DecodeFrequency([0x00, 0x98, 0x96, 0x80]) == Some(10_000_000)
  {
    var payload: seq<u8> := [0x00, 0x98, 0x96, 0x80];
    assert payload[..3] == [0x00, 0x98, 0x96] && payload[..3][..2] == [0x00, 0x98];
    assert payload[..3][..2][..1] == [0x00] && payload[..3][..2][..1][..0] == [];
    assert BigEndian.FromBeBytes([0x00]) == 0;
    assert BigEndian.FromBeBytes([0x00, 0x98]) == 0x98;
    assert BigEndian.FromBeBytes([0x00, 0x98, 0x96]) == 0x9896;
  }

  lemma MinimalBoard()
    ensures Parse([], MINIMAL_BOARD) == Ok(Info(2, 10_000_000, 0x1000_0000))
  {
    TenMegahertzPayload();
  }

  /** Two console nodes under "soc": the `reg` of each is visited in turn
      and the later one's address is the one kept. */
  const TWO_CONSOLES: Node :=
    Node("", [
      Child(Node("soc", [
        Child(UartNode("uart@10000000", 0x1000_0000)),
        Child(UartNode("serial@10001000", 0x1000_1000))]))])

  lemma TwoConsolesLastWins()
    ensures Parse([], TWO_CONSOLES) == Ok(Info(0, 0, 0x1000_1000))
  {
  }

  /** No "cpus" node: hart count and frequency stay zero, and a tolerated
      header defect does not stop the parse. */
  lemma NoCpusNode()
    ensures Parse([Misaligned(4), LastCompVersion(16)], Node("", [Child(Node("soc", []))])) == Ok(INITIAL)
  {
  }

  /** A node's own `reg` ends it: a malformed timebase after the `reg` of
      "cpus", and a console node with an empty `reg` after the `reg` of
      "soc", are never reached and do not abort the parse. */
  const DEFECTS_AFTER_REG: Node :=
    Node("", [
      Child(Node("cpus", [
        Prop(Reg([AddrRange(0, 1)])),
        Prop(General("timebase-frequency", [1, 2, 3])),
        Child(Node("cpu@0", []))])),
      Child(Node("soc", [
        Prop(Reg([AddrRange(0, 1)])),
        Child(Node("uart@0", [Prop(Reg([]))]))]))])

  lemma DefectsAfterRegIgnored()
    ensures Parse([], DEFECTS_AFTER_REG) == Ok(INITIAL)
  {
  }

  /** A wrong magic number is never tolerated: the parse aborts whatever the
      tree holds. */
  lemma BadMagicAborts(magic: u32, rest: seq<HeaderError>, root: Node)
    ensures Parse([Magic(magic)] + rest, root) == Err(HeaderRejected(Magic(magic)))
  {
  }
}
