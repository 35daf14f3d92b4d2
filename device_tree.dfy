/** A flattened device tree seen as a tree of named nodes, and the
    depth-first walk that hands each property and sub-node to a callback
    which answers with a step decision (Devicetree Specification v0.3,
    section 5.4: a node's properties and sub-nodes appear in the structure
    block in the order they are visited here).

    The walker itself belongs to the `dtb_walker` crate, which is not part of
    this model; WalkNode is the step semantics assumed of it:
      - StepInto on a sub-node visits that sub-node's contents, then goes on
        with the next entry of the current node;
      - StepOver skips the sub-node (or just moves past the property);
      - StepOut abandons the rest of the current node: its remaining
        properties and sub-nodes are not visited, and the walk goes on in
        the parent;
      - StepInto on a property acts as StepOver.
    A callback that aborts (a Rust panic) aborts the whole walk. */
module DeviceTree {
  import opened Machine

  /** One `(address, length)` pair of a `reg` property, as `start..end`. */
  datatype AddrRange = AddrRange(start: usize, end: usize)

  datatype Property =
    | Reg(ranges: seq<AddrRange>)                   // a `reg` property
    | General(name: string, value: seq<u8>)         // a property with a raw payload
    | OtherKind(name: string)                       // any other kind the walker decodes

  datatype Entry = Prop(prop: Property) | Child(node: Node)

  /** A node: its name (with unit address, e.g. "cpu@0") and its properties
      and sub-nodes in structure-block order. */
  datatype Node = Node(name: string, entries: seq<Entry>)

  /** What the callback learns about where it is: the current node's name
      and whether it is the root. */
  datatype Ctx = Ctx(name: string, isRoot: bool)

  /** What the callback is shown. */
  datatype Obj = SubNode(name: string) | PropertyObj(prop: Property)

  datatype Step = StepInto | StepOver | StepOut

  /** A callback's answer: the step to take and the new accumulator. */
  datatype Visit<A> = Visit(step: Step, acc: A)

  function ObjOf(e: Entry): Obj
  {
    match e
    case Prop(p) => PropertyObj(p)
    case Child(n) => SubNode(n.name)
  }

  /** Walks the contents of `node` with callback `f`, starting from
      accumulator `acc`. */
  function WalkNode<A, E>(f: (Ctx, Obj, A) -> Result<Visit<A>, E>, node: Node, isRoot: bool, acc: A): Result<A, E>
    decreases node, |node.entries| + 1
  {
    WalkFrom(f, node, isRoot, 0, acc)
  }

  /** Walks the entries of `node` from index `i` on. */
  function WalkFrom<A, E>(f: (Ctx, Obj, A) -> Result<Visit<A>, E>, node: Node, isRoot: bool, i: nat, acc: A): Result<A, E>
    requires i <= |node.entries|
    decreases node, |node.entries| - i
  {
    if i == |node.entries| then Ok(acc)
    else
      var entry := node.entries[i];
      match f(Ctx(node.name, isRoot), ObjOf(entry), acc)
      case Err(e) => Err(e)
      case Ok(Visit(step, acc1)) =>
        if step == StepOut then Ok(acc1)
        else if step == StepInto && entry.Child? then
          match WalkNode(f, entry.node, false, acc1)
          case Err(e) => Err(e)
          case Ok(acc2) => WalkFrom(f, node, isRoot, i + 1, acc2)
        else WalkFrom(f, node, isRoot, i + 1, acc1)
  }
}
