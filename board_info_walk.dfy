/** What `BoardInfo::parse` computes over a whole walk, and what each row of
    its decision table does. */
module BoardInfoWalk {
  import opened Machine
  import opened DeviceTree
  import opened BoardInfo

  // ---------------------------------------------------------------------
  // The decision table, row by row

  /** Sub-nodes: step into "cpus" and "soc" under the root and into
      "uart…"/"serial…" under "soc"; count each "cpu@…" under "cpus"; step
      over everything else without touching the accumulator. */
  lemma SubNodeDecision(ctx: Ctx, name: string, ans: Info)
    ensures var r := Decide(ctx, SubNode(name), ans);
      && r.Ok?
      && (r.value.step == StepInto <==>
            (ctx.isRoot && (name == "cpus" || name == "soc"))
            || (ctx.name == "soc" && IsConsoleName(name)))
      && (r.value.step == StepOver <==> r.value.step != StepInto)
      && r.value.acc == (if ctx.name == "cpus" && "cpu@" <= name then ans.(smp := ans.smp + 1) else ans)
  {
    if "cpu@" <= name {
      assert name != "cpus" by { assert name[3] == '@' && "cpus"[3] == 's'; }
      assert name != "soc" by { assert |name| >= 4; }
    }
  }

  /** `reg` properties: always step out; inside a node named "uart…" or
      "serial…" the start of the first range becomes `uart`, whatever `uart`
      held before (a later console node overwrites an earlier one); such a
      `reg` with no range at all panics. */
  lemma RegDecision(ctx: Ctx, ranges: seq<AddrRange>, ans: Info)
    ensures var r := Decide(ctx, PropertyObj(Reg(ranges)), ans);
      && (r.Err? <==> IsConsoleName(ctx.name) && ranges == [])
      && (r.Ok? ==> r.value.step == StepOut)
      && (r.Ok? ==> r.value.acc == if IsConsoleName(ctx.name) then ans.(uart := ranges[0].start) else ans)
  {
  }

  /** General properties: always step over; "timebase-frequency" inside
      "cpus" sets `frequency` to its decoded payload and panics when the
      payload is neither 4 nor 8 bytes; nothing else changes anything. */
  lemma GeneralDecision(ctx: Ctx, name: string, value: seq<u8>, ans: Info)
    ensures var r := Decide(ctx, PropertyObj(General(name, value)), ans);
      var sets := ctx.name == "cpus" && name == "timebase-frequency";
      && (r.Err? <==> sets && |value| != 4 && |value| != 8)
      && (r.Ok? ==> r.value.step == StepOver)
      && (r.Ok? && sets ==> r.value.acc == ans.(frequency := DecodeFrequency(value).value))
      && (r.Ok? && !sets ==> r.value.acc == ans)
  {
  }

  /** Every other kind of property is stepped over and changes nothing. */
  lemma OtherPropertyDecision(ctx: Ctx, name: string, ans: Info)
    ensures Decide(ctx, PropertyObj(OtherKind(name)), ans) == Ok(Visit(StepOver, ans))
  {
  }

  // ---------------------------------------------------------------------
  // A reference description of the hart count, independent of the walk

  /** The entries the walk reaches in a node: those before its first `reg`
      property, where the callback steps out. */
  function Reached(entries: seq<Entry>): (r: seq<Entry>)
    ensures |r| <= |entries| && r == entries[..|r|]
    ensures forall k :: 0 <= k < |r| ==> !(r[k].Prop? && r[k].prop.Reg?)
    ensures |r| == |entries| || (entries[|r|].Prop? && entries[|r|].prop.Reg?)
  {
    if entries == [] || (entries[0].Prop? && entries[0].prop.Reg?) then []
    else [entries[0]] + Reached(entries[1..])
  }

  /** Number of sub-nodes whose name starts with "cpu@". */
  function CpuNodes(entries: seq<Entry>): nat
  {
    if entries == [] then 0
    else (if entries[0].Child? && "cpu@" <= entries[0].node.name then 1 else 0) + CpuNodes(entries[1..])
  }

  /** Over the sub-nodes named "cpus", the number of "cpu@…" sub-nodes the
      walk reaches in each. */
  function CpusTotal(entries: seq<Entry>): nat
  {
    if entries == [] then 0
    else
      (if entries[0].Child? && entries[0].node.name == "cpus" then CpuNodes(Reached(entries[0].node.entries)) else 0)
      + CpusTotal(entries[1..])
  }

  predicate HasChildNamed(entries: seq<Entry>, name: string)
  {
    exists k :: 0 <= k < |entries| && entries[k].Child? && entries[k].node.name == name
  }

  // ---------------------------------------------------------------------
  // Reference descriptions of the console address and the frequency

  /** The start of the first range of the first `reg` property among
      `entries`, if there is such a property and it has a range. */
  function RegStartOf(entries: seq<Entry>): Option<usize>
  {
    if entries == [] then None
    else if entries[0].Prop? && entries[0].prop.Reg? then
      (if entries[0].prop.ranges == [] then None else Some(entries[0].prop.ranges[0].start))
    else RegStartOf(entries[1..])
  }

  /** Among the sub-nodes of a "soc" node, the `reg` start of the last
      "uart…"/"serial…" node that has one; `uart` when there is none. */
  function ConsoleIn(entries: seq<Entry>, uart: usize): usize
  {
    if entries == [] then uart
    else
      var e := entries[0];
      var next := if e.Child? && IsConsoleName(e.node.name) && RegStartOf(e.node.entries).Some?
                  then RegStartOf(e.node.entries).value else uart;
      ConsoleIn(entries[1..], next)
  }

  /** Over the root's sub-nodes named "soc", the last console address found
      in the entries the walk reaches in each; `uart` when there is none. */
  function LastConsole(entries: seq<Entry>, uart: usize): usize
  {
    if entries == [] then uart
    else
      var e := entries[0];
      var next := if e.Child? && e.node.name == "soc" then ConsoleIn(Reached(e.node.entries), uart) else uart;
      LastConsole(entries[1..], next)
  }

  /** Among the entries of a "cpus" node, the decoded value of the last
      well-formed "timebase-frequency" property; `f` when there is none. */
  function FrequencyIn(entries: seq<Entry>, f: u64): u64
  {
    if entries == [] then f
    else
      var e := entries[0];
      var next := if e.Prop? && e.prop.General? && e.prop.name == "timebase-frequency"
                     && DecodeFrequency(e.prop.value).Some?
                  then DecodeFrequency(e.prop.value).value else f;
      FrequencyIn(entries[1..], next)
  }

  /** Over the root's sub-nodes named "cpus", the last frequency found in
      the entries the walk reaches in each; `f` when there is none. */
  function LastFrequency(entries: seq<Entry>, f: u64): u64
  {
    if entries == [] then f
    else
      var e := entries[0];
      var next := if e.Child? && e.node.name == "cpus" then FrequencyIn(Reached(e.node.entries), f) else f;
      LastFrequency(entries[1..], next)
  }

  // ---------------------------------------------------------------------
  // Reference descriptions of when the callback panics

  /** Some "timebase-frequency" among `entries` has a payload neither 4 nor
      8 bytes long. */
  predicate FrequencyPanics(entries: seq<Entry>)
  {
    entries != [] &&
    ((entries[0].Prop? && entries[0].prop.General? && entries[0].prop.name == "timebase-frequency"
      && |entries[0].prop.value| != 4 && |entries[0].prop.value| != 8)
     || FrequencyPanics(entries[1..]))
  }

  /** The first `reg` property among `entries` has no range. */
  predicate RegPanics(entries: seq<Entry>)
  {
    entries != [] &&
    if entries[0].Prop? && entries[0].prop.Reg? then entries[0].prop.ranges == []
    else RegPanics(entries[1..])
  }

  /** Some "uart…"/"serial…" sub-node among `entries` has a first `reg`
      property with no range. */
  predicate SocPanics(entries: seq<Entry>)
  {
    entries != [] &&
    ((entries[0].Child? && IsConsoleName(entries[0].node.name) && RegPanics(entries[0].node.entries))
     || SocPanics(entries[1..]))
  }

  /** Among the root's sub-nodes, a "cpus" node whose reached entries make
      the frequency decode panic, or a "soc" node whose reached entries
      hold a console node that makes the `reg` decode panic. */
  predicate RootPanics(entries: seq<Entry>)
  {
    entries != [] &&
    ((entries[0].Child? && entries[0].node.name == "cpus" && FrequencyPanics(Reached(entries[0].node.entries)))
     || (entries[0].Child? && entries[0].node.name == "soc" && SocPanics(Reached(entries[0].node.entries)))
     || RootPanics(entries[1..]))
  }

  // ---------------------------------------------------------------------
  // The walk

  /** Inside "cpus" nothing is stepped into: the walk adds one to `smp` per
      "cpu@…" sub-node it reaches, takes `frequency` from the last
      "timebase-frequency" it reaches and leaves `uart` alone. */
  lemma {:induction false} WalkCpusNode(node: Node, i: nat, ans: Info)
    requires node.name == "cpus" && i <= |node.entries|
    ensures var r := WalkFrom(Decide, node, false, i, ans);
      r.Ok? ==> r.value.smp == ans.smp + CpuNodes(Reached(node.entries[i..])) && r.value.uart == ans.uart
    ensures var r := WalkFrom(Decide, node, false, i, ans);
      r.Ok? ==> r.value.frequency == FrequencyIn(Reached(node.entries[i..]), ans.frequency)
    ensures WalkFrom(Decide, node, false, i, ans).Ok? <==> !FrequencyPanics(Reached(node.entries[i..]))
    decreases |node.entries| - i
  {
    if i < |node.entries| {
      var e := node.entries[i];
      var rest := node.entries[i..];
      assert rest[0] == e && rest[1..] == node.entries[i + 1..];
      var d := Decide(Ctx(node.name, false), ObjOf(e), ans);
      assert !IsConsoleName("cpus") by { assert "cpus"[0] == 'c'; }
      if d.Ok? && d.value.step != StepOut {
        assert !(e.Prop? && e.prop.Reg?);
        WalkCpusNode(node, i + 1, d.value.acc);
      }
    }
  }

  /** Outside the root and outside "cpus", neither `smp` nor `frequency`
      changes, however deep the walk goes. */
  lemma {:induction false} WalkOutsideCpus(node: Node, i: nat, ans: Info)
    requires node.name != "cpus" && i <= |node.entries|
    ensures var r := WalkFrom(Decide, node, false, i, ans);
      r.Ok? ==> r.value.smp == ans.smp && r.value.frequency == ans.frequency
    decreases node, |node.entries| - i
  {
    if i < |node.entries| {
      var e := node.entries[i];
      var d := Decide(Ctx(node.name, false), ObjOf(e), ans);
      if d.Ok? && d.value.step != StepOut {
        var acc1 := d.value.acc;
        assert acc1.smp == ans.smp && acc1.frequency == ans.frequency;
        if d.value.step == StepInto && e.Child? {
          var c := e.node;
          assert c.name != "cpus" by {
            assert IsConsoleName(c.name);
            assert !IsConsoleName("cpus") by { assert "cpus"[0] == 'c'; }
          }
          WalkOutsideCpus(c, 0, acc1);
          var w := WalkNode(Decide, c, false, acc1);
          if w.Ok? {
            WalkOutsideCpus(node, i + 1, w.value);
          }
        } else {
          WalkOutsideCpus(node, i + 1, acc1);
        }
      }
    }
  }

  /** Inside a "uart…"/"serial…" node nothing is stepped into: the first
      `reg` property reached sets `uart` to the start of its first range and
      ends the node; without one, `uart` is unchanged. */
  lemma {:induction false} WalkConsoleNode(node: Node, i: nat, ans: Info)
    requires IsConsoleName(node.name) && i <= |node.entries|
    ensures var r := WalkFrom(Decide, node, false, i, ans);
      var start := RegStartOf(node.entries[i..]);
      r.Ok? ==> r.value.uart == if start.Some? then start.value else ans.uart
    ensures WalkFrom(Decide, node, false, i, ans).Ok? <==> !RegPanics(node.entries[i..])
    decreases |node.entries| - i
  {
    if i < |node.entries| {
      var e := node.entries[i];
      var rest := node.entries[i..];
      assert rest[0] == e && rest[1..] == node.entries[i + 1..];
      assert node.name != "cpus" && node.name != "soc" by {
        assert !IsConsoleName("cpus") by { assert "cpus"[0] == 'c'; }
        assert !IsConsoleName("soc") by { assert |"soc"| == 3; }
      }
      var d := Decide(Ctx(node.name, false), ObjOf(e), ans);
      if d.Ok? && d.value.step != StepOut {
        WalkConsoleNode(node, i + 1, d.value.acc);
      }
    }
  }

  /** Inside "soc", `uart` ends as ConsoleIn of the reached entries: each
      console sub-node stepped into overwrites it when it has a `reg`. */
  lemma {:induction false} WalkSocNode(node: Node, i: nat, ans: Info)
    requires node.name == "soc" && i <= |node.entries|
    ensures var r := WalkFrom(Decide, node, false, i, ans);
      r.Ok? ==> r.value.uart == ConsoleIn(Reached(node.entries[i..]), ans.uart)
    ensures WalkFrom(Decide, node, false, i, ans).Ok? <==> !SocPanics(Reached(node.entries[i..]))
    decreases |node.entries| - i
  {
    if i < |node.entries| {
      var e := node.entries[i];
      var rest := node.entries[i..];
      assert rest[0] == e && rest[1..] == node.entries[i + 1..];
      assert !IsConsoleName("soc") by { assert |"soc"| == 3; }
      var d := Decide(Ctx(node.name, false), ObjOf(e), ans);
      if d.Ok? && d.value.step != StepOut {
        var acc1 := d.value.acc;
        assert acc1.uart == ans.uart;
        assert !(e.Prop? && e.prop.Reg?);
        assert Reached(rest) == [e] + Reached(node.entries[i + 1..]);
        if d.value.step == StepInto && e.Child? {
          var c := e.node;
          WalkConsoleNode(c, 0, acc1);
          assert c.entries[0..] == c.entries;
          var w := WalkNode(Decide, c, false, acc1);
          if w.Ok? {
            WalkSocNode(node, i + 1, w.value);
          }
        } else {
          WalkSocNode(node, i + 1, acc1);
        }
      }
    }
  }

  /** At the root (whose name is empty), `smp` grows by CpusTotal of the
      reached entries, and `frequency` is untouched unless a "cpus" node is
      reached. */
  lemma {:induction false} WalkRoot(root: Node, i: nat, ans: Info)
    requires root.name == "" && i <= |root.entries|
    ensures var r := WalkFrom(Decide, root, true, i, ans);
      r.Ok? ==> r.value.smp == ans.smp + CpusTotal(Reached(root.entries[i..]))
    ensures var r := WalkFrom(Decide, root, true, i, ans);
      r.Ok? && !HasChildNamed(Reached(root.entries[i..]), "cpus") ==> r.value.frequency == ans.frequency
    decreases |root.entries| - i
  {
    if i < |root.entries| {
      var e := root.entries[i];
      var rest := root.entries[i..];
      assert rest[0] == e && rest[1..] == root.entries[i + 1..];
      var ctx := Ctx(root.name, true);
      var d := Decide(ctx, ObjOf(e), ans);
      assert !IsConsoleName("");
      if d.Ok? && d.value.step != StepOut {
        var acc1 := d.value.acc;
        assert !(e.Prop? && e.prop.Reg?);
        var reached := Reached(rest);
        assert reached == [e] + Reached(root.entries[i + 1..]);
        assert reached[1..] == Reached(root.entries[i + 1..]);
        assert HasChildNamed(reached[1..], "cpus") ==> HasChildNamed(reached, "cpus") by {
          if HasChildNamed(reached[1..], "cpus") {
            var k :| 0 <= k < |reached[1..]| && reached[1..][k].Child? && reached[1..][k].node.name == "cpus";
            assert reached[k + 1] == reached[1..][k];
          }
        }
        if d.value.step == StepInto && e.Child? {
          var c := e.node;
          var w := WalkNode(Decide, c, false, acc1);
          if c.name == "cpus" {
            assert HasChildNamed(reached, "cpus") by { assert reached[0] == e; }
            WalkCpusNode(c, 0, acc1);
            assert c.entries[0..] == c.entries;
          } else {
            WalkOutsideCpus(c, 0, acc1);
          }
          if w.Ok? {
            WalkRoot(root, i + 1, w.value);
          }
        } else {
          WalkRoot(root, i + 1, acc1);
        }
      }
    }
  }

  /** At the root, `uart` ends as LastConsole and `frequency` as
      LastFrequency of the reached entries. */
  lemma {:induction false} WalkRootReads(root: Node, i: nat, ans: Info)
    requires root.name == "" && i <= |root.entries|
    ensures var r := WalkFrom(Decide, root, true, i, ans);
      r.Ok? ==> r.value.uart == LastConsole(Reached(root.entries[i..]), ans.uart)
    ensures var r := WalkFrom(Decide, root, true, i, ans);
      r.Ok? ==> r.value.frequency == LastFrequency(Reached(root.entries[i..]), ans.frequency)
    decreases |root.entries| - i
  {
    if i < |root.entries| {
      var e := root.entries[i];
      var rest := root.entries[i..];
      assert rest[0] == e && rest[1..] == root.entries[i + 1..];
      var d := Decide(Ctx(root.name, true), ObjOf(e), ans);
      assert !IsConsoleName("");
      if d.Ok? && d.value.step != StepOut {
        var acc1 := d.value.acc;
        assert !(e.Prop? && e.prop.Reg?);
        assert Reached(rest) == [e] + Reached(root.entries[i + 1..]);
        if d.value.step == StepInto && e.Child? {
          var c := e.node;
          assert c.entries[0..] == c.entries;
          if c.name == "cpus" {
            WalkCpusNode(c, 0, acc1);
          } else {
            WalkOutsideCpus(c, 0, acc1);
            WalkSocNode(c, 0, acc1);
          }
          var w := WalkNode(Decide, c, false, acc1);
          if w.Ok? {
            WalkRootReads(root, i + 1, w.value);
          }
        } else {
          WalkRootReads(root, i + 1, acc1);
        }
      }
    }
  }

  /** The walk from the root completes exactly when no reached "cpus" or
      "soc" child makes the callback panic. */
  lemma {:induction false} WalkRootSucceeds(root: Node, i: nat, ans: Info)
    requires root.name == "" && i <= |root.entries|
    ensures WalkFrom(Decide, root, true, i, ans).Ok? <==> !RootPanics(Reached(root.entries[i..]))
    decreases |root.entries| - i
  {
    if i < |root.entries| {
      var e := root.entries[i];
      var rest := root.entries[i..];
      assert rest[0] == e && rest[1..] == root.entries[i + 1..];
      var d := Decide(Ctx(root.name, true), ObjOf(e), ans);
      assert !IsConsoleName("");
      if d.Ok? && d.value.step != StepOut {
        var acc1 := d.value.acc;
        assert !(e.Prop? && e.prop.Reg?);
        assert Reached(rest) == [e] + Reached(root.entries[i + 1..]);
        if d.value.step == StepInto && e.Child? {
          var c := e.node;
          assert c.entries[0..] == c.entries;
          if c.name == "cpus" {
            WalkCpusNode(c, 0, acc1);
          } else {
            WalkSocNode(c, 0, acc1);
          }
          var w := WalkNode(Decide, c, false, acc1);
          if w.Ok? {
            WalkRootSucceeds(root, i + 1, w.value);
          }
        } else {
          WalkRootSucceeds(root, i + 1, acc1);
        }
      }
    }
  }

  /** Over a successful parse, `smp` is the number of "cpu@…" sub-nodes of
      the root's "cpus" node(s) that the walk reaches; without a "cpus" node
      `smp` and `frequency` keep their initial zero. */
  lemma ParseCountsHarts(header: seq<HeaderError>, root: Node)
    requires root.name == ""
    ensures var r := Parse(header, root);
      r.Ok? ==> r.value.smp == CpusTotal(Reached(root.entries))
    ensures var r := Parse(header, root);
      r.Ok? && !HasChildNamed(Reached(root.entries), "cpus") ==> r.value.smp == 0 && r.value.frequency == 0
  {
    WalkRoot(root, 0, INITIAL);
    assert root.entries[0..] == root.entries;
    if !HasChildNamed(Reached(root.entries), "cpus") {
      CpusTotalWithoutCpus(Reached(root.entries));
    }
  }

  lemma {:induction false} CpusTotalWithoutCpus(entries: seq<Entry>)
    requires !HasChildNamed(entries, "cpus")
    ensures CpusTotal(entries) == 0
  {
    if entries != [] {
      assert !(entries[0].Child? && entries[0].node.name == "cpus");
      assert !HasChildNamed(entries[1..], "cpus");
      CpusTotalWithoutCpus(entries[1..]);
    }
  }

  /** Over a successful parse, `uart` is the `reg` start of the last console
      node reached under the root's "soc" node(s), and `frequency` the value
      of the last "timebase-frequency" reached under its "cpus" node(s);
      without a "soc" node `uart` keeps its initial 0. */
  lemma ParseReadsConsoleAndFrequency(header: seq<HeaderError>, root: Node)
    requires root.name == ""
    ensures var r := Parse(header, root);
      r.Ok? ==> r.value.uart == LastConsole(Reached(root.entries), 0)
    ensures var r := Parse(header, root);
      r.Ok? ==> r.value.frequency == LastFrequency(Reached(root.entries), 0)
    ensures var r := Parse(header, root);
      r.Ok? && !HasChildNamed(Reached(root.entries), "soc") ==> r.value.uart == 0
  {
    WalkRootReads(root, 0, INITIAL);
    assert root.entries[0..] == root.entries;
    if !HasChildNamed(Reached(root.entries), "soc") {
      LastConsoleWithoutSoc(Reached(root.entries), 0);
    }
  }

  lemma {:induction false} LastConsoleWithoutSoc(entries: seq<Entry>, uart: usize)
    requires !HasChildNamed(entries, "soc")
    ensures LastConsole(entries, uart) == uart
  {
    if entries != [] {
      assert !(entries[0].Child? && entries[0].node.name == "soc");
      assert !HasChildNamed(entries[1..], "soc");
      LastConsoleWithoutSoc(entries[1..], uart);
    }
  }

  /** Header defects the filter tolerates have no effect on the result. */
  lemma ParseIgnoresToleratedDefects(header: seq<HeaderError>, root: Node)
    requires forall k :: 0 <= k < |header| ==> Tolerated(header[k])
    ensures Parse(header, root) == Parse([], root)
  {
  }

  /** The parse succeeds exactly when the header has only tolerated defects
      and no node the walk reaches makes the callback panic: a missing
      "cpus", "soc", frequency or console node is never an error. */
  lemma ParseSucceeds(header: seq<HeaderError>, root: Node)
    requires root.name == ""
    ensures Parse(header, root).Ok? <==> CheckHeader(header).Ok? && !RootPanics(Reached(root.entries))
  {
    WalkRootSucceeds(root, 0, INITIAL);
    assert root.entries[0..] == root.entries;
  }
}
