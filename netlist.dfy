/** The text the generator writes: a header section with one line per
    property, holding the property name and its value once per block, then
    a netlist section with one line per (block, pin) pair, holding the
    block-prefixed net name, a staircase of tabs and the pin name. */
module Netlist {
  import opened Wrappers
  import opened JavaStrings

  /** The four hand-edited arrays at the top of `main`. */
  datatype Config = Config(
    headerProps: seq<string>,
    headerValues: seq<string>,
    netlistPins: seq<string>,
    netlistNets: seq<string>)

  /** The arrays as the source ships them. */
  const Default: Config := Config(
    ["%Partition%", "%RefDes Renumber@SYM@BLOCK%", "%RefDes Renumber@SYM@PATH%",
     "%Reuse Cell Name@SYM@BLOCK%", "%Symbol Name%"],
    ["Logical_Physical", "True", "False", "LP_BLOCK_A", "LP_BLOCK_A.1"],
    ["BLOCK_A_IN", "BLOCK_A_OUT"],
    ["IN", "OUT"])

  /** Every header property has a value and every net a pin; otherwise the
      writer indexes past the end of headerValues or netlistPins. */
  predicate Paired(c: Config)
  {
    |c.headerProps| <= |c.headerValues| && |c.netlistNets| <= |c.netlistPins|
  }

  // ---------------------------------------------------------------------
  // Lines
  // ---------------------------------------------------------------------

  /** A header line without its newline: the property, then one
      tab-prefixed copy of the value per block. */
  function HeaderRow(prop: string, value: string, blocks: nat): string
  {
    prop + Repeat("\t" + value, blocks)
  }

  /** The net name of pin `net` in block `i`: "BLK_" + i + "_" + net. */
  function NetName(i: nat, net: string): string
  {
    "BLK_" + NatToString(i) + "_" + net
  }

  /** A netlist line without its newline: the net name, i - min + 1 tabs,
      then the pin. */
  function NetRow(i: nat, min: nat, net: string, pin: string): string
    requires min <= i
  {
    NetName(i, net) + Repeat("\t", i - min + 1) + pin
  }

  // ---------------------------------------------------------------------
  // Sections, in the order the loops write them
  // ---------------------------------------------------------------------

  /** The header lines for `props`, value k taken from `values[k]`. */
  function HeaderSection(props: seq<string>, values: seq<string>, blocks: nat): string
    requires |props| <= |values|
  {
    if props == [] then []
    else
      var n := |props| - 1;
      HeaderSection(props[..n], values, blocks) + HeaderRow(props[n], values[n], blocks) + "\n"
  }

  /** The header of the first i + 1 properties extends that of the first i
      by line i. */
  lemma HeaderSectionSnoc(props: seq<string>, values: seq<string>, blocks: nat, i: nat)
    requires i < |props| && i < |values|
    ensures HeaderSection(props[..i + 1], values, blocks)
            == HeaderSection(props[..i], values, blocks) + HeaderRow(props[i], values[i], blocks) + "\n"
  {
    assert props[..i + 1][..i] == props[..i];
  }

  /** The netlist lines of block `i` for the nets `nets`. */
  function BlockSection(i: nat, min: nat, nets: seq<string>, pins: seq<string>): string
    requires min <= i && |nets| <= |pins|
  {
    if nets == [] then []
    else
      var n := |nets| - 1;
      BlockSection(i, min, nets[..n], pins) + NetRow(i, min, nets[n], pins[n]) + "\n"
  }

  /** The lines of the first j + 1 nets of a block extend those of the
      first j by line j. */
  lemma BlockSectionSnoc(i: nat, min: nat, nets: seq<string>, pins: seq<string>, j: nat)
    requires min <= i && j < |nets| && j < |pins|
    ensures BlockSection(i, min, nets[..j + 1], pins)
            == BlockSection(i, min, nets[..j], pins) + NetRow(i, min, nets[j], pins[j]) + "\n"
  {
    assert nets[..j + 1][..j] == nets[..j];
  }

  /** The netlist lines of blocks min .. end - 1. */
  function NetlistSection(min: nat, end: nat, nets: seq<string>, pins: seq<string>): string
    requires min <= end && |nets| <= |pins|
    decreases end
  {
    if end == min then []
    else NetlistSection(min, end - 1, nets, pins) + BlockSection(end - 1, min, nets, pins)
  }

  /** The whole file for blocks min .. max, or None where the writer runs
      past the end of headerValues or netlistPins. */
  function Render(c: Config, min: nat, max: nat): (r: Option<string>)
    requires min <= max
    ensures r.Some? <==> Paired(c)
  {
    if !Paired(c) then None
    else Some(HeaderSection(c.headerProps, c.headerValues, max - min + 1)
              + NetlistSection(min, max + 1, c.netlistNets, c.netlistPins))
  }

  // ---------------------------------------------------------------------
  // The sections as sequences of lines
  // ---------------------------------------------------------------------

  function HeaderRows(props: seq<string>, values: seq<string>, blocks: nat): (rows: seq<string>)
    requires |props| <= |values|
    ensures |rows| == |props|
  {
    seq(|props|, k requires 0 <= k < |props| => HeaderRow(props[k], values[k], blocks))
  }

  function BlockRows(i: nat, min: nat, nets: seq<string>, pins: seq<string>): (rows: seq<string>)
    requires min <= i && |nets| <= |pins|
    ensures |rows| == |nets|
  {
    seq(|nets|, j requires 0 <= j < |nets| => NetRow(i, min, nets[j], pins[j]))
  }

  /** The netlist lines of blocks min .. end - 1, block after block. */
  function NetRows(min: nat, end: nat, nets: seq<string>, pins: seq<string>): seq<string>
    requires min <= end && |nets| <= |pins|
    decreases end
  {
    if end == min then []
    else NetRows(min, end - 1, nets, pins) + BlockRows(end - 1, min, nets, pins)
  }

  lemma {:induction false} HeaderSectionRows(props: seq<string>, values: seq<string>, blocks: nat)
    requires |props| <= |values|
    ensures HeaderSection(props, values, blocks) == Terminated(HeaderRows(props, values, blocks))
  {
    if props != [] {
      var n := |props| - 1;
      HeaderSectionRows(props[..n], values, blocks);
      var rows := HeaderRows(props, values, blocks);
      assert rows[..n] == HeaderRows(props[..n], values, blocks);
    }
  }

  lemma {:induction false} BlockSectionRows(i: nat, min: nat, nets: seq<string>, pins: seq<string>)
    requires min <= i && |nets| <= |pins|
    ensures BlockSection(i, min, nets, pins) == Terminated(BlockRows(i, min, nets, pins))
  {
    if nets != [] {
      var n := |nets| - 1;
      BlockSectionRows(i, min, nets[..n], pins);
      var rows := BlockRows(i, min, nets, pins);
      assert rows[..n] == BlockRows(i, min, nets[..n], pins);
    }
  }

  lemma {:induction false} NetlistSectionRows(min: nat, end: nat, nets: seq<string>, pins: seq<string>)
    requires min <= end && |nets| <= |pins|
    ensures NetlistSection(min, end, nets, pins) == Terminated(NetRows(min, end, nets, pins))
    decreases end
  {
    if end > min {
      var earlier, block := NetRows(min, end - 1, nets, pins), BlockRows(end - 1, min, nets, pins);
      assert NetlistSection(min, end - 1, nets, pins) == Terminated(earlier) by {
        NetlistSectionRows(min, end - 1, nets, pins);
      }
      assert BlockSection(end - 1, min, nets, pins) == Terminated(block) by {
        BlockSectionRows(end - 1, min, nets, pins);
      }
      TerminatedAppend(earlier, block);
    }
  }

  /** The netlist has one line per block and net. */
  lemma {:induction false} NetRowsLength(min: nat, end: nat, nets: seq<string>, pins: seq<string>)
    requires min <= end && |nets| <= |pins|
    ensures |NetRows(min, end, nets, pins)| == (end - min) * |nets|
    decreases end
  {
    if end > min {
      NetRowsLength(min, end - 1, nets, pins);
      assert (end - min) * |nets| == (end - 1 - min) * |nets| + |nets|;
    }
  }

  /** Position of the line for block `i` and net `j` in the netlist
      section: blocks in ascending order, nets in array order within a
      block. */
  function NetIndex(min: nat, i: nat, nets: nat, j: nat): nat
    requires min <= i
  {
    (i - min) * nets + j
  }

  lemma MulMonotone(a: nat, b: nat, n: nat)
    requires a <= b
    ensures a * n <= b * n
  {
  }

  /** The netlist lines come block-major: the line at NetIndex(min, i, |nets|, j)
      is the one for block i and net j. */
  lemma {:induction false} NetRowsAt(min: nat, end: nat, nets: seq<string>, pins: seq<string>, i: nat, j: nat)
    requires min <= i < end && j < |nets| <= |pins|
    ensures NetIndex(min, i, |nets|, j) < |NetRows(min, end, nets, pins)|
    ensures NetRows(min, end, nets, pins)[NetIndex(min, i, |nets|, j)] == NetRow(i, min, nets[j], pins[j])
    decreases end
  {
    var n := |nets|;
    var prev := NetRows(min, end - 1, nets, pins);
    NetRowsLength(min, end - 1, nets, pins);
    if i == end - 1 {
      assert NetIndex(min, i, n, j) == |prev| + j;
    } else {
      MulMonotone(i - min + 1, end - 1 - min, n);
      assert (i - min + 1) * n == (i - min) * n + n;
      NetRowsAt(min, end - 1, nets, pins, i, j);
    }
  }

  // ---------------------------------------------------------------------
  // The properties of the generated text
  // ---------------------------------------------------------------------

  /** No configured string holds a newline. */
  predicate NoNewlines(c: Config)
  {
    (forall k :: 0 <= k < |c.headerProps| ==> '\n' !in c.headerProps[k])
    && (forall k :: 0 <= k < |c.headerValues| ==> '\n' !in c.headerValues[k])
    && (forall k :: 0 <= k < |c.netlistPins| ==> '\n' !in c.netlistPins[k])
    && (forall k :: 0 <= k < |c.netlistNets| ==> '\n' !in c.netlistNets[k])
  }

  lemma {:induction false} RepeatWithout(s: string, n: nat, c: char)
    requires c !in s
    ensures c !in Repeat(s, n)
  {
    if n > 0 {
      RepeatWithout(s, n - 1, c);
    }
  }

  lemma HeaderRowsNoNewline(props: seq<string>, values: seq<string>, blocks: nat)
    requires |props| <= |values|
    requires forall k :: 0 <= k < |props| ==> '\n' !in props[k]
    requires forall k :: 0 <= k < |values| ==> '\n' !in values[k]
    ensures forall k :: 0 <= k < |props| ==> '\n' !in HeaderRows(props, values, blocks)[k]
  {
    forall k | 0 <= k < |props| ensures '\n' !in HeaderRows(props, values, blocks)[k] {
      RepeatWithout("\t" + values[k], blocks, '\n');
    }
  }

  lemma {:induction false} NetRowsNoNewline(min: nat, end: nat, nets: seq<string>, pins: seq<string>)
    requires min <= end && |nets| <= |pins|
    requires forall k :: 0 <= k < |nets| ==> '\n' !in nets[k]
    requires forall k :: 0 <= k < |pins| ==> '\n' !in pins[k]
    ensures forall k :: 0 <= k < |NetRows(min, end, nets, pins)| ==> '\n' !in NetRows(min, end, nets, pins)[k]
    decreases end
  {
    if end > min {
      NetRowsNoNewline(min, end - 1, nets, pins);
      var i := end - 1;
      var block := BlockRows(i, min, nets, pins);
      RepeatWithout("\t", i - min + 1, '\n');
      assert '\n' !in NatToString(i);
      forall j | 0 <= j < |block| ensures '\n' !in block[j] {
        assert block[j] == NetName(i, nets[j]) + Repeat("\t", i - min + 1) + pins[j];
      }
    }
  }

  /** The lines of the file, in the order they are written. */
  function OutputRows(c: Config, min: nat, max: nat): seq<string>
    requires min <= max && Paired(c)
  {
    HeaderRows(c.headerProps, c.headerValues, max - min + 1)
    + NetRows(min, max + 1, c.netlistNets, c.netlistPins)
  }

  lemma OutputIsTerminatedRows(c: Config, min: nat, max: nat)
    requires min <= max && Paired(c)
    ensures Render(c, min, max) == Some(Terminated(OutputRows(c, min, max)))
  {
    var blocks := max - min + 1;
    HeaderSectionRows(c.headerProps, c.headerValues, blocks);
    NetlistSectionRows(min, max + 1, c.netlistNets, c.netlistPins);
    TerminatedAppend(HeaderRows(c.headerProps, c.headerValues, blocks),
                     NetRows(min, max + 1, c.netlistNets, c.netlistPins));
  }

  lemma OutputRowsNoNewline(c: Config, min: nat, max: nat)
    requires min <= max && Paired(c) && NoNewlines(c)
    ensures forall k :: 0 <= k < |OutputRows(c, min, max)| ==> '\n' !in OutputRows(c, min, max)[k]
  {
    var header := HeaderRows(c.headerProps, c.headerValues, max - min + 1);
    var netlist := NetRows(min, max + 1, c.netlistNets, c.netlistPins);
    HeaderRowsNoNewline(c.headerProps, c.headerValues, max - min + 1);
    NetRowsNoNewline(min, max + 1, c.netlistNets, c.netlistPins);
    var rows := header + netlist;
    forall k | 0 <= k < |rows| ensures '\n' !in rows[k] {
      if k >= |header| {
        assert rows[k] == netlist[k - |header|];
      } else {
        assert rows[k] == header[k];
      }
    }
  }

  /** Read back at its newlines, the file is the header lines followed
      directly by the netlist lines, then nothing after the last newline. */
  lemma OutputLines(c: Config, min: nat, max: nat)
    requires min <= max && Paired(c) && NoNewlines(c)
    ensures Render(c, min, max).Some?
    ensures SplitOn(Render(c, min, max).value, '\n') == OutputRows(c, min, max) + [[]]
  {
    OutputIsTerminatedRows(c, min, max);
    OutputRowsNoNewline(c, min, max);
    SplitTerminated(OutputRows(c, min, max));
  }

  /** The file has one line per property and one per (block, net) pair. */
  lemma OutputRowsCount(c: Config, min: nat, max: nat)
    requires min <= max && Paired(c)
    ensures |OutputRows(c, min, max)| == |c.headerProps| + (max - min + 1) * |c.netlistNets|
  {
    NetRowsLength(min, max + 1, c.netlistNets, c.netlistPins);
  }

  /** Line k of the file, for k below the number of properties, is
      property k with its value once per block. */
  lemma OutputHeaderRow(c: Config, min: nat, max: nat, k: nat)
    requires min <= max && Paired(c) && k < |c.headerProps|
    ensures OutputRows(c, min, max)[k] == HeaderRow(c.headerProps[k], c.headerValues[k], max - min + 1)
  {
  }

  /** The line of block i and net j follows the header lines at position
      NetIndex: blocks ascending, nets in array order within a block. */
  lemma OutputNetRow(c: Config, min: nat, max: nat, i: nat, j: nat)
    requires min <= max && Paired(c) && min <= i <= max && j < |c.netlistNets|
    ensures |c.headerProps| + NetIndex(min, i, |c.netlistNets|, j) < |OutputRows(c, min, max)|
    ensures OutputRows(c, min, max)[|c.headerProps| + NetIndex(min, i, |c.netlistNets|, j)]
            == NetRow(i, min, c.netlistNets[j], c.netlistPins[j])
  {
    var header := HeaderRows(c.headerProps, c.headerValues, max - min + 1);
    var netlist := NetRows(min, max + 1, c.netlistNets, c.netlistPins);
    var t := NetIndex(min, i, |c.netlistNets|, j);
    NetRowsAt(min, max + 1, c.netlistNets, c.netlistPins, i, j);
    assert (header + netlist)[|header| + t] == netlist[t];
  }

  // ---------------------------------------------------------------------
  // Fields within a line
  // ---------------------------------------------------------------------

  lemma {:induction false} RepeatedFieldsJoin(p: string, v: string, sep: char, n: nat)
    ensures p + Repeat([sep] + v, n) == Join([p] + Copies(v, n), sep)
    decreases n
  {
    if n > 0 {
      RepeatCons([sep] + v, n - 1);
      RepeatedFieldsJoin(v, v, sep, n - 1);
      assert ([p] + Copies(v, n))[1..] == [v] + Copies(v, n - 1);
    }
  }

  lemma {:induction false} SeparatorRunJoin(p: string, q: string, sep: char, m: nat)
    ensures p + Repeat([sep], m + 1) + q == Join([p] + Copies([], m) + [q], sep)
    decreases m
  {
    if m > 0 {
      RepeatCons([sep], m);
      SeparatorRunJoin([], q, sep, m - 1);
      assert ([p] + Copies([], m) + [q])[1..] == [[]] + Copies([], m - 1) + [q];
    } else {
      assert ([p] + Copies([], 0) + [q]) == [p, q];
    }
  }

  /** A header line whose strings hold no tab has max - min + 2 fields:
      the property, then the value once per block. */
  lemma HeaderRowFields(prop: string, value: string, blocks: nat)
    requires '\t' !in prop && '\t' !in value
    ensures SplitOn(HeaderRow(prop, value, blocks), '\t') == [prop] + Copies(value, blocks)
    ensures |SplitOn(HeaderRow(prop, value, blocks), '\t')| == blocks + 1
  {
    RepeatedFieldsJoin(prop, value, '\t', blocks);
    SplitJoin([prop] + Copies(value, blocks), '\t');
  }

  /** A netlist line whose strings hold no tab is the net name, i - min
      empty fields, then the pin: i - min + 1 tabs, one more per block. */
  lemma NetRowFields(i: nat, min: nat, net: string, pin: string)
    requires min <= i && '\t' !in net && '\t' !in pin
    ensures SplitOn(NetRow(i, min, net, pin), '\t') == [NetName(i, net)] + Copies([], i - min) + [pin]
    ensures Count(NetRow(i, min, net, pin), '\t') == i - min + 1
  {
    assert '\t' !in NatToString(i);
    var parts := [NetName(i, net)] + Copies([], i - min) + [pin];
    SeparatorRunJoin(NetName(i, net), pin, '\t', i - min);
    assert NetRow(i, min, net, pin) == NetName(i, net) + Repeat("\t", i - min + 1) + pin;
    SplitJoin(parts, '\t');
  }

  // ---------------------------------------------------------------------
  // The shipped configuration
  // ---------------------------------------------------------------------

  /** The lines of block i with the shipped pins, in a run from `min`. */
  lemma DefaultBlockRows(i: nat, min: nat)
    requires min <= i
    ensures BlockRows(i, min, Default.netlistNets, Default.netlistPins) == [
      NetName(i, "IN") + Repeat("\t", i - min + 1) + "BLOCK_A_IN",
      NetName(i, "OUT") + Repeat("\t", i - min + 1) + "BLOCK_A_OUT"]
  {
  }

  lemma DefaultBlock0() ensures BlockRows(0, 0, Default.netlistNets, Default.netlistPins)
    == ["BLK_0_IN\tBLOCK_A_IN", "BLK_0_OUT\tBLOCK_A_OUT"]
  {
    DefaultBlockRows(0, 0);
    assert NatToString(0) == "0" && Repeat("\t", 1) == "\t";
    assert NetName(0, "IN") == "BLK_0_IN" && NetName(0, "OUT") == "BLK_0_OUT";
    assert NetName(0, "IN") + Repeat("\t", 1) + "BLOCK_A_IN" == "BLK_0_IN\tBLOCK_A_IN";
    assert NetName(0, "OUT") + Repeat("\t", 1) + "BLOCK_A_OUT" == "BLK_0_OUT\tBLOCK_A_OUT";
  }

  lemma DefaultBlock1() ensures BlockRows(1, 1, Default.netlistNets, Default.netlistPins)
    == ["BLK_1_IN\tBLOCK_A_IN", "BLK_1_OUT\tBLOCK_A_OUT"]
  {
    DefaultBlockRows(1, 1);
    assert NatToString(1) == "1" && Repeat("\t", 1) == "\t";
    assert NetName(1, "IN") == "BLK_1_IN" && NetName(1, "OUT") == "BLK_1_OUT";
    assert NetName(1, "IN") + Repeat("\t", 1) + "BLOCK_A_IN" == "BLK_1_IN\tBLOCK_A_IN";
    assert NetName(1, "OUT") + Repeat("\t", 1) + "BLOCK_A_OUT" == "BLK_1_OUT\tBLOCK_A_OUT";
  }

  lemma DefaultBlock2() ensures BlockRows(2, 1, Default.netlistNets, Default.netlistPins)
    == ["BLK_2_IN\t\tBLOCK_A_IN", "BLK_2_OUT\t\tBLOCK_A_OUT"]
  {
    DefaultBlockRows(2, 1);
    assert NatToString(2) == "2" && Repeat("\t", 2) == "\t\t";
    assert NetName(2, "IN") == "BLK_2_IN" && NetName(2, "OUT") == "BLK_2_OUT";
    assert NetName(2, "IN") + Repeat("\t", 2) + "BLOCK_A_IN" == "BLK_2_IN\t\tBLOCK_A_IN";
    assert NetName(2, "OUT") + Repeat("\t", 2) + "BLOCK_A_OUT" == "BLK_2_OUT\t\tBLOCK_A_OUT";
  }

  /** With one block, a header line is the property, a tab and the value. */
  lemma HeaderRowOneBlock(prop: string, value: string)
    ensures HeaderRow(prop, value, 1) == prop + "\t" + value
  {
    assert Repeat("\t" + value, 0) + ("\t" + value) == "\t" + value;
  }

  /** The shipped partition line with one block. */
  lemma DefaultHeaderPartitionRow()
    ensures HeaderRows(Default.headerProps, Default.headerValues, 1)[0] == "%Partition%\tLogical_Physical"
  {
    var props, values := Default.headerProps, Default.headerValues;
    assert props[0] == "%Partition%" && values[0] == "Logical_Physical";
    HeaderRowOneBlock("%Partition%", "Logical_Physical");
  }

  /** The shipped renumbering lines with one block. */
  lemma DefaultHeaderRenumberRows()
    ensures HeaderRows(Default.headerProps, Default.headerValues, 1)[1] == "%RefDes Renumber@SYM@BLOCK%\tTrue"
    ensures HeaderRows(Default.headerProps, Default.headerValues, 1)[2] == "%RefDes Renumber@SYM@PATH%\tFalse"
  {
    var props, values := Default.headerProps, Default.headerValues;
    assert props[1] == "%RefDes Renumber@SYM@BLOCK%" && values[1] == "True";
    HeaderRowOneBlock("%RefDes Renumber@SYM@BLOCK%", "True");
    assert props[2] == "%RefDes Renumber@SYM@PATH%" && values[2] == "False";
    HeaderRowOneBlock("%RefDes Renumber@SYM@PATH%", "False");
  }

  /** The shipped cell and symbol name lines with one block. */
  lemma DefaultHeaderNameRows()
    ensures HeaderRows(Default.headerProps, Default.headerValues, 1)[3] == "%Reuse Cell Name@SYM@BLOCK%\tLP_BLOCK_A"
    ensures HeaderRows(Default.headerProps, Default.headerValues, 1)[4] == "%Symbol Name%\tLP_BLOCK_A.1"
  {
    var props, values := Default.headerProps, Default.headerValues;
    assert props[3] == "%Reuse Cell Name@SYM@BLOCK%" && values[3] == "LP_BLOCK_A";
    HeaderRowOneBlock("%Reuse Cell Name@SYM@BLOCK%", "LP_BLOCK_A");
    assert props[4] == "%Symbol Name%" && values[4] == "LP_BLOCK_A.1";
    HeaderRowOneBlock("%Symbol Name%", "LP_BLOCK_A.1");
  }

  /** The shipped header with one block: one value column per property. */
  lemma DefaultHeaderOneBlock()
    ensures HeaderRows(Default.headerProps, Default.headerValues, 1) == [
      "%Partition%\tLogical_Physical",
      "%RefDes Renumber@SYM@BLOCK%\tTrue",
      "%RefDes Renumber@SYM@PATH%\tFalse",
      "%Reuse Cell Name@SYM@BLOCK%\tLP_BLOCK_A",
      "%Symbol Name%\tLP_BLOCK_A.1"]
  {
    DefaultHeaderPartitionRow();
    DefaultHeaderRenumberRows();
    DefaultHeaderNameRows();
  }

  /** With the shipped arrays and one block 0, the file is five header
      lines of one value column, then the IN and OUT lines of block 0 with
      one tab each. */
  lemma DefaultSingleBlock()
    ensures OutputRows(Default, 0, 0) == [
      "%Partition%\tLogical_Physical",
      "%RefDes Renumber@SYM@BLOCK%\tTrue",
      "%RefDes Renumber@SYM@PATH%\tFalse",
      "%Reuse Cell Name@SYM@BLOCK%\tLP_BLOCK_A",
      "%Symbol Name%\tLP_BLOCK_A.1",
      "BLK_0_IN\tBLOCK_A_IN",
      "BLK_0_OUT\tBLOCK_A_OUT"]
  {
    var nets, pins := Default.netlistNets, Default.netlistPins;
    DefaultBlock0();
    DefaultHeaderOneBlock();
    assert NetRows(0, 0, nets, pins) == [];
    assert NetRows(0, 1, nets, pins) == BlockRows(0, 0, nets, pins);
  }

  /** Blocks 1 and 2 with the shipped pins: the IN and OUT lines of block
      1 indented one tab, then those of block 2 indented two. */
  lemma DefaultNetlistTwoBlocks()
    ensures NetRows(1, 3, Default.netlistNets, Default.netlistPins) == [
      "BLK_1_IN\tBLOCK_A_IN",
      "BLK_1_OUT\tBLOCK_A_OUT",
      "BLK_2_IN\t\tBLOCK_A_IN",
      "BLK_2_OUT\t\tBLOCK_A_OUT"]
  {
    var nets, pins := Default.netlistNets, Default.netlistPins;
    DefaultBlock1();
    DefaultBlock2();
    assert NetRows(1, 1, nets, pins) == [];
    assert NetRows(1, 2, nets, pins) == BlockRows(1, 1, nets, pins);
  }
}
