/** The body of `main`: validate the arguments, open the file, run the
    header and netlist loops, and map every outcome to the handler that
    catches it and to the process exit code. */
module Generator {
  import opened Wrappers
  import opened JavaStrings
  import opened Arguments
  import opened Netlist

  /** Why a run ends without a complete file. */
  datatype Failure =
    | Invalid(reason: ArgError)   // a failed argument check
    | OpenFailed                  // new FileWriter(path) throws IOException
    | IndexOutOfBounds            // headerValues or netlistPins is too short

  /** The catch clauses of `main`, in order. */
  datatype Handler = IOHandler | NumberFormatHandler | ArrayIndexHandler | GenericHandler

  /** The catch clause that receives the exception of each failure: the
      path checks and the file open throw IOException, parseInt throws
      NumberFormatException, array indexing ArrayIndexOutOfBoundsException;
      the count and range checks throw a plain Exception, and substring on
      a short path a StringIndexOutOfBoundsException, both caught last. */
  function HandlerOf(f: Failure): (h: Handler)
    ensures h == IOHandler <==> f in {Invalid(BlankPath), Invalid(BadExtension), OpenFailed}
    ensures h == NumberFormatHandler <==> f == Invalid(NotAnInteger)
    ensures h == ArrayIndexHandler <==> f == IndexOutOfBounds
  {
    match f
    case Invalid(BlankPath) | Invalid(BadExtension) | OpenFailed => IOHandler
    case Invalid(NotAnInteger) => NumberFormatHandler
    case IndexOutOfBounds => ArrayIndexHandler
    case Invalid(_) => GenericHandler
  }

  /** The code each catch clause passes to System.exit. */
  function HandlerExitCode(h: Handler): (code: int)
    ensures code == 0
  {
    match h
    case IOHandler => 0
    case NumberFormatHandler => 0
    case ArrayIndexHandler => 0
    case GenericHandler => 0
  }

  /** System.exit(1) after a complete file, the handler's code otherwise. */
  function ExitCode(r: Result<string, Failure>): (code: int)
    ensures code == 1 <==> r.Success?
    ensures code == 0 <==> r.Failure?
  {
    match r
    case Success(_) => 1
    case Failure(f) => HandlerExitCode(HandlerOf(f))
  }

  /** What a run of `main` leaves behind: the file's text, or why there is
      none; `canOpen` stands for whether the OS lets the file be opened. */
  function Outcome(args: seq<string>, c: Config, canOpen: bool): (r: Result<string, Failure>)
    ensures Validate(args).Failure? ==> r == Failure(Invalid(Validate(args).error))
    ensures r == Failure(OpenFailed) <==> Validate(args).Success? && !canOpen
    ensures r == Failure(IndexOutOfBounds) <==> Validate(args).Success? && canOpen && !Paired(c)
    ensures r.Success? <==> Validate(args).Success? && canOpen && Paired(c)
  {
    match Validate(args)
    case Failure(e) => Failure(Invalid(e))
    case Success(p) =>
      if !canOpen then Failure(OpenFailed)
      else match Render(c, p.min, p.max)
        case None => Failure(IndexOutOfBounds)
        case Some(text) => Success(text)
  }

  /** A run writes a file and exits with 1 exactly when the arguments pass
      every check, the file opens, and every property has a value and
      every net a pin; every other path exits with 0. */
  lemma OutcomeSucceedsIff(args: seq<string>, c: Config, canOpen: bool)
    ensures Outcome(args, c, canOpen).Success? <==> Validate(args).Success? && canOpen && Paired(c)
    ensures ExitCode(Outcome(args, c, canOpen)) == 1 <==> Validate(args).Success? && canOpen && Paired(c)
    ensures ExitCode(Outcome(args, c, canOpen)) == 0 <==> !(Validate(args).Success? && canOpen && Paired(c))
  {
  }

  /** A failed argument check is reported before the file is opened and
      whatever the configuration; a short non-blank path reaches the
      generic handler, not the I/O one that reports bad extensions. */
  lemma InvalidArgumentsFirst(args: seq<string>, c: Config, canOpen: bool)
    requires Validate(args).Failure?
    ensures Outcome(args, c, canOpen) == Failure(Invalid(Validate(args).error))
    ensures Validate(args).error == PathTooShort ==>
              HandlerOf(Outcome(args, c, canOpen).error) == GenericHandler
  {
  }

  /** The header loops of `main`: for each property, its name, then a tab
      and its value once per block, then a newline. None where headerValues
      runs out first. */
  method WriteHeader(props: seq<string>, values: seq<string>, min: nat, max: nat) returns (r: Option<string>)
    requires min <= max
    ensures r.Some? <==> |props| <= |values|
    ensures r.Some? ==> r.value == HeaderSection(props, values, max - min + 1)
  {
    var blocks := max - min + 1;
    var out: string := [];
    for i := 0 to |props|
      invariant i <= |values|
      invariant out == HeaderSection(props[..i], values, blocks)
    {
      ghost var before := out;
      ghost var cell := if i < |values| then "\t" + values[i] else [];
      out := out + props[i];
      ghost var start := out;
      for j := min to max + 1
        invariant j > min ==> i < |values|
        invariant out == start + Repeat(cell, j - min)
      {
        if i >= |values| {
          return None;
        }
        RepeatAppend(start, cell, j - min);
        out := out + ("\t" + values[i]);
      }
      assert out == before + HeaderRow(props[i], values[i], blocks);
      HeaderSectionSnoc(props, values, blocks, i);
      out := out + "\n";
    }
    assert props[..|props|] == props;
    assert out == HeaderSection(props, values, blocks);
    return Some(out);
  }

  /** The lines of block `i`: for each net, "BLK_" + i + "_" + net, then
      i - min + 1 tabs, then the pin and a newline. None where netlistPins
      runs out first. */
  method WriteBlock(i: nat, min: nat, nets: seq<string>, pins: seq<string>) returns (r: Option<string>)
    requires min <= i
    ensures r.Some? <==> |nets| <= |pins|
    ensures r.Some? ==> r.value == BlockSection(i, min, nets, pins)
  {
    var out: string := [];
    for j := 0 to |nets|
      invariant j <= |pins|
      invariant out == BlockSection(i, min, nets[..j], pins)
    {
      ghost var before := out;
      out := out + ("BLK_" + NatToString(i) + "_" + nets[j]);
      ghost var start := out;
      for k := 0 to i - min + 1
        invariant out == start + Repeat("\t", k)
      {
        RepeatAppend(start, "\t", k);
        out := out + "\t";
      }
      if j >= |pins| {
        return None;
      }
      out := out + (pins[j] + "\n");
      assert out == before + NetRow(i, min, nets[j], pins[j]) + "\n";
      BlockSectionSnoc(i, min, nets, pins, j);
    }
    assert nets[..|nets|] == nets;
    return Some(out);
  }

  /** The netlist loop of `main`: the lines of each block from min to max
      in ascending order. */
  method WriteNetlist(min: nat, max: nat, nets: seq<string>, pins: seq<string>) returns (r: Option<string>)
    requires min <= max
    ensures r.Some? <==> |nets| <= |pins|
    ensures r.Some? ==> r.value == NetlistSection(min, max + 1, nets, pins)
  {
    var out: string := [];
    for i := min to max + 1
      invariant i == min ==> out == []
      invariant i > min ==> |nets| <= |pins| && out == NetlistSection(min, i, nets, pins)
    {
      var block := WriteBlock(i, min, nets, pins);
      if block.None? {
        return None;
      }
      out := out + block.value;
    }
    return Some(out);
  }

  /** The writing part of `main`: the header section, then the netlist
      section, into one buffer in place of the FileWriter. */
  method WriteNfs(c: Config, min: nat, max: nat) returns (r: Option<string>)
    requires min <= max
    ensures r == Render(c, min, max)
  {
    var header := WriteHeader(c.headerProps, c.headerValues, min, max);
    if header.None? {
      return None;
    }
    var netlist := WriteNetlist(min, max, c.netlistNets, c.netlistPins);
    if netlist.None? {
      return None;
    }
    return Some(header.value + netlist.value);
  }

  /** `main`: check the arguments, open the file, write it, and exit. */
  method Run(args: seq<string>, c: Config, canOpen: bool) returns (r: Result<string, Failure>, code: int)
    ensures r == Outcome(args, c, canOpen)
    ensures code == ExitCode(r)
  {
    var v := Validate(args);
    if v.Failure? {
      r := Failure(Invalid(v.error));
    } else if !canOpen {
      r := Failure(OpenFailed);
    } else {
      var text := WriteNfs(c, v.value.min, v.value.max);
      r := if text.Some? then Success(text.value) else Failure(IndexOutOfBounds);
    }
    code := ExitCode(r);
  }
}
