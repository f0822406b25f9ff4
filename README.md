# ICT_Generator in Dafny

ICT_Generator is a one-method Java program that writes an NFS file: a
tab-delimited netlist for an ICT table in DX Designer. It describes a row of
identical circuit blocks numbered `min` to `max`. Its `main` does three things:

1. It checks three command-line strings. These are the two block bounds,
   parsed with `Integer.parseInt`, and an output path. Each failed check
   throws an exception, and one of four catch clauses handles it.
2. It writes a header section. There is one line per property: the property
   name, then a tab and the property's value once per block.
3. It writes a netlist section. There is one line per (block, net) pair, in
   block-major order. Each line holds `BLK_<i>_<net>`, then `i - min + 1`
   tabs (a staircase), then the pin name.

It exits with code 1 after a complete file and with 0 on every failure.

The model has five modules, one per concern of `main`:

- `Wrappers`: `Option` and `Result`.
- `JavaStrings`: the library calls the program relies on. These are
  `Integer.parseInt` (ASCII digits, optional sign, 32-bit range),
  `String.trim`, and decimal int-to-string conversion. It also gives the
  UTF-16 code units that `length()` and `substring` count. And it holds the
  repetition, field splitting and joining used to state the file layout.
- `Arguments`: the validator `Validate`, a pure function. Each check has its
  own `ArgError`, in source order. It comes with lemmas for the
  accept-iff-all-checks-pass property and for the check priority.
- `Netlist`: the configuration arrays (`Config`, with `Default` holding the
  shipped arrays) and the specification `Render` of the file's text. Lemmas
  describe the text line by line and field by field.
- `Generator`: the imperative writer, with `for` loops that mirror the Java
  loops and append to a string buffer in place of the `FileWriter`. Each
  loop nest is its own method. `WriteHeader` covers the header loops.
  `WriteBlock` covers the pin loop and the indentation loop. `WriteNetlist`
  covers the block loop. `WriteNfs` runs the header and netlist writers in
  turn. Each method is proved equal to the specification. `Run` is `main`.
  It maps outcomes to catch clauses (`HandlerOf`) and to exit codes
  (`ExitCode`).

Three behaviours of the code are easy to misread; the model follows the
code:

- The extension check is case-sensitive. It accepts only `.txt`, `.nfs`,
  `.TXT` and `.NFS`, and it looks at the untrimmed path.
- A non-blank path shorter than four characters makes `substring` throw. The
  generic handler catches that, not the I/O handler that reports a bad
  extension. Java counts that length in UTF-16 code units, and so does the
  model (`JavaStrings.Utf16`). A character above U+FFFF counts twice, so
  "ab" followed by U+1F600 is four units long: it passes the length test
  and fails the extension test, in the I/O handler.
- A wrong argument count and the three range checks throw a plain
  `Exception`. The generic handler catches them too.

## Model

| member | source | states |
|---|---|---|
| `JavaStrings.ParseInt` | src/ICT_Generator.java:82-83 | a parsed bound always fits a 32-bit int |
| `JavaStrings.ParseIntToString` | src/ICT_Generator.java:82-83 | every 32-bit int parses back from its decimal notation |
| `JavaStrings.IntToStringOfParse` | src/ICT_Generator.java:82-83 | a canonical numeral that parses prints back unchanged: parsing and printing are inverse |
| `JavaStrings.DigitsValueLeadingZero` | src/ICT_Generator.java:82-83 | leading zeros do not change a parsed value |
| `JavaStrings.NatToString` | src/ICT_Generator.java:153 | the block number in `"BLK_" + i` is a non-empty run of digits that starts with '0' only for block 0 |
| `JavaStrings.DigitsValueOfNat` | src/ICT_Generator.java:153 | the digits written for block i read back as i |
| `JavaStrings.NatToStringOfDigits` | src/ICT_Generator.java:153 | every digit string without a leading zero is the notation of its value |
| `JavaStrings.TrimStart` | src/ICT_Generator.java:108 | trim removes exactly the leading characters at or below U+0020 |
| `JavaStrings.TrimEnd` | src/ICT_Generator.java:108 | trim removes exactly the trailing characters at or below U+0020 |
| `JavaStrings.Trim` | src/ICT_Generator.java:108 | a string trims to empty iff every character is at or below U+0020; otherwise the trimmed string starts and ends with a character above U+0020 |
| `JavaStrings.Utf16` | src/ICT_Generator.java:116 | `length()` counts UTF-16 code units: between one and two per character |
| `JavaStrings.Utf16Append` | src/ICT_Generator.java:116 | the code units of a concatenation are those of its parts, in order |
| `JavaStrings.Utf16Tail` | src/ICT_Generator.java:116 | when none of the last k code units is a surrogate, they are the last k characters, one unit each |
| `JavaStrings.Utf16TailBmp` | src/ICT_Generator.java:116 | the last k characters, all below U+10000, are the last k code units |
| `JavaStrings.RepeatLength` | src/ICT_Generator.java:137-139 | n writes of s produce n times as many characters as s has |
| `JavaStrings.RepeatCons` | src/ICT_Generator.java:156-158 | writing s n+1 times equals s followed by n copies |
| `Arguments.IsBlank` | src/ICT_Generator.java:108 | `trim().isEmpty()` holds iff every character is at or below U+0020 |
| `Arguments.Suffix` | src/ICT_Generator.java:116 | `substring(length-4)` is the last four code units, and the path's code units are a prefix followed by them |
| `Arguments.MatchesExtension` | src/ICT_Generator.java:116 | the regex accepts exactly the code units of `.txt`, `.nfs`, `.TXT`, `.NFS` |
| `Arguments.SuffixIff` | src/ICT_Generator.java:116 | the regex accepts the last four code units iff the last four characters are one of the four extensions |
| `Arguments.CheckBounds` | src/ICT_Generator.java:89-105 | the range checks pass iff 0 <= min <= max <= 4096, and otherwise report one of the three range errors |
| `Arguments.CheckPath` | src/ICT_Generator.java:107-121 | the path checks pass iff the path is not blank, is at least four characters long and ends in an accepted extension; the short-path error is reported iff the path is not blank and has fewer than four UTF-16 code units |
| `Arguments.Validate` | src/ICT_Generator.java:74-121 | accepted arguments give min <= max <= 4096, and the path is the third argument as given |
| `Arguments.CheckPathAcceptsIff` | src/ICT_Generator.java:107-121 | a path passes iff it has a character above U+0020 and its untrimmed last four characters are an accepted extension |
| `Arguments.ValidateAcceptsIff` | src/ICT_Generator.java:74-121 | arguments are accepted iff there are three, both bounds parse, 0 <= min <= max <= 4096, the path is not blank, and its untrimmed suffix is an accepted extension |
| `Arguments.CheckBoundsFirst` | src/ICT_Generator.java:89-105 | the range checks report the first failing condition in the order min>max, negative, above 4096 |
| `Arguments.CheckPathFirst` | src/ICT_Generator.java:107-121 | the path checks report the first failing condition in the order blank, fewer than four UTF-16 code units, last four code units not an accepted extension |
| `Arguments.ValidateReportsFirstViolation` | src/ICT_Generator.java:74-121 | error e is reported iff check e fails and every earlier check passes |
| `Arguments.ValidateAcceptsNoViolation` | src/ICT_Generator.java:74-121 | arguments are accepted iff no check fails |
| `Arguments.ValidateCountAndNumberExamples` | src/ICT_Generator.java:74-83 | two or four arguments are a count error; "a" and "-" are number errors |
| `Arguments.MinAboveMaxExample` | src/ICT_Generator.java:89-93 | min=5, max=-1 is reported as min>max, not as negative |
| `Arguments.NegativeExample` | src/ICT_Generator.java:95-99 | min=-1, max=3 is reported as a negative bound |
| `Arguments.TooManyBlocksExample` | src/ICT_Generator.java:101-105 | max=4097 is reported as too many blocks |
| `Arguments.BlankPathExample` | src/ICT_Generator.java:108-112 | a path of spaces is blank |
| `Arguments.ShortPathExample` | src/ICT_Generator.java:116 | "abc" is a short-path failure, not an extension error |
| `Arguments.SupplementaryPathExample` | src/ICT_Generator.java:116 | "ab" followed by U+1F600 is three characters but four code units, so it is an extension error, not a short-path failure |
| `Arguments.MixedCaseExample` | src/ICT_Generator.java:116 | ".Txt" is rejected |
| `Arguments.TrailingSpaceExample` | src/ICT_Generator.java:116 | "out.nfs " is rejected, because the extension is read before trimming |
| `Arguments.LeadingSpaceExample` | src/ICT_Generator.java:108-116 | " .NFS" passes both path checks |
| `Arguments.SignAndZerosExample` | src/ICT_Generator.java:82-83 | `parseInt` reads "+1" as 1 and "0002" as 2 |
| `Arguments.ValidateAcceptExample` | src/ICT_Generator.java:82-121 | "+1", "0002", " .NFS" are accepted as blocks 1 to 2 |
| `Netlist.Render` | src/ICT_Generator.java:131-161 | the file is produced iff every property has a value and every net has a pin |
| `Netlist.HeaderSectionRows` | src/ICT_Generator.java:133-142 | the header section is its property lines, each ended by a newline |
| `Netlist.BlockSectionRows` | src/ICT_Generator.java:152-160 | a block's section is its net lines in array order, each ended by a newline |
| `Netlist.NetlistSectionRows` | src/ICT_Generator.java:149-161 | the netlist section is the net lines of every block, each ended by a newline |
| `Netlist.NetRowsLength` | src/ICT_Generator.java:149-152 | the netlist has (max-min+1) * netlistNets.length lines |
| `Netlist.NetRowsAt` | src/ICT_Generator.java:149-159 | netlist line (i-min)*nets+j is the line of block i and net j: block-major order |
| `Netlist.OutputIsTerminatedRows` | src/ICT_Generator.java:131-161 | the file is the header lines followed directly by the netlist lines, each ended by a newline, with no separator |
| `Netlist.OutputLines` | src/ICT_Generator.java:131-161 | split at its newlines, the file is exactly the header lines, then the netlist lines, then an empty remainder |
| `Netlist.OutputRowsCount` | src/ICT_Generator.java:133-161 | the file has headerProps.length + (max-min+1) * netlistNets.length lines |
| `Netlist.OutputHeaderRow` | src/ICT_Generator.java:133-142 | line k is headerProps[k] followed by (max-min+1) copies of tab + headerValues[k] |
| `Netlist.OutputNetRow` | src/ICT_Generator.java:149-159 | the line of block i and net j is `BLK_`+i+`_`+net, then i-min+1 tabs, then the pin, at its block-major position after the header |
| `Netlist.HeaderRowFields` | src/ICT_Generator.java:134-141 | a header line has max-min+2 tab-separated fields: the property, then the value once per block |
| `Netlist.NetRowFields` | src/ICT_Generator.java:153-159 | a netlist line has i-min+1 tabs, so its fields are the net name, i-min empty fields and the pin |
| `Netlist.HeaderRowOneBlock` | src/ICT_Generator.java:134-141 | with a single block, a header line is the property, one tab and the value |
| `Netlist.DefaultHeaderOneBlock` | src/ICT_Generator.java:33-51 | with the shipped arrays and one block, the header lines are `%Partition%\tLogical_Physical` through `%Symbol Name%\tLP_BLOCK_A.1` |
| `Netlist.DefaultBlockRows` | src/ICT_Generator.java:55-62 | with the shipped pins, a block is an IN line and then an OUT line |
| `Netlist.DefaultBlock0` | src/ICT_Generator.java:149-160 | block 0 of a run from 0 is `BLK_0_IN\tBLOCK_A_IN`, `BLK_0_OUT\tBLOCK_A_OUT` |
| `Netlist.DefaultBlock1` | src/ICT_Generator.java:149-160 | block 1 of a run from 1 has one tab on each line |
| `Netlist.DefaultBlock2` | src/ICT_Generator.java:149-160 | block 2 of a run from 1 has two tabs on each line |
| `Netlist.DefaultSingleBlock` | src/ICT_Generator.java:33-62 | with the shipped arrays and min=max=0, the file is five one-column header lines, then the IN and OUT lines of block 0 |
| `Netlist.DefaultNetlistTwoBlocks` | src/ICT_Generator.java:149-161 | with the shipped pins and min=1, max=2, the netlist is four lines: block 1 with one tab, then block 2 with two |
| `Generator.HandlerOf` | src/ICT_Generator.java:189-213 | blank path, bad extension and open failure reach the I/O handler; parse failure reaches the number-format handler; a short array reaches the array-index handler; everything else reaches the generic handler |
| `Generator.HandlerExitCode` | src/ICT_Generator.java:189-213 | every catch clause exits with 0 |
| `Generator.ExitCode` | src/ICT_Generator.java:182-212 | the exit code is 1 exactly on success and 0 on every failure |
| `Generator.Outcome` | src/ICT_Generator.java:72-213 | a failed argument check is the outcome; with valid arguments, an unopenable file gives the open failure, and otherwise the run fails on an index error iff the arrays are not paired and succeeds iff they are |
| `Generator.OutcomeSucceedsIff` | src/ICT_Generator.java:72-213 | a run writes the file and exits with 1 iff the arguments are accepted, the file opens and the arrays are paired |
| `Generator.InvalidArgumentsFirst` | src/ICT_Generator.java:74-125 | a failed argument check is reported before the file is opened; a short path goes to the generic handler |
| `Generator.WriteHeader` | src/ICT_Generator.java:133-142 | the header loops write exactly the header section, and fail iff headerValues is shorter than headerProps |
| `Generator.WriteBlock` | src/ICT_Generator.java:152-160 | the pin and indentation loops write exactly one block's lines, and fail iff netlistPins is shorter than netlistNets |
| `Generator.WriteNetlist` | src/ICT_Generator.java:149-161 | the block loop writes exactly the netlist section for min..max |
| `Generator.WriteNfs` | src/ICT_Generator.java:131-161 | the writing loops produce exactly `Render` |
| `Generator.Run` | src/ICT_Generator.java:72-213 | `main` ends in the outcome `Outcome` and exits with its `ExitCode` |

## Left out

- Console output and `printStackTrace` are not modelled. Each failure is an
  `ArgError` or `Failure` value, and `HandlerOf` names the catch clause that
  would print it.
- `System.exit` is not modelled as a process action. Only the code it
  receives is modelled (`ExitCode`).
- File I/O is reduced to one boolean parameter. Opening the file is
  `canOpen`. Write and close failures part-way through are not modelled.
- After an array index error, the model returns only the error. In the
  program, `new FileWriter` has already created or truncated the file, and
  the writer flushes its buffer whenever it fills. So the file exists and
  may hold some of the text written before the exception. The model does not
  say how much of it reaches the file.
- `JavaStrings.ParseInt`: only ASCII digits are modelled. `Integer.parseInt`
  also accepts other Unicode decimal digits.
- The `filepath == null` test is not modelled, because Java never passes a
  null element in `args`.
- The configuration arrays are a `Config` parameter. `Netlist.Default` holds
  the shipped values.
- The commented-out arrays and the commented-out global-nets loop are dead
  code and are not modelled.
- Integer width: loop counters and bounds are `nat`. The program's 32-bit
  ints cannot overflow here, because the bounds are at most 4096.
- The lemmas that read the text back line by line or field by field require
  that no configured string contains a newline or a tab, respectively. The
  program does not need that condition to write the file.
