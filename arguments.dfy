/** The command-line checks at the start of `main`: three arguments, two
    integers in order and within [0, 4096], and an output path that is not
    blank and ends in one of the accepted extensions. */
module Arguments {
  import opened Wrappers
  import opened JavaStrings

  /** The largest block number the generator accepts. */
  const MaxBlocks: int := 4096

  /** Each check of the validator, in the order they are made. */
  datatype ArgError =
    | WrongArgCount    // not exactly three arguments
    | NotAnInteger     // Integer.parseInt throws on the first or second argument
    | MinAboveMax      // numBlocksMin > numBlocksMax
    | Negative         // either bound below zero
    | TooManyBlocks    // either bound above 4096
    | BlankPath        // the path trims to the empty string
    | PathTooShort     // substring(length - 4) throws on a non-blank path of under four characters
    | BadExtension     // the last four characters are not one of the accepted extensions

  /** The validated run parameters. */
  datatype Params = Params(min: nat, max: nat, path: string)

  /** path.trim().isEmpty(): every character is at or below U+0020. */
  predicate IsBlank(path: string)
    ensures IsBlank(path) <==> AllBlank(path)
  {
    Trim(path) == []
  }

  /** The four extensions the regular expression accepts. */
  const Extensions: set<string> := {".txt", ".nfs", ".TXT", ".NFS"}

  /** substring(length() - 4): the last four UTF-16 code units of `path`. */
  function Suffix(path: string): (r: seq<int>)
    requires |Utf16(path)| >= 4
    ensures |r| == 4 && Utf16(path) == Utf16(path)[..|Utf16(path)| - 4] + r
  {
    Utf16(path)[|Utf16(path)| - 4..]
  }

  /** The code units of an ASCII string, one per character. */
  function Ascii(s: string): (units: seq<int>)
    ensures |units| == |s|
  {
    seq(|s|, k requires 0 <= k < |s| => s[k] as int)
  }

  /** `units` matches the regular expression \.(txt|nfs|TXT|NFS) as a
      whole: a dot, then one of the four names in one case, so mixed case
      such as ".Txt" is rejected. */
  predicate MatchesExtension(units: seq<int>)
    ensures MatchesExtension(units) <==>
      units == Ascii(".txt") || units == Ascii(".nfs") || units == Ascii(".TXT") || units == Ascii(".NFS")
  {
    assert forall x :: x in Extensions ==> Ascii(x)[1..] == Ascii(x[1..]);
    |units| == 4 && units[0] == '.' as int
    && units[1..] in {Ascii("txt"), Ascii("nfs"), Ascii("TXT"), Ascii("NFS")}
  }

  /** An accepted extension is four ASCII characters, one code unit each. */
  lemma ExtensionIsAscii(x: string)
    requires x in Extensions
    ensures |x| == 4 && MatchesExtension(Ascii(x))
    ensures forall k :: 0 <= k < 4 ==> x[k] as int < 0x80
  {
    assert x == ".txt" || x == ".nfs" || x == ".TXT" || x == ".NFS";
  }

  /** The three range checks on the parsed bounds, in source order. */
  function CheckBounds(lo: int, hi: int): (r: Option<ArgError>)
    ensures r.None? <==> 0 <= lo <= hi <= MaxBlocks
    ensures r.Some? ==> r.value in {MinAboveMax, Negative, TooManyBlocks}
  {
    if lo > hi then Some(MinAboveMax)
    else if lo < 0 || hi < 0 then Some(Negative)
    else if lo > MaxBlocks || hi > MaxBlocks then Some(TooManyBlocks)
    else None
  }

  /** The two checks on the output path, in source order. The extension
      is looked up on the untrimmed path, and substring(length() - 4)
      throws on its own when the path has fewer than four UTF-16 code
      units. A path of three characters, one of them above U+FFFF, has four
      code units and so fails the extension check instead. */
  function CheckPath(path: string): (r: Option<ArgError>)
    ensures r.None? <==> !IsBlank(path) && |path| >= 4 && path[|path| - 4..] in Extensions
    ensures r == Some(PathTooShort) <==> !IsBlank(path) && |Utf16(path)| < 4
    ensures r.Some? ==> r.value in {BlankPath, PathTooShort, BadExtension}
  {
    if IsBlank(path) then Some(BlankPath)
    else if |Utf16(path)| < 4 then Some(PathTooShort)
    else
      SuffixIff(path);
      if !MatchesExtension(Suffix(path)) then Some(BadExtension)
      else None
  }

  /** The regular expression accepts the last four code units exactly when
      the last four characters are one of the extensions. */
  lemma SuffixIff(path: string)
    requires |Utf16(path)| >= 4
    ensures MatchesExtension(Suffix(path)) <==> |path| >= 4 && path[|path| - 4..] in Extensions
  {
    if |path| >= 4 && path[|path| - 4..] in Extensions {
      ExtensionSuffix(path);
    }
    if MatchesExtension(Suffix(path)) {
      SuffixIsExtension(path);
    }
  }

  /** A path ending in an extension ends in its four code units. */
  lemma ExtensionSuffix(path: string)
    requires |path| >= 4 && path[|path| - 4..] in Extensions
    ensures |Utf16(path)| >= 4 && Suffix(path) == Ascii(path[|path| - 4..])
    ensures MatchesExtension(Suffix(path))
  {
    var e := path[|path| - 4..];
    ExtensionIsAscii(e);
    forall j | |path| - 4 <= j < |path| ensures path[j] as int < 0x1_0000 {
      assert path[j] == e[j - (|path| - 4)];
    }
    Utf16TailBmp(path, 4);
    var u := Utf16(path);
    forall m | 0 <= m < 4 ensures Suffix(path)[m] == Ascii(e)[m] {
      assert Suffix(path)[m] == u[|u| - |path| + (|path| - 4 + m)];
      assert e[m] == path[|path| - 4 + m];
    }
  }

  /** Code units that spell an extension come from four characters that
      spell it. */
  lemma SuffixIsExtension(path: string)
    requires |Utf16(path)| >= 4 && MatchesExtension(Suffix(path))
    ensures |path| >= 4 && path[|path| - 4..] in Extensions
  {
    var x := if Suffix(path) == Ascii(".txt") then ".txt"
             else if Suffix(path) == Ascii(".nfs") then ".nfs"
             else if Suffix(path) == Ascii(".TXT") then ".TXT" else ".NFS";
    assert x in Extensions && Suffix(path) == Ascii(x);
    UnitsSpellExtension(path, x);
  }

  /** The last four code units equal an extension's: so do the last four
      characters, none of them being part of a surrogate pair. */
  lemma UnitsSpellExtension(path: string, x: string)
    requires x in Extensions && |Utf16(path)| >= 4 && Suffix(path) == Ascii(x)
    ensures |path| >= 4 && path[|path| - 4..] == x
  {
    ExtensionIsAscii(x);
    var u := Utf16(path);
    var n := |u|;
    forall j | n - 4 <= j < n ensures !(0xD800 <= u[j] < 0xE000) {
      assert u[j] == Suffix(path)[j - (n - 4)];
    }
    Utf16Tail(path, 4);
    var tail := path[|path| - 4..];
    forall m | 0 <= m < 4 ensures tail[m] == x[m] {
      assert tail[m] == path[|path| - 4 + m];
      assert u[n - |path| + (|path| - 4 + m)] == Suffix(path)[m];
    }
  }

  /** The checks of `main`, each reporting its own failure, in source order. */
  function Validate(args: seq<string>): (r: Result<Params, ArgError>)
    ensures r.Success? ==> r.value.min <= r.value.max <= MaxBlocks
    ensures r.Success? ==> |args| == 3 && r.value.path == args[2]
    ensures r.Success? ==> ParseInt(args[0]) == Some(r.value.min as int)
                           && ParseInt(args[1]) == Some(r.value.max as int)
  {
    if |args| != 3 then Failure(WrongArgCount)
    else
      var lo, hi := ParseInt(args[0]), ParseInt(args[1]);
      if lo.None? || hi.None? then Failure(NotAnInteger)
      else if CheckBounds(lo.value, hi.value).Some? then Failure(CheckBounds(lo.value, hi.value).value)
      else if CheckPath(args[2]).Some? then Failure(CheckPath(args[2]).value)
      else Success(Params(lo.value, hi.value, args[2]))
  }

  /** A path passes its checks exactly when it has a character above
      U+0020 and its last four characters, untrimmed, are one of .txt,
      .nfs, .TXT, .NFS. */
  lemma CheckPathAcceptsIff(path: string)
    ensures CheckPath(path).None? <==>
      (exists k :: 0 <= k < |path| && path[k] > ' ')
      && |path| >= 4 && path[|path| - 4..] in {".txt", ".nfs", ".TXT", ".NFS"}
  {
    if CheckPath(path).None? {
      assert !AllBlank(path);
    }
  }

  /** The arguments are accepted exactly when every check passes: three of
      them, two integers with 0 <= min <= max <= 4096, and a path that is
      not all white space whose last four characters, untrimmed, are one of
      .txt, .nfs, .TXT, .NFS. */
  lemma ValidateAcceptsIff(args: seq<string>)
    ensures Validate(args).Success? <==>
      |args| == 3
      && ParseInt(args[0]).Some? && ParseInt(args[1]).Some?
      && 0 <= ParseInt(args[0]).value <= ParseInt(args[1]).value <= MaxBlocks
      && (exists k :: 0 <= k < |args[2]| && args[2][k] > ' ')
      && |args[2]| >= 4
      && args[2][|args[2]| - 4..] in {".txt", ".nfs", ".TXT", ".NFS"}
  {
    if |args| != 3 {
      assert Validate(args) == Failure(WrongArgCount);
    } else if ParseInt(args[0]).None? || ParseInt(args[1]).None? {
      assert Validate(args) == Failure(NotAnInteger);
    } else {
      var lo, hi := ParseInt(args[0]).value, ParseInt(args[1]).value;
      assert Validate(args).Success? <==> CheckBounds(lo, hi).None? && CheckPath(args[2]).None?;
      CheckPathAcceptsIff(args[2]);
    }
  }

  /** The order in which the checks are made. */
  function Rank(e: ArgError): nat
  {
    match e
    case WrongArgCount => 0
    case NotAnInteger => 1
    case MinAboveMax => 2
    case Negative => 3
    case TooManyBlocks => 4
    case BlankPath => 5
    case PathTooShort => 6
    case BadExtension => 7
  }

  /** The condition that range check `e` rejects, on its own. */
  predicate BoundsViolate(lo: int, hi: int, e: ArgError)
  {
    match e
    case MinAboveMax => lo > hi
    case Negative => lo < 0 || hi < 0
    case TooManyBlocks => lo > MaxBlocks || hi > MaxBlocks
    case _ => false
  }

  /** The condition that path check `e` rejects, on its own. */
  predicate PathViolates(path: string, e: ArgError)
  {
    match e
    case BlankPath => IsBlank(path)
    case PathTooShort => |Utf16(path)| < 4
    case BadExtension => |Utf16(path)| >= 4 && !MatchesExtension(Suffix(path))
    case _ => false
  }

  /** The condition that check `e` rejects, on its own, assuming only what
      it needs in order to be evaluated (three arguments, parsed bounds). */
  predicate Violates(args: seq<string>, e: ArgError)
  {
    match e
    case WrongArgCount => |args| != 3
    case NotAnInteger => |args| == 3 && (ParseInt(args[0]).None? || ParseInt(args[1]).None?)
    case BlankPath | PathTooShort | BadExtension => |args| == 3 && PathViolates(args[2], e)
    case _ =>
      |args| == 3 && ParseInt(args[0]).Some? && ParseInt(args[1]).Some?
      && BoundsViolate(ParseInt(args[0]).value, ParseInt(args[1]).value, e)
  }

  /** The range checks report the first range condition that fails. */
  lemma CheckBoundsFirst(lo: int, hi: int, e: ArgError)
    ensures CheckBounds(lo, hi) == Some(e) <==>
      BoundsViolate(lo, hi, e) && forall e': ArgError :: Rank(e') < Rank(e) ==> !BoundsViolate(lo, hi, e')
  {
    if BoundsViolate(lo, hi, e) && forall e': ArgError :: Rank(e') < Rank(e) ==> !BoundsViolate(lo, hi, e') {
      assert Rank(e) > 2 ==> !BoundsViolate(lo, hi, MinAboveMax);
      assert Rank(e) > 3 ==> !BoundsViolate(lo, hi, Negative);
    }
  }

  /** The path checks report the first path condition that fails. */
  lemma CheckPathFirst(path: string, e: ArgError)
    ensures CheckPath(path) == Some(e) <==>
      PathViolates(path, e) && forall e': ArgError :: Rank(e') < Rank(e) ==> !PathViolates(path, e')
  {
    if PathViolates(path, e) && forall e': ArgError :: Rank(e') < Rank(e) ==> !PathViolates(path, e') {
      assert Rank(e) > 5 ==> !PathViolates(path, BlankPath);
      assert Rank(e) > 6 ==> !PathViolates(path, PathTooShort);
    }
  }

  /** The validator reports `e` exactly when check `e` fails and every
      earlier check passes; so min=5, max=-1 is reported as MinAboveMax,
      not Negative, and a blank path of under four characters as BlankPath. */
  lemma ValidateReportsFirstViolation(args: seq<string>, e: ArgError)
    ensures Validate(args) == Failure(e) <==>
      Violates(args, e) && forall e': ArgError :: Rank(e') < Rank(e) ==> !Violates(args, e')
  {
    if |args| != 3 {
      assert Validate(args) == Failure(WrongArgCount);
      assert Violates(args, WrongArgCount);
    } else if ParseInt(args[0]).None? || ParseInt(args[1]).None? {
      assert Validate(args) == Failure(NotAnInteger);
      assert Violates(args, NotAnInteger);
    } else {
      ParsedReportsOnlyFirst(args, e);
      ParsedReportsFirst(args, e);
    }
  }

  /** With parsed bounds, a reported error is a failing check with no
      earlier failing check. */
  lemma ParsedReportsOnlyFirst(args: seq<string>, e: ArgError)
    requires |args| == 3 && ParseInt(args[0]).Some? && ParseInt(args[1]).Some?
    ensures Validate(args) == Failure(e) ==>
      Violates(args, e) && forall e': ArgError :: Rank(e') < Rank(e) ==> !Violates(args, e')
  {
    if Validate(args) == Failure(e) {
      CheckBoundsFirst(ParseInt(args[0]).value, ParseInt(args[1]).value, e);
      CheckPathFirst(args[2], e);
      forall e': ArgError | Rank(e') < Rank(e) ensures !Violates(args, e') {
        EarlierCheckPasses(args, e, e');
      }
    }
  }

  /** A check earlier than the reported error passes. */
  lemma EarlierCheckPasses(args: seq<string>, e: ArgError, e': ArgError)
    requires |args| == 3 && ParseInt(args[0]).Some? && ParseInt(args[1]).Some?
    requires Validate(args) == Failure(e) && Rank(e') < Rank(e)
    ensures !Violates(args, e')
  {
    var lo, hi, path := ParseInt(args[0]).value, ParseInt(args[1]).value, args[2];
    if Rank(e') <= 4 {
      CheckBoundsFirst(lo, hi, e);
      CheckBoundsFirst(lo, hi, e');
    } else {
      assert CheckBounds(lo, hi).None?;
      CheckPathFirst(path, e);
      CheckPathFirst(path, e');
    }
  }

  /** With parsed bounds, the first failing check is the one reported. */
  lemma ParsedReportsFirst(args: seq<string>, e: ArgError)
    requires |args| == 3 && ParseInt(args[0]).Some? && ParseInt(args[1]).Some?
    ensures Violates(args, e) && (forall e': ArgError :: Rank(e') < Rank(e) ==> !Violates(args, e')) ==>
      Validate(args) == Failure(e)
  {
    if Violates(args, e) && forall e': ArgError :: Rank(e') < Rank(e) ==> !Violates(args, e') {
      if e.BlankPath? || e.PathTooShort? || e.BadExtension? {
        PathErrorReported(args, e);
      } else {
        BoundsErrorReported(args, e);
      }
    }
  }

  /** A failing range check with no earlier failing check is reported. */
  lemma BoundsErrorReported(args: seq<string>, e: ArgError)
    requires |args| == 3 && ParseInt(args[0]).Some? && ParseInt(args[1]).Some?
    requires !(e.BlankPath? || e.PathTooShort? || e.BadExtension?)
    requires Violates(args, e) && forall e': ArgError :: Rank(e') < Rank(e) ==> !Violates(args, e')
    ensures Validate(args) == Failure(e)
  {
    var lo, hi := ParseInt(args[0]).value, ParseInt(args[1]).value;
    forall e': ArgError | Rank(e') < Rank(e) ensures !BoundsViolate(lo, hi, e') {
      assert !Violates(args, e');
    }
    CheckBoundsFirst(lo, hi, e);
  }

  /** A failing path check is reported once the range checks pass and no
      earlier path check fails. */
  lemma PathErrorReported(args: seq<string>, e: ArgError)
    requires |args| == 3 && ParseInt(args[0]).Some? && ParseInt(args[1]).Some?
    requires e.BlankPath? || e.PathTooShort? || e.BadExtension?
    requires Violates(args, e) && forall e': ArgError :: Rank(e') < Rank(e) ==> !Violates(args, e')
    ensures Validate(args) == Failure(e)
  {
    var lo, hi := ParseInt(args[0]).value, ParseInt(args[1]).value;
    assert !Violates(args, MinAboveMax) && !Violates(args, Negative) && !Violates(args, TooManyBlocks);
    assert CheckBounds(lo, hi).None?;
    forall e': ArgError | Rank(e') < Rank(e) ensures !PathViolates(args[2], e') {
      assert !Violates(args, e');
    }
    CheckPathFirst(args[2], e);
  }

  /** Nothing is accepted while some check fails. */
  lemma ValidateAcceptsNoViolation(args: seq<string>)
    ensures Validate(args).Success? <==> forall e: ArgError :: !Violates(args, e)
  {
    if !Validate(args).Success? {
      var e := Validate(args).error;
      ValidateReportsFirstViolation(args, e);
    } else {
      forall e: ArgError ensures !Violates(args, e) {
        ValidateReportsFirstViolation(args, e);
        CheckPathFirst(args[2], e);
        CheckBoundsFirst(ParseInt(args[0]).value, ParseInt(args[1]).value, e);
      }
    }
  }

  /** Concrete runs of the checks: each failure kind on an input that
      reaches it. */
  lemma ValidateCountAndNumberExamples()
    ensures Validate(["0", "1"]) == Failure(WrongArgCount)
    ensures Validate(["0", "1", "x.txt", "y"]) == Failure(WrongArgCount)
    ensures Validate(["a", "1", "x.txt"]) == Failure(NotAnInteger)
    ensures Validate(["1", "-", "x.txt"]) == Failure(NotAnInteger)
  {
  }

  /** min above max is reported even when max is also negative. */
  lemma MinAboveMaxExample()
    ensures Validate(["5", "-1", "x.txt"]) == Failure(MinAboveMax)
  {
    ParseIntToString(-1);
    ParseIntToString(5);
    assert IntToString(-1) == "-1" && IntToString(5) == "5";
  }

  /** A negative bound below a valid one. */
  lemma NegativeExample()
    ensures Validate(["-1", "3", "x.txt"]) == Failure(Negative)
  {
    ParseIntToString(-1);
    assert IntToString(-1) == "-1";
  }

  /** One block past the limit. */
  lemma TooManyBlocksExample()
    ensures Validate(["0", "4097", "x.txt"]) == Failure(TooManyBlocks)
  {
    ParseIntToString(4097);
    assert IntToString(4097) == "4097";
  }

  /** A path of white space only is blank. */
  lemma BlankPathExample()
    ensures CheckPath("  ") == Some(BlankPath)
  {
    assert AllBlank("  ");
  }

  /** A non-blank path of under four characters fails when its last four
      code units are taken, before any extension is compared. */
  lemma ShortPathExample()
    ensures CheckPath("abc") == Some(PathTooShort)
  {
    assert !AllBlank("abc") by { assert "abc"[0] > ' '; }
    Utf16Bmp("abc");
  }

  /** A path of three characters, the last above U+FFFF, has four code
      units: it gets past the length check and fails on its extension. */
  lemma SupplementaryPathExample()
    ensures CheckPath("ab\U{1F600}") == Some(BadExtension)
  {
    var path := "ab\U{1F600}";
    assert !AllBlank(path) by { assert path[0] > ' '; }
    assert path == "ab" + "\U{1F600}";
    Utf16Append("ab", "\U{1F600}");
    Utf16Bmp("ab");
    assert |Utf16("\U{1F600}")| == 2;
    assert |path| < 4;
  }

  /** The extension is compared case-sensitively. */
  lemma MixedCaseExample()
    ensures CheckPath("a.Txt") == Some(BadExtension)
  {
    var path := "a.Txt";
    assert !AllBlank(path) by { assert path[0] > ' '; }
    assert |Utf16(path)| >= 4;
    assert path[|path| - 4..] !in Extensions by {
      assert path[|path| - 4..][1] == 'T' && path[|path| - 4..][2] == 'x';
    }
  }

  /** The extension is looked up on the untrimmed path: trailing white
      space hides it. */
  lemma TrailingSpaceExample()
    ensures CheckPath("out.nfs ") == Some(BadExtension)
  {
    var path := "out.nfs ";
    assert !AllBlank(path) by { assert path[0] > ' '; }
    assert |Utf16(path)| >= 4;
    assert path[|path| - 4..] !in Extensions by {
      assert path[|path| - 4..][3] == ' ';
    }
  }

  /** Leading white space does not matter to either path check. */
  lemma LeadingSpaceExample()
    ensures CheckPath(" .NFS") == None
  {
    var path := " .NFS";
    assert !AllBlank(path) by { assert path[1] > ' '; }
    assert path[|path| - 4..] == ".NFS";
  }

  /** Integer.parseInt accepts a '+' sign and leading zeros. */
  lemma SignAndZerosExample()
    ensures ParseInt("+1") == Some(1) && ParseInt("0002") == Some(2)
  {
    DigitsValueOfNat(1);
    DigitsValueOfNat(2);
    assert NatToString(1) == "1" && NatToString(2) == "2";
    DigitsValueLeadingZero("2");
    DigitsValueLeadingZero("02");
    DigitsValueLeadingZero("002");
    assert "0" + "002" == "0002" && "+1"[1..] == "1";
  }

  /** Bounds written with a sign and leading zeros, and a path with a
      leading space, are accepted as they are. */
  lemma ValidateAcceptExample()
    ensures Validate(["+1", "0002", " .NFS"]) == Success(Params(1, 2, " .NFS"))
  {
    SignAndZerosExample();
    LeadingSpaceExample();
  }
}
