/**
 * The command line: `parse_args` and the default configuration path set at
 * the top of `main`. Printing the help text and exiting become outcomes,
 * and `std::stoi` on the arguments of `--jobs` and `-j` is spelled out.
 */
module Arguments {
  import opened Wrappers
  import opened PathEnv

  // ---------------------------------------------------------------------------
  // `std::stoi`
  // ---------------------------------------------------------------------------

  const IntMin: int := -0x8000_0000
  const IntMax: int := 0x7FFF_FFFF

  /** `isspace` in the C locale. */
  predicate IsSpace(c: char) {
    c == ' ' || c == '\t' || c == '\n' || c == '\U{0B}' || c == '\U{0C}' || c == '\r'
  }

  predicate IsDigit(c: char) {
    '0' <= c <= '9'
  }

  predicate AllDigits(d: string) {
    forall k :: 0 <= k < |d| ==> IsDigit(d[k])
  }

  /** The first index at or after `i` that does not hold white space. */
  function SpaceEnd(s: string, i: nat): (e: nat)
    requires i <= |s|
    ensures i <= e <= |s|
    ensures forall k :: i <= k < e ==> IsSpace(s[k])
    ensures e < |s| ==> !IsSpace(s[e])
    decreases |s| - i
  {
    if i < |s| && IsSpace(s[i]) then SpaceEnd(s, i + 1) else i
  }

  /** The first index at or after `i` that does not hold a decimal digit. */
  function DigitEnd(s: string, i: nat): (e: nat)
    requires i <= |s|
    ensures i <= e <= |s|
    ensures forall k :: i <= k < e ==> IsDigit(s[k])
    ensures e < |s| ==> !IsDigit(s[e])
    decreases |s| - i
  {
    if i < |s| && IsDigit(s[i]) then DigitEnd(s, i + 1) else i
  }

  /** The value of a string of decimal digits, most significant first. */
  function DigitsValue(d: string): nat
    requires AllDigits(d)
  {
    if d == [] then 0 else DigitsValue(d[..|d| - 1]) * 10 + (d[|d| - 1] as int - '0' as int)
  }

  /**
   * `std::stoi` in base 10: white space skipped, an optional sign, then as
   * many digits as there are; no digit throws `invalid_argument` and a value
   * outside `int` throws `out_of_range` (both `None`). What follows the
   * digits is ignored.
   */
  function Stoi(s: string): (r: Option<int>)
    ensures r.Some? ==> IntMin <= r.value <= IntMax
    ensures (forall k :: 0 <= k < |s| ==> !IsDigit(s[k])) ==> r == None
  {
    var i := SpaceEnd(s, 0);
    var signed := i < |s| && (s[i] == '-' || s[i] == '+');
    var j := if signed then i + 1 else i;
    var e := DigitEnd(s, j);
    if e == j then None
    else
      var m: int := DigitsValue(s[j..e]);
      var v := if signed && s[i] == '-' then -m else m;
      if IntMin <= v <= IntMax then Some(v) else None
  }

  /** A run of digits followed by anything but a digit reads as its value when that fits in an `int`. */
  lemma StoiDigits(d: string, rest: string)
    requires d != [] && AllDigits(d) && DigitsValue(d) <= IntMax
    requires rest == [] || !IsDigit(rest[0])
    ensures Stoi(d + rest) == Some(DigitsValue(d))
  {
    var s := d + rest;
    assert !IsSpace(s[0]) && s[0] != '-' && s[0] != '+';
    assert SpaceEnd(s, 0) == 0;
    DigitEndAfter(s, 0, |d|);
    assert s[0..|d|] == d;
  }

  /** `DigitEnd` stops exactly at the first non-digit. */
  lemma {:induction false} DigitEndAfter(s: string, i: nat, e: nat)
    requires i <= e <= |s|
    requires forall k :: i <= k < e ==> IsDigit(s[k])
    requires e == |s| || !IsDigit(s[e])
    ensures DigitEnd(s, i) == e
    decreases e - i
  {
    if i < e {
      DigitEndAfter(s, i + 1, e);
    }
  }

  /** A string whose first character is neither white space, a sign nor a digit is rejected. */
  lemma StoiRejects(s: string)
    requires s == [] || (!IsSpace(s[0]) && !IsDigit(s[0]) && s[0] != '-' && s[0] != '+')
    ensures Stoi(s) == None
  {
  }

  /** A minus sign negates, down to the smallest `int`. */
  lemma StoiNegative(d: string)
    requires d != [] && AllDigits(d) && DigitsValue(d) <= -IntMin
    ensures Stoi("-" + d) == Some(-(DigitsValue(d) as int))
  {
    var s := "-" + d;
    assert SpaceEnd(s, 0) == 0;
    DigitEndAfter(s, 1, |s|);
    assert s[1..|s|] == d;
  }

  // ---------------------------------------------------------------------------
  // Options
  // ---------------------------------------------------------------------------

  /** The global `Options`: the configuration file, the job count, verbosity, `--destdir`, `--keep-going` and the requested targets. */
  datatype Options = Options(
    configFile: string,
    jobs: int,
    verbosity: int,
    destdir: string,
    keepGoing: bool,
    targets: seq<string>,
    allTargets: bool)

  /** The initial values, with the configuration path `main` computes. */
  function DefaultOptions(configFile: string): Options {
    Options(configFile, 1, 0, "", false, [], false)
  }

  /** The configuration path: under `$XDG_CONFIG_HOME` when it is set, under `$HOME/.config` otherwise. */
  const XdgVar := "XDG_CONFIG_HOME"
  const XdgTail := "/backman/backman.ini"
  const HomeVar := "HOME"
  const HomeTail := "/.config/backman/backman.ini"

  function DefaultConfigFile(env: Env): string {
    if XdgVar in env then Expand(env, "$" + XdgVar + XdgTail)
    else Expand(env, "$" + HomeVar + HomeTail)
  }

  /** A path made of one variable and a literal tail expands to the variable's value, or its name kept with `$`, and the tail. */
  lemma ExpandUnder(env: Env, name: string, tail: string)
    requires name != [] && AllVarChars(name)
    requires '$' !in tail && (tail == [] || !IsVarChar(tail[0]))
    ensures Expand(env, "$" + name + tail) == (if name in env then env[name] else "$" + name) + tail
  {
    ExpandLiteral(env, tail);
    ExpandBare(env, name, tail);
  }

  /** The configuration path is the value of `XDG_CONFIG_HOME` followed by `/backman/backman.ini` when that is set. */
  lemma ConfigUnderXdg(env: Env)
    requires "XDG_CONFIG_HOME" in env
    ensures DefaultConfigFile(env) == env["XDG_CONFIG_HOME"] + "/backman/backman.ini"
  {
    assert AllVarChars(XdgVar);
    ExpandUnder(env, XdgVar, XdgTail);
  }

  /** Otherwise it is the value of `HOME` followed by `/.config/backman/backman.ini`, or that text after a literal `$HOME`. */
  lemma ConfigUnderHome(env: Env)
    requires "XDG_CONFIG_HOME" !in env
    ensures DefaultConfigFile(env) == (if "HOME" in env then env["HOME"] else "$HOME") + "/.config/backman/backman.ini"
  {
    assert AllVarChars(HomeVar);
    ExpandUnder(env, HomeVar, HomeTail);
  }

  // ---------------------------------------------------------------------------
  // `parse_args`
  // ---------------------------------------------------------------------------

  /** Why `parse_args` exits with status 1. */
  datatype ArgError =
    | MissingArgument(option: string)
    | InvalidNumber(option: string, arg: string)
    | UnknownOption(arg: string)
    | UnknownShort(c: char)
    | SeveralArguments(arg: string)

  /** How `parse_args` ends: it returns, prints the help text and exits 0, or exits 1. */
  datatype ArgOutcome = Proceed(options: Options) | ShowHelp | Fail(error: ArgError)

  /** What one pass of the argument loop leaves: the next index and the options, or the end of the program. */
  datatype ArgStep = Next(index: nat, options: Options) | Done(outcome: ArgOutcome)

  /**
   * The position in a cluster of short options where a second `-` is
   * reported as an unknown long option: `2` as written, `1` when corrected
   * so that every unknown `--name` is reported as such.
   */
  function LongCheckIndex(fixed: bool): nat {
    if fixed then 1 else 2
  }

  /** A positional argument: a target name. `all` asks for every target. */
  function AddTarget(o: Options, name: string): Options {
    o.(targets := o.targets + [name], allTargets := o.allTargets || name == "all")
  }

  /**
   * The characters of a cluster such as `-vj` from index `j` on; `i` is the
   * index of the last argument consumed and `taken` whether `-j` or `-c`
   * already took one. When the cluster ends the loop goes on after `i`.
   */
  function ShortOptions(opt: string, j: nat, argv: seq<string>, i: nat, o: Options, taken: bool, fixed: bool): (r: ArgStep)
    requires i < |argv| && j <= |opt|
    ensures r.Next? ==> i < r.index <= |argv|
    ensures r.Next? ==> r.options.targets == o.targets && r.options.allTargets == o.allTargets
    ensures r.Done? ==> !r.outcome.Proceed?
    decreases |opt| - j
  {
    if j == |opt| then Next(i + 1, o)
    else if j == LongCheckIndex(fixed) && opt[j] == '-' then Done(Fail(UnknownOption(opt)))
    else if opt[j] == 'h' then Done(ShowHelp)
    else if opt[j] == 'v' then ShortOptions(opt, j + 1, argv, i, o.(verbosity := o.verbosity + 1), taken, fixed)
    else if opt[j] == 'j' then
      if taken then Done(Fail(SeveralArguments(opt)))
      else if i + 1 >= |argv| then Done(Fail(MissingArgument("-j")))
      else match Stoi(argv[i + 1])
        case None => Done(Fail(InvalidNumber("-j", argv[i + 1])))
        case Some(n) => ShortOptions(opt, j + 1, argv, i + 1, o.(jobs := n), true, fixed)
    else if opt[j] == 'c' then
      if taken then Done(Fail(SeveralArguments(opt)))
      else if i + 1 >= |argv| then Done(Fail(MissingArgument("-c")))
      else ShortOptions(opt, j + 1, argv, i + 1, o.(configFile := argv[i + 1]), true, fixed)
    else Done(Fail(UnknownShort(opt[j])))
  }

  /**
   * One pass of the loop in `parse_args` on `argv[i]`. `--config` without
   * its argument is reported but not fatal, and ends the loop.
   */
  function ArgAt(argv: seq<string>, i: nat, o: Options, fixed: bool): (r: ArgStep)
    requires i < |argv|
    ensures r.Next? ==> i < r.index <= |argv| + 1
    ensures r.Next? ==> o.targets <= r.options.targets
    ensures r.Done? ==> !r.outcome.Proceed?
  {
    var opt := argv[i];
    if opt == "--help" then Done(ShowHelp)
    else if opt == "--verbose" then Next(i + 1, o.(verbosity := o.verbosity + 1))
    else if opt == "--config" then
      if i + 1 < |argv| then Next(i + 2, o.(configFile := argv[i + 1])) else Next(i + 2, o)
    else if opt == "--version" then Done(ShowHelp)
    else if opt == "--jobs" then
      if i + 1 >= |argv| then Done(Fail(MissingArgument("--jobs")))
      else match Stoi(argv[i + 1])
        case None => Done(Fail(InvalidNumber("--jobs", argv[i + 1])))
        case Some(n) => Next(i + 2, o.(jobs := n))
    else if opt == "--destdir" then
      if i + 1 < |argv| then Next(i + 2, o.(destdir := argv[i + 1])) else Done(Fail(MissingArgument("--destdir")))
    else if opt == "--keep-going" then Next(i + 1, o.(keepGoing := true))
    else if |opt| > 0 && opt[0] == '-' then ShortOptions(opt, 1, argv, i, o, false, fixed)
    else Next(i + 1, AddTarget(o, opt))
  }

  /** The loop of `parse_args` from index `i` on. Requested targets are only ever added to. */
  function ArgsFrom(argv: seq<string>, i: nat, o: Options, fixed: bool): (r: ArgOutcome)
    requires i <= |argv| + 1
    ensures r.Proceed? ==> o.targets <= r.options.targets
    decreases |argv| + 1 - i
  {
    if i >= |argv| then Proceed(o)
    else match ArgAt(argv, i, o, fixed)
      case Done(out) => out
      case Next(k, o') => ArgsFrom(argv, k, o', fixed)
  }

  /** `parse_args`: `argv[0]` is the program name. A command line that parses gives consistent options. */
  function ParseArgsSpec(argv: seq<string>, configFile: string, fixed: bool): (r: ArgOutcome)
    ensures r.Proceed? ==> Consistent(r.options)
  {
    ArgsKeepConsistent(argv, 1, DefaultOptions(configFile), fixed);
    ArgsFrom(argv, 1, DefaultOptions(configFile), fixed)
  }

  /** `parse_args`, one argument at a time. */
  method ParseArgs(argv: seq<string>, configFile: string, fixed: bool) returns (r: ArgOutcome)
    ensures r == ParseArgsSpec(argv, configFile, fixed)
  {
    var i: nat := 1;
    var o := DefaultOptions(configFile);
    while i < |argv|
      invariant i <= |argv| + 1
      invariant ArgsFrom(argv, i, o, fixed) == ParseArgsSpec(argv, configFile, fixed)
      decreases |argv| + 1 - i
    {
      var step := ReadArg(argv, i, o, fixed);
      if step.Done? {
        return step.outcome;
      }
      i, o := step.index, step.options;
    }
    r := Proceed(o);
  }

  /** The body of the loop in `parse_args` for `argv[i]`. */
  method ReadArg(argv: seq<string>, i: nat, o: Options, fixed: bool) returns (r: ArgStep)
    requires i < |argv|
    ensures r == ArgAt(argv, i, o, fixed)
  {
    var opt := argv[i];
    if opt == "--help" || opt == "--version" {
      return Done(ShowHelp);
    } else if opt == "--verbose" {
      return Next(i + 1, o.(verbosity := o.verbosity + 1));
    } else if opt == "--config" {
      if i + 1 < |argv| {
        return Next(i + 2, o.(configFile := argv[i + 1]));
      }
      return Next(i + 2, o);
    } else if opt == "--jobs" {
      if i + 1 < |argv| {
        var n := Stoi(argv[i + 1]);
        if n.None? {
          return Done(Fail(InvalidNumber("--jobs", argv[i + 1])));
        }
        return Next(i + 2, o.(jobs := n.value));
      }
      return Done(Fail(MissingArgument("--jobs")));
    } else if opt == "--destdir" {
      if i + 1 < |argv| {
        return Next(i + 2, o.(destdir := argv[i + 1]));
      }
      return Done(Fail(MissingArgument("--destdir")));
    } else if opt == "--keep-going" {
      return Next(i + 1, o.(keepGoing := true));
    }
    var isOpt := |opt| > 0 && opt[0] == '-';
    if isOpt {
      r := ReadCluster(opt, argv, i, o, fixed);
    } else {
      r := Next(i + 1, AddTarget(o, opt));
    }
  }

  /** The character loop over a cluster of short options. */
  method ReadCluster(opt: string, argv: seq<string>, i: nat, o: Options, fixed: bool) returns (r: ArgStep)
    requires i < |argv| && |opt| > 0
    ensures r == ShortOptions(opt, 1, argv, i, o, false, fixed)
  {
    var at: nat, opts, taken := i, o, false;
    for j := 1 to |opt|
      invariant at < |argv|
      invariant ShortOptions(opt, j, argv, at, opts, taken, fixed) == ShortOptions(opt, 1, argv, i, o, false, fixed)
    {
      if j == LongCheckIndex(fixed) && opt[j] == '-' {
        return Done(Fail(UnknownOption(opt)));
      }
      if opt[j] == 'h' {
        return Done(ShowHelp);
      } else if opt[j] == 'v' {
        opts := opts.(verbosity := opts.verbosity + 1);
      } else if opt[j] == 'j' {
        if taken {
          return Done(Fail(SeveralArguments(opt)));
        }
        taken := true;
        if at + 1 >= |argv| {
          return Done(Fail(MissingArgument("-j")));
        }
        at := at + 1;
        var n := Stoi(argv[at]);
        if n.None? {
          return Done(Fail(InvalidNumber("-j", argv[at])));
        }
        opts := opts.(jobs := n.value);
      } else if opt[j] == 'c' {
        if taken {
          return Done(Fail(SeveralArguments(opt)));
        }
        taken := true;
        if at + 1 >= |argv| {
          return Done(Fail(MissingArgument("-c")));
        }
        at := at + 1;
        opts := opts.(configFile := argv[at]);
      } else {
        return Done(Fail(UnknownShort(opt[j])));
      }
    }
    r := Next(at + 1, opts);
  }

  // ---------------------------------------------------------------------------
  // Properties of `parse_args`
  // ---------------------------------------------------------------------------

  /** No argument from `i` on starts with `-`. */
  predicate AllPositional(argv: seq<string>, i: nat)
    requires i <= |argv|
  {
    forall k :: i <= k < |argv| ==> argv[k] == [] || argv[k][0] != '-'
  }

  /** Arguments that are not options are the requested targets, in order; `all` among them asks for every target. */
  lemma {:induction false} PositionalsAppended(argv: seq<string>, i: nat, o: Options, fixed: bool)
    requires i <= |argv| && AllPositional(argv, i)
    ensures ArgsFrom(argv, i, o, fixed) ==
            Proceed(o.(targets := o.targets + argv[i..], allTargets := o.allTargets || "all" in argv[i..]))
    decreases |argv| - i
  {
    if i < |argv| {
      var opt := argv[i];
      PositionalStep(argv, i, o, fixed);
      PositionalsAppended(argv, i + 1, AddTarget(o, opt), fixed);
      assert argv[i..] == [opt] + argv[i + 1..];
    } else {
      assert argv[i..] == [];
    }
  }

  /** A positional argument is added to the requested targets and parsing moves on. */
  lemma PositionalStep(argv: seq<string>, i: nat, o: Options, fixed: bool)
    requires i < |argv| && (argv[i] == [] || argv[i][0] != '-')
    ensures ArgAt(argv, i, o, fixed) == Next(i + 1, AddTarget(o, argv[i]))
  {
  }

  /**
   * What the selection in `main` relies on: `all_targets` is set exactly
   * when `all` was requested, and no requested name starts with `-`.
   */
  predicate Consistent(o: Options) {
    && (o.allTargets <==> "all" in o.targets)
    && forall k :: 0 <= k < |o.targets| ==> o.targets[k] == [] || o.targets[k][0] != '-'
  }

  /** A positional argument that does not start with `-` keeps the options consistent. */
  lemma AddTargetConsistent(o: Options, name: string)
    requires Consistent(o) && (name == [] || name[0] != '-')
    ensures Consistent(AddTarget(o, name))
  {
    var ts := o.targets + [name];
    assert "all" in ts <==> "all" in o.targets || name == "all" by {
      if "all" in ts && name != "all" {
        var k :| 0 <= k < |ts| && ts[k] == "all";
        assert o.targets[k] == "all";
      }
    }
  }

  /** One pass of the loop keeps the options consistent. */
  lemma ArgAtConsistent(argv: seq<string>, i: nat, o: Options, fixed: bool)
    requires i < |argv| && Consistent(o)
    ensures ArgAt(argv, i, o, fixed).Next? ==> Consistent(ArgAt(argv, i, o, fixed).options)
  {
    var opt := argv[i];
    if !(|opt| > 0 && opt[0] == '-') {
      AddTargetConsistent(o, opt);
    }
  }

  /** `parse_args` keeps the options consistent. */
  lemma {:induction false} ArgsKeepConsistent(argv: seq<string>, i: nat, o: Options, fixed: bool)
    requires i <= |argv| + 1 && Consistent(o)
    ensures ArgsFrom(argv, i, o, fixed).Proceed? ==> Consistent(ArgsFrom(argv, i, o, fixed).options)
    decreases |argv| + 1 - i
  {
    if i < |argv| {
      var step := ArgAt(argv, i, o, fixed);
      ArgAtConsistent(argv, i, o, fixed);
      if step.Next? {
        ArgsKeepConsistent(argv, step.index, step.options, fixed);
      }
    }
  }

  /** A trailing `--config` with nothing after it is reported and ignored: parsing returns the options so far. */
  lemma ConfigWithoutArgument(argv: seq<string>, o: Options, fixed: bool)
    requires |argv| >= 2 && argv[|argv| - 1] == "--config"
    ensures ArgsFrom(argv, |argv| - 1, o, fixed) == Proceed(o)
  {
  }

  /** `--jobs` and `-j` take any number `std::stoi` reads, zero and negative ones included. */
  lemma JobsUnchecked(fixed: bool)
    ensures ParseArgsSpec(["backman", "--jobs", "0"], "c", fixed) == Proceed(DefaultOptions("c").(jobs := 0))
    ensures ParseArgsSpec(["backman", "-j", "-3"], "c", fixed) == Proceed(DefaultOptions("c").(jobs := -3))
  {
    var o := DefaultOptions("c");
    StoiDigits("0", "");
    assert ArgAt(["backman", "--jobs", "0"], 1, o, fixed) == Next(3, o.(jobs := 0));
    StoiNegative("3");
    assert "-3" == "-" + "3";
    var argv := ["backman", "-j", "-3"];
    assert ShortOptions("-j", 2, argv, 2, o.(jobs := -3), true, fixed) == Next(3, o.(jobs := -3));
    assert ShortOptions("-j", 1, argv, 1, o, false, fixed) == Next(3, o.(jobs := -3));
    assert ArgAt(argv, 1, o, fixed) == Next(3, o.(jobs := -3));
  }

  /** Options in a cluster apply left to right, and `-j` takes the next argument. */
  lemma ClusterTakesNextArgument(n: string, fixed: bool)
    requires Stoi(n).Some?
    ensures ParseArgsSpec(["backman", "-vj", n, "x"], "c", fixed) ==
            Proceed(DefaultOptions("c").(verbosity := 1, jobs := Stoi(n).value, targets := ["x"]))
  {
    var argv := ["backman", "-vj", n, "x"];
    var o := DefaultOptions("c");
    var o1 := o.(verbosity := 1);
    var o2 := o1.(jobs := Stoi(n).value);
    assert ShortOptions("-vj", 3, argv, 2, o2, true, fixed) == Next(3, o2);
    assert ShortOptions("-vj", 2, argv, 1, o1, false, fixed) == Next(3, o2);
    assert ShortOptions("-vj", 1, argv, 1, o, false, fixed) == Next(3, o2);
    assert ArgAt(argv, 1, o, fixed) == Next(3, o2);
    assert ArgAt(argv, 3, o2, fixed) == Next(4, AddTarget(o2, "x"));
    assert ArgsFrom(argv, 3, o2, fixed) == Proceed(AddTarget(o2, "x"));
  }

  /** Two options that take an argument in one cluster are refused, whichever comes first. */
  lemma SeveralArgumentsRejected(a: char, b: char, argv: seq<string>, i: nat, o: Options, fixed: bool)
    requires a in "jc" && b in "jc"
    requires i + 1 < |argv| && argv[i] == ['-', a, b]
    requires a == 'j' ==> Stoi(argv[i + 1]).Some?
    ensures ArgAt(argv, i, o, fixed) == Done(Fail(SeveralArguments(argv[i])))
  {
    var opt := argv[i];
    var o1 := if a == 'j' then o.(jobs := Stoi(argv[i + 1]).value) else o.(configFile := argv[i + 1]);
    assert ShortOptions(opt, 2, argv, i + 1, o1, true, fixed) == Done(Fail(SeveralArguments(opt)));
    assert ShortOptions(opt, 1, argv, i, o, false, fixed) == Done(Fail(SeveralArguments(opt)));
  }

  /** An option name not among the long options `parse_args` knows. */
  predicate UnknownLong(opt: string) {
    |opt| >= 2 && opt[0] == '-' && opt[1] == '-' &&
    opt !in ["--help", "--verbose", "--config", "--version", "--jobs", "--destdir", "--keep-going"]
  }

  /** As written, an unknown `--name` is reported as the unknown short option `-`, never as an unknown option. */
  lemma UnknownLongAsWritten(argv: seq<string>, i: nat, o: Options)
    requires i < |argv| && UnknownLong(argv[i])
    ensures ArgAt(argv, i, o, false) == Done(Fail(UnknownShort('-')))
  {
  }

  /** The `j == 2` check fires only behind another option letter, as in `-v-`. */
  lemma LongCheckAsWritten(o: Options)
    ensures ArgAt(["backman", "-v-"], 1, o, false) == Done(Fail(UnknownOption("-v-")))
  {
  }

  /** Corrected, every unknown `--name` is reported as an unknown option, whole. */
  lemma UnknownLongCorrected(argv: seq<string>, i: nat, o: Options)
    requires i < |argv| && UnknownLong(argv[i])
    ensures ArgAt(argv, i, o, true) == Done(Fail(UnknownOption(argv[i])))
  {
  }

  /** `-h`, `--help` and `--version` stop parsing with the help text, whatever follows. */
  lemma HelpStops(argv: seq<string>, i: nat, o: Options, fixed: bool)
    requires i < |argv| && argv[i] in ["-h", "--help", "--version"]
    ensures ArgsFrom(argv, i, o, fixed) == ShowHelp
  {
  }

  /** `--jobs`, `--destdir`, `-j` and `-c` as the last argument end parsing with exit status 1. */
  lemma MissingArgumentFails(argv: seq<string>, o: Options, fixed: bool)
    requires |argv| >= 2 && argv[|argv| - 1] in ["--jobs", "--destdir", "-j", "-c"]
    ensures ArgsFrom(argv, |argv| - 1, o, fixed) == Fail(MissingArgument(argv[|argv| - 1]))
  {
  }

  /** A lone `-` is neither an option nor a target: parsing moves on with the options unchanged. */
  lemma LoneDashIgnored(argv: seq<string>, i: nat, o: Options, fixed: bool)
    requires i < |argv| && argv[i] == "-"
    ensures ArgAt(argv, i, o, fixed) == Next(i + 1, o)
  {
  }
}
