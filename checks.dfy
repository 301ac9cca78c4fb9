/**
 * Name normalisation and the presence queries of src/checks.c.
 *
 * Option names are compared after every leading dash is stripped, so that
 * `-x`, `--x` and `x` name the same option; parameters are compared exactly.
 * A query answers Error for a missing result, a missing key or an empty key.
 */
module Checks {
  import opened Wrappers
  import opened LibCmdArgs

  /** The three-way answer of libcmdargs_isopt and libcmdargs_isparam. */
  datatype Presence = Error | NotPresent | Present

  /** The integer codes the C interface returns for each answer. */
  function Code(p: Presence): (c: int)
    ensures -1 <= c <= 1
    ensures p == Error <==> c < 0
    ensures p == Present <==> c > 0
  {
    match p
    case Error => -1
    case NotPresent => 0
    case Present => 1
  }

  /** A run of `n` dashes. */
  function Dashes(n: nat): string {
    seq(n, _ => OptionFlag)
  }

  // ---------------------------------------------------------------------------
  // Normalisation (__libcmdargs_strunify)
  // ---------------------------------------------------------------------------

  /** The normalised name: the input with every leading dash removed. */
  function Unified(s: string): (r: string)
    ensures |r| <= |s|
    ensures r == [] || r[0] != OptionFlag
  {
    if s != [] && s[0] == OptionFlag then Unified(s[1..]) else s
  }

  /** __libcmdargs_strunify: step past the leading dashes, stop at the first other character. */
  method StrUnify(s: string) returns (r: string)
    ensures r == Unified(s)
  {
    var i := 0;
    while i < |s| && s[i] == OptionFlag
      invariant 0 <= i <= |s|
      invariant Unified(s[i..]) == Unified(s)
    {
      assert s[i..][1..] == s[i + 1..];
      i := i + 1;
    }
    r := s[i..];
  }

  /** What normalisation removes is dashes and nothing else: the input is a run of dashes followed by the result. */
  lemma {:induction false} UnifiedDecomposes(s: string)
    ensures s == Dashes(|s| - |Unified(s)|) + Unified(s)
    decreases |s|
  {
    if s != [] && s[0] == OptionFlag {
      UnifiedDecomposes(s[1..]);
      var n := |s| - |Unified(s)|;
      assert Dashes(n) == [OptionFlag] + Dashes(n - 1);
      assert s == [s[0]] + s[1..];
    } else {
      assert Dashes(0) == [];
    }
  }

  /** A name that does not start with a dash is left unchanged. */
  lemma UnifiedKeepsUndashed(s: string)
    requires s == [] || s[0] != OptionFlag
    ensures Unified(s) == s
  {
  }

  /** Normalising twice is normalising once. */
  lemma UnifiedIdempotent(s: string)
    ensures Unified(Unified(s)) == Unified(s)
  {
    UnifiedKeepsUndashed(Unified(s));
  }

  /** Any number of leading dashes is stripped, not just one or two. */
  lemma {:induction false} UnifiedIgnoresDashes(n: nat, s: string)
    ensures Unified(Dashes(n) + s) == Unified(s)
    decreases n
  {
    if n > 0 {
      var t := Dashes(n) + s;
      assert t[0] == OptionFlag;
      assert t[1..] == Dashes(n - 1) + s;
      UnifiedIgnoresDashes(n - 1, s);
    } else {
      assert Dashes(0) + s == s;
    }
  }

  // ---------------------------------------------------------------------------
  // Equality of names and parameters
  // ---------------------------------------------------------------------------

  /** __libcmdargs_is_opts_equal: the stored name and the key agree once normalised. */
  predicate OptsEqual(opt: CmdOpt, key: string) {
    Unified(opt.option) == Unified(key)
  }

  /**
   * Option equality ignores how many dashes either side carries: names that
   * differ only in their leading dashes match, and a name without dashes
   * matches a key exactly when the key is that name behind some dashes.
   */
  lemma OptsEqualIgnoresDashes(m: nat, n: nat, name: string, value: Option<string>, key: string)
    ensures OptsEqual(CmdOpt(Dashes(m) + name, value), Dashes(n) + key) <==> OptsEqual(CmdOpt(name, value), key)
  {
    UnifiedIgnoresDashes(m, name);
    UnifiedIgnoresDashes(n, key);
  }

  /**
   * Every name is some dashes in front of a dash-free core (UnifiedDecomposes);
   * two names match exactly when their cores are the same text, whatever the
   * number of dashes on either side.
   */
  lemma OptsEqualIffSameCore(m: nat, n: nat, core: string, value: Option<string>, keyCore: string)
    requires core == [] || core[0] != OptionFlag
    requires keyCore == [] || keyCore[0] != OptionFlag
    ensures OptsEqual(CmdOpt(Dashes(m) + core, value), Dashes(n) + keyCore) <==> core == keyCore
  {
    UnifiedIgnoresDashes(m, core);
    UnifiedIgnoresDashes(n, keyCore);
    UnifiedKeepsUndashed(core);
    UnifiedKeepsUndashed(keyCore);
  }

  /** `-x`, `--x` and `x` all name the same option; different letters or case do not. */
  lemma OptsEqualExamples()
    ensures OptsEqual(CmdOpt("--x", None), "-x") && OptsEqual(CmdOpt("x", None), "---x")
    ensures !OptsEqual(CmdOpt("-x", None), "-y") && !OptsEqual(CmdOpt("-x", None), "X")
  {
    OptsEqualIffSameCore(2, 1, "x", None, "x");
    OptsEqualIffSameCore(0, 3, "x", None, "x");
    OptsEqualIffSameCore(1, 1, "x", None, "y");
    OptsEqualIffSameCore(1, 0, "x", None, "X");
    assert Dashes(2) + "x" == "--x" && Dashes(1) + "x" == "-x" && Dashes(0) + "x" == "x";
    assert Dashes(3) + "x" == "---x" && Dashes(1) + "y" == "-y" && Dashes(0) + "X" == "X";
  }

  /** __libcmdargs_is_params_equal: exact text equality, dashes included. */
  predicate ParamsEqual(param: string, key: string) {
    param == key
  }

  /** Parameters are not normalised: a dash makes a parameter differ where an option would match. */
  lemma ParamsEqualIsExact()
    ensures !ParamsEqual("x", "-x") && OptsEqual(CmdOpt("x", None), "-x")
  {
    assert "-x"[1..] == "x";
  }

  // ---------------------------------------------------------------------------
  // Presence queries (libcmdargs_isopt, libcmdargs_isparam)
  // ---------------------------------------------------------------------------

  /** A front-to-back search for a stored option whose name matches the key. */
  function AnyOptMatches(opts: seq<CmdOpt>, key: string): (r: bool)
    ensures r <==> exists k :: 0 <= k < |opts| && OptsEqual(opts[k], key)
  {
    if opts == [] then false
    else if OptsEqual(opts[0], key) then true
    else
      var rest := AnyOptMatches(opts[1..], key);
      assert opts == [opts[0]] + opts[1..];
      rest
  }

  /** A front-to-back search for a stored parameter equal to the key. */
  function AnyParamMatches(params: seq<string>, key: string): (r: bool)
    ensures r <==> key in params
  {
    if params == [] then false
    else if ParamsEqual(params[0], key) then true
    else
      var rest := AnyParamMatches(params[1..], key);
      assert params == [params[0]] + params[1..];
      rest
  }

  /** A call is malformed when there is no result, no key, or an empty key. */
  predicate Malformed(args: Option<CmdArgs>, key: Option<string>) {
    args.None? || key.None? || key.value == []
  }

  /** What libcmdargs_isopt answers. */
  function OptPresence(args: Option<CmdArgs>, key: Option<string>): (r: Presence)
    ensures r == Error <==> Malformed(args, key)
    ensures r == Present <==>
      !Malformed(args, key) && exists k :: 0 <= k < |args.value.options| && OptsEqual(args.value.options[k], key.value)
  {
    if Malformed(args, key) then Error
    else if AnyOptMatches(args.value.options, key.value) then Present
    else NotPresent
  }

  /** What libcmdargs_isparam answers. */
  function ParamPresence(args: Option<CmdArgs>, key: Option<string>): (r: Presence)
    ensures r == Error <==> Malformed(args, key)
    ensures r == Present <==> !Malformed(args, key) && key.value in args.value.parameters
  {
    if Malformed(args, key) then Error
    else if AnyParamMatches(args.value.parameters, key.value) then Present
    else NotPresent
  }

  /** libcmdargs_isopt: check the call, then scan the options and stop at the first match. */
  method IsOpt(args: Option<CmdArgs>, key: Option<string>) returns (r: Presence)
    ensures r == OptPresence(args, key)
  {
    if args.None? || key.None? || |key.value| == 0 {
      return Error;
    }
    var opts := args.value.options;
    for i := 0 to |opts|
      invariant forall j :: 0 <= j < i ==> !OptsEqual(opts[j], key.value)
    {
      if OptsEqual(opts[i], key.value) {
        return Present;
      }
    }
    return NotPresent;
  }

  /** libcmdargs_isparam: check the call, then scan the parameters and stop at the first exact match. */
  method IsParam(args: Option<CmdArgs>, key: Option<string>) returns (r: Presence)
    ensures r == ParamPresence(args, key)
  {
    if args.None? || key.None? || |key.value| == 0 {
      return Error;
    }
    var params := args.value.parameters;
    for i := 0 to |params|
      invariant forall j :: 0 <= j < i ==> !ParamsEqual(params[j], key.value)
    {
      if ParamsEqual(params[i], key.value) {
        return Present;
      }
    }
    return NotPresent;
  }
}
