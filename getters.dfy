/**
 * The value getter of src/getters.c: the value stored with the first option
 * whose name matches the key after dash normalisation.
 */
module Getters {
  import opened Wrappers
  import opened LibCmdArgs
  import opened Checks
  import opened Parser

  /** A front-to-back search that stops at the first matching option and gives back its stored value. */
  function FirstValue(opts: seq<CmdOpt>, key: string): (r: Option<string>)
    ensures r.Some? ==> exists k :: 0 <= k < |opts| && OptsEqual(opts[k], key) && opts[k].parameter == r
  {
    if opts == [] then None
    else if OptsEqual(opts[0], key) then opts[0].parameter
    else
      var rest := FirstValue(opts[1..], key);
      assert opts == [opts[0]] + opts[1..];
      rest
  }

  /** What libcmdargs_getoptparam returns: nothing for a malformed call, else the first match's value. */
  function OptParam(args: Option<CmdArgs>, key: Option<string>): (r: Option<string>)
    ensures Malformed(args, key) ==> r == None
    ensures r.Some? ==> exists k :: 0 <= k < |args.value.options| && OptsEqual(args.value.options[k], key.value) && args.value.options[k].parameter == r
  {
    if Malformed(args, key) then None else FirstValue(args.value.options, key.value)
  }

  /** libcmdargs_getoptparam: check the call, then scan the options and return at the first match. */
  method GetOptParam(args: Option<CmdArgs>, key: Option<string>) returns (r: Option<string>)
    ensures r == OptParam(args, key)
  {
    if args.None? || key.None? || |key.value| == 0 {
      return None;
    }
    var opts := args.value.options;
    for i := 0 to |opts|
      invariant FirstValue(opts, key.value) == FirstValue(opts[i..], key.value)
    {
      assert opts[i..] == [opts[i]] + opts[i + 1..];
      if OptsEqual(opts[i], key.value) {
        return opts[i].parameter;
      }
    }
    return None;
  }

  /**
   * First match wins: the result is the stored value of the first matching
   * option, even when that value is absent and a later duplicate has one.
   */
  lemma {:induction false} FirstMatchWins(opts: seq<CmdOpt>, key: string, k: nat)
    requires k < |opts| && OptsEqual(opts[k], key)
    requires forall j :: 0 <= j < k ==> !OptsEqual(opts[j], key)
    ensures FirstValue(opts, key) == opts[k].parameter
    decreases k
  {
    if k > 0 {
      FirstMatchWins(opts[1..], key, k - 1);
    }
  }

  /** No matching option, no value: a corollary of FirstValue's contract. */
  lemma NoMatchNoValue(opts: seq<CmdOpt>, key: string)
    requires forall k :: 0 <= k < |opts| ==> !OptsEqual(opts[k], key)
    ensures FirstValue(opts, key) == None
  {
  }

  /** A duplicate option later on does not supply a value the first one lacks. */
  lemma DuplicateExample()
    ensures OptParam(Some(CmdArgs([CmdOpt("-a", None), CmdOpt("--a", Some("x"))], [])), Some("a")) == None
    ensures OptParam(Some(CmdArgs([CmdOpt("-a", Some("x")), CmdOpt("--a", Some("y"))], [])), Some("a")) == Some("x")
  {
    OptsEqualIffSameCore(1, 0, "a", None, "a");
    OptsEqualIffSameCore(1, 0, "a", Some("x"), "a");
    assert Dashes(1) + "a" == "-a" && Dashes(0) + "a" == "a";
  }

  /** Whenever the getter returns a value, the presence query answers Present for the same call. */
  lemma ValueImpliesPresent(args: Option<CmdArgs>, key: Option<string>)
    ensures OptParam(args, key).Some? ==> OptPresence(args, key) == Present
  {
  }

  /** On a parsed result the value returned is the raw stored token, which never starts with a dash. */
  lemma ParsedValueIsNotOption(tokens: seq<string>, key: Option<string>)
    ensures OptParam(Some(Split(tokens)), key).Some? ==> !IsOption(OptParam(Some(Split(tokens)), key).value)
  {
    SplitShaped(tokens);
  }

  /** The option-with-value example: after parsing `-a x`, the getter returns `x` for `a` and `--a`, and nothing for the empty key. */
  lemma ParsedGetterExample()
    ensures OptParam(Some(Split(["-a", "x"])), Some("a")) == Some("x")
    ensures OptParam(Some(Split(["-a", "x"])), Some("--a")) == Some("x")
    ensures OptParam(Some(Split(["-a", "x"])), Some("")) == None
  {
    var e := OptionEntry(CmdOpt("-a", Some("x")));
    assert ["-a", "x"][2..] == [];
    assert Classify(["-a", "x"]) == [e];
    UnzipSnoc([], e);
    OptsEqualIffSameCore(1, 0, "a", Some("x"), "a");
    OptsEqualIffSameCore(1, 2, "a", Some("x"), "a");
    assert Dashes(1) + "a" == "-a" && Dashes(0) + "a" == "a" && Dashes(2) + "a" == "--a";
  }

  /** The dash-normalisation example: after parsing `--verbose`, the option is present under `-verbose`, `verbose` and `--verbose`. */
  lemma ParsedPresenceExample()
    ensures OptPresence(Some(Split(["--verbose"])), Some("-verbose")) == Present
    ensures OptPresence(Some(Split(["--verbose"])), Some("verbose")) == Present
    ensures OptPresence(Some(Split(["--verbose"])), Some("--verbose")) == Present
    ensures OptPresence(Some(Split(["--verbose"])), Some("")) == Error
  {
    var e := OptionEntry(CmdOpt("--verbose", None));
    assert ["--verbose"][1..] == [];
    assert Classify(["--verbose"]) == [e];
    UnzipSnoc([], e);
    var v := "verbose";
    OptsEqualIffSameCore(2, 1, v, None, v);
    OptsEqualIffSameCore(2, 0, v, None, v);
    OptsEqualIffSameCore(2, 2, v, None, v);
    assert Dashes(2) + v == "--verbose" && Dashes(1) + v == "-verbose" && Dashes(0) + v == v;
    assert Split(["--verbose"]).options[0] == CmdOpt("--verbose", None);
  }
}
