/**
 * The scan of src/parser.c: one left-to-right pass over the arguments that
 * turns every token into an option (with or without a consumed value) or a
 * parameter, accumulating two growing arrays.
 *
 * The specification of the scan is Classify, which cuts the token list into
 * entries, and Unzip, which sorts the entries into the two result lists.
 */
module Parser {
  import opened Wrappers
  import opened LibCmdArgs

  /** is_option: a token is an option exactly when its first character is the dash. */
  predicate IsOption(arg: string) {
    |arg| > 0 && arg[0] == OptionFlag
  }

  lemma OptionTokenEdgeCases()
    ensures IsOption("-") && IsOption("--x") && IsOption("-x")
    ensures !IsOption("") && !IsOption("x-")
  {
  }

  // ---------------------------------------------------------------------------
  // Specification of the scan
  // ---------------------------------------------------------------------------

  /** What one step of the scan makes of the tokens at its position. */
  datatype Entry = OptionEntry(opt: CmdOpt) | ParamEntry(param: string)

  /** The input tokens an entry was made from, in input order. */
  function EntryTokens(e: Entry): seq<string> {
    match e
    case OptionEntry(o) => [o.option] + (if o.parameter.Some? then [o.parameter.value] else [])
    case ParamEntry(p) => [p]
  }

  /** The tokens a sequence of entries was made from, in input order. */
  function Flatten(es: seq<Entry>): seq<string> {
    if es == [] then [] else EntryTokens(es[0]) + Flatten(es[1..])
  }

  /**
   * parse_arg at the front of `tokens`: an option token consumes the next
   * token as its value when there is one and it is not an option; every
   * other token is a parameter.
   */
  function NextEntry(tokens: seq<string>): (e: Entry)
    requires tokens != []
    ensures 1 <= |EntryTokens(e)| <= |tokens|
  {
    if IsOption(tokens[0]) then
      OptionEntry(CmdOpt(tokens[0], if |tokens| > 1 && !IsOption(tokens[1]) then Some(tokens[1]) else None))
    else
      ParamEntry(tokens[0])
  }

  /** The whole scan: the entries made from `tokens`, in input order. */
  function Classify(tokens: seq<string>): seq<Entry>
    decreases |tokens|
  {
    if tokens == [] then []
    else
      var e := NextEntry(tokens);
      [e] + Classify(tokens[|EntryTokens(e)|..])
  }

  /** Appending one entry to the result: an option goes last among the options, a parameter last among the parameters. */
  function Add(acc: CmdArgs, e: Entry): CmdArgs {
    match e
    case OptionEntry(o) => CmdArgs(acc.options + [o], acc.parameters)
    case ParamEntry(p) => CmdArgs(acc.options, acc.parameters + [p])
  }

  /** The result built by appending the entries one after another. */
  function Unzip(es: seq<Entry>): CmdArgs {
    if es == [] then CmdArgs([], []) else Add(Unzip(es[..|es| - 1]), es[|es| - 1])
  }

  /** The options and parameters the scan produces from `tokens`. */
  function Split(tokens: seq<string>): CmdArgs {
    Unzip(Classify(tokens))
  }

  // ---------------------------------------------------------------------------
  // Properties of the scan
  // ---------------------------------------------------------------------------

  /**
   * A well-formed entry stream: option names are option tokens, values and
   * parameters are not, and an option without a value is never followed by
   * a parameter entry (that token would have been its value).
   */
  predicate WellFormed(es: seq<Entry>) {
    forall k :: 0 <= k < |es| ==> EntryOk(es, k)
  }

  predicate EntryOk(es: seq<Entry>, k: nat)
    requires k < |es|
  {
    match es[k]
    case OptionEntry(o) =>
      IsOption(o.option)
      && (o.parameter.Some? ==> !IsOption(o.parameter.value))
      && (o.parameter.None? && k + 1 < |es| ==> es[k + 1].OptionEntry?)
    case ParamEntry(p) => !IsOption(p)
  }

  lemma {:induction false} FlattenConcat(xs: seq<Entry>, ys: seq<Entry>)
    ensures Flatten(xs + ys) == Flatten(xs) + Flatten(ys)
    decreases |xs|
  {
    if xs == [] {
      assert xs + ys == ys;
    } else {
      var zs := xs + ys;
      assert zs[0] == xs[0] && zs[1..] == xs[1..] + ys;
      FlattenConcat(xs[1..], ys);
    }
  }

  lemma FlattenSingle(e: Entry)
    ensures Flatten([e]) == EntryTokens(e)
  {
    assert [e][1..] == [];
  }

  /** Every token is accounted for exactly once, in order: the entries give back the input. */
  lemma {:induction false} ClassifyFlatten(tokens: seq<string>)
    ensures Flatten(Classify(tokens)) == tokens
    decreases |tokens|
  {
    if tokens != [] {
      var e := NextEntry(tokens);
      var n := |EntryTokens(e)|;
      ClassifyFlatten(tokens[n..]);
      FlattenCons(e, Classify(tokens[n..]));
      NextEntrySplits(tokens);
    }
  }

  /** The entry at the front is made from the leading tokens, unchanged. */
  lemma NextEntrySplits(tokens: seq<string>)
    requires tokens != []
    ensures tokens == EntryTokens(NextEntry(tokens)) + tokens[|EntryTokens(NextEntry(tokens))|..]
  {
    if IsOption(tokens[0]) && |tokens| > 1 && !IsOption(tokens[1]) {
      assert tokens == [tokens[0], tokens[1]] + tokens[2..];
    } else {
      assert tokens == [tokens[0]] + tokens[1..];
    }
  }

  lemma FlattenCons(e: Entry, rest: seq<Entry>)
    ensures Flatten([e] + rest) == EntryTokens(e) + Flatten(rest)
  {
    var es := [e] + rest;
    assert es[0] == e && es[1..] == rest;
  }

  /** The scan classifies by the first character and consumes a value whenever one is available. */
  lemma {:induction false} ClassifyWellFormed(tokens: seq<string>)
    ensures WellFormed(Classify(tokens))
    decreases |tokens|
  {
    if tokens != [] {
      var e := NextEntry(tokens);
      var n := |EntryTokens(e)|;
      var rest := Classify(tokens[n..]);
      ClassifyWellFormed(tokens[n..]);
      var es := [e] + rest;
      forall k | 0 <= k < |es|
        ensures EntryOk(es, k)
      {
        if k == 0 {
          if e.OptionEntry? && e.opt.parameter.None? && |es| > 1 {
            // No value was consumed, so the following token is an option.
            assert n == 1 && |tokens| > 1;
            assert IsOption(tokens[1]);
            assert tokens[1..] != [];
            assert es[1] == NextEntry(tokens[1..]);
          }
        } else {
          assert es[k] == rest[k - 1];
          assert EntryOk(rest, k - 1);
          if k + 1 < |es| {
            assert es[k + 1] == rest[k];
          }
        }
      }
    }
  }

  /**
   * Classify is the only well-formed way of cutting `tokens` into entries:
   * any well-formed entry stream that gives back the tokens is the scan's.
   */
  lemma {:induction false} ClassifyUnique(es: seq<Entry>, tokens: seq<string>)
    requires WellFormed(es) && Flatten(es) == tokens
    ensures es == Classify(tokens)
    decreases |es|
  {
    if es != [] {
      var e := es[0];
      var rest := es[1..];
      assert es == [e] + rest;
      var n := |EntryTokens(e)|;
      assert EntryOk(es, 0);
      assert tokens[..n] == EntryTokens(e) && tokens[n..] == Flatten(rest);
      assert tokens != [];
      // The first entry is the one the scan makes.
      match e {
        case ParamEntry(p) =>
          assert NextEntry(tokens) == e;
        case OptionEntry(o) =>
          if o.parameter.Some? {
            assert tokens[1] == o.parameter.value;
          } else if |tokens| > 1 {
            assert rest != [];
            assert es[1].OptionEntry?;
            assert EntryOk(es, 1);
            assert tokens[1] == Flatten(rest)[0] == rest[0].opt.option;
          }
          assert NextEntry(tokens) == e;
      }
      assert WellFormed(rest) by {
        forall k | 0 <= k < |rest| ensures EntryOk(rest, k) {
          assert EntryOk(es, k + 1);
        }
      }
      ClassifyUnique(rest, tokens[n..]);
    }
  }

  /** Unzip sorts entries into the two lists in order: earlier entries stay in front of later ones. */
  lemma {:induction false} UnzipConcat(xs: seq<Entry>, ys: seq<Entry>)
    ensures Unzip(xs + ys).options == Unzip(xs).options + Unzip(ys).options
    ensures Unzip(xs + ys).parameters == Unzip(xs).parameters + Unzip(ys).parameters
    decreases |ys|
  {
    if ys == [] {
      assert xs + ys == xs;
    } else {
      var zs := xs + ys;
      assert zs[..|zs| - 1] == xs + ys[..|ys| - 1];
      UnzipConcat(xs, ys[..|ys| - 1]);
    }
  }

  /** The number of options that consumed a value. */
  function ValueCount(opts: seq<CmdOpt>): nat {
    if opts == [] then 0
    else ValueCount(opts[..|opts| - 1]) + (if opts[|opts| - 1].parameter.Some? then 1 else 0)
  }

  lemma {:induction false} ValueCountConcat(xs: seq<CmdOpt>, ys: seq<CmdOpt>)
    ensures ValueCount(xs + ys) == ValueCount(xs) + ValueCount(ys)
    decreases |ys|
  {
    if ys == [] {
      assert xs + ys == xs;
    } else {
      var zs := xs + ys;
      assert zs[..|zs| - 1] == xs + ys[..|ys| - 1];
      ValueCountConcat(xs, ys[..|ys| - 1]);
    }
  }

  lemma {:induction false} UnzipCounts(es: seq<Entry>)
    ensures |Flatten(es)| == |Unzip(es).options| + ValueCount(Unzip(es).options) + |Unzip(es).parameters|
    decreases |es|
  {
    if es != [] {
      var init, last := es[..|es| - 1], es[|es| - 1];
      UnzipCounts(init);
      assert es == init + [last];
      FlattenConcat(init, [last]);
      FlattenSingle(last);
      if last.OptionEntry? {
        ValueCountConcat(Unzip(init).options, [last.opt]);
        assert ValueCount([last.opt]) == (if last.opt.parameter.Some? then 1 else 0) by {
          assert [last.opt][..0] == [];
        }
      }
    }
  }

  /** Options, their values and the parameters together number exactly the input tokens. */
  lemma SplitCountsTokens(tokens: seq<string>)
    ensures |Split(tokens).options| + ValueCount(Split(tokens).options) + |Split(tokens).parameters| == |tokens|
  {
    UnzipCounts(Classify(tokens));
    ClassifyFlatten(tokens);
  }

  /** The shape every parse result has: the invariant of the options and parameters the scan stores. */
  predicate Shaped(r: CmdArgs) {
    && (forall k :: 0 <= k < |r.options| ==> IsOption(r.options[k].option))
    && (forall k :: 0 <= k < |r.options| && r.options[k].parameter.Some? ==> !IsOption(r.options[k].parameter.value))
    && (forall k :: 0 <= k < |r.parameters| ==> !IsOption(r.parameters[k]))
  }

  lemma {:induction false} UnzipShaped(es: seq<Entry>)
    requires WellFormed(es)
    ensures Shaped(Unzip(es))
    decreases |es|
  {
    if es != [] {
      var init := es[..|es| - 1];
      assert WellFormed(init) by {
        forall k | 0 <= k < |init| ensures EntryOk(init, k) {
          assert EntryOk(es, k);
        }
      }
      UnzipShaped(init);
      assert EntryOk(es, |es| - 1);
    }
  }

  /** Stored option names start with a dash; stored values and parameters never do. */
  lemma SplitShaped(tokens: seq<string>)
    ensures Shaped(Split(tokens))
  {
    ClassifyWellFormed(tokens);
    UnzipShaped(Classify(tokens));
  }

  /** Worked examples: options only, an option with a value, parameters only, a mix. */
  lemma SplitExamplesOptions()
    ensures Split(["-a", "-b"]) == CmdArgs([CmdOpt("-a", None), CmdOpt("-b", None)], [])
    ensures Split(["-a", "x", "-b"]) == CmdArgs([CmdOpt("-a", Some("x")), CmdOpt("-b", None)], [])
  {
    var a, b, ax := OptionEntry(CmdOpt("-a", None)), OptionEntry(CmdOpt("-b", None)), OptionEntry(CmdOpt("-a", Some("x")));
    var p := ["-a", "-b"];
    assert p[1..] == ["-b"];
    assert Classify(p) == [a, b];
    UnzipSnoc([], a);
    UnzipSnoc([a], b);
    assert [a] + [b] == [a, b];
    var t := ["-a", "x", "-b"];
    assert t[2..] == ["-b"];
    assert Classify(t) == [ax, b];
    UnzipSnoc([], ax);
    UnzipSnoc([ax], b);
    assert [ax] + [b] == [ax, b];
  }

  lemma SplitExamplesParameters()
    ensures Split(["foo", "bar"]) == CmdArgs([], ["foo", "bar"])
    ensures Split(["-a", "-b", "c", "d"]) == CmdArgs([CmdOpt("-a", None), CmdOpt("-b", Some("c"))], ["d"])
  {
    var foo, bar := ParamEntry("foo"), ParamEntry("bar");
    var q := ["foo", "bar"];
    assert q[1..] == ["bar"];
    assert Classify(q) == [foo, bar];
    UnzipSnoc([], foo);
    UnzipSnoc([foo], bar);
    assert [foo] + [bar] == [foo, bar];
    var a, bc, d := OptionEntry(CmdOpt("-a", None)), OptionEntry(CmdOpt("-b", Some("c"))), ParamEntry("d");
    var u := ["-a", "-b", "c", "d"];
    assert u[1..] == ["-b", "c", "d"] && u[1..][2..] == ["d"];
    assert Classify(u) == [a, bc, d];
    UnzipSnoc([], a);
    UnzipSnoc([a], bc);
    UnzipSnoc([a, bc], d);
    assert [a] + [bc] == [a, bc] && [a, bc] + [d] == [a, bc, d];
  }

  // ---------------------------------------------------------------------------
  // The imperative scan
  // ---------------------------------------------------------------------------

  /** Growing an array by one: allocate one more slot, copy the old entries, put the new one last. */
  method Append<T>(a: array<T>, x: T) returns (b: array<T>)
    ensures fresh(b)
    ensures b[..] == a[..] + [x]
  {
    b := new T[a.Length + 1](_ => x);
    var k := 0;
    while k < a.Length
      invariant 0 <= k <= a.Length
      invariant b[..k] == a[..k]
      invariant b[a.Length] == x
    {
      b[k] := a[k];
      k := k + 1;
    }
    assert b[..] == b[..a.Length] + [b[a.Length]];
  }

  /**
   * parse_option: append the option at `i`, taking the next token as its
   * value when it exists and is not an option; report whether it was taken.
   */
  method ParseOption(args: array<string>, i: nat, opts: array<CmdOpt>) returns (grown: array<CmdOpt>, consumed: bool)
    requires i < args.Length
    ensures consumed <==> i + 1 < args.Length && !IsOption(args[i + 1])
    ensures grown[..] == opts[..] + [CmdOpt(args[i], if consumed then Some(args[i + 1]) else None)]
  {
    if i + 1 < args.Length && !IsOption(args[i + 1]) {
      grown := Append(opts, CmdOpt(args[i], Some(args[i + 1])));
      consumed := true;
    } else {
      grown := Append(opts, CmdOpt(args[i], None));
      consumed := false;
    }
  }

  /** parse_param: append the token at `i` as a parameter; the next token is never taken. */
  method ParseParam(args: array<string>, i: nat, params: array<string>) returns (grown: array<string>, consumed: bool)
    requires i < args.Length
    ensures !consumed
    ensures grown[..] == params[..] + [args[i]]
  {
    grown := Append(params, args[i]);
    consumed := false;
  }

  /** parse_arg: one step of the scan, which appends the entry NextEntry makes at `i`. */
  method ParseArg(args: array<string>, i: nat, opts: array<CmdOpt>, params: array<string>)
    returns (opts': array<CmdOpt>, params': array<string>, consumed: bool)
    requires i < args.Length
    ensures |EntryTokens(NextEntry(args[i..]))| == if consumed then 2 else 1
    ensures CmdArgs(opts'[..], params'[..]) == Add(CmdArgs(opts[..], params[..]), NextEntry(args[i..]))
  {
    assert args[i..][0] == args[i];
    if IsOption(args[i]) {
      opts', consumed := ParseOption(args, i, opts);
      params' := params;
      assert i + 1 < args.Length ==> args[i..][1] == args[i + 1];
    } else {
      params', consumed := ParseParam(args, i, params);
      opts' := opts;
    }
  }

  /** One step of the scan moves one entry from the part still to scan to the part done. */
  lemma ScanStep(tokens: seq<string>, i: nat, done: seq<Entry>)
    requires i < |tokens|
    requires done + Classify(tokens[i..]) == Classify(tokens)
    ensures i + |EntryTokens(NextEntry(tokens[i..]))| <= |tokens|
    ensures (done + [NextEntry(tokens[i..])]) + Classify(tokens[i + |EntryTokens(NextEntry(tokens[i..]))|..]) == Classify(tokens)
  {
    var e := NextEntry(tokens[i..]);
    var n := |EntryTokens(e)|;
    assert tokens[i..][n..] == tokens[i + n..];
    assert Classify(tokens[i..]) == [e] + Classify(tokens[i + n..]);
  }

  lemma UnzipSnoc(es: seq<Entry>, e: Entry)
    ensures Unzip(es + [e]) == Add(Unzip(es), e)
  {
    assert (es + [e])[..|es|] == es;
  }

  /**
   * libcmdargs_parse over the arguments after the program name: no
   * arguments give no result; otherwise the result is the scan's Split.
   */
  method Parse(args: array<string>) returns (r: Option<CmdArgs>)
    ensures r.None? <==> args.Length == 0
    ensures r.Some? ==> r.value == Split(args[..])
  {
    if args.Length == 0 {
      return None;
    }
    var opts: array<CmdOpt> := new CmdOpt[0];
    var params: array<string> := new string[0];
    ghost var tokens := args[..];
    ghost var done: seq<Entry> := [];
    var i := 0;
    while i < args.Length
      invariant 0 <= i <= args.Length
      invariant done + Classify(tokens[i..]) == Classify(tokens)
      invariant CmdArgs(opts[..], params[..]) == Unzip(done)
    {
      assert tokens[i..] == args[i..];
      ghost var e := NextEntry(tokens[i..]);
      ScanStep(tokens, i, done);
      UnzipSnoc(done, e);
      var consumed;
      opts, params, consumed := ParseArg(args, i, opts, params);
      if consumed {
        i := i + 1;
      }
      i := i + 1;
      done := done + [e];
    }
    assert tokens[i..] == [];
    assert done == Classify(tokens);
    return Some(CmdArgs(opts[..], params[..]));
  }
}
