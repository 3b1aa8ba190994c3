/**
 * `CbcSolverOption`: eight optional settings that `getArgs` turns into the
 * command line handed to CBC.  The line starts with the problem name, lists
 * one flag and its value per setting that is not null, in a fixed order,
 * and ends with `-solve`.
 */
module CbcOptions {
  import opened Wrappers

  const PROBNAME: string := "problem-name"
  const PREPROCESS: string := "-preprocess"
  const FEASIBILITYPUMP: string := "-feasibilityPump"
  const CUTSONOFF: string := "-cutsonoff"
  const COMBINESOLUTIONS: string := "-combineSolutions"
  const STRATEGY: string := "-strategy"
  const LOGLEVEL: string := "-logLevel"
  const SLOGLEVEL: string := "-slogLevel"
  const TRUSTPSEUDOCOST: string := "-trustPseudoCosts"
  const SOLVE: string := "-solve"
  const ON: string := "on"
  const OFF: string := "off"

  /** The values of the eight settings, null being `None`. */
  datatype Settings = Settings(
    preprocess: Option<bool>,
    feasibilityPump: Option<bool>,
    cutsOnOff: Option<bool>,
    combineSolutions: Option<bool>,
    strategy: Option<int>,
    logLevel: Option<int>,
    sLogLevel: Option<int>,
    trustPseudoCost: Option<int>)

  /** The settings of a new option object: pump and preprocessing off, log level 0, the rest null. */
  const Defaults: Settings := Settings(Some(false), Some(false), None, None, None, Some(0), None, None)

  /** The flags in the order `getArgs` writes them. */
  const Flags: seq<string> := [PREPROCESS, FEASIBILITYPUMP, CUTSONOFF, COMBINESOLUTIONS,
                               STRATEGY, LOGLEVEL, SLOGLEVEL, TRUSTPSEUDOCOST]

  function OnOff(b: bool): (s: string)
    ensures s == ON || s == OFF
  {
    if b then ON else OFF
  }

  /** The decimal digit for `d`. */
  function Digit(d: nat): char
    requires d < 10
  {
    ('0' as int + d) as char
  }

  predicate IsDigit(c: char) {
    '0' <= c <= '9'
  }

  /** The decimal digits of `n`, without leading zeros. */
  function NatToString(n: nat): (s: string)
    ensures |s| > 0 && forall k :: 0 <= k < |s| ==> IsDigit(s[k])
    ensures |s| > 1 ==> s[0] != '0'
  {
    if n < 10 then [Digit(n)] else NatToString(n / 10) + [Digit(n % 10)]
  }

  /** `Integer.toString(i)`: a minus sign before the digits of a negative value. */
  function IntToString(i: int): (s: string)
    ensures |s| > 0
    ensures (s[0] == '-') <==> i < 0
  {
    if i < 0 then "-" + NatToString(-i) else NatToString(i)
  }

  /** The value of a string of decimal digits. */
  function DigitsValue(s: string): nat
    requires |s| > 0 && forall k :: 0 <= k < |s| ==> IsDigit(s[k])
  {
    assert IsDigit(s[|s| - 1]);
    var last := (s[|s| - 1] as int - '0' as int) as nat;
    if |s| == 1 then last else DigitsValue(s[..|s| - 1]) * 10 + last
  }

  /** The reading `Integer.parseInt` gives a decimal string; `None` where it would throw. */
  function ParseInt(s: string): Option<int> {
    if |s| > 1 && s[0] == '-' && forall k :: 1 <= k < |s| ==> IsDigit(s[k]) then
      Some(-(DigitsValue(s[1..]) as int))
    else if |s| > 0 && forall k :: 0 <= k < |s| ==> IsDigit(s[k]) then
      Some(DigitsValue(s))
    else None
  }

  lemma {:induction false} NatToStringValue(n: nat)
    ensures DigitsValue(NatToString(n)) == n
  {
    if n >= 10 {
      var s := NatToString(n);
      assert s[..|s| - 1] == NatToString(n / 10);
      NatToStringValue(n / 10);
    }
  }

  /** Every integer reads back from its decimal form. */
  lemma IntToStringParses(i: int)
    ensures ParseInt(IntToString(i)) == Some(i)
  {
    if i < 0 {
      var s := IntToString(i);
      assert s[1..] == NatToString(-i);
      NatToStringValue(-i);
    } else {
      NatToStringValue(i);
    }
  }

  /** A flag followed by its value, or nothing for a null setting. */
  function Entry(flag: string, value: Option<string>): (e: seq<string>)
    ensures value.None? ==> e == []
    ensures value.Some? ==> e == [flag, value.value]
  {
    if value.None? then [] else [flag, value.value]
  }

  function BoolValue(b: Option<bool>): Option<string> {
    if b.None? then None else Some(OnOff(b.value))
  }

  function IntValue(i: Option<int>): Option<string> {
    if i.None? then None else Some(IntToString(i.value))
  }

  /** The rendered value of each setting, in flag order. */
  function Values(s: Settings): (vs: seq<Option<string>>)
    ensures |vs| == |Flags|
  {
    [BoolValue(s.preprocess), BoolValue(s.feasibilityPump), BoolValue(s.cutsOnOff),
     BoolValue(s.combineSolutions), IntValue(s.strategy), IntValue(s.logLevel),
     IntValue(s.sLogLevel), IntValue(s.trustPseudoCost)]
  }

  /** Each flag followed by its value, the null ones left out. */
  function Pairs(fs: seq<string>, vs: seq<Option<string>>): seq<string>
    requires |fs| == |vs|
  {
    if fs == [] then [] else Entry(fs[0], vs[0]) + Pairs(fs[1..], vs[1..])
  }

  /** The flag-and-value pairs of `getArgs`, between the problem name and `-solve`. */
  function Body(s: Settings): seq<string> {
    Pairs(Flags, Values(s))
  }

  /** `getArgs` for given settings. */
  function Args(s: Settings): (args: seq<string>)
    ensures |args| >= 2 && args[0] == PROBNAME && args[|args| - 1] == SOLVE
  {
    [PROBNAME] + Body(s) + [SOLVE]
  }

  /** The number of settings that are not null. */
  function SetCount(vs: seq<Option<string>>): nat {
    if vs == [] then 0 else (if vs[0].Some? then 1 else 0) + SetCount(vs[1..])
  }

  lemma {:induction false} PairsLength(fs: seq<string>, vs: seq<Option<string>>)
    requires |fs| == |vs|
    ensures |Pairs(fs, vs)| == 2 * SetCount(vs)
  {
    if fs != [] {
      PairsLength(fs[1..], vs[1..]);
    }
  }

  /** Each non-null setting contributes two arguments, so there are 2 + 2 × (settings set). */
  lemma ArgsLength(s: Settings)
    ensures |Args(s)| == 2 + 2 * SetCount(Values(s))
  {
    PairsLength(Flags, Values(s));
  }

  /** The value following `flag` in a list of flag-and-value pairs. */
  function Lookup(pairs: seq<string>, flag: string): Option<string>
    decreases |pairs|
  {
    if |pairs| < 2 then None
    else if pairs[0] == flag then Some(pairs[1])
    else Lookup(pairs[2..], flag)
  }

  lemma LookupEntry(f: string, v: Option<string>, rest: seq<string>, g: string)
    ensures Lookup(Entry(f, v) + rest, g) == if v.Some? && f == g then v else Lookup(rest, g)
  {
    if v.Some? {
      var pairs := Entry(f, v) + rest;
      assert pairs[0] == f && pairs[1] == v.value && pairs[2..] == rest;
    } else {
      assert Entry(f, v) + rest == rest;
    }
  }

  /** A flag that is not listed is not found. */
  lemma {:induction false} LookupAbsent(fs: seq<string>, vs: seq<Option<string>>, g: string)
    requires |fs| == |vs| && g !in fs
    ensures Lookup(Pairs(fs, vs), g) == None
  {
    if fs != [] {
      LookupEntry(fs[0], vs[0], Pairs(fs[1..], vs[1..]), g);
      LookupAbsent(fs[1..], vs[1..], g);
    }
  }

  /** With distinct flags, looking up the k-th flag gives the k-th value. */
  lemma {:induction false} LookupPairs(fs: seq<string>, vs: seq<Option<string>>, k: nat)
    requires |fs| == |vs| && k < |fs|
    requires forall a, b :: 0 <= a < b < |fs| ==> fs[a] != fs[b]
    ensures Lookup(Pairs(fs, vs), fs[k]) == vs[k]
  {
    LookupEntry(fs[0], vs[0], Pairs(fs[1..], vs[1..]), fs[k]);
    if k == 0 {
      if vs[0].None? {
        assert fs[0] !in fs[1..];
        LookupAbsent(fs[1..], vs[1..], fs[0]);
      }
    } else {
      assert fs[1..][k - 1] == fs[k];
      LookupPairs(fs[1..], vs[1..], k - 1);
    }
  }

  /**
   * The settings read back from the command line: looking up the k-th flag
   * gives the k-th setting's rendering, null giving nothing.
   */
  lemma BodyLookup(s: Settings, k: nat)
    requires k < |Flags|
    ensures Lookup(Body(s), Flags[k]) == Values(s)[k]
  {
    LookupPairs(Flags, Values(s), k);
  }

  /** The rendering of a boolean setting determines it. */
  lemma BoolValueInjective(a: Option<bool>, b: Option<bool>)
    ensures BoolValue(a) == BoolValue(b) ==> a == b
  {
  }

  /** The rendering of an integer setting determines it. */
  lemma IntValueInjective(a: Option<int>, b: Option<int>)
    ensures IntValue(a) == IntValue(b) ==> a == b
  {
    if a.Some? && b.Some? && IntValue(a) == IntValue(b) {
      IntToStringParses(a.value);
      IntToStringParses(b.value);
    }
  }

  /** Different settings give different command lines. */
  lemma ArgsInjective(s: Settings, t: Settings)
    ensures Args(s) == Args(t) ==> s == t
  {
    if Args(s) == Args(t) {
      assert Body(s) == Args(s)[1..|Args(s)| - 1];
      assert Body(t) == Args(t)[1..|Args(t)| - 1];
      forall k | 0 <= k < |Flags|
        ensures Values(s)[k] == Values(t)[k]
      {
        BodyLookup(s, k);
        BodyLookup(t, k);
      }
      assert BoolValue(s.preprocess) == BoolValue(t.preprocess) by { assert Values(s)[0] == Values(t)[0]; }
      assert BoolValue(s.feasibilityPump) == BoolValue(t.feasibilityPump) by { assert Values(s)[1] == Values(t)[1]; }
      assert BoolValue(s.cutsOnOff) == BoolValue(t.cutsOnOff) by { assert Values(s)[2] == Values(t)[2]; }
      assert BoolValue(s.combineSolutions) == BoolValue(t.combineSolutions) by { assert Values(s)[3] == Values(t)[3]; }
      assert IntValue(s.strategy) == IntValue(t.strategy) by { assert Values(s)[4] == Values(t)[4]; }
      assert IntValue(s.logLevel) == IntValue(t.logLevel) by { assert Values(s)[5] == Values(t)[5]; }
      assert IntValue(s.sLogLevel) == IntValue(t.sLogLevel) by { assert Values(s)[6] == Values(t)[6]; }
      assert IntValue(s.trustPseudoCost) == IntValue(t.trustPseudoCost) by { assert Values(s)[7] == Values(t)[7]; }
      BoolValueInjective(s.preprocess, t.preprocess);
      BoolValueInjective(s.feasibilityPump, t.feasibilityPump);
      BoolValueInjective(s.cutsOnOff, t.cutsOnOff);
      BoolValueInjective(s.combineSolutions, t.combineSolutions);
      IntValueInjective(s.strategy, t.strategy);
      IntValueInjective(s.logLevel, t.logLevel);
      IntValueInjective(s.sLogLevel, t.sLogLevel);
      IntValueInjective(s.trustPseudoCost, t.trustPseudoCost);
    }
  }

  /** The command line of a new option object. */
  lemma DefaultArgs()
    ensures Args(Defaults) == [PROBNAME, PREPROCESS, OFF, FEASIBILITYPUMP, OFF, LOGLEVEL, "0", SOLVE]
  {
    var vs := Values(Defaults);
    assert IntToString(0) == "0";
    assert vs == [Some(OFF), Some(OFF), None, None, None, Some("0"), None, None];
    assert Pairs(Flags[5..], vs[5..]) == [LOGLEVEL, "0"] by {
      assert Pairs(Flags[8..], vs[8..]) == [];
      assert Pairs(Flags[7..], vs[7..]) == [];
      assert Pairs(Flags[6..], vs[6..]) == [];
    }
    assert Pairs(Flags[2..], vs[2..]) == [LOGLEVEL, "0"] by {
      assert Pairs(Flags[4..], vs[4..]) == [LOGLEVEL, "0"];
      assert Pairs(Flags[3..], vs[3..]) == [LOGLEVEL, "0"];
    }
    assert Pairs(Flags[1..], vs[1..]) == [FEASIBILITYPUMP, OFF, LOGLEVEL, "0"];
  }

  class SolverOption {
    var combineSolutions: Option<bool>
    var cutsOnOff: Option<bool>
    var feasibilityPump: Option<bool>
    var logLevel: Option<int>
    var preprocess: Option<bool>
    var sLogLevel: Option<int>
    var strategy: Option<int>
    var trustPseudoCost: Option<int>

    constructor()
      ensures Current() == Defaults
    {
      combineSolutions := None;
      cutsOnOff := None;
      feasibilityPump := Some(false);
      logLevel := Some(0);
      preprocess := Some(false);
      sLogLevel := None;
      strategy := None;
      trustPseudoCost := None;
    }

    /** The fields as settings. */
    function Current(): Settings
      reads this
    {
      Settings(preprocess, feasibilityPump, cutsOnOff, combineSolutions,
               strategy, logLevel, sLogLevel, trustPseudoCost)
    }

    /** `getArgs`. */
    function GetArgs(): (args: seq<string>)
      reads this
      ensures args == Args(Current())
    {
      [PROBNAME] + Body(Current()) + [SOLVE]
    }

    function GetCutsOnOff(): Option<bool> reads this { cutsOnOff }
    function GetFeasibilityPump(): Option<bool> reads this { feasibilityPump }
    function GetLogLevel(): Option<int> reads this { logLevel }
    function GetPreprocess(): Option<bool> reads this { preprocess }
    function GetSLogLevel(): Option<int> reads this { sLogLevel }
    function GetStrategy(): Option<int> reads this { strategy }
    function GetTrustPseudoCost(): Option<int> reads this { trustPseudoCost }
    function IsCombineSolutions(): Option<bool> reads this { combineSolutions }

    method SetCombineSolutions(v: Option<bool>)
      modifies this`combineSolutions
      ensures IsCombineSolutions() == v && Current() == old(Current()).(combineSolutions := v)
    {
      combineSolutions := v;
    }

    method SetCutsOnOff(v: Option<bool>)
      modifies this`cutsOnOff
      ensures GetCutsOnOff() == v && Current() == old(Current()).(cutsOnOff := v)
    {
      cutsOnOff := v;
    }

    method SetFeasibilityPump(v: Option<bool>)
      modifies this`feasibilityPump
      ensures GetFeasibilityPump() == v && Current() == old(Current()).(feasibilityPump := v)
    {
      feasibilityPump := v;
    }

    method SetLogLevel(v: Option<int>)
      modifies this`logLevel
      ensures GetLogLevel() == v && Current() == old(Current()).(logLevel := v)
    {
      logLevel := v;
    }

    method SetPreprocess(v: Option<bool>)
      modifies this`preprocess
      ensures GetPreprocess() == v && Current() == old(Current()).(preprocess := v)
    {
      preprocess := v;
    }

    method SetSLogLevel(v: Option<int>)
      modifies this`sLogLevel
      ensures GetSLogLevel() == v && Current() == old(Current()).(sLogLevel := v)
    {
      sLogLevel := v;
    }

    method SetStrategy(v: Option<int>)
      modifies this`strategy
      ensures GetStrategy() == v && Current() == old(Current()).(strategy := v)
    {
      strategy := v;
    }

    method SetTrustPseudoCost(v: Option<int>)
      modifies this`trustPseudoCost
      ensures GetTrustPseudoCost() == v && Current() == old(Current()).(trustPseudoCost := v)
    {
      trustPseudoCost := v;
    }
  }
}
