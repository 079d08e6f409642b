/**
 Two readers of the same command line (self.llama/common/arg.cpp): the loop that calls a handler for each option, and
 the loop that collects the options into a map. The table of options is a parameter.
 */
module Argv {
  import opened Wrappers

  datatype Handler = Void | Bool | Int | Text | TwoTexts

  /** An option: its spellings, its negated spellings, its handler, and whether it announces a first and a second value. */
  datatype Opt = Opt(args: seq<string>, argsNeg: seq<string>, handler: Handler, hint: bool, hint2: bool)

  /** What each of the five constructors makes (self.llama/common/arg.h:45-79). */
  predicate Built(o: Opt) {
    && o.args != []
    && match o.handler
       case Void => o.argsNeg == [] && !o.hint && !o.hint2
       case Bool => !o.hint && !o.hint2
       case Int => o.argsNeg == [] && o.hint && !o.hint2
       case Text => o.argsNeg == [] && o.hint && !o.hint2
       case TwoTexts => o.argsNeg == [] && o.hint && o.hint2
  }

  type Table = seq<Opt>

  predicate BuiltTable(table: Table) {
    forall i :: 0 <= i < |table| ==> Built(table[i])
  }

  datatype Error = UnknownOption | MissingValue | TwoValues | Handling

  // ----- Finding an option by its spelling

  /** The option and whether the spelling is a positive one. */
  datatype Target = Target(option: nat, positive: bool)

  type Index = map<string, Target>

  function AddAll(index: Index, spellings: seq<string>, target: Target): Index {
    if spellings == [] then index
    else AddAll(index, spellings[..|spellings| - 1], target)[spellings[|spellings| - 1] := target]
  }

  /** Later options, and within one option its negated spellings, replace earlier ones. */
  function IndexOf(table: Table, n: nat): Index
    requires n <= |table|
  {
    if n == 0 then map[]
    else AddAll(AddAll(IndexOf(table, n - 1), table[n - 1].args, Target(n - 1, true)), table[n - 1].argsNeg, Target(n - 1, false))
  }

  method BuildIndex(table: Table) returns (index: Index)
    ensures index == IndexOf(table, |table|)
  {
    index := map[];
    for i := 0 to |table|
      invariant index == IndexOf(table, i)
    {
      var opt := table[i];
      ghost var before := index;
      for k := 0 to |opt.args|
        invariant index == AddAll(before, opt.args[..k], Target(i, true))
      {
        assert opt.args[..k + 1][..k] == opt.args[..k];
        index := index[opt.args[k] := Target(i, true)];
      }
      assert opt.args[..|opt.args|] == opt.args;
      ghost var positives := index;
      for k := 0 to |opt.argsNeg|
        invariant index == AddAll(positives, opt.argsNeg[..k], Target(i, false))
      {
        assert opt.argsNeg[..k + 1][..k] == opt.argsNeg[..k];
        index := index[opt.argsNeg[k] := Target(i, false)];
      }
      assert opt.argsNeg[..|opt.argsNeg|] == opt.argsNeg;
    }
  }

  lemma {:induction false} AddAllAt(index: Index, spellings: seq<string>, target: Target, arg: string)
    ensures arg in AddAll(index, spellings, target) <==> arg in spellings || arg in index
    ensures arg in AddAll(index, spellings, target) ==>
              AddAll(index, spellings, target)[arg] == if arg in spellings then target else index[arg]
    decreases |spellings|
  {
    if spellings != [] {
      var last := |spellings| - 1;
      AddAllAt(index, spellings[..last], target, arg);
      assert spellings == spellings[..last] + [spellings[last]];
    }
  }

  /** A spelling found belongs to its option, and is positive exactly if it is not among the option's negated ones. */
  lemma {:induction false} IndexMeaning(table: Table, n: nat, arg: string)
    requires n <= |table|
    ensures arg in IndexOf(table, n) <==> exists i :: 0 <= i < n && (arg in table[i].args || arg in table[i].argsNeg)
    ensures arg in IndexOf(table, n) ==>
              var t := IndexOf(table, n)[arg];
              && t.option < n && (arg in table[t.option].args || arg in table[t.option].argsNeg)
              && (t.positive <==> arg !in table[t.option].argsNeg)
  {
    if n > 0 {
      IndexMeaning(table, n - 1, arg);
      var o := table[n - 1];
      var before := IndexOf(table, n - 1);
      AddAllAt(before, o.args, Target(n - 1, true), arg);
      AddAllAt(AddAll(before, o.args, Target(n - 1, true)), o.argsNeg, Target(n - 1, false), arg);
    }
  }

  /** Of several options with one spelling the last is found. */
  lemma {:induction false} IndexLast(table: Table, n: nat, arg: string, k: nat)
    requires n <= |table| && arg in IndexOf(table, n)
    requires k < n && (arg in table[k].args || arg in table[k].argsNeg)
    ensures k <= IndexOf(table, n)[arg].option
  {
    var o, before := table[n - 1], IndexOf(table, n - 1);
    AddAllAt(before, o.args, Target(n - 1, true), arg);
    AddAllAt(AddAll(before, o.args, Target(n - 1, true)), o.argsNeg, Target(n - 1, false), arg);
    if arg !in o.args && arg !in o.argsNeg {
      IndexLast(table, n - 1, arg, k);
    }
  }

  // ----- Spelling

  /** Underscores become hyphens, but only in arguments that begin with two hyphens. */
  function Hyphenate(s: string): (r: string)
    ensures |r| == |s| && forall i :: 0 <= i < |s| ==> r[i] == if s[i] == '_' then '-' else s[i]
  {
    if s == "" then "" else Hyphenate(s[..|s| - 1]) + [if s[|s| - 1] == '_' then '-' else s[|s| - 1]]
  }

  function Normal(s: string): string {
    if |s| >= 2 && s[..2] == "--" then Hyphenate(s) else s
  }

  // ----- What an argument list says

  datatype Value = Flag(positive: bool) | One(text: string) | Two(first: string, second: string)

  /** An option used, by its place in the table. */
  datatype Use = Use(option: nat, value: Value)

  /** How many values an option takes from the arguments behind it. */
  function Arity(h: Handler): nat {
    match h
    case Void => 0
    case Bool => 0
    case Int => 1
    case Text => 1
    case TwoTexts => 2
  }

  function UseOf(t: Target, h: Handler, values: seq<string>): Use
    requires |values| == Arity(h)
  {
    Use(t.option, if Arity(h) == 0 then Flag(t.positive) else if Arity(h) == 1 then One(values[0]) else Two(values[0], values[1]))
  }

  /** The uses an argument list spells out from position i on, or why it does not. */
  function Uses(table: Table, argv: seq<string>, i: nat): Result<seq<Use>, Error>
    requires i <= |argv|
    decreases |argv| - i
  {
    if i == |argv| then Ok([])
    else
      var index := IndexOf(table, |table|);
      var arg := Normal(argv[i]);
      if arg !in index then Err(UnknownOption)
      else
        IndexMeaning(table, |table|, arg);
        var t := index[arg];
        var n := Arity(table[t.option].handler);
        if i + n >= |argv| then Err(MissingValue)
        else
          match Uses(table, argv, i + 1 + n)
          case Err(e) => Err(e)
          case Ok(more) => Ok([UseOf(t, table[t.option].handler, argv[i + 1..i + 1 + n])] + more)
  }

  // ----- The loop that calls handlers

  /** A handler changes the parameters or fails; reading an integer is part of it. */
  type Handlers<!P> = (P, Use) -> Result<P, Error>

  function Handle<P>(uses: seq<Use>, handle: Handlers<P>, params: P): Result<P, Error> {
    if uses == [] then Ok(params)
    else
      match handle(params, uses[0])
      case Err(e) => Err(e)
      case Ok(p) => Handle(uses[1..], handle, p)
  }

  /** Read and handle the arguments from position i on. */
  function Parse<P>(table: Table, argv: seq<string>, i: nat, handle: Handlers<P>, params: P): Result<P, Error>
    requires i <= |argv|
    decreases |argv| - i
  {
    if i == |argv| then Ok(params)
    else
      var index := IndexOf(table, |table|);
      var arg := Normal(argv[i]);
      if arg !in index then Err(UnknownOption)
      else
        IndexMeaning(table, |table|, arg);
        var t := index[arg];
        var n := Arity(table[t.option].handler);
        if i + n >= |argv| then Err(MissingValue)
        else
          match handle(params, UseOf(t, table[t.option].handler, argv[i + 1..i + 1 + n]))
          case Err(e) => Err(e)
          case Ok(p) => Parse(table, argv, i + 1 + n, handle, p)
  }

  method ParseCliArgs<P>(table: Table, argv: seq<string>, handle: Handlers<P>, start: P) returns (r: Result<P, Error>)
    requires |argv| > 0
    ensures r == Parse(table, argv, 1, handle, start)
  {
    var index := BuildIndex(table);
    var params := start;
    var i := 1;
    while i < |argv|
      invariant 1 <= i <= |argv|
      invariant Parse(table, argv, 1, handle, start) == Parse(table, argv, i, handle, params)
    {
      var arg := Normal(argv[i]);
      if arg !in index {
        return Err(UnknownOption);
      }
      IndexMeaning(table, |table|, arg);
      var t := index[arg];
      var opt := table[t.option];
      var use: Use;
      if opt.handler.Void? || opt.handler.Bool? {
        use := Use(t.option, Flag(t.positive));
      } else {
        if i + 1 >= |argv| {
          return Err(MissingValue);
        }
        i := i + 1;
        var val := argv[i];
        if opt.handler.Int? || opt.handler.Text? {
          use := Use(t.option, One(val));
        } else {
          if i + 1 >= |argv| {
            return Err(MissingValue);
          }
          i := i + 1;
          use := Use(t.option, Two(val, argv[i]));
        }
      }
      var p := handle(params, use);
      if p.Err? {
        return p;
      }
      params := p.value;
      i := i + 1;
    }
    return Ok(params);
  }

  // ----- The loop that fills a map

  /** Options are told apart by their first spelling. */
  function Collect(table: Table, argv: seq<string>, i: nat, out: map<string, string>): Result<map<string, string>, Error>
    requires BuiltTable(table) && i <= |argv|
    decreases |argv| - i
  {
    if i == |argv| then Ok(out)
    else
      var index := IndexOf(table, |table|);
      var arg := Normal(argv[i]);
      if arg !in index then Err(UnknownOption)
      else
        IndexMeaning(table, |table|, arg);
        var k := index[arg].option;
        var opt := table[k];
        if opt.hint && i + 1 >= |argv| then Err(MissingValue)
        else if opt.hint2 then Err(TwoValues)
        else
          var val := if opt.hint then argv[i + 1] else if arg in opt.argsNeg then "0" else "1";
          Collect(table, argv, if opt.hint then i + 2 else i + 1, out[table[k].args[0] := val])
  }

  method ParamsToMap(table: Table, argv: seq<string>, start: map<string, string>) returns (r: Result<map<string, string>, Error>)
    requires |argv| > 0 && BuiltTable(table)
    ensures r == Collect(table, argv, 1, start)
  {
    var index := BuildIndex(table);
    var out := start;
    var i := 1;
    while i < |argv|
      invariant 1 <= i <= |argv|
      invariant Collect(table, argv, 1, start) == Collect(table, argv, i, out)
    {
      var arg := Normal(argv[i]);
      if arg !in index {
        return Err(UnknownOption);
      }
      IndexMeaning(table, |table|, arg);
      var k := index[arg].option;
      var opt := table[k];
      var val := "";
      if !opt.hint && !opt.hint2 {
        val := if arg in opt.argsNeg then "0" else "1";
      }
      if opt.hint {
        if i + 1 >= |argv| {
          return Err(MissingValue);
        }
        i := i + 1;
        val := argv[i];
      }
      if opt.hint2 {
        return Err(TwoValues);
      }
      out := out[table[k].args[0] := val];
      i := i + 1;
    }
    return Ok(out);
  }

  // ----- The two loops agree

  /** How a use is written in the map. */
  function Written(v: Value): string {
    match v
    case Flag(positive) => if positive then "1" else "0"
    case One(text) => text
    case Two(first, _) => first
  }

  predicate KnownUses(table: Table, uses: seq<Use>) {
    forall k :: 0 <= k < |uses| ==> uses[k].option < |table|
  }

  predicate NoTwo(uses: seq<Use>) {
    forall k :: 0 <= k < |uses| ==> !uses[k].value.Two?
  }

  function Record(table: Table, uses: seq<Use>, out: map<string, string>): map<string, string>
    requires BuiltTable(table) && KnownUses(table, uses)
  {
    if uses == [] then out
    else Record(table, uses[1..], out[table[uses[0].option].args[0] := Written(uses[0].value)])
  }

  lemma {:induction false} UsesKnown(table: Table, argv: seq<string>, i: nat)
    requires i <= |argv| && Uses(table, argv, i).Ok?
    ensures KnownUses(table, Uses(table, argv, i).value)
    decreases |argv| - i
  {
    if i < |argv| {
      IndexMeaning(table, |table|, Normal(argv[i]));
      var t := IndexOf(table, |table|)[Normal(argv[i])];
      UsesKnown(table, argv, i + 1 + Arity(table[t.option].handler));
    }
  }

  /** The handler loop accepts exactly if the list spells out uses and every handler accepts, one after the other. */
  lemma {:induction false} ParseUses<P>(table: Table, argv: seq<string>, i: nat, handle: Handlers<P>, params: P)
    requires i <= |argv|
    ensures Parse(table, argv, i, handle, params).Ok? <==>
            Uses(table, argv, i).Ok? && Handle(Uses(table, argv, i).value, handle, params).Ok?
    ensures Parse(table, argv, i, handle, params).Ok? ==>
            Parse(table, argv, i, handle, params) == Handle(Uses(table, argv, i).value, handle, params)
    decreases |argv| - i
  {
    if i < |argv| && Normal(argv[i]) in IndexOf(table, |table|) {
      IndexMeaning(table, |table|, Normal(argv[i]));
      var t := IndexOf(table, |table|)[Normal(argv[i])];
      var h := table[t.option].handler;
      var next := i + 1 + Arity(h);
      if next <= |argv| {
        var use := UseOf(t, h, argv[i + 1..next]);
        var p := handle(params, use);
        if p.Ok? {
          ParseUses(table, argv, next, handle, p.value);
        }
        if Uses(table, argv, next).Ok? {
          var more := Uses(table, argv, next).value;
          assert ([use] + more)[0] == use && ([use] + more)[1..] == more;
        }
      }
    }
  }

  /** One round of the map loop, by what the option used takes. */
  lemma CollectStep(table: Table, argv: seq<string>, i: nat, out: map<string, string>)
    requires BuiltTable(table) && i < |argv| && Normal(argv[i]) in IndexOf(table, |table|)
    requires IndexOf(table, |table|)[Normal(argv[i])].option < |table|
    ensures var t := IndexOf(table, |table|)[Normal(argv[i])];
            var h := table[t.option].handler;
            var next := i + 1 + Arity(h);
            && (next > |argv| || h.TwoTexts? ==> Collect(table, argv, i, out).Err?)
            && (next <= |argv| && !h.TwoTexts? ==>
                 Collect(table, argv, i, out)
                 == Collect(table, argv, next, out[table[t.option].args[0] := Written(UseOf(t, h, argv[i + 1..next]).value)]))
  {
    hide IndexOf, Normal;
    IndexMeaning(table, |table|, Normal(argv[i]));
    var t := IndexOf(table, |table|)[Normal(argv[i])];
    assert Built(table[t.option]);
  }

  /** One use read, by what the option takes. */
  lemma UsesStep(table: Table, argv: seq<string>, i: nat)
    requires i < |argv| && Normal(argv[i]) in IndexOf(table, |table|)
    requires IndexOf(table, |table|)[Normal(argv[i])].option < |table|
    ensures var t := IndexOf(table, |table|)[Normal(argv[i])];
            var h := table[t.option].handler;
            var next := i + 1 + Arity(h);
            && (Uses(table, argv, i).Ok? <==> next <= |argv| && Uses(table, argv, next).Ok?)
            && (Uses(table, argv, i).Ok? ==>
                 Uses(table, argv, i).value == [UseOf(t, h, argv[i + 1..next])] + Uses(table, argv, next).value)
  {
    hide IndexOf, Normal;
  }

  lemma NoTwoFirst(use: Use, more: seq<Use>)
    ensures NoTwo([use] + more) <==> !use.value.Two? && NoTwo(more)
  {
    var all := [use] + more;
    assert all[0] == use && forall k :: 0 <= k < |more| ==> all[k + 1] == more[k];
  }

  lemma RecordFirst(table: Table, use: Use, more: seq<Use>, out: map<string, string>)
    requires BuiltTable(table) && use.option < |table| && KnownUses(table, more)
    ensures KnownUses(table, [use] + more)
    ensures Record(table, [use] + more, out) == Record(table, more, out[table[use.option].args[0] := Written(use.value)])
  {
    assert ([use] + more)[1..] == more;
  }

  /** The map loop accepts exactly if the list spells out uses without two values; it then records them in order. */
  lemma {:induction false} CollectUses(table: Table, argv: seq<string>, i: nat, out: map<string, string>)
    requires BuiltTable(table) && i <= |argv|
    ensures Collect(table, argv, i, out).Ok? <==> Uses(table, argv, i).Ok? && NoTwo(Uses(table, argv, i).value)
    ensures Collect(table, argv, i, out).Ok? ==>
              KnownUses(table, Uses(table, argv, i).value)
              && Collect(table, argv, i, out).value == Record(table, Uses(table, argv, i).value, out)
    decreases |argv| - i
  {
    hide IndexOf, Normal;
    if i < |argv| && Normal(argv[i]) in IndexOf(table, |table|) {
      hide Collect, Uses, NoTwo, Record, KnownUses;
      IndexMeaning(table, |table|, Normal(argv[i]));
      CollectStep(table, argv, i, out);
      UsesStep(table, argv, i);
      var t := IndexOf(table, |table|)[Normal(argv[i])];
      var h := table[t.option].handler;
      var next := i + 1 + Arity(h);
      if next <= |argv| {
        var use := UseOf(t, h, argv[i + 1..next]);
        if Uses(table, argv, next).Ok? {
          var more := Uses(table, argv, next).value;
          UsesKnown(table, argv, next);
          NoTwoFirst(use, more);
          RecordFirst(table, use, more, out);
        }
        if !h.TwoTexts? {
          CollectUses(table, argv, next, out[table[t.option].args[0] := Written(use.value)]);
        }
      }
    }
  }

  /**
   For any table the constructors build, both loops read the same uses. If there are none to read both refuse.
   Otherwise the handler loop accepts without a two-value option exactly if the map loop and the handlers accept; the
   results are then the handlers' and the record of the same uses.
   */
  lemma LoopsAgree<P>(table: Table, argv: seq<string>, handle: Handlers<P>, params: P, out: map<string, string>)
    requires BuiltTable(table) && |argv| > 0
    ensures Uses(table, argv, 1).Err? ==> Parse(table, argv, 1, handle, params).Err? && Collect(table, argv, 1, out).Err?
    ensures Uses(table, argv, 1).Ok? ==>
              var uses := Uses(table, argv, 1).value;
              var parsed, collected := Parse(table, argv, 1, handle, params), Collect(table, argv, 1, out);
              && KnownUses(table, uses)
              && (parsed.Ok? && NoTwo(uses) <==> collected.Ok? && Handle(uses, handle, params).Ok?)
              && (parsed.Ok? ==> parsed == Handle(uses, handle, params))
              && (collected.Ok? ==> collected.value == Record(table, uses, out))
  {
    hide Parse, Collect, Uses, Handle, Record, NoTwo;
    ParseUses(table, argv, 1, handle, params);
    CollectUses(table, argv, 1, out);
    if Uses(table, argv, 1).Ok? {
      UsesKnown(table, argv, 1);
    }
  }

  /** The last use of a key. */
  function LastUse(table: Table, uses: seq<Use>, key: string): (r: Option<nat>)
    requires BuiltTable(table) && KnownUses(table, uses)
    ensures r.Some? ==> r.value < |uses| && table[uses[r.value].option].args[0] == key
                        && forall k :: r.value < k < |uses| ==> table[uses[k].option].args[0] != key
    ensures r.None? ==> forall k :: 0 <= k < |uses| ==> table[uses[k].option].args[0] != key
  {
    if uses == [] then None
    else if table[uses[|uses| - 1].option].args[0] == key then Some(|uses| - 1)
    else LastUse(table, uses[..|uses| - 1], key)
  }

  /** The map holds the last value of every option used, and nothing else changes. */
  lemma {:induction false} RecordHoldsLast(table: Table, uses: seq<Use>, out: map<string, string>, key: string)
    requires BuiltTable(table) && KnownUses(table, uses)
    ensures var r, last := Record(table, uses, out), LastUse(table, uses, key);
            && (key in r <==> key in out || last.Some?)
            && (key in r && last.None? ==> r[key] == out[key])
            && (last.Some? ==>
                 match uses[last.value].value
                 case Flag(positive) => r[key] == if positive then "1" else "0"
                 case One(text) => r[key] == text
                 case Two(first, _) => r[key] == first)
    decreases |uses|
  {
    hide LastUse;
    if uses != [] {
      var next := out[table[uses[0].option].args[0] := Written(uses[0].value)];
      RecordHoldsLast(table, uses[1..], next, key);
      LastUseFirst(table, uses, key);
    }
  }

  lemma LastUseFirst(table: Table, uses: seq<Use>, key: string)
    requires BuiltTable(table) && KnownUses(table, uses) && uses != []
    ensures LastUse(table, uses, key) == (
              match LastUse(table, uses[1..], key)
              case Some(i) => Some(i + 1)
              case None => if table[uses[0].option].args[0] == key then Some(0) else None)
  {
    hide LastUse;
    var rest := uses[1..];
    assert forall k :: 0 < k < |uses| ==> uses[k] == rest[k - 1];
    var more := LastUse(table, rest, key);
    if more.Some? {
      assert table[uses[more.value + 1].option].args[0] == key;
    }
  }
}
