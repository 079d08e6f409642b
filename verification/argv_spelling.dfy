/** How command lines may be written: underscores for hyphens, and the lists that spell out a given series of uses. */
module ArgvSpelling {
  import opened Wrappers
  import opened Argv

  // ----- Underscores

  predicate OptionLike(s: string) {
    |s| >= 2 && s[0] == '-' && s[1] == '-'
  }

  /** Two ways of writing one argument. */
  predicate SameSpelling(s: string, t: string) {
    || s == t
    || (OptionLike(s) && OptionLike(t) && |s| == |t|
        && forall i :: 0 <= i < |s| ==> s[i] == t[i] || (s[i] == '_' && t[i] == '-') || (s[i] == '-' && t[i] == '_'))
  }

  /** An argument that begins with two hyphens is read with hyphens for underscores, any other as it is. */
  lemma NormalExactly(s: string)
    ensures !OptionLike(s) ==> Normal(s) == s
    ensures OptionLike(s) ==> |Normal(s)| == |s| && forall i :: 0 <= i < |s| ==> Normal(s)[i] == if s[i] == '_' then '-' else s[i]
  {
    if |s| >= 2 {
      assert s[..2] == [s[0], s[1]];
    }
  }

  lemma SameNormal(s: string, t: string)
    requires SameSpelling(s, t)
    ensures Normal(s) == Normal(t)
  {
    hide Normal;
    NormalExactly(s);
    NormalExactly(t);
  }

  // ----- One option at a time

  predicate Known(table: Table, s: string) {
    Normal(s) in IndexOf(table, |table|)
  }

  function Meant(table: Table, s: string): (t: Target)
    requires Known(table, s)
    ensures t.option < |table|
  {
    IndexMeaning(table, |table|, Normal(s));
    IndexOf(table, |table|)[Normal(s)]
  }

  /** How many values an option takes. */
  function ValueCount(table: Table, s: string): nat
    requires Known(table, s)
  {
    match table[Meant(table, s).option].handler
    case Void | Bool => 0
    case Int | Text => 1
    case TwoTexts => 2
  }

  /** What an option and its values say. */
  function Said(table: Table, s: string, values: seq<string>): Value
    requires Known(table, s) && |values| == ValueCount(table, s)
  {
    match table[Meant(table, s).option].handler
    case Void | Bool => Flag(Meant(table, s).positive)
    case Int | Text => One(values[0])
    case TwoTexts => Two(values[0], values[1])
  }

  /** The uses an argument list spells out, one option at a time. */
  lemma UsesExactly(table: Table, argv: seq<string>, i: nat)
    requires i < |argv|
    ensures !Known(table, argv[i]) ==> Uses(table, argv, i) == Err(UnknownOption)
    ensures Known(table, argv[i]) ==>
              var next := i + 1 + ValueCount(table, argv[i]);
              && (next > |argv| ==> Uses(table, argv, i) == Err(MissingValue))
              && (next <= |argv| && Uses(table, argv, next).Err? ==> Uses(table, argv, i) == Uses(table, argv, next))
              && (next <= |argv| && Uses(table, argv, next).Ok? ==>
                   Uses(table, argv, i)
                   == Ok([Use(Meant(table, argv[i]).option, Said(table, argv[i], argv[i + 1..next]))] + Uses(table, argv, next).value))
  {
    hide IndexOf, Normal;
  }

  lemma ParseExactly<P>(table: Table, argv: seq<string>, i: nat, handle: Handlers<P>, params: P)
    requires i < |argv|
    ensures !Known(table, argv[i]) ==> Parse(table, argv, i, handle, params) == Err(UnknownOption)
    ensures Known(table, argv[i]) ==>
              var next := i + 1 + ValueCount(table, argv[i]);
              && (next > |argv| ==> Parse(table, argv, i, handle, params) == Err(MissingValue))
              && (next <= |argv| ==>
                   var p := handle(params, Use(Meant(table, argv[i]).option, Said(table, argv[i], argv[i + 1..next])));
                   Parse(table, argv, i, handle, params) == if p.Ok? then Parse(table, argv, next, handle, p.value) else p)
  {
    hide IndexOf, Normal;
  }

  lemma CollectExactly(table: Table, argv: seq<string>, i: nat, out: map<string, string>)
    requires BuiltTable(table) && i < |argv|
    ensures !Known(table, argv[i]) ==> Collect(table, argv, i, out) == Err(UnknownOption)
    ensures Known(table, argv[i]) ==>
              var next := i + 1 + ValueCount(table, argv[i]);
              var opt := table[Meant(table, argv[i]).option];
              && (opt.handler.TwoTexts? || next > |argv| ==>
                   Collect(table, argv, i, out) == Err(if opt.handler.TwoTexts? && i + 1 < |argv| then TwoValues else MissingValue))
              && (!opt.handler.TwoTexts? && next <= |argv| ==>
                   Collect(table, argv, i, out)
                   == Collect(table, argv, next, out[opt.args[0] := Written(Said(table, argv[i], argv[i + 1..next]))]))
  {
    hide IndexOf, Normal;
    if Known(table, argv[i]) {
      IndexMeaning(table, |table|, Normal(argv[i]));
      assert Built(table[Meant(table, argv[i]).option]);
    }
  }

  // ----- Spelling an option differently

  /** Position k is where a loop that has come to position i looks for an option. */
  predicate ReadAsOption(table: Table, argv: seq<string>, i: nat, k: nat)
    requires i <= |argv|
    decreases |argv| - i
  {
    && i < |argv|
    && (k == i
        || (Known(table, argv[i])
            && i + 1 + ValueCount(table, argv[i]) <= |argv|
            && ReadAsOption(table, argv, i + 1 + ValueCount(table, argv[i]), k)))
  }

  lemma {:induction false} OptionsAhead(table: Table, argv: seq<string>, i: nat, k: nat)
    requires i <= |argv| && ReadAsOption(table, argv, i, k)
    ensures i <= k < |argv|
    decreases |argv| - i
  {
    if k != i {
      OptionsAhead(table, argv, i + 1 + ValueCount(table, argv[i]), k);
    }
  }

  /** Two lists that differ only in how the options a loop comes to from position i on are spelled. */
  predicate Respelled(table: Table, argv: seq<string>, argv': seq<string>, i: nat)
    requires i <= |argv|
  {
    && |argv'| == |argv|
    && forall k :: i <= k < |argv| ==> argv'[k] == argv[k] || (ReadAsOption(table, argv, i, k) && SameSpelling(argv[k], argv'[k]))
  }

  lemma RespelledNext(table: Table, argv: seq<string>, argv': seq<string>, i: nat)
    requires i < |argv| && Respelled(table, argv, argv', i)
    ensures SameSpelling(argv[i], argv'[i])
    ensures Known(table, argv[i]) ==>
              var next := i + 1 + ValueCount(table, argv[i]);
              next <= |argv| ==> Respelled(table, argv, argv', next) && argv'[i + 1..next] == argv[i + 1..next]
  {
    hide Known, ValueCount, SameSpelling;
    SameSpellingSelf(argv[i]);
    if Known(table, argv[i]) && i + 1 + ValueCount(table, argv[i]) <= |argv| {
      var next := i + 1 + ValueCount(table, argv[i]);
      forall k | i < k < |argv| && argv'[k] != argv[k]
        ensures next <= k && ReadAsOption(table, argv, next, k) && SameSpelling(argv[k], argv'[k])
      {
        assert ReadAsOption(table, argv, i, k);
        OptionsAhead(table, argv, next, k);
      }
    }
  }

  lemma SameSpellingSelf(s: string)
    ensures SameSpelling(s, s)
  {
  }

  lemma MeantAlike(table: Table, s: string, t: string)
    requires SameSpelling(s, t)
    ensures Known(table, s) <==> Known(table, t)
    ensures Known(table, s) ==> Meant(table, s) == Meant(table, t) && ValueCount(table, s) == ValueCount(table, t)
    ensures Known(table, s) ==> forall vs: seq<string> :: |vs| == ValueCount(table, s) ==> Said(table, s, vs) == Said(table, t, vs)
  {
    hide Normal, IndexOf;
    SameNormal(s, t);
  }

  lemma {:induction false} UsesAlike(table: Table, argv: seq<string>, argv': seq<string>, i: nat)
    requires i <= |argv| && Respelled(table, argv, argv', i)
    ensures Uses(table, argv', i) == Uses(table, argv, i)
    decreases |argv| - i
  {
    if i < |argv| {
      hide Uses, Known, ValueCount, Said, Meant, Respelled, SameSpelling;
      RespelledNext(table, argv, argv', i);
      MeantAlike(table, argv[i], argv'[i]);
      UsesExactly(table, argv, i);
      UsesExactly(table, argv', i);
      if Known(table, argv[i]) && i + 1 + ValueCount(table, argv[i]) <= |argv| {
        var next := i + 1 + ValueCount(table, argv[i]);
        var values := argv[i + 1..next];
        assert argv'[i + 1..next] == values && Said(table, argv'[i], values) == Said(table, argv[i], values);
        UsesAlike(table, argv, argv', next);
      }
    }
  }

  lemma {:induction false} ParseAlike<P>(table: Table, argv: seq<string>, argv': seq<string>, i: nat, handle: Handlers<P>, params: P)
    requires i <= |argv| && Respelled(table, argv, argv', i)
    ensures Parse(table, argv', i, handle, params) == Parse(table, argv, i, handle, params)
    decreases |argv| - i
  {
    if i < |argv| {
      hide Parse, Known, ValueCount, Said, Meant, Respelled, SameSpelling;
      RespelledNext(table, argv, argv', i);
      MeantAlike(table, argv[i], argv'[i]);
      ParseExactly(table, argv, i, handle, params);
      ParseExactly(table, argv', i, handle, params);
      if Known(table, argv[i]) && i + 1 + ValueCount(table, argv[i]) <= |argv| {
        var next := i + 1 + ValueCount(table, argv[i]);
        var p := handle(params, Use(Meant(table, argv[i]).option, Said(table, argv[i], argv[i + 1..next])));
        if p.Ok? {
          ParseAlike(table, argv, argv', next, handle, p.value);
        }
      }
    }
  }

  lemma {:induction false} CollectAlike(table: Table, argv: seq<string>, argv': seq<string>, i: nat, out: map<string, string>)
    requires BuiltTable(table) && i <= |argv| && Respelled(table, argv, argv', i)
    ensures Collect(table, argv', i, out) == Collect(table, argv, i, out)
    decreases |argv| - i
  {
    if i < |argv| {
      hide Collect, Written, Known, ValueCount, Said, Meant, Respelled, SameSpelling;
      RespelledNext(table, argv, argv', i);
      MeantAlike(table, argv[i], argv'[i]);
      CollectExactly(table, argv, i, out);
      CollectExactly(table, argv', i, out);
      if Known(table, argv[i]) && i + 1 + ValueCount(table, argv[i]) <= |argv| {
        var next := i + 1 + ValueCount(table, argv[i]);
        var said := Said(table, argv[i], argv[i + 1..next]);
        CollectAlike(table, argv, argv', next, out[table[Meant(table, argv[i]).option].args[0] := Written(said)]);
      }
    }
  }

  /** The spelling of options makes no difference to either loop. */
  lemma SpellingIsFree<P>(table: Table, argv: seq<string>, argv': seq<string>, handle: Handlers<P>, params: P, out: map<string, string>)
    requires BuiltTable(table) && |argv| > 0 && Respelled(table, argv, argv', 1)
    ensures Uses(table, argv', 1) == Uses(table, argv, 1)
    ensures Parse(table, argv', 1, handle, params) == Parse(table, argv, 1, handle, params)
    ensures Collect(table, argv', 1, out) == Collect(table, argv, 1, out)
  {
    UsesAlike(table, argv, argv', 1);
    ParseAlike(table, argv, argv', 1, handle, params);
    CollectAlike(table, argv, argv', 1, out);
  }

  // ----- Lists that spell out uses

  /** An option as written, and the values behind it. */
  datatype Spelled = Spelled(arg: string, values: seq<string>)

  predicate Understood(table: Table, list: seq<Spelled>) {
    forall k :: 0 <= k < |list| ==> Known(table, list[k].arg) && |list[k].values| == ValueCount(table, list[k].arg)
  }

  function Print(list: seq<Spelled>): seq<string> {
    if list == [] then [] else [list[0].arg] + list[0].values + Print(list[1..])
  }

  function Said1(table: Table, sp: Spelled): Use
    requires Known(table, sp.arg) && |sp.values| == ValueCount(table, sp.arg)
  {
    Use(Meant(table, sp.arg).option, Said(table, sp.arg, sp.values))
  }

  /** All that a list says. */
  function Meaning(table: Table, list: seq<Spelled>): (uses: seq<Use>)
    requires Understood(table, list)
    ensures |uses| == |list| && forall k :: 0 <= k < |list| ==> uses[k] == Said1(table, list[k])
  {
    seq(|list|, k requires 0 <= k < |list| => Said1(table, list[k]))
  }

  /** The arguments from position i on, cut into options with their values. */
  function Reading(table: Table, argv: seq<string>, i: nat): seq<Spelled>
    requires i <= |argv|
    decreases |argv| - i
  {
    if i == |argv| || !Known(table, argv[i]) then []
    else
      var next := i + 1 + ValueCount(table, argv[i]);
      if next > |argv| then [] else [Spelled(argv[i], argv[i + 1..next])] + Reading(table, argv, next)
  }

  lemma UnderstoodFirst(table: Table, sp: Spelled, more: seq<Spelled>)
    requires Understood(table, more) && Known(table, sp.arg) && |sp.values| == ValueCount(table, sp.arg)
    ensures Understood(table, [sp] + more)
    ensures Meaning(table, [sp] + more) == [Said1(table, sp)] + Meaning(table, more)
    ensures Print([sp] + more) == [sp.arg] + sp.values + Print(more)
  {
    hide Known, ValueCount, Said1, Understood, Print, Meaning;
    UnderstoodBoth(table, sp, more);
    PrintBoth(sp, more);
    var all := [sp] + more;
    forall k | 0 <= k < |all|
      ensures Meaning(table, all)[k] == ([Said1(table, sp)] + Meaning(table, more))[k]
    {
      if k > 0 {
        assert all[k] == more[k - 1];
      }
    }
  }

  lemma PrintBoth(sp: Spelled, more: seq<Spelled>)
    ensures Print([sp] + more) == [sp.arg] + sp.values + Print(more)
  {
    assert ([sp] + more)[1..] == more;
  }

  lemma UnderstoodBoth(table: Table, sp: Spelled, more: seq<Spelled>)
    requires Understood(table, more) && Known(table, sp.arg) && |sp.values| == ValueCount(table, sp.arg)
    ensures Understood(table, [sp] + more)
  {
    hide Known, ValueCount;
    var all := [sp] + more;
    forall k | 0 <= k < |all|
      ensures Known(table, all[k].arg) && |all[k].values| == ValueCount(table, all[k].arg)
    {
      if k > 0 {
        assert all[k] == more[k - 1];
      }
    }
  }

  lemma CutAt(argv: seq<string>, i: nat, next: nat)
    requires i < next <= |argv|
    ensures argv[i..] == [argv[i]] + argv[i + 1..next] + argv[next..]
  {
  }

  lemma CutLike(argv: seq<string>, i: nat, values: seq<string>, rest: seq<string>)
    requires i < |argv| && argv[i..][1..] == values + rest
    ensures var next := i + 1 + |values|; next <= |argv| && argv[i + 1..next] == values && argv[next..] == rest
  {
    var tail := argv[i + 1..];
    assert tail == values + rest;
    assert tail[..|values|] == values && tail[|values|..] == rest;
  }

  /** What is read as uses is written as options with as many values as each takes. */
  lemma {:induction false} UsesAreSpelled(table: Table, argv: seq<string>, i: nat)
    requires i <= |argv| && Uses(table, argv, i).Ok?
    ensures Understood(table, Reading(table, argv, i)) && Print(Reading(table, argv, i)) == argv[i..]
    decreases |argv| - i
  {
    hide Uses, Known, ValueCount, Understood, Print, Said, Meant, Meaning, Said1;
    if i == |argv| {
      NothingPrinted(table);
    } else {
      UsesExactly(table, argv, i);
      var next := i + 1 + ValueCount(table, argv[i]);
      UsesAreSpelled(table, argv, next);
      CutAt(argv, i, next);
      UnderstoodFirst(table, Spelled(argv[i], argv[i + 1..next]), Reading(table, argv, next));
    }
  }

  lemma NothingPrinted(table: Table)
    ensures Understood(table, []) && Print([]) == [] && Meaning(table, []) == []
  {
  }

  /** What is written so is read back, whatever stands before it. */
  lemma {:induction false} UsesOfPrinted(table: Table, argv: seq<string>, i: nat, list: seq<Spelled>)
    requires i <= |argv| && Understood(table, list) && argv[i..] == Print(list)
    ensures Uses(table, argv, i) == Ok(Meaning(table, list))
    decreases |list|
  {
    hide Known, ValueCount, Meant, Said, Uses, Understood, Meaning;
    if list == [] {
      NothingPrinted(table);
      NothingSpelled(table, argv);
    } else {
      var sp, rest := list[0], list[1..];
      var next := i + 1 + |sp.values|;
      PrintFirst(argv, i, list);
      UnderstoodRest(table, list);
      UsesExactly(table, argv, i);
      UsesOfPrinted(table, argv, next, rest);
      UnderstoodFirst(table, sp, rest);
      assert list == [sp] + rest;
    }
  }

  lemma NothingSpelled(table: Table, argv: seq<string>)
    ensures Uses(table, argv, |argv|) == Ok([])
  {
  }

  lemma PrintParts(list: seq<Spelled>)
    requires list != []
    ensures Print(list) != [] && Print(list)[0] == list[0].arg && Print(list)[1..] == list[0].values + Print(list[1..])
  {
    var values, rest := list[0].values, Print(list[1..]);
    assert [list[0].arg] + values + rest == [list[0].arg] + (values + rest);
  }

  lemma PrintFirst(argv: seq<string>, i: nat, list: seq<Spelled>)
    requires i <= |argv| && list != [] && argv[i..] == Print(list)
    ensures var next := i + 1 + |list[0].values|;
            i < next <= |argv| && argv[i] == list[0].arg && argv[i + 1..next] == list[0].values && argv[next..] == Print(list[1..])
  {
    hide Print;
    PrintParts(list);
    var printed := Print(list);
    assert i < |argv| && argv[i] == printed[0];
    CutLike(argv, i, list[0].values, Print(list[1..]));
  }

  lemma UnderstoodRest(table: Table, list: seq<Spelled>)
    requires Understood(table, list) && list != []
    ensures Understood(table, list[1..]) && Known(table, list[0].arg) && |list[0].values| == ValueCount(table, list[0].arg)
  {
    hide Known, ValueCount;
  }

  /** A list spells out uses exactly if it can be cut into options, each with the values it takes; they are what it says. */
  lemma SpelledOut(table: Table, argv: seq<string>, i: nat)
    requires i <= |argv|
    ensures Uses(table, argv, i).Ok? <==> exists list :: Understood(table, list) && Print(list) == argv[i..]
    ensures forall list :: Understood(table, list) && Print(list) == argv[i..] ==> Uses(table, argv, i) == Ok(Meaning(table, list))
  {
    hide Uses, Understood, Print, Reading, Known, ValueCount;
    if Uses(table, argv, i).Ok? {
      UsesAreSpelled(table, argv, i);
    }
    forall list | Understood(table, list) && Print(list) == argv[i..]
      ensures Uses(table, argv, i) == Ok(Meaning(table, list))
    {
      UsesOfPrinted(table, argv, i, list);
    }
  }

  // ----- Handling one after the other

  lemma {:induction false} HandleInOrder<P>(uses: seq<Use>, more: seq<Use>, handle: Handlers<P>, params: P)
    ensures uses == [] ==> Handle(uses, handle, params) == Ok(params)
    ensures |uses| == 1 ==> Handle(uses, handle, params) == handle(params, uses[0])
    ensures var first := Handle(uses, handle, params);
            Handle(uses + more, handle, params) == if first.Ok? then Handle(more, handle, first.value) else first
    decreases |uses|
  {
    if uses == [] {
      assert uses + more == more;
    } else {
      assert (uses + more)[1..] == uses[1..] + more;
      var p := handle(params, uses[0]);
      if p.Ok? {
        HandleInOrder(uses[1..], more, handle, p.value);
      }
    }
  }
}
