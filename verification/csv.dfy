/**
 One row of comma-separated values with quoted fields (self.llama/common/arg.cpp, parse_csv_row;
 compare section 2 of RFC 4180).
 */
module Csv {
  const QUOTE: char := '\"'
  const COMMA: char := ','

  /** Where the parser is: the fields finished, the field begun, and whether it is inside quotes. */
  datatype State = State(fields: seq<string>, field: string, inQuotes: bool)

  const START := State([], "", false)

  /** One character, or two for an escaped quote. */
  function Step(s: State, rest: string): (State, string)
    requires rest != ""
  {
    var c := rest[0];
    if c == QUOTE then
      if !s.inQuotes then
        if s.field != "" then (s.(field := s.field + [QUOTE]), rest[1..]) else (s.(inQuotes := true), rest[1..])
      else if |rest| > 1 && rest[1] == QUOTE then (s.(field := s.field + [QUOTE]), rest[2..])
      else (s.(inQuotes := false), rest[1..])
    else if c == COMMA then
      if s.inQuotes then (s.(field := s.field + [COMMA]), rest[1..])
      else (State(s.fields + [s.field], "", false), rest[1..])
    else (s.(field := s.field + [c]), rest[1..])
  }

  function Scan(s: State, rest: string): State
    decreases |rest|
  {
    if rest == "" then s else
      var (next, more) := Step(s, rest);
      Scan(next, more)
  }

  function Finish(s: State): seq<string> {
    s.fields + [s.field]
  }

  function Parse(row: string): seq<string> {
    Finish(Scan(START, row))
  }

  method ParseCsvRow(input: string) returns (fields: seq<string>)
    ensures fields == Parse(input)
  {
    fields := [];
    var field := "";
    var inQuotes := false;
    var i := 0;
    while i < |input|
      invariant i <= |input|
      invariant Scan(State(fields, field, inQuotes), input[i..]) == Scan(START, input)
    {
      assert input[i..][1..] == input[i + 1..];
      var ch := input[i];
      if ch == QUOTE {
        if !inQuotes {
          if field != "" {
            field := field + [QUOTE];
          } else {
            inQuotes := true;
          }
        } else {
          if i + 1 < |input| && input[i + 1] == QUOTE {
            assert input[i..][2..] == input[i + 2..];
            field := field + [QUOTE];
            i := i + 1;
          } else {
            inQuotes := false;
          }
        }
      } else if ch == COMMA {
        if inQuotes {
          field := field + [COMMA];
        } else {
          fields := fields + [field];
          field := "";
        }
      } else {
        field := field + [ch];
      }
      i := i + 1;
    }
    fields := fields + [field];
  }

  // ----- Printing

  function Escape(field: string): string {
    if field == "" then ""
    else (if field[0] == QUOTE then [QUOTE, QUOTE] else [field[0]]) + Escape(field[1..])
  }

  predicate CanBeBare(field: string) {
    COMMA !in field && (field == "" || field[0] != QUOTE)
  }

  function PrintField(field: string, quoted: bool): string {
    if quoted then [QUOTE] + Escape(field) + [QUOTE] else field
  }

  function Print(fields: seq<string>, quoted: seq<bool>): string
    requires |fields| == |quoted| > 0
  {
    var first := PrintField(fields[0], quoted[0]);
    if |fields| == 1 then first else first + [COMMA] + Print(fields[1..], quoted[1..])
  }

  predicate StartsWithQuote(s: string) {
    s != "" && s[0] == QUOTE
  }

  /** Bare text is taken as it is, once it cannot be mistaken for an opening quote. */
  lemma {:induction false} ScanBare(s: State, text: string, rest: string)
    requires !s.inQuotes && COMMA !in text && (s.field != "" || !StartsWithQuote(text))
    ensures Scan(s, text + rest) == Scan(s.(field := s.field + text), rest)
    decreases |text|
  {
    if text == "" {
      assert text + rest == rest && s.field + text == s.field;
    } else {
      var next := s.(field := s.field + [text[0]]);
      assert (text + rest)[1..] == text[1..] + rest;
      assert Step(s, text + rest) == (next, text[1..] + rest);
      ScanBare(next, text[1..], rest);
      assert next.field + text[1..] == s.field + text;
    }
  }

  /** Inside quotes one character of an escaped field is taken. */
  lemma EscapedStep(s: State, field: string, rest: string)
    requires s.inQuotes && field != ""
    ensures Escape(field) + [QUOTE] + rest != ""
    ensures Step(s, Escape(field) + [QUOTE] + rest)
         == (s.(field := s.field + [field[0]]), Escape(field[1..]) + [QUOTE] + rest)
  {
    var head := if field[0] == QUOTE then [QUOTE, QUOTE] else [field[0]];
    var more := Escape(field[1..]) + [QUOTE] + rest;
    Grouped(head, Escape(field[1..]), [QUOTE], rest);
    assert (head + more)[|head|..] == more;
  }

  lemma Grouped(a: string, b: string, c: string, d: string)
    ensures a + b + c + d == a + (b + c + d)
  {
  }

  /** Inside quotes an escaped field is taken back to what it was; the quote after it closes. */
  lemma {:induction false} ScanEscaped(s: State, field: string, rest: string)
    requires s.inQuotes && !StartsWithQuote(rest)
    ensures Scan(s, Escape(field) + [QUOTE] + rest) == Scan(s.(field := s.field + field, inQuotes := false), rest)
    decreases |field|
  {
    if field == "" {
      var all := Escape(field) + [QUOTE] + rest;
      assert all == [QUOTE] + rest && all[1..] == rest;
      assert s.field + field == s.field;
      assert Step(s, all) == (s.(inQuotes := false), rest);
    } else {
      hide Step, Escape;
      EscapedStep(s, field, rest);
      var next := s.(field := s.field + [field[0]]);
      ScanEscaped(next, field[1..], rest);
      assert next.field + field[1..] == s.field + field;
    }
  }

  lemma ScanField(s: State, field: string, quoted: bool, rest: string)
    requires !s.inQuotes && s.field == "" && (quoted || CanBeBare(field)) && !StartsWithQuote(rest)
    ensures Scan(s, PrintField(field, quoted) + rest) == Scan(s.(field := field), rest)
  {
    if quoted {
      var all := PrintField(field, quoted) + rest;
      var more := Escape(field) + [QUOTE] + rest;
      assert all == [QUOTE] + more && all[1..] == more;
      assert Step(s, all) == (s.(inQuotes := true), more);
      ScanEscaped(s.(inQuotes := true), field, rest);
      assert s.field + field == field;
    } else {
      ScanBare(s, field, rest);
      assert s.field + field == field;
    }
  }

  lemma {:induction false} ScanPrinted(done: seq<string>, fields: seq<string>, quoted: seq<bool>)
    requires |fields| == |quoted| > 0
    requires forall i :: 0 <= i < |fields| ==> quoted[i] || CanBeBare(fields[i])
    ensures Finish(Scan(State(done, "", false), Print(fields, quoted))) == done + fields
    decreases |fields|
  {
    var s := State(done, "", false);
    var first := PrintField(fields[0], quoted[0]);
    if |fields| == 1 {
      assert first + "" == first;
      ScanField(s, fields[0], quoted[0], "");
      assert done + fields == done + [fields[0]];
    } else {
      var tail := Print(fields[1..], quoted[1..]);
      var rest := [COMMA] + tail;
      assert Print(fields, quoted) == first + rest;
      ScanField(s, fields[0], quoted[0], rest);
      assert rest[1..] == tail;
      assert Step(s.(field := fields[0]), rest) == (State(done + [fields[0]], "", false), tail);
      ScanPrinted(done + [fields[0]], fields[1..], quoted[1..]);
      assert done + [fields[0]] + fields[1..] == done + fields;
    }
  }

  /** Any fields, each printed quoted or, where that is possible, bare, are read back. */
  lemma RoundTrip(fields: seq<string>, quoted: seq<bool>)
    requires |fields| == |quoted| > 0
    requires forall i :: 0 <= i < |fields| ==> quoted[i] || CanBeBare(fields[i])
    ensures Parse(Print(fields, quoted)) == fields
  {
    ScanPrinted([], fields, quoted);
  }

  function Size(fields: seq<string>): nat {
    if fields == [] then 0 else Size(fields[..|fields| - 1]) + |fields[|fields| - 1]| + 1
  }

  lemma SizeOneMore(fields: seq<string>, field: string)
    ensures Size(fields + [field]) == Size(fields) + |field| + 1
  {
    assert (fields + [field])[..|fields|] == fields;
  }

  /** No character counts twice. */
  lemma {:induction false} ScanSize(s: State, rest: string)
    ensures Size(Finish(Scan(s, rest))) <= Size(Finish(s)) + |rest|
    decreases |rest|
  {
    hide Size;
    SizeOneMore(s.fields, s.field);
    if rest != "" {
      var (next, more) := Step(s, rest);
      SizeOneMore(next.fields, next.field);
      if next.fields != s.fields {
        SizeOneMore(s.fields, s.field);
      }
      ScanSize(next, more);
    }
  }

  lemma FirstComma(text: string) returns (k: nat)
    requires COMMA in text
    ensures k < |text| && text[k] == COMMA && COMMA !in text[..k]
  {
    k := 0;
    while text[k] != COMMA
      invariant k < |text| && COMMA !in text[..k] && COMMA in text[k..]
      decreases |text| - k
    {
      k := k + 1;
    }
  }

  lemma QuoteIsNotBare(field: string)
    requires StartsWithQuote(field)
    ensures Parse(field) != [field]
  {
    var s := START.(inQuotes := true);
    ScanQuote(field);
    ScanSize(s, field[1..]);
    OneSize("");
    OneSize(field);
    assert Finish(s) == [""];
  }

  lemma ScanQuote(field: string)
    requires StartsWithQuote(field)
    ensures Parse(field) == Finish(Scan(START.(inQuotes := true), field[1..]))
  {
    assert Step(START, field) == (START.(inQuotes := true), field[1..]);
  }

  lemma OneSize(field: string)
    ensures Size([field]) == |field| + 1
  {
    assert [field][..0] == [];
  }

  lemma CommaIsNotBare(field: string)
    requires COMMA in field && !StartsWithQuote(field)
    ensures Parse(field) != [field]
  {
    var k := FirstComma(field);
    var front, rest := field[..k], field[k..];
    assert field == front + rest;
    ScanBare(START, front, rest);
    var s := State([front], "", false);
    var t := START.(field := front);
    assert START.(field := START.field + front) == t;
    assert t.fields + [t.field] == [front];
    assert Step(t, rest) == (s, rest[1..]);
    ScanGrows(s, rest[1..]);
  }

  /** Exactly the fields without comma or opening quote may be printed bare. */
  lemma BareExactly(field: string)
    ensures Parse(field) == [field] <==> CanBeBare(field)
  {
    hide Parse;
    if CanBeBare(field) {
      RoundTrip([field], [false]);
    } else if StartsWithQuote(field) {
      QuoteIsNotBare(field);
    } else {
      CommaIsNotBare(field);
    }
  }

  // ----- Commas outside quotes

  /** Text after a comma does not change how the text before it is read. */
  lemma {:induction false} ScanOn(s: State, a: string, b: string)
    requires !StartsWithQuote(b)
    ensures Scan(s, a + b) == Scan(Scan(s, a), b)
    decreases |a|
  {
    if a == "" {
      assert a + b == b;
    } else {
      var (next, more) := Step(s, a);
      assert Step(s, a + b) == (next, more + b) by {
        assert (a + b)[1..] == a[1..] + b;
        if |a| > 1 {
          assert (a + b)[2..] == a[2..] + b;
        }
      }
      ScanOn(next, more, b);
    }
  }

  /** Finished fields stay, and only they come first. */
  lemma {:induction false} ScanFrom(done: seq<string>, s: State, rest: string)
    ensures Scan(State(done + s.fields, s.field, s.inQuotes), rest)
         == Scan(s, rest).(fields := done + Scan(s, rest).fields)
    decreases |rest|
  {
    if rest != "" {
      var (next, more) := Step(s, rest);
      assert done + (s.fields + [s.field]) == done + s.fields + [s.field];
      ScanFrom(done, next, more);
    }
  }

  /** The field begun only grows, and becomes the next to be finished. */
  lemma {:induction false} ScanGrows(s: State, rest: string)
    ensures var all := Finish(Scan(s, rest));
            |all| > |s.fields| && all[..|s.fields|] == s.fields && |all[|s.fields|]| >= |s.field|
    decreases |rest|
  {
    if rest != "" {
      var (next, more) := Step(s, rest);
      ScanGrows(next, more);
      if |next.fields| > |s.fields| {
        assert next.fields == s.fields + [s.field];
        var all := Finish(Scan(next, more));
        assert all[|s.fields|] == all[..|next.fields|][|s.fields|];
        assert all[..|s.fields|] == all[..|next.fields|][..|s.fields|];
      }
    }
  }

  predicate EndsInQuotes(row: string) {
    Scan(START, row).inQuotes
  }

  /** A row splits at a comma exactly if what is before the comma does not end inside quotes. */
  lemma SplitsAtComma(a: string, b: string)
    ensures Parse(a + [COMMA] + b) == Parse(a) + Parse(b) <==> !EndsInQuotes(a)
  {
    var rest := [COMMA] + b;
    var s := Scan(START, a);
    assert a + [COMMA] + b == a + rest;
    ScanOn(START, a, rest);
    assert rest[1..] == b;
    if s.inQuotes {
      var t := s.(field := s.field + [COMMA]);
      assert Step(s, rest) == (t, b);
      ScanGrows(t, b);
      assert (Parse(a) + Parse(b))[|s.fields|] == s.field;
    } else {
      assert Step(s, rest) == (State(s.fields + [s.field], "", false), b);
      ScanFrom(s.fields + [s.field], START, b);
      assert s.fields + [s.field] + START.fields == s.fields + [s.field];
      assert Parse(a) + Parse(b) == s.fields + [s.field] + Scan(START, b).fields + [Scan(START, b).field];
    }
  }
}
