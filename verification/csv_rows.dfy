/** Every row there is: what stands between the commas that separate, and how it is read. */
module CsvRows {
  import opened Csv

  /**
   What stands between two separating commas: bare text; a field in quotes, with text behind them; or, at the end of a
   row, quotes that are never closed.
   */
  datatype Chunk = Bare(text: string) | Quoted(field: string, tail: string) | Open(field: string)

  /** How it is written; a quote inside quotes is doubled. */
  function Written(c: Chunk): string {
    match c
    case Bare(text) => text
    case Quoted(field, tail) => [QUOTE] + Escape(field) + [QUOTE] + tail
    case Open(field) => [QUOTE] + Escape(field)
  }

  /** What it is read as. */
  function Field(c: Chunk): string {
    match c
    case Bare(text) => text
    case Quoted(field, tail) => field + tail
    case Open(field) => field
  }

  /** Text outside quotes has no comma, and does not begin with a quote. */
  predicate WellFormed(c: Chunk) {
    match c
    case Bare(text) => CanBeBare(text)
    case Quoted(_, tail) => CanBeBare(tail)
    case Open(_) => true
  }

  /** Chunks of a row: only the last may be open. */
  predicate IsRow(chunks: seq<Chunk>) {
    && chunks != []
    && (forall i :: 0 <= i < |chunks| ==> WellFormed(chunks[i]))
    && (forall i :: 0 <= i < |chunks| - 1 ==> !chunks[i].Open?)
  }

  function Row(chunks: seq<Chunk>): string
    requires chunks != []
  {
    if |chunks| == 1 then Written(chunks[0]) else Written(chunks[0]) + [COMMA] + Row(chunks[1..])
  }

  function Fields(chunks: seq<Chunk>): (fields: seq<string>)
    ensures |fields| == |chunks| && forall i :: 0 <= i < |chunks| ==> fields[i] == Field(chunks[i])
  {
    seq(|chunks|, i requires 0 <= i < |chunks| => Field(chunks[i]))
  }

  // ----- Reading a row of chunks

  lemma OpenStep(s: State, field: string)
    requires s.inQuotes && field != ""
    ensures Escape(field) != ""
    ensures Step(s, Escape(field)) == (s.(field := s.field + [field[0]]), Escape(field[1..]))
  {
    var more := Escape(field[1..]);
    if field[0] == QUOTE {
      assert Escape(field)[2..] == more;
    } else {
      assert Escape(field)[1..] == more;
    }
  }

  lemma {:induction false} ScanOpen(s: State, field: string)
    requires s.inQuotes
    ensures Scan(s, Escape(field)) == s.(field := s.field + field)
    decreases |field|
  {
    if field == "" {
      assert s.field + field == s.field;
    } else {
      hide Step, Escape;
      var next := s.(field := s.field + [field[0]]);
      OpenStep(s, field);
      ScanOpen(next, field[1..]);
      assert next.field + field[1..] == s.field + field;
    }
  }

  lemma ScanChunk(s: State, c: Chunk, rest: string)
    requires !s.inQuotes && s.field == "" && WellFormed(c) && !c.Open? && (rest == "" || rest[0] == COMMA)
    ensures Scan(s, Written(c) + rest) == Scan(s.(field := Field(c)), rest)
  {
    match c
    case Bare(text) =>
      ScanBare(s, text, rest);
      assert s.field + text == text;
    case Quoted(field, tail) =>
      var more := Escape(field) + [QUOTE] + (tail + rest);
      assert Written(c) + rest == [QUOTE] + more && ([QUOTE] + more)[1..] == more;
      assert Step(s, [QUOTE] + more) == (s.(inQuotes := true), more);
      ScanEscaped(s.(inQuotes := true), field, tail + rest);
      assert s.field + field == field;
      ScanBare(s.(field := field), tail, rest);
  }

  lemma ScanOpened(s: State, field: string)
    requires !s.inQuotes && s.field == ""
    ensures Scan(s, Written(Open(field))) == s.(field := field, inQuotes := true)
  {
    var all := [QUOTE] + Escape(field);
    assert all[1..] == Escape(field);
    assert Step(s, all) == (s.(inQuotes := true), Escape(field));
    ScanOpen(s.(inQuotes := true), field);
    assert s.field + field == field;
  }

  lemma {:induction false} ScanRow(done: seq<string>, chunks: seq<Chunk>)
    requires IsRow(chunks)
    ensures var s := Scan(State(done, "", false), Row(chunks));
            Finish(s) == done + Fields(chunks) && (s.inQuotes <==> chunks[|chunks| - 1].Open?)
    decreases |chunks|
  {
    hide Step, Written, Field, WellFormed;
    var s, c := State(done, "", false), chunks[0];
    if |chunks| == 1 {
      assert Written(c) + "" == Written(c) && Fields(chunks) == [Field(c)];
      if c.Open? {
        ScanOpened(s, c.field);
        OpenField(c);
      } else {
        ScanChunk(s, c, "");
      }
    } else {
      var more, tail := chunks[1..], Row(chunks[1..]);
      var rest := [COMMA] + tail;
      assert Row(chunks) == Written(c) + rest;
      ScanChunk(s, c, rest);
      AtComma(s.(field := Field(c)), tail);
      ScanRow(done + [Field(c)], more);
      assert done + Fields(chunks) == done + [Field(c)] + Fields(more);
    }
  }

  lemma OpenField(c: Chunk)
    requires c.Open?
    ensures c == Open(c.field) && Field(c) == c.field
  {
  }

  lemma AtComma(s: State, tail: string)
    requires !s.inQuotes
    ensures Scan(s, [COMMA] + tail) == Scan(State(s.fields + [s.field], "", false), tail)
  {
    assert ([COMMA] + tail)[1..] == tail;
  }

  // ----- Every text is such a row

  /** The text inside quotes up to where they close, or to the end. */
  lemma {:induction false} InsideQuotes(t: string) returns (field: string, rest: string)
    ensures t == Escape(field) + rest
    ensures rest == "" || (rest[0] == QUOTE && !StartsWithQuote(rest[1..]))
    decreases |t|
  {
    if t == "" || (t[0] == QUOTE && !StartsWithQuote(t[1..])) {
      field, rest := "", t;
    } else {
      var k := if t[0] == QUOTE then 2 else 1;
      var more;
      more, rest := InsideQuotes(t[k..]);
      field := [t[0]] + more;
      assert field[1..] == more;
      assert t == t[..k] + t[k..] && t[..k] == if t[0] == QUOTE then [QUOTE, QUOTE] else [t[0]];
      EscapeFirst(t[0], more);
    }
  }

  lemma EscapeFirst(c: char, more: string)
    ensures Escape([c] + more) == (if c == QUOTE then [QUOTE, QUOTE] else [c]) + Escape(more)
  {
    assert ([c] + more)[1..] == more;
  }

  function CommaAt(t: string): (n: nat)
    ensures n <= |t| && COMMA !in t[..n] && (n < |t| ==> t[n] == COMMA)
  {
    if t == "" || t[0] == COMMA then 0 else 1 + CommaAt(t[1..])
  }

  lemma Regroup(a: string, b: string, c: string, d: string, n: nat)
    requires n <= |d|
    ensures a + (b + (c + d)) == a + b + c + d[..n] + d[n..]
  {
    assert d == d[..n] + d[n..];
  }

  /** The first chunk of a text, and what follows its comma, if there is one. */
  lemma FirstChunk(t: string) returns (c: Chunk, rest: string)
    ensures WellFormed(c) && t == Written(c) + rest
    ensures rest == "" || (rest[0] == COMMA && !c.Open?)
  {
    if StartsWithQuote(t) {
      var field, more := InsideQuotes(t[1..]);
      assert t == [QUOTE] + t[1..];
      if more == "" {
        c, rest := Open(field), "";
      } else {
        var behind := more[1..];
        var n := CommaAt(behind);
        c, rest := Quoted(field, behind[..n]), behind[n..];
        assert more == [QUOTE] + behind;
        Regroup([QUOTE], Escape(field), [QUOTE], behind, n);
      }
    } else {
      var n := CommaAt(t);
      c, rest := Bare(t[..n]), t[n..];
    }
  }

  /** Every text is a row of chunks. */
  lemma {:induction false} EveryRow(t: string) returns (chunks: seq<Chunk>)
    ensures IsRow(chunks) && Row(chunks) == t
    decreases |t|
  {
    hide WellFormed, Written;
    var c, rest := FirstChunk(t);
    if rest == "" {
      chunks := [c];
    } else {
      var more := EveryRow(rest[1..]);
      chunks := [c] + more;
      assert chunks[1..] == more;
      assert rest == [COMMA] + rest[1..];
    }
  }

  /** So a text has one meaning: the fields of its chunks, however it is divided into them. */
  lemma ParseExactly(t: string)
    ensures exists chunks :: IsRow(chunks) && Row(chunks) == t
    ensures forall chunks: seq<Chunk> :: IsRow(chunks) && Row(chunks) == t ==>
              Parse(t) == Fields(chunks) && (EndsInQuotes(t) <==> chunks[|chunks| - 1].Open?)
  {
    hide Row, Scan, WellFormed;
    var some := EveryRow(t);
    forall chunks: seq<Chunk> | IsRow(chunks) && Row(chunks) == t
      ensures Parse(t) == Fields(chunks) && (EndsInQuotes(t) <==> chunks[|chunks| - 1].Open?)
    {
      ScanRow([], chunks);
      assert [] + Fields(chunks) == Fields(chunks);
    }
  }
}
