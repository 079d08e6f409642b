/**
 Breaking help text into lines no wider than asked (self.llama/common/arg.cpp, break_str_into_lines).
 */
module Wrapping {
  // ----- Reading lines and words

  /** The characters that separate words. */
  predicate IsSpace(c: char) {
    c == ' ' || c == '\t' || c == '\n' || c == '\r' || c == '\U{0B}' || c == '\U{0C}'
  }

  function LineEnd(s: string): (n: nat)
    ensures n <= |s| && (n < |s| ==> s[n] == '\n') && '\n' !in s[..n]
  {
    if s == "" || s[0] == '\n' then 0 else 1 + LineEnd(s[1..])
  }

  /** The lines of a text; a newline at the very end begins no further line. */
  function Lines(s: string): seq<string>
    decreases |s|
  {
    if s == "" then []
    else
      var n := LineEnd(s);
      if n == |s| then [s] else [s[..n]] + Lines(s[n + 1..])
  }

  function WordEnd(s: string): (n: nat)
    ensures n <= |s|
  {
    if s == "" || IsSpace(s[0]) then 0 else 1 + WordEnd(s[1..])
  }

  /** The words of a line. */
  function Words(s: string): seq<string>
    decreases |s|
  {
    if s == "" then []
    else if IsSpace(s[0]) then Words(s[1..])
    else [s[..WordEnd(s)]] + Words(s[WordEnd(s)..])
  }

  predicate IsWord(w: string) {
    w != "" && forall i :: 0 <= i < |w| ==> !IsSpace(w[i])
  }

  // ----- Lines of words

  function Join(words: seq<string>): string {
    if words == [] then ""
    else if |words| == 1 then words[0]
    else Join(words[..|words| - 1]) + " " + words[|words| - 1]
  }

  function Flatten(groups: seq<seq<string>>): seq<string> {
    if groups == [] then [] else groups[0] + Flatten(groups[1..])
  }

  function JoinAll(groups: seq<seq<string>>): seq<string> {
    if groups == [] then [] else [Join(groups[0])] + JoinAll(groups[1..])
  }

  predicate Fits(group: seq<string>, max: nat) {
    |Join(group)| <= max || |group| == 1
  }

  /** Words divided into lines that fit. */
  predicate Grouping(groups: seq<seq<string>>, words: seq<string>, max: nat) {
    Flatten(groups) == words && forall i :: 0 <= i < |groups| ==> groups[i] != [] && Fits(groups[i], max)
  }

  /** The current line takes the next word if there is room. */
  function Greedy(current: seq<string>, rest: seq<string>, max: nat): seq<seq<string>>
    decreases |rest|
  {
    if rest == [] then (if current == [] then [] else [current])
    else if current != [] && |Join(current)| + 1 + |rest[0]| > max then [current] + Greedy([rest[0]], rest[1..], max)
    else Greedy(current + [rest[0]], rest[1..], max)
  }

  function WrapLine(line: string, max: nat): seq<string> {
    if |line| <= max then [line] else JoinAll(Greedy([], Words(line), max))
  }

  function BreakLines(lines: seq<string>, max: nat): seq<string> {
    if lines == [] then [] else BreakLines(lines[..|lines| - 1], max) + WrapLine(lines[|lines| - 1], max)
  }

  lemma JoinOneMore(words: seq<string>, w: string)
    ensures Join(words + [w]) == if words == [] then w else Join(words) + " " + w
  {
    if words == [] {
      assert words + [w] == [w];
    } else {
      assert (words + [w])[..|words|] == words;
    }
  }

  // ----- The loop

  lemma {:induction false} AllWords(s: string)
    ensures forall i :: 0 <= i < |Words(s)| ==> IsWord(Words(s)[i])
    decreases |s|
  {
    if s != "" {
      if IsSpace(s[0]) {
        AllWords(s[1..]);
      } else {
        WordIsWord(s);
        AllWords(s[WordEnd(s)..]);
      }
    }
  }

  lemma {:induction false} WordIsWord(s: string)
    ensures forall i :: 0 <= i < WordEnd(s) ==> !IsSpace(s[i])
    decreases |s|
  {
    if s != "" && !IsSpace(s[0]) {
      WordIsWord(s[1..]);
    }
  }

  lemma StartsEmpty()
    ensures Join([]) == "" && JoinAll([]) == []
  {
  }

  lemma JoinAllFirst(group: seq<string>, groups: seq<seq<string>>)
    ensures JoinAll([group] + groups) == [Join(group)] + JoinAll(groups)
  {
    assert ([group] + groups)[1..] == groups;
  }

  /** What one more word does. */
  lemma WrapStep(current: seq<string>, rest: seq<string>, max: nat)
    requires rest != []
    ensures JoinAll(Greedy(current, rest, max)) == (
              if current != [] && |Join(current)| + 1 + |rest[0]| > max then [Join(current)] + JoinAll(Greedy([rest[0]], rest[1..], max))
              else JoinAll(Greedy(current + [rest[0]], rest[1..], max)))
  {
    hide Join;
    if current != [] && |Join(current)| + 1 + |rest[0]| > max {
      JoinAllFirst(current, Greedy([rest[0]], rest[1..], max));
    }
  }

  lemma WrapEnd(current: seq<string>, max: nat)
    ensures JoinAll(Greedy(current, [], max)) == if current == [] then [] else [Join(current)]
  {
    if current != [] {
      JoinAllFirst(current, []);
      assert [current] + [] == [current];
    }
  }

  /** Of the lines, result is finished; the current one holds these words, and words[i..] are to come. */
  predicate Wrapped(words: seq<string>, i: nat, max: nat, result: seq<string>, current: seq<string>)
    requires i <= |words|
  {
    JoinAll(Greedy([], words, max)) == result + JoinAll(Greedy(current, words[i..], max))
  }

  lemma WrapBreaks(words: seq<string>, i: nat, max: nat, result: seq<string>, current: seq<string>)
    requires i < |words| && Wrapped(words, i, max, result, current)
    requires current != [] && |Join(current)| + 1 + |words[i]| > max
    ensures Wrapped(words, i + 1, max, result + [Join(current)], [words[i]])
  {
    hide Join, JoinAll, Greedy;
    WrapStep(current, words[i..], max);
    assert words[i..][1..] == words[i + 1..];
    var more := JoinAll(Greedy([words[i]], words[i + 1..], max));
    assert result + ([Join(current)] + more) == result + [Join(current)] + more;
  }

  lemma WrapTakes(words: seq<string>, i: nat, max: nat, result: seq<string>, current: seq<string>)
    requires i < |words| && Wrapped(words, i, max, result, current)
    requires current == [] || |Join(current)| + 1 + |words[i]| <= max
    ensures Wrapped(words, i + 1, max, result, current + [words[i]])
  {
    hide Join, JoinAll, Greedy;
    WrapStep(current, words[i..], max);
    assert words[i..][1..] == words[i + 1..];
  }

  lemma WrapStarts(words: seq<string>, max: nat)
    ensures Wrapped(words, 0, max, [], [])
  {
    assert words[0..] == words;
  }

  lemma WrapEnds(words: seq<string>, max: nat, result: seq<string>, current: seq<string>)
    requires Wrapped(words, |words|, max, result, current)
    ensures JoinAll(Greedy([], words, max)) == if current == [] then result else result + [Join(current)]
  {
    hide Join, JoinAll, Greedy;
    WrapEnd(current, max);
    assert words[|words|..] == [] && result + [] == result;
  }

  lemma JoinOne(word: string)
    ensures Join([word]) == word
  {
  }

  method AddLine(line: string, max: nat) returns (result: seq<string>)
    ensures result == WrapLine(line, max)
  {
    result := [];
    if |line| <= max {
      return [line];
    }
    hide Words, JoinAll, Greedy, Join, Wrapped;
    var words := Words(line);
    AllWords(line);
    StartsEmpty();
    WrapStarts(words, max);
    var currentLine := "";
    ghost var current := [];
    for i := 0 to |words|
      invariant currentLine == Join(current) && (current == [] <==> currentLine == "")
      invariant Wrapped(words, i, max, result, current)
    {
      var word := words[i];
      assert IsWord(word);
      JoinOneMore(current, word);
      JoinOne(word);
      if |currentLine| + (if currentLine != "" then 1 else 0) + |word| > max {
        if currentLine != "" {
          WrapBreaks(words, i, max, result, current);
          result := result + [currentLine];
        } else {
          WrapTakes(words, i, max, result, current);
          assert current + [word] == [word];
        }
        currentLine := word;
        current := [word];
      } else {
        WrapTakes(words, i, max, result, current);
        currentLine := currentLine + (if currentLine != "" then " " else "") + word;
        current := current + [word];
      }
    }
    WrapEnds(words, max, result, current);
    if currentLine != "" {
      result := result + [currentLine];
    }
  }

  method BreakIntoLines(input: string, max: nat) returns (result: seq<string>)
    ensures result == BreakLines(Lines(input), max)
  {
    var lines := Lines(input);
    result := [];
    for i := 0 to |lines|
      invariant result == BreakLines(lines[..i], max)
    {
      assert lines[..i + 1][..i] == lines[..i];
      var more := AddLine(lines[i], max);
      result := result + more;
    }
    assert lines[..|lines|] == lines;
  }

  // ----- The words stay

  lemma {:induction false} WordEndBefore(a: string, c: char, b: string)
    requires IsSpace(c)
    ensures WordEnd(a + [c] + b) == WordEnd(a)
    decreases |a|
  {
    if a == "" {
      assert (a + [c] + b)[0] == c;
    } else {
      assert (a + [c] + b)[1..] == a[1..] + [c] + b;
      WordEndBefore(a[1..], c, b);
    }
  }

  lemma {:induction false} WordsAppend(a: string, c: char, b: string)
    requires IsSpace(c)
    ensures Words(a + [c] + b) == Words(a) + Words(b)
    decreases |a|
  {
    var s := a + [c] + b;
    if a == "" {
      assert s[0] == c && s[1..] == b;
    } else if IsSpace(a[0]) {
      assert s[1..] == a[1..] + [c] + b;
      WordsAppend(a[1..], c, b);
    } else {
      var n := WordEnd(a);
      WordEndBefore(a, c, b);
      assert s[..n] == a[..n] && s[n..] == a[n..] + [c] + b;
      WordsAppend(a[n..], c, b);
    }
  }

  lemma {:induction false} WordEndWord(w: string)
    requires forall i :: 0 <= i < |w| ==> !IsSpace(w[i])
    ensures WordEnd(w) == |w|
    decreases |w|
  {
    if w != "" {
      WordEndWord(w[1..]);
    }
  }

  predicate AreWords(words: seq<string>) {
    forall i :: 0 <= i < |words| ==> IsWord(words[i])
  }

  lemma {:induction false} WordsOfJoin(words: seq<string>)
    requires AreWords(words)
    ensures Words(Join(words)) == words
    decreases |words|
  {
    if words != [] {
      var n := |words| - 1;
      var last := words[n];
      WordEndWord(last);
      assert last[..|last|] == last && last[|last|..] == "";
      assert Words(last) == [last];
      if n > 0 {
        WordsOfJoin(words[..n]);
        WordsAppend(Join(words[..n]), ' ', last);
      }
      assert words == words[..n] + [last];
    }
  }

  function AllWordsOf(lines: seq<string>): seq<string> {
    if lines == [] then [] else Words(lines[0]) + AllWordsOf(lines[1..])
  }

  lemma {:induction false} WordsOfJoined(groups: seq<seq<string>>)
    requires forall i :: 0 <= i < |groups| ==> AreWords(groups[i])
    ensures AllWordsOf(JoinAll(groups)) == Flatten(groups)
    decreases |groups|
  {
    if groups != [] {
      WordsOfJoin(groups[0]);
      WordsOfJoined(groups[1..]);
    }
  }

  lemma {:induction false} GroupsAreWords(groups: seq<seq<string>>)
    requires AreWords(Flatten(groups))
    ensures forall i :: 0 <= i < |groups| ==> AreWords(groups[i])
    decreases |groups|
  {
    if groups != [] {
      var all := groups[0] + Flatten(groups[1..]);
      assert forall i :: 0 <= i < |groups[0]| ==> groups[0][i] == all[i];
      var rest := Flatten(groups[1..]);
      assert forall i :: 0 <= i < |rest| ==> rest[i] == all[|groups[0]| + i];
      GroupsAreWords(groups[1..]);
    }
  }

  // ----- Greedy lines are a grouping

  lemma FlattenOne(group: seq<string>)
    ensures Flatten([group]) == group && Flatten([]) == []
  {
    assert [group][1..] == [] && group + [] == group;
  }

  lemma {:induction false} GreedyGroups(current: seq<string>, rest: seq<string>, max: nat)
    requires current != [] ==> Fits(current, max)
    ensures Grouping(Greedy(current, rest, max), current + rest, max)
    decreases |rest|
  {
    hide Join;
    if rest == [] {
      assert current + rest == current;
      FlattenOne(current);
    } else {
      var w := rest[0];
      JoinOneMore(current, w);
      assert current + rest == current + [w] + rest[1..];
      if current != [] && |Join(current)| + 1 + |w| > max {
        GreedyGroups([w], rest[1..], max);
        var groups := Greedy([w], rest[1..], max);
        assert ([current] + groups)[1..] == groups;
        assert [w] + rest[1..] == rest;
      } else {
        GreedyGroups(current + [w], rest[1..], max);
      }
    }
  }

  // ----- No grouping has fewer lines

  lemma {:induction false} JoinedWidth(a: seq<string>, b: seq<string>)
    ensures |Join(a + b)| == |Join(a)| + |Join(b)| + if a != [] && b != [] then 1 else 0
    decreases |b|
  {
    hide Join;
    NothingJoined();
    if b == [] {
      assert a + b == a;
    } else {
      var n := |b| - 1;
      assert a + b == a + b[..n] + [b[n]] && b == b[..n] + [b[n]];
      JoinedWidth(a, b[..n]);
      JoinOneMore(a + b[..n], b[n]);
      JoinOneMore(b[..n], b[n]);
    }
  }

  lemma NothingJoined()
    ensures Join([]) == ""
  {
  }

  /** How many of the next words the current line takes. */
  function Room(current: seq<string>, rest: seq<string>, max: nat): (n: nat)
    ensures n <= |rest|
    decreases |rest|
  {
    if rest == [] || |Join(current)| + 1 + |rest[0]| > max then 0 else 1 + Room(current + [rest[0]], rest[1..], max)
  }

  lemma {:induction false} GreedyFirst(current: seq<string>, rest: seq<string>, max: nat)
    requires current != []
    ensures var n := Room(current, rest, max);
            Greedy(current, rest, max) == [current + rest[..n]] + Greedy([], rest[n..], max)
    decreases |rest|
  {
    hide Join;
    var n := Room(current, rest, max);
    if n == 0 {
      assert current + rest[..0] == current && rest[0..] == rest;
      if rest != [] {
        assert [] + [rest[0]] == [rest[0]];
      }
    } else {
      GreedyFirst(current + [rest[0]], rest[1..], max);
      assert current + [rest[0]] + rest[1..][..n - 1] == current + rest[..n];
      assert rest[1..][n - 1..] == rest[n..];
    }
  }

  /** The line is filled: it fits with the words it takes and with no more. */
  lemma {:induction false} RoomIsMost(current: seq<string>, rest: seq<string>, max: nat, k: nat)
    requires current != [] && k <= |rest|
    ensures 0 < k <= Room(current, rest, max) ==> |Join(current + rest[..k])| <= max
    ensures k > Room(current, rest, max) ==> |Join(current + rest[..k])| > max
    decreases |rest|
  {
    hide Join;
    if k > 0 {
      JoinOneMore(current, rest[0]);
      assert current + [rest[0]] + rest[1..][..k - 1] == current + rest[..k];
      JoinedWidth(current + [rest[0]], rest[1..][..k - 1]);
      if Room(current, rest, max) > 0 {
        RoomIsMost(current + [rest[0]], rest[1..], max, k - 1);
        if k == 1 {
          assert current + [rest[0]] + rest[1..][..0] == current + [rest[0]];
        }
      }
    }
  }

  function Count(words: seq<string>, max: nat): nat {
    |Greedy([], words, max)|
  }

  /** How many words the first line holds. */
  function First(words: seq<string>, max: nat): (n: nat)
    requires words != []
    ensures 0 < n <= |words|
  {
    1 + Room([words[0]], words[1..], max)
  }

  lemma CountFirst(words: seq<string>, max: nat)
    requires words != []
    ensures Count(words, max) == 1 + Count(words[First(words, max)..], max)
  {
    var n := First(words, max) - 1;
    GreedyFirst([words[0]], words[1..], max);
    assert [] + [words[0]] == [words[0]];
    assert words[1..][n..] == words[n + 1..];
  }

  lemma FirstIsMost(words: seq<string>, max: nat, k: nat)
    requires words != [] && 0 < k <= |words|
    ensures Fits(words[..k], max) <==> k <= First(words, max)
  {
    hide Join;
    assert [words[0]] + words[1..][..k - 1] == words[..k];
    RoomIsMost([words[0]], words[1..], max, k - 1);
  }

  /** Fewer words never need more lines. */
  lemma {:induction false} CountShrinks(words: seq<string>, i: nat, max: nat)
    requires i <= |words|
    ensures Count(words[i..], max) <= Count(words, max)
    decreases |words|
  {
    hide Count, First, Fits;
    if i == 0 {
      assert words[0..] == words;
    } else {
      var rest, n := words[1..], First(words, max);
      CountFirst(words, max);
      if n > 1 {
        DropOne(words, max);
        var m := First(rest, max);
        CountFirst(rest, max);
        assert rest[m..] == words[n..][m + 1 - n..];
        CountShrinks(words[n..], m + 1 - n, max);
      }
      CountShrinks(rest, i - 1, max);
      assert rest[i - 1..] == words[i..];
    }
  }

  lemma DropOne(words: seq<string>, max: nat)
    requires words != [] && First(words, max) > 1
    ensures |words| > 1 && First(words[1..], max) + 1 >= First(words, max)
  {
    hide Join, First;
    var n := First(words, max);
    FirstIsMost(words, max, n);
    var rest := words[1..];
    assert [words[0]] + rest[..n - 1] == words[..n];
    JoinedWidth([words[0]], rest[..n - 1]);
    FirstIsMost(rest, max, n - 1);
  }

  /** Greedy wrapping uses the fewest lines of any division of the same words into lines that fit. */
  lemma {:induction false} FewestLines(groups: seq<seq<string>>, words: seq<string>, max: nat)
    requires Grouping(groups, words, max)
    ensures Count(words, max) <= |groups|
    decreases |groups|
  {
    hide Join, First, Fits;
    if groups != [] {
      var k := |groups[0]|;
      var rest := groups[1..];
      assert words[..k] == groups[0] && words[k..] == Flatten(rest);
      FirstIsMost(words, max, k);
      var n := First(words, max);
      CountFirst(words, max);
      assert words[n..] == words[k..][n - k..];
      CountShrinks(words[k..], n - k, max);
      FewestLines(rest, words[k..], max);
    }
  }

  /**
   A line that is too wide becomes lines that together have its words in order, each at most max wide or a single
   word, and no division of the words into such lines is shorter.
   */
  lemma WrapLineMeaning(line: string, max: nat, groups: seq<seq<string>>)
    requires |line| > max
    ensures AllWordsOf(WrapLine(line, max)) == Words(line)
    ensures forall i :: 0 <= i < |WrapLine(line, max)| ==> |WrapLine(line, max)[i]| <= max || |Words(WrapLine(line, max)[i])| == 1
    ensures Grouping(groups, Words(line), max) ==> |WrapLine(line, max)| <= |groups|
  {
    hide Join, Words, Greedy;
    var words := Words(line);
    var lines := Greedy([], words, max);
    AllWords(line);
    GreedyGroups([], words, max);
    assert [] + words == words;
    GroupsAreWords(lines);
    WordsOfJoined(lines);
    JoinAllAt(lines);
    forall i | 0 <= i < |lines|
      ensures |JoinAll(lines)[i]| <= max || |Words(JoinAll(lines)[i])| == 1
    {
      WordsOfJoin(lines[i]);
    }
    if Grouping(groups, words, max) {
      FewestLines(groups, words, max);
    }
  }

  lemma {:induction false} JoinAllAt(groups: seq<seq<string>>)
    ensures |JoinAll(groups)| == |groups| && forall i :: 0 <= i < |groups| ==> JoinAll(groups)[i] == Join(groups[i])
    decreases |groups|
  {
    if groups != [] {
      JoinAllAt(groups[1..]);
    }
  }

  // ----- What lines and words are

  const SEPARATORS: set<char> := {' ', '\t', '\n', '\r', '\U{0B}', '\U{0C}'}

  /** Words end at every separator, and only there: these equations determine the words of any text. */
  lemma WordsExactly(a: string, c: char, b: string)
    ensures Words("") == []
    ensures c in SEPARATORS ==> Words(a + [c] + b) == Words(a) + Words(b)
    ensures a != "" && (forall i :: 0 <= i < |a| ==> a[i] !in SEPARATORS) ==> Words(a) == [a]
  {
    hide Join;
    if c in SEPARATORS {
      WordsAppend(a, c, b);
    }
    if a != "" && (forall i :: 0 <= i < |a| ==> a[i] !in SEPARATORS) {
      JoinOne(a);
      WordsOfJoin([a]);
    }
  }

  /** Lines with a newline between any two. */
  function JoinLines(lines: seq<string>): string {
    if lines == [] then ""
    else if |lines| == 1 then lines[0]
    else lines[0] + "\n" + JoinLines(lines[1..])
  }

  function FinalNewline(s: string): string {
    if s != "" && s[|s| - 1] == '\n' then "\n" else ""
  }

  lemma JoinLinesFirst(line: string, lines: seq<string>)
    ensures JoinLines([line] + lines) == line + if lines == [] then "" else "\n" + JoinLines(lines)
  {
    assert ([line] + lines)[1..] == lines;
  }

  lemma FinalNewlineStays(line: string, rest: string)
    ensures FinalNewline(line + "\n" + rest) == if rest == "" then "\n" else FinalNewline(rest)
  {
  }

  lemma CutAt(s: string, n: nat)
    requires n < |s| && s[n] == '\n'
    ensures s == s[..n] + "\n" + s[n + 1..]
  {
  }

  lemma Regroup(line: string, rest: string, tail: string)
    ensures line + "\n" + (rest + tail) == line + ("\n" + rest) + tail
  {
  }

  lemma FirstLine(s: string)
    requires LineEnd(s) < |s|
    ensures Lines(s) == [s[..LineEnd(s)]] + Lines(s[LineEnd(s) + 1..])
  {
    hide LineEnd;
  }

  lemma OneLine(s: string)
    requires s != "" && LineEnd(s) == |s|
    ensures Lines(s) == [s] && '\n' !in s && FinalNewline(s) == "" && JoinLines([s]) == s
  {
    assert s[..|s|] == s;
  }

  /** The lines, joined with newlines, are the text less a final newline; none holds a newline, and no text has no line. */
  lemma {:induction false} LinesExactly(s: string)
    ensures s == JoinLines(Lines(s)) + FinalNewline(s)
    ensures forall i :: 0 <= i < |Lines(s)| ==> '\n' !in Lines(s)[i]
    ensures Lines(s) == [] <==> s == ""
    decreases |s|
  {
    if s != "" {
      hide Lines, JoinLines, FinalNewline, LineEnd;
      var n := LineEnd(s);
      if n == |s| {
        OneLine(s);
        assert s + "" == s;
      } else {
        var line, rest := s[..n], s[n + 1..];
        LinesExactly(rest);
        FirstLine(s);
        CutAt(s, n);
        JoinLinesFirst(line, Lines(rest));
        FinalNewlineStays(line, rest);
        if rest == "" {
          assert line + "" + "\n" == line + "\n" + rest;
        } else {
          Regroup(line, JoinLines(Lines(rest)), FinalNewline(rest));
        }
      }
    }
  }

  /** Every line of the text is wrapped by itself, in order, and a line that fits is kept as it is. */
  lemma BreakLinesExactly(lines: seq<string>, line: string, max: nat)
    ensures BreakLines([], max) == []
    ensures BreakLines(lines + [line], max) == BreakLines(lines, max) + WrapLine(line, max)
    ensures |line| <= max ==> WrapLine(line, max) == [line]
  {
    assert (lines + [line])[..|lines|] == lines;
  }

  /** A text all of whose lines fit is only cut into its lines. */
  lemma {:induction false} FittingLines(lines: seq<string>, max: nat)
    requires forall i :: 0 <= i < |lines| ==> |lines[i]| <= max
    ensures BreakLines(lines, max) == lines
    decreases |lines|
  {
    if lines != [] {
      var n := |lines| - 1;
      FittingLines(lines[..n], max);
      assert lines == lines[..n] + [lines[n]];
    }
  }
}
