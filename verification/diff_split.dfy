/**
 The marker-aware difference of two template outputs: what they begin with, what they end with,
 and what is left of each in between
 (self.llama/common/chat-auto-parser-helpers.cpp, calculate_diff_split).
 */
module DiffSplitting {
  import opened Segments
  import opened Affixes
  import opened DiffMeaning

  // ----- What the four cursors have taken

  /** The first a and the last b segments are common to both lists and do not overlap. */
  predicate Shared(L: seq<Segment>, R: seq<Segment>, a: nat, b: nat) {
    && a + b <= |L| && a + b <= |R|
    && L[..a] == R[..a]
    && L[|L| - b..] == R[|R| - b..]
  }

  /** A side that lags behind the other is stuck on a mismatch. */
  predicate Lockstep(L: seq<Segment>, R: seq<Segment>, a: nat, b: nat) {
    && (a < b ==> a < |L| && a < |R| && L[a] != R[a])
    && (b < a ==> b < |L| && b < |R| && L[|L| - 1 - b] != R[|R| - 1 - b])
  }

  /** At most one segment is left on some side, or both ends mismatch. */
  predicate Stopped(L: seq<Segment>, R: seq<Segment>, a: nat, b: nat)
    requires a + b <= |L| && a + b <= |R|
  {
    || a + b + 1 >= |L|
    || a + b + 1 >= |R|
    || (L[a] != R[a] && L[|L| - 1 - b] != R[|R| - 1 - b])
  }

  lemma SharedFront(L: seq<Segment>, R: seq<Segment>, a: nat, b: nat)
    requires Shared(L, R, a, b) && a + b < |L| && a + b < |R| && L[a] == R[a]
    ensures Shared(L, R, a + 1, b)
    ensures Concat(L[..a + 1]) == Concat(L[..a]) + L[a].value
  {
    assert L[..a + 1] == L[..a] + [L[a]] && R[..a + 1] == R[..a] + [R[a]];
    ConcatAppend(L[..a], [L[a]]);
    assert Concat([L[a]]) == L[a].value;
  }

  lemma SharedBack(L: seq<Segment>, R: seq<Segment>, a: nat, b: nat)
    requires Shared(L, R, a, b) && a + b < |L| && a + b < |R|
    requires L[|L| - 1 - b] == R[|R| - 1 - b]
    ensures Shared(L, R, a, b + 1)
    ensures Concat(L[|L| - (b + 1)..]) == L[|L| - 1 - b].value + Concat(L[|L| - b..])
  {
    assert L[|L| - (b + 1)..] == [L[|L| - 1 - b]] + L[|L| - b..];
    assert R[|R| - (b + 1)..] == [R[|R| - 1 - b]] + R[|R| - b..];
  }

  /** One round of the loop: each end moves inwards exactly if its two segments agree. */
  lemma Round(L: seq<Segment>, R: seq<Segment>, a: nat, b: nat, a': nat, b': nat)
    requires Shared(L, R, a, b) && Lockstep(L, R, a, b)
    requires a + b + 1 < |L| && a + b + 1 < |R|
    requires a' == if L[a] == R[a] then a + 1 else a
    requires b' == if L[|L| - 1 - b] == R[|R| - 1 - b] then b + 1 else b
    ensures Shared(L, R, a', b') && Lockstep(L, R, a', b')
    ensures Concat(L[..a']) == Concat(L[..a]) + (if a' == a then "" else L[a].value)
    ensures Concat(L[|L| - b'..]) == (if b' == b then "" else L[|L| - 1 - b].value) + Concat(L[|L| - b..])
  {
    if a' == a + 1 {
      SharedFront(L, R, a, b);
    }
    if b' == b + 1 {
      SharedBack(L, R, a', b);
    }
  }

  /** The four cursors, the two "fully consumed" flags and what has been collected. */
  datatype Cursors = Cursors(leftStart: nat, leftEnd: nat, rightStart: nat, rightEnd: nat,
                             leftDone: bool, rightDone: bool, prefix: string, suffix: string)

  predicate InRange(L: seq<Segment>, R: seq<Segment>, c: Cursors) {
    c.leftStart <= c.leftEnd < |L| && c.rightStart <= c.rightEnd < |R|
  }

  /** The cursors after a segments have been taken off both fronts and b off both backs. */
  predicate Stand(L: seq<Segment>, R: seq<Segment>, c: Cursors, a: nat, b: nat) {
    && InRange(L, R, c)
    && c.leftStart == c.rightStart == a
    && (c.leftDone <==> a + b == |L|)
    && (c.rightDone <==> a + b == |R|)
    && c.leftEnd == |L| - b - (if c.leftDone then 0 else 1)
    && c.rightEnd == |R| - b - (if c.rightDone then 0 else 1)
    && (c.leftDone || c.rightDone ==> a == b)
    && c.prefix == Concat(L[..a]) && (b <= |L| ==> c.suffix == Concat(L[|L| - b..]))
  }

  method MatchSegments(L: seq<Segment>, R: seq<Segment>) returns (c: Cursors, ghost b: nat)
    requires L != [] && R != []
    ensures Shared(L, R, c.leftStart, b) && Lockstep(L, R, c.leftStart, b) && Stopped(L, R, c.leftStart, b)
    ensures Stand(L, R, c, c.leftStart, b)
  {
    var leftStart: nat, leftEnd: nat, rightStart: nat, rightEnd: nat := 0, |L| - 1, 0, |R| - 1;
    var leftDone, rightDone, prefix, suffix := false, false, "", "";
    b := 0;
    while leftStart != leftEnd && rightStart != rightEnd
      invariant Shared(L, R, leftStart, b) && Lockstep(L, R, leftStart, b)
      invariant Stand(L, R, Cursors(leftStart, leftEnd, rightStart, rightEnd, leftDone, rightDone, prefix, suffix),
                      leftStart, b)
      decreases |L| - leftStart - b
    {
      var advanced := false;
      ghost var a' := if L[leftStart] == R[rightStart] then leftStart + 1 else leftStart;
      ghost var b' := if L[leftEnd] == R[rightEnd] then b + 1 else b;
      Round(L, R, leftStart, b, a', b');
      if L[leftStart] == R[rightStart] {
        prefix := prefix + L[leftStart].value;
        leftStart, rightStart := leftStart + 1, rightStart + 1;
        advanced := true;
      }
      if L[leftEnd] == R[rightEnd] {
        suffix := L[leftEnd].value + suffix;
        if leftStart != leftEnd {
          leftEnd := leftEnd - 1;
        } else {
          leftDone := true;
        }
        if rightStart != rightEnd {
          rightEnd := rightEnd - 1;
        } else {
          rightDone := true;
        }
        advanced := true;
      }
      b := b';
      assert leftStart == a';
      if !advanced {
        break;
      }
    }
    c := Cursors(leftStart, leftEnd, rightStart, rightEnd, leftDone, rightDone, prefix, suffix);
  }

  // ----- When a segment is read twice

  /** The loop uses up exactly those lists that straddle the other. */
  lemma UsedUpIsStraddled(L: seq<Segment>, R: seq<Segment>, a: nat, b: nat)
    requires Shared(L, R, a, b) && Lockstep(L, R, a, b) && Stopped(L, R, a, b)
    requires a + b == |L| || a + b == |R| ==> a == b
    ensures a + b == |L| < |R| <==> Straddles(L, R)
    ensures a + b == |R| < |L| <==> Straddles(R, L)
    ensures Straddles(L, R) ==> StraddlesAt(L, R, a)
    ensures Straddles(R, L) ==> StraddlesAt(R, L, a)
  {
    if Straddles(L, R) {
      StraddledIsUsedUp(L, R, a, b, |L| / 2);
    }
    if Straddles(R, L) {
      StraddledIsUsedUp(R, L, a, b, |R| / 2);
    }
  }

  lemma StraddledIsUsedUp(L: seq<Segment>, R: seq<Segment>, a: nat, b: nat, k: nat)
    requires Shared(L, R, a, b) && Lockstep(L, R, a, b) && Stopped(L, R, a, b)
    requires StraddlesAt(L, R, k)
    ensures a + b == |L|
  {
  }

  // ----- The three branches after the loop

  /** The prefix and suffix collected so far, read as the two ends of S. */
  predicate TakenFrom(S: seq<Segment>, a: nat, b: nat, prefix: string, suffix: string) {
    && a + b <= |S|
    && prefix == Concat(S[..a])
    && suffix == Concat(S[|S| - b..])
  }

  lemma TakeFront(S: seq<Segment>, a: nat, b: nat, prefix: string, suffix: string)
    requires TakenFrom(S, a, b, prefix, suffix) && a + b < |S|
    ensures TakenFrom(S, a + 1, b, prefix + S[a].value, suffix)
  {
    assert S[..a + 1] == S[..a] + [S[a]];
    ConcatAppend(S[..a], [S[a]]);
    assert Concat([S[a]]) == S[a].value;
  }

  lemma TakeBack(S: seq<Segment>, a: nat, b: nat, prefix: string, suffix: string)
    requires TakenFrom(S, a, b, prefix, suffix) && a + b < |S|
    ensures TakenFrom(S, a, b + 1, prefix, S[|S| - 1 - b].value + suffix)
  {
    assert S[|S| - (b + 1)..] == [S[|S| - 1 - b]] + S[|S| - b..];
  }

  datatype Act = Kept | Front | Back

  /** Which end the branches after the loop take one more segment from, if any: the back, if both agree. */
  predicate IsAct(L: seq<Segment>, R: seq<Segment>, c: Cursors, act: Act)
    requires InRange(L, R, c)
  {
    var lastLeft, lastRight := c.leftStart == c.leftEnd, c.rightStart == c.rightEnd;
    match act
    case Front =>
      && L[c.leftStart] == R[c.rightStart]
      && (lastLeft || lastRight)
      && (lastLeft && lastRight ==> L[c.leftStart].kind == Marker)
      && (lastLeft != lastRight ==> L[c.leftEnd] != R[c.rightEnd])
    case Back =>
      L[c.leftEnd] == R[c.rightEnd] && (lastLeft != lastRight)
    case Kept =>
      if lastLeft && lastRight then L[c.leftStart] == R[c.rightStart] ==> L[c.leftStart].kind == Text
      else lastLeft || lastRight ==> L[c.leftStart] != R[c.rightStart] && L[c.leftEnd] != R[c.rightEnd]
  }

  /** The cursors after that; a side that held one segment is now consumed. */
  function Acted(L: seq<Segment>, c: Cursors, act: Act): Cursors
    requires c.leftStart <= c.leftEnd < |L| && c.rightStart <= c.rightEnd
  {
    var lastLeft, lastRight := c.leftStart == c.leftEnd, c.rightStart == c.rightEnd;
    match act
    case Kept => c
    case Front => Cursors(if lastLeft then c.leftStart else c.leftStart + 1, c.leftEnd,
                          if lastRight then c.rightStart else c.rightStart + 1, c.rightEnd,
                          c.leftDone || lastLeft, c.rightDone || lastRight,
                          c.prefix + L[c.leftStart].value, c.suffix)
    case Back => Cursors(c.leftStart, if lastLeft then c.leftEnd else c.leftEnd - 1,
                         c.rightStart, if lastRight then c.rightEnd else c.rightEnd - 1,
                         c.leftDone || lastLeft, c.rightDone || lastRight,
                         c.prefix, L[c.leftEnd].value + c.suffix)
  }

  method AbsorbLast(L: seq<Segment>, R: seq<Segment>, c: Cursors) returns (c': Cursors, ghost act: Act)
    requires InRange(L, R, c)
    ensures IsAct(L, R, c, act) && c' == Acted(L, c, act)
  {
    var Cursors(leftStart, leftEnd, rightStart, rightEnd, leftDone, rightDone, prefix, suffix) := c;
    act := Kept;
    if leftStart == leftEnd && rightStart != rightEnd {
      if L[leftStart] == R[rightEnd] {
        suffix := R[rightEnd].value + suffix;
        rightEnd := rightEnd - 1;
        leftDone, act := true, Back;
      } else if L[leftStart] == R[rightStart] {
        prefix := prefix + R[rightStart].value;
        rightStart := rightStart + 1;
        leftDone, act := true, Front;
      }
    } else if rightStart == rightEnd && leftStart != leftEnd {
      if L[leftEnd] == R[rightStart] {
        suffix := L[leftEnd].value + suffix;
        leftEnd := leftEnd - 1;
        rightDone, act := true, Back;
      } else if L[leftStart] == R[rightStart] {
        prefix := prefix + L[leftStart].value;
        leftStart := leftStart + 1;
        rightDone, act := true, Front;
      }
    } else if leftStart == leftEnd && rightStart == rightEnd && L[leftStart] == R[rightStart]
              && L[leftStart].kind == Marker {
      prefix := prefix + R[rightStart].value;
      leftDone, rightDone, act := true, true, Front;
    }
    c' := Cursors(leftStart, leftEnd, rightStart, rightEnd, leftDone, rightDone, prefix, suffix);
  }

  /** The counts after a branch has fired. */
  function After(a: nat, act: Act, which: Act): nat {
    if act == which then a + 1 else a
  }

  /** A branch that fires while neither side is used up takes a segment both sides share. */
  lemma ActShares(L: seq<Segment>, R: seq<Segment>, c: Cursors, b: nat, act: Act)
    requires var a := c.leftStart;
             && Stand(L, R, c, a, b) && Shared(L, R, a, b) && Stopped(L, R, a, b)
             && !c.leftDone && !c.rightDone && L != R && IsAct(L, R, c, act)
    ensures var a', b' := After(c.leftStart, act, Front), After(b, act, Back);
            && Shared(L, R, a', b')
            && Acted(L, c, act).prefix == Concat(L[..a']) && Acted(L, c, act).suffix == Concat(L[|L| - b'..])
  {
    hide Concat;
    var a := c.leftStart;
    match act
    case Front => SharedFront(L, R, a, b);
    case Back => SharedBack(L, R, a, b);
    case Kept =>
  }

  /** Seen from one side S, what is collected is S's two ends, before and after. */
  lemma ActTakes(S: seq<Segment>, a: nat, b: nat, act: Act, prefix: string, suffix: string)
    requires TakenFrom(S, a, b, prefix, suffix) && (act != Kept ==> a + b < |S|)
    ensures TakenFrom(S, After(a, act, Front), After(b, act, Back),
                      if act == Front then prefix + S[a].value else prefix,
                      if act == Back then S[|S| - 1 - b].value + suffix else suffix)
  {
    match act
    case Front => TakeFront(S, a, b, prefix, suffix);
    case Back => TakeBack(S, a, b, prefix, suffix);
    case Kept =>
  }

  /** What the cursors leave of the two sides. */
  function RestLeft(L: seq<Segment>, c: Cursors): seq<Segment>
    requires c.leftStart <= c.leftEnd < |L|
  {
    L[c.leftStart..if c.leftDone then c.leftEnd else c.leftEnd + 1]
  }

  function RestRight(R: seq<Segment>, c: Cursors): seq<Segment>
    requires c.rightStart <= c.rightEnd < |R|
  {
    R[c.rightStart..if c.rightDone then c.rightEnd else c.rightEnd + 1]
  }

  predicate DoneMeansMet(c: Cursors) {
    && (c.leftDone ==> c.leftStart == c.leftEnd)
    && (c.rightDone ==> c.rightStart == c.rightEnd)
  }

  lemma ActLeaves(L: seq<Segment>, R: seq<Segment>, c: Cursors, b: nat, act: Act)
    requires Stand(L, R, c, c.leftStart, b) && IsAct(L, R, c, act)
    ensures var a', b', c' := After(c.leftStart, act, Front), After(b, act, Back), Acted(L, c, act);
            && InRange(L, R, c') && DoneMeansMet(c')
            && (a' + b' <= |L| ==> RestLeft(L, c') == L[a'..|L| - b'])
            && (a' + b' <= |R| ==> RestRight(R, c') == R[a'..|R| - b'])
            && (c.leftDone ==> RestLeft(L, c') == [])
            && (c.rightDone ==> RestRight(R, c') == [])
  {
  }

  // ----- Common text inside what is left, and the final adjustments

  /**
   Take the longest common text off the ends of the two rests, if allowed, then off the beginnings
   of what is left, if allowed.
   */
  function SplitText(prefix: string, suffix: string, l: string, r: string, canPrefix: bool, canSuffix: bool): DiffSplit {
    var s := if canSuffix then CommonSuffixLen(l, r) else 0;
    var l', r' := l[..|l| - s], r[..|r| - s];
    var p := if canPrefix then CommonPrefixLen(l', r') else 0;
    DiffSplit(prefix + l'[..p], l[|l| - s..] + suffix, l'[p..], r'[p..])
  }

  lemma SplitTextSums(prefix: string, suffix: string, l: string, r: string, canPrefix: bool, canSuffix: bool)
    ensures var d := SplitText(prefix, suffix, l, r, canPrefix, canSuffix);
            && d.prefix + d.left + d.suffix == prefix + l + suffix
            && d.prefix + d.right + d.suffix == prefix + r + suffix
  {
    hide ExtendPrefix, ExtendSuffix;
    var s := if canSuffix then CommonSuffixLen(l, r) else 0;
    var l', r' := l[..|l| - s], r[..|r| - s];
    var p := if canPrefix then CommonPrefixLen(l', r') else 0;
    var x, t := l'[..p], l[|l| - s..];
    assert r[|r| - s..] == t;
    Regroup(prefix, l', p, t, suffix, l);
    Regroup(prefix, r', p, t, suffix, r);
  }

  /** Text cut at p, with the rest in front and behind handed to prefix and suffix. */
  lemma Regroup(prefix: string, head: string, p: nat, t: string, suffix: string, whole: string)
    requires p <= |head| && whole == head + t
    ensures (prefix + head[..p]) + head[p..] + (t + suffix) == prefix + whole + suffix
  {
    assert head == head[..p] + head[p..];
  }

  /** No residue at all counts as "all prefix"; a left that is a prefix of right is made the prefix. */
  function Adjust(d: DiffSplit, left: string, right: string): DiffSplit {
    if d.left == "" && d.right == "" then DiffSplit(left, "", "", "")
    else if d.left == "" && left <= right then DiffSplit(left, "", "", right[|left|..])
    else d
  }

  method SplitRests(left: string, right: string, prefix: string, suffix: string, restLeft: string, restRight: string,
                    canHaveTextPrefix: bool, canHaveTextSuffix: bool)
    returns (result: DiffSplit)
    ensures result == Adjust(SplitText(prefix, suffix, restLeft, restRight, canHaveTextPrefix, canHaveTextSuffix),
                             left, right)
  {
    hide ExtendPrefix, ExtendSuffix;
    var suffixLen := 0;
    if canHaveTextSuffix {
      suffixLen := CommonSuffixLength(restLeft, restRight);
    }
    var prefixLen := 0;
    if canHaveTextPrefix {
      prefixLen := CommonPrefixLength(restLeft[..|restLeft| - suffixLen], restRight[..|restRight| - suffixLen]);
    }
    result := DiffSplit(prefix + restLeft[..prefixLen],
                        restLeft[|restLeft| - suffixLen..] + suffix,
                        restLeft[prefixLen..|restLeft| - suffixLen],
                        restRight[prefixLen..|restRight| - suffixLen]);
    assert result == SplitText(prefix, suffix, restLeft, restRight, canHaveTextPrefix, canHaveTextSuffix);
    if result.left == "" && result.right == "" {
      result := result.(prefix := left, suffix := "");
    }
    if result.left == "" && result.right != "" && |left| <= |right| && right[..|left|] == left {
      result := result.(prefix := left, suffix := "", right := right[|left|..]);
    }
  }

  // ----- The whole function

  /** The split after taking a segments off the front and b off the back. */
  function TextSplit(L: seq<Segment>, R: seq<Segment>, a: nat, b: nat): DiffSplit
    requires Shared(L, R, a, b)
  {
    var l, r := L[a..|L| - b], R[a..|R| - b];
    SplitText(Concat(L[..a]), Concat(L[|L| - b..]), Concat(l), Concat(r),
              BeginInText(l, r), EndInText(l, r))
  }

  lemma ConcatThree(S: seq<Segment>, a: nat, b: nat)
    requires a + b <= |S|
    ensures Concat(S) == Concat(S[..a]) + Concat(S[a..|S| - b]) + Concat(S[|S| - b..])
  {
    hide Concat;
    var x, y, z := S[..a], S[a..|S| - b], S[|S| - b..];
    assert S == (x + y) + z;
    ConcatAppend(x, y);
    ConcatAppend(x + y, z);
  }

  lemma AdjustReconstructs(d: DiffSplit, left: string, right: string)
    requires Reconstructs(d, left, right)
    ensures Reconstructs(Adjust(d, left, right), left, right)
  {
  }

  lemma SplitTextIs(prefix: string, suffix: string, x: string, y: string, canPrefix: bool, canSuffix: bool) returns (s: nat, p: nat)
    ensures s <= |x| && s <= |y| && p + s <= |x| && p + s <= |y|
    ensures if canSuffix then LongestSuffix(x, y, s) else s == 0
    ensures if canPrefix then LongestPrefix(x[..|x| - s], y[..|y| - s], p) else p == 0
    ensures SplitText(prefix, suffix, x, y, canPrefix, canSuffix)
         == DiffSplit(prefix + x[..p], x[|x| - s..] + suffix, x[p..|x| - s], y[p..|y| - s])
  {
    hide CommonPrefixLen, CommonSuffixLen;
    s := if canSuffix then CommonSuffixLen(x, y) else 0;
    p := if canPrefix then CommonPrefixLen(x[..|x| - s], y[..|y| - s]) else 0;
    assert x[..|x| - s][..p] == x[..p] && x[..|x| - s][p..] == x[p..|x| - s] && y[..|y| - s][p..] == y[p..|y| - s];
  }

  /** Common text is taken off the rests as a difference asks. */
  lemma TextSplitShares(L: seq<Segment>, R: seq<Segment>, a: nat, b: nat)
    requires Shared(L, R, a, b) && SharedEnds(L, R, a, b)
    ensures SharesMost(TextSplit(L, R, a, b), L, R)
  {
    hide SharedEnds, Concat, SplitText, LongestPrefix, LongestSuffix;
    var l, r := L[a..|L| - b], R[a..|R| - b];
    var s, p := SplitTextIs(Concat(L[..a]), Concat(L[|L| - b..]), Concat(l), Concat(r), BeginInText(l, r), EndInText(l, r));
    assert PiecesAre(TextSplit(L, R, a, b), L, R, a, b, s, p);
  }

  lemma AdjustIs(raw: DiffSplit, left: string, right: string)
    ensures IsAdjusted(raw, Adjust(raw, left, right), left, right)
  {
  }

  lemma TextSplitSums(L: seq<Segment>, R: seq<Segment>, a: nat, b: nat)
    requires Shared(L, R, a, b)
    ensures Reconstructs(TextSplit(L, R, a, b), Concat(L), Concat(R))
  {
    var l, r := L[a..|L| - b], R[a..|R| - b];
    ConcatThree(L, a, b);
    ConcatThree(R, a, b);
    SplitTextSums(Concat(L[..a]), Concat(L[|L| - b..]), Concat(l), Concat(r),
                  BeginInText(l, r), EndInText(l, r));
  }

  /** What a misreading collects is longer than the side that was used up. */
  lemma MisreadTooLong(L: seq<Segment>, R: seq<Segment>, k: nat, act: Act, prefix: string, suffix: string)
    requires StraddlesAt(L, R, k) && act != Kept
    requires forall i :: 0 <= i < |R| ==> R[i].value != ""
    requires TakenFrom(R, After(k, act, Front), After(k, act, Back), prefix, suffix)
    ensures |prefix| + |suffix| > |Concat(L)|
  {
    ConcatAppend(L[..k], L[k..]);
    assert L == L[..k] + L[k..];
    ActTakes(R, k, k, act, Concat(R[..k]), Concat(R[|R| - k..]));
  }

  lemma ConcatNonEmpty(S: seq<Segment>)
    requires S != [] && S[0].value != ""
    ensures Concat(S) != ""
  {
  }

  lemma SegmentationInjective(left: string, right: string)
    ensures Segmentation(left) == Segmentation(right) <==> left == right
  {
    SegmentsNonEmpty(left);
    SegmentsNonEmpty(right);
  }

  lemma SplitTextOneEmpty(prefix: string, suffix: string, rest: string, canPrefix: bool, canSuffix: bool)
    ensures SplitText(prefix, suffix, "", rest, canPrefix, canSuffix) == DiffSplit(prefix, suffix, "", rest)
    ensures SplitText(prefix, suffix, rest, "", canPrefix, canSuffix) == DiffSplit(prefix, suffix, rest, "")
  {
    assert prefix + "" == prefix && "" + suffix == suffix;
    assert rest[..|rest|] == rest && rest[|rest|..] == "" && rest[0..] == rest;
  }

  /** A side S read twice: what remains of the other side T, and that too much was collected for S. */
  lemma MisreadRest(S: seq<Segment>, T: seq<Segment>, k: nat, act: Act, prefix: string, suffix: string)
    requires StraddlesAt(S, T, k) && act != Kept
    requires forall i :: 0 <= i < |T| ==> T[i].value != ""
    requires TakenFrom(T, After(k, act, Front), After(k, act, Back), prefix, suffix)
    ensures var rest := T[After(k, act, Front)..|T| - After(k, act, Back)];
            && |prefix| + |suffix| > |Concat(S)|
            && Concat(T) == prefix + Concat(rest) + suffix
            && (Concat(rest) == "" <==> |T| == |S| + 1)
  {
    var a, b := After(k, act, Front), After(k, act, Back);
    MisreadTooLong(S, T, k, act, prefix, suffix);
    ConcatThree(T, a, b);
    if |T| > |S| + 1 {
      ConcatNonEmpty(T[a..|T| - b]);
    }
  }

  /** Left read twice: nothing of it remains, and only its being a prefix of right can save the result. */
  lemma LeftMisread(left: string, right: string, prefix: string, suffix: string, rest: string)
    requires |prefix| + |suffix| > |left| && right == prefix + rest + suffix
    ensures var d := Adjust(DiffSplit(prefix, suffix, "", rest), left, right);
            && (Reconstructs(d, left, right) <==> rest != "" && left <= right)
            && d.left == "" && (d.right == "" <==> rest == "")
  {
    var d := Adjust(DiffSplit(prefix, suffix, "", rest), left, right);
    if rest != "" && !(left <= right) {
      assert |d.prefix + d.left + d.suffix| > |left|;
    }
  }

  /** Right read twice: nothing can save the result. */
  lemma RightMisread(left: string, right: string, prefix: string, suffix: string, rest: string)
    requires |prefix| + |suffix| > |right| && left == prefix + rest + suffix
    ensures var d := Adjust(DiffSplit(prefix, suffix, rest, ""), left, right);
            && !Reconstructs(d, left, right)
            && d.right == "" && (d.left == "" <==> rest == "")
  {
    var d := Adjust(DiffSplit(prefix, suffix, rest, ""), left, right);
    if rest != "" {
      assert |d.prefix + d.right + d.suffix| > |right|;
    } else {
      assert d.prefix + d.right + d.suffix == left;
    }
  }

  /** Equal inputs: at most one text segment remains on both sides, and it is taken as common text. */
  lemma EqualInputs(text: string, prefix: string, suffix: string, rest: string, canPrefix: bool, canSuffix: bool)
    requires rest != "" ==> canSuffix
    ensures Adjust(SplitText(prefix, suffix, rest, rest, canPrefix, canSuffix), text, text)
         == DiffSplit(text, "", "", "")
  {
  }

  // ----- The four ways the two loops' worth of matching can end

  /** Whether the rests may share text at their beginnings (ends), as the cursors tell it. */
  function CanPrefix(L: seq<Segment>, R: seq<Segment>, c: Cursors): bool
    requires InRange(L, R, c)
  {
    R[c.rightStart].kind == Text && L[c.leftStart].kind == Text
  }

  function CanSuffix(L: seq<Segment>, R: seq<Segment>, c: Cursors): bool
    requires InRange(L, R, c)
  {
    L[c.leftEnd].kind == Text && R[c.rightEnd].kind == Text
  }

  function Finish(L: seq<Segment>, R: seq<Segment>, c: Cursors): DiffSplit
    requires InRange(L, R, c)
  {
    SplitText(c.prefix, c.suffix, Concat(RestLeft(L, c)), Concat(RestRight(R, c)), CanPrefix(L, R, c), CanSuffix(L, R, c))
  }

  /** The situation after the loop and the branches. */
  predicate Ended(L: seq<Segment>, R: seq<Segment>, c: Cursors, b: nat, act: Act) {
    var a := c.leftStart;
    && Stand(L, R, c, a, b) && Shared(L, R, a, b) && Lockstep(L, R, a, b) && Stopped(L, R, a, b)
    && IsAct(L, R, c, act)
  }

  lemma LongestFrontIs(L: seq<Segment>, R: seq<Segment>) returns (p: nat)
    ensures LongestFront(L, R, p)
  {
    p := 0;
    while p < |L| && p < |R| && L[p] == R[p]
      invariant p <= |L| && p <= |R| && L[..p] == R[..p]
    {
      assert L[..p + 1] == L[..p] + [L[p]] && R[..p + 1] == R[..p] + [R[p]];
      p := p + 1;
    }
  }

  lemma LongestBackIs(L: seq<Segment>, R: seq<Segment>) returns (q: nat)
    ensures LongestBack(L, R, q)
  {
    q := 0;
    while q < |L| && q < |R| && L[|L| - 1 - q] == R[|R| - 1 - q]
      invariant q <= |L| && q <= |R| && L[|L| - q..] == R[|R| - q..]
    {
      assert L[|L| - (q + 1)..] == [L[|L| - 1 - q]] + L[|L| - q..];
      assert R[|R| - (q + 1)..] == [R[|R| - 1 - q]] + R[|R| - q..];
      q := q + 1;
    }
  }

  /** How the counts compare with the longest common front and back. */
  lemma CountsWithin(L: seq<Segment>, R: seq<Segment>, a: nat, b: nat, p: nat, q: nat)
    requires Shared(L, R, a, b) && LongestFront(L, R, p) && LongestBack(L, R, q)
    ensures a <= p <= |L| && b <= q <= |L| && p <= |R| && q <= |R|
    ensures a < |L| && a < |R| ==> (L[a] == R[a] <==> a < p)
    ensures b < |L| && b < |R| ==> (L[|L| - 1 - b] == R[|R| - 1 - b] <==> b < q)
  {
    if p < a {
      FrontAt(L, R, a, p);
    }
    if q < b {
      BackAt(L, R, b, q);
    }
    if a < p {
      FrontAt(L, R, p, a);
    }
    if b < q {
      BackAt(L, R, q, b);
    }
  }

  /** The counts at the end, from how the loop stopped and what the branches took. */
  lemma CountsTaken(p: nat, q: nat, l: nat, r: nat, a: nat, b: nat, act: Act)
    requires a <= p && b <= q && a + b <= l && a + b <= r && p <= l && p <= r && q <= l && q <= r
    requires (a < b ==> a == p) && (b < a ==> b == q)
    requires (a + b == l || a + b == r ==> a == b && act == Kept)
    requires a + b < l && a + b < r ==>
               if a + b + 1 < l && a + b + 1 < r then act == Kept && a == p && b == q
               else if l == r then act == Kept && a == p && b == q
               else match act case Back => b < q case Front => b == q && a < p case Kept => a == p && b == q
    ensures Taken(p, q, if l <= r then l else r, After(a, act, Front), After(b, act, Back))
  {
  }

  lemma CleanCounts(L: seq<Segment>, R: seq<Segment>, c: Cursors, b: nat, act: Act)
    requires Ended(L, R, c, b, act) && L != R
    requires c.leftDone || c.rightDone ==> act == Kept
    ensures var a', b', c' := After(c.leftStart, act, Front), After(b, act, Back), Acted(L, c, act);
            && Shared(L, R, a', b') && SharedEnds(L, R, a', b')
            && c'.prefix == Concat(L[..a']) && c'.suffix == Concat(L[|L| - b'..])
  {
    hide Ended, Shared, SharedEnds, Concat, After, Acted;
    WholeShared(L, R, c, b, act);
    CleanEnds(L, R, c, b, act);
  }

  lemma WholeShared(L: seq<Segment>, R: seq<Segment>, c: Cursors, b: nat, act: Act)
    requires Ended(L, R, c, b, act) && L != R
    requires c.leftDone || c.rightDone ==> act == Kept
    ensures var a', b', c' := After(c.leftStart, act, Front), After(b, act, Back), Acted(L, c, act);
            && Shared(L, R, a', b')
            && c'.prefix == Concat(L[..a']) && c'.suffix == Concat(L[|L| - b'..])
  {
    hide Concat;
    if !c.leftDone && !c.rightDone {
      ActShares(L, R, c, b, act);
    }
  }

  /** Whether the segments agree at which the counts of the front and of the back stand. */
  predicate FrontAgrees(L: seq<Segment>, R: seq<Segment>, a: nat) {
    a < |L| && a < |R| && L[a] == R[a]
  }

  predicate BackAgrees(L: seq<Segment>, R: seq<Segment>, b: nat) {
    b < |L| && b < |R| && L[|L| - 1 - b] == R[|R| - 1 - b]
  }

  /** What the end of the loop and the branches tell about them. */
  lemma EndTells(L: seq<Segment>, R: seq<Segment>, c: Cursors, b: nat, act: Act)
    requires Ended(L, R, c, b, act) && L != R
    requires c.leftDone || c.rightDone ==> act == Kept
    ensures var a, front, back := c.leftStart, FrontAgrees(L, R, c.leftStart), BackAgrees(L, R, b);
            && (a < b ==> !front) && (b < a ==> !back)
            && (a + b == |L| || a + b == |R| ==> a == b && act == Kept)
            && (a + b < |L| && a + b < |R| ==>
                 if (a + b + 1 < |L| && a + b + 1 < |R|) || |L| == |R| then act == Kept && !front && !back
                 else match act case Back => back case Front => !back && front case Kept => !front && !back)
  {
    var a := c.leftStart;
    if |L| == |R| && a + b + 1 == |L| && L[a] == R[a] {
      AllShared(L, R, a, b);
    }
  }

  lemma CleanEnds(L: seq<Segment>, R: seq<Segment>, c: Cursors, b: nat, act: Act)
    requires Ended(L, R, c, b, act) && L != R
    requires c.leftDone || c.rightDone ==> act == Kept
    ensures SharedEnds(L, R, After(c.leftStart, act, Front), After(b, act, Back))
  {
    var a := c.leftStart;
    var p := LongestFrontIs(L, R);
    var q := LongestBackIs(L, R);
    assert Shared(L, R, a, b);
    EndTells(L, R, c, b, act);
    hide Ended, LongestFront, LongestBack, Taken;
    CountsWithin(L, R, a, b, p, q);
    CountsTaken(p, q, |L|, |R|, a, b, act);
  }

  lemma AllShared(L: seq<Segment>, R: seq<Segment>, a: nat, b: nat)
    requires Shared(L, R, a, b) && |L| == |R| == a + b + 1 && L[a] == R[a]
    ensures L == R
  {
    assert L == L[..a] + [L[a]] + L[a + 1..] && R == R[..a] + [R[a]] + R[a + 1..];
  }

  lemma FlagsByRests(L: seq<Segment>, R: seq<Segment>, c: Cursors)
    requires InRange(L, R, c) && DoneMeansMet(c)
    ensures var l, r := RestLeft(L, c), RestRight(R, c);
            l != [] && r != [] ==>
              && CanPrefix(L, R, c) == BeginInText(l, r)
              && CanSuffix(L, R, c) == EndInText(l, r)
  {
  }

  lemma FlagsDoNotMatter(prefix: string, suffix: string, l: string, r: string,
                         f: bool, g: bool, f': bool, g': bool)
    requires l == "" || r == "" || (f == f' && g == g')
    ensures SplitText(prefix, suffix, l, r, f, g) == SplitText(prefix, suffix, l, r, f', g')
  {
    if l == "" {
      SplitTextOneEmpty(prefix, suffix, r, f, g);
      SplitTextOneEmpty(prefix, suffix, r, f', g');
    } else if r == "" {
      SplitTextOneEmpty(prefix, suffix, l, f, g);
      SplitTextOneEmpty(prefix, suffix, l, f', g');
    }
  }

  /** The rests decide what text may be shared; if one is empty it does not matter. */
  lemma FinishByRests(L: seq<Segment>, R: seq<Segment>, c: Cursors)
    requires InRange(L, R, c) && DoneMeansMet(c)
    ensures var l, r := RestLeft(L, c), RestRight(R, c);
            Finish(L, R, c) == SplitText(c.prefix, c.suffix, Concat(l), Concat(r),
                                         BeginInText(l, r), EndInText(l, r))
  {
    var l, r := RestLeft(L, c), RestRight(R, c);
    FlagsByRests(L, R, c);
    FlagsDoNotMatter(c.prefix, c.suffix, Concat(l), Concat(r), CanPrefix(L, R, c), CanSuffix(L, R, c),
                     BeginInText(l, r), EndInText(l, r));
  }

  lemma CleanEnd(L: seq<Segment>, R: seq<Segment>, c: Cursors, b: nat, act: Act)
    requires Ended(L, R, c, b, act) && L != R
    requires c.leftDone || c.rightDone ==> act == Kept
    ensures var a', b' := After(c.leftStart, act, Front), After(b, act, Back);
            && Shared(L, R, a', b') && SharedEnds(L, R, a', b')
            && InRange(L, R, Acted(L, c, act))
            && Finish(L, R, Acted(L, c, act)) == TextSplit(L, R, a', b')
  {
    CleanCounts(L, R, c, b, act);
    ActLeaves(L, R, c, b, act);
    FinishByRests(L, R, Acted(L, c, act));
  }

  lemma EqualEnd(L: seq<Segment>, c: Cursors, b: nat, act: Act, text: string)
    requires Ended(L, L, c, b, act)
    ensures InRange(L, L, Acted(L, c, act))
    ensures Adjust(Finish(L, L, Acted(L, c, act)), text, text) == DiffSplit(text, "", "", "")
  {
    var c' := Acted(L, c, act);
    EqualInputs(text, c'.prefix, c'.suffix, Concat(RestLeft(L, c')), CanPrefix(L, L, c'), CanSuffix(L, L, c'));
  }

  lemma LeftStraddled(L: seq<Segment>, R: seq<Segment>, c: Cursors, b: nat)
    requires Stand(L, R, c, c.leftStart, b) && Shared(L, R, c.leftStart, b) && c.leftDone && !c.rightDone
    ensures StraddlesAt(L, R, c.leftStart) && b == c.leftStart
    ensures TakenFrom(R, b, b, c.prefix, c.suffix)
  {
  }

  lemma RightStraddled(L: seq<Segment>, R: seq<Segment>, c: Cursors, b: nat)
    requires Stand(L, R, c, c.leftStart, b) && Shared(L, R, c.leftStart, b) && c.rightDone && !c.leftDone
    ensures StraddlesAt(R, L, c.leftStart) && b == c.leftStart
    ensures TakenFrom(L, b, b, c.prefix, c.suffix)
  {
  }

  /** After a second reading of left: its rest is empty, and what was collected is too long for it. */
  lemma LeftEnd(L: seq<Segment>, R: seq<Segment>, c: Cursors, b: nat, act: Act)
    requires Stand(L, R, c, b, b) && IsAct(L, R, c, act) && act != Kept && c.leftDone
    requires StraddlesAt(L, R, b) && TakenFrom(R, b, b, c.prefix, c.suffix)
    requires forall i :: 0 <= i < |R| ==> R[i].value != ""
    ensures var c' := Acted(L, c, act);
            && InRange(L, R, c') && DoneMeansMet(c') && RestLeft(L, c') == []
            && |c'.prefix| + |c'.suffix| > |Concat(L)|
            && Concat(R) == c'.prefix + Concat(RestRight(R, c')) + c'.suffix
            && (Concat(RestRight(R, c')) == "" <==> |R| == |L| + 1)
  {
    var c' := Acted(L, c, act);
    ActTakes(R, b, b, act, c.prefix, c.suffix);
    ActLeaves(L, R, c, b, act);
    MisreadRest(L, R, b, act, c'.prefix, c'.suffix);
  }

  /** Which end a segment read twice was taken from, and what that leaves. */
  lemma ReadTwiceIs(S: seq<Segment>, T: seq<Segment>, k: nat, act: Act, prefix: string, suffix: string)
    requires Rereads(S, T) && StraddlesAt(S, T, k) && act != Kept
    requires act == Back <==> |T| > |S| + 1 && S[k] == T[|T| - k - 1]
    requires TakenFrom(T, After(k, act, Front), After(k, act, Back), prefix, suffix)
    ensures ReadTwice(prefix, Concat(T[After(k, act, Front)..|T| - After(k, act, Back)]), suffix, S, T)
  {
    hide Concat;
    assert |S| / 2 == k;
  }

  lemma LeftReadBack(L: seq<Segment>, R: seq<Segment>, c: Cursors, b: nat, act: Act)
    requires Stand(L, R, c, b, b) && IsAct(L, R, c, act) && act != Kept && c.leftDone && StraddlesAt(L, R, b)
    ensures act == Back <==> |R| > |L| + 1 && L[b] == R[|R| - b - 1]
  {
  }

  lemma RightReadBack(L: seq<Segment>, R: seq<Segment>, c: Cursors, b: nat, act: Act)
    requires Stand(L, R, c, b, b) && IsAct(L, R, c, act) && act != Kept && c.rightDone && StraddlesAt(R, L, b)
    ensures act == Back <==> |L| > |R| + 1 && R[b] == L[|L| - b - 1]
  {
  }

  lemma LeftReadTwice(L: seq<Segment>, R: seq<Segment>, c: Cursors, b: nat, act: Act)
    requires Stand(L, R, c, b, b) && IsAct(L, R, c, act) && act != Kept && c.leftDone
    requires Rereads(L, R) && StraddlesAt(L, R, b) && TakenFrom(R, b, b, c.prefix, c.suffix)
    ensures var c' := Acted(L, c, act);
            InRange(L, R, c') && ReadTwice(c'.prefix, Concat(RestRight(R, c')), c'.suffix, L, R)
  {
    LeftReadBack(L, R, c, b, act);
    ActLeaves(L, R, c, b, act);
    hide Concat, TakenFrom, Rereads, ReadTwice;
    var c' := Acted(L, c, act);
    ActTakes(R, b, b, act, c.prefix, c.suffix);
    ReadTwiceIs(L, R, b, act, c'.prefix, c'.suffix);
  }

  lemma RightReadTwice(L: seq<Segment>, R: seq<Segment>, c: Cursors, b: nat, act: Act)
    requires Stand(L, R, c, b, b) && IsAct(L, R, c, act) && act != Kept && c.rightDone
    requires Rereads(R, L) && StraddlesAt(R, L, b) && TakenFrom(L, b, b, c.prefix, c.suffix)
    ensures var c' := Acted(L, c, act);
            InRange(L, R, c') && ReadTwice(c'.prefix, Concat(RestLeft(L, c')), c'.suffix, R, L)
  {
    RightReadBack(L, R, c, b, act);
    ActLeaves(L, R, c, b, act);
    hide Concat, TakenFrom, Rereads, ReadTwice;
    var c' := Acted(L, c, act);
    ActTakes(L, b, b, act, c.prefix, c.suffix);
    ReadTwiceIs(R, L, b, act, c'.prefix, c'.suffix);
  }

  lemma RightEnd(L: seq<Segment>, R: seq<Segment>, c: Cursors, b: nat, act: Act)
    requires Stand(L, R, c, b, b) && IsAct(L, R, c, act) && act != Kept && c.rightDone
    requires StraddlesAt(R, L, b) && TakenFrom(L, b, b, c.prefix, c.suffix)
    requires forall i :: 0 <= i < |L| ==> L[i].value != ""
    ensures var c' := Acted(L, c, act);
            && InRange(L, R, c') && DoneMeansMet(c') && RestRight(R, c') == []
            && |c'.prefix| + |c'.suffix| > |Concat(R)|
            && Concat(L) == c'.prefix + Concat(RestLeft(L, c')) + c'.suffix
            && (Concat(RestLeft(L, c')) == "" <==> |L| == |R| + 1)
  {
    var c' := Acted(L, c, act);
    ActTakes(L, b, b, act, c.prefix, c.suffix);
    ActLeaves(L, R, c, b, act);
    MisreadRest(R, L, b, act, c'.prefix, c'.suffix);
  }

  /** A side used up and matched once more is a second reading, and the other way round. */
  lemma RereadIsAct(L: seq<Segment>, R: seq<Segment>, c: Cursors, b: nat, act: Act)
    requires Ended(L, R, c, b, act) && L != [] && R != [] && L != R
    ensures Rereads(L, R) <==> c.leftDone && act != Kept
    ensures Rereads(R, L) <==> c.rightDone && act != Kept
    ensures !(c.leftDone && c.rightDone)
  {
    UsedUpIsStraddled(L, R, c.leftStart, b);
    if c.leftDone && c.rightDone {
      SharedWhole(L, R, b);
    }
  }

  lemma SharedWhole(L: seq<Segment>, R: seq<Segment>, b: nat)
    requires Shared(L, R, b, b) && |L| == |R| == b + b
    ensures L == R
  {
    assert L == L[..b] + L[b..] && R == R[..b] + R[b..];
  }

  /** What the result tells and what it does not, for two non-empty inputs. */
  ghost predicate Verdict(d: DiffSplit, left: string, right: string) {
    && (Reconstructs(d, left, right) <==> !Misreads(left, right))
    && (left == right ==> d == DiffSplit(left, "", "", ""))
    && (left == right || IsDifference(d, left, right))
    && (d.left == "" && d.right == "" <==> left == right || MissesDifference(left, right))
  }

  lemma OutcomeLeft(left: string, right: string, L: seq<Segment>, R: seq<Segment>, c: Cursors, b: nat, act: Act)
    requires L == Segmentation(left) && R == Segmentation(right) && L != [] && R != [] && L != R
    requires Ended(L, R, c, b, act) && act != Kept && c.leftDone
    ensures InRange(L, R, Acted(L, c, act))
    ensures Verdict(Adjust(Finish(L, R, Acted(L, c, act)), left, right), left, right)
  {
    hide Segmentation, IsAct, Acted, Lockstep, Stopped, Shared, RestLeft, RestRight, SplitText, Straddles;
    SegmentsNonEmpty(left);
    SegmentsNonEmpty(right);
    RereadIsAct(L, R, c, b, act);
    LeftStraddled(L, R, c, b);
    LeftEnd(L, R, c, b, act);
    var c' := Acted(L, c, act);
    var rest := Concat(RestRight(R, c'));
    SplitTextOneEmpty(c'.prefix, c'.suffix, rest, CanPrefix(L, R, c'), CanSuffix(L, R, c'));
    LeftMisread(left, right, c'.prefix, c'.suffix, rest);
    LeftReadTwice(L, R, c, b, act);
    var raw := Finish(L, R, c');
    AdjustIs(raw, left, right);
    assert IsRaw(raw, L, R);
  }

  lemma OutcomeRight(left: string, right: string, L: seq<Segment>, R: seq<Segment>, c: Cursors, b: nat, act: Act)
    requires L == Segmentation(left) && R == Segmentation(right) && L != [] && R != [] && L != R
    requires Ended(L, R, c, b, act) && act != Kept && c.rightDone
    ensures InRange(L, R, Acted(L, c, act))
    ensures Verdict(Adjust(Finish(L, R, Acted(L, c, act)), left, right), left, right)
  {
    hide Segmentation, IsAct, Acted, Lockstep, Stopped, Shared, RestLeft, RestRight, SplitText, Straddles;
    SegmentsNonEmpty(left);
    SegmentsNonEmpty(right);
    RereadIsAct(L, R, c, b, act);
    RightStraddled(L, R, c, b);
    RightEnd(L, R, c, b, act);
    var c' := Acted(L, c, act);
    var rest := Concat(RestLeft(L, c'));
    SplitTextOneEmpty(c'.prefix, c'.suffix, rest, CanPrefix(L, R, c'), CanSuffix(L, R, c'));
    RightMisread(left, right, c'.prefix, c'.suffix, rest);
    RightReadTwice(L, R, c, b, act);
    var raw := Finish(L, R, c');
    AdjustIs(raw, left, right);
    assert IsRaw(raw, L, R);
  }

  lemma OutcomeClean(left: string, right: string, L: seq<Segment>, R: seq<Segment>, c: Cursors, b: nat, act: Act)
    requires L == Segmentation(left) && R == Segmentation(right) && L != [] && R != [] && L != R
    requires Ended(L, R, c, b, act) && (c.leftDone || c.rightDone ==> act == Kept)
    ensures InRange(L, R, Acted(L, c, act))
    ensures Verdict(Adjust(Finish(L, R, Acted(L, c, act)), left, right), left, right)
  {
    hide Segmentation, Concat, IsAct, Acted, Lockstep, Stopped, SplitText, Straddles;
    SegmentsNonEmpty(left);
    SegmentsNonEmpty(right);
    RereadIsAct(L, R, c, b, act);
    CleanEnd(L, R, c, b, act);
    var a', b' := After(c.leftStart, act, Front), After(b, act, Back);
    TextSplitSums(L, R, a', b');
    AdjustReconstructs(TextSplit(L, R, a', b'), left, right);
    TextSplitShares(L, R, a', b');
    var raw := TextSplit(L, R, a', b');
    AdjustIs(raw, left, right);
    assert IsRaw(raw, L, R);
  }

  lemma OutcomeEqual(text: string, L: seq<Segment>, c: Cursors, b: nat, act: Act)
    requires L == Segmentation(text) && L != []
    requires Ended(L, L, c, b, act)
    ensures InRange(L, L, Acted(L, c, act))
    ensures Verdict(Adjust(Finish(L, L, Acted(L, c, act)), text, text), text, text)
  {
    EqualEnd(L, c, b, act, text);
    VerdictOnEqual(text);
  }

  lemma VerdictOnEqual(text: string)
    ensures Verdict(DiffSplit(text, "", "", ""), text, text)
  {
    var S := Segmentation(text);
    assert !Straddles(S, S);
    assert text + "" + "" == text;
  }

  lemma Outcome(left: string, right: string, L: seq<Segment>, R: seq<Segment>, c: Cursors, b: nat, act: Act)
    requires L == Segmentation(left) && R == Segmentation(right) && L != [] && R != []
    requires Ended(L, R, c, b, act)
    ensures InRange(L, R, Acted(L, c, act))
    ensures Verdict(Adjust(Finish(L, R, Acted(L, c, act)), left, right), left, right)
  {
    SegmentationInjective(left, right);
    if L == R {
      OutcomeEqual(left, L, c, b, act);
    } else if act != Kept && c.leftDone {
      OutcomeLeft(left, right, L, R, c, b, act);
    } else if act != Kept && c.rightDone {
      OutcomeRight(left, right, L, R, c, b, act);
    } else {
      OutcomeClean(left, right, L, R, c, b, act);
    }
  }

  /** With an empty side there is nothing to read twice. */
  lemma EmptySide(left: string, right: string)
    requires left == "" || right == ""
    ensures !RereadsEither(left, right)
  {
  }

  method CalculateDiffSplit(left: string, right: string) returns (result: DiffSplit)
    ensures Reconstructs(result, left, right) <==> !Misreads(left, right)
    ensures result.left == "" && result.right == "" <==> left == right || MissesDifference(left, right)
    ensures left == right ==> result == DiffSplit(left, "", "", "")
    ensures left == "" ==> result == DiffSplit("", "", "", right)
    ensures left != "" && right == "" ==> result == DiffSplit("", "", left, "")
    ensures left != "" && right != "" && left != right ==> IsDifference(result, left, right)
  {
    var L := SegmentizeMarkers(left);
    var R := SegmentizeMarkers(right);
    if L == [] {
      EmptySide(left, right);
      return DiffSplit("", "", "", right);
    }
    if R == [] {
      EmptySide(left, right);
      return DiffSplit("", "", left, "");
    }
    var c, b := MatchSegments(L, R);
    var c', act := AbsorbLast(L, R, c);
    Outcome(left, right, L, R, c, b, act);
    result := Wrap(left, right, L, R, c');
  }

  /** The rests, the text they may share, and the adjustments. */
  method Wrap(left: string, right: string, L: seq<Segment>, R: seq<Segment>, c: Cursors) returns (result: DiffSplit)
    requires InRange(L, R, c)
    ensures result == Adjust(Finish(L, R, c), left, right)
  {
    hide Concat, SplitText, Adjust;
    var canHaveTextSuffix := L[c.leftEnd].kind == Text && R[c.rightEnd].kind == Text;
    var canHaveTextPrefix := R[c.rightStart].kind == Text && L[c.leftStart].kind == Text;
    var restLeft := Concat(L[c.leftStart..if c.leftDone then c.leftEnd else c.leftEnd + 1]);
    var restRight := Concat(R[c.rightStart..if c.rightDone then c.rightEnd else c.rightEnd + 1]);
    result := SplitRests(left, right, c.prefix, c.suffix, restLeft, restRight, canHaveTextPrefix, canHaveTextSuffix);
  }

  // ----- Two inputs on which the code fails

  lemma MarkersOf(names: string, text: string, segs: seq<Segment>)
    requires |segs| == |names|
    requires forall i :: 0 <= i < |names| ==> names[i] != '>' && segs[i] == Segment(Marker, ['<', names[i], '>'])
    requires Concat(segs) == text
    ensures Segmentation(text) == segs
  {
    forall i | 0 <= i < |segs|
      ensures WellPlaced(segs, i)
    {
    }
    SegmentationUnique(segs, text);
  }

  lemma ConcatCons(f: Segment, rest: seq<Segment>)
    ensures Concat([f] + rest) == f.value + Concat(rest)
  {
    assert ([f] + rest)[1..] == rest;
  }

  /** A marker repeated at the end of right only is not noticed at all. */
  lemma RepeatedMarkerIsMissed()
    ensures MissesDifference("<a><b>", "<a><b><b>")
    ensures Misreads("<a><b>", "<a><b><b>")
  {
    var A, B := Segment(Marker, "<a>"), Segment(Marker, "<b>");
    var L, R := [A, B], [A, B, B];
    ConcatCons(B, []);
    ConcatCons(B, [B]);
    ConcatCons(A, [B]);
    ConcatCons(A, [B, B]);
    MarkersOf("ab", "<a><b>", L);
    MarkersOf("abb", "<a><b><b>", R);
    assert StraddlesAt(L, R, 1);
  }

  /** Here the difference is noticed, but the pieces no longer give left back. */
  lemma RepeatedMarkerIsMisread()
    ensures Misreads("<a><b>", "<a><c><b><b>") && !MissesDifference("<a><b>", "<a><c><b><b>")
  {
    var A, B, C := Segment(Marker, "<a>"), Segment(Marker, "<b>"), Segment(Marker, "<c>");
    var L, R := [A, B], [A, C, B, B];
    ConcatCons(B, []);
    ConcatCons(B, [B]);
    ConcatCons(C, [B, B]);
    ConcatCons(A, [B]);
    ConcatCons(A, [C, B, B]);
    MarkersOf("ab", "<a><b>", L);
    MarkersOf("acbb", "<a><c><b><b>", R);
    assert StraddlesAt(L, R, 1);
    assert "<a><b>"[4] == 'b' && "<a><c><b><b>"[4] == 'c';
  }

  // ----- Text shared at both ends of two texts without markers

  lemma TextOf(text: string)
    requires text != "" && OpenerFree(text)
    ensures Segmentation(text) == [Segment(Text, text)]
  {
    var segs := [Segment(Text, text)];
    ConcatCons(segs[0], []);
    assert segs == [segs[0]] + [];
    assert WellPlaced(segs, 0);
    SegmentationUnique(segs, text);
  }

  lemma OneSegment(x: string)
    ensures Concat([Segment(Text, x)]) == x && Concat([]) == ""
  {
    var X := Segment(Text, x);
    ConcatCons(X, []);
    assert [X] + [] == [X];
  }

  lemma OneTextPieces(d: DiffSplit, x: string, y: string, s: nat, p: nat)
    requires LongestSuffix(x, y, s) && LongestPrefix(x[..|x| - s], y[..|y| - s], p) && p + s <= |x| && p + s <= |y|
    requires d == DiffSplit(x[..p], x[|x| - s..], x[p..|x| - s], y[p..|y| - s])
    ensures PiecesAre(d, [Segment(Text, x)], [Segment(Text, y)], 0, 0, s, p)
  {
    OneSegment(x);
    OneSegment(y);
    hide Concat, LongestPrefix, LongestSuffix;
    var L, R := [Segment(Text, x)], [Segment(Text, y)];
    assert L[0..1] == L && R[0..1] == R && L[..0] == [] && L[1..] == [];
    assert "" + x[..p] == x[..p] && x[|x| - s..] + "" == x[|x| - s..];
  }

  lemma OneText(x: string, y: string, s: nat, p: nat)
    requires x != "" && y != "" && x != y && OpenerFree(x) && OpenerFree(y)
    requires LongestSuffix(x, y, s) && LongestPrefix(x[..|x| - s], y[..|y| - s], p) && p + s < |x| && p + s <= |y|
    ensures IsDifference(DiffSplit(x[..p], x[|x| - s..], x[p..|x| - s], y[p..|y| - s]), x, y)
  {
    TextOf(x);
    TextOf(y);
    hide OpenerFree, LongestPrefix, LongestSuffix, Segmentation;
    var L, R := [Segment(Text, x)], [Segment(Text, y)];
    var d := DiffSplit(x[..p], x[|x| - s..], x[p..|x| - s], y[p..|y| - s]);
    OneTextPieces(d, x, y, s, p);
    assert LongestFront(L, R, 0) && LongestBack(L, R, 0) && Taken(0, 0, 1, 0, 0);
    assert SharedEnds(L, R, 0, 0);
    hide PiecesAre, SharedEnds;
    assert SharesMost(d, L, R);
    assert !Straddles(L, R) && !Straddles(R, L);
    assert IsRaw(d, L, R) && IsAdjusted(d, d, x, y);
  }

  lemma SharedPrefix()
    ensures IsDifference(DiffSplit("Hello ", "", "A", "B"), "Hello A", "Hello B")
  {
    hide IsDifference;
    var x, y := "Hello A", "Hello B";
    assert x[..7] == x && y[..7] == y && x[7..] == "" && y[7..] == "" && x[..6] == y[..6] == "Hello " && x[6..7] == "A" && y[6..7] == "B";
    OneText(x, y, 0, 6);
  }

  lemma SharedBothEnds()
    ensures IsDifference(DiffSplit("Say ", "!", "A", "B"), "Say A!", "Say B!")
  {
    hide IsDifference;
    var x, y := "Say A!", "Say B!";
    assert x[..5] == "Say A" && y[..5] == "Say B" && x[5..] == y[5..] == "!";
    assert x[..5][..4] == y[..5][..4] == "Say " && x[..4] == "Say " && x[4..5] == "A" && y[4..5] == "B";
    OneText(x, y, 1, 4);
  }
}
