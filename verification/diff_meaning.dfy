/**
 What the marker-aware difference of two texts is, without saying how it is found
 (self.llama/common/chat-auto-parser-helpers.cpp, calculate_diff_split).
 */
module DiffMeaning {
  import opened Segments
  import opened Affixes

  datatype DiffSplit = DiffSplit(prefix: string, suffix: string, left: string, right: string)

  /** Putting the pieces back together gives both inputs. */
  predicate Reconstructs(d: DiffSplit, left: string, right: string) {
    && d.prefix + d.left + d.suffix == left
    && d.prefix + d.right + d.suffix == right
  }

  // ----- Where a segment is read twice

  /** The beginning of R and the end of R hold all of L, k segments each, and something of R lies between. */
  predicate StraddlesAt(L: seq<Segment>, R: seq<Segment>, k: nat) {
    && |L| == k + k
    && |L| < |R|
    && L[..k] == R[..k]
    && L[k..] == R[|R| - k..]
  }

  predicate Straddles(L: seq<Segment>, R: seq<Segment>) {
    StraddlesAt(L, R, |L| / 2)
  }

  /**
   L is used up by the loop, half as prefix and half as suffix, and its segment in the middle,
   already taken, is matched once more against what lies between in R.
   */
  predicate Rereads(L: seq<Segment>, R: seq<Segment>) {
    && L != []
    && Straddles(L, R)
    && var k := |L| / 2;
       if |R| == |L| + 1 then L[k] == R[k] && L[k].kind == Marker
       else L[k] == R[|R| - k - 1] || L[k] == R[k]
  }

  /**
   The inputs on which the code fails to give its inputs back: the segment in the middle of the side used
   up is matched a second time, and the last adjustment does not put left back as the prefix.
   */
  predicate Misreads(left: string, right: string) {
    var L, R := Segmentation(left), Segmentation(right);
    || (Rereads(L, R) && (|R| == |L| + 1 || !(left <= right)))
    || Rereads(R, L)
  }

  /** The code reports no difference although there is one. */
  predicate MissesDifference(left: string, right: string) {
    var L, R := Segmentation(left), Segmentation(right);
    || (Rereads(L, R) && |R| == |L| + 1)
    || (Rereads(R, L) && |L| == |R| + 1)
  }

  predicate RereadsEither(left: string, right: string) {
    Rereads(Segmentation(left), Segmentation(right)) || Rereads(Segmentation(right), Segmentation(left))
  }

  // ----- How many whole segments are shared

  predicate LongestFront(L: seq<Segment>, R: seq<Segment>, n: nat) {
    n <= |L| && n <= |R| && L[..n] == R[..n] && (n < |L| && n < |R| ==> L[n] != R[n])
  }

  predicate LongestBack(L: seq<Segment>, R: seq<Segment>, n: nat) {
    && n <= |L| && n <= |R| && L[|L| - n..] == R[|R| - n..]
    && (n < |L| && n < |R| ==> L[|L| - 1 - n] != R[|R| - 1 - n])
  }

  /**
   Of m segments of the shorter side, a and b are shared at the front and at the back, where the longest common front
   and back are p and q: all of both, if there is room, and otherwise no more than half of m at an end that has more.
   */
  predicate Taken(p: nat, q: nat, m: nat, a: nat, b: nat) {
    if p + q <= m then a == p && b == q
    else
      && a + b == m
      && (2 * p <= m ==> a == p)
      && (2 * q <= m ==> b == q)
      && (2 * p > m && 2 * q > m ==> a == m / 2)
  }

  ghost predicate SharedEnds(L: seq<Segment>, R: seq<Segment>, a: nat, b: nat) {
    exists p: nat, q: nat ::
      LongestFront(L, R, p) && LongestBack(L, R, q) && Taken(p, q, if |L| <= |R| then |L| else |R|, a, b)
  }

  // ----- How much text the rests share

  predicate LongestPrefix(l: string, r: string, n: nat) {
    IsCommonPrefix(l, r, n) && (n < |l| && n < |r| ==> l[n] != r[n])
  }

  predicate LongestSuffix(l: string, r: string, n: nat) {
    IsCommonSuffix(l, r, n) && (n < |l| && n < |r| ==> l[|l| - 1 - n] != r[|r| - 1 - n])
  }

  predicate BeginInText(l: seq<Segment>, r: seq<Segment>) {
    l != [] && r != [] && l[0].kind == Text && r[0].kind == Text
  }

  predicate EndInText(l: seq<Segment>, r: seq<Segment>) {
    l != [] && r != [] && l[|l| - 1].kind == Text && r[|r| - 1].kind == Text
  }

  /** Of the rests l and r, s characters at the end and then p at the beginning are shared: all that agree where both are text. */
  predicate TextTaken(l: seq<Segment>, r: seq<Segment>, s: nat, p: nat) {
    var x, y := Concat(l), Concat(r);
    && s <= |x| && s <= |y|
    && (if EndInText(l, r) then LongestSuffix(x, y, s) else s == 0)
    && (if BeginInText(l, r) then LongestPrefix(x[..|x| - s], y[..|y| - s], p) else p == 0)
    && p + s <= |x| && p + s <= |y|
  }

  /** The pieces, with a and b segments and then s and p characters shared. */
  predicate PiecesAre(d: DiffSplit, L: seq<Segment>, R: seq<Segment>, a: nat, b: nat, s: nat, p: nat) {
    && a + b <= |L| && a + b <= |R|
    && var l, r := L[a..|L| - b], R[a..|R| - b];
       && TextTaken(l, r, s, p)
       && var x, y := Concat(l), Concat(r);
          && d.prefix == Concat(L[..a]) + x[..p]
          && d.suffix == x[|x| - s..] + Concat(L[|L| - b..])
          && d.left == x[p..|x| - s]
          && d.right == y[p..|y| - s]
  }

  ghost predicate SharesMost(d: DiffSplit, L: seq<Segment>, R: seq<Segment>) {
    exists a: nat, b: nat, s: nat, p: nat :: SharedEnds(L, R, a, b) && PiecesAre(d, L, R, a, b, s, p)
  }

  // ----- What comes of reading a segment twice

  /** Of the longer side T, everything but k + 1 segments at one end and k at the other; at the back, if that agrees too. */
  predicate ReadTwice(prefix: string, rest: string, suffix: string, S: seq<Segment>, T: seq<Segment>) {
    && Rereads(S, T)
    && var k := |S| / 2;
       var back := |T| > |S| + 1 && S[k] == T[|T| - k - 1];
       var a, b := if back then k else k + 1, if back then k + 1 else k;
       && a + b <= |T|
       && prefix == Concat(T[..a]) && rest == Concat(T[a..|T| - b]) && suffix == Concat(T[|T| - b..])
  }

  // ----- The difference

  /** The pieces before the last adjustments. */
  ghost predicate IsRaw(d: DiffSplit, L: seq<Segment>, R: seq<Segment>) {
    if Rereads(L, R) then d.left == "" && ReadTwice(d.prefix, d.right, d.suffix, L, R)
    else if Rereads(R, L) then d.right == "" && ReadTwice(d.prefix, d.left, d.suffix, R, L)
    else SharesMost(d, L, R)
  }

  /** With nothing left on either side, or nothing left of a left that right begins with, left is the prefix. */
  predicate IsAdjusted(raw: DiffSplit, d: DiffSplit, left: string, right: string) {
    if raw.left == "" && raw.right == "" then d == DiffSplit(left, "", "", "")
    else if raw.left == "" && left <= right then d == DiffSplit(left, "", "", right[|left|..])
    else d == raw
  }

  ghost predicate IsDifference(d: DiffSplit, left: string, right: string) {
    exists raw :: IsRaw(raw, Segmentation(left), Segmentation(right)) && IsAdjusted(raw, d, left, right)
  }

  // ----- There is only one

  lemma TakenAgree(p: nat, q: nat, m: nat, a: nat, b: nat, a': nat, b': nat)
    requires Taken(p, q, m, a, b) && Taken(p, q, m, a', b')
    ensures a == a' && b == b'
  {
  }

  lemma SegmentCountsAgree(L: seq<Segment>, R: seq<Segment>, a: nat, b: nat, a': nat, b': nat)
    requires SharedEnds(L, R, a, b) && SharedEnds(L, R, a', b')
    ensures a == a' && b == b'
  {
    hide LongestFront, LongestBack, Taken;
    var m := if |L| <= |R| then |L| else |R|;
    var p: nat, q: nat :| LongestFront(L, R, p) && LongestBack(L, R, q) && Taken(p, q, m, a, b);
    var p': nat, q': nat :| LongestFront(L, R, p') && LongestBack(L, R, q') && Taken(p', q', m, a', b');
    FrontsAgree(L, R, p, p');
    BacksAgree(L, R, q, q');
    TakenAgree(p, q, m, a, b, a', b');
  }

  lemma FrontAt<T>(l: seq<T>, r: seq<T>, n: nat, k: nat)
    requires k < n <= |l| && n <= |r| && l[..n] == r[..n]
    ensures l[k] == r[k]
  {
    assert l[..n][k] == r[..n][k];
  }

  lemma BackAt<T>(l: seq<T>, r: seq<T>, n: nat, k: nat)
    requires k < n <= |l| && n <= |r| && l[|l| - n..] == r[|r| - n..]
    ensures l[|l| - 1 - k] == r[|r| - 1 - k]
  {
    assert l[|l| - n..][n - 1 - k] == r[|r| - n..][n - 1 - k];
  }

  lemma FrontsAgree(L: seq<Segment>, R: seq<Segment>, p: nat, p': nat)
    requires LongestFront(L, R, p) && LongestFront(L, R, p')
    ensures p == p'
  {
    if p < p' {
      FrontAt(L, R, p', p);
    } else if p' < p {
      FrontAt(L, R, p, p');
    }
  }

  lemma BacksAgree(L: seq<Segment>, R: seq<Segment>, q: nat, q': nat)
    requires LongestBack(L, R, q) && LongestBack(L, R, q')
    ensures q == q'
  {
    if q < q' {
      BackAt(L, R, q', q);
    } else if q' < q {
      BackAt(L, R, q, q');
    }
  }

  lemma PrefixesAgree(l: string, r: string, n: nat, n': nat)
    requires LongestPrefix(l, r, n) && LongestPrefix(l, r, n')
    ensures n == n'
  {
    if n < n' {
      FrontAt(l, r, n', n);
    } else if n' < n {
      FrontAt(l, r, n, n');
    }
  }

  lemma SuffixesAgree(l: string, r: string, n: nat, n': nat)
    requires LongestSuffix(l, r, n) && LongestSuffix(l, r, n')
    ensures n == n'
  {
    if n < n' {
      BackAt(l, r, n', n);
    } else if n' < n {
      BackAt(l, r, n, n');
    }
  }

  lemma PiecesAgree(d: DiffSplit, d': DiffSplit, L: seq<Segment>, R: seq<Segment>, a: nat, b: nat, s: nat, p: nat, s': nat, p': nat)
    requires PiecesAre(d, L, R, a, b, s, p) && PiecesAre(d', L, R, a, b, s', p')
    ensures d == d'
  {
    hide LongestPrefix, LongestSuffix;
    var l, r := L[a..|L| - b], R[a..|R| - b];
    var x, y := Concat(l), Concat(r);
    if EndInText(l, r) {
      SuffixesAgree(x, y, s, s');
    }
    if BeginInText(l, r) {
      PrefixesAgree(x[..|x| - s], y[..|y| - s], p, p');
    }
  }

  lemma RawAgree(d: DiffSplit, d': DiffSplit, L: seq<Segment>, R: seq<Segment>)
    requires IsRaw(d, L, R) && IsRaw(d', L, R)
    ensures d == d'
  {
    hide SharedEnds, PiecesAre, Rereads;
    if !Rereads(L, R) && !Rereads(R, L) {
      var a: nat, b: nat, s: nat, p: nat :| SharedEnds(L, R, a, b) && PiecesAre(d, L, R, a, b, s, p);
      var a': nat, b': nat, s': nat, p': nat :| SharedEnds(L, R, a', b') && PiecesAre(d', L, R, a', b', s', p');
      SegmentCountsAgree(L, R, a, b, a', b');
      PiecesAgree(d, d', L, R, a, b, s, p, s', p');
    }
  }

  /** Two texts have one difference. */
  lemma DifferenceUnique(d: DiffSplit, d': DiffSplit, left: string, right: string)
    requires IsDifference(d, left, right) && IsDifference(d', left, right)
    ensures d == d'
  {
    hide IsRaw, Segmentation;
    var L, R := Segmentation(left), Segmentation(right);
    var raw :| IsRaw(raw, L, R) && IsAdjusted(raw, d, left, right);
    var raw' :| IsRaw(raw', L, R) && IsAdjusted(raw', d', left, right);
    RawAgree(raw, raw', L, R);
  }
}
