/**
 Common prefixes and suffixes of two strings, and the text of a third string
 before (after) the first (last) place where it shows up
 (self.llama/common/chat-auto-parser-helpers.cpp).
 */
module Affixes {

  datatype Position = Found(at: nat) | NotFound

  // ----- Common prefix and suffix lengths

  predicate IsCommonPrefix(l: string, r: string, n: nat) {
    n <= |l| && n <= |r| && l[..n] == r[..n]
  }

  predicate IsCommonSuffix(l: string, r: string, n: nat) {
    n <= |l| && n <= |r| && l[|l| - n..] == r[|r| - n..]
  }

  /** The length of the longest common prefix, given that the first n characters agree. */
  function ExtendPrefix(l: string, r: string, n: nat): (m: nat)
    requires IsCommonPrefix(l, r, n)
    ensures n <= m && IsCommonPrefix(l, r, m)
    ensures m < |l| && m < |r| ==> l[m] != r[m]
    decreases |l| - n
  {
    if n < |l| && n < |r| && l[n] == r[n] then
      assert l[..n + 1] == l[..n] + [l[n]] && r[..n + 1] == r[..n] + [r[n]];
      ExtendPrefix(l, r, n + 1)
    else n
  }

  function CommonPrefixLen(l: string, r: string): (n: nat)
    ensures IsCommonPrefix(l, r, n)
    ensures n < |l| && n < |r| ==> l[n] != r[n]
  {
    ExtendPrefix(l, r, 0)
  }

  lemma CommonPrefixLenIs(l: string, r: string, n: nat)
    requires IsCommonPrefix(l, r, n)
    requires n < |l| && n < |r| ==> l[n] != r[n]
    ensures CommonPrefixLen(l, r) == n
  {
  }

  lemma CommonSuffixGrows(l: string, r: string, n: nat)
    requires IsCommonSuffix(l, r, n) && n < |l| && n < |r| && l[|l| - 1 - n] == r[|r| - 1 - n]
    ensures IsCommonSuffix(l, r, n + 1)
  {
    assert l[|l| - (n + 1)..] == [l[|l| - 1 - n]] + l[|l| - n..];
    assert r[|r| - (n + 1)..] == [r[|r| - 1 - n]] + r[|r| - n..];
  }

  function ExtendSuffix(l: string, r: string, n: nat): (m: nat)
    requires IsCommonSuffix(l, r, n)
    ensures n <= m && IsCommonSuffix(l, r, m)
    ensures m < |l| && m < |r| ==> l[|l| - 1 - m] != r[|r| - 1 - m]
    decreases |l| - n
  {
    if n < |l| && n < |r| && l[|l| - 1 - n] == r[|r| - 1 - n] then
      CommonSuffixGrows(l, r, n);
      ExtendSuffix(l, r, n + 1)
    else n
  }

  function CommonSuffixLen(l: string, r: string): (n: nat)
    ensures IsCommonSuffix(l, r, n)
    ensures n < |l| && n < |r| ==> l[|l| - 1 - n] != r[|r| - 1 - n]
  {
    ExtendSuffix(l, r, 0)
  }

  method CommonPrefixLength(left: string, right: string) returns (n: nat)
    ensures n == CommonPrefixLen(left, right)
  {
    n := 0;
    var minLen := if |left| < |right| then |left| else |right|;
    while n < minLen && left[n] == right[n]
      invariant IsCommonPrefix(left, right, n)
      invariant ExtendPrefix(left, right, n) == CommonPrefixLen(left, right)
    {
      assert left[..n + 1] == left[..n] + [left[n]] && right[..n + 1] == right[..n] + [right[n]];
      n := n + 1;
    }
  }

  method CommonSuffixLength(left: string, right: string) returns (n: nat)
    ensures n == CommonSuffixLen(left, right)
  {
    n := 0;
    var minLen := if |left| < |right| then |left| else |right|;
    while n < minLen && left[|left| - 1 - n] == right[|right| - 1 - n]
      invariant IsCommonSuffix(left, right, n)
      invariant ExtendSuffix(left, right, n) == CommonSuffixLen(left, right)
    {
      CommonSuffixGrows(left, right, n);
      n := n + 1;
    }
  }

  // ----- Searching

  predicate OccursAt(s: string, pat: string, i: nat) {
    i + |pat| <= |s| && s[i..i + |pat|] == pat
  }

  /** The first occurrence of pat at or after i, as std::string::find gives it. */
  function FindFrom(s: string, pat: string, i: nat): (p: Position)
    ensures p.Found? ==> i <= p.at && OccursAt(s, pat, p.at)
    ensures forall j: nat :: i <= j && (p.Found? ==> j < p.at) ==> !OccursAt(s, pat, j)
    decreases |s| - i
  {
    if i + |pat| > |s| then NotFound
    else if OccursAt(s, pat, i) then Found(i)
    else if i == |s| then NotFound
    else FindFrom(s, pat, i + 1)
  }

  /** The last occurrence of pat at or before i, as std::string::rfind gives it. */
  function FindBackFrom(s: string, pat: string, i: nat): (p: Position)
    ensures p.Found? ==> p.at <= i && OccursAt(s, pat, p.at)
    ensures forall j: nat :: j <= i && (p.Found? ==> p.at < j) ==> !OccursAt(s, pat, j)
  {
    if OccursAt(s, pat, i) then Found(i)
    else if i == 0 then NotFound
    else FindBackFrom(s, pat, i - 1)
  }

  // ----- The two cutters

  function BeforeFirst(full: string, pat: string): string {
    var pos := FindFrom(full, pat, 0);
    if pat == "" || pos.NotFound? then "" else full[..pos.at]
  }

  function AfterLast(full: string, pat: string): string {
    var pos := FindBackFrom(full, pat, |full|);
    if pat == "" || pos.NotFound? then "" else full[pos.at + |pat|..]
  }

  function UntilCommonPrefix(full: string, left: string, right: string): string {
    BeforeFirst(full, left[..CommonPrefixLen(left, right)])
  }

  function AfterCommonSuffix(full: string, left: string, right: string): string {
    AfterLast(full, left[|left| - CommonSuffixLen(left, right)..])
  }

  method CutUntilCommonPrefix(full: string, left: string, right: string) returns (result: string)
    ensures result == UntilCommonPrefix(full, left, right)
  {
    var commonPrefixLen := CommonPrefixLength(left, right);
    if commonPrefixLen == 0 {
      return "";
    }
    var commonPrefix := left[..commonPrefixLen];
    var pos := FindFrom(full, commonPrefix, 0);
    if pos.NotFound? {
      return "";
    }
    result := full[..pos.at];
  }

  method CutAfterCommonSuffix(full: string, left: string, right: string) returns (result: string)
    ensures result == AfterCommonSuffix(full, left, right)
  {
    var commonSuffixLen := CommonSuffixLength(left, right);
    if commonSuffixLen == 0 {
      return "";
    }
    var commonSuffix := left[|left| - commonSuffixLen..];
    var pos := FindBackFrom(full, commonSuffix, |full|);
    if pos.NotFound? {
      return "";
    }
    result := full[pos.at + commonSuffixLen..];
  }

  /** full begins with u and then the pattern, and the pattern does not occur earlier. */
  predicate StandsFirstAfter(full: string, u: string, pat: string) {
    && u <= full
    && OccursAt(full, pat, |u|)
    && (forall j: nat :: j < |u| ==> !OccursAt(full, pat, j))
  }

  /**
   A non-empty result is exactly the text before the first place where the longest
   common prefix of left and right stands in full.
   */
  lemma UntilIsBeforeFirst(full: string, left: string, right: string, u: string, n: nat)
    requires u != ""
    requires IsCommonPrefix(left, right, n)
    requires n < |left| && n < |right| ==> left[n] != right[n]
    ensures u == UntilCommonPrefix(full, left, right) <==> n > 0 && StandsFirstAfter(full, u, left[..n])
  {
    CommonPrefixLenIs(left, right, n);
    var pos := FindFrom(full, left[..n], 0);
    if n > 0 && StandsFirstAfter(full, u, left[..n]) {
      assert pos.Found? && pos.at == |u|;
    }
  }

  // ----- Mirror images

  function Reverse(s: string): (r: string)
    ensures |r| == |s|
    ensures forall k :: 0 <= k < |s| ==> r[k] == s[|s| - 1 - k]
  {
    seq(|s|, k requires 0 <= k < |s| => s[|s| - 1 - k])
  }

  lemma ReverseSlice(s: string, i: nat, j: nat)
    requires i <= j <= |s|
    ensures Reverse(s)[i..j] == Reverse(s[|s| - j..|s| - i])
  {
    var a, b := Reverse(s)[i..j], Reverse(s[|s| - j..|s| - i]);
    assert |a| == |b|;
    forall k | 0 <= k < |a|
      ensures a[k] == b[k]
    {
      assert a[k] == Reverse(s)[i + k] == s[|s| - 1 - (i + k)];
    }
  }

  lemma ReverseInvolutive(s: string)
    ensures Reverse(Reverse(s)) == s
  {
    var r := Reverse(s);
    assert forall k :: 0 <= k < |s| ==> Reverse(r)[k] == r[|s| - 1 - k] == s[k];
  }

  lemma ReverseInjective(a: string, b: string)
    ensures Reverse(a) == Reverse(b) <==> a == b
  {
    ReverseInvolutive(a);
    ReverseInvolutive(b);
  }

  lemma ReversePrefix(s: string, n: nat)
    requires n <= |s|
    ensures Reverse(s)[..n] == Reverse(s[|s| - n..])
  {
    ReverseSlice(s, 0, n);
    assert s[|s| - n..|s|] == s[|s| - n..];
  }

  lemma CommonSuffixMirrors(l: string, r: string)
    ensures CommonPrefixLen(Reverse(l), Reverse(r)) == CommonSuffixLen(l, r)
  {
    var n := CommonSuffixLen(l, r);
    ReversePrefix(l, n);
    ReversePrefix(r, n);
    CommonPrefixLenIs(Reverse(l), Reverse(r), n);
  }

  lemma OccursMirrors(s: string, pat: string, i: nat)
    requires i + |pat| <= |s|
    ensures OccursAt(Reverse(s), Reverse(pat), i) <==> OccursAt(s, pat, |s| - i - |pat|)
  {
    var part := s[|s| - i - |pat|..|s| - i];
    ReverseSlice(s, i, i + |pat|);
    ReverseInjective(part, pat);
  }

  /** rfind is find on the reversed strings. */
  lemma FindMirrors(s: string, pat: string)
    ensures var p, q := FindFrom(Reverse(s), Reverse(pat), 0), FindBackFrom(s, pat, |s|);
            && (p.Found? <==> q.Found?)
            && (p.Found? ==> p.at + |pat| <= |s| && q.at == |s| - |pat| - p.at)
  {
    var p, q := FindFrom(Reverse(s), Reverse(pat), 0), FindBackFrom(s, pat, |s|);
    if p.Found? {
      OccursMirrors(s, pat, p.at);
      assert q.Found? && q.at >= |s| - |pat| - p.at;
    }
    if q.Found? {
      OccursMirrors(s, pat, |s| - |pat| - q.at);
      assert p.Found? && p.at <= |s| - |pat| - q.at;
    }
  }

  lemma AfterLastMirrors(full: string, pat: string)
    ensures AfterLast(full, pat) == Reverse(BeforeFirst(Reverse(full), Reverse(pat)))
  {
    FindMirrors(full, pat);
    var p := FindFrom(Reverse(full), Reverse(pat), 0);
    if pat != "" && p.Found? {
      ReversePrefix(full, p.at);
      ReverseInvolutive(full[|full| - p.at..]);
    }
  }

  lemma UntilIs(full: string, left: string, right: string, pat: string)
    requires pat == left[..CommonPrefixLen(left, right)]
    ensures UntilCommonPrefix(full, left, right) == BeforeFirst(full, pat)
  {
  }

  lemma AfterIs(full: string, left: string, right: string, pat: string)
    requires pat == left[|left| - CommonSuffixLen(left, right)..]
    ensures AfterCommonSuffix(full, left, right) == AfterLast(full, pat)
  {
  }

  /** The longest common prefix of the reversed strings is the longest common suffix reversed. */
  lemma SuffixMirrors(left: string, right: string)
    ensures Reverse(left)[..CommonPrefixLen(Reverse(left), Reverse(right))] == Reverse(left[|left| - CommonSuffixLen(left, right)..])
  {
    hide CommonPrefixLen, CommonSuffixLen;
    CommonSuffixMirrors(left, right);
    ReversePrefix(left, CommonSuffixLen(left, right));
  }

  /** after_common_suffix is the mirror image of until_common_prefix. */
  lemma AfterMirrorsUntil(full: string, left: string, right: string)
    ensures AfterCommonSuffix(full, left, right)
         == Reverse(UntilCommonPrefix(Reverse(full), Reverse(left), Reverse(right)))
  {
    hide Reverse, BeforeFirst, AfterLast, CommonPrefixLen, CommonSuffixLen, UntilCommonPrefix, AfterCommonSuffix;
    var pat := left[|left| - CommonSuffixLen(left, right)..];
    SuffixMirrors(left, right);
    AfterIs(full, left, right, pat);
    AfterLastMirrors(full, pat);
    UntilIs(Reverse(full), Reverse(left), Reverse(right), Reverse(pat));
  }

  /** The fourth example in the header expects "one ", but "argument" does not occur: the only 'u' of the text is its last letter but one. */
  lemma HeaderExample()
    ensures UntilCommonPrefix("one arg two args three args four", "argument alpha", "argument beta") == ""
  {
    hide FindFrom, CommonPrefixLen, OccursAt;
    var full, l, r := "one arg two args three args four", "argument alpha", "argument beta";
    assert l[..9] == r[..9] && l[9] != r[9];
    CommonPrefixLenIs(l, r, 9);
    assert l[..9] == "argument ";
    var pos := FindFrom(full, l[..9], 0);
    assert forall i :: 0 <= i < |full| && full[i] == 'u' ==> i == 30;
    if pos.Found? {
      WouldHoldU(full, pos.at);
    }
  }

  lemma WouldHoldU(s: string, i: nat)
    requires OccursAt(s, "argument ", i)
    ensures i + 9 <= |s| && s[i + 3] == 'u'
  {
    assert s[i..i + 9][3] == "argument "[3];
  }
}
