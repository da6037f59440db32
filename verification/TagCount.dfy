/** `count_html_tags`: the loop that looks for "<[^>]{1,40}>" again and again,
    each time from just after the last match. */
module TagCount {
  import opened CText

  const MIN_LEN := 2
  const MAX_LEN := 41

  /** The expression matches from i to j inclusive: '<', one to forty characters
      other than '>', and '>'. */
  predicate Matches(s: string, i: int, j: int) {
    0 <= i && j < |s| && MIN_LEN <= j - i <= MAX_LEN && s[i] == '<' && s[j] == '>' &&
    forall k :: i < k < j ==> s[k] != '>'
  }

  /** The position of the first '>' at or after p, or the end. */
  function NextClose(s: string, p: nat): (j: nat)
    requires p <= |s|
    ensures p <= j <= |s|
    ensures forall k :: p <= k < j ==> s[k] != '>'
    ensures j < |s| ==> s[j] == '>'
    decreases |s| - p
  {
    if p == |s| || s[p] == '>' then p else NextClose(s, p + 1)
  }

  /** `strexpr`: the leftmost match at or after p, if any. From a given '<' there
      is one match at most, so leftmost decides. */
  function FindTag(s: string, p: nat): (r: Option<(nat, nat)>)
    requires p <= |s|
    ensures r.Some? ==> p <= r.value.0 && Matches(s, r.value.0, r.value.1)
    ensures forall i, j :: p <= i < (if r.Some? then r.value.0 else |s|) ==> !Matches(s, i, j)
    decreases |s| - p
  {
    if p == |s| then None
    else
      var j := NextClose(s, p + 1);
      if Matches(s, p, j) then Some((p, j))
      else
        assert forall k :: Matches(s, p, k) ==> k == j;
        FindTag(s, p + 1)
  }

  // ----- the local count -----------------------------------------------------

  /** The '>' at j closes a tag: since the '>' before it, some '<' stands 2 to 41
      characters ahead of it. */
  predicate Closes(s: string, j: int) {
    0 <= j < |s| && exists i :: j - MAX_LEN <= i <= j - MIN_LEN && Matches(s, i, j)
  }

  /** ... in characters. */
  lemma ClosesIff(s: string, j: nat)
    requires j < |s|
    ensures Closes(s, j) <==>
      (s[j] == '>' &&
       exists i :: 0 <= i && j - 41 <= i <= j - 2 && s[i] == '<' && forall k :: i < k < j ==> s[k] != '>')
  {
    if Closes(s, j) {
      var i :| j - MAX_LEN <= i <= j - MIN_LEN && Matches(s, i, j);
      assert 0 <= i && j - 41 <= i <= j - 2 && s[i] == '<';
    }
    if i :| 0 <= i && j - 41 <= i <= j - 2 && s[i] == '<' && (forall k :: i < k < j ==> s[k] != '>') && s[j] == '>' {
      assert Matches(s, i, j);
    }
  }

  /** How many positions of s[a..b] close a tag. */
  function ClosesIn(s: string, a: nat, b: nat): nat
    requires a <= b <= |s|
  {
    if a == b then 0 else ClosesIn(s, a, b - 1) + if Closes(s, b - 1) then 1 else 0
  }

  lemma {:induction false} ClosesSplit(s: string, a: nat, m: nat, b: nat)
    requires a <= m <= b <= |s|
    ensures ClosesIn(s, a, b) == ClosesIn(s, a, m) + ClosesIn(s, m, b)
  {
    if m < b { ClosesSplit(s, a, m, b - 1); }
  }

  lemma {:induction false} NoCloses(s: string, a: nat, b: nat)
    requires a <= b <= |s|
    requires forall j :: a <= j < b ==> !Closes(s, j)
    ensures ClosesIn(s, a, b) == 0
  {
    if a < b { NoCloses(s, a, b - 1); }
  }

  predicate AfterClose(s: string, p: nat) {
    p == 0 || (p <= |s| && s[p - 1] == '>')
  }

  /** A match ends after p only if it begins there, since a '>' stands before p. */
  lemma MatchStays(s: string, p: nat, i: int, j: int)
    requires AfterClose(s, p) && p <= j && Matches(s, i, j)
    ensures i >= p
  {
    assert p > 0 ==> i != p - 1 && !(i < p - 1 < j);
  }

  /** Between the start of a search and the end of its match only the last
      character closes a tag. */
  lemma MatchIsNext(s: string, p: nat, i: nat, e: nat)
    requires p <= |s| && AfterClose(s, p) && FindTag(s, p) == Some((i, e))
    ensures p + 3 <= e + 1 <= |s| && s[e] == '>' && ClosesIn(s, p, e + 1) == 1
  {
    assert Closes(s, e);
    forall j, i' | p <= j < e
      ensures !Matches(s, i', j)
    {
      if Matches(s, i', j) { MatchStays(s, p, i', j); }
    }
    NoCloses(s, p, e);
  }

  lemma NoMatchLeft(s: string, p: nat)
    requires p <= |s| && AfterClose(s, p) && FindTag(s, p) == None
    ensures ClosesIn(s, p, |s|) == 0
  {
    forall j, i | p <= j < |s|
      ensures !Matches(s, i, j)
    {
      if Matches(s, i, j) { MatchStays(s, p, i, j); }
    }
    NoCloses(s, p, |s|);
  }

  /** The loop ends, and returns the number of '>' that close a tag. */
  method CountHtmlTags(buf: string) returns (res: nat)
    ensures res == ClosesIn(buf, 0, |buf|)
  {
    var p := 0;
    res := 0;
    while p < |buf|
      invariant p <= |buf| && AfterClose(buf, p)
      invariant res == ClosesIn(buf, 0, p)
      decreases |buf| - p
    {
      match FindTag(buf, p) {
        case None =>
          NoMatchLeft(buf, p);
          ClosesSplit(buf, 0, p, |buf|);
          return;
        case Some(tag) =>
          MatchIsNext(buf, p, tag.0, tag.1);
          ClosesSplit(buf, 0, p, tag.1 + 1);
          p := tag.1 + 1;
          res := res + 1;
      }
    }
  }

  // ----- consequences --------------------------------------------------------

  function Tags(s: string): nat { ClosesIn(s, 0, |s|) }

  /** Each tag takes at least three characters. */
  lemma {:induction false} TagsFit(s: string, p: nat)
    requires p <= |s| && AfterClose(s, p)
    ensures 3 * ClosesIn(s, p, |s|) <= |s| - p
    decreases |s| - p
  {
    match FindTag(s, p)
    case None => NoMatchLeft(s, p);
    case Some(tag) =>
      MatchIsNext(s, p, tag.0, tag.1);
      ClosesSplit(s, p, tag.1 + 1, |s|);
      TagsFit(s, tag.1 + 1);
  }

  lemma ThreeTimesTags(s: string)
    ensures 3 * Tags(s) <= |s|
  {
    TagsFit(s, 0);
  }

  lemma MatchesShift(a: string, b: string, i: int, j: int)
    requires 0 <= i
    ensures Matches(a + b, |a| + i, |a| + j) <==> Matches(b, i, j)
  {
    var s := a + b;
    assert forall k :: 0 <= k < |b| ==> s[|a| + k] == b[k];
    if Matches(s, |a| + i, |a| + j) {
      forall k | i < k < j ensures b[k] != '>' { assert s[|a| + k] != '>'; }
    }
    if Matches(b, i, j) {
      forall k | |a| + i < k < |a| + j ensures s[k] != '>' { assert b[k - |a|] != '>'; }
    }
  }

  lemma MatchesPrefix(a: string, b: string, i: int, j: int)
    requires j < |a|
    ensures Matches(a + b, i, j) <==> Matches(a, i, j)
  {
    assert forall k :: 0 <= k < |a| ==> (a + b)[k] == a[k];
  }

  lemma ClosesShift(a: string, b: string, j: nat)
    requires AfterClose(a, |a|) && j < |b|
    ensures Closes(a + b, |a| + j) <==> Closes(b, j)
  {
    if Closes(b, j) {
      var i :| j - MAX_LEN <= i <= j - MIN_LEN && Matches(b, i, j);
      MatchesShift(a, b, i, j);
    }
    if Closes(a + b, |a| + j) {
      var i :| |a| + j - MAX_LEN <= i <= |a| + j - MIN_LEN && Matches(a + b, i, |a| + j);
      MatchStays(a + b, |a|, i, |a| + j);
      MatchesShift(a, b, i - |a|, j);
    }
  }

  lemma {:induction false} ClosesInShift(a: string, b: string, n: nat)
    requires AfterClose(a, |a|) && n <= |b|
    ensures ClosesIn(a + b, |a|, |a| + n) == ClosesIn(b, 0, n)
  {
    if n > 0 {
      ClosesInShift(a, b, n - 1);
      ClosesShift(a, b, n - 1);
    }
  }

  lemma {:induction false} ClosesInPrefix(a: string, b: string, n: nat)
    requires n <= |a|
    ensures ClosesIn(a + b, 0, n) == ClosesIn(a, 0, n)
  {
    if n > 0 {
      ClosesInPrefix(a, b, n - 1);
      ClosesPrefix(a, b, n - 1);
    }
  }

  lemma ClosesPrefix(a: string, b: string, j: nat)
    requires j < |a|
    ensures Closes(a + b, j) <==> Closes(a, j)
  {
    forall i { MatchesPrefix(a, b, i, j); }
  }

  /** The count is additive over a cut just after a '>'. */
  lemma TagsAdd(a: string, b: string)
    requires AfterClose(a, |a|)
    ensures Tags(a + b) == Tags(a) + Tags(b)
  {
    ClosesSplit(a + b, 0, |a|, |a + b|);
    ClosesInPrefix(a, b, |a|);
    ClosesInShift(a, b, |b|);
  }
}
