/** The figures `group_token_files` reports about the tokens it keeps. */
module TokenStats {
  import opened CText
  import opened Tokens

  /** A record of the tree as `jbt_browse` hands it to its callback. */
  datatype Record = Record(token: string, n: Counts)

  predicate Kept(r: Record, nbmin: int) { r.n.s >= nbmin || r.n.h >= nbmin }

  predicate InSpam(r: Record) { r.n.s > 0 }

  predicate InHam(r: Record) { r.n.h > 0 }

  /** How many records satisfy p. */
  function CountIf(rs: seq<Record>, p: Record -> bool): nat {
    if rs == [] then 0 else CountIf(rs[..|rs| - 1], p) + if p(rs[|rs| - 1]) then 1 else 0
  }

  /** The spam or ham total of the records that satisfy p. */
  function SumIf(rs: seq<Record>, p: Record -> bool, spam: bool): int {
    if rs == [] then 0 else SumIf(rs[..|rs| - 1], p, spam) + if p(rs[|rs| - 1]) then rs[|rs| - 1].n.Of(spam) else 0
  }

  function KeptLines(rs: seq<Record>, nbmin: int): seq<string> {
    if rs == [] then []
    else
      var r := rs[|rs| - 1];
      KeptLines(rs[..|rs| - 1], nbmin)
      + if Kept(r, nbmin) then [PadRight(r.token, 40) + " " + PrintInt(r.n.s) + " " + PrintInt(r.n.h) + "\n"] else []
  }

  function KeptBy(nbmin: int): Record -> bool { (r: Record) => Kept(r, nbmin) }

  function SpamBy(nbmin: int): Record -> bool { (r: Record) => Kept(r, nbmin) && InSpam(r) }

  function HamBy(nbmin: int): Record -> bool { (r: Record) => Kept(r, nbmin) && InHam(r) }

  function SharedBy(nbmin: int): Record -> bool { (r: Record) => Kept(r, nbmin) && InSpam(r) && InHam(r) }

  /** `btok_arg_T` and what has been printed. */
  class BtokArg {
    const nbmin: int
    var nts: int
    var nth: int
    var nfspam: int
    var nfham: int
    var nfshar: int
    var nftot: int
    var out: seq<string>

    constructor (min: int)
      ensures nbmin == min && Reports([])
    {
      nbmin := min;
      nts, nth, nfspam, nfham, nfshar, nftot, out := 0, 0, 0, 0, 0, 0, [];
    }

    /** The counters are the figures of the records browsed so far. */
    ghost predicate Reports(rs: seq<Record>)
      reads this
    {
      && nts == SumIf(rs, KeptBy(nbmin), true) && nth == SumIf(rs, KeptBy(nbmin), false)
      && nfspam == CountIf(rs, SpamBy(nbmin)) && nfham == CountIf(rs, HamBy(nbmin))
      && nfshar == CountIf(rs, SharedBy(nbmin)) && nftot == CountIf(rs, KeptBy(nbmin))
      && out == KeptLines(rs, nbmin)
    }

    /** `btok_browse`. */
    method Browse(r: Record, ghost before: seq<Record>) returns (n: int)
      requires Reports(before)
      modifies this
      ensures Reports(before + [r])
      ensures
        var kept := r.n.s >= nbmin || r.n.h >= nbmin;
        n == (if kept then 1 else 0) &&
        nts == old(nts) + (if kept then r.n.s else 0) && nth == old(nth) + (if kept then r.n.h else 0) &&
        nfspam == old(nfspam) + (if kept && r.n.s > 0 then 1 else 0) &&
        nfham == old(nfham) + (if kept && r.n.h > 0 then 1 else 0) &&
        nfshar == old(nfshar) + (if kept && r.n.s > 0 && r.n.h > 0 then 1 else 0) &&
        nftot == old(nftot) + (if kept then 1 else 0) &&
        out == old(out) +
          if kept then [PadRight(r.token, 40) + " " + PrintInt(r.n.s) + " " + PrintInt(r.n.h) + "\n"] else []
    {
      ghost var after := before + [r];
      assert after[..|after| - 1] == before;
      if r.n.s >= nbmin || r.n.h >= nbmin {
        nts := nts + r.n.s;
        nth := nth + r.n.h;
        if r.n.s > 0 { nfspam := nfspam + 1; }
        if r.n.h > 0 { nfham := nfham + 1; }
        if r.n.s > 0 && r.n.h > 0 { nfshar := nfshar + 1; }
        nftot := nftot + 1;
        out := out + [PadRight(r.token, 40) + " " + PrintInt(r.n.s) + " " + PrintInt(r.n.h) + "\n"];
        return 1;
      }
      return 0;
    }

    /** `jbt_browse` over the tree's records: the sum of the callback's results. */
    method BrowseAll(rs: seq<Record>) returns (browsed: int)
      requires Reports([])
      modifies this
      ensures Reports(rs) && browsed == nftot
    {
      browsed := 0;
      for i := 0 to |rs|
        invariant Reports(rs[..i]) && browsed == nftot
      {
        assert rs[..i + 1] == rs[..i] + [rs[i]];
        assert rs[..i + 1][..i] == rs[..i];
        var n := Browse(rs[i], rs[..i]);
        browsed := browsed + n;
      }
      assert rs[..|rs|] == rs;
    }
  }

  // ----- what the figures satisfy --------------------------------------------

  lemma {:induction false} CountUnion(rs: seq<Record>, p: Record -> bool, q: Record -> bool,
                                      both: Record -> bool, either: Record -> bool)
    requires forall r :: both(r) <==> p(r) && q(r)
    requires forall r :: either(r) <==> p(r) || q(r)
    ensures CountIf(rs, either) == CountIf(rs, p) + CountIf(rs, q) - CountIf(rs, both)
  {
    if rs != [] { CountUnion(rs[..|rs| - 1], p, q, both, either); }
  }

  lemma {:induction false} CountSplit(rs: seq<Record>, p: Record -> bool, yes: Record -> bool, no: Record -> bool)
    requires forall r :: p(r) <==> yes(r) || no(r)
    requires forall r :: !(yes(r) && no(r))
    ensures CountIf(rs, p) == CountIf(rs, yes) + CountIf(rs, no)
  {
    if rs != [] { CountSplit(rs[..|rs| - 1], p, yes, no); }
  }

  lemma {:induction false} CountMonotone(rs: seq<Record>, p: Record -> bool, q: Record -> bool)
    requires forall r :: p(r) ==> q(r)
    ensures CountIf(rs, p) <= CountIf(rs, q)
  {
    if rs != [] { CountMonotone(rs[..|rs| - 1], p, q); }
  }

  predicate NonNegative(rs: seq<Record>) {
    forall i :: 0 <= i < |rs| ==> rs[i].n.s >= 0 && rs[i].n.h >= 0
  }

  lemma {:induction false} SumMonotone(rs: seq<Record>, p: Record -> bool, q: Record -> bool, spam: bool)
    requires NonNegative(rs)
    requires forall r :: p(r) ==> q(r)
    ensures 0 <= SumIf(rs, p, spam) <= SumIf(rs, q, spam)
  {
    if rs != [] {
      assert NonNegative(rs[..|rs| - 1]);
      SumMonotone(rs[..|rs| - 1], p, q, spam);
      assert rs[|rs| - 1].n.s >= 0;
    }
  }

  lemma {:induction false} CountZeroIff(rs: seq<Record>, p: Record -> bool)
    ensures CountIf(rs, p) == 0 <==> forall i :: 0 <= i < |rs| ==> !p(rs[i])
  {
    if rs != [] {
      var n := |rs| - 1;
      CountZeroIff(rs[..n], p);
      assert forall i :: 0 <= i < n ==> rs[..n][i] == rs[i];
      assert p(rs[n]) || forall i :: 0 <= i < |rs| && i != n ==> rs[i] == rs[..n][i];
    }
  }

  /** Total features are spam features plus ham features less shared features if
      and only if no kept token has both counts at zero or below. */
  lemma FeatureIdentityIff(rs: seq<Record>, nbmin: int)
    ensures CountIf(rs, KeptBy(nbmin)) ==
            CountIf(rs, SpamBy(nbmin)) + CountIf(rs, HamBy(nbmin)) - CountIf(rs, SharedBy(nbmin))
            <==> forall i :: 0 <= i < |rs| && Kept(rs[i], nbmin) ==> rs[i].n.s > 0 || rs[i].n.h > 0
  {
    var either := (r: Record) => Kept(r, nbmin) && (InSpam(r) || InHam(r));
    var neither := (r: Record) => Kept(r, nbmin) && !InSpam(r) && !InHam(r);
    CountUnion(rs, SpamBy(nbmin), HamBy(nbmin), SharedBy(nbmin), either);
    CountSplit(rs, KeptBy(nbmin), either, neither);
    CountZeroIff(rs, neither);
    assert (forall i :: 0 <= i < |rs| ==> !neither(rs[i])) <==>
           (forall i :: 0 <= i < |rs| && Kept(rs[i], nbmin) ==> rs[i].n.s > 0 || rs[i].n.h > 0);
  }

  /** ... so it holds whenever the minimum is at least one. */
  lemma FeatureIdentity(rs: seq<Record>, nbmin: int)
    requires nbmin >= 1
    ensures CountIf(rs, KeptBy(nbmin)) ==
            CountIf(rs, SpamBy(nbmin)) + CountIf(rs, HamBy(nbmin)) - CountIf(rs, SharedBy(nbmin))
  {
    FeatureIdentityIff(rs, nbmin);
  }

  /** Raising the minimum never raises a figure. */
  lemma RaisingMinimum(rs: seq<Record>, lo: int, hi: int)
    requires lo <= hi && NonNegative(rs)
    ensures CountIf(rs, KeptBy(hi)) <= CountIf(rs, KeptBy(lo))
    ensures CountIf(rs, SpamBy(hi)) <= CountIf(rs, SpamBy(lo))
    ensures CountIf(rs, HamBy(hi)) <= CountIf(rs, HamBy(lo))
    ensures CountIf(rs, SharedBy(hi)) <= CountIf(rs, SharedBy(lo))
    ensures forall spam :: SumIf(rs, KeptBy(hi), spam) <= SumIf(rs, KeptBy(lo), spam)
  {
    CountMonotone(rs, KeptBy(hi), KeptBy(lo));
    CountMonotone(rs, SpamBy(hi), SpamBy(lo));
    CountMonotone(rs, HamBy(hi), HamBy(lo));
    CountMonotone(rs, SharedBy(hi), SharedBy(lo));
    forall spam
      ensures SumIf(rs, KeptBy(hi), spam) <= SumIf(rs, KeptBy(lo), spam)
    {
      SumMonotone(rs, KeptBy(hi), KeptBy(lo), spam);
    }
  }
}
