/** Token tables as sums: what a table holds after any entries, and why
    aggregating before re-keying loses nothing. */
module TokenAlgebra {
  import opened Perm
  import opened Tokens

  function Share(e: Entry, key: string, spam: bool): int {
    if e.key == key then e.n.Of(spam) else 0
  }

  /** The spam or ham count a list of entries gives to a key. */
  function Tally(es: seq<Entry>, key: string, spam: bool): int {
    if es == [] then 0 else Share(es[0], key, spam) + Tally(es[1..], key, spam)
  }

  predicate HasKey(es: seq<Entry>, key: string) {
    exists i :: 0 <= i < |es| && es[i].key == key
  }

  lemma AddIs(m: TokenTable, e: Entry, key: string, spam: bool)
    ensures Lookup(Add(m, e), key, spam) == Lookup(m, key, spam) + Share(e, key, spam)
    ensures key in Add(m, e) <==> key in m || e.key == key
  {
  }

  lemma HasKeyCons(es: seq<Entry>, key: string)
    requires es != []
    ensures HasKey(es, key) <==> es[0].key == key || HasKey(es[1..], key)
  {
    assert forall i :: 0 < i < |es| ==> es[i] == es[1..][i - 1];
    assert forall i :: 0 <= i < |es| - 1 ==> es[1..][i] == es[i + 1];
  }

  /** A table holds the sum of its entries, under exactly their keys. */
  lemma {:induction false} AddAllIs(m: TokenTable, es: seq<Entry>, key: string, spam: bool)
    ensures Lookup(AddAll(m, es), key, spam) == Lookup(m, key, spam) + Tally(es, key, spam)
    ensures key in AddAll(m, es) <==> key in m || HasKey(es, key)
    decreases |es|
  {
    if es != [] {
      AddIs(m, es[0], key, spam);
      AddAllIs(Add(m, es[0]), es[1..], key, spam);
      HasKeyCons(es, key);
    }
  }

  lemma AddCommutes()
    ensures Commutes(Add)
  {
    forall m: TokenTable, x: Entry, y: Entry
      ensures Add(Add(m, x), y) == Add(Add(m, y), x)
    {
      assert Add(Add(m, x), y).Keys == Add(Add(m, y), x).Keys;
    }
  }

  /** Entries with the same sums under the same keys make the same table. */
  lemma SameTable(m: TokenTable, es: seq<Entry>, es': seq<Entry>)
    requires forall k, spam :: Tally(es, k, spam) == Tally(es', k, spam)
    requires forall k :: HasKey(es, k) <==> HasKey(es', k)
    ensures AddAll(m, es) == AddAll(m, es')
  {
    var a, b := AddAll(m, es), AddAll(m, es');
    forall k
      ensures (k in a <==> k in b) && (k in a ==> a[k] == b[k])
    {
      AddAllIs(m, es, k, true);
      AddAllIs(m, es, k, false);
      AddAllIs(m, es', k, true);
      AddAllIs(m, es', k, false);
    }
    assert a.Keys == b.Keys;
  }

  // ----- re-keying -----------------------------------------------------------

  function Rekey(es: seq<Entry>, f: string -> string): (r: seq<Entry>)
    ensures |r| == |es|
    ensures forall i :: 0 <= i < |es| ==> r[i] == Entry(f(es[i].key), es[i].n)
  {
    seq(|es|, i requires 0 <= i < |es| => Entry(f(es[i].key), es[i].n))
  }

  /** The entries of a table in some order of its keys. */
  function TableEntries(m: TokenTable, order: seq<string>): (r: seq<Entry>)
    requires forall t :: t in order ==> t in m
    ensures |r| == |order|
    ensures forall i :: 0 <= i < |order| ==> r[i] == Entry(order[i], m[order[i]])
  {
    seq(|order|, i requires 0 <= i < |order| => Entry(order[i], m[order[i]]))
  }

  /** The tallies of the keys in `order` that `f` sends to `key`. */
  function Selected(order: seq<string>, f: string -> string, key: string, es: seq<Entry>, spam: bool): int {
    if order == [] then 0
    else (if f(order[0]) == key then Tally(es, order[0], spam) else 0) + Selected(order[1..], f, key, es, spam)
  }

  lemma {:induction false} SelectedCons(order: seq<string>, f: string -> string, key: string, es: seq<Entry>, spam: bool)
    requires es != [] && Distinct(order)
    ensures Selected(order, f, key, es, spam) ==
            Selected(order, f, key, es[1..], spam)
            + if es[0].key in order && f(es[0].key) == key then es[0].n.Of(spam) else 0
  {
    if order != [] {
      assert Distinct(order[1..]);
      SelectedCons(order[1..], f, key, es, spam);
      assert order == [order[0]] + order[1..];
    }
  }

  lemma {:induction false} SelectedNothing(order: seq<string>, f: string -> string, key: string, spam: bool)
    ensures Selected(order, f, key, [], spam) == 0
  {
    if order != [] { SelectedNothing(order[1..], f, key, spam); }
  }

  /** Summing the tallies of all tokens sent to a key is tallying the re-keyed
      entries, even where the re-keying is not injective. */
  lemma {:induction false} SelectedIsTally(order: seq<string>, f: string -> string, key: string, es: seq<Entry>, spam: bool)
    requires Distinct(order)
    requires forall i :: 0 <= i < |es| ==> es[i].key in order
    ensures Selected(order, f, key, es, spam) == Tally(Rekey(es, f), key, spam)
    decreases |es|
  {
    if es == [] {
      SelectedNothing(order, f, key, spam);
    } else {
      SelectedCons(order, f, key, es, spam);
      SelectedIsTally(order, f, key, es[1..], spam);
      assert Rekey(es, f)[1..] == Rekey(es[1..], f);
    }
  }

  lemma {:induction false} SelectedFromTable(
    m: TokenTable, order: seq<string>, f: string -> string, key: string, es: seq<Entry>, spam: bool)
    requires forall t :: t in order ==> t in m && m[t].Of(spam) == Tally(es, t, spam)
    ensures Tally(Rekey(TableEntries(m, order), f), key, spam) == Selected(order, f, key, es, spam)
  {
    if order != [] {
      SelectedFromTable(m, order[1..], f, key, es, spam);
      assert Rekey(TableEntries(m, order), f)[1..] == Rekey(TableEntries(m, order[1..]), f);
      assert order[0] in order;
    }
  }

  /** Aggregating entries into a table, listing the table in any order and
      adding the list under new keys gives what adding the entries themselves
      under the new keys gives. */
  lemma Reaggregate(es: seq<Entry>, order: seq<string>, f: string -> string, target: TokenTable)
    requires Enumerates(AddAll(map[], es), order)
    ensures AddAll(target, Rekey(TableEntries(AddAll(map[], es), order), f)) == AddAll(target, Rekey(es, f))
  {
    var m := AddAll(map[], es);
    var listed := Rekey(TableEntries(m, order), f);
    forall t
      ensures t in order <==> HasKey(es, t)
    {
      AddAllIs(map[], es, t, true);
    }
    forall t, spam
      ensures Lookup(m, t, spam) == Tally(es, t, spam)
    {
      AddAllIs(map[], es, t, spam);
    }
    assert forall i :: 0 <= i < |es| ==> HasKey(es, es[i].key);
    forall k, spam
      ensures Tally(listed, k, spam) == Tally(Rekey(es, f), k, spam)
    {
      assert forall t :: t in order ==> m[t].Of(spam) == Lookup(m, t, spam);
      SelectedFromTable(m, order, f, k, es, spam);
      SelectedIsTally(order, f, k, es, spam);
    }
    forall k
      ensures HasKey(listed, k) <==> HasKey(Rekey(es, f), k)
    {
      SameKeys(es, m, order, f, k);
    }
    SameTable(target, listed, Rekey(es, f));
  }

  lemma SameKeys(es: seq<Entry>, m: TokenTable, order: seq<string>, f: string -> string, k: string)
    requires forall t :: t in order ==> t in m
    requires forall t :: t in order <==> HasKey(es, t)
    ensures HasKey(Rekey(TableEntries(m, order), f), k) <==> HasKey(Rekey(es, f), k)
  {
    var a, b := Rekey(TableEntries(m, order), f), Rekey(es, f);
    if HasKey(a, k) {
      var i :| 0 <= i < |a| && a[i].key == k;
      assert order[i] in order;
      var j :| 0 <= j < |es| && es[j].key == order[i];
      assert b[j].key == k;
    }
    if HasKey(b, k) {
      var j :| 0 <= j < |b| && b[j].key == k;
      assert HasKey(es, es[j].key);
      var i :| 0 <= i < |order| && order[i] == es[j].key;
      assert a[i].key == k;
    }
  }
}
