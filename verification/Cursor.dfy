/** The dump of j-makemap/j-makemap.c, a loop over a database cursor with the
    guard of include/j-db.h against cursors that run in circles. */
module Cursor {
  import opened CText
  import opened Perm
  import MakeMap

  datatype Rec = Rec(key: string, data: string)

  const BufferSize := 256

  /** `strcasecmp(a, b) < 0`. */
  predicate LessNoCase(a: string, b: string) { StrLess(Lower(a), Lower(b)) }

  /** `strncmp(s, p, strlen(p)) == 0`. */
  predicate HasPrefix(s: string, p: string) { |p| <= |s| && s[..|p|] == p }

  /** A record the cursor can copy into the key and data buffers; at any other
      the read fails and the loop ends. */
  predicate Readable(r: Rec) { |r.key| <= 255 && |r.data| <= 255 }

  // ----- the loop ------------------------------------------------------------

  /** How many of the first n keys are smaller than the key before them. */
  function Descents(rs: seq<Rec>, n: nat): nat
    requires n <= |rs|
  {
    if n < 2 then 0 else Descents(rs, n - 1) + if LessNoCase(rs[n - 1].key, rs[n - 2].key) then 1 else 0
  }

  /** The loop stops in front of cursor[n]. */
  predicate StopsAt(cursor: seq<Rec>, start: string, n: nat)
    requires n < |cursor|
  {
    !Readable(cursor[n]) || Descents(cursor, n + 1) > 3 || !HasPrefix(cursor[n].key, start)
  }

  ghost predicate Passes(cursor: seq<Rec>, start: string, n: nat)
    requires n <= |cursor|
  {
    forall i :: 0 <= i < n ==> !StopsAt(cursor, start, i)
  }

  /** A run of the cursor's records up to the first that cannot be read, lacks
      the prefix, or is the fourth to descend. */
  ghost predicate IsDump(cursor: seq<Rec>, start: string, printed: seq<Rec>) {
    |printed| <= |cursor| && printed == cursor[..|printed|] && Passes(cursor, start, |printed|) &&
    (|printed| < |cursor| ==> StopsAt(cursor, start, |printed|))
  }

  /** `DB_BTREE_SEQ_CHECK`: the number of descents seen, and whether to go on. */
  method SeqCheck(prev: string, key: string, errors: nat) returns (errors': nat, go: bool)
    ensures errors' == errors + if LessNoCase(key, prev) then 1 else 0
    ensures go == (!LessNoCase(key, prev) || errors <= 2)
  {
    errors', go := errors, true;
    if LessNoCase(key, prev) {
      errors' := errors + 1;
      if errors > 2 { go := false; }
    }
  }

  /** The tests the loop makes on one record, and the number of descents. */
  method TestRecord(cursor: seq<Rec>, start: string, n: nat, prev: string, errors: nat)
    returns (errors': nat, go: bool)
    requires n < |cursor| && Readable(cursor[n])
    requires prev == if n == 0 then "" else cursor[n - 1].key
    requires errors == Descents(cursor, n) <= 3
    ensures go == !StopsAt(cursor, start, n)
    ensures errors' == Descents(cursor, n + 1)
  {
    var key := cursor[n].key;
    errors', go := SeqCheck(prev, key, errors);
    if go && !HasPrefix(key, start) { go := false; }
  }

  lemma PassesNext(cursor: seq<Rec>, start: string, n: nat)
    requires n < |cursor| && Passes(cursor, start, n) && !StopsAt(cursor, start, n)
    ensures Passes(cursor, start, n + 1) && Descents(cursor, n + 1) <= 3
    ensures cursor[..n + 1] == cursor[..n] + [cursor[n]]
  {
  }

  /** The loop over everything the cursor would deliver. */
  method Dump(cursor: seq<Rec>, start: string) returns (printed: seq<Rec>)
    ensures IsDump(cursor, start, printed)
  {
    printed := [];
    var prev, errors, n, go := "", 0, 0, true;
    while n < |cursor| && Readable(cursor[n])
      invariant 0 <= n <= |cursor| && printed == cursor[..n]
      invariant prev == if n == 0 then "" else cursor[n - 1].key
      invariant errors == Descents(cursor, n) <= 3
      invariant Passes(cursor, start, n)
    {
      errors, go := TestRecord(cursor, start, n, prev, errors);
      if !go { break; }
      PassesNext(cursor, start, n);
      prev := StrLCpy(cursor[n].key, BufferSize);
      printed := printed + [cursor[n]];
      n := n + 1;
    }
  }

  /** Whatever the cursor does, at most three descending steps are printed. */
  lemma DescentsBounded(cursor: seq<Rec>, start: string, printed: seq<Rec>)
    requires IsDump(cursor, start, printed)
    ensures Descents(printed, |printed|) <= 3
  {
    if printed != [] { assert !StopsAt(cursor, start, |printed| - 1); }
    DescentsOfRun(cursor, |printed|, |printed|);
  }

  lemma {:induction false} DescentsGrow(rs: seq<Rec>, m: nat, n: nat)
    requires m <= n <= |rs|
    ensures Descents(rs, m) <= Descents(rs, n)
    decreases n
  {
    if m < n { DescentsGrow(rs, m, n - 1); }
  }

  function LowerRecs(rs: seq<Rec>): (r: seq<Rec>)
    ensures |r| == |rs| && forall i :: 0 <= i < |rs| ==> r[i] == Rec(Lower(rs[i].key), rs[i].data)
  {
    seq(|rs|, i requires 0 <= i < |rs| => Rec(Lower(rs[i].key), rs[i].data))
  }

  /** The guard does not see case. */
  lemma {:induction false} DescentsIgnoreCase(rs: seq<Rec>, n: nat)
    requires n <= |rs|
    ensures Descents(LowerRecs(rs), n) == Descents(rs, n)
  {
    if n >= 2 {
      DescentsIgnoreCase(rs, n - 1);
      LowerIdempotent(rs[n - 1].key);
      LowerIdempotent(rs[n - 2].key);
    }
  }

  /** Three descents are let through, the fourth is not. */
  lemma DumpsWhole(cursor: seq<Rec>, start: string, printed: seq<Rec>)
    requires IsDump(cursor, start, printed)
    requires forall i :: 0 <= i < |cursor| ==>
      |cursor[i].key| <= 255 && |cursor[i].data| <= 255 && HasPrefix(cursor[i].key, start)
    ensures printed == cursor <==> Descents(cursor, |cursor|) <= 3
  {
    var n := |printed|;
    assert cursor[..|cursor|] == cursor;
    if n < |cursor| {
      assert StopsAt(cursor, start, n);
      DescentsGrow(cursor, n + 1, |cursor|);
    } else if n > 0 {
      assert !StopsAt(cursor, start, n - 1);
    }
  }

  lemma {:induction false} DescentsOfRun(cursor: seq<Rec>, m: nat, n: nat)
    requires n <= m <= |cursor|
    ensures Descents(cursor[..m], n) == Descents(cursor, n)
    decreases n
  {
    if n >= 2 { DescentsOfRun(cursor, m, n - 1); }
  }

  // ----- a sorted table ------------------------------------------------------

  /** The order of the btree, which compares keys with `strcasecmp`. */
  ghost predicate Sorted(rs: seq<Rec>) {
    forall i, j :: 0 <= i < j < |rs| ==> LessNoCase(rs[i].key, rs[j].key)
  }

  ghost predicate LowerKeys(rs: seq<Rec>) {
    forall i :: 0 <= i < |rs| ==> Lower(rs[i].key) == rs[i].key
  }

  /** The cursor set on the first key that is not below s. */
  function Seek(rs: seq<Rec>, s: string): seq<Rec> {
    if rs == [] || !LessNoCase(rs[0].key, s) then rs else Seek(rs[1..], s)
  }

  /** The records whose key has the prefix, in the order of the table. */
  function Matching(rs: seq<Rec>, p: string): seq<Rec> {
    FlatMap(Match(p), rs)
  }

  function Match(p: string): Rec -> seq<Rec> {
    (r: Rec) => if HasPrefix(r.key, p) then [r] else []
  }

  lemma {:induction false} PrefixNotLess(k: string, p: string)
    requires HasPrefix(k, p)
    ensures !StrLess(k, p)
    decreases |p|
  {
    if p != "" {
      assert k[0] == p[0] by { assert k[..|p|][0] == p[0]; }
      assert k[1..][..|p| - 1] == p[1..] by { assert k[..|p|][1..] == p[1..]; }
      PrefixNotLess(k[1..], p[1..]);
    }
  }

  /** Between a prefix and a key that has it, every key has it. */
  lemma {:induction false} PrefixInterval(k: string, k': string, p: string)
    requires HasPrefix(k', p) && StrLess(k, k') && !StrLess(k, p)
    ensures HasPrefix(k, p)
    decreases |p|
  {
    if p != "" {
      assert k'[0] == p[0] by { assert k'[..|p|][0] == p[0]; }
      assert k'[1..][..|p| - 1] == p[1..] by { assert k'[..|p|][1..] == p[1..]; }
      PrefixInterval(k[1..], k'[1..], p[1..]);
      assert k[..|p|] == [k[0]] + k[1..][..|p| - 1];
      assert p == [p[0]] + p[1..];
    }
  }

  lemma LowerPrefix(k: string, p: string)
    requires HasPrefix(k, p)
    ensures HasPrefix(Lower(k), Lower(p))
  {
    assert forall i :: 0 <= i < |p| ==> k[..|p|][i] == k[i];
  }

  lemma PrefixOfLower(k: string, p: string)
    requires HasPrefix(k, p) && Lower(k) == k
    ensures Lower(p) == p
  {
    assert forall i :: 0 <= i < |p| ==> k[..|p|][i] == k[i];
  }

  /** Seeking drops no record that matches. */
  lemma {:induction false} SeekKeepsMatching(rs: seq<Rec>, s: string, p: string)
    requires HasPrefix(p, s)
    ensures Matching(Seek(rs, s), p) == Matching(rs, p)
  {
    if rs != [] && LessNoCase(rs[0].key, s) {
      var k := rs[0].key;
      if HasPrefix(k, p) {
        assert k[..|s|] == p[..|s|] by { assert k[..|p|][..|s|] == k[..|s|]; }
        LowerPrefix(k, s);
        PrefixNotLess(Lower(k), Lower(s));
      }
      SeekKeepsMatching(rs[1..], s, p);
    }
  }

  /** What Seek leaves is the end of the table, and starts at or above s. */
  lemma {:induction false} SeekSpec(rs: seq<Rec>, s: string)
    ensures |Seek(rs, s)| <= |rs| && Seek(rs, s) == rs[|rs| - |Seek(rs, s)|..]
    ensures Seek(rs, s) != [] ==> !LessNoCase(Seek(rs, s)[0].key, s)
  {
    if rs != [] && LessNoCase(rs[0].key, s) { SeekSpec(rs[1..], s); }
  }

  lemma SeekSorted(rs: seq<Rec>, s: string)
    requires Sorted(rs) && LowerKeys(rs)
    ensures Sorted(Seek(rs, s)) && LowerKeys(Seek(rs, s))
  {
    SeekSpec(rs, s);
    var c := Seek(rs, s);
    var m := |rs| - |c|;
    assert forall i :: 0 <= i < |c| ==> c[i] == rs[m + i];
  }

  /** On a sorted table the guard never stops the loop. */
  lemma {:induction false} GuardNeverFires(rs: seq<Rec>, n: nat)
    requires Sorted(rs) && n <= |rs|
    ensures Descents(rs, n) == 0
  {
    if n >= 2 {
      GuardNeverFires(rs, n - 1);
      assert LessNoCase(rs[n - 2].key, rs[n - 1].key);
      var a, b := Lower(rs[n - 2].key), Lower(rs[n - 1].key);
      if StrLess(b, a) {
        StrLessTransitive(a, b, a);
        StrLessIrreflexive(a);
      }
    }
  }

  lemma {:induction false} MatchingAll(rs: seq<Rec>, p: string)
    requires forall i :: 0 <= i < |rs| ==> HasPrefix(rs[i].key, p)
    ensures Matching(rs, p) == rs
  {
    if rs != [] { MatchingAll(rs[1..], p); }
  }

  lemma {:induction false} MatchingNone(rs: seq<Rec>, p: string)
    requires forall i :: 0 <= i < |rs| ==> !HasPrefix(rs[i].key, p)
    ensures Matching(rs, p) == []
  {
    if rs != [] { MatchingNone(rs[1..], p); }
  }

  lemma {:induction false} MatchingSound(rs: seq<Rec>, p: string)
    ensures forall r :: r in Matching(rs, p) <==> r in rs && HasPrefix(r.key, p)
  {
    if rs != [] { MatchingSound(rs[1..], p); }
  }

  /** Once the keys have left the prefix they do not come back to it. */
  lemma BlockEnds(c: seq<Rec>, p: string, n: nat)
    requires Sorted(c) && LowerKeys(c) && n < |c| && !HasPrefix(c[n].key, p)
    requires !LessNoCase(c[0].key, p)
    ensures Matching(c[n..], p) == []
  {
    forall j | n <= j < |c|
      ensures !HasPrefix(c[j].key, p)
    {
      if HasPrefix(c[j].key, p) {
        PrefixOfLower(c[j].key, p);
        NotBelow(c, p, n);
        assert LessNoCase(c[n].key, c[j].key);
        PrefixInterval(c[n].key, c[j].key, p);
      }
    }
    MatchingNone(c[n..], p);
  }

  lemma NotBelow(c: seq<Rec>, p: string, n: nat)
    requires Sorted(c) && n < |c| && !LessNoCase(c[0].key, p)
    ensures !LessNoCase(c[n].key, p)
  {
    if n > 0 && LessNoCase(c[n].key, p) { StrLessTransitive(Lower(c[0].key), Lower(c[n].key), Lower(p)); }
  }

  ghost predicate AllReadable(rs: seq<Rec>) { forall r :: r in rs ==> Readable(r) }

  /** Where the loop stops, the matching records split in two. */
  lemma MatchingSplit(c: seq<Rec>, p: string, printed: seq<Rec>)
    requires IsDump(c, p, printed)
    ensures Matching(c, p) == printed + Matching(c[|printed|..], p)
    ensures AllReadable(printed)
  {
    var n := |printed|;
    forall i | 0 <= i < n ensures HasPrefix(printed[i].key, p) && Readable(printed[i]) {
      assert !StopsAt(c, p, i);
    }
    MatchingAll(printed, p);
    assert c == c[..n] + c[n..];
    FlatMapAppend(Match(p), c[..n], c[n..]);
  }

  /** A prefix that does not fit the key buffer matches no readable record. */
  lemma LongPrefix(c: seq<Rec>, p: string, r: Rec)
    requires |p| >= BufferSize && r in Matching(c, p)
    ensures !Readable(r)
  {
    MatchingSound(c, p);
  }

  /** What is left when the loop stops is empty exactly when it is readable. */
  lemma RestReadable(c: seq<Rec>, p: string, printed: seq<Rec>)
    requires Sorted(c) && LowerKeys(c) && IsDump(c, p, printed)
    requires |p| < BufferSize && c != [] ==> !LessNoCase(c[0].key, p)
    ensures
      var rest := Matching(c[|printed|..], p);
      rest == [] <==> AllReadable(rest)
  {
    var n := |printed|;
    var rest := Matching(c[n..], p);
    if rest != [] && AllReadable(rest) {
      assert rest[0] in rest;
      if |p| >= BufferSize {
        LongPrefix(c[n..], p, rest[0]);
      } else {
        assert n < |c|;
        GuardNeverFires(c, n + 1);
        if !HasPrefix(c[n].key, p) {
          BlockEnds(c, p, n);
        }
      }
    }
  }

  /** The dump of a table with lower-case keys prints every record whose key has
      the start key as a prefix, once and in order, if and only if all of these
      fit the buffers. */
  lemma DumpExact(table: seq<Rec>, start: string, printed: seq<Rec>)
    requires Sorted(table) && LowerKeys(table)
    requires IsDump(Seek(table, StrLCpy(start, BufferSize)), start, printed)
    ensures printed == Matching(table, start) <==> AllReadable(Matching(table, start))
  {
    var s := StrLCpy(start, BufferSize);
    var c := Seek(table, s);
    assert HasPrefix(start, s);
    SeekKeepsMatching(table, s, start);
    SeekSorted(table, s);
    SeekSpec(table, s);
    MatchingSplit(c, start, printed);
    RestReadable(c, start, printed);
    var rest := Matching(c[|printed|..], start);
    assert printed + rest == printed <==> rest == [];
  }

  // ----- build, then dump ----------------------------------------------------

  /** The table lists the database in order. */
  ghost predicate Lists(table: seq<Rec>, db: map<string, string>) {
    Sorted(table) && forall k, v :: Rec(k, v) in table <==> k in db && db[k] == v
  }

  /** After an erase load, the dump prints exactly the winning lines of the keys
      with the start key as a prefix. */
  lemma BuildThenDump(
    mode: MakeMap.Mode, db: map<string, string>, lines: seq<MakeMap.Line>, table: seq<Rec>, start: string,
    printed: seq<Rec>)
    requires mode.erase && Lists(table, MakeMap.Built(mode, db, lines))
    requires IsDump(Seek(table, StrLCpy(start, BufferSize)), start, printed)
    requires AllReadable(Matching(table, start))
    ensures forall k, v ::
      Rec(k, v) in printed <==> HasPrefix(k, start) && MakeMap.Winner(mode, lines, k) == Some(v)
  {
    var built := MakeMap.Built(mode, db, lines);
    MakeMap.LoadsLowerCase(mode.skip, MakeMap.Start(mode, db), lines);
    forall i | 0 <= i < |table| ensures Lower(table[i].key) == table[i].key {
      assert Rec(table[i].key, table[i].data) in table;
    }
    DumpExact(table, start, printed);
    MatchingSound(table, start);
    forall k, v
      ensures Rec(k, v) in printed <==> HasPrefix(k, start) && MakeMap.Winner(mode, lines, k) == Some(v)
    {
      MakeMap.BuiltRecord(mode, db, lines, k);
    }
  }

  /** ... that is, their keys and lower-cased values, by the number of the line. */
  lemma WinnersDumped(
    mode: MakeMap.Mode, db: map<string, string>, lines: seq<MakeMap.Line>, table: seq<Rec>, start: string,
    printed: seq<Rec>, i: nat, k: string)
    requires mode.erase && Lists(table, MakeMap.Built(mode, db, lines))
    requires IsDump(Seek(table, StrLCpy(start, BufferSize)), start, printed)
    requires AllReadable(Matching(table, start))
    requires MakeMap.Wins(mode.skip, lines, i, k)
    ensures forall v :: Rec(k, v) in printed <==> HasPrefix(k, start) && v == MakeMap.Text(lines[i].value)
  {
    BuildThenDump(mode, db, lines, table, start, printed);
    if mode.skip { MakeMap.FirstWins(lines, i, k); } else { MakeMap.LastWins(lines, i, k); }
  }
}
