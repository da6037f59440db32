/** j-makemap/j-makemap.c: loading a table of key and value lines into a
    database, and what the policy search then finds there. */
module MakeMap {
  import opened CText
  import opened Perm
  import Policy

  type Database = map<string, string>

  // ----- the update mode -----------------------------------------------------

  datatype Mode = Mode(erase: bool, update: bool, skip: bool)

  /** The mode the program works in, or its refusal of UPDATE with SKIP. */
  method Normalise(asked: Mode) returns (mode: Option<Mode>)
    ensures mode.None? <==> asked.update && asked.skip
    ensures mode.Some? ==> mode.value.update != mode.value.skip && mode.value.update == asked.update
    ensures mode.Some? ==> (mode.value.erase <==> asked.erase || asked == Mode(false, false, false))
  {
    var m := asked;
    if !m.erase && !m.update && !m.skip { m := m.(erase := true, skip := true); }
    if m.update && m.skip { return None; }
    if !m.update && !m.skip { m := m.(skip := true); }
    return Some(m);
  }

  // ----- one record ----------------------------------------------------------

  /** A line of the input: its two columns, either of which may be missing, and
      whether the database will take the record if it is asked to. */
  datatype Line = Line(key: Option<string>, value: Option<string>, accepted: bool)

  predicate HasKey(l: Line) { l.key.Some? && l.key.value != "" }

  function ValueOf(l: Line): string {
    match l.value case None => "" case Some(v) => Lower(v)
  }

  /** The line is a record for the (lower-cased) key k, and can be stored. */
  predicate Stores(l: Line, k: string) {
    HasKey(l) && Lower(l.key.value) == k && l.accepted
  }

  datatype Counts = Counts(read: nat, added: nat, errors: nat)

  datatype State = State(db: Database, counts: Counts)

  predicate Skips(skip: bool, db: Database, l: Line) {
    skip && HasKey(l) && Lower(l.key.value) in db
  }

  function AddRecord(skip: bool, db: Database, l: Line): Database {
    if !HasKey(l) || !l.accepted || Skips(skip, db, l) then db else db[Lower(l.key.value) := ValueOf(l)]
  }

  function AddCounts(skip: bool, db: Database, c: Counts, l: Line): Counts {
    if Skips(skip, db, l) then c.(read := c.read + 1)
    else if HasKey(l) && l.accepted then c.(read := c.read + 1, added := c.added + 1)
    else c.(read := c.read + 1, errors := c.errors + 1)
  }

  function AddStep(skip: bool, s: State, l: Line): State {
    State(AddRecord(skip, s.db, l), AddCounts(skip, s.db, s.counts, l))
  }

  function Adder(skip: bool): (State, Line) -> State {
    (s: State, l: Line) => AddStep(skip, s, l)
  }

  function LoadLines(skip: bool, s: State, lines: seq<Line>): State {
    Fold(Adder(skip), s, lines)
  }

  function Start(mode: Mode, db: Database): State {
    State(if mode.erase then map[] else db, Counts(0, 0, 0))
  }

  /** The database a run of the program leaves. */
  function Built(mode: Mode, db: Database, lines: seq<Line>): Database {
    LoadLines(mode.skip, Start(mode, db), lines).db
  }

  // ----- the imperative loader -----------------------------------------------

  class Loader {
    const mode: Mode
    var db: Database
    var nbT: nat
    var nbOk: nat
    var nbKo: nat

    constructor (m: Mode, before: Database)
      ensures mode == m && Now() == State(before, Counts(0, 0, 0))
    {
      mode := m;
      db, nbT, nbOk, nbKo := before, 0, 0, 0;
    }

    function Now(): State
      reads this
    {
      State(db, Counts(nbT, nbOk, nbKo))
    }

    /** `add_db_rec`. */
    method AddDbRec(l: Line) returns (r: int)
      modifies this
      ensures Now() == AddStep(mode.skip, old(Now()), l)
      ensures r == if HasKey(l) && (l.accepted || Skips(mode.skip, old(db), l)) then 1 else 0
    {
      nbT := nbT + 1;
      var res := true;
      if l.key.None? || l.key.value == "" { res := false; }
      if res {
        var k, v := Lower(l.key.value), "";
        if l.value.Some? { v := Lower(l.value.value); }
        if mode.skip && k in db { return 1; }
        res := l.accepted;
        if res { db := db[k := v]; }
      }
      if res { nbOk := nbOk + 1; } else { nbKo := nbKo + 1; }
      return if res then 1 else 0;
    }

    /** The update run: empty the table if asked to, then add every line. */
    method Update(lines: seq<Line>)
      requires nbT == nbOk == nbKo == 0
      modifies this
      ensures Now() == LoadLines(mode.skip, Start(mode, old(db)), lines)
    {
      ghost var start := Start(mode, db);
      if mode.erase { db := map[]; }
      for i := 0 to |lines|
        invariant Now() == LoadLines(mode.skip, start, lines[..i])
      {
        assert lines[..i + 1] == lines[..i] + [lines[i]];
        FoldSnoc(Adder(mode.skip), start, lines[..i], lines[i]);
        var _ := AddDbRec(lines[i]);
      }
      assert lines[..|lines|] == lines;
    }
  }

  // ----- which line wins -----------------------------------------------------

  /** The value of the first line that stores k. */
  function FirstLine(lines: seq<Line>, k: string): Option<string> {
    if lines == [] then None
    else if Stores(lines[0], k) then Some(ValueOf(lines[0]))
    else FirstLine(lines[1..], k)
  }

  /** The value of the last line that stores k. */
  function LastLine(lines: seq<Line>, k: string): Option<string> {
    if lines == [] then None
    else if Stores(lines[|lines| - 1], k) then Some(ValueOf(lines[|lines| - 1]))
    else LastLine(lines[..|lines| - 1], k)
  }

  function At(db: Database, k: string): Option<string> {
    if k in db then Some(db[k]) else None
  }

  lemma {:induction false} SkipKeepsFirst(s: State, lines: seq<Line>, k: string)
    ensures At(LoadLines(true, s, lines).db, k) == if k in s.db then At(s.db, k) else FirstLine(lines, k)
    decreases |lines|
  {
    if lines != [] { SkipKeepsFirst(AddStep(true, s, lines[0]), lines[1..], k); }
  }

  lemma {:induction false} UpdateKeepsLast(s: State, lines: seq<Line>, k: string)
    ensures At(LoadLines(false, s, lines).db, k) ==
      if LastLine(lines, k).Some? then LastLine(lines, k) else At(s.db, k)
    decreases |lines|
  {
    if lines != [] {
      var n := |lines| - 1;
      UpdateKeepsLast(s, lines[..n], k);
      assert lines == lines[..n] + [lines[n]];
      FoldSnoc(Adder(false), s, lines[..n], lines[n]);
    }
  }

  /** The line that decides the record of k. */
  function Winner(mode: Mode, lines: seq<Line>, k: string): Option<string> {
    if mode.skip then FirstLine(lines, k) else LastLine(lines, k)
  }

  /** After an erase load the record of k is the winning line's, whatever was
      there before. */
  lemma BuiltRecord(mode: Mode, db: Database, lines: seq<Line>, k: string)
    requires mode.erase
    ensures At(Built(mode, db, lines), k) == Winner(mode, lines, k)
  {
    if mode.skip {
      SkipKeepsFirst(Start(mode, db), lines, k);
    } else {
      UpdateKeepsLast(Start(mode, db), lines, k);
    }
  }

  // ----- the winning line, by its number ------------------------------------

  /** Line i is accepted and its key, lower-cased, is k. */
  predicate IsFor(lines: seq<Line>, i: nat, k: string) {
    i < |lines| && lines[i].accepted && lines[i].key.Some? && lines[i].key.value != "" &&
    Lower(lines[i].key.value) == k
  }

  /** Line i is the first (SKIP) or the last (UPDATE) accepted line for k. */
  predicate Wins(skip: bool, lines: seq<Line>, i: nat, k: string) {
    IsFor(lines, i, k) &&
    forall j: nat :: j < |lines| && (if skip then j < i else i < j) ==> !IsFor(lines, j, k)
  }

  /** The value of a line, lower-cased; a line without one has the empty value. */
  function Text(value: Option<string>): string {
    if value.None? then "" else Lower(value.value)
  }

  lemma {:induction false} FirstWins(lines: seq<Line>, i: nat, k: string)
    requires Wins(true, lines, i, k)
    ensures FirstLine(lines, k) == Some(Text(lines[i].value))
  {
    if i > 0 {
      assert !IsFor(lines, 0, k);
      var rest := lines[1..];
      assert forall j: nat :: j < |rest| ==> (IsFor(rest, j, k) <==> IsFor(lines, j + 1, k));
      assert IsFor(rest, i - 1, k);
      FirstWins(rest, i - 1, k);
    }
  }

  lemma {:induction false} LastWins(lines: seq<Line>, i: nat, k: string)
    requires Wins(false, lines, i, k)
    ensures LastLine(lines, k) == Some(Text(lines[i].value))
  {
    var n := |lines| - 1;
    if i < n {
      assert !IsFor(lines, n, k);
      var rest := lines[..n];
      assert forall j: nat :: j < n ==> (IsFor(rest, j, k) <==> IsFor(lines, j, k));
      assert IsFor(rest, i, k);
      LastWins(rest, i, k);
    }
  }

  /** After an erase load, whatever was there before, the record of k is the value
      of the winning line; with no accepted line for k there is none. */
  lemma WinnerStored(mode: Mode, db: Database, lines: seq<Line>, i: nat, k: string)
    requires mode.erase
    ensures Wins(mode.skip, lines, i, k) ==> At(Built(mode, db, lines), k) == Some(Text(lines[i].value))
    ensures (forall j: nat :: j < |lines| ==> !IsFor(lines, j, k)) ==> At(Built(mode, db, lines), k) == None
  {
    BuiltRecord(mode, db, lines, k);
    WinnerExists(lines, k);
    if Wins(mode.skip, lines, i, k) {
      if mode.skip { FirstWins(lines, i, k); } else { LastWins(lines, i, k); }
    }
    assert forall j: nat :: j < |lines| ==> (Stores(lines[j], k) <==> IsFor(lines, j, k));
  }

  /** Without erasing, SKIP never alters a record that was there, and UPDATE
      alters exactly those that some line stores. */
  lemma KeptRecords(mode: Mode, db: Database, lines: seq<Line>, k: string)
    requires !mode.erase && k in db
    ensures mode.skip ==> At(Built(mode, db, lines), k) == Some(db[k])
    ensures !mode.skip ==>
      At(Built(mode, db, lines), k) == if Winner(mode, lines, k).Some? then Winner(mode, lines, k) else Some(db[k])
  {
    if mode.skip {
      SkipKeepsFirst(Start(mode, db), lines, k);
    } else {
      UpdateKeepsLast(Start(mode, db), lines, k);
    }
  }

  lemma {:induction false} WinnerExists(lines: seq<Line>, k: string)
    ensures FirstLine(lines, k).Some? <==> exists i :: 0 <= i < |lines| && Stores(lines[i], k)
    ensures LastLine(lines, k).Some? <==> exists i :: 0 <= i < |lines| && Stores(lines[i], k)
  {
    FirstExists(lines, k);
    LastExists(lines, k);
  }

  lemma {:induction false} FirstExists(lines: seq<Line>, k: string)
    ensures FirstLine(lines, k).Some? <==> exists i :: 0 <= i < |lines| && Stores(lines[i], k)
  {
    if lines != [] {
      var rest := lines[1..];
      FirstExists(rest, k);
      forall i | 0 <= i < |rest| ensures rest[i] == lines[i + 1] {}
      if FirstLine(rest, k).Some? {
        var i :| 0 <= i < |rest| && Stores(rest[i], k);
        assert Stores(lines[i + 1], k);
      }
      if i :| 0 <= i < |lines| && Stores(lines[i], k) {
        assert i == 0 || Stores(rest[i - 1], k);
      }
    }
  }

  lemma {:induction false} LastExists(lines: seq<Line>, k: string)
    ensures LastLine(lines, k).Some? <==> exists i :: 0 <= i < |lines| && Stores(lines[i], k)
  {
    if lines != [] { LastExists(lines[..|lines| - 1], k); }
  }

  /** Build, then look up: the winning line answers, and the lookup misses
      exactly when no line stores the key. */
  lemma BuildThenLookup(mode: Mode, db: Database, lines: seq<Line>, prefix: string, key: string)
    requires mode.erase
    ensures
      var k := Lower(Policy.MakeKey(prefix, Policy.DefaultKey(key)));
      var v := Policy.Lookup(Built(mode, db, lines), prefix, key);
      v == Winner(mode, lines, k) && (v.None? <==> forall i :: 0 <= i < |lines| ==> !Stores(lines[i], k))
  {
    var k := Lower(Policy.MakeKey(prefix, Policy.DefaultKey(key)));
    LowerIdempotent(Policy.MakeKey(prefix, Policy.DefaultKey(key)));
    BuiltRecord(mode, db, lines, k);
    WinnerExists(lines, k);
  }

  /** A lookup of a key that fits answers with the value of the line that wins for
      prefix:key. */
  lemma WinnerLookedUp(mode: Mode, db: Database, lines: seq<Line>, i: nat, prefix: string, key: string)
    requires mode.erase && key != "" && |prefix| + 1 + |key| <= 255
    ensures
      var k := Lower(prefix + ":" + key);
      Wins(mode.skip, lines, i, k) ==>
        Policy.Lookup(Built(mode, db, lines), prefix, key) == Some(Text(lines[i].value)) &&
        Policy.RecordOf(Built(mode, db, lines), prefix, key) == Some(Text(lines[i].value))
  {
    var k := Lower(prefix + ":" + key);
    Policy.KeyFits(Built(mode, db, lines), prefix, key);
    WinnerStored(mode, db, lines, i, k);
  }

  /** The records the most specific search sees are the winning lines. */
  lemma BuildThenCheck(mode: Mode, db: Database, lines: seq<Line>, prefix: string, s: string)
    requires mode.erase
    ensures Policy.RecordOf(Built(mode, db, lines), prefix, s) == Winner(mode, lines, Lower(prefix + ":" + s))
  {
    BuiltRecord(mode, db, lines, Lower(prefix + ":" + s));
  }

  // ----- the records are lower case ------------------------------------------

  ghost predicate LowerCase(db: Database) {
    forall k :: k in db ==> Lower(k) == k && Lower(db[k]) == db[k]
  }

  lemma {:induction false} LoadsLowerCase(skip: bool, s: State, lines: seq<Line>)
    requires LowerCase(s.db)
    ensures LowerCase(LoadLines(skip, s, lines).db)
    decreases |lines|
  {
    if lines != [] {
      var l := lines[0];
      if HasKey(l) { LowerIdempotent(l.key.value); }
      if l.value.Some? { LowerIdempotent(l.value.value); }
      LoadsLowerCase(skip, AddStep(skip, s, l), lines[1..]);
    }
  }

  // ----- the counters --------------------------------------------------------

  /** How many lines are skipped, each against the table as it is then. */
  function Skipped(skip: bool, db: Database, lines: seq<Line>): nat
    decreases |lines|
  {
    if lines == [] then 0
    else (if Skips(skip, db, lines[0]) then 1 else 0) + Skipped(skip, AddRecord(skip, db, lines[0]), lines[1..])
  }

  lemma {:induction false} CountsFrom(skip: bool, s: State, lines: seq<Line>)
    ensures
      var c := LoadLines(skip, s, lines).counts;
      c.read == s.counts.read + |lines| &&
      c.read - c.added - c.errors ==
        s.counts.read - s.counts.added - s.counts.errors + Skipped(skip, s.db, lines)
    decreases |lines|
  {
    if lines != [] { CountsFrom(skip, AddStep(skip, s, lines[0]), lines[1..]); }
  }

  lemma AddedIsNew(s: State, l: Line)
    ensures |AddStep(true, s, l).db| - |s.db| == AddStep(true, s, l).counts.added - s.counts.added
  {
    if HasKey(l) && Lower(l.key.value) !in s.db {
      var k := Lower(l.key.value);
      var db' := s.db[k := ValueOf(l)];
      assert db'.Keys == s.db.Keys + {k};
      assert |db'.Keys| == |db'| && |s.db.Keys| == |s.db|;
    }
  }

  lemma {:induction false} AddedAreNew(s: State, lines: seq<Line>)
    ensures
      var e := LoadLines(true, s, lines);
      |e.db| - |s.db| == e.counts.added - s.counts.added
    decreases |lines|
  {
    if lines != [] {
      AddedIsNew(s, lines[0]);
      AddedAreNew(AddStep(true, s, lines[0]), lines[1..]);
    }
  }

  /** Records read are those added, those in error and those skipped; under
      UPDATE none is skipped, and under SKIP each record added is a new key. */
  lemma CountsAddUp(mode: Mode, db: Database, lines: seq<Line>)
    ensures
      var s := Start(mode, db);
      var e := LoadLines(mode.skip, s, lines);
      e.counts.read == |lines| == e.counts.added + e.counts.errors + Skipped(mode.skip, s.db, lines) &&
      (!mode.skip ==> e.counts.read == e.counts.added + e.counts.errors) &&
      (mode.skip ==> |e.db| == |s.db| + e.counts.added)
  {
    var s := Start(mode, db);
    CountsFrom(mode.skip, s, lines);
    if mode.skip {
      AddedAreNew(s, lines);
    } else {
      UpdateSkipsNone(s.db, lines);
    }
  }

  lemma {:induction false} UpdateSkipsNone(db: Database, lines: seq<Line>)
    ensures Skipped(false, db, lines) == 0
    decreases |lines|
  {
    if lines != [] { UpdateSkipsNone(AddRecord(false, db, lines[0]), lines[1..]); }
  }

  function CountLines(lines: seq<Line>, q: Line -> bool): nat {
    if lines == [] then 0 else (if q(lines[0]) then 1 else 0) + CountLines(lines[1..], q)
  }

  /** A line with a key that the database takes. */
  function Good(): Line -> bool {
    (l: Line) => l.key.Some? && l.key.value != "" && l.accepted
  }

  function Bad(): Line -> bool {
    (l: Line) => l.key.None? || l.key.value == "" || !l.accepted
  }

  function NoKey(): Line -> bool {
    (l: Line) => l.key.None? || l.key.value == ""
  }

  lemma {:induction false} UpdateCountsFrom(s: State, lines: seq<Line>)
    ensures
      var e := LoadLines(false, s, lines).counts;
      e.added == s.counts.added + CountLines(lines, Good()) && e.errors == s.counts.errors + CountLines(lines, Bad())
    decreases |lines|
  {
    if lines != [] { UpdateCountsFrom(AddStep(false, s, lines[0]), lines[1..]); }
  }

  lemma {:induction false} SkipCountsFrom(s: State, lines: seq<Line>)
    ensures
      var e := LoadLines(true, s, lines).counts;
      s.counts.errors + CountLines(lines, NoKey()) <= e.errors <= s.counts.errors + CountLines(lines, Bad())
    decreases |lines|
  {
    if lines != [] { SkipCountsFrom(AddStep(true, s, lines[0]), lines[1..]); }
  }

  /** Under UPDATE the lines added are those with a key that the database takes and
      the errors are the others; under SKIP every line without a key is an error,
      and no line that could be stored is. */
  lemma CountsByLine(mode: Mode, db: Database, lines: seq<Line>)
    ensures
      var e := LoadLines(mode.skip, Start(mode, db), lines).counts;
      if mode.skip then CountLines(lines, NoKey()) <= e.errors <= CountLines(lines, Bad())
      else e.added == CountLines(lines, Good()) && e.errors == CountLines(lines, Bad())
  {
    if mode.skip {
      SkipCountsFrom(Start(mode, db), lines);
    } else {
      UpdateCountsFrom(Start(mode, db), lines);
    }
  }
}
