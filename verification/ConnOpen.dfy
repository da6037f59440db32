/** The open-connection table of libjoe/j-connopen.c: per-client counts, a
    global count, and a cleanup that any thread may start. */
module ConnOpen {
  import opened CText

  const SZ_IP := 32
  const SZ_NAME := 64
  const DTCLEANUP := 600
  const NB_BTCLEANUP := 6710886

  datatype Entry = Entry(name: string, nb: int, update: int)

  /** `hdata`: the tree, the global count and the time of the last cleanup. The
      tree is usable until `connopen_reset` destroys it. */
  datatype State = State(db: map<string, Entry>, nb: int, last: int, alive: bool)

  function Initial(now: int): State { State(map[], 0, now, true) }

  /** Clients are told apart by what fits the record. */
  function Key(ip: string): string { StrLCpy(ip, SZ_IP) }

  /** Two clients are counted as one if and only if their addresses are the same or
      agree on their first 31 characters. */
  lemma SameClientIff(a: string, b: string)
    ensures Key(a) == Key(b) <==> a == b || (|a| >= 31 && |b| >= 31 && a[..31] == b[..31])
  {
    assert |a| == 31 ==> a[..31] == a;
    assert |b| == 31 ==> b[..31] == b;
  }

  function CountOf(st: State, key: string): int {
    if key in st.db then st.db[key].nb else 0
  }

  predicate CleanupDue(last: int, count: nat, now: int) {
    last + DTCLEANUP / 2 < now && (last + DTCLEANUP < now || count > NB_BTCLEANUP)
  }

  /** `select_function`. */
  predicate Survives(e: Entry, now: int) {
    e.nb > 0 || e.update + DTCLEANUP > now
  }

  function Kept(db: map<string, Entry>, now: int): map<string, Entry> {
    map k | k in db && Survives(db[k], now) :: db[k]
  }

  function Collected(db: map<string, Entry>, now: int): map<string, Entry> {
    map k | k in db && !Survives(db[k], now) :: db[k]
  }

  // ----- the critical sections -----------------------------------------------

  /** What a thread does while it holds the lock: count a client's connections
      up or down (where the insertion of a new client may fail), clean the table
      at a time read before the lock was taken (where copying what survives into
      a new tree may fail), or destroy the tree. */
  datatype Event =
    | Update(ip: string, name: string, n: int, now: int, addOk: bool)
    | Clean(now: int, copied: bool)
    | Reset

  function Step(st: State, e: Event): State {
    match e
    case Update(ip, name, n, now, addOk) =>
      var key := Key(ip);
      if ip == "" then st
      else if key in st.db then
        if n == 0 then st
        else st.(db := st.db[key := Entry(st.db[key].name, st.db[key].nb + n, now)], nb := st.nb + n)
      else if n > 0 && addOk && st.alive then
        st.(db := st.db[key := Entry(StrLCpy(ShownName(name), SZ_NAME), n, now)], nb := st.nb + n)
      else st
    case Clean(now, copied) =>
      if CleanupDue(st.last, |st.db|, now)
      then st.(db := if copied then Kept(st.db, now) else st.db, last := now)
      else st
    case Reset => State(map[], 0, st.last, false)
  }

  function ShownName(name: string): string {
    if name == "" then "NONAME" else name
  }

  /** The count `connopen_check_host` returns. */
  function Response(st: State, e: Event): int
    requires e.Update?
  {
    if e.ip == "" then 0 else CountOf(Step(st, e), Key(e.ip))
  }

  class Table {
    var db: map<string, Entry>
    var nb: int
    var last: int
    var alive: bool
    var ok: bool

    ghost function Value(): State
      reads this
    {
      State(db, nb, last, alive)
    }

    constructor ()
      ensures !ok && Value() == Initial(0)
    {
      db, nb, last, alive, ok := map[], 0, 0, true, false;
    }

    /** `connopen_init`. */
    method Init(now: int)
      modifies this
      ensures ok && Value() == if old(ok) then old(Value()) else old(Value()).(db := map[], last := now, alive := true)
    {
      if !ok {
        db, last, alive, ok := map[], now, true, true;
      }
    }

    /** `connopen_check_host` on an initialised table; the clock is read once on
        entry and once more by the cleanup it may start. */
    method CheckHost(ip: string, name: string, n: int, now: int, addOk: bool, later: int, copied: bool) returns (res: int)
      requires ok
      modifies this
      ensures ok
      ensures
        var e := Update(ip, name, n, now, addOk);
        var st := Step(old(Value()), e);
        res == Response(old(Value()), e) &&
        Value() == if ip != "" && CleanupDue(st.last, |st.db|, now) then Step(st, Clean(later, copied)) else st
    {
      res := 0;
      if ip == "" { return; }
      var key := StrLCpy(ip, SZ_IP);
      if key in db {
        if n != 0 {
          db := db[key := Entry(db[key].name, db[key].nb + n, now)];
          nb := nb + n;
        }
        res := db[key].nb;
      } else if n > 0 {
        if addOk && alive {
          db := db[key := Entry(StrLCpy(if name == "" then "NONAME" else name, SZ_NAME), n, now)];
          res := n;
          nb := nb + n;
        }
      }
      assert Value() == Step(old(Value()), Update(ip, name, n, now, addOk));
      if last + DTCLEANUP / 2 < now && (last + DTCLEANUP < now || |db| > NB_BTCLEANUP) {
        CleanTable(later, copied);
      }
    }

    /** `connopen_clean_table`: the test is made again under the lock. */
    method CleanTable(now: int, copied: bool)
      requires ok
      modifies this
      ensures ok && Value() == Step(old(Value()), Clean(now, copied))
      ensures
        var due := old(last) + 300 < now && (old(last) + 600 < now || |old(db)| > 6710886);
        last == (if due then now else old(last)) &&
        forall k :: k in db <==>
          k in old(db) && (due && copied ==> old(db)[k].nb > 0 || old(db)[k].update + 600 > now)
    {
      if last + DTCLEANUP / 2 < now && (last + DTCLEANUP < now || |db| > NB_BTCLEANUP) {
        if copied {
          db := map k | k in db && (db[k].nb > 0 || db[k].update + DTCLEANUP > now) :: db[k];
        }
        last := now;
      }
    }

    /** `connopen_reset`. */
    method ResetTable()
      modifies this
      ensures Value() == Step(old(Value()), Reset) && ok == old(ok)
    {
      db, nb, alive := map[], 0, false;
    }
  }

  // ----- runs ----------------------------------------------------------------

  function Run(st: State, es: seq<Event>): State {
    if es == [] then st else Step(Run(st, es[..|es| - 1]), es[|es| - 1])
  }

  /** What an event opens less what it closes, for one client. */
  function Delta(e: Event, key: string): int {
    if e.Update? && e.ip != "" && Key(e.ip) == key then e.n else 0
  }

  /** Opens minus closes of one client: no table enters. */
  function Net(es: seq<Event>, key: string): int {
    if es == [] then 0 else Net(es[..|es| - 1], key) + Delta(es[|es| - 1], key)
  }

  /** Every close matches earlier opens of the same client. */
  ghost predicate Matched(es: seq<Event>) {
    forall i, key :: 0 <= i <= |es| ==> Net(es[..i], key) >= 0
  }

  /** No insertion fails and the tree is never destroyed. */
  predicate Sound(es: seq<Event>) {
    forall i :: 0 <= i < |es| ==> !es[i].Reset? && (es[i].Update? ==> es[i].addOk)
  }

  /** Every count returned is the client's opens minus its closes. */
  ghost predicate Faithful(t0: int, es: seq<Event>) {
    forall i :: 0 <= i < |es| && es[i].Update? ==>
      Response(Run(Initial(t0), es[..i]), es[i]) == if es[i].ip == "" then 0 else Net(es[..i + 1], Key(es[i].ip))
  }

  ghost predicate Tracks(st: State, es: seq<Event>) {
    st.alive && forall key :: CountOf(st, key) == Net(es, key)
  }

  lemma {:induction false} TracksStep(st: State, es: seq<Event>, e: Event)
    requires Tracks(st, es)
    requires !e.Reset? && (e.Update? ==> e.addOk)
    requires forall key :: Net(es, key) >= 0 && Net(es + [e], key) >= 0
    ensures Tracks(Step(st, e), es + [e])
  {
    var all := es + [e];
    assert all[..|all| - 1] == es;
    forall key
      ensures CountOf(Step(st, e), key) == Net(all, key)
    {
      assert Net(all, key) == Net(es, key) + Delta(e, key);
      assert CountOf(st, key) == Net(es, key);
      if e.Update? && e.ip != "" { assert Net(all, Key(e.ip)) >= 0; }
    }
  }

  lemma {:induction false} RunTracks(t0: int, es: seq<Event>, n: nat)
    requires Matched(es) && Sound(es) && n <= |es|
    ensures Tracks(Run(Initial(t0), es[..n]), es[..n])
  {
    if n > 0 {
      var before, e := es[..n - 1], es[n - 1];
      RunTracks(t0, es, n - 1);
      assert es[..n] == before + [e] && es[..n][..n - 1] == before;
      TracksStep(Run(Initial(t0), before), before, e);
    }
  }

  /** Cleanups are invisible: whenever they fire, every count returned is the
      client's opens minus its closes. */
  lemma CleanupInvisible(t0: int, es: seq<Event>)
    requires Matched(es) && Sound(es)
    ensures Faithful(t0, es)
  {
    forall i | 0 <= i < |es| && es[i].Update?
      ensures Response(Run(Initial(t0), es[..i]), es[i]) ==
              if es[i].ip == "" then 0 else Net(es[..i + 1], Key(es[i].ip))
    {
      var st := Run(Initial(t0), es[..i + 1]);
      RunTracks(t0, es, i + 1);
      assert es[..i + 1][..i] == es[..i];
      assert CountOf(st, Key(es[i].ip)) == Net(es[..i + 1], Key(es[i].ip));
    }
  }

  // ----- ... and exactly then ------------------------------------------------

  /** The run without its cleanups. */
  function Updates(es: seq<Event>): seq<Event> {
    if es == [] then []
    else Updates(es[..|es| - 1]) + if es[|es| - 1].Clean? then [] else [es[|es| - 1]]
  }

  lemma {:induction false} NetOfUpdates(es: seq<Event>, key: string)
    ensures Net(Updates(es), key) == Net(es, key)
  {
    if es != [] {
      var n := |es| - 1;
      NetOfUpdates(es[..n], key);
      var us := Updates(es);
      if es[n].Clean? {
        assert us == Updates(es[..n]);
      } else {
        assert us[..|us| - 1] == Updates(es[..n]);
      }
    }
  }

  lemma {:induction false} UpdatesOfPrefix(es: seq<Event>, i: nat)
    requires i <= |es|
    ensures Updates(es[..i]) <= Updates(es)
  {
    if i < |es| {
      UpdatesOfPrefix(es[..|es| - 1], i);
      assert es[..|es| - 1][..i] == es[..i];
    } else {
      assert es[..i] == es;
    }
  }

  lemma {:induction false} UpdatesAppend(a: seq<Event>, b: seq<Event>)
    ensures Updates(a + b) == Updates(a) + Updates(b)
    decreases |b|
  {
    if b == [] {
      assert a + b == a;
    } else {
      assert (a + b)[..|a + b| - 1] == a + b[..|b| - 1];
      UpdatesAppend(a, b[..|b| - 1]);
    }
  }

  lemma {:induction false} UpdatesOnly(us: seq<Event>)
    requires forall i :: 0 <= i < |us| ==> us[i].Update?
    ensures Updates(us) == us
  {
    if us != [] {
      var n := |us| - 1;
      UpdatesOnly(us[..n]);
      assert us[n].Update? && us == us[..n] + [us[n]];
    }
  }

  lemma MatchedWithCleanups(us: seq<Event>, es: seq<Event>)
    requires Matched(us) && Updates(es) == us
    ensures Matched(es)
  {
    forall i, key | 0 <= i <= |es|
      ensures Net(es[..i], key) >= 0
    {
      var part := Updates(es[..i]);
      UpdatesOfPrefix(es, i);
      NetOfUpdates(es[..i], key);
      assert part == us[..|part|];
      assert Net(us[..|part|], key) >= 0;
    }
  }

  lemma {:induction false} FirstUnmatched(us: seq<Event>) returns (i: nat, key: string)
    requires !Matched(us)
    ensures 0 < i <= |us| && Net(us[..i], key) < 0 && Matched(us[..i - 1])
  {
    var n := |us|;
    var j, k :| 0 <= j <= n && Net(us[..j], k) < 0;
    assert j > 0;
    if Matched(us[..n - 1]) {
      assert forall m :: 0 <= m < n ==> us[..n - 1][..m] == us[..m];
      i, key := n, k;
    } else {
      i, key := FirstUnmatched(us[..n - 1]);
      assert us[..n - 1][..i] == us[..i] && us[..n - 1][..i - 1] == us[..i - 1];
    }
  }

  lemma RunAppend(st: State, es: seq<Event>, e: Event)
    ensures Run(st, es + [e]) == Step(Run(st, es), e)
    ensures forall key :: Net(es + [e], key) == Net(es, key) + Delta(e, key)
  {
    assert (es + [e])[..|es|] == es;
  }

  function Insert(us: seq<Event>, i: nat, e: Event): seq<Event>
    requires i <= |us|
  {
    us[..i] + [e] + us[i..]
  }

  lemma InsertFacts(us: seq<Event>, i: nat, e: Event)
    requires i < |us|
    ensures
      var es := Insert(us, i, e);
      |es| == |us| + 1 && es[i + 1] == us[i] && es[..i + 1] == us[..i] + [e] && es[..i + 2] == us[..i] + [e] + [us[i]]
  {
  }

  lemma InsertCleanup(us: seq<Event>, i: nat, now: int)
    requires i <= |us|
    requires forall j :: 0 <= j < |us| ==> us[j].Update?
    ensures Updates(Insert(us, i, Clean(now, true))) == us
  {
    var clean := Clean(now, true);
    UpdatesAppend(us[..i] + [clean], us[i..]);
    UpdatesAppend(us[..i], [clean]);
    UpdatesOnly(us[..i]);
    UpdatesOnly(us[i..]);
    assert Updates([clean]) == Updates([clean][..0]) + [];
    assert us == us[..i] + us[i..];
  }

  lemma InsertSound(us: seq<Event>, i: nat, now: int)
    requires i <= |us| && Sound(us)
    ensures Sound(Insert(us, i, Clean(now, true)))
  {
  }

  /** A client with nothing open can be cleaned away, and then an unmatched close
      returns zero. */
  lemma CleanedAway(t0: int, before: seq<Event>, e: Event) returns (now: int)
    requires Matched(before) && Sound(before)
    requires e.Update? && e.ip != "" && e.n == -1 && Net(before, Key(e.ip)) == 0
    ensures Response(Run(Initial(t0), before + [Clean(now, true)]), e) == 0
  {
    var st, key := Run(Initial(t0), before), Key(e.ip);
    RunTracks(t0, before, |before|);
    assert before[..|before|] == before;
    assert CountOf(st, key) == 0;
    var seen := if key in st.db then st.db[key].update else 0;
    now := (if st.last > seen then st.last else seen) + DTCLEANUP + 1;
    RunAppend(Initial(t0), before, Clean(now, true));
    assert key !in Step(st, Clean(now, true)).db;
  }

  /** A cleanup just before a client's first unmatched close makes the count
      returned wrong. */
  lemma UnmatchedCloseShows(t0: int, us: seq<Event>) returns (es: seq<Event>)
    requires Sound(us) && !Matched(us)
    requires forall i :: 0 <= i < |us| ==> us[i].Update? && us[i].n >= -1
    ensures Updates(es) == us && Sound(es) && !Faithful(t0, es)
  {
    var i, key := FirstUnmatched(us);
    var before, e := us[..i - 1], us[i - 1];
    assert us[..i] == before + [e] && before[..|before|] == before;
    RunAppend(Initial(t0), before, e);
    assert Net(before, key) >= 0;
    var now := CleanedAway(t0, before, e);
    es := Insert(us, i - 1, Clean(now, true));
    InsertCleanup(us, i - 1, now);
    InsertSound(us, i - 1, now);
    InsertFacts(us, i - 1, Clean(now, true));
    WrongAnswer(t0, before, now, e, es, i);
  }

  lemma WrongAnswer(t0: int, before: seq<Event>, now: int, e: Event, es: seq<Event>, i: nat)
    requires i < |es| && es[i] == e && es[..i] == before + [Clean(now, true)] && es[..i + 1] == es[..i] + [e]
    requires e.Update? && e.ip != "" && e.n == -1 && Net(before, Key(e.ip)) == 0
    requires Response(Run(Initial(t0), before + [Clean(now, true)]), e) == 0
    ensures !Faithful(t0, es)
  {
    RunAppend(Initial(t0), before, Clean(now, true));
    RunAppend(Initial(t0), es[..i], e);
    assert Net(es[..i + 1], Key(e.ip)) == -1;
  }

  /** For connections counted one by one, cleanups are invisible whenever they
      fire if and only if every close matches an earlier open. */
  lemma CleanupInvisibleIff(t0: int, us: seq<Event>)
    requires Sound(us)
    requires forall i :: 0 <= i < |us| ==> us[i].Update? && us[i].n >= -1
    ensures Matched(us) <==> forall es :: Updates(es) == us && Sound(es) ==> Faithful(t0, es)
  {
    if Matched(us) {
      forall es | Updates(es) == us && Sound(es)
        ensures Faithful(t0, es)
      {
        MatchedWithCleanups(us, es);
        CleanupInvisible(t0, es);
      }
    } else {
      var es := UnmatchedCloseShows(t0, us);
    }
  }

  // ----- the global count ----------------------------------------------------

  ghost function SumNb(db: map<string, Entry>): int
    decreases |db|
  {
    if db == map[] then 0
    else
      var k :| k in db;
      db[k].nb + SumNb(db - {k})
  }

  lemma {:induction false} SumNbRemove(db: map<string, Entry>, k: string)
    requires k in db
    ensures SumNb(db) == db[k].nb + SumNb(db - {k})
    decreases |db|
  {
    var j :| j in db && SumNb(db) == db[j].nb + SumNb(db - {j});
    if j != k {
      SumNbRemove(db - {j}, k);
      SumNbRemove(db - {k}, j);
      assert db - {j} - {k} == db - {k} - {j};
    }
  }

  lemma SumNbSet(db: map<string, Entry>, k: string, e: Entry)
    ensures SumNb(db[k := e]) == SumNb(db) + e.nb - if k in db then db[k].nb else 0
  {
    SumNbRemove(db[k := e], k);
    if k in db {
      SumNbRemove(db, k);
      assert db[k := e] - {k} == db - {k};
    } else {
      assert db[k := e] - {k} == db;
    }
  }

  function Dropped(st: State, e: Event): map<string, Entry> {
    if e.Clean? && e.copied && CleanupDue(st.last, |st.db|, e.now)
    then Collected(st.db, e.now) else map[]
  }

  predicate SplitInto(db: map<string, Entry>, a: map<string, Entry>, b: map<string, Entry>) {
    a.Keys !! b.Keys && db.Keys == a.Keys + b.Keys &&
    (forall k :: k in a ==> a[k] == db[k]) && (forall k :: k in b ==> b[k] == db[k])
  }

  lemma {:induction false} SumNbSplit(db: map<string, Entry>, a: map<string, Entry>, b: map<string, Entry>)
    requires SplitInto(db, a, b)
    ensures SumNb(db) == SumNb(a) + SumNb(b)
    decreases |a|
  {
    if a == map[] {
      assert db == b;
    } else {
      var k :| k in a;
      SplitLess(db, a, b, k);
      SumNbSplit(db - {k}, a - {k}, b);
      SumNbRemove(a, k);
      SumNbRemove(db, k);
    }
  }

  lemma SplitLess(db: map<string, Entry>, a: map<string, Entry>, b: map<string, Entry>, k: string)
    requires SplitInto(db, a, b) && k in a
    ensures SplitInto(db - {k}, a - {k}, b) && db[k] == a[k]
  {
    assert (db - {k}).Keys == (a - {k}).Keys + b.Keys;
  }

  lemma {:induction false} SumNbSign(db: map<string, Entry>)
    requires forall k :: k in db ==> db[k].nb <= 0
    ensures SumNb(db) <= 0
    ensures SumNb(db) == 0 <==> forall k :: k in db ==> db[k].nb == 0
    decreases |db|
  {
    if db != map[] {
      var k :| k in db;
      SumNbRemove(db, k);
      SumNbSign(db - {k});
      assert forall j :: j in db && j != k ==> j in db - {k};
    }
  }

  /** The counts the cleanups of a run have thrown away. */
  ghost function Lost(st: State, es: seq<Event>): int {
    if es == [] then 0
    else Lost(st, es[..|es| - 1]) + SumNb(Dropped(Run(st, es[..|es| - 1]), es[|es| - 1]))
  }

  lemma StepCounts(st: State, e: Event)
    requires !e.Reset?
    ensures Step(st, e).nb - SumNb(Step(st, e).db) == st.nb - SumNb(st.db) + SumNb(Dropped(st, e))
    ensures SumNb(Dropped(st, e)) <= 0
    ensures SumNb(Dropped(st, e)) == 0 <==> CollectsZeros(st, e)
  {
    SumNbSign(Dropped(st, e));
    match e
    case Update(ip, name, n, now, addOk) =>
      var key := Key(ip);
      if key in Step(st, e).db { SumNbSet(st.db, key, Step(st, e).db[key]); }
    case Clean(now, copied) => CleanCounts(st, e);
  }

  lemma CleanCounts(st: State, e: Event)
    requires e.Clean?
    ensures Step(st, e).nb == st.nb
    ensures SumNb(st.db) == SumNb(Dropped(st, e)) + SumNb(Step(st, e).db)
  {
    if e.copied && CleanupDue(st.last, |st.db|, e.now) {
      KeptOrCollected(st.db, e.now);
      SumNbSplit(st.db, Collected(st.db, e.now), Kept(st.db, e.now));
    }
  }

  lemma KeptOrCollected(db: map<string, Entry>, now: int)
    ensures SplitInto(db, Collected(db, now), Kept(db, now))
  {
    assert db.Keys == Collected(db, now).Keys + Kept(db, now).Keys;
  }

  /** A step that collects no client with a negative count. */
  ghost predicate CollectsZeros(st: State, e: Event) {
    forall k :: k in Dropped(st, e) ==> Dropped(st, e)[k].nb == 0
  }

  ghost predicate NoNegativeCollected(st: State, es: seq<Event>) {
    es == [] ||
    (NoNegativeCollected(st, es[..|es| - 1]) && CollectsZeros(Run(st, es[..|es| - 1]), es[|es| - 1]))
  }

  /** In every reset-free run, whatever insertions fail and whenever cleanups
      fire, the global count is the sum of the table's counts plus what was
      thrown away: never more than the sum, and equal to it if and only if no
      negative count was collected. */
  lemma {:induction false} GlobalCount(t0: int, es: seq<Event>)
    requires forall i :: 0 <= i < |es| ==> !es[i].Reset?
    ensures
      var st := Run(Initial(t0), es);
      st.nb == SumNb(st.db) + Lost(Initial(t0), es) && st.nb <= SumNb(st.db) &&
      (st.nb == SumNb(st.db) <==> NoNegativeCollected(Initial(t0), es))
  {
    if es != [] {
      var n := |es| - 1;
      GlobalCount(t0, es[..n]);
      StepCounts(Run(Initial(t0), es[..n]), es[n]);
    }
  }

  /** In a matched run the global count is all opens minus all closes. */
  function AllNet(es: seq<Event>): int {
    if es == [] then 0
    else AllNet(es[..|es| - 1]) + if es[|es| - 1].Update? && es[|es| - 1].ip != "" then es[|es| - 1].n else 0
  }

  lemma {:induction false} GlobalCountMatched(t0: int, es: seq<Event>, n: nat)
    requires Matched(es) && Sound(es) && n <= |es|
    ensures Run(Initial(t0), es[..n]).nb == AllNet(es[..n])
  {
    if n > 0 {
      var before, e := es[..n - 1], es[n - 1];
      GlobalCountMatched(t0, es, n - 1);
      RunTracks(t0, es, n - 1);
      assert es[..n][..n - 1] == before && es[..n] == before + [e];
      if e.Update? && e.ip != "" && Key(e.ip) !in Run(Initial(t0), before).db {
        var key := Key(e.ip);
        assert CountOf(Run(Initial(t0), before), key) == Net(before, key);
        RunAppend(Initial(t0), before, e);
        assert Net(es[..n], key) >= 0;
      }
    }
  }

  // ----- what an entry records -----------------------------------------------

  /** The time of the last event that opened or closed connections of a client. */
  function LastCounted(es: seq<Event>, key: string): Option<int> {
    if es == [] then None
    else
      var e := es[|es| - 1];
      if e.Update? && e.ip != "" && Key(e.ip) == key && e.n != 0 then Some(e.now)
      else LastCounted(es[..|es| - 1], key)
  }

  /** An entry carries that time ... */
  lemma {:induction false} EntryTime(t0: int, es: seq<Event>, key: string)
    ensures
      var db := Run(Initial(t0), es).db;
      key in db ==> LastCounted(es, key) == Some(db[key].update)
  {
    if es != [] { EntryTime(t0, es[..|es| - 1], key); }
  }

  /** The name of an event as an entry keeps it: 63 characters of it, or "NONAME". */
  function KeptName(name: string): string {
    var shown := if name == "" then "NONAME" else name;
    if |shown| <= 63 then shown else shown[..63]
  }

  /** ... and the name given with some event that opened connections. */
  lemma {:induction false} EntryName(t0: int, es: seq<Event>, key: string)
    ensures
      var db := Run(Initial(t0), es).db;
      key in db ==> exists i :: 0 <= i < |es| && es[i].Update? && es[i].ip != "" && Key(es[i].ip) == key &&
                                es[i].n > 0 && db[key].name == KeptName(es[i].name)
  {
    if es != [] {
      var before := es[..|es| - 1];
      EntryName(t0, before, key);
      var db := Run(Initial(t0), es).db;
      if key in db && key in Run(Initial(t0), before).db {
        var i :| 0 <= i < |before| && before[i].Update? && before[i].ip != "" && Key(before[i].ip) == key &&
                 before[i].n > 0 && Run(Initial(t0), before).db[key].name == KeptName(before[i].name);
        assert es[i] == before[i];
      } else if key in db {
        var e := es[|es| - 1];
        assert e.Update? && db[key].name == KeptName(e.name);
      }
    }
  }

  // ----- cleanup times -------------------------------------------------------

  /** The times stored by the cleanups of a run, the initial one first. */
  function StoredTimes(st: State, es: seq<Event>): (ts: seq<int>)
    ensures ts != []
  {
    if es == [] then [st.last]
    else
      var before := Run(st, es[..|es| - 1]);
      var e := es[|es| - 1];
      StoredTimes(st, es[..|es| - 1])
      + if e.Clean? && CleanupDue(before.last, |before.db|, e.now) then [e.now] else []
  }

  /** Under any interleaving of critical sections, even with times read before
      the lock was taken, stored cleanup times are more than 300 seconds apart. */
  lemma {:induction false} CleanupSpacing(st: State, es: seq<Event>)
    ensures
      var ts := StoredTimes(st, es);
      ts[|ts| - 1] == Run(st, es).last &&
      forall i, j :: 0 <= i < j < |ts| ==> ts[j] - ts[i] > 300 * (j - i)
  {
    if es != [] {
      var n := |es| - 1;
      CleanupSpacing(st, es[..n]);
      var past, ts := StoredTimes(st, es[..n]), StoredTimes(st, es);
      if |ts| > |past| {
        forall i | 0 <= i < |past|
          ensures ts[|past|] - ts[i] > 300 * (|past| - i)
        {
          assert i < |past| - 1 ==> past[|past| - 1] - past[i] > 300 * (|past| - 1 - i);
        }
      }
    }
  }

  // ----- reset ---------------------------------------------------------------

  /** Once the tree is destroyed nothing is counted again: every later answer is
      zero. */
  lemma {:induction false} ResetIsFinal(st: State, es: seq<Event>, e: Event)
    requires e.Update?
    ensures
      var dead := Run(Step(st, Reset), es);
      dead.db == map[] && dead.nb == 0 && !dead.alive && Response(dead, e) == 0
  {
    if es != [] { ResetIsFinal(st, es[..|es| - 1], e); }
  }
}
