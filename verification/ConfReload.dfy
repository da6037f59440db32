/** What `configure` leaves in the table, from any earlier state. */
module ConfReload {
  import opened CText
  import opened ConfTable
  import opened Perm

  // ----- the shape of a table never changes ----------------------------------

  predicate SameShapeRec(a: Rec, b: Rec) {
    a.id == b.id && a.name == b.name && a.kind == b.kind && a.slen == b.slen && a.opt == b.opt
  }

  predicate SameShape(a: seq<Rec>, b: seq<Rec>) {
    |a| == |b| && forall i :: 0 <= i < |a| ==> SameShapeRec(a[i], b[i])
  }

  lemma SearchesSeeShape(a: seq<Rec>, b: seq<Rec>, id: int, tag: string)
    requires SameShape(a, b)
    ensures IndexById(a, id) == IndexById(b, id)
    ensures GetId(a, tag) == GetId(b, tag)
  {
    var i, j := IndexById(a, id), IndexById(b, id);
    assert i < |a| ==> a[i].id == b[i].id;
    assert j < |b| ==> a[j].id == b[j].id;
    var m, n := IndexByName(a, tag), IndexByName(b, tag);
    assert m < |a| ==> a[m].name == b[m].name;
    assert n < |b| ==> a[n].name == b[n].name;
  }

  lemma {:induction false} SetAllKeepsShape(c: Conv, cf: seq<Rec>, asg: seq<(int, string)>)
    ensures SameShape(cf, SetAll(c, cf, asg))
    decreases |asg|
  {
    if asg != [] {
      SetAllKeepsShape(c, SetVal(c, cf, asg[0].0, asg[0].1), asg[1..]);
    }
  }

  // ----- reading a file is a list of assignments -----------------------------

  function LineAssign(cf: seq<Rec>, line: string): seq<(int, string)> {
    match ParseLine(line)
    case None => []
    case Some(kv) => if GetId(cf, kv.0) > 0 then [(GetId(cf, kv.0), kv.1)] else []
  }

  /** The assignments a file makes, in order: the known keys' values. */
  function LineAssigns(cf: seq<Rec>, lines: seq<string>): seq<(int, string)> {
    if lines == [] then [] else LineAssign(cf, lines[0]) + LineAssigns(cf, lines[1..])
  }

  lemma ReadLineIsAssigns(c: Conv, cf: seq<Rec>, line: string)
    ensures ReadLine(c, cf, line) == SetAll(c, cf, LineAssign(cf, line))
    ensures SameShape(cf, ReadLine(c, cf, line))
  {
    var asg := LineAssign(cf, line);
    SetAllKeepsShape(c, cf, asg);
    if asg != [] {
      assert asg[1..] == [];
      assert SetAll(c, cf, asg) == SetAll(c, SetVal(c, cf, asg[0].0, asg[0].1), []);
    }
  }

  lemma {:induction false} LineAssignsSeeShape(a: seq<Rec>, b: seq<Rec>, lines: seq<string>)
    requires SameShape(a, b)
    ensures LineAssigns(a, lines) == LineAssigns(b, lines)
  {
    if lines != [] {
      LineAssignsSeeShape(a, b, lines[1..]);
      match ParseLine(lines[0])
      case None =>
      case Some(kv) => SearchesSeeShape(a, b, 0, kv.0);
    }
  }

  lemma {:induction false} ReadIsAssigns(c: Conv, cf: seq<Rec>, lines: seq<string>)
    ensures ReadLines(c, cf, lines) == SetAll(c, cf, LineAssigns(cf, lines))
    decreases |lines|
  {
    if lines != [] {
      var cf1 := ReadLine(c, cf, lines[0]);
      var asg, rest := LineAssigns(cf, lines), LineAssigns(cf, lines[1..]);
      ReadLineIsAssigns(c, cf, lines[0]);
      LineAssignsSeeShape(cf, cf1, lines[1..]);
      ReadIsAssigns(c, cf1, lines[1..]);
      SetAllAppend(c, cf, LineAssign(cf, lines[0]), rest);
    }
  }

  lemma {:induction false} SetAllAppend(c: Conv, cf: seq<Rec>, a: seq<(int, string)>, b: seq<(int, string)>)
    ensures SetAll(c, cf, a + b) == SetAll(c, SetAll(c, cf, a), b)
    decreases |a|
  {
    if a == [] {
      assert a + b == b;
    } else {
      assert (a + b)[1..] == a[1..] + b;
      SetAllAppend(c, SetVal(c, cf, a[0].0, a[0].1), a[1..], b);
    }
  }

  function ConfigureAssigns(s: Schema, cf: seq<Rec>, text: string): seq<(int, string)> {
    s.defaults + LineAssigns(cf, Lines(text, CONF_LINE_SIZE))
  }

  lemma ConfiguredIsAssigns(s: Schema, cf: seq<Rec>, text: string)
    ensures Configured(s, cf, text) == SetAll(s.conv, cf, ConfigureAssigns(s, cf, text))
  {
    var cf1 := SetAll(s.conv, cf, s.defaults);
    var lines := Lines(text, CONF_LINE_SIZE);
    SetAllKeepsShape(s.conv, cf, s.defaults);
    LineAssignsSeeShape(cf, cf1, lines);
    ReadIsAssigns(s.conv, cf1, lines);
    SetAllAppend(s.conv, cf, s.defaults, LineAssigns(cf, lines));
  }

  // ----- one option at a time ------------------------------------------------

  function PickFor(id: int): ((int, string)) -> seq<string> {
    (a: (int, string)) => if a.0 == id then [a.1] else []
  }

  /** The texts assigned to one option. */
  function ValuesFor(asg: seq<(int, string)>, id: int): seq<string> {
    FlatMap(PickFor(id), asg)
  }

  function ApplyVals(c: Conv, r: Rec, vals: seq<string>): Rec
    decreases |vals|
  {
    if vals == [] then r else ApplyVals(c, SetRec(c, r, vals[0]), vals[1..])
  }

  lemma SetOneAt(c: Conv, cf: seq<Rec>, id: int, value: string, i: nat)
    requires i < |cf|
    ensures
      var cf1 := SetVal(c, cf, id, value);
      IndexById(cf1, cf[i].id) == IndexById(cf, cf[i].id) && cf1[i].id == cf[i].id &&
      cf1[i] == if id == cf[i].id && IndexById(cf, id) == i then SetRec(c, cf[i], value) else cf[i]
  {
    var cf1 := SetVal(c, cf, id, value);
    assert SameShape(cf, cf1);
    SearchesSeeShape(cf, cf1, cf[i].id, "");
  }

  lemma {:induction false} SetAllAt(c: Conv, cf: seq<Rec>, asg: seq<(int, string)>, i: nat)
    requires i < |cf|
    ensures SetAll(c, cf, asg)[i] ==
            if IndexById(cf, cf[i].id) == i then ApplyVals(c, cf[i], ValuesFor(asg, cf[i].id)) else cf[i]
    decreases |asg|
  {
    if asg != [] {
      var cf1 := SetVal(c, cf, asg[0].0, asg[0].1);
      SetOneAt(c, cf, asg[0].0, asg[0].1, i);
      SetAllAt(c, cf1, asg[1..], i);
      var vals := ValuesFor(asg, cf[i].id);
      if asg[0].0 == cf[i].id {
        assert vals[1..] == ValuesFor(asg[1..], cf[i].id);
      } else {
        assert vals == ValuesFor(asg[1..], cf[i].id);
      }
    }
  }

  function LastAccepted(r: Rec, vals: seq<string>): Option<string> {
    if vals == [] then None
    else if Accepts(r, vals[|vals| - 1]) then Some(vals[|vals| - 1])
    else LastAccepted(r, vals[..|vals| - 1])
  }

  function LastNonEmpty(vals: seq<string>): Option<string> {
    if vals == [] then None
    else if vals[|vals| - 1] != "" then Some(vals[|vals| - 1])
    else LastNonEmpty(vals[..|vals| - 1])
  }

  lemma {:induction false} LastAcceptedSound(r: Rec, vals: seq<string>)
    ensures match LastAccepted(r, vals)
            case None => forall v :: v in vals ==> !Accepts(r, v)
            case Some(v) => Accepts(r, v) && exists k ::
              0 <= k < |vals| && vals[k] == v && forall j :: k < j < |vals| ==> !Accepts(r, vals[j])
  {
    if vals != [] {
      var n := |vals| - 1;
      assert vals == vals[..n] + [vals[n]];
      if Accepts(r, vals[n]) {
        assert 0 <= n < |vals|;
      } else {
        LastAcceptedSound(r, vals[..n]);
        match LastAccepted(r, vals[..n])
        case None =>
        case Some(v) =>
          var k :| 0 <= k < n && vals[..n][k] == v && forall j :: k < j < n ==> !Accepts(r, vals[..n][j]);
          assert vals[k] == v;
          assert forall j :: k < j < n ==> vals[j] == vals[..n][j];
      }
    }
  }

  /** Only the last text and the last accepted text matter to a record. */
  function Overwrite(c: Conv, r: Rec, text: Option<string>, value: Option<string>): Rec
    requires value.Some? ==> Accepts(r, value.value)
  {
    var r1 := match text case None => r case Some(v) => r.(strval := StrLCpy(v, STRVAL_SIZE));
    match value case None => r1 case Some(v) => Store(c, r1, v)
  }

  lemma {:induction false} ApplyValsSnoc(c: Conv, r: Rec, vals: seq<string>, v: string)
    ensures ApplyVals(c, r, vals + [v]) == SetRec(c, ApplyVals(c, r, vals), v)
    decreases |vals|
  {
    if vals == [] {
      assert [v][1..] == [];
      assert vals + [v] == [v];
    } else {
      assert (vals + [v])[1..] == vals[1..] + [v];
      ApplyValsSnoc(c, SetRec(c, r, vals[0]), vals[1..], v);
    }
  }

  lemma LastAcceptedAccepts(r: Rec, vals: seq<string>)
    ensures LastAccepted(r, vals).Some? ==> Accepts(r, LastAccepted(r, vals).value)
  {
  }

  lemma {:induction false} ApplyValsClosed(c: Conv, r: Rec, vals: seq<string>)
    ensures LastAccepted(r, vals).Some? ==> Accepts(r, LastAccepted(r, vals).value)
    ensures ApplyVals(c, r, vals) == Overwrite(c, r, LastNonEmpty(vals), LastAccepted(r, vals))
  {
    LastAcceptedAccepts(r, vals);
    if vals != [] {
      var n := |vals| - 1;
      assert vals == vals[..n] + [vals[n]];
      ApplyValsSnoc(c, r, vals[..n], vals[n]);
      ApplyValsClosed(c, r, vals[..n]);
    }
  }

  // ----- main results --------------------------------------------------------

  function FileValues(cf: seq<Rec>, text: string, id: int): seq<string> {
    ValuesFor(LineAssigns(cf, Lines(text, CONF_LINE_SIZE)), id)
  }

  lemma {:induction false} LastAcceptedAppend(r: Rec, a: seq<string>, b: seq<string>)
    ensures LastAccepted(r, a + b) ==
            if LastAccepted(r, b).Some? then LastAccepted(r, b) else LastAccepted(r, a)
    decreases |b|
  {
    if b == [] {
      assert a + b == a;
    } else {
      assert (a + b)[..|a + b| - 1] == a + b[..|b| - 1];
      LastAcceptedAppend(r, a, b[..|b| - 1]);
    }
  }

  lemma ApplyValsHeld(c: Conv, r: Rec, vals: seq<string>)
    ensures Held(ApplyVals(c, r, vals)) ==
            match LastAccepted(r, vals)
            case None => Held(r)
            case Some(v) => Meaning(c, r.kind, r.slen, r.opt, v)
  {
    ApplyValsClosed(c, r, vals);
    if r.kind == Int { AcceptedIsNonEmpty(r, vals); }
  }

  lemma {:induction false} AcceptedIsNonEmpty(r: Rec, vals: seq<string>)
    requires r.kind == Int
    ensures LastAccepted(r, vals) == LastNonEmpty(vals)
  {
    if vals != [] { AcceptedIsNonEmpty(r, vals[..|vals| - 1]); }
  }

  /** After `configure(F)` from any table, an option holds its last accepted
      line in F, else its last accepted default, else what it held before. */
  lemma ConfigureHolds(s: Schema, cf: seq<Rec>, text: string, i: nat)
    requires i < |cf| && IndexById(cf, cf[i].id) == i
    ensures
      var r := cf[i];
      var fromFile := LastAccepted(r, FileValues(cf, text, r.id));
      var fromDefault := LastAccepted(r, ValuesFor(s.defaults, r.id));
      Held(Configured(s, cf, text)[i]) ==
        if fromFile.Some? then Meaning(s.conv, r.kind, r.slen, r.opt, fromFile.value)
        else if fromDefault.Some? then Meaning(s.conv, r.kind, r.slen, r.opt, fromDefault.value)
        else Held(r)
  {
    var r := cf[i];
    var a, b := ValuesFor(s.defaults, r.id), FileValues(cf, text, r.id);
    ConfiguredIsAssigns(s, cf, text);
    SetAllAt(s.conv, cf, ConfigureAssigns(s, cf, text), i);
    FlatMapAppend(PickFor(r.id), s.defaults, LineAssigns(cf, Lines(text, CONF_LINE_SIZE)));
    ApplyValsHeld(s.conv, r, a + b);
    LastAcceptedAppend(r, a, b);
  }

  /** Options with an accepted default forget everything that came before. */
  lemma ConfigureForgets(s: Schema, cf: seq<Rec>, cf': seq<Rec>, text: string, i: nat)
    requires SameShape(cf, cf')
    requires i < |cf| && IndexById(cf, cf[i].id) == i
    requires LastAccepted(cf[i], ValuesFor(s.defaults, cf[i].id)).Some?
    ensures Held(Configured(s, cf, text)[i]) == Held(Configured(s, cf', text)[i])
  {
    var r, r' := cf[i], cf'[i];
    SearchesSeeShape(cf, cf', r.id, "");
    LineAssignsSeeShape(cf, cf', Lines(text, CONF_LINE_SIZE));
    LastAcceptedSeesShape(r, r', FileValues(cf, text, r.id));
    LastAcceptedSeesShape(r, r', ValuesFor(s.defaults, r.id));
    ConfigureHolds(s, cf, text, i);
    ConfigureHolds(s, cf', text, i);
  }

  lemma {:induction false} LastAcceptedSeesShape(r: Rec, r': Rec, vals: seq<string>)
    requires SameShapeRec(r, r')
    ensures LastAccepted(r, vals) == LastAccepted(r', vals)
  {
    if vals != [] { LastAcceptedSeesShape(r, r', vals[..|vals| - 1]); }
  }

  lemma ApplyValsTwice(c: Conv, r: Rec, vals: seq<string>)
    ensures ApplyVals(c, ApplyVals(c, r, vals), vals) == ApplyVals(c, r, vals)
  {
    var r1 := ApplyVals(c, r, vals);
    ApplyValsClosed(c, r, vals);
    assert SameShapeRec(r, r1);
    LastAcceptedSeesShape(r, r1, vals);
    ApplyValsClosed(c, r1, vals);
  }

  /** Configuring twice with the same file is configuring once, record for record. */
  lemma ConfigureIdempotent(s: Schema, cf: seq<Rec>, text: string)
    ensures Configured(s, Configured(s, cf, text), text) == Configured(s, cf, text)
  {
    var asg := ConfigureAssigns(s, cf, text);
    var cf1 := Configured(s, cf, text);
    ConfiguredIsAssigns(s, cf, text);
    SetAllKeepsShape(s.conv, cf, asg);
    LineAssignsSeeShape(cf, cf1, Lines(text, CONF_LINE_SIZE));
    ConfiguredIsAssigns(s, cf1, text);
    var cf2 := SetAll(s.conv, cf1, asg);
    forall i | 0 <= i < |cf|
      ensures cf2[i] == cf1[i]
    {
      SearchesSeeShape(cf, cf1, cf[i].id, "");
      SetAllAt(s.conv, cf, asg, i);
      SetAllAt(s.conv, cf1, asg, i);
      ApplyValsTwice(s.conv, cf[i], ValuesFor(asg, cf[i].id));
    }
  }
}
