/** Writing the running configuration and reading it back. */
module ConfRoundTrip {
  import opened CText
  import opened ConfTable
  import opened ConfReload
  import opened Perm

  // ----- one line ------------------------------------------------------------

  predicate ValidTag(tag: string) {
    tag != "" && |tag| < NAME_SIZE && All(tag, KeyChar) && '.' !in tag
  }

  /** The texts a line carries unharmed. */
  predicate Clean(v: string) {
    '\n' !in v && '\r' !in v && (v != "" ==> !IsSeparator(v[0]) && !IsBlank(v[|v| - 1]))
  }

  lemma {:induction false} TrimRightFixed(v: string)
    ensures v != "" ==> TrimRight(v) != ""
    ensures |v| > 1 ==> (TrimRight(v) == v <==> !IsBlank(v[|v| - 1]))
  {
    if |v| > 1 && IsBlank(v[|v| - 1]) { TrimRightFixed(v[..|v| - 1]); }
  }

  lemma SkipThrough(a: string, b: string, p: char -> bool)
    requires All(a, p)
    ensures Skip(a + b, p) == Skip(b, p)
  {
    var k := Spn(b, p);
    SpnSpec(b, p);
    assert a + b == a + b[..k] + b[k..];
    SpnExact(a + b[..k], b[k..], p);
  }

  lemma CutAtEol(a: string, v: string)
    requires All(a, NotEol)
    ensures
      var l := a + v + "\n";
      l[..Spn(l, NotEol)] == a + v[..Spn(v, NotEol)]
  {
    var n := Spn(v, NotEol);
    SpnSpec(v, NotEol);
    assert v == v[..n] + v[n..];
    assert a + v + "\n" == (a + v[..n]) + (v[n..] + "\n");
    SpnExact(a + v[..n], v[n..] + "\n", NotEol);
  }

  lemma PrintLineShape(tag: string, v: string)
    ensures PrintLine(tag, v) == (tag + Gap(tag, 32, 3)) + v + "\n"
  {
    assert Spaces(3) == "   ";
  }

  lemma ParseKeyed(line: string, tag: string, rest: string)
    requires ValidTag(tag)
    requires rest == "" || !KeyChar(rest[0])
    requires line[..Spn(line, NotEol)] == tag + rest
    ensures
      var value := Skip(rest, IsSeparator);
      ParseLine(line) == if value == "" then None else Some((tag, TrimRight(value)))
  {
    var p := tag + rest;
    assert KeyChar(tag[0]);
    SpnExact("", p, IsBlank);
    assert "" + p == p;
    SpnExact(tag, rest, KeyChar);
    assert p[..|tag|] == tag && p[|tag|..] == rest;
    assert DotsToUnderscores(tag) == tag;
  }

  /** The value left once the end of line and the separators in front are gone. */
  function Survivor(v: string): Option<string> {
    var value := Skip(v[..Spn(v, NotEol)], IsSeparator);
    if value == "" then None else Some(TrimRight(value))
  }

  /** What a line carries of a value; nothing is the empty text. */
  function Carried(v: string): string {
    match Survivor(v) case None => "" case Some(w) => w
  }

  lemma CarriedIs(v: string)
    ensures Survivor(v) == if Carried(v) == "" then None else Some(Carried(v))
    ensures Clean(v) ==> Carried(v) == v
  {
    TrimRightFixed(Skip(v[..Spn(v, NotEol)], IsSeparator));
    SurvivorIff(v);
  }

  lemma SurvivorOfClean(v: string)
    requires v != "" && All(v, NotEol) && !IsSeparator(v[0])
    ensures Survivor(v) == Some(TrimRight(v))
    ensures TrimRight(v) == v <==> !IsBlank(v[|v| - 1])
  {
    SpnExact(v, "", NotEol);
    assert v + "" == v && v[..|v|] == v;
    SpnExact("", v, IsSeparator);
    assert "" + v == v;
    TrimRightFixed(v);
  }

  lemma SurvivorIff(v: string)
    ensures Clean(v) <==> Survivor(v) == if v == "" then None else Some(v)
  {
    var n := Spn(v, NotEol);
    SpnSpec(v, NotEol);
    if v == "" {
    } else if n < |v| {
      assert v[n] in v;
      assert |Skip(v[..n], IsSeparator)| < |v|;
    } else {
      assert v[..n] == v;
      if IsSeparator(v[0]) {
        assert |Skip(v, IsSeparator)| < |v|;
      } else {
        SurvivorOfClean(v);
      }
    }
  }

  /** What the parser makes of a printed line, whatever the value. */
  lemma ParsePrinted(tag: string, v: string)
    requires ValidTag(tag)
    ensures ParseLine(PrintLine(tag, v)) ==
            match Survivor(v) case None => None case Some(w) => Some((tag, w))
  {
    var gap, cut := Gap(tag, 32, 3), v[..Spn(v, NotEol)];
    PrintLineShape(tag, v);
    assert All(tag + gap, NotEol);
    CutAtEol(tag + gap, v);
    assert (tag + gap) + cut == tag + (gap + cut);
    ParseKeyed(PrintLine(tag, v), tag, gap + cut);
    SkipThrough(gap, cut, IsSeparator);
  }

  /** A value survives being printed and parsed if and only if it is clean. */
  lemma ParsePrintIff(tag: string, v: string)
    requires ValidTag(tag)
    ensures Clean(v) <==> ParseLine(PrintLine(tag, v)) == if v == "" then None else Some((tag, v))
  {
    ParsePrinted(tag, v);
    SurvivorIff(v);
  }

  // ----- the parameter table -------------------------------------------------

  predicate FitsInt(kind: Kind, v: string) {
    kind == Int ==> |v| < STRVAL_SIZE
  }

  predicate ValidOptions(opt: seq<string>) {
    forall j :: 0 <= j < |opt| ==> opt[j] != "" && |opt[j]| < ENUM_LEN - 1
  }

  predicate ValidVar(d: VarDef) {
    d.id > 0 && d.kind != NoKind && ValidTag(d.tag) && FitsInt(d.kind, d.cfnull) &&
    (d.kind == Str ==> d.len >= 2) && (d.kind == Enum ==> ValidOptions(d.opt))
  }

  predicate FitsVars(vars: seq<VarDef>, asg: (int, string)) {
    forall k :: 0 <= k < |vars| && vars[k].id == asg.0 ==> FitsInt(vars[k].kind, asg.1)
  }

  predicate DistinctIds(vars: seq<VarDef>) {
    forall j, k :: 0 <= j < k < |vars| ==> vars[j].id != vars[k].id
  }

  /** Options with distinct ids and tags, and integer defaults that fit. */
  predicate ValidSchema(s: Schema) {
    |s.vars| <= DIM_CF &&
    (forall k :: 0 <= k < |s.vars| ==> ValidVar(s.vars[k])) &&
    DistinctIds(s.vars) &&
    (forall j, k :: 0 <= j < k < |s.vars| ==> !EqNoCase(s.vars[j].tag, s.vars[k].tag)) &&
    (forall a :: 0 <= a < |s.defaults| ==> FitsVars(s.vars, s.defaults[a]))
  }

  // ----- the table after initialisation --------------------------------------

  lemma AddIdAt(c: Conv, cf: seq<Rec>, d: VarDef, n: nat)
    requires n < |cf| && d.kind != NoKind && d.id > 0
    requires forall i :: 0 <= i < n ==> cf[i].id != CF_NONE && cf[i].id != d.id
    requires cf[n].id == CF_NONE
    ensures AddId(c, cf, d) == cf[n := InitRec(c, d)]
  {
    assert Slot(cf, d.id) == n;
    var placed := cf[n := FreshRec(d)];
    assert placed[n].id == d.id && forall i :: 0 <= i < n ==> placed[i].id != d.id;
  }

  /** The record of an option once `cf_add_id_*` has given it its null value. */
  function InitRec(c: Conv, d: VarDef): (r: Rec)
    ensures SameShapeRec(r, FreshRec(d))
  {
    SetRec(c, FreshRec(d), d.cfnull)
  }

  /** `add` puts option k, as `recs[k]`, in slot k when the slots before it are
      taken by the options before it and slot k is free. */
  ghost predicate PlacesInOrder(add: (seq<Rec>, VarDef) -> seq<Rec>, vars: seq<VarDef>, recs: seq<Rec>)
    requires |recs| == |vars|
  {
    forall cf: seq<Rec>, k: nat {:trigger add(cf, vars[k])} ::
      k < |vars| && FilledTo(cf, vars, k) ==> add(cf, vars[k]) == cf[k := recs[k]]
  }

  predicate FilledTo(cf: seq<Rec>, vars: seq<VarDef>, k: nat)
    requires k < |vars|
  {
    |cf| == DIM_CF && k < DIM_CF && cf[k].id == CF_NONE && forall i :: 0 <= i < k ==> cf[i].id == vars[i].id
  }

  lemma {:induction false} FoldPlaces(add: (seq<Rec>, VarDef) -> seq<Rec>, vars: seq<VarDef>, recs: seq<Rec>, n: nat)
    requires |recs| == |vars| <= DIM_CF && n <= |vars|
    requires PlacesInOrder(add, vars, recs)
    requires forall k :: 0 <= k < |vars| ==> recs[k].id == vars[k].id
    ensures
      var cf := Fold(add, EmptyTable(), vars[..n]);
      |cf| == DIM_CF &&
      (forall i :: 0 <= i < n ==> cf[i] == recs[i]) && (forall i :: n <= i < DIM_CF ==> cf[i] == EmptyRec)
  {
    if n > 0 {
      FoldPlaces(add, vars, recs, n - 1);
      assert vars[..n] == vars[..n - 1] + [vars[n - 1]];
      FoldSnoc(add, EmptyTable(), vars[..n - 1], vars[n - 1]);
    }
  }

  function InitRecs(s: Schema): (recs: seq<Rec>)
    ensures |recs| == |s.vars|
    ensures forall k {:trigger recs[k]} :: 0 <= k < |recs| ==> recs[k] == InitRec(s.conv, s.vars[k])
  {
    seq(|s.vars|, k requires 0 <= k < |s.vars| => InitRec(s.conv, s.vars[k]))
  }

  lemma AdderPlaces(s: Schema)
    requires ValidSchema(s)
    ensures PlacesInOrder(Adder(s.conv), s.vars, InitRecs(s))
  {
    forall cf: seq<Rec>, k: nat | k < |s.vars| && FilledTo(cf, s.vars, k)
      ensures Adder(s.conv)(cf, s.vars[k]) == cf[k := InitRecs(s)[k]]
    {
      assert ValidVar(s.vars[k]);
      forall i | 0 <= i < k
        ensures cf[i].id != CF_NONE && cf[i].id != s.vars[k].id
      {
        assert ValidVar(s.vars[i]);
      }
      AddIdAt(s.conv, cf, s.vars[k], k);
    }
  }

  function Fresh(s: Schema): seq<Rec> {
    SetAll(s.conv, Init(s), s.defaults)
  }

  /** Slot i of the table is option i; the other slots are free. */
  predicate Aligned(s: Schema, cf: seq<Rec>) {
    |cf| == DIM_CF && |s.vars| <= DIM_CF &&
    (forall i :: 0 <= i < |s.vars| ==> SameShapeRec(cf[i], FreshRec(s.vars[i]))) &&
    (forall i :: |s.vars| <= i < DIM_CF ==> SameShapeRec(cf[i], EmptyRec))
  }

  lemma InitAligned(s: Schema)
    requires ValidSchema(s)
    ensures |Init(s)| == DIM_CF && Aligned(s, Init(s))
    ensures forall i :: 0 <= i < |s.vars| ==> Init(s)[i] == InitRecs(s)[i]
  {
    var recs := InitRecs(s);
    AdderPlaces(s);
    assert forall k :: 0 <= k < |recs| ==> SameShapeRec(recs[k], FreshRec(s.vars[k]));
    FoldPlaces(Adder(s.conv), s.vars, recs, |s.vars|);
    assert s.vars[..|s.vars|] == s.vars;
  }

  lemma AlignedNames(s: Schema, cf: seq<Rec>)
    requires ValidSchema(s) && Aligned(s, cf)
    ensures forall j :: 0 <= j < |s.vars| ==> cf[j].id == s.vars[j].id && cf[j].name == s.vars[j].tag
  {
    forall j | 0 <= j < |s.vars|
      ensures cf[j].id == s.vars[j].id && cf[j].name == s.vars[j].tag
    {
      assert SameShapeRec(cf[j], FreshRec(s.vars[j])) && ValidVar(s.vars[j]);
    }
  }

  lemma AlignedTag(s: Schema, cf: seq<Rec>, i: nat)
    requires ValidSchema(s) && Aligned(s, cf) && i < |s.vars|
    ensures GetId(cf, s.vars[i].tag) == s.vars[i].id
  {
    AlignedNames(s, cf);
    assert forall j :: 0 <= j < i ==> !EqNoCase(s.vars[i].tag, cf[j].name);
  }

  lemma AlignedSearches(s: Schema, cf: seq<Rec>, i: nat)
    requires ValidSchema(s) && Aligned(s, cf) && i < |s.vars|
    ensures IndexById(cf, s.vars[i].id) == i
    ensures GetId(cf, s.vars[i].tag) == s.vars[i].id
    ensures GetStr(cf, s.vars[i].id) == GetStrRec(cf[i]) && GetInt(cf, s.vars[i].id) == cf[i].iv
  {
    AlignedTag(s, cf, i);
    AlignedNames(s, cf);
    assert ValidVar(s.vars[i]);
    assert forall j :: 0 <= j < i ==> cf[j].id != s.vars[i].id;
  }

  // ----- what every reachable record satisfies -------------------------------

  function Visible(r: Rec): string {
    match GetStrRec(r) case None => "" case Some(v) => v
  }

  predicate RecOk(c: Conv, r: Rec) {
    match r.kind
    case Str => r.iv == 0 && |r.sv| < r.slen
    case Int => |r.strval| < STRVAL_SIZE && r.iv == if r.strval == "" then 0 else c.toLong(r.strval)
    case Enum => ValidOptions(r.opt) && r.slen == ENUM_LEN &&
                 if r.sv == "" then r.iv == 0
                 else 0 <= r.iv < |r.opt| && |r.sv| < ENUM_LEN && EnumIndex(Visible(r), r.opt) == r.iv
    case _ => true
  }

  lemma EnumIndexCut(v: string, opt: seq<string>)
    requires ValidOptions(opt) && EnumIndex(v, opt) >= 0
    ensures
      var i := EnumIndex(v, opt);
      EnumIndex(if EqNoCase(opt[i], OTHER) then StrLCpy(v, ENUM_LEN) else opt[i], opt) == i
  {
    var i := EnumIndex(v, opt);
    var w := if EqNoCase(opt[i], OTHER) then StrLCpy(v, ENUM_LEN) else opt[i];
    forall j | 0 <= j < i
      ensures !EqNoCase(opt[j], w)
    {
      if EqNoCase(opt[i], OTHER) && |v| >= ENUM_LEN {
        assert |Lower(opt[j])| < |Lower(w)|;
      }
    }
  }

  lemma SetRecOk(c: Conv, r: Rec, v: string)
    requires RecOk(c, r) && FitsInt(r.kind, v)
    requires r.kind == Str ==> r.slen >= 2
    ensures RecOk(c, SetRec(c, r, v)) && SameShapeRec(r, SetRec(c, r, v))
    ensures Visible(r) != "" ==> Visible(SetRec(c, r, v)) != ""
    ensures v != "" && Accepts(r, v) ==> Visible(SetRec(c, r, v)) != "" || r.kind == Double
  {
    if r.kind == Enum && EnumIndex(v, r.opt) >= 0 { EnumIndexCut(v, r.opt); }
  }

  lemma AppendRecOk(c: Conv, r: Rec, v: string)
    requires RecOk(c, r)
    requires r.kind == Str ==> r.slen >= 2
    ensures RecOk(c, AppendRec(r, v)) && SameShapeRec(r, AppendRec(r, v))
    ensures Visible(r) != "" ==> Visible(AppendRec(r, v)) != ""
  {
  }

  /** A record that shows v is rebuilt by assigning v to the fresh one; one that
      shows nothing already equals it. */
  lemma RecRestored(c: Conv, r: Rec, f: Rec)
    requires RecOk(c, r) && RecOk(c, f) && SameShapeRec(r, f)
    requires r.kind == Str || r.kind == Int || r.kind == Enum
    requires Visible(f) != "" ==> Visible(r) != ""
    ensures GetStrRec(SetRec(c, f, Visible(r))) == GetStrRec(r)
    ensures SetRec(c, f, Visible(r)).iv == r.iv
  {
    var v := Visible(r);
    if r.kind == Enum && v != "" && r.sv == "" {
      assert !EqNoCase(r.opt[0], OTHER) && EnumIndex(v, r.opt) == 0;
    }
  }

  // ----- reachable tables ----------------------------------------------------

  datatype Op = Set(id: int, value: string) | Append(id: int, value: string)

  function Apply(c: Conv, cf: seq<Rec>, op: Op): (r: seq<Rec>)
    ensures |r| == |cf|
  {
    match op
    case Set(id, v) => SetVal(c, cf, id, v)
    case Append(id, v) => AppendStrVal(cf, id, v)
  }

  function Applier(c: Conv): (seq<Rec>, Op) -> seq<Rec> {
    (cf: seq<Rec>, op: Op) => Apply(c, cf, op)
  }

  function Run(c: Conv, cf: seq<Rec>, ops: seq<Op>): seq<Rec> {
    Fold(Applier(c), cf, ops)
  }

  /** An assignment or append to an option, of a text that fits its kind. */
  predicate Fits(s: Schema, op: Op) {
    op.id > 0 && (op.Set? ==> FitsVars(s.vars, (op.id, op.value)))
  }

  predicate TableOk(s: Schema, cf: seq<Rec>) {
    Aligned(s, cf) && forall i :: 0 <= i < |s.vars| ==> RecOk(s.conv, cf[i])
  }

  predicate ShowsMore(s: Schema, f: seq<Rec>, cf: seq<Rec>)
    requires |s.vars| <= |f| && |s.vars| <= |cf|
  {
    forall i :: 0 <= i < |s.vars| ==> (Visible(f[i]) != "" ==> Visible(cf[i]) != "")
  }

  lemma ApplyOk(s: Schema, cf: seq<Rec>, op: Op)
    requires ValidSchema(s) && TableOk(s, cf) && Fits(s, op)
    ensures TableOk(s, Apply(s.conv, cf, op)) && ShowsMore(s, cf, Apply(s.conv, cf, op))
  {
    var i := IndexById(cf, op.id);
    if i < |cf| {
      assert i >= |s.vars| ==> SameShapeRec(cf[i], EmptyRec);
      assert SameShapeRec(cf[i], FreshRec(s.vars[i])) && ValidVar(s.vars[i]);
      match op
      case Set(id, v) =>
        SetRecOk(s.conv, cf[i], v);
      case Append(id, v) => AppendRecOk(s.conv, cf[i], v);
    }
  }

  lemma ShowsMoreTrans(s: Schema, a: seq<Rec>, b: seq<Rec>, c: seq<Rec>)
    requires |s.vars| <= |a| && |s.vars| <= |b| && |s.vars| <= |c|
    requires ShowsMore(s, a, b) && ShowsMore(s, b, c)
    ensures ShowsMore(s, a, c)
  {
  }

  lemma RunOk(s: Schema, cf: seq<Rec>, ops: seq<Op>)
    requires ValidSchema(s) && TableOk(s, cf)
    requires forall op :: op in ops ==> Fits(s, op)
    ensures TableOk(s, Run(s.conv, cf, ops)) && ShowsMore(s, cf, Run(s.conv, cf, ops))
  {
    var inv := (b: seq<Rec>) => TableOk(s, b) && ShowsMore(s, cf, b);
    forall b: seq<Rec>, op: Op | inv(b) && Fits(s, op)
      ensures inv(Applier(s.conv)(b, op))
    {
      ApplyOk(s, b, op);
      ShowsMoreTrans(s, cf, b, Apply(s.conv, b, op));
    }
    FoldKeeps(Applier(s.conv), cf, ops, inv, op => Fits(s, op));
  }

  lemma {:induction false} SetAllOk(s: Schema, cf: seq<Rec>, asg: seq<(int, string)>)
    requires ValidSchema(s) && TableOk(s, cf)
    requires forall a :: 0 <= a < |asg| ==> asg[a].0 > 0 && FitsVars(s.vars, asg[a])
    ensures TableOk(s, SetAll(s.conv, cf, asg))
    decreases |asg|
  {
    if asg != [] {
      var op := Set(asg[0].0, asg[0].1);
      assert asg[0].0 > 0 && FitsVars(s.vars, asg[0]);
      ApplyOk(s, cf, op);
      SetAllOk(s, Apply(s.conv, cf, op), asg[1..]);
    }
  }

  lemma FreshOk(s: Schema)
    requires ValidSchema(s)
    requires forall a :: 0 <= a < |s.defaults| ==> s.defaults[a].0 > 0
    ensures TableOk(s, Fresh(s))
  {
    InitAligned(s);
    forall i | 0 <= i < |s.vars|
      ensures RecOk(s.conv, Init(s)[i])
    {
      assert ValidVar(s.vars[i]) && Init(s)[i] == InitRecs(s)[i];
      SetRecOk(s.conv, FreshRec(s.vars[i]), s.vars[i].cfnull);
    }
    SetAllOk(s, Init(s), s.defaults);
  }

  // ----- the whole file ------------------------------------------------------

  predicate Comments(lines: seq<string>) {
    forall k :: 0 <= k < |lines| ==> lines[k] != "" && (lines[k][0] == '#' || lines[k] == "\n")
  }

  lemma CommentParsesToNothing(l: string)
    requires Comments([l])
    ensures ParseLine(l) == None
  {
    assert [l][0] == l;
    if l[0] == '#' {
      var p := l[..Spn(l, NotEol)];
      assert p != "" && p[0] == '#';
      assert Spn(p, IsBlank) == 0;
      assert Skip(p, IsBlank) == p;
    }
  }

  /** A reader of lines, by the assignments it takes from each. */
  type Reader = string -> seq<(int, string)>

  ghost predicate SkipsComments(g: Reader) {
    forall l :: Comments([l]) ==> g(l) == []
  }

  lemma {:induction false} ReaderReads(f: seq<Rec>, g: Reader, lines: seq<string>)
    requires forall l :: g(l) == LineAssign(f, l)
    ensures LineAssigns(f, lines) == FlatMap(g, lines)
  {
    if lines != [] { ReaderReads(f, g, lines[1..]); }
  }

  lemma {:induction false} CommentsAssignNothing(g: Reader, lines: seq<string>)
    requires SkipsComments(g) && Comments(lines)
    ensures FlatMap(g, lines) == []
  {
    if lines != [] {
      assert Comments([lines[0]]);
      CommentsAssignNothing(g, lines[1..]);
    }
  }

  function Assignment(id: int, v: string): seq<(int, string)> {
    if v == "" then [] else [(id, v)]
  }

  /** The reader takes back what the line printed for each option carries. */
  ghost predicate ReadsShown(g: Reader, s: Schema, cf: seq<Rec>) {
    forall d :: d in s.vars ==> g(PrintLine(d.tag, Shown(s, cf, d))) == Assignment(d.id, Carried(Shown(s, cf, d)))
  }

  lemma HeaderIsComments(banner: string, date: string)
    ensures Comments(Header(banner, date))
  {
    var lines := Header(banner, date);
    assert forall text :: Comment(text)[0] == '#';
    assert lines[0] == lines[4] == "#\n";
  }

  lemma ChunksAreComments(d: VarDef)
    ensures Comments(SectionChunks(d.section)) && Comments(DescChunks(d))
  {
  }

  lemma OnlyLineAssigns(g: Reader, head: seq<string>, desc: seq<string>, line: string, tail: seq<string>)
    requires SkipsComments(g) && Comments(head) && Comments(desc) && Comments(tail)
    ensures FlatMap(g, head + desc + [line] + tail) == g(line)
  {
    FlatMapAppend(g, head + desc + [line], tail);
    FlatMapAppend(g, head + desc, [line]);
    FlatMapAppend(g, head, desc);
    CommentsAssignNothing(g, head);
    CommentsAssignNothing(g, desc);
    CommentsAssignNothing(g, tail);
    assert FlatMap(g, [line]) == g(line) + FlatMap(g, [line][1..]);
  }

  lemma VarAssigns(g: Reader, s: Schema, cf: seq<Rec>, d: VarDef, section: string, verbose: bool)
    requires SkipsComments(g) && ReadsShown(g, s, cf) && d in s.vars
    ensures FlatMap(g, VarChunks(s, cf, d, section, verbose)) == Assignment(d.id, Carried(Shown(s, cf, d)))
  {
    var head := if verbose && !EqNoCase(section, d.section) then SectionChunks(d.section) else [];
    var desc := if verbose then DescChunks(d) else [];
    var tail := if verbose then ["\n"] else [];
    ChunksAreComments(d);
    OnlyLineAssigns(g, head, desc, PrintLine(d.tag, Shown(s, cf, d)), tail);
  }

  /** The assignment option k's line makes. */
  function ShownAssign(s: Schema, cf: seq<Rec>, k: nat): seq<(int, string)> {
    if k < |s.vars| then Assignment(s.vars[k].id, Carried(Shown(s, cf, s.vars[k]))) else []
  }

  function ShownAssigner(s: Schema, cf: seq<Rec>): nat -> seq<(int, string)> {
    (k: nat) => ShownAssign(s, cf, k)
  }

  /** The assignments reading the RUNNING file should make. */
  function ShownAssigns(s: Schema, cf: seq<Rec>): seq<(int, string)> {
    Pieces(ShownAssigner(s, cf), |s.vars|)
  }

  function ChunksAt(s: Schema, cf: seq<Rec>, verbose: bool, k: nat): seq<string> {
    if k < |s.vars| then VarChunks(s, cf, s.vars[k], SectionAt(s.vars, k), verbose) else []
  }

  lemma {:induction false} BodyIsPieces(s: Schema, cf: seq<Rec>, verbose: bool, h: nat -> seq<string>, n: nat)
    requires n <= |s.vars|
    requires forall k: nat :: h(k) == ChunksAt(s, cf, verbose, k)
    ensures BodyChunks(s, cf, verbose, n) == Pieces(h, n)
  {
    if n > 0 { BodyIsPieces(s, cf, verbose, h, n - 1); }
  }

  lemma AssignedValue(key: int, v: string, id: int)
    ensures ValuesFor(Assignment(key, v), id) == if key == id && v != "" then [v] else []
  {
    assert [(key, v)][1..] == [];
    assert FlatMap(PickFor(id), [(key, v)]) == PickFor(id)((key, v)) + FlatMap(PickFor(id), []);
  }

  /** Among the assignments of distinct options, an option finds its own. */
  lemma BodyValues(vars: seq<VarDef>, v: nat -> string, a: nat -> seq<(int, string)>, i: nat)
    requires DistinctIds(vars) && i < |vars|
    requires forall k: nat :: k < |vars| ==> a(k) == Assignment(vars[k].id, v(k))
    ensures ValuesFor(Pieces(a, |vars|), vars[i].id) == if v(i) != "" then [v(i)] else []
  {
    var id := vars[i].id;
    var b := (k: nat) => if k == i && v(i) != "" then [v(i)] else [];
    forall k: nat | k < |vars|
      ensures FlatMap(PickFor(id), a(k)) == b(k)
    {
      AssignedValue(vars[k].id, v(k), id);
    }
    FlatMapPieces(PickFor(id), a, b, |vars|);
    PiecesOne(b, |vars|, i);
  }

  /** Reading the line printed for an option assigns what the line carries. */
  lemma LineCarries(s: Schema, f: seq<Rec>, k: nat, v: string)
    requires ValidSchema(s) && Aligned(s, f) && k < |s.vars|
    ensures LineAssign(f, PrintLine(s.vars[k].tag, v)) == Assignment(s.vars[k].id, Carried(v))
  {
    assert ValidVar(s.vars[k]);
    ParsePrinted(s.vars[k].tag, v);
    CarriedIs(v);
    AlignedSearches(s, f, k);
  }

  lemma LineReader(s: Schema, f: seq<Rec>, cf: seq<Rec>, lines: seq<string>) returns (g: Reader)
    requires ValidSchema(s) && Aligned(s, f)
    ensures FlatMap(g, lines) == LineAssigns(f, lines)
    ensures SkipsComments(g) && ReadsShown(g, s, cf)
  {
    g := l => LineAssign(f, l);
    ReaderReads(f, g, lines);
    forall l | Comments([l]) ensures g(l) == [] { CommentParsesToNothing(l); }
    forall d | d in s.vars
      ensures g(PrintLine(d.tag, Shown(s, cf, d))) == Assignment(d.id, Carried(Shown(s, cf, d)))
    {
      var k :| 0 <= k < |s.vars| && s.vars[k] == d;
      LineCarries(s, f, k, Shown(s, cf, d));
    }
  }

  /** Reading the lines of the RUNNING file assigns to every option exactly what
      its own line carries of the value it shows. */
  lemma RunningFileReads(s: Schema, f: seq<Rec>, cf: seq<Rec>, date: string, verbose: bool)
    requires ValidSchema(s) && Aligned(s, f)
    ensures LineAssigns(f, RunningFile(s, cf, date, verbose)) == ShownAssigns(s, cf)
  {
    var g := LineReader(s, f, cf, RunningFile(s, cf, date, verbose));
    FileReadsBack(g, s, cf, date, verbose);
  }

  lemma FileReadsBack(g: Reader, s: Schema, cf: seq<Rec>, date: string, verbose: bool)
    requires SkipsComments(g) && ReadsShown(g, s, cf)
    ensures FlatMap(g, RunningFile(s, cf, date, verbose)) == ShownAssigns(s, cf)
  {
    FlatMapAppend(g, Header(s.banner, date), BodyChunks(s, cf, verbose, |s.vars|));
    HeaderIsComments(s.banner, date);
    CommentsAssignNothing(g, Header(s.banner, date));
    BodyReadsBack(g, s, cf, verbose);
  }

  lemma BodyReadsBack(g: Reader, s: Schema, cf: seq<Rec>, verbose: bool)
    requires SkipsComments(g) && ReadsShown(g, s, cf)
    ensures FlatMap(g, BodyChunks(s, cf, verbose, |s.vars|)) == ShownAssigns(s, cf)
  {
    var h := (k: nat) => ChunksAt(s, cf, verbose, k);
    var a := ShownAssigner(s, cf);
    BodyIsPieces(s, cf, verbose, h, |s.vars|);
    forall k: nat | k < |s.vars|
      ensures FlatMap(g, h(k)) == a(k)
    {
      VarAssigns(g, s, cf, s.vars[k], SectionAt(s.vars, k), verbose);
    }
    FlatMapPieces(g, h, a, |s.vars|);
  }

  lemma ShownRestored(s: Schema, f: seq<Rec>, cf: seq<Rec>, i: nat)
    requires ValidSchema(s) && Aligned(s, f) && i < |s.vars|
    ensures SetAll(s.conv, f, ShownAssigns(s, cf))[i] ==
            SetRec(s.conv, f[i], Carried(Shown(s, cf, s.vars[i])))
  {
    var shown, asg := Carried(Shown(s, cf, s.vars[i])), ShownAssigns(s, cf);
    var v := (k: nat) => if k < |s.vars| then Carried(Shown(s, cf, s.vars[k])) else "";
    BodyValues(s.vars, v, ShownAssigner(s, cf), i);
    AlignedSearches(s, f, i);
    assert f[i].id == s.vars[i].id;
    SetAllAt(s.conv, f, asg, i);
    ApplyOne(s.conv, f[i], shown);
  }

  lemma ApplyOne(c: Conv, r: Rec, v: string)
    ensures ApplyVals(c, r, if v != "" then [v] else []) == SetRec(c, r, v)
  {
    assert [v][1..] == [];
    assert v != "" ==> ApplyVals(c, r, [v]) == ApplyVals(c, SetRec(c, r, v), []);
  }

  /** From any table reached by assignments and appends, writing the RUNNING
      file and reading it into a freshly initialised and defaulted table
      restores every string, integer and enumeration but the version. */
  lemma RoundTrip(s: Schema, ops: seq<Op>, date: string, verbose: bool, i: nat)
    requires ValidSchema(s)
    requires forall a :: 0 <= a < |s.defaults| ==> s.defaults[a].0 > 0
    requires forall op :: op in ops ==> Fits(s, op)
    requires var cf := Run(s.conv, Fresh(s), ops);
             WholeLines(RunningFile(s, cf, date, verbose), CONF_LINE_SIZE) &&
             i < |s.vars| && Clean(Shown(s, cf, s.vars[i]))
    requires s.vars[i].id != s.versionId && s.vars[i].kind != Double
    ensures
      var cf := Run(s.conv, Fresh(s), ops);
      var back := ReadText(s.conv, Fresh(s), Concat(RunningFile(s, cf, date, verbose)));
      GetStr(back, s.vars[i].id) == GetStr(cf, s.vars[i].id) &&
      GetInt(back, s.vars[i].id) == GetInt(cf, s.vars[i].id)
  {
    var f := Fresh(s);
    var cf := Run(s.conv, f, ops);
    var lines := RunningFile(s, cf, date, verbose);
    FreshOk(s);
    RunOk(s, f, ops);
    LinesOfConcat(lines, CONF_LINE_SIZE);
    RunningFileReads(s, f, cf, date, verbose);
    ReadIsAssigns(s.conv, f, lines);
    TableRestored(s, f, cf, i);
  }

  lemma TableRestored(s: Schema, f: seq<Rec>, cf: seq<Rec>, i: nat)
    requires ValidSchema(s) && TableOk(s, f) && TableOk(s, cf) && ShowsMore(s, f, cf)
    requires i < |s.vars| && s.vars[i].id != s.versionId && s.vars[i].kind != Double
    requires Clean(Shown(s, cf, s.vars[i]))
    ensures
      var back := SetAll(s.conv, f, ShownAssigns(s, cf));
      GetStr(back, s.vars[i].id) == GetStr(cf, s.vars[i].id) &&
      GetInt(back, s.vars[i].id) == GetInt(cf, s.vars[i].id)
  {
    var back := SetAll(s.conv, f, ShownAssigns(s, cf));
    SetAllAligned(s, f, ShownAssigns(s, cf));
    AlignedSearches(s, cf, i);
    AlignedSearches(s, back, i);
    SlotIs(s, f, cf, i);
  }

  lemma SetAllAligned(s: Schema, f: seq<Rec>, asg: seq<(int, string)>)
    requires Aligned(s, f)
    ensures Aligned(s, SetAll(s.conv, f, asg))
  {
    SetAllKeepsShape(s.conv, f, asg);
    SameShapeAligned(s, f, SetAll(s.conv, f, asg));
  }

  lemma SameShapeAligned(s: Schema, f: seq<Rec>, g: seq<Rec>)
    requires Aligned(s, f) && SameShape(f, g)
    ensures Aligned(s, g)
  {
    assert forall k :: 0 <= k < DIM_CF ==> SameShapeRec(f[k], g[k]);
  }

  lemma SlotIs(s: Schema, f: seq<Rec>, cf: seq<Rec>, i: nat)
    requires ValidSchema(s) && TableOk(s, f) && TableOk(s, cf) && ShowsMore(s, f, cf)
    requires i < |s.vars| && s.vars[i].id != s.versionId && s.vars[i].kind != Double
    requires Clean(Shown(s, cf, s.vars[i]))
    ensures
      var r := SetAll(s.conv, f, ShownAssigns(s, cf))[i];
      GetStrRec(r) == GetStrRec(cf[i]) && r.iv == cf[i].iv
  {
    ShownRestored(s, f, cf, i);
    CarriedIs(Shown(s, cf, s.vars[i]));
    SlotRestored(s, f, cf, i);
  }

  lemma SlotRestored(s: Schema, f: seq<Rec>, cf: seq<Rec>, i: nat)
    requires ValidSchema(s) && TableOk(s, f) && TableOk(s, cf) && ShowsMore(s, f, cf)
    requires i < |s.vars| && s.vars[i].id != s.versionId && s.vars[i].kind != Double
    ensures
      var r := SetRec(s.conv, f[i], Shown(s, cf, s.vars[i]));
      GetStrRec(r) == GetStrRec(cf[i]) && r.iv == cf[i].iv
  {
    var d := s.vars[i];
    AlignedSearches(s, cf, i);
    assert ValidVar(d) && SameShapeRec(cf[i], FreshRec(d)) && SameShapeRec(f[i], FreshRec(d));
    RecRestored(s.conv, cf[i], f[i]);
  }
}
