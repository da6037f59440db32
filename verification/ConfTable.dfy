/** The configuration table of libjoe/j-cf.c: typed options in a fixed array,
    updated in place by text values. The functions give the value of every
    operation on the array's contents; class Table runs the loops. */
module ConfTable {
  import opened CText
  import opened Perm

  const DIM_CF := 256
  const CF_NONE := 0
  const STRVAL_SIZE := 64
  const NAME_SIZE := 64
  const ENUM_LEN := 128
  const OTHER := "OTHER"

  datatype Kind = NoKind | Str | Enum | Int | Double

  datatype Rec = Rec(
    id: int, name: string, kind: Kind, slen: nat,
    iv: int, dv: int, sv: string, opt: seq<string>, strval: string)

  /** The text conversions the table relies on: `str2long`, and `str2double`
      as it arrives through a `long`. */
  datatype Conv = Conv(toLong: string -> int, toDouble: string -> int)

  /** One row of `cfvar`. */
  datatype VarDef = VarDef(
    id: int, kind: Kind, opt: seq<string>, len: nat,
    tag: string, cfnull: string, section: string, desc: string, syntax: string)

  /** The parameter tables of cfc-defs.h: `cfvar`, the assignments of
      `cf_defaults`, the version option with the text printed for it, and the
      banner of the files printed. */
  datatype Schema = Schema(
    vars: seq<VarDef>, defaults: seq<(int, string)>,
    versionId: int, version: string, banner: string, conv: Conv)

  const EmptyRec := Rec(CF_NONE, "", NoKind, 0, 0, 0, "", [], "")

  function EmptyTable(): (cf: seq<Rec>)
    ensures |cf| == DIM_CF && forall i :: 0 <= i < DIM_CF ==> cf[i] == EmptyRec
  {
    seq(DIM_CF, i => EmptyRec)
  }

  // ----- searches ------------------------------------------------------------

  function IndexById(cf: seq<Rec>, id: int): (i: nat)
    ensures i <= |cf|
    ensures i < |cf| ==> cf[i].id == id
    ensures forall j :: 0 <= j < i ==> cf[j].id != id
  {
    if cf == [] || cf[0].id == id then 0 else 1 + IndexById(cf[1..], id)
  }

  function IndexByName(cf: seq<Rec>, tag: string): (i: nat)
    ensures i <= |cf|
    ensures i < |cf| ==> EqNoCase(tag, cf[i].name)
    ensures forall j :: 0 <= j < i ==> !EqNoCase(tag, cf[j].name)
  {
    if cf == [] || EqNoCase(tag, cf[0].name) then 0 else 1 + IndexByName(cf[1..], tag)
  }

  /** `cf_get_id`. */
  function GetId(cf: seq<Rec>, tag: string): int {
    var i := IndexByName(cf, tag);
    if i < |cf| then cf[i].id else CF_NONE
  }

  /** `get_enum_index`: the first option that is the value or the catch-all. */
  function EnumIndex(val: string, opt: seq<string>): (i: int)
    ensures -1 <= i < |opt|
    ensures i >= 0 ==> EqNoCase(opt[i], val) || EqNoCase(opt[i], OTHER)
    ensures forall j :: 0 <= j < (if i < 0 then |opt| else i) ==>
      !EqNoCase(opt[j], val) && !EqNoCase(opt[j], OTHER)
  {
    if opt == [] then -1
    else if EqNoCase(opt[0], val) || EqNoCase(opt[0], OTHER) then 0
    else
      var i := EnumIndex(val, opt[1..]);
      if i < 0 then -1 else i + 1
  }

  // ----- one record ----------------------------------------------------------

  predicate Accepts(r: Rec, v: string) {
    v != "" &&
    match r.kind
    case NoKind => false
    case Enum => EnumIndex(v, r.opt) >= 0
    case _ => true
  }

  /** The value fields after an accepted text. */
  function Store(c: Conv, r: Rec, v: string): Rec
    requires Accepts(r, v)
  {
    match r.kind
    case Str => r.(sv := StrLCpy(v, r.slen))
    case Int => r.(iv := c.toLong(v))
    case Double => r.(dv := c.toDouble(v))
    case Enum =>
      var i := EnumIndex(v, r.opt);
      r.(iv := i, sv := StrLCpy(if EqNoCase(r.opt[i], OTHER) then v else r.opt[i], r.slen))
  }

  /** What `cf_set_val` does to the record it finds: the text is kept even when
      an enumeration then refuses it. */
  function SetRec(c: Conv, r: Rec, v: string): Rec {
    var kept := if v == "" then r else r.(strval := StrLCpy(v, STRVAL_SIZE));
    if Accepts(r, v) then Store(c, kept, v) else kept
  }

  /** What an option holds, by kind. */
  datatype Value =
    | Absent
    | Text(s: string)
    | Number(text: string, n: int)
    | Choice(shown: Option<string>, index: int)
    | Real(d: int)

  function Held(r: Rec): Value {
    match r.kind
    case NoKind => Absent
    case Str => Text(r.sv)
    case Int => Number(r.strval, r.iv)
    case Double => Real(r.dv)
    case Enum => Choice(GetStrRec(r), r.iv)
  }

  /** What an accepted text means for an option of a given kind, size and
      option list: no earlier state enters. */
  function Meaning(c: Conv, kind: Kind, slen: nat, opt: seq<string>, v: string): Value {
    match kind
    case NoKind => Absent
    case Str => Text(StrLCpy(v, slen))
    case Int => Number(StrLCpy(v, STRVAL_SIZE), c.toLong(v))
    case Double => Real(c.toDouble(v))
    case Enum =>
      var i := EnumIndex(v, opt);
      if i < 0 then Absent
      else Choice(Some(if EqNoCase(opt[i], OTHER) then StrLCpy(v, slen) else opt[i]), i)
  }

  /** `cf_get_str` on the record found; None is the NULL pointer. */
  function GetStrRec(r: Rec): Option<string> {
    match r.kind
    case Str => Some(r.sv)
    case Int => Some(r.strval)
    case Enum =>
      if 0 <= r.iv < |r.opt| then
        Some(if EqNoCase(r.opt[r.iv], OTHER) then r.sv else r.opt[r.iv])
      else None
    case _ => None
  }

  // ----- the table -----------------------------------------------------------

  function GetStr(cf: seq<Rec>, id: int): Option<string> {
    var i := IndexById(cf, id);
    if id <= 0 || i == |cf| then None else GetStrRec(cf[i])
  }

  function GetInt(cf: seq<Rec>, id: int): int {
    var i := IndexById(cf, id);
    if id <= 0 || i == |cf| then -1 else cf[i].iv
  }

  /** The table after `cf_set_val(id, value)`. */
  function SetVal(c: Conv, cf: seq<Rec>, id: int, value: string): (r: seq<Rec>)
    ensures |r| == |cf|
  {
    var i := IndexById(cf, id);
    if value == "" || i == |cf| then cf else cf[i := SetRec(c, cf[i], value)]
  }

  /** Its result: the id, or CF_NONE when the value was not taken. */
  function SetValResult(cf: seq<Rec>, id: int, value: string): int {
    var i := IndexById(cf, id);
    if i < |cf| && Accepts(cf[i], value) then id else CF_NONE
  }

  /** `cf_append_str_val`. */
  function AppendRec(r: Rec, value: string): Rec {
    if value == "" || r.kind != Str then r
    else if r.sv == "" then r.(sv := StrLCpy(value, r.slen))
    else if |r.sv| + |value| + 1 < r.slen then r.(sv := r.sv + "\n" + value)
    else r
  }

  function AppendStrVal(cf: seq<Rec>, id: int, value: string): (r: seq<Rec>)
    ensures |r| == |cf|
  {
    var i := IndexById(cf, id);
    if i == |cf| then cf else cf[i := AppendRec(cf[i], value)]
  }

  function SetAll(c: Conv, cf: seq<Rec>, asg: seq<(int, string)>): (r: seq<Rec>)
    ensures |r| == |cf|
    decreases |asg|
  {
    if asg == [] then cf else SetAll(c, SetVal(c, cf, asg[0].0, asg[0].1), asg[1..])
  }

  /** The blank record of an option. */
  function FreshRec(d: VarDef): Rec {
    var slen := match d.kind case Enum => ENUM_LEN case Str => d.len case _ => 0;
    Rec(d.id, StrLCpy(d.tag, NAME_SIZE), d.kind, slen, 0, 0, "",
        if d.kind == Enum then d.opt else [], "")
  }

  /** The slot `cf_add_id_*` stops at: the first free one, or the option itself. */
  function Slot(cf: seq<Rec>, id: int): (i: nat)
    ensures i <= |cf|
    ensures i < |cf| ==> cf[i].id == CF_NONE || cf[i].id == id
    ensures forall j :: 0 <= j < i ==> cf[j].id != CF_NONE && cf[j].id != id
  {
    if cf == [] || cf[0].id == CF_NONE || cf[0].id == id then 0 else 1 + Slot(cf[1..], id)
  }

  function AddId(c: Conv, cf: seq<Rec>, d: VarDef): (r: seq<Rec>)
    ensures |r| == |cf|
  {
    var i := Slot(cf, d.id);
    if d.kind == NoKind || i == |cf| || cf[i].id != CF_NONE then cf
    else SetVal(c, cf[i := FreshRec(d)], d.id, d.cfnull)
  }

  function AddIdResult(cf: seq<Rec>, d: VarDef): int {
    var i := Slot(cf, d.id);
    if i == |cf| then -2 else if cf[i].id != CF_NONE then -1 else d.id
  }

  function Adder(c: Conv): (seq<Rec>, VarDef) -> seq<Rec> {
    (cf: seq<Rec>, d: VarDef) => AddId(c, cf, d)
  }

  /** The table after `cf_init`. */
  function Init(s: Schema): seq<Rec> {
    Fold(Adder(s.conv), EmptyTable(), s.vars)
  }

  // ----- the file reader -----------------------------------------------------

  predicate NotEol(c: char) { c != '\n' && c != '\r' }

  /** KEY_CHARS. */
  predicate KeyChar(c: char) {
    'A' <= c <= 'Z' || 'a' <= c <= 'z' || '0' <= c <= '9' || c == '_' || c == '.' || c == '@'
  }

  predicate IsSeparator(c: char) { c == '=' || IsBlank(c) }

  function DotsToUnderscores(key: string): (r: string)
    ensures |r| == |key|
    ensures forall i :: 0 <= i < |key| ==> r[i] == if key[i] == '.' then '_' else key[i]
  {
    seq(|key|, i requires 0 <= i < |key| => if key[i] == '.' then '_' else key[i])
  }

  /** The blanks at the end go, but never the first character. */
  function TrimRight(v: string): (r: string)
    ensures r <= v
  {
    if |v| > 1 && IsBlank(v[|v| - 1]) then TrimRight(v[..|v| - 1]) else v
  }

  const CONF_LINE_SIZE := 512

  /** One buffer of `cf_read_file`: a key and a value, or nothing to do. */
  function ParseLine(line: string): Option<(string, string)> {
    var p := Skip(line[..Spn(line, NotEol)], IsBlank);
    if p == "" || p[0] == '#' then None
    else
      var da := Spn(p, KeyChar);
      var value := Skip(p[da..], IsSeparator);
      if value == "" then None
      else Some((DotsToUnderscores(p[..da]), TrimRight(value)))
  }

  function ReadLine(c: Conv, cf: seq<Rec>, line: string): (r: seq<Rec>)
    ensures |r| == |cf|
  {
    match ParseLine(line)
    case None => cf
    case Some(kv) =>
      var id := GetId(cf, kv.0);
      if id > 0 then SetVal(c, cf, id, kv.1) else cf
  }

  function ReadLines(c: Conv, cf: seq<Rec>, lines: seq<string>): (r: seq<Rec>)
    ensures |r| == |cf|
    decreases |lines|
  {
    if lines == [] then cf else ReadLines(c, ReadLine(c, cf, lines[0]), lines[1..])
  }

  /** The table after `cf_read_file`. */
  function ReadText(c: Conv, cf: seq<Rec>, text: string): (r: seq<Rec>)
    ensures |r| == |cf|
  {
    ReadLines(c, cf, Lines(text, CONF_LINE_SIZE))
  }

  /** The table after `configure`, once initialised: defaults, then the file. */
  function Configured(s: Schema, cf: seq<Rec>, text: string): seq<Rec> {
    ReadText(s.conv, SetAll(s.conv, cf, s.defaults), text)
  }

  // ----- the file printer ----------------------------------------------------

  function PrintLine(tag: string, value: string): string {
    PadRight(tag, 32) + "   " + value + "\n"
  }

  /** `strset(s, '#', 72)`. */
  function Hashes(): (r: string)
    ensures |r| == 72 && forall i :: 0 <= i < |r| ==> r[i] == '#'
  {
    seq(72, i => '#')
  }

  function SectionChunks(section: string): seq<string> {
    [Hashes() + "\n", "#    SECTION  :  " + section + "\n", Hashes() + "\n", "\n"]
  }

  function ValuesText(opt: seq<string>): string {
    if opt == [] then "" else " " + opt[0] + " " + ValuesText(opt[1..])
  }

  /** The comment `mk_cf_file` puts before an option when it is verbose. */
  function DescChunks(d: VarDef): seq<string> {
    ["# " + d.tag + "\n", "#     " + d.desc + "\n"]
    + (if d.syntax != "" then ["#  Syntax : " + d.syntax + "\n"] else [])
    + (if d.kind == Enum then ["#     VALUES : " + ValuesText(d.opt) + "\n"] else [])
  }

  /** The value printed for an option of the running table. */
  function Shown(s: Schema, cf: seq<Rec>, d: VarDef): string {
    if d.id == s.versionId then s.version
    else
      match GetStr(cf, d.id)
      case None => ""
      case Some(v) => v
  }

  function VarChunks(s: Schema, cf: seq<Rec>, d: VarDef, section: string, verbose: bool): seq<string> {
    (if verbose && !EqNoCase(section, d.section) then SectionChunks(d.section) else [])
    + (if verbose then DescChunks(d) else [])
    + [PrintLine(d.tag, Shown(s, cf, d))]
    + (if verbose then ["\n"] else [])
  }

  function Header(banner: string, date: string): seq<string> {
    ["#\n", Comment(banner), Comment("Creation date : " + date),
     Comment("Configuration file template : running values"), "#\n"]
  }

  function Comment(text: string): string { "# " + text + "\n" }

  /** The section the printer is in before option `i`. */
  function SectionAt(vars: seq<VarDef>, i: nat): string
    requires i <= |vars|
  {
    if i == 0 then ""
    else if EqNoCase(SectionAt(vars, i - 1), vars[i - 1].section) then SectionAt(vars, i - 1)
    else vars[i - 1].section
  }

  function BodyChunks(s: Schema, cf: seq<Rec>, verbose: bool, n: nat): seq<string>
    requires n <= |s.vars|
  {
    if n == 0 then []
    else BodyChunks(s, cf, verbose, n - 1)
         + VarChunks(s, cf, s.vars[n - 1], SectionAt(s.vars, n - 1), verbose)
  }

  /** The lines of the RUNNING file. */
  function RunningFile(s: Schema, cf: seq<Rec>, date: string, verbose: bool): seq<string> {
    Header(s.banner, date) + BodyChunks(s, cf, verbose, |s.vars|)
  }

  // ----- the imperative table ------------------------------------------------

  class Table {
    const cf: array<Rec>
    const schema: Schema
    var initOk: bool

    ghost predicate Valid() {
      cf.Length == DIM_CF
    }

    constructor (s: Schema)
      ensures Valid() && fresh(cf) && schema == s && !initOk
      ensures cf[..] == EmptyTable()
    {
      schema := s;
      initOk := false;
      cf := new Rec[DIM_CF](i => EmptyRec);
    }

    method FindId(id: int) returns (i: nat)
      requires Valid()
      ensures i == IndexById(cf[..], id)
    {
      i := 0;
      while i < cf.Length && cf[i].id != id
        invariant i <= cf.Length
        invariant forall j :: 0 <= j < i ==> cf[j].id != id
      {
        i := i + 1;
      }
      assert forall j :: 0 <= j < i ==> cf[..][j].id != id;
    }

    /** `cf_get_id`. */
    method GetIdOf(tag: string) returns (id: int)
      requires Valid()
      ensures id == GetId(cf[..], tag)
    {
      var i := 0;
      while i < cf.Length
        invariant i <= cf.Length
        invariant forall j :: 0 <= j < i ==> !EqNoCase(tag, cf[j].name)
      {
        if EqNoCase(tag, cf[i].name) {
          assert forall j :: 0 <= j < i ==> !EqNoCase(tag, cf[..][j].name);
          return cf[i].id;
        }
        i := i + 1;
      }
      assert forall j :: 0 <= j < i ==> !EqNoCase(tag, cf[..][j].name);
      return CF_NONE;
    }

    /** `get_enum_index`. */
    method FindEnum(val: string, opt: seq<string>) returns (r: int)
      ensures r == EnumIndex(val, opt)
    {
      var i := 0;
      while i < |opt|
        invariant i <= |opt|
        invariant forall j :: 0 <= j < i ==> !EqNoCase(opt[j], val) && !EqNoCase(opt[j], OTHER)
      {
        if EqNoCase(opt[i], val) || EqNoCase(opt[i], OTHER) { return i; }
        i := i + 1;
      }
      return -1;
    }

    /** `cf_set_val`. */
    method SetValue(id: int, value: string) returns (res: int)
      requires Valid()
      modifies cf
      ensures cf[..] == SetVal(schema.conv, old(cf[..]), id, value)
      ensures res == SetValResult(old(cf[..]), id, value)
    {
      if value == "" { return CF_NONE; }
      var i := FindId(id);
      if i == cf.Length { return CF_NONE; }
      cf[i] := cf[i].(strval := StrLCpy(value, STRVAL_SIZE));
      match cf[i].kind {
        case Str => cf[i] := cf[i].(sv := StrLCpy(value, cf[i].slen));
        case Int => cf[i] := cf[i].(iv := schema.conv.toLong(value));
        case Double => cf[i] := cf[i].(dv := schema.conv.toDouble(value));
        case Enum =>
          var val := FindEnum(value, cf[i].opt);
          if val < 0 { return CF_NONE; }
          var shown := if EqNoCase(cf[i].opt[val], OTHER) then value else cf[i].opt[val];
          cf[i] := cf[i].(iv := val, sv := StrLCpy(shown, cf[i].slen));
        case NoKind => return CF_NONE;
      }
      return id;
    }

    /** `cf_append_str_val`. */
    method AppendValue(id: int, value: string) returns (res: int)
      requires Valid()
      modifies cf
      ensures cf[..] == AppendStrVal(old(cf[..]), id, value)
      ensures res == if value == "" || IndexById(old(cf[..]), id) == DIM_CF then CF_NONE else id
    {
      if value == "" { return CF_NONE; }
      var i := FindId(id);
      if i == cf.Length { return CF_NONE; }
      if cf[i].kind == Str {
        if |cf[i].sv| > 0 {
          if |cf[i].sv| + |value| + 1 < cf[i].slen {
            cf[i] := cf[i].(sv := cf[i].sv + "\n" + value);
          }
        } else {
          cf[i] := cf[i].(sv := StrLCpy(value, cf[i].slen));
        }
      }
      return id;
    }

    /** `cf_add_id_str`, `cf_add_id_int`, `cf_add_id_double` and
        `cf_add_id_enum`, which differ in the blank record alone. */
    method AddOption(d: VarDef) returns (res: int)
      requires Valid() && d.kind != NoKind
      modifies cf
      ensures cf[..] == AddId(schema.conv, old(cf[..]), d)
      ensures res == AddIdResult(old(cf[..]), d)
    {
      var i := 0;
      while i < cf.Length && cf[i].id != CF_NONE
        invariant i <= cf.Length
        invariant forall j :: 0 <= j < i ==> cf[j].id != CF_NONE && cf[j].id != d.id
      {
        if cf[i].id == d.id {
          assert forall j :: 0 <= j < i ==> cf[..][j].id != CF_NONE && cf[..][j].id != d.id;
          return -1;
        }
        i := i + 1;
      }
      assert forall j :: 0 <= j < i ==> cf[..][j].id != CF_NONE && cf[..][j].id != d.id;
      if i >= cf.Length { return -2; }
      cf[i] := FreshRec(d);
      assert cf[..] == old(cf[..])[i := FreshRec(d)];
      var _ := SetValue(d.id, d.cfnull);
      return d.id;
    }

    /** `cf_init` with `fill_conf_data`. */
    method Initialise()
      requires Valid()
      modifies cf
      ensures cf[..] == Init(schema)
    {
      for i := 0 to cf.Length
        invariant forall j :: 0 <= j < i ==> cf[j] == EmptyRec
      {
        cf[i] := EmptyRec;
      }
      assert cf[..] == EmptyTable();
      for n := 0 to |schema.vars|
        invariant cf[..] == Fold(Adder(schema.conv), EmptyTable(), schema.vars[..n])
      {
        var d := schema.vars[n];
        assert schema.vars[..n + 1] == schema.vars[..n] + [d];
        FoldSnoc(Adder(schema.conv), EmptyTable(), schema.vars[..n], d);
        match d.kind {
          case NoKind =>
          case _ => var _ := AddOption(d);
        }
      }
      assert schema.vars[..|schema.vars|] == schema.vars;
    }

    /** `cf_defaults`. */
    method LoadDefaults()
      requires Valid()
      modifies cf
      ensures cf[..] == SetAll(schema.conv, old(cf[..]), schema.defaults)
    {
      var asg := schema.defaults;
      for n := 0 to |asg|
        invariant SetAll(schema.conv, cf[..], asg[n..]) == SetAll(schema.conv, old(cf[..]), asg)
      {
        var _ := SetValue(asg[n].0, asg[n].1);
        assert asg[n..][1..] == asg[n + 1..];
      }
    }

    /** `cf_read_file` on a file that could be opened. */
    method ReadFile(text: string) returns (lineno: nat)
      requires Valid()
      modifies cf
      ensures cf[..] == ReadText(schema.conv, old(cf[..]), text)
      ensures cf[..] == ReadLines(schema.conv, old(cf[..]), Lines(text, 512))
      ensures lineno == |Lines(text, 512)|
    {
      var rest := text;
      lineno := 0;
      while rest != ""
        invariant ReadText(schema.conv, cf[..], rest) == ReadText(schema.conv, old(cf[..]), text)
        invariant lineno + |Lines(rest, CONF_LINE_SIZE)| == |Lines(text, CONF_LINE_SIZE)|
        decreases |rest|
      {
        var n := FGetsLen(rest, CONF_LINE_SIZE);
        var line := rest[..n];
        assert Lines(rest, CONF_LINE_SIZE)[1..] == Lines(rest[n..], CONF_LINE_SIZE);
        rest := rest[n..];
        lineno := lineno + 1;
        match ParseLine(line) {
          case None =>
          case Some(kv) =>
            var id := GetIdOf(kv.0);
            if id > 0 {
              var _ := SetValue(id, kv.1);
            }
        }
      }
    }

    /** `configure`, up to the values the table holds. */
    method Configure(text: string)
      requires Valid()
      modifies cf, this`initOk
      ensures initOk
      ensures cf[..] == Configured(schema, if old(initOk) then old(cf[..]) else Init(schema), text)
    {
      if !initOk {
        Initialise();
        initOk := true;
      }
      LoadDefaults();
      var _ := ReadFile(text);
    }

    /** `cf_get_str`. */
    method ReadStr(id: int) returns (v: Option<string>)
      requires Valid()
      ensures v == GetStr(cf[..], id)
    {
      if id <= 0 { return None; }
      var i := FindId(id);
      if i == cf.Length { return None; }
      match cf[i].kind {
        case Str => return Some(cf[i].sv);
        case Int => return Some(cf[i].strval);
        case Enum =>
          var j := 0;
          while j < |cf[i].opt| && j != cf[i].iv
            invariant 0 <= j <= |cf[i].opt|
            invariant !(0 <= cf[i].iv < j)
          {
            j := j + 1;
          }
          if j == |cf[i].opt| { return None; }
          return Some(if EqNoCase(cf[i].opt[j], OTHER) then cf[i].sv else cf[i].opt[j]);
        case _ => return None;
      }
    }

    /** One turn of the loop of `mk_cf_file`: the lines for one option. */
    method PrintOption(d: VarDef, section: string, verbose: bool) returns (chunks: seq<string>)
      requires Valid()
      ensures chunks == VarChunks(schema, cf[..], d, section, verbose)
    {
      chunks := [];
      if verbose && !EqNoCase(section, d.section) { chunks := SectionChunks(d.section); }
      if verbose { chunks := chunks + DescChunks(d); }
      var svalue := schema.version;
      if d.id != schema.versionId {
        var v := ReadStr(d.id);
        svalue := match v case None => "" case Some(text) => text;
      }
      chunks := chunks + [PrintLine(d.tag, svalue)];
      if verbose { chunks := chunks + ["\n"]; }
    }

    /** `mk_cf_file(fd, MK_CF_RUNNING, verbose)`: the text written. */
    method PrintRunning(date: string, verbose: bool) returns (text: string)
      requires Valid()
      ensures text == Concat(RunningFile(schema, cf[..], date, verbose))
    {
      var section := "";
      var lines := [];
      for i := 0 to |schema.vars|
        invariant verbose ==> section == SectionAt(schema.vars, i)
        invariant lines == BodyChunks(schema, cf[..], verbose, i)
      {
        var d := schema.vars[i];
        var chunks := PrintOption(d, section, verbose);
        assert chunks == VarChunks(schema, cf[..], d, SectionAt(schema.vars, i), verbose);
        lines := lines + chunks;
        if verbose && !EqNoCase(section, d.section) { section := d.section; }
      }
      text := Concat(Header(schema.banner, date) + lines);
    }
  }
}
