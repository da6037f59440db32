/** What the configuration table makes of a line, an assignment and an append,
    told with the characters and sizes of the file format. */
module ConfLines {
  import opened CText
  import opened ConfTable
  import opened ConfReload
  import opened ConfRoundTrip

  // ----- lines ---------------------------------------------------------------

  /** Letters, digits, '_', '.' and '@'. */
  predicate InKey(c: char) {
    'A' <= c <= 'Z' || 'a' <= c <= 'z' || '0' <= c <= '9' || c in "_.@"
  }

  predicate IsKey(s: string) {
    forall i :: 0 <= i < |s| ==> InKey(s[i])
  }

  predicate IsOneOf(s: string, chars: string) {
    forall i :: 0 <= i < |s| ==> s[i] in chars
  }

  lemma KeyCharIs(c: char)
    ensures KeyChar(c) <==> InKey(c)
  {
    var others := "_.@";
    assert others[0] == '_' && others[1] == '.' && others[2] == '@';
  }

  lemma BlankIs(c: char)
    ensures IsBlank(c) <==> c in " \t"
    ensures IsSeparator(c) <==> c in "= \t"
    ensures NotEol(c) <==> c !in "\r\n"
  {
    var a, b, e := " \t", "= \t", "\r\n";
    assert a[0] == ' ' && a[1] == '\t' && b[0] == '=' && b[1] == ' ' && b[2] == '\t' && e[0] == '\r' && e[1] == '\n';
  }

  lemma AllKeyChars(key: string)
    requires IsKey(key)
    ensures All(key, KeyChar)
  {
    forall i | 0 <= i < |key| ensures KeyChar(key[i]) { KeyCharIs(key[i]); }
  }

  lemma AllBlanks(s: string)
    requires IsOneOf(s, " \t")
    ensures All(s, IsBlank) && All(s, NotEol)
  {
    forall i | 0 <= i < |s| ensures IsBlank(s[i]) { BlankIs(s[i]); }
  }

  lemma AllSeparators(s: string)
    requires IsOneOf(s, "= \t")
    ensures All(s, IsSeparator) && All(s, NotEol)
  {
    forall i | 0 <= i < |s| ensures IsSeparator(s[i]) { BlankIs(s[i]); }
  }

  /** The text of a value: no end of line, no separator in front, no blank behind. */
  predicate IsValue(v: string) {
    v != "" && (forall i :: 0 <= i < |v| ==> v[i] != '\r' && v[i] != '\n') &&
    v[0] != '=' && v[0] != ' ' && v[0] != '\t' && v[|v| - 1] != ' ' && v[|v| - 1] != '\t'
  }

  lemma {:induction false} TrimsTail(v: string, tail: string)
    requires IsValue(v) && All(tail, IsBlank)
    ensures TrimRight(v + tail) == v
    decreases |tail|
  {
    if tail == "" {
      assert v + tail == v;
    } else {
      var n := |tail| - 1;
      assert (v + tail)[..|v + tail| - 1] == v + tail[..n];
      assert IsBlank(tail[n]);
      TrimsTail(v, tail[..n]);
    }
  }

  lemma CutsEol(text: string, eol: string)
    requires All(text, NotEol) && (eol == "" || eol[0] == '\n' || eol[0] == '\r')
    ensures
      var line := text + eol;
      line[..Spn(line, NotEol)] == text
  {
    SpnExact(text, eol, NotEol);
  }

  /** A key apart from what follows it. */
  predicate EndsKey(rest: string) {
    rest == "" || !InKey(rest[0])
  }

  lemma ParseSkipsBlanks(line: string, blanks: string, key: string, rest: string)
    requires All(blanks, IsBlank) && IsKey(key) && EndsKey(rest) && key + rest != ""
    requires key != "" || (rest[0] != '#' && !IsBlank(rest[0]))
    requires line[..Spn(line, NotEol)] == blanks + (key + rest)
    ensures ParseLine(line) ==
      var value := Skip(rest, IsSeparator);
      if value == "" then None else Some((DotsToUnderscores(key), TrimRight(value)))
  {
    var p := key + rest;
    AllKeyChars(key);
    if rest != "" { KeyCharIs(rest[0]); }
    assert key != "" ==> p[0] == key[0] && KeyChar(key[0]);
    assert p[0] != '#' && !IsBlank(p[0]);
    SpnExact(blanks, p, IsBlank);
    SpnExact(key, rest, KeyChar);
    assert p[..|key|] == key && p[|key|..] == rest;
  }

  lemma KeyIsText(key: string)
    requires IsKey(key)
    ensures All(key, NotEol)
  {
    AllKeyChars(key);
  }

  lemma ValueIsText(v: string, tail: string)
    requires IsValue(v) && All(tail, NotEol)
    ensures All(v + tail, NotEol)
  {
  }

  /** The reader takes from a line its key, with '_' for '.', and its value: blanks
      in front, the separators between them, blanks behind and the end of line all
      go. */
  lemma LineReads(blanks: string, key: string, sep: string, v: string, tail: string, eol: string)
    requires IsOneOf(blanks, " \t") && key != "" && IsKey(key) && IsOneOf(sep, "= \t")
    requires IsValue(v) && IsOneOf(tail, " \t") && EndsKey(sep + v)
    requires eol == "" || eol[0] == '\n' || eol[0] == '\r'
    ensures
      var r := ParseLine(blanks + (key + (sep + (v + tail))) + eol);
      r.Some? && r.value.1 == v && |r.value.0| == |key| &&
      forall i :: 0 <= i < |key| ==> r.value.0[i] == if key[i] == '.' then '_' else key[i]
  {
    var rest := sep + (v + tail);
    AllBlanks(blanks);
    AllBlanks(tail);
    AllSeparators(sep);
    KeyIsText(key);
    ValueIsText(v, tail);
    assert All(blanks + (key + rest), NotEol);
    CutsEol(blanks + (key + rest), eol);
    assert rest[0] == (sep + v)[0];
    ParseSkipsBlanks(blanks + (key + rest) + eol, blanks, key, rest);
    SpnExact(sep, v + tail, IsSeparator);
    TrimsTail(v, tail);
  }

  /** Nothing is taken from a comment, a blank line, or a key without a value. */
  lemma LineIgnored(blanks: string, text: string, eol: string)
    requires IsOneOf(blanks, " \t") && (eol == "" || eol[0] == '\n' || eol[0] == '\r')
    requires All(text, NotEol) && (text == "" || text[0] == '#')
    ensures ParseLine(blanks + text + eol) == None
  {
    AllBlanks(blanks);
    CutsEol(blanks + text, eol);
    SpnExact(blanks, text, IsBlank);
  }

  lemma KeyAlone(blanks: string, key: string, sep: string, eol: string)
    requires IsOneOf(blanks, " \t") && key != "" && IsKey(key) && IsOneOf(sep, "= \t")
    requires eol == "" || eol[0] == '\n' || eol[0] == '\r'
    ensures ParseLine(blanks + (key + sep) + eol) == None
  {
    AllBlanks(blanks);
    AllSeparators(sep);
    KeyIsText(key);
    CutsEol(blanks + (key + sep), eol);
    if sep != "" {
      BlankIs(sep[0]);
      KeyCharIs(sep[0]);
    }
    ParseSkipsBlanks(blanks + (key + sep) + eol, blanks, key, sep);
    SpnExact(sep, "", IsSeparator);
    assert sep + "" == sep;
  }

  /** The tags of the options: up to 63 key characters but '.'. */
  lemma ValidTagIs(tag: string)
    ensures ValidTag(tag) <==> 1 <= |tag| <= 63 && IsKey(tag) && '.' !in tag
    ensures ValidTag("LOG_LEVEL")
  {
    if IsKey(tag) { AllKeyChars(tag); }
    if All(tag, KeyChar) {
      forall i | 0 <= i < |tag| { KeyCharIs(tag[i]); }
    }
    var log := "LOG_LEVEL";
    forall i | 0 <= i < |log| ensures KeyChar(log[i]) && log[i] != '.' {
      assert log[3] == '_';
    }
  }

  // ----- lines and the table -------------------------------------------------

  /** A line whose key is an option's tag, case ignored, assigns its value to that
      option ... */
  lemma LineSets(c: Conv, cf: seq<Rec>, line: string, key: string, v: string, i: nat)
    requires ParseLine(line) == Some((key, v))
    requires i < |cf| && cf[i].id > 0 && Lower(key) == Lower(cf[i].name)
    requires forall j :: 0 <= j < i ==> Lower(key) != Lower(cf[j].name)
    ensures ReadLine(c, cf, line) == SetVal(c, cf, cf[i].id, v)
  {
    assert EqNoCase(key, cf[i].name);
    assert IndexByName(cf, key) == i;
  }

  /** ... and a line with any other key changes nothing. */
  lemma UnknownKey(c: Conv, cf: seq<Rec>, line: string, key: string, v: string)
    requires ParseLine(line) == Some((key, v))
    requires forall i :: 0 <= i < |cf| ==> Lower(key) != Lower(cf[i].name)
    ensures ReadLine(c, cf, line) == cf
  {
    assert IndexByName(cf, key) == |cf|;
  }

  // ----- assignments ---------------------------------------------------------

  /** The first n - 1 characters. */
  function Cut(v: string, n: nat): string
    requires n > 0
  {
    if |v| < n then v else v[..n - 1]
  }

  /** Option j is the first that is the value or the catch-all. */
  predicate FirstChoice(opt: seq<string>, v: string, j: nat) {
    j < |opt| && (Lower(opt[j]) == Lower(v) || Lower(opt[j]) == "other") &&
    forall k :: 0 <= k < j ==> Lower(opt[k]) != Lower(v) && Lower(opt[k]) != "other"
  }

  lemma OtherIs(v: string)
    ensures EqNoCase(v, OTHER) <==> Lower(v) == "other"
  {
    assert Lower("OTHER") == "other";
  }

  lemma FirstChoiceIs(opt: seq<string>, v: string, j: nat)
    requires FirstChoice(opt, v, j)
    ensures EnumIndex(v, opt) == j
  {
    forall k | 0 <= k <= j { OtherIs(opt[k]); }
    var i := EnumIndex(v, opt);
    if 0 <= i { OtherIs(opt[i]); }
  }

  lemma NoChoiceIs(opt: seq<string>, v: string)
    requires forall k :: 0 <= k < |opt| ==> Lower(opt[k]) != Lower(v) && Lower(opt[k]) != "other"
    ensures EnumIndex(v, opt) == -1
  {
    var i := EnumIndex(v, opt);
    if 0 <= i { OtherIs(opt[i]); }
  }

  lemma GetsOf(cf: seq<Rec>, i: nat)
    requires i < |cf| && IndexById(cf, cf[i].id) == i && cf[i].id > 0
    ensures GetStr(cf, cf[i].id) == GetStrRec(cf[i]) && GetInt(cf, cf[i].id) == cf[i].iv
  {
  }

  /** Reading an option back after an assignment, by kind. */
  lemma SetThenGet(c: Conv, cf: seq<Rec>, i: nat, v: string)
    requires i < |cf| && IndexById(cf, cf[i].id) == i && cf[i].id > 0 && v != ""
    ensures
      var r, id := cf[i], cf[i].id;
      var after := SetVal(c, cf, id, v);
      (r.kind == Str && r.slen > 0 ==> GetStr(after, id) == Some(Cut(v, r.slen))) &&
      (r.kind == Int ==> GetStr(after, id) == Some(Cut(v, 64)) && GetInt(after, id) == c.toLong(v)) &&
      (r.kind == Double ==> GetStr(after, id) == None && after[i].dv == c.toDouble(v)) &&
      (r.kind != Enum && r.kind != NoKind ==> SetValResult(cf, id, v) == id)
  {
    SetOneAt(c, cf, cf[i].id, v, i);
    GetsOf(SetVal(c, cf, cf[i].id, v), i);
  }

  lemma SetThenGetChoice(c: Conv, cf: seq<Rec>, i: nat, v: string, j: nat)
    requires i < |cf| && IndexById(cf, cf[i].id) == i && cf[i].id > 0 && v != ""
    requires cf[i].kind == Enum && cf[i].slen > 0 && FirstChoice(cf[i].opt, v, j)
    ensures
      var r, id := cf[i], cf[i].id;
      var after := SetVal(c, cf, id, v);
      SetValResult(cf, id, v) == id && GetInt(after, id) == j &&
      GetStr(after, id) == Some(if Lower(r.opt[j]) == "other" then Cut(v, r.slen) else r.opt[j])
  {
    SetOneAt(c, cf, cf[i].id, v, i);
    GetsOf(SetVal(c, cf, cf[i].id, v), i);
    FirstChoiceIs(cf[i].opt, v, j);
    OtherIs(cf[i].opt[j]);
  }

  /** A refused choice leaves what an option shows. */
  lemma SetRefused(c: Conv, cf: seq<Rec>, i: nat, v: string)
    requires i < |cf| && IndexById(cf, cf[i].id) == i && cf[i].id > 0 && v != "" && cf[i].kind == Enum
    requires forall k :: 0 <= k < |cf[i].opt| ==> Lower(cf[i].opt[k]) != Lower(v) && Lower(cf[i].opt[k]) != "other"
    ensures
      var id := cf[i].id;
      var after := SetVal(c, cf, id, v);
      SetValResult(cf, id, v) == 0 && GetInt(after, id) == GetInt(cf, id) && GetStr(after, id) == GetStr(cf, id)
  {
    NoChoiceIs(cf[i].opt, v);
    SetOneAt(c, cf, cf[i].id, v, i);
    GetsOf(cf, i);
    GetsOf(SetVal(c, cf, cf[i].id, v), i);
  }

  /** An assignment or an append changes one option; an empty text or an unknown
      id changes none. */
  lemma OthersKept(c: Conv, cf: seq<Rec>, id: int, v: string, j: nat)
    requires j < |cf|
    ensures v == "" || IndexById(cf, id) != j ==> SetVal(c, cf, id, v)[j] == cf[j] == AppendStrVal(cf, id, v)[j]
    ensures v == "" ==> SetValResult(cf, id, v) == 0
  {
  }

  lemma AppendAt(cf: seq<Rec>, i: nat, v: string)
    requires i < |cf| && IndexById(cf, cf[i].id) == i
    ensures
      var after := AppendStrVal(cf, cf[i].id, v);
      after[i] == AppendRec(cf[i], v) && after[i].id == cf[i].id && IndexById(after, cf[i].id) == i
  {
    var after := AppendStrVal(cf, cf[i].id, v);
    assert SameShape(cf, after);
    SearchesSeeShape(cf, after, cf[i].id, "");
  }

  /** Appending to a text option: a first text is cut like an assignment, a later
      one is added on a new line when both fit and dropped when not. */
  lemma AppendThenGet(cf: seq<Rec>, i: nat, v: string)
    requires i < |cf| && IndexById(cf, cf[i].id) == i && cf[i].id > 0 && v != ""
    requires cf[i].kind == Str && cf[i].slen > 0
    ensures
      var r, id := cf[i], cf[i].id;
      var was := GetStr(cf, id).value;
      GetStr(cf, id).Some? && GetStr(AppendStrVal(cf, id, v), id) ==
        Some(if was == "" then Cut(v, r.slen)
             else if |was + "\n" + v| < r.slen then was + "\n" + v
             else was)
  {
    AppendAt(cf, i, v);
    GetsOf(cf, i);
    GetsOf(AppendStrVal(cf, cf[i].id, v), i);
  }

  // ----- an initialised table ------------------------------------------------

  /** The record of option i before any default. */
  lemma InitialRec(s: Schema, i: nat)
    requires ValidSchema(s) && i < |s.vars|
    ensures |Init(s)| == DIM_CF && i < DIM_CF && ValidVar(s.vars[i])
    ensures Init(s)[i] == SetRec(s.conv, FreshRec(s.vars[i]), s.vars[i].cfnull)
    ensures IndexById(Init(s), s.vars[i].id) == i
    ensures GetStr(Init(s), s.vars[i].id) == GetStrRec(Init(s)[i]) && GetInt(Init(s), s.vars[i].id) == Init(s)[i].iv
  {
    InitAligned(s);
    AlignedSearches(s, Init(s), i);
    assert ValidVar(s.vars[i]) && Init(s)[i] == InitRecs(s)[i];
  }

  /** The sizes a fresh option gives its texts: a choice keeps 127 characters, a
      text one less than its declared length. */
  lemma InitialSizes(s: Schema, i: nat)
    requires ValidSchema(s) && i < |s.vars|
    ensures |Init(s)| == 256 && i < 256
    ensures
      var r, d := Init(s)[i], s.vars[i];
      r.id == d.id && r.name == d.tag && r.kind == d.kind && IndexById(Init(s), d.id) == i &&
      (d.kind == Enum ==> r.slen == 128 && r.opt == d.opt) && (d.kind == Str ==> r.slen == d.len)
  {
    InitialRec(s, i);
  }

  lemma InitialText(c: Conv, d: VarDef)
    requires d.kind == Str && d.len > 0
    ensures GetStrRec(SetRec(c, FreshRec(d), d.cfnull)) == Some(Cut(d.cfnull, d.len))
    ensures SetRec(c, FreshRec(d), d.cfnull).iv == 0
  {
  }

  lemma InitialNumber(c: Conv, d: VarDef)
    requires d.kind == Int
    ensures GetStrRec(SetRec(c, FreshRec(d), d.cfnull)) == Some(Cut(d.cfnull, 64))
    ensures SetRec(c, FreshRec(d), d.cfnull).iv == if d.cfnull == "" then 0 else c.toLong(d.cfnull)
  {
  }

  /** What an option shows before any default: its null value, if it has one. */
  lemma InitialValue(s: Schema, i: nat)
    requires ValidSchema(s) && i < |s.vars|
    ensures
      var d := s.vars[i];
      (d.kind == Str ==> d.len > 0 && GetStr(Init(s), d.id) == Some(Cut(d.cfnull, d.len)) && GetInt(Init(s), d.id) == 0) &&
      (d.kind == Int ==> GetStr(Init(s), d.id) == Some(Cut(d.cfnull, 64)) &&
                         GetInt(Init(s), d.id) == if d.cfnull == "" then 0 else s.conv.toLong(d.cfnull))
  {
    InitialRec(s, i);
    if s.vars[i].kind == Str { InitialText(s.conv, s.vars[i]); }
    if s.vars[i].kind == Int { InitialNumber(s.conv, s.vars[i]); }
  }

  lemma InitialChoice(s: Schema, i: nat, j: nat)
    requires ValidSchema(s) && i < |s.vars| && s.vars[i].kind == Enum && s.vars[i].cfnull != ""
    requires FirstChoice(s.vars[i].opt, s.vars[i].cfnull, j)
    ensures
      var d := s.vars[i];
      GetInt(Init(s), d.id) == j &&
      GetStr(Init(s), d.id) == Some(if Lower(d.opt[j]) == "other" then Cut(d.cfnull, 128) else d.opt[j])
  {
    InitialRec(s, i);
    FirstChoiceIs(s.vars[i].opt, s.vars[i].cfnull, j);
    OtherIs(s.vars[i].opt[j]);
  }

  // ----- sections of the printed file ----------------------------------------

  /** A verbose file prints a section header before an option exactly when its
      section is not that of the option before it, case ignored. */
  lemma SectionChanges(s: Schema, cf: seq<Rec>, i: nat)
    requires 0 < i < |s.vars|
    ensures
      var d, here := s.vars[i], SectionAt(s.vars, i);
      VarChunks(s, cf, d, here, true) ==
        (if Lower(s.vars[i - 1].section) != Lower(d.section) then SectionChunks(d.section) else [])
        + DescChunks(d) + [PrintLine(d.tag, Shown(s, cf, d))] + ["\n"]
  {
  }

  /** The comment above an option names it and describes it. */
  lemma DescriptionLines(d: VarDef)
    ensures
      var lines := DescChunks(d);
      |lines| == 2 + (if d.syntax != "" then 1 else 0) + (if d.kind == Enum then 1 else 0) &&
      lines[0] == "# " + d.tag + "\n" && lines[1] == "#     " + d.desc + "\n" &&
      (d.syntax != "" ==> lines[2] == "#  Syntax : " + d.syntax + "\n") &&
      (d.kind == Enum ==> lines[|lines| - 1] == "#     VALUES : " + ValuesText(d.opt) + "\n")
  {
  }

  /** A section header: the section between two lines of 72 hashes. */
  lemma SectionLines(section: string)
    ensures
      var lines := SectionChunks(section);
      |lines| == 4 && lines[1] == "#    SECTION  :  " + section + "\n" && lines[3] == "\n" &&
      lines[0] == lines[2] && |lines[0]| == 73 && lines[0][72] == '\n' && forall i :: 0 <= i < 72 ==> lines[0][i] == '#'
  {
  }

  /** The version option is printed with the program's version, whatever it holds. */
  lemma VersionPrinted(s: Schema, cf: seq<Rec>, d: VarDef, section: string)
    requires d.id == s.versionId
    ensures VarChunks(s, cf, d, section, false) == [PrintLine(d.tag, s.version)]
  {
  }

  /** Every other option is printed with what `cf_get_str` gives, nothing for NULL. */
  lemma OptionPrinted(s: Schema, cf: seq<Rec>, d: VarDef, section: string)
    requires d.id != s.versionId
    ensures VarChunks(s, cf, d, section, false) ==
      [PrintLine(d.tag, match GetStr(cf, d.id) case Some(v) => v case None => "")]
  {
  }

  // ----- the edges of the table ----------------------------------------------

  /** Adding an option: -1 when it is already there, -2 when there is no free slot. */
  lemma AddResult(cf: seq<Rec>, d: VarDef, i: nat)
    requires i <= |cf| && forall j :: 0 <= j < i ==> cf[j].id != 0 && cf[j].id != d.id
    ensures i == |cf| ==> AddIdResult(cf, d) == -2
    ensures i < |cf| && cf[i].id == 0 ==> AddIdResult(cf, d) == d.id
    ensures i < |cf| && cf[i].id == d.id != 0 ==> AddIdResult(cf, d) == -1
  {
    if i == |cf| || cf[i].id == 0 || cf[i].id == d.id { assert Slot(cf, d.id) == i; }
  }

  /** An id that no option has reads as no text and as -1. */
  lemma UnknownId(cf: seq<Rec>, id: int)
    requires id <= 0 || forall i :: 0 <= i < |cf| ==> cf[i].id != id
    ensures GetStr(cf, id) == None && GetInt(cf, id) == -1
  {
  }

  // ----- reconfiguration, as it is read back ---------------------------------

  /** After `configure(F)` a text option reads as its last line in F, else as its
      last default, else as before. */
  lemma ConfiguredText(s: Schema, cf: seq<Rec>, text: string, i: nat)
    requires i < |cf| && IndexById(cf, cf[i].id) == i && cf[i].id > 0 && cf[i].kind == Str && cf[i].slen > 0
    ensures
      var r := cf[i];
      var file, defaults := LastNonEmpty(FileValues(cf, text, r.id)), LastNonEmpty(ValuesFor(s.defaults, r.id));
      GetStr(Configured(s, cf, text), r.id) ==
        if file.Some? then Some(Cut(file.value, r.slen))
        else if defaults.Some? then Some(Cut(defaults.value, r.slen))
        else GetStr(cf, r.id)
  {
    HeldAfter(s, cf, text, i);
    GetsOf(cf, i);
    GetsOf(Configured(s, cf, text), i);
  }

  /** ... and a number as the conversion of that text. */
  lemma ConfiguredNumber(s: Schema, cf: seq<Rec>, text: string, i: nat)
    requires i < |cf| && IndexById(cf, cf[i].id) == i && cf[i].id > 0 && cf[i].kind == Int
    ensures
      var r := cf[i];
      var file, defaults := LastNonEmpty(FileValues(cf, text, r.id)), LastNonEmpty(ValuesFor(s.defaults, r.id));
      GetInt(Configured(s, cf, text), r.id) ==
        if file.Some? then s.conv.toLong(file.value)
        else if defaults.Some? then s.conv.toLong(defaults.value)
        else GetInt(cf, r.id)
  {
    HeldAfter(s, cf, text, i);
    GetsOf(cf, i);
    GetsOf(Configured(s, cf, text), i);
  }

  lemma HeldAfter(s: Schema, cf: seq<Rec>, text: string, i: nat)
    requires i < |cf| && IndexById(cf, cf[i].id) == i && (cf[i].kind == Str || cf[i].kind == Int)
    ensures |Configured(s, cf, text)| == |cf| && SameShapeRec(cf[i], Configured(s, cf, text)[i])
    ensures IndexById(Configured(s, cf, text), cf[i].id) == i
    ensures
      var r := cf[i];
      var file, defaults := LastNonEmpty(FileValues(cf, text, r.id)), LastNonEmpty(ValuesFor(s.defaults, r.id));
      Held(Configured(s, cf, text)[i]) ==
        if file.Some? then Meaning(s.conv, r.kind, r.slen, r.opt, file.value)
        else if defaults.Some? then Meaning(s.conv, r.kind, r.slen, r.opt, defaults.value)
        else Held(r)
  {
    ConfigureHolds(s, cf, text, i);
    ConfiguredAt(s, cf, text, i);
    AcceptedText(cf[i], FileValues(cf, text, cf[i].id));
    AcceptedText(cf[i], ValuesFor(s.defaults, cf[i].id));
  }

  lemma ConfiguredAt(s: Schema, cf: seq<Rec>, text: string, i: nat)
    requires i < |cf| && IndexById(cf, cf[i].id) == i
    ensures |Configured(s, cf, text)| == |cf| && SameShapeRec(cf[i], Configured(s, cf, text)[i])
    ensures IndexById(Configured(s, cf, text), cf[i].id) == i
  {
    ConfiguredIsAssigns(s, cf, text);
    SetAllKeepsShape(s.conv, cf, ConfigureAssigns(s, cf, text));
    SearchesSeeShape(cf, Configured(s, cf, text), cf[i].id, "");
  }

  /** A text or a number accepts every text that is not empty. */
  lemma {:induction false} AcceptedText(r: Rec, vals: seq<string>)
    requires r.kind == Str || r.kind == Int
    ensures LastAccepted(r, vals) == LastNonEmpty(vals)
  {
    if vals != [] { AcceptedText(r, vals[..|vals| - 1]); }
  }
}
