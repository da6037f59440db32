/** The token files of j-bayes-tbx: learn files are aggregated into .tok files,
    and .tok files are grouped into one table. */
module Tokens {
  import opened CText
  import opened Perm

  const TOKEN_SIZE := 128
  const LINE_SIZE := 1024
  const CRYPT_SIZE := 16

  datatype Crypt = Plain | MD5 | SHA1

  /** `str2hash2hex`: a hexadecimal digest of a text. */
  type Digest = (Crypt, string) -> string

  datatype Counts = Counts(s: int, h: int) {
    function Of(spam: bool): int { if spam then s else h }
  }

  /** What one token line adds: so much spam and so much ham under a key. */
  datatype Entry = Entry(key: string, n: Counts)

  /** The tree of tokens, ordered by `strcmp` on the key. */
  type TokenTable = map<string, Counts>

  /** The spam or ham count of a key, zero when it is not in the tree. */
  function Lookup(m: TokenTable, key: string, spam: bool): int {
    if key in m then m[key].Of(spam) else 0
  }

  /** Insert a new token or add to the one in the tree. */
  function Add(m: TokenTable, e: Entry): TokenTable {
    m[e.key := if e.key in m then Counts(m[e.key].s + e.n.s, m[e.key].h + e.n.h) else e.n]
  }

  function AddAll(m: TokenTable, es: seq<Entry>): TokenTable {
    Fold(Add, m, es)
  }

  lemma AddAllOne(m: TokenTable, e: Entry)
    ensures AddAll(m, [e]) == Add(m, e)
  {
    assert [e][1..] == [];
    assert Fold(Add, m, [e]) == Fold(Add, Add(m, e), []);
  }

  // ----- lines ---------------------------------------------------------------

  function CutNewline(line: string): string {
    line[..Spn(line, NotNewline)]
  }

  /** The fields `strtok_r` finds with a space as its separator. */
  function Fields(s: string): seq<string>
    decreases |s|
  {
    var t := Skip(s, IsSpace);
    if t == "" then []
    else
      SpnSpec(s, IsSpace);
      var n := Spn(t, NotSpace);
      [t[..n]] + Fields(t[n..])
  }

  /** `atoi`. */
  function Atoi(s: string): int {
    match ScanInt(s) case None => 0 case Some(r) => r.0
  }

  /** The text after the first run of blanks. */
  function SecondWord(s: string): string {
    Skip(Skip(s, NotBlank), IsBlank)
  }

  // ----- aggregation ---------------------------------------------------------

  predicate IsLearnToken(buf: string) {
    HasPrefixNoCase(buf, "token ")
  }

  /** The program reads the sixth field of every token line. */
  predicate WellFormedLine(line: string) {
    IsLearnToken(CutNewline(line)) ==> |Fields(CutNewline(line))| >= 6
  }

  predicate WellFormedLines(lines: seq<string>) {
    forall l :: l in lines ==> WellFormedLine(l)
  }

  /** The entry of a token line, from its fields: the fourth tells spam from
      ham, the fifth is the count, the sixth the token. */
  function FieldsEntry(f: seq<string>, multinomial: bool): Entry
    requires |f| >= 6
  {
    var nb := if multinomial then Atoi(f[4]) else 1;
    Entry(StrLCpy(f[5], TOKEN_SIZE), if EqNoCase(f[3], "s") then Counts(nb, 0) else Counts(0, nb))
  }

  /** The entries of a learn line: one for a token line, none otherwise. */
  function LearnEntries(line: string, multinomial: bool): seq<Entry>
    requires WellFormedLine(line)
  {
    var buf := CutNewline(line);
    if IsLearnToken(buf) then [FieldsEntry(Fields(buf), multinomial)] else []
  }

  function AllLearnEntries(lines: seq<string>, multinomial: bool): seq<Entry>
    requires WellFormedLines(lines)
  {
    if lines == [] then []
    else LearnEntries(lines[0], multinomial) + AllLearnEntries(lines[1..], multinomial)
  }

  /** The encoding label a learn line sets. */
  function LearnCrypt(crypt: string, line: string): string {
    var buf := CutNewline(line);
    if HasPrefixNoCase(buf, "crypt ") then StrLCpy(SecondWord(buf), CRYPT_SIZE) else crypt
  }

  function AllLearnCrypt(crypt: string, lines: seq<string>): string
    decreases |lines|
  {
    if lines == [] then crypt else AllLearnCrypt(LearnCrypt(crypt, lines[0]), lines[1..])
  }

  datatype AggState = AggState(tree: TokenTable, crypt: string)

  function AggLine(st: AggState, line: string, multinomial: bool): AggState
    requires WellFormedLine(line)
  {
    AggState(AddAll(st.tree, LearnEntries(line, multinomial)), LearnCrypt(st.crypt, line))
  }

  function AggLines(st: AggState, lines: seq<string>, multinomial: bool): AggState
    requires WellFormedLines(lines)
    decreases |lines|
  {
    if lines == [] then st else AggLines(AggLine(st, lines[0], multinomial), lines[1..], multinomial)
  }

  method AggregateLine(st: AggState, line: string, multinomial: bool) returns (r: AggState)
    requires WellFormedLine(line)
    ensures r == AggLine(st, line, multinomial)
  {
    r := st;
    var buf := CutNewline(line);
    if HasPrefixNoCase(buf, "crypt ") { r := r.(crypt := StrLCpy(SecondWord(buf), CRYPT_SIZE)); }
    if IsLearnToken(buf) {
      var e := FieldsEntry(Fields(buf), multinomial);
      AddAllOne(st.tree, e);
      r := r.(tree := Add(r.tree, e));
    }
  }

  /** The loop of `agregate_tokens` over one file: its tree and its label. */
  method AggregateFile(text: string, multinomial: bool) returns (r: AggState)
    requires WellFormedLines(Lines(text, LINE_SIZE))
    ensures r.tree == AddAll(map[], AllLearnEntries(Lines(text, 1024), multinomial))
    ensures r.crypt == AllLearnCrypt("", Lines(text, 1024))
  {
    r := AggState(map[], "");
    var rest := text;
    while rest != ""
      invariant WellFormedLines(Lines(rest, LINE_SIZE))
      invariant AggLines(r, Lines(rest, LINE_SIZE), multinomial) ==
                AggLines(AggState(map[], ""), Lines(text, LINE_SIZE), multinomial)
      decreases |rest|
    {
      ghost var lines := Lines(rest, LINE_SIZE);
      var n := FGetsLen(rest, LINE_SIZE);
      var line := rest[..n];
      rest := rest[n..];
      assert lines[0] == line && lines[1..] == Lines(rest, LINE_SIZE);
      r := AggregateLine(r, line, multinomial);
    }
    AggLinesSplit(AggState(map[], ""), Lines(text, LINE_SIZE), multinomial);
  }

  lemma {:induction false} AggLinesSplit(st: AggState, lines: seq<string>, multinomial: bool)
    requires WellFormedLines(lines)
    ensures AggLines(st, lines, multinomial) ==
            AggState(AddAll(st.tree, AllLearnEntries(lines, multinomial)), AllLearnCrypt(st.crypt, lines))
    decreases |lines|
  {
    if lines != [] {
      AggLinesSplit(AggLine(st, lines[0], multinomial), lines[1..], multinomial);
      FoldAppend(Add, st.tree, LearnEntries(lines[0], multinomial), AllLearnEntries(lines[1..], multinomial));
    }
  }

  // ----- printing ------------------------------------------------------------

  /** What `dtok_browse` prints. */
  function TokenLine(token: string, n: Counts): string {
    "TOKEN:" + PadRight(token, 40) + " " + PrintInt(n.s) + " " + PrintInt(n.h) + "\n"
  }

  function CryptLine(fname: string, crypt: string): string {
    "CRYPT:" + PadRight(fname, 40) + " " + crypt + "\n"
  }

  function LineOf(m: TokenTable): string -> seq<string> {
    (t: string) => if t in m then [TokenLine(t, m[t])] else []
  }

  /** The lines of the tokens, in the order given. */
  function TokenLines(m: TokenTable, order: seq<string>): seq<string> {
    FlatMap(LineOf(m), order)
  }

  ghost predicate Enumerates(m: TokenTable, order: seq<string>) {
    (forall t :: t in order <==> t in m) && Distinct(order)
  }

  predicate Distinct(order: seq<string>) {
    forall i, j :: 0 <= i < j < |order| ==> order[i] != order[j]
  }

  ghost predicate Ascending(order: seq<string>) {
    forall i, j :: 0 <= i < j < |order| ==> StrLess(order[i], order[j])
  }

  predicate IsLeast(k: string, keys: set<string>) {
    k in keys && forall j :: j in keys && j != k ==> StrLess(k, j)
  }

  lemma {:induction false} LeastExists(keys: set<string>)
    requires keys != {}
    ensures exists k :: IsLeast(k, keys)
  {
    var k :| k in keys;
    var rest := keys - {k};
    if rest == {} {
      assert keys == {k};
      assert IsLeast(k, keys);
    } else {
      LeastExists(rest);
      var m :| IsLeast(m, rest);
      StrLessTotal(k, m);
      if StrLess(m, k) {
        assert IsLeast(m, keys);
      } else {
        forall j | j in keys && j != k && j != m
          ensures StrLess(k, j)
        {
          assert j in rest;
          StrLessTransitive(k, m, j);
        }
        assert IsLeast(k, keys);
      }
    }
  }

  ghost predicate Below(order: seq<string>, keys: set<string>) {
    forall i, u :: 0 <= i < |order| && u in keys ==> StrLess(order[i], u)
  }

  lemma AscendingSnoc(order: seq<string>, k: string, keys: set<string>)
    requires Ascending(order) && Below(order, keys) && IsLeast(k, keys)
    ensures Ascending(order + [k]) && Below(order + [k], keys - {k})
  {
  }

  /** `jbt_browse` with `dtok_browse`: the tree in `strcmp` order. */
  method PrintTree(m: TokenTable) returns (order: seq<string>, lines: seq<string>)
    ensures Enumerates(m, order) && Ascending(order)
    ensures lines == TokenLines(m, order)
  {
    order, lines := [], [];
    var left := m.Keys;
    while left != {}
      invariant left <= m.Keys
      invariant forall t :: t in order <==> t in m.Keys - left
      invariant Ascending(order) && Below(order, left)
      invariant lines == TokenLines(m, order)
      decreases |left|
    {
      LeastExists(left);
      var k :| k in left && IsLeast(k, left);
      TokenLinesSnoc(m, order, k);
      AscendingSnoc(order, k, left);
      order, lines := order + [k], lines + [TokenLine(k, m[k])];
      left := left - {k};
    }
    AscendingDistinct(order);
  }

  lemma AscendingDistinct(order: seq<string>)
    requires Ascending(order)
    ensures Distinct(order)
  {
    forall i, j | 0 <= i < j < |order|
      ensures order[i] != order[j]
    {
      StrLessIrreflexive(order[i]);
    }
  }

  lemma TokenLinesSnoc(m: TokenTable, order: seq<string>, k: string)
    requires k in m
    ensures TokenLines(m, order + [k]) == TokenLines(m, order) + [TokenLine(k, m[k])]
  {
    var g := LineOf(m);
    FlatMapAppend(g, order, [k]);
    assert FlatMap(g, [k]) == g(k) + FlatMap(g, [k][1..]);
  }

  // ----- grouping ------------------------------------------------------------

  /** `hash_label2code`. */
  function LabelCode(name: string): Crypt {
    if EqNoCase(name, "MD5") then MD5 else if EqNoCase(name, "SHA1") then SHA1 else Plain
  }

  predicate IsCrypt(buf: string) { HasPrefixNoCase(buf, "crypt:") }

  predicate IsToken(buf: string) { HasPrefixNoCase(buf, "token:") }

  function LineCode(buf: string): Crypt { LabelCode(SecondWord(buf)) }

  /** The key and the counts of a token line, unless it cannot be parsed. */
  function ParseToken(buf: string): Option<Entry>
    requires IsToken(buf)
    ensures ParseToken(buf).Some? ==> |ParseToken(buf).value.key| >= 6
  {
    var p := Spn(buf, NotSpace);
    assert p >= 6 by {
      SpnSpec(buf, NotSpace);
      assert forall i :: 0 <= i < 6 ==> LowerChar(buf[i]) == Lower("token:")[i];
    }
    if p == |buf| then None
    else
      match ScanInt(Skip(buf[p..], IsBlank))
      case None => None
      case Some(a) =>
        match ScanInt(a.1)
        case None => None
        case Some(b) => Some(Entry(buf[..p], Counts(a.0, b.0)))
  }

  /** The key a token is stored under: plain tokens are hashed when the output
      is, the others are taken as they are. */
  function KeyFor(digest: Digest, icli: Crypt, fcrypt: Crypt, key: string): string
    requires |key| >= 6
  {
    if icli != Plain && fcrypt == Plain then StrLCpy("TOKEN:" + digest(icli, key[6..]), TOKEN_SIZE)
    else StrLCpy(key, TOKEN_SIZE)
  }

  datatype GroupState = GroupState(table: TokenTable, icli: Crypt, fcrypt: Crypt)

  function Adopt(first: bool, icli: Crypt, code: Crypt): Crypt {
    if first && icli == Plain then code else icli
  }

  predicate Incompatible(icli: Crypt, code: Crypt) {
    icli != Plain && code != Plain && icli != code
  }

  /** What a line of a .tok file is to `group_token_files`. */
  datatype LineKind = SetCrypt(code: Crypt) | Token(e: Entry) | Other

  function Classify(line: string): (k: LineKind)
    ensures k.Token? ==> |k.e.key| >= 6
  {
    var buf := CutNewline(line);
    if IsCrypt(buf) then SetCrypt(LineCode(buf))
    else if IsToken(buf) then
      match ParseToken(buf) case None => Other case Some(e) => Token(e)
    else Other
  }

  /** The effect of one line; the flag says the file is abandoned. */
  function GroupKind(digest: Digest, first: bool, st: GroupState, k: LineKind): (GroupState, bool)
    requires k.Token? ==> |k.e.key| >= 6
  {
    match k
    case SetCrypt(code) =>
      var icli := Adopt(first, st.icli, code);
      (st.(icli := icli, fcrypt := code), Incompatible(icli, code))
    case Token(e) =>
      (st.(table := Add(st.table, Entry(KeyFor(digest, st.icli, st.fcrypt, e.key), e.n))), false)
    case Other => (st, false)
  }

  function GroupLine(digest: Digest, first: bool, st: GroupState, line: string): (GroupState, bool) {
    GroupKind(digest, first, st, Classify(line))
  }

  function GroupLines(digest: Digest, first: bool, st: GroupState, lines: seq<string>): GroupState
    decreases |lines|
  {
    if lines == [] then st
    else
      var (st1, stop) := GroupLine(digest, first, st, lines[0]);
      if stop then st1 else GroupLines(digest, first, st1, lines[1..])
  }

  /** The state after the first n files. */
  function GroupTexts(digest: Digest, icli: Crypt, texts: seq<string>, n: nat): GroupState
    requires n <= |texts|
  {
    if n == 0 then GroupState(map[], icli, Plain)
    else GroupLines(digest, n == 1, GroupTexts(digest, icli, texts, n - 1), Lines(texts[n - 1], LINE_SIZE))
  }

  function Group(digest: Digest, icli: Crypt, texts: seq<string>): GroupState {
    GroupTexts(digest, icli, texts, |texts|)
  }

  /** One line read by `group_token_files`. */
  method GroupOneLine(digest: Digest, first: bool, st: GroupState, line: string)
    returns (r: GroupState, stop: bool)
    ensures (r, stop) == GroupLine(digest, first, st, line)
  {
    var buf := CutNewline(line);
    r, stop := st, false;
    if IsCrypt(buf) {
      r := r.(fcrypt := LineCode(buf));
      if first {
        if r.icli == Plain && r.fcrypt != Plain { r := r.(icli := r.fcrypt); }
      }
      if r.icli != Plain && r.fcrypt != Plain && r.icli != r.fcrypt { return r, true; }
    } else if IsToken(buf) {
      match ParseToken(buf) {
        case None =>
        case Some(e) =>
          r := r.(table := Add(r.table, Entry(KeyFor(digest, r.icli, r.fcrypt, e.key), e.n)));
      }
    }
  }

  /** The `fgets` loop of `group_token_files` over one file. */
  method GroupOneFile(digest: Digest, first: bool, st: GroupState, text: string) returns (r: GroupState)
    ensures r == GroupLines(digest, first, st, Lines(text, 1024))
  {
    r := st;
    var rest, stop := text, false;
    while rest != "" && !stop
      invariant GroupLines(digest, first, st, Lines(text, LINE_SIZE)) ==
                if stop then r else GroupLines(digest, first, r, Lines(rest, LINE_SIZE))
      decreases |rest|
    {
      ghost var lines := Lines(rest, LINE_SIZE);
      var n := FGetsLen(rest, LINE_SIZE);
      var line := rest[..n];
      rest := rest[n..];
      assert lines[0] == line && lines[1..] == Lines(rest, LINE_SIZE);
      r, stop := GroupOneLine(digest, first, r, line);
    }
  }

  /** The reading loops of `group_token_files` over files that can be opened. */
  method GroupTokenFiles(digest: Digest, texts: seq<string>, cli: Crypt) returns (st: GroupState)
    ensures st == Group(digest, cli, texts)
  {
    st := GroupState(map[], cli, Plain);
    for i := 0 to |texts|
      invariant st == GroupTexts(digest, cli, texts, i)
    {
      st := GroupOneFile(digest, i == 0, st, texts[i]);
    }
  }
}
