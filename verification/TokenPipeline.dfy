/** Learn files to grouped table: printing and re-parsing .tok files loses
    nothing, so every key ends with its number of token lines. */
module TokenPipeline {
  import opened CText
  import opened Perm
  import opened Tokens
  import opened TokenAlgebra
  import opened TokenGrouping

  // ----- printed lines read back ---------------------------------------------

  predicate Printable(c: char) { NotSpace(c) && NotNewline(c) }

  lemma CutPrinted(body: string)
    requires All(body, NotNewline)
    ensures CutNewline(body + "\n") == body
  {
    SpnExact(body, "\n", NotNewline);
  }

  lemma PrintIntPlain(n: int)
    ensures PrintInt(n) != "" && All(PrintInt(n), Printable) && !IsWhite(PrintInt(n)[0])
    ensures -0x8000_0000 <= n < 0x8000_0000 ==> |PrintInt(n)| <= 11
  {
    var m := if n < 0 then -n else n;
    assert All(Decimal(m), IsDigit);
    assert IsDigit(Decimal(m)[0]);
    if -0x8000_0000 <= n < 0x8000_0000 {
      assert Pow10(5) == 100000;
      assert Pow10(10) == 100000 * Pow10(5);
      DecimalLength(m, 10);
    }
  }

  /** The blanks `%-40s` and one space put after a name. */
  function NameGap(name: string): (gap: string)
    ensures gap != "" && All(gap, IsSpace)
    ensures PadRight(name, 40) + " " == name + gap
  {
    assert Spaces(1) == " ";
    Gap(name, 40, 1)
  }

  lemma TokenPrefix(s: string)
    ensures IsToken("TOKEN:" + s) && !IsCrypt("TOKEN:" + s)
  {
    var t := "TOKEN:" + s;
    assert t[..6] == "TOKEN:";
    assert Lower("TOKEN:") == "token:" && Lower("token:") == "token:";
    assert Lower(t[..6])[0] == 't' && Lower("crypt:")[0] == 'c';
  }

  lemma CryptPrefix(s: string)
    ensures IsCrypt("CRYPT:" + s)
  {
    var t := "CRYPT:" + s;
    assert t[..6] == "CRYPT:";
    assert Lower("CRYPT:") == "crypt:" && Lower("crypt:") == "crypt:";
  }

  lemma ParseTokenBody(buf: string, key: string, gap: string, n: Counts)
    requires All(key, NotSpace) && gap != "" && All(gap, IsSpace)
    requires buf == key + (gap + Figures(n))
    requires IsToken(buf)
    ensures ParseToken(buf) == Some(Entry(key, n))
  {
    var last := " " + (PrintInt(n.h) + "");
    var nums := PrintInt(n.s) + last;
    PrintIntPlain(n.s);
    SpnExact(key, gap + nums, NotSpace);
    assert buf[..|key|] == key && buf[|key|..] == gap + nums;
    SpnExact(gap, nums, IsBlank);
    ScanPrint("", n.s, last);
    assert "" + nums == nums;
    ScanPrint(" ", n.h, "");
  }

  /** What stands after the key in a printed token line. */
  function TokenTail(token: string, n: Counts): string {
    NameGap(token) + Figures(n)
  }

  function Figures(n: Counts): string {
    PrintInt(n.s) + (" " + (PrintInt(n.h) + ""))
  }

  lemma LineShape(pad: string, token: string, gap: string, x: string, y: string)
    requires pad + " " == token + gap
    ensures "TOKEN:" + pad + " " + x + " " + y + "\n" == "TOKEN:" + (token + (gap + (x + (" " + (y + ""))))) + "\n"
  {
    assert "TOKEN:" + pad + " " == "TOKEN:" + (token + gap);
  }

  lemma TokenLineShape(token: string, n: Counts)
    ensures TokenLine(token, n) == "TOKEN:" + (token + TokenTail(token, n)) + "\n"
    ensures All(TokenTail(token, n), NotNewline)
  {
    LineShape(PadRight(token, 40), token, NameGap(token), PrintInt(n.s), PrintInt(n.h));
    PrintIntPlain(n.s);
    PrintIntPlain(n.h);
    assert All(Figures(n), NotNewline);
  }

  lemma ClassifyToken(line: string, buf: string, e: Entry)
    requires CutNewline(line) == buf && IsToken(buf) && !IsCrypt(buf) && ParseToken(buf) == Some(e)
    ensures Classify(line) == Token(e)
  {
  }

  lemma TokenBufParses(token: string, gap: string, n: Counts)
    requires All(token, Printable) && gap != "" && All(gap, IsSpace)
    ensures
      var buf := "TOKEN:" + (token + (gap + Figures(n)));
      IsToken(buf) && !IsCrypt(buf) && ParseToken(buf) == Some(Entry("TOKEN:" + token, n))
  {
    var key, tail := "TOKEN:" + token, gap + Figures(n);
    TokenPrefix(token + tail);
    TaggedNoSpace(token);
    Associate("TOKEN:", token, tail);
    ParseTokenBody("TOKEN:" + (token + tail), key, gap, n);
  }

  lemma Associate(a: string, b: string, c: string)
    ensures a + (b + c) == (a + b) + c
  {
  }

  lemma TaggedNoSpace(token: string)
    requires All(token, Printable)
    ensures All("TOKEN:" + token, NotSpace)
  {
  }

  lemma TokenLineCut(token: string, n: Counts)
    requires All(token, Printable)
    ensures CutNewline(TokenLine(token, n)) == "TOKEN:" + (token + TokenTail(token, n))
  {
    var body := "TOKEN:" + (token + TokenTail(token, n));
    TokenLineShape(token, n);
    assert All("TOKEN:", NotNewline) && All(token, NotNewline);
    CutPrinted(body);
  }

  /** A printed token line parses back to its token and counts. */
  lemma TokenLineReadsBack(token: string, n: Counts)
    requires All(token, Printable)
    ensures Classify(TokenLine(token, n)) == Token(Entry("TOKEN:" + token, n))
  {
    TokenLineCut(token, n);
    TokenBufParses(token, NameGap(token), n);
    ClassifyToken(TokenLine(token, n), "TOKEN:" + (token + TokenTail(token, n)), Entry("TOKEN:" + token, n));
  }

  lemma SecondWordIs(name: string, gap: string, w: string)
    requires All(name, NotBlank) && gap != "" && All(gap, IsBlank)
    requires w == "" || NotBlank(w[0])
    ensures SecondWord(name + (gap + w)) == w
  {
    SpnExact(name, gap + w, NotBlank);
    SpnExact(gap, w, IsBlank);
  }

  lemma CryptLineCut(fname: string, crypt: string)
    requires All(fname, NotNewline) && All(crypt, NotNewline)
    ensures CutNewline(CryptLine(fname, crypt)) == "CRYPT:" + (fname + (NameGap(fname) + crypt))
  {
    assert PadRight(fname, 40) + " " == fname + NameGap(fname);
    assert CryptLine(fname, crypt) == "CRYPT:" + (fname + (NameGap(fname) + crypt)) + "\n";
    CutPrinted("CRYPT:" + (fname + (NameGap(fname) + crypt)));
  }

  lemma SecondOfPadded(w: string, blanks: string, gap: string, crypt: string)
    requires All(w, NotBlank) && All(blanks, IsBlank) && gap != "" && All(gap, IsSpace)
    requires crypt == "" || NotBlank(crypt[0])
    ensures SecondWord("CRYPT:" + ((w + (blanks + "")) + (gap + crypt))) == crypt
  {
    assert "CRYPT:" + ((w + (blanks + "")) + (gap + crypt)) == ("CRYPT:" + w) + ((blanks + gap) + crypt);
    SecondWordIs("CRYPT:" + w, blanks + gap, crypt);
  }

  lemma SecondOfSplit(w: string, blanks: string, rest: string, tail: string)
    requires All(w, NotBlank) && blanks != "" && All(blanks, IsBlank) && rest != "" && NotBlank(rest[0])
    ensures SecondWord("CRYPT:" + ((w + (blanks + rest)) + tail)) == rest + tail
  {
    assert "CRYPT:" + ((w + (blanks + rest)) + tail) == ("CRYPT:" + w) + (blanks + (rest + tail));
    SecondWordIs("CRYPT:" + w, blanks, rest + tail);
  }

  /** What the second word of a crypt line is: the label, unless a blank inside
      the file name starts it earlier. */
  lemma CryptBufReads(fname: string, gap: string, crypt: string)
    requires gap != "" && All(gap, IsSpace) && (crypt == "" || NotBlank(crypt[0]))
    ensures
      var buf, rest := "CRYPT:" + (fname + (gap + crypt)), SecondWord(fname);
      IsCrypt(buf) && SecondWord(buf) == if rest == "" then crypt else rest + (gap + crypt)
  {
    var w, blanks := NameParts(fname);
    var rest := SecondWord(fname);
    CryptPrefix(fname + (gap + crypt));
    if rest == "" {
      SecondOfPadded(w, blanks, gap, crypt);
    } else {
      SecondOfSplit(w, blanks, rest, gap + crypt);
    }
  }

  lemma NameParts(fname: string) returns (w: string, blanks: string)
    ensures fname == w + (blanks + SecondWord(fname)) && All(w, NotBlank) && All(blanks, IsBlank)
    ensures SecondWord(fname) != "" ==> blanks != "" && NotBlank(SecondWord(fname)[0])
  {
    var t := Skip(fname, NotBlank);
    w, blanks := fname[..Spn(fname, NotBlank)], t[..Spn(t, IsBlank)];
    SpnSpec(fname, NotBlank);
    SpnSpec(t, IsBlank);
  }

  lemma SpacedIsPlain(s: string, i: nat)
    requires i < |s| && s[i] == ' '
    ensures LabelCode(s) == Plain
  {
    assert Lower(s)[i] == ' ';
    assert ' ' !in Lower("MD5") && ' ' !in Lower("SHA1");
  }

  lemma ClassifyCrypt(line: string, buf: string, name: string)
    requires CutNewline(line) == buf && IsCrypt(buf) && SecondWord(buf) == name
    ensures Classify(line) == SetCrypt(LabelCode(name))
  {
  }

  /** The code of the crypt line printed for a file: its label's, unless the file
      name has a blank with something after it, which makes the file plain. */
  function PrintedCode(fname: string, crypt: string): Crypt {
    if SecondWord(fname) == "" then LabelCode(crypt) else Plain
  }

  lemma CryptLineReadsBack(fname: string, crypt: string)
    requires All(fname, NotNewline) && All(crypt, NotNewline)
    requires crypt == "" || NotBlank(crypt[0])
    ensures Classify(CryptLine(fname, crypt)) == SetCrypt(PrintedCode(fname, crypt))
  {
    var gap, rest := NameGap(fname), SecondWord(fname);
    var buf := "CRYPT:" + (fname + (gap + crypt));
    CryptLineCut(fname, crypt);
    CryptBufReads(fname, gap, crypt);
    if rest == "" {
      ClassifyCrypt(CryptLine(fname, crypt), buf, crypt);
    } else {
      assert (rest + (gap + crypt))[|rest|] == ' ';
      SpacedIsPlain(rest + (gap + crypt), |rest|);
      ClassifyCrypt(CryptLine(fname, crypt), buf, rest + (gap + crypt));
    }
  }

  // ----- what a learn file can hold ------------------------------------------

  lemma {:induction false} FieldsPrintable(s: string)
    requires All(s, NotNewline)
    ensures forall i :: 0 <= i < |Fields(s)| ==> All(Fields(s)[i], Printable)
    decreases |s|
  {
    var t := Skip(s, IsSpace);
    assert All(t, NotNewline);
    SpnSpec(s, IsSpace);
    if t != "" {
      var n := Spn(t, NotSpace);
      SpnSpec(t, NotSpace);
      FieldsPrintable(t[n..]);
    }
  }

  predicate PrintableEntries(es: seq<Entry>) {
    forall i :: 0 <= i < |es| ==> All(es[i].key, Printable) && |es[i].key| < TOKEN_SIZE
  }

  lemma LearnEntryPrintable(line: string, multinomial: bool)
    requires WellFormedLine(line)
    ensures PrintableEntries(LearnEntries(line, multinomial))
  {
    var buf := CutNewline(line);
    SpnSpec(line, NotNewline);
    FieldsPrintable(buf);
    if IsLearnToken(buf) {
      var f := Fields(buf)[5];
      assert All(f, Printable);
      assert All(StrLCpy(f, TOKEN_SIZE), Printable);
    }
  }

  lemma {:induction false} LearnTokensPrintable(lines: seq<string>, multinomial: bool)
    requires WellFormedLines(lines)
    ensures PrintableEntries(AllLearnEntries(lines, multinomial))
  {
    if lines != [] {
      LearnEntryPrintable(lines[0], multinomial);
      LearnTokensPrintable(lines[1..], multinomial);
    }
  }

  lemma LearnLabelPlain(crypt: string, line: string)
    requires All(crypt, NotNewline) && (crypt == "" || NotBlank(crypt[0])) && |crypt| < CRYPT_SIZE
    ensures
      var r := LearnCrypt(crypt, line);
      All(r, NotNewline) && (r == "" || NotBlank(r[0])) && |r| < CRYPT_SIZE
  {
    var buf := CutNewline(line);
    SpnSpec(line, NotNewline);
    SpnSpec(Skip(buf, NotBlank), IsBlank);
  }

  lemma {:induction false} LearnCryptPlain(crypt: string, lines: seq<string>)
    requires All(crypt, NotNewline) && (crypt == "" || NotBlank(crypt[0])) && |crypt| < CRYPT_SIZE
    ensures
      var r := AllLearnCrypt(crypt, lines);
      All(r, NotNewline) && (r == "" || NotBlank(r[0])) && |r| < CRYPT_SIZE
    decreases |lines|
  {
    if lines != [] {
      LearnLabelPlain(crypt, lines[0]);
      LearnCryptPlain(LearnCrypt(crypt, lines[0]), lines[1..]);
    }
  }

  // ----- a whole .tok file ---------------------------------------------------

  /** A learn file and what `agregate_tokens` prints around its tokens: the
      lines before the crypt line, between it and the tokens, and after. */
  datatype LearnFile = LearnFile(
    name: string, text: string, head: seq<string>, mid: seq<string>, tail: seq<string>, order: seq<string>)

  predicate Inert(lines: seq<string>) {
    forall l :: l in lines ==> WholeLine(l, LINE_SIZE) && Classify(l) == Other
  }

  predicate FitsInt(n: int) { -0x8000_0000 <= n < 0x8000_0000 }

  function Learned(f: LearnFile, multinomial: bool): seq<Entry>
    requires WellFormedLines(Lines(f.text, LINE_SIZE))
  {
    AllLearnEntries(Lines(f.text, LINE_SIZE), multinomial)
  }

  function Tree(f: LearnFile, multinomial: bool): TokenTable
    requires WellFormedLines(Lines(f.text, LINE_SIZE))
  {
    AddAll(map[], Learned(f, multinomial))
  }

  function Code(f: LearnFile): Crypt {
    PrintedCode(f.name, AllLearnCrypt("", Lines(f.text, LINE_SIZE)))
  }

  /** A well-formed learn file, printed in some order of its tokens, with counts
      that are C integers. */
  ghost predicate Good(f: LearnFile, multinomial: bool) {
    && WellFormedLines(Lines(f.text, LINE_SIZE))
    && All(f.name, NotNewline) && |f.name| <= 1000
    && Inert(f.head) && Inert(f.mid) && Inert(f.tail)
    && Enumerates(Tree(f, multinomial), f.order)
    && forall t :: t in f.order ==> FitsInt(Tree(f, multinomial)[t].s) && FitsInt(Tree(f, multinomial)[t].h)
  }

  function Printed(f: LearnFile, multinomial: bool): seq<string>
    requires WellFormedLines(Lines(f.text, LINE_SIZE))
    requires forall t :: t in f.order ==> t in Tree(f, multinomial)
  {
    f.head + [CryptLine(f.name, AllLearnCrypt("", Lines(f.text, LINE_SIZE)))]
    + (f.mid + TokenLines(Tree(f, multinomial), f.order) + f.tail)
  }

  lemma {:induction false} TokenLinesWhole(m: TokenTable, order: seq<string>)
    requires forall t :: t in order ==>
               t in m && |t| < TOKEN_SIZE && All(t, Printable) && FitsInt(m[t].s) && FitsInt(m[t].h)
    ensures WholeLines(TokenLines(m, order), LINE_SIZE)
  {
    if order != [] {
      TokenLineWhole(order[0], m[order[0]]);
      TokenLinesWhole(m, order[1..]);
    }
  }

  lemma TokenLineWhole(t: string, n: Counts)
    requires |t| < TOKEN_SIZE && All(t, Printable) && FitsInt(n.s) && FitsInt(n.h)
    ensures WholeLine(TokenLine(t, n), LINE_SIZE)
  {
    TokenLineShape(t, n);
    PrintIntPlain(n.s);
    PrintIntPlain(n.h);
    var l, body := TokenLine(t, n), "TOKEN:" + (t + TokenTail(t, n));
    assert |NameGap(t)| <= 41;
    assert l[..|l| - 1] == body;
    assert All(body, NotNewline);
  }

  lemma CryptLineWhole(fname: string, crypt: string)
    requires All(fname, NotNewline) && All(crypt, NotNewline) && |fname| <= 1000 && |crypt| < CRYPT_SIZE
    ensures WholeLine(CryptLine(fname, crypt), LINE_SIZE)
  {
    var l := CryptLine(fname, crypt);
    assert l[..|l| - 1] == "CRYPT:" + PadRight(fname, 40) + " " + crypt;
  }

  lemma TreeTokens(f: LearnFile, multinomial: bool)
    requires Good(f, multinomial)
    ensures forall t :: t in f.order ==> All(t, Printable) && |t| < TOKEN_SIZE
  {
    LearnTokensPrintable(Lines(f.text, LINE_SIZE), multinomial);
    forall t | t in f.order
      ensures All(t, Printable) && |t| < TOKEN_SIZE
    {
      AddAllIs(map[], Learned(f, multinomial), t, true);
    }
  }

  lemma WholeTogether(head: seq<string>, line: string, mid: seq<string>, toks: seq<string>, tail: seq<string>)
    requires Inert(head) && Inert(mid) && Inert(tail) && WholeLine(line, LINE_SIZE) && WholeLines(toks, LINE_SIZE)
    ensures WholeLines(head + [line] + (mid + toks + tail), LINE_SIZE)
  {
  }

  lemma PrintedWhole(f: LearnFile, multinomial: bool)
    requires Good(f, multinomial)
    ensures WholeLines(Printed(f, multinomial), LINE_SIZE)
  {
    TreeTokens(f, multinomial);
    TokenLinesWhole(Tree(f, multinomial), f.order);
    LearnCryptPlain("", Lines(f.text, LINE_SIZE));
    CryptLineWhole(f.name, AllLearnCrypt("", Lines(f.text, LINE_SIZE)));
    WholeTogether(f.head, CryptLine(f.name, AllLearnCrypt("", Lines(f.text, LINE_SIZE))), f.mid,
                  TokenLines(Tree(f, multinomial), f.order), f.tail);
  }

  // ----- the kinds of its lines ----------------------------------------------

  predicate AllOther(kinds: seq<Kind>) {
    forall i :: 0 <= i < |kinds| ==> kinds[i].Other?
  }

  predicate NoCrypt(kinds: seq<Kind>) {
    forall i :: 0 <= i < |kinds| ==> !kinds[i].SetCrypt?
  }

  lemma {:induction false} InertKinds(lines: seq<string>)
    requires Inert(lines)
    ensures AllOther(Kinds(lines))
  {
    if lines != [] { InertKinds(lines[1..]); }
  }

  lemma {:induction false} TokensOfAppend(a: seq<Kind>, b: seq<Kind>)
    ensures TokensOf(a + b) == TokensOf(a) + TokensOf(b)
  {
    if a == [] {
      assert a + b == b;
    } else {
      assert (a + b)[1..] == a[1..] + b;
      TokensOfAppend(a[1..], b);
    }
  }

  lemma {:induction false} OtherTokens(kinds: seq<Kind>)
    requires AllOther(kinds)
    ensures TokensOf(kinds) == []
  {
    if kinds != [] { OtherTokens(kinds[1..]); }
  }

  lemma {:induction false} CryptLeads(a: seq<Kind>, code: Crypt, b: seq<Kind>)
    requires AllOther(a) && NoCrypt(b)
    ensures Uniform(a + [SetCrypt(code)] + b, code)
    ensures TokensOf(a + [SetCrypt(code)] + b) == TokensOf(b)
    decreases |a|
  {
    var c: Kind := SetCrypt(code);
    var kinds := a + [c] + b;
    assert kinds[|a|] == c;
    TokensOfAppend(a + [c], b);
    TokensOfAppend(a, [c]);
    OtherTokens(a);
    assert TokensOf([c]) == [] + TokensOf([c][1..]);
    if a != [] {
      CryptLeads(a[1..], code, b);
      assert kinds[1..] == a[1..] + [c] + b;
    }
  }

  function TagToken(): string -> string {
    (t: string) => "TOKEN:" + t
  }

  lemma {:induction false} TokenLinesFlat(g: string -> seq<Kind>, m: TokenTable, order: seq<string>)
    requires forall t :: t in order ==> t in m && g(TokenLine(t, m[t])) == [Token(Entry("TOKEN:" + t, m[t]))]
    ensures NoCrypt(FlatMap(g, TokenLines(m, order)))
    ensures TokensOf(FlatMap(g, TokenLines(m, order))) == Rekey(TableEntries(m, order), TagToken())
  {
    if order != [] {
      TokenLinesFlat(g, m, order[1..]);
      TableEntriesCons(m, order);
      var ks := FlatMap(g, TokenLines(m, order));
      assert TokenLines(m, order)[1..] == TokenLines(m, order[1..]);
      assert order[0] in order;
      assert ks[1..] == FlatMap(g, TokenLines(m, order[1..]));
    }
  }

  lemma TokenLinesKinds(m: TokenTable, order: seq<string>)
    requires forall t :: t in order ==> t in m && All(t, Printable)
    ensures NoCrypt(Kinds(TokenLines(m, order)))
    ensures TokensOf(Kinds(TokenLines(m, order))) == Rekey(TableEntries(m, order), TagToken())
  {
    forall t | t in order
      ensures Classifier()(TokenLine(t, m[t])) == [Token(Entry("TOKEN:" + t, m[t]))]
    {
      TokenLineReadsBack(t, m[t]);
    }
    TokenLinesFlat(Classifier(), m, order);
  }

  lemma TableEntriesCons(m: TokenTable, order: seq<string>)
    requires order != [] && forall t :: t in order ==> t in m
    ensures Rekey(TableEntries(m, order), TagToken()) ==
            [Entry("TOKEN:" + order[0], m[order[0]])] + Rekey(TableEntries(m, order[1..]), TagToken())
  {
  }

  /** A printed file is uniform and its tokens are its tree's. */
  lemma PrintedKinds(f: LearnFile, multinomial: bool)
    requires Good(f, multinomial)
    ensures Uniform(Kinds(Printed(f, multinomial)), Code(f))
    ensures TokensOf(Kinds(Printed(f, multinomial))) ==
            Rekey(TableEntries(Tree(f, multinomial), f.order), TagToken())
  {
    var toks := TokenLines(Tree(f, multinomial), f.order);
    var crypt := AllLearnCrypt("", Lines(f.text, LINE_SIZE));
    TreeTokens(f, multinomial);
    LearnCryptPlain("", Lines(f.text, LINE_SIZE));
    CryptLineReadsBack(f.name, crypt);
    TokenLinesKinds(Tree(f, multinomial), f.order);
    InertKinds(f.head);
    InertKinds(f.mid);
    InertKinds(f.tail);
    FileKinds(f.head, CryptLine(f.name, crypt), f.mid, toks, f.tail);
    BodyTokens(Kinds(f.mid), Kinds(toks), Kinds(f.tail));
    CryptLeads(Kinds(f.head), Code(f), Kinds(f.mid) + Kinds(toks) + Kinds(f.tail));
  }

  lemma FlatFile<T, U>(g: T -> seq<U>, head: seq<T>, line: T, mid: seq<T>, toks: seq<T>, tail: seq<T>)
    ensures FlatMap(g, head + [line] + (mid + toks + tail)) ==
            FlatMap(g, head) + g(line) + (FlatMap(g, mid) + FlatMap(g, toks) + FlatMap(g, tail))
  {
    FlatMapAppend(g, head + [line], mid + toks + tail);
    FlatMapAppend(g, head, [line]);
    FlatMapAppend(g, mid + toks, tail);
    FlatMapAppend(g, mid, toks);
    assert FlatMap(g, [line]) == g(line) + FlatMap(g, [line][1..]);
  }

  lemma FileKinds(head: seq<string>, line: string, mid: seq<string>, toks: seq<string>, tail: seq<string>)
    ensures Kinds(head + [line] + (mid + toks + tail)) ==
            Kinds(head) + [Classify(line)] + (Kinds(mid) + Kinds(toks) + Kinds(tail))
  {
    FlatFile(Classifier(), head, line, mid, toks, tail);
  }

  lemma BodyTokens(mid: seq<Kind>, toks: seq<Kind>, tail: seq<Kind>)
    requires AllOther(mid) && AllOther(tail) && NoCrypt(toks)
    ensures NoCrypt(mid + toks + tail) && TokensOf(mid + toks + tail) == TokensOf(toks)
  {
    TokensOfAppend(mid + toks, tail);
    TokensOfAppend(mid, toks);
    OtherTokens(mid);
    OtherTokens(tail);
  }

  // ----- end to end ----------------------------------------------------------

  /** The key a learnt token ends under. */
  function FinalKey(digest: Digest, icli: Crypt, code: Crypt): string -> string {
    (t: string) => Storage(digest, icli, code)("TOKEN:" + t)
  }

  /** What a learn file should add to the grouped table: its token lines under
      their final keys, unless it is hashed otherwise than the output. */
  function Expected(digest: Digest, icli: Crypt, f: LearnFile, multinomial: bool): seq<Entry>
    requires WellFormedLines(Lines(f.text, LINE_SIZE))
  {
    if Incompatible(icli, Code(f)) then [] else Rekey(Learned(f, multinomial), FinalKey(digest, icli, Code(f)))
  }

  lemma RekeyTwice(es: seq<Entry>, digest: Digest, icli: Crypt, code: Crypt)
    ensures Rekey(Rekey(es, TagToken()), Storage(digest, icli, code)) == Rekey(es, FinalKey(digest, icli, code))
  {
  }

  lemma ListedIsLearned(digest: Digest, icli: Crypt, f: LearnFile, multinomial: bool, target: TokenTable)
    requires Good(f, multinomial)
    ensures
      var listed := Rekey(TableEntries(Tree(f, multinomial), f.order), TagToken());
      AddAll(target, FileEntries(digest, icli, Code(f), listed)) ==
      AddAll(target, Expected(digest, icli, f, multinomial))
  {
    RekeyTwice(TableEntries(Tree(f, multinomial), f.order), digest, icli, Code(f));
    Reaggregate(Learned(f, multinomial), f.order, FinalKey(digest, icli, Code(f)), target);
  }

  /** Grouping one printed file adds what was learnt. */
  lemma PrintedAdds(digest: Digest, first: bool, st: GroupState, f: LearnFile, multinomial: bool)
    requires Good(f, multinomial)
    ensures
      var r := GroupLines(digest, first, st, Lines(Concat(Printed(f, multinomial)), LINE_SIZE));
      var icli := Adopt(first, st.icli, Code(f));
      r.icli == icli && r.table == AddAll(st.table, Expected(digest, icli, f, multinomial))
  {
    var lines := Printed(f, multinomial);
    PrintedWhole(f, multinomial);
    LinesOfConcat(lines, LINE_SIZE);
    GroupLinesSeesKinds(digest, first, st, lines);
    PrintedKinds(f, multinomial);
    UniformFile(digest, first, st, Code(f), Kinds(lines));
    ListedIsLearned(digest, Adopt(first, st.icli, Code(f)), f, multinomial, st.table);
  }

  /** The texts are what aggregating well-formed learn files prints. */
  ghost predicate ArePrinted(texts: seq<string>, files: seq<LearnFile>, multinomial: bool) {
    |texts| == |files| &&
    forall i :: 0 <= i < |files| ==> IsPrinted(texts[i], files[i], multinomial)
  }

  ghost predicate IsPrinted(text: string, f: LearnFile, multinomial: bool) {
    Good(f, multinomial) && text == Concat(Printed(f, multinomial))
  }

  /** What file k should add under an output encoding. */
  function ExpectedAt(digest: Digest, files: seq<LearnFile>, multinomial: bool): (Crypt, nat) -> seq<Entry> {
    (icli: Crypt, k: nat) =>
      if k < |files| && WellFormedLines(Lines(files[k].text, LINE_SIZE))
      then Expected(digest, icli, files[k], multinomial) else []
  }

  function CodeAt(files: seq<LearnFile>): nat -> Crypt {
    (k: nat) => if k < |files| then Code(files[k]) else Plain
  }

  function StateAfter(digest: Digest, icli: Crypt, texts: seq<string>): nat -> GroupState {
    (n: nat) => if n <= |texts| then GroupTexts(digest, icli, texts, n) else GroupState(map[], icli, Plain)
  }

  /** A run in which file k sets the encoding as `group_token_files` does and
      then adds `es(encoding, k)`. */
  ghost predicate Adds(states: nat -> GroupState, code: nat -> Crypt, es: (Crypt, nat) -> seq<Entry>, k: nat) {
    states(k + 1).icli == Adopt(k == 0, states(k).icli, code(k)) &&
    states(k + 1).table == AddAll(states(k).table, es(states(k + 1).icli, k))
  }

  /** The encoding a run ends with: the command line's, or else the first file's. */
  function FinalCode(icli: Crypt, code: nat -> Crypt, n: nat): Crypt {
    if n == 0 then icli else Adopt(true, icli, code(0))
  }

  lemma {:induction false} RunCode(states: nat -> GroupState, code: nat -> Crypt, es: (Crypt, nat) -> seq<Entry>, n: nat)
    requires forall k: nat :: k < n ==> Adds(states, code, es, k)
    ensures states(n).icli == FinalCode(states(0).icli, code, n)
  {
    if n > 0 {
      RunCode(states, code, es, n - 1);
      assert Adds(states, code, es, n - 1);
    }
  }

  lemma {:induction false} AddPieces(trace: nat -> TokenTable, h: nat -> seq<Entry>, n: nat)
    requires forall k: nat :: k < n ==> trace(k + 1) == AddAll(trace(k), h(k))
    ensures trace(n) == AddAll(trace(0), Pieces(h, n))
  {
    if n > 0 {
      AddPieces(trace, h, n - 1);
      FoldAppend(Add, trace(0), Pieces(h, n - 1), h(n - 1));
      assert trace(n - 1 + 1) == AddAll(trace(n - 1), h(n - 1));
    }
  }

  function Under(es: (Crypt, nat) -> seq<Entry>, icli: Crypt): nat -> seq<Entry> {
    (k: nat) => es(icli, k)
  }

  lemma RunStep(states: nat -> GroupState, code: nat -> Crypt, es: (Crypt, nat) -> seq<Entry>, n: nat, k: nat)
    requires k < n && forall j: nat :: j < n ==> Adds(states, code, es, j)
    ensures states(k + 1).table == AddAll(states(k).table, es(FinalCode(states(0).icli, code, n), k))
  {
    RunCode(states, code, es, k + 1);
    assert Adds(states, code, es, k);
  }

  function Tables(states: nat -> GroupState): nat -> TokenTable {
    (k: nat) => states(k).table
  }

  lemma RunTable(states: nat -> GroupState, code: nat -> Crypt, es: (Crypt, nat) -> seq<Entry>, n: nat)
    requires forall k: nat :: k < n ==> Adds(states, code, es, k)
    ensures states(n).table == AddAll(states(0).table, Pieces(Under(es, FinalCode(states(0).icli, code, n)), n))
  {
    forall k: nat | k < n { RunStep(states, code, es, n, k); }
    AddPieces(Tables(states), Under(es, FinalCode(states(0).icli, code, n)), n);
  }

  lemma StateStep(digest: Digest, icli: Crypt, texts: seq<string>, k: nat)
    requires k < |texts|
    ensures StateAfter(digest, icli, texts)(k + 1) ==
            GroupLines(digest, k == 0, StateAfter(digest, icli, texts)(k), Lines(texts[k], LINE_SIZE))
  {
  }

  lemma TextAdds(digest: Digest, first: bool, st: GroupState, files: seq<LearnFile>, text: string, multinomial: bool, k: nat)
    requires k < |files| && IsPrinted(text, files[k], multinomial)
    ensures
      var r := GroupLines(digest, first, st, Lines(text, LINE_SIZE));
      r.icli == Adopt(first, st.icli, CodeAt(files)(k)) &&
      r.table == AddAll(st.table, ExpectedAt(digest, files, multinomial)(r.icli, k))
  {
    PrintedAdds(digest, first, st, files[k], multinomial);
  }

  lemma PipelineStep(digest: Digest, icli: Crypt, files: seq<LearnFile>, texts: seq<string>, multinomial: bool, k: nat)
    requires |texts| == |files| && k < |files| && IsPrinted(texts[k], files[k], multinomial)
    ensures Adds(StateAfter(digest, icli, texts), CodeAt(files), ExpectedAt(digest, files, multinomial), k)
  {
    StateStep(digest, icli, texts, k);
    TextAdds(digest, k == 0, StateAfter(digest, icli, texts)(k), files, texts[k], multinomial, k);
  }

  function OutputCode(icli: Crypt, files: seq<LearnFile>): Crypt {
    FinalCode(icli, CodeAt(files), |files|)
  }

  /** Aggregating, printing, re-parsing and grouping learn files builds the table
      of all their token lines, whatever the order tokens were printed in. */
  lemma PipelineTable(digest: Digest, icli: Crypt, files: seq<LearnFile>, texts: seq<string>, multinomial: bool)
    requires ArePrinted(texts, files, multinomial)
    ensures
      var h := Under(ExpectedAt(digest, files, multinomial), OutputCode(icli, files));
      Group(digest, icli, texts).table == AddAll(map[], Pieces(h, |files|))
  {
    forall k: nat | k < |files|
      ensures Adds(StateAfter(digest, icli, texts), CodeAt(files), ExpectedAt(digest, files, multinomial), k)
    {
      PipelineStep(digest, icli, files, texts, multinomial, k);
    }
    RunTable(StateAfter(digest, icli, texts), CodeAt(files), ExpectedAt(digest, files, multinomial), |files|);
  }

  // ----- counting lines ------------------------------------------------------

  /** A token line, tagged spam or ham as asked, whose token ends under `key`. */
  predicate CountsFor(line: string, f: string -> string, key: string, spam: bool)
    requires WellFormedLine(line)
  {
    var buf := CutNewline(line);
    IsLearnToken(buf) && EqNoCase(Fields(buf)[3], "s") == spam && f(StrLCpy(Fields(buf)[5], TOKEN_SIZE)) == key
  }

  function LineCount(lines: seq<string>, f: string -> string, key: string, spam: bool): nat
    requires WellFormedLines(lines)
  {
    if lines == [] then 0
    else (if CountsFor(lines[0], f, key, spam) then 1 else 0) + LineCount(lines[1..], f, key, spam)
  }

  lemma LineTally(line: string, f: string -> string, key: string, spam: bool)
    requires WellFormedLine(line)
    ensures
      var es := Rekey(LearnEntries(line, false), f);
      Tally(es, key, spam) == (if CountsFor(line, f, key, spam) then 1 else 0) &&
      (HasKey(es, key) <==> CountsFor(line, f, key, true) || CountsFor(line, f, key, false))
  {
    var es := Rekey(LearnEntries(line, false), f);
    if es != [] { assert Tally(es, key, spam) == Share(es[0], key, spam) + Tally(es[1..], key, spam); }
  }

  lemma {:induction false} TallyAppend(a: seq<Entry>, b: seq<Entry>, key: string, spam: bool)
    ensures Tally(a + b, key, spam) == Tally(a, key, spam) + Tally(b, key, spam)
  {
    if a == [] {
      assert a + b == b;
    } else {
      assert (a + b)[1..] == a[1..] + b;
      TallyAppend(a[1..], b, key, spam);
    }
  }

  lemma HasKeyAppend(a: seq<Entry>, b: seq<Entry>, key: string)
    ensures HasKey(a + b, key) <==> HasKey(a, key) || HasKey(b, key)
  {
    assert forall i :: 0 <= i < |a| ==> (a + b)[i] == a[i];
    assert forall i :: 0 <= i < |b| ==> (a + b)[|a| + i] == b[i];
  }

  lemma RekeyAppend(a: seq<Entry>, b: seq<Entry>, f: string -> string)
    ensures Rekey(a + b, f) == Rekey(a, f) + Rekey(b, f)
  {
  }

  lemma {:induction false} TallyIsLineCount(lines: seq<string>, f: string -> string, key: string, spam: bool)
    requires WellFormedLines(lines)
    ensures
      var es := Rekey(AllLearnEntries(lines, false), f);
      Tally(es, key, spam) == LineCount(lines, f, key, spam) &&
      (HasKey(es, key) <==> LineCount(lines, f, key, true) + LineCount(lines, f, key, false) > 0)
  {
    if lines != [] {
      var a, b := LearnEntries(lines[0], false), AllLearnEntries(lines[1..], false);
      LineTally(lines[0], f, key, spam);
      TallyIsLineCount(lines[1..], f, key, spam);
      RekeyAppend(a, b, f);
      TallyAppend(Rekey(a, f), Rekey(b, f), key, spam);
      HasKeyAppend(Rekey(a, f), Rekey(b, f), key);
    }
  }

  function SumTo(c: nat -> nat, n: nat): nat {
    if n == 0 then 0 else SumTo(c, n - 1) + c(n - 1)
  }

  /** The token lines of file k that end under `key`; none when the file is
      hashed otherwise than the output. */
  function LinesAt(digest: Digest, icli: Crypt, files: seq<LearnFile>, key: string, spam: bool): nat -> nat {
    (k: nat) =>
      if k < |files| && WellFormedLines(Lines(files[k].text, LINE_SIZE)) && !Incompatible(icli, Code(files[k]))
      then LineCount(Lines(files[k].text, LINE_SIZE), FinalKey(digest, icli, Code(files[k])), key, spam) else 0
  }

  function TotalLines(digest: Digest, icli: Crypt, files: seq<LearnFile>, key: string, spam: bool): nat {
    SumTo(LinesAt(digest, icli, files, key, spam), |files|)
  }

  lemma ExpectedCounts(digest: Digest, icli: Crypt, f: LearnFile, key: string, spam: bool)
    requires WellFormedLines(Lines(f.text, LINE_SIZE))
    ensures
      var es, k := Expected(digest, icli, f, false), FinalKey(digest, icli, Code(f));
      var lines := Lines(f.text, LINE_SIZE);
      if Incompatible(icli, Code(f)) then es == []
      else Tally(es, key, spam) == LineCount(lines, k, key, spam) &&
           (HasKey(es, key) <==> LineCount(lines, k, key, true) + LineCount(lines, k, key, false) > 0)
  {
    TallyIsLineCount(Lines(f.text, LINE_SIZE), FinalKey(digest, icli, Code(f)), key, spam);
  }

  lemma FileCounts(digest: Digest, icli: Crypt, files: seq<LearnFile>, key: string, spam: bool, k: nat)
    requires k < |files| && WellFormedLines(Lines(files[k].text, LINE_SIZE))
    ensures
      var es := ExpectedAt(digest, files, false)(icli, k);
      Tally(es, key, spam) == LinesAt(digest, icli, files, key, spam)(k) &&
      (HasKey(es, key) <==>
         LinesAt(digest, icli, files, key, true)(k) + LinesAt(digest, icli, files, key, false)(k) > 0)
  {
    ExpectedCounts(digest, icli, files[k], key, spam);
  }

  lemma {:induction false} PiecesCounts(
    h: nat -> seq<Entry>, spams: nat -> nat, hams: nat -> nat, key: string, spam: bool, n: nat)
    requires forall k: nat :: k < n ==> Tally(h(k), key, spam) == if spam then spams(k) else hams(k)
    requires forall k: nat :: k < n ==> (HasKey(h(k), key) <==> spams(k) + hams(k) > 0)
    ensures Tally(Pieces(h, n), key, spam) == if spam then SumTo(spams, n) else SumTo(hams, n)
    ensures HasKey(Pieces(h, n), key) <==> SumTo(spams, n) + SumTo(hams, n) > 0
  {
    if n > 0 {
      PiecesCounts(h, spams, hams, key, spam, n - 1);
      TallyAppend(Pieces(h, n - 1), h(n - 1), key, spam);
      HasKeyAppend(Pieces(h, n - 1), h(n - 1), key);
    }
  }

  /** Every key of the grouped table ends with exactly its number of spam-tagged
      and ham-tagged token lines over all learn files, and a key is in the table
      if and only if it has one. */
  lemma EndToEndCounts(digest: Digest, icli: Crypt, files: seq<LearnFile>, texts: seq<string>, key: string, spam: bool)
    requires ArePrinted(texts, files, false)
    ensures
      var table, out := Group(digest, icli, texts).table, OutputCode(icli, files);
      Lookup(table, key, spam) == TotalLines(digest, out, files, key, spam) &&
      (key in table <==> TotalLines(digest, out, files, key, true) + TotalLines(digest, out, files, key, false) > 0)
  {
    var out := OutputCode(icli, files);
    var h := Under(ExpectedAt(digest, files, false), out);
    forall k: nat | k < |files|
      ensures Tally(h(k), key, spam) == LinesAt(digest, out, files, key, spam)(k)
      ensures HasKey(h(k), key) <==>
              LinesAt(digest, out, files, key, true)(k) + LinesAt(digest, out, files, key, false)(k) > 0
    {
      assert IsPrinted(texts[k], files[k], false);
      FileCounts(digest, out, files, key, spam, k);
    }
    PipelineTable(digest, icli, files, texts, false);
    AddAllIs(map[], Pieces(h, |files|), key, spam);
    PiecesCounts(h, LinesAt(digest, out, files, key, true), LinesAt(digest, out, files, key, false),
                 key, spam, |files|);
  }
}
