/** The counts of a token, as opposed to those of a key: a key holds 127
    characters, "TOKEN:" included, so longer tokens can share one. */
module TokenCounts {
  import opened CText
  import opened Perm
  import opened Tokens
  import opened TokenAlgebra
  import opened TokenGrouping
  import opened TokenPipeline

  /** How many characters of a token a key keeps. */
  const KEPT := 121

  /** The key of a token stored as it is. */
  function TokenKey(t: string): string { StrLCpy("TOKEN:" + t, TOKEN_SIZE) }

  /** Two tokens that end under one key. */
  predicate Merges(t: string, u: string) {
    t != u && |t| >= KEPT && |u| >= KEPT && t[..KEPT] == u[..KEPT]
  }

  lemma TokenKeyIs(t: string)
    ensures TokenKey(t) == "TOKEN:" + if |t| <= KEPT then t else t[..KEPT]
  {
    if |t| > KEPT { assert ("TOKEN:" + t)[..TOKEN_SIZE - 1] == "TOKEN:" + t[..KEPT]; }
  }

  lemma TagCancels(a: string, b: string)
    requires "TOKEN:" + a == "TOKEN:" + b
    ensures a == b
  {
    assert ("TOKEN:" + a)[6..] == a && ("TOKEN:" + b)[6..] == b;
  }

  /** Two tokens share a key if and only if they are the same or agree on their
      first 121 characters. */
  lemma MergesIff(t: string, u: string)
    ensures TokenKey(t) == TokenKey(u) <==> t == u || Merges(t, u)
  {
    var a, b := if |t| <= KEPT then t else t[..KEPT], if |u| <= KEPT then u else u[..KEPT];
    TokenKeyIs(t);
    TokenKeyIs(u);
    if TokenKey(t) == TokenKey(u) { TagCancels(a, b); }
    assert |t| == KEPT ==> t[..KEPT] == t;
    assert |u| == KEPT ==> u[..KEPT] == u;
  }

  // ----- counting the lines of a token ---------------------------------------

  /** A token line, tagged as asked, whose token satisfies p. */
  predicate Selects(line: string, p: string -> bool, spam: bool)
    requires WellFormedLine(line)
  {
    var buf := CutNewline(line);
    IsLearnToken(buf) && EqNoCase(Fields(buf)[3], "s") == spam && p(StrLCpy(Fields(buf)[5], TOKEN_SIZE))
  }

  function LinesOf(lines: seq<string>, p: string -> bool, spam: bool): nat
    requires WellFormedLines(lines)
  {
    if lines == [] then 0 else (if Selects(lines[0], p, spam) then 1 else 0) + LinesOf(lines[1..], p, spam)
  }

  function Is(t: string): string -> bool { (u: string) => u == t }

  function Rival(t: string): string -> bool { (u: string) => Merges(t, u) }

  /** The lines under a token's key are its own and its rivals'. */
  lemma {:induction false} LineCountSplits(lines: seq<string>, f: string -> string, t: string, spam: bool)
    requires WellFormedLines(lines) && forall u :: f(u) == TokenKey(u)
    ensures LineCount(lines, f, TokenKey(t), spam) == LinesOf(lines, Is(t), spam) + LinesOf(lines, Rival(t), spam)
  {
    if lines != [] {
      LineCountSplits(lines[1..], f, t, spam);
      LineSplits(lines[0], f, t, spam);
    }
  }

  lemma LineSplits(line: string, f: string -> string, t: string, spam: bool)
    requires WellFormedLine(line) && forall u :: f(u) == TokenKey(u)
    ensures CountsFor(line, f, TokenKey(t), spam) <==> Selects(line, Is(t), spam) || Selects(line, Rival(t), spam)
    ensures !(Selects(line, Is(t), spam) && Selects(line, Rival(t), spam))
  {
    var buf := CutNewline(line);
    if IsLearnToken(buf) { MergesIff(t, StrLCpy(Fields(buf)[5], TOKEN_SIZE)); }
  }

  /** The lines of file k whose token satisfies p; none when the file is hashed
      otherwise than the output. */
  function FileLines(out: Crypt, files: seq<LearnFile>, p: string -> bool, spam: bool): nat -> nat {
    (k: nat) =>
      if k < |files| && WellFormedLines(Lines(files[k].text, LINE_SIZE)) && !Incompatible(out, Code(files[k]))
      then LinesOf(Lines(files[k].text, LINE_SIZE), p, spam) else 0
  }

  function TotalOf(out: Crypt, files: seq<LearnFile>, p: string -> bool, spam: bool): nat {
    SumTo(FileLines(out, files, p, spam), |files|)
  }

  /** No file's tokens are hashed on the way: the output is plain, or the files
      are hashed already. */
  predicate NoneHashed(out: Crypt, files: seq<LearnFile>) {
    out == Plain || forall k :: 0 <= k < |files| ==> Code(files[k]) != Plain
  }

  lemma StoredKey(digest: Digest, out: Crypt, code: Crypt, u: string)
    requires out == Plain || code != Plain
    ensures FinalKey(digest, out, code)(u) == TokenKey(u)
  {
    var key := "TOKEN:" + u;
    assert |key| >= 6;
    assert Storage(digest, out, code)(key) == KeyFor(digest, out, code, key);
  }

  lemma FileSplits(digest: Digest, out: Crypt, files: seq<LearnFile>, t: string, spam: bool, k: nat)
    requires k < |files| && NoneHashed(out, files)
    ensures LinesAt(digest, out, files, TokenKey(t), spam)(k) ==
            FileLines(out, files, Is(t), spam)(k) + FileLines(out, files, Rival(t), spam)(k)
  {
    var f := FinalKey(digest, out, Code(files[k]));
    forall u ensures f(u) == TokenKey(u) { StoredKey(digest, out, Code(files[k]), u); }
    if WellFormedLines(Lines(files[k].text, LINE_SIZE)) {
      LineCountSplits(Lines(files[k].text, LINE_SIZE), f, t, spam);
    }
  }

  lemma {:induction false} SumSplits(a: nat -> nat, b: nat -> nat, c: nat -> nat, n: nat)
    requires forall k: nat :: k < n ==> a(k) == b(k) + c(k)
    ensures SumTo(a, n) == SumTo(b, n) + SumTo(c, n)
  {
    if n > 0 { SumSplits(a, b, c, n - 1); }
  }

  lemma TotalSplits(digest: Digest, out: Crypt, files: seq<LearnFile>, t: string, spam: bool)
    requires NoneHashed(out, files)
    ensures TotalLines(digest, out, files, TokenKey(t), spam) ==
            TotalOf(out, files, Is(t), spam) + TotalOf(out, files, Rival(t), spam)
  {
    var a, b, c := LinesAt(digest, out, files, TokenKey(t), spam), FileLines(out, files, Is(t), spam),
                   FileLines(out, files, Rival(t), spam);
    forall k: nat | k < |files| ensures a(k) == b(k) + c(k) { FileSplits(digest, out, files, t, spam, k); }
    SumSplits(a, b, c, |files|);
  }

  /** A token's key ends with the token's own lines, of the tag asked for, plus
      those of the tokens that agree with it on their first 121 characters. */
  lemma TokenCount(
    digest: Digest, icli: Crypt, files: seq<LearnFile>, texts: seq<string>, t: string, spam: bool)
    requires ArePrinted(texts, files, false) && NoneHashed(OutputCode(icli, files), files)
    ensures
      var out := OutputCode(icli, files);
      Lookup(Group(digest, icli, texts).table, TokenKey(t), spam) ==
        TotalOf(out, files, Is(t), spam) + TotalOf(out, files, Rival(t), spam)
  {
    EndToEndCounts(digest, icli, files, texts, TokenKey(t), spam);
    TotalSplits(digest, OutputCode(icli, files), files, t, spam);
  }

  // ----- keys spelled out ----------------------------------------------------

  /** The key a token ends under: the digest of the token itself when the output is
      hashed and its file is not, else the token; 127 characters with the tag. */
  function EndKey(digest: Digest, out: Crypt, code: Crypt, t: string): string {
    if out != Plain && code == Plain then StrLCpy("TOKEN:" + digest(out, t), 128) else StrLCpy("TOKEN:" + t, 128)
  }

  lemma FinalKeyIs(digest: Digest, out: Crypt, code: Crypt, t: string)
    ensures FinalKey(digest, out, code)(t) == EndKey(digest, out, code, t)
  {
    var key := "TOKEN:" + t;
    assert |key| >= 6 && key[6..] == t;
    assert Storage(digest, out, code)(key) == KeyFor(digest, out, code, key);
  }

  function EndsUnder(digest: Digest, out: Crypt, code: Crypt, key: string): string -> bool {
    (u: string) => EndKey(digest, out, code, u) == key
  }

  /** The lines of file k whose token ends under a key. */
  function KeyLines(digest: Digest, out: Crypt, files: seq<LearnFile>, key: string, spam: bool): nat -> nat {
    (k: nat) =>
      if k < |files| && WellFormedLines(Lines(files[k].text, LINE_SIZE)) && !Incompatible(out, Code(files[k]))
      then LinesOf(Lines(files[k].text, LINE_SIZE), EndsUnder(digest, out, Code(files[k]), key), spam) else 0
  }

  lemma {:induction false} LineCountIs(lines: seq<string>, f: string -> string, p: string -> bool, key: string, spam: bool)
    requires WellFormedLines(lines) && forall u :: p(u) <==> f(u) == key
    ensures LineCount(lines, f, key, spam) == LinesOf(lines, p, spam)
  {
    if lines != [] {
      LineCountIs(lines[1..], f, p, key, spam);
      var buf := CutNewline(lines[0]);
      assert CountsFor(lines[0], f, key, spam) <==> Selects(lines[0], p, spam);
    }
  }

  lemma KeyLinesAre(digest: Digest, out: Crypt, files: seq<LearnFile>, key: string, spam: bool, k: nat)
    requires k < |files|
    ensures LinesAt(digest, out, files, key, spam)(k) == KeyLines(digest, out, files, key, spam)(k)
  {
    if WellFormedLines(Lines(files[k].text, LINE_SIZE)) {
      var f, p := FinalKey(digest, out, Code(files[k])), EndsUnder(digest, out, Code(files[k]), key);
      forall u ensures p(u) <==> f(u) == key { FinalKeyIs(digest, out, Code(files[k]), u); }
      LineCountIs(Lines(files[k].text, LINE_SIZE), f, p, key, spam);
    }
  }

  lemma {:induction false} SameSums(a: nat -> nat, b: nat -> nat, n: nat)
    requires forall k: nat :: k < n ==> a(k) == b(k)
    ensures SumTo(a, n) == SumTo(b, n)
  {
    if n > 0 { SameSums(a, b, n - 1); }
  }

  lemma KeyTotal(digest: Digest, out: Crypt, files: seq<LearnFile>, key: string, spam: bool)
    ensures TotalLines(digest, out, files, key, spam) == SumTo(KeyLines(digest, out, files, key, spam), |files|)
  {
    var a, b := LinesAt(digest, out, files, key, spam), KeyLines(digest, out, files, key, spam);
    forall k: nat | k < |files| ensures a(k) == b(k) { KeyLinesAre(digest, out, files, key, spam, k); }
    SameSums(a, b, |files|);
  }

  /** Whatever is hashed on the way, a key ends with the lines of the tokens that
      end under it, key by spelled-out key. */
  lemma KeyCount(
    digest: Digest, icli: Crypt, files: seq<LearnFile>, texts: seq<string>, key: string, spam: bool)
    requires ArePrinted(texts, files, false)
    ensures Lookup(Group(digest, icli, texts).table, key, spam) ==
            SumTo(KeyLines(digest, OutputCode(icli, files), files, key, spam), |files|)
  {
    EndToEndCounts(digest, icli, files, texts, key, spam);
    KeyTotal(digest, OutputCode(icli, files), files, key, spam);
  }

  /** The tokens with the digest of t. */
  function SameDigest(digest: Digest, out: Crypt, t: string): string -> bool {
    (u: string) => StrLCpy("TOKEN:" + digest(out, u), 128) == StrLCpy("TOKEN:" + digest(out, t), 128)
  }

  lemma HashedFile(digest: Digest, out: Crypt, files: seq<LearnFile>, t: string, key: string, spam: bool, k: nat)
    requires out != Plain && k < |files| && Code(files[k]) == Plain && key == StrLCpy("TOKEN:" + digest(out, t), 128)
    ensures KeyLines(digest, out, files, key, spam)(k) == FileLines(out, files, SameDigest(digest, out, t), spam)(k)
  {
    if WellFormedLines(Lines(files[k].text, LINE_SIZE)) {
      SameLines(Lines(files[k].text, LINE_SIZE), SameDigest(digest, out, t), EndsUnder(digest, out, Plain, key), spam);
    }
  }

  lemma {:induction false} SameLines(lines: seq<string>, p: string -> bool, q: string -> bool, spam: bool)
    requires WellFormedLines(lines) && forall u :: p(u) <==> q(u)
    ensures LinesOf(lines, p, spam) == LinesOf(lines, q, spam)
  {
    if lines != [] { SameLines(lines[1..], p, q, spam); }
  }

  predicate AllPlain(files: seq<LearnFile>) {
    forall f :: f in files ==> Code(f) == Plain
  }

  lemma {:induction false} HashedTotal(
    digest: Digest, out: Crypt, files: seq<LearnFile>, t: string, key: string, spam: bool, n: nat)
    requires out != Plain && AllPlain(files) && n <= |files| && key == StrLCpy("TOKEN:" + digest(out, t), 128)
    ensures SumTo(KeyLines(digest, out, files, key, spam), n) ==
            SumTo(FileLines(out, files, SameDigest(digest, out, t), spam), n)
  {
    if n > 0 {
      HashedTotal(digest, out, files, t, key, spam, n - 1);
      HashedFile(digest, out, files, t, key, spam, n - 1);
    }
  }

  /** When plain files are hashed on the way, the key "TOKEN:" + digest(t) ends with
      the lines of the tokens that have that digest. */
  lemma HashedCount(
    digest: Digest, icli: Crypt, files: seq<LearnFile>, texts: seq<string>, t: string, spam: bool)
    requires ArePrinted(texts, files, false) && OutputCode(icli, files) != Plain
    requires AllPlain(files)
    ensures
      var out := OutputCode(icli, files);
      Lookup(Group(digest, icli, texts).table, StrLCpy("TOKEN:" + digest(out, t), 128), spam) ==
        TotalOf(out, files, SameDigest(digest, out, t), spam)
  {
    var out := OutputCode(icli, files);
    var key := StrLCpy("TOKEN:" + digest(out, t), 128);
    KeyCount(digest, icli, files, texts, key, spam);
    HashedTotal(digest, out, files, t, key, spam, |files|);
  }

  // ----- tokens without rivals -----------------------------------------------

  /** Every token of the lines satisfies p. */
  predicate TokensAre(lines: seq<string>, p: string -> bool)
    requires WellFormedLines(lines)
  {
    forall l :: l in lines && IsLearnToken(CutNewline(l)) ==> p(StrLCpy(Fields(CutNewline(l))[5], TOKEN_SIZE))
  }

  lemma {:induction false} NoLines(lines: seq<string>, p: string -> bool, q: string -> bool, spam: bool)
    requires WellFormedLines(lines) && TokensAre(lines, q) && forall u :: q(u) ==> !p(u)
    ensures LinesOf(lines, p, spam) == 0
  {
    if lines != [] { NoLines(lines[1..], p, q, spam); }
  }

  lemma {:induction false} SumOfZeros(a: nat -> nat, n: nat)
    requires forall k: nat :: k < n ==> a(k) == 0
    ensures SumTo(a, n) == 0
  {
    if n > 0 { SumOfZeros(a, n - 1); }
  }

  function Short(): string -> bool { (u: string) => |u| <= KEPT }

  function Any(): string -> bool { (u: string) => true }

  predicate ShortTokens(f: LearnFile) {
    WellFormedLines(Lines(f.text, LINE_SIZE)) ==> TokensAre(Lines(f.text, LINE_SIZE), Short())
  }

  /** A token of fewer than 121 characters always has its own count, and one of
      at most 121 has it when no token in the files is longer. */
  lemma OwnCount(
    digest: Digest, icli: Crypt, files: seq<LearnFile>, texts: seq<string>, t: string, spam: bool)
    requires ArePrinted(texts, files, false) && NoneHashed(OutputCode(icli, files), files)
    requires |t| < KEPT || (|t| <= KEPT && forall f :: f in files ==> ShortTokens(f))
    ensures Lookup(Group(digest, icli, texts).table, "TOKEN:" + t, spam) ==
            TotalOf(OutputCode(icli, files), files, Is(t), spam)
  {
    TokenKeyIs(t);
    TokenCount(digest, icli, files, texts, t, spam);
    NoRivalsTotal(OutputCode(icli, files), files, t, spam);
  }

  lemma NoRivalsTotal(out: Crypt, files: seq<LearnFile>, t: string, spam: bool)
    requires |t| < KEPT || (|t| <= KEPT && forall f :: f in files ==> ShortTokens(f))
    ensures TotalOf(out, files, Rival(t), spam) == 0
  {
    var a := FileLines(out, files, Rival(t), spam);
    forall k: nat | k < |files| ensures a(k) == 0 { FileHasNoRivals(out, files, t, spam, k); }
    SumOfZeros(a, |files|);
  }

  lemma FileHasNoRivals(out: Crypt, files: seq<LearnFile>, t: string, spam: bool, k: nat)
    requires k < |files| && (|t| < KEPT || (|t| <= KEPT && ShortTokens(files[k])))
    ensures FileLines(out, files, Rival(t), spam)(k) == 0
  {
    if WellFormedLines(Lines(files[k].text, LINE_SIZE)) { NoRivals(Lines(files[k].text, LINE_SIZE), t, spam); }
  }

  lemma NoRivals(lines: seq<string>, t: string, spam: bool)
    requires WellFormedLines(lines)
    requires |t| < KEPT || (|t| <= KEPT && TokensAre(lines, Short()))
    ensures LinesOf(lines, Rival(t), spam) == 0
  {
    if |t| < KEPT {
      NoLines(lines, Rival(t), Any(), spam);
    } else {
      forall u: string | |u| <= KEPT ensures !Merges(t, u) {
        assert t[..KEPT] == t && (|u| == KEPT ==> u[..KEPT] == u);
      }
      NoLines(lines, Rival(t), Short(), spam);
    }
  }

  /** For such a token a line counts when its sixth field is the token. */
  lemma IsSixthField(line: string, t: string, spam: bool)
    requires WellFormedLine(line) && |t| <= KEPT
    ensures Selects(line, Is(t), spam) <==>
      var f := Fields(CutNewline(line));
      IsLearnToken(CutNewline(line)) && EqNoCase(f[3], "s") == spam && f[5] == t
  {
  }

  // ----- 121 is the limit ----------------------------------------------------

  /** Words with one space between them. */
  function Join(ws: seq<string>): string
    requires ws != []
  {
    if |ws| == 1 then ws[0] else ws[0] + (" " + Join(ws[1..]))
  }

  predicate IsWord(w: string) { w != "" && All(w, NotSpace) }

  lemma {:induction false} FieldsJoin(ws: seq<string>)
    requires ws != [] && forall i :: 0 <= i < |ws| ==> IsWord(ws[i])
    ensures Fields(Join(ws)) == ws && !IsSpace(Join(ws)[0])
  {
    var w := ws[0];
    assert IsWord(w) && NotSpace(w[0]);
    if |ws| == 1 {
      FieldsFirst(w, "");
      assert w + "" == w && Fields("") == [];
    } else {
      var rest := Join(ws[1..]);
      FieldsJoin(ws[1..]);
      FieldsFirst(w, " " + rest);
      SkipSpace(rest);
    }
  }

  lemma FieldsFirst(w: string, tail: string)
    requires IsWord(w) && (tail == "" || IsSpace(tail[0]))
    ensures Fields(w + tail) == [w] + Fields(tail)
  {
    assert NotSpace(w[0]);
    SkipNothing(w + tail, IsSpace);
    SpnExact(w, tail, NotSpace);
    assert (w + tail)[..|w|] == w;
  }

  lemma SkipSpace(rest: string)
    requires rest != "" && !IsSpace(rest[0])
    ensures Fields(" " + rest) == Fields(rest)
  {
    SpnExact(" ", rest, IsSpace);
    SkipNothing(rest, IsSpace);
  }

  /** The words of a token line tagged spam. */
  function LearnWords(t: string): seq<string> { ["token", "0", "0", "s", "1", t] }

  function LearnLine(t: string): string { Join(LearnWords(t)) + "\n" }

  predicate Learnable(t: string) { t != "" && All(t, Printable) && |t| < TOKEN_SIZE }

  lemma {:induction false} JoinPlain(ws: seq<string>)
    requires ws != [] && forall i :: 0 <= i < |ws| ==> Learnable(ws[i])
    ensures All(Join(ws), NotNewline) && |Join(ws)| <= TOKEN_SIZE * |ws|
  {
    assert Learnable(ws[0]);
    if |ws| > 1 { JoinPlain(ws[1..]); }
  }

  lemma WordsLearnable(t: string)
    requires Learnable(t)
    ensures forall i :: 0 <= i < 6 ==> Learnable(LearnWords(t)[i]) && IsWord(LearnWords(t)[i])
  {
    assert forall i :: 0 <= i < |t| ==> NotSpace(t[i]);
  }

  lemma LearnLineReads(t: string)
    requires Learnable(t)
    ensures WholeLine(LearnLine(t), LINE_SIZE)
    ensures
      var buf := CutNewline(LearnLine(t));
      IsLearnToken(buf) && Fields(buf) == LearnWords(t) && WellFormedLine(LearnLine(t))
  {
    var ws := LearnWords(t);
    var body := Join(ws);
    WordsLearnable(t);
    FieldsJoin(ws);
    JoinPlain(ws);
    CutPrinted(body);
    LineOfBody(body);
    assert body == "token" + (" " + Join(ws[1..]));
    assert body[..6] == "token ";
  }

  lemma LineOfBody(body: string)
    requires All(body, NotNewline) && |body| <= 768
    ensures WholeLine(body + "\n", LINE_SIZE)
  {
    var l := body + "\n";
    assert l[..|l| - 1] == body;
  }

  lemma LearnLineCounts(t: string, p: string -> bool)
    requires Learnable(t)
    ensures WellFormedLine(LearnLine(t)) && LearnEntries(LearnLine(t), false) == [Entry(t, Counts(1, 0))]
    ensures Selects(LearnLine(t), p, true) <==> p(t)
  {
    LearnLineReads(t);
  }

  /** A learn file with one line for each of two tokens. */
  function TwoTokens(t: string, u: string): LearnFile {
    LearnFile("f", LearnLine(t) + LearnLine(u), [], [], [], [t, u])
  }

  lemma TwoLines(t: string, u: string)
    requires Learnable(t) && Learnable(u)
    ensures Lines(TwoTokens(t, u).text, LINE_SIZE) == [LearnLine(t), LearnLine(u)]
  {
    var a, b := LearnLine(t), LearnLine(u);
    LearnLineReads(t);
    LearnLineReads(u);
    LinesOfConcat([a, b], LINE_SIZE);
    assert [a, b][1..] == [b] && Concat([b]) == b + "" == b;
    assert Concat([a, b]) == a + b;
  }

  lemma TwoEntries(t: string, u: string)
    requires Learnable(t) && Learnable(u)
    ensures WellFormedLines([LearnLine(t), LearnLine(u)])
    ensures AllLearnEntries([LearnLine(t), LearnLine(u)], false) == [Entry(t, Counts(1, 0)), Entry(u, Counts(1, 0))]
  {
    var a, b := LearnLine(t), LearnLine(u);
    LearnLineCounts(t, Is(t));
    LearnLineCounts(u, Is(u));
    assert [a, b][1..] == [b] && [b][1..] == [];
    assert AllLearnEntries([b], false) == LearnEntries(b, false) + AllLearnEntries([], false);
  }

  lemma TwoTokensGood(t: string, u: string)
    requires Learnable(t) && Learnable(u) && t != u
    ensures Good(TwoTokens(t, u), false)
  {
    var f := TwoTokens(t, u);
    TwoLines(t, u);
    TwoEntries(t, u);
    var e, e' := Entry(t, Counts(1, 0)), Entry(u, Counts(1, 0));
    FoldAppend(Add, map[], [e], [e']);
    AddAllOne(map[], e);
    AddAllOne(Add(map[], e), e');
    assert [e] + [e'] == [e, e'];
    assert Tree(f, false) == map[t := Counts(1, 0), u := Counts(1, 0)];
  }

  lemma TwoTokenLines(t: string, u: string, p: string -> bool)
    requires Learnable(t) && Learnable(u)
    ensures WellFormedLines([LearnLine(t), LearnLine(u)])
    ensures LinesOf([LearnLine(t), LearnLine(u)], p, true) == (if p(t) then 1 else 0) + if p(u) then 1 else 0
  {
    var a, b := LearnLine(t), LearnLine(u);
    LearnLineCounts(t, p);
    LearnLineCounts(u, p);
    assert [a, b][1..] == [b] && [b][1..] == [];
    assert LinesOf([b], p, true) == (if Selects(b, p, true) then 1 else 0) + LinesOf([], p, true);
  }

  lemma TotalOfOne(out: Crypt, f: LearnFile, p: string -> bool, spam: bool)
    requires WellFormedLines(Lines(f.text, LINE_SIZE)) && !Incompatible(out, Code(f))
    ensures TotalOf(out, [f], p, spam) == LinesOf(Lines(f.text, LINE_SIZE), p, spam)
  {
    var a := FileLines(out, [f], p, spam);
    assert SumTo(a, 1) == SumTo(a, 0) + a(0);
  }

  /** One learn file by itself, with no hash on the command line. */
  lemma OneFileCount(digest: Digest, f: LearnFile, text: string, t: string, spam: bool)
    requires IsPrinted(text, f, false)
    ensures Lookup(Group(digest, Plain, [text]).table, TokenKey(t), spam) ==
      LinesOf(Lines(f.text, LINE_SIZE), Is(t), spam) + LinesOf(Lines(f.text, LINE_SIZE), Rival(t), spam)
  {
    var out := OutputCode(Plain, [f]);
    assert out == Code(f);
    assert ArePrinted([text], [f], false);
    TokenCount(digest, Plain, [f], [text], t, spam);
    TotalOfOne(out, f, Is(t), spam);
    TotalOfOne(out, f, Rival(t), spam);
  }

  lemma MergedLines(t: string, u: string)
    requires Learnable(t) && Learnable(u) && Merges(t, u)
    ensures
      var lines := Lines(TwoTokens(t, u).text, LINE_SIZE);
      WellFormedLines(lines) && LinesOf(lines, Is(t), true) == 1 && LinesOf(lines, Rival(t), true) == 1
  {
    TwoLines(t, u);
    TwoTokenLines(t, u, Is(t));
    TwoTokenLines(t, u, Rival(t));
  }

  /** Two tokens that agree on their first 121 characters, learnt once each, end
      under one key with a count of two. */
  lemma TokensMerge(digest: Digest, t: string, u: string) returns (text: string)
    requires Learnable(t) && Learnable(u) && Merges(t, u)
    ensures IsPrinted(text, TwoTokens(t, u), false)
    ensures LinesOf(Lines(TwoTokens(t, u).text, LINE_SIZE), Is(t), true) == 1
    ensures Lookup(Group(digest, Plain, [text]).table, TokenKey(t), true) == 2
  {
    TwoTokensGood(t, u);
    MergedLines(t, u);
    text := Concat(Printed(TwoTokens(t, u), false));
    OneFileCount(digest, TwoTokens(t, u), text, t, true);
  }

  function Letters(n: nat): (s: string)
    ensures |s| == n && All(s, Printable)
  {
    seq(n, i => 'a')
  }

  /** Tokens of 122 characters can merge, so 121 cannot be raised. */
  lemma LimitIsExact()
    ensures
      var t, u := Letters(KEPT) + "b", Letters(KEPT) + "c";
      |t| == |u| == KEPT + 1 && Learnable(t) && Learnable(u) && Merges(t, u)
  {
    var t, u := Letters(KEPT) + "b", Letters(KEPT) + "c";
    assert t[..KEPT] == Letters(KEPT) == u[..KEPT];
    assert t[KEPT] != u[KEPT];
  }
}
