/** Grouping .tok files: each file contributes a list of entries, and the table
    is their sum in any order. */
module TokenGrouping {
  import opened CText
  import opened Perm
  import opened Tokens
  import opened TokenAlgebra

  /** A line kind whose token, if any, has its "token:" prefix. */
  type Kind = k: LineKind | k.Token? ==> |k.e.key| >= 6 witness Other

  function Classifier(): string -> seq<Kind> {
    (l: string) => [Classify(l)]
  }

  function Kinds(lines: seq<string>): seq<Kind> {
    FlatMap(Classifier(), lines)
  }

  function TextKinds(text: string): seq<Kind> {
    Kinds(Lines(text, LINE_SIZE))
  }

  function GroupKinds(digest: Digest, first: bool, st: GroupState, kinds: seq<Kind>): GroupState
    decreases |kinds|
  {
    if kinds == [] then st
    else
      var (st1, stop) := GroupKind(digest, first, st, kinds[0]);
      if stop then st1 else GroupKinds(digest, first, st1, kinds[1..])
  }

  lemma {:induction false} GroupLinesSeesKinds(digest: Digest, first: bool, st: GroupState, lines: seq<string>)
    ensures GroupLines(digest, first, st, lines) == GroupKinds(digest, first, st, Kinds(lines))
    decreases |lines|
  {
    if lines != [] {
      var (st1, stop) := GroupKind(digest, first, st, Classify(lines[0]));
      assert Kinds(lines)[1..] == Kinds(lines[1..]);
      if !stop { GroupLinesSeesKinds(digest, first, st1, lines[1..]); }
    }
  }

  // ----- what one file contributes -------------------------------------------

  /** The entries a file adds while the output encoding stays `icli`. */
  function Contribution(digest: Digest, icli: Crypt, fcrypt: Crypt, kinds: seq<Kind>): seq<Entry>
    decreases |kinds|
  {
    if kinds == [] then []
    else
      match kinds[0]
      case SetCrypt(code) =>
        if Incompatible(icli, code) then [] else Contribution(digest, icli, code, kinds[1..])
      case Token(e) =>
        [Entry(KeyFor(digest, icli, fcrypt, e.key), e.n)] + Contribution(digest, icli, fcrypt, kinds[1..])
      case Other => Contribution(digest, icli, fcrypt, kinds[1..])
  }

  lemma {:induction false} GroupAddsContribution(digest: Digest, first: bool, st: GroupState, kinds: seq<Kind>)
    requires KeepsEncoding(st.icli, first, kinds)
    ensures GroupKinds(digest, first, st, kinds).table ==
            AddAll(st.table, Contribution(digest, st.icli, st.fcrypt, kinds))
    ensures GroupKinds(digest, first, st, kinds).icli == st.icli
    decreases |kinds|
  {
    if kinds != [] {
      var (st1, stop) := GroupKind(digest, first, st, kinds[0]);
      assert OneCode(kinds, Plain) ==> OneCode(kinds[1..], Plain);
      assert OneCode(kinds, Plain) && kinds[0].SetCrypt? ==> kinds[0].code == Plain;
      if !stop { GroupAddsContribution(digest, first, st1, kinds[1..]); }
      match kinds[0]
      case Token(e) =>
        var entry := Entry(KeyFor(digest, st.icli, st.fcrypt, e.key), e.n);
        FoldAppend(Add, st.table, [entry], Contribution(digest, st.icli, st.fcrypt, kinds[1..]));
        AddAllOne(st.table, entry);
      case _ =>
    }
  }

  /** Every token of the file comes after a crypt line. */
  predicate CryptFirst(kinds: seq<Kind>) {
    kinds == [] || kinds[0].SetCrypt? || (kinds[0].Other? && CryptFirst(kinds[1..]))
  }

  lemma {:induction false} CryptFirstForgets(digest: Digest, icli: Crypt, a: Crypt, b: Crypt, kinds: seq<Kind>)
    requires CryptFirst(kinds)
    ensures Contribution(digest, icli, a, kinds) == Contribution(digest, icli, b, kinds)
  {
    if kinds != [] && kinds[0].Other? { CryptFirstForgets(digest, icli, a, b, kinds[1..]); }
  }

  lemma {:induction false} LeftoverMatters(icli: Crypt, kinds: seq<Kind>) returns (digest: Digest)
    requires icli != Plain && !CryptFirst(kinds)
    ensures Contribution(digest, icli, Plain, kinds) != Contribution(digest, icli, icli, kinds)
  {
    if kinds[0].Other? {
      digest := LeftoverMatters(icli, kinds[1..]);
    } else {
      var kept := StrLCpy(kinds[0].e.key, TOKEN_SIZE);
      var dig := if kept == "TOKEN:" then "x" else "";
      digest := (code: Crypt, s: string) => dig;
      assert KeyFor(digest, icli, Plain, kinds[0].e.key) == "TOKEN:" + dig != kept;
      assert Contribution(digest, icli, Plain, kinds)[0] != Contribution(digest, icli, icli, kinds)[0];
    }
  }

  lemma {:induction false} PlainIgnoresLeftover(digest: Digest, a: Crypt, b: Crypt, kinds: seq<Kind>)
    ensures Contribution(digest, Plain, a, kinds) == Contribution(digest, Plain, b, kinds)
  {
    if kinds != [] { PlainIgnoresLeftover(digest, a, b, kinds[1..]); }
  }

  /** What a file contributes is independent of the encoding left by the file
      before it if and only if the output is plain or a crypt line comes ahead of
      its tokens. */
  lemma CryptFirstIff(icli: Crypt, kinds: seq<Kind>)
    ensures icli == Plain || CryptFirst(kinds) <==>
      forall digest: Digest, a, b ::
        Contribution(digest, icli, a, kinds) == Contribution(digest, icli, b, kinds)
  {
    if icli == Plain || CryptFirst(kinds) {
      forall digest: Digest, a, b
        ensures Contribution(digest, icli, a, kinds) == Contribution(digest, icli, b, kinds)
      {
        if icli == Plain {
          PlainIgnoresLeftover(digest, a, b, kinds);
        } else {
          CryptFirstForgets(digest, icli, a, b, kinds);
        }
      }
    } else {
      var digest := LeftoverMatters(icli, kinds);
    }
  }

  /** The tokens of a file, in order. */
  function TokensOf(kinds: seq<Kind>): (es: seq<Entry>)
    ensures forall e :: e in es ==> |e.key| >= 6
  {
    if kinds == [] then []
    else (match kinds[0] case Token(e) => [e] case _ => []) + TokensOf(kinds[1..])
  }

  /** The storage key of a printed key, total on all strings. */
  function Storage(digest: Digest, icli: Crypt, code: Crypt): string -> string {
    (key: string) => if |key| >= 6 then KeyFor(digest, icli, code, key) else key
  }

  predicate OneCode(kinds: seq<Kind>, code: Crypt) {
    forall i :: 0 <= i < |kinds| && kinds[i].SetCrypt? ==> kinds[i].code == code
  }

  lemma {:induction false} OneCodeContribution(digest: Digest, icli: Crypt, code: Crypt, kinds: seq<Kind>)
    requires OneCode(kinds, code) && !Incompatible(icli, code)
    ensures Contribution(digest, icli, code, kinds) == Rekey(TokensOf(kinds), Storage(digest, icli, code))
  {
    if kinds != [] {
      assert OneCode(kinds[1..], code);
      OneCodeContribution(digest, icli, code, kinds[1..]);
      assert kinds[0].SetCrypt? ==> kinds[0].code == code;
      RekeyCons(kinds, Storage(digest, icli, code));
    }
  }

  lemma RekeyCons(kinds: seq<Kind>, f: string -> string)
    requires kinds != []
    ensures Rekey(TokensOf(kinds), f) ==
            (match kinds[0] case Token(e) => [Entry(f(e.key), e.n)] case _ => []) + Rekey(TokensOf(kinds[1..]), f)
  {
  }

  lemma {:induction false} ForeignFileAddsNothing(digest: Digest, icli: Crypt, code: Crypt, fcrypt: Crypt, kinds: seq<Kind>)
    requires OneCode(kinds, code) && CryptFirst(kinds) && Incompatible(icli, code)
    ensures Contribution(digest, icli, fcrypt, kinds) == []
  {
    if kinds != [] {
      assert kinds[0].SetCrypt? ==> kinds[0].code == code;
      if kinds[0].Other? {
        assert OneCode(kinds[1..], code);
        ForeignFileAddsNothing(digest, icli, code, fcrypt, kinds[1..]);
      }
    }
  }

  /** What a file in one encoding adds: nothing when it is another hash, else its
      tokens, hashed when the file is plain and the output is not. */
  function FileEntries(digest: Digest, icli: Crypt, code: Crypt, tokens: seq<Entry>): seq<Entry> {
    if Incompatible(icli, code) then [] else Rekey(tokens, Storage(digest, icli, code))
  }

  lemma FileContribution(digest: Digest, icli: Crypt, code: Crypt, fcrypt: Crypt, kinds: seq<Kind>)
    requires OneCode(kinds, code) && CryptFirst(kinds)
    ensures Contribution(digest, icli, fcrypt, kinds) == FileEntries(digest, icli, code, TokensOf(kinds))
  {
    if Incompatible(icli, code) {
      ForeignFileAddsNothing(digest, icli, code, fcrypt, kinds);
    } else {
      CryptFirstForgets(digest, icli, fcrypt, code, kinds);
      OneCodeContribution(digest, icli, code, kinds);
    }
  }

  // ----- many files, output encoding fixed on the command line ---------------

  function FileStep(digest: Digest, icli: Crypt): (TokenTable, string) -> TokenTable {
    (m: TokenTable, text: string) => AddAll(m, Contribution(digest, icli, Plain, TextKinds(text)))
  }

  lemma FileStepCommutes(digest: Digest, icli: Crypt)
    ensures Commutes(FileStep(digest, icli))
  {
    var f := FileStep(digest, icli);
    forall m: TokenTable, x: string, y: string
      ensures f(f(m, x), y) == f(f(m, y), x)
    {
      var a := Contribution(digest, icli, Plain, TextKinds(x));
      var b := Contribution(digest, icli, Plain, TextKinds(y));
      AddAllSwap(m, a, b);
    }
  }

  lemma AddAllSwap(m: TokenTable, a: seq<Entry>, b: seq<Entry>)
    ensures AddAll(AddAll(m, a), b) == AddAll(AddAll(m, b), a)
  {
    FoldAppend(Add, m, a, b);
    FoldAppend(Add, m, b, a);
    AddCommutes();
    assert multiset(a + b) == multiset(b + a);
    FoldPermutation(Add, m, a + b, b + a);
  }

  /** A file that cannot change the output encoding. */
  predicate KeepsEncoding(icli: Crypt, first: bool, kinds: seq<Kind>) {
    icli != Plain || !first || OneCode(kinds, Plain)
  }

  lemma GroupFileStep(digest: Digest, first: bool, st: GroupState, text: string)
    requires CryptFirst(TextKinds(text)) && KeepsEncoding(st.icli, first, TextKinds(text))
    ensures
      var r := GroupLines(digest, first, st, Lines(text, LINE_SIZE));
      r.icli == st.icli && r.table == FileStep(digest, st.icli)(st.table, text)
  {
    GroupLinesSeesKinds(digest, first, st, Lines(text, LINE_SIZE));
    GroupAddsContribution(digest, first, st, TextKinds(text));
    CryptFirstForgets(digest, st.icli, st.fcrypt, Plain, TextKinds(text));
  }

  /** Crypt lines come first in every file, and no file changes the output
      encoding: there is a hash on the command line, or the first file is plain. */
  predicate Steady(icli: Crypt, texts: seq<string>) {
    (forall t :: t in texts ==> CryptFirst(TextKinds(t))) &&
    (texts != [] ==> KeepsEncoding(icli, true, TextKinds(texts[0])))
  }

  lemma GroupTextsStep(digest: Digest, icli: Crypt, texts: seq<string>, n: nat)
    requires n < |texts| && Steady(icli, texts) && GroupTexts(digest, icli, texts, n).icli == icli
    ensures
      var st, st' := GroupTexts(digest, icli, texts, n), GroupTexts(digest, icli, texts, n + 1);
      st'.icli == icli && st'.table == FileStep(digest, icli)(st.table, texts[n])
  {
    var st := GroupTexts(digest, icli, texts, n);
    assert GroupTexts(digest, icli, texts, n + 1) == GroupLines(digest, n == 0, st, Lines(texts[n], LINE_SIZE));
    GroupFileStep(digest, n == 0, st, texts[n]);
  }

  lemma {:induction false} GroupKeepsHash(digest: Digest, icli: Crypt, texts: seq<string>, n: nat)
    requires n <= |texts| && Steady(icli, texts)
    ensures GroupTexts(digest, icli, texts, n).icli == icli
  {
    if n > 0 {
      GroupKeepsHash(digest, icli, texts, n - 1);
      GroupTextsStep(digest, icli, texts, n - 1);
    }
  }

  /** The table after n files, for any n. */
  function TableAfter(digest: Digest, icli: Crypt, texts: seq<string>): nat -> TokenTable {
    (n: nat) => if n <= |texts| then GroupTexts(digest, icli, texts, n).table else map[]
  }

  lemma TableAfterStep(digest: Digest, icli: Crypt, texts: seq<string>, i: nat)
    requires i < |texts| && Steady(icli, texts)
    ensures TableAfter(digest, icli, texts)(i + 1) ==
            FileStep(digest, icli)(TableAfter(digest, icli, texts)(i), texts[i])
  {
    GroupKeepsHash(digest, icli, texts, i);
    GroupTextsStep(digest, icli, texts, i);
  }

  lemma GroupIsFold(digest: Digest, icli: Crypt, texts: seq<string>)
    requires Steady(icli, texts)
    ensures Group(digest, icli, texts).table == Fold(FileStep(digest, icli), map[], texts)
  {
    forall i: nat | i < |texts| { TableAfterStep(digest, icli, texts, i); }
    TraceOfTables(FileStep(digest, icli), TableAfter(digest, icli, texts), texts);
    assert TableAfter(digest, icli, texts)(0) == map[];
  }

  lemma TraceOfTables(f: (TokenTable, string) -> TokenTable, trace: nat -> TokenTable, texts: seq<string>)
    requires forall i: nat :: i < |texts| ==> trace(i + 1) == f(trace(i), texts[i])
    ensures trace(|texts|) == Fold(f, trace(0), texts)
  {
    FoldTrace(f, trace, texts, |texts|);
    assert texts[..|texts|] == texts;
  }

  /** With a hash on the command line or a plain file in front, and a crypt line
      ahead of each file's tokens, the order of the files does not matter. */
  lemma GroupingOrderIndependent(digest: Digest, icli: Crypt, texts: seq<string>, texts': seq<string>)
    requires Steady(icli, texts) && Steady(icli, texts') && multiset(texts) == multiset(texts')
    ensures Group(digest, icli, texts).table == Group(digest, icli, texts').table
  {
    GroupIsFold(digest, icli, texts);
    GroupIsFold(digest, icli, texts');
    FileStepCommutes(digest, icli);
    FoldPermutation(FileStep(digest, icli), map[], texts, texts');
  }

  /** The counts the files give to a key, each file on its own. */
  function FileSum(digest: Digest, icli: Crypt, texts: seq<string>, key: string, spam: bool): int {
    if texts == [] then 0
    else Tally(Contribution(digest, icli, Plain, TextKinds(texts[0])), key, spam)
         + FileSum(digest, icli, texts[1..], key, spam)
  }

  lemma {:induction false} FoldIsSum(digest: Digest, icli: Crypt, m: TokenTable, texts: seq<string>, key: string, spam: bool)
    ensures Lookup(Fold(FileStep(digest, icli), m, texts), key, spam) ==
            Lookup(m, key, spam) + FileSum(digest, icli, texts, key, spam)
    decreases |texts|
  {
    if texts != [] {
      var es := Contribution(digest, icli, Plain, TextKinds(texts[0]));
      AddAllIs(m, es, key, spam);
      FoldIsSum(digest, icli, AddAll(m, es), texts[1..], key, spam);
    }
  }

  /** ... and the table is the sum of what each file contributes. */
  lemma GroupingIsSum(digest: Digest, icli: Crypt, texts: seq<string>, key: string, spam: bool)
    requires Steady(icli, texts)
    ensures Lookup(Group(digest, icli, texts).table, key, spam) == FileSum(digest, icli, texts, key, spam)
  {
    GroupIsFold(digest, icli, texts);
    FoldIsSum(digest, icli, map[], texts, key, spam);
  }

  // ----- any command line, files in one encoding each ------------------------

  /** A file whose crypt lines, one at least, agree and precede its tokens. */
  predicate Uniform(kinds: seq<Kind>, code: Crypt) {
    OneCode(kinds, code) && CryptFirst(kinds) && exists i :: 0 <= i < |kinds| && kinds[i].SetCrypt?
  }

  /** A uniform file adds its entries under the encoding in force after its
      crypt line; the first file may have set that encoding. */
  lemma {:induction false} UniformFile(digest: Digest, first: bool, st: GroupState, code: Crypt, kinds: seq<Kind>)
    requires Uniform(kinds, code)
    ensures
      var r, icli := GroupKinds(digest, first, st, kinds), Adopt(first, st.icli, code);
      r.icli == icli && r.fcrypt == code &&
      r.table == AddAll(st.table, FileEntries(digest, icli, code, TokensOf(kinds)))
  {
    var icli := Adopt(first, st.icli, code);
    var i :| 0 <= i < |kinds| && kinds[i].SetCrypt?;
    assert OneCode(kinds[1..], code);
    if kinds[0].Other? {
      assert kinds[1..][i - 1].SetCrypt?;
      assert TokensOf(kinds) == TokensOf(kinds[1..]);
      UniformFile(digest, first, st, code, kinds[1..]);
    } else {
      assert kinds[0] == SetCrypt(code);
      assert TokensOf(kinds) == TokensOf(kinds[1..]);
      if !Incompatible(icli, code) {
        var st1 := st.(icli := icli, fcrypt := code);
        GroupAddsContribution(digest, first, st1, kinds[1..]);
        OneCodeContribution(digest, icli, code, kinds[1..]);
        OneCodeLeft(digest, first, st1, code, kinds[1..]);
      }
    }
  }

  lemma {:induction false} OneCodeLeft(digest: Digest, first: bool, st: GroupState, code: Crypt, kinds: seq<Kind>)
    requires OneCode(kinds, code) && st.fcrypt == code
    ensures GroupKinds(digest, first, st, kinds).fcrypt == code
    decreases |kinds|
  {
    if kinds != [] {
      var (st1, stop) := GroupKind(digest, first, st, kinds[0]);
      assert kinds[0].SetCrypt? ==> kinds[0].code == code;
      assert OneCode(kinds[1..], code);
      if !stop { OneCodeLeft(digest, first, st1, code, kinds[1..]); }
    }
  }
}
