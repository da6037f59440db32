/** Grouping with no hash on the command line: the first file chooses the
    encoding, so its place matters and no other does. */
module TokenOrder {
  import opened CText
  import opened Perm
  import opened Tokens
  import opened TokenAlgebra
  import opened TokenGrouping
  import opened TokenPipeline

  /** The code of the crypt line that leads the file. */
  function LeadingCode(kinds: seq<Kind>): Option<Crypt> {
    if kinds == [] || kinds[0].Token? then None
    else if kinds[0].SetCrypt? then Some(kinds[0].code)
    else LeadingCode(kinds[1..])
  }

  /** The first file reads alike whether its hash is on the command line or not. */
  lemma {:induction false} FirstFileAdopts(digest: Digest, st: GroupState, code: Crypt, kinds: seq<Kind>)
    requires LeadingCode(kinds) == Some(code) && st.icli == Plain
    ensures GroupKinds(digest, true, st, kinds) == GroupKinds(digest, true, st.(icli := code), kinds)
    decreases |kinds|
  {
    if kinds[0].Other? {
      FirstFileAdopts(digest, st, code, kinds[1..]);
    } else {
      assert GroupKind(digest, true, st, kinds[0]) == GroupKind(digest, true, st.(icli := code), kinds[0]);
    }
  }

  /** The step every file but the first makes. */
  function LaterFile(digest: Digest, texts: seq<string>): (nat, GroupState) -> GroupState {
    (i: nat, st: GroupState) => if i < |texts| then GroupLines(digest, false, st, Lines(texts[i], LINE_SIZE)) else st
  }

  lemma LaterFiles(digest: Digest, icli: Crypt, texts: seq<string>, i: nat)
    requires 1 <= i < |texts|
    ensures StateAfter(digest, icli, texts)(i + 1) ==
      LaterFile(digest, texts)(i, StateAfter(digest, icli, texts)(i))
  {
  }

  lemma {:induction false} SameFromOne<S>(a: nat -> S, b: nat -> S, step: (nat, S) -> S, n: nat)
    requires 1 <= n && a(1) == b(1)
    requires forall i: nat :: 1 <= i < n ==> a(i + 1) == step(i, a(i)) && b(i + 1) == step(i, b(i))
    ensures a(n) == b(n)
  {
    if n > 1 {
      SameFromOne(a, b, step, n - 1);
      assert a(n - 1 + 1) == step(n - 1, a(n - 1));
    }
  }

  lemma OneFile(digest: Digest, icli: Crypt, texts: seq<string>)
    requires texts != []
    ensures GroupTexts(digest, icli, texts, 1) ==
      GroupKinds(digest, true, GroupState(map[], icli, Plain), TextKinds(texts[0]))
  {
    var st := GroupState(map[], icli, Plain);
    GroupLinesSeesKinds(digest, true, st, Lines(texts[0], LINE_SIZE));
    assert GroupTexts(digest, icli, texts, 0) == st;
  }

  /** With no hash on the command line, grouping is grouping under the hash that
      leads the first file. */
  lemma PlainCommandLine(digest: Digest, code: Crypt, texts: seq<string>)
    requires texts != [] && LeadingCode(TextKinds(texts[0])) == Some(code)
    ensures Group(digest, Plain, texts) == Group(digest, code, texts)
  {
    var a, b := StateAfter(digest, Plain, texts), StateAfter(digest, code, texts);
    OneFile(digest, Plain, texts);
    OneFile(digest, code, texts);
    FirstFileAdopts(digest, GroupState(map[], Plain, Plain), code, TextKinds(texts[0]));
    forall i: nat | 1 <= i < |texts|
      ensures a(i + 1) == LaterFile(digest, texts)(i, a(i)) && b(i + 1) == LaterFile(digest, texts)(i, b(i))
    {
      LaterFiles(digest, Plain, texts, i);
      LaterFiles(digest, code, texts, i);
    }
    SameFromOne(a, b, LaterFile(digest, texts), |texts|);
  }

  /** ... so the order does not matter as long as the encoding of the first file
      stays, be it a hash or plain. */
  lemma PlainOrderIndependent(digest: Digest, code: Crypt, texts: seq<string>, texts': seq<string>)
    requires texts != [] && texts' != [] && multiset(texts) == multiset(texts')
    requires Steady(code, texts) && LeadingCode(TextKinds(texts[0])) == Some(code)
    requires Steady(code, texts') && LeadingCode(TextKinds(texts'[0])) == Some(code)
    ensures Group(digest, Plain, texts).table == Group(digest, Plain, texts').table
  {
    PlainCommandLine(digest, code, texts);
    PlainCommandLine(digest, code, texts');
    GroupingOrderIndependent(digest, code, texts, texts');
  }

  // ----- keys in a file have no space ----------------------------------------

  predicate NoSpaces(es: seq<Entry>) {
    forall i :: 0 <= i < |es| ==> All(es[i].key, NotSpace)
  }

  lemma ClassifiedKey(line: string)
    ensures Classify(line).Token? ==> All(Classify(line).e.key, NotSpace)
  {
    SpnSpec(CutNewline(line), NotSpace);
  }

  lemma {:induction false} KindsNoSpaces(lines: seq<string>)
    ensures NoSpaces(TokensOf(Kinds(lines)))
  {
    if lines != [] {
      ClassifiedKey(lines[0]);
      KindsNoSpaces(lines[1..]);
      assert Kinds(lines)[1..] == Kinds(lines[1..]);
    }
  }

  /** The key of a token that is taken as it is. */
  function CutKey(): string -> string {
    (key: string) => if |key| >= 6 then StrLCpy(key, TOKEN_SIZE) else key
  }

  function AsIs(es: seq<Entry>): seq<Entry> { Rekey(es, CutKey()) }

  lemma StoredAsIs(digest: Digest, icli: Crypt, code: Crypt, es: seq<Entry>)
    requires icli == Plain || code != Plain
    ensures Rekey(es, Storage(digest, icli, code)) == AsIs(es)
  {
  }

  /** A digest whose text no token of a file can be. */
  function Spaced(): Digest { (code: Crypt, s: string) => " " }

  const SpacedKey := "TOKEN: "

  lemma SpacedIsFresh(es: seq<Entry>)
    requires NoSpaces(es)
    ensures !HasKey(AsIs(es), SpacedKey)
  {
    forall i | 0 <= i < |es|
      ensures AsIs(es)[i].key != SpacedKey
    {
      assert AsIs(es)[i].key <= es[i].key && SpacedKey[6] == ' ';
      assert All(es[i].key, NotSpace);
    }
  }

  lemma SpacedIsStored(icli: Crypt, es: seq<Entry>)
    requires icli != Plain && es != [] && |es[0].key| >= 6
    ensures HasKey(Rekey(es, Storage(Spaced(), icli, Plain)), SpacedKey)
  {
    assert "TOKEN:" + " " == SpacedKey;
    assert Rekey(es, Storage(Spaced(), icli, Plain))[0].key == SpacedKey;
  }

  // ----- two files -----------------------------------------------------------

  lemma TwoFiles(digest: Digest, icli: Crypt, a: string, b: string)
    ensures Group(digest, icli, [a, b]) ==
      GroupKinds(digest, false, GroupKinds(digest, true, GroupState(map[], icli, Plain), TextKinds(a)), TextKinds(b))
  {
    var st := GroupState(map[], icli, Plain);
    var texts := [a, b];
    var st1 := GroupKinds(digest, true, st, TextKinds(a));
    OneFile(digest, icli, texts);
    GroupLinesSeesKinds(digest, false, st1, Lines(b, LINE_SIZE));
    assert GroupTexts(digest, icli, texts, 2) == GroupKinds(digest, false, st1, TextKinds(b));
  }

  function FileTokens(text: string): seq<Entry> { TokensOf(TextKinds(text)) }

  /** The table of two files of one encoding each, with no hash on the command
      line. */
  lemma TwoUniform(digest: Digest, a: string, b: string, ca: Crypt, cb: Crypt)
    requires Uniform(TextKinds(a), ca) && Uniform(TextKinds(b), cb)
    ensures Group(digest, Plain, [a, b]).table ==
      AddAll(AddAll(map[], AsIs(FileTokens(a))), FileEntries(digest, ca, cb, FileTokens(b)))
  {
    var st := GroupState(map[], Plain, Plain);
    TwoFiles(digest, Plain, a, b);
    UniformFile(digest, true, st, ca, TextKinds(a));
    UniformFile(digest, false, GroupKinds(digest, true, st, TextKinds(a)), cb, TextKinds(b));
    StoredAsIs(digest, ca, ca, FileTokens(a));
  }

  ghost predicate OrderFree(digest: Digest, icli: Crypt, a: string, b: string) {
    Group(digest, icli, [a, b]).table == Group(digest, icli, [b, a]).table
  }

  /** When the order of two files of one encoding each cannot matter. */
  predicate SafePair(ca: Crypt, cb: Crypt, ta: seq<Entry>, tb: seq<Entry>) {
    ca == cb || (ca == Plain && ta == []) || (cb == Plain && tb == []) ||
    (ca != Plain && cb != Plain && AddAll(map[], AsIs(ta)) == AddAll(map[], AsIs(tb)))
  }

  lemma SafePairIsFree(digest: Digest, a: string, b: string, ca: Crypt, cb: Crypt)
    requires Uniform(TextKinds(a), ca) && Uniform(TextKinds(b), cb)
    requires SafePair(ca, cb, FileTokens(a), FileTokens(b))
    ensures OrderFree(digest, Plain, a, b)
  {
    var ta, tb := FileTokens(a), FileTokens(b);
    TwoUniform(digest, a, b, ca, cb);
    TwoUniform(digest, b, a, cb, ca);
    if ca == cb {
      StoredAsIs(digest, ca, cb, ta);
      StoredAsIs(digest, ca, cb, tb);
      AddAllSwap(map[], AsIs(ta), AsIs(tb));
    } else if ca == Plain {
      StoredAsIs(digest, Plain, cb, tb);
      EmptyFirst(ta, tb);
    } else if cb == Plain {
      StoredAsIs(digest, Plain, ca, ta);
      EmptyFirst(tb, ta);
    }
  }

  lemma EmptyFirst(none: seq<Entry>, es: seq<Entry>)
    requires none == []
    ensures AddAll(AddAll(map[], AsIs(none)), AsIs(es)) == AddAll(map[], AsIs(es))
  {
    assert AsIs(none) == [];
  }

  /** A plain file with tokens and a hashed one: some digest tells the orders
      apart. */
  lemma PlainAndHashed(a: string, b: string, cb: Crypt)
    requires Uniform(TextKinds(a), Plain) && Uniform(TextKinds(b), cb) && cb != Plain && FileTokens(a) != []
    ensures !OrderFree(Spaced(), Plain, a, b)
  {
    var ta, tb := FileTokens(a), FileTokens(b);
    TwoUniform(Spaced(), a, b, Plain, cb);
    TwoUniform(Spaced(), b, a, cb, Plain);
    StoredAsIs(Spaced(), Plain, cb, tb);
    KindsNoSpaces(Lines(a, LINE_SIZE));
    KindsNoSpaces(Lines(b, LINE_SIZE));
    ToldApart(ta, tb, cb);
  }

  lemma ToldApart(ta: seq<Entry>, tb: seq<Entry>, code: Crypt)
    requires code != Plain && ta != [] && |ta[0].key| >= 6 && NoSpaces(ta) && NoSpaces(tb)
    ensures
      AddAll(AddAll(map[], AsIs(ta)), AsIs(tb)) !=
      AddAll(AddAll(map[], AsIs(tb)), Rekey(ta, Storage(Spaced(), code, Plain)))
  {
    var hashed := Rekey(ta, Storage(Spaced(), code, Plain));
    SpacedIsFresh(ta);
    SpacedIsFresh(tb);
    SpacedIsStored(code, ta);
    AddAllIs(map[], AsIs(ta), SpacedKey, true);
    AddAllIs(AddAll(map[], AsIs(ta)), AsIs(tb), SpacedKey, true);
    AddAllIs(AddAll(map[], AsIs(tb)), hashed, SpacedKey, true);
  }

  lemma UnsafePairShows(a: string, b: string, ca: Crypt, cb: Crypt)
    requires Uniform(TextKinds(a), ca) && Uniform(TextKinds(b), cb)
    requires !SafePair(ca, cb, FileTokens(a), FileTokens(b))
    ensures !OrderFree(Spaced(), Plain, a, b)
  {
    if ca == Plain {
      PlainAndHashed(a, b, cb);
    } else if cb == Plain {
      PlainAndHashed(b, a, ca);
    } else {
      TwoUniform(Spaced(), a, b, ca, cb);
      TwoUniform(Spaced(), b, a, cb, ca);
    }
  }

  /** With no hash on the command line, the order of two files of one encoding
      each does not matter, whatever the digest, if and only if the encodings are
      the same, or one file is plain and has no token, or the encodings are two
      hashes and the files hold the same table. */
  lemma TwoFileOrderIff(a: string, b: string, ca: Crypt, cb: Crypt)
    requires Uniform(TextKinds(a), ca) && Uniform(TextKinds(b), cb)
    ensures (forall digest: Digest :: OrderFree(digest, Plain, a, b)) <==>
            SafePair(ca, cb, FileTokens(a), FileTokens(b))
  {
    if SafePair(ca, cb, FileTokens(a), FileTokens(b)) {
      forall digest: Digest ensures OrderFree(digest, Plain, a, b) { SafePairIsFree(digest, a, b, ca, cb); }
    } else {
      UnsafePairShows(a, b, ca, cb);
    }
  }

  // ----- a file with no crypt line -------------------------------------------

  lemma {:induction false} BareIsCryptFirst(kinds: seq<Kind>)
    requires NoCrypt(kinds)
    ensures CryptFirst(kinds) <==> TokensOf(kinds) == []
  {
    if kinds != [] { BareIsCryptFirst(kinds[1..]); }
  }

  /** What a file with no crypt line adds, by the encoding left before it. */
  lemma BareFile(digest: Digest, first: bool, st: GroupState, kinds: seq<Kind>)
    requires NoCrypt(kinds) && st.icli != Plain && !Incompatible(st.icli, st.fcrypt)
    ensures GroupKinds(digest, first, st, kinds).table ==
      AddAll(st.table, Rekey(TokensOf(kinds), Storage(digest, st.icli, st.fcrypt)))
    ensures GroupKinds(digest, first, st, kinds).icli == st.icli
  {
    GroupAddsContribution(digest, first, st, kinds);
    OneCodeContribution(digest, st.icli, st.fcrypt, kinds);
  }

  lemma HashedThenBare(digest: Digest, code: Crypt, hashed: string, bare: string)
    requires code != Plain && Uniform(TextKinds(hashed), code) && NoCrypt(TextKinds(bare))
    ensures Group(digest, code, [hashed, bare]).table ==
      AddAll(AddAll(map[], AsIs(FileTokens(hashed))), AsIs(FileTokens(bare)))
    ensures Group(digest, code, [bare, hashed]).table ==
      AddAll(AddAll(map[], Rekey(FileTokens(bare), Storage(digest, code, Plain))), AsIs(FileTokens(hashed)))
  {
    var st := GroupState(map[], code, Plain);
    TwoFiles(digest, code, hashed, bare);
    TwoFiles(digest, code, bare, hashed);
    UniformFile(digest, true, st, code, TextKinds(hashed));
    BareFile(digest, false, GroupKinds(digest, true, st, TextKinds(hashed)), TextKinds(bare));
    BareFile(digest, true, st, TextKinds(bare));
    UniformFile(digest, false, GroupKinds(digest, true, st, TextKinds(bare)), code, TextKinds(hashed));
    StoredAsIs(digest, code, code, FileTokens(hashed));
    StoredAsIs(digest, code, code, FileTokens(bare));
  }

  lemma NoLeftover(digest: Digest, code: Crypt, hashed: string, bare: string)
    requires code != Plain && Uniform(TextKinds(hashed), code) && NoCrypt(TextKinds(bare))
    requires FileTokens(bare) == []
    ensures OrderFree(digest, code, hashed, bare)
  {
    HashedThenBare(digest, code, hashed, bare);
    assert AsIs([]) == [];
  }

  lemma LeftoverShows(code: Crypt, hashed: string, bare: string)
    requires code != Plain && Uniform(TextKinds(hashed), code) && NoCrypt(TextKinds(bare))
    requires FileTokens(bare) != []
    ensures !OrderFree(Spaced(), code, hashed, bare)
  {
    var th, tb := FileTokens(hashed), FileTokens(bare);
    HashedThenBare(Spaced(), code, hashed, bare);
    KindsNoSpaces(Lines(hashed, LINE_SIZE));
    KindsNoSpaces(Lines(bare, LINE_SIZE));
    AddAllSwap(map[], Rekey(tb, Storage(Spaced(), code, Plain)), AsIs(th));
    AddAllSwap(map[], AsIs(th), AsIs(tb));
    ToldApart(tb, th, code);
  }

  /** A file with no crypt line inherits the encoding of the file read before it:
      with a hash on the command line, its order with a hashed file does not
      matter, whatever the digest, if and only if it has no token to inherit. */
  lemma LeftoverEncoding(code: Crypt, hashed: string, bare: string)
    requires code != Plain && Uniform(TextKinds(hashed), code) && NoCrypt(TextKinds(bare))
    ensures (forall digest: Digest :: OrderFree(digest, code, hashed, bare)) <==> CryptFirst(TextKinds(bare))
  {
    BareIsCryptFirst(TextKinds(bare));
    if FileTokens(bare) == [] {
      forall digest: Digest ensures OrderFree(digest, code, hashed, bare) { NoLeftover(digest, code, hashed, bare); }
    } else {
      LeftoverShows(code, hashed, bare);
    }
  }

  // ----- files of these kinds ------------------------------------------------

  /** There are such files. */
  lemma FirstFileExample(token: string, n: Counts)
    requires |token| < TOKEN_SIZE && All(token, Printable) && FitsInt(n.s) && FitsInt(n.h)
    ensures TextKinds(CryptLine("a", "PLAIN") + TokenLine(token, n)) == [SetCrypt(Plain), Token(Entry("TOKEN:" + token, n))]
    ensures TextKinds(TokenLine(token, n)) == [Token(Entry("TOKEN:" + token, n))]
    ensures TextKinds(CryptLine("b", "MD5")) == [SetCrypt(MD5)]
  {
    LabelLine("a", "PLAIN");
    LabelLine("b", "MD5");
    assert LabelCode("PLAIN") == Plain && LabelCode("MD5") == MD5;
    TokenLineWhole(token, n);
    TokenLineReadsBack(token, n);
    TextOfTwo(CryptLine("a", "PLAIN"), TokenLine(token, n));
    TextOfOne(TokenLine(token, n));
    TextOfOne(CryptLine("b", "MD5"));
  }

  lemma LabelLine(fname: string, crypt: string)
    requires |fname| == 1 && Printable(fname[0]) && NotBlank(fname[0])
    requires 0 < |crypt| < CRYPT_SIZE && All(crypt, NotNewline) && NotBlank(crypt[0])
    ensures WholeLine(CryptLine(fname, crypt), LINE_SIZE)
    ensures Classify(CryptLine(fname, crypt)) == SetCrypt(LabelCode(crypt))
  {
    CryptLineWhole(fname, crypt);
    CryptLineReadsBack(fname, crypt);
    SpnExact(fname, "", NotBlank);
    assert fname + "" == fname;
  }

  lemma TextOfOne(a: string)
    requires WholeLine(a, LINE_SIZE)
    ensures TextKinds(a) == [Classify(a)]
  {
    LinesOfConcat([a], LINE_SIZE);
    assert Concat([a]) == a + "" == a;
    var g := Classifier();
    assert FlatMap(g, [a]) == g(a) + FlatMap(g, []);
  }

  lemma TextOfTwo(a: string, b: string)
    requires WholeLine(a, LINE_SIZE) && WholeLine(b, LINE_SIZE)
    ensures TextKinds(a + b) == [Classify(a), Classify(b)]
  {
    LinesOfConcat([a, b], LINE_SIZE);
    assert [a, b][1..] == [b] && Concat([b]) == b + Concat([]);
    assert Concat([a, b]) == a + b;
    var g := Classifier();
    assert FlatMap(g, [a, b]) == g(a) + FlatMap(g, [b]);
    assert FlatMap(g, [b]) == g(b) + FlatMap(g, []);
  }
}
