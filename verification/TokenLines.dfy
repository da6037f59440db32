/** What one line of a learn file or of a .tok file is to the token programs, told
    with the characters of the formats. */
module TokenLines {
  import opened CText
  import opened Tokens
  import opened TokenPipeline
  import opened TokenCounts

  /** `hash_label2code`, in any case. */
  lemma LabelCodeIs(name: string)
    ensures LabelCode(name) == if Lower(name) == "md5" then MD5 else if Lower(name) == "sha1" then SHA1 else Plain
  {
    assert Lower("MD5") == "md5" && Lower("SHA1") == "sha1";
  }

  // ----- .tok files ----------------------------------------------------------

  /** Nothing but spaces and tabs. */
  predicate Blanks(s: string) {
    forall i :: 0 <= i < |s| ==> s[i] == ' ' || s[i] == '\t'
  }

  predicate NoNewline(s: string) {
    forall i :: 0 <= i < |s| ==> s[i] != '\n'
  }

  /** No space and no newline. */
  predicate OneWord(s: string) {
    forall i :: 0 <= i < |s| ==> s[i] != ' ' && s[i] != '\n'
  }

  lemma CutsNewline(body: string, eol: string)
    requires NoNewline(body) && (eol == "" || eol[0] == '\n')
    ensures CutNewline(body + eol) == body
  {
    assert All(body, NotNewline);
    SpnExact(body, eol, NotNewline);
    assert (body + eol)[..|body|] == body;
  }

  lemma TagTells(tag: string, rest: string)
    requires |tag| == 6
    ensures IsToken(tag + rest) <==> Lower(tag) == "token:"
    ensures IsCrypt(tag + rest) <==> Lower(tag) == "crypt:"
  {
    var s := tag + rest;
    assert s[..6] == tag;
    assert Lower("token:") == "token:" && Lower("crypt:") == "crypt:";
  }

  lemma TagsDiffer()
    ensures "token:" != "crypt:"
  {
    assert "token:"[0] != "crypt:"[0];
  }

  lemma TokenParses(key: string, gap: string, a: int, white: string, b: int, rest: string)
    requires All(key, NotSpace) && gap != "" && gap[0] == ' ' && All(gap, IsBlank)
    requires white != "" && All(white, IsWhite) && (rest == "" || !IsDigit(rest[0]))
    requires IsToken(key + (gap + (PrintInt(a) + (white + (PrintInt(b) + rest)))))
    ensures ParseToken(key + (gap + (PrintInt(a) + (white + (PrintInt(b) + rest))))) == Some(Entry(key, Counts(a, b)))
  {
    var last := white + (PrintInt(b) + rest);
    var nums := PrintInt(a) + last;
    PrintIntPlain(a);
    SpnExact(key, gap + nums, NotSpace);
    assert (key + (gap + nums))[..|key|] == key && (key + (gap + nums))[|key|..] == gap + nums;
    SpnExact(gap, nums, IsBlank);
    ScanPrint("", a, last);
    assert "" + nums == nums;
    ScanPrint(white, b, rest);
  }

  lemma WhiteBlanks(s: string)
    requires Blanks(s)
    ensures All(s, IsBlank) && All(s, IsWhite)
  {
  }

  lemma NumbersOneLine(gap: string, a: int, white: string, b: int, rest: string)
    requires Blanks(gap) && Blanks(white) && NoNewline(rest)
    ensures NoNewline(gap + (PrintInt(a) + (white + (PrintInt(b) + rest))))
  {
    PrintIntPlain(a);
    PrintIntPlain(b);
    assert NoNewline(PrintInt(a)) && NoNewline(PrintInt(b));
  }

  lemma OneLine(a: string, b: string)
    requires NoNewline(a) && NoNewline(b)
    ensures NoNewline(a + b)
  {
  }

  /** A tag and a token ahead of something else. */
  lemma TaggedToken(tag: string, t: string, tail: string)
    requires |tag| == 6 && Lower(tag) == "token:" && OneWord(t)
    ensures IsToken(tag + t + tail) && !IsCrypt(tag + t + tail)
    ensures All(tag + t, NotSpace) && NoNewline(tag + t)
  {
    TagTells(tag, t + tail);
    TagsDiffer();
    Associate(tag, t, tail);
    TagIsWord(tag);
  }

  /** "token:" in any case, a token, spaces or tabs of which the first is a space,
      and two numbers: the line gives the token with the first number as its spam
      and the second as its ham. What follows the numbers does not matter. */
  lemma TokenLineIs(tag: string, t: string, gap: string, a: int, white: string, b: int, rest: string, eol: string)
    requires |tag| == 6 && Lower(tag) == "token:" && OneWord(t) && gap != "" && gap[0] == ' ' && Blanks(gap)
    requires white != "" && Blanks(white) && NoNewline(rest) && (rest == "" || !('0' <= rest[0] <= '9'))
    requires eol == "" || eol[0] == '\n'
    ensures Classify(tag + t + (gap + (PrintInt(a) + (white + (PrintInt(b) + rest)))) + eol) ==
            Token(Entry(tag + t, Counts(a, b)))
  {
    var tail := gap + (PrintInt(a) + (white + (PrintInt(b) + rest)));
    TaggedToken(tag, t, tail);
    WhiteBlanks(gap);
    WhiteBlanks(white);
    TokenParses(tag + t, gap, a, white, b, rest);
    NumbersOneLine(gap, a, white, b, rest);
    OneLine(tag + t, tail);
    CutsNewline(tag + t + tail, eol);
    ClassifyToken(tag + t + tail + eol, tag + t + tail, Entry(tag + t, Counts(a, b)));
  }

  lemma TagIsWord(tag: string)
    requires |tag| == 6 && (Lower(tag) == "token:" || Lower(tag) == "crypt:")
    ensures OneWord(tag) && All(tag, NotBlank) && All(tag, NotSpace)
  {
    forall i | 0 <= i < 6 ensures tag[i] != ' ' && tag[i] != '\n' && tag[i] != '\t' {
      assert Lower(tag)[i] == LowerChar(tag[i]);
    }
  }

  /** A token line with no space, or with one number only, gives nothing. */
  lemma BareTokenLine(tag: string, t: string, eol: string)
    requires |tag| == 6 && Lower(tag) == "token:" && OneWord(t) && (eol == "" || eol[0] == '\n')
    ensures Classify(tag + t + eol) == Other
  {
    var buf := tag + t;
    TagTells(tag, t);
    TagsDiffer();
    TagIsWord(tag);
    assert All(buf, NotSpace);
    SpnExact(buf, "", NotSpace);
    assert buf + "" == buf;
    CutsNewline(buf, eol);
  }

  lemma HalfParses(key: string, gap: string, a: int)
    requires All(key, NotSpace) && gap != "" && gap[0] == ' ' && All(gap, IsBlank)
    requires IsToken(key + (gap + PrintInt(a)))
    ensures ParseToken(key + (gap + PrintInt(a))) == None
  {
    var num := PrintInt(a);
    PrintIntPlain(a);
    SpnExact(key, gap + num, NotSpace);
    assert (key + (gap + num))[..|key|] == key && (key + (gap + num))[|key|..] == gap + num;
    SpnExact(gap, num, IsBlank);
    ScanPrint("", a, "");
    assert "" + (num + "") == num;
    assert ScanInt("") == None;
  }

  lemma NotParsed(line: string, buf: string)
    requires CutNewline(line) == buf && IsToken(buf) && !IsCrypt(buf) && ParseToken(buf) == None
    ensures Classify(line) == Other
  {
  }

  lemma HalfTokenLine(tag: string, t: string, gap: string, a: int, eol: string)
    requires |tag| == 6 && Lower(tag) == "token:" && OneWord(t) && gap != "" && gap[0] == ' ' && Blanks(gap)
    requires eol == "" || eol[0] == '\n'
    ensures Classify(tag + t + (gap + PrintInt(a)) + eol) == Other
  {
    var tail := gap + PrintInt(a);
    TaggedToken(tag, t, tail);
    WhiteBlanks(gap);
    HalfParses(tag + t, gap, a);
    PrintIntPlain(a);
    assert NoNewline(PrintInt(a));
    OneLine(gap, PrintInt(a));
    OneLine(tag + t, tail);
    CutsNewline(tag + t + tail, eol);
    NotParsed(tag + t + tail + eol, tag + t + tail);
  }

  /** "crypt:" in any case, a name and a label: the line sets the label's code. */
  lemma CryptLineIs(tag: string, name: string, gap: string, lab: string, eol: string)
    requires |tag| == 6 && Lower(tag) == "crypt:" && OneWord(name) && '\t' !in name && gap != "" && Blanks(gap)
    requires NoNewline(lab) && lab != "" && lab[0] != ' ' && lab[0] != '\t' && (eol == "" || eol[0] == '\n')
    ensures Classify(tag + name + (gap + lab) + eol) == SetCrypt(LabelCode(lab))
  {
    var buf := tag + name + (gap + lab);
    TagTells(tag, name + (gap + lab));
    Associate(tag, name, gap + lab);
    TagIsWord(tag);
    WhiteBlanks(gap);
    assert All(tag + name, NotBlank) && NoNewline(tag + name);
    SecondWordIs(tag + name, gap, lab);
    OneLine(gap, lab);
    OneLine(tag + name, gap + lab);
    CutsNewline(buf, eol);
    ClassifyCrypt(buf + eol, buf, lab);
  }

  /** A line that begins otherwise gives nothing. */
  lemma OtherLineIs(tag: string, rest: string, eol: string)
    requires |tag| == 6 && Lower(tag) != "token:" && Lower(tag) != "crypt:"
    requires NoNewline(tag + rest) && (eol == "" || eol[0] == '\n')
    ensures Classify(tag + rest + eol) == Other
  {
    TagTells(tag, rest);
    CutsNewline(tag + rest, eol);
  }

  /** Reading a crypt line: the file's encoding is the line's; the first file gives
      it to a plain output; another hash than the output's ends the file. */
  lemma CryptStep(digest: Digest, first: bool, st: GroupState, code: Crypt)
    ensures
      var (r, stop) := GroupKind(digest, first, st, SetCrypt(code));
      r.fcrypt == code && r.table == st.table &&
      r.icli == (if first && st.icli == Plain then code else st.icli) &&
      (stop <==> r.icli != Plain && code != Plain && r.icli != code)
  {
  }

  /** Reading a token line: its counts are added under the digest of the token, when
      the output is hashed and the file plain, or under the token as it is. */
  lemma TokenStep(digest: Digest, first: bool, st: GroupState, e: Entry)
    requires |e.key| >= 6
    ensures
      var (r, stop) := GroupKind(digest, first, st, Token(e));
      var key := if st.icli != Plain && st.fcrypt == Plain then StrLCpy("TOKEN:" + digest(st.icli, e.key[6..]), 128)
                 else StrLCpy(e.key, 128);
      !stop && r.icli == st.icli && r.fcrypt == st.fcrypt && Added(st.table, key, e.n, r.table)
  {
    AddIsAdded(st.table, KeyFor(digest, st.icli, st.fcrypt, e.key), e.n);
  }

  /** m' is m with the counts added under the key and nothing else changed. */
  ghost predicate Added(m: TokenTable, key: string, n: Counts, m': TokenTable) {
    m'.Keys == m.Keys + {key} && (forall k :: k in m && k != key ==> m'[k] == m[k]) &&
    m'[key] == if key in m then Counts(m[key].s + n.s, m[key].h + n.h) else n
  }

  lemma AddIsAdded(m: TokenTable, key: string, n: Counts)
    ensures Added(m, key, n, Add(m, Entry(key, n)))
  {
  }

  // ----- learn files ---------------------------------------------------------

  lemma AtoiPrinted(n: int)
    ensures Atoi(PrintInt(n)) == n
  {
    ScanPrint("", n, "");
    assert "" + (PrintInt(n) + "") == PrintInt(n);
  }

  predicate Words(ws: seq<string>) {
    forall i :: 0 <= i < |ws| ==> ws[i] != "" && OneWord(ws[i])
  }

  lemma {:induction false} JoinOneLine(ws: seq<string>)
    requires ws != [] && Words(ws)
    ensures NoNewline(Join(ws))
  {
    assert ws[0] != "" && OneWord(ws[0]);
    if |ws| > 1 { JoinOneLine(ws[1..]); }
  }

  lemma WordsAre(ws: seq<string>)
    requires Words(ws)
    ensures forall i :: 0 <= i < |ws| ==> IsWord(ws[i])
  {
    forall i | 0 <= i < |ws| ensures IsWord(ws[i]) {
      assert ws[i] != "" && OneWord(ws[i]);
    }
  }

  lemma TokenWordTells(ws: seq<string>)
    requires |ws| >= 2 && |ws[0]| == 5
    ensures IsLearnToken(Join(ws)) <==> Lower(ws[0]) == "token"
  {
    var s, w := Join(ws), ws[0] + " ";
    assert s == ws[0] + (" " + Join(ws[1..]));
    assert s[..6] == w;
    assert Lower("token ") == "token" + " ";
    LowerConcat(ws[0], " ");
    assert Lower(" ") == " ";
    assert Lower(w)[..5] == Lower(ws[0]) && ("token" + " ")[..5] == "token";
  }

  /** A learn line "token . . <tag> <count> <token> ...": one entry for the token, as
      spam when the tag is s or S, else as ham; the count counts in the multinomial
      model and is one otherwise. */
  lemma LearnLineIs(ws: seq<string>, n: int, multinomial: bool, eol: string)
    requires |ws| >= 6 && Words(ws) && Lower(ws[0]) == "token" && ws[4] == PrintInt(n)
    requires eol == "" || eol[0] == '\n'
    ensures WellFormedLine(Join(ws) + eol)
    ensures
      var m := if multinomial then n else 1;
      LearnEntries(Join(ws) + eol, multinomial) ==
        [Entry(StrLCpy(ws[5], 128), if Lower(ws[3]) == "s" then Counts(m, 0) else Counts(0, m))]
  {
    WordsAre(ws);
    FieldsJoin(ws);
    JoinOneLine(ws);
    CutsNewline(Join(ws), eol);
    assert |Lower(ws[0])| == 5;
    TokenWordTells(ws);
    AtoiPrinted(n);
    assert Lower("s") == "s";
  }

  /** A line whose first word of five letters is another gives no entry. */
  lemma OtherLearnLine(ws: seq<string>, multinomial: bool, eol: string)
    requires |ws| >= 2 && Words(ws) && |ws[0]| == 5 && Lower(ws[0]) != "token" && (eol == "" || eol[0] == '\n')
    ensures WellFormedLine(Join(ws) + eol) && LearnEntries(Join(ws) + eol, multinomial) == []
  {
    JoinOneLine(ws);
    CutsNewline(Join(ws), eol);
    TokenWordTells(ws);
  }

  /** A learn line "crypt <label>" sets the label, of which 15 characters are kept. */
  lemma LearnCryptIs(crypt: string, tag: string, gap: string, lab: string, eol: string)
    requires Lower(tag) == "crypt" && gap != "" && gap[0] == ' ' && Blanks(gap)
    requires NoNewline(lab) && lab != "" && lab[0] != ' ' && lab[0] != '\t' && (eol == "" || eol[0] == '\n')
    ensures LearnCrypt(crypt, tag + (gap + lab) + eol) == if |lab| <= 15 then lab else lab[..15]
  {
    var buf := tag + (gap + lab);
    assert |Lower(tag)| == 5;
    forall i | 0 <= i < 5 ensures tag[i] != ' ' && tag[i] != '\n' && tag[i] != '\t' {
      assert Lower(tag)[i] == LowerChar(tag[i]);
    }
    assert buf[..6] == tag + " ";
    LowerConcat(tag, " ");
    assert Lower("crypt ") == "crypt" + " " && Lower(" ") == " ";
    WhiteBlanks(gap);
    SecondWordIs(tag, gap, lab);
    assert NoNewline(tag) && NoNewline(gap + lab);
    CutsNewline(buf, eol);
  }
}
