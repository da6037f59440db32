/** libjoe/j-dbpolicy.c: the search for the most specific policy record of a
    host, an address or a mailbox. The btree compares keys with `strcasecmp`, so
    a record is known by its lower-cased key. */
module Policy {
  import opened CText

  type Database = map<string, string>

  const KeySize := 256

  /** `snprintf(k, sizeof (k), "%s:%s", prefix, s)`. */
  function MakeKey(prefix: string, s: string): string {
    StrLCpy(prefix + ":" + s, KeySize)
  }

  /** `jdb_get_rec`. */
  function GetRec(db: Database, k: string): Option<string> {
    if Lower(k) in db then Some(db[Lower(k)]) else None
  }

  // ----- character search ----------------------------------------------------

  function Except(c: char): char -> bool { (x: char) => x != c }

  /** `strchr`: the first position of c, or the length. */
  function IndexOf(s: string, c: char): (i: nat)
    ensures i <= |s|
  {
    Spn(s, Except(c))
  }

  predicate IsFirst(s: string, c: char, i: nat) {
    i <= |s| && (forall j :: 0 <= j < i ==> s[j] != c) && (i < |s| ==> s[i] == c)
  }

  lemma IndexOfSpec(s: string, c: char)
    ensures IsFirst(s, c, IndexOf(s, c))
    ensures IndexOf(s, c) == |s| <==> c !in s
  {
    var i := IndexOf(s, c);
    SpnSpec(s, Except(c));
    assert forall j :: 0 <= j < i ==> Except(c)(s[..i][j]);
  }

  lemma IndexOfIs(s: string, c: char, i: nat)
    requires IsFirst(s, c, i)
    ensures IndexOf(s, c) == i
  {
    IndexOfSpec(s, c);
  }

  /** `strrchr`: the last position of c, or the length. */
  function LastIndexOf(s: string, c: char): (i: nat)
    ensures i <= |s|
  {
    if s == "" then 0
    else if s[|s| - 1] == c then |s| - 1
    else
      var i := LastIndexOf(s[..|s| - 1], c);
      if i == |s| - 1 then |s| else i
  }

  predicate IsLast(s: string, c: char, i: nat) {
    if i < |s| then s[i] == c && forall j :: i < j < |s| ==> s[j] != c
    else i == |s| && forall j :: 0 <= j < |s| ==> s[j] != c
  }

  lemma {:induction false} LastIndexOfSpec(s: string, c: char)
    ensures IsLast(s, c, LastIndexOf(s, c))
  {
    if s != "" && s[|s| - 1] != c {
      var t := s[..|s| - 1];
      LastIndexOfSpec(t, c);
      assert forall j :: 0 <= j < |t| ==> t[j] == s[j];
    }
  }

  lemma LastIndexOfIs(s: string, c: char, i: nat)
    requires IsLast(s, c, i)
    ensures LastIndexOf(s, c) == i
  {
    LastIndexOfSpec(s, c);
  }

  /** The IPv4 expression: n runs of digits separated by dots. */
  predicate DottedDigits(s: string, n: nat) {
    var k := Spn(s, IsDigit);
    k > 0 && (if n <= 1 then k == |s| else k < |s| && s[k] == '.' && DottedDigits(s[k + 1..], n - 1))
  }

  predicate IsIPv4(s: string) { DottedDigits(s, 4) }

  /** The IPv6 expression "(ipv6:)?.*:" is not anchored: any colon matches. */
  predicate IsIPv6(s: string) { ':' in s }

  /** `extract_email_address`: what stands between the first '<' and the last '>'
      after it, or everything, in lower case. */
  function ExtractAddress(s: string): string {
    var i, j := IndexOf(s, '<'), LastIndexOf(s, '>');
    if i < j < |s| then Lower(s[i + 1..j]) else Lower(s)
  }

  // ----- the keys tried, in order --------------------------------------------

  /** The keys tried for an address: k, then k cut at its last dot, and so on. */
  function AddressKeys(k: string): seq<string>
    decreases |k|
  {
    if k == "" then []
    else
      var i := LastIndexOf(k, '.');
      if i < |k| then [k] + AddressKeys(k[..i]) else [k]
  }

  /** The keys tried for a name: itself, then what follows each of its dots. */
  function NameKeys(makeKey: string -> string, p: string): seq<string>
    decreases |p|
  {
    if p == "" then []
    else
      var i := IndexOf(p, '.');
      if i < |p| then [makeKey(p)] + NameKeys(makeKey, p[i + 1..]) else [makeKey(p)]
  }

  function LowerKey(prefix: string): string -> string {
    (s: string) => Lower(MakeKey(prefix, s))
  }

  function TextKeys(prefix: string, texts: seq<string>): seq<string> {
    if texts == [] then [] else [MakeKey(prefix, texts[0])] + TextKeys(prefix, texts[1..])
  }

  /** The keys tried for the domain part. `ipv6` gives the texts of an IPv6
      address that are tried after the one the caller wrote. */
  function DomainKeys(ipv6: string -> seq<string>, prefix: string, domain: string): seq<string> {
    if IsIPv4(domain) then AddressKeys(Lower(MakeKey(prefix, domain)))
    else if IsIPv6(domain) then TextKeys(prefix, [domain] + ipv6(domain))
    else NameKeys(LowerKey(prefix), domain)
  }

  function CutAfterAt(k: string): string {
    var i := IndexOf(k, '@');
    if i < |k| then k[..i + 1] else k
  }

  function DefaultKey(key: string): string { if key == "" then "default" else key }

  /** Every key a check of a mailbox tries, most specific first. */
  function MailboxKeys(ipv6: string -> seq<string>, prefix: string, email: string, domain: string): seq<string> {
    var full := Lower(MakeKey(prefix, email));
    [full] + DomainKeys(ipv6, prefix, domain) + [CutAfterAt(full)]
  }

  /** The record of the first key that has one. */
  function FirstHit(db: Database, keys: seq<string>): Option<string> {
    if keys == [] then None
    else if GetRec(db, keys[0]).Some? then GetRec(db, keys[0])
    else FirstHit(db, keys[1..])
  }

  lemma {:induction false} FirstHitAppend(db: Database, a: seq<string>, b: seq<string>)
    ensures FirstHit(db, a + b) == if FirstHit(db, a).Some? then FirstHit(db, a) else FirstHit(db, b)
  {
    if a == [] {
      assert a + b == b;
    } else {
      assert (a + b)[1..] == a[1..] + b;
      FirstHitAppend(db, a[1..], b);
    }
  }

  lemma FirstHitOne(db: Database, k: string)
    ensures FirstHit(db, [k]) == GetRec(db, k)
  {
    assert [k][1..] == [];
  }

  lemma FirstHitNext(db: Database, k: string, rest: seq<string>)
    requires GetRec(db, k) == None
    ensures FirstHit(db, [k] + rest) == FirstHit(db, rest)
  {
    assert ([k] + rest)[1..] == rest;
  }

  lemma FirstHitThree(db: Database, k: string, keys: seq<string>, last: string)
    ensures FirstHit(db, [k] + keys + [last]) ==
      if GetRec(db, k).Some? then GetRec(db, k)
      else if FirstHit(db, keys).Some? then FirstHit(db, keys)
      else GetRec(db, last)
  {
    FirstHitAppend(db, [k] + keys, [last]);
    FirstHitAppend(db, [k], keys);
    FirstHitOne(db, k);
    FirstHitOne(db, last);
  }

  /** What is to be checked: a host, or a mailbox and a domain. */
  datatype Target = Host(host: string) | MailTo(email: string, domain: string)

  function TargetOf(key: string): Target {
    var i := IndexOf(key, '@');
    if i == |key| then Host(key) else MailTo(ExtractAddress(key), key[i + 1..])
  }

  /** Every key a check tries, most specific first. */
  function TargetKeys(ipv6: string -> seq<string>, prefix: string, t: Target): seq<string> {
    match t
    case Host(host) => DomainKeys(ipv6, prefix, host)
    case MailTo(email, domain) => MailboxKeys(ipv6, prefix, email, domain)
  }

  /** What a check of the table answers. */
  function Check(db: Database, ipv6: string -> seq<string>, prefix: string, key: string): Option<string> {
    FirstHit(db, TargetKeys(ipv6, prefix, TargetOf(DefaultKey(key))))
  }

  // ----- the imperative search -----------------------------------------------

  lemma AddressStep(db: Database, k: string, i: nat)
    requires k != "" && i == LastIndexOf(k, '.') && GetRec(db, k) == None
    ensures FirstHit(db, AddressKeys(k)) == if i < |k| then FirstHit(db, AddressKeys(k[..i])) else None
  {
    if i < |k| {
      FirstHitNext(db, k, AddressKeys(k[..i]));
    } else {
      FirstHitOne(db, k);
    }
  }

  method CheckAddress(db: Database, prefix: string, domain: string) returns (v: Option<string>)
    ensures v == FirstHit(db, AddressKeys(Lower(MakeKey(prefix, domain))))
  {
    var k := Lower(MakeKey(prefix, domain));
    ghost var answer := FirstHit(db, AddressKeys(k));
    while |k| > 0
      invariant FirstHit(db, AddressKeys(k)) == answer
      decreases |k|
    {
      v := GetRec(db, k);
      if v.Some? { return; }
      var i := LastIndexOf(k, '.');
      AddressStep(db, k, i);
      if i == |k| { return; }
      k := k[..i];
    }
    v := None;
  }

  lemma NameStep(db: Database, makeKey: string -> string, p: string, i: nat)
    requires p != "" && i == IndexOf(p, '.') && GetRec(db, makeKey(p)) == None
    ensures FirstHit(db, NameKeys(makeKey, p)) == if i < |p| then FirstHit(db, NameKeys(makeKey, p[i + 1..])) else None
  {
    if i < |p| {
      NameKeysNext(makeKey, p, i);
      FirstHitNext(db, makeKey(p), NameKeys(makeKey, p[i + 1..]));
    } else {
      NameKeysLast(makeKey, p);
      FirstHitOne(db, makeKey(p));
    }
  }

  lemma NameKeysNext(makeKey: string -> string, p: string, i: nat)
    requires i < |p| && i == IndexOf(p, '.')
    ensures NameKeys(makeKey, p) == [makeKey(p)] + NameKeys(makeKey, p[i + 1..])
  {
  }

  lemma NameKeysLast(makeKey: string -> string, p: string)
    requires p != "" && IndexOf(p, '.') == |p|
    ensures NameKeys(makeKey, p) == [makeKey(p)]
  {
  }

  method CheckName(db: Database, prefix: string, domain: string) returns (v: Option<string>)
    ensures v == FirstHit(db, NameKeys(LowerKey(prefix), domain))
  {
    var p := domain;
    ghost var makeKey := LowerKey(prefix);
    ghost var answer := FirstHit(db, NameKeys(makeKey, p));
    while |p| > 0
      invariant FirstHit(db, NameKeys(makeKey, p)) == answer
      decreases |p|
    {
      var k := Lower(MakeKey(prefix, p));
      assert k == makeKey(p);
      v := GetRec(db, k);
      if v.Some? { return; }
      var i := IndexOf(p, '.');
      NameStep(db, makeKey, p, i);
      if i == |p| { return; }
      p := p[i + 1..];
    }
    v := None;
  }

  method CheckTexts(db: Database, prefix: string, texts: seq<string>) returns (v: Option<string>)
    ensures v == FirstHit(db, TextKeys(prefix, texts))
  {
    var i := 0;
    while i < |texts|
      invariant 0 <= i <= |texts|
      invariant FirstHit(db, TextKeys(prefix, texts[i..])) == FirstHit(db, TextKeys(prefix, texts))
    {
      assert texts[i..][1..] == texts[i + 1..];
      v := GetRec(db, MakeKey(prefix, texts[i]));
      if v.Some? { return; }
      i := i + 1;
    }
    v := None;
  }

  method CheckDomain(db: Database, ipv6: string -> seq<string>, prefix: string, domain: string)
    returns (v: Option<string>)
    ensures v == FirstHit(db, DomainKeys(ipv6, prefix, domain))
  {
    if IsIPv4(domain) {
      v := CheckAddress(db, prefix, domain);
    } else if IsIPv6(domain) {
      v := CheckTexts(db, prefix, [domain] + ipv6(domain));
    } else {
      v := CheckName(db, prefix, domain);
    }
  }

  method CheckMailbox(
    db: Database, ipv6: string -> seq<string>, prefix: string, email: string, domain: string)
    returns (v: Option<string>)
    ensures v == FirstHit(db, MailboxKeys(ipv6, prefix, email, domain))
  {
    var k := Lower(MakeKey(prefix, email));
    FirstHitThree(db, k, DomainKeys(ipv6, prefix, domain), CutAfterAt(k));
    v := GetRec(db, k);
    if v.Some? { return; }
    v := CheckDomain(db, ipv6, prefix, domain);
    if v.Some? { return; }
    v := GetRec(db, CutAfterAt(k));
  }

  method CheckTarget(db: Database, ipv6: string -> seq<string>, prefix: string, t: Target)
    returns (v: Option<string>)
    ensures v == FirstHit(db, TargetKeys(ipv6, prefix, t))
  {
    match t {
      case Host(host) => v := CheckDomain(db, ipv6, prefix, host);
      case MailTo(email, domain) => v := CheckMailbox(db, ipv6, prefix, email, domain);
    }
  }

  /** What the caller gets: whether there is a record, and as much of it as its
      buffer holds; a buffer of no bytes stands for none. */
  predicate Delivered(rec: Option<string>, size: nat, found: bool, bufout: Option<string>) {
    found == rec.Some? && bufout == if found && size > 0 then Some(StrLCpy(rec.value, size)) else None
  }

  /** `db_policy_check`; the key may be NULL. */
  method PolicyCheck(db: Database, ipv6: string -> seq<string>, prefix: string, key: Option<string>, size: nat)
    returns (found: bool, bufout: Option<string>)
    ensures Delivered(if key.None? then None else Check(db, ipv6, prefix, key.value), size, found, bufout)
  {
    if key.None? { return false, None; }
    var v := CheckTarget(db, ipv6, prefix, TargetOf(DefaultKey(key.value)));
    found, bufout := v.Some?, None;
    if found && size > 0 { bufout := Some(StrLCpy(v.value, size)); }
  }

  function Lookup(db: Database, prefix: string, key: string): Option<string> {
    GetRec(db, Lower(MakeKey(prefix, DefaultKey(key))))
  }

  /** `db_policy_lookup`; the key may be NULL. A key that fits the buffer answers
      with its own record, a longer one with that of its first 255 characters. */
  method PolicyLookup(db: Database, prefix: string, key: Option<string>, size: nat)
    returns (found: bool, bufout: Option<string>)
    ensures key.None? ==> !found && bufout == None
    ensures key.Some? && Fits(prefix, DefaultKey(key.value)) ==>
      Delivered(RecordOf(db, prefix, DefaultKey(key.value)), size, found, bufout)
    ensures key.Some? && !Fits(prefix, DefaultKey(key.value)) ==>
      Delivered(GetRec(db, (prefix + ":" + DefaultKey(key.value))[..255]), size, found, bufout)
    ensures key == Some("") && |prefix| <= 247 ==> Delivered(RecordOf(db, prefix, "default"), size, found, bufout)
    ensures key.Some? ==> Delivered(Lookup(db, prefix, key.value), size, found, bufout)
  {
    if key.None? { return false, None; }
    var k := Lower(MakeKey(prefix, DefaultKey(key.value)));
    LookupKey(db, prefix, DefaultKey(key.value));
    var v := GetRec(db, k);
    found, bufout := v.Some?, None;
    if found && size > 0 { bufout := Some(StrLCpy(v.value, size)); }
  }

  lemma LookupKey(db: Database, prefix: string, s: string)
    ensures GetRec(db, Lower(MakeKey(prefix, s))) ==
      if Fits(prefix, s) then RecordOf(db, prefix, s) else GetRec(db, (prefix + ":" + s)[..255])
  {
    LowerIdempotent(MakeKey(prefix, s));
  }

  // ----- the record of a policy ----------------------------------------------

  /** The record stored for s under a prefix, with no buffer in the way. */
  function RecordOf(db: Database, prefix: string, s: string): Option<string> {
    GetRec(db, prefix + ":" + s)
  }

  /** The key of s fits the 256-byte buffer. */
  predicate Fits(prefix: string, s: string) { |prefix| + 1 + |s| <= 255 }

  lemma KeyFits(db: Database, prefix: string, s: string)
    requires Fits(prefix, s)
    ensures MakeKey(prefix, s) == prefix + ":" + s
    ensures GetRec(db, Lower(MakeKey(prefix, s))) == RecordOf(db, prefix, s)
  {
    LowerIdempotent(MakeKey(prefix, s));
  }

  // ----- names: the longest dotted suffix ------------------------------------

  /** A label of d starts at i. */
  predicate LabelAt(d: string, i: int) {
    0 <= i < |d| && (i == 0 || d[i - 1] == '.')
  }

  /** v is the record of the longest dotted suffix of d that has one, and is
      missing exactly when none has. */
  ghost predicate LongestSuffix(db: Database, prefix: string, d: string, v: Option<string>) {
    (v == None ==> forall i :: LabelAt(d, i) ==> RecordOf(db, prefix, d[i..]) == None) &&
    (v.Some? ==> exists i ::
      LabelAt(d, i) && RecordOf(db, prefix, d[i..]) == v &&
      forall j :: LabelAt(d, j) && j < i ==> RecordOf(db, prefix, d[j..]) == None)
  }

  lemma LabelShift(d: string, i: nat, j: int)
    requires i < |d| && d[i] == '.'
    ensures LabelAt(d[i + 1..], j) <==> 0 <= j && LabelAt(d, i + 1 + j)
    ensures 0 <= j <= |d| - i - 1 ==> d[i + 1..][j..] == d[i + 1 + j..]
  {
  }

  lemma NextLabel(d: string, j: int)
    requires LabelAt(d, j) && j > 0
    ensures IndexOf(d, '.') < j
  {
    IndexOfSpec(d, '.');
  }

  lemma LastLabel(db: Database, prefix: string, d: string)
    requires d != "" && '.' !in d
    ensures LongestSuffix(db, prefix, d, RecordOf(db, prefix, d))
  {
    assert d[0..] == d && LabelAt(d, 0);
    forall j | LabelAt(d, j) ensures j == 0 {}
  }

  lemma LongerMissing(db: Database, prefix: string, d: string, i: nat, v: Option<string>)
    requires i < |d| && i == IndexOf(d, '.') && RecordOf(db, prefix, d) == None
    requires LongestSuffix(db, prefix, d[i + 1..], v)
    ensures LongestSuffix(db, prefix, d, v)
  {
    var e := d[i + 1..];
    assert d[0..] == d;
    forall j | LabelAt(d, j) && j > 0
      ensures LabelAt(e, j - i - 1) && e[j - i - 1..] == d[j..]
    {
      NextLabel(d, j);
      IndexOfSpec(d, '.');
      LabelShift(d, i, j - i - 1);
    }
    if v.Some? {
      var m :| LabelAt(e, m) && RecordOf(db, prefix, e[m..]) == v &&
        forall j :: LabelAt(e, j) && j < m ==> RecordOf(db, prefix, e[j..]) == None;
      IndexOfSpec(d, '.');
      LabelShift(d, i, m);
      assert LabelAt(d, i + 1 + m);
    }
  }

  /** The name search answers with the longest dotted suffix present. */
  lemma {:induction false} NameMostSpecific(db: Database, prefix: string, d: string)
    requires Fits(prefix, d)
    ensures LongestSuffix(db, prefix, d, FirstHit(db, NameKeys(LowerKey(prefix), d)))
    decreases |d|
  {
    if d != "" {
      var i := IndexOf(d, '.');
      KeyFits(db, prefix, d);
      assert LowerKey(prefix)(d) == Lower(MakeKey(prefix, d));
      if RecordOf(db, prefix, d).None? {
        NameStep(db, LowerKey(prefix), d, i);
        if i == |d| {
          IndexOfSpec(d, '.');
          LastLabel(db, prefix, d);
        } else {
          NameMostSpecific(db, prefix, d[i + 1..]);
          LongerMissing(db, prefix, d, i, FirstHit(db, NameKeys(LowerKey(prefix), d[i + 1..])));
        }
      } else {
        assert d[0..] == d && LabelAt(d, 0);
      }
    }
  }

  // ----- addresses: the longest octet prefix ---------------------------------

  /** An octet of d ends at i. */
  predicate OctetEnd(d: string, i: int) {
    0 <= i <= |d| && (i == |d| || d[i] == '.')
  }

  ghost predicate LongestPrefix(db: Database, prefix: string, d: string, v: Option<string>) {
    (v == None ==> forall i :: OctetEnd(d, i) ==> RecordOf(db, prefix, d[..i]) == None) &&
    (v.Some? ==> exists i ::
      OctetEnd(d, i) && RecordOf(db, prefix, d[..i]) == v &&
      forall j :: OctetEnd(d, j) && i < j ==> RecordOf(db, prefix, d[..j]) == None)
  }

  lemma OctetCut(d: string, i: nat, j: int)
    requires i < |d| && i == LastIndexOf(d, '.')
    ensures OctetEnd(d[..i], j) <==> OctetEnd(d, j) && j < |d|
    ensures 0 <= j <= i ==> d[..i][..j] == d[..j]
  {
  }

  lemma LongerPrefixMissing(db: Database, prefix: string, d: string, i: nat, v: Option<string>)
    requires i < |d| && i == LastIndexOf(d, '.') && RecordOf(db, prefix, d) == None
    requires LongestPrefix(db, prefix, d[..i], v)
    ensures LongestPrefix(db, prefix, d, v)
  {
    var e := d[..i];
    forall j | OctetEnd(d, j) && RecordOf(db, prefix, d[..j]).Some?
      ensures OctetEnd(e, j) && RecordOf(db, prefix, e[..j]).Some?
    {
      assert d[..|d|] == d;
      OctetCut(d, i, j);
    }
    if v.Some? {
      var m :| OctetEnd(e, m) && RecordOf(db, prefix, e[..m]) == v &&
        forall j :: OctetEnd(e, j) && m < j ==> RecordOf(db, prefix, e[..j]) == None;
      OctetCut(d, i, m);
      assert OctetEnd(d, m);
    }
  }

  lemma LowerDot(s: string, t: string)
    requires '.' !in s
    ensures LastIndexOf(Lower(s + t), '.') == |s| + LastIndexOf(t, '.')
  {
    var k, i := Lower(s + t), LastIndexOf(t, '.');
    LastIndexOfSpec(t, '.');
    assert forall j :: 0 <= j < |k| ==> (k[j] == '.' <==> (s + t)[j] == '.');
    if i < |t| { assert k[|s| + i] == '.'; }
    LastIndexOfIs(k, '.', |s| + i);
  }

  lemma LowerTake(s: string, d: string, i: nat)
    requires i <= |d|
    ensures Lower(s + d)[..|s| + i] == Lower(s + d[..i])
  {
    LowerConcat(s, d);
    LowerConcat(s, d[..i]);
  }

  lemma AddressKeysStep(k: string, i: nat, k': string)
    requires k != "" && i == LastIndexOf(k, '.')
    requires i < |k| ==> k[..i] == k'
    ensures AddressKeys(k) == if i < |k| then [k] + AddressKeys(k') else [k]
  {
  }

  /** The keys of an address are its octet prefixes, longest first. */
  lemma AddressKeysUnfold(s: string, d: string, i: nat, k: string, k': string)
    requires s != "" && '.' !in s && i == LastIndexOf(d, '.')
    requires k == Lower(s + d) && k' == Lower(s + d[..i])
    ensures AddressKeys(k) == if i < |d| then [k] + AddressKeys(k') else [k]
  {
    LowerDot(s, d);
    LowerTake(s, d, i);
    AddressKeysStep(k, |s| + i, k');
  }

  lemma {:induction false} PrefixMostSpecific(db: Database, prefix: string, d: string)
    requires '.' !in prefix
    ensures LongestPrefix(db, prefix, d, FirstHit(db, AddressKeys(Lower(prefix + ":" + d))))
    decreases |d|
  {
    var k, i := Lower(prefix + ":" + d), LastIndexOf(d, '.');
    AddressKeysUnfold(prefix + ":", d, i, k, Lower(prefix + ":" + d[..i]));
    LowerIdempotent(prefix + ":" + d);
    assert d[..|d|] == d && OctetEnd(d, |d|);
    if i == |d| {
      FirstHitOne(db, k);
      LastIndexOfSpec(d, '.');
      forall j | OctetEnd(d, j) ensures j == |d| {}
    } else if GetRec(db, k).None? {
      PrefixMostSpecific(db, prefix, d[..i]);
      var rest := AddressKeys(Lower(prefix + ":" + d[..i]));
      assert ([k] + rest)[1..] == rest;
      LongerPrefixMissing(db, prefix, d, i, FirstHit(db, rest));
    }
  }

  // ----- what a check answers ------------------------------------------------

  /** A host name that is neither a mailbox nor an address. */
  predicate IsName(d: string) { !IsIPv4(d) && !IsIPv6(d) }

  /** The record a domain part answers with: longest octet prefix or longest
      dotted suffix. */
  ghost predicate DomainAnswer(db: Database, prefix: string, d: string, v: Option<string>) {
    if IsIPv4(d) then LongestPrefix(db, prefix, d, v) else LongestSuffix(db, prefix, d, v)
  }

  lemma DomainMostSpecific(db: Database, ipv6: string -> seq<string>, prefix: string, d: string)
    requires '.' !in prefix && Fits(prefix, d) && (IsIPv4(d) || !IsIPv6(d))
    ensures DomainAnswer(db, prefix, d, FirstHit(db, DomainKeys(ipv6, prefix, d)))
  {
    if IsIPv4(d) {
      KeyFits(db, prefix, d);
      PrefixMostSpecific(db, prefix, d);
    } else {
      NameMostSpecific(db, prefix, d);
    }
  }

  /** The most specific record answers for a host name or an IPv4 address. */
  lemma HostMostSpecific(db: Database, ipv6: string -> seq<string>, prefix: string, key: string)
    requires '.' !in prefix && Fits(prefix, DefaultKey(key)) && '@' !in key
    requires IsIPv4(key) || !IsIPv6(key)
    ensures DomainAnswer(db, prefix, DefaultKey(key), Check(db, ipv6, prefix, key))
  {
    var d := DefaultKey(key);
    DefaultIsName(key);
    IndexOfSpec(d, '@');
    DomainMostSpecific(db, ipv6, prefix, d);
  }

  lemma DefaultIsName(key: string)
    ensures '@' !in key ==> '@' !in DefaultKey(key)
    ensures IsIPv6(DefaultKey(key)) ==> DefaultKey(key) == key
  {
  }

  // ----- mailboxes -----------------------------------------------------------

  lemma FirstAt(user: string, domain: string)
    requires '@' !in user
    ensures IndexOf(user + "@" + domain, '@') == |user| && (user + "@" + domain)[|user| + 1..] == domain
  {
    var key := user + "@" + domain;
    assert key[|user|] == '@';
    IndexOfIs(key, '@', |user|);
  }

  lemma LowerHasNo(s: string, c: char)
    requires c !in s && LowerChar(c) == c && !('a' <= c <= 'z')
    ensures c !in Lower(s)
  {
  }

  lemma CutAtUser(prefix: string, user: string, domain: string)
    requires '@' !in prefix && '@' !in user
    ensures CutAfterAt(Lower(prefix + ":" + (user + "@" + domain))) == Lower(prefix + ":" + (user + "@"))
  {
    var s := prefix + ":" + user;
    assert prefix + ":" + (user + "@" + domain) == s + "@" + domain;
    assert prefix + ":" + (user + "@") == s + "@";
    LowerHasNo(s, '@');
    LowerFirstAt(s, domain);
  }

  lemma LowerFirstAt(s: string, domain: string)
    requires '@' !in Lower(s)
    ensures CutAfterAt(Lower(s + "@" + domain)) == Lower(s + "@")
  {
    assert Lower(s + "@") == Lower(s) + "@";
    assert Lower(s + "@" + domain) == Lower(s) + "@" + Lower(domain);
    FirstAt(Lower(s), Lower(domain));
  }

  /** The key shows a mailbox in angle brackets. */
  predicate Bracketed(key: string) {
    IndexOf(key, '<') < LastIndexOf(key, '>') < |key|
  }

  /** The mailbox a key shows. */
  function Mailbox(key: string): string {
    if Bracketed(key) then key[IndexOf(key, '<') + 1..LastIndexOf(key, '>')] else key
  }

  lemma ExtractsMailbox(key: string)
    ensures ExtractAddress(key) == Lower(Mailbox(key))
  {
  }

  function DomainOf(mailbox: string): Option<string> {
    var i := IndexOf(mailbox, '@');
    if i < |mailbox| then Some(mailbox[i + 1..]) else None
  }

  /** The domain searched, which is taken from the key and not from the mailbox,
      is the mailbox's own if and only if the key has no brackets. */
  lemma OwnDomainIff(key: string)
    requires IndexOf(key, '@') < |key|
    ensures DomainOf(Mailbox(key)) == DomainOf(key) <==> !Bracketed(key)
  {
    if Bracketed(key) {
      var m, a, p := Mailbox(key), IndexOf(key, '<'), IndexOf(key, '@');
      var q := IndexOf(m, '@');
      IndexOfSpec(key, '@');
      IndexOfSpec(m, '@');
      if q < |m| {
        assert m[q] == key[a + 1 + q];
        assert p <= a + 1 + q;
        assert |m[q + 1..]| < |key[p + 1..]|;
      }
    }
  }

  lemma FullKey(prefix: string, key: string)
    requires Fits(prefix, key)
    ensures Lower(MakeKey(prefix, Lower(key))) == Lower(prefix + ":" + key)
  {
    LowerConcat(prefix + ":", key);
    LowerConcat(prefix + ":", Lower(key));
    LowerIdempotent(key);
  }

  lemma CutMailbox(prefix: string, mailbox: string)
    requires '@' !in prefix
    ensures CutAfterAt(Lower(prefix + ":" + mailbox)) == Lower(prefix + ":" + CutAfterAt(mailbox))
  {
    var i := IndexOf(mailbox, '@');
    IndexOfSpec(mailbox, '@');
    if i < |mailbox| {
      assert mailbox == mailbox[..i] + "@" + mailbox[i + 1..];
      assert CutAfterAt(mailbox) == mailbox[..i] + "@";
      CutAtUser(prefix, mailbox[..i], mailbox[i + 1..]);
    } else {
      LowerHasNo(prefix + ":" + mailbox, '@');
      IndexOfSpec(Lower(prefix + ":" + mailbox), '@');
    }
  }

  lemma MailboxRecords(db: Database, prefix: string, mailbox: string)
    requires '@' !in prefix && Fits(prefix, mailbox)
    ensures
      var full := Lower(MakeKey(prefix, Lower(mailbox)));
      GetRec(db, full) == RecordOf(db, prefix, mailbox) &&
      GetRec(db, CutAfterAt(full)) == RecordOf(db, prefix, CutAfterAt(mailbox))
  {
    FullKey(prefix, mailbox);
    CutMailbox(prefix, mailbox);
    LowerIdempotent(prefix + ":" + mailbox);
    LowerIdempotent(prefix + ":" + CutAfterAt(mailbox));
  }

  /** The whole mailbox comes first, then the most specific record of the domain
      searched, and "user@" last. */
  ghost predicate MailboxAnswer(
    db: Database, prefix: string, mailbox: string, searched: string, r: Option<string>) {
    exists v ::
      DomainAnswer(db, prefix, searched, v) &&
      r == if RecordOf(db, prefix, mailbox).Some? then RecordOf(db, prefix, mailbox)
           else if v.Some? then v
           else RecordOf(db, prefix, CutAfterAt(mailbox))
  }

  lemma MailboxSearch(
    db: Database, ipv6: string -> seq<string>, prefix: string, mailbox: string, searched: string)
    requires '.' !in prefix && '@' !in prefix && Fits(prefix, mailbox)
    requires Fits(prefix, searched) && (IsIPv4(searched) || !IsIPv6(searched))
    ensures MailboxAnswer(db, prefix, mailbox, searched,
                          FirstHit(db, MailboxKeys(ipv6, prefix, Lower(mailbox), searched)))
  {
    var full := Lower(MakeKey(prefix, Lower(mailbox)));
    DomainMostSpecific(db, ipv6, prefix, searched);
    MailboxRecords(db, prefix, mailbox);
    FirstHitThree(db, full, DomainKeys(ipv6, prefix, searched), CutAfterAt(full));
  }

  /** What a check of any key with an '@' answers, by the mailbox it shows and the
      domain searched. */
  lemma MailboxOrder(db: Database, ipv6: string -> seq<string>, prefix: string, key: string, searched: string)
    requires '.' !in prefix && '@' !in prefix && Fits(prefix, Mailbox(key))
    requires DomainOf(key) == Some(searched) && Fits(prefix, searched) && (IsIPv4(searched) || !IsIPv6(searched))
    ensures MailboxAnswer(db, prefix, Mailbox(key), searched, Check(db, ipv6, prefix, key))
  {
    ExtractsMailbox(key);
    assert DefaultKey(key) == key;
    MailboxSearch(db, ipv6, prefix, Mailbox(key), searched);
  }

  /** With no brackets the domain searched is the mailbox's own. */
  lemma BareMailbox(db: Database, ipv6: string -> seq<string>, prefix: string, key: string, domain: string)
    requires '.' !in prefix && '@' !in prefix && Fits(prefix, key) && !Bracketed(key)
    requires DomainOf(Mailbox(key)) == Some(domain) && (IsIPv4(domain) || !IsIPv6(domain))
    ensures MailboxAnswer(db, prefix, key, domain, Check(db, ipv6, prefix, key))
  {
    MailboxOrder(db, ipv6, prefix, key, domain);
  }

  // ----- which records matter ------------------------------------------------

  lemma {:induction false} AddressHasNoAt(d: string, n: nat)
    requires DottedDigits(d, n)
    ensures '@' !in d
    decreases n
  {
    var k := Spn(d, IsDigit);
    SpnSpec(d, IsDigit);
    assert forall i :: 0 <= i < k ==> IsDigit(d[..k][i]);
    if n > 1 {
      AddressHasNoAt(d[k + 1..], n - 1);
      assert d == d[..k] + [d[k]] + d[k + 1..];
    }
  }

  /** Two tables that agree on the octet prefixes of d from i up answer alike,
      when i is the end of one that has a record or all are compared. */
  lemma AddressIgnores(
    db: Database, db': Database, ipv6: string -> seq<string>, prefix: string, d: string, i: nat)
    requires IsIPv4(d) && '.' !in prefix && Fits(prefix, d)
    requires forall j :: OctetEnd(d, j) && i <= j ==> RecordOf(db', prefix, d[..j]) == RecordOf(db, prefix, d[..j])
    requires i == 0 || (OctetEnd(d, i) && RecordOf(db, prefix, d[..i]).Some?)
    ensures Check(db', ipv6, prefix, d) == Check(db, ipv6, prefix, d)
  {
    AddressHasNoAt(d, 4);
    HostMostSpecific(db, ipv6, prefix, d);
    HostMostSpecific(db', ipv6, prefix, d);
    PrefixesAgree(db, db', prefix, d, i, Check(db, ipv6, prefix, d), Check(db', ipv6, prefix, d));
  }

  lemma PrefixesAgree(
    db: Database, db': Database, prefix: string, d: string, i: nat, v: Option<string>, v': Option<string>)
    requires LongestPrefix(db, prefix, d, v) && LongestPrefix(db', prefix, d, v')
    requires forall j :: OctetEnd(d, j) && i <= j ==> RecordOf(db', prefix, d[..j]) == RecordOf(db, prefix, d[..j])
    requires i == 0 || (OctetEnd(d, i) && RecordOf(db, prefix, d[..i]).Some?)
    ensures v == v'
  {
  }

  lemma SuffixesAgree(
    db: Database, db': Database, prefix: string, d: string, i: nat, v: Option<string>, v': Option<string>)
    requires LongestSuffix(db, prefix, d, v) && LongestSuffix(db', prefix, d, v')
    requires forall j :: LabelAt(d, j) && j <= i ==> RecordOf(db', prefix, d[j..]) == RecordOf(db, prefix, d[j..])
    requires i == |d| || (LabelAt(d, i) && RecordOf(db, prefix, d[i..]).Some?)
    ensures v == v'
  {
  }

  /** Likewise for the dotted suffixes of a name, from the longest to i. */
  lemma NameIgnores(
    db: Database, db': Database, ipv6: string -> seq<string>, prefix: string, d: string, i: nat)
    requires IsName(d) && d != "" && '@' !in d && '.' !in prefix && Fits(prefix, d)
    requires forall j :: LabelAt(d, j) && j <= i ==> RecordOf(db', prefix, d[j..]) == RecordOf(db, prefix, d[j..])
    requires i == |d| || (LabelAt(d, i) && RecordOf(db, prefix, d[i..]).Some?)
    ensures Check(db', ipv6, prefix, d) == Check(db, ipv6, prefix, d)
  {
    HostMostSpecific(db, ipv6, prefix, d);
    HostMostSpecific(db', ipv6, prefix, d);
    SuffixesAgree(db, db', prefix, d, i, Check(db, ipv6, prefix, d), Check(db', ipv6, prefix, d));
  }

  lemma OtherKey(db: Database, prefix: string, s: string, x: string, v: string)
    requires |s| != |x|
    ensures RecordOf(db[Lower(prefix + ":" + x) := v], prefix, s) == RecordOf(db, prefix, s)
  {
  }

  /** A record for an address cut inside an octet, such as "10.1" for
      "10.11.12.13", does not matter. */
  lemma PartialOctet(
    db: Database, ipv6: string -> seq<string>, prefix: string, d: string, n: nat, v: string)
    requires IsIPv4(d) && '.' !in prefix && Fits(prefix, d)
    requires n < |d| && d[n] != '.'
    ensures Check(db[Lower(prefix + ":" + d[..n]) := v], ipv6, prefix, d) == Check(db, ipv6, prefix, d)
  {
    var db' := db[Lower(prefix + ":" + d[..n]) := v];
    forall j | OctetEnd(d, j)
      ensures RecordOf(db', prefix, d[..j]) == RecordOf(db, prefix, d[..j])
    {
      OtherKey(db, prefix, d[..j], d[..n], v);
    }
    AddressIgnores(db, db', ipv6, prefix, d, 0);
  }

  /** Adding a less specific record never changes a more specific answer. */
  lemma LessSpecificAddress(
    db: Database, ipv6: string -> seq<string>, prefix: string, d: string, i: nat, x: string, v: string)
    requires IsIPv4(d) && '.' !in prefix && Fits(prefix, d)
    requires OctetEnd(d, i) && RecordOf(db, prefix, d[..i]).Some? && |x| < i
    ensures Check(db[Lower(prefix + ":" + x) := v], ipv6, prefix, d) == Check(db, ipv6, prefix, d)
  {
    var db' := db[Lower(prefix + ":" + x) := v];
    forall j | OctetEnd(d, j) && i <= j
      ensures RecordOf(db', prefix, d[..j]) == RecordOf(db, prefix, d[..j])
    {
      OtherKey(db, prefix, d[..j], x, v);
    }
    AddressIgnores(db, db', ipv6, prefix, d, i);
  }

  lemma LessSpecificName(
    db: Database, ipv6: string -> seq<string>, prefix: string, d: string, i: nat, x: string, v: string)
    requires IsName(d) && '@' !in d && '.' !in prefix && Fits(prefix, d)
    requires LabelAt(d, i) && RecordOf(db, prefix, d[i..]).Some? && |x| < |d| - i
    ensures Check(db[Lower(prefix + ":" + x) := v], ipv6, prefix, d) == Check(db, ipv6, prefix, d)
  {
    var db' := db[Lower(prefix + ":" + x) := v];
    forall j | LabelAt(d, j) && j <= i
      ensures RecordOf(db', prefix, d[j..]) == RecordOf(db, prefix, d[j..])
    {
      OtherKey(db, prefix, d[j..], x, v);
    }
    NameIgnores(db, db', ipv6, prefix, d, i);
  }
}
