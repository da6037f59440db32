/** What a policy check answers, by the characters of the key: addresses of four
    octets, names, keys with a colon, and mailboxes with or without brackets. */
module PolicyAnswers {
  import opened CText
  import opened Policy

  // ----- addresses, names and mailboxes by their characters ------------------

  predicate IsRun(s: string) {
    s != "" && forall i :: 0 <= i < |s| ==> '0' <= s[i] <= '9'
  }

  lemma RunFirst(a: string, rest: string)
    requires IsRun(a) && (rest == "" || rest[0] == '.')
    ensures Spn(a + rest, IsDigit) == |a|
  {
    assert All(a, IsDigit);
    SpnExact(a, rest, IsDigit);
  }

  lemma LastRun(a: string)
    requires IsRun(a)
    ensures DottedDigits(a, 1)
  {
    RunFirst(a, "");
    assert a + "" == a;
  }

  lemma MoreRuns(a: string, rest: string, n: nat)
    requires IsRun(a) && n >= 1 && DottedDigits(rest, n)
    ensures DottedDigits(a + ("." + rest), n + 1)
  {
    RunFirst(a, "." + rest);
    assert (a + ("." + rest))[|a| + 1..] == rest;
  }

  lemma TakeRun(s: string, n: nat) returns (a: string, rest: string)
    requires n >= 2 && DottedDigits(s, n)
    ensures IsRun(a) && s == a + ("." + rest) && DottedDigits(rest, n - 1)
  {
    var k := Spn(s, IsDigit);
    SpnSpec(s, IsDigit);
    a, rest := s[..k], s[k + 1..];
    assert forall i :: 0 <= i < k ==> IsDigit(a[i]);
    assert s == s[..k] + (s[k..k + 1] + s[k + 1..]);
  }

  lemma OnlyRun(s: string)
    requires DottedDigits(s, 1)
    ensures IsRun(s)
  {
    SpnSpec(s, IsDigit);
    assert s[..|s|] == s;
    assert forall i :: 0 <= i < |s| ==> IsDigit(s[i]);
  }

  function Dotted(a: string, b: string, c: string, d: string): string {
    a + ("." + (b + ("." + (c + ("." + d)))))
  }

  /** An IPv4 address is four runs of digits with dots between them. */
  lemma IPv4Iff(s: string)
    ensures IsIPv4(s) <==>
      exists a, b, c, d :: IsRun(a) && IsRun(b) && IsRun(c) && IsRun(d) && s == Dotted(a, b, c, d)
  {
    if IsIPv4(s) {
      var a, r := TakeRun(s, 4);
      var b, r' := TakeRun(r, 3);
      var c, d := TakeRun(r', 2);
      OnlyRun(d);
      assert s == Dotted(a, b, c, d);
    }
    forall a, b, c, d | IsRun(a) && IsRun(b) && IsRun(c) && IsRun(d) && s == Dotted(a, b, c, d)
      ensures IsIPv4(s)
    {
      DottedIsIPv4(a, b, c, d);
    }
  }

  lemma DottedIsIPv4(a: string, b: string, c: string, d: string)
    requires IsRun(a) && IsRun(b) && IsRun(c) && IsRun(d)
    ensures IsIPv4(Dotted(a, b, c, d))
  {
    LastRun(d);
    MoreRuns(c, d, 1);
    MoreRuns(b, c + ("." + d), 2);
    MoreRuns(a, b + ("." + (c + ("." + d))), 3);
  }

  function Else(v: Option<string>, w: Option<string>): Option<string> { if v.Some? then v else w }

  lemma RunHasNoDot(a: string)
    requires IsRun(a)
    ensures '.' !in a && '@' !in a
  {
  }

  /** The keys of h + x + "." + y are its own and then those of h + x, when y has no
      dot: one octet goes at a time. */
  lemma DropsOctet(db: Database, h: string, y: string)
    requires h != "" && '.' !in y
    ensures
      FirstHit(db, AddressKeys(Lower(h + ("." + y)))) ==
      Else(GetRec(db, h + ("." + y)), FirstHit(db, AddressKeys(Lower(h))))
  {
    var k := Lower(h + ("." + y));
    LowerHasNo(y, '.');
    assert k[|h|] == '.';
    assert forall j :: |h| < j < |k| ==> k[j] == Lower(y)[j - |h| - 1];
    LastIndexOfIs(k, '.', |h|);
    assert k[..|h|] == Lower(h);
    LowerIdempotent(h + ("." + y));
    FirstHitCons(db, k, AddressKeys(Lower(h)));
    AddressKeysStep(k, |h|, Lower(h));
  }

  lemma FirstHitCons(db: Database, k: string, rest: seq<string>)
    ensures FirstHit(db, [k] + rest) == Else(GetRec(db, k), FirstHit(db, rest))
  {
    assert ([k] + rest)[1..] == rest;
  }

  lemma LastOctet(db: Database, h: string)
    requires h != "" && '.' !in h
    ensures FirstHit(db, AddressKeys(Lower(h))) == GetRec(db, h)
  {
    var k := Lower(h);
    LowerHasNo(h, '.');
    LastIndexOfIs(k, '.', |k|);
    AddressKeysStep(k, |k|, "");
    FirstHitOne(db, k);
    LowerIdempotent(h);
  }

  lemma FourOctets(db: Database, h: string, b: string, c: string, d: string)
    requires h != "" && '.' !in h && '.' !in b && '.' !in c && '.' !in d
    ensures FirstHit(db, AddressKeys(Lower(h + ("." + b) + ("." + c) + ("." + d)))) ==
      Else(GetRec(db, h + ("." + b) + ("." + c) + ("." + d)),
      Else(GetRec(db, h + ("." + b) + ("." + c)), Else(GetRec(db, h + ("." + b)), GetRec(db, h))))
  {
    DropsOctet(db, h + ("." + b) + ("." + c), d);
    DropsOctet(db, h + ("." + b), c);
    DropsOctet(db, h, b);
    LastOctet(db, h);
  }

  lemma OctetTexts(p: string, a: string, b: string, c: string, d: string)
    ensures p + (a + "." + b) == p + a + ("." + b)
    ensures p + (a + "." + b + "." + c) == p + a + ("." + b) + ("." + c)
    ensures p + (a + "." + b + "." + c + "." + d) == p + a + ("." + b) + ("." + c) + ("." + d)
    ensures p + Dotted(a, b, c, d) == p + a + ("." + b) + ("." + c) + ("." + d)
  {
  }

  /** An address a.b.c.d answers with the record of "a.b.c.d", else of "a.b.c", else
      of "a.b", else of "a", else with nothing. */
  lemma AddressAnswer(
    db: Database, ipv6: string -> seq<string>, prefix: string, a: string, b: string, c: string, d: string)
    requires IsRun(a) && IsRun(b) && IsRun(c) && IsRun(d)
    requires '.' !in prefix && |prefix| + 1 + |Dotted(a, b, c, d)| <= 255
    ensures Check(db, ipv6, prefix, Dotted(a, b, c, d)) ==
      Else(RecordOf(db, prefix, a + "." + b + "." + c + "." + d),
      Else(RecordOf(db, prefix, a + "." + b + "." + c),
      Else(RecordOf(db, prefix, a + "." + b), RecordOf(db, prefix, a))))
  {
    AddressChecked(db, ipv6, prefix, a, b, c, d);
    OctetTexts(prefix + ":", a, b, c, d);
    forall s | s in {a, b, c, d} { RunHasNoDot(s); }
    FourOctets(db, prefix + ":" + a, b, c, d);
  }

  lemma AddressChecked(
    db: Database, ipv6: string -> seq<string>, prefix: string, a: string, b: string, c: string, d: string)
    requires IsRun(a) && IsRun(b) && IsRun(c) && IsRun(d)
    requires Fits(prefix, Dotted(a, b, c, d))
    ensures Check(db, ipv6, prefix, Dotted(a, b, c, d)) ==
            FirstHit(db, AddressKeys(Lower(prefix + ":" + Dotted(a, b, c, d))))
  {
    var s := Dotted(a, b, c, d);
    DottedIsIPv4(a, b, c, d);
    AddressHasNoAt(s, 4);
    IndexOfSpec(s, '@');
    KeyFits(db, prefix, s);
    assert DefaultKey(s) == s;
  }

  /** A text with a character other than a digit or a dot is no address. */
  lemma {:induction false} NotDotted(s: string, i: nat, n: nat)
    requires i < |s| && !('0' <= s[i] <= '9') && s[i] != '.'
    ensures !DottedDigits(s, n)
    decreases n
  {
    var k := Spn(s, IsDigit);
    SpnSpec(s, IsDigit);
    assert i < k ==> IsDigit(s[..k][i]);
    if k < i && s[k] == '.' && n > 1 { NotDotted(s[k + 1..], i - k - 1, n - 1); }
  }

  /** A host name, with a letter in it and no colon, answers with the record of its
      longest dotted suffix that has one. */
  lemma NameAnswer(db: Database, ipv6: string -> seq<string>, prefix: string, name: string, i: nat)
    requires i < |name| && !('0' <= name[i] <= '9') && name[i] != '.'
    requires ':' !in name && '@' !in name && '.' !in prefix && |prefix| + 1 + |name| <= 255
    ensures LongestSuffix(db, prefix, name, Check(db, ipv6, prefix, name))
  {
    NotDotted(name, i, 4);
    assert DefaultKey(name) == name;
    HostMostSpecific(db, ipv6, prefix, name);
  }

  /** No key at all asks for "default". */
  lemma DefaultAnswer(db: Database, ipv6: string -> seq<string>, prefix: string)
    requires '.' !in prefix && |prefix| <= 247
    ensures Check(db, ipv6, prefix, "") == Check(db, ipv6, prefix, "default")
    ensures LongestSuffix(db, prefix, "default", Check(db, ipv6, prefix, ""))
  {
    var d := "default";
    assert d[0] == 'd';
    forall i | 0 <= i < |d| ensures d[i] != ':' && d[i] != '@' {}
    NameAnswer(db, ipv6, prefix, d, 0);
  }

  /** The record of the first text that has one. */
  function FirstRecord(db: Database, prefix: string, texts: seq<string>): Option<string> {
    if texts == [] then None else Else(RecordOf(db, prefix, texts[0]), FirstRecord(db, prefix, texts[1..]))
  }

  lemma {:induction false} TextKeysHit(db: Database, prefix: string, texts: seq<string>)
    requires forall t :: t in texts ==> |prefix| + 1 + |t| <= 255
    ensures FirstHit(db, TextKeys(prefix, texts)) == FirstRecord(db, prefix, texts)
  {
    if texts != [] {
      TextKeysHit(db, prefix, texts[1..]);
      FirstHitCons(db, MakeKey(prefix, texts[0]), TextKeys(prefix, texts[1..]));
      assert MakeKey(prefix, texts[0]) == prefix + ":" + texts[0];
    }
  }

  /** A host with a colon is looked up as it is written, and then under each text of
      its IPv6 address. */
  lemma ColonAnswer(db: Database, ipv6: string -> seq<string>, prefix: string, host: string)
    requires ':' in host && '@' !in host && |prefix| + 1 + |host| <= 255
    requires forall t :: t in ipv6(host) ==> |prefix| + 1 + |t| <= 255
    ensures Check(db, ipv6, prefix, host) ==
            Else(RecordOf(db, prefix, host), FirstRecord(db, prefix, ipv6(host)))
  {
    var i :| 0 <= i < |host| && host[i] == ':';
    NotDotted(host, i, 4);
    IndexOfSpec(host, '@');
    assert DefaultKey(host) == host;
    TextKeysHit(db, prefix, [host] + ipv6(host));
    assert ([host] + ipv6(host))[1..] == ipv6(host);
  }

  // ----- mailboxes -----------------------------------------------------------

  /** What stands between the first '<' and the last '>' after it is the mailbox. */
  lemma BracketsShow(head: string, mailbox: string, tail: string)
    requires '<' !in head && '>' !in tail
    ensures Bracketed(head + ("<" + mailbox + ">") + tail) && Mailbox(head + ("<" + mailbox + ">") + tail) == mailbox
  {
    var key := head + ("<" + mailbox + ">") + tail;
    var j := |head| + 1 + |mailbox|;
    assert key[|head|] == '<' && key[j] == '>';
    IndexOfIs(key, '<', |head|);
    LastIndexOfIs(key, '>', j);
    assert key[|head| + 1..j] == mailbox;
  }

  /** With no '<' ahead of a '>' the key is the mailbox. */
  lemma NoBracketsShow(head: string, tail: string)
    requires '<' !in head && '>' !in tail
    ensures !Bracketed(head + tail) && Mailbox(head + tail) == head + tail
  {
    var key := head + tail;
    IndexOfSpec(key, '<');
    LastIndexOfSpec(key, '>');
    assert forall k :: 0 <= k < |head| ==> key[k] == head[k];
    assert forall k :: |head| <= k < |key| ==> key[k] == tail[k - |head|];
  }

  lemma UserPart(user: string, domain: string)
    requires '@' !in user
    ensures CutAfterAt(user + "@" + domain) == user + "@" && DomainOf(user + "@" + domain) == Some(domain)
  {
    FirstAt(user, domain);
  }

  /** r is the mailbox's own record, else the most specific one of the domain
      searched, else that of "user@". */
  ghost predicate MailboxFound(
    db: Database, prefix: string, user: string, domain: string, searched: string, r: Option<string>) {
    exists v | DomainAnswer(db, prefix, searched, v) ::
      r == Else(RecordOf(db, prefix, user + "@" + domain), Else(v, RecordOf(db, prefix, user + "@")))
  }

  /** A mailbox user@domain without brackets: the full address, the most specific
      record of the domain, then "user@". */
  lemma BareAnswer(db: Database, ipv6: string -> seq<string>, prefix: string, user: string, domain: string)
    requires '.' !in prefix && '@' !in prefix && '@' !in user && ':' !in domain
    requires '<' !in user + "@" + domain || '>' !in user + "@" + domain
    requires |prefix| + 1 + |user + "@" + domain| <= 255
    ensures MailboxFound(db, prefix, user, domain, domain, Check(db, ipv6, prefix, user + "@" + domain))
  {
    var key := user + "@" + domain;
    if '<' !in key {
      NoBracketsShow(key, "");
      assert key + "" == key;
    } else {
      NoBracketsShow("", key);
      assert "" + key == key;
    }
    UserPart(user, domain);
    MailboxOrder(db, ipv6, prefix, key, domain);
  }

  /** ... and in brackets: the domain searched is all that follows the '@'. */
  lemma BracketedAnswer(
    db: Database, ipv6: string -> seq<string>, prefix: string, head: string, user: string, domain: string, tail: string)
    requires '.' !in prefix && '@' !in prefix && '@' !in user && '@' !in head && '<' !in head && '>' !in tail
    requires ':' !in domain + ">" + tail
    requires |prefix| + 1 + |user + "@" + domain| <= 255 && |prefix| + 1 + |domain + ">" + tail| <= 255
    ensures MailboxFound(db, prefix, user, domain, domain + ">" + tail,
                         Check(db, ipv6, prefix, head + ("<" + (user + "@" + domain) + ">") + tail))
  {
    var key := head + ("<" + (user + "@" + domain) + ">") + tail;
    BracketsShow(head, user + "@" + domain, tail);
    assert key == (head + "<" + user) + "@" + (domain + ">" + tail);
    UserPart(head + "<" + user, domain + ">" + tail);
    UserPart(user, domain);
    MailboxOrder(db, ipv6, prefix, key, domain + ">" + tail);
  }
}
