/** The C string and stdio routines the filter's engines share, over Dafny
    strings: a C string is the characters before its NUL, a text file is the
    characters that `fgets` would deliver. */
module CText {

  datatype Option<+T> = None | Some(value: T)

  // ----- case folding (C locale) --------------------------------------------

  function LowerChar(c: char): char {
    if 'A' <= c <= 'Z' then c - 'A' + 'a' else c
  }

  /** `strtolower`. */
  function Lower(s: string): (r: string)
    ensures |r| == |s|
    ensures forall i :: 0 <= i < |s| ==> r[i] == LowerChar(s[i])
  {
    seq(|s|, i requires 0 <= i < |s| => LowerChar(s[i]))
  }

  /** `strcasecmp(a, b) == 0`. */
  predicate EqNoCase(a: string, b: string) {
    Lower(a) == Lower(b)
  }

  /** `strncasecmp(s, p, strlen(p)) == 0`. */
  predicate HasPrefixNoCase(s: string, p: string) {
    |p| <= |s| && EqNoCase(s[..|p|], p)
  }

  lemma LowerIdempotent(s: string)
    ensures Lower(Lower(s)) == Lower(s)
  {
  }

  lemma LowerConcat(a: string, b: string)
    ensures Lower(a + b) == Lower(a) + Lower(b)
  {
  }

  /** The C locale folds the 26 capital letters and nothing else. */
  lemma LowerAlphabet(c: char)
    ensures Lower("ABCDEFGHIJKLMNOPQRSTUVWXYZ") == "abcdefghijklmnopqrstuvwxyz"
    ensures c !in "ABCDEFGHIJKLMNOPQRSTUVWXYZ" ==> LowerChar(c) == c
  {
    var abc := "ABCDEFGHIJKLMNOPQRSTUVWXYZ";
    forall i | 0 <= i < 26 ensures abc[i] == 'A' + i as char && LowerChar(abc[i]) == 'a' + i as char {}
    if 'A' <= c <= 'Z' { assert abc[c as int - 'A' as int] == c; }
  }

  // ----- byte order ----------------------------------------------------------

  /** `strcmp(a, b) < 0`. */
  predicate StrLess(a: string, b: string)
    decreases |a|
  {
    b != "" && (a == "" || a[0] < b[0] || (a[0] == b[0] && StrLess(a[1..], b[1..])))
  }

  lemma {:induction false} StrLessIrreflexive(a: string)
    ensures !StrLess(a, a)
    decreases |a|
  {
    if a != "" { StrLessIrreflexive(a[1..]); }
  }

  lemma {:induction false} StrLessTransitive(a: string, b: string, c: string)
    requires StrLess(a, b) && StrLess(b, c)
    ensures StrLess(a, c)
    decreases |a|
  {
    if a != "" && a[0] == b[0] == c[0] { StrLessTransitive(a[1..], b[1..], c[1..]); }
  }

  lemma {:induction false} StrLessTotal(a: string, b: string)
    ensures StrLess(a, b) || a == b || StrLess(b, a)
    decreases |a|
  {
    if a != "" && b != "" && a[0] == b[0] {
      StrLessTotal(a[1..], b[1..]);
      assert a == [a[0]] + a[1..] && b == [b[0]] + b[1..];
    }
  }

  /** a comes before b when it is a proper prefix of b or has the smaller character
      where they first differ. */
  lemma {:induction false} StrLessIff(a: string, b: string)
    ensures StrLess(a, b) <==>
      exists k :: 0 <= k < |b| && k <= |a| && a[..k] == b[..k] && (k == |a| || a[k] < b[k])
    decreases |a|
  {
    if a != "" && b != "" && a[0] == b[0] {
      StrLessIff(a[1..], b[1..]);
      if k :| 0 <= k < |b| - 1 && k <= |a| - 1 && a[1..][..k] == b[1..][..k] && (k == |a| - 1 || a[1..][k] < b[1..][k]) {
        assert a[..k + 1] == [a[0]] + a[1..][..k] == b[..k + 1];
      }
      if k :| 0 <= k < |b| && k <= |a| && a[..k] == b[..k] && (k == |a| || a[k] < b[k]) {
        assert k > 0;
        assert a[1..][..k - 1] == a[..k][1..] == b[1..][..k - 1];
      }
    } else {
      assert a[..0] == b[..0];
    }
  }

  // ----- copying and formatting ----------------------------------------------

  /** The string `strlcpy` leaves in a cleared buffer of `size` bytes. */
  function StrLCpy(s: string, size: nat): string {
    if |s| < size then s else if size == 0 then "" else s[..size - 1]
  }

  function Spaces(n: nat): (r: string)
    ensures |r| == n
    ensures forall i :: 0 <= i < n ==> r[i] == ' '
  {
    seq(n, i => ' ')
  }

  /** The printf conversion `%-<width>s`. */
  function PadRight(s: string, width: nat): string {
    if |s| < width then s + Spaces(width - |s|) else s
  }

  /** The spaces between a padded field and what is printed `sep` spaces later. */
  function Gap(s: string, width: nat, sep: nat): (gap: string)
    ensures |gap| >= sep
    ensures forall i :: 0 <= i < |gap| ==> gap[i] == ' '
    ensures PadRight(s, width) + Spaces(sep) == s + gap
  {
    Spaces((if |s| < width then width - |s| else 0) + sep)
  }

  // ----- scanning ------------------------------------------------------------

  predicate IsBlank(c: char) { c == ' ' || c == '\t' }

  predicate IsSpace(c: char) { c == ' ' }

  /** `isspace`. */
  predicate IsWhite(c: char) { c == ' ' || '\t' <= c <= '\r' }

  predicate NotBlank(c: char) { !IsBlank(c) }

  predicate NotSpace(c: char) { !IsSpace(c) }

  predicate NotNewline(c: char) { c != '\n' }

  predicate All(s: string, p: char -> bool) {
    forall i :: 0 <= i < |s| ==> p(s[i])
  }

  /** `strspn`: the length of the longest prefix made of characters in `p`. */
  function Spn(s: string, p: char -> bool): (n: nat)
    ensures n <= |s|
  {
    if s == "" || !p(s[0]) then 0 else 1 + Spn(s[1..], p)
  }

  lemma {:induction false} SpnSpec(s: string, p: char -> bool)
    ensures All(s[..Spn(s, p)], p)
    ensures Spn(s, p) < |s| ==> !p(s[Spn(s, p)])
  {
    if s != "" && p(s[0]) {
      var m := Spn(s[1..], p);
      SpnSpec(s[1..], p);
      assert s[..1 + m] == [s[0]] + s[1..][..m];
    }
  }

  /** `p += strspn(p, ...)`. */
  function Skip(s: string, p: char -> bool): string {
    s[Spn(s, p)..]
  }

  lemma {:induction false} SpnExact(a: string, b: string, p: char -> bool)
    requires All(a, p)
    requires b == "" || !p(b[0])
    ensures Spn(a + b, p) == |a|
    ensures Skip(a + b, p) == b
  {
    if a == "" {
      assert a + b == b;
    } else {
      assert (a + b)[1..] == a[1..] + b;
      SpnExact(a[1..], b, p);
    }
  }

  // ----- fgets ---------------------------------------------------------------

  /** How many characters one `fgets(buf, size, fin)` takes from the text left. */
  function FGetsLen(text: string, size: nat): (n: nat)
    requires text != "" && size >= 2
    ensures 1 <= n <= |text| && n < size
    ensures forall i :: 0 <= i < n - 1 ==> text[i] != '\n'
    ensures n == |text| || n == size - 1 || text[n - 1] == '\n'
  {
    if text[0] == '\n' || size == 2 || |text| == 1 then 1
    else 1 + FGetsLen(text[1..], size - 1)
  }

  /** Every buffer the loop `while (fgets(buf, size, fin) != NULL)` sees, each
      with its newline if it has one. */
  function Lines(text: string, size: nat): (lines: seq<string>)
    requires size >= 2
    ensures forall l :: l in lines ==> 1 <= |l| < size
    decreases |text|
  {
    if text == "" then []
    else
      var n := FGetsLen(text, size);
      [text[..n]] + Lines(text[n..], size)
  }

  function Concat(lines: seq<string>): string {
    if lines == [] then "" else lines[0] + Concat(lines[1..])
  }

  /** A line that one `fgets` with a buffer of `size` bytes reads whole. */
  predicate WholeLine(l: string, size: nat) {
    1 <= |l| < size && l[|l| - 1] == '\n' && All(l[..|l| - 1], NotNewline)
  }

  predicate WholeLines(lines: seq<string>, size: nat) {
    forall l :: l in lines ==> WholeLine(l, size)
  }

  lemma {:induction false} FGetsWholeLine(l: string, rest: string, size: nat)
    requires WholeLine(l, size)
    ensures size >= 2 && FGetsLen(l + rest, size) == |l|
  {
    var text, n := l + rest, FGetsLen(l + rest, size);
    assert text[|l| - 1] == '\n';
    assert forall i :: 0 <= i < |l| - 1 ==> text[i] == l[..|l| - 1][i];
    assert forall i :: 0 <= i < |l| - 1 ==> NotNewline(text[i]);
  }

  /** Writing whole lines and reading them back with `fgets` is the identity. */
  lemma {:induction false} LinesOfConcat(lines: seq<string>, size: nat)
    requires size >= 2
    requires WholeLines(lines, size)
    ensures Lines(Concat(lines), size) == lines
  {
    if lines != [] {
      var l, rest := lines[0], Concat(lines[1..]);
      assert WholeLine(l, size);
      FGetsWholeLine(l, rest, size);
      assert (l + rest)[..|l|] == l && (l + rest)[|l|..] == rest;
      LinesOfConcat(lines[1..], size);
    }
  }

  /** `fgets` loses nothing, wherever it cuts. */
  lemma {:induction false} ConcatOfLines(text: string, size: nat)
    requires size >= 2
    ensures Concat(Lines(text, size)) == text
    decreases |text|
  {
    if text != "" {
      var n := FGetsLen(text, size);
      ConcatOfLines(text[n..], size);
      assert text == text[..n] + text[n..];
    }
  }

  lemma {:induction false} ConcatAppend(a: seq<string>, b: seq<string>)
    ensures Concat(a + b) == Concat(a) + Concat(b)
  {
    if a == [] {
      assert a + b == b;
    } else {
      assert (a + b)[1..] == a[1..] + b;
      ConcatAppend(a[1..], b);
    }
  }

  // ----- decimal numbers -----------------------------------------------------

  predicate IsDigit(c: char) { '0' <= c <= '9' }

  function Digit(d: nat): (c: char)
    requires d < 10
    ensures IsDigit(c) && DigitValue(c) == d
  {
    '0' + d as char
  }

  function DigitValue(c: char): int {
    c as int - '0' as int
  }

  /** The digits of a non-negative `%d`. */
  function Decimal(n: nat): (s: string)
    ensures s != "" && All(s, IsDigit)
  {
    if n < 10 then [Digit(n)] else Decimal(n / 10) + [Digit(n % 10)]
  }

  /** `%d`. */
  function PrintInt(n: int): string {
    if n < 0 then ['-'] + Decimal(-n) else Decimal(n)
  }

  /** The number a run of digits denotes. */
  function DigitsValue(s: string): int {
    if s == "" then 0 else 10 * DigitsValue(s[..|s| - 1]) + DigitValue(s[|s| - 1])
  }

  /** Skip white space and an optional sign. */
  function SplitSign(s: string): (bool, string) {
    var t := Skip(s, IsWhite);
    if t != "" && t[0] == '-' then (true, t[1..])
    else if t != "" && t[0] == '+' then (false, t[1..])
    else (false, t)
  }

  /** One `%d` of `sscanf`: the value and the text left, or no conversion. */
  function ScanInt(s: string): Option<(int, string)> {
    var (neg, u) := SplitSign(s);
    ScanDigits(u, neg)
  }

  function ScanDigits(u: string, neg: bool): Option<(int, string)> {
    var n := Spn(u, IsDigit);
    if n == 0 then None else Some((Signed(neg, DigitsValue(u[..n])), u[n..]))
  }

  function Signed(neg: bool, n: int): int { if neg then -n else n }

  lemma {:induction false} DecimalValue(n: nat)
    ensures DigitsValue(Decimal(n)) == n
    decreases n
  {
    if n >= 10 {
      DecimalValue(n / 10);
      var s := Decimal(n);
      assert s[..|s| - 1] == Decimal(n / 10);
    } else {
      var s := Decimal(n);
      assert s[..|s| - 1] == "";
    }
  }

  lemma DecimalBase()
    ensures PrintInt(9) == "9" && PrintInt(10) == "10" && PrintInt(-10) == "-10" && DigitsValue("10") == 10
  {
    assert Decimal(1) == "1" && Decimal(10) == Decimal(1) + "0";
    assert DigitsValue("") == 0 && "10"[..1] == "1" && "1"[..0] == "";
    assert DigitsValue("1") == 1;
  }

  /** The white space `sscanf` skips. */
  lemma WhiteIs(c: char)
    ensures IsWhite(c) <==> c in " \t\n\U{0B}\U{0C}\r"
  {
    var white := " \t\n\U{0B}\U{0C}\r";
    assert white[0] == ' ' && white[1] == '\t' && white[2] == '\n' && white[3] == '\U{0B}' && white[4] == '\U{0C}';
    assert white[5] == '\r';
  }

  lemma ScanUnsigned(digits: string, neg: bool, rest: string)
    requires digits != "" && All(digits, IsDigit)
    requires rest == "" || !IsDigit(rest[0])
    ensures ScanDigits(digits + rest, neg) == Some((Signed(neg, DigitsValue(digits)), rest))
  {
    SpnExact(digits, rest, IsDigit);
    assert (digits + rest)[..|digits|] == digits;
  }

  lemma SkipNothing(t: string, p: char -> bool)
    requires t == "" || !p(t[0])
    ensures Skip(t, p) == t
  {
  }

  lemma ScanSkips(blanks: string, t: string)
    requires All(blanks, IsWhite)
    requires t == "" || !IsWhite(t[0])
    ensures SplitSign(blanks + t) == SplitSign(t)
  {
    SpnExact(blanks, t, IsWhite);
    SkipNothing(t, IsWhite);
  }

  lemma SplitDigits(u: string)
    requires u != "" && IsDigit(u[0])
    ensures SplitSign(u) == (false, u) && SplitSign(['-'] + u) == (true, u)
  {
    var t := ['-'] + u;
    assert t[0] == '-' && t[1..] == u;
    SkipNothing(u, IsWhite);
    SkipNothing(t, IsWhite);
  }

  function Pow10(k: nat): nat {
    if k == 0 then 1 else 10 * Pow10(k - 1)
  }

  lemma {:induction false} DecimalLength(n: nat, k: nat)
    requires k >= 1 && n < Pow10(k)
    ensures |Decimal(n)| <= k
    decreases k
  {
    if n >= 10 { DecimalLength(n / 10, k - 1); }
  }

  lemma SignedSplits(blanks: string, neg: bool, digits: string, rest: string)
    requires All(blanks, IsWhite) && digits != "" && IsDigit(digits[0])
    ensures SplitSign(blanks + ((if neg then ['-'] + digits else digits) + rest)) == (neg, digits + rest)
  {
    var u := digits + rest;
    assert u[0] == digits[0];
    assert (if neg then ['-'] + digits else digits) + rest == if neg then ['-'] + u else u;
    ScanSkips(blanks, if neg then ['-'] + u else u);
    SplitDigits(u);
  }

  lemma ScanSigned(blanks: string, neg: bool, digits: string, rest: string)
    requires All(blanks, IsWhite) && digits != "" && All(digits, IsDigit)
    requires rest == "" || !IsDigit(rest[0])
    ensures ScanInt(blanks + ((if neg then ['-'] + digits else digits) + rest)) ==
            Some((Signed(neg, DigitsValue(digits)), rest))
  {
    SignedSplits(blanks, neg, digits, rest);
    ScanUnsigned(digits, neg, rest);
  }

  /** `%d` then `sscanf` is the identity, whatever blanks stand in front and
      whatever non-digit follows. */
  lemma ScanPrint(blanks: string, n: int, rest: string)
    requires All(blanks, IsWhite)
    requires rest == "" || !IsDigit(rest[0])
    ensures ScanInt(blanks + (PrintInt(n) + rest)) == Some((n, rest))
  {
    var m := if n < 0 then -n else n;
    DecimalValue(m);
    ScanSigned(blanks, n < 0, Decimal(m), rest);
  }
}
