/** `check_mime_part` of libjoe/j-chkcontent.c: the scores it accumulates with
    regex evaluation skipped once the message has scored enough, and the parts
    it counts. What the regex engine and the URL blacklists say of a text is part
    of the input. */
module ContentScore {
  import opened CText
  import opened Perm

  datatype MimeType =
    TypeText | TypeImage | TypeAudio | TypeVideo | TypeApplication | TypeToken | TypeMessage | TypeMultipart | TypeOther

  /** The regex score of the cleaned HTML, and that of the text cleaned again
      when there is one. */
  datatype Cleaned = Cleaned(score: int, again: Option<int>)

  /** The text of a part, by its MIME name. */
  datatype Body =
    | Html(cleaned: Option<Cleaned>)
    | PlainText(cleanScore: Option<int>)
    | Simple(cleanScore: Option<int>)

  datatype Part = Part(kind: MimeType, size: int, body: Body, urlbl: int, raw: int)

  datatype Config = Config(doUrlbl: bool, doRegex: bool, maxScore: int)

  datatype Scores = Scores(body: int, urlbl: int)

  function Max(a: int, b: int): int { if a < b then b else a }

  function Min(a: int, b: int): int { if a < b then a else b }

  function Total(s: Scores): int { s.body + s.urlbl }

  /** URLBL_SCORE() + REGEX_SCORE(). */
  function Current(s: Scores, urlbl: int, clean: int, raw: int): int {
    Max(urlbl, s.urlbl) + Max(Max(clean, raw), s.body)
  }

  // ----- evaluation with nothing skipped -------------------------------------

  /** The best regex score of the cleaned text. */
  function CleanScore(b: Body): int {
    match b
    case Html(None) => 0
    case Html(Some(c)) => (match c.again case None => c.score case Some(sc) => Max(c.score, sc))
    case PlainText(None) => 0
    case PlainText(Some(sc)) => sc
    case Simple(None) => 0
    case Simple(Some(sc)) => sc
  }

  function FullStep(cfg: Config, s: Scores, p: Part): Scores {
    if p.kind != TypeText then s
    else
      Scores(Max(if cfg.doRegex then Max(CleanScore(p.body), p.raw) else 0, s.body),
             Max(if cfg.doUrlbl then p.urlbl else 0, s.urlbl))
  }

  function FullStepper(cfg: Config): (Scores, Part) -> Scores {
    (s: Scores, p: Part) => FullStep(cfg, s, p)
  }

  /** The scores of a message when every expression is evaluated. */
  function Full(cfg: Config, s: Scores, parts: seq<Part>): Scores {
    Fold(FullStepper(cfg), s, parts)
  }

  // ----- evaluation that stops when the score is high enough -----------------

  /** The clean score, evaluated only below the maximum. */
  function FastClean(cfg: Config, s: Scores, urlbl: int, b: Body): int {
    if !cfg.doRegex || Current(s, urlbl, 0, 0) >= cfg.maxScore then 0
    else
      match b
      case Html(Some(c)) =>
        if Current(s, urlbl, c.score, 0) < cfg.maxScore && c.again.Some? then Max(c.score, c.again.value) else c.score
      case _ => CleanScore(b)
  }

  function FastStep(cfg: Config, s: Scores, p: Part): Scores {
    if p.kind != TypeText then s
    else
      var urlbl := if cfg.doUrlbl then p.urlbl else 0;
      var clean := FastClean(cfg, s, urlbl, p.body);
      var raw := if cfg.doRegex && Current(s, urlbl, clean, 0) < cfg.maxScore then p.raw else 0;
      Scores(Max(Max(clean, raw), s.body), Max(urlbl, s.urlbl))
  }

  function FastStepper(cfg: Config): (Scores, Part) -> Scores {
    (s: Scores, p: Part) => FastStep(cfg, s, p)
  }

  function Fast(cfg: Config, s: Scores, parts: seq<Part>): Scores {
    Fold(FastStepper(cfg), s, parts)
  }

  // ----- the part counters ---------------------------------------------------

  datatype Counters = Counters(
    size: int, parts: nat, text: nat, image: nat, audio: nat, video: nat, application: nat, token: nat, message: nat,
    multipart: nat, ksHtml: nat, ksPlain: nat, ksSimple: nat, ksOther: nat, textHtml: nat, textPlain: nat)

  const NoParts := Counters(0, 0, 0, 0, 0, 0, 0, 0, 0, 0, 0, 0, 0, 0, 0, 0)

  function CountType(c: Counters, kind: MimeType): Counters {
    match kind
    case TypeText => c.(text := c.text + 1)
    case TypeImage => c.(image := c.image + 1)
    case TypeAudio => c.(audio := c.audio + 1)
    case TypeVideo => c.(video := c.video + 1)
    case TypeApplication => c.(application := c.application + 1)
    case TypeToken => c.(token := c.token + 1)
    case TypeMessage => c.(message := c.message + 1)
    case TypeMultipart => c.(multipart := c.multipart + 1)
    case TypeOther => c
  }

  function CountPart(c: Counters, p: Part): Counters {
    var c1 := CountType(c.(size := c.size + p.size, parts := c.parts + 1), p.kind);
    if p.kind != TypeText then c1.(ksOther := c1.ksOther + 1)
    else
      match p.body
      case Html(_) => c1.(ksHtml := c1.ksHtml + 1, textHtml := c1.textHtml + 1)
      case PlainText(_) => c1.(ksPlain := c1.ksPlain + 1, textPlain := c1.textPlain + 1)
      case Simple(_) => c1.(ksSimple := c1.ksSimple + 1)
  }

  function PartCounter(): (Counters, Part) -> Counters {
    (c: Counters, p: Part) => CountPart(c, p)
  }

  // ----- the imperative check ------------------------------------------------

  /** The fields of `spamchk_T` the check works on. */
  class SpamCheck {
    const cfg: Config
    var body: int
    var urlbl: int
    var counts: Counters

    constructor (c: Config, start: Scores)
      ensures cfg == c && ScoresNow() == start && counts == NoParts
    {
      cfg := c;
      body, urlbl, counts := start.body, start.urlbl, NoParts;
    }

    function ScoresNow(): Scores
      reads this
    {
      Scores(body, urlbl)
    }

    /** The counters of a part: its type, then the size class it is sampled in. */
    method CountOne(p: Part)
      modifies this`counts
      ensures counts == CountPart(old(counts), p)
    {
      counts := CountType(counts.(size := counts.size + p.size, parts := counts.parts + 1), p.kind);
      if p.kind != TypeText {
        counts := counts.(ksOther := counts.ksOther + 1);
      } else {
        match p.body {
          case Html(_) => counts := counts.(ksHtml := counts.ksHtml + 1, textHtml := counts.textHtml + 1);
          case PlainText(_) => counts := counts.(ksPlain := counts.ksPlain + 1, textPlain := counts.textPlain + 1);
          case Simple(_) => counts := counts.(ksSimple := counts.ksSimple + 1);
        }
      }
    }

    /** The regex scores of the cleaned text of a text part. */
    method CheckClean(b: Body, urlblScore: int) returns (cleanScore: int)
      ensures cleanScore == FastClean(cfg, ScoresNow(), urlblScore, b)
    {
      cleanScore := 0;
      match b {
        case Html(cleaned) =>
          if cleaned.Some? && cfg.doRegex && Current(ScoresNow(), urlblScore, cleanScore, 0) < cfg.maxScore {
            cleanScore := cleaned.value.score;
            if Current(ScoresNow(), urlblScore, cleanScore, 0) < cfg.maxScore && cleaned.value.again.Some? {
              var sc := cleaned.value.again.value;
              if sc > cleanScore { cleanScore := sc; }
            }
          }
        case PlainText(sc) =>
          if cfg.doRegex && Current(ScoresNow(), urlblScore, cleanScore, 0) < cfg.maxScore && sc.Some? {
            cleanScore := sc.value;
          }
        case Simple(sc) =>
          if cfg.doRegex && Current(ScoresNow(), urlblScore, cleanScore, 0) < cfg.maxScore && sc.Some? {
            cleanScore := sc.value;
          }
      }
    }

    /** `check_mime_part` on a part that is not NULL. */
    method CheckMimePart(p: Part)
      modifies this
      ensures ScoresNow() == FastStep(cfg, old(ScoresNow()), p)
      ensures counts == CountPart(old(counts), p)
    {
      CountOne(p);
      if p.kind != TypeText { return; }
      var urlblScore, rawScore := 0, 0;
      if cfg.doUrlbl { urlblScore := p.urlbl; }
      var cleanScore := CheckClean(p.body, urlblScore);
      if cfg.doRegex && Current(ScoresNow(), urlblScore, cleanScore, rawScore) < cfg.maxScore { rawScore := p.raw; }
      body, urlbl := Max(Max(cleanScore, rawScore), body), Max(urlblScore, urlbl);
    }

    /** The fold `scan_body_contents` runs over the parts of a message. */
    method ScanParts(parts: seq<Part>)
      modifies this
      ensures ScoresNow() == Fast(cfg, old(ScoresNow()), parts)
      ensures counts == Fold(PartCounter(), old(counts), parts)
    {
      for i := 0 to |parts|
        invariant ScoresNow() == Fast(cfg, old(ScoresNow()), parts[..i])
        invariant counts == Fold(PartCounter(), old(counts), parts[..i])
      {
        assert parts[..i + 1] == parts[..i] + [parts[i]];
        FoldSnoc(FastStepper(cfg), old(ScoresNow()), parts[..i], parts[i]);
        FoldSnoc(PartCounter(), old(counts), parts[..i], parts[i]);
        CheckMimePart(parts[i]);
      }
      assert parts[..|parts|] == parts;
    }
  }

  // ----- what one part scores ------------------------------------------------

  /** r is the greatest of the numbers. */
  predicate Greatest(r: int, xs: seq<int>) {
    r in xs && forall i :: 0 <= i < |xs| ==> xs[i] <= r
  }

  /** Full evaluation of a plain or simple text: the best of its cleaned text, its
      raw text and what the message had, where an unscored text counts zero. */
  lemma FullText(cfg: Config, s: Scores, p: Part, cleaned: Option<int>)
    requires cfg.doRegex && p.kind == TypeText && (p.body == PlainText(cleaned) || p.body == Simple(cleaned))
    ensures
      var r := FullStep(cfg, s, p).body;
      match cleaned
      case Some(sc) => Greatest(r, [sc, p.raw, s.body])
      case None => Greatest(r, [0, p.raw, s.body])
  {
    var r := FullStep(cfg, s, p).body;
    assert [p.raw, s.body][0] == p.raw;
    match cleaned
    case Some(sc) => GreatestOfThree(r, sc, p.raw, s.body);
    case None => GreatestOfThree(r, 0, p.raw, s.body);
  }

  lemma GreatestOfThree(r: int, a: int, b: int, c: int)
    requires (r == a || r == b || r == c) && a <= r && b <= r && c <= r
    ensures Greatest(r, [a, b, c])
  {
    var xs := [a, b, c];
    assert xs[0] == a && xs[1] == b && xs[2] == c;
  }

  lemma GreatestOfFour(r: int, a: int, b: int, c: int, d: int)
    requires (r == a || r == b || r == c || r == d) && a <= r && b <= r && c <= r && d <= r
    ensures Greatest(r, [a, b, c, d])
  {
    var xs := [a, b, c, d];
    assert xs[0] == a && xs[1] == b && xs[2] == c && xs[3] == d;
  }

  /** ... and of HTML: the best of its cleaned text, that text cleaned again, its
      raw text and what the message had. */
  lemma FullHtml(cfg: Config, s: Scores, p: Part)
    requires cfg.doRegex && p.kind == TypeText && p.body.Html?
    ensures
      var r := FullStep(cfg, s, p).body;
      match p.body.cleaned
      case Some(Cleaned(sc, Some(again))) => Greatest(r, [sc, again, p.raw, s.body])
      case Some(Cleaned(sc, None)) => Greatest(r, [sc, p.raw, s.body])
      case None => Greatest(r, [0, p.raw, s.body])
  {
    var r := FullStep(cfg, s, p).body;
    match p.body.cleaned
    case Some(Cleaned(sc, Some(again))) => GreatestOfFour(r, sc, again, p.raw, s.body);
    case Some(Cleaned(sc, None)) => GreatestOfThree(r, sc, p.raw, s.body);
    case None => GreatestOfThree(r, 0, p.raw, s.body);
  }

  /** The blacklist score of a text part, and what an unscored or a non-text part
      leaves. Skipping changes none of this. */
  lemma BlacklistScore(cfg: Config, s: Scores, p: Part)
    ensures p.kind != TypeText ==> FullStep(cfg, s, p) == s == FastStep(cfg, s, p)
    ensures p.kind == TypeText ==>
      var u := if cfg.doUrlbl then p.urlbl else 0;
      FullStep(cfg, s, p).urlbl == FastStep(cfg, s, p).urlbl && Greatest(FullStep(cfg, s, p).urlbl, [u, s.urlbl])
    ensures p.kind == TypeText && !cfg.doRegex ==>
      FullStep(cfg, s, p).body == FastStep(cfg, s, p).body && Greatest(FullStep(cfg, s, p).body, [0, s.body])
  {
    var u := if cfg.doUrlbl then p.urlbl else 0;
    assert [u, s.urlbl][0] == u && [u, s.urlbl][1] == s.urlbl;
    assert [0, s.body][0] == 0 && [0, s.body][1] == s.body;
  }

  /** Once the blacklist and the body score reach the maximum, the check evaluates
      no expression: only the zero of a skipped evaluation can count. */
  lemma NothingEvaluated(cfg: Config, s: Scores, p: Part)
    requires p.kind == TypeText
    requires FastStep(cfg, s, p).urlbl + s.body >= cfg.maxScore || FastStep(cfg, s, p).urlbl >= cfg.maxScore
    ensures Greatest(FastStep(cfg, s, p).body, [0, s.body])
  {
    assert [0, s.body][0] == 0 && [0, s.body][1] == s.body;
  }

  /** When the cleaned text reaches the maximum, the raw text is not evaluated, nor
      is HTML cleaned again. */
  lemma RawSkipped(cfg: Config, s: Scores, p: Part, sc: int)
    requires cfg.doRegex && p.kind == TypeText && s.body >= 0 && FastStep(cfg, s, p).urlbl + s.body < cfg.maxScore
    requires FastStep(cfg, s, p).urlbl + sc >= cfg.maxScore
    requires p.body == PlainText(Some(sc)) || p.body == Simple(Some(sc)) ||
             (p.body.Html? && p.body.cleaned.Some? && p.body.cleaned.value.score == sc)
    ensures FastStep(cfg, s, p).body == sc
  {
  }

  // ----- stopping early changes nothing below the maximum --------------------

  /** The fast scores agree with the full ones, or both have reached the maximum. */
  predicate Agrees(cfg: Config, fast: Scores, full: Scores) {
    fast.urlbl == full.urlbl && 0 <= fast.body <= full.body &&
    (fast.body == full.body || Total(fast) >= cfg.maxScore)
  }

  lemma AgreesStep(cfg: Config, fast: Scores, full: Scores, p: Part)
    requires Agrees(cfg, fast, full)
    ensures Agrees(cfg, FastStep(cfg, fast, p), FullStep(cfg, full, p))
  {
  }

  lemma {:induction false} AgreesAll(cfg: Config, fast: Scores, full: Scores, parts: seq<Part>)
    requires Agrees(cfg, fast, full)
    ensures Agrees(cfg, Fast(cfg, fast, parts), Full(cfg, full, parts))
    decreases |parts|
  {
    if parts != [] {
      AgreesStep(cfg, fast, full, parts[0]);
      AgreesAll(cfg, FastStep(cfg, fast, parts[0]), FullStep(cfg, full, parts[0]), parts[1..]);
    }
  }

  function Capped(cfg: Config, s: Scores): int { Min(Total(s), cfg.maxScore) }

  /** The blacklist score once a text part that adds nothing has been seen. */
  function LeastUrlbl(cfg: Config, start: Scores): int {
    if cfg.doUrlbl then start.urlbl else Max(0, start.urlbl)
  }

  /** Starting scores for which skipping can do no harm: a body score that is not
      negative, or no expression to skip, or a maximum already reached, or one
      that the blacklists alone can never reach. */
  predicate Harmless(cfg: Config, start: Scores) {
    start.body >= 0 || !cfg.doRegex || LeastUrlbl(cfg, start) + start.body >= cfg.maxScore ||
    (!cfg.doUrlbl && LeastUrlbl(cfg, start) < cfg.maxScore)
  }

  /** The fast and the full scores are equal, or both have reached the maximum. */
  predicate SameBelow(cfg: Config, fast: Scores, full: Scores) {
    fast == full || (Total(fast) >= cfg.maxScore && Total(full) >= cfg.maxScore)
  }

  lemma {:induction false} NoRegexAll(cfg: Config, s: Scores, parts: seq<Part>)
    requires !cfg.doRegex
    ensures Fast(cfg, s, parts) == Full(cfg, s, parts)
    decreases |parts|
  {
    if parts != [] { NoRegexAll(cfg, FullStep(cfg, s, parts[0]), parts[1..]); }
  }

  /** What both evaluations keep when the maximum is reached without any regex. */
  predicate Reached(cfg: Config, start: Scores, s: Scores) {
    s.body >= start.body && s.urlbl >= LeastUrlbl(cfg, start)
  }

  lemma ReachedStep(cfg: Config, start: Scores, s: Scores, p: Part)
    requires Reached(cfg, start, s) || s == start
    ensures
      if p.kind == TypeText
      then Reached(cfg, start, FastStep(cfg, s, p)) && Reached(cfg, start, FullStep(cfg, s, p))
      else FastStep(cfg, s, p) == s == FullStep(cfg, s, p)
  {
  }

  lemma {:induction false} ReachedAll(cfg: Config, start: Scores, fast: Scores, full: Scores, parts: seq<Part>)
    requires LeastUrlbl(cfg, start) + start.body >= cfg.maxScore
    requires fast == full == start || (Reached(cfg, start, fast) && Reached(cfg, start, full))
    ensures SameBelow(cfg, Fast(cfg, fast, parts), Full(cfg, full, parts))
    decreases |parts|
  {
    if parts != [] {
      ReachedStep(cfg, start, fast, parts[0]);
      ReachedStep(cfg, start, full, parts[0]);
      ReachedAll(cfg, start, FastStep(cfg, fast, parts[0]), FullStep(cfg, full, parts[0]), parts[1..]);
    }
  }

  /** What both evaluations keep when the blacklists are off and cannot have
      reached the maximum before. */
  predicate Quiet(cfg: Config, fast: Scores, full: Scores) {
    !cfg.doUrlbl && fast.urlbl == full.urlbl < cfg.maxScore && 0 < cfg.maxScore && fast.body <= full.body &&
    (fast.body == full.body || (fast.urlbl >= 0 && Total(fast) >= cfg.maxScore))
  }

  lemma QuietStep(cfg: Config, fast: Scores, full: Scores, p: Part)
    requires Quiet(cfg, fast, full)
    ensures Quiet(cfg, FastStep(cfg, fast, p), FullStep(cfg, full, p))
  {
  }

  lemma {:induction false} QuietAll(cfg: Config, fast: Scores, full: Scores, parts: seq<Part>)
    requires Quiet(cfg, fast, full)
    ensures Quiet(cfg, Fast(cfg, fast, parts), Full(cfg, full, parts))
    decreases |parts|
  {
    if parts != [] {
      QuietStep(cfg, fast, full, parts[0]);
      QuietAll(cfg, FastStep(cfg, fast, parts[0]), FullStep(cfg, full, parts[0]), parts[1..]);
    }
  }

  /** For every sequence of parts, the score capped at the maximum is the one full
      evaluation gives, and below the maximum the scores themselves are. */
  lemma ShortCircuitAgrees(cfg: Config, start: Scores, parts: seq<Part>)
    requires Harmless(cfg, start)
    ensures Capped(cfg, Fast(cfg, start, parts)) == Capped(cfg, Full(cfg, start, parts))
    ensures Total(Fast(cfg, start, parts)) < cfg.maxScore ==> Fast(cfg, start, parts) == Full(cfg, start, parts)
    ensures Total(Full(cfg, start, parts)) < cfg.maxScore ==> Fast(cfg, start, parts) == Full(cfg, start, parts)
  {
    if start.body >= 0 {
      AgreesAll(cfg, start, start, parts);
    } else if !cfg.doRegex {
      NoRegexAll(cfg, start, parts);
    } else if LeastUrlbl(cfg, start) + start.body >= cfg.maxScore {
      ReachedAll(cfg, start, start, start, parts);
    } else {
      QuietAll(cfg, start, start, parts);
    }
  }

  /** A text part the blacklists know well enough and no expression scores. */
  function Listed(cfg: Config, start: Scores): Part {
    Part(TypeText, 1, Simple(Some(start.body)), Max(cfg.maxScore, start.urlbl), start.body)
  }

  lemma OnePart(cfg: Config, s: Scores, p: Part)
    ensures Fast(cfg, s, [p]) == FastStep(cfg, s, p) && Full(cfg, s, [p]) == FullStep(cfg, s, p)
  {
    FoldSnoc(FastStepper(cfg), s, [], p);
    FoldSnoc(FullStepper(cfg), s, [], p);
    assert [] + [p] == [p];
  }

  lemma ListedDisagrees(cfg: Config, start: Scores)
    requires !Harmless(cfg, start)
    ensures Capped(cfg, Fast(cfg, start, [Listed(cfg, start)])) != Capped(cfg, Full(cfg, start, [Listed(cfg, start)]))
  {
    OnePart(cfg, start, Listed(cfg, start));
  }

  /** Skipping is invisible below the maximum for every message if and only if the
      starting scores are harmless. From any other the zero of a skipped
      evaluation outscores what evaluation would have given. */
  lemma ShortCircuitIff(cfg: Config, start: Scores)
    ensures (forall parts :: Capped(cfg, Fast(cfg, start, parts)) == Capped(cfg, Full(cfg, start, parts)))
            <==> Harmless(cfg, start)
  {
    if Harmless(cfg, start) {
      forall parts ensures Capped(cfg, Fast(cfg, start, parts)) == Capped(cfg, Full(cfg, start, parts)) {
        ShortCircuitAgrees(cfg, start, parts);
      }
    } else {
      ListedDisagrees(cfg, start);
    }
  }

  lemma FullStepCommutes(cfg: Config)
    ensures Commutes(FullStepper(cfg))
  {
  }

  /** The capped score does not depend on the order of the parts, although which
      expressions are skipped does. */
  lemma CappedOrderIndependent(cfg: Config, start: Scores, parts: seq<Part>, parts': seq<Part>)
    requires Harmless(cfg, start) && multiset(parts) == multiset(parts')
    ensures Capped(cfg, Fast(cfg, start, parts)) == Capped(cfg, Fast(cfg, start, parts'))
  {
    FullStepCommutes(cfg);
    FoldPermutation(FullStepper(cfg), start, parts, parts');
    ShortCircuitAgrees(cfg, start, parts);
    ShortCircuitAgrees(cfg, start, parts');
  }

  predicate Below(a: Scores, b: Scores) { a.body <= b.body && a.urlbl <= b.urlbl }

  lemma {:induction false} FullMonotone(cfg: Config, a: Scores, b: Scores, parts: seq<Part>)
    requires Below(a, b)
    ensures Below(Full(cfg, a, parts), Full(cfg, b, parts))
    decreases |parts|
  {
    if parts != [] { FullMonotone(cfg, FullStep(cfg, a, parts[0]), FullStep(cfg, b, parts[0]), parts[1..]); }
  }

  /** Inserting a part anywhere never lowers the capped score. */
  lemma InsertNeverLowers(cfg: Config, start: Scores, before: seq<Part>, p: Part, after: seq<Part>)
    requires Harmless(cfg, start)
    ensures Capped(cfg, Fast(cfg, start, before + after)) <= Capped(cfg, Fast(cfg, start, before + [p] + after))
  {
    var mid := Full(cfg, start, before);
    FoldAppend(FullStepper(cfg), start, before, after);
    FoldAppend(FullStepper(cfg), start, before + [p], after);
    FoldSnoc(FullStepper(cfg), start, before, p);
    FullMonotone(cfg, mid, FullStep(cfg, mid, p), after);
    ShortCircuitAgrees(cfg, start, before + after);
    ShortCircuitAgrees(cfg, start, before + [p] + after);
  }

  // ----- part accounting -----------------------------------------------------

  function SumSizes(parts: seq<Part>): int {
    if parts == [] then 0 else parts[0].size + SumSizes(parts[1..])
  }

  /** How many parts satisfy q. */
  function CountParts(parts: seq<Part>, q: Part -> bool): nat {
    if parts == [] then 0 else (if q(parts[0]) then 1 else 0) + CountParts(parts[1..], q)
  }

  /** A counter that every part the check sees moves by one if the part satisfies q
      and leaves alone if not. */
  ghost predicate Tracks(get: Counters -> int, q: Part -> bool) {
    forall c, p :: get(CountPart(c, p)) == get(c) + if q(p) then 1 else 0
  }

  lemma {:induction false} CountedFrom(c: Counters, parts: seq<Part>, get: Counters -> int, q: Part -> bool)
    requires Tracks(get, q)
    ensures get(Fold(PartCounter(), c, parts)) == get(c) + CountParts(parts, q)
    decreases |parts|
  {
    if parts != [] {
      assert get(CountPart(c, parts[0])) == get(c) + if q(parts[0]) then 1 else 0;
      CountedFrom(CountPart(c, parts[0]), parts[1..], get, q);
    }
  }

  function HasKind(kind: MimeType): Part -> bool { (p: Part) => p.kind == kind }

  function HtmlPart(): Part -> bool { (p: Part) => p.kind == TypeText && p.body.Html? }

  function PlainPart(): Part -> bool { (p: Part) => p.kind == TypeText && p.body.PlainText? }

  function SimplePart(): Part -> bool { (p: Part) => p.kind == TypeText && p.body.Simple? }

  function NotText(): Part -> bool { (p: Part) => p.kind != TypeText }

  /** From a cleared record, the text counters are the numbers of HTML, plain and
      simple text parts ... */
  lemma HtmlCounters(parts: seq<Part>)
    ensures
      var c := Fold(PartCounter(), NoParts, parts);
      c.ksHtml == CountParts(parts, HtmlPart()) && c.textHtml == CountParts(parts, HtmlPart())
  {
    CountedFrom(NoParts, parts, (c: Counters) => c.ksHtml, HtmlPart());
    CountedFrom(NoParts, parts, (c: Counters) => c.textHtml, HtmlPart());
  }

  lemma PlainCounters(parts: seq<Part>)
    ensures
      var c := Fold(PartCounter(), NoParts, parts);
      c.ksPlain == CountParts(parts, PlainPart()) && c.textPlain == CountParts(parts, PlainPart())
  {
    CountedFrom(NoParts, parts, (c: Counters) => c.ksPlain, PlainPart());
    CountedFrom(NoParts, parts, (c: Counters) => c.textPlain, PlainPart());
  }

  lemma OtherCounters(parts: seq<Part>)
    ensures
      var c := Fold(PartCounter(), NoParts, parts);
      c.ksSimple == CountParts(parts, SimplePart()) && c.ksOther == CountParts(parts, NotText())
  {
    CountedFrom(NoParts, parts, (c: Counters) => c.ksSimple, SimplePart());
    CountedFrom(NoParts, parts, (c: Counters) => c.ksOther, NotText());
  }

  /** The counter of a type. */
  function CounterOf(c: Counters, kind: MimeType): int {
    match kind
    case TypeText => c.text
    case TypeImage => c.image
    case TypeAudio => c.audio
    case TypeVideo => c.video
    case TypeApplication => c.application
    case TypeToken => c.token
    case TypeMessage => c.message
    case TypeMultipart => c.multipart
    case TypeOther => 0
  }

  /** ... and each type's counter the number of parts of that type. */
  lemma TypeCounter(parts: seq<Part>, kind: MimeType)
    requires kind != TypeOther
    ensures CounterOf(Fold(PartCounter(), NoParts, parts), kind) == CountParts(parts, HasKind(kind))
  {
    CountedFrom(NoParts, parts, (c: Counters) => CounterOf(c, kind), HasKind(kind));
  }

  predicate Partition(c: Counters) {
    c.parts == c.ksHtml + c.ksPlain + c.ksSimple + c.ksOther && c.text == c.ksHtml + c.ksPlain + c.ksSimple
  }

  lemma PartCounted(c: Counters, p: Part)
    requires Partition(c)
    ensures Partition(CountPart(c, p))
    ensures CountPart(c, p).size == c.size + p.size && CountPart(c, p).parts == c.parts + 1
  {
  }

  lemma {:induction false} AccountingFrom(c: Counters, parts: seq<Part>)
    requires Partition(c)
    ensures
      var r := Fold(PartCounter(), c, parts);
      Partition(r) && r.size == c.size + SumSizes(parts) && r.parts == c.parts + |parts|
    decreases |parts|
  {
    if parts != [] {
      PartCounted(c, parts[0]);
      AccountingFrom(CountPart(c, parts[0]), parts[1..]);
    }
  }

  /** From a cleared record, every part is sampled in exactly one size class, the
      text parts in the three text classes, and the sizes add up. */
  lemma PartAccounting(parts: seq<Part>)
    ensures
      var c := Fold(PartCounter(), NoParts, parts);
      c.parts == |parts| == c.ksHtml + c.ksPlain + c.ksSimple + c.ksOther &&
      c.text == c.ksHtml + c.ksPlain + c.ksSimple && c.size == SumSizes(parts)
  {
    AccountingFrom(NoParts, parts);
  }
}
