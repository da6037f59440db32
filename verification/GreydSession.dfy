/** The command loop of `greyd_server`: which of its guards ends a session, and
    when, told by the trace of what each turn of the loop met. */
module GreydSession {

  const CTRL_TO := 60000
  const MAX_GREY_ERRORS := 4
  const PERIOD := 1002

  /** The result codes of `handle_command`. */
  datatype Answer = SrvOk | SrvError | IoError | SrvClose

  /** What `recvfrom` left in the cleared buffer. Its result is kept in an
      unsigned variable, so a failed receive looks like an empty line. */
  datatype Got = EndOfFile | Failed | EmptyLine | Command(answer: Answer)

  /** What `jfd_ready` reported; at a time-out the idle limit is read anew. */
  datatype Wait = Broken | TimedOut(idle: int) | Neither | Readable(got: Got)

  /** One turn of the loop: the clock, were it read, and the wait. */
  datatype Turn = Turn(clock: int, wait: Wait)

  datatype End = Running | Flooding | SocketError | Idle | Closed | Strikes | OutputError | Quit

  // ----- the guards, told by the trace ---------------------------------------

  predicate IsError(t: Turn) { t.wait.Readable? && t.wait.got == Command(SrvError) }

  predicate IsOk(t: Turn) { t.wait.Readable? && t.wait.got == Command(SrvOk) }

  function Errors(turns: seq<Turn>, a: nat, b: nat): nat
    requires a <= b <= |turns|
  {
    if a == b then 0 else Errors(turns, a, b - 1) + if IsError(turns[b - 1]) then 1 else 0
  }

  predicate NoOk(turns: seq<Turn>, a: nat, b: nat)
    requires a <= b <= |turns|
  {
    forall j :: a <= j < b ==> !IsOk(turns[j])
  }

  /** From turn a to turn i, at least k errors and no accepted command. */
  predicate ErrorStretch(turns: seq<Turn>, a: nat, i: nat, k: nat) {
    a <= i < |turns| && NoOk(turns, a, i + 1) && Errors(turns, a, i + 1) >= k
  }

  /** Turn i is an error and, with no accepted command in between, at least the
      k-th. */
  ghost predicate Strike(turns: seq<Turn>, i: nat, k: nat)
    requires i < |turns|
  {
    IsError(turns[i]) && exists a: nat :: ErrorStretch(turns, a, i, k)
  }

  /** How many time-outs in a row make a session idle:
      the ceiling of max(60000, 1000 * idle) / 60000. */
  function IdleTurns(idle: int): int {
    var ms := if 1000 * idle < CTRL_TO then CTRL_TO else 1000 * idle;
    (ms + CTRL_TO - 1) / CTRL_TO
  }

  /** Turn i ends a run of at least k time-outs. */
  predicate TimeoutRun(turns: seq<Turn>, i: nat, k: int)
    requires i < |turns|
  {
    k <= i + 1 && forall j :: 0 <= j <= i && i - k < j ==> turns[j].wait.TimedOut?
  }

  /** Every 1002nd turn, the clock must have moved by two seconds since the
      1002nd turn before it. */
  predicate Flood(t0: int, turns: seq<Turn>, i: nat)
    requires i < |turns|
  {
    (i + 1) % PERIOD == 0 && turns[i].clock < 2 + if i < PERIOD then t0 else turns[i - PERIOD].clock
  }

  /** How turn i ends the session that began at t0, if it does. */
  ghost function Outcome(t0: int, turns: seq<Turn>, i: nat): End
    requires i < |turns|
  {
    if Flood(t0, turns, i) then Flooding
    else
      match turns[i].wait
      case Broken => SocketError
      case TimedOut(idle) => if TimeoutRun(turns, i, IdleTurns(idle)) then Idle else Running
      case Neither => Closed
      case Readable(EndOfFile) => Closed
      case Readable(Failed) => Running
      case Readable(EmptyLine) => Running
      case Readable(Command(SrvOk)) => Running
      case Readable(Command(SrvError)) => if Strike(turns, i, 5) then Strikes else Running
      case Readable(Command(IoError)) => OutputError
      case Readable(Command(SrvClose)) => Quit
  }

  /** None of the first n turns ends the session. */
  ghost predicate RunsTo(t0: int, turns: seq<Turn>, n: nat)
    requires n <= |turns|
  {
    forall j :: 0 <= j < n ==> Outcome(t0, turns, j) == Running
  }

  // ----- what the counters count ---------------------------------------------

  /** Errors since the last accepted command. */
  function StrikesSince(turns: seq<Turn>, n: nat): nat
    requires n <= |turns|
  {
    if n == 0 || IsOk(turns[n - 1]) then 0
    else StrikesSince(turns, n - 1) + if IsError(turns[n - 1]) then 1 else 0
  }

  lemma {:induction false} ErrorsBounded(turns: seq<Turn>, a: nat, n: nat)
    requires a <= n <= |turns| && NoOk(turns, a, n)
    ensures Errors(turns, a, n) <= StrikesSince(turns, n)
  {
    if a < n { ErrorsBounded(turns, a, n - 1); }
  }

  lemma {:induction false} StrikesWitness(turns: seq<Turn>, n: nat) returns (a: nat)
    requires n <= |turns|
    ensures a <= n && NoOk(turns, a, n) && Errors(turns, a, n) == StrikesSince(turns, n)
  {
    if n == 0 || IsOk(turns[n - 1]) {
      a := n;
    } else {
      a := StrikesWitness(turns, n - 1);
    }
  }

  lemma StrikeIff(turns: seq<Turn>, i: nat, k: nat)
    requires i < |turns| && IsError(turns[i]) && k >= 1
    ensures Strike(turns, i, k) <==> StrikesSince(turns, i + 1) >= k
  {
    if Strike(turns, i, k) {
      var a: nat :| ErrorStretch(turns, a, i, k);
      ErrorsBounded(turns, a, i + 1);
    }
    if StrikesSince(turns, i + 1) >= k {
      var a := StrikesWitness(turns, i + 1);
      assert ErrorStretch(turns, a, i, k);
    }
  }

  /** Time-outs since anything else. */
  function TimeoutsSince(turns: seq<Turn>, n: nat): nat
    requires n <= |turns|
  {
    if n == 0 || !turns[n - 1].wait.TimedOut? then 0 else 1 + TimeoutsSince(turns, n - 1)
  }

  lemma {:induction false} TimeoutsSinceIs(turns: seq<Turn>, n: nat)
    requires n <= |turns|
    ensures
      var k := TimeoutsSince(turns, n);
      k <= n && (forall j :: n - k <= j < n ==> turns[j].wait.TimedOut?) &&
      (k < n ==> !turns[n - k - 1].wait.TimedOut?)
  {
    if n > 0 && turns[n - 1].wait.TimedOut? { TimeoutsSinceIs(turns, n - 1); }
  }

  lemma TimeoutRunIff(turns: seq<Turn>, i: nat, k: int)
    requires i < |turns| && k >= 1
    ensures TimeoutRun(turns, i, k) <==> TimeoutsSince(turns, i + 1) >= k
  {
    TimeoutsSinceIs(turns, i + 1);
  }

  lemma IdleTurnsIff(idle: int, n: nat)
    ensures IdleTurns(idle) >= 1
    ensures n >= IdleTurns(idle) <==> n * 60000 >= if 1000 * idle < 60000 then 60000 else 1000 * idle
  {
  }

  lemma IdleReached(turns: seq<Turn>, i: nat, idle: int)
    requires i < |turns|
    ensures TimeoutsSince(turns, i + 1) * CTRL_TO >= (if idle * 1000 < CTRL_TO then CTRL_TO else idle * 1000) <==>
            TimeoutRun(turns, i, IdleTurns(idle))
  {
    IdleTurnsIff(idle, TimeoutsSince(turns, i + 1));
    TimeoutRunIff(turns, i, IdleTurns(idle));
  }

  // ----- the loop ------------------------------------------------------------

  /** The session loop, over the turns it gets: how many bodies it starts and
      what ends it. */
  method Session(t0: int, turns: seq<Turn>) returns (bodies: nat, end: End)
    ensures bodies <= |turns|
    ensures if end == Running then bodies == |turns| && RunsTo(t0, turns, bodies)
            else bodies >= 1 && RunsTo(t0, turns, bodies - 1) && Outcome(t0, turns, bodies - 1) == end
  {
    var ntout, nerrors, nloop, tiloop := 0, 0, 0, t0;
    bodies, end := 0, Running;
    while bodies < |turns|
      invariant bodies <= |turns|
      invariant RunsTo(t0, turns, bodies)
      invariant ntout == TimeoutsSince(turns, bodies)
      invariant nerrors == StrikesSince(turns, bodies)
      invariant nloop == bodies % PERIOD
      invariant tiloop == if bodies < PERIOD then t0 else turns[bodies - bodies % PERIOD - 1].clock
    {
      var i := bodies;
      var turn := turns[i];
      bodies := bodies + 1;
      nloop := nloop + 1;
      if nloop - 1 > 1000 {
        var now := turn.clock;
        if tiloop + 2 > now { return bodies, Flooding; }
        tiloop := now;
        nloop := 0;
      }
      assert !Flood(t0, turns, i);
      match turn.wait {
        case Broken => return bodies, SocketError;
        case TimedOut(idle) =>
          var dtMax := idle * 1000;
          if dtMax < CTRL_TO { dtMax := CTRL_TO; }
          ntout := ntout + 1;
          var dt := ntout * CTRL_TO;
          IdleReached(turns, i, idle);
          if dt >= dtMax { return bodies, Idle; }
        case Neither => return bodies, Closed;
        case Readable(got) =>
          ntout := 0;
          match got {
            case EndOfFile => return bodies, Closed;
            case Failed =>
            case EmptyLine =>
            case Command(answer) =>
              match answer {
                case SrvOk => nerrors := 0;
                case SrvError =>
                  nerrors := nerrors + 1;
                  StrikeIff(turns, i, 5);
                  if nerrors > MAX_GREY_ERRORS { return bodies, Strikes; }
                case IoError => return bodies, OutputError;
                case SrvClose => return bodies, Quit;
              }
          }
      }
    }
  }

  // ----- what moves the counters ---------------------------------------------

  /** Only error answers move the strike count up, only accepted commands clear it:
      an empty or failed receive and a time-out leave it alone. */
  lemma StrikeMoves(turns: seq<Turn>, n: nat)
    requires 0 < n <= |turns|
    ensures
      var was, now := StrikesSince(turns, n - 1), StrikesSince(turns, n);
      match turns[n - 1].wait
      case Readable(Command(SrvOk)) => now == 0
      case Readable(Command(SrvError)) => now == was + 1
      case _ => now == was
  {
  }

  /** A time-out adds one to the time-outs in a row, anything else clears them. */
  lemma TimeoutMoves(turns: seq<Turn>, n: nat)
    requires 0 < n <= |turns|
    ensures TimeoutsSince(turns, n) ==
      match turns[n - 1].wait case TimedOut(_) => TimeoutsSince(turns, n - 1) + 1 case _ => 0
  {
  }

  /** A turn that neither floods, fails, hangs up nor quits. */
  predicate Ordinary(t0: int, turns: seq<Turn>, i: nat)
    requires i < |turns|
  {
    !Flood(t0, turns, i) &&
    match turns[i].wait
    case TimedOut(_) => true
    case Readable(Failed) => true
    case Readable(EmptyLine) => true
    case Readable(Command(answer)) => answer == SrvOk || answer == SrvError
    case _ => false
  }

  /** Such a turn ends the session exactly at the fifth error with no accepted
      command between, or at the ceil(max(60000, 1000 * idle) / 60000)-th time-out
      in a row. */
  lemma EndsIff(t0: int, turns: seq<Turn>, i: nat)
    requires i < |turns| && Ordinary(t0, turns, i)
    ensures Outcome(t0, turns, i) != Running <==>
      match turns[i].wait
      case Readable(Command(SrvError)) => StrikesSince(turns, i + 1) >= 5
      case TimedOut(idle) =>
        TimeoutsSince(turns, i + 1) * 60000 >= (if 1000 * idle < 60000 then 60000 else 1000 * idle)
      case _ => false
  {
    match turns[i].wait
    case Readable(Command(SrvError)) => StrikeIff(turns, i, 5);
    case TimedOut(idle) =>
      IdleTurnsIff(idle, TimeoutsSince(turns, i + 1));
      TimeoutRunIff(turns, i, IdleTurns(idle));
    case _ =>
  }

  /** Any other turn ends it at once, each for its own reason. */
  lemma EndsAtOnce(t0: int, turns: seq<Turn>, i: nat)
    requires i < |turns| && !Ordinary(t0, turns, i)
    ensures Outcome(t0, turns, i) ==
      if (i + 1) % 1002 == 0 && turns[i].clock < 2 + (if i < 1002 then t0 else turns[i - 1002].clock) then Flooding
      else
        match turns[i].wait
        case Broken => SocketError
        case Neither => Closed
        case Readable(EndOfFile) => Closed
        case Readable(Command(IoError)) => OutputError
        case _ => Quit
  {
  }

  // ----- the flood bound -----------------------------------------------------

  predicate NonDecreasing(t0: int, turns: seq<Turn>) {
    (forall i :: 0 <= i < |turns| ==> t0 <= turns[i].clock) &&
    forall i, j :: 0 <= i < j < |turns| ==> turns[i].clock <= turns[j].clock
  }

  lemma {:induction false} ClockMoves(t0: int, turns: seq<Turn>, n: nat, k: nat)
    requires k >= 1 && PERIOD * k <= n <= |turns|
    requires RunsTo(t0, turns, n)
    ensures turns[PERIOD * k - 1].clock >= t0 + 2 * k
  {
    var i := PERIOD * k - 1;
    assert (i + 1) % PERIOD == 0;
    assert Outcome(t0, turns, i) == Running;
    if k > 1 {
      ClockMoves(t0, turns, n, k - 1);
      assert i - PERIOD == PERIOD * (k - 1) - 1;
    }
  }

  /** With a clock that does not go back, a session starts at most
      1002 * (T / 2 + 1) loop bodies in its first T seconds. */
  lemma FloodBound(t0: int, turns: seq<Turn>, n: nat, seconds: nat)
    requires NonDecreasing(t0, turns)
    requires 1 <= n <= |turns| && turns[n - 1].clock <= t0 + seconds
    requires RunsTo(t0, turns, n - 1)
    ensures n <= 1002 * (seconds / 2 + 1)
  {
    var k := seconds / 2 + 1;
    if n > PERIOD * k { ClockMoves(t0, turns, n - 1, k); }
  }
}
