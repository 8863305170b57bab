/** `SlurmClient.get_connection` (utils/slurm_client.py): up to three attempts at a
    two-hop SSH session (bastion, then the head node through it), cleanup of
    partial hops and a 5-second sleep after every failed attempt, and teardown of
    both hops when the caller's block exits. The SSH library is an oracle telling,
    for each attempt, which step raises; hop construction, opening, closing and
    sleeping are recorded in a ghost trace. */
module Session {
  import opened Text

  const Retries: nat := 3
  const RetryDelaySeconds: nat := 5

  datatype Hop = Bastion | HeadNode

  /** What the transport does on one attempt. */
  datatype Attempt =
    | BastionFails   // building the bastion `Connection` raises
    | HeadFails      // building the head-node `Connection` raises
    | OpenFails      // `head_node.open()` raises
    | Opens          // `head_node.open()` succeeds

  datatype Event = Built(hop: Hop) | Opened | Closed(hop: Hop) | Slept(seconds: nat) | Ran

  datatype Connection =
    | Connected(attempt: nat)          // the attempt whose `open()` succeeded
    | ConnectionError(cause: Attempt)  // `raise ConnectionError(last_error)`

  /** What a command run on an established session does. */
  datatype Run = RunRaises | RunReturns(ok: bool, stdout: string)

  /** What the caller of `with get_connection() as conn: conn.run(...)` sees. */
  datatype Reply =
    | Unreachable                       // get_connection raised ConnectionError
    | RunFailed                         // conn.run raised
    | Done(ok: bool, stdout: string)    // conn.run returned

  /** Events of one attempt, in the order the source produces them. */
  function AttemptEvents(a: Attempt): seq<Event> {
    match a
    case BastionFails => [Slept(RetryDelaySeconds)]
    case HeadFails => [Built(Bastion), Closed(Bastion), Slept(RetryDelaySeconds)]
    case OpenFails => [Built(Bastion), Built(HeadNode), Closed(HeadNode), Closed(Bastion), Slept(RetryDelaySeconds)]
    case Opens => [Built(Bastion), Built(HeadNode), Opened]
  }

  /** Events of the first `n` attempts. */
  function EventsUpTo(transport: nat -> Attempt, n: nat): seq<Event> {
    if n == 0 then [] else EventsUpTo(transport, n - 1) + AttemptEvents(transport(n - 1))
  }

  predicate SucceedsWithin(transport: nat -> Attempt, n: nat) {
    exists i :: 0 <= i < n && transport(i) == Opens
  }

  /** The attempt that connects: the first of the three whose `open()` succeeds. */
  function FirstSuccess(transport: nat -> Attempt, from: nat): (r: Option<nat>)
    requires from <= Retries
    ensures r.Some? ==> from <= r.value < Retries && transport(r.value) == Opens
    ensures r.Some? ==> forall j :: from <= j < r.value ==> transport(j) != Opens
    ensures r.None? ==> forall j :: from <= j < Retries ==> transport(j) != Opens
    decreases Retries - from
  {
    if from == Retries then None
    else if transport(from) == Opens then Some(from)
    else FirstSuccess(transport, from + 1)
  }

  /** The trace of `get_connection` up to the point where it yields or raises. */
  function ConnectTrace(transport: nat -> Attempt): seq<Event> {
    match FirstSuccess(transport, 0)
    case Some(k) => EventsUpTo(transport, k + 1)
    case None => EventsUpTo(transport, Retries)
  }

  /** The retry loop of `get_connection`. */
  method GetConnection(transport: nat -> Attempt) returns (c: Connection, ghost trace: seq<Event>)
    ensures c.Connected? <==> SucceedsWithin(transport, Retries)
    ensures c.Connected? ==> c.attempt < Retries && transport(c.attempt) == Opens
    ensures c.Connected? ==> forall j :: 0 <= j < c.attempt ==> transport(j) != Opens
    ensures c.ConnectionError? ==> c.cause == transport(Retries - 1)
    ensures trace == ConnectTrace(transport)
  {
    var bastion, headNode := false, false;
    var lastError: Attempt := BastionFails;
    var attempt: nat := 0;
    trace := [];
    while attempt < Retries
      invariant attempt <= Retries
      invariant !bastion && !headNode
      invariant forall j :: 0 <= j < attempt ==> transport(j) != Opens
      invariant attempt > 0 ==> lastError == transport(attempt - 1)
      invariant trace == EventsUpTo(transport, attempt)
    {
      var outcome := transport(attempt);
      ghost var step: seq<Event> := [];
      if outcome != BastionFails {
        bastion := true;
        step := step + [Built(Bastion)];
        if outcome != HeadFails {
          headNode := true;
          step := step + [Built(HeadNode)];
        }
      }
      if outcome == Opens {
        trace := trace + step + [Opened];
        break;
      }
      lastError := outcome;
      if headNode {
        headNode := false;
        step := step + [Closed(HeadNode)];
      }
      if bastion {
        bastion := false;
        step := step + [Closed(Bastion)];
      }
      step := step + [Slept(RetryDelaySeconds)];
      assert step == AttemptEvents(outcome);
      assert EventsUpTo(transport, attempt + 1) == trace + step;
      trace := trace + step;
      attempt := attempt + 1;
    }
    if !headNode {
      assert FirstSuccess(transport, 0).None?;
      c := ConnectionError(lastError);
    } else {
      assert FirstSuccess(transport, 0) == Some(attempt);
      c := Connected(attempt);
    }
  }

  function TeardownEvents(): seq<Event> {
    [Closed(HeadNode), Closed(Bastion)]
  }

  /** `with self.get_connection() as conn: result = conn.run(cmd)`: connect, run
      the command, then close both hops on the way out (normal or raising). */
  method RunCommand(transport: nat -> Attempt, run: Run) returns (r: Reply, ghost trace: seq<Event>)
    ensures !SucceedsWithin(transport, Retries) ==> r == Unreachable
    ensures SucceedsWithin(transport, Retries) ==>
              r == (match run case RunRaises => RunFailed case RunReturns(ok, out) => Done(ok, out))
    ensures trace == SessionTrace(transport)
  {
    var c;
    c, trace := GetConnection(transport);
    if c.ConnectionError? {
      r := Unreachable;
      return;
    }
    trace := trace + [Ran];
    match run {
      case RunRaises => r := RunFailed;
      case RunReturns(ok, out) => r := Done(ok, out);
    }
    trace := trace + TeardownEvents();
  }

  function SessionTrace(transport: nat -> Attempt): seq<Event> {
    if SucceedsWithin(transport, Retries) then ConnectTrace(transport) + [Ran] + TeardownEvents()
    else ConnectTrace(transport)
  }

  // ---------------------------------------------------------------- properties of the trace

  /** How many times `e` occurs in `t`. */
  function Occurrences(t: seq<Event>, e: Event): (n: nat)
    ensures n <= |t|
  {
    if |t| == 0 then 0 else Occurrences(t[..|t| - 1], e) + (if t[|t| - 1] == e then 1 else 0)
  }

  lemma {:induction false} OccurrencesAppend(a: seq<Event>, b: seq<Event>, e: Event)
    ensures Occurrences(a + b, e) == Occurrences(a, e) + Occurrences(b, e)
  {
    if |b| == 0 {
      assert a + b == a;
    } else {
      var ab := a + b;
      assert ab[..|ab| - 1] == a + b[..|b| - 1] && ab[|ab| - 1] == b[|b| - 1];
      OccurrencesAppend(a, b[..|b| - 1], e);
    }
  }

  function CountBuilt(t: seq<Event>, h: Hop): nat {
    Occurrences(t, Built(h))
  }

  function CountClosed(t: seq<Event>, h: Hop): nat {
    Occurrences(t, Closed(h))
  }

  /** Seconds slept: every sleep in the source is `time.sleep(5)`. */
  function SleptSeconds(t: seq<Event>): nat {
    RetryDelaySeconds * Occurrences(t, Slept(RetryDelaySeconds))
  }

  /** Each attempt ends either in a sleep (failed) or in `Opened` (succeeded). */
  function CountAttempts(t: seq<Event>): nat {
    Occurrences(t, Slept(RetryDelaySeconds)) + Occurrences(t, Opened)
  }

  /** `Occurrences` counts the multiplicity of `e` in `t`. */
  lemma {:induction false} OccurrencesMultiset(t: seq<Event>, e: Event)
    ensures Occurrences(t, e) == multiset(t)[e]
  {
    if |t| > 0 {
      OccurrencesMultiset(t[..|t| - 1], e);
      assert t == t[..|t| - 1] + [t[|t| - 1]];
    }
  }

  /** One failed attempt closes what it built and sleeps once. */
  lemma FailedAttemptBalanced(a: Attempt, h: Hop)
    requires a != Opens
    ensures CountBuilt(AttemptEvents(a), h) == CountClosed(AttemptEvents(a), h)
    ensures Occurrences(AttemptEvents(a), Slept(RetryDelaySeconds)) == 1
    ensures Occurrences(AttemptEvents(a), Opened) == 0
  {
    match a
    case BastionFails =>
      var e := AttemptEvents(a);
      assert multiset(e) == multiset{Slept(RetryDelaySeconds)};
      MultisetCounts(e, h);
    case HeadFails => HeadFailsBalanced(h);
    case OpenFails => OpenFailsBalanced(h);
  }

  lemma HeadFailsBalanced(h: Hop)
    ensures var e := AttemptEvents(HeadFails);
      && CountBuilt(e, h) == CountClosed(e, h)
      && Occurrences(e, Slept(RetryDelaySeconds)) == 1 && Occurrences(e, Opened) == 0
  {
    var e := AttemptEvents(HeadFails);
    assert multiset(e) == multiset{Built(Bastion), Closed(Bastion), Slept(RetryDelaySeconds)};
    MultisetCounts(e, h);
  }

  lemma OpenFailsBalanced(h: Hop)
    ensures var e := AttemptEvents(OpenFails);
      && CountBuilt(e, h) == CountClosed(e, h)
      && Occurrences(e, Slept(RetryDelaySeconds)) == 1 && Occurrences(e, Opened) == 0
  {
    var e := AttemptEvents(OpenFails);
    assert multiset(e) == multiset{Built(Bastion), Built(HeadNode), Closed(HeadNode), Closed(Bastion), Slept(RetryDelaySeconds)};
    MultisetCounts(e, h);
  }

  /** The four counts of a trace read off its multiset of events. */
  lemma MultisetCounts(t: seq<Event>, h: Hop)
    ensures CountBuilt(t, h) == multiset(t)[Built(h)] && CountClosed(t, h) == multiset(t)[Closed(h)]
    ensures Occurrences(t, Slept(RetryDelaySeconds)) == multiset(t)[Slept(RetryDelaySeconds)]
    ensures Occurrences(t, Opened) == multiset(t)[Opened]
  {
    OccurrencesMultiset(t, Built(h));
    OccurrencesMultiset(t, Closed(h));
    OccurrencesMultiset(t, Slept(RetryDelaySeconds));
    OccurrencesMultiset(t, Opened);
  }

  /** After `n` failed attempts every hop built so far has been closed, and
      5 seconds have been slept per attempt. */
  lemma {:induction false} FailedAttemptsBalanced(transport: nat -> Attempt, n: nat, h: Hop)
    requires forall j :: 0 <= j < n ==> transport(j) != Opens
    ensures CountBuilt(EventsUpTo(transport, n), h) == CountClosed(EventsUpTo(transport, n), h)
    ensures Occurrences(EventsUpTo(transport, n), Slept(RetryDelaySeconds)) == n
    ensures Occurrences(EventsUpTo(transport, n), Opened) == 0
  {
    if n > 0 {
      FailedAttemptsBalanced(transport, n - 1, h);
      FailedAttemptBalanced(transport(n - 1), h);
      BalancedSnoc(EventsUpTo(transport, n - 1), AttemptEvents(transport(n - 1)), h, n - 1);
    }
  }

  /** A failed attempt appended to a balanced trace of `k` failed attempts gives a
      balanced trace of `k + 1`. */
  lemma BalancedSnoc(pre: seq<Event>, step: seq<Event>, h: Hop, k: nat)
    requires CountBuilt(pre, h) == CountClosed(pre, h)
    requires Occurrences(pre, Slept(RetryDelaySeconds)) == k && Occurrences(pre, Opened) == 0
    requires CountBuilt(step, h) == CountClosed(step, h)
    requires Occurrences(step, Slept(RetryDelaySeconds)) == 1 && Occurrences(step, Opened) == 0
    ensures CountBuilt(pre + step, h) == CountClosed(pre + step, h)
    ensures Occurrences(pre + step, Slept(RetryDelaySeconds)) == k + 1
    ensures Occurrences(pre + step, Opened) == 0
  {
    AppendCounts(pre, step, h);
  }

  /** The four counts of a concatenation are the sums of the parts' counts. */
  lemma AppendCounts(a: seq<Event>, b: seq<Event>, h: Hop)
    ensures CountBuilt(a + b, h) == CountBuilt(a, h) + CountBuilt(b, h)
    ensures CountClosed(a + b, h) == CountClosed(a, h) + CountClosed(b, h)
    ensures Occurrences(a + b, Slept(RetryDelaySeconds)) == Occurrences(a, Slept(RetryDelaySeconds)) + Occurrences(b, Slept(RetryDelaySeconds))
    ensures Occurrences(a + b, Opened) == Occurrences(a, Opened) + Occurrences(b, Opened)
  {
    OccurrencesAppend(a, b, Built(h));
    OccurrencesAppend(a, b, Closed(h));
    OccurrencesAppend(a, b, Slept(RetryDelaySeconds));
    OccurrencesAppend(a, b, Opened);
  }

  /** Whatever the transport does, every hop the session builds is closed by the
      time the caller's block has exited, at most three attempts are made, and
      the retry loop sleeps 5 seconds after each failed attempt, including the
      last one before `ConnectionError` is raised. */
  lemma SessionClosesEveryHop(transport: nat -> Attempt, h: Hop)
    ensures CountBuilt(SessionTrace(transport), h) == CountClosed(SessionTrace(transport), h)
    ensures CountAttempts(SessionTrace(transport)) <= Retries
    ensures SucceedsWithin(transport, Retries) ==>
              SleptSeconds(SessionTrace(transport)) == RetryDelaySeconds * FirstSuccess(transport, 0).value
    ensures !SucceedsWithin(transport, Retries) ==>
              SleptSeconds(SessionTrace(transport)) == RetryDelaySeconds * Retries
  {
    SucceedsIffFirstSuccess(transport);
    match FirstSuccess(transport, 0)
    case None =>
      FailedAttemptsBalanced(transport, Retries, h);
    case Some(k) =>
      ConnectedSessionBalanced(transport, k, h);
  }

  lemma SucceedsIffFirstSuccess(transport: nat -> Attempt)
    ensures SucceedsWithin(transport, Retries) <==> FirstSuccess(transport, 0).Some?
  {
  }

  /** The connecting attempt builds each hop once and opens once. */
  lemma OpeningAttempt(h: Hop)
    ensures var t := AttemptEvents(Opens);
      && CountBuilt(t, h) == 1 && CountClosed(t, h) == 0
      && Occurrences(t, Slept(RetryDelaySeconds)) == 0 && Occurrences(t, Opened) == 1
  {
    var t := AttemptEvents(Opens);
    assert multiset(t) == multiset{Built(Bastion), Built(HeadNode), Opened};
    MultisetCounts(t, h);
  }

  /** The run and the teardown close each hop once. */
  lemma RunAndTeardown(h: Hop)
    ensures var t := [Ran] + TeardownEvents();
      && CountBuilt(t, h) == 0 && CountClosed(t, h) == 1
      && Occurrences(t, Slept(RetryDelaySeconds)) == 0 && Occurrences(t, Opened) == 0
  {
    var t := [Ran] + TeardownEvents();
    assert multiset(t) == multiset{Ran, Closed(HeadNode), Closed(Bastion)};
    MultisetCounts(t, h);
  }

  /** The connecting attempt, the run and the teardown build and close each hop once. */
  lemma ConnectedTailBalanced(h: Hop)
    ensures var t := AttemptEvents(Opens) + [Ran] + TeardownEvents();
      && CountBuilt(t, h) == 1 && CountClosed(t, h) == 1
      && Occurrences(t, Slept(RetryDelaySeconds)) == 0 && Occurrences(t, Opened) == 1
  {
    var a, b := AttemptEvents(Opens), [Ran] + TeardownEvents();
    OpeningAttempt(h);
    RunAndTeardown(h);
    assert a + [Ran] + TeardownEvents() == a + b;
    AppendCounts(a, b, h);
  }

  lemma ConnectedSessionBalanced(transport: nat -> Attempt, k: nat, h: Hop)
    requires k < Retries && forall j :: 0 <= j < k ==> transport(j) != Opens
    requires transport(k) == Opens
    ensures var t := EventsUpTo(transport, k + 1) + [Ran] + TeardownEvents();
      && CountBuilt(t, h) == CountClosed(t, h)
      && Occurrences(t, Slept(RetryDelaySeconds)) == k
      && Occurrences(t, Opened) == 1
  {
    FailedAttemptsBalanced(transport, k, h);
    ConnectedTailBalanced(h);
    var pre := EventsUpTo(transport, k);
    var tail := AttemptEvents(Opens) + [Ran] + TeardownEvents();
    assert EventsUpTo(transport, k + 1) + [Ran] + TeardownEvents() == pre + tail;
    AppendCounts(pre, tail, h);
  }
}
