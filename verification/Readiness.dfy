/** The readiness loop of `ConnectToLiveshare`: start the codespace if it is
    not Available, then re-fetch it until it is Available with a Live Share
    session, giving up after 30 fetches. The remote side is a script: the
    answer to the i-th GetCodespace call (counting from 0). Sleeping and the
    progress dots are cosmetic; the model counts the dots. */
module Readiness {
  import opened Wrappers

  const Available := "Available"
  const MaxFetches: nat := 30

  datatype Codespace = Codespace(name: string, owner: string, state: string, sessionId: string, sessionToken: string)

  /** The loop's exit condition. */
  predicate Ready(c: Codespace)
  {
    c.state == Available && c.sessionId != ""
  }

  /** An answer that keeps the loop going. */
  predicate Pending(answer: Result<Codespace, string>)
  {
    answer.Ok? && !Ready(answer.value)
  }

  datatype ConnectError = StartFailed(cause: string) | FetchFailed(cause: string) | TimedOut

  function Message(e: ConnectError): string
  {
    match e
    case StartFailed(cause) => "error starting codespace: " + cause
    case FetchFailed(cause) => "error getting codespace: " + cause
    case TimedOut => "timed out while waiting for the codespace to start"
  }

  /** Progress dots printed by the loop passes numbered 0 .. passes-1: one on
      each even pass number from 2 on. */
  function DotsBefore(passes: nat): nat
  {
    if passes >= 3 then (passes - 1) / 2 else 0
  }

  /** How the loop left: the result, the number of GetCodespace calls made,
      the number of loop passes run, and the dots printed. */
  datatype Loop = Loop(result: Result<Codespace, ConnectError>, fetches: nat, passes: nat, dots: nat)

  /** What the loop from pass `retries` on promises: it returns only a ready
      codespace, the one it held or the last one fetched; a fetch error is the
      last fetch's; a timeout comes after the last allowed fetch and one more
      pass; every pass but a timeout's fetches once; and the dots are those of
      the passes run. */
  ghost predicate PollPost(p: Loop, c: Codespace, remote: nat -> Result<Codespace, string>, retries: nat)
  {
    && retries <= p.fetches <= MaxFetches
    && (p.result.Ok? ==> Ready(p.result.value))
    && (p.result.Ok? && p.fetches == retries ==> p.result.value == c)
    && (p.result.Ok? && p.fetches > retries ==> remote(p.fetches - 1) == Ok(p.result.value))
    && (Ready(c) ==> p == Loop(Ok(c), retries, retries, 0))
    && (p.result.Err? ==> !p.result.error.StartFailed?)
    && (p.result.Err? && p.result.error.FetchFailed? ==>
          p.fetches > retries && remote(p.fetches - 1) == Err(p.result.error.cause))
    && (p.result == Err(TimedOut) ==> p.fetches == MaxFetches && p.passes == MaxFetches + 1)
    && (p.result != Err(TimedOut) ==> p.passes == p.fetches)
    && p.dots == DotsBefore(p.passes) - DotsBefore(retries)
  }

  /** The loop from pass number `retries` on, holding codespace `c`. */
  function Poll(c: Codespace, remote: nat -> Result<Codespace, string>, retries: nat): (p: Loop)
    requires retries <= MaxFetches
    ensures PollPost(p, c, remote, retries)
    decreases MaxFetches - retries
  {
    if Ready(c) then Loop(Ok(c), retries, retries, 0)
    else
      var dot := if retries > 1 && retries % 2 == 0 then 1 else 0;
      DotsStep(retries);
      if retries == MaxFetches then Loop(Err(TimedOut), retries, retries + 1, dot)
      else
        match remote(retries)
        case Err(e) => Loop(Err(FetchFailed(e)), retries + 1, retries + 1, dot)
        case Ok(next) =>
          var rest := Poll(next, remote, retries + 1);
          Loop(rest.result, rest.fetches, rest.passes, rest.dots + dot)
  }

  /** Every answer the loop fetched before its last was "still starting". */
  lemma {:induction false} PollPending(c: Codespace, remote: nat -> Result<Codespace, string>, retries: nat)
    requires retries <= MaxFetches
    ensures var p := Poll(c, remote, retries);
      forall i :: retries <= i < p.fetches - 1 ==> Pending(remote(i))
    decreases MaxFetches - retries
  {
    var p := Poll(c, remote, retries);
    if !Ready(c) && retries < MaxFetches && remote(retries).Ok? {
      var next := remote(retries).value;
      var q := Poll(next, remote, retries + 1);
      PollPending(next, remote, retries + 1);
      assert p.fetches == q.fetches;
      forall i | retries <= i < p.fetches - 1
        ensures Pending(remote(i))
      {
        if i == retries {
          assert !Ready(next);
        }
      }
    } else {
      assert p.fetches <= retries + 1;
    }
  }

  /** The loop times out exactly when every answer left is "still starting". */
  lemma PollTimeout(c: Codespace, remote: nat -> Result<Codespace, string>, retries: nat)
    requires retries <= MaxFetches
    ensures Poll(c, remote, retries).result == Err(TimedOut) <==>
      !Ready(c) && forall i :: retries <= i < MaxFetches ==> Pending(remote(i))
  {
    if Poll(c, remote, retries).result == Err(TimedOut) {
      TimeoutOnlyIfPending(c, remote, retries);
    }
    if !Ready(c) && forall i :: retries <= i < MaxFetches ==> Pending(remote(i)) {
      PendingTimesOut(c, remote, retries);
    }
  }

  lemma {:induction false} TimeoutOnlyIfPending(c: Codespace, remote: nat -> Result<Codespace, string>, retries: nat)
    requires retries <= MaxFetches
    requires Poll(c, remote, retries).result == Err(TimedOut)
    ensures !Ready(c) && forall i :: retries <= i < MaxFetches ==> Pending(remote(i))
    decreases MaxFetches - retries
  {
    var p := Poll(c, remote, retries);
    assert !Ready(c);
    if retries < MaxFetches {
      assert remote(retries).Ok?;
      var next := remote(retries).value;
      assert Poll(next, remote, retries + 1).result == p.result;
      TimeoutOnlyIfPending(next, remote, retries + 1);
      forall i | retries <= i < MaxFetches
        ensures Pending(remote(i))
      {
        if i == retries {
          assert remote(i) == Ok(next) && !Ready(next);
        } else {
          assert retries + 1 <= i < MaxFetches;
        }
      }
    }
  }

  lemma {:induction false} PendingTimesOut(c: Codespace, remote: nat -> Result<Codespace, string>, retries: nat)
    requires retries <= MaxFetches
    requires !Ready(c) && forall i :: retries <= i < MaxFetches ==> Pending(remote(i))
    ensures Poll(c, remote, retries).result == Err(TimedOut)
    decreases MaxFetches - retries
  {
    if retries < MaxFetches {
      assert Pending(remote(retries));
      PendingTimesOut(remote(retries).value, remote, retries + 1);
    }
  }

  lemma DotsStep(r: nat)
    ensures DotsBefore(r + 1) == DotsBefore(r) + (if r > 1 && r % 2 == 0 then 1 else 0)
  {
  }

  /** The whole start-and-wait: what happened, whether StartCodespace was
      called, and what the loop printed. */
  datatype Attempt = Attempt(result: Result<Codespace, ConnectError>, started: bool, fetches: nat, dots: nat, newline: bool)

  /** ConnectToLiveshare up to the Live Share hand-off. `start` is the error
      StartCodespace would report, if any. */
  function Connect(c: Codespace, start: Option<string>, remote: nat -> Result<Codespace, string>): (a: Attempt)
    ensures a.started <==> c.state != Available
    ensures a.fetches <= MaxFetches
    ensures a.result.Ok? ==> Ready(a.result.value)
    ensures a.started && start.Some? ==> a == Attempt(Err(StartFailed(start.value)), true, 0, 0, false)
    ensures Ready(c) ==> a == Attempt(Ok(c), false, 0, 0, false)
    ensures a.result.Err? && a.result.error.FetchFailed? ==>
      a.fetches > 0 && remote(a.fetches - 1) == Err(a.result.error.cause)
    ensures forall i :: 0 <= i < a.fetches - 1 ==> Pending(remote(i))
    ensures a.newline <==> a.result.Ok? && a.fetches >= 2
  {
    if c.state != Available && start.Some? then
      Attempt(Err(StartFailed(start.value)), true, 0, 0, false)
    else
      var p := Poll(c, remote, 0);
      PollPending(c, remote, 0);
      PollTimeout(c, remote, 0);
      Attempt(p.result, c.state != Available, p.fetches, p.dots, p.result.Ok? && p.fetches >= 2)
  }

  /** Convergence: when the n-th answer is the first ready one and n <= 30,
      the codespace is returned after exactly n fetches. */
  lemma {:induction false} ReadyAfter(c: Codespace, start: Option<string>, remote: nat -> Result<Codespace, string>, n: nat)
    requires !Ready(c) && (c.state != Available ==> start.None?)
    requires 1 <= n <= MaxFetches
    requires forall i :: 0 <= i < n - 1 ==> Pending(remote(i))
    requires remote(n - 1).Ok? && Ready(remote(n - 1).value)
    ensures Connect(c, start, remote).result == Ok(remote(n - 1).value)
    ensures Connect(c, start, remote).fetches == n
  {
    PollReadyAfter(c, remote, 0, n);
  }

  lemma {:induction false} PollReadyAfter(c: Codespace, remote: nat -> Result<Codespace, string>, retries: nat, n: nat)
    requires !Ready(c)
    requires retries < n <= MaxFetches
    requires forall i :: retries <= i < n - 1 ==> Pending(remote(i))
    requires remote(n - 1).Ok? && Ready(remote(n - 1).value)
    ensures Poll(c, remote, retries) == Loop(Ok(remote(n - 1).value), n, n, DotsBefore(n) - DotsBefore(retries))
    decreases n - retries
  {
    if retries < n - 1 {
      PollReadyAfter(remote(retries).value, remote, retries + 1, n);
    }
  }

  /** Timeout: with answers that never become ready, exactly 30 fetches are
      made and the timeout error is returned, with 15 dots printed. */
  lemma NeverReadyTimesOut(c: Codespace, start: Option<string>, remote: nat -> Result<Codespace, string>)
    requires !Ready(c) && (c.state != Available ==> start.None?)
    requires forall i :: 0 <= i < MaxFetches ==> Pending(remote(i))
    ensures Connect(c, start, remote) == Attempt(Err(TimedOut), c.state != Available, MaxFetches, 15, false)
  {
    PendingTimesOut(c, remote, 0);
    assert DotsBefore(MaxFetches + 1) == 15;
  }

  /** The timeout error happens only if every one of the 30 answers was
      "still starting". */
  lemma TimeoutMeansThirtyPending(c: Codespace, start: Option<string>, remote: nat -> Result<Codespace, string>)
    requires Connect(c, start, remote).result == Err(TimedOut)
    ensures forall i :: 0 <= i < MaxFetches ==> Pending(remote(i))
    ensures Connect(c, start, remote).fetches == MaxFetches
  {
    PollTimeout(c, remote, 0);
  }
}
