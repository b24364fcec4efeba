/** The post-create status narration of `ghcs create --status`: the poller
    closure of `showStatus`, folded over the successive snapshots of the
    codespace's post-create lifecycle states.

    Each snapshot is the server's full ordered list of states, not a delta.
    The reducer's memory is the set of finished state names, the name of the
    state it is currently narrating (the empty name when none) and the
    "stop on the next quiet tick" flag. */
module StatusReducer {

  datatype Status = Running | Succeeded | Failed

  /** The status word written to the log. */
  function Word(s: Status): string
  {
    match s
    case Running => "running"
    case Succeeded => "succeeded"
    case Failed => "failed"
  }

  datatype State = State(name: string, status: Status)

  /** One write to the narration log. An `Outcome` also records which state
      it closes; only its status word is written. */
  datatype Emit =
    | Announce(name: string)                          // the bare name
    | Continuing                                      // "..." after a running name
    | Tick                                            // "." while still running
    | Outcome(name: string, status: Status, dots: bool)
      // "..." + status (dots) or the status alone, then a line end

  function Text(e: Emit): string
  {
    match e
    case Announce(n) => n
    case Continuing => "..."
    case Tick => "."
    case Outcome(_, st, dots) => (if dots then "..." else "") + Word(st) + "\n"
  }

  /** The log text produced by a sequence of writes. */
  function Render(es: seq<Emit>): string
  {
    if |es| == 0 then "" else Text(es[0]) + Render(es[1..])
  }

  /** The names whose terminal status was written, in order. */
  function OutcomeNames(es: seq<Emit>): (ns: seq<string>)
    ensures forall n :: n in ns <==> exists e :: e in es && e.Outcome? && e.name == n
  {
    if |es| == 0 then []
    else
      assert forall e :: e in es <==> e == es[0] || e in es[1..];
      (if es[0].Outcome? then [es[0].name] else []) + OutcomeNames(es[1..])
  }

  /** How many progress marks ("..." or ".") a sequence of writes holds. */
  function ProgressMarks(es: seq<Emit>): nat
  {
    if |es| == 0 then 0
    else (if es[0] == Continuing || es[0] == Tick then 1 else 0) + ProgressMarks(es[1..])
  }

  predicate Distinct(ns: seq<string>)
  {
    forall i, j :: 0 <= i < j < |ns| ==> ns[i] != ns[j]
  }

  /** No name is announced after its terminal status was written. */
  predicate NoAnnounceAfterOutcome(es: seq<Emit>)
  {
    forall i, j :: 0 <= i < j < |es| && es[i].Outcome? && es[j].Announce? ==> es[i].name != es[j].name
  }

  /** Names that count as finished when the scan reaches position `i`: those
      finished before the snapshot plus every terminal state ahead of `i`. */
  ghost function FinishedBefore(finished: set<string>, states: seq<State>, i: nat): set<string>
    requires i <= |states|
  {
    finished + set j | 0 <= j < i && states[j].status != Running :: states[j].name
  }

  /** A snapshot is quiet when every running state in it already counts as
      finished where it appears, so nothing is in progress. */
  ghost predicate Quiet(finished: set<string>, states: seq<State>)
  {
    forall i :: 0 <= i < |states| && states[i].status == Running ==>
      states[i].name in FinishedBefore(finished, states, i)
  }

  /** The effect of one pass of the loop over a snapshot. */
  datatype Scan = Scan(finished: set<string>, lastName: string, out: seq<Emit>, inProgress: bool)

  /** What a pass over a snapshot guarantees, from its `finishedStates` and
      `lastState.Name`: the finished set grows by exactly the names whose
      status it writes, each once and none finished before; it announces no
      finished name and no name after its status; a pass in progress ends on
      its single progress mark, a pass that is not writes none; and the
      tracked state is never a finished one. */
  ghost predicate Summarizes(finished: set<string>, lastName: string, r: Scan)
  {
    NamesSummary(finished, r) && MarksSummary(finished, lastName, r)
  }

  /** The per-name guarantees: which names a pass finishes and writes. */
  ghost predicate NamesSummary(finished: set<string>, r: Scan)
  {
    && finished <= r.finished
    && (forall n :: n in r.finished <==> n in finished || n in OutcomeNames(r.out))
    && (forall n :: n in OutcomeNames(r.out) ==> n !in finished)
    && Distinct(OutcomeNames(r.out))
    && (forall e :: e in r.out && e.Announce? ==> e.name !in finished)
    && NoAnnounceAfterOutcome(r.out)
  }

  /** The progress marks of a pass and the state it leaves tracked. */
  ghost predicate MarksSummary(finished: set<string>, lastName: string, r: Scan)
  {
    && (r.inProgress ==> ProgressMarks(r.out) == 1 && r.out[|r.out| - 1] in {Continuing, Tick})
    && (!r.inProgress ==> ProgressMarks(r.out) == 0)
    && (r.inProgress ==> r.lastName !in r.finished)
    && ((lastName != "" ==> lastName !in finished) ==> (r.lastName != "" ==> r.lastName !in r.finished))
  }

  /** The loop of the poller over one snapshot, from its `finishedStates`
      and `lastState.Name`. */
  function ScanStates(finished: set<string>, lastName: string, states: seq<State>): Scan
    decreases |states|
  {
    if |states| == 0 then Scan(finished, lastName, [], false)
    else
      var s := states[0];
      if s.name in finished then
        ScanStates(finished, lastName, states[1..])
      else if s.name != lastName then
        if s.status == Running then
          Scan(finished, s.name, [Announce(s.name), Continuing], true)
        else
          var rest := ScanStates(finished + {s.name}, lastName, states[1..]);
          Scan(rest.finished, rest.lastName, [Announce(s.name), Outcome(s.name, s.status, true)] + rest.out, rest.inProgress)
      else
        if s.status == Running then
          Scan(finished, lastName, [Tick], true)
        else
          var rest := ScanStates(finished + {s.name}, "", states[1..]);
          Scan(rest.finished, rest.lastName, [Outcome(s.name, s.status, false)] + rest.out, rest.inProgress)
  }

  /** Every pass over a snapshot keeps the guarantees of Summarizes. */
  lemma {:induction false} ScanSummary(finished: set<string>, lastName: string, states: seq<State>)
    ensures Summarizes(finished, lastName, ScanStates(finished, lastName, states))
    decreases |states|
  {
    if |states| > 0 {
      var s := states[0];
      if s.name in finished {
        ScanSummary(finished, lastName, states[1..]);
      } else if s.name != lastName {
        if s.status == Running {
          var out := [Announce(s.name), Continuing];
          assert out[1..] == [Continuing] && out[1..][1..] == [];
          assert OutcomeNames(out[1..]) == [];
          assert ProgressMarks(out[1..][1..]) == 0;
          assert ProgressMarks(out[1..]) == 1;
        } else {
          ScanSummary(finished + {s.name}, lastName, states[1..]);
          NewTerminalStep(finished, lastName, s, ScanStates(finished + {s.name}, lastName, states[1..]));
        }
      } else {
        if s.status == Running {
          assert OutcomeNames([Tick][1..]) == [];
        } else {
          ScanSummary(finished + {s.name}, "", states[1..]);
          TrackedTerminalStep(finished, lastName, s, ScanStates(finished + {s.name}, "", states[1..]));
        }
      }
    }
  }

  /** Helper for ScanStates: a state seen for the first time with a terminal
      status, followed by the pass over the rest. */
  lemma NewTerminalStep(finished: set<string>, lastName: string, s: State, rest: Scan)
    requires s.name !in finished && s.status != Running && s.name != lastName
    requires Summarizes(finished + {s.name}, lastName, rest)
    ensures Summarizes(finished, lastName,
      Scan(rest.finished, rest.lastName, [Announce(s.name), Outcome(s.name, s.status, true)] + rest.out, rest.inProgress))
  {
    NewTerminalNames(finished, s, rest);
    NewTerminalMarks(finished, lastName, s, rest);
  }

  lemma NewTerminalNames(finished: set<string>, s: State, rest: Scan)
    requires s.name !in finished && s.status != Running
    requires NamesSummary(finished + {s.name}, rest)
    ensures NamesSummary(finished,
      Scan(rest.finished, rest.lastName, [Announce(s.name), Outcome(s.name, s.status, true)] + rest.out, rest.inProgress))
  {
    PrefixFacts(Announce(s.name), Outcome(s.name, s.status, true), rest.out, s.name);
  }

  lemma NewTerminalMarks(finished: set<string>, lastName: string, s: State, rest: Scan)
    requires s.name != lastName
    requires MarksSummary(finished + {s.name}, lastName, rest)
    ensures MarksSummary(finished, lastName,
      Scan(rest.finished, rest.lastName, [Announce(s.name), Outcome(s.name, s.status, true)] + rest.out, rest.inProgress))
  {
    var out := [Announce(s.name), Outcome(s.name, s.status, true)] + rest.out;
    assert out[1..] == [Outcome(s.name, s.status, true)] + rest.out;
    assert out[1..][1..] == rest.out;
    if rest.inProgress {
      assert |rest.out| > 0;
      assert out[|out| - 1] == rest.out[|rest.out| - 1];
    }
  }

  /** Helper for ScanStates: the tracked state turning terminal, followed by
      the pass over the rest. */
  lemma TrackedTerminalStep(finished: set<string>, lastName: string, s: State, rest: Scan)
    requires s.name !in finished && s.status != Running && s.name == lastName
    requires Summarizes(finished + {s.name}, "", rest)
    ensures Summarizes(finished, lastName,
      Scan(rest.finished, rest.lastName, [Outcome(s.name, s.status, false)] + rest.out, rest.inProgress))
  {
    var out := [Outcome(s.name, s.status, false)] + rest.out;
    PrefixFacts(Tick, Outcome(s.name, s.status, false), rest.out, s.name);
    assert out == ([Tick] + out)[1..];
  }

  /** Helper for ScanStates: what prefixing the writes of one finished state
      does to the names and progress marks of the rest of the scan. */
  lemma PrefixFacts(a: Emit, o: Emit, rest: seq<Emit>, n: string)
    requires o.Outcome? && o.name == n && !a.Outcome? && a != Continuing
    requires a.Announce? ==> a.name == n
    requires n !in OutcomeNames(rest)
    requires Distinct(OutcomeNames(rest))
    requires forall e :: e in rest && e.Announce? ==> e.name != n
    requires NoAnnounceAfterOutcome(rest)
    ensures OutcomeNames([a, o] + rest) == [n] + OutcomeNames(rest)
    ensures OutcomeNames([o] + rest) == [n] + OutcomeNames(rest)
    ensures ProgressMarks([o] + rest) == ProgressMarks(rest)
    ensures a.Announce? ==> ProgressMarks([a, o] + rest) == ProgressMarks(rest)
    ensures Distinct([n] + OutcomeNames(rest))
    ensures a.Announce? ==> NoAnnounceAfterOutcome([a, o] + rest)
    ensures NoAnnounceAfterOutcome([o] + rest)
  {
    assert ([a, o] + rest)[1..] == [o] + rest;
    assert ([o] + rest)[1..] == rest;
    DistinctCons(n, OutcomeNames(rest));
    PrefixOrder(a, o, rest, n);
  }

  lemma DistinctCons(n: string, ns: seq<string>)
    requires n !in ns && Distinct(ns)
    ensures Distinct([n] + ns)
  {
    var t := [n] + ns;
    forall i, j | 0 <= i < j < |t|
      ensures t[i] != t[j]
    {
      assert t[j] == ns[j - 1];
      if i > 0 {
        assert t[i] == ns[i - 1];
      }
    }
  }

  /** Helper for PrefixFacts: the order of announcements and outcomes. */
  lemma PrefixOrder(a: Emit, o: Emit, rest: seq<Emit>, n: string)
    requires o.Outcome? && o.name == n
    requires a.Announce? ==> a.name == n
    requires forall e :: e in rest && e.Announce? ==> e.name != n
    requires NoAnnounceAfterOutcome(rest)
    ensures a.Announce? ==> NoAnnounceAfterOutcome([a, o] + rest)
    ensures NoAnnounceAfterOutcome([o] + rest)
  {
    var t := [o] + rest;
    forall i, j | 0 <= i < j < |t| && t[i].Outcome? && t[j].Announce?
      ensures t[i].name != t[j].name
    {
      if i == 0 {
        assert t[j] in rest;
      } else {
        assert t[i] == rest[i - 1] && t[j] == rest[j - 1];
      }
    }
    if a.Announce? {
      var u := [a, o] + rest;
      forall i, j | 0 <= i < j < |u| && u[i].Outcome? && u[j].Announce?
        ensures u[i].name != u[j].name
      {
        assert u[i] == t[i - 1] && u[j] == t[j - 1];
      }
    }
  }

  /** A scan stops exactly when the snapshot is not quiet; a scan that runs
      to the end has marked every terminal state of the snapshot finished. */
  lemma {:induction false} ScanQuiet(finished: set<string>, lastName: string, states: seq<State>)
    ensures ScanStates(finished, lastName, states).inProgress <==> !Quiet(finished, states)
    ensures !ScanStates(finished, lastName, states).inProgress ==>
      ScanStates(finished, lastName, states).finished == FinishedBefore(finished, states, |states|)
    decreases |states|
  {
    if |states| > 0 {
      var s := states[0];
      var rest := states[1..];
      var f' := if s.status != Running then finished + {s.name} else finished;
      QuietUnfold(finished, states);
      if s.name in finished {
        assert f' == finished;
        ScanQuiet(finished, lastName, rest);
      } else if s.status != Running {
        var l' := if s.name != lastName then lastName else "";
        ScanQuiet(f', l', rest);
      }
    } else {
      assert FinishedBefore(finished, states, 0) == finished;
    }
  }

  /** Quiet and FinishedBefore seen one state at a time. */
  lemma QuietUnfold(finished: set<string>, states: seq<State>)
    requires |states| > 0
    ensures var s := states[0];
      var f' := if s.status != Running then finished + {s.name} else finished;
      && (Quiet(finished, states) <==> (s.status == Running ==> s.name in finished) && Quiet(f', states[1..]))
      && FinishedBefore(finished, states, |states|) == FinishedBefore(f', states[1..], |states| - 1)
  {
    var s := states[0];
    var rest := states[1..];
    var f' := if s.status != Running then finished + {s.name} else finished;
    forall i | 0 <= i < |rest|
      ensures FinishedBefore(finished, states, i + 1) == FinishedBefore(f', rest, i)
    {
      Shift(finished, states, i);
    }
    Shift(finished, states, |rest|);
    if Quiet(finished, states) {
      forall i | 0 <= i < |rest| && rest[i].status == Running
        ensures rest[i].name in FinishedBefore(f', rest, i)
      {
        assert states[i + 1] == rest[i];
      }
      assert s.status == Running ==> s.name in FinishedBefore(finished, states, 0);
    }
    if (s.status == Running ==> s.name in finished) && Quiet(f', rest) {
      forall i | 0 <= i < |states| && states[i].status == Running
        ensures states[i].name in FinishedBefore(finished, states, i)
      {
        if i > 0 {
          assert states[i] == rest[i - 1];
        }
      }
    }
  }

  lemma Shift(finished: set<string>, states: seq<State>, i: nat)
    requires i < |states|
    ensures var s := states[0];
      var f' := if s.status != Running then finished + {s.name} else finished;
      FinishedBefore(finished, states, i + 1) == FinishedBefore(f', states[1..], i)
  {
    var s := states[0];
    var rest := states[1..];
    var f' := if s.status != Running then finished + {s.name} else finished;
    var A := set j | 0 <= j < i + 1 && states[j].status != Running :: states[j].name;
    var B := set j | 0 <= j < i && rest[j].status != Running :: rest[j].name;
    forall n | n in A
      ensures n in f' + B
    {
      var j :| 0 <= j < i + 1 && states[j].status != Running && states[j].name == n;
      if j > 0 {
        assert rest[j - 1] == states[j];
      }
    }
    forall n | n in B
      ensures n in A
    {
      var j :| 0 <= j < i && rest[j].status != Running && rest[j].name == n;
      assert states[j + 1] == rest[j];
    }
  }

  /** Once a running state stops the scan, the states after it play no part:
      appending more states to the snapshot changes nothing that tick. */
  lemma {:induction false} ScanIgnoresTail(finished: set<string>, lastName: string, a: seq<State>, b: seq<State>)
    requires ScanStates(finished, lastName, a).inProgress
    ensures ScanStates(finished, lastName, a + b) == ScanStates(finished, lastName, a)
    decreases |a|
  {
    assert |a| > 0;
    assert (a + b)[0] == a[0];
    assert (a + b)[1..] == a[1..] + b;
    var s := a[0];
    if s.name in finished {
      ScanIgnoresTail(finished, lastName, a[1..], b);
    } else if s.status != Running {
      var l' := if s.name != lastName then lastName else "";
      ScanIgnoresTail(finished + {s.name}, l', a[1..], b);
    }
  }

  /** Position of the first running state that is not finished by the time
      the scan reaches it, or -1 when there is none. */
  function FirstLive(finished: set<string>, states: seq<State>): (k: int)
    ensures -1 <= k < |states|
    ensures k >= 0 ==> states[k].status == Running
    decreases |states|
  {
    if |states| == 0 then -1
    else
      var s := states[0];
      if s.status == Running && s.name !in finished then 0
      else
        var f' := if s.status != Running then finished + {s.name} else finished;
        var k := FirstLive(f', states[1..]);
        if k < 0 then -1 else k + 1
  }

  /** A scan stops exactly when there is a live running state. */
  lemma {:induction false} ScanStopsIffLive(finished: set<string>, lastName: string, states: seq<State>)
    ensures ScanStates(finished, lastName, states).inProgress <==> FirstLive(finished, states) >= 0
    decreases |states|
  {
    if |states| > 0 {
      var s := states[0];
      if !(s.name !in finished && s.status == Running) {
        var f' := if s.status != Running then finished + {s.name} else finished;
        var l' := if s.name in finished then lastName else if s.name != lastName then lastName else "";
        if s.name in finished && s.status != Running {
          assert f' == finished;
        }
        ScanStopsIffLive(f', l', states[1..]);
      }
    }
  }

  /** A scan that stops, stops at the first live running state: that state
      becomes the tracked one, and the result is that of the snapshot cut
      just after it. */
  lemma {:induction false} ScanHaltsAtFirstLive(finished: set<string>, lastName: string, states: seq<State>)
    requires FirstLive(finished, states) >= 0
    ensures ScanStates(finished, lastName, states).lastName == states[FirstLive(finished, states)].name
    ensures ScanStates(finished, lastName, states)
      == ScanStates(finished, lastName, states[..FirstLive(finished, states) + 1])
    decreases |states|
  {
    var s := states[0];
    if s.name !in finished && s.status == Running {
      assert states[..1][0] == s;
      return;
    }
    var f' := if s.status != Running then finished + {s.name} else finished;
    var l' := if s.name in finished then lastName else if s.name != lastName then lastName else "";
    if s.name in finished && s.status != Running {
      assert f' == finished;
    }
    ScanHaltsAtFirstLive(f', l', states[1..]);
    ScanCutStep(finished, lastName, states, FirstLive(f', states[1..]) + 1);
  }

  /** Helper for ScanHaltsAtFirstLive: when the first state does not stop the
      scan, scanning the snapshot or a cut of it reduces to the same
      scan of the remainder. */
  lemma ScanCutStep(finished: set<string>, lastName: string, states: seq<State>, k: nat)
    requires 0 < k < |states|
    requires states[0].name in finished || states[0].status != Running
    ensures var s := states[0];
      var f' := if s.status != Running then finished + {s.name} else finished;
      var l' := if s.name in finished then lastName else if s.name != lastName then lastName else "";
      && (ScanStates(f', l', states[1..]) == ScanStates(f', l', states[1..][..k]) ==>
          ScanStates(finished, lastName, states) == ScanStates(finished, lastName, states[..k + 1]))
      && ScanStates(finished, lastName, states).lastName == ScanStates(f', l', states[1..]).lastName
  {
    var s := states[0];
    var cut := states[..k + 1];
    assert cut[0] == s && cut[1..] == states[1..][..k];
    if s.name in finished && s.status != Running {
      assert finished + {s.name} == finished;
    }
  }

  /** The states of a snapshot whose names are in `gone`. */
  function Without(states: seq<State>, gone: set<string>): (r: seq<State>)
    ensures |r| <= |states|
    ensures forall s :: s in r <==> s in states && s.name !in gone
  {
    if |states| == 0 then []
    else if states[0].name in gone then Without(states[1..], gone)
    else
      assert forall s :: s in states <==> s == states[0] || s in states[1..];
      [states[0]] + Without(states[1..], gone)
  }

  /** States already finished are skipped wherever they appear: the scan of a
      snapshot equals the scan of the snapshot with them removed. */
  lemma {:induction false} ScanSkipsFinished(finished: set<string>, gone: set<string>, lastName: string, states: seq<State>)
    requires gone <= finished
    ensures ScanStates(finished, lastName, states) == ScanStates(finished, lastName, Without(states, gone))
    decreases |states|
  {
    if |states| > 0 {
      var s := states[0];
      if s.name in gone {
        ScanSkipsFinished(finished, gone, lastName, states[1..]);
      } else {
        var w := Without(states, gone);
        assert w == [s] + Without(states[1..], gone);
        assert w[0] == s && w[1..] == Without(states[1..], gone);
        if s.name in finished {
          ScanSkipsFinished(finished, gone, lastName, states[1..]);
        } else if s.status != Running {
          var l' := if s.name != lastName then lastName else "";
          ScanSkipsFinished(finished + {s.name}, gone, l', states[1..]);
        }
      }
    }
  }

  /** The reducer's memory between polls. */
  datatype Reducer = Reducer(finished: set<string>, lastName: string, breakNext: bool)

  /** The memory before the first snapshot: nothing finished, nothing tracked. */
  const Initial := Reducer({}, "", false)

  /** The tracked name, when there is one, is never a finished one. */
  predicate Valid(r: Reducer)
  {
    r.lastName != "" ==> r.lastName !in r.finished
  }

  /** What one call of the poller does: the new memory, the writes, and
      whether it cancelled the polling. */
  datatype Poll = Poll(next: Reducer, out: seq<Emit>, stop: bool)

  /** One call of the poller on a snapshot. */
  function Step(r: Reducer, states: seq<State>): (p: Poll)
    ensures p.stop <==> r.breakNext && Quiet(r.finished, states)
    ensures p.next.breakNext <==> r.breakNext || Quiet(r.finished, states)
    ensures r.finished <= p.next.finished
    ensures forall n :: n in p.next.finished <==> n in r.finished || n in OutcomeNames(p.out)
    ensures forall e :: e in p.out && e.Announce? ==> e.name !in r.finished
    ensures ProgressMarks(p.out) == (if Quiet(r.finished, states) then 0 else 1)
    ensures Valid(r) ==> Valid(p.next)
  {
    var sc := ScanStates(r.finished, r.lastName, states);
    ScanSummary(r.finished, r.lastName, states);
    ScanQuiet(r.finished, r.lastName, states);
    Poll(Reducer(sc.finished, sc.lastName, r.breakNext || !sc.inProgress), sc.out, !sc.inProgress && r.breakNext)
  }

  /** The narration over a run of snapshots: the memory left, all writes, how
      many snapshots the poller saw, and whether it cancelled the polling. */
  datatype Narration = Narration(final: Reducer, out: seq<Emit>, polls: nat, stopped: bool)

  /** The poller called on successive snapshots until it cancels the polling
      (or the snapshots run out). */
  function Run(r: Reducer, snaps: seq<seq<State>>): (n: Narration)
    ensures n.polls <= |snaps|
    ensures !n.stopped ==> n.polls == |snaps|
    ensures n.stopped ==> n.polls >= 1
    ensures r.finished <= n.final.finished
    ensures Distinct(OutcomeNames(n.out))
    ensures forall x :: x in OutcomeNames(n.out) ==> x !in r.finished && x in n.final.finished
    ensures forall e :: e in n.out && e.Announce? ==> e.name !in r.finished
    ensures NoAnnounceAfterOutcome(n.out)
    ensures Valid(r) ==> Valid(n.final)
    decreases |snaps|
  {
    if |snaps| == 0 then Narration(r, [], 0, false)
    else
      var p := Step(r, snaps[0]);
      ScanFacts(r, snaps[0]);
      if p.stop then Narration(p.next, p.out, 1, true)
      else
        var rest := Run(p.next, snaps[1..]);
        ConcatFacts(r.finished, p.next.finished, p.out, rest.out);
        Narration(rest.final, p.out + rest.out, rest.polls + 1, rest.stopped)
  }

  /** Helper for Run: the per-snapshot facts of ScanStates, restated for Step. */
  lemma ScanFacts(r: Reducer, states: seq<State>)
    ensures var p := Step(r, states);
      && Distinct(OutcomeNames(p.out))
      && (forall x :: x in OutcomeNames(p.out) ==> x !in r.finished)
      && NoAnnounceAfterOutcome(p.out)
  {
    ScanSummary(r.finished, r.lastName, states);
  }

  lemma {:induction false} OutcomeNamesConcat(a: seq<Emit>, b: seq<Emit>)
    ensures OutcomeNames(a + b) == OutcomeNames(a) + OutcomeNames(b)
    decreases |a|
  {
    if |a| > 0 {
      assert (a + b)[1..] == a[1..] + b;
      OutcomeNamesConcat(a[1..], b);
    } else {
      assert a + b == b;
    }
  }

  /** Helper for Run: the writes of one poll followed by the writes of the
      later polls keep every per-name guarantee. */
  lemma ConcatFacts(f0: set<string>, f1: set<string>, a: seq<Emit>, b: seq<Emit>)
    requires f0 <= f1
    requires forall n :: n in f1 <==> n in f0 || n in OutcomeNames(a)
    requires Distinct(OutcomeNames(a)) && Distinct(OutcomeNames(b))
    requires forall x :: x in OutcomeNames(a) ==> x !in f0
    requires forall x :: x in OutcomeNames(b) ==> x !in f1
    requires forall e :: e in a && e.Announce? ==> e.name !in f0
    requires forall e :: e in b && e.Announce? ==> e.name !in f1
    requires NoAnnounceAfterOutcome(a) && NoAnnounceAfterOutcome(b)
    ensures Distinct(OutcomeNames(a + b))
    ensures forall x :: x in OutcomeNames(a + b) ==> x !in f0
    ensures forall e :: e in a + b && e.Announce? ==> e.name !in f0
    ensures NoAnnounceAfterOutcome(a + b)
  {
    OutcomeNamesConcat(a, b);
    DistinctConcat(OutcomeNames(a), OutcomeNames(b));
    forall e | e in a + b && e.Announce?
      ensures e.name !in f0
    {
      assert e in a || e in b;
    }
    NoAnnounceAfterOutcomeConcat(a, b);
  }

  /** Two duplicate-free sequences with no common element concatenate into a
      duplicate-free one. */
  lemma DistinctConcat(na: seq<string>, nb: seq<string>)
    requires Distinct(na) && Distinct(nb)
    requires forall x :: x in na ==> x !in nb
    ensures Distinct(na + nb)
  {
    var ns := na + nb;
    forall i, j | 0 <= i < j < |ns|
      ensures ns[i] != ns[j]
    {
      if i < |na| && j >= |na| {
        assert ns[i] in na && ns[j] == nb[j - |na|];
        assert ns[j] in nb;
      } else if j < |na| {
        assert ns[i] == na[i] && ns[j] == na[j];
      } else {
        assert ns[i] == nb[i - |na|] && ns[j] == nb[j - |na|];
      }
    }
  }

  lemma NoAnnounceAfterOutcomeConcat(a: seq<Emit>, b: seq<Emit>)
    requires NoAnnounceAfterOutcome(a) && NoAnnounceAfterOutcome(b)
    requires forall e :: e in b && e.Announce? ==> e.name !in OutcomeNames(a)
    ensures NoAnnounceAfterOutcome(a + b)
  {
    var u := a + b;
    forall i, j | 0 <= i < j < |u| && u[i].Outcome? && u[j].Announce?
      ensures u[i].name != u[j].name
    {
      if i < |a| && j >= |a| {
        assert u[i] in a;
        assert u[i].name in OutcomeNames(a);
        assert u[j] in b;
      } else if j < |a| {
        assert u[i] == a[i] && u[j] == a[j];
      } else {
        assert u[i] == b[i - |a|] && u[j] == b[j - |a|];
      }
    }
  }

  /** Whether each snapshot of a run is quiet, as the reducer sees it, had the
      polling carried on through all of them. */
  ghost function QuietTrace(r: Reducer, snaps: seq<seq<State>>): (t: seq<bool>)
    ensures |t| == |snaps|
    decreases |snaps|
  {
    if |snaps| == 0 then []
    else [Quiet(r.finished, snaps[0])] + QuietTrace(Step(r, snaps[0]).next, snaps[1..])
  }

  function CountTrue(bs: seq<bool>): nat
  {
    if |bs| == 0 then 0 else (if bs[0] then 1 else 0) + CountTrue(bs[1..])
  }

  /** 1 when the flag set by a first quiet snapshot is already up. */
  function Armed(r: Reducer): nat
  {
    if r.breakNext then 1 else 0
  }

  /** The poller cancels the polling on the second quiet snapshot it sees, and
      only then; the two quiet snapshots need not be adjacent, since a busy
      snapshot never clears the flag the first one set. */
  lemma {:induction false} StopsOnSecondQuiet(r: Reducer, snaps: seq<seq<State>>)
    ensures Run(r, snaps).stopped <==> Armed(r) + CountTrue(QuietTrace(r, snaps)) >= 2
    ensures StoppedOnSecond(QuietTrace(r, snaps), Armed(r), Run(r, snaps).stopped, Run(r, snaps).polls)
  {
    StopsIffTwoQuiet(r, snaps);
    StopsAtSecondQuiet(r, snaps);
  }

  lemma {:induction false} StopsIffTwoQuiet(r: Reducer, snaps: seq<seq<State>>)
    ensures Run(r, snaps).stopped <==> Armed(r) + CountTrue(QuietTrace(r, snaps)) >= 2
    decreases |snaps|
  {
    if |snaps| == 0 {
      return;
    }
    var p := Step(r, snaps[0]);
    var q := Quiet(r.finished, snaps[0]);
    var t' := QuietTrace(p.next, snaps[1..]);
    assert QuietTrace(r, snaps) == [q] + t';
    TraceCons(q, t', QuietTrace(r, snaps), 0);
    if p.stop {
      assert Run(r, snaps).stopped;
    } else {
      StopsIffTwoQuiet(p.next, snaps[1..]);
      assert Run(r, snaps).stopped == Run(p.next, snaps[1..]).stopped;
      assert Armed(p.next) == Armed(r) + (if q then 1 else 0);
    }
  }

  /** A run that stopped after `polls` snapshots did so on a quiet one, and that
      was the second quiet snapshot counting the flag `a` already set. */
  ghost predicate StoppedOnSecond(t: seq<bool>, a: nat, stopped: bool, polls: nat)
  {
    stopped ==> 1 <= polls <= |t| && t[polls - 1] && a + CountTrue(t[..polls]) == 2
  }

  lemma {:induction false} StopsAtSecondQuiet(r: Reducer, snaps: seq<seq<State>>)
    ensures StoppedOnSecond(QuietTrace(r, snaps), Armed(r), Run(r, snaps).stopped, Run(r, snaps).polls)
  {
    RunHalts(r, snaps);
    HaltFacts(QuietTrace(r, snaps), r.breakNext, Armed(r), Run(r, snaps).stopped, Run(r, snaps).polls);
  }

  /** HaltAtSecond, restated for given values of the stop point. */
  lemma HaltFacts(t: seq<bool>, armed: bool, a: nat, stopped: bool, polls: nat)
    requires a == (if armed then 1 else 0)
    requires stopped == Halt(armed, t).stopped && polls == Halt(armed, t).polls
    ensures StoppedOnSecond(t, a, stopped, polls)
  {
    if stopped {
      var k := HaltAtSecond(armed, t);
    }
  }

  /** Where the poller stops, read off the quiet trace alone: the number of
      snapshots seen, and whether the last of them cancelled the polling. */
  datatype Stop = Stop(stopped: bool, polls: nat)

  function Halt(armed: bool, t: seq<bool>): (h: Stop)
    ensures h.polls <= |t|
    decreases |t|
  {
    if |t| == 0 then Stop(false, 0)
    else if armed && t[0] then Stop(true, 1)
    else
      var h := Halt(armed || t[0], t[1..]);
      Stop(h.stopped, h.polls + 1)
  }

  lemma {:induction false} RunHalts(r: Reducer, snaps: seq<seq<State>>)
    ensures Run(r, snaps).stopped == Halt(r.breakNext, QuietTrace(r, snaps)).stopped
    ensures Run(r, snaps).polls == Halt(r.breakNext, QuietTrace(r, snaps)).polls
    decreases |snaps|
  {
    if |snaps| > 0 {
      var p := Step(r, snaps[0]);
      var q := Quiet(r.finished, snaps[0]);
      var t' := QuietTrace(p.next, snaps[1..]);
      var t := QuietTrace(r, snaps);
      assert t == [q] + t';
      assert t[0] == q && t[1..] == t';
      if !p.stop {
        RunHalts(p.next, snaps[1..]);
      }
    }
  }

  lemma {:induction false} HaltAtSecond(armed: bool, t: seq<bool>) returns (k: nat)
    requires Halt(armed, t).stopped
    ensures k == Halt(armed, t).polls && 1 <= k <= |t| && t[k - 1]
    ensures (if armed then 1 else 0) + CountTrue(t[..k]) == 2
    decreases |t|
  {
    k := Halt(armed, t).polls;
    if armed && t[0] {
      assert t[..1] == [t[0]];
      assert CountTrue([t[0]]) == 1;
    } else {
      var k' := HaltAtSecond(armed || t[0], t[1..]);
      assert t[..k][1..] == t[1..][..k'];
    }
  }

  /** Counting over a trace with one more snapshot in front. */
  lemma TraceCons(q: bool, t': seq<bool>, t: seq<bool>, k: nat)
    requires t == [q] + t' && k <= |t'|
    ensures CountTrue(t) == (if q then 1 else 0) + CountTrue(t')
    ensures CountTrue(t[..k + 1]) == (if q then 1 else 0) + CountTrue(t'[..k])
    ensures k == 0 ==> t[k] == q && CountTrue(t'[..k]) == 0
    ensures k > 0 ==> t[k] == t'[k - 1]
  {
    assert t[1..] == t';
    assert t[..k + 1][1..] == t'[..k];
  }

  /** Scenario: a state seen running and then succeeded is
      announced once and closed once. */
  lemma RunningThenSucceeded()
    ensures var n := Run(Initial, [[State("A", Running)], [State("A", Succeeded)]]);
      && n.out == [Announce("A"), Continuing, Outcome("A", Succeeded, false)]
      && Render(n.out) == "A...succeeded\n"
      && !n.stopped
  {
    var first, second := [State("A", Running)], [State("A", Succeeded)];
    FirstPollRunning();
    SecondPollSucceeded();
    var p1 := Step(Initial, first);
    var p2 := Step(p1.next, second);
    assert Run(p2.next, []) == Narration(p2.next, [], 0, false);
    assert Run(p1.next, [second]) == Narration(p2.next, p2.out, 1, false);
    var out := [Announce("A"), Continuing, Outcome("A", Succeeded, false)];
    assert Run(Initial, [first, second]) == Narration(p2.next, out, 2, false);
    RenderScenario();
  }

  lemma FirstPollRunning()
    ensures Step(Initial, [State("A", Running)])
      == Poll(Reducer({}, "A", false), [Announce("A"), Continuing], false)
  {
    assert ScanStates({}, "", [State("A", Running)]) == Scan({}, "A", [Announce("A"), Continuing], true);
  }

  lemma SecondPollSucceeded()
    ensures Step(Reducer({}, "A", false), [State("A", Succeeded)])
      == Poll(Reducer({"A"}, "", true), [Outcome("A", Succeeded, false)], false)
  {
    var second := [State("A", Succeeded)];
    assert ScanStates({"A"}, "", second[1..]) == Scan({"A"}, "", [], false);
    assert ScanStates({}, "A", second) == Scan({"A"}, "", [Outcome("A", Succeeded, false)], false);
  }

  lemma RenderScenario()
    ensures Render([Announce("A"), Continuing, Outcome("A", Succeeded, false)]) == "A...succeeded\n"
  {
    var out := [Announce("A"), Continuing, Outcome("A", Succeeded, false)];
    assert Render(out[3..]) == [];
    assert Text(out[2]) == "succeeded\n";
    assert Render(out[2..]) == Text(out[2]) + Render(out[3..]);
    assert Render(out[1..]) == "..." + Render(out[2..]);
    assert Render(out) == "A" + Render(out[1..]);
  }

  /** The first running state halts the scan; the state after it is not
      looked at that tick. */
  lemma ScanHaltsAtRunning()
    ensures Step(Initial, [State("A", Succeeded), State("B", Running), State("C", Running)]).out
      == [Announce("A"), Outcome("A", Succeeded, true), Announce("B"), Continuing]
  {
  }

  /** Two quiet snapshots separated by a busy one still end the polling. */
  lemma QuietTicksNeedNotBeAdjacent()
    ensures var n := Run(Initial, [[], [State("A", Running)], [State("A", Succeeded)], []]);
      n.stopped && n.polls == 3
  {
  }

  /** A finished state seen again produces no writes. */
  lemma FinishedStateIsSilent()
    ensures Run(Initial, [[State("A", Failed)], [State("A", Failed)]]).out
      == [Announce("A"), Outcome("A", Failed, true)]
  {
  }
}
