/**
 One slot row and the processes that act on it, interleaved step by step.

 A claim is one conditional UPDATE. Cancelling, preparing a broadcast and executing a broadcast
 each load the row and later write a status decided by the value loaded, without looking again.
 */
module SlotProtocol {
  import opened Wrappers

  datatype Status = OPEN | SENDING | CLAIMED | EXPIRED | CANCELLED

  datatype Row = Row(status: Status, claimedBy: Option<int>, version: nat)

  datatype Kind = Cancel | Prepare | Execute

  /** A process between its read and its write: the status it saw, the wins and status changes before it. */
  datatype Pending = Pending(kind: Kind, seen: Status, winsBefore: nat, changesBefore: nat)

  /**
   The row, the processes that have read and not yet written, and the executions dispatched and
   not yet started. The last four fields record the history: the customers whose claim succeeded,
   the status changes, the broadcasts that reached SENDING and the writes of OPEN.
   */
  datatype State = State(row: Row, pending: map<nat, Pending>, jobs: nat,
                         wins: seq<int>, changes: nat, broadcasts: nat, openWrites: nat)

  /** Start and Finish are the read and the write of process p; a Prepare that finishes dispatches `sent` executions. */
  datatype Event =
    | Claim(customer: int)
    | Start(p: nat, kind: Kind)
    | Finish(p: nat, sent: nat)

  // ----- The steps -----

  /** The conditional UPDATE. It looks at the status only, not at the version. */
  function ClaimRow(row: Row, customer: int): Row {
    if row.status == OPEN then Row(CLAIMED, Some(customer), row.version + 1) else row
  }

  /** The status a process of this kind goes on with; the others refuse and end. */
  predicate Proceeds(kind: Kind, seen: Status) {
    match kind
    case Cancel => seen != CLAIMED
    case Prepare => seen == OPEN
    case Execute => true
  }

  /** The status written, or None where the program writes nothing. An unchanged value is not written. */
  function Written(kind: Kind, seen: Status): Option<Status> {
    match kind
    case Cancel => if seen == CANCELLED then None else Some(CANCELLED)
    case Prepare => Some(SENDING)
    case Execute => if seen == SENDING then Some(OPEN) else None
  }

  function WriteStatus(row: Row, w: Option<Status>): Row {
    match w case None => row case Some(status) => row.(status := status)
  }

  /** At most two executions are dispatched per broadcast: in process and through the queue. */
  function Sent(kind: Kind, sent: nat): nat {
    if kind == Prepare then (if sent <= 2 then sent else 2) else 0
  }

  /** An event that cannot happen in a state leaves it unchanged. */
  function Step(s: State, e: Event): State {
    match e
    case Claim(customer) =>
      if s.row.status == OPEN then
        s.(row := ClaimRow(s.row, customer), wins := s.wins + [customer], changes := s.changes + 1)
      else s
    case Start(p, kind) =>
      if p in s.pending || (kind == Execute && s.jobs == 0) then s
      else
        var s' := if kind == Execute then s.(jobs := s.jobs - 1) else s;
        if Proceeds(kind, s.row.status) then
          s'.(pending := s.pending[p := Pending(kind, s.row.status, |s.wins|, s.changes)])
        else s'
    case Finish(p, sent) =>
      if p !in s.pending then s
      else
        var q := s.pending[p];
        var w := Written(q.kind, q.seen);
        s.(row := WriteStatus(s.row, w),
           pending := s.pending - {p},
           jobs := s.jobs + Sent(q.kind, sent),
           changes := if w.Some? && w.value != s.row.status then s.changes + 1 else s.changes,
           broadcasts := if q.kind == Prepare then s.broadcasts + 1 else s.broadcasts,
           openWrites := if w == Some(OPEN) then s.openWrites + 1 else s.openWrites)
  }

  function Run(s: State, events: seq<Event>): State {
    if events == [] then s else Step(Run(s, events[..|events| - 1]), events[|events| - 1])
  }

  /** A slot as it is created. */
  function Initial(): State {
    State(Row(OPEN, None, 1), map[], 0, [], 0, 0, 0)
  }

  // ----- What every interleaving keeps -----

  function Last(wins: seq<int>): Option<int> {
    if wins == [] then None else Some(wins[|wins| - 1])
  }

  /** Executions under way. */
  ghost function Executing(pending: map<nat, Pending>): set<nat> {
    set p | p in pending && pending[p].kind == Execute
  }

  ghost predicate Invariant(s: State) {
    && s.row.version == |s.wins| + 1
    && s.row.claimedBy == Last(s.wins)
    && |s.wins| + (if s.row.status == OPEN then 1 else 0) <= 1 + s.openWrites
    && s.openWrites + |Executing(s.pending)| + s.jobs <= 2 * s.broadcasts
    && (forall p :: p in s.pending ==> PendingValid(s, s.pending[p]))
  }

  /** What a pending process knows: its read went on, and tells the status unless it changed since. */
  ghost predicate PendingValid(s: State, q: Pending) {
    && Proceeds(q.kind, q.seen)
    && q.winsBefore <= |s.wins| && q.changesBefore <= s.changes
    && (q.changesBefore == s.changes ==> q.seen == s.row.status)
    && (s.row.status == CLAIMED && q.winsBefore == |s.wins| ==> q.seen == CLAIMED)
  }

  lemma ExecutingLess(pending: map<nat, Pending>, p: nat)
    requires p in pending
    ensures |Executing(pending)| == |Executing(pending - {p})| + if pending[p].kind == Execute then 1 else 0
  {
    if pending[p].kind == Execute {
      assert Executing(pending) == Executing(pending - {p}) + {p};
    } else {
      assert Executing(pending) == Executing(pending - {p});
    }
  }

  lemma ExecutingMore(pending: map<nat, Pending>, p: nat, q: Pending)
    requires p !in pending
    ensures |Executing(pending[p := q])| == |Executing(pending)| + if q.kind == Execute then 1 else 0
  {
    ExecutingLess(pending[p := q], p);
    assert pending[p := q] - {p} == pending;
  }

  lemma StepInvariant(s: State, e: Event)
    requires Invariant(s)
    ensures Invariant(Step(s, e))
  {
    var t := Step(s, e);
    match e {
      case Claim(customer) =>
      case Start(p, kind) =>
        if t.pending != s.pending {
          ExecutingMore(s.pending, p, t.pending[p]);
        }
      case Finish(p, sent) =>
        if p in s.pending {
          ExecutingLess(s.pending, p);
        }
    }
    hide Executing;
    assert forall p :: p in t.pending ==> PendingValid(t, t.pending[p]);
  }

  lemma {:induction false} RunInvariant(events: seq<Event>)
    ensures Invariant(Run(Initial(), events))
  {
    hide Step, Invariant;
    if events == [] {
      InitialInvariant();
    } else {
      RunInvariant(events[..|events| - 1]);
      StepInvariant(Run(Initial(), events[..|events| - 1]), events[|events| - 1]);
    }
  }

  lemma InitialInvariant()
    ensures Invariant(Initial())
  {
    assert Executing(map[]) == {};
  }

  /**
   For every interleaving: the version counts the successful claims, claimed_by is the last
   winner, and there is at most one win more than writes of OPEN, of which there are at most two
   per broadcast.
   */
  lemma EveryInterleaving(events: seq<Event>)
    ensures var s := Run(Initial(), events);
            && s.row.version - 1 == |s.wins|
            && s.row.claimedBy == Last(s.wins)
            && |s.wins| <= 1 + s.openWrites
            && s.openWrites <= 2 * s.broadcasts
            && (s.row.status == CLAIMED ==> |s.wins| >= 1)
  {
    RunInvariant(events);
    ClaimedHasWinner(events);
  }

  lemma {:induction false} ClaimedHasWinner(events: seq<Event>)
    ensures var s := Run(Initial(), events); s.row.status == CLAIMED ==> |s.wins| >= 1
  {
    if events != [] {
      ClaimedHasWinner(events[..|events| - 1]);
    }
  }

  /** The process p is about to overwrite the status with another one. */
  predicate Overwrites(s: State, p: nat) {
    p in s.pending
    && var w := Written(s.pending[p].kind, s.pending[p].seen);
       w.Some? && w.value != s.row.status
  }

  /** The status changed between the read of process p and now. */
  predicate Stale(s: State, p: nat) {
    p in s.pending && s.pending[p].changesBefore != s.changes
  }

  /**
   CLAIMED and CANCELLED are left exactly when a process that read before the status last changed
   writes a different one; a CLAIMED row only by a process that read before the winning claim.
   */
  lemma LeavingTerminal(events: seq<Event>, e: Event)
    ensures var s := Run(Initial(), events);
            s.row.status == CLAIMED || s.row.status == CANCELLED ==>
              && (Step(s, e).row.status != s.row.status <==> e.Finish? && Overwrites(s, e.p))
              && (e.Finish? && Overwrites(s, e.p) ==> s.pending[e.p].changesBefore < s.changes)
              && (s.row.status == CLAIMED && e.Finish? && Overwrites(s, e.p) ==> s.pending[e.p].winsBefore < |s.wins|)
              && (s.row.status == CLAIMED && e.Finish? && Overwrites(s, e.p) ==>
                    Step(s, e).row.claimedBy == s.row.claimedBy && Step(s, e).row.version == s.row.version)
  {
    RunInvariant(events);
    hide Executing;
    var s := Run(Initial(), events);
    assert e.Finish? && e.p in s.pending ==> PendingValid(s, s.pending[e.p]);
  }

  // ----- When reads and writes are not torn apart -----

  /** No process of the run writes after the status changed under it. */
  predicate Serial(events: seq<Event>)
    decreases |events|
  {
    events == []
    || (var s, e := Run(Initial(), events[..|events| - 1]), events[|events| - 1];
        Serial(events[..|events| - 1]) && (e.Finish? && Overwrites(s, e.p) ==> !Stale(s, e.p)))
  }

  /** The only status changes of a serial run. */
  lemma {:induction false} SerialStep(events: seq<Event>)
    requires events != [] && Serial(events)
    ensures var a, b := Run(Initial(), events[..|events| - 1]).row.status, Run(Initial(), events).row.status;
            || a == b
            || (a == OPEN && (b == SENDING || b == CLAIMED || b == CANCELLED))
            || (a == SENDING && (b == OPEN || b == CANCELLED))
    ensures Run(Initial(), events).row.status != EXPIRED
  {
    var before := events[..|events| - 1];
    var s, e := Run(Initial(), before), events[|events| - 1];
    NeverExpired(before);
    RunInvariant(before);
    hide Executing;
    assert e.Finish? && e.p in s.pending ==> PendingValid(s, s.pending[e.p]);
  }

  lemma {:induction false} NeverExpired(events: seq<Event>)
    ensures Run(Initial(), events).row.status != EXPIRED
  {
    if events != [] {
      NeverExpired(events[..|events| - 1]);
    }
  }

  /** In a serial run a claimed or cancelled slot stays so, and at most one claim ever succeeds. */
  lemma {:induction false} SerialRuns(events: seq<Event>)
    requires Serial(events)
    ensures var s := Run(Initial(), events);
            && |s.wins| <= 1
            && (|s.wins| == 1 <==> s.row.status == CLAIMED)
    ensures forall k :: 0 <= k <= |events| && Run(Initial(), events[..k]).row.status in {CLAIMED, CANCELLED} ==>
              Run(Initial(), events).row == Run(Initial(), events[..k]).row
    decreases |events|
  {
    hide Invariant;
    if events == [] {
    } else {
      var before := events[..|events| - 1];
      var s, e := Run(Initial(), before), events[|events| - 1];
      SerialRuns(before);
      SerialStep(events);
      assert Run(Initial(), events) == Step(s, e);
      forall k | 0 <= k <= |events| && Run(Initial(), events[..k]).row.status in {CLAIMED, CANCELLED}
        ensures Run(Initial(), events).row == Run(Initial(), events[..k]).row
      {
        if k == |events| {
          assert events[..k] == events;
        } else {
          assert events[..k] == before[..k];
          SettledStep(s, e);
        }
      }
    }
  }

  lemma SettledStep(s: State, e: Event)
    requires s.row.status == CLAIMED || s.row.status == CANCELLED
    requires Step(s, e).row.status == s.row.status
    ensures Step(s, e).row == s.row
  {
  }

  // ----- Exactly when a slot can be won again -----

  /** A process that can still bring the row back to OPEN: a Prepare, or an Execute that saw SENDING. */
  predicate Reopens(q: Pending) {
    q.kind == Prepare || (q.kind == Execute && q.seen == SENDING)
  }

  ghost predicate CanReopen(s: State) {
    exists p :: p in s.pending && Reopens(s.pending[p])
  }

  predicate Settled(status: Status) {
    status == CLAIMED || status == CANCELLED
  }

  /** Without such a process a settled row stays settled, and no such process can start. */
  lemma SettledForGoodStep(s: State, e: Event)
    requires Settled(s.row.status) && !CanReopen(s)
    ensures var t := Step(s, e);
            Settled(t.row.status) && !CanReopen(t) && t.wins == s.wins && t.row.claimedBy == s.row.claimedBy
  {
    if e.Finish? && e.p in s.pending {
      assert !Reopens(s.pending[e.p]);
    }
  }

  lemma {:induction false} SettledForGood(s: State, events: seq<Event>)
    requires Settled(s.row.status) && !CanReopen(s)
    ensures var t := Run(s, events);
            Settled(t.row.status) && !CanReopen(t) && t.wins == s.wins && t.row.claimedBy == s.row.claimedBy
  {
    hide Step, CanReopen;
    if events != [] {
      SettledForGood(s, events[..|events| - 1]);
      SettledForGoodStep(Run(s, events[..|events| - 1]), events[|events| - 1]);
    }
  }

  /** Such a process finishing, followed by a claim, wins the slot again. */
  lemma ReopenedAndWon(s: State, p: nat, customer: int) returns (events: seq<Event>)
    requires p in s.pending && Reopens(s.pending[p])
    ensures Run(s, events).wins == s.wins + [customer]
  {
    hide Run, Step;
    if s.pending[p].kind == Execute {
      events := [Finish(p, 0)] + [Claim(customer)];
      WinAfter(s, p, customer);
      RunTwo(s, Finish(p, 0), Claim(customer));
    } else {
      var t := Step(Step(s, Finish(p, 1)), Start(p, Execute));
      PreparedAndStarted(s, p);
      WinAfter(t, p, customer);
      events := ([Finish(p, 1)] + [Start(p, Execute)]) + ([Finish(p, 0)] + [Claim(customer)]);
      RunConcat(s, [Finish(p, 1)] + [Start(p, Execute)], [Finish(p, 0)] + [Claim(customer)]);
      RunTwo(s, Finish(p, 1), Start(p, Execute));
      RunTwo(t, Finish(p, 0), Claim(customer));
    }
  }

  lemma RunTwo(s: State, a: Event, b: Event)
    ensures Run(s, [a] + [b]) == Step(Step(s, a), b)
  {
    hide Step;
    RunCons(s, a, [b]);
    RunCons(Step(s, a), b, []);
    assert [b] + [] == [b];
    RunNone(Step(Step(s, a), b));
  }

  /** A Prepare finishes and the execution it dispatches reads SENDING. */
  lemma PreparedAndStarted(s: State, p: nat)
    requires p in s.pending && s.pending[p].kind == Prepare
    ensures var t := Step(Step(s, Finish(p, 1)), Start(p, Execute));
            p in t.pending && t.pending[p].kind == Execute && t.pending[p].seen == SENDING && t.wins == s.wins
  {
  }

  /**
   A claimed or cancelled slot can be won again in some continuation if and only if a Prepare, or
   an Execute that saw SENDING, has read and not yet written.
   */
  lemma WonAgainIff(s: State)
    requires s.row.status == CLAIMED || s.row.status == CANCELLED
    ensures (exists events :: |Run(s, events).wins| > |s.wins|)
            <==> exists p :: p in s.pending && (s.pending[p].kind == Prepare
                                                || (s.pending[p].kind == Execute && s.pending[p].seen == SENDING))
  {
    hide Run;
    if CanReopen(s) {
      var p :| p in s.pending && Reopens(s.pending[p]);
      var events := ReopenedAndWon(s, p, 0);
      assert |Run(s, events).wins| > |s.wins|;
    } else {
      forall events ensures Run(s, events).wins == s.wins {
        SettledForGood(s, events);
      }
    }
  }

  /** In every run a claim is a further win of the slot exactly when it meets OPEN at a version above 1. */
  lemma SecondWinIff(events: seq<Event>, customer: int)
    ensures var s := Run(Initial(), events);
            s.wins != [] && Step(s, Claim(customer)).wins != s.wins <==> s.row.status == OPEN && s.row.version > 1
  {
    RunInvariant(events);
    hide Run;
  }

  /** The k-th event of the run is a claim that meets OPEN at a version above 1. */
  predicate WinsAgain(events: seq<Event>, k: nat)
    requires k < |events|
  {
    var s := Run(Initial(), events[..k]);
    events[k].Claim? && s.row.status == OPEN && s.row.version > 1
  }

  /** A run gives the slot to more than one claim exactly when some claim of it meets OPEN at a version above 1. */
  lemma {:induction false} OverbookedIff(events: seq<Event>)
    ensures |Run(Initial(), events).wins| >= 2 <==> exists k :: 0 <= k < |events| && WinsAgain(events, k)
    decreases |events|
  {
    if events != [] {
      var n := |events| - 1;
      var before, e := events[..n], events[n];
      var s := Run(Initial(), before);
      OverbookedIff(before);
      EveryInterleaving(before);
      assert Run(Initial(), events) == Step(s, e);
      hide Run;
      forall k | 0 <= k < n ensures WinsAgain(before, k) == WinsAgain(events, k) {
        assert before[..k] == events[..k];
      }
      assert WinsAgain(events, n) <==> e.Claim? && s.row.status == OPEN && s.row.version > 1;
    }
  }

  // ----- Racing claims -----

  /** The HTTP status of a claim on an existing slot by an existing customer. */
  function ClaimCode(row: Row): nat {
    if row.status == OPEN then 200 else 409
  }

  /** The answers to the claims of a run, in order. */
  function Answers(s: State, events: seq<Event>): seq<nat>
    decreases |events|
  {
    if events == [] then []
    else (if events[0].Claim? then [ClaimCode(s.row)] else []) + Answers(Step(s, events[0]), events[1..])
  }

  /** Writes of other processes aside, claims may be interleaved with any reads. */
  predicate NoWrites(events: seq<Event>) {
    forall e :: e in events ==> !e.Finish?
  }

  function Claims(events: seq<Event>): nat {
    if events == [] then 0 else (if events[0].Claim? then 1 else 0) + Claims(events[1..])
  }

  lemma {:induction false} LosersGet409(s: State, events: seq<Event>)
    requires s.row.status != OPEN && NoWrites(events)
    ensures |Answers(s, events)| == Claims(events)
    ensures forall i :: 0 <= i < |Answers(s, events)| ==> Answers(s, events)[i] == 409
    decreases |events|
  {
    if events != [] {
      assert forall e :: e in events[1..] ==> e in events;
      assert events[0] in events;
      assert Step(s, events[0]).row == s.row;
      hide Step;
      LosersGet409(Step(s, events[0]), events[1..]);
    }
  }

  /** Among the claims racing on an OPEN slot the first is answered 200 and every other 409. */
  lemma {:induction false} RaceHasOneWinner(s: State, events: seq<Event>)
    requires s.row.status == OPEN && NoWrites(events)
    ensures |Answers(s, events)| == Claims(events)
    ensures forall i :: 0 <= i < |Answers(s, events)| ==> Answers(s, events)[i] == if i == 0 then 200 else 409
    decreases |events|
  {
    if events != [] {
      assert forall e :: e in events[1..] ==> e in events;
      assert events[0] in events;
      var t := Step(s, events[0]);
      if events[0].Claim? {
        assert t.row.status == CLAIMED;
        LosersGet409(t, events[1..]);
      } else {
        assert t.row == s.row;
        hide Step;
        RaceHasOneWinner(t, events[1..]);
      }
    }
  }

  // ----- How the bound is reached -----

  /** One round after a claim: the broadcast prepared before it runs twice, and two more customers win. */
  function Round(i: nat, k: nat): seq<Event> {
    [Finish(i, 2), Start(k + 2 * i, Execute), Start(k + 2 * i + 1, Execute),
     Finish(k + 2 * i, 0), Claim(2 * i + 1), Finish(k + 2 * i + 1, 0), Claim(2 * i + 2)]
  }

  function Prepares(k: nat): seq<Event> {
    if k == 0 then [] else Prepares(k - 1) + [Start(k - 1, Prepare)]
  }

  /** k owners press send on the open slot, a customer claims it, and the first m sends go through. */
  function Overbooking(k: nat, m: nat): seq<Event> {
    if m == 0 then Prepares(k) + [Claim(0)] else Overbooking(k, m - 1) + Round(m - 1, k)
  }

  lemma {:induction false} RunConcat(s: State, a: seq<Event>, b: seq<Event>)
    ensures Run(s, a + b) == Run(Run(s, a), b)
    decreases |b|
  {
    hide Step;
    if b == [] {
      assert a + b == a;
    } else {
      var b' := b[..|b| - 1];
      assert (a + b)[..|a + b| - 1] == a + b';
      RunConcat(s, a, b');
    }
  }

  lemma RunCons(s: State, e: Event, rest: seq<Event>)
    ensures Run(s, [e] + rest) == Run(Step(s, e), rest)
  {
    hide Step;
    assert [e][..0] == [] && Run(s, [e]) == Step(Run(s, []), e);
    RunConcat(s, [e], rest);
  }

  /** After the winning claim and m of k sends: CLAIMED, 2m + 1 winners so far, the other sends still pending. */
  ghost predicate AfterRounds(s: State, k: nat, m: nat) {
    && s.row.status == CLAIMED && s.jobs == 0
    && s.wins == seq(2 * m + 1, i => i)
    && s.broadcasts == m && s.openWrites == 2 * m
    && (forall p: nat :: p in s.pending <==> m <= p < k)
    && (forall p :: p in s.pending ==> s.pending[p].kind == Prepare)
  }

  lemma {:induction false} AfterPrepares(k: nat)
    ensures var s := Run(Initial(), Prepares(k));
            && s.(pending := map[]) == Initial()
            && (forall p: nat :: p in s.pending <==> p < k)
            && (forall p :: p in s.pending ==> s.pending[p].kind == Prepare)
  {
    if k > 0 {
      AfterPrepares(k - 1);
      RunConcat(Initial(), Prepares(k - 1), [Start(k - 1, Prepare)]);
      var e, t := Start(k - 1, Prepare), Run(Initial(), Prepares(k - 1));
      assert [e] + [] == [e];
      RunCons(t, e, []);
      hide Run, Prepares;
      assert Step(t, e).pending == t.pending[k - 1 := Pending(Prepare, OPEN, 0, 0)];
    }
  }

  /** A send goes through and both its executions read SENDING. */
  lemma BothStarted(s: State, p: nat, a: nat, b: nat)
    requires p in s.pending && s.pending[p].kind == Prepare
    requires a !in s.pending && b !in s.pending && a != b && s.jobs == 0
    ensures var s1 := Step(s, Finish(p, 2));
            var t := Step(Step(s1, Start(a, Execute)), Start(b, Execute));
            && t.row.status == SENDING && t.jobs == 0 && t.wins == s.wins
            && t.broadcasts == s.broadcasts + 1 && t.openWrites == s.openWrites
            && a in t.pending && b in t.pending
            && t.pending == (s.pending - {p})[a := t.pending[a]][b := t.pending[b]]
            && t.pending[a].kind == Execute && t.pending[a].seen == SENDING
            && t.pending[b].kind == Execute && t.pending[b].seen == SENDING
  {
  }

  lemma OpenAfter(s: State, p: nat)
    requires p in s.pending && s.pending[p].kind == Execute && s.pending[p].seen == SENDING
    ensures Step(s, Finish(p, 0)).row.status == OPEN
  {
  }

  /** An execution that saw SENDING finishes, and the next claim wins. */
  lemma WinAfter(s: State, p: nat, customer: int)
    requires p in s.pending && s.pending[p].kind == Execute && s.pending[p].seen == SENDING
    ensures var t := Step(Step(s, Finish(p, 0)), Claim(customer));
            && t.row.status == CLAIMED && t.jobs == s.jobs && t.wins == s.wins + [customer]
            && t.broadcasts == s.broadcasts && t.openWrites == s.openWrites + 1 && t.pending == s.pending - {p}
  {
  }

  lemma RoundStep(s: State, k: nat, m: nat)
    requires m < k && AfterRounds(s, k, m)
    ensures AfterRounds(Run(s, Round(m, k)), k, m + 1)
  {
    hide Step, Run;
    var a, b := k + 2 * m, k + 2 * m + 1;
    var s1 := Step(s, Finish(m, 2));
    var s2 := Step(s1, Start(a, Execute));
    var s3 := Step(s2, Start(b, Execute));
    var s4 := Step(s3, Finish(a, 0));
    var s5 := Step(s4, Claim(2 * m + 1));
    var s6 := Step(s5, Finish(b, 0));
    var s7 := Step(s6, Claim(2 * m + 2));
    BothStarted(s, m, a, b);
    WinAfter(s3, a, 2 * m + 1);
    WinAfter(s5, b, 2 * m + 2);
    assert s7.pending == s.pending - {m};
    RunRound(s, s1, s2, s3, s4, s5, s6, s7, m, k);
    assert s7.wins == seq(2 * (m + 1) + 1, i => i);
  }

  lemma RunRound(s: State, s1: State, s2: State, s3: State, s4: State, s5: State, s6: State,
          s7: State, m: nat, k: nat)
    requires s1 == Step(s, Finish(m, 2))
    requires s2 == Step(s1, Start(k + 2 * m, Execute)) && s3 == Step(s2, Start(k + 2 * m + 1, Execute))
    requires s4 == Step(s3, Finish(k + 2 * m, 0)) && s5 == Step(s4, Claim(2 * m + 1))
    requires s6 == Step(s5, Finish(k + 2 * m + 1, 0)) && s7 == Step(s6, Claim(2 * m + 2))
    ensures Run(s, Round(m, k)) == s7
  {
    hide Step;
    var r := Round(m, k);
    assert r == [r[0]] + r[1..] && r[1..] == [r[1]] + r[2..] && r[2..] == [r[2]] + r[3..] && r[3..] == [r[3]] + r[4..];
    assert r[4..] == [r[4]] + r[5..] && r[5..] == [r[5]] + r[6..] && r[6..] == [r[6]] + [];
    RunCons(s, r[0], r[1..]);
    RunCons(s1, r[1], r[2..]);
    RunCons(s2, r[2], r[3..]);
    RunCons(s3, r[3], r[4..]);
    RunCons(s4, r[4], r[5..]);
    RunCons(s5, r[5], r[6..]);
    RunCons(s6, r[6], []);
  }

  /** The bound is reached: k broadcasts can give one slot to 2k + 1 different customers. */
  lemma {:induction false} BoundReached(k: nat, m: nat)
    requires m <= k
    ensures AfterRounds(Run(Initial(), Overbooking(k, m)), k, m)
  {
    hide Step, Run, Overbooking, AfterRounds;
    OverbookingStart(k);
    if m == 0 {
      FirstWin(k);
    } else {
      BoundReached(k, m - 1);
      RunConcat(Initial(), Overbooking(k, m - 1), Round(m - 1, k));
      RoundStep(Run(Initial(), Overbooking(k, m - 1)), k, m - 1);
      OverbookingStep(k, m);
    }
  }

  lemma FirstWin(k: nat)
    ensures AfterRounds(Run(Initial(), Prepares(k) + [Claim(0)]), k, 0)
  {
    hide Run, Prepares;
    AfterPrepares(k);
    var e, t := Claim(0), Run(Initial(), Prepares(k));
    RunConcat(Initial(), Prepares(k), [e]);
    assert [e] + [] == [e];
    RunCons(t, e, []);
    RunNone(Step(t, e));
    assert seq(1, i => i) == [0];
    assert Step(t, e).wins == [0];
  }

  lemma RunNone(s: State)
    ensures Run(s, []) == s
  {
  }

  lemma OverbookingStart(k: nat)
    ensures Overbooking(k, 0) == Prepares(k) + [Claim(0)]
  {
  }

  lemma OverbookingStep(k: nat, m: nat)
    requires m > 0
    ensures Overbooking(k, m) == Overbooking(k, m - 1) + Round(m - 1, k)
  {
  }

  /** Two customers told 200 for one slot after a single send: both dispatched executions read SENDING. */
  lemma DoubleBooking()
    ensures var events := [Start(0, Prepare), Finish(0, 2), Start(1, Execute), Start(2, Execute),
                           Finish(1, 0), Claim(7), Finish(2, 0), Claim(8)];
            Answers(Initial(), events) == [200, 200]
  {
    var s1 := Step(Initial(), Start(0, Prepare));
    assert s1.jobs == 0 && s1.pending == map[0 := Pending(Prepare, OPEN, 0, 0)];
    hide Step;
    BothStarted(s1, 0, 1, 2);
    var s2 := Step(s1, Finish(0, 2));
    var s3 := Step(s2, Start(1, Execute));
    var s4 := Step(s3, Start(2, Execute));
    var s5 := Step(s4, Finish(1, 0));
    var s6 := Step(s5, Claim(7));
    var s7 := Step(s6, Finish(2, 0));
    OpenAfter(s4, 1);
    WinAfter(s4, 1, 7);
    OpenAfter(s6, 2);
    AnswersCons(s7, Claim(8), []);
    AnswersCons(s6, Finish(2, 0), [Claim(8)]);
    AnswersCons(s5, Claim(7), [Finish(2, 0), Claim(8)]);
    AnswersCons(s4, Finish(1, 0), [Claim(7), Finish(2, 0), Claim(8)]);
    AnswersCons(s3, Start(2, Execute), [Finish(1, 0), Claim(7), Finish(2, 0), Claim(8)]);
    AnswersCons(s2, Start(1, Execute), [Start(2, Execute), Finish(1, 0), Claim(7), Finish(2, 0), Claim(8)]);
    AnswersCons(s1, Finish(0, 2),
                [Start(1, Execute), Start(2, Execute), Finish(1, 0), Claim(7), Finish(2, 0), Claim(8)]);
    AnswersCons(Initial(), Start(0, Prepare),
                [Finish(0, 2), Start(1, Execute), Start(2, Execute), Finish(1, 0), Claim(7), Finish(2, 0), Claim(8)]);
  }

  lemma AnswersCons(s: State, e: Event, rest: seq<Event>)
    ensures Answers(s, [e] + rest) == (if e.Claim? then [ClaimCode(s.row)] else []) + Answers(Step(s, e), rest)
  {
  }
}
