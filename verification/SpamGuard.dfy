/** The guard against more than two alerts in 24 hours, and what it guarantees over whole runs. */
module SpamGuard {
  import opened Database
  import B = BroadcastProtocol

  const MAX_ALERTS_PER_24H := 2
  const HOURS_24 := 86_400_000_000  // microseconds

  /** SENT logs of a customer from `cutoff` on. */
  function SentSince(logs: seq<Log>, c: int, cutoff: int): nat {
    if logs == [] then 0
    else
      var last := logs[|logs| - 1];
      SentSince(logs[..|logs| - 1], c, cutoff)
      + if last.customerId == c && last.status == SENT && last.sentAt >= cutoff then 1 else 0
  }

  predicate Allowed(logs: seq<Log>, c: int, now: int) {
    SentSince(logs, c, now - HOURS_24) < MAX_ALERTS_PER_24H
  }

  /** The count is the number of rows that belong to the customer, are SENT and not older than `cutoff`. */
  lemma {:induction false} SentSinceCounts(logs: seq<Log>, c: int, cutoff: int)
    ensures SentSince(logs, c, cutoff)
            == |set i | 0 <= i < |logs| && logs[i].customerId == c && logs[i].status == SENT
                          && logs[i].sentAt >= cutoff|
  {
    var rows :=
      set i | 0 <= i < |logs| && logs[i].customerId == c && logs[i].status == SENT && logs[i].sentAt >= cutoff;
    if logs != [] {
      var n := |logs| - 1;
      var front := logs[..n];
      SentSinceCounts(front, c, cutoff);
      var before :=
        set i | 0 <= i < |front| && front[i].customerId == c && front[i].status == SENT && front[i].sentAt >= cutoff;
      assert rows - {n} == before;
      assert n !in rows ==> rows == before;
    } else {
      assert rows == {};
    }
  }

  /**
   A log anywhere in the table takes up one of the two alerts of a customer if it is his, SENT and not
   older than 24 hours; a log of another customer, of another status or older changes no answer.
   */
  lemma {:induction false} LogCounts(before: seq<Log>, log: Log, after: seq<Log>, c: int, now: int)
    ensures var logs, cutoff := before + [log] + after, now - 86_400_000_000;
            && SentSince(logs, c, now - HOURS_24)
               == SentSince(before + after, c, now - HOURS_24)
                  + (if log.customerId == c && log.status == SENT && log.sentAt >= cutoff then 1 else 0)
            && (log.customerId != c || log.status != SENT || log.sentAt < cutoff ==>
                  Allowed(logs, c, now) == Allowed(before + after, c, now))
    decreases |after|
  {
    var logs := before + [log] + after;
    if after == [] {
      assert logs[..|before|] == before && before + after == before;
    } else {
      var n := |after| - 1;
      LogCounts(before, log, after[..n], c, now);
      assert logs[..|before| + 1 + n] == before + [log] + after[..n];
      assert (before + after)[..|before| + n] == before + after[..n];
    }
  }

  method CountSent(logs: seq<Log>, c: int, cutoff: int) returns (n: nat)
    ensures n == SentSince(logs, c, cutoff)
    ensures n
            == |set i | 0 <= i < |logs| && logs[i].customerId == c && logs[i].status == SENT
                          && logs[i].sentAt >= cutoff|
  {
    n := 0;
    for i := 0 to |logs|
      invariant n == SentSince(logs[..i], c, cutoff)
    {
      assert logs[..i + 1][..i] == logs[..i];
      if logs[i].customerId == c && logs[i].sentAt >= cutoff && logs[i].status == SENT {
        n := n + 1;
      }
    }
    assert logs[..|logs|] == logs;
    SentSinceCounts(logs, c, cutoff);
  }

  /** The database decides; Redis, when it answers, is only brought in line with it. */
  method CanSendNotification(store: Store, customerId: int, now: int, day: int, redisUp: bool) returns (allowed: bool)
    modifies store`counters
    ensures allowed <==> Allowed(store.logs, customerId, now)
    ensures var logs := store.logs;
            allowed
            <==> |set i | 0 <= i < |logs| && logs[i].customerId == customerId && logs[i].status == SENT
                          && logs[i].sentAt >= now - 86_400_000_000| < 2
    ensures store.counters
            == if redisUp
               then old(store.counters)[(customerId, day) := SentSince(store.logs, customerId, now - HOURS_24)]
               else old(store.counters)
  {
    var cutoff := now - HOURS_24;
    var dbCount := CountSent(store.logs, customerId, cutoff);
    if redisUp {
      store.counters := store.counters[(customerId, day) := dbCount];
    }
    if dbCount >= MAX_ALERTS_PER_24H {
      return false;
    }
    allowed := true;
  }

  // ----- Runs -----

  /** An execution of a broadcast that has not read the logs yet, or has read and found none for the customer. */
  datatype Stage = Waiting | Ready

  /**
   An execution that may still alert the customer: its slot, the time of the check behind it, and the
   alerts whose SENT log that check could count.
   */
  datatype Execution = Execution(slotId: int, at: int, seen: set<nat>, stage: Stage)

  /** The log of an alert sent, in the session of an execution that has not committed. */
  datatype Unsaved = Unsaved(alert: nat, slotId: int, sentAt: int)

  /**
   The table of logs of one customer, the executions that may still send, the logs not committed, the
   place in the table of each alert's log, and the times of the alerts.
   */
  datatype State = State(logs: seq<Log>, open: seq<Execution>, unsaved: seq<Unsaved>,
                         saved: map<nat, nat>, alerts: seq<int>, clock: int)

  /**
   What happens to one customer: a check that lets a broadcast through, with as many executions as
   are dispatched; execution i reading the logs, sending, or ending without an alert; the log of an
   alert being committed or lost; any other log (of a failed alert, or SENT for the notification of
   an owner); and a receipt that rewrites log i.
   */
  datatype Event =
    | Check(slotId: int, now: int, sends: nat)
    | Read(i: nat)
    | Send(i: nat, now: int)
    | Lapse(i: nat)
    | Commit(j: nat)
    | Lose(j: nat)
    | OtherLog(slotId: int, now: int, status: Delivery)
    | Receipt(i: nat, status: Delivery)

  function Without<T>(s: seq<T>, i: nat): seq<T>
    requires i < |s|
  {
    s[..i] + s[i + 1..]
  }

  /** The alerts whose log is in the table with status SENT. */
  function Seen(s: State): set<nat> {
    set a | a in s.saved && s.saved[a] < |s.logs| && s.logs[s.saved[a]].status == SENT
  }

  predicate IsLogged(logs: seq<Log>, slotId: int) {
    B.HasLog(logs, slotId, 0)
  }

  function Dispatched(s: State, slotId: int, now: int, sends: nat): seq<Execution> {
    seq(sends, _ => Execution(slotId, now, Seen(s), Waiting))
  }

  /** An event that cannot happen leaves the state unchanged. */
  function Step(s: State, e: Event): State {
    match e
    case Check(slotId, now, sends) => s.(open := s.open + Dispatched(s, slotId, now, sends), clock := now)
    case Read(i) =>
      if i >= |s.open| then s
      else if IsLogged(s.logs, s.open[i].slotId) then s.(open := Without(s.open, i))
      else s.(open := s.open[i := s.open[i].(stage := Ready)])
    case Send(i, now) =>
      if i >= |s.open| then s
      else
        s.(open := Without(s.open, i), unsaved := s.unsaved + [Unsaved(|s.alerts|, s.open[i].slotId, now)],
           alerts := s.alerts + [now], clock := now)
    case Lapse(i) => if i >= |s.open| then s else s.(open := Without(s.open, i))
    case Commit(j) =>
      if j >= |s.unsaved| then s
      else
        var u := s.unsaved[j];
        s.(logs := s.logs + [Log(u.slotId, 0, SENT, u.sentAt)], unsaved := Without(s.unsaved, j),
           saved := s.saved[u.alert := |s.logs|])
    case Lose(j) => if j >= |s.unsaved| then s else s.(unsaved := Without(s.unsaved, j))
    case OtherLog(slotId, now, status) => s.(logs := s.logs + [Log(slotId, 0, status, now)], clock := now)
    case Receipt(i, status) =>
      if i < |s.logs| then s.(logs := s.logs[i := s.logs[i].(status := status)]) else s
  }

  /**
   What the program does: checks count the logs, at most two executions are dispatched per check, they
   read before they send, and time does not run back.
   */
  predicate Enabled(s: State, e: Event) {
    match e
    case Check(_, now, sends) => s.clock <= now && Allowed(s.logs, 0, now) && sends <= 2
    case Read(i) => i < |s.open| && s.open[i].stage == Waiting
    case Send(i, now) => s.clock <= now && i < |s.open| && s.open[i].stage == Ready
    case Lapse(i) => i < |s.open|
    case Commit(j) => j < |s.unsaved|
    case Lose(j) => j < |s.unsaved|
    case OtherLog(_, now, _) => s.clock <= now
    case Receipt(_, _) => true
  }

  function Initial(): State {
    State([], [], [], map[], [], 0)
  }

  /** A run, event by event. */
  datatype History = Empty | Then(before: History, event: Event)

  function Run(h: History): State {
    match h case Empty => Initial() case Then(before, e) => Step(Run(before), e)
  }

  predicate Possible(h: History) {
    h.Then? ==> Possible(h.before) && Enabled(Run(h.before), h.event)
  }

  /** The alerts sent in the closed interval from a to b. */
  function Within(times: seq<int>, a: int, b: int): nat {
    if times == [] then 0
    else Within(times[..|times| - 1], a, b) + if a <= times[|times| - 1] <= b then 1 else 0
  }

  /** The alerts of the 24 hours from w on, both ends included. */
  function Window(times: seq<int>, w: int): nat {
    Within(times, w, w + HOURS_24)
  }

  /** Any 24 hours hold at most two alerts. */
  ghost predicate Bounded(times: seq<int>) {
    forall w :: Window(times, w) <= MAX_ALERTS_PER_24H
  }

  ghost predicate Ordered(s: State) {
    && (forall i, j :: 0 <= i < j < |s.alerts| ==> s.alerts[i] <= s.alerts[j])
    && (forall i :: 0 <= i < |s.alerts| ==> s.alerts[i] <= s.clock)
  }

  lemma WithinPush(times: seq<int>, t: int, a: int, b: int)
    ensures Within(times + [t], a, b) == Within(times, a, b) + if a <= t <= b then 1 else 0
  {
    assert (times + [t])[..|times|] == times;
  }

  lemma {:induction false} WithinCounts(times: seq<int>, a: int, b: int)
    ensures Within(times, a, b) == |set i | 0 <= i < |times| && a <= times[i] <= b|
  {
    var inside := set i | 0 <= i < |times| && a <= times[i] <= b;
    if times != [] {
      var n := |times| - 1;
      var front := times[..n];
      WithinCounts(front, a, b);
      var before := set i | 0 <= i < |front| && a <= front[i] <= b;
      assert inside - {n} == before;
      assert n !in inside ==> inside == before;
    } else {
      assert inside == {};
    }
  }

  /** An interval that covers the alerts of another holds no fewer. */
  lemma {:induction false} WithinWider(times: seq<int>, a: int, b: int, a': int, b': int)
    requires forall i :: 0 <= i < |times| && a <= times[i] <= b ==> a' <= times[i] <= b'
    ensures Within(times, a, b) <= Within(times, a', b')
  {
    if times != [] {
      WithinWider(times[..|times| - 1], a, b, a', b');
    }
  }

  lemma {:induction false} RunOrdered(h: History)
    requires Possible(h)
    ensures Ordered(Run(h))
  {
    hide Ordered, Step, Enabled;
    if h.Then? {
      RunOrdered(h.before);
      StepOrdered(Run(h.before), h.event);
    } else {
      NothingOrdered();
    }
  }

  lemma NothingOrdered()
    ensures Ordered(Initial())
  {
  }

  lemma StepOrdered(s: State, e: Event)
    requires Ordered(s) && Enabled(s, e)
    ensures Ordered(Step(s, e))
  {
    hide Allowed, IsLogged, Seen;
  }

  /** Two SENT logs of owner notifications count like alerts: no check lets anything through for 24 hours. */
  lemma OwnerNotesBlock(s: State, slotId: int, now: int, later: int, sends: nat)
    requires now <= later <= now + 86_400_000_000
    ensures var e := OtherLog(slotId, now, SENT);
            !Enabled(Step(Step(s, e), e), Check(slotId, later, sends))
  {
    var log := Log(slotId, 0, SENT, now);
    var cutoff := later - HOURS_24;
    assert (s.logs + [log])[..|s.logs|] == s.logs;
    assert (s.logs + [log] + [log])[..|s.logs| + 1] == s.logs + [log];
    assert SentSince(s.logs + [log], 0, cutoff) == SentSince(s.logs, 0, cutoff) + 1;
    assert SentSince(s.logs + [log] + [log], 0, cutoff) == SentSince(s.logs, 0, cutoff) + 2;
  }

  // ----- Exactly when the bound holds -----

  /** An alert keeps the bound if and only if at most one was sent in the 24 hours up to it. */
  lemma SendIff(s: State, now: int)
    requires Ordered(s) && Bounded(s.alerts) && s.clock <= now
    ensures Bounded(s.alerts + [now]) <==> Within(s.alerts, now - HOURS_24, now) <= 1
  {
    hide Within;
    var after := s.alerts + [now];
    WithinPush(s.alerts, now, now - HOURS_24, now);
    assert Window(after, now - HOURS_24) == Within(s.alerts, now - HOURS_24, now) + 1;
    if Within(s.alerts, now - HOURS_24, now) <= 1 {
      forall w ensures Window(after, w) <= MAX_ALERTS_PER_24H {
        assert Window(s.alerts, w) <= MAX_ALERTS_PER_24H;
        WithinPush(s.alerts, now, w, w + HOURS_24);
        if w <= now <= w + HOURS_24 {
          WithinWider(s.alerts, w, w + HOURS_24, now - HOURS_24, now);
        }
      }
    }
  }

  /** No alert of the run was sent after two others in the 24 hours up to it. */
  predicate SendsInBound(h: History) {
    h.Then? ==>
      && SendsInBound(h.before)
      && (h.event.Send? ==> Within(Run(h.before).alerts, h.event.now - HOURS_24, h.event.now) <= 1)
  }

  lemma FewerAreBounded(times: seq<int>, now: int)
    requires Bounded(times + [now])
    ensures Bounded(times)
  {
    forall w ensures Window(times, w) <= MAX_ALERTS_PER_24H {
      WithinPush(times, now, w, w + HOURS_24);
      assert Window(times + [now], w) <= MAX_ALERTS_PER_24H;
    }
  }

  /** A run keeps the bound if and only if each of its alerts was sent after at most one in the 24 hours up to it. */
  lemma {:induction false} BoundedIff(h: History)
    requires Possible(h)
    ensures Bounded(Run(h).alerts) <==> SendsInBound(h)
  {
    hide Bounded, Within, Enabled;
    if h == Empty {
      NothingSent();
    } else {
      var s := Run(h.before);
      BoundedIff(h.before);
      RunOrdered(h.before);
      AlertsStep(s, h.event);
      hide Step;
      if h.event.Send? {
        if Bounded(s.alerts) {
          SendIff(s, h.event.now);
        } else if Bounded(s.alerts + [h.event.now]) {
          FewerAreBounded(s.alerts, h.event.now);
        }
      }
    }
  }

  /** Only a send adds an alert. */
  lemma AlertsStep(s: State, e: Event)
    requires Enabled(s, e)
    ensures e.Send? ==> s.clock <= e.now
    ensures Step(s, e).alerts == if e.Send? then s.alerts + [e.now] else s.alerts
    ensures s.clock <= Step(s, e).clock
    ensures e.Check? || e.Send? ==> Step(s, e).clock == e.now
  {
    hide Allowed, IsLogged, Seen;
  }

  /** The execution has read, or will find no log when it does. */
  predicate CanSend(logs: seq<Log>, x: Execution) {
    x.stage == Ready || !IsLogged(logs, x.slotId)
  }

  /** The number of executions that can still send. */
  function Able(logs: seq<Log>, open: seq<Execution>): nat {
    if open == [] then 0
    else Able(logs, open[..|open| - 1]) + if CanSend(logs, open[|open| - 1]) then 1 else 0
  }

  /** The alerts of the last 24 hours and those that can still be sent are at most two together. */
  predicate Safe(s: State) {
    Within(s.alerts, s.clock - HOURS_24, s.clock) + Able(s.logs, s.open) <= MAX_ALERTS_PER_24H
  }

  /** A check at this time, with so many executions dispatched, leaves the state safe. */
  predicate Room(s: State, slotId: int, now: int, sends: nat) {
    Within(s.alerts, now - HOURS_24, now) + Able(s.logs, s.open) + (if IsLogged(s.logs, slotId) then 0 else sends)
    <= MAX_ALERTS_PER_24H
  }

  predicate HasRoom(s: State, e: Event) {
    e.Check? ==> Room(s, e.slotId, e.now, e.sends)
  }

  predicate AllRoom(h: History) {
    h.Then? ==> AllRoom(h.before) && HasRoom(Run(h.before), h.event)
  }

  lemma AblePush(logs: seq<Log>, open: seq<Execution>, x: Execution)
    ensures Able(logs, open + [x]) == Able(logs, open) + if CanSend(logs, x) then 1 else 0
  {
    assert (open + [x])[..|open|] == open;
  }

  lemma {:induction false} AbleConcat(logs: seq<Log>, a: seq<Execution>, b: seq<Execution>)
    ensures Able(logs, a + b) == Able(logs, a) + Able(logs, b)
    decreases |b|
  {
    hide CanSend;
    if b == [] {
      assert a + b == a;
    } else {
      assert (a + b)[..|a + b| - 1] == a + b[..|b| - 1];
      AbleConcat(logs, a, b[..|b| - 1]);
    }
  }

  /** Counting without, and with a replacement for, execution i. */
  lemma AbleAt(logs: seq<Log>, open: seq<Execution>, i: nat, x: Execution)
    requires i < |open|
    ensures var one := if CanSend(logs, open[i]) then 1 else 0;
            && Able(logs, open) >= one
            && Able(logs, Without(open, i)) == Able(logs, open) - one
            && Able(logs, open[i := x]) == Able(logs, open) - one + if CanSend(logs, x) then 1 else 0
  {
    hide CanSend, Able;
    var front, back := open[..i], open[i + 1..];
    assert open == front + [open[i]] + back && open[i := x] == front + [x] + back;
    AblePush(logs, front, open[i]);
    AblePush(logs, front, x);
    AbleConcat(logs, front + [open[i]], back);
    AbleConcat(logs, front + [x], back);
    AbleConcat(logs, front, back);
  }

  lemma {:induction false} AbleCopies(s: State, slotId: int, now: int, n: nat)
    ensures Able(s.logs, Dispatched(s, slotId, now, n)) == if IsLogged(s.logs, slotId) then 0 else n
  {
    hide Seen, IsLogged;
    if n > 0 {
      var d := Dispatched(s, slotId, now, n);
      AbleCopies(s, slotId, now, n - 1);
      assert d[..n - 1] == Dispatched(s, slotId, now, n - 1);
    }
  }

  /** No log disappears, so an execution that would skip goes on to skip. */
  lemma {:induction false} AbleFewer(logs: seq<Log>, logs': seq<Log>, open: seq<Execution>)
    requires B.KeepsLogs(logs, logs')
    ensures Able(logs', open) <= Able(logs, open)
  {
    if open != [] {
      var x := open[|open| - 1];
      AbleFewer(logs, logs', open[..|open| - 1]);
      if IsLogged(logs, x.slotId) {
        B.HasLogGrows(logs, logs', x.slotId, 0);
      }
      hide B.HasLog, B.KeepsLogs;
    }
  }

  lemma LogsKept(s: State, e: Event)
    ensures B.KeepsLogs(s.logs, Step(s, e).logs)
  {
    hide IsLogged, Seen;
  }

  /** What an event does to the number of executions that can still send. */
  lemma AbleStep(s: State, e: Event)
    requires Enabled(s, e)
    ensures var t := Step(s, e);
            Able(t.logs, t.open)
            <= Able(s.logs, s.open)
               + (if e.Check? && !IsLogged(s.logs, e.slotId) then e.sends else 0) - (if e.Send? then 1 else 0)
    ensures e.Check? ==> Able(s.logs, Step(s, e).open)
                         == Able(s.logs, s.open) + if IsLogged(s.logs, e.slotId) then 0 else e.sends
    ensures e.Read? ==> Able(s.logs, Step(s, e).open) == Able(s.logs, s.open)
    ensures e.Send? ==> Able(s.logs, s.open) >= 1 && Able(s.logs, Step(s, e).open) == Able(s.logs, s.open) - 1
  {
    LogsKept(s, e);
    hide Able, Allowed, B.KeepsLogs, Without, Seen, Dispatched;
    match e {
      case Check(slotId, now, sends) =>
        AbleConcat(s.logs, s.open, Dispatched(s, slotId, now, sends));
        AbleCopies(s, slotId, now, sends);
      case Read(i) => AbleAt(s.logs, s.open, i, s.open[i].(stage := Ready));
      case Send(i, _) => AbleAt(s.logs, s.open, i, s.open[i]);
      case Lapse(i) => AbleAt(s.logs, s.open, i, s.open[i]);
      case _ => AbleFewer(s.logs, Step(s, e).logs, s.open);
    }
  }

  /** Every event of a run keeps the bound, if each check has room. */
  lemma {:induction false} StepBounded(s: State, e: Event)
    requires Ordered(s) && Bounded(s.alerts) && Safe(s) && Enabled(s, e) && HasRoom(s, e)
    ensures var t := Step(s, e); Ordered(t) && Bounded(t.alerts) && Safe(t)
  {
    StepOrdered(s, e);
    AbleStep(s, e);
    AlertsStep(s, e);
    hide Within, Able, Enabled, Step, IsLogged, Bounded;
    var t := Step(s, e);
    if e.Send? {
      var now := e.now;
      WithinWider(s.alerts, now - HOURS_24, now, s.clock - HOURS_24, s.clock);
      WithinPush(s.alerts, now, now - HOURS_24, now);
      SendIff(s, now);
    } else {
      WithinWider(s.alerts, t.clock - HOURS_24, t.clock, s.clock - HOURS_24, s.clock);
    }
  }

  /** A run in which every check has room never has three alerts in 24 hours, whatever the logs say. */
  lemma {:induction false} RoomyRuns(h: History)
    requires Possible(h) && AllRoom(h)
    ensures Ordered(Run(h)) && Bounded(Run(h).alerts) && Safe(Run(h))
  {
    hide Ordered, Bounded, Safe, Enabled, HasRoom, Step;
    if h == Empty {
      NothingSent();
    } else {
      RoomyRuns(h.before);
      StepBounded(Run(h.before), h.event);
    }
  }

  lemma NothingSent()
    ensures Ordered(Initial()) && Bounded(Initial().alerts) && Safe(Initial())
  {
  }

  /** `later` goes on from `h` without another check. */
  predicate Continues(h: History, later: History) {
    later == h || (later.Then? && !later.event.Check? && Continues(h, later.before))
  }

  lemma {:induction false} ContinuesOn(h: History, between: History, later: History)
    requires Continues(h, between) && Continues(between, later)
    ensures Continues(h, later)
  {
    if later != between {
      ContinuesOn(h, between, later.before);
    }
  }

  lemma {:induction false} SafeContinuation(h: History, later: History)
    requires Possible(later) && Continues(h, later)
    requires Ordered(Run(h)) && Bounded(Run(h).alerts) && Safe(Run(h))
    ensures var s := Run(later); Ordered(s) && Bounded(s.alerts) && Safe(s)
  {
    hide Ordered, Bounded, Safe, Step, Enabled;
    if later != h {
      SafeContinuation(h, later.before);
      StepBounded(Run(later.before), later.event);
    }
  }

  lemma RunThen(h: History, e: Event)
    ensures Possible(Then(h, e)) <==> Possible(h) && Enabled(Run(h), e)
    ensures Run(Then(h, e)) == Step(Run(h), e)
    ensures Possible(Empty) && Run(Empty) == Initial()
    ensures Continues(h, h) && (!e.Check? ==> Continues(h, Then(h, e)))
  {
  }

  lemma {:induction false} SomeoneAble(logs: seq<Log>, open: seq<Execution>) returns (i: nat)
    requires Able(logs, open) > 0
    ensures i < |open| && CanSend(logs, open[i])
  {
    i := |open| - 1;
    if !CanSend(logs, open[i]) {
      i := SomeoneAble(logs, open[..i]);
    }
  }

  /** One execution that can send does so at once. */
  lemma OneMore(h: History) returns (later: History)
    requires Possible(h) && Able(Run(h).logs, Run(h).open) > 0
    ensures Possible(later) && Continues(h, later)
    ensures var s, t := Run(h), Run(later);
            && t.clock == s.clock && t.logs == s.logs && t.alerts == s.alerts + [s.clock]
            && Able(t.logs, t.open) == Able(s.logs, s.open) - 1
  {
    hide Run, Possible, Continues, Able, B.HasLog;
    var s := Run(h);
    var i := SomeoneAble(s.logs, s.open);
    var ready := h;
    RunThen(h, Read(i));
    if s.open[i].stage == Waiting {
      ready := Then(h, Read(i));
      AbleStep(s, Read(i));
    }
    var send := Send(i, s.clock);
    AbleStep(Run(ready), send);
    RunThen(ready, send);
    later := Then(ready, send);
    ContinuesOn(h, ready, later);
  }

  /** All executions that can send do so at once. */
  lemma {:induction false} AllAtOnce(h: History) returns (later: History)
    requires Possible(h)
    ensures Possible(later) && Continues(h, later)
    ensures var s, t := Run(h), Run(later);
            t.clock == s.clock
            && Within(t.alerts, s.clock - HOURS_24, s.clock)
               == Within(s.alerts, s.clock - HOURS_24, s.clock) + Able(s.logs, s.open)
    decreases Able(Run(h).logs, Run(h).open)
  {
    hide Run, Possible, Able, Within;
    later := h;
    var s := Run(h);
    if Able(s.logs, s.open) > 0 {
      var next := OneMore(h);
      WithinPush(s.alerts, s.clock, s.clock - HOURS_24, s.clock);
      later := AllAtOnce(next);
      ContinuesOn(h, next, later);
    }
  }

  /**
   Out of a state that keeps the bound, everything that can happen before the next check keeps it if
   and only if the alerts of the last 24 hours and those that can still be sent are at most two
   together.
   */
  lemma PendingSendsIff(h: History)
    requires Possible(h) && Bounded(Run(h).alerts)
    ensures (forall later :: Continues(h, later) && Possible(later) ==> Bounded(Run(later).alerts)) <==> Safe(Run(h))
  {
    hide Run, Possible, Continues, Within, Able;
    RunOrdered(h);
    var s := Run(h);
    if Safe(s) {
      forall later | Continues(h, later) && Possible(later) ensures Bounded(Run(later).alerts) {
        SafeContinuation(h, later);
      }
    } else {
      var later := AllAtOnce(h);
      assert Window(Run(later).alerts, s.clock - HOURS_24) > MAX_ALERTS_PER_24H;
    }
  }

  /** Hence a check can be followed by alerts that break the bound if and only if it had no room. */
  lemma CheckIff(h: History, slotId: int, now: int, sends: nat)
    requires Possible(Then(h, Check(slotId, now, sends))) && Bounded(Run(h).alerts)
    ensures var after := Then(h, Check(slotId, now, sends));
            (forall later :: Continues(after, later) && Possible(later) ==> Bounded(Run(later).alerts))
            <==> Room(Run(h), slotId, now, sends)
  {
    var e := Check(slotId, now, sends);
    RunThen(h, e);
    hide Run, Possible, Continues;
    RoomIsSafe(Run(h), slotId, now, sends);
    hide Within, Step, Safe, Room, Enabled;
    PendingSendsIff(Then(h, e));
  }

  lemma RoomIsSafe(s: State, slotId: int, now: int, sends: nat)
    requires Enabled(s, Check(slotId, now, sends))
    ensures Safe(Step(s, Check(slotId, now, sends))) <==> Room(s, slotId, now, sends)
    ensures Step(s, Check(slotId, now, sends)).alerts == s.alerts
  {
    AbleStep(s, Check(slotId, now, sends));
    hide Within, Able, IsLogged, Allowed, Seen;
  }

  // ----- When the guard suffices -----

  /** Each log of an alert tells its time, and no two alerts share one. */
  ghost predicate LogsValid(s: State) {
    && (forall j :: 0 <= j < |s.unsaved| ==>
          s.unsaved[j].alert < |s.alerts| && s.unsaved[j].sentAt == s.alerts[s.unsaved[j].alert])
    && (forall a :: a in s.saved ==>
          && a < |s.alerts| && s.saved[a] < |s.logs|
          && s.logs[s.saved[a]].customerId == 0 && s.logs[s.saved[a]].sentAt == s.alerts[a])
    && (forall a, b :: a in s.saved && b in s.saved && a != b ==> s.saved[a] != s.saved[b])
  }

  lemma StepLogsValid(s: State, e: Event)
    requires LogsValid(s) && Enabled(s, e)
    ensures LogsValid(Step(s, e))
  {
    hide Allowed, IsLogged, Seen, Dispatched;
  }

  lemma {:induction false} RunLogsValid(h: History)
    requires Possible(h)
    ensures LogsValid(Run(h))
  {
    hide LogsValid, Step, Enabled;
    if h.Then? {
      RunLogsValid(h.before);
      StepLogsValid(Run(h.before), h.event);
    } else {
      NothingLogged();
    }
  }

  lemma NothingLogged()
    ensures LogsValid(Initial())
  {
  }

  predicate Counts(log: Log, cutoff: int) {
    log.customerId == 0 && log.status == SENT && log.sentAt >= cutoff
  }

  lemma {:induction false} OneCounted(logs: seq<Log>, p: nat, cutoff: int)
    requires p < |logs| && Counts(logs[p], cutoff)
    ensures SentSince(logs, 0, cutoff) >= 1
  {
    if p < |logs| - 1 {
      OneCounted(logs[..|logs| - 1], p, cutoff);
    }
  }

  lemma {:induction false} TwoCounted(logs: seq<Log>, p: nat, q: nat, cutoff: int)
    requires p < q < |logs| && Counts(logs[p], cutoff) && Counts(logs[q], cutoff)
    ensures SentSince(logs, 0, cutoff) >= 2
  {
    if q < |logs| - 1 {
      TwoCounted(logs[..|logs| - 1], p, q, cutoff);
    } else {
      OneCounted(logs[..|logs| - 1], p, cutoff);
    }
  }

  /** At most one alert of the set was sent from the time on. */
  ghost predicate FewSince(alerts: seq<int>, seen: set<nat>, from: int) {
    && (forall a :: a in seen ==> a < |alerts|)
    && (forall a, b :: a in seen && b in seen && a < b ==> alerts[a] < from)
  }

  /** A check passes only if it sees at most one alert of the 24 hours before it. */
  lemma CheckSees(s: State, now: int)
    requires Ordered(s) && LogsValid(s) && Allowed(s.logs, 0, now)
    ensures FewSince(s.alerts, Seen(s), now - HOURS_24)
  {
    hide SentSince;
    var from := now - HOURS_24;
    forall a, b | a in Seen(s) && b in Seen(s) && a < b ensures s.alerts[a] < from {
      if s.alerts[a] >= from {
        var p, q := s.saved[a], s.saved[b];
        assert Counts(s.logs[p], from) && Counts(s.logs[q], from);
        TwoCounted(s.logs, if p < q then p else q, if p < q then q else p, from);
      }
    }
  }

  lemma {:induction false} TwoWithin(times: seq<int>, a: int, b: int) returns (i: nat, j: nat)
    requires Within(times, a, b) >= 2
    ensures i < j < |times| && a <= times[i] <= b && a <= times[j] <= b
  {
    var n := |times| - 1;
    if a <= times[n] <= b {
      j := n;
      i := OneWithin(times[..n], a, b);
    } else {
      i, j := TwoWithin(times[..n], a, b);
    }
  }

  lemma {:induction false} OneWithin(times: seq<int>, a: int, b: int) returns (i: nat)
    requires Within(times, a, b) >= 1
    ensures i < |times| && a <= times[i] <= b
  {
    i := |times| - 1;
    if !(a <= times[i] <= b) {
      i := OneWithin(times[..i], a, b);
    }
  }

  /** The set holds every alert sent from the time on. */
  predicate HasAllSince(alerts: seq<int>, seen: set<nat>, from: int) {
    forall a :: 0 <= a < |alerts| && alerts[a] >= from ==> a in seen
  }

  /** If a set with few recent alerts holds all of them, there were few. */
  lemma FewWithin(alerts: seq<int>, seen: set<nat>, since: int, from: int, to: int)
    requires FewSince(alerts, seen, since) && HasAllSince(alerts, seen, from) && since <= from
    ensures Within(alerts, from, to) <= 1
  {
    if Within(alerts, from, to) >= 2 {
      var a, b := TwoWithin(alerts, from, to);
    }
  }

  /** Each alert of the 24 hours up to this one had its SENT log in the table at the check behind this one. */
  predicate Careful(s: State, e: Event) {
    e.Send? && e.i < |s.open| ==> HasAllSince(s.alerts, s.open[e.i].seen, e.now - HOURS_24)
  }

  predicate AllCareful(h: History) {
    h.Then? ==> AllCareful(h.before) && Careful(Run(h.before), h.event)
  }

  /** What the checks behind the open executions found. */
  ghost predicate ChecksValid(s: State) {
    forall i :: 0 <= i < |s.open| ==>
      s.open[i].at <= s.clock && FewSince(s.alerts, s.open[i].seen, s.open[i].at - HOURS_24)
  }

  lemma StepChecksValid(s: State, e: Event)
    requires Ordered(s) && LogsValid(s) && ChecksValid(s) && Enabled(s, e)
    ensures ChecksValid(Step(s, e))
  {
    if e.Check? {
      CheckSees(s, e.now);
      hide Allowed, Seen, IsLogged, FewSince;
    } else {
      AlertsStep(s, e);
      var t := Step(s, e);
      forall k | 0 <= k < |t.open|
        ensures t.open[k].at <= t.clock && FewSince(t.alerts, t.open[k].seen, t.open[k].at - HOURS_24)
      {
        var i := OldExecution(s, e, k);
        hide Step, Enabled, FewSince;
        assert FewSince(s.alerts, s.open[i].seen, s.open[i].at - HOURS_24);
        FewOn(s.alerts, t.alerts, s.open[i].seen, s.open[i].at - HOURS_24);
      }
    }
  }

  /** Later alerts do not matter to what a check saw. */
  lemma FewOn(alerts: seq<int>, alerts': seq<int>, seen: set<nat>, from: int)
    requires FewSince(alerts, seen, from) && alerts <= alerts'
    ensures FewSince(alerts', seen, from)
  {
  }

  /** Every open execution was there before, unless it is a check that dispatches it. */
  lemma OldExecution(s: State, e: Event, k: nat) returns (i: nat)
    requires !e.Check? && k < |Step(s, e).open|
    ensures i < |s.open| && Step(s, e).open[k].(stage := s.open[i].stage) == s.open[i]
  {
    hide IsLogged, Seen;
    var t := Step(s, e);
    i := k;
    if |t.open| < |s.open| && k >= e.i {
      i := k + 1;
    }
  }

  /** In a careful run at most one alert was sent in the 24 hours up to each alert. */
  lemma {:induction false} CarefulBounded(h: History)
    requires Possible(h) && AllCareful(h)
    ensures var s := Run(h); Ordered(s) && ChecksValid(s) && Bounded(s.alerts)
  {
    RunOrdered(h);
    hide Step, Ordered, ChecksValid, Bounded, Enabled, Careful;
    if h == Empty {
      NothingSent();
      NothingChecked();
    } else {
      var s := Run(h.before);
      CarefulBounded(h.before);
      RunLogsValid(h.before);
      StepChecksValid(s, h.event);
      CarefulStep(s, h.event);
    }
  }

  lemma NothingChecked()
    ensures ChecksValid(Initial())
  {
  }

  lemma CarefulStep(s: State, e: Event)
    requires Ordered(s) && ChecksValid(s) && Bounded(s.alerts) && Enabled(s, e) && Careful(s, e)
    ensures Bounded(Step(s, e).alerts)
  {
    hide Within, Bounded, Allowed, FewSince, HasAllSince;
    AlertsStep(s, e);
    if e.Send? {
      var x := s.open[e.i];
      FewWithin(s.alerts, x.seen, x.at - HOURS_24, e.now - HOURS_24, e.now);
      SendIff(s, e.now);
    }
  }

  /**
   If each alert of the 24 hours up to an alert had its SENT log in the table at the check behind it,
   any closed 24-hour window holds at most two alerts, however late each is sent after its check, and
   whatever other executions are open, fail, are lost or lose their logs.
   */
  lemma AtMostTwoIn24Hours(h: History, w: int)
    requires Possible(h) && AllCareful(h)
    ensures var alerts := Run(h).alerts;
            |set i | 0 <= i < |alerts| && w <= alerts[i] <= w + 86_400_000_000| <= 2
  {
    hide Run, Possible, AllCareful, Within;
    CarefulBounded(h);
    assert Window(Run(h).alerts, w) <= MAX_ALERTS_PER_24H;
    WithinCounts(Run(h).alerts, w, w + HOURS_24);
  }

  /** At a check no other execution can send, and the table has every alert of the last 24 hours as SENT. */
  predicate CheckedAlone(s: State, e: Event) {
    e.Check? ==> Able(s.logs, s.open) == 0 && HasAllSince(s.alerts, Seen(s), e.now - HOURS_24)
  }

  predicate OneByOne(h: History) {
    h.Then? ==>
      && OneByOne(h.before) && CheckedAlone(Run(h.before), h.event)
      && (h.event.Check? ==> h.event.sends <= 1)
  }

  /** When such a check dispatches one execution, the guard's own count gives it room. */
  lemma {:induction false} OneByOneHasRoom(h: History)
    requires Possible(h) && OneByOne(h)
    ensures AllRoom(h)
  {
    hide Step, Within, Able, Seen, HasAllSince, FewSince;
    if h.Then? {
      var s := Run(h.before);
      OneByOneHasRoom(h.before);
      RunOrdered(h.before);
      RunLogsValid(h.before);
      if h.event.Check? {
        CheckSees(s, h.event.now);
        FewWithin(s.alerts, Seen(s), h.event.now - HOURS_24, h.event.now - HOURS_24, h.event.now);
      }
    }
  }

  // ----- Broadcasts that are executed twice -----

  predicate SomeReady(open: seq<Execution>) {
    exists i :: 0 <= i < |open| && open[i].stage == Ready
  }

  /**
   Checks are made alone; an execution reads when no other is between its read and its commit; and no
   log of an alert is lost.
   */
  predicate Orderly(s: State, e: Event) {
    && CheckedAlone(s, e)
    && (e.Read? ==> !SomeReady(s.open) && s.unsaved == [])
    && !e.Lose?
  }

  predicate AllOrderly(h: History) {
    h.Then? ==> AllOrderly(h.before) && Orderly(Run(h.before), h.event)
  }

  predicate IsUnsaved(unsaved: seq<Unsaved>, slotId: int) {
    exists j :: 0 <= j < |unsaved| && unsaved[j].slotId == slotId
  }

  /** The execution will skip once the logs in sessions are committed. */
  predicate WillSkip(s: State, x: Execution) {
    x.stage == Waiting && (IsLogged(s.logs, x.slotId) || IsUnsaved(s.unsaved, x.slotId))
  }

  /**
   At most one execution has read; those that will not skip are for one slot, and the check behind
   them counted every alert of the last 24 hours.
   */
  ghost predicate InTurn(s: State) {
    && (forall i, j :: 0 <= i < j < |s.open| ==> s.open[i].stage == Waiting || s.open[j].stage == Waiting)
    && (forall i :: 0 <= i < |s.open| ==>
          WillSkip(s, s.open[i]) || HasAllSince(s.alerts, s.open[i].seen, s.clock - HOURS_24))
    && (forall i, j :: 0 <= i < j < |s.open| ==>
          WillSkip(s, s.open[i]) || WillSkip(s, s.open[j]) || s.open[i].slotId == s.open[j].slotId)
  }

  lemma WillSkipOn(s: State, t: State, x: Execution)
    requires WillSkip(s, x) && B.KeepsLogs(s.logs, t.logs)
    requires IsUnsaved(s.unsaved, x.slotId) ==> IsLogged(t.logs, x.slotId) || IsUnsaved(t.unsaved, x.slotId)
    ensures WillSkip(t, x)
  {
    if IsLogged(s.logs, x.slotId) {
      B.HasLogGrows(s.logs, t.logs, x.slotId, 0);
    }
  }

  /** A log not committed stays so or is committed, unless it is lost. */
  lemma UnsavedOn(s: State, e: Event, slotId: int)
    requires Enabled(s, e) && !e.Lose? && IsUnsaved(s.unsaved, slotId)
    ensures IsLogged(Step(s, e).logs, slotId) || IsUnsaved(Step(s, e).unsaved, slotId)
  {
    hide Seen, Allowed;
    var t := Step(s, e);
    var j :| 0 <= j < |s.unsaved| && s.unsaved[j].slotId == slotId;
    if e.Commit? {
      if j == e.j {
        assert t.logs[|s.logs|].slotId == slotId;
      } else {
        assert t.unsaved[if j < e.j then j else j - 1] == s.unsaved[j];
      }
    } else {
      assert t.unsaved[j] == s.unsaved[j];
    }
  }

  lemma SkipsOn(s: State, e: Event, x: Execution)
    requires Enabled(s, e) && !e.Lose? && WillSkip(s, x)
    ensures WillSkip(Step(s, e), x)
  {
    LogsKept(s, e);
    if IsUnsaved(s.unsaved, x.slotId) {
      UnsavedOn(s, e, x.slotId);
    }
    hide Step, Enabled, IsLogged, IsUnsaved, B.KeepsLogs;
    WillSkipOn(s, Step(s, e), x);
  }

  lemma {:induction false} NobodyAble(logs: seq<Log>, open: seq<Execution>, i: nat)
    requires Able(logs, open) == 0 && i < |open|
    ensures !CanSend(logs, open[i])
  {
    hide CanSend;
    if i < |open| - 1 {
      NobodyAble(logs, open[..|open| - 1], i);
    }
  }

  lemma CheckInTurn(s: State, e: Event)
    requires InTurn(s) && Enabled(s, e) && e.Check? && CheckedAlone(s, e)
    ensures InTurn(Step(s, e))
  {
    var t := Step(s, e);
    forall i | 0 <= i < |s.open| ensures WillSkip(t, t.open[i]) {
      NobodyAble(s.logs, s.open, i);
    }
    hide IsLogged, Allowed, Able, Seen, IsUnsaved, WillSkip;
  }

  lemma InTurnWithout(s: State, i: nat)
    requires InTurn(s) && i < |s.open|
    ensures InTurn(s.(open := Without(s.open, i)))
  {
    hide IsLogged, IsUnsaved, HasAllSince;
    var open := Without(s.open, i);
    assert forall k :: 0 <= k < |open| ==> open[k] == s.open[if k < i then k else k + 1];
  }

  /** An execution reads, and finds no log. */
  lemma ReadyInTurn(s: State, i: nat)
    requires InTurn(s) && i < |s.open| && !SomeReady(s.open) && s.unsaved == [] && !IsLogged(s.logs, s.open[i].slotId)
    ensures InTurn(s.(open := s.open[i := s.open[i].(stage := Ready)]))
  {
    hide IsLogged, HasAllSince;
    var t := s.(open := s.open[i := s.open[i].(stage := Ready)]);
    assert !IsUnsaved(s.unsaved, s.open[i].slotId);
    assert forall k :: 0 <= k < |t.open| && k != i ==> t.open[k] == s.open[k];
    assert forall k :: 0 <= k < |t.open| && k != i ==> WillSkip(t, t.open[k]) == WillSkip(s, s.open[k]);
    hide IsUnsaved, WillSkip;
  }

  lemma ReadInTurn(s: State, e: Event)
    requires InTurn(s) && Enabled(s, e) && e.Read? && Orderly(s, e)
    ensures InTurn(Step(s, e))
  {
    hide IsLogged, InTurn, SomeReady, CheckedAlone;
    if IsLogged(s.logs, s.open[e.i].slotId) {
      InTurnWithout(s, e.i);
    } else {
      ReadyInTurn(s, e.i);
    }
  }

  lemma SendInTurn(s: State, e: Event)
    requires InTurn(s) && Enabled(s, e) && e.Send?
    ensures InTurn(Step(s, e))
  {
    var t, slotId := Step(s, e), s.open[e.i].slotId;
    assert t.unsaved[|s.unsaved|].slotId == slotId;
    assert !WillSkip(s, s.open[e.i]);
    forall k | 0 <= k < |t.open| ensures WillSkip(t, t.open[k]) {
      var i := if k < e.i then k else k + 1;
      assert t.open[k] == s.open[i];
      if WillSkip(s, s.open[i]) {
        SkipsOn(s, e, s.open[i]);
      }
    }
    hide WillSkip, HasAllSince;
  }

  lemma OtherInTurn(s: State, e: Event)
    requires InTurn(s) && Enabled(s, e) && !e.Lose? && !e.Check? && !e.Read? && !e.Send?
    ensures InTurn(Step(s, e))
  {
    if e.Lapse? {
      InTurnWithout(s, e.i);
    } else {
      AlertsStep(s, e);
      var t := Step(s, e);
      forall k | 0 <= k < |s.open| && WillSkip(s, s.open[k]) ensures WillSkip(t, s.open[k]) {
        SkipsOn(s, e, s.open[k]);
      }
      hide WillSkip, HasAllSince, IsLogged, Seen, Enabled, InTurn;
      InTurnOn(s, t);
    }
  }

  lemma InTurnOn(s: State, t: State)
    requires InTurn(s) && t.open == s.open && t.alerts == s.alerts && s.clock <= t.clock
    requires forall k :: 0 <= k < |s.open| && WillSkip(s, s.open[k]) ==> WillSkip(t, s.open[k])
    ensures InTurn(t)
  {
    hide WillSkip, HasAllSince;
    forall k | 0 <= k < |s.open| && HasAllSince(s.alerts, s.open[k].seen, s.clock - HOURS_24)
      ensures HasAllSince(t.alerts, s.open[k].seen, t.clock - HOURS_24)
    {
      WindowMoves(s, t, s.open[k].seen);
    }
  }

  lemma WindowMoves(s: State, t: State, seen: set<nat>)
    requires t.alerts == s.alerts && s.clock <= t.clock && HasAllSince(s.alerts, seen, s.clock - HOURS_24)
    ensures HasAllSince(t.alerts, seen, t.clock - HOURS_24)
  {
  }

  /**
   When each broadcast is executed twice, and its executions, checks and commits do not overlap, the
   checks behind all alerts counted what they should: the second execution finds the first one's log.
   */
  lemma {:induction false} OrderlyIsCareful(h: History)
    requires Possible(h) && AllOrderly(h)
    ensures AllCareful(h) && InTurn(Run(h))
  {
    hide Step, InTurn, Orderly, Enabled, Careful;
    if h == Empty {
      NothingInTurn();
    } else {
      OrderlyIsCareful(h.before);
      OrderlyStep(Run(h.before), h.event);
    }
  }

  lemma NothingInTurn()
    ensures InTurn(Initial())
  {
  }

  lemma OrderlyStep(s: State, e: Event)
    requires InTurn(s) && Enabled(s, e) && Orderly(s, e)
    ensures InTurn(Step(s, e)) && Careful(s, e)
  {
    if e.Check? {
      CheckInTurn(s, e);
    } else if e.Read? {
      ReadInTurn(s, e);
    } else if e.Send? {
      SendInTurn(s, e);
      assert !WillSkip(s, s.open[e.i]);
    } else {
      OtherInTurn(s, e);
    }
    hide Step, WillSkip, Able, IsLogged, Allowed;
  }

  // ----- Runs that break the bound -----

  /** A check, the one execution it dispatches, and the fate of the log; all at time 0. */
  function OneAlert(h: History, slotId: int, kept: bool): History {
    Then(Then(Then(Then(h, Check(slotId, 0, 1)), Read(0)), Send(0, 0)), if kept then Commit(0) else Lose(0))
  }

  /** Nothing is under way. */
  predicate Quiet(s: State) {
    s.open == [] && s.unsaved == [] && s.clock == 0
  }

  lemma OneAlertRun(h: History, slotId: int, kept: bool)
    requires Possible(h) && Quiet(Run(h)) && Allowed(Run(h).logs, 0, 0) && !IsLogged(Run(h).logs, slotId)
    ensures var after := OneAlert(h, slotId, kept);
            && Possible(after) && Quiet(Run(after)) && Run(after).alerts == Run(h).alerts + [0]
            && Run(after).logs == Run(h).logs + if kept then [Log(slotId, 0, SENT, 0)] else []
  {
    hide Run, Possible, Allowed, IsLogged, Seen;
    var s, check := Run(h), Check(slotId, 0, 1);
    RunThen(h, check);
    assert Dispatched(s, slotId, 0, 1) == [Execution(slotId, 0, Seen(s), Waiting)];
    RunThen(Then(h, check), Read(0));
    RunThen(Then(Then(h, check), Read(0)), Send(0, 0));
    RunThen(Then(Then(Then(h, check), Read(0)), Send(0, 0)), if kept then Commit(0) else Lose(0));
  }

  lemma FewLogged(logs: seq<Log>, slotId: int)
    requires |logs| <= 2 && forall i :: 0 <= i < |logs| ==> logs[i].slotId != slotId
    requires |logs| == 2 ==> logs[0].status != SENT
    ensures Allowed(logs, 0, 0) && !IsLogged(logs, slotId)
    ensures Quiet(Initial()) && Initial().logs == [] && Initial().alerts == []
  {
    if |logs| > 0 {
      var front := logs[..|logs| - 1];
      assert SentSince(front, 0, 0 - HOURS_24) <= if |logs| == 2 then 0 else 1 by {
        assert |front| == 1 ==> front[0] == logs[0] && front[..0] == [];
      }
    }
  }

  /** A check of a customer without logs, at time 0. */
  lemma FirstCheck(h: History, slotId: int)
    requires Possible(h) && Run(h).logs == [] && Run(h).clock == 0
    ensures var s, after := Run(h), Then(h, Check(slotId, 0, 1));
            && Possible(after)
            && Run(after) == s.(open := s.open + [Execution(slotId, 0, Seen(s), Waiting)])
  {
    RunThen(h, Check(slotId, 0, 1));
    assert Dispatched(Run(h), slotId, 0, 1) == [Execution(slotId, 0, Seen(Run(h)), Waiting)];
    hide Run, Possible, IsLogged;
  }

  lemma FirstRead(h: History, i: nat)
    requires Possible(h) && Run(h).logs == [] && i < |Run(h).open| && Run(h).open[i].stage == Waiting
    ensures var s, after := Run(h), Then(h, Read(i));
            Possible(after) && Run(after) == s.(open := s.open[i := s.open[i].(stage := Ready)])
  {
    RunThen(h, Read(i));
    hide Run, Possible;
  }

  lemma NextSend(h: History)
    requires Possible(h) && Run(h).open != [] && Run(h).open[0].stage == Ready && Run(h).clock == 0
    ensures var s, after := Run(h), Then(h, Send(0, 0));
            && Possible(after)
            && Run(after).open == s.open[1..] && Run(after).alerts == s.alerts + [0] && Run(after).clock == 0
  {
    RunThen(h, Send(0, 0));
    hide Run, Possible;
  }

  /** Three broadcasts checked before any of them is sent let three alerts through at once. */
  lemma OverlappingChecks()
    ensures var checked := Then(Then(Then(Empty, Check(1, 0, 1)), Check(2, 0, 1)), Check(3, 0, 1));
            var read := Then(Then(Then(checked, Read(0)), Read(1)), Read(2));
            var sent := Then(Then(Then(read, Send(0, 0)), Send(0, 0)), Send(0, 0));
            Possible(sent) && Run(sent).alerts == [0, 0, 0]
  {
    RunThen(Empty, Check(1, 0, 1));
    hide Run, Possible, Seen;
    FirstCheck(Empty, 1);
    FirstCheck(Then(Empty, Check(1, 0, 1)), 2);
    FirstCheck(Then(Then(Empty, Check(1, 0, 1)), Check(2, 0, 1)), 3);
    var checked := Then(Then(Then(Empty, Check(1, 0, 1)), Check(2, 0, 1)), Check(3, 0, 1));
    FirstRead(checked, 0);
    FirstRead(Then(checked, Read(0)), 1);
    FirstRead(Then(Then(checked, Read(0)), Read(1)), 2);
    var read := Then(Then(Then(checked, Read(0)), Read(1)), Read(2));
    NextSend(read);
    NextSend(Then(read, Send(0, 0)));
    NextSend(Then(Then(read, Send(0, 0)), Send(0, 0)));
  }

  /**
   One check of one broadcast: with one alert logged, both its executions read before either commits.
   The check had room for one execution, not for two.
   */
  lemma TwoExecutionsOfOneCheck()
    ensures var h := OneAlert(Empty, 1, true);
            var read := Then(Then(Then(h, Check(2, 0, 2)), Read(0)), Read(1));
            var sent := Then(Then(read, Send(0, 0)), Send(0, 0));
            && Possible(sent) && Run(sent).alerts == [0, 0, 0]
            && Room(Run(h), 2, 0, 1) && !Room(Run(h), 2, 0, 2)
  {
    FewLogged([], 1);
    RunThen(Empty, Check(1, 0, 1));
    OneAlertRun(Empty, 1, true);
    var h, check := OneAlert(Empty, 1, true), Check(2, 0, 2);
    var s := Run(h);
    assert [] + [Log(1, 0, SENT, 0)] == [Log(1, 0, SENT, 0)] && [] + [0] == [0];
    FewLogged(s.logs, 2);
    assert Within([0], 0 - HOURS_24, 0) == 1 by {
      assert [0][..0] == [];
    }
    hide Run, Possible, Allowed, IsLogged, Seen, OneAlert, Within;
    RunThen(h, check);
    var x := Execution(2, 0, Seen(s), Waiting);
    assert Dispatched(s, 2, 0, 2) == [x, x];
    RunThen(Then(h, check), Read(0));
    RunThen(Then(Then(h, check), Read(0)), Read(1));
    NextSend(Then(Then(Then(h, check), Read(0)), Read(1)));
    NextSend(Then(Then(Then(Then(h, check), Read(0)), Read(1)), Send(0, 0)));
  }

  /** Logs that die with their executions leave nothing to count. */
  lemma {:induction false} LostLogsReopenTheGuard()
    ensures var h := OneAlert(OneAlert(OneAlert(Empty, 1, false), 2, false), 3, false);
            Possible(h) && Run(h).alerts == [0, 0, 0]
  {
    FewLogged([], 1);
    FewLogged([], 2);
    FewLogged([], 3);
    RunThen(Empty, Check(1, 0, 1));
    OneAlertRun(Empty, 1, false);
    hide Run, Possible, Allowed, IsLogged, OneAlert;
    OneAlertRun(OneAlert(Empty, 1, false), 2, false);
    OneAlertRun(OneAlert(OneAlert(Empty, 1, false), 2, false), 3, false);
  }

  lemma ReceiptRun(h: History, i: nat, status: Delivery)
    requires Possible(h) && i < |Run(h).logs|
    ensures var s, after := Run(h), Then(h, Receipt(i, status));
            Possible(after) && Run(after) == s.(logs := s.logs[i := s.logs[i].(status := status)])
  {
    RunThen(h, Receipt(i, status));
  }

  lemma TwoAlerts()
    ensures var h := OneAlert(OneAlert(Empty, 1, true), 2, true);
            && Possible(h) && Quiet(Run(h)) && Run(h).alerts == [0, 0]
            && Run(h).logs == [Log(1, 0, SENT, 0), Log(2, 0, SENT, 0)]
  {
    hide *;
    FewLogged([], 1);
    FewLogged([Log(1, 0, SENT, 0)], 2);
    RunThen(Empty, Check(1, 0, 1));
    OneAlertRun(Empty, 1, true);
    assert Run(OneAlert(Empty, 1, true)).logs == [Log(1, 0, SENT, 0)];
    OneAlertRun(OneAlert(Empty, 1, true), 2, true);
  }

  /** A delivery receipt takes an alert out of the count, so a third alert passes the guard at once. */
  lemma ReceiptsReopenTheGuard()
    ensures var h := Then(OneAlert(OneAlert(Empty, 1, true), 2, true), Receipt(0, DELIVERED));
            Possible(OneAlert(h, 3, true)) && Run(OneAlert(h, 3, true)).alerts == [0, 0, 0]
  {
    TwoAlerts();
    hide Run, Possible, Allowed, IsLogged, OneAlert, Step;
    var h := OneAlert(OneAlert(Empty, 1, true), 2, true);
    ReceiptRun(h, 0, DELIVERED);
    var after := Then(h, Receipt(0, DELIVERED));
    assert Run(after).logs == [Log(1, 0, DELIVERED, 0), Log(2, 0, SENT, 0)];
    FewLogged(Run(after).logs, 3);
    OneAlertRun(after, 3, true);
  }
}
