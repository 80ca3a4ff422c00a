/**
 The executions of broadcasts, interleaved step by step. An execution reads which recipients have a
 log for the slot, sends to the others one by one, and commits its logs at the end; it may die at
 any point, and its logs with it.
 */
module BroadcastProtocol {
  import opened Database

  predicate HasLog(logs: seq<Log>, slotId: int, customerId: int) {
    exists i :: 0 <= i < |logs| && logs[i].slotId == slotId && logs[i].customerId == customerId
  }

  predicate IsRecipient(recipients: seq<int>, customers: set<int>, logs: seq<Log>, slotId: int, c: int) {
    c in recipients && c in customers && !HasLog(logs, slotId, c)
  }

  /** An alert, the execution that sent it, and the executions that had committed when that one read. */
  datatype Sent = Sent(alert: Alert, sender: nat, seen: set<nat>)

  /** An execution between its read and its commit: customers still to alert, logs not yet committed. */
  datatype Execution = Execution(slotId: int, todo: set<int>, written: seq<Log>, seen: set<nat>)

  /** The table of logs, the alerts sent, and every execution so far: under way, committed or dead. */
  datatype World = World(logs: seq<Log>, sent: seq<Sent>, running: map<nat, Execution>,
                         committed: map<nat, seq<Log>>, crashed: set<nat>)

  /** Owner notifications add logs, receipts rewrite the status of one. */
  datatype Event =
    | Read(e: nat, slotId: int, recipients: seq<int>, customers: set<int>)
    | Send(e: nat, customerId: int, delivered: bool, now: int)
    | Commit(e: nat)
    | Crash(e: nat)
    | OtherLog(log: Log)
    | Receipt(i: nat, status: Delivery)

  predicate IsFresh(w: World, e: nat) {
    e !in w.running && e !in w.committed && e !in w.crashed
  }

  /** An event that cannot happen leaves the world unchanged. */
  function Step(w: World, ev: Event): World {
    match ev
    case Read(e, slotId, recipients, customers) =>
      if !IsFresh(w, e) then w
      else
        var todo := set c | c in recipients && IsRecipient(recipients, customers, w.logs, slotId, c);
        w.(running := w.running[e := Execution(slotId, todo, [], w.committed.Keys)])
    case Send(e, c, delivered, now) =>
      if e !in w.running || c !in w.running[e].todo then w
      else
        var x := w.running[e];
        var log := Log(x.slotId, c, if delivered then SENT else FAILED, now);
        w.(sent := w.sent + [Sent(Alert(x.slotId, c), e, x.seen)],
           running := w.running[e := x.(todo := x.todo - {c}, written := x.written + [log])])
    case Commit(e) =>
      if e !in w.running || w.running[e].todo != {} then w
      else
        w.(logs := w.logs + w.running[e].written, running := w.running - {e},
           committed := w.committed[e := w.running[e].written])
    case Crash(e) =>
      if e !in w.running then w
      else w.(running := w.running - {e}, crashed := w.crashed + {e})
    case OtherLog(log) => w.(logs := w.logs + [log])
    case Receipt(i, status) =>
      if i < |w.logs| then w.(logs := w.logs[i := w.logs[i].(status := status)]) else w
  }

  /** Whatever logs there are, nothing sent yet. */
  function Initial(logs: seq<Log>): World {
    World(logs, [], map[], map[], {})
  }

  function Run(w: World, events: seq<Event>): World {
    if events == [] then w else Step(Run(w, events[..|events| - 1]), events[|events| - 1])
  }

  // ----- What every interleaving keeps -----

  /** The alerts one execution sent, in order. */
  function AlertsOf(sent: seq<Sent>, e: nat): seq<Alert> {
    if sent == [] then []
    else
      var last := sent[|sent| - 1];
      AlertsOf(sent[..|sent| - 1], e) + if last.sender == e then [last.alert] else []
  }

  /** The slots and customers of a sequence of logs. */
  function Targets(logs: seq<Log>): (r: seq<Alert>)
    ensures |r| == |logs|
  {
    seq(|logs|, i requires 0 <= i < |logs| => Alert(logs[i].slotId, logs[i].customerId))
  }

  ghost predicate Unique<T(!new)>(s: seq<T>) {
    forall i, j :: 0 <= i < j < |s| ==> s[i] != s[j]
  }

  /** Logs that record exactly the alerts of an execution: one each, SENT or FAILED, no customer twice. */
  ghost predicate Records(logs: seq<Log>, alerts: seq<Alert>) {
    && Targets(logs) == alerts && Unique(alerts)
    && forall i :: 0 <= i < |logs| ==> logs[i].status == SENT || logs[i].status == FAILED
  }

  /** The executions whose alerts all have a log in the table. */
  ghost predicate Logged(logs: seq<Log>, sent: seq<Sent>, committed: set<nat>) {
    forall e, a :: e in committed && a in AlertsOf(sent, e) ==> HasLog(logs, a.slotId, a.customerId)
  }

  /** An execution under way knows nothing of alerts by others than those it saw, and has none of those left to do. */
  ghost predicate ExecutionValid(w: World, e: nat, x: Execution) {
    && x.seen <= w.committed.Keys
    && Records(x.written, AlertsOf(w.sent, e))
    && (forall c :: c in x.todo ==> Alert(x.slotId, c) !in AlertsOf(w.sent, e))
    && (forall c, d :: c in x.todo && d in x.seen ==> Alert(x.slotId, c) !in AlertsOf(w.sent, d))
  }

  /** Of two equal alerts the second comes from an execution that had not seen the first one's. */
  ghost predicate RepeatsUnseen(sent: seq<Sent>) {
    forall i, j :: 0 <= i < j < |sent| && sent[i].alert == sent[j].alert ==>
      sent[i].sender != sent[j].sender && sent[i].sender !in sent[j].seen
  }

  ghost predicate SendersKnown(w: World) {
    forall i :: 0 <= i < |w.sent| ==> !IsFresh(w, w.sent[i].sender)
  }

  ghost predicate Valid(w: World) {
    && w.running.Keys !! w.committed.Keys && w.running.Keys !! w.crashed && w.committed.Keys !! w.crashed
    && SendersKnown(w)
    && (forall e :: e in w.running ==> ExecutionValid(w, e, w.running[e]))
    && (forall e :: e in w.committed ==> Records(w.committed[e], AlertsOf(w.sent, e)))
    && Logged(w.logs, w.sent, w.committed.Keys)
    && RepeatsUnseen(w.sent)
  }

  lemma AlertsPush(sent: seq<Sent>, last: Sent, e: nat)
    ensures AlertsOf(sent + [last], e) == AlertsOf(sent, e) + if last.sender == e then [last.alert] else []
  {
    assert (sent + [last])[..|sent|] == sent;
  }

  lemma {:induction false} AlertsHave(sent: seq<Sent>, e: nat, a: Alert)
    ensures a in AlertsOf(sent, e) <==> exists i :: 0 <= i < |sent| && sent[i].sender == e && sent[i].alert == a
  {
    if sent != [] {
      var front, last := sent[..|sent| - 1], sent[|sent| - 1];
      AlertsHave(front, e, a);
      assert sent == front + [last];
      if a in AlertsOf(front, e) {
        var i :| 0 <= i < |front| && front[i].sender == e && front[i].alert == a;
        assert sent[i].sender == e && sent[i].alert == a;
      }
    }
  }

  lemma AlertAt(sent: seq<Sent>, i: nat)
    requires i < |sent|
    ensures sent[i].alert in AlertsOf(sent, sent[i].sender)
  {
    AlertsHave(sent, sent[i].sender, sent[i].alert);
  }

  lemma {:induction false} NoAlertsOf(sent: seq<Sent>, e: nat)
    requires forall i :: 0 <= i < |sent| ==> sent[i].sender != e
    ensures AlertsOf(sent, e) == []
  {
    if sent != [] {
      NoAlertsOf(sent[..|sent| - 1], e);
    }
  }

  /** Logs are added or change their status, nothing else. */
  ghost predicate KeepsLogs(logs: seq<Log>, logs': seq<Log>) {
    |logs| <= |logs'| && forall i :: 0 <= i < |logs| ==>
      logs'[i].slotId == logs[i].slotId && logs'[i].customerId == logs[i].customerId
  }

  lemma HasLogGrows(logs: seq<Log>, logs': seq<Log>, slotId: int, c: int)
    requires KeepsLogs(logs, logs') && HasLog(logs, slotId, c)
    ensures HasLog(logs', slotId, c)
  {
    var i :| 0 <= i < |logs| && logs[i].slotId == slotId && logs[i].customerId == c;
    assert logs'[i].slotId == slotId && logs'[i].customerId == c;
  }

  lemma LoggedGrows(logs: seq<Log>, logs': seq<Log>, sent: seq<Sent>, committed: set<nat>)
    requires Logged(logs, sent, committed) && KeepsLogs(logs, logs')
    ensures Logged(logs', sent, committed)
  {
    hide HasLog, AlertsOf;
    forall e, a | e in committed && a in AlertsOf(sent, e) ensures HasLog(logs', a.slotId, a.customerId) {
      HasLogGrows(logs, logs', a.slotId, a.customerId);
    }
  }

  lemma ReadValid(w: World, ev: Event)
    requires Valid(w) && ev.Read?
    ensures Valid(Step(w, ev))
  {
    hide AlertsOf, HasLog, RepeatsUnseen;
    var t := Step(w, ev);
    if IsFresh(w, ev.e) {
      var x := t.running[ev.e];
      NoAlertsOf(w.sent, ev.e);
      forall c, d | c in x.todo && d in x.seen ensures Alert(x.slotId, c) !in AlertsOf(w.sent, d) {
        assert Alert(x.slotId, c) in AlertsOf(w.sent, d) ==> HasLog(w.logs, x.slotId, c);
      }
      assert ExecutionValid(t, ev.e, x);
      forall e | e in t.running ensures ExecutionValid(t, e, t.running[e]) {
        assert e != ev.e ==> ExecutionValid(w, e, w.running[e]);
      }
    }
  }

  /** The log of an alert extends the record of its execution. */
  lemma RecordsPush(logs: seq<Log>, alerts: seq<Alert>, log: Log)
    requires Records(logs, alerts) && Alert(log.slotId, log.customerId) !in alerts
    requires log.status == SENT || log.status == FAILED
    ensures Records(logs + [log], alerts + [Alert(log.slotId, log.customerId)])
  {
    assert forall i :: 0 <= i < |alerts| ==> alerts[i] in alerts;
  }

  lemma SendUnseen(w: World, e: nat, c: int)
    requires Valid(w) && e in w.running && c in w.running[e].todo
    ensures var x := w.running[e]; RepeatsUnseen(w.sent + [Sent(Alert(x.slotId, c), e, x.seen)])
  {
    hide AlertsOf, Records;
    var x := w.running[e];
    var last := Sent(Alert(x.slotId, c), e, x.seen);
    assert ExecutionValid(w, e, x);
    forall i | 0 <= i < |w.sent| && w.sent[i].alert == last.alert
      ensures w.sent[i].sender != e && w.sent[i].sender !in x.seen
    {
      AlertAt(w.sent, i);
    }
  }

  lemma SendValid(w: World, ev: Event)
    requires Valid(w) && ev.Send?
    ensures Valid(Step(w, ev))
  {
    hide AlertsOf, HasLog, Records, RepeatsUnseen;
    var t := Step(w, ev);
    if ev.e in w.running && ev.customerId in w.running[ev.e].todo {
      var e, c, x := ev.e, ev.customerId, w.running[ev.e];
      var a := Alert(x.slotId, c);
      var last := Sent(a, e, x.seen);
      assert ExecutionValid(w, e, x);
      SendUnseen(w, e, c);
      var log := Log(x.slotId, c, if ev.delivered then SENT else FAILED, ev.now);
      forall d
        ensures d != e ==> AlertsOf(t.sent, d) == AlertsOf(w.sent, d)
        ensures AlertsOf(t.sent, e) == AlertsOf(w.sent, e) + [a]
      {
        AlertsPush(w.sent, last, d);
        AlertsPush(w.sent, last, e);
      }
      RecordsPush(x.written, AlertsOf(w.sent, e), log);
      assert ExecutionValid(t, e, t.running[e]);
      forall d | d in t.running ensures ExecutionValid(t, d, t.running[d]) {
        assert d != e ==> ExecutionValid(w, d, w.running[d]);
      }
    }
  }

  lemma CommitValid(w: World, ev: Event)
    requires Valid(w) && ev.Commit?
    ensures Valid(Step(w, ev))
  {
    hide AlertsOf, HasLog, Records, RepeatsUnseen;
    var t := Step(w, ev);
    if t != w {
      var x := w.running[ev.e];
      assert ExecutionValid(w, ev.e, x);
      LoggedGrows(w.logs, t.logs, w.sent, w.committed.Keys);
      RecordsAreLogs(w.logs, x.written, AlertsOf(w.sent, ev.e));
      forall d | d in t.running ensures ExecutionValid(t, d, t.running[d]) {
        assert ExecutionValid(w, d, w.running[d]);
      }
    }
  }

  lemma RecordsAreLogs(logs: seq<Log>, written: seq<Log>, alerts: seq<Alert>)
    requires Records(written, alerts)
    ensures forall a :: a in alerts ==> HasLog(logs + written, a.slotId, a.customerId)
  {
    forall a | a in alerts ensures HasLog(logs + written, a.slotId, a.customerId) {
      var i :| 0 <= i < |alerts| && alerts[i] == a;
      assert Targets(written)[i] == a && (logs + written)[|logs| + i] == written[i];
    }
  }

  lemma OtherValid(w: World, ev: Event)
    requires Valid(w) && (ev.Crash? || ev.OtherLog? || ev.Receipt?)
    ensures Valid(Step(w, ev))
  {
    hide AlertsOf, HasLog, Records, RepeatsUnseen;
    var t := Step(w, ev);
    LoggedGrows(w.logs, t.logs, w.sent, w.committed.Keys);
    forall d | d in t.running ensures ExecutionValid(t, d, t.running[d]) {
      assert ExecutionValid(w, d, w.running[d]);
    }
  }

  lemma StepValid(w: World, ev: Event)
    requires Valid(w)
    ensures Valid(Step(w, ev))
  {
    hide Valid, Step;
    match ev {
      case Read(_, _, _, _) => ReadValid(w, ev);
      case Send(_, _, _, _) => SendValid(w, ev);
      case Commit(_) => CommitValid(w, ev);
      case _ => OtherValid(w, ev);
    }
  }

  lemma {:induction false} RunValid(logs: seq<Log>, events: seq<Event>)
    ensures Valid(Run(Initial(logs), events))
  {
    hide Step, Valid;
    if events == [] {
      NothingSent(logs);
    } else {
      RunValid(logs, events[..|events| - 1]);
      StepValid(Run(Initial(logs), events[..|events| - 1]), events[|events| - 1]);
    }
  }

  lemma NothingSent(logs: seq<Log>)
    ensures Valid(Initial(logs))
  {
  }

  /**
   For every interleaving: the logs an execution committed are one for each of its alerts, in
   order, SENT or FAILED when written, and no execution alerts a customer twice.
   */
  lemma OneLogPerAlert(logs: seq<Log>, events: seq<Event>, e: nat)
    ensures var w := Run(Initial(logs), events);
            e in w.committed ==>
              && Targets(w.committed[e]) == AlertsOf(w.sent, e)
              && Unique(AlertsOf(w.sent, e))
              && forall i :: 0 <= i < |w.committed[e]| ==> w.committed[e][i].status in {SENT, FAILED}
  {
    hide Run, AlertsOf;
    RunValid(logs, events);
  }

  // ----- Exactly when a customer is alerted twice -----

  /** The customer was alerted about the slot before. */
  ghost predicate Alerted(w: World, slotId: int, c: int) {
    exists i :: 0 <= i < |w.sent| && w.sent[i].alert == Alert(slotId, c)
  }

  /**
   For every interleaving: an execution about to alert a customer repeats an alert if and only if
   one was sent by an execution that had not committed when this one read, be it dead, under way
   or later.
   */
  lemma RepeatIff(logs: seq<Log>, events: seq<Event>, e: nat, c: int)
    requires var w := Run(Initial(logs), events); e in w.running && c in w.running[e].todo
    ensures var w := Run(Initial(logs), events);
            Alerted(w, w.running[e].slotId, c)
            <==> exists i :: 0 <= i < |w.sent| && w.sent[i].alert == Alert(w.running[e].slotId, c)
                             && w.sent[i].sender !in w.running[e].seen
  {
    hide Run, AlertsOf, Records;
    RunValid(logs, events);
    var w := Run(Initial(logs), events);
    var x := w.running[e];
    assert ExecutionValid(w, e, x);
    forall i | 0 <= i < |w.sent| && w.sent[i].alert == Alert(x.slotId, c) ensures w.sent[i].sender !in x.seen {
      AlertAt(w.sent, i);
    }
  }

  /**
   For every interleaving: an execution that reads now finds a customer to alert who was alerted
   before if and only if an execution dead or under way has alerted one of its recipients who has
   no log.
   */
  lemma ReadIff(logs: seq<Log>, events: seq<Event>, e: nat, slotId: int, recipients: seq<int>,
          customers: set<int>)
    requires IsFresh(Run(Initial(logs), events), e)
    ensures var w := Run(Initial(logs), events);
            var todo := Step(w, Read(e, slotId, recipients, customers)).running[e].todo;
            (exists c :: c in todo && Alerted(w, slotId, c))
            <==> exists i :: 0 <= i < |w.sent| && w.sent[i].sender !in w.committed && w.sent[i].alert.slotId == slotId
                             && IsRecipient(recipients, customers, w.logs, slotId, w.sent[i].alert.customerId)
  {
    hide Run, AlertsOf, Records;
    RunValid(logs, events);
    var w := Run(Initial(logs), events);
    var todo := Step(w, Read(e, slotId, recipients, customers)).running[e].todo;
    hide HasLog;
    forall i | 0 <= i < |w.sent| && w.sent[i].alert.slotId == slotId && w.sent[i].alert.customerId in todo
      ensures w.sent[i].sender !in w.committed
    {
      AlertAt(w.sent, i);
    }
    forall i | 0 <= i < |w.sent| && w.sent[i].alert.slotId == slotId
      ensures Alerted(w, slotId, w.sent[i].alert.customerId)
    {
      assert w.sent[i].alert == Alert(slotId, w.sent[i].alert.customerId);
    }
  }

  /** Two equal alerts never come from one execution, nor from one that had seen the other's logs. */
  lemma RepeatsComeFromOverlap(logs: seq<Log>, events: seq<Event>, i: nat, j: nat)
    requires var w := Run(Initial(logs), events); i < j < |w.sent| && w.sent[i].alert == w.sent[j].alert
    ensures var w := Run(Initial(logs), events);
            w.sent[i].sender != w.sent[j].sender && w.sent[i].sender !in w.sent[j].seen
  {
    hide Run, AlertsOf;
    RunValid(logs, events);
  }

  /** All alerts in order. */
  function AllAlerts(sent: seq<Sent>): (r: seq<Alert>)
    ensures |r| == |sent|
  {
    seq(|sent|, i requires 0 <= i < |sent| => sent[i].alert)
  }

  /** Event k of the run is a send to a customer alerted by an execution that had not committed when this one read. */
  ghost predicate RepeatsAt(logs: seq<Log>, events: seq<Event>, k: nat)
    requires k < |events|
  {
    var w, ev := Run(Initial(logs), events[..k]), events[k];
    && ev.Send? && ev.e in w.running && ev.customerId in w.running[ev.e].todo
    && exists i :: 0 <= i < |w.sent| && w.sent[i].alert == Alert(w.running[ev.e].slotId, ev.customerId)
                   && w.sent[i].sender !in w.running[ev.e].seen
  }

  /** No customer is sent two alerts for one slot in a run if and only if it has no such send. */
  lemma {:induction false} UniqueIff(logs: seq<Log>, events: seq<Event>)
    ensures Unique(AllAlerts(Run(Initial(logs), events).sent))
            <==> forall k :: 0 <= k < |events| ==> !RepeatsAt(logs, events, k)
    decreases |events|
  {
    if events != [] {
      var n := |events| - 1;
      var before, ev := events[..n], events[n];
      var w := Run(Initial(logs), before);
      UniqueIff(logs, before);
      assert Run(Initial(logs), events) == Step(w, ev);
      forall k | 0 <= k < n ensures RepeatsAt(logs, before, k) == RepeatsAt(logs, events, k) {
        assert before[..k] == events[..k];
      }
      hide Run;
      if ev.Send? && ev.e in w.running && ev.customerId in w.running[ev.e].todo {
        var x := w.running[ev.e];
        RepeatIff(logs, before, ev.e, ev.customerId);
        UniquePush(w, Sent(Alert(x.slotId, ev.customerId), ev.e, x.seen));
      } else {
        OthersSendNothing(w, ev);
      }
      hide RepeatsAt, Unique, AllAlerts;
      assert RepeatsAt(logs, events, n) || !RepeatsAt(logs, events, n);
    }
  }

  lemma UniquePush(w: World, last: Sent)
    ensures Unique(AllAlerts(w.sent + [last]))
            <==> Unique(AllAlerts(w.sent)) && !Alerted(w, last.alert.slotId, last.alert.customerId)
  {
    var before, after := AllAlerts(w.sent), AllAlerts(w.sent + [last]);
    assert after == before + [last.alert];
    assert last.alert == Alert(last.alert.slotId, last.alert.customerId);
    if Unique(after) {
      forall i, j | 0 <= i < j < |before| ensures before[i] != before[j] {
        assert after[i] != after[j];
      }
      forall i | 0 <= i < |w.sent| ensures w.sent[i].alert != last.alert {
        assert after[i] != after[|before|];
      }
    }
  }

  lemma OthersSendNothing(w: World, ev: Event)
    requires !(ev.Send? && ev.e in w.running && ev.customerId in w.running[ev.e].todo)
    ensures Step(w, ev).sent == w.sent
  {
    hide HasLog;
  }

  // ----- Exactly when the executions under way can repeat an alert -----

  lemma {:induction false} RunCons(w: World, ev: Event, rest: seq<Event>)
    ensures Run(w, [ev] + rest) == Run(Step(w, ev), rest)
    decreases |rest|
  {
    hide Step;
    if rest == [] {
      assert [ev] + rest == [ev] && [ev][..0] == [];
      assert Run(w, [ev]) == Step(Run(w, []), ev);
    } else {
      var front := rest[..|rest| - 1];
      assert ([ev] + rest)[..|rest|] == [ev] + front;
      RunCons(w, ev, front);
    }
  }

  lemma RunNone(w: World)
    ensures Run(w, []) == w
  {
  }

  /** Nobody left to do was alerted about the slot, and no customer is left to two executions for one slot. */
  ghost predicate Disjoint(w: World) {
    && (forall e, c :: e in w.running && c in w.running[e].todo ==> !Alerted(w, w.running[e].slotId, c))
    && (forall d, e, c :: d in w.running && e in w.running && d != e && w.running[d].slotId == w.running[e].slotId ==>
          !(c in w.running[d].todo && c in w.running[e].todo))
  }

  predicate NoReads(events: seq<Event>) {
    forall i :: 0 <= i < |events| ==> !events[i].Read?
  }

  lemma DisjointStep(w: World, ev: Event)
    requires Disjoint(w) && Unique(AllAlerts(w.sent)) && !ev.Read?
    ensures Disjoint(Step(w, ev)) && Unique(AllAlerts(Step(w, ev).sent))
  {
    hide HasLog, AllAlerts, Unique;
    if ev.Send? && ev.e in w.running && ev.customerId in w.running[ev.e].todo {
      var x, t := w.running[ev.e], Step(w, ev);
      var last := Sent(Alert(x.slotId, ev.customerId), ev.e, x.seen);
      UniquePush(w, last);
      forall e, c | e in t.running && c in t.running[e].todo ensures !Alerted(t, t.running[e].slotId, c) {
        assert e in w.running && c in w.running[e].todo && t.running[e].slotId == w.running[e].slotId;
        assert !Alerted(w, w.running[e].slotId, c);
        assert last.alert != Alert(t.running[e].slotId, c);
        assert forall i :: 0 <= i < |t.sent| ==> (i < |w.sent| && t.sent[i] == w.sent[i]) || t.sent[i] == last;
      }
    } else {
      OthersSendNothing(w, ev);
    }
  }

  lemma {:induction false} DisjointRun(w: World, events: seq<Event>)
    requires Disjoint(w) && Unique(AllAlerts(w.sent)) && NoReads(events)
    ensures Disjoint(Run(w, events)) && Unique(AllAlerts(Run(w, events).sent))
  {
    hide Disjoint, Unique, AllAlerts, Step;
    if events != [] {
      DisjointRun(w, events[..|events| - 1]);
      DisjointStep(Run(w, events[..|events| - 1]), events[|events| - 1]);
    }
  }

  /** Sending to a customer already alerted repeats the alert. */
  lemma SendRepeats(w: World, e: nat, c: int)
    requires e in w.running && c in w.running[e].todo && Alerted(w, w.running[e].slotId, c)
    ensures !Unique(AllAlerts(Step(w, Send(e, c, true, 0)).sent))
  {
    var x := w.running[e];
    UniquePush(w, Sent(Alert(x.slotId, c), e, x.seen));
  }

  /** Two executions with the same customer left to do. */
  lemma BothSend(w: World, d: nat, e: nat, c: int)
    requires d in w.running && e in w.running && d != e && w.running[d].slotId == w.running[e].slotId
    requires c in w.running[d].todo && c in w.running[e].todo
    ensures !Unique(AllAlerts(Run(w, [Send(d, c, true, 0)] + [Send(e, c, true, 0)]).sent))
  {
    hide Unique, AllAlerts;
    var first, second := Send(d, c, true, 0), Send(e, c, true, 0);
    var t := Step(w, first);
    assert t.sent[|w.sent|].alert == Alert(w.running[e].slotId, c);
    SendRepeats(t, e, c);
    hide Step;
    RunCons(w, first, [second]);
    RunCons(t, second, []);
    assert [second] + [] == [second];
  }

  /**
   In a world without repeats: everything the executions under way can still do, with
   receipts and other logs in between, repeats no alert if and only if they have nobody left who was
   alerted, and no two of them have a customer left for the same slot.
   */
  lemma UnderWayIff(w: World)
    requires Unique(AllAlerts(w.sent))
    ensures (forall events :: NoReads(events) ==> Unique(AllAlerts(Run(w, events).sent))) <==> Disjoint(w)
  {
    hide Unique, AllAlerts, Run, Step;
    if Disjoint(w) {
      forall events | NoReads(events) ensures Unique(AllAlerts(Run(w, events).sent)) {
        DisjointRun(w, events);
      }
    } else if d, e, c :| d in w.running && e in w.running && d != e && w.running[d].slotId == w.running[e].slotId
                         && c in w.running[d].todo && c in w.running[e].todo {
      BothSend(w, d, e, c);
      assert NoReads([Send(d, c, true, 0)] + [Send(e, c, true, 0)]);
    } else {
      var e, c :| e in w.running && c in w.running[e].todo && Alerted(w, w.running[e].slotId, c);
      SendRepeats(w, e, c);
      var send := Send(e, c, true, 0);
      RunCons(w, send, []);
      RunNone(Step(w, send));
      assert [send] + [] == [send];
      assert NoReads([send]);
    }
  }

  // ----- Executions that do not overlap -----

  /** No execution reads while another is under way or after one died having sent alerts. */
  predicate Serial(w: World, ev: Event) {
    ev.Read? ==> w.running == map[] && forall i :: 0 <= i < |w.sent| ==> w.sent[i].sender in w.committed
  }

  predicate AllSerial(w: World, events: seq<Event>)
    decreases |events|
  {
    events == []
    || (AllSerial(w, events[..|events| - 1]) && Serial(Run(w, events[..|events| - 1]), events[|events| - 1]))
  }

  /** At most one execution is under way; it and every alert before had seen all earlier executions. */
  ghost predicate InTurn(w: World) {
    && (forall d, e :: d in w.running && e in w.running ==> d == e)
    && (forall e, i :: e in w.running && 0 <= i < |w.sent| ==>
          w.sent[i].sender == e || w.sent[i].sender in w.running[e].seen)
    && (forall i, j :: 0 <= i < j < |w.sent| ==>
          w.sent[i].sender == w.sent[j].sender || w.sent[i].sender in w.sent[j].seen)
  }

  lemma InTurnStep(w: World, ev: Event)
    requires InTurn(w) && Serial(w, ev)
    ensures InTurn(Step(w, ev))
  {
    hide HasLog;
  }

  lemma {:induction false} SerialInTurn(logs: seq<Log>, events: seq<Event>)
    requires AllSerial(Initial(logs), events)
    ensures InTurn(Run(Initial(logs), events))
  {
    hide Step, InTurn, Serial;
    if events == [] {
      NobodyRunning(logs);
    } else {
      SerialInTurn(logs, events[..|events| - 1]);
      InTurnStep(Run(Initial(logs), events[..|events| - 1]), events[|events| - 1]);
    }
  }

  lemma NobodyRunning(logs: seq<Log>)
    ensures InTurn(Initial(logs))
  {
  }

  /**
   Over any sequence of executions that do not overlap, with any recipient lists, owner
   notifications and receipts in between, no customer is sent two alerts for one slot.
   */
  lemma AlertsAreUnique(logs: seq<Log>, events: seq<Event>)
    requires AllSerial(Initial(logs), events)
    ensures Unique(AllAlerts(Run(Initial(logs), events).sent))
  {
    hide Run, AllSerial, AlertsOf;
    RunValid(logs, events);
    SerialInTurn(logs, events);
  }

  // ----- Runs that alert twice -----

  /** The first steps of an execution for one customer who has no log. */
  lemma ReadOne(w: World, e: nat, slotId: int, c: int)
    requires IsFresh(w, e) && !HasLog(w.logs, slotId, c)
    ensures Step(w, Read(e, slotId, [c], {c}))
            == w.(running := w.running[e := Execution(slotId, {c}, [], w.committed.Keys)])
  {
    hide HasLog;
    assert (set d | d in [c] && IsRecipient([c], {c}, w.logs, slotId, d)) == {c};
  }

  lemma SendOne(w: World, e: nat, c: int)
    requires e in w.running && w.running[e].todo == {c} && w.running[e].written == []
    ensures var x := w.running[e];
            Step(w, Send(e, c, true, 0))
            == w.(sent := w.sent + [Sent(Alert(x.slotId, c), e, x.seen)],
                  running := w.running[e := Execution(x.slotId, {}, [Log(x.slotId, c, SENT, 0)], x.seen)])
  {
    var log := Log(w.running[e].slotId, c, SENT, 0);
    assert {c} - {c} == {} && [] + [log] == [log];
  }

  /**
   The two executions of one broadcast, in process and from the queue, both read before either
   commits: the customer is alerted twice, and both logs are in the table.
   */
  lemma OverlapSendsTwice(slotId: int, c: int)
    ensures var w := Run(Initial([]), [Read(0, slotId, [c], {c})] + ([Read(1, slotId, [c], {c})]
                         + ([Send(0, c, true, 0)] + ([Send(1, c, true, 0)] + ([Commit(0)] + [Commit(1)])))));
            && AllAlerts(w.sent) == [Alert(slotId, c), Alert(slotId, c)]
            && w.logs == [Log(slotId, c, SENT, 0), Log(slotId, c, SENT, 0)] && w.running == map[]
  {
    hide Run;
    var log := Log(slotId, c, SENT, 0);
    var w0 := Initial([]);
    ReadOne(w0, 0, slotId, c);
    var w1 := Step(w0, Read(0, slotId, [c], {c}));
    ReadOne(w1, 1, slotId, c);
    var w2 := Step(w1, Read(1, slotId, [c], {c}));
    hide HasLog;
    SendOne(w2, 0, c);
    var w3 := Step(w2, Send(0, c, true, 0));
    SendOne(w3, 1, c);
    var w4 := Step(w3, Send(1, c, true, 0));
    var w5 := Step(w4, Commit(0));
    assert w4.running[0] == Execution(slotId, {}, [log], {}) && w4.running[1] == w4.running[0];
    assert w5.logs == [] + [log] == [log];
    assert w5.running == map[1 := Execution(slotId, {}, [log], {})];
    var w6 := Step(w5, Commit(1));
    assert w6.logs == [log, log] && w6.running == map[];
    assert AllAlerts(w6.sent) == [Alert(slotId, c), Alert(slotId, c)];
    hide Step;
    RunCons(w0, Read(0, slotId, [c], {c}), [Read(1, slotId, [c], {c})]
            + ([Send(0, c, true, 0)] + ([Send(1, c, true, 0)] + ([Commit(0)] + [Commit(1)]))));
    RunCons(w1, Read(1, slotId, [c], {c}),
            [Send(0, c, true, 0)] + ([Send(1, c, true, 0)] + ([Commit(0)] + [Commit(1)])));
    RunCons(w2, Send(0, c, true, 0), [Send(1, c, true, 0)] + ([Commit(0)] + [Commit(1)]));
    RunCons(w3, Send(1, c, true, 0), [Commit(0)] + [Commit(1)]);
    RunCons(w4, Commit(0), [Commit(1)]);
    RunCons(w5, Commit(1), []);
    assert [Commit(1)] + [] == [Commit(1)];
    RunNone(w6);
  }
}
