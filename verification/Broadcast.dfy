/**
 Executing a broadcast with nothing in between: which customers it sends to, what it logs, and how
 it leaves the slot.
 */
module Broadcast {
  import opened Wrappers
  import opened SlotProtocol
  import opened Database
  import B = BroadcastProtocol

  // ----- Specification -----

  /** The status an execution leaves behind. */
  function Released(status: Status): Status {
    if status == SENDING then OPEN else status
  }

  /**
   One call: the slot, the recipients, the customers there are, those the provider accepts a
   message for, and the time of each send.
   */
  datatype Call = Call(slotId: int, recipients: seq<int>, customers: set<int>, delivers: set<int>, clock: int -> int)
  {
    function LogFor(c: int): Log {
      Log(slotId, c, if c in delivers then SENT else FAILED, clock(c))
    }
  }

  datatype Tables = Tables(logs: seq<Log>, alerts: seq<Alert>)

  /** One alert and one log for each customer of `order`, in that order. */
  ghost predicate Dispatched(call: Call, order: seq<int>, logs: seq<Log>, alerts: seq<Alert>) {
    && |logs| == |alerts| == |order|
    && forall i :: 0 <= i < |order| ==> alerts[i] == Alert(call.slotId, order[i]) && logs[i] == call.LogFor(order[i])
  }

  ghost predicate ExecutedIn(call: Call, order: seq<int>, before: Tables, after: Tables) {
    && B.Unique(order)
    && (forall c :: c in order <==> B.IsRecipient(call.recipients, call.customers, before.logs, call.slotId, c))
    && before.logs <= after.logs && before.alerts <= after.alerts
    && Dispatched(call, order, after.logs[|before.logs|..], after.alerts[|before.alerts|..])
  }

  /** An execution adds logs and alerts for exactly the recipients without a log, each once. */
  ghost predicate Executed(call: Call, before: Tables, after: Tables) {
    exists order: seq<int> :: ExecutedIn(call, order, before, after)
  }

  ghost function TablesOf(store: Store): Tables
    reads store
  {
    Tables(store.logs, store.alerts)
  }

  // ----- Executing -----

  method AlreadyAlerted(logs: seq<Log>, slotId: int, recipients: seq<int>) returns (ids: set<int>)
    ensures ids == set c | c in recipients && B.HasLog(logs, slotId, c)
  {
    ids := {};
    for i := 0 to |logs|
      invariant ids == set c | c in recipients && B.HasLog(logs[..i], slotId, c)
    {
      HasLogStep(logs, i, slotId);
      if logs[i].slotId == slotId && logs[i].customerId in recipients {
        ids := ids + {logs[i].customerId};
      }
    }
    assert logs[..|logs|] == logs;
  }

  lemma HasLogStep(logs: seq<Log>, i: nat, slotId: int)
    requires i < |logs|
    ensures forall c ::
              B.HasLog(logs[..i + 1], slotId, c)
              <==> B.HasLog(logs[..i], slotId, c) || (logs[i].slotId == slotId && logs[i].customerId == c)
  {
  }

  method PendingIds(recipients: seq<int>, already: set<int>) returns (pending: seq<int>)
    ensures forall c :: c in pending <==> c in recipients && c !in already
  {
    pending := [];
    for i := 0 to |recipients|
      invariant forall c :: c in pending <==> c in recipients[..i] && c !in already
    {
      if recipients[i] !in already {
        pending := pending + [recipients[i]];
      }
    }
    assert recipients[..|recipients|] == recipients;
  }

  /**
   Executes a broadcast from reading the row to the final commit with nothing in between: the
   alerts and logs of one execution, and the row as the protocol's Start and Finish leave it.
   `rows` is the order in which the database lists customers.
   */
  method ExecuteSlotBroadcast(store: Store, slotId: int, recipientCustomerIds: Option<seq<int>>,
                              rows: seq<int>, delivers: set<int>, clock: int -> int)
    requires B.Unique(rows) && forall c :: c in rows <==> c in store.customers
    modifies store`slots, store`logs, store`alerts
    ensures slotId !in old(store.slots) ==> store.slots == old(store.slots) && TablesOf(store) == old(TablesOf(store))
    ensures slotId in old(store.slots) ==>
              && store.slots.Keys == old(store.slots).Keys && store.slots[slotId].row.status != SENDING
              && store.slots == old(store.slots)[slotId := old(store.slots)[slotId].(row :=
                   old(store.slots)[slotId].row.(status := Released(old(store.slots)[slotId].row.status)))]
              && Executed(Call(slotId, recipientCustomerIds.GetOr([]), store.customers, delivers, clock),
                          old(TablesOf(store)), TablesOf(store))
    ensures slotId in old(store.slots) ==>
              forall s: State, p :: s.row == old(store.slots)[slotId].row && p !in s.pending && s.jobs > 0 ==>
                store.slots[slotId].row == Step(Step(s, Start(p, Execute)), Finish(p, 0)).row
  {
    if slotId !in store.slots {
      return;
    }
    hide Step, Executed, ExecutedIn;
    ExecuteSteps(store.slots[slotId].row);
    var slot := store.slots[slotId];
    var call := Call(slotId, recipientCustomerIds.GetOr([]), store.customers, delivers, clock);
    if recipientCustomerIds == None || recipientCustomerIds.value == [] {
      NothingExecuted(call, TablesOf(store));
      ReleaseSlot(store, slotId, slot.row.status);
      return;
    }
    var already := AlreadyAlerted(store.logs, slotId, recipientCustomerIds.value);
    var pendingIds := PendingIds(recipientCustomerIds.value, already);
    if pendingIds == [] {
      assert forall c :: c in recipientCustomerIds.value ==> c !in pendingIds;
      NothingExecuted(call, TablesOf(store));
      ReleaseSlot(store, slotId, slot.row.status);
      return;
    }
    var customers := SelectCustomers(rows, pendingIds);
    DispatchAll(store, call, customers);
    CallExecuted(call, customers, old(TablesOf(store)), TablesOf(store));
    ReleaseSlot(store, slotId, slot.row.status);
  }

  method ReleaseSlot(store: Store, slotId: int, loaded: Status)
    requires slotId in store.slots && store.slots[slotId].row.status == loaded
    modifies store`slots
    ensures store.slots == old(store.slots)[slotId := old(store.slots)[slotId].(row :=
              old(store.slots)[slotId].row.(status := Released(loaded)))]
  {
    if loaded == SENDING {
      store.slots := store.slots[slotId := store.slots[slotId].(row := store.slots[slotId].row.(status := OPEN))];
    }
  }

  /**
   What an execution adds, row by row: alerts for exactly the recipients who exist and have no log for
   the slot, no customer twice, and at the same place of the other table the log of each, SENT if the
   provider took the message and FAILED if it raised.
   */
  lemma ExecutedRows(call: Call, before: Tables, after: Tables)
    requires Executed(call, before, after)
    ensures before.logs <= after.logs && before.alerts <= after.alerts
    ensures |after.logs| - |before.logs| == |after.alerts| - |before.alerts|
    ensures var logs, alerts := after.logs[|before.logs|..], after.alerts[|before.alerts|..];
            forall i :: 0 <= i < |alerts| ==>
              var c := alerts[i].customerId;
              && alerts[i].slotId == call.slotId
              && logs[i] == Log(call.slotId, c, if c in call.delivers then SENT else FAILED, call.clock(c))
    ensures var alerts := after.alerts[|before.alerts|..];
            forall i, j :: 0 <= i < j < |alerts| ==> alerts[i].customerId != alerts[j].customerId
    ensures var alerts := after.alerts[|before.alerts|..];
            forall i :: 0 <= i < |alerts| ==>
              && alerts[i].customerId in call.recipients && alerts[i].customerId in call.customers
              && forall k :: 0 <= k < |before.logs| && before.logs[k].slotId == call.slotId ==>
                   before.logs[k].customerId != alerts[i].customerId
    ensures var alerts := after.alerts[|before.alerts|..];
            forall c :: c in call.recipients && c in call.customers ==>
              || (exists i :: 0 <= i < |alerts| && alerts[i].customerId == c)
              || (exists k :: 0 <= k < |before.logs| && before.logs[k].slotId == call.slotId
                              && before.logs[k].customerId == c)
  {
    var order: seq<int> :| ExecutedIn(call, order, before, after);
    var alerts := after.alerts[|before.alerts|..];
    assert |alerts| == |order| && forall i :: 0 <= i < |order| ==> alerts[i].customerId == order[i];
    forall c | B.IsRecipient(call.recipients, call.customers, before.logs, call.slotId, c)
      ensures exists i :: 0 <= i < |alerts| && alerts[i].customerId == c
    {
      var i :| 0 <= i < |order| && order[i] == c;
      assert alerts[i].customerId == c;
    }
    assert forall c :: c in call.recipients && c in call.customers ==>
        B.HasLog(before.logs, call.slotId, c)
        || B.IsRecipient(call.recipients, call.customers, before.logs, call.slotId, c);
    forall i | 0 <= i < |alerts|
      ensures B.IsRecipient(call.recipients, call.customers, before.logs, call.slotId, alerts[i].customerId)
    {
      assert alerts[i].customerId in order;
    }
  }

  /** Reading the row and writing its status are the protocol's two steps of an execution. */
  lemma ExecuteSteps(row: Row)
    ensures forall s: State, p :: s.row == row && p !in s.pending && s.jobs > 0 ==>
              Step(Step(s, Start(p, Execute)), Finish(p, 0)).row == row.(status := Released(row.status))
  {
  }

  lemma CallExecuted(call: Call, order: seq<int>, before: Tables, after: Tables)
    requires ExecutedIn(call, order, before, after)
    ensures Executed(call, before, after)
  {
  }

  lemma NothingExecuted(call: Call, t: Tables)
    requires forall c :: !B.IsRecipient(call.recipients, call.customers, t.logs, call.slotId, c)
    ensures Executed(call, t, t)
  {
    hide B.HasLog, B.IsRecipient;
    assert ExecutedIn(call, [], t, t);
  }

  lemma NothingDispatched(call: Call)
    ensures Dispatched(call, [], [], [])
  {
  }

  lemma DispatchOne(call: Call, order: seq<int>, logs: seq<Log>, alerts: seq<Alert>, c: int)
    requires Dispatched(call, order, logs, alerts)
    ensures Dispatched(call, order + [c], logs + [call.LogFor(c)], alerts + [Alert(call.slotId, c)])
  {
  }

  /** The customers of the answer `rows` that are pending, in the order of the answer. */
  method SelectCustomers(rows: seq<int>, pendingIds: seq<int>) returns (order: seq<int>)
    requires B.Unique(rows)
    ensures B.Unique(order) && (forall c :: c in order <==> c in rows && c in pendingIds)
  {
    order := [];
    for i := 0 to |rows|
      invariant B.Unique(order) && (forall c :: c in order <==> c in rows[..i] && c in pendingIds)
    {
      if rows[i] in pendingIds {
        order := order + [rows[i]];
      }
    }
    assert rows[..|rows|] == rows;
  }

  /** The dispatches of one execution. */
  method DispatchAll(store: Store, call: Call, customers: seq<int>)
    modifies store`logs, store`alerts
    ensures old(store.logs) <= store.logs && old(store.alerts) <= store.alerts
    ensures Dispatched(call, customers, store.logs[|old(store.logs)|..], store.alerts[|old(store.alerts)|..])
  {
    hide Dispatched;
    ghost var logs, alerts: seq<Alert> := [], [];
    NothingDispatched(call);
    for i := 0 to |customers|
      invariant store.logs == old(store.logs) + logs && store.alerts == old(store.alerts) + alerts
      invariant Dispatched(call, customers[..i], logs, alerts)
    {
      var c := customers[i];
      store.alerts := store.alerts + [Alert(call.slotId, c)];
      var status := if c in call.delivers then SENT else FAILED;
      store.logs := store.logs + [Log(call.slotId, c, status, call.clock(c))];
      DispatchOne(call, customers[..i], logs, alerts, c);
      assert customers[..i + 1] == customers[..i] + [c];
      logs := logs + [call.LogFor(c)];
      alerts := alerts + [Alert(call.slotId, c)];
    }
    assert customers[..|customers|] == customers;
    assert store.logs[|old(store.logs)|..] == logs && store.alerts[|old(store.alerts)|..] == alerts;
  }

  // ----- The execution as a run of the protocol -----

  /** The sends of an execution to the first n customers. */
  function SendsTo(e: nat, call: Call, order: seq<int>, n: nat): seq<B.Event>
    requires n <= |order|
  {
    if n == 0 then []
    else
      var c := order[n - 1];
      SendsTo(e, call, order, n - 1) + [B.Send(e, c, c in call.delivers, call.clock(c))]
  }

  /** Read, sends and commit. */
  function EventsOf(e: nat, call: Call, order: seq<int>): seq<B.Event> {
    [B.Read(e, call.slotId, call.recipients, call.customers)] + SendsTo(e, call, order, |order|) + [B.Commit(e)]
  }

  /** The customers from position n on. */
  function Rest(order: seq<int>, n: nat): set<int>
    requires n <= |order|
  {
    set c | c in order[n..]
  }

  /** The world after the sends to the first n customers. */
  ghost function Progress(w: B.World, e: nat, x: B.Execution, order: seq<int>, n: nat, logs: seq<Log>,
          alerts: seq<Alert>): B.World
    requires n <= |order| == |logs| == |alerts|
  {
    w.(sent := w.sent + seq(n, i requires 0 <= i < n => B.Sent(alerts[i], e, x.seen)),
       running := w.running[e := x.(todo := Rest(order, n), written := logs[..n])])
  }

  lemma {:induction false} SendsRun(w: B.World, e: nat, x: B.Execution, call: Call, order: seq<int>, n: nat,
                                    logs: seq<Log>, alerts: seq<Alert>)
    requires n <= |order| && B.Unique(order) && Dispatched(call, order, logs, alerts)
    requires x.slotId == call.slotId
    ensures |order| == |logs| == |alerts|
    ensures B.Run(Progress(w, e, x, order, 0, logs, alerts), SendsTo(e, call, order, n))
            == Progress(w, e, x, order, n, logs, alerts)
  {
    var start := Progress(w, e, x, order, 0, logs, alerts);
    if n == 0 {
      B.RunNone(start);
    } else {
      var front := SendsTo(e, call, order, n - 1);
      SendsRun(w, e, x, call, order, n - 1, logs, alerts);
      var c := order[n - 1];
      var ev := B.Send(e, c, c in call.delivers, call.clock(c));
      RunLast(start, front, ev);
      hide B.Run, B.Step;
      OneSend(w, e, x, call, order, n - 1, logs, alerts);
    }
  }

  lemma OneSend(w: B.World, e: nat, x: B.Execution, call: Call, order: seq<int>, n: nat,
                logs: seq<Log>, alerts: seq<Alert>)
    requires n < |order| && B.Unique(order) && Dispatched(call, order, logs, alerts)
    requires x.slotId == call.slotId
    ensures |order| == |logs| == |alerts|
    ensures var c := order[n];
            B.Step(Progress(w, e, x, order, n, logs, alerts), B.Send(e, c, c in call.delivers, call.clock(c)))
            == Progress(w, e, x, order, n + 1, logs, alerts)
  {
    RestStep(order, n);
    hide Rest, B.Unique;
    var t, t' := Progress(w, e, x, order, n, logs, alerts), Progress(w, e, x, order, n + 1, logs, alerts);
    assert logs[..n + 1] == logs[..n] + [logs[n]];
    assert t'.sent == t.sent + [B.Sent(alerts[n], e, x.seen)];
    assert t'.running == t.running[e := t'.running[e]];
  }

  lemma RestStep(order: seq<int>, n: nat)
    requires n < |order| && B.Unique(order)
    ensures order[n] in Rest(order, n) && Rest(order, n + 1) == Rest(order, n) - {order[n]}
    ensures Rest(order, |order|) == {}
  {
    assert order[n..] == [order[n]] + order[n + 1..];
    assert order[n] !in order[n + 1..];
  }

  /** What the method does to the tables is a run of the protocol that overlaps with no other execution. */
  lemma ExecutionIsRun(w: B.World, e: nat, call: Call, order: seq<int>, before: Tables,
          after: Tables)
    requires B.IsFresh(w, e) && w.logs == before.logs && B.AllAlerts(w.sent) == before.alerts
    requires ExecutedIn(call, order, before, after)
    ensures var t := B.Run(w, EventsOf(e, call, order));
            && t.logs == after.logs && B.AllAlerts(t.sent) == after.alerts
            && t.running == w.running && e in t.committed
  {
    var logs, alerts := after.logs[|before.logs|..], after.alerts[|before.alerts|..];
    var read := B.Read(e, call.slotId, call.recipients, call.customers);
    var sends, n := SendsTo(e, call, order, |order|), |order|;
    var x := B.Execution(call.slotId, Rest(order, 0), [], w.committed.Keys);
    AllDispatched(call, order, logs, alerts);
    TodoIsOrder(w, e, call, order, logs, alerts);
    CommitAll(w, e, x, order, logs, alerts);
    assert after.logs == before.logs + logs && after.alerts == before.alerts + alerts;
    hide Progress, B.Step, Dispatched, B.HasLog, B.IsRecipient, B.Unique, B.AllAlerts, B.Run, SendsTo, Rest;
    SendsRun(w, e, x, call, order, n, logs, alerts);
    B.RunCons(w, read, sends + [B.Commit(e)]);
    assert EventsOf(e, call, order) == [read] + (sends + [B.Commit(e)]);
    RunLast(B.Step(w, read), sends, B.Commit(e));
  }

  lemma RunLast(w: B.World, events: seq<B.Event>, ev: B.Event)
    ensures B.Run(w, events + [ev]) == B.Step(B.Run(w, events), ev)
  {
    hide B.Step;
    assert (events + [ev])[..|events|] == events;
  }

  lemma AllDispatched(call: Call, order: seq<int>, logs: seq<Log>, alerts: seq<Alert>)
    requires Dispatched(call, order, logs, alerts)
    ensures |logs| == |alerts| == |order|
  {
  }

  lemma RecipientListed(call: Call, logs: seq<Log>)
    ensures forall c :: B.IsRecipient(call.recipients, call.customers, logs, call.slotId, c) ==> c in call.recipients
  {
  }

  lemma TodoIsOrder(w: B.World, e: nat, call: Call, order: seq<int>, logs: seq<Log>,
          alerts: seq<Alert>)
    requires B.IsFresh(w, e) && |logs| == |alerts| == |order|
    requires forall c :: c in order <==> B.IsRecipient(call.recipients, call.customers, w.logs, call.slotId, c)
    ensures B.Step(w, B.Read(e, call.slotId, call.recipients, call.customers))
            == Progress(w, e, B.Execution(call.slotId, Rest(order, 0), [], w.committed.Keys), order, 0, logs, alerts)
  {
    hide B.HasLog;
    assert order[0..] == order;
    hide B.IsRecipient;
    RecipientListed(call, w.logs);
    var todo := set c | c in call.recipients && B.IsRecipient(call.recipients, call.customers, w.logs, call.slotId, c);
    assert forall c :: c in todo <==> c in order;
    assert forall c :: c in Rest(order, 0) <==> c in order;
    assert todo == Rest(order, 0);
  }

  lemma CommitAll(w: B.World, e: nat, x: B.Execution, order: seq<int>, logs: seq<Log>,
          alerts: seq<Alert>)
    requires e !in w.running && |logs| == |alerts| == |order|
    ensures var t := B.Step(Progress(w, e, x, order, |order|, logs, alerts), B.Commit(e));
            && t.logs == w.logs + logs && B.AllAlerts(t.sent) == B.AllAlerts(w.sent) + alerts
            && t.running == w.running && e in t.committed
  {
    assert order[|order|..] == [];
    assert Rest(order, |order|) == {};
    var p := Progress(w, e, x, order, |order|, logs, alerts);
    assert p.running - {e} == w.running;
    assert logs[..|order|] == logs;
  }
}
