/** Preparing a broadcast: the status gate, the spam filter, SENDING and the two dispatches. */
module BroadcastService {
  import opened Wrappers
  import opened SlotProtocol
  import opened Database
  import SpamGuard

  /** The candidates the guard lets through, in order. */
  function Eligible(logs: seq<Log>, candidates: seq<int>, now: int): (r: seq<int>)
    ensures |r| <= |candidates|
    ensures forall c :: c in r <==> c in candidates && SpamGuard.Allowed(logs, c, now)
  {
    if candidates == [] then []
    else
      var last := candidates[|candidates| - 1];
      Eligible(logs, candidates[..|candidates| - 1], now) + if SpamGuard.Allowed(logs, last, now) then [last] else []
  }

  /** A candidate the guard lets through is kept as often as it is listed. */
  lemma {:induction false} EligibleKeeps(logs: seq<Log>, candidates: seq<int>, now: int, c: int)
    ensures multiset(Eligible(logs, candidates, now))[c]
            == if SpamGuard.Allowed(logs, c, now) then multiset(candidates)[c] else 0
  {
    hide SpamGuard.Allowed;
    if candidates != [] {
      var front, last := candidates[..|candidates| - 1], candidates[|candidates| - 1];
      EligibleKeeps(logs, front, now, c);
      assert candidates == front + [last];
    }
  }

  method FilterSpamCandidates(store: Store, candidates: seq<int>, now: int, day: int, redisUp: bool)
    returns (eligibleIds: seq<int>, skippedCount: nat)
    modifies store`counters
    ensures eligibleIds == Eligible(store.logs, candidates, now)
    ensures |eligibleIds| + skippedCount == |candidates|
  {
    hide SpamGuard.Allowed, SpamGuard.SentSince;
    eligibleIds := [];
    skippedCount := 0;
    for i := 0 to |candidates|
      invariant eligibleIds == Eligible(store.logs, candidates[..i], now)
      invariant |eligibleIds| + skippedCount == i
    {
      assert candidates[..i + 1][..i] == candidates[..i];
      var isAllowed := SpamGuard.CanSendNotification(store, candidates[i], now, day, redisUp);
      if isAllowed {
        eligibleIds := eligibleIds + [candidates[i]];
      } else {
        skippedCount := skippedCount + 1;
      }
    }
    assert candidates[..|candidates|] == candidates;
  }

  /** An execution handed out: the slot and its recipients. */
  datatype Job = Job(slotId: int, recipients: seq<int>)

  datatype BroadcastResponse = BroadcastResponse(totalMatched: nat, eligibleRecipients: nat, skippedSpamGuard: nat)

  /**
   Prepares a broadcast with no other status change between its read and its write. `candidates`
   is the answer of the matching query; `inProcess` and `queueUp` tell which dispatches work.
   */
  method PrepareAndQueueBroadcast(store: Store, slotId: int, candidates: seq<int>, now: int, day: int,
                                  redisUp: bool, inProcess: bool, queueUp: bool)
    returns (statusCode: nat, response: Option<BroadcastResponse>, jobs: seq<Job>)
    modifies store`slots, store`counters
    ensures statusCode == if slotId !in old(store.slots) then 404
                          else match old(store.slots)[slotId].row.status
                               case OPEN => 200
                               case SENDING => 409
                               case _ => 400
    ensures response.Some? <==> statusCode == 200
    ensures statusCode != 200 ==> jobs == [] && store.slots == old(store.slots)
    ensures statusCode == 200 ==>
              var ids := Eligible(store.logs, candidates, now);
              && response.value == BroadcastResponse(|candidates|, |ids|, |candidates| - |ids|)
              && store.slots == (if ids == [] then old(store.slots)
                                 else old(store.slots)[slotId := old(store.slots)[slotId].(row :=
                                        old(store.slots)[slotId].row.(status := SENDING))])
              && |jobs| == (if ids == [] then 0 else (if inProcess then 1 else 0) + (if queueUp then 1 else 0)) <= 2
              && forall i :: 0 <= i < |jobs| ==> jobs[i] == Job(slotId, ids)
    ensures slotId in old(store.slots) ==>
              forall s: State, p ::
                (&& s.row == old(store.slots)[slotId].row && p !in s.pending
                 && (statusCode == 200 ==> Eligible(store.logs, candidates, now) != [])) ==>
                  var t := Step(Step(s, Start(p, Prepare)), Finish(p, |jobs|));
                  t.row == store.slots[slotId].row && t.jobs == s.jobs + |jobs|
  {
    if slotId in store.slots {
      PrepareSteps(store.slots[slotId].row);
    }
    hide Step;
    jobs := [];
    if slotId !in store.slots {
      return 404, None, [];
    }
    var status := store.slots[slotId].row.status;
    if status == SENDING {
      return 409, None, [];
    }
    if status != OPEN {
      return 400, None, [];
    }
    var eligibleIds, skippedCount := FilterSpamCandidates(store, candidates, now, day, redisUp);
    if |eligibleIds| > 0 {
      store.slots := store.slots[slotId := store.slots[slotId].(row := store.slots[slotId].row.(status := SENDING))];
      if inProcess {
        jobs := jobs + [Job(slotId, eligibleIds)];
      }
      if queueUp {
        jobs := jobs + [Job(slotId, eligibleIds)];
      }
    }
    statusCode := 200;
    response := Some(BroadcastResponse(|candidates|, |eligibleIds|, skippedCount));
  }

  /** Read and write of a preparation are the protocol's two steps. */
  lemma PrepareSteps(row: Row)
    ensures forall s: State, p, sent :: s.row == row && p !in s.pending && sent <= 2 ==>
              var t := Step(Step(s, Start(p, Prepare)), Finish(p, sent));
              if row.status == OPEN then t.row == row.(status := SENDING) && t.jobs == s.jobs + sent
              else t == s
  {
  }
}
