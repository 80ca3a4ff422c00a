/** The tables the services work on. */
module Database {
  import opened SlotProtocol

  datatype Slot = Slot(businessId: int, row: Row)

  /** delivery_status of a broadcast log; receipts bring in the last two. */
  datatype Delivery = SENT | FAILED | DELIVERED | READ

  datatype Log = Log(slotId: int, customerId: int, status: Delivery, sentAt: int)

  /** An alert handed to the message provider. */
  datatype Alert = Alert(slotId: int, customerId: int)

  class Store {
    var slots: map<int, Slot>
    var customers: set<int>
    var logs: seq<Log>
    /** Everything the message provider was asked to send about slots. */
    var alerts: seq<Alert>
    /** Redis counters of alerts per customer and day. */
    var counters: map<(int, int), nat>
    /** The slots whose Redis lock is held. */
    var locks: set<int>

    constructor ()
      ensures slots == map[] && customers == {} && logs == [] && alerts == [] && counters == map[] && locks == {}
    {
      slots := map[];
      customers := {};
      logs := [];
      alerts := [];
      counters := map[];
      locks := {};
    }
  }
}
