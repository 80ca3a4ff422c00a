/**
 The waitlist: registering preferences, opting out, and the query that finds the customers to
 alert. Over every run the query returns exactly those whose latest registration fits.
 */
module Matching {
  import opened Wrappers

  datatype TimeSlot = MORNING | AFTERNOON | EVENING

  datatype Customer = Customer(id: int, businessId: int, name: string, phone: string)

  datatype Preference = Preference(customerId: int, day: int, time: TimeSlot, service: Option<int>)

  /** A validated registration; no services means any service. */
  datatype OptIn = OptIn(name: string, phone: string, services: seq<int>, days: seq<int>, times: seq<TimeSlot>)

  datatype Tables = Tables(customers: seq<Customer>, preferences: seq<Preference>, nextId: int)

  // ----- Registration -----

  /** The services a registration asks for; None stands for any. */
  function ServicesOf(services: seq<int>): (r: seq<Option<int>>)
    ensures r != []
    ensures forall s :: s in r <==> (if services == [] then s == None else s.Some? && s.value in services)
  {
    if services == [] then [None]
    else
      var r := seq(|services|, i requires 0 <= i < |services| => Some(services[i]));
      assert forall i :: 0 <= i < |services| ==> r[i] == Some(services[i]);
      r
  }

  /** The rows of the preference matrix, day by day, time by time, service by service. */
  function ServiceRows(id: int, day: int, time: TimeSlot, services: seq<Option<int>>): seq<Preference> {
    if services == [] then []
    else ServiceRows(id, day, time, services[..|services| - 1]) + [Preference(id, day, time, services[|services| - 1])]
  }

  function TimeRows(id: int, day: int, times: seq<TimeSlot>, services: seq<Option<int>>): seq<Preference> {
    if times == [] then []
    else TimeRows(id, day, times[..|times| - 1], services) + ServiceRows(id, day, times[|times| - 1], services)
  }

  function DayRows(id: int, days: seq<int>, times: seq<TimeSlot>, services: seq<Option<int>>): seq<Preference> {
    if days == [] then []
    else DayRows(id, days[..|days| - 1], times, services) + TimeRows(id, days[|days| - 1], times, services)
  }

  function Matrix(id: int, data: OptIn): seq<Preference> {
    DayRows(id, data.days, data.times, ServicesOf(data.services))
  }

  /** The rows of other customers, in order. */
  function Without(preferences: seq<Preference>, id: int): seq<Preference> {
    if preferences == [] then []
    else
      var last := preferences[|preferences| - 1];
      Without(preferences[..|preferences| - 1], id) + if last.customerId == id then [] else [last]
  }

  predicate IsRow(c: Customer, businessId: int, phone: string) {
    c.businessId == businessId && c.phone == phone
  }

  /** The position of the customer of a business with the given phone, or |customers|. */
  function Find(customers: seq<Customer>, businessId: int, phone: string): (i: nat)
    ensures i <= |customers|
    ensures i < |customers| ==> IsRow(customers[i], businessId, phone)
    ensures forall k :: 0 <= k < i ==> !IsRow(customers[k], businessId, phone)
  {
    if customers == [] then 0
    else
      var i := Find(customers[..|customers| - 1], businessId, phone);
      assert forall k :: 0 <= k < |customers| - 1 ==> customers[..|customers| - 1][k] == customers[k];
      if i < |customers| - 1 then i
      else if IsRow(customers[|customers| - 1], businessId, phone) then i else |customers|
  }

  function Register(t: Tables, businessId: int, data: OptIn): Tables {
    var i := Find(t.customers, businessId, data.phone);
    if i < |t.customers| then
      var c := t.customers[i];
      Tables(t.customers[i := c.(name := data.name)], Without(t.preferences, c.id) + Matrix(c.id, data), t.nextId)
    else
      Tables(t.customers + [Customer(t.nextId, businessId, data.name, data.phone)],
             t.preferences + Matrix(t.nextId, data), t.nextId + 1)
  }

  function OptOut(t: Tables, id: int): Tables {
    if exists i :: 0 <= i < |t.customers| && t.customers[i].id == id then
      t.(preferences := Without(t.preferences, id))
    else t
  }

  class Waitlist {
    var customers: seq<Customer>
    var preferences: seq<Preference>
    var nextId: int

    function Contents(): Tables
      reads this
    {
      Tables(customers, preferences, nextId)
    }

    constructor ()
      ensures Contents() == Tables([], [], 1)
    {
      customers := [];
      preferences := [];
      nextId := 1;
    }

    /** Registers with a business, or answers 404 when the slug names none. Returns the customer's id. */
    method RegisterCustomerOptin(business: Option<int>, data: OptIn) returns (r: Result<int>)
      modifies this
      ensures r.Throws? <==> business == None
      ensures r.Throws? ==> Contents() == old(Contents())
      ensures r.Ok? ==> Contents() == Register(old(Contents()), business.value, data)
      ensures r.Ok? ==>
                var known := exists k :: 0 <= k < |old(customers)| && old(customers)[k].businessId == business.value
                                         && old(customers)[k].phone == data.phone;
                && |customers| == |old(customers)| + (if known then 0 else 1)
                && (exists i :: 0 <= i < |customers|
                                && customers[i] == Customer(r.value, business.value, data.name, data.phone)
                                && (i < |old(customers)| <==> known))
                && forall k :: 0 <= k < |old(customers)| && customers[k] != old(customers)[k] ==>
                     old(customers)[k] == Customer(r.value, business.value, old(customers)[k].name, data.phone)
    {
      if business == None {
        return Throws;
      }
      var i := Find(customers, business.value, data.phone);
      var id: int;
      if i < |customers| {
        id := customers[i].id;
        customers := customers[i := customers[i].(name := data.name)];
        DeletePreferences(id);
      } else {
        id := nextId;
        customers := customers + [Customer(id, business.value, data.name, data.phone)];
        nextId := nextId + 1;
      }
      assert customers[i] == Customer(id, business.value, data.name, data.phone);
      var newPrefs := BuildMatrix(id, data);
      preferences := preferences + newPrefs;
      r := Ok(id);
    }

    method DeletePreferences(id: int)
      modifies this`preferences
      ensures preferences == Without(old(preferences), id)
    {
      var kept := [];
      for i := 0 to |preferences|
        invariant preferences == old(preferences)
        invariant kept == Without(preferences[..i], id)
      {
        assert preferences[..i + 1][..i] == preferences[..i];
        if preferences[i].customerId != id {
          kept := kept + [preferences[i]];
        }
      }
      assert preferences[..|preferences|] == preferences;
      preferences := kept;
    }
  }

  /** The triple loop. */
  method BuildMatrix(id: int, data: OptIn) returns (newPrefs: seq<Preference>)
    ensures newPrefs == Matrix(id, data)
  {
    var services := ServicesOf(data.services);
    newPrefs := [];
    for i := 0 to |data.days|
      invariant newPrefs == DayRows(id, data.days[..i], data.times, services)
    {
      assert data.days[..i + 1][..i] == data.days[..i];
      var rows := BuildTimeRows(id, data.days[i], data.times, services);
      newPrefs := newPrefs + rows;
    }
    assert data.days[..|data.days|] == data.days;
  }

  method BuildTimeRows(id: int, day: int, times: seq<TimeSlot>, services: seq<Option<int>>)
    returns (rows: seq<Preference>)
    ensures rows == TimeRows(id, day, times, services)
  {
    rows := [];
    for j := 0 to |times|
      invariant rows == TimeRows(id, day, times[..j], services)
    {
      assert times[..j + 1][..j] == times[..j];
      var more := BuildServiceRows(id, day, times[j], services);
      rows := rows + more;
    }
    assert times[..|times|] == times;
  }

  method BuildServiceRows(id: int, day: int, time: TimeSlot, services: seq<Option<int>>) returns (rows: seq<Preference>)
    ensures rows == ServiceRows(id, day, time, services)
  {
    rows := [];
    for k := 0 to |services|
      invariant rows == ServiceRows(id, day, time, services[..k])
    {
      assert services[..k + 1][..k] == services[..k];
      rows := rows + [Preference(id, day, time, services[k])];
    }
    assert services[..|services|] == services;
  }

  // ----- The query -----

  /** The filter on day, time and service; a slot without a service matches unrestricted rows only. */
  predicate Fits(p: Preference, day: int, time: TimeSlot, service: Option<int>) {
    p.day == day && p.time == time && (p.service == None || (service.Some? && p.service == service))
  }

  /** The ids of a customer joined with the preference rows that fit: one per row. */
  function JoinOne(c: Customer, preferences: seq<Preference>, businessId: int, day: int, time: TimeSlot,
          service: Option<int>): seq<int> {
    if preferences == [] then []
    else
      var p := preferences[|preferences| - 1];
      JoinOne(c, preferences[..|preferences| - 1], businessId, day, time, service)
      + if p.customerId == c.id && c.businessId == businessId && Fits(p, day, time, service) then [c.id] else []
  }

  function Join(customers: seq<Customer>, preferences: seq<Preference>, businessId: int, day: int, time: TimeSlot,
          service: Option<int>): seq<int> {
    if customers == [] then []
    else Join(customers[..|customers| - 1], preferences, businessId, day, time, service)
         + JoinOne(customers[|customers| - 1], preferences, businessId, day, time, service)
  }

  predicate Increasing(s: seq<int>) {
    forall i, j :: 0 <= i < j < |s| ==> s[i] < s[j]
  }

  /** Inserts x into an increasing sequence unless it is there. */
  function Insert(s: seq<int>, x: int): (r: seq<int>)
    requires Increasing(s)
    ensures Increasing(r)
    ensures forall y :: y in r <==> y in s || y == x
  {
    if s == [] || s[|s| - 1] < x then s + [x]
    else if s[|s| - 1] == x then s
    else
      var front := Insert(s[..|s| - 1], x);
      var rest := s[..|s| - 1];
      assert s == rest + [s[|s| - 1]];
      assert forall i :: 0 <= i < |front| ==> front[i] in front;
      assert forall y :: y in rest ==> y < s[|s| - 1];
      front + [s[|s| - 1]]
  }

  /** DISTINCT and ORDER BY id. */
  function DistinctOrdered(s: seq<int>): (r: seq<int>)
    ensures Increasing(r)
    ensures forall y :: y in r <==> y in s
  {
    if s == [] then []
    else
      assert s == s[..|s| - 1] + [s[|s| - 1]];
      Insert(DistinctOrdered(s[..|s| - 1]), s[|s| - 1])
  }

  function FindMatching(t: Tables, businessId: int, day: int, time: TimeSlot, service: Option<int>): seq<int> {
    DistinctOrdered(Join(t.customers, t.preferences, businessId, day, time, service))
  }

  /** A customer has a preference row that fits. */
  predicate HasFit(preferences: seq<Preference>, id: int, day: int, time: TimeSlot, service: Option<int>) {
    exists p :: p in preferences && p.customerId == id && Fits(p, day, time, service)
  }

  /** The id is that of a customer of the business. */
  predicate IsCustomerOf(customers: seq<Customer>, businessId: int, id: int) {
    exists c :: c in customers && c.id == id && c.businessId == businessId
  }

  lemma HasFitStep(preferences: seq<Preference>, last: Preference, id: int, day: int,
          time: TimeSlot, service: Option<int>)
    ensures HasFit(preferences + [last], id, day, time, service)
            <==> HasFit(preferences, id, day, time, service)
                 || (last.customerId == id && Fits(last, day, time, service))
  {
  }

  lemma IsCustomerStep(customers: seq<Customer>, last: Customer, b: int, id: int)
    ensures IsCustomerOf(customers + [last], b, id)
            <==> IsCustomerOf(customers, b, id) || (last.id == id && last.businessId == b)
  {
  }

  lemma {:induction false} JoinOneHas(c: Customer, preferences: seq<Preference>, b: int, day: int, time: TimeSlot,
          service: Option<int>, id: int)
    ensures id in JoinOne(c, preferences, b, day, time, service)
            <==> id == c.id && c.businessId == b && HasFit(preferences, id, day, time, service)
  {
    if preferences != [] {
      var front, last := preferences[..|preferences| - 1], preferences[|preferences| - 1];
      assert preferences == front + [last];
      hide Fits, HasFit;
      JoinOneHas(c, front, b, day, time, service, id);
      HasFitStep(front, last, id, day, time, service);
    }
  }

  lemma {:induction false} JoinHas(customers: seq<Customer>, preferences: seq<Preference>, b: int, day: int,
          time: TimeSlot, service: Option<int>, id: int)
    ensures id in Join(customers, preferences, b, day, time, service)
            <==> IsCustomerOf(customers, b, id) && HasFit(preferences, id, day, time, service)
  {
    if customers != [] {
      var front, last := customers[..|customers| - 1], customers[|customers| - 1];
      assert customers == front + [last];
      hide HasFit, JoinOne, IsCustomerOf;
      JoinHas(front, preferences, b, day, time, service, id);
      JoinOneHas(last, preferences, b, day, time, service, id);
      IsCustomerStep(front, last, b, id);
    }
  }

  // ----- Membership in the matrix -----

  lemma {:induction false} ServiceRowsHave(id: int, day: int, time: TimeSlot, services: seq<Option<int>>, p: Preference)
    ensures p in ServiceRows(id, day, time, services)
            <==> p.customerId == id && p.day == day && p.time == time && p.service in services
  {
    if services != [] {
      ServiceRowsHave(id, day, time, services[..|services| - 1], p);
      assert services == services[..|services| - 1] + [services[|services| - 1]];
    }
  }

  lemma {:induction false} TimeRowsHave(id: int, day: int, times: seq<TimeSlot>, services: seq<Option<int>>,
          p: Preference)
    ensures p in TimeRows(id, day, times, services)
            <==> p.customerId == id && p.day == day && p.time in times && p.service in services
  {
    if times != [] {
      TimeRowsHave(id, day, times[..|times| - 1], services, p);
      ServiceRowsHave(id, day, times[|times| - 1], services, p);
      assert times == times[..|times| - 1] + [times[|times| - 1]];
    }
  }

  lemma {:induction false} DayRowsHave(id: int, days: seq<int>, times: seq<TimeSlot>, services: seq<Option<int>>,
          p: Preference)
    ensures p in DayRows(id, days, times, services)
            <==> p.customerId == id && p.day in days && p.time in times && p.service in services
  {
    if days != [] {
      DayRowsHave(id, days[..|days| - 1], times, services, p);
      TimeRowsHave(id, days[|days| - 1], times, services, p);
      assert days == days[..|days| - 1] + [days[|days| - 1]];
    }
  }

  /** The rows of the customer are gone and each other row is there as often as before. */
  lemma {:induction false} WithoutHas(preferences: seq<Preference>, id: int, p: Preference)
    ensures multiset(Without(preferences, id))[p] == if p.customerId == id then 0 else multiset(preferences)[p]
    ensures p in Without(preferences, id) <==> p in preferences && p.customerId != id
  {
    if preferences != [] {
      var front, last := preferences[..|preferences| - 1], preferences[|preferences| - 1];
      WithoutHas(front, id, p);
      assert preferences == front + [last];
    }
  }

  // ----- Every run -----

  datatype Op = OptInOp(businessId: int, data: OptIn) | OptOutOp(customerId: int)

  /** The tables, and for each customer the latest registration not revoked since. */
  datatype World = World(tables: Tables, latest: map<int, OptIn>)

  function Step(w: World, op: Op): World {
    match op
    case OptInOp(b, data) =>
      var i := Find(w.tables.customers, b, data.phone);
      var id := if i < |w.tables.customers| then w.tables.customers[i].id else w.tables.nextId;
      World(Register(w.tables, b, data), w.latest[id := data])
    case OptOutOp(id) => World(OptOut(w.tables, id), w.latest - {id})
  }

  function Run(ops: seq<Op>): World {
    if ops == [] then World(Tables([], [], 1), map[]) else Step(Run(ops[..|ops| - 1]), ops[|ops| - 1])
  }

  /** What a registration asks for. */
  predicate Asks(data: OptIn, day: int, time: TimeSlot, service: Option<int>) {
    day in data.days && time in data.times && service in ServicesOf(data.services)
  }

  predicate CustomersValid(t: Tables) {
    && (forall i :: 0 <= i < |t.customers| ==> t.customers[i].id < t.nextId)
    && (forall i, j :: 0 <= i < j < |t.customers| ==> t.customers[i].id != t.customers[j].id)
  }

  predicate HasCustomer(t: Tables, id: int) {
    exists i :: 0 <= i < |t.customers| && t.customers[i].id == id
  }

  ghost predicate PreferencesAre(preferences: seq<Preference>, latest: map<int, OptIn>) {
    forall p :: p in preferences <==> p.customerId in latest && Asks(latest[p.customerId], p.day, p.time, p.service)
  }

  /** No two customers of a business with the same phone number. */
  predicate OneRowEach(customers: seq<Customer>) {
    forall i, j :: 0 <= i < j < |customers| ==>
      customers[i].businessId != customers[j].businessId || customers[i].phone != customers[j].phone
  }

  ghost predicate Valid(w: World) {
    && CustomersValid(w.tables) && OneRowEach(w.tables.customers)
    && (forall id :: id in w.latest ==> HasCustomer(w.tables, id))
    && PreferencesAre(w.tables.preferences, w.latest)
  }

  lemma ReplacedPreferences(preferences: seq<Preference>, latest: map<int, OptIn>, id: int,
          data: OptIn)
    requires PreferencesAre(preferences, latest)
    ensures PreferencesAre(Without(preferences, id) + Matrix(id, data), latest[id := data])
    ensures PreferencesAre(Without(preferences, id), latest - {id})
  {
    hide ServicesOf, Without, DayRows;
    forall p: Preference
      ensures p in Without(preferences, id) <==> p in preferences && p.customerId != id
      ensures p in Matrix(id, data) <==> p.customerId == id && Asks(data, p.day, p.time, p.service)
    {
      WithoutHas(preferences, id, p);
      DayRowsHave(id, data.days, data.times, ServicesOf(data.services), p);
    }
    hide Matrix, Asks;
  }

  lemma {:induction false} NoRows(preferences: seq<Preference>, id: int)
    requires forall p :: p in preferences ==> p.customerId != id
    ensures Without(preferences, id) == preferences
  {
    if preferences != [] {
      assert preferences == preferences[..|preferences| - 1] + [preferences[|preferences| - 1]];
      NoRows(preferences[..|preferences| - 1], id);
    }
  }

  lemma StepValid(w: World, op: Op)
    requires Valid(w)
    ensures Valid(Step(w, op))
  {
    hide Without, Matrix, PreferencesAre;
    var t, t' := w.tables, Step(w, op).tables;
    match op {
      case OptOutOp(id) =>
        ReplacedPreferences(t.preferences, w.latest, id, OptIn("", "", [], [], []));
        if !HasCustomer(t, id) {
          assert w.latest - {id} == w.latest;
        }
        assert forall k :: HasCustomer(t, k) ==> HasCustomer(t', k);
      case OptInOp(b, data) =>
        var i := Find(t.customers, b, data.phone);
        var id := if i < |t.customers| then t.customers[i].id else t.nextId;
        ReplacedPreferences(t.preferences, w.latest, id, data);
        if i == |t.customers| {
          NewCustomerHasNoRows(w);
          NoRows(t.preferences, id);
        }
        forall k | HasCustomer(t, k) || k == id ensures HasCustomer(t', k) {
          if k == id {
            assert t'.customers[i].id == id;
          } else {
            var j :| 0 <= j < |t.customers| && t.customers[j].id == k;
            assert t'.customers[j].id == k;
          }
        }
    }
  }

  lemma NewCustomerHasNoRows(w: World)
    requires Valid(w)
    ensures forall p :: p in w.tables.preferences ==> p.customerId != w.tables.nextId
  {
  }

  lemma {:induction false} RunValid(ops: seq<Op>)
    ensures Valid(Run(ops))
  {
    hide Step;
    if ops != [] {
      RunValid(ops[..|ops| - 1]);
      StepValid(Run(ops[..|ops| - 1]), ops[|ops| - 1]);
    }
  }

  predicate HasRow(customers: seq<Customer>, businessId: int, phone: string) {
    exists i :: 0 <= i < |customers| && customers[i].businessId == businessId && customers[i].phone == phone
  }

  /** Whoever registered with a business has exactly one row there, opted out or not. */
  lemma OneCustomerEach(ops: seq<Op>)
    ensures var customers := Run(ops).tables.customers;
            && (forall i, j :: 0 <= i < j < |customers| ==>
                  customers[i].businessId != customers[j].businessId || customers[i].phone != customers[j].phone)
            && forall op :: op in ops && op.OptInOp? ==> HasRow(customers, op.businessId, op.data.phone)
  {
    RunValid(ops);
    hide Run, HasRow;
    forall op | op in ops && op.OptInOp? ensures HasRow(Run(ops).tables.customers, op.businessId, op.data.phone) {
      RegisteredHasRow(ops, op);
    }
  }

  lemma {:induction false} RegisteredHasRow(ops: seq<Op>, op: Op)
    requires op in ops && op.OptInOp?
    ensures HasRow(Run(ops).tables.customers, op.businessId, op.data.phone)
  {
    var front, last := ops[..|ops| - 1], ops[|ops| - 1];
    hide HasRow, Step;
    assert ops == front + [last];
    if op != last {
      RegisteredHasRow(front, op);
    }
    StillHasRow(Run(front), last, op.businessId, op.data.phone);
  }

  lemma StillHasRow(w: World, op: Op, b: int, phone: string)
    requires HasRow(w.tables.customers, b, phone)
             || (op.OptInOp? && op.businessId == b && op.data.phone == phone)
    ensures HasRow(Step(w, op).tables.customers, b, phone)
  {
    hide Without, Matrix;
    var customers, after := w.tables.customers, Step(w, op).tables.customers;
    if op.OptInOp? && op.businessId == b && op.data.phone == phone {
      var i := Find(customers, b, phone);
      assert after[i].businessId == b && after[i].phone == phone;
    } else {
      var i :| 0 <= i < |customers| && customers[i].businessId == b && customers[i].phone == phone;
      assert after[i].businessId == b && after[i].phone == phone;
    }
  }

  /** The last registration of a phone number with a business, unless the customer opted out after it. */
  function LastOptIn(ops: seq<Op>, businessId: int, phone: string, id: int): Option<OptIn> {
    if ops == [] then None
    else
      var last := ops[|ops| - 1];
      if last.OptInOp? && last.businessId == businessId && last.data.phone == phone then Some(last.data)
      else if last == OptOutOp(id) then None
      else LastOptIn(ops[..|ops| - 1], businessId, phone, id)
  }

  /** The registration includes the day and the time, and names no service or that of the slot. */
  predicate AsksFor(data: Option<OptIn>, day: int, time: TimeSlot, service: Option<int>) {
    && data.Some? && day in data.value.days && time in data.value.times
    && (data.value.services == [] || (service.Some? && service.value in data.value.services))
  }

  /** What the tables hold for a customer: the registration behind his rows. */
  function Held(w: World, c: Customer): Option<OptIn> {
    if c.id in w.latest then Some(w.latest[c.id]) else None
  }

  /** What the tables hold for each customer is the last registration of his number with the business. */
  lemma {:induction false} LatestIs(ops: seq<Op>)
    ensures forall c :: c in Run(ops).tables.customers ==>
              Held(Run(ops), c) == LastOptIn(ops, c.businessId, c.phone, c.id)
  {
    if ops != [] {
      var front, op := ops[..|ops| - 1], ops[|ops| - 1];
      var w := Run(front);
      LatestIs(front);
      RunValid(front);
      hide Step, Valid, Held;
      forall c | c in Run(ops).tables.customers
        ensures Held(Run(ops), c) == LastOptIn(ops, c.businessId, c.phone, c.id)
      {
        HeldStep(w, op, c);
      }
    }
  }

  /** The row behind a customer of the next state, whose name may have changed, and what is held for him. */
  lemma HeldStep(w: World, op: Op, c: Customer)
    requires Valid(w) && c in Step(w, op).tables.customers
    ensures var held := Held(Step(w, op), c);
            if op.OptInOp? && op.businessId == c.businessId && op.data.phone == c.phone then held == Some(op.data)
            else if op == OptOutOp(c.id) then held == None
            else exists b :: && b in w.tables.customers && held == Held(w, b)
                             && b.id == c.id && b.businessId == c.businessId && b.phone == c.phone
  {
    hide Without, Matrix, PreferencesAre;
    var customers, after := w.tables.customers, Step(w, op).tables.customers;
    var i :| 0 <= i < |after| && after[i] == c;
    if i < |customers| {
      assert customers[i] in customers;
    }
  }

  /**
   Over every run of registrations and opt-outs the query returns, in increasing order and without
   duplicates, exactly the business's customers whose last registration, made with the business under
   their number and not revoked, asks for the slot.
   */
  lemma MatchingIsExact(ops: seq<Op>, businessId: int, day: int, time: TimeSlot,
          service: Option<int>)
    ensures var w := Run(ops);
            var ids := FindMatching(w.tables, businessId, day, time, service);
            && Increasing(ids)
            && forall id :: id in ids <==> exists i ::
                 && 0 <= i < |w.tables.customers| && w.tables.customers[i].id == id
                 && w.tables.customers[i].businessId == businessId
                 && AsksFor(LastOptIn(ops, businessId, w.tables.customers[i].phone, id), day, time, service)
  {
    var w := Run(ops);
    RunValid(ops);
    LatestIs(ops);
    hide Run, Join, Find, DistinctOrdered, IsCustomerOf, HasFit, AsksFor, LastOptIn;
    assert forall i :: 0 <= i < |w.tables.customers| ==> w.tables.customers[i] in w.tables.customers;
    forall id
      ensures id in Join(w.tables.customers, w.tables.preferences, businessId, day, time, service)
              <==> exists i ::
                 && 0 <= i < |w.tables.customers| && w.tables.customers[i].id == id
                 && w.tables.customers[i].businessId == businessId
                 && AsksFor(LastOptIn(ops, businessId, w.tables.customers[i].phone, id), day, time, service)
    {
      JoinHas(w.tables.customers, w.tables.preferences, businessId, day, time, service, id);
      RowThatFits(w, id, day, time, service);
      CustomerAt(w.tables.customers, businessId, id);
    }
  }

  lemma CustomerAt(customers: seq<Customer>, b: int, id: int)
    ensures IsCustomerOf(customers, b, id)
            <==> exists i :: 0 <= i < |customers| && customers[i].id == id && customers[i].businessId == b
  {
    if i :| 0 <= i < |customers| && customers[i].id == id && customers[i].businessId == b {
      assert customers[i] in customers;
    }
  }

  /** A customer has a row that fits exactly when the latest registration asks for the slot. */
  lemma RowThatFits(w: World, id: int, day: int, time: TimeSlot, service: Option<int>)
    requires Valid(w)
    ensures HasFit(w.tables.preferences, id, day, time, service)
            <==> AsksFor(if id in w.latest then Some(w.latest[id]) else None, day, time, service)
  {
    hide CustomersValid, HasCustomer;
    var any, given := Preference(id, day, time, None), Preference(id, day, time, service);
    assert Fits(any, day, time, service) && Fits(given, day, time, service);
    assert any in w.tables.preferences <==> id in w.latest && Asks(w.latest[id], day, time, None);
    assert given in w.tables.preferences <==> id in w.latest && Asks(w.latest[id], day, time, service);
    if p :| p in w.tables.preferences && p.customerId == id && Fits(p, day, time, service) {
      assert p == any || p == given;
    }
  }
}
