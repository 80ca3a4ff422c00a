/**
 Incoming WhatsApp messages: action payloads and their parsers, the guard against duplicates, and
 what any number of deliveries, in any interleaving, can do.
 */
module Webhook {
  import opened Wrappers
  import opened Decimal
  import Phone
  import Matching
  import SlotProtocol

  // ----- Payload parsers -----

  /** str.split(":"). */
  function Split(s: string): (parts: seq<string>)
    ensures |parts| >= 1
  {
    if s == "" then [""]
    else
      var front, c := Split(s[..|s| - 1]), s[|s| - 1];
      if c == ':' then front + [""] else front[..|front| - 1] + [front[|front| - 1] + [c]]
  }

  /** Digits, with single underscores between them. */
  predicate IsNumeral(s: string) {
    && s != "" && IsDigit(s[0]) && IsDigit(s[|s| - 1])
    && forall i :: 0 <= i < |s| && !IsDigit(s[i]) ==> s[i] == '_' && IsDigit(s[i - 1]) && IsDigit(s[i + 1])
  }

  /** int() on ASCII text; None where it raises. */
  function ParseInt(s: string): Option<int> {
    var t := Phone.Trim(s);
    var negative, u := t != "" && t[0] == '-', if t != "" && (t[0] == '-' || t[0] == '+') then t[1..] else t;
    if !IsNumeral(u) then None
    else
      var n: int := FromDecimal(Phone.DigitsOnly(u));
      Some(if negative then -n else n)
  }

  /** claim:{slot}:{customer} or claim:slot:{slot}:cust:{customer}; None for anything else. */
  function ParseClaimPayload(payload: string): Option<(int, int)> {
    var parts := Split(payload);
    if |parts| == 3 && parts[0] == "claim" then Both(ParseInt(parts[1]), ParseInt(parts[2]))
    else if |parts| >= 5 && parts[0] == "claim" && parts[1] == "slot" then Both(ParseInt(parts[2]), ParseInt(parts[4]))
    else None
  }

  function Both(a: Option<int>, b: Option<int>): Option<(int, int)> {
    if a.Some? && b.Some? then Some((a.value, b.value)) else None
  }

  /** The customer id or the phone number an opt-out names. */
  function ParseOptoutPayload(payload: string): (Option<int>, Option<string>) {
    var parts := Split(payload);
    if |parts| == 2 && parts[0] == "optout" && parts[1] != "" && AllDigits(parts[1]) then (ParseInt(parts[1]), None)
    else if |parts| == 3 && parts[0] == "optout" && parts[1] == "cust" then (ParseInt(parts[2]), None)
    else if |parts| >= 3 && parts[0] == "optout" && parts[1] == "phone" then (None, Some(parts[2]))
    else (None, None)
  }

  predicate NoColon(s: string) {
    forall i :: 0 <= i < |s| ==> s[i] != ':'
  }

  /** Splitting off the part after the last colon. */
  lemma {:induction false} SplitLast(a: string, b: string)
    requires NoColon(b)
    ensures Split(a + ":" + b) == Split(a) + [b]
    decreases |b|
  {
    var s := a + ":" + b;
    if b == "" {
      assert s[..|s| - 1] == a;
    } else {
      var b' := b[..|b| - 1];
      assert s[..|s| - 1] == a + ":" + b';
      SplitLast(a, b');
      assert b' + [b[|b| - 1]] == b;
    }
  }

  lemma {:induction false} SplitOne(s: string)
    requires NoColon(s)
    ensures Split(s) == [s]
  {
    if s != "" {
      SplitOne(s[..|s| - 1]);
      assert s == s[..|s| - 1] + [s[|s| - 1]];
    }
  }

  lemma ParseDecimal(n: nat)
    ensures ParseInt(ToDecimal(n)) == Some(n)
    ensures NoColon(ToDecimal(n))
  {
    hide ToDecimal;
    var s := ToDecimal(n);
    DecimalRoundTrip(n);
    DigitsParse(s);
  }

  /** A sign in front of the digits is read as int() reads it. */
  lemma SignedParses(n: int)
    requires n >= 0
    ensures ParseInt("+" + ToDecimal(n)) == Some(n) && ParseInt("-" + ToDecimal(n)) == Some(-n)
  {
    DecimalRoundTrip(n);
    var s := ToDecimal(n);
    hide ToDecimal, FromDecimal, ParseInt;
    SignedDigits("+", s, n);
    SignedDigits("-", s, n);
  }

  lemma SignedDigits(sign: string, s: string, n: int)
    requires |sign| == 1 && (sign[0] == '+' || sign[0] == '-')
    requires s != "" && AllDigits(s) && n == FromDecimal(s)
    ensures ParseInt(sign + s) == Some(if sign[0] == '-' then -n else n)
  {
    hide FromDecimal, Phone.DigitsOnly, Phone.Filtered, IsNumeral, Phone.Trim, AllDigits, IsDigit;
    Phone.FilteredDigits(s);
    DigitsAreNumeral(s);
    SignedTrim(sign, s);
  }

  lemma SignedTrim(sign: string, s: string)
    requires |sign| == 1 && (sign[0] == '+' || sign[0] == '-') && s != "" && AllDigits(s)
    ensures var t := sign + s; Phone.Trim(t) == t && t[0] == sign[0] && t[1..] == s
  {
    var t := sign + s;
    assert t[0] == sign[0] && IsDigit(s[|s| - 1]) && t[|t| - 1] == s[|s| - 1];
  }

  lemma DigitsParse(s: string)
    requires s != "" && AllDigits(s)
    ensures ParseInt(s) == Some(FromDecimal(s))
    ensures NoColon(s)
  {
    hide FromDecimal, Phone.DigitsOnly, Phone.Filtered, IsNumeral;
    Phone.FilteredDigits(s);
    DigitsAreNumeral(s);
    assert IsDigit(s[0]) && IsDigit(s[|s| - 1]);
    assert Phone.Trim(s) == s;
  }

  lemma DigitsAreNumeral(s: string)
    requires s != "" && AllDigits(s)
    ensures IsNumeral(s)
  {
  }

  /** The parts with colons between them. */
  function Joined(parts: seq<string>): string
    requires parts != []
  {
    if |parts| == 1 then parts[0] else Joined(parts[..|parts| - 1]) + ":" + parts[|parts| - 1]
  }

  lemma {:induction false} SplitJoined(parts: seq<string>)
    requires parts != [] && forall i :: 0 <= i < |parts| ==> NoColon(parts[i])
    ensures Split(Joined(parts)) == parts
  {
    hide NoColon, Split;
    var front, last := parts[..|parts| - 1], parts[|parts| - 1];
    assert parts == front + [last];
    if front == [] {
      SplitOne(last);
    } else {
      SplitJoined(front);
      SplitLast(Joined(front), last);
    }
  }

  /** Which payloads claim a slot: three parts, or at least five that name it so. Of the numbers neither may fail. */
  lemma ClaimForms(parts: seq<string>)
    requires parts != [] && forall i :: 0 <= i < |parts| ==> NoColon(parts[i])
    ensures ParseClaimPayload(Joined(parts)).Some?
            <==> && parts[0] == "claim"
                 && ((|parts| == 3 && ParseInt(parts[1]).Some? && ParseInt(parts[2]).Some?)
                     || (|parts| >= 5 && parts[1] == "slot" && ParseInt(parts[2]).Some? && ParseInt(parts[4]).Some?))
  {
    SplitJoined(parts);
    hide Split, Joined, ParseInt, NoColon;
  }

  /** Which payloads opt out: by a number of digits, by the word cust, or by the word phone. */
  lemma OptoutForms(parts: seq<string>)
    requires parts != [] && forall i :: 0 <= i < |parts| ==> NoColon(parts[i])
    ensures ParseOptoutPayload(Joined(parts)) != (None, None)
            <==> && parts[0] == "optout"
                 && ((|parts| == 2 && parts[1] != "" && AllDigits(parts[1]))
                     || (|parts| == 3 && parts[1] == "cust" && ParseInt(parts[2]).Some?)
                     || (|parts| >= 3 && parts[1] == "phone"))
  {
    SplitJoined(parts);
    if |parts| == 2 && parts[1] != "" && AllDigits(parts[1]) {
      DigitsParse(parts[1]);
    }
    hide Split, Joined, ParseInt, NoColon;
  }

  /** Both claim payloads that name a slot and a customer are read as that slot and customer. */
  lemma ClaimPayloadRoundTrip(slot: nat, customer: nat)
    ensures ParseClaimPayload("claim:slot" + ":" + ToDecimal(slot) + ":" + "cust" + ":" + ToDecimal(customer))
            == Some((slot, customer))
    ensures ParseClaimPayload("claim" + ":" + ToDecimal(slot) + ":" + ToDecimal(customer)) == Some((slot, customer))
  {
    hide ParseInt, ToDecimal, Split;
    var s, c := ToDecimal(slot), ToDecimal(customer);
    ParseDecimal(slot);
    ParseDecimal(customer);
    SplitOne("claim");
    SplitLast("claim", "slot");
    assert "claim" + ":" + "slot" == "claim:slot";
    SplitLast("claim:slot", s);
    SplitLast("claim:slot" + ":" + s, "cust");
    SplitLast("claim:slot" + ":" + s + ":" + "cust", c);
    SplitLast("claim", s);
    SplitLast("claim" + ":" + s, c);
  }

  /** The opt-out payloads are read as the customer or the phone number they were made from. */
  lemma OptoutPayloadRoundTrip(customer: nat, from: string)
    ensures ParseOptoutPayload("optout:cust" + ":" + ToDecimal(customer)) == (Some(customer), None)
    ensures ParseOptoutPayload("optout" + ":" + ToDecimal(customer)) == (Some(customer), None)
    ensures NoColon(from) ==> ParseOptoutPayload("optout:phone" + ":" + from) == (None, Some(from))
  {
    hide ParseInt, ToDecimal, Split;
    var c := ToDecimal(customer);
    ParseDecimal(customer);
    SplitOne("optout");
    SplitLast("optout", "cust");
    SplitLast("optout", "phone");
    assert "optout" + ":" + "cust" == "optout:cust" && "optout" + ":" + "phone" == "optout:phone";
    SplitLast("optout:cust", c);
    SplitLast("optout", c);
    if NoColon(from) {
      SplitLast("optout:phone", from);
    }
  }

  // ----- Messages -----

  /** The parts of a message the worker reads; `body` is already stripped and in lower case. */
  datatype Message =
    Message(id: string, from: string, button: Option<string>, reply: Option<string>, body: Option<string>)

  /** The words that opt a sender out. */
  predicate IsStopWord(s: string) {
    s in {"stop", "unsubscribe", "\U{05D4}\U{05E1}\U{05E8}", "\U{05D1}\U{05D8}\U{05DC}",
        "\U{05D4}\U{05E1}\U{05E8}\U{05D4}"}
  }

  /** The action a message asks for; empty if none. */
  function ActionPayload(m: Message): string {
    if m.button.Some? && m.button.value != "" then m.button.value
    else if m.reply.Some? then m.reply.value
    else if m.body.Some? && IsStopWord(m.body.value) then "optout:phone:" + m.from
    else ""
  }

  datatype Text = Winner(slotId: int, customerId: int) | Lost(slotId: int, customerId: int)
                | OwnerNotice(slotId: int, customerId: int) | OptedOut(customerId: int)

  /** Redis keys of the messages seen, the tables, and the texts sent. */
  datatype State = State(keys: set<string>, slots: map<int, SlotProtocol.Row>, customers: seq<Matching.Customer>,
                         preferences: seq<Matching.Preference>, texts: seq<Text>)

  predicate HasCustomer(customers: seq<Matching.Customer>, id: int) {
    exists i :: 0 <= i < |customers| && customers[i].id == id
  }

  /** The ids of the customers with one of the given phone numbers. */
  function ByPhone(customers: seq<Matching.Customer>, variants: set<string>): seq<int> {
    if customers == [] then []
    else
      var last := customers[|customers| - 1];
      ByPhone(customers[..|customers| - 1], variants) + if last.phone in variants then [last.id] else []
  }

  /** Customer i has one of the numbers, and nobody else has. */
  predicate IsOnly(customers: seq<Matching.Customer>, numbers: set<string>, i: nat) {
    i < |customers| && forall k :: 0 <= k < |customers| ==> (customers[k].phone in numbers <==> k == i)
  }

  lemma {:induction false} NobodyFound(customers: seq<Matching.Customer>, numbers: set<string>)
    requires forall k :: 0 <= k < |customers| ==> customers[k].phone !in numbers
    ensures ByPhone(customers, numbers) == []
  {
    if customers != [] {
      NobodyFound(customers[..|customers| - 1], numbers);
    }
  }

  lemma {:induction false} OneFound(customers: seq<Matching.Customer>, numbers: set<string>, i: nat)
    requires IsOnly(customers, numbers, i)
    ensures ByPhone(customers, numbers) == [customers[i].id]
  {
    var n := |customers| - 1;
    if i == n {
      NobodyFound(customers[..n], numbers);
    } else {
      OneFound(customers[..n], numbers, i);
    }
  }

  lemma {:induction false} SomeFound(customers: seq<Matching.Customer>, numbers: set<string>, i: nat)
    requires i < |customers| && customers[i].phone in numbers
    ensures ByPhone(customers, numbers) != []
  {
    var n := |customers| - 1;
    if i < n {
      SomeFound(customers[..n], numbers, i);
    }
  }

  lemma {:induction false} TwoFound(customers: seq<Matching.Customer>, numbers: set<string>, i: nat, j: nat)
    requires i < j < |customers| && customers[i].phone in numbers && customers[j].phone in numbers
    ensures |ByPhone(customers, numbers)| > 1
  {
    var n := |customers| - 1;
    if j < n {
      TwoFound(customers[..n], numbers, i, j);
    } else {
      SomeFound(customers[..n], numbers, i);
    }
  }

  /** What a message leaves behind, and whether it ended the whole payload with an exception. */
  datatype Outcome = Outcome(state: State, aborted: bool)

  function ClaimAction(s: State, slotId: int, customerId: int): State {
    if slotId == 0 || customerId == 0 || !HasCustomer(s.customers, customerId) || slotId !in s.slots then s
    else if s.slots[slotId].status == SlotProtocol.OPEN then
      s.(slots := s.slots[slotId := SlotProtocol.ClaimRow(s.slots[slotId], customerId)],
         texts := s.texts + [Winner(slotId, customerId), OwnerNotice(slotId, customerId)])
    else s.(texts := s.texts + [Lost(slotId, customerId)])
  }

  function OptOut(s: State, id: int): State {
    s.(preferences := Matching.Without(s.preferences, id), texts := s.texts + [OptedOut(id)])
  }

  /** An opt-out by id, or by phone number: the one in the payload, else the sender's. */
  function OptoutAction(s: State, id: Option<int>, phone: Option<string>, from: string): Outcome {
    if id.Some? && id.value != 0 then
      Outcome(if HasCustomer(s.customers, id.value) then OptOut(s, id.value) else s, false)
    else
      var target := if phone.Some? && phone.value != "" then phone.value else from;
      var found := if target == "" then [] else ByPhone(s.customers, Phone.Variants(target));
      if |found| > 1 then Outcome(s, true)
      else Outcome(if found == [] then s else OptOut(s, found[0]), false)
  }

  function Act(s: State, m: Message): Outcome {
    var payload := ActionPayload(m);
    if "claim:" <= payload then
      match ParseClaimPayload(payload)
      case None => Outcome(s, false)
      case Some(ids) => Outcome(ClaimAction(s, ids.0, ids.1), false)
    else if "optout:" <= payload then
      var target := ParseOptoutPayload(payload);
      OptoutAction(s, target.0, target.1, m.from)
    else Outcome(s, false)
  }

  /** The id is unknown, or there is none. */
  predicate IsNew(s: State, m: Message) {
    m.id == "" || m.id !in s.keys
  }

  function Remember(s: State, m: Message): State {
    if m.id == "" then s else s.(keys := s.keys + {m.id})
  }

  /** One message: the guard and, if it passes, the action. */
  function Deliver(s: State, m: Message): Outcome {
    if IsNew(s, m) then Act(Remember(s, m), m) else Outcome(s, false)
  }

  /** All messages of a payload, up to an exception. */
  function DeliverAll(s: State, messages: seq<Message>): Outcome
    decreases |messages|
  {
    if messages == [] then Outcome(s, false)
    else
      var o := Deliver(s, messages[0]);
      if o.aborted then o else DeliverAll(o.state, messages[1..])
  }

  class Worker {
    var keys: set<string>
    var slots: map<int, SlotProtocol.Row>
    var customers: seq<Matching.Customer>
    var preferences: seq<Matching.Preference>
    var texts: seq<Text>

    function Contents(): State
      reads this
    {
      State(keys, slots, customers, preferences, texts)
    }

    /** The loop over the messages of a payload, run without another delivery in between. */
    method ProcessMessages(messages: seq<Message>) returns (aborted: bool)
      modifies this
      ensures Outcome(Contents(), aborted) == DeliverAll(old(Contents()), messages)
    {
      hide ClaimAction, OptoutAction, ActionPayload, ParseClaimPayload, ParseOptoutPayload;
      assert messages[0..] == messages;
      for i := 0 to |messages|
        invariant DeliverAll(old(Contents()), messages) == DeliverAll(Contents(), messages[i..])
      {
        var msg := messages[i];
        ghost var before := Contents();
        assert messages[i..][0] == msg && messages[i..][1..] == messages[i + 1..];
        if msg.id != "" {
          if msg.id in keys {
            continue;
          }
          keys := keys + {msg.id};
        }
        assert Contents() == Remember(before, msg);
        var actionPayload := ActionPayload(msg);
        if "claim:" <= actionPayload {
          var ids := ParseClaimPayload(actionPayload);
          if ids.Some? {
            HandleClaim(ids.value.0, ids.value.1);
          }
        } else if "optout:" <= actionPayload {
          var target := ParseOptoutPayload(actionPayload);
          var failed := HandleOptout(target.0, target.1, msg.from);
          if failed {
            return true;
          }
        }
      }
      aborted := false;
    }

    method HandleClaim(slotId: int, customerId: int)
      modifies this`slots, this`texts
      ensures Contents() == ClaimAction(old(Contents()), slotId, customerId)
      ensures var known := slotId != 0 && customerId != 0 && slotId in old(slots)
                           && exists i :: 0 <= i < |customers| && customers[i].id == customerId;
              if !known then
                slots == old(slots) && texts == old(texts)
              else if old(slots)[slotId].status == SlotProtocol.OPEN then
                && slots == old(slots)[slotId := SlotProtocol.Row(SlotProtocol.CLAIMED, Some(customerId),
                                                                  old(slots)[slotId].version + 1)]
                && texts == old(texts) + [Winner(slotId, customerId), OwnerNotice(slotId, customerId)]
              else
                slots == old(slots) && texts == old(texts) + [Lost(slotId, customerId)]
    {
      if slotId == 0 || customerId == 0 {
        return;
      }
      if !HasCustomer(customers, customerId) || slotId !in slots {
        return;
      }
      var row := slots[slotId];
      if row.status == SlotProtocol.OPEN {
        slots := slots[slotId := SlotProtocol.Row(SlotProtocol.CLAIMED, Some(customerId), row.version + 1)];
        texts := texts + [Winner(slotId, customerId)];
        texts := texts + [OwnerNotice(slotId, customerId)];
      } else {
        texts := texts + [Lost(slotId, customerId)];
      }
    }

    method HandleOptout(id: Option<int>, phone: Option<string>, from: string) returns (aborted: bool)
      modifies this`preferences, this`texts
      ensures Outcome(Contents(), aborted) == OptoutAction(old(Contents()), id, phone, from)
      ensures id.Some? && id.value != 0 ==>
                && !aborted
                && if exists i :: 0 <= i < |customers| && customers[i].id == id.value then
                     preferences == Matching.Without(old(preferences), id.value)
                     && texts == old(texts) + [OptedOut(id.value)]
                   else
                     preferences == old(preferences) && texts == old(texts)
    {
      hide Phone.Variants;
      var customer: Option<int> := None;
      if id.Some? && id.value != 0 {
        if HasCustomer(customers, id.value) {
          customer := id;
        }
      } else if (phone.Some? && phone.value != "") || from != "" {
        var targetPhone := if phone.Some? && phone.value != "" then phone.value else from;
        var variants := Phone.GetPhoneSearchVariants(targetPhone);
        var found := ByPhone(customers, variants);
        if |found| > 1 {
          return true;
        }
        if |found| == 1 {
          customer := Some(found[0]);
        }
      }
      if customer.Some? {
        preferences := Matching.Without(preferences, customer.value);
        texts := texts + [OptedOut(customer.value)];
      }
      aborted := false;
    }
  }

  // ----- Who is opted out -----

  /** An opt-out by phone number: exactly one customer has it in some spelling, nobody has, or several have. */
  lemma OptoutByPhone(s: State, id: Option<int>, phone: Option<string>, from: string)
    requires id == None || id == Some(0)
    ensures var target := if phone == None || phone == Some("") then from else phone.value;
            var numbers, o := if target == "" then {} else Phone.Variants(target), OptoutAction(s, id, phone, from);
            && (forall i: nat :: IsOnly(s.customers, numbers, i) ==>
                  var c := s.customers[i].id;
                  o == Outcome(s.(preferences := Matching.Without(s.preferences, c), texts := s.texts + [OptedOut(c)]),
                               false))
            && ((forall i :: 0 <= i < |s.customers| ==> s.customers[i].phone !in numbers) ==> o == Outcome(s, false))
            && ((exists i, j :: 0 <= i < j < |s.customers| && s.customers[i].phone in numbers
                                && s.customers[j].phone in numbers) ==> o == Outcome(s, true))
  {
    hide Phone.Variants;
    var target := if phone == None || phone == Some("") then from else phone.value;
    var numbers := if target == "" then {} else Phone.Variants(target);
    forall i: nat | IsOnly(s.customers, numbers, i) ensures ByPhone(s.customers, numbers) == [s.customers[i].id] {
      OneFound(s.customers, numbers, i);
    }
    if forall i :: 0 <= i < |s.customers| ==> s.customers[i].phone !in numbers {
      NobodyFound(s.customers, numbers);
    }
    if i, j :| 0 <= i < j < |s.customers| && s.customers[i].phone in numbers && s.customers[j].phone in numbers {
      TwoFound(s.customers, numbers, i, j);
    }
  }

  /** Two customers share the numbers. */
  predicate AreShared(customers: seq<Matching.Customer>, numbers: set<string>) {
    exists i, j :: 0 <= i < j < |customers| && customers[i].phone in numbers && customers[j].phone in numbers
  }

  lemma SharedFound(customers: seq<Matching.Customer>, numbers: set<string>)
    ensures |ByPhone(customers, numbers)| > 1 <==> AreShared(customers, numbers)
  {
    if i, j :| 0 <= i < j < |customers| && customers[i].phone in numbers && customers[j].phone in numbers {
      TwoFound(customers, numbers, i, j);
    } else if i :| 0 <= i < |customers| && customers[i].phone in numbers {
      assert IsOnly(customers, numbers, i);
      OneFound(customers, numbers, i);
    } else {
      NobodyFound(customers, numbers);
    }
  }

  /**
   A message ends its payload exactly when it is new, asks to opt out without naming an id other than
   0, and several customers share the number it names or, if it names none, that of the sender.
   */
  lemma AbortIff(s: State, m: Message)
    ensures var payload := ActionPayload(m);
            var (id, phone) := ParseOptoutPayload(payload);
            var target := if phone == None || phone == Some("") then m.from else phone.value;
            Deliver(s, m).aborted
            <==> && (m.id == "" || m.id !in s.keys) && "optout:" <= payload && (id == None || id == Some(0))
                 && target != "" && AreShared(s.customers, Phone.Variants(target))
  {
    var payload := ActionPayload(m);
    var (id, phone) := ParseOptoutPayload(payload);
    var target := if phone == None || phone == Some("") then m.from else phone.value;
    SharedFound(s.customers, Phone.Variants(target));
    assert "claim:" <= payload ==> payload[0] == 'c';
    assert "optout:" <= payload ==> payload[0] == 'o';
    hide ActionPayload, ParseOptoutPayload, ParseClaimPayload, ByPhone, AreShared, Phone.Variants, ClaimAction;
  }

  /**
   A text with a stop word from the digits of a mobile number, as WhatsApp gives senders, opts out the
   one customer whose number was normalised to it; with two such customers it opts out none of them.
   */
  lemma StopWordOptsOut(s: State, m: Message, d: string)
    requires (m.button == None || m.button == Some("")) && m.reply == None
    requires m.id != "" && m.id !in s.keys && m.body.Some?
    requires m.body.value
             in {"stop", "unsubscribe", "\U{05D4}\U{05E1}\U{05E8}", "\U{05D1}\U{05D8}\U{05DC}",
                 "\U{05D4}\U{05E1}\U{05E8}\U{05D4}"}
    requires AllDigits(d) && |d| == 8 && m.from == "9725" + d
    requires forall i :: 0 <= i < |s.customers| ==> s.customers[i].phone !in {"9725" + d, "05" + d}
    ensures var t, o := s.(keys := s.keys + {m.id}), Deliver(s, m);
            && (forall i: nat :: IsOnly(s.customers, {"+9725" + d}, i) ==>
                  var c := s.customers[i].id;
                  o == Outcome(t.(preferences := Matching.Without(s.preferences, c), texts := s.texts + [OptedOut(c)]),
                               false))
            && ((forall i :: 0 <= i < |s.customers| ==> s.customers[i].phone != "+9725" + d) ==> o == Outcome(t, false))
            && ((exists i, j :: 0 <= i < j < |s.customers| && s.customers[i].phone == "+9725" + d
                                && s.customers[j].phone == "+9725" + d) ==> o == Outcome(t, true))
  {
    var t, numbers := s.(keys := s.keys + {m.id}), {"9725" + d, "+9725" + d, "05" + d};
    StopPayload(m, d);
    MobileVariants(d);
    OptoutByPhone(t, None, Some(m.from), m.from);
    assert Phone.Variants(m.from) == numbers;
    assert Deliver(s, m) == OptoutAction(t, None, Some(m.from), m.from);
    hide OptoutAction, Phone.Variants, AllDigits, Deliver, ByPhone;
    assert m.from != "";
    forall i: nat | IsOnly(s.customers, {"+9725" + d}, i) ensures IsOnly(t.customers, numbers, i) {
    }
  }

  lemma MobileVariants(d: string)
    requires AllDigits(d) && |d| == 8
    ensures Phone.Variants("9725" + d) == {"9725" + d, "+9725" + d, "05" + d}
  {
    Spellings(d);
    Phone.VariantsOfDigits("9725" + d);
    hide Phone.Variants;
  }

  lemma Spellings(d: string)
    ensures var s := "9725" + d; "972" <= s && "0" + s[3..] == "05" + d && "+" + s == "+9725" + d
  {
  }

  lemma StopPayload(m: Message, d: string)
    requires (m.button == None || m.button == Some("")) && m.reply == None && m.body.Some? && IsStopWord(m.body.value)
    requires AllDigits(d) && m.from == "9725" + d
    ensures !("claim:" <= ActionPayload(m)) && "optout:" <= ActionPayload(m)
    ensures ParseOptoutPayload(ActionPayload(m)) == (None, Some(m.from))
  {
    assert NoColon(m.from);
    OptoutPayloadRoundTrip(0, m.from);
    PhonePayload(m.from);
    hide ParseOptoutPayload, NoColon, AllDigits, IsStopWord;
  }

  lemma PhonePayload(from: string)
    ensures "optout:phone:" + from == "optout:phone" + ":" + from
    ensures !("claim:" <= "optout:phone:" + from) && "optout:" <= "optout:phone:" + from
  {
    assert ("optout:phone:" + from)[0] == 'o';
  }

  /** Any other text does nothing, nor does a message with an empty reply. */
  lemma OtherTextsIgnored(s: State, m: Message)
    requires m.button == None || m.button == Some("")
    requires m.reply == Some("")
             || (m.reply == None && m.body == None)
             || (m.reply == None
                 && m.body.value
                    !in {"stop", "unsubscribe", "\U{05D4}\U{05E1}\U{05E8}", "\U{05D1}\U{05D8}\U{05DC}",
                         "\U{05D4}\U{05E1}\U{05E8}\U{05D4}"})
    ensures Deliver(s, m) == Outcome(if m.id == "" then s else s.(keys := s.keys + {m.id}), false)
  {
  }

  /** A template button counts before a reply, and a reply before a text; either does the same. */
  lemma ButtonCountsFirst(s: State, m: Message, payload: string)
    requires payload != ""
    requires m.button == Some(payload) || ((m.button == None || m.button == Some("")) && m.reply == Some(payload))
    ensures Deliver(s, m) == Deliver(s, Message(m.id, m.from, Some(payload), None, None))
  {
    hide ParseClaimPayload, ParseOptoutPayload, ClaimAction, OptoutAction, IsStopWord;
  }

  // ----- Replays -----

  predicate AllKnown(s: State, messages: seq<Message>) {
    forall i :: 0 <= i < |messages| ==> messages[i].id != "" && messages[i].id in s.keys
  }

  /** Messages whose ids are known change nothing at all. */
  lemma {:induction false} KnownMessagesIgnored(s: State, known: seq<Message>, rest: seq<Message>)
    requires AllKnown(s, known)
    ensures DeliverAll(s, known + rest) == DeliverAll(s, rest)
    decreases |known|
  {
    hide Act;
    if known == [] {
      assert known + rest == rest;
    } else {
      assert (known + rest)[0] == known[0] && (known + rest)[1..] == known[1..] + rest;
      KnownMessagesIgnored(s, known[1..], rest);
    }
  }

  /** How many messages of a payload the worker looks at: all, or up to the one that raises. */
  function Reached(s: State, messages: seq<Message>): (k: nat)
    ensures k <= |messages|
    ensures DeliverAll(s, messages).aborted ==> k > 0
    ensures !DeliverAll(s, messages).aborted ==> k == |messages|
    decreases |messages|
  {
    if messages == [] then 0
    else
      var o := Deliver(s, messages[0]);
      if o.aborted then 1 else 1 + Reached(o.state, messages[1..])
  }

  lemma DeliverKeys(s: State, m: Message)
    ensures Deliver(s, m).state.keys == Remember(s, m).keys
  {
    hide ActionPayload, ParseClaimPayload, ParseOptoutPayload, HasCustomer, ByPhone;
  }

  /** The messages before the last one reached pass, and an aborted payload ends at that one. */
  lemma {:induction false} ReachedIs(s: State, messages: seq<Message>)
    ensures var k := Reached(s, messages);
            DeliverAll(s, messages).aborted ==>
              && !DeliverAll(s, messages[..k - 1]).aborted
              && Deliver(DeliverAll(s, messages[..k - 1]).state, messages[k - 1]).aborted
    decreases |messages|
  {
    hide Deliver;
    if DeliverAll(s, messages).aborted {
      var k, o := Reached(s, messages), Deliver(s, messages[0]);
      if !o.aborted {
        ReachedIs(o.state, messages[1..]);
        assert messages[..k - 1][1..] == messages[1..][..k - 2] && messages[1..][k - 2] == messages[k - 1];
      }
    }
  }

  lemma {:induction false} DeliverAllKeys(s: State, messages: seq<Message>)
    ensures s.keys <= DeliverAll(s, messages).state.keys
    ensures forall i :: 0 <= i < Reached(s, messages) && messages[i].id != "" ==>
              messages[i].id in DeliverAll(s, messages).state.keys
    decreases |messages|
  {
    hide Deliver;
    if messages != [] {
      var o := Deliver(s, messages[0]);
      DeliverKeys(s, messages[0]);
      if !o.aborted {
        DeliverAllKeys(o.state, messages[1..]);
        assert forall i :: 0 < i < |messages| ==> messages[i] == messages[1..][i - 1];
      }
    }
  }

  /**
   Delivering a payload of messages with ids again, at once or after any other payloads, does what
   delivering only the messages after the one that raised would do: nothing if none did, so no slot
   and no preference changes and no text is sent.
   */
  lemma ReplayDoesNothing(s: State, messages: seq<Message>, others: seq<Message>)
    requires forall i :: 0 <= i < |messages| ==> messages[i].id != ""
    ensures var later := DeliverAll(DeliverAll(s, messages).state, others).state;
            && DeliverAll(later, messages) == DeliverAll(later, messages[Reached(s, messages)..])
            && (!DeliverAll(s, messages).aborted ==> DeliverAll(later, messages) == Outcome(later, false))
  {
    var k, after := Reached(s, messages), DeliverAll(s, messages).state;
    var later := DeliverAll(after, others).state;
    DeliverNone(later);
    hide DeliverAll, Reached;
    DeliverAllKeys(s, messages);
    DeliverAllKeys(after, others);
    assert AllKnown(later, messages[..k]);
    KnownMessagesIgnored(later, messages[..k], messages[k..]);
    assert messages[..k] + messages[k..] == messages;
  }

  lemma DeliverNone(s: State)
    ensures DeliverAll(s, []) == Outcome(s, false)
  {
  }

  // ----- Any interleaving of workers -----

  /**
   Worker p passes the guard with a message, commits its action to the tables, sends the next text
   due for it, or dies with its action not performed or its texts not sent. Other processes write
   the status of a row, which is never CLAIMED, and claim slots over HTTP, where no text is sent to
   the winner.
   */
  datatype Event =
    | Accept(p: nat, m: Message)
    | Perform(p: nat)
    | Tell(p: nat)
    | Crash(p: nat)
    | Write(slotId: int, status: SlotProtocol.Status)
    | HttpClaim(slotId: int, customerId: int)

  /** Whether a text that is due was sent, is still to be sent, or was lost with its worker. */
  datatype Stage = Waiting | Told | Gone

  datatype Post = Post(worker: nat, stage: Stage)

  /**
   The shared state, the messages accepted and not yet acted on, and the ids acted on so far. The
   texts of the state are those due; `posts` tells what became of each.
   */
  datatype System = System(state: State, accepted: map<nat, Message>, acted: seq<string>, posts: seq<Post>)

  predicate IsBusy(posts: seq<Post>, p: nat) {
    exists i :: 0 <= i < |posts| && posts[i] == Post(p, Waiting)
  }

  /** New texts are due from worker p. */
  function Due(posts: seq<Post>, p: nat, n: nat): seq<Post> {
    if |posts| >= n then posts else Due(posts, p, n - 1) + [Post(p, Waiting)]
  }

  /** The first text due from worker p is sent. */
  function TellNext(posts: seq<Post>, p: nat): (r: seq<Post>)
    ensures |r| == |posts|
  {
    if posts == [] then []
    else if posts[0] == Post(p, Waiting) then [Post(p, Told)] + posts[1..]
    else [posts[0]] + TellNext(posts[1..], p)
  }

  /** The texts due from worker p are lost. */
  function Forget(posts: seq<Post>, p: nat): (r: seq<Post>)
    ensures |r| == |posts|
  {
    seq(|posts|, i requires 0 <= i < |posts| => if posts[i] == Post(p, Waiting) then Post(p, Gone) else posts[i])
  }

  function Step(y: System, e: Event): System {
    match e
    case Accept(p, m) =>
      if p !in y.accepted && !IsBusy(y.posts, p) && IsNew(y.state, m) then
        y.(state := Remember(y.state, m), accepted := y.accepted[p := m])
      else y
    case Perform(p) =>
      if p in y.accepted then
        var after := Act(y.state, y.accepted[p]).state;
        System(after, y.accepted - {p}, y.acted + [y.accepted[p].id], Due(y.posts, p, |after.texts|))
      else y
    case Tell(p) => y.(posts := TellNext(y.posts, p))
    case Crash(p) => y.(accepted := y.accepted - {p}, posts := Forget(y.posts, p))
    case Write(slotId, status) =>
      if slotId in y.state.slots && status != SlotProtocol.CLAIMED then
        SetRow(y, slotId, SlotProtocol.WriteStatus(y.state.slots[slotId], Some(status)))
      else y
    case HttpClaim(slotId, customerId) =>
      if slotId in y.state.slots then SetRow(y, slotId, SlotProtocol.ClaimRow(y.state.slots[slotId], customerId))
      else y
  }

  function SetRow(y: System, slotId: int, row: SlotProtocol.Row): System {
    y.(state := y.state.(slots := y.state.slots[slotId := row]))
  }

  function Run(y: System, events: seq<Event>): System {
    if events == [] then y else Step(Run(y, events[..|events| - 1]), events[|events| - 1])
  }

  /** No worker under way; the texts so far count as sent. */
  function Begin(s: State): System {
    System(s, map[], [], seq(|s.texts|, i => Post(0, Told)))
  }

  /** The workers about to act on an id. */
  ghost function Holders(accepted: map<nat, Message>, id: string): set<nat> {
    set p | p in accepted && accepted[p].id == id
  }

  function Times(acted: seq<string>, id: string): nat {
    multiset(acted)[id]
  }

  /** Each id seen is acted on or waiting at most once; an id not seen is neither. */
  ghost predicate OncePerId(y: System) {
    forall id :: id != "" ==> Times(y.acted, id) + |Holders(y.accepted, id)| <= if id in y.state.keys then 1 else 0
  }

  lemma ActKeepsKeys(s: State, m: Message)
    ensures Act(s, m).state.keys == s.keys
  {
    hide ActionPayload, ParseClaimPayload, ParseOptoutPayload, HasCustomer, ByPhone;
  }

  lemma HoldersLess(accepted: map<nat, Message>, p: nat, id: string)
    ensures |Holders(accepted - {p}, id)|
            == |Holders(accepted, id)| - if p in accepted && accepted[p].id == id then 1 else 0
  {
    if p in accepted && accepted[p].id == id {
      assert Holders(accepted, id) == Holders(accepted - {p}, id) + {p};
    } else {
      assert Holders(accepted, id) == Holders(accepted - {p}, id);
    }
  }

  lemma HoldersMore(accepted: map<nat, Message>, p: nat, m: Message, id: string)
    requires p !in accepted
    ensures |Holders(accepted[p := m], id)| == |Holders(accepted, id)| + if m.id == id then 1 else 0
  {
    HoldersLess(accepted[p := m], p, id);
    assert accepted[p := m] - {p} == accepted;
  }

  lemma StepOncePerId(y: System, e: Event)
    requires OncePerId(y)
    ensures OncePerId(Step(y, e))
  {
    hide Act, Holders, Due, TellNext, Forget, IsBusy;
    var y' := Step(y, e);
    forall id: string | id != ""
      ensures Times(y'.acted, id) + |Holders(y'.accepted, id)| <= if id in y'.state.keys then 1 else 0
    {
      assert Times(y.acted, id) + |Holders(y.accepted, id)| <= if id in y.state.keys then 1 else 0;
      match e {
        case Accept(p, m) =>
          if p !in y.accepted && !IsBusy(y.posts, p) && IsNew(y.state, m) {
            HoldersMore(y.accepted, p, m, id);
          }
        case Perform(p) =>
          HoldersLess(y.accepted, p, id);
          if p in y.accepted {
            ActKeepsKeys(y.state, y.accepted[p]);
          }
        case Tell(p) =>
        case Crash(p) =>
          HoldersLess(y.accepted, p, id);
        case _ =>
      }
    }
  }

  /**
   Across any number of workers and any interleaving within the lifetime of the keys, each
   non-empty message id leads to at most one action.
   */
  lemma AtMostOneAction(s: State, events: seq<Event>, id: string)
    requires id != ""
    ensures Times(Run(Begin(s), events).acted, id) <= 1
  {
    RunOncePerId(s, events);
  }

  lemma {:induction false} RunOncePerId(s: State, events: seq<Event>)
    ensures OncePerId(Run(Begin(s), events))
  {
    hide Step, OncePerId;
    if events == [] {
      NothingHeld(s);
    } else {
      RunOncePerId(s, events[..|events| - 1]);
      StepOncePerId(Run(Begin(s), events[..|events| - 1]), events[|events| - 1]);
    }
  }

  lemma NothingHeld(s: State)
    ensures OncePerId(Begin(s))
  {
    assert forall id :: Holders(map[], id) == {};
  }

  // ----- What the texts say -----

  /** The customers told that they won the slot, in order. */
  function WinnersOf(texts: seq<Text>, slotId: int): seq<int> {
    if texts == [] then []
    else
      var last := texts[|texts| - 1];
      WinnersOf(texts[..|texts| - 1], slotId) + if last.Winner? && last.slotId == slotId then [last.customerId] else []
  }

  /** A slot is as it was and nobody was told otherwise, or it was open and is claimed by the one customer told so. */
  predicate SlotAgrees(before: SlotProtocol.Row, after: SlotProtocol.Row, winners: seq<int>) {
    || (winners == [] && after == before)
    || (|winners| == 1 && before.status == SlotProtocol.OPEN && after == SlotProtocol.ClaimRow(before, winners[0]))
  }

  /** An action that leads from s to t did nothing to the slot, or claimed it for a customer to be told so. */
  ghost predicate ActionAgrees(s: State, t: State, slotId: int)
    requires slotId in s.slots
  {
    && t.slots.Keys == s.slots.Keys
    && exists winners: seq<int> ::
         && WinnersOf(t.texts, slotId) == WinnersOf(s.texts, slotId) + winners
         && SlotAgrees(s.slots[slotId], t.slots[slotId], winners)
  }

  lemma WinnersPush(texts: seq<Text>, t: Text, slotId: int)
    ensures WinnersOf(texts + [t], slotId)
            == WinnersOf(texts, slotId) + if t.Winner? && t.slotId == slotId then [t.customerId] else []
  {
    assert (texts + [t])[..|texts|] == texts;
  }

  lemma AgreesWith(s: State, t: State, slotId: int, winners: seq<int>)
    requires slotId in s.slots && t.slots.Keys == s.slots.Keys
    requires WinnersOf(t.texts, slotId) == WinnersOf(s.texts, slotId) + winners
    requires SlotAgrees(s.slots[slotId], t.slots[slotId], winners)
    ensures ActionAgrees(s, t, slotId)
  {
  }

  lemma ClaimAgrees(s: State, claimed: int, customerId: int, slotId: int)
    requires slotId in s.slots
    ensures ActionAgrees(s, ClaimAction(s, claimed, customerId), slotId)
  {
    hide HasCustomer, WinnersOf, ActionAgrees;
    var t := ClaimAction(s, claimed, customerId);
    WinnersPush(s.texts, Winner(claimed, customerId), slotId);
    WinnersPush(s.texts + [Winner(claimed, customerId)], OwnerNotice(claimed, customerId), slotId);
    WinnersPush(s.texts, Lost(claimed, customerId), slotId);
    assert s.texts + [Winner(claimed, customerId)] + [OwnerNotice(claimed, customerId)]
           == s.texts + [Winner(claimed, customerId), OwnerNotice(claimed, customerId)];
    AgreesWith(s, t, slotId, if t.slots[slotId] != s.slots[slotId] then [customerId] else []);
  }

  lemma OptOutAgrees(s: State, id: int, slotId: int)
    requires slotId in s.slots
    ensures ActionAgrees(s, OptOut(s, id), slotId) && ActionAgrees(s, s, slotId)
  {
    hide WinnersOf, ActionAgrees;
    WinnersPush(s.texts, OptedOut(id), slotId);
    AgreesWith(s, OptOut(s, id), slotId, []);
    AgreesWith(s, s, slotId, []);
  }

  lemma OptoutActionAgrees(s: State, id: Option<int>, phone: Option<string>, from: string, slotId: int)
    requires slotId in s.slots
    ensures ActionAgrees(s, OptoutAction(s, id, phone, from).state, slotId)
  {
    hide ActionAgrees, HasCustomer, ByPhone, OptOut, Phone.Variants;
    OptOutAgrees(s, if id.Some? then id.value else 0, slotId);
    var target := if phone.Some? && phone.value != "" then phone.value else from;
    var found := ByPhone(s.customers, Phone.Variants(target));
    if found != [] {
      OptOutAgrees(s, found[0], slotId);
    }
  }

  lemma ActAgrees(s: State, m: Message, slotId: int)
    requires slotId in s.slots
    ensures ActionAgrees(s, Act(s, m).state, slotId)
  {
    var payload := ActionPayload(m);
    hide ActionAgrees, ActionPayload, HasCustomer, ByPhone, OptOut, ClaimAction, OptoutAction;
    OptOutAgrees(s, 0, slotId);
    if "claim:" <= payload {
      var ids := ParseClaimPayload(payload);
      hide ParseClaimPayload;
      if ids.Some? {
        ClaimAgrees(s, ids.value.0, ids.value.1, slotId);
      }
    } else if "optout:" <= payload {
      var target := ParseOptoutPayload(payload);
      hide ParseOptoutPayload;
      OptoutActionAgrees(s, target.0, target.1, m.from, slotId);
    }
  }

  /** A successful claim: its customer, and whether a worker made it. */
  datatype Win = Win(customer: Option<int>, byWorker: bool)

  /** The event takes the row from OPEN to CLAIMED. */
  predicate Claims(before: System, after: System, slotId: int) {
    && slotId in before.state.slots && before.state.slots[slotId].status == SlotProtocol.OPEN
    && slotId in after.state.slots && after.state.slots[slotId].status == SlotProtocol.CLAIMED
  }

  /** The event takes the row out of CLAIMED. */
  predicate Leaves(before: System, after: System, slotId: int) {
    && slotId in before.state.slots && before.state.slots[slotId].status == SlotProtocol.CLAIMED
    && slotId in after.state.slots && after.state.slots[slotId].status != SlotProtocol.CLAIMED
  }

  /** The successful claims of a slot in a run, in order. */
  function Wins(y: System, events: seq<Event>, slotId: int): seq<Win>
    decreases |events|
  {
    if events == [] then []
    else
      var front, e := events[..|events| - 1], events[|events| - 1];
      var before, after := Run(y, front), Step(Run(y, front), e);
      Wins(y, front, slotId)
      + if Claims(before, after, slotId) then [Win(after.state.slots[slotId].claimedBy, e.Perform?)] else []
  }

  /** How often a run takes a slot out of CLAIMED. */
  function TimesLeft(y: System, events: seq<Event>, slotId: int): nat
    decreases |events|
  {
    if events == [] then 0
    else
      var front, e := events[..|events| - 1], events[|events| - 1];
      TimesLeft(y, front, slotId) + if Leaves(Run(y, front), Step(Run(y, front), e), slotId) then 1 else 0
  }

  /** The customers of the claims made by workers. */
  function WorkerWins(wins: seq<Win>): seq<int> {
    if wins == [] then []
    else
      var last := wins[|wins| - 1];
      WorkerWins(wins[..|wins| - 1]) + if last.byWorker && last.customer.Some? then [last.customer.value] else []
  }

  function IsClaimed(row: SlotProtocol.Row): nat {
    if row.status == SlotProtocol.CLAIMED then 1 else 0
  }

  /**
   What a run that starts with `before` and makes these claims leaves of a slot: its version tells
   their number and its claimant the last, it left CLAIMED before each but the first, and the texts
   due tell the claims by workers, in order.
   */
  ghost predicate Explained(before: State, after: State, slotId: int, wins: seq<Win>, left: nat)
    requires slotId in before.slots
  {
    && after.slots.Keys == before.slots.Keys
    && var row, row' := before.slots[slotId], after.slots[slotId];
       && row'.version == row.version + |wins|
       && row'.claimedBy == (if wins == [] then row.claimedBy else wins[|wins| - 1].customer)
       && (forall i :: 0 <= i < |wins| ==> wins[i].customer.Some?)
       && |wins| + IsClaimed(row) == left + IsClaimed(row')
       && WinnersOf(after.texts, slotId) == WinnersOf(before.texts, slotId) + WorkerWins(wins)
  }

  lemma WinsPush(wins: seq<Win>, w: Win)
    ensures WorkerWins(wins + [w])
            == WorkerWins(wins) + if w.byWorker && w.customer.Some? then [w.customer.value] else []
  {
    assert (wins + [w])[..|wins|] == wins;
  }

  /** What one event does to a slot and the texts about it. */
  lemma StepExplained(y: System, e: Event, slotId: int)
    requires slotId in y.state.slots
    ensures var z := Step(y, e);
            && z.state.slots.Keys == y.state.slots.Keys
            && var row, row' := y.state.slots[slotId], z.state.slots[slotId];
               if Claims(y, z, slotId) then
                 && row'.claimedBy.Some? && row' == SlotProtocol.ClaimRow(row, row'.claimedBy.value)
                 && WinnersOf(z.state.texts, slotId)
                    == WinnersOf(y.state.texts, slotId) + if e.Perform? then [row'.claimedBy.value] else []
               else
                 && row'.(status := row.status) == row && (row' != row ==> e == Write(slotId, row'.status))
                 && (row'.status == SlotProtocol.CLAIMED ==> row.status == SlotProtocol.CLAIMED)
                 && WinnersOf(z.state.texts, slotId) == WinnersOf(y.state.texts, slotId)
  {
    hide WinnersOf, Due, TellNext, Forget, IsBusy, Act;
    if e.Perform? && e.p in y.accepted {
      ActAgrees(y.state, y.accepted[e.p], slotId);
    }
  }

  /** For every interleaving of workers, of claims over HTTP and of writes by broadcasts and owners. */
  lemma {:induction false} TextsAgreeWithSlots(y: System, events: seq<Event>, slotId: int)
    requires slotId in y.state.slots
    ensures Explained(y.state, Run(y, events).state, slotId, Wins(y, events, slotId), TimesLeft(y, events, slotId))
    decreases |events|
  {
    hide Step, WinnersOf;
    if events == [] {
      assert WinnersOf(y.state.texts, slotId) + [] == WinnersOf(y.state.texts, slotId);
    } else {
      var front, e := events[..|events| - 1], events[|events| - 1];
      var before := Run(y, front);
      TextsAgreeWithSlots(y, front, slotId);
      ExplainedOn(y.state, before, e, slotId, Wins(y, front, slotId), TimesLeft(y, front, slotId));
    }
  }

  /** One event more. */
  lemma ExplainedOn(start: State, y: System, e: Event, slotId: int, wins: seq<Win>, left: nat)
    requires slotId in start.slots && Explained(start, y.state, slotId, wins, left)
    ensures var z := Step(y, e);
            Explained(start, z.state, slotId,
                      wins + (if Claims(y, z, slotId) then [Win(z.state.slots[slotId].claimedBy, e.Perform?)] else []),
                      left + if Leaves(y, z, slotId) then 1 else 0)
  {
    hide WinnersOf, WorkerWins;
    StepExplained(y, e, slotId);
    hide Step;
    var z := Step(y, e);
    if Claims(y, z, slotId) {
      WinsPush(wins, Win(z.state.slots[slotId].claimedBy, e.Perform?));
    } else {
      assert wins + [] == wins;
    }
  }

  /** Nobody but the workers touches the slot. */
  predicate Undisturbed(events: seq<Event>, slotId: int) {
    forall i :: 0 <= i < |events| ==>
      !(events[i].Write? && events[i].slotId == slotId) && !(events[i].HttpClaim? && events[i].slotId == slotId)
  }

  /** Then at most one winner text is due, and the slot is as it was or claimed by that customer. */
  lemma {:induction false} UndisturbedSlot(y: System, events: seq<Event>, slotId: int)
    requires slotId in y.state.slots && WinnersOf(y.state.texts, slotId) == [] && Undisturbed(events, slotId)
    ensures var z := Run(y, events).state;
            z.slots.Keys == y.state.slots.Keys
            && SlotAgrees(y.state.slots[slotId], z.slots[slotId], WinnersOf(z.texts, slotId))
    decreases |events|
  {
    hide Step, WinnersOf;
    if events != [] {
      var front, e := events[..|events| - 1], events[|events| - 1];
      UndisturbedSlot(y, front, slotId);
      var before := Run(y, front);
      StepExplained(before, e, slotId);
      if Claims(before, Step(before, e), slotId) {
        ClaimEvent(before, e, slotId);
      }
    }
  }

  lemma ClaimEvent(y: System, e: Event, slotId: int)
    requires slotId in y.state.slots && Claims(y, Step(y, e), slotId)
    ensures e.Perform? || (e.HttpClaim? && e.slotId == slotId)
  {
  }

  lemma {:induction false} DueIs(posts: seq<Post>, p: nat, n: nat)
    ensures |Due(posts, p, n)| == if |posts| >= n then |posts| else n
    ensures posts <= Due(posts, p, n)
    ensures forall i :: |posts| <= i < |Due(posts, p, n)| ==> Due(posts, p, n)[i] == Post(p, Waiting)
  {
    if |posts| < n {
      DueIs(posts, p, n - 1);
    }
  }

  /** An action only adds to the texts. */
  lemma ActAddsTexts(s: State, m: Message)
    ensures s.texts <= Act(s, m).state.texts
  {
    hide ActionPayload, ParseClaimPayload, ParseOptoutPayload, HasCustomer, ByPhone;
  }

  lemma {:induction false} OnePostPerText(s: State, events: seq<Event>)
    ensures var y := Run(Begin(s), events); |y.posts| == |y.state.texts|
  {
    hide Act, Due, TellNext, Forget, IsBusy;
    if events != [] {
      var y, e := Run(Begin(s), events[..|events| - 1]), events[|events| - 1];
      OnePostPerText(s, events[..|events| - 1]);
      if e.Perform? && e.p in y.accepted {
        ActAddsTexts(y.state, y.accepted[e.p]);
        DueIs(y.posts, e.p, |Act(y.state, y.accepted[e.p]).state.texts|);
      }
    }
  }

  predicate IsWinner(t: Text, slotId: int) {
    t.Winner? && t.slotId == slotId
  }

  lemma {:induction false} WinnersHave(texts: seq<Text>, slotId: int, i: nat)
    requires i < |texts| && IsWinner(texts[i], slotId)
    ensures texts[i].customerId in WinnersOf(texts, slotId)
  {
    if i < |texts| - 1 {
      WinnersHave(texts[..|texts| - 1], slotId, i);
    }
  }

  /** Text i tells a customer of having won the slot, and has reached the given stage. */
  predicate WinnerAt(y: System, slotId: int, i: nat, stage: Stage)
    requires |y.posts| == |y.state.texts|
  {
    i < |y.posts| && IsWinner(y.state.texts[i], slotId) && y.posts[i].stage == stage
  }

  lemma {:induction false} WinnerWon(wins: seq<Win>, customer: int)
    requires customer in WorkerWins(wins)
    ensures Win(Some(customer), true) in wins
  {
    if wins[|wins| - 1] != Win(Some(customer), true) {
      WinnerWon(wins[..|wins| - 1], customer);
    }
  }

  lemma {:induction false} FewWorkerWins(wins: seq<Win>)
    ensures |WorkerWins(wins)| <= |wins|
  {
    if wins != [] {
      FewWorkerWins(wins[..|wins| - 1]);
    }
  }

  /** The texts about winning the slot that have reached the stage. */
  function StageCount(texts: seq<Text>, posts: seq<Post>, slotId: int, stage: Stage): nat
    requires |posts| == |texts|
  {
    if texts == [] then 0
    else
      var n := |texts| - 1;
      StageCount(texts[..n], posts[..n], slotId, stage)
      + if IsWinner(texts[n], slotId) && posts[n].stage == stage then 1 else 0
  }

  lemma {:induction false} StagesAddUp(texts: seq<Text>, posts: seq<Post>, slotId: int)
    requires |posts| == |texts|
    ensures |WinnersOf(texts, slotId)|
            == StageCount(texts, posts, slotId, Waiting) + StageCount(texts, posts, slotId, Told)
               + StageCount(texts, posts, slotId, Gone)
  {
    if texts != [] {
      StagesAddUp(texts[..|texts| - 1], posts[..|texts| - 1], slotId);
    }
  }

  lemma {:induction false} StageHas(texts: seq<Text>, posts: seq<Post>, slotId: int, stage: Stage)
    requires |posts| == |texts|
    ensures StageCount(texts, posts, slotId, stage) > 0
            <==> exists i: nat :: i < |texts| && IsWinner(texts[i], slotId) && posts[i].stage == stage
  {
    if texts != [] {
      var n := |texts| - 1;
      StageHas(texts[..n], posts[..n], slotId, stage);
      if i: nat :| i < n && IsWinner(texts[..n][i], slotId) && posts[..n][i].stage == stage {
        assert IsWinner(texts[i], slotId) && posts[i].stage == stage;
      }
      if i: nat :| i < |texts| && IsWinner(texts[i], slotId) && posts[i].stage == stage {
        if i < n {
          assert IsWinner(texts[..n][i], slotId) && posts[..n][i].stage == stage;
        }
      }
    }
  }

  /** Two texts that have reached the stage. */
  lemma {:induction false} TwoAtStage(texts: seq<Text>, posts: seq<Post>, slotId: int, stage: Stage, i: nat, j: nat)
    requires |posts| == |texts| && i < j < |texts|
    requires IsWinner(texts[i], slotId) && posts[i].stage == stage
    requires IsWinner(texts[j], slotId) && posts[j].stage == stage
    ensures StageCount(texts, posts, slotId, stage) >= 2
  {
    var n := |texts| - 1;
    if j < n {
      TwoAtStage(texts[..n], posts[..n], slotId, stage, i, j);
    } else {
      StageHas(texts[..n], posts[..n], slotId, stage);
      assert IsWinner(texts[..n][i], slotId) && posts[..n][i].stage == stage;
    }
  }

  /** What is known of a slot after any run. */
  lemma SlotAfter(s: State, events: seq<Event>, slotId: int)
    requires s.texts == [] && slotId in s.slots
    ensures var y, wins := Run(Begin(s), events), Wins(Begin(s), events, slotId);
            && |y.posts| == |y.state.texts|
            && Explained(s, y.state, slotId, wins, TimesLeft(Begin(s), events, slotId))
            && WinnersOf(y.state.texts, slotId) == WorkerWins(wins)
  {
    OnePostPerText(s, events);
    TextsAgreeWithSlots(Begin(s), events, slotId);
    assert WinnersOf(s.texts, slotId) == [];
    hide Run, Wins, TimesLeft, WorkerWins, WinnersOf;
    var due := WorkerWins(Wins(Begin(s), events, slotId));
    assert [] + due == due;
  }

  /**
   In any interleaving of workers with claims over HTTP and writes by broadcasts and owners: anyone
   told of having won a slot made a successful claim, and while the slot is never taken out of
   CLAIMED, he holds it and is the only one told.
   */
  lemma ToldHoldsSlot(s: State, events: seq<Event>, slotId: int, i: nat, j: nat)
    requires s.texts == [] && slotId in s.slots
    ensures var y, wins := Run(Begin(s), events), Wins(Begin(s), events, slotId);
            && |y.posts| == |y.state.texts| && slotId in y.state.slots
            && (WinnerAt(y, slotId, i, Told) ==> Win(Some(y.state.texts[i].customerId), true) in wins)
            && (WinnerAt(y, slotId, i, Told) && TimesLeft(Begin(s), events, slotId) == 0 ==>
                  && s.slots[slotId].status != SlotProtocol.CLAIMED
                  && y.state.slots[slotId] == SlotProtocol.Row(SlotProtocol.CLAIMED, Some(y.state.texts[i].customerId),
                                                               s.slots[slotId].version + 1)
                  && (WinnerAt(y, slotId, j, Told) ==> i == j))
  {
    SlotAfter(s, events, slotId);
    var y, wins := Run(Begin(s), events), Wins(Begin(s), events, slotId);
    hide Run, WinnersOf, Wins, TimesLeft, StageCount;
    if WinnerAt(y, slotId, i, Told) {
      WinnersHave(y.state.texts, slotId, i);
      WinnerWon(wins, y.state.texts[i].customerId);
      FewWorkerWins(wins);
      StagesAddUp(y.state.texts, y.posts, slotId);
      if WinnerAt(y, slotId, j, Told) && i != j {
        TwoAtStage(y.state.texts, y.posts, slotId, Told, if i < j then i else j, if i < j then j else i);
      }
    }
  }

  /** A claimed slot is won again in the rest of a run if and only if it is taken out of CLAIMED and claimed. */
  lemma WonAgainIff(y: System, events: seq<Event>, slotId: int)
    requires slotId in y.state.slots && y.state.slots[slotId].status == SlotProtocol.CLAIMED
    ensures var left, z := TimesLeft(y, events, slotId), Run(y, events);
            && slotId in z.state.slots
            && (Wins(y, events, slotId) != []
                <==> left >= 2 || (left == 1 && z.state.slots[slotId].status == SlotProtocol.CLAIMED))
  {
    TextsAgreeWithSlots(y, events, slotId);
    hide Run, WinnersOf, Wins, TimesLeft;
  }

  function ClaimMessage(id: string, slotId: nat, customerId: nat): Message {
    Message(id, "", Some("claim" + ":" + ToDecimal(slotId) + ":" + ToDecimal(customerId)), None, None)
  }

  /** A worker takes a message that claims an open slot. */
  lemma ClaimPerformed(y: System, p: nat, id: string, slotId: nat, c: nat)
    requires slotId != 0 && c != 0 && HasCustomer(y.state.customers, c) && id != "" && id !in y.state.keys
    requires slotId in y.state.slots && y.state.slots[slotId].status == SlotProtocol.OPEN
    requires p !in y.accepted && !IsBusy(y.posts, p) && |y.posts| == |y.state.texts|
    ensures var z := Step(Step(y, Accept(p, ClaimMessage(id, slotId, c))), Perform(p));
            && z.state == ClaimAction(Remember(y.state, ClaimMessage(id, slotId, c)), slotId, c)
            && z.posts == y.posts + [Post(p, Waiting), Post(p, Waiting)] && z.accepted == y.accepted
  {
    ClaimPayloadRoundTrip(slotId, c);
    hide ParseClaimPayload, ToDecimal, HasCustomer, IsBusy;
    var m := ClaimMessage(id, slotId, c);
    assert "claim:" <= ActionPayload(m) by {
      assert ActionPayload(m)[..6] == "claim:";
    }
    var n := |y.posts|;
    assert y.posts + [Post(p, Waiting)] + [Post(p, Waiting)] == y.posts + [Post(p, Waiting), Post(p, Waiting)];
    assert Due(y.posts, p, n + 1) == y.posts + [Post(p, Waiting)];
    assert y.accepted[p := m] - {p} == y.accepted;
  }

  /** The first text due from a worker is told. */
  lemma {:induction false} NextTold(posts: seq<Post>, p: nat, rest: seq<Post>)
    requires forall i :: 0 <= i < |posts| ==> posts[i] != Post(p, Waiting)
    ensures TellNext(posts + [Post(p, Waiting)] + rest, p) == posts + [Post(p, Told)] + rest
  {
    var due, told := Post(p, Waiting), Post(p, Told);
    var all := posts + [due] + rest;
    if posts == [] {
      assert all == [due] + rest && [told] + rest == posts + [told] + rest;
      assert all[1..] == rest;
    } else {
      var first, others := posts[0], posts[1..];
      NextTold(others, p, rest);
      assert all[0] == first && all[1..] == others + [due] + rest;
      assert [first] + (others + [told] + rest) == posts + [told] + rest;
    }
  }

  /** The events so far and one more. */
  lemma RunPush(y: System, events: seq<Event>, e: Event)
    ensures Run(y, events + [e]) == Step(Run(y, events), e) && Run(y, []) == y
  {
    hide Step;
    assert (events + [e])[..|events|] == events;
  }

  /** A claim by a worker and the text to the winner. */
  function ClaimAndTell(p: nat, id: string, slotId: nat, c: nat): seq<Event> {
    [Accept(p, ClaimMessage(id, slotId, c))] + [Perform(p)] + [Tell(p)]
  }

  lemma {:induction false} RunConcat(y: System, a: seq<Event>, b: seq<Event>)
    ensures Run(y, a + b) == Run(Run(y, a), b)
    decreases |b|
  {
    hide Step;
    if b == [] {
      assert a + b == a;
    } else {
      RunConcat(y, a, b[..|b| - 1]);
      assert (a + b)[..|a + b| - 1] == a + b[..|b| - 1];
    }
  }

  lemma ClaimedAndTold(y: System, p: nat, id: string, slotId: nat, c: nat)
    requires slotId != 0 && c != 0 && HasCustomer(y.state.customers, c) && id != "" && id !in y.state.keys
    requires slotId in y.state.slots && y.state.slots[slotId].status == SlotProtocol.OPEN
    requires p !in y.accepted && |y.posts| == |y.state.texts|
    requires forall i :: 0 <= i < |y.posts| ==> y.posts[i] != Post(p, Waiting)
    ensures var z := Run(y, ClaimAndTell(p, id, slotId, c));
            && z.accepted == y.accepted && z.posts == y.posts + [Post(p, Told), Post(p, Waiting)]
            && z.state == y.state.(keys := y.state.keys + {id},
                                   slots := y.state.slots[slotId := SlotProtocol.ClaimRow(y.state.slots[slotId], c)],
                                   texts := y.state.texts + [Winner(slotId, c), OwnerNotice(slotId, c)])
  {
    var m := ClaimMessage(id, slotId, c);
    var e1 := [Accept(p, m)];
    RunPush(y, [], Accept(p, m));
    assert [] + e1 == e1;
    RunPush(y, e1, Perform(p));
    RunPush(y, e1 + [Perform(p)], Tell(p));
    ClaimPerformed(y, p, id, slotId, c);
    FirstId(m, id, slotId, c);
    NextTold(y.posts, p, [Post(p, Waiting)]);
    assert y.posts + [Post(p, Waiting), Post(p, Waiting)] == y.posts + [Post(p, Waiting)] + [Post(p, Waiting)];
    assert y.posts + [Post(p, Told)] + [Post(p, Waiting)] == y.posts + [Post(p, Told), Post(p, Waiting)];
    hide HasCustomer, ClaimMessage, Run, Act, Due, TellNext, IsBusy;
  }

  /** A slot claimed, brought back to OPEN by a broadcast, and claimed again: two customers are told they won it. */
  lemma TwoAreTold(s: State, slotId: nat, a: nat, b: nat)
    requires slotId in s.slots && s.slots[slotId].status == SlotProtocol.OPEN && s.texts == [] && s.keys == {}
    requires slotId != 0 && a != 0 && b != 0 && HasCustomer(s.customers, a) && HasCustomer(s.customers, b)
    ensures var y := Run(Begin(s), ClaimAndTell(0, "a", slotId, a) + [Write(slotId, SlotProtocol.OPEN)]
                                   + ClaimAndTell(1, "b", slotId, b));
            && y.state.texts == [Winner(slotId, a), OwnerNotice(slotId, a), Winner(slotId, b), OwnerNotice(slotId, b)]
            && y.posts == [Post(0, Told), Post(0, Waiting), Post(1, Told), Post(1, Waiting)]
            && slotId in y.state.slots && y.state.slots[slotId].claimedBy == Some(b)
  {
    hide HasCustomer, Run, Act, Due, TellNext, IsBusy, ClaimAndTell;
    var y0, first, reopen := Begin(s), ClaimAndTell(0, "a", slotId, a), Write(slotId, SlotProtocol.OPEN);
    ClaimedAndTold(y0, 0, "a", slotId, a);
    RunPush(y0, first, reopen);
    var y := Run(y0, first + [reopen]);
    assert y.posts == [Post(0, Told), Post(0, Waiting)];
    assert y.state.texts == [Winner(slotId, a), OwnerNotice(slotId, a)];
    assert y.state.keys == {"a"} && "b" !in y.state.keys;
    hide Step;
    ClaimedAndTold(y, 1, "b", slotId, b);
    RunConcat(y0, first + [reopen], ClaimAndTell(1, "b", slotId, b));
  }

  lemma FirstId(m: Message, id: string, slotId: nat, c: nat)
    requires m == ClaimMessage(id, slotId, c)
    ensures m.id == id
  {
  }

  /** The claims made over HTTP. */
  function HttpWins(wins: seq<Win>): nat {
    if wins == [] then 0
    else HttpWins(wins[..|wins| - 1]) + if wins[|wins| - 1].byWorker then 0 else 1
  }

  lemma {:induction false} WinsAddUp(wins: seq<Win>)
    requires forall i :: 0 <= i < |wins| ==> wins[i].customer.Some?
    ensures |wins| == |WorkerWins(wins)| + HttpWins(wins)
    ensures HttpWins(wins) > 0 <==> exists i :: 0 <= i < |wins| && !wins[i].byWorker
  {
    if wins != [] {
      var n := |wins| - 1;
      WinsAddUp(wins[..n]);
      if i :| 0 <= i < n && !wins[..n][i].byWorker {
        assert !wins[i].byWorker;
      }
      if i :| 0 <= i < |wins| && !wins[i].byWorker {
        if i < n {
          assert !wins[..n][i].byWorker;
        }
      }
    }
  }

  /**
   In any such interleaving each successful claim was made over HTTP or its text is waiting, told or
   lost. So some claim succeeded without its customer being told if and only if one was made over
   HTTP, or its worker is still between the claim and the text, or died between the two.
   */
  lemma ClaimedUntoldIff(s: State, events: seq<Event>, slotId: int)
    requires s.texts == [] && slotId in s.slots
    ensures var y, wins := Run(Begin(s), events), Wins(Begin(s), events, slotId);
            && |y.posts| == |y.state.texts| && slotId in y.state.slots
            && var told := StageCount(y.state.texts, y.posts, slotId, Told);
               && y.state.slots[slotId].version - s.slots[slotId].version
                  == HttpWins(wins) + StageCount(y.state.texts, y.posts, slotId, Waiting) + told
                     + StageCount(y.state.texts, y.posts, slotId, Gone)
               && (y.state.slots[slotId].version - s.slots[slotId].version > told
                   <==> || (exists i :: 0 <= i < |wins| && !wins[i].byWorker)
                        || (exists i: nat :: WinnerAt(y, slotId, i, Waiting) || WinnerAt(y, slotId, i, Gone)))
  {
    SlotAfter(s, events, slotId);
    var y, wins := Run(Begin(s), events), Wins(Begin(s), events, slotId);
    hide Run, WinnersOf, Wins, TimesLeft, StageCount;
    WinsAddUp(wins);
    StagesAddUp(y.state.texts, y.posts, slotId);
    StageAt(y, slotId, Waiting);
    StageAt(y, slotId, Gone);
    hide WinnerAt;
  }

  lemma StageAt(y: System, slotId: int, stage: Stage)
    requires |y.posts| == |y.state.texts|
    ensures StageCount(y.state.texts, y.posts, slotId, stage) > 0 <==> exists i: nat :: WinnerAt(y, slotId, i, stage)
  {
    hide StageCount;
    StageHas(y.state.texts, y.posts, slotId, stage);
    if i: nat :| i < |y.posts| && IsWinner(y.state.texts[i], slotId) && y.posts[i].stage == stage {
      assert WinnerAt(y, slotId, i, stage);
    }
  }

  lemma {:induction false} TellNextIs(posts: seq<Post>, p: nat, i: nat)
    requires i < |posts|
    ensures TellNext(posts, p)[i] == posts[i]
            || (posts[i] == Post(p, Waiting) && TellNext(posts, p)[i] == Post(p, Told))
  {
    if posts[0] != Post(p, Waiting) && i > 0 {
      TellNextIs(posts[1..], p, i - 1);
    }
  }

  /** In every interleaving a worker with a message to act on has sent the texts of the last one or died. */
  lemma {:induction false} OneAtATime(s: State, events: seq<Event>, p: nat, i: nat)
    ensures var y := Run(Begin(s), events);
            p in y.accepted && i < |y.posts| ==> y.posts[i] != Post(p, Waiting)
    decreases |events|
  {
    hide Act, Due, TellNext;
    if events != [] {
      var before, e := events[..|events| - 1], events[|events| - 1];
      var y := Run(Begin(s), before);
      OneAtATime(s, before, p, i);
      match e {
        case Perform(q) =>
          if q in y.accepted {
            DueIs(y.posts, q, |Act(y.state, y.accepted[q]).state.texts|);
          }
        case Tell(q) =>
          if i < |y.posts| {
            TellNextIs(y.posts, q, i);
          }
        case _ =>
      }
    }
  }

  /** The text i was lost at event k: its worker died while it was due. */
  predicate LostAt(s: State, events: seq<Event>, i: nat, k: nat) {
    && k < |events| && events[k].Crash?
    && i < |Run(Begin(s), events[..k]).posts| && Run(Begin(s), events[..k]).posts[i] == Post(events[k].p, Waiting)
  }

  /** A text that became due is gone if and only if its worker died at some event while it was due. */
  lemma {:induction false} GoneIff(s: State, events: seq<Event>, i: nat)
    requires i < |Run(Begin(s), events).posts|
    ensures Run(Begin(s), events).posts[i].stage == Gone <==> exists k: nat :: LostAt(s, events, i, k)
    decreases |events|
  {
    if events == [] {
    } else {
      var n := |events| - 1;
      var before, e := events[..n], events[n];
      var y := Run(Begin(s), before);
      assert Run(Begin(s), events) == Step(y, e);
      forall k: nat | k < n ensures LostAt(s, before, i, k) == LostAt(s, events, i, k) {
        assert before[..k] == events[..k];
      }
      assert LostAt(s, events, i, n) <==> e.Crash? && i < |y.posts| && y.posts[i] == Post(e.p, Waiting);
      assert forall k: nat :: LostAt(s, events, i, k) ==> k < n || k == n;
      PostsStep(y, e, i);
      if i < |y.posts| {
        GoneIff(s, before, i);
      } else {
        NotLostBefore(s, before, i);
      }
    }
  }

  /** What one event does to one post. */
  lemma PostsStep(y: System, e: Event, i: nat)
    requires i < |Step(y, e).posts|
    ensures i < |y.posts| ==>
              (Step(y, e).posts[i].stage == Gone <==>
                 y.posts[i].stage == Gone || (e.Crash? && y.posts[i] == Post(e.p, Waiting)))
    ensures i >= |y.posts| ==> Step(y, e).posts[i].stage != Gone
  {
    hide Act, Due, TellNext, IsBusy;
    match e {
      case Perform(p) =>
        if p in y.accepted {
          DueIs(y.posts, p, |Act(y.state, y.accepted[p]).state.texts|);
        }
      case Tell(p) =>
        TellNextIs(y.posts, p, i);
      case _ =>
    }
  }

  /** A text not yet due was not lost. */
  lemma NotLostBefore(s: State, events: seq<Event>, i: nat)
    requires i >= |Run(Begin(s), events).posts|
    ensures forall k: nat :: !LostAt(s, events, i, k)
  {
    forall k: nat ensures !LostAt(s, events, i, k) {
      if k < |events| {
        PostsGrow(s, events, k);
      }
    }
  }

  lemma {:induction false} PostsGrow(s: State, events: seq<Event>, k: nat)
    requires k <= |events|
    ensures |Run(Begin(s), events[..k]).posts| <= |Run(Begin(s), events).posts|
    decreases |events|
  {
    hide Act, Due, TellNext, Forget, IsBusy;
    if k == |events| {
      assert events[..k] == events;
    } else {
      var n := |events| - 1;
      var y, e := Run(Begin(s), events[..n]), events[n];
      PostsGrow(s, events[..n], k);
      assert events[..n][..k] == events[..k];
      if e.Perform? && e.p in y.accepted {
        DueIs(y.posts, e.p, |Act(y.state, y.accepted[e.p]).state.texts|);
      }
    }
  }

  /** Opting out by id does to the preferences what the runs of the waitlist assume. */
  lemma OptoutIsWaitlistOptOut(s: State, id: int, from: string, nextId: int)
    requires id != 0
    ensures OptoutAction(s, Some(id), None, from).state.preferences
            == Matching.OptOut(Matching.Tables(s.customers, s.preferences, nextId), id).preferences
  {
  }

  /** A message without an id is acted on at every delivery: two texts for one opt-out. */
  lemma EmptyIdRepeats(s: State, c: nat)
    requires c != 0 && HasCustomer(s.customers, c)
    ensures var m := Message("", "", Some("optout" + ":" + ToDecimal(c)), None, None);
            DeliverAll(s, [m, m]).state.texts == s.texts + [OptedOut(c), OptedOut(c)]
  {
    OptoutPayloadRoundTrip(c, "");
    hide ParseOptoutPayload, ParseClaimPayload, ToDecimal, HasCustomer;
    var m := Message("", "", Some("optout" + ":" + ToDecimal(c)), None, None);
    assert "optout:" <= ActionPayload(m) by {
      assert ActionPayload(m)[..7] == "optout:";
    }
    assert ActionPayload(m)[0] == 'o';
    assert Deliver(s, m) == Outcome(OptOut(s, c), false);
    assert Deliver(OptOut(s, c), m) == Outcome(OptOut(OptOut(s, c), c), false);
    hide Deliver;
    var rest: seq<Message> := [];
    DeliverCons(s, m, [m]);
    DeliverCons(OptOut(s, c), m, rest);
    assert [m] + [m] == [m, m] && [m] + rest == [m];
    assert s.texts + [OptedOut(c)] + [OptedOut(c)] == s.texts + [OptedOut(c), OptedOut(c)];
  }

  lemma DeliverCons(s: State, m: Message, rest: seq<Message>)
    requires !Deliver(s, m).aborted
    ensures DeliverAll(s, [m] + rest) == DeliverAll(Deliver(s, m).state, rest)
    ensures DeliverAll(s, []) == Outcome(s, false)
  {
  }
}
