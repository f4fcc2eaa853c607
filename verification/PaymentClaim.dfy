/** The calls that touch one order's payment record (src/payment/payment.service.ts:46-98, 127-189),
    interleaved between their database calls: none of them runs in a transaction. A success delivery
    reads, claims by a conditional update and marks the order. The others read the record and later save
    what they read with their changes, which writes every column, whatever has happened since. */
module PaymentClaim {
  import opened Wrappers
  import opened Entities
  import opened Orders

  /** The order's payment record: the table allows one per order. */
  datatype Record = Record(intent: Id, status: PaymentStatus, refund: Option<Id>)

  datatype Call =
    // createPaymentIntent
    | Create                                              // the order read comes next
    | CreateForPending                                    // read PENDING; the record read comes next
    | CreateRead(found: Option<Record>)                   // Stripe comes next
    | CreateIssued(found: Option<Record>, issued: Id)     // the save comes next
    | CreateDone | CreateNotPending | CreateAlreadyPaid | CreateRefused
    // payment_intent.succeeded
    | Succeeds(intent: Id)                                 // the read comes next
    | SuccessRead                                         // the conditional update comes next
    | Claimed                                             // the order update comes next
    | Marked | Lost | Unknown
    // payment_intent.payment_failed
    | Fails(intent: Id)                                 // the read comes next
    | FailureRead(seen: Record)                           // the save comes next
    | FailureDone | FailureIgnored
    // refund
    | Refund                                              // the read comes next
    | RefundRead(taken: Record)                           // Stripe and the save come next
    | RefundSaved                                         // cancelForRefund comes next
    | RefundDone | RefundRefused

  /** History: issued lists the intents Stripe has made, claims counts won conditional updates, updates
      the order updates, displaced the saves that landed on a Succeeded record. */
  datatype System = System(
    record: Option<Record>, order: OrderStatus, calls: seq<Call>,
    issued: seq<Id>, claims: nat, updates: nat, displaced: nat)

  /** The next database call of call `i`, with the id Stripe answers when that is asked for; or a status
      change of the order by its seller or customer. */
  datatype Action = Next(i: nat, id: Id) | MoveOrder(status: OrderStatus)

  predicate Paid(record: Option<Record>) {
    record.Some? && record.value.status == Succeeded
  }

  /** The record shows that the total was collected, whether or not it has since been refunded. */
  predicate Collected(record: Option<Record>) {
    record.Some? && (record.value.status == Succeeded || record.value.refund.Some?)
  }

  predicate OnRecord(sys: System, intent: Id) {
    sys.record.Some? && sys.record.value.intent == intent
  }

  function Move(sys: System, i: nat, c: Call): System
    requires i < |sys.calls|
  {
    sys.(calls := sys.calls[i := c])
  }

  function Save(sys: System, i: nat, c: Call, r: Record): System
    requires i < |sys.calls|
  {
    Move(sys, i, c).(record := Some(r), displaced := sys.displaced + if Paid(sys.record) then 1 else 0)
  }

  /** What a save of the record writes, if that is call `i`'s next step. */
  function Written(c: Call, id: Id): Option<Record> {
    match c
    case CreateIssued(Some(r), intent) => Some(r.(intent := intent, status := Pending))
    case FailureRead(r) => Some(r.(status := Failed))
    case RefundRead(r) => Some(r.(status := Refunded, refund := Some(id)))
    case _ => None
  }

  function StepCreate(sys: System, i: nat, id: Id): System
    requires i < |sys.calls|
  {
    match sys.calls[i]
    case Create => Move(sys, i, if sys.order == PENDING then CreateForPending else CreateNotPending)
    case CreateForPending => Move(sys, i, if Paid(sys.record) then CreateAlreadyPaid else CreateRead(sys.record))
    case CreateRead(found) =>
      if id in sys.issued then sys else Move(sys, i, CreateIssued(found, id)).(issued := sys.issued + [id])
    case CreateIssued(found, intent) =>
      if found.Some? then Save(sys, i, CreateDone, Written(sys.calls[i], id).value)
      else if sys.record.Some? then Move(sys, i, CreateRefused)
      else Move(sys, i, CreateDone).(record := Some(Record(intent, Pending, None)))
    case _ => sys
  }

  function StepSuccess(sys: System, i: nat): System
    requires i < |sys.calls|
  {
    match sys.calls[i]
    case Succeeds(intent) => Move(sys, i, if OnRecord(sys, intent) then SuccessRead else Unknown)
    case SuccessRead =>
      if sys.record.Some? && !Paid(sys.record) then
        Move(sys, i, Claimed).(record := Some(sys.record.value.(status := Succeeded)), claims := sys.claims + 1)
      else Move(sys, i, Lost)
    case Claimed => Move(sys, i, Marked).(order := PAID, updates := sys.updates + 1)
    case _ => sys
  }

  function StepFailure(sys: System, i: nat, id: Id): System
    requires i < |sys.calls|
  {
    match sys.calls[i]
    case Fails(intent) =>
      Move(sys, i, if OnRecord(sys, intent) && !Paid(sys.record) then FailureRead(sys.record.value) else FailureIgnored)
    case FailureRead(_) => Save(sys, i, FailureDone, Written(sys.calls[i], id).value)
    case _ => sys
  }

  function StepRefund(sys: System, i: nat, id: Id): System
    requires i < |sys.calls|
  {
    match sys.calls[i]
    case Refund => Move(sys, i, if Paid(sys.record) then RefundRead(sys.record.value) else RefundRefused)
    case RefundRead(_) => Save(sys, i, RefundSaved, Written(sys.calls[i], id).value)
    case RefundSaved => Move(sys, i, RefundDone).(order := CANCELLED)
    case _ => sys
  }

  predicate OfCreate(c: Call) {
    c.Create? || c.CreateForPending? || c.CreateRead? || c.CreateIssued?
  }

  predicate OfSuccess(c: Call) {
    c.Succeeds? || c.SuccessRead? || c.Claimed?
  }

  predicate OfFailure(c: Call) {
    c.Fails? || c.FailureRead?
  }

  /** A step that is not possible now leaves the system as it is. */
  function Step(sys: System, a: Action): System {
    match a
    case MoveOrder(status) => if status in Allowed(sys.order) then sys.(order := status) else sys
    case Next(i, id) =>
      if i >= |sys.calls| then sys
      else if OfCreate(sys.calls[i]) then StepCreate(sys, i, id)
      else if OfSuccess(sys.calls[i]) then StepSuccess(sys, i)
      else if OfFailure(sys.calls[i]) then StepFailure(sys, i, id)
      else StepRefund(sys, i, id)
  }

  function Run(sys: System, actions: seq<Action>): System {
    if actions == [] then sys else Step(Run(sys, actions[..|actions| - 1]), actions[|actions| - 1])
  }

  predicate Fresh(c: Call) {
    c.Create? || c.Succeeds? || c.Fails? || c.Refund?
  }

  predicate Start(sys: System) {
    && !Paid(sys.record) && sys.claims == 0 && sys.updates == 0 && sys.displaced == 0
    && forall i :: 0 <= i < |sys.calls| ==> Fresh(sys.calls[i])
  }

  // ---------- Counting the deliveries between claim and order update ----------

  function Waiting(calls: seq<Call>): nat {
    if calls == [] then 0 else Waiting(calls[..|calls| - 1]) + if calls[|calls| - 1].Claimed? then 1 else 0
  }

  lemma {:induction false} WaitingAfterMove(calls: seq<Call>, i: nat, c: Call)
    requires i < |calls|
    ensures Waiting(calls[i := c]) + (if calls[i].Claimed? then 1 else 0)
            == Waiting(calls) + if c.Claimed? then 1 else 0
  {
    var last := |calls| - 1;
    if i < last {
      WaitingAfterMove(calls[..last], i, c);
      assert calls[i := c][..last] == calls[..last][i := c];
    } else {
      assert calls[i := c][..last] == calls[..last];
    }
  }

  lemma {:induction false} NoneWaiting(calls: seq<Call>)
    ensures Waiting(calls) == 0 <==> forall i :: 0 <= i < |calls| ==> !calls[i].Claimed?
  {
    if calls != [] {
      NoneWaiting(calls[..|calls| - 1]);
      assert forall i :: 0 <= i < |calls| - 1 ==> calls[i] == calls[..|calls| - 1][i];
    }
  }

  // ---------- Invariant ----------

  predicate PastUpdate(c: Call) {
    c.Claimed? || c.Marked? || c.Lost?
  }

  /** A success delivery is past its conditional update, won or lost. */
  predicate Settled(sys: System) {
    exists i :: 0 <= i < |sys.calls| && PastUpdate(sys.calls[i])
  }

  ghost predicate Inv(sys: System) {
    && sys.claims == sys.displaced + (if Paid(sys.record) then 1 else 0)
    && sys.updates + Waiting(sys.calls) == sys.claims
    && (sys.updates > 0 ==> sys.order != PENDING)
    && (Settled(sys) ==> Paid(sys.record) || sys.displaced > 0)
    && (forall i :: 0 <= i < |sys.calls| && sys.calls[i].SuccessRead? ==> sys.record.Some?)
  }

  lemma StartInv(sys: System)
    requires Start(sys)
    ensures Inv(sys)
  {
    NoneWaiting(sys.calls);
  }

  /** The call moves and Settled can change only through it. */
  lemma MovedCall(sys: System, i: nat, c: Call)
    requires i < |sys.calls| && Inv(sys)
    ensures Waiting(sys.calls[i := c]) + (if sys.calls[i].Claimed? then 1 else 0)
            == Waiting(sys.calls) + if c.Claimed? then 1 else 0
    ensures PastUpdate(sys.calls[i]) || !PastUpdate(c) ==> (Settled(Move(sys, i, c)) ==> Settled(sys))
  {
    WaitingAfterMove(sys.calls, i, c);
    if Settled(Move(sys, i, c)) {
      var j :| 0 <= j < |sys.calls| && PastUpdate(sys.calls[i := c][j]);
      assert j != i ==> PastUpdate(sys.calls[j]);
    }
  }

  lemma SaveKeepsInv(sys: System, i: nat, c: Call, r: Record)
    requires Inv(sys) && i < |sys.calls| && r.status != Succeeded
    requires !sys.calls[i].Claimed? && !PastUpdate(c) && !c.SuccessRead?
    ensures Inv(Save(sys, i, c, r))
  {
    MovedCall(sys, i, c);
  }

  /** A move that leaves the record as it is and neither makes nor uses up a claim. */
  lemma MoveKeepsInv(sys: System, i: nat, c: Call)
    requires Inv(sys) && i < |sys.calls|
    requires !sys.calls[i].Claimed? && !c.Claimed? && (c.SuccessRead? ==> sys.record.Some?)
    requires PastUpdate(c) ==> PastUpdate(sys.calls[i]) || Paid(sys.record)
    ensures Inv(Move(sys, i, c))
  {
    MovedCall(sys, i, c);
  }

  lemma CreateKeepsInv(sys: System, i: nat, id: Id)
    requires Inv(sys) && i < |sys.calls| && OfCreate(sys.calls[i])
    ensures Inv(StepCreate(sys, i, id))
  {
    var sys' := StepCreate(sys, i, id);
    var written := Written(sys.calls[i], id);
    if written.Some? {
      SaveKeepsInv(sys, i, CreateDone, written.value);
    } else if sys' != sys {
      MoveKeepsInv(sys, i, sys'.calls[i]);
    }
  }

  lemma SuccessKeepsInv(sys: System, i: nat)
    requires Inv(sys) && i < |sys.calls| && OfSuccess(sys.calls[i])
    ensures Inv(StepSuccess(sys, i))
  {
    var c := StepSuccess(sys, i).calls[i];
    MovedCall(sys, i, c);
    if c.Marked? {
      assert Settled(sys);
    }
  }

  lemma FailureKeepsInv(sys: System, i: nat, id: Id)
    requires Inv(sys) && i < |sys.calls| && OfFailure(sys.calls[i])
    ensures Inv(StepFailure(sys, i, id))
  {
    if sys.calls[i].FailureRead? {
      SaveKeepsInv(sys, i, FailureDone, Written(sys.calls[i], id).value);
    } else {
      MoveKeepsInv(sys, i, StepFailure(sys, i, id).calls[i]);
    }
  }

  lemma RefundKeepsInv(sys: System, i: nat, id: Id)
    requires Inv(sys) && i < |sys.calls|
    ensures Inv(StepRefund(sys, i, id))
  {
    if sys.calls[i].RefundRead? {
      SaveKeepsInv(sys, i, RefundSaved, Written(sys.calls[i], id).value);
    } else if StepRefund(sys, i, id) != sys {
      MoveKeepsInv(sys, i, StepRefund(sys, i, id).calls[i]);
    }
  }

  lemma StepKeepsInv(sys: System, a: Action)
    requires Inv(sys)
    ensures Inv(Step(sys, a))
  {
    if a.Next? && a.i < |sys.calls| {
      if OfCreate(sys.calls[a.i]) {
        CreateKeepsInv(sys, a.i, a.id);
      } else if OfSuccess(sys.calls[a.i]) {
        SuccessKeepsInv(sys, a.i);
      } else if OfFailure(sys.calls[a.i]) {
        FailureKeepsInv(sys, a.i, a.id);
      } else {
        RefundKeepsInv(sys, a.i, a.id);
      }
    }
  }

  lemma {:induction false} RunKeepsInv(sys: System, actions: seq<Action>)
    requires Inv(sys)
    ensures Inv(Run(sys, actions))
  {
    if actions != [] {
      RunKeepsInv(sys, actions[..|actions| - 1]);
      StepKeepsInv(Run(sys, actions[..|actions| - 1]), actions[|actions| - 1]);
    }
  }

  /** Under any interleaving of any number of calls: the won claims are one for a record now Succeeded
      and one for each success a save displaced; every won claim either has updated the order or is
      about to; and no order that was updated is PENDING. */
  lemma ClaimsAreBalanced(sys: System, actions: seq<Action>)
    requires Start(sys)
    ensures var end := Run(sys, actions);
            && end.claims == end.displaced + (if Paid(end.record) then 1 else 0)
            && end.updates + Waiting(end.calls) == end.claims
            && (end.updates > 0 ==> end.order != PENDING)
  {
    StartInv(sys);
    RunKeepsInv(sys, actions);
  }

  // ---------- When createPaymentIntent answers that the order is already paid ----------

  /** On any run, for a call whose record read comes next: it answers "already paid" exactly when more
      claims have been won than saves have displaced. If the order is still PENDING those claims have
      not reached it: the answer is given exactly when more deliveries stand between claim and order
      update than successes were displaced - with none displaced, when one stands there. */
  lemma AlreadyPaidExactlyInTheWindow(sys: System, actions: seq<Action>, i: nat, id: Id)
    requires Start(sys) && i < |Run(sys, actions).calls| && Run(sys, actions).calls[i].CreateForPending?
    ensures var end := Run(sys, actions);
            var answered := Step(end, Next(i, id)).calls[i].CreateAlreadyPaid?;
            && (answered <==> end.claims > end.displaced)
            && (end.order == PENDING ==> (answered <==> Waiting(end.calls) > end.displaced))
            && (end.order == PENDING && end.displaced == 0 ==>
                  (answered <==> exists k :: 0 <= k < |end.calls| && end.calls[k].Claimed?))
  {
    ClaimsAreBalanced(sys, actions);
    NoneWaiting(Run(sys, actions).calls);
  }

  /** The window is reached: a call that reads order and record between a delivery's claim and its order
      update finds a PENDING order already paid. */
  lemma AlreadyPaidIsAnswered(x: Id)
    ensures var start := System(Some(Record(x, Pending, None)), PENDING, [Succeeds(x), Create], [x], 0, 0, 0);
            var end := Step(Step(Step(Step(start, Next(0, 0)), Next(0, 0)), Next(1, 0)), Next(1, 0));
            Start(start) && end.calls == [Claimed, CreateAlreadyPaid] && end.order == PENDING
  {
    var start := System(Some(Record(x, Pending, None)), PENDING, [Succeeds(x), Create], [x], 0, 0, 0);
    assert Step(start, Next(0, 0)).calls == [SuccessRead, Create];
    assert Step(Step(start, Next(0, 0)), Next(0, 0)).calls == [Claimed, Create];
    assert Step(Step(Step(start, Next(0, 0)), Next(0, 0)), Next(1, 0)).calls == [Claimed, CreateForPending];
  }

  // ---------- When a paid order's record shows it ----------

  /** An order that is PAID, SHIPPED or DELIVERED, or is about to be marked, has a record that shows the
      total collected. */
  predicate Backed(sys: System) {
    Fulfilling(sys.order) || Waiting(sys.calls) > 0 ==> Collected(sys.record)
  }

  /** A save of what was read before the collection, made after it. */
  predicate Uncollects(sys: System, a: Action) {
    && a.Next? && a.i < |sys.calls|
    && (Fulfilling(sys.order) || Waiting(sys.calls) > 0)
    && Collected(sys.record)
    && Written(sys.calls[a.i], a.id).Some? && !Collected(Written(sys.calls[a.i], a.id))
  }

  lemma SaveBacked(sys: System, i: nat, c: Call, r: Record)
    requires Backed(sys) && i < |sys.calls| && !sys.calls[i].Claimed? && !c.Claimed?
    ensures Backed(Save(sys, i, c, r)) <==>
            (Fulfilling(sys.order) || Waiting(sys.calls) > 0 ==> Collected(Some(r)))
  {
    WaitingAfterMove(sys.calls, i, c);
  }

  lemma SuccessBacked(sys: System, i: nat)
    requires Backed(sys) && i < |sys.calls| && OfSuccess(sys.calls[i])
    ensures Backed(StepSuccess(sys, i))
  {
    WaitingAfterMove(sys.calls, i, StepSuccess(sys, i).calls[i]);
  }

  lemma CreateBacked(sys: System, i: nat, id: Id)
    requires Backed(sys) && i < |sys.calls| && OfCreate(sys.calls[i]) && Written(sys.calls[i], id).None?
    ensures Backed(StepCreate(sys, i, id))
  {
    WaitingAfterMove(sys.calls, i, StepCreate(sys, i, id).calls[i]);
  }

  lemma FailureOrRefundBacked(sys: System, i: nat, id: Id)
    requires Backed(sys) && i < |sys.calls| && !OfCreate(sys.calls[i]) && !OfSuccess(sys.calls[i])
    requires Written(sys.calls[i], id).None?
    ensures Backed(Step(sys, Next(i, id)))
  {
    WaitingAfterMove(sys.calls, i, Step(sys, Next(i, id)).calls[i]);
    assert Step(sys, Next(i, id)).calls == sys.calls[i := Step(sys, Next(i, id)).calls[i]];
  }

  lemma MoveOrderBacked(sys: System, status: OrderStatus)
    requires Backed(sys)
    ensures Backed(Step(sys, MoveOrder(status)))
  {
  }

  /** A step leaves such an order without its record exactly when it is a stale intent or failure save
      that lands on a collected record. */
  lemma BackedBreaksExactlyOnStaleSave(sys: System, a: Action)
    requires Backed(sys)
    ensures Backed(Step(sys, a)) <==> !Uncollects(sys, a)
  {
    if a.MoveOrder? {
      MoveOrderBacked(sys, a.status);
    } else if a.i < |sys.calls| {
      var c, written := sys.calls[a.i], Written(sys.calls[a.i], a.id);
      if written.Some? {
        SaveBacked(sys, a.i, Step(sys, a).calls[a.i], written.value);
      } else if OfSuccess(c) {
        SuccessBacked(sys, a.i);
      } else if OfCreate(c) {
        CreateBacked(sys, a.i, a.id);
      } else {
        FailureOrRefundBacked(sys, a.i, a.id);
      }
    }
  }

  lemma OnlyIntentAndFailureSavesUncollect(c: Call, id: Id)
    ensures Written(c, id).Some? && !Collected(Written(c, id)) ==>
              (c.CreateIssued? && c.found.Some?) || c.FailureRead?
  {
  }

  predicate BackedAt(sys: System, actions: seq<Action>, k: nat)
    requires k <= |actions|
  {
    Backed(Run(sys, actions[..k]))
  }

  predicate UncollectsAt(sys: System, actions: seq<Action>, k: nat)
    requires k < |actions|
  {
    Uncollects(Run(sys, actions[..k]), actions[k])
  }

  lemma BackedAtNext(sys: System, actions: seq<Action>, k: nat)
    requires k < |actions| && BackedAt(sys, actions, k)
    ensures BackedAt(sys, actions, k + 1) <==> !UncollectsAt(sys, actions, k)
  {
    assert actions[..k + 1][..k] == actions[..k];
    BackedBreaksExactlyOnStaleSave(Run(sys, actions[..k]), actions[k]);
  }

  lemma {:induction false} BackedUpTo(sys: System, actions: seq<Action>, k: nat)
    requires Backed(sys) && k <= |actions| && forall j :: 0 <= j < k ==> !UncollectsAt(sys, actions, j)
    ensures BackedAt(sys, actions, k)
  {
    if k > 0 {
      BackedUpTo(sys, actions, k - 1);
      BackedAtNext(sys, actions, k - 1);
    }
  }

  /** Over runs: every paid order's record shows the collection at every moment exactly when no stale
      intent or failure save ever landed on a collected record of such an order. */
  lemma PaidOrdersAreBackedExactly(sys: System, actions: seq<Action>)
    requires Backed(sys)
    ensures (forall k :: 0 <= k <= |actions| ==> BackedAt(sys, actions, k))
            <==> forall k :: 0 <= k < |actions| ==> !UncollectsAt(sys, actions, k)
  {
    if forall k :: 0 <= k <= |actions| ==> BackedAt(sys, actions, k) {
      forall k | 0 <= k < |actions| ensures !UncollectsAt(sys, actions, k) {
        assert BackedAt(sys, actions, k) && BackedAt(sys, actions, k + 1);
        BackedAtNext(sys, actions, k);
      }
    }
    if forall k :: 0 <= k < |actions| ==> !UncollectsAt(sys, actions, k) {
      forall k | 0 <= k <= |actions| ensures BackedAt(sys, actions, k) {
        BackedUpTo(sys, actions, k);
      }
    }
  }

  /** It happens: an intent renewed from a record read before the delivery leaves the order PAID and the
      record PENDING. */
  lemma StaleIntentHidesThePayment(x: Id, y: Id)
    requires x != y
    ensures var start := System(Some(Record(x, Pending, None)), PENDING, [Create, Succeeds(x)], [x], 0, 0, 0);
            var read := Step(Step(Step(start, Next(0, 0)), Next(0, 0)), Next(0, y));
            var marked := Step(Step(Step(read, Next(1, 0)), Next(1, 0)), Next(1, 0));
            var end := Step(marked, Next(0, 0));
            && Start(start) && Uncollects(marked, Next(0, 0))
            && end.order == PAID && end.record == Some(Record(y, Pending, None)) && end.displaced == 1
  {
    var before := Some(Record(x, Pending, None));
    var start := System(before, PENDING, [Create, Succeeds(x)], [x], 0, 0, 0);
    var read := Step(Step(Step(start, Next(0, 0)), Next(0, 0)), Next(0, y));
    assert Step(start, Next(0, 0)).calls == [CreateForPending, Succeeds(x)];
    assert Step(Step(start, Next(0, 0)), Next(0, 0)).calls == [CreateRead(before), Succeeds(x)];
    assert read == System(before, PENDING, [CreateIssued(before, y), Succeeds(x)], [x, y], 0, 0, 0);
    assert Step(read, Next(1, 0)).calls == [CreateIssued(before, y), SuccessRead];
    assert Step(Step(read, Next(1, 0)), Next(1, 0)).calls == [CreateIssued(before, y), Claimed];
    var marked := Step(Step(Step(read, Next(1, 0)), Next(1, 0)), Next(1, 0));
    assert marked == System(Some(Record(x, Succeeded, None)), PAID, [CreateIssued(before, y), Marked], [x, y], 1, 1, 0);
  }

  // ---------- Which deliveries mark the order ----------

  /** A delivery that nobody interleaves with marks its order PAID exactly when its intent is still on
      record and not yet claimed; otherwise nothing changes but the delivery. */
  lemma UndisturbedDeliveryMarksExactly(sys: System, i: nat, id: Id)
    requires i < |sys.calls| && sys.calls[i].Succeeds?
    ensures var intent := sys.calls[i].intent;
            var end := Step(Step(Step(sys, Next(i, id)), Next(i, id)), Next(i, id));
            if OnRecord(sys, intent) && !Paid(sys.record) then
              && end == Move(sys, i, Marked).(order := PAID, record := Some(sys.record.value.(status := Succeeded)),
                                              claims := sys.claims + 1, updates := sys.updates + 1)
            else end == Move(sys, i, if OnRecord(sys, intent) then Lost else Unknown)
  {
    var one := Step(sys, Next(i, id));
    var two := Step(one, Next(i, id));
    assert one.calls == sys.calls[i := one.calls[i]];
    assert two.calls == sys.calls[i := two.calls[i]];
    assert Step(two, Next(i, id)).calls == sys.calls[i := Step(two, Next(i, id)).calls[i]];
  }

  /** A charge on a superseded intent is never recorded: after createPaymentIntent renews the intent, the
      delivery for the first one finds nothing and the order stays PENDING. */
  lemma SupersededChargeIsUnknown(x: Id, y: Id)
    requires x != y
    ensures var start := System(Some(Record(x, Pending, None)), PENDING, [Create, Succeeds(x)], [x], 0, 0, 0);
            var renewed := Step(Step(Step(Step(start, Next(0, 0)), Next(0, 0)), Next(0, y)), Next(0, 0));
            var end := Step(renewed, Next(1, 0));
            && renewed.issued == [x, y] && renewed.record == Some(Record(y, Pending, None))
            && end.calls == [CreateDone, Unknown] && end.order == PENDING && !Collected(end.record)
  {
    var before := Some(Record(x, Pending, None));
    var start := System(before, PENDING, [Create, Succeeds(x)], [x], 0, 0, 0);
    assert Step(start, Next(0, 0)).calls == [CreateForPending, Succeeds(x)];
    assert Step(Step(start, Next(0, 0)), Next(0, 0)).calls == [CreateRead(before), Succeeds(x)];
    var issued := Step(Step(Step(start, Next(0, 0)), Next(0, 0)), Next(0, y));
    assert issued == System(before, PENDING, [CreateIssued(before, y), Succeeds(x)], [x, y], 0, 0, 0);
  }

  /** A call that is not createPaymentIntent, as it may stand while `intent` has been on record all along;
      a success delivery of that intent is never Unknown. */
  predicate KeepsIntent(start: Call, c: Call, intent: Id) {
    && !OfCreate(c)
    && (c.FailureRead? ==> c.seen.intent == intent)
    && (c.RefundRead? ==> c.taken.intent == intent)
    && (start == Succeeds(intent) ==> c == start || c.SuccessRead? || PastUpdate(c))
  }

  /** Without createPaymentIntent calls, an intent on record stays there on every run, whatever the
      deliveries, refunds and status changes do: every success of it finds the record and is claimed or
      finds it claimed. So only a renewed intent leaves a charge unrecorded. */
  lemma {:induction false} OnlyRenewalsSupersede(sys: System, actions: seq<Action>, intent: Id)
    requires Start(sys) && OnRecord(sys, intent) && forall i :: 0 <= i < |sys.calls| ==> !OfCreate(sys.calls[i])
    ensures var end := Run(sys, actions);
            && OnRecord(end, intent) && |end.calls| == |sys.calls|
            && forall i :: 0 <= i < |end.calls| ==> KeepsIntent(sys.calls[i], end.calls[i], intent)
  {
    if actions != [] {
      OnlyRenewalsSupersede(sys, actions[..|actions| - 1], intent);
      var before := Run(sys, actions[..|actions| - 1]);
      StepKeepsIntent(sys.calls, before, actions[|actions| - 1], intent);
    }
  }

  lemma StepKeepsIntent(start: seq<Call>, sys: System, a: Action, intent: Id)
    requires OnRecord(sys, intent) && |sys.calls| == |start|
    requires forall i :: 0 <= i < |start| ==> KeepsIntent(start[i], sys.calls[i], intent)
    ensures var sys' := Step(sys, a);
            && OnRecord(sys', intent) && |sys'.calls| == |start|
            && forall i :: 0 <= i < |start| ==> KeepsIntent(start[i], sys'.calls[i], intent)
  {
    if a.Next? && a.i < |sys.calls| {
      assert KeepsIntent(start[a.i], sys.calls[a.i], intent);
    }
  }

  // ---------- Exactly once ----------

  predicate ByRefund(c: Call) {
    c.Refund? || c.RefundRead? || c.RefundSaved? || c.RefundDone? || c.RefundRefused?
  }

  predicate OnlyCalls(actions: seq<Action>) {
    forall k :: 0 <= k < |actions| ==> actions[k].Next?
  }

  lemma {:induction false} UpdatedStaysPaid(sys: System, actions: seq<Action>)
    requires Start(sys) && OnlyCalls(actions) && forall i :: 0 <= i < |sys.calls| ==> !ByRefund(sys.calls[i])
    ensures var end := Run(sys, actions);
            && (end.updates > 0 ==> end.order == PAID)
            && forall i :: 0 <= i < |end.calls| ==> !ByRefund(end.calls[i])
  {
    if actions != [] {
      UpdatedStaysPaid(sys, actions[..|actions| - 1]);
    }
  }

  /** With any calls and status changes in any interleaving, once no delivery is between claim and order
      update and some delivery is past its claim, won or lost: the order update has run exactly once,
      leaving the record Succeeded, exactly when no save has landed on a Succeeded record. Without refunds
      and other status changes the order is then PAID as well. */
  lemma ExactlyOnceUnlessOverwritten(sys: System, actions: seq<Action>)
    requires Start(sys) && Waiting(Run(sys, actions).calls) == 0 && Settled(Run(sys, actions))
    ensures var end := Run(sys, actions);
            && ((end.updates == 1 && Paid(end.record)) <==> end.displaced == 0)
            && (OnlyCalls(actions) && (forall i :: 0 <= i < |sys.calls| ==> !ByRefund(sys.calls[i])) ==>
                  ((end.updates == 1 && Paid(end.record) && end.order == PAID) <==> end.displaced == 0))
  {
    StartInv(sys);
    RunKeepsInv(sys, actions);
    if OnlyCalls(actions) && forall i :: 0 <= i < |sys.calls| ==> !ByRefund(sys.calls[i]) {
      UpdatedStaysPaid(sys, actions);
    }
  }

  predicate ByDelivery(c: Call, intent: Id) {
    c == Succeeds(intent) || c.SuccessRead? || PastUpdate(c)
  }

  lemma {:induction false} DeliveriesKeepTheRecord(sys: System, actions: seq<Action>, intent: Id)
    requires Start(sys) && OnRecord(sys, intent)
    requires forall i :: 0 <= i < |sys.calls| ==> sys.calls[i] == Succeeds(intent)
    ensures var end := Run(sys, actions);
            && end.displaced == 0 && OnRecord(end, intent) && |end.calls| == |sys.calls|
            && forall i :: 0 <= i < |end.calls| ==> ByDelivery(end.calls[i], intent)
  {
    if actions != [] {
      DeliveriesKeepTheRecord(sys, actions[..|actions| - 1], intent);
    }
  }

  predicate Finished(sys: System) {
    forall i :: 0 <= i < |sys.calls| ==> sys.calls[i].Marked? || sys.calls[i].Lost?
  }

  /** Any number of success deliveries of the intent on record, in any interleaving: never more than one
      order update, and exactly one, with the record Succeeded and the order PAID, once all finish. */
  lemma SuccessDeliveriesPayOnce(sys: System, actions: seq<Action>, intent: Id)
    requires Start(sys) && OnRecord(sys, intent) && sys.calls != [] && OnlyCalls(actions)
    requires forall i :: 0 <= i < |sys.calls| ==> sys.calls[i] == Succeeds(intent)
    ensures var end := Run(sys, actions);
            && end.updates <= 1
            && (Finished(end) ==> end.updates == 1 && Paid(end.record) && end.order == PAID)
  {
    DeliveriesKeepTheRecord(sys, actions, intent);
    ClaimsAreBalanced(sys, actions);
    var end := Run(sys, actions);
    if Finished(end) {
      NoneWaiting(end.calls);
      assert PastUpdate(end.calls[0]);
      ExactlyOnceUnlessOverwritten(sys, actions);
    }
  }

  lemma StaleFailureReopens(x: Id, order: OrderStatus)
    ensures var start := System(Some(Record(x, Pending, None)), order, [Succeeds(x), Fails(x), Succeeds(x)], [x],
                                0, 0, 0);
            Step(Step(Step(Step(start, Next(1, 0)), Next(0, 0)), Next(0, 0)), Next(1, 0))
            == System(Some(Record(x, Failed, None)), order, [Claimed, FailureDone, Succeeds(x)], [x], 1, 0, 1)
  {
    var r := Record(x, Pending, None);
    var start := System(Some(r), order, [Succeeds(x), Fails(x), Succeeds(x)], [x], 0, 0, 0);
    var read := Step(Step(start, Next(1, 0)), Next(0, 0));
    assert read.calls == [SuccessRead, FailureRead(r), Succeeds(x)];
    assert Step(read, Next(0, 0)).calls == [Claimed, FailureRead(r), Succeeds(x)];
  }

  /** A failure delivery that read before the claim and saves after it undoes the claim, and a second
      success delivery then marks the order again. */
  lemma StaleFailurePaysTwice(x: Id, order: OrderStatus)
    ensures var start := System(Some(Record(x, Pending, None)), order, [Succeeds(x), Fails(x), Succeeds(x)], [x],
                                0, 0, 0);
            var saved := Step(Step(Step(Step(start, Next(1, 0)), Next(0, 0)), Next(0, 0)), Next(1, 0));
            var end := Step(Step(Step(Step(saved, Next(2, 0)), Next(2, 0)), Next(2, 0)), Next(0, 0));
            Start(start) && end.calls == [Marked, FailureDone, Marked] && end.updates == 2 && end.displaced == 1
  {
    StaleFailureReopens(x, order);
    var saved := System(Some(Record(x, Failed, None)), order, [Claimed, FailureDone, Succeeds(x)], [x], 1, 0, 1);
    assert Step(saved, Next(2, 0)).calls == [Claimed, FailureDone, SuccessRead];
    var again := Step(Step(saved, Next(2, 0)), Next(2, 0));
    assert again == System(Some(Record(x, Succeeded, None)), order, [Claimed, FailureDone, Claimed], [x], 2, 0, 1);
    assert Step(again, Next(2, 0)).calls == [Claimed, FailureDone, Marked];
  }

  // ---------- Calls that nobody interleaves with are the ledger's transactions ----------

  function RecordOf(db: Db, o: Id): Option<Record> {
    match FindByOrder(db.payments, o)
    case None => None
    case Some(k) => Some(Record(db.payments[k].intent, db.payments[k].status, db.payments[k].refund))
  }

  /** The order and its record, and one call about to be made. */
  function Alone(db: Db, o: Id, c: Call): System
    requires o < |db.orders|
  {
    System(RecordOf(db, o), db.orders[o].status, [c], [], 0, 0, 0)
  }

  function Twice(sys: System, id: Id): System {
    Step(Step(sys, Next(0, id)), Next(0, id))
  }

  lemma {:induction false} FoundAgain(payments: seq<Payment>, k: nat, p: Payment, o: Id)
    requires k < |payments| && FindByOrder(payments, o) == Some(k) && p.order == o
    ensures FindByOrder(payments[k := p], o) == Some(k)
  {
    var last := |payments| - 1;
    if k < last {
      FoundAgain(payments[..last], k, p, o);
      assert payments[k := p][..last] == payments[..last][k := p];
    }
  }

  /** A success delivery whose intent is on record ends with the record and the order as the ledger's
      transaction leaves them, and that changes nothing else. */
  lemma LoneDeliveryIsTheTransaction(db: Db, intent: Id, k: nat)
    requires OneRecordEach(db.payments) && FindByIntent(db.payments, intent) == Some(k)
    requires db.payments[k].order < |db.orders|
    ensures var o := db.payments[k].order;
            var end := Step(Twice(Alone(db, o, Succeeds(intent)), 0), Next(0, 0));
            var db' := PaymentSucceededTx(db, intent);
            && end.calls[0] in {Marked, Lost}
            && end.record == RecordOf(db', o)
            && end.record.Some?
            && db' == db.(payments := db.payments[k := db.payments[k].(status := end.record.value.status)],
                          orders := db.orders[o := db.orders[o].(status := end.order)])
  {
    var o := db.payments[k].order;
    OnlyRecord(db.payments, k);
    UndisturbedDeliveryMarksExactly(Alone(db, o, Succeeds(intent)), 0, 0);
    FoundAgain(db.payments, k, db.payments[k].(status := Succeeded), o);
  }

  lemma LoneFailureIsTheTransaction(db: Db, intent: Id, k: nat)
    requires OneRecordEach(db.payments) && FindByIntent(db.payments, intent) == Some(k)
    requires db.payments[k].order < |db.orders|
    ensures var o := db.payments[k].order;
            var end := Twice(Alone(db, o, Fails(intent)), 0);
            && end.calls[0] in {FailureDone, FailureIgnored}
            && end.record == RecordOf(PaymentFailedTx(db, intent), o)
  {
    OnlyRecord(db.payments, k);
    FoundAgain(db.payments, k, db.payments[k].(status := Failed), db.payments[k].order);
  }

  /** What four undisturbed steps of createPaymentIntent come to. */
  lemma IntentRunsAlone(record: Option<Record>, order: OrderStatus, intent: Id)
    ensures var start := System(record, order, [Create], [], 0, 0, 0);
            var end := Twice(Twice(start, intent), intent);
            if order != PENDING then end == start.(calls := [CreateNotPending])
            else if Paid(record) then end == start.(calls := [CreateAlreadyPaid])
            else
              end == System(Some(if record.Some? then record.value.(intent := intent, status := Pending)
                                 else Record(intent, Pending, None)), order, [CreateDone], [intent], 0, 0, 0)
  {
    var start := System(record, order, [Create], [], 0, 0, 0);
    if order == PENDING && !Paid(record) {
      assert Step(start, Next(0, intent)) == start.(calls := [CreateForPending]);
      assert Twice(start, intent) == start.(calls := [CreateRead(record)]);
      assert Step(Twice(start, intent), Next(0, intent))
             == start.(calls := [CreateIssued(record, intent)], issued := [intent]);
    }
  }

  /** createPaymentIntent by the order's customer, for an order with something to pay. */
  lemma LoneIntentIsTheTransaction(db: Db, o: Id, intent: Id)
    requires OneRecordEach(db.payments) && FindByIntent(db.payments, intent).None?
    requires o < |db.orders| && db.orders[o].total > 0
    ensures var end := Twice(Twice(Alone(db, o, Create), intent), intent);
            match CreateIntentTx(db, db.orders[o].customer, o, intent)
            case Success(db') => end.calls[0] == CreateDone && end.record == RecordOf(db', o) && end.issued == [intent]
            case Failure(e) =>
              && end.record == RecordOf(db, o) && end.issued == []
              && end.calls[0] == if e == NotPending then CreateNotPending else CreateAlreadyPaid
  {
    IntentRunsAlone(RecordOf(db, o), db.orders[o].status, intent);
    var existing := FindByOrder(db.payments, o);
    if existing.Some? {
      var p := db.payments[existing.value].(intent := intent, status := Pending);
      FoundAgain(db.payments, existing.value, p, o);
    }
  }

  /** What three undisturbed steps of refund come to. */
  lemma RefundRunsAlone(record: Option<Record>, order: OrderStatus, refund: Id)
    ensures var start := System(record, order, [Refund], [], 0, 0, 0);
            var end := Step(Twice(start, refund), Next(0, refund));
            if Paid(record) then
              end == System(Some(record.value.(status := Refunded, refund := Some(refund))), CANCELLED,
                            [RefundDone], [], 0, 0, 1)
            else end == start.(calls := [RefundRefused])
  {
    var start := System(record, order, [Refund], [], 0, 0, 0);
    if Paid(record) {
      assert Step(start, Next(0, refund)) == start.(calls := [RefundRead(record.value)]);
    }
  }

  lemma RefundCancels(db: Db, o: Id)
    requires o < |db.orders|
    ensures CancelForRefundTx(db, o).Success?
    ensures var db' := CancelForRefundTx(db, o).value;
            db'.payments == db.payments && |db'.orders| == |db.orders| && db'.orders[o].status == CANCELLED
  {
  }

  /** refund by the order's business: record marked, then the order cancelled as the ledger's two events do
      it. */
  lemma LoneRefundIsTheTransactions(db: Db, o: Id, refund: Id)
    requires OneRecordEach(db.payments) && o < |db.orders|
    ensures var end := Step(Twice(Alone(db, o, Refund), refund), Next(0, refund));
            match RefundPaymentTx(db, db.orders[o].business, o, refund)
            case Success(marked) =>
              && CancelForRefundTx(marked, o).Success?
              && var db' := CancelForRefundTx(marked, o).value;
              && end.calls[0] == RefundDone && end.record == RecordOf(db', o)
              && o < |db'.orders| && end.order == db'.orders[o].status
            case Failure(_) => end.calls[0] == RefundRefused && end.record == RecordOf(db, o)
  {
    RefundRunsAlone(RecordOf(db, o), db.orders[o].status, refund);
    var found := FindByOrder(db.payments, o);
    if found.Some? && db.payments[found.value].status == Succeeded {
      var p := db.payments[found.value].(status := Refunded, refund := Some(refund));
      FoundAgain(db.payments, found.value, p, o);
      RefundCancels(db.(payments := db.payments[found.value := p]), o);
    }
  }
}
