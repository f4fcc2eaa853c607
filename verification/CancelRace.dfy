/** Cancels and status changes as they overlap (src/order/order.service.ts:323-457). A cancel reads the order
    without a lock, tests its status, and releases and saves in the same transaction; nobody sees that
    before the commit, and nothing is tested again. A seller's change reads, tests and later saves. All
    other events of the ledger happen in between, each in one step. */
module CancelRace {
  import opened Wrappers
  import opened Entities
  import opened Orders
  import opened Ledger
  import opened LedgerInvariant
  import opened LedgerRelease

  /** `seen` is how often the order had been released when the call read it: history. */
  datatype Call =
    | OwnCancel(customer: Id, order: Id)             // cancelOwnOrder; the read comes next
    | RefundCancel(order: Id)                        // cancelForRefund; the read comes next
    | Passed(order: Id, seen: nat)                   // past the guard; release, save and commit come next
    | Committed | RolledBack | Refused
    | StatusChange(order: Id, to: OrderStatus, business: Id)   // updateStatus; the read comes next
    | StatusRead(order: Id, to: OrderStatus, seen: nat)        // the save comes next
    | StatusSaved

  /** A commit of a cancel, and how often the order had been released before it. */
  datatype Commit = Commit(order: Id, seen: nat, before: nat)

  /** History: log lists the commits in order; delivered and stale are the orders that a success delivery,
      or a status save that read before the release, has marked after a release. */
  datatype System = System(w: World, calls: seq<Call>, log: seq<Commit>, delivered: set<Id>, stale: set<Id>)

  datatype Action = Next(i: nat) | Abort(i: nat) | Other(e: Event)

  predicate OneStep(e: Event) {
    !e.CancelOwn? && !e.CancelForRefund? && !e.UpdateStatus?
  }

  function Times(w: World, o: Id): nat {
    if o < |w.h.released| then w.h.released[o] else 0
  }

  function Move(sys: System, i: nat, c: Call): System
    requires i < |sys.calls|
  {
    sys.(calls := sys.calls[i := c])
  }

  function GuardPassed(db: Db, c: Call): bool
    requires c.OwnCancel? || c.RefundCancel?
  {
    match c
    case OwnCancel(customer, o) => CancelOwnTx(db, customer, o).Success?
    case RefundCancel(o) => o < |db.orders| && db.orders[o].status != CANCELLED
  }

  function CommitCancel(sys: System, i: nat): System
    requires i < |sys.calls| && sys.calls[i].Passed?
  {
    var o := sys.calls[i].order;
    if o < |sys.w.db.orders| == |sys.w.h.released| then
      Move(sys, i, Committed).(
        w := Released(sys.w, o),
        log := sys.log + [Commit(o, sys.calls[i].seen, sys.w.h.released[o])])
    else Move(sys, i, RolledBack)
  }

  function SaveStatus(sys: System, i: nat): System
    requires i < |sys.calls| && sys.calls[i].StatusRead?
  {
    var c := sys.calls[i];
    if c.order < |sys.w.db.orders| then
      Move(sys, i, StatusSaved).(
        w := sys.w.(db := WithStatus(sys.w.db, c.order, c.to)),
        stale := sys.stale + if c.seen < Times(sys.w, c.order) then {c.order} else {})
    else Move(sys, i, RolledBack)
  }

  /** The orders already released that the event, a success delivery, marks PAID. */
  function Redelivered(w: World, e: Event): set<Id> {
    set o: Id | 0 <= o < |w.db.orders| && Delivers(w.db, e, o) && Times(w, o) > 0
  }

  /** A step that is not possible now leaves the system as it is. */
  function Step(sys: System, a: Action): System {
    match a
    case Other(e) =>
      if OneStep(e) then
        sys.(w := Ledger.Step(sys.w, e), delivered := sys.delivered + Redelivered(sys.w, e))
      else sys
    case Abort(i) =>
      if i < |sys.calls| && (sys.calls[i].Passed? || sys.calls[i].StatusRead?) then Move(sys, i, RolledBack) else sys
    case Next(i) =>
      if i >= |sys.calls| then sys
      else
        var c := sys.calls[i];
        match c
        case OwnCancel(_, o) => Move(sys, i, if GuardPassed(sys.w.db, c) then Passed(o, Times(sys.w, o)) else Refused)
        case RefundCancel(o) => Move(sys, i, if GuardPassed(sys.w.db, c) then Passed(o, Times(sys.w, o)) else Refused)
        case Passed(_, _) => CommitCancel(sys, i)
        case StatusChange(o, to, business) =>
          Move(sys, i, if UpdateStatusTx(sys.w.db, o, to, business).Success?
                       then StatusRead(o, to, Times(sys.w, o)) else Refused)
        case StatusRead(_, _, _) => SaveStatus(sys, i)
        case _ => sys
  }

  function Run(sys: System, actions: seq<Action>): System {
    if actions == [] then sys else Step(Run(sys, actions[..|actions| - 1]), actions[|actions| - 1])
  }

  ghost predicate Start(sys: System) {
    && Inv(sys.w) && Matched(sys.w) && Disciplined(sys.w)
    && sys.log == [] && sys.delivered == {} && sys.stale == {}
    && forall i :: 0 <= i < |sys.calls| ==>
         sys.calls[i].OwnCancel? || sys.calls[i].RefundCancel? || sys.calls[i].StatusChange?
  }

  // ---------- The ledger's invariant survives ----------

  /** A call past its read refers to an order, and sellers never save PENDING. */
  predicate CallsFit(sys: System) {
    forall i :: 0 <= i < |sys.calls| ==>
      && (sys.calls[i].Passed? ==> sys.calls[i].order < |sys.w.db.orders|)
      && (sys.calls[i].StatusRead? ==> sys.calls[i].order < |sys.w.db.orders| && sys.calls[i].to != PENDING)
  }

  lemma SaveKeepsInv(w: World, o: Id, to: OrderStatus)
    requires Inv(w) && o < |w.db.orders| && to != PENDING
    ensures Inv(w.(db := WithStatus(w.db, o, to)))
  {
    StatusesKeepInv(w, WithStatus(w.db, o, to));
  }

  lemma InvMatched(w: World)
    requires Inv(w)
    ensures Matched(w)
  {
  }

  lemma OtherKeepsLedger(sys: System, e: Event)
    requires Inv(sys.w) && CallsFit(sys) && OneStep(e)
    ensures Inv(Step(sys, Other(e)).w) && CallsFit(Step(sys, Other(e)))
  {
    InvMatched(sys.w);
    LedgerInvariant.StepKeepsInv(sys.w, e);
    OrdersAfterStep(sys.w, e);
  }

  lemma CommitKeepsLedger(sys: System, i: nat)
    requires Inv(sys.w) && CallsFit(sys) && i < |sys.calls| && sys.calls[i].Passed?
    ensures Inv(CommitCancel(sys, i).w) && CallsFit(CommitCancel(sys, i))
  {
    ReleaseKeepsInv(sys.w, sys.calls[i].order);
  }

  lemma SaveKeepsLedger(sys: System, i: nat)
    requires Inv(sys.w) && CallsFit(sys) && i < |sys.calls| && sys.calls[i].StatusRead?
    ensures Inv(SaveStatus(sys, i).w) && CallsFit(SaveStatus(sys, i))
  {
    SaveKeepsInv(sys.w, sys.calls[i].order, sys.calls[i].to);
  }

  /** Reads, refusals and rollbacks leave the tables alone. */
  lemma RestKeepsLedger(sys: System, a: Action)
    requires CallsFit(sys)
    requires a.Next? ==> a.i >= |sys.calls| || (!sys.calls[a.i].Passed? && !sys.calls[a.i].StatusRead?)
    requires a.Other? ==> !OneStep(a.e)
    ensures Step(sys, a).w == sys.w && CallsFit(Step(sys, a))
  {
  }

  lemma StepKeepsLedger(sys: System, a: Action)
    requires Inv(sys.w) && CallsFit(sys)
    ensures Inv(Step(sys, a).w) && CallsFit(Step(sys, a))
  {
    if a.Other? && OneStep(a.e) {
      OtherKeepsLedger(sys, a.e);
    } else if a.Next? && a.i < |sys.calls| && sys.calls[a.i].Passed? {
      CommitKeepsLedger(sys, a.i);
    } else if a.Next? && a.i < |sys.calls| && sys.calls[a.i].StatusRead? {
      SaveKeepsLedger(sys, a.i);
    } else {
      RestKeepsLedger(sys, a);
    }
  }

  /** However cancels, status changes and the other events overlap, and however often an order is released:
      stock, slot and code counters are still what opening, edits and (1 - releases) make them, and all
      limits hold. */
  lemma {:induction false} LedgerHoldsUnderOverlap(sys: System, actions: seq<Action>)
    requires Start(sys)
    ensures var end := Run(sys, actions);
            Inv(end.w) && CallsFit(end)
  {
    if actions != [] {
      LedgerHoldsUnderOverlap(sys, actions[..|actions| - 1]);
      StepKeepsLedger(Run(sys, actions[..|actions| - 1]), actions[|actions| - 1]);
    }
  }

  // ---------- Released twice ----------

  predicate Revived(sys: System, o: Id) {
    o in sys.delivered || o in sys.stale
  }

  /** Another cancel of the order committed between this one's guard and its commit. */
  predicate Overlaps(c: Commit) {
    c.seen < c.before
  }

  /** This one's guard let an order through that had been released before. */
  predicate Again(c: Commit) {
    0 < c.seen == c.before
  }

  predicate SecondOf(log: seq<Commit>, k: int, o: Id) {
    0 <= k < |log| && log[k].order == o && log[k].before > 0
  }

  ghost predicate HasSecond(log: seq<Commit>, o: Id) {
    exists k :: SecondOf(log, k, o)
  }

  /** A released order not marked since is CANCELLED, so whoever reads it as anything else has a revived
      order before it. */
  ghost predicate Traced(sys: System) {
    && Matched(sys.w)
    && (forall o :: 0 <= o < |sys.w.db.orders| && sys.w.h.released[o] > 0 && !Revived(sys, o) ==>
          sys.w.db.orders[o].status == CANCELLED)
    && (forall i :: 0 <= i < |sys.calls| && (sys.calls[i].Passed? || sys.calls[i].StatusRead?) ==>
          sys.calls[i].seen <= Times(sys.w, sys.calls[i].order) &&
          (sys.calls[i].seen > 0 ==> Revived(sys, sys.calls[i].order)))
    && (forall k :: 0 <= k < |sys.log| ==>
          sys.log[k].seen <= sys.log[k].before && (Again(sys.log[k]) ==> Revived(sys, sys.log[k].order)))
  }

  ghost predicate Counted(sys: System) {
    && Matched(sys.w)
    && (forall k :: 0 <= k < |sys.log| ==> sys.log[k].order < |sys.w.db.orders|)
    && (forall o :: 0 <= o < |sys.w.db.orders| ==> (sys.w.h.released[o] >= 2 <==> HasSecond(sys.log, o)))
  }

  lemma OtherKeepsTraced(sys: System, e: Event)
    requires Traced(sys) && OneStep(e)
    ensures Traced(Step(sys, Other(e)))
  {
    OrdersAfterStep(sys.w, e);
  }

  lemma CommitKeepsTraced(sys: System, i: nat)
    requires Traced(sys) && i < |sys.calls| && sys.calls[i].Passed?
    ensures Traced(CommitCancel(sys, i))
  {
  }

  lemma SaveKeepsTraced(sys: System, i: nat)
    requires Traced(sys) && i < |sys.calls| && sys.calls[i].StatusRead?
    ensures Traced(SaveStatus(sys, i))
  {
  }

  lemma ReadKeepsTraced(sys: System, i: nat)
    requires Traced(sys) && i < |sys.calls| && !sys.calls[i].Passed? && !sys.calls[i].StatusRead?
    ensures Traced(Step(sys, Next(i)))
  {
  }

  lemma StepKeepsTraced(sys: System, a: Action)
    requires Traced(sys)
    ensures Traced(Step(sys, a))
  {
    if a.Other? {
      if OneStep(a.e) {
        OtherKeepsTraced(sys, a.e);
      }
    } else if a.Next? && a.i < |sys.calls| {
      if sys.calls[a.i].Passed? {
        CommitKeepsTraced(sys, a.i);
      } else if sys.calls[a.i].StatusRead? {
        SaveKeepsTraced(sys, a.i);
      } else {
        ReadKeepsTraced(sys, a.i);
      }
    }
  }

  lemma SecondAfterCommit(log: seq<Commit>, c: Commit, o: Id)
    ensures HasSecond(log + [c], o) <==> HasSecond(log, o) || (c.order == o && c.before > 0)
  {
    if HasSecond(log, o) {
      var k :| SecondOf(log, k, o);
      assert SecondOf(log + [c], k, o);
    }
    if c.order == o && c.before > 0 {
      assert SecondOf(log + [c], |log|, o);
    }
    if HasSecond(log + [c], o) {
      var k :| SecondOf(log + [c], k, o);
      assert k < |log| ==> SecondOf(log, k, o);
    }
  }

  lemma CommitKeepsCounted(sys: System, i: nat)
    requires Counted(sys) && i < |sys.calls| && sys.calls[i].Passed?
    ensures Counted(CommitCancel(sys, i))
  {
    var sys' := CommitCancel(sys, i);
    if |sys'.log| > |sys.log| {
      forall o ensures HasSecond(sys'.log, o) <==>
                       HasSecond(sys.log, o) || (sys'.log[|sys.log|].order == o && sys'.log[|sys.log|].before > 0)
      {
        SecondAfterCommit(sys.log, sys'.log[|sys.log|], o);
      }
    }
  }

  lemma OtherKeepsCounted(sys: System, e: Event)
    requires Counted(sys) && OneStep(e)
    ensures Counted(Step(sys, Other(e)))
  {
    OrdersAfterStep(sys.w, e);
  }

  lemma StepKeepsCounted(sys: System, a: Action)
    requires Counted(sys)
    ensures Counted(Step(sys, a))
  {
    if a.Other? {
      if OneStep(a.e) {
        OtherKeepsCounted(sys, a.e);
      }
    } else if a.Next? && a.i < |sys.calls| {
      if sys.calls[a.i].Passed? {
        CommitKeepsCounted(sys, a.i);
      } else if sys.calls[a.i].StatusRead? {
        SaveKeepsCounted(sys, a.i);
      }
    }
  }

  lemma SaveKeepsCounted(sys: System, i: nat)
    requires Counted(sys) && i < |sys.calls| && sys.calls[i].StatusRead?
    ensures Counted(SaveStatus(sys, i))
  {
  }

  lemma {:induction false} RunIsTraced(sys: System, actions: seq<Action>)
    requires Start(sys)
    ensures Traced(Run(sys, actions)) && Counted(Run(sys, actions))
  {
    if actions != [] {
      RunIsTraced(sys, actions[..|actions| - 1]);
      StepKeepsTraced(Run(sys, actions[..|actions| - 1]), actions[|actions| - 1]);
      StepKeepsCounted(Run(sys, actions[..|actions| - 1]), actions[|actions| - 1]);
    }
  }

  predicate SomeOverlap(log: seq<Commit>, o: Id) {
    exists k :: 0 <= k < |log| && log[k].order == o && Overlaps(log[k])
  }

  predicate SomeAgain(log: seq<Commit>, o: Id) {
    exists k :: 0 <= k < |log| && log[k].order == o && Again(log[k])
  }

  lemma SecondsAreOverlapsOrAgain(log: seq<Commit>, o: Id)
    requires forall k :: 0 <= k < |log| ==> log[k].seen <= log[k].before
    ensures HasSecond(log, o) <==> SomeOverlap(log, o) || SomeAgain(log, o)
  {
    if HasSecond(log, o) {
      var k :| SecondOf(log, k, o);
      assert Overlaps(log[k]) || Again(log[k]);
    }
    if SomeOverlap(log, o) {
      var k :| 0 <= k < |log| && log[k].order == o && Overlaps(log[k]);
      assert SecondOf(log, k, o);
    }
    if SomeAgain(log, o) {
      var k :| 0 <= k < |log| && log[k].order == o && Again(log[k]);
      assert SecondOf(log, k, o);
    }
  }

  /** On every run, an order has been released twice exactly when two cancels of it overlapped - one passed
      its guard before an earlier one's commit - or a cancel's guard let it through after a release; and
      the latter only once a success delivery, or a status save that read before the release, had marked
      the released order. So an order that nothing revives is released twice exactly by overlap. */
  lemma ReleasedTwiceExactly(sys: System, actions: seq<Action>, o: Id)
    requires Start(sys)
    ensures var end := Run(sys, actions);
            && Matched(end.w)
            && (o < |end.w.db.orders| ==>
                  && (end.w.h.released[o] >= 2 <==> SomeOverlap(end.log, o) || SomeAgain(end.log, o))
                  && (SomeAgain(end.log, o) ==> Revived(end, o))
                  && (!Revived(end, o) ==> (end.w.h.released[o] >= 2 <==> SomeOverlap(end.log, o))))
  {
    RunIsTraced(sys, actions);
    SecondsAreOverlapsOrAgain(Run(sys, actions).log, o);
  }

  // ---------- Calls that nobody overlaps, and two that do ----------

  /** A cancel that runs alone is the ledger's event. */
  lemma LoneCancelIsTheEvent(sys: System, i: nat)
    requires Matched(sys.w) && i < |sys.calls| && (sys.calls[i].OwnCancel? || sys.calls[i].RefundCancel?)
    ensures var c := sys.calls[i];
            var e := if c.OwnCancel? then Event.CancelOwn(c.customer, c.order) else Event.CancelForRefund(c.order);
            Step(Step(sys, Next(i)), Next(i)).w == Ledger.Step(sys.w, e)
  {
    var c := sys.calls[i];
    var one := Step(sys, Next(i));
    assert one.w == sys.w;
    assert one.calls[i] == if GuardPassed(sys.w.db, c) then Passed(c.order, Times(sys.w, c.order)) else Refused;
  }

  lemma LoneStatusChangeIsTheEvent(sys: System, i: nat)
    requires Matched(sys.w) && i < |sys.calls| && sys.calls[i].StatusChange?
    ensures var c := sys.calls[i];
            Step(Step(sys, Next(i)), Next(i)).w == Ledger.Step(sys.w, UpdateStatus(c.order, c.to, c.business))
  {
    var one := Step(sys, Next(i));
    assert one.w == sys.w;
  }

  function Four(sys: System, a: nat, b: nat, c: nat, d: nat): System {
    Step(Step(Step(Step(sys, Next(a)), Next(b)), Next(c)), Next(d))
  }

  /** Two cancels by the customer that both read before either commits release the order twice, with no
      delivery involved. */
  lemma OverlappingCancelsReleaseTwice(w: World, o: Id)
    requires Inv(w) && o < |w.db.orders| && w.db.orders[o].status == PENDING
    ensures var c := OwnCancel(w.db.orders[o].customer, o);
            var end := Four(System(w, [c, c], [], {}, {}), 0, 1, 0, 1);
            && end.calls == [Committed, Committed] && end.delivered == end.stale == {}
            && end.w == Released(Released(w, o), o) && end.w.h.released[o] == 2
            && end.log == [Commit(o, 0, 0), Commit(o, 0, 1)]
  {
    var c := OwnCancel(w.db.orders[o].customer, o);
    var sys := System(w, [c, c], [], {}, {});
    assert Step(sys, Next(0)).calls == [Passed(o, 0), c];
    assert Step(Step(sys, Next(0)), Next(1)).calls == [Passed(o, 0), Passed(o, 0)];
  }

  /** A seller's change that read PAID and saves SHIPPED after a refund's cancel revives the order without
      any delivery, and the next refund releases it again. */
  lemma StaleStatusRevives(w: World, o: Id)
    requires Inv(w) && o < |w.db.orders| && w.db.orders[o].status == PAID && w.h.released[o] == 0
    ensures var change := StatusChange(o, SHIPPED, w.db.orders[o].business);
            var sys := System(w, [change, RefundCancel(o), RefundCancel(o)], [], {}, {});
            var revived := Step(Four(sys, 0, 1, 1, 0), Next(2));
            var end := Step(revived, Next(2));
            && revived.w.db.orders[o].status == SHIPPED && revived.w.h.released[o] == 1
            && end.stale == {o} && end.delivered == {}
            && end.w.h.released[o] == 2 && end.log == [Commit(o, 0, 0), Commit(o, 1, 1)]
  {
    var change := StatusChange(o, SHIPPED, w.db.orders[o].business);
    var cancel := RefundCancel(o);
    var sys := System(w, [change, cancel, cancel], [], {}, {});
    var read := Step(sys, Next(0));
    assert read == sys.(calls := [StatusRead(o, SHIPPED, 0), cancel, cancel]);
    var passed := Step(read, Next(1));
    assert passed == sys.(calls := [StatusRead(o, SHIPPED, 0), Passed(o, 0), cancel]);
    var released := Step(passed, Next(1));
    assert released == System(Released(w, o), [StatusRead(o, SHIPPED, 0), Committed, cancel],
                              [Commit(o, 0, 0)], {}, {});
    var saved := Step(released, Next(0));
    assert saved.calls == [StatusSaved, Committed, cancel] && saved.stale == {o};
    assert Step(saved, Next(2)).calls == [StatusSaved, Committed, Passed(o, 1)];
  }
}
