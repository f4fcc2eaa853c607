/** Any number of checkouts interleaved under row locks. A session locks its product rows one at a
    time and in any order, then its slot row, then its code row, reads each row's committed version
    when it locks it, works on private copies, and publishes them at commit. A lock lasts until
    commit or rollback; a rollback may strike at any moment (an error, a deadlock victim). */
module Serializability {
  import opened Wrappers
  import opened Entities
  import opened Cart
  import opened Checkout
  import opened Discounts

  datatype Phase =
    | Locking(seen: map<Id, Product>)
    | Reserved(business: Id, held: Reservation)
    | Booked(business: Id, held: Reservation, slot: Option<Slot>)
    | Redeemed(business: Id, held: Reservation, slot: Option<Slot>, coupon: Option<Redemption>, now: int)
    | Committed
    | RolledBack

  datatype Session = Session(req: Request, at: Moment, phase: Phase)

  datatype Entry = Entry(session: nat, now: int)

  /** db is the committed state; log lists the commits in order, each with its clock reading. */
  datatype System = System(db: Db, sessions: seq<Session>, log: seq<Entry>)

  datatype Action =
    | LockRow(i: nat, product: Id)
    | ReserveCart(i: nat)
    | TakeSlot(i: nat)
    | UseCode(i: nat, now: int)
    | Commit(i: nat)
    | Abort(i: nat)

  predicate InCart(lines: seq<Line>, p: Id) {
    exists i :: 0 <= i < |lines| && lines[i].product == p
  }

  // ---------- Row locks ----------

  datatype RowId = ProductRow(product: Id) | SlotRow(slot: Id) | CodeRow(code: Id)

  predicate Locks(s: Session, row: RowId) {
    match s.phase
    case Locking(seen) => row.ProductRow? && row.product in seen
    case Reserved(_, held) => row.ProductRow? && row.product in held.rows
    case Booked(_, held, slot) =>
      || (row.ProductRow? && row.product in held.rows)
      || (row.SlotRow? && s.req.slot == Some(row.slot))
    case Redeemed(_, held, slot, coupon, _) =>
      || (row.ProductRow? && row.product in held.rows)
      || (row.SlotRow? && s.req.slot == Some(row.slot))
      || (row.CodeRow? && s.req.code == Some(row.code))
    case Committed => false
    case RolledBack => false
  }

  predicate FreeFor(sys: System, i: nat, row: RowId) {
    forall j :: 0 <= j < |sys.sessions| && j != i ==> !Locks(sys.sessions[j], row)
  }

  // ---------- Steps ----------

  function Move(sys: System, i: nat, phase: Phase): System
    requires i < |sys.sessions|
  {
    sys.(sessions := sys.sessions[i := sys.sessions[i].(phase := phase)])
  }

  /** All of the cart's rows that exist are locked. */
  predicate AllSeen(db: Db, s: Session, seen: map<Id, Product>) {
    forall k :: 0 <= k < |s.req.lines| ==>
      (s.req.lines[k].product in db.products ==> s.req.lines[k].product in seen)
  }

  /** The cart stage, run on nothing but the rows this session locked. */
  function ReservePhase(db: Db, s: Session, seen: map<Id, Product>): Phase {
    match Admit(db.(products := seen), s.req, s.at)
    case Failure(_) => RolledBack
    case Success(business) =>
      match ReserveLines(seen, s.req.lines)
      case Failure(_) => RolledBack
      case Success(held) => if s.at.leadTimeMet then Reserved(business, held) else RolledBack
  }

  function SlotPhase(db: Db, s: Session): Phase
    requires s.phase.Reserved?
  {
    if s.req.slot.None? then Booked(s.phase.business, s.phase.held, None)
    else
      match Book(Row(db.slots, s.req.slot.value))
      case Failure(_) => RolledBack
      case Success(slot) => Booked(s.phase.business, s.phase.held, Some(slot))
  }

  function CodePhase(db: Db, s: Session, now: int): Phase
    requires s.phase.Booked?
  {
    match RedeemAsked(db, s.req, s.phase.business, now, Subtotal(s.phase.held.items))
    case Failure(_) => RolledBack
    case Success(coupon) => Redeemed(s.phase.business, s.phase.held, s.phase.slot, coupon, now)
  }

  /** Publishing a session's private rows. */
  function Install(db: Db, s: Session): Db
    requires s.phase.Redeemed?
  {
    var rows := s.phase.held.(rows := db.products + s.phase.held.rows);
    var slots := if s.req.slot.Some? && s.phase.slot.Some? then db.slots[s.req.slot.value := s.phase.slot.value]
                 else db.slots;
    Place(db, s.req, s.phase.business, rows, slots, s.phase.coupon)
  }

  function Publish(sys: System, i: nat): System
    requires i < |sys.sessions| && sys.sessions[i].phase.Redeemed?
  {
    var s := sys.sessions[i];
    System(Install(sys.db, s), sys.sessions[i := s.(phase := Committed)], sys.log + [Entry(i, s.phase.now)])
  }

  /** A step that is not possible now leaves the system as it is. */
  function Step(sys: System, a: Action): System {
    if a.i >= |sys.sessions| then sys
    else
      var s := sys.sessions[a.i];
      match a
      case LockRow(i, p) =>
        if s.phase.Locking? && InCart(s.req.lines, p) && p in sys.db.products && p !in s.phase.seen
           && FreeFor(sys, i, ProductRow(p))
        then Move(sys, i, Locking(s.phase.seen[p := sys.db.products[p]]))
        else sys
      case ReserveCart(i) =>
        if s.phase.Locking? && AllSeen(sys.db, s, s.phase.seen)
        then Move(sys, i, ReservePhase(sys.db, s, s.phase.seen))
        else sys
      case TakeSlot(i) =>
        if s.phase.Reserved? && (s.req.slot.Some? ==> FreeFor(sys, i, SlotRow(s.req.slot.value)))
        then Move(sys, i, SlotPhase(sys.db, s))
        else sys
      case UseCode(i, now) =>
        if s.phase.Booked? && (s.req.code.Some? ==> FreeFor(sys, i, CodeRow(s.req.code.value)))
        then Move(sys, i, CodePhase(sys.db, s, now))
        else sys
      case Commit(i) =>
        if s.phase.Redeemed? then Publish(sys, i) else sys
      case Abort(i) => if s.phase.Committed? then sys else Move(sys, i, RolledBack)
  }

  function Run(sys: System, actions: seq<Action>): System {
    if actions == [] then sys else Step(Run(sys, actions[..|actions| - 1]), actions[|actions| - 1])
  }

  predicate Start(sys: System) {
    && sys.log == []
    && forall i :: 0 <= i < |sys.sessions| ==>
         sys.sessions[i].phase == Locking(map[]) && WellFormed(sys.sessions[i].req, sys.sessions[i].at)
  }

  // ---------- The serial execution ----------

  predicate Logged(sessions: seq<Session>, log: seq<Entry>) {
    forall k :: 0 <= k < |log| ==> log[k].session < |sessions|
  }

  /** Running the logged sessions alone, one whole checkout after another. None if one is refused. */
  function Serial(db: Db, sessions: seq<Session>, log: seq<Entry>): Option<Db>
    requires Logged(sessions, log)
  {
    if log == [] then Some(db)
    else
      var last := log[|log| - 1];
      var s := sessions[last.session];
      match Serial(db, sessions, log[..|log| - 1])
      case None => None
      case Some(before) =>
        var at := s.at.(now := last.now);
        if WellFormed(s.req, at) && CheckoutTx(before, s.req, at).Success?
        then Some(CheckoutTx(before, s.req, at).value) else None
  }

  // ---------- A stage's result depends only on the locked rows ----------

  predicate SameCartRows(a: map<Id, Product>, b: map<Id, Product>, lines: seq<Line>) {
    forall k :: 0 <= k < |lines| ==>
      && (lines[k].product in a <==> lines[k].product in b)
      && (lines[k].product in a ==> a[lines[k].product] == b[lines[k].product])
  }

  function Restrict(rows: map<Id, Product>, lines: seq<Line>): map<Id, Product> {
    map p | p in rows && InCart(lines, p) :: rows[p]
  }

  lemma AdmitReadsCartRows(db: Db, db': Db, req: Request, at: Moment)
    requires WellFormed(req, at) && db'.customers == db.customers && db'.businesses == db.businesses
    requires forall k :: 0 <= k < |req.lines| ==>
               && (req.lines[k].product in db.products <==> req.lines[k].product in db'.products)
               && (req.lines[k].product in db.products ==>
                     db'.products[req.lines[k].product].business == db.products[req.lines[k].product].business)
    ensures Admit(db', req, at) == Admit(db, req, at)
  {
    assert forall k :: 0 <= k < |req.lines| ==> LinkOf(db', req.lines[k].product) == LinkOf(db, req.lines[k].product);
    assert BusinessesOf(db', req.lines) == BusinessesOf(db, req.lines);
  }

  lemma ReserveReadsCartRows(a: map<Id, Product>, b: map<Id, Product>, lines: seq<Line>)
    requires SameCartRows(a, b, lines) && Listed(a, lines)
    ensures Listed(b, lines)
    ensures ReserveLines(a, lines).Success? <==> ReserveLines(b, lines).Success?
    ensures ReserveLines(a, lines).Success? ==>
              var ra, rb := ReserveLines(a, lines).value, ReserveLines(b, lines).value;
              ra.items == rb.items && Restrict(ra.rows, lines) == Restrict(rb.rows, lines)
  {
    ReserveExactly(a, lines);
    ReserveExactly(b, lines);
    assert Priced(a, lines) == Priced(b, lines);
    assert Restrict(Taken(a, lines), lines) == Restrict(Taken(b, lines), lines);
  }

  // ---------- Invariant ----------

  /** The session's private results are what its stages would compute on the committed state now. */
  ghost predicate UpToDate(db: Db, s: Session) {
    && WellFormed(s.req, s.at)
    && match s.phase
       case Locking(seen) =>
         forall p :: p in seen ==> InCart(s.req.lines, p) && p in db.products && seen[p] == db.products[p]
       case Reserved(business, held) => CartDone(db, s, business, held)
       case Booked(business, held, slot) => CartDone(db, s, business, held) && SlotDone(db, s, slot)
       case Redeemed(business, held, slot, coupon, now) =>
         && CartDone(db, s, business, held) && SlotDone(db, s, slot)
         && RedeemAsked(db, s.req, business, now, Subtotal(held.items)) == Success(coupon)
       case Committed => true
       case RolledBack => true
  }

  ghost predicate CartDone(db: Db, s: Session, business: Id, held: Reservation) {
    && s.at.leadTimeMet
    && Admit(db, s.req, s.at) == Success(business)
    && Listed(db.products, s.req.lines)
    && ReserveLines(db.products, s.req.lines).Success?
    && var whole := ReserveLines(db.products, s.req.lines).value;
    && held.items == whole.items
    && held.rows == Restrict(whole.rows, s.req.lines)
  }

  ghost predicate SlotDone(db: Db, s: Session, slot: Option<Slot>) {
    if s.req.slot.None? then slot.None?
    else slot.Some? && Book(Row(db.slots, s.req.slot.value)) == Success(slot.value)
  }

  ghost predicate Exclusive(sys: System) {
    forall i, j, row :: 0 <= i < |sys.sessions| && 0 <= j < |sys.sessions| && i != j ==>
      !(Locks(sys.sessions[i], row) && Locks(sys.sessions[j], row))
  }

  /** The log names exactly the committed sessions, each once. */
  ghost predicate LogNamesCommitted(sys: System) {
    && Logged(sys.sessions, sys.log)
    && (forall k :: 0 <= k < |sys.log| ==> sys.sessions[sys.log[k].session].phase.Committed?)
    && (forall k, l :: 0 <= k < l < |sys.log| ==> sys.log[k].session != sys.log[l].session)
    && (forall i :: 0 <= i < |sys.sessions| && sys.sessions[i].phase.Committed? ==>
          exists k :: 0 <= k < |sys.log| && sys.log[k].session == i)
  }

  ghost predicate Inv(db0: Db, sys: System) {
    && (forall i :: 0 <= i < |sys.sessions| ==> UpToDate(sys.db, sys.sessions[i]))
    && Exclusive(sys)
    && LogNamesCommitted(sys)
    && Serial(db0, sys.sessions, sys.log) == Some(sys.db)
  }

  // ---------- One session's own step ----------

  lemma ReservedUpToDate(db: Db, s: Session, seen: map<Id, Product>)
    requires UpToDate(db, s) && s.phase == Locking(seen) && AllSeen(db, s, seen)
    ensures UpToDate(db, s.(phase := ReservePhase(db, s, seen)))
    ensures forall row :: Locks(s.(phase := ReservePhase(db, s, seen)), row) ==> Locks(s, row)
  {
    AdmitReadsCartRows(db, db.(products := seen), s.req, s.at);
    if Listed(seen, s.req.lines) {
      ReserveReadsCartRows(seen, db.products, s.req.lines);
      ReserveExactly(seen, s.req.lines);
      if ReserveLines(seen, s.req.lines).Success? {
        var held := ReserveLines(seen, s.req.lines).value;
        assert held.rows == Restrict(held.rows, s.req.lines);
      }
    }
  }

  /** Only session `i` moved, and it gained at most locks that no other session holds. */
  ghost predicate OwnStep(db0: Db, sys: System, i: nat, phase: Phase)
    requires i < |sys.sessions|
  {
    && Inv(db0, sys)
    && !sys.sessions[i].phase.Committed? && !phase.Committed?
    && UpToDate(sys.db, sys.sessions[i].(phase := phase))
    && forall row :: Locks(sys.sessions[i].(phase := phase), row) && !Locks(sys.sessions[i], row) ==>
         FreeFor(sys, i, row)
  }

  lemma {:induction false} SerialIgnoresPhases(db: Db, a: seq<Session>, b: seq<Session>, log: seq<Entry>)
    requires Logged(a, log) && |a| == |b|
    requires forall i :: 0 <= i < |a| ==> b[i] == a[i].(phase := b[i].phase)
    ensures Logged(b, log) && Serial(db, a, log) == Serial(db, b, log)
  {
    if log != [] {
      SerialIgnoresPhases(db, a, b, log[..|log| - 1]);
    }
  }

  lemma MoveKeepsExclusive(sys: System, i: nat, phase: Phase)
    requires i < |sys.sessions| && Exclusive(sys)
    requires forall row :: Locks(sys.sessions[i].(phase := phase), row) && !Locks(sys.sessions[i], row) ==>
               FreeFor(sys, i, row)
    ensures Exclusive(Move(sys, i, phase))
  {
    var sys' := Move(sys, i, phase);
    forall j, k, row | 0 <= j < |sys.sessions| && 0 <= k < |sys.sessions| && j != k
      ensures !(Locks(sys'.sessions[j], row) && Locks(sys'.sessions[k], row))
    {
      assert j != i ==> sys'.sessions[j] == sys.sessions[j];
      assert k != i ==> sys'.sessions[k] == sys.sessions[k];
    }
  }

  lemma OwnStepKeepsInv(db0: Db, sys: System, i: nat, phase: Phase)
    requires i < |sys.sessions| && OwnStep(db0, sys, i, phase)
    ensures Inv(db0, Move(sys, i, phase))
  {
    var sys' := Move(sys, i, phase);
    MoveKeepsExclusive(sys, i, phase);
    SerialIgnoresPhases(db0, sys.sessions, sys'.sessions, sys.log);
    forall j | 0 <= j < |sys'.sessions| ensures UpToDate(sys'.db, sys'.sessions[j]) {
      assert j != i ==> sys'.sessions[j] == sys.sessions[j];
    }
    assert LogNamesCommitted(sys') by {
      forall j | 0 <= j < |sys'.sessions| && sys'.sessions[j].phase.Committed?
        ensures exists k :: 0 <= k < |sys.log| && sys.log[k].session == j
      {
        assert sys'.sessions[j] == sys.sessions[j];
      }
    }
  }

  // ---------- Commit ----------

  lemma HeldRowsAreTheWhole(products: map<Id, Product>, lines: seq<Line>)
    requires Listed(products, lines) && ReserveLines(products, lines).Success?
    ensures var whole := ReserveLines(products, lines).value.rows;
            products + Restrict(whole, lines) == whole
  {
    var whole := ReserveLines(products, lines).value.rows;
    ReserveExactly(products, lines);
    forall p | p in products && !InCart(lines, p) ensures whole[p] == products[p] {
      QuantityOfUnlisted(lines, p);
    }
  }

  lemma InstallIsCheckout(db: Db, s: Session)
    requires UpToDate(db, s) && s.phase.Redeemed?
    ensures var at := s.at.(now := s.phase.now);
            WellFormed(s.req, at) && CheckoutTx(db, s.req, at) == Success(Install(db, s))
  {
    HeldRowsAreTheWhole(db.products, s.req.lines);
    var at := s.at.(now := s.phase.now);
    assert WellFormed(s.req, at) by {
      var i :| 0 <= i < |s.req.lines| && s.req.lines[i].product == s.at.firstRow;
    }
    assert Admit(db, s.req, at) == Admit(db, s.req, s.at);
  }

  /** Another session's commit touches no row this session has locked, so nothing this session has
      computed goes stale. */
  lemma CommitLeavesOthersUpToDate(db: Db, s: Session, t: Session)
    requires UpToDate(db, s) && s.phase.Redeemed? && UpToDate(db, t)
    requires forall row :: !(Locks(s, row) && Locks(t, row))
    ensures UpToDate(Install(db, s), t)
  {
    var db' := Install(db, s);
    InstallIsCheckout(db, s);
    if t.phase.Locking? {
      forall p | p in t.phase.seen ensures p in db'.products && t.phase.seen[p] == db'.products[p] {
        assert Locks(t, ProductRow(p));
        assert !Locks(s, ProductRow(p));
      }
    } else if t.phase.Reserved? || t.phase.Booked? || t.phase.Redeemed? {
      CartStaysDone(db, s, t);
      if (t.phase.Booked? || t.phase.Redeemed?) && t.req.slot.Some? {
        assert Locks(t, SlotRow(t.req.slot.value));
        assert !Locks(s, SlotRow(t.req.slot.value));
      }
      if t.phase.Redeemed? && t.req.code.Some? {
        CodeStaysDone(db, s, t);
      }
    }
  }

  lemma CartStaysDone(db: Db, s: Session, t: Session)
    requires UpToDate(db, s) && s.phase.Redeemed?
    requires t.phase.Reserved? || t.phase.Booked? || t.phase.Redeemed?
    requires WellFormed(t.req, t.at) && CartDone(db, t, t.phase.business, t.phase.held)
    requires forall row :: !(Locks(s, row) && Locks(t, row))
    ensures CartDone(Install(db, s), t, t.phase.business, t.phase.held)
  {
    var db' := Install(db, s);
    forall k | 0 <= k < |t.req.lines|
      ensures t.req.lines[k].product in db'.products
      ensures db'.products[t.req.lines[k].product] == db.products[t.req.lines[k].product]
    {
      var p := t.req.lines[k].product;
      assert InCart(t.req.lines, p);
      ReserveExactly(db.products, t.req.lines);
      assert Locks(t, ProductRow(p));
      assert !Locks(s, ProductRow(p));
    }
    AdmitReadsCartRows(db, db', t.req, t.at);
    ReserveReadsCartRows(db.products, db'.products, t.req.lines);
  }

  lemma CodeStaysDone(db: Db, s: Session, t: Session)
    requires UpToDate(db, s) && s.phase.Redeemed? && t.phase.Redeemed? && t.req.code.Some?
    requires forall row :: !(Locks(s, row) && Locks(t, row))
    ensures RedeemAsked(Install(db, s), t.req, t.phase.business, t.phase.now, Subtotal(t.phase.held.items))
            == RedeemAsked(db, t.req, t.phase.business, t.phase.now, Subtotal(t.phase.held.items))
  {
    var db', c := Install(db, s), t.req.code.value;
    assert Locks(t, CodeRow(c));
    assert !Locks(s, CodeRow(c));
    assert RowsOf(db'.usages, c, t.req.customer) == RowsOf(db.usages, c, t.req.customer);
    assert Find(db'.codes, c, t.phase.business) == Find(db.codes, c, t.phase.business);
  }

  lemma CommitLogged(sys: System, i: nat)
    requires LogNamesCommitted(sys) && i < |sys.sessions| && sys.sessions[i].phase.Redeemed?
    ensures LogNamesCommitted(Publish(sys, i))
  {
    var sys' := Publish(sys, i);
    forall k | 0 <= k < |sys.log| ensures sys.log[k].session != i {
      assert sys.sessions[sys.log[k].session].phase.Committed?;
    }
    forall j | 0 <= j < |sys'.sessions| && sys'.sessions[j].phase.Committed?
      ensures exists k :: 0 <= k < |sys'.log| && sys'.log[k].session == j
    {
      if j == i {
        assert sys'.log[|sys.log|].session == j;
      } else {
        var k :| 0 <= k < |sys.log| && sys.log[k].session == j;
        assert sys'.log[k].session == j;
      }
    }
  }

  lemma {:induction false} CommitIsSerial(db0: Db, sys: System, i: nat)
    requires i < |sys.sessions| && sys.sessions[i].phase.Redeemed? && UpToDate(sys.db, sys.sessions[i])
    requires Logged(sys.sessions, sys.log) && Serial(db0, sys.sessions, sys.log) == Some(sys.db)
    ensures var sys' := Publish(sys, i);
            Logged(sys'.sessions, sys'.log) && Serial(db0, sys'.sessions, sys'.log) == Some(sys'.db)
  {
    ReplayedToInstall(db0, sys.sessions, sys.log, sys.db, i);
  }

  lemma {:induction false} ReplayedToInstall(db0: Db, sessions: seq<Session>, log: seq<Entry>, db: Db, i: nat)
    requires i < |sessions| && sessions[i].phase.Redeemed? && UpToDate(db, sessions[i])
    requires Logged(sessions, log) && Serial(db0, sessions, log) == Some(db)
    ensures var s := sessions[i]; var log' := log + [Entry(i, s.phase.now)];
            var sessions' := sessions[i := s.(phase := Committed)];
            Logged(sessions', log') && Serial(db0, sessions', log') == Some(Install(db, s))
  {
    var s := sessions[i];
    var after := Install(db, s);
    var at := s.at.(now := s.phase.now);
    assert WellFormed(s.req, at) && CheckoutTx(db, s.req, at) == Success(after) by {
      InstallIsCheckout(db, s);
    }
    InstalledIsSerial(db0, sessions, log, db, i, after);
  }

  lemma {:induction false} InstalledIsSerial(db0: Db, sessions: seq<Session>, log: seq<Entry>, before: Db, i: nat,
                                             after: Db)
    requires i < |sessions| && sessions[i].phase.Redeemed?
    requires Logged(sessions, log) && Serial(db0, sessions, log) == Some(before)
    requires var s := sessions[i]; var at := s.at.(now := s.phase.now);
             WellFormed(s.req, at) && CheckoutTx(before, s.req, at) == Success(after)
    ensures var s := sessions[i]; var log' := log + [Entry(i, s.phase.now)];
            var sessions' := sessions[i := s.(phase := Committed)];
            Logged(sessions', log') && Serial(db0, sessions', log') == Some(after)
  {
    var s := sessions[i];
    var sessions' := sessions[i := s.(phase := Committed)];
    SerialIgnoresPhases(db0, sessions, sessions', log);
    CommittedSerial(db0, sessions', log, i, s.phase.now, before, after);
  }

  lemma {:induction false} CommittedSerial(db0: Db, sessions: seq<Session>, log: seq<Entry>, i: nat, now: int,
                                           before: Db, after: Db)
    requires Logged(sessions, log) && i < |sessions| && Serial(db0, sessions, log) == Some(before)
    requires var s := sessions[i];
             WellFormed(s.req, s.at.(now := now)) && CheckoutTx(before, s.req, s.at.(now := now)) == Success(after)
    ensures Logged(sessions, log + [Entry(i, now)])
    ensures Serial(db0, sessions, log + [Entry(i, now)]) == Some(after)
  {
    SerialExtends(db0, sessions, log, Entry(i, now), before);
  }

  lemma {:induction false} SerialExtends(db0: Db, sessions: seq<Session>, log: seq<Entry>, e: Entry, before: Db)
    requires Logged(sessions, log) && e.session < |sessions| && Serial(db0, sessions, log) == Some(before)
    requires var s := sessions[e.session];
             WellFormed(s.req, s.at.(now := e.now)) && CheckoutTx(before, s.req, s.at.(now := e.now)).Success?
    ensures var s := sessions[e.session];
            Logged(sessions, log + [e]) &&
            Serial(db0, sessions, log + [e]) == Some(CheckoutTx(before, s.req, s.at.(now := e.now)).value)
  {
    assert (log + [e])[..|log|] == log;
  }

  lemma CommitUpToDate(sys: System, i: nat, j: nat)
    requires i < |sys.sessions| && j < |sys.sessions| && sys.sessions[i].phase.Redeemed?
    requires UpToDate(sys.db, sys.sessions[i]) && UpToDate(sys.db, sys.sessions[j])
    requires i != j ==> forall row :: !(Locks(sys.sessions[i], row) && Locks(sys.sessions[j], row))
    ensures UpToDate(Publish(sys, i).db, Publish(sys, i).sessions[j])
  {
    if j != i {
      CommitLeavesOthersUpToDate(sys.db, sys.sessions[i], sys.sessions[j]);
    }
  }

  lemma CommitKeepsExclusive(sys: System, i: nat)
    requires i < |sys.sessions| && Exclusive(sys) && sys.sessions[i].phase.Redeemed?
    ensures Exclusive(Publish(sys, i))
  {
    MoveKeepsExclusive(sys, i, Committed);
    assert Publish(sys, i).sessions == Move(sys, i, Committed).sessions;
  }

  lemma CommitKeepsUpToDate(sys: System, i: nat)
    requires i < |sys.sessions| && Exclusive(sys) && sys.sessions[i].phase.Redeemed?
    requires forall j :: 0 <= j < |sys.sessions| ==> UpToDate(sys.db, sys.sessions[j])
    ensures var sys' := Publish(sys, i);
            forall j :: 0 <= j < |sys'.sessions| ==> UpToDate(sys'.db, sys'.sessions[j])
  {
    forall j | 0 <= j < |sys.sessions|
      ensures UpToDate(Publish(sys, i).db, Publish(sys, i).sessions[j])
    {
      CommitUpToDate(sys, i, j);
    }
  }

  lemma {:induction false} CommitKeepsInv(db0: Db, sys: System, i: nat)
    requires Inv(db0, sys) && i < |sys.sessions| && sys.sessions[i].phase.Redeemed?
    ensures Inv(db0, Publish(sys, i))
  {
    CommitKeepsExclusive(sys, i);
    CommitKeepsUpToDate(sys, i);
    CommitLogged(sys, i);
    CommitIsSerial(db0, sys, i);
  }

  // ---------- The theorem ----------

  /** The phase an uncommitting step moves its session to. */
  function NextPhase(sys: System, a: Action): Phase
    requires a.i < |sys.sessions| && !a.Commit?
  {
    Step(sys, a).sessions[a.i].phase
  }

  lemma NextPhaseIsUpToDate(sys: System, a: Action)
    requires a.i < |sys.sessions| && !a.Commit? && Step(sys, a) != sys
    requires UpToDate(sys.db, sys.sessions[a.i])
    ensures Step(sys, a) == Move(sys, a.i, NextPhase(sys, a))
    ensures !sys.sessions[a.i].phase.Committed? && !NextPhase(sys, a).Committed?
    ensures UpToDate(sys.db, sys.sessions[a.i].(phase := NextPhase(sys, a)))
    ensures forall row :: Locks(sys.sessions[a.i].(phase := NextPhase(sys, a)), row) && !Locks(sys.sessions[a.i], row)
              ==> FreeFor(sys, a.i, row)
  {
    if a.ReserveCart? {
      ReservedUpToDate(sys.db, sys.sessions[a.i], sys.sessions[a.i].phase.seen);
    }
  }

  lemma StepKeepsInv(db0: Db, sys: System, a: Action)
    requires Inv(db0, sys)
    ensures Inv(db0, Step(sys, a))
  {
    if a.i < |sys.sessions| && Step(sys, a) != sys {
      if a.Commit? {
        CommitKeepsInv(db0, sys, a.i);
      } else {
        NextPhaseIsUpToDate(sys, a);
        OwnStepKeepsInv(db0, sys, a.i, NextPhase(sys, a));
      }
    }
  }

  lemma {:induction false} RunKeepsInv(sys: System, actions: seq<Action>)
    requires Start(sys)
    ensures Inv(sys.db, Run(sys, actions))
  {
    if actions != [] {
      RunKeepsInv(sys, actions[..|actions| - 1]);
      StepKeepsInv(sys.db, Run(sys, actions[..|actions| - 1]), actions[|actions| - 1]);
    }
  }

  /** However the steps of any number of checkouts interleave, the committed tables - stock, booked
      counts, used counts, usage rows and orders - are those of running the committed checkouts alone,
      whole, in commit order, each at its own clock reading; and those are all the committed ones. */
  lemma {:induction false} CheckoutsAreSerializable(sys: System, actions: seq<Action>)
    requires Start(sys)
    ensures var end := Run(sys, actions);
            && |end.sessions| == |sys.sessions|
            && (forall i :: 0 <= i < |sys.sessions| ==>
                  end.sessions[i] == sys.sessions[i].(phase := end.sessions[i].phase))
            && LogNamesCommitted(end)
            && Serial(sys.db, end.sessions, end.log) == Some(end.db)
  {
    RunKeepsInv(sys, actions);
    RunKeepsRequests(sys, actions);
  }

  lemma {:induction false} RunKeepsRequests(sys: System, actions: seq<Action>)
    ensures var end := Run(sys, actions);
            && |end.sessions| == |sys.sessions|
            && forall i :: 0 <= i < |sys.sessions| ==>
                 end.sessions[i] == sys.sessions[i].(phase := end.sessions[i].phase)
  {
    if actions != [] {
      RunKeepsRequests(sys, actions[..|actions| - 1]);
    }
  }

  // ---------- A session left alone is a checkout ----------

  function AllLocks(lines: seq<Line>): seq<Action> {
    seq(|lines|, k requires 0 <= k < |lines| => LockRow(0, lines[k].product))
  }

  lemma RunThenStep(sys: System, actions: seq<Action>, a: Action)
    ensures Run(sys, actions + [a]) == Step(Run(sys, actions), a)
  {
    assert (actions + [a])[..|actions|] == actions;
  }

  /** The rows locked once the first k lines have been dealt with. */
  function SeenAfter(rows: map<Id, Product>, lines: seq<Line>, k: nat): map<Id, Product>
    requires k <= |lines|
  {
    Restrict(rows, lines[..k])
  }

  lemma OneMoreSeen(rows: map<Id, Product>, lines: seq<Line>, k: nat)
    requires k < |lines|
    ensures var before, p := SeenAfter(rows, lines, k), lines[k].product;
            SeenAfter(rows, lines, k + 1) == if p in rows then before[p := rows[p]] else before
  {
    var before, after, p := SeenAfter(rows, lines, k), SeenAfter(rows, lines, k + 1), lines[k].product;
    forall q: Id ensures InCart(lines[..k + 1], q) <==> InCart(lines[..k], q) || q == p {
      if InCart(lines[..k], q) {
        var i :| 0 <= i < k && lines[..k][i].product == q;
        assert lines[..k + 1][i].product == q;
      }
      assert lines[..k + 1][k].product == p;
      if InCart(lines[..k + 1], q) && q != p {
        var i :| 0 <= i < k + 1 && lines[..k + 1][i].product == q;
        assert lines[..k][i].product == q;
      }
    }
  }

  lemma LockStep(sys: System, seen: map<Id, Product>, p: Id)
    requires |sys.sessions| == 1 && InCart(sys.sessions[0].req.lines, p)
    requires p in seen ==> p in sys.db.products && seen[p] == sys.db.products[p]
    ensures Step(Move(sys, 0, Locking(seen)), LockRow(0, p)) ==
            Move(sys, 0, Locking(if p in sys.db.products then seen[p := sys.db.products[p]] else seen))
  {
    if p in seen {
      assert seen[p := sys.db.products[p]] == seen;
    }
  }

  lemma {:induction false} LockingTheCart(sys: System, k: nat)
    requires Start(sys) && |sys.sessions| == 1 && k <= |sys.sessions[0].req.lines|
    ensures var lines := sys.sessions[0].req.lines;
            Run(sys, AllLocks(lines)[..k]) == Move(sys, 0, Locking(SeenAfter(sys.db.products, lines, k)))
  {
    var lines := sys.sessions[0].req.lines;
    var locks := AllLocks(lines);
    if k == 0 {
      assert SeenAfter(sys.db.products, lines, 0) == map[];
      assert Move(sys, 0, Locking(map[])) == sys;
    } else {
      LockingTheCart(sys, k - 1);
      assert locks[..k] == locks[..k - 1] + [locks[k - 1]];
      RunThenStep(sys, locks[..k - 1], locks[k - 1]);
      OneMoreSeen(sys.db.products, lines, k - 1);
      LockStep(sys, SeenAfter(sys.db.products, lines, k - 1), lines[k - 1].product);
    }
  }

  function FourStages(sys: System, now: int): System {
    Step(Step(Step(Step(sys, ReserveCart(0)), TakeSlot(0)), UseCode(0, now)), Commit(0))
  }

  lemma RolledBackStays(sys: System, now: int)
    requires |sys.sessions| == 1 && sys.sessions[0].phase.RolledBack?
    ensures Step(Step(Step(sys, TakeSlot(0)), UseCode(0, now)), Commit(0)) == sys
  {
  }

  lemma StagesAreCheckout(sys: System, seen: map<Id, Product>, now: int)
    requires |sys.sessions| == 1 && sys.sessions[0].phase == Locking(seen)
    requires UpToDate(sys.db, sys.sessions[0]) && AllSeen(sys.db, sys.sessions[0], seen)
    ensures var s := sys.sessions[0];
            var at := s.at.(now := now);
            WellFormed(s.req, at) &&
            FourStages(sys, now).db ==
              match CheckoutTx(sys.db, s.req, at) case Success(db') => db' case Failure(_) => sys.db
  {
    var s := sys.sessions[0];
    var at := s.at.(now := now);
    assert WellFormed(s.req, at) by {
      var i :| 0 <= i < |s.req.lines| && s.req.lines[i].product == s.at.firstRow;
    }
    assert Admit(sys.db, s.req, at) == Admit(sys.db, s.req, s.at);
    AdmitReadsCartRows(sys.db, sys.db.(products := seen), s.req, s.at);
    var one := Step(sys, ReserveCart(0));
    assert one == Move(sys, 0, ReservePhase(sys.db, s, seen));
    ReservedUpToDate(sys.db, s, seen);
    if one.sessions[0].phase.RolledBack? {
      RolledBackStays(one, now);
      if Listed(sys.db.products, s.req.lines) {
        ReserveReadsCartRows(sys.db.products, seen, s.req.lines);
      }
    } else {
      LateStagesAreCheckout(one, now);
    }
  }

  lemma LateStagesAreCheckout(sys: System, now: int)
    requires |sys.sessions| == 1 && sys.sessions[0].phase.Reserved? && UpToDate(sys.db, sys.sessions[0])
    ensures var s := sys.sessions[0];
            var at := s.at.(now := now);
            WellFormed(s.req, at) &&
            Step(Step(Step(sys, TakeSlot(0)), UseCode(0, now)), Commit(0)).db ==
              match CheckoutTx(sys.db, s.req, at) case Success(db') => db' case Failure(_) => sys.db
  {
    var s := sys.sessions[0];
    var at := s.at.(now := now);
    assert WellFormed(s.req, at) by {
      var i :| 0 <= i < |s.req.lines| && s.req.lines[i].product == s.at.firstRow;
    }
    assert Admit(sys.db, s.req, at) == Admit(sys.db, s.req, s.at);
    var booked := s.(phase := SlotPhase(sys.db, s));
    assert Step(sys, TakeSlot(0)) == Move(sys, 0, booked.phase);
    if booked.phase.Booked? {
      var redeemed := booked.(phase := CodePhase(sys.db, booked, now));
      assert Step(Step(sys, TakeSlot(0)), UseCode(0, now)) == Move(sys, 0, redeemed.phase);
      if redeemed.phase.Redeemed? {
        InstallIsCheckout(sys.db, redeemed);
      }
    }
  }

  /** The steps are not more timid than the program: a session that nothing disturbs commits exactly
      when the whole-transaction checkout accepts, with its result. */
  lemma UndisturbedSessionIsCheckout(sys: System, now: int)
    requires Start(sys) && |sys.sessions| == 1
    ensures var s := sys.sessions[0];
            var at := s.at.(now := now);
            var actions := AllLocks(s.req.lines) + [ReserveCart(0)] + [TakeSlot(0)] + [UseCode(0, now)] + [Commit(0)];
            WellFormed(s.req, at) &&
            Run(sys, actions).db ==
              match CheckoutTx(sys.db, s.req, at) case Success(db') => db' case Failure(_) => sys.db
  {
    var s := sys.sessions[0];
    var locks := AllLocks(s.req.lines);
    LockingTheCart(sys, |s.req.lines|);
    assert locks[..|s.req.lines|] == locks;
    assert s.req.lines[..|s.req.lines|] == s.req.lines;
    StagesAreCheckout(Run(sys, locks), Restrict(sys.db.products, s.req.lines), now);
    RunThenStep(sys, locks, ReserveCart(0));
    RunThenStep(sys, locks + [ReserveCart(0)], TakeSlot(0));
    RunThenStep(sys, locks + [ReserveCart(0)] + [TakeSlot(0)], UseCode(0, now));
    RunThenStep(sys, locks + [ReserveCart(0)] + [TakeSlot(0)] + [UseCode(0, now)], Commit(0));
  }
}
