/** The idempotency lock on one key (src/common/idempotency/idempotency.interceptor.ts:59-94), with any
    number of requests interleaved between Redis round trips. */
module Idempotency {
  import opened Wrappers

  datatype Response = Response(status: int, body: string)

  /** The value under the key: the processing mark or the stored response. */
  datatype Stored = Processing | Done(response: Response)

  datatype Request =
    | Arriving                       // SET NX comes next
    | Refused                        // SET NX failed; GET comes next
    | Running                        // holds the lock; the handler is running
    | Returned(response: Response)   // the handler returned; SET comes next
    | Threw                          // the handler threw and the client has its error; DEL is on its way
    | Answered(response: Response)
    | Conflict
    | Errored

  /** successes lists what handler runs have returned, in order. */
  datatype System = System(cell: Option<Stored>, requests: seq<Request>, successes: seq<Response>)

  datatype Action =
    | Acquire(i: nat)
    | Lookup(i: nat)
    | Return(i: nat, response: Response)
    | Throw(i: nat)
    | Save(i: nat)
    | Release(i: nat)
    | Expire

  function Move(sys: System, i: nat, r: Request): System
    requires i < |sys.requests|
  {
    sys.(requests := sys.requests[i := r])
  }

  /** A step that is not possible now leaves the system as it is. */
  function Step(sys: System, a: Action): System {
    if a.Expire? then sys.(cell := None)
    else if a.i >= |sys.requests| then sys
    else
      var r := sys.requests[a.i];
      match a
      case Acquire(i) =>
        if !r.Arriving? then sys
        else if sys.cell.None? then Move(sys, i, Running).(cell := Some(Processing))
        else Move(sys, i, Refused)
      case Lookup(i) =>
        if !r.Refused? then sys
        else if sys.cell.Some? && sys.cell.value.Done? then Move(sys, i, Answered(sys.cell.value.response))
        else Move(sys, i, Conflict)
      case Return(i, response) =>
        if r.Running? then Move(sys, i, Returned(response)).(successes := sys.successes + [response]) else sys
      case Throw(i) => if r.Running? then Move(sys, i, Threw) else sys
      case Save(i) =>
        if r.Returned? then Move(sys, i, Answered(r.response)).(cell := Some(Done(r.response))) else sys
      case Release(i) => if r.Threw? then Move(sys, i, Errored).(cell := None) else sys
      case Expire => sys
  }

  function Run(sys: System, actions: seq<Action>): System {
    if actions == [] then sys else Step(Run(sys, actions[..|actions| - 1]), actions[|actions| - 1])
  }

  predicate Start(sys: System) {
    sys.cell == None && sys.successes == [] && forall i :: 0 <= i < |sys.requests| ==> sys.requests[i].Arriving?
  }

  /** From the won SET NX to the SET or DEL that ends it. */
  predicate Holds(sys: System, i: nat) {
    i < |sys.requests| && (sys.requests[i].Running? || sys.requests[i].Returned? || sys.requests[i].Threw?)
  }

  ghost predicate Inv(sys: System) {
    && (forall i: nat, j: nat :: Holds(sys, i) && Holds(sys, j) ==> i == j)
    && (forall i: nat :: Holds(sys, i) ==> sys.cell == Some(Processing))
    && (sys.cell == Some(Processing) ==> exists i :: Holds(sys, i))
    && (sys.cell.None? ==> sys.successes == [])
    && (sys.cell.Some? && sys.cell.value.Done? ==> sys.successes == [sys.cell.value.response])
    && (forall i: nat :: Holds(sys, i) ==>
          sys.successes == if sys.requests[i].Returned? then [sys.requests[i].response] else [])
    && (forall i :: 0 <= i < |sys.requests| && sys.requests[i].Answered? ==>
          sys.cell == Some(Done(sys.requests[i].response)))
  }

  lemma MovedRequest(sys: System, i: nat, r: Request)
    requires i < |sys.requests|
    ensures forall j :: Holds(Move(sys, i, r), j) <==>
              if j == i then r.Running? || r.Returned? || r.Threw? else Holds(sys, j)
  {
  }

  lemma StepKeepsInv(sys: System, a: Action)
    requires Inv(sys) && !a.Expire?
    ensures Inv(Step(sys, a))
  {
    var sys' := Step(sys, a);
    if a.i < |sys.requests| && sys' != sys {
      var r := sys'.requests[a.i];
      MovedRequest(sys, a.i, r);
      assert forall j :: Holds(sys', j) <==> Holds(Move(sys, a.i, r), j);
      assert forall j :: 0 <= j < |sys.requests| && j != a.i ==> sys'.requests[j] == sys.requests[j];
      if Holds(sys', a.i) {
        assert sys'.cell == Some(Processing);
      } else if Holds(sys, a.i) {
        assert sys'.cell != Some(Processing);
      }
    }
  }

  predicate NoExpiry(actions: seq<Action>) {
    forall k :: 0 <= k < |actions| ==> !actions[k].Expire?
  }

  lemma {:induction false} RunKeepsInv(sys: System, actions: seq<Action>)
    requires Inv(sys) && NoExpiry(actions)
    ensures Inv(Run(sys, actions))
  {
    if actions != [] {
      RunKeepsInv(sys, actions[..|actions| - 1]);
      StepKeepsInv(Run(sys, actions[..|actions| - 1]), actions[|actions| - 1]);
    }
  }

  /** While the key does not expire: handler runs never overlap, at most one of them ever returns,
      every response that is not an error or a conflict is that one's, and a delete still on its way
      finds nothing but its own request's lock. */
  lemma OneRunIsEverAnswered(sys: System, actions: seq<Action>)
    requires Start(sys) && NoExpiry(actions)
    ensures var end := Run(sys, actions);
            && (forall i, j :: (0 <= i < |end.requests| && 0 <= j < |end.requests| &&
                                end.requests[i].Running? && end.requests[j].Running?) ==> i == j)
            && |end.successes| <= 1
            && (forall i :: 0 <= i < |end.requests| && end.requests[i].Answered? ==>
                  end.successes == [end.requests[i].response])
            && (forall i :: 0 <= i < |end.requests| && end.requests[i].Threw? ==>
                  end.cell == Some(Processing) && forall j :: Holds(end, j) ==> j == i)
  {
    RunKeepsInv(sys, actions);
    var end := Run(sys, actions);
    forall i | 0 <= i < |end.requests| ensures (end.requests[i].Running? || end.requests[i].Threw?) ==> Holds(end, i) {
    }
    if end.cell == Some(Processing) {
      var i :| Holds(end, i);
    }
  }

  /** A request that had not arrived when the response was stored. */
  predicate Replays(r: Request, response: Response) {
    r.Arriving? || r.Refused? || r == Answered(response)
  }

  lemma StepKeepsStored(sys: System, a: Action, response: Response)
    requires Inv(sys) && !a.Expire? && sys.cell == Some(Done(response))
    ensures var sys' := Step(sys, a);
            && sys'.cell == sys.cell && sys'.successes == sys.successes && |sys'.requests| == |sys.requests|
            && forall i :: 0 <= i < |sys.requests| && Replays(sys.requests[i], response) ==>
                 Replays(sys'.requests[i], response)
  {
    forall i | 0 <= i < |sys.requests| ensures !Holds(sys, i) {
    }
  }

  /** Once a response is stored, on every run without expiry it stays stored and no handler run returns
      again; every request that arrives from then on is on its way to that response or has been answered
      with it, and none is told of a conflict. */
  lemma {:induction false} StoredResponseIsReplayed(sys: System, actions: seq<Action>, response: Response)
    requires Inv(sys) && sys.cell == Some(Done(response)) && NoExpiry(actions)
    ensures var end := Run(sys, actions);
            && end.cell == sys.cell && end.successes == sys.successes == [response]
            && |end.requests| == |sys.requests|
            && forall i :: 0 <= i < |sys.requests| && sys.requests[i].Arriving? ==>
                 Replays(end.requests[i], response)
  {
    StoredStays(sys, actions, response);
  }

  lemma {:induction false} StoredStays(sys: System, actions: seq<Action>, response: Response)
    requires Inv(sys) && sys.cell == Some(Done(response)) && NoExpiry(actions)
    ensures var end := Run(sys, actions);
            && Inv(end) && end.cell == sys.cell && end.successes == sys.successes
            && |end.requests| == |sys.requests|
            && forall i :: 0 <= i < |sys.requests| && Replays(sys.requests[i], response) ==>
                 Replays(end.requests[i], response)
  {
    if actions != [] {
      var init := actions[..|actions| - 1];
      StoredStays(sys, init, response);
      StepKeepsInv(Run(sys, init), actions[|actions| - 1]);
      StepKeepsStored(Run(sys, init), actions[|actions| - 1], response);
    }
  }

  /** After a failed run's delete the key is free again, so a retry runs the handler. */
  lemma {:induction false} FailureAllowsRetry(sys: System, i: nat, j: nat)
    requires Inv(sys) && i < |sys.requests| && sys.requests[i].Threw?
    requires j < |sys.requests| && j != i && sys.requests[j].Arriving?
    ensures var retried := Step(Step(sys, Release(i)), Acquire(j));
            Inv(retried) && retried.requests[i].Errored? && retried.requests[j].Running?
  {
    StepKeepsInv(sys, Release(i));
    StepKeepsInv(Step(sys, Release(i)), Acquire(j));
  }

  /** Expiry is harmless exactly when there is nothing to expire. While a request holds the lock it
      lets another run start beside it; after completion it lets the handler run, and return, again. */
  lemma ExpiryBreaksExactlyWhenHeld(sys: System, j: nat)
    requires Inv(sys) && j < |sys.requests| && sys.requests[j].Arriving?
    ensures Inv(Step(sys, Expire)) <==> sys.cell.None?
    ensures var next := Step(Step(sys, Expire), Acquire(j));
            && next.requests[j].Running?
            && (sys.cell == Some(Processing) ==> exists i :: i != j && Holds(next, i))
            && (sys.cell.Some? && sys.cell.value.Done? ==>
                  forall response :: |Step(next, Return(j, response)).successes| == 2)
  {
    var expired := Step(sys, Expire);
    if sys.cell == Some(Processing) {
      var i :| Holds(sys, i);
      assert Holds(expired, i);
      assert Holds(Step(expired, Acquire(j)), i);
    }
  }

  // ---------- With expiries anywhere ----------

  /** How often the key expired while it was held or answered. */
  function Expiries(sys: System, actions: seq<Action>): nat {
    if actions == [] then 0
    else
      var init := actions[..|actions| - 1];
      Expiries(sys, init) + if actions[|actions| - 1].Expire? && Run(sys, init).cell.Some? then 1 else 0
  }

  predicate Active(r: Request) {
    r.Running? || r.Threw?
  }

  /** Requests whose handler is running, or whose failed run's delete is on its way. */
  function ActiveCount(requests: seq<Request>): nat {
    if requests == [] then 0
    else ActiveCount(requests[..|requests| - 1]) + if Active(requests[|requests| - 1]) then 1 else 0
  }

  lemma {:induction false} ActiveAfterMove(requests: seq<Request>, i: nat, r: Request)
    requires i < |requests|
    ensures ActiveCount(requests[i := r]) + (if Active(requests[i]) then 1 else 0)
            == ActiveCount(requests) + if Active(r) then 1 else 0
  {
    var last := |requests| - 1;
    if i < last {
      ActiveAfterMove(requests[..last], i, r);
      assert requests[i := r][..last] == requests[..last][i := r];
    } else {
      assert requests[i := r][..last] == requests[..last];
    }
  }

  lemma {:induction false} NoneActive(requests: seq<Request>)
    requires forall i :: 0 <= i < |requests| ==> !Active(requests[i])
    ensures ActiveCount(requests) == 0
  {
    if requests != [] {
      NoneActive(requests[..|requests| - 1]);
    }
  }

  /** Successes and runs that may still count, and one more for a free key. */
  function Claims(sys: System): nat {
    |sys.successes| + ActiveCount(sys.requests) + if sys.cell.None? then 1 else 0
  }

  lemma OneMoreClaimPerExpiry(sys: System, a: Action)
    ensures Claims(Step(sys, a)) <= Claims(sys) + if a.Expire? && sys.cell.Some? then 1 else 0
  {
    if !a.Expire? && a.i < |sys.requests| && Step(sys, a) != sys {
      ActiveAfterMove(sys.requests, a.i, Step(sys, a).requests[a.i]);
      assert Step(sys, a).requests == sys.requests[a.i := Step(sys, a).requests[a.i]];
    }
  }

  /** With expiries anywhere, on every run: at most one handler run returns, and one more for each time
      the key expired while it was held or answered - late deletes of other requests' locks included. */
  lemma {:induction false} OneReturnPerExpiry(sys: System, actions: seq<Action>)
    requires Start(sys)
    ensures |Run(sys, actions).successes| + ActiveCount(Run(sys, actions).requests) <= 1 + Expiries(sys, actions)
  {
    ClaimsOnRuns(sys, actions);
  }

  lemma {:induction false} ClaimsOnRuns(sys: System, actions: seq<Action>)
    requires Start(sys)
    ensures Claims(Run(sys, actions)) <= 1 + Expiries(sys, actions)
  {
    if actions == [] {
      NoneActive(sys.requests);
    } else {
      ClaimsOnRuns(sys, actions[..|actions| - 1]);
      OneMoreClaimPerExpiry(Run(sys, actions[..|actions| - 1]), actions[|actions| - 1]);
    }
  }

  // ---------- The interceptor, one request at a time ----------

  datatype Outcome = Returns(response: Response) | Throws

  datatype Answer = Answer(request: Request, ran: bool)

  /** The round trips of one whole request. */
  function Course(outcome: Outcome): seq<Action> {
    [Acquire(0), Lookup(0)] +
    match outcome
    case Returns(response) => [Return(0, response), Save(0)]
    case Throws => [Throw(0), Release(0)]
  }

  class Interceptor {
    var cells: map<string, Stored>

    function Cell(key: string): Option<Stored>
      reads this
    {
      if key in cells then Some(cells[key]) else None
    }

    constructor ()
      ensures cells == map[]
    {
      cells := map[];
    }

    /** `key` is None or "" when the header is missing: the handler then runs unguarded. */
    method Intercept(key: Option<string>, outcome: Outcome) returns (a: Answer)
      modifies this
      ensures forall other :: key != Some(other) ==> Cell(other) == old(Cell(other))
      ensures key.None? || key.value == "" ==>
                && a.ran && cells == old(cells)
                && a.request == if outcome.Returns? then Answered(outcome.response) else Errored
      ensures key.Some? && key.value != "" ==>
                var end := Run(System(old(Cell(key.value)), [Arriving], []), Course(outcome));
                && Cell(key.value) == end.cell
                && end.requests == [a.request]
                && (a.ran <==> old(Cell(key.value)).None?)
    {
      if key.None? || key.value == "" {
        return Answer(if outcome.Returns? then Answered(outcome.response) else Errored, true);
      }
      ghost var start := System(Cell(key.value), [Arriving], []);
      CourseOfOne(start, outcome);
      var redisKey := key.value;
      if redisKey in cells {
        var stored := cells[redisKey];
        if stored.Done? {
          return Answer(Answered(stored.response), false);
        }
        return Answer(Conflict, false);
      }
      cells := cells[redisKey := Processing];
      if outcome.Returns? {
        cells := cells[redisKey := Done(outcome.response)];
        return Answer(Answered(outcome.response), true);
      }
      cells := cells - {redisKey};
      return Answer(Errored, true);
    }
  }

  lemma CourseOfOne(sys: System, outcome: Outcome)
    requires sys.requests == [Arriving] && sys.successes == []
    ensures var end := Run(sys, Course(outcome));
            && |end.requests| == 1
            && match sys.cell
               case Some(Done(r)) => end.cell == sys.cell && end.requests[0] == Answered(r)
               case Some(Processing) => end.cell == sys.cell && end.requests[0] == Conflict
               case None =>
                 match outcome
                 case Returns(r) => end.cell == Some(Done(r)) && end.requests[0] == Answered(r)
                 case Throws => end.cell == None && end.requests[0] == Errored
  {
    var c := Course(outcome);
    assert c[..4] == c && c[..4][..3] == c[..3] && c[..3][..2] == c[..2];
    assert c[..2][..1] == c[..1] && c[..1][..0] == c[..0];
    assert Run(sys, c[..1]) == Step(sys, c[0]);
    assert Run(sys, c[..2]) == Step(Step(sys, c[0]), c[1]);
    assert Run(sys, c[..3]) == Step(Step(Step(sys, c[0]), c[1]), c[2]);
    assert Run(sys, c[..4]) == Step(Step(Step(Step(sys, c[0]), c[1]), c[2]), c[3]);
  }
}
