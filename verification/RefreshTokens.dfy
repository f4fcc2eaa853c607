/** The same token families with calls run one at a time, under the clock: what rotate and revoke then
    promise their callers. A call is the run of its own round trips with nobody in between. */
module RefreshTokens {
  import opened Wrappers
  import opened TokenValue
  import opened TokenFamilies

  datatype Call =
    | Login(kind: string, principal: string, family: Family, token: Token)
    | Rotate(presented: Token, expectedKind: string, next: Token)
    | Revoke(presented: Token)
    | Pass(seconds: nat)

  /** The client of the call; steps that its course does not reach do nothing. */
  const ME: nat := 0

  function RevokeFrom(sys: System): System {
    Step(Step(sys, ReadMembers(ME)), DeleteMembers(ME))
  }

  function Perform(sys: System, call: Call): System {
    match call
    case Login(kind, principal, family, token) => Step(sys, Issue(kind, principal, family, token))
    case Rotate(presented, expectedKind, next) =>
      if Fresh(sys, next) then
        RevokeFrom(Step(Step(Step(sys, Present(ME, presented, expectedKind)), CheckFamily(ME)), MintNext(ME, next)))
      else sys
    case Revoke(presented) => RevokeFrom(Step(sys, TokenFamilies.Logout(ME, presented)))
    case Pass(seconds) => Step(sys, Wait(seconds))
  }

  function PerformAll(sys: System, calls: seq<Call>): System {
    if calls == [] then sys else Perform(PerformAll(sys, calls[..|calls| - 1]), calls[|calls| - 1])
  }

  /** Every live token is a member of its live family, and neither key expires before the token. */
  ghost predicate Covered(s: Store, t: Token)
    requires t in s.tokens
  {
    var key := s.tokens[t];
    var f := key.value.family;
    && s.now < key.expires <= s.now + TTL
    && f in s.families && key.expires <= s.families[f].expires
    && f in s.members && key.expires <= s.members[f].expires && t in s.members[f].value
  }

  ghost predicate Cover(sys: System) {
    && sys.clients == map[]
    && forall t :: t in sys.store.tokens ==> Covered(sys.store, t)
  }

  /** No token ever minted in the family is left, nor the family key. */
  ghost predicate Gone(sys: System, f: Family) {
    && f in sys.lineages && f !in sys.store.families
    && forall t :: t in sys.lineages[f].chain ==> t !in sys.store.tokens
  }

  // ---------- What one call does ----------

  predicate Rotatable(sys: System, token: Token, expectedKind: string) {
    && token in sys.store.tokens && sys.store.tokens[token].value.active
    && (expectedKind == "" || expectedKind == sys.store.tokens[token].value.kind)
  }

  predicate Replayed(sys: System, token: Token, expectedKind: string) {
    && token in sys.store.tokens && !sys.store.tokens[token].value.active
    && (expectedKind == "" || expectedKind == sys.store.tokens[token].value.kind)
  }

  /** The store after a successful rotation of `token`. */
  function Rotated(sys: System, token: Token, next: Token): Store
    requires token in sys.store.tokens
  {
    var r := sys.store.tokens[token].value;
    Mint(Flip(sys.store, token, ""), next, r.kind, r.principal, r.family)
  }

  /** An active token of the right kind always rotates - its family cannot have expired first - and
      nothing else does. The caller gets the kind and principal the family was issued with, the
      presented token is used up, and the next one is active for a full lifetime. */
  lemma RotatesExactlyWhenActive(sys: System, token: Token, expectedKind: string, next: Token)
    requires Inv(sys) && Cover(sys) && Fresh(sys, next)
    ensures var end := Perform(sys, Rotate(token, expectedKind, next));
            if Rotatable(sys, token, expectedKind) then
              var r := sys.store.tokens[token].value;
              && r.family in sys.lineages
              && end.rotations == sys.rotations +
                   [Rotation(token, next, sys.lineages[r.family].kind, sys.lineages[r.family].principal)]
              && end.store == Rotated(sys, token, next)
              && token != next && token in end.store.tokens && !end.store.tokens[token].value.active
              && next in end.store.tokens && end.store.tokens[next] == Key(r, sys.store.now + TTL)
              && end.clients == map[]
            else end.rotations == sys.rotations
  {
    if Rotatable(sys, token, expectedKind) {
      var r := sys.store.tokens[token].value;
      assert Covered(sys.store, token);
      assert Belongs(sys, token, r);
      var one := Step(sys, Present(ME, token, expectedKind));
      assert one == sys.(store := Flip(sys.store, token, expectedKind), clients := map[ME := Rotating(token, r)]);
      var two := Step(one, CheckFamily(ME));
      assert two == one.(clients := map[ME := Assured(token, r)]);
      var three := Step(two, MintNext(ME, next));
      assert CanMint(two, ME, next);
      assert three.clients == map[];
      assert RevokeFrom(three) == three;
    }
  }

  /** Unknown tokens and tokens of another kind leave everything as it was. */
  lemma WrongKindChangesNothing(sys: System, token: Token, expectedKind: string, next: Token)
    requires sys.clients == map[] && !Rotatable(sys, token, expectedKind) && !Replayed(sys, token, expectedKind)
    ensures Perform(sys, Rotate(token, expectedKind, next)) == sys
  {
  }

  lemma RevokingClearsTheFamily(sys: System, f: Family)
    requires Inv(sys) && Cover(sys.(clients := map[])) && f in sys.lineages
    requires sys.clients == map[ME := Revoking(f)]
    ensures Gone(RevokeFrom(sys), f)
    ensures RevokeFrom(sys) == System(Delete(sys.store, f, MembersOf(sys.store, f)), map[], sys.lineages, sys.rotations)
  {
    var tokens := MembersOf(sys.store, f);
    assert Step(sys, ReadMembers(ME)) == Put(sys, ME, Deleting(f, tokens));
    assert Put(sys, ME, Deleting(f, tokens)).clients - {ME} == map[];
    forall t | t in sys.lineages[f].chain && t in sys.store.tokens ensures t in tokens {
      var r := sys.store.tokens[t].value;
      assert Belongs(sys, t, r);
      var i :| 0 <= i < |sys.lineages[f].chain| && sys.lineages[f].chain[i] == t;
      var j :| 0 <= j < |sys.lineages[r.family].chain| && sys.lineages[r.family].chain[j] == t;
      assert At(sys, f, i, t) && At(sys, r.family, j, t);
      assert Covered(sys.(clients := map[]).store, t);
    }
  }

  lemma RevokingIsAllThatHappens(sys: System, f: Family, next: Token)
    requires sys.clients == map[ME := Revoking(f)]
    ensures Step(Step(sys, CheckFamily(ME)), MintNext(ME, next)) == sys
  {
  }

  function StartRevoking(sys: System, f: Family): System {
    sys.(clients := map[ME := Revoking(f)])
  }

  lemma StartRevokingKeepsInv(sys: System, f: Family)
    requires Inv(sys) && Cover(sys)
    ensures Inv(StartRevoking(sys, f))
  {
    ShrinkingKeepsInv(sys, StartRevoking(sys, f));
  }

  /** Presenting a used token burns its family: every token ever minted in it is deleted, the active
      one included. */
  lemma ReplayBurnsTheFamily(sys: System, token: Token, expectedKind: string, next: Token)
    requires Inv(sys) && Cover(sys) && Fresh(sys, next) && Replayed(sys, token, expectedKind)
    ensures var f := sys.store.tokens[token].value.family;
            var end := Perform(sys, Rotate(token, expectedKind, next));
            && Gone(end, f)
            && end == sys.(store := Delete(sys.store, f, MembersOf(sys.store, f)))
  {
    var f := sys.store.tokens[token].value.family;
    assert Belongs(sys, token, sys.store.tokens[token].value);
    var one := Step(sys, Present(ME, token, expectedKind));
    assert one == StartRevoking(sys, f);
    StartRevokingKeepsInv(sys, f);
    RevokingIsAllThatHappens(one, f, next);
    RevokingClearsTheFamily(one, f);
  }

  /** Logging out with any live token of the family, used or active, does the same. */
  lemma LogoutBurnsTheFamily(sys: System, token: Token)
    requires Inv(sys) && Cover(sys) && token in sys.store.tokens
    ensures var f := sys.store.tokens[token].value.family;
            var end := Perform(sys, Revoke(token));
            && Gone(end, f)
            && end == sys.(store := Delete(sys.store, f, MembersOf(sys.store, f)))
  {
    var f := sys.store.tokens[token].value.family;
    assert Belongs(sys, token, sys.store.tokens[token].value);
    assert Step(sys, TokenFamilies.Logout(ME, token)) == StartRevoking(sys, f);
    StartRevokingKeepsInv(sys, f);
    RevokingClearsTheFamily(StartRevoking(sys, f), f);
  }

  /** The store a rotate call leaves, in one piece. */
  function Settled(s: Store, token: Token, expectedKind: string, next: Token): Store {
    match Inspected(s, token, expectedKind)
    case Unknown => s
    case WrongKind => s
    case Replay(r) => Delete(s, r.family, MembersOf(s, r.family))
    case Flipped(r) => Mint(Flip(s, token, ""), next, r.kind, r.principal, r.family)
  }

  lemma RotateSettles(sys: System, token: Token, expectedKind: string, next: Token)
    requires Inv(sys) && Cover(sys) && Fresh(sys, next)
    ensures Perform(sys, Rotate(token, expectedKind, next)).store == Settled(sys.store, token, expectedKind, next)
    ensures Rotatable(sys, token, expectedKind) ==>
              sys.store.tokens[token].value.family in sys.store.families
  {
    if Rotatable(sys, token, expectedKind) {
      RotatesExactlyWhenActive(sys, token, expectedKind, next);
      assert Covered(sys.store, token);
    } else if Replayed(sys, token, expectedKind) {
      ReplayBurnsTheFamily(sys, token, expectedKind, next);
    } else {
      WrongKindChangesNothing(sys, token, expectedKind, next);
    }
  }

  function LoggedOut(s: Store, token: Token): Store {
    if token in s.tokens then
      Delete(s, s.tokens[token].value.family, MembersOf(s, s.tokens[token].value.family))
    else s
  }

  lemma RevokeSettles(sys: System, token: Token)
    requires Inv(sys) && Cover(sys)
    ensures Perform(sys, Revoke(token)).store == LoggedOut(sys.store, token)
  {
    if token in sys.store.tokens {
      LogoutBurnsTheFamily(sys, token);
    }
  }

  lemma PassSettles(sys: System, seconds: nat)
    ensures Perform(sys, Pass(seconds)) == sys.(store := Elapse(sys.store, seconds))
  {
  }

  /** Time takes exactly the tokens whose expiry it reaches, and changes none of the others. */
  lemma TokensLastUntilTheirExpiry(sys: System, token: Token, seconds: nat)
    ensures var later := Perform(sys, Pass(seconds));
            && later.store.now == sys.store.now + seconds
            && (token in later.store.tokens <==>
                token in sys.store.tokens && sys.store.now + seconds < sys.store.tokens[token].expires)
            && (token in later.store.tokens ==> later.store.tokens[token] == sys.store.tokens[token])
  {
  }

  /** The token of a fresh login can be rotated for exactly 30 days, at an endpoint of its kind. */
  lemma LoginLastsThirtyDays(sys: System, kind: string, principal: string, family: Family, token: Token, seconds: nat,
                             expectedKind: string)
    requires sys.clients == map[] && family !in sys.lineages && Fresh(sys, token)
    ensures var later := Perform(Perform(sys, Login(kind, principal, family, token)), Pass(seconds));
            Rotatable(later, token, expectedKind) <==> seconds < 30 * 86400 && expectedKind in {"", kind}
  {
  }

  // ---------- Runs of calls ----------

  lemma BurningKeepsCover(sys: System, f: Family)
    requires Cover(sys)
    ensures Cover(sys.(store := Delete(sys.store, f, MembersOf(sys.store, f))))
  {
    forall t | t in sys.store.tokens && t !in MembersOf(sys.store, f)
      ensures Covered(Delete(sys.store, f, MembersOf(sys.store, f)), t)
    {
      assert Covered(sys.store, t);
    }
  }

  lemma RotatingKeepsCover(sys: System, token: Token, expectedKind: string, next: Token)
    requires Inv(sys) && Cover(sys) && Fresh(sys, next)
    ensures Cover(Perform(sys, Rotate(token, expectedKind, next)))
  {
    if Rotatable(sys, token, expectedKind) {
      RotatesExactlyWhenActive(sys, token, expectedKind, next);
      FlipThenMintKeepsCover(sys.store, token, next);
    } else if Replayed(sys, token, expectedKind) {
      ReplayBurnsTheFamily(sys, token, expectedKind, next);
      BurningKeepsCover(sys, sys.store.tokens[token].value.family);
    } else {
      WrongKindChangesNothing(sys, token, expectedKind, next);
    }
  }

  lemma FlipThenMintKeepsCover(s: Store, token: Token, next: Token)
    requires forall t :: t in s.tokens ==> Covered(s, t)
    requires token in s.tokens
    ensures var r := s.tokens[token].value;
            var s' := Mint(Flip(s, token, ""), next, r.kind, r.principal, r.family);
            forall t :: t in s'.tokens ==> Covered(s', t)
  {
    var flipped := Flip(s, token, "");
    forall t | t in flipped.tokens ensures Covered(flipped, t) {
      assert Covered(s, t);
    }
    var r := s.tokens[token].value;
    MintKeepsCover(flipped, next, r.kind, r.principal, r.family);
  }

  lemma MintKeepsCover(s: Store, token: Token, kind: string, principal: string, family: Family)
    requires forall t :: t in s.tokens ==> Covered(s, t)
    ensures var s' := Mint(s, token, kind, principal, family);
            forall t :: t in s'.tokens ==> Covered(s', t)
  {
    var s' := Mint(s, token, kind, principal, family);
    forall t | t in s'.tokens ensures Covered(s', t) {
      if t != token {
        assert Covered(s, t);
      }
    }
  }

  lemma PerformKeepsCover(sys: System, call: Call)
    requires Inv(sys) && Cover(sys)
    ensures Inv(Perform(sys, call)) && Cover(Perform(sys, call))
  {
    PerformKeepsInv(sys, call);
    match call {
      case Login(kind, principal, family, token) => MintKeepsCover(sys.store, token, kind, principal, family);
      case Rotate(token, expectedKind, next) =>
        if Fresh(sys, next) {
          RotatingKeepsCover(sys, token, expectedKind, next);
        }
      case Revoke(token) =>
        if token in sys.store.tokens {
          LogoutBurnsTheFamily(sys, token);
          BurningKeepsCover(sys, sys.store.tokens[token].value.family);
        }
      case Pass(seconds) =>
        var s' := Elapse(sys.store, seconds);
        forall t | t in s'.tokens ensures Covered(s', t) {
          assert Covered(sys.store, t);
        }
    }
  }

  lemma PerformKeepsInv(sys: System, call: Call)
    requires Inv(sys)
    ensures Inv(Perform(sys, call))
  {
    match call {
      case Login(kind, principal, family, token) => StepKeepsInv(sys, Issue(kind, principal, family, token));
      case Rotate(token, expectedKind, next) =>
        var one := Step(sys, Present(ME, token, expectedKind));
        StepKeepsInv(sys, Present(ME, token, expectedKind));
        var two := Step(one, CheckFamily(ME));
        StepKeepsInv(one, CheckFamily(ME));
        StepKeepsInv(two, MintNext(ME, next));
        RevokeFromKeepsInv(Step(two, MintNext(ME, next)));
      case Revoke(token) =>
        StepKeepsInv(sys, TokenFamilies.Logout(ME, token));
        RevokeFromKeepsInv(Step(sys, TokenFamilies.Logout(ME, token)));
      case Pass(seconds) => StepKeepsInv(sys, Wait(seconds));
    }
  }

  lemma RevokeFromKeepsInv(sys: System)
    requires Inv(sys)
    ensures Inv(RevokeFrom(sys))
  {
    StepKeepsInv(sys, ReadMembers(ME));
    StepKeepsInv(Step(sys, ReadMembers(ME)), DeleteMembers(ME));
  }

  /** With calls one at a time, every live token of every reachable state is in the live member set of
      its live family, both expiring no earlier than it does. */
  lemma {:induction false} EveryRunIsCovered(sys: System, calls: seq<Call>)
    requires Start(sys)
    ensures Inv(PerformAll(sys, calls)) && Cover(PerformAll(sys, calls))
  {
    if calls != [] {
      EveryRunIsCovered(sys, calls[..|calls| - 1]);
      PerformKeepsCover(PerformAll(sys, calls[..|calls| - 1]), calls[|calls| - 1]);
    }
  }

  lemma GoneStaysGoneOnRotate(sys: System, token: Token, expectedKind: string, next: Token, f: Family)
    requires Inv(sys) && Cover(sys) && Gone(sys, f) && Fresh(sys, next)
    ensures var end := Perform(sys, Rotate(token, expectedKind, next));
            Gone(end, f) && end.lineages[f] == sys.lineages[f]
  {
    if Rotatable(sys, token, expectedKind) {
      RotatesExactlyWhenActive(sys, token, expectedKind, next);
      RotationSparesOthers(sys, token, expectedKind, next, f);
    } else if Replayed(sys, token, expectedKind) {
      ReplayBurnsTheFamily(sys, token, expectedKind, next);
    } else {
      WrongKindChangesNothing(sys, token, expectedKind, next);
    }
  }

  lemma GoneStaysGoneOneCall(sys: System, call: Call, f: Family)
    requires Inv(sys) && Cover(sys) && Gone(sys, f)
    ensures Gone(Perform(sys, call), f) && Perform(sys, call).lineages[f] == sys.lineages[f]
  {
    match call {
      case Login(kind, principal, family, token) =>
      case Rotate(token, expectedKind, next) =>
        if Fresh(sys, next) {
          GoneStaysGoneOnRotate(sys, token, expectedKind, next, f);
        }
      case Revoke(token) =>
        if token in sys.store.tokens {
          LogoutBurnsTheFamily(sys, token);
        }
      case Pass(seconds) =>
    }
  }

  lemma RotationSparesOthers(sys: System, token: Token, expectedKind: string, next: Token, f: Family)
    requires Inv(sys) && Cover(sys) && Fresh(sys, next) && Rotatable(sys, token, expectedKind) && Gone(sys, f)
    ensures f != sys.store.tokens[token].value.family
    ensures Perform(sys, Rotate(token, expectedKind, next)).lineages[f] == sys.lineages[f]
  {
    assert Covered(sys.store, token);
    var r := sys.store.tokens[token].value;
    var one := Step(sys, Present(ME, token, expectedKind));
    var two := Step(one, CheckFamily(ME));
    assert two.clients[ME] == Assured(token, r);
    var three := Step(two, MintNext(ME, next));
    assert three.lineages[f] == sys.lineages[f];
  }

  /** A burnt family stays burnt for the rest of the run: no token ever minted in it comes back, so
      none of them can rotate again. */
  lemma {:induction false} GoneStaysGone(sys: System, calls: seq<Call>, f: Family)
    requires Inv(sys) && Cover(sys) && Gone(sys, f)
    ensures Inv(PerformAll(sys, calls)) && Cover(PerformAll(sys, calls)) && Gone(PerformAll(sys, calls), f)
    ensures PerformAll(sys, calls).lineages[f] == sys.lineages[f]
    ensures forall token :: token in sys.lineages[f].chain ==> token !in PerformAll(sys, calls).store.tokens
  {
    if calls != [] {
      var init := calls[..|calls| - 1];
      GoneStaysGone(sys, init, f);
      PerformKeepsCover(PerformAll(sys, init), calls[|calls| - 1]);
      GoneStaysGoneOneCall(PerformAll(sys, init), calls[|calls| - 1], f);
    }
  }
}
