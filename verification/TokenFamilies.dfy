/** Refresh-token families (src/auth/refresh-token.service.ts) with any number of clients whose calls
    interleave between Redis round trips: rotate is script, EXISTS, MULTI; revoking is GET or script,
    SMEMBERS, MULTI. Keys expire by the clock. Rotation with reuse detection follows section 4.14.2 of
    RFC 9700. */
module TokenFamilies {
  import opened Wrappers
  import opened TokenValue

  type Token = string
  type Family = string

  const TTL: nat := 30 * 24 * 60 * 60

  /** A key lives while the clock is before `expires`. */
  datatype Key<T> = Key(value: T, expires: nat)

  /** Redis: only unexpired keys are present. */
  datatype Store = Store(
    now: nat, tokens: map<Token, Key<Record>>, families: map<Family, Key<string>>,
    members: map<Family, Key<set<Token>>>)

  // ---------- Redis round trips, each atomic ----------

  function Unexpired<K, V>(keys: map<K, Key<V>>, now: nat): map<K, Key<V>> {
    map k | k in keys && now < keys[k].expires :: keys[k]
  }

  function Elapse(s: Store, seconds: nat): Store {
    var now := s.now + seconds;
    Store(now, Unexpired(s.tokens, now), Unexpired(s.families, now), Unexpired(s.members, now))
  }

  /** The MULTI of issueInFamily. */
  function Mint(s: Store, token: Token, kind: string, principal: string, family: Family): Store {
    var until := s.now + TTL;
    var others := if family in s.members then s.members[family].value else {};
    s.(tokens := s.tokens[token := Key(Record(kind, principal, family, true), until)],
       families := s.families[family := Key(principal, until)],
       members := s.members[family := Key(others + {token}, until)])
  }

  datatype Verdict = Unknown | WrongKind | Replay(record: Record) | Flipped(record: Record)

  /** What the rotation script answers. */
  function Inspected(s: Store, token: Token, expectedKind: string): Verdict {
    if token !in s.tokens then Unknown
    else
      var r := s.tokens[token].value;
      if expectedKind != "" && r.kind != expectedKind then WrongKind
      else if !r.active then Replay(r)
      else Flipped(r)
  }

  /** What the rotation script writes: the flip keeps the key's remaining life. */
  function Flip(s: Store, token: Token, expectedKind: string): Store {
    if Inspected(s, token, expectedKind).Flipped? then
      s.(tokens := s.tokens[token := Key(s.tokens[token].value.(active := false), s.tokens[token].expires)])
    else s
  }

  function MembersOf(s: Store, family: Family): set<Token> {
    if family in s.members then s.members[family].value else {}
  }

  /** The MULTI of revokeFamily. */
  function Delete(s: Store, family: Family, tokens: set<Token>): Store {
    s.(tokens := s.tokens - tokens, families := s.families - {family}, members := s.members - {family})
  }

  // ---------- Clients between round trips ----------

  datatype Client =
    | Rotating(token: Token, record: Record)   // the script answered 1; EXISTS comes next
    | Assured(token: Token, record: Record)    // EXISTS answered 1; the MULTI comes next
    | Revoking(family: Family)                 // SMEMBERS comes next
    | Deleting(family: Family, tokens: set<Token>)

  /** What a family was issued with, and every token ever minted in it, oldest first. History. */
  datatype Lineage = Lineage(kind: string, principal: string, chain: seq<Token>)

  /** A successful rotation: what the caller handed in and got back. */
  datatype Rotation = Rotation(from: Token, to: Token, kind: string, principal: string)

  datatype System = System(
    store: Store, clients: map<nat, Client>, lineages: map<Family, Lineage>, rotations: seq<Rotation>)

  datatype Action =
    | Wait(seconds: nat)
    | Issue(kind: string, principal: string, family: Family, token: Token)
    | Present(c: nat, presented: Token, expectedKind: string)
    | CheckFamily(c: nat)
    | MintNext(c: nat, next: Token)
    | Logout(c: nat, token: Token)
    | ReadMembers(c: nat)
    | DeleteMembers(c: nat)

  predicate Minted(sys: System, token: Token) {
    exists f :: f in sys.lineages && token in sys.lineages[f].chain
  }

  /** Random ids are fresh. */
  predicate Fresh(sys: System, token: Token) {
    !Minted(sys, token)
  }

  function Put(sys: System, c: nat, client: Client): System {
    sys.(clients := sys.clients[c := client])
  }

  function Leave(sys: System, c: nat): System {
    sys.(clients := sys.clients - {c})
  }

  /** A step that is not possible now leaves the system as it is. */
  function Step(sys: System, a: Action): System {
    match a
    case Wait(seconds) => sys.(store := Elapse(sys.store, seconds))
    case Issue(kind, principal, family, token) =>
      if family !in sys.lineages && Fresh(sys, token) then
        sys.(store := Mint(sys.store, token, kind, principal, family),
             lineages := sys.lineages[family := Lineage(kind, principal, [token])])
      else sys
    case Present(c, token, expectedKind) =>
      if c in sys.clients then sys
      else
        var flipped := sys.(store := Flip(sys.store, token, expectedKind));
        (match Inspected(sys.store, token, expectedKind)
         case Unknown => sys
         case WrongKind => sys
         case Replay(r) => Put(sys, c, Revoking(r.family))
         case Flipped(r) => Put(flipped, c, Rotating(token, r)))
    case CheckFamily(c) =>
      if c in sys.clients && sys.clients[c].Rotating? then
        var client := sys.clients[c];
        if client.record.family in sys.store.families then Put(sys, c, Assured(client.token, client.record))
        else Leave(sys, c)
      else sys
    case MintNext(c, next) =>
      if c in sys.clients && sys.clients[c].Assured? && Fresh(sys, next)
         && sys.clients[c].record.family in sys.lineages
      then
        var client := sys.clients[c];
        var r := client.record;
        var lineage := sys.lineages[r.family];
        System(Mint(sys.store, next, r.kind, r.principal, r.family),
               sys.clients - {c},
               sys.lineages[r.family := lineage.(chain := lineage.chain + [next])],
               sys.rotations + [Rotation(client.token, next, r.kind, r.principal)])
      else sys
    case Logout(c, token) =>
      if c !in sys.clients && token in sys.store.tokens then
        Put(sys, c, Revoking(sys.store.tokens[token].value.family))
      else sys
    case ReadMembers(c) =>
      if c in sys.clients && sys.clients[c].Revoking? then
        var family := sys.clients[c].family;
        Put(sys, c, Deleting(family, MembersOf(sys.store, family)))
      else sys
    case DeleteMembers(c) =>
      if c in sys.clients && sys.clients[c].Deleting? then
        Leave(sys.(store := Delete(sys.store, sys.clients[c].family, sys.clients[c].tokens)), c)
      else sys
  }

  function Run(sys: System, actions: seq<Action>): System {
    if actions == [] then sys else Step(Run(sys, actions[..|actions| - 1]), actions[|actions| - 1])
  }

  predicate Start(sys: System) {
    && sys.store.tokens == map[] && sys.store.families == map[] && sys.store.members == map[]
    && sys.clients == map[] && sys.lineages == map[] && sys.rotations == []
  }

  // ---------- Invariant ----------

  predicate InFlight(client: Client) {
    client.Rotating? || client.Assured?
  }

  /** A record of the store or of a client in flight belongs to its family's lineage. */
  predicate Belongs(sys: System, token: Token, r: Record) {
    && r.family in sys.lineages
    && token in sys.lineages[r.family].chain
    && r.kind == sys.lineages[r.family].kind && r.principal == sys.lineages[r.family].principal
  }

  function Last(chain: seq<Token>): Token
    requires chain != []
  {
    chain[|chain| - 1]
  }

  ghost predicate TokensBelong(sys: System) {
    forall t :: t in sys.store.tokens ==>
      var r := sys.store.tokens[t].value;
      Belongs(sys, t, r) && (r.active ==> t == Last(sys.lineages[r.family].chain))
  }

  /** A client in flight presented the newest token of its family, which stays used. */
  ghost predicate ClientsBelong(sys: System) {
    forall c :: c in sys.clients && InFlight(sys.clients[c]) ==>
      var client := sys.clients[c];
      && Belongs(sys, client.token, client.record)
      && client.token == Last(sys.lineages[client.record.family].chain)
      && (client.token in sys.store.tokens ==> !sys.store.tokens[client.token].value.active)
  }

  predicate FliesFor(sys: System, c: nat, f: Family) {
    c in sys.clients && InFlight(sys.clients[c]) && sys.clients[c].record.family == f
  }

  ghost predicate OneInFlight(sys: System) {
    forall c, d, f :: FliesFor(sys, c, f) && FliesFor(sys, d, f) ==> c == d
  }

  predicate At(sys: System, f: Family, i: int, token: Token) {
    f in sys.lineages && 0 <= i < |sys.lineages[f].chain| && sys.lineages[f].chain[i] == token
  }

  /** Chains repeat no token and share none. */
  ghost predicate ChainsDistinct(sys: System) {
    forall f, g, i, j, t :: At(sys, f, i, t) && At(sys, g, j, t) ==> f == g && i == j
  }

  predicate HasLink(sys: System, f: Family, i: int) {
    f in sys.lineages && 0 <= i && i + 1 < |sys.lineages[f].chain|
  }

  /** The rotation from the i-th to the next token of a family. */
  function Link(sys: System, f: Family, i: int): Rotation
    requires HasLink(sys, f, i)
  {
    var l := sys.lineages[f];
    Rotation(l.chain[i], l.chain[i + 1], l.kind, l.principal)
  }

  predicate Linked(sys: System, r: Rotation, f: Family, i: int) {
    HasLink(sys, f, i) && r == Link(sys, f, i)
  }

  ghost predicate IsLink(sys: System, r: Rotation) {
    exists f, i :: Linked(sys, r, f, i)
  }

  /** The successful rotations are exactly the neighbours in the chains, none twice. */
  ghost predicate RotationsAreChains(sys: System) {
    && (forall k :: 0 <= k < |sys.rotations| ==> IsLink(sys, sys.rotations[k]))
    && (forall f, i :: HasLink(sys, f, i) ==> Link(sys, f, i) in sys.rotations)
    && (forall k, l :: 0 <= k < l < |sys.rotations| ==> sys.rotations[k].from != sys.rotations[l].from)
  }

  ghost predicate Inv(sys: System) {
    && (forall f :: f in sys.lineages ==> sys.lineages[f].chain != [])
    && TokensBelong(sys) && ClientsBelong(sys) && OneInFlight(sys)
    && ChainsDistinct(sys) && RotationsAreChains(sys)
  }

  // ---------- Steps keep it ----------

  /** Lineages and rotations stay; clients in flight and tokens stay as they are or vanish. */
  ghost predicate OnlyShrinks(sys: System, sys': System) {
    && sys'.lineages == sys.lineages && sys'.rotations == sys.rotations
    && (forall c, f :: FliesFor(sys', c, f) ==>
          FliesFor(sys, c, f) && sys'.clients[c].token == sys.clients[c].token
          && sys'.clients[c].record == sys.clients[c].record)
    && (forall t :: t in sys'.store.tokens ==> t in sys.store.tokens && sys'.store.tokens[t] == sys.store.tokens[t])
  }

  lemma ShrinkingKeepsInv(sys: System, sys': System)
    requires Inv(sys) && OnlyShrinks(sys, sys')
    ensures Inv(sys')
  {
    assert TokensBelong(sys');
    forall c | c in sys'.clients && InFlight(sys'.clients[c])
      ensures var client := sys'.clients[c];
              && Belongs(sys', client.token, client.record)
              && client.token == Last(sys'.lineages[client.record.family].chain)
              && (client.token in sys'.store.tokens ==> !sys'.store.tokens[client.token].value.active)
    {
      assert FliesFor(sys', c, sys'.clients[c].record.family);
    }
    assert OneInFlight(sys');
    assert forall f, i, t :: At(sys', f, i, t) ==> At(sys, f, i, t);
    assert ChainsDistinct(sys');
    assert forall f, i :: HasLink(sys', f, i) <==> HasLink(sys, f, i);
    assert forall f, i :: HasLink(sys, f, i) ==> Link(sys', f, i) == Link(sys, f, i);
    forall k | 0 <= k < |sys'.rotations| ensures IsLink(sys', sys'.rotations[k]) {
      assert IsLink(sys, sys.rotations[k]);
      var f, i :| Linked(sys, sys.rotations[k], f, i);
      assert Linked(sys', sys'.rotations[k], f, i);
    }
  }

  lemma FlipKeepsInv(sys: System, c: nat, token: Token, expectedKind: string)
    requires Inv(sys) && c !in sys.clients && Inspected(sys.store, token, expectedKind).Flipped?
    ensures Inv(Step(sys, Present(c, token, expectedKind)))
  {
    var sys' := Step(sys, Present(c, token, expectedKind));
    var r := sys.store.tokens[token].value;
    assert sys'.clients == sys.clients[c := Rotating(token, r)];
    forall d | d in sys.clients && InFlight(sys.clients[d]) ensures sys.clients[d].record.family != r.family {
      assert sys.clients[d].token == Last(sys.lineages[sys.clients[d].record.family].chain);
    }
    assert TokensBelong(sys');
    assert ClientsBelong(sys');
    forall d, f | FliesFor(sys', d, f)
      ensures (d == c && f == r.family) || (FliesFor(sys, d, f) && f != r.family)
    {
    }
    assert OneInFlight(sys');
    FrameHistory(sys, sys');
  }

  lemma FrameHistory(sys: System, sys': System)
    requires ChainsDistinct(sys) && RotationsAreChains(sys)
    requires sys'.lineages == sys.lineages && sys'.rotations == sys.rotations
    ensures ChainsDistinct(sys') && RotationsAreChains(sys')
  {
    assert forall f, i, t :: At(sys', f, i, t) ==> At(sys, f, i, t);
    assert forall f, i :: HasLink(sys', f, i) <==> HasLink(sys, f, i);
    assert forall f, i :: HasLink(sys, f, i) ==> Link(sys', f, i) == Link(sys, f, i);
    forall k | 0 <= k < |sys'.rotations| ensures IsLink(sys', sys'.rotations[k]) {
      assert IsLink(sys, sys.rotations[k]);
      var f, i :| Linked(sys, sys.rotations[k], f, i);
      assert Linked(sys', sys'.rotations[k], f, i);
    }
  }

  lemma AssuredKeepsInv(sys: System, c: nat)
    requires Inv(sys) && c in sys.clients && sys.clients[c].Rotating?
    ensures Inv(Put(sys, c, Assured(sys.clients[c].token, sys.clients[c].record)))
  {
    ShrinkingKeepsInv(sys, Put(sys, c, Assured(sys.clients[c].token, sys.clients[c].record)));
  }

  lemma IssueKeepsInv(sys: System, kind: string, principal: string, family: Family, token: Token)
    requires Inv(sys) && family !in sys.lineages && Fresh(sys, token)
    ensures Inv(Step(sys, Issue(kind, principal, family, token)))
  {
    var sys' := Step(sys, Issue(kind, principal, family, token));
    assert TokensBelong(sys') by {
      forall t | t in sys'.store.tokens && t != token
        ensures Belongs(sys', t, sys'.store.tokens[t].value)
      {
        assert Belongs(sys, t, sys.store.tokens[t].value);
      }
    }
    assert ClientsBelong(sys') by {
      forall c | c in sys'.clients && InFlight(sys'.clients[c])
        ensures Belongs(sys', sys'.clients[c].token, sys'.clients[c].record) && sys'.clients[c].token != token
      {
        assert Belongs(sys, sys.clients[c].token, sys.clients[c].record);
      }
    }
    assert OneInFlight(sys') by {
      assert forall c, f :: FliesFor(sys', c, f) ==> FliesFor(sys, c, f);
    }
    assert ChainsDistinct(sys') by {
      forall f, i, t | At(sys', f, i, t)
        ensures (f == family && i == 0 && t == token) || (At(sys, f, i, t) && t != token)
      {
        if f != family {
          assert t in sys.lineages[f].chain;
        }
      }
    }
    IssueKeepsRotations(sys, kind, principal, family, token);
  }

  lemma IssueKeepsRotations(sys: System, kind: string, principal: string, family: Family, token: Token)
    requires RotationsAreChains(sys) && family !in sys.lineages && Fresh(sys, token)
    ensures RotationsAreChains(Step(sys, Issue(kind, principal, family, token)))
  {
    var sys' := Step(sys, Issue(kind, principal, family, token));
    assert forall f, i :: HasLink(sys', f, i) <==> HasLink(sys, f, i);
    assert forall f, i :: HasLink(sys, f, i) ==> Link(sys', f, i) == Link(sys, f, i);
    forall k | 0 <= k < |sys'.rotations| ensures IsLink(sys', sys'.rotations[k]) {
      assert IsLink(sys, sys.rotations[k]);
      var f, i :| Linked(sys, sys.rotations[k], f, i);
      assert Linked(sys', sys'.rotations[k], f, i);
    }
  }

  // ---------- Minting the next token ----------

  predicate CanMint(sys: System, c: nat, next: Token) {
    c in sys.clients && sys.clients[c].Assured? && Fresh(sys, next) && sys.clients[c].record.family in sys.lineages
  }

  lemma MintKeepsTokens(sys: System, c: nat, next: Token)
    requires Inv(sys) && CanMint(sys, c, next)
    ensures TokensBelong(Step(sys, MintNext(c, next)))
  {
    var sys' := Step(sys, MintNext(c, next));
    var client := sys.clients[c];
    var f := client.record.family;
    forall t | t in sys'.store.tokens
      ensures var r := sys'.store.tokens[t].value;
              Belongs(sys', t, r) && (r.active ==> t == Last(sys'.lineages[r.family].chain))
    {
      if t != next {
        var r := sys.store.tokens[t].value;
        assert Belongs(sys, t, r);
        assert !(r.active && r.family == f);
      } else {
        assert sys'.lineages[f].chain[|sys.lineages[f].chain|] == next;
      }
    }
  }

  lemma MintKeepsClients(sys: System, c: nat, next: Token)
    requires Inv(sys) && CanMint(sys, c, next)
    ensures ClientsBelong(Step(sys, MintNext(c, next))) && OneInFlight(Step(sys, MintNext(c, next)))
  {
    var sys' := Step(sys, MintNext(c, next));
    var f := sys.clients[c].record.family;
    assert FliesFor(sys, c, f);
    forall d, g | FliesFor(sys', d, g) ensures FliesFor(sys, d, g) && g != f && sys'.clients[d] == sys.clients[d] {
      assert FliesFor(sys, d, g);
    }
    forall d | d in sys'.clients && InFlight(sys'.clients[d])
      ensures var client := sys'.clients[d];
              && Belongs(sys', client.token, client.record)
              && client.token == Last(sys'.lineages[client.record.family].chain)
              && (client.token in sys'.store.tokens ==> !sys'.store.tokens[client.token].value.active)
    {
      var client := sys'.clients[d];
      assert FliesFor(sys', d, client.record.family);
      assert Belongs(sys, client.token, client.record);
      assert client.token != next;
    }
  }

  lemma MintKeepsChains(sys: System, c: nat, next: Token)
    requires ChainsDistinct(sys) && CanMint(sys, c, next)
    ensures ChainsDistinct(Step(sys, MintNext(c, next)))
  {
    var sys' := Step(sys, MintNext(c, next));
    var f := sys.clients[c].record.family;
    forall g, i, t | At(sys', g, i, t)
      ensures (g == f && i == |sys.lineages[f].chain| && t == next) || (At(sys, g, i, t) && t != next)
    {
      if At(sys, g, i, t) {
        assert t in sys.lineages[g].chain;
      }
    }
  }

  lemma MintKeepsRotations(sys: System, c: nat, next: Token)
    requires Inv(sys) && CanMint(sys, c, next)
    ensures RotationsAreChains(Step(sys, MintNext(c, next)))
  {
    var sys' := Step(sys, MintNext(c, next));
    var client := sys.clients[c];
    var f := client.record.family;
    var n := |sys.lineages[f].chain|;
    assert client.token == sys.lineages[f].chain[n - 1];
    assert HasLink(sys', f, n - 1) && Link(sys', f, n - 1) == sys'.rotations[|sys.rotations|];
    forall g, i | HasLink(sys, g, i) ensures HasLink(sys', g, i) && Link(sys', g, i) == Link(sys, g, i) {
    }
    forall g, i | HasLink(sys', g, i) ensures Link(sys', g, i) in sys'.rotations {
      if HasLink(sys, g, i) {
        assert Link(sys, g, i) in sys.rotations;
      } else {
        assert g == f && i == n - 1;
      }
    }
    forall k | 0 <= k < |sys'.rotations|
      ensures IsLink(sys', sys'.rotations[k])
    {
      if k < |sys.rotations| {
        assert IsLink(sys, sys.rotations[k]);
        var g, i :| Linked(sys, sys.rotations[k], g, i);
        assert Linked(sys', sys'.rotations[k], g, i);
      } else {
        assert Linked(sys', sys'.rotations[k], f, n - 1);
      }
    }
    forall k | 0 <= k < |sys.rotations| ensures sys.rotations[k].from != client.token {
      assert IsLink(sys, sys.rotations[k]);
      var g, i :| Linked(sys, sys.rotations[k], g, i);
      assert At(sys, g, i, sys.rotations[k].from) && At(sys, f, n - 1, client.token);
    }
  }

  lemma PresentKeepsInv(sys: System, c: nat, token: Token, expectedKind: string)
    requires Inv(sys)
    ensures Inv(Step(sys, Present(c, token, expectedKind)))
  {
    if c !in sys.clients && Inspected(sys.store, token, expectedKind).Flipped? {
      FlipKeepsInv(sys, c, token, expectedKind);
    } else {
      ShrinkingKeepsInv(sys, Step(sys, Present(c, token, expectedKind)));
    }
  }

  lemma CheckKeepsInv(sys: System, c: nat)
    requires Inv(sys)
    ensures Inv(Step(sys, CheckFamily(c)))
  {
    if c in sys.clients && sys.clients[c].Rotating? && sys.clients[c].record.family in sys.store.families {
      AssuredKeepsInv(sys, c);
    } else {
      ShrinkingKeepsInv(sys, Step(sys, CheckFamily(c)));
    }
  }

  lemma MintKeepsInv(sys: System, c: nat, next: Token)
    requires Inv(sys)
    ensures Inv(Step(sys, MintNext(c, next)))
  {
    if CanMint(sys, c, next) {
      MintKeepsTokens(sys, c, next);
      MintKeepsClients(sys, c, next);
      MintKeepsChains(sys, c, next);
      MintKeepsRotations(sys, c, next);
    }
  }

  /** Waiting, and the round trips of a revocation. */
  lemma RestShrinks(sys: System, a: Action)
    requires a.Wait? || a.Logout? || a.ReadMembers? || a.DeleteMembers?
    ensures OnlyShrinks(sys, Step(sys, a))
  {
  }

  lemma StepKeepsInv(sys: System, a: Action)
    requires Inv(sys)
    ensures Inv(Step(sys, a))
  {
    match a
    case Issue(kind, principal, family, token) =>
      if family !in sys.lineages && Fresh(sys, token) {
        IssueKeepsInv(sys, kind, principal, family, token);
      }
    case Present(c, token, expectedKind) => PresentKeepsInv(sys, c, token, expectedKind);
    case CheckFamily(c) => CheckKeepsInv(sys, c);
    case MintNext(c, next) => MintKeepsInv(sys, c, next);
    case _ =>
      RestShrinks(sys, a);
      ShrinkingKeepsInv(sys, Step(sys, a));
  }

  lemma {:induction false} RunKeepsInv(sys: System, actions: seq<Action>)
    requires Inv(sys)
    ensures Inv(Run(sys, actions))
  {
    if actions != [] {
      RunKeepsInv(sys, actions[..|actions| - 1]);
      StepKeepsInv(Run(sys, actions[..|actions| - 1]), actions[|actions| - 1]);
    }
  }

  // ---------- A family is linear ----------

  datatype Holder = ActiveToken(token: Token) | Rotator(client: nat)

  /** Everything that can still turn into a next token of the family: its active tokens and the
      rotations between the script's flip and the mint. */
  function Holders(sys: System, f: Family): set<Holder> {
    (set t | t in sys.store.tokens && sys.store.tokens[t].value.family == f && sys.store.tokens[t].value.active
       :: ActiveToken(t))
    + (set c | c in sys.clients && FliesFor(sys, c, f) :: Rotator(c))
  }

  lemma {:induction false} AtMostOneMember<T>(s: set<T>)
    requires forall a, b :: a in s && b in s ==> a == b
    ensures |s| <= 1
  {
    if s != {} {
      var a :| a in s;
      assert s == {a};
    }
  }

  lemma OneHolder(sys: System, f: Family)
    requires Inv(sys)
    ensures |Holders(sys, f)| <= 1
  {
    forall a, b | a in Holders(sys, f) && b in Holders(sys, f) ensures a == b {
      if a.Rotator? && b.Rotator? {
        assert FliesFor(sys, a.client, f) && FliesFor(sys, b.client, f);
      }
    }
    AtMostOneMember(Holders(sys, f));
  }

  /** In every reachable state of any interleaving, a family has at most one active token or rotation
      in flight; the successful rotations of each family link its tokens into one chain, each with
      the kind and principal the family was issued with; and no token is rotated successfully twice. */
  lemma FamiliesAreLinear(sys: System, actions: seq<Action>)
    requires Start(sys)
    ensures var end := Run(sys, actions);
            && (forall f :: |Holders(end, f)| <= 1)
            && ChainsDistinct(end)
            && RotationsAreChains(end)
  {
    RunKeepsInv(sys, actions);
    var end := Run(sys, actions);
    forall f ensures |Holders(end, f)| <= 1 {
      OneHolder(end, f);
    }
  }

  // ---------- Dead families stay dead ----------

  /** The family key is gone and no rotation of it stands between EXISTS and its mint. */
  ghost predicate Dead(sys: System, f: Family) {
    && f in sys.lineages && f !in sys.store.families
    && forall c :: c in sys.clients && sys.clients[c].Assured? ==> sys.clients[c].record.family != f
  }

  /** The rotations of the second list are those of the first and then others, none of the family. */
  ghost predicate NoMoreRotations(sys: System, sys': System, f: Family)
    requires f in sys.lineages
  {
    && |sys.rotations| <= |sys'.rotations| && sys'.rotations[..|sys.rotations|] == sys.rotations
    && forall k :: |sys.rotations| <= k < |sys'.rotations| ==> sys'.rotations[k].from !in sys.lineages[f].chain
  }

  lemma StepKeepsDead(sys: System, a: Action, f: Family)
    requires Inv(sys) && Dead(sys, f)
    ensures Dead(Step(sys, a), f) && Step(sys, a).lineages[f] == sys.lineages[f]
    ensures NoMoreRotations(sys, Step(sys, a), f)
  {
    if a.MintNext? && CanMint(sys, a.c, a.next) {
      RotatesItsOwnFamily(sys, a.c, f);
    }
  }

  lemma RotatesItsOwnFamily(sys: System, c: nat, f: Family)
    requires Inv(sys) && c in sys.clients && InFlight(sys.clients[c]) && f in sys.lineages
    ensures sys.clients[c].token in sys.lineages[f].chain <==> sys.clients[c].record.family == f
  {
    var client := sys.clients[c];
    var g := client.record.family;
    if client.token in sys.lineages[f].chain {
      var i :| 0 <= i < |sys.lineages[f].chain| && sys.lineages[f].chain[i] == client.token;
      var j :| 0 <= j < |sys.lineages[g].chain| && sys.lineages[g].chain[j] == client.token;
      assert At(sys, f, i, client.token) && At(sys, g, j, client.token);
    }
  }

  /** Once dead, a family's key never comes back, it never gains another token and none of its tokens
      rotates again, whatever happens next: one that survived - minted, say, between SMEMBERS and the
      deleting MULTI - can still be presented but is refused. */
  lemma {:induction false} DeadStaysDead(sys: System, actions: seq<Action>, f: Family)
    requires Inv(sys) && Dead(sys, f)
    ensures Dead(Run(sys, actions), f)
    ensures Run(sys, actions).lineages[f] == sys.lineages[f]
    ensures NoMoreRotations(sys, Run(sys, actions), f)
  {
    if actions != [] {
      var init := actions[..|actions| - 1];
      DeadStaysDead(sys, init, f);
      RunKeepsInv(sys, init);
      StepKeepsDead(Run(sys, init), actions[|actions| - 1], f);
    }
  }

  /** The deleting MULTI kills the family exactly when no rotation of it stands between EXISTS and
      its mint; such a rotation, on its next step, mints an active token and brings the key back. */
  lemma RevocationKillsExactlyUnlessAssured(sys: System, c: nat, f: Family)
    requires Inv(sys) && c in sys.clients && sys.clients[c].Deleting? && sys.clients[c].family == f && f in sys.lineages
    ensures var revoked := Step(sys, DeleteMembers(c));
            && f !in revoked.store.families
            && (Dead(revoked, f) <==>
                !exists d :: d in sys.clients && sys.clients[d].Assured? && sys.clients[d].record.family == f)
            && (forall d, next :: CanMint(revoked, d, next) && revoked.clients[d].record.family == f ==>
                  var revived := Step(revoked, MintNext(d, next));
                  && f in revived.store.families
                  && next in revived.store.tokens && revived.store.tokens[next].value.active)
  {
    var revoked := Step(sys, DeleteMembers(c));
    assert forall d :: d in revoked.clients ==> revoked.clients[d] == sys.clients[d];
    assert forall d :: d in sys.clients && sys.clients[d].Assured? ==> d in revoked.clients;
  }
}
