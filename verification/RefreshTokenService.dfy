/** The service over the text values Redis holds. Each method does the program's own string work and
    is proved to perform the corresponding call on records, so the theorems of RefreshTokens hold of
    it. Calls run one at a time; `Pass` is the clock. */
module RefreshTokenService {
  import opened Wrappers
  import opened TokenValue
  import opened TokenFamilies
  import R = RefreshTokens

  datatype Rotated = Rotated(userId: string, kind: string, token: Token)

  class Service {
    var now: nat
    var values: map<Token, Key<string>>
    var families: map<Family, Key<string>>
    var members: map<Family, Key<set<Token>>>
    ghost var model: System

    ghost predicate Valid()
      reads this
    {
      Inv(model) && R.Cover(model) && Holds(now, values, families, members, model.store)
    }

    constructor ()
      ensures Valid() && Start(model)
    {
      now, values, families, members := 0, map[], map[], map[];
      model := System(Store(0, map[], map[], map[]), map[], map[], []);
    }

    method Pass(seconds: nat)
      requires Valid()
      modifies this
      ensures Valid() && model == R.Perform(old(model), R.Call.Pass(seconds))
    {
      R.PerformKeepsCover(model, R.Call.Pass(seconds));
      R.PassSettles(model, seconds);
      ExpireKeys(seconds, model.store);
      model := R.Perform(model, R.Call.Pass(seconds));
    }

    method ExpireKeys(seconds: nat, ghost s: Store)
      requires Holds(now, values, families, members, s)
      modifies this`now, this`values, this`families, this`members
      ensures Holds(now, values, families, members, Elapse(s, seconds))
    {
      ElapsingHolds(now, values, families, members, s, seconds);
      now := now + seconds;
      values, families, members := Unexpired(values, now), Unexpired(families, now), Unexpired(members, now);
    }

    /** `family` and `token` are the random ids. */
    method Issue(principal: string, kind: string, family: Family, token: Token) returns (r: Token)
      requires Valid() && family !in model.lineages && Fresh(model, token) && token != ""
      requires Printable(Record(kind, principal, family, true))
      modifies this
      ensures Valid() && model == R.Perform(old(model), R.Login(kind, principal, family, token))
      ensures r == token
    {
      R.PerformKeepsCover(model, R.Login(kind, principal, family, token));
      model := R.Perform(model, R.Login(kind, principal, family, token));
      IssueInFamily(principal, family, kind, token);
      r := token;
    }

    /** One MULTI. */
    method IssueInFamily(principal: string, family: Family, kind: string, token: Token)
      modifies this`values, this`families, this`members
      ensures values == old(values)[token := Key(Print(Record(kind, principal, family, true)), now + TTL)]
      ensures families == old(families)[family := Key(principal, now + TTL)]
      ensures members == old(members)[family :=
                Key((if family in old(members) then old(members)[family].value else {}) + {token}, now + TTL)]
    {
      assert "|active" == "|" + "active";
      assert kind + ":" + principal + "|" + family + "|active" == Print(Record(kind, principal, family, true));
      values := values[token := Key(kind + ":" + principal + "|" + family + "|active", now + TTL)];
      families := families[family := Key(principal, now + TTL)];
      var set0 := if family in members then members[family].value else {};
      members := members[family := Key(set0 + {token}, now + TTL)];
    }

    /** The rotation script: GET, kind match, used match, gsub and SET with the remaining life. */
    method EvalRotate(token: Token, expectedKind: string) returns (code: nat, value: string)
      modifies this`values
      ensures token !in old(values) ==> code == 0 && values == old(values)
      ensures token in old(values) ==>
                var v := old(values)[token].value;
                && value == v
                && code == Inspect(Some(v), expectedKind).0
                && values == if code == 1 then old(values)[token := Key(MarkUsed(v), old(values)[token].expires)]
                             else old(values)
    {
      if token !in values {
        return 0, "";
      }
      var v := values[token].value;
      if expectedKind != "" {
        var kind := Before(v, ':');
        if kind != Some(expectedKind) {
          return 3, v;
        }
      }
      if EndsWith(v, "|used") {
        return 2, v;
      }
      values := values[token := Key(MarkUsed(v), values[token].expires)];
      return 1, v;
    }

    /** SMEMBERS, then one MULTI of deletes queued in a loop over the members. */
    method RevokeFamily(family: Family)
      modifies this`values, this`families, this`members
      ensures values == old(values) - (if family in old(members) then old(members)[family].value else {})
      ensures families == old(families) - {family}
      ensures members == old(members) - {family}
    {
      var all := if family in members then members[family].value else {};
      var left := all;
      while left != {}
        invariant left <= all
        invariant values == old(values) - (all - left)
        invariant families == old(families) && members == old(members)
        decreases left
      {
        var m :| m in left;
        left := left - {m};
        assert all - left == (all - left - {m}) + {m};
        values := values - {m};
      }
      assert all - left == all;
      members := members - {family};
      families := families - {family};
    }

    /** Returns a new token exactly when the presented one was active and of the expected kind. */
    method Rotate(token: Token, expectedKind: string, next: Token) returns (r: Option<Rotated>)
      requires Valid() && Fresh(model, next) && next != ""
      modifies this
      ensures Valid() && model == R.Perform(old(model), R.Rotate(token, expectedKind, next))
      ensures if old(R.Rotatable(model, token, expectedKind)) then
                var record := old(model.store.tokens[token].value);
                r == Some(Rotated(record.principal, record.kind, next))
              else r == None
    {
      R.PerformKeepsCover(model, R.Rotate(token, expectedKind, next));
      R.RotateSettles(model, token, expectedKind, next);
      r := RotateKeys(token, expectedKind, next, model.store);
      model := R.Perform(model, R.Rotate(token, expectedKind, next));
    }

    method RotateKeys(token: Token, expectedKind: string, next: Token, ghost s: Store) returns (r: Option<Rotated>)
      requires Holds(now, values, families, members, s) && next != ""
      requires var verdict := Inspected(s, token, expectedKind);
               verdict.Flipped? ==> verdict.record.family in families
      modifies this`values, this`families, this`members
      ensures Holds(now, values, families, members, R.Settled(s, token, expectedKind, next))
      ensures var verdict := Inspected(s, token, expectedKind);
              r == if verdict.Flipped? then Some(Rotated(verdict.record.principal, verdict.record.kind, next))
                   else None
    {
      if token == "" {
        return None;
      }
      ScriptAgrees(values, s, token, expectedKind);
      var code, value := EvalRotate(token, expectedKind);
      if code == 0 || code == 3 {
        return None;
      }
      if code == 2 {
        BurnReplayed(value, s.tokens[token].value, s);
        return None;
      }
      r := MintNext(value, s.tokens[token].value, next, Flip(s, token, ""));
    }

    /** Code 2: the family of the replayed value is revoked. */
    method BurnReplayed(value: string, ghost record: Record, ghost s: Store)
      requires Printable(record) && value == Print(record) && Holds(now, values, families, members, s)
      modifies this`values, this`families, this`members
      ensures Holds(now, values, families, members, Delete(s, record.family, MembersOf(s, record.family)))
    {
      var kind, principalId, familyId := Parse(value, record);
      RevokeFamily(familyId);
    }

    /** Code 1: if the family key is still there, the next token of the family is issued. */
    method MintNext(value: string, ghost record: Record, next: Token, ghost s: Store) returns (r: Option<Rotated>)
      requires Printable(record) && value == Print(record) && Holds(now, values, families, members, s) && next != ""
      modifies this`values, this`families, this`members
      ensures if record.family in old(families) then
                && r == Some(Rotated(record.principal, record.kind, next))
                && Holds(now, values, families, members, Mint(s, next, record.kind, record.principal, record.family))
              else r == None && Holds(now, values, families, members, s)
    {
      var kind, principalId, familyId := Parse(value, record);
      if familyId !in families {
        return None;
      }
      IssueInFamily(principalId, familyId, kind, next);
      r := Some(Rotated(principalId, kind, next));
    }

    method Parse(value: string, ghost record: Record) returns (kind: string, principalId: string, familyId: Family)
      requires Printable(record) && value == Print(record)
      ensures kind == record.kind && principalId == record.principal && familyId == record.family
    {
      ParsingReturnsTheFields(record);
      PrintedParts(record);
      IndexOfFirst(record.kind, ':', record.principal);
      var parts := Split(value, '|');
      var head := parts[0];
      assert head == record.kind + [':'] + record.principal;
      familyId := parts[1];
      var sep := IndexOf(head, ':');
      kind := head[..sep];
      principalId := head[sep + 1..];
    }

    /** Logout. */
    method Revoke(token: Token)
      requires Valid()
      modifies this
      ensures Valid() && model == R.Perform(old(model), R.Revoke(token))
    {
      R.PerformKeepsCover(model, R.Revoke(token));
      R.RevokeSettles(model, token);
      RevokeKeys(token, model.store);
      model := R.Perform(model, R.Revoke(token));
    }

    method RevokeKeys(token: Token, ghost s: Store)
      requires Holds(now, values, families, members, s)
      modifies this`values, this`families, this`members
      ensures Holds(now, values, families, members, R.LoggedOut(s, token))
    {
      if token == "" || token !in values {
        return;
      }
      var familyId := FamilyOf(values[token].value, s.tokens[token].value);
      RevokeFamily(familyId);
    }

    method FamilyOf(value: string, ghost record: Record) returns (familyId: Family)
      requires Printable(record) && value == Print(record)
      ensures familyId == record.family
    {
      PrintedParts(record);
      familyId := Split(value, '|')[1];
    }
  }

  /** The stored text of each live token is its printed record, with the same expiry. */
  ghost predicate Prints(values: map<Token, Key<string>>, records: map<Token, Key<Record>>) {
    && values.Keys == records.Keys
    && forall t :: t in values ==>
         Printable(records[t].value) && values[t] == Key(Print(records[t].value), records[t].expires)
  }

  ghost predicate Holds(now: nat, values: map<Token, Key<string>>, families: map<Family, Key<string>>,
                        members: map<Family, Key<set<Token>>>, s: Store)
  {
    && now == s.now && families == s.families && members == s.members
    && "" !in values
    && Prints(values, s.tokens)
  }

  lemma ElapsingHolds(now: nat, values: map<Token, Key<string>>, families: map<Family, Key<string>>,
                      members: map<Family, Key<set<Token>>>, s: Store, seconds: nat)
    requires Holds(now, values, families, members, s)
    ensures var later := now + seconds;
            Holds(later, Unexpired(values, later), Unexpired(families, later), Unexpired(members, later),
                  Elapse(s, seconds))
  {
  }

  /** The script over the text and the flip over the record answer alike. */
  lemma ScriptAgrees(values: map<Token, Key<string>>, s: Store, token: Token, expectedKind: string)
    requires Prints(values, s.tokens)
    ensures token in values ==>
              var text, r := values[token].value, s.tokens[token].value;
              && Inspect(Some(text), expectedKind).0 ==
                   (if expectedKind != "" && expectedKind != r.kind then 3 else if !r.active then 2 else 1)
              && (r.active ==> MarkUsed(text) == Print(r.(active := false)))
  {
    if token in values {
      InspectReadsTheRecord(s.tokens[token].value, expectedKind);
      UsedMarkIsTheStatus(s.tokens[token].value);
    }
  }
}
