/** The cached category tree (src/redis/cache.service.ts, src/category/category.service.ts:22-60): first
    with readers and creators interleaved between their calls, then with calls one at a time. The
    table only grows, so the tree at any moment is a prefix of the table and its length names that
    moment. */
module CategoryCache {
  import opened Wrappers

  datatype Category = Category(name: string, slug: string, parent: Option<nat>)

  type Tree = seq<Category>

  const TTL: nat := 300

  // ---------- Interleaved readers and creators ----------

  /** History: `started` is the table length when the computation that stored the tree began, `late` that
      the table had moved on when the tree was stored, `missed` that a delete has failed on it since. */
  datatype Entry = Entry(tree: Tree, started: nat, late: bool, missed: bool, expires: nat)

  datatype Reader =
    | Asking                             // GET comes next
    | Computing(started: nat)            // a miss; the query comes next
    | Storing(tree: Tree, started: nat)  // SET comes next
    | Served(tree: Tree, started: nat)

  datatype Creator =
    | Submitting(category: Category)     // validation and save come next
    | Saved                              // DEL comes next
    | Created
    | Rejected

  datatype System = System(now: nat, table: Tree, cache: Option<Entry>, readers: seq<Reader>, creators: seq<Creator>)

  datatype Action =
    | Read(i: nat)         // the reader's next call
    | ReadFails(i: nat)    // the same, but the Redis call fails
    | Create(i: nat)       // the creator's next call
    | CreateFails(i: nat)  // the same, but the DEL fails
    | Wait(seconds: nat)

  /** Missing parent (404) or a name or slug already taken (409). */
  predicate Acceptable(table: Tree, c: Category) {
    && (c.parent.Some? ==> c.parent.value < |table|)
    && forall k :: 0 <= k < |table| ==> table[k].name != c.name && table[k].slug != c.slug
  }

  function Step(sys: System, a: Action): System {
    match a
    case Read(i) =>
      if i >= |sys.readers| then sys
      else
        (match sys.readers[i]
         case Asking =>
           if sys.cache.Some? then SetReader(sys, i, Served(sys.cache.value.tree, sys.cache.value.started))
           else SetReader(sys, i, Computing(|sys.table|))
         case Computing(started) => SetReader(sys, i, Storing(sys.table, started))
         case Storing(tree, started) =>
           SetReader(sys, i, Served(tree, started)).(
             cache := Some(Entry(tree, started, tree != sys.table, false, sys.now + TTL)))
         case Served(_, _) => sys)
    case ReadFails(i) =>
      if i >= |sys.readers| then sys
      else
        (match sys.readers[i]
         case Asking => SetReader(sys, i, Computing(|sys.table|))
         case Storing(tree, started) => SetReader(sys, i, Served(tree, started))
         case _ => sys)
    case Create(i) =>
      if i >= |sys.creators| then sys
      else
        (match sys.creators[i]
         case Submitting(c) =>
           if Acceptable(sys.table, c) then SetCreator(sys, i, Saved).(table := sys.table + [c])
           else SetCreator(sys, i, Rejected)
         case Saved => SetCreator(sys, i, Created).(cache := None)
         case _ => sys)
    case CreateFails(i) =>
      if i < |sys.creators| && sys.creators[i].Saved? then SetCreator(sys, i, Created).(cache := Missed(sys)) else sys
    case Wait(seconds) =>
      var now := sys.now + seconds;
      sys.(now := now, cache := if sys.cache.Some? && now < sys.cache.value.expires then sys.cache else None)
  }

  /** The cache after a delete that failed, noted in its history if what it holds is stale. */
  function Missed(sys: System): Option<Entry> {
    match sys.cache
    case None => None
    case Some(e) => Some(e.(missed := e.missed || e.tree != sys.table))
  }

  function SetReader(sys: System, i: nat, r: Reader): System
    requires i < |sys.readers|
  {
    sys.(readers := sys.readers[i := r])
  }

  function SetCreator(sys: System, i: nat, c: Creator): System
    requires i < |sys.creators|
  {
    sys.(creators := sys.creators[i := c])
  }

  function Run(sys: System, actions: seq<Action>): System {
    if actions == [] then sys else Step(Run(sys, actions[..|actions| - 1]), actions[|actions| - 1])
  }

  predicate Start(sys: System) {
    && sys.cache.None?
    && (forall i :: 0 <= i < |sys.readers| ==> sys.readers[i].Asking?)
    && (forall i :: 0 <= i < |sys.creators| ==> sys.creators[i].Submitting?)
  }

  /** The tree was the table's value at some moment not before the table had `started` rows. */
  predicate WasCurrent(table: Tree, tree: Tree, started: nat) {
    started <= |tree| && tree <= table
  }

  /** Likewise, and that moment falls within a run whose table had `opening` rows at the start. */
  predicate CurrentSince(table: Tree, tree: Tree, started: nat, opening: nat) {
    opening <= started && WasCurrent(table, tree, started)
  }

  ghost predicate Honest(sys: System, opening: nat) {
    && (sys.cache.Some? ==> CurrentSince(sys.table, sys.cache.value.tree, sys.cache.value.started, opening))
    && opening <= |sys.table|
    && forall i :: 0 <= i < |sys.readers| ==> ReaderHonest(sys.readers[i], sys.table, opening)
  }

  predicate ReaderHonest(r: Reader, table: Tree, opening: nat) {
    match r
    case Asking => true
    case Computing(started) => opening <= started <= |table|
    case Storing(tree, started) => CurrentSince(table, tree, started, opening)
    case Served(tree, started) => CurrentSince(table, tree, started, opening)
  }

  /** A creator's save goes through exactly when the parent is there and name and slug are free. */
  lemma SubmittingAnswers(sys: System, i: nat)
    requires i < |sys.creators| && sys.creators[i].Submitting?
    ensures var c := sys.creators[i].category;
            var sys' := Step(sys, Create(i));
            if (c.parent.None? || c.parent.value < |sys.table|)
               && !exists k :: 0 <= k < |sys.table| && (sys.table[k].name == c.name || sys.table[k].slug == c.slug)
            then sys'.table == sys.table + [c] && sys'.creators[i] == Saved
            else sys'.table == sys.table && sys'.creators[i] == Rejected
  {
  }

  lemma StepKeepsHonest(sys: System, a: Action, opening: nat)
    requires Honest(sys, opening)
    ensures Honest(Step(sys, a), opening) && sys.table <= Step(sys, a).table
  {
    var sys' := Step(sys, a);
    forall i | 0 <= i < |sys'.readers| ensures ReaderHonest(sys'.readers[i], sys'.table, opening) {
      assert i < |sys.readers|;
    }
  }

  /** Every tree served, Redis failing or not, was the table's value at some moment of the run no earlier
      than the start of the computation that stored it. */
  lemma {:induction false} ServedTreesWereCurrent(sys: System, actions: seq<Action>)
    requires Start(sys)
    ensures var end := Run(sys, actions);
            && Honest(end, |sys.table|)
            && sys.table <= end.table
            && forall i :: 0 <= i < |end.readers| && end.readers[i].Served? ==>
                 CurrentSince(end.table, end.readers[i].tree, end.readers[i].started, |sys.table|)
  {
    if actions != [] {
      ServedTreesWereCurrent(sys, actions[..|actions| - 1]);
      StepKeepsHonest(Run(sys, actions[..|actions| - 1]), actions[|actions| - 1], |sys.table|);
    }
  }

  lemma {:induction false} TablesGrow(sys: System, actions: seq<Action>, k: nat)
    requires k <= |actions|
    ensures Run(sys, actions[..k]).table <= Run(sys, actions).table
    decreases |actions|
  {
    if k == |actions| {
      assert actions[..k] == actions;
    } else {
      var init := actions[..|actions| - 1];
      assert init[..k] == actions[..k];
      TablesGrow(sys, init, k);
    }
  }

  /** That moment exists: some prefix of the run ends with exactly the served tree as its table, and a
      table at least as long as when the computation started. */
  lemma {:induction false} ServedTreeIsATable(sys: System, actions: seq<Action>, n: nat) returns (k: nat)
    requires |sys.table| <= n <= |Run(sys, actions).table|
    ensures k <= |actions| && Run(sys, actions[..k]).table == Run(sys, actions).table[..n]
  {
    if n == |Run(sys, actions).table| {
      k := |actions|;
      assert actions[..k] == actions;
    } else {
      var init := actions[..|actions| - 1];
      TablesGrow(sys, actions, |init|);
      k := ServedTreeIsATable(sys, init, n);
      assert init[..k] == actions[..k];
    }
  }

  predicate DeleteOutstanding(sys: System) {
    exists i :: 0 <= i < |sys.creators| && sys.creators[i].Saved?
  }

  /** A tree stored in time is still current unless a delete is on its way or has failed; one stored late,
      or left behind by a failed delete, never is. */
  ghost predicate Tracked(sys: System) {
    sys.cache.Some? ==>
      var e := sys.cache.value;
      && e.tree <= sys.table
      && (e.late || e.missed ==> e.tree != sys.table)
      && (!e.late && !e.missed && e.tree != sys.table ==> DeleteOutstanding(sys))
      && sys.now < e.expires <= sys.now + TTL
  }

  lemma StepKeepsTracked(sys: System, a: Action, opening: nat)
    requires Honest(sys, opening) && Tracked(sys)
    ensures Tracked(Step(sys, a))
  {
    var sys' := Step(sys, a);
    if a.Create? && a.i < |sys.creators| && sys.creators[a.i].Submitting? && sys'.creators[a.i].Saved? {
      assert DeleteOutstanding(sys');
      assert sys'.table[..|sys.table|] == sys.table;
    } else if DeleteOutstanding(sys) && !DeleteOutstanding(sys') {
      var i :| 0 <= i < |sys.creators| && sys.creators[i].Saved?;
      assert i < |sys'.creators| && !sys'.creators[i].Saved?;
    }
  }

  lemma {:induction false} RunKeepsTracked(sys: System, actions: seq<Action>)
    requires Start(sys)
    ensures Tracked(Run(sys, actions))
  {
    if actions != [] {
      RunKeepsTracked(sys, actions[..|actions| - 1]);
      ServedTreesWereCurrent(sys, actions[..|actions| - 1]);
      StepKeepsTracked(Run(sys, actions[..|actions| - 1]), actions[|actions| - 1], |sys.table|);
    }
  }

  /** On every run, Redis failing or not: whenever no delete is outstanding, the cached tree is the current
      table exactly when its reader stored it before the table moved on and no delete has failed on it
      since; and a stale one expires within 300 seconds. */
  lemma CachedTreeIsCurrentUnlessStoredLate(sys: System, actions: seq<Action>)
    requires Start(sys)
    ensures var end := Run(sys, actions);
            end.cache.Some? ==>
              var e := end.cache.value;
              && (!DeleteOutstanding(end) ==> (e.tree == end.table <==> !e.late && !e.missed))
              && Step(end, Wait(300)).cache.None?
  {
    RunKeepsTracked(sys, actions);
  }

  /** Such a late set happens: a reader that queries before a save and stores after its delete leaves
      a tree without the new category behind, which the next reader is served. */
  lemma LateSetServesStaleTree(table: Tree, c: Category, now: nat)
    requires Acceptable(table, c)
    ensures var start := System(now, table, None, [Asking, Asking], [Submitting(c)]);
            var queried := Step(Step(start, Read(0)), Read(0));
            var deleted := Step(Step(queried, Create(0)), Create(0));
            var end := Step(Step(deleted, Read(0)), Read(1));
            && Start(start) && !DeleteOutstanding(end)
            && end.table == table + [c] && end.readers[1] == Served(table, |table|)
  {
    var start := System(now, table, None, [Asking, Asking], [Submitting(c)]);
    var queried := Step(Step(start, Read(0)), Read(0));
    assert queried.readers == [Storing(table, |table|), Asking];
    var deleted := Step(Step(queried, Create(0)), Create(0));
    assert deleted == System(now, table + [c], None, queried.readers, [Created]);
    assert Step(deleted, Read(0)).cache == Some(Entry(table, |table|, true, false, now + TTL));
  }

  /** So does a failed delete, whose error is swallowed: the tree stored in good time before the save is
      served after it. */
  lemma FailedDeleteServesStaleTree(table: Tree, c: Category, now: nat)
    requires Acceptable(table, c)
    ensures var start := System(now, table, None, [Asking, Asking], [Submitting(c)]);
            var stored := Step(Step(Step(start, Read(0)), Read(0)), Read(0));
            var failed := Step(Step(stored, Create(0)), CreateFails(0));
            var end := Step(failed, Read(1));
            && Start(start) && !DeleteOutstanding(end) && end.creators == [Created]
            && end.cache == Some(Entry(table, |table|, false, true, now + TTL))
            && end.table == table + [c] && end.readers[1] == Served(table, |table|)
  {
    var start := System(now, table, None, [Asking, Asking], [Submitting(c)]);
    var queried := Step(Step(start, Read(0)), Read(0));
    assert queried.readers == [Storing(table, |table|), Asking];
    var stored := Step(queried, Read(0));
    assert stored.cache == Some(Entry(table, |table|, false, false, now + TTL));
    assert Step(stored, Create(0)).creators == [Saved];
  }

  // ---------- Calls one at a time ----------

  datatype Cached<T> = Cached(value: T, expires: nat)

  /** CacheService; not enabled means there is no Redis. */
  class CacheService<T(==)> {
    const enabled: bool
    var now: nat
    var entries: map<string, Cached<T>>

    constructor (enabled: bool)
      ensures this.enabled == enabled && entries == map[]
    {
      this.enabled, now, entries := enabled, 0, map[];
    }

    /** What a GET answers. */
    function Peek(key: string): Option<T>
      reads this
    {
      if enabled && key in entries && now < entries[key].expires then Some(entries[key].value) else None
    }

    method Pass(seconds: nat)
      modifies this`now
      ensures now == old(now) + seconds
      ensures forall key :: Peek(key).Some? <==> enabled && key in entries && now < entries[key].expires
      ensures forall key :: Peek(key).Some? ==> Peek(key) == Some(entries[key].value)
    {
      now := now + seconds;
    }

    method Set(key: string, value: T, ttlSeconds: nat)
      modifies this`entries
      ensures forall other :: other != key ==> Peek(other) == old(Peek(other))
      ensures Peek(key) == if enabled && ttlSeconds > 0 then Some(value) else old(Peek(key))
      ensures enabled && ttlSeconds > 0 ==> key in entries && entries[key] == Cached(value, now + ttlSeconds)
    {
      // Redis refuses an expiry of 0, and the error is swallowed
      if enabled && ttlSeconds > 0 {
        entries := entries[key := Cached(value, now + ttlSeconds)];
      }
    }

    method Del(keys: seq<string>)
      modifies this`entries
      ensures forall key :: Peek(key) == if key in keys then None else old(Peek(key))
    {
      for i := 0 to |keys|
        invariant forall key :: Peek(key) == if key in keys[..i] then None else old(Peek(key))
      {
        entries := entries - {keys[i]};
      }
    }

    /** Cache-aside. */
    method Wrap(key: string, ttlSeconds: nat, fn: () -> T) returns (r: T)
      modifies this`entries
      ensures r == if old(Peek(key)).Some? then old(Peek(key)).value else fn()
      ensures Peek(key) ==
                if old(Peek(key)).Some? || (enabled && ttlSeconds > 0) then Some(r) else None
      ensures forall other :: other != key ==> Peek(other) == old(Peek(other))
    {
      var cached := Peek(key);
      if cached.Some? {
        return cached.value;
      }
      r := fn();
      Set(key, r, ttlSeconds);
    }
  }

  datatype CreateError = ParentNotFound | AlreadyExists

  class CategoryService {
    var table: Tree
    const cache: CacheService<Tree>

    const KEY := "categories:all"

    /** Whatever is cached is the table. */
    ghost predicate Valid()
      reads this, cache
    {
      cache.Peek(KEY).Some? ==> cache.Peek(KEY).value == table
    }

    constructor (cache: CacheService<Tree>)
      requires cache.entries == map[]
      ensures Valid() && table == [] && this.cache == cache
    {
      this.cache, table := cache, [];
    }

    method Create(c: Category) returns (r: Result<nat, CreateError>)
      requires Valid()
      modifies this`table, cache
      ensures Valid()
      ensures if c.parent.Some? && c.parent.value >= |old(table)| then
                r == Failure(ParentNotFound) && table == old(table)
              else if exists k :: 0 <= k < |old(table)|
                                  && (old(table)[k].name == c.name || old(table)[k].slug == c.slug)
              then r == Failure(AlreadyExists) && table == old(table)
              else r == Success(|old(table)|) && table == old(table) + [c]
    {
      if c.parent.Some? && c.parent.value >= |table| {
        return Failure(ParentNotFound);
      }
      if exists k :: 0 <= k < |table| && (table[k].name == c.name || table[k].slug == c.slug) {
        return Failure(AlreadyExists);
      }
      r := Success(|table|);
      table := table + [c];
      cache.Del([KEY]);
    }

    /** One call at a time, on a working Redis or none, the tree served is always the table. */
    method FindAll() returns (tree: Tree)
      requires Valid()
      modifies cache
      ensures Valid() && tree == table
    {
      var current := table;
      tree := cache.Wrap(KEY, TTL, () => current);
    }

    method Pass(seconds: nat)
      requires Valid()
      modifies cache
      ensures Valid() && table == old(table)
    {
      cache.Pass(seconds);
    }
  }
}
