/**
  The per-user and per-group locks of the FreeIPA agent (cache.rs): a map from identifier to
  mutex that is pruned when it grows too large. A map entry is the identity of a lock, so
  pruning must never let two tasks hold "the" lock of one identifier.

  Mutexes are shared by reference count. Every clone a task has of one is a handle here; the
  reference count of a mutex is its handles plus the map itself.
 */
module LockMap {

  /** A user or a project, by its full name. */
  type Identifier = string

  /** A task's share of a mutex: a plain clone, or the guard of a lock it holds. */
  datatype Handle = Handle(key: Identifier, mutex: nat, guard: bool)

  datatype Table = Table(
    mutexes: map<Identifier, nat>,             // the lock map: identifier to mutex
    handles: map<nat, Handle>,     // every clone in the hands of a task
    nextMutex: nat,
    nextHandle: nat
  )

  datatype Step =
    | Get(key: Identifier)             // get_user_mutex or get_group_mutex
    | TryLock(handle: nat)    // try_lock_owned consumes the clone: it becomes a guard or is dropped
    | Drop(handle: nat)       // a clone or a guard goes out of scope
    | Prune                   // any other cache write

  function Sharers(handles: map<nat, Handle>, mutex: nat): set<nat> {
    set h | h in handles && handles[h].mutex == mutex
  }

  function StrongCount(handles: map<nat, Handle>, mutex: nat): nat {
    1 + |Sharers(handles, mutex)|
  }

  predicate IsLocked(t: Table, mutex: nat) {
    exists h | h in t.handles :: t.handles[h].guard && t.handles[h].mutex == mutex
  }

  /** Drop the mutexes nobody but the map holds, if the map has outgrown its cap. */
  function Pruned(t: Table, cap: nat): Table {
    if |t.mutexes| > cap then
      t.(mutexes := map k | k in t.mutexes && StrongCount(t.handles, t.mutexes[k]) > 1 :: t.mutexes[k])
    else t
  }

  function WithEntry(t: Table, key: Identifier): Table {
    if key in t.mutexes then t
    else t.(mutexes := t.mutexes[key := t.nextMutex], nextMutex := t.nextMutex + 1)
  }

  function WithClone(t: Table, key: Identifier): Table
    requires key in t.mutexes
  {
    t.(handles := t.handles[t.nextHandle := Handle(key, t.mutexes[key], false)], nextHandle := t.nextHandle + 1)
  }

  predicate Enabled(t: Table, step: Step) {
    match step
    case Get(_) => true
    case TryLock(h) => h in t.handles && !t.handles[h].guard
    case Drop(h) => h in t.handles
    case Prune => true
  }

  function Apply(t: Table, cap: nat, step: Step): Table
    requires Enabled(t, step)
  {
    match step
    case Get(key) => WithClone(WithEntry(Pruned(t, cap), key), key)
    case TryLock(h) =>
      if IsLocked(t, t.handles[h].mutex) then t.(handles := t.handles - {h})
      else t.(handles := t.handles[h := t.handles[h].(guard := true)])
    case Drop(h) => t.(handles := t.handles - {h})
    case Prune => Pruned(t, cap)
  }

  // ---- The invariant ----

  ghost predicate Inv(t: Table) {
    && (forall h | h in t.handles ::
          h < t.nextHandle && t.handles[h].key in t.mutexes && t.mutexes[t.handles[h].key] == t.handles[h].mutex)
    && (forall k | k in t.mutexes :: t.mutexes[k] < t.nextMutex)
    && (forall j, k | j in t.mutexes && k in t.mutexes && t.mutexes[j] == t.mutexes[k] :: j == k)
    && (forall g, h | g in t.handles && h in t.handles && t.handles[g].guard && t.handles[h].guard
                      && t.handles[g].mutex == t.handles[h].mutex :: g == h)
  }

  lemma PrunedKeepsShared(t: Table, cap: nat)
    requires Inv(t)
    ensures Inv(Pruned(t, cap))
    ensures forall k | k in Pruned(t, cap).mutexes :: k in t.mutexes && Pruned(t, cap).mutexes[k] == t.mutexes[k]
  {
    forall h | h in t.handles ensures t.handles[h].key in Pruned(t, cap).mutexes {
      assert h in Sharers(t.handles, t.handles[h].mutex);
    }
  }

  lemma EntryKeepsInv(t: Table, key: Identifier)
    requires Inv(t)
    ensures Inv(WithEntry(t, key))
  {}

  lemma CloneKeepsInv(t: Table, key: Identifier)
    requires Inv(t) && key in t.mutexes
    ensures Inv(WithClone(t, key))
  {}

  lemma TryLockKeepsInv(t: Table, cap: nat, h: nat)
    requires Inv(t) && Enabled(t, TryLock(h))
    ensures Inv(Apply(t, cap, TryLock(h)))
  {}

  lemma InvStep(t: Table, cap: nat, step: Step)
    requires Inv(t) && Enabled(t, step)
    ensures Inv(Apply(t, cap, step))
  {
    match step
    case Get(key) =>
      PrunedKeepsShared(t, cap);
      EntryKeepsInv(Pruned(t, cap), key);
      CloneKeepsInv(WithEntry(Pruned(t, cap), key), key);
    case TryLock(h) => TryLockKeepsInv(t, cap, h);
    case Drop(h) =>
    case Prune => PrunedKeepsShared(t, cap);
  }

  /** The tables a run passes through, first to last. */
  ghost predicate Runs(t: Table, cap: nat, steps: seq<Step>, t': Table)
    decreases |steps|
  {
    if steps == [] then t' == t
    else Enabled(t, steps[0]) && Runs(Apply(t, cap, steps[0]), cap, steps[1..], t')
  }

  function Empty(): Table {
    Table(map[], map[], 0, 0)
  }

  lemma {:induction false} RunKeepsInv(t: Table, cap: nat, steps: seq<Step>, t': Table)
    requires Inv(t) && Runs(t, cap, steps, t')
    ensures Inv(t')
    decreases |steps|
  {
    if steps == [] {
    } else {
      InvStep(t, cap, steps[0]);
      RunKeepsInv(Apply(t, cap, steps[0]), cap, steps[1..], t');
    }
  }

  // ---- Main results ----

  /**
    In every run of gets, try-locks, releases and prunes, any handle a task has for an
    identifier is a handle on the very mutex the map has for it, and no identifier is ever
    locked twice.
   */
  lemma PruningKeepsMutualExclusion(cap: nat, steps: seq<Step>, t: Table)
    requires Runs(Empty(), cap, steps, t)
    ensures forall h | h in t.handles ::
              t.handles[h].key in t.mutexes && t.mutexes[t.handles[h].key] == t.handles[h].mutex
    ensures forall g, h | g in t.handles && h in t.handles && t.handles[g].guard && t.handles[h].guard
                          && t.handles[g].key == t.handles[h].key :: g == h
  {
    RunKeepsInv(Empty(), cap, steps, t);
  }

  /** The identifiers some task has a handle for. */
  function LiveKeys(t: Table): set<Identifier> {
    set h | h in t.handles :: t.handles[h].key
  }

  lemma SubsetSize<T>(a: set<T>, b: set<T>)
    requires a <= b
    ensures |a| <= |b|
  {
    if a != {} {
      var x :| x in a;
      SubsetSize(a - {x}, b - {x});
    }
  }

  lemma KeysSize(m: map<Identifier, nat>)
    ensures |m| == |m.Keys|
  {}

  /**
    ... and the map stays bounded: just after a get it has at most one entry more than its cap,
    or than the number of identifiers in use if that is larger.
   */
  lemma GetKeepsMapBounded(cap: nat, steps: seq<Step>, t: Table, key: Identifier)
    requires Runs(Empty(), cap, steps, t)
    ensures var size := |Apply(t, cap, Get(key)).mutexes|;
            size <= cap + 1 || size <= |LiveKeys(t)| + 1
  {
    RunKeepsInv(Empty(), cap, steps, t);
    var pruned := Pruned(t, cap);
    if |t.mutexes| > cap {
      forall k | k in pruned.mutexes ensures k in LiveKeys(t) {
        assert Sharers(t.handles, t.mutexes[k]) != {};
        var h :| h in Sharers(t.handles, t.mutexes[k]);
        assert t.handles[h].key == k;
      }
      SubsetSize(pruned.mutexes.Keys, LiveKeys(t));
    }
    KeysSize(pruned.mutexes);
  }

  /** What pruning keeps: everything below the cap, and otherwise the locks of the identifiers in use. */
  lemma PruneKeepsIff(cap: nat, steps: seq<Step>, t: Table, key: Identifier)
    requires Runs(Empty(), cap, steps, t)
    ensures var t' := Apply(t, cap, Prune);
            && t'.handles == t.handles
            && (key in t'.mutexes <==> key in t.mutexes && (|t.mutexes| <= cap || key in LiveKeys(t)))
            && (key in t'.mutexes ==> t'.mutexes[key] == t.mutexes[key])
  {
    RunKeepsInv(Empty(), cap, steps, t);
    if key in t.mutexes {
      var sharers := Sharers(t.handles, t.mutexes[key]);
      if h :| h in sharers {
        assert t.handles[h].key == key;
      } else {
        assert sharers == {};
      }
    }
    if h :| h in t.handles && t.handles[h].key == key {
      assert h in Sharers(t.handles, t.mutexes[key]);
    }
  }

  /** Some task holds the lock of `key`. */
  ghost predicate Held(t: Table, key: Identifier) {
    exists g :: g in t.handles && t.handles[g].guard && t.handles[g].key == key
  }

  lemma LockedIffHeld(t: Table, key: Identifier)
    requires Inv(t) && key in t.mutexes
    ensures IsLocked(t, t.mutexes[key]) <==> Held(t, key)
  {
    if g :| g in t.handles && t.handles[g].guard && t.handles[g].mutex == t.mutexes[key] {
      assert t.mutexes[t.handles[g].key] == t.mutexes[key];
    }
  }

  lemma GetKeepsHeld(t: Table, cap: nat, key: Identifier, k: Identifier)
    requires Inv(t)
    ensures Held(Apply(t, cap, Get(key)), k) <==> Held(t, k)
  {
    var got := Apply(t, cap, Get(key));
    assert t.nextHandle !in t.handles && !got.handles[t.nextHandle].guard;
    forall g | g in t.handles ensures g in got.handles && got.handles[g] == t.handles[g] {}
    if g :| g in got.handles && got.handles[g].guard && got.handles[g].key == k {
      assert g in t.handles;
    }
    if g :| g in t.handles && t.handles[g].guard && t.handles[g].key == k {
      assert got.handles[g] == t.handles[g];
    }
  }

  lemma TryHolds(t: Table, cap: nat, h: nat)
    requires Inv(t) && Enabled(t, TryLock(h))
    ensures var t', key := Apply(t, cap, TryLock(h)), t.handles[h].key;
            && (h in t'.handles ==> t'.handles[h].guard)
            && forall k :: Held(t', k) <==> Held(t, k) || k == key
  {
    var t', key := Apply(t, cap, TryLock(h)), t.handles[h].key;
    LockedIffHeld(t, key);
    forall k ensures Held(t', k) <==> Held(t, k) || k == key {
      if g :| g in t.handles && t.handles[g].guard && t.handles[g].key == k {
        assert g in t'.handles && t'.handles[g] == t.handles[g];
      }
      if k == key && !Held(t, key) {
        assert h in t'.handles && t'.handles[h].guard && t'.handles[h].key == key;
      }
    }
  }

  /**
    A lock that is free is there for the taking, and only then: a get followed by a try-lock of
    the new clone succeeds exactly when no task holds the lock of that identifier, however often
    the map has been pruned. The lock is held then; nobody else's is gained or lost.
   */
  lemma GetThenTryLock(cap: nat, steps: seq<Step>, t: Table, key: Identifier)
    requires Runs(Empty(), cap, steps, t)
    ensures var got := Apply(t, cap, Get(key));
            && Enabled(got, TryLock(t.nextHandle))
            && var tried := Apply(got, cap, TryLock(t.nextHandle));
               && (t.nextHandle in tried.handles <==> !Held(t, key))
               && (t.nextHandle in tried.handles ==> tried.handles[t.nextHandle].guard)
               && forall k :: Held(tried, k) <==> Held(t, k) || k == key
  {
    RunKeepsInv(Empty(), cap, steps, t);
    InvStep(t, cap, Get(key));
    forall k ensures Held(Apply(t, cap, Get(key)), k) <==> Held(t, k) {
      GetKeepsHeld(t, cap, key, k);
    }
    var got := Apply(t, cap, Get(key));
    LockedIffHeld(got, key);
    TryHolds(got, cap, t.nextHandle);
  }

  /** Letting go of a lock frees it: nobody holds it then, so the next to try will get it. */
  lemma ReleaseFrees(cap: nat, steps: seq<Step>, t: Table, h: nat)
    requires Runs(Empty(), cap, steps, t) && h in t.handles && t.handles[h].guard
    ensures Held(t, t.handles[h].key) && !Held(Apply(t, cap, Drop(h)), t.handles[h].key)
    ensures forall key | key != t.handles[h].key :: Held(Apply(t, cap, Drop(h)), key) <==> Held(t, key)
  {
    PruningKeepsMutualExclusion(cap, steps, t);
    var t' := Apply(t, cap, Drop(h));
    forall key | key != t.handles[h].key && Held(t, key) ensures Held(t', key) {
      var g :| g in t.handles && t.handles[g].guard && t.handles[g].key == key;
      assert g in t'.handles && t'.handles[g] == t.handles[g];
    }
  }

  // ---- The map itself, updated in place ----

  class Database {
    const cap: nat
    var mutexes: map<Identifier, nat>
    var handles: map<nat, Handle>
    var nextMutex: nat
    var nextHandle: nat

    ghost function View(): Table
      reads this
    {
      Table(mutexes, handles, nextMutex, nextHandle)
    }

    ghost predicate Valid()
      reads this
    {
      Inv(View())
    }

    constructor (cap: nat)
      ensures Valid() && View() == Empty() && this.cap == cap
    {
      this.cap := cap;
      mutexes, handles, nextMutex, nextHandle := map[], map[], 0, 0;
    }

    method EnforceCacheBounds()
      requires Valid()
      modifies this
      ensures Valid() && View() == Apply(old(View()), cap, Prune)
    {
      InvStep(View(), cap, Prune);
      if |mutexes| > cap {
        mutexes := map k | k in mutexes && StrongCount(handles, mutexes[k]) > 1 :: mutexes[k];
      }
    }

    method GetMutex(key: Identifier) returns (handle: nat)
      requires Valid()
      modifies this
      ensures Valid() && View() == Apply(old(View()), cap, Get(key)) && handle == old(nextHandle)
    {
      hide Inv, StrongCount, Sharers;
      InvStep(View(), cap, Get(key));
      EnforceCacheBounds();
      if key !in mutexes {
        mutexes := mutexes[key := nextMutex];
        nextMutex := nextMutex + 1;
      }
      handle := nextHandle;
      handles := handles[handle := Handle(key, mutexes[key], false)];
      nextHandle := nextHandle + 1;
    }

    method TryLockOwned(handle: nat) returns (locked: bool)
      requires Valid() && Enabled(View(), TryLock(handle))
      modifies this
      ensures Valid() && View() == Apply(old(View()), cap, TryLock(handle))
      ensures locked <==> !old(IsLocked(View(), handles[handle].mutex))
      ensures if locked then handle in handles && handles[handle].guard else handle !in handles
    {
      InvStep(View(), cap, TryLock(handle));
      locked := !exists h | h in handles :: handles[h].guard && handles[h].mutex == handles[handle].mutex;
      if locked {
        handles := handles[handle := handles[handle].(guard := true)];
      } else {
        handles := handles - {handle};
      }
    }

    method Release(handle: nat)
      requires Valid() && handle in handles
      modifies this
      ensures Valid() && View() == Apply(old(View()), cap, Drop(handle))
    {
      InvStep(View(), cap, Drop(handle));
      handles := handles - {handle};
    }
  }
}
