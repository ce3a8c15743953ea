/**
  LockStore as the object one goroutine sees: a lazily made map from names to mutex
  objects, updated in place.  The last lemma ties it to the interleaved protocol: a call
  that nobody interrupts changes a store exactly as the method of the class does.
 */
module LockStoreObject {
  import opened Wrappers
  import Protocol = LockProtocol

  class Mutex {
    var locked: bool

    constructor ()
      ensures !locked
    {
      locked := false;
    }
  }

  /** A call returns, waits for ever (nobody else runs), or stops the process. */
  datatype Outcome = Returned | Blocks | Fatal

  /** Which names of a store are locked, after a call on `name` that sets it to `locked`. */
  function Called(table: map<string, bool>, name: string, locked: bool): map<string, bool> {
    table[name := locked]
  }

  /** What `getLock` alone does to the table: the name exists, unlocked if it is new. */
  function Fetched(table: map<string, bool>, name: string): map<string, bool> {
    if name in table then table else table[name := false]
  }

  /** Different names have different mutexes. */
  ghost predicate Distinct(entries: map<string, Mutex>) {
    forall n, n' | n in entries && n' in entries && n != n' :: entries[n] != entries[n']
  }

  lemma DistinctInsert(entries: map<string, Mutex>, name: string, m: Mutex)
    requires Distinct(entries) && m !in entries.Values
    ensures Distinct(entries[name := m]) && entries[name := m].Values <= entries.Values + {m}
  {
  }

  class LockStore {
    const mux: Mutex                        // lockstoremux, shared by every store
    var store: Option<map<string, Mutex>>   // None is Go's nil map

    function Entries(): map<string, Mutex>
      reads this
    {
      if store.None? then map[] else store.value
    }

    ghost function Objects(): set<Mutex>
      reads this
    {
      Entries().Values
    }

    /** The global mutex is free, and different names have different mutexes. */
    ghost predicate Valid()
      reads this, mux, Objects()
    {
      && !mux.locked && mux !in Objects()
      && Distinct(Entries())
    }

    ghost function Table(): map<string, bool>
      reads this, Objects()
    {
      map n | n in Entries() :: Entries()[n].locked
    }

    constructor (mux: Mutex)
      requires !mux.locked
      ensures Valid() && this.mux == mux && store == None && Table() == map[]
    {
      this.mux := mux;
      store := None;
    }

    method CheckAndInitLockStore()
      modifies this
      ensures store == Some(old(Entries()))
    {
      if store.None? {
        store := Some(map[]);
      }
    }

    method GetLock(name: string) returns (m: Mutex)
      requires Valid()
      modifies this, mux
      ensures Valid()
      ensures name in Entries() && m == Entries()[name]
      ensures name in old(Entries()) ==> Entries() == old(Entries())
      ensures name !in old(Entries()) ==> fresh(m) && Entries() == old(Entries())[name := m]
      ensures Table() == Fetched(old(Table()), name)
    {
      mux.locked := true;
      CheckAndInitLockStore();
      assert Entries() == old(Entries()) && Table() == old(Table());
      if name !in store.value {
        var created := new Mutex();
        DistinctInsert(store.value, name, created);
        store := Some(store.value[name := created]);
      }
      m := store.value[name];
      assert Table() == Fetched(old(Table()), name);
      mux.locked := false;
    }

    method Lock(name: string, lockEnabled: bool) returns (r: Outcome)
      requires Valid()
      modifies this, mux, Objects()
      ensures Valid()
      ensures r == if lockEnabled && name in old(Table()) && old(Table())[name] then Blocks else Returned
      ensures Table() == if lockEnabled then old(Table())[name := true] else old(Table())
      ensures fresh(Objects() - old(Objects()))
    {
      if lockEnabled {
        var m := GetLock(name);
        assert Table()[name] == m.locked;
        if m.locked {
          return Blocks;
        }
        m.locked := true;
      }
      r := Returned;
    }

    method Unlock(name: string, lockEnabled: bool) returns (r: Outcome)
      requires Valid()
      modifies this, mux, Objects()
      ensures Valid()
      ensures r == if lockEnabled && !(name in old(Table()) && old(Table())[name]) then Fatal else Returned
      ensures Table() == if lockEnabled then old(Table())[name := false] else old(Table())
      ensures fresh(Objects() - old(Objects()))
    {
      if lockEnabled {
        var m := GetLock(name);
        assert Table()[name] == m.locked;
        if !m.locked {
          return Fatal;
        }
        m.locked := false;
      }
      r := Returned;
    }
  }

  // ---------- sequences of calls by one goroutine ----------

  datatype Call = Call(name: string, lock: bool)

  /** Whether the call returns: a free name can be locked, a locked one unlocked. */
  predicate Returns(table: map<string, bool>, c: Call) {
    c.lock != (c.name in table && table[c.name])
  }

  /** The table after the calls, up to the first one that does not return. */
  function Played(table: map<string, bool>, calls: seq<Call>): map<string, bool>
    decreases |calls|
  {
    if calls == [] then table
    else
      var after := Called(table, calls[0].name, calls[0].lock);
      if Returns(table, calls[0]) then Played(after, calls[1..]) else after
  }

  predicate AllReturn(table: map<string, bool>, calls: seq<Call>)
    decreases |calls|
  {
    calls == [] ||
    (Returns(table, calls[0]) && AllReturn(Called(table, calls[0].name, calls[0].lock), calls[1..]))
  }

  /** Makes the calls one after the other. */
  method Play(s: LockStore, calls: seq<Call>) returns (r: Outcome)
    requires s.Valid()
    modifies s, s.mux, s.Objects()
    ensures s.Valid() && s.Table() == Played(old(s.Table()), calls)
    ensures r == Returned <==> AllReturn(old(s.Table()), calls)
    ensures fresh(s.Objects() - old(s.Objects()))
    decreases |calls|
  {
    r := Returned;
    if calls != [] {
      if calls[0].lock {
        r := s.Lock(calls[0].name, true);
      } else {
        r := s.Unlock(calls[0].name, true);
      }
      if r == Returned {
        r := Play(s, calls[1..]);
      }
    }
  }

  /** The calls on one name. */
  function On(calls: seq<Call>, n: string): seq<Call> {
    if calls == [] then [] else (if calls[0].name == n then [calls[0]] else []) + On(calls[1..], n)
  }

  /** Two tables say the same about `n`. */
  predicate Same(m: map<string, bool>, m': map<string, bool>, n: string) {
    (n in m <==> n in m') && (n in m ==> m[n] == m'[n])
  }

  lemma {:induction false} SameOnName(m: map<string, bool>, m': map<string, bool>, calls: seq<Call>, n: string)
    requires Same(m, m', n)
    requires forall i | 0 <= i < |calls| :: calls[i].name == n
    ensures AllReturn(m, calls) <==> AllReturn(m', calls)
    ensures Same(Played(m, calls), Played(m', calls), n)
    decreases |calls|
  {
    if calls != [] {
      var c := calls[0];
      SameOnName(Called(m, n, c.lock), Called(m', n, c.lock), calls[1..], n);
    }
  }

  lemma {:induction false} OnlyOn(calls: seq<Call>, n: string)
    ensures forall i | 0 <= i < |On(calls, n)| :: On(calls, n)[i].name == n
  {
    if calls != [] { OnlyOn(calls[1..], n); }
  }

  /** The first of several calls, seen from the calls on one name. */
  lemma FirstOn(table: map<string, bool>, calls: seq<Call>, n: string)
    requires calls != []
    ensures var c, rest := calls[0], On(calls[1..], n);
      var after := Called(table, c.name, c.lock);
      if c.name == n then
        && (AllReturn(table, On(calls, n)) <==> Returns(table, c) && AllReturn(after, rest))
        && (Returns(table, c) ==> Played(table, On(calls, n)) == Played(after, rest))
      else
        && (AllReturn(table, On(calls, n)) <==> AllReturn(after, rest))
        && Same(Played(table, On(calls, n)), Played(after, rest), n)
  {
    var c, rest := calls[0], On(calls[1..], n);
    if c.name == n {
      assert On(calls, n) == [c] + rest && ([c] + rest)[1..] == rest;
    } else {
      assert On(calls, n) == rest;
      OnlyOn(calls[1..], n);
      SameOnName(table, Called(table, c.name, c.lock), rest, n);
    }
  }

  /** Name by name, the calls on that name alone would all return. */
  ghost predicate EachReturns(table: map<string, bool>, calls: seq<Call>) {
    forall n :: AllReturn(table, On(calls, n))
  }

  /**
    Names are independent: all the calls return if and only if, name by name, the calls on
    that name alone would, and then each name ends as its own calls leave it.
   */
  lemma {:induction false} NamesAreIndependent(table: map<string, bool>, calls: seq<Call>)
    ensures AllReturn(table, calls) <==> EachReturns(table, calls)
    ensures AllReturn(table, calls) ==> forall n :: Same(Played(table, calls), Played(table, On(calls, n)), n)
    decreases |calls|
  {
    if calls != [] {
      var c := calls[0];
      var after := Called(table, c.name, c.lock);
      NamesAreIndependent(after, calls[1..]);
      forall n
        ensures AllReturn(table, On(calls, n)) <==>
          (c.name == n ==> Returns(table, c)) && AllReturn(after, On(calls[1..], n))
        ensures Returns(table, c) ==> Same(Played(table, On(calls, n)), Played(after, On(calls[1..], n)), n)
      {
        FirstOn(table, calls, n);
      }
      if EachReturns(table, calls) {
        assert AllReturn(table, On(calls, c.name));
        forall n ensures AllReturn(after, On(calls[1..], n)) {
          assert AllReturn(table, On(calls, n));
        }
      }
      if Returns(table, c) && EachReturns(after, calls[1..]) {
        forall n ensures AllReturn(table, On(calls, n)) {
          assert AllReturn(after, On(calls[1..], n));
        }
      }
    }
  }

  /** A store has an entry for exactly the names called, whatever is locked, unlocked or locked again. */
  lemma {:induction false} EntriesAreTheCalled(table: map<string, bool>, calls: seq<Call>)
    requires AllReturn(table, calls)
    ensures Played(table, calls).Keys == table.Keys + set c | c in calls :: c.name
    decreases |calls|
  {
    if calls != [] {
      EntriesAreTheCalled(Called(table, calls[0].name, calls[0].lock), calls[1..]);
      assert calls == [calls[0]] + calls[1..];
    }
  }

  // ---------- the class and the protocol agree ----------

  /** The table of one store in a state of the protocol. */
  ghost function TableOf(s: Protocol.State, store: nat): map<string, bool>
    requires Protocol.EntriesOk(s)
  {
    if store !in s.stores then map[]
    else map n | n in s.stores[store] :: LockedAt(s, Protocol.Key(store, n))
  }

  ghost predicate LockedAt(s: Protocol.State, k: Protocol.Key) {
    Protocol.HasEntry(s, k) && Protocol.Entry(s, k) < |s.mutexes| && s.mutexes[Protocol.Entry(s, k)]
  }

  /** What one protocol step does to one name. */
  lemma StepKey(s: Protocol.State, t: nat, k: Protocol.Key)
    requires Protocol.Inv(s) && Protocol.Enabled(s, t)
    ensures var s', pc := Protocol.Step(s, t), s.threads[t].pc;
      && (Protocol.HasEntry(s', k) <==> Protocol.HasEntry(s, k) || (pc.AtFind? && pc.op.key == k))
      && (LockedAt(s', k) <==> if pc.AtMutex? && pc.op.key == k then pc.op.Lock? else LockedAt(s, k))
  {
    assert Protocol.ThreadOk(s, t);
    Protocol.StepKeepsEntriesOk(s, t);
    Protocol.EntriesOnlyGrow(s, t, k);
  }

  /** A thread's step acts on a store's table as the class does on its own. */
  function Acted(pc: Protocol.Pc, store: nat, table: map<string, bool>): map<string, bool> {
    if pc.AtFind? && pc.op.key.store == store then Fetched(table, pc.op.key.name)
    else if pc.AtMutex? && pc.op.key.store == store then Called(table, pc.op.key.name, pc.op.Lock?)
    else table
  }

  lemma StepTableAt(s: Protocol.State, t: nat, store: nat, n: string)
    requires Protocol.Inv(s) && Protocol.Enabled(s, t) && Protocol.EntriesOk(Protocol.Step(s, t))
    ensures var got, want := TableOf(Protocol.Step(s, t), store), Acted(s.threads[t].pc, store, TableOf(s, store));
      (n in got <==> n in want) && (n in got ==> got[n] == want[n])
  {
    var k, pc := Protocol.Key(store, n), s.threads[t].pc;
    StepKey(s, t, k);
    assert Protocol.ThreadOk(s, t);
    assert Protocol.HasEntry(s, k) <==> n in TableOf(s, store);
    assert Protocol.HasEntry(Protocol.Step(s, t), k) <==> n in TableOf(Protocol.Step(s, t), store);
    assert !pc.Idle? ==> (pc.op.key == k <==> pc.op.key.store == store && pc.op.key.name == n);
  }

  lemma StepTable(s: Protocol.State, t: nat, store: nat)
    requires Protocol.Inv(s) && Protocol.Enabled(s, t) && Protocol.EntriesOk(Protocol.Step(s, t))
    ensures TableOf(Protocol.Step(s, t), store) == Acted(s.threads[t].pc, store, TableOf(s, store))
  {
    var got, want := TableOf(Protocol.Step(s, t), store), Acted(s.threads[t].pc, store, TableOf(s, store));
    forall n ensures (n in got <==> n in want) && (n in got ==> got[n] == want[n]) {
      StepTableAt(s, t, store, n);
    }
    SameMap(got, want);
  }

  lemma SameMap(m: map<string, bool>, m': map<string, bool>)
    requires forall n :: (n in m <==> n in m') && (n in m ==> m[n] == m'[n])
    ensures m == m'
  {
    assert m.Keys == m'.Keys;
  }

  /** The table of the store after a whole run, one thread's calls and everybody else's alike. */
  function Replayed(s: Protocol.State, sched: seq<nat>, store: nat, table: map<string, bool>): map<string, bool>
    requires Protocol.Legal(s, sched)
    decreases |sched|
  {
    if sched == [] then table
    else Replayed(Protocol.Step(s, sched[0]), sched[1..], store, Acted(s.threads[sched[0]].pc, store, table))
  }

  /** In every interleaving a store ends as the class would, fed the same steps in the same order. */
  lemma {:induction false} RunTable(s: Protocol.State, sched: seq<nat>, store: nat)
    requires Protocol.Inv(s) && Protocol.Legal(s, sched)
    ensures Protocol.Inv(Protocol.Exec(s, sched))
    ensures TableOf(Protocol.Exec(s, sched), store) == Replayed(s, sched, store, TableOf(s, store))
    decreases |sched|
  {
    if sched != [] {
      Protocol.StepKeepsInv(s, sched[0]);
      StepTable(s, sched[0], store);
      RunTable(Protocol.Step(s, sched[0]), sched[1..], store);
    }
  }
}
