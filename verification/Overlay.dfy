/** Contract state: a cached store, and per-contract overlays of changes that are flushed into it. */
module Overlay {
  import opened Basics
  import opened Tokens

  datatype Entry = Changed(value: Value) | Deleted

  type Changes = map<StateKey, Entry>

  /** The outcome of a read: the entry, if there is one, or an error of the database. */
  datatype Read = Got(value: Option<Value>) | Failed

  /** The state as seen through the changes. */
  function Overlaid(s: State, m: Changes): State {
    map k | k in s.Keys + m.Keys && !(k in m && m[k].Deleted?) :: if k in m then m[k].value else s[k]
  }

  lemma OverlaidNothing(s: State)
    ensures Overlaid(s, map[]) == s
  {
  }

  lemma OverlaidPut(s: State, m: Changes, k: StateKey, v: Value)
    ensures Overlaid(s, m[k := Changed(v)]) == Overlaid(s, m)[k := v]
  {
  }

  lemma OverlaidDelete(s: State, m: Changes, k: StateKey)
    ensures Overlaid(s, m[k := Deleted]) == Overlaid(s, m) - {k}
  {
  }

  // ---------- Flushing ----------

  datatype Item = Item(key: StateKey, entry: Entry)

  /** The changes a list of items makes; a later item for a key replaces an earlier one. */
  function ChangesOf(items: seq<Item>): Changes {
    if items == [] then map[]
    else ChangesOf(items[..|items| - 1])[items[|items| - 1].key := items[|items| - 1].entry]
  }

  lemma {:induction false} ChangesJoin(a: seq<Item>, b: seq<Item>)
    ensures ChangesOf(a + b) == ChangesOf(a) + ChangesOf(b)
    decreases |b|
  {
    if b == [] {
      assert a + b == a;
    } else {
      var k := |b| - 1;
      assert (a + b)[..|a + b| - 1] == a + b[..k];
      ChangesJoin(a, b[..k]);
    }
  }

  lemma ChangesSnoc(a: seq<Item>, x: Item)
    ensures ChangesOf(a + [x]) == ChangesOf(a)[x.key := x.entry]
  {
    assert (a + [x])[..|a|] == a;
  }

  /** The state store: a database behind a cache that may drop entries at any time. */
  class Store {
    var db: State
    var cache: State

    /** A cached value is the stored one. */
    ghost predicate Coherent()
      reads this
    {
      forall k :: k in cache ==> k in db && db[k] == cache[k]
    }

    constructor (s: State)
      ensures db == s && Coherent()
    {
      db, cache := s, map[];
    }

    /** Reads through the cache; `fails` says whether the database would answer with an error. */
    method GetState(k: StateKey, fails: bool) returns (v: Read)
      requires Coherent()
      ensures v == if k !in cache && fails then Failed else Got(Lookup(db, k))
    {
      if k in cache {
        return Got(Some(cache[k]));
      }
      v := if fails then Failed else Got(Lookup(db, k));
    }

    method SetState(k: StateKey, v: Value)
      requires Coherent()
      modifies this
      ensures Coherent() && db == old(db)[k := v]
    {
      var evicted: set<StateKey> := *;
      cache := cache[k := v] - evicted;
      db := db[k := v];
    }

    method DeleteState(k: StateKey)
      requires Coherent()
      modifies this
      ensures Coherent() && db == old(db) - {k}
    {
      cache := cache - {k};
      db := db - {k};
    }

    /** Writes the items one after the other. */
    method SetContractState(items: seq<Item>)
      requires Coherent()
      modifies this
      ensures Coherent() && db == Overlaid(old(db), ChangesOf(items))
    {
      OverlaidNothing(db);
      for i := 0 to |items|
        invariant Coherent() && db == Overlaid(old(db), ChangesOf(items[..i]))
      {
        var x := items[i];
        assert items[..i + 1] == items[..i] + [x];
        ChangesSnoc(items[..i], x);
        if x.entry.Deleted? {
          OverlaidDelete(old(db), ChangesOf(items[..i]), x.key);
          DeleteState(x.key);
        } else {
          OverlaidPut(old(db), ChangesOf(items[..i]), x.key, x.entry.value);
          SetState(x.key, x.entry.value);
        }
      }
      assert items[..|items|] == items;
    }
  }

  /** The changes of one overlay, shared by whoever holds the reference. */
  class Memory {
    var entries: Changes

    constructor ()
      ensures entries == map[]
    {
      entries := map[];
    }
  }

  /** What a contract sees of the state while it runs. */
  class ContractApi {
    const chain: Chain
    const store: Store
    var memory: Memory
    var from: Address
    /** The entries the database fails to read at present. */
    var broken: set<StateKey>

    ghost predicate Valid()
      reads this, memory, store
    {
      store.Coherent() && forall k :: k in memory.entries ==> k.chain == chain
    }

    ghost function View(): State
      reads this, memory, store
    {
      Overlaid(store.db, memory.entries)
    }

    /** The entries a contract fails to read: those that are neither changed nor cached. */
    ghost function Failing(): set<StateKey>
      reads this, memory, store
    {
      broken - memory.entries.Keys - store.cache.Keys
    }

    constructor (c: Chain, st: Store, a: Address)
      requires st.Coherent()
      ensures Valid() && chain == c && store == st && fresh(memory) && memory.entries == map[]
    {
      chain, store, from, broken := c, st, a, {};
      memory := new Memory();
    }

    /** The snapshot is the live change set, not a copy. */
    method GetSnapshot() returns (m: Memory)
      ensures m == memory
    {
      m := memory;
    }

    method SnapshotRestore(m: Memory)
      modifies `memory
      ensures memory == m
    {
      memory := m;
    }

    method GetState(key: Key) returns (v: Read)
      requires Valid()
      ensures v == if StateKey(chain, key) in Failing() then Failed else Got(Lookup(View(), StateKey(chain, key)))
    {
      var k := StateKey(chain, key);
      if k in memory.entries && memory.entries[k].Deleted? {
        return Got(None);
      }
      if k in memory.entries {
        return Got(Some(memory.entries[k].value));
      }
      v := store.GetState(k, k in broken);
    }

    method PutState(key: Key, v: Value)
      requires Valid()
      modifies memory
      ensures Valid() && View() == old(View())[StateKey(chain, key) := v]
      ensures Failing() == old(Failing()) - {StateKey(chain, key)}
    {
      OverlaidPut(store.db, memory.entries, StateKey(chain, key), v);
      memory.entries := memory.entries[StateKey(chain, key) := Changed(v)];
    }

    method DelState(key: Key)
      requires Valid()
      modifies memory
      ensures Valid() && View() == old(View()) - {StateKey(chain, key)}
      ensures Failing() == old(Failing()) - {StateKey(chain, key)}
    {
      OverlaidDelete(store.db, memory.entries, StateKey(chain, key));
      memory.entries := memory.entries[StateKey(chain, key) := Deleted];
    }

    /** All changes, in whatever order the map yields them. */
    method GetAllState() returns (items: seq<Item>)
      ensures ChangesOf(items) == memory.entries
    {
      items := [];
      var left := memory.entries.Keys;
      while left != {}
        invariant left <= memory.entries.Keys
        invariant ChangesOf(items) == map k | k in memory.entries && k !in left :: memory.entries[k]
        decreases |left|
      {
        var k :| k in left;
        ChangesSnoc(items, Item(k, memory.entries[k]));
        items := items + [Item(k, memory.entries[k])];
        left := left - {k};
      }
    }
  }
}
