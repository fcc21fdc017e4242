/**
 The in-memory portal cache: a key/value table and a set of registered
 listeners. An operation that changes the table does so in place and then,
 unless it is a quiet put, calls every registered listener once, with a
 callback whose kind depends on what the operation found in the table. An
 operation that finds nothing to change (a conditional operation whose
 condition fails, a removal of an absent key) calls nobody; registration
 changes only the listener set.

 Concurrency is not modelled: each operation is one atomic step, as the
 per-key atomicity of the underlying concurrent map provides.
 */
module PortalCache {
  import opened Wrappers
  import opened CacheEvents

  class MemoryPortalCache<K(==), V(==), L(==)> {
    /** The cache's name, fixed at construction. */
    var name: string
    /** The concurrent map's contents. Java's null values are not admitted, so a key is mapped or absent. */
    var store: map<K, V>
    /** The registered listeners; a set, so registering twice has no effect. */
    var listeners: set<L>
    /** Every listener callback made so far, in the order made. */
    var notifications: seq<Event<L, K, V>>
    /** Set by Destroy, after which the cache may not be used. */
    var destroyed: bool
    /** For each callback in `notifications`, the table the listener could read through the cache at that moment. */
    ghost var snapshots: seq<map<K, V>>

    /** Every callback made has its snapshot. */
    ghost predicate Valid()
      reads this`notifications, this`snapshots
    {
      |snapshots| == |notifications|
    }

    /**
     The snapshots so far are `before` followed by the current table: every
     callback made since the record had `|before|` entries found the table as
     it is now, so each listener is called after the change it hears of.
     */
    ghost predicate SawNewTable(before: seq<map<K, V>>)
      reads this`snapshots, this`store
    {
      && |before| <= |snapshots|
      && snapshots[..|before|] == before
      && forall i :: |before| <= i < |snapshots| ==> snapshots[i] == store
    }

    /** A new, empty cache. The capacity hint sizes the Java map and has no observable effect. */
    constructor (name: string, initialCapacity: int)
      requires 0 <= initialCapacity
      ensures this.name == name && store == map[] && listeners == {}
      ensures notifications == [] && !destroyed && Valid()
    {
      this.name := name;
      store := map[];
      listeners := {};
      notifications := [];
      destroyed := false;
      snapshots := [];
    }

    /** The cache's name; none once the cache has been destroyed. */
    method GetName() returns (r: Option<string>)
      ensures r.None? <==> destroyed
      ensures r.Some? ==> r.value == name
    {
      r := if destroyed then None else Some(name);
    }

    /** The value `key` maps to, or none when the key is absent. */
    method Get(key: K) returns (r: Option<V>)
      requires !destroyed
      ensures r.Some? <==> key in store
      ensures r.Some? ==> r.value == store[key]
    {
      r := if key in store then Some(store[key]) else None;
    }

    /** Calls every registered listener once with `signal`, in an unspecified order. */
    method NotifyAll(signal: Signal<K, V>)
      requires !destroyed && Valid()
      modifies this`notifications, this`snapshots
      ensures Valid() && SawNewTable(old(snapshots))
      ensures Extends(old(notifications), notifications, listeners, signal)
      ensures |notifications| == |old(notifications)| + |listeners|
    {
      var pending := listeners;
      ghost var sent: seq<Event<L, K, V>> := [];
      while pending != {}
        invariant pending <= listeners
        invariant notifications == old(notifications) + sent
        invariant Valid() && SawNewTable(old(snapshots))
        invariant Fanout(sent, listeners - pending, signal)
        decreases pending
      {
        var l :| l in pending;
        ghost var done := listeners - pending;
        FanoutExtend(sent, done, signal, l);
        notifications := notifications + [Event(l, signal)];
        snapshots := snapshots + [store];
        sent := sent + [Event(l, signal)];
        pending := pending - {l};
        assert listeners - pending == done + {l};
      }
      assert notifications[|old(notifications)|..] == sent;
      FanoutSize(sent, listeners, signal);
    }

    /** Tells every listener that `key` now maps to `value`: as an update when `updated`, else as a first insert. */
    method NotifyPutEvents(key: K, value: V, updated: bool)
      requires !destroyed && Valid()
      modifies this`notifications, this`snapshots
      ensures Valid() && SawNewTable(old(snapshots))
      ensures Extends(old(notifications), notifications, listeners,
                      Entry(if updated then EntryUpdated else EntryPut, key, value))
    {
      if updated {
        NotifyAll(Entry(EntryUpdated, key, value));
      } else {
        NotifyAll(Entry(EntryPut, key, value));
      }
    }

    /**
     Maps `key` to `value` whatever it mapped to before. Unless `quiet`, each
     listener hears of it once: as an update when the key was mapped, else as
     a first insert. The time to live is not used.
     */
    method Put(key: K, value: V, timeToLive: int, quiet: bool)
      requires !destroyed && Valid()
      modifies this`store, this`notifications, this`snapshots
      ensures Valid() && SawNewTable(old(snapshots))
      ensures store == old(store)[key := value]
      ensures quiet ==> notifications == old(notifications)
      ensures !quiet ==> Extends(old(notifications), notifications, listeners,
                                 Entry(if key in old(store) then EntryUpdated else EntryPut, key, value))
    {
      var oldValue := if key in store then Some(store[key]) else None;
      store := store[key := value];
      if !quiet {
        NotifyPutEvents(key, value, oldValue.Some?);
      }
    }

    /**
     Maps `key` to `value` only when the key is absent, and then tells each
     listener of a first insert. Returns what the key mapped to before; when
     it was mapped, nothing changes and nobody is called.
     */
    method PutIfAbsent(key: K, value: V, timeToLive: int) returns (oldValue: Option<V>)
      requires !destroyed && Valid()
      modifies this`store, this`notifications, this`snapshots
      ensures Valid() && SawNewTable(old(snapshots))
      ensures oldValue.Some? <==> key in old(store)
      ensures oldValue.Some? ==> oldValue.value == old(store)[key]
      ensures oldValue.Some? ==> store == old(store) && notifications == old(notifications)
      ensures oldValue.None? ==> store == old(store)[key := value]
      ensures oldValue.None? ==> Extends(old(notifications), notifications, listeners, Entry(EntryPut, key, value))
    {
      oldValue := if key in store then Some(store[key]) else None;
      if oldValue.None? {
        store := store[key := value];
        NotifyPutEvents(key, value, false);
      }
    }

    /** Removes `key`; when it was mapped, each listener is told of the removal and of the value removed. */
    method Remove(key: K)
      requires !destroyed && Valid()
      modifies this`store, this`notifications, this`snapshots
      ensures Valid() && SawNewTable(old(snapshots))
      ensures store == old(store) - {key}
      ensures key in old(store) ==> Extends(old(notifications), notifications, listeners,
                                            Entry(EntryRemoved, key, old(store)[key]))
      ensures key !in old(store) ==> notifications == old(notifications)
    {
      var value := if key in store then Some(store[key]) else None;
      store := store - {key};
      if value.Some? {
        NotifyAll(Entry(EntryRemoved, key, value.value));
      }
    }

    /**
     Removes `key` only when it maps to a value equal to `value`, and then
     tells each listener of the removal. Returns whether it removed.
     */
    method RemoveIfEqual(key: K, value: V) returns (removed: bool)
      requires !destroyed && Valid()
      modifies this`store, this`notifications, this`snapshots
      ensures Valid() && SawNewTable(old(snapshots))
      ensures removed <==> key in old(store) && old(store)[key] == value
      ensures removed ==> store == old(store) - {key}
      ensures removed ==> Extends(old(notifications), notifications, listeners, Entry(EntryRemoved, key, value))
      ensures !removed ==> store == old(store) && notifications == old(notifications)
    {
      removed := key in store && store[key] == value;
      if removed {
        store := store - {key};
        NotifyAll(Entry(EntryRemoved, key, value));
      }
    }

    /**
     Maps `key` to `value` only when the key is already mapped, and then tells
     each listener of an update. Returns what the key mapped to before; when
     it was absent, nothing is inserted and nobody is called.
     */
    method Replace(key: K, value: V, timeToLive: int) returns (oldValue: Option<V>)
      requires !destroyed && Valid()
      modifies this`store, this`notifications, this`snapshots
      ensures Valid() && SawNewTable(old(snapshots))
      ensures oldValue.Some? <==> key in old(store)
      ensures oldValue.Some? ==> oldValue.value == old(store)[key]
      ensures oldValue.Some? ==> store == old(store)[key := value]
      ensures oldValue.Some? ==> Extends(old(notifications), notifications, listeners, Entry(EntryUpdated, key, value))
      ensures oldValue.None? ==> store == old(store) && notifications == old(notifications)
    {
      oldValue := if key in store then Some(store[key]) else None;
      if oldValue.Some? {
        store := store[key := value];
        NotifyPutEvents(key, value, true);
      }
    }

    /**
     Maps `key` to `newValue` only when it maps to a value equal to
     `oldValue`, and then tells each listener of an update to `newValue`.
     Returns whether it replaced.
     */
    method ReplaceIfEqual(key: K, oldValue: V, newValue: V, timeToLive: int) returns (replaced: bool)
      requires !destroyed && Valid()
      modifies this`store, this`notifications, this`snapshots
      ensures Valid() && SawNewTable(old(snapshots))
      ensures replaced <==> key in old(store) && old(store)[key] == oldValue
      ensures replaced ==> store == old(store)[key := newValue]
      ensures replaced ==> Extends(old(notifications), notifications, listeners, Entry(EntryUpdated, key, newValue))
      ensures !replaced ==> store == old(store) && notifications == old(notifications)
    {
      replaced := key in store && store[key] == oldValue;
      if replaced {
        store := store[key := newValue];
        NotifyPutEvents(key, newValue, true);
      }
    }

    /** Empties the table, then calls each listener once with the bulk removal callback, however many entries there were. */
    method RemoveAll()
      requires !destroyed && Valid()
      modifies this`store, this`notifications, this`snapshots
      ensures Valid() && SawNewTable(old(snapshots))
      ensures store == map[]
      ensures Extends(old(notifications), notifications, listeners, AllRemoved)
      ensures |notifications| == |old(notifications)| + |listeners|
    {
      store := map[];
      NotifyAll(AllRemoved);
    }

    /** Adds `listener` to the listeners; no effect when it is registered already. */
    method RegisterCacheListener(listener: L)
      requires !destroyed
      modifies this`listeners
      ensures listeners == old(listeners) + {listener}
    {
      listeners := listeners + {listener};
    }

    /** Registers `listener` as RegisterCacheListener does; the scope is ignored. */
    method RegisterScopedCacheListener<S>(listener: L, scope: S)
      requires !destroyed
      modifies this`listeners
      ensures listeners == old(listeners) + {listener}
    {
      RegisterCacheListener(listener);
    }

    /** Removes `listener` from the listeners and leaves the others registered. */
    method UnregisterCacheListener(listener: L)
      requires !destroyed
      modifies this`listeners
      ensures listeners == old(listeners) - {listener}
    {
      listeners := listeners - {listener};
    }

    /** Removes every listener. */
    method UnregisterCacheListeners()
      requires !destroyed
      modifies this`listeners
      ensures listeners == {}
    {
      listeners := {};
    }

    /**
     Empties the table and tells the listeners so, as RemoveAll does; after
     that the cache holds no listeners and no entries and may not be used again.
     */
    method Destroy()
      requires !destroyed && Valid()
      modifies this`store, this`listeners, this`notifications, this`snapshots, this`destroyed
      ensures Valid() && SawNewTable(old(snapshots))
      ensures destroyed && store == map[] && listeners == {}
      ensures Extends(old(notifications), notifications, old(listeners), AllRemoved)
    {
      RemoveAll();
      listeners := {};
      destroyed := true;
    }
  }
}
