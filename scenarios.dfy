/**
 Clients of the cache. Each method runs a fresh cache through a sequence of
 calls and states, from the cache's contracts alone, what the calls return
 and what the listeners are told.
 */
module Scenarios {
  import opened Wrappers
  import opened CacheEvents
  import opened PortalCache

  /** One call a client makes on the cache, with notification on. */
  datatype Op<K, V> =
    | Put(key: K, value: V)
    | PutIfAbsent(key: K, value: V)
    | Remove(key: K)
    | RemoveIfEqual(key: K, value: V)
    | Replace(key: K, value: V)
    | ReplaceIfEqual(key: K, expected: V, replacement: V)
    | Clear

  /**
   A listener registered on an empty cache that applies every callback it
   receives to its own copy keeps an exact copy of the cache, whatever
   sequence of non-quiet operations the cache goes through: a first insert,
   an update, a removal (with the removed value) and a bulk removal are each
   announced exactly when they happen.
   */
  method MirrorByListener<K(==), V(==), L(==)>(ops: seq<Op<K, V>>, x: L) returns (copy: map<K, V>, contents: map<K, V>)
    ensures copy == contents
  {
    var c := new MemoryPortalCache<K, V, L>("mirror", 16);
    c.RegisterCacheListener(x);
    var i := 0;
    while i < |ops|
      invariant 0 <= i <= |ops|
      invariant !c.destroyed && c.Valid() && x in c.listeners
      invariant Replay(map[], Received(c.notifications, x)) == c.store
    {
      ghost var before := c.notifications;
      ghost var was := c.store;
      ghost var signal: Signal<K, V> := AllRemoved;
      ghost var notified := true;
      match ops[i] {
        case Put(k, v) =>
          c.Put(k, v, 0, false);
          signal := Entry(if k in was then EntryUpdated else EntryPut, k, v);
        case PutIfAbsent(k, v) =>
          var r := c.PutIfAbsent(k, v, 0);
          signal, notified := Entry(EntryPut, k, v), r.None?;
        case Remove(k) =>
          c.Remove(k);
          notified := k in was;
          if notified {
            signal := Entry(EntryRemoved, k, was[k]);
          }
        case RemoveIfEqual(k, v) =>
          var removed := c.RemoveIfEqual(k, v);
          signal, notified := Entry(EntryRemoved, k, v), removed;
        case Replace(k, v) =>
          var r := c.Replace(k, v, 0);
          signal, notified := Entry(EntryUpdated, k, v), r.Some?;
        case ReplaceIfEqual(k, e, v) =>
          var replaced := c.ReplaceIfEqual(k, e, v, 0);
          signal, notified := Entry(EntryUpdated, k, v), replaced;
        case Clear =>
          c.RemoveAll();
      }
      if notified {
        ExtendsReceived(before, c.notifications, c.listeners, signal, x);
        ghost var got := Received(c.notifications, x);
        assert got[..|got| - 1] == Received(before, x);
      }
      i := i + 1;
    }
    copy := Replay(map[], Received(c.notifications, x));
    contents := c.store;
  }

  /**
   A listener registered before a put, an overwrite and a removal of one key
   receives a first insert, an update and a removal carrying the last value,
   in that order; the key is then absent.
   */
  method PutUpdateRemove<K(==), V(==), L(==)>(k: K, v1: V, v2: V, x: L) returns (received: seq<Signal<K, V>>, last: Option<V>)
    ensures received == [Entry(EntryPut, k, v1), Entry(EntryUpdated, k, v2), Entry(EntryRemoved, k, v2)]
    ensures last == None
  {
    var c := new MemoryPortalCache<K, V, L>("scenario", 16);
    c.RegisterCacheListener(x);
    var n0 := c.notifications;
    c.Put(k, v1, 0, false);
    ExtendsReceived(n0, c.notifications, c.listeners, Entry(EntryPut, k, v1), x);
    var n1 := c.notifications;
    c.Put(k, v2, 0, false);
    ExtendsReceived(n1, c.notifications, c.listeners, Entry(EntryUpdated, k, v2), x);
    var n2 := c.notifications;
    c.Remove(k);
    ExtendsReceived(n2, c.notifications, c.listeners, Entry(EntryRemoved, k, v2), x);
    received := Received(c.notifications, x);
    last := c.Get(k);
  }

  /** A second putIfAbsent of a key returns the first value and leaves it stored. */
  method PutIfAbsentTwice<K(==), V(==), L(==)>(k: K, v1: V, v2: V) returns (first: Option<V>, second: Option<V>, stored: Option<V>)
    ensures first == None && second == Some(v1) && stored == Some(v1)
  {
    var c := new MemoryPortalCache<K, V, L>("scenario", 16);
    first := c.PutIfAbsent(k, v1, 0);
    second := c.PutIfAbsent(k, v2, 0);
    stored := c.Get(k);
  }

  /**
   Of two compare-and-swaps from the same expected value, the first one wins
   and the second sees a value other than the one it expected.
   */
  method CompetingReplace<K(==), V(==), L(==)>(k: K, v0: V, v1: V, v2: V) returns (won1: bool, won2: bool, stored: Option<V>)
    requires v1 != v0
    ensures won1 && !won2 && stored == Some(v1)
  {
    var c := new MemoryPortalCache<K, V, L>("scenario", 16);
    c.Put(k, v0, 0, true);
    won1 := c.ReplaceIfEqual(k, v0, v1, 0);
    won2 := c.ReplaceIfEqual(k, v0, v2, 0);
    stored := c.Get(k);
  }

  /** A quiet put stores its value and calls no listener. */
  method QuietPut<K(==), V(==), L(==)>(k: K, v: V, x: L) returns (calls: nat, stored: Option<V>)
    ensures calls == 0 && stored == Some(v)
  {
    var c := new MemoryPortalCache<K, V, L>("scenario", 16);
    c.RegisterCacheListener(x);
    var before := |c.notifications|;
    c.Put(k, v, 0, true);
    calls := |c.notifications| - before;
    stored := c.Get(k);
  }

  /**
   Clearing a cache that holds any entries calls each registered listener
   once, not once per entry, and leaves every key absent.
   */
  method RemoveAllOncePerListener<K(==), V(==), L(==)>(entries: seq<(K, V)>, ls: seq<L>) returns (calls: nat, left: map<K, V>)
    ensures calls == |set l | l in ls|
    ensures left == map[]
  {
    var c := new MemoryPortalCache<K, V, L>("scenario", 16);
    for i := 0 to |ls|
      invariant !c.destroyed && c.Valid()
      invariant c.listeners == set l | l in ls[..i]
    {
      c.RegisterCacheListener(ls[i]);
      assert ls[..i + 1] == ls[..i] + [ls[i]];
    }
    for i := 0 to |entries|
      invariant !c.destroyed && c.Valid()
      invariant c.listeners == set l | l in ls[..|ls|]
    {
      c.Put(entries[i].0, entries[i].1, 0, false);
    }
    assert ls[..|ls|] == ls;
    var before := |c.notifications|;
    c.RemoveAll();
    calls := |c.notifications| - before;
    left := c.store;
  }
}
