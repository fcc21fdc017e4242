# MemoryPortalCache, modelled in Dafny

Liferay's `MemoryPortalCache` is the in-memory backend of the portal cache. It is a
concurrent hash map from keys to values plus a set of registered cache listeners.
An operation that changes the map does so in place. Unless it is a quiet put, it then
calls each registered listener once. The callback depends on what the operation found:

- `notifyEntryPut` on a first insert;
- `notifyEntryUpdated` on an overwrite or a replace;
- `notifyEntryRemoved` on a removal, with the removed value;
- `notifyRemoveAll` once per listener for a bulk clear.

`putIfAbsent`, the conditional `remove` and both `replace` operations take effect only
when the current mapping is what they expect. When they do not take effect, nobody is
called. Nobody is called when an absent key is removed either. Registering and
unregistering listeners change only the listener set.

The model has four modules:

- `Wrappers` (`wrappers.dfy`): `Option`, which stands for Java's `null` return meaning "absent".
- `CacheEvents` (`cache_events.dfy`) covers callbacks. A listener is an opaque identity. One
  callback is an `Event(listener, signal)`. `Fanout` says what "every registered listener
  exactly once, in an unspecified order" means, since a hash set's iteration order is not
  fixed. `Received` is what one listener sees. `Replay` is the copy a listener could rebuild
  from what it received. The lemmas here turn a fan-out into per-listener facts.
- `PortalCache` (`portal_cache.dfy`) holds the class `MemoryPortalCache`. Its fields are the
  map (`store`), the listener set (`listeners`), the name, a `destroyed` flag, and
  `notifications`, the record of every callback made, in order. A ghost field `snapshots`
  holds, for each callback, the map the listener could read through the cache at that moment.
  Each Java method is a Dafny method. Its `modifies` clause names the fields it changes. Its
  `ensures` clauses give the new map and the callbacks appended. They also say that every
  callback the call made saw the new map, so a listener is called after the change it hears
  of. The five `for` loops over the listeners in the source (in `removeAll`, in both
  `doRemove`s, and twice in `notifyPutEvents`) are one loop, in `NotifyAll`.
- `Scenarios` (`scenarios.dfy`) holds clients that run a fresh cache through calls and prove
  what the listeners receive. `MirrorByListener` proves that a listener that applies what it
  receives keeps an exact copy of the map, for any sequence of non-quiet operations.

Java overloads get distinct names: `remove(key, value)` is `RemoveIfEqual`,
`replace(key, oldValue, newValue)` is `ReplaceIfEqual`, and the two-argument
`registerCacheListener` is `RegisterScopedCacheListener`. Java `equals` on values is Dafny `==`.

## Model

| member | source | states |
|---|---|---|
| `PortalCache.MemoryPortalCache.constructor` | portal-impl/src/com/liferay/portal/cache/memory/MemoryPortalCache.java:36-39 | a new cache has the given name, an empty map, no listeners and has made no callbacks |
| `PortalCache.MemoryPortalCache.GetName` | portal-impl/src/com/liferay/portal/cache/memory/MemoryPortalCache.java:49-52 | returns the name while the cache is live, and nothing once it is destroyed (the name field is nulled) |
| `PortalCache.MemoryPortalCache.Get` | portal-impl/src/com/liferay/portal/cache/memory/MemoryPortalCache.java:86-89 | returns a value exactly when the key is mapped, and then the mapped value |
| `PortalCache.MemoryPortalCache.NotifyAll` | portal-impl/src/com/liferay/portal/cache/memory/MemoryPortalCache.java:71-166 | the loop over the listeners (each of the five in the source) appends one fan-out of the signal: each registered listener called exactly once, and no other listener; the record grows by the number of listeners; each callback sees the current map; not callable after destroy |
| `PortalCache.MemoryPortalCache.NotifyPutEvents` | portal-impl/src/com/liferay/portal/cache/memory/MemoryPortalCache.java:157-168 | every listener gets one `entryUpdated` when `updated`, else one `entryPut`, with the key and value, and sees the current map; not callable after destroy |
| `PortalCache.MemoryPortalCache.Put` | portal-impl/src/com/liferay/portal/cache/memory/MemoryPortalCache.java:91-98 | the key maps to the value and no other key changes, and every callback made sees that new map; when not quiet each listener gets `entryUpdated` if the key was mapped before, else `entryPut`; when quiet no callback is made |
| `PortalCache.MemoryPortalCache.PutIfAbsent` | portal-impl/src/com/liferay/portal/cache/memory/MemoryPortalCache.java:100-109 | absent key: stores the value, returns absent, each listener gets `entryPut` (never `entryUpdated`); present key: returns the existing value, map and callbacks unchanged; every callback made sees the new map |
| `PortalCache.MemoryPortalCache.Remove` | portal-impl/src/com/liferay/portal/cache/memory/MemoryPortalCache.java:111-120 | the key is unmapped; if it was mapped to v0 each listener gets `entryRemoved(key, v0)`; if it was absent no callback is made; every callback made sees the new map |
| `PortalCache.MemoryPortalCache.RemoveIfEqual` | portal-impl/src/com/liferay/portal/cache/memory/MemoryPortalCache.java:122-133 | returns true iff the key mapped to a value equal to the given one; on true the key is gone and each listener gets `entryRemoved(key, value)`; on false map and callbacks are unchanged; every callback made sees the new map |
| `PortalCache.MemoryPortalCache.Replace` | portal-impl/src/com/liferay/portal/cache/memory/MemoryPortalCache.java:135-144 | mapped key: returns the old value, stores the new one, each listener gets `entryUpdated(key, value)`; absent key: returns absent, inserts nothing, no callback; every callback made sees the new map |
| `PortalCache.MemoryPortalCache.ReplaceIfEqual` | portal-impl/src/com/liferay/portal/cache/memory/MemoryPortalCache.java:146-155 | returns true iff the key mapped to a value equal to the expected one; on true the key maps to the new value and each listener gets `entryUpdated(key, newValue)`; on false nothing changes; every callback made sees the new map |
| `PortalCache.MemoryPortalCache.RemoveAll` | portal-impl/src/com/liferay/portal/cache/memory/MemoryPortalCache.java:67-74 | the map is empty and each listener gets exactly one `notifyRemoveAll`, so the record grows by the number of listeners whatever the number of entries; every callback made sees the new map |
| `PortalCache.MemoryPortalCache.RegisterCacheListener` | portal-impl/src/com/liferay/portal/cache/memory/MemoryPortalCache.java:54-57 | the listener set gains the listener (idempotent set insertion); the map and callbacks are untouched |
| `PortalCache.MemoryPortalCache.RegisterScopedCacheListener` | portal-impl/src/com/liferay/portal/cache/memory/MemoryPortalCache.java:59-65 | same effect as the one-argument registration; the scope has no effect |
| `PortalCache.MemoryPortalCache.UnregisterCacheListener` | portal-impl/src/com/liferay/portal/cache/memory/MemoryPortalCache.java:76-79 | only the given listener is removed from the set |
| `PortalCache.MemoryPortalCache.UnregisterCacheListeners` | portal-impl/src/com/liferay/portal/cache/memory/MemoryPortalCache.java:81-84 | the listener set is empty; the map is untouched |
| `PortalCache.MemoryPortalCache.Destroy` | portal-impl/src/com/liferay/portal/cache/memory/MemoryPortalCache.java:41-47 | first the bulk removal: empty map, one `notifyRemoveAll` to each listener registered before; then no listeners and the cache is terminal; every callback made sees the new map |
| `CacheEvents.FanoutExtend` | portal-impl/src/com/liferay/portal/cache/memory/MemoryPortalCache.java:71-166 | one step of any of the five listener loops: calling a listener not yet called extends a fan-out to that listener |
| `CacheEvents.FanoutSize` | portal-impl/src/com/liferay/portal/cache/memory/MemoryPortalCache.java:71-166 | in each of the five listener loops (71-73, 116-118, 127-129, 159-161, 164-166), a fan-out makes exactly as many calls as there are registered listeners |
| `CacheEvents.FanoutReceived` | portal-impl/src/com/liferay/portal/cache/memory/MemoryPortalCache.java:71-166 | for each of the five listener loops, seen from one listener a fan-out is one call: a registered listener receives the signal exactly once, any other listener nothing |
| `CacheEvents.ExtendsReceived` | portal-impl/src/com/liferay/portal/cache/memory/MemoryPortalCache.java:157-168 | after a fan-out each registered listener has received exactly the new signal on top of what it had before; others have received nothing new |
| `CacheEvents.ReceivedAppend` | portal-impl/src/com/liferay/portal/cache/memory/MemoryPortalCache.java:157-168 | what one listener receives over two consecutive stretches of callbacks is what it receives in each, in order |
| `CacheEvents.FanoutMultiset` | portal-impl/src/com/liferay/portal/cache/memory/MemoryPortalCache.java:71-166 | for each of the five listener loops, a fan-out contains each (registered listener, signal) call exactly once and no other call |
| `CacheEvents.FanoutPermutation` | portal-impl/src/com/liferay/portal/cache/memory/MemoryPortalCache.java:71-166 | for each of the five listener loops, two fan-outs of one signal to one listener set differ only in order, so the set's unspecified iteration order is the only freedom |
| `Scenarios.MirrorByListener` | portal-impl/src/com/liferay/portal/cache/memory/MemoryPortalCache.java:91-168 | a listener registered on an empty cache that applies each callback to its own copy (put/update: store, removed: unmap, removeAll: clear) ends with exactly the cache's map, for every sequence of non-quiet operations |
| `Scenarios.PutUpdateRemove` | portal-impl/src/com/liferay/portal/cache/memory/MemoryPortalCache.java:91-120 | put, overwrite and remove of one key give the listener `entryPut(k, v1)`, `entryUpdated(k, v2)`, `entryRemoved(k, v2)` in that order, and the key is then absent |
| `Scenarios.PutIfAbsentTwice` | portal-impl/src/com/liferay/portal/cache/memory/MemoryPortalCache.java:100-109 | the first putIfAbsent returns absent; the second returns the first value, which stays stored |
| `Scenarios.CompetingReplace` | portal-impl/src/com/liferay/portal/cache/memory/MemoryPortalCache.java:146-155 | two compare-and-swaps from the same expected value: the first succeeds, the second fails, the first's value is stored |
| `Scenarios.QuietPut` | portal-impl/src/com/liferay/portal/cache/memory/MemoryPortalCache.java:91-98 | a quiet put makes no callback and its value is stored |
| `Scenarios.RemoveAllOncePerListener` | portal-impl/src/com/liferay/portal/cache/memory/MemoryPortalCache.java:67-74 | clearing a cache with any entries makes one callback per distinct registered listener and leaves the map empty |

## Left out

- Concurrency is not modelled. `ConcurrentHashMap` and `ConcurrentHashSet` are thread-safe, and registration can interleave with notification. Each operation is modelled as one atomic step, which matches the per-key atomicity the concurrent map provides.
- The `timeToLive` argument is kept but never read, as in the source.
- `AbstractPortalCache` is not part of this model. Its public wrappers, which do the null checks and delegate to the `do*` methods, are not covered. Keys and values are never null, so a Java `null` return becomes `None`.
- The bodies of `CacheListener` implementations are not modelled. A listener is an identity, and each callback is recorded in `notifications`. The `this` cache argument of every callback is not passed. What a listener could read through it is recorded in `snapshots`, which holds the map, not the name or the listener set.
- A listener that throws would abort the notification loop partway. The model assumes listeners return normally.
- The character-encoding integration test is an HTTP and charset round trip with no cache logic, so it is not modelled.
- Destroy: the source nulls the map, the listener set and the name. The model sets a terminal `destroyed` flag instead. Every other operation `requires !destroyed`, because in the source a call after destroy dereferences null. `GetName` is the one exception: after destroy it returns nothing, as the nulled name does.
- constructor: a negative `initialCapacity` makes `ConcurrentHashMap` throw `IllegalArgumentException`. The model requires a non-negative hint instead of modelling the exception.
