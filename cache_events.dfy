/**
 The notifications a cache sends to its listeners, and what it means for one
 mutation to notify "every registered listener exactly once".

 A listener is an opaque identity `L`. Every call the cache makes on a
 listener is recorded as an `Event(listener, signal)`; the cache's record of
 calls is a sequence of such events, in the order they were made.
 */
module CacheEvents {

  /** The three per-entry callbacks of a cache listener. */
  datatype Kind = EntryPut | EntryUpdated | EntryRemoved

  /** What one callback says: an entry callback with its key and value, or the bulk removal callback. */
  datatype Signal<K, V> = Entry(kind: Kind, key: K, value: V) | AllRemoved

  /** One callback made on one listener. */
  datatype Event<L, K, V> = Event(listener: L, signal: Signal<K, V>)

  /** The listeners that occur in a record of calls. */
  function Recipients<L(==), K(==), V(==)>(ev: seq<Event<L, K, V>>): set<L>
  {
    set i | 0 <= i < |ev| :: ev[i].listener
  }

  /** No listener is called twice. */
  predicate DistinctRecipients<L(==), K(==), V(==)>(ev: seq<Event<L, K, V>>)
  {
    forall i, j :: 0 <= i < j < |ev| ==> ev[i].listener != ev[j].listener
  }

  /**
   `ev` is one fan-out of `signal` to the listener set `ls`: each call carries
   `signal`, each listener of `ls` is called, and no listener is called twice.
   The order of the calls is left open, as the iteration order of a hash set is.
   */
  predicate Fanout<L(==), K(==), V(==)>(ev: seq<Event<L, K, V>>, ls: set<L>, signal: Signal<K, V>)
  {
    && (forall i :: 0 <= i < |ev| ==> ev[i].signal == signal)
    && DistinctRecipients(ev)
    && Recipients(ev) == ls
  }

  /** The record `after` is the record `before` followed by one fan-out of `signal` to `ls`. */
  predicate Extends<L(==), K(==), V(==)>(before: seq<Event<L, K, V>>, after: seq<Event<L, K, V>>,
                             ls: set<L>, signal: Signal<K, V>)
  {
    |before| <= |after| && after[..|before|] == before && Fanout(after[|before|..], ls, signal)
  }

  /** The signals listener `l` received, in the order it received them. */
  function Received<L(==), K(==), V(==)>(ev: seq<Event<L, K, V>>, l: L): seq<Signal<K, V>>
  {
    if ev == [] then []
    else Received(ev[..|ev| - 1], l) + (if ev[|ev| - 1].listener == l then [ev[|ev| - 1].signal] else [])
  }

  /** The effect an entry signal announces, applied to a copy of the cache's contents. */
  function Apply<K(==), V(==)>(m: map<K, V>, signal: Signal<K, V>): map<K, V>
  {
    match signal
    case Entry(EntryRemoved, k, _) => m - {k}
    case Entry(_, k, v) => m[k := v]
    case AllRemoved => map[]
  }

  /** A copy of the cache's contents rebuilt from the signals a listener received, in order. */
  function Replay<K(==), V(==)>(m: map<K, V>, signals: seq<Signal<K, V>>): map<K, V>
  {
    if signals == [] then m
    else Apply(Replay(m, signals[..|signals| - 1]), signals[|signals| - 1])
  }

  /** A fan-out with its last call taken off is a fan-out to the remaining listeners. */
  lemma FanoutPrefix<L, K, V>(ev: seq<Event<L, K, V>>, ls: set<L>, signal: Signal<K, V>)
    requires ev != [] && Fanout(ev, ls, signal)
    ensures ev[|ev| - 1].listener in ls
    ensures Fanout(ev[..|ev| - 1], ls - {ev[|ev| - 1].listener}, signal)
  {
  }

  /** Calling one more listener, not called yet, extends a fan-out to that listener. */
  lemma FanoutExtend<L, K, V>(ev: seq<Event<L, K, V>>, ls: set<L>, signal: Signal<K, V>, l: L)
    requires Fanout(ev, ls, signal) && l !in ls
    ensures Fanout(ev + [Event(l, signal)], ls + {l}, signal)
  {
    var ev' := ev + [Event(l, signal)];
    forall x | x in Recipients(ev') ensures x in ls + {l} {
      var i :| 0 <= i < |ev'| && ev'[i].listener == x;
      if i < |ev| {
        assert ev'[i] == ev[i];
      }
    }
    forall x | x in ls + {l} ensures x in Recipients(ev') {
      if x == l {
        assert ev'[|ev|].listener == l;
      } else {
        var i :| 0 <= i < |ev| && ev[i].listener == x;
        assert ev'[i] == ev[i];
      }
    }
    forall i, j | 0 <= i < j < |ev'| ensures ev'[i].listener != ev'[j].listener {
      assert ev'[i] == ev[i];
      if j < |ev| {
        assert ev'[j] == ev[j];
      } else {
        assert ev[i].listener in Recipients(ev);
      }
    }
  }

  /** A fan-out makes exactly as many calls as there are listeners. */
  lemma {:induction false} FanoutSize<L, K, V>(ev: seq<Event<L, K, V>>, ls: set<L>, signal: Signal<K, V>)
    requires Fanout(ev, ls, signal)
    ensures |ev| == |ls|
    decreases |ev|
  {
    if ev == [] {
      assert ls == Recipients(ev) == {};
    } else {
      var l := ev[|ev| - 1].listener;
      FanoutPrefix(ev, ls, signal);
      FanoutSize(ev[..|ev| - 1], ls - {l}, signal);
    }
  }

  /**
   Seen from one listener, a fan-out is a single call: a listener of `ls`
   receives `signal` exactly once, any other listener receives nothing.
   */
  lemma {:induction false} FanoutReceived<L, K, V>(ev: seq<Event<L, K, V>>, ls: set<L>, signal: Signal<K, V>, l: L)
    requires Fanout(ev, ls, signal)
    ensures Received(ev, l) == if l in ls then [signal] else []
    decreases |ev|
  {
    if ev == [] {
      assert ls == Recipients(ev) == {};
    } else {
      var last := ev[|ev| - 1];
      FanoutPrefix(ev, ls, signal);
      FanoutReceived(ev[..|ev| - 1], ls - {last.listener}, signal, l);
    }
  }

  /** What a listener receives from two consecutive records is what it receives from each, in order. */
  lemma {:induction false} ReceivedAppend<L, K, V>(a: seq<Event<L, K, V>>, b: seq<Event<L, K, V>>, l: L)
    ensures Received(a + b, l) == Received(a, l) + Received(b, l)
    decreases |b|
  {
    if b == [] {
      assert a + b == a;
    } else {
      var n := |b| - 1;
      assert (a + b)[..|a + b| - 1] == a + b[..n];
      ReceivedAppend(a, b[..n], l);
    }
  }

  /**
   After one fan-out of `signal` to `ls`, each listener of `ls` has received
   exactly `signal` on top of what it had received before; every other
   listener has received nothing new.
   */
  lemma ExtendsReceived<L, K, V>(before: seq<Event<L, K, V>>, after: seq<Event<L, K, V>>,
                                 ls: set<L>, signal: Signal<K, V>, l: L)
    requires Extends(before, after, ls, signal)
    ensures Received(after, l) == Received(before, l) + (if l in ls then [signal] else [])
  {
    assert after == before + after[|before|..];
    ReceivedAppend(before, after[|before|..], l);
    FanoutReceived(after[|before|..], ls, signal, l);
  }

  /** The multiset of calls a fan-out makes is fixed by its listeners and its signal. */
  lemma {:induction false} FanoutMultiset<L, K, V>(ev: seq<Event<L, K, V>>, ls: set<L>, signal: Signal<K, V>, e: Event<L, K, V>)
    requires Fanout(ev, ls, signal)
    ensures multiset(ev)[e] == if e.signal == signal && e.listener in ls then 1 else 0
    decreases |ev|
  {
    if ev == [] {
      assert ls == Recipients(ev) == {};
    } else {
      var n := |ev| - 1;
      FanoutPrefix(ev, ls, signal);
      FanoutMultiset(ev[..n], ls - {ev[n].listener}, signal, e);
      assert ev == ev[..n] + [ev[n]];
    }
  }

  /**
   Any two fan-outs of one signal to one listener set differ only in the
   order of their calls: the iteration order of the listener set is the only
   freedom a notification loop has.
   */
  lemma FanoutPermutation<L, K, V>(a: seq<Event<L, K, V>>, b: seq<Event<L, K, V>>, ls: set<L>, signal: Signal<K, V>)
    requires Fanout(a, ls, signal) && Fanout(b, ls, signal)
    ensures multiset(a) == multiset(b)
  {
    forall e ensures multiset(a)[e] == multiset(b)[e] {
      FanoutMultiset(a, ls, signal, e);
      FanoutMultiset(b, ls, signal, e);
    }
  }
}
