/**
 * The listener table of src/events/index.js. Callbacks are code the bus cannot see:
 * each is named by a `CallbackId`, identity (`!==`) is equality of ids, and `Emit`
 * returns the calls it makes, in order, instead of making them.
 */
module Events {
  import opened Seqs

  type CallbackId = nat

  const LoadingShow := "LOADING_SHOW"
  const LoadingHide := "LOADING_HIDE"
  const ToastShow := "TOAST_SHOW"

  /** One callback invocation `callback(data)`. */
  datatype Call<D> = Call(callback: CallbackId, data: D)

  /** How often `cb` occurs in `xs`. */
  function Occurrences(xs: seq<CallbackId>, cb: CallbackId): (n: nat)
    ensures n <= |xs|
    ensures n == 0 <==> cb !in xs
  {
    if xs == [] then 0
    else
      var init := xs[..|xs| - 1];
      assert xs == init + [xs[|xs| - 1]];
      Occurrences(init, cb) + (if xs[|xs| - 1] == cb then 1 else 0)
  }

  /** `list.filter(l => l !== callback)`. */
  function Without(xs: seq<CallbackId>, cb: CallbackId): (r: seq<CallbackId>)
    ensures Subseq(r, xs)
    ensures forall x :: x in r <==> x in xs && x != cb
    ensures forall x :: x != cb ==> Occurrences(r, x) == Occurrences(xs, x)
  {
    SelectSpec(xs, l => l != cb);
    WithoutCounts(xs, cb);
    Select(xs, l => l != cb)
  }

  lemma {:induction false} WithoutCounts(xs: seq<CallbackId>, cb: CallbackId)
    ensures forall x :: x != cb ==> Occurrences(Select(xs, l => l != cb), x) == Occurrences(xs, x)
  {
    if xs != [] {
      var init := xs[..|xs| - 1];
      WithoutCounts(init, cb);
      var r := Select(init, l => l != cb);
      if xs[|xs| - 1] != cb {
        assert Select(xs, l => l != cb) == r + [xs[|xs| - 1]];
        assert (r + [xs[|xs| - 1]])[..|r|] == r;
      } else {
        assert Select(xs, l => l != cb) == r;
      }
    }
  }

  /** Appending a callback adds one occurrence of it and leaves the others' counts. */
  lemma AppendOccurrences(xs: seq<CallbackId>, cb: CallbackId, x: CallbackId)
    ensures Occurrences(xs + [cb], x) == Occurrences(xs, x) + (if x == cb then 1 else 0)
  {
    assert (xs + [cb])[..|xs|] == xs;
  }

  class EventBus {
    /** `event -> callbacks`; an event without an entry has never been subscribed to. */
    var listeners: map<string, seq<CallbackId>>

    /** The callbacks of `event`, empty when it has no entry. */
    function ListenersOf(event: string): seq<CallbackId>
      reads this
    {
      if event in listeners then listeners[event] else []
    }

    constructor()
      ensures listeners == map[]
    {
      listeners := map[];
    }

    /** on: append `callback` to the event's list, creating the list if it is absent. */
    method On(event: string, callback: CallbackId)
      modifies this
      ensures listeners == old(listeners)[event := old(ListenersOf(event)) + [callback]]
      ensures ListenersOf(event) == old(ListenersOf(event)) + [callback]
      ensures forall e :: e != event ==> ListenersOf(e) == old(ListenersOf(e))
    {
      if event !in listeners {
        listeners := listeners[event := []];
      }
      listeners := listeners[event := listeners[event] + [callback]];
    }

    /** off: drop every occurrence of `callback`; an unknown event changes nothing. */
    method Off(event: string, callback: CallbackId)
      modifies this
      ensures event !in old(listeners) ==> listeners == old(listeners)
      ensures event in old(listeners) ==> listeners == old(listeners)[event := Without(old(listeners)[event], callback)]
      ensures callback !in ListenersOf(event)
      ensures forall e :: e != event ==> ListenersOf(e) == old(ListenersOf(e))
    {
      if event !in listeners {
        return;
      }
      listeners := listeners[event := Without(listeners[event], callback)];
    }

    /** emit: call every listener of `event`, in registration order, with the same data. */
    method Emit<D>(event: string, data: D) returns (calls: seq<Call<D>>)
      ensures |calls| == |ListenersOf(event)|
      ensures forall k :: 0 <= k < |calls| ==> calls[k] == Call(ListenersOf(event)[k], data)
    {
      calls := [];
      if event !in listeners {
        return;
      }
      var list := listeners[event];
      for k := 0 to |list|
        invariant |calls| == k
        invariant forall t :: 0 <= t < k ==> calls[t] == Call(list[t], data)
      {
        calls := calls + [Call(list[k], data)];
      }
    }
  }

  /** The callbacks named in a call list, in order. */
  function Callbacks<D>(calls: seq<Call<D>>): (r: seq<CallbackId>)
    ensures |r| == |calls|
    ensures forall k :: 0 <= k < |r| ==> r[k] == calls[k].callback
  {
    seq(|calls|, k requires 0 <= k < |calls| => calls[k].callback)
  }

  /**
   * A callback registered twice on a fresh event is called twice per emit: after two
   * `On`s the list holds it twice more, and `Emit` calls each entry once.
   */
  lemma RegisteredTwiceCalledTwice(xs: seq<CallbackId>, cb: CallbackId)
    ensures Occurrences(xs + [cb] + [cb], cb) == Occurrences(xs, cb) + 2
  {
    AppendOccurrences(xs, cb, cb);
    AppendOccurrences(xs + [cb], cb, cb);
  }

  /** Subscribing and then unsubscribing a callback removes it, and every other callback keeps its count. */
  lemma OnThenOff(xs: seq<CallbackId>, cb: CallbackId)
    ensures cb !in Without(xs + [cb], cb)
    ensures forall x :: x != cb ==> Occurrences(Without(xs + [cb], cb), x) == Occurrences(xs, x)
  {
    forall x | x != cb
      ensures Occurrences(Without(xs + [cb], cb), x) == Occurrences(xs, x)
    {
      AppendOccurrences(xs, cb, x);
    }
  }
}
