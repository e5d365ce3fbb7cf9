/** The bounded, in-order event store shared by the audit servers: every
    event is appended, and the list is cut back to its most recent
    `capacity` events (`push` followed by `slice(-capacity)`). */
module AuditStore {
  import opened JsArray
  import opened AuditEvent

  /** `s.length > cap ? s.slice(-cap) : s` (see `SliceFromNegative`): the
      most recent `cap` events, in their original order. */
  function Retain(s: seq<Event>, cap: nat): (r: seq<Event>)
    requires cap > 0
    ensures |r| == if |s| > cap then cap else |s|
    ensures r == s[|s| - |r|..]
  {
    if |s| > cap then s[|s| - cap..] else s
  }

  /** The store after appending `es` one at a time, cutting back after each. */
  function AppendAll(s: seq<Event>, es: seq<Event>, cap: nat): seq<Event>
    requires cap > 0
    decreases |es|
  {
    if es == [] then s else AppendAll(Retain(s + [es[0]], cap), es[1..], cap)
  }

  /** However many events are posted, the store holds the last `cap` of all
      events ever stored, oldest first. */
  lemma {:induction false} AppendAllKeepsTheMostRecent(s: seq<Event>, es: seq<Event>, cap: nat)
    requires cap > 0 && |s| <= cap
    ensures AppendAll(s, es, cap) == Retain(s + es, cap)
    decreases |es|
  {
    if es == [] {
      assert s + es == s;
    } else {
      var s' := Retain(s + [es[0]], cap);
      AppendAllKeepsTheMostRecent(s', es[1..], cap);
      RetainSuffix(s + [es[0]], es[1..], cap);
      assert (s + [es[0]]) + es[1..] == s + es;
    }
  }

  /** Cutting back before appending the rest changes nothing. */
  lemma RetainSuffix(s: seq<Event>, rest: seq<Event>, cap: nat)
    requires cap > 0
    ensures Retain(Retain(s, cap) + rest, cap) == Retain(s + rest, cap)
  {
    var t := Retain(s, cap);
    var a := Retain(t + rest, cap);
    var b := Retain(s + rest, cap);
    var n := |a|;
    assert |b| == n;
    forall i | 0 <= i < n ensures a[i] == b[i] {
      var k := |t| + |rest| - n + i;
      assert a[i] == (t + rest)[k];
      assert b[i] == (s + rest)[|s| - |t| + k];
      if k < |t| {
        assert (t + rest)[k] == t[k] == s[|s| - |t| + k];
      } else {
        assert (t + rest)[k] == rest[k - |t|];
      }
    }
  }

  /** The module-level event list of a serverless function. */
  class EventStore {
    const capacity: nat
    var events: seq<Event>

    ghost predicate Valid()
      reads this
    {
      capacity > 0 && |events| <= capacity
    }

    constructor (capacity: nat)
      requires capacity > 0
      ensures Valid() && this.capacity == capacity && events == []
    {
      this.capacity := capacity;
      events := [];
    }

    /** `push(e)`, then `slice(-capacity)` when over the cap; returns the new
        length. The new event is last, and only the oldest event is dropped,
        and only when the store was full. */
    method Append(e: Event) returns (total: nat)
      requires Valid()
      modifies this
      ensures Valid()
      ensures events == Retain(old(events) + [e], capacity)
      ensures total == |events| && events[|events| - 1] == e
      ensures |old(events)| < capacity ==> events == old(events) + [e]
      ensures |old(events)| == capacity ==> events == old(events)[1..] + [e]
    {
      events := events + [e];
      if |events| > capacity {
        SliceFromNegative(events, capacity);
        events := SliceFrom(events, -(capacity as int));
      }
      total := |events|;
    }

    /** `auditData = []`. */
    method Clear()
      requires Valid()
      modifies this
      ensures Valid() && events == []
    {
      events := [];
    }
  }
}
