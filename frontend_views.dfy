/** The two pieces of logic inside the current front end's view components:
    `InstanceStats.isComplete` and the time sort of `EventViewer`. */
module FrontendViews {
  import opened Data

  // ---------------------------------------------------------------------------
  // InstanceStats.isComplete

  /** Some event of `es` has kind `kind`. */
  predicate HasKind(es: seq<Event>, kind: string) {
    exists i :: 0 <= i < |es| && es[i].kind == kind
  }

  /** `isComplete`: one pass raising a flag for "Start" and one for "End". */
  method IsComplete(instance: Instance) returns (complete: bool)
    ensures complete <==> HasKind(instance.data, "Start") && HasKind(instance.data, "End")
  {
    var data := instance.data;
    var hasStart := false;
    var hasEnd := false;
    for i := 0 to |data|
      invariant hasStart <==> HasKind(data[..i], "Start")
      invariant hasEnd <==> HasKind(data[..i], "End")
    {
      HasKindSnoc(data, i, "Start");
      HasKindSnoc(data, i, "End");
      if data[i].kind == "Start" {
        hasStart := true;
      }
      if data[i].kind == "End" {
        hasEnd := true;
      }
    }
    assert data[..|data|] == data;
    complete := hasStart && hasEnd;
  }

  lemma HasKindSnoc(es: seq<Event>, i: nat, kind: string)
    requires i < |es|
    ensures HasKind(es[..i + 1], kind) <==> HasKind(es[..i], kind) || es[i].kind == kind
  {
  }

  /** An instance that is complete stays complete as live events arrive. */
  lemma CompleteStaysComplete(es: seq<Event>, more: seq<Event>, kind: string)
    requires HasKind(es, kind)
    ensures HasKind(es + more, kind)
  {
    var i :| 0 <= i < |es| && es[i].kind == kind;
    assert (es + more)[i] == es[i];
  }

  /** Whether an instance holds an event of some kind does not depend on the
      order of its events: sorting never changes completeness. */
  lemma HasKindPermutation(a: seq<Event>, b: seq<Event>, kind: string)
    requires multiset(a) == multiset(b)
    ensures HasKind(a, kind) <==> HasKind(b, kind)
  {
    if HasKind(a, kind) {
      var i :| 0 <= i < |a| && a[i].kind == kind;
      assert a[i] in multiset(b);
      var j :| 0 <= j < |b| && b[j] == a[i];
    }
    if HasKind(b, kind) {
      var i :| 0 <= i < |b| && b[i].kind == kind;
      assert b[i] in multiset(a);
      var j :| 0 <= j < |a| && a[j] == b[i];
    }
  }

  // ---------------------------------------------------------------------------
  // EventViewer's `events.sort((a, b) => a.time - b.time)`

  /** `e` placed into `s` after every element of `s` it does not precede in
      time: the elements scanned from the back move up while they are later. */
  function Insert(s: seq<Event>, e: Event): (r: seq<Event>)
    ensures |r| == |s| + 1
  {
    if s == [] || s[|s| - 1].time <= e.time then s + [e]
    else Insert(s[..|s| - 1], e) + [s[|s| - 1]]
  }

  /** Inserting adds `e` and nothing else. */
  lemma {:induction false} InsertPermutes(s: seq<Event>, e: Event)
    ensures multiset(Insert(s, e)) == multiset(s) + multiset{e}
  {
    if !(s == [] || s[|s| - 1].time <= e.time) {
      InsertPermutes(s[..|s| - 1], e);
      assert s == s[..|s| - 1] + [s[|s| - 1]];
    }
  }

  /** The stable ascending sort by `time` that the comparator `a.time - b.time`
      asks of a stable `Array.prototype.sort`, as a sequence of insertions. */
  function SortByTime(s: seq<Event>): seq<Event> {
    if s == [] then [] else Insert(SortByTime(s[..|s| - 1]), s[|s| - 1])
  }

  /** Ascending by time. */
  predicate SortedByTime(s: seq<Event>) {
    forall i, j :: 0 <= i < j < |s| ==> s[i].time <= s[j].time
  }

  /** The events of `s` with time `t`, in order. */
  function WithTime(s: seq<Event>, t: int): seq<Event> {
    if s == [] then [] else WithTime(s[..|s| - 1], t) + (if s[|s| - 1].time == t then [s[|s| - 1]] else [])
  }

  /** The sorted events are ascending by time. */
  lemma {:induction false} SortByTimeSorted(s: seq<Event>)
    ensures SortedByTime(SortByTime(s))
  {
    if s != [] {
      SortByTimeSorted(s[..|s| - 1]);
      InsertSorted(SortByTime(s[..|s| - 1]), s[|s| - 1]);
    }
  }

  lemma {:induction false} InsertSorted(s: seq<Event>, e: Event)
    requires SortedByTime(s)
    ensures SortedByTime(Insert(s, e))
  {
    if !(s == [] || s[|s| - 1].time <= e.time) {
      var front, last := s[..|s| - 1], s[|s| - 1];
      assert SortedByTime(front) by {
        forall i, j | 0 <= i < j < |front|
          ensures front[i].time <= front[j].time
        {
          assert front[i] == s[i] && front[j] == s[j];
        }
      }
      InsertSorted(front, e);
      assert forall k :: 0 <= k < |front| ==> front[k].time <= last.time by {
        forall k | 0 <= k < |front|
          ensures front[k].time <= last.time
        {
          assert front[k] == s[k];
        }
      }
      InsertBounded(front, e, last.time);
      var r := Insert(front, e);
      assert Insert(s, e) == r + [last];
      forall i, j | 0 <= i < j < |r + [last]|
        ensures (r + [last])[i].time <= (r + [last])[j].time
      {
        if j < |r| {
          assert (r + [last])[i] == r[i] && (r + [last])[j] == r[j];
        } else {
          assert (r + [last])[i] == r[i];
        }
      }
    }
  }

  /** No event of `Insert(s, e)` is later than a bound on `e` and on `s`. */
  lemma {:induction false} InsertBounded(s: seq<Event>, e: Event, bound: int)
    requires e.time <= bound
    requires forall k :: 0 <= k < |s| ==> s[k].time <= bound
    ensures forall k :: 0 <= k < |Insert(s, e)| ==> Insert(s, e)[k].time <= bound
  {
    if !(s == [] || s[|s| - 1].time <= e.time) {
      var front := s[..|s| - 1];
      assert forall k :: 0 <= k < |front| ==> front[k].time <= bound by {
        forall k | 0 <= k < |front|
          ensures front[k].time <= bound
        {
          assert front[k] == s[k];
        }
      }
      InsertBounded(front, e, bound);
    }
  }

  /** The sorted events are a permutation of the events, nothing lost or duplicated. */
  lemma {:induction false} SortByTimePermutes(s: seq<Event>)
    ensures multiset(SortByTime(s)) == multiset(s)
  {
    if s != [] {
      var front, last := s[..|s| - 1], s[|s| - 1];
      SortByTimePermutes(front);
      InsertPermutes(SortByTime(front), last);
      assert SortByTime(s) == Insert(SortByTime(front), last);
      assert s == front + [last];
      assert multiset(s) == multiset(front) + multiset{last};
    }
  }

  /** The sort is stable: events with equal times keep their relative order. */
  lemma {:induction false} SortByTimeStable(s: seq<Event>, t: int)
    ensures WithTime(SortByTime(s), t) == WithTime(s, t)
  {
    if s != [] {
      SortByTimeStable(s[..|s| - 1], t);
      InsertWithTime(SortByTime(s[..|s| - 1]), s[|s| - 1], t);
    }
  }

  lemma {:induction false} InsertWithTime(s: seq<Event>, e: Event, t: int)
    ensures WithTime(Insert(s, e), t) == WithTime(s, t) + (if e.time == t then [e] else [])
  {
    if s == [] || s[|s| - 1].time <= e.time {
      assert (s + [e])[..|s|] == s;
    } else {
      var front, last := s[..|s| - 1], s[|s| - 1];
      InsertWithTime(front, e, t);
      assert (Insert(front, e) + [last])[..|s|] == Insert(front, e);
    }
  }

  /** Sorting a sorted sequence changes nothing; in particular sorting twice
      is sorting once. */
  lemma {:induction false} SortByTimeOfSorted(s: seq<Event>)
    requires SortedByTime(s)
    ensures SortByTime(s) == s
  {
    if s != [] {
      var front, last := s[..|s| - 1], s[|s| - 1];
      assert SortedByTime(front) by {
        forall i, j | 0 <= i < j < |front|
          ensures front[i].time <= front[j].time
        {
          assert front[i] == s[i] && front[j] == s[j];
        }
      }
      SortByTimeOfSorted(front);
      assert SortByTime(s) == Insert(front, last);
      if front != [] {
        assert front[|front| - 1] == s[|s| - 2];
        assert s[|s| - 2].time <= s[|s| - 1].time;
      }
      assert Insert(front, last) == front + [last];
      assert s == front + [last];
    }
  }

  lemma SortByTimeIdempotent(s: seq<Event>)
    ensures SortByTime(SortByTime(s)) == SortByTime(s)
  {
    SortByTimeSorted(s);
    SortByTimeOfSorted(SortByTime(s));
  }

  /** Inserting `e` at the position `j` the scan stops at. */
  lemma {:induction false} InsertAt(s: seq<Event>, e: Event, j: nat)
    requires j <= |s|
    requires j == 0 || s[j - 1].time <= e.time
    requires forall k :: j <= k < |s| ==> s[k].time > e.time
    ensures Insert(s, e) == s[..j] + [e] + s[j..]
    ensures forall k :: 0 <= k < j ==> Insert(s, e)[k] == s[k]
    ensures Insert(s, e)[j] == e
    ensures forall k :: j < k <= |s| ==> Insert(s, e)[k] == s[k - 1]
  {
    if j == |s| {
      assert s[..j] == s && s[j..] == [];
    } else {
      var front, last := s[..|s| - 1], s[|s| - 1];
      assert last.time > e.time;
      assert Insert(s, e) == Insert(front, e) + [last];
      assert forall k :: j <= k < |front| ==> front[k].time > e.time by {
        forall k | j <= k < |front|
          ensures front[k].time > e.time
        {
          assert front[k] == s[k];
        }
      }
      assert j == 0 || front[j - 1].time <= e.time by {
        if j > 0 {
          assert front[j - 1] == s[j - 1];
        }
      }
      InsertAt(front, e, j);
      assert front[..j] == s[..j];
      assert s[j..] == front[j..] + [last];
    }
  }

  /** The in-place sort of an instance's events, as a stable insertion sort:
      afterwards the array holds `SortByTime` of its old contents. */
  method SortEventsByTime(a: array<Event>)
    modifies a
    ensures a[..] == SortByTime(old(a[..]))
  {
    ghost var original := a[..];
    for i := 0 to a.Length
      invariant a[..i] == SortByTime(original[..i])
      invariant a[i..] == original[i..]
    {
      assert a[i] == original[i] by {
        assert a[i..][0] == a[i] && original[i..][0] == original[i];
      }
      ghost var rest := a[i + 1..];
      assert rest == original[i + 1..] by {
        assert a[i + 1..] == a[i..][1..] && original[i + 1..] == original[i..][1..];
      }
      InsertNext(a, i);
      assert original[..i + 1][..i] == original[..i];
      assert SortByTime(original[..i + 1]) == Insert(SortByTime(original[..i]), original[i]);
    }
    assert original[..a.Length] == original;
  }

  /** One step of the insertion sort: move `a[i]` down into the prefix
      `a[..i]`, past every element later than it. */
  method InsertNext(a: array<Event>, i: nat)
    requires i < a.Length
    modifies a
    ensures a[..i + 1] == Insert(old(a[..i]), old(a[i]))
    ensures a[i + 1..] == old(a[i + 1..])
  {
    var e := a[i];
    var j := i;
    while j > 0 && a[j - 1].time > e.time
      invariant 0 <= j <= i
      invariant forall k :: 0 <= k < j ==> a[k] == old(a[k])
      invariant forall k :: j < k <= i ==> a[k] == old(a[k - 1])
      invariant forall k :: i < k < a.Length ==> a[k] == old(a[k])
      invariant forall k :: j <= k < i ==> old(a[k]).time > e.time
    {
      a[j] := a[j - 1];
      j := j - 1;
    }
    a[j] := e;
    ghost var sorted := old(a[..i]);
    InsertAt(sorted, e, j);
    ghost var inserted := Insert(sorted, e);
    forall k | 0 <= k <= i
      ensures a[k] == inserted[k]
    {
      if k < j {
        assert inserted[k] == sorted[k];
      } else if k > j {
        assert inserted[k] == sorted[k - 1];
      }
    }
    assert a[..i + 1] == inserted;
  }
}
