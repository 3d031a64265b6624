/** How the two halves fit together: the front end loads an experiment as the
    server's grouping of the stored entries, then merges live events into it.
    The grouping names each instance by the key `String(subject)`, while live
    events keep the subject of their JSON body and are matched with `===`. */
module LiveSync {
  import opened Js
  import opened Data
  import Server
  import Frontend

  /** With distinct subjects, the events held under `s` are those of the one
      instance named `s`, or none. */
  lemma {:induction false} EventsForDistinct(insts: seq<Instance>, s: Subject)
    requires DistinctSubjects(insts)
    ensures (forall i :: 0 <= i < |insts| ==> insts[i].subject != s) ==> EventsFor(insts, s) == []
    ensures forall i :: 0 <= i < |insts| && insts[i].subject == s ==> EventsFor(insts, s) == insts[i].data
  {
    if insts != [] {
      var front, last := insts[..|insts| - 1], insts[|insts| - 1];
      assert DistinctSubjects(front) by {
        forall i, j | 0 <= i < j < |front|
          ensures front[i].subject != front[j].subject
        {
          assert front[i] == insts[i] && front[j] == insts[j];
        }
      }
      EventsForDistinct(front, s);
      forall i | 0 <= i < |insts| && insts[i].subject == s
        ensures EventsFor(insts, s) == insts[i].data
      {
        if i < |front| {
          assert front[i] == insts[i];
          assert last.subject != s;
        } else {
          assert forall j :: 0 <= j < |front| ==> front[j].subject != s by {
            forall j | 0 <= j < |front|
              ensures front[j].subject != s
            {
              assert front[j] == insts[j];
            }
          }
        }
      }
      if forall i :: 0 <= i < |insts| ==> insts[i].subject != s {
        assert last == insts[|insts| - 1];
        assert forall j :: 0 <= j < |front| ==> front[j].subject != s by {
          forall j | 0 <= j < |front|
            ensures front[j].subject != s
          {
            assert front[j] == insts[j];
          }
        }
      }
    }
  }

  /** A freshly loaded experiment holds, under the string subject `k`, exactly
      the stored entries whose key is `k`, and nothing under any numeric
      subject. */
  lemma GroupedEventsFor(entries: seq<Event>, results: seq<Instance>, k: string, n: int)
    requires Server.IsGrouping(entries, results)
    ensures EventsFor(results, Text(k)) == Server.WithKey(entries, k)
    ensures EventsFor(results, Num(n)) == []
  {
    assert DistinctSubjects(results);
    EventsForDistinct(results, Text(k));
    EventsForDistinct(results, Num(n));
    Server.KeysOfHasKey(entries, k);
    Server.WithKeyEmptyIff(entries, k);
    if Server.HasKey(entries, k) {
      var j :| 0 <= j < |entries| && Key(entries[j].subject) == k;
      assert Server.Names(results, Key(entries[j].subject));
    }
  }

  /** After loading and any sequence of live events, a string subject `k`
      holds the stored entries with key `k` followed by its live events in
      arrival order, and no subject has two instances. */
  lemma HistoryThenLive(entries: seq<Event>, results: seq<Instance>, live: seq<Event>, k: string)
    requires Server.IsGrouping(entries, results)
    ensures EventsFor(Frontend.MergeAll(results, live), Text(k)) ==
      Server.WithKey(entries, k) + WithSubject(live, Text(k))
    ensures DistinctSubjects(Frontend.MergeAll(results, live))
  {
    GroupedEventsFor(entries, results, k, 0);
    Frontend.MergeAllEventsFor(results, live, Text(k));
    assert DistinctSubjects(results);
    Frontend.MergeAllPreservesDistinct(results, live);
  }

  /** Among events whose subjects are all strings, those with key `k` are
      exactly those of subject `k`. */
  lemma {:induction false} WithKeyOfTexts(es: seq<Event>, k: string)
    requires forall j :: 0 <= j < |es| ==> es[j].subject.Text?
    ensures Server.WithKey(es, k) == WithSubject(es, Text(k))
  {
    if es != [] {
      WithKeyOfTexts(es[..|es| - 1], k);
    }
  }

  /** Reloading agrees with live merging for string subjects: the server
      stores each live event after the entries it already had, and when
      every live subject is a string, grouping the stored entries afresh
      gives a subject the same events, in the same order, as merging the live
      events into the loaded grouping did. */
  lemma ReloadAgreesWithLive(entries: seq<Event>, results: seq<Instance>, live: seq<Event>, k: string)
    requires Server.IsGrouping(entries, results)
    requires forall j :: 0 <= j < |live| ==> live[j].subject.Text?
    ensures EventsFor(Frontend.MergeAll(results, live), Text(k)) == Server.WithKey(entries + live, k)
  {
    HistoryThenLive(entries, results, live, k);
    Server.WithKeyAppend(entries, live, k);
    WithKeyOfTexts(live, k);
  }

  /** The subject mismatch: when stored entries exist for the key of a numeric
      subject `n` and a live event of subject `n` arrives, the live event does
      not join the loaded instance (named by the string of `n`); a second
      instance with the same key appears, and the instance of `n` holds only
      live events. */
  lemma NumericSubjectSplitsInstance(entries: seq<Event>, results: seq<Instance>, live: seq<Event>, n: int)
    requires Server.IsGrouping(entries, results)
    requires Server.HasKey(entries, NumberToString(n))
    requires exists j :: 0 <= j < |live| && live[j].subject == Num(n)
    ensures exists a, b ::
      && 0 <= a < b < |Frontend.MergeAll(results, live)|
      && Frontend.MergeAll(results, live)[a].subject == Text(NumberToString(n))
      && Frontend.MergeAll(results, live)[b].subject == Num(n)
      && Key(Frontend.MergeAll(results, live)[a].subject) == Key(Frontend.MergeAll(results, live)[b].subject)
    ensures EventsFor(Frontend.MergeAll(results, live), Num(n)) == WithSubject(live, Num(n))
    ensures Server.WithKey(entries, NumberToString(n)) != []
  {
    var merged := Frontend.MergeAll(results, live);
    var s := NumberToString(n);
    var jE :| 0 <= jE < |entries| && Key(entries[jE].subject) == s;
    assert Server.Names(results, Key(entries[jE].subject));
    var a :| 0 <= a < |results| && results[a].subject == Text(s);
    Frontend.MergeAllKeepsSubjects(results, live);
    var jL :| 0 <= jL < |live| && live[jL].subject == Num(n);
    assert Frontend.HasSubject(merged, live[jL].subject);
    var b :| 0 <= b < |merged| && merged[b].subject == Num(n);
    assert merged[a].subject == Text(s);
    assert forall i :: 0 <= i < |results| ==> merged[i].subject.Text?;
    assert Key(merged[a].subject) == Key(merged[b].subject);
    GroupedEventsFor(entries, results, s, n);
    Frontend.MergeAllEventsFor(results, live, Num(n));
    assert Server.WithKey(entries, s) == results[a].data;
  }
}
