/** The data layer of the current front end: the processor registry, the
    state object with its single handler, and the merge of a live event into
    the in-memory dataset. */
module Frontend {
  import opened Js
  import opened Data

  // ---------------------------------------------------------------------------
  // The live merge, on values

  /** The position of the last instance whose subject is `===` to `s`, or -1. */
  function LastMatch(insts: seq<Instance>, s: Subject): (k: int)
    ensures -1 <= k < |insts|
    ensures k == -1 <==> forall i :: 0 <= i < |insts| ==> insts[i].subject != s
    ensures k >= 0 ==> insts[k].subject == s && forall i :: k < i < |insts| ==> insts[i].subject != s
  {
    if insts == [] then -1
    else if insts[|insts| - 1].subject == s then |insts| - 1
    else LastMatch(insts[..|insts| - 1], s)
  }

  /** The instance list after the `newData` handler has taken in event `e`. */
  function Merge(insts: seq<Instance>, e: Event): seq<Instance> {
    var k := LastMatch(insts, e.subject);
    if k >= 0 then insts[k := Instance(insts[k].subject, insts[k].data + [e])]
    else insts + [Instance(e.subject, [e])]
  }

  /** What the merge does: with no instance of the event's subject, a new
      instance holding just the event is appended; otherwise the event is
      appended to the data of the last instance of that subject (the loop does
      not stop at the first), the number of instances stays the same and every
      other instance is unchanged. */
  lemma MergeSpec(insts: seq<Instance>, e: Event)
    ensures (forall i :: 0 <= i < |insts| ==> insts[i].subject != e.subject) ==>
      Merge(insts, e) == insts + [Instance(e.subject, [e])]
    ensures (exists i :: 0 <= i < |insts| && insts[i].subject == e.subject) ==>
      && |Merge(insts, e)| == |insts|
      && (exists k ::
            && 0 <= k < |insts|
            && insts[k].subject == e.subject
            && (forall i :: k < i < |insts| ==> insts[i].subject != e.subject)
            && Merge(insts, e)[k] == Instance(e.subject, insts[k].data + [e])
            && (forall i :: 0 <= i < |insts| && i != k ==> Merge(insts, e)[i] == insts[i]))
  {
  }

  /** The merge adds exactly one event to the dataset. */
  lemma MergeAddsOneEvent(insts: seq<Instance>, e: Event)
    ensures TotalEvents(Merge(insts, e)) == TotalEvents(insts) + 1
  {
    var k := LastMatch(insts, e.subject);
    if k >= 0 {
      TotalEventsUpdate(insts, k, insts[k].data + [e]);
    } else {
      assert (insts + [Instance(e.subject, [e])])[..|insts|] == insts;
    }
  }

  lemma {:induction false} TotalEventsUpdate(insts: seq<Instance>, k: nat, d: seq<Event>)
    requires k < |insts|
    ensures TotalEvents(insts[k := Instance(insts[k].subject, d)]) == TotalEvents(insts) - |insts[k].data| + |d|
  {
    var u := insts[k := Instance(insts[k].subject, d)];
    if k == |insts| - 1 {
      assert u[..|u| - 1] == insts[..|insts| - 1];
    } else {
      var front := insts[..|insts| - 1];
      TotalEventsUpdate(front, k, d);
      assert u[..|u| - 1] == front[k := Instance(front[k].subject, d)];
    }
  }

  /** For every subject, the events the dataset holds under it grow by exactly
      the new event when it has that subject, and are unchanged otherwise:
      live events of one subject are kept in their order of arrival. */
  lemma MergeEventsFor(insts: seq<Instance>, e: Event, s: Subject)
    ensures EventsFor(Merge(insts, e), s) == EventsFor(insts, s) + (if e.subject == s then [e] else [])
  {
    var k := LastMatch(insts, e.subject);
    if k >= 0 {
      EventsForUpdate(insts, k, e, s);
    } else {
      assert (insts + [Instance(e.subject, [e])])[..|insts|] == insts;
    }
  }

  /** Appending `e` to the last instance of its subject. */
  lemma {:induction false} EventsForUpdate(insts: seq<Instance>, k: nat, e: Event, s: Subject)
    requires k < |insts| && insts[k].subject == e.subject
    requires forall i :: k < i < |insts| ==> insts[i].subject != e.subject
    ensures EventsFor(insts[k := Instance(insts[k].subject, insts[k].data + [e])], s) ==
      EventsFor(insts, s) + (if e.subject == s then [e] else [])
  {
    var u := insts[k := Instance(insts[k].subject, insts[k].data + [e])];
    var front := insts[..|insts| - 1];
    if k == |insts| - 1 {
      assert u[..|u| - 1] == front;
    } else {
      EventsForUpdate(front, k, e, s);
      assert u[..|u| - 1] == front[k := Instance(front[k].subject, front[k].data + [e])];
      assert insts[|insts| - 1].subject != e.subject;
    }
  }

  /** A dataset with at most one instance per subject keeps that property. */
  lemma MergePreservesDistinct(insts: seq<Instance>, e: Event)
    requires DistinctSubjects(insts)
    ensures DistinctSubjects(Merge(insts, e))
  {
  }

  /** The merge never drops an instance nor renames one. */
  lemma MergeKeepsSubjects(insts: seq<Instance>, e: Event)
    ensures |insts| <= |Merge(insts, e)|
    ensures forall i :: 0 <= i < |insts| ==> Merge(insts, e)[i].subject == insts[i].subject
    ensures HasSubject(Merge(insts, e), e.subject)
  {
    var k := LastMatch(insts, e.subject);
    if k < 0 {
      assert Merge(insts, e)[|insts|].subject == e.subject;
    }
  }

  /** The dataset after a sequence of live events, merged one by one. */
  function MergeAll(insts: seq<Instance>, live: seq<Event>): seq<Instance> {
    if live == [] then insts else Merge(MergeAll(insts, live[..|live| - 1]), live[|live| - 1])
  }

  /** After any sequence of live events, a subject's events are those it held
      before followed by the live events of that subject, in arrival order. */
  lemma {:induction false} MergeAllEventsFor(insts: seq<Instance>, live: seq<Event>, s: Subject)
    ensures EventsFor(MergeAll(insts, live), s) == EventsFor(insts, s) + WithSubject(live, s)
  {
    if live != [] {
      var front, e := live[..|live| - 1], live[|live| - 1];
      MergeAllEventsFor(insts, front, s);
      MergeEventsFor(MergeAll(insts, front), e, s);
    }
  }

  /** Any sequence of live events keeps the subjects distinct. */
  lemma {:induction false} MergeAllPreservesDistinct(insts: seq<Instance>, live: seq<Event>)
    requires DistinctSubjects(insts)
    ensures DistinctSubjects(MergeAll(insts, live))
  {
    if live != [] {
      MergeAllPreservesDistinct(insts, live[..|live| - 1]);
      MergePreservesDistinct(MergeAll(insts, live[..|live| - 1]), live[|live| - 1]);
    }
  }

  /** Live events never drop or rename an instance, and every live subject
      ends up with an instance. */
  lemma {:induction false} MergeAllKeepsSubjects(insts: seq<Instance>, live: seq<Event>)
    ensures |insts| <= |MergeAll(insts, live)|
    ensures forall i :: 0 <= i < |insts| ==> MergeAll(insts, live)[i].subject == insts[i].subject
    ensures forall j :: 0 <= j < |live| ==> HasSubject(MergeAll(insts, live), live[j].subject)
  {
    if live != [] {
      var front, e := live[..|live| - 1], live[|live| - 1];
      var before := MergeAll(insts, front);
      var after := MergeAll(insts, live);
      assert after == Merge(before, e);
      MergeAllKeepsSubjects(insts, front);
      MergeKeepsSubjects(before, e);
      forall i | 0 <= i < |insts|
        ensures after[i].subject == insts[i].subject
      {
        assert after[i].subject == before[i].subject;
      }
      forall j | 0 <= j < |live|
        ensures HasSubject(after, live[j].subject)
      {
        if j < |front| {
          assert live[j] == front[j];
          HasSubjectKept(before, after, front[j].subject);
        }
      }
    }
  }

  /** A list that keeps the subjects of a shorter one at its front keeps
      having each of them. */
  lemma HasSubjectKept(before: seq<Instance>, after: seq<Instance>, s: Subject)
    requires |before| <= |after|
    requires forall i :: 0 <= i < |before| ==> after[i].subject == before[i].subject
    requires HasSubject(before, s)
    ensures HasSubject(after, s)
  {
  }

  /** Some instance has subject `s`. */
  predicate HasSubject(insts: seq<Instance>, s: Subject) {
    exists i :: 0 <= i < |insts| && insts[i].subject == s
  }

  // ---------------------------------------------------------------------------
  // The Processors module

  /** The `Processors` module of the current front end. `handlerSet` records
      whether `start` installed a (truthy) state handler; `notifications` is
      the sequence of states the handler has been called with, oldest first. */
  class Store {
    var processors: map<string, Processor>
    var state: State
    var handlerSet: bool
    var notifications: seq<State>

    constructor ()
      ensures processors == map[] && state == InitialState
      ensures !handlerSet && notifications == []
    {
      processors := map[];
      state := InitialState;
      handlerSet := false;
      notifications := [];
    }

    /** Every experiment's instances have pairwise different subjects. */
    predicate DistinctDataset()
      reads this
    {
      forall name :: name in state.experiments ==> DistinctSubjects(state.experiments[name])
    }

    /** `register`: the last registration for a name wins; nothing else changes. */
    method Register(exName: string, procFuncs: Processor)
      modifies this
      ensures processors == old(processors)[exName := procFuncs]
      ensures state == old(state) && handlerSet == old(handlerSet) && notifications == old(notifications)
    {
      processors := processors[exName := procFuncs];
    }

    /** `processGlobal`: the registered `globalStats` applied to the loaded
        dataset of `name`. Throws when `name` was never registered; null when
        the dataset is not loaded or the processor has no `globalStats`. */
    function ProcessGlobal(name: string): (r: Completion<Option<seq<Stat>>>)
      reads this
      ensures r.TypeError? <==>
        name !in processors
        || (name in state.experiments && processors[name].globalStats.Some?
            && processors[name].globalStats.value(state.experiments[name]).TypeError?)
      ensures r == Normal(None) <==>
        name in processors && (name !in state.experiments || processors[name].globalStats.None?)
      ensures r.Normal? && r.value.Some? ==>
        name in processors && name in state.experiments && processors[name].globalStats.Some?
        && processors[name].globalStats.value(state.experiments[name]) == Normal(r.value.value)
    {
      if name !in processors then TypeError  // `undefined.globalStats`
      else if name in state.experiments && processors[name].globalStats.Some? then
        Passed(processors[name].globalStats.value(state.experiments[name]))
      else Normal(None)
    }

    /** `processInstance`: the registered `instanceStats` applied to the given
        events; the dataset is not consulted. */
    function ProcessInstance(exName: string, instance: Option<seq<Event>>): (r: Completion<Option<seq<Stat>>>)
      reads this
      ensures r.TypeError? <==>
        exName !in processors
        || (instance.Some? && processors[exName].instanceStats.Some?
            && processors[exName].instanceStats.value(Items(instance.value)).TypeError?)
      ensures r == Normal(None) <==>
        exName in processors && (instance.None? || processors[exName].instanceStats.None?)
      ensures r.Normal? && r.value.Some? ==>
        exName in processors && instance.Some? && processors[exName].instanceStats.Some?
        && processors[exName].instanceStats.value(Items(instance.value)) == Normal(r.value.value)
    {
      if exName !in processors then TypeError
      else if instance.Some? && processors[exName].instanceStats.Some? then
        Passed(processors[exName].instanceStats.value(Items(instance.value)))
      else Normal(None)
    }

    /** `start`, without its downloads and its socket: install the handler. */
    method Start(handler: bool)
      modifies this
      ensures handlerSet == handler
      ensures processors == old(processors) && state == old(state) && notifications == old(notifications)
    {
      handlerSet := handler;
    }

    /** `flush`: hand the current state to the handler, if there is one. */
    method Flush()
      modifies this
      ensures notifications == old(notifications) + (if handlerSet then [state] else [])
      ensures processors == old(processors) && state == old(state) && handlerSet == old(handlerSet)
    {
      if handlerSet {
        notifications := notifications + [state];
      }
    }

    /** `setState`: replace the whole state, then flush. */
    method SetState(newState: State)
      modifies this
      ensures state == newState
      ensures notifications == old(notifications) + (if handlerSet then [newState] else [])
      ensures processors == old(processors) && handlerSet == old(handlerSet)
    {
      state := newState;
      Flush();
    }

    /** The socket's `newData` handler: merge event `e` into its experiment's
        instances and flush; an event of an experiment that is not loaded is
        dropped without a flush. */
    method NewData(e: Event)
      modifies this
      ensures processors == old(processors) && handlerSet == old(handlerSet)
      ensures e.experiment !in old(state.experiments) ==>
        state == old(state) && notifications == old(notifications)
      ensures e.experiment in old(state.experiments) ==>
        && state == old(state).(experiments := old(state.experiments)[e.experiment := Merge(old(state.experiments)[e.experiment], e)])
        && notifications == old(notifications) + (if handlerSet then [state] else [])
      ensures old(DistinctDataset()) ==> DistinctDataset()
    {
      if e.experiment in state.experiments {
        var experiment := state.experiments[e.experiment];
        ghost var before := experiment;
        var found := -1;
        for i := 0 to |experiment|
          invariant found == LastMatch(experiment[..i], e.subject)
        {
          assert experiment[..i + 1][..i] == experiment[..i];
          if experiment[i].subject == e.subject {
            found := i;
          }
        }
        assert experiment[..|experiment|] == experiment;
        if found < 0 {
          experiment := experiment + [Instance(e.subject, [])];
          found := |experiment| - 1;
          assert experiment[found].data + [e] == [e];
          assert experiment[found := Instance(e.subject, [e])] == before + [Instance(e.subject, [e])];
        }
        experiment := experiment[found := Instance(experiment[found].subject, experiment[found].data + [e])];
        assert experiment == Merge(before, e);
        if old(DistinctDataset()) {
          MergePreservesDistinct(before, e);
        }
        state := state.(experiments := state.experiments[e.experiment := experiment]);
        Flush();
      }
    }

    /** The index of the selected instance lies within the selected
        experiment's instance list. */
    predicate IndexInRange()
      reads this
    {
      && state.experiment.Some?
      && state.experiment.value in state.experiments
      && state.instanceIndex.Some?
      && 0 <= state.instanceIndex.value < |state.experiments[state.experiment.value]|
    }

    /** `InstanceList.nextSubject`: step to the next instance unless the last
        one is selected. Reading the length of a list that is not loaded
        throws; an unset index compares false and nothing happens. */
    method NextSubject() returns (r: Completion<()>)
      modifies this
      ensures processors == old(processors) && handlerSet == old(handlerSet)
      ensures r.TypeError? <==> SelectedKey(old(state)) !in old(state.experiments)
      ensures r.TypeError? ==> state == old(state) && notifications == old(notifications)
      ensures r.Normal? ==>
        state == old(state).(instanceIndex :=
          NextIndex(old(state.instanceIndex), |old(state.experiments)[SelectedKey(old(state))]|))
      ensures r.Normal? ==>
        notifications == old(notifications) + (if handlerSet && state != old(state) then [state] else [])
      ensures old(IndexInRange()) ==> IndexInRange()
    {
      var key := SelectedKey(state);
      if key !in state.experiments {
        return TypeError;  // `undefined.length`
      }
      var length := |state.experiments[key]|;
      if state.instanceIndex.Some? && state.instanceIndex.value < length - 1 {
        SetState(state.(instanceIndex := Some(state.instanceIndex.value + 1)));
      }
      return Normal(());
    }

    /** `InstanceList.prevSubject`: step to the previous instance unless the
        first one is selected. */
    method PrevSubject()
      modifies this
      ensures processors == old(processors) && handlerSet == old(handlerSet)
      ensures state == old(state).(instanceIndex := PrevIndex(old(state.instanceIndex)))
      ensures notifications == old(notifications) + (if handlerSet && state != old(state) then [state] else [])
      ensures old(IndexInRange()) ==> IndexInRange()
    {
      if state.instanceIndex.Some? && state.instanceIndex.value >= 1 {
        SetState(state.(instanceIndex := Some(state.instanceIndex.value - 1)));
      }
    }
  }

  /** The key `data.experiments[data.experiment]` looks up: an unset
      experiment is the property name "undefined". */
  function SelectedKey(s: State): (k: string)
    ensures s.experiment.Some? ==> k == s.experiment.value
    ensures s.experiment.None? ==> k == "undefined"
  {
    match s.experiment
    case Some(name) => name
    case None => "undefined"
  }

  /** The index move of `nextSubject` on values: an index inside
      `[0, length)` stays inside, and moves up by one exactly when the move
      stays inside; otherwise (an unset index included) it is unchanged. */
  function NextIndex(index: Option<int>, length: nat): (r: Option<int>)
    ensures index.Some? && 0 <= index.value < length ==> r.Some? && 0 <= r.value < length
    ensures index.Some? && index.value + 1 < length <==> r.Some? && index.Some? && r.value == index.value + 1
    ensures !(index.Some? && index.value + 1 < length) ==> r == index
  {
    if index.Some? && index.value < length - 1 then Some(index.value + 1) else index
  }

  /** The index move of `prevSubject`: a non-negative index stays
      non-negative, and moves down by one exactly when it is at least 1. */
  function PrevIndex(index: Option<int>): (r: Option<int>)
    ensures index.Some? && index.value >= 0 ==> r.Some? && r.value >= 0
    ensures index.Some? && index.value >= 1 <==> r.Some? && index.Some? && r.value == index.value - 1
    ensures !(index.Some? && index.value >= 1) ==> r == index
  {
    if index.Some? && index.value >= 1 then Some(index.value - 1) else index
  }
}
