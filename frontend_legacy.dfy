/** The data layer of the older front end (frontend.jsx). It keeps the same
    registry, state and handler as the current one, and has no live merge;
    its `processInstance` hands the processor the experiment's whole instance
    list instead of the instance it is asked about. */
module LegacyFrontend {
  import opened Js
  import opened Data
  import ProbMatch
  import Frontend

  class LegacyStore {
    var processors: map<string, Processor>
    var state: State
    var handlerSet: bool
    var notifications: seq<State>

    constructor ()
      ensures processors == map[] && state == InitialState
      ensures !handlerSet && notifications == []
    {
      processors := map[];
      state := InitialState;
      handlerSet := false;
      notifications := [];
    }

    /** `register`: the last registration for a name wins; nothing else changes. */
    method Register(exName: string, procFuncs: Processor)
      modifies this
      ensures processors == old(processors)[exName := procFuncs]
      ensures state == old(state) && handlerSet == old(handlerSet) && notifications == old(notifications)
    {
      processors := processors[exName := procFuncs];
    }

    /** `processGlobal`, as in the current front end. */
    function ProcessGlobal(name: string): (r: Completion<Option<seq<Stat>>>)
      reads this
      ensures r.TypeError? <==>
        name !in processors
        || (name in state.experiments && processors[name].globalStats.Some?
            && processors[name].globalStats.value(state.experiments[name]).TypeError?)
      ensures r == Normal(None) <==>
        name in processors && (name !in state.experiments || processors[name].globalStats.None?)
      ensures r.Normal? && r.value.Some? ==>
        name in processors && name in state.experiments && processors[name].globalStats.Some?
        && processors[name].globalStats.value(state.experiments[name]) == Normal(r.value.value)
    {
      if name !in processors then TypeError
      else if name in state.experiments && processors[name].globalStats.Some? then
        Passed(processors[name].globalStats.value(state.experiments[name]))
      else Normal(None)
    }

    /** `processInstance`: `instanceStats` applied to the experiment's list of
        instance records; `instance` is only logged. Null when the list is not
        loaded or the processor has no `instanceStats`. */
    function ProcessInstance(exName: string, instance: Option<seq<Event>>): (r: Completion<Option<seq<Stat>>>)
      reads this
      ensures r.TypeError? <==>
        exName !in processors
        || (exName in state.experiments && processors[exName].instanceStats.Some?
            && processors[exName].instanceStats.value(Records(state.experiments[exName])).TypeError?)
      ensures r == Normal(None) <==>
        exName in processors && (exName !in state.experiments || processors[exName].instanceStats.None?)
      ensures r.Normal? && r.value.Some? ==>
        exName in processors && exName in state.experiments && processors[exName].instanceStats.Some?
        && processors[exName].instanceStats.value(Records(state.experiments[exName])) == Normal(r.value.value)
    {
      if exName !in processors then TypeError
      else if exName in state.experiments && processors[exName].instanceStats.Some? then
        Passed(processors[exName].instanceStats.value(Records(state.experiments[exName])))
      else Normal(None)
    }

    /** `start`, without its downloads: install the handler. */
    method Start(handler: bool)
      modifies this
      ensures handlerSet == handler
      ensures processors == old(processors) && state == old(state) && notifications == old(notifications)
    {
      handlerSet := handler;
    }

    /** `flush`: hand the current state to the handler, if there is one. */
    method Flush()
      modifies this
      ensures notifications == old(notifications) + (if handlerSet then [state] else [])
      ensures processors == old(processors) && state == old(state) && handlerSet == old(handlerSet)
    {
      if handlerSet {
        notifications := notifications + [state];
      }
    }

    /** `setState`: replace the whole state, then call the handler exactly
        once with it, if there is a handler. */
    method SetState(newState: State)
      modifies this
      ensures state == newState
      ensures notifications == old(notifications) + (if handlerSet then [newState] else [])
      ensures processors == old(processors) && handlerSet == old(handlerSet)
    {
      state := newState;
      Flush();
    }
  }

  /** With the ProbMatch plugin registered and the experiment loaded, the
      older front end's per-instance statistics never count a press: whatever
      instance is asked about, the answer is zero presses of zero. */
  lemma LegacyInstanceStatsCountNothing(store: LegacyStore, exName: string, instance: Option<seq<Event>>)
    requires exName in store.processors && store.processors[exName] == ProbMatch.Registration()
    requires exName in store.state.experiments
    ensures store.ProcessInstance(exName, instance) == Normal(Some(ProbMatch.Report(ProbMatch.Counts(0, 0))))
  {
    ProbMatch.InstanceRecordsCountNothing(store.state.experiments[exName]);
  }

  /** The two front ends disagree on the per-instance statistics: given the
      same registry and a dataset where the experiment is loaded, for events
      with a press and non-null `args` on every press (other events, such as
      Start and End, may have null `args`), the current one counts the
      presses, the older one none at all. */
  lemma FrontEndsDisagreeOnInstances(current: Frontend.Store, legacy: LegacyStore, exName: string, events: seq<Event>)
    requires exName in current.processors && current.processors[exName] == ProbMatch.Registration()
    requires legacy.processors == current.processors && legacy.state == current.state
    requires exName in legacy.state.experiments
    requires forall e :: e in events && e.kind == "ButtonPress" ==> e.args.Fields?
    requires exists e :: e in events && e.kind == "ButtonPress"
    ensures current.ProcessInstance(exName, Some(events)).Normal?
    ensures legacy.ProcessInstance(exName, Some(events)).Normal?
    ensures current.ProcessInstance(exName, Some(events)) != legacy.ProcessInstance(exName, Some(events))
  {
    var items := Items(events);
    LegacyInstanceStatsCountNothing(legacy, exName, Some(events));
    ProbMatch.TallyMeaning(items);
    var e :| e in events && e.kind == "ButtonPress";
    var k :| 0 <= k < |events| && events[k] == e;
    assert forall x :: x in items ==> !ProbMatch.BadPress(x);
    ProbMatch.PressSelected(items, k);
  }

  /** Given the same registry and dataset, both front ends agree on the
      experiment-wide statistics. */
  lemma FrontEndsAgreeOnGlobal(current: Frontend.Store, legacy: LegacyStore, name: string)
    requires legacy.processors == current.processors && legacy.state == current.state
    ensures current.ProcessGlobal(name) == legacy.ProcessGlobal(name)
  {
  }
}
