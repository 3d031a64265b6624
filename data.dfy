/** The data model shared by the server, the processors and the two front ends:
    events, per-subject instances, statistic pairs, processors and the front
    end's state object. */
module Data {
  import opened Js

  /** A subject identifier as it arrives in a JSON event body: a number or a
      string. Two subjects are `===` exactly when they are equal here. */
  datatype Subject = Num(n: int) | Text(text: string)

  /** The property key JavaScript derives from a subject when it indexes a
      plain object with it, `String(subject)`. Different subjects can share a
      key: `Num(1)` and `Text("1")` both give "1". */
  function Key(s: Subject): (k: string)
    ensures s.Text? ==> k == s.text
    ensures s.Num? ==> k == NumberToString(s.n)
  {
    match s
    case Num(n) => NumberToString(n)
    case Text(t) => t
  }

  /** Two numeric subjects share a key exactly when they are the same number;
      a numeric and a string subject share one exactly when the string is the
      number's decimal form. */
  lemma KeyOfNumbers(a: int, b: int, t: string)
    ensures Key(Num(a)) == Key(Num(b)) <==> a == b
    ensures Key(Num(a)) == Key(Text(t)) <==> t == NumberToString(a)
  {
    NumberToStringInjective(a, b);
  }

  /** An event's `args`: absent or null, or an object whose `left` field has
      the given truthiness (an absent `left` reads as false). */
  datatype Args = NoArgs | Fields(left: bool)

  /** One recorded event; `time` is the server's timestamp, an opaque integer. */
  datatype Event = Event(experiment: string, subject: Subject, kind: string, args: Args, time: int)

  /** All events recorded for one subject, in storage order. */
  datatype Instance = Instance(subject: Subject, data: seq<Event>)

  /** A JavaScript object a processor's `instanceStats` may be handed: an event
      or a whole instance record (which has no `event` or `args` field). */
  datatype Item = EventItem(ev: Event) | InstanceItem(inst: Instance)

  /** The value shown for a statistic: an integer, or the percentage
      `left / total * 100` kept as its two integer operands. */
  datatype StatValue = Number(n: int) | Percent(left: nat, total: nat)

  /** A display-ready `{name, value}` pair. */
  datatype Stat = Stat(name: string, value: StatValue)

  /** The pair of functions a processor script registers; either may be missing. */
  datatype Processor = Processor(
    globalStats: Option<seq<Instance> -> Completion<seq<Stat>>>,
    instanceStats: Option<seq<Item> -> Completion<seq<Stat>>>)

  /** One entry of config.json. */
  datatype ConfigEntry = ConfigEntry(name: string, longName: string, description: string, script: string)

  /** The front end's state object: the page shown, the dataset (experiment
      name to its instances), the configuration, and the navigation focus. */
  datatype State = State(
    page: string,
    experiments: map<string, seq<Instance>>,
    config: Option<seq<ConfigEntry>>,
    experiment: Option<string>,
    instanceIndex: Option<int>)

  /** `{page: "experiments", experiments: {}, config: null}`. */
  const InitialState: State := State("experiments", map[], None, None, None)

  /** The events of a sequence, as the objects a processor sees. */
  function Items(events: seq<Event>): (r: seq<Item>)
    ensures |r| == |events|
    ensures forall i :: 0 <= i < |events| ==> r[i] == EventItem(events[i])
  {
    seq(|events|, i requires 0 <= i < |events| => EventItem(events[i]))
  }

  /** Instance records, as the objects a processor sees when handed a whole
      experiment's list. */
  function Records(insts: seq<Instance>): (r: seq<Item>)
    ensures |r| == |insts|
    ensures forall i :: 0 <= i < |insts| ==> r[i] == InstanceItem(insts[i])
  {
    seq(|insts|, i requires 0 <= i < |insts| => InstanceItem(insts[i]))
  }

  /** A processor result passed on by `processGlobal`/`processInstance`:
      a returned value becomes a non-null result, an exception propagates. */
  function Passed(c: Completion<seq<Stat>>): (r: Completion<Option<seq<Stat>>>)
    ensures c.TypeError? <==> r.TypeError?
    ensures c.Normal? ==> r == Normal(Some(c.value))
  {
    match c
    case Normal(v) => Normal(Some(v))
    case TypeError => TypeError
  }

  /** The events of `es` whose subject is `s`, in order. */
  function WithSubject(es: seq<Event>, s: Subject): seq<Event> {
    if es == [] then []
    else WithSubject(es[..|es| - 1], s) + (if es[|es| - 1].subject == s then [es[|es| - 1]] else [])
  }

  /** The events of all instances whose subject is `s`, in instance order. */
  function EventsFor(insts: seq<Instance>, s: Subject): seq<Event> {
    if insts == [] then []
    else EventsFor(insts[..|insts| - 1], s) + (if insts[|insts| - 1].subject == s then insts[|insts| - 1].data else [])
  }

  /** At most one instance per subject. */
  predicate DistinctSubjects(insts: seq<Instance>) {
    forall i, j :: 0 <= i < j < |insts| ==> insts[i].subject != insts[j].subject
  }

  /** The number of events held by all instances together. */
  function TotalEvents(insts: seq<Instance>): nat {
    if insts == [] then 0 else TotalEvents(insts[..|insts| - 1]) + |insts[|insts| - 1].data|
  }
}
