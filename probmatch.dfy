/** The ProbMatch processor plugin: counts `ButtonPress` events and the ones
    among them pressed on the left, per instance and over a whole experiment. */
module ProbMatch {
  import opened Js
  import opened Data

  /** The two counters the plugin keeps. */
  datatype Counts = Counts(left: nat, total: nat)

  /** `item.event === "ButtonPress"`; an instance record has no `event` field. */
  predicate IsPress(item: Item) {
    item.EventItem? && item.ev.kind == "ButtonPress"
  }

  /** A press whose `args` is null or absent: reading `args.left` throws. */
  predicate BadPress(item: Item) {
    IsPress(item) && item.ev.args.NoArgs?
  }

  /** A press with a truthy `args.left`. */
  predicate LeftPress(item: Item) {
    IsPress(item) && item.ev.args.Fields? && item.ev.args.left
  }

  /** The items of `items` that satisfy `p`, in order. */
  function Select(items: seq<Item>, p: Item -> bool): seq<Item> {
    if items == [] then []
    else Select(items[..|items| - 1], p) + (if p(items[|items| - 1]) then [items[|items| - 1]] else [])
  }

  /** One iteration of the plugin's loop body on counters `c`. */
  function Count(c: Counts, item: Item): Completion<Counts> {
    if !IsPress(item) then Normal(c)
    else match item.ev.args
      case NoArgs => TypeError
      case Fields(left) => Normal(Counts(if left then c.left + 1 else c.left, c.total + 1))
  }

  /** The counters after running the loop over `items` from zero. */
  function Tally(items: seq<Item>): Completion<Counts> {
    if items == [] then Normal(Counts(0, 0))
    else match Tally(items[..|items| - 1])
      case TypeError => TypeError
      case Normal(c) => Count(c, items[|items| - 1])
  }

  /** Two tallies of consecutive runs, added up; an exception in either wins. */
  function Combine(a: Completion<Counts>, b: Completion<Counts>): Completion<Counts> {
    if a.TypeError? || b.TypeError? then TypeError
    else Normal(Counts(a.value.left + b.value.left, a.value.total + b.value.total))
  }

  /** The literal result both plugin functions build from their counters. */
  function Report(c: Counts): seq<Stat> {
    [Stat("Button Presses", Number(c.total)), Stat("% Left", Percent(c.left, c.total))]
  }

  /** `instanceStats` of experiments/probmatch.js, as the function value the plugin registers. */
  function InstanceReport(instance: seq<Item>): Completion<seq<Stat>> {
    match Tally(instance)
    case TypeError => TypeError
    case Normal(c) => Normal(Report(c))
  }

  /** Every event of every instance, in the order `globalStats` visits them. */
  function AllItems(data: seq<Instance>): seq<Item> {
    if data == [] then [] else AllItems(data[..|data| - 1]) + Items(data[|data| - 1].data)
  }

  /** `globalStats` of experiments/probmatch.js: one pair of counters shared by all instances. */
  function GlobalReport(data: seq<Instance>): Completion<seq<Stat>> {
    match Tally(AllItems(data))
    case TypeError => TypeError
    case Normal(c) => Normal(Report(c))
  }

  /** The tallies of the instances taken one by one and added up. */
  function SumOfInstanceTallies(data: seq<Instance>): Completion<Counts> {
    if data == [] then Normal(Counts(0, 0))
    else Combine(SumOfInstanceTallies(data[..|data| - 1]), Tally(Items(data[|data| - 1].data)))
  }

  /** What the plugin script registers under "ProbMatch". */
  function Registration(): (p: Processor)
    ensures p.globalStats == Some(GlobalReport) && p.instanceStats == Some(InstanceReport)
  {
    Processor(Some(GlobalReport), Some(InstanceReport))
  }

  // ---------------------------------------------------------------------------
  // The plugin's loops

  /** `instanceStats`: the loop over one instance's events. */
  method InstanceStats(instance: seq<Item>) returns (r: Completion<seq<Stat>>)
    ensures r == InstanceReport(instance)
  {
    var left, total := 0, 0;
    for i := 0 to |instance|
      invariant Tally(instance[..i]) == Normal(Counts(left, total))
    {
      TallySnoc(instance[..i], instance[i]);
      assert instance[..i + 1] == instance[..i] + [instance[i]];
      if instance[i].EventItem? && instance[i].ev.kind == "ButtonPress" {
        total := total + 1;
        if instance[i].ev.args.NoArgs? {
          // reading `args.left` of null throws
          assert instance[i] in instance;
          TallyMeaning(instance);
          return TypeError;
        }
        if instance[i].ev.args.left {
          left := left + 1;
        }
      }
    }
    assert instance[..|instance|] == instance;
    r := Normal(Report(Counts(left, total)));
  }

  /** `globalStats`: `data.map` over the instances, and the same loop inside,
      with the counters shared across instances. */
  method GlobalStats(data: seq<Instance>) returns (r: Completion<seq<Stat>>)
    ensures r == GlobalReport(data)
  {
    var left, total := 0, 0;
    for k := 0 to |data|
      invariant Tally(AllItems(data[..k])) == Normal(Counts(left, total))
    {
      var instance := data[k].data;
      ghost var before := AllItems(data[..k]);
      AllItemsSnoc(data, k);
      assert before + Items(instance[..0]) == before;
      for i := 0 to |instance|
        invariant Tally(before + Items(instance[..i])) == Normal(Counts(left, total))
      {
        TallyItemsSnoc(before, instance, i);
        if instance[i].kind == "ButtonPress" {
          total := total + 1;
          if instance[i].args.NoArgs? {
            // reading `args.left` of null throws
            GlobalThrows(data, k, i);
            return TypeError;
          }
          if instance[i].args.left {
            left := left + 1;
          }
        }
      }
      assert instance[..|instance|] == instance;
    }
    assert data[..|data|] == data;
    r := Normal(Report(Counts(left, total)));
  }

  lemma AllItemsSnoc(data: seq<Instance>, k: nat)
    requires k < |data|
    ensures AllItems(data[..k + 1]) == AllItems(data[..k]) + Items(data[k].data)
  {
    assert data[..k + 1][..k] == data[..k];
  }

  lemma TallyItemsSnoc(before: seq<Item>, events: seq<Event>, i: nat)
    requires i < |events|
    ensures Tally(before + Items(events[..i + 1])) ==
      if Tally(before + Items(events[..i])).TypeError? then TypeError
      else Count(Tally(before + Items(events[..i])).value, EventItem(events[i]))
  {
    assert Items(events[..i + 1]) == Items(events[..i]) + [EventItem(events[i])];
    assert before + Items(events[..i + 1]) == (before + Items(events[..i])) + [EventItem(events[i])];
    TallySnoc(before + Items(events[..i]), EventItem(events[i]));
  }

  lemma GlobalThrows(data: seq<Instance>, k: nat, i: nat)
    requires k < |data| && i < |data[k].data|
    requires BadPress(EventItem(data[k].data[i]))
    ensures GlobalReport(data) == TypeError
  {
    EventInAllItems(data, k, i);
    TallyMeaning(AllItems(data));
  }

  // ---------------------------------------------------------------------------
  // What the counts mean

  lemma TallySnoc(items: seq<Item>, x: Item)
    ensures Tally(items + [x]) == if Tally(items).TypeError? then TypeError else Count(Tally(items).value, x)
  {
  }

  /** The loop throws exactly when some button press has no `args`; otherwise
      `total` is the number of button presses and `left` the number of those
      with a truthy `args.left`, so `0 <= left <= total`. */
  lemma {:induction false} TallyMeaning(items: seq<Item>)
    ensures Tally(items).TypeError? <==> exists x :: x in items && BadPress(x)
    ensures Tally(items).Normal? ==>
      Tally(items).value == Counts(|Select(items, LeftPress)|, |Select(items, IsPress)|)
    ensures |Select(items, LeftPress)| <= |Select(items, IsPress)|
  {
    if items != [] {
      var prefix, x := items[..|items| - 1], items[|items| - 1];
      assert items == prefix + [x];
      TallyMeaning(prefix);
      assert forall y :: y in items <==> y in prefix || y == x;
      assert (exists y :: y in items && BadPress(y)) <==> (exists y :: y in prefix && BadPress(y)) || BadPress(x);
      assert Tally(items).TypeError? <==> Tally(prefix).TypeError? || BadPress(x);
    }
  }

  /** Running the loop over two consecutive runs gives the sum of the two tallies. */
  lemma {:induction false} TallyAppend(a: seq<Item>, b: seq<Item>)
    ensures Tally(a + b) == Combine(Tally(a), Tally(b))
    decreases |b|
  {
    if b == [] {
      assert a + b == a;
    } else {
      var b', y := b[..|b| - 1], b[|b| - 1];
      assert a + b == (a + b') + [y];
      TallySnoc(a + b', y);
      TallyAppend(a, b');
    }
  }

  /** Events of any other kind change neither count: removing one leaves the tally as it was. */
  lemma NonPressIgnored(before: seq<Item>, x: Item, after: seq<Item>)
    requires !IsPress(x)
    ensures Tally(before + [x] + after) == Tally(before + after)
  {
    TallyAppend(before + [x], after);
    TallyAppend(before, [x]);
    TallyAppend(before, after);
    assert Tally([x]) == Normal(Counts(0, 0)) by {
      assert [x][..0] == [];
    }
  }

  /** `globalStats`' counters end up as the sums, over all instances, of the
      counters `instanceStats` computes for each instance alone. */
  lemma {:induction false} GlobalIsSumOfInstances(data: seq<Instance>)
    ensures Tally(AllItems(data)) == SumOfInstanceTallies(data)
  {
    if data != [] {
      GlobalIsSumOfInstances(data[..|data| - 1]);
      TallyAppend(AllItems(data[..|data| - 1]), Items(data[|data| - 1].data));
    }
  }

  lemma {:induction false} EventInAllItems(data: seq<Instance>, k: nat, i: nat)
    requires k < |data| && i < |data[k].data|
    ensures EventItem(data[k].data[i]) in AllItems(data)
  {
    if k < |data| - 1 {
      EventInAllItems(data[..|data| - 1], k, i);
    } else {
      assert Items(data[k].data)[i] == EventItem(data[k].data[i]);
    }
  }

  /** The pairs `instanceStats` returns: exactly two, "Button Presses" with the
      number of presses first, then "% Left" computed from the left presses
      and all presses; or a TypeError when a press has no `args`. */
  lemma InstanceReportMeaning(instance: seq<Item>)
    ensures (exists x :: x in instance && BadPress(x)) ==> InstanceReport(instance) == TypeError
    ensures (forall x :: x in instance ==> !BadPress(x)) ==>
      InstanceReport(instance) == Normal([
        Stat("Button Presses", Number(|Select(instance, IsPress)|)),
        Stat("% Left", Percent(|Select(instance, LeftPress)|, |Select(instance, IsPress)|))])
  {
    TallyMeaning(instance);
  }

  /** Handed instance records instead of events (as frontend.jsx does),
      `instanceStats` counts nothing: no record has `event === "ButtonPress"`. */
  lemma {:induction false} InstanceRecordsCountNothing(records: seq<Instance>)
    ensures InstanceReport(Records(records)) == Normal(Report(Counts(0, 0)))
  {
    var items := Records(records);
    TallyMeaning(items);
    NoPressSelectsNothing(items);
  }

  lemma {:induction false} NoPressSelectsNothing(items: seq<Item>)
    requires forall i :: 0 <= i < |items| ==> items[i].InstanceItem?
    ensures Select(items, IsPress) == [] && Select(items, LeftPress) == []
  {
    if items != [] {
      NoPressSelectsNothing(items[..|items| - 1]);
    }
  }

  /** A button press among the items is counted. */
  lemma {:induction false} PressSelected(items: seq<Item>, k: nat)
    requires k < |items| && IsPress(items[k])
    ensures |Select(items, IsPress)| > 0
  {
    if k < |items| - 1 {
      PressSelected(items[..|items| - 1], k);
    }
  }

  /** A worked example: Start, a left press, a right press,
      End for one subject gives "Button Presses" 2 and "% Left" 1 of 2. */
  lemma ExampleSession(subject: Subject, t0: int, t1: int, t2: int, t3: int)
    ensures InstanceReport([
      EventItem(Event("ProbMatch", subject, "Start", NoArgs, t0)),
      EventItem(Event("ProbMatch", subject, "ButtonPress", Fields(true), t1)),
      EventItem(Event("ProbMatch", subject, "ButtonPress", Fields(false), t2)),
      EventItem(Event("ProbMatch", subject, "End", NoArgs, t3))])
      == Normal([Stat("Button Presses", Number(2)), Stat("% Left", Percent(1, 2))])
  {
    var a := EventItem(Event("ProbMatch", subject, "Start", NoArgs, t0));
    var b := EventItem(Event("ProbMatch", subject, "ButtonPress", Fields(true), t1));
    var c := EventItem(Event("ProbMatch", subject, "ButtonPress", Fields(false), t2));
    var d := EventItem(Event("ProbMatch", subject, "End", NoArgs, t3));
    TallySnoc([], a);
    TallySnoc([a], b);
    TallySnoc([a, b], c);
    TallySnoc([a, b, c], d);
    assert [] + [a] == [a];
    assert [a] + [b] == [a, b];
    assert [a, b] + [c] == [a, b, c];
    assert [a, b, c] + [d] == [a, b, c, d];
  }
}
