/** The server's logic: the MIME type of a served file, the `/file` route's
    path check, and the `/experiment` route's grouping of stored entries into
    per-subject buckets. */
module Server {
  import opened Js
  import opened Data

  // ---------------------------------------------------------------------------
  // get_mime

  /** The suffixes `get_mime` tests, in the order it tests them, with their types. */
  const MimeTable: seq<(string, string)> := [
    (".js", "text/javascript"),
    (".css", "text/css"),
    (".json", "text/json"),
    (".pdf", "application/pdf"),
    (".png", "image/png"),
    (".jpeg", "image/jpeg"),
    (".class", "application/java-vm")]

  /** The MIME type for a path, by its suffix (the chain of tests of `get_mime`). */
  function GetMime(path: string): string {
    if EndsWith(path, ".js") then "text/javascript"
    else if EndsWith(path, ".css") then "text/css"
    else if EndsWith(path, ".json") then "text/json"
    else if EndsWith(path, ".pdf") then "application/pdf"
    else if EndsWith(path, ".png") then "image/png"
    else if EndsWith(path, ".jpeg") then "image/jpeg"
    else if EndsWith(path, ".class") then "application/java-vm"
    else "text/plain"
  }

  /** `get_mime` answers with the type of the table entry whose suffix ends the
      path, and "text/plain" when none does. No suffix of the table ends
      another, so at most one entry matches and the order of the tests never
      decides the answer. */
  lemma GetMimeByTable(path: string)
    ensures forall i :: 0 <= i < |MimeTable| && EndsWith(path, MimeTable[i].0) ==> GetMime(path) == MimeTable[i].1
    ensures (forall i :: 0 <= i < |MimeTable| ==> !EndsWith(path, MimeTable[i].0)) ==> GetMime(path) == "text/plain"
  {
    SuffixesExclusive(path);
    forall i | 0 <= i < |MimeTable| && EndsWith(path, MimeTable[i].0)
      ensures GetMime(path) == MimeTable[i].1
    {
      if i == 0 {
      } else if i == 1 {
        assert !EndsWith(path, MimeTable[0].0);
      } else if i == 2 {
        assert !EndsWith(path, MimeTable[0].0) && !EndsWith(path, MimeTable[1].0);
      } else if i == 3 {
        assert !EndsWith(path, MimeTable[0].0) && !EndsWith(path, MimeTable[1].0) && !EndsWith(path, MimeTable[2].0);
      } else if i == 4 {
        assert forall j :: 0 <= j < 4 ==> !EndsWith(path, MimeTable[j].0);
        assert !EndsWith(path, MimeTable[0].0) && !EndsWith(path, MimeTable[1].0) && !EndsWith(path, MimeTable[2].0);
        assert !EndsWith(path, MimeTable[3].0);
      } else if i == 5 {
        assert forall j :: 0 <= j < 5 ==> !EndsWith(path, MimeTable[j].0);
        assert !EndsWith(path, MimeTable[0].0) && !EndsWith(path, MimeTable[1].0) && !EndsWith(path, MimeTable[2].0);
        assert !EndsWith(path, MimeTable[3].0) && !EndsWith(path, MimeTable[4].0);
      } else {
        assert forall j :: 0 <= j < 6 ==> !EndsWith(path, MimeTable[j].0);
        assert !EndsWith(path, MimeTable[0].0) && !EndsWith(path, MimeTable[1].0) && !EndsWith(path, MimeTable[2].0);
        assert !EndsWith(path, MimeTable[3].0) && !EndsWith(path, MimeTable[4].0) && !EndsWith(path, MimeTable[5].0);
      }
    }
    if forall i :: 0 <= i < |MimeTable| ==> !EndsWith(path, MimeTable[i].0) {
      assert !EndsWith(path, MimeTable[0].0) && !EndsWith(path, MimeTable[1].0) && !EndsWith(path, MimeTable[2].0);
      assert !EndsWith(path, MimeTable[3].0) && !EndsWith(path, MimeTable[4].0) && !EndsWith(path, MimeTable[5].0);
      assert !EndsWith(path, MimeTable[6].0);
    }
  }

  /** The `j`-th character from the end of a suffix of `s` is that of `s`. */
  lemma EndsWithChar(s: string, suffix: string, j: nat)
    requires EndsWith(s, suffix) && 1 <= j <= |suffix|
    ensures s[|s| - j] == suffix[|suffix| - j]
  {
  }

  /** A path ends with at most one suffix of the table. */
  lemma SuffixesExclusive(path: string)
    ensures forall i, j :: 0 <= i < j < |MimeTable| ==> !(EndsWith(path, MimeTable[i].0) && EndsWith(path, MimeTable[j].0))
  {
    forall i, j | 0 <= i < j < |MimeTable| && EndsWith(path, MimeTable[i].0) && EndsWith(path, MimeTable[j].0)
      ensures false
    {
      EndsWithChar(path, MimeTable[i].0, 1);
      EndsWithChar(path, MimeTable[j].0, 1);
      EndsWithChar(path, MimeTable[i].0, 2);
      EndsWithChar(path, MimeTable[j].0, 2);
      EndsWithChar(path, MimeTable[i].0, 3);
      EndsWithChar(path, MimeTable[j].0, 3);
    }
  }

  // ---------------------------------------------------------------------------
  // The /file route

  /** What the `/file` responder does with a request. */
  datatype FileAction =
    | NotFound                          // the 404 responder
    | Serve(path: string, mime: string) // read the file and reply 200 with that type

  /** The `/file` responder's decision for the query parameter `path`
      (`None` when the request has no `path` parameter). */
  function FileRoute(path: Option<string>): (r: Completion<FileAction>)
    ensures path.None? <==> r.TypeError?
    ensures path.Some? && (exists i: nat :: OccursAt(path.value, "..", i)) ==> r == Normal(NotFound)
    ensures path == Some("") ==> r == Normal(NotFound)
    ensures path.Some? && path.value != "" && (forall i: nat :: !OccursAt(path.value, "..", i)) ==>
      r == Normal(Serve(path.value, GetMime(path.value)))
    ensures r.Normal? && r.value.Serve? ==>
      && path == Some(r.value.path)
      && r.value.path != ""
      && (forall i: nat :: !OccursAt(r.value.path, "..", i))
      && r.value.mime == GetMime(r.value.path)
  {
    match path
    case None => TypeError       // `undefined.indexOf` throws
    case Some(p) =>
      if IndexOf(p, "..") >= 0 then Normal(NotFound)
      else if p == "" then Normal(NotFound)  // an empty string is falsy
      else Normal(Serve(p, GetMime(p)))
  }

  // ---------------------------------------------------------------------------
  // The /experiment route's grouping

  /** The entries of `es` whose subject has key `k`, in order. */
  function WithKey(es: seq<Event>, k: string): seq<Event> {
    if es == [] then []
    else WithKey(es[..|es| - 1], k) + (if Key(es[|es| - 1].subject) == k then [es[|es| - 1]] else [])
  }

  /** The keys of the subjects of `es`. */
  function KeysOf(es: seq<Event>): set<string> {
    if es == [] then {} else KeysOf(es[..|es| - 1]) + {Key(es[|es| - 1].subject)}
  }

  /** Some entry of `es` has a subject with key `k`. */
  predicate HasKey(es: seq<Event>, k: string) {
    exists j :: 0 <= j < |es| && Key(es[j].subject) == k
  }

  /** The keys of `es` are exactly the keys some entry has. */
  lemma {:induction false} KeysOfHasKey(es: seq<Event>, k: string)
    ensures k in KeysOf(es) <==> HasKey(es, k)
  {
    if es != [] {
      var front := es[..|es| - 1];
      KeysOfHasKey(front, k);
      if HasKey(es, k) && Key(es[|es| - 1].subject) != k {
        var j :| 0 <= j < |es| && Key(es[j].subject) == k;
        assert front[j] == es[j];
      }
      if HasKey(front, k) {
        var j :| 0 <= j < |front| && Key(front[j].subject) == k;
        assert es[j] == front[j];
      }
    }
  }

  /** A key some entry has selects at least that entry; any other key selects none. */
  lemma {:induction false} WithKeyEmptyIff(es: seq<Event>, k: string)
    ensures WithKey(es, k) == [] <==> k !in KeysOf(es)
  {
    if es != [] {
      WithKeyEmptyIff(es[..|es| - 1], k);
    }
  }

  /** `results` is what the grouping can produce for `entries`: one result per
      distinct subject key, named by that key, holding exactly the entries
      with that key in their original order; every entry's key has a result. */
  ghost predicate IsGrouping(entries: seq<Event>, results: seq<Instance>) {
    && (forall i :: 0 <= i < |results| ==>
          && results[i].subject.Text?
          && results[i].data == WithKey(entries, results[i].subject.text)
          && results[i].data != [])
    && (forall i, j :: 0 <= i < j < |results| ==> results[i].subject != results[j].subject)
    && CoversKeys(entries, results)
  }

  /** Every entry's key names some result. */
  predicate CoversKeys(entries: seq<Event>, results: seq<Instance>) {
    forall j :: 0 <= j < |entries| ==> Names(results, Key(entries[j].subject))
  }

  /** Some result is named by key `k`. */
  predicate Names(results: seq<Instance>, k: string) {
    exists i :: 0 <= i < |results| && results[i].subject == Text(k)
  }

  /** The grouping pass of the `/experiment` responder: fill a dictionary of
      buckets keyed by `String(subject)`, then emit one `{subject: key, data}`
      per key, in an order JavaScript's key enumeration chooses. */
  method GroupEntries(entries: seq<Event>) returns (results: seq<Instance>)
    ensures IsGrouping(entries, results)
  {
    var subjects := FillBuckets(entries);
    results := EmitBuckets(subjects);
    forall i | 0 <= i < |results|
      ensures results[i].data != []
    {
      WithKeyEmptyIff(entries, results[i].subject.text);
    }
    forall j | 0 <= j < |entries|
      ensures Names(results, Key(entries[j].subject))
    {
      KeysOfHasKey(entries, Key(entries[j].subject));
    }
  }

  /** The first loop of the responder: push every entry onto the bucket of its
      key, creating the bucket on the key's first entry. */
  method FillBuckets(entries: seq<Event>) returns (subjects: map<string, seq<Event>>)
    ensures subjects.Keys == KeysOf(entries)
    ensures forall k :: k in subjects ==> subjects[k] == WithKey(entries, k)
  {
    subjects := map[];
    for i := 0 to |entries|
      invariant subjects.Keys == KeysOf(entries[..i])
      invariant forall k :: k in subjects ==> subjects[k] == WithKey(entries[..i], k)
    {
      var entry := entries[i];
      var key := Key(entry.subject);
      ghost var before := subjects;
      if key !in subjects {
        subjects := subjects[key := []];
      }
      subjects := subjects[key := subjects[key] + [entry]];
      BucketsStep(entries, i, before, subjects);
    }
    assert entries[..|entries|] == entries;
  }

  /** One iteration of the first loop keeps the buckets those of the entries seen. */
  lemma BucketsStep(entries: seq<Event>, i: nat, before: map<string, seq<Event>>, after: map<string, seq<Event>>)
    requires i < |entries|
    requires before.Keys == KeysOf(entries[..i])
    requires forall k :: k in before ==> before[k] == WithKey(entries[..i], k)
    requires after.Keys == before.Keys + {Key(entries[i].subject)}
    requires after[Key(entries[i].subject)] ==
      (if Key(entries[i].subject) in before then before[Key(entries[i].subject)] else []) + [entries[i]]
    requires forall k :: k in before && k != Key(entries[i].subject) ==> after[k] == before[k]
    ensures after.Keys == KeysOf(entries[..i + 1])
    ensures forall k :: k in after ==> after[k] == WithKey(entries[..i + 1], k)
  {
    var key := Key(entries[i].subject);
    assert entries[..i + 1][..i] == entries[..i];
    if key !in before {
      WithKeyEmptyIff(entries[..i], key);
    }
  }

  /** The second loop of the responder: one result per bucket, named by its key. */
  method EmitBuckets(subjects: map<string, seq<Event>>) returns (results: seq<Instance>)
    ensures forall i :: 0 <= i < |results| ==>
      && results[i].subject.Text?
      && results[i].subject.text in subjects
      && results[i].data == subjects[results[i].subject.text]
    ensures forall i, j :: 0 <= i < j < |results| ==> results[i].subject != results[j].subject
    ensures forall k :: k in subjects ==> Names(results, k)
  {
    results := [];
    var remaining := subjects.Keys;
    ghost var keys: seq<string> := [];
    while remaining != {}
      invariant remaining <= subjects.Keys
      invariant |keys| == |results|
      invariant forall i :: 0 <= i < |results| ==>
        keys[i] in subjects && keys[i] !in remaining && results[i] == Instance(Text(keys[i]), subjects[keys[i]])
      invariant forall i, j :: 0 <= i < j < |results| ==> keys[i] != keys[j]
      invariant forall k :: k in subjects && k !in remaining ==> k in keys
      decreases remaining
    {
      var key :| key in remaining;
      results := results + [Instance(Text(key), subjects[key])];
      keys := keys + [key];
      remaining := remaining - {key};
    }
    forall k | k in subjects
      ensures Names(results, k)
    {
      var i :| 0 <= i < |keys| && keys[i] == k;
      assert results[i].subject == Text(k);
    }
  }

  // ---------------------------------------------------------------------------
  // What the grouping guarantees

  /** Every entry in a result has the result's subject as its key. */
  lemma GroupedEntriesShareKey(entries: seq<Event>, results: seq<Instance>, i: nat)
    requires IsGrouping(entries, results) && i < |results|
    ensures forall e :: e in results[i].data ==> e in entries && Key(e.subject) == results[i].subject.text
  {
    WithKeyMembers(entries, results[i].subject.text);
  }

  /** `WithKey` selects entries of `es`, each with key `k`. */
  lemma {:induction false} WithKeyMembers(es: seq<Event>, k: string)
    ensures forall e :: e in WithKey(es, k) ==> e in es && Key(e.subject) == k
  {
    if es != [] {
      WithKeyMembers(es[..|es| - 1], k);
      assert forall e :: e in es[..|es| - 1] ==> e in es;
    }
  }

  /** Selecting a key from two consecutive runs of entries selects from each in turn. */
  lemma {:induction false} WithKeyAppend(a: seq<Event>, b: seq<Event>, k: string)
    ensures WithKey(a + b, k) == WithKey(a, k) + WithKey(b, k)
    decreases |b|
  {
    if b == [] {
      assert a + b == a;
    } else {
      assert (a + b)[..|a + b| - 1] == a + b[..|b| - 1];
      WithKeyAppend(a, b[..|b| - 1], k);
    }
  }

  /** All results' entries, concatenated. */
  function Flatten(results: seq<Instance>): seq<Event> {
    if results == [] then [] else Flatten(results[..|results| - 1]) + results[|results| - 1].data
  }

  /** The keys named by `results`. */
  function ResultKeys(results: seq<Instance>): set<string> {
    if results == [] then {} else ResultKeys(results[..|results| - 1]) + {Key(results[|results| - 1].subject)}
  }

  /** The entries of `es` whose key is in `keys`, in order. */
  function WithKeyIn(es: seq<Event>, keys: set<string>): seq<Event> {
    if es == [] then []
    else WithKeyIn(es[..|es| - 1], keys) + (if Key(es[|es| - 1].subject) in keys then [es[|es| - 1]] else [])
  }

  /** The grouping is a partition: the buckets together hold every entry
      exactly as often as `entries` does, nothing lost or duplicated. */
  lemma GroupingIsPartition(entries: seq<Event>, results: seq<Instance>)
    requires IsGrouping(entries, results)
    ensures multiset(Flatten(results)) == multiset(entries)
  {
    FlattenByKeys(entries, results);
    forall j | 0 <= j < |entries|
      ensures Key(entries[j].subject) in ResultKeys(results)
    {
      var i :| 0 <= i < |results| && results[i].subject == Text(Key(entries[j].subject));
      ResultKeysHas(results, i);
    }
    WithKeyInAll(entries, ResultKeys(results));
  }

  lemma {:induction false} ResultKeysHas(results: seq<Instance>, i: nat)
    requires i < |results|
    ensures Key(results[i].subject) in ResultKeys(results)
  {
    if i < |results| - 1 {
      ResultKeysHas(results[..|results| - 1], i);
    }
  }

  lemma {:induction false} ResultKeysOnly(results: seq<Instance>, k: string)
    requires k in ResultKeys(results)
    ensures exists i :: 0 <= i < |results| && Key(results[i].subject) == k
  {
    if Key(results[|results| - 1].subject) != k {
      ResultKeysOnly(results[..|results| - 1], k);
      var i :| 0 <= i < |results| - 1 && Key(results[..|results| - 1][i].subject) == k;
      assert results[i] == results[..|results| - 1][i];
    }
  }

  lemma {:induction false} FlattenByKeys(entries: seq<Event>, results: seq<Instance>)
    requires forall i :: 0 <= i < |results| ==>
      results[i].subject.Text? && results[i].data == WithKey(entries, results[i].subject.text)
    requires forall i, j :: 0 <= i < j < |results| ==> results[i].subject != results[j].subject
    ensures multiset(Flatten(results)) == multiset(WithKeyIn(entries, ResultKeys(results)))
  {
    if results == [] {
      WithKeyInNone(entries);
    } else {
      var front, last := results[..|results| - 1], results[|results| - 1];
      FlattenByKeys(entries, front);
      if last.subject.text in ResultKeys(front) {
        ResultKeysOnly(front, last.subject.text);
      }
      WithKeyInAdd(entries, ResultKeys(front), last.subject.text);
    }
  }

  lemma {:induction false} WithKeyInNone(es: seq<Event>)
    ensures WithKeyIn(es, {}) == []
  {
    if es != [] {
      WithKeyInNone(es[..|es| - 1]);
    }
  }

  lemma {:induction false} WithKeyInAdd(es: seq<Event>, keys: set<string>, k: string)
    requires k !in keys
    ensures multiset(WithKeyIn(es, keys + {k})) == multiset(WithKeyIn(es, keys)) + multiset(WithKey(es, k))
  {
    if es != [] {
      var front, x := es[..|es| - 1], es[|es| - 1];
      WithKeyInAdd(front, keys, k);
      var both, some, one := WithKeyIn(front, keys + {k}), WithKeyIn(front, keys), WithKey(front, k);
      assert WithKeyIn(es, keys + {k}) == both + (if Key(x.subject) in keys + {k} then [x] else []);
      assert WithKeyIn(es, keys) == some + (if Key(x.subject) in keys then [x] else []);
      assert WithKey(es, k) == one + (if Key(x.subject) == k then [x] else []);
    }
  }

  lemma {:induction false} WithKeyInAll(es: seq<Event>, keys: set<string>)
    requires forall j :: 0 <= j < |es| ==> Key(es[j].subject) in keys
    ensures WithKeyIn(es, keys) == es
  {
    if es != [] {
      WithKeyInAll(es[..|es| - 1], keys);
    }
  }

  /** A numeric subject and the string of its digits land in the same bucket:
      the buckets are keyed by `String(subject)`. */
  lemma NumberAndItsStringShareBucket(entries: seq<Event>, results: seq<Instance>, a: nat, b: nat)
    requires IsGrouping(entries, results)
    requires a < |entries| && b < |entries|
    requires entries[a].subject.Num? && entries[b].subject == Text(NumberToString(entries[a].subject.n))
    ensures exists i :: 0 <= i < |results| && entries[a] in results[i].data && entries[b] in results[i].data
  {
    var i :| 0 <= i < |results| && results[i].subject == Text(Key(entries[a].subject));
    WithKeyHas(entries, a, results[i].subject.text);
    WithKeyHas(entries, b, results[i].subject.text);
  }

  /** The bucket of a number holds no entry of any other number: distinct
      numeric subjects are never grouped together. */
  lemma NumberBucketsSeparate(entries: seq<Event>, results: seq<Instance>, i: nat)
    requires IsGrouping(entries, results) && i < |results|
    ensures forall e, f :: e in results[i].data && f in results[i].data && e.subject.Num? && f.subject.Num? ==>
      e.subject == f.subject
  {
    GroupedEntriesShareKey(entries, results, i);
    forall e, f | e in results[i].data && f in results[i].data && e.subject.Num? && f.subject.Num?
      ensures e.subject == f.subject
    {
      KeyOfNumbers(e.subject.n, f.subject.n, "");
    }
  }

  lemma {:induction false} WithKeyHas(es: seq<Event>, j: nat, k: string)
    requires j < |es| && Key(es[j].subject) == k
    ensures es[j] in WithKey(es, k)
  {
    if j < |es| - 1 {
      WithKeyHas(es[..|es| - 1], j, k);
    }
  }
}
