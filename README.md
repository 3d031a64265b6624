# mindcriftdata: event aggregation and statistics, modelled in Dafny

mindcriftdata records the events of browser-based psychology experiments and
shows per-experiment and per-subject statistics. Each event is a JSON object
`{experiment, subject, event, args}`. A small Node server timestamps and
stores each event, and broadcasts it to the open front ends. Each front end
keeps an in-memory dataset: experiment name → instances, where an instance is
a subject with its events. Per-experiment processor plugins turn that dataset
into display-ready `{name, value}` pairs.

This project models the logic of that pipeline and proves what it guarantees:

- **Server** (`server.dfy`, module `Server`):
  - `get_mime`, the suffix-to-MIME-type chain;
  - the `/file` route's decision, including its `..` check;
  - the `/experiment` route's grouping of stored entries into one
    `{subject: key, data}` bucket per `String(subject)` key.
- **ProbMatch plugin** (`probmatch.dfy`, module `ProbMatch`):
  - its two counting loops, `instanceStats` and `globalStats`;
  - the pure counting functions they are proved equal to;
  - the pairs the plugin returns.
- **Current front end** (`frontend.dfy`, module `Frontend`):
  - the `Processors` module as a class `Store`: the registry, `processGlobal`,
    `processInstance`, `setState`, `flush`, and the socket's `newData` merge
    of a live event;
  - the clamped index moves of `InstanceList.nextSubject` and `prevSubject`.
- **View helpers** (`frontend_views.dfy`, module `FrontendViews`):
  - `InstanceStats.isComplete`;
  - `EventViewer`'s in-place time sort, as a stable insertion sort on an
    array.
- **Older front end** (`frontend_legacy.dfy`, module `LegacyFrontend`): the
  `Processors` module of frontend.jsx, whose `processInstance` hands the
  whole instance list of the experiment to `instanceStats`.
- **History and live events together** (`live_sync.dfy`, module `LiveSync`):
  - a session starts from the server's grouping, and live events are then
    merged into it;
  - for string subjects, this gives the stored events followed by the live
    ones;
  - for a numeric subject with stored history, the live events open a second
    instance with the same key. The grouping names buckets by the key string,
    while live events keep their numeric subject and are matched with `===`.

Shared definitions sit in `js.dfy` (module `Js`) and `data.dfy` (module `Data`):
- `Js` holds JavaScript's `undefined`/`null` as `Option`, a thrown TypeError
  as the `TypeError` case of `Completion`, `indexOf`, `endsWith`, and
  `String(n)` for integers;
- `Data` holds the event, instance, statistic, processor and state types.

Modelling conventions:
- A subject is `Num(n)` or `Text(s)`, the two shapes a JSON body gives.
- `===` on subjects is equality of these values.
- An object key derived from a subject is `Key(subject)`, which is
  `String(subject)`.
- A processor is a pair of optional function values.
- The state handler is a flag, plus a log of every state it was called with.
- The plugin's `"% Left"` value is kept as its two integer operands.

Where the code does something other than one would expect, the model follows the code:
- **Unknown processor.** `processGlobal(name)` and `processInstance(name, …)`
  read `processors[name].globalStats` with no guard. When `name` was never
  registered they throw a TypeError; they do not return null. The model
  returns `TypeError` there.
- **Bucket order.** The server emits buckets in the key enumeration order of
  `for…in` (integer-like keys first, in ascending order), not in first-seen
  order. The model leaves the order open: `Server.IsGrouping` holds for
  every order.
- **The display sort writes to storage.** `EventViewer` sorts the stored
  `instance.data` array in place, so the canonical order is changed.
  `FrontendViews.SortEventsByTime` models that in-place sort.
- **A failed file read sends no 404.** When `fs.readFile` fails, `get_file`
  logs `error` (server.js:37), a name not declared in that scope (the
  callback's parameter is `err`). So a ReferenceError is thrown before
  `callback(null)` runs, and the 404 branch at server.js:90-93 is never
  reached. `Server.FileRoute` models the decision up to the read, and a
  `Serve` action stands for "read the file and reply 200 with that type".
- **What `processInstance` gets.** In frontend.jsx, `processInstance` passes
  the experiment's list of instance records to `instanceStats`. With ProbMatch
  this counts 0 of 0 for every loaded experiment (`LegacyInstanceStatsCountNothing`). The same
  inputs give a different answer in frontend.js
  (`FrontEndsDisagreeOnInstances`).

## Model

| member | source | states |
|---|---|---|
| Js.IndexOf | server.js:77 | `s.indexOf(pat)`: -1 exactly when `pat` occurs nowhere, else the first position where it occurs |
| Js.NumberToString | server.js:167-171 | `String(n)` of an integer: non-empty, starting with '-' exactly for a negative number |
| Js.NumberToStringRoundTrip | server.js:167-171 | the string `String(n)` reads back as `n`: its digits denote the magnitude of `n` and its sign is that of `n` |
| Js.DecimalDigitsValue | server.js:167-171 | the decimal digits of a natural number denote it and have no leading zero |
| Js.NumberToStringInjective | server.js:167-171 | two integers have the same string exactly when they are equal |
| Data.KeyOfNumbers | server.js:167-173 | two numeric subjects share an object key exactly when they are equal, and a numeric and a string subject share one exactly when the string is the number's `String` |
| ProbMatch.InstanceStats | experiments/probmatch.js:30-54 | the `instanceStats` loop returns exactly what the counting specification `InstanceReport` gives, including its TypeError |
| ProbMatch.GlobalStats | experiments/probmatch.js:2-28 | the `globalStats` nested loops return exactly `GlobalReport`, the count over all events of all instances |
| ProbMatch.TallyMeaning | experiments/probmatch.js:34-41 | the loop throws iff some press has null `args`; otherwise total = number of `ButtonPress` events, left = number of them with truthy `args.left`, and left <= total |
| ProbMatch.TallyAppend | experiments/probmatch.js:6-17 | the counts over two consecutive runs of events are the sums of the counts over each run |
| ProbMatch.NonPressIgnored | experiments/probmatch.js:9 | an event of any other kind changes neither count |
| ProbMatch.GlobalIsSumOfInstances | experiments/probmatch.js:6-17 | `globalStats`' counts are the sums, over all instances, of the per-instance counts |
| ProbMatch.EventInAllItems | experiments/probmatch.js:6-8 | `globalStats` visits every event of every instance |
| ProbMatch.InstanceReportMeaning | experiments/probmatch.js:44-53 | exactly two pairs, "Button Presses" with the number of presses first, then "% Left" from the left and total counts; or a TypeError for a press with null `args` |
| ProbMatch.InstanceRecordsCountNothing | experiments/probmatch.js:35 | handed instance records instead of events, `instanceStats` counts 0 of 0, because records have no `event` field |
| ProbMatch.PressSelected | experiments/probmatch.js:35-36 | any `ButtonPress` present is counted in the total |
| ProbMatch.ExampleSession | experiments/probmatch.js:30-54 | Start, a left press, a right press, End give "Button Presses" 2 and "% Left" 1 of 2 |
| Server.GetMimeByTable | server.js:8-31 | `GetMime`, the chain of tests of `get_mime`, answers with the type of the table suffix that ends the path, and "text/plain" when none does; at most one suffix matches (`SuffixesExclusive`), so the test order never decides the answer |
| Server.SuffixesExclusive | server.js:8-31 | no path ends with two of the seven suffixes |
| Server.FileRoute | server.js:72-100 | no `path` parameter throws; a path containing ".." or the empty path gets the 404 responder; any other path is served with the MIME type `get_mime` gives it, and no served path contains ".." |
| Server.GroupEntries | server.js:164-185 | the result is a grouping (`IsGrouping`): one result per distinct key, named by that key, with non-empty data = that key's entries in their original order, and every entry's key has a result |
| Server.FillBuckets | server.js:164-174 | the dictionary has exactly the keys of the entries, and each bucket holds that key's entries in their original order |
| Server.EmitBuckets | server.js:176-185 | one result per dictionary key, whatever the enumeration order: its subject is the key, its data the bucket, with no key emitted twice |
| Server.BucketsStep | server.js:168-173 | creating a missing bucket and pushing the entry keeps the dictionary equal to the buckets of the entries seen so far |
| Server.KeysOfHasKey | server.js:168 | a key has a bucket exactly when some entry has that key |
| Server.WithKeyEmptyIff | server.js:168-170 | a bucket is empty exactly when no entry has its key, so no emitted bucket is empty |
| Server.GroupingIsPartition | server.js:164-185 | the buckets together hold every entry exactly as often as the input does, with nothing lost or duplicated |
| Server.GroupedEntriesShareKey | server.js:178-183 | every entry in a result is an input entry whose key is the result's subject |
| Server.WithKeyMembers | server.js:173 | a bucket holds only input entries with its key |
| Server.NumberAndItsStringShareBucket | server.js:168-173 | an entry with subject `n` and one with subject `String(n)` land in the same bucket |
| Server.NumberBucketsSeparate | server.js:167-173 | a bucket never holds entries of two different numeric subjects |
| Server.WithKeyAppend | server.js:166-174 | the bucket of a key over two consecutive runs of entries is the bucket over the first followed by that over the second |
| Frontend.LastMatch | frontend.js:100-107 | the loop's `found` is the last instance whose subject `===` the event's, or none |
| Frontend.MergeSpec | frontend.js:100-119 | `Merge`, the find-or-create and push of `newData`: with no matching instance, a new `{subject, data: [event]}` is appended at the end; otherwise the event is appended to the last matching instance, the number of instances is unchanged, and no other instance changes |
| Frontend.MergeAddsOneEvent | frontend.js:119 | the merge adds exactly one event to the experiment |
| Frontend.MergeEventsFor | frontend.js:100-119 | a subject's events grow by the new event when it has that subject, and no other subject's events change |
| Frontend.MergePreservesDistinct | frontend.js:100-116 | a dataset with one instance per subject keeps one instance per subject |
| Frontend.MergeKeepsSubjects | frontend.js:110-116 | the merge neither drops nor renames an instance, and leaves an instance for the event's subject |
| Frontend.MergeAllEventsFor | frontend.js:95-124 | after any sequence of live events, a subject holds its earlier events followed by its live events, in arrival order |
| Frontend.MergeAllPreservesDistinct | frontend.js:95-124 | any sequence of live events keeps one instance per subject |
| Frontend.MergeAllKeepsSubjects | frontend.js:95-124 | live events never drop or rename instances, and every live subject ends up with an instance |
| Frontend.Store.constructor | frontend.js:7-13 | the module starts with no processors, no handler and the state `{page: "experiments", experiments: {}, config: null}` |
| Frontend.Store.Register | frontend.js:16-18 | `processors[exName]` becomes `procFuncs`; other names are unchanged; re-registering overwrites; nothing else changes |
| Frontend.Store.ProcessGlobal | frontend.js:21-33 | throws iff the name is unregistered or the processor throws; null iff the dataset is not loaded or there is no `globalStats`; otherwise `globalStats` of the loaded dataset |
| Frontend.Store.ProcessInstance | frontend.js:35-46 | throws iff the name is unregistered or the processor throws; null iff no instance is given or there is no `instanceStats`; otherwise `instanceStats` of the given events, never of the dataset |
| Frontend.Store.Start | frontend.js:49-50 | installs the state handler; nothing else changes |
| Frontend.Store.Flush | frontend.js:134-136 | calls the handler with the current state, once, iff there is a handler |
| Frontend.Store.SetState | frontend.js:128-131 | replaces the whole state, then calls the handler once with it iff there is one |
| Frontend.Store.NewData | frontend.js:95-124 | an event of an experiment that is not loaded changes nothing and calls no handler; otherwise the experiment becomes the merged list (`Merge`), nothing else in the state changes, one flush follows, and one-instance-per-subject is preserved |
| Frontend.Store.NextSubject | frontend.js:482-488 | throws iff the selected experiment is not loaded; otherwise the index moves as `NextIndex` says, the handler is called iff it moved, and an index in range stays in range |
| Frontend.Store.PrevSubject | frontend.js:489-495 | the index moves as `PrevIndex` says, the handler is called iff it moved, and an index in range stays in range |
| Frontend.NextIndex | frontend.js:484-485 | an index in `[0, len)` stays there; it moves up by exactly one iff the move stays in range; otherwise, an unset index included, it is unchanged |
| Frontend.PrevIndex | frontend.js:491-492 | a non-negative index stays non-negative; it moves down by exactly one iff it is at least 1; otherwise it is unchanged |
| FrontendViews.IsComplete | frontend.js:578-594 | true iff some event is "Start" and some event is "End" |
| FrontendViews.CompleteStaysComplete | frontend.js:578-594 | an instance that has an event of a kind keeps it as events are appended |
| FrontendViews.HasKindPermutation | frontend.js:578-594 | completeness does not depend on the order of the events, so sorting never changes it |
| FrontendViews.SortEventsByTime | frontend.js:665-668 | after the in-place sort the array holds `SortByTime` of its old contents |
| FrontendViews.InsertNext | frontend.js:666-668 | one insertion step moves the next event below every later event of the sorted prefix and leaves the rest of the array alone |
| FrontendViews.SortByTimeSorted | frontend.js:666-668 | the sorted events ascend by `time` |
| FrontendViews.SortByTimePermutes | frontend.js:666-668 | the sorted events are a permutation of the events |
| FrontendViews.SortByTimeStable | frontend.js:666-668 | events with equal times keep their relative order |
| FrontendViews.SortByTimeIdempotent | frontend.js:666-668 | sorting sorted events changes nothing |
| LegacyFrontend.LegacyStore.constructor | frontend.jsx:5-11 | the older module starts with no processors, no handler and the initial state |
| LegacyFrontend.LegacyStore.Register | frontend.jsx:14-16 | `processors[exName]` becomes `procFuncs`; other names are unchanged; nothing else changes |
| LegacyFrontend.LegacyStore.ProcessGlobal | frontend.jsx:19-31 | throws iff the name is unregistered or the processor throws; null iff the dataset is not loaded or there is no `globalStats`; otherwise `globalStats` of the loaded dataset |
| LegacyFrontend.LegacyStore.ProcessInstance | frontend.jsx:33-45 | throws iff the name is unregistered or the processor throws; null iff the experiment's list is not loaded or there is no `instanceStats`; otherwise `instanceStats` of the whole list of instance records, whatever instance was asked for |
| LegacyFrontend.LegacyStore.Start | frontend.jsx:48-49 | installs the state handler; nothing else changes |
| LegacyFrontend.LegacyStore.Flush | frontend.jsx:100-102 | calls the handler with the current state, once, iff there is a handler |
| LegacyFrontend.LegacyStore.SetState | frontend.jsx:94-97 | replaces the entire state, then invokes the handler exactly once with it iff a handler is set |
| LegacyFrontend.LegacyInstanceStatsCountNothing | frontend.jsx:33-45 | with ProbMatch registered and the experiment loaded, the older per-instance statistics are 0 presses of 0, whatever instance is asked about |
| LegacyFrontend.FrontEndsDisagreeOnInstances | frontend.jsx:33-45 | for a loaded experiment and an instance with at least one button press and non-null `args` on every press (Start and End may have null `args`), the two front ends give different per-instance statistics from the same registry and dataset |
| LegacyFrontend.FrontEndsAgreeOnGlobal | frontend.jsx:19-31 | the two front ends give the same experiment-wide statistics from the same registry and dataset |
| LiveSync.EventsForDistinct | frontend.js:100-107 | with one instance per subject, a subject's events are those of its one instance, or none |
| LiveSync.GroupedEventsFor | server.js:176-185 | a freshly loaded experiment holds, under the string subject `k`, the stored entries with key `k`, and nothing under any numeric subject |
| LiveSync.HistoryThenLive | frontend.js:95-124 | after loading and any live events, a string subject holds its stored entries followed by its live events, and no subject has two instances |
| LiveSync.ReloadAgreesWithLive | server.js:129-136 | when every live subject is a string, regrouping the stored entries followed by the stored live events gives each subject exactly the events the live merge gave it, in the same order |
| LiveSync.NumericSubjectSplitsInstance | frontend.js:104 | with stored history for `String(n)`, a live event of numeric subject `n` opens a second instance with the same key, which holds only the live events |

## Left out

- Network and transport: jQuery requests and their failure callbacks, the socket.io connection, and the HTTP server and its routing. Each is asynchronous I/O.
- Storage and clock: the MongoDB calls, `fs.readFile` (and so the `/file` route's reply after the read, and the `/experiment` route's 404 on a query error), and `Date.now()`. An event's `time` is an integer supplied with the event.
- `start`'s downloads, the dynamic loading of processor scripts, and the flush once all scripts are loaded. These depend on browser event ordering. `Start` only installs the handler.
- React rendering, apart from the two helpers above. `changeSubject`, which sets the index from a dropdown, is a view callback. `renderDropdown` sorts the canonical instance list in place by `a.subject - b.subject`. The model does not capture that reordering.
- `Tester.simulate`: it uses randomness and timers.
- The `"% Left"` value: floating-point division and string concatenation, with `NaN%` when there are no presses. It is kept as the pair `Percent(left, total)`.
- Aliasing: the handler gets the state object itself, and `nextSubject` edits the object it was handed (the current state) before `setState`. The model copies values, so a later in-place change does not show in earlier `notifications`. `SortEventsByTime`'s effect on the stored instance is not linked to the `Store`.
- Plain-object details: keys inherited from `Object.prototype` (such as `"constructor"`) are not modelled, so an experiment or subject named like one behaves as an ordinary key. A registered value that is not an object, a repeated `path` query parameter (which makes it an array), and subjects other than integers and strings (fractional numbers, `null`, objects) are not modelled either.
- `Server.FileRoute`: a present `path` is a string, so the empty-string check is the only falsy case modelled.
- `console.log` in `processGlobal` and `processInstance` (frontend.js:27-28 and 40-41, frontend.jsx:25-26 and 39-40) and elsewhere: output only.
- `Js.NumberToString`: `String(n)` in exponent notation ("1e+21") for `|n| >= 10^21`, and the limits of double precision, are not modelled; every integer gets its plain decimal digits, so distinct integers always get distinct keys.
- `LiveSync.ReloadAgreesWithLive`: it takes the entries a query returns to be in insertion order, MongoDB's natural order for an unsorted `find`, which the code does not request explicitly.
- `ProbMatch.InstanceStats`, `ProbMatch.GlobalStats`: that they do not mutate their input holds by construction, since the model passes values.
