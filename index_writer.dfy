/** The index-feed writer's bookkeeping: which queries have a running writing
    task, which have caught up with the existing log, and which callbacks wait
    for that. The streams, database calls and meta-feed lookups it drives are
    not modelled; their outcomes arrive as method parameters. */
module IndexWriter {
  import opened Js
  import opened Foreign
  import Validation

  /** A `pull.drain` sink; `serial` is the value of `taskCount` for its task. */
  datatype Drainer = Drainer(serial: nat)

  /** An entry of the `tasks` map: canonical query ID to drainer. */
  datatype Task = Task(queryId: string, drainer: Drainer)

  /** A callback handed to `start` or `doneOld`. */
  datatype Callback = Callback(id: nat)

  datatype WriterError =
    | InvalidQuery                 // `QL0.validate` threw
    | ForeignAuthor(author: Value) // the query's author is not the local feed
    | FindFailed                   // `metafeeds.findOrCreate` reported an error

  /** What a callback is called with. */
  datatype Outcome = Done | Failed(error: WriterError) | Opened(subfeed: Value)

  datatype Warning =
    | AlreadyScheduled(queryId: string)
    | TaskFailed(queryId: string)
    | InvalidStop
    | NotRunning(queryId: string)

  /** An observable effect of the registry, in the order it happens. */
  datatype Effect =
    | Abort(drainer: Drainer)
    | Call(callback: Callback, outcome: Outcome)
    | Warn(warning: Warning)
    | Publish(content: Value)

  /** The state of the shared `indexesMetafeedP` promise. */
  datatype IndexesPromise = Unrequested | Resolved | Rejected

  /** How `metafeeds.findOrCreate` for the index subfeed ends. */
  datatype FeedLookup = Found(subfeed: Value, metadataQuery: Value) | FindError

  // ------------------------------------------------------------ the tasks map

  function Keys(tasks: seq<Task>): (r: seq<string>)
    ensures |r| == |tasks|
    ensures forall i :: 0 <= i < |tasks| ==> r[i] == tasks[i].queryId
  {
    seq(|tasks|, i requires 0 <= i < |tasks| => tasks[i].queryId)
  }

  /** At most one task per query, kept in the order they were set up. */
  predicate WellOrdered(tasks: seq<Task>) {
    forall i, j :: 0 <= i < j < |tasks| ==>
      tasks[i].drainer.serial < tasks[j].drainer.serial && tasks[i].queryId != tasks[j].queryId
  }

  /** `tasks.delete(queryId)`: the tasks of every other query, in order. */
  function Without(tasks: seq<Task>, queryId: string): (r: seq<Task>)
    ensures forall t :: t in r <==> t in tasks && t.queryId != queryId
    ensures queryId !in Keys(r)
    ensures queryId in Keys(tasks) || r == tasks
  {
    if tasks == [] then []
    else if tasks[0].queryId == queryId then Without(tasks[1..], queryId)
    else
      var rest := Without(tasks[1..], queryId);
      assert queryId !in Keys(tasks[1..]) ==> queryId !in Keys(tasks) by {
        if queryId in Keys(tasks) {
          var i :| 0 <= i < |tasks| && Keys(tasks)[i] == queryId;
          assert Keys(tasks[1..])[i - 1] == queryId;
        }
      }
      [tasks[0]] + rest
  }

  /** `first` was set up before every task in `later`, for another query. */
  predicate Precedes(first: Task, later: seq<Task>) {
    forall t :: t in later ==> first.drainer.serial < t.drainer.serial && first.queryId != t.queryId
  }

  lemma ConsWellOrdered(first: Task, later: seq<Task>)
    requires Precedes(first, later) && WellOrdered(later)
    ensures WellOrdered([first] + later)
  {
    var all := [first] + later;
    forall i, j | 0 <= i < j < |all|
      ensures all[i].drainer.serial < all[j].drainer.serial && all[i].queryId != all[j].queryId
    {
      assert all[j] == later[j - 1];
      if i > 0 {
        assert all[i] == later[i - 1];
      } else {
        assert later[j - 1] in later;
      }
    }
  }

  /** Removing a query's task keeps the others in order. */
  lemma {:induction false} WithoutKeepsOrder(tasks: seq<Task>, queryId: string)
    requires WellOrdered(tasks)
    ensures WellOrdered(Without(tasks, queryId))
  {
    if tasks != [] {
      var later := tasks[1..];
      assert WellOrdered(later) by {
        forall i, j | 0 <= i < j < |later|
          ensures later[i].drainer.serial < later[j].drainer.serial && later[i].queryId != later[j].queryId
        {
          assert later[i] == tasks[i + 1] && later[j] == tasks[j + 1];
        }
      }
      WithoutKeepsOrder(later, queryId);
      var rest := Without(later, queryId);
      if tasks[0].queryId != queryId {
        assert Precedes(tasks[0], rest) by {
          forall t | t in rest
            ensures tasks[0].drainer.serial < t.drainer.serial && tasks[0].queryId != t.queryId
          {
            var k :| 0 <= k < |later| && later[k] == t;
            assert tasks[k + 1] == t;
          }
        }
        ConsWellOrdered(tasks[0], rest);
      }
    }
  }

  /** Removing a task keeps every drainer numbered within the count. */
  lemma WithoutKeepsCount(tasks: seq<Task>, taskCount: nat, queryId: string)
    requires CountedBy(tasks, taskCount)
    ensures CountedBy(Without(tasks, queryId), taskCount)
  {
    var r := Without(tasks, queryId);
    forall i | 0 <= i < |r| ensures 1 <= r[i].drainer.serial <= taskCount {
      assert r[i] in tasks;
    }
  }

  /** The drainer registered under a query. */
  function DrainerOf(tasks: seq<Task>, queryId: string): (d: Drainer)
    requires queryId in Keys(tasks)
    ensures Task(queryId, d) in tasks
  {
    if tasks[0].queryId == queryId then tasks[0].drainer
    else
      assert queryId in Keys(tasks[1..]) by {
        var i :| 0 <= i < |tasks| && Keys(tasks)[i] == queryId;
        assert Keys(tasks[1..])[i - 1] == queryId;
      }
      DrainerOf(tasks[1..], queryId)
  }

  /** One `abort()` per task, in `tasks.values()` order. */
  function Aborts(tasks: seq<Task>): (r: seq<Effect>)
    ensures |r| == |tasks|
    ensures forall i :: 0 <= i < |tasks| ==> r[i] == Abort(tasks[i].drainer)
  {
    seq(|tasks|, i requires 0 <= i < |tasks| => Abort(tasks[i].drainer))
  }

  /** One call of each listener, with no error, in the order given. */
  function Releases(listeners: seq<Callback>): (r: seq<Effect>)
    ensures |r| == |listeners|
    ensures forall i :: 0 <= i < |listeners| ==> r[i] == Call(listeners[i], Done)
  {
    seq(|listeners|, i requires 0 <= i < |listeners| => Call(listeners[i], Done))
  }

  /** `doneOldListeners.get(queryId) || []` */
  function Pending(listeners: map<string, seq<Callback>>, queryId: string): seq<Callback> {
    if queryId in listeners then listeners[queryId] else []
  }

  /** Every callback accepted for a query is either answered or still
      queued, and in the order accepted. */
  ghost predicate Balanced(requested: map<string, seq<Callback>>, answered: map<string, seq<Callback>>,
                           queued: map<string, seq<Callback>>) {
    forall q :: BalancedAt(requested, answered, queued, q)
  }

  ghost predicate BalancedAt(requested: map<string, seq<Callback>>, answered: map<string, seq<Callback>>,
                             queued: map<string, seq<Callback>>, queryId: string) {
    Pending(requested, queryId) == Pending(answered, queryId) + Pending(queued, queryId)
  }

  lemma QueueKeepsBalance(requested: map<string, seq<Callback>>, answered: map<string, seq<Callback>>,
                          queued: map<string, seq<Callback>>, queryId: string, cb: Callback)
    requires Balanced(requested, answered, queued)
    ensures Balanced(requested[queryId := Pending(requested, queryId) + [cb]], answered,
                     queued[queryId := Pending(queued, queryId) + [cb]])
  {
    var requested', queued' := requested[queryId := Pending(requested, queryId) + [cb]], queued[queryId := Pending(queued, queryId) + [cb]];
    forall q ensures BalancedAt(requested', answered, queued', q) {
      var a, b := Pending(answered, q), Pending(queued, q);
      assert BalancedAt(requested, answered, queued, q);
      if q == queryId {
        assert Pending(requested', q) == a + b + [cb];
        assert Pending(queued', q) == b + [cb];
        assert a + b + [cb] == a + (b + [cb]);
      } else {
        assert Pending(requested', q) == Pending(requested, q);
        assert Pending(queued', q) == b;
      }
    }
  }

  lemma AnswerKeepsBalance(requested: map<string, seq<Callback>>, answered: map<string, seq<Callback>>,
                           queued: map<string, seq<Callback>>, queryId: string, cb: Callback)
    requires Balanced(requested, answered, queued) && Pending(queued, queryId) == []
    ensures Balanced(requested[queryId := Pending(requested, queryId) + [cb]],
                     answered[queryId := Pending(answered, queryId) + [cb]], queued)
  {
    var requested', answered' := requested[queryId := Pending(requested, queryId) + [cb]], answered[queryId := Pending(answered, queryId) + [cb]];
    forall q ensures BalancedAt(requested', answered', queued, q) {
      assert BalancedAt(requested, answered, queued, q);
      if q == queryId {
        assert Pending(answered, q) + [] == Pending(answered, q);
        assert Pending(answered, q) + [cb] + [] == Pending(answered, q) + [cb];
      }
    }
  }

  lemma ReleaseKeepsBalance(requested: map<string, seq<Callback>>, answered: map<string, seq<Callback>>,
                            queued: map<string, seq<Callback>>, queryId: string)
    requires Balanced(requested, answered, queued)
    ensures Balanced(requested, answered[queryId := Pending(answered, queryId) + Pending(queued, queryId)],
                     queued - {queryId})
    ensures Pending(requested, queryId) == Pending(answered, queryId) + Pending(queued, queryId)
  {
    assert BalancedAt(requested, answered, queued, queryId);
    var answered', queued' := answered[queryId := Pending(answered, queryId) + Pending(queued, queryId)], queued - {queryId};
    forall q ensures BalancedAt(requested, answered', queued', q) {
      assert BalancedAt(requested, answered, queued, q);
      if q == queryId {
        assert Pending(answered', q) + [] == Pending(answered', q);
      }
    }
  }

  // ------------------------------------------------------ cursor and content

  /** The sequence the writer resumes after, or how finding it failed. */
  datatype Cursor = StartAfter(sequence: Value) | GetFailed | CursorTypeError

  /** `getLatestSequence(latestIndexMsg, cb)`; `get` is `sbot.db.get`, `None`
      when it reports an error. */
  function LatestSequence(latestIndexMsg: Value, get: Value -> Option<Value>): (r: Cursor)
    ensures !Truthy(latestIndexMsg) ==> r == StartAfter(Num(0.0))
    ensures Truthy(latestIndexMsg) && r.StartAfter? ==>
              var indexed := Prop(Prop(Prop(latestIndexMsg, "value"), "content"), "indexed");
              && get(Prop(indexed, "key")).Some?
              && r.sequence == Prop(get(Prop(indexed, "key")).value, "sequence")
    ensures r == GetFailed ==>
              Truthy(latestIndexMsg) &&
              get(Prop(Prop(Prop(Prop(latestIndexMsg, "value"), "content"), "indexed"), "key")).None?
    ensures var value := Prop(latestIndexMsg, "value");
            var content := Prop(value, "content");
            var indexed := Prop(content, "indexed");
            Truthy(latestIndexMsg) && !IsNullish(value) && !IsNullish(content) && !IsNullish(indexed) ==>
              match get(Prop(indexed, "key"))
              case None => r == GetFailed
              case Some(msgVal) => r == (if IsNullish(msgVal) then CursorTypeError else StartAfter(Prop(msgVal, "sequence")))
    ensures r == CursorTypeError <==>
              Truthy(latestIndexMsg) &&
              var value := Prop(latestIndexMsg, "value");
              var content := Prop(value, "content");
              var indexed := Prop(content, "indexed");
              (IsNullish(value) || IsNullish(content) || IsNullish(indexed) ||
               (get(Prop(indexed, "key")).Some? && IsNullish(get(Prop(indexed, "key")).value)))
  {
    if !Truthy(latestIndexMsg) then StartAfter(Num(0.0))
    else
      var value := Prop(latestIndexMsg, "value");
      if IsNullish(value) then CursorTypeError
      else
        var content := Prop(value, "content");
        if IsNullish(content) then CursorTypeError
        else
          var indexed := Prop(content, "indexed");
          if IsNullish(indexed) then CursorTypeError
          else
            match get(Prop(indexed, "key"))
            case None => GetFailed
            case Some(msgVal) => if IsNullish(msgVal) then CursorTypeError else StartAfter(Prop(msgVal, "sequence"))
  }

  /** The content `writeToIndexFeed` publishes for an entry that is not the
      sentinel; reading `msg.value.sequence` throws when `msg.value` is nullish. */
  function IndexContent(msg: Value): (r: Completion<Value>)
    ensures r.Throw? <==> IsNullish(msg) || IsNullish(Prop(msg, "value"))
    ensures r.Return? ==> r.value.Obj? && Prop(r.value, "indexed").Obj?
    ensures r.Return? ==>
              && Prop(r.value, "type") == Str(Validation.IndexType)
              && Prop(Prop(r.value, "indexed"), "key") == Prop(msg, "key")
              && Prop(Prop(r.value, "indexed"), "sequence") == Prop(Prop(msg, "value"), "sequence")
              && ObjectKeys(r.value) == ["type", "indexed"]
  {
    if IsNullish(msg) || IsNullish(Prop(msg, "value")) then Throw(TypeError)
    else
      var indexed := Obj([Field("key", Prop(msg, "key")), Field("sequence", Prop(Prop(msg, "value"), "sequence"))]);
      var content := Obj([Field("type", Str(Validation.IndexType)), Field("indexed", indexed)]);
      assert Lookup(indexed.fields[1..], "sequence") == indexed.fields[1].value;
      assert Lookup(content.fields[1..], "indexed") == indexed;
      Return(content)
  }

  /** The cursor read back from an index entry the writer published for `msg`
      is `msg`'s own sequence, when the database resolves `msg.key` to it. */
  lemma CursorReadsBackPublishedEntry(msg: Value, content: Value, latestIndexMsg: Value, get: Value -> Option<Value>)
    requires IndexContent(msg) == Return(content)
    requires latestIndexMsg.Obj? && Prop(latestIndexMsg, "value").Obj?
    requires Prop(Prop(latestIndexMsg, "value"), "content") == content
    requires get(Prop(msg, "key")) == Some(Prop(msg, "value"))
    ensures LatestSequence(latestIndexMsg, get) == StartAfter(Prop(Prop(msg, "value"), "sequence"))
  {
    CursorOfIndexEntry(latestIndexMsg, get);
  }

  /** An index entry whose `value.content.indexed` path exists resumes
      after the sequence of the message its key resolves to. */
  lemma CursorOfIndexEntry(latestIndexMsg: Value, get: Value -> Option<Value>)
    requires latestIndexMsg.Obj? && Prop(latestIndexMsg, "value").Obj?
    requires Prop(Prop(latestIndexMsg, "value"), "content").Obj?
    requires var indexed := Prop(Prop(Prop(latestIndexMsg, "value"), "content"), "indexed");
             indexed.Obj? && get(Prop(indexed, "key")).Some? && !IsNullish(get(Prop(indexed, "key")).value)
    ensures var indexed := Prop(Prop(Prop(latestIndexMsg, "value"), "content"), "indexed");
            LatestSequence(latestIndexMsg, get) == StartAfter(Prop(get(Prop(indexed, "key")).value, "sequence"))
  {
  }

  // ------------------------------------------------------------ the old scan

  /** The old entries `gt(latestSequence, 'sequence')` lets through: the
      sequences above the cursor, in log order. */
  function OldScan(log: seq<int>, cursor: int): (r: seq<int>)
    ensures forall i :: 0 <= i < |r| ==> r[i] > cursor
    ensures |r| <= |log|
  {
    if log == [] then []
    else (if log[0] > cursor then [log[0]] else []) + OldScan(log[1..], cursor)
  }

  /** The scan lets through exactly the entries above the cursor. */
  lemma {:induction false} OldScanSelects(log: seq<int>, cursor: int, x: int)
    ensures x in OldScan(log, cursor) <==> x in log && x > cursor
  {
    if log != [] {
      OldScanSelects(log[1..], cursor, x);
      assert log == [log[0]] + log[1..];
    }
  }

  predicate Increasing(log: seq<int>) {
    forall i, j :: 0 <= i < j < |log| ==> log[i] < log[j]
  }

  /** Resuming after the entry last indexed scans exactly the entries after
      it: none is skipped and none is indexed twice. */
  lemma {:induction false} ResumeScansTheRest(log: seq<int>, k: nat)
    requires Increasing(log) && k < |log|
    ensures log[..k + 1] + OldScan(log, log[k]) == log
  {
    var rest := log[k + 1..];
    forall i | 0 <= i < |rest| ensures rest[i] > log[k] {
      assert rest[i] == log[k + 1 + i];
    }
    ScanAboveAll(rest, log[k]);
    ScanBelowAll(log, k);
    assert log[..k + 1] + rest == log;
  }

  /** Scanning from the cursor 0 of an empty index feed covers the whole log
      of positive sequence numbers. */
  lemma FreshScanCoversLog(log: seq<int>)
    requires forall i :: 0 <= i < |log| ==> log[i] >= 1
    ensures OldScan(log, 0) == log
  {
    ScanAboveAll(log, 0);
  }

  lemma {:induction false} ScanAboveAll(log: seq<int>, cursor: int)
    requires forall i :: 0 <= i < |log| ==> log[i] > cursor
    ensures OldScan(log, cursor) == log
  {
    if log != [] {
      ScanAboveAll(log[1..], cursor);
      assert [log[0]] + log[1..] == log;
    }
  }

  /** In an increasing log, the scan after `log[k]` skips `log[..k + 1]`. */
  lemma {:induction false} ScanBelowAll(log: seq<int>, k: nat)
    requires Increasing(log) && k < |log|
    ensures OldScan(log, log[k]) == OldScan(log[k + 1..], log[k])
  {
    var c := log[k];
    var i := k + 1;
    while i > 0
      invariant 0 <= i <= k + 1
      invariant OldScan(log[i..], c) == OldScan(log[k + 1..], c)
      decreases i
    {
      i := i - 1;
      assert log[i..][1..] == log[i + 1..];
      assert log[i] <= c;
    }
  }

  // --------------------------------------------------------------- schedule

  /** The tasks after `schedule` for `queryId`: unchanged when the query
      already has a task, else one more task holding the next drainer. */
  function AfterSchedule(tasks: seq<Task>, taskCount: nat, queryId: string): seq<Task> {
    if queryId in Keys(tasks) then tasks else tasks + [Task(queryId, Drainer(taskCount + 1))]
  }

  /** `taskCount` after `schedule` for `queryId`. */
  function CountAfterSchedule(tasks: seq<Task>, taskCount: nat, queryId: string): nat {
    if queryId in Keys(tasks) then taskCount else taskCount + 1
  }

  /** The warning `schedule` gives for a query that already has a task. */
  function ScheduleWarnings(tasks: seq<Task>, queryId: string): seq<Effect> {
    if queryId in Keys(tasks) then [Warn(AlreadyScheduled(queryId))] else []
  }

  /** Drainers numbered from 1 up to `taskCount`. */
  predicate CountedBy(tasks: seq<Task>, taskCount: nat) {
    forall i :: 0 <= i < |tasks| ==> 1 <= tasks[i].drainer.serial <= taskCount
  }

  /** After `schedule` the query has exactly one task, the tasks stay in
      order and numbered, and scheduling the same query again changes
      nothing further. */
  lemma ScheduleKeepsOneTaskPerQuery(tasks: seq<Task>, taskCount: nat, queryId: string)
    requires WellOrdered(tasks) && CountedBy(tasks, taskCount)
    ensures var tasks', taskCount' := AfterSchedule(tasks, taskCount, queryId), CountAfterSchedule(tasks, taskCount, queryId);
            && queryId in Keys(tasks')
            && WellOrdered(tasks') && CountedBy(tasks', taskCount')
            && AfterSchedule(tasks', taskCount', queryId) == tasks'
            && CountAfterSchedule(tasks', taskCount', queryId) == taskCount'
            && ScheduleWarnings(tasks', queryId) == [Warn(AlreadyScheduled(queryId))]
  {
    var tasks' := AfterSchedule(tasks, taskCount, queryId);
    if queryId !in Keys(tasks) {
      assert Keys(tasks')[|tasks|] == queryId;
      forall i, j | 0 <= i < j < |tasks'|
        ensures tasks'[i].drainer.serial < tasks'[j].drainer.serial && tasks'[i].queryId != tasks'[j].queryId
      {
        if j == |tasks| {
          assert Keys(tasks)[i] == tasks[i].queryId;
        }
      }
    }
  }

  // ------------------------------------------------------------------ start

  /** Whether `await indexesMetafeedP` resolves, given the promise before the
      call and how a lookup made now would end. */
  function Ready(promise: IndexesPromise, outcome: bool): bool {
    promise == Resolved || (promise == Unrequested && outcome)
  }

  /** `indexesMetafeedP` after a call reaches it: created on first use,
      then kept, resolved or rejected, for every later call. */
  function NextPromise(promise: IndexesPromise, outcome: bool): (p: IndexesPromise)
    ensures p != Unrequested
    ensures p == Resolved <==> Ready(promise, outcome)
  {
    if promise == Unrequested then (if outcome then Resolved else Rejected) else promise
  }

  /** The canonical query of the subfeed found, for scheduling it. */
  function OpenedQuery(ql: QueryLang, lookup: FeedLookup): string {
    if lookup.Found? then ql.canonical(lookup.metadataQuery) else ""
  }

  /** The calls of `start`'s callback once the indexes meta feed is
      available: with the subfeed, or with the lookup error. */
  function OpenReplies(cb: Callback, ready: bool, lookup: FeedLookup): seq<Effect> {
    if !ready then []
    else match lookup
      case FindError => [Call(cb, Failed(FindFailed))]
      case Found(subfeed, _) => [Call(cb, Opened(subfeed))]
  }

  /** The calls `start(query, cb)` makes of `cb`, in order, as written:
      after reporting a foreign author it carries on. */
  function StartReplies(ql: QueryLang, sbotId: Value, query: Value, cb: Callback, ready: bool, lookup: FeedLookup): seq<Effect> {
    if !ql.isValid(query) then [Call(cb, Failed(InvalidQuery))]
    else
      var author := ql.author(query);
      (if !StrictEquals(author, sbotId) then [Call(cb, Failed(ForeignAuthor(author)))] else []) + OpenReplies(cb, ready, lookup)
  }

  /** Whether `start` as written goes on to schedule a task. */
  predicate StartSchedules(ql: QueryLang, query: Value, ready: bool, lookup: FeedLookup) {
    ql.isValid(query) && ready && lookup.Found?
  }

  /** As written, a query for another author is answered twice, with the
      error and then with the subfeed, and a task is set up for it. */
  lemma ForeignAuthorAnsweredTwice(ql: QueryLang, sbotId: Value, query: Value, cb: Callback, lookup: FeedLookup)
    requires ql.isValid(query) && !StrictEquals(ql.author(query), sbotId) && lookup.Found?
    ensures StartReplies(ql, sbotId, query, cb, true, lookup) ==
              [Call(cb, Failed(ForeignAuthor(ql.author(query)))), Call(cb, Opened(lookup.subfeed))]
    ensures StartSchedules(ql, query, true, lookup)
  {
  }

  /** `start` with a `return` after the author error. */
  function StartRepliesChecked(ql: QueryLang, sbotId: Value, query: Value, cb: Callback, ready: bool, lookup: FeedLookup): seq<Effect> {
    if !ql.isValid(query) then [Call(cb, Failed(InvalidQuery))]
    else if !StrictEquals(ql.author(query), sbotId) then [Call(cb, Failed(ForeignAuthor(ql.author(query))))]
    else OpenReplies(cb, ready, lookup)
  }

  predicate StartSchedulesChecked(ql: QueryLang, sbotId: Value, query: Value, ready: bool, lookup: FeedLookup) {
    ql.isValid(query) && StrictEquals(ql.author(query), sbotId) && ready && lookup.Found?
  }

  /** With the return in place, `start` calls its callback at most once,
      and exactly once unless it is left waiting on a rejected indexes meta
      feed; a task is set up only for the local author's own queries, and
      only after the callback received the subfeed. */
  lemma StartCheckedAnswersOnce(ql: QueryLang, sbotId: Value, query: Value, cb: Callback, ready: bool, lookup: FeedLookup)
    ensures var r := StartRepliesChecked(ql, sbotId, query, cb, ready, lookup);
            && |r| <= 1
            && (|r| == 1 <==> !ql.isValid(query) || !StrictEquals(ql.author(query), sbotId) || ready)
            && (forall i :: 0 <= i < |r| ==> r[i].Call? && r[i].callback == cb)
    ensures StartSchedulesChecked(ql, sbotId, query, ready, lookup) <==>
              lookup.Found? && StartRepliesChecked(ql, sbotId, query, cb, ready, lookup) == [Call(cb, Opened(lookup.subfeed))]
    ensures StartSchedulesChecked(ql, sbotId, query, ready, lookup) ==> ql.author(query) == sbotId
  {
  }

  // --------------------------------------------------------------- registry

  /** The state `init` sets up and the returned `start`, `stop` and `doneOld`
      share. */
  class Writer {
    const ql: QueryLang
    const sbotId: Value
    var tasks: seq<Task>
    var taskCount: nat
    var tasksDoneWithOld: set<string>
    var doneOldListeners: map<string, seq<Callback>>
    var indexesMetafeed: IndexesPromise
    var effects: seq<Effect>
    /** The callbacks `doneOld` accepted for each query, and those called back. */
    ghost var requested: map<string, seq<Callback>>
    ghost var answered: map<string, seq<Callback>>

    /** At most one task per query, drainers numbered by `taskCount`, no
        listener waits on a query that has caught up, and every accepted
        callback is either answered or still queued, in order. */
    ghost predicate Valid()
      reads this
    {
      && WellOrdered(tasks)
      && CountedBy(tasks, taskCount)
      && (forall q :: q in doneOldListeners ==> q !in tasksDoneWithOld)
      && Balanced(requested, answered, doneOldListeners)
    }

    constructor (ql: QueryLang, sbotId: Value)
      ensures this.ql == ql && this.sbotId == sbotId
      ensures tasks == [] && taskCount == 0 && tasksDoneWithOld == {} && doneOldListeners == map[]
      ensures indexesMetafeed == Unrequested && effects == []
      ensures Valid()
    {
      this.ql := ql;
      this.sbotId := sbotId;
      tasks := [];
      taskCount := 0;
      tasksDoneWithOld := {};
      doneOldListeners := map[];
      indexesMetafeed := Unrequested;
      effects := [];
      requested := map[];
      answered := map[];
    }

    /** `schedule(indexFeed)`, given `indexFeed.metadata.query`. */
    method Schedule(metadataQuery: Value)
      requires Valid()
      modifies this
      ensures Valid()
      ensures var q := ql.canonical(metadataQuery);
              && tasks == AfterSchedule(old(tasks), old(taskCount), q)
              && taskCount == CountAfterSchedule(old(tasks), old(taskCount), q)
              && effects == old(effects) + ScheduleWarnings(old(tasks), q)
      ensures ql.canonical(metadataQuery) in Keys(tasks)
      ensures tasksDoneWithOld == old(tasksDoneWithOld) && doneOldListeners == old(doneOldListeners)
      ensures indexesMetafeed == old(indexesMetafeed)
      ensures requested == old(requested) && answered == old(answered)
    {
      var queryId := ql.canonical(metadataQuery);
      ScheduleKeepsOneTaskPerQuery(tasks, taskCount, queryId);
      if queryId in Keys(tasks) {
        effects := effects + [Warn(AlreadyScheduled(queryId))];
        return;
      }
      taskCount := taskCount + 1;
      tasks := tasks + [Task(queryId, Drainer(taskCount))];
    }

    /** The end callback of a task's drainer: on an error the task is
        dropped, so a later `start` can set it up again. */
    method TaskEnded(queryId: string, failed: bool)
      requires Valid()
      modifies this
      ensures Valid()
      ensures failed ==> tasks == Without(old(tasks), queryId) && effects == old(effects) + [Warn(TaskFailed(queryId))]
      ensures !failed ==> tasks == old(tasks) && effects == old(effects)
      ensures queryId !in Keys(old(tasks)) ==> tasks == old(tasks)
      ensures taskCount == old(taskCount) && tasksDoneWithOld == old(tasksDoneWithOld)
      ensures doneOldListeners == old(doneOldListeners) && indexesMetafeed == old(indexesMetafeed)
      ensures requested == old(requested) && answered == old(answered)
    {
      if failed {
        effects := effects + [Warn(TaskFailed(queryId))];
        WithoutKeepsOrder(tasks, queryId);
        WithoutKeepsCount(tasks, taskCount, queryId);
        tasks := Without(tasks, queryId);
      }
    }

    /** `stop(query)` */
    method Stop(query: Value)
      requires Valid()
      modifies this
      ensures Valid()
      ensures !ql.isValid(query) ==> tasks == old(tasks) && effects == old(effects) + [Warn(InvalidStop)]
      ensures ql.isValid(query) && ql.canonical(query) !in Keys(old(tasks)) ==>
                tasks == old(tasks) && effects == old(effects) + [Warn(NotRunning(ql.canonical(query)))]
      ensures ql.isValid(query) && ql.canonical(query) in Keys(old(tasks)) ==>
                tasks == Without(old(tasks), ql.canonical(query)) &&
                effects == old(effects) + [Abort(DrainerOf(old(tasks), ql.canonical(query)))]
      ensures ql.isValid(query) ==> ql.canonical(query) !in Keys(tasks)
      ensures taskCount == old(taskCount) && tasksDoneWithOld == old(tasksDoneWithOld)
      ensures doneOldListeners == old(doneOldListeners) && indexesMetafeed == old(indexesMetafeed)
      ensures requested == old(requested) && answered == old(answered)
    {
      if !ql.isValid(query) {
        effects := effects + [Warn(InvalidStop)];
        return;
      }
      var queryId := ql.canonical(query);
      if queryId !in Keys(tasks) {
        effects := effects + [Warn(NotRunning(queryId))];
        return;
      }
      effects := effects + [Abort(DrainerOf(tasks, queryId))];
      WithoutKeepsOrder(tasks, queryId);
      WithoutKeepsCount(tasks, taskCount, queryId);
      tasks := Without(tasks, queryId);
    }

    /** `doneOld(query, cb)` */
    method DoneOld(query: Value, cb: Callback)
      requires Valid()
      modifies this
      ensures Valid()
      ensures !ql.isValid(query) ==>
                effects == old(effects) + [Call(cb, Failed(InvalidQuery))] &&
                doneOldListeners == old(doneOldListeners) && requested == old(requested)
      ensures ql.isValid(query) && ql.canonical(query) in old(tasksDoneWithOld) ==>
                effects == old(effects) + [Call(cb, Done)] && doneOldListeners == old(doneOldListeners)
      ensures ql.isValid(query) && ql.canonical(query) !in old(tasksDoneWithOld) ==>
                effects == old(effects) &&
                doneOldListeners == old(doneOldListeners)[ql.canonical(query) := Pending(old(doneOldListeners), ql.canonical(query)) + [cb]]
      ensures ql.isValid(query) ==>
                requested == old(requested)[ql.canonical(query) := Pending(old(requested), ql.canonical(query)) + [cb]]
      ensures tasks == old(tasks) && taskCount == old(taskCount) && tasksDoneWithOld == old(tasksDoneWithOld)
      ensures indexesMetafeed == old(indexesMetafeed)
    {
      if !ql.isValid(query) {
        effects := effects + [Call(cb, Failed(InvalidQuery))];
        return;
      }
      var queryId := ql.canonical(query);
      if queryId in tasksDoneWithOld {
        AnswerKeepsBalance(requested, answered, doneOldListeners, queryId, cb);
        requested := requested[queryId := Pending(requested, queryId) + [cb]];
        effects := effects + [Call(cb, Done)];
        answered := answered[queryId := Pending(answered, queryId) + [cb]];
      } else {
        QueueKeepsBalance(requested, answered, doneOldListeners, queryId, cb);
        requested := requested[queryId := Pending(requested, queryId) + [cb]];
        doneOldListeners := doneOldListeners[queryId := Pending(doneOldListeners, queryId) + [cb]];
      }
    }

    /** The sentinel branch of `writeToIndexFeed`: the query has caught up,
        and each queued listener is called once, in the order queued. */
    method CatchUp(queryId: string)
      requires Valid()
      modifies this
      ensures Valid()
      ensures tasksDoneWithOld == old(tasksDoneWithOld) + {queryId}
      ensures doneOldListeners == old(doneOldListeners) - {queryId}
      ensures effects == old(effects) + Releases(Pending(old(doneOldListeners), queryId))
      ensures Pending(requested, queryId) == Pending(answered, queryId)
      ensures tasks == old(tasks) && taskCount == old(taskCount) && indexesMetafeed == old(indexesMetafeed)
      ensures requested == old(requested)
    {
      var listeners := Pending(doneOldListeners, queryId);
      ReleaseKeepsBalance(requested, answered, doneOldListeners, queryId);
      tasksDoneWithOld := tasksDoneWithOld + {queryId};
      doneOldListeners := doneOldListeners - {queryId};
      answered := answered[queryId := Pending(answered, queryId) + listeners];
      assert Pending(doneOldListeners, queryId) == [];
      Release(listeners);
    }

    /** Calls each listener with no error, in order. */
    method Release(listeners: seq<Callback>)
      modifies this
      ensures effects == old(effects) + Releases(listeners)
      ensures tasks == old(tasks) && taskCount == old(taskCount) && indexesMetafeed == old(indexesMetafeed)
      ensures tasksDoneWithOld == old(tasksDoneWithOld) && doneOldListeners == old(doneOldListeners)
      ensures requested == old(requested) && answered == old(answered)
    {
      for i := 0 to |listeners|
        invariant effects == old(effects) + Releases(listeners[..i])
        invariant tasks == old(tasks) && taskCount == old(taskCount) && indexesMetafeed == old(indexesMetafeed)
        invariant tasksDoneWithOld == old(tasksDoneWithOld) && doneOldListeners == old(doneOldListeners)
        invariant requested == old(requested) && answered == old(answered)
      {
        assert Releases(listeners[..i + 1]) == Releases(listeners[..i]) + [Call(listeners[i], Done)];
        effects := effects + [Call(listeners[i], Done)];
      }
      assert listeners[..|listeners|] == listeners;
    }

    /** `writeToIndexFeed(msg, cb)` for the task of `queryId`: the sentinel
        marks the query caught up; any other entry is published as an index
        entry pointing at it. */
    method WriteToIndexFeed(queryId: string, msg: Value) returns (r: Completion<()>)
      requires Valid()
      modifies this
      ensures Valid()
      ensures r.Throw? <==> IsNullish(msg) || (!Truthy(Prop(msg, "sync")) && IndexContent(msg).Throw?)
      ensures r.Throw? ==> effects == old(effects) && tasksDoneWithOld == old(tasksDoneWithOld)
      ensures !IsNullish(msg) && !Truthy(Prop(msg, "sync")) && IndexContent(msg).Return? ==>
                effects == old(effects) + [Publish(IndexContent(msg).value)] &&
                tasksDoneWithOld == old(tasksDoneWithOld) && doneOldListeners == old(doneOldListeners)
      ensures !IsNullish(msg) && Truthy(Prop(msg, "sync")) ==>
                tasksDoneWithOld == old(tasksDoneWithOld) + {queryId} &&
                doneOldListeners == old(doneOldListeners) - {queryId} &&
                effects == old(effects) + Releases(Pending(old(doneOldListeners), queryId))
      ensures r.Throw? ==> doneOldListeners == old(doneOldListeners)
      ensures tasks == old(tasks) && taskCount == old(taskCount) && indexesMetafeed == old(indexesMetafeed)
      ensures old(tasksDoneWithOld) <= tasksDoneWithOld
    {
      if IsNullish(msg) {
        return Throw(TypeError);
      }
      if Truthy(Prop(msg, "sync")) {
        CatchUp(queryId);
        return Return(());
      }
      var content := IndexContent(msg);
      if content.Throw? {
        return Throw(TypeError);
      }
      effects := effects + [Publish(content.value)];
      r := Return(());
    }

    /** The `sbot.close` hook: abort every task in insertion order, then
        empty `tasks`. */
    method Teardown()
      requires Valid()
      modifies this
      ensures Valid()
      ensures effects == old(effects) + Aborts(old(tasks))
      ensures tasks == []
      ensures taskCount == old(taskCount) && tasksDoneWithOld == old(tasksDoneWithOld)
      ensures doneOldListeners == old(doneOldListeners) && indexesMetafeed == old(indexesMetafeed)
      ensures requested == old(requested) && answered == old(answered)
    {
      var all := tasks;
      ghost var before := effects;
      for i := 0 to |all|
        invariant effects == before + Aborts(all[..i])
        invariant tasks == all && taskCount == old(taskCount) && tasksDoneWithOld == old(tasksDoneWithOld)
        invariant doneOldListeners == old(doneOldListeners) && indexesMetafeed == old(indexesMetafeed)
        invariant requested == old(requested) && answered == old(answered)
      {
        assert Aborts(all[..i + 1]) == Aborts(all[..i]) + [Abort(all[i].drainer)];
        effects := effects + [Abort(all[i].drainer)];
      }
      assert all[..|all|] == all;
      tasks := [];
    }

    /** The part of `start` after the checks: wait for the indexes meta feed
        (looked up once and shared by every later call), then find or create
        the index subfeed, answer `cb` and schedule its task. A rejected
        indexes meta feed leaves `cb` uncalled. */
    method OpenAndSchedule(cb: Callback, indexesOutcome: bool, lookup: FeedLookup)
      requires Valid()
      modifies this
      ensures Valid()
      ensures indexesMetafeed == NextPromise(old(indexesMetafeed), indexesOutcome)
      ensures var ready := Ready(old(indexesMetafeed), indexesOutcome);
              var schedules := ready && lookup.Found?;
              var q := OpenedQuery(ql, lookup);
              && effects == old(effects) + OpenReplies(cb, ready, lookup) +
                            (if schedules then ScheduleWarnings(old(tasks), q) else [])
              && tasks == (if schedules then AfterSchedule(old(tasks), old(taskCount), q) else old(tasks))
              && taskCount == (if schedules then CountAfterSchedule(old(tasks), old(taskCount), q) else old(taskCount))
      ensures tasksDoneWithOld == old(tasksDoneWithOld) && doneOldListeners == old(doneOldListeners)
    {
      indexesMetafeed := NextPromise(indexesMetafeed, indexesOutcome);
      if indexesMetafeed == Rejected {
        return;
      }
      match lookup
      case FindError =>
        effects := effects + [Call(cb, Failed(FindFailed))];
      case Found(subfeed, metadataQuery) =>
        effects := effects + [Call(cb, Opened(subfeed))];
        Schedule(metadataQuery);
    }

    /** The author check of `start` as written: `cb` gets an error when the
        query's author is not the local feed, and `start` goes on either way. */
    method CheckAuthor(query: Value, cb: Callback) returns (replied: seq<Effect>)
      requires Valid()
      modifies this
      ensures Valid()
      ensures replied == (if StrictEquals(ql.author(query), sbotId) then [] else [Call(cb, Failed(ForeignAuthor(ql.author(query))))])
      ensures effects == old(effects) + replied
      ensures tasks == old(tasks) && taskCount == old(taskCount) && indexesMetafeed == old(indexesMetafeed)
      ensures tasksDoneWithOld == old(tasksDoneWithOld) && doneOldListeners == old(doneOldListeners)
      ensures requested == old(requested) && answered == old(answered)
    {
      var author := ql.author(query);
      replied := [];
      if !StrictEquals(author, sbotId) {
        effects := effects + [Call(cb, Failed(ForeignAuthor(author)))];
        replied := [Call(cb, Failed(ForeignAuthor(author)))];
      }
    }

    /** `start(query, cb)` as written: the author check calls `cb` with an
        error but does not return. */
    method Start(query: Value, cb: Callback, indexesOutcome: bool, lookup: FeedLookup)
      requires Valid()
      modifies this
      ensures Valid()
      ensures indexesMetafeed == if ql.isValid(query) then NextPromise(old(indexesMetafeed), indexesOutcome) else old(indexesMetafeed)
      ensures var ready := ql.isValid(query) && Ready(old(indexesMetafeed), indexesOutcome);
              var schedules := StartSchedules(ql, query, ready, lookup);
              var q := OpenedQuery(ql, lookup);
              && effects == old(effects) + StartReplies(ql, sbotId, query, cb, ready, lookup) +
                            (if schedules then ScheduleWarnings(old(tasks), q) else [])
              && tasks == (if schedules then AfterSchedule(old(tasks), old(taskCount), q) else old(tasks))
              && taskCount == (if schedules then CountAfterSchedule(old(tasks), old(taskCount), q) else old(taskCount))
      ensures tasksDoneWithOld == old(tasksDoneWithOld) && doneOldListeners == old(doneOldListeners)
    {
      if !ql.isValid(query) {
        effects := effects + [Call(cb, Failed(InvalidQuery))];
        return;
      }
      var replied := CheckAuthor(query, cb);
      ghost var ready := Ready(old(indexesMetafeed), indexesOutcome);
      assert StartReplies(ql, sbotId, query, cb, ql.isValid(query) && ready, lookup) == replied + OpenReplies(cb, ready, lookup);
      OpenAndSchedule(cb, indexesOutcome, lookup);
    }

    /** `start(query, cb)` with a `return` after the author error. */
    method StartChecked(query: Value, cb: Callback, indexesOutcome: bool, lookup: FeedLookup)
      requires Valid()
      modifies this
      ensures Valid()
      ensures indexesMetafeed == if ql.isValid(query) && StrictEquals(ql.author(query), sbotId)
                                 then NextPromise(old(indexesMetafeed), indexesOutcome) else old(indexesMetafeed)
      ensures var ready := ql.isValid(query) && StrictEquals(ql.author(query), sbotId) &&
                           Ready(old(indexesMetafeed), indexesOutcome);
              var schedules := StartSchedulesChecked(ql, sbotId, query, ready, lookup);
              var q := OpenedQuery(ql, lookup);
              && effects == old(effects) + StartRepliesChecked(ql, sbotId, query, cb, ready, lookup) +
                            (if schedules then ScheduleWarnings(old(tasks), q) else [])
              && tasks == (if schedules then AfterSchedule(old(tasks), old(taskCount), q) else old(tasks))
              && taskCount == (if schedules then CountAfterSchedule(old(tasks), old(taskCount), q) else old(taskCount))
      ensures tasksDoneWithOld == old(tasksDoneWithOld) && doneOldListeners == old(doneOldListeners)
    {
      if !ql.isValid(query) {
        effects := effects + [Call(cb, Failed(InvalidQuery))];
        return;
      }
      var author := ql.author(query);
      if !StrictEquals(author, sbotId) {
        effects := effects + [Call(cb, Failed(ForeignAuthor(author)))];
        return;
      }
      OpenAndSchedule(cb, indexesOutcome, lookup);
    }
  }
}
