/**
 The etcd watcher as it runs: one goroutine per watched service that loads a snapshot, follows
 the watch, and on any interruption reloads and sends the difference.
 */
module EtcdDiscovery {
  import opened Wrappers
  import opened Text
  import opened Discovery

  const MIN_DELAY: nat := 200
  const MAX_DELAY: nat := 3000

  // ---------------------------------------------------------------- the environment

  /** A context that is cancelled after `left` more times of being asked. */
  class Context {
    var left: nat

    constructor (left: nat)
      ensures this.left == left
    {
      this.left := left;
    }

    method Done() returns (done: bool)
      modifies this
      ensures done <==> old(left) == 0
      ensures left == if done then 0 else old(left) - 1
    {
      done := left == 0;
      if !done {
        left := left - 1;
      }
    }
  }

  datatype WatchResponse = Events(revision: nat, events: seq<WatchEvent>) | Broken(error: string)

  datatype Read = Read(kvs: seq<KeyValue>, revision: nat)

  /**
   An etcd client whose answers are arbitrary: the n-th read returns any value, and so does the n-th
   watch for the revision it is opened from, or from now on.
   */
  class Client {
    const gets: nat -> Result<Read, string>
    const watches: (nat, Option<nat>) -> seq<WatchResponse>
    var readCount: nat
    var watchCount: nat

    constructor (gets: nat -> Result<Read, string>, watches: (nat, Option<nat>) -> seq<WatchResponse>)
      ensures this.gets == gets && this.watches == watches
    {
      this.gets, this.watches := gets, watches;
      readCount, watchCount := 0, 0;
    }

    method Get() returns (r: Result<Read, string>)
      modifies this
      ensures r == gets(old(readCount))
      ensures readCount == old(readCount) + 1 && watchCount == old(watchCount)
    {
      r := gets(readCount);
      readCount := readCount + 1;
    }

    method Watch(start: Option<nat>) returns (feed: seq<WatchResponse>)
      modifies this
      ensures feed == watches(old(watchCount), start)
      ensures watchCount == old(watchCount) + 1 && readCount == old(readCount)
    {
      feed := watches(watchCount, start);
      watchCount := watchCount + 1;
    }
  }

  /** A watch starts behind the revision that has been loaded, or from now on if there is none. */
  function StartOf(revision: nat): Option<nat> {
    if revision > 0 then Some(revision + 1) else None
  }

  /** The watch events that arrive before the channel breaks or closes. */
  function Delivered(feed: seq<WatchResponse>): seq<WatchEvent> {
    if feed == [] || feed[0].Broken? then [] else feed[0].events + Delivered(feed[1..])
  }

  // ---------------------------------------------------------------- statuses

  datatype WatchStatus = WatchStatus(
    service: string,
    running: bool,
    healthy: bool,
    stale: bool,
    lastError: string,
    revision: nat,
    instanceCount: nat,
    reconnects: nat)

  const NO_STATUS := WatchStatus("", false, false, false, "", 0, 0, 0)

  /** What the watcher reports about itself. */
  datatype Mark =
    | Loaded(count: nat, revision: nat)
    | Event(count: nat, revision: nat)
    | Error(message: string)
    | Stopped

  function Marked(status: WatchStatus, service: string, mark: Mark): WatchStatus {
    match mark
    case Loaded(count, revision) =>
      status.(service := service, running := true, healthy := true, stale := false, lastError := "",
              revision := revision, instanceCount := count)
    case Event(count, revision) =>
      status.(service := service, running := true, healthy := true, stale := false, lastError := "",
              revision := Max(status.revision, revision), instanceCount := count)
    case Error(message) =>
      status.(service := service, running := true, healthy := false, stale := true,
              reconnects := status.reconnects + 1, lastError := message)
    case Stopped =>
      status.(service := service, running := false, healthy := false)
  }

  function Max(a: nat, b: nat): nat {
    if b > a then b else a
  }

  function MarkedAll(status: WatchStatus, service: string, marks: seq<Mark>): WatchStatus {
    if marks == [] then status
    else Marked(MarkedAll(status, service, marks[..|marks| - 1]), service, marks[|marks| - 1])
  }

  function Errors(marks: seq<Mark>): nat {
    if marks == [] then 0
    else Errors(marks[..|marks| - 1]) + (if marks[|marks| - 1].Error? then 1 else 0)
  }

  /** What Status reports: the health flag is recomputed from the other fields. */
  function Reported(status: WatchStatus): WatchStatus {
    status.(healthy := status.running && !status.stale && status.lastError == "")
  }

  /**
   Over any sequence of marks the service is reported healthy exactly when the last one was a load
   or an event, and reconnects counts the errors.
   */
  lemma {:induction false} StatusTells(service: string, marks: seq<Mark>)
    ensures Reported(MarkedAll(NO_STATUS, service, marks)).healthy
       <==> marks != [] && (marks[|marks| - 1].Loaded? || marks[|marks| - 1].Event?)
    ensures MarkedAll(NO_STATUS, service, marks).reconnects == Errors(marks)
    ensures marks != [] && (marks[|marks| - 1].Loaded? || marks[|marks| - 1].Event?) ==>
      MarkedAll(NO_STATUS, service, marks).instanceCount == marks[|marks| - 1].count
  {
    if marks != [] {
      StatusTells(service, marks[..|marks| - 1]);
    }
  }

  /** The last mark that is not the stop, if any. */
  function LastReport(marks: seq<Mark>): Option<Mark> {
    if marks == [] then None
    else if !marks[|marks| - 1].Stopped? then Some(marks[|marks| - 1])
    else LastReport(marks[..|marks| - 1])
  }

  /**
   The fields behind that: the service runs until it is stopped; it is stale, and shows the error,
   exactly while an error is the last thing it reported; and its revision and count are those of the
   last load, which events only move on.
   */
  lemma {:induction false} StatusFields(service: string, marks: seq<Mark>)
    requires marks != []
    ensures
      var status, before := MarkedAll(NO_STATUS, service, marks), MarkedAll(NO_STATUS, service, marks[..|marks| - 1]);
      var last, report := marks[|marks| - 1], LastReport(marks);
      && status.service == service
      && (status.running <==> !last.Stopped?)
      && (status.stale <==> report.Some? && report.value.Error?)
      && status.lastError == (if report.Some? && report.value.Error? then report.value.message else "")
      && (last.Loaded? ==> status.revision == last.revision && status.instanceCount == last.count)
      && (last.Event? ==>
            && status.revision >= last.revision && status.revision >= before.revision
            && status.revision in {last.revision, before.revision} && status.instanceCount == last.count)
      && (last.Error? || last.Stopped? ==>
            status.revision == before.revision && status.instanceCount == before.instanceCount)
  {
    if |marks| > 1 {
      StatusFields(service, marks[..|marks| - 1]);
    } else {
      assert marks[..0] == [];
    }
  }

  lemma {:induction false} ErrorsMore(a: seq<Mark>, b: seq<Mark>)
    ensures Errors(a + b) == Errors(a) + Errors(b)
  {
    if b == [] {
      assert a + b == a;
    } else {
      assert (a + b)[..|a + b| - 1] == a + b[..|b| - 1];
      ErrorsMore(a, b[..|b| - 1]);
    }
  }

  // ---------------------------------------------------------------- how long it waits

  function Doubled(delay: nat): nat {
    if 2 * delay > MAX_DELAY then MAX_DELAY else 2 * delay
  }

  /** The first n waits of a watcher that fails over and over, from `delay` on. */
  function WaitsFrom(delay: nat, n: nat): seq<nat> {
    if n == 0 then [] else WaitsFrom(delay, n - 1) + [DelayAfter(delay, n - 1)]
  }

  function DelayAfter(delay: nat, n: nat): nat {
    if n == 0 then delay else Doubled(DelayAfter(delay, n - 1))
  }

  lemma {:induction false} WaitsFirst(delay: nat, n: nat)
    ensures WaitsFrom(delay, n + 1) == [delay] + WaitsFrom(Doubled(delay), n)
    ensures DelayAfter(Doubled(delay), n) == DelayAfter(delay, n + 1)
  {
    if n == 0 {
      assert WaitsFrom(delay, 0) + [delay] == [delay] + [];
    } else {
      WaitsFirst(delay, n - 1);
      assert WaitsFrom(Doubled(delay), n) == WaitsFrom(Doubled(delay), n - 1) + [DelayAfter(Doubled(delay), n - 1)];
    }
  }

  /** In milliseconds: 200, 400, 800, 1600, and from then on 3000. */
  lemma {:induction false} WaitsAre(n: nat, i: nat)
    requires i < n
    ensures |WaitsFrom(MIN_DELAY, n)| == n
    ensures WaitsFrom(MIN_DELAY, n)[i]
         == if i == 0 then 200 else if i == 1 then 400 else if i == 2 then 800 else if i == 3 then 1600 else 3000
  {
    DelayIs(n - 1);
    if n > 1 {
      WaitsAre(n - 1, if i < n - 1 then i else 0);
    }
  }

  lemma {:induction false} DelayIs(i: nat)
    ensures DelayAfter(MIN_DELAY, i)
         == if i == 0 then 200 else if i == 1 then 400 else if i == 2 then 800 else if i == 3 then 1600 else 3000
  {
    if i > 0 {
      DelayIs(i - 1);
    }
  }

  // ---------------------------------------------------------------- how a watch ends, and how far it got

  /** Why a watch ends while its context does not: it breaks, or its channel closes. */
  function BreakOf(feed: seq<WatchResponse>): string {
    if feed == [] then "stopped" else if feed[0].Broken? then feed[0].error else BreakOf(feed[1..])
  }

  /** The newest revision after some watch events, of which those that do not decode say nothing. */
  function Newest(revision: nat, events: seq<WatchEvent>): nat {
    if events == [] then revision
    else
      var init, last := Newest(revision, events[..|events| - 1]), events[|events| - 1];
      if DecodeEvent(last).Some? && last.revision > init then last.revision else init
  }

  /** The newest revision when the watch ends. */
  function NewestOf(revision: nat, feed: seq<WatchResponse>): nat
    decreases |feed|
  {
    if feed == [] || feed[0].Broken? then revision
    else
      var told := if feed[0].revision > revision then feed[0].revision else revision;
      NewestOf(Newest(told, feed[0].events), feed[1..])
  }

  /** How the rest of a feed goes on with its first response. */
  lemma ResponseStep(feed: seq<WatchResponse>, r: nat, latest: nat)
    requires r < |feed|
    ensures
      var rest := feed[r..];
      if feed[r].Broken? then BreakOf(rest) == feed[r].error && NewestOf(latest, rest) == latest && Delivered(rest) == []
      else
        && BreakOf(rest) == BreakOf(feed[r + 1..])
        && NewestOf(latest, rest) == NewestOf(Newest(Max(latest, feed[r].revision), feed[r].events), feed[r + 1..])
        && Delivered(rest) == feed[r].events + Delivered(feed[r + 1..])
  {
    hide Newest;
    assert feed[r..][1..] == feed[r + 1..];
  }

  lemma FeedEnd(latest: nat)
    ensures BreakOf([]) == "stopped" && NewestOf(latest, []) == latest && Delivered([]) == []
  {
  }

  /** `later` goes on from `marks` with one event mark for each of `n` events, the last of them with this count. */
  ghost predicate MarksEvents(marks: seq<Mark>, later: seq<Mark>, n: nat, count: nat) {
    && marks <= later && |later| == |marks| + n
    && (forall i | |marks| <= i < |later| :: later[i].Event?)
    && (n > 0 ==> later[|later| - 1].count == count)
  }

  lemma MarksGrow(marks: seq<Mark>, later: seq<Mark>, n: nat, count: nat)
    requires MarksEvents(marks, later, n, count)
    ensures marks <= later
  {
  }

  /** What a watcher has, sent and marked. */
  datatype Progress = Progress(snapshot: Snapshot, sent: seq<DiscoveryEvent>, marks: seq<Mark>)

  /** Since `start` the watch events in `used` were applied and marked, and what they gave rise to was sent. */
  ghost predicate Wholly(start: Progress, used: seq<WatchEvent>, now: Progress) {
    && now.snapshot == Replay(start.snapshot, Emit(used))
    && now.sent == start.sent + Emit(used)
    && MarksEvents(start.marks, now.marks, |Emit(used)|, |now.snapshot|)
  }

  /** The same, except that the last event may not have been sent. */
  ghost predicate Partly(start: Progress, used: seq<WatchEvent>, now: Progress) {
    && now.snapshot == Replay(start.snapshot, Emit(used))
    && start.sent <= now.sent <= start.sent + Emit(used)
    && MarksEvents(start.marks, now.marks, |Emit(used)|, |now.snapshot|)
  }

  lemma NothingDone(start: Progress)
    ensures Wholly(start, [], start)
  {
    NothingYet(start.snapshot);
    assert start.sent + [] == start.sent;
  }

  /** A watch event that does not decode. */
  lemma Skipped(start: Progress, used: seq<WatchEvent>, event: WatchEvent, now: Progress)
    requires Wholly(start, used, now) && DecodeEvent(event).None?
    ensures Wholly(start, used + [event], now)
  {
    hide Emit, Replay;
    EmitAppend(start.snapshot, used, event);
  }

  /** One that does is applied and marked, and then sent. */
  lemma Advanced(start: Progress, used: seq<WatchEvent>, event: WatchEvent, now: Progress, revision: nat)
    requires Wholly(start, used, now) && DecodeEvent(event).Some?
    ensures
      var discovered := DecodeEvent(event).value;
      var applied := ApplySnapshotEvent(now.snapshot, discovered);
      var marks := now.marks + [Event(|applied|, revision)];
      && Partly(start, used + [event], Progress(applied, now.sent, marks))
      && Wholly(start, used + [event], Progress(applied, now.sent + [discovered], marks))
  {
    hide Emit, Replay, MarksEvents;
    EmitAppend(start.snapshot, used, event);
    var applied := ApplySnapshotEvent(now.snapshot, DecodeEvent(event).value);
    MarkedOne(start.marks, now.marks, Event(|applied|, revision), |Emit(used)|, |now.snapshot|);
  }

  lemma MarkedOne(marks: seq<Mark>, middle: seq<Mark>, mark: Mark, n: nat, count: nat)
    requires MarksEvents(marks, middle, n, count) && mark.Event?
    ensures MarksEvents(marks, middle + [mark], n + 1, mark.count)
  {
  }

  // ---------------------------------------------------------------- failed loads, and whole turns

  /** The marks of the reads from `from` up to `to`, all of which failed. */
  ghost function LoadErrors(gets: nat -> Result<Read, string>, from: nat, to: nat): seq<Mark> {
    if to <= from then []
    else
      var last := LoadResult(gets(to - 1));
      LoadErrors(gets, from, to - 1) + [Error(if last.Failure? then last.error else "")]
  }

  lemma OneMoreMark(before: seq<Mark>, mark: Mark)
    ensures Errors(before + [mark]) == if mark.Error? then Errors(before) + 1 else Errors(before)
  {
    assert (before + [mark])[..|before|] == before;
  }

  lemma MarksOnly(before: seq<Mark>, after: seq<Mark>)
    requires before <= after
    ensures Errors(after) >= Errors(before)
  {
    assert after == before + after[|before|..];
    ErrorsMore(before, after[|before|..]);
  }

  /** What is reported, and how often is waited: the marks, the waits, and the next delay. */
  datatype Record = Record(marks: seq<Mark>, waits: seq<nat>, delay: nat)

  /** All reads from `from` up to `at` failed; each was reported and followed by a wait. */
  ghost predicate Retried(gets: nat -> Result<Read, string>, from: nat, at: nat, before: Record, now: Record) {
    && from <= at && (forall n: nat | from <= n < at :: LoadResult(gets(n)).Failure?)
    && now.marks == before.marks + LoadErrors(gets, from, at)
    && now.waits == before.waits + WaitsFrom(before.delay, at - from)
    && now.delay == DelayAfter(before.delay, at - from)
  }

  lemma NoRetry(gets: nat -> Result<Read, string>, from: nat, before: Record)
    ensures Retried(gets, from, from, before, before)
  {
    assert before.marks + [] == before.marks && before.waits + [] == before.waits;
  }

  lemma OneRetry(gets: nat -> Result<Read, string>, from: nat, at: nat, before: Record, now: Record)
    requires Retried(gets, from, at, before, now) && LoadResult(gets(at)).Failure?
    ensures Retried(gets, from, at + 1, before,
                    Record(now.marks + [Error(LoadResult(gets(at)).error)], now.waits + [now.delay], Doubled(now.delay)))
  {
    hide LoadResult, Doubled;
    assert before.marks + (LoadErrors(gets, from, at) + [Error(LoadResult(gets(at)).error)])
        == (before.marks + LoadErrors(gets, from, at)) + [Error(LoadResult(gets(at)).error)];
    assert before.waits + (WaitsFrom(before.delay, at - from) + [now.delay])
        == (before.waits + WaitsFrom(before.delay, at - from)) + [now.delay];
  }

  /** And then the read `at` succeeded, which is reported too and sets the delay back. */
  ghost predicate Resumed(gets: nat -> Result<Read, string>, from: nat, at: nat, before: Record, loaded: Mark, now: Record)
  {
    exists prior: Record ::
      Retried(gets, from, at, before, prior) && now == Record(prior.marks + [loaded], prior.waits, MIN_DELAY)
  }

  lemma ResumedNow(gets: nat -> Result<Read, string>, from: nat, at: nat, before: Record, loaded: Mark, prior: Record)
    requires Retried(gets, from, at, before, prior)
    ensures Resumed(gets, from, at, before, loaded, Record(prior.marks + [loaded], prior.waits, MIN_DELAY))
  {
  }

  lemma RetriedBounds(gets: nat -> Result<Read, string>, from: nat, at: nat, before: Record, now: Record)
    requires Retried(gets, from, at, before, now)
    ensures from <= at && before.marks <= now.marks
  {
  }

  /**
   A completed turn: a mark for each of `n` events, then the end of the watch, then each read from
   `from` up to `at`, which failed, and at last the load that succeeded. After each failure there was
   one wait, the first of them after the end of the watch.
   */
  ghost predicate ReportsTurn(gets: nat -> Result<Read, string>, before: Record, n: nat, error: string, from: nat, at: nat,
                              loaded: Mark, now: Record)
  {
    var m := |before.marks| + n;
    && before.marks <= now.marks && m <= |now.marks| && from <= at
    && (forall i | |before.marks| <= i < m :: now.marks[i].Event?)
    && now.marks[m..] == [Error(error)] + LoadErrors(gets, from, at) + [loaded]
    && (forall i: nat | from <= i < at :: LoadResult(gets(i)).Failure?)
    && now.waits == before.waits + WaitsFrom(before.delay, 1 + at - from) && now.delay == MIN_DELAY
  }

  lemma TurnMarks(before: seq<Mark>, middle: seq<Mark>, n: nat, count: nat, error: Mark, errors: seq<Mark>, loaded: Mark)
    requires MarksEvents(before, middle, n, count) && error.Error?
    ensures
      var marks := ((middle + [error]) + errors) + [loaded];
      && before <= marks && |before| + n <= |marks|
      && (forall i | |before| <= i < |before| + n :: marks[i].Event?)
      && marks[|before| + n..] == [error] + errors + [loaded]
      && Errors(marks) > Errors(before)
  {
    hide Errors;
    var marks := ((middle + [error]) + errors) + [loaded];
    assert marks == middle + ([error] + errors + [loaded]);
    OneMoreMark(middle, error);
    MarksOnly(before, middle);
    MarksOnly(middle + [error], marks);
  }

  lemma TurnWaits(before: seq<nat>, delay: nat, n: nat)
    ensures (before + [delay]) + WaitsFrom(Doubled(delay), n) == before + WaitsFrom(delay, 1 + n)
  {
    hide WaitsFrom, Doubled;
    WaitsFirst(delay, n);
  }

  lemma TurnReported(gets: nat -> Result<Read, string>, before: Record, middle: seq<Mark>, n: nat, count: nat,
                     error: string, from: nat, at: nat, loaded: Mark, now: Record)
    requires MarksEvents(before.marks, middle, n, count)
    requires loaded.Loaded? && Resumed(gets, from, at,
                     Record(middle + [Error(error)], before.waits + [before.delay], Doubled(before.delay)), loaded, now)
    ensures ReportsTurn(gets, before, n, error, from, at, loaded, now) && Errors(now.marks) > Errors(before.marks)
  {
    hide LoadResult, LoadErrors, Doubled, WaitsFrom, DelayAfter, Errors, MarksEvents;
    var reported := Record(middle + [Error(error)], before.waits + [before.delay], Doubled(before.delay));
    var prior: Record :|
      Retried(gets, from, at, reported, prior) && now == Record(prior.marks + [loaded], prior.waits, MIN_DELAY);
    TurnMarks(before.marks, middle, n, count, Error(error), LoadErrors(gets, from, at), loaded);
    TurnWaits(before.waits, before.delay, at - from);
  }

  // ---------------------------------------------------------------- the watcher

  /** The state of one watchLoop goroutine together with the status it publishes. */
  class ServiceWatch {
    const client: Client
    const ctx: Context
    const service: string
    var snapshot: Snapshot
    var revision: nat
    var delay: nat
    var sent: seq<DiscoveryEvent>
    var status: WatchStatus
    ghost var marks: seq<Mark>
    ghost var waits: seq<nat>

    ghost predicate Valid()
      reads this
    {
      && WellKeyed(snapshot)
      && MIN_DELAY <= delay <= MAX_DELAY
      && status == MarkedAll(NO_STATUS, service, marks)
    }

    constructor (client: Client, ctx: Context, service: string)
      ensures Valid() && snapshot == map[] && sent == [] && marks == [] && waits == []
      ensures this.client == client && this.ctx == ctx && this.service == service
    {
      this.client, this.ctx, this.service := client, ctx, service;
      snapshot, revision, delay, sent := map[], 0, MIN_DELAY, [];
      status, marks, waits := NO_STATUS, [], [];
    }

    method Note(mark: Mark)
      requires Valid()
      modifies this`status, this`marks
      ensures Valid() && marks == old(marks) + [mark]
      ensures mark.Error? ==> !Reported(status).healthy
    {
      status := Marked(status, service, mark);
      marks := marks + [mark];
    }

    /** Sends unless the context is cancelled first. */
    method SendEvent(event: DiscoveryEvent) returns (ok: bool)
      modifies this`sent, ctx
      ensures sent == if ok then old(sent) + [event] else old(sent)
      ensures !ok ==> ctx.left == 0
      ensures ctx.left <= old(ctx.left)
    {
      var done := ctx.Done();
      if !done {
        sent := sent + [event];
      }
      ok := !done;
    }

    /** While the service is reported unhealthy: waits `delay` unless the context is cancelled first, then doubles the delay up to the cap. */
    method BackOff() returns (ok: bool)
      requires Valid() && !Reported(status).healthy
      modifies this`delay, this`waits, ctx
      ensures Valid()
      ensures waits == if ok then old(waits) + [old(delay)] else old(waits)
      ensures delay == if ok then Doubled(old(delay)) else old(delay)
      ensures if ok then ctx.left < old(ctx.left) else ctx.left == 0
    {
      var done := ctx.Done();
      if !done {
        waits := waits + [delay];
      }
      if !done && delay < MAX_DELAY {
        delay := delay * 2;
        if delay > MAX_DELAY {
          delay := MAX_DELAY;
        }
      }
      ok := !done;
    }

    method LoadSnapshot() returns (r: Result<(Snapshot, nat), string>)
      modifies client
      ensures client.readCount == old(client.readCount) + 1 && client.watchCount == old(client.watchCount)
      ensures LoadResult(client.gets(old(client.readCount))) == r
      ensures r.Success? ==> WellKeyed(r.value.0)
    {
      hide InstanceKey, Blank, MarkedAll;
      var read := client.Get();
      match read {
        case Failure(e) => r := Failure(e);
        case Success(answer) =>
          var instances: Snapshot := map[];
          var i := 0;
          LoadWellKeyed(answer.kvs);
          assert answer.kvs[..0] == [];
          while i < |answer.kvs|
            invariant 0 <= i <= |answer.kvs|
            invariant Load(answer.kvs[..i]) == Success(instances)
          {
            assert answer.kvs[..i + 1][..i] == answer.kvs[..i];
            match answer.kvs[i].value {
              case Corrupt =>
                LoadFailsLater(answer.kvs, i + 1);
                return Failure("unmarshal");
              case Json(instance) =>
                if !Blank(instance.address) {
                  instances := instances[InstanceKey(instance) := instance];
                }
            }
            i := i + 1;
          }
          assert answer.kvs[..i] == answer.kvs;
          r := Success((instances, answer.revision));
      }
    }

    /** Sends the difference between the current snapshot and `next`. */
    method EmitSnapshotDiff(next: Snapshot) returns (ok: bool)
      modifies this`sent, ctx
      ensures ok ==> sent == old(sent) + Diff(snapshot, next)
      ensures !ok ==> old(sent) <= sent <= old(sent) + Diff(snapshot, next) && ctx.left == 0
      ensures ctx.left <= old(ctx.left)
    {
      hide RemovedEvents, ChangedEvents, SortedKeys;
      ok := SendRemoved(SortedKeys(snapshot.Keys), next);
      if ok {
        ok := SendChanged(SortedKeys(next.Keys), next);
      }
    }

    method SendRemoved(keys: seq<string>, next: Snapshot) returns (ok: bool)
      requires forall i | 0 <= i < |keys| :: keys[i] in snapshot
      modifies this`sent, ctx
      ensures ok ==> sent == old(sent) + RemovedEvents(keys, snapshot, next)
      ensures !ok ==> old(sent) <= sent <= old(sent) + RemovedEvents(keys, snapshot, next) && ctx.left == 0
      ensures ctx.left <= old(ctx.left)
    {
      hide RemovedEvents;
      var i := 0;
      assert keys[..0] == [];
      NoEvents(snapshot, next);
      while i < |keys|
        invariant 0 <= i <= |keys|
        invariant sent == old(sent) + RemovedEvents(keys[..i], snapshot, next)
        invariant ctx.left <= old(ctx.left)
      {
        RemovedPrefix(keys, snapshot, next, i);
        if keys[i] !in next {
          ok := SendEvent(DiscoveryEvent(Removed, snapshot[keys[i]]));
          if !ok {
            return;
          }
        }
        i := i + 1;
      }
      assert keys[..i] == keys;
      ok := true;
    }

    method SendChanged(keys: seq<string>, next: Snapshot) returns (ok: bool)
      requires forall i | 0 <= i < |keys| :: keys[i] in next
      modifies this`sent, ctx
      ensures ok ==> sent == old(sent) + ChangedEvents(keys, snapshot, next)
      ensures !ok ==> old(sent) <= sent <= old(sent) + ChangedEvents(keys, snapshot, next) && ctx.left == 0
      ensures ctx.left <= old(ctx.left)
    {
      hide ChangedEvents;
      var i := 0;
      assert keys[..0] == [];
      NoEvents(snapshot, next);
      while i < |keys|
        invariant 0 <= i <= |keys|
        invariant sent == old(sent) + ChangedEvents(keys[..i], snapshot, next)
        invariant ctx.left <= old(ctx.left)
      {
        ChangedPrefix(keys, snapshot, next, i);
        var key := keys[i];
        ok := true;
        if key !in snapshot {
          ok := SendEvent(DiscoveryEvent(Added, next[key]));
        } else if snapshot[key] != next[key] {
          ok := SendEvent(DiscoveryEvent(Updated, next[key]));
        }
        if !ok {
          return;
        }
        i := i + 1;
      }
      assert keys[..i] == keys;
      ok := true;
    }

    ghost function Now(): Progress
      reads this
    {
      Progress(snapshot, sent, marks)
    }

    ghost function Book(): Record
      reads this
    {
      Record(marks, waits, delay)
    }

    /**
     Follows one watch until it breaks, closes or the context ends. `used` is the part of the feed
     that was applied to the snapshot, each event with a mark; everything it gave rise to was sent,
     unless the context ended during the last send. The reason why it ended is always reported.
     */
    method WatchOnce() returns (latest: nat, err: string, ghost used: seq<WatchEvent>)
      requires Valid()
      modifies this`snapshot, this`sent, this`status, this`marks, ctx, client
      ensures Valid()
      ensures client.watchCount == old(client.watchCount) + 1 && client.readCount == old(client.readCount)
      ensures used <= Delivered(client.watches(old(client.watchCount), StartOf(revision)))
      ensures snapshot == Replay(old(snapshot), Emit(used))
      ensures old(sent) <= sent <= old(sent) + Emit(used)
      ensures MarksEvents(old(marks), marks, |Emit(used)|, |snapshot|)
      ensures ctx.left <= old(ctx.left)
      ensures ctx.left > 0 ==>
        var feed := client.watches(old(client.watchCount), StartOf(revision));
        && sent == old(sent) + Emit(used)
        && used == Delivered(feed)
        && err == BreakOf(feed) && latest == NewestOf(revision, feed)
      ensures latest >= revision
    {
      hide InstanceKey, Blank, MarkedAll, WellKeyed, Emit, Replay, DecodeEvent, ApplySnapshotEvent, MarksEvents;
      hide Wholly, Partly, Newest, BreakOf, NewestOf, Delivered;
      latest := revision;
      var feed := client.Watch(StartOf(revision));
      ghost var all, start := Delivered(feed), Now();
      used := [];
      var r := 0;
      NothingDone(start);
      assert feed[0..] == feed;
      while r < |feed|
        invariant 0 <= r <= |feed|
        invariant Valid() && latest >= revision
        invariant all == used + Delivered(feed[r..])
        invariant BreakOf(feed) == BreakOf(feed[r..])
        invariant NewestOf(revision, feed) == NewestOf(latest, feed[r..])
        invariant Wholly(start, used, Now())
        invariant ctx.left <= old(ctx.left)
        invariant client.watchCount == old(client.watchCount) + 1 && client.readCount == old(client.readCount)
      {
        ResponseStep(feed, r, latest);
        if feed[r].Broken? {
          err := feed[r].error;
          Ended(start, used);
          return;
        }
        latest := Max(latest, feed[r].revision);
        ghost var before, rest := used, Delivered(feed[r + 1..]);
        assert all == before + feed[r].events + rest;
        var ok;
        ok, latest, used := Follow(feed[r].events, latest, before, start);
        assert used <= all;
        if !ok {
          err := "context";
          Ended(start, used);
          return;
        }
        r := r + 1;
      }
      assert feed[r..] == [];
      FeedEnd(latest);
      Ended(start, used);
      var done := ctx.Done();
      err := if done then "context" else "stopped";
    }

    lemma Ended(start: Progress, used: seq<WatchEvent>)
      requires Partly(start, used, Now()) || Wholly(start, used, Now())
      ensures snapshot == Replay(start.snapshot, Emit(used))
      ensures start.sent <= sent <= start.sent + Emit(used)
      ensures MarksEvents(start.marks, marks, |Emit(used)|, |snapshot|)
      ensures Wholly(start, used, Now()) ==> sent == start.sent + Emit(used)
    {
    }

    /** The inner loop of WatchOnce: applies, marks and sends the events of one response. */
    method Follow(events: seq<WatchEvent>, revision: nat, ghost before: seq<WatchEvent>, ghost start: Progress)
      returns (ok: bool, latest: nat, ghost used: seq<WatchEvent>)
      requires Valid() && Wholly(start, before, Now())
      modifies this`snapshot, this`sent, this`status, this`marks, ctx
      ensures Valid() && latest >= revision
      ensures used <= before + events && (Partly(start, used, Now()) || Wholly(start, used, Now()))
      ensures ok ==> used == before + events && Wholly(start, used, Now()) && latest == Newest(revision, events)
      ensures !ok ==> ctx.left == 0
      ensures ctx.left <= old(ctx.left)
    {
      hide InstanceKey, Blank, MarkedAll, WellKeyed, Emit, Replay, DecodeEvent, ApplySnapshotEvent, Wholly, Partly;
      ok, latest, used := true, revision, before;
      var i := 0;
      assert before + events[..0] == before && events[..0] == [];
      while i < |events|
        invariant 0 <= i <= |events|
        invariant Valid() && latest >= revision && ok
        invariant used == before + events[..i] && latest == Newest(revision, events[..i])
        invariant Wholly(start, used, Now())
        invariant ctx.left <= old(ctx.left)
      {
        var event := events[i];
        ghost var prior, progress := used, Now();
        used := used + [event];
        assert events[..i + 1][..i] == events[..i] && used == before + events[..i + 1];
        match DecodeEvent(event) {
          case None =>
            Skipped(start, prior, event, progress);
          case Some(discovered) =>
            latest := Max(latest, event.revision);
            Advanced(start, prior, event, progress, latest);
            ApplyKeepsWellKeyed(snapshot, discovered);
            snapshot := ApplySnapshotEvent(snapshot, discovered);
            Note(Event(|snapshot|, latest));
            ok := SendEvent(discovered);
            if !ok {
              return;
            }
        }
        i := i + 1;
      }
      assert events[..i] == events;
    }

    /** Watch's first half: loads, announces the snapshot and leaves the loop ready to run. */
    method Start() returns (r: Result<(), string>)
      requires Valid() && snapshot == map[] && sent == []
      modifies this, client
      ensures Valid()
      ensures client.readCount == old(client.readCount) + 1 && client.watchCount == old(client.watchCount)
      ensures
        var read := LoadResult(client.gets(old(client.readCount)));
        if r.Success? then read == Success((snapshot, revision)) else read == Failure(r.error)
      ensures r.Success? ==> sent == RunStream(snapshot, [])
      ensures r.Failure? ==> sent == []
    {
      hide ChangedEvents, RemovedEvents, WellKeyed, MarkedAll;
      var loaded := LoadSnapshot();
      match loaded {
        case Failure(e) => r := Failure(e);
        case Success(answer) =>
          var keys := SortedKeys(answer.0.Keys);
          var i := 0;
          assert keys[..0] == [];
          NoEvents(map[], answer.0);
          assert SortedKeys(snapshot.Keys) == [];
          while i < |keys|
            invariant 0 <= i <= |keys|
            invariant sent == ChangedEvents(keys[..i], map[], answer.0)
            invariant snapshot == map[] && Valid()
            invariant client.readCount == old(client.readCount) + 1 && client.watchCount == old(client.watchCount)
          {
            ChangedPrefix(keys, map[], answer.0, i);
            sent := sent + [DiscoveryEvent(Added, answer.0[keys[i]])];
            i := i + 1;
          }
          assert keys[..i] == keys;
          snapshot, revision := answer.0, answer.1;
          r := Success(());
      }
    }

    /**
     Loads until a load succeeds. Each failure is reported and followed by a wait; `at` is the read
     that succeeded, the first one to do so.
     */
    method Reload() returns (ok: bool, next: Snapshot, loaded: nat, ghost at: nat)
      requires Valid()
      modifies this`status, this`marks, this`delay, this`waits, ctx, client
      ensures Valid()
      ensures client.watchCount == old(client.watchCount)
      ensures ctx.left <= old(ctx.left) && old(marks) <= marks
      ensures if ok then
                && client.readCount == at + 1
                && LoadResult(client.gets(at)) == Success((next, loaded))
                && WellKeyed(next)
                && Retried(client.gets, old(client.readCount), at, old(Book()), Book())
              else ctx.left == 0
    {
      hide MarkedAll, WellKeyed, LoadResult, Doubled, Retried;
      next, loaded, at := map[], 0, 0;
      NoRetry(client.gets, client.readCount, Book());
      while true
        invariant Valid() && ctx.left <= old(ctx.left) && old(marks) <= marks
        invariant client.watchCount == old(client.watchCount)
        invariant Retried(client.gets, old(client.readCount), client.readCount, old(Book()), Book())
        decreases ctx.left
      {
        ok := false;
        var done := ctx.Done();
        if done {
          return;
        }
        at := client.readCount;
        var r := LoadSnapshot();
        match r {
          case Success(answer) =>
            next, loaded, ok := answer.0, answer.1, true;
            return;
          case Failure(message) =>
            OneRetry(client.gets, old(client.readCount), at, old(Book()), Book());
            Note(Error(message));
            var slept := BackOff();
            if !slept {
              return;
            }
        }
      }
    }

    /** The revision that turn `i` watches from: the one loaded last. */
    ghost function RevisionBefore(loads: seq<nat>, firstRevision: nat, i: nat): nat
      requires i <= |loads|
    {
      if i == 0 then firstRevision
      else
        var read := LoadResult(client.gets(loads[i - 1]));
        if read.Success? then read.value.1 else 0
    }

    /** A completed turn: all that one watch delivered, opened behind `revision`, and one read. */
    ghost predicate TurnOf(round: Round, load: nat, watch: nat, revision: nat) {
      && round.events == Delivered(client.watches(watch, StartOf(revision)))
      && LoadResult(client.gets(load)).Success? && LoadResult(client.gets(load)).value.0 == round.next
    }

    /**
     The rounds are, in order, the client's watches from `firstWatch` on, each opened behind the
     revision loaded before it, and later and later reads.
     */
    ghost predicate FromClient(rounds: seq<Round>, loads: seq<nat>, firstRevision: nat, firstWatch: nat, firstRead: nat)
    {
      && |loads| == |rounds|
      && (forall i | 0 <= i < |rounds| ::
            TurnOf(rounds[i], loads[i], firstWatch + i, RevisionBefore(loads, firstRevision, i)))
      && (forall i | 0 <= i < |loads| :: firstRead <= loads[i])
      && (forall i, j | 0 <= i < j < |loads| :: loads[i] < loads[j])
    }

    lemma NoRounds(firstRevision: nat, firstWatch: nat, firstRead: nat)
      ensures FromClient([], [], firstRevision, firstWatch, firstRead)
      ensures RevisionBefore([], firstRevision, 0) == firstRevision
    {
    }

    lemma RevisionsStay(loads: seq<nat>, at: nat, firstRevision: nat, i: nat)
      requires i <= |loads|
      ensures RevisionBefore(loads + [at], firstRevision, i) == RevisionBefore(loads, firstRevision, i)
    {
      hide LoadResult;
    }

    lemma ExtendClient(rounds: seq<Round>, loads: seq<nat>, firstRevision: nat, firstWatch: nat, firstRead: nat,
                       last: Round, at: nat)
      requires FromClient(rounds, loads, firstRevision, firstWatch, firstRead)
      requires TurnOf(last, at, firstWatch + |rounds|, RevisionBefore(loads, firstRevision, |loads|))
      requires firstRead <= at && forall i | 0 <= i < |loads| :: loads[i] < at
      ensures FromClient(rounds + [last], loads + [at], firstRevision, firstWatch, firstRead)
    {
      hide TurnOf, RevisionBefore;
      var rs, ls := rounds + [last], loads + [at];
      forall i | 0 <= i < |rs| ensures TurnOf(rs[i], ls[i], firstWatch + i, RevisionBefore(ls, firstRevision, i)) {
        RevisionsStay(loads, at, firstRevision, i);
      }
    }

    lemma RevisionAfter(loads: seq<nat>, at: nat, firstRevision: nat)
      requires LoadResult(client.gets(at)).Success?
      ensures RevisionBefore(loads + [at], firstRevision, |loads| + 1) == LoadResult(client.gets(at)).value.1
    {
    }

    /** The last snapshot of a round is a read, or the round got no further than its increments. */
    ghost predicate Grounded(last: Round, start: Snapshot, at: nat) {
      || last.next == Replay(start, Emit(last.events))
      || (LoadResult(client.gets(at)).Success? && LoadResult(client.gets(at)).value.0 == last.next)
    }

    /** A round that may be interrupted: it starts with an initial part of its watch. */
    ghost predicate Unfinished(last: Round, start: Snapshot, at: nat, watch: nat, revision: nat) {
      last.events <= Delivered(client.watches(watch, StartOf(revision))) && Grounded(last, start, at)
    }

    /**
     The whole loop. Whenever it ends, what was sent is an initial part of the stream of a run whose
     completed rounds are the client's own watches and reads, in order, each watch opened behind the
     revision loaded before it, and whose last round may be interrupted anywhere.
     */
    method WatchLoop() returns (ghost rounds: seq<Round>, ghost loads: seq<nat>, ghost last: Round, ghost at: nat)
      requires Valid() && sent == RunStream(snapshot, [])
      modifies this, ctx, client
      ensures WellKeyed(old(snapshot)) && LoadedRounds(rounds + [last])
      ensures RunStream(old(snapshot), rounds) <= sent <= RunStream(old(snapshot), rounds + [last])
      ensures FromClient(rounds, loads, old(revision), old(client.watchCount), old(client.readCount))
      ensures Unfinished(last, RunSnapshot(old(snapshot), rounds), at,
                         old(client.watchCount) + |rounds|, RevisionBefore(loads, old(revision), |loads|))
      ensures !status.running && !Reported(status).healthy
      ensures old(marks) + [Loaded(|old(snapshot)|, old(revision))] <= marks && marks[|marks| - 1] == Stopped
      ensures status.reconnects == Errors(marks) >= Errors(old(marks)) + |rounds|
    {
      hide RunStream, RunSnapshot, Emit, Diff, WellKeyed, LoadedRounds, FromClient, Unfinished, RevisionBefore;
      Note(Loaded(|snapshot|, revision));
      delay := MIN_DELAY;
      OneMoreMark(old(marks), Loaded(|snapshot|, revision));
      rounds, loads, last, at := Rounds();
      OneMoreMark(marks, Stopped);
      Note(Stopped);
      StatusTells(service, marks);
      assert marks[..|marks| - 1] + [Stopped] == marks;
    }

    method Rounds() returns (ghost rounds: seq<Round>, ghost loads: seq<nat>, ghost last: Round, ghost at: nat)
      requires Valid() && sent == RunStream(snapshot, []) && delay == MIN_DELAY
      modifies this, ctx, client
      ensures Valid()
      ensures old(marks) <= marks && Errors(marks) >= Errors(old(marks)) + |rounds|
      ensures LoadedRounds(rounds + [last])
      ensures RunStream(old(snapshot), rounds) <= sent <= RunStream(old(snapshot), rounds + [last])
      ensures FromClient(rounds, loads, old(revision), old(client.watchCount), old(client.readCount))
      ensures Unfinished(last, RunSnapshot(old(snapshot), rounds), at,
                         old(client.watchCount) + |rounds|, RevisionBefore(loads, old(revision), |loads|))
    {
      hide RunStream, WellKeyed, LoadedRounds, RunSnapshot, MarkedAll, FromClient, Delivered, LoadResult, Unfinished;
      hide RevisionBefore;
      ghost var first := snapshot;
      rounds, loads := [], [];
      NothingYet(first);
      NoRounds(revision, client.watchCount, client.readCount);
      while true
        invariant Valid() && LoadedRounds(rounds)
        invariant snapshot == RunSnapshot(first, rounds)
        invariant sent == RunStream(first, rounds)
        invariant client.watchCount == old(client.watchCount) + |rounds| && client.readCount >= old(client.readCount)
        invariant FromClient(rounds, loads, old(revision), old(client.watchCount), old(client.readCount))
        invariant |loads| == |rounds| && revision == RevisionBefore(loads, old(revision), |loads|)
        invariant forall i | 0 <= i < |loads| :: loads[i] < client.readCount
        invariant delay == MIN_DELAY && old(marks) <= marks && Errors(marks) >= Errors(old(marks)) + |rounds|
        decreases ctx.left
      {
        ghost var before := marks;
        var again, turn, read := Turn(first, rounds);
        last, at := turn, read;
        if !again {
          MarksOnly(before, marks);
          return;
        }
        ExtendClient(rounds, loads, old(revision), old(client.watchCount), old(client.readCount), last, at);
        RevisionAfter(loads, at, old(revision));
        rounds, loads := rounds + [last], loads + [at];
      }
    }

    /**
     One turn of the loop; `again` tells whether the loop goes on. A turn that completes has reported
     the end of its watch before it waited for the first time, and each failed read before each
     further wait.
     */
    method Turn(ghost first: Snapshot, ghost rounds: seq<Round>) returns (again: bool, ghost last: Round, ghost at: nat)
      requires Valid() && LoadedRounds(rounds)
      requires snapshot == RunSnapshot(first, rounds) && sent == RunStream(first, rounds)
      modifies this, ctx, client
      ensures Valid() && LoadedRounds(rounds + [last])
      ensures Unfinished(last, RunSnapshot(first, rounds), at, old(client.watchCount), old(revision))
      ensures old(sent) <= sent <= RunStream(first, rounds + [last])
      ensures old(marks) <= marks
      ensures again ==>
        && ReportsTurn(client.gets, old(Book()), |Emit(last.events)|,
                       BreakOf(client.watches(old(client.watchCount), StartOf(old(revision)))),
                       old(client.readCount), at, Loaded(|snapshot|, revision), Book())
        && Errors(marks) > Errors(old(marks))
      ensures again ==>
                && sent == RunStream(first, rounds + [last]) && snapshot == RunSnapshot(first, rounds + [last])
                && TurnOf(last, at, old(client.watchCount), old(revision))
                && revision == LoadResult(client.gets(at)).value.1
                && client.watchCount == old(client.watchCount) + 1
                && old(client.readCount) <= at < client.readCount
                && LoadResult(client.gets(at)).Success?
                && ctx.left < old(ctx.left)
    {
      hide RunStream, Emit, Diff, WellKeyed, LoadedRounds, RunSnapshot, MarkedAll, Replay, Delivered, LoadResult;
      hide Resumed, ReportsTurn, Errors, MarksEvents, BreakOf, NewestOf, Doubled, InstanceKey, Blank, Max, Retried;
      again, at := false, 0;
      last := Round([], snapshot);
      LastRound(first, rounds, last);
      NothingYet(snapshot);
      var done := ctx.Done();
      if done {
        return;
      }
      var latest, err, used := WatchOnce();
      ghost var count, marked := |snapshot|, marks;
      MarksGrow(old(marks), marked, |Emit(used)|, count);
      if latest > revision {
        revision := latest;
      }
      last := Round(used, snapshot);
      LastRound(first, rounds, last);
      done := ctx.Done();
      if done {
        return;
      }
      again, last, at := Recover(first, rounds, used, err);
      if again {
        TurnReported(client.gets, old(Book()), marked, |Emit(used)|, count, err, old(client.readCount), at,
                     Loaded(|snapshot|, revision), Book());
      }
    }

    /** What follows the watch in a turn: its end is reported, then a wait, and then a resync. */
    method Recover(ghost first: Snapshot, ghost rounds: seq<Round>, ghost used: seq<WatchEvent>, error: string)
      returns (again: bool, ghost last: Round, ghost at: nat)
      requires Valid() && LoadedRounds(rounds)
      requires snapshot == Replay(RunSnapshot(first, rounds), Emit(used))
      requires sent == RunStream(first, rounds) + Emit(used)
      modifies this, ctx, client
      ensures Valid() && LoadedRounds(rounds + [last]) && last.events == used
      ensures old(sent) <= sent <= RunStream(first, rounds + [last])
      ensures ctx.left <= old(ctx.left)
      ensures Grounded(last, RunSnapshot(first, rounds), at)
      ensures old(marks) <= marks
      ensures again ==>
                && Resumed(client.gets, old(client.readCount), at,
                           Record(old(marks) + [Error(error)], old(waits) + [old(delay)], Doubled(old(delay))),
                           Loaded(|snapshot|, revision), Book())
                && ctx.left < old(ctx.left)
      ensures again ==>
                && sent == RunStream(first, rounds + [last]) && snapshot == RunSnapshot(first, rounds + [last])
                && client.watchCount == old(client.watchCount)
                && old(client.readCount) <= at < client.readCount
                && LoadResult(client.gets(at)) == Success((last.next, revision))
    {
      hide RunStream, Emit, Diff, WellKeyed, RunSnapshot, MarkedAll, Replay, LoadResult, Resumed, Doubled;
      hide ServiceWatch.Grounded, Reported;
      again, at := false, 0;
      last := Round(used, snapshot);
      LastRound(first, rounds, last);
      GroundedNow(used, RunSnapshot(first, rounds), at);
      hide LoadedRounds;
      Note(Error(error));
      var slept := BackOff();
      if !slept {
        return;
      }
      again, last, at := Resync(first, rounds, used);
    }

    lemma GroundedNow(used: seq<WatchEvent>, start: Snapshot, at: nat)
      ensures Grounded(Round(used, Replay(start, Emit(used))), start, at)
    {
    }

    /** The second half of that: reload, send the difference, adopt the new snapshot. */
    method Resync(ghost first: Snapshot, ghost rounds: seq<Round>, ghost used: seq<WatchEvent>)
      returns (again: bool, ghost last: Round, ghost at: nat)
      requires Valid() && LoadedRounds(rounds)
      requires snapshot == Replay(RunSnapshot(first, rounds), Emit(used))
      requires sent == RunStream(first, rounds) + Emit(used)
      modifies this, ctx, client
      ensures Valid() && LoadedRounds(rounds + [last]) && last.events == used
      ensures old(sent) <= sent <= RunStream(first, rounds + [last])
      ensures ctx.left <= old(ctx.left)
      ensures Grounded(last, RunSnapshot(first, rounds), at)
      ensures old(marks) <= marks
      ensures again ==>
                Resumed(client.gets, old(client.readCount), at, old(Book()), Loaded(|snapshot|, revision), Book())
      ensures again ==>
                && sent == RunStream(first, rounds + [last]) && snapshot == RunSnapshot(first, rounds + [last])
                && client.watchCount == old(client.watchCount)
                && old(client.readCount) <= at < client.readCount
                && LoadResult(client.gets(at)) == Success((last.next, revision))
    {
      hide RunStream, Emit, Diff, WellKeyed, LoadedRounds, RunSnapshot, MarkedAll, Replay, LoadResult, Retried, Resumed;
      again := false;
      last := Round(used, snapshot);
      LastRound(first, rounds, last);
      var ok, next, loaded, index := Reload();
      at := index;
      if !ok {
        return;
      }
      var done := ctx.Done();
      if done {
        return;
      }
      ghost var prior := Book();
      RetriedBounds(client.gets, old(client.readCount), at, old(Book()), prior);
      last := Round(used, next);
      LastRound(first, rounds, last);
      ok := EmitSnapshotDiff(next);
      if !ok {
        return;
      }
      snapshot := next;
      revision := loaded;
      Note(Loaded(|snapshot|, revision));
      delay := MIN_DELAY;
      ResumedNow(client.gets, old(client.readCount), at, old(Book()), Loaded(|snapshot|, revision), prior);
      again := true;
    }
  }

  function LoadResult(read: Result<Read, string>): Result<(Snapshot, nat), string> {
    match read
    case Failure(e) => Failure(e)
    case Success(answer) =>
      match Load(answer.kvs)
      case Failure(e) => Failure(e)
      case Success(s) => Success((s, answer.revision))
  }

  /** One more round continues the stream with its increments and then its diff. */
  lemma LastRound(first: Snapshot, rounds: seq<Round>, last: Round)
    requires LoadedRounds(rounds) && WellKeyed(last.next)
    ensures LoadedRounds(rounds + [last])
    ensures RunStream(first, rounds + [last])
         == RunStream(first, rounds) + Emit(last.events)
            + Diff(Replay(RunSnapshot(first, rounds), Emit(last.events)), last.next)
    ensures RunSnapshot(first, rounds + [last]) == last.next
  {
    hide Emit, Diff, Replay, WellKeyed;
    assert (rounds + [last])[..|rounds|] == rounds;
  }

  lemma EmitAppend(start: Snapshot, used: seq<WatchEvent>, event: WatchEvent)
    ensures Emit(used + [event])
         == match DecodeEvent(event) case Some(e) => Emit(used) + [e] case None => Emit(used)
    ensures Replay(start, Emit(used + [event]))
         == match DecodeEvent(event)
            case Some(e) => ApplySnapshotEvent(Replay(start, Emit(used)), e)
            case None => Replay(start, Emit(used))
  {
    assert (used + [event])[..|used|] == used;
    if DecodeEvent(event).Some? {
      var e := DecodeEvent(event).value;
      assert (Emit(used) + [e])[..|Emit(used)|] == Emit(used);
    }
  }

  lemma {:induction false} LoadFailsLater(kvs: seq<KeyValue>, n: nat)
    requires n <= |kvs| && Load(kvs[..n]).Failure?
    ensures Load(kvs) == Load(kvs[..n])
    decreases |kvs|
  {
    if n < |kvs| {
      var init := kvs[..|kvs| - 1];
      assert init[..n] == kvs[..n];
      LoadFailsLater(init, n);
    } else {
      assert kvs[..n] == kvs;
    }
  }

  lemma NothingYet(start: Snapshot)
    ensures Emit([]) == [] && Replay(start, []) == start
    ensures LoadedRounds([]) && RunSnapshot(start, []) == start
  {
  }

  lemma NoEvents(prior: Snapshot, next: Snapshot)
    ensures RemovedEvents([], prior, next) == [] && ChangedEvents([], prior, next) == []
  {
  }

  lemma {:induction false} RemovedPrefix(keys: seq<string>, prior: Snapshot, next: Snapshot, i: nat)
    requires i < |keys| && forall j | 0 <= j < |keys| :: keys[j] in prior
    ensures RemovedEvents(keys[..i + 1], prior, next)
         == RemovedEvents(keys[..i], prior, next)
            + (if keys[i] in next then [] else [DiscoveryEvent(Removed, prior[keys[i]])])
    ensures RemovedEvents(keys[..i + 1], prior, next) <= RemovedEvents(keys, prior, next)
    decreases |keys|
  {
    assert keys[..i + 1][..i] == keys[..i];
    if i + 1 < |keys| {
      var init := keys[..|keys| - 1];
      assert init[..i + 1] == keys[..i + 1] && init[..i] == keys[..i];
      RemovedPrefix(init, prior, next, i);
    } else {
      assert keys[..i + 1] == keys;
    }
  }

  lemma {:induction false} ChangedPrefix(keys: seq<string>, prior: Snapshot, next: Snapshot, i: nat)
    requires i < |keys| && forall j | 0 <= j < |keys| :: keys[j] in next
    ensures ChangedEvents(keys[..i + 1], prior, next)
         == ChangedEvents(keys[..i], prior, next)
            + (if keys[i] !in prior then [DiscoveryEvent(Added, next[keys[i]])]
               else if prior[keys[i]] != next[keys[i]] then [DiscoveryEvent(Updated, next[keys[i]])]
               else [])
    ensures ChangedEvents(keys[..i + 1], prior, next) <= ChangedEvents(keys, prior, next)
    decreases |keys|
  {
    assert keys[..i + 1][..i] == keys[..i];
    if i + 1 < |keys| {
      var init := keys[..|keys| - 1];
      assert init[..i + 1] == keys[..i + 1] && init[..i] == keys[..i];
      ChangedPrefix(init, prior, next, i);
    } else {
      assert keys[..i + 1] == keys;
    }
  }
}
