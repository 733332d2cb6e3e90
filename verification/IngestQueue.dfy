/**
 The contributor metadata ingest queue:
 services/api/src/connect/record-package-contributor-metadata-service.ts.
 A job's completion arrives later, as an event of its own.
 */
module IngestQueue {
  import opened Common

  datatype Job = Job(key: string, payload: int)

  /** The module's variables, with the history of accepted, started and completed jobs. */
  datatype State = State(
    queue: seq<Job>,
    inFlight: set<string>,
    active: int,
    waiters: seq<int>,
    resolved: seq<int>,
    accepted: seq<Job>,
    started: seq<Job>,
    completed: nat)

  function Initial(): State { State([], {}, 0, [], [], [], [], 0) }

  predicate IsIdle(s: State) { s.active == 0 && s.queue == [] }

  function ResolveIdle(s: State): State {
    if IsIdle(s) then s.(waiters := [], resolved := s.resolved + s.waiters) else s
  }

  /** Starts the oldest queued job. */
  function StartNext(s: State): State
    requires s.queue != []
  {
    var job := s.queue[0];
    s.(queue := s.queue[1..], inFlight := s.inFlight + {job.key}, active := s.active + 1, started := s.started + [job])
  }

  function Fill(s: State, limit: nat): State
    decreases |s.queue|
  {
    if s.active < limit && s.queue != [] then Fill(StartNext(s), limit) else s
  }

  function Drain(s: State, limit: nat): State { ResolveIdle(Fill(s, limit)) }

  predicate Queued(s: State, key: string) { exists i :: 0 <= i < |s.queue| && s.queue[i].key == key }

  function Enqueue(s: State, job: Job, limit: nat): State {
    if job.key in s.inFlight || Queued(s, job.key) then s
    else Drain(s.(queue := s.queue + [job], accepted := s.accepted + [job]), limit)
  }

  function Complete(s: State, key: string, limit: nat): State {
    if key in s.inFlight
    then ResolveIdle(Drain(s.(active := s.active - 1, inFlight := s.inFlight - {key}, completed := s.completed + 1),
                           limit))
    else s
  }

  function Wait(s: State, waiter: int): State {
    if IsIdle(s) then s.(resolved := s.resolved + [waiter]) else s.(waiters := s.waiters + [waiter])
  }

  // ----- the invariant -----

  ghost predicate Bounded(s: State, limit: nat) {
    && s.active == |s.inFlight| <= limit
    && (forall i, j :: 0 <= i < j < |s.queue| ==> s.queue[i].key != s.queue[j].key)
    && (forall i :: 0 <= i < |s.queue| ==> s.queue[i].key !in s.inFlight)
    && s.accepted == s.started + s.queue
    && |s.started| == s.completed + s.active
  }

  ghost predicate Invariant(s: State, limit: nat) {
    && Bounded(s, limit)
    && (s.active < limit ==> s.queue == [])
    && (s.waiters != [] ==> !IsIdle(s))
  }

  lemma StartKeepsBounded(s: State, limit: nat)
    requires Bounded(s, limit) && s.active < limit && s.queue != []
    ensures Bounded(StartNext(s), limit)
  {
    assert s.started + s.queue == (s.started + [s.queue[0]]) + s.queue[1..];
  }

  lemma {:induction false} FillWorks(s: State, limit: nat)
    requires Bounded(s, limit)
    ensures var f := Fill(s, limit);
            && Bounded(f, limit) && (f.active < limit ==> f.queue == [])
            && f.accepted == s.accepted && f.completed == s.completed
            && f.waiters == s.waiters && f.resolved == s.resolved
            && |f.queue| + |f.inFlight| == |s.queue| + |s.inFlight|
            && s.started <= f.started && s.inFlight <= f.inFlight
    decreases |s.queue|
  {
    if s.active < limit && s.queue != [] {
      StartKeepsBounded(s, limit);
      FillWorks(StartNext(s), limit);
    }
  }

  /** An accepted job joins the end of the line; a job whose key is queued or in flight changes nothing. */
  lemma EnqueueKeepsInvariant(s: State, job: Job, limit: nat)
    requires Invariant(s, limit)
    ensures var s' := Enqueue(s, job, limit);
            && Invariant(s', limit)
            && (if job.key in s.inFlight || Queued(s, job.key) then s' == s
                else s'.accepted == s.accepted + [job] && Outstanding(s') == Outstanding(s) + 1)
  {
    if !(job.key in s.inFlight || Queued(s, job.key)) {
      var more := s.(queue := s.queue + [job], accepted := s.accepted + [job]);
      assert s.accepted + [job] == s.started + (s.queue + [job]);
      FillWorks(more, limit);
    }
  }

  function Outstanding(s: State): nat { |s.queue| + |s.inFlight| }

  /** A completion takes exactly one job off the books and starts as many as there is room for. */
  lemma CompleteKeepsInvariant(s: State, key: string, limit: nat)
    requires Invariant(s, limit) && key in s.inFlight
    ensures var s' := Complete(s, key, limit);
            && Invariant(s', limit)
            && Outstanding(s') == Outstanding(s) - 1
            && s'.accepted == s.accepted && s'.completed == s.completed + 1
  {
    var less := s.(active := s.active - 1, inFlight := s.inFlight - {key}, completed := s.completed + 1);
    FillWorks(less, limit);
  }

  datatype Event = Enqueued(job: Job) | Completed(key: string) | Waited(waiter: int)

  function Step(s: State, e: Event, limit: nat): State {
    match e
    case Enqueued(job) => Enqueue(s, job, limit)
    case Completed(key) => Complete(s, key, limit)
    case Waited(waiter) => Wait(s, waiter)
  }

  function Run(events: seq<Event>, limit: nat): State {
    if events == [] then Initial() else Step(Run(events[..|events| - 1], limit), events[|events| - 1], limit)
  }

  /**
   For any bound, after every event of every run: the counter is the size of the in-flight set and
   within the bound, queued and in-flight keys are disjoint, spare capacity means an empty queue,
   waiters exist only while there is work, and jobs start once each, in the order of acceptance.
   */
  lemma {:induction false} RunsKeepInvariant(events: seq<Event>, limit: nat)
    ensures Invariant(Run(events, limit), limit)
  {
    if events != [] {
      var front, e := events[..|events| - 1], events[|events| - 1];
      RunsKeepInvariant(front, limit);
      var s := Run(front, limit);
      match e {
        case Enqueued(job) => EnqueueKeepsInvariant(s, job, limit);
        case Completed(key) => if key in s.inFlight { CompleteKeepsInvariant(s, key, limit); }
        case Waited(waiter) =>
      }
    }
  }

  /** Jobs started so far are the first of the jobs accepted so far. */
  lemma StartsInOrder(events: seq<Event>, limit: nat)
    ensures var s := Run(events, limit);
            && s.started <= s.accepted
            && s.accepted[|s.started|..] == s.queue
            && (IsIdle(s) ==> s.started == s.accepted && s.completed == |s.accepted|)
  {
    RunsKeepInvariant(events, limit);
  }

  /** The waiters of a run, in the order in which they came. */
  function WaitersOf(events: seq<Event>): seq<int> {
    if events == [] then []
    else
      var e := events[|events| - 1];
      WaitersOf(events[..|events| - 1]) + if e.Waited? then [e.waiter] else []
  }

  /** The waiters that were ever in line: those served, then those still waiting. */
  function Line(s: State): seq<int> { s.resolved + s.waiters }

  lemma {:induction false} FillKeepsLine(s: State, limit: nat)
    ensures Fill(s, limit).waiters == s.waiters && Fill(s, limit).resolved == s.resolved
    decreases |s.queue|
  {
    if s.active < limit && s.queue != [] {
      FillKeepsLine(StartNext(s), limit);
    }
  }

  lemma DrainKeepsLine(s: State, limit: nat)
    ensures Line(Drain(s, limit)) == Line(s)
    ensures Line(ResolveIdle(Drain(s, limit))) == Line(s)
  {
    FillKeepsLine(s, limit);
    assert Drain(s, limit) == ResolveIdle(Fill(s, limit));
  }

  lemma EnqueueKeepsLine(s: State, job: Job, limit: nat)
    ensures Line(Enqueue(s, job, limit)) == Line(s)
  {
    DrainKeepsLine(s.(queue := s.queue + [job], accepted := s.accepted + [job]), limit);
  }

  lemma CompleteKeepsLine(s: State, key: string, limit: nat)
    ensures Line(Complete(s, key, limit)) == Line(s)
  {
    if key in s.inFlight {
      DrainKeepsLine(s.(active := s.active - 1, inFlight := s.inFlight - {key}, completed := s.completed + 1), limit);
    }
  }

  lemma WaitJoinsLine(s: State, waiter: int)
    requires s.waiters != [] ==> !IsIdle(s)
    ensures Line(Wait(s, waiter)) == Line(s) + [waiter]
  {
  }

  /** No waiter is lost or served twice, and they are served in order; once idle, all have been. */
  lemma {:induction false} WaitersServedInOrder(events: seq<Event>, limit: nat)
    ensures var s := Run(events, limit);
            Line(s) == WaitersOf(events) && (IsIdle(s) ==> s.resolved == WaitersOf(events))
  {
    RunsKeepInvariant(events, limit);
    if events != [] {
      var front := events[..|events| - 1];
      WaitersServedInOrder(front, limit);
      RunsKeepInvariant(front, limit);
      var s := Run(front, limit);
      match events[|events| - 1] {
        case Enqueued(job) => EnqueueKeepsLine(s, job, limit);
        case Completed(key) => CompleteKeepsLine(s, key, limit);
        case Waited(waiter) => WaitJoinsLine(s, waiter);
      }
    }
  }

  function CompleteMany(s: State, keys: seq<string>, limit: nat): State
    decreases |keys|
  {
    if keys == [] then s else CompleteMany(Complete(s, keys[0], limit), keys[1..], limit)
  }

  /** Each completion is of a job in flight at that time. */
  ghost predicate EachInFlight(s: State, keys: seq<string>, limit: nat)
    decreases |keys|
  {
    keys == [] || (keys[0] in s.inFlight && EachInFlight(Complete(s, keys[0], limit), keys[1..], limit))
  }

  /** With no new arrivals the queue is idle after exactly as many completions as there were jobs, and not before. */
  lemma {:induction false} IdleAfterExactly(s: State, keys: seq<string>, limit: nat)
    requires Invariant(s, limit) && EachInFlight(s, keys, limit)
    ensures Invariant(CompleteMany(s, keys, limit), limit)
    ensures |keys| <= Outstanding(s) && Outstanding(CompleteMany(s, keys, limit)) == Outstanding(s) - |keys|
    ensures IsIdle(CompleteMany(s, keys, limit)) <==> |keys| == Outstanding(s)
    decreases |keys|
  {
    if keys != [] {
      CompleteKeepsInvariant(s, keys[0], limit);
      IdleAfterExactly(Complete(s, keys[0], limit), keys[1..], limit);
    }
  }

  /** While there is work, and any concurrency at all, some job is in flight: the queue cannot stall. */
  lemma NeverStalls(s: State, limit: nat)
    requires Invariant(s, limit) && limit > 0 && !IsIdle(s)
    ensures s.inFlight != {}
  {
  }

  // ----- the module -----

  class ContributorIngest {
    const concurrency: nat
    var queue: seq<Job>
    var inFlight: set<string>
    var active: int
    var waiters: seq<int>
    var resolved: seq<int>
    ghost var accepted: seq<Job>
    ghost var started: seq<Job>
    ghost var completed: nat

    ghost function Now(): State
      reads this
    {
      State(queue, inFlight, active, waiters, resolved, accepted, started, completed)
    }

    constructor (concurrency: nat)
      ensures Now() == Initial() && this.concurrency == concurrency
    {
      this.concurrency := concurrency;
      queue, inFlight, active, waiters, resolved := [], {}, 0, [], [];
      accepted, started, completed := [], [], 0;
    }

    /** resolveContributorMetadataIdleWaiters */
    method ResolveIdleWaiters()
      modifies this
      ensures Now() == ResolveIdle(old(Now()))
    {
      if active == 0 && |queue| == 0 {
        resolved, waiters := resolved + waiters, [];
      }
    }

    /** drainContributorMetadataIngestQueue */
    method DrainQueue()
      modifies this
      ensures Now() == Drain(old(Now()), concurrency)
    {
      while active < concurrency
        invariant Fill(Now(), concurrency) == Fill(old(Now()), concurrency)
        decreases |queue|
      {
        if |queue| == 0 {
          break;
        }
        var job := queue[0];
        queue := queue[1..];
        inFlight := inFlight + {job.key};
        active := active + 1;
        started := started + [job];
      }
      ResolveIdleWaiters();
    }

    /** enqueueContributorMetadataIngest */
    method EnqueueJob(job: Job)
      modifies this
      ensures Now() == Enqueue(old(Now()), job, concurrency)
    {
      if job.key in inFlight || exists i :: 0 <= i < |queue| && queue[i].key == job.key {
        return;
      }
      queue := queue + [job];
      accepted := accepted + [job];
      DrainQueue();
    }

    /** The finally callback of a job in flight. */
    method JobFinished(key: string)
      requires key in inFlight
      modifies this
      ensures Now() == Complete(old(Now()), key, concurrency)
    {
      active := active - 1;
      inFlight := inFlight - {key};
      completed := completed + 1;
      DrainQueue();
      ResolveIdleWaiters();
    }

    /** waitForContributorMetadataIngestQueueForTests */
    method WaitForIdle(waiter: int)
      modifies this
      ensures Now() == Wait(old(Now()), waiter)
    {
      if active == 0 && |queue| == 0 {
        resolved := resolved + [waiter];
      } else {
        waiters := waiters + [waiter];
      }
    }
  }

  // ----- the key -----

  datatype Manifest = Manifest(ecosystem: string, package: string, revision: string)

  /** contributorMetadataIngestKey; the revision is the fingerprint, or what stands in for it. */
  function IngestKey(m: Manifest): string { m.ecosystem + "|" + m.package + "|" + m.revision }

  lemma SplitAtBar(a: string, x: string, b: string, y: string)
    requires '|' !in a && '|' !in b
    requires a + "|" + x == b + "|" + y
    ensures a == b && x == y
  {
    var s, t := a + "|" + x, b + "|" + y;
    assert s[|a|] == '|' && t[|b|] == '|';
    assert forall i :: 0 <= i < |a| ==> s[i] == a[i] && a[i] != '|';
    assert forall i :: 0 <= i < |b| ==> t[i] == b[i] && b[i] != '|';
    assert s[..|a|] == a && t[..|b|] == b;
    assert s[|a| + 1..] == x && t[|b| + 1..] == y;
  }

  /** Two manifests are taken for one job only if they are equal, names being free of the separator. */
  lemma KeyNamesManifest(m: Manifest, n: Manifest)
    requires '|' !in m.ecosystem && '|' !in m.package && '|' !in n.ecosystem && '|' !in n.package
    ensures IngestKey(m) == IngestKey(n) <==> m == n
  {
    if IngestKey(m) == IngestKey(n) {
      assert IngestKey(m) == m.ecosystem + "|" + (m.package + "|" + m.revision);
      assert IngestKey(n) == n.ecosystem + "|" + (n.package + "|" + n.revision);
      SplitAtBar(m.ecosystem, m.package + "|" + m.revision, n.ecosystem, n.package + "|" + n.revision);
      SplitAtBar(m.package, m.revision, n.package, n.revision);
    }
  }

  function IsBar(): char -> bool { (c: char) => c == '|' }

  function Bars(s: string): nat { Count(s, IsBar()) }

  lemma BarsOfKey(m: Manifest)
    ensures Bars(IngestKey(m)) == Bars(m.ecosystem) + Bars(m.package) + Bars(m.revision) + 2
  {
    var bar: string := "|";
    assert Filter(bar, IsBar()) == bar;
    CountAppend(m.ecosystem, bar, IsBar());
    CountAppend(m.ecosystem + bar, m.package, IsBar());
    CountAppend(m.ecosystem + bar + m.package, bar, IsBar());
    CountAppend(m.ecosystem + bar + m.package + bar, m.revision, IsBar());
  }

  lemma NoBars(s: string)
    ensures Bars(s) == 0 <==> '|' !in s
  {
    assert IsBar()('|') && ('|' in Filter(s, IsBar()) <==> '|' in s);
    if '|' !in s {
      FilterNone(s, IsBar());
    }
  }

  predicate FreeOfBars(m: Manifest) { '|' !in m.ecosystem && '|' !in m.package && '|' !in m.revision }

  lemma FreeIffTwoBars(m: Manifest)
    ensures FreeOfBars(m) <==> Bars(IngestKey(m)) == 2
  {
    BarsOfKey(m);
    NoBars(m.ecosystem);
    NoBars(m.package);
    NoBars(m.revision);
  }

  lemma SplitBar(s: string) returns (left: string, right: string)
    requires '|' in s
    ensures s == left + "|" + right
  {
    var i :| 0 <= i < |s| && s[i] == '|';
    left, right := s[..i], s[i + 1..];
  }

  /** A manifest with a separator in one of its parts shares its key with another: the parts can be cut elsewhere. */
  lemma SharedKey(m: Manifest) returns (n: Manifest)
    requires !FreeOfBars(m)
    ensures n != m && IngestKey(n) == IngestKey(m)
  {
    if '|' in m.ecosystem {
      var left, right := SplitBar(m.ecosystem);
      n := Manifest(left, right, m.package + "|" + m.revision);
      assert |n.ecosystem| < |m.ecosystem|;
      assert IngestKey(n) == left + "|" + right + "|" + m.package + "|" + m.revision;
    } else if '|' in m.package {
      var left, right := SplitBar(m.package);
      n := Manifest(m.ecosystem + "|" + left, right, m.revision);
      assert |n.ecosystem| > |m.ecosystem|;
      assert IngestKey(m) == m.ecosystem + "|" + left + "|" + right + "|" + m.revision;
    } else {
      var left, right := SplitBar(m.revision);
      n := Manifest(m.ecosystem, m.package + "|" + left, right);
      assert |n.package| > |m.package|;
      assert IngestKey(m) == m.ecosystem + "|" + m.package + "|" + left + "|" + right;
    }
  }

  ghost predicate KeyIsUnique(m: Manifest) { forall n :: IngestKey(n) == IngestKey(m) ==> n == m }

  /** A manifest has its key to itself, among all manifests, exactly if none of its parts holds the separator. */
  lemma KeyIsUniqueIff(m: Manifest)
    ensures KeyIsUnique(m) <==> FreeOfBars(m)
  {
    if FreeOfBars(m) {
      forall n | IngestKey(n) == IngestKey(m) ensures n == m {
        FreeIffTwoBars(m);
        FreeIffTwoBars(n);
        KeyNamesManifest(m, n);
      }
    } else {
      var n := SharedKey(m);
    }
  }
}
