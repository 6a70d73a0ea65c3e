/** Every run of a paged export: polls, page requests, replays, failures, cancellation and expiry in any order. */
module PagedExportRuns {
  import opened Concatenation
  import opened Wrappers
  import opened PagedExport

  /** A committed page, and whether the caller of that moment received it. */
  datatype Entry = Entry(page: Page, released: bool)

  datatype System = System(job: Job, log: seq<Entry>)

  datatype Event =
    | PollCall(bound: bool, env: Env)
    | PageCall(request: Handle, bound: bool, limited: bool, env: Env)
    | CancelCall(bound: bool, closes: bool)
    | Expire

  function Record(s: System, o: Outcome): System {
    System(o.job, if o.committed.Some? then s.log + [Entry(o.committed.value, o.reply.Answer?)] else s.log)
  }

  function Next(x: Export, s: System, ev: Event): System {
    match ev
    case PollCall(bound, env) => Record(s, Poll(x, s.job, bound, env))
    case PageCall(request, bound, limited, env) => Record(s, NextPage(x, s.job, request, bound, limited, env))
    case CancelCall(bound, closes) => s.(job := Cancel(s.job, bound, closes))
    case Expire => s.(job := s.job.(pit := ""))
  }

  function Run(x: Export, s: System, events: seq<Event>): System
    decreases |events|
  {
    if events == [] then s else Next(x, Run(x, s, events[..|events| - 1]), events[|events| - 1])
  }

  function Begin(pit: string): System {
    System(Start(pit), [])
  }

  /** All committed rows, in order. */
  function Rows(log: seq<Entry>): seq<Hit> {
    if log == [] then [] else Rows(log[..|log| - 1]) + log[|log| - 1].page.rows
  }

  /** The rows of the pages that reached a caller, in order. */
  function ReleasedRows(log: seq<Entry>): seq<Hit> {
    if log == [] then []
    else ReleasedRows(log[..|log| - 1]) + (if log[|log| - 1].released then log[|log| - 1].page.rows else [])
  }

  // ---------- What the log and the job keep

  function HandleFor(x: Export, page: nat): Handle {
    Handle(page, x.seal(page))
  }

  predicate Full(x: Export, p: Page) {
    |p.rows| == x.plan.pageRows && p.truncated.None? && p.next == Some(HandleFor(x, p.number + 1))
  }

  ghost predicate LogOk(x: Export, log: seq<Entry>) {
    && (forall k | 0 <= k < |log| :: log[k].page.number == k + 1)
    && (forall k | 0 <= k < |log| - 1 :: Full(x, log[k].page))
  }

  ghost predicate CountersOk(x: Export, s: System) {
    && s.job.rowsReturned <= |x.hits| && s.job.rowsReturned <= x.plan.maximumRows
    && Rows(s.log) == x.hits[..s.job.rowsReturned]
    && s.job.bytesReturned == Bytes(x.hits[..s.job.rowsReturned])
    && (s.job.rowsReturned > 0 ==> s.job.bytesReturned <= x.plan.maximumBytes)
    && s.job.pageNumber == |s.log| <= x.plan.maximumPages
  }

  predicate LastOpen(log: seq<Entry>) {
    log == [] || log[|log| - 1].page.next.Some?
  }

  /** The position of the search: just after the rows committed so far. */
  ghost predicate Resumes(x: Export, j: Job) {
    j.rowsReturned <= |x.hits|
    && j.searchAfter == (if j.rowsReturned == 0 then None else Some(x.hits[j.rowsReturned - 1].key))
  }

  ghost predicate PositionOk(x: Export, s: System) {
    && s.job.nextHandle == (if s.log == [] then None else s.log[|s.log| - 1].page.next)
    && (LastOpen(s.log) ==>
          && s.job.rowsReturned < x.plan.maximumRows && |s.log| < x.plan.maximumPages && Resumes(x, s.job)
          && (s.log != [] ==> Full(x, s.log[|s.log| - 1].page)))
    && (!LastOpen(s.log) ==>
          && s.job.closed
          && (s.log[|s.log| - 1].page.truncated.None? ==> s.job.rowsReturned == |x.hits|))
  }

  /** Replays answer with a page that was released under exactly that handle. */
  ghost predicate RepliesOk(x: Export, s: System) {
    && (forall id <- s.job.replays ::
          && 2 <= id <= |s.log| && s.job.replays[id] == (HandleFor(x, id), s.log[id - 1].page)
          && s.log[id - 1].released)
    && (s.job.firstPoll.Some? ==> exists k :: 0 <= k < |s.log| && s.log[k] == Entry(s.job.firstPoll.value, true))
  }

  ghost predicate Inv(x: Export, s: System) {
    LogOk(x, s.log) && CountersOk(x, s) && PositionOk(x, s) && RepliesOk(x, s)
  }

  ghost predicate Sound(x: Export) {
    ValidPlan(x.plan) && Ordered(x.hits)
  }

  // ---------- One committed page

  lemma FoundIsRest(x: Export, j: Job, size: nat)
    requires Ordered(x.hits) && Resumes(x, j)
    ensures Search(x.hits, j.searchAfter, size) == x.hits[j.rowsReturned..Min(|x.hits|, j.rowsReturned + size)]
  {
    if j.rowsReturned > 0 {
      SearchResumes(x.hits, j.rowsReturned);
    }
  }

  /** The rows of a committed page continue where the job stood. */
  ghost predicate PageRowsOk(x: Export, j: Job, j': Job, page: Page) {
    var r := j.rowsReturned;
    && page.number == j.pageNumber + 1 == j'.pageNumber
    && r + |page.rows| == j'.rowsReturned <= |x.hits|
    && page.rows == x.hits[r..r + |page.rows|]
    && j'.rowsReturned <= x.plan.maximumRows
    && j'.bytesReturned == j.bytesReturned + Bytes(page.rows)
    && (|page.rows| > 0 ==> j'.bytesReturned <= x.plan.maximumBytes)
  }

  /** A page with a handle is full and leaves room; a page without one closes the job. */
  ghost predicate PageNextOk(x: Export, j': Job, page: Page) {
    && j'.nextHandle == page.next
    && (page.next.Some? ==>
          && Full(x, page) && j'.rowsReturned < x.plan.maximumRows && j'.pageNumber < x.plan.maximumPages
          && Resumes(x, j'))
    && (page.next.None? ==> j'.closed && (page.truncated.None? ==> j'.rowsReturned == |x.hits|))
  }

  ghost predicate Searchable(x: Export, j: Job, env: Env, found: seq<Hit>, n: nat) {
    && Sound(x) && Resumes(x, j) && env.searched.Some?
    && j.rowsReturned < x.plan.maximumRows && j.pageNumber < x.plan.maximumPages
    && found == x.hits[j.rowsReturned..Min(|x.hits|, j.rowsReturned + Capacity(x, j) + 1)]
    && Fits(found[..Min(|found|, Capacity(x, j))], j.bytesReturned, x.plan.maximumBytes, n)
  }

  lemma CommitRows(x: Export, j: Job, env: Env, found: seq<Hit>, n: nat)
    requires Searchable(x, j, env, found, n) && Commit(x, j, env, found, n).1.Committed?
    ensures PageRowsOk(x, j, Commit(x, j, env, found, n).0, Commit(x, j, env, found, n).1.page)
  {
    TakeTake(found, Min(|found|, Capacity(x, j)), n);
    SliceTake(x.hits, j.rowsReturned, Min(|x.hits|, j.rowsReturned + Capacity(x, j) + 1), n);
  }

  lemma CommitNext(x: Export, j: Job, env: Env, found: seq<Hit>, n: nat)
    requires Searchable(x, j, env, found, n) && Commit(x, j, env, found, n).1.Committed?
    ensures PageNextOk(x, Commit(x, j, env, found, n).0, Commit(x, j, env, found, n).1.page)
  {
    if n > 0 {
      SliceAt(x.hits, j.rowsReturned, Min(|x.hits|, j.rowsReturned + Capacity(x, j) + 1), n - 1);
    }
  }

  lemma SearchIsCommit(x: Export, j: Job, env: Env) returns (found: seq<Hit>, n: nat)
    requires Sound(x) && Resumes(x, j) && SearchPage(x, j, env).1.Committed?
    ensures Searchable(x, j, env, found, n) && SearchPage(x, j, env) == Commit(x, j, env, found, n)
  {
    OpenSearch(x, j, env);
    found := Search(x.hits, j.searchAfter, Capacity(x, j) + 1);
    n := FitCount(found[..Min(|found|, Capacity(x, j))], j.bytesReturned, x.plan.maximumBytes);
    FoundIsRest(x, j, Capacity(x, j) + 1);
  }

  lemma OpenSearch(x: Export, j: Job, env: Env)
    requires SearchPage(x, j, env).1.Committed?
    ensures env.searched.Some? && j.rowsReturned < x.plan.maximumRows && j.pageNumber < x.plan.maximumPages
    ensures var found := Search(x.hits, j.searchAfter, Capacity(x, j) + 1);
            var n := FitCount(found[..Min(|found|, Capacity(x, j))], j.bytesReturned, x.plan.maximumBytes);
            SearchPage(x, j, env) == Commit(x, j, env, found, n)
  {
  }

  lemma CommitPage(x: Export, j: Job, env: Env)
    requires Sound(x) && Resumes(x, j) && SearchPage(x, j, env).1.Committed?
    ensures PageRowsOk(x, j, SearchPage(x, j, env).0, SearchPage(x, j, env).1.page)
    ensures PageNextOk(x, SearchPage(x, j, env).0, SearchPage(x, j, env).1.page)
  {
    var found, n := SearchIsCommit(x, j, env);
    CommitRows(x, j, env, found, n);
    CommitNext(x, j, env, found, n);
  }

  lemma SearchKeepsReplies(x: Export, j: Job, env: Env)
    ensures SearchPage(x, j, env).0.replays == j.replays && SearchPage(x, j, env).0.firstPoll == j.firstPoll
  {
  }

  /** A refused attempt changes nothing but the point-in-time identifier. */
  lemma RefusedKeeps(x: Export, j: Job, env: Env)
    requires SearchPage(x, j, env).1.Refused?
    ensures SearchPage(x, j, env).0 == j.(pit := SearchPage(x, j, env).0.pit)
  {
  }

  lemma OpenJobResumes(x: Export, s: System, env: Env)
    requires Inv(x, s) && SearchPage(x, s.job, env).1.Committed?
    ensures LastOpen(s.log) && Resumes(x, s.job)
  {
  }

  lemma AppendRows(log: seq<Entry>, e: Entry)
    ensures Rows(log + [e]) == Rows(log) + e.page.rows
    ensures ReleasedRows(log + [e]) == ReleasedRows(log) + (if e.released then e.page.rows else [])
  {
    assert (log + [e])[..|log|] == log;
  }

  lemma AppendKeepsCounters(x: Export, s: System, job: Job, e: Entry)
    requires Sound(x) && CountersOk(x, s) && |s.log| < x.plan.maximumPages && PageRowsOk(x, s.job, job, e.page)
    ensures CountersOk(x, System(job, s.log + [e]))
  {
    AppendRows(s.log, e);
    var r := s.job.rowsReturned;
    assert x.hits[..r] + e.page.rows == x.hits[..job.rowsReturned];
    BytesAppend(x.hits[..r], e.page.rows);
    BytesMonotone(x.hits, r, job.rowsReturned);
  }

  lemma AppendKeepsPosition(x: Export, s: System, job: Job, e: Entry)
    requires LogOk(x, s.log) && PositionOk(x, s) && LastOpen(s.log) && s.job.pageNumber == |s.log|
    requires PageRowsOk(x, s.job, job, e.page) && PageNextOk(x, job, e.page)
    ensures LogOk(x, s.log + [e]) && PositionOk(x, System(job, s.log + [e]))
  {
  }

  /** A commit keeps everything but the replies, which its caller updates. */
  lemma AppendKeeps(x: Export, s: System, env: Env, job: Job, e: Entry)
    requires Sound(x) && Inv(x, s) && SearchPage(x, s.job, env).1 == Committed(e.page)
    requires job.(replays := s.job.replays, firstPoll := s.job.firstPoll) == SearchPage(x, s.job, env).0
    ensures LogOk(x, s.log + [e]) && CountersOk(x, System(job, s.log + [e])) && PositionOk(x, System(job, s.log + [e]))
  {
    OpenJobResumes(x, s, env);
    CommitPage(x, s.job, env);
    AppendKeepsCounters(x, s, job, e);
    AppendKeepsPosition(x, s, job, e);
  }

  lemma PollKeeps(x: Export, s: System, bound: bool, env: Env)
    requires Sound(x) && Inv(x, s)
    ensures Inv(x, Next(x, s, PollCall(bound, env)))
  {
    if bound && s.job.firstPoll.None? {
      if SearchPage(x, s.job, env).1.Committed? {
        PollCommitKeeps(x, s, env);
      } else {
        PollRefused(x, s, env);
      }
    } else {
      PollAnswers(x, s, bound, env);
    }
  }

  lemma PitKeeps(x: Export, s: System, pit: string)
    requires Inv(x, s)
    ensures Inv(x, s.(job := s.job.(pit := pit)))
  {
  }

  lemma PollRefused(x: Export, s: System, env: Env)
    requires Inv(x, s) && s.job.firstPoll.None? && SearchPage(x, s.job, env).1.Refused?
    ensures Inv(x, Next(x, s, PollCall(true, env)))
  {
    RefusedKeeps(x, s.job, env);
    PitKeeps(x, s, SearchPage(x, s.job, env).0.pit);
  }

  lemma PollAnswers(x: Export, s: System, bound: bool, env: Env)
    requires !bound || s.job.firstPoll.Some?
    ensures Next(x, s, PollCall(bound, env)) == s
  {
  }

  lemma PollCommitKeeps(x: Export, s: System, env: Env)
    requires Sound(x) && Inv(x, s) && s.job.firstPoll.None? && SearchPage(x, s.job, env).1.Committed?
    ensures Inv(x, Next(x, s, PollCall(true, env)))
  {
    var r := SearchPage(x, s.job, env);
    var job := if env.decodes then r.0.(firstPoll := Some(r.1.page)) else r.0;
    var e := Entry(r.1.page, env.decodes);
    SearchKeepsReplies(x, s.job, env);
    PollSearches(x, s, env);
    AppendKeeps(x, s, env, job, e);
    PollRepliesKept(x, s, job, e);
  }

  lemma PollSearches(x: Export, s: System, env: Env)
    requires s.job.firstPoll.None? && SearchPage(x, s.job, env).1.Committed?
    ensures var r := SearchPage(x, s.job, env);
            var job := if env.decodes then r.0.(firstPoll := Some(r.1.page)) else r.0;
            Next(x, s, PollCall(true, env)) == System(job, s.log + [Entry(r.1.page, env.decodes)])
  {
  }

  lemma PollRepliesKept(x: Export, s: System, job: Job, e: Entry)
    requires RepliesOk(x, s) && s.job.firstPoll.None? && job.replays == s.job.replays
    requires job.firstPoll == if e.released then Some(e.page) else None
    ensures RepliesOk(x, System(job, s.log + [e]))
  {
    if e.released {
      assert (s.log + [e])[|s.log|] == Entry(job.firstPoll.value, true);
    }
  }

  lemma PageRepliesKept(x: Export, s: System, job: Job, e: Entry, request: Handle)
    requires RepliesOk(x, s) && request == HandleFor(x, |s.log| + 1) && |s.log| > 0
    requires job.firstPoll == s.job.firstPoll
    requires job.replays == if e.released then s.job.replays[request.id := (request, e.page)] else s.job.replays
    ensures RepliesOk(x, System(job, s.log + [e]))
  {
    if s.job.firstPoll.Some? {
      var k :| 0 <= k < |s.log| && s.log[k] == Entry(s.job.firstPoll.value, true);
      assert (s.log + [e])[k] == s.log[k];
    }
  }

  /** The shape of a page call that reaches the search. */
  lemma PageCallSearches(x: Export, s: System, request: Handle, env: Env)
    requires request.id !in s.job.replays && s.job.nextHandle == Some(request) && SearchPage(x, s.job, env).1.Committed?
    ensures var r := SearchPage(x, s.job, env);
            var job := if env.decodes then r.0.(replays := r.0.replays[request.id := (request, r.1.page)]) else r.0;
            Next(x, s, PageCall(request, true, true, env)) == System(job, s.log + [Entry(r.1.page, env.decodes)])
  {
  }

  lemma PageCommitKeeps(x: Export, s: System, request: Handle, env: Env)
    requires Sound(x) && Inv(x, s) && request.id !in s.job.replays && s.job.nextHandle == Some(request)
    requires SearchPage(x, s.job, env).1.Committed?
    ensures Inv(x, Next(x, s, PageCall(request, true, true, env)))
  {
    var r := SearchPage(x, s.job, env);
    var job := if env.decodes then r.0.(replays := r.0.replays[request.id := (request, r.1.page)]) else r.0;
    var e := Entry(r.1.page, env.decodes);
    SearchKeepsReplies(x, s.job, env);
    PageCallSearches(x, s, request, env);
    AppendKeeps(x, s, env, job, e);
    PageRepliesKept(x, s, job, e, request);
  }

  lemma PageKeeps(x: Export, s: System, request: Handle, bound: bool, limited: bool, env: Env)
    requires Sound(x) && Inv(x, s)
    ensures Inv(x, Next(x, s, PageCall(request, bound, limited, env)))
  {
    if request.id !in s.job.replays && s.job.nextHandle == Some(request) && bound && limited {
      if SearchPage(x, s.job, env).1.Committed? {
        PageCommitKeeps(x, s, request, env);
      } else {
        PageRefused(x, s, request, env);
      }
    } else {
      PageAnswers(x, s, request, bound, limited, env);
    }
  }

  lemma PageRefused(x: Export, s: System, request: Handle, env: Env)
    requires Inv(x, s) && request.id !in s.job.replays && s.job.nextHandle == Some(request)
    requires SearchPage(x, s.job, env).1.Refused?
    ensures Inv(x, Next(x, s, PageCall(request, true, true, env)))
  {
    RefusedKeeps(x, s.job, env);
    PitKeeps(x, s, SearchPage(x, s.job, env).0.pit);
  }

  lemma PageAnswers(x: Export, s: System, request: Handle, bound: bool, limited: bool, env: Env)
    requires !(request.id !in s.job.replays && s.job.nextHandle == Some(request) && bound && limited)
    ensures Next(x, s, PageCall(request, bound, limited, env)) == s
  {
  }

  lemma {:induction false} InvOnRuns(x: Export, pit: string, events: seq<Event>)
    requires Sound(x)
    ensures Inv(x, Run(x, Begin(pit), events))
    decreases |events|
  {
    if events != [] {
      InvOnRuns(x, pit, events[..|events| - 1]);
      var s := Run(x, Begin(pit), events[..|events| - 1]);
      NextKeeps(x, s, events[|events| - 1]);
    }
  }

  lemma NextKeeps(x: Export, s: System, event: Event)
    requires Sound(x) && Inv(x, s)
    ensures Inv(x, Next(x, s, event))
  {
    match event
    case PollCall(bound, env) => PollKeeps(x, s, bound, env);
    case PageCall(request, bound, limited, env) => PageKeeps(x, s, request, bound, limited, env);
    case CancelCall(bound, closes) =>
    case Expire =>
  }

  // ---------- The main results

  predicate AllReleased(log: seq<Entry>) {
    forall k | 0 <= k < |log| :: log[k].released
  }

  lemma {:induction false} AllReleasedRows(log: seq<Entry>)
    requires AllReleased(log)
    ensures ReleasedRows(log) == Rows(log)
  {
    if log != [] {
      AllReleasedRows(log[..|log| - 1]);
    }
  }

  /** The last page carries no handle and no truncation mark. */
  predicate Finished(log: seq<Entry>) {
    log != [] && log[|log| - 1].page.next.None? && log[|log| - 1].page.truncated.None?
  }

  /**
    In every run the committed pages concatenate to a prefix of the result, and to all of it once the
    last page has no next handle and is not truncated. When every committed page reached its caller,
    the same holds of what callers received.
   */
  lemma ExportIsPrefix(x: Export, pit: string, events: seq<Event>)
    requires Sound(x)
    ensures var log := Run(x, Begin(pit), events).log;
            && Rows(log) <= x.hits
            && (Finished(log) ==> Rows(log) == x.hits)
            && (AllReleased(log) ==> ReleasedRows(log) <= x.hits && (Finished(log) ==> ReleasedRows(log) == x.hits))
  {
    InvOnRuns(x, pit, events);
    var s := Run(x, Begin(pit), events);
    if AllReleased(s.log) {
      AllReleasedRows(s.log);
    }
    if Finished(s.log) {
      assert x.hits[..s.job.rowsReturned] == x.hits;
    }
  }

  /** A page with rows was committed but lost, and a later page with rows was delivered. */
  predicate GapAt(log: seq<Entry>, a: nat, b: nat) {
    a < b < |log| && !log[a].released && log[a].page.rows != [] && log[b].released && log[b].page.rows != []
  }

  lemma {:induction false} ReleasedShorter(log: seq<Entry>)
    ensures |ReleasedRows(log)| <= |Rows(log)|
    ensures (exists a :: 0 <= a < |log| && !log[a].released && log[a].page.rows != []) ==>
            |ReleasedRows(log)| < |Rows(log)|
    ensures (forall a | 0 <= a < |log| && !log[a].released :: log[a].page.rows == []) ==> ReleasedRows(log) == Rows(log)
  {
    if log != [] {
      var front := log[..|log| - 1];
      ReleasedShorter(front);
      if exists a :: 0 <= a < |log| && !log[a].released && log[a].page.rows != [] {
        var a :| 0 <= a < |log| && !log[a].released && log[a].page.rows != [];
        if a < |front| {
          assert front[a] == log[a];
        }
      }
    }
  }

  /** No committed page with rows was withheld from its caller. */
  predicate NothingLost(log: seq<Entry>) {
    forall k | 0 <= k < |log| :: log[k].page.rows == [] || log[k].released
  }

  /** Once the export is finished, callers hold the whole result exactly when no page with rows was withheld. */
  lemma CallersHoldEverything(x: Export, pit: string, events: seq<Event>)
    requires Sound(x)
    ensures var log := Run(x, Begin(pit), events).log;
            && (Finished(log) ==> (ReleasedRows(log) == x.hits <==> NothingLost(log)))
            && (ReleasedRows(log) == x.hits <==> Rows(log) == x.hits && NothingLost(log))
  {
    ExportIsPrefix(x, pit, events);
    var log := Run(x, Begin(pit), events).log;
    ReleasedShorter(log);
    if !NothingLost(log) {
      var k :| 0 <= k < |log| && !(log[k].page.rows == [] || log[k].released);
      assert !log[k].released && log[k].page.rows != [];
      assert |ReleasedRows(log)| < |x.hits|;
    }
  }

  lemma {:induction false} PrefixOfLog(log: seq<Entry>, n: nat)
    requires n <= |log|
    ensures Rows(log[..n]) <= Rows(log) && ReleasedRows(log[..n]) <= ReleasedRows(log)
    decreases |log| - n
  {
    if n < |log| {
      PrefixOfLog(log, n + 1);
      assert log[..n + 1][..n] == log[..n];
    } else {
      assert log[..n] == log;
    }
  }

  lemma {:induction false} NoGapPrefix(log: seq<Entry>)
    requires forall a, b :: !GapAt(log, a, b)
    ensures ReleasedRows(log) <= Rows(log)
  {
    if log != [] {
      var front, last := log[..|log| - 1], log[|log| - 1];
      forall a, b
        ensures !GapAt(front, a, b)
      {
        assert GapAt(front, a, b) ==> GapAt(log, a, b);
      }
      NoGapPrefix(front);
      if last.released && last.page.rows != [] {
        forall a | 0 <= a < |front| && !front[a].released
          ensures front[a].page.rows == []
        {
          assert !GapAt(log, a, |log| - 1);
        }
        ReleasedShorter(front);
      }
    }
  }

  lemma GapBreaksPrefix(x: Export, log: seq<Entry>, a: nat, b: nat)
    requires Ordered(x.hits) && Rows(log) <= x.hits && GapAt(log, a, b)
    ensures !(ReleasedRows(log) <= x.hits)
  {
    var front := log[..b];
    assert front[a] == log[a];
    ReleasedShorter(front);
    RowsOfPage(log, b);
    assert x.hits[|ReleasedRows(front)|].key < x.hits[|Rows(front)|].key;
  }

  /** Where the first row of a delivered page stands in both lists. */
  lemma RowsOfPage(log: seq<Entry>, b: nat)
    requires b < |log| && log[b].released && log[b].page.rows != []
    ensures var i, m := |ReleasedRows(log[..b])|, |Rows(log[..b])|;
            && i < |ReleasedRows(log)| && ReleasedRows(log)[i] == log[b].page.rows[0]
            && m < |Rows(log)| && Rows(log)[m] == log[b].page.rows[0]
  {
    var front := log[..b];
    assert log[..b + 1] == front + [log[b]];
    AppendRows(front, log[b]);
    PrefixOfLog(log, b + 1);
    assert ReleasedRows(log[..b + 1])[|ReleasedRows(front)|] == log[b].page.rows[0];
    assert Rows(log[..b + 1])[|Rows(front)|] == log[b].page.rows[0];
  }

  /**
    What callers received is a prefix of the result exactly when no page with rows was lost before a
    delivered page with rows. A page is lost when the decoder refuses it after the job was updated.
   */
  lemma ReleasedIsPrefixIffNoGap(x: Export, pit: string, events: seq<Event>)
    requires Sound(x)
    ensures var log := Run(x, Begin(pit), events).log;
            ReleasedRows(log) <= x.hits <==> forall a, b :: !GapAt(log, a, b)
  {
    ExportIsPrefix(x, pit, events);
    var log := Run(x, Begin(pit), events).log;
    if a, b :| GapAt(log, a, b) {
      GapBreaksPrefix(x, log, a, b);
    } else {
      NoGapPrefix(log);
    }
  }

  /** The smallest export with a gap: two rows, two pages. */
  function TwoPages(): Export {
    Export(Plan(2, 2, 1, 10), [Hit("a", 1), Hit("b", 2)], (n: nat) => "")
  }

  function PollWith(decodes: bool): Event {
    PollCall(true, Env(false, Some("pit"), true, decodes))
  }

  /** The job after its first page, however the decoder answers. */
  lemma FirstPage(decodes: bool)
    ensures var s := Next(TwoPages(), Begin("pit"), PollWith(decodes));
            && |s.log| == 1 && s.log[0].page.rows == [Hit("a", 1)] && s.log[0].released == decodes
            && !s.job.closed && s.job.pit == "pit" && s.job.rowsReturned == 1 && s.job.pageNumber == 1
            && s.job.bytesReturned == 1 && (decodes <==> s.job.firstPoll.Some?)
  {
    FirstSearch(decodes);
  }

  /** The search behind the first page, and the job and page it commits. */
  lemma FirstSearch(decodes: bool)
    ensures var x := TwoPages();
            var r := SearchPage(x, Start("pit"), Env(false, Some("pit"), true, decodes));
            && r.1.Committed? && r.1.page.rows == [Hit("a", 1)]
            && !r.0.closed && r.0.pit == "pit" && r.0.rowsReturned == 1 && r.0.pageNumber == 1
            && r.0.bytesReturned == 1 && r.0.firstPoll.None?
  {
    FirstFound(decodes);
    FirstCommit(decodes);
  }

  lemma FirstFound(decodes: bool)
    ensures var env := Env(false, Some("pit"), true, decodes);
            SearchPage(TwoPages(), Start("pit"), env) == Commit(TwoPages(), Start("pit"), env, TwoPages().hits, 1)
  {
    var x := TwoPages();
    FoundIsRest(x, Start("pit"), 2);
    assert Search(x.hits, None, 2) == x.hits[0..2] == x.hits;
    assert x.hits[..1] == [Hit("a", 1)];
    OneRowFits(Hit("a", 1), 0);
  }

  lemma FirstCommit(decodes: bool)
    ensures var r := Commit(TwoPages(), Start("pit"), Env(false, Some("pit"), true, decodes), TwoPages().hits, 1);
            && r.1.Committed? && r.1.page.rows == [Hit("a", 1)]
            && !r.0.closed && r.0.pit == "pit" && r.0.rowsReturned == 1 && r.0.pageNumber == 1
            && r.0.bytesReturned == 1 && r.0.firstPoll.None?
  {
    assert TwoPages().hits[..1] == [Hit("a", 1)];
    OneRowFits(Hit("a", 1), 0);
  }

  lemma OneRowFits(h: Hit, used: nat)
    requires |h.row| == 1 && used < 10
    ensures Bytes([h]) == 1 && FitCount([h], used, 10) == 1
  {
    assert [h][..1] == [h] && Bytes([h]) == 1;
  }

  /** Two polls, the first with a context that ends during decoding: the caller's first rows are the second page's. */
  lemma ALostPageLeavesAGap()
    ensures Sound(TwoPages())
    ensures !(ReleasedRows(Run(TwoPages(), Begin("pit"), [PollWith(false), PollWith(true)]).log) <= TwoPages().hits)
  {
    var x, events := TwoPages(), [PollWith(false), PollWith(true)];
    ExportIsPrefix(x, "pit", events);
    LostPageGap();
    RunTwo(x, Begin("pit"), PollWith(false), PollWith(true));
    GapBreaksPrefix(x, Run(x, Begin("pit"), events).log, 0, 1);
  }

  lemma LostPageGap()
    ensures GapAt(Next(TwoPages(), Next(TwoPages(), Begin("pit"), PollWith(false)), PollWith(true)).log, 0, 1)
  {
    FirstPage(false);
    FirstPageResumes();
    SecondPageFollows(Next(TwoPages(), Begin("pit"), PollWith(false)));
  }

  lemma FirstPageResumes()
    ensures Resumes(TwoPages(), Next(TwoPages(), Begin("pit"), PollWith(false)).job)
  {
    FirstPage(false);
    RunOne(TwoPages(), Begin("pit"), PollWith(false));
    InvOnRuns(TwoPages(), "pit", [PollWith(false)]);
    var s := Next(TwoPages(), Begin("pit"), PollWith(false));
    assert PositionOk(TwoPages(), s);
  }

  lemma RunOne(x: Export, s: System, a: Event)
    ensures Run(x, s, [a]) == Next(x, s, a)
  {
    assert [a][..0] == [];
  }

  lemma RunTwo(x: Export, s: System, a: Event, b: Event)
    ensures Run(x, s, [a, b]) == Next(x, Next(x, s, a), b)
  {
    assert [a, b][..1] == [a];
    RunOne(x, s, a);
  }

  lemma SecondPageFollows(s: System)
    requires Resumes(TwoPages(), s.job) && |s.log| == 1 && s.job.firstPoll.None?
    requires !s.job.closed && s.job.pit == "pit" && s.job.rowsReturned == 1 && s.job.pageNumber == 1
             && s.job.bytesReturned == 1
    ensures var s' := Next(TwoPages(), s, PollWith(true));
            |s'.log| == 2 && s'.log[0] == s.log[0] && s'.log[1].released && s'.log[1].page.rows == [Hit("b", 2)]
  {
    var x := TwoPages();
    FoundIsRest(x, s.job, 2);
    assert Search(x.hits, s.job.searchAfter, 2) == [Hit("b", 2)];
    OneRowFits(Hit("b", 2), 1);
  }

  /** In every run the limits hold, every page but the last is full, and the job is closed once the last page is out. */
  lemma ExportStaysInLimits(x: Export, pit: string, events: seq<Event>)
    requires Sound(x)
    ensures var s := Run(x, Begin(pit), events);
            && |Rows(s.log)| <= x.plan.maximumRows
            && Bytes(Rows(s.log)) <= x.plan.maximumBytes
            && |s.log| <= x.plan.maximumPages
            && (forall k | 0 <= k < |s.log| && s.log[k].page.next.Some? :: |s.log[k].page.rows| == x.plan.pageRows)
            && (forall k | 0 <= k < |s.log| - 1 :: s.log[k].page.next.Some?)
            && (|s.log| == x.plan.maximumPages ==> s.job.closed)
            && (s.log != [] && s.log[|s.log| - 1].page.next.None? ==> s.job.closed)
  {
    InvOnRuns(x, pit, events);
    var s := Run(x, Begin(pit), events);
    forall k | 0 <= k < |s.log| && s.log[k].page.next.Some?
      ensures |s.log[k].page.rows| == x.plan.pageRows
    {
      assert k < |s.log| - 1 ==> Full(x, s.log[k].page);
    }
  }

  /** While the point in time is open the export-limit refusal cannot happen. */
  lemma ExportLimitUnreachable(x: Export, pit: string, events: seq<Event>, env: Env)
    requires Sound(x) && !Run(x, Begin(pit), events).job.closed
    ensures SearchPage(x, Run(x, Begin(pit), events).job, env).1 != Refused("elastic_querydsl_export_limit_reached")
  {
    InvOnRuns(x, pit, events);
    var j := Run(x, Begin(pit), events).job;
    assert j.rowsReturned < x.plan.maximumRows && j.pageNumber < x.plan.maximumPages;
    ReasonsDiffer();
  }

  lemma ReasonsDiffer()
    ensures "elastic_querydsl_export_limit_reached" != "elastic_querydsl_job_terminal"
    ensures "elastic_querydsl_export_limit_reached" != "elastic_querydsl_query_stale"
    ensures "elastic_querydsl_export_limit_reached" != "elastic_pit_search_receipt_invalid"
    ensures "elastic_querydsl_export_limit_reached" != "elastic_pit_close_receipt_invalid"
  {
    assert "elastic_querydsl_export_limit_reached"[17] == 'e';
    assert "elastic_querydsl_job_terminal"[17] == 'j';
    assert "elastic_querydsl_query_stale"[17] == 'q';
    assert "elastic_pit_search_receipt_invalid"[8] == 'p';
    assert "elastic_querydsl_export_limit_reached"[8] == 'q';
    assert "elastic_pit_close_receipt_invalid"[8] == 'p';
  }

  /** A replayed handle answers with the page first released under that handle, whatever happened since. */
  lemma ReplayAnswersFirstPage(x: Export, pit: string, events: seq<Event>, request: Handle, bound: bool, limited: bool,
                               env: Env)
    requires Sound(x) && request.id in Run(x, Begin(pit), events).job.replays
    ensures var s := Run(x, Begin(pit), events);
            var o := NextPage(x, s.job, request, bound, limited, env);
            && o.job == s.job
            && 2 <= request.id <= |s.log|
            && (o.reply.Answer? <==> request == HandleFor(x, request.id))
            && (o.reply.Answer? ==> o.reply.page == s.log[request.id - 1].page && s.log[request.id - 1].released)
  {
    InvOnRuns(x, pit, events);
    ReplayAnswers(x, Run(x, Begin(pit), events), request, bound, limited, env);
  }

  lemma ReplayAnswers(x: Export, s: System, request: Handle, bound: bool, limited: bool, env: Env)
    requires RepliesOk(x, s) && request.id in s.job.replays
    ensures var o := NextPage(x, s.job, request, bound, limited, env);
            && o.job == s.job && 2 <= request.id <= |s.log|
            && (o.reply.Answer? <==> request == HandleFor(x, request.id))
            && (o.reply.Answer? ==> o.reply.page == s.log[request.id - 1].page && s.log[request.id - 1].released)
  {
  }
}
