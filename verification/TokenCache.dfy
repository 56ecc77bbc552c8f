/**
 * The installation-token cache behind a read-write lock, any number of callers interleaved, and
 * the loop that keeps the token file fresh (crates/takuto-core/src/github_app.rs).
 */
module TokenCache {
  import opened Prelude

  type Id = nat

  /** Times are seconds. A token is known here by its text and its expiry. */
  datatype Token = Token(text: string, expires: int)

  const MARGIN: int := 300
  const POLL: int := 300

  predicate Fresh(cached: Option<Token>, now: int)
  {
    cached.Some? && cached.value.expires > now + MARGIN
  }

  /** Where a call of `get_installation_token` stands. */
  datatype Phase =
    | WantRead
    | Reading
    | WantWrite
    | Writing
    | Fetching
    | Returned(token: Token, at: int, fetched: bool)
    | Failed
    | Dropped

  /** The history of fetches: when each began, and what the successful ones put in the cache. */
  datatype Entry = Began(at: int) | Stored(token: Token)

  datatype State = State(cached: Option<Token>, readers: set<Id>, writer: Option<Id>,
                         callers: map<Id, Phase>, now: int, log: seq<Entry>)

  datatype Event =
    | Call(id: Id)
    | Act(id: Id, fetch: Option<Token>)  // `fetch`: what a fetch ending here would bring
    | Drop(id: Id)                       // the caller's future is cancelled
    | Tick(passed: nat)

  const INITIAL: State := State(None, {}, None, map[], 0, [])

  function At(s: State, id: Id, p: Phase): State { s.(callers := s.callers[id := p]) }

  function StepCaller(s: State, id: Id, fetch: Option<Token>): State
    requires id in s.callers
  {
    match s.callers[id]
    case WantRead => if s.writer == None then At(s, id, Reading).(readers := s.readers + {id}) else s
    case Reading =>
      At(s, id, if Fresh(s.cached, s.now) then Returned(s.cached.value, s.now, false) else WantWrite)
        .(readers := s.readers - {id})
    case WantWrite => if s.writer == None && s.readers == {} then At(s, id, Writing).(writer := Some(id)) else s
    case Writing =>
      if Fresh(s.cached, s.now) then At(s, id, Returned(s.cached.value, s.now, false)).(writer := None)
      else At(s, id, Fetching).(log := s.log + [Began(s.now)])
    case Fetching =>
      if fetch == None then At(s, id, Failed).(writer := None)
      else At(s, id, Returned(fetch.value, s.now, true))
             .(writer := None, cached := fetch, log := s.log + [Stored(fetch.value)])
    case _ => s
  }

  predicate Over(p: Phase) { p.Returned? || p.Failed? || p.Dropped? }

  function Step(s: State, e: Event): State
  {
    match e
    case Call(id) => if id in s.callers then s else At(s, id, WantRead)
    case Act(id, fetch) => if id in s.callers then StepCaller(s, id, fetch) else s
    case Drop(id) =>
      if id !in s.callers || Over(s.callers[id]) then s
      else At(s, id, Dropped).(readers := s.readers - {id}, writer := if s.writer == Some(id) then None else s.writer)
    case Tick(passed) => s.(now := s.now + passed)
  }

  function Exec(events: seq<Event>): State
  {
    if events == [] then INITIAL else Step(Exec(events[..|events| - 1]), events[|events| - 1])
  }

  // ---- The invariant ---------------------------------------------------------------------

  predicate HoldsWrite(p: Phase) { p.Writing? || p.Fetching? }

  ghost predicate LocksOk(s: State)
  {
    && (forall id :: id in s.readers <==> id in s.callers && s.callers[id] == Reading)
    && (forall id :: id in s.callers && HoldsWrite(s.callers[id]) ==> s.writer == Some(id))
    && (s.writer.Some? ==> s.readers == {} && s.writer.value in s.callers && HoldsWrite(s.callers[s.writer.value]))
  }

  function LastStored(log: seq<Entry>): Option<Token>
  {
    if log == [] then None
    else if log[|log| - 1].Stored? then Some(log[|log| - 1].token)
    else LastStored(log[..|log| - 1])
  }

  /** Each fetch began when the token stored last had five minutes or less left. */
  ghost predicate FetchesDue(log: seq<Entry>)
  {
    forall k :: 0 <= k < |log| && log[k].Began? ==> !Fresh(LastStored(log[..k]), log[k].at)
  }

  /** A token handed out from the cache had more than five minutes left at the check. */
  ghost predicate AnswersFresh(s: State)
  {
    forall id :: id in s.callers && s.callers[id].Returned? && !s.callers[id].fetched ==>
      s.callers[id].token.expires > s.callers[id].at + MARGIN
  }

  ghost predicate LogOk(cached: Option<Token>, log: seq<Entry>) { cached == LastStored(log) && FetchesDue(log) }

  ghost predicate Inv(s: State)
  {
    LocksOk(s) && LogOk(s.cached, s.log) && AnswersFresh(s)
  }

  lemma {:induction false} LogMore(log: seq<Entry>, e: Entry)
    requires FetchesDue(log) && (e.Began? ==> !Fresh(LastStored(log), e.at))
    ensures FetchesDue(log + [e])
    ensures LastStored(log + [e]) == if e.Stored? then Some(e.token) else LastStored(log)
  {
    var more := log + [e];
    assert more[..|log|] == log;
    forall k | 0 <= k < |more| && more[k].Began? ensures !Fresh(LastStored(more[..k]), more[k].at) {
      assert more[..k] == log[..k];
    }
  }

  lemma {:induction false} CallerKeepsLocks(s: State, id: Id, fetch: Option<Token>)
    requires LocksOk(s) && id in s.callers
    ensures LocksOk(StepCaller(s, id, fetch))
  {
  }

  lemma {:induction false} StepKeepsLocks(s: State, e: Event)
    requires LocksOk(s)
    ensures LocksOk(Step(s, e))
  {
    if e.Act? && e.id in s.callers { CallerKeepsLocks(s, e.id, e.fetch); }
  }

  lemma {:induction false} StepKeepsAnswers(s: State, e: Event)
    requires AnswersFresh(s)
    ensures AnswersFresh(Step(s, e))
  {
  }

  lemma {:induction false} StepKeepsLog(s: State, e: Event)
    requires LogOk(s.cached, s.log)
    ensures LogOk(Step(s, e).cached, Step(s, e).log)
  {
    var next := Step(s, e);
    if e.Act? && e.id in s.callers && s.callers[e.id].Writing? && !Fresh(s.cached, s.now) {
      assert next.log == s.log + [Began(s.now)] && next.cached == s.cached;
      LogMore(s.log, Began(s.now));
    } else if e.Act? && e.id in s.callers && s.callers[e.id].Fetching? && e.fetch.Some? {
      assert next.log == s.log + [Stored(e.fetch.value)] && next.cached == e.fetch;
      LogMore(s.log, Stored(e.fetch.value));
    } else {
      assert next.log == s.log && next.cached == s.cached;
    }
  }

  lemma {:induction false} StepKeepsInv(s: State, e: Event)
    requires Inv(s)
    ensures Inv(Step(s, e))
  {
    StepKeepsLocks(s, e);
    StepKeepsAnswers(s, e);
    StepKeepsLog(s, e);
  }

  lemma {:induction false} RunsKeepInv(events: seq<Event>)
    ensures Inv(Exec(events))
  {
    if events != [] {
      RunsKeepInv(events[..|events| - 1]);
      StepKeepsInv(Exec(events[..|events| - 1]), events[|events| - 1]);
    }
  }

  // ---- What every interleaving keeps -----------------------------------------------------------

  /** At most one fetch is in flight. */
  lemma {:induction false} OneFetchInFlight(events: seq<Event>, i: Id, j: Id)
    requires i in Exec(events).callers && Exec(events).callers[i].Fetching?
    requires j in Exec(events).callers && Exec(events).callers[j].Fetching?
    ensures i == j
  {
    RunsKeepInv(events);
  }

  /** A token returned without a fetch had more than five minutes left when it was checked. */
  lemma {:induction false} CachedAnswersAreFresh(events: seq<Event>, id: Id)
    requires id in Exec(events).callers && Exec(events).callers[id].Returned? && !Exec(events).callers[id].fetched
    ensures Exec(events).callers[id].token.expires > Exec(events).callers[id].at + 300
  {
    RunsKeepInv(events);
  }

  /** The cache is what the last successful fetch stored; only a successful fetch changes it. */
  lemma {:induction false} OnlySuccessChangesCache(events: seq<Event>, e: Event)
    ensures Exec(events).cached == LastStored(Exec(events).log)
    ensures Step(Exec(events), e).cached != Exec(events).cached ==>
      e.Act? && e.fetch.Some? && e.id in Exec(events).callers && Exec(events).callers[e.id].Fetching?
  {
    RunsKeepInv(events);
  }

  /** No fetch begins while the token stored last has more than five minutes left: nobody fetches what another just fetched. */
  lemma {:induction false} FetchesAreSpaced(events: seq<Event>, i: nat, j: nat)
    requires i < j < |Exec(events).log| && Exec(events).log[i].Stored? && Exec(events).log[j].Began?
    requires forall k :: i < k < j ==> !Exec(events).log[k].Stored?
    ensures Exec(events).log[j].at >= Exec(events).log[i].token.expires - 300
  {
    RunsKeepInv(events);
    LastStoredAt(Exec(events).log, i, j);
  }

  lemma {:induction false} LastStoredAt(log: seq<Entry>, i: nat, j: nat)
    requires i < j <= |log| && log[i].Stored? && forall k :: i < k < j ==> !log[k].Stored?
    ensures LastStored(log[..j]) == Some(log[i].token)
  {
    var pre := log[..j];
    if i < j - 1 {
      LastStoredAt(log, i, j - 1);
      assert pre[..|pre| - 1] == log[..j - 1];
    }
  }

  /** The event ends a fetch that brought a token. */
  predicate Success(s: State, e: Event)
  {
    e.Act? && e.fetch.Some? && e.id in s.callers && s.callers[e.id].Fetching?
  }

  predicate Succeeds(events: seq<Event>, k: nat)
    requires k < |events|
  {
    Success(Exec(events[..k]), events[k])
  }

  predicate IsAnswered(s: State, id: Id) { id in s.callers && s.callers[id].Returned? }

  /** The only new answers are the token just fetched, to the caller that fetched it, or else the cached one. */
  lemma {:induction false} NewAnswer(s: State, e: Event, id: Id)
    requires IsAnswered(Step(s, e), id) && !IsAnswered(s, id)
    ensures e.Act? && e.id == id
    ensures Success(s, e) ==> Step(s, e).callers[id] == Returned(e.fetch.value, s.now, true)
    ensures !Success(s, e) ==> s.cached == Some(Step(s, e).callers[id].token) && !Step(s, e).callers[id].fetched
  {
  }

  lemma {:induction false} NewCache(s: State, e: Event)
    ensures Step(s, e).cached == if Success(s, e) then e.fetch else s.cached
    ensures Success(s, e) ==> IsAnswered(Step(s, e), e.id) && !IsAnswered(s, e.id)
  {
  }

  lemma {:induction false} ExecMore(events: seq<Event>, k: nat)
    requires k < |events|
    ensures Exec(events[..k + 1]) == Step(Exec(events[..k]), events[k])
  {
    var longer := events[..k + 1];
    assert longer[..|longer| - 1] == events[..k];
  }

  /** Until the next fetch succeeds, the cache holds what the last one brought. */
  lemma {:induction false} FetchIsStored(events: seq<Event>, j: nat, n: nat)
    requires j < n <= |events| && Succeeds(events, j)
    requires forall k :: j < k < n ==> !Succeeds(events, k)
    ensures Exec(events[..n]).cached == events[j].fetch
  {
    ExecMore(events, n - 1);
    assert events[..n - 1 + 1] == events[..n];
    assert Succeeds(events, n - 1) <==> n - 1 == j;
    NewCache(Exec(events[..n - 1]), events[n - 1]);
    if n > j + 1 { FetchIsStored(events, j, n - 1); }
  }

  /** A fetched token is handed to the caller that fetched it, and to every other caller until the next fetch succeeds. */
  lemma {:induction false} FetchIsShared(events: seq<Event>, j: nat, n: nat, id: Id)
    requires j <= n < |events| && Succeeds(events, j)
    requires forall k :: j < k <= n ==> !Succeeds(events, k)
    requires IsAnswered(Exec(events[..n + 1]), id) && !IsAnswered(Exec(events[..n]), id)
    ensures Exec(events[..n + 1]).callers[id].token == events[j].fetch.value
    ensures Exec(events[..n + 1]).callers[id].fetched <==> n == j
  {
    ExecMore(events, n);
    assert Succeeds(events, n) <==> n == j;
    NewAnswer(Exec(events[..n]), events[n], id);
    if n > j { FetchIsStored(events, j, n); }
  }

  /** A call that meets no other: the fresh token of the cache, or else what its fetch brings, and the locks are free again. */
  lemma {:induction false} LoneCaller(s: State, id: Id, wait: nat, fetch: Option<Token>) returns (next: State)
    requires LocksOk(s) && s.writer == None && s.readers == {} && id !in s.callers
    ensures var act, got := Act(id, fetch), Step(Step(Step(s, Call(id)), Act(id, fetch)), Act(id, fetch));
      next == if Fresh(s.cached, s.now) then got else Step(Step(Step(Step(got, Tick(wait)), act), act), act)
    ensures next.writer == None && next.readers == {} && next.callers.Keys == s.callers.Keys + {id}
    ensures next.cached == if Fresh(s.cached, s.now) || fetch == None then s.cached else fetch
    ensures next.callers[id] ==
      if Fresh(s.cached, s.now) then Returned(s.cached.value, s.now, false)
      else if fetch == None then Failed else Returned(fetch.value, s.now + wait, true)
  {
    var act := Act(id, fetch);
    var called := Step(s, Call(id));
    var reading := Step(called, act);
    next := Step(reading, act);
    assert reading.readers == {id} && next.readers == {};
    if !Fresh(s.cached, s.now) {
      var late := Step(next, Tick(wait));
      var writing := Step(late, act);
      var fetching := Step(writing, act);
      assert writing.callers[id] == Writing && fetching.callers[id] == Fetching;
      next := Step(fetching, act);
    }
  }

  /** A step of `id` gets it further. */
  predicate CanAct(s: State, id: Id)
  {
    id in s.callers && match s.callers[id]
      case WantRead => s.writer == None
      case WantWrite => s.writer == None && s.readers == {}
      case Reading | Writing | Fetching => true
      case _ => false
  }

  /** The locks never leave every caller waiting: while a call is open, some caller can act. */
  lemma {:induction false} NoDeadlock(events: seq<Event>, id: Id)
    requires id in Exec(events).callers && !Over(Exec(events).callers[id])
    ensures exists other :: CanAct(Exec(events), other)
  {
    RunsKeepInv(events);
    var s := Exec(events);
    if s.writer.Some? {
      assert CanAct(s, s.writer.value);
    } else if r :| r in s.readers {
      assert CanAct(s, r);
    } else {
      assert s.readers == {};
      assert CanAct(s, id);
    }
  }

  // ---- Fetches that bring tokens with enough life left ----------------------------------------------

  /** Every fetch that ends well brings a token with more than five minutes to live. */
  predicate FetchesLastLong(events: seq<Event>)
  {
    events != [] ==>
      var pre, e := events[..|events| - 1], events[|events| - 1];
      FetchesLastLong(pre) &&
      (e.Act? && e.fetch.Some? && e.id in Exec(pre).callers && Exec(pre).callers[e.id].Fetching? ==>
         Fresh(e.fetch, Exec(pre).now))
  }

  /** Then in every interleaving every caller's token, cached or fetched, is fresh when it is handed out. */
  lemma {:induction false} AnswersAreFresh(events: seq<Event>, id: Id)
    requires FetchesLastLong(events) && id in Exec(events).callers && Exec(events).callers[id].Returned?
    ensures Fresh(Some(Exec(events).callers[id].token), Exec(events).callers[id].at)
  {
    if events != [] {
      var pre, e := events[..|events| - 1], events[|events| - 1];
      var s := Exec(pre);
      if id in s.callers && s.callers[id].Returned? {
        AnswersAreFresh(pre, id);
        AnswersStay(s, e, id);
      }
    }
  }

  lemma {:induction false} AnswersStay(s: State, e: Event, id: Id)
    requires id in s.callers && s.callers[id].Returned?
    ensures id in Step(s, e).callers && Step(s, e).callers[id] == s.callers[id]
  {
  }

  // ---- The manager, for a caller on its own -----------------------------------------------------------

  class Manager {
    var cached: Option<Token>

    constructor ()
      ensures cached == None
    {
      cached := None;
    }

    /** `get_installation_token`, for a caller that meets nobody: `now` at the fast check, `again` under the write lock. */
    method GetInstallationToken(now: int, again: int, fetch: Option<Token>) returns (token: Option<Token>)
      requires now <= again
      modifies this
      ensures token == if Fresh(old(cached), now) then old(cached) else fetch
      ensures cached == if token == None then old(cached) else token
    {
      if Fresh(cached, now) {
        return cached;
      }
      if Fresh(cached, again) {
        return cached;
      }
      if fetch == None {
        return None;
      }
      cached := fetch;
      return fetch;
    }
  }

  // ---- The token file -----------------------------------------------------------------------------------

  /**
   * One refresh: when it starts, is answered and is done, the answer, and whether the temporary file
   * is written and renamed over the token file.
   */
  datatype Refresh = Refresh(start: int, check: int, done: int, answer: Option<Token>, renames: bool)

  class TokenFile {
    var file: Option<Token>

    constructor ()
      ensures file == None
    {
      file := None;
    }

    /** `write_token_file`: the rename is the one step that changes the file. */
    method Write(token: Token, renames: bool) returns (ok: bool)
      modifies this
      ensures ok == renames && file == if ok then Some(token) else old(file)
    {
      if renames {
        file := Some(token);
      }
      return renames;
    }

    /**
     * `start_token_file_writer`: refresh, write, sleep, again. `files[k]` is the token file after
     * refresh `k` and `ok[k]` whether that refresh wrote it.
     */
    method FileLoop(plan: seq<Refresh>) returns (files: seq<Option<Token>>, ok: seq<bool>)
      requires file == None
      modifies this
      ensures |files| == |ok| == |plan|
      ensures forall k :: 0 <= k < |plan| ==> FileAfter(files, ok, plan, k)
    {
      files, ok := [], [];
      for k := 0 to |plan|
        invariant |files| == |ok| == k && file == FileBefore(files, k)
        invariant forall x :: 0 <= x < k ==> FileAfter(files, ok, plan, x)
      {
        ghost var files', ok' := files, ok;
        var written := false;
        if plan[k].answer.Some? {
          written := Write(plan[k].answer.value, plan[k].renames);
        }
        files, ok := files + [file], ok + [written];
        forall x | 0 <= x < k ensures FileAfter(files, ok, plan, x) {
          assert FileAfter(files', ok', plan, x);
        }
      }
    }
  }

  function FileBefore(files: seq<Option<Token>>, k: nat): Option<Token>
    requires k <= |files|
  {
    if k == 0 then None else files[k - 1]
  }

  /** A refresh goes through if it is answered and renames, and then the file holds its answer; else the file is as before. */
  ghost predicate FileAfter(files: seq<Option<Token>>, ok: seq<bool>, plan: seq<Refresh>, k: nat)
    requires |files| == |ok| && k < |plan|
  {
    && k < |files|
    && ok[k] == (plan[k].answer.Some? && plan[k].renames)
    && files[k] == if ok[k] then plan[k].answer else FileBefore(files, k)
  }

  /** Each refresh starts one poll interval after the one before is done. */
  ghost predicate Punctual(plan: seq<Refresh>)
  {
    && (forall k :: 0 <= k < |plan| ==> plan[k].start <= plan[k].check <= plan[k].done)
    && (forall k :: 0 <= k < |plan| - 1 ==> plan[k + 1].start == plan[k].done + POLL)
  }

  /** The answers are those that callers of the shared cache got in a run, refresh `k` being caller `ids[k]`. */
  ghost predicate AnsweredIn(events: seq<Event>, ids: seq<Id>, plan: seq<Refresh>)
  {
    |ids| == |plan| &&
    forall k :: 0 <= k < |plan| && plan[k].answer.Some? ==> AnswerOf(events, ids[k], plan[k])
  }

  predicate AnswerOf(events: seq<Event>, id: Id, r: Refresh)
    requires r.answer.Some?
  {
    id in Exec(events).callers &&
    match Exec(events).callers[id]
    case Returned(token, at, _) => token == r.answer.value && at == r.check
    case _ => false
  }

  /** The time refreshes `k` to `j` took together. */
  function Busy(plan: seq<Refresh>, k: nat, j: nat): int
    requires k <= j < |plan|
  {
    (if k == j then 0 else Busy(plan, k, j - 1)) + plan[j].done - plan[j].start
  }

  lemma {:induction false} BusyAndAsleep(plan: seq<Refresh>, k: nat, j: nat)
    requires Punctual(plan) && k <= j < |plan|
    ensures plan[j].done - plan[k].start == Busy(plan, k, j) + POLL * (j - k)
  {
    if k < j {
      BusyAndAsleep(plan, k, j - 1);
      assert plan[j - 1 + 1].start == plan[j - 1].done + POLL;
    }
  }

  /**
   * The loop being one caller among any number, interleaved in any way: the token refresh `k` wrote
   * stays in the file while the refreshes up to `j` fail. Until refresh `j` is done it is expired for
   * less than the refreshes `k` to `j` took together and one poll interval for each failure; with
   * none, less than the sum of two refreshes, and never when they are instantaneous.
   */
  lemma {:induction false} TokenFileFreshness(events: seq<Event>, ids: seq<Id>, files: seq<Option<Token>>, ok: seq<bool>,
                                              plan: seq<Refresh>, k: nat, j: nat, t: int)
    requires FetchesLastLong(events) && AnsweredIn(events, ids, plan)
    requires |files| == |ok| == |plan| && Punctual(plan)
    requires forall x :: 0 <= x < |plan| ==> FileAfter(files, ok, plan, x)
    requires k < j < |plan| && ok[k] && forall x :: k < x < j ==> !ok[x]
    requires t <= plan[j].done
    ensures files[j - 1] == files[k] == plan[k].answer && files[k].Some?
    ensures t - files[k].value.expires < Busy(plan, k, j) + 300 * (j - k - 1)
  {
    assert FileAfter(files, ok, plan, k) && AnswerOf(events, ids[k], plan[k]);
    AnswersAreFresh(events, ids[k]);
    BusyAndAsleep(plan, k, j);
    FailuresKeepFile(files, ok, plan, k, j - 1);
  }

  lemma {:induction false} FailuresKeepFile(files: seq<Option<Token>>, ok: seq<bool>, plan: seq<Refresh>, k: nat, j: nat)
    requires |files| == |ok| == |plan| && k <= j < |plan|
    requires forall x :: 0 <= x < |plan| ==> FileAfter(files, ok, plan, x)
    requires forall x :: k < x <= j ==> !ok[x]
    ensures files[j] == files[k]
  {
    if k < j {
      FailuresKeepFile(files, ok, plan, k, j - 1);
      assert FileAfter(files, ok, plan, j);
    }
  }
}
