/**
 * Session lifetime over the sessions table, any number of requests interleaved
 * (crates/takuto-web/src/auth.rs).
 */
module Sessions {
  import opened Prelude

  const IDLE_TTL: int := 86400
  const ABSOLUTE_TTL: int := 2592000
  const EXTEND_THRESHOLD: int := 300

  type Id = string

  /** A row; times are Unix seconds, `expires` standing for the sortable date string. */
  datatype Row = Row(user: string, created: int, lastSeen: int, expires: int)

  // ---- The decision on one row ------------------------------------------------------------

  predicate PastCap(row: Row, now: int)
  {
    row.created > 0 && now - row.created > ABSOLUTE_TTL
  }

  predicate Idle(row: Row, now: int)
  {
    row.expires <= now
  }

  predicate Accepts(row: Row, now: int)
  {
    !PastCap(row, now) && !Idle(row, now)
  }

  /** What either check answers: the user, while the row is accepted. */
  function Answer(rows: map<Id, Row>, id: Id, now: int): Option<string>
  {
    if id in rows && Accepts(rows[id], now) then Some(rows[id].user) else None
  }

  /** The second statement of a validation: the throttled extension, or the lazy delete. */
  datatype Write = Extend(at: int) | Remove

  function WriteDue(rows: map<Id, Row>, id: Id, now: int): Option<Write>
  {
    if id !in rows then None
    else if PastCap(rows[id], now) then Some(Remove)
    else if Idle(rows[id], now) || now - rows[id].lastSeen <= EXTEND_THRESHOLD then None
    else Some(Extend(now))
  }

  /** The UPDATE has no condition but the id, and does nothing to a missing row. */
  function Apply(rows: map<Id, Row>, id: Id, w: Write): map<Id, Row>
  {
    if id !in rows then rows
    else if w.Remove? then rows - {id}
    else rows[id := rows[id].(lastSeen := w.at, expires := w.at + IDLE_TTL)]
  }

  // ---- One request on its own ---------------------------------------------------------------

  /** `selects` and `writes` tell whether a request's first and second statement go through. */
  class Store {
    var rows: map<Id, Row>

    constructor ()
      ensures rows == map[]
    {
      rows := map[];
    }

    /** `create_db_session`: the id is a primary key. */
    method CreateDbSession(id: Id, user: string, now: int, writes: bool) returns (ok: bool)
      modifies this
      ensures ok == (writes && id !in old(rows))
      ensures rows == if ok then old(rows)[id := Row(user, now, now, now + 86400)] else old(rows)
    {
      ok := writes && id !in rows;
      if ok {
        rows := rows[id := Row(user, now, now, now + IDLE_TTL)];
      }
    }

    /** `validate_db_session`: cap first, then idleness, then the throttled extension. */
    method ValidateDbSession(id: Id, now: int, selects: bool, writes: bool) returns (user: Option<string>)
      modifies this
      ensures user == if selects then Answer(old(rows), id, now) else None
      ensures rows ==
        if selects && writes && WriteDue(old(rows), id, now).Some?
        then Apply(old(rows), id, WriteDue(old(rows), id, now).value) else old(rows)
    {
      if !selects || id !in rows {
        return None;
      }
      var row := rows[id];
      if row.created > 0 && now - row.created > ABSOLUTE_TTL {
        if writes {
          rows := rows - {id};
        }
        return None;
      }
      if row.expires <= now {
        return None;
      }
      if now - row.lastSeen > EXTEND_THRESHOLD {
        if writes {
          rows := rows[id := row.(lastSeen := now, expires := now + IDLE_TTL)];
        }
      }
      return Some(row.user);
    }

    /** `validate_db_session_no_extend`. */
    method ValidateNoExtend(id: Id, now: int, selects: bool) returns (user: Option<string>)
      ensures user == if selects then Answer(rows, id, now) else None
    {
      if !selects || id !in rows {
        return None;
      }
      var row := rows[id];
      if row.created > 0 && now - row.created > ABSOLUTE_TTL {
        return None;
      }
      if row.expires <= now {
        return None;
      }
      return Some(row.user);
    }

    method DeleteDbSession(id: Id, writes: bool) returns (deleted: bool)
      modifies this
      ensures deleted == (writes && id in old(rows))
      ensures rows == if writes then old(rows) - {id} else old(rows)
    {
      deleted := writes && id in rows;
      if writes {
        rows := rows - {id};
      }
    }
  }

  // ---- Requests interleaved -------------------------------------------------------------------

  type Req = nat

  /** Where a request stands. It reads the clock before its first statement, and waits for each statement. */
  datatype Phase =
    | Inserting(id: Id, user: string, at: int)
    | Asking(id: Id, at: int, slides: bool)
    | Writing(id: Id, write: Write, answer: Option<string>)
    | Answered(answer: Option<string>)

  datatype State = State(rows: map<Id, Row>, requests: map<Req, Phase>, now: int)

  datatype Event =
    | Create(req: Req, id: Id, user: string)
    | Ask(req: Req, id: Id, slides: bool)
    | Act(req: Req, ok: bool)  // the statement the request waits for is done, or fails
    | Drop(req: Req)           // the request is cancelled
    | Delete(id: Id)
    | Tick(passed: nat)

  function At(s: State, req: Req, p: Phase): State { s.(requests := s.requests[req := p]) }

  function StepRequest(s: State, req: Req, ok: bool): State
    requires req in s.requests
  {
    match s.requests[req]
    case Inserting(id, user, at) =>
      At(s, req, Answered(None))
        .(rows := if ok && id !in s.rows then s.rows[id := Row(user, at, at, at + IDLE_TTL)] else s.rows)
    case Asking(id, at, slides) =>
      if !ok then At(s, req, Answered(None))
      else if slides && WriteDue(s.rows, id, at).Some? then
        At(s, req, Writing(id, WriteDue(s.rows, id, at).value, Answer(s.rows, id, at)))
      else At(s, req, Answered(Answer(s.rows, id, at)))
    case Writing(id, write, answer) =>
      At(s, req, Answered(answer)).(rows := if ok then Apply(s.rows, id, write) else s.rows)
    case Answered(_) => s
  }

  function Step(s: State, e: Event): State
  {
    match e
    case Create(req, id, user) => if req in s.requests then s else At(s, req, Inserting(id, user, s.now))
    case Ask(req, id, slides) => if req in s.requests then s else At(s, req, Asking(id, s.now, slides))
    case Act(req, ok) => if req in s.requests then StepRequest(s, req, ok) else s
    case Drop(req) => s.(requests := s.requests - {req})
    case Delete(id) => s.(rows := s.rows - {id})
    case Tick(passed) => s.(now := s.now + passed)
  }

  function Exec(s: State, events: seq<Event>): State
    decreases |events|
  {
    if events == [] then s else Exec(Step(s, events[0]), events[1..])
  }

  lemma {:induction false} ExecThree(s: State, a: Event, b: Event, c: Event)
    ensures Exec(s, [a, b, c]) == Step(Step(Step(s, a), b), c)
  {
    var e, s1 := [a, b, c], Step(s, a);
    assert e[1..] == [b, c] && [b, c][1..] == [c] && [c][1..] == [];
    assert Exec(Step(s1, b), [c]) == Exec(Step(Step(s1, b), c), []);
    assert Exec(s1, [b, c]) == Exec(Step(s1, b), [c]);
  }

  /**
   * A validation that meets no other: past the cap of thirty days the row goes, from its expiry on it is
   * refused, and otherwise it answers its user and is extended by a day if last seen over five minutes ago.
   */
  lemma {:induction false} LoneCall(s: State, req: Req, id: Id, slides: bool, selects: bool, writes: bool)
    requires req !in s.requests
    ensures var end := Exec(s, [Ask(req, id, slides), Act(req, selects), Act(req, writes)]);
      var rows, now := s.rows, s.now;
      var known := selects && id in rows;
      var capped := known && rows[id].created > 0 && now - rows[id].created > 2592000;
      var lets := known && !capped && rows[id].expires > now;
      && end.requests == s.requests[req := Answered(if lets then Some(rows[id].user) else None)]
      && end.rows ==
           if slides && writes && capped then rows - {id}
           else if slides && writes && lets && now - rows[id].lastSeen > 300 then
             rows[id := Row(rows[id].user, rows[id].created, now, now + 86400)]
           else rows
  {
    ExecThree(s, Ask(req, id, slides), Act(req, selects), Act(req, writes));
  }

  /** A login that meets no other inserts its row, unless the id is taken. */
  lemma {:induction false} LoneLogin(s: State, req: Req, id: Id, user: string, writes: bool)
    requires req !in s.requests
    ensures Step(Step(s, Create(req, id, user)), Act(req, writes)).rows ==
      if writes && id !in s.rows then s.rows[id := Row(user, s.now, s.now, s.now + 86400)] else s.rows
  {
    assert s.requests[req := Inserting(id, user, s.now)][req] == Inserting(id, user, s.now);
  }

  /** Whatever is stored and answered for the session is the user it was created for. */
  ghost predicate BelongsTo(s: State, id: Id, user: string)
  {
    && (id in s.rows ==> s.rows[id].user == user)
    && (forall r :: r in s.requests && s.requests[r].Writing? && s.requests[r].id == id ==>
          s.requests[r].answer == None || s.requests[r].answer == Some(user))
  }

  /** The request is about the session and has not been answered. */
  predicate Concerns(s: State, req: Req, id: Id)
  {
    req in s.requests && (s.requests[req].Asking? || s.requests[req].Writing?) && s.requests[req].id == id
  }

  lemma {:induction false} StepKeepsUser(s: State, e: Event, id: Id, user: string)
    requires BelongsTo(s, id, user) && NoInsert(s, id) && (e.Create? ==> e.id != id)
    ensures BelongsTo(Step(s, e), id, user) && NoInsert(Step(s, e), id)
    ensures e.Act? && Concerns(s, e.req, id) && Step(s, e).requests[e.req].Answered? ==>
      var answer := Step(s, e).requests[e.req].answer; answer == None || answer == Some(user)
  {
  }

  /** In every run of requests, whatever their order and outcome, a session only ever answers its own user. */
  lemma {:induction false} OnlyItsUser(s: State, events: seq<Event>, id: Id, user: string, e: Event)
    requires BelongsTo(s, id, user) && NoInsert(s, id) && NeverCreates(events, id)
    requires e.Act? && Concerns(Exec(s, events), e.req, id)
    ensures var after := Step(Exec(s, events), e).requests[e.req];
      after.Answered? ==> after.answer == None || after.answer == Some(user)
    decreases |events|
  {
    if events == [] {
      StepKeepsUser(s, e, id, user);
    } else {
      StepKeepsUser(s, events[0], id, user);
      NeverCreatesRest(events, id);
      OnlyItsUser(Step(s, events[0]), events[1..], id, user, e);
    }
  }

  // ---- When a rejected session comes back -----------------------------------------------------

  ghost predicate NoInsert(s: State, id: Id)
  {
    forall r :: r in s.requests && s.requests[r].Inserting? ==> s.requests[r].id != id
  }

  ghost predicate NeverCreates(events: seq<Event>, id: Id)
  {
    forall k :: 0 <= k < |events| && events[k].Create? ==> events[k].id != id
  }

  lemma {:induction false} NeverCreatesRest(events: seq<Event>, id: Id)
    requires events != [] && NeverCreates(events, id)
    ensures NeverCreates(events[1..], id)
  {
    forall k | 0 <= k < |events| - 1 && events[1..][k].Create? ensures events[1..][k].id != id {
      assert events[1..][k] == events[k + 1];
    }
  }

  /** The event is the read of a request for `id`, and the request is let in. */
  predicate Admits(s: State, e: Event, id: Id)
  {
    && e.Act? && e.ok && e.req in s.requests && s.requests[e.req].Asking? && s.requests[e.req].id == id
    && Answer(s.rows, id, s.requests[e.req].at).Some?
  }

  /** The clock readings of the requests for `id` that a run lets in. */
  function Admitted(s: State, events: seq<Event>, id: Id): seq<int>
    decreases |events|
  {
    if events == [] then []
    else (if Admits(s, events[0], id) then [s.requests[events[0].req].at] else []) +
         Admitted(Step(s, events[0]), events[1..], id)
  }

  /** The row's expiry, or the one an extension still to be written would give it. */
  ghost predicate ExpiryOf(s: State, id: Id, expiry: int)
    requires id in s.rows
  {
    || expiry == s.rows[id].expires
    || exists r :: PendingExtension(s, id, r) && expiry == s.requests[r].write.at + IDLE_TTL
  }

  predicate PendingExtension(s: State, id: Id, r: Req)
  {
    r in s.requests && s.requests[r].Writing? && s.requests[r].id == id && s.requests[r].write.Extend?
  }

  /** The clock reading of a request still to read the row, or of one that would come now. */
  ghost predicate ReadingOf(s: State, id: Id, t: int)
  {
    t == s.now || exists r :: Waiting(s, id, r) && t == s.requests[r].at
  }

  predicate Waiting(s: State, id: Id, r: Req)
  {
    r in s.requests && s.requests[r].Asking? && s.requests[r].id == id
  }

  /** Some expiry the row has or may yet get lies after some clock reading within the cap. */
  ghost predicate Revivable(s: State, id: Id)
  {
    id in s.rows &&
    exists expiry, t :: ExpiryOf(s, id, expiry) && ReadingOf(s, id, t) && t < expiry && !PastCap(s.rows[id], t)
  }

  lemma {:induction false} AdmittedIsRevivable(s: State, e: Event, id: Id)
    requires Admits(s, e, id)
    ensures Revivable(s, id)
  {
    var t := s.requests[e.req].at;
    assert Waiting(s, id, e.req) && ReadingOf(s, id, t);
    assert ExpiryOf(s, id, s.rows[id].expires);
  }

  /** What is not revivable stays so: only a request let in can leave a new extension behind. */
  lemma {:induction false} StaysDead(s: State, e: Event, id: Id)
    requires !Revivable(s, id) && NoInsert(s, id) && (e.Create? ==> e.id != id)
    ensures !Revivable(Step(s, e), id) && NoInsert(Step(s, e), id)
  {
    var s' := Step(s, e);
    if Revivable(s', id) {
      var expiry, t :| ExpiryOf(s', id, expiry) && ReadingOf(s', id, t) && t < expiry && !PastCap(s'.rows[id], t);
      assert id in s.rows && s'.rows[id].created == s.rows[id].created;
      if Admits(s, e, id) { AdmittedIsRevivable(s, e, id); }
      ExpiryBefore(s, e, id, expiry);
      var t' := ReadingBefore(s, e, id, t);
      assert t' < expiry && !PastCap(s.rows[id], t');
      assert Revivable(s, id);
    }
  }

  lemma {:induction false} ExpiryBefore(s: State, e: Event, id: Id, expiry: int)
    requires !Admits(s, e, id) && id in s.rows && id in Step(s, e).rows && ExpiryOf(Step(s, e), id, expiry)
    ensures ExpiryOf(s, id, expiry)
  {
    var s' := Step(s, e);
    if r :| PendingExtension(s', id, r) && expiry == s'.requests[r].write.at + IDLE_TTL {
      assert PendingExtension(s, id, r);
    } else if expiry != s.rows[id].expires {
      assert PendingExtension(s, id, e.req);
    }
  }

  lemma {:induction false} ReadingBefore(s: State, e: Event, id: Id, t: int) returns (t': int)
    requires ReadingOf(Step(s, e), id, t)
    ensures ReadingOf(s, id, t') && t' <= t
  {
    if r :| Waiting(Step(s, e), id, r) && t == Step(s, e).requests[r].at {
      t' := t;
      if r in s.requests { assert Waiting(s, id, r); }
    } else {
      t' := s.now;
    }
  }

  lemma {:induction false} DeadAdmitsNobody(s: State, events: seq<Event>, id: Id)
    requires !Revivable(s, id) && NoInsert(s, id) && NeverCreates(events, id)
    ensures Admitted(s, events, id) == []
    decreases |events|
  {
    if events != [] {
      if Admits(s, events[0], id) { AdmittedIsRevivable(s, events[0], id); }
      StaysDead(s, events[0], id);
      NeverCreatesRest(events, id);
      DeadAdmitsNobody(Step(s, events[0]), events[1..], id);
    }
  }

  lemma {:induction false} FreshRequest(used: set<Req>) returns (r: Req)
    ensures r !in used && forall u :: u in used ==> u < r
    decreases |used|
  {
    if used == {} {
      r := 0;
    } else {
      var u :| u in used;
      var above := FreshRequest(used - {u});
      r := if above <= u then u + 1 else above;
      assert forall x :: x in used ==> x == u || x in used - {u};
    }
  }

  /** The run that brings it back: the extension lands, and the request reads. */
  lemma {:induction false} RevivingRun(s: State, id: Id) returns (events: seq<Event>)
    requires Revivable(s, id)
    ensures NeverCreates(events, id) && Admitted(s, events, id) != []
  {
    var expiry, t :| ExpiryOf(s, id, expiry) && ReadingOf(s, id, t) && t < expiry && !PastCap(s.rows[id], t);
    var s1, first := s, [];
    if expiry != s.rows[id].expires {
      var r :| PendingExtension(s, id, r) && expiry == s.requests[r].write.at + IDLE_TTL;
      first := [Act(r, true)];
      s1 := Step(s, first[0]);
    }
    assert Accepts(s1.rows[id], t) && s1.now == s.now;
    var second := AdmitOne(s, s1, id, t);
    events := first + second;
    if first != [] { assert events[1..] == second; } else { assert events == second; }
  }

  lemma {:induction false} AdmitOne(s: State, s1: State, id: Id, t: int) returns (events: seq<Event>)
    requires ReadingOf(s, id, t) && id in s1.rows && Accepts(s1.rows[id], t) && s1.now == s.now
    requires forall r :: Waiting(s, id, r) ==> r in s1.requests && s1.requests[r] == s.requests[r]
    ensures NeverCreates(events, id) && Admitted(s1, events, id) != []
  {
    if r :| Waiting(s, id, r) && t == s.requests[r].at {
      events := [Act(r, true)];
    } else {
      var r := FreshRequest(s1.requests.Keys);
      events := [Ask(r, id, false), Act(r, true)];
      assert events[1..][0] == Act(r, true);
      assert Admits(Step(s1, events[0]), events[1..][0], id);
      assert Admitted(Step(s1, events[0]), events[1..], id) != [];
    }
  }

  /**
   * Some request for a session can still be let in exactly when an expiry the row has, or would get
   * from an extension still to be written, lies after the clock reading of a request still to read
   * the row, or of one that comes now, the cap permitting. So a rejection is for ever exactly when
   * this fails.
   */
  lemma {:induction false} RejectedForeverIff(s: State, id: Id)
    requires NoInsert(s, id)
    ensures (exists events :: NeverCreates(events, id) && Admitted(s, events, id) != []) <==> Revivable(s, id)
  {
    if Revivable(s, id) {
      var events := RevivingRun(s, id);
    } else {
      forall events | NeverCreates(events, id) ensures Admitted(s, events, id) == [] {
        DeadAdmitsNobody(s, events, id);
      }
    }
  }

  /** With no other validation of the session open, a rejection is for ever. */
  lemma {:induction false} QuietRejectionIsForever(s: State, events: seq<Event>, id: Id)
    requires Answer(s.rows, id, s.now) == None && NoInsert(s, id) && NeverCreates(events, id)
    requires forall r :: !Waiting(s, id, r) && !PendingExtension(s, id, r)
    ensures Admitted(s, events, id) == []
  {
    DeadAdmitsNobody(s, events, id);
  }

  /** Once a session is deleted nobody is let in by it again, not even a request already under way to read it. */
  lemma {:induction false} LogoutIsFinal(s: State, events: seq<Event>, id: Id)
    requires NoInsert(s, id) && NeverCreates(events, id)
    ensures Admitted(Step(s, Delete(id)), events, id) == []
  {
    DeadAdmitsNobody(Step(s, Delete(id)), events, id);
  }

  /** A missing row, or one past its cap, lets in nobody who comes from then on, whatever is still open. */
  lemma {:induction false} CapIsFinal(s: State, events: seq<Event>, id: Id, now: int)
    requires id in s.rows ==> PastCap(s.rows[id], now)
    requires NoInsert(s, id) && NeverCreates(events, id)
    ensures forall t :: t in Admitted(s, events, id) ==> t < now
    decreases |events|
  {
    if events != [] {
      var s', rest := Step(s, events[0]), events[1..];
      assert NoInsert(s', id) && (id in s'.rows ==> PastCap(s'.rows[id], now));
      NeverCreatesRest(events, id);
      CapIsFinal(s', rest, id, now);
    }
  }

  /**
   * A late extension does bring a rejected session back: a request reads the live row, time passes,
   * a second request finds the row idle, and then the first one's extension is written.
   */
  lemma {:induction false} LateExtensionRevives(s: State, id: Id, r: Req, passed: nat) returns (s1: State, s2: State)
    requires r !in s.requests && WriteDue(s.rows, id, s.now) == Some(Extend(s.now))
    requires s.rows[id].expires <= s.now + passed < s.now + 86400
    requires !PastCap(s.rows[id], s.now + passed)
    ensures s1 == Exec(s, [Ask(r, id, true), Act(r, true), Tick(passed)]) && s2 == Step(s1, Act(r, true))
    ensures Answer(s1.rows, id, s1.now) == None && Answer(s2.rows, id, s2.now).Some?
  {
    ExecThree(s, Ask(r, id, true), Act(r, true), Tick(passed));
    s1 := Step(Step(Step(s, Ask(r, id, true)), Act(r, true)), Tick(passed));
    s2 := Step(s1, Act(r, true));
  }

  // ---- What every run keeps ---------------------------------------------------------------------

  /** A row expires a day after it was last seen, unless the migration added its columns and nobody used it since. */
  predicate RowOk(row: Row, now: int)
  {
    row.created <= now && row.lastSeen <= now && (row.lastSeen > 0 ==> row.expires == row.lastSeen + IDLE_TTL)
  }

  predicate PhaseOk(p: Phase, now: int)
  {
    match p
    case Inserting(_, _, at) => 0 < at <= now
    case Asking(_, at, _) => 0 < at <= now
    case Writing(_, write, _) => write.Extend? ==> 0 < write.at <= now
    case Answered(_) => true
  }

  ghost predicate Inv(s: State)
  {
    && s.now > 0
    && (forall id :: id in s.rows ==> RowOk(s.rows[id], s.now))
    && (forall r :: r in s.requests ==> PhaseOk(s.requests[r], s.now))
  }

  /** Rows from before the columns were added: never seen, never created, with an expiry of their own. */
  ghost predicate Backfilled(rows: map<Id, Row>)
  {
    forall id :: id in rows ==> rows[id].created == 0 && rows[id].lastSeen == 0
  }

  /** The states a server can be in: it starts on such a table, an empty one included. */
  ghost predicate Reachable(s: State)
  {
    exists rows, now: int, events :: now > 0 && Backfilled(rows) && Exec(State(rows, map[], now), events) == s
  }

  lemma {:induction false} StepKeepsInv(s: State, e: Event)
    requires Inv(s)
    ensures Inv(Step(s, e))
  {
    var s' := Step(s, e);
    forall id | id in s'.rows ensures RowOk(s'.rows[id], s'.now) {
      assert id in s.rows ==> RowOk(s.rows[id], s.now);
      if e.Act? && e.req in s.requests { assert PhaseOk(s.requests[e.req], s.now); }
    }
    forall r | r in s'.requests ensures PhaseOk(s'.requests[r], s'.now) {
      assert r in s.requests ==> PhaseOk(s.requests[r], s.now);
    }
  }

  lemma {:induction false} RunsKeepInv(s: State, events: seq<Event>)
    requires Inv(s)
    ensures Inv(Exec(s, events))
    decreases |events|
  {
    if events != [] {
      StepKeepsInv(s, events[0]);
      RunsKeepInv(Step(s, events[0]), events[1..]);
    }
  }

  lemma {:induction false} ReachableInv(s: State)
    requires Reachable(s)
    ensures Inv(s)
  {
    var rows, now, events :| now > 0 && Backfilled(rows) && Exec(State(rows, map[], now), events) == s;
    RunsKeepInv(State(rows, map[], now), events);
  }

  // ---- How long a session lives ---------------------------------------------------------------------

  /** The row was seen at `f` or later, and no extension still to be written goes back behind that. */
  ghost predicate SeenFrom(s: State, id: Id, f: int)
  {
    && id in s.rows && s.rows[id].lastSeen >= f
    && forall r :: PendingExtension(s, id, r) ==> s.requests[r].write.at >= f
  }

  /** A later extension is written for a row last seen even earlier, so it does not go back either. */
  lemma {:induction false} SeenFromStays(s: State, e: Event, id: Id, f: int)
    requires SeenFrom(s, id, f) && id in Step(s, e).rows
    ensures SeenFrom(Step(s, e), id, f)
  {
    var s' := Step(s, e);
    if e.Act? && PendingExtension(s, id, e.req) { assert s.requests[e.req].write.at >= f; }
    forall r | PendingExtension(s', id, r) ensures s'.requests[r].write.at >= f {
      if PendingExtension(s, id, r) { assert s.requests[r].write.at >= f; }
    }
  }

  lemma {:induction false} SeenFromLasts(s: State, events: seq<Event>, id: Id, f: int)
    requires SeenFrom(s, id, f) && NoInsert(s, id) && NeverCreates(events, id)
    requires id in Exec(s, events).rows
    ensures SeenFrom(Exec(s, events), id, f)
    decreases |events|
  {
    if events != [] {
      var s', rest := Step(s, events[0]), events[1..];
      NeverCreatesRest(events, id);
      if id in s'.rows {
        SeenFromStays(s, events[0], id, f);
        SeenFromLasts(s', rest, id, f);
      } else {
        GoneStaysGone(s', rest, id);
      }
    }
  }

  lemma {:induction false} GoneStaysGone(s: State, events: seq<Event>, id: Id)
    requires id !in s.rows && NoInsert(s, id) && NeverCreates(events, id)
    ensures id !in Exec(s, events).rows
    decreases |events|
  {
    if events != [] {
      NeverCreatesRest(events, id);
      GoneStaysGone(Step(s, events[0]), events[1..], id);
    }
  }

  /** The row was last seen at `c` at the latest, and no open request can change that. */
  ghost predicate SeenUpTo(s: State, id: Id, c: int)
  {
    && (id in s.rows ==> s.rows[id].expires <= c + IDLE_TTL)
    && (forall r :: PendingExtension(s, id, r) ==> s.requests[r].write.at <= c)
    && (forall r :: Waiting(s, id, r) && s.requests[r].slides ==> s.requests[r].at <= c)
  }

  ghost predicate NeverUses(events: seq<Event>, id: Id)
  {
    forall k :: 0 <= k < |events| && events[k].Ask? && events[k].slides ==> events[k].id != id
  }

  lemma {:induction false} SeenUpToStays(s: State, e: Event, id: Id, c: int)
    requires SeenUpTo(s, id, c) && NoInsert(s, id) && (e.Create? ==> e.id != id) && (e.Ask? && e.slides ==> e.id != id)
    ensures SeenUpTo(Step(s, e), id, c) && NoInsert(Step(s, e), id)
  {
    if e.Act? && PendingExtension(s, id, e.req) { assert s.requests[e.req].write.at <= c; }
    ExtensionsStayBefore(s, e, id, c);
  }

  lemma {:induction false} ExtensionsStayBefore(s: State, e: Event, id: Id, c: int)
    requires SeenUpTo(s, id, c) && (e.Ask? && e.slides ==> e.id != id)
    ensures forall r :: PendingExtension(Step(s, e), id, r) ==> Step(s, e).requests[r].write.at <= c
    ensures forall r :: Waiting(Step(s, e), id, r) && Step(s, e).requests[r].slides ==> Step(s, e).requests[r].at <= c
  {
    var s' := Step(s, e);
    forall r | PendingExtension(s', id, r) ensures s'.requests[r].write.at <= c {
      if PendingExtension(s, id, r) {
        assert s.requests[r].write.at <= c;
      } else {
        assert Waiting(s, id, r) && s.requests[r].slides;
      }
    }
    forall r | Waiting(s', id, r) && s'.requests[r].slides ensures s'.requests[r].at <= c {
      assert Waiting(s, id, r);
    }
  }

  lemma {:induction false} SeenUpToLasts(s: State, events: seq<Event>, id: Id, c: int)
    requires SeenUpTo(s, id, c) && NoInsert(s, id) && NeverCreates(events, id) && NeverUses(events, id)
    ensures SeenUpTo(Exec(s, events), id, c)
    decreases |events|
  {
    if events != [] {
      SeenUpToStays(s, events[0], id, c);
      NeverCreatesRest(events, id);
      assert NeverUses(events[1..], id) by {
        forall k | 0 <= k < |events| - 1 && events[1..][k].Ask? && events[1..][k].slides ensures events[1..][k].id != id {
          assert events[1..][k] == events[k + 1];
        }
      }
      SeenUpToLasts(Step(s, events[0]), events[1..], id, c);
    }
  }

  /** The clock reading of the use an event completes: let in, and the extension written if one was due. */
  function Use(s: State, e: Event, id: Id): Option<int>
  {
    if !e.Act? || !e.ok || e.req !in s.requests then None
    else
      match s.requests[e.req]
      case Asking(i, at, slides) =>
        if i == id && slides && Answer(s.rows, id, at).Some? && WriteDue(s.rows, id, at) == None then Some(at) else None
      case Writing(i, write, _) => if i == id && write.Extend? then Some(write.at) else None
      case _ => None
  }

  /** While the row is there, every later run passes the idle check at every time before `until`. */
  ghost predicate PassesUntil(s: State, id: Id, until: int)
  {
    forall events, later :: NeverCreates(events, id) && id in Exec(s, events).rows && later < until ==>
      !Idle(Exec(s, events).rows[id], later)
  }

  /** A completed use leaves the row seen at most 300 seconds before its clock reading. */
  lemma {:induction false} UseIsSeen(s: State, e: Event, id: Id, t: int)
    requires Inv(s) && id in s.rows && Use(s, e, id) == Some(t) && t > EXTEND_THRESHOLD
    ensures id in Step(s, e).rows && Step(s, e).rows[id].lastSeen >= t - EXTEND_THRESHOLD
  {
  }

  /** An extension decided on earlier, once written, takes the expiry back to where it was decided. */
  lemma {:induction false} OldExtensionShortens(s: State, id: Id, r: Req, until: int)
    requires PendingExtension(s, id, r) && id in s.rows && s.requests[r].write.at + IDLE_TTL < until
    ensures !PassesUntil(s, id, until)
  {
    var events, later := [Act(r, true)], until - 1;
    assert events[1..] == [] && Exec(s, events) == Step(s, events[0]);
    assert Idle(Exec(s, events).rows[id], later);
  }

  /**
   * A session used at `t` passes the idle check at every time before t + 86100, in whatever order
   * requests go on, exactly when no extension decided on before t - 300 is still to be written.
   */
  lemma {:induction false} IdleWindow(s: State, e: Event, id: Id, t: int)
    requires Reachable(s) && id in s.rows && NoInsert(s, id) && (e.Create? ==> e.id != id)
    requires Use(s, e, id) == Some(t) && t > 300
    ensures PassesUntil(Step(s, e), id, t + 86100) <==>
      forall r :: PendingExtension(Step(s, e), id, r) ==> Step(s, e).requests[r].write.at >= t - 300
  {
    var s', f := Step(s, e), t - EXTEND_THRESHOLD;
    ReachableInv(s);
    StepKeepsInv(s, e);
    UseIsSeen(s, e, id, t);
    if r :| PendingExtension(s', id, r) && s'.requests[r].write.at < f {
      OldExtensionShortens(s', id, r, f + IDLE_TTL);
    } else {
      assert SeenFrom(s', id, f);
      forall events, later | NeverCreates(events, id) && id in Exec(s', events).rows && later < f + IDLE_TTL
        ensures !Idle(Exec(s', events).rows[id], later)
      {
        SeenFromLasts(s', events, id, f);
        RunsKeepInv(s', events);
        assert RowOk(Exec(s', events).rows[id], Exec(s', events).now);
      }
    }
  }

  /** No request for the session that is still open read the clock later than `t`. */
  ghost predicate NoLaterUse(s: State, id: Id, t: int)
  {
    && (forall r :: PendingExtension(s, id, r) ==> s.requests[r].write.at <= t)
    && (forall r :: Waiting(s, id, r) && s.requests[r].slides ==> s.requests[r].at <= t)
  }

  /**
   * If the use at `t` is the last, none later being recorded, open or to come, the session fails the
   * check at every time from t + 86400 on.
   */
  lemma {:induction false} IdleWindowEnds(s: State, e: Event, id: Id, t: int, events: seq<Event>, later: int)
    requires Reachable(s) && id in s.rows && NoInsert(s, id) && (e.Create? ==> e.id != id)
    requires Use(s, e, id) == Some(t) && t > 300
    requires s.rows[id].lastSeen <= t && NoLaterUse(Step(s, e), id, t)
    requires NeverCreates(events, id) && NeverUses(events, id) && later >= t + 86400
    requires id in Exec(Step(s, e), events).rows
    ensures Idle(Exec(Step(s, e), events).rows[id], later)
  {
    ReachableInv(s);
    StepKeepsInv(s, e);
    UseIsSeen(s, e, id, t);
    assert RowOk(Step(s, e).rows[id], Step(s, e).now);
    SeenUpToLasts(Step(s, e), events, id, t);
  }

  // ---- Kept alive to the cap -------------------------------------------------------------------------

  function Latest(use: int, u: Option<int>): int { if u.Some? && u.value > use then u.value else use }

  /** Extensions are written within 300 seconds of their request's clock reading. */
  ghost predicate Prompt(s: State, id: Id)
  {
    forall r :: PendingExtension(s, id, r) ==> s.requests[r].write.at >= s.now - EXTEND_THRESHOLD
  }

  /**
   * Over the run the clock never gets 86100 seconds past the latest completed use, extensions are
   * written promptly, and nobody deletes the session. `use` is the latest use before the run.
   */
  ghost predicate KeptAlive(s: State, events: seq<Event>, id: Id, use: int)
    decreases |events|
  {
    && Prompt(s, id) && s.now < use + IDLE_TTL - EXTEND_THRESHOLD
    && (events != [] ==>
          events[0] != Delete(id) && (events[0].Create? ==> events[0].id != id) &&
          KeptAlive(Step(s, events[0]), events[1..], id, Latest(use, Use(s, events[0], id))))
  }

  function LastUse(s: State, events: seq<Event>, id: Id, use: int): int
    decreases |events|
  {
    if events == [] then use
    else LastUse(Step(s, events[0]), events[1..], id, Latest(use, Use(s, events[0], id)))
  }

  predicate Capped(created: int, now: int) { created > 0 && now > created + ABSOLUTE_TTL }

  /** The row is there and was seen about as late as it was used, or its cap is past. */
  ghost predicate Alive(s: State, id: Id, created: int, use: int)
  {
    && Inv(s) && NoInsert(s, id) && EXTEND_THRESHOLD < use <= s.now
    && (if id in s.rows then s.rows[id].created == created && s.rows[id].lastSeen >= use - EXTEND_THRESHOLD
        else Capped(created, s.now))
    && (forall r :: PendingRemoval(s, id, r) ==> Capped(created, s.now))
  }

  predicate PendingRemoval(s: State, id: Id, r: Req)
  {
    r in s.requests && s.requests[r].Writing? && s.requests[r].id == id && s.requests[r].write.Remove?
  }

  lemma {:induction false} StepKeepsAlive(s: State, e: Event, id: Id, created: int, use: int)
    requires Alive(s, id, created, use) && Prompt(s, id)
    requires e != Delete(id) && (e.Create? ==> e.id != id)
    ensures Alive(Step(s, e), id, created, Latest(use, Use(s, e, id)))
  {
    StepKeepsInv(s, e);
    RemovalsStayLate(s, e, id, created, use);
    if e.Act? && e.req in s.requests {
      assert PhaseOk(s.requests[e.req], s.now);
      if PendingExtension(s, id, e.req) { assert s.requests[e.req].write.at >= s.now - EXTEND_THRESHOLD; }
      if PendingRemoval(s, id, e.req) { assert Capped(created, s.now); }
    }
  }

  /** Only a request past the cap leaves a removal behind. */
  lemma {:induction false} RemovalsStayLate(s: State, e: Event, id: Id, created: int, use: int)
    requires Alive(s, id, created, use)
    ensures forall r :: PendingRemoval(Step(s, e), id, r) ==> Capped(created, Step(s, e).now)
  {
    forall r | PendingRemoval(Step(s, e), id, r) ensures Capped(created, Step(s, e).now) {
      if PendingRemoval(s, id, r) {
        assert Capped(created, s.now);
      } else {
        assert Waiting(s, id, r) && PhaseOk(s.requests[r], s.now);
      }
    }
  }

  /**
   * A session used at such gaps is accepted up to and including creation + 2592000 and never after,
   * in every interleaving; one without a creation time is accepted for as long as it is used.
   */
  lemma {:induction false} KeptAliveToTheCap(s: State, events: seq<Event>, id: Id, created: int, use: int, now: int)
    requires Alive(s, id, created, use) && KeptAlive(s, events, id, use)
    requires Exec(s, events).now <= now < LastUse(s, events, id, use) + 86100
    ensures Answer(Exec(s, events).rows, id, now).Some? <==> created <= 0 || now <= created + 2592000
    decreases |events|
  {
    if events == [] {
      assert id in s.rows ==> RowOk(s.rows[id], s.now);
    } else {
      StepKeepsAlive(s, events[0], id, created, use);
      KeptAliveToTheCap(Step(s, events[0]), events[1..], id, created, Latest(use, Use(s, events[0], id)), now);
    }
  }

  /** A session just created is such a session, its creation being its first use. */
  lemma {:induction false} CreatedIsAlive(s: State, r: Req, id: Id, user: string, at: int)
    requires Reachable(s) && r in s.requests && s.requests[r] == Inserting(id, user, at)
    requires id !in s.rows && at > 300
    requires forall q :: q in s.requests && q != r && !s.requests[q].Answered? ==> s.requests[q].id != id
    ensures Alive(Step(s, Act(r, true)), id, at, at) && Prompt(Step(s, Act(r, true)), id)
  {
    ReachableInv(s);
    StepKeepsInv(s, Act(r, true));
    assert PhaseOk(s.requests[r], s.now);
  }

  /** Nothing but an explicit delete takes away a row without a positive creation time. */
  lemma {:induction false} UncappedStays(s: State, events: seq<Event>, id: Id)
    requires id in s.rows && s.rows[id].created <= 0 && (forall r :: !PendingRemoval(s, id, r))
    requires forall k :: 0 <= k < |events| ==> events[k] != Delete(id)
    ensures id in Exec(s, events).rows && Exec(s, events).rows[id].created == s.rows[id].created
    decreases |events|
  {
    if events != [] {
      assert events[0] != Delete(id);
      var s' := Step(s, events[0]);
      forall r ensures !PendingRemoval(s', id, r) {
        assert !PendingRemoval(s, id, r);
      }
      assert id in s'.rows && s'.rows[id].created == s.rows[id].created by {
        if events[0].Act? { assert !PendingRemoval(s, id, events[0].req); }
      }
      UncappedStays(s', events[1..], id);
    }
  }

  /**
   * The rows the migration backfilled are not, as it says, rejected and deleted on next use: while
   * their own expiry lasts they are let in and extended, and no validation ever deletes one.
   */
  lemma {:induction false} BackfilledRowIsLetIn(s: State, events: seq<Event>, id: Id)
    requires Backfilled(s.rows) && id in s.rows && s.requests == map[] && s.now > 300
    requires forall k :: 0 <= k < |events| ==> events[k] != Delete(id)
    ensures Answer(s.rows, id, s.now).Some? <==> s.now < s.rows[id].expires
    ensures WriteDue(s.rows, id, s.now) == if s.now < s.rows[id].expires then Some(Extend(s.now)) else None
    ensures id in Exec(s, events).rows
  {
    UncappedStays(s, events, id);
  }
}
