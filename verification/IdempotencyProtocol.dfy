/** The idempotency-key lease (idempotency/idempotency.go): one table, and any number of attempts
    whose SQL statements are atomic steps under the database's clock. */
module IdempotencyProtocol {
  import opened Results

  // ----- What a key is bound to -----

  datatype Request = Request(rpc: string, principalType: string, subject: string, body: string)

  const NUL: string := ['\0']

  /** The bytes that are hashed.  The digest is taken as collision-free, so it is the bytes. */
  function Frame(r: Request): string {
    r.rpc + NUL + r.principalType + NUL + r.subject + NUL + r.body
  }

  predicate NulFree(r: Request) {
    '\0' !in r.rpc && '\0' !in r.principalType && '\0' !in r.subject
  }

  /** The first NUL ends the first part. */
  lemma FirstPart(a: string, b: string, x: string, y: string)
    requires '\0' !in a && '\0' !in b && a + NUL + x == b + NUL + y
    ensures a == b && x == y
  {
    var s, t := a + NUL + x, b + NUL + y;
    assert s[|a|] == '\0' && t[|b|] == '\0';
    assert forall i :: 0 <= i < |a| ==> s[i] == a[i] && a[i] in a;
    assert forall i :: 0 <= i < |b| ==> t[i] == b[i] && b[i] in b;
    assert |a| == |b|;
    assert a == s[..|a|] && b == t[..|b|] && x == s[|a| + 1..] && y == t[|b| + 1..];
  }

  /** Equal hashes mean the same method, principal type, subject and body. */
  lemma FrameIsInjective(p: Request, q: Request)
    requires NulFree(p) && NulFree(q)
    ensures Frame(p) == Frame(q) <==> p == q
  {
    if Frame(p) == Frame(q) {
      var pBody, qBody := p.subject + NUL + p.body, q.subject + NUL + q.body;
      var pRest, qRest := p.principalType + NUL + pBody, q.principalType + NUL + qBody;
      assert Frame(p) == p.rpc + NUL + pRest && Frame(q) == q.rpc + NUL + qRest;
      FirstPart(p.rpc, q.rpc, pRest, qRest);
      FirstPart(p.principalType, q.principalType, pBody, qBody);
      FirstPart(p.subject, q.subject, p.body, q.body);
    }
  }

  /** The condition is needed: a NUL in a caller's subject moves the boundary into the body.  Both
      bodies are well-formed messages: the empty one, and one whose field 1 is an empty submessage. */
  lemma NulBreaksFraming(rpc: string, principalType: string, subject: string)
    requires '\0' !in rpc && '\0' !in principalType && '\0' !in subject
    ensures var p := Request(rpc, principalType, subject + NUL + "\n", "");
            var q := Request(rpc, principalType, subject, "\n\0");
            p != q && !NulFree(p) && NulFree(q) && Frame(p) == Frame(q)
  {
    var p := Request(rpc, principalType, subject + NUL + "\n", "");
    var q := Request(rpc, principalType, subject, "\n\0");
    assert p.subject[|subject|] == '\0';
    assert "\n" + NUL + "" == "\n\0";
    assert subject + NUL + "\n" + NUL + "" == subject + NUL + "\n\0";
    var head := rpc + NUL + principalType + NUL;
    assert Frame(p) == head + (subject + NUL + "\n" + NUL + "") && Frame(q) == head + (subject + NUL + "\n\0");
  }

  // ----- The table -----

  datatype Key = Key(tenant: string, key: string)

  datatype Row = Row(hash: string, completed: bool, response: Option<string>, created: int)

  type Table = map<Key, Row>

  datatype Lease = Lease(ttl: int, staleAfter: int) {
    /** How long a claim is safe from being taken over. */
    function Window(): int { if staleAfter <= ttl then staleAfter else ttl }

    /** The WHERE of the takeover. */
    predicate TakeoverMatches(row: Row, now: int) {
      row.created < now - ttl || (!row.completed && row.created < now - staleAfter)
    }
  }

  function InsertRow(t: Table, k: Key, hash: string, now: int): Table {
    if k in t then t else t[k := Row(hash, false, None, now)]
  }

  predicate TakesOver(l: Lease, t: Table, k: Key, now: int) {
    k in t && l.TakeoverMatches(t[k], now)
  }

  function TakeOver(l: Lease, t: Table, k: Key, hash: string, now: int): Table {
    if TakesOver(l, t, k, now) then t[k := Row(hash, false, None, now)] else t
  }

  /** The delete of a failed attempt: no ownership check, only the status. */
  function ReleaseRow(t: Table, k: Key): Table {
    if k in t && !t[k].completed then t - {k} else t
  }

  /** The record of a finished attempt: no check at all. */
  function RecordRow(t: Table, k: Key, response: string): Table {
    if k in t then t[k := t[k].(completed := true, response := Some(response))] else t
  }

  function CleanUp(l: Lease, t: Table, tenant: string, now: int): Table {
    map k | k in t && !(k.tenant == tenant && t[k].created < now - l.ttl) :: t[k]
  }

  /** Why the lease needs its claimants on time: neither record nor release asks who owns the row, so
      a response recorded by the first claimant stands under its own hash, whoever tries to take the
      row over before, if and only if that try comes within the window of the claim. */
  lemma RecordIsOwnIffOnTime(l: Lease, t: Table, k: Key, first: string, second: string, response: string,
                             claimed: int, later: int)
    requires k !in t && first != second
    ensures var row := RecordRow(TakeOver(l, InsertRow(t, k, first, claimed), k, second, later), k, response)[k];
            && row.completed && row.response == Some(response)
            && (row.hash == first <==> later <= claimed + l.Window())
  {
    assert InsertRow(t, k, first, claimed)[k] == Row(first, false, None, claimed);
  }

  // ----- Attempts -----

  datatype Reply =
    | Ran(response: string)
    | HandlerFailed
    | Replayed(response: string)
    | OtherRequest
    | InProgress
    | Unavailable
    | Unreadable

  datatype Stage =
    | Inserting
    | TakingOver
    | Reading
    | Handling(since: int)
    | Releasing(since: int)
    | Recording(since: int, response: string)
    | Finished(reply: Reply)
    | Crashed

  datatype Attempt = Attempt(key: Key, request: Request, stage: Stage)

  /** The history of what reached a handler or came of it. */
  datatype Event =
    | Started(who: int, key: Key, at: int)
    | Returned(who: int, key: Key, request: Request, response: string)
    | Released(who: int, key: Key)
    | Recorded(who: int, key: Key, claimed: int)

  datatype State = State(lease: Lease, clock: int, table: Table, attempts: map<int, Attempt>, history: seq<Event>)

  ghost predicate Initial(s: State) {
    s.table == map[] && s.attempts == map[] && s.history == []
  }

  /** Every statement may fail, and a failed one may have run all the same: ok implies ran. */
  datatype Step =
    | Insert(ok: bool, ran: bool)
    | Takeover(ok: bool, ran: bool)
    | Read(ok: bool)
    | HandlerReturns(response: string, recordable: bool)
    | HandlerErrs
    | Release(ran: bool)
    | Record(ran: bool)
    | Crash

  datatype Action =
    | Arrive(a: int, key: Key, request: Request)
    | Do(a: int, step: Step)
    | Cleanup(tenant: string)
    | Advance(d: nat)

  predicate Owns(stage: Stage) {
    stage.Handling? || stage.Releasing? || stage.Recording?
  }

  /** The documented timing assumption: between its claim and its record or release a live attempt
      takes no longer than the window.  One that does counts as crashed. */
  predicate Live(s: State, a: int) {
    a in s.attempts && Owns(s.attempts[a].stage) && s.clock <= s.attempts[a].stage.since + s.lease.Window()
  }

  predicate Enabled(s: State, act: Action) {
    match act
    case Arrive(a, _, _) => a !in s.attempts
    case Cleanup(_) => true
    case Advance(_) => true
    case Do(a, step) =>
      a in s.attempts &&
      var stage := s.attempts[a].stage;
      match step
      case Insert(ok, ran) => stage.Inserting? && (ok ==> ran)
      case Takeover(ok, ran) => stage.TakingOver? && (ok ==> ran)
      case Read(_) => stage.Reading?
      case HandlerReturns(_, _) => stage.Handling? && Live(s, a)
      case HandlerErrs => stage.Handling? && Live(s, a)
      case Release(_) => stage.Releasing? && Live(s, a)
      case Record(_) => stage.Recording? && Live(s, a)
      case Crash => !stage.Finished?
  }

  /** replay: what an attempt that does not own the key answers from the row it read.  A row gone
      by then was released; the client retries. */
  function Replay(t: Table, k: Key, hash: string): Reply {
    if k !in t then InProgress
    else if t[k].hash != hash then OtherRequest
    else if !t[k].completed then InProgress
    else match t[k].response
      case Some(response) => Replayed(response)
      case None => Unreadable
  }

  function Apply(s: State, act: Action): State
    requires Enabled(s, act)
  {
    match act
    case Arrive(a, k, r) => s.(attempts := s.attempts[a := Attempt(k, r, Inserting)])
    case Cleanup(tenant) => s.(table := CleanUp(s.lease, s.table, tenant, s.clock))
    case Advance(d) => s.(clock := s.clock + d)
    case Do(a, step) => ApplyStep(s, a, step)
  }

  function At(s: State, a: int, stage: Stage): State
    requires a in s.attempts
  {
    s.(attempts := s.attempts[a := s.attempts[a].(stage := stage)])
  }

  function Note(s: State, e: Event): State {
    s.(history := s.history + [e])
  }

  /** The claim succeeded: the handler starts. */
  function Begin(s: State, a: int): State
    requires a in s.attempts
  {
    Note(At(s, a, Handling(s.clock)), Started(a, s.attempts[a].key, s.clock))
  }

  function ApplyStep(s: State, a: int, step: Step): State
    requires Enabled(s, Do(a, step))
  {
    var Attempt(k, r, stage) := s.attempts[a];
    match step
    case Insert(ok, ran) =>
      var s' := s.(table := if ran then InsertRow(s.table, k, Frame(r), s.clock) else s.table);
      if !ok then At(s', a, Finished(Unavailable))
      else if k !in s.table then Begin(s', a)
      else At(s', a, TakingOver)
    case Takeover(ok, ran) =>
      var s' := s.(table := if ran then TakeOver(s.lease, s.table, k, Frame(r), s.clock) else s.table);
      if !ok then At(s', a, Finished(Unavailable))
      else if TakesOver(s.lease, s.table, k, s.clock) then Begin(s', a)
      else At(s', a, Reading)
    case Read(ok) =>
      At(s, a, Finished(if ok then Replay(s.table, k, Frame(r)) else Unavailable))
    case HandlerReturns(response, recordable) =>
      Note(At(s, a, if recordable then Recording(stage.since, response) else Finished(Ran(response))),
           Returned(a, k, r, response))
    case HandlerErrs => At(s, a, Releasing(stage.since))
    case Release(ran) =>
      var s' := At(s, a, Finished(HandlerFailed));
      if ran then Note(s'.(table := ReleaseRow(s.table, k)), Released(a, k)) else s'
    case Record(ran) =>
      var s' := At(s, a, Finished(Ran(stage.response)));
      if ran then Note(s'.(table := RecordRow(s.table, k, stage.response)), Recorded(a, k, stage.since)) else s'
    case Crash => At(s, a, Crashed)
  }

  // ----- Runs -----

  ghost predicate IsRun(s: State, run: seq<Action>)
    decreases |run|
  {
    run != [] ==> Enabled(s, run[0]) && IsRun(Apply(s, run[0]), run[1..])
  }

  ghost function After(s: State, run: seq<Action>): State
    requires IsRun(s, run)
    decreases |run|
  {
    if run == [] then s else After(Apply(s, run[0]), run[1..])
  }
}
