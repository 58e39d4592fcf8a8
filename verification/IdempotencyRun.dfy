/** run, claim and Cleanup of idempotency/idempotency.go in the shape of the source: each statement
    a step of the lease, with any steps of other attempts in between. */
module IdempotencyRun {
  import opened Results
  import opened IdempotencyProtocol
  import opened IdempotencySafety
  import opened IdempotencyHistory

  lemma {:induction false} RunThen(s: State, run: seq<Action>, more: seq<Action>)
    requires IsRun(s, run) && IsRun(After(s, run), more)
    ensures IsRun(s, run + more) && After(s, run + more) == After(After(s, run), more)
    decreases |run|
  {
    if run == [] {
      assert run + more == more;
    } else {
      RunThen(Apply(s, run[0]), run[1..], more);
      assert (run + more)[0] == run[0] && (run + more)[1..] == run[1..] + more;
    }
  }

  predicate By(act: Action, a: int) {
    (act.Do? || act.Arrive?) && act.a == a
  }

  lemma {:induction false} OthersLeaveAttempt(s: State, more: seq<Action>, a: int)
    requires IsRun(s, more) && forall act :: act in more ==> !By(act, a)
    ensures (a in After(s, more).attempts <==> a in s.attempts)
    ensures a in s.attempts ==> After(s, more).attempts[a] == s.attempts[a]
    ensures s.clock <= After(s, more).clock && After(s, more).lease == s.lease
    decreases |more|
  {
    if more != [] {
      assert more[0] in more && forall act :: act in more[1..] ==> act in more;
      OthersLeaveAttempt(Apply(s, more[0]), more[1..], a);
    }
  }

  /** What a reply that came without running a handler says of the row it was read from: it was used
      for another request; or is missing or not completed; or holds the response replayed; or holds
      none that can be read. */
  predicate Tells(t: Table, k: Key, hash: string, reply: Reply) {
    match reply
    case OtherRequest => k in t && t[k].hash != hash
    case InProgress => k !in t || (t[k].hash == hash && !t[k].completed)
    case Replayed(response) => k in t && t[k].hash == hash && t[k].completed && t[k].response == Some(response)
    case Unreadable => k in t && t[k].hash == hash && t[k].completed && t[k].response == None
    case _ => false
  }

  /** The key store and everyone using it. */
  class Store {
    ghost const start: State
    ghost var run: seq<Action>
    var s: State

    ghost predicate Valid()
      reads this
    {
      Initial(start) && IsRun(start, run) && s == After(start, run)
    }

    constructor (lease: Lease, clock: int)
      ensures Valid() && s == State(lease, clock, map[], map[], [])
    {
      start, run, s := State(lease, clock, map[], map[], []), [], State(lease, clock, map[], map[], []);
    }

    method Step(act: Action)
      requires Valid() && Enabled(s, act)
      modifies this
      ensures Valid() && s == Apply(old(s), act) && run == old(run) + [act] && Took(act, old(s))
    {
      assert (run + [act])[..|run|] == run && (run + [act])[|run|] == act;
      assert IsRun(s, [act]) && After(s, [act]) == Apply(s, act) by {
        assert [act][1..] == [];
        assert IsRun(Apply(s, act), []) && After(Apply(s, act), []) == Apply(s, act);
      }
      RunThen(start, run, [act]);
      s := Apply(s, act);
      run := run + [act];
    }

    /** Any steps of anyone but attempt a, for any time.  Doing nothing is one of them; callers know
        no more than the contract. */
    method Others(a: int) returns (ghost more: seq<Action>)
      requires Valid()
      modifies this
      ensures Valid() && run == old(run) + more && IsRun(old(s), more) && s == After(old(s), more)
      ensures forall act :: act in more ==> !By(act, a)
    {
      more := [];
      assert run + more == run;
    }

    /** The run took the attempt's step from the state `seen`. */
    ghost predicate Took(act: Action, seen: State)
      reads this
    {
      exists i :: 0 <= i < |run| && run[i] == act && IsRun(start, run[..i]) && After(start, run[..i]) == seen
    }

    method Preempt(a: int)
      requires Valid()
      modifies this
      ensures Valid() && s.lease == old(s.lease) && old(s.clock) <= s.clock
      ensures (a in s.attempts <==> a in old(s.attempts)) && (a in s.attempts ==> s.attempts[a] == old(s.attempts)[a])
    {
      var more := Others(a);
      OthersLeaveAttempt(old(s), more, a);
    }

    ghost predicate InStage(a: int, k: Key, r: Request, stage: Stage)
      reads this
    {
      Valid() && a in s.attempts && s.attempts[a] == Attempt(k, r, stage)
    }

    method Statement() returns (ok: bool, ran: bool)
      ensures ok ==> ran
    {
      ok := *;
      ran := *;
      if ok {
        ran := true;
      }
    }

    /** Takes the key, or answers what holds it: insert, then the timed takeover, then a read. */
    method Claim(a: int, k: Key, r: Request) returns (owned: bool, ghost seen: State)
      requires InStage(a, k, r, Inserting)
      modifies this
      ensures Valid() && a in s.attempts && s.attempts[a].key == k && s.attempts[a].request == r
      ensures owned ==> s.attempts[a].stage == Handling(s.clock) && HoldsLease(s.table, s.attempts[a])
      ensures !owned ==> s.attempts[a].stage.Finished? && !HasRun(s.attempts[a].stage)
      ensures !owned && !s.attempts[a].stage.reply.Unavailable? ==>
                Took(Do(a, Read(true)), seen) && Tells(seen.table, k, Frame(r), s.attempts[a].stage.reply)
    {
      seen := s;
      Preempt(a);
      var ok, ran := Statement();
      Step(Do(a, Insert(ok, ran)));
      if !s.attempts[a].stage.TakingOver? {
        return s.attempts[a].stage.Handling?, seen;
      }
      Preempt(a);
      ok, ran := Statement();
      Step(Do(a, Takeover(ok, ran)));
      if !s.attempts[a].stage.Reading? {
        return s.attempts[a].stage.Handling?, seen;
      }
      owned := false;
      seen := ReadRow(a, k, r);
    }

    /** The row that holds the key answers, if it can be read. */
    method ReadRow(a: int, k: Key, r: Request) returns (ghost seen: State)
      requires InStage(a, k, r, Reading)
      modifies this
      ensures Valid() && a in s.attempts && s.attempts[a].key == k && s.attempts[a].request == r
      ensures s.attempts[a].stage.Finished? && !HasRun(s.attempts[a].stage)
      ensures !s.attempts[a].stage.reply.Unavailable? ==>
                Took(Do(a, Read(true)), seen) && Tells(seen.table, k, Frame(r), s.attempts[a].stage.reply)
    {
      Preempt(a);
      seen := s;
      var ok: bool := *;
      Step(Do(a, Read(ok)));
    }

    /** One write with a key.  The attempt answers a refusal, a replay or Unavailable without
        touching a handler; otherwise it runs the handler once and records or releases the key, if
        it does so within the window of its claim; if not it counts as crashed. */
    method RunKey(a: int, k: Key, r: Request) returns (reply: Option<Reply>, ghost seen: State)
      requires Valid() && a !in s.attempts
      modifies this
      ensures Valid() && a in s.attempts && s.attempts[a].key == k && s.attempts[a].request == r
      ensures match reply
              case Some(x) => s.attempts[a].stage == Finished(x)
                              && (DidStart(s.history, a) <==> x.Ran? || x.HandlerFailed?)
                              && (x.Replayed? ==> Answered(s.history, k, Frame(r), x.response))
              case None => s.attempts[a].stage.Crashed?
      ensures reply.Some? && !reply.value.Ran? && !reply.value.HandlerFailed? && !reply.value.Unavailable? ==>
                Took(Do(a, Read(true)), seen) && Tells(seen.table, k, Frame(r), reply.value)
    {
      Step(Arrive(a, k, r));
      var owned;
      owned, seen := Claim(a, k, r);
      if !owned {
        reply := Some(s.attempts[a].stage.reply);
        Answers(a);
        return;
      }
      var onTime := Handle(a, k, r);
      if !onTime {
        Step(Do(a, Crash));
        return None, seen;
      }
      if s.attempts[a].stage.Finished? {
        reply := Some(s.attempts[a].stage.reply);
        Answers(a);
        return;
      }
      Preempt(a);
      if s.attempts[a].stage.since + s.lease.Window() < s.clock {
        Step(Do(a, Crash));
        return None, seen;
      }
      var ran: bool := *;
      if s.attempts[a].stage.Releasing? {
        Step(Do(a, Release(ran)));
      } else {
        Step(Do(a, Record(ran)));
      }
      reply := Some(s.attempts[a].stage.reply);
      Answers(a);
    }

    /** The handler: a response, possibly one that cannot be recorded, or an error. */
    method Handle(a: int, k: Key, r: Request) returns (onTime: bool)
      requires Valid() && a in s.attempts && s.attempts[a].key == k && s.attempts[a].request == r
                && s.attempts[a].stage.Handling?
      modifies this
      ensures Valid() && a in s.attempts && s.attempts[a].key == k && s.attempts[a].request == r
      ensures !onTime ==> s.attempts[a].stage.Handling?
      ensures onTime ==> (Live(s, a) && !s.attempts[a].stage.Handling?)
                         || (s.attempts[a].stage.Finished? && s.attempts[a].stage.reply.Ran?)
    {
      Preempt(a);
      onTime := s.clock <= s.attempts[a].stage.since + s.lease.Window();
      if onTime {
        var failed: bool, response: string, recordable: bool := *, *, *;
        if failed {
          Step(Do(a, HandlerErrs));
        } else {
          Step(Do(a, HandlerReturns(response, recordable)));
        }
      }
    }

    lemma Answers(a: int)
      requires Valid() && a in s.attempts && s.attempts[a].stage.Finished?
      ensures var reply := s.attempts[a].stage.reply;
              && (DidStart(s.history, a) <==> reply.Ran? || reply.HandlerFailed?)
              && (reply.Replayed? ==>
                    Answered(s.history, s.attempts[a].key, Frame(s.attempts[a].request), reply.response))
    {
      HandlerRunsForOwnersOnly(start, run, a);
      RunKeepsInv(start, run);
      if s.attempts[a].stage.reply.Replayed? {
        assert Speaks(s.attempts[a].stage, s.attempts[a].stage.reply.response);
      }
    }

    /** Deletes one tenant's keys past the TTL; no live claimant loses its row. */
    method CleanupTenant(tenant: string)
      requires Valid()
      modifies this
      ensures Valid() && s.attempts == old(s.attempts) && s.history == old(s.history)
      ensures s.clock == old(s.clock) && s.lease == old(s.lease)
      ensures forall k :: k in s.table ==> k in old(s.table) && s.table[k] == old(s.table)[k]
      ensures forall k :: k in old(s.table) ==>
                (k in s.table <==> !(k.tenant == tenant && old(s.table)[k].created < s.clock - s.lease.ttl))
      ensures forall b :: Live(s, b) ==> HoldsLease(s.table, s.attempts[b])
    {
      RunKeepsInv(start, run);
      StepKeepsInv(s, Cleanup(tenant));
      Step(Cleanup(tenant));
    }
  }
}
