/** The other direction of the idempotency-key lease: what a statement that succeeds achieves, and
    that a recorded response is replayed. */
module IdempotencyReplay {
  import opened Results
  import opened IdempotencyProtocol
  import opened IdempotencySafety
  import opened IdempotencyHistory

  // ----- What each statement answers, in terms of the row -----

  /** The insert that succeeds owns the key exactly if there was no row; a failed one may have
      written its row all the same. */
  lemma InsertAnswers(s: State, a: int, ok: bool, ran: bool)
    requires Enabled(s, Do(a, Insert(ok, ran)))
    ensures var s', at := ApplyStep(s, a, Insert(ok, ran)), s.attempts[a];
            && s'.attempts[a].stage == (if !ok then Finished(Unavailable)
                                        else if at.key in s.table then TakingOver else Handling(s.clock))
            && s'.table == (if ran && at.key !in s.table
                            then s.table[at.key := Row(Frame(at.request), false, None, s.clock)] else s.table)
  {
  }

  /** The takeover that succeeds owns the key exactly if the row was past the TTL, completed or not,
      or in progress past StaleAfter. */
  lemma TakeoverAnswers(s: State, a: int, ok: bool, ran: bool)
    requires Enabled(s, Do(a, Takeover(ok, ran)))
    ensures var s', at := ApplyStep(s, a, Takeover(ok, ran)), s.attempts[a];
            var free := at.key in s.table
                        && (s.table[at.key].created + s.lease.ttl < s.clock
                            || (!s.table[at.key].completed && s.table[at.key].created + s.lease.staleAfter < s.clock));
            && s'.attempts[a].stage == (if !ok then Finished(Unavailable)
                                        else if free then Handling(s.clock) else Reading)
            && s'.table == (if ran && free
                            then s.table[at.key := Row(Frame(at.request), false, None, s.clock)] else s.table)
  {
  }

  /** The read that succeeds answers the row: another request's, or missing or in progress, or its
      response, or one that cannot be read. */
  lemma ReadAnswers(s: State, a: int, response: string)
    requires Enabled(s, Do(a, Read(true)))
    ensures var s', at := ApplyStep(s, a, Read(true)), s.attempts[a];
            var reply := s'.attempts[a].stage.reply;
            var mine := at.key in s.table && s.table[at.key].hash == Frame(at.request);
            && s'.attempts[a].stage.Finished? && s'.table == s.table
            && (reply == OtherRequest <==> at.key in s.table && !mine)
            && (reply == InProgress <==> at.key !in s.table || (mine && !s.table[at.key].completed))
            && (reply == Replayed(response) <==>
                  mine && s.table[at.key].completed && s.table[at.key].response == Some(response))
            && (reply == Unreadable <==> mine && s.table[at.key].completed && s.table[at.key].response == None)
  {
  }

  /** A live attempt's record puts its response on its own row; the handler's answer is the reply. */
  lemma RecordAnswers(s: State, a: int)
    requires Exclusive(s) && Enabled(s, Do(a, Record(true)))
    ensures var s', at := ApplyStep(s, a, Record(true)), s.attempts[a];
            && s'.attempts[a].stage == Finished(Ran(at.stage.response))
            && s'.table == s.table[at.key := Row(Frame(at.request), true, Some(at.stage.response), at.stage.since)]
  {
    assert HoldsLease(s.table, s.attempts[a]);
  }

  /** A live attempt's release frees the key: its row is gone, so the next insert owns it. */
  lemma ReleaseFreesTheKey(s: State, a: int, b: int)
    requires Exclusive(s) && Enabled(s, Do(a, Release(true)))
    ensures var s', k := ApplyStep(s, a, Release(true)), s.attempts[a].key;
            && s'.attempts[a].stage == Finished(HandlerFailed) && k !in s'.table && s'.table == s.table - {k}
            && (Enabled(s', Do(b, Insert(true, true))) && s'.attempts[b].key == k ==>
                  ApplyStep(s', b, Insert(true, true)).attempts[b].stage == Handling(s.clock))
  {
    assert HoldsLease(s.table, s.attempts[a]);
  }

  /** A handler's answer goes on to be recorded, if it can be, and its error to be released. */
  lemma HandlerAnswers(s: State, a: int, response: string, recordable: bool)
    requires Enabled(s, Do(a, HandlerReturns(response, recordable)))
    ensures var at := s.attempts[a];
            && ApplyStep(s, a, HandlerReturns(response, recordable)).attempts[a].stage
               == (if recordable then IdempotencyProtocol.Recording(at.stage.since, response)
                   else Finished(Ran(response)))
            && ApplyStep(s, a, HandlerErrs).attempts[a].stage == Releasing(at.stage.since)
  {
  }

  /** Every outcome is open to the environment: any attempt may arrive with any key and request; a
      statement may fail, having run or not; a live handler may answer, recordably or not, or fail;
      an attempt may crash at any moment before it has answered; and time passes. */
  lemma OutcomesAreOpen(s: State, a: int, k: Key, r: Request, ran: bool, response: string, d: nat)
    ensures Enabled(s, Advance(d)) && Apply(s, Advance(d)).clock == s.clock + d
    ensures a !in s.attempts ==>
              && Enabled(s, Arrive(a, k, r))
              && Apply(s, Arrive(a, k, r)).attempts == s.attempts[a := Attempt(k, r, Inserting)]
    ensures a in s.attempts ==>
              var stage := s.attempts[a].stage;
              && (stage.Inserting? ==> Enabled(s, Do(a, Insert(true, true))) && Enabled(s, Do(a, Insert(false, ran))))
              && (stage.TakingOver? ==>
                    Enabled(s, Do(a, Takeover(true, true))) && Enabled(s, Do(a, Takeover(false, ran))))
              && (stage.Reading? ==> Enabled(s, Do(a, Read(ran))))
              && (stage.Handling? && Live(s, a) ==>
                    Enabled(s, Do(a, HandlerReturns(response, ran))) && Enabled(s, Do(a, HandlerErrs)))
              && (stage.Releasing? && Live(s, a) ==> Enabled(s, Do(a, Release(ran))))
              && (stage.Recording? && Live(s, a) ==> Enabled(s, Do(a, Record(ran))))
              && (!stage.Finished? ==> Enabled(s, Do(a, Crash)) && ApplyStep(s, a, Crash).attempts[a].stage == Crashed)
  {
  }

  // ----- The response on its way is the attempt's own -----

  ghost predicate ReturnedBy(h: seq<Event>, a: int, at: Attempt, response: string) {
    exists i :: 0 <= i < |h| && h[i] == Returned(a, at.key, at.request, response)
  }

  ghost predicate OwnAnswers(s: State) {
    forall a :: a in s.attempts && s.attempts[a].stage.Recording? ==>
      ReturnedBy(s.history, a, s.attempts[a], s.attempts[a].stage.response)
  }

  lemma ReturnedStays(h: seq<Event>, h': seq<Event>)
    requires h <= h'
    ensures forall a, at, response :: ReturnedBy(h, a, at, response) ==> ReturnedBy(h', a, at, response)
  {
    forall a, at, response | ReturnedBy(h, a, at, response) ensures ReturnedBy(h', a, at, response) {
      var i :| 0 <= i < |h| && h[i] == Returned(a, at.key, at.request, response);
      assert h'[i] == h[i];
    }
  }

  /** Only a handler's answer starts a recording. */
  lemma RecordingBefore(s: State, act: Action)
    requires Enabled(s, act)
    ensures var s' := Apply(s, act);
            && s.history <= s'.history
            && forall a :: a in s'.attempts && s'.attempts[a].stage.Recording? ==>
                 (a in s.attempts && s'.attempts[a] == s.attempts[a])
                 || (s'.history != [] && s'.history[|s'.history| - 1]
                       == Returned(a, s'.attempts[a].key, s'.attempts[a].request, s'.attempts[a].stage.response))
  {
  }

  lemma {:induction false} RunKeepsOwnAnswers(s: State, run: seq<Action>)
    requires OwnAnswers(s) && IsRun(s, run)
    ensures OwnAnswers(After(s, run))
    decreases |run|
  {
    if run != [] {
      var s' := Apply(s, run[0]);
      RecordingBefore(s, run[0]);
      ReturnedStays(s.history, s'.history);
      forall a | a in s'.attempts && s'.attempts[a].stage.Recording?
        ensures ReturnedBy(s'.history, a, s'.attempts[a], s'.attempts[a].stage.response)
      {
        if a in s.attempts && s'.attempts[a] == s.attempts[a] {
          assert ReturnedBy(s.history, a, s.attempts[a], s.attempts[a].stage.response);
        }
      }
      RunKeepsOwnAnswers(s', run[1..]);
    }
  }

  // ----- A completed row stands for its TTL -----

  lemma CompletedRowStands(s: State, act: Action, k: Key)
    requires Exclusive(s) && Enabled(s, act) && k in s.table && s.table[k].completed
    ensures var s' := Apply(s, act);
            (k in s'.table && s'.table[k] == s.table[k]) || s.table[k].created + s.lease.ttl < s'.clock
  {
    if act.Do? && (act.step.Record? || act.step.Release?) {
      assert HoldsLease(s.table, s.attempts[act.a]);
    }
  }

  lemma {:induction false} ClockOnlyMovesOn(s: State, run: seq<Action>)
    requires IsRun(s, run)
    ensures s.clock <= After(s, run).clock && After(s, run).lease == s.lease
    decreases |run|
  {
    if run != [] {
      ClockOnlyMovesOn(Apply(s, run[0]), run[1..]);
    }
  }

  // ----- Replay -----

  /** Every statement of the attempt's own in the run succeeds. */
  predicate AllSucceed(run: seq<Action>, a: int) {
    forall act :: act in run && act.Do? && act.a == a ==>
      act.step == Insert(true, true) || act.step == Takeover(true, true) || act.step == Read(true)
  }

  /** The row is completed, and the attempt, if it is for its key and hash, is on its way to its
      response. */
  ghost predicate OnItsWay(s: State, a: int, k: Key, row: Row) {
    && Inv(s) && k in s.table && s.table[k] == row && row.completed && row.response.Some?
    && (a in s.attempts && s.attempts[a].key == k && Frame(s.attempts[a].request) == row.hash ==>
          var stage := s.attempts[a].stage;
          stage.Inserting? || stage.TakingOver? || stage.Reading? || stage == Finished(Replayed(row.response.value)))
  }

  lemma OneMoreOnItsWay(s: State, act: Action, a: int, k: Key, row: Row)
    requires OnItsWay(s, a, k, row) && Enabled(s, act) && AllSucceed([act], a)
    requires Apply(s, act).clock <= row.created + s.lease.ttl
    ensures OnItsWay(Apply(s, act), a, k, row)
  {
    StepKeepsInv(s, act);
    CompletedRowStands(s, act, k);
    assert act in [act];
    if act.Do? && act.a == a {
      OwnStepStays(s, act.step, a, k, row);
    } else {
      assert a in s.attempts ==> Apply(s, act).attempts[a] == s.attempts[a];
    }
  }

  lemma OwnStepStays(s: State, step: Step, a: int, k: Key, row: Row)
    requires OnItsWay(s, a, k, row) && Enabled(s, Do(a, step)) && s.clock <= row.created + s.lease.ttl
    requires step == Insert(true, true) || step == Takeover(true, true) || step == Read(true)
    ensures var at := ApplyStep(s, a, step).attempts[a];
            at.key == k && Frame(at.request) == row.hash ==>
              at.stage.TakingOver? || at.stage.Reading? || at.stage == Finished(Replayed(row.response.value))
  {
  }

  lemma {:induction false} RunStaysOnItsWay(s: State, run: seq<Action>, a: int, k: Key, row: Row)
    requires OnItsWay(s, a, k, row) && IsRun(s, run) && AllSucceed(run, a)
    requires After(s, run).clock <= row.created + s.lease.ttl
    ensures OnItsWay(After(s, run), a, k, row)
    decreases |run|
  {
    if run != [] {
      var s' := Apply(s, run[0]);
      ClockOnlyMovesOn(s', run[1..]);
      assert run[0] in run && forall act :: act in run[1..] ==> act in run;
      OneMoreOnItsWay(s, run[0], a, k, row);
      RunStaysOnItsWay(s', run[1..], a, k, row);
    }
  }

  /** A recorded response is replayed.  In any run in which an attempt records its response, whatever
      happens next until the TTL of its claim is over: another attempt that brings the same key and
      the same request, and whose statements succeed, answers exactly that response, the one the
      first attempt's own handler returned, without running a handler. */
  lemma RecordedIsReplayed(s: State, run: seq<Action>, b: int, more: seq<Action>, a: int)
    requires Initial(s) && IsRun(s, run) && Enabled(After(s, run), Do(b, Record(true)))
    requires var u := Apply(After(s, run), Do(b, Record(true)));
             && IsRun(u, more) && AllSucceed(more, a)
             && (a !in u.attempts || u.attempts[a].stage.Inserting?)
    requires var r := After(s, run); var w := After(Apply(r, Do(b, Record(true))), more);
             && w.clock <= r.attempts[b].stage.since + s.lease.ttl
             && a in w.attempts && w.attempts[a].key == r.attempts[b].key
             && w.attempts[a].request == r.attempts[b].request
             && w.attempts[a].stage.Finished?
    ensures var r := After(s, run); var at := r.attempts[b]; var w := After(Apply(r, Do(b, Record(true))), more);
            && w.attempts[a].stage == Finished(Replayed(at.stage.response))
            && exists i :: 0 <= i < |r.history| && r.history[i] == Returned(b, at.key, at.request, at.stage.response)
  {
    var r := After(s, run);
    var at := r.attempts[b];
    var u := Apply(r, Do(b, Record(true)));
    RunKeepsInv(s, run);
    RunKeepsOwnAnswers(s, run);
    assert ReturnedBy(r.history, b, at, at.stage.response);
    StepKeepsInv(r, Do(b, Record(true)));
    RecordAnswers(r, b);
    ClockOnlyMovesOn(s, run);
    ClockOnlyMovesOn(u, more);
    RunStaysOnItsWay(u, more, a, at.key, Row(Frame(at.request), true, Some(at.stage.response), at.stage.since));
  }
}
