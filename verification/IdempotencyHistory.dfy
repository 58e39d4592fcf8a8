/** Whole runs of the idempotency-key lease: which responses a replay can give, how far apart two
    handler starts for one key are, and which attempts reach a handler at all. */
module IdempotencyHistory {
  import opened Results
  import opened IdempotencyProtocol
  import opened IdempotencySafety

  // ----- Replay fidelity -----

  /** Some handler run under this key, for a request with this hash, returned the response. */
  ghost predicate Answered(h: seq<Event>, k: Key, hash: string, response: string) {
    exists i :: 0 <= i < |h| && h[i].Returned? && h[i].key == k && Frame(h[i].request) == hash
        && h[i].response == response
  }

  lemma AnsweredStays(h: seq<Event>, e: Event, k: Key, hash: string, response: string)
    requires Answered(h, k, hash, response)
    ensures Answered(h + [e], k, hash, response)
  {
    var i :| 0 <= i < |h| && h[i].Returned? && h[i].key == k && Frame(h[i].request) == hash
        && h[i].response == response;
    assert (h + [e])[i] == h[i];
  }

  ghost predicate RowsAnswered(s: State) {
    forall k :: k in s.table && s.table[k].completed ==>
      s.table[k].response.Some? && Answered(s.history, k, s.table[k].hash, s.table[k].response.value)
  }

  predicate Speaks(stage: Stage, response: string) {
    match stage
    case Recording(_, r) => r == response
    case Finished(Ran(r)) => r == response
    case Finished(Replayed(r)) => r == response
    case _ => false
  }

  /** Every response on record or on its way out was returned by a handler for just that key and
      hash. */
  ghost predicate Faithful(s: State) {
    && RowsAnswered(s)
    && forall a, response :: a in s.attempts && Speaks(s.attempts[a].stage, response) ==>
         Answered(s.history, s.attempts[a].key, Frame(s.attempts[a].request), response)
  }

  lemma FaithfulWithEvent(s: State, e: Event)
    requires Faithful(s)
    ensures Faithful(Note(s, e))
  {
    forall k, hash, response | Answered(s.history, k, hash, response)
      ensures Answered(s.history + [e], k, hash, response)
    {
      AnsweredStays(s.history, e, k, hash, response);
    }
  }

  /** Without exclusion a late record could put its response on another request's row. */
  lemma RecordKeepsFaithful(s: State, a: int, ran: bool)
    requires Exclusive(s) && Faithful(s) && Enabled(s, Do(a, Record(ran)))
    ensures Faithful(ApplyStep(s, a, Record(ran)))
  {
    var at := s.attempts[a];
    assert HoldsLease(s.table, at);
    assert Speaks(at.stage, at.stage.response);
    var s' := At(s, a, Finished(Ran(at.stage.response)));
    assert Faithful(s');
    if ran {
      var s'' := s'.(table := RecordRow(s.table, at.key, at.stage.response));
      assert Faithful(s'');
      FaithfulWithEvent(s'', Recorded(a, at.key, at.stage.since));
    }
  }

  lemma ReturnKeepsFaithful(s: State, a: int, response: string, recordable: bool)
    requires Faithful(s) && Enabled(s, Do(a, HandlerReturns(response, recordable)))
    ensures Faithful(ApplyStep(s, a, HandlerReturns(response, recordable)))
  {
    var at, s' := s.attempts[a], ApplyStep(s, a, HandlerReturns(response, recordable));
    var e := Returned(a, at.key, at.request, response);
    forall k, hash, r | Answered(s.history, k, hash, r) ensures Answered(s'.history, k, hash, r) {
      AnsweredStays(s.history, e, k, hash, r);
    }
    assert s'.history[|s.history|] == e;
  }

  lemma ClaimKeepsFaithful(s: State, a: int, step: Step)
    requires Faithful(s) && (step.Insert? || step.Takeover?) && Enabled(s, Do(a, step))
    ensures Faithful(ApplyStep(s, a, step))
  {
    var s', at := ApplyStep(s, a, step), s.attempts[a];
    forall k, hash, r | Answered(s.history, k, hash, r) ensures Answered(s'.history, k, hash, r) {
      AnsweredStays(s.history, Started(a, at.key, s.clock), k, hash, r);
    }
  }

  lemma StepKeepsFaithful(s: State, act: Action)
    requires Exclusive(s) && Faithful(s) && Enabled(s, act)
    ensures Faithful(Apply(s, act))
  {
    if act.Do? {
      match act.step
      case Insert(_, _) => ClaimKeepsFaithful(s, act.a, act.step);
      case Takeover(_, _) => ClaimKeepsFaithful(s, act.a, act.step);
      case HandlerReturns(response, recordable) => ReturnKeepsFaithful(s, act.a, response, recordable);
      case Record(ran) => RecordKeepsFaithful(s, act.a, ran);
      case Release(ran) =>
        var at := s.attempts[act.a];
        var s' := At(s, act.a, Finished(HandlerFailed)).(table := ReleaseRow(s.table, at.key));
        assert Faithful(s');
        FaithfulWithEvent(s', Released(act.a, at.key));
      case _ =>
    }
  }

  // ----- Who reaches a handler -----

  predicate HasRun(stage: Stage) {
    Owns(stage) || stage.Crashed? || (stage.Finished? && (stage.reply.Ran? || stage.reply.HandlerFailed?))
  }

  predicate MustHaveRun(stage: Stage) {
    Owns(stage) || (stage.Finished? && (stage.reply.Ran? || stage.reply.HandlerFailed?))
  }

  ghost predicate DidStart(h: seq<Event>, a: int) {
    exists i :: 0 <= i < |h| && h[i].Started? && h[i].who == a
  }

  /** A handler starts at most once per attempt, and only for attempts that then own the key. */
  ghost predicate StartsMatch(s: State) {
    && (forall i :: 0 <= i < |s.history| && s.history[i].Started? ==>
          s.history[i].who in s.attempts && HasRun(s.attempts[s.history[i].who].stage))
    && (forall i, j :: 0 <= i < j < |s.history| && s.history[i].Started? && s.history[j].Started? ==>
          s.history[i].who != s.history[j].who)
    && (forall a :: a in s.attempts && MustHaveRun(s.attempts[a].stage) ==> DidStart(s.history, a))
  }

  /** The step claims the key: its history entry is a start. */
  predicate Claims(s: State, act: Action)
    requires Enabled(s, act)
  {
    act.Do? &&
    var k := s.attempts[act.a].key;
    || (act.step.Insert? && act.step.ok && k !in s.table)
    || (act.step.Takeover? && act.step.ok && TakesOver(s.lease, s.table, k, s.clock))
  }

  lemma ClaimEffect(s: State, act: Action)
    requires Enabled(s, act) && Claims(s, act)
    ensures var s', at := Apply(s, act), s.attempts[act.a];
            && s'.history == s.history + [Started(act.a, at.key, s.clock)]
            && s'.attempts == s.attempts[act.a := at.(stage := Handling(s.clock))]
            && !HasRun(at.stage) && s'.clock == s.clock && s'.lease == s.lease
            && s'.table == s.table[at.key := Row(Frame(at.request), false, None, s.clock)]
  {
  }

  lemma OtherEffect(s: State, act: Action)
    requires Enabled(s, act) && !Claims(s, act)
    ensures var s' := Apply(s, act);
            || s'.history == s.history
            || (|s'.history| == |s.history| + 1 && s.history <= s'.history && !s'.history[|s.history|].Started?)
  {
  }

  lemma StayStarted(h: seq<Event>, h': seq<Event>)
    requires h <= h'
    ensures forall a :: DidStart(h, a) ==> DidStart(h', a)
  {
    forall a | DidStart(h, a) ensures DidStart(h', a) {
      var i :| 0 <= i < |h| && h[i].Started? && h[i].who == a;
      assert h'[i] == h[i];
    }
  }

  lemma NothingStarted(s: State, s': State)
    requires StartsMatch(s)
    requires || s'.history == s.history
             || (|s'.history| == |s.history| + 1 && s.history <= s'.history && !s'.history[|s.history|].Started?)
    requires forall a :: a in s.attempts && HasRun(s.attempts[a].stage) ==>
              a in s'.attempts && HasRun(s'.attempts[a].stage)
    requires forall a :: a in s'.attempts && MustHaveRun(s'.attempts[a].stage) ==>
               a in s.attempts && MustHaveRun(s.attempts[a].stage)
    ensures StartsMatch(s')
  {
    StayStarted(s.history, s'.history);
  }

  lemma StepKeepsStartsMatch(s: State, act: Action)
    requires StartsMatch(s) && Enabled(s, act)
    ensures StartsMatch(Apply(s, act))
  {
    var s' := Apply(s, act);
    if Claims(s, act) {
      ClaimEffect(s, act);
      StayStarted(s.history, s'.history);
      assert s'.history[|s.history|].Started?;
    } else {
      OtherEffect(s, act);
      RunStaysRun(s, act);
      MustHaveRunBefore(s, act);
      NothingStarted(s, s');
    }
  }

  // ----- Handler spacing -----

  predicate StartedFor(h: seq<Event>, i: int, k: Key) {
    0 <= i < |h| && h[i].Started? && h[i].key == k
  }

  ghost predicate ReleasedBetween(h: seq<Event>, i: int, j: int, k: Key) {
    exists m :: i < m < j && 0 <= m < |h| && h[m].Released? && h[m].key == k
  }

  lemma ReleasedStays(h: seq<Event>, h': seq<Event>, i: int, j: int, k: Key)
    requires h <= h' && ReleasedBetween(h, i, j, k)
    ensures forall j' :: j <= j' ==> ReleasedBetween(h', i, j', k)
  {
    var m :| i < m < j && 0 <= m < |h| && h[m].Released? && h[m].key == k;
    assert h'[m] == h[m];
  }

  /** What a handler start leaves behind for the next one to run into. */
  ghost predicate Lingers(s: State, i: int, k: Key)
    requires StartedFor(s.history, i, k)
  {
    || ReleasedBetween(s.history, i, |s.history|, k)
    || (k in s.table && s.history[i].at <= s.table[k].created)
    || s.history[i].at + s.lease.ttl < s.clock
  }

  ghost predicate StartsLinger(s: State) {
    forall i, k :: StartedFor(s.history, i, k) ==> Lingers(s, i, k)
  }

  ghost predicate Spaced(h: seq<Event>, l: Lease, i: int, j: int, k: Key)
    requires StartedFor(h, i, k) && StartedFor(h, j, k)
  {
    ReleasedBetween(h, i, j, k) || h[i].at + l.Window() < h[j].at
  }

  ghost predicate StartsSpaced(s: State) {
    forall i, j, k :: i < j && StartedFor(s.history, i, k) && StartedFor(s.history, j, k) ==>
        Spaced(s.history, s.lease, i, j, k)
  }

  lemma ClaimKeepsSpacing(s: State, act: Action)
    requires Exclusive(s) && StartsLinger(s) && StartsSpaced(s) && Enabled(s, act) && Claims(s, act)
    ensures StartsLinger(Apply(s, act)) && StartsSpaced(Apply(s, act))
  {
    ClaimEffect(s, act);
    var s', n := Apply(s, act), |s.history|;
    forall i, k | StartedFor(s'.history, i, k) ensures Lingers(s', i, k) {
      if i < n {
        assert StartedFor(s.history, i, k) && Lingers(s, i, k);
        if ReleasedBetween(s.history, i, n, k) {
          ReleasedStays(s.history, s'.history, i, n, k);
        }
      }
    }
    forall i, j, k | i < j && StartedFor(s'.history, i, k) && StartedFor(s'.history, j, k)
      ensures Spaced(s'.history, s'.lease, i, j, k)
    {
      assert StartedFor(s.history, i, k) && Lingers(s, i, k);
      if j < n {
        assert StartedFor(s.history, j, k) && Spaced(s.history, s.lease, i, j, k);
        if ReleasedBetween(s.history, i, j, k) {
          ReleasedStays(s.history, s'.history, i, j, k);
        }
      } else if ReleasedBetween(s.history, i, n, k) {
        ReleasedStays(s.history, s'.history, i, n, k);
      }
    }
  }

  /** A row goes away only by a release, which the history notes, or after its TTL; its claim time
      never goes back. */
  lemma RowsOnlyGetYounger(s: State, act: Action, k: Key)
    requires Exclusive(s) && Enabled(s, act) && k in s.table
    ensures var s' := Apply(s, act);
            || (k in s'.table && s.table[k].created <= s'.table[k].created)
            || s.table[k].created + s.lease.ttl < s'.clock
            || (|s'.history| == |s.history| + 1 && s'.history[|s.history|].Released?
                 && s'.history[|s.history|].key == k)
  {
  }

  lemma OtherKeepsSpacing(s: State, act: Action)
    requires Exclusive(s) && StartsLinger(s) && StartsSpaced(s) && Enabled(s, act) && !Claims(s, act)
    ensures StartsLinger(Apply(s, act)) && StartsSpaced(Apply(s, act))
  {
    OtherEffect(s, act);
    var s', n := Apply(s, act), |s.history|;
    forall i, k | StartedFor(s'.history, i, k) ensures StartedFor(s.history, i, k) && Lingers(s', i, k) {
      assert StartedFor(s.history, i, k) && Lingers(s, i, k);
      if ReleasedBetween(s.history, i, n, k) {
        ReleasedStays(s.history, s'.history, i, n, k);
      } else if k in s.table {
        RowsOnlyGetYounger(s, act, k);
      }
    }
    forall i, j, k | i < j && StartedFor(s'.history, i, k) && StartedFor(s'.history, j, k)
      ensures Spaced(s'.history, s'.lease, i, j, k)
    {
      assert StartedFor(s.history, i, k) && StartedFor(s.history, j, k) && Spaced(s.history, s.lease, i, j, k);
      if ReleasedBetween(s.history, i, j, k) {
        ReleasedStays(s.history, s'.history, i, j, k);
      }
    }
  }

  // ----- Spacing after a recorded response -----

  predicate RecordedBy(h: seq<Event>, m: int, a: int) {
    0 <= m < |h| && h[m].Recorded? && h[m].who == a
  }

  /** A recorded response stays on its row for the TTL. */
  ghost predicate RecordsLinger(s: State) {
    forall m, a :: RecordedBy(s.history, m, a) ==>
      var e := s.history[m];
      || (e.key in s.table && s.table[e.key].completed && s.table[e.key].created == e.claimed)
      || e.claimed + s.lease.ttl < s.clock
  }

  /** A record belongs to its attempt's start. */
  ghost predicate RecordsMatch(s: State) {
    && (forall m, a :: RecordedBy(s.history, m, a) ==> a in s.attempts && HasRun(s.attempts[a].stage))
    && forall i, k, m, a :: StartedFor(s.history, i, k) && RecordedBy(s.history, m, a) && s.history[i].who == a ==>
      s.history[m].key == k && s.history[m].claimed == s.history[i].at
  }

  /** The attempt's own start, if it had one, is its key's last. */
  ghost predicate LastStart(s: State, a: int)
    requires a in s.attempts && Owns(s.attempts[a].stage)
  {
    forall i, k :: StartedFor(s.history, i, k) && s.history[i].who == a ==>
      && k == s.attempts[a].key && s.history[i].at == s.attempts[a].stage.since
      && forall j :: i < j ==> !StartedFor(s.history, j, k)
  }

  ghost predicate LiveStartedLast(s: State) {
    forall a :: Live(s, a) ==> LastStart(s, a)
  }

  ghost predicate RecordsSpaced(s: State) {
    forall i, j, k, m, a :: i < j && StartedFor(s.history, i, k) && StartedFor(s.history, j, k)
      && RecordedBy(s.history, m, a) && s.history[i].who == a
      ==> s.history[i].at + s.lease.ttl < s.history[j].at
  }

  ghost predicate Recording(s: State) {
    RecordsLinger(s) && RecordsMatch(s) && LiveStartedLast(s) && RecordsSpaced(s)
  }

  lemma ClaimKeepsRecords(s: State, act: Action)
    requires Exclusive(s) && StartsMatch(s) && Recording(s) && Enabled(s, act) && Claims(s, act)
    ensures Recording(Apply(s, act))
  {
    ClaimEffect(s, act);
    var s', n := Apply(s, act), |s.history|;
    assert forall m, a :: RecordedBy(s'.history, m, a) ==> RecordedBy(s.history, m, a);
    assert forall i, k :: StartedFor(s'.history, i, k) ==> i == n || StartedFor(s.history, i, k);
    forall b | Live(s', b) && b != act.a ensures LastStart(s', b) {
      assert Live(s, b) && LastStart(s, b) && HoldsLease(s.table, s.attempts[b]);
    }
  }

  lemma RecordKeepsRecords(s: State, a: int)
    requires Exclusive(s) && StartsMatch(s) && Recording(s) && Enabled(s, Do(a, Record(true)))
    ensures Recording(ApplyStep(s, a, Record(true)))
  {
    var s', at, n := ApplyStep(s, a, Record(true)), s.attempts[a], |s.history|;
    assert HoldsLease(s.table, at) && LastStart(s, a);
    assert forall m, b :: RecordedBy(s'.history, m, b) ==> RecordedBy(s.history, m, b) || (m == n && b == a);
    assert forall i, k :: StartedFor(s'.history, i, k) ==> StartedFor(s.history, i, k);
    forall b | Live(s', b) ensures LastStart(s', b) {
      assert Live(s, b) && LastStart(s, b);
    }
  }

  /** Any other step leaves recorded rows alone until their TTL is over. */
  lemma CompletedRowsStay(s: State, act: Action, k: Key, since: int)
    requires Exclusive(s) && Enabled(s, act) && !Claims(s, act)
    requires k in s.table && s.table[k].completed && s.table[k].created == since
    ensures var s' := Apply(s, act);
            || (k in s'.table && s'.table[k].completed && s'.table[k].created == since)
            || since + s.lease.ttl < s'.clock
  {
  }

  /** The starts and records of h' were in h already. */
  ghost predicate NothingNew(h: seq<Event>, h': seq<Event>) {
    && (forall m, b :: RecordedBy(h', m, b) ==> RecordedBy(h, m, b) && h'[m] == h[m])
    && (forall i, k :: StartedFor(h', i, k) ==> StartedFor(h, i, k) && h'[i] == h[i])
  }

  lemma OthersAddNothing(s: State, act: Action)
    requires Enabled(s, act) && !Claims(s, act) && !(act.Do? && act.step == Record(true))
    ensures NothingNew(s.history, Apply(s, act).history) && Apply(s, act).lease == s.lease
  {
    OtherEffect(s, act);
  }

  lemma RecordsStillMatch(s: State, s': State)
    requires RecordsMatch(s) && RecordsSpaced(s) && NothingNew(s.history, s'.history) && s'.lease == s.lease
    requires forall a :: a in s.attempts && HasRun(s.attempts[a].stage) ==>
              a in s'.attempts && HasRun(s'.attempts[a].stage)
    ensures RecordsMatch(s') && RecordsSpaced(s')
  {
  }

  lemma RecordsStillLinger(s: State, act: Action)
    requires Exclusive(s) && RecordsLinger(s) && Enabled(s, act) && NothingNew(s.history, Apply(s, act).history)
    requires !(act.Do? && act.step == Record(true)) && !Claims(s, act)
    ensures RecordsLinger(Apply(s, act))
  {
    var s' := Apply(s, act);
    forall m, b | RecordedBy(s'.history, m, b)
      ensures var e := s'.history[m];
              || (e.key in s'.table && s'.table[e.key].completed && s'.table[e.key].created == e.claimed)
              || e.claimed + s'.lease.ttl < s'.clock
    {
      var e := s.history[m];
      assert RecordedBy(s.history, m, b);
      if e.key in s.table && s.table[e.key].completed && s.table[e.key].created == e.claimed {
        CompletedRowsStay(s, act, e.key, e.claimed);
      }
    }
  }

  lemma OtherKeepsRecords(s: State, act: Action)
    requires Exclusive(s) && StartsMatch(s) && Recording(s) && Enabled(s, act) && !Claims(s, act)
    requires !(act.Do? && act.step == Record(true))
    ensures Recording(Apply(s, act))
  {
    OthersAddNothing(s, act);
    RunStaysRun(s, act);
    RecordsStillMatch(s, Apply(s, act));
    RecordsStillLinger(s, act);
    OthersLastStart(s, act);
  }

  lemma OthersLastStart(s: State, act: Action)
    requires Recording(s) && Enabled(s, act) && !Claims(s, act)
    ensures forall b :: Live(Apply(s, act), b) ==> LastStart(Apply(s, act), b)
  {
    OtherEffect(s, act);
    LiveBefore(s, act);
    var s' := Apply(s, act);
    assert forall i, k :: StartedFor(s'.history, i, k) ==> StartedFor(s.history, i, k) && s'.history[i] == s.history[i];
    forall b | Live(s', b) ensures LastStart(s', b) {
      assert Live(s, b) && LastStart(s, b);
    }
  }

  lemma RunStaysRun(s: State, act: Action)
    requires Enabled(s, act)
    ensures var s' := Apply(s, act);
            forall a :: a in s.attempts && HasRun(s.attempts[a].stage) ==>
                a in s'.attempts && HasRun(s'.attempts[a].stage)
  {
  }

  lemma MustHaveRunBefore(s: State, act: Action)
    requires Enabled(s, act) && !Claims(s, act)
    ensures var s' := Apply(s, act);
            forall a :: a in s'.attempts && MustHaveRun(s'.attempts[a].stage) ==>
              a in s.attempts && MustHaveRun(s.attempts[a].stage)
  {
  }

  lemma LiveBefore(s: State, act: Action)
    requires Enabled(s, act) && !Claims(s, act)
    ensures var s' := Apply(s, act);
            forall a :: Live(s', a) ==>
              && Live(s, a) && s'.attempts[a].key == s.attempts[a].key
              && s'.attempts[a].stage.since == s.attempts[a].stage.since
  {
  }

  // ----- Every run -----

  ghost predicate Inv(s: State) {
    Exclusive(s) && Faithful(s) && StartsMatch(s) && StartsLinger(s) && StartsSpaced(s) && Recording(s)
  }

  lemma StepKeepsInv(s: State, act: Action)
    requires Inv(s) && Enabled(s, act)
    ensures Inv(Apply(s, act))
  {
    StepKeepsExclusive(s, act);
    StepKeepsFaithful(s, act);
    StepKeepsStartsMatch(s, act);
    if Claims(s, act) {
      ClaimKeepsSpacing(s, act);
      ClaimKeepsRecords(s, act);
    } else {
      OtherKeepsSpacing(s, act);
      if act.Do? && act.step == Record(true) {
        RecordKeepsRecords(s, act.a);
      } else {
        OtherKeepsRecords(s, act);
      }
    }
  }

  lemma {:induction false} RunKeepsInv(s: State, run: seq<Action>)
    requires Inv(s) && IsRun(s, run)
    ensures Inv(After(s, run)) && After(s, run).lease == s.lease
    decreases |run|
  {
    if run != [] {
      StepKeepsInv(s, run[0]);
      RunKeepsInv(Apply(s, run[0]), run[1..]);
    }
  }

  // ----- Main results -----

  /** Key exclusion: at most one live attempt per key is between its claim and its record or
      release, and all that time the row exists, is in progress and is that attempt's. */
  lemma KeyExclusion(s: State, run: seq<Action>, a: int)
    requires Initial(s) && IsRun(s, run) && Live(After(s, run), a)
    ensures var r := After(s, run); var at := r.attempts[a];
            && at.key in r.table && !r.table[at.key].completed
            && r.table[at.key].hash == Frame(at.request) && r.table[at.key].created == at.stage.since
            && forall b :: Live(r, b) && r.attempts[b].key == at.key ==> b == a
  {
    RunKeepsInv(s, run);
    assert HoldsLease(After(s, run).table, After(s, run).attempts[a]);
  }

  /** Replay fidelity: a replayed response was returned by a handler run under the same key for a
      request with the same method, principal type, subject and body. */
  lemma ReplayFidelity(s: State, run: seq<Action>, a: int, response: string) returns (i: nat)
    requires Initial(s) && IsRun(s, run) && a in After(s, run).attempts
    requires After(s, run).attempts[a].stage == Finished(Replayed(response))
              && NulFree(After(s, run).attempts[a].request)
    requires forall e :: e in After(s, run).history && e.Returned? ==> NulFree(e.request)
    ensures var r := After(s, run);
            && i < |r.history| && r.history[i].Returned?
            && r.history[i].key == r.attempts[a].key
            && r.history[i].request == r.attempts[a].request
            && r.history[i].response == response
  {
    RunKeepsInv(s, run);
    var r := After(s, run);
    var at := r.attempts[a];
    assert Speaks(at.stage, response);
    i :| 0 <= i < |r.history| && r.history[i].Returned? && r.history[i].key == at.key
         && Frame(r.history[i].request) == Frame(at.request) && r.history[i].response == response;
    FrameIsInjective(r.history[i].request, at.request);
  }

  /** A completed row holds the response of a handler run for just its hash, and is readable. */
  lemma CompletedRowsAreAnswers(s: State, run: seq<Action>, k: Key)
    requires Initial(s) && IsRun(s, run) && k in After(s, run).table && After(s, run).table[k].completed
    ensures var r := After(s, run);
            r.table[k].response.Some? &&
            exists i :: 0 <= i < |r.history| && r.history[i].Returned? && r.history[i].key == k
              && Frame(r.history[i].request) == r.table[k].hash && r.history[i].response == r.table[k].response.value
  {
    RunKeepsInv(s, run);
  }

  /** Handler spacing: two handler starts for one key have a release after a handler error between
      them or lie more than the window apart; more than the TTL, if the first one's response was
      recorded. */
  lemma HandlerSpacing(s: State, run: seq<Action>, i: int, j: int, k: Key)
    requires Initial(s) && IsRun(s, run) && i < j
    requires StartedFor(After(s, run).history, i, k) && StartedFor(After(s, run).history, j, k)
    ensures var h, l := After(s, run).history, s.lease;
            && ((exists m :: i < m < j && h[m].Released? && h[m].key == k) || h[i].at + l.Window() < h[j].at)
            && ((exists m :: 0 <= m < |h| && h[m].Recorded? && h[m].who == h[i].who) ==> h[i].at + l.ttl < h[j].at)
  {
    RunKeepsInv(s, run);
    var r := After(s, run);
    var h := r.history;
    assert Spaced(h, r.lease, i, j, k);
    if m :| 0 <= m < |h| && h[m].Recorded? && h[m].who == h[i].who {
      assert RecordedBy(h, m, h[i].who);
    }
  }

  /** A refused or replayed attempt never reached a handler; one that answers with a fresh response
      or a handler error reached it exactly once. */
  lemma HandlerRunsForOwnersOnly(s: State, run: seq<Action>, a: int)
    requires Initial(s) && IsRun(s, run) && a in After(s, run).attempts && After(s, run).attempts[a].stage.Finished?
    ensures var r := After(s, run); var reply := r.attempts[a].stage.reply;
            && (reply.Ran? || reply.HandlerFailed? <==>
                  exists i :: 0 <= i < |r.history| && r.history[i].Started? && r.history[i].who == a)
            && forall i, j :: 0 <= i < j < |r.history| && r.history[i].Started? && r.history[j].Started? ==>
                 r.history[i].who != r.history[j].who
  {
    RunKeepsInv(s, run);
    var r := After(s, run);
    if r.attempts[a].stage.reply.Ran? || r.attempts[a].stage.reply.HandlerFailed? {
      assert DidStart(r.history, a);
    }
  }
}
