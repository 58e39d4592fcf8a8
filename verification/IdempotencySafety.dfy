/** What every run of the idempotency-key lease keeps, whatever other attempts, failed statements,
    crashes and Cleanup do. */
module IdempotencySafety {
  import opened Results
  import opened IdempotencyProtocol

  // ----- Key exclusion -----

  /** The row is there, in progress, with the claimant's hash and claim time. */
  predicate HoldsLease(t: Table, at: Attempt) {
    Owns(at.stage) && at.key in t && t[at.key] == Row(Frame(at.request), false, None, at.stage.since)
  }

  ghost predicate Exclusive(s: State) {
    && (forall a :: Live(s, a) ==> HoldsLease(s.table, s.attempts[a]))
    && (forall a, b :: Live(s, a) && Live(s, b) && s.attempts[a].key == s.attempts[b].key ==> a == b)
    && (forall a :: a in s.attempts && Owns(s.attempts[a].stage) ==> s.attempts[a].stage.since <= s.clock)
    && (forall k :: k in s.table ==> s.table[k].created <= s.clock)
  }

  predicate RowKept(t: Table, t': Table, k: Key) {
    k in t ==> k in t' && t'[k] == t[k]
  }

  /** What a step may do besides moving one attempt. */
  ghost predicate Spares(s: State, s': State, a: int) {
    && s'.lease == s.lease && s.clock <= s'.clock
    && (forall b :: b != a ==> (b in s'.attempts <==> b in s.attempts))
    && (forall b :: b != a && b in s.attempts ==> s'.attempts[b] == s.attempts[b])
    && (forall b :: b != a && Live(s, b) ==> RowKept(s.table, s'.table, s.attempts[b].key))
    && (forall k :: k in s'.table ==> s'.table[k].created <= s'.clock)
  }

  lemma SparingKeepsExclusive(s: State, s': State, a: int)
    requires Exclusive(s) && Spares(s, s', a)
    requires a in s'.attempts && Owns(s'.attempts[a].stage) ==> s'.attempts[a].stage.since <= s'.clock
    requires Live(s', a) ==> HoldsLease(s'.table, s'.attempts[a])
                             && forall b :: b != a && Live(s, b) ==> s.attempts[b].key != s'.attempts[a].key
    ensures Exclusive(s')
  {
    forall b | Live(s', b) && b != a ensures Live(s, b) && HoldsLease(s'.table, s'.attempts[b]) {
      assert s'.attempts[b] == s.attempts[b];
      assert Live(s, b);
      assert HoldsLease(s.table, s.attempts[b]);
    }
  }

  /** A statement of another attempt cannot touch a live claimant's row: it would need it to be
      missing, or older than the window. */
  lemma ClaimsSpareLiveRows(s: State, b: int, k: Key, hash: string)
    requires Exclusive(s) && Live(s, b)
    ensures var mine := s.attempts[b].key;
            && mine in InsertRow(s.table, k, hash, s.clock)
            && InsertRow(s.table, k, hash, s.clock)[mine] == s.table[mine]
            && mine in TakeOver(s.lease, s.table, k, hash, s.clock)
            && TakeOver(s.lease, s.table, k, hash, s.clock)[mine] == s.table[mine]
            && !TakesOver(s.lease, s.table, mine, s.clock)
  {
    assert HoldsLease(s.table, s.attempts[b]);
  }

  lemma CleanupSparesLiveRows(s: State, b: int, tenant: string)
    requires Exclusive(s) && Live(s, b)
    ensures var mine := s.attempts[b].key;
            && mine in CleanUp(s.lease, s.table, tenant, s.clock)
            && CleanUp(s.lease, s.table, tenant, s.clock)[mine] == s.table[mine]
  {
    assert HoldsLease(s.table, s.attempts[b]);
  }

  lemma ClaimKeepsExclusive(s: State, a: int, step: Step)
    requires Exclusive(s) && (step.Insert? || step.Takeover?) && Enabled(s, Do(a, step))
    ensures Exclusive(ApplyStep(s, a, step))
  {
    var s', at := ApplyStep(s, a, step), s.attempts[a];
    forall b | Live(s, b)
      ensures RowKept(s.table, s'.table, s.attempts[b].key)
      ensures Live(s', a) ==> s.attempts[b].key != at.key
    {
      ClaimsSpareLiveRows(s, b, at.key, Frame(at.request));
    }
    SparingKeepsExclusive(s, s', a);
  }

  /** The release and the record carry no ownership check; exclusion makes the row theirs. */
  lemma SettleKeepsExclusive(s: State, a: int, step: Step)
    requires Exclusive(s) && (step.Release? || step.Record?) && Enabled(s, Do(a, step))
    ensures Exclusive(ApplyStep(s, a, step))
  {
    var s', at := ApplyStep(s, a, step), s.attempts[a];
    assert HoldsLease(s.table, at);
    forall b | b != a && Live(s, b)
      ensures RowKept(s.table, s'.table, s.attempts[b].key)
    {
      assert HoldsLease(s.table, s.attempts[b]) && s.attempts[b].key != at.key;
    }
    SparingKeepsExclusive(s, s', a);
  }

  lemma MoveKeepsExclusive(s: State, a: int, step: Step)
    requires Exclusive(s) && Enabled(s, Do(a, step))
    requires step.Read? || step.HandlerReturns? || step.HandlerErrs? || step.Crash?
    ensures Exclusive(ApplyStep(s, a, step))
  {
    var s' := ApplyStep(s, a, step);
    assert s'.table == s.table;
    forall b | Live(s, b) ensures s.attempts[b].key in s.table {
      assert HoldsLease(s.table, s.attempts[b]);
    }
    if Live(s', a) {
      assert Live(s, a) && HoldsLease(s.table, s.attempts[a]);
    }
    SparingKeepsExclusive(s, s', a);
  }

  lemma StepKeepsExclusive(s: State, act: Action)
    requires Exclusive(s) && Enabled(s, act)
    ensures Exclusive(Apply(s, act))
  {
    match act
    case Do(a, step) =>
      if step.Insert? || step.Takeover? {
        ClaimKeepsExclusive(s, a, step);
      } else if step.Release? || step.Record? {
        SettleKeepsExclusive(s, a, step);
      } else {
        MoveKeepsExclusive(s, a, step);
      }
    case Arrive(a, _, _) =>
      forall b | Live(s, b) ensures HoldsLease(s.table, s.attempts[b]) {
      }
      SparingKeepsExclusive(s, Apply(s, act), a);
    case Cleanup(tenant) =>
      var s' := Apply(s, act);
      forall b | Live(s', b) ensures HoldsLease(s'.table, s'.attempts[b]) {
        assert Live(s, b);
        CleanupSparesLiveRows(s, b, tenant);
      }
    case Advance(_) =>
      var s' := Apply(s, act);
      forall b | Live(s', b) ensures Live(s, b) && HoldsLease(s'.table, s'.attempts[b]) {
      }
  }
}
