/** InTx and InTxFor of tenancy/base.go with the outbox marks of tenancy/outboxwake.go: one
    transaction under any interleaving with everyone else. */
module BaseTx {
  import opened Results
  import opened SweepSchedules
  import opened Outbox
  import opened RelayProtocol
  import opened RelaySafety
  import opened RelayLoop

  /** The run has taken the step since it was `from` steps long. */
  ghost predicate Did(run: seq<Action>, from: nat, a: Action) {
    exists i :: from <= i < |run| && run[i] == a
  }

  lemma DidSplit(run: seq<Action>, run': seq<Action>, from: nat, a: Action)
    requires from <= |run| && run <= run'
    ensures Did(run', from, a) <==> Did(run, from, a) || Did(run', |run|, a)
  {
    if Did(run, from, a) {
      var i :| from <= i < |run| && run[i] == a;
      assert run'[i] == run[i];
    }
    if Did(run', from, a) {
      var i :| from <= i < |run'| && run'[i] == a;
      assert i < |run| ==> run[i] == run'[i];
    }
  }

  lemma DidLast(run: seq<Action>, a: Action, b: Action)
    ensures Did(run + [a], |run|, b) <==> a == b
  {
    assert (run + [a])[|run|] == a;
  }

  /** The transaction's wake hook ran. */
  ghost predicate Notified(run: seq<Action>, from: nat, p: int, tx: int) {
    Did(run, from, Transact(p, tx, Hook))
  }

  lemma NotifiedSplit(run: seq<Action>, run': seq<Action>, from: nat, p: int, tx: int)
    requires from <= |run| && run <= run'
    ensures Notified(run', from, p, tx) <==> Notified(run, from, p, tx) || Notified(run', |run|, p, tx)
  {
    DidSplit(run, run', from, Transact(p, tx, Hook));
  }

  /** The channel was signalled for the transaction. */
  ghost predicate Signalled(run: seq<Action>, from: nat, p: int, tx: int) {
    Did(run, from, Transact(p, tx, Signal))
  }

  class Base {
    const world: World
    const p: int

    constructor (world: World, p: int)
      ensures this.world == world && this.p == p
    {
      this.world, this.p := world, p;
    }

    ghost predicate Ready()
      reads this, world
    {
      world.Valid() && p in world.s.procs
    }

    ghost predicate InState(tx: int, x: Tx)
      reads this, world
    {
      Ready() && tx in world.s.procs[p].txs && world.s.procs[p].txs[tx] == x
    }

    /** One insert, through Insert (which marks the transaction) or InsertWith (which does not). */
    method Write(tx: int, t: Tenant, marks: bool, ids: set<int>, marked: bool) returns (id: int)
      requires InState(tx, Open(t, ids, marked))
      modifies world
      ensures InState(tx, Open(t, ids + {id}, marked || marks)) && id !in ids && old(world.run) <= world.run
      ensures !Notified(world.run, |old(world.run)|, p, tx)
    {
      world.PreemptTx(p, tx);
      world.Reachable();
      id := NextId(world.s, t);
      forall x | x in ids ensures x < id {
        assert Holds(world.s, p, tx, t, x);
      }
      world.Step(Transact(p, tx, Insert(id, marks)));
    }

    /** The caller's function: its inserts in order; it may return an error after any of them. */
    method Fn(tx: int, t: Tenant, writes: seq<bool>) returns (err: bool, ids: set<int>, marked: bool)
      requires InState(tx, Open(t, {}, false))
      modifies world
      ensures InState(tx, Open(t, ids, marked)) && old(world.run) <= world.run
      ensures !Notified(world.run, |old(world.run)|, p, tx)
      ensures !err ==> (marked <==> true in writes) && |ids| == |writes|
    {
      ids, marked := {}, false;
      for i := 0 to |writes|
        invariant InState(tx, Open(t, ids, marked)) && old(world.run) <= world.run
        invariant !Notified(world.run, |old(world.run)|, p, tx)
        invariant (marked <==> true in writes[..i]) && |ids| == i
      {
        err := *;
        if err {
          return;
        }
        ghost var here := world.run;
        var id := Write(tx, t, writes[i], ids, marked);
        NotifiedSplit(here, world.run, |old(world.run)|, p, tx);
        ids, marked := ids + {id}, marked || writes[i];
        assert writes[..i + 1] == writes[..i] + [writes[i]];
      }
      assert writes[..|writes|] == writes;
      err := *;
    }

    /** The rows are there, and those of a marked transaction are this process's to be woken for. */
    ghost predicate Visible(t: Tenant, ids: set<int>, marked: bool)
      reads this, world
    {
      forall id :: id in ids ==>
        && EventId(t, id) in world.s.rows
        && world.s.rows[EventId(t, id)].notifier == if marked then Some(p) else None
    }

    /** Commit or roll back; a commit error means nothing was committed. */
    method Finish(tx: int, t: Tenant, commit: bool, ids: set<int>, marked: bool)
      requires InState(tx, Open(t, ids, marked))
      modifies world
      ensures Ready() && old(world.run) <= world.run && !Notified(world.run, |old(world.run)|, p, tx)
      ensures if commit && marked then InState(tx, Hooking(t)) else tx !in world.s.procs[p].txs
      ensures forall id :: id in ids ==> (EventId(t, id) in world.s.rows <==> commit)
      ensures commit ==> Visible(t, ids, marked)
    {
      world.PreemptTx(p, tx);
      world.Reachable();
      forall id | id in ids ensures EventId(t, id) !in world.s.rows {
        assert Holds(world.s, p, tx, t, id);
      }
      world.Step(Transact(p, tx, if commit then Commit else Rollback));
    }

    /** One step of the transaction, after any of the others. */
    method Take(tx: int, x: TxStep) returns (ghost seen: State)
      requires Ready() && TxEnabled(world.s, p, tx, x) && tx in world.s.procs[p].txs
      requires x.Hook? || x.Signal?
      modifies world
      ensures Ready() && old(world.run) <= world.run && p in seen.procs && TxEnabled(seen, p, tx, x)
      ensures TxUndisturbed(old(world.s), seen, p, tx) && world.s == TxApply(seen, p, tx, x)
      ensures Took(world.start, world.run, |old(world.run)|, Transact(p, tx, x), seen)
      ensures forall y :: Did(world.run, |old(world.run)|, Transact(p, tx, y)) <==> y == x
    {
      world.PreemptTx(p, tx);
      seen := world.s;
      ghost var here := world.run;
      world.Step(Transact(p, tx, x));
      TookStays(world.start, world.run, world.run, |here|, Transact(p, tx, x), seen);
      forall y ensures Did(world.run, |old(world.run)|, Transact(p, tx, y)) <==> y == x {
        DidSplit(here, world.run, |old(world.run)|, Transact(p, tx, y));
        DidLast(here, Transact(p, tx, x), Transact(p, tx, y));
      }
    }

    /** notifyOutbox: the hook flags the tenant, in the state `seen`, and then signals the channel
        exactly if a relay had registered. */
    method Notify(tx: int, t: Tenant) returns (ghost seen: State)
      requires InState(tx, Hooking(t))
      modifies world
      ensures Ready() && tx !in world.s.procs[p].txs && old(world.run) <= world.run
      ensures Notified(world.run, |old(world.run)|, p, tx) && p in seen.procs
      ensures Took(world.start, world.run, |old(world.run)|, Transact(p, tx, Hook), seen)
      ensures Signalled(world.run, |old(world.run)|, p, tx) <==> !seen.procs[p].loop.NotStarted?
      ensures forall e :: e in old(world.s.rows) ==>
                e in world.s.rows && world.s.rows[e].notifier == old(world.s.rows)[e].notifier
    {
      seen := Take(tx, Hook);
      if tx in world.s.procs[p].txs {
        ghost var here := world.run;
        var _ := Take(tx, Signal);
        NotifiedSplit(here, world.run, |old(world.run)|, p, tx);
        DidSplit(here, world.run, |old(world.run)|, Transact(p, tx, Signal));
        TookStays(world.start, here, world.run, |old(world.run)|, Transact(p, tx, Hook), seen);
      }
    }

    method BeginTx(tx: int, t: Tenant)
      requires Ready() && tx !in world.s.procs[p].txs
      modifies world
      ensures InState(tx, Open(t, {}, false)) && old(world.run) <= world.run
      ensures !Notified(world.run, |old(world.run)|, p, tx)
    {
      DidLast(world.run, Transact(p, tx, Begin(t)), Transact(p, tx, Hook));
      world.Step(Transact(p, tx, Begin(t)));
    }

    /** All or nothing: on success every row is visible, and the wake hook has run exactly if some
        row was written with Insert; on any error no row is visible and no hook has run.  Either
        way the transaction and its mark are gone. */
    method InTx(tx: int, t: Tenant, writes: seq<bool>) returns (err: bool, ghost ids: set<int>)
      requires Ready() && tx !in world.s.procs[p].txs
      modifies world
      ensures Ready() && tx !in world.s.procs[p].txs && old(world.run) <= world.run
      ensures !err ==> |ids| == |writes|
      ensures forall id :: id in ids ==> (EventId(t, id) in world.s.rows <==> !err)
      ensures !err ==> Visible(t, ids, true in writes)
      ensures Notified(world.run, |old(world.run)|, p, tx) <==> !err && true in writes
    {
      ids := {};
      err := *;
      if err {
        return;
      }
      BeginTx(tx, t);
      ghost var begun := world.run;
      var failed, written, marked := Fn(tx, t, writes);
      ids := written;
      ghost var ran := world.run;
      NotifiedSplit(begun, ran, |old(world.run)|, p, tx);
      var refused: bool := *;
      err := failed || refused;
      Finish(tx, t, !err, written, marked);
      NotifiedSplit(ran, world.run, |old(world.run)|, p, tx);
      if !err && marked {
        ghost var ended := world.run;
        var _ := Notify(tx, t);
        NotifiedSplit(ended, world.run, |old(world.run)|, p, tx);
      }
    }
  }
}
