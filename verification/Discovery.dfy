/** The relay's view of the activated tenants (outbox/discover.go): when it asks again, which tenants
    a sweep covers, and when a tenant's failure is reported. */
module Discovery {
  import opened Results
  import opened SweepSchedules

  // ----- The sweep without discovery -----

  /** Every named tenant, where it first comes. */
  function FirstOnce(ts: seq<Tenant>): seq<Tenant> {
    if ts == [] then []
    else
      var init, last := FirstOnce(ts[..|ts| - 1]), ts[|ts| - 1];
      if last == "" || last in init then init else init + [last]
  }

  lemma {:induction false} FirstOnceMembers(ts: seq<Tenant>)
    ensures forall t :: t in FirstOnce(ts) <==> t in ts && t != ""
    ensures forall i, j :: 0 <= i < j < |FirstOnce(ts)| ==> FirstOnce(ts)[i] != FirstOnce(ts)[j]
  {
    if ts != [] {
      var init, last := ts[..|ts| - 1], ts[|ts| - 1];
      assert ts == init + [last];
      FirstOnceMembers(init);
      forall i | 0 <= i < |FirstOnce(init)| && last !in FirstOnce(init) ensures FirstOnce(init)[i] != last {
        assert FirstOnce(init)[i] in FirstOnce(init);
      }
    }
  }

  /** Each tenant stands where it first comes: before every tenant that first comes later. */
  lemma {:induction false} FirstOnceKeepsOrder(ts: seq<Tenant>, i: nat, j: nat)
    requires i < j < |FirstOnce(ts)|
    ensures exists a :: 0 <= a < |ts| && ts[a] == FirstOnce(ts)[i] && FirstOnce(ts)[j] !in ts[..a + 1]
  {
    var init, last := ts[..|ts| - 1], ts[|ts| - 1];
    FirstOnceMembers(init);
    if j < |FirstOnce(init)| {
      FirstOnceKeepsOrder(init, i, j);
      var a :| 0 <= a < |init| && init[a] == FirstOnce(init)[i] && FirstOnce(init)[j] !in init[..a + 1];
      assert ts[a] == init[a] && ts[..a + 1] == init[..a + 1];
    } else {
      var e := FirstOnce(init)[i];
      assert e in FirstOnce(init) && e in init;
      var a :| 0 <= a < |init| && init[a] == e;
      assert last !in init;
      assert ts[..a + 1] == init[..a + 1] && forall x :: x in init[..a + 1] ==> x in init;
      assert ts[a] == e;
    }
  }

  // ----- What has happened -----

  /** A tenant's outbox could not be read, was read, or a refresh answered the activated tenants. */
  datatype Event = Failed(tenant: Tenant) | Fetched(tenant: Tenant) | Adopted(found: seq<Tenant>)

  predicate Known(h: seq<Event>) {
    exists i :: 0 <= i < |h| && h[i].Adopted?
  }

  /** Where a tenant stands: a first failure makes it suspect, a refresh settles it. */
  datatype Standing = Quiet | Suspect | Confirmed

  function StandingOf(h: seq<Event>, t: Tenant): Standing {
    if h == [] then Quiet
    else
      var before := StandingOf(h[..|h| - 1], t);
      match h[|h| - 1]
      case Failed(u) => if u == t && before.Quiet? && Known(h[..|h| - 1]) then Suspect else before
      case Fetched(u) => if u == t then Quiet else before
      case Adopted(found) => if before.Quiet? || t !in found then Quiet else Confirmed
  }

  /** From position i on the tenant was never read, and every refresh still found it. */
  predicate DownSince(h: seq<Event>, t: Tenant, i: nat) {
    forall j :: i <= j < |h| ==> h[j] != Fetched(t) && (h[j].Adopted? ==> t in h[j].found)
  }

  /** Failing at i, with the activated tenants known, and down ever since. */
  predicate FailingSince(h: seq<Event>, t: Tenant, i: nat) {
    i < |h| && h[i] == Failed(t) && Known(h[..i]) && DownSince(h, t, i)
  }

  predicate RefreshedSince(h: seq<Event>, i: nat) {
    exists j :: i <= j < |h| && h[j].Adopted?
  }

  lemma OneMoreDown(h: seq<Event>, e: Event, t: Tenant)
    ensures forall i: nat :: i < |h| ==>
              (FailingSince(h + [e], t, i) <==>
                 FailingSince(h, t, i) && e != Fetched(t) && (e.Adopted? ==> t in e.found))
    ensures forall i: nat :: i < |h| ==> (RefreshedSince(h + [e], i) <==> RefreshedSince(h, i) || e.Adopted?)
  {
    var g := h + [e];
    forall i: nat | i < |h|
      ensures FailingSince(g, t, i) <==> FailingSince(h, t, i) && e != Fetched(t) && (e.Adopted? ==> t in e.found)
    {
      assert g[..i] == h[..i] && g[|h|] == e;
      if FailingSince(g, t, i) {
        assert forall j :: i <= j < |h| ==> h[j] == g[j];
      }
    }
    forall i: nat | i < |h| ensures RefreshedSince(g, i) <==> RefreshedSince(h, i) || e.Adopted? {
      assert g[|h|] == e;
      if RefreshedSince(h, i) {
        var j :| i <= j < |h| && h[j].Adopted?;
        assert g[j].Adopted?;
      }
    }
  }

  /** Confirmed means: it failed while the activated tenants were known, a refresh since then still
      found it, and it has not been read, nor left the activated tenants, ever since.  Suspect is the
      same before any such refresh. */
  lemma {:induction false} StandingMeans(h: seq<Event>, t: Tenant)
    ensures !StandingOf(h, t).Quiet? <==> exists i: nat :: FailingSince(h, t, i)
    ensures StandingOf(h, t).Confirmed? <==> exists i: nat :: FailingSince(h, t, i) && RefreshedSince(h, i)
  {
    if h != [] {
      var g, e := h[..|h| - 1], h[|h| - 1];
      assert h == g + [e];
      StandingMeans(g, t);
      OneMoreDown(g, e, t);
      assert !RefreshedSince(h, |g|) || e.Adopted?;
      StandingStep(g, e, t);
    }
  }

  /** The step of StandingMeans, with the last event taken apart. */
  lemma StandingStep(g: seq<Event>, e: Event, t: Tenant)
    requires !StandingOf(g, t).Quiet? <==> exists i: nat :: FailingSince(g, t, i)
    requires StandingOf(g, t).Confirmed? <==> exists i: nat :: FailingSince(g, t, i) && RefreshedSince(g, i)
    ensures !StandingOf(g + [e], t).Quiet? <==> exists i: nat :: FailingSince(g + [e], t, i)
    ensures StandingOf(g + [e], t).Confirmed? <==>
              exists i: nat :: FailingSince(g + [e], t, i) && RefreshedSince(g + [e], i)
  {
    var h := g + [e];
    assert h[..|h| - 1] == g && h[|g|] == e && h[..|g|] == g;
    OneMoreDown(g, e, t);
    if i: nat :| FailingSince(g, t, i) {
      assert FailingSince(h, t, i) || e == Fetched(t) || (e.Adopted? && t !in e.found);
    }
    if i: nat :| FailingSince(g, t, i) && RefreshedSince(g, i) {
      assert FailingSince(h, t, i) ==> RefreshedSince(h, i);
    }
    assert FailingSince(h, t, |g|) <==> e == Failed(t) && Known(g);
    assert RefreshedSince(h, |g|) <==> e.Adopted?;
    if i: nat :| FailingSince(h, t, i) {
      assert i == |g| || FailingSince(g, t, i);
    }
    if i: nat :| FailingSince(h, t, i) && RefreshedSince(h, i) {
      assert i == |g| || FailingSince(g, t, i);
    }
  }

  // ----- The object -----

  // In seconds.
  const DefaultDiscoverEvery := 60
  const EarlyRefreshGap := 10

  class Discovery {
    /** Whether the relay was given a Discover function, and how often to ask. */
    const discovers: bool
    const every: int
    var active: seq<Tenant>
    var known: bool
    var lastTry: Option<int>
    var soon: bool
    var suspect: set<Tenant>
    var failing: set<Tenant>
    ghost var history: seq<Event>
    ghost var tries: seq<int>

    ghost predicate Valid()
      reads this
    {
      && every > 0 && (known <==> Known(history)) && (known ==> discovers)
      && (forall t :: t in suspect <==> StandingOf(history, t).Suspect?)
      && (forall t :: t in failing <==> StandingOf(history, t).Confirmed?)
      && (forall t :: t in suspect || t in failing ==> known)
      && (forall t :: t in failing ==> t in active)
      && (known ==> LastAdopted(history) == active)
      && lastTry == (if tries == [] then None else Some(tries[|tries| - 1]))
      && forall i :: 0 < i < |tries| ==> SpacedAt(tries, i)
    }

    /** Attempt i came at least the early gap, or the period if shorter, after the one before. */
    predicate SpacedAt(xs: seq<int>, i: int)
      requires 0 < i < |xs|
    {
      xs[i] - xs[i - 1] >= Min(every, EarlyRefreshGap)
    }

    constructor (discovers: bool, discoverEvery: int)
      ensures Valid() && !known && history == [] && tries == [] && this.discovers == discovers
      ensures every == if discoverEvery <= 0 then DefaultDiscoverEvery else discoverEvery
    {
      this.discovers := discovers;
      every := if discoverEvery <= 0 then DefaultDiscoverEvery else discoverEvery;
      active, known, lastTry, soon, suspect, failing := [], false, None, false, {}, {};
      history, tries := [], [];
    }

    /** A tenant's outbox could not be read.  The failure is reported unless it may mean that the
        tenant just left: only a tenant that a refresh since its failure still found, and that was
        never read in between, is known to have a real problem. */
    method FetchFailed(t: Tenant) returns (logged: bool)
      requires Valid()
      modifies this`suspect, this`soon, this`history
      ensures Valid() && history == old(history) + [Failed(t)]
      ensures logged <==> !known || exists i: nat :: FailingSince(old(history), t, i) && RefreshedSince(old(history), i)
      ensures !logged ==> soon && t in suspect
      ensures logged ==> soon == old(soon) && suspect == old(suspect)
    {
      StandingMeans(history, t);
      Extends(history, Failed(t));
      history := history + [Failed(t)];
      if !discovers || !known || t in failing {
        return true;
      }
      suspect := suspect + {t};
      soon := true;
      logged := false;
    }

    method FetchOK(t: Tenant)
      requires Valid()
      modifies this`suspect, this`failing, this`history
      ensures Valid() && history == old(history) + [Fetched(t)]
      ensures t !in suspect && t !in failing
    {
      Extends(history, Fetched(t));
      history := history + [Fetched(t)];
      suspect := suspect - {t};
      failing := failing - {t};
    }

    /** Takes a refresh's answer: the suspects still found are confirmed, those gone are forgotten. */
    method Adopt(found: seq<Tenant>)
      requires Valid() && discovers
      modifies this`active, this`known, this`suspect, this`failing, this`history
      ensures Valid() && history == old(history) + [Adopted(found)]
      ensures known && active == found && suspect == {}
      ensures failing == set t | t in old(failing) + old(suspect) && t in found
    {
      Extends(history, Adopted(found));
      ghost var before := history;
      history := history + [Adopted(found)];
      forall t
        ensures StandingOf(history, t) == if StandingOf(before, t).Quiet? || t !in found then Quiet else Confirmed
      {
        StandingAfterAdopt(before, found, t);
      }
      failing := failing + (set t | t in suspect && t in found);
      suspect := {};
      failing := set t | t in failing && t in found;
      active, known := found, true;
    }

    /** The tenants of a tick sweep.  `answer` is what Discover would say now.  A refresh is tried at
        the first sweep, then once per period, or after the early gap when a tenant has failed. */
    method Tenants(now: int, answer: Option<seq<Tenant>>, pools: seq<Tenant>, extra: seq<Tenant>)
      returns (ts: seq<Tenant>)
      requires Valid()
      modifies this`active, this`known, this`suspect, this`failing, this`history, this`lastTry, this`soon, this`tries
      ensures Valid()
      ensures var last := old(lastTry);
              var asks := discovers && (last.None? || now - last.value >= every
                                        || (old(soon) && now - last.value >= EarlyRefreshGap));
              && tries == old(tries) + (if asks then [now] else [])
              && history == old(history) + (if asks && answer.Some? then [Adopted(answer.value)] else [])
      ensures ts == if known then LastAdopted(history) else FirstOnce(pools + extra)
    {
      if discovers {
        Refresh(now, answer);
      }
      if !known {
        ts := FallbackTenants(pools, extra);
      } else {
        ts := active;
      }
    }

    method Refresh(now: int, answer: Option<seq<Tenant>>)
      requires Valid() && discovers
      modifies this`active, this`known, this`suspect, this`failing, this`history, this`lastTry, this`soon, this`tries
      ensures Valid()
      ensures var last := old(lastTry);
              var asks := discovers && (last.None? || now - last.value >= every
                                        || (old(soon) && now - last.value >= EarlyRefreshGap));
              && tries == old(tries) + (if asks then [now] else [])
              && history == old(history) + (if asks && answer.Some? then [Adopted(answer.value)] else [])
    {
      if lastTry.Some? && now - lastTry.value < every && !(soon && now - lastTry.value >= EarlyRefreshGap) {
        return;
      }
      ghost var before := tries;
      lastTry, soon := Some(now), false;
      tries := tries + [now];
      forall i | 0 < i < |tries| ensures SpacedAt(tries, i) {
        assert i < |before| ==> SpacedAt(before, i);
      }
      if answer.Some? {
        Adopt(answer.value);
      }
    }

    /** Live pools and the fixed list, each tenant once. */
    method FallbackTenants(pools: seq<Tenant>, extra: seq<Tenant>) returns (out: seq<Tenant>)
      ensures out == FirstOnce(pools + extra)
    {
      var seen: set<Tenant> := {};
      out := [];
      var all := pools + extra;
      for i := 0 to |all|
        invariant out == FirstOnce(all[..i]) && seen == set t | t in out
      {
        var t := all[i];
        assert all[..i + 1][..i] == all[..i];
        if t != "" && t !in seen {
          seen := seen + {t};
          out := out + [t];
        }
      }
      assert all[..|all|] == all;
    }
  }

  /** The last refresh's answer. */
  function LastAdopted(h: seq<Event>): seq<Tenant> {
    if h == [] then []
    else if h[|h| - 1].Adopted? then h[|h| - 1].found
    else LastAdopted(h[..|h| - 1])
  }

  lemma StandingAfterAdopt(h: seq<Event>, found: seq<Tenant>, t: Tenant)
    ensures StandingOf(h + [Adopted(found)], t) == if StandingOf(h, t).Quiet? || t !in found then Quiet else Confirmed
  {
    assert (h + [Adopted(found)])[..|h|] == h;
  }

  lemma Extends(h: seq<Event>, e: Event)
    ensures (h + [e])[..|h|] == h && (h + [e])[|h|] == e
    ensures Known(h + [e]) <==> Known(h) || e.Adopted?
  {
    var g := h + [e];
    assert g[..|h|] == h && g[|h|] == e;
    if Known(h) {
      var i :| 0 <= i < |h| && h[i].Adopted?;
      assert g[i].Adopted?;
    }
  }
}
