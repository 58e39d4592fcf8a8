/** Finding the tenant databases of a template by SQL LIKE (tenancy/discover.go), and the name the
    resolver builds from a slug (tenancy/pools.go). */
module TenantDiscovery {
  import opened Results

  // ----- LIKE -----

  predicate StartsWith(s: string, p: string) {
    |p| <= |s| && s[..|p|] == p
  }

  /** LIKE with the backslash as escape, as section 9.7.1 of the PostgreSQL documentation defines it. */
  predicate Like(pattern: string, name: string)
    decreases |pattern|
  {
    if pattern == "" then name == ""
    else if pattern[0] == '\\' then
      |pattern| >= 2 && name != "" && name[0] == pattern[1] && Like(pattern[2..], name[1..])
    else if pattern[0] == '%' then exists k :: 0 <= k <= |name| && Like(pattern[1..], name[k..])
    else if pattern[0] == '_' then name != "" && Like(pattern[1..], name[1..])
    else name != "" && name[0] == pattern[0] && Like(pattern[1..], name[1..])
  }

  predicate IsMeta(c: char) {
    c == '\\' || c == '%' || c == '_'
  }

  function EscapeLike(s: string): string {
    if s == "" then ""
    else (if IsMeta(s[0]) then ['\\', s[0]] else [s[0]]) + EscapeLike(s[1..])
  }

  /** An escaped fragment matches itself and nothing else, whatever follows it. */
  lemma {:induction false} EscapedMatchesItself(s: string, rest: string, name: string)
    ensures Like(EscapeLike(s) + rest, name) <==> StartsWith(name, s) && Like(rest, name[|s|..])
  {
    if s == "" {
      assert EscapeLike(s) + rest == rest && name[0..] == name;
    } else {
      var tail := EscapeLike(s[1..]) + rest;
      var pattern := EscapeLike(s) + rest;
      if IsMeta(s[0]) {
        assert pattern == ['\\', s[0]] + tail;
        assert pattern[2..] == tail;
      } else {
        assert pattern == [s[0]] + tail;
        assert pattern[1..] == tail;
      }
      if name != "" {
        EscapedMatchesItself(s[1..], rest, name[1..]);
        assert |s| <= |name| ==> name[1..][|s| - 1..] == name[|s|..];
        StartsWithHead(name, s);
      }
    }
  }

  lemma StartsWithHead(name: string, s: string)
    requires name != "" && s != ""
    ensures StartsWith(name, s) <==> name[0] == s[0] && StartsWith(name[1..], s[1..])
  {
    if |s| <= |name| {
      assert name[..|s|] == [name[0]] + name[1..][..|s| - 1];
      assert s == [s[0]] + s[1..];
    }
  }

  function Pattern(prefix: string, suffix: string): string {
    EscapeLike(prefix) + "%" + EscapeLike(suffix)
  }

  lemma EscapedSuffix(suffix: string, name: string)
    ensures Like(EscapeLike(suffix), name) <==> name == suffix
  {
    EscapedMatchesItself(suffix, "", name);
    assert EscapeLike(suffix) + "" == EscapeLike(suffix);
    if StartsWith(name, suffix) && name[|suffix|..] == "" {
      assert name == name[..|suffix|] + name[|suffix|..];
    }
  }

  lemma AnythingThen(suffix: string, name: string)
    ensures Like("%" + EscapeLike(suffix), name) <==> exists s :: name == s + suffix
  {
    assert ("%" + EscapeLike(suffix))[1..] == EscapeLike(suffix);
    forall k | 0 <= k <= |name| ensures Like(EscapeLike(suffix), name[k..]) <==> name[k..] == suffix {
      EscapedSuffix(suffix, name[k..]);
    }
    if k :| 0 <= k <= |name| && name[k..] == suffix {
      assert name == name[..k] + suffix;
    }
    if s :| name == s + suffix {
      assert name[|s|..] == suffix;
    }
  }

  lemma PrefixThen(prefix: string, suffix: string, name: string)
    ensures (StartsWith(name, prefix) && exists s :: name[|prefix|..] == s + suffix) <==>
              exists s :: name == prefix + s + suffix
  {
    if StartsWith(name, prefix) {
      if s :| name[|prefix|..] == s + suffix {
        assert name == prefix + name[|prefix|..];
        assert name == prefix + s + suffix;
      }
    }
    if s :| name == prefix + s + suffix {
      assert name == prefix + (s + suffix);
      assert name[..|prefix|] == prefix && name[|prefix|..] == s + suffix;
    }
  }

  /** A name matches the pattern exactly when it is the prefix, something, and the suffix. */
  lemma PatternMatchesExactly(prefix: string, suffix: string, name: string)
    ensures Like(Pattern(prefix, suffix), name) <==> exists s :: name == prefix + s + suffix
  {
    var tail := "%" + EscapeLike(suffix);
    assert Pattern(prefix, suffix) == EscapeLike(prefix) + tail;
    EscapedMatchesItself(prefix, tail, name);
    if StartsWith(name, prefix) {
      AnythingThen(suffix, name[|prefix|..]);
    }
    PrefixThen(prefix, suffix, name);
  }

  // ----- Enumerating -----

  predicate IsSlugChar(c: char) {
    'a' <= c <= 'z' || 'A' <= c <= 'Z' || '0' <= c <= '9' || c == '_' || c == '-'
  }

  const Lower: string := "abcdefghijklmnopqrstuvwxyz"
  const Upper: string := "ABCDEFGHIJKLMNOPQRSTUVWXYZ"
  const Digits: string := "0123456789"

  lemma LowerAre(c: char)
    ensures c in Lower <==> 'a' <= c <= 'z'
  {
    assert 'a' <= c <= 'z' ==> Lower[c as int - 'a' as int] == c;
  }

  lemma UpperAre(c: char)
    ensures c in Upper <==> 'A' <= c <= 'Z'
  {
    assert 'A' <= c <= 'Z' ==> Upper[c as int - 'A' as int] == c;
  }

  lemma DigitsAre(c: char)
    ensures c in Digits <==> '0' <= c <= '9'
  {
    assert '0' <= c <= '9' ==> Digits[c as int - '0' as int] == c;
  }

  /** The slug characters are just these. */
  lemma SlugCharsAre(c: char)
    ensures IsSlugChar(c) <==> c in Lower || c in Upper || c in Digits || c == '_' || c == '-'
  {
    LowerAre(c);
    UpperAre(c);
    DigitsAre(c);
  }

  predicate ValidSlug(s: string) {
    s != "" && forall i :: 0 <= i < |s| ==> IsSlugChar(s[i])
  }

  function TrimPrefix(s: string, p: string): string {
    if StartsWith(s, p) then s[|p|..] else s
  }

  function TrimSuffix(s: string, q: string): string {
    if |q| <= |s| && s[|s| - |q|..] == q then s[..|s| - |q|] else s
  }

  lemma TrimUndoes(prefix: string, s: string, suffix: string)
    ensures TrimSuffix(TrimPrefix(prefix + s + suffix, prefix), suffix) == s
  {
    var name := prefix + s + suffix;
    assert name == prefix + (s + suffix);
    assert name[..|prefix|] == prefix && name[|prefix|..] == s + suffix;
    assert (s + suffix)[|s|..] == suffix && (s + suffix)[..|s|] == s;
  }

  /** The databases the query answers. */
  function Matching(dbs: seq<string>, like: string): seq<string> {
    if dbs == [] then []
    else
      var init, last := Matching(dbs[..|dbs| - 1], like), dbs[|dbs| - 1];
      if Like(like, last) then init + [last] else init
  }

  /** Every slug is listed as often as its database is among the candidates, and nothing else is. */
  ghost predicate Recovers(tenants: seq<string>, dbs: seq<string>, prefix: string, suffix: string) {
    forall s :: multiset(tenants)[s] == if ValidSlug(s) then multiset(dbs)[prefix + s + suffix] else 0
  }

  lemma {:induction false} OnlyMatchesMatter(dbs: seq<string>, prefix: string, suffix: string, s: string)
    ensures multiset(Matching(dbs, Pattern(prefix, suffix)))[prefix + s + suffix] == multiset(dbs)[prefix + s + suffix]
  {
    if dbs != [] {
      var init, last := dbs[..|dbs| - 1], dbs[|dbs| - 1];
      assert dbs == init + [last];
      OnlyMatchesMatter(init, prefix, suffix, s);
      PatternMatchesExactly(prefix, suffix, last);
    }
  }

  lemma {:induction false} MatchingMatches(dbs: seq<string>, like: string)
    ensures forall name :: name in Matching(dbs, like) ==> Like(like, name)
  {
    if dbs != [] {
      MatchingMatches(dbs[..|dbs| - 1], like);
    }
  }

  /** Byte order, as sort.Strings has it. */
  predicate Leq(a: string, b: string) {
    a == "" || (b != "" && (a[0] < b[0] || (a[0] == b[0] && Leq(a[1..], b[1..]))))
  }

  lemma {:induction false} LeqIsTotal(a: string, b: string)
    ensures Leq(a, b) || Leq(b, a)
  {
    if a != "" && b != "" {
      LeqIsTotal(a[1..], b[1..]);
    }
  }

  lemma {:induction false} LeqGoesOn(a: string, b: string, c: string)
    requires Leq(a, b) && Leq(b, c)
    ensures Leq(a, c)
  {
    if a != "" && b != "" && c != "" && a[0] == b[0] == c[0] {
      LeqGoesOn(a[1..], b[1..], c[1..]);
    }
  }

  /** That is: a is all of b's beginning, or smaller at the first place where they differ. */
  lemma {:induction false} LeqIsByteOrder(a: string, b: string)
    ensures Leq(a, b) <==> exists k :: 0 <= k <= |a| && k <= |b| && a[..k] == b[..k]
                                       && (k == |a| || (k < |b| && a[k] < b[k]))
  {
    if a == "" {
      assert a[..0] == b[..0];
    } else if b != "" && a[0] == b[0] {
      var x, y := a[1..], b[1..];
      LeqIsByteOrder(x, y);
      if k :| 0 <= k <= |x| && k <= |y| && x[..k] == y[..k] && (k == |x| || (k < |y| && x[k] < y[k])) {
        assert a[..k + 1] == [a[0]] + x[..k] && b[..k + 1] == [b[0]] + y[..k];
        assert k < |x| && k < |y| ==> a[k + 1] == x[k] && b[k + 1] == y[k];
      }
      if k :| 0 <= k <= |a| && k <= |b| && a[..k] == b[..k] && (k == |a| || (k < |b| && a[k] < b[k])) {
        assert k > 0;
        assert x[..k - 1] == a[..k][1..] && y[..k - 1] == b[..k][1..];
        assert k < |a| && k < |b| ==> x[k - 1] == a[k] && y[k - 1] == b[k];
      }
    } else if b != "" {
      assert a[..0] == b[..0];
      if k :| 0 <= k <= |a| && k <= |b| && a[..k] == b[..k] && (k == |a| || (k < |b| && a[k] < b[k])) {
        assert k > 0 ==> a[..k][0] == b[..k][0];
      }
    }
  }

  ghost predicate InOrder(xs: seq<string>) {
    forall i, j :: 0 <= i < j < |xs| ==> Leq(xs[i], xs[j])
  }

  function InsertString(xs: seq<string>, s: string): (r: seq<string>)
    ensures multiset(r) == multiset(xs) + multiset{s}
  {
    if xs == [] || Leq(xs[|xs| - 1], s) then xs + [s]
    else
      assert xs == xs[..|xs| - 1] + [xs[|xs| - 1]];
      InsertString(xs[..|xs| - 1], s) + [xs[|xs| - 1]]
  }

  function Sorted(xs: seq<string>): (r: seq<string>)
    ensures multiset(r) == multiset(xs)
  {
    if xs == [] then []
    else
      assert xs == xs[..|xs| - 1] + [xs[|xs| - 1]];
      InsertString(Sorted(xs[..|xs| - 1]), xs[|xs| - 1])
  }

  ghost predicate AllUpTo(xs: seq<string>, top: string) {
    forall i :: 0 <= i < |xs| ==> Leq(xs[i], top)
  }

  lemma {:induction false} InsertStaysBelow(xs: seq<string>, s: string, top: string)
    requires AllUpTo(xs, top) && Leq(s, top)
    ensures AllUpTo(InsertString(xs, s), top)
  {
    if xs != [] && !Leq(xs[|xs| - 1], s) {
      InsertStaysBelow(xs[..|xs| - 1], s, top);
    }
  }

  lemma {:induction false} InsertKeepsOrder(xs: seq<string>, s: string)
    requires InOrder(xs)
    ensures InOrder(InsertString(xs, s))
  {
    if xs != [] {
      var init, last := xs[..|xs| - 1], xs[|xs| - 1];
      if Leq(last, s) {
        forall i | 0 <= i < |xs| ensures Leq(xs[i], s) {
          if i < |init| {
            LeqGoesOn(xs[i], last, s);
          }
        }
      } else {
        LeqIsTotal(last, s);
        InsertKeepsOrder(init, s);
        InsertStaysBelow(init, s, last);
      }
    }
  }

  lemma {:induction false} SortedIsInOrder(xs: seq<string>)
    ensures InOrder(Sorted(xs))
  {
    if xs != [] {
      SortedIsInOrder(xs[..|xs| - 1]);
      InsertKeepsOrder(Sorted(xs[..|xs| - 1]), xs[|xs| - 1]);
    }
  }

  /** The query, then the trim and filter loop over its rows, then the sort. */
  method EnumerateTenants(prefix: string, suffix: string, dbs: seq<string>) returns (tenants: seq<string>)
    ensures Recovers(tenants, dbs, prefix, suffix) && InOrder(tenants)
  {
    var found := TrimRows(prefix, suffix, dbs);
    SortedIsInOrder(found);
    tenants := Sorted(found);
  }

  method TrimRows(prefix: string, suffix: string, dbs: seq<string>) returns (tenants: seq<string>)
    ensures Recovers(tenants, dbs, prefix, suffix)
  {
    var rows := Matching(dbs, Pattern(prefix, suffix));
    MatchingMatches(dbs, Pattern(prefix, suffix));
    tenants := [];
    for i := 0 to |rows|
      invariant Recovers(tenants, rows[..i], prefix, suffix)
    {
      var name := rows[i];
      assert rows[..i + 1] == rows[..i] + [name];
      var slug := TrimSuffix(TrimPrefix(name, prefix), suffix);
      OneMoreRow(tenants, rows[..i], name, slug, prefix, suffix);
      if slug == "" || !ValidSlug(slug) {
        continue;
      }
      tenants := tenants + [slug];
    }
    assert rows[..|rows|] == rows;
    RowsSuffice(tenants, dbs, prefix, suffix);
  }

  lemma RowsSuffice(tenants: seq<string>, dbs: seq<string>, prefix: string, suffix: string)
    requires Recovers(tenants, Matching(dbs, Pattern(prefix, suffix)), prefix, suffix)
    ensures Recovers(tenants, dbs, prefix, suffix)
  {
    forall s | ValidSlug(s) ensures multiset(tenants)[s] == multiset(dbs)[prefix + s + suffix] {
      OnlyMatchesMatter(dbs, prefix, suffix, s);
    }
  }

  lemma CountOfOneMore(xs: seq<string>, x: string, y: string)
    ensures multiset(xs + [x])[y] == multiset(xs)[y] + if x == y then 1 else 0
  {
  }

  lemma TrimAnswersTheMiddle(prefix: string, suffix: string, name: string, s: string)
    requires Like(Pattern(prefix, suffix), name)
    ensures name == prefix + s + suffix <==> s == TrimSuffix(TrimPrefix(name, prefix), suffix)
  {
    PatternMatchesExactly(prefix, suffix, name);
    var m :| name == prefix + m + suffix;
    TrimUndoes(prefix, m, suffix);
    if name == prefix + s + suffix {
      TrimUndoes(prefix, s, suffix);
    }
  }

  lemma OneMoreRow(tenants: seq<string>, rows: seq<string>, name: string, slug: string, prefix: string, suffix: string)
    requires Recovers(tenants, rows, prefix, suffix) && Like(Pattern(prefix, suffix), name)
    requires slug == TrimSuffix(TrimPrefix(name, prefix), suffix)
    ensures Recovers(if ValidSlug(slug) then tenants + [slug] else tenants, rows + [name], prefix, suffix)
  {
    var next := if ValidSlug(slug) then tenants + [slug] else tenants;
    forall s ensures multiset(next)[s] == if ValidSlug(s) then multiset(rows + [name])[prefix + s + suffix] else 0 {
      assert multiset(tenants)[s] == if ValidSlug(s) then multiset(rows)[prefix + s + suffix] else 0;
      TrimAnswersTheMiddle(prefix, suffix, name, s);
      CountOfOneMore(tenants, slug, s);
      CountOfOneMore(rows, name, prefix + s + suffix);
    }
  }

  // ----- The template -----

  const Slot: string := "{slug}"

  predicate HasSlot(s: string) {
    exists k :: 0 <= k <= |s| && StartsWith(s[k..], Slot)
  }

  /** What stands before and after the first slot of a database name. */
  function Cut(db: string): Option<(string, string)> {
    if StartsWith(db, Slot) then Some(("", db[|Slot|..]))
    else if db == "" then None
    else
      match Cut(db[1..])
      case None => None
      case Some(parts) => Some(([db[0]] + parts.0, parts.1))
  }

  function ReplaceAll(s: string, slug: string): string
    decreases |s|
  {
    if StartsWith(s, Slot) then slug + ReplaceAll(s[|Slot|..], slug)
    else if s == "" then ""
    else [s[0]] + ReplaceAll(s[1..], slug)
  }

  datatype ResolveError = NoTenant | InvalidSlug | NoSlot

  /** The database name a slug resolves to. */
  function ResolvedName(db: string, slug: string): (r: Result<string, ResolveError>)
    ensures r.Ok? <==> ValidSlug(slug) && HasSlot(db)
    ensures r == Err(NoTenant) <==> slug == ""
    ensures r == Err(NoSlot) <==> ValidSlug(slug) && !HasSlot(db)
  {
    if slug == "" then Err(NoTenant)
    else if !ValidSlug(slug) then Err(InvalidSlug)
    else if !HasSlot(db) then Err(NoSlot)
    else Ok(ReplaceAll(db, slug))
  }

  lemma HasSlotTail(s: string)
    requires s != "" && !StartsWith(s, Slot)
    ensures HasSlot(s) <==> HasSlot(s[1..])
  {
    if k :| 0 <= k <= |s| && StartsWith(s[k..], Slot) {
      assert s[0..] == s;
      assert k > 0 ==> s[k..] == s[1..][k - 1..];
    }
    if k :| 0 <= k <= |s| - 1 && StartsWith(s[1..][k..], Slot) {
      assert s[1..][k..] == s[k + 1..];
    }
  }

  lemma Regroup(c: char, a: string, b: string, d: string)
    ensures [c] + (a + b + d) == ([c] + a) + b + d
  {
  }

  lemma {:induction false} CutFindsTheFirst(db: string)
    ensures Cut(db).Some? <==> HasSlot(db)
    ensures Cut(db).Some? ==> db == Cut(db).value.0 + Slot + Cut(db).value.1
    decreases |db|
  {
    if StartsWith(db, Slot) {
      assert db[0..] == db;
      assert db == db[..|Slot|] + db[|Slot|..];
    } else if db != "" {
      CutFindsTheFirst(db[1..]);
      HasSlotTail(db);
      if Cut(db[1..]).Some? {
        Regroup(db[0], Cut(db[1..]).value.0, Slot, Cut(db[1..]).value.1);
      }
      assert db == [db[0]] + db[1..];
    }
  }

  lemma {:induction false} ReplaceAfterCut(db: string, slug: string)
    requires Cut(db).Some?
    ensures ReplaceAll(db, slug) == Cut(db).value.0 + slug + ReplaceAll(Cut(db).value.1, slug)
    decreases |db|
  {
    if !StartsWith(db, Slot) {
      ReplaceAfterCut(db[1..], slug);
      Regroup(db[0], Cut(db[1..]).value.0, slug, ReplaceAll(Cut(db[1..]).value.1, slug));
    }
  }

  function Braces(s: string): nat {
    if s == "" then 0 else (if s[0] == '{' then 1 else 0) + Braces(s[1..])
  }

  lemma {:induction false} BracesAdd(a: string, b: string)
    ensures Braces(a + b) == Braces(a) + Braces(b)
  {
    if a == "" {
      assert a + b == b;
    } else {
      assert (a + b)[1..] == a[1..] + b;
      BracesAdd(a[1..], b);
    }
  }

  lemma {:induction false} SlugsHaveNoBraces(s: string)
    requires forall i :: 0 <= i < |s| ==> IsSlugChar(s[i])
    ensures Braces(s) == 0
  {
    if s != "" {
      SlugsHaveNoBraces(s[1..]);
    }
  }

  /** Replacing changes a text exactly when there is a slot in it. */
  lemma {:induction false} ReplaceTakesBraces(s: string, slug: string)
    requires ValidSlug(slug)
    ensures HasSlot(s) ==> Braces(ReplaceAll(s, slug)) < Braces(s)
    ensures !HasSlot(s) ==> ReplaceAll(s, slug) == s
    decreases |s|
  {
    if StartsWith(s, Slot) {
      var rest := s[|Slot|..];
      assert s[0..] == s;
      assert s == Slot + rest;
      ReplaceTakesBraces(rest, slug);
      SlugsHaveNoBraces(slug);
      BracesAdd(slug, ReplaceAll(rest, slug));
      BracesAdd(Slot, rest);
      assert Slot[0] == '{';
    } else if s != "" {
      HasSlotTail(s);
      ReplaceTakesBraces(s[1..], slug);
      BracesAdd([s[0]], ReplaceAll(s[1..], slug));
      assert s == [s[0]] + s[1..];
      assert [s[0]][1..] == "";
    }
  }

  /** Discovery and resolution name the same database for a slug exactly when the slot does not come
      again after the first one: discovery cuts once, resolution replaces every slot. */
  lemma DiscoveryInvertsResolveIffOneSlot(db: string, slug: string)
    requires ValidSlug(slug) && Cut(db).Some?
    ensures ResolvedName(db, slug) == Ok(Cut(db).value.0 + slug + Cut(db).value.1) <==> !HasSlot(Cut(db).value.1)
  {
    var prefix, suffix := Cut(db).value.0, Cut(db).value.1;
    CutFindsTheFirst(db);
    ReplaceAfterCut(db, slug);
    ReplaceTakesBraces(suffix, slug);
    var head := prefix + slug;
    assert (head + suffix)[|head|..] == suffix;
    assert (head + ReplaceAll(suffix, slug))[|head|..] == ReplaceAll(suffix, slug);
  }

  /** With one slot, the slugs listed are exactly those whose resolved database is a candidate. */
  lemma ListedIffResolvable(db: string, dbs: seq<string>, tenants: seq<string>, slug: string)
    requires Cut(db).Some? && !HasSlot(Cut(db).value.1)
    requires Recovers(tenants, dbs, Cut(db).value.0, Cut(db).value.1)
    ensures slug in tenants <==> ResolvedName(db, slug).Ok? && ResolvedName(db, slug).value in dbs
  {
    CutFindsTheFirst(db);
    if ValidSlug(slug) {
      DiscoveryInvertsResolveIffOneSlot(db, slug);
    }
    assert slug in tenants <==> multiset(tenants)[slug] > 0;
    var name := Cut(db).value.0 + slug + Cut(db).value.1;
    assert name in dbs <==> multiset(dbs)[name] > 0;
  }

  /** If the slot comes again, no database the resolver would ever open matches the pattern, so
      discovery finds none of them.  (A database with literal braces in its name may still match.) */
  lemma RepeatedSlotHidesEveryTenant(db: string, slug: string)
    requires ValidSlug(slug) && Cut(db).Some?
    ensures ResolvedName(db, slug).Ok?
    ensures Like(Pattern(Cut(db).value.0, Cut(db).value.1), ResolvedName(db, slug).value) <==> !HasSlot(Cut(db).value.1)
  {
    var prefix, suffix := Cut(db).value.0, Cut(db).value.1;
    CutFindsTheFirst(db);
    ReplaceAfterCut(db, slug);
    ReplaceTakesBraces(suffix, slug);
    SlugsHaveNoBraces(slug);
    var name, end := ReplaceAll(db, slug), ReplaceAll(suffix, slug);
    PatternMatchesExactly(prefix, suffix, name);
    ThreeParts(prefix, slug, end);
    if m :| name == prefix + m + suffix {
      ThreeParts(prefix, m, suffix);
    }
  }

  lemma ThreeParts(a: string, b: string, c: string)
    ensures Braces(a + b + c) == Braces(a) + Braces(b) + Braces(c)
  {
    BracesAdd(a + b, c);
    BracesAdd(a, b);
  }

  /** Such templates are accepted: the second slot lands in the suffix. */
  lemma SlotTwice()
    ensures Cut(Slot + Slot) == Some(("", Slot)) && HasSlot(Slot)
  {
    assert (Slot + Slot)[..|Slot|] == Slot && (Slot + Slot)[|Slot|..] == Slot;
    assert Slot[0..] == Slot;
  }
}
