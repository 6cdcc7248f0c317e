/**
 When a runtime request is refused, with which status, and what the registry is when it is not:
 in terms of the request and the registry alone, wherever the controllers mirror it.
 */
module Verdicts {
  import opened Common
  import opened Names
  import R = Registry
  import opened E = RegistryEdits
  import opened Availability
  import opened Reconcile
  import opened Mutations
  import opened Effects

  // ---------------------------------------------- what the controllers show

  /** A controller that mirrors its pool lists exactly that pool's members, as declared, and its order. */
  lemma ShownPool(s: State, e: Env, p: string)
    requires Mirror(s, e.url) && p in s.ctls
    ensures Canonical(p) && p in s.reg.pools && R.PoolWF(p, s.reg.pools[p], s.reg.defaultURL, e.url)
    ensures var c, pool := s.ctls[p], s.reg.pools[p];
      && c.declared == pool.priority && (c.members == [] <==> pool.byNick == map[])
      && (forall m :: m in c.members ==> m.nick in pool.byNick && m == Listed(pool, m.nick))
      && (forall n :: Find(c.members, n) == if n in pool.byNick then Some(Listed(pool, n)) else None)
  {
    hide Normalize, Find, Nicks, ConfigOf, Sane, Listing, R.PoolWF;
    ConfigGood(s.reg, p, e.url);
    SanePool(s.reg, p, e.url);
    var c, pool := s.ctls[p], s.reg.pools[p];
    ListingDistinct(pool.byNick.Keys);
    forall n { FindIn(c.members, n); }
    assert Shows(s, p);
    if c.members != [] { assert c.members[0] in c.members; }
    if pool.byNick != map[] {
      var k :| k in pool.byNick;
      assert k in Nicks(c.members);
    }
  }

  function Listed(p: R.Pool, n: string): Member
    requires n in p.byNick
  {
    Member(n, p.byNick[n].credential, p.byNick[n].baseURL)
  }

  lemma Known(s: State, e: Env)
    requires Mirror(s, e.url)
    ensures Sane(s.reg, e.url) && forall n :: (n in s.ctls <==> n in s.reg.pools)
  {
    hide Sane, Shows;
  }

  /** `r` with one pool replaced. */
  ghost function With(r: R.Registry, p: string, pool: R.Pool): R.Registry { r.(pools := r.pools[p := pool]) }

  // ------------------------------------------------------------- one pool edited

  /** A priority is taken exactly if it lists members of the pool, each once; it becomes the pool's. */
  lemma PriorityRuled(s: State, e: Env, q: Request)
    requires Mirror(s, e.url) && q.Priority?
    ensures var p, order := Normalize(q.pool), R.NormalizeAll(q.order);
      Judge(s, e, q) ==
        if p !in s.reg.pools then Reject(404)
        else if !Distinct(order) || exists n :: n in order && n !in s.reg.pools[p].byNick then Reject(400)
        else Commit(With(s.reg, p, s.reg.pools[p].(priority := order)), [p])
  {
    hide Normalize, R.NormalizeAll, WithPriority, Mirror, Sane;
    var p, order := Normalize(q.pool), R.NormalizeAll(q.order);
    Known(s, e);
    if p in s.ctls {
      ShownPool(s, e, p);
      if Distinct(order) && forall n :: n in order ==> n in s.reg.pools[p].byNick {
        Settled(s.reg, p, order, e.url);
        PriorityAccepted(s.reg, p, order, e.url);
        PriorityEffect(s.reg, p, order, e.url);
      }
    }
  }

  /** Members' nicks do not change under normalisation. */
  lemma Settled(r: R.Registry, p: string, order: seq<string>, url: R.UrlCheck)
    requires Sane(r, url) && p in r.pools && forall n :: n in order ==> n in r.pools[p].byNick
    ensures Normalize(p) == p && R.NormalizeAll(order) == order && "" !in order
  {
    hide Normalize, R.NormalizeAll, R.PoolWF;
    SanePool(r, p, url);
    R.NormalizeFixed(order);
  }

  /** A concurrency is taken exactly if it is at least one. */
  lemma ConcurrencyRuled(s: State, e: Env, q: Request)
    requires Mirror(s, e.url) && q.Concurrency?
    ensures var p := Normalize(q.pool);
      Judge(s, e, q) ==
        if q.n < 1 then Reject(400)
        else if p !in s.reg.pools then Reject(404)
        else Commit(With(s.reg, p, s.reg.pools[p].(concurrency := q.n)), [p])
  {
    hide Normalize, WithPoolConcurrency, Mirror, Sane;
    var p := Normalize(q.pool);
    Known(s, e);
    if p in s.ctls && q.n >= 1 {
      ShownPool(s, e, p);
      ConcurrencyAccepted(s.reg, p, q.n, e.url);
      ConcurrencyEffect(s.reg, p, q.n, e.url);
    }
  }

  lemma ConcurrencyAccepted(r: R.Registry, p: string, n: int, url: R.UrlCheck)
    requires Sane(r, url) && Canonical(p) && p in r.pools && n >= 1
    ensures WithPoolConcurrency(r, p, n, url).Some?
  {
    hide Normalize, R.Build, R.SpecOf, R.PoolWF, R.CanonicalPool, R.OneCredential, R.NormalizeAll, R.GoodPriority, R.GoodKeys;
    R.SpecKeys(r);
    OwnShapeGood(r, p, url);
    var was := R.SpecOf(r)[p];
    var ps := was.(concurrency := Some(n));
    forall k | k in ps.members ensures R.GoodMember(ps.members[k], ps, r.defaultURL, url) {
      assert R.GoodMember(was.members[k], was, r.defaultURL, url);
    }
    EditAccepted(r, p, ps, url);
  }

  /** A member is disabled or enabled exactly if the pool has it; only its flag changes. */
  lemma DisableRuled(s: State, e: Env, q: Request)
    requires Mirror(s, e.url) && q.Disable?
    ensures var p, n := Normalize(q.pool), Normalize(q.nick);
      Judge(s, e, q) ==
        if n == "" then Reject(400)
        else if p !in s.reg.pools then Reject(404)
        else if n !in s.reg.pools[p].byNick then Reject(400)
        else
          var was := s.reg.pools[p];
          Commit(With(s.reg, p, was.(byNick := was.byNick[n := was.byNick[n].(disabled := q.off)])), [p])
  {
    hide Normalize, WithMemberDisabled, Mirror, Sane;
    var p, n := Normalize(q.pool), Normalize(q.nick);
    Known(s, e);
    if p in s.ctls {
      ShownPool(s, e, p);
      if n in s.reg.pools[p].byNick {
        Settled(s.reg, p, [n], e.url);
        assert R.NormalizeAll([n])[0] == Normalize(n);
        FlagAccepted(s.reg, p, n, q.off, e.url);
        DisabledEffect(s.reg, p, n, q.off, e.url);
      }
    }
  }

  lemma FlagAccepted(r: R.Registry, p: string, n: string, off: bool, url: R.UrlCheck)
    requires Sane(r, url) && Canonical(p) && Canonical(n) && p in r.pools && n in r.pools[p].byNick
    ensures WithMemberDisabled(r, p, n, off, url).Some?
  {
    hide Normalize, R.Build, R.SpecOf, R.PoolWF, R.CanonicalPool, R.OneCredential, R.NormalizeAll, R.GoodPriority;
    R.SpecKeys(r);
    OwnShapeGood(r, p, url);
    var was := R.SpecOf(r)[p];
    var ps := was.(members := was.members[n := was.members[n].(disabled := off)]);
    assert ps.members.Keys == was.members.Keys;
    forall k | k in ps.members ensures R.GoodMember(ps.members[k], ps, r.defaultURL, url) {
      assert R.GoodMember(was.members[k], was, r.defaultURL, url);
    }
    EditAccepted(r, p, ps, url);
  }

  // ------------------------------------------------------------ a member removed

  /** `now` is `was` without `n`: the other members as they were, the order closed up, and no upstream of its own once emptied. */
  ghost predicate TakenOut(was: R.Pool, now: R.Pool, n: string, def: string) {
    && now == was.(byNick := now.byNick, nicks := now.nicks, baseURL := now.baseURL, priority := now.priority)
    && now.byNick == was.byNick - {n} && IsListing(now.nicks, now.byNick.Keys)
    && now.baseURL == (if now.byNick == map[] then def else was.baseURL)
    && ClosedUp(was.priority, now.priority, n)
  }

  ghost predicate ClosedUp(was: seq<string>, now: seq<string>, n: string) {
    if n in was then exists i :: Cut(was, now, n, i) else now == was
  }

  ghost predicate Cut(was: seq<string>, now: seq<string>, n: string, i: int) {
    0 <= i < |was| && was[i] == n && now == was[..i] + was[i + 1..]
  }

  lemma {:induction false} PruneCloses(order: seq<string>, n: string)
    requires Distinct(order) && forall k :: k in order ==> Normalize(k) == k
    ensures ClosedUp(order, Prune(order, n), n)
  {
    hide Normalize;
    if order != [] {
      var rest := order[1..];
      assert forall k :: k in order <==> k == order[0] || k in rest;
      assert order == [order[0]] + rest;
      PruneCloses(rest, n);
      if order[0] == n {
        assert n !in rest;
        assert Cut(order, Prune(order, n), n, 0);
      } else if n in rest {
        var i :| Cut(rest, Prune(rest, n), n, i);
        assert order[..i + 1] == [order[0]] + rest[..i];
        assert Cut(order, Prune(order, n), n, i + 1);
      }
    }
  }

  lemma MinusTakesOut(r: R.Registry, p: string, n: string, url: R.UrlCheck)
    requires Sane(r, url) && p in r.pools && n in r.pools[p].byNick
    ensures TakenOut(r.pools[p], MinusMember(r.pools[p], n, r.defaultURL), n, r.defaultURL)
  {
    hide Normalize, Listing, Prune, ClosedUp, Sane;
    SanePool(r, p, url);
    var was := r.pools[p];
    forall k | k in was.priority ensures Normalize(k) == k { assert k in was.byNick && Canonical(k); }
    PruneCloses(was.priority, n);
    var now := MinusMember(was, n, r.defaultURL);
    assert now.byNick.Keys == was.byNick.Keys - {n};
    assert now.byNick == map[] <==> now.byNick.Keys == {};
    assert was.byNick.Keys - {n} == {} <==> was.byNick.Keys == {n};
  }

  /** A member is removed exactly if the pool has it. */
  lemma RemoveRuled(s: State, e: Env, q: Request)
    requires Mirror(s, e.url) && q.Remove?
    ensures var p, n, v := Normalize(q.pool), Normalize(q.nick), Judge(s, e, q);
      if n == "" then v == Reject(400)
      else if p !in s.reg.pools then v == Reject(404)
      else if n !in s.reg.pools[p].byNick then v == Reject(400)
      else
        && v.Commit? && v.pools == [p] && p in v.next.pools && v.next == With(s.reg, p, v.next.pools[p])
        && TakenOut(s.reg.pools[p], v.next.pools[p], n, s.reg.defaultURL)
  {
    hide Normalize, WithMemberRemoved, Mirror, Sane, TakenOut, MinusMember;
    var p, n := Normalize(q.pool), Normalize(q.nick);
    Known(s, e);
    if p in s.ctls {
      ShownPool(s, e, p);
      if n in s.reg.pools[p].byNick {
        Settled(s.reg, p, [n], e.url);
        assert R.NormalizeAll([n])[0] == Normalize(n);
        RemovedMemberExactly(s.reg, p, n, e.url);
        MinusTakesOut(s.reg, p, n, e.url);
      }
    }
  }

  // ---------------------------------------------------------------- whole pools

  /** A pool is removed exactly if it is known and has no member left, and nothing goes with it. */
  lemma DropRuled(s: State, e: Env, q: Request)
    requires Mirror(s, e.url) && q.Drop?
    ensures var p := Normalize(q.pool);
      Judge(s, e, q) ==
        if p == "" then Reject(400)
        else if p !in s.reg.pools then Reject(404)
        else if s.reg.pools[p].byNick != map[] then Reject(409)
        else Delete(s.reg.(pools := s.reg.pools - {p}), p)
  {
    hide Normalize, WithPoolRemoved, Mirror, Sane;
    var p := Normalize(q.pool);
    Known(s, e);
    if p in s.ctls {
      ShownPool(s, e, p);
      RemovedEffect(s.reg, p, e.url);
    }
  }

  /** A pool under a new name is filed under that name normalised, if that is free. */
  lemma NewName(r: R.Registry, p: string, ps: R.PoolSpec, url: R.UrlCheck)
    requires Sane(r, url) && p !in r.pools && R.GoodPool(ps, r.defaultURL, url) && R.GoodKeys(ps.members.Keys)
    requires R.Agree(ps, ps) && forall k :: k in r.pools ==> R.Agree(R.SpecOf(r)[k], ps) && R.Agree(ps, R.SpecOf(r)[k])
    ensures var f := Normalize(p);
      R.Build(R.SpecOf(r)[p := ps], r.defaultURL, url)
        == if f == "" || (f != p && f in r.pools) then None else Some(With(r, f, R.MakePool(f, ps, r.defaultURL)))
  {
    hide Normalize, R.GoodPool, R.MakePool, R.SpecOfPool, Sane, R.Agree, R.Build;
    var f, spec, def := Normalize(p), R.SpecOf(r)[p := ps], r.defaultURL;
    OwnSpecValid(r, url);
    R.SpecKeys(r);
    forall k | k in r.pools ensures Normalize(k) == k && k != "" { SanePool(r, k, url); }
    NewNameValid(R.SpecOf(r), p, ps, def, url);
    if R.Build(spec, def, url).Some? { NewNameBuilt(r, p, ps, url); }
    if R.Valid(spec, def, url) { ValidBuilds(spec, def, url); }
    if R.Build(spec, def, url).Some? { R.BuildDefault(spec, def, url); }
  }

  lemma NewNameValid(spec: R.Spec, p: string, ps: R.PoolSpec, def: string, url: R.UrlCheck)
    requires R.Valid(spec, def, url) && p !in spec && R.GoodPool(ps, def, url) && R.Agree(ps, ps)
    requires forall k :: k in spec ==> Normalize(k) == k && R.Agree(spec[k], ps) && R.Agree(ps, spec[k])
    ensures R.Valid(spec[p := ps], def, url) <==> Normalize(p) != "" && (Normalize(p) == p || Normalize(p) !in spec)
  {
    hide Normalize, R.GoodPool, R.Agree;
    var next := spec[p := ps];
    assert p in next && next[p] == ps;
    forall k | k in spec ensures k in next && next[k] == spec[k] {}
    if Normalize(p) != "" && (Normalize(p) == p || Normalize(p) !in spec) {
      forall a, b | a in next && b in next ensures R.Agree(next[a], next[b]) {
        if a != p && b != p { assert R.Agree(spec[a], spec[b]); }
      }
    }
  }

  lemma NewNameBuilt(r: R.Registry, p: string, ps: R.PoolSpec, url: R.UrlCheck)
    requires Sane(r, url) && p !in r.pools && R.GoodKeys(ps.members.Keys)
    requires R.Build(R.SpecOf(r)[p := ps], r.defaultURL, url).Some?
    ensures var f := Normalize(p);
      R.Build(R.SpecOf(r)[p := ps], r.defaultURL, url) == Some(With(r, f, R.MakePool(f, ps, r.defaultURL)))
  {
    hide Normalize, R.Build, R.MakePool, R.GoodKeys, R.PoolWF, R.SpecOf, R.SpecOfPool, Sane, R.CanonicalPool, R.GoodPool;
    var f, spec, def := Normalize(p), R.SpecOf(r)[p := ps], r.defaultURL;
    R.SpecKeys(r);
    R.BuildDefault(spec, def, url);
    var next := R.Build(spec, def, url).value;
    R.PoolAt(spec, def, url, p);
    forall q | q in r.pools ensures q in next.pools && next.pools[q] == r.pools[q] {
      SanePool(r, q, url);
      R.PoolAt(spec, def, url, q);
      R.PoolRoundTrip(q, r.pools[q], def, url);
    }
    forall q | q in next.pools ensures q in r.pools || q == f {
      var k := R.PoolFrom(spec, def, url, q);
      if k != p { SanePool(r, k, url); }
    }
    assert next.pools == r.pools[f := R.MakePool(f, ps, def)];
  }

  /**
   A pool is renamed exactly if it is known and the new name is another one that is free, as the controllers and the
   registry read it, and again as the registry files it. It keeps all it has.
   */
  lemma RenameRuled(s: State, e: Env, q: Request)
    requires Mirror(s, e.url) && q.Rename?
    ensures var from, to := Normalize(q.pool), Normalize(q.to);
      var seen, filed, rest := Normalize(to), Normalize(Normalize(to)), s.reg.pools - {from};
      Judge(s, e, q) ==
        if from == "" || to == "" || from == to then Reject(400)
        else if from !in s.reg.pools then Reject(404)
        else if seen in s.reg.pools then Reject(409)
        else if seen == "" || filed == "" || (filed != seen && filed in rest) then Reject(400)
        else Move(s.reg.(pools := rest[filed := Renamed(s.reg.pools[from], filed)]), from, to)
  {
    hide Normalize, WithPoolRenamed, Mirror, Sane, Renamed;
    var from, to := Normalize(q.pool), Normalize(q.to);
    Known(s, e);
    if from in s.ctls {
      ShownPool(s, e, from);
      if to in s.ctls { ShownPool(s, e, to); }
      if Normalize(to) == "" || Normalize(to) in s.reg.pools {
        RenameTaken(s.reg, from, to, e.url);
      } else {
        RenameFiled(s.reg, from, to, e.url);
      }
    }
  }

  lemma RenameTaken(r: R.Registry, from: string, to: string, url: R.UrlCheck)
    requires Canonical(from) && (Normalize(to) == "" || Normalize(to) in r.pools)
    ensures WithPoolRenamed(r, from, to, url).None?
  {
    hide Normalize, R.Build;
    R.SpecKeys(r);
  }

  lemma RenameFiled(r: R.Registry, from: string, to: string, url: R.UrlCheck)
    requires Sane(r, url) && Canonical(from) && from in r.pools && Normalize(to) !in r.pools && Normalize(to) != ""
    ensures var seen, filed, rest := Normalize(to), Normalize(Normalize(to)), r.pools - {from};
      WithPoolRenamed(r, from, to, url)
        == if filed == "" || (filed != seen && filed in rest) then None
           else Some(r.(pools := rest[filed := Renamed(r.pools[from], filed)]))
  {
    hide Normalize, R.Build, R.PoolWF, R.CanonicalPool, R.OneCredential, R.MakePool, R.GoodPool, R.GoodKeys, R.SpecOfPool, R.Agree,
         Renamed;
    R.SpecKeys(r);
    SanePool(r, from, url);
    var seen, rest, ps := Normalize(to), r.(pools := r.pools - {from}), R.SpecOf(r)[from];
    assert R.SpecOf(rest) == R.SpecOf(r) - {from};
    OwnShapeGood(r, from, url);
    R.GoodPoolKeys(ps, r.defaultURL, url);
    R.SpecBijective(r, url);
    forall k | k in rest.pools ensures R.Agree(R.SpecOf(rest)[k], ps) && R.Agree(ps, R.SpecOf(rest)[k]) {
      assert R.SpecOf(rest)[k] == R.SpecOf(r)[k];
    }
    NewName(rest, seen, ps, url);
    RebuildRenamed(from, r.pools[from], Normalize(seen), r.defaultURL, url);
  }

  // -------------------------------------------------------------- a member added

  /** Nothing declared contradicts the nick with that credential: the nick has no other anywhere, and the credential no other nick. */
  ghost predicate Agrees(r: R.Registry, p: string, n: string, filed: string, cred: string) {
    forall q, k :: q in r.pools && k in r.pools[q].byNick && !(q == p && k == n) ==>
      (k == filed <==> r.pools[q].byNick[k].credential == cred)
  }

  /** What setting member `n` of pool `p`, filed as `filed`, takes. */
  ghost predicate Settable(r: R.Registry, p: string, n: string, cred: string, at: string, url: R.UrlCheck)
    requires p in r.pools
  {
    var filed, upstream := Normalize(n), if at != "" then at else r.pools[p].baseURL;
    && filed != "" && (filed == n || filed !in r.pools[p].byNick)
    && cred != "" && upstream != "" && url(upstream) && Agrees(r, p, n, filed, cred)
  }

  /** `was` with the member written in. */
  ghost function WithOne(was: R.Pool, filed: string, cred: string, at: string, off: bool): R.Pool {
    was.(byNick := was.byNick[filed := R.Backend(was.name, filed, cred, if at != "" then at else was.baseURL, off)],
         nicks := Listing(was.byNick.Keys + {filed}))
  }

  /** Setting a member: accepted exactly when nothing speaks against it, and nothing else changes. */
  lemma SetRuled(r: R.Registry, p: string, nick: string, cred: string, at: string, off: bool, url: R.UrlCheck)
    requires Sane(r, url) && Canonical(p)
    ensures var n := Normalize(nick);
      WithMemberSet(r, p, nick, cred, at, off, url)
        == if p in r.pools && Settable(r, p, n, cred, at, url)
           then Some(With(r, p, WithOne(r.pools[p], Normalize(n), cred, at, off))) else None
  {
    hide Normalize, R.Build, R.MakePool, R.GoodKeys, R.PoolWF, R.SpecOf, R.SpecOfPool, Sane, R.CanonicalPool, R.GoodPool, Settable,
         WithOne;
    R.SpecKeys(r);
    if p in r.pools {
      var n, m := Normalize(nick), R.MemberSpec(cred, at, off);
      var ps := Shape(r, p, n, m);
      if Settable(r, p, n, cred, at, url) {
        SetValid(r, p, n, m, url);
        ValidBuilds(R.SpecOf(r)[p := ps], r.defaultURL, url);
      }
      if R.Build(R.SpecOf(r)[p := ps], r.defaultURL, url).Some? {
        R.BuildDefault(R.SpecOf(r)[p := ps], r.defaultURL, url);
        SetOnlyIf(r, p, n, m, url);
        EditOnePool(r, p, ps, url);
        RebuildFiled(r, p, n, m, url);
      }
    }
  }

  /** The pool's file shape with the member written in. */
  function Shape(r: R.Registry, p: string, n: string, m: R.MemberSpec): R.PoolSpec
    requires p in r.pools
  {
    var was := R.SpecOfPool(r.pools[p], r.defaultURL);
    was.(members := was.members[n := m])
  }

  lemma SetValid(r: R.Registry, p: string, n: string, m: R.MemberSpec, url: R.UrlCheck)
    requires Sane(r, url) && p in r.pools && Settable(r, p, n, m.credential, m.baseURL, url)
    ensures R.Valid(R.SpecOf(r)[p := Shape(r, p, n, m)], r.defaultURL, url)
  {
    hide Normalize, R.GoodPool, R.GoodKeys, R.SpecOf, R.SpecOfPool, Sane, Settable, R.Agree, Shape;
    R.SpecKeys(r);
    OwnSpecValid(r, url);
    SetGood(r, p, n, m, url);
    var was, ps := R.SpecOf(r), Shape(r, p, n, m);
    var next := was[p := ps];
    assert next.Keys == was.Keys;
    forall a, b | a in next && b in next ensures R.Agree(next[a], next[b]) {
      assert R.Agree(was[a], was[b]);
      if a == p || b == p { SetAgree(r, p, n, m, a, b, url); }
    }
  }

  lemma SetAgree(r: R.Registry, p: string, n: string, m: R.MemberSpec, a: string, b: string, url: R.UrlCheck)
    requires Sane(r, url) && p in r.pools && Settable(r, p, n, m.credential, m.baseURL, url) && a in r.pools && b in r.pools
    ensures var next := R.SpecOf(r)[p := Shape(r, p, n, m)]; R.Agree(next[a], next[b])
  {
    hide Normalize, R.PoolWF, R.SpecOf, Shape, R.CanonicalPool;
    R.SpecKeys(r);
    var next := R.SpecOf(r)[p := Shape(r, p, n, m)];
    forall j, k | j in next[a].members && k in next[b].members
      ensures Normalize(j) == Normalize(k) <==> next[a].members[j].credential == next[b].members[k].credential
    {
      FiledAs(r, p, n, m, a, j, url);
      FiledAs(r, p, n, m, b, k, url);
      if !(a == p && j == n) && !(b == p && k == n) { assert R.OneCredential(r.pools[a], r.pools[b]); }
    }
  }

  /** Under which nick a member of the edited shape is filed, and with which credential. */
  lemma FiledAs(r: R.Registry, p: string, n: string, m: R.MemberSpec, a: string, j: string, url: R.UrlCheck)
    requires Sane(r, url) && p in r.pools && a in r.pools && j in R.SpecOf(r)[p := Shape(r, p, n, m)][a].members
    ensures var cred := R.SpecOf(r)[p := Shape(r, p, n, m)][a].members[j].credential;
      if a == p && j == n then cred == m.credential
      else j in r.pools[a].byNick && Normalize(j) == j && cred == r.pools[a].byNick[j].credential
  {
    hide Normalize, R.PoolWF, R.WF;
    R.SpecKeys(r);
    SanePool(r, a, url);
    if !(a == p && j == n) { assert j in r.pools[a].byNick && Canonical(j); }
  }

  lemma SetGood(r: R.Registry, p: string, n: string, m: R.MemberSpec, url: R.UrlCheck)
    requires Sane(r, url) && p in r.pools && Settable(r, p, n, m.credential, m.baseURL, url)
    ensures R.GoodPool(Shape(r, p, n, m), r.defaultURL, url)
  {
    hide Normalize, R.NormalizeAll, R.GoodKeys, R.GoodMember, R.GoodPriority, Sane, Agrees, R.PoolWF, R.CanonicalPool;
    R.SpecKeys(r);
    OwnShapeGood(r, p, url);
    SanePool(r, p, url);
    var was, ps := R.SpecOf(r)[p], Shape(r, p, n, m);
    SetKeysGood(was.members.Keys, n, r, p);
    assert ps.members.Keys == was.members.Keys + {n};
    MorePriority(R.NormalizeAll(ps.priority), was.members.Keys, ps.members.Keys);
    UpstreamKept(r, p, n, m, url);
    SetMemberGood(r, p, n, m, url);
    forall k | k in ps.members ensures R.GoodMember(ps.members[k], ps, r.defaultURL, url) {
      if k != n { SameMember(was.members[k], was, ps, r.defaultURL, url); }
    }
  }

  lemma SetKeysGood(keys: set<string>, n: string, r: R.Registry, p: string)
    requires p in r.pools && keys == r.pools[p].byNick.Keys && R.CanonicalPool(r.pools[p])
    requires Normalize(n) != "" && (Normalize(n) == n || Normalize(n) !in keys)
    ensures R.GoodKeys(keys + {n})
  {
    hide Normalize;
    forall k | k in keys ensures Normalize(k) == k && k != "" { assert Canonical(k); }
  }

  lemma MorePriority(order: seq<string>, keys: set<string>, more: set<string>)
    requires R.GoodPriority(order, keys) && keys <= more
    ensures R.GoodPriority(order, more)
  {
    hide Normalize;
    forall k | k in order ensures exists j :: j in more && Normalize(j) == k {
      var j :| j in keys && Normalize(j) == k;
      assert j in more;
    }
  }

  lemma SameMember(m: R.MemberSpec, was: R.PoolSpec, ps: R.PoolSpec, def: string, url: R.UrlCheck)
    requires R.GoodMember(m, was, def, url) && ps.baseURL == was.baseURL
    ensures R.GoodMember(m, ps, def, url)
  {
  }

  lemma SetMemberGood(r: R.Registry, p: string, n: string, m: R.MemberSpec, url: R.UrlCheck)
    requires p in r.pools && Settable(r, p, n, m.credential, m.baseURL, url)
    requires R.PoolURL(Shape(r, p, n, m), r.defaultURL) == r.pools[p].baseURL
    ensures R.GoodMember(m, Shape(r, p, n, m), r.defaultURL, url)
  {
    hide Normalize, Agrees, Shape;
  }

  lemma SetOnlyIf(r: R.Registry, p: string, n: string, m: R.MemberSpec, url: R.UrlCheck)
    requires Sane(r, url) && p in r.pools && R.Valid(R.SpecOf(r)[p := Shape(r, p, n, m)], r.defaultURL, url)
    ensures Settable(r, p, n, m.credential, m.baseURL, url)
  {
    hide Normalize, R.NormalizeAll, R.GoodPool, R.GoodKeys, R.Agree, R.SpecOf, Shape, Sane, R.SpecOfPool;
    R.SpecKeys(r);
    var ps := Shape(r, p, n, m);
    var next := R.SpecOf(r)[p := ps];
    assert p in next && next[p] == ps;
    SetByItself(r, p, n, m, url);
    forall q, k | q in r.pools && k in r.pools[q].byNick && !(q == p && k == n)
      ensures k == Normalize(n) <==> r.pools[q].byNick[k].credential == m.credential
    {
      assert q in next && R.Agree(next[q], next[p]);
      OthersAgree(r, p, n, m, q, k, url);
    }
  }

  lemma SetByItself(r: R.Registry, p: string, n: string, m: R.MemberSpec, url: R.UrlCheck)
    requires Sane(r, url) && p in r.pools && R.GoodPool(Shape(r, p, n, m), r.defaultURL, url)
    ensures var filed, upstream := Normalize(n), if m.baseURL != "" then m.baseURL else r.pools[p].baseURL;
      && filed != "" && (filed == n || filed !in r.pools[p].byNick)
      && m.credential != "" && upstream != "" && url(upstream)
  {
    hide Normalize, R.NormalizeAll, R.OneCredential, R.GoodPriority;
    SanePool(r, p, url);
    var ps := Shape(r, p, n, m);
    assert n in ps.members.Keys && R.GoodMember(ps.members[n], ps, r.defaultURL, url);
    assert R.PoolURL(ps, r.defaultURL) == r.pools[p].baseURL;
    if Normalize(n) in r.pools[p].byNick {
      assert Normalize(n) in ps.members.Keys && Canonical(Normalize(n));
    }
  }

  lemma OthersAgree(r: R.Registry, p: string, n: string, m: R.MemberSpec, q: string, k: string, url: R.UrlCheck)
    requires Sane(r, url) && p in r.pools && q in r.pools && k in r.pools[q].byNick && !(q == p && k == n)
    requires var next := R.SpecOf(r)[p := Shape(r, p, n, m)]; R.Agree(next[q], next[p])
    ensures k == Normalize(n) <==> r.pools[q].byNick[k].credential == m.credential
  {
    hide Normalize, R.PoolWF;
    R.SpecKeys(r);
    SanePool(r, q, url);
    var next := R.SpecOf(r)[p := Shape(r, p, n, m)];
    assert Canonical(k) && k in next[q].members && n in next[p].members;
    assert next[q].members[k].credential == r.pools[q].byNick[k].credential;
  }

  /** The shape with a member written in, rebuilt, is the pool with it written in under the nick it is filed under. */
  lemma RebuildFiled(r: R.Registry, p: string, n: string, m: R.MemberSpec, url: R.UrlCheck)
    requires Sane(r, url) && p in r.pools && R.GoodKeys(Shape(r, p, n, m).members.Keys)
    ensures R.MakePool(p, Shape(r, p, n, m), r.defaultURL) == WithOne(r.pools[p], Normalize(n), m.credential, m.baseURL, m.disabled)
  {
    hide Normalize, R.GoodKeys, R.MakePool, Listing, R.OneCredential, R.NormalizeAll, R.PoolWF, R.SpecOfPool;
    SanePool(r, p, url);
    var was, ps := r.pools[p], Shape(r, p, n, m);
    OwnMembers(p, was, r.defaultURL, url);
    ShapeFields(p, was, r.defaultURL, url);
    MadeFields(p, ps, r.defaultURL);
    UpstreamKept(r, p, n, m, url);
    var made, now := R.MakePool(p, ps, r.defaultURL), WithOne(was, Normalize(n), m.credential, m.baseURL, m.disabled);
    forall k | k in made.byNick ensures k in now.byNick && now.byNick[k] == made.byNick[k] {
      var j := R.MemberFrom(p, ps, r.defaultURL, k);
      if j == n {
      } else {
        assert Canonical(j);
        if k == Normalize(n) { KeysApart(ps.members.Keys, j, n); }
      }
    }
    R.MemberAt(p, ps, r.defaultURL, n);
    forall k | k in was.byNick ensures k in made.byNick {
      R.MemberAt(p, ps, r.defaultURL, k);
      assert Canonical(k);
    }
    assert made.byNick == now.byNick;
    assert made.byNick.Keys == was.byNick.Keys + {Normalize(n)};
  }

  lemma KeysApart(keys: set<string>, j: string, k: string)
    requires R.GoodKeys(keys) && j in keys && k in keys && Normalize(j) == Normalize(k)
    ensures j == k
  {
    hide Normalize;
  }

  lemma UpstreamKept(r: R.Registry, p: string, n: string, m: R.MemberSpec, url: R.UrlCheck)
    requires p in r.pools && R.PoolWF(p, r.pools[p], r.defaultURL, url)
    ensures R.PoolURL(Shape(r, p, n, m), r.defaultURL) == r.pools[p].baseURL
  {
    hide Normalize;
  }

  // -------------------------------------------------- what a request leaves out

  /** Another pool than `p` declares the nick with that credential; with that upstream. */
  ghost predicate Lends(r: R.Registry, p: string, n: string, cred: string) {
    exists q :: q in r.pools && q != p && n in r.pools[q].byNick && r.pools[q].byNick[n].credential == cred
  }

  ghost predicate LendsURL(r: R.Registry, p: string, n: string, at: string) {
    exists q :: q in r.pools && q != p && n in r.pools[q].byNick && r.pools[q].byNick[n].baseURL == at
  }

  /** What is given counts. An omitted credential is borrowed, and so is an omitted upstream unless the other pools differ; nobody's is "". */
  ghost predicate Sourced(r: R.Registry, p: string, n: string, cred: string, baseURL: string, c: string, at: string) {
    && (if cred != "" then c == cred else Lends(r, p, n, c))
    && (if baseURL != "" then at == baseURL
        else (at == "" || LendsURL(r, p, n, at)) && forall u :: LendsURL(r, p, n, u) ==> u == at)
  }

  lemma BorrowRuled(r: R.Registry, p: string, nick: string, cred: string, baseURL: string, url: R.UrlCheck)
    requires Sane(r, url)
    ensures var b, n := Borrow(r, p, nick, cred, baseURL), Normalize(nick);
      && (b.Some? ==> Sourced(r, p, n, cred, baseURL, b.value.credential, b.value.baseURL))
      && (b.None? ==> forall c, at :: !Sourced(r, p, n, cred, baseURL, c, at))
      && (b.Some? ==> forall c, at :: Sourced(r, p, n, cred, baseURL, c, at) ==> c == b.value.credential && at == b.value.baseURL)
  {
    hide Normalize, Sane, R.OneCredential, CredsElsewhere, URLsElsewhere, Lends, LendsURL;
    var n := Normalize(nick);
    var creds, urls := CredsElsewhere(r, p, nick), URLsElsewhere(r, p, nick);
    forall c { CredsLent(r, p, nick, c, url); }
    forall u { URLsLent(r, p, nick, u, url); }
    OneLent(r, p, n, url);
    Few(creds);
    Few(urls);
  }

  lemma CredsLent(r: R.Registry, p: string, nick: string, c: string, url: R.UrlCheck)
    requires Sane(r, url)
    ensures c in CredsElsewhere(r, p, nick) <==> Lends(r, p, Normalize(nick), c)
  {
    hide Normalize, Sane, R.CanonicalPool;
    forall q | q in r.pools ensures Normalize(q) == q && R.PoolWF(q, r.pools[q], r.defaultURL, url) { SanePool(r, q, url); }
    if c in CredsElsewhere(r, p, nick) {
      var q :| q in r.pools && q != p && ResolveIn(r, q, nick).Some? && ResolveIn(r, q, nick).value.credential == c;
    }
    if Lends(r, p, Normalize(nick), c) {
      var q :| q in r.pools && q != p && Normalize(nick) in r.pools[q].byNick && r.pools[q].byNick[Normalize(nick)].credential == c;
      assert ResolveIn(r, q, nick).Some? && ResolveIn(r, q, nick).value.credential == c;
    }
  }

  lemma URLsLent(r: R.Registry, p: string, nick: string, u: string, url: R.UrlCheck)
    requires Sane(r, url)
    ensures u in URLsElsewhere(r, p, nick) <==> LendsURL(r, p, Normalize(nick), u)
    ensures LendsURL(r, p, Normalize(nick), u) ==> u != ""
  {
    hide Normalize, Sane, R.CanonicalPool;
    forall q | q in r.pools ensures Normalize(q) == q && R.PoolWF(q, r.pools[q], r.defaultURL, url) { SanePool(r, q, url); }
    if u in URLsElsewhere(r, p, nick) {
      var q :| q in r.pools && q != p && ResolveIn(r, q, nick).Some? && ResolveIn(r, q, nick).value.baseURL == u;
    }
    if LendsURL(r, p, Normalize(nick), u) {
      var q :| q in r.pools && q != p && Normalize(nick) in r.pools[q].byNick && r.pools[q].byNick[Normalize(nick)].baseURL == u;
      assert ResolveIn(r, q, nick).Some? && ResolveIn(r, q, nick).value.baseURL == u;
    }
  }

  /** A nick has one credential, wherever it is declared. */
  lemma OneLent(r: R.Registry, p: string, n: string, url: R.UrlCheck)
    requires Sane(r, url)
    ensures forall c, d :: Lends(r, p, n, c) && Lends(r, p, n, d) ==> c == d
  {
    hide R.PoolWF, R.CanonicalPool;
    forall c, d | Lends(r, p, n, c) && Lends(r, p, n, d) ensures c == d {
      var a :| a in r.pools && a != p && n in r.pools[a].byNick && r.pools[a].byNick[n].credential == c;
      var b :| b in r.pools && b != p && n in r.pools[b].byNick && r.pools[b].byNick[n].credential == d;
      assert R.OneCredential(r.pools[a], r.pools[b]);
    }
  }

  lemma Few(s: set<string>)
    ensures |s| == 0 <==> s == {}
    ensures |s| == 1 <==> s != {} && forall x, y :: x in s && y in s ==> x == y
  {
    if s != {} {
      var x :| x in s;
      if |s| == 1 {
        Singleton(s, x);
      } else if forall y :: y in s ==> x == y {
        assert s == {x};
      }
    }
  }

  /** Every member of the pool has the same upstream. */
  ghost predicate Uniform(p: R.Pool) {
    p.byNick != map[] && forall j, k :: j in p.byNick && k in p.byNick ==> p.byNick[j].baseURL == p.byNick[k].baseURL
  }

  /** The upstream of a member that comes with none: what all members have, if they agree, or else the default. */
  ghost predicate Upstream(p: R.Pool, def: string, at: string, u: string) {
    if at != "" then u == at
    else if Uniform(p) then forall k :: k in p.byNick ==> p.byNick[k].baseURL == u
    else u == def
  }

  lemma UpstreamRuled(s: State, e: Env, p: string, at: string, u: string)
    requires Mirror(s, e.url) && p in s.ctls && p in s.reg.pools
    requires u == if at == "" then PoolDefault(s, e, s.ctls[p]) else at
    ensures Upstream(s.reg.pools[p], if e.gateway != "" then e.gateway else s.reg.defaultURL, at, u)
  {
    hide Mirror, Find;
    ShownPool(s, e, p);
    var c, pool := s.ctls[p], s.reg.pools[p];
    forall k | k in pool.byNick ensures Listed(pool, k) in c.members { assert Find(c.members, k) == Some(Listed(pool, k)); }
    if c.members != [] { assert c.members[0] in c.members; }
  }

  // ------------------------------------------------------------------ additions

  /** An ordered pool demands an order of members and the newcomer, each once; another refuses one. */
  ghost predicate WellPlaced(p: R.Pool, n: string, placement: seq<string>) {
    var order := R.NormalizeAll(placement);
    if p.priority == [] then placement == []
    else Distinct(order) && n in order && forall k :: k in order ==> k == n || k in p.byNick
  }

  lemma PlacedRuled(s: State, e: Env, p: string, n: string, placement: seq<string>)
    requires Mirror(s, e.url) && p in s.ctls && p in s.reg.pools && n != ""
    ensures Placed(s.ctls[p], n, placement) <==> WellPlaced(s.reg.pools[p], n, placement)
  {
    hide Mirror, Find, R.NormalizeAll;
    ShownPool(s, e, p);
  }

  /** The outcome once credential and upstream are known. */
  ghost function Outcome(r: R.Registry, e: Env, p: string, n: string, cred: string, u: string, order: seq<string>): Verdict
    requires p in r.pools
  {
    var was, stored := r.pools[p], R.NormalizeAll(R.NormalizeAll(order));
    var now := WithOne(was, Twice(n), cred, u, false);
    if !Settable(r, p, Normalize(n), cred, u, e.url) then Reject(400)
    else if was.priority == [] then Commit(With(r, p, now), [p])
    else if Canonical(Twice(n)) && Distinct(stored) then Commit(With(r, p, now.(priority := stored)), [p])
    else Reject(400)
  }

  /** Adding `n`, a nick normalised once, to `p`, in all cases. */
  ghost predicate AddAnswer(r: R.Registry, e: Env, p: string, n: string, cred: string, baseURL: string, placement: seq<string>,
                            v: Verdict)
  {
    if baseURL != "" && !e.url(baseURL) then v == Reject(400)
    else if p !in r.pools then v == Reject(404)
    else if forall c, at :: !Sourced(r, p, Normalize(n), cred, baseURL, c, at) then v == Reject(400)
    else if n in r.pools[p].byNick then v == Reject(409)
    else if !WellPlaced(r.pools[p], n, placement) then v == Reject(400)
    else
      exists c, at, u ::
        && Sourced(r, p, Normalize(n), cred, baseURL, c, at)
        && Upstream(r.pools[p], if e.gateway != "" then e.gateway else r.defaultURL, at, u)
        && v == Outcome(r, e, p, n, c, u, R.NormalizeAll(placement))
  }

  lemma OrderRuled(r: R.Registry, p: string, order: seq<string>, url: R.UrlCheck)
    requires Sane(r, url) && Canonical(p) && p in r.pools
    ensures var stored := R.NormalizeAll(R.NormalizeAll(order));
      WithPriority(r, p, order, url)
        == if Distinct(stored) && forall n :: n in stored ==> n in r.pools[p].byNick
           then Some(With(r, p, r.pools[p].(priority := stored))) else None
  {
    hide Normalize, R.NormalizeAll, WithPriority, Sane, R.WF;
    var stored := R.NormalizeAll(R.NormalizeAll(order));
    if Distinct(stored) && forall n :: n in stored ==> n in r.pools[p].byNick { PriorityAccepted(r, p, order, url); }
    if WithPriority(r, p, order, url).Some? {
      PriorityEffect(r, p, order, url);
      PriorityCommit(r, p, order, url);
      var next := WithPriority(r, p, order, url).value;
      CommitSane(r, next, [p], url);
      SanePool(next, p, url);
      assert next.pools[p].priority == stored && next.pools[p].byNick == r.pools[p].byNick;
    }
  }

  lemma AddedRuled(s: State, e: Env, p: string, n: string, cred: string, u: string, placement: seq<string>)
    requires Mirror(s, e.url) && p in s.reg.pools && p in s.ctls && n !in s.reg.pools[p].byNick
    requires WellPlaced(s.reg.pools[p], n, placement)
    ensures var r, order := s.reg, R.NormalizeAll(placement);
      OrReject(Added(r, e, p, n, cred, u, s.ctls[p].declared != [], order), 400, [p]) == Outcome(r, e, p, n, cred, u, order)
  {
    hide Normalize, R.NormalizeAll, WithMemberSet, WithPriority, Sane, Settable, WithOne, Mirror, R.PoolWF;
    var r, order := s.reg, R.NormalizeAll(placement);
    ShownPool(s, e, p);
    Known(s, e);
    SetRuled(r, p, n, cred, u, false, e.url);
    if Settable(r, p, Normalize(n), cred, u, e.url) && r.pools[p].priority != [] { PlacedRulings(r, e, p, n, cred, u, order); }
  }

  lemma PlacedRulings(r: R.Registry, e: Env, p: string, n: string, cred: string, u: string, order: seq<string>)
    requires Sane(r, e.url) && Canonical(p) && p in r.pools && Settable(r, p, Normalize(n), cred, u, e.url)
    requires n in order && forall k :: k in order ==> k == n || k in r.pools[p].byNick
    ensures var mid, stored := With(r, p, WithOne(r.pools[p], Twice(n), cred, u, false)), R.NormalizeAll(R.NormalizeAll(order));
      WithPriority(mid, p, order, e.url)
        == if Canonical(Twice(n)) && Distinct(stored) then Some(With(r, p, mid.pools[p].(priority := stored))) else None
  {
    hide Canonical, Twice, R.NormalizeAll, WithMemberSet, WithPriority, Sane, Settable, WithOne;
    var mid, stored := With(r, p, WithOne(r.pools[p], Twice(n), cred, u, false)), R.NormalizeAll(R.NormalizeAll(order));
    SetRuled(r, p, n, cred, u, false, e.url);
    assert Normalize(Normalize(n)) == Twice(n) by { TwiceIs(n); }
    MemberSetExactly(r, p, n, cred, u, false, e.url);
    if Canonical(Twice(n)) {
      OrderRuled(mid, p, order, e.url);
      WithOneFields(r.pools[p], Twice(n), cred, u);
      StoredKnown(r, p, n, order, e.url);
      WithTwice(r, p, mid.pools[p], mid.pools[p].(priority := stored));
    } else {
      UnsettledUnplaced(r, mid, p, n, order, e.url);
    }
  }

  lemma TwiceIs(n: string)
    ensures Twice(n) == Normalize(Normalize(n))
  {
  }

  lemma WithOneFields(was: R.Pool, filed: string, cred: string, u: string)
    ensures var now := WithOne(was, filed, cred, u, false);
      now.priority == was.priority && now.byNick.Keys == was.byNick.Keys + {filed}
  {
  }

  lemma StoredKnown(r: R.Registry, p: string, n: string, order: seq<string>, url: R.UrlCheck)
    requires Sane(r, url) && p in r.pools && forall k :: k in order ==> k == n || k in r.pools[p].byNick
    ensures forall k :: k in R.NormalizeAll(R.NormalizeAll(order)) ==> k == Twice(n) || k in r.pools[p].byNick
  {
    hide Normalize, R.NormalizeAll, R.PoolWF, R.WF;
    SanePool(r, p, url);
    var stored := R.NormalizeAll(R.NormalizeAll(order));
    forall i | 0 <= i < |stored| ensures stored[i] == Twice(n) || stored[i] in r.pools[p].byNick {
      assert stored[i] == Twice(order[i]) && order[i] in order;
      if order[i] in r.pools[p].byNick { assert Canonical(order[i]); }
    }
  }

  lemma AddAnswered(s: State, e: Env, p: string, n: string, cred: string, baseURL: string, placement: seq<string>)
    requires Mirror(s, e.url) && n != ""
    ensures AddAnswer(s.reg, e, p, n, cred, baseURL, placement, JudgeAdd(s, e, p, n, cred, baseURL, placement))
  {
    hide Normalize, R.NormalizeAll, Added, Sane, Settable, Mirror, Borrow, Sourced, Upstream, WellPlaced, Placed, PoolDefault, Outcome;
    Known(s, e);
    if p in s.ctls {
      var r, c := s.reg, s.ctls[p];
      ShownPool(s, e, p);
      BorrowRuled(r, p, n, cred, baseURL, e.url);
      PlacedRuled(s, e, p, n, placement);
      var src := Borrow(r, p, n, cred, baseURL);
      if src.Some? {
        var u := if src.value.baseURL == "" then PoolDefault(s, e, c) else src.value.baseURL;
        UpstreamRuled(s, e, p, src.value.baseURL, u);
        if n !in r.pools[p].byNick && WellPlaced(r.pools[p], n, placement) {
          AddedRuled(s, e, p, n, src.value.credential, u, placement);
        }
      }
    }
  }

  /** A member is added exactly as `AddAnswer` says. */
  lemma AddRuled(s: State, e: Env, q: Request)
    requires Mirror(s, e.url) && q.Add?
    ensures var n, v := Normalize(q.nick), Judge(s, e, q);
      if n == "" then v == Reject(400)
      else AddAnswer(s.reg, e, Normalize(q.pool), n, q.cred, q.baseURL, q.placement, v)
  {
    hide Normalize, AddAnswer, JudgeAdd, Mirror;
    if Normalize(q.nick) != "" { AddAnswered(s, e, Normalize(q.pool), Normalize(q.nick), q.cred, q.baseURL, q.placement); }
  }

  // ------------------------------------------------------------------ rotations

  /** The member with another credential. */
  ghost function Rotated(p: R.Pool, n: string, cred: string): R.Pool
    requires n in p.byNick
  {
    p.(byNick := p.byNick[n := p.byNick[n].(credential := cred)])
  }

  /** A rotation is accepted exactly when the new credential contradicts nothing declared. */
  lemma RotateRuled(r: R.Registry, p: string, n: string, cred: string, url: R.UrlCheck)
    requires Sane(r, url) && Canonical(p) && p in r.pools
    ensures Rotate(r, p, n, cred, url)
         == if n in r.pools[p].byNick && cred != "" && Agrees(r, p, n, n, cred)
            then Some(With(r, p, Rotated(r.pools[p], n, cred))) else None
  {
    hide Normalize, R.Build, Sane, R.SpecOf, R.PoolWF, Agrees;
    R.SpecKeys(r);
    if n in r.pools[p].byNick {
      Settled(r, p, [n], url);
      assert R.NormalizeAll([n])[0] == Normalize(n);
      var b := r.pools[p].byNick[n];
      var m := R.SpecOfMember(b, r.pools[p]);
      SetRuled(r, p, n, cred, m.baseURL, m.disabled, url);
      assert m.(credential := cred) == R.MemberSpec(cred, m.baseURL, m.disabled);
      OwnUpstream(r, p, n, url);
      if Rotate(r, p, n, cred, url).Some? { RotatedEffect(r, p, n, cred, url); }
    }
  }

  lemma OwnUpstream(r: R.Registry, p: string, n: string, url: R.UrlCheck)
    requires Sane(r, url) && p in r.pools && n in r.pools[p].byNick
    ensures var u := R.SpecOfMember(r.pools[p].byNick[n], r.pools[p]).baseURL;
      var upstream := if u != "" then u else r.pools[p].baseURL; upstream != "" && url(upstream)
  {
    hide Normalize;
    SanePool(r, p, url);
  }

  /** Another pool than `p` has the nick too. */
  ghost predicate Elsewhere(r: R.Registry, p: string, n: string) { exists q :: q in r.pools && q != p && n in r.pools[q].byNick }

  lemma SharedRuled(r: R.Registry, p: string, n: string, url: R.UrlCheck)
    requires Sane(r, url)
    ensures SharedElsewhere(r, p, n) <==> Elsewhere(r, p, Normalize(n))
  {
    hide Normalize, R.WF;
    forall q | q in r.pools ensures Normalize(q) == q { SanePool(r, q, url); }
    if SharedElsewhere(r, p, n) {
      var q :| q in r.pools && q != p && ResolveIn(r, q, n).Some?;
    }
    if Elsewhere(r, p, Normalize(n)) {
      var q :| q in r.pools && q != p && Normalize(n) in r.pools[q].byNick;
      assert ResolveIn(r, q, n).Some?;
    }
  }

  /**
   An upsert of a member the pool has is no change under the credential it has, refused if another pool has the nick,
   and otherwise a rotation, to a credential not in use. Of another member it is an addition.
   */
  lemma UpsertRuled(s: State, e: Env, q: Request)
    requires Mirror(s, e.url) && q.Upsert?
    ensures var p, n, v := Normalize(q.pool), Normalize(q.nick), Judge(s, e, q);
      var r, k := s.reg, Normalize(n);
      if n == "" || q.cred == "" then v == Reject(400)
      else if p !in r.pools then v == Reject(404)
      else if k !in r.pools[p].byNick then AddAnswer(r, e, p, n, q.cred, q.baseURL, q.placement, v)
      else if r.pools[p].byNick[k].credential == q.cred then v == Keep
      else if Elsewhere(r, p, k) then v == Reject(409)
      else if n != k || !Agrees(r, p, n, n, q.cred) then v == Reject(400)
      else v == Commit(With(r, p, Rotated(r.pools[p], n, q.cred)), [p])
  {
    hide Normalize, AddAnswer, JudgeAdd, Mirror, Sane, Rotate, Rotated, Agrees, SharedElsewhere, Elsewhere;
    var p, n := Normalize(q.pool), Normalize(q.nick);
    Known(s, e);
    if p in s.ctls && n != "" && q.cred != "" {
      ShownPool(s, e, p);
      AddAnswered(s, e, p, n, q.cred, q.baseURL, q.placement);
      SharedRuled(s.reg, p, n, e.url);
      RotateRuled(s.reg, p, n, q.cred, e.url);
      if n in s.reg.pools[p].byNick {
        Settled(s.reg, p, [n], e.url);
        assert R.NormalizeAll([n])[0] == Normalize(n);
      } else if Normalize(n) in s.reg.pools[p].byNick {
        Settled(s.reg, p, [Normalize(n)], e.url);
      }
    }
  }

  // ---------------------------------------------------------------------- moves

  /** What is there under the nick already, or where the newcomer goes. */
  ghost predicate Admits(r: R.Registry, from: string, to: string, n: string, placement: seq<string>, force: bool)
    requires from in r.pools && to in r.pools && n in r.pools[from].byNick
  {
    if n in r.pools[to].byNick then force || r.pools[to].byNick[n].baseURL == r.pools[from].byNick[n].baseURL
    else WellPlaced(r.pools[to], n, placement)
  }

  /** The target with the member in, enabled, and ordered as asked if it is new to an ordered pool. */
  ghost function Arrived(r: R.Registry, from: string, to: string, n: string, placement: seq<string>): R.Pool
    requires from in r.pools && to in r.pools && n in r.pools[from].byNick
  {
    var b, was := r.pools[from].byNick[n], r.pools[to];
    var now := WithOne(was, n, b.credential, b.baseURL, false);
    if n !in was.byNick && was.priority != [] then now.(priority := R.NormalizeAll(placement)) else now
  }

  /** A move is accepted exactly when the source has the member and the target admits it; then it is there, and gone here. */
  lemma MoveRuled(s: State, e: Env, q: Request)
    requires Mirror(s, e.url) && q.Relocate?
    ensures var from, to, n, v, r := Normalize(q.pool), Normalize(q.to), Normalize(q.nick), Judge(s, e, q), s.reg;
      if n == "" || from == to then v == Reject(400)
      else if from !in r.pools || to !in r.pools then v == Reject(404)
      else if n !in r.pools[from].byNick then v == Reject(400)
      else if !Admits(r, from, to, n, q.placement, q.force) then v == Reject(if n in r.pools[to].byNick then 409 else 400)
      else
        && v.Commit? && v.pools == [from, to] && from in v.next.pools
        && v.next == With(With(r, to, Arrived(r, from, to, n, q.placement)), from, v.next.pools[from])
        && TakenOut(r.pools[from], v.next.pools[from], n, r.defaultURL)
  {
    hide Normalize, R.NormalizeAll, Relocated, Mirror, Sane, Find, TakenOut, Arrived, Placed, WellPlaced, R.PoolWF, Agrees;
    var from, to, n, r := Normalize(q.pool), Normalize(q.to), Normalize(q.nick), s.reg;
    Known(s, e);
    if n != "" && from != to && from in s.ctls && to in s.ctls {
      ShownPool(s, e, from);
      ShownPool(s, e, to);
      PlacedRuled(s, e, to, n, q.placement);
      if n in r.pools[from].byNick {
        SharedCredential(r, from, to, n, e.url);
        if Admits(r, from, to, n, q.placement, q.force) { RelocatedRuled(s, e, from, to, n, q.placement, q.force); }
      }
    }
  }

  lemma SharedCredential(r: R.Registry, a: string, b: string, n: string, url: R.UrlCheck)
    requires Sane(r, url) && a in r.pools && b in r.pools && n in r.pools[a].byNick
    ensures n in r.pools[b].byNick ==> r.pools[b].byNick[n].credential == r.pools[a].byNick[n].credential
    ensures Agrees(r, b, n, n, r.pools[a].byNick[n].credential)
  {
    hide R.PoolWF, R.CanonicalPool;
    forall q, k | q in r.pools && k in r.pools[q].byNick
      ensures k == n <==> r.pools[q].byNick[k].credential == r.pools[a].byNick[n].credential
    {
      assert R.OneCredential(r.pools[q], r.pools[a]);
    }
  }

  lemma RelocatedRuled(s: State, e: Env, from: string, to: string, n: string, placement: seq<string>, force: bool)
    requires Mirror(s, e.url) && from in s.reg.pools && to in s.reg.pools && from in s.ctls && to in s.ctls && from != to && n != ""
    requires n in s.reg.pools[from].byNick && Admits(s.reg, from, to, n, placement, force)
    ensures var r, b := s.reg, s.reg.pools[from].byNick[n];
      var ordered := n !in r.pools[to].byNick && r.pools[to].priority != [];
      var next := Relocated(r, e, from, to, n, b.credential, b.baseURL, ordered, R.NormalizeAll(placement));
      && next.Some? && from in next.value.pools
      && next.value == With(With(r, to, Arrived(r, from, to, n, placement)), from, next.value.pools[from])
      && TakenOut(r.pools[from], next.value.pools[from], n, r.defaultURL)
  {
    hide Normalize, R.NormalizeAll, Mirror, Sane, TakenOut, Arrived, WellPlaced, Added, WithMemberRemoved, MinusMember, R.PoolWF;
    var r, b := s.reg, s.reg.pools[from].byNick[n];
    Known(s, e);
    SanePool(r, from, e.url);
    SanePool(r, to, e.url);
    Settled(r, from, [n], e.url);
    assert R.NormalizeAll([n])[0] == Normalize(n);
    ArrivedRuled(s, e, from, to, n, placement, force);
    var ordered := n !in r.pools[to].byNick && r.pools[to].priority != [];
    var mid := With(r, to, Arrived(r, from, to, n, placement));
    AddedCommit(r, e, to, n, b.credential, b.baseURL, ordered, R.NormalizeAll(placement));
    CommitSane(r, mid, [to], e.url);
    RemovedMemberExactly(mid, from, n, e.url);
    MinusTakesOut(mid, from, n, e.url);
  }

  lemma ArrivedRuled(s: State, e: Env, from: string, to: string, n: string, placement: seq<string>, force: bool)
    requires Mirror(s, e.url) && from in s.reg.pools && to in s.reg.pools && to in s.ctls && Canonical(to) && Canonical(n)
    requires n in s.reg.pools[from].byNick && Admits(s.reg, from, to, n, placement, force)
    ensures var r, b := s.reg, s.reg.pools[from].byNick[n];
      var ordered := n !in r.pools[to].byNick && r.pools[to].priority != [];
      Added(r, e, to, n, b.credential, b.baseURL, ordered, R.NormalizeAll(placement))
        == Some(With(r, to, Arrived(r, from, to, n, placement)))
  {
    hide Normalize, R.NormalizeAll, Mirror, Sane, WithMemberSet, WithPriority, Agrees, WithOne;
    var r, b, order := s.reg, s.reg.pools[from].byNick[n], R.NormalizeAll(placement);
    Known(s, e);
    SharedCredential(r, from, to, n, e.url);
    OwnDeclaration(r, from, n, e.url);
    SetRuled(r, to, n, b.credential, b.baseURL, false, e.url);
    var mid := With(r, to, WithOne(r.pools[to], n, b.credential, b.baseURL, false));
    if n !in r.pools[to].byNick && r.pools[to].priority != [] {
      MemberCommit(r, to, n, b.credential, b.baseURL, false, e.url);
      CommitSane(r, mid, [to], e.url);
      WithOneFields(r.pools[to], n, b.credential, b.baseURL);
      Settled(mid, to, order, e.url);
      OrderRuled(mid, to, order, e.url);
      WithTwice(r, to, mid.pools[to], mid.pools[to].(priority := order));
    }
  }

  lemma WithTwice(r: R.Registry, p: string, a: R.Pool, b: R.Pool)
    ensures With(With(r, p, a), p, b) == With(r, p, b)
  {
    assert r.pools[p := a][p := b] == r.pools[p := b];
  }

  lemma OwnDeclaration(r: R.Registry, p: string, n: string, url: R.UrlCheck)
    requires Sane(r, url) && p in r.pools && n in r.pools[p].byNick
    ensures var b := r.pools[p].byNick[n]; b.credential != "" && b.baseURL != "" && url(b.baseURL)
  {
    hide Normalize;
    SanePool(r, p, url);
  }

  // ------------------------------------------------------------------ new pools

  const EMPTY_POOL := R.Pool("", map[], [], "", [], 1)

  /** With a pool without members, on the default upstream, filed under that name. */
  ghost function WithEmpty(r: R.Registry, filed: string): R.Registry {
    With(r, filed, EMPTY_POOL.(name := filed, baseURL := r.defaultURL))
  }

  /** The name is free, as it is read and as it is filed. */
  ghost predicate Free(r: R.Registry, name: string) {
    var seen, filed := Normalize(name), Normalize(Normalize(name));
    seen != "" && filed != "" && seen !in r.pools && (filed == seen || filed !in r.pools)
  }

  lemma CreatedRuled(r: R.Registry, name: string, url: R.UrlCheck)
    requires Sane(r, url)
    ensures WithPoolCreated(r, name, url) == if Free(r, name) then Some(WithEmpty(r, Normalize(Normalize(name)))) else None
  {
    hide Normalize, R.Build, R.MakePool, R.SpecOfPool, Sane, R.NormalizeAll;
    var seen := Normalize(name);
    R.SpecKeys(r);
    if seen != "" && seen !in r.pools {
      assert R.NormalizeAll(NO_MEMBERS.priority) == [];
      EmptyPool(Normalize(seen), r.defaultURL);
      NewName(r, seen, NO_MEMBERS, url);
    }
  }

  /** The first member of a new pool, filed as `filed`, in all cases. */
  ghost predicate FirstAnswer(r: R.Registry, e: Env, name: string, n: string, cred: string, baseURL: string, v: Option<R.Registry>) {
    var filed, k := Normalize(Normalize(name)), Normalize(n);
    if Normalize(name) != filed || forall c, at :: !Sourced(r, name, k, cred, baseURL, c, at) then v == None
    else
      exists c, at ::
        && Sourced(r, name, k, cred, baseURL, c, at)
        && var u := if at != "" then at else if e.gateway != "" then e.gateway else r.defaultURL;
           var empty := WithEmpty(r, filed);
           v == if Settable(empty, filed, k, c, u, e.url)
                then Some(With(empty, filed, WithOne(empty.pools[filed], Normalize(k), c, u, false))) else None
  }

  lemma FirstRuled(s: State, e: Env, name: string, n: string, cred: string, baseURL: string)
    requires Sane(s.reg, e.url) && Free(s.reg, name)
    ensures FirstAnswer(s.reg, e, name, n, cred, baseURL,
                        FirstMember(s, e, WithEmpty(s.reg, Normalize(Normalize(name))), name, n, cred, baseURL, []))
  {
    hide Normalize, Sane, WithMemberSet, Settable, WithOne, Borrow, Sourced;
    var r, filed := s.reg, Normalize(Normalize(name));
    var empty := WithEmpty(r, filed);
    BorrowRuled(r, name, n, cred, baseURL, e.url);
    var src := Borrow(r, name, n, cred, baseURL);
    if src.Some? {
      var u := if src.value.baseURL == "" then Default(s, e) else src.value.baseURL;
      if Normalize(name) == filed {
        CreatedRuled(r, filed, e.url);
        CreatedSane(r, filed, e.url);
        SetRuled(empty, filed, n, src.value.credential, u, false, e.url);
        SameSet(empty, name, filed, n, src.value.credential, u, e.url);
      } else {
        UnknownSet(empty, name, n, src.value.credential, u, e.url);
      }
    }
  }

  lemma SameSet(r: R.Registry, a: string, b: string, n: string, cred: string, at: string, url: R.UrlCheck)
    requires Normalize(a) == b && Normalize(b) == b
    ensures WithMemberSet(r, a, n, cred, at, false, url) == WithMemberSet(r, b, n, cred, at, false, url)
  {
    hide Normalize, R.Build, R.SpecOf;
  }

  lemma UnknownSet(r: R.Registry, p: string, n: string, cred: string, at: string, url: R.UrlCheck)
    requires Normalize(p) !in r.pools
    ensures WithMemberSet(r, p, n, cred, at, false, url).None?
  {
    hide Normalize, R.Build;
  }

  /** A pool is created exactly if it is well asked for, its name is free, and its first member, if any, can be set. */
  lemma CreateRuled(s: State, e: Env, q: Request)
    requires Mirror(s, e.url) && q.Create?
    ensures var name, n, v, r := Normalize(q.pool), Normalize(q.nick), Judge(s, e, q), s.reg;
      if name == "" || (q.mode != "" && q.mode != "plain") || (n == "" && q.placement != []) || (q.baseURL != "" && !e.url(q.baseURL))
      then v == Reject(400)
      else if !Free(r, name) then v == Reject(409)
      else if n == "" then v == Insert(WithEmpty(r, Normalize(Normalize(name))), name)
      else
        exists filled :: FirstAnswer(r, e, name, n, q.cred, q.baseURL, filled)
                         && v == if filled.None? || q.placement != [] then Reject(400) else Insert(filled.value, name)
  {
    hide Normalize, Sane, WithPoolCreated, FirstAnswer, Borrow, WithMemberSet, Mirror, WithEmpty;
    var name, n, r := Normalize(q.pool), Normalize(q.nick), s.reg;
    Known(s, e);
    if name in s.ctls { ShownPool(s, e, name); }
    CreatedRuled(r, name, e.url);
    if Free(r, name) {
      var empty := WithEmpty(r, Normalize(Normalize(name)));
      FirstRuled(s, e, name, n, q.cred, q.baseURL);
      var filled := FirstMember(s, e, empty, name, n, q.cred, q.baseURL, []);
      assert FirstAnswer(r, e, name, n, q.cred, q.baseURL, filled);
    }
  }
}
