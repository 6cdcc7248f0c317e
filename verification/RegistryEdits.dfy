/**
 The copy-on-write mutators: each derives the file shape, edits one pool of it and
 rebuilds through the validation core. What they promise is that nothing else moves.
 */
module RegistryEdits {
  import opened Common
  import opened Names
  import opened Registry

  ghost function WithMemberSet(r: Registry, pool: string, nick: string, cred: string, baseURL: string,
                               disabled: bool, url: UrlCheck): Option<Registry>
  {
    var p, n, spec := Normalize(pool), Normalize(nick), SpecOf(r);
    if p !in spec then None
    else Build(spec[p := spec[p].(members := spec[p].members[n := MemberSpec(cred, baseURL, disabled)])], r.defaultURL, url)
  }

  function Prune(order: seq<string>, nick: string): (r: seq<string>)
    ensures forall n :: n in r ==> n in order
  {
    if order == [] then []
    else
      var rest := Prune(order[1..], nick);
      if Normalize(order[0]) != nick then [order[0]] + rest else rest
  }

  lemma {:induction false} PruneNothing(order: seq<string>, nick: string)
    requires forall n :: n in order ==> Normalize(n) != nick
    ensures Prune(order, nick) == order
  {
    hide Normalize;
    if order != [] {
      assert order == [order[0]] + order[1..];
      assert order[0] in order;
      PruneNothing(order[1..], nick);
    }
  }

  ghost function WithMemberRemoved(r: Registry, pool: string, nick: string, url: UrlCheck): Option<Registry> {
    var p, n, spec := Normalize(pool), Normalize(nick), SpecOf(r);
    if p !in spec || n !in spec[p].members then None
    else
      var ps := spec[p];
      var members := ps.members - {n};
      Build(spec[p := ps.(members := members,
                          baseURL := if members == map[] then "" else ps.baseURL,
                          priority := Prune(ps.priority, n))], r.defaultURL, url)
  }

  ghost function WithMemberDisabled(r: Registry, pool: string, nick: string, off: bool, url: UrlCheck): Option<Registry> {
    var p, n, spec := Normalize(pool), Normalize(nick), SpecOf(r);
    if p !in spec || n !in spec[p].members then None
    else
      var ps := spec[p];
      Build(spec[p := ps.(members := ps.members[n := ps.members[n].(disabled := off)])], r.defaultURL, url)
  }

  ghost function WithPriority(r: Registry, pool: string, order: seq<string>, url: UrlCheck): Option<Registry> {
    var p, spec := Normalize(pool), SpecOf(r);
    if p !in spec then None else Build(spec[p := spec[p].(priority := NormalizeAll(order))], r.defaultURL, url)
  }

  ghost function WithPoolConcurrency(r: Registry, pool: string, n: int, url: UrlCheck): Option<Registry> {
    var p, spec := Normalize(pool), SpecOf(r);
    if p !in spec then None else Build(spec[p := spec[p].(concurrency := Some(n))], r.defaultURL, url)
  }

  const NO_MEMBERS := PoolSpec("", map[], [], None)

  ghost function WithPoolCreated(r: Registry, name: string, url: UrlCheck): Option<Registry> {
    var p, spec := Normalize(name), SpecOf(r);
    if p == "" || p in spec then None else Build(spec[p := NO_MEMBERS], r.defaultURL, url)
  }

  ghost function WithPoolRemoved(r: Registry, name: string, url: UrlCheck): Option<Registry> {
    var p, spec := Normalize(name), SpecOf(r);
    if p !in spec then None else Build(spec - {p}, r.defaultURL, url)
  }

  ghost function WithPoolRenamed(r: Registry, from: string, to: string, url: UrlCheck): Option<Registry> {
    var p, q, spec := Normalize(from), Normalize(to), SpecOf(r);
    if p == "" || q == "" || p == q || p !in spec || q in spec then None
    else Build((spec - {p})[q := spec[p]], r.defaultURL, url)
  }

  // --------------------------------------------- what an edit leaves untouched

  ghost predicate Sane(r: Registry, url: UrlCheck) { WF(r, url) && CanonicalNames(r) }

  lemma KeyedBuild(spec: Spec, def: string, url: UrlCheck)
    requires Build(spec, def, url).Some? && forall p :: p in spec ==> Canonical(p)
    ensures var r := Build(spec, def, url).value;
      && r.defaultURL == def && r.pools.Keys == spec.Keys
      && forall p :: p in spec ==> GoodKeys(spec[p].members.Keys) && r.pools[p] == MakePool(p, spec[p], def)
  {
    hide Normalize, Build, MakePool, GoodPool, GoodKeys;
    BuildDefault(spec, def, url);
    var r := Build(spec, def, url).value;
    forall p | p in spec
      ensures p in r.pools && GoodKeys(spec[p].members.Keys) && r.pools[p] == MakePool(p, spec[p], def)
    {
      PoolAt(spec, def, url, p);
      GoodPoolKeys(spec[p], def, url);
    }
    forall n | n in r.pools ensures n in spec {
      var p := PoolFrom(spec, def, url, n);
    }
  }

  lemma SanePool(r: Registry, n: string, url: UrlCheck)
    requires Sane(r, url) && n in r.pools
    ensures Canonical(n) && PoolWF(n, r.pools[n], r.defaultURL, url) && CanonicalPool(r.pools[n])
  {
    hide Normalize, PoolWF, CanonicalPool, OneCredential;
  }

  /** Installing `ps` under `p` changes, in the registry, the pool `p` and no other. */
  lemma EditOnePool(r: Registry, p: string, ps: PoolSpec, url: UrlCheck)
    requires Sane(r, url) && Canonical(p) && Build(SpecOf(r)[p := ps], r.defaultURL, url).Some?
    ensures GoodKeys(ps.members.Keys)
    ensures Build(SpecOf(r)[p := ps], r.defaultURL, url)
         == Some(Registry(r.pools[p := MakePool(p, ps, r.defaultURL)], r.defaultURL))
  {
    hide Canonical, Build, MakePool, GoodKeys, PoolWF, SpecOf, SpecOfPool, Sane, CanonicalPool, GoodPool;
    var spec := SpecOf(r)[p := ps];
    SpecKeys(r);
    forall q | q in spec ensures Canonical(q) {
      if q != p { SanePool(r, q, url); }
    }
    KeyedBuild(spec, r.defaultURL, url);
    var next := Build(spec, r.defaultURL, url).value;
    assert p in spec && spec[p] == ps;
    forall q | q in r.pools && q != p ensures next.pools[q] == r.pools[q] {
      SanePool(r, q, url);
      PoolRoundTrip(q, r.pools[q], r.defaultURL, url);
    }
    assert next.pools == r.pools[p := MakePool(p, ps, r.defaultURL)];
  }

  /** An edit leaves other pools as they were, and a sane registry exactly when the nicks it files are canonical. */
  lemma EditSaneExactly(r: Registry, p: string, ps: PoolSpec, url: UrlCheck)
    requires Sane(r, url) && Canonical(p) && Build(SpecOf(r)[p := ps], r.defaultURL, url).Some?
    ensures var next := Build(SpecOf(r)[p := ps], r.defaultURL, url).value;
      && (Sane(next, url) <==> forall k :: k in ps.members ==> Canonical(Normalize(k)))
      && next.pools.Keys == r.pools.Keys + {p} && next.defaultURL == r.defaultURL
      && forall q :: q in r.pools && q != p ==> next.pools[q] == r.pools[q]
  {
    hide Normalize, Canonical, Build, MakePool, GoodKeys, WF, SpecOf, CanonicalPool;
    var next := Build(SpecOf(r)[p := ps], r.defaultURL, url).value;
    EditOnePool(r, p, ps, url);
    EditedWF(SpecOf(r)[p := ps], r.defaultURL, url);
    MadeCanonicalExactly(p, ps, r.defaultURL);
    forall n | n in next.pools && n != p ensures Canonical(n) && CanonicalPool(next.pools[n]) {
      SanePool(r, n, url);
    }
    assert next.pools[p] == MakePool(p, ps, r.defaultURL);
  }

  lemma MadeCanonicalExactly(n: string, ps: PoolSpec, def: string)
    requires GoodKeys(ps.members.Keys)
    ensures CanonicalPool(MakePool(n, ps, def)) <==> forall k :: k in ps.members ==> Canonical(Normalize(k))
  {
    hide Normalize, Canonical, GoodKeys, MakePool;
    var byNick := MakePool(n, ps, def).byNick;
    forall k | k in ps.members ensures Normalize(k) in byNick { MemberAt(n, ps, def, k); }
    if forall k :: k in ps.members ==> Canonical(Normalize(k)) {
      forall m | m in byNick ensures Canonical(m) {
        var j := MemberFrom(n, ps, def, m);
      }
    }
  }

  lemma EditSane(r: Registry, p: string, ps: PoolSpec, url: UrlCheck)
    requires Sane(r, url) && Canonical(p) && Build(SpecOf(r)[p := ps], r.defaultURL, url).Some?
    requires forall k :: k in ps.members ==> Canonical(k)
    ensures var next := Build(SpecOf(r)[p := ps], r.defaultURL, url).value;
      && Sane(next, url) && next.pools.Keys == r.pools.Keys + {p} && next.defaultURL == r.defaultURL
      && forall q :: q in r.pools && q != p ==> next.pools[q] == r.pools[q]
  {
    hide Normalize, Build, SpecOf, Sane;
    EditSaneExactly(r, p, ps, url);
  }

  /** An edit that takes members away at most, leaves the credentials of a pool alone and is good in itself is accepted. */
  lemma EditAccepted(r: Registry, p: string, ps: PoolSpec, url: UrlCheck)
    requires Sane(r, url) && p in r.pools && GoodPool(ps, r.defaultURL, url)
    requires var was := SpecOf(r)[p];
      ps.members.Keys <= was.members.Keys && forall k :: k in ps.members ==> ps.members[k].credential == was.members[k].credential
    ensures Build(SpecOf(r)[p := ps], r.defaultURL, url).Some?
  {
    hide Sane, GoodPool, SpecOf, MakePool, Agree, GoodKeys, Build;
    OwnSpecValid(r, url);
    SpecKeys(r);
    ReplaceValid(SpecOf(r), p, ps, r.defaultURL, url);
    ValidBuilds(SpecOf(r)[p := ps], r.defaultURL, url);
  }

  lemma ValidBuilds(spec: Spec, def: string, url: UrlCheck)
    requires Valid(spec, def, url)
    ensures Build(spec, def, url).Some?
  {
    hide Valid, MakePool;
  }

  lemma ReplaceValid(spec: Spec, p: string, ps: PoolSpec, def: string, url: UrlCheck)
    requires Valid(spec, def, url) && p in spec && GoodPool(ps, def, url)
    requires var was := spec[p];
      ps.members.Keys <= was.members.Keys && forall k :: k in ps.members ==> ps.members[k].credential == was.members[k].credential
    ensures Valid(spec[p := ps], def, url)
  {
    hide GoodPool, Agree, GoodKeys;
    var next := spec[p := ps];
    assert next.Keys == spec.Keys;
    forall a, b | a in next && b in next ensures Agree(next[a], next[b]) {
      assert Agree(spec[a], spec[b]);
      SameAgree(spec[a], spec[b], next[a], next[b]);
    }
  }

  lemma OwnSpecValid(r: Registry, url: UrlCheck)
    requires Sane(r, url)
    ensures Valid(SpecOf(r), r.defaultURL, url)
  {
    hide Valid, WF, CanonicalNames, SpecOf;
    SpecValid(r, url);
  }

  lemma SameAgree(a: PoolSpec, b: PoolSpec, c: PoolSpec, d: PoolSpec)
    requires Agree(a, b) && c.members.Keys <= a.members.Keys && d.members.Keys <= b.members.Keys
    requires forall k :: k in c.members ==> c.members[k].credential == a.members[k].credential
    requires forall k :: k in d.members ==> d.members[k].credential == b.members[k].credential
    ensures Agree(c, d)
  {
    hide Normalize;
  }

  lemma OwnShapeGood(r: Registry, p: string, url: UrlCheck)
    requires Sane(r, url) && p in r.pools
    ensures p in SpecOf(r) && GoodPool(SpecOf(r)[p], r.defaultURL, url)
  {
    hide Normalize, GoodPool, SpecOfPool;
    SanePool(r, p, url);
    SpecKeys(r);
    PoolStaysGood(p, r.pools[p], r.defaultURL, url);
  }

  /** An order over members, each once, is accepted. */
  lemma PriorityAccepted(r: Registry, pool: string, order: seq<string>, url: UrlCheck)
    requires Sane(r, url) && Normalize(pool) in r.pools
    requires var stored := NormalizeAll(NormalizeAll(order));
      Distinct(stored) && forall n :: n in stored ==> n in r.pools[Normalize(pool)].byNick
    ensures WithPriority(r, pool, order, url).Some?
  {
    hide Normalize, Build, SpecOf, PoolWF, CanonicalPool, OneCredential, NormalizeAll;
    var p := Normalize(pool);
    SpecKeys(r);
    OwnShapeGood(r, p, url);
    OwnNicksCanonical(r, p, url);
    var ps := SpecOf(r)[p].(priority := NormalizeAll(order));
    forall n | n in NormalizeAll(ps.priority) ensures n != "" && exists k :: k in ps.members.Keys && Normalize(k) == n {
      assert n in ps.members.Keys && Canonical(n);
    }
    EditAccepted(r, p, ps, url);
  }

  /** Disabling a member is accepted. */
  lemma DisableAccepted(r: Registry, pool: string, nick: string, url: UrlCheck)
    requires Sane(r, url) && Normalize(pool) in r.pools && Normalize(nick) in r.pools[Normalize(pool)].byNick
    ensures WithMemberDisabled(r, pool, nick, true, url).Some?
  {
    hide Normalize, Build, SpecOf, PoolWF, CanonicalPool, OneCredential, NormalizeAll, GoodPriority;
    var p, n := Normalize(pool), Normalize(nick);
    SpecKeys(r);
    OwnShapeGood(r, p, url);
    var was := SpecOf(r)[p];
    var ps := was.(members := was.members[n := was.members[n].(disabled := true)]);
    assert ps.members.Keys == was.members.Keys;
    forall k | k in ps.members ensures GoodMember(ps.members[k], ps, r.defaultURL, url) {
      assert GoodMember(was.members[k], was, r.defaultURL, url);
    }
    EditAccepted(r, p, ps, url);
  }

  lemma OwnNicksCanonical(r: Registry, p: string, url: UrlCheck)
    requires Sane(r, url) && p in SpecOf(r)
    ensures Canonical(p) && p in r.pools && SpecOf(r)[p].members.Keys == r.pools[p].byNick.Keys
    ensures forall k :: k in SpecOf(r)[p].members ==> Canonical(k)
  {
    hide Canonical, SpecOf, PoolWF;
    SpecKeys(r);
    SanePool(r, p, url);
  }

  lemma DropOnePool(r: Registry, p: string, url: UrlCheck)
    requires Sane(r, url)
    ensures Build(SpecOf(r) - {p}, r.defaultURL, url) == Some(Registry(r.pools - {p}, r.defaultURL))
  {
    hide Normalize, PoolWF, OneCredential, CanonicalPool, Build;
    var rest := Registry(r.pools - {p}, r.defaultURL);
    assert SpecOf(rest) == SpecOf(r) - {p};
    RoundTrip(rest, url);
  }

  // ------------------------------------------------------------- effects

  ghost function SetDisabled(p: Pool, n: string, off: bool): Pool
    requires n in p.byNick
  {
    p.(byNick := p.byNick[n := p.byNick[n].(disabled := off)])
  }

  /** What a member of a file shape stands for in a pool with default upstream `base`. */
  function Resolve(n: string, k: string, m: MemberSpec, base: string): Backend {
    Backend(n, k, m.credential, if m.baseURL != "" then m.baseURL else base, m.disabled)
  }

  /** A file shape that keeps the pool's upstream, rebuilt, field by field. */
  lemma PoolFields(n: string, p: Pool, qs: PoolSpec, def: string, url: UrlCheck)
    requires PoolWF(n, p, def, url) && qs.baseURL == SpecOfPool(p, def).baseURL
    requires GoodKeys(qs.members.Keys) && forall k :: k in qs.members ==> Canonical(k)
    ensures var made := MakePool(n, qs, def);
      && made == Pool(n, made.byNick, Listing(qs.members.Keys), p.baseURL, NormalizeAll(qs.priority),
                      if qs.concurrency.Some? then qs.concurrency.value else 1)
      && made.byNick.Keys == qs.members.Keys
      && forall k :: k in qs.members ==> made.byNick[k] == Resolve(n, k, qs.members[k], p.baseURL)
  {
    hide Normalize, GoodKeys, MakePool;
    RebuildMembers(n, qs, def);
    assert PoolURL(qs, def) == p.baseURL;
    MadeFields(n, qs, def);
    var byNick := MakePool(n, qs, def).byNick;
    forall k | k in qs.members ensures byNick[k] == Resolve(n, k, qs.members[k], p.baseURL) {
      assert Canonical(k);
    }
  }

  lemma MadeFields(n: string, qs: PoolSpec, def: string)
    requires GoodKeys(qs.members.Keys)
    ensures var made := MakePool(n, qs, def);
      made == Pool(n, made.byNick, Listing(made.byNick.Keys), PoolURL(qs, def), NormalizeAll(qs.priority),
                   if qs.concurrency.Some? then qs.concurrency.value else 1)
  {
    hide Normalize, GoodKeys, Listing, NormalizeAll;
  }

  lemma OwnMembers(n: string, p: Pool, def: string, url: UrlCheck)
    requires PoolWF(n, p, def, url) && CanonicalPool(p)
    ensures var ps := SpecOfPool(p, def);
      && ps.members.Keys == p.byNick.Keys && GoodKeys(ps.members.Keys)
      && (forall k :: k in p.byNick ==> Canonical(k) && Resolve(n, k, ps.members[k], p.baseURL) == p.byNick[k])
      && NormalizeAll(ps.priority) == p.priority && p.nicks == Listing(p.byNick.Keys)
  {
    hide Canonical, GoodKeys, NormalizeAll, GoodPriority;
    KeysStayGood(n, p, def, url);
    PriorityStaysGood(n, p, def, url);
  }

  lemma ShapeFields(n: string, p: Pool, def: string, url: UrlCheck)
    requires PoolWF(n, p, def, url)
    ensures var ps := SpecOfPool(p, def);
      p.name == n && ps.priority == p.priority
      && p.concurrency == (if ps.concurrency.Some? then ps.concurrency.value else 1)
  {
    hide Canonical, Listing;
  }

  /** The edited file shape of one pool, rebuilt, is the pool with just that edit. */
  lemma RebuildPriority(n: string, p: Pool, order: seq<string>, def: string, url: UrlCheck)
    requires PoolWF(n, p, def, url) && CanonicalPool(p)
    ensures GoodKeys(SpecOfPool(p, def).members.Keys)
    ensures MakePool(n, SpecOfPool(p, def).(priority := order), def) == p.(priority := NormalizeAll(order))
  {
    hide Canonical, GoodKeys, NormalizeAll, MakePool;
    OwnMembers(n, p, def, url);
    PoolFields(n, p, SpecOfPool(p, def).(priority := order), def, url);
    assert MakePool(n, SpecOfPool(p, def).(priority := order), def).byNick == p.byNick;
  }

  lemma PriorityEffect(r: Registry, pool: string, order: seq<string>, url: UrlCheck)
    requires Sane(r, url) && WithPriority(r, pool, order, url).Some?
    ensures var p := Normalize(pool);
      p in r.pools && WithPriority(r, pool, order, url)
        == Some(r.(pools := r.pools[p := r.pools[p].(priority := NormalizeAll(NormalizeAll(order)))]))
  {
    hide Normalize, Build, MakePool, GoodKeys, SpecOf, PoolWF, CanonicalPool, NormalizeAll;
    var p := Normalize(pool);
    SpecKeys(r);
    var ps := SpecOf(r)[p].(priority := NormalizeAll(order));
    EditOnePool(r, p, ps, url);
    RebuildPriority(p, r.pools[p], NormalizeAll(order), r.defaultURL, url);
  }

  lemma ConcurrencyEffect(r: Registry, pool: string, n: int, url: UrlCheck)
    requires Sane(r, url) && WithPoolConcurrency(r, pool, n, url).Some?
    ensures var p := Normalize(pool);
      p in r.pools && WithPoolConcurrency(r, pool, n, url) == Some(r.(pools := r.pools[p := r.pools[p].(concurrency := n)]))
  {
    hide Normalize, Build, MakePool, GoodKeys, SpecOf, PoolWF, CanonicalPool;
    var p := Normalize(pool);
    SpecKeys(r);
    EditOnePool(r, p, SpecOf(r)[p].(concurrency := Some(n)), url);
    RebuildConcurrency(p, r.pools[p], n, r.defaultURL, url);
  }

  lemma RebuildConcurrency(n: string, p: Pool, c: int, def: string, url: UrlCheck)
    requires PoolWF(n, p, def, url) && CanonicalPool(p)
    ensures GoodKeys(SpecOfPool(p, def).members.Keys)
    ensures MakePool(n, SpecOfPool(p, def).(concurrency := Some(c)), def) == p.(concurrency := c)
  {
    hide Canonical, GoodKeys, NormalizeAll, MakePool;
    OwnMembers(n, p, def, url);
    PoolFields(n, p, SpecOfPool(p, def).(concurrency := Some(c)), def, url);
    assert MakePool(n, SpecOfPool(p, def).(concurrency := Some(c)), def).byNick == p.byNick;
  }

  /** Members under canonical keys: the rebuilt collection is the edited one, key by key. */
  lemma RebuildMembers(n: string, ps: PoolSpec, def: string)
    requires GoodKeys(ps.members.Keys) && forall k :: k in ps.members ==> Canonical(k)
    ensures var byNick := MakePool(n, ps, def).byNick;
      && byNick.Keys == ps.members.Keys
      && forall k :: k in ps.members ==> byNick[k] == MakeMember(n, k, ps, def)
  {
    hide Normalize, GoodKeys, MakePool;
    var byNick := MakePool(n, ps, def).byNick;
    forall k | k in ps.members ensures k in byNick && byNick[k] == MakeMember(n, k, ps, def) {
      MemberAt(n, ps, def, k);
    }
    forall k | k in byNick ensures k in ps.members {
      var j := MemberFrom(n, ps, def, k);
      assert Canonical(j);
    }
  }

  /** A file shape with one member written over, rebuilt, is the pool with that member written over. */
  lemma RebuildMemberSet(n: string, p: Pool, nick: string, m: MemberSpec, def: string, url: UrlCheck)
    requires PoolWF(n, p, def, url) && CanonicalPool(p) && Canonical(nick)
    requires GoodKeys(SpecOfPool(p, def).members[nick := m].Keys)
    ensures var ps := SpecOfPool(p, def);
      MakePool(n, ps.(members := ps.members[nick := m]), def)
        == p.(byNick := p.byNick[nick := Resolve(n, nick, m, p.baseURL)], nicks := Listing(p.byNick.Keys + {nick}))
  {
    hide Canonical, GoodKeys, NormalizeAll, MakePool, PoolWF, CanonicalPool, Listing, SpecOfPool;
    var ps := SpecOfPool(p, def);
    var qs := ps.(members := ps.members[nick := m]);
    OwnMembers(n, p, def, url);
    ShapeFields(n, p, def, url);
    PoolFields(n, p, qs, def, url);
    assert qs.members.Keys == p.byNick.Keys + {nick};
    OverwriteOne(n, p.byNick, ps.members, nick, m, p.baseURL, MakePool(n, qs, def).byNick);
  }

  lemma OverwriteOne(n: string, was: map<string, Backend>, members: map<string, MemberSpec>, nick: string,
                     m: MemberSpec, base: string, made: map<string, Backend>)
    requires members.Keys == was.Keys && forall k :: k in was ==> Resolve(n, k, members[k], base) == was[k]
    requires var edited := members[nick := m];
      made.Keys == edited.Keys && forall k :: k in edited ==> made[k] == Resolve(n, k, edited[k], base)
    ensures made == was[nick := Resolve(n, nick, m, base)]
  {
  }

  lemma RebuildDisabled(n: string, p: Pool, nick: string, off: bool, def: string, url: UrlCheck)
    requires PoolWF(n, p, def, url) && CanonicalPool(p) && nick in p.byNick
    requires var ps := SpecOfPool(p, def); GoodKeys(ps.members[nick := ps.members[nick].(disabled := off)].Keys)
    ensures var ps := SpecOfPool(p, def);
      MakePool(n, ps.(members := ps.members[nick := ps.members[nick].(disabled := off)]), def) == SetDisabled(p, nick, off)
  {
    hide Canonical, GoodKeys, MakePool, PoolWF, CanonicalPool, Listing, SpecOfPool;
    OwnMembers(n, p, def, url);
    var m := SpecOfPool(p, def).members[nick].(disabled := off);
    RebuildMemberSet(n, p, nick, m, def, url);
    assert p.byNick.Keys + {nick} == p.byNick.Keys;
  }

  lemma DisabledEffect(r: Registry, pool: string, nick: string, off: bool, url: UrlCheck)
    requires Sane(r, url) && WithMemberDisabled(r, pool, nick, off, url).Some?
    ensures var p, n := Normalize(pool), Normalize(nick);
      p in r.pools && n in r.pools[p].byNick
      && WithMemberDisabled(r, pool, nick, off, url) == Some(r.(pools := r.pools[p := SetDisabled(r.pools[p], n, off)]))
  {
    hide Normalize, Build, MakePool, GoodKeys, SpecOf, PoolWF, CanonicalPool;
    var p, n := Normalize(pool), Normalize(nick);
    SpecKeys(r);
    var ps := SpecOf(r)[p];
    var edited := ps.(members := ps.members[n := ps.members[n].(disabled := off)]);
    EditOnePool(r, p, edited, url);
    RebuildDisabled(p, r.pools[p], n, off, r.defaultURL, url);
  }

  /** The pool without a member; emptied, it goes back to the default upstream. */
  ghost function MinusMember(p: Pool, nick: string, def: string): Pool {
    p.(byNick := p.byNick - {nick}, nicks := Listing(p.byNick.Keys - {nick}),
       baseURL := if p.byNick.Keys == {nick} then def else p.baseURL, priority := Prune(p.priority, nick))
  }

  /** The file shape of a pool without a member. */
  function LessOne(ps: PoolSpec, nick: string): PoolSpec {
    var members := ps.members - {nick};
    ps.(members := members, baseURL := if members == map[] then "" else ps.baseURL, priority := Prune(ps.priority, nick))
  }

  lemma {:induction false} PruneDrops(order: seq<string>, nick: string)
    requires Distinct(order)
    ensures Distinct(Prune(order, nick)) && forall n :: n in Prune(order, nick) ==> Normalize(n) != nick
  {
    hide Normalize;
    if order != [] {
      PruneDrops(order[1..], nick);
      var rest := Prune(order[1..], nick);
      assert forall n :: n in order[1..] ==> n != order[0];
      assert forall j :: 0 <= j < |rest| ==> rest[j] in rest;
    }
  }

  lemma RebuildMinus(n: string, p: Pool, nick: string, def: string, url: UrlCheck)
    requires PoolWF(n, p, def, url) && CanonicalPool(p) && nick in p.byNick
    ensures var qs := LessOne(SpecOfPool(p, def), nick);
      GoodKeys(qs.members.Keys) && MakePool(n, qs, def) == MinusMember(p, nick, def)
  {
    hide Canonical, GoodKeys, MakePool, PoolWF, CanonicalPool, Listing, SpecOfPool, Prune, NormalizeAll;
    var ps := SpecOfPool(p, def);
    var qs := LessOne(ps, nick);
    OwnMembers(n, p, def, url);
    ShapeFields(n, p, def, url);
    FewerKeys(ps.members.Keys, qs.members.Keys);
    PrunedFixed(n, p, nick, def, url);
    assert qs.members.Keys == p.byNick.Keys - {nick};
    assert qs.members == map[] <==> qs.members.Keys == {};
    assert p.byNick.Keys - {nick} == {} <==> p.byNick.Keys == {nick};
    if qs.members == map[] {
      EmptyShape(n, qs, def);
    } else {
      PoolFields(n, p, qs, def, url);
      assert MakePool(n, qs, def).byNick == p.byNick - {nick};
    }
  }

  lemma FewerKeys(keys: set<string>, fewer: set<string>)
    requires GoodKeys(keys) && fewer <= keys
    ensures GoodKeys(fewer)
  {
    hide Normalize;
  }

  lemma EmptyShape(n: string, qs: PoolSpec, def: string)
    requires qs.members == map[] && qs.baseURL == ""
    ensures GoodKeys(qs.members.Keys)
    ensures MakePool(n, qs, def) == Pool(n, map[], Listing({}), def, NormalizeAll(qs.priority),
                                         if qs.concurrency.Some? then qs.concurrency.value else 1)
  {
    hide Normalize, NormalizeAll, Listing;
    assert MakePool(n, qs, def).byNick == map[];
    assert MakePool(n, qs, def).byNick.Keys == {};
  }

  lemma PrunedFixed(n: string, p: Pool, nick: string, def: string, url: UrlCheck)
    requires PoolWF(n, p, def, url) && CanonicalPool(p) && nick in p.byNick
    ensures NormalizeAll(Prune(p.priority, nick)) == Prune(p.priority, nick) && Distinct(Prune(p.priority, nick))
    ensures forall k :: k in Prune(p.priority, nick) ==> k in p.byNick && k != nick && k != "" && Normalize(k) == k
  {
    hide Normalize, NormalizeAll, Prune;
    PruneDrops(p.priority, nick);
    NormalizeFixed(Prune(p.priority, nick));
  }

  /** Removing a member is refused exactly when it is unknown; it goes from the collection and the order, and nothing else does. */
  lemma RemovedMemberExactly(r: Registry, pool: string, nick: string, url: UrlCheck)
    requires Sane(r, url)
    ensures var p, n := Normalize(pool), Normalize(nick);
      WithMemberRemoved(r, pool, nick, url)
        == if p in r.pools && n in r.pools[p].byNick then Some(r.(pools := r.pools[p := MinusMember(r.pools[p], n, r.defaultURL)])) else None
  {
    hide Normalize, Build, MakePool, GoodKeys, SpecOf, PoolWF, CanonicalPool, Prune, OneCredential;
    var p, n := Normalize(pool), Normalize(nick);
    SpecKeys(r);
    if p in r.pools && n in r.pools[p].byNick {
      LessOneGood(r, p, n, url);
      EditAccepted(r, p, LessOne(SpecOf(r)[p], n), url);
      EditOnePool(r, p, LessOne(SpecOf(r)[p], n), url);
      SanePool(r, p, url);
      RebuildMinus(p, r.pools[p], n, r.defaultURL, url);
    }
  }

  lemma LessOneGood(r: Registry, p: string, n: string, url: UrlCheck)
    requires Sane(r, url) && p in r.pools && n in r.pools[p].byNick
    ensures p in SpecOf(r) && GoodPool(LessOne(SpecOf(r)[p], n), r.defaultURL, url)
  {
    hide Normalize, PoolWF, CanonicalPool, OneCredential, Prune, SpecOf, NormalizeAll, GoodKeys, ValidURL, Sane;
    SpecKeys(r);
    OwnShapeGood(r, p, url);
    SanePool(r, p, url);
    var was, def := SpecOf(r)[p], r.defaultURL;
    var ps := LessOne(was, n);
    ShapeFields(p, r.pools[p], def, url);
    FewerKeys(was.members.Keys, ps.members.Keys);
    PrunedFixed(p, r.pools[p], n, def, url);
    forall k | k in ps.members ensures GoodMember(ps.members[k], ps, def, url) {
      assert GoodMember(was.members[k], was, def, url);
    }
    forall k | k in NormalizeAll(ps.priority) ensures k != "" && exists j :: j in ps.members.Keys && Normalize(j) == k {
      assert k in ps.members.Keys && Normalize(k) == k;
    }
  }

  lemma CreatedEffect(r: Registry, name: string, url: UrlCheck)
    requires Sane(r, url)
    ensures var p := Normalize(name);
      && (WithPoolCreated(r, name, url).Some? && Canonical(p) ==>
            p !in r.pools && WithPoolCreated(r, name, url)
              == Some(r.(pools := r.pools[p := Pool(p, map[], [], r.defaultURL, [], 1)])))
  {
    hide Normalize, Build, GoodKeys, SpecOf, PoolWF, CanonicalPool, MakePool;
    var p := Normalize(name);
    SpecKeys(r);
    if WithPoolCreated(r, name, url).Some? && Canonical(p) {
      EditOnePool(r, p, NO_MEMBERS, url);
      EmptyPool(p, r.defaultURL);
    }
  }

  lemma EmptyPool(p: string, def: string)
    ensures GoodKeys(NO_MEMBERS.members.Keys) && MakePool(p, NO_MEMBERS, def) == Pool(p, map[], [], def, [], 1)
  {
    hide Normalize;
    var made := MakePool(p, NO_MEMBERS, def);
    assert made.byNick == map[] && made.byNick.Keys == {};
    assert NormalizeAll([]) == [];
    AscendingUnique(Listing(made.byNick.Keys), []);
  }

  lemma RemovedEffect(r: Registry, name: string, url: UrlCheck)
    requires Sane(r, url)
    ensures var p := Normalize(name);
      WithPoolRemoved(r, name, url) == if p in r.pools then Some(r.(pools := r.pools - {p})) else None
  {
    hide Normalize, Build, SpecOf, PoolWF, CanonicalPool;
    SpecKeys(r);
    DropOnePool(r, Normalize(name), url);
  }

  ghost function Renamed(p: Pool, q: string): Pool {
    p.(name := q, byNick := map k | k in p.byNick :: p.byNick[k].(pool := q))
  }

  lemma RebuildRenamed(n: string, p: Pool, q: string, def: string, url: UrlCheck)
    requires PoolWF(n, p, def, url) && CanonicalPool(p)
    ensures GoodKeys(SpecOfPool(p, def).members.Keys)
    ensures MakePool(q, SpecOfPool(p, def), def) == Renamed(p, q)
  {
    hide Canonical, GoodKeys, NormalizeAll, MakePool;
    var ps := SpecOfPool(p, def);
    OwnMembers(n, p, def, url);
    RebuildMembers(q, ps, def);
    MadeFields(q, ps, def);
    assert PoolURL(ps, def) == p.baseURL;
    RenamedMembers(n, p, q, def, url);
  }

  lemma RenamedMembers(n: string, p: Pool, q: string, def: string, url: UrlCheck)
    requires PoolWF(n, p, def, url) && CanonicalPool(p) && GoodKeys(SpecOfPool(p, def).members.Keys)
    ensures MakePool(q, SpecOfPool(p, def), def).byNick == Renamed(p, q).byNick
  {
    hide Normalize, GoodKeys, NormalizeAll, MakePool;
    var ps := SpecOfPool(p, def);
    OwnMembers(n, p, def, url);
    RebuildMembers(q, ps, def);
    assert PoolURL(ps, def) == p.baseURL;
    forall k | k in p.byNick ensures MakeMember(q, k, ps, def) == p.byNick[k].(pool := q) {
      assert Canonical(k) && Resolve(n, k, ps.members[k], p.baseURL) == p.byNick[k];
    }
  }

  lemma RenamedEffect(r: Registry, from: string, to: string, url: UrlCheck)
    requires Sane(r, url) && WithPoolRenamed(r, from, to, url).Some? && Canonical(Normalize(to))
    ensures var p, q := Normalize(from), Normalize(to);
      p in r.pools && q !in r.pools
      && WithPoolRenamed(r, from, to, url) == Some(r.(pools := (r.pools - {p})[q := Renamed(r.pools[p], q)]))
  {
    hide Normalize, Build, SpecOfPool, PoolWF, CanonicalPool, MakePool, GoodKeys, OneCredential;
    var p, q := Normalize(from), Normalize(to);
    SpecKeys(r);
    var rest := r.(pools := r.pools - {p});
    assert SpecOf(rest) == SpecOf(r) - {p};
    EditOnePool(rest, q, SpecOf(r)[p], url);
    RebuildRenamed(p, r.pools[p], q, r.defaultURL, url);
  }

  // ----------------------------------------- names that are not settled

  /** Setting a member files exactly one nick, normalised by the mutator and by the build, in that pool, and keeps the registry sane exactly when it is canonical. */
  lemma MemberSetExactly(r: Registry, pool: string, nick: string, cred: string, baseURL: string, disabled: bool, url: UrlCheck)
    requires Sane(r, url) && Canonical(pool) && WithMemberSet(r, pool, nick, cred, baseURL, disabled, url).Some?
    ensures var next := WithMemberSet(r, pool, nick, cred, baseURL, disabled, url).value;
      && pool in r.pools && next.pools.Keys == r.pools.Keys
      && (forall q :: q in r.pools && q != pool ==> next.pools[q] == r.pools[q])
      && next.pools[pool].byNick.Keys == r.pools[pool].byNick.Keys + {Twice(nick)}
      && next.pools[pool].byNick[Twice(nick)].credential == cred
      && (Sane(next, url) <==> Canonical(Twice(nick)))
  {
    hide Normalize, Build, MakePool, GoodKeys, SpecOf, Sane;
    OwnNicksCanonical(r, pool, url);
    var n, m, def := Normalize(nick), MemberSpec(cred, baseURL, disabled), r.defaultURL;
    var was := SpecOf(r)[pool];
    var ps := was.(members := was.members[n := m]);
    EditSaneExactly(r, pool, ps, url);
    EditOnePool(r, pool, ps, url);
    SetKeys(pool, was, n, m, def);
    assert forall k :: k in ps.members ==> k == n || (k in was.members && Canonical(k));
    assert n in ps.members;
  }

  lemma SetKeys(name: string, was: PoolSpec, n: string, m: MemberSpec, def: string)
    requires GoodKeys(was.members[n := m].Keys) && forall k :: k in was.members ==> Canonical(k)
    ensures var byNick := MakePool(name, was.(members := was.members[n := m]), def).byNick;
      byNick.Keys == was.members.Keys + {Normalize(n)} && byNick[Normalize(n)].credential == m.credential
  {
    hide Normalize, GoodKeys, MakePool;
    var ps := was.(members := was.members[n := m]);
    var byNick := MakePool(name, ps, def).byNick;
    MemberAt(name, ps, def, n);
    forall k | k in was.members ensures k in byNick {
      MemberAt(name, ps, def, k);
      assert Canonical(k);
    }
    forall k | k in byNick ensures k in was.members || k == Normalize(n) {
      var j := MemberFrom(name, ps, def, k);
      assert j == n || Canonical(j);
    }
  }

  /** A nick filed unsettled cannot be placed: an order that asks for it is refused. */
  lemma UnsettledUnplaced(r: Registry, mid: Registry, pool: string, nick: string, order: seq<string>, url: UrlCheck)
    requires Sane(r, url) && Canonical(pool) && pool in r.pools && pool in mid.pools
    requires mid.pools[pool].byNick.Keys == r.pools[pool].byNick.Keys + {Twice(nick)} && !Canonical(Twice(nick))
    requires nick in order
    ensures WithPriority(mid, pool, order, url).None?
  {
    hide Normalize, SpecOf, Sane, GoodPool, MakePool, NormalizeAll, Build, SpecOfPool, PoolWF;
    SpecKeys(mid);
    SanePool(r, pool, url);
    var spec := SpecOf(mid);
    var ps := spec[pool].(priority := NormalizeAll(order));
    FiledInOrder(nick, order);
    if Build(spec[pool := ps], mid.defaultURL, url).Some? {
      EditedGood(spec, pool, ps, mid.defaultURL, url);
      var k := PlacedKey(ps, Twice(nick), mid.defaultURL, url);
    }
  }

  lemma FiledInOrder(nick: string, order: seq<string>)
    requires nick in order
    ensures Twice(nick) in NormalizeAll(NormalizeAll(order))
  {
    hide Normalize;
    var i :| 0 <= i < |order| && order[i] == nick;
    assert NormalizeAll(NormalizeAll(order))[i] == Twice(nick);
  }

  lemma EditedGood(spec: Spec, p: string, ps: PoolSpec, def: string, url: UrlCheck)
    requires Build(spec[p := ps], def, url).Some?
    ensures GoodPool(ps, def, url)
  {
    hide Normalize, GoodPool, MakePool, Bijective, GoodKeys;
    assert spec[p := ps][p] == ps && p in spec[p := ps];
  }

  lemma PlacedKey(ps: PoolSpec, n: string, def: string, url: UrlCheck) returns (k: string)
    requires GoodPool(ps, def, url) && n in NormalizeAll(ps.priority)
    ensures n != "" && k in ps.members && Normalize(k) == n
  {
    hide Normalize, GoodKeys, GoodMember, NormalizeAll;
    k :| k in ps.members.Keys && Normalize(k) == n;
  }

  // ---------------------------------------------------------- there and back

  /** Every successful edit yields a registry that is built, hence well formed. */
  lemma EditedWF(spec: Spec, def: string, url: UrlCheck)
    requires Build(spec, def, url).Some?
    ensures WF(Build(spec, def, url).value, url) && Build(spec, def, url).value.defaultURL == def
  {
    hide Normalize, Build, WF;
    BuildWF(spec, def, url);
    BuildDefault(spec, def, url);
  }

  /** Renaming a pool and renaming it back is the identity. */
  lemma RenameThereAndBack(r: Registry, from: string, to: string, url: UrlCheck)
    requires Sane(r, url) && WithPoolRenamed(r, from, to, url).Some?
    requires Canonical(from) && Canonical(to)
    ensures WithPoolRenamed(WithPoolRenamed(r, from, to, url).value, to, from, url) == Some(r)
  {
    hide Normalize, Build, SpecOf, PoolWF, CanonicalPool, OneCredential, Renamed;
    SpecKeys(r);
    RenamedEffect(r, from, to, url);
    var there := WithPoolRenamed(r, from, to, url).value;
    RenamedSpec(r, from, to, url);
    SpecKeys(there);
    assert (SpecOf(there) - {to})[from := SpecOf(there)[to]] == SpecOf(r);
    RoundTrip(r, url);
  }

  lemma RenamedSpec(r: Registry, p: string, q: string, url: UrlCheck)
    requires Sane(r, url) && p in r.pools && q !in r.pools
    ensures SpecOf(r.(pools := (r.pools - {p})[q := Renamed(r.pools[p], q)])) == (SpecOf(r) - {p})[q := SpecOf(r)[p]]
  {
    hide Normalize, WF, CanonicalNames;
    var there := r.(pools := (r.pools - {p})[q := Renamed(r.pools[p], q)]);
    assert SpecOfPool(Renamed(r.pools[p], q), r.defaultURL) == SpecOfPool(r.pools[p], r.defaultURL);
  }

  lemma MemberSetEffect(r: Registry, pool: string, nick: string, cred: string, baseURL: string, disabled: bool, url: UrlCheck)
    requires Sane(r, url) && WithMemberSet(r, pool, nick, cred, baseURL, disabled, url).Some? && Canonical(Normalize(nick))
    ensures var p, n := Normalize(pool), Normalize(nick);
      && p in r.pools
      && var was, next := r.pools[p], WithMemberSet(r, pool, nick, cred, baseURL, disabled, url).value;
         var b := Resolve(p, n, MemberSpec(cred, baseURL, disabled), was.baseURL);
         next == r.(pools := r.pools[p := was.(byNick := was.byNick[n := b], nicks := Listing(was.byNick.Keys + {n}))])
  {
    hide Normalize, Build, MakePool, GoodKeys, SpecOf, PoolWF, CanonicalPool;
    var p, n := Normalize(pool), Normalize(nick);
    SpecKeys(r);
    var ps := SpecOf(r)[p];
    EditOnePool(r, p, ps.(members := ps.members[n := MemberSpec(cred, baseURL, disabled)]), url);
    RebuildMemberSet(p, r.pools[p], n, MemberSpec(cred, baseURL, disabled), r.defaultURL, url);
  }

  lemma AddedSpec(r: Registry, p: string, n: string, b: Backend)
    requires p in r.pools && n !in r.pools[p].byNick
    ensures var was := r.pools[p];
      var there := r.(pools := r.pools[p := was.(byNick := was.byNick[n := b], nicks := Listing(was.byNick.Keys + {n}))]);
      var s := SpecOf(there);
      && n in s[p].members && s[p].members - {n} == SpecOf(r)[p].members
      && s[p := SpecOf(r)[p]] == SpecOf(r) && s[p].(members := SpecOf(r)[p].members) == SpecOf(r)[p]
  {
    hide Listing;
    var was := r.pools[p];
    var there := r.(pools := r.pools[p := was.(byNick := was.byNick[n := b], nicks := Listing(was.byNick.Keys + {n}))]);
    AddedMembers(was, n, b, Listing(was.byNick.Keys + {n}), r.defaultURL);
    SpecKeys(r);
    SpecKeys(there);
  }

  lemma AddedMembers(p: Pool, n: string, b: Backend, nicks: seq<string>, def: string)
    requires n !in p.byNick
    ensures var ps := SpecOfPool(p.(byNick := p.byNick[n := b], nicks := nicks), def);
      n in ps.members && ps.members - {n} == SpecOfPool(p, def).members
  {
  }

  /** Adding a member under a fresh nick and removing it restores the registry. */
  lemma AddThenRemove(r: Registry, pool: string, nick: string, cred: string, baseURL: string, disabled: bool, url: UrlCheck)
    requires Sane(r, url) && WithMemberSet(r, pool, nick, cred, baseURL, disabled, url).Some?
    requires Canonical(Normalize(nick)) && Normalize(nick) !in r.pools[Normalize(pool)].byNick
    ensures WithMemberRemoved(WithMemberSet(r, pool, nick, cred, baseURL, disabled, url).value, pool, nick, url) == Some(r)
  {
    hide Normalize, Build, SpecOf, Prune, CanonicalNames;
    SpecKeys(r);
    MemberSetEffect(r, pool, nick, cred, baseURL, disabled, url);
    var p, n := Normalize(pool), Normalize(nick);
    var was := r.pools[p];
    var there := WithMemberSet(r, pool, nick, cred, baseURL, disabled, url).value;
    AddedSpec(r, p, n, there.pools[p].byNick[n]);
    SpecKeys(there);
    assert PoolWF(p, was, r.defaultURL, url);
    PruneFresh(r, p, n, url);
    var s := SpecOf(there);
    var members := s[p].members - {n};
    assert members == SpecOf(r)[p].members;
    RoundTrip(r, url);
  }

  lemma PruneFresh(r: Registry, p: string, n: string, url: UrlCheck)
    requires Sane(r, url) && p in r.pools && n !in r.pools[p].byNick
    ensures Prune(r.pools[p].priority, n) == r.pools[p].priority
  {
    hide Normalize, Prune;
    var was := r.pools[p];
    assert PoolWF(p, was, r.defaultURL, url);
    forall k | k in was.priority ensures Normalize(k) != n {
      assert k in was.byNick && CanonicalPool(was) && Canonical(k);
    }
    PruneNothing(was.priority, n);
  }
}
