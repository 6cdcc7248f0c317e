/**
 The loops behind the registry: parsing a file shape, the semantic validation core and
 the mutators, proved to reach the verdict and the registry that `Build` describes.
 */
module RegistryBuild {
  import opened Common
  import opened Names
  import opened Registry
  import opened RegistryEdits

  /** A parsed member declaration, before its base URL is resolved. */
  datatype RawMember = RawMember(pool: string, nick: string, spec: MemberSpec)

  /** What the syntactic pass yields: members, and the pool-level settings under normalised names. */
  datatype Parsed = Parsed(members: seq<RawMember>, pools: map<string, PoolSpec>)

  // ---------------------------------------------------------- syntactic pass

  method DistinctNames(keys: set<string>) returns (ok: bool)
    ensures ok <==> GoodKeys(keys)
  {
    hide Normalize, Scanned;
    var normalized: map<string, string> := map[];
    var todo := keys;
    NoKeys(normalized);
    while todo != {}
      invariant todo <= keys && normalized.Keys == keys - todo && Scanned(normalized)
      decreases |todo|
    {
      var key :| key in todo;
      var norm := Normalize(key);
      var clash := Collides(normalized, norm);
      OneMoreKey(normalized, key, clash, keys);
      if norm == "" || clash { return false; }
      normalized, todo := normalized[key := norm], todo - {key};
    }
    ScannedGood(normalized);
    assert normalized.Keys == keys;
    return true;
  }

  ghost predicate Scanned(normalized: map<string, string>) {
    GoodKeys(normalized.Keys) && forall k :: k in normalized ==> normalized[k] == Normalize(k)
  }

  /** The inner scan for a key already normalised to `norm`. */
  method Collides(normalized: map<string, string>, norm: string) returns (clash: bool)
    ensures clash <==> exists k :: k in normalized && normalized[k] == norm
  {
    var todo := normalized.Keys;
    while todo != {}
      invariant todo <= normalized.Keys && forall k :: k in normalized && k !in todo ==> normalized[k] != norm
      decreases |todo|
    {
      var k :| k in todo;
      if normalized[k] == norm { return true; }
      todo := todo - {k};
    }
    return false;
  }

  lemma NoKeys(normalized: map<string, string>)
    requires normalized == map[]
    ensures Scanned(normalized)
  {
  }

  lemma ScannedGood(normalized: map<string, string>)
    requires Scanned(normalized)
    ensures GoodKeys(normalized.Keys)
  {
  }

  lemma OneMoreKey(normalized: map<string, string>, key: string, clash: bool, all: set<string>)
    requires Scanned(normalized) && key !in normalized && normalized.Keys <= all && key in all
    requires clash <==> exists k :: k in normalized && normalized[k] == Normalize(key)
    ensures if Normalize(key) == "" || clash then !GoodKeys(all) else Scanned(normalized[key := Normalize(key)])
  {
    hide Normalize;
    if clash {
      var k :| k in normalized && normalized[k] == Normalize(key);
      assert k in all;
    }
  }

  ghost predicate GoodOrder(order: seq<string>) { Distinct(NormalizeAll(order)) && "" !in NormalizeAll(order) }

  method NormalizeOrder(order: seq<string>) returns (r: Option<seq<string>>)
    ensures r == if GoodOrder(order) then Some(NormalizeAll(order)) else None
  {
    hide Normalize;
    var out: seq<string> := [];
    for i := 0 to |order|
      invariant out == NormalizeAll(order)[..i] && Distinct(out) && "" !in out
    {
      var norm := Normalize(order[i]);
      assert norm == NormalizeAll(order)[i];
      if norm == "" { return None; }
      if norm in out {
        var j :| 0 <= j < i && out[j] == norm;
        assert NormalizeAll(order)[j] == norm;
        return None;
      }
      out := out + [norm];
    }
    assert NormalizeAll(order)[..|order|] == NormalizeAll(order);
    return Some(out);
  }

  function Raw(name: string, k: string, ps: PoolSpec): RawMember
    requires k in ps.members
  {
    RawMember(name, Normalize(k), ps.members[k])
  }

  /** `raws` holds the members of `ps`, each once or more, and nothing else. */
  ghost predicate Lists(raws: seq<RawMember>, name: string, ps: PoolSpec) {
    && (forall r :: r in raws ==> exists k :: k in ps.members && r == Raw(name, k, ps))
    && (forall k :: k in ps.members ==> Raw(name, k, ps) in raws)
  }

  method ReadMembers(name: string, ps: PoolSpec) returns (raws: seq<RawMember>)
    ensures Lists(raws, name, ps)
  {
    hide Normalize;
    raws := [];
    var todo := ps.members.Keys;
    while todo != {}
      invariant todo <= ps.members.Keys
      invariant forall r :: r in raws ==> exists k :: k in ps.members && r == Raw(name, k, ps)
      invariant forall k :: k in ps.members && k !in todo ==> Raw(name, k, ps) in raws
      decreases |todo|
    {
      var k :| k in todo;
      todo, raws := todo - {k}, raws + [Raw(name, k, ps)];
    }
  }

  ghost predicate Readable(ps: PoolSpec) { GoodKeys(ps.members.Keys) && GoodOrder(ps.priority) }

  function Read(ps: PoolSpec): PoolSpec { ps.(priority := NormalizeAll(ps.priority)) }

  /** The members of every pool of `done`, under its normalised name, and nothing else. */
  ghost predicate ListsAll(raws: seq<RawMember>, spec: Spec, done: set<string>)
    requires done <= spec.Keys
  {
    && (forall r :: r in raws ==> exists p :: p in done && DeclaredIn(r, p, spec))
    && (forall p, k :: p in done && k in spec[p].members ==> Raw(Normalize(p), k, spec[p]) in raws)
  }

  ghost predicate DeclaredIn(r: RawMember, p: string, spec: Spec)
    requires p in spec
  {
    exists k :: k in spec[p].members && r == Raw(Normalize(p), k, spec[p])
  }

  lemma ListsMore(raws: seq<RawMember>, more: seq<RawMember>, spec: Spec, done: set<string>, p: string)
    requires done <= spec.Keys && p in spec && ListsAll(raws, spec, done) && Lists(more, Normalize(p), spec[p])
    ensures ListsAll(raws + more, spec, done + {p})
  {
    hide Normalize, Raw;
    forall r | r in raws + more ensures exists q :: q in done + {p} && DeclaredIn(r, q, spec) {
      if r in more { assert DeclaredIn(r, p, spec); }
      else { var q :| q in done && DeclaredIn(r, q, spec); assert q in done + {p}; }
    }
  }

  /** What has been read of `spec` once the pools of `done` are. */
  ghost predicate ReadSoFar(parsed: Parsed, spec: Spec, done: set<string>) {
    && done <= spec.Keys && ListsAll(parsed.members, spec, done)
    && (forall p :: p in done ==> Readable(spec[p]))
    && (forall n :: n in parsed.pools <==> exists p :: p in done && n == Normalize(p))
    && (forall p :: p in done ==> Normalize(p) in parsed.pools && parsed.pools[Normalize(p)] == Read(spec[p]))
  }

  lemma ReadMore(parsed: Parsed, raws: seq<RawMember>, spec: Spec, done: set<string>, p: string)
    requires GoodKeys(spec.Keys) && ReadSoFar(parsed, spec, done) && p in spec && p !in done
    requires Readable(spec[p]) && Lists(raws, Normalize(p), spec[p])
    ensures ReadSoFar(Parsed(parsed.members + raws, parsed.pools[Normalize(p) := Read(spec[p])]), spec, done + {p})
  {
    hide Normalize, Raw, Readable, Read, Lists, ListsAll;
    ListsMore(parsed.members, raws, spec, done, p);
  }

  /** The first half of `BuildFromSpec`. */
  method ReadSpec(spec: Spec) returns (r: Option<Parsed>)
    ensures r.Some? <==> GoodKeys(spec.Keys) && forall p :: p in spec ==> Readable(spec[p])
    ensures r.Some? ==> ReadSoFar(r.value, spec, spec.Keys)
  {
    hide Normalize, GoodOrder, GoodKeys, ReadSoFar, Lists;
    var named := DistinctNames(spec.Keys);
    if !named { return None; }
    var parsed := Parsed([], map[]);
    var todo := spec.Keys;
    NothingRead(spec);
    while todo != {}
      invariant todo <= spec.Keys
      invariant ReadSoFar(parsed, spec, spec.Keys - todo)
      decreases |todo|
    {
      var p :| p in todo;
      var members := DistinctNames(spec[p].members.Keys);
      if !members { return None; }
      var raws := ReadMembers(Normalize(p), spec[p]);
      var order := NormalizeOrder(spec[p].priority);
      if order.None? { return None; }
      ReadMore(parsed, raws, spec, spec.Keys - todo, p);
      assert spec.Keys - todo + {p} == spec.Keys - (todo - {p});
      parsed := Parsed(parsed.members + raws, parsed.pools[Normalize(p) := spec[p].(priority := order.value)]);
      todo := todo - {p};
    }
    assert spec.Keys - todo == spec.Keys;
    AllRead(parsed, spec);
    return Some(parsed);
  }

  lemma NothingRead(spec: Spec)
    ensures ReadSoFar(Parsed([], map[]), spec, spec.Keys - spec.Keys)
  {
  }

  lemma AllRead(parsed: Parsed, spec: Spec)
    requires ReadSoFar(parsed, spec, spec.Keys)
    ensures forall p :: p in spec ==> Readable(spec[p])
  {
    hide Readable, Read;
  }

  // --------------------------------------------------------- semantic checks

  ghost predicate OneToOne(ms: seq<RawMember>) {
    forall a, b :: a in ms && b in ms ==> (a.nick == b.nick <==> a.spec.credential == b.spec.credential)
  }

  ghost predicate HasNick(done: seq<RawMember>, n: string) { exists m :: m in done && m.nick == n }

  ghost predicate HasCred(done: seq<RawMember>, c: string) { exists m :: m in done && m.spec.credential == c }

  ghost predicate Tabled(m: RawMember, nickCred: map<string, string>, credNick: map<string, string>) {
    && m.nick in nickCred && nickCred[m.nick] == m.spec.credential
    && m.spec.credential in credNick && credNick[m.spec.credential] == m.nick
  }

  /** What the two tables of the loop hold once `done` has been through. */
  ghost predicate Tables(done: seq<RawMember>, nickCred: map<string, string>, credNick: map<string, string>) {
    && (forall m :: m in done ==> Tabled(m, nickCred, credNick))
    && (forall n :: n in nickCred ==> HasNick(done, n))
    && (forall c :: c in credNick ==> HasCred(done, c))
  }

  predicate Clashes(m: RawMember, nickCred: map<string, string>, credNick: map<string, string>) {
    || (m.nick in nickCred && nickCred[m.nick] != m.spec.credential)
    || (m.spec.credential in credNick && credNick[m.spec.credential] != m.nick)
  }

  lemma HasMore(done: seq<RawMember>, m: RawMember)
    ensures forall x :: x in done + [m] <==> x in done || x == m
    ensures forall n :: HasNick(done, n) || n == m.nick ==> HasNick(done + [m], n)
    ensures forall c :: HasCred(done, c) || c == m.spec.credential ==> HasCred(done + [m], c)
  {
    assert m in done + [m];
    forall n | HasNick(done, n) ensures HasNick(done + [m], n) {
      var x :| x in done && x.nick == n;
      assert x in done + [m];
    }
    forall c | HasCred(done, c) ensures HasCred(done + [m], c) {
      var x :| x in done && x.spec.credential == c;
      assert x in done + [m];
    }
  }

  lemma TablesMore(done: seq<RawMember>, m: RawMember, nickCred: map<string, string>, credNick: map<string, string>)
    requires Tables(done, nickCred, credNick) && !Clashes(m, nickCred, credNick)
    ensures Tables(done + [m], nickCred[m.nick := m.spec.credential], credNick[m.spec.credential := m.nick])
  {
    hide HasNick, HasCred;
    HasMore(done, m);
  }

  lemma ClashMeans(ms: seq<RawMember>, done: seq<RawMember>, m: RawMember, nickCred: map<string, string>,
                   credNick: map<string, string>)
    requires Tables(done, nickCred, credNick) && m in ms && (forall x :: x in done ==> x in ms) && Clashes(m, nickCred, credNick)
    ensures !OneToOne(ms)
  {
    if m.nick in nickCred && nickCred[m.nick] != m.spec.credential {
      assert HasNick(done, m.nick);
      var a :| a in done && a.nick == m.nick;
      assert Tabled(a, nickCred, credNick);
    } else {
      assert HasCred(done, m.spec.credential);
      var a :| a in done && a.spec.credential == m.spec.credential;
      assert Tabled(a, nickCred, credNick);
    }
  }

  lemma NoTables(done: seq<RawMember>)
    requires done == []
    ensures Tables(done, map[], map[])
  {
  }

  lemma TablesMean(ms: seq<RawMember>, nickCred: map<string, string>, credNick: map<string, string>)
    requires Tables(ms, nickCred, credNick)
    ensures OneToOne(ms)
  {
    hide HasNick, HasCred;
  }

  /** A nick carries one credential, and a credential one nick. */
  method CheckBijection(ms: seq<RawMember>) returns (ok: bool)
    ensures ok <==> OneToOne(ms)
  {
    hide OneToOne, Tables, Clashes;
    var nickCred: map<string, string>, credNick: map<string, string> := map[], map[];
    NoTables(ms[..0]);
    for i := 0 to |ms|
      invariant Tables(ms[..i], nickCred, credNick)
    {
      var m := ms[i];
      if Clashes(m, nickCred, credNick) {
        ClashMeans(ms, ms[..i], m, nickCred, credNick);
        return false;
      }
      TablesMore(ms[..i], m, nickCred, credNick);
      assert ms[..i + 1] == ms[..i] + [m];
      nickCred, credNick := nickCred[m.nick := m.spec.credential], credNick[m.spec.credential := m.nick];
    }
    assert ms[..|ms|] == ms;
    TablesMean(ms, nickCred, credNick);
    return true;
  }

  // --------------------------------------------------------------- assembling

  function RawURL(m: RawMember, pools: map<string, PoolSpec>, def: string): string
    requires m.pool in pools
  {
    MemberURL(m.spec, pools[m.pool], def)
  }

  function Assemble(m: RawMember, pools: map<string, PoolSpec>, def: string): Backend
    requires m.pool in pools
  {
    Backend(m.pool, m.nick, m.spec.credential, RawURL(m, pools, def), m.spec.disabled)
  }

  ghost predicate InPools(ms: seq<RawMember>, pools: map<string, PoolSpec>) { forall m :: m in ms ==> m.pool in pools }

  /** The collection of pool `n` once the declarations `ms` have been added in turn. */
  function ByNick(ms: seq<RawMember>, pools: map<string, PoolSpec>, def: string, n: string): map<string, Backend>
    requires InPools(ms, pools)
  {
    if ms == [] then map[]
    else
      var last, rest := ms[|ms| - 1], ByNick(ms[..|ms| - 1], pools, def, n);
      if last.pool == n then rest[last.nick := Assemble(last, pools, def)] else rest
  }

  function Empty(n: string, ps: PoolSpec, def: string): Pool {
    Pool(n, map[], [], PoolURL(ps, def), [], if ps.concurrency.Some? then ps.concurrency.value else 1)
  }

  /** `ensurePool` for every declared pool, then each member under its own. */
  method AddMembers(ms: seq<RawMember>, pools: map<string, PoolSpec>, def: string, url: UrlCheck)
      returns (r: Option<map<string, Pool>>)
    requires InPools(ms, pools)
    ensures r.Some? <==> forall m :: m in ms ==> ValidURL(url, RawURL(m, pools, def))
    ensures r.Some? ==> r.value.Keys == pools.Keys
    ensures r.Some? ==> forall n :: n in pools ==> r.value[n] == Empty(n, pools[n], def).(byNick := ByNick(ms, pools, def, n))
  {
    hide MemberURL;
    var built := map n | n in pools :: Empty(n, pools[n], def);
    for i := 0 to |ms|
      invariant built.Keys == pools.Keys
      invariant forall m :: m in ms[..i] ==> ValidURL(url, RawURL(m, pools, def))
      invariant forall n :: n in pools ==> built[n] == Empty(n, pools[n], def).(byNick := ByNick(ms[..i], pools, def, n))
    {
      var m := ms[i];
      if !ValidURL(url, RawURL(m, pools, def)) { return None; }
      assert ms[..i + 1][..i] == ms[..i] && ms[..i + 1][i] == m;
      var pl := built[m.pool];
      built := built[m.pool := pl.(byNick := pl.byNick[m.nick := Assemble(m, pools, def)])];
      assert ms[..i + 1] == ms[..i] + [m];
    }
    assert ms[..|ms|] == ms;
    return Some(built);
  }

  ghost predicate Finishable(ps: PoolSpec, pl: Pool) {
    && (ps.concurrency.Some? ==> ps.concurrency.value >= 1)
    && (ps.baseURL != "" ==> pl.byNick != map[])
    && (forall n :: n in ps.priority ==> n in pl.byNick)
  }

  ghost function Finished(ps: PoolSpec, pl: Pool): Pool { pl.(priority := ps.priority, nicks := Listing(pl.byNick.Keys)) }

  /** The checks on one pool's settings, and its order and sorted nicks. */
  method FinishPool(ps: PoolSpec, pl: Pool) returns (r: Option<Pool>)
    ensures r == if Finishable(ps, pl) then Some(Finished(ps, pl)) else None
  {
    if ps.concurrency.Some? && ps.concurrency.value < 1 { return None; }
    if ps.baseURL != "" && pl.byNick == map[] { return None; }
    for i := 0 to |ps.priority|
      invariant forall n :: n in ps.priority[..i] ==> n in pl.byNick
    {
      if ps.priority[i] !in pl.byNick { return None; }
    }
    assert ps.priority[..|ps.priority|] == ps.priority;
    var nicks := SortKeys(pl.byNick.Keys);
    return Some(pl.(priority := ps.priority, nicks := nicks));
  }

  method FinishPools(pools: map<string, PoolSpec>, built: map<string, Pool>) returns (r: Option<map<string, Pool>>)
    requires built.Keys == pools.Keys
    ensures r.Some? <==> forall n :: n in pools ==> Finishable(pools[n], built[n])
    ensures r.Some? ==> r.value.Keys == pools.Keys && forall n :: n in pools ==> r.value[n] == Finished(pools[n], built[n])
  {
    hide Finishable, Finished;
    var out := built;
    var todo := pools.Keys;
    while todo != {}
      invariant todo <= pools.Keys && out.Keys == pools.Keys
      invariant forall n :: n in pools && n !in todo ==>
                  Finishable(pools[n], built[n]) && out[n] == Finished(pools[n], built[n])
      decreases |todo|
    {
      var n :| n in todo;
      var pl := FinishPool(pools[n], built[n]);
      if pl.None? { return None; }
      out, todo := out[n := pl.value], todo - {n};
    }
    return Some(out);
  }

  ghost predicate Buildable(p: Parsed, def: string, url: UrlCheck)
    requires InPools(p.members, p.pools)
  {
    && (forall m :: m in p.members ==> m.spec.credential != "" && ValidURL(url, RawURL(m, p.pools, def)))
    && OneToOne(p.members)
    && (forall n :: n in p.pools ==> Finishable(p.pools[n], Filled(p, def, n)))
  }

  function Filled(p: Parsed, def: string, n: string): Pool
    requires InPools(p.members, p.pools) && n in p.pools
  {
    Empty(n, p.pools[n], def).(byNick := ByNick(p.members, p.pools, def, n))
  }

  ghost function Assembled(p: Parsed, def: string): Registry
    requires InPools(p.members, p.pools)
  {
    Registry(map n | n in p.pools :: Finished(p.pools[n], Filled(p, def, n)), def)
  }

  /** `buildRegistry`. */
  method BuildRegistry(def: string, p: Parsed, url: UrlCheck) returns (r: Option<Registry>)
    requires InPools(p.members, p.pools)
    ensures r == if Buildable(p, def, url) then Some(Assembled(p, def)) else None
  {
    hide Finishable, Finished, ByNick, Empty, OneToOne, RawURL;
    for i := 0 to |p.members|
      invariant forall m :: m in p.members[..i] ==> m.spec.credential != ""
    {
      if p.members[i].spec.credential == "" { return None; }
    }
    assert p.members[..|p.members|] == p.members;
    var ok := CheckBijection(p.members);
    if !ok { return None; }
    var built := AddMembers(p.members, p.pools, def, url);
    if built.None? { return None; }
    assert forall n :: n in p.pools ==> built.value[n] == Filled(p, def, n);
    var pools := FinishPools(p.pools, built.value);
    if pools.None? { return None; }
    assert pools.value == Assembled(p, def).pools;
    return Some(Registry(pools.value, def));
  }

  // --------------------------------------------- both halves are one `Build`

  /** The declaration of key `k` of pool `p`, as parsed. */
  lemma Declared(parsed: Parsed, spec: Spec, p: string, k: string)
    requires ReadSoFar(parsed, spec, spec.Keys) && p in spec && k in spec[p].members
    ensures Raw(Normalize(p), k, spec[p]) in parsed.members
    ensures Normalize(p) in parsed.pools && parsed.pools[Normalize(p)] == Read(spec[p])
  {
    hide Normalize, Raw, Read;
  }

  lemma Declares(parsed: Parsed, spec: Spec, m: RawMember) returns (p: string, k: string)
    requires ReadSoFar(parsed, spec, spec.Keys) && m in parsed.members
    ensures p in spec && k in spec[p].members && m == Raw(Normalize(p), k, spec[p])
    ensures m.pool in parsed.pools && parsed.pools[m.pool] == Read(spec[p])
  {
    hide Normalize, Read, Readable;
    p :| p in spec.Keys && DeclaredIn(m, p, spec);
    k :| k in spec[p].members && m == Raw(Normalize(p), k, spec[p]);
  }

  lemma ReadInPools(parsed: Parsed, spec: Spec)
    requires ReadSoFar(parsed, spec, spec.Keys)
    ensures InPools(parsed.members, parsed.pools)
  {
    hide Normalize, ReadSoFar;
    forall m | m in parsed.members ensures m.pool in parsed.pools {
      var p, k := Declares(parsed, spec, m);
    }
  }

  ghost predicate Mentions(ms: seq<RawMember>, n: string, k: string) { exists m :: m in ms && m.pool == n && m.nick == k }

  /** The collection holds exactly the declarations of its pool, when no two of them clash. */
  lemma {:induction false} ByNickIs(ms: seq<RawMember>, pools: map<string, PoolSpec>, def: string, n: string)
    requires InPools(ms, pools)
    requires forall a, b :: a in ms && b in ms && a.pool == n && b.pool == n && a.nick == b.nick ==> a == b
    ensures var r := ByNick(ms, pools, def, n);
      && (forall m :: m in ms && m.pool == n ==> m.nick in r && r[m.nick] == Assemble(m, pools, def))
      && (forall k :: k in r ==> Mentions(ms, n, k))
  {
    hide RawURL;
    if ms != [] {
      var i := |ms| - 1;
      assert ms == ms[..i] + [ms[i]];
      assert forall m :: m in ms <==> m in ms[..i] || m == ms[i];
      ByNickIs(ms[..i], pools, def, n);
      var rest := ByNick(ms[..i], pools, def, n);
      forall k | k in ByNick(ms, pools, def, n) ensures Mentions(ms, n, k) {
        if k in rest {
          assert Mentions(ms[..i], n, k);
        } else {
          assert ms[i] in ms && ms[i].pool == n && ms[i].nick == k;
        }
      }
    }
  }

  /** Distinct names keep declarations apart. */
  lemma DeclaredOnce(parsed: Parsed, spec: Spec, a: RawMember, b: RawMember)
    requires GoodKeys(spec.Keys) && ReadSoFar(parsed, spec, spec.Keys)
    requires a in parsed.members && b in parsed.members && a.pool == b.pool && a.nick == b.nick
    ensures a == b
  {
    hide Normalize, ReadSoFar, GoodOrder;
    var p, j := Declares(parsed, spec, a);
    var q, k := Declares(parsed, spec, b);
    assert p == q;
    SpecReadable(parsed, spec, p);
    assert GoodKeys(spec[p].members.Keys);
  }

  lemma SpecReadable(parsed: Parsed, spec: Spec, p: string)
    requires ReadSoFar(parsed, spec, spec.Keys) && p in spec
    ensures Readable(spec[p])
  {
    hide Readable;
  }

  lemma SamePoolURL(ps: PoolSpec, def: string)
    ensures PoolURL(Read(ps), def) == PoolURL(ps, def)
    ensures forall m :: MemberURL(m, Read(ps), def) == MemberURL(m, ps, def)
  {
    hide NormalizeAll;
  }

  lemma FilledIs(parsed: Parsed, spec: Spec, def: string, p: string)
    requires GoodKeys(spec.Keys) && ReadSoFar(parsed, spec, spec.Keys) && p in spec
    requires InPools(parsed.members, parsed.pools)
    ensures GoodKeys(spec[p].members.Keys) && Normalize(p) in parsed.pools
    ensures ByNick(parsed.members, parsed.pools, def, Normalize(p)) == MakePool(Normalize(p), spec[p], def).byNick
  {
    hide Normalize, ReadSoFar, GoodOrder, GoodKeys, MakePool, Read, MemberURL;
    SpecReadable(parsed, spec, p);
    var n := Normalize(p);
    var got, want := ByNick(parsed.members, parsed.pools, def, n), MakePool(n, spec[p], def).byNick;
    forall a, b | a in parsed.members && b in parsed.members && a.pool == n && b.pool == n && a.nick == b.nick ensures a == b {
      DeclaredOnce(parsed, spec, a, b);
    }
    ByNickIs(parsed.members, parsed.pools, def, n);
    PoolNamed(parsed, spec, p);
    SamePoolURL(spec[p], def);
    forall k | k in got ensures k in want {
      assert Mentions(parsed.members, n, k);
      var m :| m in parsed.members && m.pool == n && m.nick == k;
      var q, j := Declares(parsed, spec, m);
      assert q == p by { OneName(spec, p, q); }
      MemberAt(n, spec[p], def, j);
    }
    forall k | k in want ensures k in got && got[k] == want[k] {
      var j := MemberFrom(n, spec[p], def, k);
      Declared(parsed, spec, p, j);
    }
  }

  lemma OneName(spec: Spec, p: string, q: string)
    requires GoodKeys(spec.Keys) && p in spec && q in spec && Normalize(p) == Normalize(q)
    ensures p == q
  {
    hide Normalize;
  }

  lemma PoolNamed(parsed: Parsed, spec: Spec, p: string)
    requires ReadSoFar(parsed, spec, spec.Keys) && p in spec
    ensures Normalize(p) in parsed.pools && parsed.pools[Normalize(p)] == Read(spec[p])
  {
    hide Normalize, Read, ListsAll, Readable;
  }

  lemma PoolNameFrom(parsed: Parsed, spec: Spec, n: string) returns (p: string)
    requires ReadSoFar(parsed, spec, spec.Keys) && n in parsed.pools
    ensures p in spec && n == Normalize(p)
  {
    hide Normalize, Read, ListsAll, Readable;
    p :| p in spec.Keys && n == Normalize(p);
  }

  /** One pool's settings pass exactly when the file shape is good, its members aside; then it is the pool made. */
  lemma FinishIs(parsed: Parsed, spec: Spec, def: string, p: string)
    requires GoodKeys(spec.Keys) && ReadSoFar(parsed, spec, spec.Keys) && p in spec
    requires InPools(parsed.members, parsed.pools)
    ensures var n, ps := Normalize(p), spec[p];
      && n in parsed.pools && GoodKeys(ps.members.Keys)
      && (Finishable(parsed.pools[n], Filled(parsed, def, n)) <==>
            && (ps.baseURL != "" ==> ps.members != map[]) && (ps.concurrency.Some? ==> ps.concurrency.value >= 1)
            && GoodPriority(NormalizeAll(ps.priority), ps.members.Keys))
      && Finished(parsed.pools[n], Filled(parsed, def, n)) == MakePool(n, ps, def)
  {
    hide Normalize, ReadSoFar, GoodKeys, MakePool, ByNick, NormalizeAll, Listing;
    var n, ps := Normalize(p), spec[p];
    FilledIs(parsed, spec, def, p);
    PoolNamed(parsed, spec, p);
    SpecReadable(parsed, spec, p);
    MadeFields(n, ps, def);
    var byNick := MakePool(n, ps, def).byNick;
    if k :| k in ps.members { MemberAt(n, ps, def, k); }
    if k :| k in byNick { var j := MemberFrom(n, ps, def, k); }
    forall k ensures k in byNick <==> exists j :: j in ps.members.Keys && Normalize(j) == k {
      if k in byNick { var j := MemberFrom(n, ps, def, k); }
      if j :| j in ps.members.Keys && Normalize(j) == k { MemberAt(n, ps, def, j); }
    }
  }

  lemma MembersGood(parsed: Parsed, spec: Spec, def: string, url: UrlCheck)
    requires ReadSoFar(parsed, spec, spec.Keys) && InPools(parsed.members, parsed.pools)
    ensures (forall m :: m in parsed.members ==> m.spec.credential != "" && ValidURL(url, RawURL(m, parsed.pools, def)))
       <==> (forall p, k :: p in spec && k in spec[p].members ==> GoodMember(spec[p].members[k], spec[p], def, url))
  {
    hide Normalize, ReadSoFar, Read, MemberURL;
    forall m | m in parsed.members
      ensures exists p, k :: p in spec && k in spec[p].members && m.spec == spec[p].members[k]
                             && RawURL(m, parsed.pools, def) == MemberURL(m.spec, spec[p], def)
    {
      var p, k := Declares(parsed, spec, m);
      SamePoolURL(spec[p], def);
      assert m.spec == spec[p].members[k];
    }
    forall p, k | p in spec && k in spec[p].members
      ensures exists m :: m in parsed.members && m.spec == spec[p].members[k]
                          && RawURL(m, parsed.pools, def) == MemberURL(m.spec, spec[p], def)
    {
      Declared(parsed, spec, p, k);
      SamePoolURL(spec[p], def);
      assert Raw(Normalize(p), k, spec[p]) in parsed.members;
    }
  }

  lemma BijectionIs(parsed: Parsed, spec: Spec)
    requires ReadSoFar(parsed, spec, spec.Keys)
    ensures OneToOne(parsed.members) <==> Bijective(spec)
  {
    hide Normalize, ReadSoFar, Read;
    if OneToOne(parsed.members) {
      forall p, q, j, k | p in spec && q in spec && j in spec[p].members && k in spec[q].members
        ensures Normalize(j) == Normalize(k) <==> spec[p].members[j].credential == spec[q].members[k].credential
      {
        Declared(parsed, spec, p, j);
        Declared(parsed, spec, q, k);
        var a, b := Raw(Normalize(p), j, spec[p]), Raw(Normalize(q), k, spec[q]);
        assert a in parsed.members && b in parsed.members;
      }
    }
    if Bijective(spec) {
      forall a, b | a in parsed.members && b in parsed.members
        ensures a.nick == b.nick <==> a.spec.credential == b.spec.credential
      {
        var p, j := Declares(parsed, spec, a);
        var q, k := Declares(parsed, spec, b);
        assert Agree(spec[p], spec[q]);
      }
    }
  }

  lemma Unreadable(spec: Spec, def: string, url: UrlCheck)
    requires Valid(spec, def, url)
    ensures GoodKeys(spec.Keys) && forall p :: p in spec ==> Readable(spec[p])
  {
    hide Normalize, Bijective, GoodKeys, NormalizeAll;
    forall p | p in spec ensures Readable(spec[p]) {
      assert GoodPool(spec[p], def, url);
    }
  }

  lemma BuildIs(parsed: Parsed, spec: Spec, def: string, url: UrlCheck)
    requires GoodKeys(spec.Keys) && ReadSoFar(parsed, spec, spec.Keys) && InPools(parsed.members, parsed.pools)
    ensures Buildable(parsed, def, url) <==> Valid(spec, def, url)
    ensures Valid(spec, def, url) ==> Assembled(parsed, def) == Build(spec, def, url).value
  {
    hide Normalize, ReadSoFar, GoodKeys, MakePool, Finishable, Finished, Filled, GoodMember, GoodPriority, NormalizeAll,
         OneToOne, Bijective, Readable, RawURL;
    MembersGood(parsed, spec, def, url);
    BijectionIs(parsed, spec);
    forall p | p in spec { FinishIs(parsed, spec, def, p); }
    forall n | n in parsed.pools ensures exists p :: p in spec && Normalize(p) == n {
      var p := PoolNameFrom(parsed, spec, n);
    }
    if Valid(spec, def, url) { AssembledIs(parsed, spec, def, url); }
  }

  lemma AssembledIs(parsed: Parsed, spec: Spec, def: string, url: UrlCheck)
    requires GoodKeys(spec.Keys) && ReadSoFar(parsed, spec, spec.Keys) && InPools(parsed.members, parsed.pools)
    requires Valid(spec, def, url)
    requires forall p :: p in spec ==> (Normalize(p) in parsed.pools && GoodKeys(spec[p].members.Keys)
               && Finished(parsed.pools[Normalize(p)], Filled(parsed, def, Normalize(p))) == MakePool(Normalize(p), spec[p], def))
    requires forall n :: n in parsed.pools ==> exists p :: p in spec && Normalize(p) == n
    ensures Assembled(parsed, def) == Build(spec, def, url).value
  {
    hide Normalize, ReadSoFar, GoodKeys, MakePool, Finished, Filled, GoodPool, Bijective;
    assert Assembled(parsed, def).pools == Build(spec, def, url).value.pools;
  }

  /** `BuildFromSpec`. */
  method BuildFromSpec(spec: Spec, def: string, url: UrlCheck) returns (r: Option<Registry>)
    ensures r == Build(spec, def, url)
  {
    hide ReadSoFar, Valid, Build, Buildable, Assembled, GoodKeys, Readable;
    var parsed := ReadSpec(spec);
    if parsed.None? {
      NotValid(spec, def, url);
      return None;
    }
    ReadInPools(parsed.value, spec);
    BuildIs(parsed.value, spec, def, url);
    BuiltWhenValid(spec, def, url);
    r := BuildRegistry(def, parsed.value, url);
  }

  lemma NotValid(spec: Spec, def: string, url: UrlCheck)
    requires !(GoodKeys(spec.Keys) && forall p :: p in spec ==> Readable(spec[p]))
    ensures Build(spec, def, url) == None
  {
    hide GoodKeys, Readable, Valid, MakePool;
    if Valid(spec, def, url) { Unreadable(spec, def, url); }
  }

  lemma BuiltWhenValid(spec: Spec, def: string, url: UrlCheck)
    ensures Build(spec, def, url).Some? <==> Valid(spec, def, url)
  {
    hide Valid, MakePool;
  }

  // ---------------------------------------------------------------- mutators

  /** `Registry.Spec`: a fresh file shape, pool by pool and member by member. */
  method DeriveSpec(r: Registry) returns (spec: Spec)
    ensures spec == SpecOf(r)
  {
    hide SpecOfPool;
    spec := map[];
    var todo := r.pools.Keys;
    while todo != {}
      invariant todo <= r.pools.Keys && spec.Keys == r.pools.Keys - todo
      invariant forall n :: n in spec ==> spec[n] == SpecOfPool(r.pools[n], r.defaultURL)
      decreases |todo|
    {
      var n :| n in todo;
      var ps := DerivePool(r.pools[n], r.defaultURL);
      spec, todo := spec[n := ps], todo - {n};
    }
  }

  method DerivePool(p: Pool, def: string) returns (ps: PoolSpec)
    ensures ps == SpecOfPool(p, def)
  {
    var members: map<string, MemberSpec> := map[];
    var todo := p.byNick.Keys;
    while todo != {}
      invariant todo <= p.byNick.Keys && members.Keys == p.byNick.Keys - todo
      invariant forall n :: n in members ==> members[n] == SpecOfMember(p.byNick[n], p)
      decreases |todo|
    {
      var n :| n in todo;
      members, todo := members[n := SpecOfMember(p.byNick[n], p)], todo - {n};
    }
    var baseURL := if p.baseURL != def then p.baseURL else "";
    ps := PoolSpec(baseURL, members, p.priority, if p.concurrency > 1 then Some(p.concurrency) else None);
    assert members == SpecOfPool(p, def).members;
  }

  method SetMember(r: Registry, pool: string, nick: string, cred: string, baseURL: string, disabled: bool, url: UrlCheck)
      returns (next: Option<Registry>)
    ensures next == WithMemberSet(r, pool, nick, cred, baseURL, disabled, url)
  {
    hide Normalize, Build, SpecOf;
    var p := Normalize(pool);
    var spec := DeriveSpec(r);
    if p !in spec { return None; }
    var members := spec[p].members[Normalize(nick) := MemberSpec(cred, baseURL, disabled)];
    next := BuildFromSpec(spec[p := spec[p].(members := members)], r.defaultURL, url);
  }

  method PruneOrder(order: seq<string>, nick: string) returns (kept: seq<string>)
    ensures kept == Prune(order, nick)
  {
    hide Normalize;
    kept := [];
    assert order[0..] == order;
    for i := 0 to |order|
      invariant kept + Prune(order[i..], nick) == Prune(order, nick)
    {
      assert order[i..][1..] == order[i + 1..];
      if Normalize(order[i]) != nick { kept := kept + [order[i]]; }
    }
  }

  method RemoveMember(r: Registry, pool: string, nick: string, url: UrlCheck) returns (next: Option<Registry>)
    ensures next == WithMemberRemoved(r, pool, nick, url)
  {
    hide Normalize, Build, SpecOf, Prune;
    var p, n := Normalize(pool), Normalize(nick);
    var spec := DeriveSpec(r);
    if p !in spec || n !in spec[p].members { return None; }
    var ps := spec[p].(members := spec[p].members - {n});
    if ps.members == map[] { ps := ps.(baseURL := ""); }
    var order := PruneOrder(ps.priority, n);
    next := BuildFromSpec(spec[p := ps.(priority := order)], r.defaultURL, url);
  }

  method DisableMember(r: Registry, pool: string, nick: string, off: bool, url: UrlCheck) returns (next: Option<Registry>)
    ensures next == WithMemberDisabled(r, pool, nick, off, url)
  {
    hide Normalize, Build, SpecOf;
    var p, n := Normalize(pool), Normalize(nick);
    var spec := DeriveSpec(r);
    if p !in spec || n !in spec[p].members { return None; }
    var ps := spec[p];
    next := BuildFromSpec(spec[p := ps.(members := ps.members[n := ps.members[n].(disabled := off)])], r.defaultURL, url);
  }

  method SetPriority(r: Registry, pool: string, order: seq<string>, url: UrlCheck) returns (next: Option<Registry>)
    ensures next == WithPriority(r, pool, order, url)
  {
    hide Normalize, Build, SpecOf;
    var p := Normalize(pool);
    var spec := DeriveSpec(r);
    if p !in spec { return None; }
    next := BuildFromSpec(spec[p := spec[p].(priority := NormalizeAll(order))], r.defaultURL, url);
  }

  method SetConcurrency(r: Registry, pool: string, n: int, url: UrlCheck) returns (next: Option<Registry>)
    ensures next == WithPoolConcurrency(r, pool, n, url)
  {
    hide Normalize, Build, SpecOf;
    var p := Normalize(pool);
    var spec := DeriveSpec(r);
    if p !in spec { return None; }
    next := BuildFromSpec(spec[p := spec[p].(concurrency := Some(n))], r.defaultURL, url);
  }

  method CreatePool(r: Registry, name: string, url: UrlCheck) returns (next: Option<Registry>)
    ensures next == WithPoolCreated(r, name, url)
  {
    hide Normalize, Build, SpecOf;
    var p := Normalize(name);
    var spec := DeriveSpec(r);
    if p == "" || p in spec { return None; }
    next := BuildFromSpec(spec[p := NO_MEMBERS], r.defaultURL, url);
  }

  method RemovePool(r: Registry, name: string, url: UrlCheck) returns (next: Option<Registry>)
    ensures next == WithPoolRemoved(r, name, url)
  {
    hide Normalize, Build, SpecOf;
    var p := Normalize(name);
    var spec := DeriveSpec(r);
    if p !in spec { return None; }
    next := BuildFromSpec(spec - {p}, r.defaultURL, url);
  }

  method RenamePool(r: Registry, from: string, to: string, url: UrlCheck) returns (next: Option<Registry>)
    ensures next == WithPoolRenamed(r, from, to, url)
  {
    hide Normalize, Build, SpecOf;
    var p, q := Normalize(from), Normalize(to);
    if p == "" || q == "" || p == q { return None; }
    var spec := DeriveSpec(r);
    if p !in spec || q in spec { return None; }
    next := BuildFromSpec((spec - {p})[q := spec[p]], r.defaultURL, url);
  }
}
