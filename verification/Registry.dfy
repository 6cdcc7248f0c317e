/**
 The immutable pool registry: its file-shaped `Spec`, the one validation core that
 builds it, and the copy-on-write mutators that go from one to the other.
 */
module Registry {
  import opened Common
  import opened Names

  datatype MemberSpec = MemberSpec(credential: string, baseURL: string, disabled: bool)

  datatype PoolSpec = PoolSpec(baseURL: string, members: map<string, MemberSpec>, priority: seq<string>,
                               concurrency: Option<int>)

  type Spec = map<string, PoolSpec>

  datatype Backend = Backend(pool: string, nick: string, credential: string, baseURL: string, disabled: bool)

  datatype Pool = Pool(name: string, byNick: map<string, Backend>, nicks: seq<string>, baseURL: string,
                       priority: seq<string>, concurrency: int)

  datatype Registry = Registry(pools: map<string, Pool>, defaultURL: string)

  /** The URL parser's verdict is a parameter: which strings have a scheme and a host. */
  type UrlCheck = string -> bool

  /** `ValidateBaseURL`. */
  predicate ValidURL(url: UrlCheck, s: string) { s != "" && url(s) }

  // --------------------------------------------------------------- building

  /** Names that survive normalisation, and stay apart under it. */
  ghost predicate GoodKeys(keys: set<string>) {
    && (forall k :: k in keys ==> Normalize(k) != "")
    && (forall j, k :: j in keys && k in keys && Normalize(j) == Normalize(k) ==> j == k)
  }

  function NormalizeAll(order: seq<string>): (r: seq<string>)
    ensures |r| == |order| && forall i :: 0 <= i < |r| ==> r[i] == Normalize(order[i])
  {
    seq(|order|, i requires 0 <= i < |order| => Normalize(order[i]))
  }

  function PoolURL(ps: PoolSpec, def: string): string { if ps.baseURL != "" then ps.baseURL else def }

  function MemberURL(m: MemberSpec, ps: PoolSpec, def: string): string {
    if m.baseURL != "" then m.baseURL else PoolURL(ps, def)
  }

  ghost predicate GoodMember(m: MemberSpec, ps: PoolSpec, def: string, url: UrlCheck) {
    m.credential != "" && ValidURL(url, MemberURL(m, ps, def))
  }

  ghost predicate GoodPool(ps: PoolSpec, def: string, url: UrlCheck) {
    && GoodKeys(ps.members.Keys)
    && (forall k :: k in ps.members ==> GoodMember(ps.members[k], ps, def, url))
    && (ps.baseURL != "" ==> ps.members != map[])
    && (ps.concurrency.Some? ==> ps.concurrency.value >= 1)
    && GoodPriority(NormalizeAll(ps.priority), ps.members.Keys)
  }

  /** A preference list names members only, and each once. */
  ghost predicate GoodPriority(order: seq<string>, keys: set<string>) {
    && Distinct(order)
    && (forall n :: n in order ==> n != "" && exists k :: k in keys && Normalize(k) == n)
  }

  ghost predicate Agree(a: PoolSpec, b: PoolSpec) {
    forall j, k :: j in a.members && k in b.members ==>
      (Normalize(j) == Normalize(k) <==> a.members[j].credential == b.members[k].credential)
  }

  /** A nick carries one credential everywhere, and a credential one nick. */
  ghost predicate Bijective(spec: Spec) {
    forall p, q :: p in spec && q in spec ==> Agree(spec[p], spec[q])
  }

  ghost predicate Valid(spec: Spec, def: string, url: UrlCheck) {
    && GoodKeys(spec.Keys)
    && (forall p :: p in spec ==> GoodPool(spec[p], def, url))
    && Bijective(spec)
  }

  ghost function MakeMember(name: string, k: string, ps: PoolSpec, def: string): Backend
    requires k in ps.members
  {
    var m := ps.members[k];
    Backend(name, Normalize(k), m.credential, MemberURL(m, ps, def), m.disabled)
  }

  ghost function MakePool(name: string, ps: PoolSpec, def: string): Pool
    requires GoodKeys(ps.members.Keys)
  {
    var byNick := map k | k in ps.members :: Normalize(k) := MakeMember(name, k, ps, def);
    Pool(name, byNick, Listing(byNick.Keys), PoolURL(ps, def), NormalizeAll(ps.priority),
         if ps.concurrency.Some? then ps.concurrency.value else 1)
  }

  /** `BuildFromSpec`: one verdict and one registry, whatever order the maps are walked in. */
  ghost function Build(spec: Spec, def: string, url: UrlCheck): Option<Registry> {
    if Valid(spec, def, url) then
      Some(Registry(map p | p in spec :: Normalize(p) := MakePool(Normalize(p), spec[p], def), def))
    else None
  }

  // ------------------------------------------------- back to the file shape

  function SpecOfMember(b: Backend, p: Pool): MemberSpec {
    MemberSpec(b.credential, if b.baseURL != p.baseURL then b.baseURL else "", b.disabled)
  }

  function SpecOfPool(p: Pool, def: string): PoolSpec {
    PoolSpec(if p.baseURL != def then p.baseURL else "",
             map n | n in p.byNick :: SpecOfMember(p.byNick[n], p),
             p.priority,
             if p.concurrency > 1 then Some(p.concurrency) else None)
  }

  /** `Registry.Spec`. */
  function SpecOf(r: Registry): Spec {
    map n | n in r.pools :: SpecOfPool(r.pools[n], r.defaultURL)
  }

  // ------------------------------------------------------ what a build yields

  ghost predicate PoolWF(n: string, p: Pool, def: string, url: UrlCheck) {
    && n != "" && p.name == n
    && p.nicks == Listing(p.byNick.Keys)
    && (forall k :: k in p.byNick ==>
          var b := p.byNick[k];
          k != "" && b.pool == n && b.nick == k && b.credential != "" && ValidURL(url, b.baseURL))
    && Distinct(p.priority) && (forall k :: k in p.priority ==> k in p.byNick)
    && p.concurrency >= 1
    && (p.byNick == map[] ==> p.baseURL == def)
    && (p.baseURL == "" ==> def == "")
  }

  ghost predicate OneCredential(a: Pool, b: Pool) {
    forall j, k :: j in a.byNick && k in b.byNick ==>
      (j == k <==> a.byNick[j].credential == b.byNick[k].credential)
  }

  ghost predicate WF(r: Registry, url: UrlCheck) {
    && (forall n :: n in r.pools ==> PoolWF(n, r.pools[n], r.defaultURL, url))
    && (forall p, q :: p in r.pools && q in r.pools ==> OneCredential(r.pools[p], r.pools[q]))
  }

  ghost predicate CanonicalPool(p: Pool) { forall k :: k in p.byNick ==> Canonical(k) }

  /** Every pool name and nick is a fixed point of normalisation. */
  ghost predicate CanonicalNames(r: Registry) {
    forall n :: n in r.pools ==> Canonical(n) && CanonicalPool(r.pools[n])
  }

  lemma MemberAt(n: string, ps: PoolSpec, def: string, j: string)
    requires GoodKeys(ps.members.Keys) && j in ps.members
    ensures var p := MakePool(n, ps, def);
      Normalize(j) in p.byNick && p.byNick[Normalize(j)] == MakeMember(n, j, ps, def)
  {
    hide Normalize;
  }

  lemma MemberFrom(n: string, ps: PoolSpec, def: string, k: string) returns (j: string)
    requires GoodKeys(ps.members.Keys) && k in MakePool(n, ps, def).byNick
    ensures j in ps.members && Normalize(j) == k && MakePool(n, ps, def).byNick[k] == MakeMember(n, j, ps, def)
  {
    hide Normalize;
    j :| j in ps.members && Normalize(j) == k;
  }

  lemma PoolAt(spec: Spec, def: string, url: UrlCheck, p: string)
    requires Valid(spec, def, url) && p in spec
    ensures var r := Build(spec, def, url).value;
      GoodPool(spec[p], def, url) && Normalize(p) in r.pools && r.pools[Normalize(p)] == MakePool(Normalize(p), spec[p], def)
  {
    hide Normalize, GoodPool, MakePool, Bijective;
  }

  lemma PoolFrom(spec: Spec, def: string, url: UrlCheck, n: string) returns (p: string)
    requires Build(spec, def, url).Some? && n in Build(spec, def, url).value.pools
    ensures p in spec && Normalize(p) == n && GoodPool(spec[p], def, url)
    ensures Build(spec, def, url).value.pools[n] == MakePool(n, spec[p], def)
  {
    hide Normalize, GoodPool, MakePool;
    p :| p in spec && Normalize(p) == n;
  }

  lemma MakePoolWF(n: string, ps: PoolSpec, def: string, url: UrlCheck)
    requires n != "" && GoodPool(ps, def, url)
    ensures PoolWF(n, MakePool(n, ps, def), def, url)
  {
    hide Normalize;
    var p := MakePool(n, ps, def);
    forall k | k in p.byNick
      ensures var b := p.byNick[k]; k != "" && b.pool == n && b.nick == k && b.credential != "" && ValidURL(url, b.baseURL)
    {
      var j := MemberFrom(n, ps, def, k);
      assert GoodMember(ps.members[j], ps, def, url);
    }
    forall k | k in p.priority ensures k in p.byNick {
      var j :| j in ps.members && Normalize(j) == k;
      MemberAt(n, ps, def, j);
    }
    if ps.members != map[] {
      var j :| j in ps.members;
      MemberAt(n, ps, def, j);
    }
  }

  lemma MadeAgree(p: string, a: PoolSpec, q: string, b: PoolSpec, def: string)
    requires GoodKeys(a.members.Keys) && GoodKeys(b.members.Keys) && Agree(a, b)
    ensures OneCredential(MakePool(p, a, def), MakePool(q, b, def))
  {
    hide Normalize, GoodKeys;
    var x, y := MakePool(p, a, def), MakePool(q, b, def);
    forall j, k | j in x.byNick && k in y.byNick
      ensures j == k <==> x.byNick[j].credential == y.byNick[k].credential
    {
      var j' := MemberFrom(p, a, def, j);
      var k' := MemberFrom(q, b, def, k);
    }
  }

  lemma SpecsAgree(spec: Spec, def: string, url: UrlCheck, p: string, q: string)
    requires Build(spec, def, url).Some? && p in spec && q in spec
    ensures Agree(spec[p], spec[q]) && GoodKeys(spec[p].members.Keys)
  {
    hide Normalize, Agree, GoodKeys, MakePool;
  }

  lemma BuildWF(spec: Spec, def: string, url: UrlCheck)
    requires Build(spec, def, url).Some?
    ensures WF(Build(spec, def, url).value, url)
  {
    hide Normalize, PoolWF, MakePool, Agree, OneCredential, GoodKeys, GoodPool, Build;
    BuildDefault(spec, def, url);
    var r := Build(spec, def, url).value;
    forall n | n in r.pools ensures PoolWF(n, r.pools[n], def, url) {
      var p := PoolFrom(spec, def, url, n);
      assert n != "" by { NonEmptyName(spec, def, url, p); }
      MakePoolWF(n, spec[p], def, url);
    }
    forall p, q | p in r.pools && q in r.pools ensures OneCredential(r.pools[p], r.pools[q]) {
      var p' := PoolFrom(spec, def, url, p);
      var q' := PoolFrom(spec, def, url, q);
      SpecsAgree(spec, def, url, p', q');
      SpecsAgree(spec, def, url, q', p');
      MadeAgree(p, spec[p'], q, spec[q'], def);
    }
  }

  lemma BuildDefault(spec: Spec, def: string, url: UrlCheck)
    requires Build(spec, def, url).Some?
    ensures Build(spec, def, url).value.defaultURL == def && Valid(spec, def, url)
  {
    hide Valid, MakePool, Normalize;
  }

  lemma NonEmptyName(spec: Spec, def: string, url: UrlCheck, p: string)
    requires Valid(spec, def, url) && p in spec
    ensures Normalize(p) != ""
  {
    hide Normalize, GoodPool, Bijective;
  }

  // ------------------------------------------------------------- round trip

  lemma NormalizeFixed(s: seq<string>)
    requires forall n :: n in s ==> Canonical(n)
    ensures NormalizeAll(s) == s
  {
    forall i | 0 <= i < |s| ensures Normalize(s[i]) == s[i] { assert s[i] in s; }
  }

  lemma MemberRoundTrip(n: string, p: Pool, def: string, url: UrlCheck, k: string)
    requires PoolWF(n, p, def, url) && CanonicalPool(p) && k in p.byNick
    ensures var ps := SpecOfPool(p, def);
      && Normalize(k) == k && k != "" && GoodMember(ps.members[k], ps, def, url)
      && MakeMember(n, k, ps, def) == p.byNick[k]
  {
    hide Normalize;
    assert Canonical(k);
    assert PoolURL(SpecOfPool(p, def), def) == p.baseURL;
  }

  lemma PoolRoundTrip(n: string, p: Pool, def: string, url: UrlCheck)
    requires PoolWF(n, p, def, url) && CanonicalPool(p)
    ensures GoodPool(SpecOfPool(p, def), def, url) && MakePool(n, SpecOfPool(p, def), def) == p
  {
    hide Normalize, MakePool, PoolWF, GoodPool, GoodKeys, CanonicalPool, SpecOfPool;
    var ps := SpecOfPool(p, def);
    PoolStaysGood(n, p, def, url);
    GoodPoolKeys(ps, def, url);
    var byNick := MakePool(n, ps, def).byNick;
    forall k ensures (k in byNick <==> k in p.byNick) && (k in byNick ==> byNick[k] == p.byNick[k]) {
      NickRebuilt(n, p, def, url, k);
    }
    assert byNick == p.byNick;
    RebuiltFields(n, p, def, url);
  }

  lemma NickRebuilt(n: string, p: Pool, def: string, url: UrlCheck, k: string)
    requires PoolWF(n, p, def, url) && CanonicalPool(p) && GoodKeys(SpecOfPool(p, def).members.Keys)
    ensures var byNick := MakePool(n, SpecOfPool(p, def), def).byNick;
      (k in byNick <==> k in p.byNick) && (k in byNick ==> byNick[k] == p.byNick[k])
  {
    hide Normalize, MakePool, PoolWF, MakeMember, GoodMember, GoodKeys, CanonicalPool;
    var ps := SpecOfPool(p, def);
    if k in p.byNick {
      MemberRoundTrip(n, p, def, url, k);
      MemberAt(n, ps, def, k);
    } else if k in MakePool(n, ps, def).byNick {
      var j := MemberFrom(n, ps, def, k);
      MemberRoundTrip(n, p, def, url, j);
    }
  }

  lemma RebuiltFields(n: string, p: Pool, def: string, url: UrlCheck)
    requires PoolWF(n, p, def, url) && CanonicalPool(p) && GoodPool(SpecOfPool(p, def), def, url)
    requires MakePool(n, SpecOfPool(p, def), def).byNick == p.byNick
    ensures MakePool(n, SpecOfPool(p, def), def) == p
  {
    hide Normalize;
    NormalizeFixed(p.priority);
  }

  lemma KeysStayGood(n: string, p: Pool, def: string, url: UrlCheck)
    requires PoolWF(n, p, def, url) && CanonicalPool(p)
    ensures GoodKeys(SpecOfPool(p, def).members.Keys)
  {
    hide Normalize, MakeMember, GoodMember;
    forall k | k in p.byNick ensures Normalize(k) == k && k != "" {
      MemberRoundTrip(n, p, def, url, k);
    }
  }

  lemma PoolStaysGood(n: string, p: Pool, def: string, url: UrlCheck)
    requires PoolWF(n, p, def, url) && CanonicalPool(p)
    ensures GoodPool(SpecOfPool(p, def), def, url)
  {
    hide Normalize, MakeMember, GoodMember, GoodPriority, GoodKeys, CanonicalPool;
    var ps := SpecOfPool(p, def);
    KeysStayGood(n, p, def, url);
    PriorityStaysGood(n, p, def, url);
    forall k | k in ps.members ensures GoodMember(ps.members[k], ps, def, url) {
      MemberRoundTrip(n, p, def, url, k);
    }
    if p.byNick != map[] {
      var k :| k in p.byNick;
      assert k in ps.members;
    }
  }

  lemma PriorityStaysGood(n: string, p: Pool, def: string, url: UrlCheck)
    requires PoolWF(n, p, def, url) && CanonicalPool(p)
    ensures NormalizeAll(p.priority) == p.priority && GoodPriority(p.priority, SpecOfPool(p, def).members.Keys)
  {
    hide Normalize;
    forall k | k in p.priority ensures Canonical(k) && k in SpecOfPool(p, def).members && Normalize(k) == k {
      assert k in p.byNick;
    }
    NormalizeFixed(p.priority);
  }

  lemma SpecValid(r: Registry, url: UrlCheck)
    requires WF(r, url) && CanonicalNames(r)
    ensures Valid(SpecOf(r), r.defaultURL, url)
  {
    hide Normalize, PoolWF, GoodPool, SpecOfPool;
    var spec := SpecOf(r);
    forall n | n in spec ensures n in r.pools && Normalize(n) == n && n != "" && GoodPool(spec[n], r.defaultURL, url) {
      assert Canonical(n);
      PoolStaysGood(n, r.pools[n], r.defaultURL, url);
    }
    SpecBijective(r, url);
  }

  lemma SpecBijective(r: Registry, url: UrlCheck)
    requires WF(r, url) && CanonicalNames(r)
    ensures Bijective(SpecOf(r))
  {
    hide Normalize, PoolWF;
    var spec := SpecOf(r);
    forall p, q | p in spec && q in spec ensures Agree(spec[p], spec[q]) {
      SpecAgree(r.pools[p], r.pools[q], r.defaultURL);
    }
  }

  lemma SpecAgree(a: Pool, b: Pool, def: string)
    requires OneCredential(a, b) && CanonicalPool(a) && CanonicalPool(b)
    ensures Agree(SpecOfPool(a, def), SpecOfPool(b, def))
  {
    hide Normalize;
    forall j, k | j in a.byNick && k in b.byNick
      ensures Normalize(j) == Normalize(k) <==> a.byNick[j].credential == b.byNick[k].credential
    {
      assert Canonical(j) && Canonical(k);
    }
  }

  /** Serialising a registry and building it again gives it back. */
  lemma RoundTrip(r: Registry, url: UrlCheck)
    requires WF(r, url) && CanonicalNames(r)
    ensures Build(SpecOf(r), r.defaultURL, url) == Some(r)
  {
    hide Normalize, PoolWF, GoodPool, SpecOfPool, MakePool, Valid;
    var spec := SpecOf(r);
    SpecValid(r, url);
    var b := Build(spec, r.defaultURL, url).value;
    forall n | n in r.pools ensures n in b.pools && b.pools[n] == r.pools[n] {
      assert Canonical(n);
      PoolAt(spec, r.defaultURL, url, n);
      PoolRoundTrip(n, r.pools[n], r.defaultURL, url);
    }
    forall n | n in b.pools ensures n in r.pools {
      var p := PoolFrom(spec, r.defaultURL, url, n);
      assert p in r.pools && Canonical(p);
    }
    assert b.pools == r.pools;
  }

  ghost predicate Normal(n: string) { exists raw :: n == Normalize(raw) }

  /** Normalisation maps `names` onto itself. */
  ghost predicate Onto(names: set<string>) {
    forall k :: k in names ==> Reached(names, k)
  }

  ghost predicate Reached(names: set<string>, k: string) { exists j :: j in names && Normalize(j) == k }

  /** A finite set of normal names that normalisation maps onto itself holds only fixed points. */
  lemma FixedImage(names: set<string>, n: string)
    requires (forall k :: k in names ==> Normal(k)) && Onto(names)
    requires n in names
    ensures Normalize(n) == n
  {
    hide Normalize, Reached;
    var moved := set k | k in names && Normalize(k) != k;
    if n in moved {
      var top := Longest(moved);
      assert Reached(names, top);
      var j := Preimage(names, top);
      var raw :| j == Normalize(raw);
      NormalizeTwice(raw);
      assert false;
    }
  }

  lemma Preimage(names: set<string>, k: string) returns (j: string)
    requires Reached(names, k)
    ensures j in names && Normalize(j) == k
  {
    hide Normalize;
    j :| j in names && Normalize(j) == k;
  }

  lemma Longest(names: set<string>) returns (top: string)
    requires names != {}
    ensures top in names && forall k :: k in names ==> |k| <= |top|
  {
    var k :| k in names;
    if names == {k} {
      top := k;
    } else {
      var rest := names - {k};
      assert names == rest + {k};
      assert rest != {};
      top := Longest(rest);
      if |top| < |k| { top := k; }
    }
  }

  lemma SpecKeys(r: Registry)
    ensures SpecOf(r).Keys == r.pools.Keys
    ensures forall n :: n in r.pools ==> SpecOf(r)[n] == SpecOfPool(r.pools[n], r.defaultURL)
    ensures forall n :: n in r.pools ==> SpecOf(r)[n].members.Keys == r.pools[n].byNick.Keys
  {
  }

  lemma NameReached(spec: Spec, def: string, url: UrlCheck, k: string)
    requires Build(spec, def, url).Some?
    requires var r := Build(spec, def, url).value;
      Build(SpecOf(r), def, url) == Some(r) && k in r.pools
    ensures k != "" && Normal(k) && Reached(Build(spec, def, url).value.pools.Keys, k)
  {
    hide Normalize, MakePool, GoodPool, Build, SpecOf, Valid, Reached;
    BuildDefault(spec, def, url);
    var r := Build(spec, def, url).value;
    SpecKeys(r);
    var raw := PoolFrom(spec, def, url, k);
    NonEmptyName(spec, def, url, raw);
    var j := PoolFrom(SpecOf(r), def, url, k);
    ReachedBy(r.pools.Keys, j);
  }

  lemma PoolNamesFixed(spec: Spec, def: string, url: UrlCheck, n: string)
    requires Build(spec, def, url).Some?
    requires var r := Build(spec, def, url).value;
      Build(SpecOf(r), def, url) == Some(r) && n in r.pools
    ensures Canonical(n)
  {
    hide Normalize, Normal, Reached, Build, SpecOf;
    var names := Build(spec, def, url).value.pools.Keys;
    forall k | k in names ensures k != "" && Normal(k) && Reached(names, k) {
      NameReached(spec, def, url, k);
    }
    FixedImage(names, n);
  }

  lemma ReachedBy(names: set<string>, j: string)
    requires j in names
    ensures Reached(names, Normalize(j))
  {
    hide Normalize;
  }

  lemma NicksFixed(spec: Spec, def: string, url: UrlCheck, n: string, k: string)
    requires Build(spec, def, url).Some?
    requires var r := Build(spec, def, url).value;
      Build(SpecOf(r), def, url) == Some(r) && n in r.pools && k in r.pools[n].byNick
    ensures Canonical(k)
  {
    var r := Build(spec, def, url).value;
    SpecKeys(r);
    var raw := PoolFrom(spec, def, url, n);
    var again := PoolFrom(SpecOf(r), def, url, n);
    PoolNamesFixed(spec, def, url, again);
    var ps, qs := spec[raw], SpecOf(r)[again];
    GoodPoolKeys(ps, def, url);
    GoodPoolKeys(qs, def, url);
    MadeNicksFixed(n, ps, qs, def, k);
  }

  lemma KeyNonEmpty(keys: set<string>, k: string)
    requires GoodKeys(keys) && k in keys
    ensures Normalize(k) != ""
  {
    hide Normalize;
  }

  lemma MadeNicksFixed(n: string, ps: PoolSpec, qs: PoolSpec, def: string, k: string)
    requires GoodKeys(ps.members.Keys) && GoodKeys(qs.members.Keys)
    requires MakePool(n, ps, def) == MakePool(n, qs, def)
    requires qs.members.Keys == MakePool(n, ps, def).byNick.Keys && k in qs.members
    ensures Canonical(k)
  {
    hide Normalize, MakePool, GoodKeys, Normal, Reached;
    KeyNonEmpty(qs.members.Keys, k);
    var nicks := qs.members.Keys;
    forall m | m in nicks ensures Normal(m) && Reached(nicks, m) {
      NickReached(n, ps, qs, def, m);
    }
    FixedImage(nicks, k);
  }

  lemma NickReached(n: string, ps: PoolSpec, qs: PoolSpec, def: string, m: string)
    requires GoodKeys(ps.members.Keys) && GoodKeys(qs.members.Keys)
    requires MakePool(n, ps, def) == MakePool(n, qs, def) && m in MakePool(n, ps, def).byNick
    ensures Normal(m) && Reached(qs.members.Keys, m)
  {
    hide Normalize, MakePool, GoodKeys, Reached;
    var from := MemberFrom(n, ps, def, m);
    var j := MemberFrom(n, qs, def, m);
    ReachedBy(qs.members.Keys, j);
  }

  lemma GoodPoolKeys(ps: PoolSpec, def: string, url: UrlCheck)
    requires GoodPool(ps, def, url)
    ensures GoodKeys(ps.members.Keys)
  {
    hide Normalize, GoodKeys;
  }

  /** The round trip holds of a built registry exactly when all its names are canonical. */
  lemma RoundTripExactly(spec: Spec, def: string, url: UrlCheck)
    requires Build(spec, def, url).Some?
    ensures var r := Build(spec, def, url).value;
      Build(SpecOf(r), def, url) == Some(r) <==> CanonicalNames(r)
  {
    hide Normalize, Build, SpecOf, WF;
    BuildDefault(spec, def, url);
    BuildWF(spec, def, url);
    var r := Build(spec, def, url).value;
    if CanonicalNames(r) {
      RoundTrip(r, url);
    }
    if Build(SpecOf(r), def, url) == Some(r) {
      forall n | n in r.pools ensures Canonical(n) && CanonicalPool(r.pools[n]) {
        PoolNamesFixed(spec, def, url, n);
        forall k | k in r.pools[n].byNick ensures Canonical(k) {
          NicksFixed(spec, def, url, n, k);
        }
      }
    }
  }
}
