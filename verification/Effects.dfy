/** What rotations and moves come to in the registry, member by member. */
module Effects {
  import opened Common
  import opened Names
  import R = Registry
  import opened E = RegistryEdits
  import opened Availability
  import opened Mutations

  ghost function SetCredential(p: R.Pool, n: string, cred: string): R.Pool
    requires n in p.byNick
  {
    p.(byNick := p.byNick[n := p.byNick[n].(credential := cred)])
  }

  /** A rotation changes one credential and keeps every other declaration. */
  lemma RotatedEffect(r: R.Registry, name: string, nick: string, cred: string, url: R.UrlCheck)
    requires Sane(r, url) && Rotate(r, name, nick, cred, url).Some?
    ensures name in r.pools && nick in r.pools[name].byNick
    ensures Rotate(r, name, nick, cred, url) == Some(r.(pools := r.pools[name := SetCredential(r.pools[name], nick, cred)]))
  {
    hide Canonical, R.Build, R.MakePool, R.GoodKeys, R.SpecOf, R.PoolWF, R.CanonicalPool, R.SpecOfPool;
    R.SpecKeys(r);
    SanePool(r, name, url);
    var ps := R.SpecOf(r)[name];
    var m := ps.members[nick].(credential := cred);
    EditOnePool(r, name, ps.(members := ps.members[nick := m]), url);
    RebuildCredential(name, r.pools[name], nick, cred, r.defaultURL, url);
  }

  lemma RebuildCredential(n: string, p: R.Pool, nick: string, cred: string, def: string, url: R.UrlCheck)
    requires R.PoolWF(n, p, def, url) && R.CanonicalPool(p) && nick in p.byNick
    requires var ps := R.SpecOfPool(p, def); R.GoodKeys(ps.members[nick := ps.members[nick].(credential := cred)].Keys)
    ensures var ps := R.SpecOfPool(p, def);
      R.MakePool(n, ps.(members := ps.members[nick := ps.members[nick].(credential := cred)]), def) == SetCredential(p, nick, cred)
  {
    hide Canonical, R.GoodKeys, R.MakePool, R.PoolWF, R.CanonicalPool, Listing, R.SpecOfPool;
    OwnMembers(n, p, def, url);
    RebuildMemberSet(n, p, nick, R.SpecOfPool(p, def).members[nick].(credential := cred), def, url);
    assert p.byNick.Keys + {nick} == p.byNick.Keys;
  }

  /** `r` with the member of `from` now in `to`, as declared there, and the rest of both pools as it was. */
  ghost predicate MovedTo(r: R.Registry, next: R.Registry, from: string, to: string, n: string, cred: string, at: string) {
    && from in r.pools && to in r.pools && from in next.pools && to in next.pools
    && next.pools[from].byNick == r.pools[from].byNick - {n}
    && next.pools[to].byNick == r.pools[to].byNick[n := R.Backend(to, n, cred, at, false)]
  }

  lemma AddedEffect(r: R.Registry, e: Env, name: string, n: string, cred: string, at: string, ordered: bool, order: seq<string>)
    requires Sane(r, e.url) && Canonical(name) && Canonical(n) && at != "" && Added(r, e, name, n, cred, at, ordered, order).Some?
    ensures var next := Added(r, e, name, n, cred, at, ordered, order).value;
      && Sane(next, e.url) && name in r.pools && next.pools.Keys == r.pools.Keys
      && next.pools[name].byNick == r.pools[name].byNick[n := R.Backend(name, n, cred, at, false)]
      && forall q :: q in r.pools && q != name ==> next.pools[q] == r.pools[q]
  {
    hide Normalize, WithMemberSet, WithPriority, Sane, Listing;
    MemberSetEffect(r, name, n, cred, at, false, e.url);
    MemberCommit(r, name, n, cred, at, false, e.url);
    var mid := WithMemberSet(r, name, n, cred, at, false, e.url).value;
    CommitSane(r, mid, [name], e.url);
    if ordered {
      PriorityEffect(mid, name, order, e.url);
      PriorityCommit(mid, name, order, e.url);
      CommitSane(mid, WithPriority(mid, name, order, e.url).value, [name], e.url);
    }
  }

  lemma RelocatedEffect(r: R.Registry, e: Env, from: string, to: string, n: string, cred: string, at: string, ordered: bool,
                        order: seq<string>)
    requires Sane(r, e.url) && Canonical(from) && Canonical(to) && Canonical(n) && from != to && at != ""
    requires Relocated(r, e, from, to, n, cred, at, ordered, order).Some?
    ensures MovedTo(r, Relocated(r, e, from, to, n, cred, at, ordered, order).value, from, to, n, cred, at)
  {
    hide Normalize, Added, WithMemberRemoved, Sane, Listing, Prune;
    AddedEffect(r, e, to, n, cred, at, ordered, order);
    RemovedMemberExactly(Added(r, e, to, n, cred, at, ordered, order).value, from, n, e.url);
  }

  /** A move that is accepted takes the member out of its pool and puts it, as it was declared there, into the other. */
  lemma MoveEffect(s: State, e: Env, q: Request)
    requires Mirror(s, e.url) && q.Relocate? && Judge(s, e, q).Commit?
    ensures var from, to, n := Normalize(q.pool), Normalize(q.to), Normalize(q.nick);
      && from in s.reg.pools && n in s.reg.pools[from].byNick
      && var b := s.reg.pools[from].byNick[n];
         MovedTo(s.reg, Judge(s, e, q).next, from, to, n, b.credential, b.baseURL)
  {
    hide Normalize, Relocated, ScreenMove, Mirror, Sane, R.NormalizeAll, Find;
    var from, to, n := Normalize(q.pool), Normalize(q.to), Normalize(q.nick);
    var m := ScreenMove(s, from, to, n, q.placement, q.force);
    MirrorSane(s, e.url);
    MoveNames(s, e, from, to, n, q.placement, q.force);
    ScreenedSource(s, e, from, to, n, q.placement, q.force);
    var ordered := !IsMember(s.ctls[to], n) && s.ctls[to].declared != [];
    RelocatedEffect(s.reg, e, from, to, n, m.credential, m.at, ordered, R.NormalizeAll(q.placement));
  }

  /** What a move carries is what the registry declares at the source. */
  lemma ScreenedSource(s: State, e: Env, from: string, to: string, n: string, placement: seq<string>, force: bool)
    requires Mirror(s, e.url) && ScreenMove(s, from, to, n, placement, force).Passed?
    ensures from in s.reg.pools && n in s.reg.pools[from].byNick
    ensures var m, b := ScreenMove(s, from, to, n, placement, force), s.reg.pools[from].byNick[n];
      m.credential == b.credential && m.at == b.baseURL && m.at != ""
  {
    hide Normalize, Takes, Sane, ConfigOf, Listing;
    PoolCanonical(s, e, from);
    ConfigGood(s.reg, from, e.url);
    SanePool(s.reg, from, e.url);
    assert Shows(s, from);
  }
}
