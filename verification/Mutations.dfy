/**
 Runtime changes to the pools: what each request is judged to be, what it commits, and that
 the controllers go on mirroring the registry when the names it introduces settle.
 */
module Mutations {
  import opened Common
  import opened Names
  import R = Registry
  import opened E = RegistryEdits
  import opened Availability
  import opened Routing
  import opened Restart
  import opened Reconcile

  /** The registry and the controllers by pool name. */
  datatype State = State(reg: R.Registry, ctls: map<string, Ctl>)

  /** What a step reads besides: the world, valid worker names, the URL check, the configured default upstream. */
  datatype Env = Env(w: World, ok: NameCheck, url: R.UrlCheck, gateway: string)

  // ------------------------------------------------- the registry's view of a pool

  /** `PoolNicks` resolved one by one, as `reconcileLocked` does. */
  function MembersIn(p: R.Pool, nicks: seq<string>): seq<Member> {
    if nicks == [] then []
    else
      var n := Normalize(nicks[0]);
      (if n in p.byNick then [Member(nicks[0], p.byNick[n].credential, p.byNick[n].baseURL)] else [])
      + MembersIn(p, nicks[1..])
  }

  function DisabledIn(p: R.Pool): set<string> {
    set n | n in p.nicks && Normalize(n) in p.byNick && p.byNick[Normalize(n)].disabled
  }

  function ConfigOf(r: R.Registry, name: string): Config {
    var n := Normalize(name);
    if n in r.pools then
      var p := r.pools[n];
      Config(MembersIn(p, p.nicks), p.nicks, DisabledIn(p), p.priority, p.concurrency)
    else Config([], [], {}, [], 1)
  }

  function ResolveIn(r: R.Registry, name: string, nick: string): Option<R.Backend> {
    var p, n := Normalize(name), Normalize(nick);
    if p in r.pools && n in r.pools[p].byNick then Some(r.pools[p].byNick[n]) else None
  }

  predicate HasPool(r: R.Registry, name: string) { Normalize(name) in r.pools }

  predicate IsMember(c: Ctl, nick: string) { Find(c.members, nick).Some? }

  // ---------------------------------------------------------------- judgements

  /** What a request comes to: refused, already so, or a new registry and which controllers follow it. */
  datatype Verdict =
    | Reject(status: int)
    | Keep
    | Commit(next: R.Registry, pools: seq<string>)
    | Insert(next: R.Registry, name: string)
    | Delete(next: R.Registry, name: string)
    | Move(next: R.Registry, from: string, to: string)

  ghost function OrReject(next: Option<R.Registry>, status: int, pools: seq<string>): Verdict {
    if next.Some? then Commit(next.value, pools) else Reject(status)
  }

  ghost predicate ValidOrder(c: Ctl, order: seq<string>) {
    && Distinct(R.NormalizeAll(order)) && "" !in R.NormalizeAll(order)
    && forall n :: n in R.NormalizeAll(order) ==> IsMember(c, n)
  }

  ghost function JudgePriority(s: State, e: Env, pool: string, order: seq<string>): Verdict {
    var name := Normalize(pool);
    if name !in s.ctls then Reject(404)
    else if !ValidOrder(s.ctls[name], order) then Reject(400)
    else OrReject(WithPriority(s.reg, name, R.NormalizeAll(order), e.url), 400, [name])
  }

  ghost function JudgeConcurrency(s: State, e: Env, pool: string, n: int): Verdict {
    var name := Normalize(pool);
    if n < 1 then Reject(400)
    else if name !in s.ctls then Reject(404)
    else OrReject(WithPoolConcurrency(s.reg, name, n, e.url), 400, [name])
  }

  ghost function JudgeDisabled(s: State, e: Env, pool: string, nick: string, off: bool): Verdict {
    var name, n := Normalize(pool), Normalize(nick);
    if n == "" then Reject(400)
    else if name !in s.ctls then Reject(404)
    else if !IsMember(s.ctls[name], n) then Reject(400)
    else OrReject(WithMemberDisabled(s.reg, name, n, off, e.url), 400, [name])
  }

  // ------------------------------------------------------------- adding members

  /** `crossPoolResolve`: what the other pools declare under the nick. */
  function CredsElsewhere(r: R.Registry, skip: string, nick: string): set<string> {
    set p | p in r.pools && p != skip && ResolveIn(r, p, nick).Some? && ResolveIn(r, p, nick).value.credential != ""
      :: ResolveIn(r, p, nick).value.credential
  }

  function URLsElsewhere(r: R.Registry, skip: string, nick: string): set<string> {
    set p | p in r.pools && p != skip && ResolveIn(r, p, nick).Some? && ResolveIn(r, p, nick).value.baseURL != ""
      :: ResolveIn(r, p, nick).value.baseURL
  }

  datatype Source = Source(credential: string, baseURL: string)

  ghost function TheOne(s: set<string>): (r: string)
    requires |s| == 1
    ensures s == {r}
  {
    var x :| x in s;
    Singleton(s, x);
    x
  }

  lemma Singleton(s: set<string>, x: string)
    requires |s| == 1 && x in s
    ensures s == {x}
  {
    assert |s - {x}| == 0;
    assert s == (s - {x}) + {x};
  }

  /** An omitted credential must be known elsewhere, and alike; an omitted URL must not be ambiguous. */
  ghost function Borrow(r: R.Registry, name: string, nick: string, cred: string, baseURL: string): Option<Source> {
    var creds, urls := CredsElsewhere(r, name, nick), URLsElsewhere(r, name, nick);
    if (cred == "" && |creds| != 1) || (baseURL == "" && |urls| > 1) then None
    else Some(Source(if cred == "" then TheOne(creds) else cred,
                     if baseURL == "" && |urls| == 1 then TheOne(urls) else baseURL))
  }

  function Default(s: State, e: Env): string { if e.gateway != "" then e.gateway else s.reg.defaultURL }

  /** The URL of a member added without one: what all members agree on, else the default upstream. */
  function PoolDefault(s: State, e: Env, c: Ctl): string {
    if c.members != [] && c.members[0].baseURL != "" && forall m :: m in c.members ==> m.baseURL == c.members[0].baseURL
    then c.members[0].baseURL
    else Default(s, e)
  }

  ghost predicate ValidPlacement(c: Ctl, nick: string, placement: seq<string>) {
    var order := R.NormalizeAll(placement);
    && order != [] && Distinct(order) && "" !in order && nick in order
    && forall n :: n in order ==> n == nick || IsMember(c, n)
  }

  /** The placement rule: an ordered pool demands one, another refuses one. */
  ghost predicate Placed(c: Ctl, nick: string, placement: seq<string>) {
    if c.declared != [] then ValidPlacement(c, nick, placement) else placement == []
  }

  ghost function ThenPriority(next: Option<R.Registry>, name: string, order: seq<string>, e: Env): Option<R.Registry> {
    if next.None? then None else WithPriority(next.value, name, order, e.url)
  }

  /** The registry with the member in, and placed in an ordered pool. */
  ghost function Added(r: R.Registry, e: Env, name: string, nick: string, cred: string, at: string, ordered: bool,
                       order: seq<string>): Option<R.Registry>
  {
    var next := WithMemberSet(r, name, nick, cred, at, false, e.url);
    if ordered then ThenPriority(next, name, order, e) else next
  }

  /** The checks before a member is added: refused, or with which credential and upstream. */
  datatype Screened = Refused(status: int) | Passed(credential: string, at: string)

  ghost function ScreenAdd(s: State, e: Env, name: string, nick: string, cred: string, baseURL: string,
                           placement: seq<string>): Screened
  {
    if baseURL != "" && !R.ValidURL(e.url, baseURL) then Refused(400)
    else if name !in s.ctls then Refused(404)
    else
      var c, src := s.ctls[name], Borrow(s.reg, name, nick, cred, baseURL);
      if src.None? then Refused(400)
      else if IsMember(c, nick) then Refused(409)
      else if !Placed(c, nick, placement) then Refused(400)
      else Passed(src.value.credential, if src.value.baseURL == "" then PoolDefault(s, e, c) else src.value.baseURL)
  }

  /** `addMemberLocked`, for normalised names. */
  ghost function JudgeAdd(s: State, e: Env, name: string, nick: string, cred: string, baseURL: string,
                          placement: seq<string>): Verdict
  {
    var to := ScreenAdd(s, e, name, nick, cred, baseURL, placement);
    if to.Refused? || name !in s.ctls then Reject(if to.Refused? then to.status else 404)
    else
      OrReject(Added(s.reg, e, name, nick, to.credential, to.at, s.ctls[name].declared != [], R.NormalizeAll(placement)),
               400, [name])
  }

  ghost function JudgeAddMember(s: State, e: Env, pool: string, nick: string, cred: string, baseURL: string,
                                placement: seq<string>): Verdict
  {
    if Normalize(nick) == "" then Reject(400)
    else JudgeAdd(s, e, Normalize(pool), Normalize(nick), cred, baseURL, placement)
  }

  /** The file shape with one credential changed. */
  ghost function Rotate(r: R.Registry, name: string, nick: string, cred: string, url: R.UrlCheck): Option<R.Registry> {
    var spec := R.SpecOf(r);
    if name !in spec || nick !in spec[name].members then None
    else
      var ps := spec[name];
      R.Build(spec[name := ps.(members := ps.members[nick := ps.members[nick].(credential := cred)])], r.defaultURL, url)
  }

  ghost predicate SharedElsewhere(r: R.Registry, name: string, nick: string) {
    exists p :: p in r.pools && p != name && ResolveIn(r, p, nick).Some?
  }

  ghost function JudgeUpsert(s: State, e: Env, pool: string, nick: string, cred: string, baseURL: string,
                             placement: seq<string>): Verdict
  {
    var name, n := Normalize(pool), Normalize(nick);
    if n == "" || cred == "" then Reject(400)
    else if name !in s.ctls then Reject(404)
    else
      var current := ResolveIn(s.reg, name, n);
      if current.None? then JudgeAdd(s, e, name, n, cred, baseURL, placement)
      else if current.value.credential == cred then Keep
      else if SharedElsewhere(s.reg, name, n) then Reject(409)
      else if name !in s.reg.pools then Reject(404)
      else OrReject(Rotate(s.reg, name, n, cred, e.url), 400, [name])
  }

  ghost function JudgeRemove(s: State, e: Env, pool: string, nick: string): Verdict {
    var name, n := Normalize(pool), Normalize(nick);
    if n == "" then Reject(400)
    else if name !in s.ctls then Reject(404)
    else if !IsMember(s.ctls[name], n) then Reject(400)
    else OrReject(WithMemberRemoved(s.reg, name, n, e.url), 400, [name])
  }

  /** Whether the target of a move takes the member: an identical slot, a forced one, or a fresh one well placed. */
  ghost predicate Takes(dst: Ctl, m: Member, placement: seq<string>, force: bool) {
    match Find(dst.members, m.nick)
    case Some(there) => force || (there.credential == m.credential && there.baseURL == m.baseURL)
    case None => Placed(dst, m.nick, placement)
  }

  /** Set in the target, then removed from the source, in one new registry. */
  ghost function Relocated(r: R.Registry, e: Env, from: string, to: string, nick: string, cred: string, at: string,
                           ordered: bool, order: seq<string>): Option<R.Registry>
  {
    var placed := Added(r, e, to, nick, cred, at, ordered, order);
    if placed.None? then None else WithMemberRemoved(placed.value, from, nick, e.url)
  }

  /** The checks before a move: refused, or with the credential and upstream the member has at its source. */
  ghost function ScreenMove(s: State, from: string, to: string, n: string, placement: seq<string>, force: bool): Screened {
    if n == "" || from == to then Refused(400)
    else if from !in s.ctls || to !in s.ctls then Refused(404)
    else
      var m := Find(s.ctls[from].members, n);
      if m.None? then Refused(400)
      else if !Takes(s.ctls[to], m.value, placement, force) then Refused(if IsMember(s.ctls[to], n) then 409 else 400)
      else Passed(m.value.credential, m.value.baseURL)
  }

  ghost function JudgeMove(s: State, e: Env, fromPool: string, nick: string, toPool: string, placement: seq<string>,
                           force: bool): Verdict
  {
    var from, to, n := Normalize(fromPool), Normalize(toPool), Normalize(nick);
    var m := ScreenMove(s, from, to, n, placement, force);
    if m.Refused? || to !in s.ctls then Reject(if m.Refused? then m.status else 404)
    else
      var ordered := !IsMember(s.ctls[to], n) && s.ctls[to].declared != [];
      OrReject(Relocated(s.reg, e, from, to, n, m.credential, m.at, ordered, R.NormalizeAll(placement)), 400, [from, to])
  }

  // ------------------------------------------------------------- whole pools

  /** The checks on the request itself. */
  predicate WellAsked(e: Env, name: string, mode: string, n: string, baseURL: string, placement: seq<string>) {
    && name != "" && (mode == "" || mode == "plain") && (n == "" ==> placement == [])
    && (baseURL != "" ==> R.ValidURL(e.url, baseURL))
  }

  /** The first member of a new pool: refused, or the registry with it in. */
  ghost function FirstMember(s: State, e: Env, next: R.Registry, name: string, n: string, cred: string, baseURL: string,
                             placement: seq<string>): Option<R.Registry>
  {
    var src := Borrow(s.reg, name, n, cred, baseURL);
    if src.None? || placement != [] then None
    else
      WithMemberSet(next, name, n, src.value.credential, if src.value.baseURL == "" then Default(s, e) else src.value.baseURL,
                    false, e.url)
  }

  /** `CreatePoolWithMember`; `AddPool` is the case without a nick. */
  ghost function JudgeCreate(s: State, e: Env, pool: string, mode: string, nick: string, cred: string, baseURL: string,
                             placement: seq<string>): Verdict
  {
    var name, n := Normalize(pool), Normalize(nick);
    if !WellAsked(e, name, mode, n, baseURL, placement) then Reject(400)
    else if name in s.ctls || HasPool(s.reg, name) then Reject(409)
    else
      var next := WithPoolCreated(s.reg, name, e.url);
      if next.None? then Reject(409)
      else if n == "" then Insert(next.value, name)
      else
        var filled := FirstMember(s, e, next.value, name, n, cred, baseURL, placement);
        if filled.None? then Reject(400) else Insert(filled.value, name)
  }

  ghost function JudgeRemovePool(s: State, e: Env, pool: string): Verdict {
    var name := Normalize(pool);
    if name == "" then Reject(400)
    else if name !in s.ctls then Reject(404)
    else if s.ctls[name].members != [] then Reject(409)
    else
      var next := WithPoolRemoved(s.reg, name, e.url);
      if next.None? then Reject(404) else Delete(next.value, name)
  }

  ghost function JudgeRename(s: State, e: Env, pool: string, newName: string): Verdict {
    var from, to := Normalize(pool), Normalize(newName);
    if from == "" || to == "" || from == to then Reject(400)
    else if from !in s.ctls || !HasPool(s.reg, from) then Reject(404)
    else if to in s.ctls || HasPool(s.reg, to) then Reject(409)
    else
      var next := WithPoolRenamed(s.reg, from, to, e.url);
      if next.None? then Reject(400) else Move(next.value, from, to)
  }

  // ---------------------------------------------------------------- requests

  datatype Request =
    | Priority(pool: string, order: seq<string>)
    | Concurrency(pool: string, n: int)
    | Disable(pool: string, nick: string, off: bool)
    | Add(pool: string, nick: string, cred: string, baseURL: string, placement: seq<string>)
    | Upsert(pool: string, nick: string, cred: string, baseURL: string, placement: seq<string>)
    | Remove(pool: string, nick: string)
    | Relocate(pool: string, nick: string, to: string, placement: seq<string>, force: bool)
    | Create(pool: string, mode: string, nick: string, cred: string, baseURL: string, placement: seq<string>)
    | Drop(pool: string)
    | Rename(pool: string, to: string)

  ghost function Judge(s: State, e: Env, q: Request): Verdict {
    match q
    case Priority(pool, order) => JudgePriority(s, e, pool, order)
    case Concurrency(pool, n) => JudgeConcurrency(s, e, pool, n)
    case Disable(pool, nick, off) => JudgeDisabled(s, e, pool, nick, off)
    case Add(pool, nick, cred, baseURL, placement) => JudgeAddMember(s, e, pool, nick, cred, baseURL, placement)
    case Upsert(pool, nick, cred, baseURL, placement) => JudgeUpsert(s, e, pool, nick, cred, baseURL, placement)
    case Remove(pool, nick) => JudgeRemove(s, e, pool, nick)
    case Relocate(pool, nick, to, placement, force) => JudgeMove(s, e, pool, nick, to, placement, force)
    case Create(pool, mode, nick, cred, baseURL, placement) => JudgeCreate(s, e, pool, mode, nick, cred, baseURL, placement)
    case Drop(pool) => JudgeRemovePool(s, e, pool)
    case Rename(pool, to) => JudgeRename(s, e, pool, to)
  }

  function NewCtl(g: Config): Ctl {
    Ctl(g.members, g.declared, EffectiveOrder(g.declared, g.nicks), g.disabled, "",
        map[], map[], map[], map[], "", g.concurrency)
  }

  /** `applyRegistryLocked`: the named controllers, and they alone, reconcile to the new registry. */
  function Reconciled(s: State, e: Env, next: R.Registry, pools: seq<string>): State
    decreases |pools|
  {
    if pools == [] then s.(reg := next)
    else
      var n := pools[0];
      var ctls := if n in s.ctls then s.ctls[n := ReconcileTo(s.ctls[n], e.w, ConfigOf(next, n), e.ok)] else s.ctls;
      Reconciled(s.(ctls := ctls), e, next, pools[1..])
  }

  function Enact(s: State, e: Env, v: Verdict): State {
    match v
    case Reject(_) => s
    case Keep => s
    case Commit(next, pools) => Reconciled(s, e, next, pools)
    case Insert(next, name) => State(next, s.ctls[name := Fresh(NewCtl(ConfigOf(next, name)), e.w)])
    case Delete(next, name) => State(next, s.ctls - {name})
    case Move(next, from, to) => State(next, if from in s.ctls then (s.ctls - {from})[to := s.ctls[from]] else s.ctls)
  }

  ghost function Handle(s: State, e: Env, q: Request): State { Enact(s, e, Judge(s, e, q)) }

  // ----------------------------------------------------------- the mirror

  /** Each controller shows its pool of the registry; its pointer names a member or nobody. */
  ghost predicate Mirror(s: State, url: R.UrlCheck) {
    && Sane(s.reg, url) && s.ctls.Keys == s.reg.pools.Keys
    && forall n :: n in s.ctls ==> Shows(s, n)
  }

  ghost predicate Shows(s: State, n: string)
    requires n in s.ctls
  {
    Mirrors(s.ctls[n], ConfigOf(s.reg, n)) && (s.ctls[n].cur == "" || s.ctls[n].cur in s.ctls[n].order)
  }

  lemma {:induction false} MembersInIs(p: R.Pool, nicks: seq<string>)
    requires forall n :: n in nicks ==> n in p.byNick && Canonical(n)
    ensures Nicks(MembersIn(p, nicks)) == nicks
    ensures forall m :: m in MembersIn(p, nicks) ==>
              m.nick in p.byNick && m.credential == p.byNick[m.nick].credential && m.baseURL == p.byNick[m.nick].baseURL
  {
    hide Normalize;
    if nicks != [] {
      MembersInIs(p, nicks[1..]);
      assert nicks[0] in nicks;
      assert Nicks(MembersIn(p, nicks)) == [nicks[0]] + Nicks(MembersIn(p, nicks[1..]));
    }
  }

  lemma ListingDistinct(names: set<string>)
    ensures Distinct(Listing(names)) && forall n :: n in Listing(names) <==> n in names
  {
    hide Listing;
    assert forall n :: n in Listing(names) <==> n in Elems(Listing(names));
  }

  /** A sane registry describes every pool sanely: its members are the collection's, in sorted order. */
  lemma ConfigGood(r: R.Registry, n: string, url: R.UrlCheck)
    requires Sane(r, url) && n in r.pools
    ensures var g, p := ConfigOf(r, n), r.pools[n];
      && GoodConfig(g) && Nicks(g.members) == p.nicks == Listing(p.byNick.Keys)
      && g.declared == p.priority && g.concurrency == p.concurrency
      && forall m :: m in g.members ==> m.nick in p.byNick && m.credential == p.byNick[m.nick].credential
                                        && m.baseURL == p.byNick[m.nick].baseURL
  {
    hide Normalize, Listing;
    SanePool(r, n, url);
    var p := r.pools[n];
    ListingDistinct(p.byNick.Keys);
    MembersInIs(p, p.nicks);
  }

  lemma SameConfig(r: R.Registry, next: R.Registry, n: string, url: R.UrlCheck)
    requires Canonical(n) && n in r.pools && n in next.pools && next.pools[n] == r.pools[n]
    ensures ConfigOf(next, n) == ConfigOf(r, n)
  {
    hide Normalize, MembersIn, DisabledIn;
  }

  lemma FollowMirrors(c: Ctl, e: Env, next: R.Registry, n: string)
    requires Sane(next, e.url) && n in next.pools
    ensures var d := ReconcileTo(c, e.w, ConfigOf(next, n), e.ok);
      Mirrors(d, ConfigOf(next, n)) && (d.cur == "" || d.cur in d.order)
  {
    hide ConfigOf, ReconcileTo, Mirrors;
    ConfigGood(next, n, e.url);
    ReconcileMirrors(c, e.w, ConfigOf(next, n), e.ok);
  }

  /** The pools outside `touched` are the same in both registries. */
  ghost predicate OnlyTouched(r: R.Registry, next: R.Registry, touched: seq<string>) {
    && next.pools.Keys == r.pools.Keys
    && forall n :: n in r.pools && n !in touched ==> next.pools[n] == r.pools[n]
  }

  /** Controllers named follow the new registry; the others are left alone. */
  lemma {:induction false} ReconciledShape(s: State, e: Env, next: R.Registry, pools: seq<string>)
    requires Distinct(pools)
    ensures var t := Reconciled(s, e, next, pools);
      && t.reg == next && t.ctls.Keys == s.ctls.Keys
      && forall n :: n in s.ctls ==>
           t.ctls[n] == if n in pools then ReconcileTo(s.ctls[n], e.w, ConfigOf(next, n), e.ok) else s.ctls[n]
    decreases |pools|
  {
    hide ReconcileTo, ConfigOf;
    if pools != [] {
      var n := pools[0];
      var ctls := if n in s.ctls then s.ctls[n := ReconcileTo(s.ctls[n], e.w, ConfigOf(next, n), e.ok)] else s.ctls;
      ReconciledShape(s.(ctls := ctls), e, next, pools[1..]);
      assert forall k :: k in pools <==> k == n || k in pools[1..];
      assert n !in pools[1..];
    }
  }

  /** The heart of it: a commit that changes only the pools it names keeps the mirror. */
  lemma CommitMirrors(s: State, e: Env, next: R.Registry, pools: seq<string>)
    requires Mirror(s, e.url) && Sane(next, e.url) && OnlyTouched(s.reg, next, pools) && Distinct(pools)
    ensures Mirror(Reconciled(s, e, next, pools), e.url)
  {
    hide ReconcileTo, ConfigOf, Mirrors, Reconciled, Sane;
    ReconciledShape(s, e, next, pools);
    var t := Reconciled(s, e, next, pools);
    forall n | n in t.ctls ensures Shows(t, n) {
      if n in pools {
        FollowMirrors(s.ctls[n], e, next, n);
      } else {
        SanePool(s.reg, n, e.url);
        SameConfig(s.reg, next, n, e.url);
        assert Shows(s, n);
      }
    }
  }

  // ------------------------------------- every commit changes only what it names

  ghost predicate GoodCommit(r: R.Registry, next: R.Registry, touched: seq<string>, url: R.UrlCheck) {
    Sane(next, url) && OnlyTouched(r, next, touched)
  }

  lemma EditCommit(r: R.Registry, name: string, ps: R.PoolSpec, url: R.UrlCheck)
    requires Sane(r, url) && name in r.pools && R.Build(R.SpecOf(r)[name := ps], r.defaultURL, url).Some?
    requires forall k :: k in ps.members ==> Canonical(k)
    ensures GoodCommit(r, R.Build(R.SpecOf(r)[name := ps], r.defaultURL, url).value, [name], url)
  {
    hide Canonical, R.Build, R.SpecOf, Sane;
    SanePool(r, name, url);
    EditSane(r, name, ps, url);
  }

  lemma PriorityCommit(r: R.Registry, name: string, order: seq<string>, url: R.UrlCheck)
    requires Sane(r, url) && Canonical(name) && WithPriority(r, name, order, url).Some?
    ensures GoodCommit(r, WithPriority(r, name, order, url).value, [name], url)
  {
    hide Normalize, R.Build, R.SpecOf, Sane, R.NormalizeAll, GoodCommit;
    OwnNicksCanonical(r, name, url);
    EditCommit(r, name, R.SpecOf(r)[name].(priority := R.NormalizeAll(order)), url);
  }

  lemma ConcurrencyCommit(r: R.Registry, name: string, n: int, url: R.UrlCheck)
    requires Sane(r, url) && Canonical(name) && WithPoolConcurrency(r, name, n, url).Some?
    ensures GoodCommit(r, WithPoolConcurrency(r, name, n, url).value, [name], url)
  {
    hide Normalize, R.Build, R.SpecOf, Sane, GoodCommit;
    OwnNicksCanonical(r, name, url);
    EditCommit(r, name, R.SpecOf(r)[name].(concurrency := Some(n)), url);
  }

  lemma DisabledCommit(r: R.Registry, name: string, nick: string, off: bool, url: R.UrlCheck)
    requires Sane(r, url) && Canonical(name) && WithMemberDisabled(r, name, nick, off, url).Some?
    ensures GoodCommit(r, WithMemberDisabled(r, name, nick, off, url).value, [name], url)
  {
    hide Normalize, R.Build, R.SpecOf, Sane, GoodCommit;
    OwnNicksCanonical(r, name, url);
    var ps, n := R.SpecOf(r)[name], Normalize(nick);
    EditCommit(r, name, ps.(members := ps.members[n := ps.members[n].(disabled := off)]), url);
  }

  lemma MemberCommit(r: R.Registry, name: string, nick: string, cred: string, baseURL: string, off: bool, url: R.UrlCheck)
    requires Sane(r, url) && Canonical(name) && Canonical(Twice(nick))
    requires WithMemberSet(r, name, nick, cred, baseURL, off, url).Some?
    ensures GoodCommit(r, WithMemberSet(r, name, nick, cred, baseURL, off, url).value, [name], url)
  {
    hide Normalize, Twice, WithMemberSet, Sane;
    MemberSetExactly(r, name, nick, cred, baseURL, off, url);
  }

  lemma RemovedCommit(r: R.Registry, name: string, nick: string, url: R.UrlCheck)
    requires Sane(r, url) && Canonical(name) && WithMemberRemoved(r, name, nick, url).Some?
    ensures GoodCommit(r, WithMemberRemoved(r, name, nick, url).value, [name], url)
  {
    hide Normalize, R.Build, R.SpecOf, Sane, Prune, GoodCommit;
    OwnNicksCanonical(r, name, url);
    var ps, n := R.SpecOf(r)[name], Normalize(nick);
    var members := ps.members - {n};
    EditCommit(r, name, ps.(members := members, baseURL := if members == map[] then "" else ps.baseURL,
                            priority := Prune(ps.priority, n)), url);
  }

  lemma RotatedCommit(r: R.Registry, name: string, nick: string, cred: string, url: R.UrlCheck)
    requires Sane(r, url) && Rotate(r, name, nick, cred, url).Some?
    ensures GoodCommit(r, Rotate(r, name, nick, cred, url).value, [name], url)
  {
    hide Canonical, R.Build, R.SpecOf, Sane, GoodCommit;
    OwnNicksCanonical(r, name, url);
    var ps := R.SpecOf(r)[name];
    EditCommit(r, name, ps.(members := ps.members[nick := ps.members[nick].(credential := cred)]), url);
  }

  lemma CommitThen(r: R.Registry, mid: R.Registry, next: R.Registry, a: seq<string>, b: seq<string>, all: seq<string>, url: R.UrlCheck)
    requires GoodCommit(r, mid, a, url) && GoodCommit(mid, next, b, url)
    requires forall n :: n in a || n in b ==> n in all
    ensures GoodCommit(r, next, all, url)
  {
    hide Sane;
  }

  /** A request for a new nick comes in normalised; it is filed normalised twice more. */
  function Stored(nick: string): string { Twice(Normalize(nick)) }

  /** A nick a request introduces is filed canonical, a pool name already comes in so. */
  predicate SettledNames(q: Request) {
    match q
    case Add(_, nick, _, _, _) => Canonical(Stored(nick))
    case Upsert(_, nick, _, _, _) => Canonical(Stored(nick))
    case Create(pool, _, nick, _, _, _) => Canonical(Normalize(pool)) && (Normalize(nick) == "" || Canonical(Stored(nick)))
    case Rename(_, to) => Canonical(Normalize(to))
    case _ => true
  }

  lemma PoolCanonical(s: State, e: Env, name: string)
    requires Mirror(s, e.url) && name in s.ctls
    ensures Canonical(name) && name in s.reg.pools
  {
    hide Normalize, Shows;
  }

  lemma MemberCanonical(s: State, e: Env, name: string, m: Member)
    requires Mirror(s, e.url) && name in s.ctls && m in s.ctls[name].members
    ensures Canonical(m.nick)
  {
    hide Normalize, Sane, ConfigOf, Canonical, R.PoolWF;
    ConfigGood(s.reg, name, e.url);
    SanePool(s.reg, name, e.url);
    assert Shows(s, name);
  }

  lemma AddedCommit(r: R.Registry, e: Env, name: string, nick: string, cred: string, at: string, ordered: bool,
                    order: seq<string>)
    requires Sane(r, e.url) && Canonical(name) && Canonical(Twice(nick)) && Added(r, e, name, nick, cred, at, ordered, order).Some?
    ensures GoodCommit(r, Added(r, e, name, nick, cred, at, ordered, order).value, [name], e.url)
  {
    hide Canonical, WithMemberSet, WithPriority, GoodCommit, Sane;
    var next := WithMemberSet(r, name, nick, cred, at, false, e.url).value;
    MemberCommit(r, name, nick, cred, at, false, e.url);
    if ordered {
      CommitSane(r, next, [name], e.url);
      PriorityCommit(next, name, order, e.url);
      CommitThen(r, next, WithPriority(next, name, order, e.url).value, [name], [name], [name], e.url);
    }
  }

  lemma AddCommits(s: State, e: Env, name: string, nick: string, cred: string, baseURL: string, placement: seq<string>)
    requires Mirror(s, e.url) && Canonical(Twice(nick)) && JudgeAdd(s, e, name, nick, cred, baseURL, placement).Commit?
    ensures var v := JudgeAdd(s, e, name, nick, cred, baseURL, placement);
      v.pools == [name] && GoodCommit(s.reg, v.next, [name], e.url)
  {
    hide Normalize, Added, ScreenAdd, GoodCommit, Shows, R.NormalizeAll, Mirror;
    MirrorSane(s, e.url);
    PoolCanonical(s, e, name);
    var to := ScreenAdd(s, e, name, nick, cred, baseURL, placement);
    AddedCommit(s.reg, e, name, nick, to.credential, to.at, s.ctls[name].declared != [], R.NormalizeAll(placement));
  }

  lemma CommitSane(r: R.Registry, next: R.Registry, touched: seq<string>, url: R.UrlCheck)
    requires GoodCommit(r, next, touched, url)
    ensures Sane(next, url)
  {
    hide Sane;
  }

  lemma MoveCommits(s: State, e: Env, fromPool: string, nick: string, toPool: string, placement: seq<string>, force: bool)
    requires Mirror(s, e.url) && JudgeMove(s, e, fromPool, nick, toPool, placement, force).Commit?
    ensures var v := JudgeMove(s, e, fromPool, nick, toPool, placement, force);
      v.pools == [Normalize(fromPool), Normalize(toPool)] && Distinct(v.pools) && GoodCommit(s.reg, v.next, v.pools, e.url)
  {
    hide Normalize, Relocated, ScreenMove, GoodCommit, Mirror, Sane, R.NormalizeAll, Find;
    var from, to, n := Normalize(fromPool), Normalize(toPool), Normalize(nick);
    MirrorSane(s, e.url);
    var m := ScreenMove(s, from, to, n, placement, force);
    MoveNames(s, e, from, to, n, placement, force);
    var ordered := !IsMember(s.ctls[to], n) && s.ctls[to].declared != [];
    RelocatedCommit(s.reg, e, from, to, n, m.credential, m.at, ordered, R.NormalizeAll(placement));
  }

  lemma MoveNames(s: State, e: Env, from: string, to: string, n: string, placement: seq<string>, force: bool)
    requires Mirror(s, e.url) && ScreenMove(s, from, to, n, placement, force).Passed?
    ensures Canonical(from) && Canonical(to) && Canonical(n) && from != to
  {
    hide Normalize, Takes, Mirror, Sane;
    PoolCanonical(s, e, from);
    PoolCanonical(s, e, to);
    MemberCanonical(s, e, from, Find(s.ctls[from].members, n).value);
  }

  lemma RelocatedCommit(r: R.Registry, e: Env, from: string, to: string, n: string, cred: string, at: string, ordered: bool,
                        order: seq<string>)
    requires Sane(r, e.url) && Canonical(from) && Canonical(to) && Canonical(n)
    requires Relocated(r, e, from, to, n, cred, at, ordered, order).Some?
    ensures GoodCommit(r, Relocated(r, e, from, to, n, cred, at, ordered, order).value, [from, to], e.url)
  {
    hide Normalize, Added, WithMemberRemoved, GoodCommit, Sane;
    var placed := Added(r, e, to, n, cred, at, ordered, order).value;
    AddedCommit(r, e, to, n, cred, at, ordered, order);
    CommitSane(r, placed, [to], e.url);
    RemovedCommit(placed, from, n, e.url);
    CommitThen(r, placed, WithMemberRemoved(placed, from, n, e.url).value, [to], [from], [from, to], e.url);
  }

  /** Whatever request commits, it names each pool it changes and no other differs. */
  lemma CommitsAreGood(s: State, e: Env, q: Request)
    requires Mirror(s, e.url) && SettledNames(q) && Judge(s, e, q).Commit?
    ensures var v := Judge(s, e, q);
      Distinct(v.pools) && GoodCommit(s.reg, v.next, v.pools, e.url)
  {
    hide Normalize, WithMemberSet, WithPriority, WithMemberRemoved, WithMemberDisabled, WithPoolConcurrency, Rotate, JudgeAdd,
         GoodCommit, Shows, ValidOrder, R.NormalizeAll, JudgeMove, JudgeCreate, JudgeRename, JudgeRemovePool, Sane;
    match q
    case Priority(pool, order) =>
      PoolCanonical(s, e, Normalize(pool));
      PriorityCommit(s.reg, Normalize(pool), R.NormalizeAll(order), e.url);
    case Concurrency(pool, n) =>
      PoolCanonical(s, e, Normalize(pool));
      ConcurrencyCommit(s.reg, Normalize(pool), n, e.url);
    case Disable(pool, nick, off) =>
      PoolCanonical(s, e, Normalize(pool));
      DisabledCommit(s.reg, Normalize(pool), Normalize(nick), off, e.url);
    case Add(pool, nick, cred, baseURL, placement) =>
      AddCommits(s, e, Normalize(pool), Normalize(nick), cred, baseURL, placement);
    case Upsert(pool, nick, cred, baseURL, placement) =>
      if ResolveIn(s.reg, Normalize(pool), Normalize(nick)).None? {
        AddCommits(s, e, Normalize(pool), Normalize(nick), cred, baseURL, placement);
      } else {
        RotatedCommit(s.reg, Normalize(pool), Normalize(nick), cred, e.url);
      }
    case Remove(pool, nick) =>
      PoolCanonical(s, e, Normalize(pool));
      RemovedCommit(s.reg, Normalize(pool), Normalize(nick), e.url);
    case Relocate(pool, nick, to, placement, force) => MoveCommits(s, e, pool, nick, to, placement, force);
    case Create(pool, mode, nick, cred, baseURL, placement) => KindOfVerdict(s, e, q);
    case Drop(pool) => KindOfVerdict(s, e, q);
    case Rename(pool, to) => KindOfVerdict(s, e, q);
  }

  // ------------------------------------------------------ pools come and go

  lemma FreshMirrors(g: Config, w: World)
    requires GoodConfig(g)
    ensures var c := Fresh(NewCtl(g), w); Mirrors(c, g) && (c.cur == "" || c.cur in c.order)
  {
    hide FirstHealthy, EffectiveOrder, Nicks;
    OrderShape(g.declared, Nicks(g.members));
    if g.members != [] {
      assert Nicks(g.members)[0] == g.members[0].nick;
      assert g.members[0].nick in Nicks(g.members);
    }
  }

  lemma CreatedSane(r: R.Registry, name: string, url: R.UrlCheck)
    requires Sane(r, url) && Canonical(name) && WithPoolCreated(r, name, url).Some?
    ensures var next := WithPoolCreated(r, name, url).value;
      && Sane(next, url) && name !in r.pools && next.pools.Keys == r.pools.Keys + {name}
      && forall n :: n in r.pools ==> next.pools[n] == r.pools[n]
  {
    hide Normalize, R.Build, R.SpecOf, Sane;
    R.SpecKeys(r);
    EditSane(r, name, NO_MEMBERS, url);
  }

  lemma InsertMirrors(s: State, e: Env, next: R.Registry, name: string)
    requires Mirror(s, e.url) && Sane(next, e.url) && name !in s.ctls
    requires next.pools.Keys == s.reg.pools.Keys + {name} && forall n :: n in s.reg.pools ==> next.pools[n] == s.reg.pools[n]
    ensures Mirror(Enact(s, e, Insert(next, name)), e.url)
  {
    hide ConfigOf, Mirrors, Sane, Fresh, NewCtl, GoodConfig;
    var t := Enact(s, e, Insert(next, name));
    forall n | n in t.ctls ensures Shows(t, n) {
      if n == name {
        ConfigGood(next, n, e.url);
        FreshMirrors(ConfigOf(next, name), e.w);
      } else {
        SanePool(s.reg, n, e.url);
        SameConfig(s.reg, next, n, e.url);
        assert Shows(s, n);
      }
    }
  }

  lemma CreateMirrors(s: State, e: Env, q: Request)
    requires Mirror(s, e.url) && SettledNames(q) && q.Create? && Judge(s, e, q).Insert?
    ensures Mirror(Handle(s, e, q), e.url)
  {
    hide Normalize, WithPoolCreated, FirstMember, Mirror, ConfigOf, Sane, Fresh;
    var name, n := Normalize(q.pool), Normalize(q.nick);
    MirrorSane(s, e.url);
    CreatedSane(s.reg, name, e.url);
    var next := WithPoolCreated(s.reg, name, e.url).value;
    if n == "" {
      InsertMirrors(s, e, next, name);
    } else {
      FirstMemberKeeps(s, e, next, name, n, q.cred, q.baseURL, q.placement);
      InsertMirrors(s, e, FirstMember(s, e, next, name, n, q.cred, q.baseURL, q.placement).value, name);
    }
  }

  lemma FirstMemberKeeps(s: State, e: Env, next: R.Registry, name: string, n: string, cred: string, baseURL: string,
                         placement: seq<string>)
    requires Sane(next, e.url) && Canonical(name) && Canonical(Twice(n))
    requires name !in s.reg.pools && next.pools.Keys == s.reg.pools.Keys + {name}
    requires forall k :: k in s.reg.pools ==> next.pools[k] == s.reg.pools[k]
    requires FirstMember(s, e, next, name, n, cred, baseURL, placement).Some?
    ensures var filled := FirstMember(s, e, next, name, n, cred, baseURL, placement).value;
      && Sane(filled, e.url) && filled.pools.Keys == s.reg.pools.Keys + {name}
      && forall k :: k in s.reg.pools ==> filled.pools[k] == s.reg.pools[k]
  {
    hide Normalize, WithMemberSet, Borrow, GoodCommit, Sane, Default;
    var src := Borrow(s.reg, name, n, cred, baseURL).value;
    var at := if src.baseURL == "" then Default(s, e) else src.baseURL;
    MemberCommit(next, name, n, src.credential, at, false, e.url);
    FilledKeeps(s.reg, next, WithMemberSet(next, name, n, src.credential, at, false, e.url).value, name, e.url);
  }

  lemma FilledKeeps(r: R.Registry, next: R.Registry, filled: R.Registry, name: string, url: R.UrlCheck)
    requires name !in r.pools && next.pools.Keys == r.pools.Keys + {name} && GoodCommit(next, filled, [name], url)
    requires forall n :: n in r.pools ==> next.pools[n] == r.pools[n]
    ensures Sane(filled, url) && filled.pools.Keys == r.pools.Keys + {name}
    ensures forall n :: n in r.pools ==> filled.pools[n] == r.pools[n]
  {
    hide Sane;
    forall n | n in r.pools ensures filled.pools[n] == r.pools[n] { assert n in next.pools && n !in [name]; }
  }

  lemma MirrorSane(s: State, url: R.UrlCheck)
    requires Mirror(s, url)
    ensures Sane(s.reg, url) && s.ctls.Keys == s.reg.pools.Keys
  {
    hide Sane, Shows;
  }

  lemma DropMirrors(s: State, e: Env, q: Request)
    requires Mirror(s, e.url) && q.Drop? && Judge(s, e, q).Delete?
    ensures Mirror(Handle(s, e, q), e.url)
  {
    hide Normalize, ConfigOf, Mirrors, R.PoolWF, R.CanonicalPool, R.OneCredential, WithPoolRemoved;
    RemovedEffect(s.reg, Normalize(q.pool), e.url);
    var t := Handle(s, e, q);
    PoolCanonical(s, e, Normalize(q.pool));
    forall n | n in t.ctls ensures Shows(t, n) {
      assert Shows(s, n);
      SanePool(s.reg, n, e.url);
      SameConfig(s.reg, t.reg, n, e.url);
    }
  }

  lemma {:induction false} RenamedMembersIn(p: R.Pool, q: string, nicks: seq<string>)
    ensures MembersIn(Renamed(p, q), nicks) == MembersIn(p, nicks)
  {
    hide Normalize;
    if nicks != [] { RenamedMembersIn(p, q, nicks[1..]); }
  }

  lemma RenamedConfig(r: R.Registry, next: R.Registry, from: string, to: string)
    requires Canonical(from) && Canonical(to) && from in r.pools && to in next.pools
    requires next.pools[to] == Renamed(r.pools[from], to)
    ensures ConfigOf(next, to) == ConfigOf(r, from)
  {
    hide Normalize, MembersIn;
    RenamedMembersIn(r.pools[from], to, r.pools[from].nicks);
    assert DisabledIn(Renamed(r.pools[from], to)) == DisabledIn(r.pools[from]);
  }

  lemma RenamedSane(r: R.Registry, from: string, to: string, url: R.UrlCheck)
    requires Sane(r, url) && Canonical(from) && Canonical(to) && WithPoolRenamed(r, from, to, url).Some?
    ensures var next := WithPoolRenamed(r, from, to, url).value;
      && from in r.pools && to !in r.pools && next == r.(pools := (r.pools - {from})[to := Renamed(r.pools[from], to)])
      && Sane(next, url)
  {
    hide Normalize, R.Build, R.SpecOf, R.PoolWF, R.CanonicalPool, R.OneCredential, Renamed;
    RenamedEffect(r, from, to, url);
    var spec := (R.SpecOf(r) - {from})[to := R.SpecOf(r)[from]];
    EditedWF(spec, r.defaultURL, url);
    var next := WithPoolRenamed(r, from, to, url).value;
    RenamedCanonical(r.pools[from], to);
    forall n | n in next.pools ensures Canonical(n) && R.CanonicalPool(next.pools[n]) {
      SanePool(r, if n == to then from else n, url);
    }
  }

  lemma RenamedCanonical(p: R.Pool, q: string)
    ensures R.CanonicalPool(Renamed(p, q)) <==> R.CanonicalPool(p)
  {
    hide Canonical;
    assert Renamed(p, q).byNick.Keys == p.byNick.Keys;
  }

  lemma RenameMirrors(s: State, e: Env, q: Request)
    requires Mirror(s, e.url) && SettledNames(q) && q.Rename? && Judge(s, e, q).Move?
    ensures Mirror(Handle(s, e, q), e.url)
  {
    hide Normalize, ConfigOf, Mirrors, WithPoolRenamed, Sane, Renamed;
    var from, to := Normalize(q.pool), Normalize(q.to);
    PoolCanonical(s, e, from);
    RenamedSane(s.reg, from, to, e.url);
    var t := Handle(s, e, q);
    RenamedConfig(s.reg, t.reg, from, to);
    forall n | n in t.ctls ensures Shows(t, n) {
      if n == to {
        assert Shows(s, from);
      } else {
        assert Shows(s, n);
        SanePool(s.reg, n, e.url);
        SameConfig(s.reg, t.reg, n, e.url);
      }
    }
  }

  // ---------------------------------------------------------------- the theorem

  lemma HandleMirrors(s: State, e: Env, q: Request)
    requires Mirror(s, e.url) && SettledNames(q)
    ensures Mirror(Handle(s, e, q), e.url)
  {
    hide Mirror, GoodCommit, SettledNames, Reconciled, Judge;
    KindOfVerdict(s, e, q);
    var v := Judge(s, e, q);
    if v.Commit? {
      CommitsAreGood(s, e, q);
      GoodCommitIs(s.reg, v.next, v.pools, e.url);
      CommitMirrors(s, e, v.next, v.pools);
    } else if v.Insert? {
      CreateMirrors(s, e, q);
    } else if v.Delete? {
      DropMirrors(s, e, q);
    } else if v.Move? {
      RenameMirrors(s, e, q);
    }
  }

  lemma GoodCommitIs(r: R.Registry, next: R.Registry, touched: seq<string>, url: R.UrlCheck)
    requires GoodCommit(r, next, touched, url)
    ensures Sane(next, url) && OnlyTouched(r, next, touched)
  {
    hide Sane, OnlyTouched;
  }

  lemma KindOfVerdict(s: State, e: Env, q: Request)
    ensures var v := Judge(s, e, q);
      v.Reject? || v.Keep? || (if q.Create? then v.Insert? else if q.Drop? then v.Delete? else if q.Rename? then v.Move? else v.Commit?)
  {
    hide Normalize, WithMemberSet, WithPriority, WithMemberRemoved, WithMemberDisabled, WithPoolConcurrency, Rotate, Borrow,
         ValidOrder, Placed, Takes, ScreenAdd, ScreenMove, Added, FirstMember, WellAsked, WithPoolCreated, WithPoolRemoved, WithPoolRenamed, Find;
  }

  /** `NewPools` over a sane registry. */
  function Boot(r: R.Registry, w: World): State {
    State(r, map n | n in r.pools :: Fresh(NewCtl(ConfigOf(r, n)), w))
  }

  lemma BootMirrors(r: R.Registry, w: World, url: R.UrlCheck)
    requires Sane(r, url)
    ensures Mirror(Boot(r, w), url)
  {
    hide Sane, ConfigOf, Fresh, NewCtl, Mirrors, GoodConfig;
    var s := Boot(r, w);
    forall n | n in s.ctls ensures Shows(s, n) {
      ConfigGood(r, n, url);
      FreshMirrors(ConfigOf(r, n), w);
    }
  }

  /** What the mirror means for one pool and for two. */
  lemma MirrorMeans(s: State, url: R.UrlCheck, p: string, q: string)
    requires Mirror(s, url) && p in s.ctls && q in s.ctls
    ensures var c, pool := s.ctls[p], s.reg.pools[p];
      && Elems(c.order) == pool.byNick.Keys && Distinct(c.order) && pool.priority <= c.order
      && Ascending(c.order[|pool.priority|..]) && c.concurrency == pool.concurrency
      && (forall n :: n in c.disabled <==> n in pool.byNick && pool.byNick[n].disabled)
    ensures forall a, b :: a in s.ctls[p].members && b in s.ctls[q].members ==> (a.nick == b.nick <==> a.credential == b.credential)
  {
    hide Normalize, EffectiveOrder, Nicks, MembersIn, GoodConfig, Listing;
    ConfigGood(s.reg, p, url);
    ConfigGood(s.reg, q, url);
    SanePool(s.reg, p, url);
    assert Shows(s, p) && Shows(s, q);
    var g := ConfigOf(s.reg, p);
    GoodOrderShape(g);
    ListingDistinct(s.reg.pools[p].byNick.Keys);
    DisabledAre(s.reg.pools[p]);
    assert R.OneCredential(s.reg.pools[p], s.reg.pools[q]);
  }

  lemma DisabledAre(p: R.Pool)
    requires R.CanonicalPool(p) && (forall n :: n in p.nicks <==> n in p.byNick)
    ensures forall n :: n in DisabledIn(p) <==> n in p.byNick && p.byNick[n].disabled
  {
    hide Normalize;
  }

  lemma GoodOrderShape(g: Config)
    requires GoodConfig(g)
    ensures var order, nicks := EffectiveOrder(g.declared, Nicks(g.members)), Nicks(g.members);
      && Distinct(order) && (forall n :: n in order <==> n in nicks) && g.declared <= order
      && Ascending(order[|g.declared|..])
  {
    hide Nicks;
    OrderShape(g.declared, Nicks(g.members));
    DedupDistinct(g.declared);
  }

  /** A refused request changes nothing; an accepted one leaves every controller it does not name as it was. */
  lemma OnlyNamedChange(s: State, e: Env, q: Request, n: string)
    requires Mirror(s, e.url) && n in s.ctls
    requires Judge(s, e, q).Reject? || Judge(s, e, q).Keep? || (SettledNames(q) && n !in Named(q))
    ensures var t := Handle(s, e, q);
      && n in t.ctls && t.ctls[n] == s.ctls[n] && n in t.reg.pools && t.reg.pools[n] == s.reg.pools[n]
    ensures Judge(s, e, q).Reject? || Judge(s, e, q).Keep? ==> Handle(s, e, q) == s
  {
    hide Mirror, SettledNames, Judge, Named, Enact;
    KindOfVerdict(s, e, q);
    NothingEnacted(s, e, Judge(s, e, q));
    MirrorSane(s, e.url);
    if Judge(s, e, q).Commit? {
      CommitLeaves(s, e, q, n);
    } else if !Judge(s, e, q).Reject? && !Judge(s, e, q).Keep? {
      WholePoolNames(s, e, q, n);
    }
  }

  lemma NothingEnacted(s: State, e: Env, v: Verdict)
    ensures v.Reject? || v.Keep? ==> Enact(s, e, v) == s
  {
  }

  lemma CommitLeaves(s: State, e: Env, q: Request, n: string)
    requires Mirror(s, e.url) && SettledNames(q) && Judge(s, e, q).Commit? && n in s.ctls && n !in Named(q)
    ensures var t := Handle(s, e, q);
      n in t.ctls && t.ctls[n] == s.ctls[n] && n in t.reg.pools && t.reg.pools[n] == s.reg.pools[n]
  {
    hide Mirror, GoodCommit, SettledNames, Reconciled, Judge, ReconcileTo, ConfigOf, Named, Sane;
    var v := Judge(s, e, q);
    MirrorSane(s, e.url);
    CommitsAreGood(s, e, q);
    CommitNames(s, e, q);
    GoodCommitIs(s.reg, v.next, v.pools, e.url);
    ReconciledShape(s, e, v.next, v.pools);
  }

  /** The pools a request names. */
  function Named(q: Request): set<string> {
    match q
    case Relocate(pool, _, to, _, _) => {Normalize(pool), Normalize(to)}
    case Rename(pool, to) => {Normalize(pool), Normalize(to)}
    case _ => {Normalize(q.pool)}
  }

  lemma CommitNames(s: State, e: Env, q: Request)
    requires Judge(s, e, q).Commit?
    ensures forall n :: n in Judge(s, e, q).pools ==> n in Named(q)
  {
    hide Normalize, WithMemberSet, WithPriority, WithMemberRemoved, WithMemberDisabled, WithPoolConcurrency, Rotate, Borrow,
         ValidOrder, Placed, Takes, ScreenAdd, ScreenMove, Added, FirstMember, WellAsked, WithPoolCreated, WithPoolRemoved, WithPoolRenamed, Find;
  }

  lemma WholePoolNames(s: State, e: Env, q: Request, n: string)
    requires Mirror(s, e.url) && SettledNames(q) && n in s.ctls && n !in Named(q)
    requires Judge(s, e, q).Insert? || Judge(s, e, q).Delete? || Judge(s, e, q).Move?
    ensures var t := Handle(s, e, q);
      n in t.ctls && t.ctls[n] == s.ctls[n] && n in t.reg.pools && t.reg.pools[n] == s.reg.pools[n]
  {
    hide Normalize, Mirror, WithPoolCreated, WithPoolRemoved, WithPoolRenamed, WithMemberSet, Fresh, Sane, GoodCommit;
    MirrorSane(s, e.url);
    KindOfVerdict(s, e, q);
    match q
    case Create(pool, _, nick, cred, baseURL, placement) => CreateKeeps(s, e, q, n);
    case Drop(pool) => RemovedEffect(s.reg, Normalize(pool), e.url); PoolCanonical(s, e, Normalize(pool));
    case Rename(pool, to) => PoolCanonical(s, e, Normalize(pool)); RenamedSane(s.reg, Normalize(pool), Normalize(to), e.url);
    case _ =>
  }

  lemma CreateKeeps(s: State, e: Env, q: Request, n: string)
    requires Mirror(s, e.url) && SettledNames(q) && q.Create? && Judge(s, e, q).Insert? && n in s.ctls
    ensures var t := Handle(s, e, q); n in t.reg.pools && t.reg.pools[n] == s.reg.pools[n]
  {
    hide Normalize, WithPoolCreated, FirstMember, Mirror, ConfigOf, Sane, Fresh;
    var name, k := Normalize(q.pool), Normalize(q.nick);
    MirrorSane(s, e.url);
    CreatedSane(s.reg, name, e.url);
    if k != "" {
      FirstMemberKeeps(s, e, WithPoolCreated(s.reg, name, e.url).value, name, k, q.cred, q.baseURL, q.placement);
    }
  }
}
