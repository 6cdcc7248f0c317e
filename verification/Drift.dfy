/**
 Names that are not settled. Normalising is not idempotent, and a request normalises a new
 name before the registry does so again: exactly when that keeps the controllers in step
 with the registry, and what goes wrong when it does not.
 */
module Drift {
  import opened Common
  import opened Names
  import R = Registry
  import opened E = RegistryEdits
  import opened Availability
  import opened Routing
  import opened Restart
  import opened Reconcile
  import opened Mutations

  // ------------------------------------------------ what an addition files

  /** Adding files exactly one nick; the registry stays sane exactly when that nick is canonical. */
  lemma AddedExactly(r: R.Registry, e: Env, name: string, nick: string, cred: string, at: string, ordered: bool,
                     order: seq<string>)
    requires Sane(r, e.url) && Canonical(name) && Added(r, e, name, nick, cred, at, ordered, order).Some?
    requires ordered ==> nick in order
    ensures var next := Added(r, e, name, nick, cred, at, ordered, order).value;
      && (Sane(next, e.url) <==> Canonical(Twice(nick)))
      && name in r.pools && name in next.pools
      && next.pools[name].byNick.Keys == r.pools[name].byNick.Keys + {Twice(nick)}
      && next.pools[name].byNick[Twice(nick)].credential == cred
  {
    hide Normalize, Twice, WithMemberSet, WithPriority, Sane;
    var next := WithMemberSet(r, name, nick, cred, at, false, e.url).value;
    MemberSetExactly(r, name, nick, cred, at, false, e.url);
    if ordered && Canonical(Twice(nick)) {
      PriorityCommit(next, name, order, e.url);
      CommitSane(next, WithPriority(next, name, order, e.url).value, [name], e.url);
      PriorityEffect(next, name, order, e.url);
    } else if ordered {
      UnsettledUnplaced(r, next, name, nick, order, e.url);
    }
  }

  lemma AddExactly(s: State, e: Env, name: string, nick: string, cred: string, baseURL: string, placement: seq<string>)
    requires Mirror(s, e.url) && JudgeAdd(s, e, name, nick, cred, baseURL, placement).Commit?
    ensures var v := JudgeAdd(s, e, name, nick, cred, baseURL, placement);
      && v.pools == [name] && (Sane(v.next, e.url) <==> Canonical(Twice(nick)))
      && name in s.reg.pools && name in v.next.pools
      && v.next.pools[name].byNick.Keys == s.reg.pools[name].byNick.Keys + {Twice(nick)}
  {
    hide Normalize, Twice, Added, ScreenAdd, R.NormalizeAll, Mirror, Sane;
    MirrorSane(s, e.url);
    PoolCanonical(s, e, name);
    PlacedNick(s, e, name, nick, cred, baseURL, placement);
    var to := ScreenAdd(s, e, name, nick, cred, baseURL, placement);
    AddedExactly(s.reg, e, name, nick, to.credential, to.at, s.ctls[name].declared != [], R.NormalizeAll(placement));
  }

  lemma PlacedNick(s: State, e: Env, name: string, nick: string, cred: string, baseURL: string, placement: seq<string>)
    requires name in s.ctls && ScreenAdd(s, e, name, nick, cred, baseURL, placement).Passed?
    ensures s.ctls[name].declared != [] ==> nick in R.NormalizeAll(placement)
  {
    hide Borrow, PoolDefault, R.NormalizeAll, Find;
  }

  lemma MirroredNotSane(s: State, e: Env, next: R.Registry, name: string)
    requires Mirror(Enact(s, e, Commit(next, [name])), e.url)
    ensures Sane(next, e.url)
  {
    hide ReconcileTo, ConfigOf, Sane, Shows, Reconciled;
    ReconciledShape(s, e, next, [name]);
  }

  lemma UnsettledAdd(s: State, e: Env, q: Request)
    requires Mirror(s, e.url) && (q.Add? || q.Upsert?) && Judge(s, e, q).Commit? && Mirror(Handle(s, e, q), e.url)
    ensures Canonical(Stored(q.nick))
  {
    hide Normalize, Twice, JudgeAdd, Mirror, Rotate, Sane;
    var name, n := Normalize(q.pool), Normalize(q.nick);
    if q.Upsert? && ResolveIn(s.reg, name, n).Some? {
      RotatesCanonical(s, e, name, n, q.cred);
    } else {
      AddExactly(s, e, name, n, q.cred, q.baseURL, q.placement);
      MirroredNotSane(s, e, Judge(s, e, q).next, name);
    }
  }

  lemma RotatesCanonical(s: State, e: Env, name: string, n: string, cred: string)
    requires Mirror(s, e.url) && Rotate(s.reg, name, n, cred, e.url).Some?
    ensures Canonical(Twice(n))
  {
    hide Normalize, Mirror, R.Build, R.SpecOf, Sane;
    MirrorSane(s, e.url);
    OwnNicksCanonical(s.reg, name, e.url);
  }

  lemma UnsettledCreate(s: State, e: Env, q: Request)
    requires Mirror(s, e.url) && q.Create? && Judge(s, e, q).Insert? && Mirror(Handle(s, e, q), e.url)
    ensures SettledNames(q)
  {
    hide Normalize, Twice, WithPoolCreated, FirstMember, Mirror, ConfigOf, Sane, Fresh;
    var name, n := Normalize(q.pool), Normalize(q.nick);
    var t := Handle(s, e, q);
    PoolCanonical(t, e, name);
    MirrorSane(s, e.url);
    MirrorSane(t, e.url);
    CreatedSane(s.reg, name, e.url);
    if n != "" {
      FirstMemberFiled(s, e, WithPoolCreated(s.reg, name, e.url).value, name, n, q.cred, q.baseURL, q.placement);
    }
  }

  lemma FirstMemberFiled(s: State, e: Env, next: R.Registry, name: string, n: string, cred: string, baseURL: string,
                         placement: seq<string>)
    requires Sane(next, e.url) && Canonical(name) && FirstMember(s, e, next, name, n, cred, baseURL, placement).Some?
    ensures Sane(FirstMember(s, e, next, name, n, cred, baseURL, placement).value, e.url) <==> Canonical(Twice(n))
  {
    hide Normalize, Twice, WithMemberSet, Borrow, Sane, Default;
    var src := Borrow(s.reg, name, n, cred, baseURL).value;
    var at := if src.baseURL == "" then Default(s, e) else src.baseURL;
    MemberSetExactly(next, name, n, src.credential, at, false, e.url);
  }

  /** A request that is not refused keeps the mirror exactly when the names it introduces settle. */
  lemma MirrorKeptExactly(s: State, e: Env, q: Request)
    requires Mirror(s, e.url)
    ensures Mirror(Handle(s, e, q), e.url) <==> Judge(s, e, q).Reject? || Judge(s, e, q).Keep? || SettledNames(q)
  {
    hide Mirror, Judge, SettledNames, Enact;
    KindOfVerdict(s, e, q);
    NothingEnacted(s, e, Judge(s, e, q));
    if SettledNames(q) {
      HandleMirrors(s, e, q);
    } else if Mirror(Handle(s, e, q), e.url) && !Judge(s, e, q).Reject? && !Judge(s, e, q).Keep? {
      UnsettledKeeps(s, e, q);
    }
  }

  // ---------------------------------------------------------------- the theorem

  ghost function After(s: State, es: seq<Env>, qs: seq<Request>): State
    requires |es| == |qs|
    decreases |qs|
  {
    if qs == [] then s else After(Handle(s, es[0], qs[0]), es[1..], qs[1..])
  }

  /** Along the run each request is refused, changes nothing, or introduces only names that settle. */
  ghost predicate SettledRun(s: State, es: seq<Env>, qs: seq<Request>)
    requires |es| == |qs|
    decreases |qs|
  {
    qs == [] || (
      && (Judge(s, es[0], qs[0]).Reject? || Judge(s, es[0], qs[0]).Keep? || SettledNames(qs[0]))
      && SettledRun(Handle(s, es[0], qs[0]), es[1..], qs[1..]))
  }

  /** The mirror holds before, between and after the requests. */
  ghost predicate MirrorThroughout(s: State, es: seq<Env>, qs: seq<Request>, url: R.UrlCheck)
    requires |es| == |qs|
    decreases |qs|
  {
    Mirror(s, url) && (qs == [] || MirrorThroughout(Handle(s, es[0], qs[0]), es[1..], qs[1..], url))
  }

  /** Over any sequence of runtime changes, accepted or not, the controllers mirror the registry exactly when the names settle. */
  lemma {:induction false} MirrorHolds(s: State, es: seq<Env>, qs: seq<Request>, url: R.UrlCheck)
    requires Mirror(s, url) && |es| == |qs| && forall e :: e in es ==> e.url == url
    ensures MirrorThroughout(s, es, qs, url) <==> SettledRun(s, es, qs)
    ensures SettledRun(s, es, qs) ==> Mirror(After(s, es, qs), url)
    decreases |qs|
  {
    hide Mirror, SettledNames, Handle, Judge;
    if qs != [] {
      assert forall e :: e in es[1..] ==> e in es;
      assert es[0] in es;
      var t := Handle(s, es[0], qs[0]);
      MirrorKeptExactly(s, es[0], qs[0]);
      if Mirror(t, url) { MirrorHolds(t, es[1..], qs[1..], url); }
    }
  }

  lemma UnsettledKeeps(s: State, e: Env, q: Request)
    requires Mirror(s, e.url) && Mirror(Handle(s, e, q), e.url) && !Judge(s, e, q).Reject? && !Judge(s, e, q).Keep?
    ensures SettledNames(q)
  {
    hide Mirror, Judge, Normalize, Twice;
    KindOfVerdict(s, e, q);
    match q
    case Add(_, _, _, _, _) => UnsettledAdd(s, e, q);
    case Upsert(_, _, _, _, _) => UnsettledAdd(s, e, q);
    case Create(_, _, _, _, _, _) => UnsettledCreate(s, e, q);
    case Rename(_, to) => PoolCanonical(Handle(s, e, q), e, Normalize(to)) by { RenamedThere(s, e, q); }
    case _ =>
  }

  lemma RenamedThere(s: State, e: Env, q: Request)
    requires q.Rename? && Judge(s, e, q).Move?
    ensures Normalize(q.to) in Handle(s, e, q).ctls
  {
    hide Normalize, WithPoolRenamed;
  }

  /** What an accepted addition adds; only a nick that is not settled can land on a member already there. */
  lemma AddGrows(s: State, e: Env, q: Request)
    requires Mirror(s, e.url) && q.Add? && Judge(s, e, q).Commit?
    ensures var name, next := Normalize(q.pool), Judge(s, e, q).next;
      && name in s.reg.pools && name in next.pools
      && next.pools[name].byNick.Keys == s.reg.pools[name].byNick.Keys + {Stored(q.nick)}
      && (Stored(q.nick) in s.reg.pools[name].byNick ==> !Canonical(Normalize(q.nick)))
  {
    hide Normalize, JudgeAdd, Mirror, Twice, IsMember, Sane;
    var name, n := Normalize(q.pool), Normalize(q.nick);
    AddExactly(s, e, name, n, q.cred, q.baseURL, q.placement);
    MirrorSane(s, e.url);
    if Canonical(n) {
      FiledOnce(n);
      if n in s.reg.pools[name].byNick {
        MemberIsThere(s, e, name, n);
        AddRefused(s, e, name, n, q.cred, q.baseURL, q.placement);
      }
    }
  }

  lemma FiledOnce(n: string)
    requires Canonical(n)
    ensures Twice(n) == n
  {
    hide Normalize;
  }

  lemma MemberIsThere(s: State, e: Env, name: string, n: string)
    requires Mirror(s, e.url) && name in s.ctls && name in s.reg.pools && n in s.reg.pools[name].byNick
    ensures IsMember(s.ctls[name], n)
  {
    hide Normalize, Find, Nicks, ConfigOf, Sane, Listing;
    ConfigGood(s.reg, name, e.url);
    ListingDistinct(s.reg.pools[name].byNick.Keys);
    FindIn(s.ctls[name].members, n);
    assert Shows(s, name);
  }

  lemma AddRefused(s: State, e: Env, name: string, n: string, cred: string, baseURL: string, placement: seq<string>)
    requires name in s.ctls && IsMember(s.ctls[name], n)
    ensures JudgeAdd(s, e, name, n, cred, baseURL, placement).Reject?
  {
    hide Borrow, Placed, PoolDefault, Added, Find;
  }

  /** A member filed under a nick that is not canonical is one its controller never shows with its credential. */
  lemma UnsettledIsLost(s: State, e: Env, q: Request)
    requires Mirror(s, e.url) && q.Add? && Judge(s, e, q).Commit? && !Canonical(Stored(q.nick))
    ensures var name, t := Normalize(q.pool), Handle(s, e, q);
      && name in t.ctls && name in t.reg.pools && Stored(q.nick) in t.reg.pools[name].byNick
      && forall m :: m in t.ctls[name].members && m.nick == Stored(q.nick) ==>
           m.credential != t.reg.pools[name].byNick[m.nick].credential
  {
    hide Normalize, JudgeAdd, Mirror, ReconcileTo, Twice, ConfigOf, Reconciled, Sane, R.WF;
    var name, next := Normalize(q.pool), Judge(s, e, q).next;
    AddExactly(s, e, name, Normalize(q.nick), q.cred, q.baseURL, q.placement);
    JudgedWF(s, e, name, Normalize(q.nick), q.cred, q.baseURL, q.placement);
    MirrorSane(s, e.url);
    PoolCanonical(s, e, name);
    ReconciledShape(s, e, next, [name]);
    ReconcileMembers(s.ctls[name], e.w, ConfigOf(next, name), e.ok);
    ShownElsewhere(next, name, Stored(q.nick), e.url);
  }

  lemma JudgedWF(s: State, e: Env, name: string, nick: string, cred: string, baseURL: string, placement: seq<string>)
    requires JudgeAdd(s, e, name, nick, cred, baseURL, placement).Commit?
    ensures R.WF(JudgeAdd(s, e, name, nick, cred, baseURL, placement).next, e.url)
  {
    hide Normalize, ScreenAdd, R.SpecOf, R.Build, R.WF, R.NormalizeAll, WithMemberSet, WithPriority;
    var to, order := ScreenAdd(s, e, name, nick, cred, baseURL, placement), R.NormalizeAll(placement);
    var mid := WithMemberSet(s.reg, name, nick, to.credential, to.at, false, e.url);
    SetWF(s.reg, name, nick, to.credential, to.at, e.url);
    if mid.Some? { PriorityWF(mid.value, name, order, e.url); }
  }

  lemma SetWF(r: R.Registry, name: string, nick: string, cred: string, at: string, url: R.UrlCheck)
    ensures var next := WithMemberSet(r, name, nick, cred, at, false, url); next.Some? ==> R.WF(next.value, url)
  {
    hide Normalize, R.SpecOf, R.Build, R.WF;
    var p, n, spec := Normalize(name), Normalize(nick), R.SpecOf(r);
    if WithMemberSet(r, name, nick, cred, at, false, url).Some? {
      EditedWF(spec[p := spec[p].(members := spec[p].members[n := R.MemberSpec(cred, at, false)])], r.defaultURL, url);
    }
  }

  lemma PriorityWF(r: R.Registry, name: string, order: seq<string>, url: R.UrlCheck)
    ensures var next := WithPriority(r, name, order, url); next.Some? ==> R.WF(next.value, url)
  {
    hide Normalize, R.SpecOf, R.Build, R.WF, R.NormalizeAll;
    var p, spec := Normalize(name), R.SpecOf(r);
    if WithPriority(r, name, order, url).Some? {
      EditedWF(spec[p := spec[p].(priority := R.NormalizeAll(order))], r.defaultURL, url);
    }
  }

  lemma ReconcileMembers(c: Ctl, w: World, g: Config, ok: NameCheck)
    ensures ReconcileTo(c, w, g, ok).members == g.members
  {
    hide FirstHealthy, Find, EffectiveOrder;
  }

  lemma {:induction false} MembersLooked(p: R.Pool, nicks: seq<string>)
    ensures forall m :: m in MembersIn(p, nicks) ==>
              Normalize(m.nick) in p.byNick && m.credential == p.byNick[Normalize(m.nick)].credential
  {
    hide Normalize;
    if nicks != [] { MembersLooked(p, nicks[1..]); }
  }

  /** Looking a nick up normalises it, so one that is not canonical is looked up as another, with another credential. */
  lemma ShownElsewhere(r: R.Registry, name: string, nick: string, url: R.UrlCheck)
    requires R.WF(r, url) && Canonical(name) && name in r.pools && nick in r.pools[name].byNick && !Canonical(nick)
    ensures forall m :: m in ConfigOf(r, name).members && m.nick == nick ==>
              m.credential != r.pools[name].byNick[nick].credential
  {
    hide Normalize, MembersIn, DisabledIn, Listing;
    var p := r.pools[name];
    MembersLooked(p, p.nicks);
    assert R.PoolWF(name, p, r.defaultURL, url) && R.OneCredential(p, p);
  }


  /** The first pool of an empty gateway, asked for as "- a": the registry files it under "a", the controller under " a". */
  lemma CreateDrifts(e: Env, def: string)
    ensures var s := State(R.Registry(map[], def), map[]);
      var q := Create("- a", "", "", "", "", []);
      && Mirror(s, e.url) && Judge(s, e, q).Insert?
      && Handle(s, e, q).ctls.Keys == {" a"} && Handle(s, e, q).reg.pools.Keys == {"a"}
      && !Mirror(Handle(s, e, q), e.url)
  {
    hide Normalize, ConfigOf, Fresh, Judge, Mirror, NewCtl;
    var s := State(R.Registry(map[], def), map[]);
    var q := Create("- a", "", "", "", "", []);
    EmptyMirrors(def, e.url);
    DriftVerdict(e, def);
    var t := Handle(s, e, q);
    assert t.ctls.Keys == {" a"};
    assert "a" !in t.ctls.Keys;
    if Mirror(t, e.url) { MirrorSane(t, e.url); }
  }

  lemma NormalizeEmpty()
    ensures Normalize("") == ""
  {
  }

  lemma EmptyMirrors(def: string, url: R.UrlCheck)
    ensures Mirror(State(R.Registry(map[], def), map[]), url)
  {
  }

  lemma DriftVerdict(e: Env, def: string)
    ensures var v := Judge(State(R.Registry(map[], def), map[]), e, Create("- a", "", "", "", "", []));
      v.Insert? && v.name == " a" && v.next.pools.Keys == {"a"}
  {
    hide Normalize, R.Build, Borrow, WithMemberSet;
    var r := R.Registry(map[], def);
    NotIdempotent();
    NormalizeEmpty();
    LetterNormal();
    EmptySpecBuilds(def, e.url);
    assert R.SpecOf(r) == map[];
    assert R.SpecOf(r)["a" := NO_MEMBERS] == map["a" := NO_MEMBERS];
  }

  lemma LetterNormal()
    ensures Normalize("a") == "a"
  {
    NormalizeTwice(" a");
    NotIdempotent();
  }

  lemma EmptySpecBuilds(def: string, url: R.UrlCheck)
    requires Normalize("a") == "a" && Normalize(" a") == "a"
    ensures var spec: R.Spec := map["a" := NO_MEMBERS];
      R.Build(spec, def, url).Some? && R.Build(spec, def, url).value.pools.Keys == {"a"}
  {
    hide Normalize;
    var spec: R.Spec := map["a" := NO_MEMBERS];
    assert R.NormalizeAll([]) == [];
    assert R.GoodPool(NO_MEMBERS, def, url);
    assert R.Valid(spec, def, url);
  }

  // ------------------------------------------ two nicks that are not settled

  /** The file shape of one pool "p" with one member. */
  function Only(k: string, cred: string): R.Spec {
    map["p" := R.PoolSpec("", map[k := R.MemberSpec(cred, "u", false)], [], None)]
  }

  ghost predicate OnlyHolds(r: R.Registry, n: string, cred: string) {
    && r.pools.Keys == {"p"} && r.defaultURL == ""
    && var p := r.pools["p"];
       && p.byNick.Keys == {n} && p.byNick[n] == R.Backend("p", n, cred, "u", false)
       && p.nicks == [n] && p.baseURL == "" && p.priority == [] && p.concurrency == 1
  }

  lemma OnlyBuilds(k: string, cred: string, url: R.UrlCheck)
    requires Normalize(k) != "" && cred != "" && url("u") && Normalize("p") == "p"
    ensures R.Build(Only(k, cred), "", url).Some? && OnlyHolds(R.Build(Only(k, cred), "", url).value, Normalize(k), cred)
  {
    hide Normalize, R.GoodPool, R.MakePool, R.Agree;
    OnlyGood(k, cred, url);
    assert Only(k, cred).Keys == {"p"};
    OnlyMade(k, cred);
  }

  lemma OnlyGood(k: string, cred: string, url: R.UrlCheck)
    requires Normalize(k) != "" && cred != "" && url("u")
    ensures var ps := Only(k, cred)["p"]; R.GoodPool(ps, "", url) && R.Agree(ps, ps) && R.GoodKeys(ps.members.Keys)
  {
    hide Normalize;
    var ps := Only(k, cred)["p"];
    assert R.NormalizeAll([]) == [];
    assert R.GoodMember(ps.members[k], ps, "", url);
  }

  lemma OnlyMade(k: string, cred: string)
    requires R.GoodKeys(Only(k, cred)["p"].members.Keys)
    ensures var p, n := R.MakePool("p", Only(k, cred)["p"], ""), Normalize(k);
      && p.byNick.Keys == {n} && p.byNick[n] == R.Backend("p", n, cred, "u", false)
      && p.nicks == [n] && p.baseURL == "" && p.priority == [] && p.concurrency == 1
  {
    hide Normalize, R.GoodKeys, Listing;
    var ps, n := Only(k, cred)["p"], Normalize(k);
    var p := R.MakePool("p", ps, "");
    assert R.NormalizeAll([]) == [];
    R.MemberAt("p", ps, "", k);
    assert p.byNick.Keys == {n};
    ListingDistinct({n});
    SingleListing(n);
  }

  lemma SingleListing(n: string)
    ensures Listing({n}) == [n]
  {
    hide Listing;
    AscendingUnique(Listing({n}), [n]);
  }

  /** The one pool "p" holds nothing but, perhaps, the nick about to be set. */
  ghost predicate Roomy(s: State, e: Env, k: string) {
    && s.reg.pools.Keys == {"p"} && s.reg.defaultURL == "" && Mirror(s, e.url)
    && var p := s.reg.pools["p"];
       p.byNick.Keys <= {k} && p.baseURL == "" && p.priority == [] && p.concurrency == 1
  }

  lemma AddLands(s: State, e: Env, nick: string, cred: string)
    requires var n := Normalize(nick); Roomy(s, e, Normalize(n)) && n !in s.reg.pools["p"].byNick
    requires Stored(nick) != "" && Normalize(nick) != "" && cred != "" && e.url("u") && Normalize("p") == "p"
    ensures var v, n := Judge(s, e, Add("p", nick, cred, "u", [])), Stored(nick);
      v.Commit? && v.pools == ["p"] && OnlyHolds(v.next, n, cred)
  {
    hide Normalize, R.Build, R.SpecOf, Mirror, OnlyHolds, Sane, WithMemberSet, WithPriority, Only, ConfigOf, Nicks;
    var n := Normalize(nick);
    MirrorSane(s, e.url);
    SetsOnly(s.reg, n, cred, e.url);
    OnlyBuilds(Normalize(n), cred, e.url);
    UnlistedIsNone(s, e, n);
    BorrowNothing(s.reg, n, cred);
    assert ScreenAdd(s, e, "p", n, cred, "u", []) == Passed(cred, "u");
  }

  lemma BorrowNothing(r: R.Registry, n: string, cred: string)
    requires cred != ""
    ensures Borrow(r, "p", n, cred, "u") == Some(Source(cred, "u"))
  {
    hide CredsElsewhere, URLsElsewhere;
  }

  lemma UnlistedIsNone(s: State, e: Env, n: string)
    requires Mirror(s, e.url) && "p" in s.ctls && n !in s.reg.pools["p"].byNick
    ensures "p" in s.reg.pools && !IsMember(s.ctls["p"], n) && s.ctls["p"].declared == s.reg.pools["p"].priority
  {
    hide Find, Nicks, ConfigOf, Sane, Listing, Normalize;
    ConfigGood(s.reg, "p", e.url);
    ListingDistinct(s.reg.pools["p"].byNick.Keys);
    FindIn(s.ctls["p"].members, n);
    assert Shows(s, "p");
  }

  lemma SetsOnly(r: R.Registry, n: string, cred: string, url: R.UrlCheck)
    requires r.pools.Keys == {"p"} && r.defaultURL == "" && Normalize("p") == "p"
    requires var p := r.pools["p"];
      p.byNick.Keys <= {Normalize(n)} && p.baseURL == "" && p.priority == [] && p.concurrency == 1
    ensures WithMemberSet(r, "p", n, cred, "u", false, url) == R.Build(Only(Normalize(n), cred), "", url)
  {
    hide Normalize, R.Build;
    var k, spec := Normalize(n), R.SpecOf(r);
    var ps := spec["p"];
    assert ps.members[k := R.MemberSpec(cred, "u", false)] == map[k := R.MemberSpec(cred, "u", false)];
    assert spec["p" := ps.(members := ps.members[k := R.MemberSpec(cred, "u", false)])] == Only(k, cred);
  }

  lemma PlainNames()
    ensures Normalize("p") == "p" && Normalize("a") == "a" && Normalize("- a") == " a" && Normalize(" a") == "a"
  {
    NotIdempotent();
    LetterNormal();
    FoldedFixed("p");
  }

  lemma OnlySane(k: string, cred: string, url: R.UrlCheck)
    requires Canonical(k) && Canonical("p") && cred != "" && url("u")
    ensures var r := R.Build(Only(k, cred), "", url); r.Some? && Sane(r.value, url) && OnlyHolds(r.value, k, cred)
  {
    hide Normalize, R.Build, Only, R.WF;
    OnlyBuilds(k, cred, url);
    EditedWF(Only(k, cred), "", url);
  }

  /** "- a" is not taken for the member "a" it is filed under: the duplicate check passes and "a" is written over. */
  lemma AddReplaces(e: Env) returns (s: State)
    requires e.url("u")
    ensures Mirror(s, e.url) && OnlyHolds(s.reg, "a", "x")
    ensures var q := Add("p", "- a", "y", "u", []);
      Judge(s, e, q).Commit? && Mirror(Handle(s, e, q), e.url) && OnlyHolds(Handle(s, e, q).reg, "a", "y")
  {
    hide Normalize, Judge, Mirror, Sane, R.Build, Only, ReconcileTo, ConfigOf;
    PlainNames();
    OnlySane("a", "x", e.url);
    s := Boot(R.Build(Only("a", "x"), "", e.url).value, e.w);
    BootMirrors(s.reg, e.w, e.url);
    AddLands(s, e, "- a", "y");
    HandleMirrors(s, e, Add("p", "- a", "y", "u", []));
    ReconciledShape(s, e, Judge(s, e, Add("p", "- a", "y", "u", [])).next, ["p"]);
  }

  const LONG := "- - - - a"

  lemma LongNames()
    ensures Normalize(LONG) == " - - - a" && Stored(LONG) == " - a" && Normalize(" - a") == " a" && !Canonical(" - a")
    ensures Normalize(Normalize(LONG)) == " - - a"
  {
    hide Normalize;
    Peel(LONG);
    var a: string, b: string, c: string := "- - - a", "- - a", "- a";
    Peel(a);
    Peel(b);
    Peel(c);
    assert LONG[1..] == [' '] + a && a[1..] == [' '] + b && b[1..] == [' '] + c && c[1..] == " a";
  }

  /** "- - - - a" is filed as " - a", which its controller then looks up as " a" and never finds. */
  lemma AddDrifts(e: Env) returns (s: State)
    requires e.url("u")
    ensures Mirror(s, e.url)
    ensures var q := Add("p", LONG, "x", "u", []);
      && Judge(s, e, q).Commit? && !Mirror(Handle(s, e, q), e.url)
      && OnlyHolds(Handle(s, e, q).reg, " - a", "x") && Handle(s, e, q).ctls.Keys == {"p"}
      && Handle(s, e, q).ctls["p"].members == []
  {
    hide Normalize, Judge, Mirror, Sane, ConfigOf, Enact, Twice, Canonical;
    LongNames();
    var q := Add("p", LONG, "x", "u", []);
    s := EmptyGateway(e);
    AddLands(s, e, LONG, "x");
    var next := Judge(s, e, q).next;
    ShownAfter(s, e, next, "p");
    NobodyShown(next, " - a");
    MirrorKeptExactly(s, e, q);
  }

  lemma EmptyGateway(e: Env) returns (s: State)
    ensures forall k :: Roomy(s, e, k)
    ensures Normalize("p") == "p" && Mirror(s, e.url) && s.ctls.Keys == s.reg.pools.Keys == {"p"}
    ensures s.reg.pools["p"].byNick == map[]
  {
    hide Normalize, Mirror, Sane, Fresh, NewCtl, ConfigOf;
    PlainNames();
    s := Boot(R.Registry(map["p" := R.Pool("p", map[], [], "", [], 1)], ""), e.w);
    EmptySane(s.reg, e.url);
    BootMirrors(s.reg, e.w, e.url);
  }

  lemma ShownAfter(s: State, e: Env, next: R.Registry, p: string)
    requires p in s.ctls
    ensures var t := Enact(s, e, Commit(next, [p]));
      t.reg == next && t.ctls.Keys == s.ctls.Keys && t.ctls[p].members == ConfigOf(next, p).members
  {
    hide Reconciled, ReconcileTo, ConfigOf;
    ReconciledShape(s, e, next, [p]);
    ReconcileMembers(s.ctls[p], e.w, ConfigOf(next, p), e.ok);
  }

  lemma EmptySane(r: R.Registry, url: R.UrlCheck)
    requires r == R.Registry(map["p" := R.Pool("p", map[], [], "", [], 1)], "") && Normalize("p") == "p"
    ensures Sane(r, url)
  {
    hide Normalize, Listing;
    var p := r.pools["p"];
    assert p.byNick.Keys == {};
    AscendingUnique(Listing(p.byNick.Keys), []);
  }

  lemma NobodyShown(r: R.Registry, n: string)
    requires OnlyHolds(r, n, "x") && Normalize("p") == "p" && Normalize(n) != n
    ensures ConfigOf(r, "p").members == []
  {
    hide Normalize;
    var p := r.pools["p"];
    var rest := p.nicks[1..];
    assert rest == [] && MembersIn(p, rest) == [] && p.nicks[0] == n;
    assert Normalize(n) !in p.byNick.Keys;
    assert MembersIn(p, p.nicks) == [];
  }
}
