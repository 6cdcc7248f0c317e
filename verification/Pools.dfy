/**
 The pools as objects: one controller each, the shared registry, and the methods that
 change them, proved against the judgements and steps of `Mutations`.
 */
module Pools {
  import opened Common
  import opened Names
  import R = Registry
  import B = RegistryBuild
  import E = RegistryEdits
  import opened Availability
  import opened Restart
  import opened Parks
  import opened Reconcile
  import opened Mutations
  import C = Controller

  function StatusOf(v: Verdict): int {
    match v
    case Reject(status) => status
    case Insert(_, _) => 201
    case _ => 200
  }

  /** The other pools that hold the nick: whom a park or a clear is mirrored to. */
  function Siblings(s: State, origin: string, nick: string): set<string> {
    set p | p in s.reg.pools && p in s.ctls && p != origin && ResolveIn(s.reg, p, nick).Some?
  }

  /** `propagateCredentialPark`. */
  function ParkSiblings(s: State, origin: string, nick: string, entry: Park): State {
    s.(ctls := map p | p in s.ctls :: if p in Siblings(s, origin, nick) then Deliver(s.ctls[p], nick, entry) else s.ctls[p])
  }

  /** `propagateCredentialParkAuthClear`. */
  function ClearAuthSiblings(s: State, w: World, origin: string, nick: string): State {
    s.(ctls := map p | p in s.ctls :: if p in Siblings(s, origin, nick) then ClearAuth(s.ctls[p], w, nick) else s.ctls[p])
  }

  /** `propagateCredentialParkClear`. */
  function ClearSiblings(s: State, origin: string, nick: string): State {
    s.(ctls := map p | p in s.ctls :: if p in Siblings(s, origin, nick) then ClearMirror(s.ctls[p], nick) else s.ctls[p])
  }

  /** `noteRecovered`: the siblings' parks go when a quota park was dropped here. */
  function Recover(s: State, pool: string, nick: string): State
    requires pool in s.ctls
  {
    var c := s.ctls[pool];
    var t := s.(ctls := s.ctls[pool := NoteRecovered(c, nick)]);
    if nick in c.parks && c.parks[nick].windowFact then ClearSiblings(t, pool, nick) else t
  }

  /** What any response but a 401 or 403 does first: `clearAuthRejectedPark` in its pool, then in the siblings. */
  function ClearAuthEverywhere(s: State, w: World, pool: string, nick: string): State
    requires pool in s.ctls
  {
    if HasAuthPark(s.ctls[pool], nick) then
      ClearAuthSiblings(s.(ctls := s.ctls[pool := ClearAuth(s.ctls[pool], w, nick)]), w, pool, nick)
    else s
  }

  /** Only the member's auth park and the quota entry equal to it may go; nothing else of the parks changes. */
  ghost predicate OnlyAuthGone(c: Ctl, d: Ctl, nick: string) {
    && d == c.(cur := d.cur, parks := d.parks, exhausted := d.exhausted)
    && (d.parks == c.parks || (HasAuthPark(c, nick) && d.parks == c.parks - {nick}))
    && (d.exhausted == c.exhausted
        || (HasAuthPark(c, nick) && nick in c.exhausted && c.exhausted[nick] == c.parks[nick].reset && d.parks == c.parks - {nick}
            && d.exhausted == c.exhausted - {nick}))
  }

  lemma ClearAuthOnly(c: Ctl, w: World, nick: string)
    ensures OnlyAuthGone(c, ClearAuth(c, w, nick), nick) && !HasAuthPark(ClearAuth(c, w, nick), nick)
    ensures !HasAuthPark(c, nick) ==> ClearAuth(c, w, nick) == c
  {
    hide Reanchor;
    if HasAuthPark(c, nick) { ReanchorFields(DropPark(c, nick), w); }
  }

  /**
   A response that is no credential rejection lifts the member's auth park in its pool, and
   then in every pool holding the nick; every other park in every pool stays.
   */
  lemma AuthClearsExactly(s: State, w: World, pool: string, nick: string, p: string)
    requires pool in s.ctls && p in s.ctls
    ensures var t := ClearAuthEverywhere(s, w, pool, nick);
      && t.reg == s.reg && t.ctls.Keys == s.ctls.Keys && OnlyAuthGone(s.ctls[p], t.ctls[p], nick)
      && (HasAuthPark(s.ctls[pool], nick) && (p == pool || p in Siblings(s, pool, nick)) ==> !HasAuthPark(t.ctls[p], nick))
      && (!HasAuthPark(s.ctls[pool], nick) ==> t == s)
  {
    hide ClearAuth, ResolveIn;
    ClearAuthOnly(s.ctls[p], w, nick);
    ClearAuthOnly(s.ctls[pool], w, nick);
  }

  // ---------------------------------------- whom parks and clears reach, in plain terms

  /** Another pool that declares the nick. */
  ghost predicate SharesNick(s: State, origin: string, nick: string, p: string) {
    p != origin && p in s.reg.pools && Normalize(nick) in s.reg.pools[p].byNick
  }

  lemma SiblingExactly(s: State, url: R.UrlCheck, origin: string, nick: string, p: string)
    requires E.Sane(s.reg, url) && p in s.ctls
    ensures p in Siblings(s, origin, nick) <==> SharesNick(s, origin, nick, p)
  {
    hide Normalize, R.PoolWF, R.CanonicalPool;
    if p in s.reg.pools { E.SanePool(s.reg, p, url); }
  }

  lemma SharesAnywhere(s: State, t: State, origin: string, nick: string, p: string)
    requires t.reg == s.reg
    ensures SharesNick(t, origin, nick, p) == SharesNick(s, origin, nick, p) && !SharesNick(s, p, nick, p)
  {
  }

  /** A park reaches exactly the other pools that declare the nick; so do a release and an auth clear. */
  lemma ReachesExactly(s: State, url: R.UrlCheck, w: World, origin: string, nick: string, entry: Park, p: string)
    requires E.Sane(s.reg, url) && p in s.ctls
    ensures var c, there := s.ctls[p], SharesNick(s, origin, nick, p);
      var parked, auth, released := ParkSiblings(s, origin, nick, entry), ClearAuthSiblings(s, w, origin, nick), ClearSiblings(s, origin, nick);
      && parked.reg == auth.reg == released.reg == s.reg
      && parked.ctls.Keys == auth.ctls.Keys == released.ctls.Keys == s.ctls.Keys
      && parked.ctls[p] == (if there then Deliver(c, nick, entry) else c)
      && auth.ctls[p] == (if there then ClearAuth(c, w, nick) else c)
      && released.ctls[p] == (if there then ClearMirror(c, nick) else c)
  {
    hide Siblings, SharesNick, Deliver, ClearAuth, ClearMirror;
    SiblingExactly(s, url, origin, nick, p);
  }

  /** A recovery lifts the member's quota parks in its pool, and elsewhere if one of them was on its credential. */
  lemma RecoveryReaches(s: State, url: R.UrlCheck, pool: string, nick: string, p: string)
    requires E.Sane(s.reg, url) && p in s.ctls && pool in s.ctls
    ensures var t, c := Recover(s, pool, nick), s.ctls[pool];
      && t.reg == s.reg && t.ctls.Keys == s.ctls.Keys && t.ctls[pool] == NoteRecovered(c, nick)
      && (p != pool ==> t.ctls[p] == if nick in c.parks && c.parks[nick].windowFact && SharesNick(s, pool, nick, p)
                                     then ClearMirror(s.ctls[p], nick) else s.ctls[p])
  {
    hide ResolveIn, NoteRecovered, ClearMirror, SharesNick;
    SiblingExactly(s, url, pool, nick, p);
    SiblingExactly(s, url, pool, nick, pool);
  }

  /** A response that is no rejection lifts an auth park in its pool, and then in every other pool that declares the nick. */
  lemma AuthClearReaches(s: State, url: R.UrlCheck, w: World, pool: string, nick: string, p: string)
    requires E.Sane(s.reg, url) && p in s.ctls && pool in s.ctls
    ensures var t, c := ClearAuthEverywhere(s, w, pool, nick), s.ctls[pool];
      t.ctls.Keys == s.ctls.Keys
      && t.ctls[p] == if nick in c.parks && c.parks[nick].authRejected && (p == pool || SharesNick(s, pool, nick, p))
                      then ClearAuth(s.ctls[p], w, nick) else s.ctls[p]
  {
    hide ResolveIn, ClearAuth, SharesNick;
    SiblingExactly(s, url, pool, nick, p);
    SiblingExactly(s, url, pool, nick, pool);
  }

  /** No two pools share a controller. */
  ghost predicate Apart(byPool: map<string, C.Controller>) {
    forall m, n :: m in byPool && n in byPool && m != n ==> byPool[m] != byPool[n]
  }

  class Pools {
    var reg: R.Registry
    var byPool: map<string, C.Controller>

    ghost function Repr(): set<object>
      reads this
    {
      set n | n in byPool :: byPool[n]
    }

    ghost predicate Valid()
      reads this
    {
      Apart(byPool)
    }

    ghost function View(): State
      reads this, Repr()
    {
      State(reg, map n | n in byPool :: byPool[n].View())
    }

    // ------------------------------------------------------------ construction

    static method NewController(r: R.Registry, n: string, w: World) returns (c: C.Controller)
      ensures fresh(c) && c.View() == Fresh(NewCtl(ConfigOf(r, n)), w)
    {
      hide Fresh, ConfigOf, EffectiveOrder, Nicks;
      c := new C.Controller(ConfigOf(r, n), w);
    }

    static method NewControllers(r: R.Registry, w: World) returns (made: map<string, C.Controller>)
      ensures made.Keys == r.pools.Keys && Apart(made)
      ensures forall n :: n in made ==> fresh(made[n]) && made[n].View() == Fresh(NewCtl(ConfigOf(r, n)), w)
    {
      hide Fresh, ConfigOf, NewCtl, C.Controller.View;
      made := map[];
      var todo := r.pools.Keys;
      while todo != {}
        invariant todo <= r.pools.Keys && made.Keys == r.pools.Keys - todo && Apart(made)
        invariant forall n :: n in made ==> fresh(made[n]) && made[n].View() == Fresh(NewCtl(ConfigOf(r, n)), w)
        decreases |todo|
      {
        var n :| n in todo;
        var c := NewController(r, n, w);
        made, todo := made[n := c], todo - {n};
      }
    }

    constructor (r: R.Registry, w: World)
      ensures Valid() && fresh(Repr()) && View() == Boot(r, w)
    {
      hide Fresh, ConfigOf, NewCtl, C.Controller.View;
      var made := NewControllers(r, w);
      reg, byPool := r, made;
    }

    // ---------------------------------------------------------- propagation

    /** One sibling at a time: each is written and released before the next is touched. */
    method PropagatePark(origin: string, nick: string, entry: Park)
      requires Valid()
      modifies Repr()
      ensures Valid() && reg == old(reg) && byPool == old(byPool)
      ensures View() == ParkSiblings(old(View()), origin, nick, entry)
    {
      hide ResolveIn, Deliver, ParkSiblings, Siblings, C.Controller.View;
      ghost var s := View();
      var names := SortKeys(reg.pools.Keys);
      for i := 0 to |names|
        invariant Valid() && reg == old(reg) && byPool == old(byPool)
        invariant forall p :: p in byPool ==>
                    byPool[p].View() == if p in names[..i] && p in Siblings(s, origin, nick) then Deliver(s.ctls[p], nick, entry)
                                        else s.ctls[p]
      {
        var p := names[i];
        InListing(reg.pools.Keys, names, i);
        IsSibling(s, origin, nick, p);
        if p != origin && ResolveIn(reg, p, nick).Some? && p in byPool {
          byPool[p].MirrorPark(nick, entry);
        }
      }
      AllListed(reg.pools.Keys, names);
      SiblingsHold(s, origin, nick);
      ParkedAll(s, View(), origin, nick, entry);
    }

    /** Releases auth parks only. */
    method PropagateAuthClear(w: World, origin: string, nick: string)
      requires Valid()
      modifies Repr()
      ensures Valid() && reg == old(reg) && byPool == old(byPool)
      ensures View() == ClearAuthSiblings(old(View()), w, origin, nick)
    {
      hide ResolveIn, ClearAuth, ClearAuthSiblings, Siblings, C.Controller.View;
      ghost var s := View();
      var names := SortKeys(reg.pools.Keys);
      for i := 0 to |names|
        invariant Valid() && reg == old(reg) && byPool == old(byPool)
        invariant forall p :: p in byPool ==>
                    byPool[p].View() == if p in names[..i] && p in Siblings(s, origin, nick) then ClearAuth(s.ctls[p], w, nick)
                                        else s.ctls[p]
      {
        var p := names[i];
        InListing(reg.pools.Keys, names, i);
        IsSibling(s, origin, nick, p);
        if p != origin && ResolveIn(reg, p, nick).Some? && p in byPool {
          var cleared := byPool[p].ClearAuthPark(w, nick);
        }
      }
      AllListed(reg.pools.Keys, names);
      SiblingsHold(s, origin, nick);
      PropagateAuthClearAll(s, View(), w, origin, nick);
    }

    /** Releases the nick's park in every sibling, whatever its class. */
    method PropagateClear(origin: string, nick: string)
      requires Valid()
      modifies Repr()
      ensures Valid() && reg == old(reg) && byPool == old(byPool)
      ensures View() == ClearSiblings(old(View()), origin, nick)
    {
      hide ResolveIn, ClearMirror, ClearSiblings, Siblings, C.Controller.View;
      ghost var s := View();
      var names := SortKeys(reg.pools.Keys);
      for i := 0 to |names|
        invariant Valid() && reg == old(reg) && byPool == old(byPool)
        invariant forall p :: p in byPool ==>
                    byPool[p].View() == if p in names[..i] && p in Siblings(s, origin, nick) then ClearMirror(s.ctls[p], nick)
                                        else s.ctls[p]
      {
        var p := names[i];
        InListing(reg.pools.Keys, names, i);
        IsSibling(s, origin, nick, p);
        if p != origin && ResolveIn(reg, p, nick).Some? && p in byPool {
          var released := byPool[p].ClearMirroredPark(nick);
        }
      }
      AllListed(reg.pools.Keys, names);
      SiblingsHold(s, origin, nick);
      PropagateClearAll(s, View(), origin, nick);
    }

    /** `clearAuthRejectedPark`: the pool itself under its lock, the siblings once it is released. */
    method ClearAuthRejected(w: World, pool: string, nick: string)
      requires Valid() && pool in byPool
      modifies Repr()
      ensures Valid() && reg == old(reg) && byPool == old(byPool)
      ensures View() == ClearAuthEverywhere(old(View()), w, pool, nick)
    {
      hide ClearAuth, ClearAuthSiblings, C.Controller.View;
      ghost var s := View();
      var cleared := byPool[pool].ClearAuthPark(w, nick);
      OneChanged(s, View(), pool, ClearAuth(s.ctls[pool], w, nick));
      if cleared { PropagateAuthClear(w, pool, nick); } else { ClearAuthOnly(s.ctls[pool], w, nick); }
    }

    /** `noteRecovered`, propagation included. */
    method RecoverNick(pool: string, nick: string)
      requires Valid() && pool in byPool
      modifies Repr()
      ensures Valid() && reg == old(reg) && byPool == old(byPool)
      ensures View() == Recover(old(View()), pool, nick)
    {
      hide ClearSiblings, NoteRecovered, C.Controller.View;
      ghost var s := View();
      var dropped := DropRecovered(byPool[pool], nick);
      OneChanged(s, View(), pool, NoteRecovered(s.ctls[pool], nick));
      if dropped { PropagateClear(pool, nick); }
    }

    static method DropRecovered(c: C.Controller, nick: string) returns (dropped: bool)
      modifies c
      ensures c.View() == NoteRecovered(old(c.View()), nick)
      ensures dropped == (nick in old(c.View()).parks && old(c.View()).parks[nick].windowFact)
    {
      dropped := c.NoteRecoveredNick(nick);
    }

    // -------------------------------------------------------------- requests

    /** `applyRegistryLocked`. */
    method ApplyRegistry(e: Env, next: R.Registry, pools: seq<string>)
      requires Valid()
      modifies this, Repr()
      ensures Valid() && byPool == old(byPool)
      ensures View() == Reconciled(old(View()), e, next, pools)
    {
      hide ReconcileTo, ConfigOf, C.Controller.View;
      ghost var s := View();
      reg := next;
      RegFirst(s, View(), e, next, pools);
      assert pools[0..] == pools;
      for i := 0 to |pools|
        invariant Valid() && byPool == old(byPool) && reg == next
        invariant Reconciled(View(), e, next, pools[i..]) == Reconciled(s, e, next, pools)
      {
        ghost var before := View();
        assert pools[i..][0] == pools[i] && pools[i..][1..] == pools[i + 1..];
        if pools[i] in byPool {
          byPool[pools[i]].ReconcileWith(ConfigOf(reg, pools[i]), e.w, e.ok);
          OneChanged(before, View(), pools[i], ReconcileTo(before.ctls[pools[i]], e.w, ConfigOf(next, pools[i]), e.ok));
        }
      }
    }

    /** The order loop of `SetPriority` and of a placement: normalised, without repetition, members or the newcomer. */
    static method CheckOrder(c: C.Controller, newcomer: string, order: seq<string>) returns (r: Option<seq<string>>)
      ensures r == if Orderly(c.View(), newcomer, order) then Some(R.NormalizeAll(order)) else None
    {
      hide Normalize, Find;
      var out: seq<string> := [];
      for i := 0 to |order|
        invariant out == R.NormalizeAll(order)[..i] && Distinct(out) && "" !in out
        invariant forall n :: n in out ==> (n == newcomer && n != "") || IsMember(c.View(), n)
      {
        var n := Normalize(order[i]);
        assert n == R.NormalizeAll(order)[i] && n in R.NormalizeAll(order);
        if n == "" || !(n == newcomer || Find(c.members, n).Some?) { return None; }
        if n in out {
          var j :| 0 <= j < i && out[j] == n;
          assert R.NormalizeAll(order)[j] == n;
          return None;
        }
        out := out + [n];
      }
      assert R.NormalizeAll(order)[..|order|] == R.NormalizeAll(order);
      return Some(out);
    }

    /** `validatePlacementLocked`, and the refusal of a placement elsewhere; an unordered pool yields no order. */
    static method CheckPlacement(c: C.Controller, nick: string, placement: seq<string>) returns (r: Option<seq<string>>)
      requires nick != ""
      ensures r.Some? <==> Placed(c.View(), nick, placement)
      ensures r.Some? ==> r.value == R.NormalizeAll(placement)
    {
      hide Orderly;
      if c.declaredPriority == [] {
        return if placement == [] then Some([]) else None;
      }
      if placement == [] { return None; }
      r := CheckOrder(c, nick, placement);
      PlacementIs(c.View(), nick, placement);
      if r.Some? && nick !in r.value { return None; }
    }

    /** The distinct non-empty values that `f` has along `names`. */
    static method Gather(names: seq<string>, f: string -> string) returns (out: seq<string>)
      ensures Distinct(out) && forall x :: x in out <==> Yields(f, names, x)
    {
      hide Yields;
      out := [];
      YieldsNone(f, names[..0]);
      for i := 0 to |names|
        invariant Distinct(out) && forall x :: x in out <==> Yields(f, names[..i], x)
      {
        YieldsMore(f, names, i);
        var x := f(names[i]);
        if x != "" && x !in out { out := out + [x]; }
      }
      assert names[..|names|] == names;
    }

    /** `crossPoolResolve`: the distinct credentials and URLs the nick has elsewhere. */
    method CrossResolve(skip: string, nick: string) returns (creds: seq<string>, urls: seq<string>)
      ensures Distinct(creds) && Elems(creds) == CredsElsewhere(reg, skip, nick)
      ensures Distinct(urls) && Elems(urls) == URLsElsewhere(reg, skip, nick)
    {
      hide CredsElsewhere, URLsElsewhere, Yields, LentCred, LentURL;
      var r := reg;
      var names := SortKeys(r.pools.Keys);
      AllListed(r.pools.Keys, names);
      creds := Gather(names, p => LentCred(r, skip, nick, p));
      urls := Gather(names, p => LentURL(r, skip, nick, p));
      CrossIs(r, skip, nick, names, creds, urls);
    }

    /** Fills in an omitted credential or URL. */
    method BorrowFrom(name: string, nick: string, cred: string, baseURL: string) returns (r: Option<Source>)
      ensures r == Borrow(reg, name, nick, cred, baseURL)
    {
      hide CredsElsewhere, URLsElsewhere;
      if cred != "" && baseURL != "" { return Some(Source(cred, baseURL)); }
      var creds, urls := CrossResolve(name, nick);
      CountIs(creds, CredsElsewhere(reg, name, nick));
      CountIs(urls, URLsElsewhere(reg, name, nick));
      if cred == "" && |creds| != 1 { return None; }
      if baseURL == "" && |urls| > 1 { return None; }
      return Some(Source(if cred == "" then creds[0] else cred, if baseURL == "" && |urls| == 1 then urls[0] else baseURL));
    }

    /** The URL of a member added without one. */
    method DefaultFor(e: Env, c: C.Controller) returns (url: string)
      ensures url == PoolDefault(State(reg, map[]), e, c.View())
    {
      var borrowed := "";
      if c.members != [] {
        borrowed := c.members[0].baseURL;
        for i := 1 to |c.members|
          invariant borrowed == c.members[0].baseURL && forall m :: m in c.members[..i] ==> m.baseURL == borrowed
        {
          if c.members[i].baseURL != borrowed {
            borrowed := "";
            break;
          }
        }
        assert borrowed == "" || c.members[..|c.members|] == c.members;
      }
      if borrowed != "" { return borrowed; }
      return if e.gateway != "" then e.gateway else reg.defaultURL;
    }

    static method Has(c: C.Controller, nick: string) returns (r: bool)
      ensures r == IsMember(c.View(), nick)
    {
      r := Find(c.members, nick).Some?;
    }

    /** `SetPriority`. */
    method SetPriority(e: Env, pool: string, order: seq<string>) returns (status: int)
      requires Valid()
      modifies this, Repr()
      ensures Valid() && fresh(Repr() - old(Repr()))
      ensures var v := JudgePriority(old(View()), e, pool, order);
        View() == Enact(old(View()), e, v) && status == StatusOf(v)
    {
      hide Normalize, ReconcileTo, ConfigOf, C.Controller.View, Find, R.NormalizeAll, E.WithPriority, ValidOrder, Orderly, Reconciled;
      var name := Normalize(pool);
      if name !in byPool { return 404; }
      var valid := CheckOrder(byPool[name], "", order);
      OrderlyIs(byPool[name].View(), order);
      if valid.None? { return 400; }
      var next := B.SetPriority(reg, name, valid.value, e.url);
      if next.None? { return 400; }
      ApplyRegistry(e, next.value, [name]);
      return 200;
    }

    /** `SetConcurrency`. */
    method SetConcurrency(e: Env, pool: string, n: int) returns (status: int)
      requires Valid()
      modifies this, Repr()
      ensures Valid() && fresh(Repr() - old(Repr()))
      ensures var v := JudgeConcurrency(old(View()), e, pool, n);
        View() == Enact(old(View()), e, v) && status == StatusOf(v)
    {
      hide Normalize, ReconcileTo, ConfigOf, C.Controller.View, Find, R.NormalizeAll, E.WithPoolConcurrency, Reconciled;
      var name := Normalize(pool);
      if n < 1 { return 400; }
      if name !in byPool { return 404; }
      var next := B.SetConcurrency(reg, name, n, e.url);
      if next.None? { return 400; }
      ApplyRegistry(e, next.value, [name]);
      return 200;
    }

    /** `SetMemberDisabled`. */
    method SetMemberDisabled(e: Env, pool: string, nick: string, off: bool) returns (status: int)
      requires Valid()
      modifies this, Repr()
      ensures Valid() && fresh(Repr() - old(Repr()))
      ensures var v := JudgeDisabled(old(View()), e, pool, nick, off);
        View() == Enact(old(View()), e, v) && status == StatusOf(v)
    {
      hide Normalize, ReconcileTo, ConfigOf, C.Controller.View, Find, R.NormalizeAll, E.WithMemberDisabled, Reconciled;
      var name, n := Normalize(pool), Normalize(nick);
      if n == "" { return 400; }
      if name !in byPool { return 404; }
      var present := Has(byPool[name], n);
      if !present { return 400; }
      var next := B.DisableMember(reg, name, n, off, e.url);
      if next.None? { return 400; }
      ApplyRegistry(e, next.value, [name]);
      return 200;
    }

    /** `RemoveMember`. */
    method RemoveMember(e: Env, pool: string, nick: string) returns (status: int)
      requires Valid()
      modifies this, Repr()
      ensures Valid() && fresh(Repr() - old(Repr()))
      ensures var v := JudgeRemove(old(View()), e, pool, nick);
        View() == Enact(old(View()), e, v) && status == StatusOf(v)
    {
      hide Normalize, ReconcileTo, ConfigOf, C.Controller.View, Find, R.NormalizeAll, E.WithMemberRemoved, Reconciled;
      var name, n := Normalize(pool), Normalize(nick);
      if n == "" { return 400; }
      if name !in byPool { return 404; }
      var present := Has(byPool[name], n);
      if !present { return 400; }
      var next := B.RemoveMember(reg, name, n, e.url);
      if next.None? { return 400; }
      ApplyRegistry(e, next.value, [name]);
      return 200;
    }

    /** The checks of `addMemberLocked`. */
    method ScreenMember(e: Env, name: string, nick: string, cred: string, baseURL: string, placement: seq<string>)
        returns (to: Screened)
      requires nick != ""
      ensures to == ScreenAdd(View(), e, name, nick, cred, baseURL, placement)
    {
      hide Normalize, ReconcileTo, ConfigOf, C.Controller.View, Find, R.NormalizeAll, Borrow, PoolDefault, Placed, Default;
      if baseURL != "" && !R.ValidURL(e.url, baseURL) { return Refused(400); }
      if name !in byPool { return Refused(404); }
      var src := BorrowFrom(name, nick, cred, baseURL);
      if src.None? { return Refused(400); }
      var present := Has(byPool[name], nick);
      if present { return Refused(409); }
      var order := CheckPlacement(byPool[name], nick, placement);
      if order.None? { return Refused(400); }
      var at := src.value.baseURL;
      if at == "" {
        at := DefaultFor(e, byPool[name]);
        DefaultIs(View(), e, byPool[name].View());
      }
      return Passed(src.value.credential, at);
    }

    /** `addMemberLocked`. */
    method AddLocked(e: Env, name: string, nick: string, cred: string, baseURL: string, placement: seq<string>)
        returns (status: int)
      requires Valid() && nick != ""
      modifies this, Repr()
      ensures Valid() && byPool == old(byPool)
      ensures var v := JudgeAdd(old(View()), e, name, nick, cred, baseURL, placement);
        View() == Enact(old(View()), e, v) && status == StatusOf(v)
    {
      hide Normalize, ReconcileTo, ConfigOf, C.Controller.View, Find, R.NormalizeAll, Added, ScreenAdd, Reconciled;
      var to := ScreenMember(e, name, nick, cred, baseURL, placement);
      if to.Refused? { return to.status; }
      if name !in byPool { return 404; }
      var ordered := Ordered(byPool[name]);
      var next := AddToRegistry(e, name, nick, to.credential, to.at, ordered, R.NormalizeAll(placement));
      if next.None? { return 400; }
      ApplyRegistry(e, next.value, [name]);
      return 200;
    }

    method AddToRegistry(e: Env, name: string, nick: string, cred: string, at: string, ordered: bool, order: seq<string>)
        returns (next: Option<R.Registry>)
      ensures next == Added(reg, e, name, nick, cred, at, ordered, order)
    {
      hide E.WithMemberSet, E.WithPriority;
      next := B.SetMember(reg, name, nick, cred, at, false, e.url);
      if next.Some? && ordered {
        next := B.SetPriority(next.value, name, order, e.url);
      }
    }

    method MoveInRegistry(e: Env, from: string, to: string, nick: string, cred: string, at: string, ordered: bool,
                          order: seq<string>) returns (next: Option<R.Registry>)
      ensures next == Relocated(reg, e, from, to, nick, cred, at, ordered, order)
    {
      hide Added, E.WithMemberRemoved;
      next := AddToRegistry(e, to, nick, cred, at, ordered, order);
      if next.Some? {
        next := B.RemoveMember(next.value, from, nick, e.url);
      }
    }

    static method Ordered(c: C.Controller) returns (r: bool)
      ensures r == (c.View().declared != []) && c.View().declared == c.declaredPriority
    {
      r := c.declaredPriority != [];
    }

    /** `AddMember`. */
    method AddMember(e: Env, pool: string, nick: string, cred: string, baseURL: string, placement: seq<string>) returns (status: int)
      requires Valid()
      modifies this, Repr()
      ensures Valid() && fresh(Repr() - old(Repr()))
      ensures var v := JudgeAddMember(old(View()), e, pool, nick, cred, baseURL, placement);
        View() == Enact(old(View()), e, v) && status == StatusOf(v)
    {
      hide Normalize, ReconcileTo, ConfigOf, C.Controller.View, Find, R.NormalizeAll, JudgeAdd, Reconciled;
      if Normalize(nick) == "" { return 400; }
      status := AddLocked(e, Normalize(pool), Normalize(nick), cred, baseURL, placement);
    }

    /** `UpsertMember`. */
    method UpsertMember(e: Env, pool: string, nick: string, cred: string, baseURL: string, placement: seq<string>) returns (status: int)
      requires Valid()
      modifies this, Repr()
      ensures Valid() && fresh(Repr() - old(Repr()))
      ensures var v := JudgeUpsert(old(View()), e, pool, nick, cred, baseURL, placement);
        View() == Enact(old(View()), e, v) && status == StatusOf(v)
    {
      hide Normalize, ReconcileTo, ConfigOf, C.Controller.View, Find, R.NormalizeAll, JudgeAdd, Reconciled, SharedElsewhere, Rotate;
      var name, n := Normalize(pool), Normalize(nick);
      if n == "" || cred == "" { return 400; }
      if name !in byPool { return 404; }
      var current := ResolveIn(reg, name, n);
      if current.None? {
        status := AddLocked(e, name, n, cred, baseURL, placement);
        return;
      }
      if current.value.credential == cred { return 200; }
      var shared := IsShared(name, n);
      if shared { return 409; }
      status := RotateLocked(e, name, n, cred);
    }

    method IsShared(name: string, nick: string) returns (shared: bool)
      ensures shared == SharedElsewhere(reg, name, nick)
    {
      hide ResolveIn;
      var names := SortKeys(reg.pools.Keys);
      AllListed(reg.pools.Keys, names);
      for i := 0 to |names|
        invariant forall p :: p in names[..i] && p != name ==> ResolveIn(reg, p, nick).None?
      {
        if names[i] != name && ResolveIn(reg, names[i], nick).Some? {
          assert names[i] in names;
          return true;
        }
      }
      return false;
    }

    /** Changes a member's credential and nothing else of its declaration. */
    method RotateLocked(e: Env, name: string, nick: string, cred: string) returns (status: int)
      requires Valid()
      modifies this, Repr()
      ensures Valid() && byPool == old(byPool)
      ensures var s := old(View());
        var v := if name !in s.reg.pools then Reject(404) else OrReject(Rotate(s.reg, name, nick, cred, e.url), 400, [name]);
        View() == Enact(s, e, v) && status == StatusOf(v)
    {
      hide Normalize, ReconcileTo, ConfigOf, C.Controller.View, Find, R.NormalizeAll, R.Build, R.SpecOf, Reconciled;
      SpecKeysOf(reg);
      var spec := B.DeriveSpec(reg);
      if name !in spec { return 404; }
      if nick !in spec[name].members { return 400; }
      var ps := spec[name];
      var members := ps.members[nick := ps.members[nick].(credential := cred)];
      var next := B.BuildFromSpec(spec[name := ps.(members := members)], reg.defaultURL, e.url);
      if next.None? { return 400; }
      ApplyRegistry(e, next.value, [name]);
      return 200;
    }

    /** `MoveMember`. */
    method MoveMember(e: Env, fromPool: string, nick: string, toPool: string, placement: seq<string>, force: bool) returns (status: int)
      requires Valid()
      modifies this, Repr()
      ensures Valid() && fresh(Repr() - old(Repr()))
      ensures var v := JudgeMove(old(View()), e, fromPool, nick, toPool, placement, force);
        View() == Enact(old(View()), e, v) && status == StatusOf(v)
    {
      hide Normalize, ReconcileTo, ConfigOf, C.Controller.View, Find, R.NormalizeAll, Relocated, ScreenMove, Reconciled;
      var from, to, n := Normalize(fromPool), Normalize(toPool), Normalize(nick);
      var m := ScreenSource(from, to, n, placement, force);
      if m.Refused? { return m.status; }
      if to !in byPool { return 404; }
      var there := Has(byPool[to], n);
      var ordered := Ordered(byPool[to]);
      var next := MoveInRegistry(e, from, to, n, m.credential, m.at, !there && ordered, R.NormalizeAll(placement));
      if next.None? { return 400; }
      ApplyRegistry(e, next.value, [from, to]);
      return 200;
    }

    /** The checks of `MoveMember` on its source and its target. */
    method ScreenSource(from: string, to: string, n: string, placement: seq<string>, force: bool) returns (r: Screened)
      ensures r == ScreenMove(View(), from, to, n, placement, force)
    {
      hide C.Controller.View, Find, Placed;
      if n == "" || from == to { return Refused(400); }
      if from !in byPool || to !in byPool { return Refused(404); }
      var m := MemberOf(byPool[from], n);
      if m.None? { return Refused(400); }
      var there := MemberOf(byPool[to], n);
      if there.Some? {
        if (there.value.credential != m.value.credential || there.value.baseURL != m.value.baseURL) && !force {
          return Refused(409);
        }
      } else {
        var placed := CheckPlacement(byPool[to], n, placement);
        if placed.None? { return Refused(400); }
      }
      return Passed(m.value.credential, m.value.baseURL);
    }

    static method MemberOf(c: C.Controller, nick: string) returns (r: Option<Member>)
      ensures r == Find(c.View().members, nick)
    {
      r := Find(c.members, nick);
    }

    /** `CreatePoolWithMember`; `AddPool` when no nick is given. */
    method CreatePoolWithMember(e: Env, pool: string, mode: string, nick: string, cred: string, baseURL: string,
                                placement: seq<string>) returns (status: int)
      requires Valid()
      modifies this, Repr()
      ensures Valid() && fresh(Repr() - old(Repr()))
      ensures var v := JudgeCreate(old(View()), e, pool, mode, nick, cred, baseURL, placement);
        View() == Enact(old(View()), e, v) && status == StatusOf(v)
    {
      hide Normalize, ConfigOf, C.Controller.View, E.WithPoolCreated, FirstMember, Fresh, NewCtl, WellAsked;
      var name, n := Normalize(pool), Normalize(nick);
      if !WellAsked(e, name, mode, n, baseURL, placement) { return 400; }
      if name in byPool || HasPool(reg, name) { return 409; }
      var next := B.CreatePool(reg, name, e.url);
      if next.None? { return 409; }
      if n != "" {
        next := AddFirst(e, next.value, name, n, cred, baseURL, placement);
        if next.None? { return 400; }
      }
      InsertController(e, next.value, name);
      return 201;
    }

    method AddFirst(e: Env, next: R.Registry, name: string, n: string, cred: string, baseURL: string, placement: seq<string>)
        returns (filled: Option<R.Registry>)
      ensures filled == FirstMember(View(), e, next, name, n, cred, baseURL, placement)
    {
      hide E.WithMemberSet, Borrow, C.Controller.View;
      var src := BorrowFrom(name, n, cred, baseURL);
      if src.None? { return None; }
      var at := if src.value.baseURL != "" then src.value.baseURL else if e.gateway != "" then e.gateway else reg.defaultURL;
      filled := B.SetMember(next, name, n, src.value.credential, at, false, e.url);
      if placement != [] { return None; }
    }

    method InsertController(e: Env, next: R.Registry, name: string)
      requires Valid() && name !in byPool
      modifies this
      ensures Valid() && fresh(Repr() - old(Repr()))
      ensures View() == Enact(old(View()), e, Insert(next, name))
    {
      hide ConfigOf, C.Controller.View, Fresh, NewCtl;
      ghost var s := View();
      var c := NewController(next, name, e.w);
      reg, byPool := next, byPool[name := c];
      Inserted(s, View(), next, name, Fresh(NewCtl(ConfigOf(next, name)), e.w));
    }

    static method Drained(c: C.Controller) returns (r: bool)
      ensures r == (c.View().members == [])
    {
      r := c.members == [];
    }

    /** `RemovePool`: only a drained pool goes. */
    method RemovePool(e: Env, pool: string) returns (status: int)
      requires Valid()
      modifies this
      ensures Valid() && Repr() <= old(Repr())
      ensures var v := JudgeRemovePool(old(View()), e, pool);
        View() == Enact(old(View()), e, v) && status == StatusOf(v)
    {
      hide Normalize, E.WithPoolRemoved, C.Controller.View;
      var name := Normalize(pool);
      if name == "" { return 400; }
      if name !in byPool { return 404; }
      var drained := Drained(byPool[name]);
      if !drained { return 409; }
      var next := B.RemovePool(reg, name, e.url);
      if next.None? { return 404; }
      ghost var s := View();
      reg, byPool := next.value, byPool - {name};
      Dropped(s, View(), next.value, name);
      return 200;
    }

    /** `RenamePool`: the same controller under another name, its observations untouched. */
    method RenamePool(e: Env, pool: string, to: string) returns (status: int)
      requires Valid()
      modifies this
      ensures Valid() && Repr() == old(Repr())
      ensures var v := JudgeRename(old(View()), e, pool, to);
        View() == Enact(old(View()), e, v) && status == StatusOf(v)
    {
      hide Normalize, E.WithPoolRenamed, C.Controller.View;
      var from, name := Normalize(pool), Normalize(to);
      if from == "" || name == "" || from == name { return 400; }
      if from !in byPool || !HasPool(reg, from) { return 404; }
      if name in byPool || HasPool(reg, name) { return 409; }
      var next := B.RenamePool(reg, from, name, e.url);
      if next.None? { return 400; }
      ghost var s := View();
      MoveKey(from, name);
      reg := next.value;
      Renamed(s, View(), next.value, from, name);
      return 200;
    }

    method MoveKey(from: string, to: string)
      requires Valid() && from in byPool && to !in byPool
      modifies this`byPool
      ensures Valid() && Repr() == old(Repr()) && byPool.Keys == old(byPool).Keys - {from} + {to}
      ensures byPool[to] == old(byPool)[from] && forall n :: n in byPool && n != to ==> byPool[n] == old(byPool)[n]
    {
      var c := byPool[from];
      ghost var was := Repr();
      byPool := (byPool - {from})[to := c];
      forall o | o in was ensures o in Repr() {
        var n :| n in old(byPool) && old(byPool)[n] == o;
        assert n == from ==> byPool[to] == o;
        assert n != from ==> n in byPool && byPool[n] == o;
      }
    }
  }

  /** An order over members, and `newcomer` if that is a nick. */
  ghost predicate Orderly(c: Ctl, newcomer: string, order: seq<string>) {
    && Distinct(R.NormalizeAll(order)) && "" !in R.NormalizeAll(order)
    && forall n :: n in R.NormalizeAll(order) ==> n == newcomer || IsMember(c, n)
  }

  lemma PlacementIs(c: Ctl, nick: string, placement: seq<string>)
    requires placement != []
    ensures ValidPlacement(c, nick, placement) <==> Orderly(c, nick, placement) && nick in R.NormalizeAll(placement)
  {
    hide Normalize, Find;
    assert |R.NormalizeAll(placement)| == |placement|;
  }

  function LentCred(r: R.Registry, skip: string, nick: string, p: string): string {
    var b := ResolveIn(r, p, nick);
    if p != skip && b.Some? then b.value.credential else ""
  }

  function LentURL(r: R.Registry, skip: string, nick: string, p: string): string {
    var b := ResolveIn(r, p, nick);
    if p != skip && b.Some? then b.value.baseURL else ""
  }

  ghost predicate Yields(f: string -> string, names: seq<string>, x: string) {
    x != "" && exists p :: p in names && f(p) == x
  }

  lemma YieldsNone(f: string -> string, names: seq<string>)
    requires names == []
    ensures forall x :: !Yields(f, names, x)
  {
  }

  lemma YieldsMore(f: string -> string, names: seq<string>, i: nat)
    requires i < |names|
    ensures forall x :: Yields(f, names[..i + 1], x) <==> Yields(f, names[..i], x) || (x != "" && x == f(names[i]))
  {
    assert names[..i + 1] == names[..i] + [names[i]];
    assert names[i] in names[..i + 1];
    forall x ensures Yields(f, names[..i + 1], x) <==> Yields(f, names[..i], x) || (x != "" && x == f(names[i])) {
      if Yields(f, names[..i], x) {
        var p :| p in names[..i] && f(p) == x;
        assert p in names[..i + 1];
      }
    }
  }

  lemma CrossIs(r: R.Registry, skip: string, nick: string, names: seq<string>, creds: seq<string>, urls: seq<string>)
    requires forall p :: p in r.pools.Keys <==> p in names
    requires forall x :: x in creds <==> Yields(p => LentCred(r, skip, nick, p), names, x)
    requires forall x :: x in urls <==> Yields(p => LentURL(r, skip, nick, p), names, x)
    ensures Elems(creds) == CredsElsewhere(r, skip, nick) && Elems(urls) == URLsElsewhere(r, skip, nick)
  {
    hide ResolveIn;
    forall x ensures x in Elems(creds) <==> x in CredsElsewhere(r, skip, nick) {
      if x in CredsElsewhere(r, skip, nick) {
        var p :| p in r.pools && LentCred(r, skip, nick, p) == x && x != "";
        assert p in names;
      }
    }
    forall x ensures x in Elems(urls) <==> x in URLsElsewhere(r, skip, nick) {
      if x in URLsElsewhere(r, skip, nick) {
        var p :| p in r.pools && LentURL(r, skip, nick, p) == x && x != "";
        assert p in names;
      }
    }
  }

  lemma CountIs(s: seq<string>, names: set<string>)
    requires Distinct(s) && Elems(s) == names
    ensures |s| == |names| && (|names| == 1 ==> TheOne(names) == s[0])
  {
    DistinctSize(s);
    if |names| == 1 {
      assert s[0] in Elems(s);
    }
  }

  lemma PropagateAuthClearAll(s: State, t: State, w: World, origin: string, nick: string)
    requires t.reg == s.reg && t.ctls.Keys == s.ctls.Keys
    requires forall p :: p in s.ctls ==>
               t.ctls[p] == if p in Siblings(s, origin, nick) then ClearAuth(s.ctls[p], w, nick) else s.ctls[p]
    ensures t == ClearAuthSiblings(s, w, origin, nick)
  {
    hide Siblings, ClearAuth;
  }

  lemma PropagateClearAll(s: State, t: State, origin: string, nick: string)
    requires t.reg == s.reg && t.ctls.Keys == s.ctls.Keys
    requires forall p :: p in s.ctls ==>
               t.ctls[p] == if p in Siblings(s, origin, nick) then ClearMirror(s.ctls[p], nick) else s.ctls[p]
    ensures t == ClearSiblings(s, origin, nick)
  {
    hide Siblings, ClearMirror;
  }

  lemma OneChanged(s: State, t: State, n: string, c: Ctl)
    requires t.reg == s.reg && t.ctls.Keys == s.ctls.Keys && n in s.ctls && t.ctls[n] == c
    requires forall p :: p in s.ctls && p != n ==> t.ctls[p] == s.ctls[p]
    ensures t == s.(ctls := s.ctls[n := c])
  {
  }

  lemma {:induction false} RegFirst(s: State, t: State, e: Env, next: R.Registry, pools: seq<string>)
    requires t == s.(reg := next)
    ensures Reconciled(t, e, next, pools) == Reconciled(s, e, next, pools)
    decreases |pools|
  {
    hide ReconcileTo, ConfigOf;
    if pools != [] {
      var n := pools[0];
      if n in s.ctls {
        var ctls := s.ctls[n := ReconcileTo(s.ctls[n], e.w, ConfigOf(next, n), e.ok)];
        RegFirst(s.(ctls := ctls), t.(ctls := ctls), e, next, pools[1..]);
      } else {
        RegFirst(s, t, e, next, pools[1..]);
      }
    }
  }

  lemma ParkedAll(s: State, t: State, origin: string, nick: string, entry: Park)
    requires t.reg == s.reg && t.ctls.Keys == s.ctls.Keys
    requires forall p :: p in s.ctls ==>
               t.ctls[p] == if p in Siblings(s, origin, nick) then Deliver(s.ctls[p], nick, entry) else s.ctls[p]
    ensures t == ParkSiblings(s, origin, nick, entry)
  {
    hide Siblings, Deliver;
  }

  lemma IsSibling(s: State, origin: string, nick: string, p: string)
    ensures p in Siblings(s, origin, nick) <==>
              p in s.reg.pools && p in s.ctls && p != origin && ResolveIn(s.reg, p, nick).Some?
  {
    hide ResolveIn;
  }

  lemma SiblingsHold(s: State, origin: string, nick: string)
    ensures forall p :: p in Siblings(s, origin, nick) ==> p in s.reg.pools
  {
    hide ResolveIn;
  }

  lemma InListing(keys: set<string>, names: seq<string>, i: nat)
    requires names == Listing(keys) && i < |names|
    ensures names[i] in keys && names[i] !in names[..i]
    ensures forall p :: p in names[..i + 1] <==> p in names[..i] || p == names[i]
  {
    hide Listing;
    ListingDistinct(keys);
    assert names[..i + 1] == names[..i] + [names[i]];
  }

  lemma AllListed(keys: set<string>, names: seq<string>)
    requires names == Listing(keys)
    ensures names[..|names|] == names && forall p :: p in keys <==> p in names
  {
    hide Listing;
    ListingDistinct(keys);
  }

  lemma OrderlyIs(c: Ctl, order: seq<string>)
    ensures Orderly(c, "", order) <==> ValidOrder(c, order)
  {
    hide Normalize, Find;
  }

  lemma SpecKeysOf(r: R.Registry)
    ensures R.SpecOf(r).Keys == r.pools.Keys
  {
    R.SpecKeys(r);
  }

  lemma DefaultIs(s: State, e: Env, c: Ctl)
    ensures PoolDefault(State(s.reg, map[]), e, c) == PoolDefault(s, e, c)
  {
  }

  lemma Inserted(s: State, t: State, next: R.Registry, name: string, c: Ctl)
    requires t.reg == next && t.ctls.Keys == s.ctls.Keys + {name} && t.ctls[name] == c
    requires forall n :: n in s.ctls && n != name ==> t.ctls[n] == s.ctls[n]
    ensures t == State(next, s.ctls[name := c])
  {
  }

  lemma Dropped(s: State, t: State, next: R.Registry, name: string)
    requires t.reg == next && t.ctls.Keys == s.ctls.Keys - {name}
    requires forall n :: n in t.ctls ==> t.ctls[n] == s.ctls[n]
    ensures t == State(next, s.ctls - {name})
  {
  }

  lemma Renamed(s: State, t: State, next: R.Registry, from: string, to: string)
    requires from in s.ctls && to !in s.ctls && from != to
    requires t.reg == next && t.ctls.Keys == s.ctls.Keys - {from} + {to} && t.ctls[to] == s.ctls[from]
    requires forall n :: n in t.ctls && n != to ==> t.ctls[n] == s.ctls[n]
    ensures t == State(next, (s.ctls - {from})[to := s.ctls[from]])
  {
  }
}
