/**
 Several keys of the legacy overlay may mean one pool. A map yields its keys in any order,
 and each key is judged against the registry the start began with: exactly when the outcome
 is determined all the same, and exactly when a rerun keeps it.
 */
module KeyOrder {
  import opened Common
  import opened Names
  import R = Registry
  import opened E = RegistryEdits
  import opened M = Mutations
  import opened Migration

  /** The order a key asks for, as the registry would store it. */
  ghost function OrderOf(r: R.Registry, st: Overlay, raw: string): seq<string> {
    if raw in st then StoredOrder(Surviving(r, st, raw)) else []
  }

  /** The loop gives pool `p` the order of key `raw`. */
  ghost predicate Acts(r: R.Registry, st: Overlay, raw: string, p: string) {
    raw in st && Effective(r, st, raw) && Twice(raw) == p
  }

  /** Keys of one pool that list something else than it has now list the same. */
  ghost predicate Determined(r: R.Registry, st: Overlay) {
    forall a, b, p :: Acts(r, st, a, p) && Acts(r, st, b, p) ==> OrderOf(r, st, a) == OrderOf(r, st, b)
  }

  // --------------------------------------------------- the loop in closed form

  ghost function WithOrder(r: R.Registry, p: string, order: seq<string>): R.Registry
    requires p in r.pools
  {
    r.(pools := r.pools[p := r.pools[p].(priority := order)])
  }

  /** The order of the last key that acts on the pool. */
  ghost function LastOrder(r: R.Registry, st: Overlay, raws: seq<string>, p: string, was: seq<string>): seq<string>
    decreases |raws|
  {
    if raws == [] then was
    else LastOrder(r, st, raws[1..], p, if Acts(r, st, raws[0], p) then OrderOf(r, st, raws[0]) else was)
  }

  ghost function SetAll(r: R.Registry, now: R.Registry, st: Overlay, raws: seq<string>): R.Registry {
    now.(pools := map p | p in now.pools :: now.pools[p].(priority := LastOrder(r, st, raws, p, now.pools[p].priority)))
  }

  lemma SetOrder(r: R.Registry, pool: string, order: seq<string>, url: R.UrlCheck)
    requires Sane(r, url) && Normalize(pool) in r.pools
    requires Distinct(StoredOrder(order)) && forall n :: n in StoredOrder(order) ==> n in r.pools[Normalize(pool)].byNick
    ensures WithPriority(r, pool, order, url) == Some(WithOrder(r, Normalize(pool), StoredOrder(order)))
    ensures Sane(WithOrder(r, Normalize(pool), StoredOrder(order)), url)
  {
    hide Normalize, WithPriority, Sane, R.NormalizeAll;
    StoredIs(order);
    PriorityAccepted(r, pool, order, url);
    PriorityEffect(r, pool, order, url);
    WithPrioritySane(r, pool, order, url);
  }

  /** One key the loop acts on: set, or refused. */
  lemma ActStep(r: R.Registry, now: R.Registry, st: Overlay, raw: string, url: R.UrlCheck)
    requires Sane(r, url) && Sane(now, url) && SameNames(r, now) && Migrates(r, st, raw) && Surviving(r, st, raw) != []
    ensures Twice(raw) in now.pools
    ensures var out := WithPriority(now, Normalize(raw), Surviving(r, st, raw), url);
      if Usable(r, st, raw)
      then out == Some(WithOrder(now, Twice(raw), OrderOf(r, st, raw))) && Sane(out.value, url) && SameNames(r, out.value)
      else out.None?
  {
    hide Normalize, WithPriority, Sane, Surviving, StoredOrder;
    StoredMembers(r, st, raw, url);
    if Usable(r, st, raw) {
      SetOrder(now, Normalize(raw), Surviving(r, st, raw), url);
    } else if WithPriority(now, Normalize(raw), Surviving(r, st, raw), url).Some? {
      AcceptedDistinct(now, Normalize(raw), Surviving(r, st, raw), url);
    }
  }

  lemma SetNext(r: R.Registry, now: R.Registry, st: Overlay, raws: seq<string>)
    requires raws != [] && Acts(r, st, raws[0], Twice(raws[0])) && Twice(raws[0]) in now.pools
    ensures SetAll(r, WithOrder(now, Twice(raws[0]), OrderOf(r, st, raws[0])), st, raws[1..]) == SetAll(r, now, st, raws)
  {
    hide Normalize, Effective, Surviving, StoredOrder;
    var next := WithOrder(now, Twice(raws[0]), OrderOf(r, st, raws[0]));
    assert SetAll(r, next, st, raws[1..]).pools == SetAll(r, now, st, raws).pools;
  }

  lemma SkipNext(r: R.Registry, now: R.Registry, st: Overlay, raws: seq<string>)
    requires raws != [] && !Effective(r, st, raws[0])
    ensures SetAll(r, now, st, raws[1..]) == SetAll(r, now, st, raws)
  {
    hide Normalize, Effective, Surviving, StoredOrder;
    assert SetAll(r, now, st, raws[1..]).pools == SetAll(r, now, st, raws).pools;
  }

  lemma {:induction false} ApplyForm(r: R.Registry, now: R.Registry, st: Overlay, raws: seq<string>, url: R.UrlCheck)
    requires Sane(r, url) && Sane(now, url) && SameNames(r, now)
    requires forall raw :: raw in raws ==> Migrates(r, st, raw) && Surviving(r, st, raw) != []
    ensures var out := Apply(r, now, st, raws, url);
      if forall raw :: raw in raws && Effective(r, st, raw) ==> Usable(r, st, raw)
      then out == Some(SetAll(r, now, st, raws)) && Sane(out.value, url)
      else out.None?
    decreases |raws|
  {
    hide Normalize, WithPriority, Sane, Surviving, Migrates, Usable, Effective, SetAll, WithOrder, SameNames;
    if raws == [] {
      NothingSet(r, now, st);
    } else {
      var raw, rest := raws[0], raws[1..];
      assert forall x :: x in raws <==> x == raw || x in rest;
      assert raw in raws;
      if Effective(r, st, raw) {
        MigratesIn(r, st, raw);
        ActStep(r, now, st, raw, url);
        if Usable(r, st, raw) {
          var next := WithPriority(now, Normalize(raw), Surviving(r, st, raw), url).value;
          SetNext(r, now, st, raws);
          ApplyForm(r, next, st, rest, url);
        }
      } else {
        SkipNext(r, now, st, raws);
        ApplyForm(r, now, st, rest, url);
      }
    }
  }

  lemma NothingSet(r: R.Registry, now: R.Registry, st: Overlay)
    ensures SetAll(r, now, st, []) == now
  {
    assert SetAll(r, now, st, []).pools == now.pools;
  }

  /** A key whose pool already has its order can be used. */
  lemma IdleIsUsable(r: R.Registry, st: Overlay, raw: string, url: R.UrlCheck)
    requires Sane(r, url) && Migrates(r, st, raw) && !Effective(r, st, raw)
    ensures Twice(raw) in r.pools && OrderOf(r, st, raw) == Surviving(r, st, raw) == r.pools[Twice(raw)].priority
    ensures Surviving(r, st, raw) != [] ==> Usable(r, st, raw)
  {
    hide Normalize, Surviving, StoredOrder, R.PoolWF, R.CanonicalPool;
    OwnOrderStored(r, Twice(raw), url);
  }

  /** The priority stage with the keys coming up as `raws`. */
  lemma MigratedForm(r: R.Registry, st: Overlay, raws: seq<string>, url: R.UrlCheck)
    requires Sane(r, url) && ComesUp(r, st, raws)
    ensures var out := Migrated(r, st, raws, url);
      if Refuses(r, st) then out.None? else out == Some(SetAll(r, r, st, raws)) && Sane(out.value, url)
  {
    hide Normalize, Sane, Surviving, Migrates, Unusable, Effective, SetAll, Apply;
    if Hopeless(r, st) {
      SomeUnusable(r, st);
    } else {
      ApplyForm(r, r, st, raws, url);
      forall raw | raw in raws ensures raw in st && (!Effective(r, st, raw) ==> Usable(r, st, raw)) {
        MigratesIn(r, st, raw);
        if !Effective(r, st, raw) { IdleIsUsable(r, st, raw, url); }
      }
    }
  }

  // ------------------------------------------------------ who has the last word

  lemma {:induction false} LastSpeaks(r: R.Registry, st: Overlay, raws: seq<string>, p: string, was: seq<string>)
    ensures var o := LastOrder(r, st, raws, p, was);
      if exists raw :: raw in raws && Acts(r, st, raw, p)
      then exists raw :: raw in raws && Acts(r, st, raw, p) && o == OrderOf(r, st, raw)
      else o == was
    decreases |raws|
  {
    hide Acts, OrderOf;
    if raws != [] {
      LastSpeaks(r, st, raws[1..], p, if Acts(r, st, raws[0], p) then OrderOf(r, st, raws[0]) else was);
      assert forall x :: x in raws <==> x == raws[0] || x in raws[1..];
    }
  }

  lemma {:induction false} LastWins(r: R.Registry, st: Overlay, raws: seq<string>, x: string, p: string, was: seq<string>)
    requires Acts(r, st, x, p)
    ensures LastOrder(r, st, raws + [x], p, was) == OrderOf(r, st, x)
    decreases |raws|
  {
    hide Acts, OrderOf;
    if raws == [] {
      assert (raws + [x])[1..] == [];
    } else {
      assert (raws + [x])[1..] == raws[1..] + [x];
      LastWins(r, st, raws[1..], x, p, if Acts(r, st, raws[0], p) then OrderOf(r, st, raws[0]) else was);
    }
  }

  /** Any key may come up last. */
  lemma ComesLast(r: R.Registry, st: Overlay, x: string) returns (raws: seq<string>)
    requires Migrates(r, st, x)
    ensures ComesUp(r, st, raws + [x])
  {
    hide Migrates;
    var names := set raw | raw in st.Keys && Migrates(r, st, raw) && raw != x;
    raws := Listing(names);
    assert x !in Elems(raws);
    forall raw ensures raw in raws + [x] <==> Migrates(r, st, raw) {
      MigratesIn(r, st, raw);
      assert raw in Elems(raws) <==> raw in names;
    }
  }

  /** With a key that acts on a pool coming up last, the pool ends with its order. */
  lemma LastSets(r: R.Registry, st: Overlay, x: string, p: string, url: R.UrlCheck) returns (raws: seq<string>)
    requires Sane(r, url) && !Refuses(r, st) && Acts(r, st, x, p) && p in r.pools
    ensures ComesUp(r, st, raws) && Migrated(r, st, raws, url).Some?
    ensures var d := Migrated(r, st, raws, url).value; p in d.pools && d.pools[p].priority == OrderOf(r, st, x)
  {
    hide Sane, Refuses, Migrated, ComesUp, OrderOf, Normalize;
    var before := ComesLast(r, st, x);
    raws := before + [x];
    MigratedForm(r, st, raws, url);
    LastWins(r, st, before, x, p, r.pools[p].priority);
  }

  ghost predicate AnyOrder(r: R.Registry, st: Overlay, url: R.UrlCheck) {
    forall a, b :: ComesUp(r, st, a) && ComesUp(r, st, b) ==> Migrated(r, st, a, url) == Migrated(r, st, b, url)
  }

  /**
   The outcome depends on map order exactly if it is not refused and two keys of one pool
   list different orders of which neither is the pool's own.
   */
  lemma OrderMattersExactly(r: R.Registry, st: Overlay, url: R.UrlCheck)
    requires Sane(r, url)
    ensures AnyOrder(r, st, url) <==> Refuses(r, st) || Determined(r, st)
  {
    hide Sane, Refuses, Migrated, ComesUp, OrderOf, Acts;
    if Refuses(r, st) {
      forall a | ComesUp(r, st, a) ensures Migrated(r, st, a, url).None? { MigratedForm(r, st, a, url); }
    } else if Determined(r, st) {
      forall a, b | ComesUp(r, st, a) && ComesUp(r, st, b) ensures Migrated(r, st, a, url) == Migrated(r, st, b, url) {
        MigratedForm(r, st, a, url);
        MigratedForm(r, st, b, url);
        SameSet(r, st, a, b);
      }
    } else {
      var x, y, p :| Acts(r, st, x, p) && Acts(r, st, y, p) && OrderOf(r, st, x) != OrderOf(r, st, y);
      ActsIn(r, st, x, p, url);
      var a := LastSets(r, st, x, p, url);
      var b := LastSets(r, st, y, p, url);
    }
  }

  lemma ActsIn(r: R.Registry, st: Overlay, x: string, p: string, url: R.UrlCheck)
    requires Sane(r, url) && Acts(r, st, x, p)
    ensures p in r.pools && Migrates(r, st, x)
  {
    hide Normalize, Surviving;
  }

  lemma SameSet(r: R.Registry, st: Overlay, a: seq<string>, b: seq<string>)
    requires Determined(r, st) && ComesUp(r, st, a) && ComesUp(r, st, b)
    ensures SetAll(r, r, st, a) == SetAll(r, r, st, b)
  {
    hide OrderOf, Acts, Migrates;
    forall p | p in r.pools
      ensures LastOrder(r, st, a, p, r.pools[p].priority) == LastOrder(r, st, b, p, r.pools[p].priority)
    {
      LastSpeaks(r, st, a, p, r.pools[p].priority);
      LastSpeaks(r, st, b, p, r.pools[p].priority);
      assert forall raw :: raw in a <==> raw in b;
    }
    assert SetAll(r, r, st, a).pools == SetAll(r, r, st, b).pools;
  }

  // --------------------------------------------------------------- the rerun

  ghost predicate RerunKeeps(r: R.Registry, st: Overlay, url: R.UrlCheck) {
    forall a, b :: ComesUp(r, st, a) && ComesUp(r, st, b) && Migrated(r, st, a, url).Some? ==>
      Migrated(Migrated(r, st, a, url).value, st, b, url) == Migrated(r, st, a, url)
  }

  lemma SetSameNames(r: R.Registry, st: Overlay, raws: seq<string>)
    ensures SameNames(r, SetAll(r, r, st, raws))
  {
    hide LastOrder;
  }

  lemma SameUp(r: R.Registry, d: R.Registry, st: Overlay)
    requires SameNames(r, d)
    ensures forall raws :: ComesUp(r, st, raws) <==> ComesUp(d, st, raws)
  {
    hide Migrates, SameNames;
    SameReading(r, d, st);
  }

  /**
   A start that died after its first write is rerun against what that write left. Exactly when keys
   of one pool agree does the rerun, whatever the two map orders, leave the priorities alone.
   */
  lemma RerunExactly(r: R.Registry, st: Overlay, url: R.UrlCheck)
    requires Sane(r, url) && !Refuses(r, st)
    ensures RerunKeeps(r, st, url) <==> OneOrder(r, st)
  {
    hide Sane, Refuses, Migrated, ComesUp, Priorities, OneOrder;
    if OneOrder(r, st) {
      forall a, b | ComesUp(r, st, a) && ComesUp(r, st, b) && Migrated(r, st, a, url).Some?
        ensures Migrated(Migrated(r, st, a, url).value, st, b, url) == Migrated(r, st, a, url)
      {
        AgreedRerun(r, st, a, b, url);
      }
    } else {
      Undone(r, st, url);
    }
  }

  lemma AgreedRerun(r: R.Registry, st: Overlay, a: seq<string>, b: seq<string>, url: R.UrlCheck)
    requires Sane(r, url) && !Refuses(r, st) && OneOrder(r, st) && ComesUp(r, st, a) && ComesUp(r, st, b)
    ensures Migrated(r, st, a, url).Some?
    ensures Migrated(Migrated(r, st, a, url).value, st, b, url) == Migrated(r, st, a, url)
  {
    hide Sane, Refuses, Migrated, ComesUp, OrderFor, OneOrder;
    MigratedIs(r, st, a, url);
    var d := Priorities(r, st);
    PrioritiesKeepNames(r, st, st.Keys);
    SameReading(r, d, st);
    SameUp(r, d, st);
    MigratedIs(d, st, b, url);
    PrioritiesTwice(r, d, st);
  }

  lemma Undone(r: R.Registry, st: Overlay, url: R.UrlCheck)
    requires Sane(r, url) && !Refuses(r, st) && !OneOrder(r, st)
    ensures !RerunKeeps(r, st, url)
  {
    hide Sane, Refuses, Migrated, ComesUp, InScope, Surviving, StoredOrder;
    var x, y :| Migrates(r, st, x) && Migrates(r, st, y) && Twice(x) == Twice(y)
                && StoredOrder(Surviving(r, st, x)) != StoredOrder(Surviving(r, st, y));
    MigratesIn(r, st, x);
    MigratesIn(r, st, y);
    if Effective(r, st, x) {
      UndoneBy(r, st, x, y, url);
    } else {
      IdleIsUsable(r, st, x, url);
      if !Effective(r, st, y) { IdleIsUsable(r, st, y, url); }
      UndoneBy(r, st, y, x, url);
    }
  }

  lemma UndoneBy(r: R.Registry, st: Overlay, x: string, y: string, url: R.UrlCheck)
    requires Sane(r, url) && !Refuses(r, st) && Effective(r, st, x) && Migrates(r, st, y) && Twice(x) == Twice(y)
    requires x in st && y in st && OrderOf(r, st, x) != OrderOf(r, st, y)
    ensures !RerunKeeps(r, st, url)
  {
    hide Sane, Refuses, Migrated, ComesUp, Surviving, StoredOrder, Normalize, SetAll;
    var p := Twice(x);
    ActsIn(r, st, x, p, url);
    var a := LastSets(r, st, x, p, url);
    var d := Migrated(r, st, a, url).value;
    MigratedForm(r, st, a, url);
    SetSameNames(r, st, a);
    SameReading(r, d, st);
    SameUp(r, d, st);
    if !Effective(d, st, y) { IdleIsUsable(d, st, y, url); }
    var b := LastSets(d, st, y, p, url);
  }

  // --------------------------------------------------- the rerun of a whole start

  /** A start that nothing interrupts, with the keys coming up as `raws`. */
  ghost function StartOver(f: Files, raws: seq<string>, url: R.UrlCheck): Files {
    var next := Migrated(f.config, f.overlay, raws, url);
    if next.None? then f else Written(f, next.value, 3)
  }

  /** The files after `k` writes of a start with the keys in order `a`. */
  ghost function Broken(f: Files, a: seq<string>, k: nat, url: R.UrlCheck): Files {
    var next := Migrated(f.config, f.overlay, a, url);
    if next.None? then f else Written(f, next.value, k)
  }

  ghost predicate Rerun(f: Files, a: seq<string>, k: nat, b: seq<string>, url: R.UrlCheck) {
    var g := Broken(f, a, k, url);
    ComesUp(f.config, f.overlay, a) && k <= 3 && ComesUp(g.config, g.overlay, b)
  }

  /** Whatever the map orders and wherever the crash, a rerun ends as the first start would have. */
  ghost predicate CrashKeeps(f: Files, url: R.UrlCheck) {
    forall a, k, b :: Rerun(f, a, k, b, url) ==> StartOver(Broken(f, a, k, url), b, url) == Broken(f, a, 3, url)
  }

  /** The same registry but for the orders. */
  ghost predicate SameButOrders(a: R.Registry, b: R.Registry) {
    && a.defaultURL == b.defaultURL && a.pools.Keys == b.pools.Keys
    && forall p :: p in a.pools ==> a.pools[p].(priority := b.pools[p].priority) == b.pools[p]
  }

  lemma SetSameButOrders(r: R.Registry, now: R.Registry, st: Overlay, raws: seq<string>)
    ensures SameButOrders(now, SetAll(r, now, st, raws)) && SameNames(now, SetAll(r, now, st, raws))
  {
    hide LastOrder;
  }

  lemma DisabledSameButOrders(a: R.Registry, b: R.Registry, flags: set<Flag>)
    requires SameButOrders(a, b)
    ensures SameButOrders(Disabled(a, flags), Disabled(b, flags)) && SameNames(a, b)
    ensures Disabled(a, flags) == Disabled(b, flags) ==> a == b
  {
    var x, y := Disabled(a, flags), Disabled(b, flags);
    assert forall p :: p in a.pools ==> a.pools[p].byNick == b.pools[p].byNick;
    forall p | p in a.pools ensures x.pools[p].(priority := y.pools[p].priority) == y.pools[p] {
      assert x.pools[p].byNick == y.pools[p].byNick;
    }
    if x == y {
      forall p | p in a.pools ensures a.pools[p] == b.pools[p] { assert x.pools[p].priority == y.pools[p].priority; }
      assert a.pools == b.pools;
    }
  }

  lemma DisabledPool(r: R.Registry, flags: set<Flag>, p: string, url: R.UrlCheck)
    requires p in r.pools && R.PoolWF(p, r.pools[p], r.defaultURL, url) && R.CanonicalPool(r.pools[p])
    ensures var d := Disabled(r, flags); R.PoolWF(p, d.pools[p], d.defaultURL, url) && R.CanonicalPool(d.pools[p])
  {
    hide Normalize, Listing;
    assert Disabled(r, flags).pools[p].byNick.Keys == r.pools[p].byNick.Keys;
  }

  lemma DisabledCredentials(r: R.Registry, flags: set<Flag>, p: string, q: string)
    requires p in r.pools && q in r.pools && R.OneCredential(r.pools[p], r.pools[q])
    ensures var d := Disabled(r, flags); R.OneCredential(d.pools[p], d.pools[q])
  {
  }

  lemma DisabledSane(r: R.Registry, flags: set<Flag>, url: R.UrlCheck)
    requires Sane(r, url)
    ensures Sane(Disabled(r, flags), url)
  {
    hide Normalize, R.PoolWF, R.CanonicalPool, R.OneCredential, Disabled;
    var d := Disabled(r, flags);
    DisabledKeepsNames(r, flags);
    forall p | p in d.pools ensures R.PoolWF(p, d.pools[p], d.defaultURL, url) && R.CanonicalPool(d.pools[p]) {
      DisabledPool(r, flags, p, url);
    }
    forall p, q | p in d.pools && q in d.pools ensures R.OneCredential(d.pools[p], d.pools[q]) {
      DisabledCredentials(r, flags, p, q);
    }
  }

  /** The rerun after one of the config writes reads the same overlay and names, so it is not refused either. */
  lemma StageReads(f: Files, c: R.Registry, b: seq<string>, url: R.UrlCheck)
    requires Sane(c, url) && SameNames(f.config, c) && !Refuses(f.config, f.overlay) && ComesUp(c, f.overlay, b)
    ensures var next := Migrated(c, f.overlay, b, url);
      && next.Some? && SameButOrders(c, next.value) && SameNames(f.config, next.value)
      && Written(f.(config := c), next.value, 3) == Files(Disabled(next.value, Flags(f.config, f.overlay)), Cleaned(f.config, f.overlay))
  {
    hide Sane, Refuses, Migrated, ComesUp, SetAll, SameButOrders, SameNames, Written, OneOrder;
    SameReading(f.config, c, f.overlay);
    MigratedForm(c, f.overlay, b, url);
    var a := SetAll(c, c, f.overlay, b);
    SetSameButOrders(c, c, f.overlay, b);
    NamesOn(f.config, c, a);
    WrittenThird(f, c, a);
  }

  lemma WrittenThird(f: Files, c: R.Registry, a: R.Registry)
    requires SameNames(f.config, a)
    ensures Written(f.(config := c), a, 3) == Files(Disabled(a, Flags(f.config, f.overlay)), Cleaned(f.config, f.overlay))
  {
    hide Refuses, OneOrder, Flags, Cleaned, SameNames, Disabled, Migrates, InScope, Surviving;
    SameReading(f.config, a, f.overlay);
    var done := Disabled(a, Flags(f.config, f.overlay));
    DisabledKeepsNames(a, Flags(f.config, f.overlay));
    NamesOn(f.config, a, done);
    SameReading(f.config, done, f.overlay);
  }

  lemma NamesOn(a: R.Registry, b: R.Registry, c: R.Registry)
    requires SameNames(a, b) && SameNames(b, c)
    ensures SameNames(a, c)
  {
  }

  /** What the first start leaves on its way, in order `a`. */
  lemma StagesOf(f: Files, a: seq<string>, url: R.UrlCheck)
    requires Sane(f.config, url) && !Refuses(f.config, f.overlay) && ComesUp(f.config, f.overlay, a)
    ensures var next, flags := Migrated(f.config, f.overlay, a, url), Flags(f.config, f.overlay);
      && next.Some? && Sane(next.value, url) && SameNames(f.config, next.value)
      && Sane(Disabled(next.value, flags), url) && SameNames(f.config, Disabled(next.value, flags))
      && SameButOrders(f.config, next.value)
      && Written(f, next.value, 3) == Files(Disabled(next.value, flags), Cleaned(f.config, f.overlay))
      && Written(f, next.value, 2) == f.(config := Disabled(next.value, flags)) && Written(f, next.value, 1) == f.(config := next.value)
  {
    hide Sane, Refuses, Migrated, ComesUp, Flags, Cleaned, SameButOrders, SameNames;
    NamesThemselves(f.config);
    StageReads(f, f.config, a, url);
    MigratedForm(f.config, f.overlay, a, url);
    var next, flags := Migrated(f.config, f.overlay, a, url).value, Flags(f.config, f.overlay);
    DisabledSane(next, flags, url);
    DisabledKeepsNames(next, flags);
    NamesOn(f.config, next, Disabled(next, flags));
    SameReading(f.config, next, f.overlay);
  }

  lemma NamesThemselves(r: R.Registry)
    ensures SameNames(r, r)
  {
  }

  /** Once the overlay is cleaned a start finds nothing to do. */
  lemma CleanStart(f: Files, c: R.Registry, b: seq<string>, url: R.UrlCheck)
    requires SameNames(f.config, c) && ComesUp(c, Cleaned(f.config, f.overlay), b)
    ensures var g := Files(c, Cleaned(f.config, f.overlay)); StartOver(g, b, url) == g
  {
    hide Normalize, StoredOrder, Surviving, InScope, OrderFor;
    var st := Cleaned(f.config, f.overlay);
    CleanSpeaksNot(f.config, f.overlay, c);
    ElemsNonempty(b);
    assert Elems(b) == {};
    assert b == [] && !Hopeless(c, st);
    assert Flags(c, st) == {};
    NoFlags(c);
  }

  /** A rerun after a crash ends with the same overlay and, orders aside, the same config as the first start would have. */
  lemma RerunTouchesOrders(f: Files, a: seq<string>, k: nat, b: seq<string>, url: R.UrlCheck)
    requires Sane(f.config, url) && !Refuses(f.config, f.overlay) && Rerun(f, a, k, b, url)
    ensures var g, first := StartOver(Broken(f, a, k, url), b, url), Broken(f, a, 3, url);
      g.overlay == first.overlay && SameButOrders(first.config, g.config)
  {
    hide Sane, Refuses, Migrated, ComesUp, Flags, Cleaned, SameButOrders, SameNames, Disabled;
    StagesOf(f, a, url);
    var next, flags := Migrated(f.config, f.overlay, a, url).value, Flags(f.config, f.overlay);
    if k == 3 {
      CleanStart(f, Disabled(next, flags), b, url);
      OrdersThemselves(Disabled(next, flags));
    } else {
      var c := if k == 0 then f.config else if k == 1 then next else Disabled(next, flags);
      NamesThemselves(f.config);
      StageReads(f, c, b, url);
      var again := Migrated(c, f.overlay, b, url).value;
      DisabledSameButOrders(f.config, next, flags);
      DisabledSameButOrders(c, again, flags);
      DisabledTwice(next, flags);
      OrdersOn(Disabled(f.config, flags), Disabled(next, flags), Disabled(again, flags));
      if k == 0 { OrdersOn(Disabled(next, flags), Disabled(f.config, flags), Disabled(again, flags)); }
    }
  }

  lemma OrdersThemselves(r: R.Registry)
    ensures SameButOrders(r, r)
  {
  }

  lemma OrdersOn(a: R.Registry, b: R.Registry, c: R.Registry)
    ensures SameButOrders(a, b) ==> SameButOrders(b, a)
    ensures SameButOrders(a, b) && SameButOrders(b, c) ==> SameButOrders(a, c)
  {
  }

  /** Crash and rerun are safe, at every write and in all map orders, exactly if keys of one pool agree. */
  lemma CrashSafeExactly(f: Files, url: R.UrlCheck)
    requires Sane(f.config, url) && !Refuses(f.config, f.overlay)
    ensures CrashKeeps(f, url) <==> OneOrder(f.config, f.overlay)
  {
    hide Sane, Refuses, OneOrder, Rerun, Broken, StartOver;
    if OneOrder(f.config, f.overlay) {
      forall a, k, b | Rerun(f, a, k, b, url) ensures StartOver(Broken(f, a, k, url), b, url) == Broken(f, a, 3, url) {
        AgreedCrash(f, a, k, b, url);
      }
    } else {
      CrashUndoes(f, url);
    }
  }

  lemma AgreedCrash(f: Files, a: seq<string>, k: nat, b: seq<string>, url: R.UrlCheck)
    requires Sane(f.config, url) && !Refuses(f.config, f.overlay) && OneOrder(f.config, f.overlay) && Rerun(f, a, k, b, url)
    ensures StartOver(Broken(f, a, k, url), b, url) == Broken(f, a, 3, url)
  {
    hide Sane, Refuses, OneOrder, Migrated, ComesUp, Flags, Cleaned, SameButOrders, SameNames, Disabled, Priorities;
    StagesOf(f, a, url);
    StagesAgree(f);
    MigratedIs(f.config, f.overlay, a, url);
    var next, flags := Migrated(f.config, f.overlay, a, url).value, Flags(f.config, f.overlay);
    if k == 3 {
      CleanStart(f, Disabled(next, flags), b, url);
    } else {
      var c := if k == 0 then f.config else if k == 1 then next else Disabled(next, flags);
      NamesThemselves(f.config);
      StageReads(f, c, b, url);
      SameReading(f.config, c, f.overlay);
      SameReading(f.config, next, f.overlay);
      MigratedIs(c, f.overlay, b, url);
    }
  }

  lemma CrashUndoes(f: Files, url: R.UrlCheck)
    requires Sane(f.config, url) && !Refuses(f.config, f.overlay) && !OneOrder(f.config, f.overlay)
    ensures !CrashKeeps(f, url)
  {
    hide Sane, Refuses, OneOrder, Migrated, ComesUp, Flags, Cleaned, SameButOrders, SameNames, Disabled;
    Undone(f.config, f.overlay, url);
    var r, st := f.config, f.overlay;
    var a, b :| ComesUp(r, st, a) && ComesUp(r, st, b) && Migrated(r, st, a, url).Some?
                && Migrated(Migrated(r, st, a, url).value, st, b, url) != Migrated(r, st, a, url);
    StagesOf(f, a, url);
    var next, flags := Migrated(r, st, a, url).value, Flags(r, st);
    SameUp(r, next, st);
    StageReads(f, next, b, url);
    DisabledSameButOrders(next, Migrated(next, st, b, url).value, flags);
    assert Rerun(f, a, 1, b, url);
    assert StartOver(Broken(f, a, 1, url), b, url) != Broken(f, a, 3, url);
  }

  // --------------------------------------------------------------- witnesses

  /** One pool "p" with the members "x" and "y" in the order `order`. */
  function TwoNicks(order: seq<string>): R.Registry {
    R.Registry(map["p" := R.Pool("p",
                                 map["x" := R.Backend("p", "x", "c", "u", false), "y" := R.Backend("p", "y", "d", "u", false)],
                                 ["x", "y"], "u", order, 1)], "u")
  }

  /** The overlay speaks of it twice, under "p" and under "P". */
  const BOTH: Overlay := map["p" := Legacy(["x", "y"], [], ""), "P" := Legacy(["y", "x"], [], "")]

  lemma LetterNames()
    ensures Normalize("p") == "p" && Normalize("P") == "p" && Normalize("x") == "x" && Normalize("y") == "y"
  {
    FoldedFixed("p");
    FoldedFixed("x");
    FoldedFixed("y");
    assert FoldAll("P") == "p";
  }

  lemma TwoNicksSane(order: seq<string>, url: R.UrlCheck)
    requires url("u") && Distinct(order) && forall n :: n in order ==> n == "x" || n == "y"
    ensures Sane(TwoNicks(order), url)
  {
    hide Normalize, Listing;
    LetterNames();
    var r := TwoNicks(order);
    var p := r.pools["p"];
    var a: string, b: string := "x", "y";
    assert StrLe(a, b) by { assert a[0] < b[0]; }
    assert Ascending([a, b]);
    assert p.byNick.Keys == {a, b} == Elems([a, b]);
    AscendingUnique(Listing(p.byNick.Keys), [a, b]);
    assert R.PoolWF("p", p, "u", url);
    assert R.OneCredential(p, p);
  }

  lemma ReadsTwo(order: seq<string>, pool: string, a: string, b: string)
    requires Normalize(pool) == "p" && {a, b} == {"x", "y"} && a != b
    ensures Filtered(TwoNicks(order), pool, [a, b]) == [a, b] && StoredOrder([a, b]) == [a, b]
  {
    hide Normalize;
    LetterNames();
    var r := TwoNicks(order);
    assert [a, b][..1] == [a] && [a][..0] == [];
    assert Filtered(r, pool, []) == [];
    assert Filtered(r, pool, [a]) == [a];
    assert R.NormalizeAll([a, b]) == [a, b];
  }

  /** What the overlay asks of the pool: its own order and the reverse. */
  lemma BothRead(order: seq<string>)
    ensures var r := TwoNicks(order);
      && (forall raw :: Migrates(r, BOTH, raw) <==> raw == "p" || raw == "P")
      && Twice("p") == "p" && Twice("P") == "p"
      && Surviving(r, BOTH, "p") == ["x", "y"] == OrderOf(r, BOTH, "p")
      && Surviving(r, BOTH, "P") == ["y", "x"] == OrderOf(r, BOTH, "P")
      && PoolPriority(r, Normalize("p")) == order && PoolPriority(r, Normalize("P")) == order
      && !Refuses(r, BOTH)
  {
    hide Normalize, Filtered, StoredOrder;
    LetterNames();
    ReadsTwo(order, "p", "x", "y");
    ReadsTwo(order, "p", "y", "x");
  }

  /** Unordered before, the pool ends with whichever order came up last. */
  lemma OrderShows(url: R.UrlCheck)
    requires url("u")
    ensures Sane(TwoNicks([]), url) && !AnyOrder(TwoNicks([]), BOTH, url)
  {
    hide Normalize, Surviving, Migrates, Sane, OrderOf, Refuses;
    TwoNicksSane([], url);
    BothRead([]);
    OrderMattersExactly(TwoNicks([]), BOTH, url);
    assert Acts(TwoNicks([]), BOTH, "p", "p") && Acts(TwoNicks([]), BOTH, "P", "p");
  }

  /** Ordered as one of the keys says, it ends in every map order as the other does; a rerun then turns it back. */
  lemma RerunFlips(url: R.UrlCheck)
    requires url("u")
    ensures var r := TwoNicks(["x", "y"]);
      && Sane(r, url) && (forall raws :: ComesUp(r, BOTH, raws) ==> Migrated(r, BOTH, raws, url) == Some(TwoNicks(["y", "x"])))
      && !RerunKeeps(r, BOTH, url)
  {
    hide Normalize, Surviving, Migrates, Sane, StoredOrder, Refuses, Migrated, ComesUp, RerunKeeps;
    var r := TwoNicks(["x", "y"]);
    TwoNicksSane(["x", "y"], url);
    BothRead(["x", "y"]);
    RerunExactly(r, BOTH, url);
    assert !OneOrder(r, BOTH) by {
      assert Migrates(r, BOTH, "p") && Migrates(r, BOTH, "P") && OrderOf(r, BOTH, "p") != OrderOf(r, BOTH, "P");
    }
    forall raws | ComesUp(r, BOTH, raws) ensures Migrated(r, BOTH, raws, url) == Some(TwoNicks(["y", "x"])) {
      EndsReversed(raws, url);
    }
  }

  lemma EndsReversed(raws: seq<string>, url: R.UrlCheck)
    requires url("u") && ComesUp(TwoNicks(["x", "y"]), BOTH, raws)
    ensures Migrated(TwoNicks(["x", "y"]), BOTH, raws, url) == Some(TwoNicks(["y", "x"]))
  {
    hide Normalize, Surviving, Migrates, Sane, OrderOf, Refuses, Migrated;
    var r := TwoNicks(["x", "y"]);
    TwoNicksSane(["x", "y"], url);
    BothRead(["x", "y"]);
    MigratedForm(r, BOTH, raws, url);
    OnlyReverseActs(raws);
    assert r.pools.Keys == {"p"} == SetAll(r, r, BOTH, raws).pools.Keys;
    assert SetAll(r, r, BOTH, raws).pools["p"] == TwoNicks(["y", "x"]).pools["p"];
    assert SetAll(r, r, BOTH, raws).pools == TwoNicks(["y", "x"]).pools;
  }

  lemma OnlyReverseActs(raws: seq<string>)
    requires ComesUp(TwoNicks(["x", "y"]), BOTH, raws)
    ensures LastOrder(TwoNicks(["x", "y"]), BOTH, raws, "p", ["x", "y"]) == ["y", "x"]
  {
    hide Normalize, Surviving, Migrates, OrderOf, Refuses, LastOrder;
    var r := TwoNicks(["x", "y"]);
    BothRead(["x", "y"]);
    LastSpeaks(r, BOTH, raws, "p", ["x", "y"]);
    assert "P" in raws && Acts(r, BOTH, "P", "p");
  }
}
