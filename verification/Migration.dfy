/**
 Folding the legacy overlay of the state file into the config file: priorities, then
 disabled flags, then the cleanup of the consumed keys, each one atomic write, with a
 crash possible after any of them.
 */
module Migration {
  import opened Common
  import opened Names
  import R = Registry
  import B = RegistryBuild
  import opened E = RegistryEdits
  import opened M = Mutations

  /** One pool of the overlay. A consumed key is an empty list; `rest` is everything not consumed here. */
  datatype Legacy = Legacy(priority: seq<string>, disabled: seq<string>, rest: string)

  type Overlay = map<string, Legacy>

  predicate InScope(r: R.Registry, raw: string) { Normalize(raw) != "" && HasPool(r, Normalize(raw)) }

  // ------------------------------------------------------------- priorities

  /** `filteredLegacyPriority`: current members, each spelling once. */
  function Filtered(r: R.Registry, pool: string, order: seq<string>): seq<string> {
    if order == [] then []
    else
      var rest, n := Filtered(r, pool, order[..|order| - 1]), Normalize(order[|order| - 1]);
      if ResolveIn(r, pool, n).Some? && n !in rest then rest + [n] else rest
  }

  function Surviving(r: R.Registry, st: Overlay, raw: string): seq<string>
    requires raw in st
  {
    Filtered(r, Normalize(raw), st[raw].priority)
  }

  predicate Migrates(r: R.Registry, st: Overlay, raw: string) { raw in st && st[raw].priority != [] && InScope(r, raw) }

  /** The order as the registry stores it. */
  function StoredOrder(order: seq<string>): seq<string> { R.NormalizeAll(R.NormalizeAll(order)) }

  /** Nobody survives, or two spellings of one nick do: the migration is refused. */
  ghost predicate Unusable(r: R.Registry, st: Overlay, raw: string)
    requires raw in st
  {
    var s := Surviving(r, st, raw);
    s == [] || !Distinct(StoredOrder(s))
  }

  ghost predicate Refuses(r: R.Registry, st: Overlay) { exists raw :: Migrates(r, st, raw) && Unusable(r, st, raw) }

  /** Keys of the overlay that mean the same pool ask for the same order; distinct names are the usual case. */
  ghost predicate OneOrder(r: R.Registry, st: Overlay) {
    forall a, b :: Migrates(r, st, a) && Migrates(r, st, b) && Twice(a) == Twice(b) ==>
      StoredOrder(Surviving(r, st, a)) == StoredOrder(Surviving(r, st, b))
  }

  ghost predicate SpeaksFor(r: R.Registry, st: Overlay, raws: set<string>, raw: string, p: string) {
    raw in raws && Migrates(r, st, raw) && Twice(raw) == p
  }

  ghost function OrderFor(r: R.Registry, st: Overlay, raws: set<string>, p: string): seq<string>
    requires p in r.pools
  {
    if exists raw :: SpeaksFor(r, st, raws, raw, p) then
      var raw :| SpeaksFor(r, st, raws, raw, p);
      StoredOrder(Surviving(r, st, raw))
    else r.pools[p].priority
  }

  /** The registry with the priorities of `raws` migrated. */
  ghost function Prioritised(r: R.Registry, st: Overlay, raws: set<string>): R.Registry {
    r.(pools := map p | p in r.pools :: r.pools[p].(priority := OrderFor(r, st, raws, p)))
  }

  lemma {:induction false} FilteredMembers(r: R.Registry, pool: string, order: seq<string>)
    ensures forall n :: n in Filtered(r, pool, order) ==> ResolveIn(r, pool, n).Some?
  {
    hide Normalize, ResolveIn;
    if order != [] { FilteredMembers(r, pool, order[..|order| - 1]); }
  }

  lemma StoredMembers(r: R.Registry, st: Overlay, raw: string, url: R.UrlCheck)
    requires Sane(r, url) && Migrates(r, st, raw)
    ensures Twice(raw) in r.pools && forall n :: n in StoredOrder(Surviving(r, st, raw)) ==> n in r.pools[Twice(raw)].byNick
  {
    hide Normalize, R.NormalizeAll, Filtered, R.PoolWF;
    var s, p := Surviving(r, st, raw), Twice(raw);
    FilteredMembers(r, Normalize(raw), st[raw].priority);
    SanePool(r, p, url);
    forall n | n in StoredOrder(s) ensures n in r.pools[p].byNick {
      var i :| 0 <= i < |StoredOrder(s)| && StoredOrder(s)[i] == n;
      StoredAt(s, i);
      assert s[i] in s;
      assert Canonical(Normalize(s[i]));
    }
  }

  lemma StoredAt(s: seq<string>, i: nat)
    requires i < |s|
    ensures |StoredOrder(s)| == |s| && StoredOrder(s)[i] == Normalize(Normalize(s[i]))
  {
    hide Normalize;
  }

  lemma OrderForIs(r: R.Registry, st: Overlay, raws: set<string>, raw: string)
    requires OneOrder(r, st) && raw in raws && Migrates(r, st, raw)
    ensures Twice(raw) in r.pools && OrderFor(r, st, raws, Twice(raw)) == StoredOrder(Surviving(r, st, raw))
  {
    hide Normalize, StoredOrder, Surviving;
    assert SpeaksFor(r, st, raws, raw, Twice(raw));
  }

  /** One more key, whichever: the registry's own mutator takes it to the next stage. */
  lemma PriorityStep(r: R.Registry, st: Overlay, raws: set<string>, raw: string, url: R.UrlCheck)
    requires Sane(r, url) && OneOrder(r, st) && Migrates(r, st, raw) && !Unusable(r, st, raw)
    requires Sane(Prioritised(r, st, raws), url)
    ensures var next := Prioritised(r, st, raws + {raw});
      WithPriority(Prioritised(r, st, raws), Normalize(raw), Surviving(r, st, raw), url) == Some(next) && Sane(next, url)
  {
    hide Normalize, StoredOrder, Surviving, WithPriority, Sane, OrderFor;
    var now, p, s := Prioritised(r, st, raws), Twice(raw), Surviving(r, st, raw);
    StoredMembers(r, st, raw, url);
    StoredIs(s);
    PriorityAccepted(now, Normalize(raw), s, url);
    PriorityEffect(now, Normalize(raw), s, url);
    SanePool(r, p, url);
    WithPrioritySane(now, Normalize(raw), s, url);
    OrderForIs(r, st, raws + {raw}, raw);
    forall q | q in r.pools && q != p ensures OrderFor(r, st, raws + {raw}, q) == OrderFor(r, st, raws, q) {
      OthersKeep(r, st, raws, raw, q);
    }
    assert Prioritised(r, st, raws + {raw}).pools == now.pools[p := now.pools[p].(priority := StoredOrder(s))];
  }

  lemma StoredIs(s: seq<string>)
    ensures StoredOrder(s) == R.NormalizeAll(R.NormalizeAll(s))
  {
  }

  lemma WithPrioritySane(r: R.Registry, pool: string, order: seq<string>, url: R.UrlCheck)
    requires Sane(r, url) && WithPriority(r, pool, order, url).Some?
    ensures Sane(WithPriority(r, pool, order, url).value, url)
  {
    hide Normalize, R.Build, R.SpecOf, Sane, R.NormalizeAll;
    var p := Normalize(pool);
    OwnNicksCanonical(r, p, url);
    EditCommit(r, p, R.SpecOf(r)[p].(priority := R.NormalizeAll(order)), url);
    CommitSane(r, WithPriority(r, pool, order, url).value, [p], url);
  }

  lemma OthersKeep(r: R.Registry, st: Overlay, raws: set<string>, raw: string, q: string)
    requires OneOrder(r, st) && q in r.pools && Twice(raw) != q
    ensures OrderFor(r, st, raws + {raw}, q) == OrderFor(r, st, raws, q)
  {
    hide Normalize, StoredOrder, Surviving;
    forall x ensures SpeaksFor(r, st, raws + {raw}, x, q) <==> SpeaksFor(r, st, raws, x, q) {
    }
    if x :| SpeaksFor(r, st, raws, x, q) {
      OrderForIs(r, st, raws, x);
      assert SpeaksFor(r, st, raws + {raw}, x, q);
      OrderForIs(r, st, raws + {raw}, x);
    }
  }

  // ---------------------------------------------------------- disabled flags

  /** A member to disable, by the names the registry has it under. */
  datatype Flag = Flag(pool: string, nick: string)

  /** The registry with the members of `flags` disabled. */
  function Disabled(r: R.Registry, flags: set<Flag>): R.Registry {
    r.(pools := map p | p in r.pools :: r.pools[p].(byNick := map n | n in r.pools[p].byNick ::
         r.pools[p].byNick[n].(disabled := r.pools[p].byNick[n].disabled || Flag(p, n) in flags)))
  }

  /** `raw` lists `rawNick`, and both name something in the registry. */
  predicate Lists(r: R.Registry, st: Overlay, raw: string, rawNick: string) {
    && raw in st && InScope(r, raw) && rawNick in st[raw].disabled
    && Normalize(rawNick) != "" && ResolveIn(r, Normalize(raw), Normalize(rawNick)).Some?
  }

  ghost predicate Listed(r: R.Registry, st: Overlay, f: Flag) {
    exists raw, rawNick :: Lists(r, st, raw, rawNick) && f == Flag(Twice(raw), Twice(rawNick))
  }

  /** One more flag: the registry's own mutator sets it. */
  lemma DisableStep(r: R.Registry, flags: set<Flag>, pool: string, nick: string, url: R.UrlCheck)
    requires Sane(r, url) && ResolveIn(r, pool, nick).Some? && Sane(Disabled(r, flags), url)
    ensures var f := Flag(Normalize(pool), Normalize(nick));
      && WithMemberDisabled(Disabled(r, flags), pool, nick, true, url) == Some(Disabled(r, flags + {f}))
      && Sane(Disabled(r, flags + {f}), url)
  {
    hide Normalize, WithMemberDisabled, Sane, Disabled;
    var now, p, n := Disabled(r, flags), Normalize(pool), Normalize(nick);
    DisabledKeepsNames(r, flags);
    DisableAccepted(now, pool, nick, url);
    DisabledEffect(now, pool, nick, true, url);
    WithDisabledSane(now, pool, nick, url);
    OneFlag(r, flags, p, n);
  }

  lemma OneFlag(r: R.Registry, flags: set<Flag>, p: string, n: string)
    requires p in r.pools && n in r.pools[p].byNick
    ensures var now := Disabled(r, flags);
      Disabled(r, flags + {Flag(p, n)}) == now.(pools := now.pools[p := SetDisabled(now.pools[p], n, true)])
  {
    var now, next := Disabled(r, flags), Disabled(r, flags + {Flag(p, n)});
    forall q | q in r.pools ensures next.pools[q] == now.pools[p := SetDisabled(now.pools[p], n, true)][q] {
      assert next.pools[q].byNick == now.pools[p := SetDisabled(now.pools[p], n, true)][q].byNick;
    }
    assert next.pools == now.pools[p := SetDisabled(now.pools[p], n, true)];
  }

  lemma WithDisabledSane(r: R.Registry, pool: string, nick: string, url: R.UrlCheck)
    requires Sane(r, url) && WithMemberDisabled(r, pool, nick, true, url).Some?
    ensures Sane(WithMemberDisabled(r, pool, nick, true, url).value, url)
  {
    hide Normalize, R.Build, R.SpecOf, Sane;
    var p, n := Normalize(pool), Normalize(nick);
    OwnNicksCanonical(r, p, url);
    var ps := R.SpecOf(r)[p];
    EditCommit(r, p, ps.(members := ps.members[n := ps.members[n].(disabled := true)]), url);
    CommitSane(r, WithMemberDisabled(r, pool, nick, true, url).value, [p], url);
  }

  lemma NoFlags(r: R.Registry)
    ensures Disabled(r, {}) == r
  {
    forall p | p in r.pools ensures Disabled(r, {}).pools[p] == r.pools[p] {
      assert Disabled(r, {}).pools[p].byNick == r.pools[p].byNick;
    }
    assert Disabled(r, {}).pools == r.pools;
  }

  lemma NothingPrioritised(r: R.Registry, st: Overlay)
    ensures Prioritised(r, st, {}) == r
  {
    assert Prioritised(r, st, {}).pools == r.pools;
  }

  // ------------------------------------------------------------ stages on disk

  /** The config file, as the registry it builds, and the overlay in the state file. */
  datatype Files = Files(config: R.Registry, overlay: Overlay)

  ghost function Priorities(r: R.Registry, st: Overlay): R.Registry { Prioritised(r, st, st.Keys) }

  ghost function Flags(r: R.Registry, st: Overlay): set<Flag> {
    set p, n | p in r.pools && n in r.pools[p].byNick && Listed(r, st, Flag(p, n)) :: Flag(p, n)
  }

  ghost function Disablings(r: R.Registry, st: Overlay): R.Registry { Disabled(r, Flags(r, st)) }

  /** `legacyKeyCleanup` and `consumeLegacyKeys`: in-scope pools lose the consumed keys and nothing else. */
  function Cleaned(r: R.Registry, st: Overlay): Overlay {
    map raw | raw in st :: if InScope(r, raw) then Legacy([], [], st[raw].rest) else st[raw]
  }

  /** The files after `k` of the three writes, when the priorities come to `a`. */
  ghost function Written(f: Files, a: R.Registry, k: nat): Files {
    var b := Disablings(a, f.overlay);
    if k == 0 then f
    else if k == 1 then f.(config := a)
    else if k == 2 then f.(config := b)
    else Files(b, Cleaned(b, f.overlay))
  }

  ghost function After(f: Files, k: nat): Files { Written(f, Priorities(f.config, f.overlay), k) }

  /** What a start of the gateway leaves behind when nothing interrupts it: a refusal writes nothing. */
  ghost function Outcome(f: Files): Files { if Refuses(f.config, f.overlay) then f else After(f, 3) }

  // ----------------------------------------------- the stages, in plain terms

  /** `n` first comes up at `k`, under some spelling. */
  ghost predicate FirstAt(order: seq<string>, n: string, k: int) {
    0 <= k < |order| && Normalize(order[k]) == n && forall j :: 0 <= j < k ==> Normalize(order[j]) != n
  }

  ghost predicate ComesBefore(order: seq<string>, m: string, n: string) {
    exists i, j :: i < j && FirstAt(order, m, i) && FirstAt(order, n, j)
  }

  /** What survives of a legacy order: the nicks the pool has, each once, in the order in which they first come up. */
  lemma {:induction false} FilteredExactly(r: R.Registry, pool: string, order: seq<string>)
    ensures var f := Filtered(r, pool, order);
      && Distinct(f)
      && (forall n :: n in f <==> ResolveIn(r, pool, n).Some? && exists k :: FirstAt(order, n, k))
      && (forall i, j :: 0 <= i < j < |f| ==> ComesBefore(order, f[i], f[j]))
  {
    hide Normalize, ResolveIn;
    if order != [] {
      var init, last := order[..|order| - 1], order[|order| - 1];
      var n, rest := Normalize(last), Filtered(r, pool, init);
      assert order == init + [last];
      FilteredExactly(r, pool, init);
      forall m, k | FirstAt(init, m, k) ensures FirstAt(order, m, k) { Longer(init, last, m, k); }
      forall m, k | FirstAt(order, m, k) ensures FirstAt(init, m, k) || (m == n && k == |init|) { Longer(init, last, m, k); }
      if ResolveIn(r, pool, n).Some? && n !in rest {
        NewAtEnd(init, last);
        forall i | 0 <= i < |rest| ensures ComesBefore(order, rest[i], n) {
          assert rest[i] in rest;
          var k :| FirstAt(init, rest[i], k);
          assert FirstAt(order, rest[i], k) && FirstAt(order, n, |init|);
        }
      }
    }
  }

  lemma Longer(init: seq<string>, last: string, m: string, k: int)
    ensures var order := init + [last]; FirstAt(init, m, k) ==> FirstAt(order, m, k)
    ensures var order := init + [last]; FirstAt(order, m, k) ==> FirstAt(init, m, k) || (m == Normalize(last) && k == |init|)
  {
    hide Normalize;
    var order := init + [last];
    assert order[|init|] == last && forall j :: 0 <= j < |init| ==> order[j] == init[j];
  }

  lemma NewAtEnd(init: seq<string>, last: string)
    ensures (exists k :: FirstAt(init, Normalize(last), k)) || FirstAt(init + [last], Normalize(last), |init|)
  {
    hide Normalize;
    if !FirstAt(init + [last], Normalize(last), |init|) {
      var j :| 0 <= j < |init| && Normalize(init[j]) == Normalize(last);
      var k := FirstUpTo(init, Normalize(last), j);
    }
  }

  lemma {:induction false} FirstUpTo(order: seq<string>, n: string, j: nat) returns (k: nat)
    requires j < |order| && Normalize(order[j]) == n
    ensures FirstAt(order, n, k)
  {
    hide Normalize;
    if i :| 0 <= i < j && Normalize(order[i]) == n { k := FirstUpTo(order, n, i); } else { k := j; }
  }

  /** The key means a pool of the registry. */
  lemma InScopeExactly(r: R.Registry, raw: string)
    ensures InScope(r, raw) <==> Normalize(raw) != "" && Normalize(Normalize(raw)) in r.pools
  {
  }

  /** An order comes from a key that means the pool and lists something, if there is one; nothing but orders changes. */
  lemma PrioritiesExactly(r: R.Registry, st: Overlay, p: string)
    requires p in r.pools
    ensures var a := Priorities(r, st);
      && a == r.(pools := a.pools) && a.pools.Keys == r.pools.Keys && a.pools[p] == r.pools[p].(priority := a.pools[p].priority)
      && (if exists raw :: raw in st && st[raw].priority != [] && Normalize(raw) != "" && Twice(raw) == p
          then exists raw :: raw in st && st[raw].priority != [] && Normalize(raw) != "" && Twice(raw) == p
                             && a.pools[p].priority == StoredOrder(Filtered(r, Normalize(raw), st[raw].priority))
          else a.pools[p].priority == r.pools[p].priority)
  {
    hide Normalize, Filtered, StoredOrder;
    forall raw | raw in st && st[raw].priority != [] && Normalize(raw) != "" && Twice(raw) == p ensures SpeaksFor(r, st, st.Keys, raw, p) {
      InScopeExactly(r, raw);
    }
    forall raw | SpeaksFor(r, st, st.Keys, raw, p) ensures raw in st && st[raw].priority != [] && Normalize(raw) != "" {
      InScopeExactly(r, raw);
    }
  }

  /** A member is disabled afterwards exactly if it was, or a key that means its pool lists it; nothing but flags changes. */
  lemma DisablingsExactly(r: R.Registry, st: Overlay, p: string, n: string)
    requires p in r.pools && n in r.pools[p].byNick
    ensures var b := Disablings(r, st);
      && b == r.(pools := b.pools) && b.pools.Keys == r.pools.Keys && b.pools[p] == r.pools[p].(byNick := b.pools[p].byNick)
      && b.pools[p].byNick.Keys == r.pools[p].byNick.Keys
      && b.pools[p].byNick[n] == r.pools[p].byNick[n].(disabled := b.pools[p].byNick[n].disabled)
      && (b.pools[p].byNick[n].disabled <==>
            || r.pools[p].byNick[n].disabled
            || exists raw, nick :: raw in st && nick in st[raw].disabled && Normalize(raw) != "" && Normalize(nick) != ""
                                   && Twice(raw) == p && Twice(nick) == n)
  {
    hide Normalize;
    forall raw, nick | raw in st && nick in st[raw].disabled && Normalize(raw) != "" && Normalize(nick) != "" && Twice(raw) == p
                       && Twice(nick) == n
      ensures Listed(r, st, Flag(p, n))
    {
      assert Lists(r, st, raw, nick);
    }
    if Listed(r, st, Flag(p, n)) {
      var raw, nick :| Lists(r, st, raw, nick) && Flag(p, n) == Flag(Twice(raw), Twice(nick));
      assert raw in st && nick in st[raw].disabled;
    }
  }

  /** Of the overlay, keys that mean a pool lose the two lists, and nothing else goes. */
  lemma CleanedExactly(r: R.Registry, st: Overlay, raw: string)
    requires raw in st
    ensures Cleaned(r, st).Keys == st.Keys
    ensures Cleaned(r, st)[raw] == if Normalize(raw) != "" && Normalize(Normalize(raw)) in r.pools
                                   then st[raw].(priority := [], disabled := []) else st[raw]
  {
    hide Normalize;
    InScopeExactly(r, raw);
  }

  /** Same pools and members: what the overlay's names resolve to. */
  ghost predicate SameNames(a: R.Registry, b: R.Registry) {
    a.pools.Keys == b.pools.Keys && forall p :: p in a.pools ==> a.pools[p].byNick.Keys == b.pools[p].byNick.Keys
  }

  lemma PrioritiesKeepNames(r: R.Registry, st: Overlay, raws: set<string>)
    ensures SameNames(r, Prioritised(r, st, raws))
  {
    hide OrderFor;
  }

  lemma DisabledKeepsNames(r: R.Registry, flags: set<Flag>)
    ensures SameNames(r, Disabled(r, flags))
  {
  }

  lemma {:induction false} SameFiltered(a: R.Registry, b: R.Registry, pool: string, order: seq<string>)
    requires SameNames(a, b)
    ensures Filtered(a, pool, order) == Filtered(b, pool, order)
  {
    hide Normalize;
    if order != [] { SameFiltered(a, b, pool, order[..|order| - 1]); }
  }

  lemma SameReading(a: R.Registry, b: R.Registry, st: Overlay)
    requires SameNames(a, b)
    ensures forall raw :: InScope(a, raw) == InScope(b, raw) && Migrates(a, st, raw) == Migrates(b, st, raw)
    ensures forall raw :: raw in st ==> Surviving(a, st, raw) == Surviving(b, st, raw)
    ensures Refuses(a, st) == Refuses(b, st) && OneOrder(a, st) == OneOrder(b, st)
    ensures Flags(a, st) == Flags(b, st) && Cleaned(a, st) == Cleaned(b, st)
  {
    hide Normalize, Filtered, StoredOrder;
    forall raw | raw in st { SameFiltered(a, b, Normalize(raw), st[raw].priority); }
    forall raw ensures Migrates(a, st, raw) == Migrates(b, st, raw) && (raw in st ==> Unusable(a, st, raw) == Unusable(b, st, raw)) {
    }
    forall f ensures Listed(a, st, f) == Listed(b, st, f) {
      forall raw, n ensures Lists(a, st, raw, n) == Lists(b, st, raw, n) { }
    }
  }

  /** Migrating twice is migrating once, and disabling does not disturb priorities. */
  lemma PrioritiesTwice(r: R.Registry, d: R.Registry, st: Overlay)
    requires OneOrder(r, st) && SameNames(r, d)
    requires forall p :: p in r.pools ==> d.pools[p].priority == Priorities(r, st).pools[p].priority
    ensures Priorities(d, st) == d
  {
    hide Normalize, StoredOrder, Surviving, OrderFor;
    SameReading(r, d, st);
    forall p | p in d.pools ensures OrderFor(d, st, st.Keys, p) == d.pools[p].priority {
      SameOrders(r, d, st, p);
    }
    assert Priorities(d, st).pools == d.pools;
  }

  lemma SameOrders(r: R.Registry, d: R.Registry, st: Overlay, p: string)
    requires OneOrder(r, st) && SameNames(r, d) && p in r.pools
    requires d.pools[p].priority == OrderFor(r, st, st.Keys, p)
    ensures OrderFor(d, st, st.Keys, p) == d.pools[p].priority
  {
    hide Normalize, StoredOrder, Surviving, Migrates;
    SameReading(r, d, st);
    if raw :| SpeaksFor(r, st, st.Keys, raw, p) {
      OrderForIs(r, st, st.Keys, raw);
      assert SpeaksFor(d, st, st.Keys, raw, p);
      OrderForIs(d, st, st.Keys, raw);
    } else {
      forall raw ensures !SpeaksFor(d, st, st.Keys, raw, p) { assert !SpeaksFor(r, st, st.Keys, raw, p); }
    }
  }

  lemma DisabledTwice(r: R.Registry, flags: set<Flag>)
    ensures Disabled(Disabled(r, flags), flags) == Disabled(r, flags)
  {
    var a, b := Disabled(Disabled(r, flags), flags), Disabled(r, flags);
    forall p | p in r.pools ensures a.pools[p] == b.pools[p] { assert a.pools[p].byNick == b.pools[p].byNick; }
    assert a.pools == b.pools;
  }

  lemma CleanSpeaksNot(r: R.Registry, st: Overlay, c: R.Registry)
    requires SameNames(r, c)
    ensures var st2 := Cleaned(r, st);
      && (forall raw :: !Migrates(c, st2, raw)) && (forall raw, n :: !Lists(c, st2, raw, n))
      && Cleaned(c, st2) == st2
  {
    hide Normalize;
  }

  /** A crash after any of the writes and a rerun end as an uninterrupted run does; and a further run changes nothing. */
  lemma CrashSafe(f: Files, k: nat)
    requires OneOrder(f.config, f.overlay) && !Refuses(f.config, f.overlay)
    ensures Outcome(After(f, k)) == Outcome(f)
    ensures Outcome(Outcome(f)) == Outcome(f)
  {
    hide Refuses, Priorities, Disablings, Cleaned, OneOrder;
    var a := Priorities(f.config, f.overlay);
    var b := Disablings(a, f.overlay);
    StagesAgree(f);
    CleanRunIsIdle(f.config, f.overlay, b);
  }

  lemma StagesAgree(f: Files)
    requires OneOrder(f.config, f.overlay) && !Refuses(f.config, f.overlay)
    ensures var a := Priorities(f.config, f.overlay); var b := Disablings(a, f.overlay);
      && Priorities(a, f.overlay) == a && Priorities(b, f.overlay) == b && Disablings(b, f.overlay) == b
      && SameNames(f.config, a) && SameNames(f.config, b)
      && !Refuses(a, f.overlay) && !Refuses(b, f.overlay)
  {
    hide Refuses, OrderFor, Flags, OneOrder;
    var a := Priorities(f.config, f.overlay);
    var flags := Flags(a, f.overlay);
    var b := Disabled(a, flags);
    PrioritiesKeepNames(f.config, f.overlay, f.overlay.Keys);
    DisabledKeepsNames(a, flags);
    SameReading(f.config, a, f.overlay);
    SameReading(a, b, f.overlay);
    PrioritiesTwice(f.config, a, f.overlay);
    PrioritiesTwice(f.config, b, f.overlay);
    DisabledTwice(a, flags);
  }

  lemma CleanRunIsIdle(r: R.Registry, st: Overlay, c: R.Registry)
    requires SameNames(r, c)
    ensures var g := Files(c, Cleaned(c, st)); Outcome(g) == g && Cleaned(c, st) == Cleaned(r, st)
  {
    hide Normalize, StoredOrder, Surviving, Migrates, Lists, InScope;
    SameReading(r, c, st);
    var st2 := Cleaned(r, st);
    CleanSpeaksNot(r, st, c);
    assert !Refuses(c, st2);
    assert Priorities(c, st2).pools == c.pools;
    assert Flags(c, st2) == {};
    NoFlags(c);
  }

  // ------------------------------------------------------------ the loops

  /** What the first pass notes of a key: its order, and whether the config differs. */
  datatype Verdict = Verdict(raw: string, order: seq<string>, migrate: bool)

  method FilterOrder(r: R.Registry, pool: string, rawOrder: seq<string>) returns (order: seq<string>)
    ensures order == Filtered(r, pool, rawOrder)
  {
    hide Normalize, ResolveIn;
    order := [];
    for i := 0 to |rawOrder|
      invariant order == Filtered(r, pool, rawOrder[..i])
    {
      assert rawOrder[..i + 1][..i] == rawOrder[..i];
      var n := Normalize(rawOrder[i]);
      if ResolveIn(r, pool, n).Some? && n !in order { order := order + [n]; }
    }
    assert rawOrder[..|rawOrder|] == rawOrder;
  }

  function PoolPriority(r: R.Registry, pool: string): seq<string> {
    if Normalize(pool) in r.pools then r.pools[Normalize(pool)].priority else []
  }

  ghost predicate Noted(r: R.Registry, st: Overlay, v: Verdict) {
    && Migrates(r, st, v.raw) && v.order == Surviving(r, st, v.raw) && v.order != []
    && v.migrate == (PoolPriority(r, Normalize(v.raw)) != v.order)
  }

  function Raws(vs: seq<Verdict>): set<string> { set v | v in vs :: v.raw }

  ghost predicate AllNoted(r: R.Registry, st: Overlay, vs: seq<Verdict>) { forall v :: v in vs ==> Noted(r, st, v) }

  ghost predicate Complete(r: R.Registry, st: Overlay, vs: seq<Verdict>, done: set<string>) {
    forall raw :: raw in done && Migrates(r, st, raw) && Surviving(r, st, raw) != [] ==> raw in Raws(vs)
  }

  /** The aggregate pass: a verdict for each key to migrate; `bad` if some order has no survivor. */
  method JudgePriorities(r: R.Registry, st: Overlay) returns (vs: seq<Verdict>, bad: bool)
    ensures AllNoted(r, st, vs) && Complete(r, st, vs, st.Keys) && Distinct(RawsOf(vs))
    ensures bad <==> Hopeless(r, st)
  {
    hide Normalize, Filtered, InScope, OnceEach, Raws;
    vs, bad := [], false;
    assert OnceEach(vs, st.Keys) && Raws(vs) == {} by { NoVerdicts(st.Keys); }
    var todo := st.Keys;
    while todo != {}
      invariant todo <= st.Keys && AllNoted(r, st, vs) && Complete(r, st, vs, st.Keys - todo)
      invariant OnceEach(vs, todo)
      invariant bad <==> exists raw :: raw !in todo && Migrates(r, st, raw) && Surviving(r, st, raw) == []
      decreases |todo|
    {
      var raw :| raw in todo;
      FewerOnce(vs, todo, raw);
      todo := todo - {raw};
      if st[raw].priority != [] && InScope(r, raw) {
        var order := FilterOrder(r, Normalize(raw), st[raw].priority);
        assert order == Surviving(r, st, raw) && Migrates(r, st, raw);
        if order == [] {
          bad := true;
        } else {
          var v := Verdict(raw, order, PoolPriority(r, Normalize(raw)) != order);
          MoreRaws(vs, v);
          MoreOnce(vs, v, todo);
          vs := vs + [v];
        }
      }
    }
    assert st.Keys - todo == st.Keys;
    OnceDistinct(vs, todo);
  }

  /** One verdict to a key, and none for a key still to come. */
  ghost predicate OnceEach(vs: seq<Verdict>, todo: set<string>) {
    Distinct(RawsOf(vs)) && forall i :: 0 <= i < |vs| ==> vs[i].raw !in todo
  }

  lemma NoVerdicts(todo: set<string>)
    ensures OnceEach([], todo) && Raws([]) == {}
  {
  }

  lemma FewerOnce(vs: seq<Verdict>, todo: set<string>, raw: string)
    requires OnceEach(vs, todo) && raw in todo
    ensures OnceEach(vs, todo - {raw}) && forall i :: 0 <= i < |vs| ==> vs[i].raw != raw
  {
  }

  lemma MoreOnce(vs: seq<Verdict>, v: Verdict, todo: set<string>)
    requires OnceEach(vs, todo) && v.raw !in todo && forall i :: 0 <= i < |vs| ==> vs[i].raw != v.raw
    ensures OnceEach(vs + [v], todo)
  {
  }

  lemma OnceDistinct(vs: seq<Verdict>, todo: set<string>)
    requires OnceEach(vs, todo)
    ensures Distinct(RawsOf(vs))
  {
  }

  lemma MoreRaws(vs: seq<Verdict>, v: Verdict)
    ensures Raws(vs + [v]) == Raws(vs) + {v.raw}
    ensures forall x :: x in vs + [v] <==> x in vs || x == v
  {
    assert v in vs + [v];
    forall x | x in Raws(vs) ensures x in Raws(vs + [v]) {
      var y :| y in vs && y.raw == x;
      assert y in vs + [v];
    }
  }

  // ---------------------------------------------- the apply loop, as a function

  /** A key the loop acts on: its pool starts out with another order. */
  ghost predicate Effective(r: R.Registry, st: Overlay, raw: string) {
    Migrates(r, st, raw) && PoolPriority(r, Normalize(raw)) != Surviving(r, st, raw)
  }

  /** The loop over the keys as they come up; `r` is the registry the verdicts were made against. */
  ghost function Apply(r: R.Registry, now: R.Registry, st: Overlay, raws: seq<string>, url: R.UrlCheck): Option<R.Registry>
    decreases |raws|
  {
    if raws == [] then Some(now)
    else if !Effective(r, st, raws[0]) then Apply(r, now, st, raws[1..], url)
    else
      var next := WithPriority(now, Normalize(raws[0]), Surviving(r, st, raws[0]), url);
      if next.None? then None else Apply(r, next.value, st, raws[1..], url)
  }

  ghost predicate Hopeless(r: R.Registry, st: Overlay) {
    exists raw :: Migrates(r, st, raw) && Surviving(r, st, raw) == []
  }

  /** The keys to migrate, each once, in an order in which a map may yield them. */
  ghost predicate ComesUp(r: R.Registry, st: Overlay, raws: seq<string>) {
    Distinct(raws) && forall raw :: raw in raws <==> Migrates(r, st, raw)
  }

  /** `reconcileLegacyPriority` up to its write. */
  ghost function Migrated(r: R.Registry, st: Overlay, raws: seq<string>, url: R.UrlCheck): Option<R.Registry> {
    if Hopeless(r, st) then None else Apply(r, r, st, raws, url)
  }

  ghost predicate CanBecome(r: R.Registry, st: Overlay, url: R.UrlCheck, next: Option<R.Registry>) {
    exists raws :: ComesUp(r, st, raws) && next == Migrated(r, st, raws, url)
  }

  lemma SomeOrder(r: R.Registry, st: Overlay) returns (raws: seq<string>)
    ensures ComesUp(r, st, raws)
  {
    hide Migrates;
    var names := set raw | raw in st.Keys && Migrates(r, st, raw);
    raws := Listing(names);
    forall raw ensures raw in raws <==> Migrates(r, st, raw) {
      MigratesIn(r, st, raw);
      assert raw in Elems(raws) <==> raw in names;
    }
  }

  function RawsOf(vs: seq<Verdict>): (raws: seq<string>)
    ensures |raws| == |vs| && forall i :: 0 <= i < |vs| ==> raws[i] == vs[i].raw
  {
    seq(|vs|, i requires 0 <= i < |vs| => vs[i].raw)
  }

  /** The method's result is that of the loop in some order of the keys. */
  method MigratePriorities(r: R.Registry, st: Overlay, url: R.UrlCheck) returns (next: Option<R.Registry>, changed: bool)
    requires Sane(r, url)
    ensures CanBecome(r, st, url, next)
    ensures next.Some? ==> Sane(next.value, url) && (!changed ==> next.value == r)
  {
    hide Normalize, Sane, Noted, WithPriority, Surviving, Migrates, ComesUp, AllNoted, Complete;
    var vs, bad := JudgePriorities(r, st);
    changed := false;
    if bad {
      ghost var any := SomeOrder(r, st);
      assert Migrated(r, st, any, url) == None;
      return None, false;
    }
    VerdictsComeUp(r, st, vs);
    ghost var raws := RawsOf(vs);
    var updated := r;
    assert raws[0..] == raws;
    for i := 0 to |vs|
      invariant Sane(updated, url) && (!changed ==> updated == r)
      invariant Apply(r, updated, st, raws[i..], url) == Apply(r, r, st, raws, url)
    {
      var v := vs[i];
      assert raws[i..][0] == v.raw && raws[i..][1..] == raws[i + 1..];
      VerdictSays(r, st, vs, i);
      if v.migrate {
        var more := B.SetPriority(updated, Normalize(v.raw), v.order, url);
        if more.None? { return None, false; }
        WithPrioritySane(updated, Normalize(v.raw), v.order, url);
        updated, changed := more.value, true;
      }
    }
    return Some(updated), changed;
  }

  lemma VerdictSays(r: R.Registry, st: Overlay, vs: seq<Verdict>, i: nat)
    requires AllNoted(r, st, vs) && i < |vs|
    ensures vs[i].migrate == Effective(r, st, vs[i].raw)
    ensures vs[i].migrate ==> vs[i].raw in st && vs[i].order == Surviving(r, st, vs[i].raw)
  {
    hide Normalize, Surviving;
    assert vs[i] in vs && Noted(r, st, vs[i]);
  }

  lemma VerdictsComeUp(r: R.Registry, st: Overlay, vs: seq<Verdict>)
    requires AllNoted(r, st, vs) && Complete(r, st, vs, st.Keys) && !Hopeless(r, st) && Distinct(RawsOf(vs))
    ensures ComesUp(r, st, RawsOf(vs))
  {
    hide Normalize, Surviving, Migrates;
    var raws := RawsOf(vs);
    forall raw ensures raw in raws <==> Migrates(r, st, raw) {
      MigratesIn(r, st, raw);
      if raw in raws {
        var i :| 0 <= i < |raws| && raws[i] == raw;
        assert vs[i] in vs && Noted(r, st, vs[i]);
      }
      if Migrates(r, st, raw) {
        assert raw in Raws(vs);
        var v :| v in vs && v.raw == raw;
        var i :| 0 <= i < |vs| && vs[i] == v;
        assert raws[i] == raw;
      }
    }
  }

  ghost predicate Usable(r: R.Registry, st: Overlay, raw: string) { raw in st && !Unusable(r, st, raw) }

  lemma SomeUnusable(r: R.Registry, st: Overlay)
    requires exists raw :: Migrates(r, st, raw) && Surviving(r, st, raw) == []
    ensures Refuses(r, st)
  {
    hide Surviving;
    var raw :| Migrates(r, st, raw) && Surviving(r, st, raw) == [];
    assert Unusable(r, st, raw);
  }

  /** An accepted order has no nick twice. */
  lemma AcceptedDistinct(r: R.Registry, pool: string, order: seq<string>, url: R.UrlCheck)
    requires WithPriority(r, pool, order, url).Some?
    ensures Distinct(StoredOrder(order))
  {
    hide Normalize, R.Build, R.SpecOf, R.NormalizeAll, R.GoodKeys, R.Bijective, R.GoodMember;
    var p, spec := Normalize(pool), R.SpecOf(r);
    var next := spec[p := spec[p].(priority := R.NormalizeAll(order))];
    R.BuildDefault(next, r.defaultURL, url);
    assert p in next && R.GoodPool(next[p], r.defaultURL, url);
  }

  lemma MigrateOne(r: R.Registry, st: Overlay, done: set<string>, raw: string, url: R.UrlCheck)
    requires Sane(r, url) && OneOrder(r, st) && Migrates(r, st, raw) && Surviving(r, st, raw) != []
    requires Sane(Prioritised(r, st, done), url)
    ensures var out := WithPriority(Prioritised(r, st, done), Normalize(raw), Surviving(r, st, raw), url);
      if Usable(r, st, raw) then out == Some(Prioritised(r, st, done + {raw})) && Sane(out.value, url) else out.None?
  {
    hide Normalize, Sane, Prioritised, WithPriority, OneOrder, Surviving, Migrates, StoredOrder;
    MigratesIn(r, st, raw);
    if Usable(r, st, raw) {
      PriorityStep(r, st, done, raw, url);
    } else if WithPriority(Prioritised(r, st, done), Normalize(raw), Surviving(r, st, raw), url).Some? {
      AcceptedDistinct(Prioritised(r, st, done), Normalize(raw), Surviving(r, st, raw), url);
    }
  }

  lemma AlreadyThere(r: R.Registry, st: Overlay, done: set<string>, raw: string, url: R.UrlCheck)
    requires Sane(r, url) && OneOrder(r, st) && Migrates(r, st, raw) && !Effective(r, st, raw) && Surviving(r, st, raw) != []
    ensures Prioritised(r, st, done + {raw}) == Prioritised(r, st, done) && Usable(r, st, raw)
  {
    hide Normalize, Surviving, OrderFor, R.NormalizeAll, OneOrder, R.PoolWF, R.CanonicalPool;
    var p := Twice(raw);
    OwnOrderStored(r, p, url);
    forall q | q in r.pools ensures OrderFor(r, st, done + {raw}, q) == OrderFor(r, st, done, q) {
      if q == p {
        OrderForIs(r, st, done + {raw}, raw);
        KeepsOrReads(r, st, done, raw);
      } else {
        OthersKeep(r, st, done, raw, q);
      }
    }
  }

  lemma OwnOrderStored(r: R.Registry, p: string, url: R.UrlCheck)
    requires Sane(r, url) && p in r.pools
    ensures StoredOrder(r.pools[p].priority) == r.pools[p].priority && Distinct(r.pools[p].priority)
  {
    hide Normalize, R.NormalizeAll;
    SanePool(r, p, url);
    R.NormalizeFixed(r.pools[p].priority);
  }

  lemma KeepsOrReads(r: R.Registry, st: Overlay, done: set<string>, raw: string)
    requires OneOrder(r, st) && Migrates(r, st, raw)
    ensures Twice(raw) in r.pools
    ensures var o := OrderFor(r, st, done, Twice(raw)); o == StoredOrder(Surviving(r, st, raw)) || o == r.pools[Twice(raw)].priority
  {
    hide Normalize, StoredOrder, Surviving;
    if x :| SpeaksFor(r, st, done, x, Twice(raw)) { OrderForIs(r, st, done, x); }
  }

  /** When keys of one pool agree the loop ends, whatever their order, with the priorities of all of them, or is refused. */
  lemma MigratedIs(r: R.Registry, st: Overlay, raws: seq<string>, url: R.UrlCheck)
    requires Sane(r, url) && OneOrder(r, st) && ComesUp(r, st, raws)
    ensures Migrated(r, st, raws, url) == if Refuses(r, st) then None else Some(Priorities(r, st))
    ensures !Refuses(r, st) ==> Sane(Priorities(r, st), url)
  {
    hide Normalize, Sane, Prioritised, OneOrder, Surviving, Migrates, StoredOrder, Apply;
    if Hopeless(r, st) {
      SomeUnusable(r, st);
    } else {
      NothingPrioritised(r, st);
      AppliedIs(r, st, {}, raws, url);
      assert {} + Elems(raws) == Elems(raws);
      if forall raw :: raw in raws ==> Usable(r, st, raw) {
        AllPrioritised(r, st, raws);
      } else {
        var raw :| raw in raws && !Usable(r, st, raw);
        MigratesIn(r, st, raw);
      }
    }
  }

  lemma {:induction false} AppliedIs(r: R.Registry, st: Overlay, done: set<string>, raws: seq<string>, url: R.UrlCheck)
    requires Sane(r, url) && OneOrder(r, st) && !Hopeless(r, st) && forall raw :: raw in raws ==> Migrates(r, st, raw)
    requires Sane(Prioritised(r, st, done), url)
    ensures var out := Apply(r, Prioritised(r, st, done), st, raws, url);
      if forall raw :: raw in raws ==> Usable(r, st, raw)
      then out == Some(Prioritised(r, st, done + Elems(raws))) && Sane(out.value, url)
      else out.None?
    decreases |raws|
  {
    hide Normalize, Sane, Prioritised, WithPriority, OneOrder, Surviving, Migrates, Usable;
    if raws == [] {
      assert done + Elems(raws) == done;
    } else {
      var raw, rest := raws[0], raws[1..];
      assert forall x :: x in raws <==> x == raw || x in rest;
      assert raw in raws && Migrates(r, st, raw);
      assert done + {raw} + Elems(rest) == done + Elems(raws);
      if Effective(r, st, raw) {
        MigrateOne(r, st, done, raw, url);
        if Usable(r, st, raw) { AppliedIs(r, st, done + {raw}, rest, url); }
      } else {
        AlreadyThere(r, st, done, raw, url);
        AppliedIs(r, st, done + {raw}, rest, url);
      }
    }
  }

  lemma AllPrioritised(r: R.Registry, st: Overlay, raws: seq<string>)
    requires OneOrder(r, st) && ComesUp(r, st, raws) && forall raw :: raw in raws ==> Usable(r, st, raw)
    ensures Prioritised(r, st, Elems(raws)) == Priorities(r, st) && !Refuses(r, st)
  {
    hide Normalize, StoredOrder, Surviving, OrderFor, Unusable, Migrates;
    forall p | p in r.pools ensures OrderFor(r, st, Elems(raws), p) == OrderFor(r, st, st.Keys, p) {
      if raw :| SpeaksFor(r, st, st.Keys, raw, p) {
        OrderForIs(r, st, st.Keys, raw);
        OrderForIs(r, st, Elems(raws), raw);
      } else {
        NobodySpeaks(r, st, Elems(raws), p);
        NobodySpeaks(r, st, st.Keys, p);
      }
    }
  }

  lemma NobodySpeaks(r: R.Registry, st: Overlay, raws: set<string>, p: string)
    requires p in r.pools && forall raw :: !SpeaksFor(r, st, st.Keys, raw, p)
    ensures OrderFor(r, st, raws, p) == r.pools[p].priority
  {
    hide Normalize, StoredOrder, Surviving, Migrates;
    forall raw ensures !SpeaksFor(r, st, raws, raw, p) {
      assert !SpeaksFor(r, st, st.Keys, raw, p);
      assert SpeaksFor(r, st, raws, raw, p) ==> raw in st by { MigratesIn(r, st, raw); }
    }
  }

  lemma MigratesIn(r: R.Registry, st: Overlay, raw: string)
    ensures Migrates(r, st, raw) ==> raw in st
  {
  }

  // ------------------------------------------------------ disabled, as loops

  /** A member to disable as the overlay spells it, and whether the config has it disabled already. */
  datatype Off = Off(pool: string, nick: string, already: bool)

  function FlagOf(o: Off): Flag { Flag(Normalize(o.pool), Normalize(o.nick)) }

  function FlagsOf(os: seq<Off>): set<Flag> { set o | o in os :: FlagOf(o) }

  ghost predicate Found(r: R.Registry, st: Overlay, o: Off) {
    && ResolveIn(r, o.pool, o.nick).Some? && o.already == ResolveIn(r, o.pool, o.nick).value.disabled
    && Listed(r, st, FlagOf(o))
  }

  lemma MoreFlags(os: seq<Off>, o: Off)
    ensures FlagsOf(os + [o]) == FlagsOf(os) + {FlagOf(o)}
    ensures forall x :: x in os + [o] <==> x in os || x == o
  {
    hide Normalize;
    assert o in os + [o];
    forall x | x in FlagsOf(os) ensures x in FlagsOf(os + [o]) {
      var y :| y in os && FlagOf(y) == x;
      assert y in os + [o];
    }
  }

  /** What one key of the overlay asks to disable, every spelling once. */
  method JudgePool(r: R.Registry, st: Overlay, raw: string, sofar: seq<Off>) returns (os: seq<Off>)
    requires raw in st && InScope(r, raw) && forall o :: o in sofar ==> Found(r, st, o)
    ensures forall o :: o in os ==> Found(r, st, o)
    ensures FlagsOf(sofar) <= FlagsOf(os)
    ensures forall n :: Lists(r, st, raw, n) ==> Flag(Twice(raw), Twice(n)) in FlagsOf(os)
  {
    hide Normalize, Found, FlagsOf, InScope, ResolveIn;
    os := sofar;
    var list := st[raw].disabled;
    var seen: set<string> := {};
    for i := 0 to |list|
      invariant forall o :: o in os ==> Found(r, st, o)
      invariant FlagsOf(sofar) <= FlagsOf(os)
      invariant forall k :: k in list[..i] && Lists(r, st, raw, k) ==> Flag(Twice(raw), Twice(k)) in FlagsOf(os)
      invariant forall n :: n in seen && ResolveIn(r, Normalize(raw), n).Some? ==> Flag(Twice(raw), Normalize(n)) in FlagsOf(os)
    {
      assert list[..i + 1] == list[..i] + [list[i]];
      var n := Normalize(list[i]);
      if n != "" && n !in seen {
        seen := seen + {n};
        var b := ResolveIn(r, Normalize(raw), n);
        if b.Some? {
          var o := Off(Normalize(raw), n, b.value.disabled);
          assert Lists(r, st, raw, list[i]);
          FoundHere(r, st, raw, list[i], o);
          MoreFlags(os, o);
          os := os + [o];
        }
      }
    }
    assert list[..|list|] == list;
  }

  lemma FoundHere(r: R.Registry, st: Overlay, raw: string, rawNick: string, o: Off)
    requires Lists(r, st, raw, rawNick) && o.pool == Normalize(raw) && o.nick == Normalize(rawNick)
    requires o.already == ResolveIn(r, o.pool, o.nick).value.disabled
    ensures Found(r, st, o) && FlagOf(o) == Flag(Twice(raw), Twice(rawNick))
  {
    hide Normalize;
    assert FlagOf(o) == Flag(Twice(raw), Twice(rawNick));
  }

  method JudgeDisabledLists(r: R.Registry, st: Overlay) returns (os: seq<Off>)
    ensures forall o :: o in os ==> Found(r, st, o)
    ensures FlagsOf(os) == Flags(r, st)
  {
    hide Normalize, Found, FlagsOf, InScope, ResolveIn, Flags;
    os := [];
    var todo := st.Keys;
    while todo != {}
      invariant todo <= st.Keys && forall o :: o in os ==> Found(r, st, o)
      invariant forall raw, n :: raw in st && raw !in todo && Lists(r, st, raw, n) ==> Flag(Twice(raw), Twice(n)) in FlagsOf(os)
      decreases |todo|
    {
      var raw :| raw in todo;
      todo := todo - {raw};
      if st[raw].disabled != [] && InScope(r, raw) {
        os := JudgePool(r, st, raw, os);
      }
    }
    FlagsComplete(r, st, os);
  }

  lemma FlagsComplete(r: R.Registry, st: Overlay, os: seq<Off>)
    requires forall o :: o in os ==> Found(r, st, o)
    requires forall raw, n :: raw in st && Lists(r, st, raw, n) ==> Flag(Twice(raw), Twice(n)) in FlagsOf(os)
    ensures FlagsOf(os) == Flags(r, st)
  {
    hide Normalize, InScope;
    forall f | f in FlagsOf(os) ensures f in Flags(r, st) {
      var o :| o in os && FlagOf(o) == f;
      assert Found(r, st, o);
    }
    forall f | f in Flags(r, st) ensures f in FlagsOf(os) {
      var raw, n :| Lists(r, st, raw, n) && f == Flag(Twice(raw), Twice(n));
    }
  }

  /** `reconcileLegacyDisabled` up to its write; no flag is ever refused. */
  method MigrateDisabled(r: R.Registry, st: Overlay, url: R.UrlCheck) returns (next: R.Registry, changed: bool)
    requires Sane(r, url)
    ensures next == Disablings(r, st) && (!changed ==> next == r)
  {
    hide Normalize, Sane, Disabled, Found, WithMemberDisabled, Flags, Listed;
    var os := JudgeDisabledLists(r, st);
    var updated := r;
    changed := false;
    NoFlags(r);
    assert FlagsOf(os[..0]) == {};
    for i := 0 to |os|
      invariant Sane(updated, url) && updated == Disabled(r, FlagsOf(os[..i])) && (!changed ==> updated == r)
    {
      var o := os[i];
      assert o in os && Found(r, st, o);
      assert os[..i + 1] == os[..i] + [o];
      MoreFlags(os[..i], o);
      FoundResolves(r, st, o);
      if o.already {
        AlreadyDisabled(r, FlagsOf(os[..i]), FlagOf(o));
      } else {
        DisableStep(r, FlagsOf(os[..i]), o.pool, o.nick, url);
        var more := B.DisableMember(updated, o.pool, o.nick, true, url);
        updated, changed := more.value, true;
      }
    }
    assert os[..|os|] == os;
    return updated, changed;
  }

  lemma FoundResolves(r: R.Registry, st: Overlay, o: Off)
    requires Found(r, st, o)
    ensures ResolveIn(r, o.pool, o.nick).Some? && o.already == ResolveIn(r, o.pool, o.nick).value.disabled
    ensures FlagOf(o).pool in r.pools && FlagOf(o).nick in r.pools[FlagOf(o).pool].byNick
    ensures o.already == r.pools[FlagOf(o).pool].byNick[FlagOf(o).nick].disabled
  {
    hide Normalize;
  }

  lemma AlreadyDisabled(r: R.Registry, flags: set<Flag>, f: Flag)
    requires f.pool in r.pools && f.nick in r.pools[f.pool].byNick && r.pools[f.pool].byNick[f.nick].disabled
    ensures Disabled(r, flags + {f}) == Disabled(r, flags)
  {
    var a, b := Disabled(r, flags + {f}), Disabled(r, flags);
    forall p | p in r.pools ensures a.pools[p] == b.pools[p] { assert a.pools[p].byNick == b.pools[p].byNick; }
    assert a.pools == b.pools;
  }

  /** `legacyKeyCleanup` and `consumeLegacyKeys` up to the write. */
  method Consume(r: R.Registry, st: Overlay) returns (out: Overlay, changed: bool)
    ensures out == Cleaned(r, st) && (!changed ==> out == st)
  {
    hide InScope;
    out, changed := st, false;
    var todo := st.Keys;
    while todo != {}
      invariant todo <= st.Keys == out.Keys
      invariant forall raw :: raw in st ==>
                  out[raw] == if raw !in todo && InScope(r, raw) then Legacy([], [], st[raw].rest) else st[raw]
      invariant !changed ==> out == st
      decreases |todo|
    {
      var raw :| raw in todo;
      todo := todo - {raw};
      if InScope(r, raw) && (st[raw].priority != [] || st[raw].disabled != []) {
        out, changed := out[raw := Legacy([], [], st[raw].rest)], true;
      }
    }
  }

  // ------------------------------------------------------------- the whole start

  /** The two files, and how many atomic writes happen before the process dies. */
  class Disk {
    var config: R.Registry
    var overlay: Overlay
    var left: nat

    constructor (f: Files, writes: nat)
      ensures Held() == f && left == writes
    {
      config, overlay, left := f.config, f.overlay, writes;
    }

    function Held(): Files
      reads this
    {
      Files(config, overlay)
    }

    method WriteConfig(r: R.Registry) returns (ok: bool)
      modifies this
      ensures ok == (old(left) > 0) && left == (if ok then old(left) - 1 else old(left))
      ensures Held() == if ok then old(Held()).(config := r) else old(Held())
    {
      ok := left > 0;
      if ok { config, left := r, left - 1; }
    }

    method WriteOverlay(st: Overlay) returns (ok: bool)
      modifies this
      ensures ok == (old(left) > 0) && left == (if ok then old(left) - 1 else old(left))
      ensures Held() == if ok then old(Held()).(overlay := st) else old(Held())
    {
      ok := left > 0;
      if ok { overlay, left := st, left - 1; }
    }
  }

  lemma AgreedOutcome(r: R.Registry, st: Overlay, next: Option<R.Registry>, url: R.UrlCheck)
    requires Sane(r, url) && OneOrder(r, st) && CanBecome(r, st, url, next)
    ensures next == if Refuses(r, st) then None else Some(Priorities(r, st))
  {
    hide Normalize, Sane, OneOrder, ComesUp, Migrated, Refuses, Priorities;
    var raws :| ComesUp(r, st, raws) && next == Migrated(r, st, raws, url);
    MigratedIs(r, st, raws, url);
  }

  datatype End = Refused | Crashed | Finished

  /** The start ended so, given what the priorities came to. */
  ghost predicate EndsAs(f: Files, next: Option<R.Registry>, end: End, now: Files) {
    match end
    case Refused => next.None? && now == f
    case Finished => next.Some? && now == Written(f, next.value, 3)
    case Crashed => next.Some? && exists k: nat :: k <= 2 && now == Written(f, next.value, k)
  }

  /**
   `reconcileLegacy`, in whatever order the overlay's keys come up: the files end with what the priorities
   can come to, or as they stand after one of the writes if the process died; a refusal touches neither.
   When keys of one pool agree, that is the one outcome.
   */
  method Reconcile(disk: Disk, url: R.UrlCheck) returns (end: End)
    requires Sane(disk.config, url)
    modifies disk
    ensures var f := old(disk.Held());
      exists next :: CanBecome(f.config, f.overlay, url, next) && EndsAs(f, next, end, disk.Held())
    ensures old(disk.left) >= 3 ==> !end.Crashed?
    ensures var f := old(disk.Held()); OneOrder(f.config, f.overlay) ==>
      && (end.Refused? <==> Refuses(f.config, f.overlay))
      && (!end.Crashed? ==> disk.Held() == Outcome(f))
      && (end.Crashed? ==> exists k: nat :: k <= 2 && disk.Held() == After(f, k))
  {
    hide Sane, OneOrder, Refuses, Priorities, Disablings, Cleaned, CanBecome;
    ghost var f := disk.Held();
    var reg, st := disk.config, disk.overlay;
    var a, moved := MigratePriorities(reg, st, url);
    if OneOrder(reg, st) { AgreedOutcome(reg, st, a, url); }
    if a.None? {
      assert EndsAs(f, a, End.Refused, disk.Held());
      return End.Refused;
    }
    if moved {
      var ok := disk.WriteConfig(a.value);
      if !ok {
        assert disk.Held() == Written(f, a.value, 0) && (OneOrder(reg, st) ==> disk.Held() == After(f, 0));
        assert EndsAs(f, a, End.Crashed, disk.Held());
        return End.Crashed;
      }
    }
    assert disk.Held() == Written(f, a.value, 1) && (OneOrder(reg, st) ==> disk.Held() == After(f, 1));
    var b, disabled := MigrateDisabled(a.value, st, url);
    if disabled {
      var ok := disk.WriteConfig(b);
      if !ok {
        assert EndsAs(f, a, End.Crashed, disk.Held());
        return End.Crashed;
      }
    }
    assert disk.Held() == Written(f, a.value, 2) && (OneOrder(reg, st) ==> disk.Held() == After(f, 2));
    var cleaned, consumed := Consume(b, st);
    if consumed {
      var ok := disk.WriteOverlay(cleaned);
      if !ok {
        assert EndsAs(f, a, End.Crashed, disk.Held());
        return End.Crashed;
      }
    }
    assert disk.Held() == Written(f, a.value, 3);
    assert EndsAs(f, a, End.Finished, disk.Held());
    return End.Finished;
  }
}
