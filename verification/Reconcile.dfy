/**
 Re-deriving a controller's configuration after a registry change, keeping what it has
 observed, and the total order over members that every choice uses.
 */
module Reconcile {
  import opened Common
  import opened Availability
  import opened Routing
  import opened Workers
  import opened Restart

  /** What the registry says about one pool: `nicks` is its listing, `members` are those of them it resolves. */
  datatype Config = Config(members: seq<Member>, nicks: seq<string>, disabled: set<string>, declared: seq<string>, concurrency: int)

  function Nicks(ms: seq<Member>): (r: seq<string>)
    ensures |r| == |ms| && forall i :: 0 <= i < |ms| ==> r[i] == ms[i].nick
  {
    seq(|ms|, i requires 0 <= i < |ms| => ms[i].nick)
  }

  /** The first occurrences of `s`, in order. */
  function Dedup(s: seq<string>): (r: seq<string>)
    ensures forall n :: n in r <==> n in s
  {
    if s == [] then []
    else
      assert s == s[..|s| - 1] + [s[|s| - 1]];
      var r := Dedup(s[..|s| - 1]);
      if s[|s| - 1] in r then r else r + [s[|s| - 1]]
  }

  function Without(s: seq<string>, out: seq<string>): (r: seq<string>)
    ensures forall n :: n in r <==> n in s && n !in out
  {
    if s == [] then []
    else
      assert s == s[..|s| - 1] + [s[|s| - 1]];
      var r := Without(s[..|s| - 1], out);
      if s[|s| - 1] in out then r else r + [s[|s| - 1]]
  }

  /** `effectiveOrder`: the declared nicks, then the others sorted. */
  function EffectiveOrder(declared: seq<string>, nicks: seq<string>): seq<string> {
    Dedup(declared) + Without(SortStrings(nicks), declared)
  }

  lemma {:induction false} DedupDistinct(s: seq<string>)
    ensures Distinct(Dedup(s)) && (Distinct(s) ==> Dedup(s) == s)
  {
    if s != [] {
      DedupDistinct(s[..|s| - 1]);
      assert s == s[..|s| - 1] + [s[|s| - 1]];
    }
  }

  lemma {:induction false} WithoutAscending(s: seq<string>, out: seq<string>)
    requires Ascending(s)
    ensures Ascending(Without(s, out))
  {
    if s != [] {
      var k := |s| - 1;
      var r := Without(s[..k], out);
      WithoutAscending(s[..k], out);
      forall i | 0 <= i < |r| ensures StrLe(r[i], s[k]) && r[i] != s[k] {
        assert r[i] in s[..k];
      }
    }
  }

  /** The order is a permutation of the members, the declared list its prefix, the tail ascending. */
  lemma OrderShape(declared: seq<string>, nicks: seq<string>)
    requires Distinct(nicks) && forall n :: n in declared ==> n in nicks
    ensures var order := EffectiveOrder(declared, nicks);
      && Distinct(order) && (forall n :: n in order <==> n in nicks) && |order| == |nicks|
      && Dedup(declared) <= order && Ascending(order[|Dedup(declared)|..])
      && (Distinct(declared) ==> declared <= order)
  {
    var head, tail := Dedup(declared), Without(SortStrings(nicks), declared);
    var order := head + tail;
    DedupDistinct(declared);
    SortAscending(nicks);
    WithoutAscending(SortStrings(nicks), declared);
    assert order[|head|..] == tail;
    forall i, j | 0 <= i < j < |order| ensures order[i] != order[j] {
      if i < |head| && j >= |head| {
        assert order[i] in head && order[j] in tail;
      }
    }
    DistinctSize(order);
    DistinctSize(nicks);
    assert Elems(order) == Elems(nicks);
  }

  /** `reconcileWorkerAffinityLocked`. */
  function ReconcileAffinity(c: Ctl, w: World, ok: NameCheck): Ctl {
    if c.concurrency <= 1 then c.(affinity := map[], cursor := "")
    else
      c.(affinity := map x | x in c.affinity && ok(x) :: c.affinity[x], cursor := NormalCursor(c.cursor, WindowOf(c, w)))
  }

  function KeepMembers<V>(ms: seq<Member>, entries: map<string, V>): map<string, V> {
    map n | n in entries && Find(ms, n).Some? :: entries[n]
  }

  /** The registry's view taken over; parks of members that left go. */
  function Adopt(c: Ctl, g: Config): Ctl {
    c.(members := g.members, disabled := g.disabled, declared := g.declared,
       order := EffectiveOrder(g.declared, g.nicks), concurrency := g.concurrency,
       exhausted := KeepMembers(g.members, c.exhausted), parks := KeepMembers(g.members, c.parks))
  }

  /** Everything but the pointer. */
  function Configure(c: Ctl, w: World, g: Config, ok: NameCheck): Ctl { ReconcileAffinity(Adopt(c, g), w, ok) }

  /** `reconcileLocked`: a pointer whose member left moves to the first healthy one, or to nobody. */
  function ReconcileTo(c: Ctl, w: World, g: Config, ok: NameCheck): Ctl {
    var d := Configure(c, w, g, ok);
    var healthy := FirstHealthy(d, w, d.order);
    if c.cur != "" && Backend(d, c.cur).None? then d.(cur := if healthy.Some? then healthy.value else "")
    else if c.cur == "" && d.members != [] && healthy.Some? then d.(cur := healthy.value)
    else d
  }

  /** A registry's view of a pool is sane: every nick resolves, nicks are distinct and non-empty, and the flags name members only. */
  ghost predicate GoodConfig(g: Config) {
    && g.nicks == Nicks(g.members) && Distinct(g.nicks) && "" !in g.nicks
    && (forall n :: n in g.disabled || n in g.declared ==> n in Nicks(g.members))
    && Distinct(g.declared)
  }

  lemma {:induction false} FindIn(ms: seq<Member>, n: string)
    ensures Find(ms, n).Some? <==> n in Nicks(ms)
  {
    if ms != [] {
      FindIn(ms[1..], n);
      assert Nicks(ms) == [ms[0].nick] + Nicks(ms[1..]);
    }
  }

  /** What a controller shows of its configuration. */
  ghost predicate Mirrors(c: Ctl, g: Config) {
    && c.members == g.members && c.disabled == g.disabled && c.declared == g.declared && c.concurrency == g.concurrency
    && c.order == EffectiveOrder(g.declared, g.nicks)
  }

  lemma MirrorsWF(c: Ctl, g: Config)
    requires GoodConfig(g) && Mirrors(c, g)
    ensures WF(c)
  {
    hide Find, EffectiveOrder, Nicks;
    OrderShape(g.declared, Nicks(g.members));
    forall n ensures n in c.order <==> Backend(c, n).Some? { FindIn(g.members, n); }
  }

  /** After reconciling, the controller mirrors the registry and its pointer is a member or nobody. */
  lemma ReconcileMirrors(c: Ctl, w: World, g: Config, ok: NameCheck)
    requires GoodConfig(g)
    ensures var d := ReconcileTo(c, w, g, ok);
      && Mirrors(d, g) && WF(d) && (d.cur == "" || d.cur in d.order)
      && (c.cur in d.order ==> d.cur == c.cur)
      && (forall n :: n in d.exhausted ==> n in c.exhausted && d.exhausted[n] == c.exhausted[n])
      && (forall n :: n in c.exhausted && n in d.order ==> n in d.exhausted)
      && (forall n :: n in d.parks ==> n in c.parks && d.parks[n] == c.parks[n])
      && (forall n :: n in c.parks && n in d.order ==> n in d.parks)
  {
    hide Find, EffectiveOrder, Nicks, Unavailable, WindowOf, NormalCursor, WF, GoodConfig;
    var d := ReconcileTo(c, w, g, ok);
    MirrorsWF(d, g);
    OrderIsMembers(d, g);
  }

  /**
   A pointer whose member left, or that named nobody, goes to the highest-ranked available member, if there is one.
   Assignments end at concurrency 1; above it those of valid workers stand, and the cursor stays if it is in the window.
   */
  lemma ReconcileLands(c: Ctl, w: World, g: Config, ok: NameCheck)
    requires GoodConfig(g)
    ensures var d := ReconcileTo(c, w, g, ok);
      && (c.cur !in d.order ==> if SomeAvailable(d, w) then HighestAvailable(d, w, d.cur) else d.cur == "")
      && d.lastSeen == c.lastSeen
      && (g.concurrency <= 1 ==> d.affinity == map[] && d.cursor == "")
      && (g.concurrency > 1 ==>
            && (forall x :: x in d.affinity <==> x in c.affinity && ok(x))
            && (forall x :: x in d.affinity ==> d.affinity[x] == c.affinity[x])
            && d.cursor == if c.cursor != "" && c.cursor in WindowOf(d, w) then c.cursor
                           else if WindowOf(d, w) != [] then WindowOf(d, w)[0] else "")
  {
    hide ReconcileTo, Configure, Mirrors, Unavailable, WindowOf, WF, GoodConfig, HighestAvailable, SomeAvailable;
    var d, e := ReconcileTo(c, w, g, ok), Configure(c, w, g, ok);
    ReconcileMirrors(c, w, g, ok);
    OrderIsMembers(d, g);
    assert g.members == d.members by { ShownMembers(d, g); }
    PointerAfter(c, w, g, ok);
    PointerBlind(e, w, d.cur);
    AffinityAfter(c, w, g, ok);
    WindowPointer(e, w, d.cur);
  }

  lemma ShownMembers(c: Ctl, g: Config)
    requires Mirrors(c, g)
    ensures c.members == g.members
  {
    hide EffectiveOrder;
  }

  lemma PointerAfter(c: Ctl, w: World, g: Config, ok: NameCheck)
    ensures var d, e := ReconcileTo(c, w, g, ok), Configure(c, w, g, ok);
      && d == e.(cur := d.cur) && d.order == e.order && d.members == e.members
      && (Backend(d, c.cur).None? && (forall n :: n in d.order ==> Backend(d, n).Some?) ==>
            if SomeAvailable(e, w) then HighestAvailable(e, w, d.cur) else d.cur == "")
  {
    hide Find, Unavailable, HighestAvailable, SomeAvailable, Configure;
    var d, e := ReconcileTo(c, w, g, ok), Configure(c, w, g, ok);
    KeptPointer(c, w, g, ok);
    HealthyOrNobody(e, w);
    if e.order != [] { MembersThere(e); }
    if e.order == [] { NobodyThere(e, w); }
  }

  lemma NobodyThere(c: Ctl, w: World)
    requires c.order == []
    ensures !SomeAvailable(c, w)
  {
  }

  lemma MembersThere(c: Ctl)
    requires c.order != []
    ensures (forall n :: n in c.order ==> Backend(c, n).Some?) ==> c.members != []
  {
    hide Find;
    assert c.order[0] in c.order;
    assert Backend(c, c.order[0]).Some? ==> Backend(c, c.order[0]).value in c.members;
  }

  lemma KeptPointer(c: Ctl, w: World, g: Config, ok: NameCheck)
    ensures Configure(c, w, g, ok).cur == c.cur
  {
    hide WindowOf, NormalCursor, EffectiveOrder, KeepMembers;
  }

  lemma AffinityAfter(c: Ctl, w: World, g: Config, ok: NameCheck)
    ensures var e := Configure(c, w, g, ok);
      && e.lastSeen == c.lastSeen
      && (g.concurrency <= 1 ==> e.affinity == map[] && e.cursor == "")
      && (g.concurrency > 1 ==>
            && (forall x :: x in e.affinity <==> x in c.affinity && ok(x))
            && (forall x :: x in e.affinity ==> e.affinity[x] == c.affinity[x])
            && e.cursor == if c.cursor != "" && c.cursor in WindowOf(e, w) then c.cursor
                           else if WindowOf(e, w) != [] then WindowOf(e, w)[0] else "")
  {
    hide Adopt, WindowOf;
    var a, e := Adopt(c, g), Configure(c, w, g, ok);
    AdoptFields(c, g);
    WindowStable(a, w, a.lastSeen, e.affinity, e.cursor);
  }

  lemma AdoptFields(c: Ctl, g: Config)
    ensures var a := Adopt(c, g);
      && a.cur == c.cur && a.affinity == c.affinity && a.lastSeen == c.lastSeen && a.cursor == c.cursor
      && a.members == g.members && a.concurrency == g.concurrency
  {
  }

  lemma WindowPointer(c: Ctl, w: World, cur: string)
    ensures WindowOf(c.(cur := cur), w) == WindowOf(c, w)
  {
    hide Unavailable;
    PointerBlind(c, w, cur);
    AvailableStable(c, c.(cur := cur), w, c.order);
  }

  lemma OrderIsMembers(d: Ctl, g: Config)
    requires WF(d) && Mirrors(d, g)
    ensures forall n :: n in d.order <==> Find(g.members, n).Some?
    ensures "" !in d.order
  {
    hide Find, EffectiveOrder;
  }
}
