/**
 Persisting a controller and loading it into a fresh one. The sticky pointer is
 re-anchored before the credential parks are back, and still nothing a client sees changes.
 */
module Restart {
  import opened Common
  import opened Availability
  import opened Routing
  import opened Workers

  /** `PoolPersistState`. Every stored field is written out; parks keep their class and `since`. */
  datatype Persisted = Persisted(sticky: string, exhausted: map<string, Time>, parks: map<string, Park>,
                                 affinity: map<string, string>, cursor: string)

  /** Which worker names are valid is a parameter. */
  type NameCheck = string -> bool

  function PersistState(c0: Ctl, w: World, ok: NameCheck): (Ctl, Persisted) {
    var c := PruneIdle(c0, w.now);
    (c, Persisted(c.cur, c.exhausted, c.parks,
                  map x | x in c.affinity && ok(x) && c.affinity[x] != "" :: c.affinity[x],
                  if c.cursor != "" && Backend(c, c.cursor).Some? && Available(c, w, c.cursor) then c.cursor else ""))
  }

  /** The starting index is -1 for a nick that is no member, and wraps to the last one. */
  function AnchorAt(members: seq<Member>, nick: string): string
    requires members != []
  {
    if Find(members, nick).Some? then nick else members[|members| - 1].nick
  }

  /** `NewController` over the same registry: configuration only, anchored on the first healthy member. */
  function Fresh(c: Ctl, w: World): Ctl {
    var d := c.(cur := "", exhausted := map[], parks := map[], affinity := map[], lastSeen := map[], cursor := "");
    var healthy := FirstHealthy(d, w, d.order);
    d.(cur := if d.members == [] then ""
              else if healthy.Some? then AnchorAt(d.members, healthy.value)
              else if d.order != [] then AnchorAt(d.members, d.order[0]) else d.members[0].nick)
  }

  function Reanchor(c: Ctl, w: World): Ctl {
    var healthy := FirstHealthy(c, w, c.order);
    if c.members == [] || (c.cur != "" && Available(c, w, c.cur)) then c
    else if healthy.Some? then c.(cur := healthy.value)
    else if SoonestDue(c, w).nick != "" then c.(cur := SoonestDue(c, w).nick)
    else c
  }

  /** What loading keeps: entries of current members that have not lapsed. */
  function KeepTimes(ms: seq<Member>, times: map<string, Time>, now: Time): map<string, Time> {
    map n | n in times && now < times[n] && Find(ms, n).Some? :: times[n]
  }

  function KeepParks(ms: seq<Member>, parks: map<string, Park>, now: Time): map<string, Park> {
    map n | n in parks && now < parks[n].reset && Find(ms, n).Some? :: parks[n]
  }

  function LoadState(c: Ctl, sticky: string, exhausted: map<string, Time>, w: World): Ctl {
    Reanchor(c.(cur := if Backend(c, sticky).Some? then sticky else c.cur,
                exhausted := KeepTimes(c.members, exhausted, w.now)), w)
  }

  function LoadParks(c: Ctl, parks: map<string, Park>, w: World): Ctl {
    c.(parks := KeepParks(c.members, parks, w.now))
  }

  function LoadAffinity(c: Ctl, affinity: map<string, string>, cursor: string, w: World, ok: NameCheck): Ctl {
    if c.concurrency <= 1 then c.(affinity := map[], lastSeen := map[], cursor := "")
    else
      var kept := map x | x in affinity && ok(x) && affinity[x] != "" :: affinity[x];
      c.(affinity := kept, lastSeen := map x | x in kept :: w.now, cursor := NormalCursor(cursor, WindowOf(c, w)))
  }

  /** The controller after a restart: written out, built anew from the same registry, and loaded. */
  function Restarted(c: Ctl, w: World, ok: NameCheck): Ctl {
    var p := PersistState(c, w, ok).1;
    LoadAffinity(LoadParks(LoadState(Fresh(c, w), p.sticky, p.exhausted, w), p.parks, w), p.affinity, p.cursor, w, ok)
  }

  // -------------------------------------------------------- nothing is lost

  /** Same configuration, and the same live parks on every member. */
  ghost predicate SameParks(c: Ctl, d: Ctl, now: Time) {
    && d.members == c.members && d.order == c.order && d.disabled == c.disabled && d.concurrency == c.concurrency
    && forall n :: n in c.order ==>
         && LiveExhausted(d, now, n) == LiveExhausted(c, now, n)
         && (LiveExhausted(c, now, n) ==> d.exhausted[n] == c.exhausted[n])
         && LivePark(d, now, n) == LivePark(c, now, n)
         && (LivePark(c, now, n) ==> d.parks[n] == c.parks[n])
  }

  lemma ReanchorFields(c: Ctl, w: World)
    ensures Reanchor(c, w) == c.(cur := Reanchor(c, w).cur)
  {
    hide FirstHealthy, SoonestDue, Unavailable;
  }

  /** A healthy pointer stays; else it goes to the highest-ranked available member, else to the one that frees up first. */
  lemma ReanchorLands(c: Ctl, w: World)
    requires WF(c)
    ensures var d := Reanchor(c, w);
      && (c.cur != "" && Available(c, w, c.cur) ==> d.cur == c.cur)
      && (!(c.cur != "" && Available(c, w, c.cur)) && SomeAvailable(c, w) ==> HighestAvailable(c, w, d.cur))
      && (!(c.cur != "" && Available(c, w, c.cur)) && !SomeAvailable(c, w) ==>
            if exists n :: n in c.order && Enabled(c, n) then
              Enabled(c, d.cur) && ExhaustedUntil(c, w, d.cur).Some? && LeastDue(c, w, ExhaustedUntil(c, w, d.cur).value)
            else d.cur == c.cur)
  {
    hide ExhaustedUntil, FirstHealthy, SoonestDue, HighestAvailable, LeastDue;
    HealthyOrNobody(c, w);
    if !SomeAvailable(c, w) { SoonestFound(c, w); }
    forall n | n in c.order ensures c.members != [] { assert Backend(c, n).value in c.members; }
    if exists n :: n in c.order && Enabled(c, n) { DueIsListed(c, w); }
  }

  /** A new controller starts at its highest-ranked member that the store does not block, or else at the first of its order. */
  lemma FreshLands(c: Ctl, w: World)
    requires WF(c) && c.order != []
    ensures var d := Fresh(c, w);
      && d == c.(cur := d.cur, exhausted := map[], parks := map[], affinity := map[], lastSeen := map[], cursor := "")
      && d.cur in d.order
      && (if SomeAvailable(d, w) then HighestAvailable(d, w, d.cur) else d.cur == c.order[0])
      && forall n :: Available(d, w, n) <==> n !in c.disabled && forall b :: !StoreHolds(c, w, n, b)
  {
    hide Find, ExhaustedUntil, HighestAvailable, StoreBound, StoreHolds;
    var e, d := c.(cur := "", exhausted := map[], parks := map[], affinity := map[], lastSeen := map[], cursor := ""), Fresh(c, w);
    HealthyOrNobody(e, w);
    PointerBlind(e, w, d.cur);
    forall n | n in c.order ensures c.members != [] && Backend(e, n).Some? {
      assert Backend(c, n).value in c.members && Backend(e, n) == Backend(c, n);
    }
    assert c.order[0] in c.order;
    forall n { OnlyStoreBlocks(c, d, w, n); }
  }

  lemma OnlyStoreBlocks(c: Ctl, d: Ctl, w: World, n: string)
    requires d == c.(cur := d.cur, exhausted := map[], parks := map[], affinity := map[], lastSeen := map[], cursor := "")
    ensures Available(d, w, n) <==> n !in c.disabled && forall b :: !StoreHolds(c, w, n, b)
  {
    hide StoreHolds;
    StoreHoldsExactly(d, w, n);
    forall b ensures StoreHolds(d, w, n, b) == StoreHolds(c, w, n, b) { SameHolds(c, d, w, n, b); }
  }

  lemma SameHolds(c: Ctl, d: Ctl, w: World, n: string, b: Time)
    requires d.members == c.members
    ensures StoreHolds(d, w, n, b) == StoreHolds(c, w, n, b)
  {
    hide Find;
  }

  lemma RestartFields(c: Ctl, w: World, ok: NameCheck)
    ensures var d := Restarted(c, w, ok);
      && d.members == c.members && d.order == c.order && d.disabled == c.disabled && d.concurrency == c.concurrency
      && d.exhausted == KeepTimes(c.members, c.exhausted, w.now)
      && d.parks == KeepParks(c.members, c.parks, w.now)
  {
    hide FirstHealthy, WindowOf, NormalCursor, Reanchor, PruneIdle, Available, Find, KeepTimes, KeepParks;
    var p := PersistState(c, w, ok).1;
    PruneFields(c, w.now);
    var f := Fresh(c, w);
    ReanchorFields(f.(cur := if Backend(f, p.sticky).Some? then p.sticky else f.cur,
                      exhausted := KeepTimes(f.members, p.exhausted, w.now)), w);
  }

  lemma PruneFields(c: Ctl, now: Time)
    ensures PruneIdle(c, now) == c.(lastSeen := PruneIdle(c, now).lastSeen, affinity := PruneIdle(c, now).affinity)
  {
  }

  lemma RestartKeepsParks(c: Ctl, w: World, ok: NameCheck)
    requires WF(c)
    ensures SameParks(c, Restarted(c, w, ok), w.now) && WF(Restarted(c, w, ok))
  {
    hide Restarted, Find;
    RestartFields(c, w, ok);
    var d := Restarted(c, w, ok);
    assert forall n :: Backend(d, n) == Backend(c, n);
  }

  lemma SameBounds(c: Ctl, d: Ctl, w: World, n: string)
    requires SameParks(c, d, w.now) && n in c.order
    ensures ExhaustedUntil(d, w, n) == ExhaustedUntil(c, w, n) && Unavailable(d, w, n) == Unavailable(c, w, n)
    ensures AuthParked(d, w, n) == AuthParked(c, w, n) && LiveRecorded(d, w.now, n) == LiveRecorded(c, w.now, n)
  {
    assert Reconciling(d, w, n) == Reconciling(c, w, n);
    assert StoreBound(d, w, n) == StoreBound(c, w, n);
    assert ExhaustedBound(d, w, n) == ExhaustedBound(c, w, n);
    assert ParkBound(d, w, n) == ParkBound(c, w, n);
  }

  lemma {:induction false} SameFirstHealthy(c: Ctl, d: Ctl, w: World, order: seq<string>)
    requires SameParks(c, d, w.now) && forall n :: n in order ==> n in c.order
    ensures FirstHealthy(d, w, order) == FirstHealthy(c, w, order)
  {
    hide Unavailable, SameParks;
    if order != [] {
      SameBounds(c, d, w, order[0]);
      SameFirstHealthy(c, d, w, order[1..]);
    }
  }

  lemma {:induction false} SameFirstUnparked(c: Ctl, d: Ctl, w: World, order: seq<string>)
    requires SameParks(c, d, w.now) && forall n :: n in order ==> n in c.order
    ensures FirstUnparked(d, w.now, order) == FirstUnparked(c, w.now, order)
  {
    hide LiveRecorded;
    if order != [] {
      SameBounds(c, d, w, order[0]);
      SameFirstUnparked(c, d, w, order[1..]);
    }
  }

  lemma {:induction false} SameFirstEnabled(c: Ctl, d: Ctl, order: seq<string>)
    requires d.disabled == c.disabled
    ensures FirstEnabled(d, order) == FirstEnabled(c, order)
  {
    if order != [] { SameFirstEnabled(c, d, order[1..]); }
  }

  lemma SameAuthOnly(c: Ctl, d: Ctl, w: World)
    requires SameParks(c, d, w.now)
    ensures AuthOnly(d, w) == AuthOnly(c, w)
  {
    hide AuthParked, ExhaustedUntil;
    forall n | n in c.order ensures AuthParked(d, w, n) == AuthParked(c, w, n) { SameBounds(c, d, w, n); }
    SameFirstEnabled(c, d, c.order);
  }

  lemma {:induction false} SameSoonest(c: Ctl, d: Ctl, w: World, ms: seq<Member>)
    requires SameParks(c, d, w.now) && forall m :: m in ms ==> m.nick in c.order
    ensures Soonest(d, w, ms) == Soonest(c, w, ms)
  {
    hide ExhaustedUntil, SameParks;
    if ms != [] {
      SameBounds(c, d, w, ms[|ms| - 1].nick);
      SameSoonest(c, d, w, ms[..|ms| - 1]);
      assert d.disabled == c.disabled by { SameConfig(c, d, w.now); }
    }
  }

  lemma SameConfig(c: Ctl, d: Ctl, now: Time)
    requires SameParks(c, d, now)
    ensures d.members == c.members && d.order == c.order && d.disabled == c.disabled && d.concurrency == c.concurrency
  {
  }

  /** A dry answer names the same wait, whoever is sticky. */
  lemma SameWait(c: Ctl, d: Ctl, w: World)
    requires SameParks(c, d, w.now) && WF(c)
    ensures DryAnswer(d, w).wait == DryAnswer(c, w).wait && DryAnswer(d, w).dry && DryAnswer(c, w).dry
  {
    hide ExhaustedUntil, SameParks;
    SameConfig(c, d, w.now);
    forall m | m in c.members ensures m.nick in c.order { MembersAndOrder(c, m); }
    SameSoonest(c, d, w, c.members);
    var s := Soonest(c, w, c.members);
    if s.Some? {
      var m :| m in c.members && m.nick == s.value.nick;
      MembersAndOrder(c, m);
    }
  }

  // -------------------------------------------------- where the pointer lands

  /** What the first two tiers serve. */
  function Served(c: Ctl, w: World): Option<string> {
    if c.cur != "" && c.cur in c.order && Available(c, w, c.cur) then Some(c.cur) else FirstHealthy(c, w, c.order)
  }

  /** Availability under fewer parks. */
  ghost predicate Milder(c: Ctl, d: Ctl, w: World) {
    d.order == c.order && forall n :: n in c.order && Available(c, w, n) ==> Available(d, w, n)
  }

  lemma {:induction false} FirstOfMilder(c: Ctl, d: Ctl, w: World, order: seq<string>)
    requires forall n :: n in order && Available(c, w, n) ==> Available(d, w, n)
    ensures var r := FirstHealthy(d, w, order);
      && (r.None? ==> FirstHealthy(c, w, order).None?)
      && (r.Some? && Available(c, w, r.value) ==> FirstHealthy(c, w, order) == r)
  {
    if order != [] && Unavailable(d, w, order[0]) { FirstOfMilder(c, d, w, order[1..]); }
  }

  lemma DroppingParksIsMilder(c: Ctl, d: Ctl, w: World, n: string)
    requires d.members == c.members && d.disabled == c.disabled
    requires LiveExhausted(d, w.now, n) ==> LiveExhausted(c, w.now, n) && d.exhausted[n] == c.exhausted[n]
    requires LivePark(d, w.now, n) ==> LivePark(c, w.now, n) && d.parks[n] == c.parks[n]
    ensures Available(c, w, n) ==> Available(d, w, n)
  {
    assert Reconciling(d, w, n) == Reconciling(c, w, n);
    assert StoreBound(d, w, n) == StoreBound(c, w, n);
  }

  /** A pointer that is the original one, or the first healthy member under fewer parks, or stands where nobody is healthy. */
  ghost predicate Anchored(c: Ctl, w: World, cur: string) {
    || (cur == c.cur && cur in c.order)
    || (FirstHealthy(c, w, c.order).None?)
    || (cur in c.order && Available(c, w, cur) ==> FirstHealthy(c, w, c.order) == Some(cur))
  }

  lemma ReanchorAnchors(c: Ctl, e: Ctl, w: World)
    requires WF(c) && e.members == c.members && Milder(c, e, w)
    requires (c.cur in c.order && e.cur == c.cur)
          || (c.cur !in c.order && (Available(c, w, e.cur) && e.cur in c.order ==> FirstHealthy(c, w, c.order) == Some(e.cur)))
    ensures Anchored(c, w, Reanchor(e, w).cur)
    ensures c.cur in c.order && Available(c, w, c.cur) ==> Reanchor(e, w).cur == c.cur
  {
    hide Unavailable, SoonestDue;
    FirstOfMilder(c, e, w, c.order);
  }

  lemma FreshAnchor(c: Ctl, w: World)
    requires WF(c)
    ensures var d := Fresh(c, w);
      Available(c, w, d.cur) && d.cur in c.order ==> FirstHealthy(c, w, c.order) == Some(d.cur)
  {
    hide Unavailable;
    var d := c.(cur := "", exhausted := map[], parks := map[], affinity := map[], lastSeen := map[], cursor := "");
    forall n | n in c.order && Available(c, w, n) ensures Available(d, w, n) { DroppingParksIsMilder(c, d, w, n); }
    FirstOfMilder(c, d, w, c.order);
  }

  /** `LoadState` before re-anchoring: pointer and quota parks are back, credential parks are not. */
  function BeforeAnchor(c: Ctl, w: World): Ctl {
    var f := Fresh(c, w);
    f.(cur := if Backend(f, c.cur).Some? then c.cur else f.cur,
       exhausted := KeepTimes(f.members, c.exhausted, w.now))
  }

  lemma PointerLands(c: Ctl, w: World, ok: NameCheck)
    requires WF(c)
    ensures var cur := Restarted(c, w, ok).cur;
      && Anchored(c, w, cur)
      && (c.cur in c.order && Available(c, w, c.cur) ==> cur == c.cur)
  {
    hide Unavailable, FirstHealthy, SoonestDue, WindowOf, NormalCursor, Anchored, Reanchor;
    var e := BeforeAnchor(c, w);
    FreshAnchor(c, w);
    assert Restarted(c, w, ok).cur == Reanchor(e, w).cur;
    forall n | n in c.order && Available(c, w, n) ensures Available(e, w, n) { DroppingParksIsMilder(c, e, w, n); }
    ReanchorAnchors(c, e, w);
  }

  lemma ServedSame(c: Ctl, w: World, ok: NameCheck)
    requires WF(c)
    ensures Served(Restarted(c, w, ok), w) == Served(c, w)
  {
    hide Unavailable, Restarted, SameParks, FirstHealthy;
    var d := Restarted(c, w, ok);
    RestartKeepsParks(c, w, ok);
    SameConfig(c, d, w.now);
    PointerLands(c, w, ok);
    SameFirstHealthy(c, d, w, c.order);
    if d.cur in c.order { SameBounds(c, d, w, d.cur); }
    if FirstHealthy(c, w, c.order).None? { NobodyHealthy(c, w); }
  }

  lemma NobodyHealthy(c: Ctl, w: World)
    requires FirstHealthy(c, w, c.order).None?
    ensures forall n :: n in c.order ==> Unavailable(c, w, n)
  {
    hide Unavailable;
  }

  // --------------------------------------------------------------- transparency

  ghost predicate SameAnswer(a: Resolution, b: Resolution) {
    a.dry == b.dry && a.wait == b.wait && (!a.dry ==> a.backend == b.backend)
  }

  /** What `ResolveAuto` answers, in terms of what a restart keeps. */
  function Answer(c: Ctl, w: World): Resolution {
    var served, auth, unparked := Served(c, w), AuthOnly(c, w), FirstUnparked(c, w.now, c.order);
    if served.Some? then Resolution(Backend(c, served.value), 0, false)
    else if auth.Some? then Resolution(Backend(c, auth.value), 0, false)
    else if unparked.Some? then Resolution(Backend(c, unparked.value), 0, false)
    else DryAnswer(c, w)
  }

  lemma AnswerOfCleared(c: Ctl, w: World)
    requires WF(c)
    ensures ResolveAuto(c, w).1 == Answer(ClearExpired(c, w.now), w)
  {
    hide Unavailable, AllAuthParked, DryAnswer, SoonestDue;
    var d := ClearExpired(c, w.now);
    assert WF(d) by { ClearKeepsAll(c, w); }
    assert d.cur != "" && Backend(d, d.cur).Some? <==> d.cur in d.order && d.cur != "";
  }

  lemma ClearedSameParks(c: Ctl, now: Time)
    ensures SameParks(c, ClearExpired(c, now), now)
  {
  }

  lemma AnswerOfSame(c: Ctl, d: Ctl, w: World)
    requires WF(c) && SameParks(c, d, w.now) && Served(d, w) == Served(c, w)
    ensures SameAnswer(Answer(c, w), Answer(d, w))
  {
    hide Unavailable, SameParks, DryAnswer, Served, AuthOnly, FirstUnparked;
    SameConfig(c, d, w.now);
    SameAuthOnly(c, d, w);
    SameFirstUnparked(c, d, w, c.order);
    SameWait(c, d, w);
  }

  lemma ServedCleared(c: Ctl, w: World)
    requires WF(c)
    ensures Served(ClearExpired(c, w.now), w) == Served(c, w)
  {
    hide Unavailable, SameParks;
    var d := ClearExpired(c, w.now);
    ClearedSameParks(c, w.now);
    SameFirstHealthy(c, d, w, c.order);
    if c.cur in c.order { SameBounds(c, d, w, c.cur); }
  }

  lemma AutoAnswer(c: Ctl, w: World)
    requires WF(c)
    ensures SameAnswer(ResolveAuto(c, w).1, Answer(c, w))
  {
    hide Answer, ResolveAuto, Served, SameParks, WF;
    AnswerOfCleared(c, w);
    ClearedSameParks(c, w.now);
    ServedCleared(c, w);
    AnswerOfSame(c, ClearExpired(c, w.now), w);
  }

  /** Restarting leaves the next `ResolveAuto` with the same verdict, wait and, unless dry, backend. */
  lemma AutoTransparent(c: Ctl, w: World, ok: NameCheck)
    requires WF(c)
    ensures SameAnswer(ResolveAuto(c, w).1, ResolveAuto(Restarted(c, w, ok), w).1)
  {
    hide Answer, ResolveAuto, Served, SameParks, WF, Restarted;
    var d := Restarted(c, w, ok);
    RestartKeepsParks(c, w, ok);
    ServedSame(c, w, ok);
    AutoAnswer(c, w);
    AutoAnswer(d, w);
    AnswerOfSame(c, d, w);
  }

  // -------------------------------------------------------------------- workers

  lemma {:induction false} SameAvailable(c: Ctl, d: Ctl, w: World, order: seq<string>)
    requires SameParks(c, d, w.now) && forall n :: n in order ==> n in c.order
    ensures AvailableOf(d, w, order) == AvailableOf(c, w, order)
  {
    hide Unavailable, SameParks;
    if order != [] {
      SameBounds(c, d, w, order[0]);
      SameAvailable(c, d, w, order[1..]);
    }
  }

  lemma SameWindow(c: Ctl, d: Ctl, w: World)
    requires SameParks(c, d, w.now)
    ensures WindowOf(d, w) == WindowOf(c, w)
  {
    hide SameParks, Unavailable;
    SameConfig(c, d, w.now);
    SameAvailable(c, d, w, c.order);
  }

  /** Recorded assignments always name a valid worker and a member; requests and loads see to it. */
  ghost predicate GoodAffinity(c: Ctl, ok: NameCheck) {
    forall x :: x in c.affinity ==> ok(x) && c.affinity[x] != ""
  }

  /** A request keeps them so. */
  lemma AffinityStaysGood(c: Ctl, w: World, ok: NameCheck, x: string)
    requires WF(c) && GoodAffinity(c, ok) && ok(x)
    ensures GoodAffinity(ResolveWorker(c, w, x).0, ok)
  {
    hide ResolveAuto, WindowOf, NextSlot, Stays, NoWindow, Find, NormalCursor, WF;
    if c.concurrency <= 1 {
      var d := PruneIdle(c, w.now);
      AutoKeepsAffinity(d.(lastSeen := d.lastSeen[x := w.now]), w);
    } else {
      var d := Prepare(c, w, x);
      var e := d.(affinity := d.affinity - {x});
      WindowNamed(d, w, c);
      assert GoodAffinity(d, ok) && GoodAffinity(e, ok);
    }
  }

  lemma AutoKeepsAffinity(c: Ctl, w: World)
    ensures ResolveAuto(c, w).0.affinity == c.affinity
  {
    hide FirstHealthy, FirstUnparked, AuthOnly, SoonestDue, DryAnswer, Unavailable, Find, LiveTimes, LiveParks;
  }

  lemma WindowNamed(d: Ctl, w: World, c: Ctl)
    requires WF(c) && d.order == c.order
    ensures "" !in WindowOf(d, w)
  {
    hide AvailableOf;
  }

  lemma RestartWorkers(c: Ctl, w: World, ok: NameCheck)
    requires WF(c) && c.concurrency > 1 && GoodAffinity(c, ok)
    ensures var d := Restarted(c, w, ok);
      && d.affinity == PruneIdle(c, w.now).affinity
      && (forall x :: x in d.affinity <==> x in c.affinity && (x in c.lastSeen ==> w.now - c.lastSeen[x] <= HOUR))
      && (forall x :: x in d.affinity ==> d.affinity[x] == c.affinity[x] && x in d.lastSeen)
      && (forall x :: x in d.lastSeen ==> d.lastSeen[x] == w.now && x in d.affinity)
      && d.cursor == NormalCursor(c.cursor, WindowOf(c, w))
  {
    hide FirstHealthy, WindowOf, Reanchor, Unavailable, Find, NormalCursor;
    var p := PersistState(c, w, ok).1;
    assert p.affinity == PruneIdle(c, w.now).affinity;
    var e := LoadParks(LoadState(Fresh(c, w), p.sticky, p.exhausted, w), p.parks, w);
    LoadedSameParks(c, w, ok);
    SameWindow(c, e, w);
    CursorKept(c, w, ok);
    KeepAll(p.affinity, ok);
  }

  lemma KeepAll(a: map<string, string>, ok: NameCheck)
    requires forall x :: x in a ==> ok(x) && a[x] != ""
    ensures (map x | x in a && ok(x) && a[x] != "" :: a[x]) == a
  {
  }

  lemma LoadedSameParks(c: Ctl, w: World, ok: NameCheck)
    requires WF(c)
    ensures var p := PersistState(c, w, ok).1;
      var e := LoadParks(LoadState(Fresh(c, w), p.sticky, p.exhausted, w), p.parks, w);
      SameParks(c, e, w.now) && e.concurrency == c.concurrency
  {
    hide FirstHealthy, WindowOf, NormalCursor, Unavailable, SameParks;
    var p := PersistState(c, w, ok).1;
    var e := LoadParks(LoadState(Fresh(c, w), p.sticky, p.exhausted, w), p.parks, w);
    var d := Restarted(c, w, ok);
    RestartKeepsParks(c, w, ok);
    assert d == e.(affinity := d.affinity, lastSeen := d.lastSeen, cursor := d.cursor);
    ParksOnly(c, d, e, w.now);
  }

  lemma ParksOnly(c: Ctl, d: Ctl, e: Ctl, now: Time)
    requires SameParks(c, d, now) && d == e.(affinity := d.affinity, lastSeen := d.lastSeen, cursor := d.cursor)
    ensures SameParks(c, e, now)
  {
  }

  lemma CursorKept(c: Ctl, w: World, ok: NameCheck)
    requires WF(c)
    ensures NormalCursor(PersistState(c, w, ok).1.cursor, WindowOf(c, w)) == NormalCursor(c.cursor, WindowOf(c, w))
  {
    hide WindowOf, FirstHealthy;
    var q := PruneIdle(c, w.now);
    WindowStable(c, w, q.lastSeen, q.affinity, q.cursor);
    if c.cursor in WindowOf(c, w) {
      assert c.cursor in c.order && Available(q, w, c.cursor) && Backend(q, c.cursor).Some?;
    }
  }

  lemma SameAfterPrepare(c: Ctl, w: World, ok: NameCheck, x: string)
    requires WF(c) && c.concurrency > 1 && GoodAffinity(c, ok)
    ensures var a, b := Prepare(c, w, x), Prepare(Restarted(c, w, ok), w, x);
      && SameParks(a, b, w.now) && WF(a) && b.affinity == a.affinity && b.cursor == a.cursor
      && WindowOf(b, w) == WindowOf(a, w)
  {
    hide WindowOf, Restarted, NormalCursor;
    var d := Restarted(c, w, ok);
    RestartKeepsParks(c, w, ok);
    RestartWorkers(c, w, ok);
    PreparedParks(c, w, x);
    PreparedParks(d, w, x);
    var a, b := Prepare(c, w, x), Prepare(d, w, x);
    SameParksCompose(c, a, d, b, w.now);
    SameWindow(a, b, w);
    NormalTwice(c.cursor, WindowOf(c, w), c, w);
    SameWindow(c, d, w);
    assert b.affinity == d.affinity == a.affinity;
  }

  lemma PruneCleared(c: Ctl, now: Time)
    ensures PruneIdle(ClearExpired(c, now), now).affinity == PruneIdle(c, now).affinity
  {
  }

  lemma WFOf(c: Ctl, d: Ctl)
    requires WF(c) && d.members == c.members && d.order == c.order && d.disabled == c.disabled
    ensures WF(d)
  {
    assert forall n :: Backend(d, n) == Backend(c, n);
  }

  lemma PreparedParks(c: Ctl, w: World, x: string)
    requires WF(c)
    ensures var a := Prepare(c, w, x);
      SameParks(c, a, w.now) && WF(a) && WindowOf(a, w) == WindowOf(c, w)
      && a.affinity == PruneIdle(c, w.now).affinity && a.cursor == NormalCursor(c.cursor, WindowOf(c, w))
  {
    hide WindowOf, NormalCursor, Find, WF;
    var a := Prepare(c, w, x);
    PruneCleared(c, w.now);
    ClearedSameParks(c, w.now);
    SameWindow(c, PruneIdle(ClearExpired(c, w.now), w.now), w);
    SameWindow(c, a, w);
    WFOf(c, a);
  }

  lemma SameParksCompose(c: Ctl, a: Ctl, d: Ctl, b: Ctl, now: Time)
    requires SameParks(c, a, now) && SameParks(c, d, now) && SameParks(d, b, now)
    ensures SameParks(a, b, now)
  {
  }

  lemma NormalTwice(cursor: string, window: seq<string>, c: Ctl, w: World)
    requires WF(c) && window == WindowOf(c, w)
    ensures NormalCursor(NormalCursor(cursor, window), window) == NormalCursor(cursor, window)
  {
    hide Unavailable;
    if window != [] { assert window[0] in c.order; }
  }

  lemma AutoIgnoresWorkers(c: Ctl, w: World, d: Ctl)
    requires WF(c) && d == c.(affinity := d.affinity, lastSeen := d.lastSeen, cursor := d.cursor)
    ensures SameAnswer(ResolveAuto(c, w).1, ResolveAuto(d, w).1)
  {
    hide ResolveAuto, Unavailable, Answer, FirstHealthy;
    assert SameParks(c, d, w.now);
    assert forall n :: Backend(d, n) == Backend(c, n);
    SameFirstHealthy(c, d, w, c.order);
    if c.cur in c.order { SameBounds(c, d, w, c.cur); }
    AutoAnswer(c, w);
    AutoAnswer(d, w);
    AnswerOfSame(c, d, w);
  }

  lemma ReassignSame(a: Ctl, b: Ctl, w: World, window: seq<string>, x: string)
    requires WF(a) && SameParks(a, b, w.now) && b.affinity == a.affinity && b.cursor == a.cursor
    ensures SameAnswer(Reassign(a, w, window, x).1, Reassign(b, w, window, x).1)
  {
    hide SameParks, NextSlot, DryAnswer, AuthOnly, Find;
    SameConfig(a, b, w.now);
    SameAuthOnly(a, b, w);
    SameWait(a, b, w);
  }

  /** The same for the next `ResolveWorker`, at every concurrency. */
  lemma WorkerTransparent(c: Ctl, w: World, ok: NameCheck, x: string)
    requires WF(c) && GoodAffinity(c, ok) && ok(x)
    ensures SameAnswer(ResolveWorker(c, w, x).1, ResolveWorker(Restarted(c, w, ok), w, x).1)
  {
    hide Restarted, ResolveAuto, Prepare, Reassign, WindowOf, SameParks, WF, Least, Count;
    var d := Restarted(c, w, ok);
    RestartKeepsParks(c, w, ok);
    SameConfig(c, d, w.now);
    if c.concurrency <= 1 {
      AutoIgnoresWorkers(c, w, PruneIdle(c, w.now).(lastSeen := PruneIdle(c, w.now).lastSeen[x := w.now]));
      AutoIgnoresWorkers(d, w, PruneIdle(d, w.now).(lastSeen := PruneIdle(d, w.now).lastSeen[x := w.now]));
      AutoTransparent(c, w, ok);
    } else {
      SameAfterPrepare(c, w, ok, x);
      var a, b := Prepare(c, w, x), Prepare(d, w, x);
      SameConfig(a, b, w.now);
      var e, f := a.(affinity := a.affinity - {x}), b.(affinity := b.affinity - {x});
      ParksAndMore(a, b, e, f, w.now);
      ReassignSame(e, f, w, WindowOf(a, w), x);
    }
  }

  lemma ParksAndMore(a: Ctl, b: Ctl, e: Ctl, f: Ctl, now: Time)
    requires SameParks(a, b, now) && WF(a) && e == a.(affinity := e.affinity) && f == b.(affinity := f.affinity)
    ensures SameParks(e, f, now) && WF(e)
  {
    assert forall n :: Backend(e, n) == Backend(a, n);
  }
}
