/**
 Selection of a member: what each locked step of a controller does to its fields and
 what it answers, as functions of the fields and of the world the step reads.
 */
module Routing {
  import opened Common
  import opened Availability

  /** What a caller gets: a backend, how long to wait, and whether the pool is dry. */
  datatype Resolution = Resolution(backend: Option<Member>, wait: int, dry: bool)

  /** The routing order lists each member once; only members are disabled. */
  ghost predicate WF(c: Ctl) {
    && Distinct(c.order)
    && (forall n :: n in c.order <==> Backend(c, n).Some?)
    && (forall n :: n in c.disabled ==> n in c.order)
    && "" !in c.order
  }

  predicate Enabled(c: Ctl, n: string) { n !in c.disabled }

  predicate Available(c: Ctl, w: World, n: string) { !Unavailable(c, w, n) }

  function LiveTimes(times: map<string, Time>, now: Time): map<string, Time> {
    map n | n in times && now < times[n] :: times[n]
  }

  function LiveParks(parks: map<string, Park>, now: Time): map<string, Park> {
    map n | n in parks && now < parks[n].reset :: parks[n]
  }

  /** `clearExpiredLocked`. */
  function ClearExpired(c: Ctl, now: Time): Ctl {
    c.(exhausted := LiveTimes(c.exhausted, now), parks := LiveParks(c.parks, now))
  }

  // ------------------------------------------------------------ first choices

  /** `firstHealthyNickLocked` over a stretch of the order. */
  function FirstHealthy(c: Ctl, w: World, order: seq<string>): (r: Option<string>)
    ensures r.Some? ==> r.value in order && Available(c, w, r.value)
    ensures r.None? ==> forall n :: n in order ==> Unavailable(c, w, n)
  {
    if order == [] then None
    else if Available(c, w, order[0]) then Some(order[0])
    else FirstHealthy(c, w, order[1..])
  }

  /** Unavailable solely through an explicitly marked auth rejection and its mirror. */
  predicate AuthParked(c: Ctl, w: World, n: string) {
    && LivePark(c, w.now, n) && c.parks[n].authRejected
    && (LiveExhausted(c, w.now, n) ==> c.exhausted[n] == c.parks[n].reset)
    && StoreBound(c, w, n).None?
  }

  function FirstEnabled(c: Ctl, order: seq<string>): (r: Option<string>)
    ensures r.Some? ==> r.value in order && Enabled(c, r.value)
    ensures r.None? ==> forall n :: n in order ==> !Enabled(c, n)
  {
    if order == [] then None
    else if Enabled(c, order[0]) then Some(order[0])
    else FirstEnabled(c, order[1..])
  }

  predicate AllAuthParked(c: Ctl, w: World) {
    forall n | n in c.order :: Enabled(c, n) ==> AuthParked(c, w, n)
  }

  /** `authOnlyDryPoolNickLocked`. */
  function AuthOnly(c: Ctl, w: World): Option<string> {
    if AllAuthParked(c, w) then FirstEnabled(c, c.order) else None
  }

  /** `nextParkedButResetPassedLocked` over a stretch of the order. */
  function FirstUnparked(c: Ctl, now: Time, order: seq<string>): (r: Option<string>)
    ensures r.Some? ==> r.value in order && Enabled(c, r.value) && !LiveRecorded(c, now, r.value)
    ensures r.None? ==> forall n :: n in order && Enabled(c, n) ==> LiveRecorded(c, now, n)
  {
    if order == [] then None
    else if Enabled(c, order[0]) && !LiveRecorded(c, now, order[0]) then Some(order[0])
    else FirstUnparked(c, now, order[1..])
  }

  datatype Due = Due(nick: string, at: Time)

  /** The enabled exhausted member that frees up first; the earlier one on a tie. */
  function Soonest(c: Ctl, w: World, ms: seq<Member>): (r: Option<Due>)
    ensures r.Some? ==> Enabled(c, r.value.nick) && ExhaustedUntil(c, w, r.value.nick) == Some(r.value.at)
                        && (exists m :: m in ms && m.nick == r.value.nick)
    ensures forall m :: m in ms && Enabled(c, m.nick) && ExhaustedUntil(c, w, m.nick).Some? ==>
              r.Some? && r.value.at <= ExhaustedUntil(c, w, m.nick).value
  {
    if ms == [] then None
    else
      var r, m := Soonest(c, w, ms[..|ms| - 1]), ms[|ms| - 1];
      var e := ExhaustedUntil(c, w, m.nick);
      assert ms == ms[..|ms| - 1] + [m];
      if Enabled(c, m.nick) && e.Some? && (r.None? || e.value < r.value.at) then Some(Due(m.nick, e.value)) else r
  }

  /** Of those that free up at the same time it is the one listed first. */
  lemma {:induction false} SoonestFirst(c: Ctl, w: World, ms: seq<Member>) returns (i: nat)
    requires Soonest(c, w, ms).Some?
    ensures var d := Soonest(c, w, ms).value;
      && i < |ms| && ms[i].nick == d.nick
      && forall j :: 0 <= j < i && Enabled(c, ms[j].nick) ==> ExhaustedUntil(c, w, ms[j].nick) != Some(d.at)
  {
    hide ExhaustedUntil;
    var init, m := ms[..|ms| - 1], ms[|ms| - 1];
    assert ms == init + [m];
    var r, e := Soonest(c, w, init), ExhaustedUntil(c, w, m.nick);
    if Enabled(c, m.nick) && e.Some? && (r.None? || e.value < r.value.at) {
      i := |ms| - 1;
      assert forall j :: 0 <= j < i ==> ms[j] in init;
    } else {
      i := SoonestFirst(c, w, init);
    }
  }

  /** `soonestNickLocked`: falls back to the sticky member, due now. */
  function SoonestDue(c: Ctl, w: World): Due {
    var d := Soonest(c, w, c.members);
    if d.Some? then d.value else Due(c.cur, w.now)
  }

  function Wait(at: Time, now: Time): int { Max(0, at - now) }

  function DryAnswer(c: Ctl, w: World): Resolution {
    var d := SoonestDue(c, w);
    if Backend(c, d.nick).Some? then Resolution(Backend(c, d.nick), Wait(d.at, w.now), true)
    else Resolution(None, 0, true)
  }

  // ---------------------------------------------------------------- resolving

  function ResolveAuto(c: Ctl, w: World): (Ctl, Resolution) { ResolveCleared(ClearExpired(c, w.now), w) }

  /** The tiers, once lapsed parks are gone. */
  function ResolveCleared(c: Ctl, w: World): (Ctl, Resolution) {
    var healthy := FirstHealthy(c, w, c.order);
    if c.cur != "" && Available(c, w, c.cur) && Backend(c, c.cur).Some? then
      (c, Resolution(Backend(c, c.cur), 0, false))
    else if healthy.Some? && Backend(c, healthy.value).Some? then
      (c.(cur := healthy.value), Resolution(Backend(c, healthy.value), 0, false))
    else ResolveUnhealthy(if healthy.Some? then c.(cur := healthy.value) else c, w)
  }

  /** The tiers below a healthy member. */
  function ResolveUnhealthy(c: Ctl, w: World): (Ctl, Resolution) {
    var auth, unparked := AuthOnly(c, w), FirstUnparked(c, w.now, c.order);
    if auth.Some? && Backend(c, auth.value).Some? then
      (c, Resolution(Backend(c, auth.value), 0, false))
    else if unparked.Some? && Backend(c, unparked.value).Some? then
      (c.(cur := unparked.value), Resolution(Backend(c, unparked.value), 0, false))
    else
      var d := if unparked.Some? then c.(cur := unparked.value) else c;
      (d.(cur := SoonestDue(d, w).nick), DryAnswer(d, w))
  }

  lemma ClearKeeps(c: Ctl, w: World, n: string)
    ensures var d := ClearExpired(c, w.now);
      && Backend(d, n) == Backend(c, n) && ExhaustedUntil(d, w, n) == ExhaustedUntil(c, w, n)
      && StoreBound(d, w, n) == StoreBound(c, w, n)
      && LiveExhausted(d, w.now, n) == LiveExhausted(c, w.now, n)
      && LivePark(d, w.now, n) == LivePark(c, w.now, n)
      && AuthParked(d, w, n) == AuthParked(c, w, n)
      && Unavailable(d, w, n) == Unavailable(c, w, n)
  {
    var d := ClearExpired(c, w.now);
    assert LiveExhausted(d, w.now, n) == LiveExhausted(c, w.now, n);
    assert LivePark(d, w.now, n) == LivePark(c, w.now, n);
    assert Reconciling(d, w, n) == Reconciling(c, w, n);
    assert ExhaustedBound(d, w, n) == ExhaustedBound(c, w, n);
    assert ParkBound(d, w, n) == ParkBound(c, w, n);
  }

  // ------------------------------------------------- the declarative reading

  ghost predicate SomeAvailable(c: Ctl, w: World) { exists n :: n in c.order && Available(c, w, n) }

  /** A park on record that has not lapsed, of either kind. */
  ghost predicate OnRecord(c: Ctl, now: Time, n: string) {
    (n in c.exhausted && now < c.exhausted[n]) || (n in c.parks && now < c.parks[n].reset)
  }

  /** Kept from use by a marked rejection and its mirror, by nothing else on record and by nothing in the store. */
  ghost predicate SolelyRejected(c: Ctl, w: World, n: string) {
    && n in c.parks && w.now < c.parks[n].reset && c.parks[n].authRejected
    && (n in c.exhausted && w.now < c.exhausted[n] ==> c.exhausted[n] == c.parks[n].reset)
    && forall b :: !StoreHolds(c, w, n, b)
  }

  lemma SameReading(c: Ctl, w: World, n: string)
    ensures LiveRecorded(c, w.now, n) == OnRecord(c, w.now, n) && AuthParked(c, w, n) == SolelyRejected(c, w, n)
  {
    hide StoreBound, StoreHolds;
    StoreHoldsExactly(c, w, n);
  }

  /** Exactly the lapsed parks go. */
  lemma LapsedGo(c: Ctl, now: Time, n: string)
    ensures var d := ClearExpired(c, now);
      && d == c.(exhausted := d.exhausted, parks := d.parks)
      && (n in d.exhausted <==> n in c.exhausted && now < c.exhausted[n]) && (n in d.exhausted ==> d.exhausted[n] == c.exhausted[n])
      && (n in d.parks <==> n in c.parks && now < c.parks[n].reset) && (n in d.parks ==> d.parks[n] == c.parks[n])
  {
  }

  ghost predicate AllRecorded(c: Ctl, w: World) {
    forall n :: n in c.order && Enabled(c, n) ==> OnRecord(c, w.now, n)
  }

  /** Every enabled member is parked by an auth rejection alone, and there is one. */
  ghost predicate AuthOnlyPool(c: Ctl, w: World) {
    && (exists n :: n in c.order && Enabled(c, n))
    && (forall n :: n in c.order && Enabled(c, n) ==> SolelyRejected(c, w, n))
  }

  ghost predicate HighestAvailable(c: Ctl, w: World, n: string) {
    exists i :: (0 <= i < |c.order| && c.order[i] == n && Available(c, w, n)
                 && forall j :: 0 <= j < i ==> Unavailable(c, w, c.order[j]))
  }

  ghost predicate HighestEnabled(c: Ctl, n: string) {
    exists i :: (0 <= i < |c.order| && c.order[i] == n && Enabled(c, n)
                 && forall j :: 0 <= j < i ==> !Enabled(c, c.order[j]))
  }

  ghost predicate HighestUnparked(c: Ctl, now: Time, n: string) {
    exists i :: (0 <= i < |c.order| && c.order[i] == n && Enabled(c, n) && !OnRecord(c, now, n)
                 && forall j :: 0 <= j < i && Enabled(c, c.order[j]) ==> OnRecord(c, now, c.order[j]))
  }

  lemma {:induction false} FirstHealthyHighest(c: Ctl, w: World, k: nat)
    requires k <= |c.order| && forall j :: 0 <= j < k ==> Unavailable(c, w, c.order[j])
    ensures var r := FirstHealthy(c, w, c.order[k..]);
      r.Some? ==> HighestAvailable(c, w, r.value)
    decreases |c.order| - k
  {
    if k < |c.order| {
      if Available(c, w, c.order[k]) {
        assert c.order[k..][0] == c.order[k];
      } else {
        assert c.order[k..][1..] == c.order[k + 1..];
        FirstHealthyHighest(c, w, k + 1);
      }
    }
  }

  lemma {:induction false} FirstEnabledHighest(c: Ctl, k: nat)
    requires k <= |c.order| && forall j :: 0 <= j < k ==> !Enabled(c, c.order[j])
    ensures var r := FirstEnabled(c, c.order[k..]);
      r.Some? ==> HighestEnabled(c, r.value)
    decreases |c.order| - k
  {
    if k < |c.order| {
      if Enabled(c, c.order[k]) {
        assert c.order[k..][0] == c.order[k];
      } else {
        assert c.order[k..][1..] == c.order[k + 1..];
        FirstEnabledHighest(c, k + 1);
      }
    }
  }

  lemma {:induction false} FirstUnparkedHighest(c: Ctl, now: Time, k: nat)
    requires k <= |c.order| && forall j :: 0 <= j < k ==> !Enabled(c, c.order[j]) || LiveRecorded(c, now, c.order[j])
    ensures var r := FirstUnparked(c, now, c.order[k..]);
      r.Some? ==> HighestUnparked(c, now, r.value)
    decreases |c.order| - k
  {
    if k < |c.order| {
      if Enabled(c, c.order[k]) && !LiveRecorded(c, now, c.order[k]) {
        assert c.order[k..][0] == c.order[k];
      } else {
        assert c.order[k..][1..] == c.order[k + 1..];
        FirstUnparkedHighest(c, now, k + 1);
      }
    }
  }

  /** The least time at which an enabled member stops being exhausted. */
  ghost predicate LeastDue(c: Ctl, w: World, at: Time) {
    && (exists n :: n in c.order && Enabled(c, n) && ExhaustedUntil(c, w, n) == Some(at))
    && (forall n :: n in c.order && Enabled(c, n) && ExhaustedUntil(c, w, n).Some? ==> at <= ExhaustedUntil(c, w, n).value)
  }

  /**
   The tiers: the available sticky member; else the highest-ranked available one; else,
   when all are solely auth-parked, the first enabled; else the first enabled one without
   a live recorded park; else dry until the soonest enabled member frees up.
   */
  ghost predicate Tiered(c: Ctl, w: World, cur: string, r: Resolution) {
    if c.cur in c.order && Available(c, w, c.cur) then Serves(c, r, c.cur) && cur == c.cur
    else if SomeAvailable(c, w) then Serves(c, r, cur) && HighestAvailable(c, w, cur)
    else if AuthOnlyPool(c, w) then
      r.backend.Some? && Serves(c, r, r.backend.value.nick) && cur == c.cur && HighestEnabled(c, r.backend.value.nick)
    else if !AllRecorded(c, w) then Serves(c, r, cur) && HighestUnparked(c, w.now, cur)
    else r.dry && DryUntil(c, w, cur, r)
  }

  ghost predicate Serves(c: Ctl, r: Resolution, n: string) {
    !r.dry && r.wait == 0 && r.backend.Some? && r.backend.value.nick == n && r.backend == Backend(c, n)
  }

  /** The answer of a dry pool: the wait until, and the sticky pointer on, the soonest enabled member. */
  ghost predicate DryUntil(c: Ctl, w: World, cur: string, r: Resolution) {
    if exists n :: n in c.order && Enabled(c, n) then
      && Enabled(c, cur) && ExhaustedUntil(c, w, cur).Some?
      && LeastDue(c, w, ExhaustedUntil(c, w, cur).value)
      && r.wait == ExhaustedUntil(c, w, cur).value - w.now && r.wait > 0
      && r.backend.Some? && r.backend == Backend(c, cur)
    else r.wait == 0 && cur == c.cur
  }

  lemma MembersAndOrder(c: Ctl, m: Member)
    requires WF(c) && m in c.members
    ensures m.nick in c.order
  {
    assert Backend(c, m.nick).Some?;
  }

  lemma NoSticky(c: Ctl, w: World)
    requires WF(c) && !(c.cur in c.order && Available(c, w, c.cur))
    ensures !(c.cur != "" && Available(c, w, c.cur) && Backend(c, c.cur).Some?)
  {
    hide ExhaustedUntil;
  }

  lemma DryTier(c: Ctl, w: World)
    requires WF(c) && !SomeAvailable(c, w)
    ensures DryUntil(c, w, SoonestDue(c, w).nick, DryAnswer(c, w)) && DryAnswer(c, w).dry
  {
    hide ExhaustedUntil;
    var s := Soonest(c, w, c.members);
    if s.Some? {
      var x :| x in c.members && x.nick == s.value.nick;
      MembersAndOrder(c, x);
      BoundsAreFuture(c, w, s.value.nick);
      forall k | k in c.order && Enabled(c, k) && ExhaustedUntil(c, w, k).Some?
        ensures s.value.at <= ExhaustedUntil(c, w, k).value
      {
        assert Backend(c, k).value in c.members;
      }
    } else {
      forall n | n in c.order ensures !Enabled(c, n) {
        assert Unavailable(c, w, n) && Backend(c, n).value in c.members;
      }
    }
  }

  /** The tiers, on a controller whose lapsed parks are gone. */
  lemma TieredCleared(c: Ctl, w: World)
    requires WF(c) && ClearExpired(c, w.now) == c
    ensures Tiered(c, w, ResolveAuto(c, w).0.cur, ResolveAuto(c, w).1)
  {
    hide ExhaustedUntil, LiveRecorded, AuthParked, Soonest, FirstHealthy, FirstEnabled, FirstUnparked, HighestAvailable,
         HighestEnabled, HighestUnparked, DryUntil, SoonestDue, DryAnswer, OnRecord, SolelyRejected;
    assert c.order[0..] == c.order;
    forall n { SameReading(c, w, n); }
    FirstHealthyHighest(c, w, 0);
    FirstEnabledHighest(c, 0);
    FirstUnparkedHighest(c, w.now, 0);
    if !(c.cur in c.order && Available(c, w, c.cur)) {
      NoSticky(c, w);
      if !SomeAvailable(c, w) && !AuthOnlyPool(c, w) && AllRecorded(c, w) { DryTier(c, w); }
    }
  }

  lemma ClearKeepsAll(c: Ctl, w: World)
    ensures var d := ClearExpired(c, w.now);
      && (WF(c) ==> WF(d)) && ClearExpired(d, w.now) == d
      && forall cur, r :: Tiered(d, w, cur, r) ==> Tiered(c, w, cur, r)
  {
    hide ExhaustedUntil, LiveRecorded, AuthParked, StoreBound, HighestAvailable, HighestEnabled, HighestUnparked, DryUntil, OnRecord,
         SolelyRejected;
    var d := ClearExpired(c, w.now);
    ClearTwice(c, w.now);
    forall n { ClearKeeps(c, w, n); }
    forall n { ClearReads(c, w, n); }
    forall cur, r | Tiered(d, w, cur, r) ensures Tiered(c, w, cur, r) {
      ClearHighest(c, w, cur);
      if r.backend.Some? { ClearHighest(c, w, r.backend.value.nick); }
      ClearDry(c, w, cur, r);
    }
  }

  lemma ClearReads(c: Ctl, w: World, n: string)
    ensures var d := ClearExpired(c, w.now);
      OnRecord(d, w.now, n) == OnRecord(c, w.now, n) && SolelyRejected(d, w, n) == SolelyRejected(c, w, n)
  {
    hide AuthParked, SolelyRejected, OnRecord, ClearExpired;
    ClearKeeps(c, w, n);
    SameReading(c, w, n);
    SameReading(ClearExpired(c, w.now), w, n);
  }

  lemma ClearTwice(c: Ctl, now: Time)
    ensures ClearExpired(ClearExpired(c, now), now) == ClearExpired(c, now)
  {
  }

  lemma ClearHighest(c: Ctl, w: World, n: string)
    ensures var d := ClearExpired(c, w.now);
      && (HighestAvailable(d, w, n) ==> HighestAvailable(c, w, n))
      && (HighestEnabled(d, n) ==> HighestEnabled(c, n))
      && (HighestUnparked(d, w.now, n) ==> HighestUnparked(c, w.now, n))
  {
    hide ExhaustedUntil, OnRecord;
    forall k { ClearKeeps(c, w, k); }
    forall k { ClearReads(c, w, k); }
  }

  lemma ClearDry(c: Ctl, w: World, cur: string, r: Resolution)
    ensures DryUntil(ClearExpired(c, w.now), w, cur, r) ==> DryUntil(c, w, cur, r)
  {
    hide ExhaustedUntil;
    forall k { ClearKeeps(c, w, k); }
  }

  lemma AutoFields(c: Ctl, w: World)
    ensures ResolveAuto(c, w).0 == ClearExpired(c, w.now).(cur := ResolveAuto(c, w).0.cur)
  {
    hide FirstHealthy, Unavailable, ResolveUnhealthy, ClearExpired, Find;
    var e := ClearExpired(c, w.now);
    var healthy := FirstHealthy(e, w, e.order);
    UnhealthyFields(if healthy.Some? then e.(cur := healthy.value) else e, w);
  }

  lemma UnhealthyFields(c: Ctl, w: World)
    ensures ResolveUnhealthy(c, w).0 == c.(cur := ResolveUnhealthy(c, w).0.cur)
  {
    hide AuthOnly, FirstUnparked, SoonestDue, DryAnswer, Find;
  }

  /** `ResolveAuto` answers by the tiers and changes nothing but the sticky pointer and lapsed parks. */
  lemma AutoIsTiered(c: Ctl, w: World)
    requires WF(c)
    ensures var (d, r) := ResolveAuto(c, w);
      && Tiered(c, w, d.cur, r)
      && d == ClearExpired(c, w.now).(cur := d.cur) && WF(d)
  {
    hide Tiered, Unavailable, AuthOnly, FirstUnparked, FirstHealthy, DryAnswer, SoonestDue;
    var e := ClearExpired(c, w.now);
    ClearKeepsAll(c, w);
    TieredCleared(e, w);
    assert ResolveAuto(e, w) == ResolveAuto(c, w);
  }

  /** Dry exactly when nobody is available, everybody enabled is parked on record, and not by auth rejections alone. */
  lemma DryExactly(c: Ctl, w: World)
    requires WF(c)
    ensures ResolveAuto(c, w).1.dry <==> !SomeAvailable(c, w) && AllRecorded(c, w) && !AuthOnlyPool(c, w)
    ensures var r := ResolveAuto(c, w).1;
      !r.dry ==> r.backend.Some? && r.backend.value in c.members && r.backend.value.nick in c.order
                 && Enabled(c, r.backend.value.nick)
  {
    hide ExhaustedUntil, LiveRecorded, AuthParked, DryUntil;
    AutoIsTiered(c, w);
  }

  /**
   A dry answer's wait is enough: from `now + wait` on, with no further event, the member it
   names is selectable, exactly unless a fresh snapshot masks a longer quota park of that member.
   */
  lemma DryWaitIsEnough(c: Ctl, w: World)
    requires WF(c) && ResolveAuto(c, w).1.dry && exists n :: n in c.order && Enabled(c, n)
    requires forall n :: n in c.order ==> Known(w, n)
    ensures var r := ResolveAuto(c, w).1; r.backend.Some?
    ensures var (d, r) := ResolveAuto(c, w); var n := r.backend.value.nick;
      (forall t :: w.now + r.wait <= t ==> Available(c, w.(now := t), n))
      <==> (MaskedExhausted(c, w, n) ==> c.exhausted[n] <= Unmasked(w.now + r.wait, Get(w, n).asOf.value))
  {
    hide ExhaustedUntil, ResolveAuto, LiveRecorded, AuthParked, StoreBound, Reconciling;
    AutoIsTiered(c, w);
    var (d, r) := ResolveAuto(c, w);
    var n := r.backend.value.nick;
    SelectableFromBound(c, w, n);
  }

  /** The pointer has no say in who is available. */
  lemma PointerBlind(c: Ctl, w: World, cur: string)
    ensures var d := c.(cur := cur);
      (forall n :: Unavailable(d, w, n) == Unavailable(c, w, n)) && SomeAvailable(d, w) == SomeAvailable(c, w)
      && (forall n :: HighestAvailable(d, w, n) == HighestAvailable(c, w, n))
  {
    var d := c.(cur := cur);
    forall n ensures Unavailable(d, w, n) == Unavailable(c, w, n) {
      assert Reconciling(d, w, n) == Reconciling(c, w, n) && StoreBound(d, w, n) == StoreBound(c, w, n);
      assert ExhaustedBound(d, w, n) == ExhaustedBound(c, w, n) && ParkBound(d, w, n) == ParkBound(c, w, n);
    }
  }

  lemma HealthyOrNobody(c: Ctl, w: World)
    ensures var r := FirstHealthy(c, w, c.order);
      && (r.Some? ==> HighestAvailable(c, w, r.value) && SomeAvailable(c, w)) && (r.None? ==> !SomeAvailable(c, w))
  {
    hide Unavailable, HighestAvailable;
    assert c.order[0..] == c.order;
    FirstHealthyHighest(c, w, 0);
  }

  lemma SoonestFound(c: Ctl, w: World)
    requires WF(c) && !SomeAvailable(c, w)
    ensures var d := SoonestDue(c, w);
      DryUntil(c, w, d.nick, Resolution(Backend(c, d.nick), Wait(d.at, w.now), true))
  {
    hide ExhaustedUntil, Soonest;
    DryTier(c, w);
    if forall n :: n in c.order ==> !Enabled(c, n) { NobodyDue(c, w); }
  }

  lemma NobodyDue(c: Ctl, w: World)
    requires WF(c) && forall n :: n in c.order ==> !Enabled(c, n)
    ensures SoonestDue(c, w) == Due(c.cur, w.now)
  {
    hide Soonest;
    DueIsListed(c, w);
  }

  lemma DueIsListed(c: Ctl, w: World)
    requires WF(c)
    ensures var s := Soonest(c, w, c.members); s.Some? ==> s.value.nick in c.order && Enabled(c, s.value.nick)
  {
    hide ExhaustedUntil;
    var s := Soonest(c, w, c.members);
    if s.Some? {
      var m :| m in c.members && m.nick == s.value.nick;
      MembersAndOrder(c, m);
    }
  }
}
