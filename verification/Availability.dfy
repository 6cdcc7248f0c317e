/**
 When a pool member is selectable: recorded parks, credential parks and rejected
 windows of the shared store, each with its own clock and its own way to lapse.
 */
module Availability {
  import opened Common
  import opened Quota

  const DEFAULT_WINDOW: Time := 5 * HOUR
  const FRESHNESS: Time := 5 * MINUTE
  const REJECTED := "rejected"

  datatype Member = Member(nick: string, credential: string, baseURL: string)

  /**
   A store-unrepresentable park. `since` is set only by the z.ai stale-poller park;
   only a `windowFact` park may be retired by the store.
   */
  datatype Park = Park(reset: Time, windowFact: bool, authRejected: bool, since: Option<Time>)

  /** What a controller reads under its lock besides its own fields: store, clock, and which URLs are z.ai's. */
  datatype World = World(store: map<string, Snapshot>, now: Time, zai: set<string>)

  /** The fields of one pool's controller. An empty `cur` or `cursor` names nobody. */
  datatype Ctl = Ctl(members: seq<Member>, declared: seq<string>, order: seq<string>, disabled: set<string>, cur: string,
                     exhausted: map<string, Time>, parks: map<string, Park>,
                     affinity: map<string, string>, lastSeen: map<string, Time>, cursor: string, concurrency: int)

  function Get(w: World, nick: string): Snapshot {
    if nick in w.store then w.store[nick] else EMPTY
  }

  /** The long window of a z.ai backend is a tool quota and never blocks. */
  predicate LongBlocks(w: World, url: string) { url !in w.zai }

  function Find(members: seq<Member>, nick: string): (r: Option<Member>)
    ensures r.Some? ==> r.value in members && r.value.nick == nick
    ensures r.None? ==> forall m :: m in members ==> m.nick != nick
  {
    if members == [] then None
    else if members[0].nick == nick then Some(members[0])
    else Find(members[1..], nick)
  }

  function Backend(c: Ctl, nick: string): Option<Member> { Find(c.members, nick) }

  // ------------------------------------------------------------------ windows

  predicate WindowBlocks(win: Window, asOf: Option<Time>, now: Time) {
    if win.status.Some? then
      win.status.value == REJECTED && (win.reset.None? || now < win.reset.value)
    else
      win.util.Some? && win.util.value >= 1.0 && asOf.Some? && now - asOf.value <= FRESHNESS
  }

  predicate SnapRejects(s: Snapshot, now: Time, long: bool) {
    WindowBlocks(s.h5, s.asOf, now) || (long && WindowBlocks(s.d7, s.asOf, now))
  }

  function Later(a: Option<Time>, b: Option<Time>): Option<Time> {
    if a.None? then b else if b.None? then a else Some(Max(a.value, b.value))
  }

  /** The bound a status-bearing window contributes; a statusless one contributes none by itself. */
  function WindowBound(win: Window, asOf: Option<Time>, now: Time): Option<Time> {
    if win.status.None? || !WindowBlocks(win, asOf, now) then None
    else if win.reset.Some? && now < win.reset.value then win.reset
    else if asOf.Some? then Some(asOf.value + DEFAULT_WINDOW)
    else Some(now + DEFAULT_WINDOW)
  }

  function BlockBound(s: Snapshot, now: Time, long: bool): Option<Time> {
    var bound := Later(WindowBound(s.h5, s.asOf, now), if long then WindowBound(s.d7, s.asOf, now) else None);
    if bound.Some? && bound.value <= now then None else bound
  }

  function StoreBound(c: Ctl, w: World, nick: string): Option<Time> {
    var b := Backend(c, nick);
    if b.None? then None else BlockBound(Get(w, nick), w.now, LongBlocks(w, b.value.baseURL))
  }

  /** The age of the fresh, healthy snapshot that retires quota parks, if there is one. */
  function Reconciling(c: Ctl, w: World, nick: string): Option<Time> {
    var b := Backend(c, nick);
    if b.None? then None
    else
      var s := Get(w, nick);
      if !HasData(s) || s.asOf.None? || w.now - s.asOf.value > FRESHNESS
         || SnapRejects(s, w.now, LongBlocks(w, b.value.baseURL)) then None
      else s.asOf
  }

  predicate ParkRetired(c: Ctl, w: World, nick: string, p: Park) {
    var asOf := Reconciling(c, w, nick);
    p.windowFact && asOf.Some? && (p.since.None? || asOf.value > p.since.value)
  }

  // ------------------------------------------------------------- availability

  predicate LiveExhausted(c: Ctl, now: Time, nick: string) { nick in c.exhausted && now < c.exhausted[nick] }

  predicate LivePark(c: Ctl, now: Time, nick: string) { nick in c.parks && now < c.parks[nick].reset }

  predicate LiveRecorded(c: Ctl, now: Time, nick: string) { LiveExhausted(c, now, nick) || LivePark(c, now, nick) }

  function ExhaustedBound(c: Ctl, w: World, nick: string): Option<Time> {
    if LiveExhausted(c, w.now, nick) && Reconciling(c, w, nick).None? then Some(c.exhausted[nick]) else None
  }

  function ParkBound(c: Ctl, w: World, nick: string): Option<Time> {
    if LivePark(c, w.now, nick) && !ParkRetired(c, w, nick, c.parks[nick]) then Some(c.parks[nick].reset) else None
  }

  /** `exhaustedUntilLocked`: the latest bound of the three signals. */
  function ExhaustedUntil(c: Ctl, w: World, nick: string): Option<Time> {
    Later(Later(ExhaustedBound(c, w, nick), ParkBound(c, w, nick)), StoreBound(c, w, nick))
  }

  predicate Unavailable(c: Ctl, w: World, nick: string) {
    nick in c.disabled || ExhaustedUntil(c, w, nick).Some?
  }

  lemma BoundsAreFuture(c: Ctl, w: World, nick: string)
    ensures ExhaustedUntil(c, w, nick).Some? ==> w.now < ExhaustedUntil(c, w, nick).value
  {
  }

  // --------------------------------------- what all this comes to, in plain terms

  /** The window says the quota is spent, while the snapshot is fresh. */
  ghost predicate SaysSpent(win: Window, now: Time) {
    || (win.status == Some("rejected") && (win.reset.None? || now < win.reset.value))
    || (win.status.None? && win.util.Some? && win.util.value >= 1.0)
  }

  /** The long window of the member counts. */
  ghost predicate LongCounts(c: Ctl, w: World, nick: string) {
    Backend(c, nick).Some? && Backend(c, nick).value.baseURL !in w.zai
  }

  ghost predicate SaysSomething(s: Snapshot) {
    || s.status.Some? || s.reset.Some? || s.claim.Some? || s.fallbackPct.Some? || s.overageStatus.Some? || s.overageReason.Some?
    || s.orgId.Some?
    || s.h5.status.Some? || s.h5.util.Some? || s.h5.reset.Some? || s.d7.status.Some? || s.d7.util.Some? || s.d7.reset.Some?
  }

  /** The store has seen the member well within the last five minutes: it refutes a quota park. */
  ghost predicate Refutes(c: Ctl, w: World, nick: string) {
    && Backend(c, nick).Some? && nick in w.store
    && var s := w.store[nick];
       && SaysSomething(s) && s.asOf.Some? && w.now - s.asOf.value <= 5 * MINUTE
       && !SaysSpent(s.h5, w.now) && !(LongCounts(c, w, nick) && SaysSpent(s.d7, w.now))
  }

  /** A live quota park is masked exactly when the store refutes it. */
  lemma QuotaParkMaskedExactly(c: Ctl, w: World, nick: string)
    requires nick in c.exhausted && w.now < c.exhausted[nick]
    ensures ExhaustedBound(c, w, nick) == if Refutes(c, w, nick) then None else Some(c.exhausted[nick])
    ensures MaskedExhausted(c, w, nick) <==> Refutes(c, w, nick)
  {
    hide Find;
    RefutesExactly(c, w, nick);
  }

  lemma RefutesExactly(c: Ctl, w: World, nick: string)
    ensures Reconciling(c, w, nick) == if Refutes(c, w, nick) then w.store[nick].asOf else None
    ensures Refutes(c, w, nick) ==> w.store[nick].asOf.Some?
  {
    hide Find;
  }

  /** A live credential park is masked exactly when it is a quota fact and what refutes it came later than what it was made on. */
  lemma CredentialParkMaskedExactly(c: Ctl, w: World, nick: string)
    requires nick in c.parks && w.now < c.parks[nick].reset
    ensures var p := c.parks[nick];
      var masked := p.windowFact && Refutes(c, w, nick) && (p.since.None? || p.since.value < w.store[nick].asOf.value);
      ParkBound(c, w, nick) == if masked then None else Some(p.reset)
  {
    hide Find;
    RefutesExactly(c, w, nick);
  }

  /** An instant until which a rejected window blocks: its reset, or five hours from the snapshot's age or from now. */
  ghost predicate WindowHolds(win: Window, asOf: Option<Time>, now: Time, b: Time) {
    && win.status == Some("rejected") && now < b
    && (if win.reset.Some? then b == win.reset.value
        else if asOf.Some? then b == asOf.value + 5 * HOUR
        else b == now + 5 * HOUR)
  }

  ghost predicate StoreHolds(c: Ctl, w: World, nick: string, b: Time) {
    && Backend(c, nick).Some? && nick in w.store
    && var s := w.store[nick];
       WindowHolds(s.h5, s.asOf, w.now, b) || (LongCounts(c, w, nick) && WindowHolds(s.d7, s.asOf, w.now, b))
  }

  /** An instant until which something keeps the member from being used. */
  ghost predicate Holds(c: Ctl, w: World, nick: string, b: Time) {
    || (nick in c.exhausted && b == c.exhausted[nick] && w.now < b && !Refutes(c, w, nick))
    || (nick in c.parks && b == c.parks[nick].reset && w.now < b
        && !(c.parks[nick].windowFact && Refutes(c, w, nick)
             && (c.parks[nick].since.None? || c.parks[nick].since.value < w.store[nick].asOf.value)))
    || StoreHolds(c, w, nick, b)
  }

  lemma BlockHolds(s: Snapshot, now: Time, long: bool)
    ensures var r := BlockBound(s, now, long);
      && (r.Some? ==> WindowHolds(s.h5, s.asOf, now, r.value) || (long && WindowHolds(s.d7, s.asOf, now, r.value)))
      && (forall b :: WindowHolds(s.h5, s.asOf, now, b) || (long && WindowHolds(s.d7, s.asOf, now, b)) ==> r.Some? && b <= r.value)
  {
  }

  lemma StoreHoldsExactly(c: Ctl, w: World, nick: string)
    ensures var r := StoreBound(c, w, nick);
      && (r.Some? ==> StoreHolds(c, w, nick, r.value))
      && (forall b :: StoreHolds(c, w, nick, b) ==> r.Some? && b <= r.value)
  {
    hide Find, BlockBound, WindowHolds;
    if Backend(c, nick).Some? {
      BlockHolds(Get(w, nick), w.now, LongBlocks(w, Backend(c, nick).value.baseURL));
      if nick !in w.store { NothingHolds(w.now); }
    }
  }

  lemma NothingHolds(now: Time)
    ensures forall b :: !WindowHolds(EMPTY.h5, EMPTY.asOf, now, b) && !WindowHolds(EMPTY.d7, EMPTY.asOf, now, b)
  {
  }

  /** The reported bound is the last instant until which something holds the member, and there is one exactly if something does. */
  lemma ExhaustedUntilExactly(c: Ctl, w: World, nick: string)
    ensures var r := ExhaustedUntil(c, w, nick);
      && (r.Some? ==> Holds(c, w, nick, r.value))
      && (forall b :: Holds(c, w, nick, b) ==> r.Some? && b <= r.value)
  {
    hide Find, StoreBound, Refutes, StoreHolds, ExhaustedBound, ParkBound;
    StoreHoldsExactly(c, w, nick);
    ParksHold(c, w, nick);
  }

  lemma ParksHold(c: Ctl, w: World, nick: string)
    ensures var x := ExhaustedBound(c, w, nick);
      if nick in c.exhausted && w.now < c.exhausted[nick] && !Refutes(c, w, nick) then x == Some(c.exhausted[nick]) else x.None?
    ensures var x := ParkBound(c, w, nick);
      if nick in c.parks && w.now < c.parks[nick].reset
         && !(c.parks[nick].windowFact && Refutes(c, w, nick)
              && (c.parks[nick].since.None? || c.parks[nick].since.value < w.store[nick].asOf.value))
      then x == Some(c.parks[nick].reset) else x.None?
  {
    hide Find, Refutes;
    RefutesExactly(c, w, nick);
  }

  lemma UnavailableExactly(c: Ctl, w: World, nick: string)
    ensures Unavailable(c, w, nick) <==> nick in c.disabled || exists b :: Holds(c, w, nick, b)
  {
    hide ExhaustedUntil, Holds;
    ExhaustedUntilExactly(c, w, nick);
  }

  /** A full window without a status keeps a park standing, but alone it blocks nobody. */
  lemma FullAloneBlocksNobody(c: Ctl, w: World, nick: string)
    requires nick !in c.disabled && nick !in c.exhausted && nick !in c.parks
    requires nick in w.store ==> w.store[nick].h5.status.None? && w.store[nick].d7.status.None?
    ensures !Unavailable(c, w, nick)
  {
    hide Find, ExhaustedUntil;
    UnavailableExactly(c, w, nick);
  }

  /** What a recovery or a reprobe judges a snapshot by. */
  lemma RejectsExactly(s: Snapshot, now: Time, long: bool)
    ensures var young := s.asOf.Some? && now - s.asOf.value <= 5 * MINUTE;
      SnapRejects(s, now, long) <==>
        || (SaysSpent(s.h5, now) && (s.h5.status.Some? || young))
        || (long && SaysSpent(s.d7, now) && (s.d7.status.Some? || young))
  {
  }

  // ------------------------------------------------------------ waiting bounds

  /** A snapshot's own horizon: nothing it says blocks from here on. */
  function SnapHorizon(s: Snapshot): Time
    requires s.asOf.Some?
  {
    var base := s.asOf.value + DEFAULT_WINDOW;
    var a := if s.h5.reset.Some? then Max(base, s.h5.reset.value) else base;
    if s.d7.reset.Some? then Max(a, s.d7.reset.value) else a
  }

  ghost predicate PastParks(c: Ctl, nick: string, t: Time) {
    && (nick in c.exhausted ==> c.exhausted[nick] <= t)
    && (nick in c.parks ==> c.parks[nick].reset <= t)
  }

  /** With no further events an enabled member is selectable from the latest of its resets and `asOf` + 5h on. */
  lemma WaitBound(c: Ctl, w: World, nick: string)
    requires nick !in c.disabled && PastParks(c, nick, w.now)
    requires nick in w.store ==> w.store[nick].asOf.Some? && SnapHorizon(w.store[nick]) <= w.now
    ensures !Unavailable(c, w, nick)
  {
  }

  /** A rejection that names no reset. */
  predicate OpenEnded(win: Window) { win.status == Some(REJECTED) && win.reset.None? }

  /** From `from` on the snapshot blocks no more. */
  ghost predicate QuietFrom(s: Snapshot, long: bool, from: Time) {
    forall t :: from <= t ==> BlockBound(s, t, long).None?
  }

  /** What a snapshot blocks lapses for good exactly if it knows its age or neither window that counts is rejected without a reset. */
  lemma BlockLapsesExactly(s: Snapshot, long: bool)
    ensures (exists from :: QuietFrom(s, long, from))
       <==> s.asOf.Some? || !(OpenEnded(s.h5) || (long && OpenEnded(s.d7)))
  {
    if s.asOf.Some? {
      assert QuietFrom(s, long, SnapHorizon(s));
    } else if OpenEnded(s.h5) || (long && OpenEnded(s.d7)) {
      forall from ensures !QuietFrom(s, long, from) {
        assert BlockBound(s, from, long).Some?;
      }
    } else {
      var a := if s.h5.reset.Some? then s.h5.reset.value else 0;
      assert QuietFrom(s, long, if s.d7.reset.Some? then Max(a, s.d7.reset.value) else a);
    }
  }

  /** Without an `asOf` there is no such instant: a rejected window without a reset blocks at every time. */
  lemma ZeroAsOfNeverLapses(c: Ctl, w: World, nick: string)
    requires Backend(c, nick).Some? && nick in w.store
    requires var s := w.store[nick]; s.asOf.None? && s.h5.status == Some(REJECTED) && s.h5.reset.None?
    ensures Unavailable(c, w, nick) && ExhaustedUntil(c, w, nick).value >= w.now + DEFAULT_WINDOW
  {
  }

  /** A live recorded park the store masks at present: it does not count now, and may come back. */
  predicate MaskedExhausted(c: Ctl, w: World, nick: string) {
    LiveExhausted(c, w.now, nick) && Reconciling(c, w, nick).Some?
  }

  predicate Known(w: World, nick: string) { nick in w.store ==> w.store[nick].asOf.Some? }

  lemma StoreBoundHolds(s: Snapshot, now: Time, t: Time, long: bool)
    requires (s.asOf.Some? || s == EMPTY) && now <= t
    requires var b := BlockBound(s, now, long); b.None? || b.value <= t
    ensures BlockBound(s, t, long).None?
  {
  }

  /** The store's bound is not too late either: with an `asOf`, it blocks until that instant and no longer. */
  lemma StoreBoundIsFirst(s: Snapshot, now: Time, t: Time, long: bool)
    requires s.asOf.Some? && BlockBound(s, now, long).Some? && now <= t
    ensures BlockBound(s, t, long).Some? <==> t < BlockBound(s, now, long).value
  {
  }

  /** A snapshot that reconciles now reconciles as long as it is fresh, and no longer. */
  lemma ReconcilingLater(c: Ctl, w: World, nick: string, t: Time)
    requires Reconciling(c, w, nick).Some? && w.now <= t
    ensures Reconciling(c, w.(now := t), nick)
         == if t <= Get(w, nick).asOf.value + FRESHNESS then Reconciling(c, w, nick) else None
  {
  }

  /** The earliest instant, not before `b`, at which a mask laid by a snapshot of age `asOf` has worn off. */
  function Unmasked(b: Time, asOf: Time): Time { Max(b, asOf + FRESHNESS + 1) }

  /**
   A member reported exhausted until `b` is selectable from `b` on exactly when it has no
   quota park that a fresh snapshot now masks and that outlives both `b` and the
   freshness of that snapshot. (A masked credential park never leaves the member exhausted.)
   */
  lemma SelectableFromBound(c: Ctl, w: World, nick: string)
    requires nick !in c.disabled && Known(w, nick) && ExhaustedUntil(c, w, nick).Some?
    ensures var b := ExhaustedUntil(c, w, nick).value;
      (forall t :: b <= t ==> !Unavailable(c, w.(now := t), nick))
      <==> (MaskedExhausted(c, w, nick) ==> c.exhausted[nick] <= Unmasked(b, Get(w, nick).asOf.value))
  {
    var b := ExhaustedUntil(c, w, nick).value;
    BoundsAreFuture(c, w, nick);
    if MaskedExhausted(c, w, nick) && c.exhausted[nick] > Unmasked(b, Get(w, nick).asOf.value) {
      var t := Unmasked(b, Get(w, nick).asOf.value);
      ReconcilingLater(c, w, nick, t);
      assert Unavailable(c, w.(now := t), nick);
    } else {
      forall t | b <= t ensures !Unavailable(c, w.(now := t), nick) {
        SelectableAt(c, w, nick, t);
      }
    }
  }

  lemma SelectableAt(c: Ctl, w: World, nick: string, t: Time)
    requires nick !in c.disabled && Known(w, nick) && ExhaustedUntil(c, w, nick).Some?
    requires ExhaustedUntil(c, w, nick).value <= t
    requires MaskedExhausted(c, w, nick) ==>
      c.exhausted[nick] <= Unmasked(ExhaustedUntil(c, w, nick).value, Get(w, nick).asOf.value)
    ensures !Unavailable(c, w.(now := t), nick)
  {
    BoundsAreFuture(c, w, nick);
    var v := w.(now := t);
    if Backend(c, nick).Some? {
      StoreBoundHolds(Get(w, nick), w.now, t, LongBlocks(w, Backend(c, nick).value.baseURL));
    }
    if Reconciling(c, w, nick).Some? { ReconcilingLater(c, w, nick, t); }
    assert StoreBound(c, v, nick).None?;
    assert ExhaustedBound(c, v, nick).None?;
    assert ParkBound(c, v, nick).None?;
  }
}
