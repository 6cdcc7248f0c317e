/**
 Preempt-back: returning each pool to its highest-ranked member once that member's
 window has reset, without flapping on a stale reset, and when to look again.
 */
module Preempt {
  import opened Common
  import opened Quota
  import opened Availability
  import opened Routing
  import opened Parks
  import opened Mutations
  import P = Pools
  import C = Controller

  const DEFAULT_INTERVAL: Time := 5 * MINUTE

  /** A higher-ranked member as the tick sees it; a parked one has a bound. */
  datatype Seen = Seen(nick: string, until: Option<Time>)

  // ------------------------------------------------------------- one pool

  /** The stretch `rest` of the order, as far as it ranks above the active member: enabled members only. */
  function HigherIn(c: Ctl, w: World, rest: seq<string>): seq<Seen> {
    if rest == [] then [] else Above(c, w, rest[0]) + HigherIn(c, w, rest[1..])
  }

  function Above(c: Ctl, w: World, n: string): seq<Seen> {
    if Rank(c.order, n) < Rank(c.order, c.cur) && Backend(c, n).Some? && n !in c.disabled
    then [Seen(n, ExhaustedUntil(c, w, n))] else []
  }

  /** `preemptView`, once lapsed parks are gone. */
  function Higher(c: Ctl, w: World): seq<Seen> { HigherIn(c, w, c.order) }

  function StoredReset(w: World, key: string): Option<Time> { Get(w, key).h5.reset }

  predicate Acted(acted: map<string, Time>, key: string, reset: Time) { key in acted && acted[key] == reset }

  /** The soonest wake so far; instants not ahead are ignored. */
  function Schedule(earliest: Option<Time>, at: Time, now: Time): Option<Time> {
    if at <= now then earliest
    else if earliest.None? || at < earliest.value then Some(at)
    else earliest
  }

  /** A member still exhausted is looked at again at the sooner of its bound and its stored reset. */
  function WakeFor(m: Seen, w: World): (r: Time)
    requires m.until.Some?
    ensures r <= m.until.value && (r == m.until.value || (Some(r) == StoredReset(w, m.nick) && w.now < r))
    ensures var q := StoredReset(w, m.nick); q.Some? && w.now < q.value ==> r <= q.value
  {
    var q := StoredReset(w, m.nick);
    if q.Some? && w.now < q.value < m.until.value then q.value else m.until.value
  }

  /** Where a walk down the higher-ranked members ends: whom to switch to, and whether its park is to be cleared first. */
  datatype Walk = Walk(acted: map<string, Time>, earliest: Option<Time>, target: Option<string>, recovered: bool)

  predicate HasReset(m: Seen, w: World, acted: map<string, Time>) {
    var q := StoredReset(w, m.nick);
    m.until.Some? && q.Some? && q.value <= w.now && !Acted(acted, m.nick, q.value)
  }

  function WalkHigher(higher: seq<Seen>, w: World, acted: map<string, Time>, earliest: Option<Time>): Walk
    decreases |higher|
  {
    if higher == [] then Walk(acted, earliest, None, false)
    else
      var m := higher[0];
      var q := StoredReset(w, m.nick);
      if m.until.None? then
        Walk(if q.Some? then acted[m.nick := q.value] else acted, earliest, Some(m.nick), false)
      else if HasReset(m, w, acted) then
        Walk(acted[m.nick := q.value], earliest, Some(m.nick), true)
      else WalkHigher(higher[1..], w, acted, Schedule(earliest, WakeFor(m, w), w.now))
  }

  // ---------------------------------------------------------------- no flapping

  /** One walk, over whatever the tick saw: other steps may have come between it and the last. */
  datatype Look = Look(higher: seq<Seen>, w: World)

  function Clears(acted: map<string, Time>, look: Look, key: string): nat {
    var k := WalkHigher(look.higher, look.w, acted, None);
    if k.recovered && k.target == Some(key) then 1 else 0
  }

  function ActedAfter(acted: map<string, Time>, look: Look): map<string, Time> {
    WalkHigher(look.higher, look.w, acted, None).acted
  }

  /** How many park clears for `key` a run of walks issues. */
  function TotalClears(acted: map<string, Time>, looks: seq<Look>, key: string): nat
    decreases |looks|
  {
    if looks == [] then 0
    else Clears(acted, looks[0], key) + TotalClears(ActedAfter(acted, looks[0]), looks[1..], key)
  }

  lemma {:induction false} WalkActs(higher: seq<Seen>, w: World, acted: map<string, Time>, e: Option<Time>, key: string, reset: Time)
    requires var q := StoredReset(w, key); q.None? || q == Some(reset)
    ensures var k := WalkHigher(higher, w, acted, e);
      && (Acted(acted, key, reset) ==> Acted(k.acted, key, reset) && !(k.recovered && k.target == Some(key)))
      && (k.recovered && k.target == Some(key) ==> Acted(k.acted, key, reset))
    decreases |higher|
  {
    hide StoredReset;
    if higher != [] && higher[0].until.Some? && !HasReset(higher[0], w, acted) {
      WalkActs(higher[1..], w, acted, Schedule(e, WakeFor(higher[0], w), w.now), key, reset);
    }
  }

  /**
   While a key's stored 5h reset keeps one value, the preemptor clears its park at most once,
   over all ticks and pools and whatever else happens in between.
   */
  lemma {:induction false} OneClearPerReset(acted: map<string, Time>, looks: seq<Look>, key: string, reset: Time)
    requires forall l :: l in looks ==> StoredReset(l.w, key).None? || StoredReset(l.w, key) == Some(reset)
    ensures TotalClears(acted, looks, key) <= if Acted(acted, key, reset) then 0 else 1
    decreases |looks|
  {
    hide WalkHigher, StoredReset, Acted;
    if looks != [] {
      assert looks[0] in looks && forall l :: l in looks[1..] ==> l in looks;
      WalkActs(looks[0].higher, looks[0].w, acted, None, key, reset);
      OneClearPerReset(ActedAfter(acted, looks[0]), looks[1..], key, reset);
    }
  }

  /** Whomever a walk stops at, its stored reset is on record from then on, and nothing else of the record changes. */
  lemma {:induction false} WalkMarks(higher: seq<Seen>, w: World, acted: map<string, Time>, e: Option<Time>)
    ensures var k := WalkHigher(higher, w, acted, e);
      k.acted == if k.target.Some? && k.target.value in w.store && w.store[k.target.value].h5.reset.Some?
                 then acted[k.target.value := w.store[k.target.value].h5.reset.value] else acted
    decreases |higher|
  {
    hide WakeFor, Acted;
    if higher != [] && higher[0].until.Some? && !HasReset(higher[0], w, acted) {
      WalkMarks(higher[1..], w, acted, Schedule(e, WakeFor(higher[0], w), w.now));
    }
  }

  /** Once a walk has stopped at a member, it never clears a park of it for the reset stored then, available or not at the time. */
  lemma NoClearAfterClimb(acted: map<string, Time>, first: Look, looks: seq<Look>, key: string, reset: Time)
    requires WalkHigher(first.higher, first.w, acted, None).target == Some(key) && StoredReset(first.w, key) == Some(reset)
    requires forall l :: l in looks ==> StoredReset(l.w, key).None? || StoredReset(l.w, key) == Some(reset)
    ensures TotalClears(ActedAfter(acted, first), looks, key) == 0
  {
    hide WalkHigher;
    WalkMarks(first.higher, first.w, acted, None);
    OneClearPerReset(ActedAfter(acted, first), looks, key, reset);
  }

  // ------------------------------------------------------------------- the wait

  /** The instants a walk asks to be woken at: one for each member it passes over. */
  function Wakes(higher: seq<Seen>, w: World, acted: map<string, Time>): seq<Time>
    decreases |higher|
  {
    if higher == [] || higher[0].until.None? || HasReset(higher[0], w, acted) then []
    else [WakeFor(higher[0], w)] + Wakes(higher[1..], w, acted)
  }

  lemma {:induction false} WalkWakes(higher: seq<Seen>, w: World, acted: map<string, Time>, e: Option<Time>)
    requires e.Some? ==> w.now < e.value
    ensures var r := WalkHigher(higher, w, acted, e).earliest;
      && (r.Some? ==> w.now < r.value)
      && (e.Some? ==> r.Some? && r.value <= e.value)
      && (forall at :: at in Wakes(higher, w, acted) && w.now < at ==> r.Some? && r.value <= at)
      && (r != e ==> r.Some? && r.value in Wakes(higher, w, acted))
    decreases |higher|
  {
    hide HasReset, WakeFor;
    if higher != [] && higher[0].until.Some? && !HasReset(higher[0], w, acted) {
      WalkWakes(higher[1..], w, acted, Schedule(e, WakeFor(higher[0], w), w.now));
    }
  }

  /** The sleep until the next tick. */
  function WaitFor(earliest: Option<Time>, now: Time, interval: Time): Time {
    if earliest.Some? && earliest.value - now < interval then earliest.value - now else interval
  }

  /** Shorter than the interval only to end exactly at the instant scheduled, and always so if that comes sooner. */
  lemma WaitExactly(earliest: Option<Time>, now: Time, interval: Time)
    ensures var wait := WaitFor(earliest, now, interval);
      && (wait == interval || (earliest.Some? && now + wait == earliest.value && wait < interval))
      && (earliest.Some? && earliest.value < now + interval ==> now + wait == earliest.value)
  {
  }

  lemma WaitBounds(earliest: Option<Time>, now: Time, interval: Time)
    requires interval > 0 && (earliest.Some? ==> now < earliest.value)
    ensures 0 < WaitFor(earliest, now, interval) <= interval
    ensures earliest.Some? ==> now + WaitFor(earliest, now, interval) <= earliest.value
  {
  }

  // ----------------------------------------------------------------- climbing

  lemma {:induction false} RankInjective(order: seq<string>, i: nat)
    requires i < |order| && Distinct(order)
    ensures Rank(order, order[i]) == i
  {
    if i > 0 { RankInjective(order[1..], i - 1); }
  }

  /** A successful switch moves the pool to an available enabled member that ranks strictly higher; a refused one moves nothing. */
  lemma PreemptClimbs(c: Ctl, w: World, nick: string)
    requires WF(c)
    ensures var (d, moved) := Parks.PreemptTo(c, w, nick);
      if moved then
        && d.cur == nick && nick in c.order && Enabled(c, nick) && Available(d, w, nick)
        && Rank(c.order, d.cur) < Rank(c.order, c.cur)
      else d.cur == c.cur
  {
    hide ExhaustedUntil, Rank;
    var e := ClearExpired(c, w.now);
    ClearKeeps(c, w, nick);
    if c.order != [] && Parks.PreemptTo(c, w, nick).1 {
      ClearTwice(c, w.now);
      var d := Parks.PreemptTo(c, w, nick).0;
      PointerAlone(e, d, w, nick);
    }
  }

  lemma PointerAlone(c: Ctl, d: Ctl, w: World, n: string)
    requires d == c.(cur := d.cur)
    ensures Unavailable(d, w, n) == Unavailable(c, w, n) && ExhaustedUntil(d, w, n) == ExhaustedUntil(c, w, n)
  {
    C.SameSignals(c, d, w, n);
  }

  // ------------------------------------------------------- a pool's own tick

  /** What a tick does to one pool's controller, and to the record of resets acted on. */
  function LocalTick(c0: Ctl, w: World, acted: map<string, Time>): (Ctl, map<string, Time>) {
    if c0.order == [] then (c0, acted)
    else
      var c := ClearExpired(c0, w.now);
      var k := WalkHigher(Higher(c, w), w, acted, None);
      var d := if k.recovered && k.target.Some? then NoteRecovered(c, k.target.value) else c;
      (if k.target.Some? then Parks.PreemptTo(d, w, k.target.value).0 else d, k.acted)
  }

  /** Members whose stored reset has passed and has not been acted on. */
  function Unspent(order: seq<string>, w: World, acted: map<string, Time>): nat {
    if order == [] then 0
    else
      var q := StoredReset(w, order[0]);
      (if q.Some? && q.value <= w.now && !Acted(acted, order[0], q.value) then 1 else 0) + Unspent(order[1..], w, acted)
  }

  lemma {:induction false} SpendOne(order: seq<string>, w: World, acted: map<string, Time>, n: string)
    requires StoredReset(w, n).Some?
    ensures var q := StoredReset(w, n).value;
      && Unspent(order, w, acted[n := q]) <= Unspent(order, w, acted)
      && (n in order && q <= w.now && !Acted(acted, n, q) ==> Unspent(order, w, acted[n := q]) < Unspent(order, w, acted))
  {
    hide StoredReset;
    if order != [] { SpendOne(order[1..], w, acted, n); }
  }

  lemma {:induction false} HigherMembers(c: Ctl, w: World, rest: seq<string>)
    ensures forall m :: m in HigherIn(c, w, rest) ==>
      && m.nick in rest && Rank(c.order, m.nick) < Rank(c.order, c.cur) && Backend(c, m.nick).Some? && Enabled(c, m.nick)
      && m.until == ExhaustedUntil(c, w, m.nick)
    ensures forall n :: n in rest && Rank(c.order, n) < Rank(c.order, c.cur) && Backend(c, n).Some? && Enabled(c, n) ==>
      Seen(n, ExhaustedUntil(c, w, n)) in HigherIn(c, w, rest)
  {
    hide ExhaustedUntil, Rank, Find;
    if rest != [] { HigherMembers(c, w, rest[1..]); }
  }

  /** With an available member in view a walk finds a target; it is available, or a reset not acted on is spent on it. */
  lemma {:induction false} WalkTargets(higher: seq<Seen>, w: World, acted: map<string, Time>, e: Option<Time>)
    ensures var k := WalkHigher(higher, w, acted, e);
      && ((exists m :: m in higher && m.until.None?) ==> k.target.Some?)
      && (k.recovered ==> k.target.Some?)
      && (k.target.Some? ==> exists m :: m in higher && m.nick == k.target.value
                               && (if k.recovered then HasReset(m, w, acted) && k.acted == acted[m.nick := StoredReset(w, m.nick).value]
                                   else m.until.None?))
    decreases |higher|
  {
    hide StoredReset, WakeFor, Acted;
    if higher != [] {
      assert higher[0] in higher;
      if higher[0].until.Some? && !HasReset(higher[0], w, acted) {
        assert forall m :: m in higher <==> m == higher[0] || m in higher[1..];
        WalkTargets(higher[1..], w, acted, Schedule(e, WakeFor(higher[0], w), w.now));
      }
    }
  }

  /** A member to climb to: enabled, available, ranked above the active one. */
  ghost predicate Climbable(c: Ctl, w: World, n: string) {
    n in c.order && Enabled(c, n) && Available(c, w, n) && Rank(c.order, n) < Rank(c.order, c.cur)
  }

  lemma RecoverKeeps(c: Ctl, w: World, x: string, n: string)
    requires x != n
    ensures var d := NoteRecovered(c, x);
      && d == c.(exhausted := d.exhausted, parks := d.parks) && ExhaustedUntil(d, w, n) == ExhaustedUntil(c, w, n)
  {
    var d := NoteRecovered(c, x);
    assert Reconciling(d, w, n) == Reconciling(c, w, n) && StoreBound(d, w, n) == StoreBound(c, w, n);
  }

  /** One tick climbs, or leaves everything to climb to in place and one unspent reset fewer. */
  lemma TickClimbsOrSpends(c: Ctl, w: World, acted: map<string, Time>, n: string)
    requires WF(c) && Climbable(c, w, n)
    ensures var (d, more) := LocalTick(c, w, acted);
      && WF(d) && d.order == c.order
      && (Rank(d.order, d.cur) < Rank(c.order, c.cur)
          || (Climbable(d, w, n) && d.cur == c.cur && Unspent(c.order, w, more) < Unspent(c.order, w, acted)))
  {
    hide ExhaustedUntil, Rank, Find, WalkHigher, HigherIn, Unspent, StoredReset, Acted, NoteRecovered;
    var e := ClearExpired(c, w.now);
    ClearedWF(c, w);
    ClearKeeps(c, w, n);
    HigherMembers(e, w, e.order);
    var higher := Higher(e, w);
    var k := WalkHigher(higher, w, acted, None);
    assert Seen(n, ExhaustedUntil(e, w, n)) in higher;
    WalkTargets(higher, w, acted, None);
    var m :| m in higher && m.nick == k.target.value
             && (if k.recovered then HasReset(m, w, acted) && k.acted == acted[m.nick := StoredReset(w, m.nick).value]
                 else m.until.None?);
    if k.recovered {
      SpendOne(e.order, w, acted, m.nick);
      RecoveredWF(e, m.nick);
      var d := NoteRecovered(e, m.nick);
      PreemptClimbs(d, w, m.nick);
      StaysClimbable(c, w, n, m.nick);
    } else {
      PreemptSucceeds(e, w, m.nick);
    }
  }

  lemma ClearedWF(c: Ctl, w: World)
    requires WF(c)
    ensures var e := ClearExpired(c, w.now); WF(e) && e == c.(exhausted := e.exhausted, parks := e.parks)
  {
    hide Find;
    assert forall n :: Backend(ClearExpired(c, w.now), n) == Backend(c, n);
  }

  lemma RecoveredWF(c: Ctl, x: string)
    requires WF(c)
    ensures var d := NoteRecovered(c, x); WF(d) && d == c.(exhausted := d.exhausted, parks := d.parks)
  {
    hide Find;
    assert forall n :: Backend(NoteRecovered(c, x), n) == Backend(c, n);
  }

  /** A recovery that does not let the pool climb takes nothing away. */
  lemma StaysClimbable(c: Ctl, w: World, n: string, x: string)
    requires WF(c) && Climbable(c, w, n)
    ensures var d := NoteRecovered(ClearExpired(c, w.now), x); var (f, moved) := Parks.PreemptTo(d, w, x);
      && WF(f) && f.order == c.order && (!moved && x != n ==> f.cur == c.cur && Climbable(f, w, n))
  {
    hide ExhaustedUntil, Rank, Find, NoteRecovered;
    var e := ClearExpired(c, w.now);
    ClearedWF(c, w);
    RecoveredWF(e, x);
    var d := NoteRecovered(e, x);
    ClearedWF(d, w);
    ClearKeeps(c, w, n);
    if x != n { RecoverKeeps(e, w, x, n); }
    ClearKeeps(d, w, n);
  }

  lemma PreemptSucceeds(c: Ctl, w: World, n: string)
    requires WF(c) && Climbable(c, w, n)
    ensures var (d, moved) := Parks.PreemptTo(c, w, n);
      moved && WF(d) && d.order == c.order && Rank(d.order, d.cur) < Rank(c.order, c.cur)
  {
    hide ExhaustedUntil, Rank, Find;
    ClearedWF(c, w);
    ClearKeeps(c, w, n);
  }

  // ------------------------------------------------------- when a tick climbs

  /** What lifting quota parks does not lift: a window the store has rejected, or a live credential rejection. */
  predicate Held(c: Ctl, w: World, n: string) {
    StoreBound(c, w, n).Some? || (LivePark(c, w.now, n) && !c.parks[n].windowFact)
  }

  lemma LiftedExactly(c: Ctl, w: World, n: string)
    ensures Available(NoteRecovered(c, n), w, n) <==> Enabled(c, n) && !Held(c, w, n)
    ensures Available(c, w, n) ==> !Held(c, w, n)
  {
    var d := NoteRecovered(c, n);
    assert StoreBound(d, w, n) == StoreBound(c, w, n) && ExhaustedBound(d, w, n).None?;
  }

  /** Whom a walk stops at: enabled, ranked above the active member, and available or past a stored reset not acted on. */
  ghost predicate Tempts(c: Ctl, w: World, acted: map<string, Time>, n: string) {
    var q := if n in w.store then w.store[n].h5.reset else None;
    && Rank(c.order, n) < Rank(c.order, c.cur) && Backend(c, n).Some? && Enabled(c, n)
    && (ExhaustedUntil(c, w, n).None? || (q.Some? && q.value <= w.now && !(n in acted && acted[n] == q.value)))
  }

  ghost predicate FirstTempting(c: Ctl, w: World, acted: map<string, Time>, n: string) {
    exists i :: (0 <= i < |c.order| && c.order[i] == n && Tempts(c, w, acted, n)
                 && forall j :: 0 <= j < i ==> !Tempts(c, w, acted, c.order[j]))
  }

  /** One step of a walk, at the member `n`. */
  lemma StopsHere(c: Ctl, w: World, acted: map<string, Time>, e: Option<Time>, n: string, rest: seq<Seen>)
    ensures var m, k := Seen(n, ExhaustedUntil(c, w, n)), WalkHigher(Above(c, w, n) + rest, w, acted, e);
      if Tempts(c, w, acted, n) then k.target == Some(n) && k.recovered == m.until.Some?
      else if Above(c, w, n) == [] then k == WalkHigher(rest, w, acted, e)
      else m.until.Some? && k == WalkHigher(rest, w, acted, Schedule(e, WakeFor(m, w), w.now))
  {
    hide ExhaustedUntil, Rank, Find, WakeFor;
    if Above(c, w, n) == [] {
      assert Above(c, w, n) + rest == rest;
    } else {
      var m := Seen(n, ExhaustedUntil(c, w, n));
      assert ([m] + rest)[0] == m && ([m] + rest)[1..] == rest;
    }
  }

  lemma {:induction false} WalkStops(c: Ctl, w: World, acted: map<string, Time>, e: Option<Time>, k: nat)
    requires k <= |c.order| && forall j :: 0 <= j < k ==> !Tempts(c, w, acted, c.order[j])
    ensures var r := WalkHigher(HigherIn(c, w, c.order[k..]), w, acted, e);
      if r.target.Some? then
        && FirstTempting(c, w, acted, r.target.value)
        && r.recovered == ExhaustedUntil(c, w, r.target.value).Some?
      else !r.recovered && forall n :: n in c.order ==> !Tempts(c, w, acted, n)
    decreases |c.order| - k
  {
    hide ExhaustedUntil, Tempts, Above, WakeFor;
    if k < |c.order| {
      var n := c.order[k];
      assert c.order[k..][0] == n && c.order[k..][1..] == c.order[k + 1..];
      StopsHere(c, w, acted, e, n, HigherIn(c, w, c.order[k + 1..]));
      if Tempts(c, w, acted, n) {
      } else if Above(c, w, n) == [] {
        WalkStops(c, w, acted, e, k + 1);
      } else {
        WalkStops(c, w, acted, Schedule(e, WakeFor(Seen(n, ExhaustedUntil(c, w, n)), w), w.now), k + 1);
      }
    }
  }

  lemma TemptsCleared(c: Ctl, w: World, acted: map<string, Time>, n: string)
    ensures var e := ClearExpired(c, w.now);
      && Tempts(e, w, acted, n) == Tempts(c, w, acted, n) && Held(e, w, n) == Held(c, w, n)
  {
    hide ExhaustedUntil, Rank, Find, StoredReset, Acted, StoreBound;
    ClearKeeps(c, w, n);
    var e := ClearExpired(c, w.now);
    assert LivePark(e, w.now, n) ==> e.parks[n] == c.parks[n];
  }

  lemma FirstCleared(c: Ctl, w: World, acted: map<string, Time>, n: string)
    ensures FirstTempting(ClearExpired(c, w.now), w, acted, n) == FirstTempting(c, w, acted, n)
  {
    hide Tempts;
    forall k { TemptsCleared(c, w, acted, k); }
  }

  /**
   A tick climbs exactly when the first member it stops at is not held by what a quota clear does
   not lift, and then to that very member; an available one further down is passed by otherwise.
   */
  lemma TickClimbsExactly(c: Ctl, w: World, acted: map<string, Time>)
    requires WF(c)
    ensures var d := LocalTick(c, w, acted).0;
      && (Rank(c.order, d.cur) < Rank(c.order, c.cur) <==> exists n :: FirstTempting(c, w, acted, n) && !Held(c, w, n))
      && forall n :: FirstTempting(c, w, acted, n) ==> d.cur == if Held(c, w, n) then c.cur else n
  {
    hide ExhaustedUntil, Rank, Find, WalkHigher, HigherIn, StoredReset, Acted, NoteRecovered, Held, FirstTempting;
    var e := ClearExpired(c, w.now);
    ClearedWF(c, w);
    forall n { TemptsCleared(c, w, acted, n); }
    forall n { FirstCleared(c, w, acted, n); }
    assert e.order[0..] == e.order;
    WalkStops(e, w, acted, None, 0);
    var k := WalkHigher(Higher(e, w), w, acted, None);
    OneFirst(e, w, acted);
    if k.target.Some? {
      var n := k.target.value;
      FirstIsTempting(e, w, acted, n);
      var d := if k.recovered then NoteRecovered(e, n) else e;
      RecoveredWF(e, n);
      LiftedExactly(e, w, n);
      SwitchExactly(d, w, n);
    }
  }

  lemma FirstIsTempting(c: Ctl, w: World, acted: map<string, Time>, n: string)
    ensures FirstTempting(c, w, acted, n) ==> n in c.order && Tempts(c, w, acted, n)
    ensures (forall x :: x in c.order ==> !Tempts(c, w, acted, x)) ==> !FirstTempting(c, w, acted, n)
  {
    hide Tempts;
  }

  lemma OneFirst(c: Ctl, w: World, acted: map<string, Time>)
    ensures forall a, b :: FirstTempting(c, w, acted, a) && FirstTempting(c, w, acted, b) ==> a == b
    ensures (forall x :: x in c.order ==> !Tempts(c, w, acted, x)) ==> forall n :: !FirstTempting(c, w, acted, n)
  {
    hide Tempts;
  }

  lemma SwitchExactly(c: Ctl, w: World, n: string)
    requires WF(c) && n in c.order && Rank(c.order, n) < Rank(c.order, c.cur)
    ensures var (d, moved) := Parks.PreemptTo(c, w, n);
      moved == Available(c, w, n) && d.order == c.order && d.cur == if moved then n else c.cur
  {
    hide ExhaustedUntil, Rank, Find;
    ClearedWF(c, w);
    ClearKeeps(c, w, n);
  }

  /** Ranked a, b, c with c active: "a" had its 5h window reset but its 7d window is rejected, "b" is available. */
  function Passing(now: Time): (Ctl, World) {
    var m := (n: string) => Member(n, n, "u");
    (Ctl([m("a"), m("b"), m("c")], [], ["a", "b", "c"], {}, "c", map[], map[], map[], map[], "", 1),
     World(map["a" := EMPTY.(h5 := NO_WINDOW.(reset := Some(now)),
                             d7 := NO_WINDOW.(status := Some(REJECTED), reset := Some(now + HOUR)), asOf := Some(now))], now, {}))
  }

  /** So a tick can leave the pool where it is although it could climb. */
  lemma TickPassesBy(now: Time)
    ensures var (c, w) := Passing(now);
      WF(c) && Climbable(c, w, "b") && LocalTick(c, w, map[]).0.cur == "c"
  {
    hide LocalTick;
    var (c, w) := Passing(now);
    PassingRanks(now);
    assert c.order[0] == "a" && Tempts(c, w, map[], "a") && Held(c, w, "a");
    assert FirstTempting(c, w, map[], "a");
    TickClimbsExactly(c, w, map[]);
  }

  lemma PassingRanks(now: Time)
    ensures var (c, w) := Passing(now);
      && WF(c) && Rank(c.order, "a") == 0 && Rank(c.order, "b") == 1 && Rank(c.order, "c") == 2
      && Backend(c, "a") == Some(Member("a", "a", "u")) && Backend(c, "b").Some?
  {
    var (c, w) := Passing(now);
    RankInjective(c.order, 0);
    RankInjective(c.order, 1);
    RankInjective(c.order, 2);
    var three, two, one := c.members, c.members[1..], c.members[1..][1..];
    assert forall n :: Find(three, n) == if n == "a" then Some(three[0]) else Find(two, n);
    assert forall n :: Find(two, n) == if n == "b" then Some(two[0]) else Find(one, n);
    assert one[1..] == [] && forall n :: Find(one, n) == if n == "c" then Some(one[0]) else None;
  }

  // ---------------------------------------------------- over several ticks

  predicate HasPassed(w: World, n: string) { StoredReset(w, n).Some? && StoredReset(w, n).value <= w.now }

  /** Members whose stored reset, as `w` has it, was not there or had not passed at `v`. */
  function Arrived(order: seq<string>, v: World, w: World): nat {
    if order == [] then 0
    else
      (if HasPassed(w, order[0]) && !(HasPassed(v, order[0]) && StoredReset(v, order[0]) == StoredReset(w, order[0])) then 1 else 0)
      + Arrived(order[1..], v, w)
  }

  function Arrivals(order: seq<string>, ws: seq<World>): nat
    decreases |ws|
  {
    if |ws| <= 1 then 0 else Arrived(order, ws[0], ws[1]) + Arrivals(order, ws[1..])
  }

  ghost predicate Advancing(ws: seq<World>) { forall i, j :: 0 <= i < j < |ws| ==> ws[i].now <= ws[j].now }

  lemma {:induction false} UnspentArrives(order: seq<string>, v: World, w: World, acted: map<string, Time>)
    ensures Unspent(order, w, acted) <= Unspent(order, v, acted) + Arrived(order, v, w)
  {
    hide StoredReset, Acted;
    if order != [] { UnspentArrives(order[1..], v, w, acted); }
  }

  /** What a tick without a climb leaves of `n` at a later world: everything. */
  lemma ClimbableLater(c: Ctl, w: World, acted: map<string, Time>, n: string, v: World)
    requires WF(c) && Climbable(c, w, n) && Climbable(c, v, n) && w.now <= v.now
    requires LocalTick(c, w, acted).0.cur == c.cur
    ensures Climbable(LocalTick(c, w, acted).0, v, n)
  {
    hide ExhaustedUntil, Rank, LocalTick, WF;
    MilderLater(c, w, acted, n, v);
  }

  /** A tick touches nothing but the pointer and parks, and makes nobody unavailable, then or later. */
  lemma MilderLater(c: Ctl, w: World, acted: map<string, Time>, n: string, v: World)
    requires w.now <= v.now
    ensures var d := LocalTick(c, w, acted).0;
      && d == c.(cur := d.cur, exhausted := d.exhausted, parks := d.parks)
      && (ExhaustedUntil(c, v, n).None? ==> ExhaustedUntil(d, v, n).None?)
  {
    hide ExhaustedUntil, Rank, Find, WalkHigher, HigherIn, NoteRecovered, ClearExpired, Parks.PreemptTo;
    if c.order != [] {
      var e := ClearExpired(c, w.now);
      var k := WalkHigher(Higher(e, w), w, acted, None);
      ClearedLater(c, w, v, n);
      if k.target.Some? {
        var x := k.target.value;
        RecoverStays(e, v, x, n);
        SwitchLater(if k.recovered then NoteRecovered(e, x) else e, w, x, v, n);
      }
    }
  }

  lemma SwitchLater(c: Ctl, w: World, x: string, v: World, n: string)
    requires w.now <= v.now
    ensures var d := Parks.PreemptTo(c, w, x).0;
      && d == c.(cur := d.cur, exhausted := d.exhausted, parks := d.parks)
      && ExhaustedUntil(d, v, n) == ExhaustedUntil(c, v, n)
  {
    hide ExhaustedUntil, Rank, Find, Unavailable;
    var e, d := ClearExpired(c, w.now), Parks.PreemptTo(c, w, x).0;
    ClearedLater(c, w, v, n);
    if c.order != [] { PointerAlone(e, d, v, n); }
  }

  lemma ClearedLater(c: Ctl, w: World, v: World, n: string)
    requires w.now <= v.now
    ensures var e := ClearExpired(c, w.now);
      e == c.(exhausted := e.exhausted, parks := e.parks) && ExhaustedUntil(e, v, n) == ExhaustedUntil(c, v, n)
  {
    var e := ClearExpired(c, w.now);
    assert Reconciling(e, v, n) == Reconciling(c, v, n) && StoreBound(e, v, n) == StoreBound(c, v, n);
    assert ExhaustedBound(e, v, n) == ExhaustedBound(c, v, n) && ParkBound(e, v, n) == ParkBound(c, v, n);
  }

  /** Lifting somebody's quota parks takes nobody's availability away. */
  lemma RecoverStays(c: Ctl, w: World, x: string, n: string)
    ensures var d := NoteRecovered(c, x);
      d == c.(exhausted := d.exhausted, parks := d.parks) && (ExhaustedUntil(c, w, n).None? ==> ExhaustedUntil(d, w, n).None?)
  {
    var d := NoteRecovered(c, x);
    assert Reconciling(d, w, n) == Reconciling(c, w, n) && StoreBound(d, w, n) == StoreBound(c, w, n);
  }

  // ------------------------------------------------------------- the whole tick

  datatype Round = Round(s: State, acted: map<string, Time>, earliest: Option<Time>)

  function PoolTick(r: Round, name: string, w: World): Round {
    if name !in r.s.ctls || r.s.ctls[name].order == [] then r
    else
      var c := ClearExpired(r.s.ctls[name], w.now);
      var k := WalkHigher(Higher(c, w), w, r.acted, r.earliest);
      Round(Settle(r.s.(ctls := r.s.ctls[name := c]), name, w, k), k.acted, k.earliest)
  }

  /** Acting on a walk's outcome: the clear, if any, then the switch. */
  function Settle(s: State, name: string, w: World, k: Walk): State
    requires name in s.ctls
  {
    if k.target.None? then s
    else
      var t := if k.recovered then P.Recover(s, name, k.target.value) else s;
      t.(ctls := t.ctls[name := Parks.PreemptTo(t.ctls[name], w, k.target.value).0])
  }

  function TickAll(r: Round, names: seq<string>, w: World): Round
    decreases |names|
  {
    if names == [] then r else TickAll(PoolTick(r, names[0], w), names[1..], w)
  }

  lemma {:induction false} WalkApart(higher: seq<Seen>, w: World, acted: map<string, Time>, a: Option<Time>, b: Option<Time>)
    ensures var j, k := WalkHigher(higher, w, acted, a), WalkHigher(higher, w, acted, b);
      j.acted == k.acted && j.target == k.target && j.recovered == k.recovered
    decreases |higher|
  {
    hide StoredReset, HasReset, WakeFor;
    if higher != [] && higher[0].until.Some? && !HasReset(higher[0], w, acted) {
      WalkApart(higher[1..], w, acted, Schedule(a, WakeFor(higher[0], w), w.now), Schedule(b, WakeFor(higher[0], w), w.now));
    }
  }

  /** In its own pool the tick is the local one; elsewhere it only lifts parks mirrored from a quota park it cleared. */
  lemma PoolTickIsLocal(r: Round, name: string, w: World, p: string)
    requires name in r.s.ctls && p in r.s.ctls
    ensures var t := PoolTick(r, name, w);
      && t.s.reg == r.s.reg && t.s.ctls.Keys == r.s.ctls.Keys
      && t.s.ctls[name] == LocalTick(r.s.ctls[name], w, r.acted).0 && t.acted == LocalTick(r.s.ctls[name], w, r.acted).1
      && (p != name ==> t.s.ctls[p] == r.s.ctls[p] || exists n :: t.s.ctls[p] == ClearMirror(r.s.ctls[p], n))
  {
    hide WalkHigher, HigherIn, NoteRecovered, ClearMirror, ClearExpired, Parks.PreemptTo, ResolveIn;
    var c := ClearExpired(r.s.ctls[name], w.now);
    WalkApart(Higher(c, w), w, r.acted, r.earliest, None);
    WalkTargets(Higher(c, w), w, r.acted, None);
  }

  // -------------------------------------------------- no flapping, tick by tick

  /** How many clears of the key's park the tick of one pool issues. */
  function PoolClears(r: Round, name: string, w: World, key: string): nat {
    if name !in r.s.ctls || r.s.ctls[name].order == [] then 0
    else Clears(r.acted, Look(Higher(ClearExpired(r.s.ctls[name], w.now), w), w), key)
  }

  function TickClears(r: Round, names: seq<string>, w: World, key: string): nat
    decreases |names|
  {
    if names == [] then 0 else PoolClears(r, names[0], w, key) + TickClears(PoolTick(r, names[0], w), names[1..], w, key)
  }

  /** One whole tick: what it finds, whatever happened since the last, and in which order it sees to the pools. */
  datatype Visit = Visit(s: State, w: World, names: seq<string>)

  function ActedSince(acted: map<string, Time>, v: Visit): map<string, Time> {
    TickAll(Round(v.s, acted, None), v.names, v.w).acted
  }

  function RunClears(acted: map<string, Time>, vs: seq<Visit>, key: string): nat
    decreases |vs|
  {
    if vs == [] then 0
    else TickClears(Round(vs[0].s, acted, None), vs[0].names, vs[0].w, key) + RunClears(ActedSince(acted, vs[0]), vs[1..], key)
  }

  lemma {:induction false} TickClearsOnce(r: Round, names: seq<string>, w: World, key: string, reset: Time)
    requires StoredReset(w, key).None? || StoredReset(w, key) == Some(reset)
    ensures var t, k := TickAll(r, names, w), TickClears(r, names, w, key);
      && (Acted(r.acted, key, reset) ==> Acted(t.acted, key, reset) && k == 0)
      && k <= 1 && (k == 1 ==> Acted(t.acted, key, reset))
    decreases |names|
  {
    hide Acted, StoredReset, HigherIn, WalkHigher, Settle, ClearExpired;
    if names != [] {
      var name := names[0];
      if name in r.s.ctls && r.s.ctls[name].order != [] {
        var c := ClearExpired(r.s.ctls[name], w.now);
        WalkActs(Higher(c, w), w, r.acted, r.earliest, key, reset);
        WalkApart(Higher(c, w), w, r.acted, r.earliest, None);
      }
      TickClearsOnce(PoolTick(r, name, w), names[1..], w, key, reset);
    }
  }

  /**
   While a key's stored 5h reset keeps one value, the ticks clear its park at most once, over all
   pools and whatever became of the pools between one tick and the next.
   */
  lemma {:induction false} TicksClearOnce(acted: map<string, Time>, vs: seq<Visit>, key: string, reset: Time)
    requires forall v :: v in vs ==> StoredReset(v.w, key).None? || StoredReset(v.w, key) == Some(reset)
    ensures RunClears(acted, vs, key) <= if Acted(acted, key, reset) then 0 else 1
    decreases |vs|
  {
    hide TickAll, TickClears, StoredReset, Acted;
    if vs != [] {
      assert vs[0] in vs && forall v :: v in vs[1..] ==> v in vs;
      TickClearsOnce(Round(vs[0].s, acted, None), vs[0].names, vs[0].w, key, reset);
      TicksClearOnce(ActedSince(acted, vs[0]), vs[1..], key, reset);
    }
  }

  // ------------------------------------------------ climbing, over whole ticks

  /** The pool as it was, as far as climbing goes: `n` can be climbed to at each of the worlds. */
  ghost predicate Poised(c: Ctl, order: seq<string>, cur: string, ws: seq<World>, n: string) {
    WF(c) && c.order == order && c.cur == cur && forall w :: w in ws ==> Climbable(c, w, n)
  }

  /** A sibling's release takes nobody's availability away and leaves the pointer. */
  lemma MirrorStays(c: Ctl, x: string, w: World, n: string)
    ensures var d := ClearMirror(c, x);
      && d == c.(exhausted := d.exhausted, parks := d.parks) && (WF(c) ==> WF(d))
      && (ExhaustedUntil(c, w, n).None? ==> ExhaustedUntil(d, w, n).None?)
  {
    hide Find;
    var d := ClearMirror(c, x);
    assert forall k :: Backend(d, k) == Backend(c, k);
    assert Reconciling(d, w, n) == Reconciling(c, w, n) && StoreBound(d, w, n) == StoreBound(c, w, n);
  }

  lemma MirrorPoised(c: Ctl, x: string, order: seq<string>, cur: string, ws: seq<World>, n: string)
    requires Poised(c, order, cur, ws, n)
    ensures Poised(ClearMirror(c, x), order, cur, ws, n)
  {
    hide ExhaustedUntil, ClearMirror, WF, Rank;
    forall w | w in ws ensures Climbable(ClearMirror(c, x), w, n) { MirrorStays(c, x, w, n); }
    MirrorStays(c, x, World(map[], 0, {}), n);
  }

  lemma {:induction false} WalkSpends(higher: seq<Seen>, w: World, acted: map<string, Time>, e: Option<Time>, order: seq<string>)
    ensures Unspent(order, w, WalkHigher(higher, w, acted, e).acted) <= Unspent(order, w, acted)
    decreases |higher|
  {
    hide Unspent, StoredReset, WakeFor;
    if higher != [] {
      var m := higher[0];
      if StoredReset(w, m.nick).Some? { SpendOne(order, w, acted, m.nick); }
      if m.until.Some? && !HasReset(m, w, acted) { WalkSpends(higher[1..], w, acted, Schedule(e, WakeFor(m, w), w.now), order); }
    }
  }

  /** Another pool's tick leaves the pool poised, and no more resets to act on. */
  lemma OtherTick(r: Round, q: string, w: World, name: string, order: seq<string>, cur: string, ws: seq<World>, n: string)
    requires name in r.s.ctls && q != name && Poised(r.s.ctls[name], order, cur, ws, n)
    ensures var t := PoolTick(r, q, w);
      && name in t.s.ctls && Poised(t.s.ctls[name], order, cur, ws, n)
      && Unspent(order, w, t.acted) <= Unspent(order, w, r.acted)
  {
    hide Poised, PoolTick, ClearMirror, Unspent, LocalTick;
    OtherActs(r, q, w, order);
    if q in r.s.ctls {
      PoolTickIsLocal(r, q, w, name);
      if x :| PoolTick(r, q, w).s.ctls[name] == ClearMirror(r.s.ctls[name], x) {
        MirrorPoised(r.s.ctls[name], x, order, cur, ws, n);
      }
    } else {
      NoSuchPool(r, q, w);
    }
  }

  lemma NoSuchPool(r: Round, q: string, w: World)
    ensures q !in r.s.ctls ==> PoolTick(r, q, w) == r
  {
  }

  lemma OtherActs(r: Round, q: string, w: World, order: seq<string>)
    ensures Unspent(order, w, PoolTick(r, q, w).acted) <= Unspent(order, w, r.acted)
  {
    hide Unspent, WalkHigher, HigherIn, Settle, ClearExpired;
    if q in r.s.ctls && r.s.ctls[q].order != [] {
      WalkSpends(Higher(ClearExpired(r.s.ctls[q], w.now), w), w, r.acted, r.earliest, order);
    }
  }

  /** The pool's own tick climbs, or leaves it poised with one reset fewer to act on. */
  lemma OwnTick(r: Round, name: string, w: World, order: seq<string>, cur: string, ws: seq<World>, n: string)
    requires name in r.s.ctls && Poised(r.s.ctls[name], order, cur, ws, n) && w in ws
    requires forall v :: v in ws ==> w.now <= v.now
    ensures var t := PoolTick(r, name, w);
      && name in t.s.ctls && WF(t.s.ctls[name]) && t.s.ctls[name].order == order
      && (Rank(order, t.s.ctls[name].cur) < Rank(order, cur)
          || (Poised(t.s.ctls[name], order, cur, ws, n) && Unspent(order, w, t.acted) < Unspent(order, w, r.acted)))
  {
    hide PoolTick, LocalTick, WF, Climbable, Unspent, Rank;
    var c := r.s.ctls[name];
    PoolTickIsLocal(r, name, w, name);
    TickClimbsOrSpends(c, w, r.acted, n);
    if LocalTick(c, w, r.acted).0.cur == cur {
      forall v | v in ws ensures Climbable(LocalTick(c, w, r.acted).0, v, n) { ClimbableLater(c, w, r.acted, n, v); }
    }
  }

  /** Whatever ticks, a pool's pointer does not go down in its order. */
  lemma NeverDown(r: Round, q: string, w: World, name: string)
    requires name in r.s.ctls && WF(r.s.ctls[name])
    ensures var t, c := PoolTick(r, q, w), r.s.ctls[name];
      && name in t.s.ctls && WF(t.s.ctls[name]) && t.s.ctls[name].order == c.order
      && Rank(c.order, t.s.ctls[name].cur) <= Rank(c.order, c.cur)
  {
    hide PoolTick, LocalTick, WF, Rank, ClearMirror;
    var c := r.s.ctls[name];
    if q in r.s.ctls {
      PoolTickIsLocal(r, q, w, name);
      LocalNeverDown(c, w, r.acted);
      if x :| q != name && PoolTick(r, q, w).s.ctls[name] == ClearMirror(c, x) { MirrorStays(c, x, w, ""); }
    } else {
      NoSuchPool(r, q, w);
    }
  }

  lemma LocalNeverDown(c: Ctl, w: World, acted: map<string, Time>)
    requires WF(c)
    ensures var d := LocalTick(c, w, acted).0; WF(d) && d.order == c.order && Rank(c.order, d.cur) <= Rank(c.order, c.cur)
  {
    hide ExhaustedUntil, Rank, Find, WalkHigher, HigherIn, NoteRecovered, WF;
    if c.order != [] {
      var e := ClearExpired(c, w.now);
      ClearedWF(c, w);
      var k := WalkHigher(Higher(e, w), w, acted, None);
      if k.target.Some? {
        RecoveredWF(e, k.target.value);
        var d := if k.recovered then NoteRecovered(e, k.target.value) else e;
        PreemptClimbs(d, w, k.target.value);
        SwitchKeepsWF(d, w, k.target.value);
      }
    }
  }

  lemma SwitchKeepsWF(c: Ctl, w: World, n: string)
    requires WF(c)
    ensures var d := Parks.PreemptTo(c, w, n).0; WF(d) && d.order == c.order
  {
    hide ExhaustedUntil, Rank, Find;
    ClearedWF(c, w);
    var e, d := ClearExpired(c, w.now), Parks.PreemptTo(c, w, n).0;
    assert forall k :: Backend(d, k) == Backend(e, k);
  }

  /** A whole tick: the pool has climbed, or is still poised and its own tick has spent a reset. */
  lemma {:induction false} TickAllClimbs(r: Round, names: seq<string>, w: World, name: string, order: seq<string>, cur: string,
                                         ws: seq<World>, n: string)
    requires name in r.s.ctls && WF(r.s.ctls[name]) && r.s.ctls[name].order == order
    requires Rank(order, r.s.ctls[name].cur) < Rank(order, cur) || Poised(r.s.ctls[name], order, cur, ws, n)
    requires w in ws && forall v :: v in ws ==> w.now <= v.now
    ensures var t := TickAll(r, names, w);
      && name in t.s.ctls && WF(t.s.ctls[name]) && t.s.ctls[name].order == order
      && Rank(order, t.s.ctls[name].cur) <= Rank(order, r.s.ctls[name].cur)
      && (Rank(order, t.s.ctls[name].cur) < Rank(order, cur)
          || (Poised(t.s.ctls[name], order, cur, ws, n)
              && Unspent(order, w, t.acted) + (if name in names then 1 else 0) <= Unspent(order, w, r.acted)))
    decreases |names|
  {
    hide PoolTick, Poised, Unspent, Rank, WF;
    if names != [] {
      var q := names[0];
      assert forall x :: x in names <==> x == q || x in names[1..];
      NeverDown(r, q, w, name);
      if !(Rank(order, r.s.ctls[name].cur) < Rank(order, cur)) {
        if q == name { OwnTick(r, name, w, order, cur, ws, n); } else { OtherTick(r, q, w, name, order, cur, ws, n); }
      }
      TickAllClimbs(PoolTick(r, q, w), names[1..], w, name, order, cur, ws, n);
    }
  }

  /** Whole ticks over the pools `names`, at each of the worlds in turn. */
  function TicksOver(s: State, acted: map<string, Time>, names: seq<string>, ws: seq<World>): State
    decreases |ws|
  {
    if ws == [] then s
    else
      var t := TickAll(Round(s, acted, None), names, ws[0]);
      TicksOver(t.s, t.acted, names, ws[1..])
  }

  /**
   A pool that could climb throughout climbs before the ticks outnumber the resets not yet acted on, those
   that pass or appear between the ticks included, whatever the ticks of the other pools do besides.
   */
  lemma {:induction false} ClimbsWithin(s: State, acted: map<string, Time>, names: seq<string>, ws: seq<World>, name: string, n: string)
      returns (k: nat)
    requires name in s.ctls && name in names && WF(s.ctls[name]) && Advancing(ws)
    requires forall w :: w in ws ==> Climbable(s.ctls[name], w, n)
    requires ws != [] && |ws| > Unspent(s.ctls[name].order, ws[0], acted) + Arrivals(s.ctls[name].order, ws)
    ensures k <= |ws|
    ensures var t, c := TicksOver(s, acted, names, ws[..k]), s.ctls[name];
      name in t.ctls && Rank(c.order, t.ctls[name].cur) < Rank(c.order, c.cur)
    decreases |ws|
  {
    hide TickAll, Rank, Unspent, Arrived, WF, Climbable;
    var w, rest, c := ws[0], ws[1..], s.ctls[name];
    var r := Round(s, acted, None);
    assert w in ws && forall v :: v in rest ==> v in ws;
    TickAllClimbs(r, names, w, name, c.order, c.cur, ws, n);
    var t := TickAll(r, names, w);
    if Rank(c.order, t.s.ctls[name].cur) < Rank(c.order, c.cur) {
      k := 1;
      assert ws[..1][0] == w && ws[..1][1..] == [];
    } else {
      UnspentArrives(c.order, w, rest[0], t.acted);
      var m := ClimbsWithin(t.s, t.acted, names, rest, name, n);
      k := m + 1;
      assert ws[..k][0] == w && ws[..k][1..] == rest[..m];
    }
  }

  /** The loop sleeps a positive time, at most its interval, and never past an instant some pool asked to be woken at. */
  lemma {:induction false} TickAllWakes(r: Round, names: seq<string>, w: World, i: nat)
    requires r.earliest.Some? ==> w.now < r.earliest.value
    ensures var t := TickAll(r, names, w);
      && (t.earliest.Some? ==> w.now < t.earliest.value)
      && (r.earliest.Some? ==> t.earliest.Some? && t.earliest.value <= r.earliest.value)
      && (i < |names| ==>
            forall at :: at in Asked(TickAll(r, names[..i], w), names[i], w) && w.now < at ==>
              t.earliest.Some? && t.earliest.value <= at)
    decreases |names|
  {
    hide PoolTick, Asked;
    if names != [] {
      var s := PoolTick(r, names[0], w);
      PoolTickWakes(r, names[0], w);
      if i == 0 {
        TickAllWakes(s, names[1..], w, |names|);
        assert names[..0] == [];
      } else {
        TickAllWakes(s, names[1..], w, i - 1);
        if i < |names| { assert names[..i][1..] == names[1..][..i - 1]; }
      }
    }
  }

  /** The instants pool `name` asks to be woken at. */
  function Asked(r: Round, name: string, w: World): seq<Time> {
    if name !in r.s.ctls || r.s.ctls[name].order == [] then []
    else Wakes(Higher(ClearExpired(r.s.ctls[name], w.now), w), w, r.acted)
  }

  lemma PoolTickWakes(r: Round, name: string, w: World)
    requires r.earliest.Some? ==> w.now < r.earliest.value
    ensures var t := PoolTick(r, name, w);
      && (t.earliest.Some? ==> w.now < t.earliest.value)
      && (r.earliest.Some? ==> t.earliest.Some? && t.earliest.value <= r.earliest.value)
      && (forall at :: at in Asked(r, name, w) && w.now < at ==> t.earliest.Some? && t.earliest.value <= at)
      && (t.earliest != r.earliest ==> t.earliest.Some? && t.earliest.value in Asked(r, name, w))
  {
    hide WalkHigher, Wakes, HigherIn, Settle, ClearExpired;
    if name in r.s.ctls && r.s.ctls[name].order != [] {
      WalkWakes(Higher(ClearExpired(r.s.ctls[name], w.now), w), w, r.acted, r.earliest);
    }
  }

  /** The instant at which pool `names[i]`, seen to after those before it, asks to be looked at again. */
  ghost predicate AskedBy(r: Round, names: seq<string>, w: World, i: nat, at: Time) {
    i < |names| && at in Asked(TickAll(r, names[..i], w), names[i], w)
  }

  ghost predicate AskedBySome(r: Round, names: seq<string>, w: World, at: Time) { exists i :: AskedBy(r, names, w, i, at) }

  /** Nothing else is scheduled: a wake that was not there before is one that some pool asked for. */
  lemma {:induction false} TickAllAsked(r: Round, names: seq<string>, w: World) returns (i: nat)
    requires r.earliest.Some? ==> w.now < r.earliest.value
    ensures var t := TickAll(r, names, w);
      t.earliest != r.earliest ==> t.earliest.Some? && AskedBy(r, names, w, i, t.earliest.value)
    decreases |names|
  {
    hide PoolTick, Asked;
    i := 0;
    if names != [] {
      var s := PoolTick(r, names[0], w);
      PoolTickWakes(r, names[0], w);
      var j := TickAllAsked(s, names[1..], w);
      if TickAll(r, names, w).earliest == s.earliest {
        assert names[..0] == [];
      } else {
        i := j + 1;
        assert names[..i][1..] == names[1..][..j];
      }
    }
  }

  /**
   The sleep after a tick: as long as the interval, or shorter, and then it ends at the first instant ahead that any pool
   asked for. Nobody who asked is kept waiting.
   */
  lemma TickSleeps(s: State, acted: map<string, Time>, names: seq<string>, w: World, interval: Time)
    requires interval > 0
    ensures var r := Round(s, acted, None);
      var wait := WaitFor(TickAll(r, names, w).earliest, w.now, interval);
      && 0 < wait <= interval
      && (wait < interval ==> AskedBySome(r, names, w, w.now + wait))
      && (forall i, at :: AskedBy(r, names, w, i, at) && w.now < at ==> w.now + wait <= at)
  {
    hide TickAll, Asked;
    var r := Round(s, acted, None);
    var earliest := TickAll(r, names, w).earliest;
    var i := TickAllAsked(r, names, w);
    TickAllWakes(r, names, w, |names|);
    WaitExactly(earliest, w.now, interval);
    WaitBounds(earliest, w.now, interval);
    forall j, at | AskedBy(r, names, w, j, at) && w.now < at ensures earliest.Some? && earliest.value <= at {
      TickAllWakes(r, names, w, j);
    }
  }

  /** Passed over by the walk: enabled, ranked above the active member, exhausted, and nobody before it or it itself tempts. */
  ghost predicate PassedAt(c: Ctl, w: World, acted: map<string, Time>, i: int) {
    && 0 <= i < |c.order| && Rank(c.order, c.order[i]) < Rank(c.order, c.cur) && Backend(c, c.order[i]).Some? && Enabled(c, c.order[i])
    && ExhaustedUntil(c, w, c.order[i]).Some? && forall j :: 0 <= j <= i ==> !Tempts(c, w, acted, c.order[j])
  }

  /** The sooner of the member's bound and its stored reset, if that is ahead. */
  ghost predicate DueAt(c: Ctl, w: World, n: string, at: Time)
    requires ExhaustedUntil(c, w, n).Some?
  {
    var until, q := ExhaustedUntil(c, w, n).value, if n in w.store then w.store[n].h5.reset else None;
    at == if q.Some? && w.now < q.value < until then q.value else until
  }

  /** At place `i` of the order somebody is passed over who is due at that instant. */
  ghost predicate WaitsAt(c: Ctl, w: World, acted: map<string, Time>, i: int, at: Time) {
    PassedAt(c, w, acted, i) && DueAt(c, w, c.order[i], at)
  }

  /** A pool asks for exactly the instants at which the members its walk passes over are due. */
  lemma AskedExactly(r: Round, name: string, w: World, at: Time)
    requires name in r.s.ctls
    ensures var c := r.s.ctls[name];
      at in Asked(r, name, w) <==> exists i :: WaitsAt(c, w, r.acted, i, at)
  {
    hide Tempts, Rank, Wakes, HigherIn, WakeFor, ClearExpired, ExhaustedUntil, DueAt;
    var c := r.s.ctls[name];
    var e := ClearExpired(c, w.now);
    ClearedFields(c, w.now);
    forall i { WaitsCleared(c, w, r.acted, i, at); }
    ClearedFields(c, w.now);
    assert e.order[0..] == e.order;
    WakesFrom(e, w, r.acted, 0, at);
  }

  lemma WaitsCleared(c: Ctl, w: World, acted: map<string, Time>, i: int, at: Time)
    ensures WaitsAt(ClearExpired(c, w.now), w, acted, i, at) == WaitsAt(c, w, acted, i, at)
  {
    hide ExhaustedUntil, Tempts, Rank, ClearExpired, Find;
    ClearedFields(c, w.now);
    forall n { ClearKeeps(c, w, n); }
    forall n { TemptsCleared(c, w, acted, n); }
  }

  lemma ClearedFields(c: Ctl, now: Time)
    ensures var e := ClearExpired(c, now); e == c.(exhausted := e.exhausted, parks := e.parks)
  {
  }

  lemma {:induction false} WakesFrom(c: Ctl, w: World, acted: map<string, Time>, k: nat, at: Time)
    requires k <= |c.order| && forall j :: 0 <= j < k ==> !Tempts(c, w, acted, c.order[j])
    ensures at in Wakes(HigherIn(c, w, c.order[k..]), w, acted)
       <==> exists i :: k <= i && WaitsAt(c, w, acted, i, at)
    decreases |c.order| - k
  {
    hide ExhaustedUntil, Tempts, Above, WakeFor, Rank, StoredReset;
    if k < |c.order| {
      var n := c.order[k];
      assert c.order[k..][0] == n && c.order[k..][1..] == c.order[k + 1..];
      WakesHere(c, w, acted, n, HigherIn(c, w, c.order[k + 1..]), at);
      if !Tempts(c, w, acted, n) {
        WakesFrom(c, w, acted, k + 1, at);
        assert WaitsAt(c, w, acted, k, at)
          <==> Rank(c.order, n) < Rank(c.order, c.cur) && Backend(c, n).Some? && Enabled(c, n) && ExhaustedUntil(c, w, n).Some?
               && DueAt(c, w, n, at);
      }
    }
  }

  lemma WakesHere(c: Ctl, w: World, acted: map<string, Time>, n: string, rest: seq<Seen>, at: Time)
    ensures var here := Rank(c.order, n) < Rank(c.order, c.cur) && Backend(c, n).Some? && Enabled(c, n) && ExhaustedUntil(c, w, n).Some?;
      at in Wakes(Above(c, w, n) + rest, w, acted)
      <==> !Tempts(c, w, acted, n) && ((here && DueAt(c, w, n, at)) || at in Wakes(rest, w, acted))
  {
    hide ExhaustedUntil, Rank, Find;
    if Above(c, w, n) == [] {
      assert Above(c, w, n) + rest == rest;
    } else {
      var m := Seen(n, ExhaustedUntil(c, w, n));
      assert ([m] + rest)[0] == m && ([m] + rest)[1..] == rest;
    }
  }

  class Preemptor {
    const interval: Time
    var lastActed: map<string, Time>

    constructor (every: Time)
      ensures interval == (if every <= 0 then 5 * MINUTE else every) && interval > 0 && lastActed == map[]
    {
      interval := if every <= 0 then DEFAULT_INTERVAL else every;
      lastActed := map[];
    }

    /** `preemptView`: the members ranked above the active one, lapsed parks cleared first. */
    static method PreemptView(c: C.Controller, w: World) returns (higher: Option<seq<Seen>>)
      modifies c
      ensures higher.None? <==> old(c.View()).order == []
      ensures c.View() == if higher.None? then old(c.View()) else ClearExpired(old(c.View()), w.now)
      ensures higher.Some? ==> higher.value == Higher(c.View(), w)
    {
      hide ClearExpired, HigherIn;
      if c.order == [] { return None; }
      c.ClearExpiredParks(w.now);
      var seen := SeenAbove(c, w);
      return Some(seen);
    }

    static method SeenAbove(c: C.Controller, w: World) returns (seen: seq<Seen>)
      ensures seen == Higher(c.View(), w)
    {
      hide Above, C.Controller.View;
      OrderSeen(c);
      seen := [];
      assert c.order[0..] == c.order;
      for i := 0 to |c.order|
        invariant seen + HigherIn(c.View(), w, c.order[i..]) == HigherIn(c.View(), w, c.order)
      {
        assert c.order[i..][0] == c.order[i] && c.order[i..][1..] == c.order[i + 1..];
        ghost var rest := HigherIn(c.View(), w, c.order[i + 1..]);
        var more := SeenAt(c, w, c.order[i]);
        assert seen + (more + rest) == (seen + more) + rest;
        seen := seen + more;
      }
    }

    static lemma OrderSeen(c: C.Controller)
      ensures c.View().order == c.order
    {
    }

    static method SeenAt(c: C.Controller, w: World, n: string) returns (seen: seq<Seen>)
      ensures seen == Above(c.View(), w, n)
    {
      hide ExhaustedUntil, Rank, Find;
      var current := c.RankOf(c.curNick);
      var rank := c.RankOf(n);
      if rank >= current || Find(c.members, n).None? || n in c.disabled { return []; }
      var until := c.ExhaustedUntilNick(w, n);
      return [Seen(n, until)];
    }

    /** The walk down one pool's view. */
    method WalkView(higher: seq<Seen>, w: World, soonest: Option<Time>) returns (k: Walk)
      modifies this
      ensures k == WalkHigher(higher, w, old(lastActed), soonest) && lastActed == k.acted
    {
      hide StoredReset;
      var earliest := soonest;
      assert higher[0..] == higher;
      for i := 0 to |higher|
        invariant lastActed == old(lastActed)
        invariant WalkHigher(higher[i..], w, lastActed, earliest) == WalkHigher(higher, w, old(lastActed), soonest)
      {
        var m := higher[i];
        assert higher[i..][0] == m && higher[i..][1..] == higher[i + 1..];
        var q := StoredReset(w, m.nick);
        if m.until.None? {
          if q.Some? { lastActed := lastActed[m.nick := q.value]; }
          return Walk(lastActed, earliest, Some(m.nick), false);
        }
        if q.Some? && q.value <= w.now && !(m.nick in lastActed && lastActed[m.nick] == q.value) {
          lastActed := lastActed[m.nick := q.value];
          return Walk(lastActed, earliest, Some(m.nick), true);
        }
        earliest := Schedule(earliest, WakeFor(m, w), w.now);
      }
      return Walk(lastActed, earliest, None, false);
    }

    method TickPool(pools: P.Pools, name: string, w: World, soonest: Option<Time>) returns (earliest: Option<Time>)
      requires pools.Valid() && name in pools.byPool
      modifies this, pools.Repr()
      ensures pools.Valid() && pools.reg == old(pools.reg) && pools.byPool == old(pools.byPool)
      ensures var t := PoolTick(Round(old(pools.View()), old(lastActed), soonest), name, w);
        pools.View() == t.s && lastActed == t.acted && earliest == t.earliest
    {
      hide WalkHigher, HigherIn, ClearExpired, C.Controller.View, P.Recover, Parks.PreemptTo;
      ghost var s := pools.View();
      var higher := PreemptView(pools.byPool[name], w);
      P.OneChanged(s, pools.View(), name, pools.byPool[name].View());
      if higher.None? { return soonest; }
      var k := WalkView(higher.value, w, soonest);
      earliest := k.earliest;
      SettleInPools(pools, name, w, k);
    }

    static method SettleInPools(pools: P.Pools, name: string, w: World, k: Walk)
      requires pools.Valid() && name in pools.byPool
      modifies pools.Repr()
      ensures pools.Valid() && pools.reg == old(pools.reg) && pools.byPool == old(pools.byPool)
      ensures pools.View() == Settle(old(pools.View()), name, w, k)
    {
      hide C.Controller.View, P.Recover, Parks.PreemptTo;
      if k.target.None? { return; }
      if k.recovered { pools.RecoverNick(name, k.target.value); }
      ghost var t := pools.View();
      var moved := pools.byPool[name].PreemptTo(w, k.target.value);
      P.OneChanged(t, pools.View(), name, pools.byPool[name].View());
    }

    /** `tick`: one evaluation of every pool, in name order, and the sleep until the next. */
    method Tick(pools: P.Pools, w: World) returns (wait: Time)
      requires pools.Valid()
      modifies this, pools.Repr()
      ensures pools.Valid() && pools.reg == old(pools.reg) && pools.byPool == old(pools.byPool)
      ensures var t := TickAll(Round(old(pools.View()), old(lastActed), None), Listing(old(pools.byPool).Keys), w);
        pools.View() == t.s && lastActed == t.acted && wait == WaitFor(t.earliest, w.now, interval)
    {
      hide PoolTick, C.Controller.View, P.Pools.View, P.Apart, Listing;
      var names := SortKeys(pools.byPool.Keys);
      P.AllListed(pools.byPool.Keys, names);
      ghost var start := Round(pools.View(), lastActed, None);
      var earliest: Option<Time> := None;
      assert names[0..] == names;
      for i := 0 to |names|
        invariant pools.Valid() && pools.reg == old(pools.reg) && pools.byPool == old(pools.byPool)
        invariant TickAll(Round(pools.View(), lastActed, earliest), names[i..], w) == TickAll(start, names, w)
      {
        assert names[i..][0] == names[i] && names[i..][1..] == names[i + 1..];
        assert names[i] in names;
        earliest := TickPool(pools, names[i], w, earliest);
      }
      return WaitFor(earliest, w.now, interval);
    }
  }
}
