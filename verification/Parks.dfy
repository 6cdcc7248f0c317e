/**
 Steps that write or lift parks in one controller: a failed response, a park mirrored in
 from a sibling pool, the preemptor, and the clears. Each runs under that controller's lock alone.
 */
module Parks {
  import opened Common
  import opened Quota
  import opened Availability
  import opened Routing
  import opened Workers
  import opened Restart

  datatype Record = Record(to: string, switched: bool, retryAfter: int, allExhausted: bool)

  /** `record429Entry`: an unconditional local write, then a rotation only if the sticky member is unavailable. */
  function Record429(c0: Ctl, w: World, nick: string, unrepresentable: bool, entry: Park): (Ctl, Record) {
    var c1 := c0.(exhausted := c0.exhausted[nick := entry.reset],
                  parks := if unrepresentable then c0.parks[nick := entry] else c0.parks);
    var c := ClearExpired(c1, w.now);
    var healthy := FirstHealthy(c, w, c.order);
    if Available(c, w, c.cur) then (c, Record(c.cur, false, 0, false))
    else if healthy.Some? then (c.(cur := healthy.value), Record(healthy.value, healthy.value != c.cur, 0, false))
    else
      var d := SoonestDue(c, w);
      (c.(cur := d.nick), Record(d.nick, false, Wait(d.at, w.now), true))
  }

  function ParkOf(c: Ctl, nick: string): Option<Park> { if nick in c.parks then Some(c.parks[nick]) else None }

  /** What a sibling has after a park is mirrored in: a later reset wins; a kept windowFact entry still adopts a later `since`. */
  function Raise(was: Option<Park>, entry: Park): Park {
    if was.None? || was.value.reset < entry.reset then entry
    else if was.value.windowFact && entry.since.Some? && (was.value.since.None? || was.value.since.value < entry.since.value)
    then was.value.(since := entry.since)
    else was.value
  }

  function Deliver(c: Ctl, nick: string, entry: Park): Ctl {
    c.(parks := c.parks[nick := Raise(ParkOf(c, nick), entry)])
  }

  /** The credential park goes, and with it the quota entry written together with it. */
  function DropPark(c: Ctl, nick: string): Ctl
    requires nick in c.parks
  {
    c.(parks := c.parks - {nick},
       exhausted := if nick in c.exhausted && c.exhausted[nick] == c.parks[nick].reset then c.exhausted - {nick}
                    else c.exhausted)
  }

  /** A sibling's release after a clear: whatever the class. */
  function ClearMirror(c: Ctl, nick: string): Ctl {
    if nick in c.parks then DropPark(c, nick) else c
  }

  predicate HasAuthPark(c: Ctl, nick: string) { nick in c.parks && c.parks[nick].authRejected }

  /** `clearAuthRejectedPark`, and what it makes a sibling do. */
  function ClearAuth(c: Ctl, w: World, nick: string): Ctl {
    if HasAuthPark(c, nick) then Reanchor(DropPark(c, nick), w) else c
  }

  /** `noteRecovered`: a precise reset supersedes quota parks, never a credential rejection. */
  function NoteRecovered(c: Ctl, nick: string): Ctl {
    c.(exhausted := c.exhausted - {nick},
       parks := if nick in c.parks && c.parks[nick].windowFact then c.parks - {nick} else c.parks)
  }

  /** An operator's clear of one member. */
  function ClearNick(c: Ctl, nick: string): Ctl {
    c.(exhausted := c.exhausted - {nick}, parks := c.parks - {nick})
  }

  function Rank(order: seq<string>, n: string): (r: nat)
    ensures r <= |order| && (r < |order| ==> order[r] == n) && (r == |order| <==> n !in order)
  {
    if order == [] || order[0] == n then 0 else 1 + Rank(order[1..], n)
  }

  /** `PreemptTo`: only upwards, and only onto an available member. */
  function PreemptTo(c0: Ctl, w: World, nick: string): (Ctl, bool) {
    if c0.order == [] then (c0, false)
    else
      var c := ClearExpired(c0, w.now);
      if Backend(c, nick).None? || Rank(c.order, nick) >= Rank(c.order, c.cur) || Unavailable(c, w, nick) then (c, false)
      else (c.(cur := nick), true)
  }

  // ----------------------------------------------------- auth parks are kept

  /** An auth park: a 401/403 rejection until `until`, which no store content retires. */
  ghost predicate AuthHeld(c: Ctl, nick: string, until: Time) {
    nick in c.parks && c.parks[nick].reset >= until && !c.parks[nick].windowFact && Backend(c, nick).Some?
  }

  lemma AuthHeldBlocks(c: Ctl, w: World, nick: string, until: Time)
    requires AuthHeld(c, nick, until) && w.now < until
    ensures Unavailable(c, w, nick)
  {
  }

  /** What may happen to a pool without a clear of this park: every event but those. */
  datatype Event =
    | Merge(key: string, snap: Snapshot)
    | Elapse(span: nat)
    | Auto
    | Worker(name: string)
    | PreemptMove(nick: string)
    | PreemptRecover(nick: string)
    | Failure(nick: string, unrepresentable: bool, entry: Park)
    | Mirrored(nick: string, entry: Park)
    | AuthClearOf(nick: string)

  datatype Local = Local(c: Ctl, w: World)

  function Happen(s: Local, e: Event): Local {
    match e
    case Merge(key, snap) =>
      s.(w := s.w.(store := s.w.store[key := if key in s.w.store then MergeSnapshot(s.w.store[key], snap) else snap]))
    case Elapse(span) => s.(w := s.w.(now := s.w.now + span))
    case Auto => s.(c := ResolveAuto(s.c, s.w).0)
    case Worker(name) => s.(c := ResolveWorker(s.c, s.w, name).0)
    case PreemptMove(nick) => s.(c := PreemptTo(s.c, s.w, nick).0)
    case PreemptRecover(nick) => s.(c := NoteRecovered(s.c, nick))
    case Failure(nick, unrepresentable, entry) => s.(c := Record429(s.c, s.w, nick, unrepresentable, entry).0)
    case Mirrored(nick, entry) => s.(c := Deliver(s.c, nick, entry))
    case AuthClearOf(nick) => s.(c := ClearAuth(s.c, s.w, nick))
  }

  /** Events other than those that overwrite or clear `nick`'s own park in this pool. */
  predicate Harmless(e: Event, nick: string) {
    match e
    case Failure(n, unrepresentable, _) => n != nick || !unrepresentable
    case Mirrored(n, entry) => n != nick || !entry.windowFact
    case AuthClearOf(n) => n != nick
    case _ => true
  }

  lemma WorkerFields(c: Ctl, w: World, x: string)
    ensures var d := ResolveWorker(c, w, x).0;
      && d.members == c.members && d.order == c.order && d.disabled == c.disabled
      && d.parks == ClearExpired(c, w.now).parks && d.exhausted == ClearExpired(c, w.now).exhausted
  {
    hide Stays, WindowOf, NormalCursor, NextSlot, ResolveAuto, AuthOnly, DryAnswer, Find;
    if c.concurrency <= 1 {
      var e := PruneIdle(c, w.now);
      AutoFields(e.(lastSeen := e.lastSeen[x := w.now]), w);
    }
  }

  lemma HeldIf(c: Ctl, d: Ctl, now: Time, nick: string, until: Time)
    requires AuthHeld(c, nick, until) && now < until && d.members == c.members
    requires d.parks == c.parks || d.parks == ClearExpired(c, now).parks
          || (nick in d.parks && d.parks[nick] == c.parks[nick])
    ensures AuthHeld(d, nick, until)
  {
  }

  lemma RecordFields(c: Ctl, w: World, nick: string, unrepresentable: bool, entry: Park)
    ensures var d := Record429(c, w, nick, unrepresentable, entry).0;
      var e := if unrepresentable then c.(parks := c.parks[nick := entry]) else c;
      d.members == c.members && d.parks == ClearExpired(e, w.now).parks
  {
    hide FirstHealthy, Unavailable, SoonestDue;
  }

  lemma HeldStep(s: Local, e: Event, nick: string, until: Time)
    requires AuthHeld(s.c, nick, until) && s.w.now < until && Harmless(e, nick)
    ensures AuthHeld(Happen(s, e).c, nick, until)
  {
    hide ResolveAuto, ResolveWorker, Record429, Unavailable, MergeSnapshot, Reanchor, ClearExpired, Rank, Find, ClearAuth;
    match e
    case Auto => AutoFields(s.c, s.w); ClearedMembers(s.c, s.w.now); HeldIf(s.c, Happen(s, e).c, s.w.now, nick, until);
    case Worker(name) => WorkerFields(s.c, s.w, name); HeldIf(s.c, Happen(s, e).c, s.w.now, nick, until);
    case PreemptMove(n) => ClearedMembers(s.c, s.w.now); HeldIf(s.c, Happen(s, e).c, s.w.now, nick, until);
    case Failure(n, u, entry) =>
      RecordFields(s.c, s.w, n, u, entry);
      var d := if u then s.c.(parks := s.c.parks[n := entry]) else s.c;
      HeldIf(s.c, d, s.w.now, nick, until);
      HeldIf(d, Happen(s, e).c, s.w.now, nick, until);
    case AuthClearOf(n) => HeldClear(s.c, s.w, n, nick, until);
    case _ =>
  }

  lemma ClearedMembers(c: Ctl, now: Time)
    ensures ClearExpired(c, now).members == c.members
  {
  }

  lemma HeldClear(c: Ctl, w: World, n: string, nick: string, until: Time)
    requires AuthHeld(c, nick, until) && n != nick
    ensures AuthHeld(ClearAuth(c, w, n), nick, until)
  {
    hide Reanchor;
    if HasAuthPark(c, n) { ReanchorFields(DropPark(c, n), w); }
  }

  ghost predicate Quiet(s: Local, es: seq<Event>, nick: string, until: Time)
    decreases |es|
  {
    && s.w.now < until
    && (es == [] || (Harmless(es[0], nick) && Quiet(Happen(s, es[0]), es[1..], nick, until)))
  }

  function After(s: Local, es: seq<Event>): Local
    decreases |es|
  {
    if es == [] then s else After(Happen(s, es[0]), es[1..])
  }

  /**
   Before its reset, no sequence of store merges, waiting, resolutions, this pool's own
   preempt ticks and other members' failures makes an auth-parked member selectable here.
   */
  lemma {:induction false} AuthParkHolds(s: Local, es: seq<Event>, nick: string, until: Time)
    requires AuthHeld(s.c, nick, until) && Quiet(s, es, nick, until)
    ensures Unavailable(After(s, es).c, After(s, es).w, nick)
    decreases |es|
  {
    hide Happen, Unavailable, AuthHeld;
    if es == [] {
      AuthHeldBlocks(s.c, s.w, nick, until);
    } else {
      HeldStep(s, es[0], nick, until);
      AuthParkHolds(Happen(s, es[0]), es[1..], nick, until);
    }
  }

  /** Only a clear ends it early: an auth clear of the nick makes it selectable again at once, other signals aside. */
  lemma AuthClearReleases(c: Ctl, w: World, nick: string)
    requires HasAuthPark(c, nick) && nick !in c.disabled && StoreBound(c, w, nick).None?
    requires nick in c.exhausted ==> c.exhausted[nick] == c.parks[nick].reset
    ensures Available(ClearAuth(c, w, nick), w, nick)
  {
    hide FirstHealthy, SoonestDue;
    ReanchorFields(DropPark(c, nick), w);
  }

  // ------------------------------------ what these steps come to, in plain terms

  /** What a failed response leaves on record: live entries stand, and the member's own is the reported one, unless that has passed. */
  lemma FailureFiled(c: Ctl, w: World, nick: string, unrepresentable: bool, entry: Park)
    ensures var d := Record429(c, w, nick, unrepresentable, entry).0;
      && d == c.(cur := d.cur, exhausted := d.exhausted, parks := d.parks)
      && (forall n :: n in d.exhausted <==> if n == nick then w.now < entry.reset else n in c.exhausted && w.now < c.exhausted[n])
      && (forall n :: n in d.exhausted ==> d.exhausted[n] == if n == nick then entry.reset else c.exhausted[n])
      && (forall n :: n in d.parks <==> if n == nick && unrepresentable then w.now < entry.reset
                                       else n in c.parks && w.now < c.parks[n].reset)
      && (forall n :: n in d.parks ==> d.parks[n] == if n == nick && unrepresentable then entry else c.parks[n])
  {
    hide FirstHealthy, Unavailable, SoonestDue, ClearExpired;
    var c1 := c.(exhausted := c.exhausted[nick := entry.reset],
                 parks := if unrepresentable then c.parks[nick := entry] else c.parks);
    forall n { LapsedGo(c1, w.now, n); }
    SameRouting(c1, w.now);
    RecordClears(c, w, nick, unrepresentable, entry);
  }

  lemma RecordClears(c: Ctl, w: World, nick: string, unrepresentable: bool, entry: Park)
    ensures var d := Record429(c, w, nick, unrepresentable, entry).0;
      d == ClearExpired(c.(exhausted := c.exhausted[nick := entry.reset],
                           parks := if unrepresentable then c.parks[nick := entry] else c.parks), w.now).(cur := d.cur)
  {
    hide FirstHealthy, Unavailable, SoonestDue, ClearExpired;
    SameRouting(c.(exhausted := c.exhausted[nick := entry.reset],
                   parks := if unrepresentable then c.parks[nick := entry] else c.parks), w.now);
  }

  /**
   Whom a failed response sends the next request to. A sticky member still available stays. Else the pool goes to
   its highest-ranked available one. Else everybody is exhausted, and it waits for the one that frees up first.
   */
  lemma FailureRotates(c: Ctl, w: World, nick: string, unrepresentable: bool, entry: Park)
    requires WF(c)
    ensures var (d, r) := Record429(c, w, nick, unrepresentable, entry);
      && r.to == d.cur && r.allExhausted == (Unavailable(d, w, c.cur) && !SomeAvailable(d, w))
      && (Available(d, w, c.cur) ==> d.cur == c.cur)
      && (Unavailable(d, w, c.cur) && SomeAvailable(d, w) ==> HighestAvailable(d, w, d.cur))
      && (!r.allExhausted ==> r.retryAfter == 0 && (r.switched <==> d.cur != c.cur))
      && (r.allExhausted ==> !r.switched
                             && DryUntil(d.(cur := c.cur), w, d.cur, Resolution(Backend(d, d.cur), r.retryAfter, true)))
  {
    hide Unavailable, FirstHealthy, SoonestDue, HighestAvailable, DryUntil, Find, ClearExpired, SomeAvailable, WF;
    var c1 := c.(exhausted := c.exhausted[nick := entry.reset],
                 parks := if unrepresentable then c.parks[nick := entry] else c.parks);
    var e := ClearExpired(c1, w.now);
    SameRouting(c1, w.now);
    FailureWF(c, e);
    HealthyOrNobody(e, w);
    var (d, r) := Record429(c, w, nick, unrepresentable, entry);
    assert d == e.(cur := d.cur);
    PointerBlind(e, w, d.cur);
    if !SomeAvailable(e, w) { SoonestFound(e, w); }
    assert e == d.(cur := c.cur) && Backend(d, d.cur) == Backend(e, d.cur);
  }

  lemma FailureWF(c: Ctl, d: Ctl)
    requires d.members == c.members && d.order == c.order && d.disabled == c.disabled
    ensures WF(d) <==> WF(c)
  {
    assert forall n :: Backend(d, n) == Backend(c, n);
  }

  /** A sibling's release takes the member's credential park, and the quota entry only if it is the same instant. */
  lemma ReleaseTakes(c: Ctl, nick: string)
    requires nick in c.parks
    ensures var d := ClearMirror(c, nick);
      && d == c.(parks := d.parks, exhausted := d.exhausted)
      && (forall n :: n in d.parks <==> n in c.parks && n != nick) && (forall n :: n in d.parks ==> d.parks[n] == c.parks[n])
      && (forall n :: n in d.exhausted <==> n in c.exhausted && !(n == nick && c.exhausted[nick] == c.parks[nick].reset))
      && (forall n :: n in d.exhausted ==> d.exhausted[n] == c.exhausted[n])
  {
  }

  /** An auth clear takes a rejection like that, and nothing else; the pointer moves only from a member that is unavailable still. */
  lemma AuthClearTakes(c: Ctl, w: World, nick: string)
    ensures var d := ClearAuth(c, w, nick);
      && (!(nick in c.parks && c.parks[nick].authRejected) ==> d == c)
      && (nick in c.parks && c.parks[nick].authRejected ==> d == ClearMirror(c, nick).(cur := d.cur))
      && (c.cur != "" && Available(d, w, c.cur) ==> d.cur == c.cur)
  {
    hide ExhaustedUntil, FirstHealthy, SoonestDue;
    if HasAuthPark(c, nick) {
      ReanchorFields(DropPark(c, nick), w);
      PointerBlind(DropPark(c, nick), w, ClearAuth(c, w, nick).cur);
    }
  }

  /** A recovery lifts what the store may lift, and a rejection stands. */
  lemma RecoveryTakes(c: Ctl, nick: string)
    ensures var d := NoteRecovered(c, nick);
      && d == c.(parks := d.parks, exhausted := d.exhausted)
      && (forall n :: n in d.parks <==> n in c.parks && !(n == nick && c.parks[n].windowFact))
      && (forall n :: n in d.parks ==> d.parks[n] == c.parks[n])
      && (forall n :: n in d.exhausted <==> n in c.exhausted && n != nick)
      && (forall n :: n in d.exhausted ==> d.exhausted[n] == c.exhausted[n])
  {
  }

  /** What mirroring leaves a sibling with: the later of the two, and of a kept quota fact the later `since`. */
  lemma MirrorLeaves(c: Ctl, nick: string, entry: Park)
    ensures var d := Deliver(c, nick, entry);
      && d == c.(parks := d.parks) && nick in d.parks && d.parks.Keys == c.parks.Keys + {nick}
      && (forall n :: n in c.parks && n != nick ==> d.parks[n] == c.parks[n])
      && var p := d.parks[nick];
         if nick !in c.parks || c.parks[nick].reset < entry.reset then p == entry
         else
           var q := c.parks[nick];
           && p.reset == q.reset && p.windowFact == q.windowFact && p.authRejected == q.authRejected
           && (p.since == q.since || (p.since == entry.since && q.windowFact))
           && (q.windowFact && entry.since.Some? ==> p.since.Some? && p.since.value >= entry.since.value)
           && (q.since.Some? ==> p.since.Some? && p.since.value >= q.since.value)
  {
  }

  // ------------------------------------------------- a dry wait that falls short

  /** One member, parked for a minute as a rejection and for two hours as a quota. */
  function Twofold(): Ctl {
    Ctl([Member("a", "k", "u")], [], ["a"], {}, "a", map["a" := 2 * HOUR], map["a" := Park(MINUTE, false, true, None)],
        map[], map[], "", 1)
  }

  const HEALTHY := EMPTY.(status := Some("allowed"), asOf := Some(0))

  /** A 401 and a late 429 of the one member, then a healthy snapshot. */
  const FAILURES := [Failure("a", true, Park(MINUTE, false, true, None)), Failure("a", false, Park(2 * HOUR, true, false, None)),
                     Merge("a", HEALTHY)]

  lemma TwofoldReached()
    ensures After(Local(Twofold().(exhausted := map[], parks := map[]), World(map[], 0, {})), FAILURES)
         == Local(Twofold(), World(map["a" := HEALTHY], 0, {}))
  {
    hide Unavailable, MergeSnapshot;
    var s0 := Local(Twofold().(exhausted := map[], parks := map[]), World(map[], 0, {}));
    var s1, s2 := Happen(s0, FAILURES[0]), Happen(Happen(s0, FAILURES[0]), FAILURES[1]);
    OneMember(s0.c, s0.w, true, FAILURES[0].entry);
    assert s1.c.exhausted == map["a" := MINUTE] && s1.c.parks == Twofold().parks;
    OneMember(s1.c, s1.w, false, FAILURES[1].entry);
    assert s2.c.exhausted == Twofold().exhausted && s2.c.parks == Twofold().parks;
    var late, last := FAILURES[1..], FAILURES[2..];
    assert late[0] == FAILURES[1] && late[1..] == last && last[0] == FAILURES[2] && last[1..] == [];
    assert After(s0, FAILURES) == After(s1, late) && After(s1, late) == After(s2, last);
    assert After(s2, last) == Happen(s2, last[0]);
    assert Happen(s2, last[0]).c == Twofold();
  }

  /** With one member the pointer has nowhere to go. */
  lemma OneMember(c: Ctl, w: World, unrepresentable: bool, entry: Park)
    requires c.order == ["a"] && |c.members| == 1 && c.members[0].nick == "a" && c.cur == "a"
    ensures var d := Record429(c, w, "a", unrepresentable, entry).0;
      d == ClearExpired(c.(exhausted := c.exhausted["a" := entry.reset],
                           parks := if unrepresentable then c.parks["a" := entry] else c.parks), w.now)
  {
    hide ExhaustedUntil, ClearExpired;
    var e := c.(exhausted := c.exhausted["a" := entry.reset], parks := if unrepresentable then c.parks["a" := entry] else c.parks);
    SameRouting(e, w.now);
    var d := ClearExpired(e, w.now);
    assert d.members[..0] == [] && d.members == [d.members[0]];
  }

  lemma SameRouting(c: Ctl, now: Time)
    ensures var d := ClearExpired(c, now);
      d.members == c.members && d.order == c.order && d.cur == c.cur && d.disabled == c.disabled
  {
  }

  /** In such a state the answer is dry for a minute, and the member it names is not selectable six minutes on. */
  lemma DryWaitFallsShort()
    ensures var c, w := Twofold(), World(map["a" := HEALTHY], 0, {});
      && WF(c) && ResolveAuto(c, w).1 == Resolution(Some(c.members[0]), MINUTE, true)
      && Unavailable(c, w.(now := 6 * MINUTE), "a")
  {
  }
}
