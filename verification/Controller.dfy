/**
 One pool's controller: its fields and the methods that run under its lock, each proved
 against the function that says what the step does. The clock is read once per step.
 */
module Controller {
  import opened Common
  import opened Availability
  import opened Routing
  import opened Workers
  import opened Restart
  import opened Parks
  import opened Reconcile

  class Controller {
    var members: seq<Member>
    var declaredPriority: seq<string>
    var order: seq<string>
    var disabled: set<string>
    var curNick: string
    var exhausted: map<string, Time>
    var credentialPark: map<string, Park>
    var workerAffinity: map<string, string>
    var workerLastSeen: map<string, Time>
    var workerCursor: string
    var workerConcurrency: int

    /** The fields as one value. */
    function View(): Ctl
      reads this
    {
      Ctl(members, declaredPriority, order, disabled, curNick, exhausted, credentialPark,
          workerAffinity, workerLastSeen, workerCursor, workerConcurrency)
    }

    /** `indexOf`. */
    static function MemberIndex(ms: seq<Member>, nick: string): (r: int)
      ensures -1 <= r < |ms| && (r >= 0 ==> ms[r].nick == nick)
      ensures r >= 0 <==> Find(ms, nick).Some?
    {
      if ms == [] then -1
      else if ms[0].nick == nick then 0
      else var r := MemberIndex(ms[1..], nick); if r < 0 then -1 else r + 1
    }

    /** The start index wraps, so an unknown nick starts at the last member. */
    static method StartAt(ms: seq<Member>, nick: string) returns (cur: string)
      requires ms != []
      ensures cur == AnchorAt(ms, nick)
    {
      var start, n := MemberIndex(ms, nick), |ms|;
      cur := ms[Wrap(start + n, n)].nick;
    }

    /** `NewController` over a pool as the registry has it. */
    constructor (g: Config, w: World)
      ensures View() == Fresh(Ctl(g.members, g.declared, EffectiveOrder(g.declared, g.nicks), g.disabled, "",
                                  map[], map[], map[], map[], "", g.concurrency), w)
    {
      members, declaredPriority, disabled, workerConcurrency := g.members, g.declared, g.disabled, g.concurrency;
      exhausted, credentialPark, workerAffinity, workerLastSeen, workerCursor := map[], map[], map[], map[], "";
      curNick, order := "", [];
      new;
      var total := TotalOrder(g.declared, g.nicks);
      order := total;
      if members != [] {
        var healthy := FirstHealthyNick(w);
        if healthy.Some? {
          curNick := StartAt(members, healthy.value);
        } else if order != [] {
          curNick := StartAt(members, order[0]);
        } else {
          curNick := members[0].nick;
        }
      }
    }

    // ------------------------------------------------------------ reading

    /** `effectiveOrder`. */
    static method TotalOrder(declared: seq<string>, nicks: seq<string>) returns (out: seq<string>)
      ensures out == EffectiveOrder(declared, nicks)
    {
      out := [];
      for i := 0 to |declared|
        invariant out == Dedup(declared[..i])
      {
        assert declared[..i + 1][..i] == declared[..i];
        if declared[i] !in out {
          out := out + [declared[i]];
        }
      }
      assert declared[..|declared|] == declared;
      ghost var head := out;
      var sorted := SortStrings(nicks);
      for i := 0 to |sorted|
        invariant out == head + Without(sorted[..i], declared)
      {
        assert sorted[..i + 1][..i] == sorted[..i];
        if sorted[i] !in declared {
          out := out + [sorted[i]];
        }
      }
      assert sorted[..|sorted|] == sorted;
    }

    /** `storeBlockBoundLocked`: the latest bound of the windows that block, if still ahead. */
    method StoreBlockBound(w: World, nick: string) returns (r: Option<Time>)
      ensures r == StoreBound(View(), w, nick)
    {
      var b := Find(members, nick);
      if b.None? { return None; }
      var snap := Get(w, nick);
      var windows := [(snap.h5, true), (snap.d7, LongBlocks(w, b.value.baseURL))];
      var bound: Option<Time> := None;
      for i := 0 to 2
        invariant i == 0 ==> bound == None
        invariant i == 1 ==> bound == WindowBound(snap.h5, snap.asOf, w.now)
        invariant i == 2 ==> bound == Later(WindowBound(snap.h5, snap.asOf, w.now),
                                            if windows[1].1 then WindowBound(snap.d7, snap.asOf, w.now) else None)
      {
        var (win, use) := windows[i];
        if use && win.status.Some? && WindowBlocks(win, snap.asOf, w.now) {
          var candidate := if win.reset.Some? && w.now < win.reset.value then win.reset.value
                           else if snap.asOf.Some? then snap.asOf.value + DEFAULT_WINDOW
                           else w.now + DEFAULT_WINDOW;
          if bound.None? || candidate > bound.value {
            bound := Some(candidate);
          }
        }
      }
      if bound.Some? && bound.value <= w.now { return None; }
      return bound;
    }

    /** `exhaustedUntilLocked`. */
    method ExhaustedUntilNick(w: World, nick: string) returns (r: Option<Time>)
      ensures r == ExhaustedUntil(View(), w, nick)
    {
      r := None;
      if nick in exhausted && w.now < exhausted[nick] && Reconciling(View(), w, nick).None? {
        r := Some(exhausted[nick]);
      }
      if nick in credentialPark && w.now < credentialPark[nick].reset {
        var cp := credentialPark[nick];
        if !ParkRetired(View(), w, nick, cp) && (r.None? || cp.reset > r.value) {
          r := Some(cp.reset);
        }
      }
      var s := StoreBlockBound(w, nick);
      if s.Some? && (r.None? || s.value > r.value) {
        r := s;
      }
    }

    method IsUnavailable(w: World, nick: string) returns (r: bool)
      ensures r == Unavailable(View(), w, nick)
    {
      if nick in disabled { return true; }
      var until := ExhaustedUntilNick(w, nick);
      return until.Some?;
    }

    method FirstHealthyNick(w: World) returns (r: Option<string>)
      ensures r == FirstHealthy(View(), w, order)
    {
      assert order[0..] == order;
      for i := 0 to |order|
        invariant FirstHealthy(View(), w, order) == FirstHealthy(View(), w, order[i..])
      {
        var bad := IsUnavailable(w, order[i]);
        if !bad { return Some(order[i]); }
        assert order[i..][1..] == order[i + 1..];
      }
      return None;
    }

    /** The test `authOnlyDryPoolNickLocked` makes of each enabled member. */
    method IsAuthParked(w: World, nick: string) returns (r: bool)
      ensures r == AuthParked(View(), w, nick)
    {
      hide StoreBound;
      if nick !in credentialPark || !credentialPark[nick].authRejected || w.now >= credentialPark[nick].reset {
        return false;
      }
      if nick in exhausted && w.now < exhausted[nick] && exhausted[nick] != credentialPark[nick].reset {
        return false;
      }
      var bound := StoreBlockBound(w, nick);
      return bound.None?;
    }

    /** `authOnlyDryPoolNickLocked`. */
    method AuthOnlyNick(w: World) returns (r: Option<string>)
      ensures r == AuthOnly(View(), w)
    {
      hide AuthParked;
      assert order[0..] == order;
      r := None;
      for i := 0 to |order|
        invariant forall j :: 0 <= j < i ==> Enabled(View(), order[j]) ==> AuthParked(View(), w, order[j])
        invariant r.None? ==> FirstEnabled(View(), order) == FirstEnabled(View(), order[i..])
        invariant r.Some? ==> FirstEnabled(View(), order) == r
      {
        var nick := order[i];
        assert nick in order;
        assert order[i..][0] == nick && order[i..][1..] == order[i + 1..];
        if nick !in disabled {
          var parked := IsAuthParked(w, nick);
          if !parked { return None; }
          if r.None? { r := Some(nick); }
        }
      }
    }

    /** `nextParkedButResetPassedLocked`. */
    method NextUnparkedNick(now: Time) returns (r: Option<string>)
      ensures r == FirstUnparked(View(), now, order)
    {
      assert order[0..] == order;
      for i := 0 to |order|
        invariant FirstUnparked(View(), now, order) == FirstUnparked(View(), now, order[i..])
      {
        var nick := order[i];
        if nick !in disabled
           && !(nick in exhausted && now < exhausted[nick])
           && !(nick in credentialPark && now < credentialPark[nick].reset) {
          return Some(nick);
        }
        assert order[i..][1..] == order[i + 1..];
      }
      return None;
    }

    /** `soonestNickLocked`. */
    method SoonestNick(w: World) returns (d: Due)
      ensures d == SoonestDue(View(), w)
    {
      hide ExhaustedUntil;
      var best: Option<Due> := None;
      for i := 0 to |members|
        invariant best == Soonest(View(), w, members[..i])
      {
        assert members[..i + 1][..i] == members[..i];
        var nick := members[i].nick;
        if nick !in disabled {
          var until := ExhaustedUntilNick(w, nick);
          if until.Some? && (best.None? || until.value < best.value.at) {
            best := Some(Due(nick, until.value));
          }
        }
      }
      assert members[..|members|] == members;
      return if best.Some? then best.value else Due(curNick, w.now);
    }

    method AnswerDry(w: World, d: Due) returns (r: Resolution)
      requires d == SoonestDue(View(), w)
      ensures r == DryAnswer(View(), w)
    {
      var b := Find(members, d.nick);
      return if b.Some? then Resolution(b, Wait(d.at, w.now), true) else Resolution(None, 0, true);
    }

    // ----------------------------------------------------------- resolving

    method ClearExpiredParks(now: Time)
      modifies this
      ensures View() == ClearExpired(old(View()), now)
    {
      hide LiveTimes, LiveParks;
      ClearExpiredTimes(now);
      var todo := credentialPark.Keys;
      ghost var c := View();
      while todo != {}
        invariant View() == c.(parks := credentialPark)
        invariant todo <= credentialPark.Keys
        invariant forall n :: n in credentialPark <==> n in c.parks && (n in todo || now < c.parks[n].reset)
        invariant forall n :: n in credentialPark ==> credentialPark[n] == c.parks[n]
        decreases |todo|
      {
        var n :| n in todo;
        todo := todo - {n};
        if now >= credentialPark[n].reset {
          credentialPark := credentialPark - {n};
        }
      }
      LiveParksAre(c.parks, credentialPark, now);
    }

    method ClearExpiredTimes(now: Time)
      modifies this
      ensures View() == old(View()).(exhausted := LiveTimes(old(exhausted), now))
    {
      var todo := exhausted.Keys;
      while todo != {}
        invariant View() == old(View()).(exhausted := exhausted)
        invariant todo <= exhausted.Keys
        invariant forall n :: n in exhausted <==> n in old(exhausted) && (n in todo || now < old(exhausted)[n])
        invariant forall n :: n in exhausted ==> exhausted[n] == old(exhausted)[n]
        decreases |todo|
      {
        var n :| n in todo;
        todo := todo - {n};
        if now >= exhausted[n] {
          exhausted := exhausted - {n};
        }
      }
    }

    method ResolveAuto(w: World) returns (r: Resolution)
      modifies this
      ensures (View(), r) == Routing.ResolveAuto(old(View()), w)
    {
      hide ResolveCleared, ClearExpired;
      ClearExpiredParks(w.now);
      r := ResolveTiers(w);
    }

    method ResolveTiers(w: World) returns (r: Resolution)
      modifies this
      ensures (View(), r) == ResolveCleared(old(View()), w)
    {
      hide FirstHealthy, AuthOnly, FirstUnparked, Soonest, Find, Unavailable;
      if curNick != "" {
        var bad := IsUnavailable(w, curNick);
        if !bad {
          var b := Find(members, curNick);
          if b.Some? { return Resolution(b, 0, false); }
        }
      }
      ghost var c := View();
      var healthy := FirstHealthyNick(w);
      if healthy.Some? {
        curNick := healthy.value;
        var b := Find(members, healthy.value);
        if b.Some? { return Resolution(b, 0, false); }
      }
      PointerOnly(c, View(), w);
      r := ResolveParked(w);
    }

    /** The tiers below a healthy member. */
    method ResolveParked(w: World) returns (r: Resolution)
      modifies this
      ensures (View(), r) == ResolveUnhealthy(old(View()), w)
    {
      hide FirstHealthy, AuthOnly, FirstUnparked, Soonest, Find, Unavailable;
      ghost var c := View();
      var auth := AuthOnlyNick(w);
      if auth.Some? {
        var b := Find(members, auth.value);
        if b.Some? { return Resolution(b, 0, false); }
      }
      var unparked := NextUnparkedNick(w.now);
      if unparked.Some? {
        curNick := unparked.value;
        var b := Find(members, unparked.value);
        if b.Some? { return Resolution(b, 0, false); }
      }
      var d := SoonestNick(w);
      r := AnswerDry(w, d);
      curNick := d.nick;
    }

    // ------------------------------------------------------------- failures

    /** `record429Entry` up to the propagation, which runs after the lock is released. */
    method Record429Entry(w: World, nick: string, unrepresentable: bool, entry: Park) returns (r: Record)
      modifies this
      ensures (View(), r) == Record429(old(View()), w, nick, unrepresentable, entry)
    {
      exhausted := exhausted[nick := entry.reset];
      if unrepresentable {
        credentialPark := credentialPark[nick := entry];
      }
      ClearExpiredParks(w.now);
      var prev := curNick;
      var bad := IsUnavailable(w, prev);
      if !bad { return Record(prev, false, 0, false); }
      var next := FirstHealthyNick(w);
      if next.Some? {
        curNick := next.value;
        return Record(next.value, next.value != prev, 0, false);
      }
      var d := SoonestNick(w);
      curNick := d.nick;
      return Record(d.nick, false, Wait(d.at, w.now), true);
    }

    method ReanchorPointer(w: World)
      modifies this
      ensures View() == Reanchor(old(View()), w)
    {
      if members == [] { return; }
      if curNick != "" {
        var bad := IsUnavailable(w, curNick);
        if !bad { return; }
      }
      var healthy := FirstHealthyNick(w);
      if healthy.Some? {
        curNick := healthy.value;
        return;
      }
      var d := SoonestNick(w);
      if d.nick != "" {
        curNick := d.nick;
      }
    }

    /** `clearAuthRejectedPark`, and the body run in each sibling; reports whether there was one to clear. */
    method ClearAuthPark(w: World, nick: string) returns (cleared: bool)
      modifies this
      ensures View() == ClearAuth(old(View()), w, nick) && cleared == HasAuthPark(old(View()), nick)
    {
      if nick !in credentialPark || !credentialPark[nick].authRejected { return false; }
      var entry := credentialPark[nick];
      credentialPark := credentialPark - {nick};
      if nick in exhausted && exhausted[nick] == entry.reset {
        exhausted := exhausted - {nick};
      }
      ReanchorPointer(w);
      return true;
    }

    /** The body `propagateCredentialParkClear` runs in each sibling. */
    method ClearMirroredPark(nick: string) returns (released: bool)
      modifies this
      ensures View() == ClearMirror(old(View()), nick) && released == (nick in old(credentialPark))
    {
      if nick !in credentialPark { return false; }
      var entry := credentialPark[nick];
      credentialPark := credentialPark - {nick};
      if nick in exhausted && exhausted[nick] == entry.reset {
        exhausted := exhausted - {nick};
      }
      return true;
    }

    /** The body `propagateCredentialPark` runs in each sibling. */
    method MirrorPark(nick: string, entry: Park)
      modifies this
      ensures View() == Deliver(old(View()), nick, entry)
    {
      if nick !in credentialPark || entry.reset > credentialPark[nick].reset {
        credentialPark := credentialPark[nick := entry];
      } else {
        var existing := credentialPark[nick];
        if existing.windowFact && entry.since.Some?
           && (existing.since.None? || entry.since.value > existing.since.value) {
          credentialPark := credentialPark[nick := existing.(since := entry.since)];
        }
      }
    }

    // ------------------------------------------------------------- preemption

    method RankOf(nick: string) returns (r: nat)
      ensures r == Rank(order, nick)
    {
      assert order[0..] == order;
      for i := 0 to |order|
        invariant Rank(order, nick) == i + Rank(order[i..], nick)
      {
        if order[i] == nick { return i; }
        assert order[i..][1..] == order[i + 1..];
      }
      return |order|;
    }

    method PreemptTo(w: World, nick: string) returns (moved: bool)
      modifies this
      ensures (View(), moved) == Parks.PreemptTo(old(View()), w, nick)
    {
      if order == [] { return false; }
      ClearExpiredParks(w.now);
      if Find(members, nick).None? { return false; }
      var rank := RankOf(nick);
      var cur := RankOf(curNick);
      if rank >= cur { return false; }
      var bad := IsUnavailable(w, nick);
      if bad { return false; }
      curNick := nick;
      return true;
    }

    /** `noteRecovered` up to the propagation; reports whether a quota park was dropped. */
    method NoteRecoveredNick(nick: string) returns (dropped: bool)
      modifies this
      ensures View() == NoteRecovered(old(View()), nick)
      ensures dropped == (nick in old(credentialPark) && old(credentialPark)[nick].windowFact)
    {
      exhausted := exhausted - {nick};
      if nick in credentialPark && credentialPark[nick].windowFact {
        credentialPark := credentialPark - {nick};
        return true;
      }
      return false;
    }

    // ---------------------------------------------------------------- workers

    /** `workerWindowLocked`. */
    method WorkerWindow(w: World) returns (window: seq<string>)
      ensures window == WindowOf(View(), w)
    {
      hide Unavailable, AvailableOf;
      window := [];
      if workerConcurrency <= 0 { return; }
      var limit := Min(workerConcurrency, |order|);
      assert order[0..] == order;
      for i := 0 to |order|
        invariant AvailableOf(View(), w, order) == window + AvailableOf(View(), w, order[i..])
        invariant |window| < limit || order == []
      {
        var bad := IsUnavailable(w, order[i]);
        AvailableStep(View(), w, i);
        ghost var rest := AvailableOf(View(), w, order[i + 1..]);
        if !bad {
          assert window + ([order[i]] + rest) == (window + [order[i]]) + rest;
          window := window + [order[i]];
          if |window| == limit {
            WindowIsPrefix(View(), w, window, rest);
            return;
          }
        }
      }
      NoneAvailable(View(), w);
      WindowIsPrefix(View(), w, window, []);
    }

    method NormalizeCursor(w: World)
      modifies this
      ensures View() == old(View()).(cursor := NormalCursor(old(workerCursor), WindowOf(old(View()), w)))
    {
      var window := WorkerWindow(w);
      for i := 0 to |window|
        invariant workerCursor == "" || workerCursor !in window[..i]
      {
        if window[i] == workerCursor && workerCursor != "" { return; }
      }
      assert window[..|window|] == window;
      workerCursor := if window != [] then window[0] else "";
    }

    /** `pruneWorkerObservationsLocked`. */
    method PruneObservations(now: Time)
      modifies this
      ensures View() == PruneIdle(old(View()), now)
    {
      hide PruneIdle, Dropped, Idle;
      ghost var c, gone := View(), {};
      var todo := workerLastSeen.Keys;
      DroppedNone(c);
      while todo != {}
        invariant View() == Dropped(c, gone) && todo <= c.lastSeen.Keys && gone !! todo
        invariant forall x :: x in gone <==> x in c.lastSeen && x !in todo && Idle(c, now, x)
        decreases |todo|
      {
        var x :| x in todo;
        DroppedKeeps(c, gone, x, now);
        todo := todo - {x};
        if now - workerLastSeen[x] > IDLE_TTL {
          ForgetWorker(x);
          DroppedMore(c, gone, x);
          gone := gone + {x};
        }
      }
      PrunedIs(c, now, gone);
    }

    method ForgetWorker(x: string)
      modifies this
      ensures View() == Dropped(old(View()), {x})
    {
      workerLastSeen := workerLastSeen - {x};
      if workerConcurrency > 1 { workerAffinity := workerAffinity - {x}; }
    }

    /** The load of a window member and the least load of the window. */
    method LeastLoad(window: seq<string>) returns (least: nat)
      requires window != []
      ensures least == Least(workerAffinity, window)
    {
      least := Count(workerAffinity, window[0]);
      assert window[..1][|window[..1]| - 1] == window[0];
      for i := 1 to |window|
        invariant least == Least(workerAffinity, window[..i])
      {
        assert window[..i + 1][..i] == window[..i];
        var n := Count(workerAffinity, window[i]);
        if n < least { least := n; }
      }
      assert window[..|window|] == window;
    }

    /** `nextWorkerReassignmentLocked`. */
    method NextReassignment(window: seq<string>) returns (slot: int)
      requires window != []
      ensures slot == NextSlot(workerAffinity, window, workerCursor)
    {
      hide Least, Count, IndexOf;
      var least := LeastLoad(window);
      var at := IndexOf(window, workerCursor);
      var start := if at < 0 then 0 else at;
      for offset := 0 to |window|
        invariant NextSlot(workerAffinity, window, workerCursor)
               == PickFrom(workerAffinity, window, least, start, offset)
      {
        var i := (start + offset) % |window|;
        assert i == Wrap(start + offset, |window|) by { WrapIsMod(start + offset, |window|); }
        if Count(workerAffinity, window[i]) == least { return i; }
      }
      return -1;
    }

    /** `ResolveWorker` for a valid worker name. */
    method ResolveWorker(w: World, x: string) returns (r: Resolution)
      modifies this
      ensures (View(), r) == Workers.ResolveWorker(old(View()), w, x)
    {
      if workerConcurrency <= 1 {
        PruneObservations(w.now);
        workerLastSeen := workerLastSeen[x := w.now];
        r := ResolveAuto(w);
        return;
      }
      ClearExpiredParks(w.now);
      PruneObservations(w.now);
      ghost var before := View();
      workerLastSeen := workerLastSeen[x := w.now];
      WindowStable(before, w, workerLastSeen, workerAffinity, workerCursor);
      NormalizeCursor(w);
      ghost var d := View();
      assert d == Prepare(old(View()), w, x);
      var window := WorkerWindow(w);
      if x in workerAffinity && workerAffinity[x] in window {
        var least := LeastLoad(window);
        if Count(workerAffinity, workerAffinity[x]) - least < 2 {
          var b := Find(members, workerAffinity[x]);
          if b.Some? { return Resolution(b, 0, false); }
        }
      }
      workerAffinity := workerAffinity - {x};
      r := AssignWorker(w, window, x);
    }

    method AssignWorker(w: World, window: seq<string>, x: string) returns (r: Resolution)
      requires x !in workerAffinity
      modifies this
      ensures (View(), r) == Reassign(old(View()), w, window, x)
    {
      hide NoWindow, NextSlot, Find;
      ghost var c := View();
      if window != [] {
        var slot := NextReassignment(window);
        if 0 <= slot < |window| {
          workerAffinity := workerAffinity[x := window[slot]];
          workerCursor := window[(slot + 1) % |window|];
          WrapIsMod(slot + 1, |window|);
          var b := Find(members, window[slot]);
          if b.Some? { return Resolution(b, 0, false); }
          workerAffinity := workerAffinity - {x};
          assert workerAffinity == c.affinity;
        }
      }
      WorkersOnly(c, View(), w);
      r := AuthOrDry(w);
    }

    method AuthOrDry(w: World) returns (r: Resolution)
      ensures r == NoWindow(View(), w)
    {
      hide AuthOnly, SoonestDue, Find;
      var auth := AuthOnlyNick(w);
      if auth.Some? {
        var b := Find(members, auth.value);
        if b.Some? { return Resolution(b, 0, false); }
      }
      var d := SoonestNick(w);
      r := AnswerDry(w, d);
    }

    // ---------------------------------------------------------------- restart

    /** `loadState`. */
    method LoadRouting(sticky: string, saved: map<string, Time>, w: World)
      requires exhausted == map[]
      modifies this
      ensures View() == LoadState(old(View()), sticky, saved, w)
    {
      hide Reanchor, KeepTimes, Find;
      if Find(members, sticky).Some? {
        curNick := sticky;
      }
      exhausted := LiveEntries(members, saved, w.now);
      ReanchorPointer(w);
    }

    /** The saved parks of current members that have not lapsed. */
    static method LiveEntries(ms: seq<Member>, saved: map<string, Time>, now: Time) returns (kept: map<string, Time>)
      ensures kept == KeepTimes(ms, saved, now)
    {
      hide Find;
      kept := map[];
      var todo := saved.Keys;
      while todo != {}
        invariant todo <= saved.Keys
        invariant forall n :: n in kept <==> n in saved && n !in todo && now < saved[n] && Find(ms, n).Some?
        invariant forall n :: n in kept ==> kept[n] == saved[n]
        decreases |todo|
      {
        var n :| n in todo;
        todo := todo - {n};
        if saved[n] > now && Find(ms, n).Some? {
          kept := kept[n := saved[n]];
        }
      }
    }

    /** `loadCredentialPark`. */
    method LoadCredentialPark(saved: map<string, Park>, w: World)
      requires credentialPark == map[]
      modifies this
      ensures View() == LoadParks(old(View()), saved, w)
    {
      var todo := saved.Keys;
      while todo != {}
        invariant View() == old(View()).(parks := credentialPark)
        invariant todo <= saved.Keys
        invariant forall n :: n in credentialPark <==>
                    n in saved && n !in todo && w.now < saved[n].reset && Find(members, n).Some?
        invariant forall n :: n in credentialPark ==> credentialPark[n] == saved[n]
        decreases |todo|
      {
        var n :| n in todo;
        todo := todo - {n};
        if saved[n].reset > w.now && Find(members, n).Some? {
          credentialPark := credentialPark[n := saved[n]];
        }
      }
      assert credentialPark == KeepParks(members, saved, w.now);
    }

    /** `reconcileLocked`. */
    method ReconcileWith(g: Config, w: World, ok: NameCheck)
      modifies this
      ensures View() == ReconcileTo(old(View()), w, g, ok)
    {
      hide Configure, FirstHealthy, Unavailable, Find;
      ConfigureWith(g, w, ok);
      ghost var c := View();
      if curNick != "" && Find(members, curNick).None? {
        curNick := "";
        PointerOnly(c, View(), w);
        var next := FirstHealthyNick(w);
        if next.Some? { curNick := next.value; }
      } else if curNick == "" && members != [] {
        var next := FirstHealthyNick(w);
        if next.Some? { curNick := next.value; }
      }
    }

    method ConfigureWith(g: Config, w: World, ok: NameCheck)
      modifies this
      ensures View() == Configure(old(View()), w, g, ok)
      ensures curNick == old(curNick)
    {
      hide ReconcileAffinity, EffectiveOrder, Find, Nicks;
      AdoptConfig(g);
      ReconcileWorkers(w, ok);
    }

    method AdoptConfig(g: Config)
      modifies this
      ensures View() == Adopt(old(View()), g)
    {
      hide Find, EffectiveOrder, KeepMembers, Nicks, SortStrings, Dedup, Without;
      var total := TotalOrder(g.declared, g.nicks);
      var times := DropStrangers(g.members, exhausted);
      var kept := DropStrangers(g.members, credentialPark);
      members, disabled, declaredPriority, workerConcurrency := g.members, g.disabled, g.declared, g.concurrency;
      order, exhausted, credentialPark := total, times, kept;
    }

    /** The entries of current members. */
    static method DropStrangers<V>(ms: seq<Member>, entries: map<string, V>) returns (kept: map<string, V>)
      ensures kept == KeepMembers(ms, entries)
    {
      hide Find;
      kept := entries;
      var todo := entries.Keys;
      while todo != {}
        invariant todo <= kept.Keys
        invariant forall n :: n in kept <==> n in entries && (n in todo || Find(ms, n).Some?)
        invariant forall n :: n in kept ==> kept[n] == entries[n]
        decreases |todo|
      {
        var n :| n in todo;
        todo := todo - {n};
        if Find(ms, n).None? {
          kept := kept - {n};
        }
      }
    }

    method ReconcileWorkers(w: World, ok: NameCheck)
      modifies this
      ensures View() == ReconcileAffinity(old(View()), w, ok)
      ensures curNick == old(curNick)
    {
      hide WindowOf, NormalCursor;
      if workerConcurrency <= 1 {
        workerAffinity, workerCursor := map[], "";
        return;
      }
      ghost var c := View();
      workerAffinity := map x | x in workerAffinity && ok(x) :: workerAffinity[x];
      WindowStable(c, w, workerLastSeen, workerAffinity, workerCursor);
      NormalizeCursor(w);
    }
  }

  /** The controller without what it knows of the workers `gone`. */
  function Dropped(c: Ctl, gone: set<string>): Ctl {
    c.(lastSeen := c.lastSeen - gone, affinity := if c.concurrency > 1 then c.affinity - gone else c.affinity)
  }

  lemma DroppedNone(c: Ctl)
    ensures Dropped(c, {}) == c
  {
    assert c.lastSeen - {} == c.lastSeen && c.affinity - {} == c.affinity;
  }

  lemma DroppedMore(c: Ctl, gone: set<string>, x: string)
    ensures Dropped(Dropped(c, gone), {x}) == Dropped(c, gone + {x})
  {
    assert c.lastSeen - gone - {x} == c.lastSeen - (gone + {x}) && c.affinity - gone - {x} == c.affinity - (gone + {x});
  }

  lemma DroppedKeeps(c: Ctl, gone: set<string>, x: string, now: Time)
    requires x in c.lastSeen && x !in gone
    ensures var d := Dropped(c, gone); x in d.lastSeen && (now - d.lastSeen[x] > IDLE_TTL <==> Idle(c, now, x))
  {
  }

  lemma PrunedIs(c: Ctl, now: Time, gone: set<string>)
    requires forall x :: x in gone <==> x in c.lastSeen && Idle(c, now, x)
    ensures PruneIdle(c, now) == Dropped(c, gone)
  {
    var d := PruneIdle(c, now);
    assert d.lastSeen == c.lastSeen - gone;
    assert c.concurrency > 1 ==> d.affinity == c.affinity - gone;
  }

  lemma LiveParksAre(parks: map<string, Park>, kept: map<string, Park>, now: Time)
    requires forall n :: n in kept <==> n in parks && now < parks[n].reset
    requires forall n :: n in kept ==> kept[n] == parks[n]
    ensures kept == LiveParks(parks, now)
  {
  }

  lemma AvailableStep(c: Ctl, w: World, i: nat)
    requires i < |c.order|
    ensures AvailableOf(c, w, c.order[i..])
         == (if Available(c, w, c.order[i]) then [c.order[i]] else []) + AvailableOf(c, w, c.order[i + 1..])
  {
    hide Unavailable;
    assert c.order[i..][1..] == c.order[i + 1..];
  }

  lemma NoneAvailable(c: Ctl, w: World)
    ensures AvailableOf(c, w, c.order[|c.order|..]) == []
  {
  }

  lemma WindowIsPrefix(c: Ctl, w: World, window: seq<string>, rest: seq<string>)
    requires c.concurrency > 0 && AvailableOf(c, w, c.order) == window + rest
    requires |window| == Min(c.concurrency, |c.order|) || (rest == [] && |window| <= c.concurrency)
    ensures window == WindowOf(c, w)
  {
    hide Unavailable, AvailableOf;
  }

  lemma WrapIsMod(i: nat, n: nat)
    requires i < 2 * n
    ensures i % n == Wrap(i, n)
  {
    if i >= n { assert (i - n) % n == i - n; }
  }

  /** Selection reads the pointer only as the fallback of a pool with nobody exhausted. */
  lemma PointerOnly(c: Ctl, d: Ctl, w: World)
    requires d == c.(cur := d.cur)
    ensures FirstHealthy(d, w, c.order) == FirstHealthy(c, w, c.order) && AuthOnly(d, w) == AuthOnly(c, w)
    ensures FirstUnparked(d, w.now, c.order) == FirstUnparked(c, w.now, c.order)
    ensures Soonest(d, w, c.members) == Soonest(c, w, c.members)
    ensures forall n :: Unavailable(d, w, n) == Unavailable(c, w, n)
  {
    hide FirstHealthy, AuthOnly, FirstUnparked, Soonest, Unavailable;
    SameSelection(c, d, w);
  }

  lemma WorkersOnly(c: Ctl, d: Ctl, w: World)
    requires d == c.(affinity := d.affinity, lastSeen := d.lastSeen, cursor := d.cursor)
    ensures AuthOnly(d, w) == AuthOnly(c, w) && DryAnswer(d, w) == DryAnswer(c, w) && NoWindow(d, w) == NoWindow(c, w)
  {
    hide AuthOnly, Soonest, FirstHealthy, FirstUnparked;
    SameSelection(c, d, w);
  }

  lemma SameSelection(c: Ctl, d: Ctl, w: World)
    requires d == c.(cur := d.cur, affinity := d.affinity, lastSeen := d.lastSeen, cursor := d.cursor)
    ensures FirstHealthy(d, w, c.order) == FirstHealthy(c, w, c.order) && AuthOnly(d, w) == AuthOnly(c, w)
    ensures FirstUnparked(d, w.now, c.order) == FirstUnparked(c, w.now, c.order)
    ensures Soonest(d, w, c.members) == Soonest(c, w, c.members)
    ensures forall n :: Unavailable(d, w, n) == Unavailable(c, w, n)
  {
    hide FirstHealthy, AuthOnly, FirstUnparked, Soonest, Find;
    forall n ensures Unavailable(d, w, n) == Unavailable(c, w, n) && ExhaustedUntil(d, w, n) == ExhaustedUntil(c, w, n)
                     && AuthParked(d, w, n) == AuthParked(c, w, n) && LiveRecorded(d, w.now, n) == LiveRecorded(c, w.now, n) {
      SameSignals(c, d, w, n);
    }
    EqualFirsts(c, d, w, c.order);
    EqualAuth(c, d, w);
    EqualSoonest(c, d, w, c.members);
  }

  lemma SameSignals(c: Ctl, d: Ctl, w: World, n: string)
    requires d == c.(cur := d.cur, affinity := d.affinity, lastSeen := d.lastSeen, cursor := d.cursor)
    ensures Unavailable(d, w, n) == Unavailable(c, w, n) && ExhaustedUntil(d, w, n) == ExhaustedUntil(c, w, n)
    ensures AuthParked(d, w, n) == AuthParked(c, w, n) && LiveRecorded(d, w.now, n) == LiveRecorded(c, w.now, n)
  {
    assert Reconciling(d, w, n) == Reconciling(c, w, n) && StoreBound(d, w, n) == StoreBound(c, w, n);
    assert ExhaustedBound(d, w, n) == ExhaustedBound(c, w, n) && ParkBound(d, w, n) == ParkBound(c, w, n);
  }

  lemma {:induction false} EqualFirsts(c: Ctl, d: Ctl, w: World, order: seq<string>)
    requires d.disabled == c.disabled
    requires forall n :: Unavailable(d, w, n) == Unavailable(c, w, n) && LiveRecorded(d, w.now, n) == LiveRecorded(c, w.now, n)
    ensures FirstHealthy(d, w, order) == FirstHealthy(c, w, order)
    ensures FirstUnparked(d, w.now, order) == FirstUnparked(c, w.now, order)
    ensures FirstEnabled(d, order) == FirstEnabled(c, order)
  {
    hide Unavailable, LiveRecorded;
    if order != [] { EqualFirsts(c, d, w, order[1..]); }
  }

  lemma EqualAuth(c: Ctl, d: Ctl, w: World)
    requires d.order == c.order && d.disabled == c.disabled && forall n :: AuthParked(d, w, n) == AuthParked(c, w, n)
    requires FirstEnabled(d, c.order) == FirstEnabled(c, c.order)
    ensures AuthOnly(d, w) == AuthOnly(c, w)
  {
    hide AuthParked;
  }

  lemma {:induction false} EqualSoonest(c: Ctl, d: Ctl, w: World, ms: seq<Member>)
    requires d.disabled == c.disabled && forall n :: ExhaustedUntil(d, w, n) == ExhaustedUntil(c, w, n)
    ensures Soonest(d, w, ms) == Soonest(c, w, ms)
  {
    hide ExhaustedUntil;
    if ms != [] { EqualSoonest(c, d, w, ms[..|ms| - 1]); }
  }
}
