/**
 Parks of one nick shared by several pools. Every failure writes its own pool and then
 visits the siblings, one controller lock at a time, while others do the same: a
 protocol over steps, in any interleaving.
 */
module Propagation {
  import opened Common
  import opened Quota
  import opened Availability
  import opened Routing
  import opened Parks

  /** A failure on its way: `route[0]` is the pool that saw it, the rest its siblings; `next` is where it is. */
  datatype Task = Task(entry: Park, route: seq<string>, next: nat, holding: bool)

  datatype Net = Net(pools: map<string, Ctl>, tasks: seq<Task>)

  /** `Acquire` takes the lock of the next pool on the route; `Write` runs the locked body there and releases it. */
  datatype Step =
    | Begin(entry: Park, route: seq<string>)
    | Acquire(task: nat)
    | Write(task: nat, w: World)
    | Serve(pool: string, w: World)

  predicate Done(t: Task) { t.next == |t.route| }

  predicate Visited(t: Task, p: string)
    requires t.next <= |t.route|
  {
    p in t.route[..t.next]
  }

  predicate Holds(t: Task, p: string) { t.holding && t.next < |t.route| && t.route[t.next] == p }

  ghost predicate Locked(net: Net, p: string) { exists t :: t in net.tasks && Holds(t, p) }

  ghost predicate GoodTask(t: Task, pools: set<string>) {
    && t.route != [] && Distinct(t.route) && t.next <= |t.route| && (t.holding ==> t.next < |t.route|)
    && forall p :: p in t.route ==> p in pools
  }

  ghost predicate Able(net: Net, s: Step) {
    match s
    case Begin(entry, route) => GoodTask(Task(entry, route, 0, false), net.pools.Keys)
    case Acquire(i) =>
      i < |net.tasks| && !net.tasks[i].holding && net.tasks[i].next < |net.tasks[i].route|
      && !Locked(net, net.tasks[i].route[net.tasks[i].next])
    case Write(i, w) => i < |net.tasks| && net.tasks[i].holding && net.tasks[i].next < |net.tasks[i].route|
                        && net.tasks[i].route[net.tasks[i].next] in net.pools
    case Serve(p, w) => p in net.pools && !Locked(net, p)
  }

  /** The locked body: the origin records the failure, a sibling takes the mirrored entry. */
  function Body(c: Ctl, w: World, nick: string, t: Task): Ctl {
    if t.next == 0 then Record429(c, w, nick, true, t.entry).0 else Deliver(c, nick, t.entry)
  }

  ghost function Apply(net: Net, s: Step, nick: string): Net
    requires Able(net, s)
  {
    match s
    case Begin(entry, route) => net.(tasks := net.tasks + [Task(entry, route, 0, false)])
    case Acquire(i) => net.(tasks := net.tasks[i := net.tasks[i].(holding := true)])
    case Write(i, w) =>
      var t := net.tasks[i];
      var p := t.route[t.next];
      Net(net.pools[p := Body(net.pools[p], w, nick, t)], net.tasks[i := t.(next := t.next + 1, holding := false)])
    case Serve(p, w) => net.(pools := net.pools[p := ResolveAuto(net.pools[p], w).0])
  }

  function Parked(net: Net, p: string, nick: string): Option<Park> {
    if p in net.pools then ParkOf(net.pools[p], nick) else None
  }

  /** Nothing recorded or under way for the nick has lapsed at `now`. */
  ghost predicate Unelapsed(net: Net, nick: string, now: Time) {
    && (forall p :: p in net.pools && nick in net.pools[p].parks ==> now < net.pools[p].parks[nick].reset)
    && (forall t :: t in net.tasks ==> now < t.entry.reset)
  }

  ghost predicate InTime(net: Net, s: Step, nick: string) {
    match s
    case Write(_, w) => Unelapsed(net, nick, w.now)
    case Serve(_, w) => Unelapsed(net, nick, w.now)
    case _ => true
  }

  /** A run of the protocol. */
  ghost predicate Runs(net: Net, ss: seq<Step>, nick: string)
    decreases |ss|
  {
    ss == [] || (Able(net, ss[0]) && Runs(Apply(net, ss[0], nick), ss[1..], nick))
  }

  ghost predicate NothingLapses(net: Net, ss: seq<Step>, nick: string)
    requires Runs(net, ss, nick)
    decreases |ss|
  {
    ss == [] || (InTime(net, ss[0], nick) && NothingLapses(Apply(net, ss[0], nick), ss[1..], nick))
  }

  /** A run during which no park of the nick lapses. */
  ghost predicate Legal(net: Net, ss: seq<Step>, nick: string) { Runs(net, ss, nick) && NothingLapses(net, ss, nick) }

  ghost function Exec(net: Net, ss: seq<Step>, nick: string): Net
    requires Runs(net, ss, nick)
    decreases |ss|
  {
    if ss == [] then net else Exec(Apply(net, ss[0], nick), ss[1..], nick)
  }

  // --------------------------------------------------------------- the locks

  /** Every lock has one holder at most. A task holds one lock at most: the one of the pool it is at. */
  ghost predicate GoodNet(net: Net) {
    && (forall t :: t in net.tasks ==> GoodTask(t, net.pools.Keys))
    && forall i, j :: 0 <= i < j < |net.tasks| && net.tasks[i].holding && net.tasks[j].holding ==>
         At(net.tasks[i]) != At(net.tasks[j])
  }

  function At(t: Task): Option<string> { if t.next < |t.route| then Some(t.route[t.next]) else None }

  lemma GoodStep(net: Net, s: Step, nick: string)
    requires GoodNet(net) && Able(net, s)
    ensures GoodNet(Apply(net, s, nick))
  {
    hide Body, Distinct, ResolveAuto;
    var after := Apply(net, s, nick);
    forall t | t in after.tasks ensures GoodTask(t, after.pools.Keys) {
      match s
      case Begin(entry, route) => assert t in net.tasks || t == Task(entry, route, 0, false);
      case Acquire(i) => assert net.tasks[i] in net.tasks; assert t in net.tasks || t == after.tasks[i];
      case Write(i, w) =>
        assert net.tasks[i] in net.tasks;
        assert after.pools.Keys == net.pools.Keys;
        assert t in net.tasks || t == after.tasks[i];
      case Serve(p, w) => assert after.pools.Keys == net.pools.Keys;
    }
    if s.Acquire? {
      forall j | 0 <= j < |net.tasks| && j != s.task && net.tasks[j].holding
        ensures At(net.tasks[j]) != At(net.tasks[s.task])
      {
        assert net.tasks[j] in net.tasks;
        assert !Holds(net.tasks[j], net.tasks[s.task].route[net.tasks[s.task].next]);
      }
    }
  }

  /** Steps a task still has to take. */
  function Left(t: Task): int { 2 * (|t.route| - t.next) - (if t.holding then 1 else 0) }

  function Remaining(ts: seq<Task>): int {
    if ts == [] then 0 else Left(ts[0]) + Remaining(ts[1..])
  }

  lemma {:induction false} RemainingUpdate(ts: seq<Task>, i: nat, t: Task)
    requires i < |ts|
    ensures Remaining(ts[i := t]) == Remaining(ts) - Left(ts[i]) + Left(t)
  {
    if i == 0 {
      assert ts[0 := t][1..] == ts[1..];
    } else {
      assert ts[i := t][1..] == ts[1..][i - 1 := t];
      RemainingUpdate(ts[1..], i - 1, t);
    }
  }

  lemma {:induction false} RemainingZero(ts: seq<Task>)
    requires forall t :: t in ts ==> t.next <= |t.route| && (t.holding ==> t.next < |t.route|)
    ensures Remaining(ts) >= 0 && (Remaining(ts) == 0 <==> forall t :: t in ts ==> Done(t))
  {
    if ts != [] {
      assert ts == [ts[0]] + ts[1..];
      assert forall t :: t in ts <==> t == ts[0] || t in ts[1..];
      RemainingZero(ts[1..]);
      assert ts[0] in ts;
      assert Left(ts[0]) >= 0 && (Left(ts[0]) == 0 <==> Done(ts[0]));
    }
  }

  predicate Advances(s: Step) { s.Acquire? || s.Write? }

  /** No deadlock: while a task is unfinished some task can advance, and each advance brings the end one step closer. */
  lemma Progress(net: Net, w: World, nick: string) returns (s: Step)
    requires GoodNet(net) && exists t :: t in net.tasks && !Done(t)
    ensures Advances(s) && Able(net, s) && GoodNet(Apply(net, s, nick)) && (s.Write? ==> s.w == w)
    ensures Remaining(Apply(net, s, nick).tasks) == Remaining(net.tasks) - 1
  {
    hide Body, Remaining;
    if i :| 0 <= i < |net.tasks| && net.tasks[i].holding {
      assert net.tasks[i] in net.tasks;
      s := Write(i, w);
      RemainingUpdate(net.tasks, i, Apply(net, s, nick).tasks[i]);
    } else {
      var t :| t in net.tasks && !Done(t);
      var i :| 0 <= i < |net.tasks| && net.tasks[i] == t;
      s := Acquire(i);
      RemainingUpdate(net.tasks, i, Apply(net, s, nick).tasks[i]);
    }
    GoodStep(net, s, nick);
  }

  // ------------------------------------------------------ one pool's park

  predicate WritesAt(net: Net, s: Step, p: string) {
    s.Write? && s.task < |net.tasks| && At(net.tasks[s.task]) == Some(p)
  }

  lemma BodyParked(c: Ctl, w: World, nick: string, t: Task)
    requires w.now < t.entry.reset && (nick in c.parks ==> w.now < c.parks[nick].reset)
    ensures var d := Body(c, w, nick, t);
      nick in d.parks && d.parks[nick] == (if t.next == 0 then t.entry
                                           else Raise(ParkOf(c, nick), t.entry))
  {
    hide Record429;
    if t.next == 0 { RecordFields(c, w, nick, true, t.entry); }
  }

  /** Only the write of a task at `p` moves the park of `p`. */
  lemma StepParked(net: Net, s: Step, nick: string, p: string)
    requires Able(net, s) && InTime(net, s, nick) && p in net.pools
    ensures Parked(Apply(net, s, nick), p, nick)
         == if !WritesAt(net, s, p) then Parked(net, p, nick)
            else if net.tasks[s.task].next == 0 then Some(net.tasks[s.task].entry)
            else Some(Raise(Parked(net, p, nick), net.tasks[s.task].entry))
  {
    hide Record429, ResolveAuto, Body, Raise;
    if s.Write? {
      var t := net.tasks[s.task];
      assert t in net.tasks;
      if WritesAt(net, s, p) { BodyParked(net.pools[p], s.w, nick, t); }
    }
    if s.Serve? && s.pool == p { AutoFields(net.pools[p], s.w); }
  }

  lemma UnelapsedStep(net: Net, s: Step, nick: string, now: Time)
    requires Able(net, s) && InTime(net, s, nick) && Unelapsed(net, nick, now) && Advances(s)
    ensures Unelapsed(Apply(net, s, nick), nick, now)
  {
    hide Record429, ResolveAuto, Body;
    var after := Apply(net, s, nick);
    assert after.pools.Keys == net.pools.Keys;
    assert net.tasks[s.task] in net.tasks;
    forall p | p in after.pools && nick in after.pools[p].parks ensures now < after.pools[p].parks[nick].reset {
      StepParked(net, s, nick, p);
      assert Parked(after, p, nick) == Some(after.pools[p].parks[nick]);
    }
    forall t | t in after.tasks ensures now < t.entry.reset {
      assert t in net.tasks || t == after.tasks[s.task];
    }
  }

  /** Once failures stop, a number of advances known in advance finishes every task. */
  lemma {:induction false} Completes(net: Net, w: World, nick: string) returns (ss: seq<Step>)
    requires GoodNet(net) && Unelapsed(net, nick, w.now)
    ensures |ss| == Remaining(net.tasks) && Legal(net, ss, nick)
    ensures forall t :: t in Exec(net, ss, nick).tasks ==> Done(t)
    decreases Remaining(net.tasks)
  {
    hide Apply, Remaining, Unelapsed;
    assert forall t :: t in net.tasks ==> GoodTask(t, net.pools.Keys);
    RemainingZero(net.tasks);
    if Remaining(net.tasks) == 0 {
      ss := [];
    } else {
      var s := Progress(net, w, nick);
      assert InTime(net, s, nick);
      UnelapsedStep(net, s, nick, w.now);
      var rest := Completes(Apply(net, s, nick), w, nick);
      ss := [s] + rest;
      assert ss[1..] == rest;
    }
  }

  // ------------------------------------------------------ the join of parks

  ghost function Entries(ts: seq<Task>, p: string): set<Park> {
    set t | t in ts && t.next <= |t.route| && Visited(t, p) :: t.entry
  }

  function ParkReset(park: Option<Park>): Option<Time> { if park.Some? then Some(park.value.reset) else None }

  /** `r` is the latest of `init` and the resets of `es`. */
  ghost predicate IsJoin(r: Option<Time>, init: Option<Time>, es: set<Park>) {
    && (r.None? ==> init.None? && es == {})
    && (r.Some? ==> r == init || exists e :: e in es && r == Some(e.reset))
    && (init.Some? ==> r.Some? && init.value <= r.value)
    && (forall e :: e in es ==> r.Some? && e.reset <= r.value)
  }

  /** The class (and, for the kept park, a `since` that only moves later) comes from whoever set the reset first. */
  ghost predicate ClassKept(was: Option<Park>, now: Option<Park>) {
    was.Some? && now.Some? && was.value.reset == now.value.reset ==>
      && was.value.windowFact == now.value.windowFact && was.value.authRejected == now.value.authRejected
      && (was.value.since.Some? ==> now.value.since.Some? && was.value.since.value <= now.value.since.value)
  }

  lemma RaiseJoins(was: Option<Park>, entry: Park, init: Option<Park>, es: set<Park>)
    requires IsJoin(ParkReset(was), ParkReset(init), es) && ClassKept(init, was)
    ensures IsJoin(ParkReset(Some(Raise(was, entry))), ParkReset(init), es + {entry})
    ensures ClassKept(init, Some(Raise(was, entry))) && ClassKept(was, Some(Raise(was, entry)))
    ensures was.Some? ==> was.value.reset <= Raise(was, entry).reset
  {
    var r := Raise(was, entry).reset;
    if was.None? || was.value.reset < entry.reset {
      assert entry in es + {entry} && r == entry.reset;
    } else if Some(r) != ParkReset(init) {
      var e :| e in es && Some(r) == Some(e.reset);
      assert e in es + {entry};
    }
  }

  /** A delivery never shortens a sibling's park, and keeps its class unless it lengthens it. */
  lemma DeliveryNeverShortens(net: Net, s: Step, nick: string, p: string)
    requires Able(net, s) && InTime(net, s, nick) && Parked(net, p, nick).Some?
    requires !(WritesAt(net, s, p) && net.tasks[s.task].next == 0)
    ensures var was, now := Parked(net, p, nick), Parked(Apply(net, s, nick), p, nick);
      now.Some? && was.value.reset <= now.value.reset && ClassKept(was, now)
  {
    hide Apply;
    StepParked(net, s, nick, p);
  }

  /** The origin's own write is unconditional: here it cuts an hour's park to a minute. */
  lemma LocalWriteMayShorten(c: Ctl, w: World, nick: string) returns (net: Net, s: Step)
    requires nick in c.parks && c.parks[nick].reset == w.now + HOUR
    ensures Able(net, s) && InTime(net, s, nick) && "a" in net.pools && net.pools["a"] == c
    ensures Parked(Apply(net, s, nick), "a", nick) == Some(Park(w.now + MINUTE, true, false, None))
  {
    hide Record429;
    net := Net(map["a" := c], [Task(Park(w.now + MINUTE, true, false, None), ["a"], 0, true)]);
    s := Write(0, w);
    StepParked(net, s, nick, "a");
  }

  ghost predicate NotOrigin(ss: seq<Step>, p: string) {
    forall s :: s in ss && s.Begin? ==> s.route != [] ==> s.route[0] != p
  }

  ghost predicate Sibling(net: Net, p: string) { forall t :: t in net.tasks ==> t.route != [] && t.route[0] != p }

  ghost predicate JoinedSoFar(net: Net, nick: string, p: string, init: Option<Park>) {
    && IsJoin(ParkReset(Parked(net, p, nick)), ParkReset(init), Entries(net.tasks, p))
    && ClassKept(init, Parked(net, p, nick))
  }

  /** A step lets task `i` have visited `p` exactly if it had, or writes there now. */
  lemma VisitedStep(net: Net, s: Step, nick: string, p: string, i: nat)
    requires GoodNet(net) && Able(net, s) && i < |net.tasks|
    ensures var t, u := net.tasks[i], Apply(net, s, nick).tasks[i];
      && u.entry == t.entry && t.next <= |t.route| && u.next <= |u.route|
      && (Visited(u, p) <==> Visited(t, p) || (WritesAt(net, s, p) && i == s.task))
  {
    hide Body, ResolveAuto, Distinct;
    var t, u := net.tasks[i], Apply(net, s, nick).tasks[i];
    assert t in net.tasks;
    if s.Write? && s.task == i {
      assert u.route[..u.next] == t.route[..t.next] + [t.route[t.next]];
    }
  }

  lemma EntriesStep(net: Net, s: Step, nick: string, p: string)
    requires GoodNet(net) && Able(net, s)
    ensures var es, after := Entries(net.tasks, p), Entries(Apply(net, s, nick).tasks, p);
      after == if WritesAt(net, s, p) then es + {net.tasks[s.task].entry} else es
  {
    hide Body, ResolveAuto, Distinct, GoodNet, Visited;
    var ts, us := net.tasks, Apply(net, s, nick).tasks;
    forall i | 0 <= i < |ts|
      ensures us[i].entry == ts[i].entry && ts[i].next <= |ts[i].route| && us[i].next <= |us[i].route|
      ensures Visited(us[i], p) <==> Visited(ts[i], p) || (WritesAt(net, s, p) && i == s.task)
    {
      VisitedStep(net, s, nick, p, i);
    }
    forall e | e in Entries(ts, p) ensures e in Entries(us, p) {
      var i :| 0 <= i < |ts| && ts[i].entry == e && ts[i].next <= |ts[i].route| && Visited(ts[i], p);
      assert us[i] in us;
    }
    if WritesAt(net, s, p) { assert us[s.task] in us; }
    forall e | e in Entries(us, p) ensures e in Entries(ts, p) || (WritesAt(net, s, p) && e == ts[s.task].entry) {
      var i :| 0 <= i < |us| && us[i].entry == e && us[i].next <= |us[i].route| && Visited(us[i], p);
      if i < |ts| { assert ts[i] in ts; } else { NewUnvisited(us[i], p); }
    }
  }

  lemma NewUnvisited(t: Task, p: string)
    requires t.next == 0
    ensures !Visited(t, p)
  {
  }

  lemma JoinStep(net: Net, s: Step, nick: string, p: string, init: Option<Park>)
    requires GoodNet(net) && Able(net, s) && InTime(net, s, nick) && p in net.pools && Sibling(net, p)
    requires JoinedSoFar(net, nick, p, init)
    ensures JoinedSoFar(Apply(net, s, nick), nick, p, init)
  {
    hide Apply, IsJoin, ClassKept, GoodNet, Raise;
    StepParked(net, s, nick, p);
    EntriesStep(net, s, nick, p);
    if WritesAt(net, s, p) {
      assert net.tasks[s.task] in net.tasks;
      RaiseJoins(Parked(net, p, nick), net.tasks[s.task].entry, init, Entries(net.tasks, p));
    }
  }

  lemma SiblingStep(net: Net, s: Step, nick: string, p: string)
    requires Able(net, s) && Sibling(net, p) && p in net.pools && NotOrigin([s], p)
    ensures Sibling(Apply(net, s, nick), p) && p in Apply(net, s, nick).pools
  {
    hide Body, ResolveAuto;
    assert s in [s];
    var us := Apply(net, s, nick).tasks;
    forall t | t in us ensures t.route != [] && t.route[0] != p {
      if s.Acquire? || s.Write? { assert net.tasks[s.task] in net.tasks; assert t in net.tasks || t == us[s.task]; }
      if s.Begin? { assert t in net.tasks || t == Task(s.entry, s.route, 0, false); }
    }
  }

  lemma {:induction false} RunJoins(net: Net, ss: seq<Step>, nick: string, p: string, init: Option<Park>)
    requires GoodNet(net) && Legal(net, ss, nick) && p in net.pools && Sibling(net, p) && NotOrigin(ss, p)
    requires JoinedSoFar(net, nick, p, init)
    ensures var end := Exec(net, ss, nick); JoinedSoFar(end, nick, p, init) && GoodNet(end)
    decreases |ss|
  {
    hide Apply, JoinedSoFar, Sibling, GoodNet;
    if ss != [] {
      assert forall s :: s in ss[1..] ==> s in ss;
      SiblingStep(net, ss[0], nick, p);
      GoodStep(net, ss[0], nick);
      JoinStep(net, ss[0], nick, p, init);
      RunJoins(Apply(net, ss[0], nick), ss[1..], nick, p, init);
    }
  }

  ghost function Asserted(net: Net): set<Park> { set t | t in net.tasks :: t.entry }

  ghost predicate Settled(net: Net, p: string) { forall t :: t in net.tasks ==> Done(t) && p in t.route }

  /**
   In any interleaving of concurrent parks of a nick, a pool that asserted none itself ends
   with the latest of its initial and all asserted resets, its class kept on a tie.
   */
  lemma PropagationJoins(net: Net, ss: seq<Step>, nick: string, p: string)
    requires net.tasks == [] && p in net.pools && Legal(net, ss, nick) && NotOrigin(ss, p)
    requires Settled(Exec(net, ss, nick), p)
    ensures var end := Exec(net, ss, nick);
      && IsJoin(ParkReset(Parked(end, p, nick)), ParkReset(Parked(net, p, nick)), Asserted(end))
      && ClassKept(Parked(net, p, nick), Parked(end, p, nick))
  {
    hide Runs, NothingLapses, Exec;
    RunJoins(net, ss, nick, p, Parked(net, p, nick));
    var end := Exec(net, ss, nick);
    forall t | t in end.tasks ensures t.next <= |t.route| && Visited(t, p) {
      assert t.route[..t.next] == t.route;
    }
    assert Entries(end.tasks, p) == Asserted(end);
  }

  /** So the resets do not depend on the interleaving: only on what was asserted. */
  lemma OrderDoesNotMatter(net: Net, ss: seq<Step>, rr: seq<Step>, nick: string, p: string)
    requires net.tasks == [] && p in net.pools
    requires Legal(net, ss, nick) && NotOrigin(ss, p) && Settled(Exec(net, ss, nick), p)
    requires Legal(net, rr, nick) && NotOrigin(rr, p) && Settled(Exec(net, rr, nick), p)
    requires Asserted(Exec(net, ss, nick)) == Asserted(Exec(net, rr, nick))
    ensures ParkReset(Parked(Exec(net, ss, nick), p, nick)) == ParkReset(Parked(Exec(net, rr, nick), p, nick))
  {
    hide Legal, Exec, NotOrigin, Settled, Asserted, Parked;
    PropagationJoins(net, ss, nick, p);
    PropagationJoins(net, rr, nick, p);
  }

  // --------------------------------------------- a park its own response cannot undo

  /** A park until `bound` at least that no store content as of `t` or earlier retires. */
  predicate Guards(p: Park, bound: Time, t: Time) {
    p.reset >= bound && (!p.windowFact || (p.since.Some? && t <= p.since.value))
  }

  lemma GuardedBlocks(c: Ctl, w: World, nick: string, bound: Time, t: Time)
    requires nick in c.parks && Guards(c.parks[nick], bound, t) && w.now < bound
    requires var asOf := Get(w, nick).asOf; asOf.Some? ==> asOf.value <= t
    ensures Unavailable(c, w, nick)
  {
  }

  /** A sibling's guard survives a delivery, except a longer one that the store may retire on what it knew at `t`. */
  lemma GuardKeptExactly(was: Park, entry: Park, bound: Time, t: Time)
    requires Guards(was, bound, t)
    ensures Guards(Raise(Some(was), entry), bound, t) <==>
      (entry.reset <= was.reset || !entry.windowFact || (entry.since.Some? && t <= entry.since.value))
  {
  }

  /**
   A guard reaching a sibling guards there, except that a longer, retirable entry the
   sibling already has is kept and takes over no more than the newcomer's `since`.
   */
  lemma GuardTakenExactly(was: Option<Park>, entry: Park, bound: Time, t: Time)
    requires Guards(entry, bound, t)
    ensures Guards(Raise(was, entry), bound, t) <==>
      (was.None? || was.value.reset < entry.reset || Guards(was.value, bound, t) || Imposes(entry, bound, t))
  {
  }

  /** A park that guards wherever it is delivered. */
  predicate Imposes(p: Park, bound: Time, t: Time) { p.reset >= bound && p.since.Some? && t <= p.since.value }

  /** Failures that leave a guard at `p` standing: guards themselves, or a sibling's failure of a shorter bound. */
  ghost predicate Leaves(entry: Park, route: seq<string>, p: string, bound: Time, t: Time) {
    Guards(entry, bound, t) || (entry.reset <= bound && route != [] && route[0] != p)
  }

  ghost predicate Stands(net: Net, p: string, nick: string, bound: Time, t: Time) {
    Parked(net, p, nick).Some? && Guards(Parked(net, p, nick).value, bound, t)
  }

  ghost predicate Guarded(net: Net, nick: string, p: string, bound: Time, t: Time) {
    forall k :: k in net.tasks ==>
      && Leaves(k.entry, k.route, p, bound, t)
      && (Imposes(k.entry, bound, t) && k.next <= |k.route| && Visited(k, p) ==> Stands(net, p, nick, bound, t))
  }

  /** The clock a step reads, if it reads one, has not come to `bound`. */
  predicate Before(s: Step, bound: Time) { s.Write? || s.Serve? ==> s.w.now < bound }

  /** Before the bound a step takes no guard away, lapsed entries and sweeps or not, and an imposing write sets one. */
  lemma StandsStep(net: Net, s: Step, nick: string, p: string, bound: Time, t: Time)
    requires Able(net, s) && Before(s, bound) && p in net.pools
    requires WritesAt(net, s, p) ==> Leaves(net.tasks[s.task].entry, net.tasks[s.task].route, p, bound, t)
    ensures var after := Apply(net, s, nick);
      Stands(net, p, nick, bound, t) || (WritesAt(net, s, p) && Imposes(net.tasks[s.task].entry, bound, t)) ==>
        Stands(after, p, nick, bound, t)
  {
    hide Record429, ResolveAuto, Raise;
    if WritesAt(net, s, p) {
      var u, c := net.tasks[s.task], net.pools[p];
      if u.next == 0 {
        RecordFields(c, s.w, nick, true, u.entry);
      } else {
        WriteLeaves(Parked(net, p, nick), u.entry, bound, t);
      }
    }
    if s.Serve? && s.pool == p { AutoFields(net.pools[p], s.w); }
  }

  lemma GuardedStep(net: Net, s: Step, nick: string, p: string, bound: Time, t: Time)
    requires GoodNet(net) && Able(net, s) && Before(s, bound) && p in net.pools
    requires Guarded(net, nick, p, bound, t) && (s.Begin? ==> Leaves(s.entry, s.route, p, bound, t))
    ensures Guarded(Apply(net, s, nick), nick, p, bound, t)
  {
    hide Body, ResolveAuto, Distinct, Leaves, Imposes, Stands;
    var after := Apply(net, s, nick);
    if WritesAt(net, s, p) { assert net.tasks[s.task] in net.tasks; }
    StandsStep(net, s, nick, p, bound, t);
    forall k | k in after.tasks
      ensures Leaves(k.entry, k.route, p, bound, t)
      ensures Imposes(k.entry, bound, t) && k.next <= |k.route| && Visited(k, p) ==> Stands(after, p, nick, bound, t)
    {
      if k !in net.tasks && (s.Acquire? || s.Write?) {
        assert k == after.tasks[s.task];
        var u := net.tasks[s.task];
        assert u in net.tasks;
        if Visited(k, p) && !WritesAt(net, s, p) {
          var j :| 0 <= j < k.next && k.route[j] == p;
          assert j < u.next && u.route[..u.next][j] == p;
        }
      }
    }
  }

  lemma WriteLeaves(was: Option<Park>, entry: Park, bound: Time, t: Time)
    requires Guards(entry, bound, t) || entry.reset <= bound
    ensures Imposes(entry, bound, t) || (was.Some? && Guards(was.value, bound, t)) ==> Guards(Raise(was, entry), bound, t)
    ensures Imposes(entry, bound, t) ==> Guards(entry, bound, t)
  {
  }

  lemma {:induction false} RunGuarded(net: Net, ss: seq<Step>, nick: string, p: string, bound: Time, t: Time)
    requires GoodNet(net) && Runs(net, ss, nick) && p in net.pools && Guarded(net, nick, p, bound, t)
    requires forall s :: s in ss ==> Before(s, bound) && (s.Begin? ==> Leaves(s.entry, s.route, p, bound, t))
    ensures Guarded(Exec(net, ss, nick), nick, p, bound, t)
    decreases |ss|
  {
    hide Guarded, GoodNet, Leaves, Body, ResolveAuto;
    if ss != [] {
      assert forall s :: s in ss[1..] ==> s in ss;
      assert ss[0] in ss;
      GoodStep(net, ss[0], nick);
      GuardedStep(net, ss[0], nick, p, bound, t);
      assert p in Apply(net, ss[0], nick).pools;
      RunGuarded(Apply(net, ss[0], nick), ss[1..], nick, p, bound, t);
    }
  }

  /** The park of a z.ai 429 while the poller is stale. */
  function StalePark(t: Time): Park { Park(t + DEFAULT_WINDOW, true, false, Some(t)) }

  /**
   Once the z.ai park recorded at `t` has reached a pool, origin or sibling, no store content
   as of `t` or earlier makes the member selectable there before the bound, older and
   longer entries included, whatever else was parked, lapsed or was swept meanwhile, as long
   as the other parks leave it standing.
   */
  lemma StaleParkHolds(net: Net, ss: seq<Step>, nick: string, p: string, t: Time, k: Task, w: World)
    requires net.tasks == [] && p in net.pools && Runs(net, ss, nick)
    requires forall s :: s in ss ==> Before(s, w.now + 1) && (s.Begin? ==> Leaves(s.entry, s.route, p, t + DEFAULT_WINDOW, t))
    requires k in Exec(net, ss, nick).tasks && k.entry == StalePark(t) && k.next <= |k.route| && Visited(k, p)
    requires w.now < t + DEFAULT_WINDOW
    requires var asOf := Get(w, nick).asOf; asOf.Some? ==> asOf.value <= t
    ensures var end := Exec(net, ss, nick); p in end.pools && Unavailable(end.pools[p], w, nick)
  {
    hide Runs, Exec, Unavailable, Leaves;
    RunGuarded(net, ss, nick, p, t + DEFAULT_WINDOW, t);
    var end := Exec(net, ss, nick);
    GuardedBlocks(end.pools[p], w, nick, t + DEFAULT_WINDOW, t);
  }

  /** Without that proviso it may lapse: a longer fallback park delivered later carries no `since`. */
  lemma StaleParkOvertaken(t: Time)
    ensures var later := Park(t + DEFAULT_WINDOW + MINUTE, true, false, None);
      !Guards(Raise(Some(StalePark(t)), later), t + DEFAULT_WINDOW, t)
  {
  }

  /** Nor does an auth rejection take hold where a longer quota park is: the store retires that one, and the member is back. */
  lemma AuthParkNotTaken(c: Ctl, nick: string, now: Time)
    requires Backend(c, nick).Some? && nick !in c.disabled && nick !in c.exhausted
    requires nick in c.parks && c.parks[nick] == Park(now + 2 * HOUR, true, false, None)
    ensures var rejection := Park(now + HOUR, false, true, None);
      var w := World(map[nick := EMPTY.(status := Some("allowed"), asOf := Some(now))], now, {});
      && Guards(rejection, now + HOUR, now) && !Guards(Raise(ParkOf(c, nick), rejection), now + HOUR, now)
      && Available(Deliver(c, nick, rejection), w, nick)
  {
  }
}
