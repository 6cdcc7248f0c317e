/**
 Probing parked members: automatic recovery passes and operator reprobes, in any
 interleaving. References on a quota key are conserved, and one query serves every
 concurrent reprobe of a key.
 */
module Reprobe {
  import opened Common
  import opened Quota
  import opened Availability
  import opened Routing
  import opened Parks
  import opened Mutations
  import P = Pools
  import C = Controller

  const COOLDOWN: Time := 30_000_000_000

  /** The bases of URLs that some provider can be queried at. */
  type Providers = set<string>

  /** Which parked members a recovery pass may probe now: `count` references are out on the key, `last` was the last attempt. */
  predicate Eligible(c: Ctl, n: string, skipActive: bool, count: int, last: Option<Time>, now: Time, known: Providers) {
    && n in c.exhausted && !(skipActive && n == c.cur) && n !in c.disabled
    && Backend(c, n).Some? && Backend(c, n).value.baseURL in known
    && count <= 0
    && !(last.Some? && now - last.value < COOLDOWN)
  }

  // ------------------------------------------------------------- the protocol

  /** A reference on a key in one pool. */
  datatype Ref = Ref(pool: string, key: string)

  /** A recovery pass: the keys it still has to see through, one query at a time. */
  datatype Pass = Pass(pool: string, targets: seq<string>)

  datatype Stage = Joining(left: seq<string>) | Ending(left: seq<string>) | Closed

  /** One query shared by every concurrent reprobe of a key; `holders` are the pools it took a reference in. */
  datatype Call = Call(key: string, stage: Stage, holders: seq<string>, result: Option<Snapshot>, queries: nat)

  /** A reprobe request: the call it leads or follows, and the answer it came back with. */
  datatype Request = Request(key: string, call: nat, answer: Option<Snapshot>)

  /**
   `open` is the table of calls to join; `last` is when a recovery pass last tried a key in a pool.
   `begun` and `ended` count every reference taken and released, ever.
   */
  datatype Sys = Sys(inFlight: multiset<Ref>, begun: multiset<Ref>, ended: multiset<Ref>, last: map<Ref, Time>,
                     passes: seq<Pass>, calls: seq<Call>, open: map<string, nat>, requests: seq<Request>)

  /** What a recovery pass reads under the pool's lock; everything but the references is free to have changed since the last look. */
  datatype Sight = Sight(c: Ctl, now: Time, skipActive: bool, known: Providers)

  datatype Step =
    | StartPass(pool: string, sight: Sight, targets: seq<string>)
    | EndTarget(pass: nat)
    | Ask(key: string, pools: seq<string>)
    | Join(call: nat, holds: bool)
    | Query(call: nat, result: Snapshot)
    | Release(call: nat)
    | Close(call: nat)
    | Answer(request: nat)
    | ClearOne(pool: string, nick: string)
    | ClearAll(pool: string)

  function RefsIn(pool: string, keys: seq<string>): multiset<Ref> {
    if keys == [] then multiset{} else multiset{Ref(pool, keys[0])} + RefsIn(pool, keys[1..])
  }

  function LastOf(s: Sys, r: Ref): Option<Time> { if r in s.last then Some(s.last[r]) else None }

  /** The locked half of `recoverParked` takes the key as a target. */
  predicate Probes(s: Sys, pool: string, v: Sight, key: string) {
    Eligible(v.c, key, v.skipActive, s.inFlight[Ref(pool, key)], LastOf(s, Ref(pool, key)), v.now, v.known)
  }

  ghost predicate Able(s: Sys, a: Step) {
    match a
    case StartPass(p, v, keys) => Distinct(keys) && forall k :: k in keys <==> Probes(s, p, v, k)
    case EndTarget(i) => i < |s.passes| && s.passes[i].targets != []
    case Ask(_, _) => true
    case Join(i, _) => i < |s.calls| && s.calls[i].stage.Joining? && s.calls[i].stage.left != []
    case Query(i, _) => i < |s.calls| && s.calls[i].stage == Joining([])
    case Release(i) => i < |s.calls| && s.calls[i].stage.Ending? && s.calls[i].stage.left != []
    case Close(i) => i < |s.calls| && s.calls[i].stage == Ending([])
    case Answer(i) => i < |s.requests| && s.requests[i].answer.None? && s.requests[i].call < |s.calls|
                      && s.calls[s.requests[i].call].stage.Closed?
    case ClearOne(_, _) => true
    case ClearAll(_) => true
  }

  function Take(s: Sys, refs: multiset<Ref>): Sys { s.(inFlight := s.inFlight + refs, begun := s.begun + refs) }

  function Give(s: Sys, r: Ref): Sys { s.(inFlight := s.inFlight - multiset{r}, ended := s.ended + multiset{r}) }

  /** The attempts of a pass are noted. */
  function Tried(last: map<Ref, Time>, pool: string, keys: seq<string>, now: Time): map<Ref, Time>
    decreases |keys|
  {
    if keys == [] then last else Tried(last[Ref(pool, keys[0]) := now], pool, keys[1..], now)
  }

  ghost function Next(s: Sys, a: Step): Sys
    requires Able(s, a)
  {
    match a
    case StartPass(p, v, keys) =>
      Take(s, RefsIn(p, keys)).(passes := s.passes + [Pass(p, keys)], last := Tried(s.last, p, keys, v.now))
    case EndTarget(i) =>
      var t := s.passes[i];
      Give(s, Ref(t.pool, t.targets[0])).(passes := s.passes[i := t.(targets := t.targets[1..])])
    case Ask(key, pools) =>
      if key in s.open then s.(requests := s.requests + [Request(key, s.open[key], None)])
      else s.(calls := s.calls + [Call(key, Joining(pools), [], None, 0)], open := s.open[key := |s.calls|],
              requests := s.requests + [Request(key, |s.calls|, None)])
    case Join(i, holds) =>
      var c := s.calls[i];
      var d := c.(stage := Joining(c.stage.left[1..]), holders := if holds then c.holders + [c.stage.left[0]] else c.holders);
      (if holds then Take(s, multiset{Ref(c.stage.left[0], c.key)}) else s).(calls := s.calls[i := d])
    case Query(i, result) =>
      var c := s.calls[i];
      s.(calls := s.calls[i := c.(stage := Ending(c.holders), result := Some(result), queries := c.queries + 1)])
    case Release(i) =>
      var c := s.calls[i];
      Give(s, Ref(c.stage.left[0], c.key)).(calls := s.calls[i := c.(stage := Ending(c.stage.left[1..]))])
    case Close(i) =>
      var c := s.calls[i];
      s.(calls := s.calls[i := c.(stage := Closed)], open := s.open - {c.key})
    case Answer(i) =>
      var q := s.requests[i];
      s.(requests := s.requests[i := q.(answer := s.calls[q.call].result)])
    case ClearOne(p, n) => s.(last := s.last - {Ref(p, n)})
    case ClearAll(p) => s.(last := map r | r in s.last && r.pool != p :: s.last[r])
  }

  ghost predicate Legal(s: Sys, steps: seq<Step>)
    decreases |steps|
  {
    steps == [] || (Able(s, steps[0]) && Legal(Next(s, steps[0]), steps[1..]))
  }

  ghost function Exec(s: Sys, steps: seq<Step>): Sys
    requires Legal(s, steps)
    decreases |steps|
  {
    if steps == [] then s else Exec(Next(s, steps[0]), steps[1..])
  }

  const START := Sys(multiset{}, multiset{}, multiset{}, map[], [], [], map[], [])

  // ------------------------------------------------- references are conserved

  /** What a call holds references in. */
  function HeldBy(c: Call): seq<string> {
    match c.stage
    case Joining(_) => c.holders
    case Ending(left) => left
    case Closed => []
  }

  function CallRefs(key: string, pools: seq<string>): multiset<Ref> {
    if pools == [] then multiset{} else multiset{Ref(pools[0], key)} + CallRefs(key, pools[1..])
  }

  function HeldByPasses(ps: seq<Pass>): multiset<Ref> {
    if ps == [] then multiset{} else RefsIn(ps[0].pool, ps[0].targets) + HeldByPasses(ps[1..])
  }

  function HeldByCalls(cs: seq<Call>): multiset<Ref> {
    if cs == [] then multiset{} else CallRefs(cs[0].key, HeldBy(cs[0])) + HeldByCalls(cs[1..])
  }

  /** The in-flight count is what is held by somebody, and what was begun less what was ended. */
  ghost predicate Conserved(s: Sys) {
    && s.inFlight == HeldByPasses(s.passes) + HeldByCalls(s.calls)
    && s.begun == s.inFlight + s.ended
  }

  lemma Regroup(h: multiset<Ref>, a: multiset<Ref>, x: multiset<Ref>, b: multiset<Ref>, y: multiset<Ref>)
    requires a + x == b + y
    ensures (h + a) + x == (h + b) + y
  {
    assert (h + a) + x == h + (a + x) == h + (b + y);
  }

  /** Taking one reference out of a holder takes it out of the whole. */
  lemma OneLess(after: multiset<Ref>, before: multiset<Ref>, r: Ref, rest: multiset<Ref>)
    requires after + (multiset{r} + rest) == before + rest
    ensures after + multiset{r} == before
  {
    forall x ensures (after + multiset{r})[x] == before[x] {
      assert (after + (multiset{r} + rest))[x] == (before + rest)[x];
    }
  }

  lemma {:induction false} PassUpdate(ps: seq<Pass>, i: nat, p: Pass)
    requires i < |ps|
    ensures HeldByPasses(ps[i := p]) + RefsIn(ps[i].pool, ps[i].targets) == HeldByPasses(ps) + RefsIn(p.pool, p.targets)
  {
    hide RefsIn;
    if i == 0 {
      assert ps[0 := p][1..] == ps[1..];
    } else {
      assert ps[i := p][1..] == ps[1..][i - 1 := p];
      PassUpdate(ps[1..], i - 1, p);
      Regroup(RefsIn(ps[0].pool, ps[0].targets), HeldByPasses(ps[1..][i - 1 := p]), RefsIn(ps[i].pool, ps[i].targets),
              HeldByPasses(ps[1..]), RefsIn(p.pool, p.targets));
    }
  }

  lemma {:induction false} PassAppend(ps: seq<Pass>, p: Pass)
    ensures HeldByPasses(ps + [p]) == HeldByPasses(ps) + RefsIn(p.pool, p.targets)
  {
    hide RefsIn;
    if ps != [] {
      assert (ps + [p])[1..] == ps[1..] + [p];
      PassAppend(ps[1..], p);
    } else {
      assert (ps + [p])[1..] == [];
    }
  }

  lemma {:induction false} CallUpdate(cs: seq<Call>, i: nat, c: Call)
    requires i < |cs|
    ensures HeldByCalls(cs[i := c]) + CallRefs(cs[i].key, HeldBy(cs[i])) == HeldByCalls(cs) + CallRefs(c.key, HeldBy(c))
  {
    hide CallRefs, HeldBy;
    if i == 0 {
      assert cs[0 := c][1..] == cs[1..];
    } else {
      assert cs[i := c][1..] == cs[1..][i - 1 := c];
      CallUpdate(cs[1..], i - 1, c);
      Regroup(CallRefs(cs[0].key, HeldBy(cs[0])), HeldByCalls(cs[1..][i - 1 := c]), CallRefs(cs[i].key, HeldBy(cs[i])),
              HeldByCalls(cs[1..]), CallRefs(c.key, HeldBy(c)));
    }
  }

  lemma {:induction false} CallAppend(cs: seq<Call>, c: Call)
    ensures HeldByCalls(cs + [c]) == HeldByCalls(cs) + CallRefs(c.key, HeldBy(c))
  {
    hide CallRefs, HeldBy;
    if cs != [] {
      assert (cs + [c])[1..] == cs[1..] + [c];
      CallAppend(cs[1..], c);
    } else {
      assert (cs + [c])[1..] == [];
    }
  }

  lemma {:induction false} RefAppend(key: string, pools: seq<string>, p: string)
    ensures CallRefs(key, pools + [p]) == CallRefs(key, pools) + multiset{Ref(p, key)}
  {
    if pools != [] {
      assert (pools + [p])[1..] == pools[1..] + [p];
      RefAppend(key, pools[1..], p);
    } else {
      assert (pools + [p])[1..] == [];
    }
  }

  lemma Cancel(after: multiset<Ref>, before: multiset<Ref>, rest: multiset<Ref>)
    requires after + rest == before + rest
    ensures after == before
  {
    forall x ensures after[x] == before[x] {
      assert (after + rest)[x] == (before + rest)[x];
    }
  }

  lemma OneMore(after: multiset<Ref>, before: multiset<Ref>, r: Ref, rest: multiset<Ref>)
    requires after + rest == before + (rest + multiset{r})
    ensures after == before + multiset{r}
  {
    forall x ensures after[x] == (before + multiset{r})[x] {
      assert (after + rest)[x] == (before + (rest + multiset{r}))[x];
    }
  }

  lemma ConservedStep(s: Sys, a: Step)
    requires Conserved(s) && Able(s, a)
    ensures Conserved(Next(s, a))
  {
    hide HeldByPasses, HeldByCalls, RefsIn, CallRefs;
    match a
    case StartPass(p, _, keys) => PassAppend(s.passes, Pass(p, keys));
    case EndTarget(i) => EndConserved(s, a);
    case Ask(key, pools) =>
      if key !in s.open {
        CallAppend(s.calls, Call(key, Joining(pools), [], None, 0));
        NoRefs(key);
      }
    case Join(i, holds) => JoinConserved(s, a);
    case Query(i, _) =>
      CallUpdate(s.calls, i, Next(s, a).calls[i]);
      Cancel(HeldByCalls(Next(s, a).calls), HeldByCalls(s.calls), CallRefs(s.calls[i].key, s.calls[i].holders));
    case Release(i) => ReleaseConserved(s, a);
    case Close(i) =>
      CallUpdate(s.calls, i, Next(s, a).calls[i]);
      Cancel(HeldByCalls(Next(s, a).calls), HeldByCalls(s.calls), CallRefs(s.calls[i].key, []));
    case _ =>
  }

  lemma EndConserved(s: Sys, a: Step)
    requires Conserved(s) && Able(s, a) && a.EndTarget?
    ensures Conserved(Next(s, a))
  {
    hide HeldByPasses, HeldByCalls, RefsIn;
    var t, p := Next(s, a), s.passes[a.pass];
    PassUpdate(s.passes, a.pass, t.passes[a.pass]);
    FirstRef(p.pool, p.targets);
    OneLess(HeldByPasses(t.passes), HeldByPasses(s.passes), Ref(p.pool, p.targets[0]), RefsIn(p.pool, p.targets[1..]));
  }

  lemma JoinConserved(s: Sys, a: Step)
    requires Conserved(s) && Able(s, a) && a.Join?
    ensures Conserved(Next(s, a))
  {
    hide HeldByPasses, HeldByCalls, CallRefs;
    var t, c := Next(s, a), s.calls[a.call];
    CallUpdate(s.calls, a.call, t.calls[a.call]);
    if a.holds {
      RefAppend(c.key, c.holders, c.stage.left[0]);
      OneMore(HeldByCalls(t.calls), HeldByCalls(s.calls), Ref(c.stage.left[0], c.key), CallRefs(c.key, c.holders));
    } else {
      Cancel(HeldByCalls(t.calls), HeldByCalls(s.calls), CallRefs(c.key, c.holders));
    }
  }

  lemma ReleaseConserved(s: Sys, a: Step)
    requires Conserved(s) && Able(s, a) && a.Release?
    ensures Conserved(Next(s, a))
  {
    hide HeldByPasses, HeldByCalls, CallRefs;
    var t, c := Next(s, a), s.calls[a.call];
    CallUpdate(s.calls, a.call, t.calls[a.call]);
    FirstHeld(c.key, c.stage.left);
    OneLess(HeldByCalls(t.calls), HeldByCalls(s.calls), Ref(c.stage.left[0], c.key), CallRefs(c.key, c.stage.left[1..]));
  }

  lemma FirstRef(pool: string, keys: seq<string>)
    requires keys != []
    ensures RefsIn(pool, keys) == multiset{Ref(pool, keys[0])} + RefsIn(pool, keys[1..])
  {
  }

  lemma FirstHeld(key: string, pools: seq<string>)
    requires pools != []
    ensures CallRefs(key, pools) == multiset{Ref(pools[0], key)} + CallRefs(key, pools[1..])
  {
  }

  lemma NoRefs(key: string)
    ensures CallRefs(key, []) == multiset{}
  {
  }

  /** In every interleaving each pool's count for a key is the probes begun there less those ended, none of them lost. */
  lemma {:induction false} ReferencesConserved(s: Sys, steps: seq<Step>)
    requires Conserved(s) && Legal(s, steps)
    ensures Conserved(Exec(s, steps))
    decreases |steps|
  {
    hide Conserved, Able, Next;
    if steps != [] {
      ConservedStep(s, steps[0]);
      ReferencesConserved(Next(s, steps[0]), steps[1..]);
    }
  }

  ghost predicate Idle(s: Sys) {
    (forall p :: p in s.passes ==> p.targets == []) && (forall c :: c in s.calls ==> c.stage.Closed?)
  }

  lemma {:induction false} IdlePasses(ps: seq<Pass>)
    requires forall p :: p in ps ==> p.targets == []
    ensures HeldByPasses(ps) == multiset{}
  {
    if ps != [] { IdlePasses(ps[1..]); }
  }

  lemma {:induction false} IdleCalls(cs: seq<Call>)
    requires forall c :: c in cs ==> c.stage.Closed?
    ensures HeldByCalls(cs) == multiset{}
  {
    if cs != [] { IdleCalls(cs[1..]); }
  }

  /** Nothing is left in flight once every pass and every reprobe is through. */
  lemma NothingLeaks(steps: seq<Step>)
    requires Legal(START, steps) && Idle(Exec(START, steps))
    ensures var s := Exec(START, steps); s.inFlight == multiset{} && s.begun == s.ended
  {
    hide Legal, Exec, HeldByPasses, HeldByCalls;
    StartConserved();
    ReferencesConserved(START, steps);
    var s := Exec(START, steps);
    IdlePasses(s.passes);
    IdleCalls(s.calls);
  }

  lemma StartConserved()
    ensures Conserved(START)
  {
  }

  // -------------------------------------------------- one probe, one query

  /**
   At whatever point of a run a recovery pass starts, it takes no key on which a pass or a reprobe still
   holds a reference in its pool, whether or not a clear has wiped the cooldown meanwhile.
   */
  lemma NoProbeWhileInFlight(steps: seq<Step>, i: nat, key: string)
    requires Legal(START, steps) && i < |steps| && steps[i].StartPass? && key in steps[i].targets
    ensures Legal(START, steps[..i])
    ensures var s, r := Exec(START, steps[..i]), Ref(steps[i].pool, key);
      && HeldByPasses(s.passes)[r] == 0 && HeldByCalls(s.calls)[r] == 0 && s.begun[r] == s.ended[r]
  {
    hide HeldByPasses, HeldByCalls, Able, Next, Legal, Exec;
    StartConserved();
    PrefixLegal(START, steps, i);
    ReferencesConserved(START, steps[..i]);
    TargetIsFree(Exec(START, steps[..i]), steps[i], key);
  }

  lemma TargetIsFree(s: Sys, a: Step, key: string)
    requires a.StartPass? && Able(s, a) && key in a.targets
    ensures s.inFlight[Ref(a.pool, key)] == 0
  {
    hide Find;
    assert Probes(s, a.pool, a.sight, key);
  }

  lemma {:induction false} PrefixLegal(s: Sys, steps: seq<Step>, i: nat)
    requires Legal(s, steps) && i < |steps|
    ensures Legal(s, steps[..i]) && Able(Exec(s, steps[..i]), steps[i])
    decreases i
  {
    hide Able, Next;
    if i > 0 {
      assert steps[..i][1..] == steps[1..][..i - 1] && steps[..i][0] == steps[0];
      PrefixLegal(Next(s, steps[0]), steps[1..], i - 1);
    }
  }

  /** Recovery passes never probe a key in one pool twice at once. */
  ghost predicate Solo(s: Sys) { Conserved(s) && forall r :: HeldByPasses(s.passes)[r] <= 1 }

  lemma {:induction false} DistinctRefs(pool: string, keys: seq<string>, r: Ref)
    requires Distinct(keys)
    ensures RefsIn(pool, keys)[r] <= 1 && (r in RefsIn(pool, keys) ==> r.pool == pool && r.key in keys)
  {
    if keys != [] {
      DistinctRefs(pool, keys[1..], r);
      assert keys[0] !in keys[1..];
    }
  }

  lemma SoloStep(s: Sys, a: Step)
    requires Solo(s) && Able(s, a)
    ensures Solo(Next(s, a))
  {
    hide HeldByPasses, HeldByCalls, RefsIn, CallRefs, Distinct, Conserved;
    ConservedStep(s, a);
    if a.StartPass? {
      SoloStart(s, a);
    } else if a.EndTarget? {
      var t, p := Next(s, a), s.passes[a.pass];
      PassUpdate(s.passes, a.pass, t.passes[a.pass]);
      FirstRef(p.pool, p.targets);
      OneLess(HeldByPasses(t.passes), HeldByPasses(s.passes), Ref(p.pool, p.targets[0]), RefsIn(p.pool, p.targets[1..]));
      forall r ensures HeldByPasses(t.passes)[r] <= 1 {
        assert (HeldByPasses(t.passes) + multiset{Ref(p.pool, p.targets[0])})[r] == HeldByPasses(s.passes)[r];
      }
    }
  }

  lemma SoloStart(s: Sys, a: Step)
    requires Solo(s) && Able(s, a) && a.StartPass?
    ensures forall r :: HeldByPasses(Next(s, a).passes)[r] <= 1
  {
    hide HeldByPasses, HeldByCalls, RefsIn, Distinct, Probes;
    PassAppend(s.passes, Pass(a.pool, a.targets));
    forall r ensures HeldByPasses(Next(s, a).passes)[r] <= 1 {
      DistinctRefs(a.pool, a.targets, r);
      if r.pool == a.pool && r.key in a.targets { TargetIsFree(s, a, r.key); }
    }
  }

  lemma {:induction false} OneProbeAtATime(s: Sys, steps: seq<Step>)
    requires Solo(s) && Legal(s, steps)
    ensures Solo(Exec(s, steps))
    decreases |steps|
  {
    hide Solo, Able, Next;
    if steps != [] {
      SoloStep(s, steps[0]);
      OneProbeAtATime(Next(s, steps[0]), steps[1..]);
    }
  }

  /**
   Whom a pass takes, in plain terms: parked and enabled, at a provider that can be asked, not the active member where that
   is left out, with no query out on it in this pool, and not tried for half a minute.
   */
  lemma TakesExactly(s: Sys, a: Step, key: string)
    requires a.StartPass? && Able(s, a)
    ensures var c, r := a.sight.c, Ref(a.pool, key);
      key in a.targets <==>
        && key in c.exhausted && key !in c.disabled && !(a.sight.skipActive && c.cur == key)
        && (exists m :: Backend(c, key) == Some(m) && m.baseURL in a.sight.known)
        && r !in s.inFlight && (r in s.last ==> a.sight.now >= s.last[r] + 30_000_000_000)
  {
    hide Find;
    assert key in a.targets <==> Probes(s, a.pool, a.sight, key);
  }

  lemma {:induction false} TriedAt(last: map<Ref, Time>, pool: string, keys: seq<string>, now: Time, r: Ref)
    ensures var after := Tried(last, pool, keys, now);
      if r.pool == pool && r.key in keys then r in after && after[r] == now
      else (r in after <==> r in last) && (r in last ==> after[r] == last[r])
    decreases |keys|
  {
    if keys != [] { TriedAt(last[Ref(pool, keys[0]) := now], pool, keys[1..], now, r); }
  }

  /** The step wipes the cooldown of the key in that pool. */
  predicate Wipes(a: Step, r: Ref) { a == ClearOne(r.pool, r.key) || a == ClearAll(r.pool) }

  lemma LastStep(s: Sys, a: Step, r: Ref, at: Time)
    requires Able(s, a) && !Wipes(a, r) && r in s.last && s.last[r] >= at
    ensures var t := Next(s, a); r in t.last && t.last[r] >= at
  {
    hide RefsIn, Probes, Tried, Find;
    if a.StartPass? {
      TriedAt(s.last, a.pool, a.targets, a.sight.now, r);
      if r.pool == a.pool && r.key in a.targets {
        TakesExactly(s, a, r.key);
      }
    }
  }

  lemma {:induction false} LastKept(s: Sys, steps: seq<Step>, r: Ref, at: Time)
    requires Legal(s, steps) && (forall a :: a in steps ==> !Wipes(a, r)) && r in s.last && s.last[r] >= at
    ensures var t := Exec(s, steps); r in t.last && t.last[r] >= at
    decreases |steps|
  {
    hide Able, Next, Wipes;
    if steps != [] {
      LastStep(s, steps[0], r, at);
      LastKept(Next(s, steps[0]), steps[1..], r, at);
    }
  }

  /** Two passes of a run take the same key in a pool at least half a minute apart, unless its cooldown is wiped in between. */
  lemma ProbesAreApart(s: Sys, first: Step, between: seq<Step>, second: Step, key: string)
    requires first.StartPass? && second.StartPass? && first.pool == second.pool && key in first.targets && key in second.targets
    requires Legal(s, [first] + between + [second]) && forall a :: a in between ==> !Wipes(a, Ref(first.pool, key))
    ensures second.sight.now - first.sight.now >= 30_000_000_000
  {
    hide Able, Next, Wipes, Tried;
    var all := [first] + between + [second];
    assert all[0] == first && all[1..] == between + [second];
    PrefixLegal(Next(s, first), between + [second], |between|);
    assert (between + [second])[..|between|] == between && (between + [second])[|between|] == second;
    var r := Ref(first.pool, key);
    TriedNow(s, first, key);
    LastKept(Next(s, first), between, r, first.sight.now);
    TakesExactly(Exec(Next(s, first), between), second, key);
  }

  lemma TriedNow(s: Sys, a: Step, key: string)
    requires a.StartPass? && Able(s, a) && key in a.targets
    ensures var t, r := Next(s, a), Ref(a.pool, key); r in t.last && t.last[r] == a.sight.now
  {
    hide RefsIn, Probes, Tried;
    TriedAt(s.last, a.pool, a.targets, a.sight.now, Ref(a.pool, key));
  }

  /** While the query of a reprobe runs, every pool it found the nick in has a reference out. */
  lemma QueryIsCovered(s: Sys, i: nat, p: string)
    requires Conserved(s) && i < |s.calls| && s.calls[i].stage == Joining([]) && p in s.calls[i].holders
    ensures Ref(p, s.calls[i].key) in s.inFlight
  {
    hide HeldByPasses;
    RefOf(s.calls[i].key, s.calls[i].holders, p);
    CallIn(s.calls, i, Ref(p, s.calls[i].key));
  }

  lemma {:induction false} RefOf(key: string, pools: seq<string>, p: string)
    requires p in pools
    ensures Ref(p, key) in CallRefs(key, pools)
  {
    if pools[0] != p { RefOf(key, pools[1..], p); }
  }

  lemma {:induction false} CallIn(cs: seq<Call>, i: nat, r: Ref)
    requires i < |cs| && r in CallRefs(cs[i].key, HeldBy(cs[i]))
    ensures r in HeldByCalls(cs)
  {
    hide CallRefs, HeldBy;
    if i > 0 { CallIn(cs[1..], i - 1, r); }
  }

  /** The table lists exactly the calls still running, one to a key; a call is asked once, and closed with its answer. */
  ghost predicate Coalesced(s: Sys) {
    && (forall k :: k in s.open ==> s.open[k] < |s.calls| && s.calls[s.open[k]].key == k && !s.calls[s.open[k]].stage.Closed?)
    && (forall i :: 0 <= i < |s.calls| ==>
          && (!s.calls[i].stage.Closed? ==> s.calls[i].key in s.open && s.open[s.calls[i].key] == i)
          && s.calls[i].queries == (if s.calls[i].stage.Joining? then 0 else 1)
          && (s.calls[i].result.Some? <==> !s.calls[i].stage.Joining?))
    && (forall q :: q in s.requests ==>
          && q.call < |s.calls| && s.calls[q.call].key == q.key
          && (q.answer.Some? ==> s.calls[q.call].stage.Closed? && q.answer == s.calls[q.call].result))
  }

  lemma CoalescedStep(s: Sys, a: Step)
    requires Coalesced(s) && Able(s, a)
    ensures Coalesced(Next(s, a))
  {
    hide RefsIn, Coalesced;
    match a
    case StartPass(_, _, _) => OnlyBooks(s, Next(s, a));
    case ClearOne(_, _) => OnlyBooks(s, Next(s, a));
    case ClearAll(_) => OnlyBooks(s, Next(s, a));
    case EndTarget(_) => OnlyBooks(s, Next(s, a));
    case Ask(_, _) => CoalescedAsk(s, a);
    case Answer(_) => CoalescedAnswer(s, a);
    case Close(_) => CoalescedClose(s, a);
    case Join(i, _) => CallFacts(s, i); CoalescedCall(s, Next(s, a), i);
    case Query(i, _) => CallFacts(s, i); CoalescedCall(s, Next(s, a), i);
    case Release(i) => CallFacts(s, i); CoalescedCall(s, Next(s, a), i);
  }

  lemma CallFacts(s: Sys, i: nat)
    requires Coalesced(s) && i < |s.calls|
    ensures s.calls[i].queries == (if s.calls[i].stage.Joining? then 0 else 1)
    ensures s.calls[i].result.Some? <==> !s.calls[i].stage.Joining?
  {
  }

  lemma OnlyBooks(s: Sys, t: Sys)
    requires Coalesced(s) && t.calls == s.calls && t.open == s.open && t.requests == s.requests
    ensures Coalesced(t)
  {
  }

  lemma CoalescedAsk(s: Sys, a: Step)
    requires Coalesced(s) && a.Ask?
    ensures Coalesced(Next(s, a))
  {
  }

  lemma CoalescedAnswer(s: Sys, a: Step)
    requires Coalesced(s) && Able(s, a) && a.Answer?
    ensures Coalesced(Next(s, a))
  {
    var t := Next(s, a);
    assert s.requests[a.request] in s.requests;
    assert forall q :: q in t.requests ==> q in s.requests || q == t.requests[a.request];
  }

  lemma CoalescedClose(s: Sys, a: Step)
    requires Coalesced(s) && Able(s, a) && a.Close?
    ensures Coalesced(Next(s, a))
  {
  }

  /** A running call moves on without closing. */
  lemma CoalescedCall(s: Sys, t: Sys, i: nat)
    requires Coalesced(s) && i < |s.calls| && i < |t.calls| && t.calls == s.calls[i := t.calls[i]]
    requires t.open == s.open && t.requests == s.requests
    requires var c, d := s.calls[i], t.calls[i];
      && !c.stage.Closed? && !d.stage.Closed? && d.key == c.key
      && d.queries == (if d.stage.Joining? then 0 else 1) && (d.result.Some? <==> !d.stage.Joining?)
    ensures Coalesced(t)
  {
    forall q | q in t.requests
      ensures q.call < |t.calls| && t.calls[q.call].key == q.key
      ensures q.answer.Some? ==> t.calls[q.call].stage.Closed? && q.answer == t.calls[q.call].result
    {
      assert q in s.requests;
    }
  }

  lemma {:induction false} CoalescedHolds(s: Sys, steps: seq<Step>)
    requires Coalesced(s) && Legal(s, steps)
    ensures Coalesced(Exec(s, steps))
    decreases |steps|
  {
    hide Coalesced, Able, Next;
    if steps != [] {
      CoalescedStep(s, steps[0]);
      CoalescedHolds(Next(s, steps[0]), steps[1..]);
    }
  }

  /**
   In every run concurrent reprobes of a key share one query: two requests that were both
   unanswered while the call ran hold the same call, which was asked once, and come back
   with its result.
   */
  lemma OneQueryShared(steps: seq<Step>, i: nat, j: nat)
    requires Legal(START, steps)
    requires var s := Exec(START, steps);
      && i < |s.requests| && j < |s.requests| && s.requests[i].key == s.requests[j].key
      && s.requests[i].call < |s.calls| && !s.calls[s.requests[i].call].stage.Closed?
      && s.requests[j].call < |s.calls| && !s.calls[s.requests[j].call].stage.Closed?
    ensures var s := Exec(START, steps); s.requests[i].call == s.requests[j].call && s.calls[s.requests[i].call].queries <= 1
  {
    hide Legal, Exec;
    CoalescedHolds(START, steps);
    var s := Exec(START, steps);
    assert s.requests[i] in s.requests && s.requests[j] in s.requests;
  }

  lemma AnswersAreShared(steps: seq<Step>, i: nat, j: nat)
    requires Legal(START, steps)
    requires var s := Exec(START, steps);
      && i < |s.requests| && j < |s.requests| && s.requests[i].call == s.requests[j].call
      && s.requests[i].answer.Some? && s.requests[j].answer.Some?
    ensures var s := Exec(START, steps); s.requests[i].answer == s.requests[j].answer
  {
    hide Legal, Exec;
    CoalescedHolds(START, steps);
    var s := Exec(START, steps);
    assert s.requests[i] in s.requests && s.requests[j] in s.requests;
  }

  // ------------------------------------------------ what a healthy answer does

  /** `reconcileReprobe` on a healthy merged snapshot, and a recovery pass on a healthy one: park gone, mirrors released. */
  function Unpark(s: State, pool: string, nick: string): State
    requires pool in s.ctls
  {
    var t := s.(ctls := s.ctls[pool := ClearNick(s.ctls[pool], nick)]);
    if nick in s.ctls[pool].parks then P.ClearSiblings(t, pool, nick) else t
  }

  /** `reconcileReprobe`: judged on the merged snapshot. */
  method ReconcileReprobe(pools: P.Pools, pool: string, nick: string, merged: Snapshot, w: World, long: bool)
      returns (healthy: bool)
    requires pools.Valid() && pool in pools.byPool
    modifies pools.Repr()
    ensures pools.Valid() && pools.reg == old(pools.reg) && pools.byPool == old(pools.byPool)
    ensures healthy == !SnapRejects(merged, w.now, long)
    ensures pools.View() == if healthy then Unpark(old(pools.View()), pool, nick) else old(pools.View())
  {
    hide P.ClearSiblings, C.Controller.View, ClearNick;
    healthy := !SnapRejects(merged, w.now, long);
    if !healthy { return; }
    ghost var s := pools.View();
    var had := ClearParks(pools.byPool[pool], nick);
    P.OneChanged(s, pools.View(), pool, ClearNick(s.ctls[pool], nick));
    if had { pools.PropagateClear(pool, nick); }
  }

  method ClearParks(c: C.Controller, nick: string) returns (had: bool)
    modifies c
    ensures c.View() == ClearNick(old(c.View()), nick) && had == (nick in old(c.View()).parks)
  {
    had := nick in c.credentialPark;
    c.exhausted, c.credentialPark := c.exhausted - {nick}, c.credentialPark - {nick};
  }

  /** A cleared member is selectable at once exactly if it is enabled and the store does not block it. */
  lemma ClearedExactly(c: Ctl, w: World, nick: string)
    ensures Available(ClearNick(c, nick), w, nick) <==> Routing.Enabled(c, nick) && StoreBound(c, w, nick).None?
  {
    var d := ClearNick(c, nick);
    assert StoreBound(d, w, nick) == StoreBound(c, w, nick);
  }

  /** A reprobe judges the merged store, so its healthy verdict makes an enabled member selectable. */
  lemma HealthyReprobeFrees(c: Ctl, w: World, nick: string)
    requires Backend(c, nick).Some? && Routing.Enabled(c, nick)
    requires !SnapRejects(Get(w, nick), w.now, LongBlocks(w, Backend(c, nick).value.baseURL))
    ensures Available(ClearNick(c, nick), w, nick)
  {
    ClearedExactly(c, w, nick);
  }

  /** A recovery pass judges the fresh snapshot, which it does not merge: the store may go on blocking the member. */
  lemma HealthyProbeMayNotFree(c: Ctl, now: Time, nick: string, url: string)
    requires Backend(c, nick) == Some(Member(nick, "key", url))
    ensures var stored := EMPTY.(h5 := NO_WINDOW.(status := Some(REJECTED), reset := Some(now + HOUR)), asOf := Some(now));
      var w := World(map[nick := stored], now, {});
      && !SnapRejects(EMPTY, now, true) && Unavailable(ClearNick(c, nick), w, nick)
  {
  }
}
