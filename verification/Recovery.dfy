/**
 A controller's probe book and what reads and writes it: the two halves of a recovery pass and
 the operator's clears. Each is a run of the protocol's steps.
 */
module Recovery {
  import opened Common
  import Q = Quota
  import opened Availability
  import opened Parks
  import opened Mutations
  import opened Reprobe
  import E = RegistryEdits
  import R = Registry
  import P = Pools
  import C = Controller

  // -------------------------------------------------------- one pool's book

  function CountOf(inFlight: map<string, int>, key: string): int { if key in inFlight then inFlight[key] else 0 }

  function AttemptOf(last: map<string, Time>, key: string): Option<Time> { if key in last then Some(last[key]) else None }

  /** A pool's references in flight by key, and its last attempts. */
  datatype Book = Book(inFlight: map<string, int>, last: map<string, Time>)

  function Begun(inFlight: map<string, int>, key: string): map<string, int> { inFlight[key := CountOf(inFlight, key) + 1] }

  /** The entry goes at zero. */
  function Ended(inFlight: map<string, int>, key: string): map<string, int> {
    if CountOf(inFlight, key) > 1 then inFlight[key := CountOf(inFlight, key) - 1] else inFlight - {key}
  }

  /** What the targets of a pass add to a book. */
  function Targeted(b: Book, keys: seq<string>, now: Time): Book {
    if keys == [] then b
    else
      var c, key := Targeted(b, keys[..|keys| - 1], now), keys[|keys| - 1];
      Book(Begun(c.inFlight, key), c.last[key := now])
  }

  /** The pass may take `n`, going by the book. */
  predicate MayProbe(v: Sight, n: string, inFlight: map<string, int>, last: map<string, Time>) {
    Eligible(v.c, n, v.skipActive, CountOf(inFlight, n), AttemptOf(last, n), v.now, v.known)
  }

  class ProbeBook {
    var probeInFlight: map<string, int>
    var lastProbeAttempt: map<string, Time>

    /** Only positive counts are kept. */
    ghost predicate Valid()
      reads this
    {
      forall k :: k in probeInFlight ==> probeInFlight[k] >= 1
    }

    constructor ()
      ensures Valid() && probeInFlight == map[] && lastProbeAttempt == map[]
    {
      probeInFlight, lastProbeAttempt := map[], map[];
    }

    function Entries(): Book
      reads this
    {
      Book(probeInFlight, lastProbeAttempt)
    }

    /** `beginProbeLocked`. */
    method Begin(key: string)
      requires Valid()
      modifies this`probeInFlight
      ensures probeInFlight == Begun(old(probeInFlight), key)
      ensures Valid() && CountOf(probeInFlight, key) == CountOf(old(probeInFlight), key) + 1
      ensures forall k :: k != key ==> CountOf(probeInFlight, k) == CountOf(old(probeInFlight), k)
    {
      probeInFlight := probeInFlight[key := CountOf(probeInFlight, key) + 1];
    }

    /** `endProbeLocked`: the entry goes at zero. */
    method End(key: string)
      requires Valid()
      modifies this`probeInFlight
      ensures probeInFlight == Ended(old(probeInFlight), key)
      ensures Valid() && CountOf(probeInFlight, key) == Max(0, CountOf(old(probeInFlight), key) - 1)
      ensures forall k :: k != key ==> CountOf(probeInFlight, k) == CountOf(old(probeInFlight), k)
    {
      var n := CountOf(probeInFlight, key);
      if n > 1 {
        probeInFlight := probeInFlight[key := n - 1];
      } else {
        probeInFlight := probeInFlight - {key};
      }
    }

    method Attempt(n: string, now: Time)
      requires Valid()
      modifies this
      ensures Entries() == Book(Begun(old(probeInFlight), n), old(lastProbeAttempt)[n := now])
      ensures Valid() && CountOf(probeInFlight, n) == CountOf(old(probeInFlight), n) + 1
      ensures forall k :: k != n ==> CountOf(probeInFlight, k) == CountOf(old(probeInFlight), k)
      ensures lastProbeAttempt == old(lastProbeAttempt)[n := now]
    {
      Begin(n);
      lastProbeAttempt := lastProbeAttempt[n := now];
    }

    /** The first, locked half of `recoverParked`: exactly the eligible members, each with a fresh reference. */
    method SelectTargets(v: Sight) returns (targets: seq<string>)
      requires Valid()
      modifies this
      ensures Valid() && Distinct(targets) && Entries() == Targeted(old(Entries()), targets, v.now)
      ensures forall n :: n in targets <==> MayProbe(v, n, old(probeInFlight), old(lastProbeAttempt))
      ensures forall k :: CountOf(probeInFlight, k) == CountOf(old(probeInFlight), k) + (if k in targets then 1 else 0)
      ensures forall k :: AttemptOf(lastProbeAttempt, k) == if k in targets then Some(v.now) else AttemptOf(old(lastProbeAttempt), k)
    {
      hide Eligible, CountOf, AttemptOf, Begun;
      targets := [];
      ghost var inFlight, last := probeInFlight, lastProbeAttempt;
      var todo := v.c.exhausted.Keys;
      OnlyExhausted(v, inFlight, last);
      while todo != {}
        invariant Valid() && Distinct(targets) && todo <= v.c.exhausted.Keys
        invariant Entries() == Targeted(old(Entries()), targets, v.now)
        invariant forall n :: n in targets ==> n !in todo && MayProbe(v, n, inFlight, last)
        invariant forall n :: n in v.c.exhausted && n !in todo && n !in targets ==> !MayProbe(v, n, inFlight, last)
        invariant forall k :: CountOf(probeInFlight, k) == CountOf(inFlight, k) + (if k in targets then 1 else 0)
        invariant forall k :: AttemptOf(lastProbeAttempt, k) == if k in targets then Some(v.now) else AttemptOf(last, k)
        decreases |todo|
      {
        var n :| n in todo;
        todo := todo - {n};
        if MayProbe(v, n, probeInFlight, lastProbeAttempt) {
          NoteAttempt(lastProbeAttempt, n, v.now);
          Attempt(n, v.now);
          assert (targets + [n])[..|targets|] == targets;
          targets := targets + [n];
        }
      }
    }

    /** A clear wipes the cooldown, never a reference. */
    method Forget(n: string)
      modifies this`lastProbeAttempt
      ensures lastProbeAttempt == old(lastProbeAttempt) - {n}
    {
      lastProbeAttempt := lastProbeAttempt - {n};
    }

    method ForgetAll()
      modifies this`lastProbeAttempt
      ensures lastProbeAttempt == map[]
    {
      lastProbeAttempt := map[];
    }
  }

  lemma NoteAttempt(last: map<string, Time>, n: string, now: Time)
    ensures forall k :: AttemptOf(last[n := now], k) == if k == n then Some(now) else AttemptOf(last, k)
  {
    var after := last[n := now];
    forall k ensures AttemptOf(after, k) == if k == n then Some(now) else AttemptOf(last, k) {
    }
  }

  lemma OnlyExhausted(v: Sight, inFlight: map<string, int>, last: map<string, Time>)
    ensures forall n :: MayProbe(v, n, inFlight, last) ==> n in v.c.exhausted
  {
    hide Find;
  }

  // --------------------------------------------- the book follows the protocol

  /** The book of `pool` says what the protocol's state says of it. */
  ghost predicate Tells(s: Sys, pool: string, inFlight: map<string, int>, last: map<string, Time>) {
    forall k :: CountOf(inFlight, k) == s.inFlight[Ref(pool, k)] && AttemptOf(last, k) == LastOf(s, Ref(pool, k))
  }

  lemma {:induction false} RefsCount(pool: string, keys: seq<string>, r: Ref)
    requires Distinct(keys)
    ensures RefsIn(pool, keys)[r] == if r.pool == pool && r.key in keys then 1 else 0
  {
    if keys != [] {
      RefsCount(pool, keys[1..], r);
      assert keys[0] !in keys[1..];
    }
  }

  lemma StartAt(s: Sys, pool: string, v: Sight, targets: seq<string>, r: Ref)
    requires Able(s, StartPass(pool, v, targets))
    ensures var t, hit := Next(s, StartPass(pool, v, targets)), r.pool == pool && r.key in targets;
      && t.inFlight[r] == s.inFlight[r] + (if hit then 1 else 0)
      && LastOf(t, r) == if hit then Some(v.now) else LastOf(s, r)
  {
    hide Probes, RefsIn, Tried;
    RefsCount(pool, targets, r);
    TriedAt(s.last, pool, targets, v.now, r);
  }

  /** What `SelectTargets` does is a step of the protocol, and leaves the pool's book right. */
  lemma SelectIsStep(s: Sys, pool: string, v: Sight, targets: seq<string>, inFlight: map<string, int>, last: map<string, Time>,
                     inFlight2: map<string, int>, last2: map<string, Time>)
    requires Tells(s, pool, inFlight, last) && Distinct(targets)
    requires forall n :: n in targets <==> MayProbe(v, n, inFlight, last)
    requires forall k :: CountOf(inFlight2, k) == CountOf(inFlight, k) + (if k in targets then 1 else 0)
    requires forall k :: AttemptOf(last2, k) == if k in targets then Some(v.now) else AttemptOf(last, k)
    ensures var a := StartPass(pool, v, targets); Able(s, a) && Tells(Next(s, a), pool, inFlight2, last2)
  {
    hide Eligible, CountOf, AttemptOf, Next, LastOf;
    forall k ensures Probes(s, pool, v, k) == MayProbe(v, k, inFlight, last) {
      assert CountOf(inFlight, k) == s.inFlight[Ref(pool, k)];
    }
    forall k ensures CountOf(inFlight2, k) == Next(s, StartPass(pool, v, targets)).inFlight[Ref(pool, k)]
             ensures AttemptOf(last2, k) == LastOf(Next(s, StartPass(pool, v, targets)), Ref(pool, k)) {
      assert CountOf(inFlight, k) == s.inFlight[Ref(pool, k)];
      StartAt(s, pool, v, targets, Ref(pool, k));
    }
  }

  lemma GivesBack(s: Sys, a: Step, k: Ref)
    requires Conserved(s) && Able(s, a) && (a.EndTarget? || a.Release?)
    ensures var r := Returned(s, a);
      && s.inFlight[r] >= 1 && LastOf(Next(s, a), k) == LastOf(s, k)
      && Next(s, a).inFlight[k] == s.inFlight[k] - (if k == r then 1 else 0)
  {
    hide HeldByPasses, HeldByCalls, RefsIn, CallRefs, Conserved;
    ReturnedIsOut(s, a);
  }

  /** So is giving one reference back, by a pass or by a reprobe. */
  lemma EndIsStep(s: Sys, a: Step, inFlight: map<string, int>, last: map<string, Time>, inFlight2: map<string, int>)
    requires Conserved(s) && Able(s, a) && (a.EndTarget? || a.Release?)
    requires var r := Returned(s, a);
      && Tells(s, r.pool, inFlight, last) && CountOf(inFlight2, r.key) == Max(0, CountOf(inFlight, r.key) - 1)
      && forall k :: k != r.key ==> CountOf(inFlight2, k) == CountOf(inFlight, k)
    ensures Tells(Next(s, a), Returned(s, a).pool, inFlight2, last)
  {
    hide CountOf, AttemptOf, LastOf, Next, Conserved;
    var r := Returned(s, a);
    forall k ensures CountOf(inFlight2, k) == Next(s, a).inFlight[Ref(r.pool, k)]
             ensures AttemptOf(last, k) == LastOf(Next(s, a), Ref(r.pool, k)) {
      assert CountOf(inFlight, k) == s.inFlight[Ref(r.pool, k)];
      GivesBack(s, a, Ref(r.pool, k));
    }
  }

  /** The reference a step gives back. */
  function Returned(s: Sys, a: Step): Ref
    requires (a.EndTarget? && a.pass < |s.passes| && s.passes[a.pass].targets != [])
          || (a.Release? && a.call < |s.calls| && s.calls[a.call].stage.Ending? && s.calls[a.call].stage.left != [])
  {
    if a.EndTarget? then Ref(s.passes[a.pass].pool, s.passes[a.pass].targets[0])
    else Ref(s.calls[a.call].stage.left[0], s.calls[a.call].key)
  }

  lemma {:induction false} PassIn(ps: seq<Pass>, i: nat)
    requires i < |ps| && ps[i].targets != []
    ensures Ref(ps[i].pool, ps[i].targets[0]) in HeldByPasses(ps)
  {
    if i == 0 { FirstRef(ps[0].pool, ps[0].targets); } else { PassIn(ps[1..], i - 1); }
  }

  lemma ReturnedIsOut(s: Sys, a: Step)
    requires Conserved(s) && Able(s, a) && (a.EndTarget? || a.Release?)
    ensures Returned(s, a) in s.inFlight
  {
    hide HeldByPasses, HeldByCalls, RefsIn, CallRefs;
    if a.EndTarget? {
      PassIn(s.passes, a.pass);
    } else {
      var c := s.calls[a.call];
      FirstHeld(c.key, c.stage.left);
      CallIn(s.calls, a.call, Returned(s, a));
    }
  }

  /** A reprobe's reference in a pool that holds the nick. */
  lemma BeginIsStep(s: Sys, a: Step, inFlight: map<string, int>, last: map<string, Time>, inFlight2: map<string, int>)
    requires Able(s, a) && a.Join? && a.holds
    requires var c := s.calls[a.call];
      && Tells(s, c.stage.left[0], inFlight, last) && CountOf(inFlight2, c.key) == CountOf(inFlight, c.key) + 1
      && forall k :: k != c.key ==> CountOf(inFlight2, k) == CountOf(inFlight, k)
    ensures Tells(Next(s, a), s.calls[a.call].stage.left[0], inFlight2, last)
  {
    hide CountOf, AttemptOf;
    var r := Ref(s.calls[a.call].stage.left[0], s.calls[a.call].key);
    forall k ensures Next(s, a).inFlight[Ref(r.pool, k)] == s.inFlight[Ref(r.pool, k)] + (if k == r.key then 1 else 0) { }
  }

  /** And a clear, which leaves the references alone. */
  lemma ForgetIsStep(s: Sys, pool: string, n: string, inFlight: map<string, int>, last: map<string, Time>)
    requires Tells(s, pool, inFlight, last)
    ensures Tells(Next(s, ClearOne(pool, n)), pool, inFlight, last - {n})
    ensures Tells(Next(s, ClearAll(pool)), pool, inFlight, map[])
  {
    hide CountOf;
    assert forall k :: AttemptOf(last - {n}, k) == if k == n then None else AttemptOf(last, k);
  }

  // --------------------------------------------------- every pool's book

  /** The pool whose book a step writes. */
  function Writes(s: Sys, a: Step): Option<string> {
    match a
    case StartPass(p, _, _) => Some(p)
    case EndTarget(i) => if i < |s.passes| then Some(s.passes[i].pool) else None
    case Join(i, holds) =>
      if holds && i < |s.calls| && s.calls[i].stage.Joining? && s.calls[i].stage.left != [] then Some(s.calls[i].stage.left[0]) else None
    case Release(i) =>
      if i < |s.calls| && s.calls[i].stage.Ending? && s.calls[i].stage.left != [] then Some(s.calls[i].stage.left[0]) else None
    case ClearOne(p, _) => Some(p)
    case ClearAll(p) => Some(p)
    case _ => None
  }

  /** What the step, through the book's methods, makes of the book it writes. */
  ghost function Updated(s: Sys, a: Step, b: Book): Book
    requires Able(s, a)
  {
    match a
    case StartPass(_, v, keys) => Targeted(b, keys, v.now)
    case EndTarget(_) => b.(inFlight := Ended(b.inFlight, Returned(s, a).key))
    case Release(_) => b.(inFlight := Ended(b.inFlight, Returned(s, a).key))
    case Join(i, _) => b.(inFlight := Begun(b.inFlight, s.calls[i].key))
    case ClearOne(_, n) => b.(last := b.last - {n})
    case ClearAll(_) => b.(last := map[])
    case _ => b
  }

  lemma {:induction false} TargetedAt(b: Book, keys: seq<string>, now: Time, k: string)
    requires Distinct(keys)
    ensures var c := Targeted(b, keys, now);
      && CountOf(c.inFlight, k) == CountOf(b.inFlight, k) + (if k in keys then 1 else 0)
      && AttemptOf(c.last, k) == if k in keys then Some(now) else AttemptOf(b.last, k)
  {
    if keys != [] {
      var rest, key := keys[..|keys| - 1], keys[|keys| - 1];
      TargetedAt(b, rest, now, k);
      assert key !in rest && keys == rest + [key];
    }
  }

  /** The book a step writes goes on saying what the protocol's state says. */
  lemma WrittenBookIsRight(s: Sys, a: Step, b: Book)
    requires Conserved(s) && Able(s, a) && Writes(s, a).Some? && Tells(s, Writes(s, a).value, b.inFlight, b.last)
    ensures var c := Updated(s, a, b); Tells(Next(s, a), Writes(s, a).value, c.inFlight, c.last)
  {
    hide Conserved, Next, Probes, Eligible, LastOf, Targeted;
    var c := Updated(s, a, b);
    match a
    case StartPass(p, v, keys) =>
      forall k { TargetedAt(b, keys, v.now, k); }
      MayIsProbes(s, p, v, b);
      SelectIsStep(s, p, v, keys, b.inFlight, b.last, c.inFlight, c.last);
    case EndTarget(_) => GivesBack(s, a, Returned(s, a)); EndIsStep(s, a, b.inFlight, b.last, c.inFlight);
    case Release(_) => GivesBack(s, a, Returned(s, a)); EndIsStep(s, a, b.inFlight, b.last, c.inFlight);
    case Join(_, _) => BeginIsStep(s, a, b.inFlight, b.last, c.inFlight);
    case ClearOne(p, n) => ForgetIsStep(s, p, n, b.inFlight, b.last);
    case ClearAll(p) => ForgetIsStep(s, p, "", b.inFlight, b.last);
  }

  lemma MayIsProbes(s: Sys, pool: string, v: Sight, b: Book)
    requires Tells(s, pool, b.inFlight, b.last)
    ensures forall n :: MayProbe(v, n, b.inFlight, b.last) == Probes(s, pool, v, n)
  {
    hide Eligible, CountOf, AttemptOf, LastOf;
    forall n ensures MayProbe(v, n, b.inFlight, b.last) == Probes(s, pool, v, n) {
      assert CountOf(b.inFlight, n) == s.inFlight[Ref(pool, n)];
    }
  }

  /** A step leaves what is known of every other pool as it was. */
  lemma OtherRefsStand(s: Sys, a: Step, r: Ref)
    requires Able(s, a) && Writes(s, a) != Some(r.pool)
    ensures Next(s, a).inFlight[r] == s.inFlight[r] && LastOf(Next(s, a), r) == LastOf(s, r)
  {
    hide Next, Probes, Distinct, LastOf;
    if a.StartPass? {
      StartAt(s, a.pool, a.sight, a.targets, r);
    } else if a.ClearOne? || a.ClearAll? {
      ClearsLast(s, a, r);
    } else {
      OneRefMoves(s, a, r);
    }
  }

  lemma ClearsLast(s: Sys, a: Step, r: Ref)
    requires (a.ClearOne? || a.ClearAll?) && a.pool != r.pool
    ensures Next(s, a).inFlight[r] == s.inFlight[r] && LastOf(Next(s, a), r) == LastOf(s, r)
  {
  }

  lemma OneRefMoves(s: Sys, a: Step, r: Ref)
    requires Able(s, a) && !a.StartPass? && !a.ClearOne? && !a.ClearAll? && Writes(s, a) != Some(r.pool)
    ensures Next(s, a).inFlight[r] == s.inFlight[r] && LastOf(Next(s, a), r) == LastOf(s, r)
  {
    hide Probes, RefsIn, Tried, Distinct;
  }

  /** Every pool's book says what the protocol's state says of the pool. */
  ghost predicate AllTell(s: Sys, books: map<string, Book>) {
    forall q :: q in books ==> Tells(s, q, books[q].inFlight, books[q].last)
  }

  ghost function BooksNext(s: Sys, a: Step, books: map<string, Book>): map<string, Book>
    requires Able(s, a)
  {
    var w := Writes(s, a);
    if w.Some? && w.value in books then books[w.value := Updated(s, a, books[w.value])] else books
  }

  ghost function BooksAfter(s: Sys, steps: seq<Step>, books: map<string, Book>): map<string, Book>
    requires Legal(s, steps)
    decreases |steps|
  {
    if steps == [] then books else BooksAfter(Next(s, steps[0]), steps[1..], BooksNext(s, steps[0], books))
  }

  lemma BooksStep(s: Sys, a: Step, books: map<string, Book>)
    requires Conserved(s) && Able(s, a) && AllTell(s, books)
    ensures AllTell(Next(s, a), BooksNext(s, a, books))
  {
    hide Conserved, Able, Next, Updated, CountOf, AttemptOf, LastOf, Writes;
    var after := BooksNext(s, a, books);
    forall q | q in after ensures Tells(Next(s, a), q, after[q].inFlight, after[q].last) {
      if Writes(s, a) == Some(q) {
        WrittenBookIsRight(s, a, books[q]);
      } else {
        forall k { OtherRefsStand(s, a, Ref(q, k)); }
      }
    }
  }

  /** Over any legal run the books of all pools, written by their methods alone, go on saying what the protocol's state says. */
  lemma {:induction false} BooksStayRight(s: Sys, steps: seq<Step>, books: map<string, Book>)
    requires Conserved(s) && Legal(s, steps) && AllTell(s, books)
    ensures AllTell(Exec(s, steps), BooksAfter(s, steps, books))
    decreases |steps|
  {
    hide Conserved, Able, Next, AllTell, BooksNext;
    if steps != [] {
      BooksStep(s, steps[0], books);
      ConservedStep(s, steps[0]);
      BooksStayRight(Next(s, steps[0]), steps[1..], BooksNext(s, steps[0], books));
    }
  }

  // ------------------------------------------- the second half of a pass

  /** What the query for one target came back with, and the world it is judged in. */
  datatype Outcome = Outcome(snap: Option<Q.Snapshot>, w: World)

  /** The member is still there, the query answered, and what it answered does not reject. */
  predicate Recovered(s: State, pool: string, nick: string, o: Outcome)
    requires pool in s.ctls
  {
    var b := Backend(s.ctls[pool], nick);
    b.Some? && o.snap.Some? && !SnapRejects(o.snap.value, o.w.now, LongBlocks(o.w, b.value.baseURL))
  }

  function SeeOne(s: State, pool: string, nick: string, o: Outcome): State
    requires pool in s.ctls
  {
    if Recovered(s, pool, nick, o) then Unpark(s, pool, nick) else s
  }

  function SeeAll(s: State, pool: string, targets: seq<string>, answers: string -> Outcome): (t: State)
    requires pool in s.ctls
    ensures pool in t.ctls
    decreases |targets|
  {
    if targets == [] then s else SeeAll(SeeOne(s, pool, targets[0], answers(targets[0])), pool, targets[1..], answers)
  }

  /** Whom a pass reports: the first target it recovers. */
  function FirstRecovered(s: State, pool: string, targets: seq<string>, answers: string -> Outcome, sofar: string): string
    requires pool in s.ctls
    decreases |targets|
  {
    if targets == [] then sofar
    else
      var n, o := targets[0], answers(targets[0]);
      FirstRecovered(SeeOne(s, pool, n, o), pool, targets[1..], answers, if sofar == "" && Recovered(s, pool, n, o) then n else sofar)
  }

  /** One target: its park goes or stays, and its reference is given back in every case. */
  method SeeThrough(book: ProbeBook, pools: P.Pools, pool: string, nick: string, o: Outcome) returns (healthy: bool)
    requires book.Valid() && pools.Valid() && pool in pools.byPool
    modifies book`probeInFlight, pools.Repr()
    ensures book.Valid() && CountOf(book.probeInFlight, nick) == Max(0, CountOf(old(book.probeInFlight), nick) - 1)
    ensures forall k :: k != nick ==> CountOf(book.probeInFlight, k) == CountOf(old(book.probeInFlight), k)
    ensures pools.Valid() && pools.reg == old(pools.reg) && pools.byPool == old(pools.byPool)
    ensures healthy == Recovered(old(pools.View()), pool, nick, o)
    ensures pools.View() == SeeOne(old(pools.View()), pool, nick, o)
  {
    hide P.ClearSiblings, C.Controller.View, ClearNick, SnapRejects, CountOf;
    ghost var s := pools.View();
    var b := P.Pools.MemberOf(pools.byPool[pool], nick);
    if b.None? || o.snap.None? || SnapRejects(o.snap.value, o.w.now, LongBlocks(o.w, b.value.baseURL)) {
      book.End(nick);
      return false;
    }
    var had := ClearParks(pools.byPool[pool], nick);
    P.OneChanged(s, pools.View(), pool, ClearNick(s.ctls[pool], nick));
    book.End(nick);
    if had { pools.PropagateClear(pool, nick); }
    return true;
  }

  /** `recoverParked`: whom it takes, what becomes of them, and that it keeps no reference. */
  method RecoverParked(book: ProbeBook, pools: P.Pools, pool: string, now: Time, skipActive: bool, known: Providers,
                       answers: string -> Outcome)
      returns (recovered: string, ghost targets: seq<string>)
    requires book.Valid() && pools.Valid() && pool in pools.byPool
    modifies book, pools.Repr()
    ensures book.Valid() && pools.Valid() && pools.reg == old(pools.reg) && pools.byPool == old(pools.byPool)
    ensures forall k :: CountOf(book.probeInFlight, k) == CountOf(old(book.probeInFlight), k)
    ensures var s := old(pools.View());
      && Distinct(targets)
      && (forall n :: n in targets <==>
            MayProbe(Sight(s.ctls[pool], now, skipActive, known), n, old(book.probeInFlight), old(book.lastProbeAttempt)))
      && pools.View() == SeeAll(s, pool, targets, answers) && recovered == FirstRecovered(s, pool, targets, answers, "")
  {
    hide CountOf, AttemptOf, SeeAll, FirstRecovered, C.Controller.View, P.Pools.View, MayProbe, P.Apart;
    ViewHas(pools, pool);
    var sight := SightOf(pools.byPool[pool], now, skipActive, known);
    ghost var before := book.probeInFlight;
    var todo := book.SelectTargets(sight);
    targets := todo;
    forall k { NoDebt(before, k); }
    recovered := SeeTargets(book, pools, pool, todo, answers);
  }

  /** The targets one after the other. */
  method SeeTargets(book: ProbeBook, pools: P.Pools, pool: string, todo: seq<string>, answers: string -> Outcome)
      returns (recovered: string)
    requires book.Valid() && pools.Valid() && pool in pools.byPool && Distinct(todo)
    requires forall k :: k in todo ==> CountOf(book.probeInFlight, k) >= 1
    modifies book`probeInFlight, pools.Repr()
    ensures book.Valid() && pools.Valid() && pools.reg == old(pools.reg) && pools.byPool == old(pools.byPool)
    ensures forall k :: CountOf(book.probeInFlight, k) == CountOf(old(book.probeInFlight), k) - (if k in todo then 1 else 0)
    ensures var s := old(pools.View());
      pools.View() == SeeAll(s, pool, todo, answers) && recovered == FirstRecovered(s, pool, todo, answers, "")
  {
    hide CountOf, SeeOne, Recovered, C.Controller.View, P.Pools.View, P.Apart;
    ghost var s, start := pools.View(), book.probeInFlight;
    ViewHas(pools, pool);
    recovered := "";
    assert todo[0..] == todo;
    for i := 0 to |todo|
      invariant book.Valid() && pools.Valid() && pools.reg == old(pools.reg) && pools.byPool == old(pools.byPool)
      invariant forall k :: CountOf(book.probeInFlight, k) == CountOf(start, k) - (if k in todo[..i] then 1 else 0)
      invariant pool in pools.View().ctls && SeeAll(pools.View(), pool, todo[i..], answers) == SeeAll(s, pool, todo, answers)
      invariant FirstRecovered(pools.View(), pool, todo[i..], answers, recovered) == FirstRecovered(s, pool, todo, answers, "")
    {
      var n := todo[i];
      assert todo[i..][0] == n && todo[i..][1..] == todo[i + 1..];
      assert todo[..i + 1] == todo[..i] + [n] && n !in todo[..i];
      var healthy := SeeThrough(book, pools, pool, n, answers(n));
      if healthy && recovered == "" { recovered := n; }
      ViewHas(pools, pool);
    }
    assert todo[..|todo|] == todo;
  }

  lemma NoDebt(inFlight: map<string, int>, n: string)
    requires forall k :: k in inFlight ==> inFlight[k] >= 1
    ensures CountOf(inFlight, n) >= 0
  {
  }

  lemma ViewHas(pools: P.Pools, pool: string)
    requires pools.Valid() && pool in pools.byPool
    ensures pool in pools.View().ctls && pools.View().ctls[pool] == pools.byPool[pool].View()
  {
    hide C.Controller.View;
  }

  method SightOf(c: C.Controller, now: Time, skipActive: bool, known: Providers) returns (v: Sight)
    ensures v == Sight(c.View(), now, skipActive, known)
  {
    v := Sight(c.View(), now, skipActive, known);
  }

  // ------------------------------------------------------- what a pass does

  /** The targets a pass recovers, in whatever order it sees to them. */
  function Freed(s: State, pool: string, targets: seq<string>, answers: string -> Outcome): set<string>
    requires pool in s.ctls
  {
    set n | n in targets && Recovered(s, pool, n, answers(n))
  }

  /** The parks of pool `q` mirrored from those among `nicks` that have one in `pool`. */
  function Mirrored(s: State, pool: string, nicks: set<string>, q: string): set<string>
    requires pool in s.ctls
  {
    set n | n in nicks && n in s.ctls[pool].parks && q in P.Siblings(s, pool, n)
  }

  lemma SeeOneExactly(s: State, pool: string, n: string, o: Outcome, q: string)
    requires pool in s.ctls && q in s.ctls
    ensures var t, up := SeeOne(s, pool, n, o), if Recovered(s, pool, n, o) then {n} else {};
      && t.reg == s.reg && t.ctls.Keys == s.ctls.Keys
      && t.ctls[pool] == s.ctls[pool].(exhausted := s.ctls[pool].exhausted - up, parks := s.ctls[pool].parks - up)
      && (q != pool ==> t.ctls[q].parks == s.ctls[q].parks - Mirrored(s, pool, up, q))
  {
    hide Recovered, ResolveIn;
  }

  /**
   A pass lifts both parks of exactly the members it recovers, and elsewhere exactly the parks mirrored
   from those; a failed query or a rejecting answer leaves everything as it was.
   */
  lemma {:induction false} PassFreesExactly(s: State, pool: string, targets: seq<string>, answers: string -> Outcome, q: string)
    requires pool in s.ctls && q in s.ctls && Distinct(targets)
    ensures var t, up := SeeAll(s, pool, targets, answers), Freed(s, pool, targets, answers);
      && t.reg == s.reg && t.ctls.Keys == s.ctls.Keys
      && t.ctls[pool] == s.ctls[pool].(exhausted := s.ctls[pool].exhausted - up, parks := s.ctls[pool].parks - up)
      && (q != pool ==> t.ctls[q].parks == s.ctls[q].parks - Mirrored(s, pool, up, q))
    decreases |targets|
  {
    hide SnapRejects, ResolveIn, SeeOne, Find;
    if targets == [] {
      assert Freed(s, pool, targets, answers) == {} && Mirrored(s, pool, {}, q) == {};
    } else {
      var n, rest := targets[0], targets[1..];
      var o := answers(n);
      var first := if Recovered(s, pool, n, o) then {n} else {};
      var mid := SeeOne(s, pool, n, o);
      SeeOneExactly(s, pool, n, o, q);
      PassFreesExactly(mid, pool, rest, answers, q);
      FreedSplit(s, mid, pool, targets, answers, q);
    }
  }

  lemma FreedSplit(s: State, mid: State, pool: string, targets: seq<string>, answers: string -> Outcome, q: string)
    requires pool in s.ctls && pool in mid.ctls && q in s.ctls && Distinct(targets) && targets != []
    requires mid.reg == s.reg && mid.ctls.Keys == s.ctls.Keys
    requires var up := if Recovered(s, pool, targets[0], answers(targets[0])) then {targets[0]} else {};
      mid.ctls[pool] == s.ctls[pool].(exhausted := s.ctls[pool].exhausted - up, parks := s.ctls[pool].parks - up)
    ensures var first := if Recovered(s, pool, targets[0], answers(targets[0])) then {targets[0]} else {};
      var later := Freed(mid, pool, targets[1..], answers);
      && Freed(s, pool, targets, answers) == first + later
      && Mirrored(s, pool, first + later, q) == Mirrored(s, pool, first, q) + Mirrored(mid, pool, later, q)
  {
    hide SnapRejects, ResolveIn, Find;
    var n, rest := targets[0], targets[1..];
    assert n !in rest && forall x :: x in targets <==> x == n || x in rest;
    assert forall x :: Recovered(mid, pool, x, answers(x)) == Recovered(s, pool, x, answers(x));
    assert forall x :: P.Siblings(mid, pool, x) == P.Siblings(s, pool, x);
  }

  // ------------------------------------------------- the same, in plain terms

  /** Recovered is a member still there whose query was answered by a snapshot that says no window that counts is spent, as of now. */
  lemma RecoveredExactly(s: State, pool: string, nick: string, o: Outcome)
    requires pool in s.ctls
    ensures Recovered(s, pool, nick, o) <==>
      && Backend(s.ctls[pool], nick).Some? && o.snap.Some?
      && var snap, now := o.snap.value, o.w.now;
         var young := snap.asOf.Some? && now - snap.asOf.value <= 5 * MINUTE;
         && !(SaysSpent(snap.h5, now) && (snap.h5.status.Some? || young))
         && !(LongCounts(s.ctls[pool], o.w, nick) && SaysSpent(snap.d7, now) && (snap.d7.status.Some? || young))
  {
    hide Find, SnapRejects, SaysSpent;
    if Backend(s.ctls[pool], nick).Some? && o.snap.Some? {
      RejectsExactly(o.snap.value, o.w.now, LongBlocks(o.w, Backend(s.ctls[pool], nick).value.baseURL));
    }
  }

  /** A pass reports the first of its targets that it recovers, or nobody. */
  lemma ReportsFirst(s: State, pool: string, targets: seq<string>, answers: string -> Outcome)
    requires pool in s.ctls && Distinct(targets) && "" !in targets
    ensures var who, up := FirstRecovered(s, pool, targets, answers, ""), Freed(s, pool, targets, answers);
      if up == {} then who == ""
      else exists i :: 0 <= i < |targets| && who == targets[i] && who in up && forall j :: 0 <= j < i ==> targets[j] !in up
  {
    hide FirstRecovered, Freed;
    ReportsFrom(s, pool, targets, answers, "");
  }

  lemma {:induction false} ReportsFrom(s: State, pool: string, targets: seq<string>, answers: string -> Outcome, sofar: string)
    requires pool in s.ctls && Distinct(targets) && "" !in targets
    ensures var who, up := FirstRecovered(s, pool, targets, answers, sofar), Freed(s, pool, targets, answers);
      if sofar != "" || up == {} then who == sofar
      else exists i :: 0 <= i < |targets| && who == targets[i] && who in up && forall j :: 0 <= j < i ==> targets[j] !in up
    decreases |targets|
  {
    hide Recovered, SeeOne, Mirrored;
    if targets != [] {
      var n, rest := targets[0], targets[1..];
      var o := answers(n);
      var first := if Recovered(s, pool, n, o) then {n} else {};
      var mid := SeeOne(s, pool, n, o);
      SeeOneExactly(s, pool, n, o, pool);
      FreedSplit(s, mid, pool, targets, answers, pool);
      assert n in targets && forall x :: x in rest ==> x in targets && x != n;
      var next := if sofar == "" && Recovered(s, pool, n, o) then n else sofar;
      ReportsFrom(mid, pool, rest, answers, next);
      var up, later := Freed(s, pool, targets, answers), Freed(mid, pool, rest, answers);
      assert up == first + later && forall x :: x in later ==> x in rest;
      if sofar == "" {
        if n in up {
          assert targets[0] == n;
        } else if later != {} {
          var who := FirstRecovered(mid, pool, rest, answers, next);
          var i :| 0 <= i < |rest| && who == rest[i] && who in later && forall j :: 0 <= j < i ==> rest[j] !in later;
          assert targets[i + 1] == who;
          forall j | 0 <= j < i + 1 ensures targets[j] !in up { if j > 0 { assert targets[j] == rest[j - 1]; } }
        }
      }
    }
  }

  /** A clear of one member takes both its parks, and the parks mirrored from the one on its credential. */
  lemma UnparkExactly(s: State, url: R.UrlCheck, pool: string, nick: string, p: string)
    requires E.Sane(s.reg, url) && pool in s.ctls && p in s.ctls
    ensures var t, c := Unpark(s, pool, nick), s.ctls[pool];
      && t.reg == s.reg && t.ctls.Keys == s.ctls.Keys
      && t.ctls[pool] == c.(exhausted := c.exhausted - {nick}, parks := c.parks - {nick})
      && (p != pool ==> t.ctls[p] == if nick in c.parks && P.SharesNick(s, pool, nick, p) then ClearMirror(s.ctls[p], nick) else s.ctls[p])
  {
    hide P.Siblings, P.SharesNick, ClearMirror;
    var mid := s.(ctls := s.ctls[pool := ClearNick(s.ctls[pool], nick)]);
    P.SiblingExactly(mid, url, pool, nick, p);
    P.SiblingExactly(mid, url, pool, nick, pool);
    P.SharesAnywhere(s, mid, pool, nick, p);
    P.SharesAnywhere(s, mid, pool, nick, pool);
  }

  // ----------------------------------------------------------------- clears

  /** `ClearExhaustedNick`: a park there is goes with its cooldown; no reference does. */
  method ClearExhaustedNick(book: ProbeBook, pools: P.Pools, pool: string, nick: string) returns (cleared: bool)
    requires pools.Valid() && pool in pools.byPool
    modifies book`lastProbeAttempt, pools.Repr()
    ensures pools.Valid() && pools.reg == old(pools.reg) && pools.byPool == old(pools.byPool)
    ensures var c := old(pools.View()).ctls[pool]; cleared <==> nick in c.exhausted || nick in c.parks
    ensures pools.View() == Unpark(old(pools.View()), pool, nick)
    ensures book.lastProbeAttempt == if cleared then old(book.lastProbeAttempt) - {nick} else old(book.lastProbeAttempt)
  {
    hide P.ClearSiblings, C.Controller.View, ClearNick;
    ghost var s := pools.View();
    ghost var c := s.ctls[pool];
    var parked := HasPark(pools.byPool[pool], nick);
    NothingToClear(c, nick);
    if !parked {
      P.OneChanged(s, s, pool, c);
      return false;
    }
    var had := ClearParks(pools.byPool[pool], nick);
    P.OneChanged(s, pools.View(), pool, ClearNick(c, nick));
    book.Forget(nick);
    if had { pools.PropagateClear(pool, nick); }
    return true;
  }

  method HasPark(c: C.Controller, nick: string) returns (parked: bool)
    ensures parked <==> nick in c.View().exhausted || nick in c.View().parks
  {
    parked := nick in c.exhausted || nick in c.credentialPark;
  }

  lemma NothingToClear(c: Ctl, nick: string)
    ensures nick !in c.exhausted && nick !in c.parks ==> ClearNick(c, nick) == c
  {
    if nick !in c.exhausted && nick !in c.parks {
      assert c.exhausted - {nick} == c.exhausted && c.parks - {nick} == c.parks;
    }
  }

  /** The siblings of each of `nicks` release it. */
  function ReleaseAll(s: State, pool: string, nicks: seq<string>): State
    decreases |nicks|
  {
    if nicks == [] then s else ReleaseAll(P.ClearSiblings(s, pool, nicks[0]), pool, nicks[1..])
  }

  /** The pool without a park, and no mirror of one anywhere. */
  ghost function ClearedPool(s: State, pool: string): State
    requires pool in s.ctls
  {
    var c := s.ctls[pool];
    ReleaseAll(s.(ctls := s.ctls[pool := c.(exhausted := map[], parks := map[])]), pool, Listing(c.parks.Keys))
  }

  /** `ClearExhausted`: the whole pool, the siblings afterwards, nick by nick. */
  method ClearExhausted(book: ProbeBook, pools: P.Pools, pool: string) returns (cleared: bool)
    requires pools.Valid() && pool in pools.byPool
    modifies book`lastProbeAttempt, pools.Repr()
    ensures pools.Valid() && pools.reg == old(pools.reg) && pools.byPool == old(pools.byPool)
    ensures var c := old(pools.View()).ctls[pool]; cleared <==> c.exhausted != map[] || c.parks != map[]
    ensures pools.View() == ClearedPool(old(pools.View()), pool)
    ensures book.lastProbeAttempt == if cleared then map[] else old(book.lastProbeAttempt)
  {
    hide P.ClearSiblings, C.Controller.View, Listing;
    ghost var s := pools.View();
    ghost var c := s.ctls[pool];
    var parks := CredentialParked(pools.byPool[pool]);
    var names := SortKeys(parks);
    var any := WipeParks(pools.byPool[pool]);
    P.OneChanged(s, pools.View(), pool, c.(exhausted := map[], parks := map[]));
    if !any {
      NothingListed(names, parks);
      return false;
    }
    book.ForgetAll();
    assert names[0..] == names;
    for i := 0 to |names|
      invariant pools.Valid() && pools.reg == old(pools.reg) && pools.byPool == old(pools.byPool)
      invariant book.lastProbeAttempt == map[]
      invariant ReleaseAll(pools.View(), pool, names[i..]) == ClearedPool(s, pool)
    {
      assert names[i..][0] == names[i] && names[i..][1..] == names[i + 1..];
      pools.PropagateClear(pool, names[i]);
    }
    return true;
  }

  lemma NothingListed(names: seq<string>, keys: set<string>)
    requires names == Listing(keys) && keys == {}
    ensures names == []
  {
    hide Listing;
    ElemsNonempty(names);
  }

  method CredentialParked(c: C.Controller) returns (names: set<string>)
    ensures names == c.View().parks.Keys
  {
    names := c.credentialPark.Keys;
  }

  method WipeParks(c: C.Controller) returns (any: bool)
    modifies c
    ensures c.View() == old(c.View()).(exhausted := map[], parks := map[])
    ensures any <==> old(c.View()).exhausted != map[] || old(c.View()).parks != map[]
  {
    any := c.exhausted != map[] || c.credentialPark != map[];
    c.exhausted, c.credentialPark := map[], map[];
  }

  lemma {:induction false} ReleasesExactly(s: State, pool: string, nicks: seq<string>, q: string)
    requires q in s.ctls
    ensures var t := ReleaseAll(s, pool, nicks);
      && t.reg == s.reg && t.ctls.Keys == s.ctls.Keys
      && t.ctls[q].parks == s.ctls[q].parks - (set n | n in nicks && q in P.Siblings(s, pool, n))
      && (q == pool ==> t.ctls[q] == s.ctls[q])
    decreases |nicks|
  {
    hide ResolveIn;
    if nicks != [] {
      var mid := P.ClearSiblings(s, pool, nicks[0]);
      ReleasesExactly(mid, pool, nicks[1..], q);
      assert forall n :: P.Siblings(mid, pool, n) == P.Siblings(s, pool, n);
      assert forall n :: n in nicks <==> n == nicks[0] || n in nicks[1..];
    }
  }

  /** A cleared pool has no park, and each sibling has lost exactly the parks mirrored from it. */
  lemma ClearsExactly(s: State, pool: string, q: string)
    requires pool in s.ctls && q in s.ctls
    ensures var t := ClearedPool(s, pool);
      && t.reg == s.reg && t.ctls.Keys == s.ctls.Keys
      && t.ctls[pool] == s.ctls[pool].(exhausted := map[], parks := map[])
      && (q != pool ==> t.ctls[q].parks == s.ctls[q].parks - Mirrored(s, pool, s.ctls[pool].parks.Keys, q))
  {
    hide ResolveIn, Listing, ReleaseAll;
    var c := s.ctls[pool];
    var wiped := s.(ctls := s.ctls[pool := c.(exhausted := map[], parks := map[])]);
    var names := Listing(c.parks.Keys);
    ReleasesExactly(wiped, pool, names, pool);
    ReleasesExactly(wiped, pool, names, q);
    assert forall n :: P.Siblings(wiped, pool, n) == P.Siblings(s, pool, n);
    assert forall n :: n in names <==> n in Elems(names);
    assert (set n | n in names && q in P.Siblings(wiped, pool, n)) == Mirrored(s, pool, c.parks.Keys, q);
  }
}
