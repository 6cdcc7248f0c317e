/**
 The activity ring: a fixed number of epoch buckets, recycled in place, a cap on paths
 per bucket, and a ring of latency samples per path, against the plain log of requests.
 */
module Activity {
  import opened Common

  const SAMPLE_CAP := 256
  const OTHER := "(other)"

  /** One request as the log line has it; `d` is its latency in nanoseconds. */
  datatype Request = Request(path: string, status: int, d: int, now: Time)

  predicate Ok2xx(status: int) { 200 <= status < 300 }

  /** Division truncating toward zero. */
  function Epoch(now: Time, granularity: Time): int
    requires granularity > 0
  {
    if now >= 0 then now / granularity else -((-now) / granularity)
  }

  // -------------------------------------------------------------- one path

  /** The fixed-size sample buffer. */
  type Ring = s: seq<int> | |s| == SAMPLE_CAP witness seq(SAMPLE_CAP, _ => 0)

  datatype PathStat = PathStat(count: nat, errors: nat, samples: Ring, n: nat)

  function NewStat(): PathStat { PathStat(0, 0, seq(SAMPLE_CAP, _ => 0), 0) }

  /** The next slot to write. */
  function Slot(n: nat): (r: nat)
    ensures r < SAMPLE_CAP
  {
    n % SAMPLE_CAP
  }

  lemma SlotSteps(n: nat)
    ensures Slot(n + 1) == if Slot(n) + 1 < SAMPLE_CAP then Slot(n) + 1 else 0
    ensures n < SAMPLE_CAP ==> Slot(n) == n
    ensures Slot(n) <= n
  {
  }

  /** `pathStat.record`: the next slot of the ring is overwritten. */
  function Note(p: PathStat, status: int, d: int): PathStat {
    PathStat(p.count + 1, if Ok2xx(status) then p.errors else p.errors + 1, p.samples[Slot(p.n) := d], p.n + 1)
  }

  /** The ring holds the latest samples of `ds`, wrapped around at the next write slot. */
  ghost predicate Holds(p: PathStat, ds: seq<int>) {
    var m := Slot(p.n);
    && p.n == |ds| && m <= p.n
    && p.samples[..m] == ds[|ds| - m..]
    && (p.n >= SAMPLE_CAP ==> p.samples[m..] == ds[|ds| - SAMPLE_CAP..|ds| - m])
  }

  lemma RingStep(samples: seq<int>, ds: seq<int>, m: nat, cap: nat, d: int)
    requires |samples| == cap && m < cap && m <= |ds| && samples[..m] == ds[|ds| - m..]
    requires if |ds| >= cap then samples[m..] == ds[|ds| - cap..|ds| - m] else m == |ds|
    ensures var out, es := samples[m := d], ds + [d];
      && out[..m + 1] == es[|es| - m - 1..]
      && (|es| >= cap ==> out[m + 1..] == es[|es| - cap..|es| - m - 1])
  {
    var out, es := samples[m := d], ds + [d];
    assert out[..m + 1] == samples[..m] + [d];
    if |es| >= cap {
      if |ds| >= cap { assert out[m + 1..] == samples[m..][1..]; } else { assert m + 1 == cap; }
    }
  }

  lemma NoteHolds(p: PathStat, ds: seq<int>, status: int, d: int)
    requires Holds(p, ds)
    ensures Holds(Note(p, status, d), ds + [d])
  {
    hide Slot;
    SlotSteps(p.n);
    RingStep(p.samples, ds, Slot(p.n), SAMPLE_CAP, d);
    if Slot(p.n) + 1 == SAMPLE_CAP { WholeTurn(Note(p, status, d).samples, ds + [d]); }
  }

  /** At the end of a turn the next slot is the first again. */
  lemma WholeTurn(samples: Ring, es: seq<int>)
    requires SAMPLE_CAP <= |es| && samples[..SAMPLE_CAP] == es[|es| - SAMPLE_CAP..]
    ensures samples[..0] == es[|es| - 0..] && samples[0..] == es[|es| - SAMPLE_CAP..|es| - 0]
  {
    assert samples[..SAMPLE_CAP] == samples == samples[0..];
    assert es[|es| - SAMPLE_CAP..|es| - 0] == es[|es| - SAMPLE_CAP..];
  }

  function Latest(ds: seq<int>): seq<int> { if |ds| <= SAMPLE_CAP then ds else ds[|ds| - SAMPLE_CAP..] }

  function Retained(p: PathStat): seq<int> { p.samples[..Min(p.n, SAMPLE_CAP)] }

  lemma RotatedTail(samples: seq<int>, ds: seq<int>, m: nat, cap: nat)
    requires |samples| == cap && m <= cap <= |ds|
    requires samples[..m] == ds[|ds| - m..] && samples[m..] == ds[|ds| - cap..|ds| - m]
    ensures multiset(samples) == multiset(ds[|ds| - cap..])
  {
    assert samples == samples[..m] + samples[m..];
    assert ds[|ds| - cap..] == ds[|ds| - cap..|ds| - m] + ds[|ds| - m..];
  }

  lemma RetainsLatest(p: PathStat, ds: seq<int>)
    requires Holds(p, ds)
    ensures multiset(Retained(p)) == multiset(Latest(ds)) && |Retained(p)| == |Latest(ds)|
    ensures Latest(ds) == if |ds| <= 256 then ds else ds[|ds| - 256..]
  {
    hide Slot;
    var m := Slot(p.n);
    SlotSteps(p.n);
    if p.n < SAMPLE_CAP {
      assert m == p.n && ds[|ds| - m..] == ds;
    } else {
      RotatedTail(p.samples, ds, m, SAMPLE_CAP);
      assert p.samples[..SAMPLE_CAP] == p.samples;
      assert |ds| == SAMPLE_CAP ==> ds[|ds| - SAMPLE_CAP..] == ds;
    }
  }

  // ------------------------------------------------------------- percentiles

  predicate Sorted(s: seq<int>) { forall i, j :: 0 <= i < j < |s| ==> s[i] <= s[j] }

  function InsertInt(x: int, s: seq<int>): (r: seq<int>)
    ensures multiset(r) == multiset(s) + multiset{x} && |r| == |s| + 1
  {
    if s == [] || x <= s[0] then [x] + s
    else
      assert s == [s[0]] + s[1..];
      [s[0]] + InsertInt(x, s[1..])
  }

  function SortInts(s: seq<int>): (r: seq<int>)
    ensures multiset(r) == multiset(s) && |r| == |s|
  {
    if s == [] then []
    else
      assert s == [s[0]] + s[1..];
      InsertInt(s[0], SortInts(s[1..]))
  }

  lemma {:induction false} InsertSorted(x: int, s: seq<int>)
    requires Sorted(s)
    ensures Sorted(InsertInt(x, s))
  {
    if s != [] && x > s[0] {
      InsertSorted(x, s[1..]);
      var t := InsertInt(x, s[1..]);
      forall j | 0 <= j < |t| ensures s[0] <= t[j] {
        assert t[j] in multiset(t);
        if t[j] != x { assert t[j] in multiset(s[1..]); assert t[j] in s[1..]; }
      }
    }
  }

  lemma {:induction false} SortSorted(s: seq<int>)
    ensures Sorted(SortInts(s))
  {
    if s != [] {
      SortSorted(s[1..]);
      InsertSorted(s[0], SortInts(s[1..]));
    }
  }

  lemma {:induction false} SortedUnique(a: seq<int>, b: seq<int>)
    requires Sorted(a) && Sorted(b) && multiset(a) == multiset(b)
    ensures a == b
  {
    assert |multiset(a)| == |multiset(b)|;
    if a != [] {
      LeastFirst(a, b);
      LeastFirst(b, a);
      Tail(a);
      Tail(b);
      SortedUnique(a[1..], b[1..]);
      assert a == [a[0]] + a[1..] && b == [b[0]] + b[1..];
    }
  }

  lemma LeastFirst(a: seq<int>, b: seq<int>)
    requires Sorted(a) && multiset(a) == multiset(b) && a != [] && b != []
    ensures a[0] <= b[0]
  {
    assert b[0] in multiset(b) && b[0] in multiset(a);
    assert b[0] in a;
  }

  lemma Tail(a: seq<int>)
    requires a != []
    ensures multiset(a[1..]) == multiset(a) - multiset{a[0]}
  {
    assert a == [a[0]] + a[1..];
  }

  function RankIndex(n: nat, pct: nat): (r: nat)
    requires n >= 1
    ensures r < n
  {
    var idx := (pct * n + 99) / 100 - 1;
    if idx < 0 then 0 else if idx >= n then n - 1 else idx
  }

  /** Zero for no samples at all. */
  function Percentile(s: seq<int>, pct: nat): int { if s == [] then 0 else SortInts(s)[RankIndex(|s|, pct)] }

  function Maximum(s: seq<int>): int { if s == [] then 0 else SortInts(s)[|s| - 1] }

  function AtMost(s: seq<int>, v: int): nat { |Select(s, x => x <= v)| }

  function Below(s: seq<int>, v: int): nat { |Select(s, x => x < v)| }

  function Select(s: seq<int>, keep: int -> bool): seq<int> {
    if s == [] then [] else (if keep(s[0]) then [s[0]] else []) + Select(s[1..], keep)
  }

  lemma {:induction false} SortedAbove(s: seq<int>, i: nat, keep: int -> bool)
    requires Sorted(s) && i <= |s|
    requires forall j :: 0 <= j < i ==> keep(s[j])
    ensures |Select(s, keep)| >= i
  {
    if i > 0 { SortedAbove(s[1..], i - 1, keep); }
  }

  lemma {:induction false} SortedBelow(s: seq<int>, i: nat, keep: int -> bool)
    requires i <= |s| && forall j :: i <= j < |s| ==> !keep(s[j])
    ensures |Select(s, keep)| <= i
  {
    if s != [] {
      if i > 0 { SortedBelow(s[1..], i - 1, keep); } else { SortedBelow(s[1..], 0, keep); }
    }
  }

  lemma {:induction false} InsertSelects(x: int, t: seq<int>, keep: int -> bool)
    ensures |Select(InsertInt(x, t), keep)| == |Select(t, keep)| + (if keep(x) then 1 else 0)
  {
    if t == [] || x <= t[0] {
      assert ([x] + t)[1..] == t;
    } else {
      InsertSelects(x, t[1..], keep);
      var rest := InsertInt(x, t[1..]);
      assert ([t[0]] + rest)[1..] == rest;
    }
  }

  lemma {:induction false} SortSelects(s: seq<int>, keep: int -> bool)
    ensures |Select(SortInts(s), keep)| == |Select(s, keep)|
  {
    if s != [] {
      SortSelects(s[1..], keep);
      InsertSelects(s[0], SortInts(s[1..]), keep);
    }
  }

  /** The value is the nearest-rank percentile: at least pct% of the samples are at most it, and fewer are below it. */
  lemma NearestRank(s: seq<int>, pct: nat)
    requires s != [] && 1 <= pct <= 100
    ensures var v := Percentile(s, pct);
      v in s && 100 * AtMost(s, v) >= pct * |s| && 100 * Below(s, v) < pct * |s|
  {
    hide SortInts, RankIndex, Select;
    var v, t := Percentile(s, pct), SortInts(s);
    SortSorted(s);
    Scaled(|s|, pct);
    AtRank(t, s, RankIndex(|s|, pct));
    SortSelects(s, x => x <= v);
    SortSelects(s, x => x < v);
    assert AtMost(t, v) == AtMost(s, v) && Below(t, v) == Below(s, v);
  }

  lemma AtRank(t: seq<int>, s: seq<int>, i: nat)
    requires Sorted(t) && i < |t| && multiset(t) == multiset(s)
    ensures t[i] in s && AtMost(t, t[i]) >= i + 1 && Below(t, t[i]) <= i
  {
    var v := t[i];
    assert v in multiset(t) && v in multiset(s);
    SortedAbove(t, i + 1, x => x <= v);
    SortedBelow(t, i, x => x < v);
  }

  lemma Scaled(n: nat, pct: nat)
    requires n >= 1 && 1 <= pct <= 100
    ensures 1 <= pct * n <= 100 * n
    ensures 100 * (RankIndex(n, pct) + 1) >= pct * n && 100 * RankIndex(n, pct) < pct * n
  {
    assert pct * n <= 100 * n && 1 * n <= pct * n;
  }

  lemma MaximumIs(s: seq<int>)
    requires s != []
    ensures Maximum(s) in s && forall x :: x in s ==> x <= Maximum(s)
  {
    var t := SortInts(s);
    SortSorted(s);
    assert t[|s| - 1] in multiset(t) && t[|s| - 1] in multiset(s);
    forall x | x in s ensures x <= Maximum(s) {
      assert x in multiset(s) && x in multiset(t) && x in t;
    }
  }

  /** Percentiles do not depend on the order of the samples. */
  lemma SameMultiset(a: seq<int>, b: seq<int>)
    requires multiset(a) == multiset(b)
    ensures SortInts(a) == SortInts(b) && |a| == |b|
  {
    SortSorted(a);
    SortSorted(b);
    SortedUnique(SortInts(a), SortInts(b));
  }

  // -------------------------------------------------------------- one bucket

  datatype Bucket = Bucket(epoch: int, paths: Option<map<string, PathStat>>, other: nat, otherErrors: nat)

  const UNUSED := Bucket(0, None, 0, 0)

  /** A slot of an older epoch, or never used, is recycled. */
  function Recycle(b: Bucket, epoch: int): (r: Bucket)
    ensures r.paths.Some? && r.epoch == epoch
  {
    if b.epoch != epoch || b.paths.None? then Bucket(epoch, Some(map[]), 0, 0) else b
  }

  function Add(b: Bucket, r: Request, maxPaths: nat): Bucket
    requires b.paths.Some?
  {
    var m := b.paths.value;
    if r.path in m then Bucket(b.epoch, Some(m[r.path := Note(m[r.path], r.status, r.d)]), b.other, b.otherErrors)
    else if |m| >= maxPaths then
      Bucket(b.epoch, b.paths, b.other + 1, if Ok2xx(r.status) then b.otherErrors else b.otherErrors + 1)
    else Bucket(b.epoch, Some(m[r.path := Note(NewStat(), r.status, r.d)]), b.other, b.otherErrors)
  }

  // ------------------------------------------------------------ the plain log

  /** The paths an epoch breaks out: the first `max` distinct ones. */
  function Tracked(recs: seq<Request>, max: nat): set<string> {
    if recs == [] then {}
    else
      var t, p := Tracked(recs[..|recs| - 1], max), recs[|recs| - 1].path;
      if p in t || |t| >= max then t else t + {p}
  }

  function Of(recs: seq<Request>, p: string): seq<Request> {
    if recs == [] then []
    else
      var rest, r := Of(recs[..|recs| - 1], p), recs[|recs| - 1];
      if r.path == p then rest + [r] else rest
  }

  function Untracked(recs: seq<Request>, tracked: set<string>): seq<Request> {
    if recs == [] then []
    else
      var rest, r := Untracked(recs[..|recs| - 1], tracked), recs[|recs| - 1];
      if r.path in tracked then rest else rest + [r]
  }

  function Failures(recs: seq<Request>): nat {
    if recs == [] then 0
    else Failures(recs[..|recs| - 1]) + (if Ok2xx(recs[|recs| - 1].status) then 0 else 1)
  }

  function Durations(recs: seq<Request>): seq<int> { seq(|recs|, i requires 0 <= i < |recs| => recs[i].d) }

  lemma {:induction false} AllTrackedBelowCap(recs: seq<Request>, max: nat, p: string)
    requires |Tracked(recs, max)| < max && p !in Tracked(recs, max)
    ensures Of(recs, p) == [] && Untracked(recs, Tracked(recs, max)) == [] && Untracked(recs, Tracked(recs, max) + {p}) == []
  {
    if recs != [] {
      var init, r := recs[..|recs| - 1], recs[|recs| - 1];
      var t := Tracked(init, max);
      AllTrackedBelowCap(init, max, p);
      if r.path !in t {
        AllTrackedBelowCap(init, max, r.path);
        NoneStays(init, t, Tracked(recs, max));
        NoneStays(init, t, Tracked(recs, max) + {p});
      }
    }
  }

  lemma {:induction false} NoneStays(recs: seq<Request>, t: set<string>, u: set<string>)
    requires Untracked(recs, t) == [] && t <= u
    ensures Untracked(recs, u) == []
  {
    if recs != [] { NoneStays(recs[..|recs| - 1], t, u); }
  }

  /** What a path's statistics stand for. */
  ghost predicate Stands(p: PathStat, recs: seq<Request>) {
    p.count == |recs| && p.errors == Failures(recs) && Holds(p, Durations(recs))
  }

  ghost function Pick(m: map<string, PathStat>): (k: string)
    requires m != map[]
    ensures k in m
  {
    var k :| k in m; k
  }

  /** The volume a bucket shows under its paths. */
  ghost function Total(m: map<string, PathStat>): nat {
    if m == map[] then 0 else var k := Pick(m); m[k].count + Total(m - {k})
  }

  lemma {:induction false} TotalPick(m: map<string, PathStat>, k: string)
    requires k in m
    ensures Total(m) == m[k].count + Total(m - {k})
    decreases |m|
  {
    var j := Pick(m);
    if j != k {
      TotalPick(m - {j}, k);
      TotalPick(m - {k}, j);
      assert m - {j} - {k} == m - {k} - {j};
    }
  }

  /** Tracked and untracked volumes add up to the number of records. */
  lemma {:induction false} VolumeConserved(b: Bucket, r: Request, max: nat)
    requires b.paths.Some?
    ensures var c := Add(b, r, max); Total(c.paths.value) + c.other == Total(b.paths.value) + b.other + 1
  {
    hide Total;
    var m, n := b.paths.value, Add(b, r, max).paths.value;
    if r.path in m || |m| < max {
      TotalPick(n, r.path);
      if r.path in m { TotalPick(m, r.path); }
      assert n - {r.path} == m - {r.path};
      assert r.path !in m ==> m - {r.path} == m;
    }
  }

  /** What a bucket stands for: the records of one epoch. */
  ghost predicate Summarises(b: Bucket, recs: seq<Request>, max: nat) {
    && b.paths.Some? && b.paths.value.Keys == Tracked(recs, max)
    && (forall p :: p in b.paths.value ==> Stands(b.paths.value[p], Of(recs, p)))
    && Total(b.paths.value) + b.other == |recs|
    && b.other == |Untracked(recs, Tracked(recs, max))| && b.otherErrors == Failures(Untracked(recs, Tracked(recs, max)))
  }

  lemma NoteStands(p: PathStat, recs: seq<Request>, r: Request)
    requires Stands(p, recs)
    ensures Stands(Note(p, r.status, r.d), recs + [r])
  {
    hide Holds;
    var more := recs + [r];
    assert more[..|more| - 1] == recs;
    assert Durations(more) == Durations(recs) + [r.d];
    NoteHolds(p, Durations(recs), r.status, r.d);
  }

  lemma NothingStands()
    ensures Stands(NewStat(), []) && forall max :: Summarises(Bucket(0, Some(map[]), 0, 0), [], max)
  {
  }

  lemma AddSummarises(b: Bucket, recs: seq<Request>, r: Request, max: nat)
    requires Summarises(b, recs, max)
    ensures Summarises(Add(b, r, max), recs + [r], max)
  {
    hide Stands, Failures, Note, Tracked, Of, Untracked, Total;
    VolumeConserved(b, r, max);
    var m, t := b.paths.value, Tracked(recs, max);
    assert |m| == |m.Keys| == |t|;
    TrackedMore(recs, r, max);
    forall p ensures Of(recs + [r], p) == if r.path == p then Of(recs, p) + [r] else Of(recs, p) { OfMore(recs, r, p); }
    if r.path in m {
      UntrackedMore(recs, r, t);
      NoteStands(m[r.path], Of(recs, r.path), r);
    } else if |t| >= max {
      UntrackedMore(recs, r, t);
      FailuresMore(Untracked(recs, t), r);
    } else {
      UntrackedMore(recs, r, t + {r.path});
      AllTrackedBelowCap(recs, max, r.path);
      NothingStands();
      NoteStands(NewStat(), [], r);
    }
  }

  lemma TrackedMore(recs: seq<Request>, r: Request, max: nat)
    ensures var t := Tracked(recs, max);
      Tracked(recs + [r], max) == if r.path in t || |t| >= max then t else t + {r.path}
  {
    assert (recs + [r])[..|recs|] == recs;
  }

  lemma OfMore(recs: seq<Request>, r: Request, p: string)
    ensures Of(recs + [r], p) == if r.path == p then Of(recs, p) + [r] else Of(recs, p)
  {
    assert (recs + [r])[..|recs|] == recs;
  }

  lemma UntrackedMore(recs: seq<Request>, r: Request, t: set<string>)
    ensures Untracked(recs + [r], t) == if r.path in t then Untracked(recs, t) else Untracked(recs, t) + [r]
  {
    assert (recs + [r])[..|recs|] == recs;
  }

  lemma FailuresMore(recs: seq<Request>, r: Request)
    ensures Failures(recs + [r]) == Failures(recs) + (if Ok2xx(r.status) then 0 else 1)
  {
    var more := recs + [r];
    assert more[..|more| - 1] == recs;
  }

  // ---------------------------------------------------------------- the ring

  ghost function InEpoch(log: seq<Request>, e: int, g: Time): seq<Request>
    requires g > 0
  {
    if log == [] then []
    else
      var rest, r := InEpoch(log[..|log| - 1], e, g), log[|log| - 1];
      if Epoch(r.now, g) == e then rest + [r] else rest
  }

  /** What a ring of buckets stands for at epoch `cur`: every epoch of the window ending there, and none after. */
  ghost predicate Mirrors(bs: seq<Bucket>, log: seq<Request>, g: Time, max: nat, cur: int)
    requires g > 0 && bs != []
  {
    forall e :: e > cur - |bs| ==> Agrees(bs[e % |bs|], InEpoch(log, e, g), e, max)
  }

  ghost predicate Agrees(b: Bucket, recs: seq<Request>, e: int, max: nat) {
    if recs == [] then b.paths.None? || b.epoch != e else b.epoch == e && Summarises(b, recs, max)
  }

  lemma SlotsApart(a: int, b: int, n: nat)
    requires n > 0 && a < b < a + n
    ensures a % n != b % n
  {
    var q := b / n - a / n;
    assert b - a == n * q + (b % n - a % n);
    MulSign(n, q);
  }

  /** No record is later than `cur`. */
  ghost predicate UpTo(log: seq<Request>, g: Time, cur: int)
    requires g > 0
  {
    forall r :: r in log ==> Epoch(r.now, g) <= cur
  }

  lemma {:induction false} NothingLater(log: seq<Request>, g: Time, cur: int, e: int)
    requires g > 0 && UpTo(log, g, cur) && e > cur
    ensures InEpoch(log, e, g) == []
  {
    hide Epoch;
    if log != [] {
      assert log[|log| - 1] in log;
      NothingLater(log[..|log| - 1], g, cur, e);
    }
  }

  function RecordIn(bs: seq<Bucket>, r: Request, g: Time, max: nat): (out: seq<Bucket>)
    requires g > 0 && bs != []
    ensures |out| == |bs|
  {
    var e := Epoch(r.now, g);
    bs[e % |bs| := Add(Recycle(bs[e % |bs|], e), r, max)]
  }

  lemma RecordMirrors(bs: seq<Bucket>, log: seq<Request>, r: Request, g: Time, max: nat, cur: int)
    requires g > 0 && bs != [] && Mirrors(bs, log, g, max, cur) && UpTo(log, g, cur) && cur <= Epoch(r.now, g)
    ensures var at := Epoch(r.now, g);
      Mirrors(RecordIn(bs, r, g, max), log + [r], g, max, at) && UpTo(log + [r], g, at)
  {
    hide Epoch, Summarises, Agrees;
    var at, out, more := Epoch(r.now, g), RecordIn(bs, r, g, max), log + [r];
    assert more[..|more| - 1] == log && more[|more| - 1] == r;
    forall e | e > at - |bs| ensures Agrees(out[e % |bs|], InEpoch(more, e, g), e, max) {
      assert e > cur - |bs|;
      assert Agrees(bs[e % |bs|], InEpoch(log, e, g), e, max);
      if e == at {
        AddAgrees(bs[e % |bs|], InEpoch(log, e, g), r, e, max);
      } else if e % |bs| == at % |bs| {
        if e < at { SlotsApart(e, at, |bs|); }
        NothingLater(log, g, cur, e);
        OtherEpoch(bs[e % |bs|], r, at, e, max);
      }
    }
  }

  lemma AddAgrees(b: Bucket, recs: seq<Request>, r: Request, e: int, max: nat)
    requires Agrees(b, recs, e, max)
    ensures Agrees(Add(Recycle(b, e), r, max), recs + [r], e, max)
  {
    hide Stands;
    NothingStands();
    AddSummarises(Recycle(b, e), recs, r, max);
  }

  lemma OtherEpoch(b: Bucket, r: Request, at: int, e: int, max: nat)
    requires e != at
    ensures Agrees(Add(Recycle(b, at), r, max), [], e, max)
  {
  }

  lemma NewMirrors(n: nat, g: Time, max: nat, cur: int)
    requires g > 0 && n > 0
    ensures Mirrors(seq(n, _ => UNUSED), [], g, max, cur)
  {
  }

  // ---------------------------------------------------------------- snapshots

  /** What a series shows of a path in one epoch; latencies in nanoseconds. */
  datatype Point = Point(epoch: int, volume: nat, errors: nat, errorRate: real, p50: int, p95: int, max: int)

  function Rate(errors: nat, total: nat): real { if total == 0 then 0.0 else errors as real / total as real }

  function PointOf(e: int, volume: nat, errors: nat, samples: seq<int>): Point {
    Point(e, volume, errors, Rate(errors, volume), Percentile(samples, 50), Percentile(samples, 95), Maximum(samples))
  }

  /** What a slot adds to the series of path `p`: nothing if it belongs to an epoch outside the window. */
  function PointsAt(b: Bucket, e: int, p: string): seq<Point> {
    if b.paths.None? || b.epoch != e then []
    else
      (if p in b.paths.value then
         [PointOf(e, b.paths.value[p].count, b.paths.value[p].errors, Retained(b.paths.value[p]))] else [])
      + (if p == OTHER && b.other > 0 then [PointOf(e, b.other, b.otherErrors, [])] else [])
  }

  function Series(bs: seq<Bucket>, p: string, lo: int, hi: int): seq<Point>
    requires bs != []
    decreases hi - lo
  {
    if lo > hi then [] else PointsAt(bs[lo % |bs|], lo, p) + Series(bs, p, lo + 1, hi)
  }

  /** What the log says of path `p` in epoch `e`, whose records are `recs`. */
  function Logged(recs: seq<Request>, e: int, p: string, max: nat): seq<Point> {
    var mine, others := Of(recs, p), Untracked(recs, Tracked(recs, max));
    (if p in Tracked(recs, max) then [PointOf(e, |mine|, Failures(mine), Latest(Durations(mine)))] else [])
    + (if p == OTHER && others != [] then [PointOf(e, |others|, Failures(others), [])] else [])
  }

  ghost function LoggedSeries(log: seq<Request>, p: string, lo: int, hi: int, g: Time, max: nat): seq<Point>
    requires g > 0
    decreases hi - lo
  {
    if lo > hi then [] else Logged(InEpoch(log, lo, g), lo, p, max) + LoggedSeries(log, p, lo + 1, hi, g, max)
  }

  lemma PointsExact(b: Bucket, recs: seq<Request>, e: int, p: string, max: nat)
    requires Agrees(b, recs, e, max)
    ensures PointsAt(b, e, p) == Logged(recs, e, p, max)
  {
    hide Percentile, Maximum, Holds, Total, Failures, Durations;
    if recs != [] && p in Tracked(recs, max) {
      var st, ds := b.paths.value[p], Durations(Of(recs, p));
      assert Stands(st, Of(recs, p));
      SamePercentiles(st, ds);
    }
  }

  lemma SamePercentiles(p: PathStat, ds: seq<int>)
    requires Holds(p, ds)
    ensures Maximum(Retained(p)) == Maximum(Latest(ds))
    ensures Percentile(Retained(p), 50) == Percentile(Latest(ds), 50) && Percentile(Retained(p), 95) == Percentile(Latest(ds), 95)
  {
    hide Holds, SortInts, Retained, Latest, RankIndex;
    RetainsLatest(p, ds);
    SameMultiset(Retained(p), Latest(ds));
  }

  lemma {:induction false} SeriesExact(bs: seq<Bucket>, log: seq<Request>, p: string, lo: int, hi: int, g: Time, max: nat, cur: int)
    requires g > 0 && bs != [] && Mirrors(bs, log, g, max, cur) && lo > cur - |bs|
    ensures Series(bs, p, lo, hi) == LoggedSeries(log, p, lo, hi, g, max)
    decreases hi - lo
  {
    hide PointsAt, Logged, Agrees;
    if lo <= hi {
      PointsExact(bs[lo % |bs|], InEpoch(log, lo, g), lo, p, max);
      SeriesExact(bs, log, p, lo + 1, hi, g, max, cur);
    }
  }

  /** The store after a log of requests. */
  function Run(log: seq<Request>, n: nat, g: Time, max: nat): (bs: seq<Bucket>)
    requires g > 0 && n > 0
    ensures |bs| == n
  {
    if log == [] then seq(n, _ => UNUSED) else RecordIn(Run(log[..|log| - 1], n, g, max), log[|log| - 1], g, max)
  }

  ghost predicate InOrder(log: seq<Request>, now: Time) {
    (forall i, j :: 0 <= i < j < |log| ==> log[i].now <= log[j].now) && (forall r :: r in log ==> r.now <= now)
  }

  lemma EpochMonotone(a: Time, b: Time, g: Time)
    requires g > 0 && a <= b
    ensures Epoch(a, g) <= Epoch(b, g)
  {
    if a >= 0 {
      DivMonotone(a, b, g);
    } else if b < 0 {
      DivMonotone(-b, -a, g);
    } else {
      DivMonotone(0, -a, g);
      DivMonotone(0, b, g);
    }
  }

  lemma DivMonotone(a: int, b: int, g: int)
    requires g > 0 && 0 <= a <= b
    ensures 0 <= a / g <= b / g
  {
    var q := a / g - b / g;
    assert a - b == g * q + (a % g - b % g);
    MulSign(g, q);
  }

  lemma MulSign(g: int, q: int)
    requires g > 0
    ensures q >= 1 ==> g * q >= g
    ensures q <= 0 ==> g * q <= 0
  {
  }

  lemma {:induction false} RunMirrors(log: seq<Request>, n: nat, g: Time, max: nat, now: Time)
    requires g > 0 && n > 0 && InOrder(log, now)
    ensures var cur := Epoch(now, g); Mirrors(Run(log, n, g, max), log, g, max, cur) && UpTo(log, g, cur)
  {
    hide Epoch, Mirrors, RecordIn;
    if log == [] {
      NewMirrors(n, g, max, Epoch(now, g));
    } else {
      var init, r := log[..|log| - 1], log[|log| - 1];
      assert log == init + [r] && r in log;
      forall x | x in init ensures x.now <= r.now {
        var i :| 0 <= i < |init| && init[i] == x;
        assert log[i] == x;
      }
      RunMirrors(init, n, g, max, r.now);
      RecordMirrors(Run(init, n, g, max), init, r, g, max, Epoch(r.now, g));
      EpochMonotone(r.now, now, g);
      MirrorsLater(Run(log, n, g, max), log, g, max, Epoch(r.now, g), Epoch(now, g));
    }
  }

  lemma MirrorsLater(bs: seq<Bucket>, log: seq<Request>, g: Time, max: nat, cur: int, later: int)
    requires g > 0 && bs != [] && Mirrors(bs, log, g, max, cur) && UpTo(log, g, cur) && cur <= later
    ensures Mirrors(bs, log, g, max, later) && UpTo(log, g, later)
  {
    hide Epoch, Agrees;
  }

  /**
   The ring agrees with the plain log: for requests in time order, every path's series over the
   last `n` epochs has the volume, the errors and the latest samples' percentiles of each.
   */
  lemma SnapshotExact(log: seq<Request>, n: nat, g: Time, max: nat, now: Time, p: string)
    requires g > 0 && n > 0 && InOrder(log, now)
    ensures var e := Epoch(now, g);
      Series(Run(log, n, g, max), p, e - n + 1, e) == LoggedSeries(log, p, e - n + 1, e, g, max)
  {
    hide Epoch, Mirrors, Series, LoggedSeries, Run;
    RunMirrors(log, n, g, max, now);
    var e := Epoch(now, g);
    SeriesExact(Run(log, n, g, max), log, p, e - n + 1, e, g, max, e);
  }

  /** An epoch of the window with requests shows them all: volumes under paths and under "(other)" add up. */
  lemma NothingLost(log: seq<Request>, n: nat, g: Time, max: nat, now: Time, e: int)
    requires g > 0 && n > 0 && InOrder(log, now) && e > Epoch(now, g) - n && InEpoch(log, e, g) != []
    ensures var b := Run(log, n, g, max)[e % n];
      b.paths.Some? && b.epoch == e && Total(b.paths.value) + b.other == |InEpoch(log, e, g)|
  {
    hide Epoch, Run, Total;
    RunMirrors(log, n, g, max, now);
    assert Agrees(Run(log, n, g, max)[e % n], InEpoch(log, e, g), e, max);
  }

  // --------------------------------------- what the plain log says, in plain terms

  /** An instant belongs to the whole number of intervals from zero to it; those on both sides of zero share number 0. */
  lemma EpochExactly(now: Time, g: Time)
    requires g > 0
    ensures var e := Epoch(now, g); if now >= 0 then g * e <= now < g * e + g else g * e - g < now <= g * e
  {
    if now < 0 { assert g * -((-now) / g) == -(g * ((-now) / g)); }
  }

  /** `some` are the requests of `all` at the places `at`, in that order. */
  ghost predicate Placed(all: seq<Request>, some: seq<Request>, at: seq<int>) {
    && |at| == |some| && (forall i, j :: 0 <= i < j < |at| ==> at[i] < at[j])
    && (forall i :: 0 <= i < |at| ==> 0 <= at[i] < |all| && some[i] == all[at[i]])
  }

  lemma PlacedMore(all: seq<Request>, some: seq<Request>, at: seq<int>, r: Request)
    requires Placed(all, some, at)
    ensures Placed(all + [r], some, at) && Placed(all + [r], some + [r], at + [|all|])
    ensures |all| !in at && forall k :: k in at + [|all|] <==> k in at || k == |all|
  {
  }

  /** The requests of an epoch are those whose instant belongs to it, in order. */
  lemma {:induction false} InEpochExactly(log: seq<Request>, e: int, g: Time) returns (at: seq<int>)
    requires g > 0
    ensures Placed(log, InEpoch(log, e, g), at) && forall k :: 0 <= k < |log| ==> (k in at <==> Epoch(log[k].now, g) == e)
  {
    hide Epoch, Placed;
    if log == [] {
      at := [];
      assert Placed(log, [], at) by { NothingPlaced(); }
    } else {
      var init, r := log[..|log| - 1], log[|log| - 1];
      assert log == init + [r];
      at := InEpochExactly(init, e, g);
      PlacedMore(init, InEpoch(init, e, g), at, r);
      if Epoch(r.now, g) == e { at := at + [|init|]; }
    }
  }

  lemma NothingPlaced()
    ensures Placed([], [], [])
  {
  }

  lemma {:induction false} OfExactly(recs: seq<Request>, p: string) returns (at: seq<int>)
    ensures Placed(recs, Of(recs, p), at) && forall k :: 0 <= k < |recs| ==> (k in at <==> recs[k].path == p)
  {
    hide Placed;
    if recs == [] {
      at := [];
      NothingPlaced();
    } else {
      var init, r := recs[..|recs| - 1], recs[|recs| - 1];
      assert recs == init + [r];
      at := OfExactly(init, p);
      PlacedMore(init, Of(init, p), at, r);
      if r.path == p { at := at + [|init|]; }
    }
  }

  lemma {:induction false} UntrackedExactly(recs: seq<Request>, t: set<string>) returns (at: seq<int>)
    ensures Placed(recs, Untracked(recs, t), at) && forall k :: 0 <= k < |recs| ==> (k in at <==> recs[k].path !in t)
  {
    hide Placed;
    if recs == [] {
      at := [];
      NothingPlaced();
    } else {
      var init, r := recs[..|recs| - 1], recs[|recs| - 1];
      assert recs == init + [r];
      at := UntrackedExactly(init, t);
      PlacedMore(init, Untracked(init, t), at, r);
      if r.path !in t { at := at + [|init|]; }
    }
  }

  /** The paths that occur. */
  ghost function Paths(recs: seq<Request>): set<string> { set r | r in recs :: r.path }

  lemma PathsMore(recs: seq<Request>, r: Request)
    ensures Paths(recs + [r]) == Paths(recs) + {r.path} && (recs + [r])[..|recs| + 1] == recs + [r]
  {
    forall x | x in Paths(recs) + {r.path} ensures x in Paths(recs + [r]) {
      if x == r.path { assert r in recs + [r]; } else { var q :| q in recs && q.path == x; assert q in recs + [r]; }
    }
  }

  /** Broken out are the paths that occur up to a point: to the end, or to where there are as many as may be. */
  lemma {:induction false} TrackedExactly(recs: seq<Request>, max: nat) returns (k: nat)
    ensures k <= |recs| && Tracked(recs, max) == Paths(recs[..k])
    ensures |Tracked(recs, max)| <= max && (k == |recs| || |Tracked(recs, max)| == max)
  {
    hide Paths, Tracked;
    if recs == [] {
      k := 0;
      NoPaths(max);
    } else {
      var init, r := recs[..|recs| - 1], recs[|recs| - 1];
      assert recs == init + [r];
      k := TrackedExactly(init, max);
      assert init[..k] == recs[..k];
      TrackedMore(init, r, max);
      if |Tracked(init, max)| < max {
        assert init[..k] == init;
        PathsMore(init, r);
        k := |recs|;
        assert recs[..k] == recs;
        assert r.path in Tracked(init, max) ==> Paths(init) + {r.path} == Paths(init);
      }
    }
  }

  lemma NoPaths(max: nat)
    ensures Paths([]) == {} && Tracked([], max) == {}
  {
  }

  /** The places of the answers outside 200 to 299. */
  ghost function Bad(recs: seq<Request>): set<int> { set k | 0 <= k < |recs| && !(200 <= recs[k].status <= 299) }

  lemma BadMore(recs: seq<Request>, r: Request)
    ensures Bad(recs + [r]) == if 200 <= r.status <= 299 then Bad(recs) else Bad(recs) + {|recs|}
    ensures |recs| !in Bad(recs)
  {
  }

  /** Each of them is a failure, and no other. */
  lemma {:induction false} FailuresExactly(recs: seq<Request>)
    ensures Failures(recs) == |Bad(recs)|
  {
    hide Bad, Failures;
    if recs == [] {
      NoFailures();
    } else {
      var init, r := recs[..|recs| - 1], recs[|recs| - 1];
      assert recs == init + [r];
      FailuresExactly(init);
      BadMore(init, r);
      FailuresMore(init, r);
    }
  }

  lemma NoFailures()
    ensures Failures([]) == 0 && Bad([]) == {}
  {
  }

  /** A point has the counts, their ratio, and the nearest-rank 50th and 95th percentiles and the maximum of the samples. */
  lemma PointExactly(e: int, volume: nat, errors: nat, samples: seq<int>)
    ensures var p := PointOf(e, volume, errors, samples);
      && p.epoch == e && p.volume == volume && p.errors == errors
      && (if volume > 0 then p.errorRate * volume as real == errors as real else p.errorRate == 0.0)
      && (samples == [] ==> p.p50 == 0 && p.p95 == 0 && p.max == 0)
      && (samples != [] ==>
            && p.p50 in samples && 100 * AtMost(samples, p.p50) >= 50 * |samples| && 100 * Below(samples, p.p50) < 50 * |samples|
            && p.p95 in samples && 100 * AtMost(samples, p.p95) >= 95 * |samples| && 100 * Below(samples, p.p95) < 95 * |samples|
            && p.max in samples && forall x :: x in samples ==> x <= p.max)
  {
    hide Percentile, Maximum, AtMost, Below;
    if samples != [] {
      NearestRank(samples, 50);
      NearestRank(samples, 95);
      MaximumIs(samples);
    } else {
      NoSamples();
    }
  }

  lemma NoSamples()
    ensures Percentile([], 50) == 0 && Percentile([], 95) == 0 && Maximum([]) == 0
  {
  }

  /** How many places there are. */
  lemma CountPlaced(all: seq<Request>, some: seq<Request>, at: seq<int>, places: set<int>)
    requires Placed(all, some, at) && forall k :: k in at <==> k in places
    ensures |some| == |places|
  {
    DistinctSize(at);
    forall k ensures k in Elems(at) <==> k in places { assert k in at <==> k in places; }
    assert Elems(at) == places;
  }

  /** Each request of an epoch is shown once: in the point of its path, or in that of the rest under "(other)". */
  lemma ShownOnce(recs: seq<Request>, e: int, max: nat, k: nat)
    requires k < |recs|
    ensures var p, t := recs[k].path, Tracked(recs, max);
      if p in t then
        var points := Logged(recs, e, p, max);
        points != [] && points[0].epoch == e && points[0].volume == |set i | 0 <= i < |recs| && recs[i].path == p|
      else
        var points := Logged(recs, e, "(other)", max);
        points != [] && points[|points| - 1].epoch == e
        && points[|points| - 1].volume == |set i | 0 <= i < |recs| && recs[i].path !in t|
  {
    hide Tracked, Of, Untracked, Placed, Failures, Percentile, Maximum;
    var p, t := recs[k].path, Tracked(recs, max);
    if p in t {
      var at := OfExactly(recs, p);
      PlacesIn(recs, Of(recs, p), at);
      CountPlaced(recs, Of(recs, p), at, set i | 0 <= i < |recs| && recs[i].path == p);
    } else {
      var at := UntrackedExactly(recs, t);
      PlacesIn(recs, Untracked(recs, t), at);
      CountPlaced(recs, Untracked(recs, t), at, set i | 0 <= i < |recs| && recs[i].path !in t);
      assert k in at;
      PlacesIn(recs, Untracked(recs, t), at);
    }
  }

  lemma PlacesIn(all: seq<Request>, some: seq<Request>, at: seq<int>)
    requires Placed(all, some, at)
    ensures (forall k :: k in at ==> 0 <= k < |all|) && (at != [] <==> some != [])
  {
  }

  // ------------------------------------------------------------- the store

  class Store {
    const buckets: array<Bucket>
    const granularity: Time
    const maxPaths: nat

    /** `NewWith`. */
    constructor (n: int, every: Time, paths: int)
      ensures Valid() && fresh(buckets) && buckets.Length == (if n < 1 then 1 else n)
      ensures granularity == (if every <= 0 then MINUTE else every) && maxPaths == (if paths < 1 then 1 else paths)
      ensures buckets[..] == Run([], buckets.Length, granularity, maxPaths)
    {
      var k := if n < 1 then 1 else n;
      buckets := new Bucket[k](_ => UNUSED);
      granularity := if every <= 0 then MINUTE else every;
      maxPaths := if paths < 1 then 1 else paths;
      new;
      assert buckets[..] == seq(k, _ => UNUSED);
    }

    ghost predicate Valid() { buckets.Length > 0 && granularity > 0 && maxPaths > 0 }

    /** `Record`: the slot is recycled if it belongs to another epoch. */
    method File(r: Request)
      requires Valid()
      modifies buckets
      ensures buckets[..] == RecordIn(old(buckets[..]), r, granularity, maxPaths)
    {
      hide Add, Recycle, Epoch;
      var e := Epoch(r.now, granularity);
      var slot := e % buckets.Length;
      var filed := AddTo(Recycle(buckets[slot], e), r);
      buckets[slot] := filed;
    }

    method AddTo(b: Bucket, r: Request) returns (c: Bucket)
      requires b.paths.Some?
      ensures c == Add(b, r, maxPaths)
    {
      hide Note;
      var m := b.paths.value;
      if r.path in m {
        var ps := Note(m[r.path], r.status, r.d);
        return b.(paths := Some(m[r.path := ps]));
      }
      if |m| >= maxPaths {
        c := b.(other := b.other + 1);
        if !Ok2xx(r.status) { c := c.(otherErrors := c.otherErrors + 1); }
        return;
      }
      var ps := Note(NewStat(), r.status, r.d);
      return b.(paths := Some(m[r.path := ps]));
    }

    /** The series of every path over the window ending at `now`, oldest first. */
    method Snapshot(now: Time) returns (out: map<string, seq<Point>>)
      requires Valid()
      ensures forall p :: var e := Epoch(now, granularity);
        Shown(out, p) == Series(buckets[..], p, e - buckets.Length + 1, e)
      ensures forall p :: p in out ==> out[p] != []
    {
      hide Epoch, PointsAt, Series;
      var epoch := Epoch(now, granularity);
      ghost var lo := epoch - buckets.Length + 1;
      out := map[];
      NoPoints(buckets[..], lo, lo - 1);
      for e := epoch - buckets.Length + 1 to epoch + 1
        invariant forall p :: Shown(out, p) == Series(buckets[..], p, lo, e - 1)
        invariant forall p :: p in out ==> out[p] != []
      {
        var b := buckets[e % buckets.Length];
        assert b == buckets[..][e % buckets.Length];
        forall p ensures Series(buckets[..], p, lo, e) == Series(buckets[..], p, lo, e - 1) + PointsAt(b, e, p) {
          SeriesMore(buckets[..], p, lo, e);
        }
        out := Append(out, b, e);
      }
    }

    /** Adds one slot's points at the end of the series so far. */
    static method Append(earlier: map<string, seq<Point>>, b: Bucket, e: int) returns (out: map<string, seq<Point>>)
      requires forall p :: p in earlier ==> earlier[p] != []
      ensures forall p :: Shown(out, p) == Shown(earlier, p) + PointsAt(b, e, p)
      ensures forall p :: p in out ==> out[p] != []
    {
      hide PointOf, StatPoints;
      PointsSplit(b, e);
      if b.paths.None? || b.epoch != e { return earlier; }
      out := AppendPaths(earlier, b, e);
      if b.other > 0 {
        var point := PointOf(e, b.other, b.otherErrors, []);
        out := out[OTHER := Shown(out, OTHER) + [point]];
      }
    }

    static method AppendPaths(earlier: map<string, seq<Point>>, b: Bucket, e: int) returns (out: map<string, seq<Point>>)
      requires b.paths.Some? && forall p :: p in earlier ==> earlier[p] != []
      ensures forall p :: Shown(out, p) == Shown(earlier, p) + StatPoints(b, e, p, {})
      ensures forall p :: p in out ==> out[p] != []
    {
      hide StatPoint;
      out := earlier;
      var todo := b.paths.value.Keys;
      while todo != {}
        invariant todo <= b.paths.value.Keys
        invariant forall p :: Shown(out, p) == Shown(earlier, p) + StatPoints(b, e, p, todo)
        invariant forall p :: p in out ==> out[p] != []
        decreases |todo|
      {
        var p :| p in todo;
        todo := todo - {p};
        var point := StatPoint(e, b.paths.value[p]);
        out := out[p := Shown(out, p) + [point]];
      }
    }
  }

  function OtherPoints(b: Bucket, e: int, p: string): seq<Point> {
    if p == OTHER && b.other > 0 then [PointOf(e, b.other, b.otherErrors, [])] else []
  }

  lemma PointsSplit(b: Bucket, e: int)
    ensures b.paths.None? || b.epoch != e ==> forall p :: PointsAt(b, e, p) == []
    ensures b.paths.Some? && b.epoch == e ==>
      forall p :: PointsAt(b, e, p) == StatPoints(b, e, p, {}) + OtherPoints(b, e, p)
  {
    hide PointOf;
  }

  function Shown(out: map<string, seq<Point>>, p: string): seq<Point> { if p in out then out[p] else [] }

  function StatPoint(e: int, st: PathStat): Point { PointOf(e, st.count, st.errors, Retained(st)) }

  /** The point of path `p`, unless it is still to come. */
  function StatPoints(b: Bucket, e: int, p: string, todo: set<string>): seq<Point> {
    if b.paths.Some? && p in b.paths.value && p !in todo then [StatPoint(e, b.paths.value[p])] else []
  }

  lemma NoPoints(bs: seq<Bucket>, lo: int, hi: int)
    requires bs != [] && hi < lo
    ensures forall p :: Series(bs, p, lo, hi) == []
  {
  }

  lemma {:induction false} SeriesMore(bs: seq<Bucket>, p: string, lo: int, hi: int)
    requires bs != [] && lo <= hi
    ensures Series(bs, p, lo, hi) == Series(bs, p, lo, hi - 1) + PointsAt(bs[hi % |bs|], hi, p)
    decreases hi - lo
  {
    hide PointsAt;
    if lo < hi { SeriesMore(bs, p, lo + 1, hi); }
  }
}
