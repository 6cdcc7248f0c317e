/**
 Worker affinity above concurrency 1: which members serve workers, and how requests
 move workers between them until the load is even.
 */
module Workers {
  import opened Common
  import opened Availability
  import opened Routing

  const IDLE_TTL: Time := HOUR

  /** The available members, in routing order. */
  function AvailableOf(c: Ctl, w: World, order: seq<string>): (r: seq<string>)
    ensures forall n :: n in r <==> n in order && Available(c, w, n)
    ensures |r| <= |order|
  {
    if order == [] then []
    else if Available(c, w, order[0]) then [order[0]] + AvailableOf(c, w, order[1..])
    else AvailableOf(c, w, order[1..])
  }

  /** `workerWindowLocked`: the first `concurrency` of them. */
  function WindowOf(c: Ctl, w: World): (r: seq<string>)
    ensures forall n :: n in r ==> n in c.order && Available(c, w, n)
  {
    var all := AvailableOf(c, w, c.order);
    if c.concurrency <= 0 then [] else all[..Min(c.concurrency, |all|)]
  }

  /** The workers assigned to `n`. */
  function Assigned(affinity: map<string, string>, n: string): set<string> {
    set x | x in affinity && affinity[x] == n
  }

  function Count(affinity: map<string, string>, n: string): nat { |Assigned(affinity, n)| }

  /** The least load over a window. */
  function Least(affinity: map<string, string>, window: seq<string>): (r: nat)
    requires window != []
    ensures exists n :: n in window && Count(affinity, n) == r
    ensures forall n :: n in window ==> r <= Count(affinity, n)
  {
    var last := window[|window| - 1];
    if |window| == 1 then Count(affinity, last)
    else
      var rest := window[..|window| - 1];
      assert window == rest + [last];
      Min(Least(affinity, rest), Count(affinity, last))
  }

  function IndexOf(s: seq<string>, n: string): (r: int)
    ensures if n in s then 0 <= r < |s| && s[r] == n else r == -1
  {
    if s == [] then -1 else if s[0] == n then 0
    else var r := IndexOf(s[1..], n); if r < 0 then -1 else r + 1
  }

  /** `i % n` for an index that has run past the end at most once. */
  function Wrap(i: nat, n: nat): nat
    requires i < 2 * n
  {
    if i < n then i else i - n
  }

  /** The first least-loaded slot at or after `start + k`, cyclically. */
  function PickFrom(affinity: map<string, string>, window: seq<string>, least: nat, start: nat, k: nat): (r: int)
    requires k <= |window| && (start < |window| || window == [])
    ensures r < |window| && (r >= 0 ==> Count(affinity, window[r]) == least)
    decreases |window| - k
  {
    if k == |window| then -1
    else
      var i := Wrap(start + k, |window|);
      if Count(affinity, window[i]) == least then i else PickFrom(affinity, window, least, start, k + 1)
  }

  lemma {:induction false} PickFinds(affinity: map<string, string>, window: seq<string>, least: nat, start: nat, k: nat, j: nat)
    requires k <= j < |window| && start < |window| && Count(affinity, window[Wrap(start + j, |window|)]) == least
    ensures PickFrom(affinity, window, least, start, k) >= 0
    decreases |window| - k
  {
    if k < j { PickFinds(affinity, window, least, start, k + 1, j); }
  }

  /** `nextWorkerReassignmentLocked`: a least-loaded window member, ties broken from the cursor. */
  function NextSlot(affinity: map<string, string>, window: seq<string>, cursor: string): int
    requires window != []
  {
    var at := IndexOf(window, cursor);
    PickFrom(affinity, window, Least(affinity, window), if at < 0 then 0 else at, 0)
  }

  lemma NextSlotLeast(affinity: map<string, string>, window: seq<string>, cursor: string)
    requires window != []
    ensures var i := NextSlot(affinity, window, cursor);
      0 <= i < |window| && Count(affinity, window[i]) == Least(affinity, window)
  {
    hide Count;
    var at := IndexOf(window, cursor);
    var start := if at < 0 then 0 else at;
    var least := Least(affinity, window);
    var n :| n in window && Count(affinity, n) == least;
    var i :| 0 <= i < |window| && window[i] == n;
    var j := if i >= start then i - start else i - start + |window|;
    PickFinds(affinity, window, least, start, 0, j);
  }

  /** The member `i` places on from slot `start`, cyclically. */
  function MemberAt(window: seq<string>, start: nat, i: nat): string
    requires start + i < 2 * |window|
  {
    window[Wrap(start + i, |window|)]
  }

  lemma {:induction false} PickFirst(affinity: map<string, string>, window: seq<string>, least: nat, start: nat, k: nat)
      returns (j: nat)
    requires k <= |window| && start < |window| && PickFrom(affinity, window, least, start, k) >= 0
    ensures k <= j < |window| && PickFrom(affinity, window, least, start, k) == Wrap(start + j, |window|)
    ensures forall i :: k <= i < j ==> Count(affinity, MemberAt(window, start, i)) != least
    decreases |window| - k
  {
    hide Count;
    if Count(affinity, MemberAt(window, start, k)) == least {
      j := k;
    } else {
      j := PickFirst(affinity, window, least, start, k + 1);
    }
  }

  /** Ties go round: every window member passed over between the cursor and the choice carries more. */
  lemma TiesGoRound(affinity: map<string, string>, window: seq<string>, at: nat) returns (j: nat)
    requires Distinct(window) && at < |window|
    ensures j < |window| && NextSlot(affinity, window, window[at]) == Wrap(at + j, |window|)
    ensures forall i :: 0 <= i < j ==> Count(affinity, MemberAt(window, at, i)) > Count(affinity, MemberAt(window, at, j))
  {
    hide Count;
    var least := Least(affinity, window);
    NextSlotLeast(affinity, window, window[at]);
    assert IndexOf(window, window[at]) == at;
    j := PickFirst(affinity, window, least, at, 0);
    forall i | 0 <= i < j ensures Count(affinity, MemberAt(window, at, i)) > least {
      assert MemberAt(window, at, i) in window;
    }
  }

  function NormalCursor(cursor: string, window: seq<string>): string {
    if cursor != "" && cursor in window then cursor else if window != [] then window[0] else ""
  }

  predicate Idle(c: Ctl, now: Time, x: string) { x in c.lastSeen && now - c.lastSeen[x] > IDLE_TTL }

  /** `pruneWorkerObservationsLocked`. */
  function PruneIdle(c: Ctl, now: Time): Ctl {
    c.(lastSeen := map x | x in c.lastSeen && !Idle(c, now, x) :: c.lastSeen[x],
       affinity := if c.concurrency > 1 then map x | x in c.affinity && !Idle(c, now, x) :: c.affinity[x] else c.affinity)
  }

  /** What precedes the choice of a member: lapsed parks, idle workers and a stray cursor go, the caller is seen. */
  function Prepare(c: Ctl, w: World, x: string): Ctl {
    var d := PruneIdle(ClearExpired(c, w.now), w.now);
    d.(lastSeen := d.lastSeen[x := w.now], cursor := NormalCursor(d.cursor, WindowOf(d, w)))
  }

  /** A worker stays while its member is in the window and carries at most one more than the least-loaded. */
  predicate Stays(c: Ctl, window: seq<string>, x: string) {
    && x in c.affinity && c.affinity[x] in window
    && Count(c.affinity, c.affinity[x]) - Least(c.affinity, window) < 2
  }

  /** `ResolveWorker` for a valid worker name. */
  function ResolveWorker(c: Ctl, w: World, x: string): (Ctl, Resolution) {
    if c.concurrency <= 1 then
      var d := PruneIdle(c, w.now);
      ResolveAuto(d.(lastSeen := d.lastSeen[x := w.now]), w)
    else
      var d := Prepare(c, w, x);
      var window := WindowOf(d, w);
      if Stays(d, window, x) && Backend(d, d.affinity[x]).Some? then
        (d, Resolution(Backend(d, d.affinity[x]), 0, false))
      else
        Reassign(d.(affinity := d.affinity - {x}), w, window, x)
  }

  /** What a worker gets when the window has nobody for it. */
  function NoWindow(d: Ctl, w: World): Resolution {
    var auth := AuthOnly(d, w);
    if auth.Some? && Backend(d, auth.value).Some? then Resolution(Backend(d, auth.value), 0, false) else DryAnswer(d, w)
  }

  function Reassign(d: Ctl, w: World, window: seq<string>, x: string): (Ctl, Resolution) {
    var slot := if window == [] then -1 else NextSlot(d.affinity, window, d.cursor);
    if 0 <= slot < |window| && Backend(d, window[slot]).Some? then
      (d.(affinity := d.affinity[x := window[slot]], cursor := window[Wrap(slot + 1, |window|)]),
       Resolution(Backend(d, window[slot]), 0, false))
    else
      var e := if 0 <= slot < |window| then d.(cursor := window[Wrap(slot + 1, |window|)]) else d;
      (e, NoWindow(d, w))
  }

  // --------------------------------------------------------------- the measure

  /** Workers assigned outside the window. */
  function Outside(affinity: map<string, string>, window: seq<string>): nat {
    |set x | x in affinity && affinity[x] !in window|
  }

  function Sq(n: nat): nat { n * n }

  lemma SqUp(n: nat)
    ensures Sq(n + 1) == Sq(n) + 2 * n + 1
  {
  }

  lemma SqSum(p: nat, q: nat)
    ensures Sq(p) + Sq(q) <= Sq(p + q)
  {
    assert (p + q) * (p + q) == p * p + 2 * (p * q) + q * q;
  }

  lemma SqMonotone(p: nat, q: nat)
    requires p <= q
    ensures Sq(p) <= Sq(q)
  {
    assert p * p <= p * q <= q * q;
  }

  /** The sum of the squared loads of the window members. */
  function Squares(affinity: map<string, string>, window: seq<string>): nat {
    if window == [] then 0
    else
      var n := Count(affinity, window[|window| - 1]);
      Sq(n) + Squares(affinity, window[..|window| - 1])
  }

  lemma CountMove(affinity: map<string, string>, x: string, to: string, n: string)
    requires x in affinity && affinity[x] != to
    ensures Count(affinity[x := to], n)
         == Count(affinity, n) + (if n == to then 1 else 0) - (if n == affinity[x] then 1 else 0)
  {
    var a, b := Assigned(affinity, n), Assigned(affinity[x := to], n);
    if n == to {
      assert b == a + {x} && x !in a;
    } else if n == affinity[x] {
      assert b == a - {x} && x in a;
    } else {
      assert b == a;
    }
  }

  lemma CountDrop(affinity: map<string, string>, x: string, n: string)
    ensures Count(affinity - {x}, n) == Count(affinity, n) - (if x in affinity && affinity[x] == n then 1 else 0)
  {
    var a, b := Assigned(affinity, n), Assigned(affinity - {x}, n);
    assert b == a - {x};
  }

  /** How moving `x` between members shows in the sum of squares. */
  lemma {:induction false} SquaresMove(affinity: map<string, string>, window: seq<string>, x: string, to: string)
    requires x in affinity && affinity[x] != to && Distinct(window)
    ensures var from, after := affinity[x], affinity[x := to];
      Squares(after, window) == Squares(affinity, window)
        + (if to in window then 2 * Count(affinity, to) + 1 else 0)
        - (if from in window then 2 * Count(affinity, from) - 1 else 0)
  {
    hide Count, Sq;
    if window != [] {
      var k := |window| - 1;
      var last, rest := window[k], window[..k];
      SquaresMove(affinity, rest, x, to);
      CountMove(affinity, x, to, last);
      SqUp(Count(affinity, last));
      if last == affinity[x] { SqUp(Count(affinity, last) - 1); }
      assert window == rest + [last];
      assert forall n :: n in window <==> n in rest || n == last;
      assert last !in rest;
    }
  }

  lemma OutsideMove(affinity: map<string, string>, window: seq<string>, x: string, to: string)
    requires x in affinity && to in window
    ensures Outside(affinity[x := to], window) == Outside(affinity, window) - (if affinity[x] in window then 0 else 1)
  {
    var a := set y | y in affinity && affinity[y] !in window;
    var after := affinity[x := to];
    var b := set y | y in after && after[y] !in window;
    assert b == a - {x};
  }

  /** The lexicographic measure of imbalance. */
  ghost predicate Smaller(a: map<string, string>, b: map<string, string>, window: seq<string>) {
    || Outside(a, window) < Outside(b, window)
    || (Outside(a, window) == Outside(b, window) && Squares(a, window) < Squares(b, window))
  }

  /** A quiet stretch: no assigned worker has gone idle. Parks may have lapsed unswept. */
  ghost predicate Settled(c: Ctl, w: World) {
    WF(c) && c.concurrency > 1 && forall x :: x in c.affinity ==> !Idle(c, w.now, x)
  }

  lemma WindowStable(c: Ctl, w: World, lastSeen: map<string, Time>, affinity: map<string, string>, cursor: string)
    ensures var d := c.(lastSeen := lastSeen, affinity := affinity, cursor := cursor);
      WindowOf(d, w) == WindowOf(c, w) && (forall n :: Unavailable(d, w, n) == Unavailable(c, w, n))
  {
    var d := c.(lastSeen := lastSeen, affinity := affinity, cursor := cursor);
    forall n ensures Unavailable(d, w, n) == Unavailable(c, w, n) {
      assert Reconciling(d, w, n) == Reconciling(c, w, n) && StoreBound(d, w, n) == StoreBound(c, w, n);
      assert ExhaustedBound(d, w, n) == ExhaustedBound(c, w, n) && ParkBound(d, w, n) == ParkBound(c, w, n);
    }
    AvailableStable(c, d, w, c.order);
  }

  lemma {:induction false} AvailableStable(c: Ctl, d: Ctl, w: World, order: seq<string>)
    requires forall n :: n in order ==> Unavailable(d, w, n) == Unavailable(c, w, n)
    ensures AvailableOf(d, w, order) == AvailableOf(c, w, order)
  {
    if order != [] { AvailableStable(c, d, w, order[1..]); }
  }

  lemma {:induction false} AvailableDistinct(c: Ctl, w: World, order: seq<string>)
    requires Distinct(order)
    ensures Distinct(AvailableOf(c, w, order))
  {
    if order != [] {
      AvailableDistinct(c, w, order[1..]);
      assert forall n :: n in order[1..] ==> n != order[0];
    }
  }

  /** What one request does to the assignment in a quiet stretch. */
  ghost predicate MovedOne(a: map<string, string>, b: map<string, string>, x: string, window: seq<string>) {
    x in b && b == a[x := b[x]] && b[x] in window
  }

  lemma {:induction false} AvailableCleared(c: Ctl, w: World, order: seq<string>)
    ensures AvailableOf(ClearExpired(c, w.now), w, order) == AvailableOf(c, w, order)
  {
    hide Unavailable, ClearExpired;
    if order != [] {
      ClearKeeps(c, w, order[0]);
      AvailableCleared(c, w, order[1..]);
    }
  }

  lemma PrepareSettled(c: Ctl, w: World, x: string)
    requires Settled(c, w)
    ensures var d := Prepare(c, w, x);
      && d == ClearExpired(c, w.now).(lastSeen := d.lastSeen, cursor := d.cursor) && Settled(d, w)
      && d.members == c.members && d.affinity == c.affinity
      && WindowOf(d, w) == WindowOf(c, w) && d.cursor == NormalCursor(c.cursor, WindowOf(c, w))
  {
    hide Unavailable, NormalCursor, AvailableOf;
    var e := ClearExpired(c, w.now);
    AvailableCleared(c, w, c.order);
    assert forall y :: Idle(e, w.now, y) == Idle(c, w.now, y);
    var f := PruneIdle(e, w.now);
    assert f.affinity == c.affinity;
    WindowStable(e, w, f.lastSeen, f.affinity, f.cursor);
    var d := Prepare(c, w, x);
    WindowStable(f, w, d.lastSeen, d.affinity, d.cursor);
    assert forall n :: Backend(d, n) == Backend(c, n);
    forall y | y in d.affinity ensures !Idle(d, w.now, y) {
      if y != x { assert !Idle(c, w.now, y); }
    }
  }

  /** A request changes the assignment of no other worker that is still live, in whatever state it comes. */
  lemma OthersKept(c: Ctl, w: World, x: string, y: string)
    requires y in c.affinity && y != x && !Idle(c, w.now, y)
    ensures var after := ResolveWorker(c, w, x).0.affinity;
      y in after && after[y] == c.affinity[y]
  {
    hide Stays, WindowOf, NormalCursor, NextSlot, AuthOnly, DryAnswer, Find, ResolveAuto;
    if c.concurrency <= 1 {
      var d := PruneIdle(c, w.now);
      AutoFields(d.(lastSeen := d.lastSeen[x := w.now]), w);
    } else {
      assert !Idle(ClearExpired(c, w.now), w.now, y);
    }
  }

  lemma WindowDistinct(c: Ctl, w: World)
    requires WF(c)
    ensures Distinct(WindowOf(c, w)) && (forall n :: n in WindowOf(c, w) ==> Backend(c, n).Some?)
  {
    AvailableDistinct(c, w, c.order);
  }

  /** One request by an assigned worker: it stays, or it moves to a least-loaded window member. */
  lemma RequestMoves(c: Ctl, w: World, x: string)
    requires Settled(c, w) && x in c.affinity && WindowOf(c, w) != []
    ensures var window := WindowOf(c, w);
      var (d, r) := ResolveWorker(c, w, x);
      && Settled(d, w) && WindowOf(d, w) == window && d.affinity.Keys == c.affinity.Keys && !r.dry
      && r.backend == Backend(c, d.affinity[x])
      && (if Stays(c, window, x) then d.affinity == c.affinity
          else MovedOne(c.affinity, d.affinity, x, window)
               && Count(c.affinity - {x}, d.affinity[x]) == Least(c.affinity - {x}, window))
  {
    hide WindowOf, NormalCursor, Least, Count, NextSlot, Reassign, Prepare, Settled, Find, ClearExpired;
    var window := WindowOf(c, w);
    PrepareSettled(c, w, x);
    SettledFacts(c, w);
    var d := Prepare(c, w, x);
    if !Stays(c, window, x) {
      var e := d.(affinity := d.affinity - {x});
      ReassignSlot(e, w, window, x);
      SettledStays(d, w, Reassign(e, w, window, x).0);
      assert e.affinity[x := ResolveWorker(c, w, x).0.affinity[x]] == c.affinity[x := ResolveWorker(c, w, x).0.affinity[x]];
    }
  }

  // ------------------------------------------------ a request, in any state

  /** The first `k` of the order hold the whole window, and either it is full or that is everybody. */
  ghost predicate CutAt(c: Ctl, w: World, window: seq<string>, k: nat) {
    && k <= |c.order| && (forall n :: n in window <==> n in c.order[..k] && Available(c, w, n))
    && (|window| == Max(0, c.concurrency) || (k == |c.order| && |window| < c.concurrency))
  }

  ghost predicate ListedBefore(order: seq<string>, m: string, n: string) {
    exists a, b :: 0 <= a < b < |order| && order[a] == m && order[b] == n
  }

  /** The window is the available members among the first so many of the order, as listed there, `concurrency` of them if there are. */
  lemma WindowExactly(c: Ctl, w: World) returns (k: nat)
    ensures CutAt(c, w, WindowOf(c, w), k)
    ensures forall i, j :: 0 <= i < j < |WindowOf(c, w)| ==> ListedBefore(c.order, WindowOf(c, w)[i], WindowOf(c, w)[j])
  {
    hide Unavailable;
    var window, all := WindowOf(c, w), AvailableOf(c, w, c.order);
    k := CutOf(c, w, c.order, Max(0, c.concurrency));
    forall i, j | 0 <= i < j < |window| ensures ListedBefore(c.order, window[i], window[j]) {
      assert window[i] == all[i] && window[j] == all[j];
      ListedInOrder(c, w, c.order, i, j);
    }
  }

  lemma {:induction false} CutOf(c: Ctl, w: World, order: seq<string>, most: nat) returns (k: nat)
    ensures var all := AvailableOf(c, w, order); var window := all[..Min(most, |all|)];
      && k <= |order| && (forall n :: n in window <==> n in order[..k] && Available(c, w, n))
      && (|window| == most || (k == |order| && |window| < most))
    decreases |order|
  {
    hide Unavailable;
    if order == [] || most == 0 {
      k := 0;
    } else {
      var rest := order[1..];
      if Available(c, w, order[0]) {
        k := CutOf(c, w, rest, most - 1);
        var all := AvailableOf(c, w, rest);
        assert AvailableOf(c, w, order)[..Min(most, |all| + 1)] == [order[0]] + all[..Min(most - 1, |all|)];
      } else {
        k := CutOf(c, w, rest, most);
      }
      assert order[..k + 1] == [order[0]] + rest[..k];
      k := k + 1;
    }
  }

  lemma {:induction false} ListedInOrder(c: Ctl, w: World, order: seq<string>, i: nat, j: nat)
    requires i < j < |AvailableOf(c, w, order)|
    ensures var all := AvailableOf(c, w, order); ListedBefore(order, all[i], all[j])
  {
    hide Unavailable;
    var all, rest := AvailableOf(c, w, order), order[1..];
    if !Available(c, w, order[0]) || i > 0 {
      var d := if Available(c, w, order[0]) then 1 else 0;
      ListedInOrder(c, w, rest, i - d, j - d);
      var a, b :| 0 <= a < b < |rest| && rest[a] == all[i] && rest[b] == all[j];
      assert order[a + 1] == all[i] && order[b + 1] == all[j];
    } else {
      assert all[j] in AvailableOf(c, w, rest);
      var b :| 0 <= b < |rest| && rest[b] == all[j];
      assert order[0] == all[i] && order[b + 1] == all[j];
    }
  }

  /** Seen within the last hour, or never seen since it was assigned. */
  ghost predicate Alive(c: Ctl, now: Time, y: string) { y in c.lastSeen ==> now - c.lastSeen[y] <= HOUR }

  /** The assignments that still stand. */
  ghost function Standing(c: Ctl, now: Time): map<string, string> {
    map y | y in c.affinity && Alive(c, now, y) :: c.affinity[y]
  }

  lemma PrepareIs(c: Ctl, w: World, x: string)
    requires c.concurrency > 1
    ensures var d := Prepare(c, w, x);
      && d == ClearExpired(c, w.now).(lastSeen := d.lastSeen, affinity := Standing(c, w.now), cursor := d.cursor)
      && d.members == c.members && d.order == c.order && d.cur == c.cur && d.disabled == c.disabled
      && WindowOf(d, w) == WindowOf(c, w) && d.cursor == NormalCursor(c.cursor, WindowOf(c, w))
      && (forall n :: Unavailable(d, w, n) == Unavailable(c, w, n) && ExhaustedUntil(d, w, n) == ExhaustedUntil(c, w, n))
      && (forall y :: y in d.lastSeen <==> y == x || (y in c.lastSeen && w.now - c.lastSeen[y] <= HOUR))
      && d.lastSeen[x] == w.now && (forall y :: y in d.lastSeen && y != x ==> d.lastSeen[y] == c.lastSeen[y])
  {
    hide Unavailable, NormalCursor, AvailableOf, ExhaustedUntil;
    var e := ClearExpired(c, w.now);
    AvailableCleared(c, w, c.order);
    forall n { ClearKeeps(c, w, n); }
    var f := PruneIdle(e, w.now);
    assert f.affinity == Standing(c, w.now);
    WindowStable(e, w, f.lastSeen, f.affinity, f.cursor);
    BoundsStable(e, w, f.lastSeen, f.affinity, f.cursor);
    var d := Prepare(c, w, x);
    WindowStable(f, w, d.lastSeen, d.affinity, d.cursor);
    BoundsStable(f, w, d.lastSeen, d.affinity, d.cursor);
  }

  lemma BoundsStable(c: Ctl, w: World, lastSeen: map<string, Time>, affinity: map<string, string>, cursor: string)
    ensures var d := c.(lastSeen := lastSeen, affinity := affinity, cursor := cursor);
      forall n :: ExhaustedUntil(d, w, n) == ExhaustedUntil(c, w, n)
  {
    var d := c.(lastSeen := lastSeen, affinity := affinity, cursor := cursor);
    forall n ensures ExhaustedUntil(d, w, n) == ExhaustedUntil(c, w, n) {
      assert Reconciling(d, w, n) == Reconciling(c, w, n) && StoreBound(d, w, n) == StoreBound(c, w, n);
      assert ExhaustedBound(d, w, n) == ExhaustedBound(c, w, n) && ParkBound(d, w, n) == ParkBound(c, w, n);
    }
  }

  /**
   With somebody available a request, by a known worker or a new one, drops the assignments of workers unseen for
   an hour, and leaves its own or takes a least-loaded member of the window; it answers with that member.
   */
  lemma RequestServed(c: Ctl, w: World, x: string)
    requires WF(c) && c.concurrency > 1 && WindowOf(c, w) != []
    ensures var window, live := WindowOf(c, w), Standing(c, w.now);
      var (d, r) := ResolveWorker(c, w, x);
      && d.cur == c.cur && x in d.affinity && d.affinity[x] in window && x in d.lastSeen && d.lastSeen[x] == w.now
      && r == Resolution(Backend(c, d.affinity[x]), 0, false) && r.backend.Some?
      && (if x in live && live[x] in window && Count(live, live[x]) <= Least(live, window) + 1 then d.affinity == live
          else d.affinity == live[x := d.affinity[x]] && Count(live - {x}, d.affinity[x]) == Least(live - {x}, window))
  {
    hide WindowOf, NormalCursor, Least, Count, NextSlot, Reassign, Prepare, Find, ClearExpired, ExhaustedUntil, Unavailable, Standing;
    var window, d := WindowOf(c, w), Prepare(c, w, x);
    PrepareIs(c, w, x);
    WindowDistinct(c, w);
    var live := Standing(c, w.now);
    assert d.affinity == live;
    if !Stays(d, window, x) {
      var e := d.(affinity := d.affinity - {x});
      ReassignSlot(e, w, window, x);
      assert (live - {x})[x := ResolveWorker(c, w, x).0.affinity[x]] == live[x := ResolveWorker(c, w, x).0.affinity[x]];
    }
  }

  /** A moving worker takes the first least-loaded member from the cursor on, and the cursor goes on to the one after it. */
  lemma RequestRotates(c: Ctl, w: World, x: string) returns (j: nat)
    requires WF(c) && c.concurrency > 1 && WindowOf(c, w) != []
    requires var window, live := WindowOf(c, w), Standing(c, w.now);
      !(x in live && live[x] in window && Count(live, live[x]) <= Least(live, window) + 1)
    ensures var window, live := WindowOf(c, w), Standing(c, w.now) - {x};
      var start := if c.cursor in window then IndexOf(window, c.cursor) else 0;
      var d := ResolveWorker(c, w, x).0;
      && j < |window| && x in d.affinity && d.affinity[x] == MemberAt(window, start, j)
      && (forall i :: 0 <= i < j ==> Count(live, MemberAt(window, start, i)) > Count(live, MemberAt(window, start, j)))
      && d.cursor == MemberAt(window, Wrap(start + j, |window|), 1)
  {
    hide WindowOf, Least, Count, NextSlot, Reassign, Prepare, Find, ClearExpired, ExhaustedUntil, Unavailable, Standing, NormalCursor;
    var window, d := WindowOf(c, w), Prepare(c, w, x);
    PrepareIs(c, w, x);
    WindowDistinct(c, w);
    var start := if c.cursor in window then IndexOf(window, c.cursor) else 0;
    CursorAt(c, w, start);
    var e := d.(affinity := d.affinity - {x});
    j := RotatesFrom(e, w, window, x, start);
    assert d.affinity == Standing(c, w.now);
    assert !Stays(d, window, x);
  }

  lemma RotatesFrom(d: Ctl, w: World, window: seq<string>, x: string, start: nat) returns (j: nat)
    requires Distinct(window) && start < |window| && d.cursor == window[start] && forall n :: n in window ==> Backend(d, n).Some?
    ensures var e := Reassign(d, w, window, x).0;
      && j < |window| && x in e.affinity && e.affinity[x] == MemberAt(window, start, j)
      && (forall i :: 0 <= i < j ==>
            Count(d.affinity, MemberAt(window, start, i)) > Count(d.affinity, MemberAt(window, start, j)))
      && e.cursor == MemberAt(window, Wrap(start + j, |window|), 1)
  {
    hide Count, NextSlot, Find, Least;
    j := TiesGoRound(d.affinity, window, start);
  }

  lemma CursorAt(c: Ctl, w: World, start: nat)
    requires WF(c) && WindowOf(c, w) != []
    requires var window := WindowOf(c, w); start == if c.cursor in window then IndexOf(window, c.cursor) else 0
    ensures var window := WindowOf(c, w); start < |window| && NormalCursor(c.cursor, window) == window[start]
  {
    hide AvailableOf;
    assert "" !in c.order;
  }

  /**
   With nobody available the caller is left unassigned. It is told to wait as a dry pool waits, unless every
   enabled member is kept out by rejections alone: then it gets the first of them.
   */
  lemma NobodyServes(c: Ctl, w: World, x: string)
    requires WF(c) && c.concurrency > 1 && !SomeAvailable(c, w)
    ensures var (d, r) := ResolveWorker(c, w, x);
      && x !in d.affinity && d.affinity == Standing(c, w.now) - {x} && d.cur == c.cur
      && (r.dry <==> !AuthOnlyPool(c, w))
      && (!r.dry ==> r.backend.Some? && Serves(c, r, r.backend.value.nick) && HighestEnabled(c, r.backend.value.nick))
      && (r.dry ==> exists cur :: DryUntil(c, w, cur, r))
  {
    hide NormalCursor, Prepare, Find, ClearExpired, ExhaustedUntil, Unavailable, Standing, WF, AuthOnlyPool, HighestEnabled, DryUntil;
    var d := Prepare(c, w, x);
    PrepareIs(c, w, x);
    NoWindowThere(c, w);
    var e := d.(affinity := d.affinity - {x});
    WindowStable(d, w, e.lastSeen, e.affinity, e.cursor);
    BoundsStable(d, w, e.lastSeen, e.affinity, e.cursor);
    SameTiers(c, e, w);
    TiersCarry(c, e, w, NoWindow(e, w), SoonestDue(e, w).nick);
    WaitsAsDry(e, w);
  }

  lemma NoWindowThere(c: Ctl, w: World)
    requires !SomeAvailable(c, w)
    ensures WindowOf(c, w) == []
  {
    hide Unavailable;
    ElemsNonempty(WindowOf(c, w));
    assert forall n :: n in WindowOf(c, w) ==> n in c.order && Available(c, w, n);
  }

  /** The lowest tiers, on their own. */
  lemma WaitsAsDry(c: Ctl, w: World)
    requires WF(c) && !SomeAvailable(c, w)
    ensures var r := NoWindow(c, w);
      && (r.dry <==> !AuthOnlyPool(c, w))
      && (!r.dry ==> r.backend.Some? && Serves(c, r, r.backend.value.nick) && HighestEnabled(c, r.backend.value.nick))
      && (r.dry ==> DryUntil(c, w, SoonestDue(c, w).nick, r))
  {
    hide ExhaustedUntil, FirstEnabled, AuthParked, SolelyRejected, DryUntil, SoonestDue, DryAnswer, Find, HighestEnabled;
    assert c.order[0..] == c.order;
    FirstEnabledHighest(c, 0);
    forall n { SameReading(c, w, n); }
    DryTier(c, w);
  }

  /** Nothing the tiers read differs. */
  ghost predicate SameForTiers(c: Ctl, d: Ctl, w: World) {
    && d.members == c.members && d.order == c.order && d.disabled == c.disabled && d.cur == c.cur
    && (forall n :: Unavailable(d, w, n) == Unavailable(c, w, n) && ExhaustedUntil(d, w, n) == ExhaustedUntil(c, w, n))
    && (forall n :: OnRecord(d, w.now, n) == OnRecord(c, w.now, n) && SolelyRejected(d, w, n) == SolelyRejected(c, w, n))
  }

  lemma SameTiers(c: Ctl, d: Ctl, w: World)
    requires var e := ClearExpired(c, w.now); d == e.(lastSeen := d.lastSeen, affinity := d.affinity, cursor := d.cursor)
    ensures SameForTiers(c, d, w)
  {
    hide ExhaustedUntil, Unavailable, ClearExpired, OnRecord, SolelyRejected;
    var e := ClearExpired(c, w.now);
    forall n { ClearKeeps(c, w, n); }
    forall n { ClearReads(c, w, n); }
    WindowStable(e, w, d.lastSeen, d.affinity, d.cursor);
    BoundsStable(e, w, d.lastSeen, d.affinity, d.cursor);
    LapsedGo(c, w.now, "");
    forall n { ReadsStable(e, d, w, n); }
  }

  lemma ReadsStable(c: Ctl, d: Ctl, w: World, n: string)
    requires d == c.(lastSeen := d.lastSeen, affinity := d.affinity, cursor := d.cursor)
    ensures OnRecord(d, w.now, n) == OnRecord(c, w.now, n) && SolelyRejected(d, w, n) == SolelyRejected(c, w, n)
  {
    hide Find;
    assert forall b :: StoreHolds(d, w, n, b) == StoreHolds(c, w, n, b);
  }

  lemma TiersCarry(c: Ctl, d: Ctl, w: World, r: Resolution, cur: string)
    requires SameForTiers(c, d, w)
    ensures (WF(d) <==> WF(c)) && SomeAvailable(d, w) == SomeAvailable(c, w) && AuthOnlyPool(d, w) == AuthOnlyPool(c, w)
    ensures forall n :: HighestEnabled(d, n) == HighestEnabled(c, n) && Serves(d, r, n) == Serves(c, r, n)
    ensures DryUntil(d, w, cur, r) == DryUntil(c, w, cur, r)
  {
    hide ExhaustedUntil, Unavailable, OnRecord, SolelyRejected, Find;
    assert forall n :: Backend(d, n) == Backend(c, n);
  }

  lemma TieredCarries(c: Ctl, d: Ctl, w: World, cur: string, r: Resolution)
    requires SameForTiers(c, d, w)
    ensures Tiered(d, w, cur, r) == Tiered(c, w, cur, r)
  {
    hide ExhaustedUntil, Unavailable, OnRecord, SolelyRejected, Find, HighestEnabled, DryUntil, SomeAvailable, AuthOnlyPool;
    TiersCarry(c, d, w, r, cur);
    assert forall n :: HighestAvailable(d, w, n) == HighestAvailable(c, w, n);
    assert forall n :: HighestUnparked(d, w.now, n) == HighestUnparked(c, w.now, n);
  }

  /** At concurrency 1 a worker is served by the tiers like anybody, and noted as seen; its assignment, if any, stands by. */
  lemma OneAtATime(c: Ctl, w: World, x: string)
    requires WF(c) && c.concurrency <= 1
    ensures var (d, r) := ResolveWorker(c, w, x);
      && Tiered(c, w, d.cur, r) && d == ClearExpired(c, w.now).(cur := d.cur, lastSeen := d.lastSeen)
      && (forall y :: y in d.lastSeen <==> y == x || (y in c.lastSeen && w.now - c.lastSeen[y] <= HOUR))
      && d.lastSeen[x] == w.now && (forall y :: y in d.lastSeen && y != x ==> d.lastSeen[y] == c.lastSeen[y])
  {
    hide Tiered, ExhaustedUntil, Unavailable, ResolveAuto, OnRecord, SolelyRejected;
    var e := PruneIdle(c, w.now);
    var d := e.(lastSeen := e.lastSeen[x := w.now]);
    WindowStable(c, w, d.lastSeen, d.affinity, d.cursor);
    BoundsStable(c, w, d.lastSeen, d.affinity, d.cursor);
    forall n { ReadsStable(c, d, w, n); }
    assert SameForTiers(c, d, w);
    TiersCarry(c, d, w, ResolveAuto(d, w).1, ResolveAuto(d, w).0.cur);
    AutoIsTiered(d, w);
    TieredCarries(c, d, w, ResolveAuto(d, w).0.cur, ResolveAuto(d, w).1);
  }

  lemma SettledFacts(c: Ctl, w: World)
    requires Settled(c, w)
    ensures c.concurrency > 1 && forall n :: n in WindowOf(c, w) ==> Backend(c, n).Some?
  {
    WindowDistinct(c, w);
  }

  lemma SettledStays(d: Ctl, w: World, e: Ctl)
    requires Settled(d, w) && e == d.(affinity := e.affinity, cursor := e.cursor)
    requires forall y :: y in e.affinity ==> y in d.affinity
    ensures Settled(e, w) && WindowOf(e, w) == WindowOf(d, w)
  {
    hide WindowOf;
    WindowStable(d, w, e.lastSeen, e.affinity, e.cursor);
    assert forall n :: Backend(e, n) == Backend(d, n);
    assert forall y :: Idle(e, w.now, y) == Idle(d, w.now, y);
  }

  /** A moving worker lands on a least-loaded member of the window. */
  lemma ReassignSlot(d: Ctl, w: World, window: seq<string>, x: string)
    requires window != [] && forall n :: n in window ==> Backend(d, n).Some?
    ensures var (e, r) := Reassign(d, w, window, x);
      && x in e.affinity && e == d.(affinity := d.affinity[x := e.affinity[x]], cursor := e.cursor)
      && e.affinity[x] in window && Count(d.affinity, e.affinity[x]) == Least(d.affinity, window)
      && r == Resolution(Backend(d, e.affinity[x]), 0, false)
  {
    hide Least, Count, NextSlot, Find;
    NextSlotLeast(d.affinity, window, d.cursor);
  }

  /**
   Every request that moves a worker makes the measure smaller, and touches nobody else.
   */
  lemma MoveShrinks(c: Ctl, w: World, x: string)
    requires Settled(c, w) && x in c.affinity && WindowOf(c, w) != []
    ensures var window := WindowOf(c, w);
      var after := ResolveWorker(c, w, x).0.affinity;
      && (forall y :: y in c.affinity && y != x ==> y in after && after[y] == c.affinity[y])
      && (if after == c.affinity then Stays(c, window, x)
          else !Stays(c, window, x) && Smaller(after, c.affinity, window))
  {
    hide WindowOf, ResolveWorker, Least, Count, Squares, Outside;
    var window := WindowOf(c, w);
    var after := ResolveWorker(c, w, x).0.affinity;
    RequestMoves(c, w, x);
    if !Stays(c, window, x) {
      WindowDistinct(c, w);
      LeastMoves(c.affinity, window, x, after[x]);
    }
  }

  lemma LeastMoves(a: map<string, string>, window: seq<string>, x: string, to: string)
    requires x in a && window != [] && to in window && Distinct(window)
    requires !(a[x] in window && Count(a, a[x]) - Least(a, window) < 2)
    requires Count(a - {x}, to) == Least(a - {x}, window)
    ensures a[x := to] != a && Smaller(a[x := to], a, window)
  {
    hide Count, Squares, Outside;
    var from := a[x];
    CountDrop(a, x, to);
    CountDrop(a, x, from);
    if from in window {
      var n :| n in window && Count(a, n) == Least(a, window);
      CountDrop(a, x, n);
      assert n != from;
      assert Count(a - {x}, to) <= Count(a, n);
      assert to != from;
      SquaresMove(a, window, x, to);
    }
    OutsideMove(a, window, x, to);
    assert a[x := to][x] == to;
  }

  /** When no request would move anyone, every worker is in the window and loads differ by at most one. */
  lemma Balanced(c: Ctl, w: World)
    requires Settled(c, w) && WindowOf(c, w) != []
    requires forall x :: x in c.affinity ==> ResolveWorker(c, w, x).0.affinity == c.affinity
    ensures var window := WindowOf(c, w);
      && (forall x :: x in c.affinity ==> c.affinity[x] in window)
      && forall m, n :: m in window && n in window ==> Count(c.affinity, m) <= Count(c.affinity, n) + 1
  {
    hide WindowOf, ResolveWorker, Least, Count;
    var window := WindowOf(c, w);
    forall x | x in c.affinity ensures Stays(c, window, x) {
      MoveShrinks(c, w, x);
    }
    forall m, n | m in window && n in window ensures Count(c.affinity, m) <= Count(c.affinity, n) + 1 {
      LoadsClose(c.affinity, window, m, n);
    }
  }

  lemma LoadsClose(a: map<string, string>, window: seq<string>, m: string, n: string)
    requires m in window && n in window
    requires forall x :: x in a ==> Count(a, a[x]) - Least(a, window) < 2
    ensures Count(a, m) <= Count(a, n) + 1
  {
    if Count(a, m) > 0 {
      var x :| x in Assigned(a, m);
      assert a[x] == m;
    }
  }

  // ------------------------------------------------------------ whole runs

  /** How many of the requests `xs`, at the worlds `ws`, move their worker. */
  function Moves(c: Ctl, ws: seq<World>, xs: seq<string>): nat
    requires |ws| == |xs|
    decreases |xs|
  {
    if xs == [] then 0
    else
      var d := ResolveWorker(c, ws[0], xs[0]).0;
      (if d.affinity == c.affinity then 0 else 1) + Moves(d, ws[1..], xs[1..])
  }

  /** Clocks go on and parks come and go, while the window stays and no assigned worker goes idle. */
  ghost predicate Calm(c: Ctl, ws: seq<World>, xs: seq<string>, window: seq<string>)
    requires |ws| == |xs|
    decreases |xs|
  {
    xs == [] || (
      && Settled(c, ws[0]) && WindowOf(c, ws[0]) == window
      && Calm(ResolveWorker(c, ws[0], xs[0]).0, ws[1..], xs[1..], window))
  }

  /** The measure folded into one number; the squares never exceed the square of the number of workers. */
  function Budget(affinity: map<string, string>, window: seq<string>): nat {
    Outside(affinity, window) * (Sq(|affinity|) + 1) + Squares(affinity, window)
  }

  function InWindow(a: map<string, string>, window: seq<string>): set<string> { set x | x in a && a[x] in window }

  lemma {:induction false} SquaresBound(a: map<string, string>, window: seq<string>)
    requires Distinct(window)
    ensures Squares(a, window) <= Sq(|InWindow(a, window)|)
  {
    hide Sq;
    if window != [] {
      var k := |window| - 1;
      var last, rest := window[k], window[..k];
      SquaresBound(a, rest);
      InWindowSplit(a, rest, last);
      assert window == rest + [last];
      SqSum(|InWindow(a, rest)|, Count(a, last));
    } else {
      SqMonotone(0, |InWindow(a, window)|);
      assert InWindow(a, window) == {};
    }
  }

  lemma InWindowSplit(a: map<string, string>, rest: seq<string>, last: string)
    requires last !in rest
    ensures |InWindow(a, rest + [last])| == |InWindow(a, rest)| + Count(a, last)
  {
    var inn, here := InWindow(a, rest), Assigned(a, last);
    assert InWindow(a, rest + [last]) == inn + here;
    assert inn !! here;
  }

  lemma SquaresAtMost(a: map<string, string>, window: seq<string>)
    requires Distinct(window)
    ensures Squares(a, window) <= Sq(|a|)
  {
    hide Sq, Squares;
    SquaresBound(a, window);
    var inn := InWindow(a, window);
    Subset(inn, a.Keys);
    assert |a.Keys| == |a|;
    SqMonotone(|inn|, |a|);
  }

  lemma Subset(s: set<string>, t: set<string>)
    requires s <= t
    ensures |s| <= |t|
  {
    if s != {} {
      var x :| x in s;
      Subset(s - {x}, t - {x});
    }
  }

  lemma BudgetShrinks(o1: nat, s1: nat, o2: nat, s2: nat, cap: nat)
    requires s1 <= cap && (o1 < o2 || (o1 == o2 && s1 < s2))
    ensures o1 * (cap + 1) + s1 < o2 * (cap + 1) + s2
  {
    if o1 < o2 {
      assert o1 * (cap + 1) + (cap + 1) == (o1 + 1) * (cap + 1);
      assert (o1 + 1) * (cap + 1) <= o2 * (cap + 1);
    }
  }

  /** Balancing terminates: however many requests the workers send, they move at most `Budget` times in all. */
  lemma {:induction false} MovesAreBounded(c: Ctl, ws: seq<World>, xs: seq<string>, window: seq<string>)
    requires |ws| == |xs| && window != [] && Calm(c, ws, xs, window) && forall x :: x in xs ==> x in c.affinity
    ensures Moves(c, ws, xs) <= Budget(c.affinity, window)
    decreases |xs|
  {
    hide WindowOf, ResolveWorker, Budget, MovedOne, Stays, Settled;
    if xs != [] {
      var x := xs[0];
      var d := ResolveWorker(c, ws[0], x).0;
      RequestMoves(c, ws[0], x);
      MovesAreBounded(d, ws[1..], xs[1..], window);
      StepBudget(c, ws[0], x);
    }
  }

  lemma StepBudget(c: Ctl, w: World, x: string)
    requires Settled(c, w) && x in c.affinity && WindowOf(c, w) != []
    ensures var d, window := ResolveWorker(c, w, x).0, WindowOf(c, w);
      Budget(d.affinity, window) + (if d.affinity == c.affinity then 0 else 1) <= Budget(c.affinity, window)
  {
    hide WindowOf, ResolveWorker, Outside, Squares, MovedOne, Stays, Sq, WF, Settled;
    var d := ResolveWorker(c, w, x).0;
    RequestMoves(c, w, x);
    MoveShrinks(c, w, x);
    var window, n := WindowOf(c, w), |c.affinity|;
    assert |d.affinity| == n by { assert |d.affinity.Keys| == |c.affinity.Keys|; }
    if d.affinity != c.affinity {
      assert Distinct(window) by { SettledDistinct(c, w); }
      SquaresAtMost(d.affinity, window);
      BudgetShrinks(Outside(d.affinity, window), Squares(d.affinity, window),
                    Outside(c.affinity, window), Squares(c.affinity, window), Sq(n));
    }
  }

  lemma SettledDistinct(c: Ctl, w: World)
    requires Settled(c, w)
    ensures Distinct(WindowOf(c, w))
  {
    WindowDistinct(c, w);
  }
}
