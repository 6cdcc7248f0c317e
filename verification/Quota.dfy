/**
 The shared quota store: partial observations folded under a precision gate, and
 concurrent observers whose read of the previous snapshot may be stale.
 */
module Quota {
  import opened Common

  /**
   One metered window. `reset` is a fallback when it was resolved from a relative
   delay at observe time, so that it drifts from one response to the next.
   */
  datatype Window = Window(status: Option<string>, util: Option<real>, reset: Option<Time>,
                           fallback: bool, minutes: Option<int>)

  /** An absent header is `None`; a zero `asOf` is `None`. */
  datatype Snapshot = Snapshot(status: Option<string>, reset: Option<Time>, claim: Option<string>,
                               h5: Window, d7: Window, fallbackPct: Option<real>,
                               overageStatus: Option<string>, overageReason: Option<string>,
                               orgId: Option<string>, asOf: Option<Time>)

  const NO_WINDOW := Window(None, None, None, false, None)
  const EMPTY := Snapshot(None, None, None, NO_WINDOW, NO_WINDOW, None, None, None, None, None)

  predicate WindowData(w: Window) { w.status.Some? || w.util.Some? || w.reset.Some? }

  predicate HasQuotaWindow(s: Snapshot) {
    s.status.Some? || s.reset.Some? || s.claim.Some? || WindowData(s.h5) || WindowData(s.d7)
    || s.fallbackPct.Some? || s.overageStatus.Some? || s.overageReason.Some?
  }

  predicate HasData(s: Snapshot) { HasQuotaWindow(s) || s.orgId.Some? }

  // ------------------------------------------------------------------ merging

  function Fill<T>(prev: Option<T>, next: Option<T>): Option<T> {
    if next.Some? then next else prev
  }

  function MergeWindow(prev: Window, next: Window): Window {
    var keep := next.reset.None? || (next.fallback && prev.reset.Some?);
    Window(Fill(prev.status, next.status), Fill(prev.util, next.util),
           if keep then prev.reset else next.reset,
           if keep then prev.fallback else next.fallback,
           Fill(prev.minutes, next.minutes))
  }

  function MergeSnapshot(prev: Snapshot, next: Snapshot): Snapshot {
    Snapshot(Fill(prev.status, next.status), Fill(prev.reset, next.reset), Fill(prev.claim, next.claim),
             MergeWindow(prev.h5, next.h5), MergeWindow(prev.d7, next.d7),
             Fill(prev.fallbackPct, next.fallbackPct), Fill(prev.overageStatus, next.overageStatus),
             Fill(prev.overageReason, next.overageReason), Fill(prev.orgId, next.orgId), next.asOf)
  }

  class Store {
    var data: map<string, Snapshot>

    constructor ()
      ensures data == map[]
    {
      data := map[];
    }

    method Put(key: string, snap: Snapshot)
      modifies this
      ensures data == old(data)[key := snap]
      ensures Get(key) == snap && forall k :: k != key ==> Get(k) == old(Get(k))
    {
      data := data[key := snap];
    }

    /** What a start restores: every persisted snapshot, whole, in whatever order the map yields them. */
    method Restore(persisted: map<string, Snapshot>)
      modifies this
      ensures data == old(data) + persisted
    {
      var todo := persisted.Keys;
      while todo != {}
        invariant todo <= persisted.Keys && data == old(data) + (persisted - todo)
        decreases |todo|
      {
        var k :| k in todo;
        assert persisted - (todo - {k}) == (persisted - todo)[k := persisted[k]];
        todo := todo - {k};
        Put(k, persisted[k]);
      }
      assert persisted - todo == persisted;
    }

    method Merge(key: string, snap: Snapshot)
      modifies this
      ensures data == old(data)[key := if key in old(data) then MergeSnapshot(old(data[key]), snap) else snap]
    {
      var out := snap;
      if key in data {
        var prev := data[key];
        if out.status.None? { out := out.(status := prev.status); }
        if out.reset.None? { out := out.(reset := prev.reset); }
        if out.claim.None? { out := out.(claim := prev.claim); }
        var h5 := FillWindow(prev.h5, out.h5);
        var d7 := FillWindow(prev.d7, out.d7);
        out := out.(h5 := h5, d7 := d7);
        if out.fallbackPct.None? { out := out.(fallbackPct := prev.fallbackPct); }
        if out.overageStatus.None? { out := out.(overageStatus := prev.overageStatus); }
        if out.overageReason.None? { out := out.(overageReason := prev.overageReason); }
        if out.orgId.None? { out := out.(orgId := prev.orgId); }
      }
      data := data[key := out];
    }

    static method FillWindow(prev: Window, next: Window) returns (w: Window)
      ensures w == MergeWindow(prev, next)
    {
      w := next;
      if w.status.None? { w := w.(status := prev.status); }
      if w.util.None? { w := w.(util := prev.util); }
      if w.reset.None? {
        w := w.(reset := prev.reset, fallback := prev.fallback);
      } else if w.fallback && prev.reset.Some? {
        w := w.(reset := prev.reset, fallback := prev.fallback);
      }
      if w.minutes.None? { w := w.(minutes := prev.minutes); }
    }

    /** A key never recorded reads as an empty snapshot. */
    function Get(key: string): (s: Snapshot)
      reads this
      ensures HasData(s) ==> key in data && s == data[key]
    {
      if key in data then data[key] else EMPTY
    }
  }

  // -------------------------------------------------- closed form of a history

  /** The stored snapshot after merging `ss` in order under a key never recorded before. */
  function Fold(ss: seq<Snapshot>): Snapshot
    requires ss != []
  {
    if |ss| == 1 then ss[0] else MergeSnapshot(Fold(ss[..|ss| - 1]), ss[|ss| - 1])
  }

  /** `r` is the last present value of the history `xs`. */
  ghost predicate LastPresent<T>(xs: seq<Option<T>>, r: Option<T>) {
    if r.None? then forall i :: 0 <= i < |xs| ==> xs[i].None?
    else exists i :: 0 <= i < |xs| && xs[i] == r && forall j :: i < j < |xs| ==> xs[j].None?
  }

  lemma LastPresentOne<T>(x: Option<T>)
    ensures LastPresent([x], x)
  {
    assert [x][0] == x;
  }

  lemma LastPresentStep<T>(xs: seq<Option<T>>, p: Option<T>, x: Option<T>)
    requires LastPresent(xs, p)
    ensures LastPresent(xs + [x], Fill(p, x))
  {
    var ys := xs + [x];
    if x.Some? {
      assert ys[|xs|] == x;
    } else if p.Some? {
      var i :| 0 <= i < |xs| && xs[i] == p && forall j :: i < j < |xs| ==> xs[j].None?;
      assert ys[i] == p;
    }
  }

  predicate Precise(w: Window) { w.reset.Some? && !w.fallback }

  /** `r` holds the last precise reset of `ws`, or else the first fallback one, or else none. */
  ghost predicate GatedReset(ws: seq<Window>, r: Window) {
    || (exists i :: 0 <= i < |ws| && Precise(ws[i]) && r.reset == ws[i].reset && !r.fallback
                    && forall j :: i < j < |ws| ==> !Precise(ws[j]))
    || (&& (forall j :: 0 <= j < |ws| ==> !Precise(ws[j]))
        && exists i :: 0 <= i < |ws| && ws[i].reset.Some? && r.reset == ws[i].reset && r.fallback
                       && forall j :: 0 <= j < i ==> ws[j].reset.None?)
    || ((forall j :: 0 <= j < |ws| ==> ws[j].reset.None?) && r.reset.None?)
  }

  lemma GatedResetStep(ws: seq<Window>, p: Window, x: Window)
    requires GatedReset(ws, p)
    ensures GatedReset(ws + [x], MergeWindow(p, x))
  {
    var ys, r := ws + [x], MergeWindow(p, x);
    if Precise(x) {
      assert ys[|ws|] == x;
    } else if exists i :: 0 <= i < |ws| && Precise(ws[i]) && p.reset == ws[i].reset && !p.fallback
                          && forall j :: i < j < |ws| ==> !Precise(ws[j]) {
      var i :| 0 <= i < |ws| && Precise(ws[i]) && p.reset == ws[i].reset && !p.fallback
               && forall j :: i < j < |ws| ==> !Precise(ws[j]);
      assert ys[i] == ws[i];
    } else if p.reset.Some? {
      var i :| 0 <= i < |ws| && ws[i].reset.Some? && p.reset == ws[i].reset && p.fallback
               && forall j :: 0 <= j < i ==> ws[j].reset.None?;
      assert ys[i] == ws[i];
    } else if x.reset.Some? {
      assert ys[|ws|] == x;
    }
  }

  function StatusOf(s: Snapshot): Option<string> { s.status }
  function ResetOf(s: Snapshot): Option<Time> { s.reset }
  function ClaimOf(s: Snapshot): Option<string> { s.claim }
  function FallbackPctOf(s: Snapshot): Option<real> { s.fallbackPct }
  function OverageStatusOf(s: Snapshot): Option<string> { s.overageStatus }
  function OverageReasonOf(s: Snapshot): Option<string> { s.overageReason }
  function OrgIdOf(s: Snapshot): Option<string> { s.orgId }
  function H5Of(s: Snapshot): Window { s.h5 }
  function D7Of(s: Snapshot): Window { s.d7 }

  function Proj<T>(ss: seq<Snapshot>, f: Snapshot -> T): (r: seq<T>)
    ensures |r| == |ss| && forall i :: 0 <= i < |ss| ==> r[i] == f(ss[i])
  {
    seq(|ss|, i requires 0 <= i < |ss| => f(ss[i]))
  }

  ghost predicate WindowClosedForm(ws: seq<Window>, r: Window) {
    && LastPresent(seq(|ws|, i requires 0 <= i < |ws| => ws[i].status), r.status)
    && LastPresent(seq(|ws|, i requires 0 <= i < |ws| => ws[i].util), r.util)
    && LastPresent(seq(|ws|, i requires 0 <= i < |ws| => ws[i].minutes), r.minutes)
    && GatedReset(ws, r)
  }

  lemma WindowOne(w: Window)
    requires w.reset.None? ==> !w.fallback
    ensures WindowClosedForm([w], w)
  {
    var ws := [w];
    LastPresentOne(w.status);
    assert seq(|ws|, i requires 0 <= i < |ws| => ws[i].status) == [w.status];
    LastPresentOne(w.util);
    assert seq(|ws|, i requires 0 <= i < |ws| => ws[i].util) == [w.util];
    LastPresentOne(w.minutes);
    assert seq(|ws|, i requires 0 <= i < |ws| => ws[i].minutes) == [w.minutes];
    assert GatedReset(ws, w) by { assert ws[0] == w; }
  }

  lemma WindowStep(ws: seq<Window>, p: Window, x: Window)
    requires WindowClosedForm(ws, p)
    ensures WindowClosedForm(ws + [x], MergeWindow(p, x))
  {
    var ys := ws + [x];
    LastPresentStep(seq(|ws|, i requires 0 <= i < |ws| => ws[i].status), p.status, x.status);
    assert seq(|ys|, i requires 0 <= i < |ys| => ys[i].status)
        == seq(|ws|, i requires 0 <= i < |ws| => ws[i].status) + [x.status];
    LastPresentStep(seq(|ws|, i requires 0 <= i < |ws| => ws[i].util), p.util, x.util);
    assert seq(|ys|, i requires 0 <= i < |ys| => ys[i].util)
        == seq(|ws|, i requires 0 <= i < |ws| => ws[i].util) + [x.util];
    LastPresentStep(seq(|ws|, i requires 0 <= i < |ws| => ws[i].minutes), p.minutes, x.minutes);
    assert seq(|ys|, i requires 0 <= i < |ys| => ys[i].minutes)
        == seq(|ws|, i requires 0 <= i < |ws| => ws[i].minutes) + [x.minutes];
    GatedResetStep(ws, p, x);
  }

  ghost predicate Fills<T(!new)>(f: Snapshot -> Option<T>) {
    forall p, x :: f(MergeSnapshot(p, x)) == Fill(f(p), f(x))
  }

  ghost predicate FillsWindow(f: Snapshot -> Window) {
    forall p, x :: f(MergeSnapshot(p, x)) == MergeWindow(f(p), f(x))
  }

  lemma ProjLast<T>(ss: seq<Snapshot>, f: Snapshot -> T)
    requires ss != []
    ensures Proj(ss, f) == Proj(ss[..|ss| - 1], f) + [f(ss[|ss| - 1])]
  {
  }

  lemma {:induction false} WindowHistory(ss: seq<Snapshot>, f: Snapshot -> Window)
    requires ss != [] && FillsWindow(f)
    requires forall s :: s in ss && f(s).reset.None? ==> !f(s).fallback
    ensures WindowClosedForm(Proj(ss, f), f(Fold(ss)))
  {
    var n := |ss| - 1;
    ProjLast(ss, f);
    if n == 0 {
      WindowOne(f(ss[0]));
      assert Proj(ss, f) == [f(ss[0])];
    } else {
      WindowHistory(ss[..n], f);
      var init, p, x := Proj(ss[..n], f), Fold(ss[..n]), ss[n];
      assert f(Fold(ss)) == MergeWindow(f(p), f(x));
      WindowStep(init, f(p), f(x));
    }
  }

  lemma {:induction false} PlainHistory<T(!new)>(ss: seq<Snapshot>, f: Snapshot -> Option<T>)
    requires ss != [] && Fills(f)
    ensures LastPresent(Proj(ss, f), f(Fold(ss)))
  {
    var n := |ss| - 1;
    ProjLast(ss, f);
    if n == 0 {
      LastPresentOne(f(ss[0]));
      assert Proj(ss, f) == [f(ss[0])];
    } else {
      PlainHistory(ss[..n], f);
      var init, p, x := Proj(ss[..n], f), Fold(ss[..n]), ss[n];
      assert f(Fold(ss)) == Fill(f(p), f(x));
      LastPresentStep(init, f(p), f(x));
    }
  }

  /** A fallback flag without a reset never leaves the header parser. */
  predicate WellFormed(s: Snapshot) {
    (s.h5.reset.None? ==> !s.h5.fallback) && (s.d7.reset.None? ==> !s.d7.fallback)
  }

  /** The whole stored snapshot, in terms of the history alone. */
  lemma MergeClosedForm(ss: seq<Snapshot>)
    requires ss != [] && forall s :: s in ss ==> WellFormed(s)
    ensures var r := Fold(ss);
      && LastPresent(Proj(ss, StatusOf), r.status)
      && LastPresent(Proj(ss, ResetOf), r.reset)
      && LastPresent(Proj(ss, ClaimOf), r.claim)
      && LastPresent(Proj(ss, FallbackPctOf), r.fallbackPct)
      && LastPresent(Proj(ss, OverageStatusOf), r.overageStatus)
      && LastPresent(Proj(ss, OverageReasonOf), r.overageReason)
      && LastPresent(Proj(ss, OrgIdOf), r.orgId)
      && WindowClosedForm(Proj(ss, H5Of), r.h5)
      && WindowClosedForm(Proj(ss, D7Of), r.d7)
      && r.asOf == ss[|ss| - 1].asOf
  {
    PlainHistory(ss, StatusOf);
    PlainHistory(ss, ResetOf);
    PlainHistory(ss, ClaimOf);
    PlainHistory(ss, FallbackPctOf);
    PlainHistory(ss, OverageStatusOf);
    PlainHistory(ss, OverageReasonOf);
    PlainHistory(ss, OrgIdOf);
    WindowHistory(ss, H5Of);
    WindowHistory(ss, D7Of);
  }

  lemma MergeAssociative(a: Snapshot, b: Snapshot, c: Snapshot)
    requires WellFormed(a) && WellFormed(b) && WellFormed(c)
    ensures MergeSnapshot(MergeSnapshot(a, b), c) == MergeSnapshot(a, MergeSnapshot(b, c))
  {
  }

  // ----------------------------------------------------- concurrent observers

  function OverlayReset(s: Window, p: Window, c: Window): (Option<Time>, bool) {
    if c.reset.Some? && !c.fallback then (c.reset, false)
    else if c.reset.Some? && p.reset.None? then (c.reset, c.fallback)
    else if c.reset.Some? then (p.reset, p.fallback)
    else if s.reset.None? && p.reset.Some? then (p.reset, p.fallback)
    else (s.reset, s.fallback)
  }

  function OverlayWindow(s: Window, p: Window, c: Window): Window {
    var (reset, fallback) := OverlayReset(s, p, c);
    Window(s.status,
           if c.util.Some? then c.util else if s.util.None? && p.util.Some? then p.util else s.util,
           reset, fallback,
           if c.minutes.Some? then c.minutes else if s.minutes.None? && p.minutes.Some? then p.minutes else s.minutes)
  }

  /** `OverlayCodex`: the metered windows `c` laid over the header extraction `s`. */
  function Overlay(s: Snapshot, prev: Snapshot, c: Snapshot): Snapshot {
    s.(h5 := OverlayWindow(s.h5, prev.h5, c.h5), d7 := OverlayWindow(s.d7, prev.d7, c.d7))
  }

  /**
   One observer of a response: what the response said, whether it is a metered
   (Codex) one, and, once it has read the store, the snapshot it read.
   */
  datatype Observer = Observer(metered: bool, said: Snapshot, codex: Snapshot, prev: Option<Snapshot>)

  /** The store at one key, and the observers of responses in flight for it. */
  datatype Traffic = Traffic(cell: Option<Snapshot>, obs: seq<Observer>)

  datatype Action = Arrive(o: Observer) | ReadPrev(i: nat) | File(i: nat)

  predicate Admissible(o: Observer) {
    WellFormed(o.said) && WellFormed(o.codex) && (o.prev.Some? ==> WellFormed(o.prev.value))
  }

  predicate Possible(t: Traffic, a: Action) {
    match a
    case Arrive(o) => o.prev.None? && Admissible(o)
    case ReadPrev(i) => i < |t.obs| && t.obs[i].prev.None?
    case File(i) => i < |t.obs| && (t.obs[i].metered ==> t.obs[i].prev.Some?)
  }

  function Filed(o: Observer): Snapshot
    requires o.metered ==> o.prev.Some?
  {
    if o.metered then Overlay(o.said, o.prev.value, o.codex) else o.said
  }

  function MergeCell(cell: Option<Snapshot>, s: Snapshot): Option<Snapshot> {
    if cell.Some? then Some(MergeSnapshot(cell.value, s)) else Some(s)
  }

  function Next(t: Traffic, a: Action): Traffic
    requires Possible(t, a)
  {
    match a
    case Arrive(o) => t.(obs := t.obs + [o])
    case ReadPrev(i) => t.(obs := t.obs[i := t.obs[i].(prev := Some(if t.cell.Some? then t.cell.value else EMPTY))])
    case File(i) =>
      var s := Filed(t.obs[i]);
      t.(cell := if HasQuotaWindow(s) then MergeCell(t.cell, s) else t.cell,
         obs := t.obs[..i] + t.obs[i + 1..])
  }

  ghost predicate Sound(t: Traffic) {
    (t.cell.Some? ==> WellFormed(t.cell.value)) && forall o :: o in t.obs ==> Admissible(o)
  }

  predicate Legal(t: Traffic, acts: seq<Action>)
    decreases |acts|
  {
    acts == [] || (Possible(t, acts[0]) && Legal(Next(t, acts[0]), acts[1..]))
  }

  function Exec(t: Traffic, acts: seq<Action>): Traffic
    requires Legal(t, acts)
    decreases |acts|
  {
    if acts == [] then t else Exec(Next(t, acts[0]), acts[1..])
  }

  predicate KeepsWindow(a: Window, b: Window) {
    (a.reset.Some? ==> b.reset.Some?) && (Precise(a) ==> Precise(b))
  }

  /** Nothing known at `a` is forgotten or made less precise at `b`. */
  predicate Keeps(a: Option<Snapshot>, b: Option<Snapshot>) {
    a.Some? ==> b.Some? && KeepsWindow(a.value.h5, b.value.h5) && KeepsWindow(a.value.d7, b.value.d7)
  }

  lemma SoundStep(t: Traffic, a: Action)
    requires Sound(t) && Possible(t, a)
    ensures Sound(Next(t, a)) && Keeps(t.cell, Next(t, a).cell)
  {
    var u := Next(t, a);
    forall o | o in u.obs ensures Admissible(o) {
      if a.ReadPrev? { assert o in t.obs || o == u.obs[a.i]; assert t.obs[a.i] in t.obs; }
    }
    if a.File? { assert t.obs[a.i] in t.obs; }
  }

  /** Under every interleaving of read, overlay and merge, a known reset stays known and a precise one precise. */
  lemma {:induction false} ResetsNeverDegrade(t: Traffic, acts: seq<Action>)
    requires Sound(t) && Legal(t, acts)
    ensures Sound(Exec(t, acts)) && Keeps(t.cell, Exec(t, acts).cell)
    decreases |acts|
  {
    if acts != [] {
      SoundStep(t, acts[0]);
      ResetsNeverDegrade(Next(t, acts[0]), acts[1..]);
    }
  }

  /** The window whose reset an observer's filing goes by: the header's, the metered one's, or the one it had read before. */
  function Source(metered: bool, s: Window, p: Window, c: Window): Window {
    if !metered then s
    else if c.reset.Some? then (if Precise(c) then c else p)
    else if s.reset.Some? then s
    else p
  }

  lemma SourceDecides(cur: Window, metered: bool, s: Window, p: Window, c: Window)
    requires cur.reset.Some? && (p.reset.None? ==> !p.fallback) && (s.reset.None? ==> !s.fallback)
    ensures var src := Source(metered, s, p, c);
      MergeWindow(cur, if metered then OverlayWindow(s, p, c) else s).reset == if Precise(src) then src.reset else cur.reset
  {
  }

  /**
   A filing moves a known reset exactly when the window it goes by is precise and differs, and
   back exactly when that one is earlier; for an observer that had read it long ago it may be.
   */
  lemma ResetGoesBackExactly(t: Traffic, i: nat)
    requires Sound(t) && Possible(t, File(i)) && t.cell.Some? && HasQuotaWindow(Filed(t.obs[i]))
    ensures Next(t, File(i)).cell.Some?
    ensures var o, cur, after := t.obs[i], t.cell.value, Next(t, File(i)).cell.value;
      var prev := if o.metered then o.prev.value else EMPTY;
      && (cur.h5.reset.Some? ==> Follows(cur.h5, after.h5, Source(o.metered, o.said.h5, prev.h5, o.codex.h5)))
      && (cur.d7.reset.Some? ==> Follows(cur.d7, after.d7, Source(o.metered, o.said.d7, prev.d7, o.codex.d7)))
  {
    var o, cur := t.obs[i], t.cell.value;
    var prev := if o.metered then o.prev.value else EMPTY;
    assert o in t.obs && Admissible(o);
    if cur.h5.reset.Some? { SourceDecides(cur.h5, o.metered, o.said.h5, prev.h5, o.codex.h5); }
    if cur.d7.reset.Some? { SourceDecides(cur.d7, o.metered, o.said.d7, prev.d7, o.codex.d7); }
  }

  /** The known reset of `a` becomes that of `b` by way of `src`. */
  predicate Follows(a: Window, b: Window, src: Window)
    requires a.reset.Some?
  {
    && b.reset.Some?
    && (b.reset != a.reset <==> Precise(src) && src.reset != a.reset)
    && (b.reset.value < a.reset.value <==> Precise(src) && src.reset.value < a.reset.value)
  }

  /** The first of the candidates that is there, if any is. */
  ghost predicate IsFirst<T(!new)>(x: Option<T>, from: seq<Option<T>>) {
    if x.None? then forall i :: 0 <= i < |from| ==> from[i].None?
    else exists i :: 0 <= i < |from| && from[i] == x && forall j :: 0 <= j < i ==> from[j].None?
  }

  /** Whence each field of a window comes when observer `o` files: what was metered, said, read before, or is there already. */
  ghost predicate WindowFrom(after: Window, metered: bool, c: Window, s: Window, p: Window, cur: Window) {
    && IsFirst(after.status, [s.status, cur.status])
    && IsFirst(after.util, if metered then [c.util, s.util, p.util, cur.util] else [s.util, cur.util])
    && IsFirst(after.minutes, if metered then [c.minutes, s.minutes, p.minutes, cur.minutes] else [s.minutes, cur.minutes])
  }

  lemma WindowFiled(metered: bool, c: Window, s: Window, p: Window, cur: Window)
    ensures WindowFrom(MergeWindow(cur, if metered then OverlayWindow(s, p, c) else s), metered, c, s, p, cur)
  {
    var w := if metered then OverlayWindow(s, p, c) else s;
    FirstOfTwo(s.status, cur.status);
    if metered {
      FirstOfFour(c.util, s.util, p.util, cur.util);
      FirstOfFour(c.minutes, s.minutes, p.minutes, cur.minutes);
    } else {
      FirstOfTwo(s.util, cur.util);
      FirstOfTwo(s.minutes, cur.minutes);
    }
  }

  lemma FirstOfTwo<T(!new)>(a: Option<T>, b: Option<T>)
    ensures IsFirst(if a.Some? then a else b, [a, b])
  {
    var from := [a, b];
    assert from[0] == a && from[1] == b;
  }

  lemma FirstOfFour<T(!new)>(a: Option<T>, b: Option<T>, c: Option<T>, d: Option<T>)
    ensures IsFirst(if a.Some? then a else if b.Some? then b else if c.Some? then c else d, [a, b, c, d])
  {
    var from := [a, b, c, d];
    assert from[0] == a && from[1] == b && from[2] == c && from[3] == d;
  }

  /**
   What a filing leaves at the key, but for the resets. A response that says nothing of quotas leaves it as it was. Else a
   window's use and length are the metered ones if there are, or those said, or those read before, or the ones there; all
   other fields are those said, or the ones there; and the age is the response's.
   */
  lemma FilingLeaves(t: Traffic, i: nat)
    requires Possible(t, File(i)) && t.cell.Some?
    ensures var o, u, cur := t.obs[i], Next(t, File(i)), t.cell.value;
      && u.obs == t.obs[..i] + t.obs[i + 1..] && u.cell.Some?
      && (!HasQuotaWindow(Filed(o)) ==> u.cell == t.cell)
      && (HasQuotaWindow(Filed(o)) ==>
            var after, prev, s := u.cell.value, if o.metered then o.prev.value else EMPTY, o.said;
            && WindowFrom(after.h5, o.metered, o.codex.h5, s.h5, prev.h5, cur.h5)
            && WindowFrom(after.d7, o.metered, o.codex.d7, s.d7, prev.d7, cur.d7)
            && IsFirst(after.status, [s.status, cur.status]) && IsFirst(after.reset, [s.reset, cur.reset])
            && IsFirst(after.claim, [s.claim, cur.claim]) && IsFirst(after.fallbackPct, [s.fallbackPct, cur.fallbackPct])
            && IsFirst(after.overageStatus, [s.overageStatus, cur.overageStatus])
            && IsFirst(after.overageReason, [s.overageReason, cur.overageReason])
            && IsFirst(after.orgId, [s.orgId, cur.orgId]) && after.asOf == s.asOf)
  {
    hide MergeWindow, OverlayWindow, IsFirst, WindowFrom;
    var o, cur := t.obs[i], t.cell.value;
    var prev, s := if o.metered then o.prev.value else EMPTY, o.said;
    WindowFiled(o.metered, o.codex.h5, s.h5, prev.h5, cur.h5);
    WindowFiled(o.metered, o.codex.d7, s.d7, prev.d7, cur.d7);
    FirstOfTwo(s.status, cur.status);
    FirstOfTwo(s.reset, cur.reset);
    FirstOfTwo(s.claim, cur.claim);
    FirstOfTwo(s.fallbackPct, cur.fallbackPct);
    FirstOfTwo(s.overageStatus, cur.overageStatus);
    FirstOfTwo(s.overageReason, cur.overageReason);
    FirstOfTwo(s.orgId, cur.orgId);
  }

  /** So the value may go back: two responses interleave and the later merge carries the older precise reset. */
  lemma ResetMayRegress()
    ensures exists t, acts, a :: (
      && Sound(t) && Legal(t, acts) && Possible(Exec(t, acts), a)
      && var before, after := Exec(t, acts).cell, Next(Exec(t, acts), a).cell;
         before.Some? && before.value.h5.reset == Some(20) && after.Some? && after.value.h5.reset == Some(10))
  {
    var start := EMPTY.(h5 := NO_WINDOW.(reset := Some(10)));
    var slow := Observer(true, EMPTY, EMPTY.(h5 := NO_WINDOW.(util := Some(0.5))), None);
    var quick := Observer(false, EMPTY.(h5 := NO_WINDOW.(reset := Some(20))), EMPTY, None);
    var t0 := Traffic(Some(start), [slow, quick]);
    var t1 := Next(t0, ReadPrev(0));
    assert t1.obs == [slow.(prev := Some(start)), quick];
    var t2 := Next(t1, File(1));
    assert t2.obs == [slow.(prev := Some(start))];
    var acts := [ReadPrev(0), File(1)];
    assert acts[1..] == [File(1)] && acts[1..][1..] == [];
    assert Legal(t1, acts[1..]) && Exec(t1, acts[1..]) == t2;
    assert Legal(t0, acts) && Exec(t0, acts) == t2 && Possible(t2, File(0));
  }
}
