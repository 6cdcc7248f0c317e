/**
 The debounced flusher: a one-slot signal, a loop that turns it into a deadline, and a
 drain at shutdown, in any interleaving of marks, time, cancellation and flushes.
 */
module Debounce {
  import opened Common

  /** Where the loop is: about to look, blocked in `select`, inside a flush, or gone. */
  datatype Mode = Top | Waiting(timer: Option<Time>) | Flushing(last: bool) | Stopped

  /** What happened, in order. A mark is listed when the call has completed, a flush when it starts. */
  datatype Event = Marked(at: Time) | FlushStart(at: Time, last: bool) | Drained

  datatype State = State(signal: bool, pending: bool, deadline: Time, now: Time, cancelled: bool, mode: Mode, hist: seq<Event>)

  datatype Step = Mark | Cancel | Elapse(span: nat) | Look | Receive | Fire | Done | EndFlush

  predicate Able(s: State, a: Step) {
    match a
    case Mark => true
    case Cancel => true
    case Elapse(_) => true
    case Look => s.mode.Top?
    case Receive => s.mode.Waiting? && s.signal
    case Fire => s.mode.Waiting? && s.mode.timer.Some? && s.mode.timer.value <= s.now
    case Done => s.mode.Waiting? && s.cancelled
    case EndFlush => s.mode.Flushing?
  }

  /** The step starts a flush: it is due, its timer fired, or it is the final one. */
  predicate Starts(s: State, a: Step) {
    (a.Look? && s.pending && s.deadline <= s.now) || a.Fire? || (a.Done? && (s.pending || s.signal))
  }

  /** What the step adds to the history. */
  function Adds(s: State, a: Step): seq<Event> {
    (if a.Mark? then [Marked(s.now)] else if a.Done? then [Drained] else [])
    + (if Starts(s, a) then [FlushStart(s.now, a.Done?)] else [])
  }

  function Move(s: State, a: Step, debounce: Time): State {
    match a
    case Mark => s.(signal := true)
    case Cancel => s.(cancelled := true)
    case Elapse(span) => s.(now := s.now + span)
    case Look => s.(mode := if Starts(s, a) then Flushing(false) else Waiting(if s.pending then Some(s.deadline) else None))
    case Receive => s.(signal := false, pending := true, deadline := if s.pending then s.deadline else s.now + debounce, mode := Top)
    case Fire => s.(mode := Flushing(false))
    case Done => s.(signal := false, pending := s.pending || s.signal, mode := if Starts(s, a) then Flushing(true) else Stopped)
    case EndFlush => s.(pending := false, mode := if s.mode.Flushing? && s.mode.last then Stopped else Top)
  }

  function Next(s: State, a: Step, debounce: Time): State { Move(s, a, debounce).(hist := s.hist + Adds(s, a)) }

  ghost predicate Legal(s: State, steps: seq<Step>, debounce: Time)
    decreases |steps|
  {
    steps == [] || (Able(s, steps[0]) && Legal(Next(s, steps[0], debounce), steps[1..], debounce))
  }

  function Exec(s: State, steps: seq<Step>, debounce: Time): State
    decreases |steps|
  {
    if steps == [] then s else Exec(Next(s, steps[0], debounce), steps[1..], debounce)
  }

  function Start(now: Time): State { State(false, false, 0, now, false, Top, []) }

  // ------------------------------------------------------------ no lost flush

  ghost predicate FlushedAfter(hist: seq<Event>, i: nat) { exists j :: i < j < |hist| && hist[j].FlushStart? }

  ghost predicate DrainedAfter(hist: seq<Event>, i: nat) { exists j :: i < j < |hist| && hist[j].Drained? }

  /** The signal or a pending flush will see to what is marked, or it came after the drain. */
  predicate Holding(s: State) {
    s.signal || (s.pending && !s.mode.Flushing?) || Over(s)
  }

  predicate Over(s: State) { s.mode.Stopped? || (s.mode.Flushing? && s.mode.last) }

  ghost predicate Seen(s: State, i: nat) { FlushedAfter(s.hist, i) || (!DrainedAfter(s.hist, i) && Holding(s)) }

  /** A mark not yet followed by a flush is held; after the drain none is left from before. */
  ghost predicate NothingLost(s: State) {
    && (forall i :: 0 <= i < |s.hist| && s.hist[i].Marked? ==> Seen(s, i))
    && (forall i :: 0 <= i < |s.hist| && s.hist[i].Drained? ==> Over(s))
  }

  lemma HistGrows(hist: seq<Event>, more: seq<Event>, i: nat)
    requires i < |hist|
    ensures FlushedAfter(hist, i) ==> FlushedAfter(hist + more, i)
    ensures (exists e :: e in more && e.FlushStart?) ==> FlushedAfter(hist + more, i)
    ensures (forall e :: e in more ==> !e.Drained?) ==> (DrainedAfter(hist + more, i) <==> DrainedAfter(hist, i))
  {
    var all := hist + more;
    if FlushedAfter(hist, i) {
      var j :| i < j < |hist| && hist[j].FlushStart?;
      assert all[j].FlushStart?;
    }
    if e :| e in more && e.FlushStart? {
      var k :| 0 <= k < |more| && more[k] == e;
      assert all[|hist| + k].FlushStart?;
    }
    if DrainedAfter(hist, i) {
      var j :| i < j < |hist| && hist[j].Drained?;
      assert all[j].Drained?;
    }
    if (forall e :: e in more ==> !e.Drained?) && DrainedAfter(all, i) {
      assert forall k :: |hist| <= k < |all| ==> all[k] in more;
      var j :| i < j < |all| && all[j].Drained?;
      assert hist[j].Drained?;
    }
  }

  /** Without a flush or a drain, what is held stays held. */
  lemma HoldingKept(s: State, a: Step, debounce: Time)
    requires Able(s, a) && Holding(s) && !Starts(s, a) && !a.Done?
    ensures Holding(Next(s, a, debounce))
  {
  }

  lemma SeenStep(s: State, a: Step, debounce: Time, i: nat)
    requires Able(s, a) && i < |s.hist| && Seen(s, i)
    ensures Seen(Next(s, a, debounce), i)
  {
    hide FlushedAfter, DrainedAfter, Move;
    HistGrows(s.hist, Adds(s, a), i);
    if Starts(s, a) {
      assert FlushStart(s.now, a.Done?) in Adds(s, a);
    } else if !a.Done? && Holding(s) {
      HoldingKept(s, a, debounce);
    }
  }

  lemma LostStep(s: State, a: Step, debounce: Time)
    requires NothingLost(s) && Able(s, a)
    ensures NothingLost(Next(s, a, debounce))
  {
    hide Seen, Starts;
    var t := Next(s, a, debounce);
    forall i | 0 <= i < |t.hist| && t.hist[i].Marked? ensures Seen(t, i) {
      if i < |s.hist| { SeenStep(s, a, debounce, i); } else { NewMark(s, a, debounce, i); }
    }
    forall i | 0 <= i < |t.hist| && t.hist[i].Drained? ensures Over(t) {
      if i < |s.hist| { assert s.hist[i].Drained?; }
    }
  }

  lemma NewMark(s: State, a: Step, debounce: Time, i: nat)
    requires Able(s, a) && |s.hist| <= i < |Next(s, a, debounce).hist| && Next(s, a, debounce).hist[i].Marked?
    ensures Seen(Next(s, a, debounce), i)
  {
    NewestMark(Next(s, a, debounce).hist, i);
  }

  lemma NewestMark(hist: seq<Event>, i: nat)
    requires i + 1 == |hist|
    ensures !DrainedAfter(hist, i)
  {
  }

  lemma {:induction false} LostRun(s: State, steps: seq<Step>, debounce: Time)
    requires NothingLost(s) && Legal(s, steps, debounce)
    ensures NothingLost(Exec(s, steps, debounce))
    decreases |steps|
  {
    hide NothingLost, Able, Next;
    if steps != [] {
      LostStep(s, steps[0], debounce);
      LostRun(Next(s, steps[0], debounce), steps[1..], debounce);
    }
  }

  /** In every run each mark completed before the shutdown drain is followed by a flush that starts after it. */
  lemma NoLostFlush(now: Time, steps: seq<Step>, debounce: Time, i: nat)
    requires Legal(Start(now), steps, debounce)
    requires var h := Exec(Start(now), steps, debounce).hist; i < |h| && h[i].Marked? && DrainedAfter(h, i)
    ensures FlushedAfter(Exec(Start(now), steps, debounce).hist, i)
  {
    hide Legal, Exec;
    StartsWell(now, debounce);
    LostRun(Start(now), steps, debounce);
  }

  lemma StartsWell(now: Time, debounce: Time)
    ensures NothingLost(Start(now)) && Spaced(Start(now), debounce)
  {
  }

  // ------------------------------------------------------------------ timing

  /** A pending deadline is never postponed. */
  lemma DeadlineStands(s: State, a: Step, debounce: Time)
    requires Able(s, a) && s.pending && Next(s, a, debounce).pending
    ensures Next(s, a, debounce).deadline == s.deadline
  {
  }

  /** The token sets a deadline one debounce interval from when it is taken, if none is pending. */
  lemma DeadlineSet(s: State, debounce: Time)
    requires Able(s, Receive) && !s.pending
    ensures var t := Next(s, Receive, debounce); t.pending && t.deadline == s.now + debounce && !t.signal
  {
  }

  lemma NearStep(s: State, a: Step, debounce: Time)
    requires Able(s, a) && (s.pending && !Over(s) ==> s.deadline <= s.now + debounce)
    ensures var t := Next(s, a, debounce); t.pending && !Over(t) ==> t.deadline <= t.now + debounce
  {
  }

  lemma {:induction false} NearRun(s: State, steps: seq<Step>, debounce: Time)
    requires Legal(s, steps, debounce) && (s.pending && !Over(s) ==> s.deadline <= s.now + debounce)
    ensures var t := Exec(s, steps, debounce); t.pending && !Over(t) ==> t.deadline <= t.now + debounce
    decreases |steps|
  {
    hide Able, Next, Over;
    if steps != [] {
      NearStep(s, steps[0], debounce);
      NearRun(Next(s, steps[0], debounce), steps[1..], debounce);
    }
  }

  /** In every run a pending flush is due within one debounce interval from now, until the loop is drained. */
  lemma DeadlineIsNear(now: Time, steps: seq<Step>, debounce: Time)
    requires Legal(Start(now), steps, debounce)
    ensures var s := Exec(Start(now), steps, debounce); s.pending && !Over(s) ==> s.deadline <= s.now + debounce
  {
    hide Legal, Exec, Over;
    NearRun(Start(now), steps, debounce);
  }

  ghost predicate Apart(hist: seq<Event>, debounce: Time) {
    forall i, j :: 0 <= i < j < |hist| && hist[i].FlushStart? && hist[j].FlushStart? && !hist[j].last ==>
      hist[i].at + debounce <= hist[j].at
  }

  /** Flushes so far are spaced, the next deadline respects the last of them, and a timer is set for the deadline. */
  ghost predicate Spaced(s: State, debounce: Time) {
    && Apart(s.hist, debounce)
    && (forall e :: e in s.hist && e.FlushStart? ==> e.at <= s.now)
    && (s.pending && !s.mode.Flushing? ==> forall e :: e in s.hist && e.FlushStart? ==> e.at + debounce <= s.deadline)
    && (s.mode.Waiting? ==> s.mode.timer == if s.pending then Some(s.deadline) else None)
  }

  lemma SpacedStep(s: State, a: Step, debounce: Time)
    requires Spaced(s, debounce) && Able(s, a)
    ensures Spaced(Next(s, a, debounce), debounce)
  {
    var t := Next(s, a, debounce);
    forall e | e in t.hist && e.FlushStart? && e !in s.hist ensures e.at == t.now && t.mode.Flushing? {
    }
    assert forall e :: e in s.hist ==> e in t.hist;
    forall i, j | 0 <= i < j < |t.hist| && t.hist[i].FlushStart? && t.hist[j].FlushStart? && !t.hist[j].last
      ensures t.hist[i].at + debounce <= t.hist[j].at
    {
      if j < |s.hist| {
        assert t.hist[i] == s.hist[i] && t.hist[j] == s.hist[j];
      } else {
        assert t.hist[i] == s.hist[i] && s.hist[i] in s.hist;
      }
    }
  }

  lemma {:induction false} SpacedRun(s: State, steps: seq<Step>, debounce: Time)
    requires Spaced(s, debounce) && Legal(s, steps, debounce)
    ensures Spaced(Exec(s, steps, debounce), debounce)
    decreases |steps|
  {
    hide Spaced, Able, Next;
    if steps != [] {
      SpacedStep(s, steps[0], debounce);
      SpacedRun(Next(s, steps[0], debounce), steps[1..], debounce);
    }
  }

  /** In every run flushes but the final one start at least one debounce interval after the flush before. */
  lemma FlushesAreApart(now: Time, steps: seq<Step>, debounce: Time)
    requires Legal(Start(now), steps, debounce)
    ensures Apart(Exec(Start(now), steps, debounce).hist, debounce)
  {
    hide Legal, Exec, Apart;
    StartsWell(now, debounce);
    SpacedRun(Start(now), steps, debounce);
  }

  /** Nor does one come later than it may: once the deadline has passed a loop not inside a flush can start it at once. */
  lemma FlushIsPossible(s: State, debounce: Time) returns (a: Step)
    requires Spaced(s, debounce) && s.pending && s.deadline <= s.now && (s.mode.Top? || s.mode.Waiting?)
    ensures Able(s, a) && (a.Look? || a.Fire?) && Next(s, a, debounce).mode == Flushing(false)
  {
    a := if s.mode.Top? then Look else Fire;
  }

  // -------------------------------------------------------------- the flusher

  class Flusher {
    const enabled: bool
    const debounce: Time
    var dirty: bool
    var pending: bool
    var deadline: Time
    var mode: Mode

    constructor (on: bool, every: Time)
      ensures enabled == on && debounce == every && !dirty && !pending
    {
      enabled, debounce, dirty, pending, deadline, mode := on, every, false, false, 0, Top;
    }

    /** The fields as a state of the protocol, beside what lies outside the flusher. */
    function View(now: Time, cancelled: bool, hist: seq<Event>): State
      reads this
    {
      State(dirty, pending, deadline, now, cancelled, mode, hist)
    }

    /** `MarkDirty`: never blocks; a second mark is absorbed. A disabled flusher ignores it. */
    method MarkDirty(now: Time)
      modifies this`dirty
      ensures enabled ==> forall c, h :: View(now, c, h + [Marked(now)]) == Next(old(View(now, c, h)), Mark, debounce)
      ensures !enabled ==> dirty == old(dirty)
    {
      if enabled { dirty := true; }
    }

    /** The head of the loop: a flush that is due starts, or a timer is set for the time remaining. */
    method LookAt(now: Time) returns (flush: bool)
      requires mode.Top?
      modifies this`mode
      ensures forall c, h :: View(now, c, if flush then h + [FlushStart(now, false)] else h)
                         == Next(old(View(now, c, h)), Look, debounce)
    {
      flush := false;
      if pending {
        var remaining := deadline - now;
        if remaining <= 0 {
          mode := Flushing(false);
          return true;
        }
        mode := Waiting(Some(now + remaining));
      } else {
        mode := Waiting(None);
      }
    }

    /** The signal arm of `select`. */
    method OnDirty(now: Time)
      requires mode.Waiting? && dirty
      modifies this
      ensures forall c, h :: View(now, c, h) == Next(old(View(now, c, h)), Receive, debounce)
    {
      dirty := false;
      if !pending {
        deadline := now + debounce;
        pending := true;
      }
      mode := Top;
    }

    /** The cancellation arm: drains the signal, then one final flush if anything is pending. */
    method OnDone(now: Time) returns (flush: bool)
      requires mode.Waiting?
      modifies this
      ensures forall h :: View(now, true, if flush then h + [Drained] + [FlushStart(now, true)] else h + [Drained])
                       == Next(old(View(now, true, h)), Done, debounce)
    {
      if dirty {
        dirty := false;
        pending := true;
      }
      flush := pending;
      mode := if pending then Flushing(true) else Stopped;
    }

    /** The timer arm: the deadline has come, so a flush starts. */
    method OnTimer(now: Time)
      requires mode.Waiting? && mode.timer.Some? && mode.timer.value <= now
      modifies this`mode
      ensures forall c, h :: View(now, c, h + [FlushStart(now, false)]) == Next(old(View(now, c, h)), Fire, debounce)
    {
      mode := Flushing(false);
    }

    /** Once a flush is through nothing is pending; after the final one the loop is gone. */
    method AfterFlush(now: Time)
      requires mode.Flushing?
      modifies this
      ensures forall c, h :: View(now, c, h) == Next(old(View(now, c, h)), EndFlush, debounce)
    {
      pending := false;
      mode := if mode.last then Stopped else Top;
    }
  }
}
