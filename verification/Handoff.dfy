/**
 The hand-off of trace buffers in external/blktrace/blktrace.c: tracer threads
 push buffers on per-(device, cpu) lists and then add to `dp_entries` under a
 different lock (handle_pfds_entries, add_trace_buf, incr_entries); the main
 thread empties the lists and then subtracts (__process_trace_bufs,
 decr_entries), and sleeps while `dp_entries` is zero (wait_empty_entries).

 One list per (device, cpu) pair, numbered as __process_trace_bufs visits them:
 list `i` belongs to device `i / ncpus` and to the tracer of cpu `i % ncpus`.
*/
module Handoff {
  import opened Sums

  type Buf = nat

  // Where the main thread is.  `handled` counts the buffers of this pass.
  datatype Main =
    | Idle
    | Asleep(signalled: bool)
    | Scanning(next: nat, handled: nat)
    | Handling(next: nat, handled: nat, rest: seq<Buf>)

  datatype State = State(
    ncpus: nat,
    lists: seq<seq<Buf>>,
    dpEntries: int,
    uncounted: seq<nat>,      // per tracer: nentries, pushed since the last incr_entries
    main: Main,
    pushed: seq<seq<Buf>>,    // history: every buffer pushed on each list
    done: seq<seq<Buf>>)      // history: every buffer handle_list has processed

  ghost predicate Shape(s: State) {
    && 0 < s.ncpus && |s.uncounted| == s.ncpus
    && |s.pushed| == |s.done| == |s.lists|
    && (s.main.Scanning? ==> s.main.next <= |s.lists|)
    && (s.main.Handling? ==> s.main.next < |s.lists|)
  }

  ghost function Cpu(s: State, i: nat): nat
    requires 0 < s.ncpus
  {
    i % s.ncpus
  }

  // ---- The steps ----

  ghost predicate Init(s: State) {
    && Shape(s) && s.dpEntries == 0 && s.main == Idle
    && (forall i :: 0 <= i < |s.lists| ==> s.lists[i] == [] && s.pushed[i] == [] && s.done[i] == [])
    && (forall c :: 0 <= c < |s.uncounted| ==> s.uncounted[c] == 0)
  }

  datatype Step =
    | Push(i: nat, b: Buf)    // add_trace_buf, under the list's mutex
    | Count(c: nat)           // incr_entries, under dp_mutex
    | Check                   // wait_empty_entries: sleep, or start a pass
    | Wake                    // the condition variable fires, or the timed wait runs out
    | Drain                   // clean_trace_bufs starts a pass without waiting
    | Take                    // one list of __process_trace_bufs, under its mutex
    | Handle                  // one buffer of handle_list
    | Finish                  // decr_entries, under dp_mutex

  ghost predicate Enabled(s: State, a: Step) {
    match a
    case Push(i, _) => i < |s.lists| && 0 < s.ncpus && Cpu(s, i) < |s.uncounted|
    case Count(c) => c < |s.uncounted| && s.uncounted[c] > 0
    case Check => s.main.Idle?
    case Wake => s.main.Asleep?
    case Drain => s.main.Idle?
    case Take => s.main.Scanning? && s.main.next < |s.lists|
    case Handle => s.main.Handling? && s.main.rest != []
    case Finish => s.main.Scanning? && s.main.next == |s.lists|
  }

  ghost function Next(s: State, a: Step): State
    requires Shape(s) && Enabled(s, a)
  {
    match a
    case Push(i, b) =>
      s.(lists := s.lists[i := s.lists[i] + [b]], pushed := s.pushed[i := s.pushed[i] + [b]],
         uncounted := s.uncounted[Cpu(s, i) := s.uncounted[Cpu(s, i)] + 1])
    case Count(c) =>
      s.(main := if s.dpEntries == 0 && s.main.Asleep? then Asleep(true) else s.main,
         dpEntries := s.dpEntries + s.uncounted[c], uncounted := s.uncounted[c := 0])
    case Check => s.(main := if s.dpEntries == 0 then Asleep(false) else Scanning(0, 0))
    case Wake => s.(main := Idle)
    case Drain => s.(main := Scanning(0, 0))
    case Take =>
      var i := s.main.next;
      if s.lists[i] == [] then s.(main := Scanning(i + 1, s.main.handled))
      else s.(lists := s.lists[i := []], main := Handling(i, s.main.handled, s.lists[i]))
    case Handle =>
      var Handling(i, n, rest) := s.main;
      s.(done := s.done[i := s.done[i] + [rest[0]]],
         main := if |rest| == 1 then Scanning(i + 1, n + 1) else Handling(i, n + 1, rest[1..]))
    case Finish =>
      s.(dpEntries := if s.main.handled > 0 then s.dpEntries - s.main.handled else s.dpEntries, main := Idle)
  }

  // ---- What holds in every interleaving ----

  ghost function Lengths(lists: seq<seq<Buf>>): seq<nat> {
    seq(|lists|, i requires 0 <= i < |lists| => |lists[i]|)
  }

  ghost function Queued(s: State): nat {
    Sum(Lengths(s.lists))
  }

  // Taken off a list in this pass but not yet subtracted.
  ghost function Outstanding(s: State): nat {
    match s.main
    case Scanning(_, n) => n
    case Handling(_, n, rest) => n + |rest|
    case _ => 0
  }

  ghost function InHand(s: State, i: nat): seq<Buf> {
    if s.main.Handling? && s.main.next == i then s.main.rest else []
  }

  // The counter, off by exactly what each side has moved but not yet accounted for.
  ghost predicate CounterLaw(s: State) {
    s.dpEntries == Queued(s) + Outstanding(s) - Sum(s.uncounted)
  }

  // Every buffer is handled once, in the order in which it was pushed on its list.
  ghost predicate FifoLaw(s: State) {
    && |s.pushed| == |s.done| == |s.lists|
    && forall i :: 0 <= i < |s.lists| ==> s.pushed[i] == s.done[i] + InHand(s, i) + s.lists[i]
  }

  // A sleeping main thread either has been signalled or has nothing to do.
  ghost predicate WakeLaw(s: State) {
    && (s.main.Asleep? && !s.main.signalled ==> s.dpEntries == 0)
    && (s.main.Handling? ==> s.main.rest != [])
  }

  ghost predicate Inv(s: State) {
    Shape(s) && CounterLaw(s) && FifoLaw(s) && WakeLaw(s)
  }

  lemma InitInv(s: State)
    requires Init(s)
    ensures Inv(s)
  {
    SumZeros(Lengths(s.lists));
    SumZeros(s.uncounted);
  }

  lemma {:induction false} SumZeros(s: seq<nat>)
    requires forall i :: 0 <= i < |s| ==> s[i] == 0
    ensures Sum(s) == 0
  {
    if s != [] { SumZeros(s[..|s| - 1]); }
  }

  lemma LengthsUpdate(lists: seq<seq<Buf>>, i: nat, l: seq<Buf>)
    requires i < |lists|
    ensures Lengths(lists[i := l]) == Lengths(lists)[i := |l|]
    ensures Sum(Lengths(lists[i := l])) == Sum(Lengths(lists)) - |lists[i]| + |l|
  {
    assert Lengths(lists[i := l]) == Lengths(lists)[i := |l|];
    SumUpdate(Lengths(lists), i, |l|);
  }

  lemma CounterStep(s: State, a: Step)
    requires Inv(s) && Enabled(s, a)
    ensures CounterLaw(Next(s, a))
  {
    hide FifoLaw, WakeLaw, Sum, Lengths;
    match a
    case Push(i, b) =>
      LengthsUpdate(s.lists, i, s.lists[i] + [b]);
      SumUpdate(s.uncounted, Cpu(s, i), s.uncounted[Cpu(s, i)] + 1);
    case Count(c) => SumUpdate(s.uncounted, c, 0);
    case Take => LengthsUpdate(s.lists, s.main.next, []);
    case _ =>
  }

  lemma FifoStep(s: State, a: Step)
    requires Inv(s) && Enabled(s, a)
    ensures Shape(Next(s, a)) && FifoLaw(Next(s, a)) && WakeLaw(Next(s, a))
  {
    var s' := Next(s, a);
    forall i | 0 <= i < |s'.lists| ensures s'.pushed[i] == s'.done[i] + InHand(s', i) + s'.lists[i] {
      assert s.pushed[i] == s.done[i] + InHand(s, i) + s.lists[i];
    }
  }

  // Every interleaving of tracers and main thread, from the start.
  ghost predicate Run(ss: seq<State>, steps: seq<Step>) {
    && |ss| == |steps| + 1 && Init(ss[0])
    && forall k :: 0 <= k < |steps| ==> Shape(ss[k]) && Enabled(ss[k], steps[k]) && ss[k + 1] == Next(ss[k], steps[k])
  }

  lemma {:induction false} RunInv(ss: seq<State>, steps: seq<Step>, k: nat)
    requires Run(ss, steps) && k < |ss|
    ensures Inv(ss[k])
  {
    if k == 0 {
      InitInv(ss[0]);
    } else {
      RunInv(ss, steps, k - 1);
      CounterStep(ss[k - 1], steps[k - 1]);
      FifoStep(ss[k - 1], steps[k - 1]);
    }
  }

  // ---- What a pass achieves while tracers go on ----

  // The tracer of list `i` may always push; the entry is its own to count, by the number of its cpu.
  lemma PushAlways(s: State, i: nat, b: Buf)
    requires Shape(s) && i < |s.lists|
    ensures Enabled(s, Push(i, b))
    ensures var c := i % s.ncpus; c < |s.uncounted| && Next(s, Push(i, b)).uncounted == s.uncounted[c := s.uncounted[c] + 1]
  {
  }

  // The main thread waits exactly while the counter is zero, and is woken by whoever counts first.
  lemma WaitMeans(s: State, c: nat)
    requires Inv(s)
    ensures s.main.Idle? ==> Next(s, Check).main == if s.dpEntries == 0 then Asleep(false) else Scanning(0, 0)
    ensures s.main.Asleep? && c < |s.uncounted| && s.uncounted[c] > 0 && s.dpEntries == 0 ==> Next(s, Count(c)).main == Asleep(true)
  {
  }

  // The step the main thread takes next, and what is left of its pass.
  ghost function MainStep(s: State): Step {
    match s.main
    case Idle => Check
    case Asleep(_) => Wake
    case Scanning(next, _) => if next < |s.lists| then Take else Finish
    case Handling(_, _, _) => Handle
  }

  // It is never stuck.
  lemma MainGoesOn(s: State)
    requires Inv(s)
    ensures Enabled(s, MainStep(s))
  {
  }

  // In state `s` of a pass that began in `s0`: of the lists that are done with, all that had been pushed
  // by then is handled.
  ghost predicate Covered(s0: State, s: State) {
    && |s0.pushed| == |s.pushed| == |s.done| == |s.lists|
    && (s.main.Scanning? || s.main.Handling?) && s.main.next <= |s.lists|
    && (forall i :: 0 <= i < s.main.next ==> s0.pushed[i] <= s.done[i])
    && (s.main.Handling? && s.main.next < |s.lists| ==> s0.pushed[s.main.next] <= s.done[s.main.next] + s.main.rest)
  }

  ghost predicate Grown(s0: State, s: State) {
    |s0.pushed| == |s.pushed| && forall i :: 0 <= i < |s.pushed| ==> s0.pushed[i] <= s.pushed[i]
  }

  lemma GrownStep(s0: State, s: State, a: Step)
    requires Inv(s) && Enabled(s, a) && Grown(s0, s)
    ensures Grown(s0, Next(s, a))
  {
  }

  lemma CoveredStep(s0: State, s: State, a: Step)
    requires Inv(s) && Enabled(s, a) && Grown(s0, s) && Covered(s0, s) && a != Finish
    ensures Covered(s0, Next(s, a))
  {
    var s' := Next(s, a);
    match a
    case Take =>
      var i := s.main.next;
      assert s.pushed[i] == s.done[i] + InHand(s, i) + s.lists[i];
      assert s0.pushed[i] <= s.done[i] + s.lists[i];
    case Handle =>
      var Handling(i, n, rest) := s.main;
      assert s.done[i] + rest == s.done[i] + [rest[0]] + rest[1..];
    case _ =>
  }

  // A pass, from its start in state `k` of any run: whatever the tracers do meanwhile, when it finishes
  // every buffer that had been pushed before it began has been handled.
  lemma {:induction false} PassInv(ss: seq<State>, steps: seq<Step>, k: nat, m: nat)
    requires Run(ss, steps) && k <= m < |ss| && ss[k].main == Scanning(0, 0) && forall j :: k <= j < m ==> steps[j] != Finish
    ensures Grown(ss[k], ss[m]) && Covered(ss[k], ss[m])
    decreases m
  {
    hide Next, Enabled, Inv;
    RunShape(ss, steps, m);
    if k < m {
      PassInv(ss, steps, k, m - 1);
      RunInv(ss, steps, m - 1);
      GrownStep(ss[k], ss[m - 1], steps[m - 1]);
      CoveredStep(ss[k], ss[m - 1], steps[m - 1]);
    }
  }

  lemma RunShape(ss: seq<State>, steps: seq<Step>, k: nat)
    requires Run(ss, steps) && k < |ss|
    ensures |ss[k].pushed| == |ss[k].done| == |ss[k].lists|
  {
    hide Next, Enabled;
    RunInv(ss, steps, k);
  }

  lemma PassHandlesAll(ss: seq<State>, steps: seq<Step>, k: nat, m: nat)
    requires Run(ss, steps) && k <= m < |steps| && ss[k].main == Scanning(0, 0) && steps[m] == Finish
    requires forall j :: k <= j < m ==> steps[j] != Finish
    ensures |ss[m + 1].done| == |ss[k].pushed| && forall i :: 0 <= i < |ss[k].pushed| ==> ss[k].pushed[i] <= ss[m + 1].done[i]
  {
    PassInv(ss, steps, k, m);
  }

  // Once the tracers have joined and the main thread is between passes, the counter is the
  // number of queued buffers: clean_trace_bufs stops exactly when nothing is left, and then
  // every buffer has been handled, in order.
  ghost predicate Joined(s: State) {
    s.main.Idle? && forall c :: 0 <= c < |s.uncounted| ==> s.uncounted[c] == 0
  }

  lemma AfterJoin(ss: seq<State>, steps: seq<Step>, k: nat)
    requires Run(ss, steps) && k < |ss| && Joined(ss[k])
    ensures ss[k].dpEntries == Queued(ss[k])
    ensures ss[k].dpEntries == 0 <==> forall i :: 0 <= i < |ss[k].lists| ==> ss[k].lists[i] == []
    ensures ss[k].dpEntries == 0 ==> ss[k].done == ss[k].pushed
  {
    var s := ss[k];
    RunInv(ss, steps, k);
    SumZeros(s.uncounted);
    if s.dpEntries == 0 {
      forall i | 0 <= i < |s.lists| ensures s.lists[i] == [] && s.done[i] == s.pushed[i] {
        SumAtLeast(Lengths(s.lists), i);
        assert Lengths(s.lists)[i] == |s.lists[i]|;
      }
    } else if forall i :: 0 <= i < |s.lists| ==> s.lists[i] == [] {
      SumZeros(Lengths(s.lists));
    }
  }

  // ---- The main thread alone, after the tracers have joined ----

  class Consumer {
    var lists: seq<seq<Buf>>
    var dpEntries: int
    var done: seq<seq<Buf>>

    constructor (lists: seq<seq<Buf>>, dpEntries: int, done: seq<seq<Buf>>)
      ensures this.lists == lists && this.dpEntries == dpEntries && this.done == done
    {
      this.lists, this.dpEntries, this.done := lists, dpEntries, done;
    }

    // handle_list: every buffer of one list, in order.
    method HandleList(i: nat, list: seq<Buf>) returns (handled: nat)
      requires i < |done|
      modifies this`done
      ensures handled == |list| && done == old(done)[i := old(done)[i] + list]
    {
      handled := 0;
      while handled < |list|
        invariant handled <= |list| && |done| == |old(done)| && done[i] == old(done)[i] + list[..handled]
        invariant forall k :: 0 <= k < |done| && k != i ==> done[k] == old(done)[k]
      {
        assert list[..handled + 1] == list[..handled] + [list[handled]];
        done := done[i := done[i] + [list[handled]]];
        handled := handled + 1;
      }
      assert list[..|list|] == list;
    }

    // __process_trace_bufs: one pass over all lists.
    method ProcessTraceBufs()
      requires |done| == |lists|
      modifies this
      ensures |done| == |lists| == old(|lists|)
      ensures forall i :: 0 <= i < |lists| ==> lists[i] == [] && done[i] == old(done)[i] + old(lists)[i]
      ensures dpEntries == old(dpEntries) - Sum(Lengths(old(lists)))
    {
      var handled := 0;
      var i := 0;
      while i < |lists|
        invariant 0 <= i <= |lists| == old(|lists|) == |done|
        invariant forall k :: 0 <= k < i ==> lists[k] == [] && done[k] == old(done)[k] + old(lists)[k]
        invariant forall k :: i <= k < |lists| ==> lists[k] == old(lists)[k] && done[k] == old(done)[k]
        invariant handled + Sum(Lengths(lists)) == Sum(Lengths(old(lists))) && dpEntries == old(dpEntries)
      {
        if lists[i] != [] {
          var list := lists[i];
          LengthsUpdate(lists, i, []);
          lists := lists[i := []];
          var n := HandleList(i, list);
          handled := handled + n;
        }
        i := i + 1;
      }
      SumZeros(Lengths(lists));
      if handled != 0 {
        dpEntries := dpEntries - handled;
      }
    }

    // clean_trace_bufs ends, with every list empty and every buffer handled in order.
    method CleanTraceBufs()
      requires |done| == |lists| && dpEntries == Sum(Lengths(lists))
      modifies this
      ensures |done| == |lists| == old(|lists|) && dpEntries == 0
      ensures forall i :: 0 <= i < |lists| ==> lists[i] == [] && done[i] == old(done)[i] + old(lists)[i]
    {
      if dpEntries == 0 {
        forall i | 0 <= i < |lists| ensures lists[i] == [] {
          SumAtLeast(Lengths(lists), i);
          assert Lengths(lists)[i] == |lists[i]|;
        }
      }
      while dpEntries != 0
        invariant |done| == |lists| == old(|lists|)
        invariant dpEntries == 0 || (dpEntries == old(dpEntries) && lists == old(lists) && done == old(done))
        invariant dpEntries == 0 ==> forall i :: 0 <= i < |lists| ==> lists[i] == [] && done[i] == old(done)[i] + old(lists)[i]
        decreases if dpEntries == 0 then 0 else 1
      {
        ProcessTraceBufs();
      }
    }
  }

  // From every state after the join, in every run, clean_trace_bufs ends with each buffer that was
  // ever pushed handled exactly once, in order.
  method DrainAfterJoin(s: State, ghost ss: seq<State>, ghost steps: seq<Step>, ghost k: nat) returns (done: seq<seq<Buf>>)
    requires Run(ss, steps) && k < |ss| && s == ss[k] && Joined(s)
    ensures done == s.pushed
  {
    AfterJoin(ss, steps, k);
    RunInv(ss, steps, k);
    var c := new Consumer(s.lists, s.dpEntries, s.done);
    c.CleanTraceBufs();
    done := c.done;
    forall i | 0 <= i < |s.pushed| ensures done[i] == s.pushed[i] {
      assert InHand(s, i) == [];
    }
  }
}
