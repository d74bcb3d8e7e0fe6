/**
 The k-way merge of external/blktrace/blkparse.c, file mode: streams kept in a
 list ordered by the time of their first queued trace (ms_sort, ms_resort,
 ms_deq, ms_prime, ms_alloc, lines 2257-2406), and the loop of handle and
 do_file (lines 2452-2536).

 The list headed by ms_head is a sequence of stream numbers.
*/
module StreamMerge {
  import opened Sums

  // A record of an input file; `notify` marks the notification records that ms_prime handles
  // at once and does not queue.
  datatype Trace = Trace(time: nat, notify: bool, id: nat)

  datatype Emit = Emit(stream: nat, trace: Trace)

  // The records of a file that are to be merged.
  ghost function Visible(l: seq<Trace>): seq<Trace> {
    if l == [] then [] else (if l[0].notify then [] else [l[0]]) + Visible(l[1..])
  }

  // They are those that are not notifications, and stay in order.
  lemma {:induction false} VisibleMeans(l: seq<Trace>, t: Trace)
    ensures t in Visible(l) <==> t in l && !t.notify
    ensures multiset(Visible(l))[t] == if t.notify then 0 else multiset(l)[t]
    decreases |l|
  {
    if l != [] {
      assert l == [l[0]] + l[1..];
      VisibleMeans(l[1..], t);
    }
  }

  lemma {:induction false} VisibleAppend(a: seq<Trace>, b: seq<Trace>)
    ensures Visible(a + b) == Visible(a) + Visible(b)
    decreases |a|
  {
    if a == [] {
      assert a + b == b;
    } else {
      assert (a + b)[1..] == a[1..] + b;
      VisibleAppend(a[1..], b);
    }
  }

  // What has been emitted from stream `s`.
  ghost function Of(out: seq<Emit>, s: nat): seq<Trace> {
    if out == [] then []
    else Of(out[..|out| - 1], s) + if out[|out| - 1].stream == s then [out[|out| - 1].trace] else []
  }

  ghost predicate TimeOrdered(l: seq<Trace>) {
    forall i, j :: 0 <= i < j < |l| ==> l[i].time <= l[j].time
  }

  // The streams in the list have queued traces, and come in the order of their first ones.
  ghost predicate Listed(order: seq<nat>, queue: seq<seq<Trace>>) {
    && (forall i :: 0 <= i < |order| ==> order[i] < |queue| && queue[order[i]] != [])
    && (forall i, j :: 0 <= i < j < |order| ==> order[i] != order[j])
  }

  ghost predicate InOrder(order: seq<nat>, queue: seq<seq<Trace>>)
    requires Listed(order, queue)
  {
    forall i, j :: 0 <= i < j < |order| ==> queue[order[i]][0].time <= queue[order[j]][0].time
  }

  // Where ms_sort puts `s`: in front only if it is earlier than the head, and else behind the head and
  // the streams that are earlier, but in front of others of the same time.
  ghost predicate GoesTo(order: seq<nat>, queue: seq<seq<Trace>>, s: nat, p: nat)
    requires Listed(order, queue) && s < |queue| && queue[s] != []
  {
    && p <= |order|
    && (p == 0 <==> order == [] || queue[s][0].time < queue[order[0]][0].time)
    && (forall i :: 1 <= i < p ==> queue[order[i]][0].time < queue[s][0].time)
    && (0 < p < |order| ==> queue[s][0].time <= queue[order[p]][0].time)
  }

  // ms_sort: `s` goes to the front if it is earliest, else behind the head and every stream
  // that is strictly earlier.
  method Sort(order: seq<nat>, queue: seq<seq<Trace>>, s: nat) returns (order': seq<nat>, ghost p: nat)
    requires Listed(order, queue) && InOrder(order, queue) && s < |queue| && queue[s] != [] && s !in order
    ensures p <= |order| && order' == order[..p] + [s] + order[p..] && GoesTo(order, queue, s, p)
    ensures Listed(order', queue) && InOrder(order', queue)
  {
    var t := queue[s][0].time;
    if order == [] {
      order', p := [s], 0;
    } else if t < queue[order[0]][0].time {
      order', p := [s] + order, 0;
      assert order' == order[..0] + [s] + order[0..];
    } else {
      var i := 0;
      while i + 1 < |order| && queue[order[i + 1]][0].time < t
        invariant i < |order| && queue[order[i]][0].time <= t
        invariant forall j :: 1 <= j <= i ==> queue[order[j]][0].time < t
      {
        i := i + 1;
      }
      order', p := order[..i + 1] + [s] + order[i + 1..], i + 1;
    }
    Inserted(order, queue, s, p);
  }

  // Where an element of the extended list comes from.
  function From(order: seq<nat>, p: nat, s: nat, i: nat): nat
    requires p <= |order| && i <= |order|
  {
    if i < p then order[i] else if i == p then s else order[i - 1]
  }

  lemma InsertedAt(order: seq<nat>, p: nat, s: nat, i: nat)
    requires p <= |order| && i <= |order|
    ensures (order[..p] + [s] + order[p..])[i] == From(order, p, s, i)
  {
  }

  lemma Inserted(order: seq<nat>, queue: seq<seq<Trace>>, s: nat, p: nat)
    requires Listed(order, queue) && InOrder(order, queue) && s < |queue| && queue[s] != [] && s !in order && p <= |order|
    requires p > 0 ==> queue[order[p - 1]][0].time <= queue[s][0].time
    requires p < |order| ==> queue[s][0].time <= queue[order[p]][0].time
    ensures Listed(order[..p] + [s] + order[p..], queue) && InOrder(order[..p] + [s] + order[p..], queue)
  {
    var o := order[..p] + [s] + order[p..];
    forall i | 0 <= i < |o| ensures o[i] == From(order, p, s, i) && o[i] < |queue| && queue[o[i]] != [] {
      InsertedAt(order, p, s, i);
    }
    forall i, j | 0 <= i < j < |o| ensures o[i] != o[j] && queue[o[i]][0].time <= queue[o[j]][0].time {
      InsertedAt(order, p, s, i);
      InsertedAt(order, p, s, j);
    }
  }

  // ms_prime: up to `batch` traces are queued; notifications on the way are not counted.
  method Prime(unread0: seq<Trace>, queue0: seq<Trace>, batch: nat) returns (unread: seq<Trace>, queue: seq<Trace>, ndone: nat)
    requires batch > 0
    ensures queue + Visible(unread) == queue0 + Visible(unread0)
    ensures queue0 <= queue && |queue| == |queue0| + ndone
    ensures ndone <= batch && (ndone < batch ==> unread == [])
    ensures ndone == 0 ==> Visible(unread) == [] && queue == queue0
    ensures |unread| <= |unread0|
  {
    unread, queue, ndone := unread0, queue0, 0;
    var i := 0;
    while i < batch && unread != []
      invariant i <= batch && ndone == i && queue + Visible(unread) == queue0 + Visible(unread0)
      invariant queue0 <= queue && |queue| == |queue0| + ndone && |unread| <= |unread0|
      decreases |unread|
    {
      var t := unread[0];
      assert queue + Visible(unread) == queue + (if t.notify then [] else [t]) + Visible(unread[1..]);
      unread := unread[1..];
      if !t.notify {
        queue := queue + [t];
        ndone := ndone + 1;
        i := i + 1;
      }
    }
  }

  // ---- ms_deq ----

  // Only stream `s` moves on, by one trace; the list loses it exactly when nothing is left of it.
  ghost predicate Dequeued(order: seq<nat>, queue: seq<seq<Trace>>, unread: seq<seq<Trace>>,
                           order': seq<nat>, queue': seq<seq<Trace>>, unread': seq<seq<Trace>>, s: nat)
  {
    && |queue'| == |queue| == |unread| == |unread'| && s < |queue| && queue[s] != []
    && (forall r :: 0 <= r < |queue| && r != s ==> queue'[r] == queue[r] && unread'[r] == unread[r])
    && queue'[s] + Visible(unread'[s]) == queue[s][1..] + Visible(unread[s])
    && Listed(order', queue') && InOrder(order', queue')
    && (forall r :: r in order' ==> r in order)
    && (forall r :: r in order && r != s ==> r in order')
    && (s !in order' ==> queue'[s] == [] && Visible(unread'[s]) == [])
  }

  // The head is taken out if nothing is left of it, stays if it is not later than the next, and else
  // is sorted in again.
  ghost predicate Resorted(order: seq<nat>, queue: seq<seq<Trace>>, order': seq<nat>)
    requires order != [] && (forall i :: 0 <= i < |order| ==> order[i] < |queue|) && Listed(order[1..], queue)
  {
    var s := order[0];
    if queue[s] == [] then order' == order[1..]
    else if |order| == 1 || queue[s][0].time <= queue[order[1]][0].time then order' == order
    else exists p: nat :: GoesTo(order[1..], queue, s, p) && order' == order[1..][..p] + [s] + order[1..][p..]
  }

  // ms_deq on the head of the list, with ms_prime and ms_resort.
  method Deq(order: seq<nat>, queue: seq<seq<Trace>>, unread: seq<seq<Trace>>, batch: nat)
    returns (order': seq<nat>, queue': seq<seq<Trace>>, unread': seq<seq<Trace>>)
    requires batch > 0 && order != [] && |queue| == |unread| && Listed(order, queue) && InOrder(order, queue)
    ensures Dequeued(order, queue, unread, order', queue', unread', order[0])
    ensures Resorted(order, queue', order')
  {
    var s := order[0];
    order', unread' := order, unread;
    queue' := queue[s := queue[s][1..]];
    if queue'[s] == [] {
      var u, q, n := Prime(unread[s], [], batch);
      unread', queue' := unread[s := u], queue'[s := q];
      if n == 0 {
        order' := order[1..];
        Dropped(order, queue, queue');
        return;
      }
    }
    Dropped(order, queue, queue');
    if |order| > 1 && queue'[s][0].time > queue'[order[1]][0].time {
      ghost var p;
      order', p := Sort(order[1..], queue', s);
      SameStreams(order, order', p);
    }
  }

  // Without its head the list is still in order, whatever happens to the head's queue.
  lemma Dropped(order: seq<nat>, queue: seq<seq<Trace>>, queue': seq<seq<Trace>>)
    requires order != [] && Listed(order, queue) && InOrder(order, queue) && |queue'| == |queue|
    requires forall r :: 0 <= r < |queue| && r != order[0] ==> queue'[r] == queue[r]
    ensures Listed(order[1..], queue') && InOrder(order[1..], queue') && order[0] !in order[1..]
    ensures queue'[order[0]] != [] ==> Listed(order, queue')
    ensures queue'[order[0]] != [] && (|order| > 1 ==> queue'[order[0]][0].time <= queue'[order[1]][0].time) ==> InOrder(order, queue')
  {
    var rest := order[1..];
    forall i | 0 <= i < |rest| ensures rest[i] == order[i + 1] && queue'[rest[i]] == queue[order[i + 1]] {
    }
    assert forall i :: 1 <= i < |order| ==> order[i] == rest[i - 1] && queue'[order[i]] == queue[order[i]];
  }

  lemma SameStreams(order: seq<nat>, order': seq<nat>, p: nat)
    requires order != [] && p <= |order[1..]| && order' == order[1..][..p] + [order[0]] + order[1..][p..]
    ensures forall r :: r in order' <==> r in order
  {
    assert order == [order[0]] + order[1..];
    assert order[1..] == order[1..][..p] + order[1..][p..];
  }

  // ---- What every round keeps ----

  ghost predicate Conserved(files: seq<seq<Trace>>, queue: seq<seq<Trace>>, unread: seq<seq<Trace>>, out: seq<Emit>) {
    && |files| == |queue| == |unread|
    && (forall s :: 0 <= s < |files| ==> Visible(files[s]) == Of(out, s) + (queue[s] + Visible(unread[s])))
  }

  // A stream below `n` that is not in the list has nothing left.
  ghost predicate Complete(n: nat, order: seq<nat>, queue: seq<seq<Trace>>, unread: seq<seq<Trace>>) {
    && n <= |queue| == |unread|
    && (forall s :: 0 <= s < n && s !in order ==> queue[s] == [] && Visible(unread[s]) == [])
    && (forall s :: s in order ==> s < n)
  }

  ghost predicate EmitOrdered(out: seq<Emit>) {
    forall i, j :: 0 <= i < j < |out| ==> out[i].trace.time <= out[j].trace.time
  }

  // Nothing emitted is later than anything still to come.
  ghost predicate Bounded(out: seq<Emit>, order: seq<nat>, queue: seq<seq<Trace>>)
    requires Listed(order, queue)
  {
    forall i, r :: 0 <= i < |out| && r in order ==> out[i].trace.time <= queue[r][0].time
  }

  ghost predicate AllOrdered(files: seq<seq<Trace>>) {
    forall s :: 0 <= s < |files| ==> TimeOrdered(Visible(files[s]))
  }

  // The part of a file up to time `limit`.
  ghost function Within(l: seq<Trace>, limit: nat): seq<Trace> {
    if l == [] then [] else (if l[0].time <= limit then [l[0]] else []) + Within(l[1..], limit)
  }

  lemma OfStep(out: seq<Emit>, e: Emit, s: nat)
    ensures Of(out + [e], s) == Of(out, s) + if e.stream == s then [e.trace] else []
  {
    assert (out + [e])[..|out|] == out;
  }

  lemma Regroup(done: seq<Trace>, q: seq<Trace>, v: seq<Trace>)
    requires q != []
    ensures done + (q + v) == (done + [q[0]]) + (q[1..] + v)
  {
    assert q == [q[0]] + q[1..];
  }

  lemma ConservedStep(files: seq<seq<Trace>>, out: seq<Emit>,
                      order: seq<nat>, queue: seq<seq<Trace>>, unread: seq<seq<Trace>>,
                      order': seq<nat>, queue': seq<seq<Trace>>, unread': seq<seq<Trace>>, s: nat)
    requires Conserved(files, queue, unread, out)
    requires Dequeued(order, queue, unread, order', queue', unread', s)
    ensures Conserved(files, queue', unread', out + [Emit(s, queue[s][0])])
  {
    hide Visible, Of, Listed, InOrder;
    var e := Emit(s, queue[s][0]);
    forall r | 0 <= r < |files| ensures Visible(files[r]) == Of(out + [e], r) + (queue'[r] + Visible(unread'[r])) {
      OfStep(out, e, r);
      if r == s {
        Regroup(Of(out, s), queue[s], Visible(unread[s]));
      } else {
        assert Of(out + [e], r) == Of(out, r);
      }
    }
  }

  // How much there is still to emit.
  ghost function Sizes(queue: seq<seq<Trace>>, unread: seq<seq<Trace>>): seq<nat>
    requires |queue| == |unread|
  {
    seq(|queue|, s requires 0 <= s < |queue| => |queue[s]| + |Visible(unread[s])|)
  }

  ghost function Left(queue: seq<seq<Trace>>, unread: seq<seq<Trace>>): nat {
    if |queue| == |unread| then Sum(Sizes(queue, unread)) else 0
  }

  lemma LeftStep(order: seq<nat>, queue: seq<seq<Trace>>, unread: seq<seq<Trace>>,
                 order': seq<nat>, queue': seq<seq<Trace>>, unread': seq<seq<Trace>>, s: nat)
    requires Dequeued(order, queue, unread, order', queue', unread', s)
    ensures Left(queue', unread') == Left(queue, unread) - 1
  {
    var a, b := Sizes(queue, unread), Sizes(queue', unread');
    assert |queue'[s] + Visible(unread'[s])| == a[s] - 1;
    assert b == a[s := b[s]];
    SumUpdate(a, s, b[s]);
  }

  // In an ordered file the next trace of a stream is not earlier than the one just emitted.
  lemma NextNotEarlier(file: seq<Trace>, before: seq<Trace>, t: Trace, rest: seq<Trace>)
    requires TimeOrdered(file) && file == before + [t] + rest && rest != []
    ensures t.time <= rest[0].time
  {
    assert file[|before|] == t && file[|before| + 1] == rest[0];
  }

  lemma HeadEarliest(order: seq<nat>, queue: seq<seq<Trace>>, r: nat)
    requires Listed(order, queue) && InOrder(order, queue) && r in order
    ensures queue[order[0]][0].time <= queue[r][0].time
  {
    var j :| 0 <= j < |order| && order[j] == r;
  }

  lemma BoundedStep(files: seq<seq<Trace>>, out: seq<Emit>,
                    order: seq<nat>, queue: seq<seq<Trace>>, unread: seq<seq<Trace>>,
                    order': seq<nat>, queue': seq<seq<Trace>>, unread': seq<seq<Trace>>)
    requires AllOrdered(files) && order != [] && Listed(order, queue) && InOrder(order, queue)
    requires Conserved(files, queue, unread, out) && Bounded(out, order, queue) && EmitOrdered(out)
    requires Dequeued(order, queue, unread, order', queue', unread', order[0])
    ensures EmitOrdered(out + [Emit(order[0], queue[order[0]][0])])
    ensures Bounded(out + [Emit(order[0], queue[order[0]][0])], order', queue')
  {
    var s := order[0];
    var t := queue[s][0];
    assert forall i :: 0 <= i < |out| ==> out[i].trace.time <= t.time;
    forall r | r in order' ensures t.time <= queue'[r][0].time {
      if r == s {
        assert queue[s] == [t] + queue[s][1..];
        assert Visible(files[s]) == Of(out, s) + [t] + (queue[s][1..] + Visible(unread[s]));
        NextNotEarlier(Visible(files[s]), Of(out, s), t, queue'[s] + Visible(unread'[s]));
      } else {
        HeadEarliest(order, queue, r);
      }
    }
  }

  lemma {:induction false} WithinAll(l: seq<Trace>, limit: nat)
    requires forall i :: 0 <= i < |l| ==> l[i].time <= limit
    ensures Within(l, limit) == l
  {
    if l != [] { WithinAll(l[1..], limit); }
  }

  lemma {:induction false} WithinNone(l: seq<Trace>, limit: nat)
    requires forall i :: 0 <= i < |l| ==> limit < l[i].time
    ensures Within(l, limit) == []
  {
    if l != [] { WithinNone(l[1..], limit); }
  }

  lemma {:induction false} WithinAppend(a: seq<Trace>, b: seq<Trace>, limit: nat)
    ensures Within(a + b, limit) == Within(a, limit) + Within(b, limit)
  {
    if a == [] {
      assert a + b == b;
    } else {
      assert (a + b)[1..] == a[1..] + b && (a + b)[0] == a[0];
      WithinAppend(a[1..], b, limit);
      var head := if a[0].time <= limit then [a[0]] else [];
      assert Within(a + b, limit) == head + Within(a[1..] + b, limit);
      assert Within(a, limit) == head + Within(a[1..], limit);
    }
  }

  lemma {:induction false} OfIsEmitted(out: seq<Emit>, s: nat, limit: nat)
    requires forall i :: 0 <= i < |out| ==> out[i].trace.time <= limit
    ensures forall k :: 0 <= k < |Of(out, s)| ==> Of(out, s)[k].time <= limit
  {
    if out != [] {
      var init := out[..|out| - 1];
      assert forall i :: 0 <= i < |init| ==> init[i] == out[i];
      OfIsEmitted(init, s, limit);
      assert out[|out| - 1].trace.time <= limit;
    }
  }

  // What is emitted of a stream is its part up to the limit, once nothing below the limit is left.
  lemma WithinEmitted(file: seq<Trace>, out: seq<Emit>, s: nat, rest: seq<Trace>, limit: nat)
    requires TimeOrdered(file) && file == Of(out, s) + rest
    requires forall i :: 0 <= i < |out| ==> out[i].trace.time <= limit
    requires rest != [] ==> limit < rest[0].time
    ensures Of(out, s) == Within(file, limit)
  {
    var done := Of(out, s);
    OfIsEmitted(out, s, limit);
    forall k | 0 <= k < |rest| ensures limit < rest[k].time {
      assert file[|done|] == rest[0] && file[|done| + k] == rest[k];
    }
    WithinAll(done, limit);
    WithinNone(rest, limit);
    WithinAppend(done, rest, limit);
  }

  // ---- The run ----

  ghost predicate Inv(files: seq<seq<Trace>>, n: nat, order: seq<nat>, queue: seq<seq<Trace>>, unread: seq<seq<Trace>>, out: seq<Emit>) {
    && AllOrdered(files)
    && Conserved(files, queue, unread, out)
    && Listed(order, queue) && InOrder(order, queue)
    && Complete(n, order, queue, unread)
    && EmitOrdered(out) && Bounded(out, order, queue)
  }

  lemma InvParts(files: seq<seq<Trace>>, n: nat, order: seq<nat>, queue: seq<seq<Trace>>, unread: seq<seq<Trace>>, out: seq<Emit>)
    requires Inv(files, n, order, queue, unread, out)
    ensures |files| == |queue| == |unread| && Listed(order, queue) && InOrder(order, queue) && EmitOrdered(out)
    ensures order != [] ==> order[0] < |queue| && queue[order[0]] != []
  {
  }

  lemma InvStart(files: seq<seq<Trace>>)
    requires AllOrdered(files)
    ensures Inv(files, 0, [], seq(|files|, i => []), files, [])
  {
    var queue: seq<seq<Trace>> := seq(|files|, i => []);
    assert forall s :: 0 <= s < |files| ==> Of([], s) + (queue[s] + Visible(files[s])) == Visible(files[s]);
  }

  // Priming stream `n`, before it is put into the list.
  lemma InvPrimed(files: seq<seq<Trace>>, n: nat, order: seq<nat>, queue: seq<seq<Trace>>, unread: seq<seq<Trace>>,
                  q: seq<Trace>, u: seq<Trace>)
    requires Inv(files, n, order, queue, unread, []) && n < |files|
    requires q + Visible(u) == queue[n] + Visible(unread[n])
    ensures Conserved(files, queue[n := q], unread[n := u], [])
    ensures Listed(order, queue[n := q]) && InOrder(order, queue[n := q]) && n !in order
  {
    forall i | 0 <= i < |order| ensures queue[n := q][order[i]] == queue[order[i]] {
      assert order[i] in order;
    }
  }

  lemma InvAlloc(files: seq<seq<Trace>>, n: nat, order: seq<nat>, queue: seq<seq<Trace>>, unread: seq<seq<Trace>>,
                 q: seq<Trace>, u: seq<Trace>, order': seq<nat>)
    requires Inv(files, n, order, queue, unread, []) && n < |files|
    requires q + Visible(u) == queue[n] + Visible(unread[n])
    requires if order' == order then q == [] && Visible(u) == [] else forall s :: s in order' <==> s in order || s == n
    requires Listed(order', queue[n := q]) && InOrder(order', queue[n := q])
    ensures Inv(files, n + 1, order', queue[n := q], unread[n := u], [])
  {
    InvPrimed(files, n, order, queue, unread, q, u);
  }

  lemma InvHandle(files: seq<seq<Trace>>, n: nat, out: seq<Emit>,
                  order: seq<nat>, queue: seq<seq<Trace>>, unread: seq<seq<Trace>>,
                  order': seq<nat>, queue': seq<seq<Trace>>, unread': seq<seq<Trace>>)
    requires Inv(files, n, order, queue, unread, out) && order != []
    requires Dequeued(order, queue, unread, order', queue', unread', order[0])
    ensures Inv(files, n, order', queue', unread', out + [Emit(order[0], queue[order[0]][0])])
    ensures Left(queue', unread') < Left(queue, unread)
  {
    hide *;
    HandleParts(files, n, out, order, queue, unread, order', queue', unread');
    ConservedStep(files, out, order, queue, unread, order', queue', unread', order[0]);
    BoundedStep(files, out, order, queue, unread, order', queue', unread');
    LeftStep(order, queue, unread, order', queue', unread', order[0]);
    InvJoin(files, n, order', queue', unread', out + [Emit(order[0], queue[order[0]][0])]);
  }

  lemma HandleParts(files: seq<seq<Trace>>, n: nat, out: seq<Emit>,
                    order: seq<nat>, queue: seq<seq<Trace>>, unread: seq<seq<Trace>>,
                    order': seq<nat>, queue': seq<seq<Trace>>, unread': seq<seq<Trace>>)
    requires Inv(files, n, order, queue, unread, out) && order != []
    requires Dequeued(order, queue, unread, order', queue', unread', order[0])
    ensures AllOrdered(files) && Conserved(files, queue, unread, out) && Listed(order, queue) && InOrder(order, queue)
    ensures Bounded(out, order, queue) && EmitOrdered(out)
    ensures order[0] < |queue| && queue[order[0]] != []
    ensures Listed(order', queue') && InOrder(order', queue') && Complete(n, order', queue', unread')
  {
  }

  lemma InvJoin(files: seq<seq<Trace>>, n: nat, order: seq<nat>, queue: seq<seq<Trace>>, unread: seq<seq<Trace>>, out: seq<Emit>)
    requires AllOrdered(files) && Conserved(files, queue, unread, out)
    requires Listed(order, queue) && InOrder(order, queue) && Complete(n, order, queue, unread)
    requires EmitOrdered(out) && Bounded(out, order, queue)
    ensures Inv(files, n, order, queue, unread, out)
  {
  }

  // When the list is empty or its head is past the limit, every stream has been emitted up to the limit.
  lemma InvEnd(files: seq<seq<Trace>>, order: seq<nat>, queue: seq<seq<Trace>>, unread: seq<seq<Trace>>, out: seq<Emit>, limit: nat)
    requires Inv(files, |files|, order, queue, unread, out)
    requires forall i :: 0 <= i < |out| ==> out[i].trace.time <= limit
    requires order == [] || (order[0] < |queue| && queue[order[0]] != [] && limit < queue[order[0]][0].time)
    ensures forall s :: 0 <= s < |files| ==> Of(out, s) == Within(Visible(files[s]), limit)
  {
    forall s | 0 <= s < |files| ensures Of(out, s) == Within(Visible(files[s]), limit) {
      if s in order { HeadEarliest(order, queue, s); }
      WithinEmitted(Visible(files[s]), out, s, queue[s] + Visible(unread[s]), limit);
    }
  }

  lemma Extended(order: seq<nat>, p: nat, n: nat)
    requires p <= |order|
    ensures forall s :: s in order[..p] + [n] + order[p..] <==> s in order || s == n
    ensures order[..p] + [n] + order[p..] != order
  {
    assert order == order[..p] + order[p..];
    assert |order[..p] + [n] + order[p..]| == |order| + 1;
  }

  /** The state of do_file: the list, the queues and unread parts of the streams, and the traces
      handled so far. */
  class Merger {
    const files: seq<seq<Trace>>
    const batch: nat
    var order: seq<nat>
    var queue: seq<seq<Trace>>
    var unread: seq<seq<Trace>>
    var out: seq<Emit>
    var genesis: nat

    // The first `n` streams are set up.
    ghost predicate Valid(n: nat)
      reads this
    {
      batch > 0 && Inv(files, n, order, queue, unread, out)
    }

    constructor (files: seq<seq<Trace>>, batch: nat)
      requires batch > 0 && AllOrdered(files)
      ensures Valid(0) && this.files == files && this.batch == batch && out == []
      ensures queue == seq(|files|, i => [])
    {
      this.files, this.batch := files, batch;
      order, unread, out, genesis := [], files, [], 0;
      queue := seq(|files|, i => []);
      InvStart(files);
    }

    // setup_file and ms_alloc for the next stream.
    method Alloc(n: nat)
      requires Valid(n) && n < |files| && out == []
      requires |queue| == |files| && queue[n] == []
      modifies this`order, this`queue, this`unread
      ensures Valid(n + 1)
      ensures |queue| == |files| && forall s :: n < s < |files| ==> queue[s] == old(queue)[s]
    {
      hide Inv, Conserved, Listed, InOrder;
      InvParts(files, n, order, queue, unread, out);
      var u, q, done := Prime(unread[n], queue[n], batch);
      InvPrimed(files, n, order, queue, unread, q, u);
      var o := order;
      if done != 0 {
        ghost var p;
        assert queue[n := q][n] == q;
        o, p := Sort(order, queue[n := q], n);
        Extended(order, p, n);
      }
      InvAlloc(files, n, order, queue, unread, q, u, o);
      order, queue, unread := o, queue[n := q], unread[n := u];
    }

    // handle: nothing happens past the stopwatch, else the head's trace is emitted.
    method Handle(end: nat) returns (more: bool)
      requires Valid(|files|) && order != [] && order[0] < |queue| && queue[order[0]] != []
      requires genesis <= queue[order[0]][0].time
      modifies this`order, this`queue, this`unread, this`out
      ensures Valid(|files|)
      ensures more <==> old(queue[order[0]][0].time) - genesis <= end
      ensures !more ==> order == old(order) && queue == old(queue) && unread == old(unread) && out == old(out)
      ensures more ==> out == old(out + [Emit(order[0], queue[order[0]][0])])
      ensures more ==> Left(queue, unread) < old(Left(queue, unread))
    {
      hide Inv, Conserved, Listed, InOrder, Dequeued, Left;
      InvParts(files, |files|, order, queue, unread, out);
      var s := order[0];
      var t := queue[s][0];
      if t.time - genesis > end {
        return false;
      }
      var o, q, u := Deq(order, queue, unread, batch);
      InvHandle(files, |files|, out, order, queue, unread, o, q, u);
      order, queue, unread, out := o, q, u, out + [Emit(s, t)];
      return true;
    }

    // do_file.
    method DoFile(end: nat)
      requires Valid(0) && out == [] && queue == seq(|files|, i => [])
      modifies this
      ensures EmitOrdered(out)
      ensures forall s :: 0 <= s < |files| ==> Of(out, s) == Within(Visible(files[s]), genesis + end)
      ensures forall i :: 0 <= i < |out| ==> genesis <= out[i].trace.time
      ensures out != [] ==> out[0].trace.time == genesis
    {
      hide Inv, Conserved, Listed, InOrder, EmitOrdered, Left, Of, Within, Visible;
      var n := 0;
      while n < |files|
        invariant n <= |files| && Valid(n) && out == []
        invariant |queue| == |files| && forall s :: n <= s < |files| ==> queue[s] == []
      {
        Alloc(n);
        n := n + 1;
      }
      InvParts(files, n, order, queue, unread, out);
      if order != [] {
        genesis := queue[order[0]][0].time;
      }
      var more := true;
      while order != [] && more
        invariant Valid(|files|)
        invariant order != [] ==> order[0] < |queue| && queue[order[0]] != [] && genesis <= queue[order[0]][0].time
        invariant forall i :: 0 <= i < |out| ==> genesis <= out[i].trace.time <= genesis + end
        invariant if out != [] then out[0].trace.time == genesis else order != [] ==> genesis == queue[order[0]][0].time
        invariant !more ==> order != [] && genesis + end < queue[order[0]][0].time
        decreases Left(queue, unread), more
      {
        more := Handle(end);
        InvParts(files, |files|, order, queue, unread, out);
        if more && order != [] {
          LastEmitted(files, |files|, order, queue, unread, out);
        }
      }
      InvParts(files, |files|, order, queue, unread, out);
      InvEnd(files, order, queue, unread, out, genesis + end);
    }
  }

  lemma LastEmitted(files: seq<seq<Trace>>, n: nat, order: seq<nat>, queue: seq<seq<Trace>>, unread: seq<seq<Trace>>, out: seq<Emit>)
    requires Inv(files, n, order, queue, unread, out) && order != [] && out != []
    ensures order[0] < |queue| && queue[order[0]] != [] && out[|out| - 1].trace.time <= queue[order[0]][0].time
  {
  }
}
