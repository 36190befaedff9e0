/**
 The client's worker: it drains queued commands, flushes them in frames over one
 connection, and resends a frame once after a reconnect when every operation in it
 allows that. The network, the clock and the arrival of commands are an oracle.
 */
module ClientWorker {
  import opened Types

  const MAX_FLUSH_OPS := 4096
  const FLUSH_CHUNK := 16

  /** `id` stands for the command's reply channel: its position in the queue. */
  datatype Pending = Pending(id: nat, retrySafe: bool, enqueued: nat)

  datatype Cmd = Batch(p: Pending) | Direct(p: Pending)

  /** `TimedOut` carries the clock reading that the deadline was checked against. */
  datatype Reply<R> = Answered(r: R) | TimedOut(now: nat) | TransportError

  /**
   A frame put on the wire with what came back, or a reply handed to a caller.
   `now` is the clock reading of the flush that sent the frame, `at` the consultation of
   the world that answered it.
   */
  datatype Event<R> =
    | Sent(at: nat, now: nat, ids: seq<nat>, retry: bool, answer: Option<seq<R>>)
    | Replied(id: nat, reply: Reply<R>)

  /**
   The world. The first argument counts the consultations: `connects` says whether a
   connection attempt succeeds, `answers` what comes back for a frame, `clock` reads the
   time, `queued` says how many more commands a drain finds.
   */
  datatype Oracle<R> = Oracle(
    timeout: nat,
    encodable: seq<nat> -> bool,
    connects: nat -> bool,
    answers: (nat, seq<nat>) -> Option<seq<R>>,
    clock: nat -> nat,
    queued: nat -> nat)

  // -------------------------------------------------------- specification

  function Ids(ps: seq<Pending>): (r: seq<nat>)
    ensures |r| == |ps| && forall i :: 0 <= i < |ps| ==> r[i] == ps[i].id
  {
    seq(|ps|, i requires 0 <= i < |ps| => ps[i].id)
  }

  function Pendings(cmds: seq<Cmd>): (r: seq<Pending>)
    ensures |r| == |cmds| && forall i :: 0 <= i < |cmds| ==> r[i] == cmds[i].p
  {
    seq(|cmds|, i requires 0 <= i < |cmds| => cmds[i].p)
  }

  /** Waited out the call timeout; the subtraction saturates at zero. */
  predicate Expired(timeout: nat, now: nat, p: Pending) {
    (if now >= p.enqueued then now - p.enqueued else 0) >= timeout
  }

  function Unexpired(timeout: nat, now: nat, ps: seq<Pending>): seq<Pending> {
    if ps == [] then [] else
    var last := ps[|ps| - 1];
    Unexpired(timeout, now, ps[..|ps| - 1]) + (if Expired(timeout, now, last) then [] else [last])
  }

  function Timeouts<R>(timeout: nat, now: nat, ps: seq<Pending>): seq<Event<R>> {
    if ps == [] then [] else
    var last := ps[|ps| - 1];
    Timeouts(timeout, now, ps[..|ps| - 1])
      + (if Expired(timeout, now, last) then [Replied(last.id, TimedOut(now))] else [])
  }

  /** Every caller of a frame told: its own answer, or the failure. */
  function Told<R>(ids: seq<nat>, a: Option<seq<R>>): (r: seq<Event<R>>)
    requires a.Some? ==> |a.value| == |ids|
    ensures |r| == |ids|
    ensures forall i :: 0 <= i < |ids| ==>
            r[i] == Replied(ids[i], if a.Some? then Answered(a.value[i]) else TransportError)
  {
    seq(|ids|, i requires 0 <= i < |ids| => Replied(ids[i], if a.Some? then Answered(a.value[i]) else TransportError))
  }

  predicate AllSafe(ps: seq<Pending>) { forall i :: 0 <= i < |ps| ==> ps[i].retrySafe }

  datatype Trip<R> = Trip(tick: nat, events: seq<Event<R>>, answers: Option<seq<R>>)

  /** One frame round trip: no answers on an encode failure, a lost connection or a wrong count. */
  function RoundTrip<R>(o: Oracle<R>, tick: nat, now: nat, ids: seq<nat>, retry: bool): (t: Trip<R>)
    ensures t.answers.Some? ==> |t.answers.value| == |ids|
  {
    if !o.encodable(ids) then Trip(tick, [], None) else
    var a := o.answers(tick, ids);
    Trip(tick + 1, [Sent(tick, now, ids, retry, a)], if a.Some? && |a.value| == |ids| then a else None)
  }

  /** One frame, and once more over a new connection when every operation allows it. */
  function Exchange<R>(o: Oracle<R>, tick: nat, now: nat, ps: seq<Pending>): (t: Trip<R>)
    ensures t.answers.Some? ==> |t.answers.value| == |ps|
  {
    var ids := Ids(ps);
    var t1 := RoundTrip(o, tick, now, ids, false);
    if t1.answers.Some? || !AllSafe(ps) then t1
    else if !o.connects(t1.tick) then t1.(tick := t1.tick + 1)
    else
      var t2 := RoundTrip(o, t1.tick + 1, now, ids, true);
      Trip(t2.tick, t1.events + t2.events, t2.answers)
  }

  datatype Flush<R> = Flush(tick: nat, events: seq<Event<R>>, ok: bool)

  /** One run of commands as one frame; `ok` says that the connection survived. */
  function FlushRun<R>(o: Oracle<R>, tick: nat, batch: seq<Pending>): Flush<R> {
    if batch == [] then Flush(tick, [], true) else
    var now := o.clock(tick);
    var early := Timeouts(o.timeout, now, batch);
    var live := Unexpired(o.timeout, now, batch);
    if live == [] then Flush(tick + 1, early, true) else
    var t := Exchange(o, tick + 1, now, live);
    Flush(t.tick, early + t.events + Told(Ids(live), t.answers), t.answers.Some?)
  }

  /** How many commands the next frame takes: one direct command, or up to a chunk of batched ones. */
  function RunLength(cmds: seq<Cmd>): (n: nat)
    requires cmds != []
    ensures 1 <= n <= |cmds| && n <= FLUSH_CHUNK
    ensures n > 1 ==> forall i :: 0 <= i < n ==> cmds[i].Batch?
  {
    if cmds[0].Direct? then 1 else BatchPrefix(cmds, FLUSH_CHUNK)
  }

  function BatchPrefix(cmds: seq<Cmd>, limit: nat): (n: nat)
    ensures n <= |cmds| && n <= limit && forall i :: 0 <= i < n ==> cmds[i].Batch?
    ensures cmds != [] && cmds[0].Batch? && limit > 0 ==> n >= 1
    ensures n < |cmds| && n < limit ==> cmds[n].Direct?
  {
    if limit == 0 || cmds == [] || cmds[0].Direct? then 0 else 1 + BatchPrefix(cmds[1..], limit - 1)
  }

  /** The drained commands in order, frame by frame; after a failure the rest fail fast. */
  function Segments<R>(o: Oracle<R>, tick: nat, cmds: seq<Cmd>): Flush<R>
    decreases |cmds|
  {
    if cmds == [] then Flush(tick, [], true) else
    var n := RunLength(cmds);
    var f := FlushRun(o, tick, Pendings(cmds[..n]));
    if f.ok then
      var g := Segments(o, f.tick, cmds[n..]);
      Flush(g.tick, f.events + g.events, g.ok)
    else Flush(f.tick, f.events + Told(Ids(Pendings(cmds[n..])), None), false)
  }

  /** How many commands one wake-up takes: the first, and those already queued, up to the cap. */
  function DrainLength<R>(o: Oracle<R>, tick: nat, rx: seq<Cmd>): (n: nat)
    requires rx != []
    ensures 1 <= n <= |rx| && n <= MAX_FLUSH_OPS && n <= 1 + o.queued(tick)
    ensures n == |rx| || n == 4096 || n == 1 + o.queued(tick)
  {
    var found := 1 + o.queued(tick);
    if found <= MAX_FLUSH_OPS && found <= |rx| then found
    else if |rx| <= MAX_FLUSH_OPS then |rx| else MAX_FLUSH_OPS
  }

  /** The whole life of the worker on the commands it is ever given. */
  function Loop<R>(o: Oracle<R>, dead: bool, tick: nat, rx: seq<Cmd>): seq<Event<R>>
    decreases |rx|
  {
    if rx == [] then []
    else if dead && !o.connects(tick) then
      Told([rx[0].p.id], None) + Loop(o, true, tick + 1, rx[1..])
    else
      var t := if dead then tick + 1 else tick;
      var n := DrainLength(o, t, rx);
      var s := Segments(o, t + 1, rx[..n]);
      s.events + Loop(o, !s.ok, s.tick, rx[n..])
  }

  // --------------------------------------------------------- what a log shows

  /** Replies that caller `id` got. */
  function Replies<R>(log: seq<Event<R>>, id: nat): nat {
    if log == [] then 0 else
    var last := log[|log| - 1];
    Replies(log[..|log| - 1], id) + (if last.Replied? && last.id == id then 1 else 0)
  }

  /** The operations of all first attempts, in wire order. */
  function FirstIds<R>(log: seq<Event<R>>): seq<nat> {
    if log == [] then [] else
    var last := log[|log| - 1];
    FirstIds(log[..|log| - 1]) + (if last.Sent? && !last.retry then last.ids else [])
  }

  /** Frames on the wire that held operation `id`. */
  function Attempts<R>(log: seq<Event<R>>, id: nat): nat {
    if log == [] then 0 else
    var last := log[|log| - 1];
    Attempts(log[..|log| - 1], id) + (if last.Sent? && id in last.ids then 1 else 0)
  }

  predicate Increasing(s: seq<nat>) { forall i, j :: 0 <= i < j < |s| ==> s[i] < s[j] }

  /** A frame: short, direct commands alone, no expired operation, and resendable as a whole if a resend. */
  predicate FrameFits(timeout: nat, cmds: seq<Cmd>, now: nat, ids: seq<nat>, retry: bool) {
    && 0 < |ids| <= 16
    && forall i :: 0 <= i < |ids| ==>
      && ids[i] < |cmds|
      && (|ids| > 1 ==> cmds[ids[i]].Batch?)
      && !Expired(timeout, now, cmds[ids[i]].p)
      && (retry ==> cmds[ids[i]].p.retrySafe)
  }

  /** A resend repeats the failed first attempt right before it. */
  ghost predicate Repeats<R>(log: seq<Event<R>>, e: nat)
    requires e < |log| && log[e].Sent?
  {
    && e > 0 && log[e - 1].Sent? && !log[e - 1].retry && log[e - 1].ids == log[e].ids
    && !(log[e - 1].answer.Some? && |log[e - 1].answer.value| == |log[e].ids|)
  }

  /** Event `s` is a frame whose answer at the place of operation `id` is `r`. */
  ghost predicate AnswersAt<R>(log: seq<Event<R>>, s: nat, id: nat, r: R) {
    && s < |log| && log[s].Sent? && log[s].answer.Some? && |log[s].answer.value| == |log[s].ids|
    && exists k :: 0 <= k < |log[s].ids| && log[s].ids[k] == id && log[s].answer.value[k] == r
  }

  ghost predicate ReplyFits<R>(timeout: nat, cmds: seq<Cmd>, log: seq<Event<R>>, e: nat)
    requires e < |log| && log[e].Replied?
  {
    var id := log[e].id;
    match log[e].reply
    case Answered(r) => exists s :: 0 <= s < e && AnswersAt(log, s, id, r)
    case TimedOut(now) => id < |cmds| && Expired(timeout, now, cmds[id].p) && id !in FirstIds(log)
    case TransportError => true
  }

  ghost predicate EventFits<R>(timeout: nat, cmds: seq<Cmd>, log: seq<Event<R>>, e: nat)
    requires e < |log|
  {
    if log[e].Sent? then
      FrameFits(timeout, cmds, log[e].now, log[e].ids, log[e].retry) && (log[e].retry ==> Repeats(log, e))
    else ReplyFits(timeout, cmds, log, e)
  }

  /** What the log of a worker shows that has dealt with commands `lo..hi` and no others. */
  ghost predicate Serves<R>(timeout: nat, cmds: seq<Cmd>, log: seq<Event<R>>, lo: nat, hi: nat) {
    && lo <= hi <= |cmds|
    && (forall id: nat :: Replies(log, id) == if lo <= id < hi then 1 else 0)
    && Increasing(FirstIds(log)) && (forall id :: id in FirstIds(log) ==> lo <= id < hi)
    && (forall e :: 0 <= e < |log| ==> EventFits(timeout, cmds, log, e))
  }

  /** Commands are told apart by their position in the queue. */
  predicate Numbered(cmds: seq<Cmd>) {
    forall i :: 0 <= i < |cmds| ==> cmds[i].p.id == i
  }

  // ------------------------------------------------------ logs put together

  lemma {:induction false} RepliesConcat<R>(a: seq<Event<R>>, b: seq<Event<R>>, id: nat)
    ensures Replies(a + b, id) == Replies(a, id) + Replies(b, id)
  {
    if b == [] {
      assert a + b == a;
    } else {
      assert (a + b)[..|a + b| - 1] == a + b[..|b| - 1];
      RepliesConcat(a, b[..|b| - 1], id);
    }
  }

  lemma {:induction false} FirstIdsConcat<R>(a: seq<Event<R>>, b: seq<Event<R>>)
    ensures FirstIds(a + b) == FirstIds(a) + FirstIds(b)
  {
    if b == [] {
      assert a + b == a;
    } else {
      var front, last := b[..|b| - 1], b[|b| - 1];
      assert (a + b)[..|a + b| - 1] == a + front;
      FirstIdsConcat(a, front);
      Glue(FirstIds(a), FirstIds(front), if last.Sent? && !last.retry then last.ids else []);
    }
  }

  lemma {:induction false} RepliedIsCounted<R>(log: seq<Event<R>>, e: nat)
    requires e < |log| && log[e].Replied?
    ensures Replies(log, log[e].id) > 0
  {
    if e < |log| - 1 { RepliedIsCounted(log[..|log| - 1], e); }
  }

  /** An event keeps fitting when the log grows behind it and nothing behind sends what it refused. */
  lemma FitsBefore<R>(timeout: nat, cmds: seq<Cmd>, a: seq<Event<R>>, b: seq<Event<R>>, e: nat)
    requires e < |a| && EventFits(timeout, cmds, a, e)
    requires a[e].Replied? ==> a[e].id !in FirstIds(b)
    ensures EventFits(timeout, cmds, a + b, e)
  {
    hide Replies, FirstIds, FrameFits, Expired, Attempts;
    FirstIdsConcat(a, b);
    if a[e].Replied? && a[e].reply.Answered? {
      var s :| 0 <= s < e && AnswersAt(a, s, a[e].id, a[e].reply.r);
      assert (a + b)[s] == a[s];
      assert AnswersAt(a + b, s, a[e].id, a[e].reply.r);
    }
  }

  lemma FitsAfter<R>(timeout: nat, cmds: seq<Cmd>, a: seq<Event<R>>, b: seq<Event<R>>, e: nat)
    requires e < |b| && EventFits(timeout, cmds, b, e)
    requires b[e].Replied? ==> b[e].id !in FirstIds(a)
    ensures EventFits(timeout, cmds, a + b, |a| + e)
  {
    hide Replies, FirstIds, FrameFits, Expired, Attempts;
    FirstIdsConcat(a, b);
    assert (a + b)[|a| + e] == b[e];
    if b[e].Replied? && b[e].reply.Answered? {
      var s :| 0 <= s < e && AnswersAt(b, s, b[e].id, b[e].reply.r);
      assert (a + b)[|a| + s] == b[s];
      assert AnswersAt(a + b, |a| + s, b[e].id, b[e].reply.r);
    }
  }

  lemma ServesNothing<R>(timeout: nat, cmds: seq<Cmd>, none: seq<Event<R>>, at: nat)
    requires at <= |cmds| && none == []
    ensures Serves(timeout, cmds, none, at, at)
  {
    assert FirstIds(none) == [];
    assert forall id: nat :: Replies(none, id) == 0;
  }

  lemma IncreasingInTurn(x: seq<nat>, y: seq<nat>, lo: nat, mid: nat, hi: nat)
    requires Increasing(x) && (forall id :: id in x ==> lo <= id < mid)
    requires Increasing(y) && (forall id :: id in y ==> mid <= id < hi)
    ensures Increasing(x + y)
  {
    forall i, j | 0 <= i < j < |x + y| ensures (x + y)[i] < (x + y)[j] {
      assert i < |x| ==> x[i] in x;
      assert j >= |x| ==> y[j - |x|] in y;
    }
  }

  lemma ServesInTurn<R>(timeout: nat, cmds: seq<Cmd>, a: seq<Event<R>>, b: seq<Event<R>>, lo: nat, mid: nat, hi: nat)
    requires Serves(timeout, cmds, a, lo, mid) && Serves(timeout, cmds, b, mid, hi)
    ensures Serves(timeout, cmds, a + b, lo, hi)
  {
    hide Replies, FirstIds, EventFits;
    FirstIdsConcat(a, b);
    IncreasingInTurn(FirstIds(a), FirstIds(b), lo, mid, hi);
    forall id: nat ensures Replies(a + b, id) == if lo <= id < hi then 1 else 0 { RepliesConcat(a, b, id); }
    forall e | 0 <= e < |a + b| ensures EventFits(timeout, cmds, a + b, e) {
      if e < |a| {
        if a[e].Replied? { RepliedIsCounted(a, e); }
        FitsBefore(timeout, cmds, a, b, e);
      } else {
        if b[e - |a|].Replied? { RepliedIsCounted(b, e - |a|); }
        FitsAfter(timeout, cmds, a, b, e - |a|);
      }
    }
  }

  // ------------------------------------------------------------- one flush

  predicate Consecutive(ps: seq<Pending>, lo: nat) { forall i :: 0 <= i < |ps| ==> ps[i].id == lo + i }

  lemma OneEvent<R>(ev: Event<R>)
    ensures FirstIds([ev]) == if ev.Sent? && !ev.retry then ev.ids else []
    ensures forall id: nat :: Replies([ev], id) == if ev.Replied? && ev.id == id then 1 else 0
  {
    assert [ev][..0] == [];
  }

  lemma TimeoutsStep<R>(timeout: nat, now: nat, front: seq<Pending>, last: Pending)
    ensures Timeouts<R>(timeout, now, front + [last])
         == Timeouts<R>(timeout, now, front)
           + (if Expired(timeout, now, last) then [Replied(last.id, TimedOut(now))] else [])
  {
    hide Expired;
    assert (front + [last])[..|front|] == front;
  }

  lemma {:induction false} TimeoutReplies<R>(timeout: nat, now: nat, ps: seq<Pending>, lo: nat, id: nat)
    requires Consecutive(ps, lo)
    ensures Replies(Timeouts<R>(timeout, now, ps), id) ==
            if lo <= id < lo + |ps| && Expired(timeout, now, ps[id - lo]) then 1 else 0
  {
    hide Expired;
    if ps == [] {
      assert Timeouts<R>(timeout, now, ps) == [];
    } else {
      hide Replies, Timeouts;
      var n := |ps| - 1;
      TimeoutReplies<R>(timeout, now, ps[..n], lo, id);
      TimeoutsStep<R>(timeout, now, ps[..n], ps[n]);
      assert ps == ps[..n] + [ps[n]];
      var before: seq<Event<R>>, ev: Event<R> := Timeouts(timeout, now, ps[..n]), Replied(ps[n].id, TimedOut(now));
      OneEvent(ev);
      RepliesConcat(before, [ev], id);
      assert before + [] == before;
    }
  }

  lemma {:induction false} TimeoutEvent<R>(timeout: nat, now: nat, ps: seq<Pending>, lo: nat, e: nat)
    requires Consecutive(ps, lo)
    requires e < |Timeouts<R>(timeout, now, ps)|
    ensures var ev: Event<R> := Timeouts(timeout, now, ps)[e];
      && ev.Replied? && ev.reply == TimedOut(now)
      && lo <= ev.id < lo + |ps| && Expired(timeout, now, ps[ev.id - lo])
  {
    hide Expired;
    var before: seq<Event<R>> := Timeouts(timeout, now, ps[..|ps| - 1]);
    if e < |before| { TimeoutEvent<R>(timeout, now, ps[..|ps| - 1], lo, e); }
  }

  lemma {:induction false} TimeoutsSendNothing<R>(timeout: nat, now: nat, ps: seq<Pending>)
    ensures FirstIds(Timeouts<R>(timeout, now, ps)) == []
  {
    hide Expired;
    if ps != [] {
      hide FirstIds;
      var before: seq<Event<R>>, last := Timeouts(timeout, now, ps[..|ps| - 1]), ps[|ps| - 1];
      TimeoutsSendNothing<R>(timeout, now, ps[..|ps| - 1]);
      OneEvent<R>(Replied(last.id, TimedOut(now)));
      FirstIdsConcat(before, [Replied(last.id, TimedOut(now))]);
      assert before + [] == before;
    }
  }

  lemma TimeoutsShape<R>(timeout: nat, now: nat, ps: seq<Pending>, lo: nat)
    requires Consecutive(ps, lo)
    ensures var t := Timeouts<R>(timeout, now, ps);
      && FirstIds(t) == []
      && (forall id: nat :: Replies(t, id) ==
             if lo <= id < lo + |ps| && Expired(timeout, now, ps[id - lo]) then 1 else 0)
      && (forall e :: 0 <= e < |t| ==> t[e].Replied? && t[e].reply == TimedOut(now)
                                       && lo <= t[e].id < lo + |ps| && Expired(timeout, now, ps[t[e].id - lo]))
  {
    hide *;
    TimeoutsSendNothing<R>(timeout, now, ps);
    var t: seq<Event<R>> := Timeouts(timeout, now, ps);
    forall e | 0 <= e < |t|
      ensures t[e].Replied? && t[e].reply == TimedOut(now)
           && lo <= t[e].id < lo + |ps| && Expired(timeout, now, ps[t[e].id - lo])
    {
      TimeoutEvent<R>(timeout, now, ps, lo, e);
    }
    forall id: nat
      ensures Replies(Timeouts<R>(timeout, now, ps), id)
           == if lo <= id < lo + |ps| && Expired(timeout, now, ps[id - lo]) then 1 else 0
    {
      TimeoutReplies<R>(timeout, now, ps, lo, id);
    }
  }

  lemma {:induction false} UnexpiredAreThere(timeout: nat, now: nat, ps: seq<Pending>, lo: nat)
    requires Consecutive(ps, lo)
    ensures var u := Unexpired(timeout, now, ps);
      && |u| <= |ps| && (forall j, k :: 0 <= j < k < |u| ==> u[j].id < u[k].id)
      && (forall k :: 0 <= k < |u| ==>
        lo <= u[k].id < lo + |ps| && u[k] == ps[u[k].id - lo] && !Expired(timeout, now, u[k]))
  {
    hide Expired;
    if ps != [] { UnexpiredAreThere(timeout, now, ps[..|ps| - 1], lo); }
  }

  lemma {:induction false} UnexpiredAreAll(timeout: nat, now: nat, ps: seq<Pending>, i: nat)
    requires i < |ps| && !Expired(timeout, now, ps[i])
    ensures ps[i] in Unexpired(timeout, now, ps)
  {
    hide Expired;
    if i < |ps| - 1 { UnexpiredAreAll(timeout, now, ps[..|ps| - 1], i); }
  }

  /** The unexpired commands, as operation numbers: in order, and exactly the unexpired ones. */
  lemma UnexpiredShape(timeout: nat, now: nat, ps: seq<Pending>, lo: nat)
    requires Consecutive(ps, lo)
    ensures Increasing(Ids(Unexpired(timeout, now, ps)))
    ensures forall id: nat :: id in Ids(Unexpired(timeout, now, ps)) <==>
            lo <= id < lo + |ps| && !Expired(timeout, now, ps[id - lo])
  {
    hide Expired, Unexpired, Ids;
    UnexpiredAreThere(timeout, now, ps, lo);
    forall id: nat
      ensures id in Ids(Unexpired(timeout, now, ps)) <==> lo <= id < lo + |ps| && !Expired(timeout, now, ps[id - lo])
    {
      UnexpiredIs(timeout, now, ps, lo, id);
    }
  }

  lemma UnexpiredIs(timeout: nat, now: nat, ps: seq<Pending>, lo: nat, id: nat)
    requires Consecutive(ps, lo)
    ensures id in Ids(Unexpired(timeout, now, ps)) <==> lo <= id < lo + |ps| && !Expired(timeout, now, ps[id - lo])
  {
    hide Expired, Unexpired, Ids;
    var u := Unexpired(timeout, now, ps);
    UnexpiredAreThere(timeout, now, ps, lo);
    if id in Ids(u) {
      var k :| 0 <= k < |u| && Ids(u)[k] == id;
      assert u[k] == ps[id - lo];
    }
    if lo <= id < lo + |ps| && !Expired(timeout, now, ps[id - lo]) {
      UnexpiredAreAll(timeout, now, ps, id - lo);
      var k :| 0 <= k < |u| && u[k] == ps[id - lo];
      assert Ids(u)[k] == id;
    }
  }

  lemma {:induction false} ToldShape<R>(ids: seq<nat>, a: Option<seq<R>>)
    requires a.Some? ==> |a.value| == |ids|
    requires Increasing(ids)
    ensures FirstIds(Told(ids, a)) == []
    ensures forall id: nat :: Replies(Told(ids, a), id) == if id in ids then 1 else 0
  {
    if ids != [] {
      var n := |ids| - 1;
      var front := if a.Some? then Some(a.value[..n]) else None;
      ToldShape(ids[..n], front);
      assert Told(ids, a)[..n] == Told(ids[..n], front);
      assert ids == ids[..n] + [ids[n]];
    }
  }

  /** The frames of an exchange: none, a first attempt, or a first attempt that failed and a resend. */
  lemma ExchangeFrames<R>(o: Oracle<R>, tick: nat, now: nat, ps: seq<Pending>)
    ensures var t := Exchange(o, tick, now, ps);
      && |t.events| <= 2
      && (forall e :: 0 <= e < |t.events| ==> t.events[e].Sent? && t.events[e].ids == Ids(ps) && t.events[e].now == now)
      && (|t.events| > 0 ==> !t.events[0].retry)
      && (|t.events| > 1 ==> t.events[1].retry && AllSafe(ps) && Repeats(t.events, 1))
      && (t.answers.Some? ==> |t.events| > 0 && t.events[|t.events| - 1].answer == t.answers)
  {
    hide Ids, AllSafe;
  }

  lemma FramesShow<R>(events: seq<Event<R>>, ids: seq<nat>)
    requires |events| <= 2 && forall e :: 0 <= e < |events| ==>
             events[e].Sent? && events[e].ids == ids && (events[e].retry <==> e == 1)
    ensures FirstIds(events) == (if events == [] then [] else ids)
    ensures forall id: nat :: Replies(events, id) == 0
  {
    if |events| == 1 {
      hide Replies, FirstIds;
      OneEvent(events[0]);
      assert events == [events[0]];
    } else if |events| == 2 {
      hide Replies, FirstIds;
      var x, y := [events[0]], [events[1]];
      assert events == x + y;
      OneEvent(events[0]);
      OneEvent(events[1]);
      FirstIdsConcat(x, y);
      assert ids + [] == ids;
      forall id: nat ensures Replies(events, id) == 0 { RepliesConcat(x, y, id); }
    }
  }

  lemma ExchangeShape<R>(o: Oracle<R>, tick: nat, now: nat, ps: seq<Pending>)
    ensures var t := Exchange(o, tick, now, ps);
      && |t.events| <= 2
      && (forall e :: 0 <= e < |t.events| ==> t.events[e].Sent? && t.events[e].ids == Ids(ps) && t.events[e].now == now)
      && (|t.events| > 0 ==> !t.events[0].retry)
      && (|t.events| > 1 ==> t.events[1].retry && AllSafe(ps) && Repeats(t.events, 1))
      && (t.answers.Some? ==> |t.events| > 0 && t.events[|t.events| - 1].answer == t.answers)
      && FirstIds(t.events) == (if t.events == [] then [] else Ids(ps))
      && (forall id: nat :: Replies(t.events, id) == 0)
  {
    hide *;
    ExchangeFrames(o, tick, now, ps);
    FramesShow(Exchange(o, tick, now, ps).events, Ids(ps));
  }

  /** Frames of an exchange followed by the word to each caller, on their own. */
  ghost predicate Answering<R>(o: Oracle<R>, cmds: seq<Cmd>, now: nat, ps: seq<Pending>) {
    && 0 < |ps| <= FLUSH_CHUNK
    && forall k :: 0 <= k < |ps| ==>
      && ps[k].id < |cmds| && ps[k] == cmds[ps[k].id].p && !Expired(o.timeout, now, ps[k])
      && (|ps| > 1 ==> cmds[ps[k].id].Batch?)
  }

  lemma ExchangeFits<R>(o: Oracle<R>, tick: nat, now: nat, cmds: seq<Cmd>, ps: seq<Pending>, e: nat)
    requires Answering(o, cmds, now, ps)
    requires e < |Exchange(o, tick, now, ps).events + Told(Ids(ps), Exchange(o, tick, now, ps).answers)|
    ensures EventFits(o.timeout, cmds,
                      Exchange(o, tick, now, ps).events + Told(Ids(ps), Exchange(o, tick, now, ps).answers), e)
  {
    hide Replies, FirstIds, Exchange, Expired;
    var t := Exchange(o, tick, now, ps);
    ExchangeShape(o, tick, now, ps);
    var log := t.events + Told(Ids(ps), t.answers);
    if e >= |t.events| && t.answers.Some? {
      var k, s := e - |t.events|, |t.events| - 1;
      assert log[s] == t.events[s] && log[s].ids[k] == log[e].id && log[s].answer.value[k] == log[e].reply.r;
      assert AnswersAt(log, s, log[e].id, log[e].reply.r);
    }
  }

  /** The exchange for the unexpired commands and the word to their callers. */
  lemma LateShape<R>(o: Oracle<R>, tick: nat, now: nat, live: seq<Pending>)
    requires Increasing(Ids(live))
    ensures var t := Exchange(o, tick, now, live);
      var late := t.events + Told(Ids(live), t.answers);
      && (FirstIds(late) == [] || FirstIds(late) == Ids(live))
      && (forall id: nat :: Replies(late, id) == if id in Ids(live) then 1 else 0)
  {
    hide *;
    var t := Exchange(o, tick, now, live);
    ExchangeShape(o, tick, now, live);
    ToldShape(Ids(live), t.answers);
    FirstIdsConcat(t.events, Told(Ids(live), t.answers));
    forall id: nat ensures Replies(t.events + Told(Ids(live), t.answers), id) == if id in Ids(live) then 1 else 0 {
      RepliesConcat(t.events, Told(Ids(live), t.answers), id);
    }
  }

  lemma FlushFits<R>(o: Oracle<R>, tick: nat, cmds: seq<Cmd>, lo: nat, hi: nat, early: seq<Event<R>>,
                     live: seq<Pending>, e: nat)
    requires Numbered(cmds) && lo < hi <= |cmds| && hi - lo <= FLUSH_CHUNK
    requires hi - lo > 1 ==> forall i :: lo <= i < hi ==> cmds[i].Batch?
    requires early == Timeouts(o.timeout, o.clock(tick), Pendings(cmds[lo..hi]))
    requires live == Unexpired(o.timeout, o.clock(tick), Pendings(cmds[lo..hi]))
    requires live != []
    requires e < |early +
                  (Exchange(o, tick + 1, o.clock(tick), live).events
                    + Told(Ids(live), Exchange(o, tick + 1, o.clock(tick), live).answers))|
    ensures EventFits(o.timeout, cmds,
                      early + (Exchange(o, tick + 1, o.clock(tick), live).events
                               + Told(Ids(live), Exchange(o, tick + 1, o.clock(tick), live).answers)), e)
  {
    hide Replies, FirstIds, Exchange, Expired, EventFits, Unexpired, Timeouts;
    var batch := Pendings(cmds[lo..hi]);
    var now := o.clock(tick);
    TimeoutsShape<R>(o.timeout, now, batch, lo);
    UnexpiredShape(o.timeout, now, batch, lo);
    LateShape(o, tick + 1, now, live);
    var t := Exchange(o, tick + 1, now, live);
    var late := t.events + Told(Ids(live), t.answers);
    if e < |early| {
      EarlyFits(o.timeout, now, cmds, early, e);
      FitsBefore(o.timeout, cmds, early, late, e);
    } else {
      UnexpiredAreThere(o.timeout, now, batch, lo);
      ExchangeFits(o, tick + 1, now, cmds, live, e - |early|);
      FitsAfter(o.timeout, cmds, early, late, e - |early|);
    }
  }

  lemma FlushReplies<R>(o: Oracle<R>, tick: nat, cmds: seq<Cmd>, lo: nat, hi: nat, id: nat)
    requires Numbered(cmds) && lo < hi <= |cmds|
    ensures Replies(FlushRun(o, tick, Pendings(cmds[lo..hi])).events, id) == if lo <= id < hi then 1 else 0
  {
    hide Replies, FirstIds, Exchange, Expired, Unexpired, Timeouts;
    var batch := Pendings(cmds[lo..hi]);
    var now := o.clock(tick);
    var early: seq<Event<R>>, live := Timeouts(o.timeout, now, batch), Unexpired(o.timeout, now, batch);
    TimeoutsShape<R>(o.timeout, now, batch, lo);
    UnexpiredShape(o.timeout, now, batch, lo);
    if live != [] {
      LateShape(o, tick + 1, now, live);
      var t := Exchange(o, tick + 1, now, live);
      assert early + t.events + Told(Ids(live), t.answers) == early + (t.events + Told(Ids(live), t.answers));
      RepliesConcat(early, t.events + Told(Ids(live), t.answers), id);
    } else {
      assert lo <= id < hi && !Expired(o.timeout, now, batch[id - lo]) ==> id in Ids(live);
    }
  }

  lemma FlushServes<R>(o: Oracle<R>, tick: nat, cmds: seq<Cmd>, lo: nat, hi: nat)
    requires Numbered(cmds) && lo < hi <= |cmds| && hi - lo <= FLUSH_CHUNK
    requires hi - lo > 1 ==> forall i :: lo <= i < hi ==> cmds[i].Batch?
    ensures Serves(o.timeout, cmds, FlushRun(o, tick, Pendings(cmds[lo..hi])).events, lo, hi)
  {
    hide Replies, FirstIds, Exchange, Expired, EventFits, Unexpired, Timeouts;
    var batch := Pendings(cmds[lo..hi]);
    var now := o.clock(tick);
    var early: seq<Event<R>>, live := Timeouts(o.timeout, now, batch), Unexpired(o.timeout, now, batch);
    TimeoutsShape<R>(o.timeout, now, batch, lo);
    UnexpiredShape(o.timeout, now, batch, lo);
    forall id: nat ensures Replies(FlushRun(o, tick, batch).events, id) == if lo <= id < hi then 1 else 0 {
      FlushReplies(o, tick, cmds, lo, hi, id);
    }
    if live == [] {
      forall e | 0 <= e < |early| ensures EventFits(o.timeout, cmds, early, e) {
        EarlyFits(o.timeout, now, cmds, early, e);
      }
    } else {
      LateShape(o, tick + 1, now, live);
      var t := Exchange(o, tick + 1, now, live);
      var late := t.events + Told(Ids(live), t.answers);
      assert early + t.events + Told(Ids(live), t.answers) == early + late;
      FirstIdsConcat(early, late);
      forall e | 0 <= e < |early + late| ensures EventFits(o.timeout, cmds, early + late, e) {
        FlushFits(o, tick, cmds, lo, hi, early, live, e);
      }
    }
  }

  lemma EarlyFits<R>(timeout: nat, now: nat, cmds: seq<Cmd>, early: seq<Event<R>>, e: nat)
    requires e < |early| && early[e].Replied? && early[e].reply == TimedOut(now)
    requires early[e].id < |cmds| && Expired(timeout, now, cmds[early[e].id].p) && FirstIds(early) == []
    ensures EventFits(timeout, cmds, early, e)
  {
  }

  // ------------------------------------------------------------ whole runs

  lemma RestFails<R>(timeout: nat, cmds: seq<Cmd>, ids: seq<nat>, lo: nat, hi: nat)
    requires lo <= hi <= |cmds| && |ids| == hi - lo && forall i :: 0 <= i < |ids| ==> ids[i] == lo + i
    ensures Serves<R>(timeout, cmds, Told(ids, None), lo, hi)
  {
    hide Replies, FirstIds;
    var told: seq<Event<R>> := Told(ids, None);
    ToldShape<R>(ids, None);
    forall id: nat ensures Replies(told, id) == if lo <= id < hi then 1 else 0 {
      if lo <= id < hi { assert ids[id - lo] in ids; }
    }
  }

  lemma {:induction false} SegmentsServe<R>(o: Oracle<R>, tick: nat, cmds: seq<Cmd>, lo: nat, hi: nat)
    requires Numbered(cmds) && lo <= hi <= |cmds|
    ensures Serves(o.timeout, cmds, Segments(o, tick, cmds[lo..hi]).events, lo, hi)
    decreases hi - lo
  {
    hide FlushRun, Serves, Told, RunLength;
    if lo == hi {
      ServesNothing(o.timeout, cmds, Segments(o, tick, cmds[lo..hi]).events, lo);
    } else {
      var n := RunLength(cmds[lo..hi]);
      assert cmds[lo..hi][..n] == cmds[lo..lo + n] && cmds[lo..hi][n..] == cmds[lo + n..hi];
      RunIsBatched(cmds, lo, hi);
      FlushServes(o, tick, cmds, lo, lo + n);
      var f := FlushRun(o, tick, Pendings(cmds[lo..lo + n]));
      if f.ok {
        SegmentsServe(o, f.tick, cmds, lo + n, hi);
        ServesInTurn(o.timeout, cmds, f.events, Segments(o, f.tick, cmds[lo + n..hi]).events, lo, lo + n, hi);
      } else {
        var rest := Ids(Pendings(cmds[lo + n..hi]));
        RestFails<R>(o.timeout, cmds, rest, lo + n, hi);
        ServesInTurn(o.timeout, cmds, f.events, Told(rest, None), lo, lo + n, hi);
      }
    }
  }

  /** A frame takes one direct command, or batched ones until a direct one, the chunk or the end stops it. */
  lemma RunIsLongest(cmds: seq<Cmd>)
    requires cmds != []
    ensures var n := RunLength(cmds);
      if cmds[0].Direct? then n == 1
      else (forall i :: 0 <= i < n ==> cmds[i].Batch?) && (n == |cmds| || n == 16 || cmds[n].Direct?)
  {
  }

  lemma RunIsBatched(cmds: seq<Cmd>, lo: nat, hi: nat)
    requires lo < hi <= |cmds|
    ensures RunLength(cmds[lo..hi]) > 1 ==> forall i :: lo <= i < lo + RunLength(cmds[lo..hi]) ==> cmds[i].Batch?
  {
    hide RunLength;
    forall i | lo <= i < lo + RunLength(cmds[lo..hi]) ensures RunLength(cmds[lo..hi]) > 1 ==> cmds[i].Batch? {
      assert cmds[i] == cmds[lo..hi][i - lo];
    }
  }

  lemma {:induction false} LoopServes<R>(o: Oracle<R>, dead: bool, tick: nat, cmds: seq<Cmd>, lo: nat)
    requires Numbered(cmds) && lo <= |cmds|
    ensures Serves(o.timeout, cmds, Loop(o, dead, tick, cmds[lo..]), lo, |cmds|)
    decreases |cmds| - lo
  {
    hide Segments, Serves, Told, DrainLength, Loop;
    var rx := cmds[lo..];
    if rx != [] { LoopStep(o, dead, tick, rx); }
    if rx == [] {
      LoopEnd(o, dead, tick, rx);
      ServesNothing(o.timeout, cmds, Loop(o, dead, tick, rx), lo);
    } else if dead && !o.connects(tick) {
      assert rx[1..] == cmds[lo + 1..];
      RestFails<R>(o.timeout, cmds, [rx[0].p.id], lo, lo + 1);
      LoopServes(o, true, tick + 1, cmds, lo + 1);
      ServesInTurn(o.timeout, cmds, Told([rx[0].p.id], None),
                   Loop(o, true, tick + 1, cmds[lo + 1..]), lo, lo + 1, |cmds|);
    } else {
      var t := if dead then tick + 1 else tick;
      var n := DrainLength(o, t, rx);
      assert rx[..n] == cmds[lo..lo + n] && rx[n..] == cmds[lo + n..];
      var s := Segments(o, t + 1, cmds[lo..lo + n]);
      SegmentsServe(o, t + 1, cmds, lo, lo + n);
      LoopServes(o, !s.ok, s.tick, cmds, lo + n);
      ServesInTurn(o.timeout, cmds, s.events, Loop(o, !s.ok, s.tick, cmds[lo + n..]), lo, lo + n, |cmds|);
    }
  }

  /**
   Whatever the network and the clock do, every accepted command is replied to exactly
   once, first attempts go out in queue order, frames are short with direct commands
   alone, answers are the ones at the operation's place, and expired operations are
   never sent.
   */
  lemma WorkerServesAll<R>(o: Oracle<R>, cmds: seq<Cmd>)
    requires Numbered(cmds)
    ensures Serves(o.timeout, cmds, Loop(o, false, 0, cmds), 0, |cmds|)
  {
    hide *;
    LoopServes(o, false, 0, cmds, 0);
    assert cmds[0..] == cmds;
  }

  // -------------------------------------------------------- how often sent

  lemma FirstIdsOfPrefix<R>(log: seq<Event<R>>, n: nat)
    requires n <= |log|
    ensures FirstIds(log[..n]) <= FirstIds(log)
  {
    FirstIdsConcat(log[..n], log[n..]);
    assert log == log[..n] + log[n..];
  }

  /** Attempts within the first `n` events: a resend always follows its own first attempt. */
  lemma {:induction false} AttemptsUpTo<R>(timeout: nat, cmds: seq<Cmd>, log: seq<Event<R>>, id: nat, n: nat)
    requires n <= |log| && id < |cmds| && Serves(timeout, cmds, log, 0, |cmds|)
    ensures var seen := if id in FirstIds(log[..n]) then 1 else 0;
      && Attempts(log[..n], id) <= (if cmds[id].p.retrySafe then 2 * seen else seen)
      && (n > 0 && log[n - 1].Sent? && !log[n - 1].retry && id in log[n - 1].ids ==> Attempts(log[..n], id) <= 1)
    decreases n
  {
    if n > 0 {
      AttemptsUpTo(timeout, cmds, log, id, n - 1);
      var ev := log[n - 1];
      assert log[..n][..n - 1] == log[..n - 1];
      assert EventFits(timeout, cmds, log, n - 1);
      FirstIdsOfPrefix(log, n);
      if ev.Sent? && id in ev.ids {
        if ev.retry {
          var k :| 0 <= k < |ev.ids| && ev.ids[k] == id;
          SentIsFirst(log[..n - 1], n - 2, id);
        } else {
          FirstSentIsNew(FirstIds(log[..n - 1]), ev.ids, FirstIds(log), id);
        }
      }
    }
  }

  lemma {:induction false} SentIsFirst<R>(log: seq<Event<R>>, e: nat, id: nat)
    requires e < |log| && log[e].Sent? && !log[e].retry && id in log[e].ids
    ensures id in FirstIds(log)
  {
    if e < |log| - 1 { SentIsFirst(log[..|log| - 1], e, id); }
  }

  lemma FirstSentIsNew(before: seq<nat>, ids: seq<nat>, all: seq<nat>, id: nat)
    requires Increasing(all) && before + ids <= all && id in ids
    ensures id !in before
  {
    var j :| 0 <= j < |ids| && ids[j] == id;
    forall i | 0 <= i < |before| ensures before[i] < id {
      assert all[i] == (before + ids)[i] && all[|before| + j] == (before + ids)[|before| + j];
    }
  }

  /**
   Over a whole run an operation that is not retry-safe is on the wire at most once, a
   retry-safe one at most twice, and one that timed out not at all.
   */
  lemma AttemptsBounded<R>(o: Oracle<R>, cmds: seq<Cmd>, id: nat)
    requires Numbered(cmds) && id < |cmds|
    ensures var log := Loop(o, false, 0, cmds);
      && Attempts(log, id) <= (if cmds[id].p.retrySafe then 2 else 1)
      && (forall e :: 0 <= e < |log| && log[e].Replied? && log[e].id == id && log[e].reply.TimedOut? ==>
        Attempts(log, id) == 0)
  {
    hide Loop, Replies, FirstIds, Attempts, FrameFits, Expired, Increasing;
    var log := Loop(o, false, 0, cmds);
    WorkerServesAll(o, cmds);
    AttemptsUpTo(o.timeout, cmds, log, id, |log|);
    assert log[..|log|] == log;
    forall e | 0 <= e < |log| && log[e].Replied? && log[e].id == id && log[e].reply.TimedOut?
      ensures Attempts(log, id) == 0
    {
      assert EventFits(o.timeout, cmds, log, e);
    }
  }

  // ------------------------------------------------------------- deadlines

  /** A command has waited long enough when its deadline, the timeout after its arrival, has come. */
  lemma InTime(timeout: nat, now: nat, p: Pending)
    ensures Expired(timeout, now, p) <==> timeout == 0 || now >= p.enqueued + timeout
  {
  }

  /** The clock is before the deadline of every operation of a frame that goes out. */
  ghost predicate SentInTime<R>(timeout: nat, cmds: seq<Cmd>, ev: Event<R>) {
    ev.Sent? ==> forall i :: 0 <= i < |ev.ids| ==>
      ev.ids[i] < |cmds| && timeout > 0 && ev.now < cmds[ev.ids[i]].p.enqueued + timeout
  }

  /** The clock has reached the deadline of a command that is told it timed out. */
  ghost predicate LateInTime<R>(timeout: nat, cmds: seq<Cmd>, ev: Event<R>) {
    ev.Replied? && ev.reply.TimedOut? ==>
      ev.id < |cmds| && (timeout == 0 || ev.reply.now >= cmds[ev.id].p.enqueued + timeout)
  }

  /** In every run, frames go out before the deadlines in them and timeouts are told no earlier. */
  lemma DeadlinesKept<R>(o: Oracle<R>, cmds: seq<Cmd>)
    requires Numbered(cmds)
    ensures var log := Loop(o, false, 0, cmds);
      forall e :: 0 <= e < |log| ==> SentInTime(o.timeout, cmds, log[e]) && LateInTime(o.timeout, cmds, log[e])
  {
    hide Loop, Replies, FirstIds, Expired, Increasing, Repeats;
    var log := Loop(o, false, 0, cmds);
    WorkerServesAll(o, cmds);
    forall e | 0 <= e < |log|
      ensures SentInTime(o.timeout, cmds, log[e]) && LateInTime(o.timeout, cmds, log[e])
    {
      assert EventFits(o.timeout, cmds, log, e);
      EventInTime(o.timeout, cmds, log, e);
    }
  }

  lemma EventInTime<R>(timeout: nat, cmds: seq<Cmd>, log: seq<Event<R>>, e: nat)
    requires e < |log| && EventFits(timeout, cmds, log, e)
    ensures SentInTime(timeout, cmds, log[e]) && LateInTime(timeout, cmds, log[e])
  {
    hide FirstIds, Repeats, AnswersAt, Expired;
    match log[e]
    case Sent(_, now, ids, retry, _) =>
      forall i | 0 <= i < |ids| ensures ids[i] < |cmds| && timeout > 0 && now < cmds[ids[i]].p.enqueued + timeout {
        assert FrameFits(timeout, cmds, now, ids, retry);
        InTime(timeout, now, cmds[ids[i]].p);
      }
    case Replied(id, reply) =>
      if reply.TimedOut? { InTime(timeout, reply.now, cmds[id].p); }
  }

  // ------------------------------------------------------------ good days

  /** Every connection attempt succeeds and every frame is answered in full. */
  ghost predicate Healthy<R>(o: Oracle<R>) {
    && (forall ids :: o.encodable(ids))
    && (forall tick, ids :: o.answers(tick, ids).Some? && |o.answers(tick, ids).value| == |ids|)
  }

  ghost predicate NeverLate<R>(o: Oracle<R>, cmds: seq<Cmd>) {
    && (cmds != [] ==> o.timeout > 0)
    && forall tick: nat, i :: 0 <= i < |cmds| ==> o.clock(tick) < cmds[i].p.enqueued + o.timeout
  }

  predicate AllAnswered<R>(log: seq<Event<R>>) {
    forall e :: 0 <= e < |log| && log[e].Replied? ==> log[e].reply.Answered?
  }

  // ------------------------------------------------- lost frames and answers

  /** A frame that came back with an answer for each of its operations. */
  predicate Full<R>(ev: Event<R>) { ev.Sent? && ev.answer.Some? && |ev.answer.value| == |ev.ids| }

  /** After event `e` the caller of `id` is told `r`. */
  ghost predicate ToldAfter<R>(log: seq<Event<R>>, e: nat, id: nat, r: R) {
    exists t :: e < t < |log| && log[t] == Replied(id, Answered(r))
  }

  predicate SafeIds(cmds: seq<Cmd>, ids: seq<nat>) {
    forall i :: 0 <= i < |ids| ==> ids[i] < |cmds| && cmds[ids[i]].p.retrySafe
  }

  /**
   What a frame's event means: the world gave that answer; a full answer reaches every
   caller; a first attempt that failed, of retry-safe operations only, is sent again when
   a new connection is to be had.
   */
  ghost predicate FrameTrue<R>(o: Oracle<R>, cmds: seq<Cmd>, log: seq<Event<R>>, e: nat)
    requires e < |log|
  {
    var ev := log[e];
    ev.Sent? ==>
      && ev.answer == o.answers(ev.at, ev.ids)
      && (Full(ev) ==> forall k :: 0 <= k < |ev.ids| ==> ToldAfter(log, e, ev.ids[k], ev.answer.value[k]))
      && (!Full(ev) && !ev.retry && SafeIds(cmds, ev.ids) && o.connects(ev.at + 1) ==>
            e + 1 < |log| && log[e + 1] == Sent(ev.at + 2, ev.now, ev.ids, true, o.answers(ev.at + 2, ev.ids)))
  }

  ghost predicate AllTrue<R>(o: Oracle<R>, cmds: seq<Cmd>, log: seq<Event<R>>) {
    forall e :: 0 <= e < |log| ==> FrameTrue(o, cmds, log, e)
  }

  lemma ToldInLonger<R>(a: seq<Event<R>>, log: seq<Event<R>>, b: seq<Event<R>>, e: nat, id: nat, r: R)
    requires ToldAfter(log, e, id, r)
    ensures ToldAfter(a + log + b, |a| + e, id, r)
  {
    var t :| e < t < |log| && log[t] == Replied(id, Answered(r));
    assert (a + log + b)[|a| + t] == log[t];
  }

  lemma TrueInTurn<R>(o: Oracle<R>, cmds: seq<Cmd>, a: seq<Event<R>>, b: seq<Event<R>>)
    requires AllTrue(o, cmds, a) && AllTrue(o, cmds, b)
    ensures AllTrue(o, cmds, a + b)
  {
    hide ToldAfter, SafeIds;
    forall e | 0 <= e < |a + b| ensures FrameTrue(o, cmds, a + b, e) {
      if e < |a| {
        assert FrameTrue(o, cmds, a, e);
        forall k | Full(a[e]) && 0 <= k < |a[e].ids| ensures ToldAfter(a + b, e, a[e].ids[k], a[e].answer.value[k]) {
          ToldInLonger([], a, b, e, a[e].ids[k], a[e].answer.value[k]);
          assert [] + a + b == a + b;
        }
      } else {
        var i := e - |a|;
        assert FrameTrue(o, cmds, b, i);
        assert (a + b)[e] == b[i] && (i + 1 < |b| ==> (a + b)[e + 1] == b[i + 1]);
        forall k | Full(b[i]) && 0 <= k < |b[i].ids| ensures ToldAfter(a + b, e, b[i].ids[k], b[i].answer.value[k]) {
          ToldInLonger(a, b, [], i, b[i].ids[k], b[i].answer.value[k]);
          assert a + b + [] == a + b;
        }
      }
    }
  }

  lemma RepliesAreTrue<R>(o: Oracle<R>, cmds: seq<Cmd>, log: seq<Event<R>>)
    requires forall e :: 0 <= e < |log| ==> log[e].Replied?
    ensures AllTrue(o, cmds, log)
  {
  }

  /** The frames of an exchange and the consultations behind them. */
  lemma ExchangeAsks<R>(o: Oracle<R>, tick: nat, now: nat, ps: seq<Pending>)
    ensures var t, ids := Exchange(o, tick, now, ps), Ids(ps);
      && (t.events != [] ==> t.events[0] == Sent(tick, now, ids, false, o.answers(tick, ids)))
      && (t.events != [] ==> t.answers.Some? || !AllSafe(ps) || !o.connects(tick + 1) || |t.events| == 2)
      && (|t.events| == 2 ==> t.events[1] == Sent(tick + 2, now, ids, true, o.answers(tick + 2, ids)))
      && (forall e :: 0 <= e < |t.events| && Full(t.events[e]) ==>
        e == |t.events| - 1 && t.answers == t.events[e].answer)
      && (t.answers.Some? ==> t.events != [] && Full(t.events[|t.events| - 1]))
  {
    hide Ids, AllSafe;
  }

  lemma LateIsTrue<R>(o: Oracle<R>, cmds: seq<Cmd>, tick: nat, now: nat, ps: seq<Pending>)
    requires forall k :: 0 <= k < |ps| ==> ps[k].id < |cmds| && ps[k] == cmds[ps[k].id].p
    ensures var t := Exchange(o, tick, now, ps); AllTrue(o, cmds, t.events + Told(Ids(ps), t.answers))
  {
    hide Exchange, ToldAfter;
    var t, ids := Exchange(o, tick, now, ps), Ids(ps);
    var log := t.events + Told(ids, t.answers);
    ExchangeFrames(o, tick, now, ps);
    ExchangeAsks(o, tick, now, ps);
    assert SafeIds(cmds, ids) ==> AllSafe(ps) by {
      assert forall k :: 0 <= k < |ps| ==> ids[k] == ps[k].id;
    }
    forall e | 0 <= e < |log| ensures FrameTrue(o, cmds, log, e) {
      if e < |t.events| {
        forall k | Full(log[e]) && 0 <= k < |ids| ensures ToldAfter(log, e, ids[k], log[e].answer.value[k]) {
          AnswerIsTold(log, e, |t.events| + k, ids[k], log[e].answer.value[k]);
        }
      }
    }
  }

  lemma AnswerIsTold<R>(log: seq<Event<R>>, e: nat, t: nat, id: nat, r: R)
    requires e < t < |log| && log[t] == Replied(id, Answered(r))
    ensures ToldAfter(log, e, id, r)
  {
  }

  lemma FlushIsTrue<R>(o: Oracle<R>, tick: nat, cmds: seq<Cmd>, lo: nat, hi: nat)
    requires Numbered(cmds) && lo <= hi <= |cmds|
    ensures AllTrue(o, cmds, FlushRun(o, tick, Pendings(cmds[lo..hi])).events)
  {
    hide Exchange, Expired, Unexpired, Timeouts, Told, AllTrue, FirstIds, Replies;
    var batch, now := Pendings(cmds[lo..hi]), o.clock(tick);
    if batch == [] {
      RepliesAreTrue<R>(o, cmds, []);
    } else {
      var early: seq<Event<R>>, live := Timeouts(o.timeout, now, batch), Unexpired(o.timeout, now, batch);
      TimeoutsShape<R>(o.timeout, now, batch, lo);
      UnexpiredAreThere(o.timeout, now, batch, lo);
      RepliesAreTrue(o, cmds, early);
      if live != [] {
        LateIsTrue(o, cmds, tick + 1, now, live);
        var t := Exchange(o, tick + 1, now, live);
        TrueInTurn(o, cmds, early, t.events + Told(Ids(live), t.answers));
        Glue(early, t.events, Told(Ids(live), t.answers));
      }
    }
  }

  lemma {:induction false} SegmentsAreTrue<R>(o: Oracle<R>, tick: nat, cmds: seq<Cmd>, lo: nat, hi: nat)
    requires Numbered(cmds) && lo <= hi <= |cmds|
    ensures AllTrue(o, cmds, Segments(o, tick, cmds[lo..hi]).events)
    decreases hi - lo
  {
    hide FlushRun, AllTrue, Told, RunLength;
    if lo == hi {
      RepliesAreTrue(o, cmds, Segments(o, tick, cmds[lo..hi]).events);
    } else {
      var n := RunLength(cmds[lo..hi]);
      assert cmds[lo..hi][..n] == cmds[lo..lo + n] && cmds[lo..hi][n..] == cmds[lo + n..hi];
      FlushIsTrue(o, tick, cmds, lo, lo + n);
      var f := FlushRun(o, tick, Pendings(cmds[lo..lo + n]));
      if f.ok {
        SegmentsAreTrue(o, f.tick, cmds, lo + n, hi);
        TrueInTurn(o, cmds, f.events, Segments(o, f.tick, cmds[lo + n..hi]).events);
      } else {
        var rest: seq<Event<R>> := Told(Ids(Pendings(cmds[lo + n..hi])), None);
        RepliesAreTrue(o, cmds, rest);
        TrueInTurn(o, cmds, f.events, rest);
      }
    }
  }

  lemma {:induction false} LoopIsTrue<R>(o: Oracle<R>, dead: bool, tick: nat, cmds: seq<Cmd>, lo: nat)
    requires Numbered(cmds) && lo <= |cmds|
    ensures AllTrue(o, cmds, Loop(o, dead, tick, cmds[lo..]))
    decreases |cmds| - lo
  {
    hide Segments, AllTrue, Told, DrainLength, Loop;
    var rx := cmds[lo..];
    if rx == [] {
      LoopEnd(o, dead, tick, rx);
      RepliesAreTrue(o, cmds, Loop(o, dead, tick, rx));
    } else if dead && !o.connects(tick) {
      LoopStep(o, dead, tick, rx);
      assert rx[1..] == cmds[lo + 1..];
      var told: seq<Event<R>> := Told([rx[0].p.id], None);
      RepliesAreTrue(o, cmds, told);
      LoopIsTrue(o, true, tick + 1, cmds, lo + 1);
      TrueInTurn(o, cmds, told, Loop(o, true, tick + 1, cmds[lo + 1..]));
    } else {
      LoopStep(o, dead, tick, rx);
      var t := if dead then tick + 1 else tick;
      var n := DrainLength(o, t, rx);
      assert rx[..n] == cmds[lo..lo + n] && rx[n..] == cmds[lo + n..];
      var s := Segments(o, t + 1, cmds[lo..lo + n]);
      SegmentsAreTrue(o, t + 1, cmds, lo, lo + n);
      LoopIsTrue(o, !s.ok, s.tick, cmds, lo + n);
      TrueInTurn(o, cmds, s.events, Loop(o, !s.ok, s.tick, cmds[lo + n..]));
    }
  }

  /**
   In every run, every frame that is answered in full, at the first attempt or at the
   resend, has each of its commands told its own answer; and every frame of retry-safe
   commands that is lost is sent again, with the same commands, when a new connection is
   to be had. So a frame lost once is answered if its resend is.
   */
  lemma LostFramesAreAnswered<R>(o: Oracle<R>, cmds: seq<Cmd>)
    requires Numbered(cmds)
    ensures var log := Loop(o, false, 0, cmds);
      && AllTrue(o, cmds, log)
      && forall e, rs ::
           0 <= e < |log| && log[e].Sent? && !log[e].retry && !Full(log[e]) && SafeIds(cmds, log[e].ids)
           && o.connects(log[e].at + 1) && o.answers(log[e].at + 2, log[e].ids) == Some(rs) && |rs| == |log[e].ids| ==>
             forall k :: 0 <= k < |rs| ==> ToldAfter(log, e + 1, log[e].ids[k], rs[k])
  {
    hide Loop, ToldAfter, SafeIds;
    var log := Loop(o, false, 0, cmds);
    LoopIsTrue(o, false, 0, cmds, 0);
    assert cmds[0..] == cmds;
    forall e, rs | 0 <= e < |log| && log[e].Sent? && !log[e].retry && !Full(log[e]) && SafeIds(cmds, log[e].ids)
                   && o.connects(log[e].at + 1) && o.answers(log[e].at + 2, log[e].ids) == Some(rs)
                     && |rs| == |log[e].ids|
      ensures forall k :: 0 <= k < |rs| ==> ToldAfter(log, e + 1, log[e].ids[k], rs[k])
    {
      assert FrameTrue(o, cmds, log, e);
      assert FrameTrue(o, cmds, log, e + 1);
    }
  }

  lemma HealthyExchange<R>(o: Oracle<R>, tick: nat, now: nat, ps: seq<Pending>)
    requires Healthy(o)
    ensures Exchange(o, tick, now, ps).answers.Some?
  {
    hide Ids, AllSafe;
  }

  lemma FlushAnswers<R>(o: Oracle<R>, tick: nat, cmds: seq<Cmd>)
    requires Healthy(o) && NeverLate(o, cmds)
    ensures FlushRun(o, tick, Pendings(cmds)).ok && AllAnswered(FlushRun(o, tick, Pendings(cmds)).events)
  {
    hide Expired, Ids, Exchange, Timeouts, Unexpired, Told, Healthy, Repeats, FirstIds, Replies;
    var ps, now := Pendings(cmds), o.clock(tick);
    forall i | 0 <= i < |cmds| ensures !Expired(o.timeout, now, ps[i]) {
      assert ps[i] == cmds[i].p && now < cmds[i].p.enqueued + o.timeout;
      InTime(o.timeout, now, ps[i]);
    }
    NoneExpired<R>(o.timeout, now, ps);
    HealthyExchange(o, tick + 1, now, ps);
    ExchangeFrames(o, tick + 1, now, ps);
  }

  lemma {:induction false} NoneExpired<R>(timeout: nat, now: nat, ps: seq<Pending>)
    requires forall i :: 0 <= i < |ps| ==> !Expired(timeout, now, ps[i])
    ensures Timeouts<R>(timeout, now, ps) == [] && Unexpired(timeout, now, ps) == ps
  {
    hide Expired;
    if ps != [] {
      var n := |ps| - 1;
      NoneExpired<R>(timeout, now, ps[..n]);
      assert Timeouts<R>(timeout, now, ps) == Timeouts(timeout, now, ps[..n]) + [];
      assert Unexpired(timeout, now, ps) == ps[..n] + [ps[n]];
    }
  }

  lemma {:induction false} SegmentsAnswer<R>(o: Oracle<R>, tick: nat, cmds: seq<Cmd>)
    requires Healthy(o) && NeverLate(o, cmds)
    ensures Segments(o, tick, cmds).ok && AllAnswered(Segments(o, tick, cmds).events)
    decreases |cmds|
  {
    hide Expired, FlushRun, RunLength, Healthy;
    if cmds != [] {
      var n := RunLength(cmds);
      PartInTime(o, cmds, n);
      FlushAnswers(o, tick, cmds[..n]);
      SegmentsAnswer(o, FlushRun(o, tick, Pendings(cmds[..n])).tick, cmds[n..]);
    }
  }

  lemma PartInTime<R>(o: Oracle<R>, cmds: seq<Cmd>, n: nat)
    requires NeverLate(o, cmds) && n <= |cmds|
    ensures NeverLate(o, cmds[..n]) && NeverLate(o, cmds[n..])
  {
    forall tick: nat, i | 0 <= i < n
      ensures o.clock(tick) < cmds[..n][i].p.enqueued + o.timeout
    {
      InTimeAt(o, cmds, tick, i);
    }
    forall tick: nat, i | 0 <= i < |cmds[n..]|
      ensures o.clock(tick) < cmds[n..][i].p.enqueued + o.timeout
    {
      InTimeAt(o, cmds, tick, n + i);
    }
  }

  lemma InTimeAt<R>(o: Oracle<R>, cmds: seq<Cmd>, tick: nat, i: nat)
    requires NeverLate(o, cmds) && i < |cmds|
    ensures o.clock(tick) < cmds[i].p.enqueued + o.timeout
  {
  }

  /**
   With a healthy server and no deadline missed, every command gets an answer; also after
   the connection was lost, once connections are to be had again.
   */
  lemma {:induction false} HealthyRunAnswersAll<R>(o: Oracle<R>, dead: bool, tick: nat, cmds: seq<Cmd>)
    requires Healthy(o) && NeverLate(o, cmds) && (dead ==> o.connects(tick))
    ensures AllAnswered(Loop(o, dead, tick, cmds))
    decreases |cmds|
  {
    hide NeverLate, Segments, DrainLength, Healthy, Loop;
    if cmds == [] {
      LoopEnd(o, dead, tick, cmds);
    } else {
      LoopStep(o, dead, tick, cmds);
      var t := if dead then tick + 1 else tick;
      var n := DrainLength(o, t, cmds);
      PartInTime(o, cmds, n);
      SegmentsAnswer(o, t + 1, cmds[..n]);
      HealthyRunAnswersAll(o, false, Segments(o, t + 1, cmds[..n]).tick, cmds[n..]);
    }
  }

  /** Commands told that the transport failed. */
  function Failures<R>(log: seq<Event<R>>): nat {
    if log == [] then 0 else
    Failures(log[..|log| - 1]) + (if log[|log| - 1].Replied? && log[|log| - 1].reply.TransportError? then 1 else 0)
  }

  lemma {:induction false} FailuresConcat<R>(a: seq<Event<R>>, b: seq<Event<R>>)
    ensures Failures(a + b) == Failures(a) + Failures(b)
    decreases |b|
  {
    if b == [] {
      assert a + b == a;
    } else {
      var n := |b| - 1;
      assert (a + b)[..|a + b| - 1] == a + b[..n] && (a + b)[|a + b| - 1] == b[n];
      FailuresConcat(a, b[..n]);
    }
  }

  lemma {:induction false} AnsweredIsNoFailure<R>(log: seq<Event<R>>)
    requires AllAnswered(log)
    ensures Failures(log) == 0
  {
    if log != [] { AnsweredIsNoFailure(log[..|log| - 1]); }
  }

  /**
   While no connection is to be had each attempt costs one command and no more: if attempts
   succeed from consultation `open` on, at most as many commands fail as there were before it.
   */
  lemma {:induction false} FailedConnectsCostOne<R>(o: Oracle<R>, dead: bool, tick: nat, cmds: seq<Cmd>, open: nat)
    requires Healthy(o) && NeverLate(o, cmds) && forall t: nat :: t >= open ==> o.connects(t)
    ensures Failures(Loop(o, dead, tick, cmds)) <= if dead && tick < open then open - tick else 0
    decreases |cmds|
  {
    hide NeverLate, Segments, DrainLength, Healthy, Loop, Told;
    if cmds == [] {
      LoopEnd(o, dead, tick, cmds);
    } else if dead && !o.connects(tick) {
      LoopStep(o, dead, tick, cmds);
      PartInTime(o, cmds, 1);
      FailedConnectsCostOne(o, true, tick + 1, cmds[1..], open);
      var told: seq<Event<R>> := Told([cmds[0].p.id], None);
      OneTold<R>(cmds[0].p.id);
      FailuresConcat(told, Loop(o, true, tick + 1, cmds[1..]));
    } else {
      HealthyRunAnswersAll(o, dead, tick, cmds);
      AnsweredIsNoFailure(Loop(o, dead, tick, cmds));
    }
  }

  lemma OneTold<R>(id: nat)
    ensures Failures<R>(Told([id], None)) == 1
  {
    var told: seq<Event<R>> := Told([id], None);
    assert told[..0] == [];
  }

  // ------------------------------------------------------------ failing fast

  /** Frame `e` was answered in full, or its resend is the next event. */
  ghost predicate Settled<R>(log: seq<Event<R>>, e: nat)
    requires e < |log|
  {
    Full(log[e]) || (e + 1 < |log| && log[e + 1].Sent? && log[e + 1].retry)
  }

  ghost predicate AllSettled<R>(log: seq<Event<R>>) {
    forall e :: 0 <= e < |log| && log[e].Sent? ==> Settled(log, e)
  }

  /** Behind a frame that was lost for good no frame goes out. */
  ghost predicate FailsFast<R>(log: seq<Event<R>>) {
    forall e, later :: 0 <= e < later < |log| && log[e].Sent? && log[later].Sent? ==> Settled(log, e)
  }

  lemma SettledInTurn<R>(a: seq<Event<R>>, b: seq<Event<R>>)
    requires AllSettled(a) || (FailsFast(a) && forall e :: 0 <= e < |b| ==> b[e].Replied?)
    ensures FailsFast(b) ==> FailsFast(a + b)
    ensures AllSettled(a) && AllSettled(b) ==> AllSettled(a + b)
  {
    forall e, later | FailsFast(b) && 0 <= e < later < |a + b| && (a + b)[e].Sent? && (a + b)[later].Sent?
      ensures Settled(a + b, e)
    {
      if e < |a| {
        assert Settled(a, e);
      } else {
        assert b[e - |a|].Sent? && b[later - |a|].Sent?;
        assert Settled(b, e - |a|);
      }
    }
    forall e | AllSettled(a) && AllSettled(b) && 0 <= e < |a + b| && (a + b)[e].Sent? ensures Settled(a + b, e) {
      if e < |a| { assert Settled(a, e); } else { assert Settled(b, e - |a|); }
    }
  }

  lemma FlushFailsFast<R>(o: Oracle<R>, tick: nat, cmds: seq<Cmd>, lo: nat, hi: nat)
    requires Numbered(cmds) && lo <= hi <= |cmds|
    ensures var f := FlushRun(o, tick, Pendings(cmds[lo..hi]));
      FailsFast(f.events) && (f.ok ==> AllSettled(f.events))
  {
    hide Exchange, Expired, Unexpired, Timeouts, Told, FirstIds, Replies;
    var batch, now := Pendings(cmds[lo..hi]), o.clock(tick);
    if batch != [] {
      var early: seq<Event<R>>, live := Timeouts(o.timeout, now, batch), Unexpired(o.timeout, now, batch);
      TimeoutsShape<R>(o.timeout, now, batch, lo);
      if live != [] {
        var t := Exchange(o, tick + 1, now, live);
        ExchangeAsks(o, tick + 1, now, live);
        ExchangeFrames(o, tick + 1, now, live);
        var told: seq<Event<R>> := Told(Ids(live), t.answers);
        assert t.answers.Some? ==> AllSettled(t.events);
        assert FailsFast(t.events);
        SettledInTurn(t.events, told);
        SettledInTurn(early, t.events + told);
        Glue(early, t.events, told);
      }
    }
  }

  /** In one drain, once a frame is lost for good, the commands behind it are told so and nothing more is sent. */
  lemma {:induction false} SegmentsFailFast<R>(o: Oracle<R>, tick: nat, cmds: seq<Cmd>, lo: nat, hi: nat)
    requires Numbered(cmds) && lo <= hi <= |cmds|
    ensures var s := Segments(o, tick, cmds[lo..hi]);
      FailsFast(s.events) && (s.ok ==> AllSettled(s.events))
    decreases hi - lo
  {
    hide FlushRun, Told, RunLength, FailsFast, AllSettled;
    if lo == hi {
      NothingFails<R>();
    } else {
      var n := RunLength(cmds[lo..hi]);
      assert cmds[lo..hi][..n] == cmds[lo..lo + n] && cmds[lo..hi][n..] == cmds[lo + n..hi];
      FlushFailsFast(o, tick, cmds, lo, lo + n);
      var f := FlushRun(o, tick, Pendings(cmds[lo..lo + n]));
      if f.ok {
        SegmentsFailFast(o, f.tick, cmds, lo + n, hi);
        SettledInTurn(f.events, Segments(o, f.tick, cmds[lo + n..hi]).events);
      } else {
        var rest: seq<Event<R>> := Told(Ids(Pendings(cmds[lo + n..hi])), None);
        RepliesFail(rest);
        SettledInTurn(f.events, rest);
      }
    }
  }

  lemma NothingFails<R>()
    ensures FailsFast<R>([]) && AllSettled<R>([])
  {
  }

  lemma RepliesFail<R>(log: seq<Event<R>>)
    requires forall e :: 0 <= e < |log| ==> log[e].Replied?
    ensures FailsFast(log) && AllSettled(log)
  {
  }

  // ------------------------------------------------------------ reconnecting

  ghost predicate SentWithin<R>(log: seq<Event<R>>, lo: nat, hi: nat) {
    forall e :: 0 <= e < |log| && log[e].Sent? ==> lo <= log[e].at < hi
  }

  lemma FlushTicks<R>(o: Oracle<R>, tick: nat, batch: seq<Pending>)
    ensures var f := FlushRun(o, tick, batch); tick <= f.tick && SentWithin(f.events, tick, f.tick)
  {
    hide Expired, Unexpired, Told, Exchange;
    if batch != [] {
      var now := o.clock(tick);
      var early: seq<Event<R>>, live := Timeouts(o.timeout, now, batch), Unexpired(o.timeout, now, batch);
      TimeoutsReply<R>(o.timeout, now, batch);
      if live != [] {
        var t := Exchange(o, tick + 1, now, live);
        ExchangeTicks(o, tick + 1, now, live);
        assert SentWithin(Told(Ids(live), t.answers), tick, t.tick);
      }
    }
  }

  lemma ExchangeTicks<R>(o: Oracle<R>, tick: nat, now: nat, ps: seq<Pending>)
    ensures var t := Exchange(o, tick, now, ps); tick <= t.tick && SentWithin(t.events, tick, t.tick)
  {
    hide Ids, AllSafe;
  }

  lemma {:induction false} TimeoutsReply<R>(timeout: nat, now: nat, ps: seq<Pending>)
    ensures forall e :: 0 <= e < |Timeouts<R>(timeout, now, ps)| ==> Timeouts<R>(timeout, now, ps)[e].Replied?
  {
    hide Expired;
    if ps != [] { TimeoutsReply<R>(timeout, now, ps[..|ps| - 1]); }
  }

  lemma {:induction false} SegmentsTicks<R>(o: Oracle<R>, tick: nat, cmds: seq<Cmd>)
    ensures var s := Segments(o, tick, cmds); tick <= s.tick && SentWithin(s.events, tick, s.tick)
    decreases |cmds|
  {
    hide FlushRun, RunLength, Told;
    if cmds != [] {
      var n := RunLength(cmds);
      var f := FlushRun(o, tick, Pendings(cmds[..n]));
      FlushTicks(o, tick, Pendings(cmds[..n]));
      if f.ok { SegmentsTicks(o, f.tick, cmds[n..]); }
    }
  }

  /** Between two moments a connection was made. */
  ghost predicate Connected<R>(o: Oracle<R>, from: nat, to: nat) { exists t: nat :: from <= t <= to && o.connects(t) }

  /** Every frame goes out over a connection made no earlier than `from`. */
  ghost predicate ConnectsFirst<R>(o: Oracle<R>, log: seq<Event<R>>, from: nat) {
    forall e :: 0 <= e < |log| && log[e].Sent? ==> from <= log[e].at && Connected(o, from, log[e].at)
  }

  /** A frame behind one that was lost for good goes out over a connection made in between. */
  ghost predicate Reconnects<R>(o: Oracle<R>, log: seq<Event<R>>) {
    forall e, later :: 0 <= e < later < |log| && log[e].Sent? && log[later].Sent? && !Settled(log, e) ==>
      Connected(o, log[e].at + 1, log[later].at)
  }

  lemma ReconnectsInTurn<R>(o: Oracle<R>, a: seq<Event<R>>, b: seq<Event<R>>, lo: nat, mid: nat)
    requires FailsFast(a) && SentWithin(a, lo, mid) && Reconnects(o, b)
    requires AllSettled(a) || ConnectsFirst(o, b, mid)
    ensures Reconnects(o, a + b)
  {
    hide Full;
    forall e, later | 0 <= e < later < |a + b| && (a + b)[e].Sent? && (a + b)[later].Sent? && !Settled(a + b, e)
      ensures Connected(o, (a + b)[e].at + 1, (a + b)[later].at)
    {
      assert later < |a| ==> Settled(a, e);
      if e < |a| && later >= |a| {
        assert !Settled(a, e);
        assert b[later - |a|].Sent?;
        var t: nat :| mid <= t <= b[later - |a|].at && o.connects(t);
        assert a[e].at < mid;
      } else if e >= |a| {
        assert !Settled(b, e - |a|);
        assert b[e - |a|].Sent? && b[later - |a|].Sent?;
      }
    }
  }

  lemma ConnectsLater<R>(o: Oracle<R>, log: seq<Event<R>>, from: nat, earlier: nat)
    requires ConnectsFirst(o, log, from) && earlier <= from
    ensures ConnectsFirst(o, log, earlier)
  {
    forall e | 0 <= e < |log| && log[e].Sent? ensures Connected(o, earlier, log[e].at) {
      var t: nat :| from <= t <= log[e].at && o.connects(t);
    }
  }

  /** The frames of a drain and of what follows, all behind a connection made at `tick`. */
  lemma ConnectedNow<R>(o: Oracle<R>, tick: nat, log: seq<Event<R>>)
    requires o.connects(tick) && forall e :: 0 <= e < |log| && log[e].Sent? ==> tick <= log[e].at
    ensures ConnectsFirst(o, log, tick)
  {
  }

  ghost predicate SentFrom<R>(log: seq<Event<R>>, lo: nat) {
    forall e :: 0 <= e < |log| && log[e].Sent? ==> lo <= log[e].at
  }

  /**
   In every run the worker sends nothing over a connection it has lost: behind a frame that
   was lost for good, the next frame goes out only after a new connection was made.
   */
  lemma {:induction false} RunReconnects<R>(o: Oracle<R>, dead: bool, tick: nat, cmds: seq<Cmd>, lo: nat)
    requires Numbered(cmds) && lo <= |cmds|
    ensures var log := Loop(o, dead, tick, cmds[lo..]);
      Reconnects(o, log) && SentFrom(log, tick) && (dead ==> ConnectsFirst(o, log, tick))
    decreases |cmds| - lo
  {
    hide Segments, DrainLength, Loop, Told, FailsFast, AllSettled, Settled, Connected;
    var rx := cmds[lo..];
    if rx == [] {
      LoopEnd(o, dead, tick, rx);
    } else if dead && !o.connects(tick) {
      LoopStep(o, dead, tick, rx);
      assert rx[1..] == cmds[lo + 1..];
      RunReconnects(o, true, tick + 1, cmds, lo + 1);
      var told: seq<Event<R>> := Told([rx[0].p.id], None);
      var more := Loop(o, true, tick + 1, cmds[lo + 1..]);
      RepliesFail(told);
      ReconnectsInTurn(o, told, more, tick, tick + 1);
      ConnectsLater(o, more, tick + 1, tick);
    } else {
      LoopStep(o, dead, tick, rx);
      var t := if dead then tick + 1 else tick;
      var n := DrainLength(o, t, rx);
      assert rx[..n] == cmds[lo..lo + n] && rx[n..] == cmds[lo + n..];
      var s := Segments(o, t + 1, rx[..n]);
      SegmentsTicks(o, t + 1, rx[..n]);
      SegmentsFailFast(o, t + 1, cmds, lo, lo + n);
      RunReconnects(o, !s.ok, s.tick, cmds, lo + n);
      var more := Loop(o, !s.ok, s.tick, cmds[lo + n..]);
      ReconnectsInTurn(o, s.events, more, t + 1, s.tick);
      if dead { ConnectedNow(o, tick, s.events + more); }
    }
  }

  // ------------------------------------------------------------- the worker

  class Worker<R(0)> {
    var dead: bool
    var tick: nat
    var queue: seq<Cmd>
    var log: seq<Event<R>>

    constructor (accepted: seq<Cmd>)
      ensures !dead && tick == 0 && queue == accepted && log == []
    {
      dead, tick, queue, log := false, 0, accepted, [];
    }

    method FlushOnce(o: Oracle<R>, now: nat, ids: seq<nat>, retry: bool) returns (a: Option<seq<R>>)
      modifies this`tick, this`log
      ensures var t := RoundTrip(o, old(tick), now, ids, retry);
        tick == t.tick && log == old(log) + t.events && a == t.answers
    {
      if !o.encodable(ids) { return None; }
      a := o.answers(tick, ids);
      log := log + [Sent(tick, now, ids, retry, a)];
      tick := tick + 1;
      if a.Some? && |a.value| != |ids| { a := None; }
    }

    method Tell(ids: seq<nat>, a: Option<seq<R>>)
      requires a.Some? ==> |a.value| == |ids|
      modifies this`log
      ensures log == old(log) + Told(ids, a)
    {
      ghost var before, told := log, Told(ids, a);
      for i := 0 to |ids|
        invariant log == before + told[..i]
      {
        log := log + [Replied(ids[i], if a.Some? then Answered(a.value[i]) else TransportError)];
        assert told[..i + 1] == told[..i] + [told[i]];
      }
      assert told[..|ids|] == told;
    }

    /** Replies to the commands whose deadline has passed and keeps the others. */
    method DropExpired(timeout: nat, now: nat, batch: seq<Pending>) returns (live: seq<Pending>)
      modifies this`log
      ensures live == Unexpired(timeout, now, batch)
      ensures log == old(log) + Timeouts(timeout, now, batch)
    {
      hide Expired;
      live := [];
      ghost var out: seq<Event<R>> := [];
      for i := 0 to |batch|
        invariant live == Unexpired(timeout, now, batch[..i])
        invariant out == Timeouts(timeout, now, batch[..i]) && log == old(log) + out
      {
        assert batch[..i + 1][..i] == batch[..i];
        if Expired(timeout, now, batch[i]) {
          var reply := Replied(batch[i].id, TimedOut(now));
          Glue(old(log), out, [reply]);
          log := log + [reply];
          out := out + [reply];
        } else {
          live := live + [batch[i]];
        }
      }
      assert batch[..|batch|] == batch;
    }

    /** The frame for the live commands, and its resend after a reconnect. */
    method Send(o: Oracle<R>, now: nat, live: seq<Pending>) returns (a: Option<seq<R>>)
      modifies this`tick, this`log
      ensures var t := Exchange(o, old(tick), now, live);
        tick == t.tick && log == old(log) + t.events && a == t.answers
    {
      hide RoundTrip;
      var ids := Ids(live);
      ghost var t1 := RoundTrip(o, tick, now, ids, false);
      a := FlushOnce(o, now, ids, false);
      if a.None? && AllSafe(live) {
        var connected := o.connects(tick);
        tick := tick + 1;
        if connected {
          ghost var t2 := RoundTrip(o, tick, now, ids, true);
          a := FlushOnce(o, now, ids, true);
          Glue(old(log), t1.events, t2.events);
        }
      }
    }

    method FlushPending(o: Oracle<R>, batch: seq<Pending>) returns (ok: bool)
      modifies this`tick, this`log
      ensures var f := FlushRun(o, old(tick), batch);
        tick == f.tick && log == old(log) + f.events && ok == f.ok
    {
      hide Expired, Told, Exchange, Unexpired, Timeouts;
      if batch == [] { return true; }
      var now := o.clock(tick);
      tick := tick + 1;
      ghost var early: seq<Event<R>> := Timeouts(o.timeout, now, batch);
      var live := DropExpired(o.timeout, now, batch);
      if live == [] { return true; }
      ghost var t := Exchange(o, tick, now, live);
      var a := Send(o, now, live);
      Tell(Ids(live), a);
      Glue(old(log), early, t.events);
      Glue(old(log), early + t.events, Told(Ids(live), a));
      ok := a.Some?;
    }

    /** Takes batched commands off the front of `cmds`, up to a chunk. */
    method TakeRun(cmds: seq<Cmd>) returns (run: seq<Pending>, it: seq<Cmd>)
      ensures run == Pendings(cmds[..BatchPrefix(cmds, FLUSH_CHUNK)])
      ensures it == cmds[BatchPrefix(cmds, FLUSH_CHUNK)..]
    {
      run, it := [], cmds;
      while it != [] && it[0].Batch? && |run| < FLUSH_CHUNK
        invariant |run| <= |cmds| && |run| <= FLUSH_CHUNK
        invariant run == Pendings(cmds[..|run|]) && it == cmds[|run|..]
        invariant BatchPrefix(cmds, FLUSH_CHUNK) == |run| + BatchPrefix(it, FLUSH_CHUNK - |run|)
        decreases |it|
      {
        run, it := run + [it[0].p], it[1..];
      }
    }

    /** The inner loop of the worker: frame by frame, in order. */
    method FlushSegments(o: Oracle<R>, cmds: seq<Cmd>)
      modifies this`tick, this`log, this`dead
      ensures var s := Segments(o, old(tick), cmds);
        tick == s.tick && log == old(log) + s.events && dead == (old(dead) || !s.ok)
    {
      hide FlushRun, Told, BatchPrefix, Segments, RunLength;
      var it := cmds;
      ghost var goal, done: seq<Event<R>> := Segments(o, tick, cmds), [];
      while it != []
        invariant dead == old(dead) && log == old(log) + done
        invariant goal == Behind(done, Segments(o, tick, it))
        decreases |it|
      {
        ghost var was, at, logged := it, tick, log;
        SegmentsStep(o, at, was);
        var run: seq<Pending>;
        if it[0].Direct? {
          run, it := [it[0].p], it[1..];
        } else {
          run, it := TakeRun(it);
        }
        RunIsNext(was, run, it);
        var ok := FlushPending(o, run);
        ghost var f := FlushRun(o, at, run);
        Glue(old(log), done, f.events);
        if !ok {
          dead := true;
          Tell(Ids(Pendings(it)), None);
          Glue(old(log), done + f.events, Told(Ids(Pendings(it)), None));
          Glue(done, f.events, Told(Ids(Pendings(it)), None));
          return;
        }
        Glue(done, f.events, Segments(o, tick, it).events);
        done := done + f.events;
      }
      SegmentsEnd(o, tick, it);
    }

    method WorkerLoop(o: Oracle<R>)
      modifies this
      ensures queue == []
      ensures log == old(log) + Loop(o, old(dead), old(tick), old(queue))
    {
      hide FlushRun, Told, Segments, Loop, DrainLength;
      ghost var goal, done: seq<Event<R>> := Loop(o, dead, tick, queue), [];
      while queue != []
        invariant log == old(log) + done
        invariant goal == done + Loop(o, dead, tick, queue)
        decreases |queue|
      {
        ghost var rx := queue;
        LoopStep(o, dead, tick, queue);
        var first := queue[0];
        queue := queue[1..];
        if dead {
          var connected := o.connects(tick);
          tick := tick + 1;
          if !connected {
            Tell([first.p.id], None);
            ghost var told: seq<Event<R>> := Told([first.p.id], None);
            Glue(old(log), done, told);
            Glue(done, told, Loop(o, true, tick, queue));
            done := done + told;
            continue;
          }
          dead := false;
        }
        ghost var t := tick;
        assert [first] + queue == rx;
        var cmds := Drain(o, first);
        assert cmds == rx[..DrainLength(o, t, rx)] && queue == rx[DrainLength(o, t, rx)..];
        ghost var s := Segments(o, tick, cmds);
        FlushSegments(o, cmds);
        Glue(old(log), done, s.events);
        Glue(done, s.events, Loop(o, dead, tick, queue));
        done := done + s.events;
      }
      LoopEnd(o, dead, tick, queue);
    }

    /** Everything already queued behind `first`, up to the cap. */
    method Drain(o: Oracle<R>, first: Cmd) returns (cmds: seq<Cmd>)
      modifies this`tick, this`queue
      ensures tick == old(tick) + 1
      ensures var rx := [first] + old(queue); var n := DrainLength(o, old(tick), rx);
        cmds == rx[..n] && queue == rx[n..]
    {
      ghost var rx := [first] + queue;
      var more := o.queued(tick);
      tick := tick + 1;
      cmds := [first];
      while |cmds| < MAX_FLUSH_OPS && |cmds| <= more && queue != []
        invariant tick == old(tick) + 1 && 1 <= |cmds| <= DrainLength(o, old(tick), rx)
        invariant cmds == rx[..|cmds|] && queue == rx[|cmds|..]
      {
        cmds, queue := cmds + [queue[0]], queue[1..];
      }
      assert |cmds| == DrainLength(o, old(tick), rx);
    }
  }

  lemma Glue<T>(x: seq<T>, y: seq<T>, z: seq<T>)
    ensures (x + y) + z == x + (y + z)
  {
  }

  /** What is still to come, seen from further back. */
  function Behind<R>(done: seq<Event<R>>, f: Flush<R>): Flush<R> { f.(events := done + f.events) }

  lemma SegmentsStep<R>(o: Oracle<R>, tick: nat, cmds: seq<Cmd>)
    requires cmds != []
    ensures var n := RunLength(cmds);
      var f := FlushRun(o, tick, Pendings(cmds[..n]));
      Segments(o, tick, cmds) ==
        if f.ok then Behind(f.events, Segments(o, f.tick, cmds[n..]))
        else Flush(f.tick, f.events + Told(Ids(Pendings(cmds[n..])), None), false)
  {
    hide FlushRun, RunLength, Told;
  }

  lemma SegmentsEnd<R>(o: Oracle<R>, tick: nat, cmds: seq<Cmd>)
    requires cmds == []
    ensures Segments(o, tick, cmds) == Flush(tick, [], true)
  {
  }

  lemma RunIsNext(cmds: seq<Cmd>, run: seq<Pending>, rest: seq<Cmd>)
    requires cmds != []
    requires var n := if cmds[0].Direct? then 1 else BatchPrefix(cmds, FLUSH_CHUNK);
      run == Pendings(cmds[..n]) && rest == cmds[n..]
    ensures run == Pendings(cmds[..RunLength(cmds)]) && rest == cmds[RunLength(cmds)..]
  {
    hide BatchPrefix;
  }

  lemma LoopStep<R>(o: Oracle<R>, dead: bool, tick: nat, rx: seq<Cmd>)
    requires rx != []
    ensures Loop(o, dead, tick, rx) ==
      if dead && !o.connects(tick) then Told([rx[0].p.id], None) + Loop(o, true, tick + 1, rx[1..])
      else
        var t := if dead then tick + 1 else tick;
        var n := DrainLength(o, t, rx);
        var s := Segments(o, t + 1, rx[..n]);
        s.events + Loop(o, !s.ok, s.tick, rx[n..])
  {
    hide Told, Segments, DrainLength;
  }

  lemma LoopEnd<R>(o: Oracle<R>, dead: bool, tick: nat, rx: seq<Cmd>)
    requires rx == []
    ensures Loop(o, dead, tick, rx) == []
  {
  }
}
