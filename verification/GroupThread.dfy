/**
 The group-commit thread as the loop it is. Whatever the writers do between its actions,
 every state it passes through is one the step system of module GroupCommit reaches.
 */
module GroupThread {
  import opened Types
  import opened Recovery
  import opened GroupCommit

  /**
   The world by consultation: what the senders do before the thread's next action (they
   send, and the last one may leave), and how file appends and syncs go.
   */
  datatype Oracle = Oracle(sends: nat -> seq<Entry>, leaves: nat -> bool, appends: nat -> bool, syncs: nat -> bool)

  /**
   Which entries of a batch reach the file when its appends begin at consultation `at`;
   between two appends the senders have a turn.
   */
  function Landed(o: Oracle, at: nat, batch: seq<Entry>): (r: seq<Entry>)
    ensures |r| <= |batch|
  {
    if batch == [] then [] else
    var n := |batch| - 1;
    Landed(o, at, batch[..n]) + (if o.appends(at + 2 * n + 1) then [batch[n]] else [])
  }

  /** No append and no sync fails. */
  ghost predicate Well(o: Oracle) { forall at: nat :: o.appends(at) && o.syncs(at) }

  lemma {:induction false} AllLand(o: Oracle, at: nat, batch: seq<Entry>)
    requires Well(o)
    ensures Landed(o, at, batch) == batch
  {
    if batch != [] { AllLand(o, at, batch[..|batch| - 1]); }
  }

  lemma LandNext(o: Oracle, at: nat, batch: seq<Entry>, n: nat)
    requires n < |batch|
    ensures Landed(o, at, batch[..n + 1])
         == Landed(o, at, batch[..n]) + (if o.appends(at + 2 * n + 1) then [batch[n]] else [])
  {
    assert batch[..n + 1][..n] == batch[..n];
  }

  /**
   From one moment, with `channel` and `accepted`, to a later one, `taken` has left the
   channel: it and what is on the channel now are what was on it and what was accepted since.
   */
  ghost predicate Flows(channel: seq<Entry>, accepted: seq<Entry>, taken: seq<Entry>,
                        channel': seq<Entry>, accepted': seq<Entry>)
  {
    accepted <= accepted' && taken + channel' == channel + accepted'[|accepted|..]
  }

  lemma FlowsNone(c: seq<Entry>, a: seq<Entry>)
    ensures Flows(c, a, [], c, a)
  {
  }

  lemma FlowsOne(c: seq<Entry>, a: seq<Entry>, w: Entry)
    ensures Flows(c, a, [], c + [w], a + [w])
  {
  }

  lemma FlowsTake(c: seq<Entry>, a: seq<Entry>)
    requires c != []
    ensures Flows(c, a, [c[0]], c[1..], a)
  {
  }

  lemma FlowsOn(c: seq<Entry>, a: seq<Entry>, x: seq<Entry>, c1: seq<Entry>, a1: seq<Entry>,
                y: seq<Entry>, c2: seq<Entry>, a2: seq<Entry>)
    requires Flows(c, a, x, c1, a1) && Flows(c1, a1, y, c2, a2)
    ensures Flows(c, a, x + y, c2, a2)
  {
    var more, late := a1[|a|..], a2[|a1|..];
    assert a2[..|a1|] == a1 && a1[..|a|] == a;
    assert a2[..|a|] == a2[..|a1|][..|a|] == a;
    assert a2[|a|..] == more + late;
    assert (x + y) + c2 == x + (y + c2) == x + (c1 + late) == (x + c1) + late;
    assert (x + c1) + late == (c + more) + late == c + (more + late);
  }

  /** The senders' turn, and then the first entry is taken. */
  lemma TakeAfter(c: seq<Entry>, a: seq<Entry>, x: seq<Entry>, c1: seq<Entry>, a1: seq<Entry>,
                  c2: seq<Entry>, a2: seq<Entry>)
    requires Flows(c, a, x, c1, a1) && Flows(c1, a1, [], c2, a2)
    ensures Flows(c, a, x, c2, a2) && (c2 != [] ==> Flows(c, a, x + [c2[0]], c2[1..], a2))
  {
    FlowsOn(c, a, x, c1, a1, [], c2, a2);
    assert x + [] == x;
    if c2 != [] {
      FlowsTake(c2, a2);
      FlowsOn(c, a, x, c2, a2, [c2[0]], c2[1..], a2);
    }
  }

  /** The channel is first in, first out. */
  lemma FlowsInOrder(c: seq<Entry>, a: seq<Entry>, taken: seq<Entry>, c': seq<Entry>, a': seq<Entry>, n: nat)
    requires Flows(c, a, taken, c', a') && n <= |taken| && n <= |c|
    ensures taken[..n] == c[..n]
  {
    assert (taken + c')[..n] == taken[..n] && (c + a'[|a|..])[..n] == c[..n];
  }

  /** All that was on the channel, and all that was accepted up to some later moment. */
  ghost predicate TookAll(c: seq<Entry>, a: seq<Entry>, taken: seq<Entry>, a': seq<Entry>)
    requires a <= a'
  {
    exists closed :: |a| <= closed <= |a'| && taken == c + a'[|a|..closed]
  }

  lemma ClosedEmpty(c: seq<Entry>, a: seq<Entry>, taken: seq<Entry>, c1: seq<Entry>, a1: seq<Entry>,
                    c2: seq<Entry>, a2: seq<Entry>)
    requires Flows(c, a, taken, c1, a1) && Flows(c1, a1, [], c2, a2)
    ensures Flows(c, a, taken, c2, a2) && (c1 == [] ==> TookAll(c, a, taken, a2))
  {
    FlowsOn(c, a, taken, c1, a1, [], c2, a2);
    assert taken + [] == taken;
    assert a1[|a|..] == a2[|a|..|a1|];
    assert c1 == [] ==> taken == taken + c1 == c + a2[|a|..|a1|];
  }

  lemma FlowsDry(c: seq<Entry>, a: seq<Entry>, taken: seq<Entry>, c': seq<Entry>, a': seq<Entry>)
    requires Flows(c, a, taken, c', a') && c' == []
    ensures taken == c + a'[|a|..] && |taken| >= |c|
  {
  }

  lemma RunMore(maxBatch: nat, base: seq<Entry>, steps: seq<Step>, step: Step)
    ensures Run(maxBatch, Start(base), steps + [step]) == Next(maxBatch, Run(maxBatch, Start(base), steps), step)
  {
    hide Next;
    assert (steps + [step])[..|steps|] == steps;
  }

  class WalThread {
    const maxBatch: nat
    ghost const base: seq<Entry>
    // The channel, shared with the senders.
    var connected: bool
    var channel: seq<Entry>
    var dropped: nat
    // The thread and its log file.
    var batch: seq<Entry>
    var okOps: nat
    var opsFlushed: nat
    var file: seq<Entry>
    var synced: nat
    var phase: Phase
    var tick: nat
    // History.
    ghost var accepted: seq<Entry>
    ghost var failed: bool
    ghost var steps: seq<Step>

    ghost function Now(): Shard
      reads this
    {
      Shard(connected, channel, batch, phase, file, synced, okOps, opsFlushed, dropped, accepted, failed)
    }

    /** The present state is where the recorded steps lead. */
    ghost predicate Reached()
      reads this
    {
      Now() == Run(maxBatch, Start(base), steps)
    }

    /** The thread opens its log file, which may hold entries. */
    constructor (maxBatch: nat, file: seq<Entry>)
      ensures Reached() && base == file && Now() == Start(base) && this.maxBatch == maxBatch
    {
      this.maxBatch, base, this.file := maxBatch, file, file;
      connected, channel, dropped := true, [], 0;
      batch, okOps, opsFlushed, synced, tick := [], 0, 0, |file|, 0;
      phase, accepted, failed, steps := Idle, file, false, [];
    }

    ghost method Did(step: Step, was: Shard)
      requires was == Run(maxBatch, Start(base), steps) && Now() == Next(maxBatch, was, step)
      modifies this`steps
      ensures Reached() && steps == old(steps) + [step]
    {
      hide Next, Run;
      RunMore(maxBatch, base, steps, step);
      steps := steps + [step];
    }

    /** A sender's append: taken, or refused when the channel is full or the thread is gone. */
    method TrySend(w: Entry) returns (ok: bool)
      requires Reached() && connected
      modifies this`channel, this`dropped, this`accepted, this`steps
      ensures Reached() && steps == old(steps) + [Append(w)]
      ensures Now() == Next(maxBatch, old(Now()), Append(w))
      ensures ok <==> |old(channel)| < CHANNEL_CAP && !phase.Stopped?
      ensures channel == (if ok then old(channel) + [w] else old(channel))
      ensures dropped == (if ok then old(dropped) else old(dropped) + 1)
      ensures accepted == (if ok then old(accepted) + [w] else old(accepted))
    {
      hide Run;
      ghost var was := Now();
      ok := |channel| < CHANNEL_CAP && !phase.Stopped?;
      if ok {
        channel, accepted := channel + [w], accepted + [w];
      } else {
        dropped := dropped + 1;
      }
      Did(Append(w), was);
    }

    /** The senders have their turn. */
    method Others(o: Oracle)
      requires Reached()
      modifies this`channel, this`connected, this`dropped, this`accepted, this`steps, this`tick
      ensures Reached() && old(steps) <= steps && tick == old(tick) + 1
      ensures !old(connected) ==> channel == old(channel) && !connected
      ensures Flows(old(channel), old(accepted), [], channel, accepted)
    {
      hide Next, Run, Flows;
      var turn := tick;
      tick := tick + 1;
      FlowsNone(channel, accepted);
      if !connected { return; }
      var ws := o.sends(turn);
      for i := 0 to |ws|
        invariant Reached() && connected && old(steps) <= steps && tick == old(tick) + 1
        invariant Flows(old(channel), old(accepted), [], channel, accepted)
      {
        ghost var c, a := channel, accepted;
        var ok := TrySend(ws[i]);
        if ok {
          FlowsOne(c, a, ws[i]);
          FlowsOn(old(channel), old(accepted), [], c, a, [], channel, accepted);
        }
      }
      if o.leaves(turn) {
        ghost var was := Now();
        connected := false;
        LeaveIsStep(maxBatch, was);
        Did(Disconnect, was);
      }
    }

    /** The first entry of a group. */
    method Receive()
      requires Reached() && phase.Idle? && batch == [] && channel != []
      modifies this`batch, this`channel, this`phase, this`steps
      ensures Reached() && phase.Filling? && batch == [old(channel)[0]] && channel == old(channel)[1..]
    {
      hide Run, Next;
      ghost var was := Now();
      batch, channel, phase := batch + [channel[0]], channel[1..], Filling;
      RecvIsStep(maxBatch, was);
      Did(Recv, was);
    }

    /** One more entry for the batch. */
    method TakeOne()
      requires Reached() && phase.Filling? && |batch| < Max1(maxBatch) && channel != []
      modifies this`batch, this`channel, this`steps
      ensures Reached() && batch == old(batch) + [old(channel)[0]] && channel == old(channel)[1..]
    {
      hide Run, Next;
      ghost var was := Now();
      batch, channel := batch + [channel[0]], channel[1..];
      TakeIsStep(maxBatch, was);
      Did(TryRecv, was);
    }

    /** The batch is full or nothing is left. */
    method Close()
      requires Reached() && phase.Filling? && (|batch| >= Max1(maxBatch) || channel == [])
      modifies this`phase, this`okOps, this`steps
      ensures Reached() && phase.Writing? && okOps == 0
    {
      hide Run, Next;
      ghost var was := Now();
      phase, okOps := Writing, 0;
      CloseIsStep(maxBatch, was);
      Did(CloseBatch, was);
    }

    /** The first entry of a group has arrived: fill up the batch from the channel. */
    method Fill(o: Oracle)
      requires Reached() && phase.Filling?
      modifies this`channel, this`connected, this`dropped, this`accepted, this`steps, this`tick, this`batch, this`phase,
        this`okOps
      ensures Reached() && phase.Writing? && okOps == 0
      ensures old(batch) <= batch
      ensures Flows(old(channel), old(accepted), batch[|old(batch)|..], channel, accepted)
      ensures |batch| <= |old(batch)| || |batch| <= Max1(maxBatch)
      ensures |batch| >= Max1(maxBatch) || channel == []
    {
      hide Run, Next, Flows, Reached;
      var limit := if maxBatch == 0 then 1 else maxBatch;
      FlowsNone(channel, accepted);
      assert batch[|batch|..] == [];
      while |batch| < limit
        invariant Reached() && phase.Filling?
        invariant old(batch) <= batch
        invariant Flows(old(channel), old(accepted), batch[|old(batch)|..], channel, accepted)
        invariant |batch| <= |old(batch)| || |batch| <= limit
        decreases limit - |batch|
      {
        ghost var c, a, more := channel, accepted, batch[|old(batch)|..];
        Others(o);
        TakeAfter(old(channel), old(accepted), more, c, a, channel, accepted);
        if channel == [] { break; }
        ghost var next := channel[0];
        TakeOne();
        assert batch[|old(batch)|..] == more + [next];
      }
      Close();
    }

    /** The next entry of the batch goes to the file, or is lost to a failed append. */
    method AppendNext(o: Oracle)
      requires Reached() && phase.Writing? && batch != []
      modifies this`file, this`okOps, this`failed, this`batch, this`steps, this`tick
      ensures Reached() && batch == old(batch)[1..] && tick == old(tick) + 1
      ensures file == old(file) + (if o.appends(old(tick)) then [old(batch)[0]] else [])
      ensures okOps == old(okOps) + (if o.appends(old(tick)) then 1 else 0)
    {
      hide Run, Next;
      ghost var was := Now();
      var ok := o.appends(tick);
      tick := tick + 1;
      if ok {
        file, okOps := file + [batch[0]], okOps + 1;
      } else {
        failed := true;
      }
      batch := batch[1..];
      WriteIsStep(maxBatch, was, ok);
      Did(WriteOne(ok), was);
    }

    /** One sync for the whole group. */
    method SyncGroup(o: Oracle)
      requires Reached() && phase.Writing? && batch == []
      modifies this`synced, this`opsFlushed, this`phase, this`steps, this`tick
      ensures Reached() && phase.Idle? && tick == old(tick) + 1
      ensures synced == if o.syncs(old(tick)) then |file| else old(synced)
      ensures opsFlushed == if o.syncs(old(tick)) then old(opsFlushed) + okOps else old(opsFlushed)
    {
      hide Run, Next;
      ghost var was := Now();
      var ok := o.syncs(tick);
      tick := tick + 1;
      if ok { synced, opsFlushed := |file|, opsFlushed + okOps; }
      phase := Idle;
      SyncIsStep(maxBatch, was, ok);
      Did(Sync(ok), was);
    }

    /**
     Appends the batch to the file and syncs once, the senders going on meanwhile. What
     lands is in the file, and if the sync succeeds it is synced and counted.
     */
    method WriteGroup(o: Oracle)
      requires Reached() && phase.Writing? && okOps == 0
      modifies this
      ensures Reached() && phase.Idle? && batch == [] && tick == old(tick) + 2 * |old(batch)| + 2
      ensures Flows(old(channel), old(accepted), [], channel, accepted)
      ensures file == old(file) + Landed(o, old(tick), old(batch))
      ensures synced == if o.syncs(tick - 1) then |file| else old(synced)
      ensures opsFlushed ==
                if o.syncs(tick - 1) then old(opsFlushed) + |Landed(o, old(tick), old(batch))| else old(opsFlushed)
    {
      hide Run, Next, Reached, Landed, Flows;
      ghost var all, at, n := batch, tick, 0;
      FlowsNone(channel, accepted);
      assert all[..0] == [] && Landed(o, at, []) == [] by { RevealLanded(o, at); }
      while batch != []
        invariant Reached() && phase.Writing?
        invariant n <= |all| && batch == all[n..] && tick == at + 2 * n
        invariant file == old(file) + Landed(o, at, all[..n]) && okOps == |Landed(o, at, all[..n])|
        invariant synced == old(synced) && opsFlushed == old(opsFlushed)
        invariant Flows(old(channel), old(accepted), [], channel, accepted)
        decreases |batch|
      {
        ghost var c, a := channel, accepted;
        Others(o);
        FlowsOn(old(channel), old(accepted), [], c, a, [], channel, accepted);
        LandNext(o, at, all, n);
        AppendNext(o);
        n := n + 1;
      }
      assert all[..n] == all;
      ghost var c, a := channel, accepted;
      Others(o);
      FlowsOn(old(channel), old(accepted), [], c, a, [], channel, accepted);
      SyncGroup(o);
    }

    /** The drain after the disconnect: everything still there, up to `limit`. */
    method DrainRest(limit: nat)
      modifies this`batch, this`channel
      ensures (batch, channel) == Drained(old(batch), old(channel), limit)
    {
      ghost var goal := Drained(batch, channel, limit);
      while channel != []
        invariant Drained(batch, channel, limit) == goal
        decreases |channel|
      {
        batch, channel := batch + [channel[0]], channel[1..];
        if |batch| >= limit { break; }
      }
    }

    /** The channel is closed and empty: drain, write what is left, end. */
    method Finish(o: Oracle)
      requires Reached() && phase.Idle? && !connected && channel == []
      modifies this
      ensures Reached() && phase.Stopped?
      ensures !connected && accepted == old(accepted) && channel == []
      ensures old(batch) == [] ==> file == old(file) && synced == old(synced) && opsFlushed == old(opsFlushed)
    {
      hide Run;
      ghost var was := Now();
      DrainRest(if maxBatch == 0 then 4 else maxBatch * 4);
      phase := if batch == [] then Stopped else LastWriting;
      Did(Recv, was);
      if batch == [] { return; }
      WriteLast(o);
    }

    /** The last group: no sync between the appends and the counters. */
    method WriteLast(o: Oracle)
      requires Reached() && phase.LastWriting?
      modifies this
      ensures Reached() && phase.Stopped?
      ensures connected == old(connected) && accepted == old(accepted) && channel == old(channel)
    {
      hide Run, Next;
      while batch != []
        invariant Reached() && phase.LastWriting?
        invariant connected == old(connected) && accepted == old(accepted) && channel == old(channel)
        decreases |batch|
      {
        ghost var was := Now();
        var ok := o.appends(tick);
        tick := tick + 1;
        if ok {
          file, opsFlushed := file + [batch[0]], opsFlushed + 1;
        } else {
          failed := true;
        }
        batch := batch[1..];
        LastWriteIsStep(maxBatch, was, ok);
        Did(WriteOne(ok), was);
      }
      ghost var was := Now();
      var ok := o.syncs(tick);
      tick := tick + 1;
      if ok { synced := |file|; }
      phase := Stopped;
      LastSyncIsStep(maxBatch, was, ok);
      Did(Sync(ok), was);
    }

    /**
     One group: `taken` leaves the channel, at least one entry, and fewer than a batch only
     if nothing was left when the group was closed. What of it lands from consultation `at`
     on is in the file at the end, synced and counted if the sync succeeds.
     */
    method Group(o: Oracle) returns (ghost taken: seq<Entry>, ghost at: nat)
      requires Reached() && phase.Idle? && batch == [] && channel != []
      modifies this
      ensures Reached() && phase.Idle?
      ensures Flows(old(channel), old(accepted), taken, channel, accepted)
      ensures 1 <= |taken| <= Max1(maxBatch)
      ensures old(accepted) <= accepted
      ensures |taken| < Max1(maxBatch) ==> TookAll(old(channel), old(accepted), taken, accepted)
      ensures tick == at + 2 * |taken| + 2 && file == old(file) + Landed(o, at, taken)
      ensures synced == if o.syncs(tick - 1) then |file| else old(synced)
      ensures opsFlushed == old(opsFlushed) + if o.syncs(tick - 1) then |Landed(o, at, taken)| else 0
    {
      hide Run, Next, Landed, Flows, TookAll, Reached;
      ghost var first := channel[0];
      FlowsTake(channel, accepted);
      Receive();
      ghost var c := channel;
      Fill(o);
      taken, at := batch, tick;
      FlowsOn(old(channel), old(accepted), [first], c, old(accepted), batch[1..], channel, accepted);
      assert taken == [first] + batch[1..];
      ghost var c1, a1 := channel, accepted;
      WriteGroup(o);
      ClosedEmpty(old(channel), old(accepted), taken, c1, a1, channel, accepted);
      FlowsGrow(old(channel), old(accepted), taken, channel, accepted);
    }

    /**
     One turn of the loop: one group, or an idle wait, or the end. A turn that takes nothing
     found nothing and leaves the file alone.
     */
    method Round(o: Oracle) returns (ended: bool, ghost taken: seq<Entry>, ghost at: nat)
      requires Reached() && phase.Idle?
      modifies this
      ensures Reached() && (if ended then phase.Stopped? && !connected && taken == [] else phase.Idle?)
      ensures Flows(old(channel), old(accepted), taken, channel, accepted)
      ensures |taken| <= Max1(maxBatch) && (|taken| < Max1(maxBatch) ==> |taken| >= |old(channel)|)
      ensures taken == [] ==> channel == []
      ensures taken == [] ==> file == old(file) && synced == old(synced) && opsFlushed == old(opsFlushed)
      ensures taken != [] ==>
        && tick == at + 2 * |taken| + 2 && file == old(file) + Landed(o, at, taken)
        && synced == (if o.syncs(tick - 1) then |file| else old(synced))
        && opsFlushed == old(opsFlushed) + (if o.syncs(tick - 1) then |Landed(o, at, taken)| else 0)
    {
      hide Run, Landed, Flows, TookAll;
      Others(o);
      ghost var c, a := channel, accepted;
      FlowsGrow(old(channel), old(accepted), [], c, a);
      FlowsNone(c, a);
      taken, at, ended := [], tick, false;
      ghost var was, idle := steps, Now();
      if channel != [] {
        IdleIsEmpty(maxBatch, base, was);
        taken, at := Group(o);
        if |taken| < Max1(maxBatch) { TookSome(c, a, taken, accepted); }
        FlowsOn(old(channel), old(accepted), [], c, a, taken, channel, accepted);
        assert [] + taken == taken;
      } else if connected {
        if batch != [] {
          phase, okOps := Writing, 0;
          Did(Recv, idle);
          WriteGroup(o);
          IdleIsEmpty(maxBatch, base, was);
        }
      } else {
        IdleIsEmpty(maxBatch, base, was);
        Finish(o);
        ended := true;
      }
    }

    /**
     Turn by turn: what has been taken is a batch for each turn, or all that was there at
     first; if nothing fails it is in the file, in order, and counted.
     */
    method Turns(o: Oracle, rounds: nat) returns (ended: bool, ghost all: seq<Entry>)
      requires Reached() && phase.Idle?
      modifies this
      ensures Reached() && (ended ==> phase.Stopped?)
      ensures Flows(old(channel), old(accepted), all, channel, accepted)
      ensures |all| >= Min(rounds * Max1(maxBatch), |old(channel)|)
      ensures Well(o) ==> file == old(file) + all && opsFlushed == old(opsFlushed) + |all|
      ensures Well(o) && all != [] ==> synced == |file|
    {
      hide Run, Landed, Reached, Flows;
      ended, all := false, [];
      FlowsNone(channel, accepted);
      for r := 0 to rounds
        invariant Reached() && phase.Idle? && !ended
        invariant Flows(old(channel), old(accepted), all, channel, accepted)
        invariant |all| >= Min(r * Max1(maxBatch), |old(channel)|)
        invariant Well(o) ==> file == old(file) + all && opsFlushed == old(opsFlushed) + |all|
        invariant Well(o) && all != [] ==> synced == |file|
      {
        ghost var c, a, before := channel, accepted, all;
        ghost var taken, at;
        ended, taken, at := Round(o);
        if Well(o) { AllLand(o, at, taken); }
        FlowsOn(old(channel), old(accepted), before, c, a, taken, channel, accepted);
        Gains(old(channel), old(accepted), before, c, a, |taken|, r, Max1(maxBatch));
        all := before + taken;
        if ended {
          FlowsDry(old(channel), old(accepted), all, channel, accepted);
          break;
        }
      }
    }

    /**
     The thread for up to `rounds` groups or idle waits; it goes on from where it was. Where
     it is cut, the file starts the accepted writes with every flushed one in it, and when
     it has ended by itself the file is all of them.

     While appends and syncs succeed every turn makes progress, senders connected or not: a
     batch for each turn of what was on the channel is in the synced file and counted.
     */
    method GroupLoop(o: Oracle, rounds: nat) returns (ended: bool)
      requires Reached() && phase.Idle?
      modifies this
      ensures Reached() && (ended ==> phase.Stopped?)
      ensures !failed ==> file <= accepted && |base| + opsFlushed <= synced <= |file|
      ensures ended && !failed ==> file == accepted
      ensures Well(o) ==>
        && old(file) + old(channel)[..Min(rounds * Max1(maxBatch), |old(channel)|)] <= file
        && opsFlushed == old(opsFlushed) + |file| - |old(file)|
        && (file == old(file) || synced == |file|)
    {
      hide Run, Flows;
      ghost var all;
      ended, all := Turns(o, rounds);
      ghost var n := Min(rounds * Max1(maxBatch), |old(channel)|);
      FlowsInOrder(old(channel), old(accepted), all, channel, accepted, n);
      assert all == all[..n] + all[n..];
      EndsSound(maxBatch, base, steps, ended);
    }
  }

  lemma TookSome(c: seq<Entry>, a: seq<Entry>, taken: seq<Entry>, a': seq<Entry>)
    requires a <= a' && TookAll(c, a, taken, a')
    ensures |taken| >= |c|
  {
  }

  lemma FlowsGrow(c: seq<Entry>, a: seq<Entry>, taken: seq<Entry>, c': seq<Entry>, a': seq<Entry>)
    requires Flows(c, a, taken, c', a')
    ensures a <= a' && |taken| + |c'| == |c| + |a'| - |a|
  {
  }

  /** A turn that takes a batch, or all that is there, keeps up with a batch for each turn. */
  lemma Gains(c: seq<Entry>, a: seq<Entry>, all: seq<Entry>, c': seq<Entry>, a': seq<Entry>, n: nat, r: nat, limit: nat)
    requires Flows(c, a, all, c', a') && |all| >= Min(r * limit, |c|)
    requires n < limit ==> n >= |c'|
    ensures |all| + n >= Min((r + 1) * limit, |c|)
  {
    assert (r + 1) * limit == r * limit + limit;
    FlowsGrow(c, a, all, c', a');
  }

  function Min(a: nat, b: nat): nat { if a < b then a else b }

  lemma RevealLanded(o: Oracle, at: nat)
    ensures Landed(o, at, []) == []
  {
  }

  /** Between groups the batch is empty. */
  lemma IdleIsEmpty(maxBatch: nat, base: seq<Entry>, steps: seq<Step>)
    ensures var s := Run(maxBatch, Start(base), steps); s.phase.Idle? ==> s.batch == []
  {
    RunKeepsInv(maxBatch, base, steps);
  }

  lemma EndsSound(maxBatch: nat, base: seq<Entry>, steps: seq<Step>, ended: bool)
    requires ended ==> Run(maxBatch, Start(base), steps).phase.Stopped?
    ensures var s := Run(maxBatch, Start(base), steps);
      !s.failed ==> s.file <= s.accepted && |base| + s.opsFlushed <= s.synced <= |s.file|
                    && (ended ==> s.file == s.accepted)
  {
    hide Run;
    RunKeepsInv(maxBatch, base, steps);
    if ended && !Run(maxBatch, Start(base), steps).failed { CleanShutdownLosesNothing(maxBatch, base, steps); }
  }

  lemma WriteIsStep(maxBatch: nat, s: Shard, ok: bool)
    requires s.batch != [] && s.phase.Writing?
    ensures Next(maxBatch, s, WriteOne(ok)) ==
      if ok then s.(batch := s.batch[1..], file := s.file + [s.batch[0]], okOps := s.okOps + 1)
      else s.(batch := s.batch[1..], failed := true)
  {
  }

  lemma SyncIsStep(maxBatch: nat, s: Shard, ok: bool)
    requires s.batch == [] && s.phase.Writing?
    ensures Next(maxBatch, s, Sync(ok)) ==
      if ok then s.(phase := Idle, synced := |s.file|, opsFlushed := s.opsFlushed + s.okOps) else s.(phase := Idle)
  {
  }

  lemma LastWriteIsStep(maxBatch: nat, s: Shard, ok: bool)
    requires s.batch != [] && s.phase.LastWriting?
    ensures Next(maxBatch, s, WriteOne(ok)) ==
      if ok then s.(batch := s.batch[1..], file := s.file + [s.batch[0]], opsFlushed := s.opsFlushed + 1)
      else s.(batch := s.batch[1..], failed := true)
  {
  }

  lemma LastSyncIsStep(maxBatch: nat, s: Shard, ok: bool)
    requires s.batch == [] && s.phase.LastWriting?
    ensures Next(maxBatch, s, Sync(ok)) == s.(phase := Stopped, synced := if ok then |s.file| else s.synced)
  {
  }

  lemma TakeIsStep(maxBatch: nat, s: Shard)
    requires s.phase.Filling? && |s.batch| < Max1(maxBatch) && s.channel != []
    ensures Next(maxBatch, s, TryRecv) == s.(batch := s.batch + [s.channel[0]], channel := s.channel[1..])
  {
  }

  lemma RecvIsStep(maxBatch: nat, s: Shard)
    requires s.phase.Idle? && s.channel != []
    ensures Next(maxBatch, s, Recv)
         == s.(batch := s.batch + [s.channel[0]], channel := s.channel[1..], phase := Filling)
  {
  }

  lemma CloseIsStep(maxBatch: nat, s: Shard)
    requires s.phase.Filling? && (|s.batch| >= Max1(maxBatch) || s.channel == [])
    ensures Next(maxBatch, s, CloseBatch) == s.(phase := Writing, okOps := 0)
  {
  }

  lemma LeaveIsStep(maxBatch: nat, s: Shard)
    ensures Next(maxBatch, s, Disconnect) == s.(connected := false)
  {
  }
}
