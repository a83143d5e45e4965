/** The supervisor's code over its global tables. Its entry points take exactly the steps of the state
    machine in `Kernel` and record them, so what holds of every run holds of the code. */
module Supervisor {
  import opened Bytes
  import opened Bitmap
  import opened Kernel
  import opened KernelRuns
  import KernelBoot
  import KernelCalls

  /** A run with one more step. */
  ghost function Then(r: Run, step: Step): Run
    requires IsRun(r) && WellFormed(r.states[|r.steps|]) && Enabled(r.states[|r.steps|], step)
  {
    Run(r.states + [Next(r.states[|r.steps|], step)], r.steps + [step])
  }

  lemma ThenIsRun(r: Run, step: Step)
    requires IsRun(r) && WellFormed(r.states[|r.steps|]) && Enabled(r.states[|r.steps|], step)
    ensures IsRun(Then(r, step)) && Inv(Next(r.states[|r.steps|], step))
    ensures Then(r, step).states[|Then(r, step).steps|] == Next(r.states[|r.steps|], step)
  {
    hide Next, Init;
    InvariantHolds(r, |r.steps|);
    StepKeepsInv(r.states[|r.steps|], step);
  }

  class Supervisor {
    var shards: seq<Shard>
    var channels: seq<Channel>
    var current: Option<nat>
    var last: nat
    var mode: Mode
    ghost var run: Run

    /** The tables as one value. */
    ghost function Value(): State
      reads this
    {
      State(shards, channels, current, last, mode)
    }

    /** The array sizes, which hold even in the middle of an operation. */
    ghost predicate Shaped()
      reads this
    {
      WellFormed(Value())
    }

    /** The kernel invariant, which every operation keeps. */
    ghost predicate Valid()
      reads this
    {
      Inv(Value())
    }

    /** What has happened since boot is a run of the state machine that ends in these tables. */
    ghost predicate Traced()
      reads this
    {
      Valid() && IsRun(run) && run.states[|run.steps|] == Value()
    }

    constructor (gpu: bool)
      ensures Traced() && Value() == KernelBoot.Boot(gpu) && run == Run([Value()], [])
    {
      KernelBoot.BootIsInit(gpu);
      var b := KernelBoot.Boot(gpu);
      shards, channels, current, last, mode := b.shards, b.channels, b.current, b.last, b.mode;
      run := Run([b], []);
      new;
      InvariantHolds(run, 0);
    }

    /** The kernel is working for shard `id`, which is in user code. */
    ghost predicate Serving(id: nat)
      reads this
    {
      id < |shards| && mode.InShard? && current == Some(id) && shards[id].cont.User?
    }

    // ---------------------------------------------------------------- capabilities

    method Check(id: nat, kind: nat, resource: nat, rights: bv16) returns (b: bool)
      requires Shaped()
      ensures b <==> id < MAX_SHARDS && Holds(shards[id].caps, kind, resource, rights)
    {
      if id >= MAX_SHARDS { return false; }
      for i := 0 to MAX_CAPS
        invariant forall j :: 0 <= j < i ==> !Grants(shards[id].caps[j], kind, resource, rights)
      {
        if Grants(shards[id].caps[i], kind, resource, rights) { return true; }
      }
      return false;
    }

    /** Puts a capability into the first empty slot; a full table is left alone. */
    method GrantToShard(id: nat, cap: Cap) returns (slot: Option<nat>)
      requires Valid() && id < MAX_SHARDS && cap.Cap?
      modifies this`shards
      ensures Valid()
      ensures slot.None? ==> Value() == old(Value()) && forall j: nat :: !FirstEmpty(old(shards)[id].caps, j)
      ensures slot.Some? ==>
                && FirstEmpty(old(shards)[id].caps, slot.value)
                && Value() == SetCaps(old(Value()), id, old(shards)[id].caps[slot.value := cap])
    {
      for i := 0 to MAX_CAPS
        invariant Valid() && shards == old(shards)
        invariant forall j :: 0 <= j < i ==> shards[id].caps[j].Cap?
      {
        if shards[id].caps[i].Empty? {
          TableStepKeepsInv(Value(), SetCaps(Value(), id, shards[id].caps[i := cap]));
          shards := shards[id := shards[id].(caps := shards[id].caps[i := cap])];
          return Some(i);
        }
      }
      return None;
    }

    method GrantCopy(src: nat, handle: nat, target: nat, rights: bv16) returns (slot: Option<nat>)
      requires Valid() && src < MAX_SHARDS
      modifies this`shards
      ensures Valid()
      ensures var cap := Granted(old(Value()), src, handle, target, rights);
              if slot.None?
              then Value() == old(Value()) && (cap.Some? ==> forall j: nat :: !FirstEmpty(old(shards)[target].caps, j))
              else cap.Some? && FirstEmpty(old(shards)[target].caps, slot.value)
                   && Value() == SetCaps(old(Value()), target, old(shards)[target].caps[slot.value := cap.value])
      ensures slot.Some? <==> KernelCalls.MayGrant(old(Value()), src, handle, target)
      ensures slot.Some? ==>
                && KernelCalls.OnlyEntry(old(Value()), Value(), target, slot.value)
                && KernelCalls.Narrowed(shards[target].caps[slot.value], old(shards)[src].caps[handle], rights)
    {
      KernelCalls.GrantFacts(Value(), src, handle, target, rights);
      slot := None;
      if target >= MAX_SHARDS || handle >= MAX_CAPS || !Live(shards[target].state) { return; }
      var cap := shards[src].caps[handle];
      if cap.Empty? || (cap.kind == CAP_CHANNEL && cap.rights & RIGHT_GRANT == 0) { return; }
      slot := GrantToShard(target, cap.(rights := Meet(cap.rights, rights)));
    }

    /** `clear_shard`. */
    method ClearShard(id: nat)
      requires Shaped() && id < MAX_SHARDS
      modifies this`shards
      ensures Shaped() && Value() == SetCaps(old(Value()), id, EmptyCaps())
    {
      for i := 0 to MAX_CAPS
        invariant Shaped()
        invariant shards == old(shards)[id := old(shards)[id].(caps := shards[id].caps)]
        invariant forall j :: 0 <= j < i ==> shards[id].caps[j].Empty?
      {
        shards := shards[id := shards[id].(caps := shards[id].caps[i := Empty])];
      }
      assert shards[id].caps == EmptyCaps();
    }

    // ---------------------------------------------------------------- channels

    method ChannelSend(id: nat, ch: nat, payload: seq<byte>, buf: bool) returns (ok: bool)
      requires Valid() && Serving(id)
      modifies this`channels, this`shards
      ensures Valid()
      ensures ok <==> SendAccepted(old(Value()), id, ch, payload, buf)
      ensures Value() == if ok then Deliver(old(Value()), id, ch, payload) else old(Value())
    {
      ok := Check(id, CAP_CHANNEL, ch % 0x1_0000_0000, RIGHT_SEND);
      if !ok || ch >= MAX_CHANNELS || |payload| == 0 || |payload| > MAX_MSG_SIZE || !buf { return false; }
      var c := channels[ch];
      if !c.active || EndpointOf(c, id).None? { return false; }
      SendKeepsInv(Value(), id, ch, payload);
      var to := 1 - EndpointOf(c, id).value;
      var other := c.ends[to];
      channels := channels[ch := c.Fill(payload, to)];
      if shards[other].state.Blocked? && shards[other].blockedOn == Some(ch) {
        shards := shards[other := shards[other].(state := Ready, blockedOn := None)];
      }
      assert Value() == Deliver(old(Value()), id, ch, payload);
    }

    /** Up to the switch: the bytes if a message waits, nothing if the caller is now blocked. */
    method ChannelRecv(id: nat, ch: nat, maxLen: nat, buf: bool) returns (ok: bool, got: Option<seq<byte>>)
      requires Valid() && Serving(id)
      modifies this`channels, this`shards, this`mode
      ensures Valid()
      ensures ok <==> RecvAccepted(old(Value()), id, ch, maxLen, buf)
      ensures !ok ==> Value() == old(Value()) && got.None?
      ensures ok ==>
                var ep := EndpointOf(old(channels)[ch], id).value;
                if old(channels)[ch].Pending(ep)
                then Value() == TakeMessage(old(Value()), ch) && got == Some(old(channels)[ch].Message(maxLen))
                else Value() == BlockOn(old(Value()), id, ch, ep, maxLen) && got.None?
    {
      got := None;
      ok := Check(id, CAP_CHANNEL, ch % 0x1_0000_0000, RIGHT_RECV);
      if !ok || ch >= MAX_CHANNELS || maxLen == 0 || maxLen > MAX_MSG_SIZE || !buf { return false, None; }
      var c := channels[ch];
      if !c.active || EndpointOf(c, id).None? { return false, None; }
      RecvKeepsInv(Value(), id, ch, maxLen);
      var ep := EndpointOf(c, id).value;
      if c.msgLen > 0 && c.msgFor == ep {
        got := Some(c.Message(maxLen));
        channels := channels[ch := c.Drain()];
      } else {
        shards := shards[id := shards[id].(state := Blocked, blockedOn := Some(ch), cont := InRecv(ch, ep, maxLen))];
        mode := Mode.Supervisor;
      }
    }

    /** After the switch back: a message is always there. It is the latest message sent on the channel, by the
        other endpoint, cut to what the receiver asked for; the branch without one is dead. */
    method ChannelRecvResumed(id: nat) returns (got: Option<seq<byte>>)
      requires Traced() && mode.InShard? && current == Some(id) && shards[id].cont.InRecv?
      modifies this`channels, this`shards, this`run
      ensures Traced() && run == Then(old(run), Resume)
      ensures got.Some? && 0 < |got.value| <= old(shards)[id].cont.maxLen
      ensures var i, ch := |old(run).steps|, old(shards)[id].cont.ch;
              var j := LatestSend(run, i, ch);
              && j.Some? && SendsOn(run, j.value, ch) && (forall k: nat :: j.value < k < i ==> !SendsOn(run, k, ch))
              && var sent := Sent(run.states[j.value], run.steps[j.value]).value;
                 sent.shard != id && got.value == sent.bytes[..Min(|sent.bytes|, old(shards)[id].cont.maxLen)]
    {
      hide Next, Init, LatestSend, IsRunFrom;
      RecvFacts(Value(), id);
      ThenIsRun(run, Resume);
      ResumeFacts(run);
      var InRecv(ch, ep, maxLen) := shards[id].cont;
      shards := shards[id := shards[id].(cont := User)];
      var c := channels[ch];
      if c.msgLen > 0 && c.msgFor == ep {
        got := Some(c.Message(maxLen));
        channels := channels[ch := c.Drain()];
      } else {
        got := None;
      }
      ResumeIsNext(old(Value()), Value(), id);
      run := Then(run, Resume);
    }

    // ---------------------------------------------------------------- dispatch

    /** The body of the dispatcher. */
    method Handle(call: Call)
      requires Valid() && current.Some? && Serving(current.value)
      modifies this`shards, this`channels, this`current, this`mode
      ensures Valid() && Value() == Dispatch(old(Value()), old(current).value, call)
    {
      hide Inv, SendAccepted, RecvAccepted, Deliver, PledgeAllows, Meet, Mask, BlockOn, TakeMessage;
      var id := current.value;
      InvIsWellFormed(Value());
      SyscallKeepsInv(Value(), id, call);
      if !PledgeAllows(shards[id].pledge, Number(call)) { return; }
      match call
      case Send(ch, payload, buf) => var _ := ChannelSend(id, ch, payload, buf);
      case Recv(ch, maxLen, buf) => var _, _ := ChannelRecv(id, ch, maxLen, buf);
      case Grant(handle, target, rights) => var _ := GrantCopy(id, handle, target, rights);
      case Revoke(handle) =>
        if handle < MAX_CAPS && shards[id].caps[handle].Cap? {
          shards := shards[id := shards[id].(caps := shards[id].caps[handle := Empty])];
        } else if handle < MAX_CAPS {
          assert shards[id].caps[handle := Empty] == shards[id].caps;
          assert SetCaps(Value(), id, shards[id].caps) == Value();
        }
      case Restrict(handle, rights) =>
        if handle < MAX_CAPS && shards[id].caps[handle].Cap? {
          var cap := shards[id].caps[handle];
          shards := shards[id := shards[id].(caps := shards[id].caps[handle := cap.(rights := Meet(cap.rights, rights))])];
        }
      case Pledge(mask) => shards := shards[id := shards[id].(pledge := Mask(shards[id].pledge, mask))];
      case Yield => Preempt();
      case Exit => SysExit();
      case Other(_) =>
    }

    /** `syscall_dispatch`: one step of the run. Afterwards the caller still runs, or nobody does. */
    method SyscallDispatch(call: Call)
      requires Traced() && current.Some? && Serving(current.value)
      modifies this
      ensures Traced() && run == Then(old(run), Syscall(call))
      ensures forall i: nat :: i < MAX_SHARDS && shards[i].state.Running? ==> old(current) == current == Some(i)
    {
      ThenIsRun(run, Syscall(call));
      hide Dispatch, Init, IsRunFrom;
      Handle(call);
      run := Then(run, Syscall(call));
    }

    /** `timer_preempt` and `handle_sys_yield`: nobody runs any more, and the caller is ready. */
    method Preempt()
      requires Valid() && current.Some? && Serving(current.value)
      modifies this`shards, this`mode
      ensures Valid() && Value() == GiveUpSlice(old(Value()), old(current).value)
      ensures IsReady(shards, current.value) && forall i: nat :: i < MAX_SHARDS ==> !shards[i].state.Running?
    {
      var id := current.value;
      SwitchKeepsInv(Value(), id);
      if shards[id].state.Running? { shards := shards[id := shards[id].(state := Ready)]; }
      mode := Mode.Supervisor;
    }

    /** `handle_sys_exit`: nobody runs any more, and the caller waits for nothing. */
    method SysExit()
      requires Valid() && current.Some? && Serving(current.value)
      modifies this`shards, this`mode, this`current
      ensures Valid() && Value() == Leave(old(Value()), old(current).value)
      ensures current.None? && shards[old(current).value].state.Exited? && forall i: nat :: i < MAX_SHARDS ==> !shards[i].state.Running?
    {
      SwitchKeepsInv(Value(), current.value);
      shards := shards[current.value := shards[current.value].(state := Exited)];
      current := None;
      mode := Mode.Supervisor;
    }

    /** The timer interrupt and the fault handlers: one step of the run. */
    method Interrupt(fault: bool)
      requires Traced() && current.Some? && Serving(current.value)
      modifies this
      ensures Traced() && run == Then(old(run), if fault then Fault else Timer)
      ensures mode.Supervisor? && forall i: nat :: i < MAX_SHARDS ==> !shards[i].state.Running?
      ensures forall i: nat :: i < MAX_SHARDS && Some(i) != old(current) ==> shards[i] == old(shards)[i]
      ensures channels == old(channels)
    {
      hide Init, IsRunFrom;
      ThenIsRun(run, if fault then Fault else Timer);
      if fault { SysExit(); } else { Preempt(); }
      run := Then(run, if fault then Fault else Timer);
    }

    // ---------------------------------------------------------------- the scheduler loop

    method PickNextReady() returns (pick: Option<nat>)
      requires Shaped()
      modifies this`last
      ensures Shaped()
      ensures pick.Some? ==> IsPick(shards, old(last), pick.value) && last == pick.value
      ensures pick.None? ==> last == old(last) && forall i: nat :: !IsReady(shards, i)
    {
      var priorities := [Critical, High, Normal, Low];
      for p := 0 to 4
        invariant Shaped() && last == old(last)
        invariant forall j: nat :: IsReady(shards, j) ==> p <= shards[j].priority.Level()
      {
        for offset := 1 to MAX_SHARDS + 1
          invariant Shaped() && last == old(last)
          invariant forall j: nat :: IsReady(shards, j) && shards[j].priority == priorities[p]
                      ==> Distance(last, j) >= offset - 1
        {
          var i := (last + offset) % MAX_SHARDS;
          assert Distance(last, i) == offset - 1;
          if shards[i].state.Ready? && shards[i].priority == priorities[p] {
            last := i;
            return Some(i);
          }
          forall j: nat | IsReady(shards, j) && shards[j].priority == priorities[p]
            ensures Distance(last, j) >= offset
          {
            assert Distance(last, j) == offset - 1 ==> j == i;
          }
        }
      }
      return None;
    }

    /** `all_done`. */
    method EverybodyDone() returns (b: bool)
      requires Shaped()
      ensures b <==> AllDone(shards)
    {
      for i := 0 to MAX_SHARDS
        invariant forall j :: 0 <= j < i ==> Done(shards[j].state)
      {
        if !Done(shards[i].state) { return false; }
      }
      return true;
    }

    /** One turn of `run_loop`: one step of the run. It starts a ready shard of the highest ready priority; it
        ends when all shards have finished; and it panics only if every unfinished shard is blocked in a
        receive for which no message is there. */
    method RunLoopTurn() returns (ghost step: Step)
      requires Traced() && mode.Supervisor?
      modifies this
      ensures old(Enabled(Value(), step)) && Traced() && run == Then(old(run), step)
      ensures mode.InShard? ==> current.Some? && IsPick(old(shards), old(last), current.value)
      ensures mode.Finished? ==> forall i: nat :: i < MAX_SHARDS ==> shards[i].state.Free? || shards[i].state.Destroyed?
      ensures mode.Panicked? ==> forall i: nat :: i < MAX_SHARDS ==>
                Done(shards[i].state) || (shards[i].state.Blocked? && NothingFor(Value(), i))
      ensures mode.InShard? || mode.Finished? || mode.Panicked?
    {
      hide Init, IsRunFrom;
      step := Turn();
      ThenIsRun(run, step);
      if mode.Panicked? {
        assert shards == old(shards) && forall i: nat :: !IsReady(shards, i);
        PanicFacts(Value());
      }
      run := Then(run, step);
    }

    method Turn() returns (ghost step: Step)
      requires Shaped() && mode.Supervisor?
      modifies this`shards, this`current, this`last, this`mode
      ensures old(Enabled(Value(), step)) && Value() == Next(old(Value()), step)
      ensures step.Schedule? || step.NothingReady?
    {
      var pick := PickNextReady();
      if pick.Some? {
        step := Schedule(pick.value);
        shards := shards[pick.value := shards[pick.value].(state := Running)];
        current := pick;
        mode := InShard;
        return;
      }
      step := NothingReady;
      var done := EverybodyDone();
      if done {
        DestroyExited();
        mode := Finished;
      } else {
        mode := Panicked;
      }
    }

    method DestroyExited()
      requires Shaped()
      modifies this`shards
      ensures Shaped() && shards == Finish(old(Value())).shards
    {
      for id := 0 to MAX_SHARDS
        invariant Shaped()
        invariant forall i :: 0 <= i < MAX_SHARDS ==>
                    shards[i] == if i < id then Finish(old(Value())).shards[i] else old(shards)[i]
      {
        if shards[id].state.Exited? {
          ClearShard(id);
          shards := shards[id := shards[id].(state := Destroyed)];
        }
      }
    }
  }

  /** Shard `i` is in a receive, and no message for it is pending there. */
  ghost predicate NothingFor(s: State, i: nat)
    requires i < |s.shards|
  {
    var cont := s.shards[i].cont;
    cont.InRecv? && cont.ch < |s.channels| && !s.channels[cont.ch].Pending(cont.ep)
  }

  lemma PanicFacts(s: State)
    requires Inv(s) && !s.mode.InShard? && forall i: nat :: !IsReady(s.shards, i)
    ensures forall i: nat :: i < MAX_SHARDS ==> Done(s.shards[i].state) || (s.shards[i].state.Blocked? && NothingFor(s, i))
  {
    forall i: nat | i < MAX_SHARDS ensures Done(s.shards[i].state) || (s.shards[i].state.Blocked? && NothingFor(s, i)) {
      assert RecvOk(s, i) && !IsReady(s.shards, i);
    }
  }

  lemma RecvFacts(s: State, id: nat)
    requires Inv(s) && id < MAX_SHARDS && s.shards[id].cont.InRecv?
    ensures s.shards[id].cont.ch < MAX_CHANNELS
  {
    assert RecvOk(s, id);
  }

  /** What the run says about a receive that is about to resume. */
  lemma ResumeFacts(r: Run)
    requires IsRun(r) && WellFormed(r.states[|r.steps|]) && Enabled(r.states[|r.steps|], Resume)
    ensures var i := |r.steps|; var s, r' := r.states[i], Then(r, Resume);
            var id := s.current.value;
            var InRecv(ch, ep, maxLen) := s.shards[id].cont;
            && IsRun(r') && ch < MAX_CHANNELS && s.channels[ch].Pending(ep)
            && 0 < |s.channels[ch].Message(maxLen)| <= maxLen
            && var j := LatestSend(r', i, ch);
               && j.Some? && SendsOn(r', j.value, ch) && (forall k: nat :: j.value < k < i ==> !SendsOn(r', k, ch))
               && var sent := Sent(r'.states[j.value], r'.steps[j.value]).value;
                  sent.shard != id && s.channels[ch].Message(maxLen) == sent.bytes[..Min(|sent.bytes|, maxLen)]
  {
    hide Next, Init, LatestSend;
    ThenIsRun(r, Resume);
    var r' := Then(r, Resume);
    var i := |r.steps|;
    assert r'.states[i] == r.states[i] && r'.steps[i] == Resume;
    InvariantHolds(r', i);
    WokenReceiverFindsMessage(r', i);
    ReceivedIsLatestSend(r', i);
    assert RecvOk(r.states[i], r.states[i].current.value);
  }

  lemma ResumeIsNext(s: State, s': State, id: nat)
    requires WellFormed(s) && Enabled(s, Resume) && s.current == Some(id) && s' == FinishRecv(s, id)
    ensures s' == Next(s, Resume)
  {}
}
