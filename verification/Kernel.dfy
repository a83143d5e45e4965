/** The supervisor as a state machine. Interrupts are masked during a system call, so every
    call is one atomic step, except a blocking receive, which is two steps around the switch
    to the scheduler: the continuation of a shard says which half comes next. */
module Kernel {
  import opened Bytes
  import opened Bitmap

  const MAX_SHARDS: nat := 8
  const MAX_CAPS: nat := 16
  const MAX_CHANNELS: nat := 4
  const MAX_MSG_SIZE: nat := 256

  const CAP_CHANNEL: nat := 1
  const CAP_GPU_DMA: nat := 4
  const RIGHT_SEND: bv16 := 1
  const RIGHT_RECV: bv16 := 2
  const RIGHT_GRANT: bv16 := 4

  const UNRESTRICTED: bv64 := 0xFFFF_FFFF_FFFF_FFFF
  const PLEDGE_SERIAL: bv64 := 1
  const PLEDGE_CHANNEL: bv64 := 2
  const PLEDGE_GPU_DMA: bv64 := 4
  const PLEDGE_PERF: bv64 := 8

  function Min(a: nat, b: nat): nat {
    if a <= b then a else b
  }

  datatype RunState = Free | Ready | Running | Blocked | Exited | Destroyed

  datatype Priority = Critical | High | Normal | Low {
    function Level(): nat {
      match this case Critical => 0 case High => 1 case Normal => 2 case Low => 3
    }
  }

  datatype Cap = Empty | Cap(kind: nat, resource: nat, rights: bv16)

  /** Where a shard continues when it next runs: in user code, or inside a receive on channel
      `ch` as endpoint `ep`, just after the scheduler switched back to it. */
  datatype Continuation = User | InRecv(ch: nat, ep: nat, maxLen: nat)

  datatype Shard = Shard(state: RunState, priority: Priority, blockedOn: Option<nat>,
                         caps: seq<Cap>, pledge: bv64, cont: Continuation)

  datatype Channel = Channel(active: bool, ends: seq<nat>, buffer: seq<byte>, msgLen: nat, msgFor: nat) {
    predicate Pending(ep: nat) {
      msgLen > 0 && msgFor == ep
    }

    /** A message replaces whatever the single buffer held, in either direction. */
    function Fill(payload: seq<byte>, to: nat): Channel
      requires |payload| <= |buffer|
    {
      this.(buffer := payload + buffer[|payload|..], msgLen := |payload|, msgFor := to)
    }

    /** The bytes a receiver copies out of a pending message. */
    function Message(maxLen: nat): (m: seq<byte>)
      requires msgLen <= |buffer|
    {
      buffer[..Min(msgLen, maxLen)]
    }

    function Drain(): Channel {
      this.(msgLen := 0)
    }
  }

  /** Who is executing: the scheduler loop, the current shard (or the kernel on its behalf), or
      nobody any more. */
  datatype Mode = Supervisor | InShard | Finished | Panicked

  datatype State = State(shards: seq<Shard>, channels: seq<Channel>, current: Option<nat>, last: nat, mode: Mode)

  ghost predicate ChannelOk(c: Channel) {
    && |c.ends| == 2 && |c.buffer| == MAX_MSG_SIZE && c.msgLen <= MAX_MSG_SIZE && c.msgFor < 2
    && (c.active ==> c.ends[0] < MAX_SHARDS && c.ends[1] < MAX_SHARDS && c.ends[0] != c.ends[1])
  }

  /** Array sizes, index ranges and distinct channel endpoints. */
  ghost predicate WellFormed(s: State) {
    && |s.shards| == MAX_SHARDS && |s.channels| == MAX_CHANNELS && s.last < MAX_SHARDS
    && (forall i :: 0 <= i < MAX_SHARDS ==> |s.shards[i].caps| == MAX_CAPS)
    && (forall c :: 0 <= c < MAX_CHANNELS ==> ChannelOk(s.channels[c]))
    && (s.current.Some? ==> s.current.value < MAX_SHARDS)
    && (s.mode.InShard? ==> s.current.Some?)
  }

  // ------------------------------------------------------------------ capabilities

  function Meet(r: bv16, m: bv16): bv16 {
    r & m
  }

  predicate Grants(c: Cap, kind: nat, resource: nat, rights: bv16) {
    c.Cap? && c.kind == kind && c.resource == resource && c.rights & rights == rights
  }

  /** `capability::check`. */
  predicate Holds(caps: seq<Cap>, kind: nat, resource: nat, rights: bv16) {
    exists i :: 0 <= i < |caps| && Grants(caps[i], kind, resource, rights)
  }

  predicate FirstEmpty(caps: seq<Cap>, slot: nat) {
    slot < |caps| && caps[slot].Empty? && forall j :: 0 <= j < slot ==> caps[j].Cap?
  }

  predicate Live(st: RunState) {
    st.Ready? || st.Running? || st.Blocked?
  }

  /** What `grant_copy` puts into the target's table, when it grants at all. */
  function Granted(s: State, src: nat, handle: nat, target: nat, rights: bv16): (c: Option<Cap>)
    requires WellFormed(s) && src < MAX_SHARDS
  {
    if target >= MAX_SHARDS || handle >= MAX_CAPS then None
    else if !Live(s.shards[target].state) then None
    else
      var cap := s.shards[src].caps[handle];
      if cap.Empty? then None
      else if cap.kind == CAP_CHANNEL && cap.rights & RIGHT_GRANT == 0 then None
      else Some(cap.(rights := Meet(cap.rights, rights)))
  }

  // ------------------------------------------------------------------ system calls

  /** A system call with its arguments. `buf` says whether the user buffer passed validation;
      channel ids are full 64-bit values. `Other` stands for the calls that leave this state
      alone: console, files, mmap, unveil, DMA, the cycle counter and unknown numbers. */
  datatype Call =
    | Send(ch: nat, payload: seq<byte>, buf: bool)
    | Recv(ch: nat, maxLen: nat, buf: bool)
    | Grant(handle: nat, target: nat, rights: bv16)
    | Revoke(handle: nat)
    | Restrict(handle: nat, rights: bv16)
    | Pledge(mask: bv64)
    | Yield
    | Exit
    | Other(nr: nat)

  function Number(c: Call): nat {
    match c
    case Send(_, _, _) => 21
    case Recv(_, _, _) => 22
    case Grant(_, _, _) => 11
    case Revoke(_) => 12
    case Restrict(_, _) => 13
    case Pledge(_) => 41
    case Yield => 62
    case Exit => 0
    case Other(nr) => nr
  }

  function Mask(p: bv64, m: bv64): bv64 {
    p & m
  }

  predicate PledgeAllows(pledge: bv64, nr: nat) {
    if pledge == UNRESTRICTED then true
    else if nr in {0, 62, 41, 42, 43} then true
    else if nr == 1 then pledge & PLEDGE_SERIAL != 0
    else if nr == 21 || nr == 22 then pledge & PLEDGE_CHANNEL != 0
    else if nr == 40 then pledge & PLEDGE_GPU_DMA != 0
    else if nr == 71 then pledge & PLEDGE_PERF != 0
    else false
  }

  function EndpointOf(c: Channel, shard: nat): (ep: Option<nat>)
    requires |c.ends| == 2
    ensures ep.Some? ==> ep.value < 2 && c.ends[ep.value] == shard
    ensures ep.None? ==> shard !in c.ends
  {
    if c.ends[0] == shard then Some(0) else if c.ends[1] == shard then Some(1) else None
  }

  /** The checks of `handle_channel_send` and `send`, all of which fail without effect. */
  predicate SendAccepted(s: State, id: nat, ch: nat, payload: seq<byte>, buf: bool)
    requires WellFormed(s) && id < MAX_SHARDS
  {
    && Holds(s.shards[id].caps, CAP_CHANNEL, ch % 0x1_0000_0000, RIGHT_SEND)
    && ch < MAX_CHANNELS && 0 < |payload| <= MAX_MSG_SIZE && buf
    && s.channels[ch].active && EndpointOf(s.channels[ch], id).Some?
  }

  /** `send`: fill the buffer, address it to the other endpoint, wake it if it waits here. */
  function Deliver(s: State, id: nat, ch: nat, payload: seq<byte>): (s': State)
    requires WellFormed(s) && id < MAX_SHARDS && ch < MAX_CHANNELS
    requires s.channels[ch].active && EndpointOf(s.channels[ch], id).Some?
    requires 0 < |payload| <= MAX_MSG_SIZE
  {
    var c := s.channels[ch];
    var to := 1 - EndpointOf(c, id).value;
    var other := s.shards[c.ends[to]];
    var woken := if other.state.Blocked? && other.blockedOn == Some(ch)
                 then other.(state := Ready, blockedOn := None) else other;
    s.(channels := s.channels[ch := c.Fill(payload, to)], shards := s.shards[c.ends[to] := woken])
  }

  predicate RecvAccepted(s: State, id: nat, ch: nat, maxLen: nat, buf: bool)
    requires WellFormed(s) && id < MAX_SHARDS
  {
    && Holds(s.shards[id].caps, CAP_CHANNEL, ch % 0x1_0000_0000, RIGHT_RECV)
    && ch < MAX_CHANNELS && 0 < maxLen <= MAX_MSG_SIZE && buf
    && s.channels[ch].active && EndpointOf(s.channels[ch], id).Some?
  }

  function TakeMessage(s: State, ch: nat): (s': State)
    requires ch < |s.channels|
  {
    s.(channels := s.channels[ch := s.channels[ch].Drain()])
  }

  /** The first half of a receive that finds nothing: block and switch to the scheduler. */
  function BlockOn(s: State, id: nat, ch: nat, ep: nat, maxLen: nat): (s': State)
    requires id < |s.shards|
  {
    s.(shards := s.shards[id := s.shards[id].(state := Blocked, blockedOn := Some(ch), cont := InRecv(ch, ep, maxLen))],
       mode := Supervisor)
  }

  function SetCaps(s: State, id: nat, caps: seq<Cap>): State
    requires id < |s.shards|
  {
    s.(shards := s.shards[id := s.shards[id].(caps := caps)])
  }

  /** `timer_preempt` and `handle_sys_yield`: back to the scheduler, still runnable. */
  function GiveUpSlice(s: State, id: nat): State
    requires id < |s.shards|
  {
    var sh := s.shards[id];
    s.(shards := s.shards[id := if sh.state.Running? then sh.(state := Ready) else sh], mode := Supervisor)
  }

  /** `handle_sys_exit`, also the end of a shard killed by a fault. */
  function Leave(s: State, id: nat): State
    requires id < |s.shards|
  {
    s.(shards := s.shards[id := s.shards[id].(state := Exited)], current := None, mode := Supervisor)
  }

  function EmptyCaps(): seq<Cap> {
    seq(MAX_CAPS, _ => Empty)
  }

  ghost function Dispatch(s: State, id: nat, call: Call): (s': State)
    requires WellFormed(s) && id < MAX_SHARDS
  {
    var sh := s.shards[id];
    if !PledgeAllows(sh.pledge, Number(call)) then s else
    match call
    case Send(ch, payload, buf) =>
      if SendAccepted(s, id, ch, payload, buf) then Deliver(s, id, ch, payload) else s
    case Recv(ch, maxLen, buf) =>
      if !RecvAccepted(s, id, ch, maxLen, buf) then s else
        var ep := EndpointOf(s.channels[ch], id).value;
        if s.channels[ch].Pending(ep) then TakeMessage(s, ch) else BlockOn(s, id, ch, ep, maxLen)
    case Grant(handle, target, rights) =>
      var cap := Granted(s, id, handle, target, rights);
      if cap.None? || !exists slot: nat :: FirstEmpty(s.shards[target].caps, slot) then s else
        var slot: nat :| FirstEmpty(s.shards[target].caps, slot);
        SetCaps(s, target, s.shards[target].caps[slot := cap.value])
    case Revoke(handle) =>
      if handle >= MAX_CAPS then s else SetCaps(s, id, sh.caps[handle := Empty])
    case Restrict(handle, rights) =>
      if handle >= MAX_CAPS || sh.caps[handle].Empty? then s
      else SetCaps(s, id, sh.caps[handle := sh.caps[handle].(rights := Meet(sh.caps[handle].rights, rights))])
    case Pledge(mask) => s.(shards := s.shards[id := sh.(pledge := Mask(sh.pledge, mask))])
    case Yield => GiveUpSlice(s, id)
    case Exit => Leave(s, id)
    case Other(_) => s
  }

  // ------------------------------------------------------------------ scheduling

  /** How many slots lie between `last` and `j` in the cyclic scan. */
  function Distance(last: nat, j: nat): (d: nat)
    requires last < MAX_SHARDS && j < MAX_SHARDS
    ensures d < MAX_SHARDS
  {
    (j + 7 - last) % 8
  }

  predicate IsReady(shards: seq<Shard>, i: nat) {
    i < |shards| && shards[i].state.Ready?
  }

  /** The choice of `pick_next_ready`: a ready shard of the highest priority that has one, and
      of those the first after `last` in cyclic order. */
  ghost predicate IsPick(shards: seq<Shard>, last: nat, i: nat)
    requires |shards| == MAX_SHARDS && last < MAX_SHARDS
  {
    && IsReady(shards, i)
    && (forall j: nat :: IsReady(shards, j) ==> shards[i].priority.Level() <= shards[j].priority.Level())
    && (forall j: nat :: IsReady(shards, j) && shards[j].priority == shards[i].priority
          ==> Distance(last, i) <= Distance(last, j))
  }

  predicate Done(st: RunState) {
    st.Free? || st.Exited? || st.Destroyed?
  }

  predicate AllDone(shards: seq<Shard>) {
    forall i :: 0 <= i < |shards| ==> Done(shards[i].state)
  }

  function Start(s: State, id: nat): State
    requires id < |s.shards|
  {
    s.(shards := s.shards[id := s.shards[id].(state := Running)], current := Some(id), last := id, mode := InShard)
  }

  /** The end of `run_loop`: destroy every exited shard. */
  function Finish(s: State): State {
    s.(shards := seq(|s.shards|, i requires 0 <= i < |s.shards| =>
         if s.shards[i].state.Exited? then s.shards[i].(state := Destroyed, caps := EmptyCaps()) else s.shards[i]),
       mode := Finished)
  }

  datatype Step = Schedule(id: nat) | NothingReady | Syscall(call: Call) | Timer | Fault | Resume

  ghost predicate Enabled(s: State, step: Step)
    requires WellFormed(s)
  {
    match step
    case Schedule(id) => s.mode.Supervisor? && IsPick(s.shards, s.last, id)
    case NothingReady => s.mode.Supervisor? && forall i: nat :: !IsReady(s.shards, i)
    case Syscall(_) => s.mode.InShard? && s.shards[s.current.value].cont.User?
    case Timer => s.mode.InShard? && s.shards[s.current.value].cont.User?
    case Fault => s.mode.InShard? && s.shards[s.current.value].cont.User?
    case Resume => s.mode.InShard? && s.shards[s.current.value].cont.InRecv?
  }

  ghost function Next(s: State, step: Step): (s': State)
    requires WellFormed(s) && Enabled(s, step)
  {
    match step
    case Schedule(id) => Start(s, id)
    case NothingReady => if AllDone(s.shards) then Finish(s) else s.(mode := Panicked)
    case Syscall(call) => Dispatch(s, s.current.value, call)
    case Timer => GiveUpSlice(s, s.current.value)
    case Fault => Leave(s, s.current.value)
    case Resume => FinishRecv(s, s.current.value)
  }

  /** The second half of a blocked receive. */
  function FinishRecv(s: State, id: nat): (s': State)
    requires id < |s.shards| && s.shards[id].cont.InRecv?
  {
    var InRecv(ch, ep, _) := s.shards[id].cont;
    var s1 := s.(shards := s.shards[id := s.shards[id].(cont := User)]);
    if ch < |s.channels| && s.channels[ch].Pending(ep) then TakeMessage(s1, ch) else s1
  }

  // ------------------------------------------------------------------ the invariant

  /** A shard in the middle of a receive is blocked exactly while nothing is there for it. */
  ghost predicate RecvOk(s: State, i: nat)
    requires WellFormed(s) && i < MAX_SHARDS
  {
    var sh := s.shards[i];
    && (sh.state.Blocked? ==> sh.cont.InRecv? && sh.blockedOn == Some(sh.cont.ch))
    && (sh.cont.InRecv? ==>
          && Live(sh.state) && sh.cont.ch < MAX_CHANNELS && sh.cont.ep < 2 && 0 < sh.cont.maxLen <= MAX_MSG_SIZE
          && s.channels[sh.cont.ch].active && s.channels[sh.cont.ch].ends[sh.cont.ep] == i
          && (sh.state.Blocked? <==> !s.channels[sh.cont.ch].Pending(sh.cont.ep)))
  }

  ghost predicate Inv(s: State) {
    && WellFormed(s)
    && (forall i: nat :: i < MAX_SHARDS ==>
          (s.shards[i].state.Running? <==> s.mode.InShard? && s.current == Some(i)))
    && (forall i: nat :: i < MAX_SHARDS ==> RecvOk(s, i))
  }

  /** A state in which `run_loop` may be entered. */
  ghost predicate Init(s: State) {
    && WellFormed(s) && s.mode.Supervisor?
    && (forall i: nat :: i < MAX_SHARDS ==>
          && (s.shards[i].state.Ready? || s.shards[i].state.Free?)
          && s.shards[i].cont.User? && s.shards[i].blockedOn.None?)
    && (forall c: nat :: c < MAX_CHANNELS ==> s.channels[c].msgLen == 0)
  }

  lemma SendKeepsInv(s: State, id: nat, ch: nat, payload: seq<byte>)
    requires Inv(s) && s.mode.InShard? && s.current == Some(id) && s.shards[id].cont.User?
    requires ch < MAX_CHANNELS && s.channels[ch].active && EndpointOf(s.channels[ch], id).Some?
    requires 0 < |payload| <= MAX_MSG_SIZE
    ensures Inv(Deliver(s, id, ch, payload))
  {
    var s' := Deliver(s, id, ch, payload);
    forall i: nat | i < MAX_SHARDS ensures RecvOk(s', i) { assert RecvOk(s, i); }
  }

  lemma RecvKeepsInv(s: State, id: nat, ch: nat, maxLen: nat)
    requires Inv(s) && s.mode.InShard? && s.current == Some(id) && s.shards[id].cont.User?
    requires ch < MAX_CHANNELS && s.channels[ch].active && EndpointOf(s.channels[ch], id).Some?
    requires 0 < maxLen <= MAX_MSG_SIZE
    ensures var ep := EndpointOf(s.channels[ch], id).value;
            if s.channels[ch].Pending(ep) then Inv(TakeMessage(s, ch)) else Inv(BlockOn(s, id, ch, ep, maxLen))
  {
    var ep := EndpointOf(s.channels[ch], id).value;
    var s' := if s.channels[ch].Pending(ep) then TakeMessage(s, ch) else BlockOn(s, id, ch, ep, maxLen);
    forall i: nat | i < MAX_SHARDS ensures RecvOk(s', i) { assert RecvOk(s, i); }
  }

  lemma ResumeKeepsInv(s: State, id: nat)
    requires Inv(s) && s.mode.InShard? && s.current == Some(id) && s.shards[id].cont.InRecv?
    ensures Inv(FinishRecv(s, id))
  {
    var s' := FinishRecv(s, id);
    assert RecvOk(s, id);
    forall i: nat | i < MAX_SHARDS ensures RecvOk(s', i) { assert RecvOk(s, i); }
  }

  /** A step that leaves the channels, the control state and every shard's scheduling fields
      alone keeps the invariant: this covers capabilities and pledges. */
  lemma TableStepKeepsInv(s: State, s': State)
    requires Inv(s) && WellFormed(s')
    requires s'.channels == s.channels && s'.current == s.current && s'.mode == s.mode
    requires forall i: nat :: i < MAX_SHARDS ==>
               s'.shards[i] == s.shards[i].(caps := s'.shards[i].caps, pledge := s'.shards[i].pledge)
    ensures Inv(s')
  {
    forall i: nat | i < MAX_SHARDS ensures RecvOk(s', i) { assert RecvOk(s, i); }
  }

  lemma SyscallKeepsInv(s: State, id: nat, call: Call)
    requires Inv(s) && s.mode.InShard? && s.current == Some(id) && s.shards[id].cont.User?
    ensures Inv(Dispatch(s, id, call))
  {
    var s' := Dispatch(s, id, call);
    if s' != s {
      match call
      case Send(ch, payload, buf) => SendKeepsInv(s, id, ch, payload);
      case Recv(ch, maxLen, buf) => RecvKeepsInv(s, id, ch, maxLen);
      case Grant(_, _, _) => TableStepKeepsInv(s, s');
      case Revoke(_) => TableStepKeepsInv(s, s');
      case Restrict(_, _) => TableStepKeepsInv(s, s');
      case Pledge(_) => TableStepKeepsInv(s, s');
      case Yield => SwitchKeepsInv(s, id);
      case Exit => SwitchKeepsInv(s, id);
      case Other(_) =>
    }
  }

  lemma SwitchKeepsInv(s: State, id: nat)
    requires Inv(s) && s.mode.InShard? && s.current == Some(id) && s.shards[id].cont.User?
    ensures Inv(GiveUpSlice(s, id)) && Inv(Leave(s, id))
  {
    var s1, s2 := GiveUpSlice(s, id), Leave(s, id);
    forall i: nat | i < MAX_SHARDS ensures RecvOk(s1, i) && RecvOk(s2, i) { assert RecvOk(s, i); }
  }

  lemma SchedulerKeepsInv(s: State, step: Step)
    requires Inv(s) && Enabled(s, step) && (step.Schedule? || step.NothingReady?)
    ensures Inv(Next(s, step))
  {
    var s' := Next(s, step);
    forall i: nat | i < MAX_SHARDS ensures RecvOk(s', i) { assert RecvOk(s, i); }
  }

  /** Every step keeps the invariant. */
  lemma StepKeepsInv(s: State, step: Step)
    requires Inv(s) && Enabled(s, step)
    ensures Inv(Next(s, step))
  {
    match step
    case Schedule(_) => SchedulerKeepsInv(s, step);
    case NothingReady => SchedulerKeepsInv(s, step);
    case Syscall(call) => SyscallKeepsInv(s, s.current.value, call);
    case Timer => SwitchKeepsInv(s, s.current.value);
    case Fault => SwitchKeepsInv(s, s.current.value);
    case Resume => ResumeKeepsInv(s, s.current.value);
  }
}
