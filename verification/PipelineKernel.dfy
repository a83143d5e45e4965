/** The pipeline inside the kernel: every run of the kernel from boot, with all other shards doing what they
    like, whose two stage shards follow their programs, is a run of the pipeline as far as the stages and
    their channel are concerned. */
module PipelineKernel {
  import opened Bytes
  import opened Bitmap
  import opened Kernel
  import opened KernelRuns
  import KernelBoot
  import opened Transformer
  import opened Inference
  import P = Pipeline

  const CH: nat := 1
  const STAGE_CAP := Cap(CAP_CHANNEL, 1, RIGHT_SEND | RIGHT_RECV)

  /** The shard of endpoint `e` of the pipeline's channel. */
  function At(gpu: bool, e: nat): nat {
    (if gpu then 5 else 3) + e
  }

  // ------------------------------------------------------------------ one stage in the kernel

  ghost predicate Wired(k: State, gpu: bool) {
    |k.channels| == MAX_CHANNELS && k.channels[CH].active && k.channels[CH].ends == [At(gpu, 0), At(gpu, 1)]
  }

  /** The shard of stage `e`, whose program stands at `pc` and receives up to `max` bytes at a time. */
  ghost predicate StageOk(k: State, gpu: bool, e: nat, pc: P.Pc, max: nat)
    requires WellFormed(k) && e < 2
  {
    var sh := k.shards[At(gpu, e)];
    && !pc.Waiting? && !pc.Woken? && !sh.state.Free?
    && (Live(sh.state) ==> sh.caps[0] == STAGE_CAP && sh.pledge == UNRESTRICTED)
    && (sh.cont.InRecv? ==> sh.cont == InRecv(CH, e, max) && pc.Receiving?)
    && (!pc.Done? ==> Live(sh.state))
  }

  /** Where a stage stands, the kernel included. */
  function View(sh: Shard, pc: P.Pc): P.Pc {
    if sh.cont.InRecv? then (if sh.state.Blocked? then P.Waiting else P.Woken) else pc
  }

  /** Neither the state nor the rights of a stage shard have changed in a way that matters to it. */
  ghost predicate Undisturbed(sh: Shard, sh': Shard) {
    && sh'.cont == sh.cont && (sh'.state.Blocked? <==> sh.state.Blocked?) && (Live(sh'.state) <==> Live(sh.state))
    && (sh'.state.Free? <==> sh.state.Free?) && sh'.pledge == sh.pledge
    && (Live(sh.state) && |sh.caps| == MAX_CAPS && sh.caps[0] == STAGE_CAP ==> |sh'.caps| == MAX_CAPS && sh'.caps[0] == STAGE_CAP)
  }

  lemma UndisturbedIsOk(k: State, k': State, gpu: bool, e: nat, pc: P.Pc, max: nat)
    requires WellFormed(k) && WellFormed(k') && e < 2 && StageOk(k, gpu, e, pc, max)
    requires Undisturbed(k.shards[At(gpu, e)], k'.shards[At(gpu, e)])
    ensures StageOk(k', gpu, e, pc, max) && View(k'.shards[At(gpu, e)], pc) == View(k.shards[At(gpu, e)], pc)
  {}

  /** Stage shard `At(gpu, e)` is the one that is running. */
  ghost predicate Acting(k: State, gpu: bool, e: nat) {
    k.mode.InShard? && k.current == Some(At(gpu, e))
  }

  /** Steps of the scheduler and of all other shards do not disturb a stage and leave the channel. */
  lemma OthersDoNotDisturb(k: State, step: Step, gpu: bool, e: nat, pc: P.Pc, max: nat)
    requires Inv(k) && Enabled(k, step) && Wired(k, gpu) && e < 2 && StageOk(k, gpu, e, pc, max)
    requires !Acting(k, gpu, 0) && !Acting(k, gpu, 1)
    ensures WellFormed(Next(k, step)) && Wired(Next(k, step), gpu) && Next(k, step).channels[CH] == k.channels[CH]
    ensures Undisturbed(k.shards[At(gpu, e)], Next(k, step).shards[At(gpu, e)])
  {
    if k.mode.InShard? { OtherShardsDoNotDisturb(k, step, gpu, e, pc, max); } else { SchedulerDoesNotDisturb(k, step, gpu, e); }
  }

  lemma SchedulerDoesNotDisturb(k: State, step: Step, gpu: bool, e: nat)
    requires Inv(k) && Enabled(k, step) && Wired(k, gpu) && e < 2 && !k.mode.InShard? && !k.shards[At(gpu, e)].state.Free?
    ensures WellFormed(Next(k, step)) && Wired(Next(k, step), gpu) && Next(k, step).channels[CH] == k.channels[CH]
    ensures Undisturbed(k.shards[At(gpu, e)], Next(k, step).shards[At(gpu, e)])
  {
    StepKeepsInv(k, step);
    assert RecvOk(k, At(gpu, e));
  }

  lemma OtherShardsDoNotDisturb(k: State, step: Step, gpu: bool, e: nat, pc: P.Pc, max: nat)
    requires Inv(k) && Enabled(k, step) && Wired(k, gpu) && e < 2 && StageOk(k, gpu, e, pc, max) && k.mode.InShard?
    requires !Acting(k, gpu, 0) && !Acting(k, gpu, 1)
    ensures WellFormed(Next(k, step)) && Wired(Next(k, step), gpu) && Next(k, step).channels[CH] == k.channels[CH]
    ensures Undisturbed(k.shards[At(gpu, e)], Next(k, step).shards[At(gpu, e)])
  {
    hide Next;
    StepKeepsInv(k, step);
    assert RecvOk(k, At(gpu, e));
    OutsidersLeaveChannelAlone(k, step, CH, At(gpu, e));
    if k.shards[At(gpu, e)].caps[0].Cap? { FirstCapStays(k, step, At(gpu, e)); }
  }

  /** A shard keeps its first capability while others act. */
  lemma FirstCapStays(k: State, step: Step, id: nat)
    requires WellFormed(k) && Enabled(k, step) && k.mode.InShard? && id < MAX_SHARDS && k.current != Some(id)
    requires k.shards[id].caps[0].Cap?
    ensures |Next(k, step).shards| == MAX_SHARDS && |Next(k, step).shards[id].caps| == MAX_CAPS
    ensures Next(k, step).shards[id].caps[0] == k.shards[id].caps[0]
  {
    hide PledgeAllows, Holds, Meet, Mask;
  }

  /** A stage that only loses its time slice, or makes a call that leaves the kernel's tables, is not
      disturbed, and neither is the other. */
  lemma IdleStepsDoNotDisturb(k: State, step: Step, gpu: bool, e: nat, f: nat)
    requires Inv(k) && Enabled(k, step) && Wired(k, gpu) && e < 2 && f < 2 && Acting(k, gpu, e)
    requires step.Timer? || (step.Syscall? && step.call.Other?)
    ensures WellFormed(Next(k, step)) && Wired(Next(k, step), gpu) && Next(k, step).channels[CH] == k.channels[CH]
    ensures Undisturbed(k.shards[At(gpu, f)], Next(k, step).shards[At(gpu, f)])
  {
    hide PledgeAllows;
    StepKeepsInv(k, step);
  }

  /** A stage whose program is done may leave. */
  lemma LeavingStage(k: State, gpu: bool, e: nat, f: nat, pc: P.Pc, max: nat)
    requires Inv(k) && Enabled(k, Syscall(Exit)) && Wired(k, gpu) && e < 2 && f < 2 && Acting(k, gpu, e)
    requires StageOk(k, gpu, f, pc, max) && (f == e ==> pc.Done?) && PledgeAllows(k.shards[At(gpu, e)].pledge, 0)
    ensures var k' := Next(k, Syscall(Exit));
            && WellFormed(k') && Wired(k', gpu) && k'.channels[CH] == k.channels[CH]
            && StageOk(k', gpu, f, pc, max) && View(k'.shards[At(gpu, f)], pc) == View(k.shards[At(gpu, f)], pc)
  {
    hide PledgeAllows;
    StepKeepsInv(k, Syscall(Exit));
  }

  lemma StageMayCommunicate(k: State, gpu: bool, e: nat)
    requires WellFormed(k) && e < 2 && k.shards[At(gpu, e)].caps[0] == STAGE_CAP
    ensures Holds(k.shards[At(gpu, e)].caps, CAP_CHANNEL, CH, RIGHT_SEND)
    ensures Holds(k.shards[At(gpu, e)].caps, CAP_CHANNEL, CH, RIGHT_RECV)
  {
    assert (1 as bv16 | 2) & 1 == 1 && (1 as bv16 | 2) & 2 == 2;
    assert Grants(k.shards[At(gpu, e)].caps[0], CAP_CHANNEL, CH, RIGHT_SEND);
    assert Grants(k.shards[At(gpu, e)].caps[0], CAP_CHANNEL, CH, RIGHT_RECV);
  }

  /** A send of stage `e` fills the channel for the other stage and wakes it. */
  lemma StageSends(k: State, gpu: bool, e: nat, payload: seq<byte>, pc: P.Pc, max: nat, peer: P.Pc, peerMax: nat)
    requires Inv(k) && Wired(k, gpu) && e < 2 && Acting(k, gpu, e) && k.shards[At(gpu, e)].cont.User?
    requires StageOk(k, gpu, e, pc, max) && StageOk(k, gpu, 1 - e, peer, peerMax) && !pc.Done? && 0 < |payload| <= MAX_MSG_SIZE
    ensures Enabled(k, Syscall(Send(CH, payload, true)))
    ensures var k' := Next(k, Syscall(Send(CH, payload, true)));
            && WellFormed(k') && Wired(k', gpu) && k'.channels[CH] == P.Put(k.channels[CH], payload, 1 - e)
            && k'.shards[At(gpu, e)] == k.shards[At(gpu, e)]
            && StageOk(k', gpu, 1 - e, peer, peerMax)
            && View(k'.shards[At(gpu, 1 - e)], peer) == P.WakeBy(payload, View(k.shards[At(gpu, 1 - e)], peer))
  {
    hide Holds;
    StageMayCommunicate(k, gpu, e);
    StepKeepsInv(k, Syscall(Send(CH, payload, true)));
    assert RecvOk(k, At(gpu, 1 - e));
  }

  /** A receive of stage `e` takes the message that is there for it, or blocks. */
  lemma StageReceives(k: State, gpu: bool, e: nat, max: nat, peer: P.Pc, peerMax: nat)
    requires Inv(k) && Wired(k, gpu) && e < 2 && Acting(k, gpu, e) && k.shards[At(gpu, e)].cont.User?
    requires StageOk(k, gpu, e, P.Receiving, max) && StageOk(k, gpu, 1 - e, peer, peerMax) && 0 < max <= MAX_MSG_SIZE
    ensures Enabled(k, Syscall(Recv(CH, max, true)))
    ensures PledgeAllows(k.shards[At(gpu, e)].pledge, 22) && RecvAccepted(k, At(gpu, e), CH, max, true)
    ensures var k' := Next(k, Syscall(Recv(CH, max, true)));
            && WellFormed(k') && Wired(k', gpu) && k'.shards[At(gpu, 1 - e)] == k.shards[At(gpu, 1 - e)]
            && (if k.channels[CH].Pending(e)
                then k'.channels[CH] == k.channels[CH].Drain() && k'.shards[At(gpu, e)] == k.shards[At(gpu, e)]
                else k'.channels[CH] == k.channels[CH]
                     && StageOk(k', gpu, e, P.Receiving, max) && View(k'.shards[At(gpu, e)], P.Receiving) == P.Waiting)
  {
    hide Holds;
    StageMayCommunicate(k, gpu, e);
    StepKeepsInv(k, Syscall(Recv(CH, max, true)));
  }

  /** A stage that resumes takes the message it was woken for. */
  lemma StageResumes(k: State, gpu: bool, e: nat, pc: P.Pc, max: nat, peer: P.Pc, peerMax: nat)
    requires Inv(k) && Wired(k, gpu) && e < 2 && Acting(k, gpu, e) && Enabled(k, Resume)
    requires StageOk(k, gpu, e, pc, max) && StageOk(k, gpu, 1 - e, peer, peerMax)
    ensures View(k.shards[At(gpu, e)], pc) == P.Woken && k.channels[CH].Pending(e)
    ensures var k' := Next(k, Resume);
            && WellFormed(k') && Wired(k', gpu) && k'.shards[At(gpu, 1 - e)] == k.shards[At(gpu, 1 - e)]
            && k'.channels[CH] == k.channels[CH].Drain()
            && k'.shards[At(gpu, e)] == k.shards[At(gpu, e)].(cont := User)
  {
    StepKeepsInv(k, Resume);
    assert RecvOk(k, At(gpu, e));
  }

  // ------------------------------------------------------------------ the programs

  /** The kernel, and what the two stage programs have in their own memory. */
  datatype Joint<F> = Joint(k: State, zero: P.Stage<F>, one: P.Stage<F>)

  /** A step of the kernel, or a forward pass of the running stage between two system calls. */
  datatype Move = Kernel(step: Step) | Compute

  /** The calls of stage 0, by where its program stands; calls that leave the kernel's tables, such as
      printing, are free. */
  ghost predicate ZeroCalls<F(!new)>(j: P.Job<F>, z: P.Stage<F>, call: Call)
    requires j.Valid()
  {
    match call
    case Other(_) => true
    case Send(ch, payload, buf) => z.pc.Sending? && ch == CH && payload == P.EncodeVec(j.codec, z.x) && buf
    case Recv(ch, maxLen, buf) => z.pc.Receiving? && ch == CH && maxLen == 4 && buf
    case Exit => z.pc.Done?
    case _ => false
  }

  ghost predicate OneCalls<F(!new)>(j: P.Job<F>, o: P.Stage<F>, call: Call)
    requires j.Valid()
  {
    match call
    case Other(_) => true
    case Send(ch, payload, buf) => o.pc.Sending? && o.token < 0x1_0000_0000 && ch == CH && payload == ToLe32(o.token) && buf
    case Recv(ch, maxLen, buf) => o.pc.Receiving? && ch == CH && maxLen == 4 * j.m.cfg.dim && buf
    case Exit => o.pc.Done?
    case _ => false
  }

  /** The running stage is in its own code. */
  ghost predicate InCode(k: State, gpu: bool, e: nat)
    requires WellFormed(k) && e < 2
  {
    Acting(k, gpu, e) && k.shards[At(gpu, e)].cont.User?
  }

  /** All shards but the stages do what they like; the stages follow their programs and do not fault. */
  ghost predicate CanMove<F(!new)>(j: P.Job<F>, gpu: bool, g: Joint<F>, mv: Move)
    requires j.Valid() && WellFormed(g.k)
  {
    match mv
    case Compute =>
      (InCode(g.k, gpu, 0) && g.zero.pc.Work?) || (InCode(g.k, gpu, 1) && g.one.pc.Work?)
    case Kernel(step) =>
      && Enabled(g.k, step)
      && (Acting(g.k, gpu, 0) ==> !step.Fault? && (step.Syscall? ==> ZeroCalls(j, g.zero, step.call)))
      && (Acting(g.k, gpu, 1) ==> !step.Fault? && (step.Syscall? ==> OneCalls(j, g.one, step.call)))
  }

  /** Stage 0's memory after a step of the kernel: what its calls return. */
  ghost function ZeroAfter<F(!new)>(j: P.Job<F>, gpu: bool, k: State, z: P.Stage<F>, step: Step): P.Stage<F>
    requires WellFormed(k) && Enabled(k, step)
  {
    var ch := k.channels[CH];
    var got := if ch.Pending(0) then ch.Message(4) else [];
    if !Acting(k, gpu, 0) then z
    else if step.Resume? then P.TokenArrived(j.n, z, got)
    else if step.Syscall? && step.call.Send? then z.(pc := P.Receiving)
    else if step.Syscall? && step.call.Recv? then
      if !PledgeAllows(k.shards[At(gpu, 0)].pledge, 22) || !RecvAccepted(k, At(gpu, 0), step.call.ch, step.call.maxLen, step.call.buf)
      then P.TokenArrived(j.n, z, [])
      else if ch.Pending(0) then P.TokenArrived(j.n, z, got) else z
    else z
  }

  /** An activation received over the old one. */
  ghost function Received<F(!new)>(j: P.Job<F>, o: P.Stage<F>, msg: seq<byte>): P.Stage<F>
    requires j.Valid() && |msg| <= 4 * |o.x|
  {
    o.(x := P.DecodeVec(j.codec, P.Overlay(P.EncodeVec(j.codec, o.x), msg)), pc := P.Work)
  }

  ghost function OneAfter<F(!new)>(j: P.Job<F>, gpu: bool, k: State, o: P.Stage<F>, step: Step): P.Stage<F>
    requires j.Valid() && WellFormed(k) && Enabled(k, step) && |o.x| == j.m.cfg.dim
  {
    var ch := k.channels[CH];
    if !Acting(k, gpu, 1) then o
    else if step.Resume? then
      if ch.Pending(1) then Received(j, o, ch.Message(4 * j.m.cfg.dim)) else o.(pc := P.Work)
    else if step.Syscall? && step.call.Send? then
      o.(out := o.out + [o.token], pos := o.pos + 1, pc := P.LoopPc(j.n, o.pos + 1, P.Receiving))
    else if step.Syscall? && step.call.Recv? then
      if !PledgeAllows(k.shards[At(gpu, 1)].pledge, 22) || !RecvAccepted(k, At(gpu, 1), step.call.ch, step.call.maxLen, step.call.buf)
      then o.(pc := P.Work)
      else if ch.Pending(1) then Received(j, o, ch.Message(4 * j.m.cfg.dim)) else o
    else o
  }

  ghost function Moved<F(!new)>(j: P.Job<F>, gpu: bool, g: Joint<F>, mv: Move): Joint<F>
    requires j.Valid() && WellFormed(g.k) && CanMove(j, gpu, g, mv) && P.Shaped(j, Project(gpu, g))
  {
    match mv
    case Kernel(step) => Joint(Next(g.k, step), ZeroAfter(j, gpu, g.k, g.zero, step), OneAfter(j, gpu, g.k, g.one, step))
    case Compute =>
      if Acting(g.k, gpu, 0) then
        var z := g.zero;
        var x := Embed(j.m, z.token);
        g.(zero := z.(x := Activation(j.m, z.pos, x, 0, z.caches), caches := NewCaches(j.m, z.pos, x, 0, z.caches), pc := P.Sending))
      else
        var o := g.one;
        var x := Activation(j.m, o.pos, o.x, j.k, o.caches);
        g.(one := o.(x := RmsNorm(j.m.ops, x, j.m.w.rmsFinal), token := Classify(j.m, x),
                     caches := NewCaches(j.m, o.pos, o.x, j.k, o.caches), pc := P.Sending))
  }

  // ------------------------------------------------------------------ the projection

  /** The pipeline as the kernel sees it. */
  function Project<F>(gpu: bool, g: Joint<F>): P.Net<F>
    requires |g.k.shards| == MAX_SHARDS && |g.k.channels| == MAX_CHANNELS
  {
    P.Net(g.zero.(pc := View(g.k.shards[At(gpu, 0)], g.zero.pc)), g.one.(pc := View(g.k.shards[At(gpu, 1)], g.one.pc)),
          g.k.channels[CH])
  }

  /** The kernel's side of the invariant. */
  ghost predicate Fine<F(!new)>(j: P.Job<F>, gpu: bool, g: Joint<F>)
    requires j.Valid()
  {
    && Inv(g.k) && Wired(g.k, gpu)
    && StageOk(g.k, gpu, 0, g.zero.pc, 4) && StageOk(g.k, gpu, 1, g.one.pc, 4 * j.m.cfg.dim)
  }

  ghost predicate JointInv<F(!new)>(j: P.Job<F>, gpu: bool, g: Joint<F>)
    requires j.Valid()
  {
    Fine(j, gpu, g) && P.Inv(j, Project(gpu, g))
  }

  /** A move of the joint system is a move of the pipeline or none. */
  ghost predicate Simulated<F(!new)>(j: P.Job<F>, gpu: bool, g: Joint<F>, g': Joint<F>)
    requires j.Valid() && Fine(j, gpu, g) && Fine(j, gpu, g')
  {
    || Project(gpu, g') == Project(gpu, g)
    || P.Moves(j, Project(gpu, g), true, Project(gpu, g')) || P.Moves(j, Project(gpu, g), false, Project(gpu, g'))
  }

  lemma OthersStutter<F(!new)>(j: P.Job<F>, gpu: bool, g: Joint<F>, step: Step)
    requires j.Valid() && Fine(j, gpu, g) && P.Shaped(j, Project(gpu, g)) && CanMove(j, gpu, g, Kernel(step))
    requires !Acting(g.k, gpu, 0) && !Acting(g.k, gpu, 1)
    ensures Fine(j, gpu, Moved(j, gpu, g, Kernel(step))) && Project(gpu, Moved(j, gpu, g, Kernel(step))) == Project(gpu, g)
  {
    hide Inv, Next, Wired, StageOk, Undisturbed, P.Shaped, P.IsCodec, Model.Valid;
    InvIsWellFormed(g.k);
    StepKeepsInv(g.k, step);
    OthersDoNotDisturb(g.k, step, gpu, 0, g.zero.pc, 4);
    OthersDoNotDisturb(g.k, step, gpu, 1, g.one.pc, 4 * j.m.cfg.dim);
    UndisturbedIsOk(g.k, Next(g.k, step), gpu, 0, g.zero.pc, 4);
    UndisturbedIsOk(g.k, Next(g.k, step), gpu, 1, g.one.pc, 4 * j.m.cfg.dim);
  }

  lemma IdleStutters<F(!new)>(j: P.Job<F>, gpu: bool, g: Joint<F>, step: Step, e: nat)
    requires j.Valid() && Fine(j, gpu, g) && P.Shaped(j, Project(gpu, g)) && CanMove(j, gpu, g, Kernel(step)) && e < 2
    requires Acting(g.k, gpu, e) && (step.Timer? || (step.Syscall? && step.call.Other?))
    ensures Fine(j, gpu, Moved(j, gpu, g, Kernel(step))) && Project(gpu, Moved(j, gpu, g, Kernel(step))) == Project(gpu, g)
  {
    hide Inv, Next, Wired, StageOk, Undisturbed, P.Shaped, P.IsCodec, Model.Valid;
    InvIsWellFormed(g.k);
    StepKeepsInv(g.k, step);
    IdleStepsDoNotDisturb(g.k, step, gpu, e, 0);
    IdleStepsDoNotDisturb(g.k, step, gpu, e, 1);
    UndisturbedIsOk(g.k, Next(g.k, step), gpu, 0, g.zero.pc, 4);
    UndisturbedIsOk(g.k, Next(g.k, step), gpu, 1, g.one.pc, 4 * j.m.cfg.dim);
  }

  lemma ExitStutters<F(!new)>(j: P.Job<F>, gpu: bool, g: Joint<F>, e: nat)
    requires j.Valid() && Fine(j, gpu, g) && P.Shaped(j, Project(gpu, g)) && CanMove(j, gpu, g, Kernel(Syscall(Exit))) && e < 2
    requires Acting(g.k, gpu, e)
    ensures var g' := Moved(j, gpu, g, Kernel(Syscall(Exit))); Fine(j, gpu, g') && Project(gpu, g') == Project(gpu, g)
  {
    hide Inv, Next, Wired, StageOk, P.Shaped, P.IsCodec, Model.Valid;
    InvIsWellFormed(g.k);
    StepKeepsInv(g.k, Syscall(Exit));
    LeavingStage(g.k, gpu, e, 0, g.zero.pc, 4);
    LeavingStage(g.k, gpu, e, 1, g.one.pc, 4 * j.m.cfg.dim);
  }

  lemma ComputeIsAMove<F(!new)>(j: P.Job<F>, gpu: bool, g: Joint<F>, e: nat)
    requires j.Valid() && Fine(j, gpu, g) && P.Shaped(j, Project(gpu, g)) && CanMove(j, gpu, g, Compute) && e < 2 && Acting(g.k, gpu, e)
    ensures var g' := Moved(j, gpu, g, Compute); Fine(j, gpu, g') && P.Moves(j, Project(gpu, g), e == 0, Project(gpu, g'))
  {
    hide Inv, Wired, Activation, NewCaches, Classify, Embed, P.IsCodec, Model.Valid, P.Shaped;
    InvIsWellFormed(g.k);
    RunningIsLive(g.k, gpu, e);
  }

  lemma RunningIsLive(k: State, gpu: bool, e: nat)
    requires Inv(k) && e < 2 && Acting(k, gpu, e)
    ensures k.shards[At(gpu, e)].state.Running?
  {}

  lemma SizesOf<F(!new)>(j: P.Job<F>, gpu: bool, g: Joint<F>)
    requires j.Valid() && WellFormed(g.k) && P.Shaped(j, Project(gpu, g))
    ensures |g.zero.x| == |g.one.x| == j.m.cfg.dim && 0 < j.m.cfg.dim && g.one.token < 0x1_0000_0000
  {}

  lemma ZeroSends<F(!new)>(j: P.Job<F>, gpu: bool, g: Joint<F>, call: Call)
    requires j.Valid() && Fine(j, gpu, g) && P.Shaped(j, Project(gpu, g)) && CanMove(j, gpu, g, Kernel(Syscall(call)))
    requires Acting(g.k, gpu, 0) && call.Send?
    ensures var g' := Moved(j, gpu, g, Kernel(Syscall(call)));
            Fine(j, gpu, g') && P.Moves(j, Project(gpu, g), true, Project(gpu, g'))
  {
    hide Inv, Next, Wired, StageOk, P.Shaped, P.IsCodec, Model.Valid, P.EncodeVec, P.Put, Activation, NewCaches;
    InvIsWellFormed(g.k);
    SizesOf(j, gpu, g);
    RunningIsLive(g.k, gpu, 0);
    StepKeepsInv(g.k, Syscall(call));
    StageSends(g.k, gpu, 0, call.payload, g.zero.pc, 4, g.one.pc, 4 * j.m.cfg.dim);
    SenderIsOk(g.k, Next(g.k, Syscall(call)), gpu, 0, g.zero.pc, P.Receiving, 4);
  }

  lemma OneSends<F(!new)>(j: P.Job<F>, gpu: bool, g: Joint<F>, call: Call)
    requires j.Valid() && Fine(j, gpu, g) && P.Shaped(j, Project(gpu, g)) && CanMove(j, gpu, g, Kernel(Syscall(call)))
    requires Acting(g.k, gpu, 1) && call.Send?
    ensures var g' := Moved(j, gpu, g, Kernel(Syscall(call)));
            Fine(j, gpu, g') && P.Moves(j, Project(gpu, g), false, Project(gpu, g'))
  {
    hide Inv, Next, Wired, StageOk, P.Shaped, P.IsCodec, Model.Valid, P.EncodeVec, P.Put, Activation, NewCaches;
    InvIsWellFormed(g.k);
    SizesOf(j, gpu, g);
    RunningIsLive(g.k, gpu, 1);
    StepKeepsInv(g.k, Syscall(call));
    StageSends(g.k, gpu, 1, call.payload, g.one.pc, 4 * j.m.cfg.dim, g.zero.pc, 4);
    SenderIsOk(g.k, Next(g.k, Syscall(call)), gpu, 1, g.one.pc, P.LoopPc(j.n, g.one.pos + 1, P.Receiving), 4 * j.m.cfg.dim);
  }

  /** A stage whose shard is unchanged and in its own code may stand anywhere in its program. */
  lemma SenderIsOk(k: State, k': State, gpu: bool, e: nat, pc: P.Pc, pc': P.Pc, max: nat)
    requires WellFormed(k) && WellFormed(k') && e < 2 && StageOk(k, gpu, e, pc, max) && Live(k.shards[At(gpu, e)].state)
    requires k'.shards[At(gpu, e)] == k.shards[At(gpu, e)].(cont := User) && !pc'.Waiting? && !pc'.Woken?
    ensures StageOk(k', gpu, e, pc', max) && View(k'.shards[At(gpu, e)], pc') == pc'
  {}

  lemma SameStage(k: State, k': State, gpu: bool, e: nat, pc: P.Pc, max: nat)
    requires WellFormed(k) && WellFormed(k') && e < 2 && StageOk(k, gpu, e, pc, max)
    requires k'.shards[At(gpu, e)] == k.shards[At(gpu, e)]
    ensures StageOk(k', gpu, e, pc, max)
  {}

  lemma ZeroReceives<F(!new)>(j: P.Job<F>, gpu: bool, g: Joint<F>, call: Call)
    requires j.Valid() && Fine(j, gpu, g) && P.Shaped(j, Project(gpu, g)) && CanMove(j, gpu, g, Kernel(Syscall(call)))
    requires Acting(g.k, gpu, 0) && call.Recv?
    ensures var g' := Moved(j, gpu, g, Kernel(Syscall(call)));
            Fine(j, gpu, g') && P.Moves(j, Project(gpu, g), true, Project(gpu, g'))
  {
    hide Inv, Next, Wired, StageOk, P.Shaped, P.IsCodec, Model.Valid, P.EncodeVec, PledgeAllows, RecvAccepted, Activation, NewCaches;
    InvIsWellFormed(g.k);
    SizesOf(j, gpu, g);
    RunningIsLive(g.k, gpu, 0);
    StepKeepsInv(g.k, Syscall(call));
    StageReceives(g.k, gpu, 0, 4, g.one.pc, 4 * j.m.cfg.dim);
    var k' := Next(g.k, Syscall(call));
    SameStage(g.k, k', gpu, 1, g.one.pc, 4 * j.m.cfg.dim);
    if g.k.channels[CH].Pending(0) {
      SenderIsOk(g.k, k', gpu, 0, g.zero.pc, P.LoopPc(j.n, g.zero.pos + 1, P.Work), 4);
    }
  }

  lemma OneReceives<F(!new)>(j: P.Job<F>, gpu: bool, g: Joint<F>, call: Call)
    requires j.Valid() && Fine(j, gpu, g) && P.Shaped(j, Project(gpu, g)) && CanMove(j, gpu, g, Kernel(Syscall(call)))
    requires Acting(g.k, gpu, 1) && call.Recv?
    ensures var g' := Moved(j, gpu, g, Kernel(Syscall(call)));
            Fine(j, gpu, g') && P.Moves(j, Project(gpu, g), false, Project(gpu, g'))
  {
    hide Inv, Next, Wired, StageOk, P.Shaped, P.IsCodec, Model.Valid, P.EncodeVec, P.DecodeVec, PledgeAllows, RecvAccepted,
      Activation, NewCaches;
    InvIsWellFormed(g.k);
    SizesOf(j, gpu, g);
    RunningIsLive(g.k, gpu, 1);
    StepKeepsInv(g.k, Syscall(call));
    StageReceives(g.k, gpu, 1, 4 * j.m.cfg.dim, g.zero.pc, 4);
    var k' := Next(g.k, Syscall(call));
    SameStage(g.k, k', gpu, 0, g.zero.pc, 4);
    if g.k.channels[CH].Pending(1) { SenderIsOk(g.k, k', gpu, 1, g.one.pc, P.Work, 4 * j.m.cfg.dim); }
  }

  lemma ZeroResumes<F(!new)>(j: P.Job<F>, gpu: bool, g: Joint<F>)
    requires j.Valid() && Fine(j, gpu, g) && P.Shaped(j, Project(gpu, g)) && CanMove(j, gpu, g, Kernel(Resume)) && Acting(g.k, gpu, 0)
    ensures var g' := Moved(j, gpu, g, Kernel(Resume));
            Fine(j, gpu, g') && P.Moves(j, Project(gpu, g), true, Project(gpu, g'))
  {
    hide Inv, Next, Wired, StageOk, P.Shaped, P.IsCodec, Model.Valid, P.EncodeVec, Activation, NewCaches;
    InvIsWellFormed(g.k);
    SizesOf(j, gpu, g);
    RunningIsLive(g.k, gpu, 0);
    StepKeepsInv(g.k, Resume);
    StageResumes(g.k, gpu, 0, g.zero.pc, 4, g.one.pc, 4 * j.m.cfg.dim);
    var k' := Next(g.k, Resume);
    SameStage(g.k, k', gpu, 1, g.one.pc, 4 * j.m.cfg.dim);
    SenderIsOk(g.k, k', gpu, 0, g.zero.pc, P.LoopPc(j.n, g.zero.pos + 1, P.Work), 4);
  }

  lemma OneResumes<F(!new)>(j: P.Job<F>, gpu: bool, g: Joint<F>)
    requires j.Valid() && Fine(j, gpu, g) && P.Shaped(j, Project(gpu, g)) && CanMove(j, gpu, g, Kernel(Resume)) && Acting(g.k, gpu, 1)
    ensures var g' := Moved(j, gpu, g, Kernel(Resume));
            Fine(j, gpu, g') && P.Moves(j, Project(gpu, g), false, Project(gpu, g'))
  {
    hide Inv, Next, Wired, StageOk, P.Shaped, P.IsCodec, Model.Valid, P.EncodeVec, P.DecodeVec, Activation, NewCaches;
    InvIsWellFormed(g.k);
    SizesOf(j, gpu, g);
    RunningIsLive(g.k, gpu, 1);
    StepKeepsInv(g.k, Resume);
    StageResumes(g.k, gpu, 1, g.one.pc, 4 * j.m.cfg.dim, g.zero.pc, 4);
    var k' := Next(g.k, Resume);
    SameStage(g.k, k', gpu, 0, g.zero.pc, 4);
    SenderIsOk(g.k, k', gpu, 1, g.one.pc, P.Work, 4 * j.m.cfg.dim);
  }

  lemma StageStep<F(!new)>(j: P.Job<F>, gpu: bool, g: Joint<F>, step: Step, e: nat)
    requires j.Valid() && Fine(j, gpu, g) && P.Shaped(j, Project(gpu, g)) && CanMove(j, gpu, g, Kernel(step)) && e < 2 && Acting(g.k, gpu, e)
    ensures var g' := Moved(j, gpu, g, Kernel(step)); Fine(j, gpu, g') && Simulated(j, gpu, g, g')
  {
    hide Fine, P.Shaped, Moved, P.Moves, Next, Project, P.IsCodec, Model.Valid;
    match step
    case Timer => IdleStutters(j, gpu, g, step, e);
    case Resume => if e == 0 { ZeroResumes(j, gpu, g); } else { OneResumes(j, gpu, g); }
    case Syscall(call) =>
      match call {
        case Other(_) => IdleStutters(j, gpu, g, step, e);
        case Exit => ExitStutters(j, gpu, g, e);
        case Send(_, _, _) => if e == 0 { ZeroSends(j, gpu, g, call); } else { OneSends(j, gpu, g, call); }
        case Recv(_, _, _) => if e == 0 { ZeroReceives(j, gpu, g, call); } else { OneReceives(j, gpu, g, call); }
        case _ =>
      }
    case _ =>
  }

  /** Every move of the joint system is a move of the pipeline, or none, and keeps the invariant. */
  lemma MoveIsSimulated<F(!new)>(j: P.Job<F>, gpu: bool, g: Joint<F>, mv: Move)
    requires j.Valid() && JointInv(j, gpu, g) && CanMove(j, gpu, g, mv)
    ensures P.Shaped(j, Project(gpu, g))
    ensures var g' := Moved(j, gpu, g, mv); JointInv(j, gpu, g') && Simulated(j, gpu, g, g')
  {
    hide Fine, Moved, P.Inv, P.Moves, P.Shaped, Project, P.IsCodec, Model.Valid;
    JointIsWellFormed(j, gpu, g);
    P.InvIsShaped(j, Project(gpu, g));
    var g' := Moved(j, gpu, g, mv);
    match mv {
      case Compute => ComputeIsAMove(j, gpu, g, if Acting(g.k, gpu, 0) then 0 else 1);
      case Kernel(step) =>
        if Acting(g.k, gpu, 0) { StageStep(j, gpu, g, step, 0); }
        else if Acting(g.k, gpu, 1) { StageStep(j, gpu, g, step, 1); }
        else { OthersStutter(j, gpu, g, step); }
    }
    FineIsWellFormed(j, gpu, g');
    if P.Moves(j, Project(gpu, g), true, Project(gpu, g')) { P.MoveKeepsInv(j, Project(gpu, g), true, Project(gpu, g')); }
    if P.Moves(j, Project(gpu, g), false, Project(gpu, g')) { P.MoveKeepsInv(j, Project(gpu, g), false, Project(gpu, g')); }
  }

  // ------------------------------------------------------------------ whole runs

  /** From boot, with the programs at their first position. */
  ghost predicate Starts<F(!new)>(j: P.Job<F>, gpu: bool, g: Joint<F>)
    requires j.Valid()
  {
    && g.k == KernelBoot.Boot(gpu) && |g.zero.x| == |g.one.x| == j.m.cfg.dim
    && g.zero == P.Stage(P.LoopPc(j.n, 0, P.Work), 0, 0, g.zero.x, EmptyCaches(j.k), [])
    && g.one == P.Stage(P.LoopPc(j.n, 0, P.Receiving), 0, 0, g.one.x, EmptyCaches(j.m.cfg.nLayers - j.k), [])
  }

  ghost predicate Follows<F(!new)>(j: P.Job<F>, gpu: bool, g: Joint<F>, mv: Move, g': Joint<F>)
    requires j.Valid()
  {
    WellFormed(g.k) && CanMove(j, gpu, g, mv) && P.Shaped(j, Project(gpu, g)) && g' == Moved(j, gpu, g, mv)
  }

  ghost predicate IsJointRun<F(!new)>(j: P.Job<F>, gpu: bool, gs: seq<Joint<F>>, moves: seq<Move>)
    requires j.Valid()
  {
    && |gs| == |moves| + 1 && Starts(j, gpu, gs[0])
    && forall i :: 0 <= i < |moves| ==> Follows(j, gpu, gs[i], moves[i], gs[i + 1])
  }

  lemma StartIsFine<F(!new)>(j: P.Job<F>, gpu: bool, g: Joint<F>)
    requires j.Valid() && Starts(j, gpu, g)
    ensures JointInv(j, gpu, g) && P.Init(j, Project(gpu, g))
  {
    hide Caches, Model.Valid, P.IsCodec, Generate, Activation, NewCaches;
    KernelBoot.BootIsInit(gpu);
    InitHasInv(g.k);
    StagesAtBoot(gpu, 0, g.zero.pc, 4);
    StagesAtBoot(gpu, 1, g.one.pc, 4 * j.m.cfg.dim);
    P.InitIsInv(j, Project(gpu, g));
  }

  lemma InitHasInv(k: State)
    requires Init(k)
    ensures Inv(k)
  {
    InvariantHolds(Run([k], []), 0);
  }

  lemma StagesAtBoot(gpu: bool, e: nat, pc: P.Pc, max: nat)
    requires e < 2 && !pc.Waiting? && !pc.Woken? && WellFormed(KernelBoot.Boot(gpu))
    ensures var k := KernelBoot.Boot(gpu);
            && Wired(k, gpu) && StageOk(k, gpu, e, pc, max) && View(k.shards[At(gpu, e)], pc) == pc
            && |k.channels[CH].buffer| == MAX_MSG_SIZE && k.channels[CH].msgLen == 0
  {
    KernelBoot.BootTable(gpu, At(gpu, e));
  }

  /** Every joint run is a run of the pipeline with moves of the rest of the machine in between. */
  lemma {:induction false} KernelRunIsPipelineRun<F(!new)>(j: P.Job<F>, gpu: bool, gs: seq<Joint<F>>, moves: seq<Move>, i: nat)
    returns (states: seq<P.Net<F>>, who: seq<bool>)
    requires j.Valid() && IsJointRun(j, gpu, gs, moves) && i < |gs|
    ensures JointInv(j, gpu, gs[i]) && WellFormed(gs[i].k)
    ensures P.IsRun(j, states, who) && |states| == |who| + 1 && states[|who|] == Project(gpu, gs[i])
  {
    hide JointInv, Moved, P.Init, P.Moves, Starts, Project, CanMove, P.IsCodec, Model.Valid, P.Shaped;
    if i == 0 {
      StartIsFine(j, gpu, gs[0]);
      JointIsWellFormed(j, gpu, gs[0]);
      states, who := [Project(gpu, gs[0])], [];
    } else {
      states, who := KernelRunIsPipelineRun(j, gpu, gs, moves, i - 1);
      assert Follows(j, gpu, gs[i - 1], moves[i - 1], gs[i]);
      MoveIsSimulated(j, gpu, gs[i - 1], moves[i - 1]);
      JointIsWellFormed(j, gpu, gs[i]);
      var s, s' := Project(gpu, gs[i - 1]), Project(gpu, gs[i]);
      if P.Moves(j, s, true, s') {
        states, who := states + [s'], who + [true];
      } else if P.Moves(j, s, false, s') {
        states, who := states + [s'], who + [false];
      }
    }
  }

  lemma FineIsWellFormed<F(!new)>(j: P.Job<F>, gpu: bool, g: Joint<F>)
    requires j.Valid() && Fine(j, gpu, g)
    ensures WellFormed(g.k)
  {}

  lemma JointIsWellFormed<F(!new)>(j: P.Job<F>, gpu: bool, g: Joint<F>)
    requires j.Valid() && JointInv(j, gpu, g)
    ensures WellFormed(g.k)
  {}

  /** Only a scheduler that finds nobody ready stops the kernel. */
  lemma StopsWhenNobodyIsReady(k: State, step: Step)
    requires WellFormed(k) && Enabled(k, step) && !Running(Next(k, step))
    ensures step.NothingReady?
  {
    hide PledgeAllows, Holds, Meet, Mask;
  }

  ghost predicate Running(k: State) {
    k.mode.Supervisor? || k.mode.InShard?
  }

  /** When nobody is ready, neither stage can go on. */
  lemma NobodyReadyStalls<F(!new)>(j: P.Job<F>, gpu: bool, g: Joint<F>)
    requires j.Valid() && JointInv(j, gpu, g) && WellFormed(g.k) && Enabled(g.k, NothingReady)
    ensures !P.CanMove(j, Project(gpu, g))
  {
    hide P.Inv, P.CanMove, P.IsCodec, Model.Valid;
    assert RecvOk(g.k, At(gpu, 0)) && !IsReady(g.k.shards, At(gpu, 0));
    assert RecvOk(g.k, At(gpu, 1)) && !IsReady(g.k.shards, At(gpu, 1));
    P.EnabledMoves(j, Project(gpu, g));
  }

  lemma StoppedStages<F(!new)>(j: P.Job<F>, gpu: bool, gs: seq<Joint<F>>, moves: seq<Move>, i: nat)
    requires j.Valid() && IsJointRun(j, gpu, gs, moves) && i < |gs| && !Running(gs[i].k)
    ensures gs[i].zero.out == gs[i].one.out == Generate(j.m, j.n).tokens
  {
    hide P.IsRun, Generate, P.Inv, P.CanMove, P.IsCodec, Model.Valid, Inv, Next, Enabled, Project, JointInv, P.Shaped;
    if i > 0 {
      var g := gs[i - 1];
      var states, who := KernelRunIsPipelineRun(j, gpu, gs, moves, i - 1);
      assert Follows(j, gpu, g, moves[i - 1], gs[i]);
      StoppingMove(j, gpu, g, moves[i - 1]);
      NobodyReadyStalls(j, gpu, g);
      P.BothFinish(j, states, who);
      OutputsOf(gpu, g);
    }
  }

  lemma OutputsOf<F>(gpu: bool, g: Joint<F>)
    requires WellFormed(g.k)
    ensures Project(gpu, g).zero.out == g.zero.out && Project(gpu, g).one.out == g.one.out
  {}

  lemma StoppingMove<F(!new)>(j: P.Job<F>, gpu: bool, g: Joint<F>, mv: Move)
    requires j.Valid() && WellFormed(g.k) && CanMove(j, gpu, g, mv) && P.Shaped(j, Project(gpu, g))
    requires !Running(Moved(j, gpu, g, mv).k)
    ensures Enabled(g.k, NothingReady)
    ensures Moved(j, gpu, g, mv).zero == g.zero && Moved(j, gpu, g, mv).one == g.one
  {
    hide Next, P.Shaped, P.IsCodec, Model.Valid, Activation, NewCaches;
    if mv.Kernel? { StopsWhenNobodyIsReady(g.k, mv.step); }
  }

  /** In every run of the kernel from boot, under its scheduler and whatever the other shards do, the stages
      have emitted a prefix of what sequential inference emits; and whenever the kernel stops, even in a
      panic over other shards, they have emitted all of it. */
  lemma StagesInKernel<F(!new)>(j: P.Job<F>, gpu: bool, gs: seq<Joint<F>>, moves: seq<Move>, i: nat)
    requires j.Valid() && IsJointRun(j, gpu, gs, moves) && i < |gs|
    ensures gs[i].zero.out <= gs[i].one.out <= Generate(j.m, j.n).tokens
    ensures !Running(gs[i].k) ==> gs[i].zero.out == gs[i].one.out == Generate(j.m, j.n).tokens
  {
    hide P.IsRun, IsJointRun, Generate, P.IsCodec, Model.Valid, Project, JointInv;
    var states, who := KernelRunIsPipelineRun(j, gpu, gs, moves, i);
    P.TokensAreSequential(j, states, who, |who|);
    OutputsOf(gpu, gs[i]);
    if !Running(gs[i].k) { StoppedStages(j, gpu, gs, moves, i); }
  }
}
