/** The state in which `supervisor_main` enters the scheduler, and what holds of every run from there. */
module KernelBoot {
  import opened Bitmap
  import opened Kernel
  import opened KernelRuns

  function Table(cs: seq<Cap>): (t: seq<Cap>)
    requires |cs| <= MAX_CAPS
    ensures |t| == MAX_CAPS
  {
    cs + seq(MAX_CAPS - |cs|, _ => Empty)
  }

  function NewShard(p: Priority, cs: seq<Cap>): Shard
    requires |cs| <= MAX_CAPS
  {
    Shard(Ready, p, None, Table(cs), UNRESTRICTED, User)
  }

  function UnusedShard(): Shard {
    Shard(Free, Normal, None, Table([]), UNRESTRICTED, User)
  }

  function Link(a: nat, b: nat): Channel {
    Channel(true, [a, b], seq(MAX_MSG_SIZE, _ => 0), 0, 0)
  }

  function NoLink(): Channel {
    Channel(false, [MAX_SHARDS, MAX_SHARDS], seq(MAX_MSG_SIZE, _ => 0), 0, 0)
  }

  /** The demo shards, from slot `k` on: fs-reader, hello-c, llama-inference, two pipeline stages
      and the fuzzer. */
  function DemoShards(): seq<Shard> {
    var stage := Cap(CAP_CHANNEL, 1, RIGHT_SEND | RIGHT_RECV);
    [NewShard(Normal, []), NewShard(Normal, []), NewShard(Normal, []),
     NewShard(Normal, [stage]), NewShard(Normal, [stage]),
     NewShard(Low, [Cap(CAP_CHANNEL, 2, RIGHT_SEND | RIGHT_GRANT)])]
  }

  /** The boot state. With a display device the two GPU shards take slots 0 and 1. */
  function Boot(gpu: bool): State {
    if gpu then
      State([NewShard(High, [Cap(CAP_CHANNEL, 0, RIGHT_SEND), Cap(CAP_GPU_DMA, 1, 1)]),
             NewShard(High, [Cap(CAP_CHANNEL, 0, RIGHT_RECV)])] + DemoShards(),
            [Link(0, 1), Link(5, 6), Link(7, 2), NoLink()], None, 0, Supervisor)
    else
      State(DemoShards() + [UnusedShard(), UnusedShard()],
            [NoLink(), Link(3, 4), Link(5, 0), NoLink()], None, 0, Supervisor)
  }

  lemma BootIsInit(gpu: bool)
    ensures Init(Boot(gpu))
  {
    var s := Boot(gpu);
    forall i: nat | i < MAX_SHARDS
      ensures s.shards[i].state in {Ready, Free} && s.shards[i].cont.User? && s.shards[i].blockedOn.None?
      ensures |s.shards[i].caps| == MAX_CAPS
    {}
  }

  /** No run from boot ever has a shard waiting on channel 2, whose reader may already have exited. */
  lemma NobodyBlocksOnChannelTwo(gpu: bool, r: Run, i: nat, a: nat)
    requires r.states != [] && r.states[0] == Boot(gpu) && IsRun(r) && i < |r.states| && a < MAX_SHARDS
    ensures WellFormed(r.states[i]) && !(r.states[i].shards[a].cont.InRecv? && r.states[i].shards[a].cont.ch == 2)
  {
    hide Boot, NobodyReceives;
    ChannelTwoAtBoot(gpu);
    NobodyBlocksWithoutRecvRight(r, i, 2, a);
  }

  /** The capabilities shard `i` starts with. */
  function BootCaps(gpu: bool, i: nat): (cs: seq<Cap>)
    ensures |cs| <= 2
  {
    if gpu && i == 0 then [Cap(CAP_CHANNEL, 0, RIGHT_SEND), Cap(CAP_GPU_DMA, 1, 1)]
    else if gpu && i == 1 then [Cap(CAP_CHANNEL, 0, RIGHT_RECV)]
    else
      var k := if gpu then i - 2 else i;
      if k == 3 || k == 4 then [Cap(CAP_CHANNEL, 1, RIGHT_SEND | RIGHT_RECV)]
      else if k == 5 then [Cap(CAP_CHANNEL, 2, RIGHT_SEND | RIGHT_GRANT)]
      else []
  }

  lemma BootTable(gpu: bool, i: nat)
    requires i < MAX_SHARDS
    ensures |Boot(gpu).shards| == MAX_SHARDS && Boot(gpu).shards[i].caps == Table(BootCaps(gpu, i))
  {
    hide Table;
    assert |DemoShards()| == 6;
  }

  /** Nothing at boot grants receiving on channel 2 or granting channel 1. */
  lemma NoSuchRight(gpu: bool, i: nat, k: nat)
    requires k < MAX_CAPS
    ensures !Grants(Table(BootCaps(gpu, i))[k], CAP_CHANNEL, 2, RIGHT_RECV)
    ensures !Grants(Table(BootCaps(gpu, i))[k], CAP_CHANNEL, 1, RIGHT_GRANT)
  {
    assert (1 as bv16 | 4) & 2 != 2 && (1 as bv16 | 2) & 4 != 4;
  }

  lemma ChannelTwoAtBoot(gpu: bool)
    ensures NobodyReceives(Boot(gpu), 2)
  {
    hide Boot, Grants, Table, BootCaps;
    BootTable(gpu, 0);
    forall i, k | 0 <= i < MAX_SHARDS && 0 <= k < |Boot(gpu).shards[i].caps|
      ensures !Grants(Boot(gpu).shards[i].caps[k], CAP_CHANNEL, 2, RIGHT_RECV)
    {
      BootTable(gpu, i);
      NoSuchRight(gpu, i, k);
    }
  }

  /** Channel 1 stays with the two pipeline stages: nobody else ever holds a capability for it. */
  lemma PipelineChannelStaysPrivate(gpu: bool, r: Run, i: nat, a: nat)
    requires r.states != [] && r.states[0] == Boot(gpu) && IsRun(r) && i < |r.states| && a < MAX_SHARDS
    ensures WellFormed(r.states[i])
    ensures HoldsChannel(r.states[i], a, 1) ==> a in Endpoints(r.states[i], 1)
  {
    hide Boot;
    PipelineChannelAtBoot(gpu);
    PipelineHoldersAtBoot(gpu, a);
    UngrantableChannelsLoseHolders(r, 0, i, a, 1);
    InvariantHolds(r, 0);
    EndpointsAreFixed(r, i, 1);
  }

  lemma PipelineChannelAtBoot(gpu: bool)
    ensures NobodyGrants(Boot(gpu), 1)
  {
    hide Boot, Grants, Table, BootCaps;
    BootTable(gpu, 0);
    forall i, k | 0 <= i < MAX_SHARDS && 0 <= k < |Boot(gpu).shards[i].caps|
      ensures !Grants(Boot(gpu).shards[i].caps[k], CAP_CHANNEL, 1, RIGHT_GRANT)
    {
      BootTable(gpu, i);
      NoSuchRight(gpu, i, k);
    }
  }

  lemma PipelineHoldersAtBoot(gpu: bool, a: nat)
    requires a < MAX_SHARDS && WellFormed(Boot(gpu))
    ensures HoldsChannel(Boot(gpu), a, 1) ==> a in Endpoints(Boot(gpu), 1)
  {
    BootTable(gpu, a);
  }

  lemma {:induction false} EndpointsAreFixed(r: Run, i: nat, ch: nat)
    requires IsRun(r) && i < |r.states| && ch < MAX_CHANNELS
    ensures WellFormed(r.states[i]) && r.states[i].channels[ch].ends == r.states[0].channels[ch].ends
  {
    hide Next;
    InvariantHolds(r, i);
    if i != 0 {
      EndpointsAreFixed(r, i - 1, ch);
      InvariantHolds(r, i - 1);
      ChannelStep(r.states[i - 1], r.steps[i - 1], ch);
    }
  }

  /** At boot no capability allows both receiving and granting, and the first GPU shard may not receive. */
  lemma ReceiveRightsAtBoot()
    ensures NobodyGrantsReceiving(Boot(true)) && MayNotReceive(Boot(true), 0)
  {
    hide Boot, Table, BootCaps, CanReceive, CanGrant;
    BootTable(true, 0);
    forall i, k | 0 <= i < MAX_SHARDS && 0 <= k < |Boot(true).shards[i].caps|
      ensures !(CanReceive(Boot(true).shards[i].caps[k]) && CanGrant(Boot(true).shards[i].caps[k]))
      ensures i == 0 ==> !CanReceive(Boot(true).shards[i].caps[k])
    {
      BootTable(true, i);
      ReceiveRightsInTable(i, k);
    }
  }

  lemma ReceiveRightsInTable(i: nat, k: nat)
    requires k < MAX_CAPS
    ensures var c := Table(BootCaps(true, i))[k]; !(CanReceive(c) && CanGrant(c)) && (i == 0 ==> !CanReceive(c))
  {
    assert (1 as bv16 | 4) & 2 != 2 && (1 as bv16 | 2) & 4 == 0 && 2 as bv16 & 4 == 0 && 1 as bv16 & 2 != 2;
  }
}
