/** Video memory together with the kernel: the capabilities and pledges behind copies are those that
    shards hold in a run from boot. */
module GpuBoot {
  import opened Bitmap
  import opened Gpu
  import K = Kernel
  import R = KernelRuns
  import B = KernelBoot

  /** The partitions as boot assigns them: to shards 0 and 1. */
  ghost predicate Assigned(st: State) {
    Consistent(st) && |st.parts| == 2 && st.parts[0].owner == Some(0) && st.parts[1].owner == Some(1)
  }

  /** A request for a copy that the current shard makes in state `s` of the kernel. */
  ghost predicate MadeIn(s: K.State, e: Event) {
    e.Dma? ==>
      && s.mode.InShard? && s.current == Some(e.s) && e.s < |s.shards|
      && e.caps == s.shards[e.s].caps && e.pledge == s.shards[e.s].pledge
  }

  /** Each event of a run on video memory happens at some point of a run of the kernel from boot. */
  ghost predicate Joint(r: R.Run, at: seq<nat>, events: seq<Event>) {
    && R.IsRun(r) && r.states[0] == B.Boot(true) && |at| == |events|
    && forall k :: 0 <= k < |events| ==> at[k] < |r.states| && MadeIn(r.states[at[k]], events[k])
  }

  /** Only capabilities for partition 1 exist at boot. */
  lemma DmaCapsAtBoot(i: nat, k: nat)
    requires i < K.MAX_SHARDS && k < K.MAX_CAPS
    ensures |B.Boot(true).shards| == K.MAX_SHARDS && |B.Boot(true).shards[i].caps| == K.MAX_CAPS
    ensures var c := B.Boot(true).shards[i].caps[k]; c.Cap? && c.kind == K.CAP_GPU_DMA ==> c.resource == 1
  {
    hide B.Boot;
    B.BootTable(true, i);
  }

  /** And only for partition 1 do they ever exist. */
  lemma DmaCapsAreForOne(r: R.Run, i: nat, s: nat, target: nat)
    requires R.IsRun(r) && r.states[0] == B.Boot(true) && i < |r.states| && s < K.MAX_SHARDS && target != 1
    ensures K.WellFormed(r.states[i]) && !K.Holds(r.states[i].shards[s].caps, K.CAP_GPU_DMA, target, RIGHT_DMA_WRITE)
  {
    hide B.Boot, K.Next, R.IsRunFrom, K.Init;
    R.InvariantHolds(r, i);
    forall k | 0 <= k < K.MAX_CAPS ensures !K.Grants(r.states[i].shards[s].caps[k], K.CAP_GPU_DMA, target, RIGHT_DMA_WRITE) {
      if r.states[i].shards[s].caps[k].Cap? {
        var i0, k0 := R.AuthorityDescends(r, 0, i, s, k);
        OriginIsInTable(r, i0, k0);
        DmaCapsAtBoot(i0, k0);
      }
    }
  }

  lemma OriginIsInTable(r: R.Run, i: nat, k: nat)
    requires R.IsRun(r) && i < |r.states[0].shards| && k < |r.states[0].shards[i].caps|
    ensures i < K.MAX_SHARDS && k < K.MAX_CAPS
  {}

  /** From boot, every copy goes from shard 0 to partition 1. */
  lemma CopiesGoToOne(r: R.Run, i: nat, st: State, s: nat, c: Copy)
    requires R.IsRun(r) && r.states[0] == B.Boot(true) && i < |r.states| && s < K.MAX_SHARDS && Assigned(st)
    requires K.WellFormed(r.states[i]) && CopyAccepted(st, s, c, r.states[i].shards[s].caps)
    ensures s == 0 && c.target == 1
  {
    hide B.Boot, K.Holds, R.IsRun;
    if c.target != 1 { DmaCapsAreForOne(r, i, s, c.target); }
  }

  /** Over every joint run, a byte of partition 0 changes only by a store of shard 0. */
  lemma {:induction false} PartitionZeroIsPrivate(r: R.Run, at: seq<nat>, events: seq<Event>, st: State, a: nat)
    requires Joint(r, at, events) && Assigned(st) && st.parts[0].offset <= a < st.parts[0].offset + st.parts[0].size
    requires forall k :: 0 <= k < |events| && events[k].s == 0 ==> !StoresTo(st, events[k], a)
    ensures a < |st.vram| && Run(st, events).vram[a] == st.vram[a]
    decreases |events|
  {
    hide Consistent, R.IsRun, MadeIn, StoresTo, Effect;
    InVram(st, a);
    if events != [] {
      var n := |events| - 1;
      PartitionZeroIsPrivate(r, at[..n], events[..n], st, a);
      var before, e := Run(st, events[..n]), events[n];
      SameStores(st, before, e, a);
      CopyLeavesZero(r, at[n], before, e, a);
    }
  }

  lemma InVram(st: State, a: nat)
    requires Assigned(st) && st.parts[0].offset <= a < st.parts[0].offset + st.parts[0].size
    ensures a < |st.vram|
  {}

  lemma SameStores(st: State, st': State, e: Event, a: nat)
    requires st.parts == st'.parts
    ensures StoresTo(st, e, a) == StoresTo(st', e, a)
  {}

  lemma CopyLeavesZero(r: R.Run, i: nat, st: State, e: Event, a: nat)
    requires R.IsRun(r) && r.states[0] == B.Boot(true) && i < |r.states| && MadeIn(r.states[i], e) && Assigned(st)
    requires st.parts[0].offset <= a < st.parts[0].offset + st.parts[0].size && (e.s == 0 ==> !StoresTo(st, e, a))
    ensures a < |st.vram| && Effect(st, e).vram[a] == st.vram[a]
  {
    hide B.Boot, R.IsRun, K.PledgeAllows, K.Holds;
    R.InvariantHolds(r, i);
    assert Disjoint(st.parts[0], st.parts[1]);
    if e.Dma? && e.s < K.MAX_SHARDS && CopyAccepted(st, e.s, e.copy, e.caps) {
      CopiesGoToOne(r, i, st, e.s, e.copy);
    }
  }

  /** Over every joint run, a byte of partition 1 is changed by nobody but shards 0 and 1: by a copy only of
      shard 0, by a store only of shard 1. */
  lemma WritersOfOne(r: R.Run, i: nat, st: State, e: Event, a: nat)
    requires R.IsRun(r) && r.states[0] == B.Boot(true) && i < |r.states| && MadeIn(r.states[i], e) && Assigned(st)
    requires st.parts[1].offset <= a < st.parts[1].offset + st.parts[1].size
    ensures a < |st.vram|
    ensures Effect(st, e).vram[a] != st.vram[a] ==> (e.Dma? && e.s == 0) || (e.Store? && e.s == 1)
  {
    hide B.Boot, R.IsRun, K.PledgeAllows, K.Holds;
    R.InvariantHolds(r, i);
    assert Disjoint(st.parts[0], st.parts[1]);
    if e.Dma? && e.s < K.MAX_SHARDS && CopyAccepted(st, e.s, e.copy, e.caps) {
      CopiesGoToOne(r, i, st, e.s, e.copy);
    }
  }
}
