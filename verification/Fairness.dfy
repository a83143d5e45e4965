/** Round robin inside a priority level. One cursor serves all levels, so a pick of a higher level can
    move it past a waiting shard: how far exactly, when that cannot happen, and that it does not happen
    in any run from boot. */
module Fairness {
  import opened Bytes
  import opened Bitmap
  import opened Kernel
  import opened KernelRuns
  import opened KernelBoot

  // ------------------------------------------------------------------ one pick

  lemma PickIsUnique(shards: seq<Shard>, last: nat, i: nat, j: nat)
    requires |shards| == MAX_SHARDS && last < MAX_SHARDS
    requires IsPick(shards, last, i) && IsPick(shards, last, j)
    ensures i == j
  {
    assert shards[i].priority.Level() == shards[j].priority.Level();
    assert shards[i].priority == shards[j].priority;
    assert Distance(last, i) == Distance(last, j);
  }

  /** A ready shard stays ready until the scheduler picks it, and keeps its priority. */
  lemma ReadyUntilPicked(s: State, step: Step, j: nat)
    requires Inv(s) && Enabled(s, step) && IsReady(s.shards, j) && step != Schedule(j)
    ensures IsReady(Next(s, step).shards, j) && Next(s, step).shards[j].priority == s.shards[j].priority
    ensures Next(s, step).last == if step.Schedule? then step.id else s.last
  {
    assert RecvOk(s, j);
  }

  /** Picking `i` with the cursor at `last` moves the cursor past the slot of `j`. */
  predicate PassesOver(last: nat, i: nat, j: nat)
    requires last < MAX_SHARDS && i < MAX_SHARDS && j < MAX_SHARDS
  {
    Distance(last, j) < Distance(last, i)
  }

  /** A pick brings the cursor closer to a waiting shard exactly if it does not pass over it: by one
      slot and the slots in between, and otherwise once around. */
  lemma PickMovesCursor(last: nat, i: nat, j: nat)
    requires last < MAX_SHARDS && i < MAX_SHARDS && j < MAX_SHARDS && i != j
    ensures Distance(i, j) == Distance(last, j) - (Distance(last, i) + 1) + if PassesOver(last, i, j) then 8 else 0
    ensures Distance(i, j) < Distance(last, j) <==> !PassesOver(last, i, j)
  {}

  /** Only a shard of a higher level can be picked past a ready one. */
  lemma OnlyHigherLevelsPassOver(shards: seq<Shard>, last: nat, i: nat, j: nat)
    requires |shards| == MAX_SHARDS && last < MAX_SHARDS && j < MAX_SHARDS
    requires IsPick(shards, last, i) && IsReady(shards, j) && PassesOver(last, i, j)
    ensures shards[i].priority.Level() < shards[j].priority.Level()
  {
    assert shards[i].priority.Level() <= shards[j].priority.Level();
    assert shards[i].priority.Level() == shards[j].priority.Level() ==> shards[i].priority == shards[j].priority;
  }

  // ------------------------------------------------------------------ waiting

  ghost predicate IsPickStep(r: Run, i: nat) {
    i < |r.steps| && i < |r.states| && r.steps[i].Schedule?
    && |r.states[i].shards| == MAX_SHARDS && r.steps[i].id < MAX_SHARDS && r.states[i].last < MAX_SHARDS
  }

  /** Step `i` picks a shard of the priority of `j`. */
  ghost predicate SameLevelPick(r: Run, i: nat, j: nat) {
    IsPickStep(r, i) && j < MAX_SHARDS && r.states[i].shards[r.steps[i].id].priority == r.states[i].shards[j].priority
  }

  ghost predicate PassingPick(r: Run, i: nat, j: nat) {
    IsPickStep(r, i) && j < MAX_SHARDS && PassesOver(r.states[i].last, r.steps[i].id, j)
  }

  function One(b: bool): nat {
    if b then 1 else 0
  }

  /** How many of the steps from `a` up to `b` pick a shard, pick one of the priority of `j`, or pick one
      past `j`; and how many slots the cursor moves on the way. */
  ghost function Picks(r: Run, a: nat, b: nat): nat {
    if a >= b then 0 else Picks(r, a, b - 1) + One(IsPickStep(r, b - 1))
  }

  ghost function LevelPicks(r: Run, a: nat, b: nat, j: nat): nat {
    if a >= b then 0 else LevelPicks(r, a, b - 1, j) + One(SameLevelPick(r, b - 1, j))
  }

  ghost function Passes(r: Run, a: nat, b: nat, j: nat): nat {
    if a >= b then 0 else Passes(r, a, b - 1, j) + One(PassingPick(r, b - 1, j))
  }

  ghost function Travel(r: Run, a: nat, b: nat): nat {
    if a >= b then 0
    else Travel(r, a, b - 1) + if IsPickStep(r, b - 1) then Distance(r.states[b - 1].last, r.steps[b - 1].id) + 1 else 0
  }

  /** Shard `j` is ready at step `a` and not picked before step `b`. */
  ghost predicate Waits(r: Run, a: nat, b: nat, j: nat) {
    && a <= b <= |r.steps| && |r.states| == |r.steps| + 1 && IsReady(r.states[a].shards, j)
    && forall i :: a <= i < b ==> r.steps[i] != Schedule(j)
  }

  lemma {:induction false} WaiterStaysReady(r: Run, a: nat, b: nat, j: nat)
    requires IsRun(r) && Waits(r, a, b, j)
    ensures Inv(r.states[a]) && Inv(r.states[b]) && j < MAX_SHARDS && IsReady(r.states[b].shards, j)
    decreases b
  {
    hide Next;
    InvariantHolds(r, a);
    InvariantHolds(r, b);
    if a < b {
      WaiterStaysReady(r, a, b - 1, j);
      ReadyUntilPicked(r.states[b - 1], r.steps[b - 1], j);
    }
  }

  /** The law of the cursor: over a wait, the way to the waiting shard changes by what the cursor moves,
      less eight slots for every time it is passed over. */
  lemma {:induction false} CursorLaw(r: Run, a: nat, b: nat, j: nat)
    requires IsRun(r) && Waits(r, a, b, j)
    ensures Inv(r.states[a]) && Inv(r.states[b]) && j < MAX_SHARDS
    ensures Distance(r.states[b].last, j) + Travel(r, a, b) == Distance(r.states[a].last, j) + 8 * Passes(r, a, b, j)
    decreases b
  {
    hide Next, Distance, Init, IsRunFrom, PassesOver;
    WaiterStaysReady(r, a, b, j);
    if a < b {
      CursorLaw(r, a, b - 1, j);
      WaiterStaysReady(r, a, b - 1, j);
      CursorStep(r, b - 1, j);
    }
  }

  lemma CursorStep(r: Run, i: nat, j: nat)
    requires IsRun(r) && i < |r.steps| && WellFormed(r.states[i]) && WellFormed(r.states[i + 1])
    requires IsReady(r.states[i].shards, j) && r.steps[i] != Schedule(j)
    ensures Distance(r.states[i + 1].last, j) + (if IsPickStep(r, i) then Distance(r.states[i].last, r.steps[i].id) + 1 else 0)
            == Distance(r.states[i].last, j) + 8 * One(PassingPick(r, i, j))
  {
    hide Next, Distance, Init, IsRunFrom, PassesOver;
    RunStep(r, i);
    ReadyUntilPicked(r.states[i], r.steps[i], j);
    if r.steps[i].Schedule? { PickMovesCursor(r.states[i].last, r.steps[i].id, j); }
  }

  /** Bounded waiting: all picks during a wait are at most the first distance and seven for every pick
      that passes over the waiting shard, and each of those is of a higher level. */
  lemma BoundedWaiting(r: Run, a: nat, b: nat, j: nat)
    requires IsRun(r) && Waits(r, a, b, j)
    ensures Inv(r.states[a]) && Inv(r.states[b]) && j < MAX_SHARDS
    ensures Picks(r, a, b) + Distance(r.states[b].last, j) <= Distance(r.states[a].last, j) + 7 * Passes(r, a, b, j)
    ensures LevelPicks(r, a, b, j) + Passes(r, a, b, j) <= Picks(r, a, b)
    ensures Passes(r, a, b, j) == 0 ==> LevelPicks(r, a, b, j) <= 7
  {
    CursorLaw(r, a, b, j);
    EveryPickMoves(r, a, b, j);
    PassesAreOfOtherLevels(r, a, b, j);
  }

  lemma {:induction false} EveryPickMoves(r: Run, a: nat, b: nat, j: nat)
    ensures Picks(r, a, b) + Passes(r, a, b, j) <= Travel(r, a, b)
  {
    hide Distance;
    if a < b { EveryPickMoves(r, a, b - 1, j); }
  }

  lemma {:induction false} PassesAreOfOtherLevels(r: Run, a: nat, b: nat, j: nat)
    requires IsRun(r) && Waits(r, a, b, j)
    ensures LevelPicks(r, a, b, j) + Passes(r, a, b, j) <= Picks(r, a, b)
    decreases b
  {
    hide Next, Distance;
    if a < b {
      PassesAreOfOtherLevels(r, a, b - 1, j);
      WaiterStaysReady(r, a, b - 1, j);
      var s, step := r.states[b - 1], r.steps[b - 1];
      if PassingPick(r, b - 1, j) { OnlyHigherLevelsPassOver(s.shards, s.last, step.id, j); }
    }
  }

  /** Where no shard has a higher level, a shard is never passed over. */
  lemma {:induction false} TopLevelIsNeverPassed(r: Run, a: nat, b: nat, j: nat)
    requires IsRun(r) && Waits(r, a, b, j) && WellFormed(r.states[0]) && j < MAX_SHARDS
    requires forall i: nat :: i < MAX_SHARDS ==> r.states[0].shards[j].priority.Level() <= r.states[0].shards[i].priority.Level()
    ensures Passes(r, a, b, j) == 0
    decreases b
  {
    hide Next, Distance, IsRunFrom, Init, PassesOver;
    if a < b {
      TopLevelIsNeverPassed(r, a, b - 1, j);
      WaiterStaysReady(r, a, b - 1, j);
      RunStep(r, b - 1);
      var s, step := r.states[b - 1], r.steps[b - 1];
      if step.Schedule? {
        PriorityIsFixed(r, b - 1, j);
        PriorityIsFixed(r, b - 1, step.id);
        assert !PassingPick(r, b - 1, j) by {
          if PassingPick(r, b - 1, j) { OnlyHigherLevelsPassOver(s.shards, s.last, step.id, j); }
        }
      }
    }
  }

  /** A shard alone on its level waits for no pick of its level. */
  lemma {:induction false} AloneOnItsLevel(r: Run, a: nat, b: nat, j: nat)
    requires IsRun(r) && Waits(r, a, b, j) && WellFormed(r.states[0]) && j < MAX_SHARDS
    requires forall i: nat :: i < MAX_SHARDS && i != j && !r.states[0].shards[i].state.Free? ==>
               r.states[0].shards[i].priority != r.states[0].shards[j].priority
    ensures LevelPicks(r, a, b, j) == 0
    decreases b
  {
    hide Next, Distance, IsRunFrom, Init;
    if a < b {
      AloneOnItsLevel(r, a, b - 1, j);
      RunStep(r, b - 1);
      var step := r.steps[b - 1];
      if step.Schedule? {
        PriorityIsFixed(r, b - 1, j);
        PriorityIsFixed(r, b - 1, step.id);
      }
    }
  }

  /** Priorities never change, and slots stay free or stay taken. */
  lemma {:induction false} PriorityIsFixed(r: Run, i: nat, a: nat)
    requires IsRun(r) && i < |r.states| && a < MAX_SHARDS
    ensures WellFormed(r.states[i]) && WellFormed(r.states[0])
    ensures r.states[i].shards[a].priority == r.states[0].shards[a].priority
    ensures r.states[i].shards[a].state.Free? <==> r.states[0].shards[a].state.Free?
  {
    hide Next;
    InvariantHolds(r, i);
    if i != 0 {
      PriorityIsFixed(r, i - 1, a);
      InvariantHolds(r, i - 1);
      PriorityStep(r.states[i - 1], r.steps[i - 1], a);
    }
  }

  lemma PriorityStep(s: State, step: Step, a: nat)
    requires Inv(s) && Enabled(s, step) && a < MAX_SHARDS
    ensures |Next(s, step).shards| == MAX_SHARDS && Next(s, step).shards[a].priority == s.shards[a].priority
    ensures Next(s, step).shards[a].state.Free? <==> s.shards[a].state.Free?
  {
    hide PledgeAllows, Holds, Meet, Mask;
    assert RecvOk(s, a);
  }

  // ------------------------------------------------------------------ from boot

  lemma ShardZeroNeverReceives(r: Run, i: nat)
    requires r.states != [] && r.states[0] == Boot(true) && IsRun(r) && i < |r.states|
    ensures WellFormed(r.states[i]) && !r.states[i].shards[0].cont.InRecv?
  {
    hide Boot, Next;
    ReceiveRightsAtBoot();
    NeverReceives(r, i, 0);
  }

  /** The first GPU shard has finished and the second has finished or waits: neither can run again. */
  ghost predicate Quiet(s: State) {
    && |s.shards| == MAX_SHARDS && (s.shards[0].state.Exited? || s.shards[0].state.Destroyed?)
    && (s.shards[1].state.Exited? || s.shards[1].state.Destroyed? || s.shards[1].state.Blocked?)
  }

  /** Shard 1 is an endpoint only of channels whose other endpoint is shard 0. */
  ghost predicate OnlyZeroWakesOne(s: State) {
    forall c: nat :: c < |s.channels| && 1 in s.channels[c].ends ==> forall e :: e in s.channels[c].ends ==> e < 2
  }

  lemma QuietAfterSend(s: State, id: nat, ch: nat, payload: seq<byte>)
    requires Inv(s) && Quiet(s) && OnlyZeroWakesOne(s) && id < MAX_SHARDS && s.shards[id].state.Running?
    requires ch < MAX_CHANNELS && s.channels[ch].active && EndpointOf(s.channels[ch], id).Some? && 0 < |payload| <= MAX_MSG_SIZE
    ensures Quiet(Deliver(s, id, ch, payload))
  {
    var c := s.channels[ch];
    assert 1 in c.ends ==> id !in c.ends;
    assert c.ends[0] in c.ends && c.ends[1] in c.ends;
  }

  lemma QuietStays(s: State, step: Step)
    requires Inv(s) && Enabled(s, step) && Quiet(s) && OnlyZeroWakesOne(s)
    ensures Quiet(Next(s, step))
  {
    hide PledgeAllows, Holds, Meet, Mask, Deliver;
    assert RecvOk(s, 1);
    if s.mode.InShard? { assert s.shards[s.current.value].state.Running?; }
    if step.Syscall? && step.call.Send? && SendAccepted(s, s.current.value, step.call.ch, step.call.payload, step.call.buf) {
      QuietAfterSend(s, s.current.value, step.call.ch, step.call.payload);
    }
  }

  lemma GpuEndpoints(r: Run, i: nat)
    requires r.states != [] && r.states[0] == Boot(true) && IsRun(r) && i < |r.states|
    ensures OnlyZeroWakesOne(r.states[i])
  {
    hide Next, IsRunFrom, Init;
    InvariantHolds(r, i);
    forall c: nat | c < MAX_CHANNELS ensures r.states[i].channels[c].ends == Boot(true).channels[c].ends {
      EndpointsAreFixed(r, i, c);
    }
    EndpointsAreFixed(r, i, 0);
  }

  /** A pick below the GPU shards' level happens only when they are quiet. */
  lemma LowerPickMeansQuiet(r: Run, i: nat)
    requires r.states != [] && r.states[0] == Boot(true) && IsRun(r) && i < |r.steps| && r.steps[i].Schedule?
    requires r.steps[i].id >= 2
    ensures Quiet(r.states[i])
  {
    hide Next, Init, Boot;
    InvariantHolds(r, i);
    var s := r.states[i];
    GpuPriorities();
    PriorityIsFixed(r, i, 0);
    PriorityIsFixed(r, i, 1);
    PriorityIsFixed(r, i, r.steps[i].id);
    ShardZeroNeverReceives(r, i);
    assert RecvOk(s, 0) && RecvOk(s, 1) && !IsReady(s.shards, 0) && !IsReady(s.shards, 1);
  }

  lemma GpuPriorities()
    ensures var s := Boot(true);
            && |s.shards| == MAX_SHARDS
            && forall i: nat :: i < MAX_SHARDS ==>
                 s.shards[i].priority == (if i < 2 then High else if i < 7 then Normal else Low) && !s.shards[i].state.Free?
  {
    hide Table;
    assert |DemoShards()| == 6;
  }

  lemma PlainPriorities()
    ensures var s := Boot(false);
            && |s.shards| == MAX_SHARDS
            && forall i: nat :: i < MAX_SHARDS ==>
                 s.shards[i].priority == (if i == 5 then Low else Normal) && (s.shards[i].state.Free? <==> i >= 6)
  {
    hide Table;
    assert |DemoShards()| == 6;
  }

  lemma {:induction false} QuietForever(r: Run, a: nat, b: nat)
    requires r.states != [] && r.states[0] == Boot(true) && IsRun(r) && a <= b < |r.states| && Quiet(r.states[a])
    ensures Quiet(r.states[b])
    decreases b
  {
    hide Next, Boot, Init, Quiet, OnlyZeroWakesOne;
    if a < b {
      QuietForever(r, a, b - 1);
      InvariantHolds(r, b - 1);
      GpuEndpoints(r, b - 1);
      QuietStays(r.states[b - 1], r.steps[b - 1]);
    }
  }

  /** Once a shard of its level has been picked during a wait, a Normal shard is passed over no more. */
  lemma {:induction false} NormalWait(r: Run, a: nat, b: nat, j: nat)
    requires r.states != [] && r.states[0] == Boot(true) && IsRun(r) && Waits(r, a, b, j) && 2 <= j < 7
    ensures WellFormed(r.states[b])
    ensures LevelPicks(r, a, b, j) > 0 ==>
              Quiet(r.states[b]) && LevelPicks(r, a, b, j) + Distance(r.states[b].last, j) <= 7
    decreases b
  {
    hide Next, Boot, Init, Quiet, Distance, IsRunFrom, Inv;
    WaiterStaysReady(r, a, b, j);
    InvIsWellFormed(r.states[b]);
    if a < b {
      NormalWait(r, a, b - 1, j);
      NormalStep(r, a, b - 1, j);
    }
  }

  lemma NormalStep(r: Run, a: nat, b: nat, j: nat)
    requires r.states != [] && r.states[0] == Boot(true) && IsRun(r) && b < |r.steps| && Waits(r, a, b + 1, j) && 2 <= j < 7
    requires a <= b && WellFormed(r.states[b]) && WellFormed(r.states[b + 1])
    requires LevelPicks(r, a, b, j) > 0 ==>
               Quiet(r.states[b]) && LevelPicks(r, a, b, j) + Distance(r.states[b].last, j) <= 7
    ensures LevelPicks(r, a, b + 1, j) > 0 ==>
              Quiet(r.states[b + 1]) && LevelPicks(r, a, b + 1, j) + Distance(r.states[b + 1].last, j) <= 7
  {
    hide Next, Boot, Init, Distance, LevelPicks, IsRunFrom, Quiet, PassesOver;
    var s, step := r.states[b], r.steps[b];
    RunStep(r, b);
    assert Waits(r, a, b, j);
    WaiterStaysReady(r, a, b, j);
    ReadyUntilPicked(s, step, j);
    CountOne(r, a, b, j);
    if step.Schedule? {
      PickMovesCursor(s.last, step.id, j);
      GpuPriorities();
      PriorityIsFixed(r, b, j);
      PriorityIsFixed(r, b, step.id);
      if Quiet(s) { QuietIsNotPicked(s, step, j); }
      if SameLevelPick(r, b, j) {
        LowerPickMeansQuiet(r, b);
        NotPassedBySameLevel(s, step, j);
        FarthestIsSix(step.id, j);
      }
    }
    if Quiet(s) { QuietForever(r, b, b + 1); }
  }

  lemma QuietIsNotPicked(s: State, step: Step, j: nat)
    requires WellFormed(s) && Enabled(s, step) && step.Schedule? && Quiet(s) && IsReady(s.shards, j)
    ensures step.id >= 2 && s.shards[step.id].priority.Level() <= s.shards[j].priority.Level()
  {}

  lemma CountOne(r: Run, a: nat, b: nat, j: nat)
    requires a <= b
    ensures LevelPicks(r, a, b + 1, j) == LevelPicks(r, a, b, j) + One(SameLevelPick(r, b, j))
  {}

  lemma NotPassedBySameLevel(s: State, step: Step, j: nat)
    requires WellFormed(s) && Enabled(s, step) && step.Schedule? && IsReady(s.shards, j) && j != step.id
    requires s.shards[step.id].priority == s.shards[j].priority
    ensures Distance(step.id, j) < Distance(s.last, j)
  {
    PickMovesCursor(s.last, step.id, j);
  }

  lemma FarthestIsSix(i: nat, j: nat)
    requires i < MAX_SHARDS && j < MAX_SHARDS && i != j
    ensures Distance(i, j) <= 6
  {}

  /** Round robin holds in every run from boot: no shard waits for more than seven picks of its own
      priority, with the GPU shards and without them. */
  lemma RoundRobinFromBoot(gpu: bool, r: Run, a: nat, b: nat, j: nat)
    requires r.states != [] && r.states[0] == Boot(gpu) && IsRun(r) && Waits(r, a, b, j)
    ensures LevelPicks(r, a, b, j) <= 7
  {
    hide Next, Boot, Init, IsRunFrom, Distance, LevelPicks;
    WaiterStaysReady(r, a, b, j);
    PriorityIsFixed(r, a, j);
    BoundedWaiting(r, a, b, j);
    if gpu { GpuPriorities(); } else { PlainPriorities(); }
    if gpu && 2 <= j < 7 {
      NormalWait(r, a, b, j);
    } else if r.states[0].shards[j].priority == Low {
      AloneOnItsLevel(r, a, b, j);
    } else {
      TopLevelIsNeverPassed(r, a, b, j);
    }
  }

  // ------------------------------------------------------------------ a table that starves

  /** A table that the scheduler admits and boot does not build: shard 0 (high priority) receives from
      shard 1 (normal) over channel 0; shard 2 (normal) only wants to run. */
  function Trio(zero: Shard, one: Shard, c: Channel, current: Option<nat>, last: nat, mode: Mode): (s: State)
    ensures |s.shards| == MAX_SHARDS && s.shards[0] == zero && s.shards[1] == one && s.shards[2] == NewShard(Normal, [])
    ensures s.last == last
  {
    State([zero, one, NewShard(Normal, [])] + seq(5, _ => UnusedShard()), [c, NoLink(), NoLink(), NoLink()], current, last, mode)
  }

  function Zero(): Shard { NewShard(High, [Cap(CAP_CHANNEL, 0, RIGHT_RECV)]) }
  function Sender(): Shard { NewShard(Normal, [Cap(CAP_CHANNEL, 0, RIGHT_SEND)]) }
  function Full(): Channel { Link(0, 1).(buffer := [7] + seq(MAX_MSG_SIZE - 1, _ => 0), msgLen := 1) }
  function Drained(): Channel { Full().(msgLen := 0) }
  function WaitingZero(st: RunState, on: Option<nat>): Shard {
    Zero().(state := st, blockedOn := on, cont := InRecv(0, 0, 1))
  }

  /** The state in which the loop starts and ends: shard 0 was just woken by shard 1. */
  function LoopHead(): State {
    Trio(WaitingZero(Ready, None), Sender(), Full(), Some(1), 1, Supervisor)
  }

  function LoopSteps(): seq<Step> {
    [Schedule(0), Resume, Syscall(Recv(0, 1, true)), Schedule(1), Syscall(Send(0, [7], true)), Timer]
  }

  function LoopState(i: nat): State {
    match i
    case 1 => Trio(WaitingZero(Running, None), Sender(), Full(), Some(0), 0, InShard)
    case 2 => Trio(Zero().(state := Running), Sender(), Drained(), Some(0), 0, InShard)
    case 3 => Trio(WaitingZero(Blocked, Some(0)), Sender(), Drained(), Some(0), 0, Supervisor)
    case 4 => Trio(WaitingZero(Blocked, Some(0)), Sender().(state := Running), Drained(), Some(1), 1, InShard)
    case 5 => Trio(WaitingZero(Ready, None), Sender().(state := Running), Full(), Some(1), 1, InShard)
    case _ => LoopHead()
  }

  ghost predicate Leads(s: State, step: Step, t: State) {
    WellFormed(s) && Enabled(s, step) && Next(s, step) == t
  }

  lemma LoopPicksZero()
    ensures Leads(LoopState(0), Schedule(0), LoopState(1))
  {
    assert Start(LoopState(0), 0).shards == LoopState(1).shards;
  }

  lemma LoopPicksSender()
    ensures Leads(LoopState(3), Schedule(1), LoopState(4))
  {
    assert Start(LoopState(3), 1).shards == LoopState(4).shards;
  }

  lemma LoopReceives()
    ensures Leads(LoopState(1), Resume, LoopState(2))
    ensures Leads(LoopState(2), Syscall(Recv(0, 1, true)), LoopState(3))
  {
    assert Grants(Zero().caps[0], CAP_CHANNEL, 0, RIGHT_RECV);
    assert FinishRecv(LoopState(1), 0).shards == LoopState(2).shards;
    assert FinishRecv(LoopState(1), 0).channels == LoopState(2).channels;
    assert BlockOn(LoopState(2), 0, 0, 0, 1).shards == LoopState(3).shards;
  }

  lemma LoopSends()
    ensures Leads(LoopState(4), Syscall(Send(0, [7], true)), LoopState(5))
  {
    assert Grants(Sender().caps[0], CAP_CHANNEL, 0, RIGHT_SEND);
    var s' := Deliver(LoopState(4), 1, 0, [7]);
    assert s'.shards == LoopState(5).shards;
    assert s'.channels[0].buffer == Full().buffer;
    assert s'.channels == LoopState(5).channels;
  }

  lemma LoopYields()
    ensures Leads(LoopState(5), Timer, LoopState(6))
  {
    assert GiveUpSlice(LoopState(5), 1).shards == LoopHead().shards;
  }

  function StarvedState(t: nat): State {
    if t == 0 then Trio(Zero(), Sender(), Drained(), None, 1, Supervisor) else LoopState((t + 1) % 6)
  }

  function StarvedStep(t: nat): Step {
    if t == 0 then Schedule(0) else LoopSteps()[(t + 1) % 6]
  }

  function StarvedRun(n: nat): Run {
    Run(seq(n + 1, t requires 0 <= t => StarvedState(t)), seq(n, t requires 0 <= t => StarvedStep(t)))
  }

  lemma LoopLeads(i: nat)
    requires i < 6
    ensures Leads(LoopState(i), LoopSteps()[i], LoopState((i + 1) % 6))
  {
    hide Leads, LoopState;
    LoopCloses();
    match i
    case 0 => LoopPicksZero();
    case 1 => LoopReceives();
    case 2 => LoopReceives();
    case 3 => LoopPicksSender();
    case 4 => LoopSends();
    case 5 => LoopYields();
  }

  lemma LoopCloses()
    ensures LoopState(6) == LoopState(0)
  {}

  lemma FirstPick()
    ensures Init(StarvedState(0)) && Leads(StarvedState(0), Schedule(0), LoopState(2))
  {
    assert Start(StarvedState(0), 0).shards == LoopState(2).shards;
  }

  lemma StarvedRunStep(t: nat)
    ensures Leads(StarvedState(t), StarvedStep(t), StarvedState(t + 1))
  {
    hide Leads, LoopState, LoopSteps, Init;
    FirstPick();
    LoopLeads((t + 1) % 6);
    assert ((t + 1) % 6 + 1) % 6 == (t + 2) % 6;
  }

  lemma StarvedShards(t: nat)
    ensures var sh := StarvedState(t).shards;
            |sh| == MAX_SHARDS && sh[0].priority == High && sh[1].priority == Normal && sh[2].priority == Normal && sh[2].state.Ready?
    ensures StarvedState(t).last < MAX_SHARDS
  {
    hide Trio, Full, Drained;
  }

  lemma StarvedSteps(t: nat)
    ensures StarvedStep(t) != Schedule(2)
    ensures StarvedStep(t) == Schedule(1) <==> (t + 1) % 6 == 3
    ensures StarvedStep(t).Schedule? ==> StarvedStep(t).id < 2
  {}

  lemma {:induction false} StarvedPicks(n: nat, b: nat)
    requires b <= n
    ensures LevelPicks(StarvedRun(n), 0, b, 2) == (b + 3) / 6
  {
    hide StarvedState, StarvedStep;
    if b != 0 {
      StarvedPicks(n, b - 1);
      StarvedShards(b - 1);
      StarvedSteps(b - 1);
      assert SameLevelPick(StarvedRun(n), b - 1, 2) <==> b % 6 == 3;
    }
  }

  /** The scheduler alone does not keep round robin inside a level: from this table, for every length there
      is a run in which shard 2 is ready throughout and never picked, while every sixth step picks
      another shard of the same priority. */
  lemma SharedCursorStarves(n: nat)
    ensures IsRun(StarvedRun(n))
    ensures forall i :: 0 <= i <= n ==> IsReady(StarvedRun(n).states[i].shards, 2)
    ensures forall i :: 0 <= i < n ==> StarvedRun(n).steps[i] != Schedule(2)
    ensures LevelPicks(StarvedRun(n), 0, n, 2) == (n + 3) / 6
  {
    hide Next, StarvedState, StarvedStep, Init, LoopState;
    var r := StarvedRun(n);
    StarvedPicks(n, n);
    FirstPick();
    forall i: nat | i <= n ensures IsReady(r.states[i].shards, 2) { StarvedShards(i); }
    forall i | 0 <= i < n
      ensures WellFormed(r.states[i]) && Enabled(r.states[i], r.steps[i])
      ensures r.states[i + 1] == Next(r.states[i], r.steps[i]) && r.steps[i] != Schedule(2)
    {
      StarvedRunStep(i);
      StarvedSteps(i);
    }
  }
}
