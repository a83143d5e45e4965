/** What the supervisor keeps over whole runs: wake-ups, message contents, deadlock, fairness,
    authority and pledges. */
module KernelRuns {
  import opened Bytes
  import opened Bitmap
  import opened Kernel

  /** A run: `states[i + 1]` follows `states[i]` by `steps[i]`. */
  datatype Run = Run(states: seq<State>, steps: seq<Step>)

  ghost predicate IsRunFrom(s: State, r: Run) {
    && |r.states| == |r.steps| + 1 && r.states[0] == s
    && forall i :: 0 <= i < |r.steps| ==>
         WellFormed(r.states[i]) && Enabled(r.states[i], r.steps[i])
         && r.states[i + 1] == Next(r.states[i], r.steps[i])
  }

  ghost predicate IsRun(r: Run) {
    |r.states| > 0 && Init(r.states[0]) && IsRunFrom(r.states[0], r)
  }

  lemma {:induction false} InvariantHolds(r: Run, i: nat)
    requires IsRun(r) && i < |r.states|
    ensures Inv(r.states[i])
  {
    hide Next;
    if i != 0 {
      InvariantHolds(r, i - 1);
      StepKeepsInv(r.states[i - 1], r.steps[i - 1]);
    }
  }

  lemma RunStep(r: Run, i: nat)
    requires IsRun(r) && i < |r.steps|
    ensures |r.states| == |r.steps| + 1 && Inv(r.states[i]) && Enabled(r.states[i], r.steps[i])
    ensures r.states[i + 1] == Next(r.states[i], r.steps[i])
  {
    InvariantHolds(r, i);
  }

  // ------------------------------------------------------------------ scheduling states

  /** Exactly the current shard runs, and nobody does while the scheduler works. */
  lemma OnlyCurrentRuns(r: Run, i: nat, a: nat)
    requires IsRun(r) && i < |r.states| && a < MAX_SHARDS
    ensures WellFormed(r.states[i])
    ensures r.states[i].shards[a].state.Running? <==> r.states[i].mode.InShard? && r.states[i].current == Some(a)
  {
    InvariantHolds(r, i);
  }

  /** No lost wake-up: a blocked shard is inside a receive on the channel it is recorded as
      blocked on, and nothing is pending for it there. */
  lemma BlockedMeansNothingPending(r: Run, i: nat, a: nat)
    requires IsRun(r) && i < |r.states| && a < MAX_SHARDS
    requires WellFormed(r.states[i]) && r.states[i].shards[a].state.Blocked?
    ensures var sh := r.states[i].shards[a];
            && sh.cont.InRecv? && sh.blockedOn == Some(sh.cont.ch) && sh.cont.ch < MAX_CHANNELS && sh.cont.ep < 2
            && r.states[i].channels[sh.cont.ch].ends[sh.cont.ep] == a
            && !r.states[i].channels[sh.cont.ch].Pending(sh.cont.ep)
  {
    InvariantHolds(r, i);
    assert RecvOk(r.states[i], a);
  }

  /** The scheduler panics exactly when no shard can run but some shard waits on a channel that
      holds nothing for it; then every unfinished shard waits so. */
  lemma PanicIsDeadlock(r: Run, i: nat)
    requires IsRun(r) && i < |r.steps| && r.steps[i].NothingReady?
    ensures r.states[i + 1].mode.Panicked? <==>
              exists a: nat :: a < MAX_SHARDS && r.states[i].shards[a].state.Blocked?
    ensures r.states[i + 1].mode.Panicked? ==> forall a: nat :: a < MAX_SHARDS ==>
              var sh := r.states[i].shards[a];
              Done(sh.state) || (sh.state.Blocked? && sh.cont.InRecv? && sh.cont.ch < MAX_CHANNELS
                                 && !r.states[i].channels[sh.cont.ch].Pending(sh.cont.ep))
  {
    InvariantHolds(r, i);
    var s := r.states[i];
    forall a: nat | a < MAX_SHARDS
      ensures Done(s.shards[a].state) || s.shards[a].state.Blocked?
      ensures s.shards[a].state.Blocked? ==>
                (s.shards[a].cont.InRecv? && s.shards[a].cont.ch < MAX_CHANNELS
                 && !s.channels[s.shards[a].cont.ch].Pending(s.shards[a].cont.ep))
    {
      assert RecvOk(s, a) && !IsReady(s.shards, a);
    }
  }

  // ------------------------------------------------------------------ messages

  datatype Transfer = Transfer(shard: nat, ch: nat, bytes: seq<byte>)

  /** The message a step puts into a channel. */
  ghost function Sent(s: State, step: Step): Option<Transfer>
    requires WellFormed(s) && Enabled(s, step)
  {
    if step.Syscall? && step.call.Send? then
      var id := s.current.value;
      var Send(ch, payload, buf) := step.call;
      if PledgeAllows(s.shards[id].pledge, 21) && SendAccepted(s, id, ch, payload, buf)
      then Some(Transfer(id, ch, payload)) else None
    else None
  }

  /** The bytes a step copies out of a channel into the receiver's buffer. */
  ghost function Received(s: State, step: Step): Option<Transfer>
    requires Inv(s) && Enabled(s, step)
  {
    if step.Resume? then
      var id := s.current.value;
      var InRecv(ch, ep, maxLen) := s.shards[id].cont;
      assert RecvOk(s, id);
      if s.channels[ch].Pending(ep) then Some(Transfer(id, ch, s.channels[ch].Message(maxLen))) else None
    else if step.Syscall? && step.call.Recv? then
      var id := s.current.value;
      var Recv(ch, maxLen, buf) := step.call;
      if PledgeAllows(s.shards[id].pledge, 22) && RecvAccepted(s, id, ch, maxLen, buf)
         && s.channels[ch].Pending(EndpointOf(s.channels[ch], id).value)
      then Some(Transfer(id, ch, s.channels[ch].Message(maxLen))) else None
    else None
  }

  /** How many bytes a receiving step asks for. */
  ghost function Asked(s: State, step: Step): nat
    requires WellFormed(s) && Enabled(s, step)
  {
    if step.Resume? then s.shards[s.current.value].cont.maxLen
    else if step.Syscall? && step.call.Recv? then step.call.maxLen else 0
  }

  /** A shard woken from a receive always finds its message: the "shouldn't happen" branch is dead. */
  lemma WokenReceiverFindsMessage(r: Run, i: nat)
    requires IsRun(r) && i < |r.steps| && r.steps[i].Resume?
    ensures Inv(r.states[i]) && Received(r.states[i], r.steps[i]).Some?
  {
    InvariantHolds(r, i);
    assert RecvOk(r.states[i], r.states[i].current.value);
  }

  /** The index of the latest step before `i` that sent on `ch`. */
  ghost function LatestSend(r: Run, i: nat, ch: nat): (j: Option<nat>)
    requires |r.states| > 0 && IsRunFrom(r.states[0], r) && i <= |r.steps|
    ensures j.Some? ==> j.value < i
  {
    if i == 0 then None
    else
      var t := Sent(r.states[i - 1], r.steps[i - 1]);
      if t.Some? && t.value.ch == ch then Some(i - 1) else LatestSend(r, i - 1, ch)
  }

  /** Step `k` sends on channel `ch`. */
  ghost predicate SendsOn(r: Run, k: nat, ch: nat) {
    && k < |r.steps| && k < |r.states| && WellFormed(r.states[k]) && Enabled(r.states[k], r.steps[k])
    && var t := Sent(r.states[k], r.steps[k]); t.Some? && t.value.ch == ch
  }

  /** It is what its name says: a step that sends on `ch`, and none does after it. */
  lemma {:induction false} LatestSendIsLatest(r: Run, i: nat, ch: nat)
    requires IsRun(r) && i <= |r.steps|
    ensures var j := LatestSend(r, i, ch);
            && (j.Some? ==> SendsOn(r, j.value, ch))
            && forall k: nat :: k < i && (j.Some? ==> j.value < k) ==> !SendsOn(r, k, ch)
  {
    hide Next, Sent, Init;
    if i > 0 { LatestSendIsLatest(r, i - 1, ch); }
  }

  /** One step's effect on one channel: a send fills it for the peer, anything else leaves it or
      empties it. */
  lemma ChannelStep(s: State, step: Step, ch: nat)
    requires Inv(s) && Enabled(s, step) && ch < MAX_CHANNELS
    ensures var c, c', t := s.channels[ch], Next(s, step).channels[ch], Sent(s, step);
            if t.Some? && t.value.ch == ch
            then c'.ends == c.ends && c'.msgLen == |t.value.bytes| && c'.buffer[..c'.msgLen] == t.value.bytes
                 && c'.msgFor < 2 && c'.ends[1 - c'.msgFor] == t.value.shard
            else c' == c || c' == c.(msgLen := 0)
  {
    if step.Syscall? && step.call.Send? && Sent(s, step).Some? {
      var payload := step.call.payload;
      var b := payload + s.channels[step.call.ch].buffer[|payload|..];
      assert b[..|payload|] == payload;
    }
  }

  ghost predicate HoldsLatestSend(r: Run, i: nat, ch: nat)
    requires IsRun(r) && i <= |r.steps| && ch < MAX_CHANNELS && WellFormed(r.states[i])
  {
    var c, j := r.states[i].channels[ch], LatestSend(r, i, ch);
    c.msgLen > 0 ==>
      && j.Some? && Sent(r.states[j.value], r.steps[j.value])
                    == Some(Transfer(c.ends[1 - c.msgFor], ch, c.buffer[..c.msgLen]))
  }

  lemma {:induction false} ChannelHoldsLatestSend(r: Run, i: nat, ch: nat)
    requires IsRun(r) && i <= |r.steps| && ch < MAX_CHANNELS
    ensures WellFormed(r.states[i]) && HoldsLatestSend(r, i, ch)
  {
    hide Next, Sent, Inv, HoldsLatestSend, Init;
    InvariantHolds(r, i);
    InvIsWellFormed(r.states[i]);
    if i == 0 {
      EmptyAtFirst(r, ch);
    } else {
      InvariantHolds(r, i - 1);
      ChannelHoldsLatestSend(r, i - 1, ch);
      HoldsOneMore(r, i, ch);
    }
  }

  lemma InvIsWellFormed(s: State)
    requires Inv(s)
    ensures WellFormed(s)
  {}

  lemma EmptyAtFirst(r: Run, ch: nat)
    requires IsRun(r) && ch < MAX_CHANNELS && WellFormed(r.states[0])
    ensures HoldsLatestSend(r, 0, ch)
  {}

  lemma HoldsOneMore(r: Run, i: nat, ch: nat)
    requires IsRun(r) && 0 < i <= |r.steps| && ch < MAX_CHANNELS && Inv(r.states[i - 1]) && WellFormed(r.states[i])
    requires HoldsLatestSend(r, i - 1, ch)
    ensures HoldsLatestSend(r, i, ch)
  {
    hide Next, Sent, Inv, Init;
    ChannelStep(r.states[i - 1], r.steps[i - 1], ch);
  }

  /** Every receive, immediate or resumed, returns the latest message sent on that channel, cut to what was
      asked for, and the other endpoint sent it. */
  lemma ReceivedIsLatestSend(r: Run, i: nat)
    requires IsRun(r) && i < |r.steps|
    ensures Inv(r.states[i])
    ensures var t := Received(r.states[i], r.steps[i]);
            t.Some? ==>
              && t.value.ch < MAX_CHANNELS
              && var j := LatestSend(r, i, t.value.ch);
                 && j.Some? && Sent(r.states[j.value], r.steps[j.value]).Some?
                 && var m := Sent(r.states[j.value], r.steps[j.value]).value;
                    && m.ch == t.value.ch && 0 < |t.value.bytes|
                    && t.value.bytes == m.bytes[..Min(|m.bytes|, Asked(r.states[i], r.steps[i]))]
                    && m.shard != t.value.shard && {m.shard, t.value.shard} == Endpoints(r.states[i], m.ch)
                    && SendsOn(r, j.value, m.ch) && forall k: nat :: j.value < k < i ==> !SendsOn(r, k, m.ch)
  {
    hide Next;
    InvariantHolds(r, i);
    var s, t := r.states[i], Received(r.states[i], r.steps[i]);
    if t.Some? {
      assert RecvOk(s, s.current.value);
      var c := s.channels[t.value.ch];
      ChannelHoldsLatestSend(r, i, t.value.ch);
      LatestSendIsLatest(r, i, t.value.ch);
      assert c.ends[c.msgFor] == t.value.shard;
      assert {c.ends[1 - c.msgFor], c.ends[c.msgFor]} == {c.ends[0], c.ends[1]};
    }
  }

  /** Step `k` takes a message from channel `ch`. */
  ghost predicate TakesFrom(r: Run, k: nat, ch: nat) {
    && k < |r.steps| && k < |r.states| && Inv(r.states[k]) && Enabled(r.states[k], r.steps[k])
    && var t := Received(r.states[k], r.steps[k]); t.Some? && t.value.ch == ch
  }

  /** A channel that nobody has sent on since it was emptied is empty. */
  lemma {:induction false} EmptyUntilSend(r: Run, i: nat, j: nat, ch: nat)
    requires IsRun(r) && ch < MAX_CHANNELS && i < j <= |r.steps| && TakesFrom(r, i, ch)
    requires forall k: nat :: i < k < j ==> !SendsOn(r, k, ch)
    ensures WellFormed(r.states[j]) && r.states[j].channels[ch].msgLen == 0
    decreases j
  {
    hide Next, Sent, Init, Received, RecvOk;
    RunStep(r, j - 1);
    InvariantHolds(r, j);
    if j == i + 1 {
      TakenIsGone(r.states[i], r.steps[i]);
    } else {
      EmptyUntilSend(r, i, j - 1, ch);
      assert !SendsOn(r, j - 1, ch);
      ChannelStep(r.states[j - 1], r.steps[j - 1], ch);
    }
  }

  lemma TakenIsGone(s: State, step: Step)
    requires Inv(s) && Enabled(s, step) && Received(s, step).Some?
    ensures var ch := Received(s, step).value.ch; ch < |Next(s, step).channels| && Next(s, step).channels[ch].msgLen == 0
  {
    hide PledgeAllows, Holds;
    assert RecvOk(s, s.current.value);
  }

  /** No message is received twice: between two receives on a channel somebody sends on it. */
  lemma ReceivedOnce(r: Run, i: nat, j: nat, ch: nat)
    requires IsRun(r) && ch < MAX_CHANNELS && i < j && TakesFrom(r, i, ch) && TakesFrom(r, j, ch)
    ensures exists k: nat :: i < k < j && SendsOn(r, k, ch)
  {
    hide Next, Sent, Init;
    if forall k: nat :: i < k < j ==> !SendsOn(r, k, ch) {
      EmptyUntilSend(r, i, j, ch);
      TakingNeedsMessage(r.states[j], r.steps[j]);
    }
  }

  lemma TakingNeedsMessage(s: State, step: Step)
    requires Inv(s) && Enabled(s, step) && Received(s, step).Some?
    ensures var ch := Received(s, step).value.ch; ch < MAX_CHANNELS && s.channels[ch].msgLen > 0
  {
    assert RecvOk(s, s.current.value);
  }

  ghost function Endpoints(s: State, ch: nat): set<nat>
    requires WellFormed(s) && ch < MAX_CHANNELS
  {
    {s.channels[ch].ends[0], s.channels[ch].ends[1]}
  }

  /** A step of a shard that is not an endpoint of a channel leaves the channel alone, and an
      endpoint's run state and continuation change only if it was blocked on another channel. */
  lemma OutsidersLeaveChannelAlone(s: State, step: Step, ch: nat, e: nat)
    requires Inv(s) && Enabled(s, step) && ch < MAX_CHANNELS && s.channels[ch].active
    requires s.mode.InShard? && s.current.value !in Endpoints(s, ch) && e in Endpoints(s, ch)
    ensures Next(s, step).channels[ch] == s.channels[ch]
    ensures var sh, sh' := s.shards[e], Next(s, step).shards[e];
            sh' == sh.(caps := sh'.caps) || (sh.state.Blocked? && sh.blockedOn != Some(ch))
  {
    hide PledgeAllows, Holds, Meet, Mask;
    assert RecvOk(s, s.current.value) && RecvOk(s, e);
  }

  // ------------------------------------------------------------------ authority

  predicate Within(r: bv16, bound: bv16) {
    r & bound == r
  }

  /** `c` carries no more than what the table entry `k` of shard `i` carried in `s`. */
  ghost predicate FromEntry(s: State, c: Cap, i: nat, k: nat) {
    && i < |s.shards| && k < |s.shards[i].caps|
    && var p := s.shards[i].caps[k];
       c.Cap? && p.Cap? && p.kind == c.kind && p.resource == c.resource && Within(c.rights, p.rights)
  }

  /** Only the three capability calls, and the final clean-up, touch a capability table. */
  lemma OtherStepsKeepCaps(s: State, step: Step, i: nat)
    requires WellFormed(s) && Enabled(s, step) && i < MAX_SHARDS
    requires !(step.Syscall? && (step.call.Grant? || step.call.Revoke? || step.call.Restrict?))
    ensures |Next(s, step).shards| == MAX_SHARDS
    ensures Next(s, step).shards[i].caps in {s.shards[i].caps, EmptyCaps()}
  {}

  /** Every capability after a step comes from one held before it, by the same shard or by a shard
      that could grant it. */
  lemma CapOrigin(s: State, step: Step, i: nat, k: nat) returns (i0: nat, k0: nat)
    requires WellFormed(s) && Enabled(s, step) && i < MAX_SHARDS && k < MAX_CAPS
    requires WellFormed(Next(s, step)) && Next(s, step).shards[i].caps[k].Cap?
    ensures FromEntry(s, Next(s, step).shards[i].caps[k], i0, k0)
    ensures i0 != i && s.shards[i0].caps[k0].kind == CAP_CHANNEL ==> s.shards[i0].caps[k0].rights & RIGHT_GRANT != 0
  {
    var s' := Next(s, step);
    if step.Syscall? && step.call.Grant? {
      i0, k0 := GrantOrigin(s, s.current.value, step.call, i, k);
    } else if step.Syscall? && (step.call.Revoke? || step.call.Restrict?) {
      i0, k0 := i, k;
      ShrinkOrigin(s, s.current.value, step.call, i, k);
    } else {
      hide Next;
      i0, k0 := i, k;
      OtherStepsKeepCaps(s, step, i);
      WithinAnd(s.shards[i].caps[k].rights, s.shards[i].caps[k].rights);
    }
  }

  lemma GrantOrigin(s: State, id: nat, call: Call, i: nat, k: nat) returns (i0: nat, k0: nat)
    requires WellFormed(s) && id < MAX_SHARDS && i < MAX_SHARDS && k < MAX_CAPS && call.Grant?
    requires WellFormed(Dispatch(s, id, call)) && Dispatch(s, id, call).shards[i].caps[k].Cap?
    ensures FromEntry(s, Dispatch(s, id, call).shards[i].caps[k], i0, k0)
    ensures i0 != i && s.shards[i0].caps[k0].kind == CAP_CHANNEL ==> s.shards[i0].caps[k0].rights & RIGHT_GRANT != 0
  {
    var c := Dispatch(s, id, call).shards[i].caps[k];
    if c == s.shards[i].caps[k] {
      i0, k0 := i, k;
      WithinAnd(c.rights, c.rights);
    } else {
      i0, k0 := id, call.handle;
      WithinAnd(s.shards[id].caps[call.handle].rights, call.rights);
    }
  }

  lemma ShrinkOrigin(s: State, id: nat, call: Call, i: nat, k: nat)
    requires WellFormed(s) && id < MAX_SHARDS && i < MAX_SHARDS && k < MAX_CAPS && (call.Revoke? || call.Restrict?)
    requires WellFormed(Dispatch(s, id, call)) && Dispatch(s, id, call).shards[i].caps[k].Cap?
    ensures FromEntry(s, Dispatch(s, id, call).shards[i].caps[k], i, k)
  {
    hide PledgeAllows, Within, Meet;
    var c, p := Dispatch(s, id, call).shards[i].caps[k], s.shards[i].caps[k];
    if c == p {
      WithinAnd(p.rights, p.rights);
    } else {
      assert call.Restrict? && c == p.(rights := Meet(p.rights, call.rights));
      WithinAnd(p.rights, call.rights);
    }
  }

  lemma WithinAnd(r: bv16, m: bv16)
    ensures Within(Meet(r, m), r) && Within(r, r)
  {
    assert (r & m) & r == r & m;
  }

  lemma WithinTrans(a: bv16, b: bv16, c: bv16)
    requires Within(a, b) && Within(b, c)
    ensures Within(a, c)
  {
    assert a & c == (a & b) & c == a & (b & c);
  }

  /** Authority never grows: a capability held at any point of a run has the kind and resource,
      and no more than the rights, of one that existed at an earlier point. */
  lemma {:induction false} AuthorityDescends(r: Run, a: nat, b: nat, i: nat, k: nat) returns (i0: nat, k0: nat)
    requires IsRun(r) && a <= b < |r.states| && i < MAX_SHARDS && k < MAX_CAPS
    requires WellFormed(r.states[b]) && r.states[b].shards[i].caps[k].Cap?
    ensures FromEntry(r.states[a], r.states[b].shards[i].caps[k], i0, k0)
    decreases b
  {
    hide Next;
    if a == b {
      i0, k0 := i, k;
      WithinAnd(r.states[b].shards[i].caps[k].rights, r.states[b].shards[i].caps[k].rights);
    } else {
      InvariantHolds(r, b - 1);
      var i1, k1 := CapOrigin(r.states[b - 1], r.steps[b - 1], i, k);
      i0, k0 := AuthorityDescends(r, a, b - 1, i1, k1);
      WithinTrans(r.states[b].shards[i].caps[k].rights, r.states[b - 1].shards[i1].caps[k1].rights,
                  r.states[a].shards[i0].caps[k0].rights);
    }
  }

  predicate IsFor(c: Cap, ch: nat) {
    c.Cap? && c.kind == CAP_CHANNEL && c.resource == ch
  }

  /** Shard `i` holds some capability for channel `ch`. */
  ghost predicate HoldsChannel(s: State, i: nat, ch: nat) {
    i < |s.shards| && exists k :: 0 <= k < |s.shards[i].caps| && IsFor(s.shards[i].caps[k], ch)
  }

  ghost predicate NobodyGrants(s: State, ch: nat) {
    forall i, k :: 0 <= i < |s.shards| && 0 <= k < |s.shards[i].caps| ==>
      !Grants(s.shards[i].caps[k], CAP_CHANNEL, ch, RIGHT_GRANT)
  }

  lemma GrantRightIsInherited(c: Cap, p: Cap)
    requires c.Cap? && p.Cap? && Within(c.rights, p.rights)
    ensures c.rights & RIGHT_GRANT == RIGHT_GRANT ==> p.rights & RIGHT_GRANT == RIGHT_GRANT
  {
    var x, y := c.rights, p.rights;
    assert x & y == x && x & 4 == 4 ==> y & 4 == 4;
  }

  /** A channel that nobody may grant stays so, and can only lose holders. */
  lemma {:induction false} UngrantableChannelsLoseHolders(r: Run, a: nat, b: nat, i: nat, ch: nat)
    requires IsRun(r) && a <= b < |r.states| && i < MAX_SHARDS && NobodyGrants(r.states[a], ch)
    ensures NobodyGrants(r.states[b], ch)
    ensures HoldsChannel(r.states[b], i, ch) ==> HoldsChannel(r.states[a], i, ch)
    decreases b
  {
    hide Next;
    if a < b {
      UngrantableChannelsLoseHolders(r, a, b - 1, i, ch);
      InvariantHolds(r, b - 1);
      InvariantHolds(r, b);
      var s, s' := r.states[b - 1], r.states[b];
      forall j, k | 0 <= j < MAX_SHARDS && 0 <= k < MAX_CAPS
        ensures !Grants(s'.shards[j].caps[k], CAP_CHANNEL, ch, RIGHT_GRANT)
      {
        if s'.shards[j].caps[k].Cap? {
          var j0, k0 := CapOrigin(s, r.steps[b - 1], j, k);
          GrantRightIsInherited(s'.shards[j].caps[k], s.shards[j0].caps[k0]);
        }
      }
      if HoldsChannel(s', i, ch) {
        var k :| 0 <= k < |s'.shards[i].caps| && IsFor(s'.shards[i].caps[k], ch);
        var i0, k0 := CapOrigin(s, r.steps[b - 1], i, k);
        var y := s.shards[i0].caps[k0].rights;
        assert y & 4 == 0 || y & 4 == 4;
        assert !Grants(s.shards[i0].caps[k0], CAP_CHANNEL, ch, RIGHT_GRANT);
        assert i0 == i && HoldsChannel(s, i, ch);
      }
    }
  }

  ghost predicate NobodyReceives(s: State, ch: nat) {
    forall i, k :: 0 <= i < |s.shards| && 0 <= k < |s.shards[i].caps| ==>
      !Grants(s.shards[i].caps[k], CAP_CHANNEL, ch, RIGHT_RECV)
  }

  /** A channel on which nobody holds the receive right at boot never blocks anybody. */
  lemma {:induction false} NobodyBlocksWithoutRecvRight(r: Run, i: nat, ch: nat, a: nat)
    requires IsRun(r) && i < |r.states| && a < MAX_SHARDS && ch < MAX_CHANNELS
    requires NobodyReceives(r.states[0], ch)
    ensures WellFormed(r.states[i]) && !(r.states[i].shards[a].cont.InRecv? && r.states[i].shards[a].cont.ch == ch)
  {
    hide Next, Grants;
    InvariantHolds(r, i);
    if i != 0 {
      NobodyBlocksWithoutRecvRight(r, i - 1, ch, a);
      InvariantHolds(r, i - 1);
      NobodyEverReceives(r, i - 1, ch);
      RecvNeedsRight(r.states[i - 1], r.steps[i - 1], a);
    }
  }

  lemma NobodyEverReceives(r: Run, i: nat, ch: nat)
    requires IsRun(r) && i < |r.states| && NobodyReceives(r.states[0], ch) && WellFormed(r.states[i])
    ensures NobodyReceives(r.states[i], ch)
  {
    hide IsRunFrom, Init;
    forall a, k | 0 <= a < MAX_SHARDS && 0 <= k < MAX_CAPS
      ensures !Grants(r.states[i].shards[a].caps[k], CAP_CHANNEL, ch, RIGHT_RECV)
    {
      if r.states[i].shards[a].caps[k].Cap? {
        var i0, k0 := AuthorityDescends(r, 0, i, a, k);
        RecvRightIsInherited(r.states[i].shards[a].caps[k].rights, r.states[0].shards[i0].caps[k0].rights);
        assert !Grants(r.states[0].shards[i0].caps[k0], CAP_CHANNEL, ch, RIGHT_RECV);
      }
    }
  }

  /** A shard enters a receive only with the receive right on that channel. */
  lemma RecvNeedsRight(s: State, step: Step, a: nat)
    requires Inv(s) && Enabled(s, step) && a < MAX_SHARDS && WellFormed(Next(s, step))
    ensures var cont, cont' := s.shards[a].cont, Next(s, step).shards[a].cont;
            cont'.InRecv? && cont != cont' ==> Holds(s.shards[a].caps, CAP_CHANNEL, cont'.ch, RIGHT_RECV)
  {
    hide PledgeAllows, Meet, Mask, Holds;
    if Next(s, step).shards[a].cont.InRecv? && s.shards[a].cont != Next(s, step).shards[a].cont {
      assert step.Syscall? && step.call.Recv? && s.current == Some(a);
      assert step.call.ch % 0x1_0000_0000 == step.call.ch;
    }
  }

  lemma RecvRightIsInherited(x: bv16, y: bv16)
    requires Within(x, y)
    ensures x & RIGHT_RECV == RIGHT_RECV ==> y & RIGHT_RECV == RIGHT_RECV
  {
    assert x & y == x && x & 2 == 2 ==> y & 2 == 2;
  }

  predicate CanReceive(c: Cap) {
    c.Cap? && c.kind == CAP_CHANNEL && c.rights & RIGHT_RECV == RIGHT_RECV
  }

  predicate CanGrant(c: Cap) {
    c.Cap? && c.kind == CAP_CHANNEL && c.rights & RIGHT_GRANT != 0
  }

  ghost predicate NobodyGrantsReceiving(s: State) {
    forall i, k :: 0 <= i < |s.shards| && 0 <= k < |s.shards[i].caps| ==>
      !(CanReceive(s.shards[i].caps[k]) && CanGrant(s.shards[i].caps[k]))
  }

  ghost predicate MayNotReceive(s: State, a: nat) {
    a < |s.shards| && forall k :: 0 <= k < |s.shards[a].caps| ==> !CanReceive(s.shards[a].caps[k])
  }

  lemma RightsAreInherited(x: bv16, y: bv16)
    requires Within(x, y)
    ensures x & RIGHT_RECV == RIGHT_RECV ==> y & RIGHT_RECV == RIGHT_RECV
    ensures x & RIGHT_GRANT != 0 ==> y & RIGHT_GRANT != 0
  {
    assert x & y == x && x & 2 == 2 ==> y & 2 == 2;
    assert x & y == x && x & 4 != 0 ==> y & 4 != 0;
  }

  /** Receiving can only be taken away where no capability allows both receiving and granting. */
  lemma ReceiveRightsStep(s: State, step: Step, a: nat)
    requires Inv(s) && Enabled(s, step) && WellFormed(Next(s, step)) && NobodyGrantsReceiving(s) && MayNotReceive(s, a)
    ensures NobodyGrantsReceiving(Next(s, step)) && MayNotReceive(Next(s, step), a)
  {
    hide Next;
    var s' := Next(s, step);
    forall i, k | 0 <= i < MAX_SHARDS && 0 <= k < MAX_CAPS
      ensures !(CanReceive(s'.shards[i].caps[k]) && CanGrant(s'.shards[i].caps[k]))
      ensures i == a ==> !CanReceive(s'.shards[i].caps[k])
    {
      if s'.shards[i].caps[k].Cap? {
        var i0, k0 := CapOrigin(s, step, i, k);
        RightsAreInherited(s'.shards[i].caps[k].rights, s.shards[i0].caps[k0].rights);
        assert !(CanReceive(s.shards[i0].caps[k0]) && CanGrant(s.shards[i0].caps[k0]));
        assert i0 == a ==> !CanReceive(s.shards[i0].caps[k0]);
      }
    }
  }

  /** A shard that may not receive, where nobody can grant receiving, never enters a receive. */
  lemma {:induction false} NeverReceives(r: Run, i: nat, a: nat)
    requires IsRun(r) && i < |r.states| && NobodyGrantsReceiving(r.states[0]) && MayNotReceive(r.states[0], a)
    ensures WellFormed(r.states[i]) && a < MAX_SHARDS && !r.states[i].shards[a].cont.InRecv?
    ensures NobodyGrantsReceiving(r.states[i]) && MayNotReceive(r.states[i], a)
  {
    hide Next, CanReceive, CanGrant;
    InvariantHolds(r, i);
    if i != 0 {
      NeverReceives(r, i - 1, a);
      InvariantHolds(r, i - 1);
      ReceiveRightsStep(r.states[i - 1], r.steps[i - 1], a);
      RecvNeedsRight(r.states[i - 1], r.steps[i - 1], a);
      NoRightNoHold(r.states[i - 1], a, r.states[i].shards[a].cont);
    }
  }

  lemma NoRightNoHold(s: State, a: nat, cont: Continuation)
    requires MayNotReceive(s, a)
    ensures cont.InRecv? ==> !Holds(s.shards[a].caps, CAP_CHANNEL, cont.ch, RIGHT_RECV)
  {
    forall k | 0 <= k < |s.shards[a].caps| && cont.InRecv? ensures !Grants(s.shards[a].caps[k], CAP_CHANNEL, cont.ch, RIGHT_RECV) {
      assert !CanReceive(s.shards[a].caps[k]);
    }
  }

  // ------------------------------------------------------------------ leaving

  /** A shard that has left never comes back: it neither runs nor waits, for the rest of the run. */
  lemma {:induction false} LeavingIsFinal(r: Run, a: nat, b: nat, i: nat)
    requires IsRun(r) && a <= b < |r.states| && i < MAX_SHARDS && WellFormed(r.states[a])
    requires r.states[a].shards[i].state.Exited? || r.states[a].shards[i].state.Destroyed?
    ensures WellFormed(r.states[b]) && (r.states[b].shards[i].state.Exited? || r.states[b].shards[i].state.Destroyed?)
    decreases b
  {
    hide Next, Init;
    InvariantHolds(r, b);
    if a < b {
      LeavingIsFinal(r, a, b - 1, i);
      RunStep(r, b - 1);
      LeftStep(r.states[b - 1], r.steps[b - 1], i);
    }
  }

  lemma LeftStep(s: State, step: Step, i: nat)
    requires Inv(s) && Enabled(s, step) && i < MAX_SHARDS && WellFormed(Next(s, step))
    requires s.shards[i].state.Exited? || s.shards[i].state.Destroyed?
    ensures Next(s, step).shards[i].state.Exited? || Next(s, step).shards[i].state.Destroyed?
  {
    hide PledgeAllows, Holds, Meet, Mask;
    assert RecvOk(s, i);
  }

  /** An exit or a fault ends the shard that was running and nobody else, at once. */
  lemma LeavingStep(s: State, step: Step, i: nat)
    requires Inv(s) && Enabled(s, step) && i < MAX_SHARDS && WellFormed(Next(s, step))
    requires step.Fault? || step == Syscall(Exit)
    ensures s.current == Some(i) ==> Next(s, step).shards[i].state.Exited?
    ensures s.current != Some(i) ==> Next(s, step).shards[i] == s.shards[i]
    ensures Next(s, step).channels == s.channels
  {}

  /** A kernel that has finished has only free and destroyed slots, and the destroyed hold nothing. */
  lemma FinishedHoldsNothing(s: State, step: Step, i: nat, k: nat)
    requires WellFormed(s) && Enabled(s, step) && Next(s, step).mode.Finished?
    requires i < |Next(s, step).shards| && k < |Next(s, step).shards[i].caps| && Next(s, step).shards[i].caps[k].Cap?
    ensures s.shards[i].state.Free? || s.shards[i].state.Destroyed?
    ensures Next(s, step).shards[i] == s.shards[i]
  {
    hide PledgeAllows, Holds, Meet, Mask;
    assert step.NothingReady? && AllDone(s.shards);
  }

  // ------------------------------------------------------------------ pledges

  lemma UnrestrictedMeet(p: bv64, m: bv64)
    ensures Mask(p, m) == UNRESTRICTED <==> p == UNRESTRICTED && m == UNRESTRICTED
    ensures p == UNRESTRICTED ==> Mask(p, m) == m
    ensures m == UNRESTRICTED ==> Mask(p, m) == p
  {}

  lemma BitsMeet(p: bv64, m: bv64)
    ensures Mask(p, m) & 1 != 0 <==> p & 1 != 0 && m & 1 != 0
    ensures Mask(p, m) & 2 != 0 <==> p & 2 != 0 && m & 2 != 0
    ensures Mask(p, m) & 4 != 0 <==> p & 4 != 0 && m & 4 != 0
    ensures Mask(p, m) & 8 != 0 <==> p & 8 != 0 && m & 8 != 0
  {}

  /** Two pledges allow exactly what both allow. */
  lemma PledgesCompose(p: bv64, m: bv64, nr: nat)
    ensures PledgeAllows(Mask(p, m), nr) <==> PledgeAllows(p, nr) && PledgeAllows(m, nr)
  {
    hide Mask;
    UnrestrictedMeet(p, m);
    BitsMeet(p, m);
  }

  lemma MaskedPledgeAllowsLess(p: bv64, m: bv64, nr: nat)
    requires PledgeAllows(Mask(p, m), nr)
    ensures PledgeAllows(p, nr)
  {
    hide PledgeAllows, Mask;
    PledgesCompose(p, m, nr);
  }

  /** A system call denied by a shard's pledge stays denied for the rest of the run. */
  lemma {:induction false} PledgesNeverLoosen(r: Run, a: nat, b: nat, i: nat, nr: nat)
    requires IsRun(r) && a <= b < |r.states| && i < MAX_SHARDS
    ensures WellFormed(r.states[a]) && WellFormed(r.states[b])
    ensures PledgeAllows(r.states[b].shards[i].pledge, nr) ==> PledgeAllows(r.states[a].shards[i].pledge, nr)
    decreases b
  {
    hide Next;
    InvariantHolds(r, a);
    InvariantHolds(r, b);
    if a < b {
      PledgesNeverLoosen(r, a, b - 1, i, nr);
      PledgeStep(r.states[b - 1], r.steps[b - 1], i, nr);
    }
  }

  lemma PledgeStep(s: State, step: Step, i: nat, nr: nat)
    requires WellFormed(s) && Enabled(s, step) && i < MAX_SHARDS && WellFormed(Next(s, step))
    ensures PledgeAllows(Next(s, step).shards[i].pledge, nr) ==> PledgeAllows(s.shards[i].pledge, nr)
  {
    hide PledgeAllows, Mask;
    var p, p' := s.shards[i].pledge, Next(s, step).shards[i].pledge;
    if p' != p {
      assert step.Syscall? && step.call.Pledge? && p' == Mask(p, step.call.mask);
      if PledgeAllows(p', nr) { MaskedPledgeAllowsLess(p, step.call.mask, nr); }
    }
  }
}
