/** What the capability and pledge calls do, said entry by entry and right by right: who holds what after
    each of them, in terms of who held what before. */
module KernelCalls {
  import opened Bytes
  import opened Bitmap
  import opened Kernel

  /** `rights` includes all of `x`; with one bit in `x`, that right. */
  predicate Carries(rights: bv16, x: bv16) {
    rights & x == x
  }

  /** Nothing but entry `k` of the table of shard `i` differs. */
  ghost predicate OnlyEntry(s: State, s': State, i: nat, k: nat) {
    && s' == s.(shards := s'.shards) && |s'.shards| == |s.shards|
    && (forall j: nat :: j < |s.shards| ==>
          && s'.shards[j] == s.shards[j].(caps := s'.shards[j].caps) && |s'.shards[j].caps| == |s.shards[j].caps|
          && forall l: nat :: l < |s.shards[j].caps| && !(j == i && l == k) ==> s'.shards[j].caps[l] == s.shards[j].caps[l])
  }

  /** `c` is for the same resource as `p` and carries exactly the rights of `p` that are in `mask`. */
  ghost predicate Narrowed(c: Cap, p: Cap, mask: bv16) {
    && c.Cap? && p.Cap? && c.kind == p.kind && c.resource == p.resource
    && forall x: bv16 :: Carries(c.rights, x) <==> Carries(p.rights, x) && Carries(mask, x)
  }

  lemma MeetCarriesLess(r: bv16, m: bv16, x: bv16)
    requires Carries(Meet(r, m), x)
    ensures Carries(r, x) && Carries(m, x)
  {}

  lemma MeetCarriesMore(r: bv16, m: bv16, x: bv16)
    requires Carries(r, x) && Carries(m, x)
    ensures Carries(Meet(r, m), x)
  {}

  lemma MeetCarries(r: bv16, m: bv16, x: bv16)
    ensures Carries(Meet(r, m), x) <==> Carries(r, x) && Carries(m, x)
  {
    hide Meet, Carries;
    if Carries(Meet(r, m), x) { MeetCarriesLess(r, m, x); }
    if Carries(r, x) && Carries(m, x) { MeetCarriesMore(r, m, x); }
  }

  lemma MeetNarrows(p: Cap, mask: bv16)
    requires p.Cap?
    ensures Narrowed(p.(rights := Meet(p.rights, mask)), p, mask)
  {
    forall x: bv16 ensures Carries(Meet(p.rights, mask), x) <==> Carries(p.rights, x) && Carries(mask, x) {
      MeetCarries(p.rights, mask, x);
    }
  }

  /** Nothing but its own narrowing satisfies this: the rights are determined. */
  lemma NarrowedIsUnique(c: Cap, d: Cap, p: Cap, mask: bv16)
    requires Narrowed(c, p, mask) && Narrowed(d, p, mask)
    ensures c == d
  {
    var x, y := c.rights, d.rights;
    assert x & x == x && y & y == y;
    assert Carries(c.rights, x) && Carries(d.rights, y);
    assert Carries(d.rights, x) && Carries(c.rights, y);
    assert y & x == x && x & y == y ==> x == y;
  }

  /** After a restrict the entry carries a right exactly if it did before and the mask has it, and no other
      entry of any shard has changed. */
  lemma RestrictIsExact(s: State, id: nat, handle: nat, mask: bv16)
    requires WellFormed(s) && id < MAX_SHARDS && s.shards[id].pledge == UNRESTRICTED
    requires handle < MAX_CAPS && s.shards[id].caps[handle].Cap?
    ensures var s' := Dispatch(s, id, Restrict(handle, mask));
            OnlyEntry(s, s', id, handle) && Narrowed(s'.shards[id].caps[handle], s.shards[id].caps[handle], mask)
  {
    hide Meet, Narrowed;
    MeetNarrows(s.shards[id].caps[handle], mask);
  }

  /** A restrict of nothing does nothing. */
  lemma RestrictNeedsEntry(s: State, id: nat, handle: nat, mask: bv16)
    requires WellFormed(s) && id < MAX_SHARDS && (handle < MAX_CAPS ==> s.shards[id].caps[handle].Empty?)
    ensures Dispatch(s, id, Restrict(handle, mask)) == s
  {}

  /** After a revoke the slot is empty, and no other entry of any shard has changed. */
  lemma RevokeIsExact(s: State, id: nat, handle: nat)
    requires WellFormed(s) && id < MAX_SHARDS && s.shards[id].pledge == UNRESTRICTED
    ensures var s' := Dispatch(s, id, Revoke(handle));
            && OnlyEntry(s, s', id, handle)
            && (handle < MAX_CAPS ==> s'.shards[id].caps[handle].Empty?)
            && (handle >= MAX_CAPS ==> s' == s)
  {}

  /** What a grant needs: a target that has not finished, a capability to copy, for a channel with the right
      to grant it, and room. */
  ghost predicate MayGrant(s: State, id: nat, handle: nat, target: nat)
    requires WellFormed(s) && id < MAX_SHARDS
  {
    && target < MAX_SHARDS && handle < MAX_CAPS && s.shards[target].state in {Ready, Running, Blocked}
    && var p := s.shards[id].caps[handle];
       && p.Cap? && (p.kind == CAP_CHANNEL ==> Carries(p.rights, RIGHT_GRANT))
       && exists k: nat :: k < MAX_CAPS && s.shards[target].caps[k].Empty?
  }

  /** `grant_copy` grants exactly when it may, and then a narrowed copy. */
  lemma GrantFacts(s: State, id: nat, handle: nat, target: nat, mask: bv16)
    requires WellFormed(s) && id < MAX_SHARDS
    ensures MayGrant(s, id, handle, target) <==>
              Granted(s, id, handle, target, mask).Some? && exists k: nat :: FirstEmpty(s.shards[target].caps, k)
    ensures MayGrant(s, id, handle, target) ==> Narrowed(Granted(s, id, handle, target, mask).value, s.shards[id].caps[handle], mask)
  {
    hide Meet, Narrowed;
    GrantBit(s, id, handle);
    if MayGrant(s, id, handle, target) {
      var slot := TheFirstEmpty(s.shards[target].caps);
      MeetNarrows(s.shards[id].caps[handle], mask);
    }
  }

  /** A grant that may be made puts a copy into the first empty slot of the target; it carries a right
      exactly if the original does and the mask has it. No other entry of any shard changes, and a grant
      that may not be made changes nothing. */
  lemma GrantIsExact(s: State, id: nat, handle: nat, target: nat, mask: bv16) returns (slot: nat)
    requires WellFormed(s) && id < MAX_SHARDS && s.shards[id].pledge == UNRESTRICTED
    ensures var s' := Dispatch(s, id, Grant(handle, target, mask));
            if MayGrant(s, id, handle, target)
            then FirstEmpty(s.shards[target].caps, slot) && OnlyEntry(s, s', target, slot)
                 && Narrowed(s'.shards[target].caps[slot], s.shards[id].caps[handle], mask)
            else s' == s
  {
    hide Meet, Narrowed;
    slot := 0;
    GrantBit(s, id, handle);
    if MayGrant(s, id, handle, target) {
      slot := TheFirstEmpty(s.shards[target].caps);
      MeetNarrows(s.shards[id].caps[handle], mask);
    }
  }

  lemma GrantBit(s: State, id: nat, handle: nat)
    requires WellFormed(s) && id < MAX_SHARDS
    ensures handle < MAX_CAPS && s.shards[id].caps[handle].Cap? ==>
              var r := s.shards[id].caps[handle].rights;
              r & RIGHT_GRANT == 0 <==> !Carries(r, RIGHT_GRANT)
  {
    if handle < MAX_CAPS && s.shards[id].caps[handle].Cap? {
      var r := s.shards[id].caps[handle].rights;
      assert r & 4 == 0 || r & 4 == 4;
    }
  }

  lemma TheFirstEmpty(caps: seq<Cap>) returns (slot: nat)
    requires exists k: nat :: k < |caps| && caps[k].Empty?
    ensures FirstEmpty(caps, slot) && forall k: nat :: FirstEmpty(caps, k) ==> k == slot
  {
    slot := 0;
    while !caps[slot].Empty?
      invariant slot < |caps| && forall j :: 0 <= j < slot ==> caps[j].Cap?
      invariant exists k: nat :: slot <= k < |caps| && caps[k].Empty?
      decreases |caps| - slot
    {
      slot := slot + 1;
    }
  }

  // ------------------------------------------------------------------ switching

  /** A yield and the timer send the running shard back among the ready ones and start the scheduler; nothing else
      changes. */
  lemma SwitchIsExact(s: State, step: Step)
    requires Inv(s) && Enabled(s, step) && (step.Timer? || step == Syscall(Yield))
    ensures var id, s' := s.current.value, Next(s, step);
            s' == s.(shards := s.shards[id := s.shards[id].(state := Ready)], mode := Mode.Supervisor)
  {}

  /** The scheduler starts the shard it picks, and nothing else changes. */
  lemma StartIsExact(s: State, id: nat)
    requires Inv(s) && Enabled(s, Schedule(id))
    ensures id < MAX_SHARDS && s.shards[id].state.Ready?
    ensures Next(s, Schedule(id)) ==
            s.(shards := s.shards[id := s.shards[id].(state := Running)], current := Some(id), last := id, mode := InShard)
  {}

  // ------------------------------------------------------------------ messages

  /** A table entry lets its holder use channel `ch` in the way `right` says. */
  ghost predicate MayUse(s: State, id: nat, ch: nat, right: bv16)
    requires WellFormed(s) && id < MAX_SHARDS
  {
    && ch < MAX_CHANNELS && s.channels[ch].active && id in s.channels[ch].ends
    && exists k: nat :: k < MAX_CAPS && IsChannelCap(s.shards[id].caps[k], ch) && Carries(s.shards[id].caps[k].rights, right)
  }

  predicate IsChannelCap(c: Cap, ch: nat) {
    c.Cap? && c.kind == 1 && c.resource == ch
  }

  lemma EndpointIsEnd(c: Channel, id: nat)
    requires |c.ends| == 2
    ensures EndpointOf(c, id).Some? <==> id in c.ends
  {}

  lemma UseIsHolding(s: State, id: nat, ch: nat, right: bv16)
    requires WellFormed(s) && id < MAX_SHARDS && ch < MAX_CHANNELS && s.channels[ch].active
    ensures MayUse(s, id, ch, right) <==>
              Holds(s.shards[id].caps, CAP_CHANNEL, ch % 0x1_0000_0000, right) && EndpointOf(s.channels[ch], id).Some?
  {
    hide EndpointOf;
    EndpointIsEnd(s.channels[ch], id);
    var caps := s.shards[id].caps;
    assert ch % 0x1_0000_0000 == ch;
    if MayUse(s, id, ch, right) {
      var k: nat :| k < MAX_CAPS && IsChannelCap(caps[k], ch) && Carries(caps[k].rights, right);
      assert Grants(caps[k], CAP_CHANNEL, ch, right);
    }
    if Holds(caps, CAP_CHANNEL, ch, right) {
      var k :| 0 <= k < |caps| && Grants(caps[k], CAP_CHANNEL, ch, right);
      assert IsChannelCap(caps[k], ch) && Carries(caps[k].rights, right);
    }
  }

  /** A send puts its bytes into the channel for the other endpoint exactly if the caller is an endpoint of an
      active channel, holds the right to send on it, and passes 1 to 256 valid bytes. A peer that waits on this
      channel becomes ready, and nothing else changes. */
  lemma SendIsExact(s: State, id: nat, ch: nat, payload: seq<byte>, buf: bool)
    requires WellFormed(s) && id < MAX_SHARDS && s.shards[id].pledge == UNRESTRICTED
    ensures var s' := Dispatch(s, id, Send(ch, payload, buf));
            if ch < MAX_CHANNELS && MayUse(s, id, ch, 1) && 0 < |payload| <= 256 && buf
            then var peer := if s.channels[ch].ends[0] == id then 1 else 0;
                 var other := s.channels[ch].ends[peer];
                 var waits := s.shards[other].state.Blocked? && s.shards[other].blockedOn == Some(ch);
                 && s' == s.(channels := s'.channels, shards := s'.shards) && |s'.channels| == |s.channels| && |s'.shards| == |s.shards|
                 && s'.channels[ch].Pending(peer) && s'.channels[ch].msgLen == |payload| <= |s'.channels[ch].buffer|
                 && s'.channels[ch].buffer[..|payload|] == payload && s'.channels[ch].ends == s.channels[ch].ends && s'.channels[ch].active
                 && (forall c: nat :: c < MAX_CHANNELS && c != ch ==> s'.channels[c] == s.channels[c])
                 && s'.shards[other] == (if waits then s.shards[other].(state := Ready, blockedOn := None) else s.shards[other])
                 && (forall i: nat :: i < MAX_SHARDS && i != other ==> s'.shards[i] == s.shards[i])
            else s' == s
  {
    hide Holds, MayUse;
    if ch < MAX_CHANNELS && s.channels[ch].active { UseIsHolding(s, id, ch, 1); }
    NeedsActive(s, id, ch, 1);
    if SendAccepted(s, id, ch, payload, buf) {
      var b := payload + s.channels[ch].buffer[|payload|..];
      assert b[..|payload|] == payload;
    }
  }

  lemma NeedsActive(s: State, id: nat, ch: nat, right: bv16)
    requires WellFormed(s) && id < MAX_SHARDS
    ensures MayUse(s, id, ch, right) ==> ch < MAX_CHANNELS && s.channels[ch].active
  {}

  /** A receive by an endpoint that holds the right takes the message that is there for it, or makes it wait; any
      other receive does nothing. */
  lemma RecvIsExact(s: State, id: nat, ch: nat, max: nat, buf: bool)
    requires WellFormed(s) && id < MAX_SHARDS && s.shards[id].pledge == UNRESTRICTED
    ensures var s' := Dispatch(s, id, Recv(ch, max, buf));
            if ch < MAX_CHANNELS && MayUse(s, id, ch, 2) && 0 < max <= 256 && buf
            then var me := if s.channels[ch].ends[0] == id then 0 else 1;
                 if s.channels[ch].Pending(me)
                 then s' == s.(channels := s.channels[ch := s.channels[ch].(msgLen := 0)])
                 else s' == s.(mode := Mode.Supervisor, shards := s.shards[id := s.shards[id].(
                              state := Blocked, blockedOn := Some(ch), cont := InRecv(ch, me, max))])
            else s' == s
  {
    hide Holds, MayUse;
    if ch < MAX_CHANNELS && s.channels[ch].active { UseIsHolding(s, id, ch, 2); }
    NeedsActive(s, id, ch, 2);
  }

  // ------------------------------------------------------------------ pledges

  /** The bit of a pledge that a system call asks for, by number: serial output, channels, copies and the
      cycle counter. */
  function PledgeBit(nr: nat): Option<nat> {
    match nr
    case 1 => Some(0)
    case 21 => Some(1)
    case 22 => Some(1)
    case 40 => Some(2)
    case 71 => Some(3)
    case _ => None
  }

  predicate HasBit(p: bv64, b: nat)
    requires b < 64
  {
    (p >> b) & 1 == 1
  }

  /** Exit, yield, pledge, unveil and mmap. */
  predicate AlwaysAllowed(nr: nat) {
    nr == 0 || nr == 62 || 41 <= nr <= 43
  }

  /** After an unrestricted shard has pledged, a call is allowed exactly if it always is, or its own bit is
      in the pledge; the pledge of all bits is none. Nothing else changes, and no other shard. */
  lemma PledgeIsExact(s: State, id: nat, mask: bv64, nr: nat)
    requires WellFormed(s) && id < MAX_SHARDS && s.shards[id].pledge == UNRESTRICTED
    ensures var s' := Dispatch(s, id, Pledge(mask));
            && |s'.shards| == |s.shards| && s' == s.(shards := s.shards[id := s.shards[id].(pledge := s'.shards[id].pledge)])
            && (PledgeAllows(s'.shards[id].pledge, nr) <==>
                  || mask == UNRESTRICTED || AlwaysAllowed(nr)
                  || (PledgeBit(nr).Some? && HasBit(mask, PledgeBit(nr).value)))
  {
    BitsOf(mask);
    assert UNRESTRICTED & mask == mask;
  }

  lemma BitsOf(p: bv64)
    ensures HasBit(p, 0) <==> p & 1 != 0
    ensures HasBit(p, 1) <==> p & 2 != 0
    ensures HasBit(p, 2) <==> p & 4 != 0
    ensures HasBit(p, 3) <==> p & 8 != 0
  {}

  function WithPledge(s: State, id: nat, p: bv64): State
    requires id < |s.shards|
  {
    s.(shards := s.shards[id := s.shards[id].(pledge := p)])
  }

  /** The calls that a pledged shard may not make: on channels without the bit for them, and all on
      capabilities. */
  predicate Barred(p: bv64, call: Call) {
    p != UNRESTRICTED && (((call.Send? || call.Recv?) && !HasBit(p, 1)) || call.Grant? || call.Revoke? || call.Restrict?)
  }

  /** The effect of a call if the caller had not pledged. */
  ghost function Unfiltered(s: State, id: nat, call: Call): State
    requires WellFormed(s) && id < MAX_SHARDS
  {
    Dispatch(WithPledge(s, id, UNRESTRICTED), id, call)
  }

  /** A pledge filters and does nothing else: a call of a pledged shard has the effect it has without a
      pledge, or is barred and has none. */
  lemma PledgeOnlyFilters(s: State, id: nat, call: Call)
    requires WellFormed(s) && id < MAX_SHARDS && !call.Pledge?
    ensures |Unfiltered(s, id, call).shards| == MAX_SHARDS
    ensures Dispatch(s, id, call) ==
            if Barred(s.shards[id].pledge, call) then s else WithPledge(Unfiltered(s, id, call), id, s.shards[id].pledge)
  {
    hide Holds, Meet, Dispatch, Unfiltered, Barred, HasBit;
    if s.shards[id].pledge == UNRESTRICTED { NoPledgeNoFilter(s, id, call); }
    else if call.Send? { SendUnderPledge(s, id, call); }
    else if call.Recv? { RecvUnderPledge(s, id, call); }
    else { OthersUnderPledge(s, id, call); }
  }

  lemma NoPledgeNoFilter(s: State, id: nat, call: Call)
    requires WellFormed(s) && id < MAX_SHARDS && !call.Pledge? && s.shards[id].pledge == UNRESTRICTED
    ensures !Barred(s.shards[id].pledge, call) && Unfiltered(s, id, call) == Dispatch(s, id, call)
    ensures |Dispatch(s, id, call).shards| == MAX_SHARDS
    ensures WithPledge(Dispatch(s, id, call), id, UNRESTRICTED) == Dispatch(s, id, call)
  {
    hide Holds, Meet, PledgeAllows;
    assert WithPledge(s, id, UNRESTRICTED) == s;
  }

  lemma SendUnderPledge(s: State, id: nat, call: Call)
    requires WellFormed(s) && id < MAX_SHARDS && call.Send? && s.shards[id].pledge != UNRESTRICTED
    ensures |Unfiltered(s, id, call).shards| == MAX_SHARDS
    ensures Dispatch(s, id, call) ==
            if Barred(s.shards[id].pledge, call) then s else WithPledge(Unfiltered(s, id, call), id, s.shards[id].pledge)
  {
    hide Holds, Deliver, EndpointOf;
    BitsOf(s.shards[id].pledge);
    var p, u := s.shards[id].pledge, WithPledge(s, id, UNRESTRICTED);
    assert WithPledge(u, id, p) == s;
    if SendAccepted(s, id, call.ch, call.payload, call.buf) {
      SendIgnoresPledge(s, id, call.ch, call.payload, p);
    }
  }

  lemma SendIgnoresPledge(s: State, id: nat, ch: nat, payload: seq<byte>, p: bv64)
    requires WellFormed(s) && id < MAX_SHARDS && ch < MAX_CHANNELS && s.channels[ch].active
    requires EndpointOf(s.channels[ch], id).Some? && 0 < |payload| <= MAX_MSG_SIZE && s.shards[id].pledge == p
    ensures |Deliver(WithPledge(s, id, UNRESTRICTED), id, ch, payload).shards| == MAX_SHARDS
    ensures Deliver(s, id, ch, payload) == WithPledge(Deliver(WithPledge(s, id, UNRESTRICTED), id, ch, payload), id, p)
  {
    assert Deliver(s, id, ch, payload).shards == WithPledge(Deliver(WithPledge(s, id, UNRESTRICTED), id, ch, payload), id, p).shards;
  }

  lemma RecvUnderPledge(s: State, id: nat, call: Call)
    requires WellFormed(s) && id < MAX_SHARDS && call.Recv? && s.shards[id].pledge != UNRESTRICTED
    ensures |Unfiltered(s, id, call).shards| == MAX_SHARDS
    ensures Dispatch(s, id, call) ==
            if Barred(s.shards[id].pledge, call) then s else WithPledge(Unfiltered(s, id, call), id, s.shards[id].pledge)
  {
    hide Holds, EndpointOf;
    BitsOf(s.shards[id].pledge);
    var p, u := s.shards[id].pledge, WithPledge(s, id, UNRESTRICTED);
    assert WithPledge(u, id, p) == s;
    assert WithPledge(Unfiltered(s, id, call), id, p).shards == Dispatch(s, id, call).shards || Barred(p, call);
  }

  lemma OthersUnderPledge(s: State, id: nat, call: Call)
    requires WellFormed(s) && id < MAX_SHARDS && s.shards[id].pledge != UNRESTRICTED
    requires !call.Pledge? && !call.Send? && !call.Recv?
    ensures |Unfiltered(s, id, call).shards| == MAX_SHARDS
    ensures Dispatch(s, id, call) ==
            if Barred(s.shards[id].pledge, call) then s else WithPledge(Unfiltered(s, id, call), id, s.shards[id].pledge)
  {
    hide Holds, Meet, HasBit;
    var p, u := s.shards[id].pledge, WithPledge(s, id, UNRESTRICTED);
    assert WithPledge(u, id, p) == s;
    assert !Barred(p, call) ==> WithPledge(Unfiltered(s, id, call), id, p).shards == Dispatch(s, id, call).shards;
  }
}
