/** Two shards, one single-slot channel: the two stages of llama-pipeline under every interleaving,
    against the sequential token loop. */
module Pipeline {
  import opened Bytes
  import opened Kernel
  import opened Transformer
  import opened Inference

  // ------------------------------------------------------------------ messages

  /** The four bytes of a float in memory. */
  datatype Codec<!F> = Codec(enc: F -> seq<byte>, dec: seq<byte> -> F)

  ghost predicate IsCodec<F(!new)>(c: Codec<F>) {
    forall f: F {:trigger c.enc(f)} :: |c.enc(f)| == 4 && c.dec(c.enc(f)) == f
  }

  ghost function EncodeVec<F(!new)>(c: Codec<F>, x: seq<F>): (b: seq<byte>)
    requires IsCodec(c)
    ensures |b| == 4 * |x|
  {
    seq(4 * |x|, j requires 0 <= j < 4 * |x| => c.enc(x[j / 4])[j % 4])
  }

  function DecodeVec<F>(c: Codec<F>, b: seq<byte>): (x: seq<F>)
    requires |b| % 4 == 0
    ensures |x| == |b| / 4
  {
    seq(|b| / 4, i requires 0 <= i < |b| / 4 => c.dec(b[4 * i..4 * i + 4]))
  }

  lemma DecodeEncode<F(!new)>(c: Codec<F>, x: seq<F>)
    requires IsCodec(c)
    ensures DecodeVec(c, EncodeVec(c, x)) == x
  {
    var b := EncodeVec(c, x);
    forall i | 0 <= i < |x| ensures b[4 * i..4 * i + 4] == c.enc(x[i]) {
      forall k | 0 <= k < 4 ensures b[4 * i + k] == c.enc(x[i])[k] {
        assert (4 * i + k) / 4 == i && (4 * i + k) % 4 == k;
      }
    }
  }

  /** A receive copies the message over the start of the buffer. */
  function Overlay(buf: seq<byte>, msg: seq<byte>): (r: seq<byte>)
    requires |msg| <= |buf|
    ensures |r| == |buf|
  {
    msg + buf[|msg|..]
  }

  // ------------------------------------------------------------------ the two stages

  /** What the stages agree on: the model, the split after layer `k`, and the token count. */
  datatype Job<!F(!new)> = Job(m: Model<F>, codec: Codec<F>, k: nat, n: nat) {
    /** The split is one of layers, a token fits an int, and every position the caches. */
    ghost predicate Sound() {
      m.Valid() && IsCodec(codec) && k <= m.cfg.nLayers && n <= m.cfg.seqLen && m.cfg.vocab <= 0x8000_0000
    }

    /** Moreover an activation fits one message. */
    ghost predicate Valid() {
      Sound() && 4 * m.cfg.dim <= MAX_MSG_SIZE
    }
  }

  /** Before a forward pass, before a send, before a receive, blocked in a receive, woken in a
      receive, or past the loop. */
  datatype Pc = Work | Sending | Receiving | Waiting | Woken | Done

  datatype Stage<F> = Stage(pc: Pc, pos: nat, token: nat, x: seq<F>, caches: seq<Cache<F>>, out: seq<nat>)

  /** Stage 0 is endpoint 0 of the channel, stage 1 endpoint 1. */
  datatype Net<F> = Net(zero: Stage<F>, one: Stage<F>, ch: Channel)

  ghost predicate Shaped<F(!new)>(j: Job<F>, s: Net<F>)
    requires j.Sound()
  {
    && |s.zero.x| == |s.one.x| == j.m.cfg.dim
    && |s.zero.caches| == j.k && |s.one.caches| == j.m.cfg.nLayers - j.k
    && |s.ch.buffer| == MAX_MSG_SIZE && s.ch.msgLen <= MAX_MSG_SIZE
    && s.one.token < j.m.cfg.vocab
    && (s.zero.pc.Work? ==> s.zero.token < j.m.cfg.vocab && s.zero.pos < j.n && Caches(j.m, s.zero.pos, s.zero.caches))
    && (s.one.pc.Work? ==> s.one.pos < j.n && Caches(j.m, s.one.pos, s.one.caches))
  }

  predicate Enabled(pc: Pc) {
    !pc.Waiting? && !pc.Done?
  }

  /** A message that is not rejected wakes a waiting receiver. */
  function WakeBy(msg: seq<byte>, pc: Pc): Pc {
    if pc.Waiting? && 0 < |msg| <= MAX_MSG_SIZE then Woken else pc
  }

  /** `channel::send` on this channel: rejected sends change nothing. */
  function Put(ch: Channel, payload: seq<byte>, to: nat): Channel
    requires |ch.buffer| == MAX_MSG_SIZE
  {
    if 0 < |payload| <= MAX_MSG_SIZE then ch.Fill(payload, to) else ch
  }

  function LoopPc(n: nat, pos: nat, first: Pc): Pc {
    if pos < n then first else Done
  }

  /** The end of stage 0's loop body, with the bytes received into `next_token`. */
  function TokenArrived<F>(n: nat, z: Stage<F>, msg: seq<byte>): Stage<F>
    requires |msg| <= 4
  {
    var t := Le32(Overlay([0, 0, 0, 0], msg));
    z.(token := t, out := z.out + [t], pos := z.pos + 1, pc := LoopPc(n, z.pos + 1, Work))
  }

  ghost function ZeroStep<F(!new)>(j: Job<F>, s: Net<F>): Net<F>
    requires j.Sound() && Shaped(j, s) && Enabled(s.zero.pc)
  {
    var z := s.zero;
    match z.pc
    case Work =>
      var e := Embed(j.m, z.token);
      s.(zero := z.(x := Activation(j.m, z.pos, e, 0, z.caches), caches := NewCaches(j.m, z.pos, e, 0, z.caches), pc := Sending))
    case Sending =>
      var msg := EncodeVec(j.codec, z.x);
      s.(zero := z.(pc := Receiving), one := s.one.(pc := WakeBy(msg, s.one.pc)), ch := Put(s.ch, msg, 1))
    case Receiving =>
      if s.ch.Pending(0) then s.(zero := TokenArrived(j.n, z, s.ch.Message(4)), ch := s.ch.Drain())
      else s.(zero := z.(pc := Waiting))
    case Woken =>
      if s.ch.Pending(0) then s.(zero := TokenArrived(j.n, z, s.ch.Message(4)), ch := s.ch.Drain())
      else s.(zero := TokenArrived(j.n, z, []))
    case _ => s
  }

  ghost function OneStep<F(!new)>(j: Job<F>, s: Net<F>): Net<F>
    requires j.Sound() && Shaped(j, s) && Enabled(s.one.pc)
  {
    var o := s.one;
    match o.pc
    case Receiving =>
      if 4 * j.m.cfg.dim > MAX_MSG_SIZE then s.(one := o.(pc := Work))
      else if s.ch.Pending(1) then ActivationArrived(j, s) else s.(one := o.(pc := Waiting))
    case Woken =>
      if 4 * j.m.cfg.dim <= MAX_MSG_SIZE && s.ch.Pending(1) then ActivationArrived(j, s) else s.(one := o.(pc := Work))
    case Work =>
      var x := Activation(j.m, o.pos, o.x, j.k, o.caches);
      s.(one := o.(x := RmsNorm(j.m.ops, x, j.m.w.rmsFinal), token := Classify(j.m, x),
                   caches := NewCaches(j.m, o.pos, o.x, j.k, o.caches), pc := Sending))
    case Sending =>
      s.(one := o.(out := o.out + [o.token], pos := o.pos + 1, pc := LoopPc(j.n, o.pos + 1, Receiving)),
         zero := s.zero.(pc := WakeBy(ToLe32(o.token), s.zero.pc)), ch := Put(s.ch, ToLe32(o.token), 0))
    case _ => s
  }

  ghost function ActivationArrived<F(!new)>(j: Job<F>, s: Net<F>): Net<F>
    requires j.Sound() && Shaped(j, s) && 4 * j.m.cfg.dim <= MAX_MSG_SIZE
  {
    var bytes := Overlay(EncodeVec(j.codec, s.one.x), s.ch.Message(4 * j.m.cfg.dim));
    s.(one := s.one.(x := DecodeVec(j.codec, bytes), pc := Work), ch := s.ch.Drain())
  }

  ghost predicate Init<F(!new)>(j: Job<F>, s: Net<F>)
    requires j.Sound()
  {
    && |s.zero.x| == |s.one.x| == j.m.cfg.dim
    && s.zero == Stage(LoopPc(j.n, 0, Work), 0, 0, s.zero.x, EmptyCaches(j.k), [])
    && s.one == Stage(LoopPc(j.n, 0, Receiving), 0, 0, s.one.x, EmptyCaches(j.m.cfg.nLayers - j.k), [])
    && |s.ch.buffer| == MAX_MSG_SIZE && s.ch.msgLen == 0
  }

  // ------------------------------------------------------------------ against the sequential loop

  /** The activation the sequential loop has after layer `k` at position `p`. */
  ghost function Mid<F(!new)>(j: Job<F>, p: nat): (x: seq<F>)
    requires j.Valid() && p < j.n
    ensures |x| == j.m.cfg.dim
  {
    var t := Generate(j.m, p);
    Activation(j.m, p, Embed(j.m, LastToken(t.tokens)), 0, t.caches[..j.k])
  }

  /** One position of the sequential loop, cut at layer `k`. */
  lemma SplitPosition<F(!new)>(j: Job<F>, p: nat)
    requires j.Valid() && p < j.n
    ensures var t, t' := Generate(j.m, p), Generate(j.m, p + 1);
            var e := Embed(j.m, LastToken(t.tokens));
            && t'.caches[..j.k] == NewCaches(j.m, p, e, 0, t.caches[..j.k])
            && t'.caches[j.k..] == NewCaches(j.m, p, Mid(j, p), j.k, t.caches[j.k..])
            && t'.tokens == t.tokens + [Classify(j.m, Activation(j.m, p, Mid(j, p), j.k, t.caches[j.k..]))]
  {
    hide Layer, Pushed, NewCaches, Activation, Classify, Embed, Generate, LastToken;
    GenerateStep(j.m, p);
    var t := Generate(j.m, p);
    var a, b := t.caches[..j.k], t.caches[j.k..];
    assert a + b == t.caches;
    var e := Embed(j.m, LastToken(t.tokens));
    SplitRange(j.m, p, e, 0, a, b);
    assert Generate(j.m, p + 1).caches == NewCaches(j.m, p, e, 0, a) + NewCaches(j.m, p, Mid(j, p), j.k, b);
  }

  ghost predicate Empty(c: Channel) {
    c.msgLen == 0
  }

  ghost predicate Carries(c: Channel, msg: seq<byte>, to: nat) {
    c.msgLen == |msg| && c.msgFor == to && |msg| <= |c.buffer| && c.buffer[..|msg|] == msg
  }

  /** Stage 1 is ready for the activation of position `p`. */
  ghost predicate OneReady<F(!new)>(j: Job<F>, o: Stage<F>, p: nat)
    requires j.Valid() && p <= j.n
  {
    o.pos == p && o.out == Generate(j.m, p).tokens && o.caches == Generate(j.m, p).caches[j.k..]
  }

  /** Where stage 1 can be while stage 0 waits for the token of position `p`. */
  ghost predicate OneServes<F(!new)>(j: Job<F>, s: Net<F>, p: nat)
    requires j.Valid() && p < j.n
  {
    var o, t' := s.one, Generate(j.m, p + 1);
    if o.pc.Work? then OneReady(j, o, p) && o.x == Mid(j, p) && Empty(s.ch) && !s.zero.pc.Woken?
    else if o.pc.Sending? then
      o.pos == p && o.out == Generate(j.m, p).tokens && o.token == t'.tokens[p] && o.caches == t'.caches[j.k..]
      && Empty(s.ch) && !s.zero.pc.Woken?
    else if o.pos == p then
      OneReady(j, o, p) && (o.pc.Receiving? || o.pc.Woken?) && Carries(s.ch, EncodeVec(j.codec, Mid(j, p)), 1) && !s.zero.pc.Woken?
    else
      OneReady(j, o, p + 1) && o.pc in {LoopPc(j.n, p + 1, Receiving), LoopPc(j.n, p + 1, Waiting)}
      && Carries(s.ch, ToLe32(t'.tokens[p]), 0) && !s.zero.pc.Waiting?
  }

  ghost predicate Inv<F(!new)>(j: Job<F>, s: Net<F>)
    requires j.Valid()
  {
    var z, p := s.zero, s.zero.pos;
    && p <= j.n && |z.x| == |s.one.x| == j.m.cfg.dim && s.one.token < j.m.cfg.vocab
    && |s.ch.buffer| == MAX_MSG_SIZE && s.ch.msgLen <= MAX_MSG_SIZE
    && z.out == Generate(j.m, p).tokens
    && match z.pc
       case Done => p == j.n && OneReady(j, s.one, p) && s.one.pc.Done? && Empty(s.ch)
                    && z.caches == Generate(j.m, p).caches[..j.k]
       case Work => p < j.n && z.token == LastToken(z.out) && z.caches == Generate(j.m, p).caches[..j.k]
                    && OneReady(j, s.one, p) && s.one.pc in {Receiving, Waiting} && Empty(s.ch)
       case Sending => p < j.n && z.x == Mid(j, p) && z.caches == Generate(j.m, p + 1).caches[..j.k]
                       && OneReady(j, s.one, p) && s.one.pc in {Receiving, Waiting} && Empty(s.ch)
       case _ => p < j.n && z.caches == Generate(j.m, p + 1).caches[..j.k] && OneServes(j, s, p)
  }

  lemma InvIsShaped<F(!new)>(j: Job<F>, s: Net<F>)
    requires j.Valid() && Inv(j, s)
    ensures Shaped(j, s)
  {
    hide Activation, NewCaches, Embed, Classify, EncodeVec, Mid, Cells;
  }

  lemma InitIsInv<F(!new)>(j: Job<F>, s: Net<F>)
    requires j.Valid() && Init(j, s)
    ensures Inv(j, s)
  {
    var cs: seq<Cache<F>> := EmptyCaches(j.m.cfg.nLayers);
    assert cs[..j.k] == EmptyCaches(j.k) && cs[j.k..] == EmptyCaches(j.m.cfg.nLayers - j.k);
    assert Generate(j.m, 0).tokens == [];
  }

  lemma FilledCarries(ch: Channel, msg: seq<byte>, to: nat)
    requires |ch.buffer| == MAX_MSG_SIZE && 0 < |msg| <= MAX_MSG_SIZE
    ensures Carries(Put(ch, msg, to), msg, to) && |Put(ch, msg, to).buffer| == MAX_MSG_SIZE
  {
    assert (msg + ch.buffer[|msg|..])[..|msg|] == msg;
  }

  lemma ZeroKeepsInv<F(!new)>(j: Job<F>, s: Net<F>)
    requires j.Valid() && Inv(j, s) && Shaped(j, s) && Enabled(s.zero.pc)
    ensures Inv(j, ZeroStep(j, s))
  {
    hide NewCaches, Activation, Generate, Embed, EncodeVec, DecodeVec;
    var z, p := s.zero, s.zero.pos;
    SplitPosition(j, p);
    match z.pc
    case Work =>
    case Sending => FilledCarries(s.ch, EncodeVec(j.codec, z.x), 1);
    case Receiving => if s.ch.Pending(0) { TokenIsReceived(j, s); }
    case Woken => TokenIsReceived(j, s);
  }

  lemma TokenIsReceived<F(!new)>(j: Job<F>, s: Net<F>)
    requires j.Valid() && Inv(j, s) && (s.zero.pc.Receiving? || s.zero.pc.Woken?)
    requires s.zero.pc.Woken? || s.ch.Pending(0)
    ensures s.ch.Pending(0) && s.zero.pos < j.n
    ensures Inv(j, s.(zero := TokenArrived(j.n, s.zero, s.ch.Message(4)), ch := s.ch.Drain()))
  {
    hide NewCaches, Activation, Generate, Embed, EncodeVec, Mid;
    var p := s.zero.pos;
    SplitPosition(j, p);
    var tok := Generate(j.m, p + 1).tokens[p];
    assert Carries(s.ch, ToLe32(tok), 0);
    assert Overlay([0, 0, 0, 0], s.ch.Message(4)) == ToLe32(tok);
  }

  lemma OneKeepsInv<F(!new)>(j: Job<F>, s: Net<F>)
    requires j.Valid() && Inv(j, s) && Shaped(j, s) && Enabled(s.one.pc)
    ensures Inv(j, OneStep(j, s))
  {
    hide NewCaches, Activation, Generate, Embed, EncodeVec, DecodeVec, Classify;
    var o, p := s.one, s.zero.pos;
    if p < j.n { SplitPosition(j, p); }
    match o.pc
    case Work =>
    case Sending => FilledCarries(s.ch, ToLe32(o.token), 0);
    case Receiving => if s.ch.Pending(1) { ActivationIsReceived(j, s); }
    case Woken => ActivationIsReceived(j, s);
  }

  lemma ActivationIsReceived<F(!new)>(j: Job<F>, s: Net<F>)
    requires j.Valid() && Inv(j, s) && Shaped(j, s) && (s.one.pc.Receiving? || s.one.pc.Woken?)
    requires s.one.pc.Woken? || s.ch.Pending(1)
    ensures s.ch.Pending(1) && Inv(j, ActivationArrived(j, s))
  {
    hide NewCaches, Activation, Generate, Embed, Mid, EncodeVec, DecodeVec;
    var p := s.zero.pos;
    var msg := EncodeVec(j.codec, Mid(j, p));
    assert Carries(s.ch, msg, 1);
    assert Overlay(EncodeVec(j.codec, s.one.x), s.ch.Message(4 * j.m.cfg.dim)) == msg;
    DecodeEncode(j.codec, Mid(j, p));
  }

  // ------------------------------------------------------------------ whole runs

  /** An interleaving: `who[i]` says whether stage 0 or stage 1 takes step `i`. */
  ghost predicate IsRun<F(!new)>(j: Job<F>, states: seq<Net<F>>, who: seq<bool>)
    requires j.Sound()
  {
    && |states| == |who| + 1 && Init(j, states[0])
    && forall i :: 0 <= i < |who| ==> Moves(j, states[i], who[i], states[i + 1])
  }

  ghost predicate Moves<F(!new)>(j: Job<F>, s: Net<F>, zero: bool, s': Net<F>)
    requires j.Sound()
  {
    && Shaped(j, s)
    && if zero then Enabled(s.zero.pc) && s' == ZeroStep(j, s) else Enabled(s.one.pc) && s' == OneStep(j, s)
  }

  function Rank(pc: Pc): nat {
    match pc
    case Receiving => 2
    case Waiting => 1
    case Woken => 1
    case Done => 0
    case Work => 4
    case Sending => 3
  }

  function RankOne(pc: Pc): nat {
    match pc
    case Receiving => 4
    case Waiting => 3
    case Woken => 3
    case Done => 0
    case Work => 2
    case Sending => 1
  }

  /** An upper bound on the steps still to come. */
  ghost function Remaining<F(!new)>(j: Job<F>, s: Net<F>): nat {
    4 * Left(j.n, s.zero.pos) + Rank(s.zero.pc) + 4 * Left(j.n, s.one.pos) + RankOne(s.one.pc)
  }

  function Left(n: nat, pos: nat): nat {
    if pos < n then n - pos else 0
  }

  lemma MoveKeepsInv<F(!new)>(j: Job<F>, s: Net<F>, zero: bool, s': Net<F>)
    requires j.Valid() && Inv(j, s) && Moves(j, s, zero, s')
    ensures Inv(j, s')
    ensures Remaining(j, s') < Remaining(j, s)
  {
    hide Inv, NewCaches, Activation, Generate, Embed, EncodeVec, DecodeVec, Classify;
    if zero { ZeroKeepsInv(j, s); } else { OneKeepsInv(j, s); }
    InvFacts(j, s);
    InvFacts(j, s');
  }

  /** What the invariant says about one state, without the sequential caches. */
  lemma InvFacts<F(!new)>(j: Job<F>, s: Net<F>)
    requires j.Valid() && Inv(j, s)
    ensures s.zero.pos <= s.one.pos <= j.n && s.one.pos <= s.zero.pos + 1
    ensures s.zero.out == Generate(j.m, s.zero.pos).tokens && s.one.out == Generate(j.m, s.one.pos).tokens
    ensures !Enabled(s.zero.pc) && !Enabled(s.one.pc) ==> s.zero.pc.Done? && s.one.pc.Done? && s.zero.pos == j.n
  {
    hide NewCaches, Activation, Generate, Embed, EncodeVec, Mid, Model.Valid;
  }

  lemma {:induction false} InvariantHolds<F(!new)>(j: Job<F>, states: seq<Net<F>>, who: seq<bool>, i: nat)
    requires j.Valid() && IsRun(j, states, who) && i < |states|
    ensures Inv(j, states[0]) && Inv(j, states[i]) && i + Remaining(j, states[i]) <= Remaining(j, states[0])
  {
    hide Inv, Remaining, Moves, Init;
    InitIsInv(j, states[0]);
    if i != 0 {
      InvariantHolds(j, states, who, i - 1);
      MoveKeepsInv(j, states[i - 1], who[i - 1], states[i]);
    }
  }

  lemma {:induction false} GeneratePrefix<F(!new)>(m: Model<F>, p: nat, n: nat)
    requires m.Valid() && p <= n <= m.cfg.seqLen
    ensures Generate(m, p).tokens <= Generate(m, n).tokens
    decreases n
  {
    hide NewCaches, Activation, Embed, Classify;
    if p < n { GeneratePrefix(m, p, n - 1); }
  }

  /** Under every interleaving both stages have emitted, at every moment, a prefix of what
      sequential inference emits, and stage 1 is never behind stage 0 nor more than one ahead. */
  lemma TokensAreSequential<F(!new)>(j: Job<F>, states: seq<Net<F>>, who: seq<bool>, i: nat)
    requires j.Valid() && IsRun(j, states, who) && i < |states|
    ensures states[i].zero.out <= states[i].one.out <= Generate(j.m, j.n).tokens
    ensures |states[i].one.out| <= |states[i].zero.out| + 1
  {
    hide Inv, Remaining, IsRun, Generate;
    InvariantHolds(j, states, who, i);
    var s := states[i];
    InvFacts(j, s);
    GeneratePrefix(j.m, s.zero.pos, s.one.pos);
    GeneratePrefix(j.m, s.one.pos, j.n);
  }

  lemma SendsIntoEmpty<F(!new)>(j: Job<F>, s: Net<F>)
    requires j.Valid() && Inv(j, s) && (s.zero.pc.Sending? || s.one.pc.Sending?)
    ensures s.ch.msgLen == 0 && |s.ch.buffer| == MAX_MSG_SIZE && |s.zero.x| == j.m.cfg.dim && j.m.cfg.dim > 0
    ensures s.one.token < j.m.cfg.vocab
  {
    hide Activation, NewCaches, Generate, EncodeVec, Mid, Cells;
  }

  /** No send ever replaces an unread message: both stages send only into an empty channel. */
  lemma NothingIsOverwritten<F(!new)>(j: Job<F>, states: seq<Net<F>>, who: seq<bool>, i: nat)
    requires j.Valid() && IsRun(j, states, who) && i < |who|
    requires if who[i] then states[i].zero.pc.Sending? else states[i].one.pc.Sending?
    ensures states[i].ch.msgLen == 0
    ensures states[i + 1].ch.Pending(if who[i] then 1 else 0)
  {
    hide Inv, Activation, NewCaches, Generate, EncodeVec, Shaped;
    InvariantHolds(j, states, who, i);
    var s := states[i];
    SendsIntoEmpty(j, s);
    if who[i] { FilledCarries(s.ch, EncodeVec(j.codec, s.zero.x), 1); }
    else { FilledCarries(s.ch, ToLe32(s.one.token), 0); }
  }

  /** Some move continues a run that stands at `s`. */
  ghost predicate CanMove<F(!new)>(j: Job<F>, s: Net<F>)
    requires j.Sound()
  {
    exists zero: bool, s': Net<F> :: Moves(j, s, zero, s')
  }

  lemma EnabledMoves<F(!new)>(j: Job<F>, s: Net<F>)
    requires j.Valid() && Inv(j, s)
    ensures CanMove(j, s) <==> Enabled(s.zero.pc) || Enabled(s.one.pc)
  {
    hide Inv, Shaped, ZeroStep, OneStep, Model.Valid, IsCodec;
    InvIsShaped(j, s);
    if Enabled(s.zero.pc) { assert Moves(j, s, true, ZeroStep(j, s)); }
    if Enabled(s.one.pc) { assert Moves(j, s, false, OneStep(j, s)); }
  }

  /** The stages are never both blocked: a run can be continued exactly until both are done. */
  lemma NeverBothBlocked<F(!new)>(j: Job<F>, states: seq<Net<F>>, who: seq<bool>, i: nat)
    requires j.Valid() && IsRun(j, states, who) && i < |states|
    ensures !(states[i].zero.pc.Waiting? && states[i].one.pc.Waiting?)
    ensures CanMove(j, states[i]) <==> !(states[i].zero.pc.Done? && states[i].one.pc.Done?)
  {
    hide Inv, IsRun, Generate, CanMove;
    InvariantHolds(j, states, who, i);
    InvFacts(j, states[i]);
    EnabledMoves(j, states[i]);
  }

  /** A run that cannot be continued has both stages done with exactly the sequential tokens; and
      no run is longer than eight steps per token plus a constant, so every run gets there. */
  lemma BothFinish<F(!new)>(j: Job<F>, states: seq<Net<F>>, who: seq<bool>)
    requires j.Valid() && IsRun(j, states, who)
    ensures |who| <= 8 * j.n + 8
    ensures var s := states[|who|];
            !CanMove(j, s) ==>
              s.zero.pc.Done? && s.one.pc.Done? && s.zero.out == s.one.out == Generate(j.m, j.n).tokens
  {
    hide Inv, Generate, Moves, CanMove;
    InvariantHolds(j, states, who, |who|);
    InvFacts(j, states[|who|]);
    EnabledMoves(j, states[|who|]);
  }

  // ------------------------------------------------------------------ the message limit

  /** Truth values as numbers: disjunction is the sum and conjunction the product. */
  function Truth(): Ops<bool> {
    Ops(false, true, (a: bool, b: bool) => a || b, (a: bool, b: bool) => a, (a: bool, b: bool) => a && b, (a: bool, b: bool) => a,
        (a: bool) => a, (a: bool) => a, (a: bool, b: bool) => a && !b, (a: bool, n: nat) => a, (a: bool, n: nat) => true)
  }

  /** No layers, two tokens, and a classifier that reads the first activation component. */
  function LimitModel(dim: nat): Model<bool> {
    Model(Truth(), Config(dim, 0, 0, 1, 1, 2, 1),
          Weights(seq(2 * dim, _ => true), [], [], [], [], [], [], [], [], [], seq(dim, _ => true),
                  seq(dim / 2, _ => false), seq(dim / 2, _ => false), seq(2 * dim, i => i == dim)))
  }

  lemma LimitModelIsValid(dim: nat)
    requires dim > 0 && dim % 2 == 0
    ensures LimitModel(dim).Valid()
  {
    hide Cells;
    LimitTables(dim);
  }

  lemma LimitTables(dim: nat)
    ensures Cells(2, dim) == 2 * dim && Cells(1, dim / 2) == dim / 2 && forall k: nat :: Cells(0, k) == 0
  {
    assert Cells(1, dim) == dim + Cells(0, dim) && Cells(2, dim) == dim + Cells(1, dim);
    assert Cells(1, dim / 2) == dim / 2 + Cells(0, dim / 2);
  }

  /** The product of a vector with a row that is true at most in its first place. */
  lemma {:induction false} FirstOnly(row: seq<bool>, x: seq<bool>, n: nat)
    requires |row| == |x| && n <= |x| && forall j :: 0 < j < |row| ==> !row[j]
    ensures Dot(Truth(), row, 0, x, 0, n) == (n > 0 && row[0] && x[0])
  {
    if n > 0 { FirstOnly(row, x, n - 1); }
  }

  lemma LimitNorm(dim: nat, x: seq<bool>)
    requires |x| == dim
    ensures |LimitModel(dim).w.rmsFinal| == dim && RmsNorm(Truth(), x, LimitModel(dim).w.rmsFinal) == x
  {}

  lemma LimitRow(dim: nat, i: nat)
    requires i < 2 && dim > 0 && |LimitModel(dim).w.wcls| == Cells(2, dim)
    ensures var row := Row(LimitModel(dim).w.wcls, i, 2, dim); row[0] == (i == 1) && forall j :: 0 < j < dim ==> !row[j]
  {}

  lemma LimitModelClassifies(dim: nat, x: seq<bool>)
    requires dim > 0 && dim % 2 == 0 && |x| == dim && LimitModel(dim).Valid()
    ensures Classify(LimitModel(dim), x) == if x[0] then 1 else 0
  {
    hide LimitModel, Dot, Row, RmsNorm, Cells;
    var m := LimitModel(dim);
    LimitModelFacts(dim, x);
    LimitNorm(dim, x);
    LimitRow(dim, 0);
    LimitRow(dim, 1);
    var v := MatMul(m.ops, x, m.w.wcls, 2);
    FirstOnly(Row(m.w.wcls, 0, 2, dim), x, dim);
    FirstOnly(Row(m.w.wcls, 1, 2, dim), x, dim);
    assert !v[0] && v[1] == x[0];
    assert ArgMax(m.ops, v, 1) == 0;
  }

  lemma LimitModelFacts(dim: nat, x: seq<bool>)
    requires dim > 0 && dim % 2 == 0 && LimitModel(dim).Valid()
    ensures var m := LimitModel(dim);
            && m.cfg == Config(dim, 0, 0, 1, 1, 2, 1) && m.ops == Truth() && (|x| == dim ==> RmsNorm(m.ops, x, m.w.rmsFinal) == x)
            && Embed(m, 0)[0] && Generate(m, 0) == Trace([], [])
  {
    assert EmptyCaches<bool>(0) == [];
  }

  lemma LimitModelGenerates(dim: nat)
    requires dim > 0 && dim % 2 == 0 && LimitModel(dim).Valid()
    ensures Generate(LimitModel(dim), 1).tokens == [1]
  {
    hide LimitModel, Embed, Classify, Generate;
    var m := LimitModel(dim);
    LimitModelFacts(dim, []);
    LimitModelClassifies(dim, Embed(m, 0));
    GenerateStep(m, 0);
  }

  /** The condition on the activation size is needed: for every larger size there is a model on
      which stage 1, whose receive is rejected, emits a token sequential inference does not. */
  lemma OversizedActivationsGoWrong(dim: nat, codec: Codec<bool>) returns (states: seq<Net<bool>>)
    requires 4 * dim > MAX_MSG_SIZE && dim % 2 == 0 && IsCodec(codec)
    ensures var j := Job(LimitModel(dim), codec, 0, 1);
            && j.Sound() && IsRun(j, states, [false, false, false])
            && states[3].one.out == [0] && Generate(j.m, 1).tokens == [1]
  {
    hide LimitModel, Classify, Generate;
    var j := Job(LimitModel(dim), codec, 0, 1);
    LimitModelIsValid(dim);
    LimitModelGenerates(dim);
    var x := seq(dim, _ => false);
    LimitModelClassifies(dim, x);
    LimitModelFacts(dim, x);
    assert EmptyCaches<bool>(0) == [];
    var ch := Channel(true, [0, 1], seq(MAX_MSG_SIZE, _ => 0), 0, 0);
    var z := Stage(Work, 0, 0, x, [], []);
    var s0 := Net(z, Stage(Receiving, 0, 0, x, [], []), ch);
    var s1 := Net(z, Stage(Work, 0, 0, x, [], []), ch);
    var s2 := Net(z, Stage(Sending, 0, 0, x, [], []), ch);
    var s3 := Net(z, Stage(Done, 1, 0, x, [], [0]), Put(ch, ToLe32(0), 0));
    assert Moves(j, s0, false, s1);
    assert Moves(j, s1, false, s2);
    assert Moves(j, s2, false, s3);
    states := [s0, s1, s2, s3];
  }
}
