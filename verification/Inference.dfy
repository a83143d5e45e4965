/** The imperative forward pass over one flat key cache and one flat value cache, and the
    sequential token loop of llama-inference. */
module Inference {
  import opened Transformer

  // ------------------------------------------------------------------ flat cache indices

  /** Float `i` of the row of position `t` in local layer `ll`. */
  function Index(cfg: Config, ll: nat, t: nat, i: nat): nat
    requires cfg.nHeads > 0
  {
    ll * cfg.seqLen * cfg.KvDim() + t * cfg.KvDim() + i
  }

  lemma IndexInBounds(cfg: Config, layers: nat, ll: nat, t: nat, i: nat)
    requires cfg.nHeads > 0 && ll < layers && t < cfg.seqLen && i < cfg.KvDim()
    ensures Index(cfg, ll, t, i) < layers * cfg.seqLen * cfg.KvDim()
  {
    var n, kv := cfg.seqLen, cfg.KvDim();
    MulMono(ll + 1, layers, n);
    assert (ll + 1) * n == ll * n + n;
    MulMono(ll * n + t + 1, layers * n, kv);
    assert (ll * n + t + 1) * kv == ll * n * kv + t * kv + kv;
  }

  /** Different rows, layers or components never share a slot. */
  lemma IndexIsInjective(cfg: Config, ll: nat, t: nat, i: nat, ll': nat, t': nat, i': nat)
    requires cfg.nHeads > 0 && t < cfg.seqLen && i < cfg.KvDim() && t' < cfg.seqLen && i' < cfg.KvDim()
    requires Index(cfg, ll, t, i) == Index(cfg, ll', t', i')
    ensures ll == ll' && t == t' && i == i'
  {
    var n, kv := cfg.seqLen, cfg.KvDim();
    assert ll * n * kv + t * kv == (ll * n + t) * kv;
    assert ll' * n * kv + t' * kv == (ll' * n + t') * kv;
    DigitsAreUnique(ll * n + t, i, ll' * n + t', i', kv);
    DigitsAreUnique(ll, t, ll', t', n);
  }

  lemma DigitsAreUnique(a: nat, i: nat, b: nat, j: nat, k: nat)
    requires i < k && j < k && a * k + i == b * k + j
    ensures a == b && i == j
  {
    assert (a + 1) * k == a * k + k && (b + 1) * k == b * k + k;
    if a < b { MulMono(a + 1, b, k); }
    if b < a { MulMono(b + 1, a, k); }
  }

  /** Scratch vectors and the two flat caches of one shard. */
  class RunState<F(0,!new)> {
    var x: seq<F>
    var xb: seq<F>
    var q: seq<F>
    var k: seq<F>
    var v: seq<F>
    var hb: seq<F>
    const keyCache: array<F>
    const valueCache: array<F>

    constructor (cfg: Config, layers: nat, x: seq<F>)
      requires cfg.Valid()
      ensures this.x == x && Represents(cfg, EmptyCaches(layers))
      ensures fresh(keyCache) && fresh(valueCache)
    {
      this.x := x;
      xb, q, k, v, hb := [], [], [], [], [];
      keyCache := new F[layers * cfg.seqLen * cfg.KvDim()];
      valueCache := new F[layers * cfg.seqLen * cfg.KvDim()];
    }

    /** The flat arrays hold the rows of `cs`, local layer by local layer. */
    ghost predicate Represents(cfg: Config, cs: seq<Cache<F>>)
      reads keyCache, valueCache
      requires cfg.nHeads > 0
    {
      && keyCache != valueCache
      && keyCache.Length == valueCache.Length == |cs| * cfg.seqLen * cfg.KvDim()
      && HoldRows(cfg, keyCache[..], Keys(cs)) && HoldRows(cfg, valueCache[..], Vals(cs))
    }
  }

  ghost function Keys<F>(cs: seq<Cache<F>>): seq<seq<seq<F>>> {
    seq(|cs|, i requires 0 <= i < |cs| => cs[i].keys)
  }

  ghost function Vals<F>(cs: seq<Cache<F>>): seq<seq<seq<F>>> {
    seq(|cs|, i requires 0 <= i < |cs| => cs[i].vals)
  }

  /** A flat cache holds `rows` as the rows of local layer `ll`. */
  ghost predicate LayerHolds<F>(cfg: Config, flat: seq<F>, ll: nat, rows: seq<seq<F>>)
    requires cfg.nHeads > 0
  {
    && |rows| <= cfg.seqLen
    && forall t: nat, i: nat :: t < |rows| && i < cfg.KvDim() ==> SlotHolds(cfg, flat, ll, t, i, rows[t])
  }

  /** Float `i` of `row` is in its slot. */
  ghost predicate SlotHolds<F>(cfg: Config, flat: seq<F>, ll: nat, t: nat, i: nat, row: seq<F>)
    requires cfg.nHeads > 0
  {
    i < |row| && Index(cfg, ll, t, i) < |flat| && flat[Index(cfg, ll, t, i)] == row[i]
  }

  ghost predicate HoldRows<F>(cfg: Config, flat: seq<F>, rows: seq<seq<seq<F>>>)
    requires cfg.nHeads > 0
  {
    forall ll: nat :: ll < |rows| ==> LayerHolds(cfg, flat, ll, rows[ll])
  }

  /** `flat'` is `flat` with `row` written at position `pos` of local layer `ll`. */
  ghost predicate RowWritten<F>(cfg: Config, flat: seq<F>, flat': seq<F>, ll: nat, pos: nat, row: seq<F>)
    requires cfg.nHeads > 0
  {
    && |flat'| == |flat|
    && (forall i: nat :: i < |row| ==> Index(cfg, ll, pos, i) < |flat'| && flat'[Index(cfg, ll, pos, i)] == row[i])
    && (forall n: nat :: n < |flat| && (forall i: nat :: i < |row| ==> n != Index(cfg, ll, pos, i)) ==> flat'[n] == flat[n])
  }

  /** A slot of another row is not written. */
  lemma OtherSlot(cfg: Config, ll: nat, pos: nat, j: nat, t: nat, i: nat, n: nat)
    requires cfg.nHeads > 0 && pos < cfg.seqLen && t < cfg.seqLen && i < cfg.KvDim() && (j != ll || t != pos)
    ensures n < cfg.KvDim() ==> Index(cfg, j, t, i) != Index(cfg, ll, pos, n)
  {
    hide Index;
    if n < cfg.KvDim() && Index(cfg, j, t, i) == Index(cfg, ll, pos, n) { IndexIsInjective(cfg, j, t, i, ll, pos, n); }
  }

  lemma SlotKept<F>(cfg: Config, flat: seq<F>, flat': seq<F>, ll: nat, pos: nat, row: seq<F>, j: nat, t: nat, i: nat)
    requires cfg.nHeads > 0 && pos < cfg.seqLen && t < cfg.seqLen && i < cfg.KvDim() && (j != ll || t != pos)
    requires |row| == cfg.KvDim() && RowWritten(cfg, flat, flat', ll, pos, row) && Index(cfg, j, t, i) < |flat|
    ensures |flat'| == |flat| && flat'[Index(cfg, j, t, i)] == flat[Index(cfg, j, t, i)]
  {
    hide Index;
    forall n: nat | n < |row| ensures Index(cfg, j, t, i) != Index(cfg, ll, pos, n) {
      OtherSlot(cfg, ll, pos, j, t, i, n);
    }
  }

  /** Writing the new row of one layer leaves every other row of every layer alone. */
  lemma RowWrittenAppends<F>(cfg: Config, flat: seq<F>, flat': seq<F>, rows: seq<seq<seq<F>>>, ll: nat, pos: nat, row: seq<F>)
    requires cfg.nHeads > 0 && ll < |rows| && pos < cfg.seqLen && |row| == cfg.KvDim() && |rows[ll]| == pos
    requires HoldRows(cfg, flat, rows) && RowWritten(cfg, flat, flat', ll, pos, row)
    ensures HoldRows(cfg, flat', rows[ll := rows[ll] + [row]])
  {
    hide LayerHolds, RowWritten;
    var rows' := rows[ll := rows[ll] + [row]];
    forall j: nat | j < |rows'| ensures LayerHolds(cfg, flat', j, rows'[j]) {
      assert LayerHolds(cfg, flat, j, rows[j]);
      LayerAfterWrite(cfg, flat, flat', ll, pos, row, j, rows[j]);
    }
  }

  lemma LayerAfterWrite<F>(cfg: Config, flat: seq<F>, flat': seq<F>, ll: nat, pos: nat, row: seq<F>, j: nat, rows: seq<seq<F>>)
    requires cfg.nHeads > 0 && pos < cfg.seqLen && |row| == cfg.KvDim() && (j == ll ==> |rows| == pos)
    requires LayerHolds(cfg, flat, j, rows) && RowWritten(cfg, flat, flat', ll, pos, row)
    ensures LayerHolds(cfg, flat', j, if j == ll then rows + [row] else rows)
  {
    hide Index, RowWritten;
    var rows' := if j == ll then rows + [row] else rows;
    forall t: nat, i: nat | t < |rows'| && i < cfg.KvDim() ensures SlotHolds(cfg, flat', j, t, i, rows'[t]) {
      if j == ll && t == pos {
        WrittenSlot(cfg, flat, flat', ll, pos, row, i);
      } else {
        assert SlotHolds(cfg, flat, j, t, i, rows[t]);
        SlotKept(cfg, flat, flat', ll, pos, row, j, t, i);
      }
    }
  }

  lemma WrittenSlot<F>(cfg: Config, flat: seq<F>, flat': seq<F>, ll: nat, pos: nat, row: seq<F>, i: nat)
    requires cfg.nHeads > 0 && RowWritten(cfg, flat, flat', ll, pos, row) && i < |row|
    ensures Index(cfg, ll, pos, i) < |flat'| && flat'[Index(cfg, ll, pos, i)] == row[i]
  {}

  // ------------------------------------------------------------------ kernels

  /** `matmul`: its two loops over the flat matrix. */
  method Multiply<F(!new)>(ops: Ops<F>, x: seq<F>, w: seq<F>, d: nat) returns (out: seq<F>)
    requires |w| == Cells(d, |x|)
    ensures out == MatMul(ops, x, w, d)
  {
    var n := |x|;
    out := [];
    for i := 0 to d
      invariant |out| == i && forall k :: 0 <= k < i ==> out[k] == Dot(ops, Row(w, k, d, n), 0, x, 0, n)
    {
      var val := ops.zero;
      for j := 0 to n
        invariant val == Dot(ops, Row(w, i, d, n), 0, x, 0, j)
      {
        FlatRow(w, i, d, n, j);
        val := ops.add(val, ops.mul(w[i * n + j], x[j]));
      }
      out := out + [val];
    }
  }

  /** Float `j` of row `i` of a flat table of `n` rows of `k` floats. */
  lemma FlatRow<F(!new)>(w: seq<F>, i: nat, n: nat, k: nat, j: nat)
    requires |w| == Cells(n, k) && i < n && j < k
    ensures i * k + j < |w| && Row(w, i, n, k)[j] == w[i * k + j]
  {
    CellsAreProduct(n, k);
    MulMono(i + 1, n, k);
    assert i * k + k == (i + 1) * k;
  }

  /** `rmsnorm`. */
  method Normalize<F(!new)>(ops: Ops<F>, x: seq<F>, w: seq<F>) returns (out: seq<F>)
    requires |w| == |x|
    ensures out == RmsNorm(ops, x, w)
  {
    var ss := ops.zero;
    for i := 0 to |x|
      invariant ss == Dot(ops, x, 0, x, 0, i)
    {
      ss := ops.add(ss, ops.mul(x[i], x[i]));
    }
    ss := ops.rmsScale(ss, |x|);
    out := [];
    for i := 0 to |x|
      invariant |out| == i && forall k :: 0 <= k < i ==> out[k] == ops.mul(w[k], ops.mul(ss, x[k]))
    {
      out := out + [ops.mul(w[i], ops.mul(ss, x[i]))];
    }
  }

  /** `softmax`: the maximum, the exponentials and their sum, the quotients. */
  method SoftmaxInPlace<F>(ops: Ops<F>, x0: seq<F>) returns (x: seq<F>)
    requires x0 != []
    ensures x == Softmax(ops, x0)
  {
    x := x0;
    var max := x[0];
    for i := 1 to |x|
      invariant max == MaxOf(ops, x0, i)
    {
      if ops.greater(x[i], max) { max := x[i]; }
    }
    ghost var e := Exponentials(ops, x0);
    var sum := ops.zero;
    for i := 0 to |x0|
      invariant |x| == |x0| && sum == Sum(ops, e, i)
      invariant forall j :: 0 <= j < |x| ==> x[j] == if j < i then e[j] else x0[j]
    {
      x := x[i := ops.exp(ops.sub(x[i], max))];
      sum := ops.add(sum, x[i]);
    }
    for i := 0 to |x0|
      invariant |x| == |x0| && forall j :: 0 <= j < |x| ==> x[j] == if j < i then ops.div(e[j], sum) else e[j]
    {
      x := x[i := ops.div(x[i], sum)];
    }
  }

  // ------------------------------------------------------------------ the layer loop

  /** In-place rotary encoding, a pair of components at a time. */
  method RopeInPlace<F(!new)>(m: Model<F>, pos: nat, v0: seq<F>) returns (v: seq<F>)
    requires m.Valid() && pos < m.cfg.seqLen && |v0| % 2 == 0
    ensures v == Rope(m, pos, v0)
  {
    hide FreqIndex, Rotated, Cells, Config.KvDim, Config.HeadSize;
    RopeReady(m);
    v := v0;
    var i := 0;
    while i < |v0|
      invariant 0 <= i <= |v0| && i % 2 == 0 && |v| == |v0|
      invariant forall j :: 0 <= j < i ==> v[j] == Rotated(m, pos, v0, j)
      invariant forall j :: i <= j < |v0| ==> v[j] == v0[j]
    {
      var c := FreqIndex(m.cfg, pos, i);
      var fcr, fci := m.w.freqReal[c], m.w.freqImag[c];
      RotatedPair(m, pos, v0, i);
      v := v[i := m.ops.sub(m.ops.mul(v[i], fcr), m.ops.mul(v[i + 1], fci))]
            [i + 1 := m.ops.add(m.ops.mul(v[i], fci), m.ops.mul(v[i + 1], fcr))];
      i := i + 2;
    }
  }

  lemma RopeReady<F(!new)>(m: Model<F>)
    requires m.Valid()
    ensures m.cfg.nHeads > 0 && m.cfg.HeadSize() > 0 && m.cfg.HeadSize() % 2 == 0
    ensures |m.w.freqReal| == Cells(m.cfg.seqLen, m.cfg.HeadSize() / 2) && |m.w.freqImag| == |m.w.freqReal|
  {}

  /** Both components of a pair. */
  lemma RotatedPair<F(!new)>(m: Model<F>, pos: nat, v: seq<F>, i: nat)
    requires m.cfg.nHeads > 0 && m.cfg.HeadSize() > 0 && m.cfg.HeadSize() % 2 == 0 && pos < m.cfg.seqLen
    requires |m.w.freqReal| == Cells(m.cfg.seqLen, m.cfg.HeadSize() / 2) && |m.w.freqImag| == |m.w.freqReal|
    requires i % 2 == 0 && i < |v| && |v| % 2 == 0
    ensures var c := FreqIndex(m.cfg, pos, i);
            var fcr, fci := m.w.freqReal[c], m.w.freqImag[c];
            && Rotated(m, pos, v, i) == m.ops.sub(m.ops.mul(v[i], fcr), m.ops.mul(v[i + 1], fci))
            && Rotated(m, pos, v, i + 1) == m.ops.add(m.ops.mul(v[i], fci), m.ops.mul(v[i + 1], fcr))
  {
    hide FreqIndex, Cells;
    assert i / 2 * 2 == i && (i + 1) / 2 * 2 == i;
  }

  /** Copies a row into a flat cache. */
  method WriteRow<F>(cfg: Config, layers: nat, cache: array<F>, ll: nat, pos: nat, row: seq<F>)
    requires cfg.nHeads > 0 && ll < layers && pos < cfg.seqLen && |row| == cfg.KvDim()
    requires cache.Length == layers * cfg.seqLen * cfg.KvDim()
    modifies cache
    ensures RowWritten(cfg, old(cache[..]), cache[..], ll, pos, row)
  {
    var loff := ll * cfg.seqLen * cfg.KvDim();
    for i := 0 to |row|
      invariant forall j: nat :: j < i ==>
                  Index(cfg, ll, pos, j) < cache.Length && cache[Index(cfg, ll, pos, j)] == row[j]
      invariant forall n: nat :: n < cache.Length && (forall j: nat :: j < |row| ==> n != Index(cfg, ll, pos, j)) ==>
                  cache[n] == old(cache[n])
    {
      IndexInBounds(cfg, layers, ll, pos, i);
      assert loff + pos * cfg.KvDim() + i == Index(cfg, ll, pos, i);
      cache[loff + pos * cfg.KvDim() + i] := row[i];
    }
  }

  /** The scores of one head: the inner products of its query with the cached keys. */
  method ScoreHead<F(!new)>(m: Model<F>, q: seq<F>, cache: array<F>, ghost rows: seq<seq<F>>, ll: nat, pos: nat, qi: nat, base: nat)
    returns (att: seq<F>)
    requires m.cfg.nHeads > 0 && qi + m.cfg.HeadSize() <= |q| && base + m.cfg.HeadSize() <= m.cfg.KvDim()
    requires |rows| == pos + 1 && LayerHolds(m.cfg, cache[..], ll, rows)
    requires forall t :: 0 <= t < |rows| ==> |rows[t]| == m.cfg.KvDim()
    ensures att == Scores(m.ops, q, qi, rows, base, m.cfg.HeadSize())
  {
    var hs, kv := m.cfg.HeadSize(), m.cfg.KvDim();
    var loff := ll * m.cfg.seqLen * kv;
    att := [];
    for t := 0 to pos + 1
      invariant |att| == t
      invariant forall u :: 0 <= u < t ==> att[u] == m.ops.scale(Dot(m.ops, q, qi, rows[u], base, hs), hs)
    {
      var score := m.ops.zero;
      for i := 0 to hs
        invariant score == Dot(m.ops, q, qi, rows[t], base, i)
      {
        assert SlotHolds(m.cfg, cache[..], ll, t, base + i, rows[t]);
        score := m.ops.add(score, m.ops.mul(q[qi + i], cache[loff + t * kv + base + i]));
      }
      att := att + [m.ops.scale(score, hs)];
    }
  }

  /** The output of one head: the cached values weighted by its attention. */
  method BlendHead<F(!new)>(m: Model<F>, att: seq<F>, cache: array<F>, ghost rows: seq<seq<F>>, ll: nat, pos: nat, base: nat)
    returns (out: seq<F>)
    requires m.cfg.nHeads > 0 && base + m.cfg.HeadSize() <= m.cfg.KvDim()
    requires |att| == |rows| == pos + 1 && LayerHolds(m.cfg, cache[..], ll, rows)
    requires forall t :: 0 <= t < |rows| ==> |rows[t]| == m.cfg.KvDim()
    ensures |out| == m.cfg.HeadSize()
    ensures forall i :: 0 <= i < m.cfg.HeadSize() ==> out[i] == Blend(m.ops, att, rows, base + i, pos + 1)
  {
    var hs, kv := m.cfg.HeadSize(), m.cfg.KvDim();
    var loff := ll * m.cfg.seqLen * kv;
    out := seq(hs, _ => m.ops.zero);
    for t := 0 to pos + 1
      invariant |out| == hs
      invariant forall i :: 0 <= i < hs ==> out[i] == Blend(m.ops, att, rows, base + i, t)
    {
      for i := 0 to hs
        invariant |out| == hs
        invariant forall j :: 0 <= j < i ==> out[j] == Blend(m.ops, att, rows, base + j, t + 1)
        invariant forall j :: i <= j < hs ==> out[j] == Blend(m.ops, att, rows, base + j, t)
      {
        assert SlotHolds(m.cfg, cache[..], ll, t, base + i, rows[t]);
        out := out[i := m.ops.add(out[i], m.ops.mul(att[t], cache[loff + t * kv + base + i]))];
      }
    }
  }

  lemma HeadComponent(h: nat, i: nat, hs: nat)
    requires i < hs
    ensures (h * hs + i) / hs == h && (h * hs + i) % hs == i
  {
    var j := h * hs + i;
    assert j / hs * hs + j % hs == j;
    DigitsAreUnique(j / hs, j % hs, h, i, hs);
  }

  lemma LayerOf<F(0,!new)>(s: RunState<F>, cfg: Config, cs: seq<Cache<F>>, ll: nat)
    requires cfg.nHeads > 0 && s.Represents(cfg, cs) && ll < |cs|
    ensures LayerHolds(cfg, s.keyCache[..], ll, cs[ll].keys) && LayerHolds(cfg, s.valueCache[..], ll, cs[ll].vals)
  {
    assert LayerHolds(cfg, s.keyCache[..], ll, Keys(cs)[ll]) && LayerHolds(cfg, s.valueCache[..], ll, Vals(cs)[ll]);
  }

  /** One turn of the loop over heads. */
  method AttendHead<F(0,!new)>(m: Model<F>, s: RunState<F>, ghost c: Cache<F>, ll: nat, pos: nat, h: nat) returns (out: seq<F>)
    requires m.cfg.Valid() && |s.q| == m.cfg.dim && h < m.cfg.nHeads && c.Shaped(pos + 1, m.cfg.KvDim())
    requires LayerHolds(m.cfg, s.keyCache[..], ll, c.keys) && LayerHolds(m.cfg, s.valueCache[..], ll, c.vals)
    ensures |out| == m.cfg.HeadSize() && h * m.cfg.HeadSize() + m.cfg.HeadSize() <= m.cfg.dim
    ensures forall j: nat :: h * m.cfg.HeadSize() <= j < h * m.cfg.HeadSize() + m.cfg.HeadSize() ==>
              out[j - h * m.cfg.HeadSize()] == AttentionAt(m, s.q, c, j)
  {
    hide AttentionAt, LayerHolds, Scores, Blend;
    HeadFits(m.cfg, h);
    var hs := m.cfg.HeadSize();
    var base := m.cfg.KvHead(h) * hs;
    var att := ScoreHead(m, s.q, s.keyCache, c.keys, ll, pos, h * hs, base);
    att := SoftmaxInPlace(m.ops, att);
    out := BlendHead(m, att, s.valueCache, c.vals, ll, pos, base);
    HeadDone(m, s.q, c, h, h * hs, base, att, out);
  }

  /** Multi-head attention over the flat caches of local layer `ll`. */
  method Attend<F(0,!new)>(m: Model<F>, s: RunState<F>, ghost cs: seq<Cache<F>>, ll: nat, pos: nat) returns (xb: seq<F>)
    requires m.Valid() && pos < m.cfg.seqLen && ll < |cs| && |s.q| == m.cfg.dim
    requires s.Represents(m.cfg, cs) && cs[ll].Shaped(pos + 1, m.cfg.KvDim())
    ensures xb == Attention(m, s.q, cs[ll])
  {
    hide RunState.Represents, AttentionAt, LayerHolds;
    LayerOf(s, m.cfg, cs, ll);
    var hs := m.cfg.HeadSize();
    xb := [];
    for h := 0 to m.cfg.nHeads
      invariant |xb| == h * hs <= m.cfg.dim
      invariant forall j: nat :: j < |xb| ==> xb[j] == AttentionAt(m, s.q, cs[ll], j)
    {
      var out := AttendHead(m, s, cs[ll], ll, pos, h);
      xb := xb + out;
      assert (h + 1) * hs == h * hs + hs;
    }
    assert m.cfg.nHeads * hs == m.cfg.dim;
  }

  /** One head's output is its part of the attention output. */
  lemma HeadDone<F(!new)>(m: Model<F>, q: seq<F>, c: Cache<F>, h: nat, qi: nat, base: nat, att: seq<F>, out: seq<F>)
    requires m.cfg.Valid() && c.keys != [] && |q| == m.cfg.dim && h < m.cfg.nHeads && c.Shaped(|c.keys|, m.cfg.KvDim())
    requires m.cfg.nHeads / m.cfg.nKvHeads > 0 && qi == h * m.cfg.HeadSize() && base == m.cfg.KvHead(h) * m.cfg.HeadSize()
    requires qi + m.cfg.HeadSize() <= m.cfg.dim && base + m.cfg.HeadSize() <= m.cfg.KvDim()
    requires att == Softmax(m.ops, Scores(m.ops, q, qi, c.keys, base, m.cfg.HeadSize())) && |out| == m.cfg.HeadSize()
    requires forall i :: 0 <= i < m.cfg.HeadSize() ==> out[i] == Blend(m.ops, att, c.vals, base + i, |c.vals|)
    ensures forall j: nat :: qi <= j < qi + m.cfg.HeadSize() ==> out[j - qi] == AttentionAt(m, q, c, j)
  {
    forall j: nat | qi <= j < qi + m.cfg.HeadSize() ensures out[j - qi] == AttentionAt(m, q, c, j) {
      HeadComponent(h, j - qi, m.cfg.HeadSize());
    }
  }

  method Residual<F(!new)>(ops: Ops<F>, x0: seq<F>, y: seq<F>) returns (x: seq<F>)
    requires |x0| == |y|
    ensures x == AddVec(ops, x0, y)
  {
    x := x0;
    for i := 0 to |y|
      invariant |x| == |x0|
      invariant forall j :: 0 <= j < i ==> x[j] == ops.add(x0[j], y[j])
      invariant forall j :: i <= j < |x| ==> x[j] == x0[j]
    {
      x := x[i := ops.add(x[i], y[i])];
    }
  }

  /** First half of a turn of the layer loop: the projections, and the new cache rows. */
  method Project<F(0,!new)>(m: Model<F>, s: RunState<F>, ghost cs: seq<Cache<F>>, l: nat, ll: nat, layers: nat, pos: nat)
    requires m.Valid() && pos < m.cfg.seqLen && ll < |cs| == layers && l < m.cfg.nLayers && |s.x| == m.cfg.dim
    requires s.Represents(m.cfg, cs) && cs[ll].Shaped(pos, m.cfg.KvDim())
    modifies s, s.keyCache, s.valueCache
    ensures s.x == old(s.x) && s.q == Query(m, l, pos, s.x)
    ensures s.Represents(m.cfg, cs[ll := Pushed(m, l, pos, s.x, cs[ll])])
  {
    var n, d, kv := m.cfg.nLayers, m.cfg.dim, m.cfg.KvDim();
    EvenSizes(m.cfg);
    s.xb := Normalize(m.ops, s.x, Row(m.w.rmsAtt, l, n, d));
    s.q := Multiply(m.ops, s.xb, Row(m.w.wq, l, n, Cells(d, d)), d);
    s.k := Multiply(m.ops, s.xb, Row(m.w.wk, l, n, Cells(kv, d)), kv);
    s.v := Multiply(m.ops, s.xb, Row(m.w.wv, l, n, Cells(kv, d)), kv);
    s.q := RopeInPlace(m, pos, s.q);
    s.k := RopeInPlace(m, pos, s.k);
    assert s.q == Query(m, l, pos, s.x) && s.k == Key(m, l, pos, s.x) && s.v == Value(m, l, s.x);
    hide Query, Key, Value, Row, Rope;
    StoreRows(m.cfg, s, cs, ll, layers, pos);
  }

  /** Caches the current key and value vectors. */
  method StoreRows<F(0,!new)>(cfg: Config, s: RunState<F>, ghost cs: seq<Cache<F>>, ll: nat, layers: nat, pos: nat)
    requires cfg.nHeads > 0 && pos < cfg.seqLen && ll < |cs| == layers && |s.k| == |s.v| == cfg.KvDim()
    requires s.Represents(cfg, cs) && cs[ll].Shaped(pos, cfg.KvDim())
    modifies s.keyCache, s.valueCache
    ensures s.Represents(cfg, cs[ll := cs[ll].Push(s.k, s.v)])
  {
    ghost var keys, vals := s.keyCache[..], s.valueCache[..];
    WriteRow(cfg, layers, s.keyCache, ll, pos, s.k);
    WriteRow(cfg, layers, s.valueCache, ll, pos, s.v);
    ghost var cs' := cs[ll := cs[ll].Push(s.k, s.v)];
    RowWrittenAppends(cfg, keys, s.keyCache[..], Keys(cs), ll, pos, s.k);
    RowWrittenAppends(cfg, vals, s.valueCache[..], Vals(cs), ll, pos, s.v);
    assert Keys(cs') == Keys(cs)[ll := Keys(cs)[ll] + [s.k]];
    assert Vals(cs') == Vals(cs)[ll := Vals(cs)[ll] + [s.v]];
  }

  /** Second half: output projection and feed-forward network on the attention output `xb`. */
  method Mlp<F(0,!new)>(m: Model<F>, s: RunState<F>, l: nat)
    requires m.Valid() && l < m.cfg.nLayers && |s.x| == |s.xb| == m.cfg.dim
    modifies s
    ensures s.x == FeedForward(m, l, old(s.x), old(s.xb))
  {
    var n, d, hd := m.cfg.nLayers, m.cfg.dim, m.cfg.hiddenDim;
    hide Row, MatMul, RmsNorm, Gate, AddVec, Cells;
    var xb2 := Multiply(m.ops, s.xb, Row(m.w.wo, l, n, Cells(d, d)), d);
    s.x := Residual(m.ops, s.x, xb2);
    s.xb := Normalize(m.ops, s.x, Row(m.w.rmsFfn, l, n, d));
    s.hb := Multiply(m.ops, s.xb, Row(m.w.w1, l, n, Cells(hd, d)), hd);
    var hb2 := Multiply(m.ops, s.xb, Row(m.w.w3, l, n, Cells(hd, d)), hd);
    s.hb := SiluInPlace(m.ops, s.hb, hb2);
    s.xb := Multiply(m.ops, s.hb, Row(m.w.w2, l, n, Cells(d, hd)), d);
    s.x := Residual(m.ops, s.x, s.xb);
  }

  /** One turn of the layer loop at layer `lo + ll`. */
  method LayerStep<F(0,!new)>(m: Model<F>, s: RunState<F>, ghost cs: seq<Cache<F>>, lo: nat, ll: nat, layers: nat, pos: nat)
    requires m.Valid() && pos < m.cfg.seqLen && ll < |cs| == layers && lo + ll < m.cfg.nLayers && |s.x| == m.cfg.dim
    requires s.Represents(m.cfg, cs) && cs[ll].Shaped(pos, m.cfg.KvDim())
    modifies s, s.keyCache, s.valueCache
    ensures s.x == Layer(m, lo + ll, pos, old(s.x), cs[ll])
    ensures s.Represents(m.cfg, cs[ll := Pushed(m, lo + ll, pos, old(s.x), cs[ll])])
  {
    hide Query, Pushed, FeedForward, Attention;
    Project(m, s, cs, lo + ll, ll, layers, pos);
    s.xb := Attend(m, s, cs[ll := Pushed(m, lo + ll, pos, s.x, cs[ll])], ll, pos);
    Mlp(m, s, lo + ll);
  }

  method SiluInPlace<F(!new)>(ops: Ops<F>, hb0: seq<F>, gate: seq<F>) returns (hb: seq<F>)
    requires |hb0| == |gate|
    ensures hb == Gate(ops, hb0, gate)
  {
    hb := hb0;
    for i := 0 to |gate|
      invariant |hb| == |hb0|
      invariant forall j :: 0 <= j < i ==> hb[j] == ops.mul(Silu(ops, hb0[j]), gate[j])
      invariant forall j :: i <= j < |hb| ==> hb[j] == hb0[j]
    {
      var val := hb[i];
      val := ops.mul(val, ops.div(ops.one, ops.add(ops.one, ops.exp(ops.neg(val)))));
      val := ops.mul(val, gate[i]);
      hb := hb[i := val];
    }
  }

  /** The caches while the loop stands at local layer `ll`: the first `ll` have the new row. */
  ghost function Midway<F(!new)>(m: Model<F>, pos: nat, x: seq<F>, lo: nat, cs: seq<Cache<F>>, ll: nat): (r: seq<Cache<F>>)
    requires m.Valid() && lo + |cs| <= m.cfg.nLayers && pos < m.cfg.seqLen && |x| == m.cfg.dim && Caches(m, pos, cs)
    requires ll <= |cs|
    ensures |r| == |cs| && (ll < |cs| ==> r[ll] == cs[ll])
    ensures ll == 0 ==> r == cs
    ensures ll == |cs| ==> r == NewCaches(m, pos, x, lo, cs)
  {
    assert ll == |cs| ==> cs[..ll] == cs;
    NewCaches(m, pos, x, lo, cs[..ll]) + cs[ll..]
  }

  lemma MidwayAdvances<F(!new)>(m: Model<F>, pos: nat, x: seq<F>, lo: nat, cs: seq<Cache<F>>, ll: nat)
    requires m.Valid() && lo + |cs| <= m.cfg.nLayers && pos < m.cfg.seqLen && |x| == m.cfg.dim && Caches(m, pos, cs)
    requires ll < |cs|
    ensures var a := Activation(m, pos, x, lo, cs[..ll]);
            && Activation(m, pos, x, lo, cs[..ll + 1]) == Layer(m, lo + ll, pos, a, cs[ll])
            && Midway(m, pos, x, lo, cs, ll + 1) == Midway(m, pos, x, lo, cs, ll)[ll := Pushed(m, lo + ll, pos, a, cs[ll])]
  {
    hide Layer, Pushed;
    assert cs[..ll + 1][..ll] == cs[..ll];
  }

  /** `forward_layers`: layers [lo, hi) at position `pos`, with caches indexed by local layer. */
  method ForwardLayers<F(0,!new)>(m: Model<F>, s: RunState<F>, ghost cs: seq<Cache<F>>, pos: nat, lo: nat, hi: nat)
    requires m.Valid() && pos < m.cfg.seqLen && lo <= hi <= m.cfg.nLayers && |cs| == hi - lo && |s.x| == m.cfg.dim
    requires Caches(m, pos, cs) && s.Represents(m.cfg, cs)
    modifies s, s.keyCache, s.valueCache
    ensures s.x == Activation(m, pos, old(s.x), lo, cs)
    ensures s.Represents(m.cfg, NewCaches(m, pos, old(s.x), lo, cs))
  {
    hide Layer, Pushed, NewCaches, Midway, RunState.Represents;
    ghost var x0 := s.x;
    for l := lo to hi
      invariant s.x == Activation(m, pos, x0, lo, cs[..l - lo])
      invariant s.Represents(m.cfg, Midway(m, pos, x0, lo, cs, l - lo))
    {
      LayerStep(m, s, Midway(m, pos, x0, lo, cs, l - lo), lo, l - lo, hi - lo, pos);
      MidwayAdvances(m, pos, x0, lo, cs, l - lo);
    }
    assert cs[..hi - lo] == cs;
  }

  // ------------------------------------------------------------------ token by token

  /** The first index of a largest element among the first `n`. */
  function ArgMax<F>(ops: Ops<F>, v: seq<F>, n: nat): (i: nat)
    requires 0 < n <= |v|
    ensures i < n
  {
    if n == 1 then 0
    else
      var b := ArgMax(ops, v, n - 1);
      if ops.greater(v[n - 1], v[b]) then n - 1 else b
  }

  function Embed<F(!new)>(m: Model<F>, token: nat): (x: seq<F>)
    requires |m.w.embedding| == Cells(m.cfg.vocab, m.cfg.dim) && token < m.cfg.vocab
    ensures |x| == m.cfg.dim
  {
    Row(m.w.embedding, token, m.cfg.vocab, m.cfg.dim)
  }

  /** Final RMSNorm, classifier and greedy choice. */
  ghost function Classify<F(!new)>(m: Model<F>, x: seq<F>): (token: nat)
    requires m.Valid() && |x| == m.cfg.dim
    ensures token < m.cfg.vocab
  {
    ArgMax(m.ops, MatMul(m.ops, RmsNorm(m.ops, x, m.w.rmsFinal), m.w.wcls, m.cfg.vocab), m.cfg.vocab)
  }

  function EmptyCaches<F>(layers: nat): seq<Cache<F>> {
    seq(layers, _ => Cache([], []))
  }

  /** What sequential inference has after `n` tokens: the tokens and every layer's cache. */
  datatype Trace<F> = Trace(tokens: seq<nat>, caches: seq<Cache<F>>)

  /** The token fed in next: the last one emitted, and 0 to start with. */
  function LastToken(tokens: seq<nat>): nat {
    if tokens == [] then 0 else tokens[|tokens| - 1]
  }

  ghost function Generate<F(!new)>(m: Model<F>, n: nat): (t: Trace<F>)
    requires m.Valid() && n <= m.cfg.seqLen
    ensures TraceOk(m, n, t)
  {
    if n == 0 then Trace([], EmptyCaches(m.cfg.nLayers)) else Extended(m, n - 1, Generate(m, n - 1))
  }

  /** A trace of `n` tokens of this model. */
  ghost predicate TraceOk<F(!new)>(m: Model<F>, n: nat, t: Trace<F>)
    requires m.cfg.nHeads > 0
  {
    && |t.tokens| == n && |t.caches| == m.cfg.nLayers && Caches(m, n, t.caches)
    && forall i :: 0 <= i < n ==> t.tokens[i] < m.cfg.vocab
  }

  /** One more position: embed the last token, run all layers, choose the next token. */
  ghost function Extended<F(!new)>(m: Model<F>, n: nat, t: Trace<F>): (t': Trace<F>)
    requires m.Valid() && n < m.cfg.seqLen && TraceOk(m, n, t)
    ensures TraceOk(m, n + 1, t')
  {
    var x := Embed(m, LastToken(t.tokens));
    Trace(t.tokens + [Classify(m, Activation(m, n, x, 0, t.caches))], NewCaches(m, n, x, 0, t.caches))
  }

  lemma GenerateStep<F(!new)>(m: Model<F>, n: nat)
    requires m.Valid() && n < m.cfg.seqLen
    ensures var t := Generate(m, n);
            && LastToken(t.tokens) < m.cfg.vocab
            && var x := Embed(m, LastToken(t.tokens));
               Generate(m, n + 1) == Trace(t.tokens + [Classify(m, Activation(m, n, x, 0, t.caches))], NewCaches(m, n, x, 0, t.caches))
  {
    hide NewCaches, Activation, Embed, Classify;
  }

  /** What `>` is on floats without NaN. */
  ghost predicate StrictWeakOrder<F(!new)>(greater: (F, F) -> bool) {
    && (forall a: F :: !greater(a, a))
    && (forall a: F, b: F, c: F :: greater(a, b) && greater(b, c) ==> greater(a, c))
    && (forall a: F, b: F, c: F :: greater(a, c) ==> greater(a, b) || greater(b, c))
  }

  /** The greedy choice is the first of the largest components. */
  lemma {:induction false} ArgMaxIsFirstLargest<F(!new)>(ops: Ops<F>, v: seq<F>, n: nat)
    requires 0 < n <= |v| && StrictWeakOrder(ops.greater)
    ensures forall j: nat :: j < n ==> !ops.greater(v[j], v[ArgMax(ops, v, n)])
    ensures forall j: nat :: j < ArgMax(ops, v, n) ==> ops.greater(v[ArgMax(ops, v, n)], v[j])
  {
    if n > 1 { ArgMaxIsFirstLargest(ops, v, n - 1); }
  }

  method Argmax<F(!new)>(ops: Ops<F>, v: seq<F>, n: nat) returns (best: nat)
    requires 0 < n <= |v|
    ensures best == ArgMax(ops, v, n)
    ensures StrictWeakOrder(ops.greater) ==>
              && (forall j: nat :: j < n ==> !ops.greater(v[j], v[best]))
              && (forall j: nat :: j < best ==> ops.greater(v[best], v[j]))
  {
    if StrictWeakOrder(ops.greater) { ArgMaxIsFirstLargest(ops, v, n); }
    best := 0;
    for i := 1 to n
      invariant best == ArgMax(ops, v, i)
    {
      if ops.greater(v[i], v[best]) { best := i; }
    }
  }

  /** `forward` and the greedy choice: one token at one position. */
  method NextToken<F(0,!new)>(m: Model<F>, s: RunState<F>, ghost cs: seq<Cache<F>>, token: nat, pos: nat) returns (next: nat)
    requires m.Valid() && pos < m.cfg.seqLen && token < m.cfg.vocab && |cs| == m.cfg.nLayers
    requires Caches(m, pos, cs) && s.Represents(m.cfg, cs)
    modifies s, s.keyCache, s.valueCache
    ensures next == Classify(m, Activation(m, pos, Embed(m, token), 0, cs))
    ensures s.Represents(m.cfg, NewCaches(m, pos, Embed(m, token), 0, cs))
  {
    hide RunState.Represents, NewCaches, Activation, Row;
    s.x := Embed(m, token);
    ForwardLayers(m, s, cs, pos, 0, m.cfg.nLayers);
    s.x := Normalize(m.ops, s.x, m.w.rmsFinal);
    var logits := Multiply(m.ops, s.x, m.w.wcls, m.cfg.vocab);
    next := Argmax(m.ops, logits, m.cfg.vocab);
  }

  /** The token loop of llama-inference: one cache for all layers. */
  method RunInference<F(0,!new)>(m: Model<F>, n: nat) returns (tokens: seq<nat>)
    requires m.Valid() && n <= m.cfg.seqLen
    ensures tokens == Generate(m, n).tokens
  {
    hide RunState.Represents, NewCaches, Activation, Embed, Classify;
    var s := new RunState(m.cfg, m.cfg.nLayers, []);
    tokens := [];
    var token := 0;
    for pos := 0 to n
      invariant tokens == Generate(m, pos).tokens && token == LastToken(tokens)
      invariant s.Represents(m.cfg, Generate(m, pos).caches)
      invariant fresh(s) && fresh(s.keyCache) && fresh(s.valueCache)
    {
      token := NextToken(m, s, Generate(m, pos).caches, token, pos);
      tokens := tokens + [token];
    }
  }

  /** Two flat caches, one for all layers and one for the layers from `k` on: local layer `l` of the
      second has in every slot what layer `k + l` of the first has. */
  lemma FlatCachesAgree<F(0,!new)>(cfg: Config, whole: RunState<F>, part: RunState<F>, cs: seq<Cache<F>>, lo: nat, hi: nat, l: nat, t: nat, i: nat)
    requires cfg.nHeads > 0 && lo + l < hi <= |cs| && i < cfg.KvDim()
    requires whole.Represents(cfg, cs) && part.Represents(cfg, cs[lo..hi])
    requires t < |cs[lo + l].keys| && t < |cs[lo + l].vals|
    ensures Index(cfg, l, t, i) < part.keyCache.Length == part.valueCache.Length
    ensures Index(cfg, lo + l, t, i) < whole.keyCache.Length == whole.valueCache.Length
    ensures part.keyCache[Index(cfg, l, t, i)] == whole.keyCache[Index(cfg, lo + l, t, i)]
    ensures part.valueCache[Index(cfg, l, t, i)] == whole.valueCache[Index(cfg, lo + l, t, i)]
  {
    hide Index, RunState.Represents, Config.KvDim;
    CacheSizes(cfg, whole, cs);
    CacheSizes(cfg, part, cs[lo..hi]);
    LayerOf(whole, cfg, cs, lo + l);
    LayerOf(part, cfg, cs[lo..hi], l);
    assert cs[lo..hi][l] == cs[lo + l];
    assert SlotHolds(cfg, whole.keyCache[..], lo + l, t, i, cs[lo + l].keys[t]);
    assert SlotHolds(cfg, part.keyCache[..], l, t, i, cs[lo + l].keys[t]);
    assert SlotHolds(cfg, whole.valueCache[..], lo + l, t, i, cs[lo + l].vals[t]);
    assert SlotHolds(cfg, part.valueCache[..], l, t, i, cs[lo + l].vals[t]);
  }

  lemma CacheSizes<F(0,!new)>(cfg: Config, s: RunState<F>, cs: seq<Cache<F>>)
    requires cfg.nHeads > 0 && s.Represents(cfg, cs)
    ensures s.keyCache.Length == s.valueCache.Length
  {}
}
