/** The llama2.c forward pass both shards share, over an arbitrary float type: the arithmetic is a
    parameter, what is modelled is which values flow where. */
module Transformer {

  /** Float operations: the arithmetic of the machine, its exponential function, the score divided by the square
      root of a head size, and the factor by which `rmsnorm` scales a vector with this sum of squares and size. */
  datatype Ops<!F> = Ops(
    zero: F, one: F, add: (F, F) -> F, sub: (F, F) -> F, mul: (F, F) -> F, div: (F, F) -> F,
    neg: F -> F, exp: F -> F, greater: (F, F) -> bool, scale: (F, nat) -> F, rmsScale: (F, nat) -> F)

  datatype Config = Config(dim: nat, hiddenDim: nat, nLayers: nat, nHeads: nat, nKvHeads: nat, vocab: nat, seqLen: nat) {
    ghost predicate Valid() {
      && nHeads > 0 && nKvHeads > 0 && vocab > 0
      && nHeads % nKvHeads == 0 && dim % nHeads == 0 && dim / nHeads > 0 && dim / nHeads % 2 == 0
    }

    function HeadSize(): nat
      requires nHeads > 0
    {
      dim / nHeads
    }

    function KvDim(): nat
      requires nHeads > 0
    {
      nKvHeads * HeadSize()
    }

    function KvHead(h: nat): nat
      requires nHeads > 0 && nKvHeads > 0 && nHeads / nKvHeads > 0
    {
      h / (nHeads / nKvHeads)
    }
  }

  datatype Weights<F> = Weights(
    embedding: seq<F>, rmsAtt: seq<F>, wq: seq<F>, wk: seq<F>, wv: seq<F>, wo: seq<F>,
    rmsFfn: seq<F>, w1: seq<F>, w2: seq<F>, w3: seq<F>, rmsFinal: seq<F>,
    freqReal: seq<F>, freqImag: seq<F>, wcls: seq<F>)

  /** `a * b`, by recursion: the size of a table of `a` rows of `b` floats. */
  function Cells(a: nat, b: nat): nat {
    if a == 0 then 0 else b + Cells(a - 1, b)
  }

  lemma {:induction false} CellsAreProduct(a: nat, b: nat)
    ensures Cells(a, b) == a * b
  {
    if a > 0 {
      CellsAreProduct(a - 1, b);
      assert a * b == (a - 1) * b + b;
    }
  }

  lemma MulMono(a: nat, b: nat, k: nat)
    requires a <= b
    ensures a * k <= b * k
  {}

  function Quotient(j: nat, k: nat): nat
    requires k > 0
  {
    j / k
  }

  lemma DivBound(j: nat, n: nat, k: nat)
    requires k > 0 && j < n * k
    ensures j / k < n
  {
    if j / k >= n { MulMono(n, j / k, k); }
  }

  /** Entry `l` of a flat table of `n` rows of `k` floats: the pointer `w + l * k`. */
  function Row<F(!new)>(w: seq<F>, l: nat, n: nat, k: nat): (r: seq<F>)
    requires |w| == Cells(n, k) && l < n
    ensures |r| == k
  {
    CellsAreProduct(n, k);
    MulMono(l + 1, n, k);
    assert l * k + k == (l + 1) * k;
    w[l * k..l * k + k]
  }

  datatype Model<!F(!new)> = Model(ops: Ops<F>, cfg: Config, w: Weights<F>) {
    ghost predicate Valid() {
      && cfg.Valid()
      && |w.embedding| == |w.wcls| == Cells(cfg.vocab, cfg.dim) && |w.rmsFinal| == cfg.dim
      && |w.rmsAtt| == Cells(cfg.nLayers, cfg.dim) && |w.rmsFfn| == Cells(cfg.nLayers, cfg.dim)
      && |w.wq| == |w.wo| == Cells(cfg.nLayers, Cells(cfg.dim, cfg.dim))
      && |w.wk| == |w.wv| == Cells(cfg.nLayers, Cells(cfg.KvDim(), cfg.dim))
      && |w.w1| == |w.w3| == Cells(cfg.nLayers, Cells(cfg.hiddenDim, cfg.dim))
      && |w.w2| == Cells(cfg.nLayers, Cells(cfg.dim, cfg.hiddenDim))
      && |w.freqReal| == Cells(cfg.seqLen, cfg.HeadSize() / 2) && |w.freqImag| == |w.freqReal|
    }
  }

  // ------------------------------------------------------------------ kernels

  /** sum of a[ai + i] * b[bi + i] over i < n, added in order. */
  function Dot<F(!new)>(ops: Ops<F>, a: seq<F>, ai: nat, b: seq<F>, bi: nat, n: nat): F
    requires ai + n <= |a| && bi + n <= |b|
  {
    if n == 0 then ops.zero
    else ops.add(Dot(ops, a, ai, b, bi, n - 1), ops.mul(a[ai + n - 1], b[bi + n - 1]))
  }

  /** `matmul`: the product of a matrix of `d` rows, stored row by row, with a vector. */
  function MatMul<F(!new)>(ops: Ops<F>, x: seq<F>, w: seq<F>, d: nat): (r: seq<F>)
    requires |w| == Cells(d, |x|)
    ensures |r| == d
  {
    seq(d, i requires 0 <= i < d => Dot(ops, Row(w, i, d, |x|), 0, x, 0, |x|))
  }

  /** `rmsnorm`. */
  function RmsNorm<F(!new)>(ops: Ops<F>, x: seq<F>, w: seq<F>): (r: seq<F>)
    requires |w| == |x|
    ensures |r| == |x|
  {
    var ss := ops.rmsScale(Dot(ops, x, 0, x, 0, |x|), |x|);
    seq(|x|, i requires 0 <= i < |x| => ops.mul(w[i], ops.mul(ss, x[i])))
  }

  /** The largest of the first `n` floats, as `softmax` looks for it. */
  function MaxOf<F>(ops: Ops<F>, x: seq<F>, n: nat): F
    requires 0 < n <= |x|
  {
    if n == 1 then x[0]
    else
      var best := MaxOf(ops, x, n - 1);
      if ops.greater(x[n - 1], best) then x[n - 1] else best
  }

  function Sum<F>(ops: Ops<F>, x: seq<F>, n: nat): F
    requires n <= |x|
  {
    if n == 0 then ops.zero else ops.add(Sum(ops, x, n - 1), x[n - 1])
  }

  function Exponentials<F>(ops: Ops<F>, x: seq<F>): (r: seq<F>)
    requires x != []
    ensures |r| == |x|
  {
    var max := MaxOf(ops, x, |x|);
    seq(|x|, i requires 0 <= i < |x| => ops.exp(ops.sub(x[i], max)))
  }

  /** `softmax`. */
  function Softmax<F>(ops: Ops<F>, x: seq<F>): (r: seq<F>)
    requires x != []
    ensures |r| == |x|
  {
    var e := Exponentials(ops, x);
    var sum := Sum(ops, e, |e|);
    seq(|x|, i requires 0 <= i < |x| => ops.div(e[i], sum))
  }

  function Silu<F>(ops: Ops<F>, x: F): F {
    ops.mul(x, ops.div(ops.one, ops.add(ops.one, ops.exp(ops.neg(x)))))
  }

  // ------------------------------------------------------------------ one layer

  /** Rotary position encoding of pair `i`, `i + 1`; component `j` is one of the two. */
  function Rotated<F(!new)>(m: Model<F>, pos: nat, v: seq<F>, j: nat): F
    requires m.cfg.nHeads > 0 && m.cfg.HeadSize() > 0 && m.cfg.HeadSize() % 2 == 0 && pos < m.cfg.seqLen
    requires |m.w.freqReal| == Cells(m.cfg.seqLen, m.cfg.HeadSize() / 2) && |m.w.freqImag| == |m.w.freqReal|
    requires j < |v| && |v| % 2 == 0
  {
    var i := j / 2 * 2;
    var c := FreqIndex(m.cfg, pos, i);
    var fcr, fci := m.w.freqReal[c], m.w.freqImag[c];
    if j == i then m.ops.sub(m.ops.mul(v[i], fcr), m.ops.mul(v[i + 1], fci))
    else m.ops.add(m.ops.mul(v[i], fci), m.ops.mul(v[i + 1], fcr))
  }

  function FreqIndex(cfg: Config, pos: nat, i: nat): (c: nat)
    requires cfg.nHeads > 0 && cfg.HeadSize() > 0 && cfg.HeadSize() % 2 == 0 && pos < cfg.seqLen
    ensures c < Cells(cfg.seqLen, cfg.HeadSize() / 2)
  {
    var half := cfg.HeadSize() / 2;
    CellsAreProduct(cfg.seqLen, half);
    MulMono(pos + 1, cfg.seqLen, half);
    assert pos * half + half == (pos + 1) * half;
    pos * half + i % cfg.HeadSize() / 2
  }

  function Rope<F(!new)>(m: Model<F>, pos: nat, v: seq<F>): (r: seq<F>)
    requires m.cfg.nHeads > 0 && m.cfg.HeadSize() > 0 && m.cfg.HeadSize() % 2 == 0 && pos < m.cfg.seqLen
    requires |m.w.freqReal| == Cells(m.cfg.seqLen, m.cfg.HeadSize() / 2) && |m.w.freqImag| == |m.w.freqReal|
    requires |v| % 2 == 0
    ensures |r| == |v|
  {
    seq(|v|, j requires 0 <= j < |v| => Rotated(m, pos, v, j))
  }

  /** The key and value rows one layer has cached, one per position so far. */
  datatype Cache<F> = Cache(keys: seq<seq<F>>, vals: seq<seq<F>>) {
    ghost predicate Shaped(n: nat, kvDim: nat) {
      |keys| == n && |vals| == n && (forall t :: 0 <= t < n ==> |keys[t]| == kvDim && |vals[t]| == kvDim)
    }

    function Push(k: seq<F>, v: seq<F>): Cache<F> {
      Cache(keys + [k], vals + [v])
    }
  }

  /** The attention scores of one head over positions 0 .. n. */
  function Scores<F(!new)>(ops: Ops<F>, q: seq<F>, qi: nat, keys: seq<seq<F>>, ki: nat, hs: nat): (s: seq<F>)
    requires qi + hs <= |q| && forall t :: 0 <= t < |keys| ==> ki + hs <= |keys[t]|
    ensures |s| == |keys|
  {
    seq(|keys|, t requires 0 <= t < |keys| => ops.scale(Dot(ops, q, qi, keys[t], ki, hs), hs))
  }

  /** Component `i` of the weighted sum of the first `n` value rows. */
  function Blend<F(!new)>(ops: Ops<F>, att: seq<F>, vals: seq<seq<F>>, i: nat, n: nat): F
    requires n <= |att| && n <= |vals| && forall t :: 0 <= t < n ==> i < |vals[t]|
  {
    if n == 0 then ops.zero
    else ops.add(Blend(ops, att, vals, i, n - 1), ops.mul(att[n - 1], vals[n - 1][i]))
  }

  lemma HeadFits(cfg: Config, h: nat)
    requires cfg.Valid() && h < cfg.nHeads
    ensures h * cfg.HeadSize() + cfg.HeadSize() <= cfg.dim
    ensures cfg.nHeads / cfg.nKvHeads > 0 && cfg.KvHead(h) < cfg.nKvHeads
    ensures cfg.KvHead(h) * cfg.HeadSize() + cfg.HeadSize() <= cfg.KvDim()
  {
    var hs, mul := cfg.HeadSize(), cfg.nHeads / cfg.nKvHeads;
    assert cfg.dim == cfg.nHeads * hs;
    MulMono(h + 1, cfg.nHeads, hs);
    assert (h + 1) * hs == h * hs + hs;
    assert cfg.nHeads == cfg.nKvHeads * mul;
    DivBound(h, cfg.nKvHeads, mul);
    MulMono(cfg.KvHead(h) + 1, cfg.nKvHeads, hs);
    assert (cfg.KvHead(h) + 1) * hs == cfg.KvHead(h) * hs + hs;
  }

  /** Component `j` of the attention output belongs to head `j / headSize`: where that head starts in
      the query, where its key/value head starts in a cached row, and the component inside the head. */
  ghost function HeadPlace(cfg: Config, j: nat): (r: (nat, nat, nat))
    requires cfg.Valid() && j < cfg.dim
    ensures r.0 + cfg.HeadSize() <= cfg.dim && r.1 + cfg.HeadSize() <= cfg.KvDim() && r.2 < cfg.HeadSize()
  {
    var h := HeadNumber(cfg, j);
    (HeadStart(cfg, h), KvStart(cfg, h), HeadOffset(cfg, j))
  }

  ghost function HeadNumber(cfg: Config, j: nat): (h: nat)
    requires cfg.Valid() && j < cfg.dim
    ensures h < cfg.nHeads
  {
    HeadOf(cfg, j);
    Quotient(j, cfg.HeadSize())
  }

  ghost function HeadOffset(cfg: Config, j: nat): (i: nat)
    requires cfg.Valid()
    ensures i < cfg.HeadSize()
  {
    j % cfg.HeadSize()
  }

  /** Where head `h` starts in a query. */
  ghost function HeadStart(cfg: Config, h: nat): (i: nat)
    requires cfg.Valid() && h < cfg.nHeads
    ensures i + cfg.HeadSize() <= cfg.dim
  {
    HeadFits(cfg, h);
    h * cfg.HeadSize()
  }

  /** Where the key/value head of head `h` starts in a cached row. */
  ghost function KvStart(cfg: Config, h: nat): (i: nat)
    requires cfg.Valid() && h < cfg.nHeads
    ensures i + cfg.HeadSize() <= cfg.KvDim()
  {
    HeadFits(cfg, h);
    cfg.KvHead(h) * cfg.HeadSize()
  }

  /** Component `j` of the attention output, with grouped-query key/value heads. */
  ghost function AttentionAt<F(!new)>(m: Model<F>, q: seq<F>, c: Cache<F>, j: nat): F
    requires m.cfg.Valid() && c.keys != [] && |q| == m.cfg.dim && j < m.cfg.dim && c.Shaped(|c.keys|, m.cfg.KvDim())
  {
    var (qi, base, i) := HeadPlace(m.cfg, j);
    var att := Softmax(m.ops, Scores(m.ops, q, qi, c.keys, base, m.cfg.HeadSize()));
    Blend(m.ops, att, c.vals, base + i, |c.vals|)
  }

  lemma HeadOf(cfg: Config, j: nat)
    requires cfg.Valid() && j < cfg.dim
    ensures Quotient(j, cfg.HeadSize()) < cfg.nHeads
  {
    var hs := cfg.HeadSize();
    assert cfg.dim == cfg.nHeads * hs;
    DivBound(j, cfg.nHeads, hs);
  }

  ghost function Attention<F(!new)>(m: Model<F>, q: seq<F>, c: Cache<F>): (r: seq<F>)
    requires m.cfg.Valid() && c.keys != [] && |q| == m.cfg.dim && c.Shaped(|c.keys|, m.cfg.KvDim())
    ensures |r| == m.cfg.dim
  {
    seq(m.cfg.dim, j requires 0 <= j < m.cfg.dim => AttentionAt(m, q, c, j))
  }

  function AddVec<F(!new)>(ops: Ops<F>, a: seq<F>, b: seq<F>): (r: seq<F>)
    requires |a| == |b|
    ensures |r| == |a|
  {
    seq(|a|, i requires 0 <= i < |a| => ops.add(a[i], b[i]))
  }

  function Gate<F(!new)>(ops: Ops<F>, a: seq<F>, b: seq<F>): (r: seq<F>)
    requires |a| == |b|
    ensures |r| == |a|
  {
    seq(|a|, i requires 0 <= i < |a| => ops.mul(Silu(ops, a[i]), b[i]))
  }

  lemma EvenSizes(cfg: Config)
    requires cfg.Valid()
    ensures cfg.dim % 2 == 0 && cfg.KvDim() % 2 == 0
  {
    var half := cfg.HeadSize() / 2;
    assert cfg.dim == cfg.nHeads * (2 * half) == 2 * (cfg.nHeads * half);
    assert cfg.KvDim() == cfg.nKvHeads * (2 * half) == 2 * (cfg.nKvHeads * half);
  }

  ghost function Query<F(!new)>(m: Model<F>, l: nat, pos: nat, x: seq<F>): (r: seq<F>)
    requires m.Valid() && l < m.cfg.nLayers && pos < m.cfg.seqLen && |x| == m.cfg.dim
    ensures |r| == m.cfg.dim
  {
    var d := m.cfg.dim;
    EvenSizes(m.cfg);
    Rope(m, pos, MatMul(m.ops, RmsNorm(m.ops, x, Row(m.w.rmsAtt, l, m.cfg.nLayers, d)), Row(m.w.wq, l, m.cfg.nLayers, Cells(d, d)), d))
  }

  ghost function Key<F(!new)>(m: Model<F>, l: nat, pos: nat, x: seq<F>): (r: seq<F>)
    requires m.Valid() && l < m.cfg.nLayers && pos < m.cfg.seqLen && |x| == m.cfg.dim
    ensures |r| == m.cfg.KvDim()
  {
    var d, kv := m.cfg.dim, m.cfg.KvDim();
    EvenSizes(m.cfg);
    Rope(m, pos, MatMul(m.ops, RmsNorm(m.ops, x, Row(m.w.rmsAtt, l, m.cfg.nLayers, d)), Row(m.w.wk, l, m.cfg.nLayers, Cells(kv, d)), kv))
  }

  ghost function Value<F(!new)>(m: Model<F>, l: nat, x: seq<F>): (r: seq<F>)
    requires m.Valid() && l < m.cfg.nLayers && |x| == m.cfg.dim
    ensures |r| == m.cfg.KvDim()
  {
    var d, kv := m.cfg.dim, m.cfg.KvDim();
    MatMul(m.ops, RmsNorm(m.ops, x, Row(m.w.rmsAtt, l, m.cfg.nLayers, d)), Row(m.w.wv, l, m.cfg.nLayers, Cells(kv, d)), kv)
  }

  /** Output projection, residual, feed-forward network, residual. */
  ghost function FeedForward<F(!new)>(m: Model<F>, l: nat, x: seq<F>, att: seq<F>): (r: seq<F>)
    requires m.Valid() && l < m.cfg.nLayers && |x| == m.cfg.dim && |att| == m.cfg.dim
    ensures |r| == m.cfg.dim
  {
    var d, hd, n := m.cfg.dim, m.cfg.hiddenDim, m.cfg.nLayers;
    var x1 := AddVec(m.ops, x, MatMul(m.ops, att, Row(m.w.wo, l, n, Cells(d, d)), d));
    var xb := RmsNorm(m.ops, x1, Row(m.w.rmsFfn, l, n, d));
    var hb := Gate(m.ops, MatMul(m.ops, xb, Row(m.w.w1, l, n, Cells(hd, d)), hd), MatMul(m.ops, xb, Row(m.w.w3, l, n, Cells(hd, d)), hd));
    AddVec(m.ops, x1, MatMul(m.ops, hb, Row(m.w.w2, l, n, Cells(d, hd)), d))
  }

  ghost function Pushed<F(!new)>(m: Model<F>, l: nat, pos: nat, x: seq<F>, c: Cache<F>): (r: Cache<F>)
    requires m.Valid() && l < m.cfg.nLayers && pos < m.cfg.seqLen && |x| == m.cfg.dim
    requires c.Shaped(pos, m.cfg.KvDim())
    ensures r.Shaped(pos + 1, m.cfg.KvDim())
  {
    c.Push(Key(m, l, pos, x), Value(m, l, x))
  }

  /** One layer at one position: the new activation. */
  ghost function Layer<F(!new)>(m: Model<F>, l: nat, pos: nat, x: seq<F>, c: Cache<F>): (r: seq<F>)
    requires m.Valid() && l < m.cfg.nLayers && pos < m.cfg.seqLen && |x| == m.cfg.dim
    requires c.Shaped(pos, m.cfg.KvDim())
    ensures |r| == m.cfg.dim
  {
    FeedForward(m, l, x, Attention(m, Query(m, l, pos, x), Pushed(m, l, pos, x, c)))
  }

  // ------------------------------------------------------------------ a range of layers

  ghost predicate Caches<F(!new)>(m: Model<F>, pos: nat, cs: seq<Cache<F>>)
    requires m.cfg.nHeads > 0
  {
    forall i :: 0 <= i < |cs| ==> cs[i].Shaped(pos, m.cfg.KvDim())
  }

  /** The activation after layers lo .. lo + |cs|, whose caches are `cs`, local index first. */
  ghost function Activation<F(!new)>(m: Model<F>, pos: nat, x: seq<F>, lo: nat, cs: seq<Cache<F>>): (r: seq<F>)
    requires m.Valid() && lo + |cs| <= m.cfg.nLayers && pos < m.cfg.seqLen && |x| == m.cfg.dim && Caches(m, pos, cs)
    ensures |r| == m.cfg.dim
    decreases |cs|
  {
    if cs == [] then x
    else
      var n := |cs| - 1;
      Layer(m, lo + n, pos, Activation(m, pos, x, lo, cs[..n]), cs[n])
  }

  /** The caches after the same layers. */
  ghost function NewCaches<F(!new)>(m: Model<F>, pos: nat, x: seq<F>, lo: nat, cs: seq<Cache<F>>): (r: seq<Cache<F>>)
    requires m.Valid() && lo + |cs| <= m.cfg.nLayers && pos < m.cfg.seqLen && |x| == m.cfg.dim && Caches(m, pos, cs)
    ensures |r| == |cs| && Caches(m, pos + 1, r)
    decreases |cs|
  {
    if cs == [] then []
    else
      var n := |cs| - 1;
      NewCaches(m, pos, x, lo, cs[..n]) + [Pushed(m, lo + n, pos, Activation(m, pos, x, lo, cs[..n]), cs[n])]
  }

  /** Splitting a range of layers: running [lo, k) and then [k, hi) with two caches is running
      [lo, hi) with one, in the activation and in what the caches hold. */
  lemma {:induction false} SplitRange<F(!new)>(m: Model<F>, pos: nat, x: seq<F>, lo: nat, a: seq<Cache<F>>, b: seq<Cache<F>>)
    requires m.Valid() && lo + |a| + |b| <= m.cfg.nLayers && pos < m.cfg.seqLen && |x| == m.cfg.dim
    requires Caches(m, pos, a) && Caches(m, pos, b)
    ensures Caches(m, pos, a + b)
    ensures var mid := Activation(m, pos, x, lo, a);
            && Activation(m, pos, x, lo, a + b) == Activation(m, pos, mid, lo + |a|, b)
            && NewCaches(m, pos, x, lo, a + b) == NewCaches(m, pos, x, lo, a) + NewCaches(m, pos, mid, lo + |a|, b)
    decreases |b|
  {
    hide Layer, Pushed;
    if b == [] {
      assert a + b == a;
    } else {
      var n := |b| - 1;
      SplitRange(m, pos, x, lo, a, b[..n]);
      assert (a + b)[..|a| + n] == a + b[..n] && (a + b)[|a| + n] == b[n];
    }
  }
}
