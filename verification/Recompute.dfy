/** The network as it is written down, without caches and without slices: every position is computed from the
    text up to it, float by float, from flat weight tables by index. The forward pass with its caches computes
    the same. */
module Recompute {
  import opened Transformer
  import opened Inference

  // ------------------------------------------------------------------ notation

  /** f(0) + ... + f(n - 1), added in order. */
  ghost function SumOf<F>(ops: Ops<F>, n: nat, f: nat -> F): F {
    if n == 0 then ops.zero else ops.add(SumOf(ops, n - 1, f), f(n - 1))
  }

  /** Float `i` of a table. */
  ghost function At<F>(ops: Ops<F>, w: seq<F>, i: nat): F {
    if i < |w| then w[i] else ops.zero
  }

  /** Where the matrix of layer `l` starts in a table of matrices of `rows` times `columns` floats. */
  ghost function Base(l: nat, rows: nat, columns: nat): nat {
    l * (rows * columns)
  }

  ghost function Rest(j: nat, k: nat): (r: nat)
    requires k > 0
    ensures r < k
  {
    j % k
  }

  /** Row `i` of the matrix of `n` columns that starts at `base` of a table, times a vector. */
  ghost function Times<F>(ops: Ops<F>, w: seq<F>, base: nat, n: nat, x: seq<F>, i: nat): F {
    SumOf(ops, n, (j: nat) => ops.mul(At(ops, w, base + i * n + j), At(ops, x, j)))
  }

  ghost function Product<F>(ops: Ops<F>, w: seq<F>, base: nat, rows: nat, x: seq<F>): (y: seq<F>)
    ensures |y| == rows
  {
    seq(rows, i requires 0 <= i => Times(ops, w, base, |x|, x, i))
  }

  ghost function Squares<F>(ops: Ops<F>, x: seq<F>): F {
    SumOf(ops, |x|, (j: nat) => ops.mul(At(ops, x, j), At(ops, x, j)))
  }

  ghost function Normed<F>(ops: Ops<F>, w: seq<F>, base: nat, x: seq<F>): (y: seq<F>)
    ensures |y| == |x|
  {
    seq(|x|, i requires 0 <= i => ops.mul(At(ops, w, base + i), ops.mul(ops.rmsScale(Squares(ops, x), |x|), At(ops, x, i))))
  }

  /** Where the angle of float `j` at position `t` is in the two tables. */
  ghost function Angle(t: nat, hs: nat, j: nat): nat
    requires hs > 0
  {
    t * (hs / 2) + Rest(j, hs) / 2
  }

  /** Pairs of floats turned by the angles of position `t`; the angles repeat with every head. */
  ghost function Turned<F(!new)>(m: Model<F>, t: nat, v: seq<F>): (y: seq<F>)
    requires m.cfg.Valid()
    ensures |y| == |v|
  {
    var hs := m.cfg.HeadSize();
    seq(|v|, j requires 0 <= j < |v| =>
      var angle := Angle(t, hs, j);
      var re, im := At(m.ops, m.w.freqReal, angle), At(m.ops, m.w.freqImag, angle);
      if j % 2 == 0 then m.ops.sub(m.ops.mul(v[j], re), m.ops.mul(At(m.ops, v, j + 1), im))
      else m.ops.add(m.ops.mul(v[j - 1], im), m.ops.mul(v[j], re)))
  }

  // ------------------------------------------------------------------ one layer at one position

  ghost function RefQuery<F(!new)>(m: Model<F>, l: nat, t: nat, x: seq<F>): seq<F>
    requires m.cfg.Valid()
  {
    var d := m.cfg.dim;
    Turned(m, t, Product(m.ops, m.w.wq, Base(l, d, d), d, Normed(m.ops, m.w.rmsAtt, l * d, x)))
  }

  ghost function RefKey<F(!new)>(m: Model<F>, l: nat, t: nat, x: seq<F>): seq<F>
    requires m.cfg.Valid()
  {
    var d, kv := m.cfg.dim, m.cfg.KvDim();
    Turned(m, t, Product(m.ops, m.w.wk, Base(l, kv, d), kv, Normed(m.ops, m.w.rmsAtt, l * d, x)))
  }

  ghost function RefValue<F(!new)>(m: Model<F>, l: nat, x: seq<F>): seq<F>
    requires m.cfg.Valid()
  {
    var d, kv := m.cfg.dim, m.cfg.KvDim();
    Product(m.ops, m.w.wv, Base(l, kv, d), kv, Normed(m.ops, m.w.rmsAtt, l * d, x))
  }

  /** The group of heads that head `h` shares its keys and values with. */
  ghost function Group(cfg: Config, h: nat): nat
    requires cfg.Valid()
  {
    var size := cfg.nHeads / cfg.nKvHeads;
    if size == 0 then 0 else h / size
  }

  /** Float `i` of part `h` of a vector that is cut into parts of `hs` floats. */
  ghost function Part<F>(ops: Ops<F>, v: seq<F>, h: nat, hs: nat, i: nat): F {
    At(ops, v, h * hs + i)
  }

  /** The score of one key for head `h`. */
  ghost function Score<F(!new)>(m: Model<F>, q: seq<F>, key: seq<F>, h: nat): F
    requires m.cfg.Valid()
  {
    var hs, g := m.cfg.HeadSize(), Group(m.cfg, h);
    m.ops.scale(SumOf(m.ops, hs, (i: nat) => m.ops.mul(Part(m.ops, q, h, hs, i), Part(m.ops, key, g, hs, i))), hs)
  }

  ghost function AllScores<F(!new)>(m: Model<F>, q: seq<F>, keys: seq<seq<F>>, h: nat): (s: seq<F>)
    requires m.cfg.Valid()
    ensures |s| == |keys|
  {
    seq(|keys|, u requires 0 <= u < |keys| => Score(m, q, keys[u], h))
  }

  /** The share of position `u` among some scores: exponentials, taken relative to the first largest score. */
  ghost function Share<F(!new)>(ops: Ops<F>, s: seq<F>, u: nat): F
    requires u < |s|
  {
    var top := s[ArgMax(ops, s, |s|)];
    ops.div(ops.exp(ops.sub(s[u], top)), SumOf(ops, |s|, (v: nat) => ops.exp(ops.sub(At(ops, s, v), top))))
  }

  /** Float `i` of the output of head `h`: the values of its group, each with its share. */
  ghost function Mixed<F(!new)>(m: Model<F>, q: seq<F>, keys: seq<seq<F>>, vals: seq<seq<F>>, h: nat, i: nat): F
    requires m.cfg.Valid() && |keys| == |vals|
  {
    SumOf(m.ops, |vals|, (u: nat) => Contribution(m, AllScores(m, q, keys, h), vals, h, i, u))
  }

  ghost function Contribution<F(!new)>(m: Model<F>, s: seq<F>, vals: seq<seq<F>>, h: nat, i: nat, u: nat): F
    requires m.cfg.Valid() && |s| == |vals|
  {
    if u < |vals| then m.ops.mul(Share(m.ops, s, u), Part(m.ops, vals[u], Group(m.cfg, h), m.cfg.HeadSize(), i)) else m.ops.zero
  }

  /** Float `j` of the attention output is float `PlaceIn` of the output of head `HeadIn`. */
  ghost function HeadIn(cfg: Config, j: nat): nat
    requires cfg.Valid()
  {
    Quotient(j, cfg.HeadSize())
  }

  ghost function PlaceIn(cfg: Config, j: nat): nat
    requires cfg.Valid()
  {
    Rest(j, cfg.HeadSize())
  }

  /** The attention output: the outputs of the heads one after the other. */
  ghost function Attended<F(!new)>(m: Model<F>, q: seq<F>, keys: seq<seq<F>>, vals: seq<seq<F>>): (y: seq<F>)
    requires m.cfg.Valid() && |keys| == |vals|
    ensures |y| == m.cfg.dim
  {
    seq(m.cfg.dim, j requires 0 <= j => Mixed(m, q, keys, vals, HeadIn(m.cfg, j), PlaceIn(m.cfg, j)))
  }

  ghost function Added<F>(ops: Ops<F>, x: seq<F>, y: seq<F>): (z: seq<F>)
    ensures |z| == |x|
  {
    seq(|x|, i requires 0 <= i => ops.add(At(ops, x, i), At(ops, y, i)))
  }

  /** The gated hidden units: `silu` of the first product, times the third. */
  ghost function Hidden<F(!new)>(m: Model<F>, l: nat, x: seq<F>): (hidden: seq<F>)
    ensures |hidden| == m.cfg.hiddenDim
  {
    var d, hd := m.cfg.dim, m.cfg.hiddenDim;
    var xn := Normed(m.ops, m.w.rmsFfn, l * d, x);
    seq(hd, j requires 0 <= j =>
      var a := Times(m.ops, m.w.w1, Base(l, hd, d), |xn|, xn, j);
      var sigmoid := m.ops.div(m.ops.one, m.ops.add(m.ops.one, m.ops.exp(m.ops.neg(a))));
      m.ops.mul(m.ops.mul(a, sigmoid), Times(m.ops, m.w.w3, Base(l, hd, d), |xn|, xn, j)))
  }

  /** One layer at position `t`, given the keys and values of the positions before it. */
  ghost function RefLayer<F(!new)>(m: Model<F>, l: nat, t: nat, x: seq<F>, keys: seq<seq<F>>, vals: seq<seq<F>>): (y: seq<F>)
    requires m.cfg.Valid() && |keys| == |vals|
    ensures |y| == |x|
  {
    var d, hd := m.cfg.dim, m.cfg.hiddenDim;
    var q, ks, vs := RefQuery(m, l, t, x), keys + [RefKey(m, l, t, x)], vals + [RefValue(m, l, x)];
    var x1 := Added(m.ops, x, Product(m.ops, m.w.wo, Base(l, d, d), d, Attended(m, q, ks, vs)));
    Added(m.ops, x1, Product(m.ops, m.w.w2, Base(l, d, hd), d, Hidden(m, l, x1)))
  }

  // ------------------------------------------------------------------ the kernels agree

  lemma {:induction false} DotIsSum<F(!new)>(ops: Ops<F>, a: seq<F>, ai: nat, b: seq<F>, bi: nat, n: nat, f: nat -> F)
    requires ai + n <= |a| && bi + n <= |b| && forall j: nat :: j < n ==> f(j) == ops.mul(a[ai + j], b[bi + j])
    ensures Dot(ops, a, ai, b, bi, n) == SumOf(ops, n, f)
  {
    if n > 0 { DotIsSum(ops, a, ai, b, bi, n - 1, f); }
  }

  lemma {:induction false} SumsAgree<F>(ops: Ops<F>, n: nat, f: nat -> F, g: nat -> F)
    requires forall j: nat :: j < n ==> f(j) == g(j)
    ensures SumOf(ops, n, f) == SumOf(ops, n, g)
  {
    if n > 0 { SumsAgree(ops, n - 1, f, g); }
  }

  /** Float `j` of row `i` of the matrix of layer `l`. */
  lemma FlatMatrix<F(!new)>(ops: Ops<F>, w: seq<F>, l: nat, layers: nat, i: nat, d: nat, k: nat, j: nat)
    requires |w| == Cells(layers, Cells(d, k)) && l < layers && i < d && j < k
    ensures Row(Row(w, l, layers, Cells(d, k)), i, d, k)[j] == At(ops, w, Base(l, d, k) + i * k + j)
  {
    hide Row;
    CellsAreProduct(d, k);
    var matrix := Row(w, l, layers, Cells(d, k));
    FlatRow(matrix, i, d, k, j);
    FlatRow(w, l, layers, Cells(d, k), i * k + j);
  }

  lemma MatMulIsProduct<F(!new)>(ops: Ops<F>, x: seq<F>, w: seq<F>, l: nat, layers: nat, d: nat)
    requires |w| == Cells(layers, Cells(d, |x|)) && l < layers
    ensures MatMul(ops, x, Row(w, l, layers, Cells(d, |x|)), d) == Product(ops, w, Base(l, d, |x|), d, x)
  {
    hide Row, SumOf, Dot, Cells, Base;
    var k, base := |x|, Base(l, d, |x|);
    var matrix := Row(w, l, layers, Cells(d, k));
    forall i | 0 <= i < d ensures Dot(ops, Row(matrix, i, d, k), 0, x, 0, k) == Times(ops, w, base, k, x, i) {
      forall j: nat | j < k ensures Row(matrix, i, d, k)[j] == At(ops, w, base + i * k + j) {
        FlatMatrix(ops, w, l, layers, i, d, k, j);
      }
      DotIsSum(ops, Row(matrix, i, d, k), 0, x, 0, k, (j: nat) => ops.mul(At(ops, w, base + i * k + j), At(ops, x, j)));
    }
  }

  lemma InTable<F>(ops: Ops<F>, x: seq<F>)
    ensures forall j: nat :: j < |x| ==> At(ops, x, j) == x[j]
  {}

  lemma SquaresAgree<F(!new)>(ops: Ops<F>, x: seq<F>)
    ensures Dot(ops, x, 0, x, 0, |x|) == Squares(ops, x)
  {
    InTable(ops, x);
    DotIsSum(ops, x, 0, x, 0, |x|, (j: nat) => ops.mul(At(ops, x, j), At(ops, x, j)));
  }

  /** Scaling by a vector that is part of a table. */
  lemma NormIsNormed<F(!new)>(ops: Ops<F>, x: seq<F>, v: seq<F>, w: seq<F>, base: nat)
    requires |v| == |x| && forall i: nat :: i < |x| ==> v[i] == At(ops, w, base + i)
    ensures RmsNorm(ops, x, v) == Normed(ops, w, base, x)
  {
    hide Squares, Dot;
    InTable(ops, x);
    SquaresAgree(ops, x);
    forall i: nat | i < |x| ensures RmsNorm(ops, x, v)[i] == Normed(ops, w, base, x)[i] {}
  }

  lemma RmsNormIsNormed<F(!new)>(ops: Ops<F>, x: seq<F>, w: seq<F>, l: nat, layers: nat)
    requires |w| == Cells(layers, |x|) && l < layers
    ensures RmsNorm(ops, x, Row(w, l, layers, |x|)) == Normed(ops, w, l * |x|, x)
  {
    hide Row, Cells, RmsNorm, Normed;
    forall i: nat | i < |x| ensures Row(w, l, layers, |x|)[i] == At(ops, w, l * |x| + i) { FlatRow(w, l, layers, |x|, i); }
    NormIsNormed(ops, x, Row(w, l, layers, |x|), w, l * |x|);
  }

  lemma EvenProduct(q: nat, hs: nat)
    requires hs % 2 == 0
    ensures q * hs % 2 == 0
  {
    assert q * hs == q * (2 * (hs / 2)) == 2 * (q * (hs / 2));
  }

  lemma DivisionLaw(j: nat, k: nat)
    requires k > 0
    ensures j == Quotient(j, k) * k + Rest(j, k)
  {}

  /** Both floats of a pair have the same angle. */
  lemma SameAngle(j: nat, hs: nat)
    requires hs > 0 && hs % 2 == 0
    ensures Rest(j / 2 * 2, hs) / 2 == Rest(j, hs) / 2
  {
    hide Quotient, Rest;
    DivisionLaw(j, hs);
    SameAngleOf(j, Quotient(j, hs), Rest(j, hs), hs);
    TwiceHalf(Rest(j, hs));
  }

  lemma TwiceHalf(r: nat)
    ensures r / 2 * 2 / 2 == r / 2
  {}

  lemma SameAngleOf(j: nat, q: nat, r: nat, hs: nat)
    requires r < hs && hs % 2 == 0 && j == q * hs + r
    ensures Rest(j / 2 * 2, hs) == r / 2 * 2
  {
    EvenProduct(q, hs);
    SameHalf(j, q * hs, r);
    Remainder(j / 2 * 2, q, r / 2 * 2, hs);
  }

  lemma SameHalf(j: nat, even: nat, r: nat)
    requires j == even + r && even % 2 == 0
    ensures j / 2 * 2 == even + r / 2 * 2
  {}

  lemma Remainder(i: nat, q: nat, r: nat, hs: nat)
    requires r < hs && i == q * hs + r
    ensures Rest(i, hs) == r
  {
    DivisionLaw(i, hs);
    DigitsAreUnique(Quotient(i, hs), Rest(i, hs), q, r, hs);
  }

  lemma RopeIsTurned<F(!new)>(m: Model<F>, t: nat, v: seq<F>)
    requires m.Valid() && t < m.cfg.seqLen && |v| % 2 == 0
    ensures Rope(m, t, v) == Turned(m, t, v)
  {
    hide Cells, Config.HeadSize, FreqIndex, Angle;
    RopeReady(m);
    forall j | 0 <= j < |v| ensures Rotated(m, t, v, j) == Turned(m, t, v)[j] {
      PairAngle(m.cfg, t, j);
      InTable(m.ops, m.w.freqReal);
      InTable(m.ops, m.w.freqImag);
      InTable(m.ops, v);
      var c := Angle(t, m.cfg.HeadSize(), j);
      assert At(m.ops, m.w.freqReal, c) == m.w.freqReal[c] && At(m.ops, m.w.freqImag, c) == m.w.freqImag[c];
      assert j % 2 == 0 ==> At(m.ops, v, j + 1) == v[j + 1];
    }
  }

  lemma PairAngle(cfg: Config, t: nat, j: nat)
    requires cfg.Valid() && t < cfg.seqLen
    ensures cfg.HeadSize() > 0 && FreqIndex(cfg, t, j / 2 * 2) == Angle(t, cfg.HeadSize(), j) < Cells(cfg.seqLen, cfg.HeadSize() / 2)
  {
    hide Config.HeadSize;
    HeadIsEven(cfg);
    SameAngle(j, cfg.HeadSize());
    FreqIndexIs(cfg, t, j / 2 * 2);
  }

  lemma HeadIsEven(cfg: Config)
    requires cfg.Valid()
    ensures cfg.HeadSize() > 0 && cfg.HeadSize() % 2 == 0
  {}

  lemma FreqIndexIs(cfg: Config, t: nat, i: nat)
    requires cfg.Valid() && t < cfg.seqLen
    ensures cfg.HeadSize() > 0 && FreqIndex(cfg, t, i) == t * (cfg.HeadSize() / 2) + Rest(i, cfg.HeadSize()) / 2
  {}

  lemma {:induction false} MaxIsFirstLargest<F>(ops: Ops<F>, s: seq<F>, n: nat)
    requires 0 < n <= |s|
    ensures MaxOf(ops, s, n) == s[ArgMax(ops, s, n)]
  {
    if n > 1 { MaxIsFirstLargest(ops, s, n - 1); }
  }

  lemma {:induction false} SumIsSum<F>(ops: Ops<F>, x: seq<F>, n: nat, f: nat -> F)
    requires n <= |x| && forall j: nat :: j < n ==> f(j) == x[j]
    ensures Sum(ops, x, n) == SumOf(ops, n, f)
  {
    if n > 0 { SumIsSum(ops, x, n - 1, f); }
  }

  lemma SoftmaxIsShares<F(!new)>(ops: Ops<F>, s: seq<F>, u: nat)
    requires u < |s|
    ensures Softmax(ops, s)[u] == Share(ops, s, u)
  {
    hide SumOf, Sum, ArgMax, MaxOf;
    MaxIsFirstLargest(ops, s, |s|);
    var top, e := s[ArgMax(ops, s, |s|)], Exponentials(ops, s);
    var f := (v: nat) => ops.exp(ops.sub(At(ops, s, v), top));
    InTable(ops, s);
    forall v: nat | v < |s| ensures f(v) == e[v] {
      assert e[v] == ops.exp(ops.sub(s[v], MaxOf(ops, s, |s|)));
    }
    SumIsSum(ops, e, |s|, f);
  }

  // ------------------------------------------------------------------ attention agrees

  lemma GroupIs(cfg: Config, h: nat)
    requires cfg.Valid() && h < cfg.nHeads
    ensures cfg.nHeads / cfg.nKvHeads > 0 && Group(cfg, h) == cfg.KvHead(h)
    ensures HeadStart(cfg, h) == h * cfg.HeadSize() && KvStart(cfg, h) == Group(cfg, h) * cfg.HeadSize()
  {
    HeadFits(cfg, h);
  }

  lemma PartsOf<F>(ops: Ops<F>, v: seq<F>, h: nat, hs: nat)
    requires h * hs + hs <= |v|
    ensures forall i: nat :: i < hs ==> Part(ops, v, h, hs, i) == v[h * hs + i]
  {}

  lemma ScoreAgrees<F(!new)>(m: Model<F>, q: seq<F>, key: seq<F>, h: nat)
    requires m.cfg.Valid() && h < m.cfg.nHeads && |q| == m.cfg.dim && |key| == m.cfg.KvDim()
    ensures var hs := m.cfg.HeadSize();
            m.ops.scale(Dot(m.ops, q, HeadStart(m.cfg, h), key, KvStart(m.cfg, h), hs), hs) == Score(m, q, key, h)
  {
    hide Config.HeadSize, Config.KvDim, Group, Part, HeadStart, KvStart, Config.Valid;
    var hs, g := m.cfg.HeadSize(), Group(m.cfg, h);
    GroupIs(m.cfg, h);
    StartsFit(m.cfg, h);
    PartsOf(m.ops, q, h, hs);
    PartsOf(m.ops, key, g, hs);
    DotIsSum(m.ops, q, h * hs, key, g * hs, hs, (i: nat) => m.ops.mul(Part(m.ops, q, h, hs, i), Part(m.ops, key, g, hs, i)));
  }

  lemma StartsFit(cfg: Config, h: nat)
    requires cfg.Valid() && h < cfg.nHeads
    ensures HeadStart(cfg, h) + cfg.HeadSize() <= cfg.dim && KvStart(cfg, h) + cfg.HeadSize() <= cfg.KvDim()
  {}

  lemma ScoresAgree<F(!new)>(m: Model<F>, q: seq<F>, keys: seq<seq<F>>, h: nat)
    requires m.cfg.Valid() && h < m.cfg.nHeads && |q| == m.cfg.dim
    requires forall t :: 0 <= t < |keys| ==> |keys[t]| == m.cfg.KvDim()
    ensures Scores(m.ops, q, HeadStart(m.cfg, h), keys, KvStart(m.cfg, h), m.cfg.HeadSize()) == AllScores(m, q, keys, h)
  {
    hide Config.HeadSize, Config.KvDim, HeadStart, KvStart, Config.Valid, Score, Dot;
    StartsFit(m.cfg, h);
    forall u | 0 <= u < |keys|
      ensures m.ops.scale(Dot(m.ops, q, HeadStart(m.cfg, h), keys[u], KvStart(m.cfg, h), m.cfg.HeadSize()), m.cfg.HeadSize())
              == Score(m, q, keys[u], h)
    {
      ScoreAgrees(m, q, keys[u], h);
    }
  }

  lemma {:induction false} BlendIsSum<F(!new)>(ops: Ops<F>, att: seq<F>, vals: seq<seq<F>>, k: nat, n: nat, f: nat -> F)
    requires n <= |att| && n <= |vals| && (forall t :: 0 <= t < n ==> k < |vals[t]|)
    requires forall u: nat :: u < n ==> f(u) == ops.mul(att[u], vals[u][k])
    ensures Blend(ops, att, vals, k, n) == SumOf(ops, n, f)
  {
    if n > 0 { BlendIsSum(ops, att, vals, k, n - 1, f); }
  }

  lemma HeadAgrees<F(!new)>(m: Model<F>, q: seq<F>, c: Cache<F>, h: nat, i: nat)
    requires m.cfg.Valid() && h < m.cfg.nHeads && i < m.cfg.HeadSize() && |q| == m.cfg.dim && c.keys != []
    requires c.Shaped(|c.keys|, m.cfg.KvDim())
    ensures KvStart(m.cfg, h) + i < m.cfg.KvDim()
    ensures var att := Softmax(m.ops, Scores(m.ops, q, HeadStart(m.cfg, h), c.keys, KvStart(m.cfg, h), m.cfg.HeadSize()));
            Blend(m.ops, att, c.vals, KvStart(m.cfg, h) + i, |c.vals|) == Mixed(m, q, c.keys, c.vals, h, i)
  {
    hide Config.HeadSize, Config.KvDim, HeadStart, KvStart, Config.Valid, Scores, AllScores, Softmax, Share, Group, Part, Blend, SumOf;
    StartsFit(m.cfg, h);
    ScoresAgree(m, q, c.keys, h);
    var hs, s := m.cfg.HeadSize(), AllScores(m, q, c.keys, h);
    var att, k := Softmax(m.ops, s), KvStart(m.cfg, h) + i;
    GroupIs(m.cfg, h);
    forall u: nat | u < |c.vals| ensures Contribution(m, s, c.vals, h, i, u) == m.ops.mul(att[u], c.vals[u][k]) {
      SoftmaxIsShares(m.ops, s, u);
      PartsOf(m.ops, c.vals[u], Group(m.cfg, h), hs);
    }
    BlendIsSum(m.ops, att, c.vals, k, |c.vals|, (u: nat) => Contribution(m, AllScores(m, q, c.keys, h), c.vals, h, i, u));
  }

  lemma AttentionAgrees<F(!new)>(m: Model<F>, q: seq<F>, c: Cache<F>)
    requires m.cfg.Valid() && |q| == m.cfg.dim && c.keys != [] && c.Shaped(|c.keys|, m.cfg.KvDim())
    ensures Attention(m, q, c) == Attended(m, q, c.keys, c.vals)
  {
    hide Config.HeadSize, Config.KvDim, HeadStart, KvStart, Config.Valid, Scores, Softmax, Mixed, Blend, HeadIn, PlaceIn, HeadPlace;
    ValidFacts(m.cfg);
    forall j: nat | j < m.cfg.dim ensures AttentionAt(m, q, c, j) == Mixed(m, q, c.keys, c.vals, HeadIn(m.cfg, j), PlaceIn(m.cfg, j)) {
      PlaceOf(m.cfg, j);
      HeadAgrees(m, q, c, HeadIn(m.cfg, j), PlaceIn(m.cfg, j));
    }
  }

  lemma ValidFacts(cfg: Config)
    requires cfg.Valid()
    ensures cfg.nHeads > 0
  {}

  lemma PlaceOf(cfg: Config, j: nat)
    requires cfg.Valid() && j < cfg.dim
    ensures HeadIn(cfg, j) < cfg.nHeads && PlaceIn(cfg, j) < cfg.HeadSize()
    ensures HeadPlace(cfg, j) == (HeadStart(cfg, HeadIn(cfg, j)), KvStart(cfg, HeadIn(cfg, j)), PlaceIn(cfg, j))
  {
    HeadOf(cfg, j);
  }

  // ------------------------------------------------------------------ a layer agrees

  lemma ProjectionsAgree<F(!new)>(m: Model<F>, l: nat, t: nat, x: seq<F>)
    requires m.Valid() && l < m.cfg.nLayers && t < m.cfg.seqLen && |x| == m.cfg.dim
    ensures Query(m, l, t, x) == RefQuery(m, l, t, x) && Key(m, l, t, x) == RefKey(m, l, t, x) && Value(m, l, x) == RefValue(m, l, x)
  {
    hide Row, MatMul, RmsNorm, Product, Normed, Rope, Turned, Cells, Config.KvDim, Config.Valid, Base;
    ValidFacts(m.cfg);
    var n, d, kv := m.cfg.nLayers, m.cfg.dim, m.cfg.KvDim();
    EvenSizes(m.cfg);
    RmsNormIsNormed(m.ops, x, m.w.rmsAtt, l, n);
    var xn := RmsNorm(m.ops, x, Row(m.w.rmsAtt, l, n, d));
    MatMulIsProduct(m.ops, xn, m.w.wq, l, n, d);
    MatMulIsProduct(m.ops, xn, m.w.wk, l, n, kv);
    MatMulIsProduct(m.ops, xn, m.w.wv, l, n, kv);
    RopeIsTurned(m, t, MatMul(m.ops, xn, Row(m.w.wq, l, n, Cells(d, d)), d));
    RopeIsTurned(m, t, MatMul(m.ops, xn, Row(m.w.wk, l, n, Cells(kv, d)), kv));
  }

  lemma SumsOfVectors<F(!new)>(ops: Ops<F>, x: seq<F>, y: seq<F>)
    requires |x| == |y|
    ensures AddVec(ops, x, y) == Added(ops, x, y)
  {
    InTable(ops, x);
    InTable(ops, y);
  }

  /** The gated product of two vectors that are products with rows of tables. */
  lemma GateIsHidden<F(!new)>(m: Model<F>, l: nat, x: seq<F>)
    requires m.Valid() && l < m.cfg.nLayers && |x| == m.cfg.dim
    ensures var n, d, hd := m.cfg.nLayers, m.cfg.dim, m.cfg.hiddenDim;
            var xn := RmsNorm(m.ops, x, Row(m.w.rmsFfn, l, n, d));
            Gate(m.ops, MatMul(m.ops, xn, Row(m.w.w1, l, n, Cells(hd, d)), hd), MatMul(m.ops, xn, Row(m.w.w3, l, n, Cells(hd, d)), hd))
            == Hidden(m, l, x)
  {
    hide Row, MatMul, RmsNorm, Normed, Cells, Times, Config.KvDim, Config.Valid, Base;
    ValidFacts(m.cfg);
    var n, d, hd := m.cfg.nLayers, m.cfg.dim, m.cfg.hiddenDim;
    RmsNormIsNormed(m.ops, x, m.w.rmsFfn, l, n);
    var xn := RmsNorm(m.ops, x, Row(m.w.rmsFfn, l, n, d));
    MatMulIsProduct(m.ops, xn, m.w.w1, l, n, hd);
    MatMulIsProduct(m.ops, xn, m.w.w3, l, n, hd);
    var one, three := Product(m.ops, m.w.w1, Base(l, hd, d), hd, xn), Product(m.ops, m.w.w3, Base(l, hd, d), hd, xn);
    forall j | 0 <= j < hd ensures Gate(m.ops, one, three)[j] == Hidden(m, l, x)[j] {
      assert one[j] == Times(m.ops, m.w.w1, Base(l, hd, d), |xn|, xn, j);
      assert three[j] == Times(m.ops, m.w.w3, Base(l, hd, d), |xn|, xn, j);
      assert Gate(m.ops, one, three)[j] == m.ops.mul(Silu(m.ops, one[j]), three[j]);
    }
  }

  lemma FeedForwardAgrees<F(!new)>(m: Model<F>, l: nat, x: seq<F>, att: seq<F>)
    requires m.Valid() && l < m.cfg.nLayers && |x| == |att| == m.cfg.dim
    ensures var d, hd := m.cfg.dim, m.cfg.hiddenDim;
            var x1 := Added(m.ops, x, Product(m.ops, m.w.wo, Base(l, d, d), d, att));
            FeedForward(m, l, x, att) == Added(m.ops, x1, Product(m.ops, m.w.w2, Base(l, d, hd), d, Hidden(m, l, x1)))
  {
    hide Row, MatMul, RmsNorm, Product, Gate, Hidden, AddVec, Added, Cells, Config.KvDim, Config.Valid, Base;
    ValidFacts(m.cfg);
    var n, d, hd := m.cfg.nLayers, m.cfg.dim, m.cfg.hiddenDim;
    MatMulIsProduct(m.ops, att, m.w.wo, l, n, d);
    SumsOfVectors(m.ops, x, Product(m.ops, m.w.wo, Base(l, d, d), d, att));
    var x1 := Added(m.ops, x, Product(m.ops, m.w.wo, Base(l, d, d), d, att));
    GateIsHidden(m, l, x1);
    var h := Hidden(m, l, x1);
    MatMulIsProduct(m.ops, h, m.w.w2, l, n, d);
    SumsOfVectors(m.ops, x1, Product(m.ops, m.w.w2, Base(l, d, hd), d, h));
  }

  /** One layer of the forward pass is one layer of the network as written down, for every input and cache. */
  lemma LayerAgrees<F(!new)>(m: Model<F>, l: nat, t: nat, x: seq<F>, c: Cache<F>)
    requires m.Valid() && l < m.cfg.nLayers && t < m.cfg.seqLen && |x| == m.cfg.dim && c.Shaped(t, m.cfg.KvDim())
    ensures Layer(m, l, t, x, c) == RefLayer(m, l, t, x, c.keys, c.vals)
    ensures Pushed(m, l, t, x, c) == Cache(c.keys + [RefKey(m, l, t, x)], c.vals + [RefValue(m, l, x)])
  {
    hide FeedForward, Attention, Attended, RefQuery, RefKey, RefValue, Query, Key, Value, Product, Hidden, Config.KvDim, Config.Valid, Base;
    ValidFacts(m.cfg);
    ProjectionsAgree(m, l, t, x);
    var c' := Pushed(m, l, t, x, c);
    AttentionAgrees(m, Query(m, l, t, x), c');
    FeedForwardAgrees(m, l, x, Attention(m, Query(m, l, t, x), c'));
  }

  // ------------------------------------------------------------------ a text

  /** The token fed in at position `t`: zero to start with, and then the one before it in the text. */
  ghost function Fed(text: seq<nat>, t: nat): nat {
    if 0 < t <= |text| then text[t - 1] else 0
  }

  /** The activation at position `t` after `l` layers, from the text alone. */
  ghost function RefState<F(!new)>(m: Model<F>, text: seq<nat>, l: nat, t: nat): (x: seq<F>)
    requires m.cfg.Valid()
    ensures |x| == m.cfg.dim
    decreases l
  {
    if l == 0 then seq(m.cfg.dim, i requires 0 <= i => At(m.ops, m.w.embedding, Fed(text, t) * m.cfg.dim + i))
    else RefLayer(m, l - 1, t, RefState(m, text, l - 1, t),
                  seq(t, u requires 0 <= u => RefKey(m, l - 1, u, RefState(m, text, l - 1, u))),
                  seq(t, u requires 0 <= u => RefValue(m, l - 1, RefState(m, text, l - 1, u))))
  }

  /** The keys and values of layer `l` at the first `n` positions. */
  ghost function RefCache<F(!new)>(m: Model<F>, text: seq<nat>, l: nat, n: nat): Cache<F>
    requires m.cfg.Valid()
  {
    Cache(seq(n, u requires 0 <= u => RefKey(m, l, u, RefState(m, text, l, u))),
          seq(n, u requires 0 <= u => RefValue(m, l, RefState(m, text, l, u))))
  }

  /** The token after position `t`: the first largest product of the classifier with the last activation. */
  ghost function RefToken<F(!new)>(m: Model<F>, text: seq<nat>, t: nat): nat
    requires m.cfg.Valid()
  {
    var x := Normed(m.ops, m.w.rmsFinal, 0, RefState(m, text, m.cfg.nLayers, t));
    ArgMax(m.ops, Product(m.ops, m.w.wcls, 0, m.cfg.vocab, x), m.cfg.vocab)
  }

  /** Nothing that comes later in the text has an influence. */
  lemma {:induction false} LaterDoesNotMatter<F(!new)>(m: Model<F>, text: seq<nat>, other: seq<nat>, l: nat, t: nat)
    requires m.cfg.Valid() && forall u: nat :: u <= t ==> Fed(text, u) == Fed(other, u)
    ensures RefState(m, text, l, t) == RefState(m, other, l, t)
    decreases l
  {
    hide RefLayer, RefKey, RefValue, Config.Valid;
    assert Fed(text, t) == Fed(other, t);
    if l > 0 {
      var k := l - 1;
      forall u: nat | u <= t ensures RefState(m, text, k, u) == RefState(m, other, k, u) {
        LaterDoesNotMatter(m, text, other, k, u);
      }
      SameCaches(m, text, other, k, t);
    }
  }

  lemma SameCaches<F(!new)>(m: Model<F>, text: seq<nat>, other: seq<nat>, l: nat, t: nat)
    requires m.cfg.Valid() && forall u: nat :: u <= t ==> RefState(m, text, l, u) == RefState(m, other, l, u)
    ensures RefState(m, text, l + 1, t) == RefState(m, other, l + 1, t)
  {
    hide RefLayer, RefKey, RefValue, Config.Valid;
    forall u: nat | u < t
      ensures RefKey(m, l, u, RefState(m, text, l, u)) == RefKey(m, l, u, RefState(m, other, l, u))
      ensures RefValue(m, l, RefState(m, text, l, u)) == RefValue(m, l, RefState(m, other, l, u))
    {}
    assert RefCache(m, text, l, t).keys == RefCache(m, other, l, t).keys;
    assert RefCache(m, text, l, t).vals == RefCache(m, other, l, t).vals;
    StateIs(m, text, l, t);
    StateIs(m, other, l, t);
  }

  lemma StateIs<F(!new)>(m: Model<F>, text: seq<nat>, l: nat, t: nat)
    requires m.cfg.Valid()
    ensures var c := RefCache(m, text, l, t); RefState(m, text, l + 1, t) == RefLayer(m, l, t, RefState(m, text, l, t), c.keys, c.vals)
  {
    hide RefLayer, RefKey, RefValue, Config.Valid;
  }

  lemma EmbedAgrees<F(!new)>(m: Model<F>, text: seq<nat>, t: nat)
    requires m.Valid() && Fed(text, t) < m.cfg.vocab
    ensures Embed(m, Fed(text, t)) == RefState(m, text, 0, t)
  {
    hide Cells, Row, Fed;
    var k, d := Fed(text, t), m.cfg.dim;
    forall i: nat | i < d ensures Embed(m, k)[i] == RefState(m, text, 0, t)[i] {
      FlatRow(m.w.embedding, k, m.cfg.vocab, d, i);
      assert At(m.ops, m.w.embedding, k * d + i) == Embed(m, k)[i];
    }
  }

  lemma ClassifyAgrees<F(!new)>(m: Model<F>, text: seq<nat>, t: nat)
    requires m.Valid()
    ensures Classify(m, RefState(m, text, m.cfg.nLayers, t)) == RefToken(m, text, t)
  {
    hide Cells, Row, RefState, MatMul, Product, RmsNorm, Normed, Config.Valid, Config.KvDim, ArgMax;
    ValidFacts(m.cfg);
    var x := RefState(m, text, m.cfg.nLayers, t);
    InTable(m.ops, m.w.rmsFinal);
    NormIsNormed(m.ops, x, m.w.rmsFinal, m.w.rmsFinal, 0);
    WholeMatrix(m.ops, RmsNorm(m.ops, x, m.w.rmsFinal), m.w.wcls, m.cfg.vocab);
  }

  lemma WholeMatrix<F(!new)>(ops: Ops<F>, x: seq<F>, w: seq<F>, d: nat)
    requires |w| == Cells(d, |x|)
    ensures MatMul(ops, x, w, d) == Product(ops, w, 0, d, x)
  {
    hide MatMul, Product, Cells;
    OneMatrix(w, Cells(d, |x|));
    MatMulIsProduct(ops, x, w, 0, 1, d);
    assert Base(0, d, |x|) == 0;
  }

  lemma OneMatrix<F(!new)>(w: seq<F>, k: nat)
    requires |w| == k
    ensures Cells(1, k) == k && Row(w, 0, 1, k) == w
  {
    assert Cells(0, k) == 0;
  }

  /** Layer by layer at one position. */
  lemma {:induction false} LayersAgree<F(!new)>(m: Model<F>, text: seq<nat>, t: nat, cs: seq<Cache<F>>, l: nat)
    requires m.Valid() && t < m.cfg.seqLen && l <= |cs| == m.cfg.nLayers && Caches(m, t, cs)
    requires forall i: nat :: i < |cs| ==> cs[i] == RefCache(m, text, i, t)
    ensures Caches(m, t, cs[..l])
    ensures var x := RefState(m, text, 0, t);
            && Activation(m, t, x, 0, cs[..l]) == RefState(m, text, l, t)
            && |NewCaches(m, t, x, 0, cs[..l])| == l
            && forall i: nat :: i < l ==> NewCaches(m, t, x, 0, cs[..l])[i] == RefCache(m, text, i, t + 1)
  {
    hide Layer, Pushed, RefLayer, RefKey, RefValue, Config.Valid, Config.KvDim, Cache.Shaped;
    if l > 0 {
      LayersAgree(m, text, t, cs, l - 1);
      assert cs[..l][..l - 1] == cs[..l - 1];
      var x := RefState(m, text, l - 1, t);
      LayerAgrees(m, l - 1, t, x, cs[l - 1]);
      CacheGrows(m, text, l - 1, t);
    }
  }

  lemma CacheGrows<F(!new)>(m: Model<F>, text: seq<nat>, l: nat, t: nat)
    requires m.cfg.Valid()
    ensures var c, x := RefCache(m, text, l, t), RefState(m, text, l, t);
            RefCache(m, text, l, t + 1) == Cache(c.keys + [RefKey(m, l, t, x)], c.vals + [RefValue(m, l, x)])
  {
    hide RefKey, RefValue;
  }

  /** What sequential inference has after `n` tokens, of a text of `size` tokens in all. */
  lemma {:induction false} CachesAreRecomputed<F(!new)>(m: Model<F>, size: nat, n: nat)
    requires m.Valid() && n <= size <= m.cfg.seqLen
    ensures var text, t := Generate(m, size).tokens, Generate(m, n);
            && |text| == size && t.tokens == text[..n] && |t.caches| == m.cfg.nLayers && Caches(m, n, t.caches)
            && (forall l: nat :: l < m.cfg.nLayers ==> t.caches[l] == RefCache(m, text, l, n))
            && forall i: nat :: i < n ==> text[i] == RefToken(m, text, i)
  {
    hide Generate, RefCache, RefToken, RefState, Activation, NewCaches, Classify, Embed, Config.Valid, Config.KvDim, Caches;
    ValidFacts(m.cfg);
    var text := Generate(m, size).tokens;
    TraceFacts(m, size);
    if n == 0 {
      StartsEmpty(m, text);
    } else {
      CachesAreRecomputed(m, size, n - 1);
      GrowsByOne(m, size, n - 1);
      TraceFacts(m, n);
      TokensGrow(m, n, size);
    }
  }

  lemma TraceFacts<F(!new)>(m: Model<F>, n: nat)
    requires m.Valid() && n <= m.cfg.seqLen
    ensures var t := Generate(m, n); |t.tokens| == n && |t.caches| == m.cfg.nLayers && Caches(m, n, t.caches)
    ensures forall i: nat :: i < n ==> Generate(m, n).tokens[i] < m.cfg.vocab
  {}

  lemma StartsEmpty<F(!new)>(m: Model<F>, text: seq<nat>)
    requires m.Valid()
    ensures Generate(m, 0).tokens == [] && Generate(m, 0).caches == EmptyCaches(m.cfg.nLayers)
    ensures forall l: nat :: l < m.cfg.nLayers ==> Generate(m, 0).caches[l] == RefCache(m, text, l, 0)
  {
    forall l: nat | l < m.cfg.nLayers ensures EmptyCaches<F>(m.cfg.nLayers)[l] == RefCache(m, text, l, 0) {}
  }

  /** Later tokens do not change earlier ones. */
  lemma {:induction false} TokensGrow<F(!new)>(m: Model<F>, n: nat, size: nat)
    requires m.Valid() && n <= size <= m.cfg.seqLen
    ensures Generate(m, n).tokens <= Generate(m, size).tokens && |Generate(m, n).tokens| == n
    decreases size
  {
    hide NewCaches, Activation, Embed, Classify, Generate;
    TraceFacts(m, n);
    if n < size {
      TokensGrow(m, n, size - 1);
      GenerateStep(m, size - 1);
    }
  }

  /** One more position. */
  lemma GrowsByOne<F(!new)>(m: Model<F>, size: nat, n: nat)
    requires m.Valid() && n < size <= m.cfg.seqLen
    requires var text, t := Generate(m, size).tokens, Generate(m, n);
             && |text| == size && t.tokens == text[..n] && |t.caches| == m.cfg.nLayers && Caches(m, n, t.caches)
             && forall l: nat :: l < m.cfg.nLayers ==> t.caches[l] == RefCache(m, text, l, n)
    ensures var text, t := Generate(m, size).tokens, Generate(m, n + 1);
            && t.tokens == text[..n + 1] && |t.caches| == m.cfg.nLayers
            && (forall l: nat :: l < m.cfg.nLayers ==> t.caches[l] == RefCache(m, text, l, n + 1))
            && text[n] == RefToken(m, text, n)
  {
    hide Generate, RefCache, RefToken, RefState, Activation, NewCaches, Classify, Embed, Config.Valid, Config.KvDim, Caches;
    ValidFacts(m.cfg);
    var text, t := Generate(m, size).tokens, Generate(m, n);
    GenerateStep(m, n);
    TokensGrow(m, n + 1, size);
    TraceFacts(m, n + 1);
    assert LastToken(t.tokens) == Fed(text, n);
    EmbedAgrees(m, text, n);
    LayersAgree(m, text, n, t.caches, m.cfg.nLayers);
    assert t.caches[..m.cfg.nLayers] == t.caches;
    ClassifyAgrees(m, text, n);
    assert text[..n + 1] == text[..n] + [text[n]];
  }

  /** The tokens of sequential inference are those of the network as it is written down: each is the first
      largest choice of the classifier after the text before it, recomputed from scratch. */
  lemma TokensAreRecomputed<F(!new)>(m: Model<F>, size: nat, i: nat)
    requires m.Valid() && i < size <= m.cfg.seqLen
    ensures |Generate(m, size).tokens| == size && Generate(m, size).tokens[i] == RefToken(m, Generate(m, size).tokens, i)
  {
    hide Generate, RefCache, RefToken;
    CachesAreRecomputed(m, size, size);
  }
}
