/** What a layer does in cases where the answer is known: switched-off parts, a first position, no rotation. */
module LayerLaws {
  import opened Transformer
  import opened Inference
  import Recompute

  /** `zero` and `one` behave as their names say towards `a`. */
  ghost predicate Neutral<F(!new)>(ops: Ops<F>, a: F) {
    && ops.add(a, ops.zero) == a && ops.add(ops.zero, a) == a && ops.sub(a, ops.zero) == a
    && ops.mul(a, ops.zero) == ops.zero && ops.mul(ops.zero, a) == ops.zero && ops.mul(a, ops.one) == a && ops.mul(ops.one, a) == a
  }

  ghost predicate Units<F(!new)>(ops: Ops<F>) {
    forall a: F :: Neutral(ops, a)
  }

  /** A single score has all of the share. */
  ghost predicate Alone<F(!new)>(ops: Ops<F>, s: F) {
    ops.div(ops.exp(ops.sub(s, s)), ops.add(ops.zero, ops.exp(ops.sub(s, s)))) == ops.one
  }

  ghost predicate AllAre<F>(w: seq<F>, a: F) {
    forall i :: 0 <= i < |w| ==> w[i] == a
  }

  // ------------------------------------------------------------------ switched-off parts

  lemma {:induction false} ZeroDot<F(!new)>(ops: Ops<F>, a: seq<F>, b: seq<F>, n: nat)
    requires Units(ops) && n <= |a| && n <= |b| && (AllAre(a, ops.zero) || AllAre(b, ops.zero))
    ensures Dot(ops, a, 0, b, 0, n) == ops.zero
  {
    if n > 0 {
      ZeroDot(ops, a, b, n - 1);
      assert Neutral(ops, ops.zero) && Neutral(ops, a[n - 1]) && Neutral(ops, b[n - 1]);
    }
  }

  /** A zero matrix gives zeroes, and so does any matrix of a zero vector. */
  lemma ZeroProduct<F(!new)>(ops: Ops<F>, x: seq<F>, w: seq<F>, d: nat)
    requires Units(ops) && |w| == Cells(d, |x|) && (AllAre(w, ops.zero) || AllAre(x, ops.zero))
    ensures AllAre(MatMul(ops, x, w, d), ops.zero)
  {
    hide Cells, Dot, Units;
    forall i | 0 <= i < d ensures Dot(ops, Row(w, i, d, |x|), 0, x, 0, |x|) == ops.zero {
      if AllAre(w, ops.zero) {
        forall j: nat | j < |x| ensures Row(w, i, d, |x|)[j] == ops.zero { FlatRow(w, i, d, |x|, j); }
      }
      ZeroDot(ops, Row(w, i, d, |x|), x, |x|);
    }
  }

  lemma AddingZero<F(!new)>(ops: Ops<F>, x: seq<F>, y: seq<F>)
    requires Units(ops) && |x| == |y| && AllAre(y, ops.zero)
    ensures AddVec(ops, x, y) == x
  {
    forall i | 0 <= i < |x| ensures ops.add(x[i], y[i]) == x[i] { assert Neutral(ops, x[i]); }
  }

  /** The matrix of layer `l` in a table. */
  ghost predicate Off<F(!new)>(m: Model<F>, w: seq<F>, l: nat, rows: nat, columns: nat) {
    |w| == Cells(m.cfg.nLayers, Cells(rows, columns)) && l < m.cfg.nLayers
    && AllAre(Row(w, l, m.cfg.nLayers, Cells(rows, columns)), m.ops.zero)
  }

  /** With a zero output projection the layer is its feed-forward half on `x` alone. */
  lemma WithoutAttention<F(!new)>(m: Model<F>, l: nat, pos: nat, x: seq<F>, c: Cache<F>)
    requires m.Valid() && l < m.cfg.nLayers && pos < m.cfg.seqLen && |x| == m.cfg.dim && c.Shaped(pos, m.cfg.KvDim())
    requires Units(m.ops) && Off(m, m.w.wo, l, m.cfg.dim, m.cfg.dim)
    ensures var n, d, hd := m.cfg.nLayers, m.cfg.dim, m.cfg.hiddenDim;
            var xn := RmsNorm(m.ops, x, Row(m.w.rmsFfn, l, n, d));
            var a, b := MatMul(m.ops, xn, Row(m.w.w1, l, n, Cells(hd, d)), hd), MatMul(m.ops, xn, Row(m.w.w3, l, n, Cells(hd, d)), hd);
            Layer(m, l, pos, x, c) == AddVec(m.ops, x, MatMul(m.ops, Gate(m.ops, a, b), Row(m.w.w2, l, n, Cells(d, hd)), d))
  {
    hide Attention, Query, Pushed, MatMul, RmsNorm, Row, Cells, Units, Gate, AddVec;
    var d := m.cfg.dim;
    var att := Attention(m, Query(m, l, pos, x), Pushed(m, l, pos, x, c));
    var wo := Row(m.w.wo, l, m.cfg.nLayers, Cells(d, d));
    ZeroProduct(m.ops, att, wo, d);
    AddingZero(m.ops, x, MatMul(m.ops, att, wo, d));
  }

  /** With zero output projection and zero second matrix a layer changes nothing: both halves only add. */
  lemma LayerIsIdentity<F(!new)>(m: Model<F>, l: nat, pos: nat, x: seq<F>, c: Cache<F>)
    requires m.Valid() && l < m.cfg.nLayers && pos < m.cfg.seqLen && |x| == m.cfg.dim && c.Shaped(pos, m.cfg.KvDim())
    requires Units(m.ops) && Off(m, m.w.wo, l, m.cfg.dim, m.cfg.dim) && Off(m, m.w.w2, l, m.cfg.dim, m.cfg.hiddenDim)
    ensures Layer(m, l, pos, x, c) == x
  {
    hide Layer, MatMul, RmsNorm, Row, Cells, Units, Gate, AddVec;
    WithoutAttention(m, l, pos, x, c);
    var n, d, hd := m.cfg.nLayers, m.cfg.dim, m.cfg.hiddenDim;
    var xn := RmsNorm(m.ops, x, Row(m.w.rmsFfn, l, n, d));
    var h := Gate(m.ops, MatMul(m.ops, xn, Row(m.w.w1, l, n, Cells(hd, d)), hd), MatMul(m.ops, xn, Row(m.w.w3, l, n, Cells(hd, d)), hd));
    ZeroProduct(m.ops, h, Row(m.w.w2, l, n, Cells(d, hd)), d);
    AddingZero(m.ops, x, MatMul(m.ops, h, Row(m.w.w2, l, n, Cells(d, hd)), d));
  }

  /** The first matrix goes through `silu`, the third is the factor: where the product with the third is one in
      every hidden unit, the feed-forward half adds the second matrix times `silu` of the first product. */
  lemma ThirdIsTheFactor<F(!new)>(m: Model<F>, l: nat, pos: nat, x: seq<F>, c: Cache<F>, hidden: seq<F>)
    requires m.Valid() && l < m.cfg.nLayers && pos < m.cfg.seqLen && |x| == m.cfg.dim && c.Shaped(pos, m.cfg.KvDim())
    requires Units(m.ops) && Off(m, m.w.wo, l, m.cfg.dim, m.cfg.dim) && |hidden| == m.cfg.hiddenDim
    requires var n, d, hd := m.cfg.nLayers, m.cfg.dim, m.cfg.hiddenDim;
             var xn := RmsNorm(m.ops, x, Row(m.w.rmsFfn, l, n, d));
             && AllAre(MatMul(m.ops, xn, Row(m.w.w3, l, n, Cells(hd, d)), hd), m.ops.one)
             && forall j :: 0 <= j < hd ==> hidden[j] == Silu(m.ops, MatMul(m.ops, xn, Row(m.w.w1, l, n, Cells(hd, d)), hd)[j])
    ensures var n, d, hd := m.cfg.nLayers, m.cfg.dim, m.cfg.hiddenDim;
            Layer(m, l, pos, x, c) == AddVec(m.ops, x, MatMul(m.ops, hidden, Row(m.w.w2, l, n, Cells(d, hd)), d))
  {
    hide Layer, MatMul, RmsNorm, Row, Cells, Units, AddVec, Silu;
    WithoutAttention(m, l, pos, x, c);
    var n, d, hd := m.cfg.nLayers, m.cfg.dim, m.cfg.hiddenDim;
    var xn := RmsNorm(m.ops, x, Row(m.w.rmsFfn, l, n, d));
    GateOfOnes(m.ops, MatMul(m.ops, xn, Row(m.w.w1, l, n, Cells(hd, d)), hd), MatMul(m.ops, xn, Row(m.w.w3, l, n, Cells(hd, d)), hd), hidden);
  }

  lemma GateOfOnes<F(!new)>(ops: Ops<F>, a: seq<F>, b: seq<F>, hidden: seq<F>)
    requires Units(ops) && |a| == |b| == |hidden| && AllAre(b, ops.one) && forall j :: 0 <= j < |a| ==> hidden[j] == Silu(ops, a[j])
    ensures Gate(ops, a, b) == hidden
  {
    hide Silu;
    forall j | 0 <= j < |a| ensures ops.mul(Silu(ops, a[j]), b[j]) == hidden[j] { assert Neutral(ops, Silu(ops, a[j])); }
  }

  /** Where `silu` of the first product is zero in every hidden unit, the feed-forward half adds nothing,
      whatever the third matrix is. */
  lemma FirstIsTheGate<F(!new)>(m: Model<F>, l: nat, pos: nat, x: seq<F>, c: Cache<F>)
    requires m.Valid() && l < m.cfg.nLayers && pos < m.cfg.seqLen && |x| == m.cfg.dim && c.Shaped(pos, m.cfg.KvDim())
    requires Units(m.ops) && Off(m, m.w.wo, l, m.cfg.dim, m.cfg.dim)
    requires var n, d, hd := m.cfg.nLayers, m.cfg.dim, m.cfg.hiddenDim;
             var xn := RmsNorm(m.ops, x, Row(m.w.rmsFfn, l, n, d));
             forall j :: 0 <= j < hd ==> Silu(m.ops, MatMul(m.ops, xn, Row(m.w.w1, l, n, Cells(hd, d)), hd)[j]) == m.ops.zero
    ensures Layer(m, l, pos, x, c) == x
  {
    hide Layer, MatMul, RmsNorm, Row, Cells, Units, AddVec, Silu;
    WithoutAttention(m, l, pos, x, c);
    var n, d, hd := m.cfg.nLayers, m.cfg.dim, m.cfg.hiddenDim;
    var xn := RmsNorm(m.ops, x, Row(m.w.rmsFfn, l, n, d));
    var a, b := MatMul(m.ops, xn, Row(m.w.w1, l, n, Cells(hd, d)), hd), MatMul(m.ops, xn, Row(m.w.w3, l, n, Cells(hd, d)), hd);
    ClosedGate(m.ops, a, b);
    ZeroProduct(m.ops, Gate(m.ops, a, b), Row(m.w.w2, l, n, Cells(d, hd)), d);
    AddingZero(m.ops, x, MatMul(m.ops, Gate(m.ops, a, b), Row(m.w.w2, l, n, Cells(d, hd)), d));
  }

  lemma ClosedGate<F(!new)>(ops: Ops<F>, a: seq<F>, b: seq<F>)
    requires Units(ops) && |a| == |b| && forall j :: 0 <= j < |a| ==> Silu(ops, a[j]) == ops.zero
    ensures AllAre(Gate(ops, a, b), ops.zero)
  {
    hide Silu;
    forall j | 0 <= j < |a| ensures ops.mul(Silu(ops, a[j]), b[j]) == ops.zero { assert Neutral(ops, b[j]); }
  }

  // ------------------------------------------------------------------ no rotation

  /** Angles whose cosine is one and whose sine is zero turn nothing: the cached key and the query are the
      plain products. */
  lemma NoRotation<F(!new)>(m: Model<F>, l: nat, pos: nat, x: seq<F>, c: Cache<F>)
    requires m.Valid() && l < m.cfg.nLayers && pos < m.cfg.seqLen && |x| == m.cfg.dim && c.Shaped(pos, m.cfg.KvDim())
    requires Units(m.ops) && AllAre(m.w.freqReal, m.ops.one) && AllAre(m.w.freqImag, m.ops.zero)
    ensures var n, d, kv := m.cfg.nLayers, m.cfg.dim, m.cfg.KvDim();
            var xn := RmsNorm(m.ops, x, Row(m.w.rmsAtt, l, n, d));
            && Pushed(m, l, pos, x, c).keys[pos] == MatMul(m.ops, xn, Row(m.w.wk, l, n, Cells(kv, d)), kv)
            && Pushed(m, l, pos, x, c).vals[pos] == MatMul(m.ops, xn, Row(m.w.wv, l, n, Cells(kv, d)), kv)
            && Query(m, l, pos, x) == MatMul(m.ops, xn, Row(m.w.wq, l, n, Cells(d, d)), d)
  {
    hide MatMul, RmsNorm, Row, Cells, Units, Config.KvDim, Rope;
    var n, d, kv := m.cfg.nLayers, m.cfg.dim, m.cfg.KvDim();
    EvenSizes(m.cfg);
    var xn := RmsNorm(m.ops, x, Row(m.w.rmsAtt, l, n, d));
    TurnsNothing(m, pos, MatMul(m.ops, xn, Row(m.w.wk, l, n, Cells(kv, d)), kv));
    TurnsNothing(m, pos, MatMul(m.ops, xn, Row(m.w.wq, l, n, Cells(d, d)), d));
  }

  lemma TurnsNothing<F(!new)>(m: Model<F>, pos: nat, v: seq<F>)
    requires m.Valid() && pos < m.cfg.seqLen && |v| % 2 == 0
    requires Units(m.ops) && AllAre(m.w.freqReal, m.ops.one) && AllAre(m.w.freqImag, m.ops.zero)
    ensures Rope(m, pos, v) == v
  {
    hide Cells, FreqIndex;
    forall j | 0 <= j < |v| ensures Rotated(m, pos, v, j) == v[j] {
      var i := j / 2 * 2;
      assert Neutral(m.ops, v[i]) && Neutral(m.ops, v[i + 1]) && Neutral(m.ops, m.ops.zero);
    }
  }

  // ------------------------------------------------------------------ the first position

  /** At the first position every head sees one value only, that of its group: with the feed-forward half switched
      off, the layer adds the output projection of the values, head `h` taking the part of group
      `h / (nHeads / nKvHeads)`. */
  lemma FirstPosition<F(!new)>(m: Model<F>, l: nat, x: seq<F>, c: Cache<F>, seen: seq<F>)
    requires m.Valid() && l < m.cfg.nLayers && 0 < m.cfg.seqLen && |x| == m.cfg.dim && c == Cache([], [])
    requires Units(m.ops) && (forall s: F :: Alone(m.ops, s)) && Off(m, m.w.w2, l, m.cfg.dim, m.cfg.hiddenDim)
    requires |seen| == m.cfg.dim
    requires var n, d, kv, hs := m.cfg.nLayers, m.cfg.dim, m.cfg.KvDim(), m.cfg.HeadSize();
             var value := MatMul(m.ops, RmsNorm(m.ops, x, Row(m.w.rmsAtt, l, n, d)), Row(m.w.wv, l, n, Cells(kv, d)), kv);
             forall h: nat, i: nat :: h < m.cfg.nHeads && i < hs ==>
               Recompute.Part(m.ops, seen, h, hs, i) == Recompute.Part(m.ops, value, Recompute.Group(m.cfg, h), hs, i)
    ensures var n, d := m.cfg.nLayers, m.cfg.dim;
            Layer(m, l, 0, x, c) == AddVec(m.ops, x, MatMul(m.ops, seen, Row(m.w.wo, l, n, Cells(d, d)), d))
  {
    hide Attention, Query, Pushed, MatMul, RmsNorm, Row, Cells, Units, Gate, AddVec, Config.Valid, Config.KvDim, Config.HeadSize,
      Recompute.Part, Recompute.Group;
    Recompute.ValidFacts(m.cfg);
    var n, d, hd := m.cfg.nLayers, m.cfg.dim, m.cfg.hiddenDim;
    SeesOneValue(m, l, x, c, seen);
    var x1 := AddVec(m.ops, x, MatMul(m.ops, seen, Row(m.w.wo, l, n, Cells(d, d)), d));
    var xb := RmsNorm(m.ops, x1, Row(m.w.rmsFfn, l, n, d));
    var hb := Gate(m.ops, MatMul(m.ops, xb, Row(m.w.w1, l, n, Cells(hd, d)), hd), MatMul(m.ops, xb, Row(m.w.w3, l, n, Cells(hd, d)), hd));
    ZeroProduct(m.ops, hb, Row(m.w.w2, l, n, Cells(d, hd)), d);
    AddingZero(m.ops, x1, MatMul(m.ops, hb, Row(m.w.w2, l, n, Cells(d, hd)), d));
  }

  lemma SeesOneValue<F(!new)>(m: Model<F>, l: nat, x: seq<F>, c: Cache<F>, seen: seq<F>)
    requires m.Valid() && l < m.cfg.nLayers && 0 < m.cfg.seqLen && |x| == m.cfg.dim && c == Cache([], [])
    requires Units(m.ops) && (forall s: F :: Alone(m.ops, s)) && |seen| == m.cfg.dim
    requires forall h: nat, i: nat :: h < m.cfg.nHeads && i < m.cfg.HeadSize() ==>
               Recompute.Part(m.ops, seen, h, m.cfg.HeadSize(), i)
               == Recompute.Part(m.ops, Value(m, l, x), Recompute.Group(m.cfg, h), m.cfg.HeadSize(), i)
    ensures Attention(m, Query(m, l, 0, x), Pushed(m, l, 0, x, c)) == seen
  {
    hide Query, Key, Value, Attention, Config.Valid, Config.KvDim, Config.HeadSize, Recompute.Part, Units, Recompute.Mixed, Recompute.Group,
      Recompute.HeadIn, Recompute.PlaceIn;
    Recompute.ValidFacts(m.cfg);
    var q, c', hs := Query(m, l, 0, x), Pushed(m, l, 0, x, c), m.cfg.HeadSize();
    Recompute.AttentionAgrees(m, q, c');
    forall j: nat | j < m.cfg.dim
      ensures Recompute.Mixed(m, q, c'.keys, c'.vals, Recompute.HeadIn(m.cfg, j), Recompute.PlaceIn(m.cfg, j)) == seen[j]
    {
      var h, i := Recompute.HeadIn(m.cfg, j), Recompute.PlaceIn(m.cfg, j);
      Recompute.PlaceOf(m.cfg, j);
      OneValue(m, q, c'.keys[0], c'.vals[0], h, i);
      assert c'.keys == [c'.keys[0]] && c'.vals == [c'.vals[0]];
      PartAt(m, seen, j);
    }
  }

  lemma PartAt<F(!new)>(m: Model<F>, v: seq<F>, j: nat)
    requires m.cfg.Valid() && j < |v|
    ensures Recompute.Part(m.ops, v, Recompute.HeadIn(m.cfg, j), m.cfg.HeadSize(), Recompute.PlaceIn(m.cfg, j)) == v[j]
  {}

  /** With one key and one value, a head sees the value. */
  lemma OneValue<F(!new)>(m: Model<F>, q: seq<F>, key: seq<F>, value: seq<F>, h: nat, i: nat)
    requires m.cfg.Valid() && h < m.cfg.nHeads && Units(m.ops) && forall s: F :: Alone(m.ops, s)
    ensures Recompute.Mixed(m, q, [key], [value], h, i)
            == Recompute.Part(m.ops, value, Recompute.Group(m.cfg, h), m.cfg.HeadSize(), i)
  {
    hide Recompute.Score, Recompute.Part, Config.HeadSize;
    var s := Recompute.AllScores(m, q, [key], h);
    var v := Recompute.Part(m.ops, value, Recompute.Group(m.cfg, h), m.cfg.HeadSize(), i);
    OneShare(m.ops, s);
    var f := (u: nat) => Recompute.Contribution(m, Recompute.AllScores(m, q, [key], h), [value], h, i, u);
    assert Recompute.Contribution(m, s, [value], h, i, 0) == m.ops.mul(m.ops.one, v);
    assert Recompute.SumOf(m.ops, 0, f) == m.ops.zero;
    assert Recompute.SumOf(m.ops, 1, f) == m.ops.add(m.ops.zero, f(0));
    assert Neutral(m.ops, v);
  }

  lemma OneShare<F(!new)>(ops: Ops<F>, s: seq<F>)
    requires |s| == 1 && forall a: F :: Alone(ops, a)
    ensures Recompute.Share(ops, s, 0) == ops.one
  {
    var top := s[0];
    assert ArgMax(ops, s, 1) == 0 && Recompute.At(ops, s, 0) == top;
    var f := (v: nat) => ops.exp(ops.sub(Recompute.At(ops, s, v), top));
    assert Recompute.SumOf(ops, 0, f) == ops.zero;
    assert Recompute.SumOf(ops, 1, f) == ops.add(ops.zero, f(0));
    assert Alone(ops, top);
  }
}
