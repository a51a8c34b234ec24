/** Coordinate descent for the lasso over the reals: the program that negates columns on the fly
    (tool/lasso_serial.cpp) and the one that materialises the doubled matrix (tool/lasso_serial_rigid.cpp).
    Both keep Z, the predictions, up to date instead of recomputing them. */
module Lasso {

  type Row = seq<real>

  function Negated(row: Row): (r: Row)
    ensures |r| == |row| && forall j :: 0 <= j < |r| ==> r[j] == -row[j]
  {
    seq(|row|, j requires 0 <= j < |row| => -row[j])
  }

  /** The data matrix followed by its negation. */
  function Doubled(X: seq<Row>): (D: seq<Row>)
    ensures |D| == |X| && forall i :: 0 <= i < |X| ==> D[i] == X[i] + Negated(X[i])
  {
    seq(|X|, i requires 0 <= i < |X| => X[i] + Negated(X[i]))
  }

  ghost predicate Rectangular(X: seq<Row>, k: nat)
  {
    forall i :: 0 <= i < |X| ==> |X[i]| == k
  }

  // ---------------------------------------------------------------- one round, as a function

  /** Products are kept behind a name so that proofs about sums of them stay linear. */
  function Times(a: real, b: real): real
  {
    a * b
  }

  lemma TimesAdds(a: real, u: real, v: real)
    ensures Times(a, u + v) == Times(a, u) + Times(a, v) && Times(u + v, a) == Times(u, a) + Times(v, a)
    ensures Times(a, u) == Times(u, a) && Times(-a, u) == -Times(a, u) == Times(a, -u)
  {
  }

  function Dot(a: Row, b: Row, n: nat): real
    requires n <= |a| && n <= |b|
  {
    if n == 0 then 0.0 else Dot(a, b, n - 1) + Times(a[n - 1], b[n - 1])
  }

  function Column(D: seq<Row>, j: nat): (col: Row)
    requires forall i :: 0 <= i < |D| ==> j < |D[i]|
    ensures |col| == |D| && forall i :: 0 <= i < |D| ==> col[i] == D[i][j]
  {
    seq(|D|, i requires 0 <= i < |D| => D[i][j])
  }

  /** The sum over the first n samples of (Z - Y) times the column. */
  function Slope(col: Row, Y: Row, Z: Row, n: nat): real
    requires n <= |col| == |Y| == |Z|
  {
    if n == 0 then 0.0 else Slope(col, Y, Z, n - 1) + Times(Z[n - 1] - Y[n - 1], col[n - 1])
  }

  function Max(a: real, b: real): real
  {
    if a < b then b else a
  }

  /** How far a weight w moves. */
  function Move(col: Row, Y: Row, lambda: real, w: real, Z: Row): real
    requires 0 < |col| == |Y| == |Z|
  {
    Max(-w, -Times(lambda + Slope(col, Y, Z, |col|), 1.0 / |col| as real))
  }

  function MovedZ(col: Row, Z: Row, eta: real): (Z': Row)
    requires |col| == |Z|
    ensures |Z'| == |Z| && forall i :: 0 <= i < |Z| ==> Z'[i] == Z[i] + Times(eta, col[i])
  {
    seq(|Z|, i requires 0 <= i < |Z| => Z[i] + Times(eta, col[i]))
  }

  datatype State = State(W: Row, Z: Row)

  ghost predicate Fits(D: seq<Row>, Y: Row, s: State)
  {
    0 < |D| == |Y| == |s.Z| && Rectangular(D, |s.W|)
  }

  function Round(D: seq<Row>, Y: Row, lambda: real, s: State, j: nat): (s': State)
    requires Fits(D, Y, s) && j < |s.W|
    ensures Fits(D, Y, s')
  {
    var col := Column(D, j);
    var eta := Move(col, Y, lambda, s.W[j], s.Z);
    State(s.W[j := s.W[j] + eta], MovedZ(col, s.Z, eta))
  }

  /** The rounds for a list of chosen coordinates. */
  function Rounds(D: seq<Row>, Y: Row, lambda: real, s: State, js: seq<nat>): (s': State)
    requires Fits(D, Y, s) && forall r :: 0 <= r < |js| ==> js[r] < |s.W|
    ensures Fits(D, Y, s') && |s'.W| == |s.W|
  {
    if js == [] then s else Round(D, Y, lambda, Rounds(D, Y, lambda, s, js[..|js| - 1]), js[|js| - 1])
  }

  // ---------------------------------------------------------------- what every run keeps

  /** Z is the product of the matrix with W, and no weight is negative. */
  ghost predicate Inv(D: seq<Row>, s: State)
    requires |D| == |s.Z| && Rectangular(D, |s.W|)
  {
    && (forall i :: 0 <= i < |D| ==> s.Z[i] == Dot(D[i], s.W, |s.W|))
    && (forall j :: 0 <= j < |s.W| ==> s.W[j] >= 0.0)
  }

  lemma {:induction false} DotMoved(a: Row, W: Row, j: nat, eta: real, n: nat)
    requires n <= |a| && n <= |W| && j < |W|
    ensures Dot(a, W[j := W[j] + eta], n) == Dot(a, W, n) + if j < n then Times(eta, a[j]) else 0.0
  {
    hide Times;
    if n > 0 {
      DotMoved(a, W, j, eta, n - 1);
      if j == n - 1 {
        TimesAdds(a[j], W[j], eta);
        TimesAdds(a[j], eta, W[j]);
      }
    }
  }

  lemma RoundKeeps(D: seq<Row>, Y: Row, lambda: real, s: State, j: nat)
    requires Fits(D, Y, s) && j < |s.W| && Inv(D, s)
    ensures Inv(D, Round(D, Y, lambda, s, j))
  {
    var col := Column(D, j);
    var eta := Move(col, Y, lambda, s.W[j], s.Z);
    hide Move, Dot, Slope, Times;
    forall i | 0 <= i < |D|
      ensures s.Z[i] + Times(eta, col[i]) == Dot(D[i], s.W[j := s.W[j] + eta], |s.W|)
    {
      DotMoved(D[i], s.W, j, eta, |s.W|);
    }
    MoveBounded(col, Y, lambda, s.W[j], s.Z);
  }

  lemma MoveBounded(col: Row, Y: Row, lambda: real, w: real, Z: Row)
    requires 0 < |col| == |Y| == |Z|
    ensures w + Move(col, Y, lambda, w, Z) >= 0.0
  {
  }

  lemma {:induction false} RoundsKeep(D: seq<Row>, Y: Row, lambda: real, s: State, js: seq<nat>)
    requires Fits(D, Y, s) && (forall r :: 0 <= r < |js| ==> js[r] < |s.W|) && Inv(D, s)
    ensures Inv(D, Rounds(D, Y, lambda, s, js))
  {
    if js != [] {
      RoundsKeep(D, Y, lambda, s, js[..|js| - 1]);
      RoundKeeps(D, Y, lambda, Rounds(D, Y, lambda, s, js[..|js| - 1]), js[|js| - 1]);
    }
  }

  lemma {:induction false} DotZero(a: Row, W: Row, n: nat)
    requires n <= |a| && n <= |W| && forall j :: 0 <= j < n ==> W[j] == 0.0
    ensures Dot(a, W, n) == 0.0
  {
    if n > 0 {
      DotZero(a, W, n - 1);
    }
  }

  // ---------------------------------------------------------------- translated weights

  /** translating: one signed weight per column. */
  function Translated(W: Row, k: nat): (rW: Row)
    requires |W| == 2 * k
    ensures |rW| == k && forall c :: 0 <= c < k ==> rW[c] == W[c] - W[k + c]
  {
    seq(k, c requires 0 <= c < k => W[c] - W[k + c])
  }

  lemma {:induction false} DotSplit(x: Row, d: Row, W: Row, rW: Row, k: nat, n: nat)
    requires n <= k == |x| == |rW| && |d| == |W| == 2 * k
    requires forall c :: 0 <= c < k ==> d[c] == x[c] && d[k + c] == -x[c] && rW[c] == W[c] - W[k + c]
    ensures Dot(x, rW, n) == Dot(d, W, n) + Dot(d, W, k + n) - Dot(d, W, k)
  {
    if n > 0 {
      hide Times;
      DotSplit(x, d, W, rW, k, n - 1);
      var c := n - 1;
      assert d[c] == x[c] && d[k + c] == -x[c] && rW[c] == W[c] - W[k + c];
      TimesAdds(x[c], W[c], -W[k + c]);
      TimesAdds(x[c], W[k + c], 0.0);
    }
  }

  /** The translated weights predict exactly what Z says, on the original columns. */
  lemma TranslatedPredicts(X: seq<Row>, k: nat, s: State)
    requires Rectangular(X, k) && |s.W| == 2 * k && |X| == |s.Z| && Inv(Doubled(X), s)
    ensures forall i :: 0 <= i < |X| ==> Dot(X[i], Translated(s.W, k), k) == s.Z[i]
  {
    forall i | 0 <= i < |X|
      ensures Dot(X[i], Translated(s.W, k), k) == s.Z[i]
    {
      DotSplit(X[i], Doubled(X)[i], s.W, Translated(s.W, k), k, k);
    }
  }

  // ---------------------------------------------------------------- descent

  /** Half the squared error over the first n samples. */
  function HalfError(Y: Row, Z: Row, n: nat): real
    requires n <= |Y| && n <= |Z|
  {
    if n == 0 then 0.0 else HalfError(Y, Z, n - 1) + Times(Z[n - 1] - Y[n - 1], Z[n - 1] - Y[n - 1]) / 2.0
  }

  function Total(W: Row, n: nat): real
    requires n <= |W|
  {
    if n == 0 then 0.0 else Total(W, n - 1) + W[n - 1]
  }

  /** The lasso objective of non-negative weights. */
  function Objective(Y: Row, lambda: real, s: State): real
    requires |Y| == |s.Z|
  {
    HalfError(Y, s.Z, |Y|) + Times(lambda, Total(s.W, |s.W|))
  }

  function Norm(col: Row, n: nat): real
    requires n <= |col|
  {
    if n == 0 then 0.0 else Norm(col, n - 1) + Times(col[n - 1], col[n - 1])
  }

  lemma {:induction false} ErrorMoved(col: Row, Y: Row, Z: Row, Z': Row, eta: real, n: nat)
    requires n <= |col| == |Y| == |Z| == |Z'| && forall i :: 0 <= i < |Z| ==> Z'[i] == Z[i] + Times(eta, col[i])
    ensures HalfError(Y, Z', n)
            == HalfError(Y, Z, n) + Times(eta, Slope(col, Y, Z, n)) + Times(Times(eta, eta) / 2.0, Norm(col, n))
  {
    if n > 0 {
      ErrorMoved(col, Y, Z, Z', eta, n - 1);
      var r, x := Z[n - 1] - Y[n - 1], col[n - 1];
      SquareMoved(r, eta, x);
      TimesAdds(eta, Slope(col, Y, Z, n - 1), Times(r, x));
      TimesAdds(Times(eta, eta) / 2.0, Norm(col, n - 1), Times(x, x));
      hide Times;
      assert Z'[n - 1] - Y[n - 1] == r + Times(eta, x);
    }
  }

  lemma SquareMoved(r: real, eta: real, x: real)
    ensures Times(r + Times(eta, x), r + Times(eta, x)) / 2.0
            == Times(r, r) / 2.0 + Times(eta, Times(r, x)) + Times(Times(eta, eta) / 2.0, Times(x, x))
  {
    assert (r + eta * x) * (r + eta * x) == r * r + 2.0 * (eta * (r * x)) + eta * eta * (x * x);
  }

  lemma {:induction false} TotalMoved(W: Row, j: nat, eta: real, n: nat)
    requires n <= |W| && j < |W|
    ensures Total(W[j := W[j] + eta], n) == Total(W, n) + if j < n then eta else 0.0
  {
    if n > 0 {
      TotalMoved(W, j, eta, n - 1);
    }
  }

  /** The clipped step never overshoots when the column's norm is at most the number of samples. */
  lemma StepArithmetic(w: real, g: real, n: real, norm: real, eta: real)
    requires w >= 0.0 && n > 0.0 && 0.0 <= norm <= n && eta == Max(-w, -Times(g, 1.0 / n))
    ensures Times(eta, g) + Times(Times(eta, eta) / 2.0, norm) <= 0.0
  {
    var d := g * (1.0 / n);
    var v := eta * d + eta * eta / 2.0;
    assert g == d * n;
    SquareBelow(eta, norm, n);
    if eta == -d {
      assert v == -(d * d) / 2.0;
    } else {
      assert eta == -w && w <= d;
      assert v == -(w * d) + w * w / 2.0;
      assert w * d >= w * w;
    }
    NonPositive(v, n);
    assert v * n == eta * g + eta * eta / 2.0 * n;
  }

  lemma SquareBelow(eta: real, norm: real, n: real)
    requires 0.0 <= norm <= n
    ensures eta * eta / 2.0 * norm <= eta * eta / 2.0 * n
  {
    assert eta * eta / 2.0 >= 0.0;
  }

  lemma NonPositive(v: real, n: real)
    requires v <= 0.0 && n > 0.0
    ensures v * n <= 0.0
  {
  }

  /** On columns scaled to squared norm at most the number of samples, no round increases the objective. */
  lemma RoundDescends(D: seq<Row>, Y: Row, lambda: real, s: State, j: nat)
    requires Fits(D, Y, s) && j < |s.W| && s.W[j] >= 0.0 && 0.0 <= Norm(Column(D, j), |D|) <= |D| as real
    ensures Objective(Y, lambda, Round(D, Y, lambda, s, j)) <= Objective(Y, lambda, s)
  {
    hide Times, HalfError, Norm, Slope, Move, Total;
    var col := Column(D, j);
    var eta := Move(col, Y, lambda, s.W[j], s.Z);
    TotalMoved(s.W, j, eta, |s.W|);
    DescendsBy(col, Y, lambda, s.W[j], s.Z, eta, Total(s.W, |s.W|));
  }

  lemma DescendsBy(col: Row, Y: Row, lambda: real, w: real, Z: Row, eta: real, total: real)
    requires 0 < |col| == |Y| == |Z| && w >= 0.0 && eta == Move(col, Y, lambda, w, Z)
    requires 0.0 <= Norm(col, |col|) <= |col| as real
    ensures HalfError(Y, MovedZ(col, Z, eta), |Y|) + Times(lambda, total + eta)
            <= HalfError(Y, Z, |Y|) + Times(lambda, total)
  {
    hide Times, HalfError, Norm, Slope;
    var n := |col|;
    var slope := Slope(col, Y, Z, n);
    ErrorMoved(col, Y, Z, MovedZ(col, Z, eta), eta, n);
    StepArithmetic(w, lambda + slope, n as real, Norm(col, n), eta);
    TimesAdds(eta, lambda, slope);
    TimesAdds(lambda, total, eta);
  }

  // ---------------------------------------------------------------- what a round is for

  /** s with weight j set to w and the predictions moved accordingly. */
  function With(D: seq<Row>, s: State, j: nat, w: real): State
    requires |D| == |s.Z| && Rectangular(D, |s.W|) && j < |s.W|
  {
    State(s.W[j := w], MovedZ(Column(D, j), s.Z, w - s.W[j]))
  }

  /** The objective with weight j set to w, plus what a column of squared norm |D| would add to it: for shorter columns
      a quadratic upper bound of the objective, for columns of just that norm the objective itself. */
  function Bound(D: seq<Row>, Y: Row, lambda: real, s: State, j: nat, w: real): real
    requires Fits(D, Y, s) && j < |s.W|
  {
    Objective(Y, lambda, With(D, s, j, w))
    + Times(Times(w - s.W[j], w - s.W[j]) / 2.0, |D| as real - Norm(Column(D, j), |D|))
  }

  /** The clipped step is the one minimiser of a parabola over the steps that keep the weight non-negative. */
  lemma ClippedStep(w: real, g: real, n: real, eta: real, other: real)
    requires n > 0.0 && eta == Max(-w, -Times(g, 1.0 / n)) && other >= -w && other != eta
    ensures Times(eta, g) + Times(Times(eta, eta) / 2.0, n) < Times(other, g) + Times(Times(other, other) / 2.0, n)
  {
    var d := g * (1.0 / n);
    assert g == d * n;
    StepGain(w, d, n, g, eta, other - eta);
    assert eta + (other - eta) == other;
  }

  /** What a further step e costs: it grows with its square, and runs uphill. */
  lemma StepGain(w: real, d: real, n: real, g: real, eta: real, e: real)
    requires n > 0.0 && g == d * n && eta == Max(-w, -d) && eta + e >= -w && e != 0.0
    ensures eta * g + eta * eta / 2.0 * n < (eta + e) * g + (eta + e) * (eta + e) / 2.0 * n
  {
    var p := Square(e);
    var q := SlopeAhead(w, d, eta, e);
    var gain := PositiveScaled(p / 2.0 + q, n);
    Parabola(eta, e, d, n, g, p, q);
  }

  lemma Square(e: real) returns (p: real)
    requires e != 0.0
    ensures p == e * e && p > 0.0
  {
    if e > 0.0 {
      p := PositiveScaled(e, e);
    } else {
      p := PositiveScaled(-e, -e);
      NegatedSquare(e);
    }
  }

  lemma NegatedSquare(e: real)
    ensures (-e) * (-e) == e * e
  {
  }

  lemma SlopeAhead(w: real, d: real, eta: real, e: real) returns (q: real)
    requires eta == Max(-w, -d) && eta + e >= -w
    ensures q == e * (d + eta) && q >= 0.0
  {
    q := e * (d + eta);
    if eta == -d {
      assert d + eta == 0.0;
    } else {
      assert e >= 0.0 && d + eta >= 0.0;
    }
  }

  lemma PositiveScaled(v: real, n: real) returns (p: real)
    requires v > 0.0 && n > 0.0
    ensures p == v * n && p > 0.0
  {
    p := v * n;
  }

  lemma Parabola(eta: real, e: real, d: real, n: real, g: real, p: real, q: real)
    requires g == d * n && p == e * e && q == e * (d + eta)
    ensures (eta + e) * g + (eta + e) * (eta + e) / 2.0 * n == eta * g + eta * eta / 2.0 * n + (p / 2.0 + q) * n
  {
    assert (eta + e) * (eta + e) == eta * eta + 2.0 * (e * eta) + p;
  }

  /** The bound as a parabola in the step. */
  lemma BoundIs(D: seq<Row>, Y: Row, lambda: real, s: State, j: nat, w: real)
    requires Fits(D, Y, s) && j < |s.W|
    ensures var eta, g := w - s.W[j], lambda + Slope(Column(D, j), Y, s.Z, |D|);
            Bound(D, Y, lambda, s, j, w)
            == Objective(Y, lambda, s) + (Times(eta, g) + Times(Times(eta, eta) / 2.0, |D| as real))
  {
    hide Times, Norm, Slope, Objective, With;
    var eta := w - s.W[j];
    ObjectiveMoves(D, Y, lambda, s, j, w);
    TimesAdds(eta, lambda, Slope(Column(D, j), Y, s.Z, |D|));
    TimesAdds(Times(eta, eta) / 2.0, Norm(Column(D, j), |D|), |D| as real - Norm(Column(D, j), |D|));
  }

  lemma ObjectiveMoves(D: seq<Row>, Y: Row, lambda: real, s: State, j: nat, w: real)
    requires Fits(D, Y, s) && j < |s.W|
    ensures var col, eta := Column(D, j), w - s.W[j];
            Objective(Y, lambda, With(D, s, j, w))
            == Objective(Y, lambda, s) + Times(eta, lambda) + Times(eta, Slope(col, Y, s.Z, |D|))
               + Times(Times(eta, eta) / 2.0, Norm(col, |D|))
  {
    hide Times, HalfError, Norm, Slope, Total;
    var col, eta := Column(D, j), w - s.W[j];
    ErrorMoved(col, Y, s.Z, MovedZ(col, s.Z, eta), eta, |D|);
    assert s.W[j := w] == s.W[j := s.W[j] + eta];
    TotalMoved(s.W, j, eta, |s.W|);
    TimesAdds(lambda, Total(s.W, |s.W|), eta);
    TimesAdds(eta, lambda, 0.0);
  }

  /** A round sets weight j to the one non-negative value that minimises the bound, and moves the predictions by it. */
  lemma RoundMinimises(D: seq<Row>, Y: Row, lambda: real, s: State, j: nat, w: real)
    requires Fits(D, Y, s) && j < |s.W| && s.W[j] >= 0.0 && w >= 0.0
    ensures var s' := Round(D, Y, lambda, s, j);
            && s'.W[j] >= 0.0 && s' == With(D, s, j, s'.W[j])
            && (w != s'.W[j] ==> Bound(D, Y, lambda, s, j, s'.W[j]) < Bound(D, Y, lambda, s, j, w))
  {
    var s' := Round(D, Y, lambda, s, j);
    var col, eta := Column(D, j), Move(Column(D, j), Y, lambda, s.W[j], s.Z);
    MoveBounded(col, Y, lambda, s.W[j], s.Z);
    assert s'.W[j] - s.W[j] == eta;
    BoundIs(D, Y, lambda, s, j, s'.W[j]);
    BoundIs(D, Y, lambda, s, j, w);
    hide Times, HalfError, Norm, Slope, Bound;
    if w != s'.W[j] {
      ClippedStep(s.W[j], lambda + Slope(col, Y, s.Z, |D|), |D| as real, eta, w - s.W[j]);
    }
  }

  /** On a column whose squared norm is the number of samples, a round minimises the objective exactly over all
      non-negative values of the chosen weight. */
  lemma RoundIsExact(D: seq<Row>, Y: Row, lambda: real, s: State, j: nat, w: real)
    requires Fits(D, Y, s) && j < |s.W| && s.W[j] >= 0.0 && w >= 0.0 && Norm(Column(D, j), |D|) == |D| as real
    ensures var s' := Round(D, Y, lambda, s, j);
            Objective(Y, lambda, s') <= Objective(Y, lambda, With(D, s, j, w))
            && (w != s'.W[j] ==> Objective(Y, lambda, s') < Objective(Y, lambda, With(D, s, j, w)))
  {
    RoundMinimises(D, Y, lambda, s, j, w);
    var s' := Round(D, Y, lambda, s, j);
    NoExcess(w - s.W[j]);
    NoExcess(s'.W[j] - s.W[j]);
    hide Times, Norm, Round, Objective;
  }

  lemma NoExcess(eta: real)
    ensures Times(Times(eta, eta) / 2.0, 0.0) == 0.0
  {
  }

  /** Choices are worked off from the first to the last. */
  lemma {:induction false} RoundsCompose(D: seq<Row>, Y: Row, lambda: real, s: State, js: seq<nat>, ks: seq<nat>)
    requires Fits(D, Y, s) && forall r :: 0 <= r < |js| ==> js[r] < |s.W|
    requires forall r :: 0 <= r < |ks| ==> ks[r] < |s.W|
    ensures Rounds(D, Y, lambda, s, js + ks) == Rounds(D, Y, lambda, Rounds(D, Y, lambda, s, js), ks)
    ensures |ks| == 1 ==> Rounds(D, Y, lambda, s, ks) == Round(D, Y, lambda, s, ks[0])
  {
    hide Round;
    if ks == [] {
      assert js + ks == js;
    } else {
      var init, last := ks[..|ks| - 1], ks[|ks| - 1];
      assert (js + ks)[..|js + ks| - 1] == js + init && (js + ks)[|js + ks| - 1] == last;
      RoundsCompose(D, Y, lambda, s, js, init);
    }
  }

  // ---------------------------------------------------------------- the two programs

  /** The sum loop both programs run over a column, with its test that skips zero entries. */
  method Delta(col: Row, Y: Row, Z: array<real>, lambda: real) returns (delta: real)
    requires 0 < |col| == |Y| == Z.Length
    ensures delta == Times(lambda + Slope(col, Y, Z[..], |col|), 1.0 / |col| as real)
  {
    delta := lambda;
    for i := 0 to |col|
      invariant delta == lambda + Slope(col, Y, Z[..], i)
    {
      if col[i] != 0.0 {
        delta := delta + (Z[i] - Y[i]) * col[i];
      }
    }
    delta := delta * (1.0 / |col| as real);
  }

  method MoveZ(col: Row, Z: array<real>, eta: real)
    requires |col| == Z.Length
    modifies Z
    ensures Z[..] == MovedZ(col, old(Z[..]), eta)
  {
    for i := 0 to |col|
      invariant forall k :: 0 <= k < i ==> Z[k] == old(Z[k]) + Times(eta, col[k])
      invariant forall k :: i <= k < |col| ==> Z[k] == old(Z[k])
    {
      if col[i] != 0.0 {
        Z[i] := Z[i] + eta * col[i];
      }
    }
  }

  /** One round, given the column it works on. */
  method MoveWeight(col: Row, Y: Row, lambda: real, W: array<real>, Z: array<real>, j: nat)
    requires 0 < |col| == |Y| == Z.Length && j < W.Length && W != Z
    modifies W, Z
    ensures var eta := Move(col, Y, lambda, old(W[j]), old(Z[..]));
            W[..] == old(W[..])[j := old(W[j]) + eta] && Z[..] == MovedZ(col, old(Z[..]), eta)
  {
    var delta := Delta(col, Y, Z, lambda);
    var eta := Max(-W[j], -delta);
    W[j] := W[j] + eta;
    MoveZ(col, Z, eta);
  }

  /** lasso_serial: the matrix has kdim columns and a choice j >= kdim means column j - kdim negated. */
  class ImplicitLasso {
    const X: seq<Row>
    const Y: Row
    const lambda: real
    const kdim: nat
    const W: array<real>
    const Z: array<real>

    constructor (X: seq<Row>, Y: Row, lambda: real, kdim: nat)
      requires 0 < |X| == |Y| && Rectangular(X, kdim)
      ensures Shape() && this.X == X && this.Y == Y && this.lambda == lambda && this.kdim == kdim
              && fresh(W) && fresh(Z)
      ensures (forall j :: 0 <= j < W.Length ==> W[j] == 0.0) && forall i :: 0 <= i < Z.Length ==> Z[i] == 0.0
      ensures Inv(Doubled(X), Now())
    {
      this.X, this.Y, this.lambda, this.kdim := X, Y, lambda, kdim;
      W := new real[2 * kdim](_ => 0.0);
      Z := new real[|X|](_ => 0.0);
      new;
      forall i | 0 <= i < |X|
        ensures Dot(Doubled(X)[i], W[..], 2 * kdim) == 0.0
      {
        DotZero(Doubled(X)[i], W[..], 2 * kdim);
      }
    }

    ghost predicate Shape()
    {
      0 < |X| == |Y| == Z.Length && Rectangular(X, kdim) && W.Length == 2 * kdim && W != Z
    }

    ghost function Now(): State
      reads W, Z
    {
      State(W[..], Z[..])
    }

    method Learning(js: seq<nat>)
      requires Shape() && forall r :: 0 <= r < |js| ==> js[r] < 2 * kdim
      modifies W, Z
      ensures Now() == Rounds(Doubled(X), Y, lambda, old(Now()), js)
    {
      ghost var s0, D := Now(), Doubled(X);
      for rd := 0 to |js|
        invariant Now() == Rounds(D, Y, lambda, s0, js[..rd])
      {
        assert js[..rd + 1][..rd] == js[..rd];
        OneRound(js[rd]);
      }
      assert js[..|js|] == js;
    }

    method OneRound(j: nat)
      requires Shape() && j < 2 * kdim
      modifies W, Z
      ensures Now() == Round(Doubled(X), Y, lambda, old(Now()), j)
    {
      var flag, jj := false, j;
      if j >= kdim {
        flag, jj := true, jj - kdim;
      }
      var col := seq(|X|, i requires 0 <= i < |X| => if flag then -X[i][jj] else X[i][jj]);
      assert col == Column(Doubled(X), j);
      MoveWeight(col, Y, lambda, W, Z, j);
    }

    method Translating() returns (rW: Row)
      requires Shape()
      ensures rW == Translated(W[..], kdim)
      ensures Inv(Doubled(X), Now()) ==> forall i :: 0 <= i < |X| ==> Dot(X[i], rW, kdim) == Z[i]
    {
      rW := seq(kdim, c requires 0 <= c < kdim reads W => W[c] - W[kdim + c]);
      assert rW == Translated(W[..], kdim);
      if Inv(Doubled(X), Now()) {
        TranslatedPredicts(X, kdim, Now());
      }
    }
  }

  /** lasso_serial_rigid: the matrix is doubled when the data is loaded. */
  class RigidLasso {
    var X: seq<Row>
    const Y: Row
    const lambda: real
    const kdim: nat
    const W: array<real>
    const Z: array<real>

    constructor (X: seq<Row>, Y: Row, lambda: real, kdim: nat)
      requires 0 < |X| == |Y| && Rectangular(X, kdim)
      ensures this.X == Doubled(X) && this.Y == Y && this.lambda == lambda && this.kdim == kdim && Shape()
      ensures fresh(W) && fresh(Z) && (forall j :: 0 <= j < W.Length ==>
                  W[j] == 0.0) && forall i :: 0 <= i < Z.Length ==> Z[i] == 0.0
    {
      this.X, this.Y, this.lambda, this.kdim := X, Y, lambda, kdim;
      W := new real[2 * kdim](_ => 0.0);
      Z := new real[|X|](_ => 0.0);
      new;
      for i := 0 to |X|
        invariant |this.X| == |X|
        invariant forall k :: 0 <= k < |X| ==> this.X[k] == if k < i then X[k] + Negated(X[k]) else X[k]
        invariant (forall j :: 0 <= j < W.Length ==> W[j] == 0.0) && forall i :: 0 <= i < Z.Length ==> Z[i] == 0.0
      {
        var row := this.X[i];
        for j := 0 to kdim
          invariant |row| == kdim + j && row[..kdim] == X[i]
          invariant forall c :: 0 <= c < j ==> row[kdim + c] == -X[i][c]
        {
          assert row[j] == row[..kdim][j];
          row := row + [-row[j]];
        }
        assert row == row[..kdim] + row[kdim..];
        assert row == X[i] + Negated(X[i]);
        this.X := this.X[i := row];
      }
    }

    ghost predicate Shape()
      reads this
    {
      0 < |X| == |Y| == Z.Length && Rectangular(X, 2 * kdim) && W.Length == 2 * kdim && W != Z
    }

    ghost function Now(): State
      reads W, Z
    {
      State(W[..], Z[..])
    }

    method Learning(js: seq<nat>)
      requires Shape() && forall r :: 0 <= r < |js| ==> js[r] < 2 * kdim
      modifies W, Z
      ensures Now() == Rounds(X, Y, lambda, old(Now()), js)
    {
      ghost var s0 := Now();
      for rd := 0 to |js|
        invariant Now() == Rounds(X, Y, lambda, s0, js[..rd])
      {
        assert js[..rd + 1][..rd] == js[..rd];
        OneRound(js[rd]);
      }
      assert js[..|js|] == js;
    }

    method OneRound(j: nat)
      requires Shape() && j < 2 * kdim
      modifies W, Z
      ensures Now() == Round(X, Y, lambda, old(Now()), j)
    {
      var x := X;
      var col := seq(|x|, i requires 0 <= i < |x| && j < |x[i]| => x[i][j]);
      assert col == Column(X, j);
      MoveWeight(col, Y, lambda, W, Z, j);
    }
  }

  /** The two programs side by side on the same data and the same choices of coordinates: same weights, same
      predictions, weights non-negative, and the translated weights reproduce the predictions exactly. */
  method SameRun(X: seq<Row>, Y: Row, lambda: real, kdim: nat, js: seq<nat>) returns (W: Row, Z: Row, rW: Row,
        rigidW: Row, rigidZ: Row)
    requires 0 < |X| == |Y| && Rectangular(X, kdim) && forall r :: 0 <= r < |js| ==> js[r] < 2 * kdim
    ensures W == rigidW && Z == rigidZ && |W| == 2 * kdim && |Z| == |X| && |rW| == kdim
    ensures forall i :: 0 <= i < |X| ==> Z[i] == Dot(Doubled(X)[i], W, 2 * kdim) == Dot(X[i], rW, kdim)
    ensures forall j :: 0 <= j < |W| ==> W[j] >= 0.0
  {
    var implicit := new ImplicitLasso(X, Y, lambda, kdim);
    var rigid := new RigidLasso(X, Y, lambda, kdim);
    assert implicit.W[..] == rigid.W[..];
    assert implicit.Z[..] == rigid.Z[..];
    ghost var s0 := implicit.Now();
    assert rigid.Now() == s0;
    implicit.Learning(js);
    RoundsKeep(Doubled(X), Y, lambda, s0, js);
    rigid.Learning(js);
    rW := implicit.Translating();
    W, Z, rigidW, rigidZ := implicit.W[..], implicit.Z[..], rigid.W[..], rigid.Z[..];
  }
}
