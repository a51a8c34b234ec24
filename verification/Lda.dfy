/** The counters of the LDA Gibbs sampler (tool/gLDA_serial.cpp): four arrays updated token by token that must
    always agree with a recount of the topic assignment.  Arithmetic is over the reals. */
module Lda {

  // ---------------------------------------------------------------- recounting

  datatype Token = Token(doc: nat, word: nat, topic: nat)

  type Test = Token -> bool

  function ByDocTopic(d: nat, k: nat): Test { (t: Token) => t.doc == d && t.topic == k }
  function ByTopicWord(k: nat, w: nat): Test { (t: Token) => t.topic == k && t.word == w }
  function ByDoc(d: nat): Test { (t: Token) => t.doc == d }
  function ByTopic(k: nat): Test { (t: Token) => t.topic == k }

  function Count(ts: seq<Token>, p: Test): nat
  {
    if ts == [] then 0 else Count(ts[..|ts| - 1], p) + if p(ts[|ts| - 1]) then 1 else 0
  }

  lemma CountAppend(ts: seq<Token>, t: Token, p: Test)
    ensures Count(ts + [t], p) == Count(ts, p) + if p(t) then 1 else 0
  {
    assert (ts + [t])[..|ts|] == ts;
  }

  lemma {:induction false} CountJoin(a: seq<Token>, b: seq<Token>, p: Test)
    ensures Count(a + b, p) == Count(a, p) + Count(b, p)
  {
    if b == [] {
      assert a + b == a;
    } else {
      var init, t := b[..|b| - 1], b[|b| - 1];
      CountJoin(a, init, p);
      CountAppend(a + init, t, p);
      assert a + b == a + init + [t];
    }
  }

  /** The tokens of document d whose topics are listed in zs. */
  function DocTokens(d: nat, words: seq<nat>, zs: seq<nat>): seq<Token>
    requires |zs| <= |words|
  {
    if zs == [] then []
    else DocTokens(d, words, zs[..|zs| - 1]) + [Token(d, words[|zs| - 1], zs[|zs| - 1])]
  }

  /** The assigned tokens of the first n documents. */
  function Tokens(docs: seq<seq<nat>>, z: seq<seq<nat>>, n: nat): seq<Token>
    requires n <= |z| && Fits(docs, z)
  {
    if n == 0 then [] else Tokens(docs, z, n - 1) + DocTokens(n - 1, docs[n - 1], z[n - 1])
  }

  /** At most one topic per word. */
  ghost predicate Fits(docs: seq<seq<nat>>, z: seq<seq<nat>>)
  {
    |z| <= |docs| && forall d :: 0 <= d < |z| ==> |z[d]| <= |docs[d]|
  }

  function Bit(b: bool): int
  {
    if b then 1 else 0
  }

  lemma {:induction false} DocTokensReassign(d: nat, words: seq<nat>, zs: seq<nat>, i: nat, k: nat, p: Test)
    requires |zs| <= |words| && i < |zs|
    ensures Count(DocTokens(d, words, zs[i := k]), p)
            == Count(DocTokens(d, words, zs), p) - Bit(p(Token(d, words[i], zs[i]))) + Bit(p(Token(d, words[i], k)))
    ensures Count(DocTokens(d, words, zs), p) >= Bit(p(Token(d, words[i], zs[i])))
  {
    var last := |zs| - 1;
    var init := zs[..last];
    var zs' := zs[i := k];
    DocTokensStep(d, words, zs, p);
    DocTokensStep(d, words, zs', p);
    hide DocTokens, Count;
    if i == last {
      assert zs'[..last] == init;
    } else {
      assert zs'[..last] == init[i := k];
      DocTokensReassign(d, words, init, i, k, p);
    }
  }

  lemma DocTokensStep(d: nat, words: seq<nat>, zs: seq<nat>, p: Test)
    requires 0 < |zs| <= |words|
    ensures var last := |zs| - 1;
            Count(DocTokens(d, words, zs), p)
            == Count(DocTokens(d, words, zs[..last]), p) + Bit(p(Token(d, words[last], zs[last])))
  {
    CountAppend(DocTokens(d, words, zs[..|zs| - 1]), Token(d, words[|zs| - 1], zs[|zs| - 1]), p);
  }

  function SetTopic(z: seq<seq<nat>>, d: nat, i: nat, k: nat): (r: seq<seq<nat>>)
    requires d < |z| && i < |z[d]|
    ensures |r| == |z| && r[d] == z[d][i := k] && forall e :: 0 <= e < |z| && e != d ==> r[e] == z[e]
  {
    var row: seq<nat> := z[d][i := k];
    z[d := row]
  }

  /** Giving one token another topic moves one unit in every recount. */
  lemma {:induction false} Reassign(docs: seq<seq<nat>>, z: seq<seq<nat>>, n: nat, d: nat, i: nat, k: nat, p: Test)
    requires Fits(docs, z) && d < n <= |z| && i < |z[d]|
    ensures Fits(docs, SetTopic(z, d, i, k))
    ensures Count(Tokens(docs, SetTopic(z, d, i, k), n), p)
            == Count(Tokens(docs, z, n), p) - Bit(p(Token(d, docs[d][i], z[d][i]))) + Bit(p(Token(d, docs[d][i], k)))
    ensures Count(Tokens(docs, z, n), p) >= Bit(p(Token(d, docs[d][i], z[d][i])))
  {
    var z' := SetTopic(z, d, i, k);
    hide Count, DocTokens, Tokens;
    TokensStep(docs, z, n, p);
    TokensStep(docs, z', n, p);
    if d == n - 1 {
      DocTokensReassign(d, docs[d], z[d], i, k, p);
      SameBefore(docs, z, z', n - 1);
    } else {
      Reassign(docs, z, n - 1, d, i, k, p);
    }
  }

  lemma TokensStep(docs: seq<seq<nat>>, z: seq<seq<nat>>, n: nat, p: Test)
    requires Fits(docs, z) && 0 < n <= |z|
    ensures Count(Tokens(docs, z, n), p)
            == Count(Tokens(docs, z, n - 1), p) + Count(DocTokens(n - 1, docs[n - 1], z[n - 1]), p)
  {
    CountJoin(Tokens(docs, z, n - 1), DocTokens(n - 1, docs[n - 1], z[n - 1]), p);
  }

  lemma {:induction false} SameBefore(docs: seq<seq<nat>>, z: seq<seq<nat>>, z': seq<seq<nat>>, n: nat)
    requires Fits(docs, z) && Fits(docs, z') && n <= |z| && n <= |z'| && forall d :: 0 <= d < n ==> z[d] == z'[d]
    ensures Tokens(docs, z, n) == Tokens(docs, z', n)
  {
    if n > 0 {
      SameBefore(docs, z, z', n - 1);
    }
  }

  // ---------------------------------------------------------------- drawing a topic

  function Sum(a: seq<real>, n: nat): real
    requires n <= |a|
  {
    if n == 0 then 0.0 else Sum(a, n - 1) + a[n - 1]
  }

  /** ran_multinomial: turns prob into its running sums and picks the first that exceeds u times the total.  With
      positive weights and u in [0, 1) the pick is in range. */
  method RanMultinomial(prob: array<real>, u: real) returns (i: nat)
    requires prob.Length > 0 && 0.0 <= u < 1.0
    requires forall k :: 0 <= k < prob.Length ==> prob[k] > 0.0
    modifies prob
    ensures i < prob.Length
    ensures var total := Sum(old(prob[..]), prob.Length);
            Sum(old(prob[..]), i) <= u * total < Sum(old(prob[..]), i + 1)
  {
    ghost var w := prob[..];
    var n := prob.Length;
    for j := 1 to n
      invariant forall k :: 0 <= k < j ==> prob[k] == Sum(w, k + 1)
      invariant forall k :: j <= k < n ==> prob[k] == w[k]
    {
      prob[j] := prob[j] + prob[j - 1];
    }
    SumPositive(w, n);
    var total := prob[n - 1];
    assert total == Sum(w, n);
    var p := u * total;
    ScaledIs(u, total, p);
    i := 0;
    while i < n && !(prob[i] > p)
      invariant i <= n && Sum(w, i) <= p
      invariant i == n ==> prob[n - 1] <= p
    {
      i := i + 1;
    }
  }

  lemma {:induction false} SumPositive(w: seq<real>, n: nat)
    requires 0 < n <= |w| && forall k :: 0 <= k < n ==> w[k] > 0.0
    ensures Sum(w, n) > 0.0
  {
    if n > 1 {
      SumPositive(w, n - 1);
    } else {
      assert Sum(w, 0) == 0.0;
    }
  }

  lemma ScaledIs(u: real, x: real, p: real)
    requires 0.0 <= u < 1.0 && x > 0.0 && p == u * x
    ensures 0.0 <= p < x
  {
    Scaled(u, x);
  }

  lemma Scaled(u: real, x: real)
    requires 0.0 <= u < 1.0 && x > 0.0
    ensures 0.0 <= u * x < x
  {
    assert (1.0 - u) * x > 0.0;
  }

  // ---------------------------------------------------------------- one step, on a recount

  datatype Setup = Setup(docs: seq<seq<nat>>, K: nat, V: nat, alpha: real, beta: real)

  predicate Proper(g: Setup)
  {
    g.K > 0 && g.V > 0 && g.alpha > 0.0 && g.beta > 0.0
  }

  /** A topic's share of the conditional: document part times word part. */
  function Share(a: int, alpha: real, b: int, kAlpha: real, c: int, beta: real, d: int, vBeta: real): (r: real)
    requires a >= 0 && b >= 0 && c >= 0 && d >= 0 && alpha > 0.0 && beta > 0.0 && kAlpha > 0.0 && vBeta > 0.0
    ensures r > 0.0
  {
    Positive(a, alpha, b, kAlpha, c, beta, d, vBeta);
    (a as real + alpha) / (b as real + kAlpha) * (c as real + beta) / (d as real + vBeta)
  }

  lemma Positive(a: int, alpha: real, b: int, kAlpha: real, c: int, beta: real, d: int, vBeta: real)
    requires a >= 0 && b >= 0 && c >= 0 && d >= 0 && alpha > 0.0 && beta > 0.0 && kAlpha > 0.0 && vBeta > 0.0
    ensures b as real + kAlpha != 0.0 && d as real + vBeta != 0.0
    ensures (a as real + alpha) / (b as real + kAlpha) * (c as real + beta) / (d as real + vBeta) > 0.0
  {
    Quotient(a as real + alpha, b as real + kAlpha);
    var q := (a as real + alpha) / (b as real + kAlpha);
    assert q * (c as real + beta) > 0.0;
    Quotient(q * (c as real + beta), d as real + vBeta);
  }

  lemma Quotient(x: real, y: real)
    requires x > 0.0 && y > 0.0
    ensures x / y > 0.0
  {
    assert x / y * y == x;
  }

  /** Kalpha and Vbeta of the source. */
  function Scale(a: real, n: nat): (r: real)
    ensures a > 0.0 && n > 0 ==> r > 0.0
  {
    a * n as real
  }

  /** How many of the tokens other than t pass the test. */
  function Others(ts: seq<Token>, t: Token, p: Test): int
  {
    Count(ts, p) - Bit(p(t))
  }

  ghost predicate OneOf(ts: seq<Token>, t: Token)
  {
    forall p: Test :: Others(ts, t, p) >= 0
  }

  /** The weights of the topics for a word w in the place of token t, counted from scratch over all the other
      tokens. */
  ghost function Weights(g: Setup, ts: seq<Token>, t: Token, w: nat): (ws: seq<real>)
    requires Proper(g) && OneOf(ts, t)
    ensures |ws| == g.K
  {
    seq(g.K, k requires 0 <= k < g.K =>
      Share(Others(ts, t, ByDocTopic(t.doc, k)), g.alpha, Others(ts, t, ByDoc(t.doc)), Scale(g.alpha, g.K),
            Others(ts, t, ByTopicWord(k, w)), g.beta, Others(ts, t, ByTopic(k)), Scale(g.beta, g.V)))
  }

  /** Topic k is where u lands when [0, 1) is divided in proportion to the weights. */
  predicate Drawn(ws: seq<real>, u: real, k: nat)
  {
    k < |ws| && Sum(ws, k) <= u * Sum(ws, |ws|) < Sum(ws, k + 1)
  }

  lemma TokenCounted(docs: seq<seq<nat>>, z: seq<seq<nat>>, d: nat, i: nat)
    requires Fits(docs, z) && d < |z| && i < |z[d]|
    ensures OneOf(Tokens(docs, z, |z|), Token(d, docs[d][i], z[d][i]))
  {
    forall p: Test
      ensures Others(Tokens(docs, z, |z|), Token(d, docs[d][i], z[d][i]), p) >= 0
    {
      Reassign(docs, z, |z|, d, i, 0, p);
    }
  }

  /** One step of the sampler as a relation on assignments, with no counters: the token's new topic is drawn
      from the weights recounted over the other tokens. */
  ghost predicate GibbsStep(g: Setup, z: seq<seq<nat>>, d: nat, i: nat, u: real, z': seq<seq<nat>>)
    requires Proper(g) && Fits(g.docs, z) && d < |z| && i < |z[d]|
  {
    var t := Token(d, g.docs[d][i], z[d][i]);
    TokenCounted(g.docs, z, d, i);
    var ws := Weights(g, Tokens(g.docs, z, |z|), t, t.word);
    exists k: nat :: Drawn(ws, u, k) && z' == SetTopic(z, d, i, k)
  }

  /** z' comes from z by sampling the first i words of document d in turn. */
  ghost predicate SampledWords(g: Setup, z: seq<seq<nat>>, d: nat, i: nat, u: (nat, nat) -> real, z': seq<seq<nat>>)
  {
    if i == 0 then z' == z
    else
      var j := i - 1;
      exists y :: SampledWords(g, z, d, j, u, y) && Steps(g, y, d, j, u(d, j), z')
  }

  ghost predicate Steps(g: Setup, z: seq<seq<nat>>, d: nat, i: nat, u: real, z': seq<seq<nat>>)
  {
    Proper(g) && Fits(g.docs, z) && d < |z| && i < |z[d]| && GibbsStep(g, z, d, i, u, z')
  }

  /** z' comes from z by sampling every word of the first n documents in turn. */
  ghost predicate SampledDocs(g: Setup, z: seq<seq<nat>>, n: nat, u: (nat, nat) -> real, z': seq<seq<nat>>)
    requires n <= |g.docs|
  {
    if n == 0 then z' == z
    else
      var d := n - 1;
      var size := |g.docs[d]|;
      exists y :: SampledDocs(g, z, d, u, y) && SampledWords(g, y, d, size, u, z')
  }

  lemma NothingSampled(g: Setup, z: seq<seq<nat>>, d: nat, u: (nat, nat) -> real)
    ensures SampledWords(g, z, d, 0, u, z) && SampledDocs(g, z, 0, u, z)
  {
  }

  lemma OneMoreWord(g: Setup, z: seq<seq<nat>>, d: nat, i: nat, u: (nat, nat) -> real, y: seq<seq<nat>>,
        z': seq<seq<nat>>)
    requires SampledWords(g, z, d, i, u, y) && Steps(g, y, d, i, u(d, i), z')
    ensures SampledWords(g, z, d, i + 1, u, z')
  {
    hide Steps;
  }

  lemma OneMoreDocument(g: Setup, z: seq<seq<nat>>, d: nat, u: (nat, nat) -> real, y: seq<seq<nat>>, z': seq<seq<nat>>)
    requires d < |g.docs| && SampledDocs(g, z, d, u, y) && SampledWords(g, y, d, |g.docs[d]|, u, z')
    ensures SampledDocs(g, z, d + 1, u, z')
  {
    hide SampledWords;
  }

  /** In the midst of a sweep from z to z': new topics up to word i of document d, the old ones from there on. */
  ghost predicate PartWay(z: seq<seq<nat>>, z': seq<seq<nat>>, d: nat, i: nat, y: seq<seq<nat>>)
  {
    && |z| == |z'| == |y| && d < |y| && i <= |z[d]| == |z'[d]| && y[d] == z'[d][..i] + z[d][i..]
    && (forall e :: 0 <= e < d ==> y[e] == z'[e]) && forall e :: d < e < |y| ==> y[e] == z[e]
  }

  /** z' is z but for the first n words of document d. */
  ghost predicate KeptFrom(z: seq<seq<nat>>, z': seq<seq<nat>>, d: nat, n: nat)
  {
    && |z| == |z'| && d < |z| && n <= |z[d]| == |z'[d]| && z'[d][n..] == z[d][n..]
    && forall e :: 0 <= e < |z| && e != d ==> z'[e] == z[e]
  }

  /** z' is z but for the topics in the first n documents. */
  ghost predicate DocsKept(z: seq<seq<nat>>, z': seq<seq<nat>>, n: nat)
  {
    |z'| == |z| && forall e :: 0 <= e < |z| ==> |z'[e]| == |z[e]| && (e >= n ==> z'[e] == z[e])
  }

  lemma StepKeeps(g: Setup, z: seq<seq<nat>>, d: nat, i: nat, u: real, z': seq<seq<nat>>)
    requires Steps(g, z, d, i, u, z')
    ensures KeptFrom(z, z', d, i + 1) && z'[d][..i] == z[d][..i]
  {
    hide Weights, Drawn, Tokens, Count;
  }

  lemma LastWord(g: Setup, z: seq<seq<nat>>, d: nat, n: nat, u: (nat, nat) -> real, z': seq<seq<nat>>)
    returns (m: seq<seq<nat>>)
    requires n > 0 && SampledWords(g, z, d, n, u, z')
    ensures SampledWords(g, z, d, n - 1, u, m) && Steps(g, m, d, n - 1, u(d, n - 1), z')
  {
    hide Steps;
    m :| SampledWords(g, z, d, n - 1, u, m) && Steps(g, m, d, n - 1, u(d, n - 1), z');
  }

  lemma LastDocument(g: Setup, z: seq<seq<nat>>, n: nat, u: (nat, nat) -> real, z': seq<seq<nat>>)
    returns (m: seq<seq<nat>>)
    requires 0 < n <= |g.docs| && SampledDocs(g, z, n, u, z')
    ensures SampledDocs(g, z, n - 1, u, m) && SampledWords(g, m, n - 1, |g.docs[n - 1]|, u, z')
  {
    hide SampledWords;
    m :| SampledDocs(g, z, n - 1, u, m) && SampledWords(g, m, n - 1, |g.docs[n - 1]|, u, z');
  }

  lemma KeptTwice(z: seq<seq<nat>>, y: seq<seq<nat>>, z': seq<seq<nat>>, d: nat, n: nat)
    requires n > 0 && KeptFrom(z, y, d, n - 1) && KeptFrom(y, z', d, n)
    ensures KeptFrom(z, z', d, n)
  {
    assert z[d][n..] == z[d][n - 1..][1..] && y[d][n..] == y[d][n - 1..][1..];
  }

  /** Sampling the first n words of a document leaves its other words and the other documents alone. */
  lemma {:induction false} WordsKeep(g: Setup, z: seq<seq<nat>>, d: nat, n: nat, u: (nat, nat) -> real,
        z': seq<seq<nat>>)
    requires d < |z| && n <= |z[d]| && SampledWords(g, z, d, n, u, z')
    ensures KeptFrom(z, z', d, n)
  {
    hide Steps;
    if n == 0 {
      assert z' == z;
      hide SampledWords;
    } else {
      hide SampledWords, KeptFrom;
      var m := LastWord(g, z, d, n, u, z');
      WordsKeep(g, z, d, n - 1, u, m);
      StepKeeps(g, m, d, n - 1, u(d, n - 1), z');
      KeptTwice(z, m, z', d, n);
    }
  }

  lemma DocsKeptOneMore(z: seq<seq<nat>>, m: seq<seq<nat>>, z': seq<seq<nat>>, n: nat)
    requires 0 < n <= |z| && DocsKept(z, m, n - 1) && KeptFrom(m, z', n - 1, |z[n - 1]|)
    ensures DocsKept(z, z', n)
  {
  }

  lemma {:induction false} DocsKeep(g: Setup, z: seq<seq<nat>>, n: nat, u: (nat, nat) -> real, z': seq<seq<nat>>)
    requires n <= |z| <= |g.docs| && (forall e :: 0 <= e < |z| ==> |z[e]| == |g.docs[e]|)
    requires SampledDocs(g, z, n, u, z')
    ensures DocsKept(z, z', n)
  {
    hide SampledWords, KeptFrom;
    if n == 0 {
      assert z' == z;
      hide SampledDocs;
    } else {
      hide SampledDocs;
      var m := LastDocument(g, z, n, u, z');
      DocsKeep(g, z, n - 1, u, m);
      WordsKeep(g, m, n - 1, |z[n - 1]|, u, z');
      hide DocsKept;
      DocsKeptOneMore(z, m, z', n);
    }
  }

  lemma PartWayAt(z: seq<seq<nat>>, m: seq<seq<nat>>, z': seq<seq<nat>>, d: nat, i: nat)
    requires KeptFrom(z, m, d, i) && KeptFrom(m, z', d, i + 1) && z'[d][..i] == m[d][..i]
    ensures PartWay(z, z', d, i, m) && PartWay(z, z', d, i + 1, z')
  {
    assert m[d] == m[d][..i] + m[d][i..];
    assert z'[d] == z'[d][..i + 1] + z'[d][i + 1..];
    assert z[d][i + 1..] == z[d][i..][1..] && m[d][i + 1..] == m[d][i..][1..];
  }

  lemma PartWayBefore(z: seq<seq<nat>>, m: seq<seq<nat>>, z': seq<seq<nat>>, d: nat, n: nat, i: nat, y: seq<seq<nat>>)
    requires i <= n && PartWay(z, m, d, i, y) && KeptFrom(m, z', d, n + 1) && z'[d][..n] == m[d][..n]
    ensures PartWay(z, z', d, i, y)
  {
    assert z'[d][..i] == z'[d][..n][..i] && m[d][..i] == m[d][..n][..i];
  }

  lemma {:induction false} WordTaken(g: Setup, z: seq<seq<nat>>, d: nat, n: nat, u: (nat, nat) -> real,
        z': seq<seq<nat>>, i: nat) returns (y: seq<seq<nat>>, y': seq<seq<nat>>)
    requires d < |z| && i < n <= |z[d]| && SampledWords(g, z, d, n, u, z')
    ensures PartWay(z, z', d, i, y) && PartWay(z, z', d, i + 1, y') && Steps(g, y, d, i, u(d, i), y')
  {
    hide SampledWords, Steps, PartWay, KeptFrom;
    var m := LastWord(g, z, d, n, u, z');
    WordsKeep(g, z, d, n - 1, u, m);
    StepKeeps(g, m, d, n - 1, u(d, n - 1), z');
    if i == n - 1 {
      PartWayAt(z, m, z', d, i);
      y, y' := m, z';
    } else {
      y, y' := WordTaken(g, z, d, n - 1, u, m, i);
      PartWayBefore(z, m, z', d, n - 1, i, y);
      PartWayBefore(z, m, z', d, n - 1, i + 1, y');
    }
  }

  lemma PartWayEarlier(z: seq<seq<nat>>, m: seq<seq<nat>>, z': seq<seq<nat>>, d: nat, i: nat, last: nat, n: nat,
        y: seq<seq<nat>>)
    requires PartWay(z, m, d, i, y) && d < last && KeptFrom(m, z', last, n)
    ensures PartWay(z, z', d, i, y)
  {
  }

  lemma PartWayLast(z: seq<seq<nat>>, m: seq<seq<nat>>, z': seq<seq<nat>>, d: nat, i: nat, y: seq<seq<nat>>)
    requires PartWay(m, z', d, i, y) && DocsKept(z, m, d)
    ensures PartWay(z, z', d, i, y)
  {
  }

  /** A sweep draws a topic for every word exactly once: in document d word i is drawn, with its own random number,
      when all words before it have their new topics and it and all words after it still their old ones. */
  lemma {:induction false} EachWordOnce(g: Setup, z: seq<seq<nat>>, n: nat, u: (nat, nat) -> real, z': seq<seq<nat>>,
        d: nat, i: nat) returns (y: seq<seq<nat>>, y': seq<seq<nat>>)
    requires n <= |z| <= |g.docs| && (forall e :: 0 <= e < |z| ==> |z[e]| == |g.docs[e]|)
    requires SampledDocs(g, z, n, u, z') && d < n && i < |z[d]|
    ensures PartWay(z, z', d, i, y) && PartWay(z, z', d, i + 1, y') && Steps(g, y, d, i, u(d, i), y')
  {
    hide SampledDocs, SampledWords, Steps, PartWay, KeptFrom;
    var last := n - 1;
    var size := |g.docs[last]|;
    var m := LastDocument(g, z, n, u, z');
    DocsKeep(g, z, last, u, m);
    assert |m| == |z| && |m[last]| == size && |m[d]| == |z[d]|;
    hide DocsKept;
    WordsKeep(g, m, last, size, u, z');
    if d < last {
      y, y' := EachWordOnce(g, z, last, u, m, d, i);
      PartWayEarlier(z, m, z', d, i, last, size, y);
      PartWayEarlier(z, m, z', d, i + 1, last, size, y');
    } else {
      y, y' := WordTaken(g, m, d, size, u, z', i);
      PartWayLast(z, m, z', d, i, y);
      PartWayLast(z, m, z', d, i + 1, y');
    }
  }

  /** Reassigning a token is taking it out of every recount and putting it back with its new topic. */
  lemma Recounts(docs: seq<seq<nat>>, z: seq<seq<nat>>, d: nat, i: nat, k: nat)
    requires Fits(docs, z) && d < |z| && i < |z[d]|
    ensures var t, t' := Token(d, docs[d][i], z[d][i]), Token(d, docs[d][i], k);
            var z' := SetTopic(z, d, i, k);
            && Fits(docs, z')
            && forall p: Test ::
                 Count(Tokens(docs, z', |z'|), p) == Count(Tokens(docs, z, |z|), p) - Count([t], p) + Bit(p(t'))
  {
    var t, t' := Token(d, docs[d][i], z[d][i]), Token(d, docs[d][i], k);
    var z' := SetTopic(z, d, i, k);
    Reassign(docs, z, |z|, d, i, k, ByDoc(0));
    forall p: Test
      ensures Count(Tokens(docs, z', |z'|), p) == Count(Tokens(docs, z, |z|), p) - Count([t], p) + Bit(p(t'))
    {
      Reassign(docs, z, |z|, d, i, k, p);
      CountOne(t, p);
    }
  }

  lemma CountOne(t: Token, p: Test)
    ensures Count([t], p) == Bit(p(t))
  {
    CountAppend([], t, p);
    assert [] + [t] == [t];
  }

  /** The first topic of a word: a uniform draw scaled to the topics and truncated. */
  function FirstTopic(u: real, K: nat): (k: nat)
    requires 0.0 <= u < 1.0 && K > 0
    ensures k < K && k as real <= u * K as real < k as real + 1.0
  {
    Scaled(u, K as real);
    Truncated(u * K as real, K);
    (u * K as real).Floor
  }

  lemma Truncated(x: real, K: nat)
    requires 0.0 <= x < K as real
    ensures 0 <= x.Floor < K && x.Floor as real <= x < x.Floor as real + 1.0
  {
  }

  ghost predicate FirstTopics(row: seq<nat>, d: nat, uniform: (nat, nat) -> real, K: nat)
    requires K > 0 && forall d, i :: 0.0 <= uniform(d, i) < 1.0
  {
    forall i :: 0 <= i < |row| ==> row[i] == FirstTopic(uniform(d, i), K)
  }

  // ---------------------------------------------------------------- what the weights are

  lemma Divided(x: real, y: real)
    requires y > 0.0
    ensures x / y * y == x
  {
  }

  lemma MulOrder(a: real, b: real, c: real)
    ensures a * b * c == a * (b * c) && a * b == b * a
  {
  }

  /** The share without division: it times the two totals is the product of the two counts. */
  lemma ShareIs(a: int, alpha: real, b: int, kAlpha: real, c: int, beta: real, d: int, vBeta: real)
    requires a >= 0 && b >= 0 && c >= 0 && d >= 0 && alpha > 0.0 && beta > 0.0 && kAlpha > 0.0 && vBeta > 0.0
    ensures Share(a, alpha, b, kAlpha, c, beta, d, vBeta) * ((b as real + kAlpha) * (d as real + vBeta))
            == (a as real + alpha) * (c as real + beta)
  {
    var x, y, z, u := a as real + alpha, b as real + kAlpha, c as real + beta, d as real + vBeta;
    Cleared(x, y, z, u);
  }

  lemma Cleared(x: real, y: real, z: real, u: real)
    requires y > 0.0 && u > 0.0
    ensures x / y * z / u * (y * u) == x * z
  {
    var q := x / y;
    var r := q * z / u;
    Divided(x, y);
    Divided(q * z, u);
    MulOrder(y, u, 0.0);
    MulOrder(r, u, y);
    MulOrder(q, z, y);
    MulOrder(z, y, 0.0);
    MulOrder(q, y, z);
  }

  /** A weight of topic k for word w in the place of t, on counts over the other tokens and without division: it times
      (n_d + K alpha) (n_k + V beta) is (n_dk + alpha) (n_kw + beta). */
  ghost predicate IsWeight(g: Setup, ts: seq<Token>, t: Token, w: nat, k: nat, weight: real)
  {
    weight * ((Others(ts, t, ByDoc(t.doc)) as real + g.alpha * g.K as real)
              * (Others(ts, t, ByTopic(k)) as real + g.beta * g.V as real))
    == (Others(ts, t, ByDocTopic(t.doc, k)) as real + g.alpha) * (Others(ts, t, ByTopicWord(k, w)) as real + g.beta)
  }

  lemma WeightsAre(g: Setup, ts: seq<Token>, t: Token, w: nat, k: nat)
    requires Proper(g) && OneOf(ts, t) && k < g.K
    ensures IsWeight(g, ts, t, w, k, Weights(g, ts, t, w)[k])
  {
    hide Share, Others;
    assert Scale(g.alpha, g.K) == g.alpha * g.K as real && Scale(g.beta, g.V) == g.beta * g.V as real;
    hide Scale;
    ShareIs(Others(ts, t, ByDocTopic(t.doc, k)), g.alpha, Others(ts, t, ByDoc(t.doc)), Scale(g.alpha, g.K),
            Others(ts, t, ByTopicWord(k, w)), g.beta, Others(ts, t, ByTopic(k)), Scale(g.beta, g.V));
  }

  /** What topic k weighs with the words below n together. */
  ghost function TopicMass(g: Setup, ts: seq<Token>, t: Token, k: nat, n: nat): real
    requires Proper(g) && OneOf(ts, t) && k < g.K
  {
    if n == 0 then 0.0 else TopicMass(g, ts, t, k, n - 1) + Weights(g, ts, t, n - 1)[k]
  }

  /** What the topics below m weigh with all words together. */
  ghost function Mass(g: Setup, ts: seq<Token>, t: Token, m: nat): real
    requires Proper(g) && OneOf(ts, t) && m <= g.K
  {
    if m == 0 then 0.0 else Mass(g, ts, t, m - 1) + TopicMass(g, ts, t, m - 1, g.V)
  }

  ghost predicate InRange(g: Setup, t: Token)
  {
    t.topic < g.K && t.word < g.V
  }

  function TopicWordsBelow(k: nat, n: nat): Test { (t: Token) => t.topic == k && t.word < n }
  function DocTopicsBelow(d: nat, m: nat): Test { (t: Token) => t.doc == d && t.topic < m }

  lemma OthersSplit(ts: seq<Token>, t: Token, p: Test, q: Test, r: Test)
    requires forall u :: Bit(r(u)) == Bit(p(u)) + Bit(q(u))
    ensures Others(ts, t, r) == Others(ts, t, p) + Others(ts, t, q)
  {
    CountSplit(ts, p, q, r);
  }

  lemma OthersNone(ts: seq<Token>, t: Token, p: Test)
    requires forall u :: !p(u)
    ensures Others(ts, t, p) == 0
  {
    CountNone(ts, p);
  }

  lemma {:induction false} CountSame(ts: seq<Token>, p: Test, q: Test)
    requires forall i :: 0 <= i < |ts| ==> p(ts[i]) == q(ts[i])
    ensures Count(ts, p) == Count(ts, q)
  {
    if ts != [] {
      CountSame(ts[..|ts| - 1], p, q);
    }
  }

  /** Products behind a name, so that proofs about sums of them stay linear. */
  function Times(a: real, b: real): real
  {
    a * b
  }

  lemma TimesAdds(a: real, b: real, c: real)
    ensures Times(a, b + c) == Times(a, b) + Times(a, c) && Times(b + c, a) == Times(b, a) + Times(c, a)
    ensures Times(a, 0.0) == 0.0 && Times(0.0, a) == 0.0 && Times(a, 1.0) == a
  {
  }

  /** x / y / u, the factor that all words of a topic share. */
  function Factor(x: real, y: real, u: real): real
    requires y > 0.0 && u > 0.0
  {
    x / y / u
  }

  lemma FactorIs(x: real, y: real, u: real)
    requires y > 0.0 && u > 0.0
    ensures Times(Times(Factor(x, y, u), u), y) == x
  {
    Divided(x, y);
    Divided(x / y, u);
  }

  lemma FactorOut(x: real, y: real, u: real, z: real)
    requires y > 0.0 && u > 0.0
    ensures x / y * z / u == Times(Factor(x, y, u), z)
  {
    var q := x / y;
    var f := q / u;
    Divided(q, u);
    Divided(q * z, u);
    MulOrder(f, u, z);
    MulOrder(f, z, u);
    MulOrder(u, z, 0.0);
    SameQuotient(q * z / u, f * z, u);
  }

  lemma DividedBack(a: real, u: real)
    requires u > 0.0
    ensures a * u / u == a
  {
  }

  lemma SameQuotient(a: real, b: real, u: real)
    requires u > 0.0 && a * u == b * u
    ensures a == b
  {
    DividedBack(a, u);
    DividedBack(b, u);
  }

  /** n_d + K alpha, n_k + V beta and n_dk + alpha over the other tokens. */
  function DocTotal(g: Setup, ts: seq<Token>, t: Token): real
  {
    Others(ts, t, ByDoc(t.doc)) as real + Scale(g.alpha, g.K)
  }

  function TopicTotal(g: Setup, ts: seq<Token>, t: Token, k: nat): real
  {
    Others(ts, t, ByTopic(k)) as real + Scale(g.beta, g.V)
  }

  function DocPart(g: Setup, ts: seq<Token>, t: Token, k: nat): real
  {
    Others(ts, t, ByDocTopic(t.doc, k)) as real + g.alpha
  }

  lemma TotalsPositive(g: Setup, ts: seq<Token>, t: Token, k: nat)
    requires Proper(g) && OneOf(ts, t)
    ensures DocTotal(g, ts, t) > 0.0 && TopicTotal(g, ts, t, k) > 0.0
  {
    hide Others, Scale;
    assert Others(ts, t, ByDoc(t.doc)) >= 0 && Others(ts, t, ByTopic(k)) >= 0;
  }

  ghost function TopicFactor(g: Setup, ts: seq<Token>, t: Token, k: nat): real
    requires Proper(g) && OneOf(ts, t)
  {
    TotalsPositive(g, ts, t, k);
    Factor(DocPart(g, ts, t, k), DocTotal(g, ts, t), TopicTotal(g, ts, t, k))
  }

  lemma WordWeight(g: Setup, ts: seq<Token>, t: Token, k: nat, w: nat)
    requires Proper(g) && OneOf(ts, t) && k < g.K
    ensures Weights(g, ts, t, w)[k]
            == Times(TopicFactor(g, ts, t, k), Others(ts, t, ByTopicWord(k, w)) as real + g.beta)
  {
    hide Factor, Scale, Others, Times;
    TotalsPositive(g, ts, t, k);
    FactorOut(DocPart(g, ts, t, k), DocTotal(g, ts, t), TopicTotal(g, ts, t, k),
              Others(ts, t, ByTopicWord(k, w)) as real + g.beta);
  }

  lemma ScaleNext(a: real, n: nat)
    ensures Scale(a, 0) == 0.0 && Scale(a, n + 1) == Scale(a, n) + a
  {
  }

  /** Over the words below n a topic weighs its factor times the count of its other tokens with these words, plus
      beta for each. */
  lemma {:induction false} TopicMassIs(g: Setup, ts: seq<Token>, t: Token, k: nat, n: nat)
    requires Proper(g) && OneOf(ts, t) && k < g.K
    ensures TopicMass(g, ts, t, k, n)
            == Times(TopicFactor(g, ts, t, k), Others(ts, t, TopicWordsBelow(k, n)) as real + Scale(g.beta, n))
  {
    hide TopicFactor, Scale, Others, Times, OneOf, Weights;
    var f := TopicFactor(g, ts, t, k);
    if n == 0 {
      OthersNone(ts, t, TopicWordsBelow(k, 0));
      ScaleNext(g.beta, 0);
      TimesAdds(f, 0.0, 0.0);
    } else {
      TopicMassIs(g, ts, t, k, n - 1);
      OthersSplit(ts, t, TopicWordsBelow(k, n - 1), ByTopicWord(k, n - 1), TopicWordsBelow(k, n));
      WordWeight(g, ts, t, k, n - 1);
      ScaleNext(g.beta, n - 1);
      TimesAdds(f, Others(ts, t, TopicWordsBelow(k, n - 1)) as real + Scale(g.beta, n - 1),
                Others(ts, t, ByTopicWord(k, n - 1)) as real + g.beta);
    }
  }

  /** Over all words a topic's weight is its part in the document: it times (n_d + K alpha) is n_dk + alpha. */
  lemma TopicMarginal(g: Setup, ts: seq<Token>, t: Token, k: nat)
    requires Proper(g) && OneOf(ts, t) && k < g.K
    requires InRange(g, t) && forall i :: 0 <= i < |ts| ==> InRange(g, ts[i])
    ensures Times(TopicMass(g, ts, t, k, g.V), DocTotal(g, ts, t)) == DocPart(g, ts, t, k)
  {
    CountSame(ts, TopicWordsBelow(k, g.V), ByTopic(k));
    assert Others(ts, t, TopicWordsBelow(k, g.V)) == Others(ts, t, ByTopic(k));
    hide Factor, Scale, Others, Count, TopicMass, Times, OneOf;
    TopicMassIs(g, ts, t, k, g.V);
    TotalsPositive(g, ts, t, k);
    FactorIs(DocPart(g, ts, t, k), DocTotal(g, ts, t), TopicTotal(g, ts, t, k));
  }

  lemma {:induction false} MassIs(g: Setup, ts: seq<Token>, t: Token, m: nat)
    requires Proper(g) && OneOf(ts, t) && m <= g.K
    requires InRange(g, t) && forall i :: 0 <= i < |ts| ==> InRange(g, ts[i])
    ensures Times(Mass(g, ts, t, m), DocTotal(g, ts, t))
            == Others(ts, t, DocTopicsBelow(t.doc, m)) as real + Scale(g.alpha, m)
  {
    hide Others, Count, TopicMass, Times, OneOf, DocTotal, Scale;
    var y := DocTotal(g, ts, t);
    if m == 0 {
      OthersNone(ts, t, DocTopicsBelow(t.doc, 0));
      ScaleNext(g.alpha, 0);
      TimesAdds(y, 0.0, 0.0);
    } else {
      MassIs(g, ts, t, m - 1);
      TopicMarginal(g, ts, t, m - 1);
      OthersSplit(ts, t, DocTopicsBelow(t.doc, m - 1), ByDocTopic(t.doc, m - 1), DocTopicsBelow(t.doc, m));
      TimesAdds(y, Mass(g, ts, t, m - 1), TopicMass(g, ts, t, m - 1, g.V));
      ScaleNext(g.alpha, m - 1);
    }
  }

  /** The weights are a probability over topics and words: together they are 1. */
  lemma WeightsSumToOne(g: Setup, ts: seq<Token>, t: Token)
    requires Proper(g) && OneOf(ts, t)
    requires InRange(g, t) && forall i :: 0 <= i < |ts| ==> InRange(g, ts[i])
    ensures Mass(g, ts, t, g.K) == 1.0
  {
    CountSame(ts, DocTopicsBelow(t.doc, g.K), ByDoc(t.doc));
    assert Others(ts, t, DocTopicsBelow(t.doc, g.K)) == Others(ts, t, ByDoc(t.doc));
    hide Others, Count, Mass, Scale, OneOf, InRange;
    MassIs(g, ts, t, g.K);
    TotalsPositive(g, ts, t, 0);
    ItselfOnce(Mass(g, ts, t, g.K), DocTotal(g, ts, t));
  }

  lemma ItselfOnce(a: real, u: real)
    requires u > 0.0 && Times(a, u) == u
    ensures a == 1.0
  {
    SameQuotient(a, 1.0, u);
  }

  // ---------------------------------------------------------------- the sampler

  class LdaModel {
    const docs: seq<seq<nat>>  // word ids per document
    const K: nat               // topics
    const V: nat               // words in the dictionary
    const alpha: real
    const beta: real
    const doc2topic: array2<int>
    const topic2word: array2<int>
    const sumDoc2topic: array<int>
    const sumTopic2word: array<int>
    const kProb: array<real>
    var z: seq<seq<nat>>       // the topic of each assigned word

    ghost predicate Shape()
    {
      && doc2topic.Length0 == sumDoc2topic.Length == |docs| && doc2topic.Length1 == K
      && topic2word.Length0 == sumTopic2word.Length == kProb.Length == K && topic2word.Length1 == V
      && doc2topic != topic2word && sumDoc2topic != sumTopic2word
      && K > 0 && alpha > 0.0 && beta > 0.0
      && forall d, i :: 0 <= d < |docs| && 0 <= i < |docs[d]| ==> docs[d][i] < V
    }

    ghost predicate Assigned()
      reads this
    {
      Fits(docs, z) && forall d, i :: 0 <= d < |z| && 0 <= i < |z[d]| ==> z[d][i] < K
    }

    /** All four arrays equal the counts recomputed from ts, less the tokens in `gone`. */
    ghost predicate Recounted(ts: seq<Token>, gone: seq<Token>)
      requires Shape()
      reads doc2topic, topic2word, sumDoc2topic, sumTopic2word
    {
      && (forall d, k :: 0 <= d < |docs| && 0 <= k < K ==>
                  doc2topic[d, k] == Count(ts, ByDocTopic(d, k)) - Count(gone, ByDocTopic(d, k)))
      && (forall k, w :: 0 <= k < K && 0 <= w < V ==>
                  topic2word[k, w] == Count(ts, ByTopicWord(k, w)) - Count(gone, ByTopicWord(k, w)))
      && (forall d :: 0 <= d < |docs| ==> sumDoc2topic[d] == Count(ts, ByDoc(d)) - Count(gone, ByDoc(d)))
      && (forall k :: 0 <= k < K ==> sumTopic2word[k] == Count(ts, ByTopic(k)) - Count(gone, ByTopic(k)))
    }

    ghost function Setting(): Setup
    {
      Setup(docs, K, V, alpha, beta)
    }

    ghost function Now(): seq<Token>
      requires Fits(docs, z)
      reads this
    {
      Tokens(docs, z, |z|)
    }

    /** The counters agree with a recount of the assignment. */
    ghost predicate Valid()
      reads this, doc2topic, topic2word, sumDoc2topic, sumTopic2word
    {
      Shape() && Assigned() && Recounted(Now(), [])
    }

    constructor (docs: seq<seq<nat>>, K: nat, V: nat, alpha: real, beta: real)
      requires K > 0 && alpha > 0.0 && beta > 0.0
      requires forall d, i :: 0 <= d < |docs| && 0 <= i < |docs[d]| ==> docs[d][i] < V
      ensures Shape() && this.docs == docs && this.K == K && this.V == V && z == []
      ensures this.alpha == alpha && this.beta == beta
      ensures fresh(doc2topic) && fresh(topic2word) && fresh(sumDoc2topic) && fresh(sumTopic2word) && fresh(kProb)
    {
      this.docs, this.K, this.V, this.alpha, this.beta := docs, K, V, alpha, beta;
      doc2topic := new int[|docs|, K];
      topic2word := new int[K, V];
      sumDoc2topic := new int[|docs|];
      sumTopic2word := new int[K];
      kProb := new real[K];
      z := [];
    }

    method Add(doc: nat, word: nat, topic: nat, num: int)
      requires Shape() && doc < |docs| && word < V && topic < K
      modifies doc2topic, topic2word, sumDoc2topic, sumTopic2word
      ensures forall d, k :: 0 <= d < |docs| && 0 <= k < K ==>
                doc2topic[d, k] == old(doc2topic[d, k]) + if d == doc && k == topic then num else 0
      ensures forall k, w :: 0 <= k < K && 0 <= w < V ==>
                topic2word[k, w] == old(topic2word[k, w]) + if k == topic && w == word then num else 0
      ensures forall d :: 0 <= d < |docs| ==> sumDoc2topic[d] == old(sumDoc2topic[d]) + if d == doc then num else 0
      ensures forall k :: 0 <= k < K ==> sumTopic2word[k] == old(sumTopic2word[k]) + if k == topic then num else 0
    {
      doc2topic[doc, topic] := doc2topic[doc, topic] + num;
      sumDoc2topic[doc] := sumDoc2topic[doc] + num;
      topic2word[topic, word] := topic2word[topic, word] + num;
      sumTopic2word[topic] := sumTopic2word[topic] + num;
    }

    /** Counting in a token: it is taken out of `gone`. */
    method CountIn(t: Token, ghost ts: seq<Token>, ghost ts': seq<Token>, ghost gone: seq<Token>)
      requires Shape() && t.doc < |docs| && t.word < V && t.topic < K && Recounted(ts, gone)
      requires forall p: Test :: Count(ts', p) == Count(ts, p) - Count(gone, p) + Bit(p(t))
      modifies doc2topic, topic2word, sumDoc2topic, sumTopic2word
      ensures Recounted(ts', [])
    {
      Add(t.doc, t.word, t.topic, 1);
    }

    /** Counting out a token. */
    method CountOut(t: Token, ghost ts: seq<Token>)
      requires Shape() && t.doc < |docs| && t.word < V && t.topic < K && Recounted(ts, [])
      modifies doc2topic, topic2word, sumDoc2topic, sumTopic2word
      ensures Recounted(ts, [t])
    {
      Add(t.doc, t.word, t.topic, -1);
      assert [t][..0] == [];
    }

    /** The first half of para_init. */
    method Zero()
      requires Shape()
      modifies doc2topic, topic2word, sumDoc2topic, sumTopic2word
      ensures Recounted([], [])
    {
      forall d, k | 0 <= d < |docs| && 0 <= k < K {
        doc2topic[d, k] := 0;
      }
      forall k, w | 0 <= k < K && 0 <= w < V {
        topic2word[k, w] := 0;
      }
      forall d | 0 <= d < |docs| {
        sumDoc2topic[d] := 0;
      }
      forall k | 0 <= k < K {
        sumTopic2word[k] := 0;
      }
    }

    /** para_init: a random topic for every word, counted in as it is drawn. */
    method ParaInit(uniform: (nat, nat) -> real)
      requires Shape() && forall d, i :: 0.0 <= uniform(d, i) < 1.0
      modifies this`z, doc2topic, topic2word, sumDoc2topic, sumTopic2word
      ensures Valid() && Full()
      ensures forall d :: 0 <= d < |docs| ==> FirstTopics(z[d], d, uniform, K)
    {
      Zero();
      z := [];
      assert Valid() && FullUpTo(0);
      hide Valid, FullUpTo, FirstTopics;
      for doc := 0 to |docs|
        invariant Valid() && |z| == doc && FullUpTo(doc)
        invariant forall d :: 0 <= d < doc ==> FirstTopics(z[d], d, uniform, K)
      {
        InitDocument(doc, uniform);
      }
    }

    /** The first n documents have a topic for every word. */
    ghost predicate FullUpTo(n: nat)
      reads this
    {
      n <= |z| && n <= |docs| && forall d :: 0 <= d < n ==> |z[d]| == |docs[d]|
    }

    method StartDocument()
      requires Valid() && |z| < |docs|
      modifies this`z
      ensures Valid() && z == old(z) + [[]]
    {
      OpenDocument(docs, z, z + [[]]);
      z := z + [[]];
    }

    method InitDocument(doc: nat, uniform: (nat, nat) -> real)
      requires Valid() && |z| == doc < |docs| && FullUpTo(doc) && forall d, i :: 0.0 <= uniform(d, i) < 1.0
      modifies this`z, doc2topic, topic2word, sumDoc2topic, sumTopic2word
      ensures Valid() && |z| == doc + 1 && FullUpTo(doc + 1)
      ensures FirstTopics(z[doc], doc, uniform, K) && forall d :: 0 <= d < doc ==> z[d] == old(z[d])
    {
      StartDocument();
      hide Recounted, Assigned, FullUpTo, FirstTopic;
      for i := 0 to |docs[doc]|
        invariant Valid() && |z| == doc + 1 && |z[doc]| == i && FirstTopics(z[doc], doc, uniform, K)
        invariant forall d :: 0 <= d < doc ==> z[d] == old(z[d])
      {
        Assign(doc, i, FirstTopic(uniform(doc, i), K));
      }
      FilledUp(old(z), doc);
    }

    lemma FilledUp(before: seq<seq<nat>>, doc: nat)
      requires |before| == doc < |docs| && |z| == doc + 1 && |z[doc]| == |docs[doc]|
      requires forall d :: 0 <= d < doc ==> z[d] == before[d] && |before[d]| == |docs[d]|
      ensures FullUpTo(doc + 1)
    {
    }

    method Assign(doc: nat, i: nat, topic: nat)
      requires Valid() && |z| == doc + 1 && |z[doc]| == i < |docs[doc]| && topic < K
      modifies this`z, doc2topic, topic2word, sumDoc2topic, sumTopic2word
      ensures Valid() && |z| == doc + 1 && z[doc] == old(z[doc]) + [topic]
      ensures forall d :: 0 <= d < doc ==> z[d] == old(z[d])
    {
      ghost var ts := Now();
      var t := Token(doc, docs[doc][i], topic);
      var row: seq<nat> := z[doc] + [topic];
      AppendToken(docs, z, row, topic);
      z := z[doc := row];
      CountIn(t, ts, Now(), []);
    }

    ghost predicate Full()
      reads this
    {
      |z| == |docs| && FullUpTo(|docs|)
    }

    /** single_iter: every word in turn is counted out, given a new topic and counted in.  The incremental
        counters take exactly the steps that recounting everything for each word would. */
    method SingleIter(uniform: (nat, nat) -> real)
      requires Valid() && Full() && forall d, i :: 0.0 <= uniform(d, i) < 1.0
      modifies this`z, doc2topic, topic2word, sumDoc2topic, sumTopic2word, kProb
      ensures Valid() && Full()
      ensures SampledDocs(Setting(), old(z), |docs|, uniform, z)
    {
      hide *;
      ghost var g, z0 := Setting(), z;
      assert g.docs == docs by {
        SettingDocs();
      }
      NothingSampled(g, z0, 0, uniform);
      for doc := 0 to |docs|
        invariant Valid() && Full()
        invariant SampledDocs(g, z0, doc, uniform, z)
      {
        ghost var y := z;
        SampleDocument(doc, uniform);
        OneMoreDocument(g, z0, doc, uniform, y, z);
      }
    }

    lemma SettingDocs()
      ensures Setting().docs == docs
    {
    }

    method SampleDocument(doc: nat, uniform: (nat, nat) -> real)
      requires Valid() && Full() && doc < |docs| && forall d, i :: 0.0 <= uniform(d, i) < 1.0
      modifies this`z, doc2topic, topic2word, sumDoc2topic, sumTopic2word, kProb
      ensures Valid() && Full()
      ensures SampledWords(Setting(), old(z), doc, |docs[doc]|, uniform, z)
    {
      NothingSampled(Setting(), z, doc, uniform);
      hide GibbsStep, SampledWords;
      for i := 0 to |docs[doc]|
        invariant Valid() && Full()
        invariant SampledWords(Setting(), old(z), doc, i, uniform, z)
      {
        ghost var y := z;
        Resample(doc, i, uniform(doc, i));
        OneMoreWord(Setting(), old(z), doc, i, uniform, y, z);
      }
    }

    /** One word of single_iter; the draw stays in range because the counters, one word short, are still counts. */
    method Resample(doc: nat, i: nat, u: real)
      requires Valid() && Full() && doc < |docs| && i < |docs[doc]| && 0.0 <= u < 1.0
      modifies this`z, doc2topic, topic2word, sumDoc2topic, sumTopic2word, kProb
      ensures Valid() && Full()
      ensures Proper(Setting()) && GibbsStep(Setting(), old(z), doc, i, u, z)
    {
      hide Count, Tokens, Sum, Recounted, Share;
      ghost var ts, z0 := Now(), z;
      var word := docs[doc][i];
      var t := Token(doc, word, z[doc][i]);
      TokenCounted(docs, z, doc, i);
      CountOut(t, ts);
      NotNegative(ts, t);
      FillWeights(doc, word);
      WeightsRecounted(ts, t);
      var topic := RanMultinomial(kProb, u);
      assert Drawn(Weights(Setting(), ts, t, t.word), u, topic);
      Recounts(docs, z0, doc, i, topic);
      var t' := Token(doc, word, topic);
      z := SetTopic(z, doc, i, topic);
      CountIn(t', ts, Now(), [t]);
    }

    /** The weights computed from the counters are those of a recount over the other tokens. */
    lemma WeightsRecounted(ts: seq<Token>, t: Token)
      requires Shape() && Recounted(ts, [t]) && NoneNegative() && OneOf(ts, t) && t.doc < |docs| && t.word < V
      requires WeightsFilled(t.doc, t.word)
      ensures Proper(Setting()) && kProb[..] == Weights(Setting(), ts, t, t.word)
      ensures forall k :: 0 <= k < K ==> IsWeight(Setup(docs, K, V, alpha, beta), ts, t, t.word, k, kProb[k])
    {
      hide IsWeight;
      hide Share, Scale;
      var ws := Weights(Setting(), ts, t, t.word);
      forall p: Test
        ensures Count([t], p) == Bit(p(t))
      {
        CountOne(t, p);
      }
      forall k | 0 <= k < K
        ensures kProb[k] == ws[k]
      {
        assert ws[k] == Share(Others(ts, t, ByDocTopic(t.doc, k)), alpha, Others(ts, t, ByDoc(t.doc)), Scale(alpha, K),
                              Others(ts, t, ByTopicWord(k, t.word)), beta, Others(ts, t, ByTopic(k)), Scale(beta, V));
        assert doc2topic[t.doc, k] == Others(ts, t, ByDocTopic(t.doc, k));
        assert topic2word[k, t.word] == Others(ts, t, ByTopicWord(k, t.word));
        assert sumDoc2topic[t.doc] == Others(ts, t, ByDoc(t.doc)) && sumTopic2word[k] == Others(ts, t, ByTopic(k));
      }
      assert kProb[..] == ws;
      forall k: nat | k < K
        ensures IsWeight(Setting(), ts, t, t.word, k, kProb[k])
      {
        WeightsAre(Setting(), ts, t, t.word, k);
      }
    }

    ghost predicate WeightsFilled(doc: nat, word: nat)
      requires Shape() && NoneNegative() && doc < |docs| && word < V
      reads kProb, doc2topic, topic2word, sumDoc2topic, sumTopic2word
    {
      forall k :: 0 <= k < K ==>
        kProb[k] == Share(doc2topic[doc, k], alpha, sumDoc2topic[doc], Scale(alpha, K),
                          topic2word[k, word], beta, sumTopic2word[k], Scale(beta, V))
    }

    ghost predicate NoneNegative()
      requires Shape()
      reads doc2topic, topic2word, sumDoc2topic, sumTopic2word
    {
      && (forall d, k :: 0 <= d < |docs| && 0 <= k < K ==> doc2topic[d, k] >= 0)
      && (forall k, w :: 0 <= k < K && 0 <= w < V ==> topic2word[k, w] >= 0)
      && (forall d :: 0 <= d < |docs| ==> sumDoc2topic[d] >= 0)
      && (forall k :: 0 <= k < K ==> sumTopic2word[k] >= 0)
    }

    lemma NotNegative(ts: seq<Token>, t: Token)
      requires Shape() && Recounted(ts, [t])
      requires OneOf(ts, t)
      ensures NoneNegative()
    {
      forall p: Test
        ensures Count(ts, p) - Count([t], p) >= 0
      {
        CountOne(t, p);
        assert Others(ts, t, p) >= 0;
      }
    }

    /** The weight loop of single_iter. */
    method FillWeights(doc: nat, word: nat)
      requires Shape() && NoneNegative() && doc < |docs| && word < V
      modifies kProb
      ensures WeightsFilled(doc, word) && forall k :: 0 <= k < K ==> kProb[k] > 0.0
    {
      hide Share, Scale;
      var kAlpha, vBeta := Scale(alpha, K), Scale(beta, V);
      for k := 0 to K
        invariant forall j :: 0 <= j < k ==> kProb[j] > 0.0
        invariant forall j :: 0 <= j < k ==>
                    kProb[j] == Share(doc2topic[doc, j], alpha, sumDoc2topic[doc], kAlpha,
                                 topic2word[j, word], beta, sumTopic2word[j], vBeta)
      {
        kProb[k] := Share(doc2topic[doc, k], alpha, sumDoc2topic[doc], kAlpha,
                          topic2word[k, word], beta, sumTopic2word[k], vBeta);
      }
    }
  }

  lemma OpenDocument(docs: seq<seq<nat>>, z: seq<seq<nat>>, z': seq<seq<nat>>)
    requires Fits(docs, z) && |z| < |docs| && z' == z + [[]]
    ensures Fits(docs, z') && Tokens(docs, z', |z'|) == Tokens(docs, z, |z|)
  {
    var n := |z|;
    OpenFits(docs, z);
    hide Tokens, DocTokens, Fits;
    TokensOfEmpty(docs, z', n);
    SameBefore(docs, z, z', n);
  }

  lemma OpenFits(docs: seq<seq<nat>>, z: seq<seq<nat>>)
    requires Fits(docs, z) && |z| < |docs|
    ensures Fits(docs, z + [[]])
  {
  }

  lemma TokensOfEmpty(docs: seq<seq<nat>>, z: seq<seq<nat>>, n: nat)
    requires Fits(docs, z) && n < |z| && z[n] == []
    ensures Tokens(docs, z, n + 1) == Tokens(docs, z, n)
  {
  }

  lemma AppendToken(docs: seq<seq<nat>>, z: seq<seq<nat>>, row: seq<nat>, k: nat)
    requires Fits(docs, z) && |z| > 0 && |z[|z| - 1]| < |docs[|z| - 1]| && row == z[|z| - 1] + [k]
    ensures var d := |z| - 1;
            var z' := z[d := row];
            && Fits(docs, z')
            && forall p: Test :: Count(Tokens(docs, z', |z'|), p)
                 == Count(Tokens(docs, z, |z|), p) + Bit(p(Token(d, docs[d][|z[d]|], k)))
  {
    var d := |z| - 1;
    var z' := z[d := row];
    SameBefore(docs, z, z', d);
    var t := Token(d, docs[d][|z[d]|], k);
    assert row[..|row| - 1] == z[d];
    assert DocTokens(d, docs[d], row) == DocTokens(d, docs[d], z[d]) + [t];
    assert Tokens(docs, z', d + 1) == Tokens(docs, z, d + 1) + [t];
    forall p: Test
      ensures Count(Tokens(docs, z', d + 1), p) == Count(Tokens(docs, z, d + 1), p) + Bit(p(t))
    {
      CountAppend(Tokens(docs, z, d + 1), t, p);
    }
  }

  // ---------------------------------------------------------------- what agreement gives

  function Words(docs: seq<seq<nat>>, n: nat): nat
    requires n <= |docs|
  {
    if n == 0 then 0 else Words(docs, n - 1) + |docs[n - 1]|
  }

  function Total(a: seq<int>, n: nat): int
    requires n <= |a|
  {
    if n == 0 then 0 else Total(a, n - 1) + a[n - 1]
  }

  function Everything(): Test { (t: Token) => true }
  function TopicBelow(k: nat): Test { (t: Token) => t.topic < k }
  function DocBelow(d: nat): Test { (t: Token) => t.doc < d }

  lemma {:induction false} CountSplit(ts: seq<Token>, p: Test, q: Test, r: Test)
    requires forall t :: Bit(r(t)) == Bit(p(t)) + Bit(q(t))
    ensures Count(ts, r) == Count(ts, p) + Count(ts, q)
  {
    if ts != [] {
      CountSplit(ts[..|ts| - 1], p, q, r);
      assert Bit(r(ts[|ts| - 1])) == Bit(p(ts[|ts| - 1])) + Bit(q(ts[|ts| - 1]));
    }
  }

  lemma {:induction false} CountEvery(ts: seq<Token>, p: Test)
    requires forall i :: 0 <= i < |ts| ==> p(ts[i])
    ensures Count(ts, p) == |ts|
  {
    if ts != [] {
      CountEvery(ts[..|ts| - 1], p);
    }
  }

  lemma {:induction false} CountNone(ts: seq<Token>, p: Test)
    requires forall i :: 0 <= i < |ts| ==> !p(ts[i])
    ensures Count(ts, p) == 0
  {
    if ts != [] {
      CountNone(ts[..|ts| - 1], p);
    }
  }

  lemma {:induction false} TotalOverTopics(a: seq<int>, ts: seq<Token>, n: nat)
    requires n <= |a| && forall k :: 0 <= k < |a| ==> a[k] == Count(ts, ByTopic(k))
    ensures Total(a, n) == Count(ts, TopicBelow(n))
  {
    if n > 0 {
      TotalOverTopics(a, ts, n - 1);
      CountSplit(ts, TopicBelow(n - 1), ByTopic(n - 1), TopicBelow(n));
    } else {
      CountNone(ts, TopicBelow(0));
    }
  }

  lemma {:induction false} TotalOverDocs(a: seq<int>, ts: seq<Token>, n: nat)
    requires n <= |a| && forall d :: 0 <= d < |a| ==> a[d] == Count(ts, ByDoc(d))
    ensures Total(a, n) == Count(ts, DocBelow(n))
  {
    if n > 0 {
      TotalOverDocs(a, ts, n - 1);
      CountSplit(ts, DocBelow(n - 1), ByDoc(n - 1), DocBelow(n));
    } else {
      CountNone(ts, DocBelow(0));
    }
  }

  lemma {:induction false} TokensInRange(docs: seq<seq<nat>>, z: seq<seq<nat>>, n: nat, K: nat)
    requires Fits(docs, z) && n <= |z| && forall d, i :: 0 <= d < |z| && 0 <= i < |z[d]| ==> z[d][i] < K
    ensures forall i :: 0 <= i < |Tokens(docs, z, n)| ==>
                Tokens(docs, z, n)[i].topic < K && Tokens(docs, z, n)[i].doc < n
    ensures (forall d :: 0 <= d < n ==> |z[d]| == |docs[d]|) ==> |Tokens(docs, z, n)| == Words(docs, n)
  {
    if n > 0 {
      TokensInRange(docs, z, n - 1, K);
      DocTokensInRange(n - 1, docs[n - 1], z[n - 1], K);
    }
  }

  lemma {:induction false} DocTokensInRange(d: nat, words: seq<nat>, zs: seq<nat>, K: nat)
    requires |zs| <= |words| && forall i :: 0 <= i < |zs| ==> zs[i] < K
    ensures |DocTokens(d, words, zs)| == |zs|
    ensures forall i :: 0 <= i < |zs| ==> DocTokens(d, words, zs)[i].topic < K && DocTokens(d, words, zs)[i].doc == d
  {
    if zs != [] {
      DocTokensInRange(d, words, zs[..|zs| - 1], K);
    }
  }

  /** Whenever the counters agree with a recount of a full assignment, no counter is negative and both sum arrays
      add up to the number of words in the corpus. */
  lemma AgreementConserves(m: LdaModel)
    requires m.Valid() && m.Full()
    ensures forall d, k :: 0 <= d < |m.docs| && 0 <= k < m.K ==> m.doc2topic[d, k] >= 0
    ensures forall k, w :: 0 <= k < m.K && 0 <= w < m.V ==> m.topic2word[k, w] >= 0
    ensures Total(m.sumDoc2topic[..], |m.docs|) == Words(m.docs, |m.docs|)
    ensures Total(m.sumTopic2word[..], m.K) == Words(m.docs, |m.docs|)
  {
    var ts := m.Now();
    TokensInRange(m.docs, m.z, |m.z|, m.K);
    TotalOverDocs(m.sumDoc2topic[..], ts, |m.docs|);
    TotalOverTopics(m.sumTopic2word[..], ts, m.K);
    CountEvery(ts, DocBelow(|m.docs|));
    CountEvery(ts, TopicBelow(m.K));
  }
}
