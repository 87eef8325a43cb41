/** The token-hashing embedder and cosine similarity, over exact reals. */
module Embeddings {
  import opened JsonText

  type Vector = seq<real>

  /** `sqrt` is the non-negative square root. */
  ghost predicate IsSqrt(sqrt: real -> real) {
    forall x: real :: x >= 0.0 ==> sqrt(x) >= 0.0 && sqrt(x) * sqrt(x) == x
  }

  // ---------- inner products ----------

  function Dot(a: Vector, b: Vector): real
    requires |a| == |b|
  {
    if a == [] then 0.0 else Dot(a[..|a| - 1], b[..|b| - 1]) + a[|a| - 1] * b[|b| - 1]
  }

  function NormSquared(a: Vector): (r: real)
    ensures r >= 0.0
  {
    if a == [] then 0.0 else NormSquared(a[..|a| - 1]) + a[|a| - 1] * a[|a| - 1]
  }

  /** Products of matching components, added up. */
  lemma {:induction false} DotAppend(a: Vector, b: Vector, x: real, y: real)
    requires |a| == |b|
    ensures Dot([], []) == 0.0 && Dot(a + [x], b + [y]) == Dot(a, b) + x * y
  {
    assert (a + [x])[..|a|] == a && (b + [y])[..|b|] == b;
  }

  lemma {:induction false} DotSelf(a: Vector)
    ensures Dot(a, a) == NormSquared(a)
  {
    if a != [] {
      DotSelf(a[..|a| - 1]);
    }
  }

  lemma {:induction false} SquareGrows(y: real, e: real)
    requires y >= 0.0 && e > 0.0
    ensures (y + e) * (y + e) > y * y
  {
    ProductPositive(y, e);
    ProductPositive(e, e);
    assert (y + e) * (y + e) == y * y + 2.0 * (y * e) + e * e;
  }

  lemma {:induction false} SquaresOrder(x: real, y: real)
    requires y >= 0.0 && x * x <= y * y
    ensures x <= y
  {
    if x > y {
      SquareGrows(y, x - y);
    }
  }

  /** Twice a product of roots is at most the sum: the step of Cauchy-Schwarz. */
  lemma {:induction false} CrossTerm(d: real, na: real, nb: real, x: real, y: real)
    requires na >= 0.0 && nb >= 0.0 && d * d <= na * nb
    ensures 2.0 * d * (x * y) <= na * (y * y) + nb * (x * x)
  {
    var p, q, xy := na * (y * y), nb * (x * x), x * y;
    assert p >= 0.0 && q >= 0.0;
    assert 4.0 * (p * q) <= (p + q) * (p + q) by {
      assert (p - q) * (p - q) >= 0.0;
    }
    assert p * q == (na * nb) * (xy * xy) by {
      assert (y * y) * (x * x) == xy * xy;
      Rearranged(na, nb, y * y, x * x);
    }
    assert (d * d) * (xy * xy) <= (na * nb) * (xy * xy) by {
      ScaledOrder(d * d, na * nb, xy * xy);
    }
    assert (2.0 * d * xy) * (2.0 * d * xy) == 4.0 * ((d * d) * (xy * xy)) by {
      Rearranged(d, d, xy, xy);
    }
    SquaresOrder(2.0 * d * xy, p + q);
  }

  lemma {:induction false} Rearranged(a: real, b: real, x: real, y: real)
    ensures (a * x) * (b * y) == (a * b) * (x * y)
  {
  }

  lemma {:induction false} ScaledOrder(a: real, b: real, s: real)
    requires a <= b && s >= 0.0
    ensures a * s <= b * s
  {
  }

  /** The square of `d` is at most the product of the two. */
  predicate Within(d: real, na: real, nb: real) {
    d * d <= na * nb
  }

  lemma {:induction false} StaysWithin(d: real, na: real, nb: real, x: real, y: real)
    requires na >= 0.0 && nb >= 0.0 && Within(d, na, nb)
    ensures Within(d + x * y, na + x * x, nb + y * y)
  {
    CrossTerm(d, na, nb, x, y);
    CauchySchwarzStep(d, na, nb, x, y);
  }

  lemma {:induction false} CauchySchwarzStep(d: real, na: real, nb: real, x: real, y: real)
    requires d * d <= na * nb
    requires 2.0 * d * (x * y) <= na * (y * y) + nb * (x * x)
    ensures (d + x * y) * (d + x * y) <= (na + x * x) * (nb + y * y)
  {
    assert (d + x * y) * (d + x * y) == d * d + 2.0 * d * (x * y) + (x * y) * (x * y);
    assert (na + x * x) * (nb + y * y) == na * nb + na * (y * y) + nb * (x * x) + (x * x) * (y * y);
    assert (x * y) * (x * y) == (x * x) * (y * y);
  }

  lemma {:induction false} DotIsWithin(a: Vector, b: Vector)
    requires |a| == |b|
    ensures Within(Dot(a, b), NormSquared(a), NormSquared(b))
  {
    if a != [] {
      var a', b' := a[..|a| - 1], b[..|b| - 1];
      DotIsWithin(a', b');
      StaysWithin(Dot(a', b'), NormSquared(a'), NormSquared(b'), a[|a| - 1], b[|b| - 1]);
    }
  }

  lemma {:induction false} CauchySchwarz(a: Vector, b: Vector)
    requires |a| == |b|
    ensures Dot(a, b) * Dot(a, b) <= NormSquared(a) * NormSquared(b)
  {
    DotIsWithin(a, b);
  }

  // ---------- cosine ----------

  datatype Similarity = Similar(value: real) | DimMismatch

  function CosineOf(a: Vector, b: Vector, sqrt: real -> real): real
    requires |a| == |b|
  {
    var na, nb := NormSquared(a), NormSquared(b);
    if na == 0.0 || nb == 0.0 then 0.0 else Quotient(Dot(a, b), sqrt(na), sqrt(nb))
  }

  /** The product of the two lengths is never zero where it is used. */
  function Quotient(d: real, p: real, q: real): real {
    Ratio(d, p * q)
  }

  function Ratio(d: real, m: real): real {
    if m == 0.0 then 0.0 else d / m
  }

  lemma {:induction false} RootOfPositive(sqrt: real -> real, x: real)
    requires IsSqrt(sqrt) && x > 0.0
    ensures sqrt(x) > 0.0
  {
    assert sqrt(x) >= 0.0 && sqrt(x) * sqrt(x) == x;
  }

  lemma {:induction false} RootIsUnique(sqrt: real -> real, x: real, root: real)
    requires IsSqrt(sqrt) && x >= 0.0 && root >= 0.0 && root * root == x
    ensures sqrt(x) == root
  {
    assert sqrt(x) >= 0.0 && sqrt(x) * sqrt(x) == x;
    SquaresOrder(sqrt(x), root);
    SquaresOrder(root, sqrt(x));
  }

  lemma {:induction false} RootsMultiply(sqrt: real -> real, x: real, y: real)
    requires IsSqrt(sqrt) && x > 0.0 && y > 0.0
    ensures sqrt(x) * sqrt(y) > 0.0
    ensures (sqrt(x) * sqrt(y)) * (sqrt(x) * sqrt(y)) == x * y
  {
    RootOfPositive(sqrt, x);
    RootOfPositive(sqrt, y);
    Rearranged(sqrt(x), sqrt(x), sqrt(y), sqrt(y));
  }

  /** One pass over both vectors; vectors of different length are an error. */
  method Cosine(a: Vector, b: Vector, sqrt: real -> real) returns (r: Similarity)
    requires IsSqrt(sqrt)
    ensures r.DimMismatch? <==> |a| != |b|
    ensures r.Similar? ==> r.value == CosineOf(a, b, sqrt)
    ensures r.Similar? ==> var na, nb := NormSquared(a), NormSquared(b);
      if na == 0.0 || nb == 0.0 then r.value == 0.0 else r.value * (sqrt(na) * sqrt(nb)) == Dot(a, b)
  {
    if |a| != |b| {
      return DimMismatch;
    }
    var dot, na, nb := 0.0, 0.0, 0.0;
    for i := 0 to |a|
      invariant dot == Dot(a[..i], b[..i])
      invariant na == NormSquared(a[..i]) && nb == NormSquared(b[..i])
    {
      assert a[..i + 1][..i] == a[..i] && b[..i + 1][..i] == b[..i];
      dot := dot + a[i] * b[i];
      na := na + a[i] * a[i];
      nb := nb + b[i] * b[i];
    }
    assert a[..|a|] == a && b[..|b|] == b;
    if na == 0.0 || nb == 0.0 {
      return Similar(0.0);
    }
    RootsMultiply(sqrt, na, nb);
    r := Similar(dot / (sqrt(na) * sqrt(nb)));
    TimesDivided(dot, sqrt(na) * sqrt(nb));
  }

  lemma {:induction false} TimesDivided(d: real, m: real)
    requires m != 0.0
    ensures (d / m) * m == d
  {
  }

  lemma {:induction false} Between(d: real, root: real)
    requires root > 0.0 && d * d <= root * root
    ensures -1.0 <= d / root <= 1.0
  {
    SquaresOrder(d, root);
    SquaresOrder(-d, root);
  }

  lemma {:induction false} QuotientInRange(d: real, p: real, q: real, n: real)
    requires p > 0.0 && q > 0.0 && p * q > 0.0 && (p * q) * (p * q) == n && d * d <= n
    ensures -1.0 <= Quotient(d, p, q) <= 1.0
  {
    Between(d, p * q);
  }

  lemma {:induction false} QuotientCommutes(d: real, p: real, q: real)
    ensures Quotient(d, p, q) == Quotient(d, q, p)
  {
    assert p * q == q * p;
  }

  lemma {:induction false} QuotientOfSquare(d: real, p: real)
    requires d > 0.0 && p * p == d
    ensures Quotient(d, p, p) == 1.0
  {
    RatioIsOne(d, d);
  }

  lemma {:induction false} RatioIsOne(d: real, m: real)
    requires m == d && m > 0.0
    ensures Ratio(d, m) == 1.0
  {
    QuotientIs(d, m, 1.0);
  }

  lemma {:induction false} CosineBounded(a: Vector, b: Vector, sqrt: real -> real)
    requires IsSqrt(sqrt) && |a| == |b|
    ensures -1.0 <= CosineOf(a, b, sqrt) <= 1.0
  {
    var na, nb := NormSquared(a), NormSquared(b);
    if na > 0.0 && nb > 0.0 {
      CauchySchwarz(a, b);
      RootsBound(Dot(a, b), na, nb, sqrt);
    }
  }

  lemma {:induction false} RootsBound(d: real, na: real, nb: real, sqrt: real -> real)
    requires IsSqrt(sqrt) && na > 0.0 && nb > 0.0 && d * d <= na * nb
    ensures -1.0 <= Quotient(d, sqrt(na), sqrt(nb)) <= 1.0
  {
    RootOfPositive(sqrt, na);
    RootOfPositive(sqrt, nb);
    RootsMultiply(sqrt, na, nb);
    QuotientInRange(d, sqrt(na), sqrt(nb), na * nb);
  }

  lemma {:induction false} CosineCommutes(a: Vector, b: Vector, sqrt: real -> real)
    requires |a| == |b|
    ensures CosineOf(a, b, sqrt) == CosineOf(b, a, sqrt)
  {
    DotCommutes(a, b);
    QuotientCommutes(Dot(a, b), sqrt(NormSquared(a)), sqrt(NormSquared(b)));
  }

  lemma {:induction false} CosineSelf(a: Vector, sqrt: real -> real)
    requires IsSqrt(sqrt) && NormSquared(a) != 0.0
    ensures CosineOf(a, a, sqrt) == 1.0
  {
    DotSelf(a);
    RootOfPositive(sqrt, NormSquared(a));
    assert sqrt(NormSquared(a)) * sqrt(NormSquared(a)) == NormSquared(a);
    QuotientOfSquare(NormSquared(a), sqrt(NormSquared(a)));
  }

  /** Similarity lies between -1 and 1, does not depend on the order, and is 1 between a vector other than zero and itself. */
  lemma {:induction false} CosineRange(a: Vector, b: Vector, sqrt: real -> real)
    requires IsSqrt(sqrt) && |a| == |b|
    ensures -1.0 <= CosineOf(a, b, sqrt) <= 1.0
    ensures CosineOf(a, b, sqrt) == CosineOf(b, a, sqrt)
    ensures NormSquared(a) != 0.0 ==> CosineOf(a, a, sqrt) == 1.0
  {
    CosineBounded(a, b, sqrt);
    CosineCommutes(a, b, sqrt);
    if NormSquared(a) != 0.0 {
      CosineSelf(a, sqrt);
    }
  }

  lemma {:induction false} DotCommutes(a: Vector, b: Vector)
    requires |a| == |b|
    ensures Dot(a, b) == Dot(b, a)
  {
    if a != [] {
      DotCommutes(a[..|a| - 1], b[..|b| - 1]);
    }
  }

  // ---------- scaling ----------

  function Scaled(s: real, a: Vector): (r: Vector)
    ensures |r| == |a| && forall i :: 0 <= i < |a| ==> r[i] == s * a[i]
  {
    seq(|a|, i requires 0 <= i < |a| => s * a[i])
  }

  lemma {:induction false} ScaledInit(s: real, a: Vector)
    requires a != []
    ensures Scaled(s, a)[..|a| - 1] == Scaled(s, a[..|a| - 1])
  {
    var left, right := Scaled(s, a)[..|a| - 1], Scaled(s, a[..|a| - 1]);
    assert |left| == |right|;
    forall i | 0 <= i < |left| ensures left[i] == right[i] {
      assert Scaled(s, a)[i] == s * a[i] && right[i] == s * a[..|a| - 1][i];
    }
  }

  lemma {:induction false} DotScaled(s: real, a: Vector, b: Vector)
    requires |a| == |b|
    ensures Dot(Scaled(s, a), b) == s * Dot(a, b)
  {
    if a != [] {
      var x, y := a[|a| - 1], b[|b| - 1];
      ScaledInit(s, a);
      DotScaled(s, a[..|a| - 1], b[..|b| - 1]);
      assert (s * x) * y == s * (x * y);
    }
  }

  function TimesBoth(s: real, t: real, d: real): real {
    s * (t * d)
  }

  lemma {:induction false} DotBothScaled(s: real, t: real, a: Vector, b: Vector)
    requires |a| == |b|
    ensures Dot(Scaled(s, a), Scaled(t, b)) == TimesBoth(s, t, Dot(a, b))
  {
    DotScaled(s, a, Scaled(t, b));
    DotCommutes(a, Scaled(t, b));
    DotScaled(t, b, a);
    DotCommutes(a, b);
  }

  lemma {:induction false} NormScaled(s: real, a: Vector)
    ensures NormSquared(Scaled(s, a)) == s * s * NormSquared(a)
  {
    DotSelf(a);
    DotSelf(Scaled(s, a));
    DotScaled(s, a, Scaled(s, a));
    DotCommutes(a, Scaled(s, a));
    DotScaled(s, a, a);
    assert s * (s * NormSquared(a)) == s * s * NormSquared(a);
  }

  lemma {:induction false} RootScaled(sqrt: real -> real, s: real, n: real, n': real)
    requires IsSqrt(sqrt) && s > 0.0 && n >= 0.0 && n' == s * s * n
    ensures n' >= 0.0 && (n' > 0.0 <==> n > 0.0) && sqrt(n') == s * sqrt(n)
  {
    assert sqrt(n) >= 0.0 && sqrt(n) * sqrt(n) == n;
    ProductPositive(s, s);
    ProductPositive(s * s, n);
    ProductPositive(s, sqrt(n));
    Rearranged(s, s, sqrt(n), sqrt(n));
    RootIsUnique(sqrt, n', s * sqrt(n));
  }

  lemma {:induction false} QuotientIs(n: real, m: real, q: real)
    requires m != 0.0 && q * m == n
    ensures n / m == q
  {
    var p := n / m;
    assert p * m == n;
    assert (p - q) * m == 0.0;
  }

  lemma {:induction false} Regrouped(q: real, s: real, a: real, b: real)
    ensures q * ((s * a) * b) == s * (q * (a * b))
  {
  }

  lemma {:induction false} CancelScale(s: real, d: real, ra: real, rb: real)
    requires s > 0.0 && ra > 0.0 && rb > 0.0
    ensures Quotient(s * d, s * ra, rb) == Quotient(d, ra, rb)
  {
    ProductPositive(ra, rb);
    ProductPositive(s, ra);
    ProductPositive(s * ra, rb);
    var q := d / (ra * rb);
    assert q * (ra * rb) == d;
    Regrouped(q, s, ra, rb);
    QuotientIs(s * d, (s * ra) * rb, q);
  }

  /** Scaling a vector by a positive factor changes no similarity, so normalising never alters a ranking. */
  lemma {:induction false} ScaleInvariance(s: real, a: Vector, b: Vector, sqrt: real -> real)
    requires IsSqrt(sqrt) && s > 0.0 && |a| == |b|
    ensures CosineOf(Scaled(s, a), b, sqrt) == CosineOf(a, b, sqrt)
  {
    var na, nb := NormSquared(a), NormSquared(b);
    NormScaled(s, a);
    RootScaled(sqrt, s, na, NormSquared(Scaled(s, a)));
    DotScaled(s, a, b);
    if na > 0.0 && nb > 0.0 {
      RootOfPositive(sqrt, na);
      RootOfPositive(sqrt, nb);
      CancelScale(s, Dot(a, b), sqrt(na), sqrt(nb));
    }
  }

  // ---------- words ----------

  /** An ASCII letter or digit. */
  predicate IsWordChar(n: CodePoint) {
    48 <= n <= 57 || 65 <= n <= 90 || 97 <= n <= 122
  }

  /** How many word characters the text begins with. */
  function RunLength(s: Text): (n: nat)
    ensures n <= |s| && (forall i :: 0 <= i < n ==> IsWordChar(s[i])) && (n < |s| ==> !IsWordChar(s[n]))
  {
    if s == [] || !IsWordChar(s[0]) then 0 else 1 + RunLength(s[1..])
  }

  function Letters(s: Text): (r: string)
    requires forall i :: 0 <= i < |s| ==> IsWordChar(s[i])
    ensures |r| == |s|
  {
    seq(|s|, i requires 0 <= i < |s| && IsWordChar(s[i]) => s[i] as char)
  }

  /** The maximal runs of word characters, in order. */
  function Words(s: Text): seq<string>
    decreases |s|
  {
    if s == [] then []
    else
      var n := RunLength(s);
      if n == 0 then Words(s[1..]) else [Letters(s[..n])] + Words(s[n..])
  }

  lemma {:induction false} WholeRun(run: Text)
    requires forall i :: 0 <= i < |run| ==> IsWordChar(run[i])
    ensures RunLength(run) == |run|
  {
  }

  /** A text of nothing but ASCII letters and digits is one word, with these letters; no text has no word. */
  lemma {:induction false} OneRunOneWord(run: Text)
    requires forall i :: 0 <= i < |run| ==> 48 <= run[i] <= 57 || 65 <= run[i] <= 90 || 97 <= run[i] <= 122
    ensures run == [] ==> Words(run) == []
    ensures run != [] ==> |Words(run)| == 1 && |Words(run)[0]| == |run|
    ensures forall i :: 0 <= i < |run| ==> Words(run)[0][i] as int == run[i]
  {
    WholeRun(run);
    assert run[..|run|] == run && run[|run|..] == [];
    assert run != [] ==> Words(run) == [Letters(run)] + Words([]);
  }

  lemma {:induction false} RunStopsAt(a: Text, tail: Text)
    requires tail != [] && !IsWordChar(tail[0])
    ensures RunLength(a + tail) == RunLength(a)
  {
    var n, s := RunLength(a), a + tail;
    assert s[|a|] == tail[0] && forall i :: 0 <= i < |a| ==> s[i] == a[i];
    assert n < |s| && !IsWordChar(s[n]);
  }

  lemma {:induction false} SliceAppend(a: Text, tail: Text, n: nat)
    requires n <= |a|
    ensures (a + tail)[n..] == a[n..] + tail && (a + tail)[..n] == a[..n]
  {
  }

  /** Reading on past the first word, or past the first separator, of a text with more text after it. */
  lemma {:induction false} WordsOneStep(a: Text, s: Text, from: nat, more: seq<string>)
    requires a != [] && s != [] && RunLength(s) == RunLength(a)
    requires from == (if RunLength(a) == 0 then 1 else RunLength(a)) && from <= |s|
    requires s[..RunLength(a)] == a[..RunLength(a)]
    requires Words(s[from..]) == Words(a[from..]) + more
    ensures Words(s) == Words(a) + more
  {
  }

  lemma {:induction false} WordsOfBoth(a: Text, tail: Text)
    requires tail != [] && !IsWordChar(tail[0])
    ensures Words(a + tail) == Words(a) + Words(tail[1..])
    decreases |a|
  {
    if a == [] {
      assert a + tail == tail;
    } else {
      var from := if RunLength(a) == 0 then 1 else RunLength(a);
      WordsOfBoth(a[from..], tail);
      RunStopsAt(a, tail);
      SliceAppend(a, tail, from);
      SliceAppend(a, tail, RunLength(a));
      WordsOneStep(a, a + tail, from, Words(tail[1..]));
    }
  }

  /** A character that is no letter and no digit ends a word, and nothing else of it shows. */
  lemma {:induction false} SeparatorsSplit(a: Text, separator: CodePoint, b: Text)
    requires !(48 <= separator <= 57 || 65 <= separator <= 90 || 97 <= separator <= 122)
    ensures Words(a + [separator] + b) == Words(a) + Words(b)
  {
    var tail := [separator] + b;
    WordsOfBoth(a, tail);
    assert tail[1..] == b && a + [separator] + b == a + tail;
  }

  /** Which separators stand between two pieces of text, and how many, makes no difference to the words. */
  lemma {:induction false} SeparatorsDoNotMatter(a: Text, x: CodePoint, y: CodePoint, b: Text)
    requires !IsWordChar(x) && !IsWordChar(y)
    ensures Words(a + [x] + b) == Words(a + [y] + b) == Words(a + [x] + ([y] + b))
  {
    SeparatorsSplit(a, x, b);
    SeparatorsSplit(a, y, b);
    SeparatorsSplit(a, x, [y] + b);
    SeparatorsSplit([], y, b);
    assert [] + [y] + b == [y] + b;
  }

  // ---------- the embedder ----------

  /** How many tokens fall into bucket `bucket`. */
  function CountIn(tokens: seq<string>, hash: string -> nat, dim: nat, bucket: nat): nat
    requires dim > 0
  {
    if tokens == [] then 0
    else
      var here := if hash(tokens[|tokens| - 1]) % dim == bucket then 1 else 0;
      CountIn(tokens[..|tokens| - 1], hash, dim, bucket) + here
  }

  function Counts(tokens: seq<string>, hash: string -> nat, dim: nat): (r: Vector)
    requires dim > 0
    ensures |r| == dim && forall i :: 0 <= i < dim ==> r[i] == CountIn(tokens, hash, dim, i) as real
  {
    seq(dim, i requires 0 <= i < dim => CountIn(tokens, hash, dim, i) as real)
  }

  function Normalised(a: Vector, sqrt: real -> real): Vector {
    var norm := sqrt(NormSquared(a));
    if norm == 0.0 then a else Scaled(1.0 / norm, a)
  }

  /** Adds one to a token's bucket, token by token. */
  method CountTokens(tokens: seq<string>, hash: string -> nat, dim: nat) returns (vec: array<real>)
    requires dim > 0
    ensures fresh(vec) && vec[..] == Counts(tokens, hash, dim)
  {
    vec := new real[dim](_ => 0.0);
    for k := 0 to |tokens|
      invariant forall i :: 0 <= i < dim ==> vec[i] == CountIn(tokens[..k], hash, dim, i) as real
    {
      assert tokens[..k + 1][..k] == tokens[..k];
      var bucket := hash(tokens[k]) % dim;
      vec[bucket] := vec[bucket] + 1.0;
    }
    assert tokens[..|tokens|] == tokens;
  }

  /** The sum of squares, accumulated left to right. */
  method SumOfSquares(a: Vector) returns (squares: real)
    ensures squares == NormSquared(a)
  {
    squares := 0.0;
    for i := 0 to |a|
      invariant squares == NormSquared(a[..i])
    {
      assert a[..i + 1][..i] == a[..i];
      squares := squares + a[i] * a[i];
    }
    assert a[..|a|] == a;
  }

  /** Counts the tokens bucket by bucket, then divides by the length of the count vector. */
  method EmbedTokens(tokens: seq<string>, hash: string -> nat, dim: nat, sqrt: real -> real) returns (r: Vector)
    requires dim > 0
    ensures r == Normalised(Counts(tokens, hash, dim), sqrt)
    ensures |r| == dim
    ensures var norm := sqrt(NormSquared(Counts(tokens, hash, dim)));
      forall i :: 0 <= i < dim ==>
        r[i] == if norm == 0.0 then CountIn(tokens, hash, dim, i) as real
                else (1.0 / norm) * CountIn(tokens, hash, dim, i) as real
  {
    var vec := CountTokens(tokens, hash, dim);
    var squares := SumOfSquares(vec[..]);
    var norm := sqrt(squares);
    if norm == 0.0 {
      return vec[..];
    }
    r := DivideAll(vec[..], norm);
  }

  /** Splits the lowered text into words and embeds them. */
  method Embed(text: Text, lower: Text -> Text, hash: string -> nat, dim: nat, sqrt: real -> real) returns (r: Vector)
    requires dim > 0
    ensures r == Normalised(Counts(Words(lower(text)), hash, dim), sqrt)
  {
    r := EmbedTokens(Words(lower(text)), hash, dim, sqrt);
  }

  method DivideAll(a: Vector, norm: real) returns (r: Vector)
    requires norm != 0.0
    ensures r == Scaled(1.0 / norm, a)
  {
    r := [];
    for i := 0 to |a|
      invariant |r| == i && forall j :: 0 <= j < i ==> r[j] == a[j] / norm
    {
      r := r + [a[i] / norm];
    }
    ghost var scaled := Scaled(1.0 / norm, a);
    forall j | 0 <= j < |a| ensures r[j] == scaled[j] {
      DivideIsScale(a[j], norm);
    }
  }

  lemma {:induction false} DivideIsScale(x: real, norm: real)
    requires norm != 0.0
    ensures x / norm == (1.0 / norm) * x
  {
  }

  /** Comparing embeddings is comparing count vectors. */
  lemma {:induction false} NormalisingKeepsSimilarity(a: Vector, b: Vector, sqrt: real -> real)
    requires IsSqrt(sqrt) && |a| == |b|
    ensures CosineOf(Normalised(a, sqrt), Normalised(b, sqrt), sqrt) == CosineOf(a, b, sqrt)
  {
    OneSide(a, Normalised(b, sqrt), sqrt);
    CosineRange(a, Normalised(b, sqrt), sqrt);
    OneSide(b, a, sqrt);
    CosineRange(Normalised(b, sqrt), a, sqrt);
    CosineRange(a, b, sqrt);
  }

  lemma {:induction false} OneSide(a: Vector, b: Vector, sqrt: real -> real)
    requires IsSqrt(sqrt) && |a| == |b|
    ensures CosineOf(Normalised(a, sqrt), b, sqrt) == CosineOf(a, b, sqrt)
  {
    var norm := sqrt(NormSquared(a));
    assert norm >= 0.0;
    if norm != 0.0 {
      ScaleInvariance(1.0 / norm, a, b, sqrt);
    }
  }

  lemma {:induction false} DotOfScaled(a: Vector, b: Vector, s: real, t: real, p: real, q: real)
    requires |a| == |b| && p > 0.0 && q > 0.0 && p * s == 1.0 && q * t == 1.0
    ensures Dot(Scaled(s, a), Scaled(t, b)) == Quotient(Dot(a, b), p, q)
  {
    DotBothScaled(s, t, a, b);
    TwoDivisions(Dot(Scaled(s, a), Scaled(t, b)), s, t, Dot(a, b), p, q);
  }

  lemma {:induction false} DotOfUnits(a: Vector, b: Vector, p: real, q: real)
    requires |a| == |b| && p > 0.0 && q > 0.0
    ensures Dot(Scaled(1.0 / p, a), Scaled(1.0 / q, b)) == Quotient(Dot(a, b), p, q)
  {
    assert p * (1.0 / p) == 1.0 && q * (1.0 / q) == 1.0;
    DotOfScaled(a, b, 1.0 / p, 1.0 / q, p, q);
  }

  /** On normalised vectors similarity is just the dot product. */
  lemma {:induction false} UnitDotIsCosine(a: Vector, b: Vector, sqrt: real -> real)
    requires IsSqrt(sqrt) && |a| == |b|
    ensures Dot(Normalised(a, sqrt), Normalised(b, sqrt)) == CosineOf(a, b, sqrt)
  {
    var na, nb := NormSquared(a), NormSquared(b);
    if na == 0.0 {
      CauchySchwarz(Normalised(a, sqrt), Normalised(b, sqrt));
      assert sqrt(na) * sqrt(na) == 0.0;
      ZeroSquare(Dot(Normalised(a, sqrt), Normalised(b, sqrt)));
    } else if nb == 0.0 {
      CauchySchwarz(Normalised(a, sqrt), Normalised(b, sqrt));
      assert sqrt(nb) * sqrt(nb) == 0.0;
      ZeroSquare(Dot(Normalised(a, sqrt), Normalised(b, sqrt)));
    } else {
      RootOfPositive(sqrt, na);
      RootOfPositive(sqrt, nb);
      DotOfUnits(a, b, sqrt(na), sqrt(nb));
    }
  }

  lemma {:induction false} ZeroSquare(x: real)
    requires x * x <= 0.0
    ensures x == 0.0
  {
    SquaresOrder(x, 0.0);
    SquaresOrder(-x, 0.0);
  }

  lemma {:induction false} Inverses(d: real, p: real, q: real, u: real, v: real)
    requires p * u == 1.0 && q * v == 1.0
    ensures (u * (v * d)) * (p * q) == d
  {
    calc {
      (u * (v * d)) * (p * q);
      (p * u) * ((q * v) * d);
      1.0 * ((q * v) * d);
      d;
    }
  }

  lemma {:induction false} TwoDivisions(x: real, s: real, t: real, d: real, p: real, q: real)
    requires p > 0.0 && q > 0.0 && p * s == 1.0 && q * t == 1.0 && x == TimesBoth(s, t, d)
    ensures x == Quotient(d, p, q)
  {
    ProductPositive(p, q);
    Inverses(d, p, q, s, t);
    QuotientIs(d, p * q, x);
  }

  // ---------- when similarity is 1 ----------

  function Difference(a: Vector, b: Vector): (r: Vector)
    requires |a| == |b|
    ensures |r| == |a| && forall i :: 0 <= i < |a| ==> r[i] == a[i] - b[i]
  {
    seq(|a|, i requires 0 <= i < |a| => a[i] - b[i])
  }

  lemma {:induction false} DifferenceInit(a: Vector, b: Vector)
    requires |a| == |b| && a != []
    ensures var n := |a| - 1; Difference(a, b)[..n] == Difference(a[..n], b[..n])
  {
    var n := |a| - 1;
    var left, right := Difference(a, b)[..n], Difference(a[..n], b[..n]);
    forall i | 0 <= i < n ensures left[i] == right[i] {
      assert left[i] == a[i] - b[i] && right[i] == a[..n][i] - b[..n][i];
    }
  }

  /** The square of a distance, from the squares of the lengths and the dot product. */
  function Spread(na: real, nb: real, dot: real): real {
    na - 2.0 * dot + nb
  }

  lemma {:induction false} DistanceStep(r: real, na: real, nb: real, dot: real, r': real, na': real, nb': real, dot': real,
      x: real, y: real, z: real)
    requires r == Spread(na, nb, dot) && z == x - y
    requires Grown(r, r', z, z) && Grown(na, na', x, x) && Grown(nb, nb', y, y) && Grown(dot, dot', x, y)
    ensures r' == Spread(na', nb', dot')
  {
    assert (x - y) * (x - y) == x * x - 2.0 * (x * y) + y * y;
  }

  /** `r'` is `r` and one more product. */
  predicate Grown(r: real, r': real, x: real, y: real) {
    r' == r + x * y
  }

  lemma {:induction false} NormGrows(a: Vector)
    requires a != []
    ensures var n := |a| - 1; Grown(NormSquared(a[..n]), NormSquared(a), a[n], a[n])
  {
  }

  lemma {:induction false} DotGrows(a: Vector, b: Vector)
    requires |a| == |b| && a != []
    ensures var n := |a| - 1; Grown(Dot(a[..n], b[..n]), Dot(a, b), a[n], b[n])
  {
  }

  lemma {:induction false} DistanceSquared(a: Vector, b: Vector)
    requires |a| == |b|
    ensures NormSquared(Difference(a, b)) == Spread(NormSquared(a), NormSquared(b), Dot(a, b))
  {
    if a != [] {
      var n := |a| - 1;
      var d := Difference(a, b);
      DistanceSquared(a[..n], b[..n]);
      DifferenceInit(a, b);
      NormGrows(d);
      NormGrows(a);
      NormGrows(b);
      DotGrows(a, b);
      DistanceStep(NormSquared(d[..n]), NormSquared(a[..n]), NormSquared(b[..n]), Dot(a[..n], b[..n]),
                   NormSquared(d), NormSquared(a), NormSquared(b), Dot(a, b), a[n], b[n], d[n]);
    }
  }

  lemma {:induction false} ZeroNorm(a: Vector)
    requires NormSquared(a) == 0.0
    ensures forall i :: 0 <= i < |a| ==> a[i] == 0.0
  {
    if a != [] {
      var n := |a| - 1;
      SquareNonNegative(a[n]);
      ZeroSquare(a[n]);
      ZeroNorm(a[..n]);
      assert forall i :: 0 <= i < n ==> a[i] == a[..n][i];
    }
  }

  lemma {:induction false} SquareNonNegative(x: real)
    ensures x * x >= 0.0
  {
  }

  /** A vector other than zero is normalised to length 1. */
  lemma {:induction false} NormalisedHasUnitLength(a: Vector, sqrt: real -> real)
    requires IsSqrt(sqrt) && NormSquared(a) != 0.0
    ensures NormSquared(Normalised(a, sqrt)) == 1.0
  {
    UnitDotIsCosine(a, a, sqrt);
    CosineRange(a, a, sqrt);
    DotSelf(Normalised(a, sqrt));
  }

  /** The similarity of two vectors is 1 exactly when they have the same embedding, and it is not zero. */
  lemma {:induction false} SimilarityOneIffSameEmbedding(a: Vector, b: Vector, sqrt: real -> real)
    requires IsSqrt(sqrt) && |a| == |b|
    ensures CosineOf(a, b, sqrt) == 1.0 <==>
      NormSquared(a) != 0.0 && NormSquared(b) != 0.0 && Normalised(a, sqrt) == Normalised(b, sqrt)
  {
    if NormSquared(a) != 0.0 && NormSquared(b) != 0.0 {
      var u, v := Normalised(a, sqrt), Normalised(b, sqrt);
      UnitDotIsCosine(a, b, sqrt);
      NormalisedHasUnitLength(a, sqrt);
      NormalisedHasUnitLength(b, sqrt);
      DistanceSquared(u, v);
      DotSelf(u);
      if Dot(u, v) == 1.0 {
        ZeroNorm(Difference(u, v));
        forall i | 0 <= i < |u| ensures u[i] == v[i] {
          assert Difference(u, v)[i] == u[i] - v[i];
        }
      }
    }
  }

  // ---------- what the counts mean ----------

  function Sum(a: Vector): real {
    if a == [] then 0.0 else Sum(a[..|a| - 1]) + a[|a| - 1]
  }

  lemma {:induction false} SumBumped(a: Vector, b: Vector, bucket: nat)
    requires |a| == |b| && bucket < |a|
    requires forall i :: 0 <= i < |a| ==> b[i] == a[i] + if i == bucket then 1.0 else 0.0
    ensures Sum(b) == Sum(a) + 1.0
  {
    var n := |a| - 1;
    if bucket < n {
      SumBumped(a[..n], b[..n], bucket);
    } else {
      assert a[..n] == b[..n];
    }
  }

  lemma {:induction false} SumOfZeros(a: Vector)
    requires forall i :: 0 <= i < |a| ==> a[i] == 0.0
    ensures Sum(a) == 0.0
  {
    if a != [] {
      SumOfZeros(a[..|a| - 1]);
    }
  }

  /** Every token is counted exactly once. */
  lemma {:induction false} CountsSumToTokens(tokens: seq<string>, hash: string -> nat, dim: nat)
    requires dim > 0
    ensures Sum(Counts(tokens, hash, dim)) == |tokens| as real
  {
    if tokens == [] {
      SumOfZeros(Counts(tokens, hash, dim));
    } else {
      var init := tokens[..|tokens| - 1];
      CountsSumToTokens(init, hash, dim);
      SumBumped(Counts(init, hash, dim), Counts(tokens, hash, dim), hash(tokens[|tokens| - 1]) % dim);
    }
  }

  lemma {:induction false} CountInAppend(a: seq<string>, b: seq<string>, hash: string -> nat, dim: nat, bucket: nat)
    requires dim > 0
    ensures CountIn(a + b, hash, dim, bucket) == CountIn(a, hash, dim, bucket) + CountIn(b, hash, dim, bucket)
  {
    if b == [] {
      assert a + b == a;
    } else {
      assert (a + b)[..|a + b| - 1] == a + b[..|b| - 1];
      CountInAppend(a, b[..|b| - 1], hash, dim, bucket);
    }
  }

  /** The counts depend on which tokens occur and how often, not on their order. */
  lemma {:induction false} OrderDoesNotMatter(a: seq<string>, b: seq<string>, hash: string -> nat, dim: nat)
    requires dim > 0 && multiset(a) == multiset(b)
    ensures Counts(a, hash, dim) == Counts(b, hash, dim)
  {
    forall bucket | 0 <= bucket < dim
      ensures CountIn(a, hash, dim, bucket) == CountIn(b, hash, dim, bucket)
    {
      SameBagSameCount(a, b, hash, dim, bucket);
    }
  }

  /** Taking one token out of a text takes one out of its bucket. */
  lemma {:induction false} CountWithout(a: seq<string>, k: nat, hash: string -> nat, dim: nat, bucket: nat)
    requires dim > 0 && k < |a|
    ensures CountIn(a, hash, dim, bucket)
         == CountIn(a[..k] + a[k + 1..], hash, dim, bucket) + if hash(a[k]) % dim == bucket then 1 else 0
  {
    var before, after := a[..k], a[k + 1..];
    assert a == before + ([a[k]] + after);
    CountInAppend(before, [a[k]] + after, hash, dim, bucket);
    CountInAppend([a[k]], after, hash, dim, bucket);
    CountInAppend(before, after, hash, dim, bucket);
    assert [a[k]][..0] == [];
  }

  lemma {:induction false} BagWithout(a: seq<string>, k: nat)
    requires k < |a|
    ensures multiset(a[..k] + a[k + 1..]) == multiset(a) - multiset{a[k]}
  {
    assert a == a[..k] + [a[k]] + a[k + 1..];
  }

  /** Where the first token occurs in the other text; without it the bags are still the same. */
  lemma {:induction false} PartnerOfFirst(a: seq<string>, b: seq<string>) returns (k: nat)
    requires a != [] && multiset(a) == multiset(b)
    ensures k < |b| && b[k] == a[0]
    ensures multiset(a[..0] + a[1..]) == multiset(b[..k] + b[k + 1..])
  {
    assert a[0] in multiset(b);
    k :| 0 <= k < |b| && b[k] == a[0];
    BagWithout(a, 0);
    BagWithout(b, k);
  }

  lemma {:induction false} SameBagSameCount(a: seq<string>, b: seq<string>, hash: string -> nat, dim: nat, bucket: nat)
    requires dim > 0 && multiset(a) == multiset(b)
    ensures CountIn(a, hash, dim, bucket) == CountIn(b, hash, dim, bucket)
    decreases |a|
  {
    if a == [] {
      assert |multiset(b)| == 0;
    } else {
      var k := PartnerOfFirst(a, b);
      SameBagSameCount(a[..0] + a[1..], b[..k] + b[k + 1..], hash, dim, bucket);
      CountWithout(a, 0, hash, dim, bucket);
      CountWithout(b, k, hash, dim, bucket);
    }
  }

  ghost predicate NonNegative(a: Vector) {
    forall i :: 0 <= i < |a| ==> a[i] >= 0.0
  }

  /** Some index is positive in both vectors. */
  ghost predicate Overlap(a: Vector, b: Vector)
    requires |a| == |b|
  {
    exists i :: 0 <= i < |a| && a[i] > 0.0 && b[i] > 0.0
  }

  lemma {:induction false} DotOfNonNegative(a: Vector, b: Vector)
    requires |a| == |b| && NonNegative(a) && NonNegative(b)
    ensures Dot(a, b) >= 0.0
    ensures Dot(a, b) > 0.0 <==> Overlap(a, b)
  {
    if a != [] {
      var n := |a| - 1;
      DotOfNonNegative(a[..n], b[..n]);
      assert Overlap(a[..n], b[..n]) ==> Overlap(a, b) by {
        if Overlap(a[..n], b[..n]) {
          var i :| 0 <= i < n && a[..n][i] > 0.0 && b[..n][i] > 0.0;
          assert a[i] > 0.0 && b[i] > 0.0;
        }
      }
      ProductPositive(a[n], b[n]);
      if Overlap(a, b) && !(a[n] > 0.0 && b[n] > 0.0) {
        var i :| 0 <= i < |a| && a[i] > 0.0 && b[i] > 0.0;
        assert a[..n][i] > 0.0 && b[..n][i] > 0.0;
      }
    }
  }

  lemma {:induction false} ProductPositive(x: real, y: real)
    requires x >= 0.0 && y >= 0.0
    ensures x * y >= 0.0 && (x * y > 0.0 <==> x > 0.0 && y > 0.0)
  {
  }

  /** A bucket's count is positive exactly when some token hashes into it. */
  lemma {:induction false} CountPositive(tokens: seq<string>, hash: string -> nat, dim: nat, bucket: nat)
    requires dim > 0
    ensures CountIn(tokens, hash, dim, bucket) > 0 <==>
      exists k :: 0 <= k < |tokens| && hash(tokens[k]) % dim == bucket
  {
    if tokens != [] {
      var init := tokens[..|tokens| - 1];
      CountPositive(init, hash, dim, bucket);
      forall k | 0 <= k < |init| ensures init[k] == tokens[k] {
      }
      if k :| 0 <= k < |init| && hash(init[k]) % dim == bucket {
        assert hash(tokens[k]) % dim == bucket;
      }
      if k :| 0 <= k < |tokens| && hash(tokens[k]) % dim == bucket {
        assert k < |init| ==> hash(init[k]) % dim == bucket;
      }
    }
  }

  /** Two texts are similar at all exactly when a token of one shares a bucket with a token of the other. */
  lemma {:induction false} SimilarIffTheyShareABucket(a: seq<string>, b: seq<string>, hash: string -> nat, dim: nat,
      sqrt: real -> real)
    requires dim > 0 && IsSqrt(sqrt)
    ensures CosineOf(Counts(a, hash, dim), Counts(b, hash, dim), sqrt) >= 0.0
    ensures CosineOf(Counts(a, hash, dim), Counts(b, hash, dim), sqrt) > 0.0 <==>
      Overlap(Counts(a, hash, dim), Counts(b, hash, dim))
    ensures Overlap(Counts(a, hash, dim), Counts(b, hash, dim)) <==>
      exists j, k :: 0 <= j < |a| && 0 <= k < |b| && hash(a[j]) % dim == hash(b[k]) % dim
  {
    SharedBucket(a, b, hash, dim);
    var va, vb := Counts(a, hash, dim), Counts(b, hash, dim);
    DotOfNonNegative(va, vb);
    var na, nb := NormSquared(va), NormSquared(vb);
    if na > 0.0 && nb > 0.0 {
      RootsMultiply(sqrt, na, nb);
    } else {
      CauchySchwarz(va, vb);
      ZeroSquare(Dot(va, vb));
    }
  }

  lemma {:induction false} SharedBucket(a: seq<string>, b: seq<string>, hash: string -> nat, dim: nat)
    requires dim > 0
    ensures Overlap(Counts(a, hash, dim), Counts(b, hash, dim)) <==>
      exists j, k :: 0 <= j < |a| && 0 <= k < |b| && hash(a[j]) % dim == hash(b[k]) % dim
  {
    var va, vb := Counts(a, hash, dim), Counts(b, hash, dim);
    if Overlap(va, vb) {
      var i :| 0 <= i < dim && va[i] > 0.0 && vb[i] > 0.0;
      CountPositive(a, hash, dim, i);
      CountPositive(b, hash, dim, i);
      var j :| 0 <= j < |a| && hash(a[j]) % dim == i;
      var k :| 0 <= k < |b| && hash(b[k]) % dim == i;
      assert hash(a[j]) % dim == hash(b[k]) % dim;
    }
    if j, k :| 0 <= j < |a| && 0 <= k < |b| && hash(a[j]) % dim == hash(b[k]) % dim {
      var i := hash(a[j]) % dim;
      CountPositive(a, hash, dim, i);
      CountPositive(b, hash, dim, i);
      assert va[i] > 0.0 && vb[i] > 0.0;
    }
  }

  /** Texts with the same tokens, in any order and with at least one token, have similarity 1 as embedded. */
  lemma {:induction false} SameTokensMatchExactly(a: seq<string>, b: seq<string>, hash: string -> nat, dim: nat,
      sqrt: real -> real)
    requires dim > 0 && IsSqrt(sqrt) && multiset(a) == multiset(b) && a != []
    ensures var va, vb := Normalised(Counts(a, hash, dim), sqrt), Normalised(Counts(b, hash, dim), sqrt);
      |va| == |vb| && CosineOf(va, vb, sqrt) == 1.0
  {
    OrderDoesNotMatter(a, b, hash, dim);
    var va := Counts(a, hash, dim);
    NormalisingKeepsSimilarity(va, va, sqrt);
    CosineRange(va, va, sqrt);
    var bucket := hash(a[0]) % dim;
    CountPositive(a, hash, dim, bucket);
    assert hash(a[0]) % dim == bucket;
    assert va[bucket] > 0.0;
    DotOfNonNegative(va, va);
    DotSelf(va);
  }
}
