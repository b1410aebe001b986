/**
 Mixed-radix numerals, most significant digit first.

 The radices of a device mesh, listed in its order, and the shape of a row-major
 array are both mixed-radix bases: `Digits` decomposes an index from the least
 significant end, `Rank` puts the digits back together. The last part says what becomes of a
 numeral when two neighbouring digits are fused into one.
 */
module MixedRadix {

  ghost predicate AllPos(rs: seq<nat>) {
    forall i | 0 <= i < |rs| :: rs[i] >= 1
  }

  function Prod(rs: seq<nat>): nat {
    if rs == [] then 1 else Prod(rs[..|rs| - 1]) * rs[|rs| - 1]
  }

  /** The digits of `x`, peeled off by remainder and quotient from the last radix. */
  function Digits(rs: seq<nat>, x: nat): (ds: seq<nat>)
    requires AllPos(rs)
    ensures |ds| == |rs|
    ensures forall i | 0 <= i < |rs| :: ds[i] < rs[i]
  {
    if rs == [] then [] else
      var k := |rs| - 1;
      Digits(rs[..k], x / rs[k]) + [x % rs[k]]
  }

  ghost predicate InBase(rs: seq<nat>, ds: seq<nat>) {
    |ds| == |rs| && forall i | 0 <= i < |rs| :: ds[i] < rs[i]
  }

  function Rank(rs: seq<nat>, ds: seq<nat>): nat
    requires |ds| == |rs|
  {
    if rs == [] then 0 else
      var k := |rs| - 1;
      Rank(rs[..k], ds[..k]) * rs[k] + ds[k]
  }

  /** The weight of every digit: the product of the radices to its right. */
  ghost function Weights(rs: seq<nat>): (ws: seq<nat>)
    ensures |ws| == |rs|
  {
    seq(|rs|, i requires 0 <= i < |rs| => Prod(rs[i + 1..]))
  }

  function Dot(xs: seq<int>, ys: seq<int>): int
    requires |xs| == |ys|
  {
    if xs == [] then 0 else
      var k := |xs| - 1;
      Dot(xs[..k], ys[..k]) + xs[k] * ys[k]
  }

  // ---------- division by a product ----------

  lemma SeqReplace<T>(s: seq<T>, p: nat, v: T)
    requires p < |s|
    ensures s[p := v] == (s[..p] + [v]) + s[p + 1..]
  {
  }

  lemma MulSmall(d: nat, k: int)
    requires 0 - d < d * k < d
    ensures k == 0
  {
  }

  lemma MulMono(a: int, b: int, c: nat)
    requires a <= b
    ensures a * c <= b * c
  {
  }

  lemma MulAssoc(a: int, b: int, c: int)
    ensures (a * b) * c == a * (b * c)
  {
  }

  lemma MulDist(a: int, b: int, c: int)
    ensures (a + b) * c == a * c + b * c
  {
  }

  lemma DivModOf(q: nat, d: nat, r: nat)
    requires r < d
    ensures (q * d + r) / d == q
    ensures (q * d + r) % d == r
  {
    var x := q * d + r;
    var q', r' := x / d, x % d;
    assert x == d * q' + r';
    assert d * (q' - q) == r - r' by {
      assert d * (q' - q) == d * q' - d * q;
    }
    MulSmall(d, q' - q);
  }

  lemma DivModSmall(x: nat, a: nat, b: nat)
    requires a >= 1 && x < a * b
    ensures b >= 1 && x / a < b
  {
    assert b != 0;
    var q := x / a;
    assert a * q <= x;
    assert a * (q - b) < 0 by {
      assert a * (q - b) == a * q - a * b;
    }
  }

  /** Splitting `x` by `p * r` agrees with splitting it by `r` and then by `p`. */
  lemma SplitTwice(x: nat, p: nat, r: nat)
    requires p >= 1 && r >= 1
    ensures p * r >= 1
    ensures x / (p * r) == (x / r) / p
    ensures (x % (p * r)) / r == (x / r) % p
    ensures (x % (p * r)) % r == x % r
  {
    var q, b, c := (x / r) / p, (x / r) % p, x % r;
    Compose(q, b, c, p, r);
    assert x == q * (p * r) + (b * r + c);
    DivModOf(q, p * r, b * r + c);
    DivModOf(b, r, c);
  }

  lemma Compose(q: nat, b: nat, c: nat, p: nat, r: nat)
    requires b < p && c < r
    ensures b * r + c < p * r && p * r >= 1
    ensures q * (p * r) + (b * r + c) == (q * p + b) * r + c
  {
    MulMono(b + 1, p, r);
    MulDist(b, 1, r);
    MulDist(q * p, b, r);
    MulAssoc(q, p, r);
  }

  // ---------- products ----------

  lemma {:induction false} ProdPos(rs: seq<nat>)
    requires AllPos(rs)
    ensures Prod(rs) >= 1
  {
    if rs != [] {
      ProdPos(rs[..|rs| - 1]);
      assert Prod(rs[..|rs| - 1]) * rs[|rs| - 1] >= 1;
    }
  }

  lemma ProdNil(rs: seq<nat>)
    requires |rs| == 0
    ensures Prod(rs) == 1
  {
  }

  lemma {:induction false} ProdAppend(a: seq<nat>, b: seq<nat>)
    ensures Prod(a + b) == Prod(a) * Prod(b)
  {
    if b == [] {
      assert a + b == a;
    } else {
      var k := |b| - 1;
      ProdAppend(a, b[..k]);
      assert (a + b)[..|a + b| - 1] == a + b[..k];
      MulAssoc(Prod(a), Prod(b[..k]), b[k]);
    }
  }

  lemma ProdSplit(rs: seq<nat>, p: nat)
    requires p < |rs|
    ensures Prod(rs) == Prod(rs[..p]) * (rs[p] * Prod(rs[p + 1..]))
    ensures Prod(rs) == (Prod(rs[..p]) * rs[p]) * Prod(rs[p + 1..])
  {
    assert Prod(rs[..p + 1]) == Prod(rs[..p]) * rs[p] by { assert rs[..p + 1][..p] == rs[..p]; }
    hide Prod;
    ProdAppend(rs[..p + 1], rs[p + 1..]);
    assert rs == rs[..p + 1] + rs[p + 1..];
    MulAssoc(Prod(rs[..p]), rs[p], Prod(rs[p + 1..]));
  }

  // ---------- digits and ranks are inverse ----------

  lemma {:induction false} RankOfDigits(rs: seq<nat>, x: nat)
    requires AllPos(rs) && x < Prod(rs)
    ensures Rank(rs, Digits(rs, x)) == x
  {
    if rs != [] {
      var k := |rs| - 1;
      assert x / rs[k] < Prod(rs[..k]) by {
        MulComm(Prod(rs[..k]), rs[k]);
        DivModSmall(x, rs[k], Prod(rs[..k]));
      }
      RankOfDigits(rs[..k], x / rs[k]);
      assert Digits(rs, x)[..k] == Digits(rs[..k], x / rs[k]);
    }
  }

  lemma {:induction false} DigitsOfRank(rs: seq<nat>, ds: seq<nat>)
    requires AllPos(rs) && InBase(rs, ds)
    ensures Rank(rs, ds) < Prod(rs)
    ensures Digits(rs, Rank(rs, ds)) == ds
  {
    if rs != [] {
      var k := |rs| - 1;
      DigitsOfRank(rs[..k], ds[..k]);
      var q := Rank(rs[..k], ds[..k]);
      MulMono(q + 1, Prod(rs[..k]), rs[k]);
      MulDist(q, 1, rs[k]);
      DivModOf(q, rs[k], ds[k]);
      assert ds == ds[..k] + [ds[k]];
    }
  }

  /** Two in-range indices with the same digits are the same index. */
  lemma DigitsInjective(rs: seq<nat>, x: nat, y: nat)
    requires AllPos(rs) && x < Prod(rs) && y < Prod(rs)
    requires Digits(rs, x) == Digits(rs, y)
    ensures x == y
  {
    RankOfDigits(rs, x);
    RankOfDigits(rs, y);
  }

  // ---------- splitting a base in two ----------

  lemma DigitsSnoc(rs: seq<nat>, r: nat, x: nat)
    requires AllPos(rs) && r >= 1
    ensures AllPos(rs + [r])
    ensures Digits(rs + [r], x) == Digits(rs, x / r) + [x % r]
  {
    assert (rs + [r])[..|rs|] == rs;
  }

  lemma {:induction false} DigitsAppend(a: seq<nat>, b: seq<nat>, x: nat)
    requires AllPos(a) && AllPos(b)
    ensures AllPos(a + b) && Prod(b) >= 1
    ensures Digits(a + b, x) == Digits(a, x / Prod(b)) + Digits(b, x % Prod(b))
  {
    ProdPos(b);
    if b == [] {
      assert a + b == a;
    } else {
      var b', r := b[..|b| - 1], b[|b| - 1];
      ProdPos(b');
      SplitByProd(b', r, x);
      assert b == b' + [r] && a + b == a + b' + [r];
      DigitsAppend(a, b', x / r);
      AppendStep(a, b', r, x, x / Prod(b), x % Prod(b));
    }
  }

  lemma SplitByProd(b: seq<nat>, r: nat, x: nat)
    requires Prod(b) >= 1 && r >= 1
    ensures Prod(b + [r]) >= 1
    ensures x / Prod(b + [r]) == (x / r) / Prod(b)
    ensures (x % Prod(b + [r])) / r == (x / r) % Prod(b)
    ensures (x % Prod(b + [r])) % r == x % r
  {
    assert (b + [r])[..|b|] == b;
    SplitTwice(x, Prod(b), r);
  }

  lemma AppendStep(a: seq<nat>, b: seq<nat>, r: nat, x: nat, hi: nat, lo: nat)
    requires AllPos(a) && AllPos(b) && r >= 1 && AllPos(a + b)
    requires Digits(a + b, x / r) == Digits(a, hi) + Digits(b, lo / r) && lo % r == x % r
    ensures AllPos(b + [r]) && AllPos(a + b + [r])
    ensures Digits(a + b + [r], x) == Digits(a, hi) + Digits(b + [r], lo)
  {
    DigitsSnoc(a + b, r, x);
    DigitsSnoc(b, r, lo);
    hide Digits;
  }

  lemma {:induction false} RankAppend(a: seq<nat>, b: seq<nat>, da: seq<nat>, db: seq<nat>)
    requires |da| == |a| && |db| == |b|
    ensures Rank(a + b, da + db) == Rank(a, da) * Prod(b) + Rank(b, db)
  {
    if b == [] {
      assert a + b == a && da + db == da;
    } else {
      var k := |b| - 1;
      RankAppend(a, b[..k], da, db[..k]);
      assert (a + b)[..|a + b| - 1] == a + b[..k];
      assert (da + db)[..|a + b| - 1] == da + db[..k];
      MulDist(Rank(a, da) * Prod(b[..k]), Rank(b[..k], db[..k]), b[k]);
      MulAssoc(Rank(a, da), Prod(b[..k]), b[k]);
    }
  }

  /** Closed form of one digit: divide by its weight, reduce by its radix. */
  lemma DigitAt(rs: seq<nat>, x: nat, p: nat)
    requires AllPos(rs) && p < |rs|
    ensures Prod(rs[p + 1..]) >= 1
    ensures Digits(rs, x)[p] == (x / Prod(rs[p + 1..])) % rs[p]
    ensures Digits(rs, x)[..p] == Digits(rs[..p], x / (rs[p] * Prod(rs[p + 1..])))
    ensures Digits(rs, x)[p + 1..] == Digits(rs[p + 1..], x % Prod(rs[p + 1..]))
  {
    var lo := rs[p + 1..];
    ProdPos(lo);
    assert rs == rs[..p + 1] + lo;
    DigitsAppend(rs[..p + 1], lo, x);
    assert x / (rs[p] * Prod(lo)) == (x / Prod(lo)) / rs[p] by { SplitTwice(x, rs[p], Prod(lo)); }
    DigitsThree(rs, p, x, x / Prod(lo), x % Prod(lo));
  }

  lemma DigitsThree(rs: seq<nat>, p: nat, x: nat, y: nat, z: nat)
    requires AllPos(rs) && p < |rs|
    requires Digits(rs, x) == Digits(rs[..p + 1], y) + Digits(rs[p + 1..], z)
    ensures Digits(rs, x)[..p] == Digits(rs[..p], y / rs[p])
    ensures Digits(rs, x)[p] == y % rs[p]
    ensures Digits(rs, x)[p + 1..] == Digits(rs[p + 1..], z)
  {
    hide Digits;
    assert rs[..p + 1] == rs[..p] + [rs[p]];
    DigitsSnoc(rs[..p], rs[p], y);
    ThreeParts(Digits(rs, x), Digits(rs[..p], y / rs[p]), y % rs[p], Digits(rs[p + 1..], z), p);
  }

  lemma ThreeParts(all: seq<nat>, hi: seq<nat>, d: nat, lo: seq<nat>, p: nat)
    requires all == (hi + [d]) + lo && |hi| == p
    ensures |all| > p && all[..p] == hi && all[p] == d && all[p + 1..] == lo
  {
  }

  /** Fusing two neighbouring radices fuses their digits and leaves all the others alone. */
  lemma DigitsFuse(a: seq<nat>, u: nat, v: nat, b: seq<nat>, x: nat)
    requires AllPos(a) && AllPos(b) && u >= 1 && v >= 1
    ensures AllPos(a + [u, v] + b) && u * v >= 1 && AllPos(a + [u * v] + b)
    ensures var ds, n := Digits(a + [u, v] + b, x), |a|;
            Digits(a + [u * v] + b, x) == ds[..n] + [ds[n] * v + ds[n + 1]] + ds[n + 2..]
  {
    hide Digits, Prod;
    MulMono(1, u, v);
    ProdPos(b);
    var y, low := x / Prod(b), Digits(b, x % Prod(b));
    DigitsAppend(a + [u, v], b, x);
    DigitsAppend(a + [u * v], b, x);
    FuseLast(a, u, v, y);
    FusedTail(Digits(a + [u, v], y), low, |a|, v);
  }

  lemma FusedTail(e: seq<nat>, low: seq<nat>, n: nat, v: nat)
    requires |e| == n + 2
    ensures var ds := e + low;
            ds[..n] + [ds[n] * v + ds[n + 1]] + ds[n + 2..] == (e[..n] + [e[n] * v + e[n + 1]]) + low
  {
    assert (e + low)[..n] == e[..n] && (e + low)[n + 2..] == low;
  }

  lemma FuseLast(a: seq<nat>, u: nat, v: nat, y: nat)
    requires AllPos(a) && u >= 1 && v >= 1 && u * v >= 1
    ensures var ds, n := Digits(a + [u, v], y), |a|;
            Digits(a + [u * v], y) == ds[..n] + [ds[n] * v + ds[n + 1]]
  {
    assert a + [u, v] == a + [u] + [v];
    DigitsSnoc(a + [u], v, y);
    DigitsSnoc(a, u, y / v);
    DigitsSnoc(a, u * v, y);
    FuseSplit(y, u, v);
    hide Digits, Prod;
  }

  lemma FuseProd(a: seq<nat>, u: nat, v: nat)
    ensures Prod(a + [u, v]) == Prod(a + [u * v])
  {
    ProdAppend(a, [u, v]);
    ProdAppend(a, [u * v]);
    assert [u, v][..1] == [u];
  }

  lemma FuseProdInside(a: seq<nat>, u: nat, v: nat, b: seq<nat>)
    ensures Prod(a + [u, v] + b) == Prod(a + [u * v] + b)
  {
    hide Prod;
    ProdAppend(a + [u, v], b);
    ProdAppend(a + [u * v], b);
    FuseProd(a, u, v);
  }

  lemma FuseSplit(y: nat, u: nat, v: nat)
    requires u >= 1 && v >= 1 && u * v >= 1
    ensures y / (u * v) == (y / v) / u
    ensures y % (u * v) == ((y / v) % u) * v + y % v
  {
    SplitTwice(y, u, v);
    var z := y % (u * v);
    assert z == v * (z / v) + z % v;
    MulComm(v, z / v);
  }

  /** The digits on either side of `p` are the numerals of the quotient and the remainder. */
  lemma RankOfEnds(rs: seq<nat>, x: nat, p: nat)
    requires AllPos(rs) && p < |rs| && x < Prod(rs)
    ensures Prod(rs[p + 1..]) >= 1 && rs[p] * Prod(rs[p + 1..]) >= 1
    ensures Rank(rs[..p], Digits(rs, x)[..p]) == x / (rs[p] * Prod(rs[p + 1..]))
    ensures Rank(rs[p + 1..], Digits(rs, x)[p + 1..]) == x % Prod(rs[p + 1..])
  {
    TopQuotient(rs, x, p);
    RankOfHigh(rs, x, p, x / (rs[p] * Prod(rs[p + 1..])));
    RankOfLow(rs, x, p, x % Prod(rs[p + 1..]));
  }

  lemma RankOfHigh(rs: seq<nat>, x: nat, p: nat, top: nat)
    requires AllPos(rs) && p < |rs|
    requires rs[p] * Prod(rs[p + 1..]) >= 1 && top == x / (rs[p] * Prod(rs[p + 1..])) && top < Prod(rs[..p])
    ensures Rank(rs[..p], Digits(rs, x)[..p]) == top
  {
    DigitAt(rs, x, p);
    RankOfDigits(rs[..p], top);
  }

  lemma RankOfLow(rs: seq<nat>, x: nat, p: nat, low: nat)
    requires AllPos(rs) && p < |rs|
    requires Prod(rs[p + 1..]) >= 1 && low == x % Prod(rs[p + 1..])
    ensures Rank(rs[p + 1..], Digits(rs, x)[p + 1..]) == low
  {
    DigitAt(rs, x, p);
    RankOfDigits(rs[p + 1..], low);
  }

  lemma TopQuotient(rs: seq<nat>, x: nat, p: nat)
    requires AllPos(rs) && p < |rs| && x < Prod(rs)
    ensures Prod(rs[p + 1..]) >= 1 && rs[p] * Prod(rs[p + 1..]) >= 1
    ensures x / (rs[p] * Prod(rs[p + 1..])) < Prod(rs[..p])
  {
    var a, b := Prod(rs[..p]), rs[p] * Prod(rs[p + 1..]);
    ProdPos(rs[p + 1..]);
    assert Prod(rs) == a * b by { ProdSplit(rs, p); }
    MulMono(1, Prod(rs[p + 1..]), rs[p]);
    MulComm(a, b);
    DivModSmall(x, b, a);
  }

  lemma MulComm(a: int, b: int)
    ensures a * b == b * a
  {
  }

  /**
   Replacing radix `p` by `r` and digit `p` by `j`: the digits above and below keep
   their meaning, so the new rank has a closed form in quotient and remainder.
   */
  lemma RankReplace(rs: seq<nat>, x: nat, p: nat, r: nat, j: nat)
    requires AllPos(rs) && p < |rs| && x < Prod(rs)
    ensures var w := Prod(rs[p + 1..]);
            w >= 1 && rs[p] * w >= 1
            && Rank(rs[p := r], Digits(rs, x)[p := j]) == ((x / (rs[p] * w)) * r + j) * w + x % w
  {
    hide *;
    var hi, lo, ds := rs[..p], rs[p + 1..], Digits(rs, x);
    RankOfEnds(rs, x, p);
    SeqReplace(rs, p, r);
    SeqReplace(ds, p, j);
    RankAppend(hi + [r], lo, ds[..p] + [j], ds[p + 1..]);
    RankSnoc(hi, ds[..p], r, j);
    assert rs[p := r] == (hi + [r]) + lo && ds[p := j] == (ds[..p] + [j]) + ds[p + 1..];
  }

  /** Ranks order digits lexicographically: the first that differs decides. */
  lemma {:induction false} RankLess(rs: seq<nat>, xs: seq<nat>, ys: seq<nat>, p: nat)
    requires AllPos(rs) && InBase(rs, xs) && InBase(rs, ys) && p < |rs| && xs[..p] == ys[..p] && xs[p] < ys[p]
    ensures Rank(rs, xs) < Rank(rs, ys)
  {
    var k := |rs| - 1;
    var a, b := Rank(rs[..k], xs[..k]), Rank(rs[..k], ys[..k]);
    RankLast(rs, xs);
    RankLast(rs, ys);
    hide Rank;
    if p == k {
      assert a == b;
    } else {
      assert xs[..k][..p] == ys[..k][..p];
      RankLess(rs[..k], xs[..k], ys[..k], p);
      MulDist(a, 1, rs[k]);
      MulMono(a + 1, b, rs[k]);
    }
  }

  lemma RankLast(rs: seq<nat>, ds: seq<nat>)
    requires |rs| == |ds| >= 1
    ensures Rank(rs, ds) == Rank(rs[..|rs| - 1], ds[..|rs| - 1]) * rs[|rs| - 1] + ds[|rs| - 1]
  {
  }

  lemma RankSnoc(rs: seq<nat>, ds: seq<nat>, r: nat, j: nat)
    requires |rs| == |ds|
    ensures Rank(rs + [r], ds + [j]) == Rank(rs, ds) * r + j
  {
    assert (rs + [r])[..|rs|] == rs && (ds + [j])[..|ds|] == ds;
  }

  /** Prepending a digit adds it with the weight of the whole tail. */
  lemma RankCons(r: nat, rs: seq<nat>, d: nat, ds: seq<nat>)
    requires |ds| == |rs|
    ensures Rank([r] + rs, [d] + ds) == d * Prod(rs) + Rank(rs, ds)
    ensures Prod([r] + rs) == r * Prod(rs)
  {
    RankAppend([r], rs, [d], ds);
    ProdAppend([r], rs);
    assert Rank([r], [d]) == d && Prod([r]) == r;
  }

  /** A rank is the weighted sum of its digits. */
  lemma {:induction false} RankIsDot(rs: seq<nat>, ds: seq<nat>)
    requires |ds| == |rs|
    ensures Rank(rs, ds) == Dot(ds, Weights(rs))
  {
    if rs != [] {
      var k := |rs| - 1;
      RankIsDot(rs[..k], ds[..k]);
      WeightsSnoc(rs[..k], rs[k]);
      assert rs[..k] + [rs[k]] == rs;
      DotScale(ds[..k], Weights(rs[..k]), Weights(rs)[..k], rs[k]);
    }
  }

  lemma WeightsSnoc(rs: seq<nat>, r: nat)
    ensures |Weights(rs + [r])| == |rs| + 1
    ensures forall i | 0 <= i < |rs| :: Weights(rs + [r])[i] == Weights(rs)[i] * r
    ensures Weights(rs + [r])[|rs|] == 1
  {
    forall i | 0 <= i < |rs| ensures Weights(rs + [r])[i] == Weights(rs)[i] * r {
      assert (rs + [r])[i + 1..] == rs[i + 1..] + [r];
      assert (rs[i + 1..] + [r])[..|rs| - i - 1] == rs[i + 1..];
    }
    assert (rs + [r])[|rs| + 1..] == [];
  }

  lemma {:induction false} DotScale(xs: seq<int>, ys: seq<int>, zs: seq<int>, c: int)
    requires |xs| == |ys| == |zs|
    requires forall i | 0 <= i < |ys| :: zs[i] == ys[i] * c
    ensures Dot(xs, zs) == Dot(xs, ys) * c
  {
    if xs != [] {
      var k := |xs| - 1;
      DotScale(xs[..k], ys[..k], zs[..k], c);
      MulAssoc(xs[k], ys[k], c);
      MulDist(Dot(xs[..k], ys[..k]), xs[k] * ys[k], c);
    }
  }
}
