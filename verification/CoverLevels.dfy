/** Levels of the cover tree: powers of its base, the level chosen for a distance, and the bound on
    descendants (runners/genlayer-py-std/src-emb/genlayer_embeddings/vecdb.py:74-76, 190, 250-258, 443-449).
    Reals stand for the source's floats; `math.log` is replaced by what it is used for. */
module CoverLevels {

  const MIN_LEVEL: int := -64
  const MAX_LEVEL: int := 65535
  const BASE: real := 1.3

  function PowerUp(n: nat): (p: real)
    ensures p >= 1.0
  {
    if n == 0 then 1.0 else BASE * PowerUp(n - 1)
  }

  /** BASE^n */
  function Power(n: int): (p: real)
    ensures p > 0.0
  {
    if n >= 0 then PowerUp(n) else 1.0 / PowerUp(-n)
  }

  /** How far a root at the capped level reaches. */
  function TopReach(): real {
    Power(MAX_LEVEL)
  }

  lemma {:induction false} PowerNext(n: int)
    ensures Power(n + 1) == BASE * Power(n)
  {
    if n < 0 {
      var x := PowerUp(-n - 1);
      assert PowerUp(-n) == BASE * x;
      hide PowerUp;
      assert Power(n + 1) == 1.0 / x;
      Divide(x, BASE * x);
    }
  }

  lemma {:induction false} Divide(x: real, y: real)
    requires x > 0.0 && y == BASE * x
    ensures 1.0 / x == BASE * (1.0 / y)
  {
    var r := 1.0 / y;
    assert r * y == 1.0;
    assert BASE * r * x == 1.0;
  }

  lemma {:induction false} PowerMonotone(m: int, n: int)
    requires m <= n
    ensures Power(m) <= Power(n)
    ensures m < n ==> Power(m) < Power(n)
    decreases n - m
  {
    if m < n {
      PowerMonotone(m, n - 1);
      PowerNext(n - 1);
    }
  }

  /** `_max_descendant_dist` */
  function Radius(level: int): (r: real)
    ensures r > 0.0
  {
    Power(level + 1) / (BASE - 1.0)
  }

  /** The geometric series: one covering step and everything below it stay within the bound. */
  lemma {:induction false} RadiusCovers(level: int, below: int)
    requires below < level
    ensures Power(level) + Radius(below) <= Radius(level)
    ensures Power(level) <= Radius(level)
  {
    PowerNext(level);
    PowerMonotone(below + 1, level);
  }

  lemma {:induction false} PowerGrows(n: nat)
    ensures PowerUp(n) >= 1.0 + 0.3 * n as real
  {
    if n > 0 { PowerGrows(n - 1); }
  }

  /** `ceil(log(dist) / log(base))`: the least level whose power reaches the distance. */
  function CeilLog(dist: real): (level: int)
    requires dist > 0.0
    ensures Power(level - 1) < dist <= Power(level)
  {
    if dist > 1.0 then ClimbTo(dist, 1) else DescendTo(dist, 0)
  }

  function ClimbTo(dist: real, level: nat): (top: int)
    requires level > 0 && Power(level - 1) < dist
    ensures Power(top - 1) < dist <= Power(top)
    decreases (4.0 * dist).Floor - level + 1
  {
    PowerGrows(level);
    if dist <= Power(level) then level else ClimbTo(dist, level + 1)
  }

  function DescendTo(dist: real, level: int): (top: int)
    requires level <= 0 && 0.0 < dist <= Power(level)
    ensures Power(top - 1) < dist <= Power(top)
    decreases (4.0 / dist).Floor + level + 1
  {
    DescentBound(dist, level);
    if Power(level - 1) < dist then level else DescendTo(dist, level - 1)
  }

  lemma {:induction false} DescentBound(dist: real, level: int)
    requires level <= 0 && 0.0 < dist <= Power(level)
    ensures -level <= (4.0 / dist).Floor
  {
    var n: nat := -level;
    PowerGrows(n);
    Reciprocal(dist, PowerUp(n), n as real);
  }

  lemma {:induction false} Reciprocal(dist: real, p: real, m: real)
    requires m >= 0.0 && p >= 1.0 + 0.3 * m && 0.0 < dist <= 1.0 / p
    ensures m <= 4.0 / dist
  {
    var q := 1.0 / p;
    assert q * p == 1.0;
    assert dist * p <= q * p;
    assert dist * (0.3 * m) <= dist * p;
    var x := dist * m;
    assert 0.3 * x <= 1.0;
    assert x / dist == m;
    assert x / dist <= 4.0 / dist;
  }

  /** `_level_for_dist`: the largest level whose power is below the distance; coincident points get the deepest. */
  function LevelForDist(dist: real): (level: int)
    ensures dist > 0.0 ==> Power(level) < dist <= Power(level + 1)
    ensures dist <= 0.0 ==> level == MIN_LEVEL
  {
    if dist <= 0.0 then MIN_LEVEL else CeilLog(dist) - 1
  }
}
