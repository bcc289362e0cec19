/**
 * Axial hex-grid arithmetic of the map (HexMap.tsx): the hex distance metric,
 * cube rounding of a fractional coordinate, and the pointy-top pixel projection.
 * JavaScript numbers are modelled as exact reals; integral coordinates as `int`.
 */
module HexMath {
  import opened WorldTypes
  import opened Numeric

  /** Cell size in pixels (`HEX_SIZE`). */
  const HEX_SIZE: real := 40.0

  /**
   * `hexDistance`: half the sum of the three cube-coordinate differences.
   * The halving never truncates: the result is the largest of the three
   * differences |dq|, |dr|, |ds| (the cube metric), hence a natural number,
   * and it is zero exactly on equal cells.
   */
  function HexDistance(q1: int, r1: int, q2: int, r2: int): (d: nat)
    ensures 2 * d == Abs(q1 - q2) + Abs(q1 + r1 - q2 - r2) + Abs(r1 - r2)
    ensures d == Max3(Abs(q1 - q2), Abs(r1 - r2), Abs((-q1 - r1) - (-q2 - r2)))
    ensures d == 0 <==> q1 == q2 && r1 == r2
  {
    (Abs(q1 - q2) + Abs(q1 + r1 - q2 - r2) + Abs(r1 - r2)) / 2
  }

  lemma HexDistanceSymmetric(q1: int, r1: int, q2: int, r2: int)
    ensures HexDistance(q1, r1, q2, r2) == HexDistance(q2, r2, q1, r1)
  {
  }

  lemma AbsTriangle(a: int, b: int)
    ensures Abs(a + b) <= Abs(a) + Abs(b)
  {
  }

  /** If every component of one triple is at most the sum of the matching components of two others, so is the maximum. */
  lemma Max3Subadditive(x1: int, x2: int, x3: int, y1: int, y2: int, y3: int, z1: int, z2: int, z3: int)
    requires z1 <= x1 + y1 && z2 <= x2 + y2 && z3 <= x3 + y3
    ensures Max3(z1, z2, z3) <= Max3(x1, x2, x3) + Max3(y1, y2, y3)
  {
  }

  /** Each cube axis difference obeys the triangle inequality, so their maximum does too. */
  lemma HexDistanceTriangle(q1: int, r1: int, q2: int, r2: int, q3: int, r3: int)
    ensures HexDistance(q1, r1, q3, r3) <= HexDistance(q1, r1, q2, r2) + HexDistance(q2, r2, q3, r3)
  {
    AbsTriangle(q1 - q2, q2 - q3);
    AbsTriangle(r1 - r2, r2 - r3);
    AbsTriangle((-q1 - r1) - (-q2 - r2), (-q2 - r2) - (-q3 - r3));
    Max3Subadditive(Abs(q1 - q2), Abs(r1 - r2), Abs((-q1 - r1) - (-q2 - r2)),
                    Abs(q2 - q3), Abs(r2 - r3), Abs((-q2 - r2) - (-q3 - r3)),
                    Abs(q1 - q3), Abs(r1 - r3), Abs((-q1 - r1) - (-q3 - r3)));
  }

  lemma HexDistanceExamples()
    ensures HexDistance(0, 0, 1, -1) == 1
    ensures HexDistance(0, 0, 2, 0) == 2
  {
  }

  /** `Math.round`: the nearest integer, halves rounded up. */
  function Round(x: real): (n: int)
    ensures -0.5 < n as real - x <= 0.5
  {
    (x + 0.5).Floor
  }

  /**
   * `hexRound`: round q, r and s = -q - r independently, then recompute the
   * axis with the largest rounding error from the other two (q if its error is
   * strictly largest, else r if its error exceeds s's, else s implicitly).
   */
  function HexRound(q: real, r: real): (h: Hex)
    // q is recomputed only when its independent-rounding error is strictly the largest
    ensures h.q != Round(q) ==>
              RealAbs(Round(q) as real - q) > RealAbs(Round(r) as real - r) &&
              RealAbs(Round(q) as real - q) > RealAbs(Round(-q - r) as real - (-q - r))
    // r only when its error is maximal and strictly exceeds s's; ties thus fall to s
    ensures h.r != Round(r) ==>
              RealAbs(Round(r) as real - r) >= RealAbs(Round(q) as real - q) &&
              RealAbs(Round(r) as real - r) > RealAbs(Round(-q - r) as real - (-q - r))
    ensures h.q == Round(q) || h.r == Round(r)
    // when independent rounding already lands on the plane q + r + s = 0, it is kept
    ensures Round(q) + Round(r) + Round(-q - r) == 0 ==> h == Hex(Round(q), Round(r))
    // the result is a lattice point within the hexagon around (q, r): no cube axis is off by more than 2/3
    ensures RealAbs(h.q as real - q) <= 2.0 / 3.0
    ensures RealAbs(h.r as real - r) <= 2.0 / 3.0
    ensures RealAbs((-h.q - h.r) as real - (-q - r)) <= 2.0 / 3.0
    // the result is the nearest cell: no two cube-axis errors differ by more than one
    ensures var dq, dr, ds := h.q as real - q, h.r as real - r, (-h.q - h.r) as real - (-q - r);
            -1.0 <= dq - dr <= 1.0 && -1.0 <= dr - ds <= 1.0 && -1.0 <= ds - dq <= 1.0
  {
    var rq, rr, rs := Round(q), Round(r), Round(-q - r);
    RecomputeMaximal(q, r, rq, rr, rs);
    RecomputeKeeps(q, r, rq, rr, rs);
    RecomputeNearest(q, r, rq, rr, rs);
    var h := Recompute(rq, rr, rs, RealAbs(rq as real - q), RealAbs(rr as real - r), RealAbs(rs as real - (-q - r)));
    h
  }

  /**
   * The correction step of `hexRound`, given the three independent roundings
   * and their errors: q is recomputed if its error is strictly largest, else r
   * if its error exceeds s's, else s implicitly.
   */
  function Recompute(rq: int, rr: int, rs: int, qDiff: real, rDiff: real, sDiff: real): Hex {
    if qDiff > rDiff && qDiff > sDiff then Hex(-rr - rs, rr)
    else if rDiff > sDiff then Hex(rq, -rq - rs)
    else Hex(rq, rr)
  }

  /** rq, rr and rs are the roundings `Math.round` gives for q, r and s = -q - r. */
  predicate Roundings(q: real, r: real, rq: int, rr: int, rs: int) {
    -0.5 < rq as real - q <= 0.5 && -0.5 < rr as real - r <= 0.5 && -0.5 < rs as real - (-q - r) <= 0.5
  }

  /**
   * Only an axis whose rounding error is maximal is recomputed, at most one of
   * q, r is, and exact ties are broken as the source does: q needs a strictly
   * largest error, r an error strictly above s's.
   */
  lemma RecomputeMaximal(q: real, r: real, rq: int, rr: int, rs: int)
    ensures var h := Recompute(rq, rr, rs, RealAbs(rq as real - q), RealAbs(rr as real - r), RealAbs(rs as real - (-q - r)));
            (h.q != rq ==> RealAbs(rq as real - q) > RealAbs(rr as real - r) &&
                           RealAbs(rq as real - q) > RealAbs(rs as real - (-q - r))) &&
            (h.r != rr ==> RealAbs(rr as real - r) >= RealAbs(rq as real - q) &&
                           RealAbs(rr as real - r) > RealAbs(rs as real - (-q - r))) &&
            (h.q == rq || h.r == rr)
  {
  }

  /** Roundings already on the plane q + r + s = 0 are kept. */
  lemma RecomputeKeeps(q: real, r: real, rq: int, rr: int, rs: int)
    requires Roundings(q, r, rq, rr, rs)
    ensures rq + rr + rs == 0 ==>
              Recompute(rq, rr, rs, RealAbs(rq as real - q), RealAbs(rr as real - r), RealAbs(rs as real - (-q - r))) == Hex(rq, rr)
  {
  }

  /**
   * The corrected cell is the nearest one: no two of its cube-axis offsets
   * from (q, r) differ by more than one, hence none exceeds 2/3.
   */
  lemma RecomputeNearest(q: real, r: real, rq: int, rr: int, rs: int)
    requires Roundings(q, r, rq, rr, rs)
    ensures var h := Recompute(rq, rr, rs, RealAbs(rq as real - q), RealAbs(rr as real - r), RealAbs(rs as real - (-q - r)));
            var dq, dr, ds := h.q as real - q, h.r as real - r, (-h.q - h.r) as real - (-q - r);
            -1.0 <= dq - dr <= 1.0 && -1.0 <= dr - ds <= 1.0 && -1.0 <= ds - dq <= 1.0 &&
            RealAbs(dq) <= 2.0 / 3.0 && RealAbs(dr) <= 2.0 / 3.0 && RealAbs(ds) <= 2.0 / 3.0
  {
    var eq, er, es := rq as real - q, rr as real - r, rs as real - (-q - r);
    var k := rq + rr + rs;
    var h := Recompute(rq, rr, rs, RealAbs(eq), RealAbs(er), RealAbs(es));
    if RealAbs(eq) > RealAbs(er) && RealAbs(eq) > RealAbs(es) {
      NearestAfterCorrection(er, es, eq, k);
      assert h.q as real - q == eq - k as real && h.r as real - r == er && (-h.q - h.r) as real - (-q - r) == es;
    } else if RealAbs(er) > RealAbs(es) {
      NearestAfterCorrection(eq, es, er, k);
      assert h.q as real - q == eq && h.r as real - r == er - k as real && (-h.q - h.r) as real - (-q - r) == es;
    } else {
      NearestAfterCorrection(eq, er, es, k);
      assert h.q as real - q == eq && h.r as real - r == er && (-h.q - h.r) as real - (-q - r) == es - k as real;
    }
  }

  /**
   * Rounding errors e1, e2, e3 in (-1/2, 1/2] summing to the miss k: taking
   * the miss out of the largest one (e3 becomes e3 - k) leaves no two errors
   * more than one apart.
   */
  lemma NearestAfterCorrection(e1: real, e2: real, e3: real, k: int)
    requires -0.5 < e1 <= 0.5 && -0.5 < e2 <= 0.5 && -0.5 < e3 <= 0.5
    requires e1 + e2 + e3 == k as real
    requires RealAbs(e3) >= RealAbs(e1) && RealAbs(e3) >= RealAbs(e2)
    ensures var d3 := e3 - k as real;
            -1.0 <= e1 - e2 <= 1.0 && -1.0 <= e2 - d3 <= 1.0 && -1.0 <= d3 - e1 <= 1.0
  {
  }

  /**
   * Exact ties: at (1/2, 1/2) the errors of q and r tie above s's, so r is
   * recomputed; at (1/2, 0) no error is strictly largest and s absorbs the miss.
   */
  lemma HexRoundTies()
    ensures HexRound(0.5, 0.5) == Hex(1, 0)
    ensures HexRound(0.5, 0.0) == Hex(1, 0)
  {
  }

  /** A lattice point rounds to itself. */
  lemma HexRoundLattice(q: int, r: int)
    ensures HexRound(q as real, r as real) == Hex(q, r)
  {
  }

  /** `hexToPixel`: the pointy-top projection; `sqrt3` stands for `Math.sqrt(3)`. */
  function HexToPixel(h: Hex, sqrt3: real): (p: (real, real))
    // with an exact square root of 3, reading the pixel back gives the cell's own coordinates before rounding
    ensures sqrt3 * sqrt3 == 3.0 ==> PixelToFractional(p.0, p.1, sqrt3) == (h.q as real, h.r as real)
  {
    var q, r := h.q as real, h.r as real;
    var x, y := HEX_SIZE * (sqrt3 * q + sqrt3 / 2.0 * r), HEX_SIZE * (3.0 / 2.0 * r);
    assert sqrt3 * sqrt3 == 3.0 ==> PixelToFractional(x, y, sqrt3) == (q, r) by {
      if sqrt3 * sqrt3 == 3.0 {
        calc {
          sqrt3 / 3.0 * x;
          HEX_SIZE / 3.0 * (sqrt3 * sqrt3) * (q + r / 2.0);
          HEX_SIZE * (q + r / 2.0);
        }
        assert (HEX_SIZE * (q + r / 2.0) - 1.0 / 3.0 * y) / HEX_SIZE == q;
        assert (2.0 / 3.0 * y) / HEX_SIZE == r;
        assert PixelToFractional(x, y, sqrt3).0 == q && PixelToFractional(x, y, sqrt3).1 == r;
      }
    }
    (x, y)
  }

  /** The fractional axial coordinate under a pixel, before rounding. */
  function PixelToFractional(x: real, y: real, sqrt3: real): (real, real) {
    ((sqrt3 / 3.0 * x - 1.0 / 3.0 * y) / HEX_SIZE, (2.0 / 3.0 * y) / HEX_SIZE)
  }

  /**
   * `pixelToHex`: the cell under a pixel. The pixel lies in the returned cell's
   * hexagon: measured in cube coordinates, no two of its axis offsets from the
   * cell's centre differ by more than one.
   */
  function PixelToHex(x: real, y: real, sqrt3: real): (h: Hex)
    ensures var f := PixelToFractional(x, y, sqrt3);
            var dq, dr, ds := h.q as real - f.0, h.r as real - f.1, (-h.q - h.r) as real - (-f.0 - f.1);
            -1.0 <= dq - dr <= 1.0 && -1.0 <= dr - ds <= 1.0 && -1.0 <= ds - dq <= 1.0
  {
    var f := PixelToFractional(x, y, sqrt3);
    HexRound(f.0, f.1)
  }

  /** The centre of a cell, projected and read back, is that cell (given an exact square root of 3). */
  lemma PixelRoundTrip(h: Hex, sqrt3: real)
    requires sqrt3 * sqrt3 == 3.0
    ensures PixelToHex(HexToPixel(h, sqrt3).0, HexToPixel(h, sqrt3).1, sqrt3) == h
  {
    HexRoundLattice(h.q, h.r);
  }
}
