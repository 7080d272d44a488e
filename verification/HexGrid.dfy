/**
 The beam layout of scratch/nr-x2-conditional-handover-test.cc: `CreateHexPositions`, and the records
 that `CreateSnapshotUes` makes for a list of beam centres.

 All angles in the generator are multiples of 30 degrees, so every coordinate has the form a * sqrt(3) + b
 with rational multiples a and b of the inter-site distance. A position is kept as its exact x coordinate
 divided by sqrt(3) and its exact y coordinate; no rounding takes place.
 */
module HexGrid {
  import opened Sequences

  /** A point of the plane: x is `xOverRoot3` times sqrt(3). */
  datatype Position = Position(xOverRoot3: real, y: real, altitude: real)

  function Square(x: real): real {
    x * x
  }

  function DistanceSquared(p: Position, q: Position): real {
    3.0 * Square(p.xOverRoot3 - q.xOverRoot3) + Square(p.y - q.y)
  }

  // ----- Exact trigonometry at the angles that occur -----

  /** cos(side * 60 + 30 degrees) / sqrt(3) */
  function CosOverRoot3(side: nat): real
    requires side < 6
  {
    [0.5, 0.0, -0.5, -0.5, 0.0, 0.5][side]
  }

  /** sin(side * 60 + 30 degrees) */
  function Sin(side: nat): real
    requires side < 6
  {
    [0.5, 1.0, 0.5, -0.5, -1.0, -0.5][side]
  }

  /** sin(side * 60 + 60 degrees) / sqrt(3) */
  function SinNextOverRoot3(side: nat): real
    requires side < 6
  {
    [0.5, 0.5, 0.0, -0.5, -0.5, 0.0][side]
  }

  /** cos(side * 60 + 60 degrees) */
  function CosNext(side: nat): real
    requires side < 6
  {
    [0.5, -0.5, -1.0, -0.5, 0.5, 1.0][side]
  }

  // ----- The lattice -----

  /** A lattice point in axial coordinates: q steps at 30 degrees and r steps at 90 degrees. */
  datatype Axial = Axial(q: int, r: int)

  function Abs(x: int): nat {
    if x < 0 then -x else x
  }

  function Max(x: int, y: int): int {
    if x < y then y else x
  }

  /** The number of steps between neighbouring lattice points that lead from the centre to a point. */
  function Rings(p: Axial): int {
    Max(Abs(p.q), Max(Abs(p.r), Abs(p.q + p.r)))
  }

  function At(isd: real, altitude: real, p: Axial): Position {
    Position(isd * (p.q as real) / 2.0, isd * ((p.q as real) / 2.0 + (p.r as real)), altitude)
  }

  /** The lattice point that the generator visits: `tier` steps along `side`, then `step` steps 120 degrees further. */
  function OnRing(tier: nat, side: nat, step: nat): Axial
    requires side < 6
  {
    match side
    case 0 => Axial(tier - step, step)
    case 1 => Axial(0 - step, tier)
    case 2 => Axial(0 - tier, tier - step)
    case 3 => Axial(step - tier, 0 - step)
    case 4 => Axial(step, 0 - tier)
    case _ => Axial(tier, step - tier)
  }

  function Side(tier: nat, side: nat, steps: nat): (s: seq<Axial>)
    requires side < 6 && steps <= tier
    ensures |s| == steps
    ensures forall k :: 0 <= k < steps ==> s[k] == OnRing(tier, side, k)
  {
    if steps == 0 then [] else Side(tier, side, steps - 1) + [OnRing(tier, side, steps - 1)]
  }

  function Ring(tier: nat, sides: nat): seq<Axial>
    requires sides <= 6
  {
    if sides == 0 then [] else Ring(tier, sides - 1) + Side(tier, sides - 1, tier)
  }

  /** The lattice points of the generated positions, in the order of generation. */
  function Points(tiers: nat): seq<Axial> {
    if tiers == 0 then [Axial(0, 0)] else Points(tiers - 1) + Ring(tiers, 6)
  }

  // ----- Rings and hexagons -----

  lemma OnRingDistance(tier: nat, side: nat, step: nat)
    requires side < 6 && step < tier
    ensures Rings(OnRing(tier, side, step)) == tier
  {
  }

  lemma OnRingInjective(tier: nat, side: nat, step: nat, side': nat, step': nat)
    requires side < 6 && step < tier && side' < 6 && step' < tier
    requires OnRing(tier, side, step) == OnRing(tier, side', step')
    ensures side == side' && step == step'
  {
  }

  lemma EveryRingPoint(p: Axial) returns (side: nat, step: nat)
    requires Rings(p) > 0
    ensures side < 6 && step < Rings(p) && p == OnRing(Rings(p), side, step)
  {
    if p.q > 0 && p.r >= 0 {
      side, step := 0, p.r;
    } else if p.q <= 0 && p.q + p.r > 0 {
      side, step := 1, -p.q;
    } else if p.r > 0 {
      side, step := 2, -p.q - p.r;
    } else if p.q < 0 {
      side, step := 3, -p.r;
    } else if p.q + p.r < 0 {
      side, step := 4, p.q;
    } else {
      side, step := 5, p.q + p.r;
    }
  }

  lemma {:induction false} InRing(tier: nat, sides: nat, p: Axial)
    requires sides <= 6
    ensures p in Ring(tier, sides) <==>
      exists side: nat, step: nat :: side < sides && step < tier && p == OnRing(tier, side, step)
  {
    if sides > 0 {
      InRing(tier, sides - 1, p);
      var last := Side(tier, sides - 1, tier);
      if p in last {
        var k :| 0 <= k < |last| && last[k] == p;
        assert p == OnRing(tier, sides - 1, k);
      }
      if side: nat, step: nat :| side < sides && step < tier && p == OnRing(tier, side, step) {
        if side == sides - 1 {
          assert last[step] == p;
        }
      }
    }
  }

  lemma SideDistinct(tier: nat, side: nat)
    requires side < 6
    ensures NoDuplicates(Side(tier, side, tier))
  {
    var all := Side(tier, side, tier);
    forall i, j | 0 <= i < j < |all| ensures all[i] != all[j] {
      if all[i] == all[j] {
        OnRingInjective(tier, side, i, side, j);
      }
    }
  }

  lemma {:induction false} RingDistinct(tier: nat, sides: nat)
    requires sides <= 6
    ensures NoDuplicates(Ring(tier, sides))
  {
    if sides > 0 {
      RingDistinct(tier, sides - 1);
      var last := Side(tier, sides - 1, tier);
      SideDistinct(tier, sides - 1);
      forall p | p in Ring(tier, sides - 1) ensures p !in last {
        InRing(tier, sides - 1, p);
        var side: nat, step: nat :| side < sides - 1 && step < tier && p == OnRing(tier, side, step);
        if p in last {
          var k :| 0 <= k < |last| && last[k] == p;
          OnRingInjective(tier, side, step, sides - 1, k);
        }
      }
      hide Side, NoDuplicates;
      NoDuplicatesConcat(Ring(tier, sides - 1), last);
    }
  }

  lemma RingMembers(tier: nat, p: Axial)
    requires tier > 0
    ensures p in Ring(tier, 6) <==> Rings(p) == tier
  {
    InRing(tier, 6, p);
    if Rings(p) == tier {
      var side, step := EveryRingPoint(p);
    }
    if side: nat, step: nat :| side < 6 && step < tier && p == OnRing(tier, side, step) {
      OnRingDistance(tier, side, step);
    }
  }

  lemma RingCount(tier: nat)
    ensures |Ring(tier, 6)| == 6 * tier
  {
    hide Side;
    assert |Ring(tier, 1)| == tier;
    assert |Ring(tier, 2)| == 2 * tier;
    assert |Ring(tier, 3)| == 3 * tier;
    assert |Ring(tier, 4)| == 4 * tier;
    assert |Ring(tier, 5)| == 5 * tier;
  }

  lemma NextCount(tiers: int)
    ensures 3 * tiers * (tiers + 1) == 3 * (tiers - 1) * (tiers - 1 + 1) + 6 * tiers
  {
  }

  lemma {:induction false} PointsCount(tiers: nat)
    ensures |Points(tiers)| == 1 + 3 * tiers * (tiers + 1)
  {
    if tiers > 0 {
      PointsCount(tiers - 1);
      RingCount(tiers);
      hide Ring;
      NextCount(tiers);
    }
  }

  /** The generated lattice points are those at most `tiers` rings from the centre. */
  lemma {:induction false} PointsAreTheHexagon(tiers: nat, p: Axial)
    ensures p in Points(tiers) <==> Rings(p) <= tiers
  {
    if tiers > 0 {
      PointsAreTheHexagon(tiers - 1, p);
      RingMembers(tiers, p);
      hide Ring, Rings;
    } else {
      OnlyCentre(p);
    }
  }

  lemma OnlyCentre(p: Axial)
    ensures p in Points(0) <==> Rings(p) <= 0
  {
  }

  lemma {:induction false} PointsDistinct(tiers: nat)
    ensures NoDuplicates(Points(tiers))
  {
    if tiers > 0 {
      PointsDistinct(tiers - 1);
      RingDistinct(tiers, 6);
      forall p | p in Points(tiers - 1) ensures p !in Ring(tiers, 6) {
        PointsAreTheHexagon(tiers - 1, p);
        RingMembers(tiers, p);
      }
      NoDuplicatesConcat(Points(tiers - 1), Ring(tiers, 6));
    }
  }

  lemma {:induction false} PointsPrefix(fewer: nat, more: nat)
    requires fewer <= more
    ensures Points(fewer) <= Points(more)
    decreases more - fewer
  {
    if fewer < more {
      PointsPrefix(fewer, more - 1);
    }
  }

  /** The entries of tier k are those from 1 + 3k(k-1) up to 1 + 3k(k+1), and they are the points k rings out. */
  lemma TierIsRing(tiers: nat, k: nat, i: nat)
    requires 0 < k <= tiers && i < |Points(tiers)|
    ensures 1 + 3 * (k - 1) * k <= i < 1 + 3 * k * (k + 1) <==> Rings(Points(tiers)[i]) == k
  {
    hide Points, Rings;
    PointsCount(k);
    PointsCount(k - 1);
    PointsAreTheHexagon(k, Points(tiers)[i]);
    PointsAreTheHexagon(k - 1, Points(tiers)[i]);
    IndexInPrefix(tiers, k, i);
    IndexInPrefix(tiers, k - 1, i);
  }

  lemma IndexInPrefix(tiers: nat, k: nat, i: nat)
    requires k <= tiers && i < |Points(tiers)|
    ensures i < |Points(k)| <==> Points(tiers)[i] in Points(k)
  {
    PointsPrefix(k, tiers);
    PointsDistinct(tiers);
    if Points(tiers)[i] in Points(k) {
      var j :| 0 <= j < |Points(k)| && Points(k)[j] == Points(tiers)[i];
      assert Points(tiers)[j] == Points(tiers)[i];
    }
  }

  // ----- Distances -----

  /** The squared length of a step of the lattice, in inter-site distances. */
  function Norm(q: int, r: int): int {
    q * q + q * r + r * r
  }

  lemma NormAsReal(q: int, r: int)
    ensures Norm(q, r) as real == (q as real) * (q as real) + (q as real) * (r as real) + (r as real) * (r as real)
  {
  }

  lemma ScaledNorm(isd: real, q: real, r: real)
    ensures 3.0 * Square(isd * (q / 2.0)) + Square(isd * (q / 2.0 + r)) == Square(isd) * (q * q + q * r + r * r)
  {
  }

  /** The squared distance of two lattice points is isd squared times a whole number, the norm of their difference. */
  lemma LatticeDistance(isd: real, altitude: real, p: Axial, p': Axial)
    ensures DistanceSquared(At(isd, altitude, p), At(isd, altitude, p'))
         == Square(isd) * (Norm(p.q - p'.q, p.r - p'.r) as real)
  {
    var q, r := (p.q - p'.q) as real, (p.r - p'.r) as real;
    var a, b := At(isd, altitude, p), At(isd, altitude, p');
    assert a.xOverRoot3 - b.xOverRoot3 == isd * (q / 2.0);
    assert a.y - b.y == isd * (q / 2.0 + r);
    hide At, Square, Norm;
    ScaledNorm(isd, q, r);
    NormAsReal(p.q - p'.q, p.r - p'.r);
  }

  lemma NormPositive(q: int, r: int)
    requires q != 0 || r != 0
    ensures Norm(q, r) >= 1
  {
    assert 4 * (q * q + q * r + r * r) == (2 * q + r) * (2 * q + r) + 3 * (r * r);
    if r == 0 {
      assert q * q >= 1;
    } else {
      assert r * r >= 1;
    }
  }

  lemma SquareNotNegative(x: real)
    ensures Square(x) >= 0.0
  {
  }

  /** Different lattice points are at least one inter-site distance apart. */
  lemma Separated(isd: real, altitude: real, p: Axial, p': Axial)
    requires p != p'
    ensures DistanceSquared(At(isd, altitude, p), At(isd, altitude, p')) >= Square(isd)
  {
    hide *;
    LatticeDistance(isd, altitude, p, p');
    NormPositive(p.q - p'.q, p.r - p'.r);
    SquareNotNegative(isd);
    Scaled(Square(isd), Norm(p.q - p'.q, p.r - p'.r) as real);
  }

  lemma Scaled(a: real, x: real)
    requires a >= 0.0 && x >= 1.0
    ensures a * x >= a
  {
  }

  // ----- The program -----

  ghost function Positions(isd: real, altitude: real, points: seq<Axial>): (s: seq<Position>)
    ensures |s| == |points|
    ensures forall i :: 0 <= i < |s| ==> s[i] == At(isd, altitude, points[i])
  {
    seq(|points|, i requires 0 <= i < |points| => At(isd, altitude, points[i]))
  }

  /** The offset that the source computes is the lattice point. */
  lemma OffsetIsLatticePoint(isd: real, altitude: real, tier: nat, side: nat, step: nat)
    requires side < 6
    ensures Position(isd * (tier as real * CosOverRoot3(side) - step as real * SinNextOverRoot3(side)),
                     isd * (tier as real * Sin(side) + step as real * CosNext(side)),
                     altitude)
      == At(isd, altitude, OnRing(tier, side, step))
  {
  }

  lemma SideStep(tier: nat, side: nat, step: nat, inner: seq<Axial>)
    requires side < 6 && step < tier
    ensures Side(tier, side, 0) == []
    ensures inner + Ring(tier, side) + Side(tier, side, step + 1)
         == (inner + Ring(tier, side) + Side(tier, side, step)) + [OnRing(tier, side, step)]
  {
  }

  lemma RingStep(tier: nat, side: nat, inner: seq<Axial>)
    requires side < 6
    ensures inner + Ring(tier, side) + Side(tier, side, tier) == inner + Ring(tier, side + 1)
    ensures inner + Ring(tier, 0) == inner
    ensures inner + Ring(tier, side) + Side(tier, side, 0) == inner + Ring(tier, side)
  {
    assert Ring(tier, side + 1) == Ring(tier, side) + Side(tier, side, tier);
    assert Ring(tier, 0) == [] && Side(tier, side, 0) == [];
    hide Ring, Side;
    ConcatAssociative(inner, Ring(tier, side), Side(tier, side, tier));
  }

  lemma CentreFirst(isd: real, altitude: real)
    ensures [Position(0.0, 0.0, altitude)] == Positions(isd, altitude, Points(0))
  {
    assert Points(0)[0] == Axial(0, 0);
    assert isd * 0.0 == 0.0;
    assert At(isd, altitude, Axial(0, 0)) == Position(0.0, 0.0, altitude);
  }

  method CreateHexPositions(isd: real, altitude: real, tiers: nat) returns (positions: seq<Position>)
    ensures positions == Positions(isd, altitude, Points(tiers))
    ensures positions != [] && positions[0] == Position(0.0, 0.0, altitude)
    ensures forall i :: 0 <= i < |positions| ==> positions[i].altitude == altitude
  {
    positions := [Position(0.0, 0.0, altitude)];
    hide Side, Ring, OnRing;
    CentreFirst(isd, altitude);
    for tier := 1 to tiers + 1
      invariant positions == Positions(isd, altitude, Points(tier - 1))
      invariant positions != [] && positions[0] == Position(0.0, 0.0, altitude)
    {
      ghost var inner := Points(tier - 1);
      RingStep(tier, 0, inner);
      for side := 0 to 6
        invariant positions == Positions(isd, altitude, inner + Ring(tier, side))
        invariant positions != [] && positions[0] == Position(0.0, 0.0, altitude)
      {
        RingStep(tier, side, inner);
        for step := 0 to tier
          invariant positions == Positions(isd, altitude, inner + Ring(tier, side) + Side(tier, side, step))
          invariant positions != [] && positions[0] == Position(0.0, 0.0, altitude)
        {
          var dx := isd * (tier as real * CosOverRoot3(side) - step as real * SinNextOverRoot3(side));
          var dy := isd * (tier as real * Sin(side) + step as real * CosNext(side));
          OffsetIsLatticePoint(isd, altitude, tier, side, step);
          SideStep(tier, side, step, inner);
          positions := positions + [Position(dx, dy, altitude)];
        }
      }
    }
  }

  lemma ApartMeansDifferent(p: Position, q: Position, gap: real)
    requires gap > 0.0 && DistanceSquared(p, q) >= gap
    ensures p != q
  {
    hide DistanceSquared;
    DistanceToSelf(p);
  }

  lemma SquarePositive(x: real)
    requires x > 0.0
    ensures Square(x) > 0.0
  {
    PositiveProduct(x, x, Square(x));
  }

  lemma PositiveProduct(x: real, y: real, product: real)
    requires x > 0.0 && y > 0.0 && product == x * y
    ensures product > 0.0
  {
  }

  lemma DistanceToSelf(p: Position)
    ensures DistanceSquared(p, p) == 0.0
  {
    var dx, dy := p.xOverRoot3 - p.xOverRoot3, p.y - p.y;
    assert dx == 0.0 && dy == 0.0;
    assert DistanceSquared(p, p) == 3.0 * Square(dx) + Square(dy);
  }

  /** Positions are at least one inter-site distance apart, so with isd > 0 they are all different. */
  lemma PositionsSeparated(isd: real, altitude: real, tiers: nat, i: nat, j: nat)
    requires i < j < |Points(tiers)|
    ensures var s := Positions(isd, altitude, Points(tiers));
      DistanceSquared(s[i], s[j]) >= Square(isd) && (isd > 0.0 ==> s[i] != s[j])
  {
    hide Points, DistanceSquared, Square, At;
    PointsDistinct(tiers);
    var s := Positions(isd, altitude, Points(tiers));
    Separated(isd, altitude, Points(tiers)[i], Points(tiers)[j]);
    if isd > 0.0 {
      SquarePositive(isd);
      ApartMeansDifferent(s[i], s[j], Square(isd));
    }
  }

  // ----- The way around a tier -----

  lemma {:induction false} RingAt(tier: nat, sides: nat, side: nat, step: nat)
    requires side < sides <= 6 && step < tier
    ensures |Ring(tier, sides)| == sides * tier > side * tier + step
    ensures Ring(tier, sides)[side * tier + step] == OnRing(tier, side, step)
  {
    RingLength(tier, sides - 1);
    Multiples(tier, side, sides);
    hide OnRing;
    if side < sides - 1 {
      RingAt(tier, sides - 1, side, step);
    }
  }

  lemma Multiples(tier: nat, side: nat, sides: nat)
    requires side < sides
    ensures sides * tier == (sides - 1) * tier + tier && side * tier <= (sides - 1) * tier
  {
  }

  lemma {:induction false} RingLength(tier: nat, sides: nat)
    requires sides <= 6
    ensures |Ring(tier, sides)| == sides * tier
  {
    if sides > 0 {
      RingLength(tier, sides - 1);
      Multiples(tier, sides - 1, sides);
    }
  }

  /** The place of a lattice point in the list. */
  function IndexOf(tier: nat, side: nat, step: nat): nat {
    if tier == 0 then 0 else 1 + 3 * (tier - 1) * tier + side * tier + step
  }

  lemma PointsAt(tiers: nat, tier: nat, side: nat, step: nat)
    requires 0 < tier <= tiers && side < 6 && step < tier
    ensures IndexOf(tier, side, step) < |Points(tiers)|
    ensures Points(tiers)[IndexOf(tier, side, step)] == OnRing(tier, side, step)
  {
    hide OnRing, Ring;
    PointsCount(tier - 1);
    RingAt(tier, 6, side, step);
    PointsPrefix(tier, tiers);
    assert Points(tier) == Points(tier - 1) + Ring(tier, 6);
    hide Points;
    assert Points(tier)[IndexOf(tier, side, step)] == Ring(tier, 6)[side * tier + step];
  }

  /** The point that follows a point of a ring; the last is followed by the first. */
  function FollowedBy(tier: nat, side: nat, step: nat): (next: (nat, nat))
    requires side < 6 && step < tier
    ensures next.0 < 6 && next.1 < tier
  {
    if step + 1 < tier then (side, step + 1) else if side < 5 then (side + 1, 0) else (0, 0)
  }

  /** The step along each side. */
  function Direction(side: nat): Axial
    requires side < 6
  {
    match side
    case 0 => Axial(-1, 1)
    case 1 => Axial(-1, 0)
    case 2 => Axial(0, -1)
    case 3 => Axial(1, -1)
    case 4 => Axial(1, 0)
    case _ => Axial(0, 1)
  }

  lemma NextIsStep(tier: nat, side: nat, step: nat)
    requires side < 6 && step < tier
    ensures var next := FollowedBy(tier, side, step);
      var a, b, d := OnRing(tier, side, step), OnRing(tier, next.0, next.1), Direction(side);
      b == Axial(a.q + d.q, a.r + d.r)
  {
  }

  lemma SideTurnsLeft(tier: nat, side: nat, step: nat)
    requires side < 6 && step < tier
    ensures var a, d := OnRing(tier, side, step), Direction(side); a.q * d.r - a.r * d.q == tier
    ensures var d := Direction(side); Norm(-d.q, -d.r) == 1
  {
  }

  lemma TurnOfStep(q: int, r: int, dq: int, dr: int)
    ensures q * (r + dr) - r * (q + dq) == q * dr - r * dq
  {
  }

  lemma NextOnRing(tier: nat, side: nat, step: nat)
    requires side < 6 && step < tier
    ensures var next := FollowedBy(tier, side, step);
      var a, b := OnRing(tier, side, step), OnRing(tier, next.0, next.1);
      Norm(a.q - b.q, a.r - b.r) == 1 && a.q * b.r - a.r * b.q == tier
  {
    hide *;
    NextIsStep(tier, side, step);
    SideTurnsLeft(tier, side, step);
    var a, d := OnRing(tier, side, step), Direction(side);
    TurnOfStep(a.q, a.r, d.q, d.r);
  }

  /** Twice the area of the triangle between the centre and two positions, positive for a left turn, over root 3. */
  function Turn(a: Position, b: Position): real {
    a.xOverRoot3 * b.y - a.y * b.xOverRoot3
  }

  lemma TurnOfPoints(isd: real, altitude: real, a: Axial, b: Axial)
    ensures Turn(At(isd, altitude, a), At(isd, altitude, b)) == Square(isd) / 2.0 * ((a.q * b.r - a.r * b.q) as real)
  {
    var q, r, q', r' := a.q as real, a.r as real, b.q as real, b.r as real;
    assert (a.q * b.r - a.r * b.q) as real == q * r' - r * q';
    TurnAlgebra(isd, q, r, q', r');
  }

  lemma TurnAlgebra(isd: real, q: real, r: real, q': real, r': real)
    ensures (isd * q / 2.0) * (isd * (q' / 2.0 + r')) - (isd * (q / 2.0 + r)) * (isd * q' / 2.0)
         == isd * isd / 2.0 * (q * r' - r * q')
  {
  }

  /**
   Each tier starts at 30 degrees and goes around anticlockwise: from a position to the next, and from the last
   back to the first, it is one inter-site distance, and every step sweeps the same area to the left.
   */
  lemma TierGoesAround(isd: real, altitude: real, tiers: nat, tier: nat, side: nat, step: nat)
    requires 0 < tier <= tiers && side < 6 && step < tier
    ensures IndexOf(tier, side, step) == 1 + 3 * (tier - 1) * tier + side * tier + step
    ensures var s, i, first := Positions(isd, altitude, Points(tiers)), IndexOf(tier, side, step), IndexOf(tier, 0, 0);
      var next := if side == 5 && step == tier - 1 then first else i + 1;
      && i < |s| && next < |s|
      && s[first] == Position(isd * (tier as real) / 2.0, isd * ((tier as real) / 2.0), altitude)
      && DistanceSquared(s[i], s[next]) == Square(isd)
      && Turn(s[i], s[next]) == Square(isd) / 2.0 * (tier as real)
  {
    hide *;
    IndexIs(tier, side, step);
    var next := FollowedBy(tier, side, step);
    var a, b := OnRing(tier, side, step), OnRing(tier, next.0, next.1);
    PointsAt(tiers, tier, 0, 0);
    PointsAt(tiers, tier, side, step);
    PointsAt(tiers, tier, next.0, next.1);
    NextIndex(tier, side, step);
    NextOnRing(tier, side, step);
    LatticeDistance(isd, altitude, a, b);
    TurnOfPoints(isd, altitude, a, b);
    FirstOfTier(isd, altitude, tier);
  }

  lemma IndexIs(tier: nat, side: nat, step: nat)
    requires tier > 0
    ensures IndexOf(tier, side, step) == 1 + 3 * (tier - 1) * tier + side * tier + step
  {
  }

  lemma NextIndex(tier: nat, side: nat, step: nat)
    requires side < 6 && step < tier
    ensures var next := FollowedBy(tier, side, step);
      IndexOf(tier, next.0, next.1)
        == if side == 5 && step == tier - 1 then IndexOf(tier, 0, 0) else IndexOf(tier, side, step) + 1
  {
    Multiples(tier, side, side + 1);
  }

  lemma FirstOfTier(isd: real, altitude: real, tier: nat)
    ensures At(isd, altitude, OnRing(tier, 0, 0))
         == Position(isd * (tier as real) / 2.0, isd * ((tier as real) / 2.0), altitude)
  {
    assert (tier as real) / 2.0 + 0.0 == (tier as real) / 2.0;
  }

  // ----- Snapshot terminals -----

  /** What the random streams give for a terminal: the root of a number up to 1, and a direction. */
  datatype Draw = Draw(root: real, cos: real, sin: real)

  ghost predicate ValidDraw(d: Draw) {
    0.0 <= d.root <= 1.0 && Square(d.cos) + Square(d.sin) == 1.0
  }

  /** A terminal is at an offset from the centre of its cell, on the ground. */
  datatype SnapshotUe = SnapshotUe(ueIndex: nat, nominalGnbIndex: nat, centre: Position, dx: real, dy: real)

  function OffsetOf(cellRadius: real, d: Draw): (real, real) {
    var radius := cellRadius * d.root;
    (radius * d.cos, radius * d.sin)
  }

  /** Record i is of cell i / uesPerCell, and its place is that of draw i, in the circle around the centre. */
  ghost predicate IsUe(ue: SnapshotUe, i: nat, uesPerCell: nat, gnbPositions: seq<Position>, cellRadius: real, d: Draw)
    requires uesPerCell > 0
  {
    && ue.ueIndex == i && ue.nominalGnbIndex == i / uesPerCell < |gnbPositions|
    && ue.centre == gnbPositions[i / uesPerCell]
    && (ue.dx, ue.dy) == OffsetOf(cellRadius, d)
    && Square(ue.dx) + Square(ue.dy) <= Square(cellRadius)
  }

  lemma ProductSquared(a: real, b: real)
    ensures Square(a * b) == Square(a) * Square(b)
  {
  }

  lemma AtMostOne(root: real)
    requires 0.0 <= root <= 1.0
    ensures 0.0 <= Square(root) <= 1.0
  {
    AtMostWhole(root, root);
    SquareNotNegative(root);
  }

  lemma AtMostWhole(a: real, part: real)
    requires a >= 0.0 && 0.0 <= part <= 1.0
    ensures a * part <= a
  {
    assert a * (1.0 - part) >= 0.0;
  }

  lemma Distributed(a: real, b: real, c: real)
    requires b + c == 1.0
    ensures a * b + a * c == a
  {
    assert a * b + a * c == a * (b + c);
  }

  /** A terminal is no farther from its centre than the cell radius. */
  lemma OffsetWithinCell(cellRadius: real, d: Draw)
    requires ValidDraw(d)
    ensures var offset := OffsetOf(cellRadius, d); Square(offset.0) + Square(offset.1) <= Square(cellRadius)
  {
    assert Square(d.cos) + Square(d.sin) == 1.0;
    hide Square, ValidDraw;
    var radius := cellRadius * d.root;
    ProductSquared(radius, d.cos);
    ProductSquared(radius, d.sin);
    Distributed(Square(radius), Square(d.cos), Square(d.sin));
    assert Square(radius * d.cos) + Square(radius * d.sin) == Square(radius);
    ProductSquared(cellRadius, d.root);
    SquareNotNegative(cellRadius);
    AtMostOne(d.root);
    AtMostWhole(Square(cellRadius), Square(d.root));
  }

  /** The offset has the length cellRadius * root, in the direction of the draw. */
  lemma OffsetIsPolar(cellRadius: real, d: Draw)
    requires ValidDraw(d)
    ensures var offset, radius := OffsetOf(cellRadius, d), cellRadius * d.root;
      && offset.0 * offset.0 + offset.1 * offset.1 == radius * radius
      && offset.0 * d.cos + offset.1 * d.sin == radius
  {
    assert d.cos * d.cos + d.sin * d.sin == 1.0;
    PolarAlgebra(cellRadius * d.root, d.cos, d.sin);
  }

  lemma PolarAlgebra(radius: real, cos: real, sin: real)
    requires cos * cos + sin * sin == 1.0
    ensures (radius * cos) * (radius * cos) + (radius * sin) * (radius * sin) == radius * radius
    ensures (radius * cos) * cos + (radius * sin) * sin == radius
  {
    Distributed(radius, cos * cos, sin * sin);
    Distributed(radius * radius, cos * cos, sin * sin);
    assert (radius * cos) * (radius * cos) == (radius * radius) * (cos * cos);
    assert (radius * sin) * (radius * sin) == (radius * radius) * (sin * sin);
  }

  /** The draws are those of the terminals in the order in which they are made. */
  method CreateSnapshotUes(uesPerCell: nat, gnbPositions: seq<Position>, cellRadius: real, draws: nat -> Draw)
    returns (records: seq<SnapshotUe>)
    requires forall i: nat :: ValidDraw(draws(i))
    ensures |records| == |gnbPositions| * uesPerCell
    ensures uesPerCell > 0 ==>
      forall i :: 0 <= i < |records| ==> IsUe(records[i], i, uesPerCell, gnbPositions, cellRadius, draws(i))
  {
    hide Square, ValidDraw, OffsetOf;
    records := [];
    if uesPerCell == 0 {
      return;
    }
    var ueIndex := 0;
    for gnbIndex := 0 to |gnbPositions|
      invariant |records| == ueIndex == gnbIndex * uesPerCell
      invariant forall i :: 0 <= i < |records| ==> IsUe(records[i], i, uesPerCell, gnbPositions, cellRadius, draws(i))
    {
      var centre := gnbPositions[gnbIndex];
      for k := 0 to uesPerCell
        invariant |records| == ueIndex == gnbIndex * uesPerCell + k
        invariant forall i :: 0 <= i < |records| ==> IsUe(records[i], i, uesPerCell, gnbPositions, cellRadius, draws(i))
      {
        Quotient(gnbIndex, uesPerCell, k);
        var draw := draws(ueIndex);
        var offset := OffsetOf(cellRadius, draw);
        OffsetWithinCell(cellRadius, draw);
        records := records + [SnapshotUe(ueIndex, gnbIndex, centre, offset.0, offset.1)];
        ueIndex := ueIndex + 1;
      }
    }
  }

  lemma AtLeastFactor(n: nat, x: int)
    requires x >= 1
    ensures n * x >= n
  {
  }

  lemma SameQuotient(n: nat, a: int, k: int, a': int, k': int)
    requires n * a + k == n * a' + k'
    requires 0 <= k < n && 0 <= k' < n
    ensures a == a' && k == k'
  {
    assert n * (a - a') == k' - k;
    assert n * (a' - a) == k - k';
    if a > a' {
      AtLeastFactor(n, a - a');
    } else if a < a' {
      AtLeastFactor(n, a' - a);
    }
  }

  lemma Quotient(a: nat, n: nat, k: nat)
    requires k < n
    ensures (a * n + k) / n == a
  {
    var m := a * n + k;
    SameQuotient(n, m / n, m % n, a, k);
  }

  lemma QuotientBelow(i: nat, n: nat, bound: nat)
    requires n > 0 && i < bound * n
    ensures i / n < bound
  {
    if i / n >= bound {
      AtLeastMultiple(n, i / n, bound);
      assert false;
    }
  }

  lemma AtLeastMultiple(n: nat, a: nat, bound: nat)
    requires a >= bound
    ensures n * a >= bound * n
  {
    assert n * a - bound * n == n * (a - bound);
  }

  lemma AnchorsAreBeams(isd: real, altitude: real, anchorTiers: nat, gnbTiers: nat)
    requires anchorTiers <= gnbTiers
    ensures Positions(isd, altitude, Points(anchorTiers)) <= Positions(isd, altitude, Points(gnbTiers))
  {
    PointsPrefix(anchorTiers, gnbTiers);
  }

  /**
   Terminals are anchored at the positions for `anchorTiers`. When these are no more than the tiers of
   the beams, each nominal index is a valid beam index and both lists have the same centre there.
   */
  lemma NominalBeamIsTheAnchor(isd: real, altitude: real, anchorTiers: nat, gnbTiers: nat, uesPerCell: nat, i: nat)
    requires anchorTiers <= gnbTiers
    requires uesPerCell > 0 && i < |Points(anchorTiers)| * uesPerCell
    ensures var anchors := Positions(isd, altitude, Points(anchorTiers));
      var beams := Positions(isd, altitude, Points(gnbTiers));
      i / uesPerCell < |anchors| <= |beams| && anchors[i / uesPerCell] == beams[i / uesPerCell]
  {
    hide Points, At;
    QuotientBelow(i, uesPerCell, |Points(anchorTiers)|);
    AnchorsAreBeams(isd, altitude, anchorTiers, gnbTiers);
  }
}
