/** Values shared by both province painting engines: grid coordinates,
    rectangular chunk bounds, square brush footprints, claim brushes and
    the brush move rule. */
module Objects {

  datatype Option<T> = None | Some(value: T)

  /** A position on the map: a chunk by its chunk coordinates, or a region corner by
      its block coordinates. */
  datatype Coord = Coord(x: int, z: int)

  /** Provinces are compared by identity in the source; a number stands for that identity. */
  type ProvinceId = nat

  /** An inclusive rectangle of chunk coordinates. */
  datatype Bounds = Bounds(minX: int, maxX: int, minZ: int, maxZ: int) {
    predicate Contains(c: Coord) {
      minX <= c.x <= maxX && minZ <= c.z <= maxZ
    }
  }

  /** `c` lies in the square of side 2r+1 centred on `centre`. */
  predicate InSquare(c: Coord, centre: Coord, r: int) {
    centre.x - r <= c.x <= centre.x + r && centre.z - r <= c.z <= centre.z + r
  }

  /** The cells of `cells` that a brush of radius `r` at `centre` covers. */
  function Footprint(cells: set<Coord>, centre: Coord, r: int): set<Coord> {
    set c | c in cells && InSquare(c, centre, r)
  }

  /** Java's `/` on int: the quotient is truncated toward zero. */
  function TruncDiv(a: int, b: int): (q: int)
    requires b > 0
    ensures a >= 0 ==> q * b <= a < q * b + b
    ensures a < 0 ==> q * b - b < a <= q * b
  {
    if a >= 0 then a / b else -((-a) / b)
  }

  /** Division by a positive divisor keeps the order of non-negative dividends. */
  lemma DivMono(a: int, b: int, d: int)
    requires 0 <= a <= b && d > 0
    ensures a / d <= b / d
  {
    var qa, qb := a / d, b / d;
    assert qa * d < (qb + 1) * d;
    MulLess(qa, qb + 1, d);
  }

  /** A product with a positive factor is strictly less only for a strictly less cofactor. */
  lemma MulLess(x: int, y: int, d: int)
    requires d > 0 && x * d < y * d
    ensures x < y
  {
    assert y * d - x * d == (y - x) * d;
  }

  /** Truncating division by a positive divisor keeps the order of its dividends. */
  lemma TruncDivMono(a: int, b: int, d: int)
    requires d > 0 && a <= b
    ensures TruncDiv(a, d) <= TruncDiv(b, d)
  {
    if 0 <= a {
      DivMono(a, b, d);
      assert TruncDiv(a, d) == a / d && TruncDiv(b, d) == b / d;
    } else if b < 0 {
      DivMono(-b, -a, d);
      assert TruncDiv(a, d) == -((-a) / d) && TruncDiv(b, d) == -((-b) / d);
    } else {
      DivMono(0, b, d);
      assert TruncDiv(a, d) == -((-a) / d) && TruncDiv(b, d) == b / d;
    }
  }

  /** The chunk rectangle of a region whose corners are given in block coordinates
      (corner block / chunk side length, as the painting engines compute it). */
  function ChunkBounds(topLeft: Coord, bottomRight: Coord, chunkSide: int): Bounds
    requires chunkSide > 0
  {
    Bounds(TruncDiv(topLeft.x, chunkSide), TruncDiv(bottomRight.x, chunkSide),
           TruncDiv(topLeft.z, chunkSide), TruncDiv(bottomRight.z, chunkSide))
  }

  /** The chunk of every block between the two corners lies in the chunk rectangle. */
  lemma ChunkOfBlock(topLeft: Coord, bottomRight: Coord, chunkSide: int, block: Coord)
    requires chunkSide > 0
    requires topLeft.x <= block.x <= bottomRight.x && topLeft.z <= block.z <= bottomRight.z
    ensures ChunkBounds(topLeft, bottomRight, chunkSide).Contains(Coord(TruncDiv(block.x, chunkSide), TruncDiv(block.z, chunkSide)))
  {
    TruncDivMono(topLeft.x, block.x, chunkSide);
    TruncDivMono(block.x, bottomRight.x, chunkSide);
    TruncDivMono(topLeft.z, block.z, chunkSide);
    TruncDivMono(block.z, bottomRight.z, chunkSide);
  }

  /** A square claim brush bound to one province during a painting run. */
  datatype Brush = Brush(province: ProvinceId, position: Coord, claimed: nat, active: bool)

  /** A new brush starts on its province's home block, with nothing claimed, active. */
  function NewBrush(province: ProvinceId, homeBlock: Coord): (b: Brush)
    ensures b.province == province && b.position == homeBlock && b.claimed == 0 && b.active
  {
    Brush(province, homeBlock, 0, true)
  }

  /** The move rule applied to a random per-axis delta: a positive delta is raised
      to at least `minMove`; zero or a negative delta is lowered to at most `-minMove`. */
  function ClampDelta(raw: int, minMove: int): (d: int)
    ensures raw > 0 ==> d >= minMove && d >= raw && (d == raw || d == minMove)
    ensures raw <= 0 ==> d <= -minMove && d <= raw && (d == raw || d == -minMove)
  {
    if raw > 0 then (if raw >= minMove then raw else minMove)
    else (if raw <= -minMove then raw else -minMove)
  }

  /** With a raw delta drawn from [-maxMove, maxMove], the clamped delta keeps
      the sign of the raw one, its magnitude lies in [minMove, maxMove], and it
      is never zero once minMove is at least one. */
  lemma ClampDeltaBounds(raw: int, minMove: int, maxMove: int)
    requires -maxMove <= raw <= maxMove && minMove <= maxMove
    ensures var d := ClampDelta(raw, minMove);
      && (raw > 0 ==> minMove <= d <= maxMove)
      && (raw <= 0 ==> -maxMove <= d <= -minMove)
      && (minMove >= 1 ==> d != 0)
  {
  }

  /** Assigns every cell of `cells` to province `p`, leaving other entries alone. */
  function AssignAll(owner: map<Coord, ProvinceId>, cells: set<Coord>, p: ProvinceId): (o: map<Coord, ProvinceId>)
    ensures o.Keys == owner.Keys + cells
    ensures forall c :: c in cells ==> o[c] == p
    ensures forall c :: c in owner && c !in cells ==> o[c] == owner[c]
  {
    map c | c in owner.Keys + cells :: if c in cells then p else owner[c]
  }

  /** Assigning one more cell extends the batch by that cell. */
  lemma AssignAllStep(owner: map<Coord, ProvinceId>, cells: set<Coord>, c: Coord, p: ProvinceId)
    ensures AssignAll(owner, cells, p)[c := p] == AssignAll(owner, cells + {c}, p)
  {
    var l := AssignAll(owner, cells, p)[c := p];
    var r := AssignAll(owner, cells + {c}, p);
    assert l.Keys == r.Keys;
    forall d | d in l.Keys ensures l[d] == r[d] {
    }
  }

  /** The cells owned by province `p`. */
  function CellsOf(owner: map<Coord, ProvinceId>, p: ProvinceId): (s: set<Coord>)
    ensures s <= owner.Keys
    ensures forall c :: c in s <==> c in owner && owner[c] == p
  {
    set c | c in owner && owner[c] == p
  }

  /** Removing the cells of a province that owns none changes nothing. */
  lemma RemoveNoCells(o: map<Coord, ProvinceId>, u: set<Coord>, p: ProvinceId)
    requires |CellsOf(o, p)| == 0
    ensures o - CellsOf(o, p) == o && u + CellsOf(o, p) == u
  {
    assert (o - CellsOf(o, p)).Keys == o.Keys;
  }

  /** Every entry of `o0` is still present, with the same owner, in `o1`. */
  ghost predicate Extends(o0: map<Coord, ProvinceId>, o1: map<Coord, ProvinceId>) {
    o0.Keys <= o1.Keys && forall c :: c in o0 ==> o1[c] == o0[c]
  }

  lemma ExtendsTrans(o0: map<Coord, ProvinceId>, o1: map<Coord, ProvinceId>, o2: map<Coord, ProvinceId>)
    requires Extends(o0, o1) && Extends(o1, o2)
    ensures Extends(o0, o2)
  {
  }

  /** Claiming cells nobody owns keeps every existing entry. */
  lemma ExtendsByAssign(o0: map<Coord, ProvinceId>, o: map<Coord, ProvinceId>, cells: set<Coord>, p: ProvinceId)
    requires Extends(o0, o) && cells !! o.Keys
    ensures Extends(o0, AssignAll(o, cells, p))
  {
  }

  /** How many random positions are tried before a random province placement gives up. */
  const MaxPlacementAttempts: nat := 100

  /** The cells of `o0` owned by provinces in `deleted`. */
  ghost function CellsOfAll(o0: map<Coord, ProvinceId>, deleted: set<ProvinceId>): set<Coord> {
    set c | c in o0 && o0[c] in deleted
  }

  /** `o` is `o0` without the cells of the provinces in `deleted`; every other
      cell keeps its owner. */
  ghost predicate Dropped(o0: map<Coord, ProvinceId>, o: map<Coord, ProvinceId>, deleted: set<ProvinceId>) {
    && (forall c :: c in o <==> c in o0 && o0[c] !in deleted)
    && (forall c :: c in o ==> o[c] == o0[c])
  }

  /** The data holder's bookkeeping is consistent: no cell both owned and unclaimed,
      the province set is the set of provinces with a home block, every owner is a
      known province, and every province identity was handed out already. */
  ghost predicate ConsistentState(owner: map<Coord, ProvinceId>, unclaimed: set<Coord>, provinces: set<ProvinceId>,
                                  homeBlock: map<ProvinceId, Coord>, nextId: ProvinceId) {
    && owner.Keys !! unclaimed
    && provinces == homeBlock.Keys
    && (forall c :: c in owner ==> owner[c] in provinces)
    && (forall p :: p in provinces ==> p < nextId)
  }

  /** One province of the deletion sweep visited: it joins the deleted set exactly
      when it is mostly inside the region. */
  lemma SweepStep(o0: map<Coord, ProvinceId>, provinces: set<ProvinceId>, todo: set<ProvinceId>,
                  deleted: set<ProvinceId>, p: ProvinceId, region: Bounds, gone: bool)
    requires p in todo && todo <= provinces
    requires deleted == ProvincesMostlyInside(o0, provinces - todo, region)
    requires gone == MostlyInside(o0, p, region)
    ensures (if gone then deleted + {p} else deleted) == ProvincesMostlyInside(o0, provinces - (todo - {p}), region)
    ensures gone ==> provinces - (deleted + {p}) == (provinces - deleted) - {p}
  {
    assert provinces - (todo - {p}) == (provinces - todo) + {p};
  }

  /** Dropping the home blocks of the deleted provinces one province at a time. */
  lemma HomeBlocksStep(h0: map<ProvinceId, Coord>, deleted: set<ProvinceId>, p: ProvinceId)
    ensures (h0 - deleted) - {p} == h0 - (deleted + {p})
  {
    var l, r := (h0 - deleted) - {p}, h0 - (deleted + {p});
    assert l.Keys == r.Keys;
  }

  /** The positions random province `k` tries, in order. */
  function Attempts(tryAt: (nat, nat) -> Coord, k: nat): (tries: seq<Coord>)
    ensures |tries| == MaxPlacementAttempts
    ensures forall j :: 0 <= j < |tries| ==> tries[j] == tryAt(k, j)
  {
    seq(MaxPlacementAttempts, j requires 0 <= j => tryAt(k, j))
  }

  function Max0(x: int): nat {
    if x > 0 then x else 0
  }

  /** The provinces of `provinces` more than half of whose cells lie in `region`. */
  function ProvincesMostlyInside(o: map<Coord, ProvinceId>, provinces: set<ProvinceId>, region: Bounds): set<ProvinceId> {
    set p | p in provinces && MostlyInside(o, p, region)
  }

  /** A province is mostly inside `region` when more than half of its cells
      (integer half) lie in it. */
  predicate MostlyInside(o: map<Coord, ProvinceId>, p: ProvinceId, region: Bounds) {
    |set c | c in CellsOf(o, p) && region.Contains(c)| > |CellsOf(o, p)| / 2
  }

  /** The cells that province `p` gained relative to the ownership map `o0`. */
  ghost function Gained(o0: map<Coord, ProvinceId>, o: map<Coord, ProvinceId>, p: ProvinceId): set<Coord> {
    set c | c in o.Keys - o0.Keys && o[c] == p
  }

  /** Claiming the fresh cells `f` for `p` adds exactly `f` to what `p` gained ... */
  lemma GainedAfterClaim(o0: map<Coord, ProvinceId>, o: map<Coord, ProvinceId>, f: set<Coord>, p: ProvinceId)
    requires Extends(o0, o) && f !! o.Keys
    ensures |Gained(o0, AssignAll(o, f, p), p)| == |Gained(o0, o, p)| + |f|
  {
    GainedAfterClaimCells(o0, o, f, p);
    var g := Gained(o0, o, p);
    assert g * f == {};
  }

  /** The cells behind the count above: the old gains and `f`, which are disjoint. */
  lemma GainedAfterClaimCells(o0: map<Coord, ProvinceId>, o: map<Coord, ProvinceId>, f: set<Coord>, p: ProvinceId)
    requires Extends(o0, o) && f !! o.Keys
    ensures Gained(o0, AssignAll(o, f, p), p) == Gained(o0, o, p) + f
    ensures Gained(o0, o, p) !! f
  {
    var o' := AssignAll(o, f, p);
    var g, g' := Gained(o0, o, p), Gained(o0, o', p);
    forall c ensures c in g' <==> c in g + f {
      if c in f {
        assert c !in o0.Keys;
      }
    }
    forall c | c in g ensures c !in f {
      assert c in o.Keys;
    }
  }

  /** ... and leaves every other province's gains alone. */
  lemma {:induction false} GainedOthersUnchanged(o0: map<Coord, ProvinceId>, o: map<Coord, ProvinceId>, f: set<Coord>, p: ProvinceId, q: ProvinceId)
    requires q != p && f !! o.Keys
    ensures Gained(o0, AssignAll(o, f, p), q) == Gained(o0, o, q)
  {
    var o' := AssignAll(o, f, p);
    forall c ensures c in Gained(o0, o', q) <==> c in Gained(o0, o, q) {
      if c in f {
        assert c !in Gained(o0, o', q);
      }
    }
  }

  /** Stamping unclaimed cells for a known province keeps the bookkeeping
      consistent and loses no cell. */
  lemma StampConsistent(o: map<Coord, ProvinceId>, u: set<Coord>, provinces: set<ProvinceId>,
                        homeBlock: map<ProvinceId, Coord>, n: ProvinceId, f: set<Coord>, p: ProvinceId)
    requires ConsistentState(o, u, provinces, homeBlock, n) && f <= u && p in provinces
    ensures ConsistentState(AssignAll(o, f, p), u - f, provinces, homeBlock, n)
    ensures AssignAll(o, f, p).Keys + (u - f) == o.Keys + u
  {
  }

  /** Stamping brush `i`'s footprint keeps the account of every brush. */
  lemma AccountAfterClaim(o0: map<Coord, ProvinceId>, o: map<Coord, ProvinceId>, f: set<Coord>,
                          order: seq<ProvinceId>, brushes: seq<Brush>, i: nat)
    requires Extends(o0, o) && f !! o.Keys && i < |order| == |brushes|
    requires forall j, k :: 0 <= j < k < |order| ==> order[j] != order[k]
    requires forall k :: 0 <= k < |brushes| ==> brushes[k].claimed == |Gained(o0, o, order[k])|
    ensures forall k :: 0 <= k < |brushes| && k != i ==>
      brushes[k].claimed == |Gained(o0, AssignAll(o, f, order[i]), order[k])|
    ensures brushes[i].claimed + |f| == |Gained(o0, AssignAll(o, f, order[i]), order[i])|
  {
    GainedAfterClaim(o0, o, f, order[i]);
    forall k | 0 <= k < |brushes| && k != i
      ensures brushes[k].claimed == |Gained(o0, AssignAll(o, f, order[i]), order[k])|
    {
      GainedOthersUnchanged(o0, o, f, order[i], order[k]);
    }
  }

  /** One random draw of a brush move, per axis, before the move rule is applied. */
  datatype RawMove = RawMove(dx: int, dz: int)

  /** The target of one competition move: the raw draw, after the move rule,
      added to the brush's position (move rule minimum `minMove`). */
  function MoveTarget(b: Brush, move: RawMove, minMove: int): (t: Coord)
    ensures t.x != b.position.x || minMove <= 0
    ensures t.z != b.position.z || minMove <= 0
  {
    Coord(b.position.x + ClampDelta(move.dx, minMove), b.position.z + ClampDelta(move.dz, minMove))
  }

  /** The state of the province set while provinces are generated: the first
      `created` identities from `n0` on were added (the first ones with the protected
      locations as home blocks), and nothing else. */
  ghost predicate GeneratedSoFar(provinces: set<ProvinceId>, homeBlock: map<ProvinceId, Coord>, p0: set<ProvinceId>,
                                 n0: ProvinceId, protectedHomes: seq<Coord>, created: nat) {
    && p0 <= provinces
    && |provinces| == |p0| + created
    && (forall q :: q in provinces ==> q in p0 || n0 <= q < n0 + created)
    && (forall q :: n0 <= q < n0 + created ==> q in provinces)
    && (forall q :: n0 <= q < n0 + created && q - n0 < |protectedHomes| ==>
          q in homeBlock && homeBlock[q] == protectedHomes[q - n0])
  }

  /** Registering the next generated province advances the generation state. */
  lemma PlacedGenerated(provinces: set<ProvinceId>, homeBlock: map<ProvinceId, Coord>, p0: set<ProvinceId>,
                        n0: ProvinceId, protectedHomes: seq<Coord>, created: nat, p: ProvinceId, home: Coord)
    requires GeneratedSoFar(provinces, homeBlock, p0, n0, protectedHomes, created) && p == n0 + created
    requires forall q :: q in provinces ==> q < p
    requires created < |protectedHomes| ==> home == protectedHomes[created]
    ensures GeneratedSoFar(provinces + {p}, homeBlock[p := home], p0, n0, protectedHomes, created + 1)
  {
    var provinces', homeBlock' := provinces + {p}, homeBlock[p := home];
    assert p !in provinces;
    assert |provinces'| == |p0| + created + 1;
    forall q | q in provinces' ensures q in p0 || n0 <= q < n0 + created + 1 {
    }
    forall q | n0 <= q < n0 + created + 1 ensures q in provinces' {
      if q < n0 + created {
        assert q in provinces;
      }
    }
    forall q | n0 <= q < n0 + created + 1 && q - n0 < |protectedHomes|
      ensures q in homeBlock' && homeBlock'[q] == protectedHomes[q - n0]
    {
      if q < p {
        assert q in homeBlock && homeBlock[q] == protectedHomes[q - n0];
      }
    }
  }

  /** Lists the elements of a set once each, in an arbitrary order
      (the iteration order of a hash set). */
  method SetToSeq<T>(s: set<T>) returns (order: seq<T>)
    ensures forall x :: x in order <==> x in s
    ensures forall i, j :: 0 <= i < j < |order| ==> order[i] != order[j]
  {
    order := [];
    var todo := s;
    while todo != {}
      invariant todo <= s
      invariant forall x :: x in order <==> x in s - todo
      invariant forall i, j :: 0 <= i < j < |order| ==> order[i] != order[j]
      decreases |todo|
    {
      var x :| x in todo;
      assert x !in order;
      order := order + [x];
      todo := todo - {x};
    }
  }
}
