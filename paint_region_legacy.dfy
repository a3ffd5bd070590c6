/** The region painting engine of the `province_generation` package, the older of
    the two. It validates brush positions with a margin of three chunks (ignoring
    off-map cells), stamps the longest unclaimed prefix of a brush's scan, runs the
    brush competition with a claim-limit test after every turn, places province home
    blocks at a minimum distance from each other, and deletes the provinces lying
    mostly inside the region without handing their cells back. */
module ProvinceGeneration {
  import opened Objects

  /** The cells of column `x` from `z0` to `z1`, in increasing z. */
  function Column(x: int, z0: int, z1: int): (s: seq<Coord>)
    ensures |s| == Max0(z1 - z0 + 1)
    ensures forall k :: 0 <= k < |s| ==> s[k] == Coord(x, z0 + k)
    decreases z1 - z0
  {
    if z1 < z0 then [] else [Coord(x, z0)] + Column(x, z0 + 1, z1)
  }

  /** The cells of the rectangle [x0, x1] x [z0, z1], column after column:
      x in the outer loop, z in the inner one. */
  function Scan(x0: int, x1: int, z0: int, z1: int): seq<Coord>
    decreases x1 - x0
  {
    if x1 < x0 then [] else Column(x0, z0, z1) + Scan(x0 + 1, x1, z0, z1)
  }

  /** The order in which a brush of radius `r` at `centre` visits its footprint. */
  function ScanOrder(centre: Coord, r: nat): seq<Coord> {
    Scan(centre.x - r, centre.x + r, centre.z - r, centre.z + r)
  }

  /** The scan visits exactly the cells of its rectangle. */
  lemma {:induction false} ScanCovers(x0: int, x1: int, z0: int, z1: int, c: Coord)
    ensures c in Scan(x0, x1, z0, z1) <==> x0 <= c.x <= x1 && z0 <= c.z <= z1
    decreases x1 - x0
  {
    if x0 <= x1 {
      ScanCovers(x0 + 1, x1, z0, z1, c);
      if c.x == x0 && z0 <= c.z <= z1 {
        assert Column(x0, z0, z1)[c.z - z0] == c;
      }
    }
  }

  /** A brush's scan visits exactly the cells of its footprint square. */
  lemma ScanOrderCovers(centre: Coord, r: nat, c: Coord)
    ensures c in ScanOrder(centre, r) <==> InSquare(c, centre, r)
  {
    ScanCovers(centre.x - r, centre.x + r, centre.z - r, centre.z + r, c);
  }

  /** No cell occurs twice in `s`. */
  predicate Distinct(s: seq<Coord>) {
    forall i, j :: 0 <= i < j < |s| ==> s[i] != s[j]
  }

  /** The scan visits every cell of its rectangle once. */
  lemma {:induction false} ScanDistinct(x0: int, x1: int, z0: int, z1: int)
    ensures Distinct(Scan(x0, x1, z0, z1))
    decreases x1 - x0
  {
    if x0 <= x1 {
      ScanDistinct(x0 + 1, x1, z0, z1);
      var col, rest := Column(x0, z0, z1), Scan(x0 + 1, x1, z0, z1);
      forall i, j | 0 <= i < j < |col + rest| ensures (col + rest)[i] != (col + rest)[j] {
        if j >= |col| && i < |col| {
          ScanCovers(x0 + 1, x1, z0, z1, rest[j - |col|]);
        }
      }
    }
  }

  /** The length of the longest prefix of `s` all of whose cells are in `u`. */
  function UnclaimedPrefix(s: seq<Coord>, u: set<Coord>): (n: nat)
    ensures n <= |s|
    ensures forall k :: 0 <= k < n ==> s[k] in u
    ensures n < |s| ==> s[n] !in u
  {
    if |s| == 0 || s[0] !in u then 0 else 1 + UnclaimedPrefix(s[1..], u)
  }

  /** Taking a cell out of `u` that `s` does not visit leaves the prefix alone. */
  lemma {:induction false} UnclaimedPrefixWithout(s: seq<Coord>, u: set<Coord>, c: Coord)
    requires c !in s
    ensures UnclaimedPrefix(s, u - {c}) == UnclaimedPrefix(s, u)
  {
    if |s| > 0 {
      assert s[0] in s;
      assert forall e :: e in s[1..] ==> e in s;
      UnclaimedPrefixWithout(s[1..], u, c);
    }
  }

  function Elements(s: seq<Coord>): set<Coord> {
    set c | c in s
  }

  /** The length of the part of its scan that a brush at `centre` claims: the
      longest unclaimed prefix. */
  function PrefixLen(centre: Coord, r: nat, u: set<Coord>): nat {
    UnclaimedPrefix(ScanOrder(centre, r), u)
  }

  /** The cells a brush at `centre` claims. */
  function PrefixCells(centre: Coord, r: nat, u: set<Coord>): set<Coord> {
    Elements(ScanOrder(centre, r)[..PrefixLen(centre, r, u)])
  }

  /** The state a stamp leaves behind: ownership, unclaimed index, brush count. */
  datatype Stamp = Stamp(owner: map<Coord, ProvinceId>, unclaimed: set<Coord>, claimed: nat)

  /** Stamping along `s` for province `p`: each unclaimed cell is given to `p` and
      counted, and the stamp ends at the first cell that is not unclaimed. */
  function StampFrom(s: seq<Coord>, o: map<Coord, ProvinceId>, u: set<Coord>, p: ProvinceId, n: nat): Stamp {
    if |s| == 0 || s[0] !in u then Stamp(o, u, n)
    else StampFrom(s[1..], o[s[0] := p], u - {s[0]}, p, n + 1)
  }

  /** Assigning one cell ahead of a batch is the batch with that cell. */
  lemma AssignAllCons(o: map<Coord, ProvinceId>, c: Coord, cells: set<Coord>, p: ProvinceId)
    ensures AssignAll(o[c := p], cells, p) == AssignAll(o, cells + {c}, p)
  {
    var l, r := AssignAll(o[c := p], cells, p), AssignAll(o, cells + {c}, p);
    assert l.Keys == r.Keys;
  }

  /** The cells after the first of a sequence without repeats have no repeats and
      do not include the first. */
  lemma DistinctTail(s: seq<Coord>)
    requires Distinct(s) && |s| > 0
    ensures Distinct(s[1..]) && s[0] !in s[1..]
  {
    var t := s[1..];
    forall j | 0 <= j < |t| ensures t[j] != s[0] {
      assert t[j] == s[j + 1];
    }
    forall i, j | 0 <= i < j < |t| ensures t[i] != t[j] {
      assert t[i] == s[i + 1] && t[j] == s[j + 1];
    }
  }

  /** The first k cells are the first one and the k - 1 after it. */
  lemma ElementsPrefixCons(s: seq<Coord>, k: nat)
    requires 0 < k <= |s|
    ensures Elements(s[..k]) == Elements(s[1..][..k - 1]) + {s[0]}
    ensures Elements(s[1..][..k - 1]) <= Elements(s[1..])
  {
    assert s[..k] == [s[0]] + s[1..][..k - 1];
    forall d ensures d in Elements(s[..k]) <==> d in Elements(s[1..][..k - 1]) + {s[0]} {
      assert d in [s[0]] + s[1..][..k - 1] <==> d == s[0] || d in s[1..][..k - 1];
    }
    forall d | d in s[1..][..k - 1] ensures d in s[1..] {
    }
  }

  /** A prefix of a sequence without repeats has as many different cells as its length. */
  lemma {:induction false} PrefixElementsCount(s: seq<Coord>, k: nat)
    requires Distinct(s) && k <= |s|
    ensures |Elements(s[..k])| == k
  {
    if k > 0 {
      DistinctTail(s);
      var e := Elements(s[1..][..k - 1]);
      PrefixElementsCount(s[1..], k - 1);
      ElementsPrefixCons(s, k);
      assert s[0] !in e;
      assert |e + {s[0]}| == |e| + 1;
    }
  }

  /** Stamping along cells that are all different hands exactly the longest unclaimed
      prefix to the province, takes it out of the unclaimed index and counts it. */
  lemma {:induction false} StampFromPrefix(s: seq<Coord>, o: map<Coord, ProvinceId>, u: set<Coord>, p: ProvinceId, n: nat)
    requires Distinct(s)
    ensures var e := Elements(s[..UnclaimedPrefix(s, u)]);
      StampFrom(s, o, u, p, n) == Stamp(AssignAll(o, e, p), u - e, n + UnclaimedPrefix(s, u))
  {
    if |s| == 0 || s[0] !in u {
      assert Elements(s[..0]) == {};
      assert AssignAll(o, {}, p) == o;
    } else {
      var c, t := s[0], s[1..];
      DistinctTail(s);
      UnclaimedPrefixWithout(t, u, c);
      var k := UnclaimedPrefix(t, u);
      assert UnclaimedPrefix(s, u) == k + 1;
      assert StampFrom(s, o, u, p, n) == StampFrom(t, o[c := p], u - {c}, p, n + 1);
      StampFromPrefix(t, o[c := p], u - {c}, p, n + 1);
      ElementsPrefixCons(s, k + 1);
      var e := Elements(t[..k]);
      AssignAllCons(o, c, e, p);
      assert (u - {c}) - e == u - (e + {c});
    }
  }

  /** The stamp of a brush's scan is its longest unclaimed prefix. */
  lemma ScanStamp(centre: Coord, r: nat, o: map<Coord, ProvinceId>, u: set<Coord>, p: ProvinceId, n: nat)
    ensures StampFrom(ScanOrder(centre, r), o, u, p, n) ==
      Stamp(AssignAll(o, PrefixCells(centre, r, u), p), u - PrefixCells(centre, r, u), n + PrefixLen(centre, r, u))
    ensures |PrefixCells(centre, r, u)| == PrefixLen(centre, r, u)
  {
    ScanDistinct(centre.x - r, centre.x + r, centre.z - r, centre.z + r);
    StampFromPrefix(ScanOrder(centre, r), o, u, p, n);
    PrefixElementsCount(ScanOrder(centre, r), PrefixLen(centre, r, u));
  }

  lemma StampDone(b: Brush, r: nat, o0: map<Coord, ProvinceId>, u0: set<Coord>, goal: Stamp,
                  o: map<Coord, ProvinceId>, u: set<Coord>, b': Brush)
    requires o0.Keys !! u0
    requires goal == StampFrom(ScanOrder(b.position, r), o0, u0, b.province, b.claimed)
    requires goal == Stamp(o, u, b'.claimed) && b' == b.(claimed := b'.claimed)
    ensures o.Keys !! u && o.Keys + u == o0.Keys + u0
    ensures o == AssignAll(o0, PrefixCells(b.position, r, u0), b.province)
    ensures u == u0 - PrefixCells(b.position, r, u0)
    ensures |PrefixCells(b.position, r, u0)| == PrefixLen(b.position, r, u0)
    ensures b' == b.(claimed := b.claimed + PrefixLen(b.position, r, u0))
  {
    ScanStamp(b.position, r, o0, u0, b.province, b.claimed);
    StampPartition(o0, u0, PrefixCells(b.position, r, u0), b.province);
  }

  lemma ConsAppend(c: Coord, a: seq<Coord>, b: seq<Coord>)
    ensures ([c] + a) + b == [c] + (a + b) && ([c] + (a + b))[0] == c && ([c] + (a + b))[1..] == a + b
  {
  }

  /** Claiming unclaimed cells keeps owned and unclaimed cells apart and loses none. */
  lemma StampPartition(o: map<Coord, ProvinceId>, u: set<Coord>, f: set<Coord>, p: ProvinceId)
    requires o.Keys !! u && f <= u
    ensures AssignAll(o, f, p).Keys !! u - f && AssignAll(o, f, p).Keys + (u - f) == o.Keys + u
  {
  }

  /** The eight neighbours of a cell, in the order the source's offset tables list them. */
  function Neighbours8(c: Coord): (ns: seq<Coord>)
    ensures |ns| == 8
  {
    [Coord(c.x - 1, c.z - 1), Coord(c.x, c.z - 1), Coord(c.x + 1, c.z - 1),
     Coord(c.x - 1, c.z), Coord(c.x + 1, c.z),
     Coord(c.x - 1, c.z + 1), Coord(c.x, c.z + 1), Coord(c.x + 1, c.z + 1)]
  }

  /** The offset tables list exactly the cells of the 3x3 square other than its centre. */
  lemma Neighbours8Exact(c: Coord, n: Coord)
    ensures n in Neighbours8(c) <==> InSquare(n, c, 1) && n != c
  {
    if InSquare(n, c, 1) && n != c {
      var ns := Neighbours8(c);
      if n.z == c.z - 1 {
        assert n == ns[0] || n == ns[1] || n == ns[2];
      } else if n.z == c.z {
        assert n == ns[3] || n == ns[4];
      } else {
        assert n == ns[5] || n == ns[6] || n == ns[7];
      }
    }
  }

  class PaintRegionAction {
    /** The whole map, in chunks (taken from the first region). */
    const mapBounds: Bounds
    /** The region being painted, in chunks. */
    const regionBounds: Bounds
    const brushRadius: nat
    const minMove: int
    const maxMove: int
    /** The area of one chunk (side length squared). */
    const chunkArea: nat
    const claimAreaLimit: int
    /** Number of painting cycles. */
    const paintingCycles: nat
    /** Minimum distance between two home blocks, in chunks. */
    const minHomeDistance: int
    /** The distance between two chunks; its definition is not part of this model. */
    const distance: (Coord, Coord) -> real

    /** The data holder's cell -> province map. */
    var owner: map<Coord, ProvinceId>
    /** The unclaimed-cell index. */
    var unclaimed: set<Coord>
    /** The data holder's province set, with each province's home block. */
    var provinces: set<ProvinceId>
    var homeBlock: map<ProvinceId, Coord>
    /** The identity the next new province object receives. */
    var nextId: ProvinceId

    ghost predicate Partitioned()
      reads this
    {
      owner.Keys !! unclaimed
    }

    ghost predicate Valid()
      reads this
    {
      ConsistentState(owner, unclaimed, provinces, homeBlock, nextId)
    }

    ghost function Universe(): set<Coord>
      reads this
    {
      owner.Keys + unclaimed
    }

    constructor (mapTopLeft: Coord, mapBottomRight: Coord, regionTopLeft: Coord, regionBottomRight: Coord,
                 brushRadius: nat, minMove: int, maxMove: int,
                 chunkSide: nat, claimAreaLimit: int, paintingCycles: nat, minHomeDistanceInMetres: int,
                 distance: (Coord, Coord) -> real,
                 owner: map<Coord, ProvinceId>, unclaimed: set<Coord>, homeBlock: map<ProvinceId, Coord>, nextId: ProvinceId)
      requires chunkSide > 0
      requires owner.Keys !! unclaimed
      requires forall c :: c in owner ==> owner[c] in homeBlock
      requires forall p :: p in homeBlock ==> p < nextId
      ensures Valid()
      ensures this.mapBounds == ChunkBounds(mapTopLeft, mapBottomRight, chunkSide)
      ensures this.regionBounds == ChunkBounds(regionTopLeft, regionBottomRight, chunkSide)
      ensures this.brushRadius == brushRadius && this.minMove == minMove && this.maxMove == maxMove
      ensures this.chunkArea == chunkSide * chunkSide && this.claimAreaLimit == claimAreaLimit
      ensures this.paintingCycles == paintingCycles && this.minHomeDistance == TruncDiv(minHomeDistanceInMetres, chunkSide)
      ensures this.distance == distance
      ensures this.owner == owner && this.unclaimed == unclaimed && this.homeBlock == homeBlock
      ensures this.provinces == homeBlock.Keys && this.nextId == nextId
    {
      this.mapBounds := ChunkBounds(mapTopLeft, mapBottomRight, chunkSide);
      this.regionBounds := ChunkBounds(regionTopLeft, regionBottomRight, chunkSide);
      this.brushRadius := brushRadius;
      this.minMove := minMove;
      this.maxMove := maxMove;
      this.chunkArea := chunkSide * chunkSide;
      this.claimAreaLimit := claimAreaLimit;
      this.paintingCycles := paintingCycles;
      this.minHomeDistance := TruncDiv(minHomeDistanceInMetres, chunkSide);
      this.distance := distance;
      this.owner := owner;
      this.unclaimed := unclaimed;
      this.homeBlock := homeBlock;
      this.provinces := homeBlock.Keys;
      this.nextId := nextId;
    }

    /** A brush of province `p` may stand at (x, z): every on-map cell of the footprint
        grown by three (side 2r+7) is unowned or owned by `p`. Off-map cells, the
        centre included, are not looked at. */
    predicate CanPaint(x: int, z: int, p: ProvinceId)
      reads this
    {
      forall c :: c in owner && InSquare(c, Coord(x, z), brushRadius + 3) && mapBounds.Contains(c) ==> owner[c] == p
    }

    /** A centre far enough off the map is accepted for any province. */
    lemma FarOffMapAccepted(x: int, z: int, p: ProvinceId)
      requires x > mapBounds.maxX + brushRadius + 3 || x < mapBounds.minX - brushRadius - 3
            || z > mapBounds.maxZ + brushRadius + 3 || z < mapBounds.minZ - brushRadius - 3
      ensures CanPaint(x, z, p)
    {
    }

    method ValidateBrushPosition(x: int, z: int, p: ProvinceId) returns (ok: bool)
      ensures ok == CanPaint(x, z, p)
    {
      var r := brushRadius as int;
      var cx := x - r - 3;
      while cx <= x + r + 3
        invariant x - r - 3 <= cx <= x + r + 4
        invariant forall c :: c in owner && InSquare(c, Coord(x, z), r + 3) && mapBounds.Contains(c) && c.x < cx ==> owner[c] == p
      {
        var cz := z - r - 3;
        while cz <= z + r + 3
          invariant z - r - 3 <= cz <= z + r + 4
          invariant forall c :: (c in owner && InSquare(c, Coord(x, z), r + 3) && mapBounds.Contains(c)
                                 && (c.x < cx || (c.x == cx && c.z < cz))) ==> owner[c] == p
        {
          if cx < mapBounds.minX || cx > mapBounds.maxX || cz < mapBounds.minZ || cz > mapBounds.maxZ {
            cz := cz + 1;
            continue;
          }
          var c := Coord(cx, cz);
          if c in owner && owner[c] != p {
            assert InSquare(c, Coord(x, z), r + 3) && mapBounds.Contains(c);
            return false;
          }
          cz := cz + 1;
        }
        cx := cx + 1;
      }
      return true;
    }

    /** The inner loop of the stamp: claims column `x` from `z0` to `z1`, and reports
        whether it `stopped` at a cell that is not unclaimed. Either way it does what
        stamping along the column does, followed by `tail` when it did not stop. */
    method ClaimColumn(x: int, z0: int, z1: int, b: Brush, ghost tail: seq<Coord>) returns (b': Brush, stopped: bool)
      modifies this`owner, this`unclaimed
      ensures b' == b.(claimed := b'.claimed)
      ensures stopped ==>
        StampFrom(Column(x, z0, z1) + tail, old(owner), old(unclaimed), b.province, b.claimed) == Stamp(owner, unclaimed, b'.claimed)
      ensures !stopped ==>
        StampFrom(Column(x, z0, z1) + tail, old(owner), old(unclaimed), b.province, b.claimed)
        == StampFrom(tail, owner, unclaimed, b.province, b'.claimed)
    {
      b' := b;
      var z := z0;
      while z <= z1
        invariant z0 <= z || z1 < z0
        invariant b' == b.(claimed := b'.claimed)
        invariant StampFrom(Column(x, z, z1) + tail, owner, unclaimed, b.province, b'.claimed)
               == StampFrom(Column(x, z0, z1) + tail, old(owner), old(unclaimed), b.province, b.claimed)
      {
        var c := Coord(x, z);
        assert Column(x, z, z1) == [c] + Column(x, z + 1, z1);
        ConsAppend(c, Column(x, z + 1, z1), tail);
        if c !in unclaimed {
          return b', true;
        }
        owner := owner[c := b.province];
        b' := b'.(claimed := b'.claimed + 1);
        unclaimed := unclaimed - {c};
        z := z + 1;
      }
      assert Column(x, z, z1) == [];
      assert [] + tail == tail;
      return b', false;
    }

    /** Stamps the brush without any validation: the footprint is scanned column by
        column and claiming stops at the first cell that is not unclaimed, so exactly
        the longest unclaimed prefix of the scan goes to the brush's province and
        leaves the unclaimed index, and the brush's count rises by its length. */
    method ClaimChunksCoveredByBrush(b: Brush) returns (b': Brush)
      requires Partitioned()
      modifies this`owner, this`unclaimed
      ensures Partitioned() && Universe() == old(Universe())
      ensures owner == AssignAll(old(owner), PrefixCells(b.position, brushRadius, old(unclaimed)), b.province)
      ensures unclaimed == old(unclaimed) - PrefixCells(b.position, brushRadius, old(unclaimed))
      ensures |PrefixCells(b.position, brushRadius, old(unclaimed))| == PrefixLen(b.position, brushRadius, old(unclaimed))
      ensures b' == b.(claimed := b.claimed + PrefixLen(b.position, brushRadius, old(unclaimed)))
    {
      var r := brushRadius as int;
      var startX, endX := b.position.x - r, b.position.x + r;
      var startZ, endZ := b.position.z - r, b.position.z + r;
      assert ScanOrder(b.position, brushRadius) == Scan(startX, endX, startZ, endZ);
      ghost var goal := StampFrom(ScanOrder(b.position, brushRadius), owner, unclaimed, b.province, b.claimed);
      b' := b;
      var x := startX;
      while x <= endX
        invariant startX <= x <= endX + 1
        invariant b' == b.(claimed := b'.claimed)
        invariant StampFrom(Scan(x, endX, startZ, endZ), owner, unclaimed, b.province, b'.claimed) == goal
      {
        assert Scan(x, endX, startZ, endZ) == Column(x, startZ, endZ) + Scan(x + 1, endX, startZ, endZ);
        var stopped;
        b', stopped := ClaimColumn(x, startZ, endZ, b', Scan(x + 1, endX, startZ, endZ));
        if stopped {
          StampDone(b, brushRadius, old(owner), old(unclaimed), goal, owner, unclaimed, b');
          return;
        }
        x := x + 1;
      }
      assert Scan(x, endX, startZ, endZ) == [];
      StampDone(b, brushRadius, old(owner), old(unclaimed), goal, owner, unclaimed, b');
    }

    /** No cell among the eight around `c` belongs to a province other than `p`. */
    predicate NoForeignNeighbour(c: Coord, p: ProvinceId)
      reads this
    {
      forall n :: n in owner && InSquare(n, c, 1) && n != c ==> owner[n] == p
    }

    /** Claims the single cell (x, z) for the brush's province when it is unclaimed and
        none of its eight neighbours belongs to another province; otherwise nothing changes. */
    method ClaimUnclaimedChunk(x: int, z: int, b: Brush) returns (b': Brush)
      requires Partitioned()
      modifies this`owner, this`unclaimed
      ensures Partitioned() && Universe() == old(Universe())
      ensures old(Coord(x, z) in unclaimed && NoForeignNeighbour(Coord(x, z), b.province)) ==>
        && owner == old(owner)[Coord(x, z) := b.province]
        && unclaimed == old(unclaimed) - {Coord(x, z)}
        && b' == b.(claimed := b.claimed + 1)
      ensures !old(Coord(x, z) in unclaimed && NoForeignNeighbour(Coord(x, z), b.province)) ==>
        owner == old(owner) && unclaimed == old(unclaimed) && b' == b
    {
      var c := Coord(x, z);
      if c !in unclaimed {
        return b;
      }
      var ns := Neighbours8(c);
      var i := 0;
      while i < 8
        invariant 0 <= i <= 8
        invariant forall k :: 0 <= k < i && ns[k] in owner ==> owner[ns[k]] == b.province
      {
        var n := ns[i];
        if n in owner && owner[n] != b.province {
          Neighbours8Exact(c, n);
          return b;
        }
        i := i + 1;
      }
      forall n | n in owner && InSquare(n, c, 1) && n != c ensures owner[n] == b.province {
        Neighbours8Exact(c, n);
      }
      owner := owner[c := b.province];
      b' := b.(claimed := b.claimed + 1);
      unclaimed := unclaimed - {c};
    }

    /** Moves the brush to (newX, newZ) exactly when that position validates, and
        says whether it moved. */
    method MoveBrushIfPossible(b: Brush, newX: int, newZ: int) returns (b': Brush, moved: bool)
      ensures moved == CanPaint(newX, newZ, b.province)
      ensures moved ==> b' == b.(position := Coord(newX, newZ))
      ensures !moved ==> b' == b
    {
      moved := ValidateBrushPosition(newX, newZ, b.province);
      b' := if moved then b.(position := Coord(newX, newZ)) else b;
    }

    /** The claim limit test: claimed area strictly above the configured limit. */
    predicate HasBrushHitClaimLimit(claimed: nat) {
      claimed * chunkArea > claimAreaLimit
    }

    /** One brush's turn in a painting cycle. An inactive brush is skipped. An active
        brush moves when its target validates and then stamps there; whether it moved
        or not, it is switched off exactly when it has hit the claim limit. */
    method CompetitionStep(b: Brush, move: RawMove) returns (b': Brush)
      requires Partitioned()
      modifies this`owner, this`unclaimed
      ensures Partitioned() && Universe() == old(Universe())
      ensures !b.active ==> b' == b && owner == old(owner) && unclaimed == old(unclaimed)
      ensures b.active ==>
        var t := MoveTarget(b, move, minMove);
        var f := PrefixCells(t, brushRadius, old(unclaimed));
        && b'.province == b.province
        && b'.active == !HasBrushHitClaimLimit(b'.claimed)
        && if old(CanPaint(t.x, t.z, b.province)) then
             && owner == AssignAll(old(owner), f, b.province)
             && unclaimed == old(unclaimed) - f
             && b'.position == t && b'.claimed == b.claimed + |f| && |f| == PrefixLen(t, brushRadius, old(unclaimed))
           else
             owner == old(owner) && unclaimed == old(unclaimed) && b'.position == b.position && b'.claimed == b.claimed
    {
      if !b.active {
        return b;
      }
      var t := MoveTarget(b, move, minMove);
      var moved;
      b', moved := MoveBrushIfPossible(b, t.x, t.z);
      if moved {
        b' := ClaimChunksCoveredByBrush(b');
      }
      if HasBrushHitClaimLimit(b'.claimed) {
        b' := b'.(active := false);
      } else {
        b' := b'.(active := true);
      }
    }

    /** Brush `i` stamps its home block at the start of the competition. */
    method HomeTurn(ghost o0: map<Coord, ProvinceId>, ghost order: seq<ProvinceId>, brushes: seq<Brush>, i: nat)
      returns (brushes': seq<Brush>)
      requires i < |brushes|
      requires Valid() && Extends(o0, owner) && BrushesAccount(o0, owner, order, brushes)
      requires forall j, k :: 0 <= j < k < |order| ==> order[j] != order[k]
      requires forall k :: 0 <= k < |order| ==> order[k] in provinces
      modifies this`owner, this`unclaimed
      ensures Valid() && Universe() == old(Universe()) && Extends(o0, owner)
      ensures BrushesAccount(o0, owner, order, brushes')
      ensures |brushes'| == |brushes| && forall k :: 0 <= k < |brushes| && k != i ==> brushes'[k] == brushes[k]
      ensures brushes'[i].active == brushes[i].active
    {
      var b := brushes[i];
      ghost var o, u := owner, unclaimed;
      var b' := ClaimChunksCoveredByBrush(b);
      ghost var f := PrefixCells(b.position, brushRadius, u);
      assert b.province == order[i] && b.province in provinces;
      StampConsistent(o, u, provinces, homeBlock, nextId, f, b.province);
      brushes' := brushes[i := b'];
      TurnKeepsAccount(o0, o, owner, order, brushes, i, b', f, true);
    }

    /** Brush `i` takes its competition move for this cycle. */
    method MoveTurn(ghost o0: map<Coord, ProvinceId>, ghost order: seq<ProvinceId>, brushes: seq<Brush>, i: nat, move: RawMove)
      returns (brushes': seq<Brush>)
      requires i < |brushes|
      requires Valid() && Extends(o0, owner) && BrushesAccount(o0, owner, order, brushes)
      requires forall j, k :: 0 <= j < k < |order| ==> order[j] != order[k]
      requires forall k :: 0 <= k < |order| ==> order[k] in provinces
      modifies this`owner, this`unclaimed
      ensures Valid() && Universe() == old(Universe()) && Extends(o0, owner)
      ensures BrushesAccount(o0, owner, order, brushes')
      ensures |brushes'| == |brushes| && forall k :: 0 <= k < |brushes| && k != i ==> brushes'[k] == brushes[k]
      ensures !brushes[i].active ==> brushes'[i] == brushes[i]
      ensures brushes[i].active ==> brushes'[i].active == !HasBrushHitClaimLimit(brushes'[i].claimed)
    {
      var b := brushes[i];
      ghost var o, u := owner, unclaimed;
      var b' := CompetitionStep(b, move);
      ghost var t := MoveTarget(b, move, minMove);
      ghost var f := PrefixCells(t, brushRadius, u);
      ghost var claimed := b.active && old(CanPaint(t.x, t.z, b.province));
      assert b.province == order[i] && b.province in provinces;
      if claimed {
        StampConsistent(o, u, provinces, homeBlock, nextId, f, b.province);
      }
      brushes' := brushes[i := b'];
      TurnKeepsAccount(o0, o, owner, order, brushes, i, b', f, claimed);
    }

    /** One painting cycle: every brush, in order, takes its turn with the move drawn
        for it. Afterwards every brush is active exactly when it is under the limit. */
    method PaintingCycle(ghost o0: map<Coord, ProvinceId>, ghost order: seq<ProvinceId>, brushes: seq<Brush>,
                         cycle: nat, draw: (nat, nat) -> RawMove)
      returns (brushes': seq<Brush>)
      requires Valid() && Extends(o0, owner) && BrushesAccount(o0, owner, order, brushes)
      requires forall j, k :: 0 <= j < k < |order| ==> order[j] != order[k]
      requires forall k :: 0 <= k < |order| ==> order[k] in provinces
      requires forall k :: 0 <= k < |brushes| && !brushes[k].active ==> HasBrushHitClaimLimit(brushes[k].claimed)
      modifies this`owner, this`unclaimed
      ensures Valid() && Universe() == old(Universe()) && Extends(o0, owner)
      ensures BrushesAccount(o0, owner, order, brushes')
      ensures forall k :: 0 <= k < |brushes'| ==> (brushes'[k].active <==> !HasBrushHitClaimLimit(brushes'[k].claimed))
    {
      brushes' := brushes;
      var i := 0;
      while i < |brushes'|
        invariant 0 <= i <= |brushes'|
        invariant Valid() && Universe() == old(Universe()) && Extends(o0, owner)
        invariant BrushesAccount(o0, owner, order, brushes')
        invariant forall k :: 0 <= k < |brushes'| && !brushes'[k].active ==> HasBrushHitClaimLimit(brushes'[k].claimed)
        invariant forall k :: 0 <= k < i ==> (brushes'[k].active <==> !HasBrushHitClaimLimit(brushes'[k].claimed))
      {
        brushes' := MoveTurn(o0, order, brushes', i, draw(cycle, i));
        i := i + 1;
      }
    }

    /** The brush competition. One brush per province (in the province set's iteration
        order) first stamps its home block; then, for `paintingCycles` cycles, every
        active brush takes a turn with the move drawn for it (`draw(cycle, brush)`).
        Brushes only take unclaimed cells, so every earlier owner is kept, and each
        brush's count equals the cells its province gained. Since the limit test runs
        after every turn, once a cycle has run a brush is active exactly when it is
        under the limit. */
    method ExecuteChunkClaimCompetition(draw: (nat, nat) -> RawMove) returns (ok: bool, brushes: seq<Brush>)
      requires Valid()
      modifies this`owner, this`unclaimed
      ensures ok
      ensures Valid() && Universe() == old(Universe()) && Extends(old(owner), owner)
      ensures forall p :: p in provinces <==> exists k :: 0 <= k < |brushes| && brushes[k].province == p
      ensures forall j, k :: 0 <= j < k < |brushes| ==> brushes[j].province != brushes[k].province
      ensures forall k :: 0 <= k < |brushes| ==> brushes[k].claimed == |Gained(old(owner), owner, brushes[k].province)|
      ensures paintingCycles > 0 ==>
        forall k :: 0 <= k < |brushes| ==> (brushes[k].active <==> !HasBrushHitClaimLimit(brushes[k].claimed))
    {
      ok := true;
      ghost var o0 := owner;
      var order := SetToSeq(provinces);
      brushes := [];
      var i := 0;
      while i < |order|
        invariant 0 <= i <= |order|
        invariant |brushes| == i
        invariant forall k :: 0 <= k < i ==> brushes[k] == NewBrush(order[k], homeBlock[order[k]])
      {
        brushes := brushes + [NewBrush(order[i], homeBlock[order[i]])];
        i := i + 1;
      }
      assert forall k :: 0 <= k < |order| ==> Gained(o0, owner, order[k]) == {};
      i := 0;
      while i < |brushes|
        invariant 0 <= i <= |brushes|
        invariant Valid() && Universe() == old(Universe()) && Extends(o0, owner)
        invariant BrushesAccount(o0, owner, order, brushes)
        invariant forall k :: 0 <= k < |brushes| ==> brushes[k].active
      {
        brushes := HomeTurn(o0, order, brushes, i);
        i := i + 1;
      }
      var cycle := 0;
      while cycle < paintingCycles
        invariant Valid() && Universe() == old(Universe()) && Extends(o0, owner)
        invariant BrushesAccount(o0, owner, order, brushes)
        invariant forall k :: 0 <= k < |brushes| && !brushes[k].active ==> HasBrushHitClaimLimit(brushes[k].claimed)
        invariant cycle > 0 ==> forall k :: 0 <= k < |brushes| ==> (brushes[k].active <==> !HasBrushHitClaimLimit(brushes[k].claimed))
      {
        brushes := PaintingCycle(o0, order, brushes, cycle, draw);
        cycle := cycle + 1;
      }
    }

    /** A new province's home block may be placed at `home`: no existing home block is
        nearer than the minimum distance, and a brush of the new province (which owns
        no cell yet) may stand there. */
    predicate HomeBlockAcceptable(home: Coord)
      reads this
    {
      && (forall q :: q in homeBlock ==> distance(home, homeBlock[q]) >= minHomeDistance as real)
      && CanPaint(home.x, home.z, nextId)
    }

    /** For the new province, the brush test asks that no on-map cell within the
        grown footprint be owned at all. */
    lemma FreshHomeCanPaint(home: Coord)
      requires Valid()
      ensures CanPaint(home.x, home.z, nextId) <==>
        forall c :: c in owner && mapBounds.Contains(c) ==> !InSquare(c, home, brushRadius + 3)
    {
      if CanPaint(home.x, home.z, nextId) {
        forall c | c in owner && mapBounds.Contains(c) ensures !InSquare(c, home, brushRadius + 3) {
          assert owner[c] in provinces;
        }
      }
    }

    method ValidatePositionOfProvinceHomeBlock(home: Coord) returns (ok: bool)
      requires Valid()
      ensures ok == HomeBlockAcceptable(home)
    {
      var todo := provinces;
      while todo != {}
        invariant todo <= provinces
        invariant forall q :: q in provinces - todo ==> distance(home, homeBlock[q]) >= minHomeDistance as real
        decreases |todo|
      {
        var q :| q in todo;
        if distance(home, homeBlock[q]) < minHomeDistance as real {
          return false;
        }
        todo := todo - {q};
      }
      ok := ValidateBrushPosition(home.x, home.z, nextId);
    }

    /** No position of `tries` is acceptable for a new home block. */
    predicate NoneAcceptable(tries: seq<Coord>)
      reads this
    {
      forall i :: 0 <= i < |tries| ==> !HomeBlockAcceptable(tries[i])
    }

    /** Tries the positions `tries` in order and returns the first acceptable one, or
        nothing after `MaxPlacementAttempts` failures. */
    method GenerateProvinceObject(tries: seq<Coord>) returns (r: Option<Coord>)
      requires Valid() && |tries| == MaxPlacementAttempts
      ensures r.None? <==> NoneAcceptable(tries)
      ensures r.Some? ==> HomeBlockAcceptable(r.value)
                          && exists i :: 0 <= i < |tries| && r.value == tries[i] && NoneAcceptable(tries[..i])
    {
      var i := 0;
      while i < MaxPlacementAttempts
        invariant 0 <= i <= MaxPlacementAttempts
        invariant NoneAcceptable(tries[..i])
      {
        var ok := ValidatePositionOfProvinceHomeBlock(tries[i]);
        if ok {
          return Some(tries[i]);
        }
        assert tries[..i + 1] == tries[..i] + [tries[i]];
        i := i + 1;
      }
      assert tries[..i] == tries;
      return None;
    }

    /** Registers a new province object with its home block; it owns no cell yet. */
    method AddProvince(home: Coord, ghost p0: set<ProvinceId>, ghost n0: ProvinceId, ghost created: nat)
      requires Valid() && nextId == n0 + created
      requires GeneratedSoFar(provinces, homeBlock, p0, n0, [], created)
      modifies this`provinces, this`homeBlock, this`nextId
      ensures Valid() && GeneratedSoFar(provinces, homeBlock, p0, n0, [], created + 1)
      ensures nextId == old(nextId) + 1
      ensures homeBlock == old(homeBlock)[old(nextId) := home]
    {
      PlacedGenerated(provinces, homeBlock, p0, n0, [], created, nextId, home);
      provinces := provinces + {nextId};
      homeBlock := homeBlock[nextId := home];
      nextId := nextId + 1;
    }

    /** Generates up to `idealNumberOfProvinces` province objects (province `k` tries the
        positions `tryAt(k, 0)`, `tryAt(k, 1)`, ...), stopping at the first that cannot
        be placed. Stopping early fails exactly when the province set, counted in full,
        is smaller than the ideal number less the allowed variance. */
    method GenerateProvinceObjects(idealNumberOfProvinces: int, allowedVariance: real, tryAt: (nat, nat) -> Coord)
      returns (ok: bool, ghost created: nat)
      requires Valid()
      modifies this`provinces, this`homeBlock, this`nextId
      ensures Valid() && GeneratedSoFar(provinces, homeBlock, old(provinces), old(nextId), [], created)
      ensures nextId == old(nextId) + created && created <= Max0(idealNumberOfProvinces)
      ensures created < idealNumberOfProvinces ==> NoneAcceptable(Attempts(tryAt, created))
      ensures ok <==> created == Max0(idealNumberOfProvinces)
                      || |provinces| as real >= idealNumberOfProvinces as real * (1.0 - allowedVariance)
    {
      ghost var p0, n0 := provinces, nextId;
      created := 0;
      var provinceIndex := 0;
      while provinceIndex < idealNumberOfProvinces
        invariant 0 <= provinceIndex <= Max0(idealNumberOfProvinces) && created == provinceIndex
        invariant Valid() && nextId == n0 + created
        invariant GeneratedSoFar(provinces, homeBlock, p0, n0, [], created)
      {
        var r := GenerateProvinceObject(Attempts(tryAt, provinceIndex));
        if r.None? {
          var minimumAllowedNumProvinces := idealNumberOfProvinces as real * (1.0 - allowedVariance);
          return |provinces| as real >= minimumAllowedNumProvinces, created;
        }
        AddProvince(r.value, p0, n0, created);
        created := created + 1;
        provinceIndex := provinceIndex + 1;
      }
      return true, created;
    }

    /** Removes province `p` from the province set and its cells from the ownership
        map; the cells are not returned to the unclaimed index. */
    method DeleteProvince(p: ProvinceId)
      modifies this`owner, this`provinces, this`homeBlock
      ensures provinces == old(provinces) - {p} && homeBlock == old(homeBlock) - {p}
      ensures owner == old(owner) - CellsOf(old(owner), p)
    {
      owner := owner - CellsOf(owner, p);
      provinces := provinces - {p};
      homeBlock := homeBlock - {p};
    }

    /** Deletes, from a snapshot of the province set, every province more than half of
        whose cells lie in the region; the other provinces keep their cells, and the
        deleted provinces' cells leave the map without becoming unclaimed. */
    method DeleteExistingProvincesWhichAreMostlyInSpecifiedArea() returns (ok: bool)
      requires Valid()
      modifies this`owner, this`provinces, this`homeBlock
      ensures ok && Valid()
      ensures provinces == old(provinces) - ProvincesMostlyInside(old(owner), old(provinces), regionBounds)
      ensures Dropped(old(owner), owner, ProvincesMostlyInside(old(owner), old(provinces), regionBounds))
      ensures forall p :: p in provinces ==> !MostlyInside(owner, p, regionBounds)
    {
      ok := true;
      ghost var o0, p0, h0 := owner, provinces, homeBlock;
      var todo := provinces;
      ghost var deleted: set<ProvinceId> := {};
      while todo != {}
        invariant todo <= p0 && deleted <= p0 - todo
        invariant deleted == ProvincesMostlyInside(o0, p0 - todo, regionBounds)
        invariant provinces == p0 - deleted && homeBlock == h0 - deleted
        invariant Dropped(o0, owner, deleted)
        decreases |todo|
      {
        var p :| p in todo;
        DropStep(o0, owner, deleted, p);
        var gone := MostlyInside(owner, p, regionBounds);
        SweepStep(o0, p0, todo, deleted, p, regionBounds, gone);
        if gone {
          DeleteProvince(p);
          HomeBlocksStep(h0, deleted, p);
          deleted := deleted + {p};
        }
        todo := todo - {p};
      }
      forall p | p in provinces ensures !MostlyInside(owner, p, regionBounds) {
        DropStep(o0, owner, deleted, p);
      }
      DroppedConsistent(o0, unclaimed, p0, h0, nextId, owner, deleted);
    }

    /** A painting run: delete the provinces mostly inside the region, generate the new
        province objects, then run the brush competition. It fails only when too few
        provinces could be generated. No cell is ever added to the map. */
    method ExecuteAction(idealNumberOfProvinces: int, allowedVariance: real, tryAt: (nat, nat) -> Coord,
                         draw: (nat, nat) -> RawMove) returns (ok: bool)
      requires Valid()
      modifies this`owner, this`unclaimed, this`provinces, this`homeBlock, this`nextId
      ensures Valid()
      ensures Universe() == old(Universe()) - CellsOfAll(old(owner), ProvincesMostlyInside(old(owner), old(provinces), regionBounds))
      ensures forall p :: p < old(nextId) ==> (p in provinces <==> p in old(provinces) && !MostlyInside(old(owner), p, regionBounds))
      ensures forall c :: c in old(owner) && !MostlyInside(old(owner), old(owner)[c], regionBounds) ==>
        c in owner && owner[c] == old(owner)[c]
      ensures !ok ==> idealNumberOfProvinces > 0
    {
      ghost var o0, u0, p0, n0 := owner, unclaimed, provinces, nextId;
      ghost var deleted := ProvincesMostlyInside(o0, p0, regionBounds);
      ok := DeleteExistingProvincesWhichAreMostlyInSpecifiedArea();
      DeletionUniverse(o0, u0, p0, owner, deleted, regionBounds);
      ghost var o1, p1 := owner, provinces;
      ghost var created;
      ok, created := GenerateProvinceObjects(idealNumberOfProvinces, allowedVariance, tryAt);
      assert forall p :: p < n0 ==> (p in provinces <==> p in p1);
      if !ok {
        return;
      }
      var brushes;
      ok, brushes := ExecuteChunkClaimCompetition(draw);
    }
  }

  /** Deleting the provinces mostly inside the region removes exactly their cells
      from the map, and keeps every other cell with its owner. */
  lemma DeletionUniverse(o0: map<Coord, ProvinceId>, u0: set<Coord>, p0: set<ProvinceId>, o1: map<Coord, ProvinceId>,
                         deleted: set<ProvinceId>, region: Bounds)
    requires deleted == ProvincesMostlyInside(o0, p0, region) && Dropped(o0, o1, deleted)
    requires o0.Keys !! u0 && forall c :: c in o0 ==> o0[c] in p0
    ensures o1.Keys + u0 == (o0.Keys + u0) - CellsOfAll(o0, deleted)
    ensures forall c :: c in o0 && !MostlyInside(o0, o0[c], region) ==> c in o1 && o1[c] == o0[c]
  {
  }

  /** Every brush belongs to the province at its place in `order`, and its count is
      the number of cells that province gained since `o0`. */
  ghost predicate BrushesAccount(o0: map<Coord, ProvinceId>, o: map<Coord, ProvinceId>, order: seq<ProvinceId>, brushes: seq<Brush>) {
    && |brushes| == |order|
    && (forall k :: 0 <= k < |brushes| ==> brushes[k].province == order[k])
    && (forall k :: 0 <= k < |brushes| ==> brushes[k].claimed == |Gained(o0, o, order[k])|)
  }

  /** A turn that stamps the unclaimed cells `f` for brush `i` (or, when not
      `claimed`, changes nothing) keeps every brush's account. */
  lemma TurnKeepsAccount(o0: map<Coord, ProvinceId>, o: map<Coord, ProvinceId>, o': map<Coord, ProvinceId>,
                         order: seq<ProvinceId>, brushes: seq<Brush>, i: nat, b': Brush, f: set<Coord>, claimed: bool)
    requires i < |brushes| && Extends(o0, o) && BrushesAccount(o0, o, order, brushes)
    requires forall j, k :: 0 <= j < k < |order| ==> order[j] != order[k]
    requires b'.province == brushes[i].province
    requires claimed ==> f !! o.Keys && o' == AssignAll(o, f, brushes[i].province) && b'.claimed == brushes[i].claimed + |f|
    requires !claimed ==> o' == o && b'.claimed == brushes[i].claimed
    ensures Extends(o0, o')
    ensures BrushesAccount(o0, o', order, brushes[i := b'])
  {
    if claimed {
      AccountAfterClaim(o0, o, f, order, brushes, i);
      ExtendsByAssign(o0, o, f, brushes[i].province);
    }
  }

  /** A province not yet deleted still has all its original cells, and deleting it
      too keeps the account. */
  lemma DropStep(o0: map<Coord, ProvinceId>, o: map<Coord, ProvinceId>, deleted: set<ProvinceId>, p: ProvinceId)
    requires Dropped(o0, o, deleted) && p !in deleted
    ensures CellsOf(o, p) == CellsOf(o0, p)
    ensures Dropped(o0, o - CellsOf(o, p), deleted + {p})
  {
    assert CellsOf(o, p) == CellsOf(o0, p);
  }

  /** Deleting provinces together with their cells keeps the bookkeeping consistent. */
  lemma DroppedConsistent(o0: map<Coord, ProvinceId>, u: set<Coord>, provinces: set<ProvinceId>,
                          homeBlock: map<ProvinceId, Coord>, nextId: ProvinceId,
                          o: map<Coord, ProvinceId>, deleted: set<ProvinceId>)
    requires ConsistentState(o0, u, provinces, homeBlock, nextId) && Dropped(o0, o, deleted)
    ensures ConsistentState(o, u, provinces - deleted, homeBlock - deleted, nextId)
  {
  }
}
