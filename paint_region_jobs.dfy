/** The region painting engine of the `jobs.province_generation` package:
    validates brush positions, stamps brush footprints into the cell -> province
    map, runs the brush competition, fills leftover cells to a fixpoint and
    deletes provinces. */
module JobsProvinceGeneration {
  import opened Objects

  /** The four cardinal neighbours, in the order the eligibility rule visits them. */
  function Cardinals(c: Coord): (ns: seq<Coord>)
    ensures |ns| == 4
  {
    [Coord(c.x, c.z - 1), Coord(c.x, c.z + 1), Coord(c.x + 1, c.z), Coord(c.x - 1, c.z)]
  }

  /** The four diagonal neighbours, in the order the eligibility rule visits them. */
  function Diagonals(c: Coord): (ns: seq<Coord>)
    ensures |ns| == 4
  {
    [Coord(c.x - 1, c.z - 1), Coord(c.x + 1, c.z - 1), Coord(c.x + 1, c.z + 1), Coord(c.x - 1, c.z + 1)]
  }

  /** Leftover cell `c` may be given to province `p`: it is on the map, some cardinal
      neighbour belongs to `p`, and every owned cardinal or diagonal neighbour belongs to `p`. */
  ghost predicate EligibleIn(o: map<Coord, ProvinceId>, bounds: Bounds, c: Coord, p: ProvinceId) {
    && bounds.Contains(c)
    && (exists i :: 0 <= i < 4 && Cardinals(c)[i] in o && o[Cardinals(c)[i]] == p)
    && (forall i :: 0 <= i < 4 && Cardinals(c)[i] in o ==> o[Cardinals(c)[i]] == p)
    && (forall i :: 0 <= i < 4 && Diagonals(c)[i] in o ==> o[Diagonals(c)[i]] == p)
  }

  ghost predicate Eligible(o: map<Coord, ProvinceId>, bounds: Bounds, c: Coord) {
    exists p :: EligibleIn(o, bounds, c, p)
  }

  /** At most one province is eligible for a cell. */
  lemma EligibleUnique(o: map<Coord, ProvinceId>, bounds: Bounds, c: Coord, p: ProvinceId, q: ProvinceId)
    requires EligibleIn(o, bounds, c, p) && EligibleIn(o, bounds, c, q)
    ensures p == q
  {
    var i :| 0 <= i < 4 && Cardinals(c)[i] in o && o[Cardinals(c)[i]] == p;
  }

  /** The province a cell is eligible for already owns one of its neighbours. */
  lemma EligibleOwnerOwnsNeighbour(o: map<Coord, ProvinceId>, bounds: Bounds, c: Coord, p: ProvinceId)
    requires EligibleIn(o, bounds, c, p)
    ensures p in o.Values
  {
    var i :| 0 <= i < 4 && Cardinals(c)[i] in o && o[Cardinals(c)[i]] == p;
  }

  /** Re-checking a pending cell after other cells of the same pass were assigned:
      if the cell is still eligible, it is eligible for the province recorded when
      the pass began. */
  lemma RecheckAgrees(o0: map<Coord, ProvinceId>, o1: map<Coord, ProvinceId>, bounds: Bounds, c: Coord, p: ProvinceId)
    requires Extends(o0, o1) && EligibleIn(o0, bounds, c, p) && Eligible(o1, bounds, c)
    ensures EligibleIn(o1, bounds, c, p)
  {
    var q :| EligibleIn(o1, bounds, c, q);
    var i :| 0 <= i < 4 && Cardinals(c)[i] in o0 && o0[Cardinals(c)[i]] == p;
    assert o1[Cardinals(c)[i]] == p;
  }

  /** A pending cell found ineligible during a pass stays ineligible as the pass
      assigns further cells: its recorded province still owns a cardinal neighbour,
      so a later eligibility could only be for that province, and would already
      have held. */
  lemma StaysIneligible(o0: map<Coord, ProvinceId>, o: map<Coord, ProvinceId>, o': map<Coord, ProvinceId>,
                        bounds: Bounds, c: Coord, p: ProvinceId)
    requires Extends(o0, o) && Extends(o, o') && EligibleIn(o0, bounds, c, p)
    requires !Eligible(o, bounds, c)
    ensures !Eligible(o', bounds, c)
  {
    if Eligible(o', bounds, c) {
      assert Extends(o0, o');
      RecheckAgrees(o0, o', bounds, c, p);
      var i :| 0 <= i < 4 && Cardinals(c)[i] in o0 && o0[Cardinals(c)[i]] == p;
      assert Cardinals(c)[i] in o && o[Cardinals(c)[i]] == p;
      assert EligibleIn(o, bounds, c, p);
      assert false;
    }
  }

  /** What holds part-way through a pass over the pending assignments `pending`
      (started from map `o0` and unclaimed index `u0`), with `todo` still to visit. */
  ghost predicate PassInv(o0: map<Coord, ProvinceId>, u0: set<Coord>, o: map<Coord, ProvinceId>, u: set<Coord>,
                          pending: map<Coord, ProvinceId>, todo: set<Coord>, bounds: Bounds) {
    && todo <= pending.Keys
    && Extends(o0, o)
    && o.Keys - o0.Keys <= pending.Keys - todo
    && (forall c :: c in o.Keys - o0.Keys ==> o[c] == pending[c])
    && u == u0 - (o.Keys - o0.Keys)
    && (forall c :: c in pending.Keys - todo && c !in o ==> !Eligible(o, bounds, c))
    && (todo == pending.Keys ==> o == o0)
    && (todo != pending.Keys ==> o.Keys != o0.Keys)
  }

  /** Visiting pending cell `c`: it is still unclaimed, and assigning it exactly when
      it is still eligible keeps the pass invariant. */
  lemma PassStep(o0: map<Coord, ProvinceId>, u0: set<Coord>, o: map<Coord, ProvinceId>, u: set<Coord>,
                 pending: map<Coord, ProvinceId>, todo: set<Coord>, bounds: Bounds, c: Coord, assign: bool)
    requires PassInv(o0, u0, o, u, pending, todo, bounds) && c in todo
    requires o0.Keys !! u0 && pending.Keys <= u0
    requires forall d :: d in pending ==> EligibleIn(o0, bounds, d, pending[d])
    requires assign <==> Eligible(o, bounds, c)
    ensures c in u && c !in o
    ensures assign ==> PassInv(o0, u0, o[c := pending[c]], u - {c}, pending, todo - {c}, bounds)
    ensures !assign ==> PassInv(o0, u0, o, u, pending, todo - {c}, bounds)
  {
    if assign {
      var o' := o[c := pending[c]];
      assert o'.Keys - o0.Keys == (o.Keys - o0.Keys) + {c};
      forall d | d in pending.Keys - (todo - {c}) && d !in o'
        ensures !Eligible(o', bounds, d)
      {
        StaysIneligible(o0, o, o', bounds, d, pending[d]);
      }
    }
  }

  /** At the end of a pass: only pending cells were assigned, each to its recorded
      province; the rest are no longer eligible; and a non-empty pass assigned at
      least one cell, so the unclaimed index shrank. */
  lemma PassDone(o0: map<Coord, ProvinceId>, u0: set<Coord>, o: map<Coord, ProvinceId>, u: set<Coord>,
                 pending: map<Coord, ProvinceId>, bounds: Bounds)
    requires PassInv(o0, u0, o, u, pending, {}, bounds) && pending.Keys <= u0
    ensures o.Keys - o0.Keys <= pending.Keys
    ensures forall c :: c in pending && c !in o ==> !Eligible(o, bounds, c)
    ensures pending != map[] ==> |u| < |u0|
  {
    if pending != map[] {
      assert !(o.Keys <= o0.Keys);
      var c :| c in o.Keys && c !in o0.Keys;
      assert c in o.Keys - o0.Keys;
      assert c in pending.Keys;
      assert u < u0;
    }
  }

  /** One step of claiming a batch: moving `c` from the pending part of the batch
      to the claimed part. */
  lemma ClaimStep(o0: map<Coord, ProvinceId>, u0: set<Coord>, cells: set<Coord>, todo: set<Coord>, c: Coord, p: ProvinceId)
    requires c in todo && todo <= cells
    ensures AssignAll(o0, cells - todo, p)[c := p] == AssignAll(o0, cells - (todo - {c}), p)
    ensures (u0 - (cells - todo)) - {c} == u0 - (cells - (todo - {c}))
    ensures |todo - {c}| == |todo| - 1
  {
    assert cells - (todo - {c}) == (cells - todo) + {c};
    AssignAllStep(o0, cells - todo, c, p);
  }

  /** `o` and `u` are `o0` and `u0` after deleting the provinces in `deleted`: their
      cells left the map and joined the unclaimed index; all other cells kept their owners. */
  ghost predicate Survivors(o0: map<Coord, ProvinceId>, u0: set<Coord>, o: map<Coord, ProvinceId>, u: set<Coord>,
                            deleted: set<ProvinceId>) {
    && Dropped(o0, o, deleted)
    && u == u0 + CellsOfAll(o0, deleted)
  }

  /** Deleting provinces loses no cell: each is either still owned or unclaimed. */
  lemma SurvivorsKeepUniverse(o0: map<Coord, ProvinceId>, u0: set<Coord>, o: map<Coord, ProvinceId>, u: set<Coord>,
                              deleted: set<ProvinceId>)
    requires Survivors(o0, u0, o, u, deleted)
    ensures o.Keys + u == o0.Keys + u0
  {
  }

  /** Deleting provinces (and returning their cells) keeps the bookkeeping consistent. */
  lemma SurvivorsConsistent(o0: map<Coord, ProvinceId>, u0: set<Coord>, provinces: set<ProvinceId>,
                            homeBlock: map<ProvinceId, Coord>, nextId: ProvinceId,
                            o: map<Coord, ProvinceId>, u: set<Coord>, deleted: set<ProvinceId>)
    requires ConsistentState(o0, u0, provinces, homeBlock, nextId) && Survivors(o0, u0, o, u, deleted)
    ensures ConsistentState(o, u, provinces - deleted, homeBlock - deleted, nextId)
  {
  }

  /** A province placed with the next identity, claiming cells that were unclaimed,
      keeps the bookkeeping consistent once it is registered. */
  lemma PlacedConsistent(o: map<Coord, ProvinceId>, u: set<Coord>, provinces: set<ProvinceId>,
                         homeBlock: map<ProvinceId, Coord>, n: ProvinceId, f: set<Coord>, home: Coord)
    requires ConsistentState(o, u, provinces, homeBlock, n) && f <= u
    ensures ConsistentState(AssignAll(o, f, n), u - f, provinces + {n}, homeBlock[n := home], n + 1)
  {
  }

  /** A surviving province still has all its original cells, and deleting it too
      keeps the account. */
  lemma DeleteStep(o0: map<Coord, ProvinceId>, u0: set<Coord>, o: map<Coord, ProvinceId>, u: set<Coord>,
                   deleted: set<ProvinceId>, p: ProvinceId)
    requires Survivors(o0, u0, o, u, deleted) && p !in deleted
    ensures CellsOf(o, p) == CellsOf(o0, p)
    ensures Survivors(o0, u0, o - CellsOf(o, p), u + CellsOf(o, p), deleted + {p})
  {
    assert CellsOf(o, p) == CellsOf(o0, p);
    assert CellsOfAll(o0, deleted + {p}) == CellsOfAll(o0, deleted) + CellsOf(o0, p);
  }

  /** The provinces of `provinces` that own no cell in `o`. */
  function EmptyProvinces(o: map<Coord, ProvinceId>, provinces: set<ProvinceId>): set<ProvinceId> {
    set p | p in provinces && |CellsOf(o, p)| == 0
  }

  class PaintRegionAction {
    /** The whole map, in chunks (taken from the first region). */
    const mapBounds: Bounds
    /** The region being painted, in chunks. */
    const regionBounds: Bounds
    const brushRadius: nat
    const minMove: int
    const maxMove: int
    /** The area of one chunk (side length squared). */
    const chunkArea: nat
    const claimAreaLimit: int
    /** Number of painting cycles. */
    const maxBrushMoves: nat

    /** The data holder's cell -> province map. */
    var owner: map<Coord, ProvinceId>
    /** The unclaimed-cell index. */
    var unclaimed: set<Coord>
    /** The data holder's province set, with each province's home block. */
    var provinces: set<ProvinceId>
    var homeBlock: map<ProvinceId, Coord>
    /** The identity the next new province object receives. */
    var nextId: ProvinceId

    /** No cell is both owned and unclaimed. */
    ghost predicate Partitioned()
      reads this
    {
      owner.Keys !! unclaimed
    }

    ghost predicate Valid()
      reads this
    {
      ConsistentState(owner, unclaimed, provinces, homeBlock, nextId)
    }

    /** The set of cells covered by the ownership map or the unclaimed index. */
    ghost function Universe(): set<Coord>
      reads this
    {
      owner.Keys + unclaimed
    }

    constructor (mapTopLeft: Coord, mapBottomRight: Coord, regionTopLeft: Coord, regionBottomRight: Coord,
                 brushRadius: nat, minMove: int, maxMove: int,
                 chunkSide: nat, claimAreaLimit: int, maxBrushMoves: nat,
                 owner: map<Coord, ProvinceId>, unclaimed: set<Coord>, homeBlock: map<ProvinceId, Coord>, nextId: ProvinceId)
      requires chunkSide > 0
      requires owner.Keys !! unclaimed
      requires forall c :: c in owner ==> owner[c] in homeBlock
      requires forall p :: p in homeBlock ==> p < nextId
      ensures Valid()
      ensures this.mapBounds == ChunkBounds(mapTopLeft, mapBottomRight, chunkSide)
      ensures this.regionBounds == ChunkBounds(regionTopLeft, regionBottomRight, chunkSide)
      ensures this.brushRadius == brushRadius && this.minMove == minMove && this.maxMove == maxMove
      ensures this.chunkArea == chunkSide * chunkSide && this.claimAreaLimit == claimAreaLimit
      ensures this.maxBrushMoves == maxBrushMoves
      ensures this.owner == owner && this.unclaimed == unclaimed && this.homeBlock == homeBlock
      ensures this.provinces == homeBlock.Keys && this.nextId == nextId
    {
      this.mapBounds := ChunkBounds(mapTopLeft, mapBottomRight, chunkSide);
      this.regionBounds := ChunkBounds(regionTopLeft, regionBottomRight, chunkSide);
      this.brushRadius := brushRadius;
      this.minMove := minMove;
      this.maxMove := maxMove;
      this.chunkArea := chunkSide * chunkSide;
      this.claimAreaLimit := claimAreaLimit;
      this.maxBrushMoves := maxBrushMoves;
      this.owner := owner;
      this.unclaimed := unclaimed;
      this.homeBlock := homeBlock;
      this.provinces := homeBlock.Keys;
      this.nextId := nextId;
    }

    /** A brush of province `p` may stand at (x, z): the centre is on the map and every
        cell of the footprint grown by one (side 2r+3) is unowned or owned by `p`. */
    predicate CanPaint(x: int, z: int, p: ProvinceId)
      reads this
    {
      && mapBounds.Contains(Coord(x, z))
      && forall c :: c in owner && InSquare(c, Coord(x, z), brushRadius + 1) ==> owner[c] == p
    }

    /** A brand-new province may be placed at `c`: on the map, and nothing owned near it. */
    predicate FreeAt(c: Coord)
      reads this
    {
      && mapBounds.Contains(c)
      && forall n :: n in owner ==> !InSquare(n, c, brushRadius + 1)
    }

    lemma FreshProvinceCanPaint(c: Coord)
      requires Valid()
      ensures CanPaint(c.x, c.z, nextId) <==> FreeAt(c)
    {
      if CanPaint(c.x, c.z, nextId) {
        forall n | n in owner ensures !InSquare(n, c, brushRadius + 1) {
          assert owner[n] in provinces;
        }
      }
    }

    method ValidateBrushPosition(x: int, z: int, p: ProvinceId) returns (ok: bool)
      ensures ok == CanPaint(x, z, p)
      ensures !mapBounds.Contains(Coord(x, z)) ==> !ok
    {
      if x < mapBounds.minX || x > mapBounds.maxX || z < mapBounds.minZ || z > mapBounds.maxZ {
        return false;
      }
      var r := brushRadius as int;
      var cx := x - r - 1;
      while cx <= x + r + 1
        invariant x - r - 1 <= cx <= x + r + 2
        invariant forall c :: c in owner && InSquare(c, Coord(x, z), r + 1) && c.x < cx ==> owner[c] == p
      {
        var cz := z - r - 1;
        while cz <= z + r + 1
          invariant z - r - 1 <= cz <= z + r + 2
          invariant forall c :: c in owner && InSquare(c, Coord(x, z), r + 1) && (c.x < cx || (c.x == cx && c.z < cz)) ==> owner[c] == p
        {
          var c := Coord(cx, cz);
          if c in owner && owner[c] != p {
            assert InSquare(c, Coord(x, z), r + 1);
            return false;
          }
          cz := cz + 1;
        }
        cx := cx + 1;
      }
      return true;
    }

    /** The first half of a claim: the unclaimed cells under a brush at `centre`,
        gathered by scanning the footprint square. */
    method CollectUnclaimedInFootprint(centre: Coord) returns (claimedCoords: set<Coord>)
      ensures claimedCoords == Footprint(unclaimed, centre, brushRadius)
    {
      var r := brushRadius as int;
      claimedCoords := {};
      var x := centre.x - r;
      while x <= centre.x + r
        invariant centre.x - r <= x <= centre.x + r + 1
        invariant forall c :: c in claimedCoords <==> c in unclaimed && InSquare(c, centre, r) && c.x < x
      {
        var z := centre.z - r;
        while z <= centre.z + r
          invariant centre.z - r <= z <= centre.z + r + 1
          invariant forall c :: c in claimedCoords <==>
            c in unclaimed && InSquare(c, centre, r) && (c.x < x || (c.x == x && c.z < z))
        {
          if Coord(x, z) in unclaimed {
            claimedCoords := claimedCoords + {Coord(x, z)};
          }
          z := z + 1;
        }
        x := x + 1;
      }
    }

    /** Stamps the brush: when its position validates, every unclaimed footprint cell
        (side 2r+1) goes to the brush's province and leaves the unclaimed index, and the
        brush's count rises by that number; otherwise nothing changes. */
    method ClaimChunksCoveredByBrush(b: Brush) returns (b': Brush)
      requires Partitioned()
      modifies this`owner, this`unclaimed
      ensures Partitioned() && Universe() == old(Universe())
      ensures var f := Footprint(old(unclaimed), b.position, brushRadius);
        if old(CanPaint(b.position.x, b.position.z, b.province)) then
          && owner == AssignAll(old(owner), f, b.province)
          && unclaimed == old(unclaimed) - f
          && b' == b.(claimed := b.claimed + |f|)
        else
          owner == old(owner) && unclaimed == old(unclaimed) && b' == b
    {
      var valid := ValidateBrushPosition(b.position.x, b.position.z, b.province);
      if !valid {
        return b;
      }
      var claimedCoords := CollectUnclaimedInFootprint(b.position);
      var n := ClaimCoords(claimedCoords, b.province);
      b' := b.(claimed := b.claimed + n);
    }

    /** The second half of a claim: each collected cell is given to `p` in the
        ownership map and removed from the unclaimed index; returns how many. */
    method ClaimCoords(cells: set<Coord>, p: ProvinceId) returns (n: nat)
      requires cells <= unclaimed
      modifies this`owner, this`unclaimed
      ensures owner == AssignAll(old(owner), cells, p)
      ensures unclaimed == old(unclaimed) - cells
      ensures n == |cells|
    {
      n := 0;
      var todo := cells;
      while todo != {}
        invariant todo <= cells
        invariant owner == AssignAll(old(owner), cells - todo, p)
        invariant unclaimed == old(unclaimed) - (cells - todo)
        invariant n == |cells| - |todo|
        decreases |todo|
      {
        var c :| c in todo;
        ClaimStep(old(owner), old(unclaimed), cells, todo, c, p);
        owner := owner[c := p];
        n := n + 1;
        unclaimed := unclaimed - {c};
        todo := todo - {c};
      }
      assert cells - todo == cells;
    }

    /** The claim limit test: claimed area strictly above the configured limit. */
    predicate HasBrushHitClaimLimit(claimed: nat) {
      claimed * chunkArea > claimAreaLimit
    }

    /** One brush's turn in a painting cycle. An inactive brush is skipped. An active
        brush whose target validates moves there, stamps its footprint and is switched
        off once it has hit the claim limit; a target that does not validate leaves
        everything as it was. */
    method CompetitionStep(b: Brush, move: RawMove) returns (b': Brush)
      requires Partitioned()
      modifies this`owner, this`unclaimed
      ensures Partitioned() && Universe() == old(Universe())
      ensures !b.active ==> b' == b && owner == old(owner) && unclaimed == old(unclaimed)
      ensures b.active ==>
        var t := MoveTarget(b, move, minMove);
        var f := Footprint(old(unclaimed), t, brushRadius);
        if old(CanPaint(t.x, t.z, b.province)) then
          && owner == AssignAll(old(owner), f, b.province)
          && unclaimed == old(unclaimed) - f
          && b'.province == b.province && b'.position == t && b'.claimed == b.claimed + |f|
          && b'.active == !HasBrushHitClaimLimit(b'.claimed)
        else
          b' == b && owner == old(owner) && unclaimed == old(unclaimed)
    {
      if !b.active {
        return b;
      }
      var t := MoveTarget(b, move, minMove);
      var ok := ValidateBrushPosition(t.x, t.z, b.province);
      b' := b;
      if ok {
        b' := b'.(position := t);
        b' := ClaimChunksCoveredByBrush(b');
        if HasBrushHitClaimLimit(b'.claimed) {
          b' := b'.(active := false);
        }
      }
    }

    /** The eligibility rule as the source evaluates it: the cell must be on the map;
        the cardinal neighbours are scanned, the first owned one fixing the candidate
        and any other owner ruling the cell out; with no owned cardinal there is no
        candidate; then every owned diagonal must belong to the candidate. */
    method GetProvinceIfEligible(c: Coord) returns (r: Option<ProvinceId>)
      ensures r.Some? ==> EligibleIn(owner, mapBounds, c, r.value)
      ensures r.None? ==> !Eligible(owner, mapBounds, c)
    {
      if c.x < mapBounds.minX || c.x > mapBounds.maxX || c.z < mapBounds.minZ || c.z > mapBounds.maxZ {
        return None;
      }
      var cardinals := Cardinals(c);
      var result: Option<ProvinceId> := None;
      var i := 0;
      while i < 4
        invariant 0 <= i <= 4
        invariant result.None? ==> forall k :: 0 <= k < i ==> cardinals[k] !in owner
        invariant result.Some? ==> exists k :: 0 <= k < i && cardinals[k] in owner && owner[cardinals[k]] == result.value
        invariant result.Some? ==> forall k :: 0 <= k < i && cardinals[k] in owner ==> owner[cardinals[k]] == result.value
      {
        var n := cardinals[i];
        if n in owner {
          if result.None? {
            result := Some(owner[n]);
          } else if owner[n] != result.value {
            NotEligibleForTwo(c, i, result.value);
            return None;
          }
        }
        i := i + 1;
      }
      if result.None? {
        return None;
      }
      var diagonals := Diagonals(c);
      i := 0;
      while i < 4
        invariant 0 <= i <= 4
        invariant forall k :: 0 <= k < i && diagonals[k] in owner ==> owner[diagonals[k]] == result.value
      {
        var n := diagonals[i];
        if n in owner && owner[n] != result.value {
          forall q ensures !EligibleIn(owner, mapBounds, c, q) {
          }
          return None;
        }
        i := i + 1;
      }
      return result;
    }

    /** Two different owners among the cardinal neighbours rule the cell out. */
    lemma NotEligibleForTwo(c: Coord, i: nat, p: ProvinceId)
      requires i < 4 && Cardinals(c)[i] in owner && owner[Cardinals(c)[i]] != p
      requires exists k :: 0 <= k < i && Cardinals(c)[k] in owner && owner[Cardinals(c)[k]] == p
      ensures !Eligible(owner, mapBounds, c)
    {
      forall q ensures !EligibleIn(owner, mapBounds, c, q) {
      }
    }

    /** No unclaimed cell is eligible for any province. */
    ghost predicate Converged()
      reads this
    {
      forall c :: c in unclaimed ==> !Eligible(owner, mapBounds, c)
    }

    /** The pending assignments of one pass: exactly the eligible unclaimed cells,
        each with the province it is eligible for. */
    method RebuildPendingCoordProvinceAssignments() returns (pending: map<Coord, ProvinceId>)
      ensures forall c :: c in pending <==> c in unclaimed && Eligible(owner, mapBounds, c)
      ensures forall c :: c in pending ==> EligibleIn(owner, mapBounds, c, pending[c])
    {
      pending := map[];
      var todo := unclaimed;
      while todo != {}
        invariant todo <= unclaimed
        invariant forall c :: c in pending <==> c in unclaimed - todo && Eligible(owner, mapBounds, c)
        invariant forall c :: c in pending ==> EligibleIn(owner, mapBounds, c, pending[c])
        decreases |todo|
      {
        var c :| c in todo;
        var r := GetProvinceIfEligible(c);
        if r.Some? {
          pending := pending[c := r.value];
        }
        todo := todo - {c};
      }
    }

    /** Applies one pass of pending assignments: each pending cell is re-checked
        against the current map and, if still eligible, given its recorded province.
        Only pending cells are assigned; every pending cell left unassigned is no
        longer eligible; a non-empty pass assigns at least one cell. */
    method ApplyPendingAssignments(pending: map<Coord, ProvinceId>)
      requires Valid()
      requires forall c :: c in pending ==> c in unclaimed && EligibleIn(owner, mapBounds, c, pending[c])
      modifies this`owner, this`unclaimed
      ensures Valid() && Universe() == old(Universe()) && Extends(old(owner), owner)
      ensures owner.Keys - old(owner).Keys <= pending.Keys
      ensures forall c :: c in owner.Keys - old(owner).Keys ==> owner[c] == pending[c]
      ensures unclaimed == old(unclaimed) - (owner.Keys - old(owner).Keys)
      ensures forall c :: c in pending && c !in owner ==> !Eligible(owner, mapBounds, c)
      ensures pending != map[] ==> |unclaimed| < |old(unclaimed)|
    {
      var todo := pending.Keys;
      while todo != {}
        invariant Valid() && Universe() == old(Universe()) && Extends(old(owner), owner)
        invariant PassInv(old(owner), old(unclaimed), owner, unclaimed, pending, todo, mapBounds)
        decreases |todo|
      {
        var c :| c in todo;
        var r := GetProvinceIfEligible(c);
        PassStep(old(owner), old(unclaimed), owner, unclaimed, pending, todo, mapBounds, c, r.Some?);
        if r.Some? {
          assert pending[c] in provinces by {
            EligibleOwnerOwnsNeighbour(old(owner), mapBounds, c, pending[c]);
            var n :| n in old(owner) && old(owner)[n] == pending[c];
          }
          ClaimLeftoverCell(c, pending[c]);
        }
        todo := todo - {c};
      }
      PassDone(old(owner), old(unclaimed), owner, unclaimed, pending, mapBounds);
    }

    /** Gives leftover cell `c` to province `p` and removes it from the unclaimed index. */
    method ClaimLeftoverCell(c: Coord, p: ProvinceId)
      requires Valid() && c in unclaimed && p in provinces
      modifies this`owner, this`unclaimed
      ensures owner == old(owner)[c := p] && unclaimed == old(unclaimed) - {c}
      ensures Valid() && Universe() == old(Universe())
    {
      owner := owner[c := p];
      unclaimed := unclaimed - {c};
    }

    /** Fills leftover cells pass by pass until a pass finds nothing pending. Every
        pass that finds something claims at least one cell, so the loop ends, and it
        ends with no unclaimed cell eligible for any province. Owned cells keep their
        owners; an already converged map is left as it is. */
    method AssignUnclaimedCoordsToProvinces() returns (ok: bool)
      requires Valid()
      modifies this`owner, this`unclaimed
      ensures ok
      ensures Valid() && Universe() == old(Universe()) && Extends(old(owner), owner)
      ensures Converged()
      ensures old(Converged()) ==> owner == old(owner) && unclaimed == old(unclaimed)
    {
      while true
        invariant Valid() && Universe() == old(Universe()) && Extends(old(owner), owner)
        invariant old(Converged()) ==> owner == old(owner) && unclaimed == old(unclaimed)
        decreases |unclaimed|
      {
        var pending := RebuildPendingCoordProvinceAssignments();
        if pending == map[] {
          break;
        }
        assert !Converged() by {
          var c :| c in pending;
        }
        ApplyPendingAssignments(pending);
      }
      return true;
    }

    /** Removes province `p` from the province set; its cells go back to the
        unclaimed index. */
    method DeleteProvince(p: ProvinceId)
      modifies this`owner, this`unclaimed, this`provinces, this`homeBlock
      ensures provinces == old(provinces) - {p} && homeBlock == old(homeBlock) - {p}
      ensures owner == old(owner) - CellsOf(old(owner), p)
      ensures unclaimed == old(unclaimed) + CellsOf(old(owner), p)
    {
      var cells := CellsOf(owner, p);
      owner := owner - cells;
      unclaimed := unclaimed + cells;
      provinces := provinces - {p};
      homeBlock := homeBlock - {p};
    }

    /** The per-province step of the sweep: deletes `p` when more than half of its
        cells lie in the region. */
    method DeleteIfMostlyInside(p: ProvinceId) returns (gone: bool)
      modifies this`owner, this`unclaimed, this`provinces, this`homeBlock
      ensures gone == old(MostlyInside(owner, p, regionBounds))
      ensures gone ==> && provinces == old(provinces) - {p} && homeBlock == old(homeBlock) - {p}
                       && owner == old(owner) - CellsOf(old(owner), p)
                       && unclaimed == old(unclaimed) + CellsOf(old(owner), p)
      ensures !gone ==> && provinces == old(provinces) && homeBlock == old(homeBlock)
                        && owner == old(owner) && unclaimed == old(unclaimed)
    {
      gone := MostlyInside(owner, p, regionBounds);
      if gone {
        DeleteProvince(p);
      }
    }

    /** Deletes, from a snapshot of the province set, every province more than half of
        whose cells lie in the region being painted; all other provinces survive with
        their cells, and the deleted provinces' cells become unclaimed. */
    method DeleteExistingProvincesWhichAreMostlyInSpecifiedArea() returns (ok: bool)
      requires Valid()
      modifies this`owner, this`unclaimed, this`provinces, this`homeBlock
      ensures ok
      ensures Valid() && Universe() == old(Universe())
      ensures provinces == old(provinces) - ProvincesMostlyInside(old(owner), old(provinces), regionBounds)
      ensures Survivors(old(owner), old(unclaimed), owner, unclaimed,
                        ProvincesMostlyInside(old(owner), old(provinces), regionBounds))
      ensures forall p :: p in provinces ==> !MostlyInside(owner, p, regionBounds)
    {
      ok := true;
      ghost var o0, u0, p0, h0 := owner, unclaimed, provinces, homeBlock;
      var todo := provinces;
      ghost var deleted: set<ProvinceId> := {};
      while todo != {}
        invariant todo <= p0 && deleted <= p0 - todo
        invariant deleted == ProvincesMostlyInside(o0, p0 - todo, regionBounds)
        invariant provinces == p0 - deleted && homeBlock == h0 - deleted
        invariant Survivors(o0, u0, owner, unclaimed, deleted)
        decreases |todo|
      {
        var p :| p in todo;
        DeleteStep(o0, u0, owner, unclaimed, deleted, p);
        var gone := DeleteIfMostlyInside(p);
        SweepStep(o0, p0, todo, deleted, p, regionBounds, gone);
        if gone {
          HomeBlocksStep(h0, deleted, p);
          deleted := deleted + {p};
        }
        todo := todo - {p};
      }
      forall p | p in provinces ensures !MostlyInside(owner, p, regionBounds) {
        DeleteStep(o0, u0, owner, unclaimed, deleted, p);
      }
      SurvivorsKeepUniverse(o0, u0, owner, unclaimed, deleted);
      SurvivorsConsistent(o0, u0, p0, h0, nextId, owner, unclaimed, deleted);
    }

    /** Deletes every province that owns no cell; nothing else changes. */
    method DeleteEmptyProvinces() returns (ok: bool)
      requires Valid()
      modifies this`owner, this`unclaimed, this`provinces, this`homeBlock
      ensures ok
      ensures Valid() && owner == old(owner) && unclaimed == old(unclaimed)
      ensures provinces == old(provinces) - EmptyProvinces(old(owner), old(provinces))
      ensures forall p :: p in provinces ==> |CellsOf(owner, p)| > 0
    {
      ok := true;
      var toDelete := CollectEmptyProvinces();
      var rest := toDelete;
      while rest != {}
        invariant rest <= toDelete
        invariant Valid() && owner == old(owner) && unclaimed == old(unclaimed)
        invariant provinces == old(provinces) - (toDelete - rest)
        decreases |rest|
      {
        var p :| p in rest;
        RemoveNoCells(owner, unclaimed, p);
        SurvivorsConsistent(owner, unclaimed, provinces, homeBlock, nextId, owner, unclaimed, {p});
        DeleteProvince(p);
        rest := rest - {p};
      }
    }

    /** The first half of the empty-province sweep: marks the provinces without cells. */
    method CollectEmptyProvinces() returns (toDelete: set<ProvinceId>)
      ensures toDelete == EmptyProvinces(owner, provinces)
    {
      toDelete := {};
      var todo := provinces;
      while todo != {}
        invariant todo <= provinces
        invariant forall p :: p in toDelete <==> p in provinces - todo && |CellsOf(owner, p)| == 0
        decreases |todo|
      {
        var p :| p in todo;
        if |CellsOf(owner, p)| == 0 {
          toDelete := toDelete + {p};
        }
        todo := todo - {p};
      }
    }

    /** Places a new province with its home block at `home`, provided a brush of the
        new province may stand there (which, for a province owning nothing yet, means
        nothing is owned near `home`). The province takes the next identity and claims
        the unclaimed cells under its brush; it is not yet in the province set. */
    method GenerateProtectedProvince(home: Coord) returns (r: Option<ProvinceId>)
      requires Valid()
      modifies this`owner, this`unclaimed, this`nextId
      ensures Partitioned() && Universe() == old(Universe())
      ensures r.Some? <==> old(FreeAt(home))
      ensures r.None? ==> owner == old(owner) && unclaimed == old(unclaimed) && nextId == old(nextId)
      ensures r.Some? ==>
        var f := Footprint(old(unclaimed), home, brushRadius);
        && r.value == old(nextId) && nextId == old(nextId) + 1
        && owner == AssignAll(old(owner), f, r.value) && unclaimed == old(unclaimed) - f
      ensures r.Some? ==> ConsistentState(owner, unclaimed, provinces + {r.value}, homeBlock[r.value := home], nextId)
    {
      var p := nextId;
      FreshProvinceCanPaint(home);
      var ok := ValidateBrushPosition(home.x, home.z, p);
      if !ok {
        return None;
      }
      PlacedConsistent(owner, unclaimed, provinces, homeBlock, p, Footprint(unclaimed, home, brushRadius), home);
      nextId := nextId + 1;
      var b := ClaimChunksCoveredByBrush(NewBrush(p, home));
      return Some(p);
    }

    /** Tries the drawn positions in turn and places the province at the first one
        where a new province may stand; gives up after `MaxPlacementAttempts` tries. */
    method GenerateRandomlyPlacedProvince(tries: seq<Coord>) returns (r: Option<ProvinceId>, home: Coord)
      requires Valid() && |tries| == MaxPlacementAttempts
      modifies this`owner, this`unclaimed, this`nextId
      ensures Partitioned() && Universe() == old(Universe())
      ensures r.None? <==> old(NoneFree(tries))
      ensures r.None? ==> owner == old(owner) && unclaimed == old(unclaimed) && nextId == old(nextId)
      ensures r.Some? ==>
        && (exists i :: 0 <= i < |tries| && home == tries[i] && forall k :: 0 <= k < i ==> !old(FreeAt(tries[k])))
        && old(FreeAt(home))
        && var f := Footprint(old(unclaimed), home, brushRadius);
        && r.value == old(nextId) && nextId == old(nextId) + 1
        && owner == AssignAll(old(owner), f, r.value) && unclaimed == old(unclaimed) - f
      ensures r.Some? ==> ConsistentState(owner, unclaimed, provinces + {r.value}, homeBlock[r.value := home], nextId)
    {
      var i := 0;
      while i < |tries|
        invariant 0 <= i <= |tries|
        invariant owner == old(owner) && unclaimed == old(unclaimed) && nextId == old(nextId)
        invariant forall k :: 0 <= k < i ==> !FreeAt(tries[k])
      {
        r := GenerateProtectedProvince(tries[i]);
        if r.Some? {
          home := tries[i];
          return;
        }
        i := i + 1;
      }
      r, home := None, Coord(0, 0);
    }

    /** No position of `tries` admits a new province. */
    predicate NoneFree(tries: seq<Coord>)
      reads this
    {
      forall i :: 0 <= i < |tries| ==> !FreeAt(tries[i])
    }

    /** Registers a placed province, with its home block, in the province set. */
    method AddProvince(p: ProvinceId, home: Coord)
      modifies this`provinces, this`homeBlock
      ensures provinces == old(provinces) + {p} && homeBlock == old(homeBlock)[p := home]
    {
      provinces := provinces + {p};
      homeBlock := homeBlock[p := home];
    }

    /** Generates the provinces of the region: first one per protected location, in
        order, failing as soon as one cannot be placed; then up to
        `maxNumProvinces - |protectedHomes|` randomly placed ones (random province `k`
        tries the positions `tryAt(k, 0)`, `tryAt(k, 1)`, ...), stopping at the first
        that cannot be placed. The new provinces take consecutive identities. */
    method GenerateProvinces(protectedHomes: seq<Coord>, maxNumProvinces: int, tryAt: (nat, nat) -> Coord)
      returns (ok: bool, ghost protectedCreated: nat, ghost randomCreated: nat)
      requires Valid()
      modifies this`owner, this`unclaimed, this`nextId, this`provinces, this`homeBlock
      ensures Generating(old(owner), old(unclaimed), old(provinces), old(nextId), protectedHomes)
      ensures nextId == old(nextId) + protectedCreated + randomCreated
      ensures !ok ==> protectedCreated < |protectedHomes| && !FreeAt(protectedHomes[protectedCreated]) && randomCreated == 0
      ensures ok ==> protectedCreated == |protectedHomes| && randomCreated <= Max0(maxNumProvinces - |protectedHomes|)
      ensures ok && randomCreated < maxNumProvinces - |protectedHomes| ==> NoneFree(Attempts(tryAt, randomCreated))
    {
      randomCreated := 0;
      ok, protectedCreated := GenerateProtectedProvinces(protectedHomes);
      if ok {
        var maxNumRandomProvinces := maxNumProvinces - |protectedHomes|;
        randomCreated := GenerateRandomProvinces(maxNumRandomProvinces, tryAt, old(owner), old(unclaimed), old(provinces),
                                                 old(nextId), protectedHomes);
      }
    }

    /** The protected locations, in order: each gets a province, or the whole
        generation fails at the first that cannot be placed. */
    method GenerateProtectedProvinces(protectedHomes: seq<Coord>) returns (ok: bool, ghost created: nat)
      requires Valid()
      modifies this`owner, this`unclaimed, this`nextId, this`provinces, this`homeBlock
      ensures Generating(old(owner), old(unclaimed), old(provinces), old(nextId), protectedHomes)
      ensures nextId == old(nextId) + created
      ensures ok ==> created == |protectedHomes|
      ensures !ok ==> created < |protectedHomes| && !FreeAt(protectedHomes[created])
    {
      ghost var o0, u0, p0, n0 := owner, unclaimed, provinces, nextId;
      StartGenerating(protectedHomes);
      var i := 0;
      while i < |protectedHomes|
        invariant 0 <= i <= |protectedHomes|
        invariant Generating(o0, u0, p0, n0, protectedHomes) && nextId == n0 + i
      {
        var placed := PlaceProtectedProvince(i, o0, u0, p0, n0, protectedHomes);
        if !placed {
          return false, i;
        }
        i := i + 1;
      }
      return true, i;
    }

    /** One iteration of the protected placement loop: place and register the
        province of protected location `i`. */
    method PlaceProtectedProvince(i: nat, ghost o0: map<Coord, ProvinceId>, ghost u0: set<Coord>,
                                  ghost p0: set<ProvinceId>, ghost n0: ProvinceId, protectedHomes: seq<Coord>)
      returns (placed: bool)
      requires i < |protectedHomes| && Generating(o0, u0, p0, n0, protectedHomes) && nextId == n0 + i
      modifies this`owner, this`unclaimed, this`nextId, this`provinces, this`homeBlock
      ensures Generating(o0, u0, p0, n0, protectedHomes)
      ensures placed ==> nextId == old(nextId) + 1
      ensures !placed ==> nextId == old(nextId) && !FreeAt(protectedHomes[i])
    {
      ghost var o, u := owner, unclaimed;
      var r := GenerateProtectedProvince(protectedHomes[i]);
      if r.None? {
        return false;
      }
      ExtendsByAssign(o0, o, Footprint(u, protectedHomes[i], brushRadius), r.value);
      RegisterPlaced(r.value, protectedHomes[i], p0, n0, protectedHomes, i);
      return true;
    }

    /** The bookkeeping while provinces are generated from the map `o0` with unclaimed
        index `u0`, province set `p0` and next identity `n0`: consistent, no cell lost,
        no owner changed, and the new provinces as `GeneratedSoFar` describes. */
    ghost predicate Generating(o0: map<Coord, ProvinceId>, u0: set<Coord>, p0: set<ProvinceId>, n0: ProvinceId,
                               protectedHomes: seq<Coord>)
      reads this
    {
      && Valid() && owner.Keys + unclaimed == o0.Keys + u0 && Extends(o0, owner)
      && n0 <= nextId && GeneratedSoFar(provinces, homeBlock, p0, n0, protectedHomes, nextId - n0)
    }

    lemma StartGenerating(protectedHomes: seq<Coord>)
      requires Valid()
      ensures Generating(owner, unclaimed, provinces, nextId, protectedHomes)
    {
    }

    /** Up to `count` randomly placed provinces, stopping at the first that cannot be
        placed. */
    method GenerateRandomProvinces(count: int, tryAt: (nat, nat) -> Coord, ghost o0: map<Coord, ProvinceId>,
                                   ghost u0: set<Coord>, ghost p0: set<ProvinceId>, ghost n0: ProvinceId,
                                   ghost protectedHomes: seq<Coord>)
      returns (created: nat)
      requires Generating(o0, u0, p0, n0, protectedHomes) && n0 + |protectedHomes| <= nextId
      modifies this`owner, this`unclaimed, this`nextId, this`provinces, this`homeBlock
      ensures Generating(o0, u0, p0, n0, protectedHomes)
      ensures nextId == old(nextId) + created && created <= Max0(count)
      ensures created < count ==> NoneFree(Attempts(tryAt, created))
    {
      var k := 0;
      while k < count
        invariant 0 <= k <= Max0(count)
        invariant Generating(o0, u0, p0, n0, protectedHomes)
        invariant nextId == old(nextId) + k
      {
        var placed := PlaceRandomProvince(Attempts(tryAt, k), o0, u0, p0, n0, protectedHomes);
        if !placed {
          break;
        }
        k := k + 1;
      }
      created := k;
    }

    /** One iteration of the random placement loop: place a province at the first
        admissible position of `tries` and register it. */
    method PlaceRandomProvince(tries: seq<Coord>, ghost o0: map<Coord, ProvinceId>, ghost u0: set<Coord>,
                               ghost p0: set<ProvinceId>, ghost n0: ProvinceId, ghost protectedHomes: seq<Coord>)
      returns (placed: bool)
      requires Generating(o0, u0, p0, n0, protectedHomes) && n0 + |protectedHomes| <= nextId
      requires |tries| == MaxPlacementAttempts
      modifies this`owner, this`unclaimed, this`nextId, this`provinces, this`homeBlock
      ensures Generating(o0, u0, p0, n0, protectedHomes)
      ensures placed ==> nextId == old(nextId) + 1
      ensures !placed ==> nextId == old(nextId) && NoneFree(tries)
    {
      ghost var o, u := owner, unclaimed;
      var r, home := GenerateRandomlyPlacedProvince(tries);
      if r.None? {
        return false;
      }
      ExtendsByAssign(o0, o, Footprint(u, home, brushRadius), r.value);
      RegisterPlaced(r.value, home, p0, n0, protectedHomes, nextId - 1 - n0);
      return true;
    }

    /** Adds a just-placed province `p` to the province set. */
    method RegisterPlaced(p: ProvinceId, home: Coord, ghost p0: set<ProvinceId>, ghost n0: ProvinceId,
                          ghost protectedHomes: seq<Coord>, ghost created: nat)
      requires ConsistentState(owner, unclaimed, provinces + {p}, homeBlock[p := home], nextId)
      requires p == n0 + created && nextId == p + 1
      requires GeneratedSoFar(provinces, homeBlock, p0, n0, protectedHomes, created)
      requires forall q :: q in provinces ==> q < p
      requires created < |protectedHomes| ==> home == protectedHomes[created]
      modifies this`provinces, this`homeBlock
      ensures Valid()
      ensures GeneratedSoFar(provinces, homeBlock, p0, n0, protectedHomes, created + 1)
    {
      PlacedGenerated(provinces, homeBlock, p0, n0, protectedHomes, created, p, home);
      AddProvince(p, home);
    }

    /** What holds of the brushes throughout the competition: one brush per listed
        province, each counting exactly the cells its province gained since `o0`,
        and a brush is only ever inactive after hitting the claim limit. */
    ghost predicate BrushesAccount(o0: map<Coord, ProvinceId>, o: map<Coord, ProvinceId>, order: seq<ProvinceId>, brushes: seq<Brush>) {
      && |brushes| == |order|
      && (forall k :: 0 <= k < |brushes| ==> brushes[k].province == order[k])
      && (forall k :: 0 <= k < |brushes| ==> brushes[k].claimed == |Gained(o0, o, order[k])|)
      && (forall k :: 0 <= k < |brushes| && !brushes[k].active ==> HasBrushHitClaimLimit(brushes[k].claimed))
    }

    /** The brush competition. One brush per province (in the province set's iteration
        order `order`) first stamps its home block; then, for `maxBrushMoves` cycles, every
        active brush takes a turn with the move drawn for it (`draw(cycle, brush)`).
        Brushes only take unclaimed cells, so every earlier owner is kept, and each
        brush's count equals the cells its province gained. */
    method ExecuteChunkClaimCompetition(draw: (nat, nat) -> RawMove) returns (ok: bool, brushes: seq<Brush>)
      requires Valid()
      modifies this`owner, this`unclaimed
      ensures ok
      ensures Valid() && Universe() == old(Universe()) && Extends(old(owner), owner)
      ensures forall p :: p in provinces <==> exists k :: 0 <= k < |brushes| && brushes[k].province == p
      ensures forall j, k :: 0 <= j < k < |brushes| ==> brushes[j].province != brushes[k].province
      ensures forall k :: 0 <= k < |brushes| ==> brushes[k].claimed == |Gained(old(owner), owner, brushes[k].province)|
      ensures forall k :: 0 <= k < |brushes| && !brushes[k].active ==> HasBrushHitClaimLimit(brushes[k].claimed)
    {
      ok := true;
      ghost var o0 := owner;
      var order := SetToSeq(provinces);
      brushes := [];
      var i := 0;
      while i < |order|
        invariant 0 <= i <= |order|
        invariant |brushes| == i
        invariant forall k :: 0 <= k < i ==> brushes[k] == NewBrush(order[k], homeBlock[order[k]])
      {
        brushes := brushes + [NewBrush(order[i], homeBlock[order[i]])];
        i := i + 1;
      }
      assert forall k :: 0 <= k < |order| ==> Gained(o0, owner, order[k]) == {};
      i := 0;
      while i < |brushes|
        invariant 0 <= i <= |brushes|
        invariant Valid() && Universe() == old(Universe()) && Extends(o0, owner)
        invariant BrushesAccount(o0, owner, order, brushes)
        invariant forall k :: i <= k < |brushes| ==> brushes[k].active
      {
        brushes := HomeTurn(o0, order, brushes, i);
        i := i + 1;
      }
      var cycle := 0;
      while cycle < maxBrushMoves
        invariant Valid() && Universe() == old(Universe()) && Extends(o0, owner)
        invariant BrushesAccount(o0, owner, order, brushes)
      {
        i := 0;
        while i < |brushes|
          invariant 0 <= i <= |brushes|
          invariant Valid() && Universe() == old(Universe()) && Extends(o0, owner)
          invariant BrushesAccount(o0, owner, order, brushes)
        {
          brushes := MoveTurn(o0, order, brushes, i, draw(cycle, i));
          i := i + 1;
        }
        cycle := cycle + 1;
      }
    }

    /** Brush `i` stamps its home block at the start of the competition. The brushes'
        account is kept. */
    method HomeTurn(ghost o0: map<Coord, ProvinceId>, ghost order: seq<ProvinceId>, brushes: seq<Brush>, i: nat)
      returns (brushes': seq<Brush>)
      requires i < |brushes| && brushes[i].active
      requires Valid() && Extends(o0, owner) && BrushesAccount(o0, owner, order, brushes)
      requires forall j, k :: 0 <= j < k < |order| ==> order[j] != order[k]
      requires forall k :: 0 <= k < |order| ==> order[k] in provinces
      modifies this`owner, this`unclaimed
      ensures Valid() && Universe() == old(Universe()) && Extends(o0, owner)
      ensures BrushesAccount(o0, owner, order, brushes')
      ensures |brushes'| == |brushes| && forall k :: 0 <= k < |brushes| && k != i ==> brushes'[k] == brushes[k]
    {
      var b := brushes[i];
      ghost var o, u := owner, unclaimed;
      var b' := ClaimChunksCoveredByBrush(b);
      ghost var f := Footprint(u, b.position, brushRadius);
      ghost var claimed := old(CanPaint(b.position.x, b.position.z, b.province));
      assert b.province == order[i] && b.province in provinces;
      if claimed {
        StampConsistent(o, u, provinces, homeBlock, nextId, f, b.province);
      }
      brushes' := brushes[i := b'];
      TurnKeepsAccount(o0, o, order, brushes, i, b', f, claimed);
    }

    /** Brush `i` takes its competition move for this cycle. The brushes' account is kept. */
    method MoveTurn(ghost o0: map<Coord, ProvinceId>, ghost order: seq<ProvinceId>, brushes: seq<Brush>, i: nat, move: RawMove)
      returns (brushes': seq<Brush>)
      requires i < |brushes|
      requires Valid() && Extends(o0, owner) && BrushesAccount(o0, owner, order, brushes)
      requires forall j, k :: 0 <= j < k < |order| ==> order[j] != order[k]
      requires forall k :: 0 <= k < |order| ==> order[k] in provinces
      modifies this`owner, this`unclaimed
      ensures Valid() && Universe() == old(Universe()) && Extends(o0, owner)
      ensures BrushesAccount(o0, owner, order, brushes')
      ensures |brushes'| == |brushes| && forall k :: 0 <= k < |brushes| && k != i ==> brushes'[k] == brushes[k]
    {
      var b := brushes[i];
      ghost var o, u := owner, unclaimed;
      var b' := CompetitionStep(b, move);
      ghost var t := MoveTarget(b, move, minMove);
      ghost var f := Footprint(u, t, brushRadius);
      ghost var claimed := b.active && old(CanPaint(t.x, t.z, b.province));
      assert b.province == order[i] && b.province in provinces;
      if claimed {
        StampConsistent(o, u, provinces, homeBlock, nextId, f, b.province);
      }
      assert !b'.active ==> HasBrushHitClaimLimit(b'.claimed);
      brushes' := brushes[i := b'];
      TurnKeepsAccount(o0, o, order, brushes, i, b', f, claimed);
    }

    lemma TurnKeepsAccount(o0: map<Coord, ProvinceId>, o: map<Coord, ProvinceId>, order: seq<ProvinceId>,
                           brushes: seq<Brush>, i: nat, b': Brush, f: set<Coord>, claimed: bool)
      requires i < |brushes| && Extends(o0, o) && f !! o.Keys && BrushesAccount(o0, o, order, brushes)
      requires forall j, k :: 0 <= j < k < |order| ==> order[j] != order[k]
      requires forall k :: 0 <= k < |order| ==> order[k] in provinces
      requires b'.province == brushes[i].province
      requires claimed ==> owner == AssignAll(o, f, brushes[i].province) && b'.claimed == brushes[i].claimed + |f|
      requires !claimed ==> owner == o && b'.claimed == brushes[i].claimed
      requires !b'.active ==> HasBrushHitClaimLimit(b'.claimed)
      ensures Extends(o0, owner)
      ensures BrushesAccount(o0, owner, order, brushes[i := b'])
    {
      if claimed {
        AccountAfterClaim(o0, o, f, order, brushes, i);
        ExtendsByAssign(o0, o, f, brushes[i].province);
      }
    }

    /** One painting run over the region: optionally delete the provinces mostly inside
        it, generate the new provinces, run the brush competition, hand out the leftover
        cells and delete the provinces left empty. Only the generation step can fail,
        and only when a protected location cannot be placed. A successful run leaves
        no leftover cell eligible and no province without cells; the map's cells are
        never lost or added. */
    method ExecuteAction(deleteExistingProvincesInRegion: bool, protectedHomes: seq<Coord>, maxNumProvinces: int,
                         tryAt: (nat, nat) -> Coord, draw: (nat, nat) -> RawMove) returns (ok: bool)
      requires Valid()
      modifies this`owner, this`unclaimed, this`nextId, this`provinces, this`homeBlock
      ensures Valid() && Universe() == old(Universe())
      ensures ok ==> Converged() && forall p :: p in provinces ==> |CellsOf(owner, p)| > 0
      ensures !ok ==> |protectedHomes| > 0
      ensures !deleteExistingProvincesInRegion ==> Extends(old(owner), owner)
    {
      ghost var o0, u0 := owner, unclaimed;
      if deleteExistingProvincesInRegion {
        ok := DeleteExistingProvincesWhichAreMostlyInSpecifiedArea();
        if !ok {
          return;
        }
      }
      ghost var o1 := owner;
      assert !deleteExistingProvincesInRegion ==> o1 == o0;
      ghost var protectedCreated, randomCreated;
      ok, protectedCreated, randomCreated := GenerateProvinces(protectedHomes, maxNumProvinces, tryAt);
      if !ok {
        return;
      }
      var brushes;
      ok, brushes := ExecuteChunkClaimCompetition(draw);
      if !ok {
        return;
      }
      ghost var o2 := owner;
      ok := AssignUnclaimedCoordsToProvinces();
      if !ok {
        return;
      }
      ghost var o3 := owner;
      ExtendsTrans(o1, o2, o3);
      ok := DeleteEmptyProvinces();
    }
  }
}
