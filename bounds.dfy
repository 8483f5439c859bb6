/** The first stage of the map build: the cubes' positions are re-expressed
    relative to their componentwise minimum, one row up so that row 0 stays
    free for bedrock, and the map's declared size is the footprint's extent
    with the world's fixed height. */
module BoundsNormalizer {
  import opened Voxel

  /** LINQ `Min` over a non-empty sequence. */
  function MinOf(s: seq<int>): (m: int)
    requires |s| > 0
    ensures m in s
    ensures forall i :: 0 <= i < |s| ==> m <= s[i]
  {
    if |s| == 1 then s[0]
    else
      var rest := MinOf(s[1..]);
      if s[0] <= rest then s[0] else rest
  }

  /** LINQ `Max` over a non-empty sequence. */
  function MaxOf(s: seq<int>): (m: int)
    requires |s| > 0
    ensures m in s
    ensures forall i :: 0 <= i < |s| ==> s[i] <= m
  {
    if |s| == 1 then s[0]
    else
      var rest := MaxOf(s[1..]);
      if s[0] >= rest then s[0] else rest
  }

  function PositionsX(cubes: seq<Cube>): (xs: seq<int>)
    ensures |xs| == |cubes| && forall i :: 0 <= i < |cubes| ==> xs[i] == cubes[i].pos.x
  {
    seq(|cubes|, i requires 0 <= i < |cubes| => cubes[i].pos.x)
  }

  function PositionsY(cubes: seq<Cube>): (ys: seq<int>)
    ensures |ys| == |cubes| && forall i :: 0 <= i < |cubes| ==> ys[i] == cubes[i].pos.y
  {
    seq(|cubes|, i requires 0 <= i < |cubes| => cubes[i].pos.y)
  }

  function PositionsZ(cubes: seq<Cube>): (zs: seq<int>)
    ensures |zs| == |cubes| && forall i :: 0 <= i < |cubes| ==> zs[i] == cubes[i].pos.z
  {
    seq(|cubes|, i requires 0 <= i < |cubes| => cubes[i].pos.z)
  }

  /** What normalisation produces: the shifted blocks, the declared size and
      the raw extremes that the copy rules keep using. */
  datatype Normalised = Normalised(blocks: seq<Block>, size: Vec3, bounds: Bounds)

  /** One cube shifted by the minimum, one row up, each coordinate cast to
      `short`. */
  function ShiftedBlock(c: Cube, b: Bounds): (s: Block)
    ensures s.blockType == c.blockType
    ensures (s.x - (c.pos.x - b.minX)) % 0x1_0000 == 0
    ensures (s.y - (c.pos.y - b.minY + 1)) % 0x1_0000 == 0
    ensures (s.z - (c.pos.z - b.minZ)) % 0x1_0000 == 0
  {
    Block(ToShort(c.pos.x - b.minX), ToShort(c.pos.y - b.minY + 1), ToShort(c.pos.z - b.minZ), c.blockType)
  }

  /** Every cube shifted, in cube order. */
  function ShiftAll(cubes: seq<Cube>, b: Bounds): (blocks: seq<Block>)
    ensures |blocks| == |cubes|
    ensures forall i :: 0 <= i < |cubes| ==> blocks[i] == ShiftedBlock(cubes[i], b)
  {
    seq(|cubes|, i requires 0 <= i < |cubes| => ShiftedBlock(cubes[i], b))
  }

  /** `bounds` holds the true extremes of the cubes' positions. */
  ghost predicate IsBoundsOf(bounds: Bounds, cubes: seq<Cube>)
  {
    && (exists i :: 0 <= i < |cubes| && cubes[i].pos.x == bounds.minX)
    && (exists i :: 0 <= i < |cubes| && cubes[i].pos.x == bounds.maxX)
    && (exists i :: 0 <= i < |cubes| && cubes[i].pos.y == bounds.minY)
    && (exists i :: 0 <= i < |cubes| && cubes[i].pos.z == bounds.minZ)
    && (exists i :: 0 <= i < |cubes| && cubes[i].pos.z == bounds.maxZ)
    && forall i :: 0 <= i < |cubes| ==>
         && bounds.minX <= cubes[i].pos.x <= bounds.maxX
         && bounds.minY <= cubes[i].pos.y
         && bounds.minZ <= cubes[i].pos.z <= bounds.maxZ
  }

  /** The componentwise extremes of the cubes' raw positions, which
      Map2Voxel takes with LINQ `Min` and `Max` over the coordinate lists. */
  function Extremes(cubes: seq<Cube>): (b: Bounds)
    requires |cubes| > 0
    ensures IsBoundsOf(b, cubes)
    decreases |cubes|
  {
    var p := cubes[0].pos;
    if |cubes| == 1 then Bounds(p.x, p.x, p.y, p.z, p.z)
    else
      var r := Extremes(cubes[1..]);
      var b := Bounds(if p.x <= r.minX then p.x else r.minX, if p.x >= r.maxX then p.x else r.maxX,
                      if p.y <= r.minY then p.y else r.minY,
                      if p.z <= r.minZ then p.z else r.minZ, if p.z >= r.maxZ then p.z else r.maxZ);
      ExtremesStep(cubes, r, b);
      b
  }

  lemma ExtremesStep(cubes: seq<Cube>, r: Bounds, b: Bounds)
    requires |cubes| > 1 && IsBoundsOf(r, cubes[1..])
    requires var p := cubes[0].pos;
      b == Bounds(if p.x <= r.minX then p.x else r.minX, if p.x >= r.maxX then p.x else r.maxX,
                  if p.y <= r.minY then p.y else r.minY,
                  if p.z <= r.minZ then p.z else r.minZ, if p.z >= r.maxZ then p.z else r.maxZ)
    ensures IsBoundsOf(b, cubes)
  {
    var rest := cubes[1..];
    var a :| 0 <= a < |rest| && rest[a].pos.x == r.minX;
    var c :| 0 <= c < |rest| && rest[c].pos.x == r.maxX;
    var d :| 0 <= d < |rest| && rest[d].pos.y == r.minY;
    var e :| 0 <= e < |rest| && rest[e].pos.z == r.minZ;
    var f :| 0 <= f < |rest| && rest[f].pos.z == r.maxZ;
    assert cubes[a + 1] == rest[a] && cubes[c + 1] == rest[c] && cubes[d + 1] == rest[d];
    assert cubes[e + 1] == rest[e] && cubes[f + 1] == rest[f];
    forall i | 1 <= i < |cubes|
      ensures b.minX <= cubes[i].pos.x <= b.maxX && b.minY <= cubes[i].pos.y
      ensures b.minZ <= cubes[i].pos.z <= b.maxZ
    {
      assert cubes[i] == rest[i - 1];
    }
  }

  /** The extremes as the source computes them, one LINQ `Min` or `Max`
      per coordinate list. */
  function LinqExtremes(cubes: seq<Cube>): Bounds
    requires |cubes| > 0
  {
    Bounds(MinOf(PositionsX(cubes)), MaxOf(PositionsX(cubes)), MinOf(PositionsY(cubes)),
           MinOf(PositionsZ(cubes)), MaxOf(PositionsZ(cubes)))
  }

  /** The fold computes the same five numbers as the separate `Min` and
      `Max` calls. */
  lemma ExtremesAreLinqExtremes(cubes: seq<Cube>)
    requires |cubes| > 0
    ensures Extremes(cubes) == LinqExtremes(cubes)
  {
    ExtremesWitnessed(cubes, LinqExtremes(cubes));
    BoundsUnique(Extremes(cubes), LinqExtremes(cubes), cubes);
  }

  lemma ExtremesWitnessed(cubes: seq<Cube>, b: Bounds)
    requires |cubes| > 0
    requires b == LinqExtremes(cubes)
    ensures IsBoundsOf(b, cubes)
  {
    var xs, ys, zs := PositionsX(cubes), PositionsY(cubes), PositionsZ(cubes);
    var a :| 0 <= a < |xs| && xs[a] == b.minX;
    var c :| 0 <= c < |xs| && xs[c] == b.maxX;
    var d :| 0 <= d < |ys| && ys[d] == b.minY;
    var e :| 0 <= e < |zs| && zs[e] == b.minZ;
    var f :| 0 <= f < |zs| && zs[f] == b.maxZ;
    assert cubes[a].pos.x == b.minX && cubes[c].pos.x == b.maxX && cubes[d].pos.y == b.minY;
    assert cubes[e].pos.z == b.minZ && cubes[f].pos.z == b.maxZ;
  }

  /** The extremes of a list of cubes are determined by it: any two bounds
      that are attained and bound every cube are the same. */
  lemma BoundsUnique(b1: Bounds, b2: Bounds, cubes: seq<Cube>)
    requires IsBoundsOf(b1, cubes) && IsBoundsOf(b2, cubes)
    ensures b1 == b2
  {
    var i1 :| 0 <= i1 < |cubes| && cubes[i1].pos.x == b1.minX;
    var i2 :| 0 <= i2 < |cubes| && cubes[i2].pos.x == b2.minX;
    var j1 :| 0 <= j1 < |cubes| && cubes[j1].pos.x == b1.maxX;
    var j2 :| 0 <= j2 < |cubes| && cubes[j2].pos.x == b2.maxX;
    var k1 :| 0 <= k1 < |cubes| && cubes[k1].pos.y == b1.minY;
    var k2 :| 0 <= k2 < |cubes| && cubes[k2].pos.y == b2.minY;
    var l1 :| 0 <= l1 < |cubes| && cubes[l1].pos.z == b1.minZ;
    var l2 :| 0 <= l2 < |cubes| && cubes[l2].pos.z == b2.minZ;
    var m1 :| 0 <= m1 < |cubes| && cubes[m1].pos.z == b1.maxZ;
    var m2 :| 0 <= m2 < |cubes| && cubes[m2].pos.z == b2.maxZ;
  }

  /** Normalises the cube positions. With no cubes the minimum does not
      exist and the build fails. */
  function Normalise(cubes: seq<Cube>, maxHeight: int): (r: Result<Normalised>)
    ensures r.Err? <==> |cubes| == 0
    ensures r.Err? ==> r.error == EmptyInput
    ensures r.Ok? ==>
      var n := r.value;
      && IsBoundsOf(n.bounds, cubes)
      && n.size == Vec3(n.bounds.maxX - n.bounds.minX + 1, maxHeight, n.bounds.maxZ - n.bounds.minZ + 1)
      && n.size.x >= 1 && n.size.z >= 1
      && |n.blocks| == |cubes|
      && forall i :: 0 <= i < |cubes| ==> n.blocks[i] == ShiftedBlock(cubes[i], n.bounds)
  {
    if |cubes| == 0 then Err(EmptyInput)
    else
      var bounds := Extremes(cubes);
      var blocks := ShiftAll(cubes, bounds);
      var size := Vec3(bounds.maxX - bounds.minX + 1, maxHeight, bounds.maxZ - bounds.minZ + 1);
      Ok(Normalised(blocks, size, bounds))
  }

  /** Whatever bounds are attained and bound every cube are the ones
      normalisation uses, and they alone fix the declared size. */
  lemma NormaliseWithBounds(cubes: seq<Cube>, bounds: Bounds, maxHeight: int)
    requires IsBoundsOf(bounds, cubes)
    ensures Normalise(cubes, maxHeight).Ok?
    ensures Normalise(cubes, maxHeight).value.bounds == bounds
    ensures Normalise(cubes, maxHeight).value.size
            == Vec3(bounds.maxX - bounds.minX + 1, maxHeight, bounds.maxZ - bounds.minZ + 1)
  {
    ExtremesUnique(cubes, bounds);
  }

  lemma ExtremesUnique(cubes: seq<Cube>, bounds: Bounds)
    requires IsBoundsOf(bounds, cubes)
    ensures |cubes| > 0 && Extremes(cubes) == bounds
  {
    var i :| 0 <= i < |cubes| && cubes[i].pos.x == bounds.minX;
    BoundsUnique(Extremes(cubes), bounds, cubes);
  }

  /** No two cubes are further apart than a `short` can express (the map is
      less than 32767 cubes wide, deep and tall). */
  predicate ExtentsFit(cubes: seq<Cube>)
  {
    forall i, j :: 0 <= i < |cubes| && 0 <= j < |cubes| ==>
      && cubes[i].pos.x - cubes[j].pos.x < 0x7fff
      && cubes[i].pos.y - cubes[j].pos.y < 0x7fff
      && cubes[i].pos.z - cubes[j].pos.z < 0x7fff
  }

  /** A cube within a `short` of the minimum keeps its exact offset. */
  lemma ShiftedExactly(c: Cube, bd: Bounds)
    requires 0 <= c.pos.x - bd.minX < 0x7fff
    requires 0 <= c.pos.y - bd.minY < 0x7fff
    requires 0 <= c.pos.z - bd.minZ < 0x7fff
    ensures ShiftedBlock(c, bd) == Block(c.pos.x - bd.minX, c.pos.y - bd.minY + 1, c.pos.z - bd.minZ, c.blockType)
  {
  }

  /** The first-found cube of least x, least y and least z. */
  lemma LeastCubes(cubes: seq<Cube>, bd: Bounds) returns (ix: nat, iy: nat, iz: nat)
    requires IsBoundsOf(bd, cubes)
    ensures ix < |cubes| && iy < |cubes| && iz < |cubes|
    ensures cubes[ix].pos.x == bd.minX && cubes[iy].pos.y == bd.minY && cubes[iz].pos.z == bd.minZ
  {
    ix :| 0 <= ix < |cubes| && cubes[ix].pos.x == bd.minX;
    iy :| 0 <= iy < |cubes| && cubes[iy].pos.y == bd.minY;
    iz :| 0 <= iz < |cubes| && cubes[iz].pos.z == bd.minZ;
  }

  /** Each cube's offset from the extremes fits in a `short`. */
  lemma OffsetsFit(cubes: seq<Cube>, bd: Bounds, i: nat)
    requires ExtentsFit(cubes) && IsBoundsOf(bd, cubes) && i < |cubes|
    ensures 0 <= cubes[i].pos.x - bd.minX <= bd.maxX - bd.minX < 0x7fff
    ensures 0 <= cubes[i].pos.y - bd.minY < 0x7fff
    ensures 0 <= cubes[i].pos.z - bd.minZ <= bd.maxZ - bd.minZ < 0x7fff
  {
    var ix, iy, iz := LeastCubes(cubes, bd);
    var jx :| 0 <= jx < |cubes| && cubes[jx].pos.x == bd.maxX;
    var jz :| 0 <= jz < |cubes| && cubes[jz].pos.z == bd.maxZ;
    assert cubes[i].pos.y - cubes[iy].pos.y < 0x7fff;
    assert cubes[jx].pos.x - cubes[ix].pos.x < 0x7fff;
    assert cubes[jz].pos.z - cubes[iz].pos.z < 0x7fff;
  }

  /** After normalisation every block lies in the declared footprint, above
      row 0, and the footprint is tight: some block has x = 0, some z = 0
      and the lowest blocks sit in row 1. */
  lemma NormalisedInFootprint(cubes: seq<Cube>, maxHeight: int)
    requires ExtentsFit(cubes)
    requires Normalise(cubes, maxHeight).Ok?
    ensures var n := Normalise(cubes, maxHeight).value;
      && n.size.y == maxHeight
      && (forall i :: 0 <= i < |n.blocks| ==>
            0 <= n.blocks[i].x < n.size.x && 1 <= n.blocks[i].y && 0 <= n.blocks[i].z < n.size.z)
      && (exists i :: 0 <= i < |n.blocks| && n.blocks[i].x == 0)
      && (exists i :: 0 <= i < |n.blocks| && n.blocks[i].y == 1)
      && (exists i :: 0 <= i < |n.blocks| && n.blocks[i].z == 0)
  {
    var n := Normalise(cubes, maxHeight).value;
    var bd := n.bounds;
    forall i | 0 <= i < |n.blocks|
      ensures 0 <= n.blocks[i].x < n.size.x && 1 <= n.blocks[i].y && 0 <= n.blocks[i].z < n.size.z
    {
      OffsetsFit(cubes, bd, i);
      ShiftedExactly(cubes[i], bd);
    }
    var ix, iy, iz := LeastCubes(cubes, bd);
    OffsetsFit(cubes, bd, ix);
    ShiftedExactly(cubes[ix], bd);
    OffsetsFit(cubes, bd, iy);
    ShiftedExactly(cubes[iy], bd);
    OffsetsFit(cubes, bd, iz);
    ShiftedExactly(cubes[iz], bd);
    assert n.blocks[ix].x == 0 && n.blocks[iy].y == 1 && n.blocks[iz].z == 0;
  }
}
