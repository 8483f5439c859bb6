/** The bedrock layer: one block of type 1 in row 0 under every cell of the
    footprint, appended x-major (all z for x = 0, then for x = 1, ...). */
module BedrockLayer {
  import opened Voxel

  /** The palette index of bedrock. */
  const BedrockType: Byte := 1

  function BedrockBlock(x: int, z: int): Block
  {
    Block(ToShort(x), 0, ToShort(z), BedrockType)
  }

  /** One x-column of the layer: z from 0 to sizeZ - 1. */
  function BedrockRow(x: nat, sizeZ: nat): seq<Block>
  {
    seq(sizeZ, z requires 0 <= z < sizeZ => BedrockBlock(x, z))
  }

  /** The whole layer under a sizeX by sizeZ footprint, as the nested loops
      emit it. */
  function Bedrock(sizeX: nat, sizeZ: nat): (layer: seq<Block>)
    ensures forall i :: 0 <= i < |layer| ==> layer[i].y == 0 && layer[i].blockType == BedrockType
  {
    if sizeX == 0 then [] else Bedrock(sizeX - 1, sizeZ) + BedrockRow(sizeX - 1, sizeZ)
  }

  /** The nested loops of the source, appending to the block list. */
  method AddBedrock(blocks: seq<Block>, sizeX: nat, sizeZ: nat) returns (r: seq<Block>)
    ensures r == blocks + Bedrock(sizeX, sizeZ)
  {
    r := blocks;
    for x := 0 to sizeX
      invariant r == blocks + Bedrock(x, sizeZ)
    {
      for z := 0 to sizeZ
        invariant r == blocks + Bedrock(x, sizeZ) + BedrockRow(x, sizeZ)[..z]
      {
        assert BedrockRow(x, sizeZ)[..z + 1] == BedrockRow(x, sizeZ)[..z] + [BedrockBlock(x, z)];
        r := r + [BedrockBlock(x, z)];
      }
      assert BedrockRow(x, sizeZ)[..sizeZ] == BedrockRow(x, sizeZ);
    }
  }

  lemma MulMonotone(a: nat, b: nat, n: nat)
    requires a <= b
    ensures a * n <= b * n
  {
    assert b * n == a * n + (b - a) * n;
  }

  lemma MulStep(a: nat, b: nat, n: nat)
    requires a < b
    ensures a * n + n <= b * n
  {
    MulMonotone(a + 1, b, n);
    assert (a + 1) * n == a * n + n;
  }

  /** Where the loops put the block of cell (x, z). */
  function CellIndex(x: int, z: int, sizeZ: int): int
  {
    x * sizeZ + z
  }

  /** Euclidean division recovers q and k from q * n + k. */
  lemma DivModOfRowMajor(q: nat, k: nat, n: nat)
    requires k < n
    ensures (q * n + k) / n == q && (q * n + k) % n == k
  {
    var i := q * n + k;
    var q', k' := i / n, i % n;
    assert q' * n + k' == i;
    if q' > q {
      MulStep(q, q', n);
    } else if q' < q {
      MulStep(q', q, n);
    }
  }

  /** The layer in closed form: it has sizeX * sizeZ blocks, and block
      i lies at x = i / sizeZ, z = i % sizeZ. */
  lemma {:induction false} BedrockClosedForm(sizeX: nat, sizeZ: nat)
    ensures |Bedrock(sizeX, sizeZ)| == sizeX * sizeZ
    ensures forall i :: 0 <= i < sizeX * sizeZ ==>
              Bedrock(sizeX, sizeZ)[i] == BedrockBlock(i / sizeZ, i % sizeZ)
  {
    if sizeX > 0 {
      BedrockClosedForm(sizeX - 1, sizeZ);
      var before := Bedrock(sizeX - 1, sizeZ);
      assert |before| == (sizeX - 1) * sizeZ == sizeX * sizeZ - sizeZ;
      forall i | 0 <= i < sizeX * sizeZ
        ensures Bedrock(sizeX, sizeZ)[i] == BedrockBlock(i / sizeZ, i % sizeZ)
      {
        if i >= |before| {
          var z := i - |before|;
          DivModOfRowMajor(sizeX - 1, z, sizeZ);
        }
      }
    }
  }

  /** Bedrock synthesis emits exactly sizeX * sizeZ blocks, all in row 0
      with the bedrock type, one under each footprint cell and no two under
      the same cell. */
  lemma BedrockCoversFootprint(sizeX: nat, sizeZ: nat)
    requires sizeX <= 0x8000 && sizeZ <= 0x8000
    ensures var layer := Bedrock(sizeX, sizeZ);
      && |layer| == sizeX * sizeZ
      && (forall i :: 0 <= i < |layer| ==>
            && layer[i].y == 0 && layer[i].blockType == BedrockType
            && 0 <= layer[i].x < sizeX && 0 <= layer[i].z < sizeZ)
      && (forall x, z :: 0 <= x < sizeX && 0 <= z < sizeZ ==>
            CellIndex(x, z, sizeZ) < |layer| && layer[CellIndex(x, z, sizeZ)] == Block(x, 0, z, BedrockType))
      && (forall i, j :: 0 <= i < j < |layer| ==> (layer[i].x, layer[i].z) != (layer[j].x, layer[j].z))
  {
    BedrockInFootprint(sizeX, sizeZ);
    BedrockCellAt(sizeX, sizeZ);
    BedrockDistinct(sizeX, sizeZ);
  }

  lemma BedrockInFootprint(sizeX: nat, sizeZ: nat)
    requires sizeX <= 0x8000 && sizeZ <= 0x8000
    ensures var layer := Bedrock(sizeX, sizeZ);
      && |layer| == sizeX * sizeZ
      && forall i :: 0 <= i < |layer| ==>
           && layer[i].y == 0 && layer[i].blockType == BedrockType
           && 0 <= layer[i].x < sizeX && 0 <= layer[i].z < sizeZ
  {
    BedrockClosedForm(sizeX, sizeZ);
    forall i | 0 <= i < sizeX * sizeZ
      ensures var b := Bedrock(sizeX, sizeZ)[i];
        b.y == 0 && b.blockType == BedrockType && 0 <= b.x < sizeX && 0 <= b.z < sizeZ
    {
      BedrockAt(sizeX, sizeZ, i);
    }
  }

  lemma BedrockCellAt(sizeX: nat, sizeZ: nat)
    requires sizeX <= 0x8000 && sizeZ <= 0x8000
    ensures var layer := Bedrock(sizeX, sizeZ);
      forall x, z :: 0 <= x < sizeX && 0 <= z < sizeZ ==>
        CellIndex(x, z, sizeZ) < |layer| && layer[CellIndex(x, z, sizeZ)] == Block(x, 0, z, BedrockType)
  {
    forall x, z | 0 <= x < sizeX && 0 <= z < sizeZ
      ensures CellIndex(x, z, sizeZ) < |Bedrock(sizeX, sizeZ)|
      ensures Bedrock(sizeX, sizeZ)[CellIndex(x, z, sizeZ)] == Block(x, 0, z, BedrockType)
    {
      BedrockCell(sizeX, sizeZ, x, z);
    }
  }

  lemma BedrockCell(sizeX: nat, sizeZ: nat, x: nat, z: nat)
    requires sizeX <= 0x8000 && sizeZ <= 0x8000
    requires x < sizeX && z < sizeZ
    ensures CellIndex(x, z, sizeZ) < |Bedrock(sizeX, sizeZ)|
    ensures Bedrock(sizeX, sizeZ)[CellIndex(x, z, sizeZ)] == Block(x, 0, z, BedrockType)
  {
    var i := x * sizeZ + z;
    RowMajorBelow(x, z, sizeX, sizeZ);
    DivModOfRowMajor(x, z, sizeZ);
    BedrockAt(sizeX, sizeZ, i);
  }

  lemma BedrockDistinct(sizeX: nat, sizeZ: nat)
    requires sizeX <= 0x8000 && sizeZ <= 0x8000
    ensures var layer := Bedrock(sizeX, sizeZ);
      forall i, j :: 0 <= i < j < |layer| ==> (layer[i].x, layer[i].z) != (layer[j].x, layer[j].z)
  {
    BedrockClosedForm(sizeX, sizeZ);
    forall i, j | 0 <= i < j < sizeX * sizeZ
      ensures (Bedrock(sizeX, sizeZ)[i].x, Bedrock(sizeX, sizeZ)[i].z) != (Bedrock(sizeX, sizeZ)[j].x, Bedrock(sizeX, sizeZ)[j].z)
    {
      BedrockAt(sizeX, sizeZ, i);
      BedrockAt(sizeX, sizeZ, j);
      RowMajorInjective(i, j, sizeZ);
    }
  }

  /** Block i of the layer, with its coordinates in range of a `short`. */
  lemma BedrockAt(sizeX: nat, sizeZ: nat, i: nat)
    requires sizeX <= 0x8000 && sizeZ <= 0x8000
    requires i < sizeX * sizeZ
    ensures sizeZ > 0 && i / sizeZ < sizeX
    ensures |Bedrock(sizeX, sizeZ)| == sizeX * sizeZ
    ensures Bedrock(sizeX, sizeZ)[i] == Block(i / sizeZ, 0, i % sizeZ, BedrockType)
  {
    BedrockClosedForm(sizeX, sizeZ);
    DivBelow(i, sizeX, sizeZ);
    var x, z := i / sizeZ, i % sizeZ;
    assert 0 <= z < sizeZ;
    assert Bedrock(sizeX, sizeZ)[i] == BedrockBlock(x, z);
  }

  /** Distinct indices have a distinct quotient or remainder. */
  lemma RowMajorInjective(i: nat, j: nat, n: nat)
    requires n > 0 && i != j
    ensures i / n != j / n || i % n != j % n
  {
  }

  lemma DivBelow(i: nat, sizeX: nat, sizeZ: nat)
    requires i < sizeX * sizeZ
    ensures sizeZ > 0 && i / sizeZ < sizeX
  {
    assert sizeZ != 0;
    if i / sizeZ >= sizeX {
      MulMonotone(sizeX, i / sizeZ, sizeZ);
    }
  }

  lemma RowMajorBelow(x: nat, z: nat, sizeX: nat, sizeZ: nat)
    requires x < sizeX && z < sizeZ
    ensures CellIndex(x, z, sizeZ) < sizeX * sizeZ
  {
    MulMonotone(x + 1, sizeX, sizeZ);
    assert (x + 1) * sizeZ == x * sizeZ + sizeZ;
  }
}
