/** Data model shared by every stage of the map build: the sparse block
    encoding, the map being built, the copy-rule configuration and the
    errors that abort a conversion. */
module Voxel {

  /** C#'s `short`, the width of a BlockEncoding coordinate. */
  type Short = v: int | -0x8000 <= v < 0x8000

  /** C#'s `byte`, the width of a block type index. */
  type Byte = v: int | 0 <= v < 0x100

  /** The unchecked C# cast `(short)v`: keeps the low 16 bits of `v` and
      reads them as a two's-complement number. The source computes in 32-bit
      `int` and then casts; since 2^16 divides 2^32 the result is the same as
      casting the exact mathematical value, which is what this takes. */
  function ToShort(v: int): (r: Short)
    ensures (r - v) % 0x1_0000 == 0
    ensures -0x8000 <= v < 0x8000 ==> r == v
  {
    (v + 0x8000) % 0x1_0000 - 0x8000
  }

  /** The unchecked C# cast `(byte)v`: keeps the low 8 bits. */
  function ToByte(v: int): (r: Byte)
    ensures (r - v) % 0x100 == 0
    ensures 0 <= v < 0x100 ==> r == v
  {
    v % 0x100
  }

  /** Unchecked 32-bit signed `int` arithmetic: wraps into [-2^31, 2^31). */
  function ToInt32(v: int): (r: int)
    ensures -0x8000_0000 <= r < 0x8000_0000
    ensures (r - v) % 0x1_0000_0000 == 0
    ensures -0x8000_0000 <= v < 0x8000_0000 ==> r == v
  {
    (v + 0x8000_0000) % 0x1_0000_0000 - 0x8000_0000
  }

  datatype Option<T> = None | Some(value: T)

  /** Unity's Vector3Int: the map size and the corners of a copy box. */
  datatype Vec3 = Vec3(x: int, y: int, z: int)

  /** One non-air voxel of the sparse map (BlockEncoding). */
  datatype Block = Block(x: Short, y: Short, z: Short, blockType: Byte)

  /** One authored cube, as the cube source hands it over: the integer
      position it was floored to and its palette index. */
  datatype Cube = Cube(pos: Vec3, blockType: Byte)

  /** The map that is handed to the serializer: its name, its blocks in
      order, and its declared size. */
  datatype Map = Map(name: string, blocks: seq<Block>, size: Vec3)

  /** The state that the copy rules thread through: the block list so far
      and the declared size so far. */
  datatype MapState = MapState(blocks: seq<Block>, size: Vec3)

  /** The raw extremes of the cube positions, captured once before any copy
      rule runs; every copy rule's transform uses these and never the grown
      size. */
  datatype Bounds = Bounds(minX: int, maxX: int, minY: int, minZ: int, maxZ: int)

  datatype CopyType = Rotate180 | MirrorX | MirrorZ

  datatype CopyDirection = X | Z

  /** Renames one block type to another, both by palette name. */
  datatype RemappingRule = RemappingRule(oldName: string, newName: string)

  /** Copies the blocks of the half-open box [from, to) under a transform,
      renames the copies' types, and extends the map along `direction`. */
  datatype CopyRule = CopyRule(
    from: Vec3,
    to: Vec3,
    copyType: CopyType,
    remappingRules: seq<RemappingRule>,
    direction: CopyDirection)

  /** Everything that aborts a conversion. */
  datatype Error =
    | EmptyInput                  // Min/Max over no cubes
    | UnknownBlockType(name: string)  // the palette has no such name
    | UnsupportedAxis             // a copy rule along X
    | MalformedTextureName(name: string)  // no `_` field, or not an int

  datatype Result<T> = Ok(value: T) | Err(error: Error)

  /** The palette lookup by name (`BlockTypeIndex`); `None` is a failed
      lookup. */
  type Palette = string -> Option<Byte>
}
