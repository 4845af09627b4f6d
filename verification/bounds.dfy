/**
 * The render bounding box of the framing table. The table is two blocks
 * wide; only the right-hand half reports a box, covering both halves.
 * The block state at the table's position is passed in.
 */
module Bounds {
  import opened Items
  import opened Arith

  datatype BlockPos = BlockPos(x: int, y: int, z: int)

  /**
   * The parts of the block state the computation reads: the block, the
   * RIGHT_SIDE property and the index of the FACING property.
   */
  datatype BlockState = BlockState(block: Block, rightSide: bool, facing: int)

  /** The six arguments handed to the box constructor, named after its parameters. */
  datatype Box = Box(x1: int, y1: int, z1: int, x2: int, y2: int, z2: int)

  const ZeroExtent: Box := Box(0, 0, 0, 0, 0, 0)

  /** True when the state is the right-hand half of a framing table. */
  predicate IsRightHalf(state: BlockState)
    ensures state.block != FramingTable ==> !IsRightHalf(state)
    ensures !state.rightSide ==> !IsRightHalf(state)
    ensures state.block == FramingTable && state.rightSide ==> IsRightHalf(state)
  {
    state.block == FramingTable && state.rightSide
  }

  /**
   * The step from the right-hand half to the left-hand half, by facing index:
   * north (2) +x, south (3) -x, west (4) -z, east (5) +z, anything else none.
   */
  function FacingOffset(side: int): (off: (int, int))
    ensures Abs(off.0) + Abs(off.1) == (if 2 <= side <= 5 then 1 else 0)
    ensures off.0 != 0 <==> side == 2 || side == 3
    ensures off.1 != 0 <==> side == 4 || side == 5
    ensures off.0 + off.1 == (if side == 2 || side == 5 then 1 else if side == 3 || side == 4 then -1 else 0)
  {
    var xOff := if side == 2 then 1 else if side == 3 then -1 else 0;
    var zOff := if side == 4 then -1 else if side == 5 then 1 else 0;
    (xOff, zOff)
  }

  /**
   * `getRenderBoundingBox` as written: the x range goes to the first and
   * third arguments and the z range to the fourth and sixth.
   */
  function RenderBoundingBox(state: BlockState, pos: BlockPos): (b: Box)
    ensures !IsRightHalf(state) ==> b == ZeroExtent
    ensures IsRightHalf(state) ==>
      var (xOff, zOff) := FacingOffset(state.facing);
      && b.y1 == pos.y + 1 && b.y2 == pos.y + 2
      && b.z1 - b.x1 == 1 + Abs(xOff) && b.z2 - b.x2 == 1 + Abs(zOff)
      && b.x1 <= pos.x < b.z1 && b.x1 <= pos.x + xOff < b.z1
      && b.x2 <= pos.z < b.z2 && b.x2 <= pos.z + zOff < b.z2
  {
    if !IsRightHalf(state) then ZeroExtent
    else
      var (xOff, zOff) := FacingOffset(state.facing);
      var xMin := Min(pos.x, pos.x + xOff);
      var xMax := Max(pos.x, pos.x + xOff) + 1;
      var zMin := Min(pos.z, pos.z + zOff);
      var zMax := Max(pos.z, pos.z + zOff) + 1;
      Box(xMin, pos.y + 1, xMax, zMin, pos.y + 2, zMax)
  }

  /**
   * The box the computation evidently means: x, y and z minima first, then
   * the maxima, in the constructor's parameter order.
   */
  function IntendedRenderBoundingBox(state: BlockState, pos: BlockPos): (b: Box)
    ensures !IsRightHalf(state) ==> b == ZeroExtent
    ensures IsRightHalf(state) ==>
      var (xOff, zOff) := FacingOffset(state.facing);
      && b.x2 - b.x1 == 1 + Abs(xOff) && b.y2 - b.y1 == 1 && b.z2 - b.z1 == 1 + Abs(zOff)
      && b.x1 <= pos.x < b.x2 && b.x1 <= pos.x + xOff < b.x2
      && b.y1 == pos.y + 1
      && b.z1 <= pos.z < b.z2 && b.z1 <= pos.z + zOff < b.z2
  {
    var written := RenderBoundingBox(state, pos);
    Box(written.x1, written.y1, written.x2, written.z1, written.y2, written.z2)
  }

  /**
   * A north-facing right half at the origin: the arguments as written make
   * the x extent empty although the table spans two blocks along x.
   */
  lemma RenderBoundingBoxArgumentOrder()
    ensures var state := BlockState(FramingTable, true, 2);
      && RenderBoundingBox(state, BlockPos(0, 0, 0)) == Box(0, 1, 2, 0, 2, 1)
      && RenderBoundingBox(state, BlockPos(0, 0, 0)).x2 - RenderBoundingBox(state, BlockPos(0, 0, 0)).x1 == 0
      && IntendedRenderBoundingBox(state, BlockPos(0, 0, 0)) == Box(0, 1, 0, 2, 2, 1)
  {
  }
}
