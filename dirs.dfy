/** The direction bit flags of src/dirs.rs: four cardinal bits and the four
    ordinal directions formed by or-ing two of them. */
module DirFlags {

  /** `Dirs` is a bitflags set over a `u8`; any bit pattern is a value. */
  type Dirs = bv8

  const NORTH: Dirs := 1 << 0
  const SOUTH: Dirs := 1 << 1
  const EAST: Dirs := 1 << 2
  const WEST: Dirs := 1 << 3
  const SOUTHEAST: Dirs := SOUTH | EAST
  const SOUTHWEST: Dirs := SOUTH | WEST
  const NORTHEAST: Dirs := NORTH | EAST
  const NORTHWEST: Dirs := NORTH | WEST

  const CARDINAL_DIRS: seq<Dirs> := [NORTH, SOUTH, EAST, WEST]
  const ORDINAL_DIRS: seq<Dirs> := [NORTHEAST, NORTHWEST, SOUTHEAST, SOUTHWEST]
  const ALL_DIRS: seq<Dirs> := [NORTH, SOUTH, EAST, WEST, NORTHEAST, NORTHWEST, SOUTHEAST, SOUTHWEST]

  /** Exactly one bit is set. */
  predicate IsSingleBit(d: Dirs)
  {
    d != 0 && d & (d - 1) == 0
  }

  predicate Distinct(s: seq<Dirs>)
  {
    forall i, j :: 0 <= i < j < |s| ==> s[i] != s[j]
  }

  /** The cardinals are the single bits 1, 2, 4 and 8, and no other value of
      the type has exactly one of those four bits set. */
  lemma CardinalBits()
    ensures NORTH == 1 && SOUTH == 2 && EAST == 4 && WEST == 8
    ensures forall i :: 0 <= i < 4 ==> IsSingleBit(CARDINAL_DIRS[i])
    ensures forall d: Dirs :: d in CARDINAL_DIRS <==> d == d & 0x0F && IsSingleBit(d)
  {
  }

  /** Each ordinal is the union of its two cardinals. */
  lemma OrdinalBits()
    ensures SOUTHEAST == 6 && SOUTHWEST == 10 && NORTHEAST == 5 && NORTHWEST == 9
    ensures SOUTHEAST & SOUTH == SOUTH && SOUTHEAST & EAST == EAST && SOUTHEAST & !(SOUTH | EAST) == 0
    ensures forall i :: 0 <= i < 4 ==> !IsSingleBit(ORDINAL_DIRS[i])
  {
  }

  /** The cardinal and ordinal lists are disjoint and each has four distinct
      entries; the list of all directions is exactly their union. */
  lemma DirectionLists()
    ensures Distinct(CARDINAL_DIRS) && Distinct(ORDINAL_DIRS) && Distinct(ALL_DIRS)
    ensures |CARDINAL_DIRS| == 4 && |ORDINAL_DIRS| == 4 && |ALL_DIRS| == 8
    ensures forall d :: d in CARDINAL_DIRS ==> d !in ORDINAL_DIRS
    ensures forall d :: d in ALL_DIRS <==> d in CARDINAL_DIRS || d in ORDINAL_DIRS
    ensures ALL_DIRS == CARDINAL_DIRS + ORDINAL_DIRS
  {
  }
}
