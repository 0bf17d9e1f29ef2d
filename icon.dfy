/** The values of src/icon.rs: an icon and its states, the `Looping` flag, the
    order of directions inside a state, and the lookup of one image by
    direction and frame. */
module DmiIcon {
  import opened Common
  import opened DirFlags
  import Grid

  // ---- directions ----

  /** The order in which a state's images list the directions of one frame. */
  const DIR_ORDERING: seq<Dirs> := [SOUTH, NORTH, EAST, WEST, SOUTHEAST, SOUTHWEST, NORTHEAST, NORTHWEST]

  /** The first position of `d` in `s`. */
  function Position(s: seq<Dirs>, d: Dirs): (r: Option<nat>)
    ensures r.Some? ==> r.value < |s| && s[r.value] == d && forall j :: 0 <= j < r.value ==> s[j] != d
    ensures r.None? <==> d !in s
  {
    if s == [] then None
    else if s[0] == d then Some(0)
    else match Position(s[1..], d)
      case None => None
      case Some(k) => Some(k + 1)
  }

  /** `dir_to_dmi_index`: the place of a direction in `DIR_ORDERING`. */
  function DirToDmiIndex(dir: Dirs): (r: Option<nat>)
    ensures r.Some? ==> r.value < 8 && DIR_ORDERING[r.value] == dir
    ensures r.None? <==> dir !in DIR_ORDERING
  {
    if dir == SOUTH then Some(0)
    else if dir == NORTH then Some(1)
    else if dir == EAST then Some(2)
    else if dir == WEST then Some(3)
    else if dir == SOUTHEAST then Some(4)
    else if dir == SOUTHWEST then Some(5)
    else if dir == NORTHEAST then Some(6)
    else if dir == NORTHWEST then Some(7)
    else None
  }

  /** The table is the position in `DIR_ORDERING`: entry `i` maps to `i`,
      and every other value of the type maps to nothing. */
  lemma DirToDmiIndexIsPosition(dir: Dirs)
    ensures DirToDmiIndex(dir) == Position(DIR_ORDERING, dir)
    ensures forall i :: 0 <= i < 8 ==> DirToDmiIndex(DIR_ORDERING[i]) == Some(i)
  {
    DirOrderingLists();
    match Position(DIR_ORDERING, dir)
    case None =>
    case Some(k) =>
      var i := DirToDmiIndex(dir).value;
      assert DIR_ORDERING[i] == DIR_ORDERING[k];
    DirIndexOfOrdering();
  }

  lemma DirIndexOfOrdering()
    ensures forall i :: 0 <= i < 8 ==> DirToDmiIndex(DIR_ORDERING[i]) == Some(i)
  {
    DirValues();
  }

  /** The lists of directions as bit patterns. */
  lemma DirValues()
    ensures SOUTH == 2 && NORTH == 1 && EAST == 4 && WEST == 8
    ensures SOUTHEAST == 6 && SOUTHWEST == 10 && NORTHEAST == 5 && NORTHWEST == 9
    ensures DIR_ORDERING == [2, 1, 4, 8, 6, 10, 5, 9]
    ensures CARDINAL_DIRS == [1, 2, 4, 8]
    ensures ALL_DIRS == [1, 2, 4, 8, 5, 9, 6, 10]
  {
    CardinalBits();
    OrdinalBits();
  }

  /** `DIR_ORDERING` lists every direction of `ALL_DIRS` once, the four
      cardinals first. */
  lemma DirOrderingLists()
    ensures Distinct(DIR_ORDERING)
    ensures forall d :: d in DIR_ORDERING <==> d in ALL_DIRS
    ensures DIR_ORDERING[..4] == [SOUTH, NORTH, EAST, WEST]
    ensures forall d :: d in CARDINAL_DIRS <==> d in DIR_ORDERING[..4]
  {
    DirValues();
    assert DIR_ORDERING[..4] == [SOUTH, NORTH, EAST, WEST];
  }

  // ---- looping ----

  type NonZeroU32 = n: u32 | n != 0 witness 1

  /** How an animated state repeats: forever (the default), or a positive
      number of times. */
  datatype Looping = Indefinitely | NTimes(times: NonZeroU32)

  /** `Looping::new`: zero loops means looping indefinitely. */
  function NewLooping(x: u32): (l: Looping)
    ensures l.Indefinitely? <==> x == 0
    ensures l.NTimes? ==> l.times == x
  {
    if x == 0 then Indefinitely else NTimes(x)
  }

  /** `Looping::unwrap`, which panics on `Indefinitely`. */
  function Unwrap(l: Looping): (r: Result<u32>)
    ensures r.Ok? <==> l.NTimes?
    ensures r.Ok? ==> r.value > 0 && NewLooping(r.value) == l
    ensures r.Err? ==> r.error == Panic
  {
    match l
    case NTimes(times) => Ok(times)
    case Indefinitely => Err(Panic)
  }

  /** `Looping::unwrap_or_default`: `Indefinitely` reads as zero. */
  function UnwrapOrDefault(l: Looping): (r: u32)
    ensures r == 0 <==> l.Indefinitely?
  {
    match l
    case NTimes(times) => times
    case Indefinitely => 0
  }

  /** `Looping::unwrap_or`. */
  function UnwrapOr(l: Looping, default: u32): (r: u32)
    ensures l.NTimes? ==> r == UnwrapOrDefault(l)
    ensures l.Indefinitely? ==> r == default
  {
    match l
    case NTimes(times) => times
    case Indefinitely => default
  }

  /** `From<Looping> for Option<u32>`. */
  function ToOption(l: Looping): (r: Option<u32>)
    ensures r.None? <==> l.Indefinitely?
    ensures r.Some? ==> Unwrap(l) == Ok(r.value)
  {
    match l
    case NTimes(times) => Some(times)
    case Indefinitely => None
  }

  /** `From<Looping> for Option<NonZeroU32>`. */
  function ToNonZero(l: Looping): (r: Option<NonZeroU32>)
    ensures r.None? <==> l.Indefinitely?
    ensures r.Some? ==> NewLooping(r.value) == l
  {
    match l
    case NTimes(times) => Some(times)
    case Indefinitely => None
  }

  /** `Looping` and `u32` are in one-to-one correspondence through `new` and
      `unwrap_or_default`, so a `loop` line keeps its count. */
  lemma LoopingBijection(x: u32, l: Looping)
    ensures UnwrapOrDefault(NewLooping(x)) == x
    ensures NewLooping(UnwrapOrDefault(l)) == l
    ensures UnwrapOr(NewLooping(x), 0) == x
  {
  }

  // ---- icons ----

  /** A hotspot pixel; `y` counts upwards from the bottom of the sprite. */
  datatype Hotspot = Hotspot(x: u32, y: u32)

  /** An RGBA image: `rgba` holds four bytes per pixel, row after row. */
  datatype Image = Image(width: u32, height: u32, rgba: seq<byte>)

  /** One state of an icon. Delays are kept as the text of their `f32`
      literals; `unknown_settings` keeps every other setting line as a raw
      key and value. */
  datatype IconState = IconState(
    name: string,
    dirs: u8,
    frames: u32,
    images: seq<Image>,
    delay: Option<seq<string>>,
    loop_flag: Looping,
    rewind: bool,
    movement: bool,
    hotspot: Option<Hotspot>,
    unknown_settings: Option<map<string, string>>)

  datatype Icon = Icon(version: string, width: u32, height: u32, states: seq<IconState>)

  /** `DmiVersion::default`. */
  const DEFAULT_VERSION: string := "4.0"

  /** `IconState::default`: one direction, one frame, no images. */
  const DEFAULT_STATE: IconState :=
    IconState.IconState("", 1, 1, [], None, Indefinitely, false, false, None, None)

  /** The derived `Icon::default`: zero cell size, no states (its version is
      `DmiVersion::default`). */
  const DEFAULT_ICON: Icon := Icon(DEFAULT_VERSION, 0, 0, [])

  // ---- finding one image ----

  /** The direction check of `get_image`: a 1-direction state only has
      south, a 4-direction state only the cardinals, an 8-direction state
      any of the eight; other direction counts are not checked. */
  predicate DirAllowed(dirs: u8, dir: Dirs)
  {
    !((dirs == 1 && dir != SOUTH) || (dirs == 4 && dir !in CARDINAL_DIRS) || (dirs == 8 && dir !in ALL_DIRS))
  }

  /** `get_image` as written: the image at `(idx + 1) * frame - 1`, where
      `idx` is the direction's place in `DIR_ORDERING`; a frame of 0
      underflows that subtraction. */
  function GetImageAsWritten(s: IconState, dir: Dirs, frame: u32): (r: Result<Image>)
    ensures r.Ok? ==> r.value in s.images
    ensures r.Err? && r.error != DmiError.IconState ==> frame == 0 && r.error == Panic
  {
    if s.frames < frame then Err(DmiError.IconState)
    else if !DirAllowed(s.dirs, dir) then Err(DmiError.IconState)
    else match DirToDmiIndex(dir)
      case None => Err(DmiError.IconState)
      case Some(idx) =>
        if frame == 0 then Err(Panic)
        else
          var image_idx := (idx + 1) * frame - 1;
          if image_idx < |s.images| then Ok(s.images[image_idx]) else Err(DmiError.IconState)
  }

  /** Images are stored frame after frame, each frame listing its directions
      in `DIR_ORDERING`; frames are numbered from 1. */
  function ImageIndex(dirs: nat, idx: nat, frame: nat): (r: nat)
    requires frame >= 1
    ensures idx < dirs ==> (frame - 1) * dirs <= r < frame * dirs
  {
    (frame - 1) * dirs + idx
  }

  /** `get_image` with the index of the frame-major layout, and frame 0
      refused as out of range. */
  function GetImage(s: IconState, dir: Dirs, frame: u32): (r: Result<Image>)
    ensures r.Ok? <==> 1 <= frame <= s.frames && DirAllowed(s.dirs, dir) && dir in DIR_ORDERING
                       && ImageIndex(s.dirs, DirToDmiIndex(dir).value, frame) < |s.images|
    ensures r.Err? ==> r.error == DmiError.IconState
  {
    if s.frames < frame || frame == 0 then Err(DmiError.IconState)
    else if !DirAllowed(s.dirs, dir) then Err(DmiError.IconState)
    else match DirToDmiIndex(dir)
      case None => Err(DmiError.IconState)
      case Some(idx) =>
        var image_idx := ImageIndex(s.dirs, idx, frame);
        if image_idx < |s.images| then Ok(s.images[image_idx]) else Err(DmiError.IconState)
  }

  /** For the direction counts the check knows, the allowed directions are
      exactly the first `dirs` entries of `DIR_ORDERING`. */
  lemma AllowedDirs(dirs: u8, dir: Dirs)
    requires dirs == 1 || dirs == 4 || dirs == 8
    ensures DirAllowed(dirs, dir) <==> dir in DIR_ORDERING[..dirs]
    ensures DirAllowed(dirs, dir) ==> DirToDmiIndex(dir).value < dirs
  {
    DirValues();
    assert DIR_ORDERING[..1] == [2];
    assert DIR_ORDERING[..4] == [2, 1, 4, 8];
    assert DIR_ORDERING[..8] == DIR_ORDERING;
  }

  /** In a state whose image count matches its settings, `GetImage` is a
      bijection between the allowed (direction, frame) pairs and the images:
      every pair finds an image (this lemma), different pairs find different
      positions (`GetImageInjective`), and every position is found by some
      pair (`GetImageSurjective`). */
  lemma GetImageTotal(s: IconState, dir: Dirs, frame: u32)
    requires s.dirs == 1 || s.dirs == 4 || s.dirs == 8
    requires |s.images| == s.dirs * s.frames
    requires DirAllowed(s.dirs, dir) && 1 <= frame <= s.frames
    ensures GetImage(s, dir, frame).Ok?
  {
    AllowedDirs(s.dirs, dir);
    FrameBound(s.dirs, DirToDmiIndex(dir).value, frame, s.frames);
  }

  lemma GetImageInjective(s: IconState, dir1: Dirs, frame1: u32, dir2: Dirs, frame2: u32)
    requires s.dirs == 1 || s.dirs == 4 || s.dirs == 8
    requires GetImage(s, dir1, frame1).Ok? && GetImage(s, dir2, frame2).Ok?
    requires (dir1, frame1) != (dir2, frame2)
    ensures ImageIndex(s.dirs, DirToDmiIndex(dir1).value, frame1) != ImageIndex(s.dirs, DirToDmiIndex(dir2).value, frame2)
  {
    AllowedDirs(s.dirs, dir1);
    AllowedDirs(s.dirs, dir2);
    var i1 := DirToDmiIndex(dir1).value;
    var i2 := DirToDmiIndex(dir2).value;
    if ImageIndex(s.dirs, i1, frame1) == ImageIndex(s.dirs, i2, frame2) {
      FrameSplit(s.dirs, i1, frame1, i2, frame2);
    }
  }

  lemma GetImageSurjective(s: IconState, k: nat)
    requires s.dirs == 1 || s.dirs == 4 || s.dirs == 8
    requires |s.images| == s.dirs * s.frames
    requires k < |s.images|
    ensures k / s.dirs as nat + 1 <= s.frames
    ensures GetImage(s, DIR_ORDERING[k % s.dirs as nat], k / s.dirs as nat + 1) == Ok(s.images[k])
  {
    var d: nat := s.dirs as nat;
    FrameOf(k, d, s.frames);
    var dir := DIR_ORDERING[k % d];
    DirOfIndex(s.dirs, k % d);
    GetImageAt(s, dir, k / d + 1, k % d);
  }

  /** Position `i` below `dirs` of `DIR_ORDERING` is an allowed direction. */
  lemma DirOfIndex(dirs: u8, i: nat)
    requires dirs == 1 || dirs == 4 || dirs == 8
    requires i < dirs as nat
    ensures DirToDmiIndex(DIR_ORDERING[i]) == Some(i) && DirAllowed(dirs, DIR_ORDERING[i])
  {
    DirToDmiIndexIsPosition(DIR_ORDERING[i]);
    assert DIR_ORDERING[..dirs][i] == DIR_ORDERING[i];
    AllowedDirs(dirs, DIR_ORDERING[i]);
  }

  lemma GetImageAt(s: IconState, dir: Dirs, frame: nat, i: nat)
    requires 1 <= frame <= s.frames && DirAllowed(s.dirs, dir) && DirToDmiIndex(dir) == Some(i)
    requires ImageIndex(s.dirs, i, frame) < |s.images|
    ensures GetImage(s, dir, frame) == Ok(s.images[ImageIndex(s.dirs, i, frame)])
  {
  }

  lemma FrameBound(d: nat, i: nat, frame: nat, frames: nat)
    requires i < d && 1 <= frame <= frames
    ensures ImageIndex(d, i, frame) < d * frames
  {
    Grid.CellEnd(frame - 1, frames, d);
  }

  lemma FrameSplit(d: nat, i1: nat, f1: nat, i2: nat, f2: nat)
    requires i1 < d && i2 < d && f1 >= 1 && f2 >= 1
    requires ImageIndex(d, i1, f1) == ImageIndex(d, i2, f2)
    ensures i1 == i2 && f1 == f2
  {
    var n := ImageIndex(d, i1, f1);
    Grid.DivUnique(n, d, f1 - 1, i1);
    Grid.DivUnique(n, d, f2 - 1, i2);
  }

  lemma FrameOf(k: nat, d: nat, frames: nat)
    requires d > 0 && k < d * frames
    ensures k / d + 1 <= frames
    ensures ImageIndex(d, k % d, k / d + 1) == k
  {
    Grid.RowBound(k, d, frames);
  }

  /** The counterexample to the index of `get_image` as written: in a state
      with four directions and two frames, south in frame 2 and north in
      frame 1 both land on the second image, while the image of north in
      frame 2 (the sixth) is never returned for north. */
  lemma GetImageAsWrittenCollides(s: IconState)
    requires s.dirs == 4 && s.frames == 2 && |s.images| == 8
    ensures GetImageAsWritten(s, SOUTH, 2) == GetImageAsWritten(s, NORTH, 1) == Ok(s.images[1])
    ensures GetImageAsWritten(s, NORTH, 2) == Ok(s.images[3])
    ensures GetImage(s, SOUTH, 2) == Ok(s.images[4])
    ensures GetImage(s, NORTH, 2) == Ok(s.images[5])
  {
    assert SOUTH in CARDINAL_DIRS && NORTH in CARDINAL_DIRS;
  }
}
