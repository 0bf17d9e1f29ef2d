/** The older icon codec of src/dmi/icon.rs. It reads the same metadata
    text with different rules: the width and height lines are mandatory and
    come in a fixed order, every line is cut at each ` = ` (so a value may
    not hold one), state names lose their outer quotes and are not
    unescaped, a block ends at any line that holds the trailer or a
    `state = "` opening, and the animation flags are kept as the numbers
    written. Saving writes names verbatim, the hotspot under the key
    `array`, and lays the sprites out on a square sheet.

    The decoding of the sheet is not part of this model: loading takes the
    decoded image's size, and a sprite is the region of the sheet it was
    cut from. */
module LegacyIcon {
  import opened Common
  import opened Text
  import Grid
  import DmiLine
  import IconLoad
  import IconSave

  const BEGIN_DMI: string := "# BEGIN DMI"
  const END_DMI: string := "# END DMI"
  const SEPARATOR: string := DmiLine.SEPARATOR
  /** What a line that opens a state block holds. */
  const STATE_OPENING: string := "state = \""
  const U32_LIMIT: nat := 0x1_0000_0000

  // ---- data ----

  /** A sprite, as the region of the sheet it was cut out of: its top left
      pixel and its size. */
  datatype Sprite = Sprite(x: nat, y: nat, width: u32, height: u32)

  /** The hotspot, kept as the three numbers of its line. */
  datatype HotspotArray = HotspotArray(x: u32, y: u32, z: u32)

  datatype IconState = IconState(
    name: string,
    dirs: u8,
    frames: u32,
    images: seq<Sprite>,
    delay: Option<seq<string>>,
    loop_flag: Option<u32>,
    rewind: Option<u32>,
    movement: Option<u32>,
    hotspot: Option<HotspotArray>,
    unknown_settings: Option<map<string, string>>)

  datatype Icon = Icon(version: string, width: u32, height: u32, states: seq<IconState>)

  const DEFAULT_VERSION: string := "4.0"

  /** `IconState::default()`: one direction, one frame, and no image. */
  const DEFAULT_STATE: IconState := IconState.IconState("", 1, 1, [], None, None, None, None, None, None)

  // ---- fields of a line ----

  /** `line.split_terminator(" = ")`: the line cut at every separator, a
      trailing empty piece dropped. */
  function Fields(line: string): seq<string>
  {
    SplitTerminator(line, SEPARATOR)
  }

  /** A string in which the separator does not occur. */
  ghost predicate SeparatorFree(s: string)
  {
    forall j :: 0 <= j ==> !OccursAt(s, SEPARATOR, j)
  }

  predicate EndsWith(s: string, suffix: string)
  {
    |suffix| <= |s| && s[|s| - |suffix|..] == suffix
  }

  // ---- the header ----

  datatype Header = Header(version: string, width: u32, height: u32)

  /** Line `i` as a header line with key `key`: it must be there and hold
      exactly two fields, the first of them `key`. Gives the second. */
  function HeaderField(lines: seq<string>, i: nat, key: string): (r: Result<string>)
    ensures r.Ok? <==> i < |lines| && |Fields(lines[i])| == 2 && Fields(lines[i])[0] == key
    ensures r.Ok? ==> Fields(lines[i]) == [key, r.value]
  {
    if i >= |lines| then Err(Generic)
    else
      var fields := Fields(lines[i]);
      if |fields| != 2 || fields[0] != key then Err(Generic) else Ok(fields[1])
  }

  /** The four header lines (src/dmi/icon.rs:34-98): `# BEGIN DMI`, then
      `version`, `\twidth` and `\theight` in that order. The width is parsed
      before the height line is looked at; a zero size is refused. */
  function ReadHeader(lines: seq<string>): (r: Result<Header>)
    ensures r.Ok? ==> |lines| >= 4 && lines[0] == BEGIN_DMI
    ensures r.Ok? ==> Fields(lines[1]) == ["version", r.value.version]
    ensures r.Ok? ==> r.value.width > 0 && r.value.height > 0
    ensures r.Ok? ==> |Fields(lines[2])| == 2 && Fields(lines[2])[0] == "\twidth" && ParseU32(Fields(lines[2])[1]) == Ok(r.value.width)
    ensures r.Ok? ==> |Fields(lines[3])| == 2 && Fields(lines[3])[0] == "\theight" && ParseU32(Fields(lines[3])[1]) == Ok(r.value.height)
  {
    if |lines| == 0 || lines[0] != BEGIN_DMI then Err(Generic)
    else
      match HeaderField(lines, 1, "version")
      case Err(e) => Err(e)
      case Ok(version) =>
        match HeaderField(lines, 2, "\twidth")
        case Err(e) => Err(e)
        case Ok(w) =>
          match ParseU32(w)
          case Err(e) => Err(e)
          case Ok(width) =>
            match HeaderField(lines, 3, "\theight")
            case Err(e) => Err(e)
            case Ok(h) =>
              match ParseU32(h)
              case Err(e) => Err(e)
              case Ok(height) =>
                if width == 0 || height == 0 then Err(Generic) else Ok(Header(version, width, height))
  }

  // ---- the state line ----

  /** The name held by a `state` line's value (src/dmi/icon.rs:143-156): the
      value must begin and end with a quote; a lone quote is refused; the
      outer quotes are removed and nothing else is changed. */
  function StateName(value: string): (r: Result<string>)
    ensures r.Ok? <==> |value| >= 2 && value[0] == '"' && value[|value| - 1] == '"'
    ensures r.Ok? ==> value == "\"" + r.value + "\""
  {
    if !StartsWith(value, "\"") || !EndsWith(value, "\"") then Err(Generic)
    else if |value| <= 1 then Err(Generic)
    else if |value| == 2 then Ok("")
    else Ok(value[1..|value| - 1])
  }

  // ---- setting lines ----

  datatype Settings = Settings(
    dirs: Option<u8>,
    frames: Option<u32>,
    delay: Option<seq<string>>,
    loop_flag: Option<u32>,
    rewind: Option<u32>,
    movement: Option<u32>,
    hotspot: Option<HotspotArray>,
    unknown_settings: Option<map<string, string>>)

  const NO_SETTINGS: Settings := Settings(None, None, None, None, None, None, None, None)

  /** A line that ends a state block: one that holds the trailer or the
      opening of a `state` line anywhere in it. */
  predicate EndsBlock(line: string)
  {
    Contains(line, END_DMI) || Contains(line, STATE_OPENING)
  }

  /** The keys the older loader matches on, with their leading tab. */
  predicate KnownKey(key: string)
  {
    key in {"\tdirs", "\tframes", "\tdelay", "\tloop", "\trewind", "\tmovement", "\thotspot"}
  }

  /** The keys whose value the older loader parses as a `u32`. */
  predicate NumberKey(key: string)
  {
    key in {"\tloop", "\trewind", "\tmovement", "\tframes"}
  }

  /** The effect of one setting line, cut into `key` and `value`
      (src/dmi/icon.rs:188-228). The three hotspot numbers are parsed in
      order; a key the loader does not know is kept, with its leading tab,
      as an unknown setting. */
  function ApplySetting(acc: Settings, key: string, value: string): (r: Result<Settings>)
    ensures r.Ok? && !KnownKey(key) ==>
      r.value == acc.(unknown_settings := Some(IconLoad.AddUnknown(acc.unknown_settings, key, value)))
  {
    if key == "\tdirs" then
      match ParseU8(value)
      case Err(e) => Err(e)
      case Ok(d) => Ok(acc.(dirs := Some(d)))
    else if key == "\tframes" then
      match ParseU32(value)
      case Err(e) => Err(e)
      case Ok(f) => Ok(acc.(frames := Some(f)))
    else if key == "\tdelay" then
      match IconLoad.Delays(value)
      case Err(e) => Err(e)
      case Ok(ds) => Ok(acc.(delay := Some(ds)))
    else if key == "\tloop" then
      match ParseU32(value)
      case Err(e) => Err(e)
      case Ok(n) => Ok(acc.(loop_flag := Some(n)))
    else if key == "\trewind" then
      match ParseU32(value)
      case Err(e) => Err(e)
      case Ok(n) => Ok(acc.(rewind := Some(n)))
    else if key == "\tmovement" then
      match ParseU32(value)
      case Err(e) => Err(e)
      case Ok(n) => Ok(acc.(movement := Some(n)))
    else if key == "\thotspot" then
      var coordinates := SplitTerminator(value, ",");
      if |coordinates| != 3 then Err(Generic)
      else
        match ParseU32(coordinates[0])
        case Err(e) => Err(e)
        case Ok(x) =>
          match ParseU32(coordinates[1])
          case Err(e) => Err(e)
          case Ok(y) =>
            match ParseU32(coordinates[2])
            case Err(e) => Err(e)
            case Ok(z) => Ok(acc.(hotspot := Some(HotspotArray(x, y, z))))
    else
      Ok(acc.(unknown_settings := Some(IconLoad.AddUnknown(acc.unknown_settings, key, value))))
  }

  /** The setting lines after line `last`, up to the line that ends the
      block, whose index is returned. Running out of lines is an error, and
      so is a setting line that does not hold exactly two fields. */
  function ReadSettings(lines: seq<string>, last: nat, acc: Settings): (r: Result<(Settings, nat)>)
    requires last < |lines|
    decreases |lines| - last
    ensures r.Ok? ==> last < r.value.1 < |lines| && EndsBlock(lines[r.value.1])
  {
    var pos := last + 1;
    if pos == |lines| then Err(Generic)
    else if EndsBlock(lines[pos]) then Ok((acc, pos))
    else
      var fields := Fields(lines[pos]);
      if |fields| != 2 then Err(Generic)
      else
        match ApplySetting(acc, fields[0], fields[1])
        case Err(e) => Err(e)
        case Ok(next) => ReadSettings(lines, pos, next)
  }

  lemma ReadSettingsStep(lines: seq<string>, current: nat, acc: Settings, applied: Settings)
    requires current + 1 < |lines| && !EndsBlock(lines[current + 1])
    requires |Fields(lines[current + 1])| == 2
    requires ApplySetting(acc, Fields(lines[current + 1])[0], Fields(lines[current + 1])[1]) == Ok(applied)
    ensures ReadSettings(lines, current, acc) == ReadSettings(lines, current + 1, applied)
  {
  }

  /** The line that ends a block is the first such line after its start. */
  lemma {:induction false} ReadSettingsFirstEnd(lines: seq<string>, last: nat, acc: Settings, settings: Settings, stop: nat)
    requires last < |lines| && ReadSettings(lines, last, acc) == Ok((settings, stop))
    decreases |lines| - last
    ensures forall j {:trigger EndsBlock(lines[j])} :: last < j < stop ==> !EndsBlock(lines[j])
  {
    if last + 1 < stop {
      var applied, next := ReadSettingsNext(lines, last, acc, settings, stop);
      ReadSettingsFirstEnd(lines, next, applied, settings, stop);
      NoEndBefore(lines, last, next, stop);
    }
  }

  lemma NoEndBefore(lines: seq<string>, last: nat, next: nat, stop: nat)
    requires next == last + 1 && next < stop <= |lines| && !EndsBlock(lines[next])
    requires forall j {:trigger EndsBlock(lines[j])} :: next < j < stop ==> !EndsBlock(lines[j])
    ensures forall j {:trigger EndsBlock(lines[j])} :: last < j < stop ==> !EndsBlock(lines[j])
  {
  }

  lemma ReadSettingsNext(lines: seq<string>, last: nat, acc: Settings, settings: Settings, stop: nat)
    returns (applied: Settings, next: nat)
    requires last < |lines| && ReadSettings(lines, last, acc) == Ok((settings, stop)) && last + 1 < stop
    ensures next == last + 1 && next < |lines| && !EndsBlock(lines[next])
    ensures ReadSettings(lines, next, applied) == Ok((settings, stop))
  {
    next := last + 1;
    applied := ApplySetting(acc, Fields(lines[last + 1])[0], Fields(lines[last + 1])[1]).value;
    ReadSettingsStep(lines, last, acc, applied);
  }

  // ---- the sheet ----

  /** The checks on the decoded sheet's size: nonzero, a whole number of
      cells each way, and a number of cells that fits a `u32`. */
  function CheckSheet(width: u32, height: u32, img_width: u32, img_height: u32): (r: Result<IconLoad.Geometry>)
    requires width > 0 && height > 0
    ensures r.Ok? <==> IconLoad.ValidGeometry(IconLoad.Geometry(width, height, img_width, img_height))
    ensures r.Ok? ==> r.value == IconLoad.Geometry(width, height, img_width, img_height)
  {
    var g := IconLoad.Geometry(width, height, img_width, img_height);
    if img_width == 0 || img_height == 0 || img_width % width != 0 || img_height % height != 0 then Err(Generic)
    else if IconLoad.MaxCells(g) >= U32_LIMIT then Err(Panic)
    else Ok(g)
  }

  function Columns(g: IconLoad.Geometry): (cols: nat)
    requires IconLoad.ValidGeometry(g)
    ensures cols > 0
  {
    Grid.MulMono(1, g.img_width / g.width, g.width);
    g.img_width / g.width
  }

  /** The region cell `i` covers: `crop_imm` at `((i % cols) * w,
      (i / cols) * h)`, `w` by `h` pixels. */
  function Cell(g: IconLoad.Geometry, i: nat): (c: Sprite)
    requires IconLoad.ValidGeometry(g)
    ensures (c.x, c.y) == Grid.CellOrigin(i, Columns(g), g.width, g.height)
  {
    var (x, y) := Grid.CellOrigin(i, Columns(g), g.width, g.height);
    Sprite(x, y, g.width, g.height)
  }

  /** Cells `from .. to`, in order. */
  function Cells(g: IconLoad.Geometry, from: nat, to: nat): (cs: seq<Sprite>)
    requires IconLoad.ValidGeometry(g) && from <= to
    ensures |cs| == to - from
    ensures forall k :: 0 <= k < to - from ==> cs[k] == Cell(g, from + k)
  {
    seq(to - from, k requires 0 <= k < to - from => Cell(g, from + k))
  }

  // ---- state blocks ----

  /** The checks that close a block (src/dmi/icon.rs:232-255): `dirs` and
      `frames` must be present, `dirs * frames` and the next cell number are
      `u32` sums and products (overflow panics), and the state's cells must
      fit in the sheet. The state takes the next `dirs * frames` cells.
      Gives the state and the number of the next free cell. */
  function CloseBlock(name: string, st: Settings, index: nat, g: IconLoad.Geometry): (r: Result<(IconState, nat)>)
    requires IconLoad.ValidGeometry(g) && index <= IconLoad.MaxCells(g)
    ensures r.Ok? ==> st.dirs.Some? && st.frames.Some?
    ensures r.Ok? ==> r.value.0.name == name && r.value.0.dirs == st.dirs.value && r.value.0.frames == st.frames.value
    ensures r.Ok? ==> r.value.1 == index + IconLoad.CellCount(r.value.0.dirs, r.value.0.frames) <= IconLoad.MaxCells(g)
    ensures r.Ok? ==> r.value.0.images == Cells(g, index, r.value.1)
    ensures st.dirs.Some? && st.frames.Some? && index + IconLoad.CellCount(st.dirs.value, st.frames.value) < U32_LIMIT
            ==> (r.Ok? <==> index + IconLoad.CellCount(st.dirs.value, st.frames.value) <= IconLoad.MaxCells(g))
  {
    match (st.dirs, st.frames)
    case (Some(dirs), Some(frames)) =>
      var n := IconLoad.CellCount(dirs, frames);
      if n >= U32_LIMIT || index + n >= U32_LIMIT then Err(Panic)
      else if index + n > IconLoad.MaxCells(g) then Err(Generic)
      else
        Ok((IconState.IconState(name, dirs, frames, Cells(g, index, index + n), st.delay, st.loop_flag, st.rewind,
                      st.movement, st.hotspot, st.unknown_settings), index + n))
    case _ => Err(Generic)
  }

  /** One state block starting at line `pos`, its cells numbered from
      `index`: a `state` line with exactly two fields and a quoted name,
      setting lines, then the checks of `CloseBlock`. Gives the state, the
      line that ended the block and the next free cell. */
  function ReadBlock(lines: seq<string>, pos: nat, index: nat, g: IconLoad.Geometry): (r: Result<(IconState, nat, nat)>)
    requires pos < |lines| && IconLoad.ValidGeometry(g) && index <= IconLoad.MaxCells(g)
    ensures r.Ok? ==> pos < r.value.1 < |lines| && index <= r.value.2 <= IconLoad.MaxCells(g)
    ensures r.Ok? ==> |Fields(lines[pos])| == 2 && Fields(lines[pos])[0] == "state"
    ensures r.Ok? ==> StateName(Fields(lines[pos])[1]) == Ok(r.value.0.name)
    ensures r.Ok? ==> r.value.0.images == Cells(g, index, r.value.2)
  {
    var fields := Fields(lines[pos]);
    if |fields| != 2 || fields[0] != "state" then Err(Generic)
    else
      match StateName(fields[1])
      case Err(e) => Err(e)
      case Ok(name) =>
        match ReadSettings(lines, pos, NO_SETTINGS)
        case Err(e) => Err(e)
        case Ok(block) =>
          match CloseBlock(name, block.0, index, g)
          case Err(e) => Err(e)
          case Ok(closed) => Ok((closed.0, block.1, closed.1))
  }

  /** Prepending a finished state to the result of the remaining blocks. */
  function Then(states: seq<IconState>, rest: Result<seq<IconState>>): (r: Result<seq<IconState>>)
    ensures r.Ok? <==> rest.Ok?
    ensures r.Ok? ==> r.value == states + rest.value
    ensures r.Err? ==> r.error == rest.error
  {
    match rest
    case Ok(more) => Ok(states + more)
    case Err(e) => Err(e)
  }

  /** The state blocks from line `pos` on, up to a line that holds the
      trailer. */
  function ReadStates(lines: seq<string>, pos: nat, index: nat, g: IconLoad.Geometry): (r: Result<seq<IconState>>)
    requires pos < |lines| && IconLoad.ValidGeometry(g) && index <= IconLoad.MaxCells(g)
    decreases |lines| - pos
    ensures Contains(lines[pos], END_DMI) ==> r == Ok([])
    ensures r.Ok? ==> exists j :: pos <= j < |lines| && Contains(lines[j], END_DMI)
  {
    if Contains(lines[pos], END_DMI) then Ok([])
    else
      match ReadBlock(lines, pos, index, g)
      case Err(e) => Err(e)
      case Ok(block) => Then([block.0], ReadStates(lines, block.1, block.2, g))
  }

  lemma ReadStatesStep(lines: seq<string>, current: nat, index: nat, g: IconLoad.Geometry,
                       state: IconState, next: nat, next_index: nat)
    requires current < |lines| && IconLoad.ValidGeometry(g) && index <= IconLoad.MaxCells(g)
    requires !Contains(lines[current], END_DMI)
    requires ReadBlock(lines, current, index, g) == Ok((state, next, next_index))
    ensures ReadStates(lines, current, index, g) == Then([state], ReadStates(lines, next, next_index, g))
  {
  }

  /** `Icon::load` from the decompressed text on, for a decoded sheet of
      `img_width` by `img_height` pixels: the header, the checks on the
      sheet, and the state blocks, their cells numbered from 0. */
  function Load(text: string, img_width: u32, img_height: u32): (r: Result<Icon>)
    ensures r.Ok? ==> |Lines(text)| > 4 && ReadHeader(Lines(text)).Ok?
    ensures r.Ok? ==> var header := ReadHeader(Lines(text)).value;
      r.value.version == header.version && r.value.width == header.width && r.value.height == header.height
  {
    var lines := Lines(text);
    match ReadHeader(lines)
    case Err(e) => Err(e)
    case Ok(header) =>
      match CheckSheet(header.width, header.height, img_width, img_height)
      case Err(e) => Err(e)
      case Ok(g) =>
        if |lines| == 4 then Err(Generic)
        else
          match ReadStates(lines, 4, 0, g)
          case Err(e) => Err(e)
          case Ok(states) => Ok(Icon(header.version, header.width, header.height, states))
  }

  // ---- saving ----

  /** The header lines, with the sizes as decimal numbers. */
  function HeaderLines(icon: Icon): seq<string>
  {
    [BEGIN_DMI, "version = " + icon.version, "\twidth = " + Decimal(icon.width), "\theight = " + Decimal(icon.height)]
  }

  /** The line that opens a block: the name, verbatim, in quotes. */
  function NameLine(name: string): string
  {
    "state = \"" + name + "\""
  }

  /** An optional number's line, when there is a number. */
  function NumberLines(n: Option<u32>, key: string): seq<string>
  {
    match n
    case Some(v) => [key + SEPARATOR + Decimal(v)]
    case None => []
  }

  /** The three numbers of the hotspot, comma-separated. */
  function ArrayValue(a: HotspotArray): string
  {
    Decimal(a.x) + "," + Decimal(a.y) + "," + Decimal(a.z)
  }

  function ArrayLines(h: Option<HotspotArray>): seq<string>
  {
    match h
    case Some(a) => ["\tarray" + SEPARATOR + ArrayValue(a)]
    case None => []
  }

  /** The lines of an animated state: its delays, as many as its frames
      (the count converted to a `u32`), then the loop count and flags it
      holds. A state without delays cannot be saved. */
  function AnimationLines(s: IconState): (r: Result<seq<string>>)
    requires s.frames > 1
    ensures r.Err? ==> r.error == Generic
    ensures r.Ok? <==> s.delay.Some? && |s.delay.value| % U32_LIMIT == s.frames as nat
  {
    match s.delay
    case None => Err(Generic)
    case Some(delay) =>
      if |delay| % U32_LIMIT != s.frames as nat then Err(Generic)
      else Ok(["\tdelay = " + Join(delay, ",")] + NumberLines(s.loop_flag, "\tloop")
              + NumberLines(s.rewind, "\trewind") + NumberLines(s.movement, "\tmovement"))
  }

  /** The iteration order of a state's unknown settings. */
  ghost predicate KeyOrder(s: IconState, keys: seq<string>)
  {
    match s.unknown_settings
    case None => keys == []
    case Some(m) => IconSave.ListsKeys(keys, m)
  }

  ghost predicate KeyOrders(states: seq<IconState>, orders: seq<seq<string>>)
  {
    |orders| == |states| && forall i :: 0 <= i < |states| ==> KeyOrder(states[i], orders[i])
  }

  /** The lines of one state block (src/dmi/icon.rs:286-333): the image
      count, converted to a `u32`, must equal the `u32` product
      `dirs * frames` (overflow panics); an animated state adds its delays
      and the flags it holds; a still one writes none of them. */
  function StateLines(s: IconState, keys: seq<string>): (r: Result<seq<string>>)
    requires KeyOrder(s, keys)
    ensures r.Err? <==> IconLoad.CellCount(s.dirs, s.frames) >= U32_LIMIT
                        || |s.images| % U32_LIMIT != IconLoad.CellCount(s.dirs, s.frames)
                        || (s.frames > 1 && (s.delay.None? || |s.delay.value| % U32_LIMIT != s.frames as nat))
    ensures r.Err? ==> (r.error == Panic <==> IconLoad.CellCount(s.dirs, s.frames) >= U32_LIMIT)
    ensures r.Ok? ==> |r.value| >= 3 && r.value[0] == NameLine(s.name)
  {
    var n := IconLoad.CellCount(s.dirs, s.frames);
    if n >= U32_LIMIT then Err(Panic)
    else if |s.images| % U32_LIMIT != n then Err(Generic)
    else
      var head := [NameLine(s.name), "\tdirs = " + Decimal(s.dirs), "\tframes = " + Decimal(s.frames)];
      match (if s.frames > 1 then AnimationLines(s) else Ok([]))
      case Err(e) => Err(e)
      case Ok(animation) => Ok(head + animation + ArrayLines(s.hotspot) + IconSave.UnknownLines(s.unknown_settings, keys))
  }

  lemma KeyOrdersPrefix(states: seq<IconState>, orders: seq<seq<string>>, k: nat)
    requires KeyOrders(states, orders) && k <= |states|
    ensures KeyOrders(states[..k], orders[..k])
  {
  }

  /** The blocks of the states, in order; the first state that cannot be
      saved gives the error. */
  function StatesLines(states: seq<IconState>, orders: seq<seq<string>>): (r: Result<seq<string>>)
    requires KeyOrders(states, orders)
    decreases |states|
  {
    if states == [] then Ok([])
    else
      var k := |states| - 1;
      KeyOrdersPrefix(states, orders, k);
      match StatesLines(states[..k], orders[..k])
      case Err(e) => Err(e)
      case Ok(before) =>
        match StateLines(states[k], orders[k])
        case Err(e) => Err(e)
        case Ok(block) => Ok(before + block)
  }

  /** The images of the states, one after another. */
  function Sprites(states: seq<IconState>): seq<Sprite>
  {
    if states == [] then [] else Sprites(states[..|states| - 1]) + states[|states| - 1].images
  }

  /** What saving produces before the sheet is drawn and encoded: the
      metadata text, the sprites in order, and the side of the square
      sheet in cells. */
  datatype Saved = Saved(signature: string, sprites: seq<Sprite>, side: nat)

  /** The square sheet for `n` sprites: `m` cells a side, `m` the ceiling
      of the square root of `n`; its pixel sizes are `u32` products
      (overflow panics). */
  function SquareSheet(n: nat, width: u32, height: u32): (r: Result<nat>)
    ensures r.Err? ==> r.error == Panic
    ensures r.Ok? ==> r.value == Grid.SquareSize(n) && r.value * width < U32_LIMIT && r.value * height < U32_LIMIT
  {
    var m := Grid.SquareSize(n);
    if m * width >= U32_LIMIT || m * height >= U32_LIMIT then Err(Panic) else Ok(m)
  }

  function SaveIcon(icon: Icon, orders: seq<seq<string>>): (r: Result<Saved>)
    requires KeyOrders(icon.states, orders)
    ensures r.Ok? ==> StatesLines(icon.states, orders).Ok? && r.value.sprites == Sprites(icon.states)
    ensures r.Ok? ==> r.value.side == Grid.SquareSize(|r.value.sprites|)
    ensures r.Err? && StatesLines(icon.states, orders).Ok? ==> r.error == Panic
  {
    match StatesLines(icon.states, orders)
    case Err(e) => Err(e)
    case Ok(body) =>
      var sprites := Sprites(icon.states);
      match SquareSheet(|sprites|, icon.width, icon.height)
      case Err(e) => Err(e)
      case Ok(m) => Ok(Saved(JoinLines(HeaderLines(icon) + body + [END_DMI]), sprites, m))
  }

  /** The pixel at which sprite `i` is drawn on a sheet `m` cells a side;
      the sprite's index is converted to a `u32` (truncating). */
  function Placement(i: nat, m: nat, width: u32, height: u32): (nat, nat)
    requires m > 0
  {
    Grid.PlaceOrigin(i % U32_LIMIT, m, width, height)
  }

  // ---- the loops of loading ----

  lemma CellsSnoc(g: IconLoad.Geometry, from: nat, to: nat)
    requires IconLoad.ValidGeometry(g) && from <= to
    ensures Cells(g, from, to + 1) == Cells(g, from, to) + [Cell(g, to)]
  {
  }

  /** The crop loops of one state (src/dmi/icon.rs:245-255): frames outer,
      directions inner, each image the next cell. */
  method CropImages(g: IconLoad.Geometry, first: nat, dirs: u8, frames: u32) returns (images: seq<Sprite>, index: nat)
    requires IconLoad.ValidGeometry(g)
    ensures index == first + IconLoad.CellCount(dirs, frames)
    ensures images == Cells(g, first, index)
  {
    var width_in_states := g.img_width / g.width;
    assert width_in_states == Columns(g);
    images := [];
    index := first;
    ghost var d: nat := dirs;
    for frame := 0 to frames
      invariant index == first + frame * d
      invariant images == Cells(g, first, index)
    {
      for dir := 0 to dirs
        invariant index == first + frame * d + dir
        invariant images == Cells(g, first, index)
      {
        var x := (index % width_in_states) * g.width;
        var y := (index / width_in_states) * g.height;
        CellsSnoc(g, first, index);
        images := images + [Sprite(x, y, g.width, g.height)];
        index := index + 1;
      }
      Grid.MulStep(frame, d);
    }
    assert frames * d == IconLoad.CellCount(dirs, frames);
  }

  /** What the loop over setting lines does with the line after `current`:
      it ends the block (or the text, or fails), or applies one setting. */
  datatype SettingStep = Ended(result: Result<(Settings, nat)>) | Applied(settings: Settings)

  method ReadSettingLine(lines: seq<string>, current: nat, settings: Settings) returns (r: SettingStep)
    requires current < |lines|
    ensures r.Ended? ==> r.result == ReadSettings(lines, current, settings)
    ensures r.Applied? ==> current + 1 < |lines|
    ensures r.Applied? ==> ReadSettings(lines, current + 1, r.settings) == ReadSettings(lines, current, settings)
  {
    if current + 1 == |lines| {
      return Ended(Err(Generic));
    }
    var current_line := lines[current + 1];
    if Contains(current_line, END_DMI) || Contains(current_line, STATE_OPENING) {
      return Ended(Ok((settings, current + 1)));
    }
    var split_version := Fields(current_line);
    if |split_version| != 2 {
      return Ended(Err(Generic));
    }
    var applied := ApplySetting(settings, split_version[0], split_version[1]);
    match applied {
      case Err(e) =>
        return Ended(Err(e));
      case Ok(next_settings) =>
        ReadSettingsStep(lines, current, settings, next_settings);
        return Applied(next_settings);
    }
  }

  /** The inner loop of `Icon::load`: the setting lines after the `state`
      line `pos`, up to the line that ends the block. */
  method ReadSettingLines(lines: seq<string>, pos: nat) returns (r: Result<(Settings, nat)>)
    requires pos < |lines|
    ensures r == ReadSettings(lines, pos, NO_SETTINGS)
  {
    var settings := NO_SETTINGS;
    for current := pos to |lines| - 1
      invariant ReadSettings(lines, current, settings) == ReadSettings(lines, pos, NO_SETTINGS)
    {
      var step := ReadSettingLine(lines, current, settings);
      match step {
        case Ended(result) =>
          return result;
        case Applied(next_settings) =>
          settings := next_settings;
      }
    }
    return Err(Generic);
  }

  /** The checks that close a block, and the crop loops. */
  method CloseStateBlock(name: string, settings: Settings, index: nat, g: IconLoad.Geometry)
    returns (r: Result<(IconState, nat)>)
    requires IconLoad.ValidGeometry(g) && index <= IconLoad.MaxCells(g)
    ensures r == CloseBlock(name, settings, index, g)
  {
    if settings.dirs.None? || settings.frames.None? {
      return Err(Generic);
    }
    var dirs := settings.dirs.value;
    var frames := settings.frames.value;
    var n := IconLoad.CellCount(dirs, frames);
    if n >= U32_LIMIT || index + n >= U32_LIMIT {
      return Err(Panic);
    }
    if index + n > IconLoad.MaxCells(g) {
      return Err(Generic);
    }
    var images, next_index := CropImages(g, index, dirs, frames);
    var state := IconState.IconState(name, dirs, frames, images, settings.delay, settings.loop_flag,
                                     settings.rewind, settings.movement, settings.hotspot, settings.unknown_settings);
    return Ok((state, next_index));
  }

  /** The body of the loop over state blocks. */
  method ReadStateBlock(lines: seq<string>, pos: nat, index: nat, g: IconLoad.Geometry)
    returns (r: Result<(IconState, nat, nat)>)
    requires pos < |lines| && IconLoad.ValidGeometry(g) && index <= IconLoad.MaxCells(g)
    ensures r == ReadBlock(lines, pos, index, g)
  {
    var split_version := Fields(lines[pos]);
    if |split_version| != 2 || split_version[0] != "state" {
      return Err(Generic);
    }
    var name := StateName(split_version[1]);
    if name.Err? {
      return Err(name.error);
    }
    var block := ReadSettingLines(lines, pos);
    match block {
      case Err(e) =>
        return Err(e);
      case Ok(b) =>
        var closed := CloseStateBlock(name.value, b.0, index, g);
        match closed {
          case Err(e) =>
            return Err(e);
          case Ok(c) =>
            return Ok((c.0, b.1, c.1));
        }
    }
  }

  lemma ThenAppend(states: seq<IconState>, state: IconState, rest: Result<seq<IconState>>)
    ensures Then(states, Then([state], rest)) == Then(states + [state], rest)
  {
    match rest
    case Ok(more) =>
      assert states + ([state] + more) == (states + [state]) + more;
    case Err(_) =>
  }

  /** The outer loop of `Icon::load`: state blocks from line `first` on,
      their cells numbered from 0, until a line holding the trailer. */
  method ReadStateBlocks(lines: seq<string>, first: nat, g: IconLoad.Geometry) returns (r: Result<seq<IconState>>)
    requires first < |lines| && IconLoad.ValidGeometry(g)
    ensures r == ReadStates(lines, first, 0, g)
  {
    var index: nat := 0;
    var current := first;
    var states: seq<IconState> := [];
    assert Then([], ReadStates(lines, first, 0, g)) == ReadStates(lines, first, 0, g) by {
      if ReadStates(lines, first, 0, g).Ok? {
        assert [] + ReadStates(lines, first, 0, g).value == ReadStates(lines, first, 0, g).value;
      }
    }
    while !Contains(lines[current], END_DMI)
      invariant current < |lines| && index <= IconLoad.MaxCells(g)
      invariant Then(states, ReadStates(lines, current, index, g)) == ReadStates(lines, first, 0, g)
      decreases |lines| - current
    {
      var block := ReadStateBlock(lines, current, index, g);
      match block {
        case Err(e) =>
          return Err(e);
        case Ok(b) =>
          ReadStatesStep(lines, current, index, g, b.0, b.1, b.2);
          ThenAppend(states, b.0, ReadStates(lines, b.1, b.2, g));
          states := states + [b.0];
          index := b.2;
          current := b.1;
      }
    }
    assert ReadStates(lines, current, index, g) == Ok([]);
    assert states + [] == states;
    return Ok(states);
  }

  /** `Icon::load` from the decompressed text on (src/dmi/icon.rs:32-277). */
  method LoadIcon(text: string, img_width: u32, img_height: u32) returns (r: Result<Icon>)
    ensures r == Load(text, img_width, img_height)
  {
    var lines := Lines(text);
    var header := ReadHeader(lines);
    if header.Err? {
      return Err(header.error);
    }
    var width := header.value.width;
    var height := header.value.height;
    if img_width == 0 || img_height == 0 || img_width % width != 0 || img_height % height != 0 {
      return Err(Generic);
    }
    var g := IconLoad.Geometry(width, height, img_width, img_height);
    var width_in_states := img_width / width;
    var height_in_states := img_height / height;
    if width_in_states * height_in_states >= U32_LIMIT {
      return Err(Panic);
    }
    if |lines| == 4 {
      return Err(Generic);
    }
    var states := ReadStateBlocks(lines, 4, g);
    match states {
      case Err(e) =>
        return Err(e);
      case Ok(loaded) =>
        return Ok(Icon(header.value.version, width, height, loaded));
    }
  }

  // ---- the loops of saving ----

  /** Pushing an optional number's line. */
  method PushNumber(text: string, lines: seq<string>, n: Option<u32>, key: string)
    returns (out: string, pushed: seq<string>)
    requires text == JoinLines(lines)
    ensures pushed == lines + NumberLines(n, key) && out == JoinLines(pushed)
  {
    match n {
      case Some(v) =>
        out, pushed := IconSave.Push(text, lines, key + SEPARATOR + Decimal(v));
      case None =>
        out, pushed := text, lines;
        assert lines + NumberLines(n, key) == lines;
    }
  }

  /** The lines of an animated state, pushed one by one. */
  method WriteAnimation(s: IconState, text: string, lines: seq<string>) returns (r: Result<string>)
    requires s.frames > 1 && text == JoinLines(lines)
    ensures r == IconSave.AfterLines(lines, AnimationLines(s))
  {
    match s.delay {
      case None =>
        return Err(Generic);
      case Some(delay) =>
        if |delay| % U32_LIMIT != s.frames as nat {
          return Err(Generic);
        }
        var out := text;
        var written;
        out, written := IconSave.Push(out, lines, "\tdelay = " + Join(delay, ","));
        var head := ["\tdelay = " + Join(delay, ",")];
        var loops := NumberLines(s.loop_flag, "\tloop");
        var rewind := NumberLines(s.rewind, "\trewind");
        var movement := NumberLines(s.movement, "\tmovement");
        out, written := PushNumber(out, written, s.loop_flag, "\tloop");
        assert lines + head + loops == lines + (head + loops);
        out, written := PushNumber(out, written, s.rewind, "\trewind");
        assert lines + (head + loops) + rewind == lines + ((head + loops) + rewind);
        out, written := PushNumber(out, written, s.movement, "\tmovement");
        assert lines + (head + loops + rewind) + movement == lines + ((head + loops + rewind) + movement);
        assert AnimationLines(s) == Ok(head + loops + rewind + movement);
        return Ok(out);
    }
  }

  /** One pass of the loop of `Icon::save` over the states. */
  method WriteState(s: IconState, keys: seq<string>) returns (r: Result<string>)
    requires KeyOrder(s, keys)
    ensures r == IconSave.AsText(StateLines(s, keys))
  {
    var n := IconLoad.CellCount(s.dirs, s.frames);
    if n >= U32_LIMIT {
      return Err(Panic);
    }
    if |s.images| % U32_LIMIT != n {
      return Err(Generic);
    }
    var text;
    var lines;
    text, lines := IconSave.Push("", [], NameLine(s.name));
    text, lines := IconSave.Push(text, lines, "\tdirs = " + Decimal(s.dirs));
    text, lines := IconSave.Push(text, lines, "\tframes = " + Decimal(s.frames));
    assert lines == [NameLine(s.name), "\tdirs = " + Decimal(s.dirs), "\tframes = " + Decimal(s.frames)];
    var animation: seq<string> := [];
    if s.frames > 1 {
      var animated := WriteAnimation(s, text, lines);
      match animated {
        case Err(e) =>
          return Err(e);
        case Ok(t) =>
          text := t;
          animation := AnimationLines(s).value;
      }
    } else {
      assert lines + animation == lines;
    }
    var spot: seq<string> := [];
    match s.hotspot {
      case Some(a) =>
        var line := "\tarray" + SEPARATOR + ArrayValue(a);
        var pushed;
        text, pushed := IconSave.Push(text, lines + animation, line);
        spot := [line];
      case None =>
        assert lines + animation + spot == lines + animation;
    }
    var unknown: seq<string> := [];
    match s.unknown_settings {
      case Some(m) =>
        text := IconSave.WriteUnknown(m, keys, text, lines + animation + spot);
        unknown := IconSave.UnknownLines(s.unknown_settings, keys);
      case None =>
        assert lines + animation + spot + unknown == lines + animation + spot;
    }
    assert text == JoinLines(lines + animation + spot + unknown);
    StateLinesParts(s, keys, animation);
    return Ok(text);
  }

  lemma StateLinesParts(s: IconState, keys: seq<string>, animation: seq<string>)
    requires KeyOrder(s, keys)
    requires IconLoad.CellCount(s.dirs, s.frames) < U32_LIMIT && |s.images| % U32_LIMIT == IconLoad.CellCount(s.dirs, s.frames)
    requires if s.frames > 1 then AnimationLines(s) == Ok(animation) else animation == []
    ensures StateLines(s, keys) ==
      Ok([NameLine(s.name), "\tdirs = " + Decimal(s.dirs), "\tframes = " + Decimal(s.frames)]
         + animation + ArrayLines(s.hotspot) + IconSave.UnknownLines(s.unknown_settings, keys))
  {
  }

  lemma StatesLinesNext(states: seq<IconState>, orders: seq<seq<string>>, i: nat, before: seq<string>, block: seq<string>)
    requires KeyOrders(states, orders) && i < |states|
    requires KeyOrders(states[..i], orders[..i]) && StatesLines(states[..i], orders[..i]) == Ok(before)
    requires StateLines(states[i], orders[i]) == Ok(block)
    ensures KeyOrders(states[..i + 1], orders[..i + 1])
    ensures StatesLines(states[..i + 1], orders[..i + 1]) == Ok(before + block)
    ensures Sprites(states[..i + 1]) == Sprites(states[..i]) + states[i].images
  {
    assert states[..i + 1][..i] == states[..i];
    assert orders[..i + 1][..i] == orders[..i];
  }

  lemma StatesLinesStop(states: seq<IconState>, orders: seq<seq<string>>, i: nat, before: seq<string>, e: DmiError)
    requires KeyOrders(states, orders) && i < |states|
    requires KeyOrders(states[..i], orders[..i]) && StatesLines(states[..i], orders[..i]) == Ok(before)
    requires StateLines(states[i], orders[i]) == Err(e)
    ensures StatesLines(states, orders) == Err(e)
  {
    KeyOrdersPrefix(states, orders, i + 1);
    assert states[..i + 1][..i] == states[..i];
    assert orders[..i + 1][..i] == orders[..i];
    assert StatesLines(states[..i + 1], orders[..i + 1]) == Err(e);
    StatesLinesErrKept(states, orders, i + 1, e);
  }

  lemma {:induction false} StatesLinesErrKept(states: seq<IconState>, orders: seq<seq<string>>, k: nat, e: DmiError)
    requires KeyOrders(states, orders) && k <= |states|
    requires KeyOrders(states[..k], orders[..k]) && StatesLines(states[..k], orders[..k]) == Err(e)
    decreases |states| - k
    ensures StatesLines(states, orders) == Err(e)
  {
    if k == |states| {
      assert states[..k] == states && orders[..k] == orders;
    } else {
      KeyOrdersPrefix(states, orders, k + 1);
      assert states[..k + 1][..k] == states[..k];
      assert orders[..k + 1][..k] == orders[..k];
      StatesLinesErrKept(states, orders, k + 1, e);
    }
  }

  /** The loop of `Icon::save` over the states. */
  method WriteStates(states: seq<IconState>, orders: seq<seq<string>>) returns (r: Result<string>, sprites: seq<Sprite>)
    requires KeyOrders(states, orders)
    ensures r == IconSave.AsText(StatesLines(states, orders))
    ensures r.Ok? ==> sprites == Sprites(states)
  {
    var text := "";
    var body: seq<string> := [];
    sprites := [];
    for i := 0 to |states|
      invariant KeyOrders(states[..i], orders[..i])
      invariant StatesLines(states[..i], orders[..i]) == Ok(body)
      invariant text == JoinLines(body)
      invariant sprites == Sprites(states[..i])
    {
      var block := WriteState(states[i], orders[i]);
      match block {
        case Err(e) =>
          StatesLinesStop(states, orders, i, body, e);
          return Err(e), sprites;
        case Ok(more) =>
          var lines := StateLines(states[i], orders[i]).value;
          StatesLinesNext(states, orders, i, body, lines);
          JoinLinesAppend(body, lines);
          text := text + more;
          body := body + lines;
          sprites := sprites + states[i].images;
      }
    }
    assert states[..|states|] == states;
    assert orders[..|states|] == orders;
    return Ok(text), sprites;
  }

  /** `Icon::save` up to the drawing of the sheet (src/dmi/icon.rs:279-352):
      the text, then the square sheet and the position of every sprite. */
  method Save(icon: Icon, orders: seq<seq<string>>) returns (r: Result<Saved>, placements: seq<(nat, nat)>)
    requires KeyOrders(icon.states, orders)
    ensures r == SaveIcon(icon, orders)
    ensures r.Ok? ==> |placements| == |r.value.sprites|
    ensures r.Ok? ==> forall i :: 0 <= i < |placements| ==>
      r.value.side > 0 && placements[i] == Placement(i, r.value.side, icon.width, icon.height)
  {
    placements := [];
    var signature := JoinLines(HeaderLines(icon));
    var states_text, sprites := WriteStates(icon.states, orders);
    match states_text {
      case Err(e) =>
        return Err(e), [];
      case Ok(more) =>
        var body := StatesLines(icon.states, orders).value;
        JoinLinesAppend(HeaderLines(icon), body);
        JoinLinesSnoc(HeaderLines(icon) + body, END_DMI);
        signature := signature + more + END_DMI + "\n";
    }
    var max_index := Grid.SquareSize(|sprites|);
    if max_index * icon.width >= U32_LIMIT || max_index * icon.height >= U32_LIMIT {
      return Err(Panic), [];
    }
    placements := PlaceSprites(|sprites|, max_index, icon.width, icon.height);
    return Ok(Saved(signature, sprites, max_index)), placements;
  }

  /** The loop that draws the sprites: where each one goes. */
  method PlaceSprites(n: nat, m: nat, width: u32, height: u32) returns (placements: seq<(nat, nat)>)
    requires n > 0 ==> m > 0
    ensures |placements| == n
    ensures forall i :: 0 <= i < n ==> m > 0 && placements[i] == Placement(i, m, width, height)
  {
    placements := [];
    for i := 0 to n
      invariant |placements| == i
      invariant forall k :: 0 <= k < i ==> m > 0 && placements[k] == Placement(k, m, width, height)
    {
      var index := i % U32_LIMIT;
      placements := placements + [(width * (index % m), height * (index / m))];
    }
  }

  // ---- properties ----

  /** A string without spaces holds no separator. */
  lemma NoSpaceSeparatorFree(s: string)
    requires ' ' !in s
    ensures SeparatorFree(s)
  {
    forall j | 0 <= j ensures !OccursAt(s, SEPARATOR, j) {
      if j + 3 <= |s| {
        assert s[j..j + 3][0] == s[j];
      }
    }
  }

  /** A number holds no space. */
  lemma DecimalSpaceFree(n: nat)
    ensures ' ' !in Decimal(n) && ',' !in Decimal(n)
  {
    var d := Decimal(n);
    forall i | 0 <= i < |d| ensures d[i] != ' ' && d[i] != ',' {
      assert IsDigit(d[i]);
    }
  }

  /** A line made of a key without spaces, the separator, and a non-empty
      value free of the separator has exactly those two fields. */
  lemma FieldsOfLine(key: string, value: string)
    requires ' ' !in key && value != "" && SeparatorFree(value)
    ensures Fields(key + SEPARATOR + value) == [key, value]
  {
    var line := key + SEPARATOR + value;
    DmiLine.SplitAfterKey(key, value);
    DmiLine.SplitAt(line, key, value);
    FindFromNone(value, SEPARATOR, 0);
    assert Split(value, SEPARATOR) == [value];
    assert Split(line, SEPARATOR) == [key, value];
  }

  /** The header the older save writes reads back, for a non-empty version
      without a separator and nonzero sizes. */
  lemma HeaderReadsBack(icon: Icon, rest: seq<string>)
    requires icon.width > 0 && icon.height > 0 && icon.version != "" && SeparatorFree(icon.version)
    ensures ReadHeader(HeaderLines(icon) + rest) == Ok(Header(icon.version, icon.width, icon.height))
  {
    var lines := HeaderLines(icon) + rest;
    assert lines[0] == BEGIN_DMI;
    assert lines[1] == "version" + SEPARATOR + icon.version;
    assert lines[2] == "\twidth" + SEPARATOR + Decimal(icon.width);
    assert lines[3] == "\theight" + SEPARATOR + Decimal(icon.height);
    FieldsOfLine("version", icon.version);
    SizeFieldReads("\twidth", icon.width);
    SizeFieldReads("\theight", icon.height);
    assert HeaderField(lines, 1, "version") == Ok(icon.version);
    assert HeaderField(lines, 2, "\twidth") == Ok(Decimal(icon.width));
    assert HeaderField(lines, 3, "\theight") == Ok(Decimal(icon.height));
  }

  /** A size line splits into its key and number, and the number parses
      back. */
  lemma SizeFieldReads(key: string, n: u32)
    requires ' ' !in key
    ensures Fields(key + SEPARATOR + Decimal(n)) == [key, Decimal(n)]
    ensures ParseU32(Decimal(n)) == Ok(n)
  {
    DecimalSpaceFree(n);
    NoSpaceSeparatorFree(Decimal(n));
    FieldsOfLine(key, Decimal(n));
    ParseU32Decimal(n);
  }

  /** Quotes around a string add no separator. */
  lemma QuotedSeparatorFree(name: string)
    requires SeparatorFree(name)
    ensures SeparatorFree("\"" + name + "\"")
  {
    var q := "\"" + name + "\"";
    forall j | 0 <= j ensures !OccursAt(q, SEPARATOR, j) {
      if j + 3 <= |q| {
        if j == 0 {
          assert q[j..j + 3][0] == '"';
        } else if j + 3 == |q| {
          assert q[|q| - 1] == '"';
          assert q[j..j + 3][2] == q[j + 2];
        } else {
          assert name[j - 1..j + 2] == q[j..j + 3];
          assert !OccursAt(name, SEPARATOR, j - 1);
        }
      }
    }
  }

  /** A name without a separator is written verbatim in quotes and read
      back as itself. */
  lemma NameReadsBack(name: string)
    requires SeparatorFree(name)
    ensures Fields(NameLine(name)) == ["state", "\"" + name + "\""]
    ensures StateName("\"" + name + "\"") == Ok(name)
  {
    QuotedSeparatorFree(name);
    assert NameLine(name) == "state" + SEPARATOR + ("\"" + name + "\"");
    FieldsOfLine("state", "\"" + name + "\"");
    var q := "\"" + name + "\"";
    assert q[1..|q| - 1] == name;
  }

  /** A state read from the line the older save writes for `name` has that
      name. */
  lemma BlockNameReadsBack(lines: seq<string>, pos: nat, index: nat, g: IconLoad.Geometry, name: string,
                           block: (IconState, nat, nat))
    requires pos < |lines| && IconLoad.ValidGeometry(g) && index <= IconLoad.MaxCells(g)
    requires lines[pos] == NameLine(name) && SeparatorFree(name)
    requires ReadBlock(lines, pos, index, g) == Ok(block)
    ensures block.0.name == name
  {
    NameReadsBack(name);
  }

  /** A name that holds the separator is written verbatim too, and then its
      line has three fields: the older load refuses the block. */
  lemma NameWithSeparatorRefused(lines: seq<string>, pos: nat, index: nat, g: IconLoad.Geometry, a: string, b: string)
    requires pos < |lines| && IconLoad.ValidGeometry(g) && index <= IconLoad.MaxCells(g)
    requires ' ' !in a && SeparatorFree(b)
    requires lines[pos] == NameLine(a + SEPARATOR + b)
    ensures Fields(lines[pos]) == ["state", "\"" + a, b + "\""]
    ensures ReadBlock(lines, pos, index, g).Err?
  {
    var qa := "\"" + a;
    var qb := b + "\"";
    QuoteFrontSpaceFree(a);
    QuoteBackSeparatorFree(b);
    var rest := qa + SEPARATOR + qb;
    var line := "state" + SEPARATOR + rest;
    assert lines[pos] == line;
    DmiLine.SplitAfterKey(qa, qb);
    DmiLine.SplitAt(rest, qa, qb);
    FindFromNone(qb, SEPARATOR, 0);
    assert Split(qb, SEPARATOR) == [qb];
    assert Split(rest, SEPARATOR) == [qa, qb];
    DmiLine.SplitAfterKey("state", rest);
    DmiLine.SplitAt(line, "state", rest);
    assert Split(line, SEPARATOR) == ["state", qa, qb];
  }

  lemma QuoteFrontSpaceFree(a: string)
    requires ' ' !in a
    ensures ' ' !in "\"" + a
  {
    var qa := "\"" + a;
    forall i | 0 <= i < |qa| ensures qa[i] != ' ' {
      if i > 0 {
        assert qa[i] == a[i - 1];
      }
    }
  }

  lemma QuoteBackSeparatorFree(b: string)
    requires SeparatorFree(b)
    ensures SeparatorFree(b + "\"")
  {
    var qb := b + "\"";
    forall j | 0 <= j ensures !OccursAt(qb, SEPARATOR, j) {
      if j + 3 <= |b| {
        assert b[j..j + 3] == qb[j..j + 3];
        assert !OccursAt(b, SEPARATOR, j);
      } else if j + 3 == |qb| {
        assert qb[|qb| - 1] == '"';
        assert qb[j..j + 3][2] == qb[j + 2];
      }
    }
  }

  /** The setting lines the older save writes for the numbers of a state
      read back as those numbers. */
  lemma NumberLinesReadBack(acc: Settings, key: string, v: u32)
    requires NumberKey(key)
    ensures Fields(key + SEPARATOR + Decimal(v)) == [key, Decimal(v)]
    ensures key == "\tloop" ==> ApplySetting(acc, key, Decimal(v)) == Ok(acc.(loop_flag := Some(v)))
    ensures key == "\trewind" ==> ApplySetting(acc, key, Decimal(v)) == Ok(acc.(rewind := Some(v)))
    ensures key == "\tmovement" ==> ApplySetting(acc, key, Decimal(v)) == Ok(acc.(movement := Some(v)))
    ensures key == "\tframes" ==> ApplySetting(acc, key, Decimal(v)) == Ok(acc.(frames := Some(v)))
  {
    DecimalSpaceFree(v);
    NoSpaceSeparatorFree(Decimal(v));
    FieldsOfLine(key, Decimal(v));
    ParseU32Decimal(v);
  }

  lemma DirsLineReadsBack(acc: Settings, dirs: u8)
    ensures Fields("\tdirs = " + Decimal(dirs)) == ["\tdirs", Decimal(dirs)]
    ensures ApplySetting(acc, "\tdirs", Decimal(dirs)) == Ok(acc.(dirs := Some(dirs)))
  {
    DecimalSpaceFree(dirs);
    NoSpaceSeparatorFree(Decimal(dirs));
    assert "\tdirs = " + Decimal(dirs) == "\tdirs" + SEPARATOR + Decimal(dirs);
    FieldsOfLine("\tdirs", Decimal(dirs));
    ParseU8Decimal(dirs);
  }

  /** Two numbers joined by a comma hold no space. */
  lemma CommaJoinSpaceFree(a: string, b: string)
    requires ' ' !in a && ' ' !in b
    ensures ' ' !in a + "," + b
  {
    var v := a + "," + b;
    forall i | 0 <= i < |v| ensures v[i] != ' ' {
      if i < |a| {
        assert v[i] == a[i];
      } else if i > |a| {
        assert v[i] == b[i - |a| - 1];
      }
    }
  }

  /** The older save writes the hotspot under the key `array`, which the
      older load does not know: the line reads back as an unknown setting
      and the hotspot read is left as it was. */
  lemma HotspotNotPreserved(acc: Settings, a: HotspotArray)
    ensures ArrayLines(Some(a)) == ["\tarray" + SEPARATOR + ArrayValue(a)]
    ensures Fields("\tarray" + SEPARATOR + ArrayValue(a)) == ["\tarray", ArrayValue(a)]
    ensures ApplySetting(acc, "\tarray", ArrayValue(a))
         == Ok(acc.(unknown_settings := Some(IconLoad.AddUnknown(acc.unknown_settings, "\tarray", ArrayValue(a)))))
    ensures ApplySetting(acc, "\tarray", ArrayValue(a)).value.hotspot == acc.hotspot
  {
    DecimalSpaceFree(a.x);
    DecimalSpaceFree(a.y);
    DecimalSpaceFree(a.z);
    CommaJoinSpaceFree(Decimal(a.x), Decimal(a.y));
    CommaJoinSpaceFree(Decimal(a.x) + "," + Decimal(a.y), Decimal(a.z));
    NoSpaceSeparatorFree(ArrayValue(a));
    FieldsOfLine("\tarray", ArrayValue(a));
  }

  /** A still state writes no delay, loop or flag line: changing them does
      not change its block. */
  lemma StillStateDropsAnimation(s: IconState, keys: seq<string>, delay: Option<seq<string>>,
                                 loop_flag: Option<u32>, rewind: Option<u32>, movement: Option<u32>)
    requires KeyOrder(s, keys) && s.frames <= 1
    ensures KeyOrder(s.(delay := delay, loop_flag := loop_flag, rewind := rewind, movement := movement), keys)
    ensures StateLines(s.(delay := delay, loop_flag := loop_flag, rewind := rewind, movement := movement), keys)
         == StateLines(s, keys)
  {
  }

  /** The default state holds no image where it promises one, so an icon
      holding it cannot be saved. */
  lemma DefaultStateNotSaveable(icon: Icon, orders: seq<seq<string>>)
    requires KeyOrders(icon.states, orders) && DEFAULT_STATE in icon.states
    ensures SaveIcon(icon, orders).Err?
  {
    var i :| 0 <= i < |icon.states| && icon.states[i] == DEFAULT_STATE;
    assert StateLines(icon.states[i], orders[i]).Err?;
    KeyOrdersPrefix(icon.states, orders, i);
    StatesLinesFirstErr(icon.states, orders, i);
  }

  /** The states before the first one that cannot be saved are saved or
      not; either way, the save fails. */
  lemma StatesLinesFirstErr(states: seq<IconState>, orders: seq<seq<string>>, i: nat)
    requires KeyOrders(states, orders) && i < |states| && StateLines(states[i], orders[i]).Err?
    ensures StatesLines(states, orders).Err?
  {
    KeyOrdersPrefix(states, orders, i);
    match StatesLines(states[..i], orders[..i])
    case Err(e) =>
      StatesLinesErrKept(states, orders, i, e);
    case Ok(before) =>
      StatesLinesStop(states, orders, i, before, StateLines(states[i], orders[i]).error);
  }

  /** The square sheet of the older save is read back by the older load
      cell for cell: it passes the checks on the sheet, has room for every
      sprite, and cell `i` is the region at which sprite `i` was drawn. */
  lemma SquareSheetCells(n: nat, width: u32, height: u32)
    requires n > 0 && width > 0 && height > 0
    requires SquareSheet(n, width, height).Ok?
    requires Grid.SquareSize(n) * Grid.SquareSize(n) < U32_LIMIT
    ensures var m := Grid.SquareSize(n);
      var g := IconLoad.Geometry(width, height, m * width, m * height);
      && CheckSheet(width, height, m * width, m * height) == Ok(g)
      && n <= IconLoad.MaxCells(g)
      && forall i :: 0 <= i < n ==> (Cell(g, i).x, Cell(g, i).y) == Placement(i, m, width, height)
  {
    var m := Grid.SquareSize(n);
    Grid.SquareSheetReadsBack(n, width, height);
    var g := IconLoad.Geometry(width, height, m * width, m * height);
    assert IconLoad.MaxCells(g) == m * m;
    forall i | 0 <= i < n ensures (Cell(g, i).x, Cell(g, i).y) == Placement(i, m, width, height) {
      assert i % U32_LIMIT == i;
    }
  }

  /** The states' images are consecutive runs of cells from cell `index`
      on, one run of `dirs * frames` cells per state. */
  predicate LaidOut(states: seq<IconState>, index: nat, g: IconLoad.Geometry)
    requires IconLoad.ValidGeometry(g)
    decreases |states|
  {
    states != [] ==>
      var next := index + IconLoad.CellCount(states[0].dirs, states[0].frames);
      && next <= IconLoad.MaxCells(g)
      && states[0].images == Cells(g, index, next)
      && LaidOut(states[1..], next, g)
  }

  lemma LaidOutCons(state: IconState, rest: seq<IconState>, index: nat, next: nat, g: IconLoad.Geometry)
    requires IconLoad.ValidGeometry(g)
    requires next == index + IconLoad.CellCount(state.dirs, state.frames) <= IconLoad.MaxCells(g)
    requires state.images == Cells(g, index, next) && LaidOut(rest, next, g)
    ensures LaidOut([state] + rest, index, g)
  {
    assert ([state] + rest)[0] == state;
    assert ([state] + rest)[1..] == rest;
  }

  /** The cells of a block are the next `dirs * frames` after `index`. */
  lemma ReadBlockCells(lines: seq<string>, pos: nat, index: nat, g: IconLoad.Geometry, block: (IconState, nat, nat))
    requires pos < |lines| && IconLoad.ValidGeometry(g) && index <= IconLoad.MaxCells(g)
    requires ReadBlock(lines, pos, index, g) == Ok(block)
    ensures block.2 == index + IconLoad.CellCount(block.0.dirs, block.0.frames)
  {
    var fields := Fields(lines[pos]);
    var name := StateName(fields[1]).value;
    var settings := ReadSettings(lines, pos, NO_SETTINGS).value;
    assert CloseBlock(name, settings.0, index, g).Ok?;
  }

  /** Loaded states take consecutive runs of cells from `index` on. */
  lemma {:induction false} ReadStatesLaidOut(lines: seq<string>, pos: nat, index: nat, g: IconLoad.Geometry,
                                             states: seq<IconState>)
    requires pos < |lines| && IconLoad.ValidGeometry(g) && index <= IconLoad.MaxCells(g)
    requires ReadStates(lines, pos, index, g) == Ok(states)
    decreases |lines| - pos
    ensures LaidOut(states, index, g)
  {
    if !Contains(lines[pos], END_DMI) {
      match ReadBlock(lines, pos, index, g)
      case Ok(block) =>
        ReadStatesStep(lines, pos, index, g, block.0, block.1, block.2);
        ReadBlockCells(lines, pos, index, g, block);
        match ReadStates(lines, block.1, block.2, g)
        case Ok(more) =>
          ReadStatesLaidOut(lines, block.1, block.2, g, more);
          assert states == [block.0] + more;
          LaidOutCons(block.0, more, index, block.2, g);
    }
  }

  /** A loaded icon's states take consecutive runs of cells from the first
      cell of the sheet on, frames outer and directions inner. */
  lemma LoadLaidOut(text: string, img_width: u32, img_height: u32, icon: Icon)
    requires Load(text, img_width, img_height) == Ok(icon)
    ensures icon.width > 0 && icon.height > 0
    ensures var g := IconLoad.Geometry(icon.width, icon.height, img_width, img_height);
      IconLoad.ValidGeometry(g) && LaidOut(icon.states, 0, g)
  {
    var lines := Lines(text);
    var header := ReadHeader(lines).value;
    var g := CheckSheet(header.width, header.height, img_width, img_height).value;
    ReadStatesLaidOut(lines, 4, 0, g, icon.states);
  }
}
