/** Writing an icon (src/icon.rs:470-567): the metadata text, with one
    block of setting lines per state, and the sheet the states' images are
    laid out on. The drawing of the sprites onto the sheet, the PNG encoder
    and the zTXt chunk that carries the text are not part of this model;
    the text and the position of every sprite are. */
module IconSave {
  import opened Common
  import opened Text
  import opened DmiIcon
  import DmiLine
  import Grid
  import IconLoad

  const U32_LIMIT: nat := 0x1_0000_0000

  // ---- the text ----

  /** The four header lines. */
  function HeaderLines(icon: Icon): seq<string>
  {
    [IconLoad.BEGIN_DMI, "version = " + icon.version,
     "\twidth = " + Decimal(icon.width), "\theight = " + Decimal(icon.height)]
  }

  /** The line that opens a state block: its name, escaped, in quotes. */
  function NameLine(name: string): (r: string)
    ensures '\n' !in name ==> '\n' !in r
  {
    "state = \"" + DmiLine.Escape(name) + "\""
  }

  /** The state line of a block reads back, as `load_internal` parses it
      with quotes required, as the state's name, for an ASCII name. */
  lemma NameLineReadsBack(name: string)
    requires IsAscii(name)
    ensures DmiLine.ParseLine(NameLine(name), true, true) == Ok(("state", name))
  {
    assert NameLine(name) == "state" + DmiLine.SEPARATOR + ("\"" + DmiLine.Escape(name) + "\"");
    DmiLine.ParseEscapedName("state", name);
  }

  /** A `loop` line only for a finite number of loops. */
  function LoopLines(l: Looping): seq<string>
  {
    match l
    case NTimes(times) => ["\tloop = " + Decimal(times)]
    case Indefinitely => []
  }

  /** A flag's line (its key ` = 1`) when it is set, nothing otherwise. */
  function FlagLines(flag: bool, line: string): seq<string>
  {
    if flag then [line] else []
  }

  /** The value of the hotspot line: both coordinates, then a third value
      that is always 1. */
  function HotspotValue(spot: Hotspot): string
  {
    Decimal(spot.x) + "," + Decimal(spot.y) + ",1"
  }

  function HotspotLines(h: Option<Hotspot>): seq<string>
  {
    match h
    case Some(spot) => ["\thotspot" + DmiLine.SEPARATOR + HotspotValue(spot)]
    case None => []
  }

  /** The lines of an animated state: its delays, which must be as many as
      its frames (counted as a `u32`), then its loop count and flags. A
      state without delays cannot be saved. */
  function AnimationLines(s: IconState): (r: Result<seq<string>>)
    requires s.frames > 1
    ensures r.Err? ==> r.error == Generic
    ensures r.Ok? <==> s.delay.Some? && |s.delay.value| % U32_LIMIT == s.frames as nat
    ensures r.Ok? ==> |r.value| > 0 && StartsWith(r.value[0], "\tdelay = ")
  {
    match s.delay
    case None => Err(Generic)
    case Some(delay) =>
      if |delay| % U32_LIMIT != s.frames as nat then Err(Generic)
      else Ok(["\tdelay = " + Join(delay, ",")] + LoopLines(s.loop_flag)
              + FlagLines(s.rewind, "\trewind = 1") + FlagLines(s.movement, "\tmovement = 1"))
  }

  /** `keys` lists the keys of `m`, each once: the order in which the hash
      map of unknown settings happens to be iterated. */
  ghost predicate ListsKeys(keys: seq<string>, m: map<string, string>)
  {
    && (forall i, j :: 0 <= i < j < |keys| ==> keys[i] != keys[j])
    && (forall k :: k in m <==> k in keys)
  }

  /** The iteration order of a state's unknown settings. */
  ghost predicate KeyOrder(s: IconState, keys: seq<string>)
  {
    match s.unknown_settings
    case None => keys == []
    case Some(m) => ListsKeys(keys, m)
  }

  ghost predicate KeyOrders(states: seq<IconState>, orders: seq<seq<string>>)
  {
    |orders| == |states| && forall i :: 0 <= i < |states| ==> KeyOrder(states[i], orders[i])
  }

  /** An unknown setting is written indented by a tab, before its key. */
  function UnknownLine(key: string, value: string): string
  {
    "\t" + key + DmiLine.SEPARATOR + value
  }

  function UnknownLines(settings: Option<map<string, string>>, keys: seq<string>): (r: seq<string>)
    requires settings.Some? ==> forall i :: 0 <= i < |keys| ==> keys[i] in settings.value
    ensures settings.Some? ==> |r| == |keys|
  {
    match settings
    case None => []
    case Some(m) => seq(|keys|, i requires 0 <= i < |keys| => UnknownLine(keys[i], m[keys[i]]))
  }

  /** The lines of one state block. The state must hold `dirs * frames`
      images; the product is a `u32` (overflow panics) and the image count
      is converted to a `u32` (truncating). An animated state adds its
      delays and flags; a still one writes none of them. */
  function StateLines(s: IconState, keys: seq<string>): (r: Result<seq<string>>)
    requires KeyOrder(s, keys)
    ensures r.Err? <==> IconLoad.StateCells(s) >= U32_LIMIT || |s.images| % U32_LIMIT != IconLoad.StateCells(s)
                        || (s.frames > 1 && (s.delay.None? || |s.delay.value| % U32_LIMIT != s.frames as nat))
    ensures r.Err? ==> (r.error == Panic <==> IconLoad.StateCells(s) >= U32_LIMIT)
    ensures r.Ok? ==> |s.images| % U32_LIMIT == IconLoad.StateCells(s)
    ensures r.Ok? ==> |r.value| >= 3
  {
    var n := IconLoad.CellCount(s.dirs, s.frames);
    if n >= U32_LIMIT then Err(Panic)
    else if |s.images| % U32_LIMIT != n then Err(Generic)
    else
      var head := [NameLine(s.name), "\tdirs = " + Decimal(s.dirs), "\tframes = " + Decimal(s.frames)];
      match (if s.frames > 1 then AnimationLines(s) else Ok([]))
      case Err(e) => Err(e)
      case Ok(animation) => Ok(head + animation + HotspotLines(s.hotspot) + UnknownLines(s.unknown_settings, keys))
  }

  lemma KeyOrdersPrefix(states: seq<IconState>, orders: seq<seq<string>>, k: nat)
    requires KeyOrders(states, orders) && k <= |states|
    ensures KeyOrders(states[..k], orders[..k])
  {
  }

  /** The blocks of the states, in order; the first state that cannot be
      saved gives the error. */
  function StatesLines(states: seq<IconState>, orders: seq<seq<string>>): (r: Result<seq<string>>)
    requires KeyOrders(states, orders)
    decreases |states|
    ensures states == [] ==> r == Ok([])
    ensures r.Ok? ==> |r.value| >= 3 * |states|
  {
    if states == [] then Ok([])
    else
      var k := |states| - 1;
      KeyOrdersPrefix(states, orders, k);
      match StatesLines(states[..k], orders[..k])
      case Err(e) => Err(e)
      case Ok(before) =>
        match StateLines(states[k], orders[k])
        case Err(e) => Err(e)
        case Ok(block) => Ok(before + block)
  }

  /** The images of the states, one after another. */
  function Sprites(states: seq<IconState>): seq<Image>
  {
    if states == [] then [] else Sprites(states[..|states| - 1]) + states[|states| - 1].images
  }

  // ---- the sheet ----

  /** The sheet the sprites are drawn on: `cols` cells across, and its size
      in pixels. */
  datatype Sheet = Sheet(cols: nat, img_width: u32, img_height: u32)

  /** The sheet for `n` sprites of `width` by `height` pixels: as many
      columns as the ceiling of the square root of `n`, as many rows as
      they fill; its pixel sizes are `u32` products (overflow panics). */
  function SheetFor(n: nat, width: u32, height: u32): (r: Result<Sheet>)
    ensures r.Err? ==> r.error == Panic
    ensures r.Ok? ==> r.value.cols == Grid.SheetSize(n).0
    ensures r.Ok? ==> r.value.img_width == Grid.SheetSize(n).0 * width && r.value.img_height == Grid.SheetSize(n).1 * height
  {
    var (cols, rows) := Grid.SheetSize(n);
    if cols * width >= U32_LIMIT || rows * height >= U32_LIMIT then Err(Panic)
    else Ok(Sheet(cols, cols * width, rows * height))
  }

  /** The pixel at which sprite `i` is drawn; the sprite's index is
      converted to a `u32` (truncating). */
  function Placement(i: nat, cols: nat, width: u32, height: u32): (nat, nat)
    requires cols > 0
  {
    Grid.PlaceOrigin(i % U32_LIMIT, cols, width, height)
  }

  // ---- the whole save ----

  /** What saving produces before the sheet is drawn and encoded: the
      metadata text, the sprites in order, and the sheet. */
  datatype Saved = Saved(signature: string, sprites: seq<Image>, sheet: Sheet)

  function SaveIcon(icon: Icon, orders: seq<seq<string>>): (r: Result<Saved>)
    requires KeyOrders(icon.states, orders)
    ensures r.Ok? ==> StatesLines(icon.states, orders).Ok? && r.value.sprites == Sprites(icon.states)
    ensures r.Ok? ==> r.value.sheet.cols == Grid.SheetSize(|r.value.sprites|).0
    ensures r.Err? && StatesLines(icon.states, orders).Ok? ==> r.error == Panic
  {
    match StatesLines(icon.states, orders)
    case Err(e) => Err(e)
    case Ok(body) =>
      var sprites := Sprites(icon.states);
      match SheetFor(|sprites|, icon.width, icon.height)
      case Err(e) => Err(e)
      case Ok(sheet) => Ok(Saved(JoinLines(HeaderLines(icon) + body + [IconLoad.END_DMI]), sprites, sheet))
  }

  // ---- properties ----

  /** The default state holds no image where it promises one, so an icon
      holding it cannot be saved. */
  lemma DefaultStateNotSaveable(icon: Icon, orders: seq<seq<string>>)
    requires KeyOrders(icon.states, orders) && DEFAULT_STATE in icon.states
    ensures SaveIcon(icon, orders).Err?
  {
    var i :| 0 <= i < |icon.states| && icon.states[i] == DEFAULT_STATE;
    StatesLinesFail(icon.states, orders, i);
  }

  /** One state that cannot be saved fails the whole save: the states
      before it fail already, or stop at it. */
  lemma StatesLinesFail(states: seq<IconState>, orders: seq<seq<string>>, i: nat)
    requires KeyOrders(states, orders) && i < |states| && StateLines(states[i], orders[i]).Err?
    ensures StatesLines(states, orders).Err?
  {
    KeyOrdersPrefix(states, orders, i);
    match StatesLines(states[..i], orders[..i])
    case Err(e) =>
      StatesLinesErrKept(states, orders, i, e);
    case Ok(before) =>
      StatesLinesStop(states, orders, i, before, StateLines(states[i], orders[i]).error);
  }

  /** States that can each be saved are saved together. */
  lemma {:induction false} StatesLinesOk(states: seq<IconState>, orders: seq<seq<string>>)
    requires KeyOrders(states, orders)
    requires forall j :: 0 <= j < |states| ==> StateLines(states[j], orders[j]).Ok?
    decreases |states|
    ensures StatesLines(states, orders).Ok?
  {
    if states != [] {
      var k := |states| - 1;
      KeyOrdersPrefix(states, orders, k);
      StatesLinesOk(states[..k], orders[..k]);
    }
  }

  /** Every state of a saved icon holds `dirs * frames` images, counted
      as a `u32`. */
  lemma SavedStatesCells(states: seq<IconState>, orders: seq<seq<string>>)
    requires KeyOrders(states, orders) && StatesLines(states, orders).Ok?
    ensures forall j :: 0 <= j < |states| ==> |states[j].images| % U32_LIMIT == IconLoad.StateCells(states[j])
  {
    forall j | 0 <= j < |states|
      ensures |states[j].images| % U32_LIMIT == IconLoad.StateCells(states[j])
    {
      if StateLines(states[j], orders[j]).Err? {
        StatesLinesFail(states, orders, j);
      }
    }
  }

  /** With fewer than 2^32 sprites in all, those counts are exact, and the
      sprites fill as many cells as the states take. */
  lemma {:induction false} SpritesFillCells(states: seq<IconState>)
    requires forall j :: 0 <= j < |states| ==> |states[j].images| % U32_LIMIT == IconLoad.StateCells(states[j])
    requires |Sprites(states)| < U32_LIMIT
    decreases |states|
    ensures |Sprites(states)| == IconLoad.TotalCells(states)
    ensures forall j :: 0 <= j < |states| ==> |states[j].images| == IconLoad.StateCells(states[j])
  {
    if states != [] {
      var k := |states| - 1;
      var before := states[..k];
      var last := states[k];
      assert |Sprites(states)| == |Sprites(before)| + |last.images|;
      CellsOfPrefix(states, k);
      SpritesFillCells(before);
      assert |last.images| == IconLoad.StateCells(last);
      TotalCellsSnoc(before, last);
      assert before + [last] == states;
      forall j | 0 <= j < k
        ensures |states[j].images| == IconLoad.StateCells(states[j])
      {
        assert before[j] == states[j];
      }
    }
  }

  lemma CellsOfPrefix(states: seq<IconState>, k: nat)
    requires k <= |states|
    requires forall j :: 0 <= j < |states| ==> |states[j].images| % U32_LIMIT == IconLoad.StateCells(states[j])
    ensures forall j :: 0 <= j < k ==> |states[..k][j].images| % U32_LIMIT == IconLoad.StateCells(states[..k][j])
  {
  }


  lemma {:induction false} TotalCellsSnoc(states: seq<IconState>, s: IconState)
    ensures IconLoad.TotalCells(states + [s]) == IconLoad.TotalCells(states) + IconLoad.StateCells(s)
  {
    if states == [] {
      assert (states + [s])[1..] == [];
    } else {
      assert (states + [s])[1..] == states[1..] + [s];
      TotalCellsSnoc(states[1..], s);
    }
  }

  /** The sheet of a saved icon has a cell for every sprite, and the sprites
      are drawn at distinct cells: each lies inside the sheet and no two
      overlap (for fewer than 2^32 sprites, where the index conversion
      loses nothing). */
  lemma SheetHoldsSprites(n: nat, width: u32, height: u32, sheet: Sheet, i: nat, j: nat)
    requires SheetFor(n, width, height) == Ok(sheet) && n > 0
    requires i < n && j < n && n <= U32_LIMIT
    ensures sheet.cols > 0 && n <= sheet.cols * Grid.SheetSize(n).1
    ensures Placement(i, sheet.cols, width, height).0 + width <= sheet.img_width
    ensures Placement(i, sheet.cols, width, height).1 + height <= sheet.img_height
    ensures i != j && width > 0 && height > 0 ==>
      var (xi, yi) := Placement(i, sheet.cols, width, height);
      var (xj, yj) := Placement(j, sheet.cols, width, height);
      xi + width <= xj || xj + width <= xi || yi + height <= yj || yj + height <= yi
  {
    var (cols, rows) := Grid.SheetSize(n);
    assert sheet.cols == cols && sheet.img_width == cols * width && sheet.img_height == rows * height;
    assert i % U32_LIMIT == i && j % U32_LIMIT == j;
    Grid.SameOrigin(i, cols, width, height);
    Grid.SameOrigin(j, cols, width, height);
    assert Placement(i, cols, width, height) == Grid.CellOrigin(i, cols, width, height);
    assert Placement(j, cols, width, height) == Grid.CellOrigin(j, cols, width, height);
    Grid.CellsTile(i, j, cols, rows, width, height);
  }

  // ---- the loops ----

  /** The text of the state block, or the error. */
  function AsText(r: Result<seq<string>>): Result<string>
  {
    match r
    case Ok(lines) => Ok(JoinLines(lines))
    case Err(e) => Err(e)
  }

  /** The text of `lines` followed by the lines of `more`, or the error of `more`. */
  function AfterLines(lines: seq<string>, more: Result<seq<string>>): Result<string>
  {
    match more
    case Ok(a) => Ok(JoinLines(lines + a))
    case Err(e) => Err(e)
  }

  /** The unknown settings, in the given order. */
  method WriteUnknown(m: map<string, string>, keys: seq<string>, text: string, lines: seq<string>)
    returns (out: string)
    requires forall i :: 0 <= i < |keys| ==> keys[i] in m
    requires text == JoinLines(lines)
    ensures out == JoinLines(lines + UnknownLines(Some(m), keys))
  {
    out := text;
    assert lines + UnknownLines(Some(m), keys)[..0] == lines;
    for i := 0 to |keys|
      invariant out == JoinLines(lines + UnknownLines(Some(m), keys)[..i])
    {
      var line := UnknownLine(keys[i], m[keys[i]]);
      JoinLinesSnoc(lines + UnknownLines(Some(m), keys)[..i], line);
      assert lines + UnknownLines(Some(m), keys)[..i + 1] == lines + UnknownLines(Some(m), keys)[..i] + [line];
      out := out + line + "\n";
    }
    assert UnknownLines(Some(m), keys)[..|keys|] == UnknownLines(Some(m), keys);
  }


  lemma AppendAssoc(a: seq<string>, b: seq<string>, c: seq<string>)
    ensures a + b + c == a + (b + c)
  {
  }

  /** Pushing one line, with its line end, onto the text. */
  method Push(text: string, lines: seq<string>, line: string) returns (out: string, pushed: seq<string>)
    requires text == JoinLines(lines)
    ensures out == text + line + "\n"
    ensures pushed == lines + [line] && out == JoinLines(pushed)
  {
    JoinLinesSnoc(lines, line);
    out, pushed := text + line + "\n", lines + [line];
  }

  /** Pushing a flag's line when the flag is set. */
  method PushFlag(text: string, lines: seq<string>, flag: bool, line: string)
    returns (out: string, pushed: seq<string>)
    requires text == JoinLines(lines)
    ensures pushed == lines + FlagLines(flag, line) && out == JoinLines(pushed)
  {
    if flag {
      out, pushed := Push(text, lines, line);
    } else {
      out, pushed := text, lines;
      assert lines + FlagLines(flag, line) == lines;
    }
  }

  /** The lines of an animated state, pushed one by one. */
  method WriteAnimation(s: IconState, text: string, lines: seq<string>) returns (r: Result<string>)
    requires s.frames > 1 && text == JoinLines(lines)
    ensures r == AfterLines(lines, AnimationLines(s))
  {
    match s.delay {
      case None =>
        return Err(Generic);
      case Some(delay) =>
        if |delay| % U32_LIMIT != s.frames as nat {
          return Err(Generic);
        }
        var out := text;
        var written;
        out, written := Push(out, lines, "\tdelay = " + Join(delay, ","));
        match s.loop_flag {
          case NTimes(times) =>
            out, written := Push(out, written, "\tloop = " + Decimal(times));
          case Indefinitely =>
        }
        assert written == lines + (["\tdelay = " + Join(delay, ",")] + LoopLines(s.loop_flag));
        var head := ["\tdelay = " + Join(delay, ",")] + LoopLines(s.loop_flag);
        var rewind := FlagLines(s.rewind, "\trewind = 1");
        var movement := FlagLines(s.movement, "\tmovement = 1");
        out, written := PushFlag(out, written, s.rewind, "\trewind = 1");
        AppendAssoc(lines, head, rewind);
        out, written := PushFlag(out, written, s.movement, "\tmovement = 1");
        AppendAssoc(lines, head + rewind, movement);
        assert AnimationLines(s) == Ok(head + rewind + movement);
        return Ok(out);
    }
  }

  /** One pass of the loop of `Icon::save` over the states: the checks and
      the lines of the block. */
  method WriteState(s: IconState, keys: seq<string>) returns (r: Result<string>)
    requires KeyOrder(s, keys)
    ensures r == AsText(StateLines(s, keys))
  {
    var n := IconLoad.CellCount(s.dirs, s.frames);
    if n >= U32_LIMIT {
      return Err(Panic);
    }
    if |s.images| % U32_LIMIT != n {
      return Err(Generic);
    }
    var text;
    var lines;
    text, lines := Push("", [], NameLine(s.name));
    text, lines := Push(text, lines, "\tdirs = " + Decimal(s.dirs));
    text, lines := Push(text, lines, "\tframes = " + Decimal(s.frames));
    assert lines == [NameLine(s.name), "\tdirs = " + Decimal(s.dirs), "\tframes = " + Decimal(s.frames)];
    var animation: seq<string> := [];
    if s.frames > 1 {
      var animated := WriteAnimation(s, text, lines);
      match animated {
        case Err(e) =>
          return Err(e);
        case Ok(t) =>
          text := t;
          animation := AnimationLines(s).value;
      }
    } else {
      assert lines + animation == lines;
    }
    text := WriteSettings(s, keys, text, lines + animation);
    StateLinesParts(s, keys, animation);
    return Ok(text);
  }

  /** The hotspot line and the unknown settings, after the lines written so
      far. */
  method WriteSettings(s: IconState, keys: seq<string>, text: string, lines: seq<string>) returns (out: string)
    requires KeyOrder(s, keys) && text == JoinLines(lines)
    ensures out == JoinLines(lines + HotspotLines(s.hotspot) + UnknownLines(s.unknown_settings, keys))
  {
    out := text;
    var hotspot: seq<string> := [];
    match s.hotspot {
      case Some(spot) =>
        var line := "\thotspot" + DmiLine.SEPARATOR + HotspotValue(spot);
        var pushed;
        out, pushed := Push(out, lines, line);
        hotspot := [line];
      case None =>
        assert lines + hotspot == lines;
    }
    assert hotspot == HotspotLines(s.hotspot);
    match s.unknown_settings {
      case Some(m) =>
        out := WriteUnknown(m, keys, out, lines + hotspot);
      case None =>
        assert lines + hotspot + UnknownLines(s.unknown_settings, keys) == lines + hotspot;
    }
  }

  /** The block of a state that passes the checks, in its four parts. */
  lemma StateLinesParts(s: IconState, keys: seq<string>, animation: seq<string>)
    requires KeyOrder(s, keys)
    requires IconLoad.StateCells(s) < U32_LIMIT && |s.images| % U32_LIMIT == IconLoad.StateCells(s)
    requires if s.frames > 1 then AnimationLines(s) == Ok(animation) else animation == []
    ensures StateLines(s, keys) ==
      Ok([NameLine(s.name), "\tdirs = " + Decimal(s.dirs), "\tframes = " + Decimal(s.frames)]
         + animation + HotspotLines(s.hotspot) + UnknownLines(s.unknown_settings, keys))
  {
  }

  /** Saving one more state. */
  lemma StatesLinesNext(states: seq<IconState>, orders: seq<seq<string>>, i: nat, before: seq<string>, block: seq<string>)
    requires KeyOrders(states, orders) && i < |states|
    requires KeyOrders(states[..i], orders[..i]) && StatesLines(states[..i], orders[..i]) == Ok(before)
    requires StateLines(states[i], orders[i]) == Ok(block)
    ensures KeyOrders(states[..i + 1], orders[..i + 1])
    ensures StatesLines(states[..i + 1], orders[..i + 1]) == Ok(before + block)
    ensures Sprites(states[..i + 1]) == Sprites(states[..i]) + states[i].images
  {
    assert states[..i + 1][..i] == states[..i];
    assert orders[..i + 1][..i] == orders[..i];
  }

  /** A state that cannot be saved ends the save with its error. */
  lemma StatesLinesStop(states: seq<IconState>, orders: seq<seq<string>>, i: nat, before: seq<string>, e: DmiError)
    requires KeyOrders(states, orders) && i < |states|
    requires KeyOrders(states[..i], orders[..i]) && StatesLines(states[..i], orders[..i]) == Ok(before)
    requires StateLines(states[i], orders[i]) == Err(e)
    ensures StatesLines(states, orders) == Err(e)
  {
    KeyOrdersPrefix(states, orders, i + 1);
    assert states[..i + 1][..i] == states[..i];
    assert orders[..i + 1][..i] == orders[..i];
    assert StatesLines(states[..i + 1], orders[..i + 1]) == Err(e);
    StatesLinesErrKept(states, orders, i + 1, e);
  }

  /** An error of the first `k` states is the error of the first `k + 1`. */
  lemma StatesLinesErrStep(states: seq<IconState>, orders: seq<seq<string>>, k: nat, e: DmiError)
    requires KeyOrders(states, orders) && k < |states|
    requires KeyOrders(states[..k], orders[..k]) && StatesLines(states[..k], orders[..k]) == Err(e)
    ensures KeyOrders(states[..k + 1], orders[..k + 1]) && StatesLines(states[..k + 1], orders[..k + 1]) == Err(e)
  {
    KeyOrdersPrefix(states, orders, k + 1);
    assert states[..k + 1][..k] == states[..k];
    assert orders[..k + 1][..k] == orders[..k];
  }

  /** An error of the first states is the error of all of them. */
  lemma {:induction false} StatesLinesErrKept(states: seq<IconState>, orders: seq<seq<string>>, k: nat, e: DmiError)
    requires KeyOrders(states, orders) && k <= |states|
    requires KeyOrders(states[..k], orders[..k]) && StatesLines(states[..k], orders[..k]) == Err(e)
    decreases |states| - k
    ensures StatesLines(states, orders) == Err(e)
  {
    if k == |states| {
      assert states[..k] == states && orders[..k] == orders;
    } else {
      StatesLinesErrStep(states, orders, k, e);
      StatesLinesErrKept(states, orders, k + 1, e);
    }
  }

  /** The loop of `Icon::save` over the states: it appends each state's
      block to the text and collects its images. */
  method WriteStates(states: seq<IconState>, orders: seq<seq<string>>) returns (r: Result<string>, sprites: seq<Image>)
    requires KeyOrders(states, orders)
    ensures r == AsText(StatesLines(states, orders))
    ensures r.Ok? ==> sprites == Sprites(states)
  {
    var text := "";
    var body: seq<string> := [];
    sprites := [];
    for i := 0 to |states|
      invariant KeyOrders(states[..i], orders[..i])
      invariant StatesLines(states[..i], orders[..i]) == Ok(body)
      invariant text == JoinLines(body)
      invariant sprites == Sprites(states[..i])
    {
      var block := WriteState(states[i], orders[i]);
      match block {
        case Err(e) =>
          StatesLinesStop(states, orders, i, body, e);
          return Err(e), sprites;
        case Ok(more) =>
          var lines := StateLines(states[i], orders[i]).value;
          StatesLinesNext(states, orders, i, body, lines);
          assert more == JoinLines(lines);
          JoinLinesAppend(body, lines);
          text := text + more;
          body := body + lines;
          sprites := sprites + states[i].images;
      }
    }
    assert states[..|states|] == states;
    assert orders[..|states|] == orders;
    return Ok(text), sprites;
  }

  /** `Icon::save` up to the drawing of the sheet: the header, the states'
      blocks and the trailer, then the sheet's size and the position of
      every sprite. */
  method Save(icon: Icon, orders: seq<seq<string>>) returns (r: Result<Saved>, placements: seq<(nat, nat)>)
    requires KeyOrders(icon.states, orders)
    ensures r == SaveIcon(icon, orders)
    ensures r.Ok? ==> |placements| == |r.value.sprites|
    ensures r.Ok? ==> forall i :: 0 <= i < |placements| ==>
      r.value.sheet.cols > 0 && placements[i] == Placement(i, r.value.sheet.cols, icon.width, icon.height)
  {
    placements := [];
    var signature := JoinLines(HeaderLines(icon));
    var states_text, sprites := WriteStates(icon.states, orders);
    match states_text {
      case Err(e) =>
        return Err(e), [];
      case Ok(more) =>
        var body := StatesLines(icon.states, orders).value;
        JoinLinesAppend(HeaderLines(icon), body);
        JoinLinesSnoc(HeaderLines(icon) + body, IconLoad.END_DMI);
        signature := signature + more + IconLoad.END_DMI + "\n";
    }
    var sheet := SheetFor(|sprites|, icon.width, icon.height);
    match sheet {
      case Err(e) =>
        return Err(e), [];
      case Ok(sh) =>
        placements := PlaceSprites(|sprites|, sh.cols, icon.width, icon.height);
        return Ok(Saved(signature, sprites, sh)), placements;
    }
  }

  /** The loop that draws the sprites: where each one goes. */
  method PlaceSprites(n: nat, cols: nat, width: u32, height: u32) returns (placements: seq<(nat, nat)>)
    requires n > 0 ==> cols > 0
    ensures |placements| == n
    ensures forall i :: 0 <= i < n ==> cols > 0 && placements[i] == Placement(i, cols, width, height)
  {
    placements := [];
    for i := 0 to n
      invariant |placements| == i
      invariant forall k :: 0 <= k < i ==> cols > 0 && placements[k] == Placement(k, cols, width, height)
    {
      var index := i % U32_LIMIT;
      placements := placements + [(width * (index % cols), height * (index / cols))];
    }
  }
}
