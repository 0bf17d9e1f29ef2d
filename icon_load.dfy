/** Reading an icon from its metadata text (src/icon.rs:133-197, 284-468):
    the header lines, then state blocks of tab-indented settings up to
    `# END DMI`, with the states' images cut from consecutive cells of the
    sprite sheet. The sheet arrives already decoded, as its IHDR data and
    (for a full load) its RGBA bytes; the text arrives decompressed. */
module IconLoad {
  import opened Common
  import opened Text
  import opened DmiIcon
  import DmiLine
  import Grid

  const BEGIN_DMI: string := "# BEGIN DMI"
  const END_DMI: string := "# END DMI"
  const U32_LIMIT: nat := 0x1_0000_0000

  /** The cell size used when the header gives none. */
  const DEFAULT_CELL_SIZE: u32 := 32

  datatype DmiHeaders = DmiHeaders(version: string, width: Option<u32>, height: Option<u32>)

  // ---- headers ----

  /** The `# BEGIN DMI` line and the `version` line. */
  function VersionHeader(lines: seq<string>): (r: Result<string>)
    ensures r.Ok? <==> |lines| >= 2 && lines[0] == BEGIN_DMI && DmiLine.ParseLine(lines[1], false, false).Ok?
                       && DmiLine.ParseLine(lines[1], false, false).value.0 == "version"
    ensures r.Ok? ==> DmiLine.ParseLine(lines[1], false, false) == Ok(("version", r.value))
  {
    if |lines| == 0 || lines[0] != BEGIN_DMI then Err(Generic)
    else if |lines| == 1 then Err(Generic)
    else
      match DmiLine.ParseLine(lines[1], false, false)
      case Err(e) => Err(e)
      case Ok(kv) => if kv.0 != "version" then Err(Generic) else Ok(kv.1)
  }

  /** The width/height loop as written: the peeked line is parsed before its
      key is looked at, so the line after the last size line must itself
      parse without quotes. */
  function SizeLinesAsWritten(lines: seq<string>, pos: nat, left: nat, width: Option<u32>, height: Option<u32>)
    : (r: Result<(Option<u32>, Option<u32>, nat)>)
    requires pos <= |lines|
    decreases left
    ensures r.Ok? ==> pos <= r.value.2 <= pos + left && r.value.2 <= |lines|
  {
    if left == 0 then Ok((width, height, pos))
    else if pos == |lines| then Err(Generic)
    else
      match DmiLine.ParseLine(lines[pos], false, false)
      case Err(e) => Err(e)
      case Ok(kv) =>
        if kv.0 != "\twidth" && kv.0 != "\theight" then Ok((width, height, pos))
        else
          match ParseU32(kv.1)
          case Err(e) => Err(e)
          case Ok(n) =>
            if kv.0 == "\twidth" then SizeLinesAsWritten(lines, pos + 1, left - 1, Some(n), height)
            else SizeLinesAsWritten(lines, pos + 1, left - 1, width, Some(n))
  }

  /** `read_dmi_headers` as written. */
  function HeadersAsWritten(lines: seq<string>): (r: Result<(DmiHeaders, nat)>)
    ensures r.Ok? ==> VersionHeader(lines) == Ok(r.value.0.version)
    ensures r.Ok? ==> 2 <= r.value.1 <= 4 && r.value.1 <= |lines|
    ensures r.Ok? ==> r.value.0.width != Some(0) && r.value.0.height != Some(0)
  {
    match VersionHeader(lines)
    case Err(e) => Err(e)
    case Ok(version) =>
      match SizeLinesAsWritten(lines, 2, 2, None, None)
      case Err(e) => Err(e)
      case Ok(sizes) =>
        if sizes.0 == Some(0) || sizes.1 == Some(0) then Err(Generic)
        else Ok((DmiHeaders(version, sizes.0, sizes.1), sizes.2))
  }

  /** A `\twidth` or `\theight` line. Neither key holds a space, so the
      key before the first ` = ` is one of them exactly when the line
      starts with it and the separator (`SizeLineKey`). */
  predicate IsSizeLine(line: string)
  {
    StartsWith(line, "\twidth = ") || StartsWith(line, "\theight = ")
  }

  /** A line starting with a size key and the separator is split after
      that key. */
  lemma SizeLineSplit(line: string)
    ensures StartsWith(line, "\twidth = ") ==> SplitOnce(line, DmiLine.SEPARATOR) == Some(("\twidth", line[9..]))
    ensures StartsWith(line, "\theight = ") ==> SplitOnce(line, DmiLine.SEPARATOR) == Some(("\theight", line[10..]))
  {
    if StartsWith(line, "\twidth = ") {
      assert line == "\twidth" + DmiLine.SEPARATOR + line[9..];
      DmiLine.SplitAfterKey("\twidth", line[9..]);
      DmiLine.SplitAt(line, "\twidth", line[9..]);
    }
    if StartsWith(line, "\theight = ") {
      assert line == "\theight" + DmiLine.SEPARATOR + line[10..];
      DmiLine.SplitAfterKey("\theight", line[10..]);
      DmiLine.SplitAt(line, "\theight", line[10..]);
    }
  }

  /** The part before the first separator, followed by the separator, is a
      prefix of the line. */
  lemma SplitPrefix(line: string)
    requires SplitOnce(line, DmiLine.SEPARATOR).Some?
    ensures StartsWith(line, SplitOnce(line, DmiLine.SEPARATOR).value.0 + DmiLine.SEPARATOR)
  {
    var (key, value) := SplitOnce(line, DmiLine.SEPARATOR).value;
    assert line == (key + DmiLine.SEPARATOR) + value;
  }

  /** A parsed line is a size line exactly when its key is a size key. */
  lemma SizeLineKey(line: string, key: string, value: string)
    requires DmiLine.ParseLine(line, false, false) == Ok((key, value))
    ensures IsSizeLine(line) <==> key == "\twidth" || key == "\theight"
  {
    DmiLine.ParseLineKey(line, false, false);
    SizeLineSplit(line);
    SplitPrefix(line);
  }

  /** The width/height loop with the key looked at first: a line that is not
      a size line ends the header without being parsed. */
  function SizeLines(lines: seq<string>, pos: nat, left: nat, width: Option<u32>, height: Option<u32>)
    : (r: Result<(Option<u32>, Option<u32>, nat)>)
    requires pos <= |lines|
    decreases left
    ensures r.Ok? ==> pos <= r.value.2 <= pos + left && r.value.2 <= |lines|
  {
    if left == 0 then Ok((width, height, pos))
    else if pos == |lines| then Err(Generic)
    else if !IsSizeLine(lines[pos]) then Ok((width, height, pos))
    else
      match DmiLine.ParseLine(lines[pos], false, false)
      case Err(e) => Err(e)
      case Ok(kv) =>
        match ParseU32(kv.1)
        case Err(e) => Err(e)
        case Ok(n) =>
          if kv.0 == "\twidth" then SizeLines(lines, pos + 1, left - 1, Some(n), height)
          else SizeLines(lines, pos + 1, left - 1, width, Some(n))
  }

  /** One size line read. */
  lemma SizeLinesStep(lines: seq<string>, pos: nat, left: nat, width: Option<u32>, height: Option<u32>,
                      key: string, value: string, n: u32, next: nat, rest: nat)
    requires pos < |lines| && left > 0 && IsSizeLine(lines[pos]) && next == pos + 1 && rest == left - 1
    requires DmiLine.ParseLine(lines[pos], false, false) == Ok((key, value)) && ParseU32(value) == Ok(n)
    ensures SizeLines(lines, pos, left, width, height) ==
      if key == "\twidth" then SizeLines(lines, next, rest, Some(n), height)
      else SizeLines(lines, next, rest, width, Some(n))
  {
  }

  /** A size line the reader gets past parses, and so does its value. */
  lemma SizeLineParses(lines: seq<string>, pos: nat, left: nat, width: Option<u32>, height: Option<u32>)
    requires pos < |lines| && left > 0 && IsSizeLine(lines[pos])
    requires SizeLines(lines, pos, left, width, height).Ok?
    ensures DmiLine.ParseLine(lines[pos], false, false).Ok?
    ensures ParseU32(DmiLine.ParseLine(lines[pos], false, false).value.1).Ok?
  {
  }

  /** `read_dmi_headers`, with the size lines optional as intended: the
      header is `# BEGIN DMI`, a `version` line, then at most two size
      lines; a zero size is refused. The result also gives the index of the
      first line after the header. */
  function Headers(lines: seq<string>): (r: Result<(DmiHeaders, nat)>)
    ensures r.Ok? ==> VersionHeader(lines) == Ok(r.value.0.version)
    ensures r.Ok? ==> 2 <= r.value.1 <= 4 && r.value.1 <= |lines|
    ensures r.Ok? ==> r.value.0.width != Some(0) && r.value.0.height != Some(0)
  {
    match VersionHeader(lines)
    case Err(e) => Err(e)
    case Ok(version) =>
      match SizeLines(lines, 2, 2, None, None)
      case Err(e) => Err(e)
      case Ok(sizes) =>
        if sizes.0 == Some(0) || sizes.1 == Some(0) then Err(Generic)
        else Ok((DmiHeaders(version, sizes.0, sizes.1), sizes.2))
  }

  /** The size-line loop as written or corrected. */
  function SizeLinesOf(v: Variant, lines: seq<string>, pos: nat, left: nat, width: Option<u32>, height: Option<u32>)
    : (r: Result<(Option<u32>, Option<u32>, nat)>)
    requires pos <= |lines|
    ensures r.Ok? ==> pos <= r.value.2 <= pos + left && r.value.2 <= |lines|
  {
    if v == AsWritten then SizeLinesAsWritten(lines, pos, left, width, height) else SizeLines(lines, pos, left, width, height)
  }

  /** `read_dmi_headers` as written or corrected. */
  function HeadersOf(v: Variant, lines: seq<string>): (r: Result<(DmiHeaders, nat)>)
    ensures r.Ok? ==> VersionHeader(lines) == Ok(r.value.0.version)
    ensures r.Ok? ==> 2 <= r.value.1 <= 4 && r.value.1 <= |lines|
    ensures r.Ok? ==> r.value.0.width != Some(0) && r.value.0.height != Some(0)
  {
    if v == AsWritten then HeadersAsWritten(lines) else Headers(lines)
  }

  /** The reader gets past line `pos` only if it is a size line, and stops
      at it only if it is not one (or no size line is left to read). */
  lemma SizeLinesFirst(lines: seq<string>, pos: nat, left: nat, width: Option<u32>, height: Option<u32>)
    requires pos <= |lines|
    requires SizeLines(lines, pos, left, width, height).Ok?
    ensures var stop := SizeLines(lines, pos, left, width, height).value.2;
      && (stop > pos ==> pos < |lines| && IsSizeLine(lines[pos]))
      && (stop == pos && left > 0 ==> pos < |lines| && !IsSizeLine(lines[pos]))
  {
  }

  /** The header is followed by at most two size lines, all consumed: the
      line after the header is not a size line unless both were read. */
  lemma HeadersConsume(lines: seq<string>)
    requires Headers(lines).Ok?
    ensures var stop := Headers(lines).value.1;
      && (stop > 2 ==> IsSizeLine(lines[2]))
      && (stop > 3 ==> IsSizeLine(lines[3]))
      && (stop < 4 ==> stop < |lines| && !IsSizeLine(lines[stop]))
  {
    SizeLinesFirst(lines, 2, 2, None, None);
    if IsSizeLine(lines[2]) {
      SizeLineParses(lines, 2, 2, None, None);
      var entry := DmiLine.ParseLine(lines[2], false, false);
      match entry {
        case Ok(kv) =>
          match ParseU32(kv.1) {
            case Ok(n) =>
              SizeLinesStep(lines, 2, 2, None, None, kv.0, kv.1, n, 3, 1);
              if kv.0 == "\twidth" {
                SizeLinesFirst(lines, 3, 1, Some(n), None);
              } else {
                SizeLinesFirst(lines, 3, 1, None, Some(n));
              }
          }
      }
    }
  }

  /** What one pass of the size-line loop leaves: the header is complete
      (or an error ended it), or the line was consumed and the sizes read so
      far are the given ones. */
  datatype SizeStep = Done(result: Result<(Option<u32>, Option<u32>, nat)>) | Consumed(width: Option<u32>, height: Option<u32>)

  /** One pass of the loop of `read_dmi_headers`: peek at line `pos`, parse
      it, and consume it if its key is a size key. The corrected loop looks at
      the key before parsing, and leaves a line that is not a size line
      unparsed. */
  method ReadSizeLine(v: Variant, lines: seq<string>, pos: nat, left: nat, width: Option<u32>, height: Option<u32>)
    returns (r: SizeStep)
    requires pos <= |lines| && left > 0
    ensures r.Done? ==> r.result == SizeLinesOf(v, lines, pos, left, width, height)
    ensures r.Consumed? ==> pos < |lines|
    ensures r.Consumed? ==> SizeLinesOf(v, lines, pos + 1, left - 1, r.width, r.height) == SizeLinesOf(v, lines, pos, left, width, height)
  {
    if pos == |lines| {
      return Done(Err(Generic));
    }
    var current_line := lines[pos];
    if v == Corrected && !IsSizeLine(current_line) {
      return Done(Ok((width, height, pos)));
    }
    var entry := DmiLine.ParseDmiLine(current_line, false, false);
    match entry {
      case Err(e) => return Done(Err(e));
      case Ok(kv) =>
        if v == Corrected {
          SizeLineKey(current_line, kv.0, kv.1);
        }
        if kv.0 != "\twidth" && kv.0 != "\theight" {
          return Done(Ok((width, height, pos)));
        }
        match ParseU32(kv.1) {
          case Err(e) => return Done(Err(e));
          case Ok(n) =>
            if v == Corrected {
              SizeLinesStep(lines, pos, left, width, height, kv.0, kv.1, n, pos + 1, left - 1);
            } else {
              SizeLinesAsWrittenStep(lines, pos, left, width, height, kv.0, kv.1, n, pos + 1, left - 1);
            }
            if kv.0 == "\twidth" {
              return Consumed(Some(n), height);
            } else {
              return Consumed(width, Some(n));
            }
        }
    }
  }

  /** The loop of `read_dmi_headers` over at most two size lines, from
      line `start` on (the line `peek` would give). */
  method ReadSizeLines(v: Variant, lines: seq<string>, start: nat) returns (r: Result<(Option<u32>, Option<u32>, nat)>)
    requires start <= |lines|
    ensures r == SizeLinesOf(v, lines, start, 2, None, None)
  {
    var pos := start;
    var width: Option<u32> := None;
    var height: Option<u32> := None;
    var left: nat := 2;
    for i := 0 to 2
      invariant left == 2 - i && pos == start + i && pos <= |lines|
      invariant SizeLinesOf(v, lines, pos, left, width, height) == SizeLinesOf(v, lines, start, 2, None, None)
    {
      var step := ReadSizeLine(v, lines, pos, left, width, height);
      if step.Done? {
        return step.result;
      }
      width, height := step.width, step.height;
      pos, left := pos + 1, left - 1;
    }
    return Ok((width, height, pos));
  }

  /** `read_dmi_headers`: the `# BEGIN DMI` line, the `version` line, then
      the size lines. */
  method ReadDmiHeaders(v: Variant, lines: seq<string>) returns (r: Result<(DmiHeaders, nat)>)
    ensures r == HeadersOf(v, lines)
  {
    if |lines| == 0 || lines[0] != BEGIN_DMI {
      return Err(Generic);
    }
    if |lines| == 1 {
      return Err(Generic);
    }
    var version_line := DmiLine.ParseDmiLine(lines[1], false, false);
    if version_line.Err? {
      return Err(version_line.error);
    }
    if version_line.value.0 != "version" {
      return Err(Generic);
    }
    var version := version_line.value.1;
    var sizes := ReadSizeLines(v, lines, 2);
    if sizes.Err? {
      return Err(sizes.error);
    }
    var (width, height, pos) := sizes.value;
    if width == Some(0) || height == Some(0) {
      return Err(Generic);
    }
    return Ok((DmiHeaders(version, width, height), pos));
  }

  /** The fix only adds inputs: whenever the header reader as written
      succeeds, the intended one gives the same result. */
  lemma HeadersExtendAsWritten(lines: seq<string>)
    requires HeadersAsWritten(lines).Ok?
    ensures Headers(lines) == HeadersAsWritten(lines)
  {
    SizeLinesExtend(lines, 2, 2, None, None);
  }

  /** One size line read by the loop as written. */
  lemma SizeLinesAsWrittenStep(lines: seq<string>, pos: nat, left: nat, width: Option<u32>, height: Option<u32>,
                               key: string, value: string, n: u32, next: nat, rest: nat)
    requires pos < |lines| && left > 0 && (key == "\twidth" || key == "\theight") && next == pos + 1 && rest == left - 1
    requires DmiLine.ParseLine(lines[pos], false, false) == Ok((key, value)) && ParseU32(value) == Ok(n)
    ensures SizeLinesAsWritten(lines, pos, left, width, height) ==
      if key == "\twidth" then SizeLinesAsWritten(lines, next, rest, Some(n), height)
      else SizeLinesAsWritten(lines, next, rest, width, Some(n))
  {
  }

  /** A size value the reader as written gets past is a number. */
  lemma SizeValueParses(lines: seq<string>, pos: nat, left: nat, width: Option<u32>, height: Option<u32>,
                        key: string, value: string)
    requires pos < |lines| && left > 0 && (key == "\twidth" || key == "\theight")
    requires DmiLine.ParseLine(lines[pos], false, false) == Ok((key, value))
    requires SizeLinesAsWritten(lines, pos, left, width, height).Ok?
    ensures ParseU32(value).Ok?
  {
  }

  lemma {:induction false} SizeLinesExtend(lines: seq<string>, pos: nat, left: nat, width: Option<u32>, height: Option<u32>)
    requires pos <= |lines|
    requires SizeLinesAsWritten(lines, pos, left, width, height).Ok?
    ensures SizeLines(lines, pos, left, width, height) == SizeLinesAsWritten(lines, pos, left, width, height)
    decreases left
  {
    if left > 0 && pos < |lines| {
      var next: nat, rest: nat := pos + 1, left - 1;
      var more, next_width, next_height := SizeLinesExtendStep(lines, pos, left, width, height, next, rest);
      if more {
        SizeLinesExtend(lines, next, rest, next_width, next_height);
      }
    }
  }

  /** One line of `SizeLinesExtend`: both readers stop at it with the same
      result, or both read it as the same size and go on. */
  lemma SizeLinesExtendStep(lines: seq<string>, pos: nat, left: nat, width: Option<u32>, height: Option<u32>, next: nat, rest: nat)
    returns (more: bool, next_width: Option<u32>, next_height: Option<u32>)
    requires pos < |lines| && left > 0 && next == pos + 1 && rest == left - 1
    requires SizeLinesAsWritten(lines, pos, left, width, height).Ok?
    ensures !more ==> SizeLines(lines, pos, left, width, height) == SizeLinesAsWritten(lines, pos, left, width, height)
    ensures more ==> SizeLinesAsWritten(lines, next, rest, next_width, next_height).Ok?
    ensures more ==> SizeLines(lines, pos, left, width, height) == SizeLines(lines, next, rest, next_width, next_height)
    ensures more ==> SizeLinesAsWritten(lines, pos, left, width, height) == SizeLinesAsWritten(lines, next, rest, next_width, next_height)
  {
    more, next_width, next_height := false, width, height;
    match DmiLine.ParseLine(lines[pos], false, false) {
      case Ok(kv) =>
        var key, value := kv.0, kv.1;
        SizeLineKey(lines[pos], key, value);
        if key == "\twidth" || key == "\theight" {
          SizeValueParses(lines, pos, left, width, height, key, value);
          var n := ParseU32(value).value;
          SizeLinesStep(lines, pos, left, width, height, key, value, n, next, rest);
          SizeLinesAsWrittenStep(lines, pos, left, width, height, key, value, n, next, rest);
          more := true;
          if key == "\twidth" {
            next_width, next_height := Some(n), height;
          } else {
            next_width, next_height := width, Some(n);
          }
        } else {
          assert SizeLines(lines, pos, left, width, height) == Ok((width, height, pos));
          assert SizeLinesAsWritten(lines, pos, left, width, height) == Ok((width, height, pos));
        }
    }
  }

  /** A line without `=` holds no separator, so it is refused as a block
      entry. */
  lemma NoEqualsRefused(line: string)
    requires forall k :: 0 <= k < |line| ==> line[k] != '='
    ensures DmiLine.ParseLine(line, false, false) == Err(BlockEntry)
  {
    forall j | 0 <= j
      ensures !OccursAt(line, DmiLine.SEPARATOR, j)
    {
      if j + 3 <= |line| {
        assert line[j..j + 3][1] == line[j + 1] != '=';
      }
    }
    DmiLine.ParseLineSplits(line, false, false);
  }

  /** `# END DMI` is refused as a block entry. */
  lemma EndLineRefused()
    ensures DmiLine.ParseLine(END_DMI, false, false) == Err(BlockEntry)
  {
    assert END_DMI == ['#', ' ', 'E', 'N', 'D', ' ', 'D', 'M', 'I'];
    NoEqualsRefused(END_DMI);
  }

  /** A state line parsed with quotes refused fails at its opening quote. */
  lemma StateLineRefused(name: string)
    ensures DmiLine.ParseLine("state = \"" + name + "\"", false, false).Err?
  {
    var value := "\"" + name + "\"";
    var line := "state = \"" + name + "\"";
    assert line == "state" + DmiLine.SEPARATOR + value;
    DmiLine.SplitAfterKey("state", value);
    Utf8Append("\"", name + "\"");
    assert Utf8(value)[0] == DmiLine.QUOTE;
    DmiLine.ParseUnquoted(line, "state", value, false, false);
  }

  /** As written, a third line that does not parse without quotes ends
      the header with an error. */
  lemma AsWrittenRefusesPeeked(lines: seq<string>)
    requires |lines| >= 3 && VersionHeader(lines).Ok?
    requires DmiLine.ParseLine(lines[2], false, false).Err?
    ensures HeadersAsWritten(lines).Err?
  {
  }

  lemma NoTabNoSizeLine(line: string)
    requires |line| > 0 && line[0] != '\t'
    ensures !IsSizeLine(line)
  {
    assert !StartsWith(line, "\twidth = ") by {
      if 9 <= |line| { assert line[..9][0] == line[0]; }
    }
    assert !StartsWith(line, "\theight = ") by {
      if 10 <= |line| { assert line[..10][0] == line[0]; }
    }
  }

  /** A third line that is not a size line ends the header with no sizes. */
  lemma HeadersWithoutSizes(lines: seq<string>)
    requires |lines| >= 3 && VersionHeader(lines).Ok? && !IsSizeLine(lines[2])
    ensures Headers(lines) == Ok((DmiHeaders(VersionHeader(lines).value, None, None), 2))
  {
  }

  /** As written, a header without its width line cannot be followed by a
      state: the peeked `state = "..."` line is parsed with quotes refused,
      and a bare `# END DMI` has no ` = ` at all. The cell size can never
      take its default of 32. */
  lemma HeadersAsWrittenNeedWidth(version: string, next: string, name: string)
    requires IsAscii(version) && forall i :: 0 <= i < |version| ==> !DmiLine.NeedsQuotes(version[i] as int)
    requires next == END_DMI || next == "state = \"" + name + "\""
    ensures HeadersAsWritten([BEGIN_DMI, "version = " + version, next]).Err?
    ensures Headers([BEGIN_DMI, "version = " + version, next]) == Ok((DmiHeaders(version, None, None), 2))
  {
    var lines := [BEGIN_DMI, "version = " + version, next];
    DmiLine.ParsePlain("version", version);
    assert lines[1] == "version" + DmiLine.SEPARATOR + version;
    assert VersionHeader(lines) == Ok(version);
    if next == END_DMI {
      EndLineRefused();
    } else {
      StateLineRefused(name);
    }
    AsWrittenRefusesPeeked(lines);
    NoTabNoSizeLine(next);
    HeadersWithoutSizes(lines);
  }

  // ---- state blocks ----

  /** The settings of one state block, as the locals of the loop over its
      lines hold them. */
  datatype Settings = Settings(
    dirs: Option<u8>,
    frames: Option<u32>,
    delay: Option<seq<string>>,
    loop_flag: Looping,
    rewind: bool,
    movement: bool,
    hotspot: Option<Hotspot>,
    unknown_settings: Option<map<string, string>>)

  const NO_SETTINGS: Settings := Settings(None, None, None, Indefinitely, false, false, None, None)

  /** A line that ends a state block: the trailer, or any line not indented
      by a tab. */
  predicate EndsBlock(line: string)
  {
    line == END_DMI || !StartsWith(line, "\t")
  }

  /** The delays of a `delay` line: its comma-separated `f32` literals. */
  function Delays(value: string): (r: Result<seq<string>>)
    ensures r.Ok? ==> forall i :: 0 <= i < |r.value| ==> IsF32Literal(r.value[i]) && r.value[i] != ""
    ensures r.Err? ==> r.error == ParseFloat
    ensures value == "" ==> r == Ok([])
  {
    var tokens := SplitTerminator(value, ",");
    if forall i :: 0 <= i < |tokens| ==> IsF32Literal(tokens[i]) then Ok(tokens) else Err(ParseFloat)
  }

  /** An unknown setting is kept under the raw key and value of its line. */
  function AddUnknown(settings: Option<map<string, string>>, key: string, value: string): (m: map<string, string>)
    ensures key in m && m[key] == value
    ensures settings.Some? ==> forall k :: k in settings.value && k != key ==> k in m && m[k] == settings.value[k]
  {
    match settings
    case None => map[key := value]
    case Some(old_map) => old_map[key := value]
  }

  /** The keys `load_internal` gives a meaning to. */
  predicate SettingKey(key: string)
  {
    key == "\tdirs" || key == "\tframes" || key == "\tdelay" || key == "\tloop"
    || key == "\trewind" || key == "\tmovement" || key == "\thotspot"
  }

  /** The effect of one parsed setting line on the block's settings. A
      known key fails only when its value does not parse, and leaves the
      unknown settings alone; any other key never fails and changes only
      the unknown settings. */
  function ApplySetting(acc: Settings, line: string, key: string, value: string): (r: Result<Settings>)
    ensures r.Err? ==> SettingKey(key) && (r.error == ParseInt || r.error == ParseFloat || r.error == Generic)
    ensures r.Ok? && SettingKey(key) ==> r.value.unknown_settings == acc.unknown_settings
    ensures !SettingKey(key) ==> r.Ok? && r.value.(unknown_settings := acc.unknown_settings) == acc
    ensures !SettingKey(key) && SplitOnce(line, DmiLine.SEPARATOR).Some? ==>
      var kv := SplitOnce(line, DmiLine.SEPARATOR).value;
      r.value.unknown_settings == Some(AddUnknown(acc.unknown_settings, kv.0, kv.1))
  {
    if key == "\tdirs" then
      var d :- ParseU8(value);
      Ok(acc.(dirs := Some(d)))
    else if key == "\tframes" then
      var f :- ParseU32(value);
      Ok(acc.(frames := Some(f)))
    else if key == "\tdelay" then
      var ds :- Delays(value);
      Ok(acc.(delay := Some(ds)))
    else if key == "\tloop" then
      var n :- ParseU32(value);
      Ok(acc.(loop_flag := NewLooping(n)))
    else if key == "\trewind" then
      var n :- ParseU8(value);
      Ok(acc.(rewind := n != 0))
    else if key == "\tmovement" then
      var n :- ParseU8(value);
      Ok(acc.(movement := n != 0))
    else if key == "\thotspot" then
      var coordinates := SplitTerminator(value, ",");
      if |coordinates| != 3 then Err(Generic)
      else
        var x :- ParseU32(coordinates[0]);
        var y :- ParseU32(coordinates[1]);
        Ok(acc.(hotspot := Some(Hotspot(x, y))))
    else
      match SplitOnce(line, DmiLine.SEPARATOR)
      case None => Ok(acc)
      case Some(kv) => Ok(acc.(unknown_settings := Some(AddUnknown(acc.unknown_settings, kv.0, kv.1))))
  }

  /** The setting lines of a block after line `last`, up to the line that
      ends the block, whose index is returned with the settings. Running out
      of lines is an error. */
  function ReadSettings(lines: seq<string>, last: nat, acc: Settings): (r: Result<(Settings, nat)>)
    requires last < |lines|
    decreases |lines| - last
    ensures r.Ok? ==> last < r.value.1 < |lines| && EndsBlock(lines[r.value.1])
  {
    var pos := last + 1;
    if pos == |lines| then Err(Generic)
    else if EndsBlock(lines[pos]) then Ok((acc, pos))
    else
      match DmiLine.ParseLine(lines[pos], false, false)
      case Err(e) => Err(e)
      case Ok(kv) =>
        match ApplySetting(acc, lines[pos], kv.0, kv.1)
        case Err(e) => Err(e)
        case Ok(next) => ReadSettings(lines, pos, next)
  }

  /** Reading on past one setting line that does not end the block. */
  lemma ReadSettingsStep(lines: seq<string>, current: nat, acc: Settings, key: string, value: string,
                         applied: Settings)
    requires current + 1 < |lines| && !EndsBlock(lines[current + 1])
    requires DmiLine.ParseLine(lines[current + 1], false, false) == Ok((key, value))
    requires ApplySetting(acc, lines[current + 1], key, value) == Ok(applied)
    ensures ReadSettings(lines, current, acc) == ReadSettings(lines, current + 1, applied)
  {
  }

  /** The line that ends a block is the first such line after its start. */
  lemma {:induction false} ReadSettingsFirstEnd(lines: seq<string>, last: nat, acc: Settings, settings: Settings, stop: nat)
    requires last < |lines| && ReadSettings(lines, last, acc) == Ok((settings, stop))
    decreases |lines| - last
    ensures forall j {:trigger EndsBlock(lines[j])} :: last < j < stop ==> !EndsBlock(lines[j])
  {
    if last + 1 < stop {
      var applied, next := ReadSettingsNext(lines, last, acc, settings, stop);
      ReadSettingsFirstEnd(lines, next, applied, settings, stop);
      NoEndBefore(lines, last, next, stop);
    }
  }

  lemma NoEndBefore(lines: seq<string>, last: nat, next: nat, stop: nat)
    requires next == last + 1 && next < stop <= |lines| && !EndsBlock(lines[next])
    requires forall j {:trigger EndsBlock(lines[j])} :: next < j < stop ==> !EndsBlock(lines[j])
    ensures forall j {:trigger EndsBlock(lines[j])} :: last < j < stop ==> !EndsBlock(lines[j])
  {
  }

  /** A block that ends after line `last + 1` applied that line's setting. */
  lemma ReadSettingsNext(lines: seq<string>, last: nat, acc: Settings, settings: Settings, stop: nat)
    returns (applied: Settings, next: nat)
    requires last < |lines| && ReadSettings(lines, last, acc) == Ok((settings, stop)) && last + 1 < stop
    ensures next == last + 1 && next < |lines| && !EndsBlock(lines[next])
    ensures ReadSettings(lines, next, applied) == Ok((settings, stop))
  {
    applied, next := acc, last + 1;
    match DmiLine.ParseLine(lines[last + 1], false, false)
    case Ok(kv) =>
      match ApplySetting(acc, lines[last + 1], kv.0, kv.1)
      case Ok(next) =>
        ReadSettingsStep(lines, last, acc, kv.0, kv.1, next);
        applied := next;
  }

  // ---- sheet geometry ----

  /** Cell size and image size. */
  datatype Geometry = Geometry(width: u32, height: u32, img_width: u32, img_height: u32)

  /** The checks of `load_internal` on the sizes: a nonzero image made of
      whole cells, whose cell count fits a `u32`. */
  predicate ValidGeometry(g: Geometry)
  {
    && g.width > 0 && g.height > 0 && g.img_width > 0 && g.img_height > 0
    && g.img_width % g.width == 0 && g.img_height % g.height == 0
    && MaxCells(g) < U32_LIMIT
  }

  /** `max_possible_states`: the number of cells of the sheet. */
  function MaxCells(g: Geometry): nat
    requires g.width > 0 && g.height > 0
  {
    var cols: nat := g.img_width / g.width;
    var rows: nat := g.img_height / g.height;
    cols * rows
  }

  /** The decoded sheet holds four bytes for every pixel; the source panics
      otherwise. */
  predicate RgbaFits(g: Geometry, rgba: Option<seq<byte>>)
  {
    rgba.Some? ==> |rgba.value| == g.img_width * 4 * g.img_height
  }

  /** Cells `from .. to` of the sheet, in cell order. */
  function CellImages(rgba: seq<byte>, g: Geometry, from: nat, to: nat): seq<Image>
    requires ValidGeometry(g) && |rgba| == g.img_width * 4 * g.img_height
    requires from <= to <= MaxCells(g)
  {
    seq(to - from, k requires 0 <= k < to - from =>
      Image(g.width, g.height, Grid.CellTile(rgba, g.img_width, g.img_height, g.width, g.height, from + k)))
  }

  lemma CellImagesSnoc(rgba: seq<byte>, g: Geometry, from: nat, to: nat)
    requires ValidGeometry(g) && |rgba| == g.img_width * 4 * g.img_height
    requires from <= to < MaxCells(g)
    ensures CellImages(rgba, g, from, to + 1) ==
      CellImages(rgba, g, from, to) + [Image(g.width, g.height, Grid.CellTile(rgba, g.img_width, g.img_height, g.width, g.height, to))]
  {
  }

  /** The number of cells a state takes: `dirs * frames`. */
  function CellCount(dirs: u8, frames: u32): nat
  {
    var d: nat := dirs;
    var f: nat := frames;
    d * f
  }

  function StateCells(s: IconState): nat
  {
    CellCount(s.dirs, s.frames)
  }

  function TotalCells(states: seq<IconState>): nat
  {
    if states == [] then 0 else StateCells(states[0]) + TotalCells(states[1..])
  }

  /** The images of a state whose `n` cells start at cell `index`: those
      cells when the sheet's pixels were loaded, none otherwise. */
  function StateImages(rgba: Option<seq<byte>>, g: Geometry, index: nat, n: nat): seq<Image>
    requires ValidGeometry(g) && RgbaFits(g, rgba) && index + n <= MaxCells(g)
  {
    if rgba.Some? then CellImages(rgba.value, g, index, index + n) else []
  }

  /** The states' images are consecutive runs of cells from cell `index` on,
      one run per state of the length its settings give. */
  predicate ImagesLaidOut(states: seq<IconState>, index: nat, g: Geometry, rgba: Option<seq<byte>>)
    requires ValidGeometry(g) && RgbaFits(g, rgba)
  {
    index + TotalCells(states) <= MaxCells(g) &&
    (states != [] ==>
      && states[0].images == StateImages(rgba, g, index, StateCells(states[0]))
      && ImagesLaidOut(states[1..], index + StateCells(states[0]), g, rgba))
  }

  /** Prepending a finished state to the result of the remaining blocks. */
  function Then(states: seq<IconState>, rest: Result<seq<IconState>>): (r: Result<seq<IconState>>)
    ensures r.Ok? <==> rest.Ok?
    ensures r.Ok? ==> |r.value| == |states| + |rest.value|
    ensures r.Ok? ==> r.value[..|states|] == states && r.value[|states|..] == rest.value
    ensures r.Err? ==> r.error == rest.error
  {
    match rest
    case Ok(more) => Ok(states + more)
    case Err(e) => Err(e)
  }

  lemma LaidOutCons(state: IconState, rest: seq<IconState>, index: nat, next_index: nat, g: Geometry, rgba: Option<seq<byte>>)
    requires ValidGeometry(g) && RgbaFits(g, rgba) && next_index == index + StateCells(state) <= MaxCells(g)
    requires state.images == StateImages(rgba, g, index, StateCells(state))
    requires ImagesLaidOut(rest, next_index, g, rgba)
    ensures ImagesLaidOut([state] + rest, index, g, rgba)
  {
    assert ([state] + rest)[0] == state;
    assert ([state] + rest)[1..] == rest;
  }

  /** The checks that close a state block whose settings were read up to
      line `stop`: `dirs` and `frames` must be present, the state's
      `dirs * frames` cells must fit in a `u32` count and in the sheet, and
      cutting them out computes `width * height * 4` as a `u32`. Gives the
      state, `stop`, and the number of the next free cell. */
  function BlockState(name: string, st: Settings, stop: nat, index: nat, g: Geometry, rgba: Option<seq<byte>>)
    : (r: Result<(IconState, nat, nat)>)
    requires ValidGeometry(g) && RgbaFits(g, rgba) && index <= MaxCells(g)
    ensures r.Ok? ==> r.value.0.name == name && r.value.1 == stop
    ensures r.Ok? ==> r.value.2 == index + StateCells(r.value.0) <= MaxCells(g)
    ensures r.Ok? ==> r.value.0.images == StateImages(rgba, g, index, StateCells(r.value.0))
  {
    match (st.dirs, st.frames)
    case (Some(dirs), Some(frames)) =>
      var n := CellCount(dirs, frames);
      if n >= U32_LIMIT || index + n >= U32_LIMIT then Err(Panic)
      else if index + n > MaxCells(g) then Err(Generic)
      else if rgba.Some? && n > 0 && g.width * g.height * 4 >= U32_LIMIT then Err(Panic)
      else
        Ok((IconState.IconState(name, dirs, frames, StateImages(rgba, g, index, n),
                                st.delay, st.loop_flag, st.rewind, st.movement, st.hotspot,
                                st.unknown_settings), stop, index + n))
    case _ => Err(Generic)
  }

  /** One state block starting at line `pos`, its cells numbered from
      `index`: a quoted `state` line, then setting lines up to the line that
      ends the block, closed by the checks of `BlockState`. */
  function ReadBlock(lines: seq<string>, pos: nat, index: nat, g: Geometry, rgba: Option<seq<byte>>)
    : (r: Result<(IconState, nat, nat)>)
    requires pos < |lines| && ValidGeometry(g) && RgbaFits(g, rgba) && index <= MaxCells(g)
    ensures r.Ok? ==> pos < r.value.1 < |lines|
    ensures r.Ok? ==> r.value.2 == index + StateCells(r.value.0) <= MaxCells(g)
    ensures r.Ok? ==> r.value.0.images == StateImages(rgba, g, index, StateCells(r.value.0))
    ensures r.Ok? ==> DmiLine.ParseLine(lines[pos], true, true) == Ok(("state", r.value.0.name))
  {
    match DmiLine.ParseLine(lines[pos], true, true)
    case Err(e) => Err(e)
    case Ok(kv) =>
      if kv.0 != "state" then Err(Generic)
      else
        match ReadSettings(lines, pos, NO_SETTINGS)
        case Err(e) => Err(e)
        case Ok(block) => BlockState(kv.1, block.0, block.1, index, g, rgba)
  }

  /** The state blocks from line `pos` on, up to the `# END DMI` line. */
  function ReadStates(lines: seq<string>, pos: nat, index: nat, g: Geometry, rgba: Option<seq<byte>>)
    : (r: Result<seq<IconState>>)
    requires pos < |lines| && ValidGeometry(g) && RgbaFits(g, rgba) && index <= MaxCells(g)
    decreases |lines| - pos
    ensures r.Ok? ==> index + TotalCells(r.value) <= MaxCells(g)
    ensures r.Ok? ==> END_DMI in lines[pos..]
    ensures r.Err? ==> END_DMI != lines[pos]
  {
    if lines[pos] == END_DMI then Ok([])
    else
      match ReadBlock(lines, pos, index, g, rgba)
      case Err(e) => Err(e)
      case Ok(block) => Then([block.0], ReadStates(lines, block.1, block.2, g, rgba))
  }

  /** Reading on past one state block. */
  lemma ReadStatesStep(lines: seq<string>, current: nat, index: nat, g: Geometry, rgba: Option<seq<byte>>,
                       state: IconState, next: nat, next_index: nat)
    requires current < |lines| && ValidGeometry(g) && RgbaFits(g, rgba) && index <= MaxCells(g)
    requires lines[current] != END_DMI
    requires ReadBlock(lines, current, index, g, rgba) == Ok((state, next, next_index))
    ensures ReadStates(lines, current, index, g, rgba) == Then([state], ReadStates(lines, next, next_index, g, rgba))
  {
  }

  /** The states read from a run of blocks take consecutive runs of cells,
      starting at cell `index`, each state's images cut from its own run. */
  lemma {:induction false} ReadStatesLaidOut(lines: seq<string>, pos: nat, index: nat, g: Geometry,
                                             rgba: Option<seq<byte>>, states: seq<IconState>)
    requires pos < |lines| && ValidGeometry(g) && RgbaFits(g, rgba) && index <= MaxCells(g)
    requires ReadStates(lines, pos, index, g, rgba) == Ok(states)
    decreases |lines| - pos
    ensures ImagesLaidOut(states, index, g, rgba)
  {
    if lines[pos] != END_DMI {
      match ReadBlock(lines, pos, index, g, rgba)
      case Ok(block) =>
        ReadStatesStep(lines, pos, index, g, rgba, block.0, block.1, block.2);
        match ReadStates(lines, block.1, block.2, g, rgba)
        case Ok(more) =>
          ReadStatesLaidOut(lines, block.1, block.2, g, rgba, more);
          assert states == [block.0] + more;
          LaidOutCons(block.0, more, index, block.2, g, rgba);
    }
  }

  // ---- the whole text ----

  /** The image size fields of the IHDR data (its first eight bytes). */
  function SheetGeometry(ihdr_data: seq<byte>, width: u32, height: u32): Geometry
    requires |ihdr_data| >= 8
  {
    Geometry(width, height, Be32(ihdr_data[0..4]), Be32(ihdr_data[4..8]))
  }

  /** What the source takes for granted of the decoded sheet: its RGBA
      bytes, when loaded, cover the image the IHDR data describes. */
  predicate RgbaMatchesHeader(ihdr_data: seq<byte>, rgba: Option<seq<byte>>)
  {
    rgba.Some? ==> |ihdr_data| >= 8 && |rgba.value| == Be32(ihdr_data[0..4]) * 4 * Be32(ihdr_data[4..8])
  }

  /** A missing cell size is 32. */
  function OrDefault(size: Option<u32>): (r: u32)
    ensures size != Some(0) ==> r > 0
  {
    match size
    case Some(s) => s
    case None => DEFAULT_CELL_SIZE
  }

  /** The checks of `load_internal` on the sheet: the IHDR data holds the
      image size (the source slices it and panics otherwise), the image is a
      nonzero whole number of cells, and its cell count fits a `u32`. */
  function CheckGeometry(ihdr_data: seq<byte>, width: u32, height: u32): (r: Result<Geometry>)
    requires width > 0 && height > 0
    ensures r.Ok? <==> |ihdr_data| >= 8 && ValidGeometry(SheetGeometry(ihdr_data, width, height))
    ensures r.Ok? ==> r.value == SheetGeometry(ihdr_data, width, height)
  {
    if |ihdr_data| < 8 then Err(Panic)
    else
      var g := SheetGeometry(ihdr_data, width, height);
      if g.img_width == 0 || g.img_height == 0 || g.img_width % width != 0 || g.img_height % height != 0 then Err(Generic)
      else if MaxCells(g) >= U32_LIMIT then Err(Panic)
      else Ok(g)
  }

  /** The metadata part of `load_internal`: the icon described by `text`,
      on the sheet described by `ihdr_data` (and `rgba`). */
  function LoadText(v: Variant, ihdr_data: seq<byte>, text: string, rgba: Option<seq<byte>>): (r: Result<Icon>)
    requires RgbaMatchesHeader(ihdr_data, rgba)
    ensures r.Ok? ==> |Lines(text)| >= 3 && Lines(text)[0] == BEGIN_DMI && END_DMI in Lines(text)
    ensures r.Ok? ==> |ihdr_data| >= 8 && r.value.width > 0 && r.value.height > 0
    ensures r.Ok? ==> var g := SheetGeometry(ihdr_data, r.value.width, r.value.height);
      ValidGeometry(g) && TotalCells(r.value.states) <= MaxCells(g)
  {
    var lines := Lines(text);
    match HeadersOf(v, lines)
    case Err(e) => Err(e)
    case Ok(headers) =>
      var width := OrDefault(headers.0.width);
      var height := OrDefault(headers.0.height);
      match CheckGeometry(ihdr_data, width, height)
      case Err(e) => Err(e)
      case Ok(g) =>
        if headers.1 == |lines| then Err(Generic)
        else
          match ReadStates(lines, headers.1, 0, g, rgba)
          case Err(e) => Err(e)
          case Ok(states) => Ok(Icon(headers.0.version, width, height, states))
  }

  /** What a loaded icon satisfies: its size is the header's (32 where a
      line is missing), the sheet is a nonzero whole number of cells that
      fits a `u32` count, and the states' images are consecutive runs of
      cells from the first cell on. */
  lemma LoadedIconLaidOut(v: Variant, ihdr_data: seq<byte>, text: string, rgba: Option<seq<byte>>, icon: Icon)
    requires RgbaMatchesHeader(ihdr_data, rgba) && LoadText(v, ihdr_data, text, rgba) == Ok(icon)
    ensures |ihdr_data| >= 8 && HeadersOf(v, Lines(text)).Ok?
    ensures var h := HeadersOf(v, Lines(text)).value.0;
      icon.version == h.version && icon.width == OrDefault(h.width) && icon.height == OrDefault(h.height)
    ensures var g := SheetGeometry(ihdr_data, icon.width, icon.height);
      ValidGeometry(g) && RgbaFits(g, rgba) && ImagesLaidOut(icon.states, 0, g, rgba)
  {
    var lines := Lines(text);
    match HeadersOf(v, lines)
    case Ok(headers) =>
      match CheckGeometry(ihdr_data, OrDefault(headers.0.width), OrDefault(headers.0.height))
      case Ok(g) =>
        ReadStatesLaidOut(lines, headers.1, 0, g, rgba, icon.states);
  }

  /** `load_internal` as written loads nothing the corrected one does not:
      where it loads an icon, the corrected one loads the same icon. */
  lemma LoadTextAsWrittenAgrees(ihdr_data: seq<byte>, text: string, rgba: Option<seq<byte>>)
    requires RgbaMatchesHeader(ihdr_data, rgba)
    ensures LoadText(AsWritten, ihdr_data, text, rgba).Ok?
      ==> LoadText(Corrected, ihdr_data, text, rgba) == LoadText(AsWritten, ihdr_data, text, rgba)
  {
    var lines := Lines(text);
    if HeadersAsWritten(lines).Ok? {
      HeadersExtendAsWritten(lines);
      assert HeadersOf(Corrected, lines) == HeadersOf(AsWritten, lines);
      LoadTextSameHeaders(ihdr_data, text, rgba);
    } else {
      assert HeadersOf(AsWritten, lines).Err?;
    }
  }

  /** Where both readers of the header agree, so do both loads. */
  lemma LoadTextSameHeaders(ihdr_data: seq<byte>, text: string, rgba: Option<seq<byte>>)
    requires RgbaMatchesHeader(ihdr_data, rgba)
    requires HeadersOf(Corrected, Lines(text)) == HeadersOf(AsWritten, Lines(text))
    ensures LoadText(Corrected, ihdr_data, text, rgba) == LoadText(AsWritten, ihdr_data, text, rgba)
  {
  }

  // ---- the loops ----

  /** The `delay` arm: every comma-separated token is parsed as an `f32`. */
  method ReadDelays(value: string) returns (r: Result<seq<string>>)
    ensures r == Delays(value)
    ensures r.Err? ==> r.error == ParseFloat
  {
    var text_delays := SplitTerminator(value, ",");
    var delay_vector: seq<string> := [];
    for i := 0 to |text_delays|
      invariant delay_vector == text_delays[..i]
      invariant forall j :: 0 <= j < i ==> IsF32Literal(text_delays[j])
    {
      if !IsF32Literal(text_delays[i]) {
        return Err(ParseFloat);
      }
      delay_vector := delay_vector + [text_delays[i]];
    }
    assert delay_vector == text_delays;
    return Ok(delay_vector);
  }

  /** The match on a setting's key in the block loop. */
  method ReadSetting(acc: Settings, current_line: string, key: string, value: string) returns (r: Result<Settings>)
    ensures r == ApplySetting(acc, current_line, key, value)
  {
    if key == "\tdirs" {
      var d := ParseU8(value);
      if d.Err? {
        return Err(d.error);
      }
      return Ok(acc.(dirs := Some(d.value)));
    } else if key == "\tframes" {
      var f := ParseU32(value);
      if f.Err? {
        return Err(f.error);
      }
      return Ok(acc.(frames := Some(f.value)));
    } else if key == "\tdelay" {
      var delay := ReadDelays(value);
      if delay.Err? {
        return Err(delay.error);
      }
      return Ok(acc.(delay := Some(delay.value)));
    } else if key == "\tloop" {
      var n := ParseU32(value);
      if n.Err? {
        return Err(n.error);
      }
      return Ok(acc.(loop_flag := NewLooping(n.value)));
    } else if key == "\trewind" {
      var n := ParseU8(value);
      if n.Err? {
        return Err(n.error);
      }
      return Ok(acc.(rewind := n.value != 0));
    } else if key == "\tmovement" {
      var n := ParseU8(value);
      if n.Err? {
        return Err(n.error);
      }
      return Ok(acc.(movement := n.value != 0));
    } else if key == "\thotspot" {
      var text_coordinates := SplitTerminator(value, ",");
      if |text_coordinates| != 3 {
        return Err(Generic);
      }
      var x := ParseU32(text_coordinates[0]);
      if x.Err? {
        return Err(x.error);
      }
      var y := ParseU32(text_coordinates[1]);
      if y.Err? {
        return Err(y.error);
      }
      return Ok(acc.(hotspot := Some(Hotspot(x.value, y.value))));
    } else {
      match SplitOnce(current_line, DmiLine.SEPARATOR) {
        case None =>
          return Ok(acc);
        case Some(kv) =>
          return Ok(acc.(unknown_settings := Some(AddUnknown(acc.unknown_settings, kv.0, kv.1))));
      }
    }
  }

  /** The crop loop of one state: cells `index .. next_index`, each cut out
      row by row. The capacity `width * height * 4` is a `u32` product and
      panics on overflow. */
  method CropCells(rgba_bytes: seq<byte>, g: Geometry, index: nat, next_index: nat) returns (r: Result<seq<Image>>)
    requires ValidGeometry(g) && |rgba_bytes| == g.img_width * 4 * g.img_height
    requires index <= next_index <= MaxCells(g)
    ensures index < next_index && g.width * g.height * 4 >= U32_LIMIT ==> r == Err(Panic)
    ensures !(index < next_index && g.width * g.height * 4 >= U32_LIMIT) ==> r == Ok(CellImages(rgba_bytes, g, index, next_index))
  {
    var width_in_states: nat := g.img_width / g.width;
    var images: seq<Image> := [];
    for image_idx := index to next_index
      invariant images == CellImages(rgba_bytes, g, index, image_idx)
      invariant image_idx > index ==> g.width * g.height * 4 < U32_LIMIT
    {
      var x := (image_idx % width_in_states) * g.width;
      var y := (image_idx / width_in_states) * g.height;
      if g.width * g.height * 4 >= U32_LIMIT {
        return Err(Panic);
      }
      Grid.CellInside(g.img_width, g.img_height, g.width, g.height, image_idx);
      var cropped := Grid.CropCell(rgba_bytes, g.img_width, x, y, g.width, g.height);
      assert cropped == Grid.CellTile(rgba_bytes, g.img_width, g.img_height, g.width, g.height, image_idx);
      CellImagesSnoc(rgba_bytes, g, index, image_idx);
      images := images + [Image(g.width, g.height, cropped)];
    }
    return Ok(images);
  }

  /** What the loop over setting lines does with line `current`: it either
      ends the block (or the text, or fails), or applies one setting. */
  datatype SettingStep = Ended(result: Result<(Settings, nat)>) | Applied(settings: Settings)

  /** One turn of the loop over setting lines: the line after `current`
      is read. */
  method ReadSettingLine(lines: seq<string>, current: nat, settings: Settings) returns (r: SettingStep)
    requires current < |lines|
    ensures r.Ended? ==> r.result == ReadSettings(lines, current, settings)
    ensures r.Applied? ==> current + 1 < |lines|
    ensures r.Applied? ==> ReadSettings(lines, current + 1, r.settings) == ReadSettings(lines, current, settings)
  {
    if current + 1 == |lines| {
      return Ended(Err(Generic));
    }
    var current_line := lines[current + 1];
    if current_line == END_DMI || !StartsWith(current_line, "\t") {
      return Ended(Ok((settings, current + 1)));
    }
    var entry := DmiLine.ParseDmiLine(current_line, false, false);
    match entry {
      case Err(e) =>
        return Ended(Err(e));
      case Ok(kv) =>
        var applied := ReadSetting(settings, current_line, kv.0, kv.1);
        match applied {
          case Err(e) =>
            return Ended(Err(e));
          case Ok(next_settings) =>
            ReadSettingsStep(lines, current, settings, kv.0, kv.1, next_settings);
            return Applied(next_settings);
        }
    }
  }

  /** The inner loop of `load_internal`: the setting lines after the
      `state` line `pos`, up to the line that ends the block. Running out of
      lines is an error. */
  method ReadSettingLines(lines: seq<string>, pos: nat) returns (r: Result<(Settings, nat)>)
    requires pos < |lines|
    ensures r == ReadSettings(lines, pos, NO_SETTINGS)
  {
    var settings := NO_SETTINGS;
    for current := pos to |lines| - 1
      invariant ReadSettings(lines, current, settings) == ReadSettings(lines, pos, NO_SETTINGS)
    {
      var step := ReadSettingLine(lines, current, settings);
      match step {
        case Ended(result) =>
          return result;
        case Applied(next_settings) =>
          settings := next_settings;
      }
    }
    return Err(Generic);
  }

  /** The body of the loop over state blocks: the `state` line, the inner
      loop over setting lines, the checks on `dirs` and `frames`, and the
      crop loop. */
  method ReadStateBlock(lines: seq<string>, pos: nat, index: nat, g: Geometry, rgba_bytes: Option<seq<byte>>)
    returns (r: Result<(IconState, nat, nat)>)
    requires pos < |lines| && ValidGeometry(g) && RgbaFits(g, rgba_bytes) && index <= MaxCells(g)
    ensures r == ReadBlock(lines, pos, index, g, rgba_bytes)
  {
    var state_line := DmiLine.ParseDmiLine(lines[pos], true, true);
    match state_line {
      case Err(e) =>
        return Err(e);
      case Ok(kv) =>
        if kv.0 != "state" {
          return Err(Generic);
        }
        var block := ReadSettingLines(lines, pos);
        match block {
          case Err(e) =>
            return Err(e);
          case Ok(b) =>
            r := CloseBlock(kv.1, b.0, b.1, index, g, rgba_bytes);
        }
    }
  }

  /** The end of the loop body over state blocks: the checks on `dirs` and
      `frames`, and the crop loop. */
  method CloseBlock(name: string, settings: Settings, stop: nat, index: nat, g: Geometry, rgba_bytes: Option<seq<byte>>)
    returns (r: Result<(IconState, nat, nat)>)
    requires ValidGeometry(g) && RgbaFits(g, rgba_bytes) && index <= MaxCells(g)
    ensures r == BlockState(name, settings, stop, index, g, rgba_bytes)
  {
    match (settings.dirs, settings.frames) {
      case (Some(dirs), Some(frames)) =>
        var n := CellCount(dirs, frames);
        if n >= U32_LIMIT || index + n >= U32_LIMIT {
          return Err(Panic);
        }
        var next_index := index + n;
        if next_index > MaxCells(g) {
          return Err(Generic);
        }
        var images: seq<Image> := [];
        if rgba_bytes.Some? {
          var cropped := CropCells(rgba_bytes.value, g, index, next_index);
          match cropped {
            case Err(e) =>
              return Err(e);
            case Ok(cells) =>
              images := cells;
          }
        }
        var state := IconState.IconState(name, dirs, frames, images, settings.delay, settings.loop_flag,
                                         settings.rewind, settings.movement, settings.hotspot,
                                         settings.unknown_settings);
        return Ok((state, stop, next_index));
      case _ =>
        return Err(Generic);
    }
  }

  lemma ThenAppend(states: seq<IconState>, state: IconState, rest: Result<seq<IconState>>)
    ensures Then(states, Then([state], rest)) == Then(states + [state], rest)
  {
    match rest
    case Ok(more) =>
      assert states + ([state] + more) == (states + [state]) + more;
    case Err(_) =>
  }

  /** The outer loop of `load_internal`: state blocks from line `first` on,
      their cells numbered from 0, until the `# END DMI` line. */
  method ReadStateBlocks(lines: seq<string>, first: nat, g: Geometry, rgba_bytes: Option<seq<byte>>)
    returns (r: Result<seq<IconState>>)
    requires first < |lines| && ValidGeometry(g) && RgbaFits(g, rgba_bytes)
    ensures r == ReadStates(lines, first, 0, g, rgba_bytes)
  {
    var index: nat := 0;
    var current := first;
    var states: seq<IconState> := [];
    while lines[current] != END_DMI
      invariant current < |lines| && index <= MaxCells(g)
      invariant Then(states, ReadStates(lines, current, index, g, rgba_bytes)) == ReadStates(lines, first, 0, g, rgba_bytes)
      decreases |lines| - current
    {
      var block := ReadStateBlock(lines, current, index, g, rgba_bytes);
      match block {
        case Err(e) =>
          return Err(e);
        case Ok(b) =>
          ReadStatesStep(lines, current, index, g, rgba_bytes, b.0, b.1, b.2);
          ThenAppend(states, b.0, ReadStates(lines, b.1, b.2, g, rgba_bytes));
          states := states + [b.0];
          index := b.2;
          current := b.1;
      }
    }
    assert ReadStates(lines, current, index, g, rgba_bytes) == Ok([]);
    assert states + [] == states;
    return Ok(states);
  }

  /** `load_internal` from the decompressed text on: the header, the
      geometry checks, and the loop over state blocks. */
  method LoadInternal(v: Variant, ihdr_data: seq<byte>, text: string, rgba_bytes: Option<seq<byte>>) returns (r: Result<Icon>)
    requires RgbaMatchesHeader(ihdr_data, rgba_bytes)
    ensures r == LoadText(v, ihdr_data, text, rgba_bytes)
  {
    var lines := Lines(text);
    var dmi_headers := ReadDmiHeaders(v, lines);
    match dmi_headers {
      case Err(e) =>
        return Err(e);
      case Ok(headers) =>
        var width := OrDefault(headers.0.width);
        var height := OrDefault(headers.0.height);
        if |ihdr_data| < 8 {
          return Err(Panic);
        }
        var img_width := Be32(ihdr_data[0..4]);
        var img_height := Be32(ihdr_data[4..8]);
        if img_width == 0 || img_height == 0 || img_width % width != 0 || img_height % height != 0 {
          return Err(Generic);
        }
        var g := Geometry(width, height, img_width, img_height);
        if MaxCells(g) >= U32_LIMIT {
          return Err(Panic);
        }
        assert CheckGeometry(ihdr_data, width, height) == Ok(g);
        if headers.1 == |lines| {
          return Err(Generic);
        }
        var states := ReadStateBlocks(lines, headers.1, g, rgba_bytes);
        match states {
          case Err(e) =>
            return Err(e);
          case Ok(loaded) =>
            return Ok(Icon(headers.0.version, width, height, loaded));
        }
    }
  }
}
