/** Lines that `Icon::save` writes (src/icon.rs:470-567), read back line by
    line by `load_internal` (src/icon.rs:284-468): the header lines give the
    version and the cell size back, each setting line of a state gives its
    setting back through the settings loop, and an unknown setting comes
    back under its key with one more leading tab. The escaped state-name
    line is read back in `DmiLine`. No lemma here states that loading a
    whole saved text gives the icon back. */
module IconRoundTrip {
  import opened Common
  import opened Text
  import opened DmiIcon
  import DmiLine
  import Grid
  import IconLoad
  import IconSave
  import opened SettingLines

  // ---- plain text ----

  /** A character that a value may hold outside quotes and that does not
      break a line: ASCII, none of backslash, quote, tab, `=` or space, and
      neither `\n` nor `\r`. */
  predicate PlainChar(c: char)
  {
    c as int < 0x80 && !DmiLine.NeedsQuotes(c as int) && c != '\n' && c != '\r'
  }

  predicate PlainText(s: string)
  {
    forall i :: 0 <= i < |s| ==> PlainChar(s[i])
  }

  lemma PlainAppend(a: string, b: string)
    requires PlainText(a) && PlainText(b)
    ensures PlainText(a + b)
  {
    forall i | 0 <= i < |a + b| ensures PlainChar((a + b)[i]) {
      if i >= |a| {
        assert (a + b)[i] == b[i - |a|];
      }
    }
  }

  lemma {:induction false} PlainJoin(parts: seq<string>, sep: string)
    requires PlainText(sep) && forall i :: 0 <= i < |parts| ==> PlainText(parts[i])
    ensures PlainText(Join(parts, sep))
  {
    if |parts| > 1 {
      PlainJoin(parts[1..], sep);
      PlainAppend(parts[0], sep);
      PlainAppend(parts[0] + sep, Join(parts[1..], sep));
    }
  }

  lemma PlainDecimal(n: nat)
    ensures PlainText(Decimal(n)) && ',' !in Decimal(n)
  {
    var d := Decimal(n);
    forall i | 0 <= i < |d| ensures PlainChar(d[i]) && d[i] != ',' {
      assert IsDigit(d[i]);
    }
  }

  /** A plain value on a setting line reads back as itself. */
  lemma ParsePlainValue(key: string, value: string)
    requires ' ' !in key && PlainText(value)
    ensures DmiLine.ParseLine(key + DmiLine.SEPARATOR + value, false, false) == Ok((key, value))
  {
    forall i | 0 <= i < |value| ensures value[i] as int < 0x80 && !DmiLine.NeedsQuotes(value[i] as int) {
      assert PlainChar(value[i]);
    }
    DmiLine.ParsePlain(key, value);
  }

  /** The only characters escaping adds are backslashes and quotes. */
  lemma {:induction false} EscapeKeepsLines(name: string)
    requires '\n' !in name
    ensures '\n' !in DmiLine.Escape(name)
  {
    if name != [] {
      assert name == [name[0]] + name[1..];
      DmiLine.EscapeCons(name[0], name[1..]);
      EscapeKeepsLines(name[1..]);
    }
  }

  /** A tab-indented line other than the trailer does not end a block. */
  lemma IndentedLine(rest: string)
    ensures !IconLoad.EndsBlock("\t" + rest)
  {
    assert ("\t" + rest)[..1] == "\t";
    assert ("\t" + rest)[0] != IconLoad.END_DMI[0];
  }

  /** `dirs = n` and `frames = n` read back their number. */
  lemma DirsLine(acc: IconLoad.Settings, dirs: u8)
    ensures ApplyLine(acc, "\tdirs = " + Decimal(dirs)) == Ok(acc.(dirs := Some(dirs)))
  {
    PlainDecimal(dirs);
    assert "\tdirs = " + Decimal(dirs) == "\tdirs" + DmiLine.SEPARATOR + Decimal(dirs);
    ParsePlainValue("\tdirs", Decimal(dirs));
    ParseU8Decimal(dirs);
  }

  lemma FramesLine(acc: IconLoad.Settings, frames: u32)
    ensures ApplyLine(acc, "\tframes = " + Decimal(frames)) == Ok(acc.(frames := Some(frames)))
  {
    PlainDecimal(frames);
    assert "\tframes = " + Decimal(frames) == "\tframes" + DmiLine.SEPARATOR + Decimal(frames);
    ParsePlainValue("\tframes", Decimal(frames));
    ParseU32Decimal(frames);
  }

  /** Delays that `str::parse::<f32>` accepts and that hold no comma are
      read back one by one. */
  predicate DelayTokens(delay: seq<string>)
  {
    && |delay| > 0 && delay[|delay| - 1] != ""
    && forall i :: 0 <= i < |delay| ==> IsF32Literal(delay[i]) && PlainText(delay[i]) && ',' !in delay[i]
  }

  lemma DelayLine(acc: IconLoad.Settings, delay: seq<string>)
    requires DelayTokens(delay)
    ensures ApplyLine(acc, "\tdelay = " + Join(delay, ",")) == Ok(acc.(delay := Some(delay)))
  {
    var value := Join(delay, ",");
    PlainJoin(delay, ",");
    assert "\tdelay = " + value == "\tdelay" + DmiLine.SEPARATOR + value;
    ParsePlainValue("\tdelay", value);
    SplitTerminatorJoin(delay, ',');
  }

  lemma LoopLine(acc: IconLoad.Settings, times: NonZeroU32)
    ensures ApplyLine(acc, "\tloop = " + Decimal(times)) == Ok(acc.(loop_flag := NTimes(times)))
  {
    PlainDecimal(times);
    assert "\tloop = " + Decimal(times) == "\tloop" + DmiLine.SEPARATOR + Decimal(times);
    ParsePlainValue("\tloop", Decimal(times));
    ParseU32Decimal(times);
  }

  lemma RewindLine(acc: IconLoad.Settings)
    ensures ApplyLine(acc, "\trewind = 1") == Ok(acc.(rewind := true))
  {
    assert Decimal(1) == "1";
    PlainDecimal(1);
    assert "\trewind = 1" == "\trewind" + DmiLine.SEPARATOR + "1";
    ParsePlainValue("\trewind", "1");
    ParseU8Decimal(1);
  }

  lemma MovementLine(acc: IconLoad.Settings)
    ensures ApplyLine(acc, "\tmovement = 1") == Ok(acc.(movement := true))
  {
    assert Decimal(1) == "1";
    PlainDecimal(1);
    assert "\tmovement = 1" == "\tmovement" + DmiLine.SEPARATOR + "1";
    ParsePlainValue("\tmovement", "1");
    ParseU8Decimal(1);
  }

  /** The hotspot line reads back both coordinates; its third value is
      skipped. */
  lemma HotspotLine(acc: IconLoad.Settings, spot: Hotspot)
    ensures ApplyLine(acc, "\thotspot" + DmiLine.SEPARATOR + IconSave.HotspotValue(spot))
         == Ok(acc.(hotspot := Some(spot)))
  {
    var parts := [Decimal(spot.x), Decimal(spot.y), "1"];
    HotspotValueParts(spot);
    ParsePlainValue("\thotspot", IconSave.HotspotValue(spot));
    SplitTerminatorJoin(parts, ',');
    ParseU32Decimal(spot.x);
    ParseU32Decimal(spot.y);
  }

  /** The hotspot value is its three numbers joined by commas. */
  lemma HotspotValueParts(spot: Hotspot)
    ensures IconSave.HotspotValue(spot) == Join([Decimal(spot.x), Decimal(spot.y), "1"], ",")
    ensures PlainText(IconSave.HotspotValue(spot))
    ensures forall i :: 0 <= i < 3 ==> ',' !in [Decimal(spot.x), Decimal(spot.y), "1"][i]
  {
    var parts := [Decimal(spot.x), Decimal(spot.y), "1"];
    assert Decimal(1) == "1";
    PlainDecimal(spot.x);
    PlainDecimal(spot.y);
    PlainDecimal(1);
    assert parts[1..] == [Decimal(spot.y), "1"];
    assert parts[1..][1..] == ["1"];
    assert Join(parts[1..], ",") == Decimal(spot.y) + "," + "1";
    assert Join(parts, ",") == Decimal(spot.x) + "," + (Decimal(spot.y) + "," + "1");
    PlainJoin(parts, ",");
  }

  /** The keys the loader knows, without their tab. */
  predicate KnownKey(key: string)
  {
    key in {"dirs", "frames", "delay", "loop", "rewind", "movement", "hotspot"}
  }

  /** A key that reads back as an unknown setting: no space (so no
      separator inside it), no line break, and not a key the loader
      knows. */
  predicate UnknownKey(key: string)
  {
    ' ' !in key && '\n' !in key && '\r' !in key && !KnownKey(key)
  }

  /** An unknown setting reads back under its key with the tab it was
      written with in front. */
  lemma UnknownSettingLine(acc: IconLoad.Settings, key: string, value: string)
    requires UnknownKey(key) && PlainText(value)
    ensures ApplyLine(acc, IconSave.UnknownLine(key, value))
         == Ok(acc.(unknown_settings := Some(IconLoad.AddUnknown(acc.unknown_settings, "\t" + key, value))))
  {
    var line := IconSave.UnknownLine(key, value);
    assert ' ' !in "\t" + key by {
      forall i | 0 <= i < |"\t" + key| ensures ("\t" + key)[i] != ' ' {
        if i > 0 {
          assert ("\t" + key)[i] == key[i - 1];
        }
      }
    }
    ParsePlainValue("\t" + key, value);
    DmiLine.SplitAfterKey("\t" + key, value);
    DmiLine.SplitAt(line, "\t" + key, value);
    assert "\t" + key != "\tdirs" && "\t" + key != "\tframes" && "\t" + key != "\tdelay" && "\t" + key != "\tloop"
        && "\t" + key != "\trewind" && "\t" + key != "\tmovement" && "\t" + key != "\thotspot" by {
      assert ("\t" + key)[1..] == key;
      assert "\tdirs"[1..] == "dirs" && "\tframes"[1..] == "frames" && "\tdelay"[1..] == "delay";
      assert "\tloop"[1..] == "loop" && "\trewind"[1..] == "rewind" && "\tmovement"[1..] == "movement";
      assert "\thotspot"[1..] == "hotspot";
    }
  }

  // ---- the header ----

  /** A size line `Icon::save` writes is a size line to the header reader
      and parses as its key and number. */
  lemma SizeLineReads(line: string, key: string, n: u32)
    requires key == "\twidth" || key == "\theight"
    requires line == key + " = " + Decimal(n)
    ensures IconLoad.IsSizeLine(line)
    ensures DmiLine.ParseLine(line, false, false) == Ok((key, Decimal(n)))
    ensures ParseU32(Decimal(n)) == Ok(n)
  {
    PlainDecimal(n);
    assert line == key + DmiLine.SEPARATOR + Decimal(n);
    ParsePlainValue(key, Decimal(n));
    assert line[..|key + " = "|] == key + " = ";
    ParseU32Decimal(n);
  }

  /** Two size lines for width and height read back as the cell size,
      through either version of the size loop. */
  lemma SizeLinesReadBack(v: Variant, lines: seq<string>, width: u32, height: u32)
    requires |lines| >= 4
    requires lines[2] == "\twidth = " + Decimal(width) && lines[3] == "\theight = " + Decimal(height)
    ensures IconLoad.SizeLinesOf(v, lines, 2, 2, None, None) == Ok((Some(width), Some(height), 4))
  {
    SizeLinesParse(lines, width, height);
    if v == AsWritten {
      SizesAsWritten(lines, width, height);
    } else {
      SizesCorrected(lines, width, height);
    }
  }

  /** The two size lines are size lines, parse as their keys and numbers,
      and the numbers parse back. */
  lemma SizeLinesParse(lines: seq<string>, width: u32, height: u32)
    requires |lines| >= 4
    requires lines[2] == "\twidth = " + Decimal(width) && lines[3] == "\theight = " + Decimal(height)
    ensures IconLoad.IsSizeLine(lines[2]) && IconLoad.IsSizeLine(lines[3])
    ensures DmiLine.ParseLine(lines[2], false, false) == Ok(("\twidth", Decimal(width)))
    ensures DmiLine.ParseLine(lines[3], false, false) == Ok(("\theight", Decimal(height)))
    ensures ParseU32(Decimal(width)) == Ok(width) && ParseU32(Decimal(height)) == Ok(height)
  {
    assert "\twidth = " == "\twidth" + " = " && "\theight = " == "\theight" + " = ";
    SizeLineReads(lines[2], "\twidth", width);
    SizeLineReads(lines[3], "\theight", height);
  }

  lemma SizesAsWritten(lines: seq<string>, width: u32, height: u32)
    requires |lines| >= 4
    requires DmiLine.ParseLine(lines[2], false, false) == Ok(("\twidth", Decimal(width)))
    requires DmiLine.ParseLine(lines[3], false, false) == Ok(("\theight", Decimal(height)))
    requires ParseU32(Decimal(width)) == Ok(width) && ParseU32(Decimal(height)) == Ok(height)
    ensures IconLoad.SizeLinesAsWritten(lines, 2, 2, None, None) == Ok((Some(width), Some(height), 4))
  {
    IconLoad.SizeLinesAsWrittenStep(lines, 2, 2, None, None, "\twidth", Decimal(width), width, 3, 1);
    IconLoad.SizeLinesAsWrittenStep(lines, 3, 1, Some(width), None, "\theight", Decimal(height), height, 4, 0);
  }

  lemma SizesCorrected(lines: seq<string>, width: u32, height: u32)
    requires |lines| >= 4 && IconLoad.IsSizeLine(lines[2]) && IconLoad.IsSizeLine(lines[3])
    requires DmiLine.ParseLine(lines[2], false, false) == Ok(("\twidth", Decimal(width)))
    requires DmiLine.ParseLine(lines[3], false, false) == Ok(("\theight", Decimal(height)))
    requires ParseU32(Decimal(width)) == Ok(width) && ParseU32(Decimal(height)) == Ok(height)
    ensures IconLoad.SizeLines(lines, 2, 2, None, None) == Ok((Some(width), Some(height), 4))
  {
    IconLoad.SizeLinesStep(lines, 2, 2, None, None, "\twidth", Decimal(width), width, 3, 1);
    IconLoad.SizeLinesStep(lines, 3, 1, Some(width), None, "\theight", Decimal(height), height, 4, 0);
  }

  /** The four header lines `Icon::save` writes read back, through either
      version of `read_dmi_headers`, as the icon's version and cell size, and
      the lines after them are left for the state blocks. */
  lemma HeaderLinesReadBack(v: Variant, icon: Icon, rest: seq<string>)
    requires PlainText(icon.version) && icon.width > 0 && icon.height > 0
    ensures IconLoad.HeadersOf(v, IconSave.HeaderLines(icon) + rest)
         == Ok((IconLoad.DmiHeaders(icon.version, Some(icon.width), Some(icon.height)), 4))
  {
    var lines := IconSave.HeaderLines(icon) + rest;
    assert lines[0] == IconLoad.BEGIN_DMI;
    assert lines[1] == "version" + DmiLine.SEPARATOR + icon.version;
    ParsePlainValue("version", icon.version);
    assert IconLoad.VersionHeader(lines) == Ok(icon.version);
    SizeLinesReadBack(v, lines, icon.width, icon.height);
  }

  // ---- a block of setting lines ----

  /** A line indented by a tab never ends a block. */
  lemma IndentedNotEnd(line: string)
    requires |line| > 0 && line[0] == '\t'
    ensures !IconLoad.EndsBlock(line)
  {
    assert line[..1] == "\t";
    assert line[0] != IconLoad.END_DMI[0];
  }

  /** The first line of a run that applies cleanly parses and applies. */
  lemma ApplyLinesFirst(acc: IconLoad.Settings, run: seq<string>, final: IconLoad.Settings)
    returns (kv: (string, string), next: IconLoad.Settings)
    requires run != [] && ApplyLines(acc, run) == Ok(final)
    ensures DmiLine.ParseLine(run[0], false, false) == Ok(kv)
    ensures IconLoad.ApplySetting(acc, run[0], kv.0, kv.1) == Ok(next)
    ensures ApplyLines(next, run[1..]) == Ok(final)
  {
    kv := DmiLine.ParseLine(run[0], false, false).value;
    next := ApplyLine(acc, run[0]).value;
  }
}
