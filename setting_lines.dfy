/** The inner loop of `load_internal` (src/icon.rs:344-402) seen as a fold
    over the setting lines of one block: each line parses as `key = value`
    and updates the settings of the block, and the first line that is the
    trailer or is not indented by a tab ends the block. */
module SettingLines {
  import opened Common
  import opened Text
  import DmiLine
  import IconLoad

  // ---- one setting line at a time ----

  /** The effect of one setting line on the settings of its block. */
  function ApplyLine(acc: IconLoad.Settings, line: string): Result<IconLoad.Settings>
  {
    match DmiLine.ParseLine(line, false, false)
    case Err(e) => Err(e)
    case Ok(kv) => IconLoad.ApplySetting(acc, line, kv.0, kv.1)
  }

  /** The effect of a run of setting lines. */
  function ApplyLines(acc: IconLoad.Settings, lines: seq<string>): Result<IconLoad.Settings>
    decreases |lines|
  {
    if lines == [] then Ok(acc)
    else
      match ApplyLine(acc, lines[0])
      case Err(e) => Err(e)
      case Ok(next) => ApplyLines(next, lines[1..])
  }

  lemma {:induction false} ApplyLinesAppend(acc: IconLoad.Settings, a: seq<string>, b: seq<string>, mid: IconLoad.Settings)
    requires ApplyLines(acc, a) == Ok(mid)
    decreases |a|
    ensures ApplyLines(acc, a + b) == ApplyLines(mid, b)
  {
    if a == [] {
      assert a + b == b;
    } else {
      assert (a + b)[0] == a[0];
      assert (a + b)[1..] == a[1..] + b;
      match ApplyLine(acc, a[0])
      case Ok(next) =>
        ApplyLinesAppend(next, a[1..], b, mid);
    }
  }

  lemma ApplyOne(acc: IconLoad.Settings, line: string, next: IconLoad.Settings)
    requires ApplyLine(acc, line) == Ok(next)
    ensures ApplyLines(acc, [line]) == Ok(next)
  {
    assert [line][1..] == [];
  }

  /** The loop over setting lines, on the lines after the `state` line,
      the first of which is line `pos`: the settings, and the index of the
      line that ends the block. */
  function ReadRun(acc: IconLoad.Settings, ls: seq<string>, pos: nat): Result<(IconLoad.Settings, nat)>
    decreases |ls|
  {
    if ls == [] then Err(Generic)
    else if IconLoad.EndsBlock(ls[0]) then Ok((acc, pos))
    else
      match DmiLine.ParseLine(ls[0], false, false)
      case Err(e) => Err(e)
      case Ok(kv) =>
        match IconLoad.ApplySetting(acc, ls[0], kv.0, kv.1)
        case Err(e) => Err(e)
        case Ok(next) => ReadRun(next, ls[1..], pos + 1)
  }

  lemma ReadRunStep(acc: IconLoad.Settings, ls: seq<string>, pos: nat, kv: (string, string), next: IconLoad.Settings)
    requires ls != [] && !IconLoad.EndsBlock(ls[0])
    requires DmiLine.ParseLine(ls[0], false, false) == Ok(kv) && IconLoad.ApplySetting(acc, ls[0], kv.0, kv.1) == Ok(next)
    ensures ReadRun(acc, ls, pos) == ReadRun(next, ls[1..], pos + 1)
  {
  }

  /** The loop over setting lines reads only the lines after line `last`. */
  lemma {:induction false} ReadSettingsLocal(lines: seq<string>, last: nat, acc: IconLoad.Settings)
    requires last < |lines|
    decreases |lines| - last
    ensures IconLoad.ReadSettings(lines, last, acc) == ReadRun(acc, lines[last + 1..], last + 1)
  {
    var pos := last + 1;
    var ls := lines[pos..];
    if pos < |lines| {
      assert ls[0] == lines[pos];
      if !IconLoad.EndsBlock(lines[pos]) {
        match DmiLine.ParseLine(lines[pos], false, false)
        case Err(e) =>
        case Ok(kv) =>
          match IconLoad.ApplySetting(acc, lines[pos], kv.0, kv.1)
          case Err(e) =>
          case Ok(next) =>
            IconLoad.ReadSettingsStep(lines, last, acc, kv.0, kv.1, next);
            ReadRunStep(acc, ls, pos, kv, next);
            assert ls[1..] == lines[pos + 1..];
            ReadSettingsLocal(lines, pos, next);
      }
    }
  }

  /** The first line of a run that applies cleanly, and what is left. */
  lemma RunFirst(acc: IconLoad.Settings, run: seq<string>, rest: seq<string>, final: IconLoad.Settings)
    returns (next: IconLoad.Settings)
    requires run != [] && ApplyLines(acc, run) == Ok(final)
    requires forall i :: 0 <= i < |run| ==> !IconLoad.EndsBlock(run[i])
    ensures !IconLoad.EndsBlock(run[0]) && ApplyLine(acc, run[0]) == Ok(next)
    ensures forall i :: 0 <= i < |run[1..]| ==> !IconLoad.EndsBlock(run[1..][i])
    ensures ApplyLines(next, run[1..]) == Ok(final)
  {
    next := ApplyLine(acc, run[0]).value;
  }

  lemma ConsAppend(run: seq<string>, rest: seq<string>)
    requires run != []
    ensures run + rest == [run[0]] + (run[1..] + rest)
  {
  }

  /** A run of setting lines that apply cleanly, none of which ends the
      block, is read through. */
  lemma {:induction false} ReadRunAppend(acc: IconLoad.Settings, run: seq<string>, rest: seq<string>, pos: nat,
                                         final: IconLoad.Settings, stop: nat)
    requires forall i :: 0 <= i < |run| ==> !IconLoad.EndsBlock(run[i])
    requires ApplyLines(acc, run) == Ok(final) && stop == pos + |run|
    decreases |run|
    ensures ReadRun(acc, run + rest, pos) == ReadRun(final, rest, stop)
  {
    if run == [] {
      assert run + rest == rest;
    } else {
      var next := RunFirst(acc, run, rest, final);
      ConsAppend(run, rest);
      ReadRunCons(acc, run[0], run[1..] + rest, pos, next);
      ReadRunAppend(next, run[1..], rest, pos + 1, final, stop);
    }
  }

  /** One setting line before the rest of the block. */
  lemma ReadRunCons(acc: IconLoad.Settings, line: string, rest: seq<string>, pos: nat, next: IconLoad.Settings)
    requires !IconLoad.EndsBlock(line) && ApplyLine(acc, line) == Ok(next)
    ensures ReadRun(acc, [line] + rest, pos) == ReadRun(next, rest, pos + 1)
  {
    assert ([line] + rest)[0] == line;
    assert ([line] + rest)[1..] == rest;
  }
}
