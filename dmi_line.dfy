/** `parse_dmi_line` (src/icon.rs:65-131): one `key = value` line of the DMI
    metadata text. The value is read byte by byte, each byte taken as the
    character with that code, under three flags: inside quotes, after a
    backslash, and quotes seen. */
module DmiLine {
  import opened Common
  import opened Text

  const SEPARATOR: string := " = "

  const BACKSLASH: byte := 0x5C
  const QUOTE: byte := 0x22
  const TAB: byte := 0x09
  const EQUALS: byte := 0x3D
  const SPACE: byte := 0x20

  /** Each byte read as the character with that code (`*byte as char`). */
  function Latin1(bs: seq<byte>): (s: string)
    ensures |s| == |bs|
    ensures forall i :: 0 <= i < |bs| ==> s[i] as int == bs[i]
  {
    seq(|bs|, i requires 0 <= i < |bs| => bs[i] as char)
  }

  /** The loop state: `quoted`, `escaped`, `used_quotes` and the value read so far. */
  datatype Scan = Scan(quoted: bool, escaped: bool, used_quotes: bool, post_equals: string)

  const START: Scan := Scan(false, false, false, [])

  function Push(s: Scan, b: byte): Scan
  {
    s.(post_equals := s.post_equals + [b as char])
  }

  /** One pass of the loop body over byte `b` at position `char_idx` of a
      value of `num_chars` bytes. */
  function Step(s: Scan, b: byte, char_idx: nat, num_chars: nat, allow_quotes: bool): Result<Scan>
  {
    var escape_this_char := s.escaped;
    var s1 := s.(escaped := false);
    if b == BACKSLASH then
      if !s1.quoted then Err(Generic)
      else if !escape_this_char then Ok(s1.(escaped := true))
      else Ok(Push(s1, b))
    else if b == QUOTE then
      if !allow_quotes then Err(Generic)
      else if !escape_this_char then
        if s1.quoted && char_idx + 1 != num_chars then Err(BlockEntry)
        else if !s1.quoted && s1.post_equals != [] then Err(BlockEntry)
        else Ok(s1.(quoted := !s1.quoted, used_quotes := true))
      else Ok(Push(s1, b))
    else if b == TAB || b == EQUALS || b == SPACE then
      if !s1.quoted then Err(BlockEntry) else Ok(Push(s1, b))
    else Ok(Push(s1, b))
  }

  /** The loop run from position `k` of `v` in state `s` to the end, or to the
      first error. */
  function RunFrom(v: seq<byte>, k: nat, s: Scan, allow_quotes: bool): (r: Result<Scan>)
    requires k <= |v|
    decreases |v| - k
    ensures r.Err? ==> r.error == Generic || r.error == BlockEntry
  {
    if k == |v| then Ok(s)
    else match Step(s, v[k], k, |v|, allow_quotes)
      case Err(e) => Err(e)
      case Ok(s1) => RunFrom(v, k + 1, s1, allow_quotes)
  }

  /** `line` is `key`, the separator, then `value`, and the separator does
      not occur earlier. */
  predicate IsSplit(line: string, key: string, value: string)
  {
    && line == key + SEPARATOR + value
    && forall j :: 0 <= j < |key| ==> !OccursAt(line, SEPARATOR, j)
  }

  lemma SplitAt(line: string, key: string, value: string)
    requires IsSplit(line, key, value)
    ensures SplitOnce(line, SEPARATOR) == Some((key, value))
  {
    assert OccursAt(line, SEPARATOR, |key|) by {
      assert line[|key|..|key| + 3] == SEPARATOR;
    }
    FindFromAt(line, SEPARATOR, 0, |key|);
    assert line[..|key|] == key;
    assert line[|key| + 3..] == value;
  }

  /** A key without spaces is split off at the separator that follows it. */
  lemma SplitAfterKey(key: string, value: string)
    requires forall i :: 0 <= i < |key| ==> key[i] != ' '
    ensures IsSplit(key + SEPARATOR + value, key, value)
  {
    var line := key + SEPARATOR + value;
    forall j | 0 <= j < |key| ensures !OccursAt(line, SEPARATOR, j) {
      assert line[j] == key[j];
    }
  }

  /** `parse_dmi_line(line, allow_quotes, require_quotes)`. A value of fewer
      than two bytes when quotes are required underflows the capacity
      computation at src/icon.rs:79 and panics. */
  function ParseLine(line: string, allow_quotes: bool, require_quotes: bool): (r: Result<(string, string)>)
    ensures SplitOnce(line, SEPARATOR).None? ==> r == Err(BlockEntry)
    ensures r.Ok? ==> SplitOnce(line, SEPARATOR).Some? && r.value.0 == SplitOnce(line, SEPARATOR).value.0
    ensures SplitOnce(line, SEPARATOR).Some? && require_quotes && |Utf8(SplitOnce(line, SEPARATOR).value.1)| < 2
            ==> r == Err(Panic)
    ensures r.Err? ==> r.error == BlockEntry || r.error == Generic || r.error == Panic
  {
    match SplitOnce(line, SEPARATOR)
    case None => Err(BlockEntry)
    case Some((key, value)) =>
      var value_bytes := Utf8(value);
      if require_quotes && |value_bytes| < 2 then Err(Panic)
      else match RunFrom(value_bytes, 0, START, allow_quotes)
        case Err(e) => Err(e)
        case Ok(s) =>
          if allow_quotes && require_quotes && !s.used_quotes then Err(Generic)
          else
            Ok((key, s.post_equals))
  }

  /** A parsed line is split at the first ` = `: the key is what comes
      before it, and a line without one is refused as a block entry. */
  lemma ParseLineSplits(line: string, allow_quotes: bool, require_quotes: bool)
    ensures (forall j :: 0 <= j ==> !OccursAt(line, SEPARATOR, j)) ==> ParseLine(line, allow_quotes, require_quotes) == Err(BlockEntry)
    ensures var r := ParseLine(line, allow_quotes, require_quotes);
      r.Ok? ==> |r.value.0| + 3 <= |line| && IsSplit(line, r.value.0, line[|r.value.0| + 3..])
  {
    SplitOnceFirst(line, SEPARATOR);
    match SplitOnce(line, SEPARATOR)
    case None =>
    case Some((key, value)) =>
      assert line[|key| + 3..] == value by {
        assert line == key + SEPARATOR + value;
      }
  }

  /** The key of a parsed line is the part before its first ` = `. */
  lemma ParseLineKey(line: string, allow_quotes: bool, require_quotes: bool)
    requires ParseLine(line, allow_quotes, require_quotes).Ok?
    ensures SplitOnce(line, SEPARATOR).Some?
    ensures SplitOnce(line, SEPARATOR).value.0 == ParseLine(line, allow_quotes, require_quotes).value.0
  {
  }

  /** The loop of `parse_dmi_line` over the value bytes, returning at the
      first error. */
  method ParseDmiLine(line: string, allow_quotes: bool, require_quotes: bool) returns (r: Result<(string, string)>)
    ensures r == ParseLine(line, allow_quotes, require_quotes)
  {
    var line_split := SplitOnce(line, SEPARATOR);
    if line_split.None? {
      return Err(BlockEntry);
    }
    var (key, value) := line_split.value;
    var value_bytes := Utf8(value);
    var num_chars := |value_bytes|;
    if require_quotes && num_chars < 2 {
      return Err(Panic);
    }
    var quoted, escaped, used_quotes := false, false, false;
    var post_equals: string := [];
    for char_idx := 0 to num_chars
      invariant RunFrom(value_bytes, char_idx, Scan(quoted, escaped, used_quotes, post_equals), allow_quotes)
             == RunFrom(value_bytes, 0, START, allow_quotes)
    {
      var c := value_bytes[char_idx];
      var escape_this_char := escaped;
      escaped := false;
      if c == BACKSLASH {
        if !quoted {
          return Err(Generic);
        }
        if !escape_this_char {
          escaped := true;
          continue;
        }
      } else if c == QUOTE {
        if !allow_quotes {
          return Err(Generic);
        }
        if !escape_this_char {
          if quoted && char_idx + 1 != num_chars {
            return Err(BlockEntry);
          } else if !quoted && post_equals != [] {
            return Err(BlockEntry);
          }
          quoted := !quoted;
          used_quotes := true;
          continue;
        }
      } else if c == TAB || c == EQUALS || c == SPACE {
        if !quoted {
          return Err(BlockEntry);
        }
      }
      post_equals := post_equals + [c as char];
    }
    if allow_quotes && require_quotes && !used_quotes {
      return Err(Generic);
    }
    return Ok((key, post_equals));
  }

  // ---- values outside quotes ----

  /** The bytes a value may hold only between quotes. */
  predicate NeedsQuotes(b: byte)
  {
    b == BACKSLASH || b == QUOTE || b == TAB || b == EQUALS || b == SPACE
  }

  /** The error a value outside quotes meets at such a byte. */
  function UnquotedError(b: byte, allow_quotes: bool): DmiError
  {
    if b == BACKSLASH then Generic
    else if b == QUOTE then (if allow_quotes then BlockEntry else Generic)
    else BlockEntry
  }

  /** The first byte at or after `k` that needs quotes. */
  function FirstNeedingQuotes(v: seq<byte>, k: nat): (r: Option<nat>)
    requires k <= |v|
    decreases |v| - k
    ensures r.Some? ==> k <= r.value < |v| && NeedsQuotes(v[r.value])
    ensures r.Some? ==> forall j :: k <= j < r.value ==> !NeedsQuotes(v[j])
    ensures r.None? <==> forall j :: k <= j < |v| ==> !NeedsQuotes(v[j])
  {
    if k == |v| then None
    else if NeedsQuotes(v[k]) then Some(k)
    else FirstNeedingQuotes(v, k + 1)
  }

  lemma {:induction false} RunUnquoted(v: seq<byte>, k: nat, allow_quotes: bool)
    requires k <= |v|
    requires allow_quotes && k == 0 && |v| > 0 ==> v[0] != QUOTE
    decreases |v| - k
    ensures RunFrom(v, k, Scan(false, false, false, Latin1(v[..k])), allow_quotes)
         == match FirstNeedingQuotes(v, k)
            case None => Ok(Scan(false, false, false, Latin1(v)))
            case Some(i) => Err(UnquotedError(v[i], allow_quotes))
  {
    var s := Scan(false, false, false, Latin1(v[..k]));
    if k == |v| {
      assert v[..k] == v;
    } else if !NeedsQuotes(v[k]) {
      assert Step(s, v[k], k, |v|, allow_quotes) == Ok(Push(s, v[k]));
      assert Latin1(v[..k]) + [v[k] as char] == Latin1(v[..k + 1]);
      RunUnquoted(v, k + 1, allow_quotes);
    } else if v[k] == QUOTE && allow_quotes {
      assert Latin1(v[..k]) != [];
    }
  }

  /** A value that does not open with a quote (or any value when quotes are
      not allowed) is taken byte for byte, and refused at the first byte that
      would need quotes: a backslash, or a quote while quotes are not allowed,
      with `Generic`; a space, tab or `=`, or a quote after the first byte,
      with `BlockEntry`. When quotes are required, a value without them is
      refused with `Generic`. */
  lemma ParseUnquoted(line: string, key: string, value: string, allow_quotes: bool, require_quotes: bool)
    requires IsSplit(line, key, value)
    requires !(require_quotes && |Utf8(value)| < 2)
    requires allow_quotes && |Utf8(value)| > 0 ==> Utf8(value)[0] != QUOTE
    ensures ParseLine(line, allow_quotes, require_quotes)
         == match FirstNeedingQuotes(Utf8(value), 0)
            case Some(i) => Err(UnquotedError(Utf8(value)[i], allow_quotes))
            case None =>
              if allow_quotes && require_quotes then Err(Generic)
              else Ok((key, Latin1(Utf8(value))))
  {
    SplitAt(line, key, value);
    assert Utf8(value)[..0] == [];
    RunUnquoted(Utf8(value), 0, allow_quotes);
  }

  /** An ASCII value free of the bytes that need quotes reads back as itself. */
  lemma ParsePlain(key: string, value: string)
    requires forall i :: 0 <= i < |key| ==> key[i] != ' '
    requires IsAscii(value)
    requires forall i :: 0 <= i < |value| ==> !NeedsQuotes(value[i] as int)
    ensures ParseLine(key + SEPARATOR + value, false, false) == Ok((key, value))
  {
    SplitAfterKey(key, value);
    Utf8OfAscii(value);
    ParseUnquoted(key + SEPARATOR + value, key, value, false, false);
    assert Latin1(Utf8(value)) == value;
  }

  // ---- values inside quotes ----

  /** What follows an opening quote: a backslash takes the next byte as it
      stands; an unescaped quote closes the value and must be its last byte.
      A value that ends inside the quotes, or right after a backslash, is
      accepted with what was read. */
  function Unescape(w: seq<byte>): (r: Result<string>)
    decreases |w|
    ensures r.Err? ==> r.error == BlockEntry
  {
    if w == [] then Ok([])
    else if w[0] == BACKSLASH then
      if |w| == 1 then Ok([])
      else match Unescape(w[2..])
        case Err(e) => Err(e)
        case Ok(u) => Ok([w[1] as char] + u)
    else if w[0] == QUOTE then
      if |w| == 1 then Ok([]) else Err(BlockEntry)
    else match Unescape(w[1..])
      case Err(e) => Err(e)
      case Ok(u) => Ok([w[0] as char] + u)
  }

  lemma {:induction false} RunQuoted(v: seq<byte>, k: nat, p: string)
    requires 1 <= k <= |v|
    decreases |v| - k
    ensures var r := RunFrom(v, k, Scan(true, false, true, p), true);
      match Unescape(v[k..])
      case Ok(u) => r.Ok? && r.value.used_quotes && r.value.post_equals == p + u
      case Err(e) => r == Err(e)
  {
    var s := Scan(true, false, true, p);
    var w := v[k..];
    if k == |v| {
      assert p + [] == p;
    } else if v[k] == BACKSLASH {
      var s1 := Scan(true, true, true, p);
      assert Step(s, v[k], k, |v|, true) == Ok(s1);
      if k + 1 == |v| {
        assert p + [] == p;
      } else {
        var s2 := Push(Scan(true, false, true, p), v[k + 1]);
        assert Step(s1, v[k + 1], k + 1, |v|, true) == Ok(s2);
        assert w[2..] == v[k + 2..];
        RunQuoted(v, k + 2, p + [v[k + 1] as char]);
        match Unescape(w[2..]) {
          case Ok(u) => assert p + [v[k + 1] as char] + u == p + ([w[1] as char] + u);
          case Err(e) =>
        }
      }
    } else if v[k] == QUOTE {
    } else {
      assert Step(s, v[k], k, |v|, true) == Ok(Push(s, v[k]));
      assert w[1..] == v[k + 1..];
      RunQuoted(v, k + 1, p + [v[k] as char]);
      match Unescape(w[1..]) {
        case Ok(u) => assert p + [v[k] as char] + u == p + ([w[0] as char] + u);
        case Err(e) =>
      }
    }
  }

  /** A value that opens with a quote, where quotes are allowed, reads as
      `Unescape` of the rest. */
  lemma ParseQuoted(line: string, key: string, value: string, require_quotes: bool)
    requires IsSplit(line, key, value)
    requires !(require_quotes && |Utf8(value)| < 2)
    requires |Utf8(value)| > 0 && Utf8(value)[0] == QUOTE
    ensures ParseLine(line, true, require_quotes)
         == match Unescape(Utf8(value)[1..])
            case Ok(u) => Ok((key, u))
            case Err(e) => Err(e)
  {
    SplitAt(line, key, value);
    var v := Utf8(value);
    assert Step(START, v[0], 0, |v|, true) == Ok(Scan(true, false, true, []));
    RunQuoted(v, 1, []);
    match Unescape(v[1..]) {
      case Ok(u) => assert [] + u == u;
      case Err(e) =>
    }
  }

  // ---- escaping names ----

  /** `str::replace` of a one-character pattern. */
  function ReplaceChar(s: string, c: char, with: string): (r: string)
    ensures c !in s ==> r == s
    ensures |with| >= 1 ==> |s| <= |r|
    ensures forall x :: x in r ==> x in s || x in with
  {
    if s == [] then [] else (if s[0] == c then with else [s[0]]) + ReplaceChar(s[1..], c, with)
  }

  lemma {:induction false} ReplaceCharAppend(a: string, b: string, c: char, with: string)
    ensures ReplaceChar(a + b, c, with) == ReplaceChar(a, c, with) + ReplaceChar(b, c, with)
  {
    if a == [] {
      assert a + b == b;
    } else {
      assert (a + b)[1..] == a[1..] + b;
      ReplaceCharAppend(a[1..], b, c, with);
    }
  }

  /** The escaping `Icon::save` gives a state name: backslashes doubled, then
      quotes preceded by a backslash (src/icon.rs:484). */
  function Escape(name: string): (r: string)
    ensures |name| <= |r|
    ensures forall x :: x in r ==> x in name || x == '\\' || x == '"'
    ensures '\\' !in name && '"' !in name ==> r == name
  {
    ReplaceChar(ReplaceChar(name, '\\', "\\\\"), '"', "\\\"")
  }

  function EscapeChar(c: char): string
  {
    if c == '\\' then "\\\\" else if c == '"' then "\\\"" else [c]
  }

  /** The two replacements act character by character. */
  lemma EscapeCons(c: char, rest: string)
    ensures Escape([c] + rest) == EscapeChar(c) + Escape(rest)
  {
    assert ([c] + rest)[1..] == rest;
    var once := ReplaceChar([c] + rest, '\\', "\\\\");
    var head := if c == '\\' then "\\\\" else [c];
    assert once == head + ReplaceChar(rest, '\\', "\\\\");
    ReplaceCharAppend(head, ReplaceChar(rest, '\\', "\\\\"), '"', "\\\"");
    if c == '\\' {
      assert ReplaceChar(head, '"', "\\\"") == "\\\\" by {
        assert head[1..] == "\\";
        assert head[1..][1..] == [];
      }
    } else {
      assert head[1..] == [];
    }
  }

  /** One escaped ASCII character, ahead of bytes that are not empty, is
      read back as itself. */
  lemma UnescapeOne(c: char, wt: seq<byte>, u: string)
    requires c as int < 0x80 && |wt| > 0 && Unescape(wt) == Ok(u)
    ensures Unescape(Utf8(EscapeChar(c)) + wt) == Ok([c] + u)
  {
    var x := EscapeChar(c);
    var w := Utf8(x) + wt;
    if c == '\\' || c == '"' {
      assert x[1..][1..] == [];
      assert Utf8(x) == [BACKSLASH, x[1] as int];
      assert w[2..] == wt;
      assert w[1] as char == c;
    } else {
      assert x[1..] == [];
      assert Utf8(x) == [c as int];
      assert w[1..] == wt;
    }
  }

  /** The closing quote alone unescapes to nothing. */
  lemma UnescapeClosingQuote()
    ensures Unescape(Utf8("\"")) == Ok([])
  {
    assert Utf8("\"") == [QUOTE] by {
      assert "\""[1..] == [];
    }
  }

  lemma {:induction false} UnescapeEscape(name: string)
    requires IsAscii(name)
    ensures Unescape(Utf8(Escape(name) + "\"")) == Ok(name)
  {
    if name == [] {
      assert Escape(name) + "\"" == "\"";
      UnescapeClosingQuote();
    } else {
      var c := name[0];
      var rest := name[1..];
      assert name == [c] + rest;
      EscapeCons(c, rest);
      var t := Escape(rest) + "\"";
      assert Escape(name) + "\"" == EscapeChar(c) + t;
      Utf8Append(EscapeChar(c), t);
      assert IsAscii(rest);
      UnescapeEscape(rest);
      UnescapeOne(c, Utf8(t), rest);
    }
  }

  /** A state name saved with escapes (`key = "escaped name"`) reads back as
      the name, provided the name is ASCII (each byte is read as one
      character) and the key has no space. */
  lemma ParseEscapedName(key: string, name: string)
    requires forall i :: 0 <= i < |key| ==> key[i] != ' '
    requires IsAscii(name)
    ensures ParseLine(key + SEPARATOR + ("\"" + Escape(name) + "\""), true, true) == Ok((key, name))
  {
    var value := "\"" + Escape(name) + "\"";
    SplitAfterKey(key, value);
    assert value == "\"" + (Escape(name) + "\"");
    Utf8Append("\"", Escape(name) + "\"");
    assert Utf8("\"") == [QUOTE] by {
      assert "\""[1..] == [];
    }
    var v := Utf8(value);
    assert v[1..] == Utf8(Escape(name) + "\"");
    UnescapeEscape(name);
    assert |v| >= 2 by {
      assert |Utf8(Escape(name) + "\"")| > 0;
    }
    ParseQuoted(key + SEPARATOR + value, key, value, true);
  }
}
