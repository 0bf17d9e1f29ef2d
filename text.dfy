/** The standard-library string operations the metadata codec relies on:
    `str::split_once`, `str::split`, `str::split_terminator`, `str::lines`,
    `str::contains`, `str::parse::<u8>/<u32>/<f32>` (the last as a grammar
    only), `{}` formatting of unsigned integers, and the UTF-8 encoding of a
    `String` (`String::as_bytes`). */
module Text {
  import opened Common

  predicate OccursAt(s: string, sep: string, i: nat)
  {
    i + |sep| <= |s| && s[i..i + |sep|] == sep
  }

  /** The first position at or after `from` where `sep` occurs in `s`. */
  function FindFrom(s: string, sep: string, from: nat): (r: Option<nat>)
    decreases |s| - from
    ensures r.Some? ==> from <= r.value && OccursAt(s, sep, r.value)
  {
    if from + |sep| > |s| then None
    else if OccursAt(s, sep, from) then Some(from)
    else FindFrom(s, sep, from + 1)
  }

  /** No occurrence lies between `from` and the one found, and none at all
      after `from` when nothing is found. */
  lemma {:induction false} FindFromFirst(s: string, sep: string, from: nat)
    decreases |s| - from
    ensures var r := FindFrom(s, sep, from);
      forall j :: from <= j && (r.None? || j < r.value) ==> !OccursAt(s, sep, j)
  {
    if from + |sep| <= |s| && !OccursAt(s, sep, from) {
      FindFromFirst(s, sep, from + 1);
    }
  }

  predicate Contains(s: string, sub: string)
  {
    FindFrom(s, sub, 0).Some?
  }

  predicate StartsWith(s: string, prefix: string)
  {
    |prefix| <= |s| && s[..|prefix|] == prefix
  }

  /** A witness occurrence pins down the first one. */
  lemma FindFromAt(s: string, sep: string, from: nat, k: nat)
    requires from <= k && OccursAt(s, sep, k)
    requires forall j :: from <= j < k ==> !OccursAt(s, sep, j)
    ensures FindFrom(s, sep, from) == Some(k)
  {
    FindFromFirst(s, sep, from);
  }

  /** `str::split_once`: the text before and after the first occurrence of `sep`. */
  function SplitOnce(s: string, sep: string): (r: Option<(string, string)>)
    ensures r.Some? ==> s == r.value.0 + sep + r.value.1
  {
    match FindFrom(s, sep, 0)
    case None => None
    case Some(i) =>
      assert s == s[..i] + sep + s[i + |sep|..];
      Some((s[..i], s[i + |sep|..]))
  }

  /** `split_once` splits at the first occurrence, and finds none only when
      there is none. */
  lemma SplitOnceFirst(s: string, sep: string)
    ensures var r := SplitOnce(s, sep);
      r.Some? ==> forall j :: 0 <= j < |r.value.0| ==> !OccursAt(s, sep, j)
    ensures SplitOnce(s, sep).None? <==> forall j :: 0 <= j ==> !OccursAt(s, sep, j)
  {
    FindFromFirst(s, sep, 0);
  }

  /** `str::split` with a non-empty string pattern: the pieces between the
      successive non-overlapping occurrences of `sep`, searched left to right. */
  function Split(s: string, sep: string): (r: seq<string>)
    requires |sep| > 0
    decreases |s|
    ensures |r| >= 1
  {
    match FindFrom(s, sep, 0)
    case None => [s]
    case Some(i) => [s[..i]] + Split(s[i + |sep|..], sep)
  }

  /** `str::split_terminator`: `split`, without a trailing empty piece. */
  function SplitTerminator(s: string, sep: string): (r: seq<string>)
    requires |sep| > 0
    ensures r <= Split(s, sep) && |Split(s, sep)| - 1 <= |r|
    ensures |r| < |Split(s, sep)| ==> Split(s, sep)[|r|] == ""
    ensures s == "" ==> r == []
  {
    var pieces := Split(s, sep);
    if pieces[|pieces| - 1] == "" then pieces[..|pieces| - 1] else pieces
  }

  /** `str::lines`: lines end at `\n`; a `\r` just before that `\n` is dropped;
      the final line needs no terminator and an empty final piece is no line. */
  function Lines(t: string): (r: seq<string>)
    decreases |t|
    ensures |r| <= |t|
    ensures forall k :: 0 <= k < |r| ==> '\n' !in r[k]
  {
    if t == [] then []
    else match FindFrom(t, "\n", 0)
      case None => NoBreakBefore(t, |t|); [t]
      case Some(i) => NoBreakBefore(t, i); [StripCr(t[..i])] + Lines(t[i + 1..])
  }

  /** No line break lies before the first one `FindFrom` finds, nor
      anywhere when it finds none. */
  lemma NoBreakBefore(t: string, i: nat)
    requires i <= |t|
    requires FindFrom(t, "\n", 0) == Some(i) || (FindFrom(t, "\n", 0).None? && i == |t|)
    ensures '\n' !in t[..i] && '\n' !in StripCr(t[..i])
  {
    FindFromFirst(t, "\n", 0);
    forall j | 0 <= j < i ensures t[j] != '\n' {
      assert !OccursAt(t, "\n", j);
      assert t[j..j + 1] == [t[j]];
    }
  }

  function StripCr(l: string): string
  {
    if |l| > 0 && l[|l| - 1] == '\r' then l[..|l| - 1] else l
  }

  /** The text `l0 \n l1 \n ... \n`, as a writer that ends every line with `\n` produces it. */
  function JoinLines(ls: seq<string>): string
  {
    if ls == [] then "" else ls[0] + "\n" + JoinLines(ls[1..])
  }

  /** Writing one more line. */
  lemma {:induction false} JoinLinesSnoc(ls: seq<string>, l: string)
    ensures JoinLines(ls + [l]) == JoinLines(ls) + l + "\n"
  {
    if ls != [] {
      assert (ls + [l])[1..] == ls[1..] + [l];
      JoinLinesSnoc(ls[1..], l);
    }
  }

  lemma {:induction false} JoinLinesAppend(a: seq<string>, b: seq<string>)
    ensures JoinLines(a + b) == JoinLines(a) + JoinLines(b)
  {
    if a == [] {
      assert a + b == b;
    } else {
      assert (a + b)[1..] == a[1..] + b;
      JoinLinesAppend(a[1..], b);
    }
  }

  predicate IsPlainLine(l: string)
  {
    '\n' !in l && (|l| > 0 ==> l[|l| - 1] != '\r')
  }

  lemma {:induction false} LinesOfJoinLines(ls: seq<string>)
    requires forall i :: 0 <= i < |ls| ==> IsPlainLine(ls[i])
    ensures Lines(JoinLines(ls)) == ls
  {
    if ls != [] {
      var t := JoinLines(ls);
      var k := |ls[0]|;
      assert t == ls[0] + "\n" + JoinLines(ls[1..]);
      assert OccursAt(t, "\n", k) by { assert t[k..k + 1] == "\n"; }
      forall j | 0 <= j < k ensures !OccursAt(t, "\n", j) {
        assert t[j] == ls[0][j];
      }
      FindFromAt(t, "\n", 0, k);
      assert t[..k] == ls[0];
      assert t[k + 1..] == JoinLines(ls[1..]);
      LinesOfJoinLines(ls[1..]);
    }
  }

  // ---- integers ----

  predicate IsDigit(c: char) { '0' <= c <= '9' }

  predicate AllDigits(d: string)
  {
    forall i :: 0 <= i < |d| ==> IsDigit(d[i])
  }

  function DigitsValue(d: string): nat
    requires AllDigits(d)
  {
    if d == [] then 0 else DigitsValue(d[..|d| - 1]) * 10 + (d[|d| - 1] as int - '0' as int)
  }

  /** The digits of an unsigned number: the text after one optional `+`. */
  function Unsigned(s: string): string
  {
    if |s| > 0 && s[0] == '+' then s[1..] else s
  }

  /** `str::parse` into an unsigned integer type whose values are below `limit`:
      an optional `+`, then at least one decimal digit, and no overflow. */
  function ParseUnsigned(s: string, limit: nat): (r: Result<nat>)
    ensures r.Ok? ==> r.value < limit
    ensures r.Err? ==> r.error == ParseInt
  {
    var d := Unsigned(s);
    if d == [] || !AllDigits(d) then Err(ParseInt)
    else if DigitsValue(d) < limit then Ok(DigitsValue(d))
    else Err(ParseInt)
  }

  /** `str::parse::<u32>`: succeeds exactly on a nonempty run of digits
      after an optional `+` whose value fits, and gives that value. */
  function ParseU32(s: string): (r: Result<u32>)
    ensures r.Ok? ==> Unsigned(s) != [] && AllDigits(Unsigned(s))
    ensures r.Err? ==> r.error == ParseInt
  {
    match ParseUnsigned(s, 0x1_0000_0000)
    case Ok(v) => Ok(v)
    case Err(e) => Err(e)
  }

  /** `str::parse::<u8>`, the same with values below 256. */
  function ParseU8(s: string): (r: Result<u8>)
    ensures r.Ok? ==> Unsigned(s) != [] && AllDigits(Unsigned(s))
    ensures r.Err? ==> r.error == ParseInt
  {
    match ParseUnsigned(s, 0x100)
    case Ok(v) => Ok(v)
    case Err(e) => Err(e)
  }

  /** `str::parse::<u32>` accepts exactly a nonempty run of digits after an
      optional `+` whose value fits, and gives that value. */
  lemma ParseU32Digits(s: string)
    ensures ParseU32(s).Ok? <==> Unsigned(s) != [] && AllDigits(Unsigned(s)) && DigitsValue(Unsigned(s)) < 0x1_0000_0000
    ensures ParseU32(s).Ok? ==> ParseU32(s).value == DigitsValue(Unsigned(s))
  {
  }

  /** The same for `str::parse::<u8>`, with values below 256. */
  lemma ParseU8Digits(s: string)
    ensures ParseU8(s).Ok? <==> Unsigned(s) != [] && AllDigits(Unsigned(s)) && DigitsValue(Unsigned(s)) < 0x100
    ensures ParseU8(s).Ok? ==> ParseU8(s).value == DigitsValue(Unsigned(s))
  {
  }

  function DigitChar(d: nat): char
    requires d < 10
  {
    ('0' as int + d) as char
  }

  /** `{}` formatting of an unsigned integer. */
  function Decimal(n: nat): (r: string)
    ensures |r| > 0 && AllDigits(r)
  {
    if n < 10 then [DigitChar(n)] else Decimal(n / 10) + [DigitChar(n % 10)]
  }

  lemma {:induction false} DecimalValue(n: nat)
    ensures DigitsValue(Decimal(n)) == n
  {
    if n >= 10 {
      DecimalValue(n / 10);
      var d := Decimal(n);
      assert d[..|d| - 1] == Decimal(n / 10);
    }
  }

  /** Formatting then parsing an integer gives it back. */
  lemma ParseDecimal(n: nat, limit: nat)
    requires n < limit
    ensures ParseUnsigned(Decimal(n), limit) == Ok(n)
  {
    DecimalValue(n);
  }

  lemma ParseU32Decimal(n: u32)
    ensures ParseU32(Decimal(n)) == Ok(n)
  {
    ParseDecimal(n, 0x1_0000_0000);
  }

  lemma ParseU8Decimal(n: u8)
    ensures ParseU8(Decimal(n)) == Ok(n)
  {
    ParseDecimal(n, 0x100);
  }

  // ---- f32 literals ----

  /** `slice::join`: the parts with `sep` between each two. */
  function Join(parts: seq<string>, sep: string): (r: string)
    ensures parts != [] ==> StartsWith(r, parts[0])
  {
    if parts == [] then "" else if |parts| == 1 then parts[0] else parts[0] + sep + Join(parts[1..], sep)
  }

  /** Nothing is found where the separator does not occur. */
  lemma {:induction false} FindFromNone(s: string, sep: string, from: nat)
    requires forall j :: from <= j ==> !OccursAt(s, sep, j)
    decreases |s| - from
    ensures FindFrom(s, sep, from) == None
  {
    if from + |sep| <= |s| {
      FindFromNone(s, sep, from + 1);
    }
  }

  /** A string without the separator is a single piece. */
  lemma SplitWhole(s: string, c: char)
    requires c !in s
    ensures Split(s, [c]) == [s]
  {
    forall j | 0 <= j ensures !OccursAt(s, [c], j) {
      if j + 1 <= |s| {
        assert s[j..j + 1] == [s[j]];
      }
    }
    FindFromNone(s, [c], 0);
  }

  /** Splitting at a one-character separator undoes joining with it, when
      no part contains that character. */
  lemma {:induction false} SplitJoin(parts: seq<string>, c: char)
    requires |parts| > 0
    requires forall i :: 0 <= i < |parts| ==> c !in parts[i]
    ensures Split(Join(parts, [c]), [c]) == parts
  {
    var p := parts[0];
    if |parts| == 1 {
      SplitWhole(p, c);
    } else {
      var s := Join(parts, [c]);
      var rest := Join(parts[1..], [c]);
      assert s == p + [c] + rest;
      assert OccursAt(s, [c], |p|) by {
        assert s[|p|..|p| + 1] == [c];
      }
      forall j | 0 <= j < |p| ensures !OccursAt(s, [c], j) {
        assert s[j] == p[j];
      }
      FindFromAt(s, [c], 0, |p|);
      assert s[..|p|] == p;
      assert s[|p| + 1..] == rest;
      SplitJoin(parts[1..], c);
      assert parts == [p] + parts[1..];
    }
  }

  /** `split_terminator` also undoes `join` when the last part is not
      empty. */
  lemma SplitTerminatorJoin(parts: seq<string>, c: char)
    requires |parts| > 0 && parts[|parts| - 1] != ""
    requires forall i :: 0 <= i < |parts| ==> c !in parts[i]
    ensures SplitTerminator(Join(parts, [c]), [c]) == parts
  {
    SplitJoin(parts, c);
  }

  function LowerAscii(s: string): (r: string)
    ensures |r| == |s|
  {
    if s == [] then []
    else [if 'A' <= s[0] <= 'Z' then (s[0] as int + 32) as char else s[0]] + LowerAscii(s[1..])
  }

  /** The grammar `str::parse::<f32>` accepts: an optional sign, then `inf`,
      `infinity` or `nan` in any letter case, or a decimal number with an
      optional fraction and an optional exponent. */
  predicate IsF32Literal(s: string)
    ensures IsF32Literal(s) ==> s != []
  {
    var body := if |s| > 0 && (s[0] == '+' || s[0] == '-') then s[1..] else s;
    var lower := LowerAscii(body);
    lower == "inf" || lower == "infinity" || lower == "nan" || IsDecimalNumber(lower)
  }

  /** A nonempty run of digits is an `f32` literal: a mantissa without a
      fraction or an exponent. */
  lemma DigitsAreLiteral(s: string)
    requires s != [] && AllDigits(s)
    ensures IsF32Literal(s)
  {
    DigitsLower(s);
    forall j | 0 <= j ensures !OccursAt(s, "e", j) && !OccursAt(s, ".", j) {
      if j + 1 <= |s| {
        assert s[j..j + 1] == [s[j]];
        assert IsDigit(s[j]);
      }
    }
    FindFromNone(s, "e", 0);
    FindFromNone(s, ".", 0);
  }

  lemma {:induction false} DigitsLower(s: string)
    requires AllDigits(s)
    ensures LowerAscii(s) == s
  {
    if s != [] {
      assert IsDigit(s[0]);
      DigitsLower(s[1..]);
    }
  }

  predicate IsDecimalNumber(b: string)
  {
    match FindFrom(b, "e", 0)
    case None => IsMantissa(b)
    case Some(i) => IsMantissa(b[..i]) && IsExponent(b[i + 1..])
  }

  predicate IsMantissa(m: string)
  {
    match FindFrom(m, ".", 0)
    case None => m != [] && AllDigits(m)
    case Some(i) => AllDigits(m[..i]) && AllDigits(m[i + 1..]) && |m| > 1
  }

  predicate IsExponent(e: string)
  {
    var d := if |e| > 0 && (e[0] == '+' || e[0] == '-') then e[1..] else e;
    d != [] && AllDigits(d)
  }

  // ---- UTF-8 ----

  /** `n` shifted right by six bits, `k` times. */
  function Shr6(n: nat, k: nat): nat
  {
    if k == 0 then n else Shr6(n / 0x40, k - 1)
  }

  lemma Shr6Values(n: nat)
    ensures Shr6(n, 1) == n / 0x40
    ensures Shr6(n, 2) == n / 0x1000
    ensures Shr6(n, 3) == n / 0x4_0000
  {
    var a := n / 0x40;
    var b := a / 0x40;
    assert Shr6(n, 2) == Shr6(a, 1) == b;
    assert Shr6(n, 3) == Shr6(a, 2) == Shr6(b, 1) == b / 0x40;
    assert b == n / 0x1000;
    assert b / 0x40 == n / 0x4_0000;
  }

  /** The `k` continuation bytes (`10xxxxxx`) that carry the low `6 * k`
      bits of `n`, most significant first. */
  function ContBytes(n: nat, k: nat): (r: seq<byte>)
    ensures |r| == k
  {
    if k == 0 then [] else ContBytes(n / 0x40, k - 1) + [0x80 + n % 0x40]
  }

  /** The UTF-8 encoding of one scalar value: a lead byte holding the high
      bits and the length, then continuation bytes. */
  function Utf8Char(c: char): (r: seq<byte>)
    ensures 1 <= |r| <= 4
    ensures (c as int < 0x80) == (|r| == 1)
    ensures |r| == 1 ==> r[0] == c as int
  {
    var n := c as int;
    Shr6Values(n);
    if n < 0x80 then [n]
    else if n < 0x800 then [0xC0 + Shr6(n, 1)] + ContBytes(n, 1)
    else if n < 0x1_0000 then [0xE0 + Shr6(n, 2)] + ContBytes(n, 2)
    else [0xF0 + Shr6(n, 3)] + ContBytes(n, 3)
  }

  /** `String::as_bytes`. */
  function Utf8(s: string): (r: seq<byte>)
    ensures |s| <= |r| <= 4 * |s|
    ensures IsAscii(s) ==> |r| == |s|
  {
    if s == [] then [] else Utf8Char(s[0]) + Utf8(s[1..])
  }

  predicate IsAscii(s: string)
  {
    forall i :: 0 <= i < |s| ==> s[i] as int < 0x80
  }

  /** The bytes of an ASCII string are its characters. */
  lemma {:induction false} Utf8OfAscii(s: string)
    requires IsAscii(s)
    ensures |Utf8(s)| == |s|
    ensures forall i :: 0 <= i < |s| ==> Utf8(s)[i] == s[i] as int
  {
    if s != [] {
      Utf8OfAscii(s[1..]);
      assert Utf8(s) == [s[0] as int] + Utf8(s[1..]);
    }
  }

  lemma {:induction false} Utf8Append(a: string, b: string)
    ensures Utf8(a + b) == Utf8(a) + Utf8(b)
  {
    if a == [] {
      assert a + b == b;
    } else {
      assert (a + b)[1..] == a[1..] + b;
      Utf8Append(a[1..], b);
    }
  }
}
