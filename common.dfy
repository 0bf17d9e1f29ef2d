/** Shared vocabulary of the codec: bytes, fixed-width integers, the error kinds
    of src/error.rs, a Result type, big-endian u32 fields and a byte sink that
    stands for the `Write` implementors the save routines are given. */
module Common {

  type byte = b: int | 0 <= b < 0x100
  type u8 = byte
  type u32 = n: int | 0 <= n < 0x1_0000_0000

  /** A four-byte field of a PNG chunk (`[u8; 4]`). */
  type Quad = s: seq<byte> | |s| == 4 witness [0, 0, 0, 0]

  /** The kinds of `DmiError`. Messages are not modelled; `Panic` stands for a
      Rust panic (slice out of range, integer underflow), which the source does
      not return but which ends the call all the same. */
  datatype DmiError =
    | Io
    | Generic
    | BlockEntry
    | IconState
    | ParseInt
    | ParseFloat
    | FromUtf8
    | Panic

  datatype Option<+T> = None | Some(value: T)

  datatype Result<+T> = Ok(value: T) | Err(error: DmiError) {
    predicate IsFailure() { Err? }

    function PropagateFailure<U>(): Result<U>
      requires Err?
    {
      Err(error)
    }

    function Extract(): T
      requires Ok?
    {
      value
    }
  }

  /** Which version of a routine with a known defect a member follows: the
      code as written, or the corrected one. */
  datatype Variant = AsWritten | Corrected

  function Min(a: nat, b: nat): nat { if a <= b then a else b }

  /** A prefix of `a + b` that reaches into `b`. */
  lemma PrefixOfAppend<T>(a: seq<T>, b: seq<T>, k: nat)
    requires k <= |b|
    ensures (a + b)[..|a| + k] == a + b[..k]
  {
  }

  /** A slice of a slice is a slice of the whole. */
  lemma SliceOfSlice<T>(s: seq<T>, i: nat, j: nat, k: nat, l: nat)
    requires i <= j <= |s| && k <= l <= j - i
    ensures s[i..j][k..l] == s[i + k..i + l]
  {
    forall t | 0 <= t < l - k ensures s[i..j][k..l][t] == s[i + k..i + l][t] {
      assert s[i..j][k..l][t] == s[i..j][k + t] == s[i + k + t];
    }
  }

  /** `u32::from_be_bytes`. */
  function Be32(q: seq<byte>): (n: u32)
    requires |q| == 4
    ensures n < 0x100_0000 <==> q[0] == 0
  {
    (q[0] as int) * 0x100_0000 + (q[1] as int) * 0x1_0000 + (q[2] as int) * 0x100 + (q[3] as int)
  }

  /** `u32::to_be_bytes`. */
  function ToBe32(n: u32): (q: Quad)
    ensures Be32(q) == n
  {
    var r0 := n % 0x100_0000;
    var r1 := r0 % 0x1_0000;
    assert n == (n / 0x100_0000) * 0x100_0000 + r0;
    assert r0 == (r0 / 0x1_0000) * 0x1_0000 + r1;
    assert r1 == (r1 / 0x100) * 0x100 + r1 % 0x100;
    [n / 0x100_0000, r0 / 0x1_0000, r1 / 0x100, r1 % 0x100]
  }

  lemma ToBe32OfBe32(q: Quad)
    ensures ToBe32(Be32(q)) == q
  {
    var n := Be32(q);
    var r1 := (q[2] as int) * 0x100 + (q[3] as int);
    var r0 := (q[1] as int) * 0x1_0000 + r1;
    assert n == (q[0] as int) * 0x100_0000 + r0 && 0 <= r0 < 0x100_0000;
    assert n / 0x100_0000 == q[0] && n % 0x100_0000 == r0;
    assert r0 / 0x1_0000 == q[1] && r0 % 0x1_0000 == r1;
    assert r1 / 0x100 == q[2] && r1 % 0x100 == q[3];
  }

  /** A byte sink of limited room, the model of a `W: Write` argument. Each
      `Write` stores as much of its argument as fits and reports how much that
      was, as `Write::write` on a `&mut [u8]` does; a `Vec<u8>` is a sink whose
      room is never exhausted. */
  class Writer {
    var out: seq<byte>
    var room: nat

    constructor (room: nat)
      ensures out == [] && this.room == room
    {
      out := [];
      this.room := room;
    }

    method Write(data: seq<byte>) returns (k: nat)
      modifies this
      ensures k <= |data| && k <= old(room) && (k < |data| ==> k == old(room))
      ensures out == old(out) + data[..k] && room == old(room) - k
    {
      k := Min(|data|, room);
      out := out + data[..k];
      room := room - k;
    }
  }

  /** The part of `b` a sink with `room` bytes of room receives. */
  function Emitted(b: seq<byte>, room: nat): seq<byte>
  {
    b[..Min(|b|, room)]
  }

  /** One write of `data` ahead of `rest`: what the sink holds afterwards,
      followed by what it will still receive of `rest`, is what it would
      receive of `data + rest` from the start. A short write leaves no room. */
  lemma WriteStep(out: seq<byte>, room: nat, data: seq<byte>, rest: seq<byte>, k: nat)
    requires k <= |data| && k <= room && (k < |data| ==> k == room)
    ensures out + data[..k] + Emitted(rest, room - k) == out + Emitted(data + rest, room)
    ensures k < |data| ==> room - k == 0
  {
    if k == |data| {
      assert (data + rest)[..k + Min(|rest|, room - k)] == data[..k] + rest[..Min(|rest|, room - k)];
    } else {
      assert (data + rest)[..room] == data[..k];
    }
  }

  /** A sink that went from (`out0`, `room0`) to (`out`, `room`) while a save
      of `b` ran: its room shrank by what it received, it received a prefix of
      what writing all of `b` would give it, and all of that when `ok` holds
      (every check the save makes passed). */
  ghost predicate Wrote(out0: seq<byte>, room0: nat, out: seq<byte>, room: nat, b: seq<byte>, ok: bool)
  {
    && room + |out| == room0 + |out0|
    && out <= out0 + Emitted(b, room0)
    && (ok ==> out == out0 + Emitted(b, room0))
  }

  /** A save in progress: where the sink stood when it began, the bytes it
      writes when nothing stops it, and whether all of its checks pass. */
  datatype SaveRun = SaveRun(out0: seq<byte>, room0: nat, whole: seq<byte>, ok: bool)

  /** The save `run` has written everything before its suffix `rest` in full,
      and whether its checks pass comes down to `okRest`, the checks for
      `rest`. */
  ghost predicate Pending(run: SaveRun, out: seq<byte>, room: nat, rest: seq<byte>, okRest: bool)
  {
    && out + Emitted(rest, room) == run.out0 + Emitted(run.whole, run.room0)
    && room + |out| == run.room0 + |run.out0|
    && |out| + |rest| == |run.out0| + |run.whole|
    && run.ok == okRest
  }

  /** The save `run` stopped early: the sink holds a prefix of what the whole
      save would give it, all of it if every check passes, and the save
      cannot succeed. */
  ghost predicate Stopped(run: SaveRun, out: seq<byte>, room: nat)
  {
    Wrote(run.out0, run.room0, out, room, run.whole, run.ok) && !(run.ok && |run.whole| <= run.room0)
  }

  /** A save starts out pending with all of its bytes to write. */
  lemma Start(out0: seq<byte>, room0: nat, whole: seq<byte>, ok: bool)
    ensures Pending(SaveRun(out0, room0, whole, ok), out0, room0, whole, ok)
  {
  }

  /** The next part `x` of a pending save, written in full with its check
      passed: the save goes on with the rest. */
  lemma Continue(run: SaveRun, out1: seq<byte>, room1: nat, out2: seq<byte>, room2: nat,
                 x: seq<byte>, rest: seq<byte>, okX: bool, okRest: bool)
    requires Pending(run, out1, room1, x + rest, okX && okRest)
    requires Wrote(out1, room1, out2, room2, x, okX) && okX && |x| <= room1
    ensures Pending(run, out2, room2, rest, okRest)
  {
    assert x[..|x|] == x;
    WriteStep(out1, room1, x, rest, |x|);
  }

  /** The next part `x` of a pending save, cut short or failing its check:
      the save has stopped. */
  lemma Stop(run: SaveRun, out1: seq<byte>, room1: nat, out2: seq<byte>, room2: nat,
             x: seq<byte>, rest: seq<byte>, okX: bool, okRest: bool)
    requires Pending(run, out1, room1, x + rest, okX && okRest)
    requires Wrote(out1, room1, out2, room2, x, okX) && !(okX && |x| <= room1)
    ensures Stopped(run, out2, room2)
  {
    var m := Min(|x|, room1);
    WriteStep(out1, room1, x, rest, m);
    assert out1 + Emitted(x, room1) <= run.out0 + Emitted(run.whole, run.room0);
  }

  /** A pending save with nothing left to write has written all of its
      bytes, and every check passed. */
  lemma Finished(run: SaveRun, out: seq<byte>, room: nat)
    requires Pending(run, out, room, [], true)
    ensures run.ok && |run.whole| <= run.room0 && out == run.out0 + run.whole
    ensures Wrote(run.out0, run.room0, out, room, run.whole, run.ok)
  {
    assert run.whole[..|run.whole|] == run.whole;
  }
}
