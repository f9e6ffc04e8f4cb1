/** Fixed-width integers as they sit in the store files (little-endian, two's
    complement), the short-read convention of read(2), and the effect of
    writing a file that was opened without O_TRUNC. */
module Bytes {

  type byte = x: int | 0 <= x < 0x100
  type uint32 = x: int | 0 <= x < 0x1_0000_0000
  type int32 = x: int | -0x8000_0000 <= x < 0x8000_0000
  type int64 = x: int | -0x8000_0000_0000_0000 <= x < 0x8000_0000_0000_0000

  datatype Option<+T> = None | Some(value: T) {
    function GetOr(default: T): T {
      match this
      case Some(v) => v
      case None => default
    }
  }

  /** The four bytes of an unsigned 32-bit word, least significant first. */
  function U32Bytes(u: uint32): (b: seq<byte>)
    ensures |b| == 4
  {
    [u % 0x100, u / 0x100 % 0x100, u / 0x1_0000 % 0x100, u / 0x100_0000]
  }

  function U32Of(b: seq<byte>): uint32
    requires |b| == 4
  {
    b[0] as int + 0x100 * (b[1] as int) + 0x1_0000 * (b[2] as int) + 0x100_0000 * (b[3] as int)
  }

  /** A C `int` as stored by write(fd, &x, 4). */
  function I32Bytes(v: int32): (b: seq<byte>)
    ensures |b| == 4
  {
    U32Bytes(if v < 0 then v + 0x1_0000_0000 else v)
  }

  function I32Of(b: seq<byte>): int32
    requires |b| == 4
  {
    var u := U32Of(b);
    if u < 0x8000_0000 then u else u - 0x1_0000_0000
  }

  /** A C `long long` as stored by write(fd, &x, 8). */
  function I64Bytes(v: int64): (b: seq<byte>)
    ensures |b| == 8
  {
    var u := if v < 0 then v + 0x1_0000_0000_0000_0000 else v;
    U32Bytes(u % 0x1_0000_0000) + U32Bytes(u / 0x1_0000_0000)
  }

  function I64Of(b: seq<byte>): int64
    requires |b| == 8
  {
    var u := U32Of(b[..4]) + 0x1_0000_0000 * U32Of(b[4..]);
    if u < 0x8000_0000_0000_0000 then u else u - 0x1_0000_0000_0000_0000
  }

  lemma {:induction false} U32RoundTrip(u: uint32)
    ensures |U32Bytes(u)| == 4 && U32Of(U32Bytes(u)) == u
  {
    var b := U32Bytes(u);
    var q1, q2 := u / 0x100, u / 0x1_0000;
    assert u == b[0] as int + 0x100 * q1;
    assert q1 / 0x100 == q2;
    assert q1 == b[1] as int + 0x100 * q2;
    assert q2 / 0x100 == b[3];
    assert q2 == b[2] as int + 0x100 * (b[3] as int);
  }

  lemma {:induction false} I32RoundTrip(v: int32)
    ensures |I32Bytes(v)| == 4 && I32Of(I32Bytes(v)) == v
  {
    U32RoundTrip(if v < 0 then v + 0x1_0000_0000 else v);
  }

  lemma {:induction false} I64RoundTrip(v: int64)
    ensures |I64Bytes(v)| == 8 && I64Of(I64Bytes(v)) == v
  {
    var u := if v < 0 then v + 0x1_0000_0000_0000_0000 else v;
    var b := I64Bytes(v);
    U32RoundTrip(u % 0x1_0000_0000);
    U32RoundTrip(u / 0x1_0000_0000);
    assert b[..4] == U32Bytes(u % 0x1_0000_0000);
    assert b[4..] == U32Bytes(u / 0x1_0000_0000);
  }

  /** What one `read(fd, buf, n)` that must return exactly n bytes gives:
      Short when fewer than n bytes remain, otherwise the value and the
      bytes after it. */
  datatype Read<+T> = Short | Got(value: T, rest: seq<byte>)

  function ReadU32(s: seq<byte>): Read<uint32> {
    if |s| < 4 then Short else Got(U32Of(s[..4]), s[4..])
  }

  function ReadI32(s: seq<byte>): Read<int32> {
    if |s| < 4 then Short else Got(I32Of(s[..4]), s[4..])
  }

  function ReadI64(s: seq<byte>): Read<int64> {
    if |s| < 8 then Short else Got(I64Of(s[..8]), s[8..])
  }

  function ReadBytes(s: seq<byte>, n: nat): (r: Read<seq<byte>>)
    ensures r.Got? ==> |r.value| == n
  {
    if |s| < n then Short else Got(s[..n], s[n..])
  }

  lemma {:induction false} ReadU32Bytes(u: uint32, t: seq<byte>)
    ensures ReadU32(U32Bytes(u) + t) == Got(u, t)
  {
    U32RoundTrip(u);
    assert (U32Bytes(u) + t)[..4] == U32Bytes(u);
    assert (U32Bytes(u) + t)[4..] == t;
  }

  lemma {:induction false} ReadI32Bytes(v: int32, t: seq<byte>)
    ensures ReadI32(I32Bytes(v) + t) == Got(v, t)
  {
    I32RoundTrip(v);
    assert (I32Bytes(v) + t)[..4] == I32Bytes(v);
    assert (I32Bytes(v) + t)[4..] == t;
  }

  lemma {:induction false} ReadI64Bytes(v: int64, t: seq<byte>)
    ensures ReadI64(I64Bytes(v) + t) == Got(v, t)
  {
    I64RoundTrip(v);
    assert (I64Bytes(v) + t)[..8] == I64Bytes(v);
    assert (I64Bytes(v) + t)[8..] == t;
  }

  lemma {:induction false} ReadBytesOf(b: seq<byte>, t: seq<byte>)
    ensures ReadBytes(b + t, |b|) == Got(b, t)
  {
    assert (b + t)[..|b|] == b;
    assert (b + t)[|b|..] == t;
  }

  lemma {:induction false} AppendAssoc<T>(a: seq<T>, b: seq<T>, c: seq<T>)
    ensures (a + b) + c == a + (b + c)
  {
  }

  lemma {:induction false} SplitAppend<T>(a: seq<T>, b: seq<T>)
    ensures (a + b)[..|a|] == a && (a + b)[|a|..] == b
  {
  }

  /** A prefix of a + b either stops inside a, or is all of a followed by a
      prefix of b. */
  lemma {:induction false} PrefixOfAppend<T>(a: seq<T>, b: seq<T>, p: seq<T>)
    requires |p| <= |a + b| && p == (a + b)[..|p|]
    ensures |p| < |a| ==> p == a[..|p|]
    ensures |p| >= |a| ==> p == a + p[|a|..] && p[|a|..] == b[..|p| - |a|]
  {
    if |p| >= |a| {
      assert p[..|a|] == a;
      assert p == p[..|a|] + p[|a|..];
    }
  }

  /** The bytes `strlen` counts in a NUL-terminated buffer: everything before
      the first zero byte. */
  function CStr(s: seq<byte>): (r: seq<byte>)
    ensures |r| <= |s| && r == s[..|r|] && 0 !in r
    ensures |r| < |s| ==> s[|r|] == 0
  {
    if s == [] || s[0] == 0 then [] else [s[0]] + CStr(s[1..])
  }

  /** The file after writing `w` from offset 0 into a file that held `prior`
      and was opened with O_CREAT | O_RDWR but not O_TRUNC: bytes of `prior`
      beyond the end of `w` survive. */
  function Overlay(prior: seq<byte>, w: seq<byte>): (f: seq<byte>)
    ensures |f| == if |w| < |prior| then |prior| else |w|
    ensures f[..|w|] == w
    ensures |w| < |prior| ==> f[|w|..] == prior[|w|..]
  {
    if |w| < |prior| then w + prior[|w|..] else w
  }

  /** The file after such a write is what was written followed by the
      surviving stale bytes. */
  lemma {:induction false} OverlayPrefix(prior: seq<byte>, w: seq<byte>)
    ensures |w| <= |Overlay(prior, w)|
    ensures Overlay(prior, w) == w + Overlay(prior, w)[|w|..]
  {
    var f := Overlay(prior, w);
    assert f[..|w|] == w;
    assert f == f[..|w|] + f[|w|..];
  }

  lemma {:induction false} OverlayTake(prior: seq<byte>, w: seq<byte>)
    ensures |w| <= |Overlay(prior, w)| && Overlay(prior, w)[..|w|] == w
  {
  }

  /** A slice inside a known prefix is the slice of that prefix. */
  lemma {:induction false} SliceInPrefix(f: seq<byte>, b: seq<byte>, i: nat, j: nat)
    requires i <= j <= |b| <= |f| && f[..|b|] == b
    ensures f[i..j] == b[i..j]
  {
    forall k | 0 <= k < j - i
      ensures f[i..j][k] == b[i..j][k]
    {
      assert f[i + k] == f[..|b|][i + k];
    }
  }

  /** write(fd, b, |b|) at file offset `pos` (after lseek, or after the
      previous writes). */
  function WriteAt(f: seq<byte>, pos: nat, b: seq<byte>): seq<byte>
    requires pos <= |f|
  {
    f[..pos] + b + (if pos + |b| < |f| then f[pos + |b|..] else [])
  }

  /** Appending one more write to a sequence of writes that started at offset
      0 keeps the file equal to the overlay of everything written so far. */
  lemma {:induction false} WriteAtOverlay(prior: seq<byte>, w: seq<byte>, b: seq<byte>)
    ensures |w| <= |Overlay(prior, w)|
    ensures WriteAt(Overlay(prior, w), |w|, b) == Overlay(prior, w + b)
  {
    var f := Overlay(prior, w);
    var lhs := WriteAt(f, |w|, b);
    var rhs := Overlay(prior, w + b);
    assert |lhs| == |rhs|;
    forall k | 0 <= k < |lhs| ensures lhs[k] == rhs[k] {
      if k < |w| {
      } else if k < |w| + |b| {
      } else {
        assert k < |prior|;
      }
    }
  }

  /** Seeking back into already written bytes and overwriting four of them. */
  lemma {:induction false} PatchOverlay(prior: seq<byte>, w: seq<byte>, pos: nat, b: seq<byte>)
    requires pos + |b| <= |w|
    ensures |w| <= |Overlay(prior, w)|
    ensures WriteAt(Overlay(prior, w), pos, b) == Overlay(prior, w[..pos] + b + w[pos + |b|..])
  {
    var f := Overlay(prior, w);
    var lhs := WriteAt(f, pos, b);
    var w' := w[..pos] + b + w[pos + |b|..];
    var rhs := Overlay(prior, w');
    assert |w'| == |w|;
    assert |lhs| == |rhs|;
    forall k | 0 <= k < |lhs| ensures lhs[k] == rhs[k] {
      if k < pos {
      } else if k < pos + |b| {
      } else if k < |w| {
      } else {
      }
    }
  }
}
