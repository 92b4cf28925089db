/** Bytes of WebAssembly linear memory and of ArrayBuffers, the little-endian
    layout of a Float32Array element, and the search for a C string's
    terminator (web/main.js). */
module Memory {

  import opened Wrappers

  /** One byte of linear memory or of an ArrayBuffer. */
  type byte = x: int | 0 <= x < 256

  /** A single-precision float as a Float32Array element holds it: its 32-bit
      pattern. The numeric value behind the pattern is not modelled. */
  type F32 = x: int | 0 <= x < 0x1_0000_0000

  /** Float32Array.BYTES_PER_ELEMENT */
  const BytesPerElement: nat := 4

  /** The four bytes of one element, least significant first. */
  function EncodeF32(x: F32): (r: seq<byte>)
    ensures |r| == BytesPerElement
  {
    [x % 256, x / 256 % 256, x / 256 / 256 % 256, x / 256 / 256 / 256]
  }

  function DecodeF32(b: seq<byte>): F32
    requires |b| == BytesPerElement
  {
    b[0] as int + 256 * (b[1] as int + 256 * (b[2] as int + 256 * b[3] as int))
  }

  lemma DecodeEncodeF32(x: F32)
    ensures DecodeF32(EncodeF32(x)) == x
  {
    var q1 := x / 256;
    var q2 := q1 / 256;
    var q3 := q2 / 256;
    assert q2 == q2 % 256 + 256 * q3;
    assert q1 == q1 % 256 + 256 * q2;
    assert x == x % 256 + 256 * q1;
  }

  lemma EncodeDecodeF32(b: seq<byte>)
    requires |b| == BytesPerElement
    ensures EncodeF32(DecodeF32(b)) == b
  {
    var q2: int := b[2] + 256 * b[3] as int;
    var q1: int := b[1] + 256 * q2;
    var x: int := b[0] + 256 * q1;
    assert x % 256 == b[0] && x / 256 == q1;
    assert q1 % 256 == b[1] && q1 / 256 == q2;
    assert q2 % 256 == b[2] && q2 / 256 == b[3];
  }

  /** The bytes of a Float32Array's buffer holding `values`, element by element. */
  function Encode(values: seq<F32>): (r: seq<byte>)
    ensures |r| == BytesPerElement * |values|
  {
    if values == [] then [] else EncodeF32(values[0]) + Encode(values[1..])
  }

  /** The elements of a Float32Array viewing `bytes`. */
  function Decode(bytes: seq<byte>): (r: seq<F32>)
    requires |bytes| % BytesPerElement == 0
    ensures BytesPerElement * |r| == |bytes|
  {
    if bytes == [] then [] else [DecodeF32(bytes[..4])] + Decode(bytes[4..])
  }

  lemma {:induction false} DecodeEncode(values: seq<F32>)
    ensures Decode(Encode(values)) == values
  {
    if values != [] {
      var e := Encode(values);
      assert e[..4] == EncodeF32(values[0]);
      assert e[4..] == Encode(values[1..]);
      DecodeEncodeF32(values[0]);
      DecodeEncode(values[1..]);
    }
  }

  lemma {:induction false} EncodeDecode(bytes: seq<byte>)
    requires |bytes| % BytesPerElement == 0
    ensures Encode(Decode(bytes)) == bytes
  {
    if bytes != [] {
      var d := Decode(bytes);
      assert d[0] == DecodeF32(bytes[..4]) && d[1..] == Decode(bytes[4..]);
      EncodeDecodeF32(bytes[..4]);
      EncodeDecode(bytes[4..]);
      assert bytes == bytes[..4] + bytes[4..];
    }
  }

  /** Memory `m` after the bytes `src` are stored from offset `at` on, as
      TypedArray.prototype.set does through a view that starts at `at`. */
  function Write(m: seq<byte>, at: nat, src: seq<byte>): (r: seq<byte>)
    requires at + |src| <= |m|
    ensures |r| == |m|
    ensures r[at..at + |src|] == src
    ensures forall i :: 0 <= i < |m| && !(at <= i < at + |src|) ==> r[i] == m[i]
  {
    m[..at] + src + m[at + |src|..]
  }

  /** Storing one more byte of `src` extends the stored prefix. */
  lemma WriteOneMore(m: seq<byte>, at: nat, src: seq<byte>, i: nat)
    requires at + |src| <= |m| && i < |src|
    ensures Write(m, at, src[..i + 1]) == Write(m, at, src[..i])[at + i := src[i]]
  {
    var a, b := Write(m, at, src[..i + 1]), Write(m, at, src[..i])[at + i := src[i]];
    forall j | 0 <= j < |m|
      ensures a[j] == b[j]
    {
      if at <= j < at + i {
        assert a[j] == a[at..at + i + 1][j - at];
        assert Write(m, at, src[..i])[j] == Write(m, at, src[..i])[at..at + i][j - at];
      } else if j == at + i {
        assert a[j] == a[at..at + i + 1][i];
      }
    }
  }

  /** A second store over the same window replaces the first. */
  lemma WriteTwice(m: seq<byte>, at: nat, first: seq<byte>, second: seq<byte>)
    requires at + |first| <= |m| && |second| == |first|
    ensures Write(Write(m, at, first), at, second) == Write(m, at, second)
  {
  }

  /** The last `n` bytes of `buffer`: `new Uint8Array(buffer, buffer.byteLength - n)`. */
  function Tail(buffer: seq<byte>, n: nat): (r: seq<byte>)
    requires n <= |buffer|
    ensures |r| == n
    ensures forall i :: 0 <= i < n ==> r[i] == buffer[|buffer| - n + i]
  {
    buffer[|buffer| - n..]
  }

  /** The bytes from `p` up to the first zero byte, or None when memory ends
      before a zero byte is found (reading past the end yields undefined). */
  function ScanCStr(m: seq<byte>, p: nat): (r: Option<seq<byte>>)
    ensures r.Some? ==> p + |r.value| < |m| && m[p + |r.value|] == 0
    ensures r.Some? ==> r.value == m[p..p + |r.value|] && 0 !in r.value
    ensures r.None? <==> forall i :: p <= i < |m| ==> m[i] != 0
    decreases |m| - p
  {
    if p >= |m| then None
    else if m[p] == 0 then Some([])
    else match ScanCStr(m, p + 1)
      case None => None
      case Some(s) => Some([m[p]] + s)
  }

  /** The scan stops at the first zero byte: whatever non-zero bytes lie
      between the pointer and a zero byte are what it collects. */
  lemma {:induction false} ScanCStrStopsAtFirstZero(m: seq<byte>, p: nat, s: seq<byte>)
    requires p + |s| < |m| && m[p + |s|] == 0
    requires forall j :: 0 <= j < |s| ==> m[p + j] == s[j] && s[j] != 0
    ensures ScanCStr(m, p) == Some(s)
    decreases |s|
  {
    if s != [] {
      assert m[p] == s[0];
      assert forall j :: 0 <= j < |s| - 1 ==> m[p + 1 + j] == s[1..][j];
      ScanCStrStopsAtFirstZero(m, p + 1, s[1..]);
      assert [m[p]] + s[1..] == s;
    }
  }

  /** Storing a string and its terminator and scanning it back from the same
      pointer gives the string. */
  lemma CStrRoundTrip(m: seq<byte>, p: nat, s: seq<byte>)
    requires p + |s| < |m| && 0 !in s
    ensures ScanCStr(Write(m, p, s + [0]), p) == Some(s)
  {
    var w := Write(m, p, s + [0]);
    assert w[p + |s|] == (s + [0])[|s|] == 0;
    assert forall j :: 0 <= j < |s| ==> w[p + j] == (s + [0])[j] == s[j];
    ScanCStrStopsAtFirstZero(w, p, s);
  }
}
