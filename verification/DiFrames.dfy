/** The wire format of the debuginfo server: a checksum and a length, both four
    little-endian bytes, and the data; the checksum covers the length and the data. */
module DiFrames {
  import opened Options
  import opened Arith
  import opened Adler

  // ------------------------------------------------------------------ little-endian numbers

  /** The `k` low-order bytes of `n`, lowest first. */
  function ToLe(n: nat, k: nat): (s: seq<nat>)
    ensures |s| == k && forall i :: 0 <= i < k ==> s[i] < 256
    decreases k
  {
    if k == 0 then [] else [n % 256] + ToLe(n / 256, k - 1)
  }

  function FromLe(s: seq<nat>): (n: nat)
  {
    if s == [] then 0 else s[0] + 256 * FromLe(s[1..])
  }

  function Pow256(k: nat): (n: nat)
    ensures n > 0
  {
    if k == 0 then 1 else 256 * Pow256(k - 1)
  }

  /** Byte `i` is the `i`-th digit in base 256. */
  lemma {:induction false} ByteOf(n: nat, k: nat, i: nat)
    requires i < k
    ensures ToLe(n, k)[i] == n / Pow256(i) % 256
    decreases k
  {
    if i > 0 {
      ByteOf(n / 256, k - 1, i - 1);
      DivTwice(n, 256, Pow256(i - 1));
    }
  }

  lemma {:induction false} ReadWritten(n: nat, k: nat)
    requires n < Pow256(k)
    ensures FromLe(ToLe(n, k)) == n
    decreases k
  {
    if k > 0 {
      var q, r := n / 256, n % 256;
      assert n == 256 * q + r;
      ReadWritten(q, k - 1);
      assert ToLe(n, k)[1..] == ToLe(q, k - 1);
    }
  }

  lemma {:induction false} WriteRead(s: seq<nat>)
    requires Bytes(s)
    ensures ToLe(FromLe(s), |s|) == s && FromLe(s) < Pow256(|s|)
  {
    if s != [] {
      WriteRead(s[1..]);
      DivModIs(FromLe(s), 256, FromLe(s[1..]), s[0]);
      assert s == [s[0]] + s[1..];
    }
  }

  lemma {:induction false} FourBytes()
    ensures Pow256(4) == WORD32 && Pow256(8) == WORD
  {
    assert Pow256(2) == 65536;
    assert Pow256(4) == 65536 * 65536;
    assert Pow256(6) == 65536 * 65536 * 65536;
  }

  /** `write_UInt_le` and `write_ULong_le`: store the low byte and shift, `k` times. */
  method WriteLe(n: nat, k: nat) returns (dst: seq<nat>)
    ensures dst == ToLe(n, k)
  {
    dst := [];
    var m, i := n, 0;
    while i < k
      invariant 0 <= i <= k && |dst| == i && dst + ToLe(m, k - i) == ToLe(n, k)
    {
      assert dst + ([m % 256] + ToLe(m / 256, k - i - 1)) == (dst + [m % 256]) + ToLe(m / 256, k - i - 1);
      dst := dst + [m % 256];
      m := m / 256;
      i := i + 1;
    }
    assert dst + [] == dst;
  }

  /** `read_UInt_le` and `read_ULong_le`: from the highest byte down, shift and add. */
  method ReadLe(src: seq<nat>) returns (r: nat)
    ensures r == FromLe(src)
  {
    r := 0;
    var i := |src|;
    while i > 0
      invariant 0 <= i <= |src| && r == FromLe(src[i..])
    {
      i := i - 1;
      assert src[i..][1..] == src[i+1..];
      r := 256 * r + src[i];
    }
    assert src[0..] == src;
  }

  // ------------------------------------------------------------------ frames on the wire

  const MAX_FRAME: nat := 4 * 1024 * 1024

  /** Bytes in the checksum field and in the length field. */
  const FIELD: nat := 4

  /** How frames are laid out: the size of the two number fields, and the checksum, which is
      taken over the length field and the data. */
  datatype Format = Format(width: nat, check: (seq<nat>, seq<nat>) -> nat)

  /** What is sent for a frame; the length is a 32-bit number. */
  function Wire(f: Format, data: seq<nat>): (w: seq<nat>)
  {
    var len := ToLe(|data| % WORD32, f.width);
    ToLe(f.check(len, data), f.width) + len + data
  }

  /** The receiver: None where the connection is dropped (short read, absurd length, bad
      checksum). */
  function Accept(f: Format, stream: seq<nat>): (r: Option<seq<nat>>)
  {
    var k := f.width;
    if |stream| < 2 * k then None
    else
      var n := FromLe(stream[k..2*k]);
      if n > MAX_FRAME || |stream| < 2 * k + n then None
      else
        var data := stream[2*k..2*k+n];
        if f.check(stream[k..2*k], data) == FromLe(stream[..k]) then Some(data) else None
  }

  lemma {:induction false} Pieces(sum: seq<nat>, len: seq<nat>, data: seq<nat>, stream: seq<nat>)
    requires |sum| == |len| && sum + len + data <= stream
    ensures |stream| >= 2 * |sum| + |data|
    ensures stream[..|sum|] == sum && stream[|sum|..2*|sum|] == len
    ensures stream[2*|sum|..2*|sum|+|data|] == data
  {
    var w := sum + len + data;
    var k := |sum|;
    assert stream[..k] == w[..k] && stream[k..2*k] == w[k..2*k] && stream[2*k..2*k+|data|] == w[2*k..];
  }

  lemma {:induction false} SentIsAccepted(f: Format, data: seq<nat>, stream: seq<nat>)
    requires |data| <= MAX_FRAME && WORD32 <= Pow256(f.width) && Wire(f, data) <= stream
    requires f.check(ToLe(|data|, f.width), data) < WORD32
    ensures Accept(f, stream) == Some(data)
  {
    var len := ToLe(|data|, f.width);
    Pieces(ToLe(f.check(len, data), f.width), len, data, stream);
    ReadWritten(f.check(len, data), f.width);
    ReadWritten(|data|, f.width);
  }

  lemma {:induction false} Joined(s: seq<nat>, i: nat, j: nat, k: nat)
    requires i <= j <= k <= |s|
    ensures s[..i] + s[i..j] + s[j..k] <= s
  {
    assert s[..i] + s[i..j] + s[j..k] == s[..k];
  }

  lemma {:induction false} WireIs(f: Format, data: seq<nat>, sum: seq<nat>, len: seq<nat>)
    requires |sum| == |len| == f.width && Bytes(sum) && Bytes(len)
    requires |data| == FromLe(len) && |data| < WORD32 && f.check(len, data) == FromLe(sum)
    ensures Wire(f, data) == sum + len + data
  {
    hide FromLe, ToLe, Bytes;
    WriteRead(sum);
    WriteRead(len);
  }

  lemma {:induction false} AcceptedIsSent(f: Format, data: seq<nat>, stream: seq<nat>)
    requires Bytes(stream) && Accept(f, stream) == Some(data)
    ensures |data| <= MAX_FRAME && Wire(f, data) <= stream
  {
    var k := f.width;
    WireIs(f, data, stream[..k], stream[k..2*k]);
    Joined(stream, k, 2 * k, 2 * k + |data|);
  }

  /** Checksum of a frame: over its length and then its data. */
  function FrameSum(len: seq<nat>, data: seq<nat>): (sum: nat)
  {
    Adler32(Adler32(INITIAL, Data(len)), Data(data))
  }

  lemma {:induction false} FrameSumIsOverBoth(len: seq<nat>, data: seq<nat>)
    requires Bytes(len) && Bytes(data)
    ensures FrameSum(len, data) == Pack(Plain(Sums(1, 0), len + data))
    ensures FrameSum(len, data) < WORD32
  {
    var s := Plain(Sums(1, 0), len);
    assert Unpack(INITIAL) == Sums(1, 0);
    UnpackPack(s);
    PlainConcat(Sums(1, 0), len, data);
    UnpackPack(Plain(s, data));
  }

  function DiFormat(): (f: Format)
  {
    Format(FIELD, FrameSum)
  }

  /** The receiver takes a frame of acceptable length from the stream if and only if the
      stream starts with what the sender writes for it. */
  lemma {:induction false} AcceptIffSent(data: seq<nat>, stream: seq<nat>)
    requires Bytes(data) && Bytes(stream)
    ensures Accept(DiFormat(), stream) == Some(data)
            <==> |data| <= MAX_FRAME && Wire(DiFormat(), data) <= stream
  {
    FourBytes();
    var f := DiFormat();
    if |data| <= MAX_FRAME && Wire(f, data) <= stream {
      FrameSumIsOverBoth(ToLe(|data|, f.width), data);
      SentIsAccepted(f, data, stream);
    } else if Accept(f, stream) == Some(data) {
      AcceptedIsSent(f, data, stream);
    }
  }

  /** The checksum of a frame as both ends compute it, in up to three calls. */
  method ComputeFrameSum(len: seq<nat>, data: seq<nat>) returns (sum: nat)
    requires Bytes(len) && Bytes(data)
    ensures sum == FrameSum(len, data)
  {
    sum := ComputeAdler32(0, Null);
    assert Unpack(sum) == Sums(1, 0);
    assert Plain(Plain(Sums(1, 0), len), []) == Plain(Sums(1, 0), len);
    UnpackPack(Plain(Sums(1, 0), len));
    hide Unpack, Pack, Plain, Bytes;
    sum := ComputeAdler32(sum, Data(len));
    if |data| > 0 {
      sum := ComputeAdler32(sum, Data(data));
    } else {
      assert data == [];
    }
  }

  /** Build what goes on the wire for a frame. */
  method Send(data: seq<nat>) returns (w: seq<nat>)
    requires Bytes(data)
    ensures w == Wire(DiFormat(), data)
  {
    var lenField := WriteLe(|data| % WORD32, FIELD);
    var sum := ComputeFrameSum(lenField, data);
    var sumField := WriteLe(sum, FIELD);
    w := sumField + lenField + data;
  }

  /** Take a frame from the stream. */
  method Receive(stream: seq<nat>) returns (r: Option<seq<nat>>)
    requires Bytes(stream)
    ensures r == Accept(DiFormat(), stream)
  {
    if |stream| < 2 * FIELD {
      return None;
    }
    var lenField := stream[FIELD..2*FIELD];
    var len := ReadLe(lenField);
    if len > MAX_FRAME || |stream| < 2 * FIELD + len {
      return None;
    }
    var data := stream[2*FIELD..2*FIELD+len];
    var expected := ReadLe(stream[..FIELD]);
    var sum := ComputeFrameSum(lenField, data);
    if sum != expected {
      return None;
    }
    return Some(data);
  }

  // ------------------------------------------------------------------ string frames

  /** A tagged frame holding a string and its terminating zero. */
  function MakeAsciiz(tag: seq<nat>, str: seq<nat>): (f: seq<nat>)
    requires |tag| == 4
  {
    tag + str + [0]
  }

  /** Parse one: the tag must match and the first zero must be the last byte. */
  method ParseAsciiz(f: seq<nat>, tag: seq<nat>) returns (r: Option<seq<nat>>)
    requires |tag| == 4
    ensures r.Some? <==> |f| >= 5 && f[..4] == tag && 0 !in f[4..|f|-1] && f[|f|-1] == 0
    ensures r.Some? ==> f == MakeAsciiz(tag, r.value)
  {
    if |f| < 4 || f[..4] != tag || |f| < 5 {
      return None;
    }
    var i := 4;
    while i < |f| && f[i] != 0
      invariant 4 <= i <= |f| && 0 !in f[4..i]
    {
      i := i + 1;
    }
    if i == |f| - 1 && f[i] == 0 {
      assert f == f[..4] + f[4..i] + [0];
      return Some(f[4..i]);
    }
    if f[|f|-1] == 0 {
      assert i < |f| - 1 && f[4..|f|-1][i-4] == 0;
    }
    return None;
  }
}
