/**
 The framing policy of the bulk USB `write` (mqtt_io/modules/stream/usb.py,
 lines 81-89): a byte string is cut into consecutive frames of exactly
 `write_size` bytes, and the last, short frame is filled up with zero bytes.

 `Chunk` is the pure function behind that loop. Frame offsets are built
 the way `range(0, n, k)` builds them, by adding `k` (`Offset`). The lemmas
 relate `Chunk` to the loop's own slicing (`ChunkFrame`,
 `FrameStartBelowLength`), undo it (`ChunkRoundTrip`) and give the closed
 forms of its frame and padding counts (`ChunkCount`).
 */
module Framing {
  import opened Transport

  function Min(a: int, b: int): int
  {
    if a <= b then a else b
  }

  /** `n` zero bytes, the filler `[0] * (chunk_size - len(chunk))`. */
  function Zeros(n: nat): (z: seq<byte>)
    ensures |z| == n
    ensures forall i :: 0 <= i < n ==> z[i] == 0
  {
    seq(n, _ => 0)
  }

  /** A slice extended with zero bytes up to the frame size `k`. */
  function PadTo(s: seq<byte>, k: nat): (f: seq<byte>)
    requires |s| <= k
    ensures |f| == k
  {
    s + Zeros(k - |s|)
  }

  /** A slice that already fills a frame is sent as it is. */
  lemma PadToFull(s: seq<byte>, k: nat)
    requires |s| == k
    ensures PadTo(s, k) == s
  {
    assert s + Zeros(0) == s;
  }

  /** The frames, joined back into one byte string. */
  function Flatten(frames: seq<seq<byte>>): seq<byte>
    decreases |frames|
  {
    if |frames| == 0 then [] else frames[0] + Flatten(frames[1..])
  }

  /** The offset of frame `j`: the `j`-th value `range(0, n, k)` yields. */
  function Offset(j: nat, k: nat): nat
  {
    if j == 0 then 0 else Offset(j - 1, k) + k
  }

  /**
   How many zero bytes the last frame of `n` bytes in frames of `k` carries:
   fewer than one frame, and none for empty data.
   */
  function PadCount(n: nat, k: nat): (p: nat)
    requires k > 0
    ensures p < k
    ensures n == 0 ==> p == 0
    decreases n
  {
    if n == 0 then 0 else if n <= k then k - n else PadCount(n - k, k)
  }

  /**
   The frames `write` sends for `data` with `write_size == k`: consecutive
   slices of `k` bytes, the last one zero-padded. Every frame has length `k`,
   and the frames end exactly where the padded data ends.
   */
  function Chunk(data: seq<byte>, k: nat): (frames: seq<seq<byte>>)
    requires k > 0
    ensures forall i :: 0 <= i < |frames| ==> |frames[i]| == k
    ensures Offset(|frames|, k) == |data| + PadCount(|data|, k)
    decreases |data|
  {
    if |data| == 0 then
      []
    else if |data| <= k then
      [PadTo(data, k)]
    else
      var rest := Chunk(data[k..], k);
      OffsetShift(|rest|, k);
      [data[..k]] + rest
  }

  /** Joining the frames gives the data followed by exactly the padding, so
      the first `|data|` bytes recover the data and the rest are zero. */
  lemma {:induction false} ChunkRoundTrip(data: seq<byte>, k: nat)
    requires k > 0
    ensures Flatten(Chunk(data, k)) == data + Zeros(PadCount(|data|, k))
    ensures Flatten(Chunk(data, k))[..|data|] == data
    decreases |data|
  {
    var frames := Chunk(data, k);
    if |data| == 0 {
    } else if |data| <= k {
      assert frames == [PadTo(data, k)];
      assert Flatten(frames) == PadTo(data, k) + Flatten(frames[1..]);
    } else {
      var rest := Chunk(data[k..], k);
      assert frames == [data[..k]] + rest;
      assert frames[1..] == rest;
      ChunkRoundTrip(data[k..], k);
      calc {
        Flatten(frames);
        data[..k] + Flatten(rest);
        data[..k] + (data[k..] + Zeros(PadCount(|data|, k)));
        { assert data[..k] + data[k..] == data; }
        data + Zeros(PadCount(|data|, k));
      }
    }
  }

  /** The loop `for i in range(0, n, k)` visits the offset of frame `j`
      exactly when `Chunk` has a frame `j`: one transport call per frame,
      none for empty data, and no extra one. */
  lemma {:induction false} FrameStartBelowLength(data: seq<byte>, k: nat, j: nat)
    requires k > 0
    ensures j < |Chunk(data, k)| <==> Offset(j, k) < |data|
    decreases j
  {
    if j > 0 && |data| > k {
      OffsetShift(j - 1, k);
      FrameStartBelowLength(data[k..], k, j - 1);
    }
  }

  /** Frame `j` is what the loop body builds at offset `i`: the slice
      `data[i : i + k]`, zero-padded when it is shorter than `k`. */
  lemma {:induction false} ChunkFrame(data: seq<byte>, k: nat, j: nat)
    requires k > 0
    requires j < |Chunk(data, k)|
    ensures Offset(j, k) < |data|
    ensures Chunk(data, k)[j] == PadTo(data[Offset(j, k) .. Min(Offset(j, k) + k, |data|)], k)
    decreases j
  {
    FrameStartBelowLength(data, k, j);
    if j == 0 {
      FirstFrame(data, k);
    } else {
      ChunkTail(data, k, j);
      var rest := data[k..];
      ChunkFrame(rest, k, j - 1);
      var a := Offset(j - 1, k);
      assert Offset(j, k) == a + k;
      DropThenSlice(data, k, a, a + k);
    }
  }

  /** One pass of the loop body of `write`: the slice at offset `i` of frame
      `j`, padded only when it is short, is frame `j` of `Chunk`. */
  lemma LoopBuildsFrame(data: seq<byte>, k: nat, j: nat, slice: seq<byte>, chunk: seq<byte>)
    requires k > 0
    requires Offset(j, k) < |data|
    requires slice == data[Offset(j, k) .. Min(Offset(j, k) + k, |data|)]
    requires chunk == if |slice| < k then slice + Zeros(k - |slice|) else slice
    ensures j < |Chunk(data, k)|
    ensures chunk == Chunk(data, k)[j]
  {
    FrameStartBelowLength(data, k, j);
    ChunkFrame(data, k, j);
    if |slice| == k {
      PadToFull(slice, k);
    }
  }

  /** Slicing after dropping `k` bytes is slicing `k` bytes further on. */
  lemma DropThenSlice(data: seq<byte>, k: nat, a: nat, e: nat)
    requires k <= |data| && a <= |data| - k && a <= e
    ensures data[k..][a .. Min(e, |data| - k)] == data[a + k .. Min(e + k, |data|)]
  {
  }

  /** The first frame is the first `k` bytes, padded when there are fewer. */
  lemma FirstFrame(data: seq<byte>, k: nat)
    requires k > 0 && |data| > 0
    ensures Chunk(data, k)[0] == PadTo(data[0 .. Min(k, |data|)], k)
  {
    if |data| <= k {
      assert data[0 .. |data|] == data;
    } else {
      assert data[0 .. k] == data[..k];
      PadToFull(data[..k], k);
    }
  }

  /** Past the first frame, the frames are those of the rest of the data. */
  lemma ChunkTail(data: seq<byte>, k: nat, j: nat)
    requires k > 0
    requires 0 < j < |Chunk(data, k)|
    ensures |data| > k
    ensures j - 1 < |Chunk(data[k..], k)|
    ensures Chunk(data, k)[j] == Chunk(data[k..], k)[j - 1]
  {
  }

  /** Data that fills `m` frames exactly needs no padding and no extra frame:
      `m` frames that join to the data itself. */
  lemma {:induction false} ExactMultipleNoPadding(data: seq<byte>, k: nat, m: nat)
    requires k > 0
    requires |data| == Offset(m, k)
    ensures PadCount(|data|, k) == 0
    ensures |Chunk(data, k)| == m
    ensures Flatten(Chunk(data, k)) == data
    decreases m
  {
    if m > 1 {
      OffsetShift(m - 1, k);
      ExactMultipleNoPadding(data[k..], k, m - 1);
    }
    ChunkRoundTrip(data, k);
    assert data + Zeros(0) == data;
  }

  /** The usual closed forms: frame `j` starts at `j * k`, there are
      ceil(n / k) frames, and the padding is (k - n mod k) mod k. */
  lemma ChunkCount(data: seq<byte>, k: nat)
    requires k > 0
    ensures |Chunk(data, k)| == (|data| + k - 1) / k
    ensures PadCount(|data|, k) == (k - |data| % k) % k
  {
    var n, c, p := |data|, |Chunk(data, k)|, PadCount(|data|, k);
    OffsetIsProduct(c, k);
    CeilFromPadding(n, k, c, p);
    PadFromRemainder(n, k, c, p);
  }

  /** Five bytes in frames of four: one full frame, then one byte and three zeros. */
  lemma FiveBytesInFramesOfFour()
    ensures Chunk([1, 2, 3, 4, 5], 4) == [[1, 2, 3, 4], [5, 0, 0, 0]]
  {
    var data: seq<byte> := [1, 2, 3, 4, 5];
    assert data[..4] == [1, 2, 3, 4];
    assert data[4..] == [5];
    assert PadTo([5], 4) == [5, 0, 0, 0];
  }

  lemma OffsetShift(j: nat, k: nat)
    ensures Offset(j + 1, k) == k + Offset(j, k)
  {
  }

  lemma {:induction false} OffsetIsProduct(j: nat, k: nat)
    ensures Offset(j, k) == j * k
  {
    if j > 0 {
      OffsetIsProduct(j - 1, k);
      MulSucc(j - 1, k);
    }
  }

  // Arithmetic the solver does not find on its own.

  /** `c` frames of `k` holding `n` bytes and `p < k` padding bytes are ceil(n / k). */
  lemma CeilFromPadding(n: nat, k: nat, c: nat, p: nat)
    requires k > 0 && p < k && c * k == n + p
    ensures c == (n + k - 1) / k
  {
    DivModUnique(n + k - 1, k, c, k - 1 - p);
  }

  /** The padding that completes `n` to a multiple of `k` is (k - n mod k) mod k. */
  lemma PadFromRemainder(n: nat, k: nat, c: nat, p: nat)
    requires k > 0 && p < k && c * k == n + p
    ensures p == (k - n % k) % k
  {
    if p == 0 {
      DivModUnique(n, k, c, 0);
      DivModUnique(k, k, 1, 0);
    } else {
      assert c > 0;
      MulSucc(c - 1, k);
      DivModUnique(n, k, c - 1, k - p);
      DivModUnique(p, k, 0, p);
    }
  }

  lemma MulSucc(c: int, k: int)
    ensures (c + 1) * k == c * k + k
  {
  }

  lemma MulMono(x: int, y: int, k: nat)
    requires x <= y
    ensures x * k <= y * k
  {
  }

  /** Euclidean division has one quotient and one remainder. */
  lemma DivModUnique(a: int, k: nat, q: int, r: int)
    requires k > 0 && 0 <= r < k && a == q * k + r
    ensures a % k == r && a / k == q
  {
    var d, m := a / k, a % k;
    assert a == d * k + m;
    if d < q {
      MulMono(d + 1, q, k);
    } else if d > q {
      MulMono(q + 1, d, k);
    }
  }
}
