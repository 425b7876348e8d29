/** Bytes, 32-bit words and little-endian encoding, as the x86 body lays them in memory and on disk. */
module Bytes {

  type byte = x: int | 0 <= x < 0x100
  type u32 = x: int | 0 <= x < 0x1_0000_0000

  /** A C string without its terminator: no byte of it is NUL. */
  type CString = s: seq<byte> | 0 !in s witness []

  function Zeros(n: nat): (r: seq<byte>)
    ensures |r| == n && forall i :: 0 <= i < n ==> r[i] == 0
  {
    seq(n, _ => 0)
  }

  function Le32(x: u32): (r: seq<byte>)
    ensures |r| == 4
  {
    [x % 0x100, x / 0x100 % 0x100, x / 0x1_0000 % 0x100, x / 0x100_0000]
  }

  function U32At(s: seq<byte>, i: nat): u32
    requires i + 4 <= |s|
  {
    s[i] as int + 0x100 * (s[i + 1] as int) + 0x1_0000 * (s[i + 2] as int) + 0x100_0000 * (s[i + 3] as int)
  }

  lemma Le32Value(x: u32)
    ensures U32At(Le32(x), 0) == x
  {
    var y, z: int := x / 0x100, x / 0x1_0000;
    assert y / 0x100 == z && z / 0x100 == x / 0x100_0000;
    assert x == x % 0x100 + 0x100 * y && y == y % 0x100 + 0x100 * z && z == z % 0x100 + 0x100 * (x / 0x100_0000);
  }

  lemma Le32Bytes(s: seq<byte>)
    requires |s| == 4
    ensures Le32(U32At(s, 0)) == s
  {
    var a: int, b: int, c: int, d: int := s[0], s[1], s[2], s[3];
    var x: u32 := U32At(s, 0);
    assert x / 0x100 == b + 0x100 * c + 0x1_0000 * d;
    assert x / 0x1_0000 == c + 0x100 * d;
    assert x / 0x100_0000 == d;
    assert Le32(x) == [a, b, c, d];
  }

  /** A run of little-endian words, the shape of every packed C struct on this disk. */
  function Words(ws: seq<u32>): (r: seq<byte>)
    ensures |r| == 4 * |ws|
  {
    if ws == [] then [] else Words(ws[..|ws| - 1]) + Le32(ws[|ws| - 1])
  }

  lemma {:induction false} WordAt(ws: seq<u32>, k: nat)
    requires k < |ws|
    ensures U32At(Words(ws), 4 * k) == ws[k]
  {
    var last := |ws| - 1;
    Le32Value(ws[last]);
    if k < last {
      WordAt(ws[..last], k);
    }
  }

  /** The k-th word of a byte string, for all k that fit. */
  function WordsOf(s: seq<byte>, n: nat): (ws: seq<u32>)
    requires |s| == 4 * n
    ensures |ws| == n
  {
    seq(n, k requires 0 <= k < n => U32At(s, 4 * k))
  }

  lemma {:induction false} WordsRoundTrip(ws: seq<u32>)
    ensures WordsOf(Words(ws), |ws|) == ws
  {
    forall k | 0 <= k < |ws| ensures WordsOf(Words(ws), |ws|)[k] == ws[k] {
      WordAt(ws, k);
    }
  }

  lemma {:induction false} WordsOfRoundTrip(s: seq<byte>, n: nat)
    requires |s| == 4 * n
    ensures Words(WordsOf(s, n)) == s
  {
    if n > 0 {
      var init := s[..4 * (n - 1)];
      WordsOfRoundTrip(init, n - 1);
      assert WordsOf(s, n)[..n - 1] == WordsOf(init, n - 1);
      var tail := s[4 * (n - 1)..];
      Le32Bytes(tail);
      assert U32At(s, 4 * (n - 1)) == U32At(tail, 0);
      assert s == init + tail;
    }
  }
}
