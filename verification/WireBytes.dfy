/** Bytes, big-endian integers and NUL-terminated strings, as every wire parser and printer of the proxy uses them. */
module WireBytes {

  type byte = x: int | 0 <= x < 256
  type Bytes = seq<byte>

  datatype Option<+T> = None | Some(value: T)

  const TWO15 := 0x8000
  const TWO16 := 0x1_0000
  const TWO31 := 0x8000_0000
  const TWO32 := 0x1_0000_0000

  /** The low `k` bytes of `n`, most significant first. */
  function BigEndian(n: nat, k: nat): (b: Bytes)
    ensures |b| == k
  {
    if k == 0 then [] else BigEndian(n / 0x100, k - 1) + [n % 0x100]
  }

  function FromBigEndian(b: Bytes): (n: nat) {
    if b == [] then 0 else FromBigEndian(b[..|b| - 1]) * 0x100 + b[|b| - 1] as int
  }

  function Pow256(k: nat): (p: nat)
    ensures p > 0
  {
    if k == 0 then 1 else 0x100 * Pow256(k - 1)
  }

  lemma {:induction false} BigEndianRoundTrip(n: nat, k: nat)
    requires n < Pow256(k)
    ensures FromBigEndian(BigEndian(n, k)) == n
  {
    if k > 0 {
      BigEndianRoundTrip(n / 0x100, k - 1);
      assert BigEndian(n, k)[..k - 1] == BigEndian(n / 0x100, k - 1);
    }
  }

  lemma {:induction false} FromBigEndianBound(b: Bytes)
    ensures FromBigEndian(b) < Pow256(|b|)
  {
    if b != [] {
      FromBigEndianBound(b[..|b| - 1]);
    }
  }

  /** The four bytes `(n as i32).to_be_bytes()`: the cast keeps the low 32 bits. */
  function Be32(n: int): (b: Bytes)
    ensures |b| == 4
  {
    BigEndian(n % TWO32, 4)
  }

  function Be16(n: int): (b: Bytes)
    ensures |b| == 2
  {
    BigEndian(n % TWO16, 2)
  }

  function U32At(s: Bytes, i: nat): (n: nat)
    requires i + 4 <= |s|
    ensures n < TWO32
  {
    FromBigEndianBound(s[i..i + 4]);
    assert Pow256(4) == TWO32 by { Powers(); }
    FromBigEndian(s[i..i + 4])
  }

  lemma Powers()
    ensures Pow256(4) == TWO32 && Pow256(2) == TWO16
  {
    assert Pow256(2) == 0x100 * Pow256(1);
    assert Pow256(3) == 0x100 * Pow256(2);
  }

  /** `i32::from_be_bytes` of four bytes. */
  function I32At(s: Bytes, i: nat): (n: int)
    requires i + 4 <= |s|
    ensures -TWO31 <= n < TWO31
  {
    var u := U32At(s, i);
    if u < TWO31 then u else u - TWO32
  }

  lemma I32AtShift(s: Bytes, k: nat, i: nat)
    requires k <= |s| && k + i + 4 <= |s|
    ensures I32At(s[k..], i) == I32At(s, k + i)
  {
    assert s[k..][i..i + 4] == s[k + i..k + i + 4];
  }

  /** `i16::from_be_bytes` of two bytes. */
  function I16At(s: Bytes, i: nat): (n: int)
    requires i + 2 <= |s|
    ensures -TWO15 <= n < TWO15
  {
    FromBigEndianBound(s[i..i + 2]);
    Powers();
    var u := FromBigEndian(s[i..i + 2]);
    if u < TWO15 then u else u - TWO16
  }

  lemma I16AtShift(s: Bytes, k: nat)
    requires k + 2 <= |s|
    ensures I16At(s[k..], 0) == I16At(s, k)
  {
    assert s[k..][0..2] == s[k..k + 2];
  }

  lemma Be32RoundTrip(n: int, s: Bytes, i: nat)
    requires i + 4 <= |s| && s[i..i + 4] == Be32(n)
    ensures -TWO31 <= n < TWO31 ==> I32At(s, i) == n
    ensures 0 <= n < TWO32 ==> U32At(s, i) == n
  {
    Powers();
    BigEndianRoundTrip(n % TWO32, 4);
  }

  lemma Be16RoundTrip(n: int, s: Bytes, i: nat)
    requires i + 2 <= |s| && s[i..i + 2] == Be16(n)
    requires -TWO15 <= n < TWO15
    ensures I16At(s, i) == n
  {
    Powers();
    BigEndianRoundTrip(n % TWO16, 2);
  }

  lemma {:induction false} BigEndianInverse(b: Bytes)
    ensures BigEndian(FromBigEndian(b), |b|) == b
  {
    if b != [] {
      BigEndianInverse(b[..|b| - 1]);
    }
  }

  lemma Be32InverseU(s: Bytes, i: nat)
    requires i + 4 <= |s|
    ensures Be32(U32At(s, i)) == s[i..i + 4]
  {
    BigEndianInverse(s[i..i + 4]);
  }

  lemma Be32Inverse(s: Bytes, i: nat)
    requires i + 4 <= |s|
    ensures Be32(I32At(s, i)) == s[i..i + 4]
  {
    Be32InverseU(s, i);
    assert I32At(s, i) % TWO32 == U32At(s, i);
  }

  lemma Be16Inverse(s: Bytes, i: nat)
    requires i + 2 <= |s|
    ensures Be16(I16At(s, i)) == s[i..i + 2]
  {
    BigEndianInverse(s[i..i + 2]);
    FromBigEndianBound(s[i..i + 2]);
    Powers();
    assert I16At(s, i) % TWO16 == FromBigEndian(s[i..i + 2]);
  }

  predicate NulFree(s: Bytes) {
    forall i | 0 <= i < |s| :: s[i] != 0
  }

  /** The index of the first NUL at or after `i`, or `|s|` when there is none. */
  function NulIndex(s: Bytes, i: nat): (j: nat)
    requires i <= |s|
    ensures i <= j <= |s|
    ensures forall k | i <= k < j :: s[k] != 0
    ensures j < |s| ==> s[j] == 0
    decreases |s| - i
  {
    if i == |s| || s[i] == 0 then i else NulIndex(s, i + 1)
  }

  lemma {:induction false} NulIndexUnique(s: Bytes, i: nat, j: nat)
    requires i <= j <= |s|
    requires forall k | i <= k < j :: s[k] != 0
    requires j < |s| ==> s[j] == 0
    ensures NulIndex(s, i) == j
    decreases j - i
  {
    if i < j {
      NulIndexUnique(s, i + 1, j);
    }
  }

  /** The bytes of an ASCII literal. */
  function Ascii(t: string): (b: Bytes)
    ensures |b| == |t|
  {
    seq(|t|, i requires 0 <= i < |t| => t[i] as int % 0x80)
  }

  /** The number of bytes of the well-formed UTF-8 sequence that starts `s` (table 3-7 of the Unicode standard), 0 if none does. */
  function Utf8SequenceLength(s: Bytes): (n: nat)
    requires s != []
    ensures n <= |s|
  {
    var cont := (i: nat) => i < |s| && 0x80 <= s[i] <= 0xBF;
    var b := s[0];
    if b < 0x80 then 1
    else if 0xC2 <= b <= 0xDF then if cont(1) then 2 else 0
    else if 0xE0 <= b <= 0xEF then
      if cont(1) && cont(2) && (b == 0xE0 ==> s[1] >= 0xA0) && (b == 0xED ==> s[1] <= 0x9F) then 3 else 0
    else if 0xF0 <= b <= 0xF4 then
      if cont(1) && cont(2) && cont(3) && (b == 0xF0 ==> s[1] >= 0x90) && (b == 0xF4 ==> s[1] <= 0x8F) then 4 else 0
    else 0
  }

  predicate Utf8(s: Bytes) {
    s == [] || (Utf8SequenceLength(s) > 0 && Utf8(s[Utf8SequenceLength(s)..]))
  }

  lemma {:induction false} AsciiIsUtf8(s: Bytes)
    requires forall i | 0 <= i < |s| :: s[i] < 0x80
    ensures Utf8(s)
  {
    if s != [] {
      AsciiIsUtf8(s[1..]);
    }
  }

  lemma {:induction false} Utf8Append(a: Bytes, b: Bytes)
    requires Utf8(a) && Utf8(b)
    ensures Utf8(a + b)
    decreases |a|
  {
    if a == [] {
      assert a + b == b;
    } else {
      var n := Utf8SequenceLength(a);
      assert Utf8SequenceLength(a + b) == n;
      assert (a + b)[n..] == a[n..] + b;
      Utf8Append(a[n..], b);
    }
  }

  /** A string a NUL-terminated field can carry. */
  predicate Text(s: Bytes) {
    NulFree(s) && Utf8(s)
  }

  // ---------------------------------------------------------------- frames

  /** A message on the wire. */
  datatype Frame = Frame(tag: byte, payload: Bytes)

  /** Type byte, length field (which counts itself), payload. */
  function FrameBytes(f: Frame): (b: Bytes)
    ensures |b| == 5 + |f.payload|
  {
    [f.tag] + Be32(4 + |f.payload|) + f.payload
  }

  function FramesBytes(fs: seq<Frame>): (b: Bytes) {
    if fs == [] then [] else FrameBytes(fs[0]) + FramesBytes(fs[1..])
  }
}
