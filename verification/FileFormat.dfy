/** The compressed file: an optional checksum, the size, and the bit stream, numbers low byte first. */
module FileFormat {
  import opened Bits
  import opened Crc

  function LE16(v: sum16): (b: seq<byte>)
    ensures |b| == 2
  {
    [v % 256, v / 256]
  }

  /** The 32-bit two's complement of v. */
  function LE32(v: int): (b: seq<byte>)
    requires -0x8000_0000 <= v < 0x8000_0000
    ensures |b| == 4
  {
    var u := if v < 0 then v + 0x1_0000_0000 else v;
    [u % 256, u / 256 % 256, u / 65536 % 256, u / 16777216]
  }

  function FromLE16(b: seq<byte>): (v: sum16)
    requires |b| == 2
  {
    var lo: int, hi: int := b[0], b[1];
    lo + 256 * hi
  }

  function FromLE32(b: seq<byte>): (v: int)
    requires |b| == 4
    ensures -0x8000_0000 <= v < 0x8000_0000
  {
    var b0: int, b1: int, b2: int, b3: int := b[0], b[1], b[2], b[3];
    var u := b0 + 256 * b1 + 65536 * b2 + 16777216 * b3;
    if u >= 0x8000_0000 then u - 0x1_0000_0000 else u
  }

  lemma LE16RoundTrip(v: sum16)
    ensures FromLE16(LE16(v)) == v
  {
  }

  lemma LE32RoundTrip(v: int)
    requires -0x8000_0000 <= v < 0x8000_0000
    ensures FromLE32(LE32(v)) == v
  {
    Digits(if v < 0 then v + 0x1_0000_0000 else v);
  }

  /** The low byte comes first, and the number goes on with what is above it; numbers below 0 end in all ones. */
  lemma ByteOrder(v: int, b: byte)
    requires -0x80_0000 <= v < 0x80_0000
    ensures LE32(256 * v + b) == [b] + LE32(v)[..3]
    ensures LE32(0) == [0, 0, 0, 0] && LE32(-1) == [255, 255, 255, 255]
  {
    hide LE32;
    LE32Ends();
    LE32Is(256 * v + b);
    LE32Is(v);
    var x := if v < 0 then v + 0x100_0000 else v;
    BytesAbove(x, b);
    BytesBelow(x, if v < 0 then 255 else 0);
    LowThree(LE32(v));
  }

  lemma LE32Ends()
    ensures LE32(0) == [0, 0, 0, 0] && LE32(-1) == [255, 255, 255, 255]
  {
  }

  lemma LE32Is(v: int)
    requires -0x8000_0000 <= v < 0x8000_0000
    ensures var u := if v < 0 then v + 0x1_0000_0000 else v;
            LE32(v) == [u % 256, u / 256 % 256, u / 65536 % 256, u / 16777216]
  {
  }

  lemma LowThree(s: seq<byte>)
    requires |s| == 4
    ensures s[..3] == [s[0], s[1], s[2]]
  {
  }

  lemma BytesAbove(x: nat, b: byte)
    ensures var w := 256 * x + b; w % 256 == b && w / 256 == x && w / 65536 == x / 256 && w / 16777216 == x / 65536
  {
    var w := 256 * x + b;
    assert w / 256 == x;
    assert w / 65536 == w / 256 / 256 && w / 16777216 == w / 256 / 65536;
  }

  lemma BytesBelow(x: nat, k: nat)
    ensures var u := x + 16777216 * k;
            u % 256 == x % 256 && u / 256 % 256 == x / 256 % 256 && u / 65536 % 256 == x / 65536 % 256
  {
    var u := x + 16777216 * k;
    LowPart(x, 65536 * k, 256);
    LowPart(x, 256 * k, 65536);
    LowPart(x / 256, 256 * k, 256);
    LowPart(x / 65536, k, 256);
  }

  lemma LowPart(x: nat, k: nat, m: nat)
    requires m > 0
    ensures (x + m * k) % m == x % m && (x + m * k) / m == x / m + k
  {
    var u, q := x + m * k, x / m;
    assert u == m * (q + k) + x % m by {
      assert x == m * q + x % m;
      assert m * (q + k) == m * q + m * k;
    }
    ModUnique(u, m, q + k, x % m);
    assert m * (u / m) == m * (q + k);
    SameFactor(m, u / m, q + k);
  }

  lemma SameFactor(m: nat, a: nat, b: nat)
    requires m > 0 && m * a == m * b
    ensures a == b
  {
    assert m * (a - b) == 0;
  }

  /** Every four bytes are the number they read as. */
  lemma FromLE32RoundTrip(b: seq<byte>)
    requires |b| == 4
    ensures LE32(FromLE32(b)) == b
  {
    var b0: int, b1: int, b2: int, b3: int := b[0], b[1], b[2], b[3];
    BytesAbove(b1 + 256 * b2 + 65536 * b3, b[0]);
    BytesAbove(b2 + 256 * b3, b[1]);
    BytesAbove(b3, b[2]);
  }

  /** Two bytes, low one first. */
  lemma LE16Order(h: byte, l: byte)
    ensures LE16(256 * h + l) == [l, h]
  {
  }

  lemma Digits(u: nat)
    ensures u % 256 + 256 * (u / 256 % 256) + 65536 * (u / 65536 % 256) + 16777216 * (u / 16777216) == u
  {
    var q, r := u / 256, u / 65536;
    assert q / 256 == r && r / 256 == u / 16777216;
    assert q == 256 * r + q % 256;
    assert r == 256 * (u / 16777216) + r % 256;
  }

  /** Checksum, if asked for, of all that follows it. */
  function File(crc16: bool, size: int, payload: seq<byte>): (f: seq<byte>)
    requires -0x8000_0000 <= size < 0x8000_0000
  {
    var body := LE32(size) + payload;
    if crc16 then LE16(Checksum(body)) + body else body
  }
}
