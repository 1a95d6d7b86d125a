/**
  Bytes, fixed-width unsigned integers and their little-endian layout, with the
  append-only writer and the advancing reader every codec of the library uses.
  The third-party buffer library behind them is not part of this model: a writer is the
  sequence written so far, a reader is a sequence and a position.
 */
module Bytes {
  import opened Wrappers

  type byte = x: int | 0 <= x < 0x100
  type u16 = x: int | 0 <= x < 0x1_0000
  type u32 = x: int | 0 <= x < 0x1_0000_0000
  type u64 = x: int | 0 <= x < 0x1_0000_0000_0000_0000
  type bytes = seq<byte>

  datatype ReadError = NotEnoughBytes

  // Little-endian encodings

  function LE16(x: u16): (s: bytes)
    ensures |s| == 2
  {
    [x % 0x100, x / 0x100]
  }

  function LE32(x: u32): (s: bytes)
    ensures |s| == 4
  {
    LE16(x % 0x1_0000) + LE16(x / 0x1_0000)
  }

  function LE64(x: u64): (s: bytes)
    ensures |s| == 8
  {
    LE32(x % 0x1_0000_0000) + LE32(x / 0x1_0000_0000)
  }

  // Little-endian decodings at a position; the caller checks the bounds

  function At16(s: bytes, p: nat): u16
    requires p + 2 <= |s|
  {
    var lo: int, hi: int := s[p], s[p + 1];
    lo + 0x100 * hi
  }

  function At32(s: bytes, p: nat): u32
    requires p + 4 <= |s|
  {
    At16(s, p) + 0x1_0000 * At16(s, p + 2)
  }

  function At64(s: bytes, p: nat): u64
    requires p + 8 <= |s|
  {
    At32(s, p) + 0x1_0000_0000 * At32(s, p + 4)
  }

  /** `s` holds `part` at position `p`. */
  predicate HoldsAt(s: bytes, p: nat, part: bytes) {
    p + |part| <= |s| && s[p..p + |part|] == part
  }

  lemma At16Holds(s: bytes, p: nat, x: u16)
    requires HoldsAt(s, p, LE16(x))
    ensures At16(s, p) == x
  {
    assert s[p] == s[p..p + 2][0] && s[p + 1] == s[p..p + 2][1];
  }

  lemma HoldsSplit(s: bytes, p: nat, a: bytes, b: bytes)
    requires HoldsAt(s, p, a + b)
    ensures HoldsAt(s, p, a) && HoldsAt(s, p + |a|, b)
  {
    var t := s[p..p + |a| + |b|];
    assert t[..|a|] == a && t[|a|..] == b;
    assert s[p..p + |a|] == t[..|a|];
    assert s[p + |a|..p + |a| + |b|] == t[|a|..];
  }

  lemma At32Holds(s: bytes, p: nat, x: u32)
    requires HoldsAt(s, p, LE32(x))
    ensures At32(s, p) == x
  {
    HoldsSplit(s, p, LE16(x % 0x1_0000), LE16(x / 0x1_0000));
    At16Holds(s, p, x % 0x1_0000);
    At16Holds(s, p + 2, x / 0x1_0000);
  }

  lemma At64Holds(s: bytes, p: nat, x: u64)
    requires HoldsAt(s, p, LE64(x))
    ensures At64(s, p) == x
  {
    HoldsSplit(s, p, LE32(x % 0x1_0000_0000), LE32(x / 0x1_0000_0000));
    At32Holds(s, p, x % 0x1_0000_0000);
    At32Holds(s, p + 4, x / 0x1_0000_0000);
  }

  /** The bytes of a field are the digits of its value to the base 256, lowest first. */
  lemma LittleEndian(x: u16, y: u32, z: u64)
    ensures var s := LE16(x); x == s[0] as int + 0x100 * s[1] as int
    ensures var s := LE32(y);
            y == s[0] as int + 0x100 * s[1] as int + 0x1_0000 * s[2] as int + 0x100_0000 * s[3] as int
    ensures var s := LE64(z);
            z == (s[0] as int + 0x100 * s[1] as int + 0x1_0000 * s[2] as int + 0x100_0000 * s[3] as int)
                 + 0x1_0000_0000 * (s[4] as int + 0x100 * s[5] as int + 0x1_0000 * s[6] as int + 0x100_0000 * s[7] as int)
  {
    HalvesDigits(y);
    HalvesDigits(z % 0x1_0000_0000);
    HalvesDigits(z / 0x1_0000_0000);
    hide LE32;
    var lo, hi := LE32(z % 0x1_0000_0000), LE32(z / 0x1_0000_0000);
    assert LE64(z) == lo + hi;
  }

  lemma HalvesDigits(y: u32)
    ensures var s := LE32(y);
            y == s[0] as int + 0x100 * s[1] as int + 0x1_0000 * s[2] as int + 0x100_0000 * s[3] as int
  {
  }

  /** A field holds the value that is read from it. */
  lemma Holds16(s: bytes, p: nat)
    requires p + 2 <= |s|
    ensures HoldsAt(s, p, LE16(At16(s, p)))
  {
  }

  lemma Halves32(lo: u16, hi: u16)
    ensures LE32(lo + 0x1_0000 * hi) == LE16(lo) + LE16(hi)
  {
    hide LE16;
    assert (lo + 0x1_0000 * hi) % 0x1_0000 == lo && (lo + 0x1_0000 * hi) / 0x1_0000 == hi;
  }

  lemma Halves64(lo: u32, hi: u32)
    ensures LE64(lo + 0x1_0000_0000 * hi) == LE32(lo) + LE32(hi)
  {
    hide LE32;
    assert (lo + 0x1_0000_0000 * hi) % 0x1_0000_0000 == lo && (lo + 0x1_0000_0000 * hi) / 0x1_0000_0000 == hi;
  }

  lemma Holds32(s: bytes, p: nat)
    requires p + 4 <= |s|
    ensures HoldsAt(s, p, LE32(At32(s, p)))
  {
    hide LE16, At16, HoldsAt, LE32;
    Holds16(s, p);
    Holds16(s, p + 2);
    HoldsBoth(s, p, LE16(At16(s, p)), LE16(At16(s, p + 2)));
    Halves32(At16(s, p), At16(s, p + 2));
  }

  lemma Holds64(s: bytes, p: nat)
    requires p + 8 <= |s|
    ensures HoldsAt(s, p, LE64(At64(s, p)))
  {
    hide LE32, At32, HoldsAt, LE64;
    Holds32(s, p);
    Holds32(s, p + 4);
    HoldsBoth(s, p, LE32(At32(s, p)), LE32(At32(s, p + 4)));
    Halves64(At32(s, p), At32(s, p + 4));
  }

  lemma HoldsBoth(s: bytes, p: nat, a: bytes, b: bytes)
    requires HoldsAt(s, p, a) && HoldsAt(s, p + |a|, b)
    ensures HoldsAt(s, p, a + b)
  {
    assert s[p..p + |a| + |b|] == s[p..p + |a|] + s[p + |a|..p + |a| + |b|];
  }

  class ByteWriter {
    var written: bytes

    constructor ()
      ensures written == []
    {
      written := [];
    }

    method WriteU8(x: byte)
      modifies this
      ensures written == old(written) + [x]
    {
      written := written + [x];
    }

    method WriteU16(x: u16)
      modifies this
      ensures written == old(written) + LE16(x)
    {
      written := written + LE16(x);
    }

    method WriteU32(x: u32)
      modifies this
      ensures written == old(written) + LE32(x)
    {
      written := written + LE32(x);
    }

    method WriteU64(x: u64)
      modifies this
      ensures written == old(written) + LE64(x)
    {
      written := written + LE64(x);
    }

    method WriteBytes(s: bytes)
      modifies this
      ensures written == old(written) + s
    {
      written := written + s;
    }

    /** Overwrites bytes already written, as performAt does. */
    method Patch(p: nat, s: bytes)
      requires p + |s| <= |written|
      modifies this
      ensures written == old(written)[..p] + s + old(written)[p + |s|..]
    {
      written := written[..p] + s + written[p + |s|..];
    }
  }

  class ByteReader {
    const data: bytes
    var pos: nat

    ghost predicate Valid()
      reads this
    {
      pos <= |data|
    }

    constructor (data: bytes)
      ensures this.data == data && pos == 0 && Valid()
    {
      this.data := data;
      pos := 0;
    }

    method Skip(n: nat) returns (r: Result<(), ReadError>)
      requires Valid()
      modifies this
      ensures Valid()
      ensures r.Ok? <==> old(pos) + n <= |data|
      ensures pos == if r.Ok? then old(pos) + n else old(pos)
    {
      if n <= |data| - pos {
        pos := pos + n;
        r := Ok(());
      } else {
        r := Err(NotEnoughBytes);
      }
    }

    method ReadU8() returns (r: Result<byte, ReadError>)
      requires Valid()
      modifies this
      ensures Valid()
      ensures r.Ok? <==> old(pos) + 1 <= |data|
      ensures pos == if r.Ok? then old(pos) + 1 else old(pos)
      ensures r.Ok? ==> r.value == data[old(pos)]
    {
      if pos < |data| {
        pos := pos + 1;
        r := Ok(data[pos - 1]);
      } else {
        r := Err(NotEnoughBytes);
      }
    }

    method ReadU16() returns (r: Result<u16, ReadError>)
      requires Valid()
      modifies this
      ensures Valid()
      ensures r.Ok? <==> old(pos) + 2 <= |data|
      ensures pos == if r.Ok? then old(pos) + 2 else old(pos)
      ensures r.Ok? ==> r.value == At16(data, old(pos))
    {
      if pos + 2 <= |data| {
        pos := pos + 2;
        r := Ok(At16(data, pos - 2));
      } else {
        r := Err(NotEnoughBytes);
      }
    }

    method ReadU32() returns (r: Result<u32, ReadError>)
      requires Valid()
      modifies this
      ensures Valid()
      ensures r.Ok? <==> old(pos) + 4 <= |data|
      ensures pos == if r.Ok? then old(pos) + 4 else old(pos)
      ensures r.Ok? ==> r.value == At32(data, old(pos))
    {
      if pos + 4 <= |data| {
        pos := pos + 4;
        r := Ok(At32(data, pos - 4));
      } else {
        r := Err(NotEnoughBytes);
      }
    }

    method ReadU64() returns (r: Result<u64, ReadError>)
      requires Valid()
      modifies this
      ensures Valid()
      ensures r.Ok? <==> old(pos) + 8 <= |data|
      ensures pos == if r.Ok? then old(pos) + 8 else old(pos)
      ensures r.Ok? ==> r.value == At64(data, old(pos))
    {
      if pos + 8 <= |data| {
        pos := pos + 8;
        r := Ok(At64(data, pos - 8));
      } else {
        r := Err(NotEnoughBytes);
      }
    }

    method ReadBytes(n: nat) returns (r: Result<bytes, ReadError>)
      requires Valid()
      modifies this
      ensures Valid()
      ensures r.Ok? <==> old(pos) + n <= |data|
      ensures pos == if r.Ok? then old(pos) + n else old(pos)
      ensures r.Ok? ==> r.value == data[old(pos)..old(pos) + n]
    {
      if pos + n <= |data| {
        pos := pos + n;
        r := Ok(data[pos - n..pos]);
      } else {
        r := Err(NotEnoughBytes);
      }
    }

    method ReadToEnd() returns (s: bytes)
      requires Valid()
      modifies this
      ensures Valid() && pos == |data|
      ensures s == data[old(pos)..]
    {
      s := data[pos..];
      pos := |data|;
    }
  }

  lemma Regroup(a: bytes, b: bytes, c: bytes)
    ensures (a + b) + c == a + (b + c)
  {
  }
}
