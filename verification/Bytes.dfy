/** Bytes, results and the two shapes in which the gateway handles byte strings. */
module Bytes {
  type Byte = bv8

  datatype Option<+T> = None | Some(value: T) {
    function GetOr(default: T): T {
      match this case None => default case Some(v) => v
    }
  }

  datatype Result<+T, +E> = Ok(value: T) | Err(error: E)

  function Value(b: Byte): (n: nat)
    ensures n < 256
  {
    b as nat
  }

  function ToByte(n: nat): Byte
    requires n < 256
  {
    n as Byte
  }

  lemma NextByte(b: Byte)
    requires b != 0xFF
    ensures (b + 1) as int == b as int + 1
  {
  }

  /** Every small number is the value of some byte. */
  lemma {:induction false} ByteWithValue(n: nat) returns (b: Byte)
    requires n < 256
    ensures b as int == n
  {
    b := 0;
    if n > 0 {
      var before := ByteWithValue(n - 1);
      NextByte(before);
      b := before + 1;
    }
  }

  lemma ByteOfNat(n: nat)
    requires n < 256
    ensures Value(ToByte(n)) == n
  {
    var b := ByteWithValue(n);
    NatOfByte(b);
  }

  lemma NatOfByte(b: Byte)
    ensures ToByte(Value(b)) == b
  {
  }

  /** The big-endian 16-bit number held in two bytes. */
  function Word16(hi: Byte, lo: Byte): (n: nat)
    ensures n < 0x10000
  {
    Value(hi) * 256 + Value(lo)
  }

  /** The two big-endian bytes of `n as u16`: the cast keeps the low 16 bits. */
  function Be16(n: nat): (b: seq<Byte>)
    ensures |b| == 2
  {
    [ToByte(n / 256 % 256), ToByte(n % 256)]
  }

  /** Writing a length and reading it back loses exactly what the 16-bit cast loses. */
  lemma Word16Be16(n: nat)
    ensures Word16(Be16(n)[0], Be16(n)[1]) == n % 0x10000
  {
    hide Value, ToByte;
    ByteOfNat(n / 256 % 256);
    ByteOfNat(n % 256);
    JoinWord(n);
  }

  lemma RemainderIs(n: nat, q: nat, r: nat)
    requires n == 0x10000 * q + r && r < 0x10000
    ensures n % 0x10000 == r
  {
  }

  lemma JoinWord(n: nat)
    ensures n / 256 % 256 * 256 + n % 256 == n % 0x10000
  {
    var high, low := n / 256, n % 256;
    assert n == 256 * high + low;
    assert high == 256 * (high / 256) + high % 256;
    RemainderIs(n, high / 256, 256 * (high % 256) + low);
  }

  lemma SplitWord(h: nat, l: nat)
    requires h < 256 && l < 256
    ensures (h * 256 + l) / 256 % 256 == h && (h * 256 + l) % 256 == l
  {
  }

  lemma Be16Word16(hi: Byte, lo: Byte)
    ensures Be16(Word16(hi, lo)) == [hi, lo]
  {
    hide Value, ToByte;
    NatOfByte(hi);
    NatOfByte(lo);
    SplitWord(Value(hi), Value(lo));
  }

  type U16 = n: nat | n < 0x10000

  type U32 = n: nat | n < 0x1_0000_0000

  /** Four big-endian bytes as an unsigned number, and back. */
  function Word32(b: seq<Byte>): U32
    requires |b| == 4
  {
    Word16(b[0], b[1]) * 0x10000 + Word16(b[2], b[3])
  }

  function Be32(n: U32): (b: seq<Byte>)
    ensures |b| == 4
  {
    Be16(n / 0x10000) + Be16(n % 0x10000)
  }

  /** The first of the four bytes is the most significant. */
  lemma Word32Weighs(b: seq<Byte>)
    requires |b| == 4
    ensures Word32(b) == Value(b[0]) * 0x100_0000 + Value(b[1]) * 0x1_0000 + Value(b[2]) * 0x100 + Value(b[3])
  {
    hide Value;
  }

  lemma Be32Word32(b: seq<Byte>)
    requires |b| == 4
    ensures Be32(Word32(b)) == b
  {
    hide Word16, Be16;
    var high, low := Word16(b[0], b[1]), Word16(b[2], b[3]);
    assert Word32(b) / 0x10000 == high && Word32(b) % 0x10000 == low;
    Be16Word16(b[0], b[1]);
    Be16Word16(b[2], b[3]);
  }

  lemma Word32Be32(n: U32)
    ensures Word32(Be32(n)) == n
  {
    hide Word16, Be16;
    Word16Be16(n / 0x10000);
    Word16Be16(n % 0x10000);
    var b := Be32(n);
    assert b[0] == Be16(n / 0x10000)[0] && b[1] == Be16(n / 0x10000)[1];
    assert b[2] == Be16(n % 0x10000)[0] && b[3] == Be16(n % 0x10000)[1];
  }

  function Flatten<T>(parts: seq<seq<T>>): seq<T> {
    if parts == [] then [] else parts[0] + Flatten(parts[1..])
  }

  lemma Associative<T>(a: seq<T>, b: seq<T>, c: seq<T>)
    ensures (a + b) + c == a + (b + c)
  {
  }

  lemma AppendSplits<T>(a: seq<T>, b: seq<T>)
    requires a != []
    ensures (a + b)[0] == a[0] && (a + b)[1..] == a[1..] + b
  {
  }

  lemma {:induction false} FlattenAppend<T>(parts: seq<seq<T>>, more: seq<seq<T>>)
    ensures Flatten(parts + more) == Flatten(parts) + Flatten(more)
  {
    if parts == [] {
      assert parts + more == more;
    } else {
      AppendSplits(parts, more);
      FlattenAppend(parts[1..], more);
      Associative(parts[0], Flatten(parts[1..]), Flatten(more));
    }
  }

  /** `flatten_frames`: the frames of a capture, end to end. */
  method FlattenFrames(frames: seq<seq<Byte>>) returns (bytes: seq<Byte>)
    ensures bytes == Flatten(frames)
  {
    bytes := [];
    for i := 0 to |frames|
      invariant bytes == Flatten(frames[..i])
    {
      bytes := bytes + frames[i];
      assert frames[..i + 1] == frames[..i] + [frames[i]];
      FlattenAppend(frames[..i], [frames[i]]);
      assert Flatten([frames[i]]) == frames[i];
    }
    assert frames[..|frames|] == frames;
  }
}
