/** Little-endian fields: the writer that appends them and the reader that takes them. */
module Codecs {
  import opened Basics
  import opened Checksums

  // ---- bytes and numbers -------------------------------------------------------------

  /** The byte with a given value, from its binary digits. */
  function ToByte(x: nat): byte {
    if x == 0 then 0 else (ToByte(x / 2) << 1) | (if x % 2 == 1 then 1 else 0)
  }

  lemma AppendDigit(b: byte, d: int)
    requires b as int < 128 && 0 <= d < 2
    ensures ((b << 1) | (if d == 1 then 1 else 0)) as int == 2 * (b as int) + d
  {
  }

  lemma {:induction false} ByteValue(x: nat)
    requires x < 256
    ensures ToByte(x) as int == x
  {
    if x > 0 {
      ByteValue(x / 2);
      AppendDigit(ToByte(x / 2), x % 2);
    }
  }

  function Pow256(n: nat): (p: int)
    ensures p > 0
  {
    if n == 0 then 1 else 256 * Pow256(n - 1)
  }

  /** The low n bytes of a number, lowest first; a negative number in two's complement. */
  function LittleEndian(v: int, n: nat): (r: seq<byte>)
    ensures |r| == n
    decreases n
  {
    if n == 0 then [] else [ToByte(v % 256)] + LittleEndian(v / 256, n - 1)
  }

  function Unsigned(b: seq<byte>): nat {
    if b == [] then 0 else b[0] as int + 256 * Unsigned(b[1..])
  }

  function Signed(u: int, n: nat): int
    requires n > 0
  {
    if u >= 128 * Pow256(n - 1) then u - Pow256(n) else u
  }

  lemma {:induction false} LittleEndianValue(v: int, n: nat)
    requires -Pow256(n) <= v < Pow256(n)
    ensures Unsigned(LittleEndian(v, n)) == if v < 0 then v + Pow256(n) else v
    decreases n
  {
    if n > 0 {
      ByteValue(v % 256);
      LittleEndianValue(v / 256, n - 1);
    }
  }

  lemma {:induction false} UnsignedBound(b: seq<byte>)
    ensures Unsigned(b) < Pow256(|b|)
  {
    if b != [] {
      UnsignedBound(b[1..]);
    }
  }

  lemma {:induction false} UnsignedSnoc(b: seq<byte>, x: byte)
    ensures Unsigned(b + [x]) == Unsigned(b) + Pow256(|b|) * (x as int)
  {
    if b == [] {
      assert (b + [x])[1..] == [];
    } else {
      assert (b + [x])[1..] == b[1..] + [x];
      UnsignedSnoc(b[1..], x);
      Reassociate(Pow256(|b| - 1), x as int);
    }
  }

  lemma Reassociate(p: int, d: int)
    ensures 256 * (p * d) == (256 * p) * d
  {
  }

  lemma Powers()
    ensures Pow256(1) == 0x100 && Pow256(2) == 0x1_0000 && Pow256(3) == 0x100_0000
    ensures Pow256(4) == 0x1_0000_0000 && Pow256(7) == 0x100_0000_0000_0000
    ensures Pow256(8) == 0x1_0000_0000_0000_0000
  {
    assert Pow256(5) == 256 * Pow256(4) && Pow256(6) == 256 * Pow256(5);
  }

  // ---- fields ------------------------------------------------------------------------

  datatype Field = Field(value: int, width: nat)

  function U8(v: int): Field { Field(v, 1) }
  function U32(v: int): Field { Field(v, 4) }
  function U64(v: int): Field { Field(v, 8) }

  function Bytes(fs: seq<Field>): seq<byte> {
    if fs == [] then [] else LittleEndian(fs[0].value, fs[0].width) + Bytes(fs[1..])
  }

  lemma {:induction false} BytesAppend(a: seq<Field>, b: seq<Field>)
    ensures Bytes(a + b) == Bytes(a) + Bytes(b)
  {
    if a == [] {
      assert a + b == b;
    } else {
      assert (a + b)[1..] == a[1..] + b;
      BytesAppend(a[1..], b);
    }
  }

  // ---- reading -----------------------------------------------------------------------

  /** What is left to read, and whether every read so far found enough bytes. */
  datatype Cursor = Cursor(rest: seq<byte>, ok: bool)

  function Read(c: Cursor, width: nat): (nat, Cursor) {
    if |c.rest| < width then (0, c.(ok := false))
    else (Unsigned(c.rest[..width]), c.(rest := c.rest[width..]))
  }

  function ReadSigned(c: Cursor, width: nat): (int, Cursor)
    requires width > 0
  {
    var (u, next) := Read(c, width);
    (Signed(u, width), next)
  }

  /** The value a field has after two's-complement storage, read back unsigned. */
  predicate InRange(f: Field) {
    0 <= f.value < Pow256(f.width)
  }

  predicate InSignedRange(f: Field) {
    f.width > 0 && -128 * Pow256(f.width - 1) <= f.value < 128 * Pow256(f.width - 1)
  }

  /** Reading takes the first field off a list of fields. */
  lemma ReadField(f: Field, rest: seq<Field>)
    ensures var c := Cursor(Bytes([f] + rest), true);
      && Read(c, f.width).1 == Cursor(Bytes(rest), true)
      && (InRange(f) ==> Read(c, f.width).0 == f.value)
      && (InSignedRange(f) ==> ReadSigned(c, f.width) == (f.value, Cursor(Bytes(rest), true)))
  {
    var all := Bytes([f] + rest);
    assert ([f] + rest)[1..] == rest;
    assert all[..f.width] == LittleEndian(f.value, f.width) && all[f.width..] == Bytes(rest);
    if InRange(f) || InSignedRange(f) {
      LittleEndianValue(f.value, f.width);
    }
  }

  /** The ranges of the source's integer types. */
  predicate U32Range(x: int) { 0 <= x < 0x1_0000_0000 }
  predicate U64Range(x: int) { 0 <= x < 0x1_0000_0000_0000_0000 }
  predicate I32Range(x: int) { -0x8000_0000 <= x < 0x8000_0000 }
  predicate I64Range(x: int) { -0x8000_0000_0000_0000 <= x < 0x8000_0000_0000_0000 }

  lemma ReadU8(v: int, rest: seq<Field>)
    requires 0 <= v < 256
    ensures Read(Cursor(Bytes([U8(v)] + rest), true), 1) == (v, Cursor(Bytes(rest), true))
  {
    Powers();
    ReadField(U8(v), rest);
  }

  lemma ReadU32(v: int, rest: seq<Field>)
    requires U32Range(v)
    ensures Read(Cursor(Bytes([U32(v)] + rest), true), 4) == (v, Cursor(Bytes(rest), true))
  {
    Powers();
    ReadField(U32(v), rest);
  }

  lemma ReadU64(v: int, rest: seq<Field>)
    requires U64Range(v)
    ensures Read(Cursor(Bytes([U64(v)] + rest), true), 8) == (v, Cursor(Bytes(rest), true))
  {
    Powers();
    ReadField(U64(v), rest);
  }

  lemma ReadI32(v: int, rest: seq<Field>)
    requires I32Range(v)
    ensures ReadSigned(Cursor(Bytes([U32(v)] + rest), true), 4) == (v, Cursor(Bytes(rest), true))
  {
    Powers();
    ReadField(U32(v), rest);
  }

  lemma ReadI64(v: int, rest: seq<Field>)
    requires I64Range(v)
    ensures ReadSigned(Cursor(Bytes([U64(v)] + rest), true), 8) == (v, Cursor(Bytes(rest), true))
  {
    Powers();
    ReadField(U64(v), rest);
  }

  lemma ReadBound(c: Cursor, width: nat)
    ensures Read(c, width).0 < Pow256(width)
  {
    if |c.rest| >= width {
      UnsignedBound(c.rest[..width]);
    }
  }

  // ---- lists of records ----------------------------------------------------------------

  function WriteMany<T>(write: (T, seq<Field>) -> seq<Field>, xs: seq<T>, rest: seq<Field>): seq<Field> {
    if xs == [] then rest else write(xs[0], WriteMany(write, xs[1..], rest))
  }

  function ReadMany<T>(read: Cursor -> (T, Cursor), c: Cursor, n: nat, acc: seq<T>): (seq<T>, Cursor)
    decreases n
  {
    if n == 0 then (acc, c)
    else
      var (x, next) := read(c);
      ReadMany(read, next, n - 1, acc + [x])
  }

  /** Reading what was written gives the record back, changed at most by `back`. */
  ghost predicate ReadsBack<T(!new)>(
    read: Cursor -> (T, Cursor), write: (T, seq<Field>) -> seq<Field>, back: T -> T, xs: seq<T>)
  {
    forall x, rest :: x in xs ==> read(Cursor(Bytes(write(x, rest)), true)) == (back(x), Cursor(Bytes(rest), true))
  }

  lemma {:induction false} ReadManyBack<T(!new)>(
    read: Cursor -> (T, Cursor), write: (T, seq<Field>) -> seq<Field>, back: T -> T,
    xs: seq<T>, rest: seq<Field>, acc: seq<T>)
    requires ReadsBack(read, write, back, xs)
    ensures ReadMany(read, Cursor(Bytes(WriteMany(write, xs, rest)), true), |xs|, acc)
      == (acc + Map(back, xs), Cursor(Bytes(rest), true))
    decreases |xs|
  {
    hide Bytes;
    if xs == [] {
      assert acc + Map(back, xs) == acc;
    } else {
      var tail := WriteMany(write, xs[1..], rest);
      assert xs[0] in xs;
      assert read(Cursor(Bytes(write(xs[0], tail)), true)) == (back(xs[0]), Cursor(Bytes(tail), true));
      ReadManyBack(read, write, back, xs[1..], rest, acc + [back(xs[0])]);
      assert (acc + [back(xs[0])]) + Map(back, xs[1..]) == acc + Map(back, xs);
    }
  }

  lemma ReadAllBack<T(!new)>(
    read: Cursor -> (T, Cursor), write: (T, seq<Field>) -> seq<Field>, back: T -> T, xs: seq<T>, rest: seq<Field>)
    requires ReadsBack(read, write, back, xs)
    ensures ReadMany(read, Cursor(Bytes(WriteMany(write, xs, rest)), true), |xs|, [])
      == (Map(back, xs), Cursor(Bytes(rest), true))
  {
    ReadManyBack(read, write, back, xs, rest, []);
    assert [] + Map(back, xs) == Map(back, xs);
  }

  // ---- the buffers as objects ----------------------------------------------------------

  class Writer {
    var buf: seq<byte>
    ghost var fields: seq<Field>

    ghost predicate Valid()
      reads this
    {
      buf == Bytes(fields)
    }

    constructor ()
      ensures Valid() && fields == []
    {
      buf, fields := [], [];
    }

    /** `rest` names whatever is to be written after this field. */
    method Put(v: int, width: nat, ghost rest: seq<Field>)
      requires Valid()
      modifies this
      ensures Valid() && fields == old(fields) + [Field(v, width)]
      ensures fields + rest == old(fields) + ([Field(v, width)] + rest)
    {
      var left := v;
      for i := 0 to width
        invariant fields == old(fields)
        invariant buf + LittleEndian(left, width - i) == old(buf) + LittleEndian(v, width)
      {
        assert LittleEndian(left, width - i) == [ToByte(left % 256)] + LittleEndian(left / 256, width - i - 1);
        buf := buf + [ToByte(left % 256)];
        left := left / 256;
      }
      assert buf + LittleEndian(left, 0) == buf;
      fields := fields + [Field(v, width)];
      BytesAppend(old(fields), [Field(v, width)]);
      assert [Field(v, width)][1..] == [];
      assert Bytes([Field(v, width)]) == LittleEndian(v, width);
    }
  }

  class Reader {
    const p: seq<byte>
    var pos: nat
    var ok: bool

    ghost predicate Valid()
      reads this
    {
      pos <= |p|
    }

    ghost function View(): Cursor
      requires Valid()
      reads this
    {
      Cursor(p[pos..], ok)
    }

    constructor (p: seq<byte>, start: nat)
      requires start <= |p|
      ensures Valid() && View() == Cursor(p[start..], true) && this.p == p
    {
      this.p := p;
      pos, ok := start, true;
    }

    method Take(k: nat) returns (enough: bool)
      requires Valid()
      modifies this
      ensures Valid()
      ensures enough == (old(pos) + k <= |p|)
      ensures enough ==> pos == old(pos) + k && ok == old(ok)
      ensures !enough ==> pos == old(pos) && !ok
    {
      if pos + k > |p| {
        ok := false;
        return false;
      }
      pos := pos + k;
      return true;
    }

    method Get(width: nat) returns (v: nat)
      requires Valid()
      modifies this
      ensures Valid() && (v, View()) == Read(old(View()), width)
    {
      ghost var before := p[pos..];
      var enough := Take(width);
      if !enough {
        return 0;
      }
      var start := pos - width;
      assert before[width..] == p[pos..];
      v := 0;
      var scale := 1;
      for i := 0 to width
        invariant scale == Pow256(i) && v == Unsigned(before[..i])
        invariant pos == start + width <= |p| && before == p[start..] && ok == old(ok)
      {
        assert before[..i + 1] == before[..i] + [p[start + i]];
        UnsignedSnoc(before[..i], p[start + i]);
        v := v + scale * (p[start + i] as int);
        scale := scale * 256;
      }
    }

    method GetSigned(width: nat) returns (v: int)
      requires Valid() && width > 0
      modifies this
      ensures Valid() && (v, View()) == ReadSigned(old(View()), width)
    {
      var u := Get(width);
      v := Signed(u, width);
    }
  }
}
