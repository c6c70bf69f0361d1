/** Little-endian encodings of numbers, strings and lists in a byte sequence, and reading them back. */
module Bytes {
  import opened Results
  import opened Seqs
  import opened Bits

  type Byte = n: nat | n < 256

  /** Reads a value off the front of the bytes. */
  type Reader<T> = seq<Byte> -> Result<(T, seq<Byte>)>

  // ---- Numbers ----

  /** The n low bytes of v, least significant first. */
  function Low(v: nat, n: nat): (r: seq<Byte>)
    ensures |r| == n
  {
    if n == 0 then [] else [v % 256] + Low(v / 256, n - 1)
  }

  function FromLow(bs: seq<Byte>): nat {
    if bs == [] then 0 else bs[0] + 256 * FromLow(bs[1..])
  }

  function Limit(n: nat): (m: nat)
    ensures m >= 1
  {
    if n == 0 then 1 else 256 * Limit(n - 1)
  }

  lemma {:induction false} LowRoundTrip(v: nat, n: nat)
    requires v < Limit(n)
    ensures FromLow(Low(v, n)) == v
  {
    if n > 0 {
      LowRoundTrip(v / 256, n - 1);
      assert Low(v, n)[1..] == Low(v / 256, n - 1);
    }
  }

  lemma Limits()
    ensures Limit(1) == 0x100 && Limit(4) == 0x1_0000_0000 && Limit(8) == 0x1_0000_0000_0000_0000
  {
    assert Limit(2) == 0x1_0000 && Limit(3) == 0x100_0000;
    assert Limit(5) == 0x100_0000_0000 && Limit(6) == 0x1_0000_0000_0000 && Limit(7) == 0x100_0000_0000_0000;
  }

  function ReadBytes(n: nat, bs: seq<Byte>): Result<(seq<Byte>, seq<Byte>)> {
    if n <= |bs| then Ok((bs[..n], bs[n..])) else Err
  }

  function ReadNumber(n: nat, bs: seq<Byte>): Result<(nat, seq<Byte>)> {
    var b :- ReadBytes(n, bs);
    Ok((FromLow(b.0), b.1))
  }

  function U8(v: nat): seq<Byte> { Low(v, 1) }

  function U32(v: nat): seq<Byte> { Low(v, 4) }

  function U64(v: nat): seq<Byte> { Low(v, 8) }

  function ReadU8(bs: seq<Byte>): Result<(nat, seq<Byte>)> { ReadNumber(1, bs) }

  function ReadU32(bs: seq<Byte>): Result<(nat, seq<Byte>)> { ReadNumber(4, bs) }

  function ReadU64(bs: seq<Byte>): Result<(nat, seq<Byte>)> { ReadNumber(8, bs) }

  /** An int64 as the word that has its bit pattern, and back. */
  function ToWord(i: int): nat {
    if i < 0 then (i + 0x1_0000_0000_0000_0000) % 0x1_0000_0000_0000_0000 else i
  }

  function ToSigned(w: nat): int {
    if w < 0x8000_0000_0000_0000 then w else w - 0x1_0000_0000_0000_0000
  }

  predicate FitsInt64(i: int) {
    -0x8000_0000_0000_0000 <= i < 0x8000_0000_0000_0000
  }

  function I64(i: int): seq<Byte> { U64(ToWord(i)) }

  function ReadI64(bs: seq<Byte>): Result<(int, seq<Byte>)> {
    var w :- ReadU64(bs);
    Ok((ToSigned(w.0), w.1))
  }

  // ---- Strings ----

  function Text(s: seq<Byte>): seq<Byte> {
    U64(|s|) + s
  }

  function ReadText(bs: seq<Byte>): Result<(seq<Byte>, seq<Byte>)> {
    var n :- ReadU64(bs);
    ReadBytes(n.0, n.1)
  }

  // ---- Lists ----

  function Many<T>(write: T -> seq<Byte>, xs: seq<T>): seq<Byte> {
    if xs == [] then [] else write(xs[0]) + Many(write, xs[1..])
  }

  function ReadMany<T>(read: Reader<T>, n: nat, bs: seq<Byte>): (r: Result<(seq<T>, seq<Byte>)>)
    ensures r.Ok? ==> |r.value.0| == n
  {
    if n == 0 then Ok(([], bs))
    else
      var x :- read(bs);
      var xs :- ReadMany(read, n - 1, x.1);
      Ok(([x.0] + xs.0, xs.1))
  }

  /** A counted list. */
  function List<T>(write: T -> seq<Byte>, xs: seq<T>): seq<Byte> {
    U64(|xs|) + Many(write, xs)
  }

  function ReadList<T>(read: Reader<T>, bs: seq<Byte>): Result<(seq<T>, seq<Byte>)> {
    var n :- ReadU64(bs);
    ReadMany(read, n.0, n.1)
  }

  // ---- Reading undoes writing ----

  /** Whatever follows, x is read back. */
  predicate Undoes<T(==)>(read: Reader<T>, x: T, written: seq<Byte>, rest: seq<Byte>) {
    read(written + rest) == Ok((x, rest))
  }

  ghost predicate Inverse<T(!new)>(write: T -> seq<Byte>, read: Reader<T>, ok: T -> bool) {
    forall x, rest :: ok(x) ==> Undoes(read, x, write(x), rest)
  }

  lemma NumberBack(v: nat, n: nat, rest: seq<Byte>)
    requires v < Limit(n)
    ensures ReadNumber(n, Low(v, n) + rest) == Ok((v, rest))
  {
    LowRoundTrip(v, n);
    var bs := Low(v, n) + rest;
    assert bs[..n] == Low(v, n) && bs[n..] == rest;
  }

  predicate IsWord(n: nat) {
    n < 0x1_0000_0000_0000_0000
  }

  lemma NumbersBack()
    ensures Inverse(U8, ReadU8, n => n < 0x100)
    ensures Inverse(U32, ReadU32, n => n < 0x1_0000_0000)
    ensures Inverse(U64, ReadU64, IsWord)
  {
    Limits();
    forall v: nat, n: nat, rest: seq<Byte> | v < Limit(n) ensures ReadNumber(n, Low(v, n) + rest) == Ok((v, rest)) {
      NumberBack(v, n, rest);
    }
  }

  lemma WordBack(v: nat, rest: seq<Byte>)
    requires v < 0x1_0000_0000_0000_0000
    ensures ReadU64(U64(v) + rest) == Ok((v, rest))
  {
    Limits();
    NumberBack(v, 8, rest);
  }

  lemma SignedBack()
    ensures Inverse(I64, ReadI64, FitsInt64)
  {
    forall i: int, rest: seq<Byte> | FitsInt64(i) ensures Undoes(ReadI64, i, I64(i), rest) {
      WordBack(ToWord(i), rest);
    }
  }

  predicate ShortText(s: seq<Byte>) {
    |s| < 0x1_0000_0000_0000_0000
  }

  lemma TextBack()
    ensures Inverse(Text, ReadText, ShortText)
  {
    forall s: seq<Byte>, rest: seq<Byte> | ShortText(s) ensures Undoes(ReadText, s, Text(s), rest) {
      Regroup(U64(|s|), s, rest);
      WordBack(|s|, s + rest);
      assert (s + rest)[..|s|] == s && (s + rest)[|s|..] == rest;
    }
  }

  lemma {:induction false} ManyBack<T(!new)>(write: T -> seq<Byte>, read: Reader<T>, ok: T -> bool, xs: seq<T>, rest: seq<Byte>)
    requires Inverse(write, read, ok) && forall x :: x in xs ==> ok(x)
    ensures ReadMany(read, |xs|, Many(write, xs) + rest) == Ok((xs, rest))
    decreases |xs|
  {
    if xs != [] {
      ManyBack(write, read, ok, xs[1..], rest);
      Regroup(write(xs[0]), Many(write, xs[1..]), rest);
      assert Undoes(read, xs[0], write(xs[0]), Many(write, xs[1..]) + rest);
      assert xs == [xs[0]] + xs[1..];
    } else {
      AddNothing(rest);
    }
  }

  predicate ShortList<T>(xs: seq<T>, ok: T -> bool) {
    |xs| < 0x1_0000_0000_0000_0000 && forall i :: 0 <= i < |xs| ==> ok(xs[i])
  }

  lemma ListBack<T(!new)>(write: T -> seq<Byte>, read: Reader<T>, ok: T -> bool, xs: seq<T>, rest: seq<Byte>)
    requires Inverse(write, read, ok) && ShortList(xs, ok)
    ensures ReadList(read, List(write, xs) + rest) == Ok((xs, rest))
  {
    Regroup(U64(|xs|), Many(write, xs), rest);
    WordBack(|xs|, Many(write, xs) + rest);
    ManyBack(write, read, ok, xs, rest);
  }

  // ---- More bytes at the end change nothing ----

  /** If p is accepted, p followed by s is accepted with the same value, and s is left over. */
  predicate Extends<T(==)>(read: Reader<T>, p: seq<Byte>, s: seq<Byte>) {
    var r := read(p);
    r.Ok? ==> read(p + s) == Ok((r.value.0, r.value.1 + s))
  }

  ghost predicate Stable<T(!new)>(read: Reader<T>) {
    forall p, s :: Extends(read, p, s)
  }

  lemma BytesExtend(n: nat, p: seq<Byte>, s: seq<Byte>)
    requires ReadBytes(n, p).Ok?
    ensures ReadBytes(n, p + s) == Ok((ReadBytes(n, p).value.0, ReadBytes(n, p).value.1 + s))
  {
    assert (p + s)[..n] == p[..n] && (p + s)[n..] == p[n..] + s;
  }

  lemma NumbersStable()
    ensures Stable(ReadU8) && Stable(ReadU32) && Stable(ReadU64) && Stable(ReadI64)
  {
    forall n: nat, p: seq<Byte>, s: seq<Byte> | ReadNumber(n, p).Ok?
      ensures ReadNumber(n, p + s) == Ok((ReadNumber(n, p).value.0, ReadNumber(n, p).value.1 + s))
    {
      BytesExtend(n, p, s);
    }
  }

  lemma TextStable()
    ensures Stable(ReadText)
  {
    forall p, s ensures Extends(ReadText, p, s) {
      NumbersStable();
      assert Extends(ReadU64, p, s);
      if ReadText(p).Ok? {
        var n := ReadU64(p).value;
        BytesExtend(n.0, n.1, s);
      }
    }
  }

  lemma {:induction false} ManyExtend<T(!new)>(read: Reader<T>, n: nat, p: seq<Byte>, s: seq<Byte>)
    requires Stable(read) && ReadMany(read, n, p).Ok?
    ensures ReadMany(read, n, p + s) == Ok((ReadMany(read, n, p).value.0, ReadMany(read, n, p).value.1 + s))
  {
    if n > 0 {
      assert Extends(read, p, s);
      ManyExtend(read, n - 1, read(p).value.1, s);
    }
  }

  lemma ListExtend<T(!new)>(read: Reader<T>, p: seq<Byte>, s: seq<Byte>)
    requires Stable(read) && ReadList(read, p).Ok?
    ensures ReadList(read, p + s) == Ok((ReadList(read, p).value.0, ReadList(read, p).value.1 + s))
  {
    NumbersStable();
    assert Extends(ReadU64, p, s);
    ManyExtend(read, ReadU64(p).value.0, ReadU64(p).value.1, s);
  }
}
