/**
 * Byte-level view of a mapped page.
 *
 * A typed load or store through a `uint8_t*`, `uint16_t*`, `uint32_t*` or
 * `uint64_t*` into a mapping becomes a little-endian load or store of 1, 2,
 * 4 or 8 bytes of an `array<byte>`.  Casting the value to the store's type
 * (`static_cast<unsigned int>(value)`) is the truncation `v % Pow256(n)`.
 */
module Bytes {

  import opened Bits

  /** One byte of a mapping. */
  type byte = x: nat | x < 256

  /** 256 to the power n: the number of values of an n-byte word. */
  function Pow256(n: nat): (r: nat)
    ensures r > 0
  {
    if n == 0 then 1 else 256 * Pow256(n - 1)
  }

  lemma Pow256Constants()
    ensures Pow256(1) == 0x100 && Pow256(2) == 0x1_0000
    ensures Pow256(4) == 0x1_0000_0000 && Pow256(8) == 0x1_0000_0000_0000_0000
  {
    assert Pow256(2) == 0x1_0000;
    assert Pow256(4) == 0x1_0000_0000 by {
      assert Pow256(3) == 0x100_0000;
    }
    assert Pow256(8) == 0x1_0000_0000_0000_0000 by {
      assert Pow256(5) == 0x100_0000_0000;
      assert Pow256(6) == 0x1_0000_0000_0000;
      assert Pow256(7) == 0x100_0000_0000_0000;
    }
  }

  /** The little-endian value of a byte sequence. */
  function LE(s: seq<byte>): (r: nat)
    ensures r < Pow256(|s|)
  {
    if s == [] then 0 else s[0] + 256 * LE(s[1..])
  }

  /** The n-byte little-endian encoding of v truncated to n bytes. */
  function ToLE(v: nat, n: nat): (r: seq<byte>)
    ensures |r| == n
  {
    if n == 0 then [] else [v % 256] + ToLE(v / 256, n - 1)
  }

  /** Reading back an encoding yields the truncated value. */
  lemma {:induction false} LEToLE(v: nat, n: nat)
    ensures LE(ToLE(v, n)) == v % Pow256(n)
  {
    if n > 0 {
      LEToLE(v / 256, n - 1);
      var e := ToLE(v, n);
      assert e[0] == v % 256 && e[1..] == ToLE(v / 256, n - 1);
      var p := Pow256(n - 1);
      assert LE(e) == v % 256 + 256 * ((v / 256) % p);
      ModSplit(v, 256, p, Pow256(n));
    }
  }

  /** Encoding the value of a byte sequence gives the sequence back. */
  lemma {:induction false} ToLELE(s: seq<byte>)
    ensures ToLE(LE(s), |s|) == s
  {
    if s != [] {
      var v := LE(s);
      DivModUnique(v, 256, LE(s[1..]), s[0]);
      ToLELE(s[1..]);
    }
  }

  /** Truncation before encoding changes nothing. */
  lemma {:induction false} ToLETruncate(v: nat, n: nat)
    ensures ToLE(v % Pow256(n), n) == ToLE(v, n)
  {
    LEToLE(v, n);
    ToLELE(ToLE(v, n));
    LEToLE(v % Pow256(n), n);
    ToLELE(ToLE(v % Pow256(n), n));
    ModMod(v, Pow256(n));
  }

  lemma ModMod(v: nat, d: nat)
    requires d > 0
    ensures (v % d) % d == v % d
  {
  }

  /** A load that spans two byte runs splits into their values. */
  lemma {:induction false} LEAppend(s: seq<byte>, t: seq<byte>)
    ensures LE(s + t) == LE(s) + Pow256(|s|) * LE(t)
  {
    if s != [] {
      assert (s + t)[0] == s[0];
      assert (s + t)[1..] == s[1..] + t;
      LEAppend(s[1..], t);
      var h, l, m, p := s[0], LE(s[1..]), LE(t), Pow256(|s| - 1);
      assert LE(s + t) == h + 256 * (l + p * m);
      assert LE(s) == h + 256 * l;
      assert Pow256(|s|) == 256 * p;
      Distribute(l, p, m);
    } else {
      assert s + t == t;
    }
  }

  lemma Distribute(l: nat, p: nat, m: nat)
    ensures 256 * (l + p * m) == 256 * l + (256 * p) * m
  {
  }

  /** The page after an n-byte store of `bytes` at index `at`. */
  function Overwrite(page: seq<byte>, at: nat, bytes: seq<byte>): (r: seq<byte>)
    requires at + |bytes| <= |page|
    ensures |r| == |page|
    ensures r[at..at + |bytes|] == bytes
    ensures forall k :: 0 <= k < |page| && !(at <= k < at + |bytes|) ==> r[k] == page[k]
  {
    page[..at] + bytes + page[at + |bytes|..]
  }

  /** The value of an n-byte load at index `at`. */
  function Load(page: seq<byte>, at: nat, n: nat): (r: nat)
    requires at + n <= |page|
    ensures r < Pow256(n)
  {
    LE(page[at..at + n])
  }

  /** A typed store: the n bytes at `at` take the encoding of v. */
  method Store(a: array<byte>, at: nat, n: nat, v: nat)
    requires at + n <= a.Length
    modifies a
    ensures a[..] == Overwrite(old(a[..]), at, ToLE(v, n))
  {
    var bytes := ToLE(v, n);
    forall k | at <= k < at + n {
      a[k] := bytes[k - at];
    }
    assert a[..] == Overwrite(old(a[..]), at, bytes);
  }

  /** After an n-byte store, an n-byte load at the same index yields v truncated to n bytes. */
  lemma StoreThenLoad(page: seq<byte>, at: nat, n: nat, v: nat)
    requires at + n <= |page|
    ensures Load(Overwrite(page, at, ToLE(v, n)), at, n) == v % Pow256(n)
  {
    LEToLE(v, n);
  }

  /**
   * After an n-byte store, a wider load of m bytes yields the truncated value
   * plus whatever the m - n bytes after the store held.
   */
  lemma StoreThenWiderLoad(page: seq<byte>, at: nat, n: nat, m: nat, v: nat)
    requires n <= m && at + m <= |page|
    ensures Load(Overwrite(page, at, ToLE(v, n)), at, m)
         == v % Pow256(n) + Pow256(n) * LE(page[at + n..at + m])
  {
    var after := Overwrite(page, at, ToLE(v, n));
    assert after[at..at + m] == ToLE(v, n) + page[at + n..at + m];
    LEAppend(ToLE(v, n), page[at + n..at + m]);
    LEToLE(v, n);
  }
}
