/**
 * Address and BAR arithmetic shared by both tools.
 *
 * A mapping of `/dev/mem` always covers one 4096-byte page: it is requested
 * at `addr & ~MAP_MASK` and the address of interest sits `addr & MAP_MASK`
 * units into it.  A PCI BAR's base is read as a 32-bit word from the
 * device's configuration space; its position inside its page is
 * `(phys & 0xFFFFFFF0) % 0x1000`.
 */
module Paging {

  import opened Bits
  import opened Bytes

  const MAP_SIZE: nat := 4096
  const MAP_MASK: nat := MAP_SIZE - 1

  /** `addr & ~MAP_MASK`: the page-aligned offset the page is mapped from. */
  function PageBase(addr: nat): (b: nat)
    requires addr < U64
    ensures b % MAP_SIZE == 0 && b <= addr < b + MAP_SIZE
    ensures b == addr - addr % MAP_SIZE
  {
    PageMasks(addr);
    BitAnd(addr, BitNot64(MAP_MASK))
  }

  /** `addr & MAP_MASK`: how far into its page the address lies. */
  function PageOffset(addr: nat): (o: nat)
    requires addr < U64
    ensures o < MAP_SIZE && o == addr % MAP_SIZE
  {
    PageMasks(addr);
    BitAnd(addr, MAP_MASK)
  }

  lemma PageMasks(addr: nat)
    requires addr < U64
    ensures BitAnd(addr, BitNot64(MAP_MASK)) == addr - addr % MAP_SIZE
    ensures BitAnd(addr, MAP_MASK) == addr % MAP_SIZE
    ensures (addr - addr % MAP_SIZE) % MAP_SIZE == 0
  {
    Pow2Constants();
    assert BitNot64(MAP_MASK) == Pow2(64) - Pow2(12);
    assert addr % Pow2(64) == addr by { SmallMod(addr, Pow2(64)); }
    BitAndRange(addr, 12, 64);
    BitAndRange(addr, 0, 12);
    assert Pow2(0) == 1;
    assert addr % 1 == 0;
    DivModUnique(addr - addr % MAP_SIZE, MAP_SIZE, addr / MAP_SIZE, 0);
  }

  /** The page base and the in-page offset put the address back together. */
  lemma AddressSplit(addr: nat)
    requires addr < U64
    ensures PageBase(addr) + PageOffset(addr) == addr
    ensures PageBase(addr) / MAP_SIZE == addr / MAP_SIZE
  {
  }

  /**
   * `(uint64_t *)map_base + (addr & MAP_MASK)`: the access pointer advances by
   * whole 8-byte elements, so its distance from the page start in bytes is
   * eight times the in-page offset.
   */
  function ElementOffset(addr: nat): (d: nat)
    requires addr < U64
    ensures d == 8 * (addr % MAP_SIZE) && d % 8 == 0
    ensures d < 8 * MAP_SIZE
  {
    8 * PageOffset(addr)
  }

  /** Only addresses in the first eighth of a page have their access pointer inside the page. */
  lemma ElementOffsetInPage(addr: nat, n: nat)
    requires addr < U64
    ensures ElementOffset(addr) + n <= MAP_SIZE <==> 8 * (addr % MAP_SIZE) + n <= MAP_SIZE
    ensures ElementOffset(addr) < MAP_SIZE <==> addr % MAP_SIZE < 512
  {
  }

  /** The configuration-space byte the BAR register starts at: `0x10 + 4*bar` in `unsigned int`. */
  function ConfigRegister(bar: nat): (at: nat)
    requires bar < U32
    ensures at < U32
    ensures bar < 0x3FFF_FFFC ==> at == 0x10 + 4 * bar
  {
    (0x10 + 4 * bar) % U32
  }

  /**
   * The BAR's position inside its page: `(phys & 0xFFFFFFF0) % 0x1000`.  It
   * is bits 4 to 11 of the register, so it is a multiple of 16 below 4096
   * and does not depend on the four flag bits.
   */
  function BarOffset(phys: nat): (r: nat)
    requires phys < U32
    ensures r == 16 * ((phys / 16) % 256)
    ensures r == phys % MAP_SIZE - phys % 16
    ensures r == BitAnd(phys, 0xFF0)
    ensures r < MAP_SIZE && r % 16 == 0
  {
    BarMasks(phys);
    DivModUnique(16 * ((phys / 16) % 256), 16, (phys / 16) % 256, 0);
    BitAnd(phys, 0xFFFF_FFF0) % 0x1000
  }

  lemma BarMasks(phys: nat)
    requires phys < U32
    ensures BitAnd(phys, 0xFFFF_FFF0) == phys - phys % 16
    ensures BitAnd(phys, 0xFF0) == phys % 4096 - phys % 16
    ensures (phys - phys % 16) % 0x1000 == phys % 4096 - phys % 16 == 16 * ((phys / 16) % 256)
  {
    assert BitAnd(phys, 0xFFFF_FFF0) == phys - phys % 16 by {
      Pow2Constants();
      BitAndRange(phys, 4, 32);
      SmallMod(phys, Pow2(32));
    }
    assert BitAnd(phys, 0xFF0) == phys % 4096 - phys % 16 by {
      Pow2Constants();
      BitAndRange(phys, 4, 12);
    }
    ClearLowDigit(phys);
  }

  lemma SmallMod(a: nat, d: nat)
    requires a < d
    ensures a % d == a
  {
  }

  lemma ClearLowDigit(a: nat)
    ensures a % 16 <= a % 4096
    ensures (a - a % 16) % 4096 == a % 4096 - a % 16
    ensures a % 4096 - a % 16 == 16 * ((a / 16) % 256)
  {
    ModSplit(a, 16, 256, 4096);
    var q := a / 4096;
    assert a == 4096 * q + a % 4096;
    DivModUnique(a - a % 16, 4096, q, a % 4096 - a % 16);
  }

  /** The register 0x1234_5040 puts the BAR 0x40 into its page, 0x1234_5000 at its start. */
  lemma BarOffsetExamples(p: nat, q: nat)
    requires p == 0x1234_5040 && q == 0x1234_5000
    ensures BarOffset(p) == 0x40 && BarOffset(q) == 0
  {
    assert p / 16 == 0x123_4504 && q / 16 == 0x123_4500;
  }

  /** Registers that differ only in their flag bits give the same offset. */
  lemma BarOffsetIgnoresFlags(p: nat, q: nat)
    requires p < U32 && q < U32 && p / 16 == q / 16
    ensures BarOffset(p) == BarOffset(q)
  {
  }

  /**
   * `read(fd, &phys, 4)` after seeking to `at`: the bytes the file still has
   * there, at most four, replace the low bytes of `phys`; the rest keep their
   * old value.
   */
  function ReadRegister(phys: nat, config: seq<byte>, at: nat): (r: nat)
    requires phys < U32
    ensures r < U32
    ensures at + 4 <= |config| ==> r == Load(config, at, 4)
    ensures at >= |config| ==> r == phys
    ensures at < |config| < at + 4 ==> r == LE(config[at..] + ToLE(phys, 4)[|config| - at..])
  {
    var got := if at >= |config| then [] else config[at..if at + 4 <= |config| then at + 4 else |config|];
    var word := got + ToLE(phys, 4)[|got|..];
    RegisterWord(phys, got, word);
    assert at < |config| < at + 4 ==> got == config[at..];
    LE(word)
  }

  lemma RegisterWord(phys: nat, got: seq<byte>, word: seq<byte>)
    requires phys < U32 && |got| <= 4 && word == got + ToLE(phys, 4)[|got|..]
    ensures LE(word) < U32
    ensures |got| == 4 ==> LE(word) == LE(got)
    ensures got == [] ==> LE(word) == phys
  {
    PatchWord(phys, got, 4, word);
    assert Pow256(4) == U32 by { Pow256Constants(); }
    SmallMod(phys, U32);
  }

  /** An n-byte word whose low bytes are replaced by `got` and whose others keep v's. */
  lemma PatchWord(v: nat, got: seq<byte>, n: nat, word: seq<byte>)
    requires |got| <= n && word == got + ToLE(v, n)[|got|..]
    ensures |word| == n && LE(word) < Pow256(n)
    ensures |got| == n ==> LE(word) == LE(got)
    ensures got == [] ==> LE(word) == v % Pow256(n)
  {
    if |got| == n {
      assert word == got;
    }
    if got == [] {
      assert word == ToLE(v, n);
      LEToLE(v, n);
    }
  }
}
