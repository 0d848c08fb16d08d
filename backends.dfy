/**
 * The two access backends of the interactive tool: `/dev/mem` ("local") and a
 * PCI BAR resource file ("pci").
 *
 * Local accesses go through a one-page mapping of physical memory.  The
 * physical memory is the array `mem`; the page mapped for address `addr`
 * starts at index `PageBase(addr)` of it, and the access pointer `virt_addr`
 * lies `8 * (addr & MAP_MASK)` bytes into the page because it is a
 * `uint64_t*` advanced by `addr & MAP_MASK` elements.
 *
 * PCI accesses go through the mapping of the whole resource file.  Its bytes
 * are the array `bar`, the mapping sits at virtual address `maddr`, and an
 * access at virtual address E reaches `bar[E - maddr]`.  The access takes
 * `bar_addr` as its base and indexes a typed pointer with an index that is
 * already scaled, so unit i of width w (s = w/8 bytes) is at virtual address
 * `bar_addr + s * (addr + s * i)`, all in 64-bit arithmetic.
 *
 * An access outside its mapping is undefined behaviour in the C++ program;
 * here it is a `Fault` event that ends the operation.
 */
module Backends {

  import opened Bits
  import opened Bytes
  import opened Paging
  import opened Listing

  /** The access widths the tool dispatches on, in bits. */
  predicate ValidWidth(w: nat) { w == 8 || w == 16 || w == 32 || w == 64 }

  /** The size in bytes of the pointer type a width selects. */
  function Scale(w: nat): (s: nat)
    requires ValidWidth(w)
    ensures s * 8 == w && 1 <= s <= 8
  {
    w / 8
  }

  /** The indices base, base + stride, base + 2 * stride, ... of n units. */
  function Strided(base: int, stride: nat, n: nat): (r: seq<int>)
    ensures |r| == n
    ensures forall i :: 0 <= i < n ==> r[i] == base + stride * i
  {
    seq(n, i => base + stride * i)
  }

  /**
   * A listing of n units at a fixed stride, all inside the mapping, shows
   * unit i loaded from `base + stride * i` and ends with a newline.
   */
  lemma StridedDump(mem: seq<byte>, lo: int, hi: int, size: nat, base: int, stride: nat, labels: seq<nat>)
    requires 0 <= lo && hi <= |mem| && |labels| > 0
    requires forall i :: 0 <= i < |labels| ==> Fits(lo, hi, base + stride * i, size)
    ensures var n, out := |labels|, Dump(mem, lo, hi, size, Strided(base, stride, |labels|), labels);
      && |Units(out)| == n
      && (forall i :: 0 <= i < n ==> Fits(lo, hi, base + stride * i, size) && Units(out)[i] == Load(mem, base + stride * i, size))
      && out[|out| - 1] == EndLine
  {
    var locs := Strided(base, stride, |labels|);
    forall i | 0 <= i < |labels|
      ensures Fits(lo, hi, locs[i], size)
    {
      assert Fits(lo, hi, base + stride * i, size);
    }
    DumpAll(mem, lo, hi, size, locs, labels);
  }

  /** The same listing has one label per group of four units, the label of the group's first unit. */
  lemma StridedHeads(mem: seq<byte>, lo: int, hi: int, size: nat, base: int, stride: nat, labels: seq<nat>)
    requires 0 <= lo && hi <= |mem|
    requires forall i :: 0 <= i < |labels| ==> Fits(lo, hi, base + stride * i, size)
    ensures var n, out := |labels|, Dump(mem, lo, hi, size, Strided(base, stride, |labels|), labels);
      && |Heads(out)| == (n + 3) / 4
      && (forall j :: 0 <= j < (n + 3) / 4 ==> Heads(out)[j] == Label(labels[4 * j], j > 0))
  {
    var locs := Strided(base, stride, |labels|);
    forall i | 0 <= i < |labels|
      ensures Fits(lo, hi, locs[i], size)
    {
      assert Fits(lo, hi, base + stride * i, size);
    }
    DumpAll(mem, lo, hi, size, locs, labels);
  }

  /** The labels `addr + i` of n units, as 64-bit sums. */
  function Labels(addr: nat, n: nat): (r: seq<nat>)
    ensures |r| == n
    ensures forall i :: 0 <= i < n ==> r[i] == (addr + i) % U64
  {
    seq(n, i => (addr + i) % U64)
  }

  /** What a write prints and leaves in the mapping. */
  datatype Written = Written(page: seq<byte>, out: seq<Event>)

  /* ---------------------------------------------------------------- local */

  /** `struct local`: the request and the mapping `local_open` made for it. */
  datatype LocalDev = LocalDev(addr: nat, value: nat, accessType: nat, number: nat, mapBase: nat, virt: nat)

  /** Outcome of `local_open`: the page index and the access pointer, or the message printed. */
  datatype Opened = Opened(mapBase: nat, virt: nat) | OpenFailed(msg: Msg)

  /** `MAP_FAILED`, the pointer `(void *) -1`, as a 64-bit address. */
  const MAP_FAILED: nat := U64 - 1

  /**
   * The `map_base` a failed open leaves: a failed open of `/dev/mem` stops
   * before the `mmap` and keeps it, and a failed `mmap` stores `MAP_FAILED`.
   */
  function FailedBase(msg: Msg, mapBase: nat): nat
  {
    if msg == MmapFailed then MAP_FAILED else mapBase
  }

  /**
   * `local_open`: open `/dev/mem`, map the page holding addr, and point
   * `virt_addr` at element `addr & MAP_MASK` of it.  Whether the open and the
   * map succeed is given; a page beyond the physical memory cannot be mapped.
   */
  function LocalOpen(addr: nat, memSize: nat, canOpen: bool, canMap: bool): (r: Opened)
    requires addr < U64
    ensures r.Opened? <==> canOpen && canMap && addr - addr % MAP_SIZE + MAP_SIZE <= memSize
    ensures !canOpen ==> r == OpenFailed(DevMemOpenFailed)
    ensures canOpen && r.OpenFailed? ==> r == OpenFailed(MmapFailed)
    ensures r.Opened? ==> r.mapBase % MAP_SIZE == 0 && r.mapBase <= addr < r.mapBase + MAP_SIZE
    ensures r.Opened? ==> r.virt == r.mapBase + 8 * (addr % MAP_SIZE)
  {
    if !canOpen then OpenFailed(DevMemOpenFailed)
    else
      var base := PageBase(addr);
      if !canMap || base + MAP_SIZE > memSize then OpenFailed(MmapFailed)
      else Opened(base, base + ElementOffset(addr))
  }

  /** The access pointer is inside the page only for the first 512 addresses of a page. */
  lemma LocalPointerInPage(addr: nat, memSize: nat)
    requires addr < U64
    requires LocalOpen(addr, memSize, true, true).Opened?
    ensures var r := LocalOpen(addr, memSize, true, true);
      r.virt < r.mapBase + MAP_SIZE <==> addr % MAP_SIZE < 512
  {
  }

  /** `local_read` loads 4 bytes for a 16-bit unit, but still steps 2 bytes per unit. */
  function LocalLoadSize(w: nat): nat
    requires ValidWidth(w)
  {
    if w == 8 then 1 else if w == 16 then 4 else if w == 32 then 4 else 8
  }

  /**
   * What `local_read` prints: nothing but an error for an unsupported width
   * (checked when the first unit is read), otherwise the listing of `number`
   * units stepping by the width's element size from `virt_addr`.
   */
  function LocalListing(page: seq<byte>, dev: LocalDev): seq<Event>
    requires dev.mapBase + MAP_SIZE <= |page|
  {
    if dev.number == 0 then [EndLine]
    else if !ValidWidth(dev.accessType) then [IllegalType(dev.accessType)]
    else
      var w := dev.accessType;
      Dump(page, dev.mapBase, dev.mapBase + MAP_SIZE, LocalLoadSize(w),
           Strided(dev.virt, Scale(w), dev.number), Labels(dev.addr, dev.number))
  }

  method LocalRead(mem: array<byte>, dev: LocalDev) returns (out: seq<Event>)
    requires dev.mapBase + MAP_SIZE <= mem.Length
    ensures out == LocalListing(mem[..], dev)
  {
    if dev.number == 0 {
      out := [EndLine];
    } else if !ValidWidth(dev.accessType) {
      out := [IllegalType(dev.accessType)];
    } else {
      var w := dev.accessType;
      out := ReadUnits(mem, dev.mapBase, dev.mapBase + MAP_SIZE, LocalLoadSize(w),
                       Strided(dev.virt, Scale(w), dev.number), Labels(dev.addr, dev.number));
    }
  }

  /** The units of a local read all lie in the page. */
  predicate LocalInPage(dev: LocalDev)
    requires ValidWidth(dev.accessType)
  {
    forall i :: 0 <= i < dev.number ==>
      Fits(dev.mapBase, dev.mapBase + MAP_SIZE, dev.virt + Scale(dev.accessType) * i, LocalLoadSize(dev.accessType))
  }

  /** The units all lie in the page exactly when the first and the last do. */
  lemma LocalInPageEnds(dev: LocalDev)
    requires ValidWidth(dev.accessType) && dev.number > 0
    ensures LocalInPage(dev) <==>
      dev.mapBase <= dev.virt
      && dev.virt + Scale(dev.accessType) * (dev.number - 1) + LocalLoadSize(dev.accessType) <= dev.mapBase + MAP_SIZE
  {
    var s, lo, hi, size := Scale(dev.accessType), dev.mapBase, dev.mapBase + MAP_SIZE, LocalLoadSize(dev.accessType);
    if LocalInPage(dev) {
      assert Fits(lo, hi, dev.virt + s * 0, size);
      assert Fits(lo, hi, dev.virt + s * (dev.number - 1), size);
    }
    forall i | 0 <= i < dev.number
      ensures s * i <= s * (dev.number - 1)
    {
      MulMono(s, i, dev.number - 1);
    }
  }

  /**
   * A local read whose units all lie in the page prints exactly `number`
   * values, unit i loaded at `virt + (w/8) * i`, and ends with a newline.
   */
  lemma LocalReadValues(page: seq<byte>, dev: LocalDev)
    requires dev.mapBase + MAP_SIZE <= |page| && ValidWidth(dev.accessType) && dev.number > 0
    requires LocalInPage(dev)
    ensures var out, w := LocalListing(page, dev), dev.accessType;
      && |Units(out)| == dev.number
      && (forall i :: 0 <= i < dev.number ==> Units(out)[i] == Load(page, dev.virt + Scale(w) * i, LocalLoadSize(w)))
      && out[|out| - 1] == EndLine
  {
    var w, n := dev.accessType, dev.number;
    var lo, hi, size := dev.mapBase, dev.mapBase + MAP_SIZE, LocalLoadSize(w);
    var locs := Strided(dev.virt, Scale(w), n);
    var out := Dump(page, lo, hi, size, locs, Labels(dev.addr, n));
    assert LocalListing(page, dev) == out;
    StridedDump(page, lo, hi, size, dev.virt, Scale(w), Labels(dev.addr, n));
  }

  /**
   * A local read whose units all lie in the page prints one label per group
   * of four units, `addr + 4j` for group j, each but the first on a new line.
   */
  lemma LocalReadLabels(page: seq<byte>, dev: LocalDev)
    requires dev.mapBase + MAP_SIZE <= |page| && ValidWidth(dev.accessType) && dev.number > 0
    requires LocalInPage(dev)
    ensures var out := LocalListing(page, dev);
      && |Heads(out)| == (dev.number + 3) / 4
      && (forall j :: 0 <= j < (dev.number + 3) / 4 ==> Heads(out)[j] == Label((dev.addr + 4 * j) % U64, j > 0))
  {
    var w, n := dev.accessType, dev.number;
    var lo, hi, size := dev.mapBase, dev.mapBase + MAP_SIZE, LocalLoadSize(w);
    var locs, labels := Strided(dev.virt, Scale(w), n), Labels(dev.addr, n);
    var out := Dump(page, lo, hi, size, locs, labels);
    assert LocalListing(page, dev) == out;
    StridedHeads(page, lo, hi, size, dev.virt, Scale(w), labels);
    forall j | 0 <= j < (n + 3) / 4
      ensures Heads(out)[j] == Label((dev.addr + 4 * j) % U64, j > 0)
    {
      GroupStart(j, n);
      assert labels[4 * j] == (dev.addr + 4 * j) % U64;
    }
  }

  /** The j-th group of four units starts at unit 4j, one of the n units. */
  lemma GroupStart(j: nat, n: nat)
    requires j < (n + 3) / 4
    ensures 4 * j < n
  {
  }

  /** A local read whose first unit lies outside the page prints nothing but the fault. */
  lemma LocalReadOutside(page: seq<byte>, dev: LocalDev)
    requires dev.mapBase + MAP_SIZE <= |page| && ValidWidth(dev.accessType) && dev.number > 0
    requires dev.virt + LocalLoadSize(dev.accessType) > dev.mapBase + MAP_SIZE
    ensures LocalListing(page, dev) == [Fault]
  {
    var w := dev.accessType;
    var locs, labels := Strided(dev.virt, Scale(w), dev.number), Labels(dev.addr, dev.number);
    assert !Fits(dev.mapBase, dev.mapBase + MAP_SIZE, locs[0], LocalLoadSize(w));
  }

  /** An unsupported width prints one error and loads nothing; a count of zero prints a bare newline. */
  lemma LocalReadRefuses(page: seq<byte>, dev: LocalDev)
    requires dev.mapBase + MAP_SIZE <= |page|
    ensures dev.number > 0 && !ValidWidth(dev.accessType) ==> LocalListing(page, dev) == [IllegalType(dev.accessType)]
    ensures dev.number == 0 ==> LocalListing(page, dev) == [EndLine]
    ensures dev.number == 0 || !ValidWidth(dev.accessType) ==> Units(LocalListing(page, dev)) == []
  {
    Single(EndLine);
    Single(IllegalType(dev.accessType));
  }

  /**
   * A 16-bit local read loads 32 bits: each printed unit holds its own two
   * bytes and the two bytes of the next unit.
   */
  lemma LocalRead16Overlaps(page: seq<byte>, at: nat)
    requires at + 4 <= |page|
    ensures Load(page, at, LocalLoadSize(16)) == Load(page, at, 2) + 0x1_0000 * Load(page, at + 2, 2)
  {
    assert page[at..at + 4] == page[at..at + 2] + page[at + 2..at + 4];
    LEAppend(page[at..at + 2], page[at + 2..at + 4]);
    Pow256Constants();
  }

  /** The number of bytes `local_write` reads back: 8 for a 32-bit write, through `unsigned long*`. */
  function LocalReadbackSize(w: nat): nat
    requires ValidWidth(w)
  {
    if w == 8 then 1 else if w == 16 then 2 else 8
  }

  /**
   * `local_write`: store the value truncated to w bits at `virt_addr`, read
   * the pointer back, and print address, value and readback.
   */
  function LocalWriteEffect(page: seq<byte>, dev: LocalDev): Written
    requires dev.mapBase + MAP_SIZE <= |page|
  {
    if !ValidWidth(dev.accessType) then Written(page, [IllegalType(dev.accessType)])
    else
      var w, end := dev.accessType, dev.mapBase + MAP_SIZE;
      var n := Scale(w);
      if !Fits(dev.mapBase, end, dev.virt, n) then Written(page, [Fault])
      else
        var after := Overwrite(page, dev.virt, ToLE(dev.value, n));
        if !Fits(dev.mapBase, end, dev.virt, LocalReadbackSize(w)) then Written(after, [Fault])
        else Written(after, [Echo(dev.addr, dev.value, Load(after, dev.virt, LocalReadbackSize(w)))])
  }

  method LocalWrite(mem: array<byte>, dev: LocalDev) returns (out: seq<Event>)
    requires dev.mapBase + MAP_SIZE <= mem.Length
    modifies mem
    ensures Written(mem[..], out) == LocalWriteEffect(old(mem[..]), dev)
  {
    if !ValidWidth(dev.accessType) {
      out := [IllegalType(dev.accessType)];
      return;
    }
    var w, end := dev.accessType, dev.mapBase + MAP_SIZE;
    var n := Scale(w);
    if !Fits(dev.mapBase, end, dev.virt, n) {
      out := [Fault];
      return;
    }
    Store(mem, dev.virt, n, dev.value);
    if !Fits(dev.mapBase, end, dev.virt, LocalReadbackSize(w)) {
      out := [Fault];
    } else {
      out := [Echo(dev.addr, dev.value, Load(mem[..], dev.virt, LocalReadbackSize(w)))];
    }
  }

  /**
   * A local write in the page changes exactly the w/8 bytes at the access
   * pointer, which then hold the value truncated to w bits.
   */
  lemma LocalWriteStores(page: seq<byte>, dev: LocalDev)
    requires dev.mapBase + MAP_SIZE <= |page| && ValidWidth(dev.accessType)
    requires Fits(dev.mapBase, dev.mapBase + MAP_SIZE, dev.virt, Scale(dev.accessType))
    ensures var after, n := LocalWriteEffect(page, dev).page, Scale(dev.accessType);
      && |after| == |page|
      && Load(after, dev.virt, n) == dev.value % Pow2(dev.accessType)
      && forall k :: 0 <= k < |page| && !(dev.virt <= k < dev.virt + n) ==> after[k] == page[k]
  {
    var n := Scale(dev.accessType);
    StoreThenLoad(page, dev.virt, n, dev.value);
    Pow2Pow256(n);
  }

  /** Eight binary digits per byte. */
  lemma {:induction false} Pow2Pow256(n: nat)
    ensures Pow2(8 * n) == Pow256(n)
  {
    if n > 0 {
      Pow2Pow256(n - 1);
      Pow2Add(8, 8 * (n - 1));
      Pow2Constants();
      assert 8 * n == 8 + 8 * (n - 1);
    }
  }

  /** On plain memory a write of 8, 16 or 64 bits reads back the value truncated to its width. */
  lemma LocalWriteEchoes(page: seq<byte>, dev: LocalDev)
    requires dev.mapBase + MAP_SIZE <= |page|
    requires dev.accessType == 8 || dev.accessType == 16 || dev.accessType == 64
    requires Fits(dev.mapBase, dev.mapBase + MAP_SIZE, dev.virt, Scale(dev.accessType))
    ensures LocalWriteEffect(page, dev).out == [Echo(dev.addr, dev.value, dev.value % Pow2(dev.accessType))]
  {
    StoreThenLoad(page, dev.virt, Scale(dev.accessType), dev.value);
    Pow2Pow256(Scale(dev.accessType));
  }

  /**
   * A 32-bit write stores 4 bytes but reads back 8: the readback is the
   * truncated value plus 2^32 times the 4 untouched bytes after it.
   */
  lemma LocalWrite32Readback(page: seq<byte>, dev: LocalDev)
    requires dev.mapBase + MAP_SIZE <= |page| && dev.accessType == 32
    requires Fits(dev.mapBase, dev.mapBase + MAP_SIZE, dev.virt, 8)
    ensures LocalWriteEffect(page, dev).out
         == [Echo(dev.addr, dev.value, dev.value % U32 + U32 * Load(page, dev.virt + 4, 4))]
  {
    StoreThenWiderLoad(page, dev.virt, 4, 8, dev.value);
    Pow256Constants();
  }

  /* ------------------------------------------------------------------ pci */

  /** `struct pci`: the device, its BAR mapping and the last request. */
  datatype PciDev = PciDev(
    filename: seq<char>, addr: nat, value: nat, accessType: nat, number: nat, isOpen: bool,
    bar: nat, domain: nat, bus: nat, slot: nat, fn: nat,
    maddr: nat, size: nat, offset: nat, phys: nat, barAddr: nat)

  /** The zero-initialised global `pci`. */
  const NoPci := PciDev([], 0, 0, 0, 0, false, 0, 0, 0, 0, 0, 0, 0, 0, 0, 0)

  /** How many bytes of the mapping can be reached: none when `maddr` is 0. */
  function Window(dev: PciDev): nat
  {
    if dev.maddr == 0 then 0 else dev.size
  }

  /** The index into the BAR of the byte at virtual address `bar_addr + s * index`. */
  function PciAt(dev: PciDev, s: nat, index: int): int
  {
    (dev.barAddr + s * (index % U64)) % U64 - dev.maddr
  }

  /** Without wrap-around, the byte at scaled index `s * index` is that far past the mapping's address. */
  lemma PciAtNoWrap(dev: PciDev, s: nat, index: nat)
    requires dev.barAddr == 0 && s >= 1 && s * index < U64
    ensures PciAt(dev, s, index) == s * index - dev.maddr
  {
    MulMono(index, 1, s);
    assert index % U64 == index by { SmallMod(index, U64); }
    assert (s * index) % U64 == s * index by { SmallMod(s * index, U64); }
  }

  /** The BAR indices of the units of a PCI read, with their already-scaled indices. */
  function PciLocs(dev: PciDev): (r: seq<int>)
    requires ValidWidth(dev.accessType)
    ensures |r| == dev.number
  {
    var s := Scale(dev.accessType);
    seq(dev.number, i => PciAt(dev, s, dev.addr + s * i))
  }

  /** What `pci_read` prints. */
  function PciListing(bar: seq<byte>, dev: PciDev): seq<Event>
    requires dev.size <= |bar|
  {
    if dev.number == 0 then [EndLine]
    else if !ValidWidth(dev.accessType) then [IllegalType(dev.accessType)]
    else Dump(bar, 0, Window(dev), Scale(dev.accessType), PciLocs(dev), Labels(dev.addr, dev.number))
  }

  method PciRead(bar: array<byte>, dev: PciDev) returns (out: seq<Event>)
    requires dev.size <= bar.Length
    ensures out == PciListing(bar[..], dev)
  {
    if dev.number == 0 {
      out := [EndLine];
    } else if !ValidWidth(dev.accessType) {
      out := [IllegalType(dev.accessType)];
    } else {
      out := ReadUnits(mem := bar, lo := 0, hi := Window(dev), size := Scale(dev.accessType),
                       locs := PciLocs(dev), labels := Labels(dev.addr, dev.number));
    }
  }

  /**
   * With `bar_addr` left at 0, unit i of a PCI read is at virtual address
   * s * (addr + s * i): the index is scaled twice.
   */
  lemma PciUnitAddress(dev: PciDev, i: nat)
    requires ValidWidth(dev.accessType) && i < dev.number && dev.barAddr == 0
    requires Scale(dev.accessType) * (dev.addr + Scale(dev.accessType) * i) < U64
    ensures var s := Scale(dev.accessType);
      PciLocs(dev)[i] == s * dev.addr + s * s * i - dev.maddr
  {
    var s := Scale(dev.accessType);
    var x := dev.addr + s * i;
    ScaledIndex(s, dev.addr, i);
    assert x % U64 == x;
    assert (s * x) % U64 == s * x;
    assert PciLocs(dev)[i] == PciAt(dev, s, x);
  }

  lemma ScaledIndex(s: nat, a: nat, i: nat)
    requires s >= 1
    ensures s * (a + s * i) == s * a + s * s * i
    ensures a + s * i <= s * (a + s * i)
  {
    MulMono(a + s * i, 1, s);
  }

  /**
   * An 8-bit read at a virtual address inside the mapping sees the BAR:
   * unit i is byte `addr - maddr + i` of it.
   */
  lemma PciByteRead(bar: seq<byte>, dev: PciDev)
    requires dev.size <= |bar| && dev.accessType == 8 && dev.number > 0 && dev.barAddr == 0
    requires dev.maddr > 0 && dev.maddr <= dev.addr && dev.addr + dev.number < U64
    requires dev.addr - dev.maddr + dev.number <= dev.size
    ensures var out := PciListing(bar, dev);
      && |Units(out)| == dev.number
      && (forall i :: 0 <= i < dev.number ==> Units(out)[i] == bar[dev.addr - dev.maddr + i])
      && out[|out| - 1] == EndLine
  {
    var locs, labels := PciLocs(dev), Labels(dev.addr, dev.number);
    forall i | 0 <= i < dev.number
      ensures locs[i] == dev.addr - dev.maddr + i
    {
      PciUnitAddress(dev, i);
    }
    DumpAll(bar, 0, Window(dev), 1, locs, labels);
    DumpShape(bar, 0, Window(dev), 1, locs, labels);
    forall i | 0 <= i < dev.number
      ensures Load(bar, locs[i], 1) == bar[dev.addr - dev.maddr + i]
    {
      var at := dev.addr - dev.maddr + i;
      assert bar[at..at + 1] == [bar[at]];
      assert bar[at..at + 1][1..] == [];
    }
  }

  /**
   * A 16-, 32- or 64-bit read at an address inside the mapping never reaches
   * the mapping when the mapping's address is at least its size: the first
   * unit already faults.
   */
  lemma PciWideReadFaults(bar: seq<byte>, dev: PciDev)
    requires dev.size <= |bar| && ValidWidth(dev.accessType) && dev.accessType != 8
    requires dev.number > 0 && dev.barAddr == 0
    requires dev.size <= dev.maddr <= dev.addr && Scale(dev.accessType) * dev.addr < U64
    ensures PciListing(bar, dev) == [Fault]
  {
    var s := Scale(dev.accessType);
    var locs := PciLocs(dev);
    assert !Fits(0, Window(dev), locs[0], s) by {
      PciUnitAddress(dev, 0);
      MulMono(dev.addr, 2, s);
    }
    DumpFirstFault(bar, 0, Window(dev), s, locs, Labels(dev.addr, dev.number));
  }

  /** The bytes `pci_write` reads back, and where, for width w: a 32-bit write reads 8 bytes at 8 * addr. */
  function PciReadback(w: nat): (r: (nat, nat))
    requires ValidWidth(w)
  {
    if w == 32 then (8, 8) else (Scale(w), Scale(w))
  }

  /** `pci_write`: store at `bar_addr + s * addr`, read back, print. */
  function PciWriteEffect(bar: seq<byte>, dev: PciDev): Written
    requires dev.size <= |bar|
  {
    if !ValidWidth(dev.accessType) then Written(bar, [IllegalType(dev.accessType)])
    else
      var w := dev.accessType;
      var s := Scale(w);
      var at := PciAt(dev, s, dev.addr);
      if !Fits(0, Window(dev), at, s) then Written(bar, [Fault])
      else
        var after := Overwrite(bar, at as nat, ToLE(dev.value, s));
        var (step, n) := PciReadback(w);
        var back := PciAt(dev, step, dev.addr);
        if !Fits(0, Window(dev), back, n) then Written(after, [Fault])
        else Written(after, [Echo(dev.addr, dev.value, Load(after, back as nat, n))])
  }

  method PciWrite(bar: array<byte>, dev: PciDev) returns (out: seq<Event>)
    requires dev.size <= bar.Length
    modifies bar
    ensures Written(bar[..], out) == PciWriteEffect(old(bar[..]), dev)
  {
    if !ValidWidth(dev.accessType) {
      out := [IllegalType(dev.accessType)];
      return;
    }
    var w := dev.accessType;
    var s := Scale(w);
    var at := PciAt(dev, s, dev.addr);
    if !Fits(0, Window(dev), at, s) {
      out := [Fault];
      return;
    }
    Store(bar, at as nat, s, dev.value);
    var (step, n) := PciReadback(w);
    var back := PciAt(dev, step, dev.addr);
    if !Fits(0, Window(dev), back, n) {
      out := [Fault];
    } else {
      out := [Echo(dev.addr, dev.value, Load(bar[..], back as nat, n))];
    }
  }

  /** An 8-bit PCI write stores one byte and reads that same byte back. */
  lemma PciByteWrite(bar: seq<byte>, dev: PciDev)
    requires dev.size <= |bar| && dev.accessType == 8
    requires Fits(0, Window(dev), PciAt(dev, 1, dev.addr), 1)
    ensures var r, at := PciWriteEffect(bar, dev), PciAt(dev, 1, dev.addr) as nat;
      && r.page == Overwrite(bar, at, [dev.value % 256])
      && r.out == [Echo(dev.addr, dev.value, dev.value % 256)]
  {
    var at := PciAt(dev, 1, dev.addr) as nat;
    StoreThenLoad(bar, at, 1, dev.value);
    Pow256Constants();
    assert ToLE(dev.value, 1) == [dev.value % 256];
  }

  /**
   * A 32-bit PCI write to a nonzero address stores at byte 4 * addr but reads
   * back 8 bytes at 8 * addr, which the store did not touch: the echo shows
   * what was there before.
   */
  lemma PciWrite32ReadsElsewhere(bar: seq<byte>, dev: PciDev)
    requires dev.size <= |bar| && dev.accessType == 32 && dev.barAddr == 0
    requires 0 < dev.addr && 8 * dev.addr < U64
    requires Fits(0, Window(dev), PciAt(dev, 4, dev.addr), 4)
    requires Fits(0, Window(dev), PciAt(dev, 8, dev.addr), 8)
    ensures PciWriteEffect(bar, dev).out
         == [Echo(dev.addr, dev.value, Load(bar, PciAt(dev, 8, dev.addr) as nat, 8))]
  {
    var at, back := PciAt(dev, 4, dev.addr) as nat, PciAt(dev, 8, dev.addr) as nat;
    var after := Overwrite(bar, at, ToLE(dev.value, 4));
    assert Load(after, back, 8) == Load(bar, back, 8) by {
      assert at + 4 <= back by {
        PciAtNoWrap(dev, 4, dev.addr);
        PciAtNoWrap(dev, 8, dev.addr);
      }
      OverwriteElsewhere(bar, at, ToLE(dev.value, 4), back, 8);
    }
  }

  /** A store leaves a range that starts after it as it was. */
  lemma OverwriteElsewhere(page: seq<byte>, at: nat, bytes: seq<byte>, from: nat, n: nat)
    requires at + |bytes| <= from && from + n <= |page|
    ensures Overwrite(page, at, bytes)[from..from + n] == page[from..from + n]
  {
  }
}
