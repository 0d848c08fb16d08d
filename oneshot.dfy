/**
 * The one-shot tool (`devmem2`): one invocation validates its flags, maps
 * the page of `/dev/mem` that holds the address, reads and/or writes there,
 * and unmaps.
 *
 * The flag parser is a foreign library: its results (how often each flag
 * was given, and the values it stored) are the `Args` of a run.  Whether
 * the open and the map of `/dev/mem` succeed is given too.
 */
module OneShot {

  import opened Bits
  import opened Bytes
  import opened Paging
  import opened Listing
  import opened Backends
  import opened Text

  /* --------------------------------------------------------- validation */

  /** How often `-r`, `-w`, `-a` and `-v` were given, and the argument count. */
  datatype Flags = Flags(argc: nat, r: nat, w: nat, a: nat, v: nat)

  /** What `main` decides before it touches memory. */
  datatype Decision =
    | AskHelp                              // no arguments: the usage text
    | AskAddress                           // "specify address."
    | AskValue                             // "specify value."
    | Proceed(read: bool, write: bool)

  /** `main`'s checks, in their order. */
  function Validate(f: Flags): Decision
  {
    if f.argc == 1 then AskHelp
    else if (f.r > 0 && f.a != 1) || (f.w > 0 && f.a != 1) then AskAddress
    else if f.w > 0 && f.v != 1 then AskValue
    else Proceed(f.r > 0, f.w > 0)
  }

  /**
   * The run goes on exactly when there are arguments, a read or write has
   * exactly one address, and a write has exactly one value; it then reads
   * when `-r` was given and writes when `-w` was.  Help wins over the other
   * complaints, and a missing address over a missing value.
   */
  lemma ValidateCases(f: Flags)
    ensures Validate(f).Proceed? <==> f.argc != 1 && (f.r > 0 || f.w > 0 ==> f.a == 1) && (f.w > 0 ==> f.v == 1)
    ensures Validate(f).Proceed? ==> Validate(f) == Proceed(f.r > 0, f.w > 0)
    ensures Validate(f) == AskHelp <==> f.argc == 1
    ensures Validate(f) == AskAddress <==> f.argc != 1 && (f.r > 0 || f.w > 0) && f.a != 1
    ensures Validate(f) == AskValue <==> f.argc != 1 && (f.r > 0 || f.w > 0 ==> f.a == 1) && f.w > 0 && f.v != 1
  {
  }

  /* -------------------------------------------------------------- types */

  /** `b`, `w` and `d` are the access types `read_addr` and `write_addr` know. */
  predicate KnownType(t: char)
  {
    t == 'b' || t == 'w' || t == 'd'
  }

  /** Bytes per unit: `unsigned char`, `unsigned int`, `unsigned long`. */
  function UnitSize(t: char): (k: nat)
    requires KnownType(t)
    ensures k == 1 || k == 4 || k == 8
  {
    if t == 'b' then 1 else if t == 'w' then 4 else 8
  }

  /** The multiplier of the label arithmetic: 2, 4 and 8. */
  function LabelStep(t: char): (m: nat)
    requires KnownType(t)
    ensures m == 2 || m == 4 || m == 8
  {
    if t == 'b' then 2 else if t == 'w' then 4 else 8
  }

  /** The label computed before unit i: `addr + (i == 0 ? 2 : i - 1) * m` in 64 bits. */
  function HeadLabels(addr: nat, m: nat, n: nat): (r: seq<nat>)
    ensures |r| == n
    ensures n > 0 ==> r[0] == (addr + 2 * m) % U64
    ensures forall i :: 0 < i < n ==> r[i] == (addr + (i - 1) * m) % U64
  {
    seq(n, i => (addr + (if i == 0 then 2 else i - 1) * m) % U64)
  }

  /* ------------------------------------------------------------- access */

  /**
   * What `read_addr` prints: a bare newline for a count of zero, an error
   * for an unknown type (found when the first unit is read), otherwise the
   * listing of `number` units stepping by the unit size from the pointer.
   */
  function ReadListing(page: seq<byte>, mapBase: nat, virt: nat, addr: nat, t: char, number: nat): seq<Event>
    requires mapBase + MAP_SIZE <= |page|
  {
    if number == 0 then [EndLine]
    else if !KnownType(t) then [IllegalType(t as int)]
    else
      Dump(page, mapBase, mapBase + MAP_SIZE, UnitSize(t),
           Strided(virt, UnitSize(t), number), HeadLabels(addr, LabelStep(t), number))
  }

  /**
   * What `write_addr` does: store the value truncated to the unit, read the
   * same unit back, and print address, value and readback.
   */
  function WriteEffect(page: seq<byte>, mapBase: nat, virt: nat, addr: nat, value: nat, t: char): Written
    requires mapBase + MAP_SIZE <= |page|
  {
    if !KnownType(t) then Written(page, [IllegalType(t as int)])
    else
      var k := UnitSize(t);
      if !Fits(mapBase, mapBase + MAP_SIZE, virt, k) then Written(page, [Fault])
      else
        var after := Overwrite(page, virt, ToLE(value, k));
        Written(after, [Echo(addr, value, Load(after, virt, k))])
  }

  /** The units of a read all lie in the page. */
  predicate InPage(mapBase: nat, virt: nat, t: char, number: nat)
    requires KnownType(t)
  {
    forall i :: 0 <= i < number ==> Fits(mapBase, mapBase + MAP_SIZE, virt + UnitSize(t) * i, UnitSize(t))
  }

  /**
   * A read whose units lie in the page prints exactly `number` values, unit
   * i loaded from the `k` bytes at `virt + k * i`, and ends with a newline.
   */
  lemma ReadValues(page: seq<byte>, mapBase: nat, virt: nat, addr: nat, t: char, number: nat)
    requires mapBase + MAP_SIZE <= |page| && KnownType(t) && number > 0
    requires InPage(mapBase, virt, t, number)
    ensures var out, k := ReadListing(page, mapBase, virt, addr, t, number), UnitSize(t);
      && |Units(out)| == number
      && (forall i :: 0 <= i < number ==> Units(out)[i] == Load(page, virt + k * i, k))
      && out[|out| - 1] == EndLine
  {
    var k, lo, hi := UnitSize(t), mapBase, mapBase + MAP_SIZE;
    var locs, labels := Strided(virt, k, number), HeadLabels(addr, LabelStep(t), number);
    var out := Dump(page, lo, hi, k, locs, labels);
    assert ReadListing(page, mapBase, virt, addr, t, number) == out;
    StridedDump(page, lo, hi, k, virt, k, labels);
  }

  /**
   * A read whose units lie in the page opens one line per group of four
   * units.  The first line is labelled `addr + 2m`, group j > 0 with
   * `addr + (4j - 1) * m`: the labels do not follow the units.
   */
  lemma ReadLabels(page: seq<byte>, mapBase: nat, virt: nat, addr: nat, t: char, number: nat)
    requires mapBase + MAP_SIZE <= |page| && KnownType(t) && number > 0
    requires InPage(mapBase, virt, t, number)
    ensures var out, m := ReadListing(page, mapBase, virt, addr, t, number), LabelStep(t);
      && |Heads(out)| == (number + 3) / 4
      && Heads(out)[0] == Label((addr + 2 * m) % U64, false)
      && (forall j :: 0 < j < (number + 3) / 4 ==> Heads(out)[j] == Label((addr + (4 * j - 1) * m) % U64, true))
  {
    var k, lo, hi := UnitSize(t), mapBase, mapBase + MAP_SIZE;
    var locs, labels := Strided(virt, k, number), HeadLabels(addr, LabelStep(t), number);
    var out := Dump(page, lo, hi, k, locs, labels);
    assert ReadListing(page, mapBase, virt, addr, t, number) == out;
    assert |Heads(out)| == (number + 3) / 4
      && forall j :: 0 <= j < (number + 3) / 4 ==> Heads(out)[j] == Label(labels[4 * j], j > 0)
    by {
      forall i | 0 <= i < number
        ensures Fits(lo, hi, locs[i], k)
      {
        assert Fits(lo, hi, virt + k * i, k);
      }
      DumpAll(page, lo, hi, k, locs, labels);
    }
    forall j | 0 < j < (number + 3) / 4
      ensures Heads(out)[j] == Label((addr + (4 * j - 1) * LabelStep(t)) % U64, true)
    {
      GroupStart(j, number);
      assert labels[4 * j] == (addr + (4 * j - 1) * LabelStep(t)) % U64;
    }
  }

  /** An unknown type prints one error and loads nothing; a count of zero prints a bare newline. */
  lemma ReadRefuses(page: seq<byte>, mapBase: nat, virt: nat, addr: nat, t: char, number: nat)
    requires mapBase + MAP_SIZE <= |page|
    ensures number > 0 && !KnownType(t) ==> ReadListing(page, mapBase, virt, addr, t, number) == [IllegalType(t as int)]
    ensures number == 0 ==> ReadListing(page, mapBase, virt, addr, t, number) == [EndLine]
    ensures number == 0 || !KnownType(t) ==> Units(ReadListing(page, mapBase, virt, addr, t, number)) == []
  {
    Single(EndLine);
    Single(IllegalType(t as int));
  }

  /**
   * On plain memory a write in the page changes exactly the unit's bytes,
   * which then hold the value truncated to the unit, and reads exactly that
   * truncated value back.
   */
  lemma WriteReadsBack(page: seq<byte>, mapBase: nat, virt: nat, addr: nat, value: nat, t: char)
    requires mapBase + MAP_SIZE <= |page| && KnownType(t)
    requires Fits(mapBase, mapBase + MAP_SIZE, virt, UnitSize(t))
    ensures var r, k := WriteEffect(page, mapBase, virt, addr, value, t), UnitSize(t);
      && |r.page| == |page|
      && Load(r.page, virt, k) == value % Pow2(8 * k)
      && r.out == [Echo(addr, value, value % Pow2(8 * k))]
      && forall j :: 0 <= j < |page| && !(virt <= j < virt + k) ==> r.page[j] == page[j]
  {
    var k := UnitSize(t);
    StoreThenLoad(page, virt, k, value);
    Pow2Pow256(k);
  }

  /** An unknown type stores nothing; a unit outside the page faults before the store. */
  lemma WriteRefuses(page: seq<byte>, mapBase: nat, virt: nat, addr: nat, value: nat, t: char)
    requires mapBase + MAP_SIZE <= |page|
    ensures !KnownType(t) ==> WriteEffect(page, mapBase, virt, addr, value, t) == Written(page, [IllegalType(t as int)])
    ensures KnownType(t) && !Fits(mapBase, mapBase + MAP_SIZE, virt, UnitSize(t)) ==>
      WriteEffect(page, mapBase, virt, addr, value, t) == Written(page, [Fault])
  {
  }

  /* ------------------------------------------------------------ cmd_mem */

  /** `struct cmd_mem`: the request, and the mapping `map_open` made for it. */
  class CmdMem {
    var addr: nat
    var value: nat
    var accessType: char
    var number: nat
    var mapBase: nat
    var virt: nat
    /** Physical memory, as `/dev/mem` shows it. */
    const mem: array<byte>

    /** The initialiser of `main`: type `w`, one unit, everything else zero. */
    constructor (mem: array<byte>)
      ensures accessType == 'w' && number == 1 && addr == 0 && value == 0 && mapBase == 0 && virt == 0
      ensures this.mem == mem
    {
      addr, value, accessType, number, mapBase, virt := 0, 0, 'w', 1, 0, 0;
      this.mem := mem;
    }

    /** The page is mapped and lies in physical memory. */
    predicate Mapped()
      reads this
    {
      mapBase + MAP_SIZE <= mem.Length
    }

    /**
     * `map_open`: open `/dev/mem`, map the page holding `addr` and point
     * `virt_addr` at element `addr & MAP_MASK` of eight bytes.
     */
    method MapOpen(canOpen: bool, canMap: bool) returns (ok: bool, out: seq<Event>)
      requires addr < U64
      modifies this`mapBase, this`virt
      ensures var o := LocalOpen(addr, mem.Length, canOpen, canMap);
        && ok == o.Opened?
        && (ok ==> Mapped() && mapBase == o.mapBase && virt == o.virt && out == [])
        && (!ok ==> mapBase == FailedBase(o.msg, old(mapBase)) && virt == old(virt) && out == [Note(o.msg)])
    {
      var o := LocalOpen(addr, mem.Length, canOpen, canMap);
      if o.OpenFailed? {
        mapBase := FailedBase(o.msg, mapBase);
        return false, [Note(o.msg)];
      }
      mapBase, virt := o.mapBase, o.virt;
      return true, [];
    }

    /** `read_addr`: the loop over the units with its labels. */
    method ReadAddr() returns (out: seq<Event>)
      requires Mapped()
      ensures out == ReadListing(mem[..], mapBase, virt, addr, accessType, number)
    {
      if number == 0 {
        return [EndLine];
      }
      if !KnownType(accessType) {
        return [IllegalType(accessType as int)];
      }
      var k := UnitSize(accessType);
      out := ReadUnits(mem, mapBase, mapBase + MAP_SIZE, k, Strided(virt, k, number),
                       HeadLabels(addr, LabelStep(accessType), number));
    }

    /** `write_addr`: the typed store and its readback. */
    method WriteAddr() returns (out: seq<Event>)
      requires Mapped()
      modifies mem
      ensures Written(mem[..], out) == WriteEffect(old(mem[..]), mapBase, virt, addr, value, accessType)
    {
      if !KnownType(accessType) {
        return [IllegalType(accessType as int)];
      }
      var k := UnitSize(accessType);
      if !Fits(mapBase, mapBase + MAP_SIZE, virt, k) {
        return [Fault];
      }
      Store(mem, virt, k, value);
      out := [Echo(addr, value, Load(mem[..], virt, k))];
    }

    /** The part of `main` after validation: map, read, write (`map_close` cannot fail on a live mapping). */
    method Perform(read: bool, write: bool, canOpen: bool, canMap: bool) returns (out: seq<Event>)
      requires addr < U64
      modifies this`mapBase, this`virt, mem
      ensures Written(mem[..], out) == MappedRun(old(mem[..]), addr, number, value, accessType, read, write, canOpen, canMap)
    {
      var ok;
      ok, out := MapOpen(canOpen, canMap);
      if !ok {
        return;
      }
      if read {
        out := ReadAddr();
      }
      if write {
        var more := WriteAddr();
        out := out + more;
      }
    }
  }

  /* --------------------------------------------------------------- main */

  /**
   * The results of the flag parser: the counts, and the values stored for
   * the options that were given (`None` keeps `main`'s initialiser).
   */
  datatype Args = Args(
    flags: Flags, addr: Option<nat>, number: Option<nat>, value: Option<nat>, accessType: Option<char>)

  /** The parser stores only values that fit the fields' types. */
  predicate InRange(args: Args)
  {
    (args.addr.Some? ==> args.addr.value < U64)
    && (args.number.Some? ==> args.number.value < U32)
    && (args.value.Some? ==> args.value.value < U64)
  }

  function Or<T>(o: Option<T>, d: T): T
  {
    if o.Some? then o.value else d
  }

  /** After validation: `map_open`, then the read if asked for, then the write if asked for. */
  function MappedRun(page: seq<byte>, addr: nat, number: nat, value: nat, t: char,
                     read: bool, write: bool, canOpen: bool, canMap: bool): Written
    requires addr < U64
  {
    match LocalOpen(addr, |page|, canOpen, canMap)
    case OpenFailed(msg) => Written(page, [Note(msg)])
    case Opened(base, virt) =>
      var shown := if read then ReadListing(page, base, virt, addr, t, number) else [];
      var w := if write then WriteEffect(page, base, virt, addr, value, t) else Written(page, []);
      Written(w.page, shown + w.out)
  }

  /** The whole run: validation, then the mapped accesses. */
  function RunEffect(page: seq<byte>, args: Args, canOpen: bool, canMap: bool): Written
    requires InRange(args)
  {
    match Validate(args.flags)
    case AskHelp => Written(page, [Note(Usage)])
    case AskAddress => Written(page, [Note(SpecifyAddress)])
    case AskValue => Written(page, [Note(SpecifyValue)])
    case Proceed(read, write) =>
      MappedRun(page, Or(args.addr, 0), Or(args.number, 1), Or(args.value, 0), Or(args.accessType, 'w'),
              read, write, canOpen, canMap)
  }

  /** `main` after the flag parser. */
  method Execute(mem: array<byte>, args: Args, canOpen: bool, canMap: bool) returns (out: seq<Event>)
    requires InRange(args)
    modifies mem
    ensures Written(mem[..], out) == RunEffect(old(mem[..]), args, canOpen, canMap)
  {
    var cmd := new CmdMem(mem);
    // Options that were not given keep the initialiser's values.
    cmd.addr, cmd.number := Or(args.addr, 0), Or(args.number, 1);
    cmd.value, cmd.accessType := Or(args.value, 0), Or(args.accessType, 'w');
    match Validate(args.flags) {
      case AskHelp => return [Note(Usage)];
      case AskAddress => return [Note(SpecifyAddress)];
      case AskValue => return [Note(SpecifyValue)];
      case Proceed(read, write) => out := cmd.Perform(read, write, canOpen, canMap);
    }
  }

  /** Every refusal prints one message and leaves memory alone. */
  lemma RefusalsChangeNothing(page: seq<byte>, args: Args, canOpen: bool, canMap: bool)
    requires InRange(args)
    requires !Validate(args.flags).Proceed? || LocalOpen(Or(args.addr, 0), |page|, canOpen, canMap).OpenFailed?
    ensures var r := RunEffect(page, args, canOpen, canMap);
      r.page == page && |r.out| == 1 && r.out[0].Note?
  {
  }

  /** A read alone leaves memory alone. */
  lemma ReadOnlyChangesNothing(page: seq<byte>, args: Args, canOpen: bool, canMap: bool)
    requires InRange(args) && Validate(args.flags) == Proceed(true, false)
    ensures RunEffect(page, args, canOpen, canMap).page == page
  {
  }

  /**
   * With both `-r` and `-w` the read comes first: it shows memory as it was
   * before the write, and the write's echo follows the listing.
   */
  lemma ReadBeforeWrite(page: seq<byte>, args: Args, canOpen: bool, canMap: bool)
    requires InRange(args) && Validate(args.flags) == Proceed(true, true)
    requires LocalOpen(Or(args.addr, 0), |page|, canOpen, canMap).Opened?
    ensures var o, addr, t := LocalOpen(Or(args.addr, 0), |page|, canOpen, canMap), Or(args.addr, 0), Or(args.accessType, 'w');
      var shown := ReadListing(page, o.mapBase, o.virt, addr, t, Or(args.number, 1));
      var w := WriteEffect(page, o.mapBase, o.virt, addr, Or(args.value, 0), t);
      RunEffect(page, args, canOpen, canMap) == Written(w.page, shown + w.out)
  {
  }

  /**
   * Without `-t` and `-n` a read loads one 32-bit unit; the mapping is at the
   * page of the address and the pointer `8 * (addr & MAP_MASK)` bytes into it.
   */
  lemma Defaults(page: seq<byte>, args: Args, canOpen: bool, canMap: bool)
    requires InRange(args) && args.accessType.None? && args.number.None?
    requires Validate(args.flags) == Proceed(true, false)
    requires LocalOpen(Or(args.addr, 0), |page|, canOpen, canMap).Opened?
    ensures var addr := Or(args.addr, 0);
      var o := LocalOpen(addr, |page|, canOpen, canMap);
      && o.mapBase == PageBase(addr) && o.virt == o.mapBase + 8 * (addr % MAP_SIZE)
      && RunEffect(page, args, canOpen, canMap).out
         == Dump(page, o.mapBase, o.mapBase + MAP_SIZE, 4, [o.virt], [(addr + 8) % U64])
  {
    var addr := Or(args.addr, 0);
    var o := LocalOpen(addr, |page|, canOpen, canMap);
    AddressSplit(addr);
    assert Strided(o.virt, 4, 1) == [o.virt];
    assert HeadLabels(addr, 4, 1) == [(addr + 8) % U64];
  }
}
