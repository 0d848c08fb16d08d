/**
 * What the tools print, as a structure rather than characters.
 *
 * A read prints one value per unit, four units to a line, each line headed
 * by a hexadecimal address label; a write prints the address, the value and
 * the value read back.  Every diagnostic message is a `Msg`.  Field widths,
 * `std::hex` state and padding are not modelled.
 */
module Listing {

  import opened Bits
  import opened Bytes

  /** The diagnostic lines both tools print. */
  datatype Msg =
    | NoMatchedCommands       // "no matched commands"
    | HelpText                // show_help in the interactive tool
    | ChooseMemOrPci          // "choose mem or pci"
    | NeedMoreArguments       // "need more arguments"
    | SlotParseError          // "Error parsing slot information!"
    | NotSupportedType        // "not support type ..."
    | NeedAddress             // "need address at lease"
    | NumberError             // the what() of a std::stoull exception
    | DevMemOpenFailed        // "/dev/mem opened failed"
    | MmapFailed              // "mmap failed"
    | ResourceOpenFailed      // "Open failed for file ..."
    | FstatFailed             // "fstat() failed"
    | IoBarUnsupported        // "BARs that are I/O ports are not supported by this tool"
    | LseekFailed             // "Error: configuration space lseek failed"
    | ConfigReadFailed        // "Error: configuration space read failed"
    | Usage                   // app.help() of the one-shot tool
    | SpecifyAddress          // "specify address."
    | SpecifyValue            // "specify value."

  datatype Event =
    | Label(addr: nat, newline: bool)            // "0x<addr>: ", after std::endl when newline
    | Unit(value: nat)                           // one value of a read
    | EndLine                                    // the std::endl that closes a read
    | IllegalType(code: int)                     // "Illegal data type ..." on std::cerr
    | Fault                                      // an access outside the mapping
    | Echo(addr: nat, value: nat, readback: nat) // "0x<addr>: <value>, (<readback>)"
    | Note(msg: Msg)

  /** The events a read prints for unit i: a line label first when i is a multiple of 4. */
  function UnitEvents(i: nat, heading: nat, value: nat): seq<Event>
  {
    (if i % 4 == 0 then [Label(heading, i > 0)] else []) + [Unit(value)]
  }

  /** A unit of `size` bytes at index `at` lies inside the mapping [lo, hi). */
  predicate Fits(lo: int, hi: int, at: int, size: nat)
  {
    lo <= at && at + size <= hi
  }

  /** How many leading units fit in the mapping before the first that does not. */
  function Reach(lo: int, hi: int, size: nat, locs: seq<int>): (k: nat)
    ensures k <= |locs|
    ensures forall i :: 0 <= i < k ==> Fits(lo, hi, locs[i], size)
    ensures k < |locs| ==> !Fits(lo, hi, locs[k], size)
  {
    if locs == [] then 0
    else
      var k := Reach(lo, hi, size, locs[..|locs| - 1]);
      if k < |locs| - 1 then k
      else if Fits(lo, hi, locs[|locs| - 1], size) then |locs|
      else |locs| - 1
  }

  /** The events of the first k units, which all fit. */
  function Prefix(mem: seq<byte>, lo: int, hi: int, size: nat, locs: seq<int>, labels: seq<nat>, k: nat): seq<Event>
    requires 0 <= lo && hi <= |mem| && |labels| == |locs| && k <= |locs|
    requires forall i :: 0 <= i < k ==> Fits(lo, hi, locs[i], size)
  {
    if k == 0 then []
    else
      assert Fits(lo, hi, locs[k - 1], size);
      Prefix(mem, lo, hi, size, locs, labels, k - 1)
      + UnitEvents(k - 1, labels[k - 1], Load(mem, locs[k - 1], size))
  }

  /**
   * A read of |locs| units of `size` bytes at the given indices: every unit
   * that fits is loaded and printed; the first that does not ends the read
   * with a fault, otherwise the listing is closed by a newline.
   */
  function Dump(mem: seq<byte>, lo: int, hi: int, size: nat, locs: seq<int>, labels: seq<nat>): seq<Event>
    requires 0 <= lo && hi <= |mem| && |labels| == |locs|
  {
    var k := Reach(lo, hi, size, locs);
    Prefix(mem, lo, hi, size, locs, labels, k) + (if k < |locs| then [Fault] else [EndLine])
  }

  /** The values of the `Unit` events, in order. */
  function Units(out: seq<Event>): seq<nat>
  {
    if out == [] then []
    else Units(out[..|out| - 1]) + (if out[|out| - 1].Unit? then [out[|out| - 1].value] else [])
  }

  /** The `Label` events, in order. */
  function Heads(out: seq<Event>): seq<Event>
  {
    if out == [] then []
    else Heads(out[..|out| - 1]) + (if out[|out| - 1].Label? then [out[|out| - 1]] else [])
  }

  lemma {:induction false} UnitsAppend(a: seq<Event>, b: seq<Event>)
    ensures Units(a + b) == Units(a) + Units(b)
    ensures Heads(a + b) == Heads(a) + Heads(b)
    decreases |b|
  {
    if b == [] {
      assert a + b == a;
    } else {
      assert (a + b)[..|a + b| - 1] == a + b[..|b| - 1];
      UnitsAppend(a, b[..|b| - 1]);
    }
  }

  lemma Single(e: Event)
    ensures Units([e]) == if e.Unit? then [e.value] else []
    ensures Heads([e]) == if e.Label? then [e] else []
  {
    assert [e][..0] == [];
  }

  lemma UnitEventsParts(i: nat, heading: nat, value: nat)
    ensures Units(UnitEvents(i, heading, value)) == [value]
    ensures Heads(UnitEvents(i, heading, value)) == if i % 4 == 0 then [Label(heading, i > 0)] else []
  {
    var h := Label(heading, i > 0);
    Single(h);
    Single(Unit(value));
    if i % 4 == 0 {
      UnitsAppend([h], [Unit(value)]);
    } else {
      assert UnitEvents(i, heading, value) == [Unit(value)];
    }
  }

  /** Unit k - 1 adds its value to the values printed and a label when it starts a group. */
  lemma PrefixStep(mem: seq<byte>, lo: int, hi: int, size: nat, locs: seq<int>, labels: seq<nat>, k: nat)
    requires 0 <= lo && hi <= |mem| && |labels| == |locs| && 0 < k <= |locs|
    requires forall i :: 0 <= i < k ==> Fits(lo, hi, locs[i], size)
    ensures Units(Prefix(mem, lo, hi, size, locs, labels, k))
         == Units(Prefix(mem, lo, hi, size, locs, labels, k - 1)) + [Load(mem, locs[k - 1], size)]
    ensures Heads(Prefix(mem, lo, hi, size, locs, labels, k))
         == Heads(Prefix(mem, lo, hi, size, locs, labels, k - 1))
            + (if (k - 1) % 4 == 0 then [Label(labels[k - 1], k > 1)] else [])
  {
    var p := Prefix(mem, lo, hi, size, locs, labels, k - 1);
    assert Fits(lo, hi, locs[k - 1], size);
    var v := Load(mem, locs[k - 1], size);
    var e := UnitEvents(k - 1, labels[k - 1], v);
    assert Prefix(mem, lo, hi, size, locs, labels, k) == p + e;
    UnitsAppend(p, e);
    UnitEventsParts(k - 1, labels[k - 1], v);
  }

  /** The first k units print exactly their k loaded values, in order. */
  lemma {:induction false} PrefixUnits(mem: seq<byte>, lo: int, hi: int, size: nat, locs: seq<int>, labels: seq<nat>, k: nat)
    requires 0 <= lo && hi <= |mem| && |labels| == |locs| && k <= |locs|
    requires forall i :: 0 <= i < k ==> Fits(lo, hi, locs[i], size)
    ensures |Units(Prefix(mem, lo, hi, size, locs, labels, k))| == k
    ensures forall i :: 0 <= i < k ==> Units(Prefix(mem, lo, hi, size, locs, labels, k))[i] == Load(mem, locs[i], size)
  {
    if k > 0 {
      PrefixUnits(mem, lo, hi, size, locs, labels, k - 1);
      PrefixStep(mem, lo, hi, size, locs, labels, k);
      var s := Units(Prefix(mem, lo, hi, size, locs, labels, k));
      var t := Units(Prefix(mem, lo, hi, size, locs, labels, k - 1));
      forall i | 0 <= i < k
        ensures s[i] == Load(mem, locs[i], size)
      {
        if i < k - 1 {
          assert s[i] == t[i];
        }
      }
    }
  }

  /**
   * The first k units print one label per started group of four: the j-th
   * label is that of unit 4j, and every label but the first starts a new line.
   */
  lemma {:induction false} PrefixHeads(mem: seq<byte>, lo: int, hi: int, size: nat, locs: seq<int>, labels: seq<nat>, k: nat)
    requires 0 <= lo && hi <= |mem| && |labels| == |locs| && k <= |locs|
    requires forall i :: 0 <= i < k ==> Fits(lo, hi, locs[i], size)
    ensures Grouped(Heads(Prefix(mem, lo, hi, size, locs, labels, k)), labels, k)
  {
    if k > 0 {
      PrefixHeads(mem, lo, hi, size, locs, labels, k - 1);
      PrefixStep(mem, lo, hi, size, locs, labels, k);
      GroupedStep(Heads(Prefix(mem, lo, hi, size, locs, labels, k)),
                  Heads(Prefix(mem, lo, hi, size, locs, labels, k - 1)), labels, k);
    }
  }

  /** The labels of the first k units: one per started group of four, that of the group's first unit. */
  predicate Grouped(heads: seq<Event>, labels: seq<nat>, k: nat)
    requires k <= |labels|
  {
    && |heads| == (k + 3) / 4
    && forall j :: 0 <= j < (k + 3) / 4 ==> 4 * j < k && heads[j] == Label(labels[4 * j], j > 0)
  }

  lemma GroupedStep(h: seq<Event>, g: seq<Event>, labels: seq<nat>, k: nat)
    requires 0 < k <= |labels| && Grouped(g, labels, k - 1)
    requires h == g + (if (k - 1) % 4 == 0 then [Label(labels[k - 1], k > 1)] else [])
    ensures Grouped(h, labels, k)
  {
    var q, r := (k - 1) / 4, (k - 1) % 4;
    if r == 0 {
      assert (k + 2) / 4 == q && (k + 3) / 4 == q + 1 && 4 * q == k - 1 by {
        DivModUnique(k + 2, 4, q, 3);
        DivModUnique(k + 3, 4, q + 1, 0);
      }
      forall j | 0 <= j < q + 1
        ensures 4 * j < k && h[j] == Label(labels[4 * j], j > 0)
      {
        if j < q {
          assert h[j] == g[j];
        }
      }
    } else {
      assert (k + 2) / 4 == q + 1 && (k + 3) / 4 == q + 1 && 4 * q < k - 1 by {
        DivModUnique(k + 2, 4, q + 1, r - 1);
        DivModUnique(k + 3, 4, q + 1, r);
      }
      assert h == g;
    }
  }

  /**
   * A read prints exactly the values of the units that fit, one label per
   * group of four of them, and ends in a fault exactly when a unit does not fit.
   */
  lemma DumpShape(mem: seq<byte>, lo: int, hi: int, size: nat, locs: seq<int>, labels: seq<nat>)
    requires 0 <= lo && hi <= |mem| && |labels| == |locs|
    ensures var out, k := Dump(mem, lo, hi, size, locs, labels), Reach(lo, hi, size, locs);
      && |Units(out)| == k
      && (forall i :: 0 <= i < k ==> Units(out)[i] == Load(mem, locs[i], size))
      && |Heads(out)| == (k + 3) / 4
      && (forall j :: 0 <= j < (k + 3) / 4 ==> Heads(out)[j] == Label(labels[4 * j], j > 0))
      && out[|out| - 1] == (if k < |locs| then Fault else EndLine)
  {
    var k := Reach(lo, hi, size, locs);
    var p := Prefix(mem, lo, hi, size, locs, labels, k);
    var tail := if k < |locs| then [Fault] else [EndLine];
    PrefixUnits(mem, lo, hi, size, locs, labels, k);
    PrefixHeads(mem, lo, hi, size, locs, labels, k);
    UnitsAppend(p, tail);
    assert tail[..0] == [];
  }

  /**
   * When every unit fits, a read of n units prints exactly the n loaded
   * values, the label of every fourth unit, and a closing newline.
   */
  lemma DumpAll(mem: seq<byte>, lo: int, hi: int, size: nat, locs: seq<int>, labels: seq<nat>)
    requires 0 <= lo && hi <= |mem| && |labels| == |locs|
    requires forall i :: 0 <= i < |locs| ==> Fits(lo, hi, locs[i], size)
    ensures Reach(lo, hi, size, locs) == |locs|
    ensures var out := Dump(mem, lo, hi, size, locs, labels);
      && |Units(out)| == |locs|
      && (forall i :: 0 <= i < |locs| ==> Units(out)[i] == Load(mem, locs[i], size))
      && |Heads(out)| == (|locs| + 3) / 4
      && (forall j :: 0 <= j < (|locs| + 3) / 4 ==> Heads(out)[j] == Label(labels[4 * j], j > 0))
      && out[|out| - 1] == EndLine
  {
    ReachAt(lo, hi, size, locs, |locs|);
    DumpShape(mem, lo, hi, size, locs, labels);
  }

  /**
   * The unit loop of a read: unit i is loaded from index locs[i] and printed
   * under label labels[i]; a unit outside the mapping stops the loop with a
   * fault, otherwise a newline closes the listing.
   */
  method ReadUnits(mem: array<byte>, lo: int, hi: int, size: nat, locs: seq<int>, labels: seq<nat>) returns (out: seq<Event>)
    requires 0 <= lo && hi <= mem.Length && |labels| == |locs|
    ensures out == Dump(mem[..], lo, hi, size, locs, labels)
  {
    out := [];
    var i := 0;
    while i < |locs| && Fits(lo, hi, locs[i], size)
      invariant i <= |locs|
      invariant forall j :: 0 <= j < i ==> Fits(lo, hi, locs[j], size)
      invariant out == Prefix(mem[..], lo, hi, size, locs, labels, i)
    {
      var value := Load(mem[..], locs[i], size);
      out := out + UnitEvents(i, labels[i], value);
      i := i + 1;
    }
    ReachAt(lo, hi, size, locs, i);
    out := out + if i < |locs| then [Fault] else [EndLine];
  }

  /** The reach is the first index whose unit does not fit. */
  lemma ReachAt(lo: int, hi: int, size: nat, locs: seq<int>, i: nat)
    requires i <= |locs|
    requires forall j :: 0 <= j < i ==> Fits(lo, hi, locs[j], size)
    requires i < |locs| ==> !Fits(lo, hi, locs[i], size)
    ensures Reach(lo, hi, size, locs) == i
  {
  }

  /** A read whose first unit does not fit prints nothing but the fault. */
  lemma DumpFirstFault(mem: seq<byte>, lo: int, hi: int, size: nat, locs: seq<int>, labels: seq<nat>)
    requires 0 <= lo && hi <= |mem| && |labels| == |locs|
    requires |locs| > 0 && !Fits(lo, hi, locs[0], size)
    ensures Dump(mem, lo, hi, size, locs, labels) == [Fault]
  {
    ReachAt(lo, hi, size, locs, 0);
  }
}
