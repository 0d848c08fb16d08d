/**
 * The interactive tool (`devmem4`): command tables, the decision
 * `process_command` takes on a tokenised line, and the session state it
 * changes: the selected backend `choose` and the global `local` and `pci`
 * records.
 *
 * The outside world is a parameter.  An `Env` says, for one command, whether
 * `/dev/mem` opens and maps, which sysfs resource and config files exist,
 * what they hold, where `mmap` places a BAR mapping, and whether reading
 * the config space fails.
 */
module Interp {

  import opened Bits
  import opened Bytes
  import opened Paging
  import opened Listing
  import opened Text
  import opened Backends

  /* --------------------------------------------------------------- tables */

  const CmdUseMem: seq<string> := ["use", "mem"]
  const CmdUsePci: seq<string> := ["use", "pci", "xxx", "bar", "xxx"]
  const CmdXw: seq<string> := ["x", "x/8", "x/16", "x/32", "x/64", "x", "w", "w/8", "w/32", "w/64"]
  const CmdHelp: seq<string> := ["help", "?"]
  const CmdLeave: seq<string> := ["exit", "quit"]

  /** The table of tables `process_command` scans, in order. */
  const Commands: seq<seq<string>> := [CmdUseMem, CmdUsePci, CmdXw, CmdHelp, CmdLeave]

  /** The first token is a word of some table. */
  predicate Known(v: string)
  {
    v in CmdUseMem || v in CmdUsePci || v in CmdXw || v in CmdHelp || v in CmdLeave
  }

  /**
   * The table scan of `process_command`: the index of the first table that
   * holds v, or `None` when no table does.
   */
  method FindTable(v: string) returns (r: Option<nat>)
    ensures r.Some? ==> r.value < |Commands| && v in Commands[r.value]
    ensures r.Some? ==> forall t :: 0 <= t < r.value ==> v !in Commands[t]
    ensures r.None? <==> !Known(v)
  {
    var t := 0;
    while t < |Commands|
      invariant t <= |Commands|
      invariant forall u :: 0 <= u < t ==> v !in Commands[u]
    {
      if v in Commands[t] {
        return Some(t);
      }
      t := t + 1;
    }
    assert v !in Commands[0] && v !in Commands[1] && v !in Commands[2] && v !in Commands[3] && v !in Commands[4];
    return None;
  }

  /* -------------------------------------------------------------- parsing */

  /** What a command line asks for, as `process_command` decides it. */
  datatype Command =
    | Unmatched                                         // "no matched commands"
    | Help
    | UseWhich                                          // "use" alone: "choose mem or pci"
    | UseMem
    | UsePciArity                                       // "need more arguments"
    | UsePciBadSlot(scan: Scan)                         // "Error parsing slot information!"
    | UsePci(bus: nat, slot: nat, fn: nat, bar: nat)
    | UseUnknown(kind: string)                          // "not support type ..."
    | MissingAddress                                    // a verb without its address
    | BadNumber                                         // `std::stoull` threw
    | VerbUnsupported(verb: string)                     // the if-chain's final else
    | Access(write: bool, addr: nat, width: nat, count: nat)
    | Leave
    | Ignored                                           // a table word no branch handles

  /** The verb's if-chain: whether it writes, and its width in bits. */
  function VerbWidth(v: string): Option<(bool, nat)>
  {
    if v == "x/8" then Some((false, 8))
    else if v == "x/16" then Some((false, 16))
    else if v == "x" || v == "x/32" then Some((false, 32))
    else if v == "x/64" then Some((false, 64))
    else if v == "w/8" then Some((true, 8))
    else if v == "w/16" then Some((true, 16))
    else if v == "w" || v == "w/32" then Some((true, 32))
    else if v == "w/64" then Some((true, 64))
    else None
  }

  /**
   * `process_command`'s decision on the tokens of a line.  A line the loop
   * passes on is never empty, so there is always a first token.
   */
  function Parse(ts: seq<string>): Command
    requires |ts| >= 1
  {
    var v := ts[0];
    if !Known(v) then Unmatched
    else if v in CmdHelp then Help
    else if v == "use" then ParseUse(ts)
    else if v in CmdXw then
      if |ts| == 1 then MissingAddress
      else
        match ParseHex64(ts[1])
        case None => BadNumber
        case Some(addr) =>
          var count := if |ts| == 3 then ParseDec64(ts[2]) else Some(1);
          if count.None? then BadNumber
          else
            match VerbWidth(v)
            case None => VerbUnsupported(v)
            case Some(wr) => Access(wr.0, addr, wr.1, count.value)
    else if v in CmdLeave then Leave
    else Ignored
  }

  /** The `use` branch: the backend word, and for `pci` the slot and the BAR. */
  function ParseUse(ts: seq<string>): Command
    requires |ts| >= 1
  {
    if |ts| == 1 then UseWhich
    else if ts[1] == CmdUseMem[1] then UseMem
    else if ts[1] == CmdUsePci[1] then
      if |ts| != |CmdUsePci| then UsePciArity
      else
        var sc := ScanSlot(ts[2]);
        if sc.status != 3 then UsePciBadSlot(sc)
        else UsePci(sc.fields[0], sc.fields[1], sc.fields[2], BarNumber(ts[4]))
    else UseUnknown(ts[1])
  }

  /** `use` is a table word that is not a help word, so its lines reach the `use` branch. */
  lemma UseReachesBranch(ts: seq<string>)
    requires |ts| >= 1 && ts[0] == "use"
    ensures Parse(ts) == ParseUse(ts)
  {
    assert Known("use") by { assert CmdUseMem[0] == "use"; }
    assert "use" !in CmdHelp;
  }

  /** Every verb of the access table has a width, so the final else is never reached; "w/16" has one too but is no verb. */
  lemma VerbsHaveWidths(v: string)
    ensures v in CmdXw ==> VerbWidth(v).Some?
    ensures VerbWidth(v).Some? && v != "w/16" ==> v in CmdXw
    ensures !Known("w/16")
  {
  }

  /** Widths by verb. */
  lemma VerbWidths()
    ensures VerbWidth("x/8") == Some((false, 8)) && VerbWidth("x/16") == Some((false, 16))
    ensures VerbWidth("x") == Some((false, 32)) && VerbWidth("x/32") == Some((false, 32))
    ensures VerbWidth("x/64") == Some((false, 64))
    ensures VerbWidth("w/8") == Some((true, 8)) && VerbWidth("w") == Some((true, 32))
    ensures VerbWidth("w/32") == Some((true, 32)) && VerbWidth("w/64") == Some((true, 64))
  {
  }

  /** A line is unmatched exactly when its first token is in no table. */
  lemma ParseUnmatched(ts: seq<string>)
    requires |ts| >= 1
    ensures Parse(ts) == Unmatched <==> !Known(ts[0])
    ensures Parse(ts) != VerbUnsupported(ts[0])
  {
    VerbsHaveWidths(ts[0]);
  }

  /**
   * An access reads or writes 8, 16, 32 or 64 bits (never a 16-bit write),
   * at the address the second token gives in base 16, with a count (the
   * value, for a write) that is the third token in base 10 when there are
   * exactly three tokens, and 1 otherwise.
   */
  lemma ParseAccess(ts: seq<string>)
    requires |ts| >= 1 && Parse(ts).Access?
    ensures var c := Parse(ts);
      && ts[0] in CmdXw && |ts| >= 2
      && c.width in {8, 16, 32, 64} && !(c.write && c.width == 16)
      && c.write == (ts[0][0] == 'w')
      && Some(c.addr) == ParseHex64(ts[1]) && c.addr < U64
      && c.count == (if |ts| == 3 then ParseDec64(ts[2]).value else 1) && c.count < U64
  {
  }

  /** Conversely, a verb with a readable address (and count, if there are three tokens) is an access. */
  lemma ParseAccessWhen(ts: seq<string>)
    requires |ts| >= 2 && ts[0] in CmdXw && ParseHex64(ts[1]).Some?
    requires |ts| == 3 ==> ParseDec64(ts[2]).Some?
    ensures Parse(ts).Access?
  {
    VerbsHaveWidths(ts[0]);
  }

  /** A verb whose address or three-token count does not parse is refused. */
  lemma ParseBadNumber(ts: seq<string>)
    requires |ts| >= 2 && ts[0] in CmdXw
    requires ParseHex64(ts[1]).None? || (|ts| == 3 && ParseDec64(ts[2]).None?)
    ensures Parse(ts) == BadNumber
  {
  }

  /**
   * `use pci` selects a device exactly when there are five tokens and the
   * slot scan fills all three fields; the fourth token is not looked at.
   */
  lemma ParseUsePci(ts: seq<string>)
    requires |ts| >= 1
    ensures Parse(ts).UsePci? <==> ts[0] == "use" && |ts| == 5 && ts[1] == "pci" && ScanSlot(ts[2]).status == 3
  {
    if ts[0] == "use" {
      UseReachesBranch(ts);
    }
  }

  /** The selected device's fields are the scanned ones, and the BAR is `atoi` of the last token, modulo 2^32. */
  lemma ParseUsePciFields(ts: seq<string>)
    requires |ts| >= 1 && Parse(ts).UsePci?
    ensures var c := Parse(ts);
      && |ts| == 5
      && [c.bus, c.slot, c.fn] == ScanSlot(ts[2]).fields
      && c.bus < 256 && c.slot < 256 && c.fn < 16
      && c.bar == BarNumber(ts[4]) && c.bar < U32
  {
    ParseUsePci(ts);
  }

  /** The tool leaves exactly on `exit` and `quit`. */
  lemma ParseLeave(ts: seq<string>)
    requires |ts| >= 1
    ensures Parse(ts) == Leave <==> ts[0] == "exit" || ts[0] == "quit"
  {
  }

  /**
   * A `use pci` line written with the slot as `BB:SS.F` and the BAR number in
   * decimal selects exactly that device and BAR, whatever the fourth token.
   */
  lemma ParseUsePciText(bus: nat, slot: nat, fn: nat, bar: nat, word: string)
    requires bus < 256 && slot < 256 && fn < 16 && bar < U32
    ensures Parse(["use", "pci", SlotText(bus, slot, fn), word, Digits(bar, 10)]) == UsePci(bus, slot, fn, bar)
  {
    var ts := ["use", "pci", SlotText(bus, slot, fn), word, Digits(bar, 10)];
    assert ScanSlot(ts[2]) == Scan(3, [bus, slot, fn]) by { ScanSlotText(bus, slot, fn); }
    assert BarNumber(ts[4]) == bar by { AtoiDigits(bar); }
    ParseUsePciSelects(ts);
  }

  lemma ParseUsePciSelects(ts: seq<string>)
    requires |ts| == 5 && ts[0] == "use" && ts[1] == "pci" && ScanSlot(ts[2]).status == 3
    ensures var f := ScanSlot(ts[2]).fields; Parse(ts) == UsePci(f[0], f[1], f[2], BarNumber(ts[4]))
  {
    UseReachesBranch(ts);
    assert CmdUsePci[1] == "pci" && CmdUseMem[1] == "mem" && "pci" != "mem";
  }

  /* -------------------------------------------------------------- session */

  datatype Backend = Local | Pci

  /** A sysfs `resourceN` file: its bytes, whether `fstat` and `mmap` succeed, and where the mapping lands. */
  datatype PciFile = PciFile(resource: array<byte>, fstatOk: bool, mappable: bool, mapAt: nat)

  /** The outside world for one command. */
  datatype Env = Env(
    devOpens: bool, devMaps: bool,
    files: map<string, PciFile>, configs: map<string, seq<byte>>, readOk: bool)

  /** The resource arrays an environment offers. */
  function Resources(env: Env): set<array<byte>>
  {
    set p | p in env.files :: env.files[p].resource
  }

  /** The resource arrays of a run's environments. */
  function AllResources(envs: seq<Env>): set<array<byte>>
  {
    if envs == [] then {} else AllResources(envs[..|envs| - 1]) + Resources(envs[|envs| - 1])
  }

  lemma AllResourcesHas(envs: seq<Env>, i: nat)
    requires i < |envs|
    ensures Resources(envs[i]) <= AllResources(envs)
  {
    if i < |envs| - 1 {
      AllResourcesHas(envs[..|envs| - 1], i);
    }
  }

  /** The zero-initialised global `local`. */
  const NoLocal := LocalDev(0, 0, 0, 0, 0, 0)

  /** Every step of `use_pci` succeeds. */
  predicate PciOpens(pci: PciDev, env: Env)
    requires pci.bar < U32
  {
    var path := ResourcePath(pci.domain, pci.bus, pci.slot, pci.fn, pci.bar);
    && path in env.files
    && env.files[path].fstatOk
    && env.files[path].mappable && env.files[path].resource.Length % U32 > 0
    && ConfigReadable(pci, env)
  }

  /** The config file exists, the seek to the BAR register succeeds and the read does. */
  predicate ConfigReadable(pci: PciDev, env: Env)
    requires pci.bar < U32
  {
    ConfigPath(pci.domain, pci.bus, pci.slot, pci.fn) in env.configs
    && ConfigRegister(pci.bar) < 0x8000_0000 && env.readOk
  }

  /** The fields that name the device and the BAR, which `use_pci` only reads. */
  predicate SameDevice(a: PciDev, b: PciDev)
  {
    a.domain == b.domain && a.bus == b.bus && a.slot == b.slot && a.fn == b.fn
    && a.bar == b.bar && a.barAddr == b.barAddr
  }

  /**
   * What mapping `file` and reading the config space leave in the record:
   * its size and mapping, the BAR register read from the config space, and
   * `addr` at the BAR's offset inside the mapping; nothing else changes.
   */
  predicate Loaded(before: PciDev, after: PciDev, bar: array<byte>, file: PciFile, env: Env)
    requires before.bar < U32 && before.phys < U32
  {
    var cpath := ConfigPath(before.domain, before.bus, before.slot, before.fn);
    && cpath in env.configs
    && after == before.(size := after.size, maddr := after.maddr, phys := after.phys,
                        offset := after.offset, addr := after.addr, isOpen := after.isOpen)
    && bar == file.resource
    && after.size == bar.Length % U32 && after.maddr == file.mapAt
    && after.phys == ReadRegister(before.phys, env.configs[cpath], ConfigRegister(before.bar))
    && after.offset == BarOffset(after.phys) && after.offset < MAP_SIZE && after.offset % 16 == 0
    && after.addr == (after.maddr + after.offset) % U64
  }

  /**
   * What a successful `use_pci` leaves in the record: the resource file
   * named after the device, loaded as above.
   */
  predicate Attached(before: PciDev, after: PciDev, bar: array<byte>, env: Env)
    requires before.bar < U32 && before.phys < U32
  {
    var path := ResourcePath(before.domain, before.bus, before.slot, before.fn, before.bar);
    && path in env.files
    && Loaded(before.(filename := path), after, bar, env.files[path], env)
  }

  /** The message of the config step that fails: the seek (also for a missing config file), else the read. */
  function ConfigFault(pci: PciDev, env: Env): Msg
    requires pci.bar < U32
  {
    if ConfigPath(pci.domain, pci.bus, pci.slot, pci.fn) !in env.configs || ConfigRegister(pci.bar) >= 0x8000_0000
    then LseekFailed
    else ConfigReadFailed
  }

  /**
   * What a failing mapping of `file` leaves: the size from `fstat` stored,
   * and `maddr` reset to 0 when the `mmap` fails, or left at the mapping
   * when the config step then fails; with that stage's message.
   */
  predicate MapFailed(before: PciDev, after: PciDev, bar: array<byte>, file: PciFile, env: Env, out: seq<Event>)
    requires before.bar < U32
  {
    var sized := before.(size := file.resource.Length % U32);
    && bar == file.resource
    && if !file.mappable || file.resource.Length % U32 == 0 then
         after == sized.(maddr := 0) && out == [Note(IoBarUnsupported)]
       else
         after == sized.(maddr := file.mapAt) && out == [Note(ConfigFault(before, env))]
  }

  /**
   * What a failing `use_pci` leaves: the resource path stored in `filename`,
   * then the fields of the stages before the failing one, and the failing
   * stage's message.  `bar` is the BAR mapping before the call.
   */
  predicate Abandoned(before: PciDev, after: PciDev, bar: array<byte>, oldBar: array<byte>, env: Env, out: seq<Event>)
    requires before.bar < U32
  {
    var path := ResourcePath(before.domain, before.bus, before.slot, before.fn, before.bar);
    var named := before.(filename := path);
    if path !in env.files then after == named && bar == oldBar && out == [Note(ResourceOpenFailed)]
    else if !env.files[path].fstatOk then after == named && bar == oldBar && out == [Note(FstatFailed)]
    else MapFailed(named, after, bar, env.files[path], env, out)
  }

  /**
   * What `read_addr` leaves on the local backend, `page` being physical
   * memory: the request recorded, the page of `addr` mapped afresh and its
   * listing printed.  A failed open prints its message; a failed `mmap`
   * leaves `MAP_FAILED` in `map_base`.
   */
  predicate LocalReadBy(before: LocalDev, after: LocalDev, page: seq<byte>,
                        addr: nat, width: nat, n: nat, env: Env, out: seq<Event>)
  {
    var req := before.(addr := addr, number := n % U32, accessType := width % 256);
    && addr < U64
    && var o := LocalOpen(addr, |page|, env.devOpens, env.devMaps);
       if o.OpenFailed? then after == req.(mapBase := FailedBase(o.msg, req.mapBase)) && out == [Note(o.msg)]
       else after == req.(mapBase := o.mapBase, virt := o.virt) && out == LocalListing(page, after)
  }

  /**
   * What `write_addr` leaves on the local backend: memory goes from `page`
   * to `page'`, by the local write effect once the page is mapped, and not
   * at all when the open fails.
   */
  predicate LocalWriteBy(before: LocalDev, after: LocalDev, page: seq<byte>, page': seq<byte>,
                         addr: nat, width: nat, v: nat, env: Env, out: seq<Event>)
  {
    var req := before.(addr := addr, value := v, accessType := width % 256);
    && addr < U64
    && var o := LocalOpen(addr, |page|, env.devOpens, env.devMaps);
       if o.OpenFailed? then after == req.(mapBase := FailedBase(o.msg, req.mapBase)) && out == [Note(o.msg)] && page' == page
       else after == req.(mapBase := o.mapBase, virt := o.virt) && Written(page', out) == LocalWriteEffect(page, after)
  }

  /** What `read_addr` leaves on the pci backend: the request recorded and the BAR listing printed. */
  predicate PciReadBy(before: PciDev, after: PciDev, bar: seq<byte>, addr: nat, width: nat, n: nat, out: seq<Event>)
  {
    && after == before.(addr := addr, number := n % U32, accessType := width % 256)
    && after.size <= |bar| && out == PciListing(bar, after)
  }

  /** What `write_addr` leaves on the pci backend: the BAR bytes go from `bar` to `bar'` by the pci write effect. */
  predicate PciWriteBy(before: PciDev, after: PciDev, bar: seq<byte>, bar': seq<byte>, addr: nat, width: nat, v: nat, out: seq<Event>)
  {
    && after == before.(addr := addr, value := v, accessType := width % 256)
    && after.size <= |bar| && Written(bar', out) == PciWriteEffect(bar, after)
  }

  /** The output of the commands that change nothing, `None` for the others. */
  function Reply(c: Command): Option<seq<Event>>
  {
    match c
    case Unmatched => Some([Note(NoMatchedCommands)])
    case Help => Some([Note(HelpText)])
    case UseWhich => Some([Note(ChooseMemOrPci)])
    case UsePciArity => Some([Note(NeedMoreArguments)])
    case UseUnknown(_) => Some([Note(NotSupportedType)])
    // The message reads `param_list[1]`, one past the end.
    case MissingAddress => Some([Note(NeedAddress), Fault])
    case BadNumber => Some([Note(NumberError)])
    case VerbUnsupported(_) => Some([Note(NotSupportedType)])
    case Leave => Some([])
    case Ignored => Some([])
    case _ => None
  }

  /** The record after `sscanf` stored the fields it converted, in order: bus, slot, function. */
  function Scanned(p: PciDev, f: seq<nat>): PciDev
  {
    var p1 := if |f| >= 1 then p.(bus := f[0]) else p;
    var p2 := if |f| >= 2 then p1.(slot := f[1]) else p1;
    if |f| >= 3 then p2.(fn := f[2]) else p2
  }

  class Session {
    var choose: Backend
    var local: LocalDev
    var pci: PciDev
    /** The bytes of the resource file the PCI backend last opened. */
    var bar: array<byte>
    /** Physical memory, as `/dev/mem` shows it. */
    const mem: array<byte>

    predicate Valid()
      reads this
    {
      pci.size <= bar.Length && pci.bar < U32 && pci.phys < U32
    }

    constructor (mem: array<byte>)
      ensures Valid() && fresh(bar)
      ensures choose == Local && local == NoLocal && pci == NoPci && this.mem == mem
    {
      choose := Local;
      local := NoLocal;
      pci := NoPci;
      bar := new byte[0];
      this.mem := mem;
    }

    /** `use_local`. */
    method UseLocal()
      modifies this`choose
      ensures choose == Local
    {
      choose := Local;
    }

    /** `exit_pci`: the mapping is given up and the device marked closed; nothing in the tool calls it. */
    method ExitPci()
      requires Valid()
      modifies this`pci
      ensures Valid() && pci == old(pci).(isOpen := false)
    {
      pci := pci.(isOpen := false);
    }

    /**
     * `use_pci`: unless the PCI backend is already selected and open, open
     * the resource file named by the device fields, map it, read the BAR
     * register from the config file and point `addr` at the BAR inside the
     * mapping.  `bar_addr` is not touched.  Every failure returns -1 with
     * one message and leaves `choose` as it was, with the fields assigned
     * before the failing step kept.
     */
    method UsePci(env: Env) returns (status: int, out: seq<Event>)
      requires Valid()
      modifies this`pci, this`bar, this`choose
      ensures Valid()
      ensures bar == old(bar) || bar in Resources(env)
      ensures status == 0 || status == -1
      ensures old(choose == Pci && pci.isOpen) ==> status == 0 && out == [] && pci == old(pci) && bar == old(bar) && choose == Pci
      ensures status == 0 <==> old(choose == Pci && pci.isOpen) || PciOpens(old(pci), env)
      ensures status == -1 ==> choose == old(choose) && |out| == 1 && out[0].Note?
      ensures status == -1 ==> Abandoned(old(pci), pci, bar, old(bar), env, out)
      ensures SameDevice(old(pci), pci)
      ensures status == 0 && !old(choose == Pci && pci.isOpen) ==> choose == Pci && pci.isOpen && out == [] && Attached(old(pci), pci, bar, env)
    {
      if choose == Pci && pci.isOpen {
        return 0, [];
      }
      status, out := MapResource(env);
    }

    /**
     * The first part of `use_pci`: open the resource file, take its size
     * from `fstat` and map it.  `mmap` of an empty file fails.
     */
    method MapResource(env: Env) returns (status: int, out: seq<Event>)
      requires Valid()
      modifies this`pci, this`bar, this`choose
      ensures Valid()
      ensures bar == old(bar) || bar in Resources(env)
      ensures status == (if PciOpens(old(pci), env) then 0 else -1)
      ensures status == -1 ==> choose == old(choose) && |out| == 1 && out[0].Note?
      ensures status == -1 ==> Abandoned(old(pci), pci, bar, old(bar), env, out)
      ensures SameDevice(old(pci), pci)
      ensures status == 0 ==> choose == Pci && pci.isOpen && out == [] && Attached(old(pci), pci, bar, env)
    {
      var path := ResourcePath(pci.domain, pci.bus, pci.slot, pci.fn, pci.bar);
      pci := pci.(filename := path);
      if path !in env.files {
        return -1, [Note(ResourceOpenFailed)];
      }
      var file := env.files[path];
      if !file.fstatOk {
        return -1, [Note(FstatFailed)];
      }
      status, out := MapFile(env, file);
    }

    /**
     * `mmap` of the opened resource file, over its whole size; an empty file
     * (an I/O BAR) cannot be mapped.
     */
    method MapFile(env: Env, file: PciFile) returns (status: int, out: seq<Event>)
      requires Valid()
      modifies this`pci, this`bar, this`choose
      ensures Valid()
      ensures bar == old(bar) || bar == file.resource
      ensures status == (if file.mappable && file.resource.Length % U32 > 0 && ConfigReadable(old(pci), env) then 0 else -1)
      ensures status == -1 ==> choose == old(choose) && |out| == 1 && out[0].Note?
      ensures status == -1 ==> MapFailed(old(pci), pci, bar, file, env, out)
      ensures SameDevice(old(pci), pci) && pci.filename == old(pci.filename)
      ensures status == 0 ==> choose == Pci && pci.isOpen && out == [] && Loaded(old(pci), pci, bar, file, env)
    {
      bar := file.resource;
      ModAtMost(bar.Length, U32);
      pci := pci.(size := bar.Length % U32);
      if !file.mappable || pci.size == 0 {
        pci := pci.(maddr := 0);
        return -1, [Note(IoBarUnsupported)];
      }
      pci := pci.(maddr := file.mapAt);
      status, out := OpenConfig(env);
    }

    /**
     * The tail of `use_pci`, once the resource file is mapped: seek to the
     * BAR register in the config file, read it, and point `addr` at the BAR.
     * The open of the config file is not checked (the resource descriptor is
     * checked instead), so a missing config file shows up as a failed seek.
     */
    method OpenConfig(env: Env) returns (status: int, out: seq<Event>)
      requires Valid()
      modifies this`pci, this`choose
      ensures Valid()
      ensures status == (if ConfigReadable(old(pci), env) then 0 else -1)
      ensures status == -1 ==> choose == old(choose) && pci == old(pci) && out == [Note(ConfigFault(old(pci), env))]
      ensures status == 0 ==>
        var cpath := ConfigPath(old(pci).domain, old(pci).bus, old(pci).slot, old(pci).fn);
        && choose == Pci && out == []
        && pci == old(pci).(phys := pci.phys, offset := pci.offset, addr := pci.addr, isOpen := true)
        && pci.phys == ReadRegister(old(pci.phys), env.configs[cpath], ConfigRegister(old(pci.bar)))
        && pci.offset == BarOffset(pci.phys) && pci.offset < MAP_SIZE && pci.offset % 16 == 0
        && pci.addr == (pci.maddr + pci.offset) % U64
    {
      var cpath := ConfigPath(pci.domain, pci.bus, pci.slot, pci.fn);
      var at := ConfigRegister(pci.bar);
      if cpath !in env.configs || at >= 0x8000_0000 {
        return -1, [Note(LseekFailed)];
      }
      if !env.readOk {
        return -1, [Note(ConfigReadFailed)];
      }
      var phys := ReadRegister(pci.phys, env.configs[cpath], at);
      var offset := BarOffset(phys);
      pci := pci.(phys := phys, offset := offset, addr := (pci.maddr + offset) % U64, isOpen := true);
      choose := Pci;
      return 0, [];
    }

    /**
     * `read_addr`: record the request in the selected backend's record and
     * read.  The local backend maps the page afresh for every access.
     */
    method ReadAddr(addr: nat, width: nat, n: nat, env: Env) returns (out: seq<Event>)
      requires Valid() && addr < U64
      modifies this`local, this`pci
      ensures Valid() && choose == old(choose)
      ensures choose == Local ==> pci == old(pci) && LocalReadBy(old(local), local, mem[..], addr, width, n, env, out)
      ensures choose == Pci ==> local == old(local) && PciReadBy(old(pci), pci, bar[..], addr, width, n, out)
    {
      out := [];
      if choose == Local {
        local := local.(addr := addr, number := n % U32, accessType := width % 256);
        var o := LocalOpen(addr, mem.Length, env.devOpens, env.devMaps);
        if o.OpenFailed? {
          local := local.(mapBase := FailedBase(o.msg, local.mapBase));
          return [Note(o.msg)];
        }
        local := local.(mapBase := o.mapBase, virt := o.virt);
        out := LocalRead(mem, local);
      }
      if choose == Pci {
        pci := pci.(addr := addr, number := n % U32, accessType := width % 256);
        out := PciRead(bar, pci);
      }
    }

    /** `write_addr`: record the request in the selected backend's record and write. */
    method WriteAddr(addr: nat, width: nat, v: nat, env: Env) returns (out: seq<Event>)
      requires Valid() && addr < U64
      modifies this`local, this`pci, mem, bar
      ensures Valid() && choose == old(choose) && bar == old(bar)
      ensures choose == Local ==>
        && pci == old(pci) && LocalWriteBy(old(local), local, old(mem[..]), mem[..], addr, width, v, env, out)
        && (mem != bar ==> bar[..] == old(bar[..]))
      ensures choose == Pci ==>
        && local == old(local) && PciWriteBy(old(pci), pci, old(bar[..]), bar[..], addr, width, v, out)
        && (mem != bar ==> mem[..] == old(mem[..]))
    {
      out := [];
      if choose == Local {
        local := local.(addr := addr, value := v, accessType := width % 256);
        var o := LocalOpen(addr, mem.Length, env.devOpens, env.devMaps);
        if o.OpenFailed? {
          local := local.(mapBase := FailedBase(o.msg, local.mapBase));
          return [Note(o.msg)];
        }
        local := local.(mapBase := o.mapBase, virt := o.virt);
        out := LocalWrite(mem, local);
      }
      if choose == Pci {
        pci := pci.(addr := addr, value := v, accessType := width % 256);
        out := PciWrite(bar, pci);
      }
    }

    /**
     * What carrying out command c leaves, against the state before it: per
     * kind of command, the output and the new records, backend and memory.
     * Only `use` commands change the backend, and a switch to pci leaves it
     * open.
     */
    twostate predicate Performed(c: Command, env: Env, out: seq<Event>)
      requires old(Valid())
      reads this, mem, bar
    {
      && (!c.UseMem? && !c.UsePci? ==> choose == old(choose))
      && (choose == Pci && old(choose) != Pci ==> pci.isOpen)
      && (Reply(c).Some? ==>
            && out == Reply(c).value
            && choose == old(choose) && local == old(local) && pci == old(pci) && bar == old(bar)
            && mem[..] == old(mem[..]) && bar[..] == old(bar[..]))
      && (c == UseMem ==>
            && out == [] && choose == Local
            && local == old(local) && pci == old(pci) && bar == old(bar)
            && mem[..] == old(mem[..]) && bar[..] == old(bar[..]))
      && (c.UsePciBadSlot? ==>
            && out == [Note(SlotParseError)] && pci == Scanned(old(pci), c.scan.fields)
            && choose == old(choose) && local == old(local) && bar == old(bar)
            && mem[..] == old(mem[..]) && bar[..] == old(bar[..]))
      && (c.UsePci? ==>
            var p := old(pci).(bus := c.bus, slot := c.slot, fn := c.fn, bar := c.bar);
            var already := old(choose) == Pci && old(pci).isOpen;
            && c.bar < U32 && local == old(local) && mem[..] == old(mem[..]) && SameDevice(p, pci)
            && (already ==> out == [] && choose == Pci && pci == p && bar == old(bar))
            && (!already && PciOpens(p, env) ==> out == [] && choose == Pci && pci.isOpen && Attached(p, pci, bar, env))
            && (!already && !PciOpens(p, env) ==>
                  choose == old(choose) && |out| == 1 && out[0].Note? && Abandoned(p, pci, bar, old(bar), env, out)))
      && (c.Access? && !c.write ==>
            && bar == old(bar) && mem[..] == old(mem[..]) && bar[..] == old(bar[..])
            && (choose == Local ==> pci == old(pci) && LocalReadBy(old(local), local, mem[..], c.addr, c.width, c.count, env, out))
            && (choose == Pci ==> local == old(local) && PciReadBy(old(pci), pci, bar[..], c.addr, c.width, c.count, out)))
      && (c.Access? && c.write ==>
            && bar == old(bar)
            && (choose == Local ==>
                  && pci == old(pci) && LocalWriteBy(old(local), local, old(mem[..]), mem[..], c.addr, c.width, c.count, env, out)
                  && (mem != bar ==> bar[..] == old(bar[..])))
            && (choose == Pci ==>
                  && local == old(local) && PciWriteBy(old(pci), pci, old(bar[..]), bar[..], c.addr, c.width, c.count, out)
                  && (mem != bar ==> mem[..] == old(mem[..]))))
    }

    /**
     * The switch of `process_command` once the first word has matched a
     * table: the command's effect on the session, per kind of command.
     */
    method Perform(c: Command, env: Env) returns (status: int, out: seq<Event>)
      requires Valid() && c != Unmatched
      requires c.Access? ==> c.addr < U64
      requires c.UsePci? ==> c.bar < U32
      modifies this, mem, bar
      ensures Valid()
      ensures bar == old(bar) || bar in Resources(env)
      ensures status == (if c == Leave then -1 else 0)
      ensures Performed(c, env, out)
    {
      status := 0;
      match c {
        case Help =>
          out := [Note(HelpText)];
        case UseWhich =>
          out := [Note(ChooseMemOrPci)];
        case UseMem =>
          UseLocal();
          out := [];
        case UsePciArity =>
          out := [Note(NeedMoreArguments)];
        case UsePciBadSlot(sc) =>
          // sscanf has stored the fields it converted before it stopped.
          pci := Scanned(pci, sc.fields);
          out := [Note(SlotParseError)];
        case UsePci(bus, slot, fn, barNumber) =>
          pci := pci.(bus := bus, slot := slot, fn := fn, bar := barNumber);
          var ignored;
          ignored, out := UsePci(env);
        case UseUnknown(_) =>
          out := [Note(NotSupportedType)];
        case MissingAddress =>
          out := [Note(NeedAddress), Fault];
        case BadNumber =>
          out := [Note(NumberError)];
        case VerbUnsupported(_) =>
          out := [Note(NotSupportedType)];
        case Access(write, addr, width, count) =>
          if write {
            out := WriteAddr(addr, width, count, env);
          } else {
            out := ReadAddr(addr, width, count, env);
          }
        case Leave =>
          status := -1;
          out := [];
        case Ignored =>
          out := [];
      }
    }

    /**
     * `process_command`: split the line, find its table, and carry out what
     * it asks.  The status is -1 exactly for `exit` and `quit`.
     */
    method ProcessCommand(line: string, env: Env) returns (status: int, out: seq<Event>)
      requires Valid() && line != []
      modifies this, mem, bar
      ensures Valid()
      ensures bar == old(bar) || bar in Resources(env)
      ensures status == (if Parse(Tokens(line)) == Leave then -1 else 0)
      ensures Performed(Parse(Tokens(line)), env, out)
    {
      var ts := SplitLine(line);
      NonEmptyLineHasToken(line);
      var found := FindTable(ts[0]);
      if found.None? {
        return 0, [Note(NoMatchedCommands)];
      }
      status, out := Perform(Parse(ts), env);
    }

    /**
     * `cli_run` over a given sequence of input lines: empty lines are
     * skipped, and the loop stops after the first line whose status is
     * negative.  `consumed` is how many lines it took.
     */
    method Run(lines: seq<string>, envs: seq<Env>) returns (consumed: nat, out: seq<Event>)
      requires Valid() && |envs| == |lines|
      modifies this, mem, bar, AllResources(envs)
      ensures Valid()
      ensures consumed == FirstLeave(lines)
    {
      consumed := 0;
      out := [];
      ghost var frame := {old(bar)} + AllResources(envs);
      while consumed < |lines|
        invariant Valid() && consumed <= |lines| && bar in frame
        invariant FirstLeave(lines) == consumed + FirstLeave(lines[consumed..])
        decreases |lines| - consumed
      {
        FirstLeaveAt(lines, consumed);
        AllResourcesHas(envs, consumed);
        var leaves, more := Step(lines[consumed], envs[consumed]);
        out := out + more;
        consumed := consumed + 1;
        if leaves {
          return;
        }
      }
      assert lines[consumed..] == [];
    }

    /** One turn of the loop: an empty line is skipped, any other is processed. */
    method Step(line: string, env: Env) returns (leaves: bool, more: seq<Event>)
      requires Valid()
      modifies this, mem, bar
      ensures Valid()
      ensures bar == old(bar) || bar in Resources(env)
      ensures leaves == Leaves(line)
      ensures line == [] ==>
        && more == [] && choose == old(choose) && local == old(local) && pci == old(pci)
        && bar == old(bar) && mem[..] == old(mem[..]) && bar[..] == old(bar[..])
      ensures line != [] ==> Performed(Parse(Tokens(line)), env, more)
    {
      if line == [] {
        leaves, more := false, [];
      } else {
        var status;
        status, more := ProcessCommand(line, env);
        leaves := status < 0;
      }
    }
  }

  /** A line the loop hands on whose command is `exit` or `quit`. */
  predicate Leaves(line: string)
  {
    line != [] && Parse(Tokens(line)) == Leave
  }

  /** How many lines a run takes: up to and including the first that leaves, or all of them. */
  function FirstLeave(lines: seq<string>): (k: nat)
    ensures k <= |lines|
    ensures k < |lines| ==> k > 0 && Leaves(lines[k - 1])
    ensures forall j :: 0 <= j < k - 1 ==> !Leaves(lines[j])
  {
    if lines == [] then 0
    else if Leaves(lines[0]) then 1
    else 1 + FirstLeave(lines[1..])
  }

  lemma FirstLeaveAt(lines: seq<string>, k: nat)
    requires k < |lines|
    ensures FirstLeave(lines[k..]) == if Leaves(lines[k]) then 1 else 1 + FirstLeave(lines[k + 1..])
  {
    assert lines[k..][1..] == lines[k + 1..];
  }
}
