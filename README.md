# devmem4 / devmem2 in Dafny

This project is a verified model of two small user-space tools for reaching
memory-mapped hardware registers.

**devmem4** is interactive. It reads command lines and keeps one of two
backends active:
- the *local* backend maps the 4 KiB page of `/dev/mem` that holds an address;
- the *pci* backend maps a PCI device's BAR resource file. It finds the BAR's
  in-page offset by reading the BAR register from the device's configuration
  space.

Commands:
- `use mem` and `use pci B:S.F bar N` switch the backend;
- `x[/w] ADDR [COUNT]` reads COUNT units of w bits;
- `w[/w] ADDR VALUE` writes VALUE and shows what reads back;
- `help`/`?` shows the help;
- `exit`/`quit` ends the session.

A first token that no table knows prints "no matched commands".

**devmem2** is one-shot. It is driven by `-r -w -a -v -t -n` flags:
1. it validates the flag counts;
2. it maps the page holding the address;
3. it reads, then writes, with units of 1, 4 or 8 bytes (`-t b|w|d`).

The model, module by module:
- `Bits`: unsigned 32- and 64-bit arithmetic as `nat` with explicit `% 2^32` / `% 2^64`, and bitwise AND on naturals.
- `Bytes`: bytes and little-endian loads and stores.
- `Paging`: the page split `addr & ~MAP_MASK` / `addr & MAP_MASK`, the config-register position and the BAR offset.
- `Text`: `str_split`, and simplified `stoull`, `atoi` and `sscanf("%2x:%2x.%1x")`. It also holds the sysfs path formats.
- `Listing`: the structure of a read listing as events.
  - A `Label` starts each group of four units.
  - A `Unit` is each value shown.
  - The listing ends with an `EndLine`, or with a `Fault` where the code would touch memory outside the mapping.
- `Backends`: `local_open`, `local_read`, `local_write`, `pci_read` and `pci_write` over a byte array that stands for the mapping.
- `Interp`: the command tables, the parser of a line into a `Command`, and the `Session` class. The class holds `choose`, the `local` and `pci` records and the two mappings, with `use_local`, `use_pci`, `exit_pci`, `read_addr`, `write_addr`, `process_command` and the stop rule of `cli_run`.
- `OneShot`: devmem2's `cmd_mem` as the class `CmdMem`, with `map_open`, `read_addr` and `write_addr`. It also holds the validation and ordering in `main`.

System calls are parameters.
- `Env` says whether `/dev/mem` opens and maps. A page that lies beyond physical memory never maps. It also gives the resource files, with their sizes and contents, and the configuration-space bytes by path.
- Output is a sequence of events. Its characters are not modelled.

The quirks of the code are modelled as written:
- The access pointer is a `uint64_t *` advanced by `addr & MAP_MASK` elements, so the byte offset into the page is 8·(addr & 4095).
- A 16-bit local read loads 4 bytes.
- A 32-bit write reads back 8 bytes.
- `pci_read`/`pci_write` index a typed pointer with an index that is already scaled, so unit i of width w sits at byte s·(addr + s·i), with s = w/8.
- `use_pci` never sets `bar_addr`.
- `w/16` is not in `cmd_xw`. Its width branch can never be reached.
- A `cmd_xw` verb alone prints "need address at lease" followed by `param_list[1]`, which is one past the end of a one-token list. The model shows that read as a `Fault` after the message.
- devmem2 labels a line with `addr + (i == 0 ? 2 : i - 1)·m`.

## Model

| member | source | states |
|---|---|---|
| Paging.PageBase | devmem4.cpp:222 | the mapping base `addr & ~MAP_MASK` is a multiple of 4096, at most addr, and within 4096 below it; it equals addr − addr mod 4096 |
| Paging.PageOffset | devmem4.cpp:229 | `addr & MAP_MASK` is addr mod 4096, below 4096 |
| Paging.PageMasks | devmem4.cpp:67-68 | the two masks with MAP_MASK = 4095 clear, and keep, exactly the low 12 bits |
| Paging.AddressSplit | devmem2.cpp:180-187 | page base plus in-page offset is the address, and the base lies in the address's page |
| Paging.ElementOffset | devmem2.cpp:187 | advancing a `uint64_t *` by addr & 4095 elements moves 8·(addr mod 4096) bytes, a multiple of 8 |
| Paging.ElementOffsetInPage | devmem4.cpp:229 | that pointer stays inside the mapped page iff addr mod 4096 < 512 |
| Paging.ConfigRegister | devmem4.cpp:482 | the BAR register of BAR n is at byte 0x10 + 4n of configuration space (32-bit arithmetic) |
| Paging.BarOffset | devmem4.cpp:494 | `(phys & 0xFFFFFFF0) % 0x1000` equals `phys & 0xFF0`, equals 16·((phys/16) mod 256), is below 4096 and a multiple of 16 |
| Paging.BarMasks | devmem4.cpp:494 | the two mask expressions agree with the arithmetic forms |
| Paging.BarOffsetExamples | devmem4.cpp:494 | phys 0x12345040 gives offset 0x40; 0x12345000 gives 0 |
| Paging.BarOffsetIgnoresFlags | devmem4.cpp:494 | registers that differ only in the low four flag bits give the same offset |
| Paging.ReadRegister | devmem4.cpp:482-493 | the register is the 4 little-endian bytes at the seek position when the file has them, `phys` keeps its old value when the file is shorter than that position, and a short read of 1 to 3 bytes replaces only that many low bytes of `phys` |
| Bytes.StoreThenLoad | devmem4.cpp:168-183 | a store of n bytes reads back as the value mod 256^n |
| Bytes.StoreThenWiderLoad | devmem4.cpp:176-178 | a wider load after a narrower store returns the stored value plus the old higher bytes |
| Bytes.Store | devmem4.cpp:166-183 | storing into the mapping overwrites exactly the little-endian bytes of the value |
| Text.SplitLine | devmem4.cpp:561-571 | the tokenising loop yields the `getline`-on-space tokens of the line |
| Text.TokensHaveNoSpace | devmem4.cpp:561-571 | no token contains a space |
| Text.JoinTokens | devmem4.cpp:561-571 | joining the tokens with single spaces gives back the line without one trailing space |
| Text.NonEmptyLineHasToken | devmem4.cpp:561-571 | a non-empty line has at least one token |
| Text.ParseHexDigits | devmem4.cpp:665-667 | base-16 parsing of a 64-bit value's digits, with or without `0x`, returns the value |
| Text.ParseDecDigits | devmem4.cpp:676-678 | base-10 parsing of a 64-bit value's digits returns the value |
| Text.ParseRefusesNonDigits | devmem4.cpp:665-684 | a token that does not start with a digit is refused by both parsers |
| Text.AtoiDigits | devmem4.cpp:645 | `atoi` of a decimal numeral gives its value, and gives its negation after `-` |
| Text.BarNumber | devmem4.cpp:645 | the BAR number is `atoi` taken into `uint32_t` |
| Text.ScanSlot | devmem4.cpp:639 | `sscanf("%2x:%2x.%1x")` returns a status from -1 to 3 and as many fields, bus and slot below 256 and function below 16; it returns -1 exactly for an empty token |
| Text.ScanSlotText | devmem4.cpp:639 | the text `BB:SS.F` of any bus, slot and function scans back to exactly those three fields |
| Text.ScanSlotShort | devmem4.cpp:639 | a bus alone, or a bus followed by a malformed rest, fills one field; empty input gives -1; a non-hex start gives 0 |
| Text.ResourcePath | devmem4.cpp:450 | the resource path lies under `/sys/bus/pci/devices/` |
| Text.ConfigPath | devmem4.cpp:475 | the config path lies under `/sys/bus/pci/devices/` |
| Text.PathsFit | devmem4.cpp:450-475 | both paths fit the 100-byte buffer, so the `snprintf` truncation never applies |
| Text.ResourcePathsDiffer | devmem4.cpp:450 | different devices get different resource paths |
| Listing.Reach | devmem4.cpp:106-129 | the number of units read before the first access outside the mapping |
| Listing.DumpShape | devmem4.cpp:106-159 | a listing shows the units up to the first fault; each value is the load at its location; one label heads each group of four; a newline precedes every label except the first; it ends with a fault or a newline |
| Listing.DumpAll | devmem4.cpp:106-159 | when every unit is inside the mapping, all of them are shown and the listing ends with a newline |
| Listing.DumpFirstFault | devmem4.cpp:111-125 | a first unit outside the mapping faults before anything is shown |
| Listing.ReadUnits | devmem4.cpp:106-159 | the unit-index loop produces the listing |
| Backends.Scale | devmem4.cpp:110-125 | a width's unit is width/8 bytes, from 1 to 8 |
| Backends.StridedDump | devmem4.cpp:106-125 | a listing of units at a fixed stride, all inside the mapping, shows unit i loaded at base + stride·i, and ends with a newline |
| Backends.StridedHeads | devmem4.cpp:131-139 | the same listing has one label per group of four, the label of the group's first unit |
| Backends.LocalOpen | devmem4.cpp:213-231 | the open succeeds iff `/dev/mem` opens and the page maps. Failures report the open error or the mmap error, and a page beyond physical memory fails to map. On success the base is the page of addr and the pointer is base + 8·(addr mod 4096) |
| Backends.LocalPointerInPage | devmem4.cpp:229 | the local pointer is inside the page iff addr mod 4096 < 512 |
| Backends.LocalRead | devmem4.cpp:101-160 | the read loop produces the local listing of the mapped memory |
| Backends.LocalInPageEnds | devmem4.cpp:106-125 | all units are in the page iff the first starts in it and the last load ends in it |
| Backends.LocalReadValues | devmem4.cpp:106-159 | with all units in the page, exactly n values are shown, value i being the load at virt + (w/8)·i, and a newline ends the listing |
| Backends.LocalReadLabels | devmem4.cpp:131-139 | group j is labelled (addr + 4j) mod 2^64, with a newline before every label except the first |
| Backends.LocalReadOutside | devmem4.cpp:110-125 | a first load that crosses the page end faults |
| Backends.LocalReadRefuses | devmem4.cpp:126-128 | an unsupported width reports an error and loads nothing; a count of 0 shows only the newline |
| Backends.LocalRead16Overlaps | devmem4.cpp:114-116 | a 16-bit read loads 4 bytes: its own 2 and the next unit's 2 |
| Backends.LocalWrite | devmem4.cpp:162-211 | the write produces the new memory and echo of the local write effect |
| Backends.LocalWriteStores | devmem4.cpp:166-183 | the value truncated to w bits is stored at the pointer and no other byte changes |
| Backends.LocalWriteEchoes | devmem4.cpp:168-183 | for widths 8, 16 and 64 the echo shows the value and its readback value mod 2^w |
| Backends.LocalWrite32Readback | devmem4.cpp:176-178 | a 32-bit write reads back 8 bytes: value mod 2^32 plus 2^32 times the next 4 bytes |
| Backends.PciRead | devmem4.cpp:248-310 | the read loop produces the PCI listing of the BAR mapping |
| Backends.PciAtNoWrap | devmem4.cpp:261-274 | without 64-bit wrap-around, the byte s·index is at s·index − maddr in the mapping |
| Backends.PciUnitAddress | devmem4.cpp:261-274 | unit i of width w is read at byte s·addr + s²·i of the address space, with s = w/8 |
| Backends.PciByteRead | devmem4.cpp:261-263 | 8-bit reads show the BAR bytes at addr − maddr + i, all n of them |
| Backends.PciWideReadFaults | devmem4.cpp:264-274 | a wider read of an address past the mapping's base faults at once, when the mapping's address is at least its size |
| Backends.PciWrite | devmem4.cpp:312-365 | the write produces the new BAR contents and echo of the PCI write effect |
| Backends.PciByteWrite | devmem4.cpp:318-321 | an 8-bit write stores the low byte and reads back that same byte |
| Backends.PciWrite32ReadsElsewhere | devmem4.cpp:329-331 | a 32-bit write stores at byte 4·addr but reads back 8 bytes at 8·addr, so the echo shows the old contents there |
| Backends.OverwriteElsewhere | devmem4.cpp:329-331 | a store leaves bytes after it untouched |
| Interp.FindTable | devmem4.cpp:595-606 | the table scan finds the first table holding the verb, and finds none exactly when no table knows it |
| Interp.UseReachesBranch | devmem4.cpp:618-619 | a line starting with `use` is decided by the `use` branch |
| Interp.ParseUnmatched | devmem4.cpp:607-611 | a line is unmatched iff its first token is in no table |
| Interp.VerbsHaveWidths | devmem4.cpp:53 | every verb of `cmd_xw` selects a width; the only width branch outside the table is `w/16`, and no table knows it |
| Interp.VerbWidths | devmem4.cpp:687-730 | x/8→8, x/16→16, x and x/32→32, x/64→64 for reads; w/8→8, w and w/32→32, w/64→64 for writes |
| Interp.ParseAccess | devmem4.cpp:654-734 | an access has a `cmd_xw` verb and an address parsed in base 16. Its count is parsed in base 10 only with exactly three tokens, else it is 1. Its width is one of 8/16/32/64, but never a 16-bit write |
| Interp.ParseAccessWhen | devmem4.cpp:654-685 | a `cmd_xw` line whose numbers parse becomes an access |
| Interp.ParseBadNumber | devmem4.cpp:665-685 | a bad address or count is reported as a bad number |
| Interp.ParseUsePci | devmem4.cpp:626-644 | `use pci` is accepted iff there are exactly five tokens and the slot scan fills all three fields |
| Interp.ParseUsePciFields | devmem4.cpp:639-645 | an accepted `use pci` carries the scanned bus, slot and function and the `atoi` BAR number |
| Interp.ParseUsePciSelects | devmem4.cpp:639-647 | the accepted command is built from exactly those fields |
| Interp.ParseUsePciText | devmem4.cpp:626-647 | `use pci BB:SS.F <any> N` selects exactly that device and BAR |
| Interp.ParseLeave | devmem4.cpp:736-742 | a line leaves iff its first token is `exit` or `quit` |
| Interp.Session.constructor | devmem4.cpp:64 | the session starts with the local backend and no PCI device open |
| Interp.Session.UseLocal | devmem4.cpp:242-245 | `use mem` selects the local backend |
| Interp.Session.ExitPci | devmem4.cpp:504-509 | exiting PCI only clears `opened` |
| Interp.Session.UsePci | devmem4.cpp:437-502 | an open active PCI backend returns 0 and changes nothing. Otherwise the status is 0 iff every step succeeds, and then pci is chosen, opened and loaded from the files. A failure returns -1 with `choose` unchanged, the failing stage's message, and the fields the earlier stages wrote. The device identity never changes |
| Interp.Session.MapResource | devmem4.cpp:450-462 | the resource path is stored in `filename` before the open. A missing file or a failed `fstat` prints its message and changes nothing else; otherwise the mapping follows |
| Interp.Session.MapFile | devmem4.cpp:462-470 | the size is the file length as `uint32_t`. An unmappable or empty file resets `maddr` to 0 and prints the I/O-BAR message. Otherwise `maddr` is the mapping, and it stays set when the config step then fails with that step's message |
| Interp.Session.OpenConfig | devmem4.cpp:472-499 | the config read succeeds iff the file exists, the register offset fits a signed 32-bit `lseek` result and the read succeeds. Then `phys` is the register, `offset` the BAR offset and `addr` = `maddr` + offset. A failure prints the seek or the read message and changes nothing |
| Interp.Session.ReadAddr | devmem4.cpp:512-535 | the active record stores addr whole, the count as a `uint32_t` (n mod 2^32) and the width as a `char` access type (width mod 256). On local, the page of addr is mapped afresh and its listing printed. A failed open of `/dev/mem` prints its message and keeps `map_base`; a failed `mmap` prints its message and leaves `MAP_FAILED` there. On pci, the BAR listing is printed. The other record and all memory are unchanged |
| Interp.Session.WriteAddr | devmem4.cpp:537-558 | as ReadAddr, but the value is stored instead of the count. The active backend's memory changes by its write effect, and a failed local open changes none. The other array is unchanged unless it is the same array |
| Interp.Session.ProcessCommand | devmem4.cpp:586-744 | the status is -1 exactly for `exit`/`quit`, else 0. Help, the unmatched, incomplete and malformed commands, `exit`/`quit` and the words answered by no branch print their message (or nothing) and change neither record, the backend nor memory. `use mem` only selects local. A bad slot stores just the fields `sscanf` converted. `use pci` stores the slot and BAR and keeps an already open device. Otherwise it attaches the device and selects pci iff it opens, or leaves the failing stage's fields and message as UsePci states; its status is discarded. `x`/`w` read or write through the backend active before the command, as ReadAddr and WriteAddr state |
| Interp.Session.Perform | devmem4.cpp:613-744 | the same per-command effects, for a command whose first word matched a table |
| Interp.Session.Step | devmem4.cpp:761-769 | an empty line is skipped: no events, nothing changes. Any other line has the output and the new state that ProcessCommand states for its command, and Step reports whether the session stops |
| Interp.Session.Run | devmem4.cpp:746-777 | the session consumes lines up to and including the first one whose status is negative |
| Interp.FirstLeave | devmem4.cpp:765-769 | the stop position is just after the first `exit`/`quit` line, and no earlier line leaves |
| Interp.FirstLeaveAt | devmem4.cpp:765-769 | the stop position of a suffix, one line at a time |
| OneShot.ValidateCases | devmem2.cpp:222-236 | help iff argc is 1. Then "specify address" iff `-r`/`-w` is given without exactly one `-a`. Then "specify value" iff `-w` is given without one `-v`. Otherwise proceed with the read and write flags |
| OneShot.HeadLabels | devmem2.cpp:84-108 | the label list is addr + 2m for the first group and addr + (i − 1)·m after it |
| OneShot.ReadValues | devmem2.cpp:66-82 | with all units in the page, exactly `number` values are shown, value i being the k-byte load at virt + k·i |
| OneShot.ReadLabels | devmem2.cpp:84-108 | the first line is labelled addr + 2m; group j > 0 is labelled addr + (4j − 1)·m after a newline |
| OneShot.ReadRefuses | devmem2.cpp:76-81 | an unknown type prints an error and loads nothing; a count of 0 shows only the newline |
| OneShot.WriteReadsBack | devmem2.cpp:132-149 | the value truncated to 8·k bits is stored, no other byte changes, and the echo shows that truncated value |
| OneShot.WriteRefuses | devmem2.cpp:145-148 | an unknown type stores nothing; a store past the page faults and stores nothing |
| OneShot.CmdMem.constructor | devmem2.cpp:202-205 | the defaults are type 'w' and number 1 |
| OneShot.CmdMem.MapOpen | devmem2.cpp:171-189 | the mapping succeeds as `local_open` does; the base is the page and the pointer base + 8·(addr mod 4096). A failure reports one message and keeps the pointer; a failed `mmap` leaves `(void *) -1` in `map_base` |
| OneShot.CmdMem.ReadAddr | devmem2.cpp:60-126 | the read loop produces the devmem2 listing |
| OneShot.CmdMem.WriteAddr | devmem2.cpp:128-169 | the write produces the new memory and the echo of the devmem2 write effect |
| OneShot.CmdMem.Perform | devmem2.cpp:238-252 | a mapped run is mapping, then the read, then the write |
| OneShot.Execute | devmem2.cpp:200-254 | the whole run has the effect of validation followed by the mapped run |
| OneShot.RefusalsChangeNothing | devmem2.cpp:222-241 | a refused validation or a failed mapping prints one message and touches no memory |
| OneShot.ReadOnlyChangesNothing | devmem2.cpp:243-245 | a read-only run leaves memory unchanged |
| OneShot.ReadBeforeWrite | devmem2.cpp:243-250 | with `-r -w` the listing comes from the memory before the write, followed by the write's echo |
| OneShot.Defaults | devmem2.cpp:202-205 | with defaults, one 4-byte unit is read at base + 8·(addr mod 4096) and labelled addr + 8 |

## Left out

- The system calls `open`, `mmap`, `fstat`, `lseek`, `read`, `munmap` and `close` are not executed. Their success or failure are `Env` parameters, and their data are byte sequences. Error messages are tags, without `strerror` text.
- `msync` and the volatile accesses are not modelled. Memory is plain bytes, so readback equality holds only there.
- Memory outside the page or BAR mapping is not modelled: an access there shows as a `Fault` event.
- readline, history, the prompt and the Ctrl-D loop of `cli_run` are left out. Only the stop-on-negative-status rule is modelled; the lines arrive as a sequence.
- CLI11 argument parsing in devmem2 is a foreign library. The flag counts and option values are given as `Args`.
- iostream formatting (`std::hex`, `setw`, `std::left`) is not modelled. Output is a structure of labels, values and messages.
- The help text and the readline history are left out. `help` and `?` are recognised, but the text they print is not modelled.
- Text.ParseHex64 and Text.ParseDec64 model `stoull` only for digit runs, with an optional `0x` in base 16. The exceptions for no digits and for a value of 2^64 or more become a refusal. They refuse tokens that `stoull` accepts: leading whitespace and a sign. `stoull("-1", 0, 16)` is 2^64 − 1, where the model prints the number error.
- Text.Atoi covers an optional sign and decimal digits, but not leading whitespace. The range of a C `int` is not enforced, so `atoi`'s undefined overflow is not modelled.
- Text.ScanSlot refuses slot texts that `sscanf("%2x:%2x.%1x")` accepts: leading whitespace, a sign, and a `0x` prefix inside `%x`. The model converts no further field at such a character, where `sscanf` can.
- `snprintf` truncation is not modelled; Text.PathsFit shows the paths always fit.
- `pci_open` is not modelled: nothing calls it.
- `local_close` and `pci_close` (run on `exit`/`quit`) and devmem2's `map_close` are not modelled. They only unmap and close, and the unmap-failure message is not modelled either.
- The unmapping and file-descriptor leaks are not modelled: `local_open` runs on every access, and a repeated `use pci` maps again.
- The wrong-descriptor check after the config open is not modelled: a missing config file shows as a failed `lseek`.
- The `fd` fields of `struct local`, `struct pci` and `struct cmd_mem` are not modelled, including the -1 a failed open stores. Only `close` reads them, and the closes are left out.
- Interp.Session.Run states where the session stops, not the events it prints. The per-line effects are stated by Interp.Session.Step, which Run calls once per line.
- Aliasing of the page mapping and a BAR mapping is not excluded. A write states that the other array is unchanged only when the two are distinct arrays.
- Interp.Session.ExitPci is not a command of the interpreter, matching the code, where it is never called.
