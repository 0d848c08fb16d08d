/**
 * The text the interactive tool reads and writes.
 *
 * A command line is split on single spaces the way repeated
 * `getline(input, temp, ' ')` splits it; numbers are read with `std::stoull`
 * (base 16 for addresses, base 10 for counts and values), the PCI slot with
 * `sscanf(..., "%2x:%2x.%1x", ...)` and the BAR number with `atoi`; the sysfs
 * paths are formatted with `snprintf`.  Leading whitespace, signs and
 * locale handling of the C library are not modelled.
 */
module Text {

  import opened Bits

  datatype Option<T> = None | Some(value: T)

  /* ---------------------------------------------------------------- split */

  /** Index of the first space of s, or |s| when it has none. */
  function FirstSpace(s: string): (i: nat)
    ensures i <= |s|
    ensures i < |s| ==> s[i] == ' '
    ensures forall j :: 0 <= j < i ==> s[j] != ' '
  {
    if s == [] || s[0] == ' ' then 0 else 1 + FirstSpace(s[1..])
  }

  /**
   * The pieces `getline(input, temp, ' ')` yields: everything up to the next
   * space, the space dropped.  A final space ends the input without a further
   * (empty) piece, and an empty line has no pieces at all.
   */
  function Tokens(s: string): seq<string>
    decreases |s|
  {
    if s == [] then []
    else
      var i := FirstSpace(s);
      if i == |s| then [s] else [s[..i]] + Tokens(s[i + 1..])
  }

  /** `str_split`: tokens are pushed one by one as the line is scanned. */
  method SplitLine(line: string) returns (res: seq<string>)
    ensures res == Tokens(line)
  {
    res := [];
    var start, i := 0, 0;
    while i < |line|
      invariant start <= i <= |line|
      invariant ' ' !in line[start..i]
      invariant res + Tokens(line[start..]) == Tokens(line)
    {
      if line[i] == ' ' {
        SplitAdvance(line, start, i, res);
        res := res + [line[start..i]];
        start := i + 1;
      } else {
        NoSpaceGrows(line, start, i);
      }
      i := i + 1;
    }
    assert line[start..i] == line[start..];
    SplitEnd(line, start, res);
    if start < |line| {
      res := res + [line[start..]];
    }
  }

  lemma NoSpaceGrows(line: string, start: nat, i: nat)
    requires start <= i < |line| && line[i] != ' ' && ' ' !in line[start..i]
    ensures ' ' !in line[start..i + 1]
  {
    assert line[start..i + 1] == line[start..i] + [line[i]];
  }

  /** The loop's step over a space: the token before it joins the result. */
  lemma SplitAdvance(line: string, start: nat, i: nat, res: seq<string>)
    requires start <= i < |line| && line[i] == ' '
    requires ' ' !in line[start..i]
    requires res + Tokens(line[start..]) == Tokens(line)
    ensures (res + [line[start..i]]) + Tokens(line[i + 1..]) == Tokens(line)
  {
    SplitStep(line, start, i);
    var t, rest := line[start..i], Tokens(line[i + 1..]);
    assert (res + [t]) + rest == res + ([t] + rest);
  }

  /** A space at index i, the first after `start`, closes the token that begins there. */
  lemma SplitStep(line: string, start: nat, i: nat)
    requires start <= i < |line| && line[i] == ' '
    requires ' ' !in line[start..i]
    ensures Tokens(line[start..]) == [line[start..i]] + Tokens(line[i + 1..])
  {
    var s, k := line[start..], i - start;
    assert FirstSpace(s) == k by {
      forall j | 0 <= j < k ensures s[j] != ' ' { assert s[j] == line[start..i][j]; }
      FirstSpaceIs(s, k);
    }
    TokensAt(s, k);
    assert s[..k] == line[start..i];
    assert s[k + 1..] == line[i + 1..];
  }

  /** What is left after the last space is the final token, if anything is left. */
  lemma SplitEnd(line: string, start: nat, res: seq<string>)
    requires start <= |line|
    requires ' ' !in line[start..]
    requires res + Tokens(line[start..]) == Tokens(line)
    ensures Tokens(line[start..]) == if start < |line| then [line[start..]] else []
    ensures Tokens(line) == if start < |line| then res + [line[start..]] else res
  {
    var s := line[start..];
    if start < |line| {
      assert forall j :: 0 <= j < |s| ==> s[j] != ' ';
      FirstSpaceIs(s, |s|);
    }
  }

  /** The first space is at i when s has a space at i (or i is its end) and none before. */
  lemma {:induction false} FirstSpaceIs(s: string, i: nat)
    requires i <= |s| && (i < |s| ==> s[i] == ' ')
    requires forall j :: 0 <= j < i ==> s[j] != ' '
    ensures FirstSpace(s) == i
  {
    if i > 0 {
      FirstSpaceIs(s[1..], i - 1);
    }
  }

  /** No token holds a space. */
  lemma {:induction false} TokensHaveNoSpace(s: string)
    ensures forall t, j :: t in Tokens(s) && 0 <= j < |t| ==> t[j] != ' '
    decreases |s|
  {
    if s != [] {
      var i := FirstSpace(s);
      if i < |s| {
        var rest := s[i + 1..];
        TokensHaveNoSpace(rest);
        TokensAt(s, i);
        forall t, j | t in Tokens(s) && 0 <= j < |t|
          ensures t[j] != ' '
        {
          if t != s[..i] {
            assert t in Tokens(rest);
          }
        }
      } else {
        TokensAt(s, i);
      }
    }
  }

  /** Unfolding the split at the first space, or at the end when there is none. */
  lemma TokensAt(s: string, k: nat)
    requires s != [] && FirstSpace(s) == k
    ensures k < |s| ==> Tokens(s) == [s[..k]] + Tokens(s[k + 1..])
    ensures k == |s| ==> Tokens(s) == [s]
  {
  }

  /** A line that is not empty yields at least one token, so `param_list[0]` exists. */
  lemma NonEmptyLineHasToken(s: string)
    requires s != []
    ensures |Tokens(s)| >= 1
  {
  }

  /** Tokens joined back with single spaces, the inverse of the split. */
  function Join(ts: seq<string>): string
  {
    if ts == [] then [] else if |ts| == 1 then ts[0] else ts[0] + " " + Join(ts[1..])
  }

  /** The line less one trailing space, if it has one. */
  function Trimmed(s: string): string
  {
    if s != [] && s[|s| - 1] == ' ' then s[..|s| - 1] else s
  }

  /** Joining the tokens gives the line back, less one trailing space. */
  lemma {:induction false} JoinTokens(s: string)
    ensures Join(Tokens(s)) == Trimmed(s)
    decreases |s|
  {
    if s != [] {
      var i := FirstSpace(s);
      TokensAt(s, i);
      if i < |s| {
        var t, rest := s[..i], s[i + 1..];
        assert s == t + " " + rest;
        JoinTokens(rest);
        JoinTokensStep(s, t, rest);
      }
    }
  }

  lemma JoinTokensStep(s: string, t: string, rest: string)
    requires s == t + " " + rest
    requires Tokens(s) == [t] + Tokens(rest)
    requires Join(Tokens(rest)) == Trimmed(rest)
    ensures Join(Tokens(s)) == Trimmed(s)
  {
    if rest == [] {
      assert Join(Tokens(s)) == t by { assert [t] + [] == [t]; }
      assert s[..|s| - 1] == t;
    } else {
      NonEmptyLineHasToken(rest);
      JoinCons(t, Tokens(rest));
      assert s[|s| - 1] == rest[|rest| - 1];
      if rest[|rest| - 1] == ' ' {
        assert s[..|s| - 1] == t + " " + rest[..|rest| - 1];
      }
    }
  }

  lemma JoinCons(t: string, ts: seq<string>)
    requires ts != []
    ensures Join([t] + ts) == t + " " + Join(ts)
  {
    assert ([t] + ts)[1..] == ts;
  }

  /* --------------------------------------------------------------- digits */

  predicate IsDec(c: char) { '0' <= c <= '9' }

  predicate IsHex(c: char) { IsDec(c) || 'a' <= c <= 'f' || 'A' <= c <= 'F' }

  function DigitValue(c: char): (d: nat)
    requires IsHex(c)
    ensures d < 16 && (IsDec(c) ==> d < 10)
  {
    if IsDec(c) then c as nat - '0' as nat
    else if 'a' <= c <= 'f' then c as nat - 'a' as nat + 10
    else c as nat - 'A' as nat + 10
  }

  /** The lower-case hexadecimal digit `std::hex` and `%x` print for d. */
  function HexChar(d: nat): (c: char)
    requires d < 16
    ensures IsHex(c) && DigitValue(c) == d
  {
    if d < 10 then ('0' as nat + d) as char else ('a' as nat + d - 10) as char
  }

  function DecChar(d: nat): (c: char)
    requires d < 10
    ensures IsDec(c) && DigitValue(c) == d
  {
    ('0' as nat + d) as char
  }

  /** The value of a digit string in the given base, most significant digit first. */
  function Value(s: string, base: nat): nat
    requires base == 10 || base == 16
    requires forall j :: 0 <= j < |s| ==> IsHex(s[j])
  {
    if s == [] then 0 else Value(s[..|s| - 1], base) * base + DigitValue(s[|s| - 1])
  }

  predicate IsDigit(c: char, base: nat) { if base == 10 then IsDec(c) else IsHex(c) }

  /** How many leading characters of s are digits of the base. */
  function Run(s: string, base: nat): (n: nat)
    ensures n <= |s|
    ensures forall j :: 0 <= j < n ==> IsDigit(s[j], base)
    ensures n < |s| ==> !IsDigit(s[n], base)
  {
    if s == [] || !IsDigit(s[0], base) then 0 else 1 + Run(s[1..], base)
  }

  /** Digits of v in the base, without leading zeros ("0" for zero). */
  function Digits(v: nat, base: nat): (s: string)
    requires base == 10 || base == 16
    ensures |s| >= 1 && forall j :: 0 <= j < |s| ==> IsDigit(s[j], base) && IsHex(s[j])
  {
    var d := if base == 10 then DecChar(v % base) else HexChar(v % base);
    if v < base then [d] else Digits(v / base, base) + [d]
  }

  lemma {:induction false} DigitsValue(v: nat, base: nat)
    requires base == 10 || base == 16
    ensures Value(Digits(v, base), base) == v
  {
    var s := Digits(v, base);
    if v < base {
      assert s[..0] == [];
    } else {
      DigitsValue(v / base, base);
      assert s[..|s| - 1] == Digits(v / base, base);
    }
  }

  /** A base's digits are read back whole, up to the first character that is not one. */
  lemma {:induction false} RunOfDigits(s: string, rest: string, base: nat)
    requires forall j :: 0 <= j < |s| ==> IsDigit(s[j], base)
    requires rest == [] || !IsDigit(rest[0], base)
    ensures Run(s + rest, base) == |s|
    decreases |s|
  {
    if s != [] {
      assert (s + rest)[1..] == s[1..] + rest;
      RunOfDigits(s[1..], rest, base);
    } else {
      assert s + rest == rest;
    }
  }

  /** The number of digits v has in the base is at most its digit count bound. */
  lemma {:induction false} DigitsLength(v: nat, base: nat, k: nat)
    requires base == 10 || base == 16
    requires v < Power(base, k)
    ensures |Digits(v, base)| <= if k == 0 then 1 else k
  {
    if v >= base {
      assert Power(base, 1) == base;
      DivBound(v, base, k);
      DigitsLength(v / base, base, k - 1);
    }
  }

  function Power(b: nat, k: nat): (r: nat)
    ensures b > 0 ==> r > 0
  {
    if k == 0 then 1 else b * Power(b, k - 1)
  }

  lemma DivBound(v: nat, b: nat, k: nat)
    requires b > 0 && k > 0 && v < Power(b, k)
    ensures v / b < Power(b, k - 1)
  {
    var p := Power(b, k - 1);
    if v / b >= p {
      MulMono(b, p, v / b);
    }
  }

  /* -------------------------------------------------------------- numbers */

  /**
   * `std::stoull(s, 0, 16)`: an optional `0x`/`0X` prefix, then the longest
   * run of hexadecimal digits; text after the run is ignored.  No digit at all
   * and a value of 2^64 or more both throw, here `None`.
   */
  function ParseHex64(s: string): (r: Option<nat>)
    ensures r.Some? ==> r.value < U64
  {
    if |s| >= 3 && s[0] == '0' && (s[1] == 'x' || s[1] == 'X') && IsHex(s[2]) then HexRun(s[2..]) else HexRun(s)
  }

  /** The leading hexadecimal digits of s as a 64-bit number, if there are any and it fits. */
  function HexRun(s: string): (r: Option<nat>)
    ensures r.Some? ==> r.value < U64
  {
    var n := Run(s, 16);
    if n == 0 then None
    else
      var v := Value(s[..n], 16);
      if v < U64 then Some(v) else None
  }

  /** `std::stoull(s, 0, 10)`: the longest run of decimal digits, at least one, below 2^64. */
  function ParseDec64(s: string): (r: Option<nat>)
    ensures r.Some? ==> r.value < U64
  {
    var n := Run(s, 10);
    if n == 0 then None
    else
      var v := Value(s[..n], 10);
      if v < U64 then Some(v) else None
  }

  /** Every 64-bit number, printed in hexadecimal with or without `0x`, is read back by the address parser. */
  lemma ParseHexDigits(v: nat, rest: string)
    requires v < U64
    requires rest == [] || (!IsHex(rest[0]) && rest[0] != 'x' && rest[0] != 'X')
    ensures ParseHex64(Digits(v, 16) + rest) == Some(v)
    ensures ParseHex64("0x" + Digits(v, 16) + rest) == Some(v)
  {
    var d := Digits(v, 16);
    var t := d + rest;
    HexRunDigits(v, rest);
    assert t[0] == d[0];
    assert |t| >= 2 ==> IsHex(t[1]) || t[1] == rest[0] by {
      assert |t| >= 2 ==> t[1] == if |d| >= 2 then d[1] else rest[0];
    }
    ParseHexPlain(t);
    ParseHexPrefixed(d, rest);
  }

  lemma HexRunDigits(v: nat, rest: string)
    requires v < U64
    requires rest == [] || !IsHex(rest[0])
    ensures HexRun(Digits(v, 16) + rest) == Some(v)
  {
    var d := Digits(v, 16);
    DigitsValue(v, 16);
    RunOfDigits(d, rest, 16);
    assert (d + rest)[..|d|] == d;
  }

  /** Without a `0x` in front, the address parser reads the leading digits. */
  lemma ParseHexPlain(t: string)
    requires |t| >= 1 && IsHex(t[0]) && (|t| >= 2 ==> t[1] != 'x' && t[1] != 'X')
    ensures ParseHex64(t) == HexRun(t)
  {
  }

  /** With a `0x` in front of a digit, it reads the digits after the prefix. */
  lemma ParseHexPrefixed(d: string, rest: string)
    requires |d| >= 1 && IsHex(d[0])
    ensures ParseHex64("0x" + d + rest) == HexRun(d + rest)
  {
    var s := "0x" + d + rest;
    assert s[2..] == d + rest;
    assert s[2] == d[0];
  }

  /** Every 64-bit number printed in decimal is read back by the count parser. */
  lemma ParseDecDigits(v: nat, rest: string)
    requires v < U64
    requires rest == [] || !IsDec(rest[0])
    ensures ParseDec64(Digits(v, 10) + rest) == Some(v)
  {
    var d := Digits(v, 10);
    DigitsValue(v, 10);
    RunOfDigits(d, rest, 10);
    assert (d + rest)[..|d|] == d;
  }

  /** A token that does not start with a digit is refused by both parsers. */
  lemma ParseRefusesNonDigits(s: string)
    requires s == [] || !IsHex(s[0])
    ensures ParseHex64(s) == None
    ensures ParseDec64(s) == None
  {
  }

  /**
   * `atoi`: an optional sign, then the longest run of decimal digits; a string
   * with no digits is 0.  The result's range as a C `int` is not enforced.
   */
  function Atoi(s: string): (r: int)
    ensures s != [] && IsDec(s[0]) ==> r >= 0
    ensures Run(if s != [] && (s[0] == '+' || s[0] == '-') then s[1..] else s, 10) == 0 ==> r == 0
  {
    var neg := s != [] && s[0] == '-';
    var body := if s != [] && (s[0] == '+' || s[0] == '-') then s[1..] else s;
    var v := Value(body[..Run(body, 10)], 10);
    if neg then -(v as int) else v as int
  }

  /** `bar = atoi(...)` stores into an `unsigned int`: the value taken modulo 2^32. */
  function BarNumber(s: string): (bar: nat)
    ensures bar < U32
    ensures 0 <= Atoi(s) < U32 ==> bar == Atoi(s)
  {
    Atoi(s) % U32
  }

  lemma AtoiDigits(v: nat)
    ensures Atoi(Digits(v, 10)) == v
    ensures Atoi("-" + Digits(v, 10)) == -(v as int)
  {
    var d := Digits(v, 10);
    DigitsValue(v, 10);
    RunOfDigits(d, [], 10);
    assert d + [] == d;
    assert d[..|d|] == d;
    assert ("-" + d)[1..] == d;
  }

  /* ----------------------------------------------------------------- slot */

  /** What `sscanf` returns, and the values it assigned, in order, before it stopped. */
  datatype Scan = Scan(status: int, fields: seq<nat>)

  /** `%Nx`: at least one and at most `width` hexadecimal digits. */
  function ScanHex(s: string, width: nat): (n: nat)
    ensures n <= width && n <= |s|
    ensures forall j :: 0 <= j < n ==> IsHex(s[j])
  {
    var r := Run(s, 16);
    if r < width then r else width
  }

  /** One `%Nx` conversion: its value and the input it leaves, or `None` when no digit is there. */
  function ScanField(s: string, width: nat): (r: Option<(nat, string)>)
    requires width == 1 || width == 2
    ensures r.Some? ==> r.value.0 < (if width == 1 then 16 else 256) && |r.value.1| < |s|
    ensures r.None? <==> s == [] || !IsHex(s[0])
  {
    var n := ScanHex(s, width);
    if n == 0 then None
    else
      ScanBound(s[..n]);
      Some((Value(s[..n], 16), s[n..]))
  }

  /**
   * `sscanf(s, "%2x:%2x.%1x", &bus, &slot, &fn)`: each conversion takes
   * one or two digits (one for the fn), the `:` and `.` must follow
   * literally.  The status counts the conversions made; running out of input
   * before the first one is `EOF` (-1).
   */
  function ScanSlot(s: string): (r: Scan)
    ensures -1 <= r.status <= 3
    ensures |r.fields| == if r.status < 0 then 0 else r.status
    ensures r.status == -1 <==> s == []
    ensures |r.fields| >= 1 ==> r.fields[0] < 256
    ensures |r.fields| >= 2 ==> r.fields[1] < 256
    ensures |r.fields| == 3 ==> r.fields[2] < 16
  {
    if s == [] then Scan(-1, [])
    else
      match ScanField(s, 2)
      case None => Scan(0, [])
      case Some((bus, t)) =>
        if t == [] || t[0] != ':' then Scan(1, [bus])
        else
          match ScanField(t[1..], 2)
          case None => Scan(1, [bus])
          case Some((slot, w)) =>
            if w == [] || w[0] != '.' then Scan(2, [bus, slot])
            else
              match ScanField(w[1..], 1)
              case None => Scan(2, [bus, slot])
              case Some((fn, _)) => Scan(3, [bus, slot, fn])
  }

  /** One hexadecimal digit is below 16, two are below 256. */
  lemma ScanBound(s: string)
    requires 1 <= |s| <= 2 && forall j :: 0 <= j < |s| ==> IsHex(s[j])
    ensures Value(s, 16) < if |s| == 1 then 16 else 256
  {
    if |s| == 1 {
      assert s[..0] == [];
    } else {
      assert s[..1][..0] == [];
    }
  }

  /** `%0Nx`: v in hexadecimal, padded with zeros on the left to at least N digits. */
  function PadHex(v: nat, width: nat): (s: string)
    ensures |s| >= width && |s| >= 1
    ensures forall j :: 0 <= j < |s| ==> IsHex(s[j])
  {
    var d := Digits(v, 16);
    if |d| >= width then d else Zeros(width - |d|) + d
  }

  function Zeros(n: nat): (s: string)
    ensures |s| == n && forall j :: 0 <= j < n ==> s[j] == '0'
  {
    if n == 0 then [] else Zeros(n - 1) + "0"
  }

  /** Leading zeros add nothing to a value. */
  lemma {:induction false} ZerosValue(n: nat, d: string)
    requires forall j :: 0 <= j < |d| ==> IsHex(d[j])
    ensures Value(Zeros(n) + d, 16) == Value(d, 16)
    decreases n, |d|
  {
    var z := Zeros(n);
    if d == [] {
      assert z + d == z;
      if n > 0 {
        assert z[..n - 1] == Zeros(n - 1);
        ZerosValue(n - 1, []);
        assert Zeros(n - 1) + [] == Zeros(n - 1);
      }
    } else {
      var e := d[..|d| - 1];
      assert (z + d)[..|z + d| - 1] == z + e;
      ZerosValue(n, e);
    }
  }

  lemma PadHexValue(v: nat, width: nat)
    ensures Value(PadHex(v, width), 16) == v
  {
    DigitsValue(v, 16);
    var d := Digits(v, 16);
    if |d| < width {
      ZerosValue(width - |d|, d);
    }
  }

  lemma PadHexLength(v: nat, width: nat, k: nat)
    requires 1 <= k <= width && v < Power(16, k)
    ensures |PadHex(v, width)| == width
  {
    DigitsLength(v, 16, k);
  }

  /** The slot as the help text writes it, `BB:SS.F`. */
  function SlotText(bus: nat, slot: nat, fn: nat): string
  {
    PadHex(bus, 2) + ":" + PadHex(slot, 2) + "." + PadHex(fn, 1)
  }

  /** A slot written as `BB:SS.F` scans back to its three numbers, with status 3. */
  lemma ScanSlotText(bus: nat, slot: nat, fn: nat)
    requires bus < 256 && slot < 256 && fn < 16
    ensures ScanSlot(SlotText(bus, slot, fn)) == Scan(3, [bus, slot, fn])
  {
    assert Power(16, 1) == 16 && Power(16, 2) == 256;
    var b, s, f := PadHex(bus, 2), PadHex(slot, 2), PadHex(fn, 1);
    var u := s + "." + f;
    assert SlotText(bus, slot, fn) == b + (":" + u);
    ScanPadded(bus, 2, ":" + u);
    assert (":" + u)[1..] == u;
    assert u == s + ("." + f);
    ScanPadded(slot, 2, "." + f);
    assert ("." + f)[1..] == f;
    assert f == f + [];
    ScanPadded(fn, 1, []);
  }

  /** A `%Nx` conversion over an N-digit padded number followed by a non-digit takes exactly those digits. */
  lemma ScanPadded(v: nat, width: nat, rest: string)
    requires (width == 1 || width == 2) && v < Power(16, width)
    requires rest == [] || !IsHex(rest[0])
    ensures ScanField(PadHex(v, width) + rest, width) == Some((v, rest))
  {
    var d := PadHex(v, width);
    PadHexLength(v, width, width);
    PadHexValue(v, width);
    RunOfDigits(d, rest, 16);
    var t := d + rest;
    assert t[..width] == d && t[width..] == rest;
  }

  /** A slot with a missing separator or field is refused: fewer than three conversions. */
  lemma ScanSlotShort(bus: nat)
    requires bus < 256
    ensures ScanSlot(PadHex(bus, 2)) == Scan(1, [bus])
    ensures ScanSlot(PadHex(bus, 2) + ".00.0") == Scan(1, [bus])
    ensures ScanSlot("") == Scan(-1, [])
    ensures ScanSlot("zz:00.0") == Scan(0, [])
  {
    assert Power(16, 2) == 256;
    var b := PadHex(bus, 2);
    ScanPadded(bus, 2, []);
    assert b + [] == b;
    ScanPadded(bus, 2, ".00.0");
  }

  /* ---------------------------------------------------------------- paths */

  /** `%d` of an `unsigned int`: the value read back as a signed 32-bit integer. */
  function Int32Text(v: nat): (s: string)
    requires v < U32
    ensures |s| <= 11
  {
    DigitsBound(v, 10);
    if v < 0x8000_0000 then Digits(v, 10)
    else DigitsBound(U32 - v, 10); "-" + Digits(U32 - v, 10)
  }

  lemma DigitsBound(v: nat, base: nat)
    requires base == 10 && v <= 0x1_0000_0000
    ensures |Digits(v, base)| <= 10
  {
    assert Power(10, 10) == 10_000_000_000 by {
      assert Power(10, 5) == 100_000;
    }
    DigitsLength(v, 10, 10);
  }

  const DevicesDir: string := "/sys/bus/pci/devices/"

  function DeviceDir(domain: nat, bus: nat, slot: nat, fn: nat): string
  {
    DevicesDir + PadHex(domain, 4) + ":" + SlotText(bus, slot, fn)
  }

  /** `/sys/bus/pci/devices/%04x:%02x:%02x.%1x/resource%d`. */
  function ResourcePath(domain: nat, bus: nat, slot: nat, fn: nat, bar: nat): (p: string)
    requires bar < U32
    ensures DevicesDir <= p
  {
    DeviceDir(domain, bus, slot, fn) + "/resource" + Int32Text(bar)
  }

  /** `/sys/bus/pci/devices/%04x:%02x:%02x.%1x/config`. */
  function ConfigPath(domain: nat, bus: nat, slot: nat, fn: nat): (p: string)
    ensures DevicesDir <= p
  {
    DeviceDir(domain, bus, slot, fn) + "/config"
  }

  /**
   * The `snprintf(..., 99, ...)` of both paths never truncates: with the
   * domain at 0 and the fields in the ranges the slot scan gives, either path
   * has at most 53 characters, below the 98 the buffer allows.
   */
  lemma PathsFit(bus: nat, slot: nat, fn: nat, bar: nat)
    requires bus < 256 && slot < 256 && fn < 16 && bar < U32
    ensures |ResourcePath(0, bus, slot, fn, bar)| <= 53 < 99
    ensures |ConfigPath(0, bus, slot, fn)| == 40
  {
    assert Power(16, 4) == 65536 by { assert Power(16, 2) == 256; }
    PadHexLength(0, 4, 4);
    SlotTextLength(bus, slot, fn);
  }

  /** Devices in different slots have different resource files. */
  lemma ResourcePathsDiffer(bus: nat, slot: nat, fn: nat, bus2: nat, slot2: nat, fn2: nat, bar: nat)
    requires bus < 256 && slot < 256 && fn < 16 && bar < U32
    requires bus2 < 256 && slot2 < 256 && fn2 < 16
    requires (bus, slot, fn) != (bus2, slot2, fn2)
    ensures ResourcePath(0, bus, slot, fn, bar) != ResourcePath(0, bus2, slot2, fn2, bar)
  {
    var pre, tail := DevicesDir + PadHex(0, 4) + ":", "/resource" + Int32Text(bar);
    var t, t2 := SlotText(bus, slot, fn), SlotText(bus2, slot2, fn2);
    SlotTextLength(bus, slot, fn);
    SlotTextLength(bus2, slot2, fn2);
    SlotTextInjective(bus, slot, fn, bus2, slot2, fn2);
    ResourcePathParts(bus, slot, fn, bar);
    ResourcePathParts(bus2, slot2, fn2, bar);
    if (pre + t) + tail == (pre + t2) + tail {
      SplitEq(pre + t, tail, pre + t2, tail);
      SplitEq(pre, t, pre, t2);
    }
  }

  /** Different slots are written differently. */
  lemma SlotTextInjective(bus: nat, slot: nat, fn: nat, bus2: nat, slot2: nat, fn2: nat)
    requires bus < 256 && slot < 256 && fn < 16
    requires bus2 < 256 && slot2 < 256 && fn2 < 16
    requires (bus, slot, fn) != (bus2, slot2, fn2)
    ensures SlotText(bus, slot, fn) != SlotText(bus2, slot2, fn2)
  {
    ScanSlotText(bus, slot, fn);
    ScanSlotText(bus2, slot2, fn2);
  }

  /** A resource path of domain 0 is the devices directory, the domain, the slot and the file name. */
  lemma ResourcePathParts(bus: nat, slot: nat, fn: nat, bar: nat)
    requires bar < U32
    ensures ResourcePath(0, bus, slot, fn, bar)
         == (DevicesDir + PadHex(0, 4) + ":" + SlotText(bus, slot, fn)) + ("/resource" + Int32Text(bar))
  {
  }

  lemma SlotTextLength(bus: nat, slot: nat, fn: nat)
    requires bus < 256 && slot < 256 && fn < 16
    ensures |SlotText(bus, slot, fn)| == 7
  {
    assert Power(16, 1) == 16 && Power(16, 2) == 256;
    PadHexLength(bus, 2, 2);
    PadHexLength(slot, 2, 2);
    PadHexLength(fn, 1, 1);
  }

  /** Two concatenations with first parts of equal length are equal part by part. */
  lemma SplitEq(a: string, b: string, c: string, d: string)
    requires |a| == |c| && a + b == c + d
    ensures a == c && b == d
  {
    assert a == (a + b)[..|a|] && c == (c + d)[..|c|];
    assert b == (a + b)[|a|..] && d == (c + d)[|c|..];
  }
}
