/**
 The write request: the client formats "name|size" (ftpclient/ftpclient.c), the server finds the
 last '/', cuts its buffer at the first '|' and scans the size (ftpclient/ftpserver.c).
 */
module Request {
  import opened Packets

  const SLASH: byte := 47
  const BAR: byte := 124
  const LONG_MAX: int := 0x7FFF_FFFF_FFFF_FFFF
  const LONG_MIN: int := -0x8000_0000_0000_0000

  // ---- C strings ----

  function FirstIndex(s: seq<byte>, c: byte): (k: nat)
    ensures k <= |s| && (k < |s| ==> s[k] == c)
    ensures forall i :: 0 <= i < k ==> s[i] != c
  {
    if s == [] || s[0] == c then 0 else 1 + FirstIndex(s[1..], c)
  }

  /** -1 when there is none, so that the result plus one is where the rest starts. */
  function LastIndex(s: seq<byte>, c: byte): (k: int)
    ensures -1 <= k < |s| && (k >= 0 ==> s[k] == c)
    ensures forall i :: k < i < |s| ==> s[i] != c
  {
    if s == [] then -1
    else if s[|s| - 1] == c then |s| - 1
    else LastIndex(s[..|s| - 1], c)
  }

  ghost predicate IsFirst(s: seq<byte>, c: byte, k: nat) {
    k < |s| && s[k] == c && forall i :: 0 <= i < k ==> s[i] != c
  }

  ghost predicate IsLast(s: seq<byte>, c: byte, k: int) {
    -1 <= k < |s| && (k >= 0 ==> s[k] == c) && forall i :: k < i < |s| ==> s[i] != c
  }

  /** The string that starts a buffer: everything before the first NUL. */
  function CString(buffer: seq<byte>): seq<byte> { buffer[..FirstIndex(buffer, 0)] }

  lemma FirstIndexIs(s: seq<byte>, c: byte, k: nat)
    requires k <= |s| && (k < |s| ==> s[k] == c) && forall i :: 0 <= i < k ==> s[i] != c
    ensures FirstIndex(s, c) == k
  {
    var j := FirstIndex(s, c);
    assert j < |s| ==> s[j] == c;
  }

  lemma StringUpTo(s: seq<byte>, k: nat)
    requires k <= |s| && (forall i :: 0 <= i < k ==> s[i] != 0) && (k < |s| ==> s[k] == 0)
    ensures CString(s) == s[..k]
  {
    FirstIndexIs(s, 0, k);
  }

  lemma CStringEnds(s: seq<byte>, rest: seq<byte>)
    requires 0 !in s && (rest == [] || rest[0] == 0)
    ensures CString(s + rest) == s
  {
    StringUpTo(s + rest, |s|);
  }

  // ---- decimal numbers ----

  predicate IsDigit(c: byte) { 48 <= c <= 57 }

  predicate AllDigits(s: seq<byte>) { forall i :: 0 <= i < |s| ==> IsDigit(s[i]) }

  function Decimal(n: nat): (s: seq<byte>)
    ensures s != [] && AllDigits(s)
  {
    if n < 10 then [48 + n] else Decimal(n / 10) + [48 + n % 10]
  }

  function Value(s: seq<byte>): nat
    requires AllDigits(s)
  {
    if s == [] then 0 else Value(s[..|s| - 1]) * 10 + (s[|s| - 1] - 48)
  }

  lemma {:induction false} ValueDecimal(n: nat)
    ensures Value(Decimal(n)) == n
  {
    var s := Decimal(n);
    if n < 10 {
      assert s[..|s| - 1] == [];
    } else {
      ValueDecimal(n / 10);
      assert s[..|s| - 1] == Decimal(n / 10);
    }
  }

  predicate IsSpace(c: byte) { c == 32 || 9 <= c <= 13 }

  function SkipSpace(s: seq<byte>): seq<byte> {
    if s != [] && IsSpace(s[0]) then SkipSpace(s[1..]) else s
  }

  /** `sscanf(s, "%ld%c", ...) == 1`: a number with nothing after it; overflow saturates. */
  function ScanLong(s: seq<byte>): Option<int> {
    var t := SkipSpace(s);
    var signed := t != [] && (t[0] == 43 || t[0] == 45);
    var digits := if signed then t[1..] else t;
    if digits == [] || !AllDigits(digits) then None
    else
      var v: int := if signed && t[0] == 45 then 0 - Value(digits) else Value(digits);
      Some(if v > LONG_MAX then LONG_MAX else if v < LONG_MIN then LONG_MIN else v)
  }

  /** White space as in the C locale: blank, tab, line feed, vertical tab, form feed, carriage return. */
  ghost predicate Blank(s: seq<byte>) {
    forall i :: 0 <= i < |s| ==> s[i] == 32 || s[i] == 9 || s[i] == 10 || s[i] == 11 || s[i] == 12 || s[i] == 13
  }

  ghost predicate Numeral(s: seq<byte>, space: seq<byte>, sign: seq<byte>, digits: seq<byte>) {
    && s == space + sign + digits && Blank(space) && (sign == [] || sign == [43] || sign == [45])
    && digits != [] && AllDigits(digits)
  }

  /** n is the number that an optional sign and digits stand for, cut off to a 64-bit `long`. */
  ghost predicate Denotes(sign: seq<byte>, digits: seq<byte>, n: int)
    requires AllDigits(digits)
  {
    var v: int := if sign == [45] then 0 - Value(digits) else Value(digits);
    if v >= 0x8000_0000_0000_0000 then n == 0x7FFF_FFFF_FFFF_FFFF
    else if v < -0x8000_0000_0000_0000 then n == -0x8000_0000_0000_0000
    else n == v
  }

  ghost predicate Reads(s: seq<byte>, n: int) {
    exists space, sign, digits :: Numeral(s, space, sign, digits) && Denotes(sign, digits, n)
  }

  lemma {:induction false} SkipSplits(s: seq<byte>) returns (space: seq<byte>)
    ensures s == space + SkipSpace(s) && Blank(space)
  {
    if s != [] && IsSpace(s[0]) {
      var rest := SkipSplits(s[1..]);
      space := [s[0]] + rest;
      assert s == [s[0]] + s[1..];
    } else {
      space := [];
    }
  }

  lemma {:induction false} SkipBlank(space: seq<byte>, t: seq<byte>)
    requires Blank(space) && t != [] && !IsSpace(t[0])
    ensures SkipSpace(space + t) == t
  {
    if space == [] {
      assert space + t == t;
    } else {
      assert (space + t)[0] == space[0] && (space + t)[1..] == space[1..] + t;
      SkipBlank(space[1..], t);
    }
  }

  lemma ScanReads(s: seq<byte>, n: int)
    requires ScanLong(s) == Some(n)
    ensures Reads(s, n)
  {
    hide SkipSpace, Value, Blank, AllDigits;
    var space := SkipSplits(s);
    var t := SkipSpace(s);
    var signed := t != [] && (t[0] == 43 || t[0] == 45);
    var sign, digits := if signed then t[..1] else [], if signed then t[1..] else t;
    assert t == sign + digits;
    assert s == space + sign + digits;
    assert Numeral(s, space, sign, digits) && Denotes(sign, digits, n);
  }

  lemma ReadsScan(s: seq<byte>, n: int)
    requires Reads(s, n)
    ensures ScanLong(s) == Some(n)
  {
    var space, sign, digits :| Numeral(s, space, sign, digits) && Denotes(sign, digits, n);
    var t := sign + digits;
    assert IsDigit(digits[0]);
    assert s == space + t;
    SkipBlank(space, t);
    assert sign != [] ==> t[1..] == digits;
    assert sign == [] ==> t == digits;
  }

  /** A size is read exactly from white space, an optional sign and digits, and nothing after them. */
  lemma ScanExact(s: seq<byte>, n: int)
    ensures ScanLong(s) == Some(n) <==> Reads(s, n)
  {
    hide ScanLong, Reads;
    if ScanLong(s) == Some(n) {
      ScanReads(s, n);
    }
    if Reads(s, n) {
      ReadsScan(s, n);
    }
  }

  /** A usable size: a number that is not negative. */
  ghost predicate IsSize(s: seq<byte>) { exists n: nat :: Reads(s, n) }

  // ---- the two sides ----

  function Format(name: seq<byte>, size: nat): seq<byte> { name + [BAR] + Decimal(size) }

  /** A request in ASCII: "a|2043". */
  lemma FormatVector()
    ensures Format([97], 2043) == [97, 124, 50, 48, 52, 51]
  {
    assert Decimal(20) == Decimal(2) + [48] && Decimal(204) == Decimal(20) + [52];
    assert Decimal(2043) == Decimal(204) + [51];
  }

  /** `told` says whether the client is sent a BADREQ packet. */
  datatype Verdict = Accepted(name: seq<byte>, size: nat) | BadRequest(told: bool) | Exists | CannotCreate

  /** The names that exist, and the names that cannot be opened for writing. */
  datatype Disk = Disk(files: set<seq<byte>>, blocked: set<seq<byte>>)

  function Decide(name: seq<byte>, size: seq<byte>, disk: Disk): Verdict {
    if name in disk.files then Exists
    else match ScanLong(size)
      case None => BadRequest(false)
      case Some(n) =>
        if n < 0 then BadRequest(false)
        else if name in disk.blocked then CannotCreate
        else Accepted(name, n)
  }

  /** The buffer has been cut at the separator; the last '/' of the text before that is at `slash`. */
  function ParseCut(cut: seq<byte>, slash: int, bar: nat, disk: Disk): Verdict
    requires -1 <= slash < |cut| && bar < |cut|
  {
    Decide(CString(cut[slash + 1..]), CString(cut[bar + 1..]), disk)
  }

  predicate Malformed(cmd: byte, number: u16, buffer: seq<byte>) {
    (cmd != CMD_WRQ && number != 0) || FirstIndex(CString(buffer), BAR) == |CString(buffer)|
  }

  /** `buffer` is the payload part of the zeroed receive buffer. */
  function Parse(cmd: byte, number: u16, buffer: seq<byte>, disk: Disk): Verdict {
    if Malformed(cmd, number, buffer) then BadRequest(true)
    else
      var text := CString(buffer);
      var bar := FirstIndex(text, BAR);
      ParseCut(buffer[bar := 0], LastIndex(text, SLASH), bar, disk)
  }

  // ---- the server's code, on its buffer ----

  method StrChr(buffer: array<byte>, c: byte) returns (k: nat)
    requires c != 0
    ensures k == FirstIndex(CString(buffer[..]), c) && k <= buffer.Length
    ensures k == |CString(buffer[..])| <==> k == buffer.Length || buffer[k] == 0
  {
    k := 0;
    while k < buffer.Length && buffer[k] != 0 && buffer[k] != c
      invariant k <= buffer.Length
      invariant forall i :: 0 <= i < k ==> buffer[i] != 0 && buffer[i] != c
    {
      k := k + 1;
    }
    FirstInString(buffer[..], c, k);
  }

  lemma FirstInString(s: seq<byte>, c: byte, k: nat)
    requires c != 0 && k <= |s| && forall i :: 0 <= i < k ==> s[i] != 0 && s[i] != c
    requires k < |s| ==> s[k] == 0 || s[k] == c
    ensures k == FirstIndex(CString(s), c)
    ensures k == |CString(s)| <==> k == |s| || s[k] == 0
  {
    var n := FirstIndex(s, 0);
    assert n < |s| ==> s[n] == 0;
    assert k <= n;
    FirstIndexIs(CString(s), c, k);
  }

  method StrRChr(buffer: array<byte>, c: byte) returns (k: int)
    requires c != 0
    ensures k == LastIndex(CString(buffer[..]), c)
  {
    k := -1;
    var i := 0;
    while i < buffer.Length && buffer[i] != 0
      invariant i <= buffer.Length && forall j :: 0 <= j < i ==> buffer[j] != 0
      invariant k == LastIndex(buffer[..i], c)
    {
      assert buffer[..i + 1][..i] == buffer[..i];
      if buffer[i] == c {
        k := i;
      }
      i := i + 1;
    }
    StringUpTo(buffer[..], i);
  }

  method CopyString(buffer: array<byte>, start: nat) returns (s: seq<byte>)
    requires start <= buffer.Length
    ensures s == CString(buffer[start..])
  {
    s := [];
    var i := start;
    while i < buffer.Length && buffer[i] != 0
      invariant start <= i <= buffer.Length && s == buffer[start..i]
      invariant forall j :: start <= j < i ==> buffer[j] != 0
    {
      s := s + [buffer[i]];
      i := i + 1;
    }
    StringUpTo(buffer[start..], i - start);
  }

  /** Names and sizes are copied out of the cut buffer. */
  method DecideCut(cut: array<byte>, slash: int, bar: nat, disk: Disk)
    returns (v: Verdict)
    requires -1 <= slash < cut.Length && bar < cut.Length
    ensures v == ParseCut(cut[..], slash, bar, disk)
  {
    var name := CopyString(cut, slash + 1);
    var size := CopyString(cut, bar + 1);
    assert cut[..][slash + 1..] == cut[slash + 1..] && cut[..][bar + 1..] == cut[bar + 1..];
    v := Decide(name, size, disk);
  }

  /** Decides the request and cuts the buffer at the separator. */
  method ParseRequest(cmd: byte, number: u16, buffer: array<byte>, disk: Disk)
    returns (v: Verdict)
    modifies buffer
    ensures v == Parse(cmd, number, old(buffer[..]), disk)
    ensures buffer[..] == if Malformed(cmd, number, old(buffer[..])) then old(buffer[..])
                          else old(buffer[..])[FirstIndex(CString(old(buffer[..])), BAR) := 0]
  {
    if cmd != CMD_WRQ && number != 0 {
      return BadRequest(true);
    }
    var slash := StrRChr(buffer, SLASH);
    var bar := StrChr(buffer, BAR);
    if bar == buffer.Length || buffer[bar] == 0 {
      return BadRequest(true);
    }
    ghost var before := buffer[..];
    buffer[bar] := 0;
    assert buffer[..] == before[bar := 0];
    v := DecideCut(buffer, slash, bar, disk);
  }

  // ---- what the two sides achieve together ----

  /** base is name without its leading directories. */
  ghost predicate IsBaseName(base: seq<byte>, name: seq<byte>) {
    && SLASH !in base
    && (base == name || exists dir :: name == dir + [SLASH] + base)
  }

  /** A name has only one base name. */
  lemma BaseNameUnique(base: seq<byte>, other: seq<byte>, name: seq<byte>)
    requires IsBaseName(base, name) && IsBaseName(other, name)
    ensures base == other
  {
    BaseNameStart(base, name);
    BaseNameStart(other, name);
  }

  lemma BaseNameStart(base: seq<byte>, name: seq<byte>)
    requires IsBaseName(base, name)
    ensures base == name[LastIndex(name, SLASH) + 1..]
  {
    var k := LastIndex(name, SLASH);
    if base == name {
      assert name[0..] == name;
    } else {
      var dir :| name == dir + [SLASH] + base;
      assert name[|dir|] == SLASH;
      assert name[|dir| + 1..] == base;
      assert forall i :: |dir| < i < |name| ==> name[i] == base[i - |dir| - 1];
    }
  }

  lemma {:induction false} LastIndexJoin(s: seq<byte>, t: seq<byte>, c: byte)
    requires c !in t
    ensures LastIndex(s + t, c) == LastIndex(s, c)
  {
    if t == [] {
      assert s + t == s;
    } else {
      assert (s + t)[..|s + t| - 1] == s + t[..|t| - 1];
      LastIndexJoin(s, t[..|t| - 1], c);
    }
  }

  lemma ScanDecimal(size: nat)
    requires size <= LONG_MAX
    ensures ScanLong(Decimal(size)) == Some(size)
  {
    ValueDecimal(size);
    assert IsDigit(Decimal(size)[0]);
  }

  lemma BaseNameIs(name: seq<byte>)
    ensures IsBaseName(name[LastIndex(name, SLASH) + 1..], name)
  {
    var k := LastIndex(name, SLASH);
    if k >= 0 {
      assert name == name[..k] + [SLASH] + name[k + 1..];
    }
  }

  /** Where the server finds the separator... */
  lemma FirstMark(name: seq<byte>, tail: seq<byte>)
    requires BAR !in name
    ensures FirstIndex(name + [BAR] + tail, BAR) == |name|
  {
    FirstIndexIs(name + [BAR] + tail, BAR, |name|);
  }

  /** ...and the last '/'. */
  lemma LastMark(name: seq<byte>, tail: seq<byte>)
    requires SLASH !in tail
    ensures LastIndex(name + [BAR] + tail, SLASH) == LastIndex(name, SLASH)
  {
    var rest := [BAR] + tail;
    assert name + [BAR] + tail == name + rest;
    assert SLASH !in rest by { assert forall i :: 0 < i < |rest| ==> rest[i] == tail[i - 1]; }
    LastIndexJoin(name, rest, SLASH);
  }

  /** What the server copies out of the cut buffer. */
  lemma CutStrings(name: seq<byte>, tail: seq<byte>, rest: seq<byte>, start: nat)
    requires 0 !in name && 0 !in tail && (rest == [] || rest[0] == 0) && start <= |name|
    ensures var cut := name + [0] + tail + rest;
            CString(cut[start..]) == name[start..] && CString(cut[|name| + 1..]) == tail
  {
    var cut := name + [0] + tail + rest;
    assert cut[start..] == name[start..] + ([0] + tail + rest);
    CStringEnds(name[start..], [0] + tail + rest);
    assert cut[|name| + 1..] == tail + rest;
    CStringEnds(tail, rest);
  }

  lemma CutAt(name: seq<byte>, tail: seq<byte>, rest: seq<byte>)
    ensures (name + [BAR] + tail + rest)[|name| := 0] == name + [0] + tail + rest
  {
  }

  /** The command and the number matter only when both are wrong. */
  predicate HeaderOk(cmd: byte, number: u16) { cmd == CMD_WRQ || number == 0 }

  lemma ParseAt(cmd: byte, number: u16, buffer: seq<byte>, bar: nat, slash: int, disk: Disk)
    requires HeaderOk(cmd, number) && bar < |CString(buffer)|
    requires bar == FirstIndex(CString(buffer), BAR) && slash == LastIndex(CString(buffer), SLASH)
    ensures Parse(cmd, number, buffer, disk) == ParseCut(buffer[bar := 0], slash, bar, disk)
  {
  }

  lemma ParseCutText(name: seq<byte>, tail: seq<byte>, rest: seq<byte>, slash: int, disk: Disk)
    requires 0 !in name && 0 !in tail && (rest == [] || rest[0] == 0) && -1 <= slash < |name|
    ensures ParseCut(name + [0] + tail + rest, slash, |name|, disk)
            == Decide(name[slash + 1..], tail, disk)
  {
    CutStrings(name, tail, rest, slash + 1);
  }

  lemma MarksOf(name: seq<byte>, tail: seq<byte>, rest: seq<byte>)
    requires BAR !in name && SLASH !in tail && 0 !in name && 0 !in tail && (rest == [] || rest[0] == 0)
    ensures var text := CString(name + [BAR] + tail + rest);
            && |name| == FirstIndex(text, BAR) < |text|
            && LastIndex(text, SLASH) == LastIndex(name, SLASH)
  {
    FirstMark(name, tail);
    LastMark(name, tail);
    CStringEnds(name + [BAR] + tail, rest);
  }

  /** A text name|tail is decided by the end of name and by tail. */
  lemma ParseText(cmd: byte, number: u16, name: seq<byte>, tail: seq<byte>, rest: seq<byte>, disk: Disk)
    requires HeaderOk(cmd, number) && BAR !in name && SLASH !in tail
    requires 0 !in name && 0 !in tail && (rest == [] || rest[0] == 0)
    ensures Parse(cmd, number, name + [BAR] + tail + rest, disk)
            == Decide(name[LastIndex(name, SLASH) + 1..], tail, disk)
  {
    var buffer := name + [BAR] + tail + rest;
    var slash := LastIndex(name, SLASH);
    assert Parse(cmd, number, buffer, disk) == ParseCut(buffer[|name| := 0], slash, |name|, disk) by {
      MarksOf(name, tail, rest);
      ParseAt(cmd, number, buffer, |name|, slash, disk);
    }
    CutAt(name, tail, rest);
    ParseCutText(name, tail, rest, slash, disk);
  }

  lemma DecideDecimal(base: seq<byte>, size: nat, disk: Disk)
    requires size <= LONG_MAX
    ensures Decide(base, Decimal(size), disk)
            == if base in disk.files then Exists
               else if base in disk.blocked then CannotCreate
               else Accepted(base, size)
  {
    ScanDecimal(size);
  }

  /**
   Round trip: for every name without '|' and NUL, every size in a `long` and every request that
   leaves room for its NUL, the server recovers exactly the base name and the size.
   */
  lemma RequestRoundTrip(name: seq<byte>, size: nat, zeros: seq<byte>, disk: Disk)
    returns (base: seq<byte>)
    requires BAR !in name && 0 !in name && size <= LONG_MAX && zeros != [] && zeros[0] == 0
    ensures IsBaseName(base, name)
    ensures Parse(CMD_WRQ, 0, Format(name, size) + zeros, disk)
            == if base in disk.files then Exists
               else if base in disk.blocked then CannotCreate
               else Accepted(base, size)
  {
    base := name[LastIndex(name, SLASH) + 1..];
    BaseNameIs(name);
    ParseText(CMD_WRQ, 0, name, Decimal(size), zeros, disk);
    DecideDecimal(base, size, disk);
  }

  lemma {:induction false} ScannedIsPlain(s: seq<byte>)
    requires ScanLong(s).Some?
    ensures SLASH !in s && BAR !in s
  {
    if s != [] && IsSpace(s[0]) {
      ScannedIsPlain(s[1..]);
      assert s == [s[0]] + s[1..];
    } else {
      assert SkipSpace(s) == s;
    }
  }

  /** The part after the separator is the rest of the text. */
  lemma SizePart(buffer: seq<byte>, bar: nat)
    requires bar < |CString(buffer)|
    ensures CString(buffer[bar := 0][bar + 1..]) == CString(buffer)[bar + 1..]
  {
    var n := |CString(buffer)|;
    var rest := buffer[bar := 0][bar + 1..];
    assert rest == buffer[bar + 1..];
    StringUpTo(rest, n - bar - 1);
    assert rest[..n - bar - 1] == buffer[bar + 1..n];
  }

  lemma NamePart(buffer: seq<byte>, start: nat, bar: nat)
    requires start <= bar < |CString(buffer)|
    ensures CString(buffer[bar := 0][start..]) == CString(buffer)[start..bar]
  {
    var rest := buffer[bar := 0][start..];
    StringUpTo(rest, bar - start);
    assert rest[..bar - start] == buffer[start..bar] == CString(buffer)[start..bar];
  }

  lemma SlashBeforeBar(text: seq<byte>, bar: nat, slash: int)
    requires bar < |text| && text[bar] == BAR && SLASH !in text[bar + 1..] && IsLast(text, SLASH, slash)
    ensures slash < bar
  {
    assert forall i :: bar < i < |text| ==> text[i] == text[bar + 1..][i - bar - 1];
  }

  lemma DecideAccepts(name: seq<byte>, size: seq<byte>, disk: Disk, v: Verdict)
    requires v == Decide(name, size, disk) && v.Accepted?
    ensures ScanLong(size) == Some(v.size) && v.size <= LONG_MAX
    ensures v.name == name && name !in disk.files && name !in disk.blocked
  {
  }

  lemma ScannedSlash(text: seq<byte>, bar: nat, slash: int)
    requires bar < |text| && text[bar] == BAR && IsLast(text, SLASH, slash) && ScanLong(text[bar + 1..]).Some?
    ensures slash < bar
  {
    ScannedIsPlain(text[bar + 1..]);
    SlashBeforeBar(text, bar, slash);
  }

  lemma CutSize(buffer: seq<byte>, bar: nat, slash: int, disk: Disk, v: Verdict)
    requires bar < |CString(buffer)| && -1 <= slash < |buffer|
    requires v == ParseCut(buffer[bar := 0], slash, bar, disk) && v.Accepted?
    ensures ScanLong(CString(buffer)[bar + 1..]) == Some(v.size) && v.size <= LONG_MAX
    ensures v.name == CString(buffer[bar := 0][slash + 1..]) && v.name !in disk.files && v.name !in disk.blocked
  {
    var cut := buffer[bar := 0];
    DecideAccepts(CString(cut[slash + 1..]), CString(cut[bar + 1..]), disk, v);
    SizePart(buffer, bar);
  }

  /** In an accepted request the last '/' comes before the separator. */
  lemma CutAccepts(buffer: seq<byte>, bar: nat, slash: int, disk: Disk, v: Verdict)
    requires bar < |CString(buffer)| && CString(buffer)[bar] == BAR && IsLast(CString(buffer), SLASH, slash)
    requires v == ParseCut(buffer[bar := 0], slash, bar, disk) && v.Accepted?
    ensures slash < bar && v.name == CString(buffer)[slash + 1..bar]
    ensures v.name !in disk.files && v.name !in disk.blocked
    ensures ScanLong(CString(buffer)[bar + 1..]) == Some(v.size) && v.size <= LONG_MAX
  {
    CutSize(buffer, bar, slash, disk, v);
    ScannedSlash(CString(buffer), bar, slash);
    NamePart(buffer, slash + 1, bar);
  }

  lemma PlainSlice(text: seq<byte>, bar: nat, slash: int)
    requires 0 !in text && IsFirst(text, BAR, bar) && IsLast(text, SLASH, slash) && slash < bar
    ensures var name := text[slash + 1..bar]; SLASH !in name && BAR !in name && 0 !in name
  {
  }

  /** For every buffer whatsoever, an accepted name is free of '/', '|' and NUL. */
  lemma AcceptedNameIsPlain(cmd: byte, number: u16, buffer: seq<byte>, disk: Disk, v: Verdict)
    requires v == Parse(cmd, number, buffer, disk) && v.Accepted?
    ensures SLASH !in v.name && BAR !in v.name && 0 !in v.name && v.name !in disk.files && v.size <= LONG_MAX
  {
    var text := CString(buffer);
    var bar, slash := FirstIndex(text, BAR), LastIndex(text, SLASH);
    CutAccepts(buffer, bar, slash, disk, v);
    PlainSlice(text, bar, slash);
  }

  // ---- exactly which buffers are accepted ----

  /** The text of the buffer is a path that ends in base, the separator, and a number that scans to n. */
  ghost predicate Asks(buffer: seq<byte>, base: seq<byte>, n: nat) {
    exists name, tail :: IsRequest(CString(buffer), name, tail) && IsBaseName(base, name) && Reads(tail, n)
  }

  ghost predicate IsRequest(text: seq<byte>, name: seq<byte>, tail: seq<byte>) {
    text == name + [BAR] + tail && BAR !in name
  }

  lemma DecideFits(base: seq<byte>, tail: seq<byte>, disk: Disk, n: nat)
    requires ScanLong(tail) == Some(n) && base !in disk.files && base !in disk.blocked
    ensures Decide(base, tail, disk) == Accepted(base, n)
  {
  }

  lemma PartsAccepted(
    cmd: byte, number: u16, name: seq<byte>, tail: seq<byte>, rest: seq<byte>, disk: Disk, base: seq<byte>, n: nat)
    requires HeaderOk(cmd, number) && base !in disk.files && base !in disk.blocked
    requires BAR !in name && 0 !in name && 0 !in tail && (rest == [] || rest[0] == 0)
    requires IsBaseName(base, name) && ScanLong(tail) == Some(n)
    ensures Parse(cmd, number, name + [BAR] + tail + rest, disk) == Accepted(base, n)
  {
    hide *;
    ScannedIsPlain(tail);
    ParseText(cmd, number, name, tail, rest, disk);
    BaseNameStart(base, name);
    DecideFits(base, tail, disk, n);
  }

  lemma AskedIsAccepted(cmd: byte, number: u16, buffer: seq<byte>, disk: Disk, base: seq<byte>, n: nat)
    requires HeaderOk(cmd, number) && base !in disk.files && base !in disk.blocked && Asks(buffer, base, n)
    ensures Parse(cmd, number, buffer, disk) == Accepted(base, n)
  {
    hide Parse, CString, ScanLong, IsBaseName, Reads;
    var text := CString(buffer);
    var name, tail :| IsRequest(text, name, tail) && IsBaseName(base, name) && Reads(tail, n);
    ScanExact(tail, n);
    NoNul(buffer);
    PartsHaveNoNul(name, tail);
    PartsAccepted(cmd, number, name, tail, buffer[|text|..], disk, base, n);
  }

  lemma PartsHaveNoNul(name: seq<byte>, tail: seq<byte>)
    requires 0 !in name + [BAR] + tail
    ensures 0 !in name && 0 !in tail
  {
    var text := name + [BAR] + tail;
    assert forall i :: 0 <= i < |name| ==> name[i] == text[i];
    assert forall i :: 0 <= i < |tail| ==> tail[i] == text[|name| + 1 + i];
  }

  lemma NoNul(buffer: seq<byte>)
    ensures 0 !in CString(buffer) && CString(buffer) <= buffer
    ensures var rest := buffer[|CString(buffer)|..];
            buffer == CString(buffer) + rest && (rest == [] || rest[0] == 0)
  {
  }

  lemma BaseOf(text: seq<byte>, bar: nat, slash: int)
    requires IsLast(text, SLASH, slash) && slash < bar <= |text|
    ensures IsBaseName(text[slash + 1..bar], text[..bar])
  {
    var base, name := text[slash + 1..bar], text[..bar];
    if slash == -1 {
      assert base == name;
    } else {
      assert name == text[..slash] + [SLASH] + base;
    }
  }

  lemma AcceptedCut(cmd: byte, number: u16, buffer: seq<byte>, disk: Disk, v: Verdict)
    requires v == Parse(cmd, number, buffer, disk) && v.Accepted?
    ensures var bar, slash := FirstIndex(CString(buffer), BAR), LastIndex(CString(buffer), SLASH);
            && HeaderOk(cmd, number)
            && IsFirst(CString(buffer), BAR, bar) && IsLast(CString(buffer), SLASH, slash)
            && v == ParseCut(buffer[bar := 0], slash, bar, disk)
  {
  }

  lemma CutIsAsked(buffer: seq<byte>, bar: nat, slash: int, disk: Disk, base: seq<byte>, n: nat)
    requires IsFirst(CString(buffer), BAR, bar) && IsLast(CString(buffer), SLASH, slash)
    requires ParseCut(buffer[bar := 0], slash, bar, disk) == Accepted(base, n)
    ensures base !in disk.files && base !in disk.blocked && Asks(buffer, base, n)
  {
    var text := CString(buffer);
    CutAccepts(buffer, bar, slash, disk, Accepted(base, n));
    ScanExact(text[bar + 1..], n);
    BaseOf(text, bar, slash);
    Splits(text, bar);
  }

  lemma AcceptedIsAsked(cmd: byte, number: u16, buffer: seq<byte>, disk: Disk, base: seq<byte>, n: nat)
    requires Parse(cmd, number, buffer, disk) == Accepted(base, n)
    ensures HeaderOk(cmd, number) && base !in disk.files && base !in disk.blocked && Asks(buffer, base, n)
  {
    AcceptedCut(cmd, number, buffer, disk, Accepted(base, n));
    CutIsAsked(buffer, FirstIndex(CString(buffer), BAR), LastIndex(CString(buffer), SLASH), disk, base, n);
  }

  lemma Splits(text: seq<byte>, bar: nat)
    requires IsFirst(text, BAR, bar)
    ensures IsRequest(text, text[..bar], text[bar + 1..])
  {
  }

  /**
   For every packet and every buffer: the request is accepted as (base, n) if and only if the header
   is not doubly wrong, the file is new and can be made, and the buffer asks for base and n.
   */
  lemma AcceptExactly(cmd: byte, number: u16, buffer: seq<byte>, disk: Disk, base: seq<byte>, n: nat)
    ensures Parse(cmd, number, buffer, disk) == Accepted(base, n)
            <==> (cmd == CMD_WRQ || number == 0) && base !in disk.files && base !in disk.blocked
                 && Asks(buffer, base, n)
  {
    if Parse(cmd, number, buffer, disk) == Accepted(base, n) {
      AcceptedIsAsked(cmd, number, buffer, disk, base, n);
    }
    if HeaderOk(cmd, number) && base !in disk.files && base !in disk.blocked && Asks(buffer, base, n) {
      AskedIsAccepted(cmd, number, buffer, disk, base, n);
    }
  }

  lemma FirstIndexFinds(text: seq<byte>, c: byte)
    ensures FirstIndex(text, c) == |text| <==> c !in text
  {
    assert FirstIndex(text, c) < |text| ==> text[FirstIndex(text, c)] == c;
  }

  lemma CutNotTold(cut: seq<byte>, slash: int, bar: nat, disk: Disk)
    requires -1 <= slash < |cut| && bar < |cut|
    ensures ParseCut(cut, slash, bar, disk) != BadRequest(true)
  {
    hide CString, ScanLong;
  }

  /** The client is told BADREQ exactly when the header is doubly wrong or the separator is missing. */
  lemma ToldExactly(cmd: byte, number: u16, buffer: seq<byte>, disk: Disk)
    ensures Parse(cmd, number, buffer, disk) == BadRequest(true)
            <==> (cmd != CMD_WRQ && number != 0) || BAR !in CString(buffer)
  {
    hide FirstIndex, LastIndex, ParseCut;
    var text := CString(buffer);
    var bar := FirstIndex(text, BAR);
    FirstIndexFinds(text, BAR);
    if !Malformed(cmd, number, buffer) {
      CutNotTold(buffer[bar := 0], LastIndex(text, SLASH), bar, disk);
    }
  }

  // ---- the other verdicts ----

  /**
   The text of the buffer is name, separator, tail, and base is what the server takes for the file
   name: the part of the text after its last '/', which may stand behind the separator.
   */
  ghost predicate Names(buffer: seq<byte>, base: seq<byte>, tail: seq<byte>) {
    exists name :: IsRequest(CString(buffer), name, tail) && IsBaseName(base, if SLASH in tail then tail else name)
  }

  /** A '/' behind the separator: the file name is the end of the tail. */
  lemma LastMarkInTail(name: seq<byte>, tail: seq<byte>)
    requires SLASH in tail
    ensures LastIndex(name + [BAR] + tail, SLASH) == |name| + 1 + LastIndex(tail, SLASH) && LastIndex(tail, SLASH) >= 0
  {
    var text := name + [BAR] + tail;
    var j, k := LastIndex(tail, SLASH), LastIndex(text, SLASH);
    assert forall i :: 0 <= i < |tail| ==> tail[i] == text[|name| + 1 + i];
    assert j >= 0;
    assert text[|name| + 1 + j] == SLASH;
  }

  lemma CutBehind(name: seq<byte>, tail: seq<byte>, rest: seq<byte>, start: nat)
    requires 0 !in name && 0 !in tail && (rest == [] || rest[0] == 0) && start <= |tail|
    ensures var cut := name + [0] + tail + rest;
            CString(cut[|name| + 1 + start..]) == tail[start..] && CString(cut[|name| + 1..]) == tail
  {
    var cut := name + [0] + tail + rest;
    assert cut[|name| + 1 + start..] == tail[start..] + rest;
    CStringEnds(tail[start..], rest);
    assert cut[|name| + 1..] == tail + rest;
    CStringEnds(tail, rest);
  }

  lemma ParseTextBehind(cmd: byte, number: u16, name: seq<byte>, tail: seq<byte>, rest: seq<byte>, disk: Disk)
    requires HeaderOk(cmd, number) && BAR !in name && SLASH in tail
    requires 0 !in name && 0 !in tail && (rest == [] || rest[0] == 0)
    ensures Parse(cmd, number, name + [BAR] + tail + rest, disk)
            == Decide(tail[LastIndex(tail, SLASH) + 1..], tail, disk)
  {
    hide Parse, LastIndex, Decide, CString;
    var buffer := name + [BAR] + tail + rest;
    CStringEnds(name + [BAR] + tail, rest);
    FirstMark(name, tail);
    LastMarkInTail(name, tail);
    var slash := |name| + 1 + LastIndex(tail, SLASH);
    ParseAt(cmd, number, buffer, |name|, slash, disk);
    CutAt(name, tail, rest);
    CutBehind(name, tail, rest, LastIndex(tail, SLASH) + 1);
  }

  lemma ParseParts(
    cmd: byte, number: u16, name: seq<byte>, tail: seq<byte>, rest: seq<byte>, disk: Disk, base: seq<byte>)
    requires HeaderOk(cmd, number) && BAR !in name
    requires 0 !in name && 0 !in tail && (rest == [] || rest[0] == 0)
    requires IsBaseName(base, if SLASH in tail then tail else name)
    ensures Parse(cmd, number, name + [BAR] + tail + rest, disk) == Decide(base, tail, disk)
  {
    hide *;
    if SLASH in tail {
      ParseTextBehind(cmd, number, name, tail, rest, disk);
      BaseNameStart(base, tail);
    } else {
      ParseText(cmd, number, name, tail, rest, disk);
      BaseNameStart(base, name);
    }
  }

  /** Whatever the buffer names decides, together with the tail. */
  lemma ParseNamed(cmd: byte, number: u16, buffer: seq<byte>, disk: Disk, base: seq<byte>, tail: seq<byte>)
    requires HeaderOk(cmd, number) && Names(buffer, base, tail)
    ensures Parse(cmd, number, buffer, disk) == Decide(base, tail, disk)
  {
    hide Parse, CString, IsBaseName, Decide;
    var text := CString(buffer);
    var name :| IsRequest(text, name, tail) && IsBaseName(base, if SLASH in tail then tail else name);
    NoNul(buffer);
    PartsHaveNoNul(name, tail);
    ParseParts(cmd, number, name, tail, buffer[|text|..], disk, base);
  }

  /** Every text with a separator names something. */
  lemma NamesSomething(buffer: seq<byte>) returns (base: seq<byte>, tail: seq<byte>)
    requires BAR in CString(buffer)
    ensures Names(buffer, base, tail)
  {
    hide CString, IsBaseName, LastIndex;
    var text := CString(buffer);
    FirstIndexFinds(text, BAR);
    var bar := FirstIndex(text, BAR);
    Splits(text, bar);
    var name := text[..bar];
    tail := text[bar + 1..];
    var path := if SLASH in tail then tail else name;
    base := path[LastIndex(path, SLASH) + 1..];
    BaseNameIs(path);
    assert IsRequest(text, name, tail);
  }

  /** The order of the checks: existing file, size, creation. */
  lemma DecideExactly(base: seq<byte>, tail: seq<byte>, disk: Disk)
    ensures Decide(base, tail, disk).Exists? <==> base in disk.files
    ensures Decide(base, tail, disk) == BadRequest(false) <==> base !in disk.files && !IsSize(tail)
    ensures Decide(base, tail, disk).CannotCreate?
            <==> base !in disk.files && base in disk.blocked && IsSize(tail)
  {
    hide ScanLong, Reads;
    if ScanLong(tail).Some? {
      ScanExact(tail, ScanLong(tail).value);
    }
    forall n: nat | Reads(tail, n) ensures ScanLong(tail) == Some(n) {
      ScanExact(tail, n);
    }
  }

  lemma Verdicts(cmd: byte, number: u16, buffer: seq<byte>, disk: Disk) returns (base: seq<byte>, tail: seq<byte>)
    requires Parse(cmd, number, buffer, disk) != BadRequest(true)
    ensures HeaderOk(cmd, number) && Names(buffer, base, tail)
    ensures Parse(cmd, number, buffer, disk) == Decide(base, tail, disk)
  {
    hide Parse, Decide, CString, Names;
    ToldExactly(cmd, number, buffer, disk);
    base, tail := NamesSomething(buffer);
    ParseNamed(cmd, number, buffer, disk, base, tail);
  }

  /** The request is refused because the file exists, whatever its size says, exactly when the name does. */
  lemma ExistsExactly(cmd: byte, number: u16, buffer: seq<byte>, disk: Disk)
    ensures Parse(cmd, number, buffer, disk).Exists?
            <==> (cmd == CMD_WRQ || number == 0)
                 && exists base, tail :: Names(buffer, base, tail) && base in disk.files
  {
    hide Parse, Decide, Names;
    if Parse(cmd, number, buffer, disk).Exists? {
      var base, tail := Verdicts(cmd, number, buffer, disk);
      DecideExactly(base, tail, disk);
    }
    if HeaderOk(cmd, number) {
      forall base, tail | Names(buffer, base, tail) && base in disk.files
        ensures Parse(cmd, number, buffer, disk).Exists?
      {
        ParseNamed(cmd, number, buffer, disk, base, tail);
        DecideExactly(base, tail, disk);
      }
    }
  }

  /** It is dropped without an answer exactly when the name is new and the size is no number or negative. */
  lemma SilentExactly(cmd: byte, number: u16, buffer: seq<byte>, disk: Disk)
    ensures Parse(cmd, number, buffer, disk) == BadRequest(false)
            <==> (cmd == CMD_WRQ || number == 0)
                 && exists base, tail :: Names(buffer, base, tail) && base !in disk.files && !IsSize(tail)
  {
    hide Parse, Decide, Names, IsSize;
    if Parse(cmd, number, buffer, disk) == BadRequest(false) {
      var base, tail := Verdicts(cmd, number, buffer, disk);
      DecideExactly(base, tail, disk);
    }
    if HeaderOk(cmd, number) {
      forall base, tail | Names(buffer, base, tail) && base !in disk.files && !IsSize(tail)
        ensures Parse(cmd, number, buffer, disk) == BadRequest(false)
      {
        ParseNamed(cmd, number, buffer, disk, base, tail);
        DecideExactly(base, tail, disk);
      }
    }
  }

  /** It fails to create the file exactly when the name is new and blocked and the size is usable. */
  lemma CannotCreateExactly(cmd: byte, number: u16, buffer: seq<byte>, disk: Disk)
    ensures Parse(cmd, number, buffer, disk).CannotCreate?
            <==> (cmd == CMD_WRQ || number == 0)
                 && exists base, tail ::
                      Names(buffer, base, tail) && base !in disk.files && base in disk.blocked && IsSize(tail)
  {
    hide Parse, Decide, Names, IsSize;
    if Parse(cmd, number, buffer, disk).CannotCreate? {
      var base, tail := Verdicts(cmd, number, buffer, disk);
      DecideExactly(base, tail, disk);
    }
    if HeaderOk(cmd, number) {
      forall base, tail | Names(buffer, base, tail) && base !in disk.files && base in disk.blocked && IsSize(tail)
        ensures Parse(cmd, number, buffer, disk).CannotCreate?
      {
        ParseNamed(cmd, number, buffer, disk, base, tail);
        DecideExactly(base, tail, disk);
      }
    }
  }

  /** Directories are stripped: "d/a|5" on an empty disk. */
  lemma DirectoryStripped()
    ensures Parse(CMD_WRQ, 0, [100, 47, 97, 124, 53, 0], Disk({}, {})) == Accepted([97], 5)
  {
    hide Parse, IsBaseName, Decimal;
    assert Decimal(5) == [53] by { FiveInDecimal(); }
    assert [100, 47, 97] == [100] + [SLASH] + [97];
    assert IsBaseName([97], [100, 47, 97]) by { StripsTo([97], [100]); }
    var base := RequestRoundTrip([100, 47, 97], 5, [0], Disk({}, {}));
    BaseNameUnique(base, [97], [100, 47, 97]);
    assert Format([100, 47, 97], 5) + [0] == [100, 47, 97, 124, 53, 0];
  }

  lemma FiveInDecimal()
    ensures Decimal(5) == [53]
  {
  }

  lemma StripsTo(base: seq<byte>, dir: seq<byte>)
    requires SLASH !in base
    ensures IsBaseName(base, dir + [SLASH] + base)
  {
  }

  /** A negative size is refused: "a|-5" on an empty disk. */
  lemma NegativeRefused()
    ensures Parse(CMD_WRQ, 0, [97, 124, 45, 53, 0], Disk({}, {})) == BadRequest(false)
  {
    var cut := [97, 0, 45, 53, 0];
    assert CString([97, 124, 45, 53, 0]) == [97, 124, 45, 53] by { StringUpTo([97, 124, 45, 53, 0], 4); }
    assert CString(cut[2..]) == [45, 53] by { StringUpTo(cut[2..], 2); }
    assert Value([53]) == 5 by { assert [53][..0] == []; }
    assert ScanLong([45, 53]) == Some(-5) by { assert [45, 53][1..] == [53]; }
  }
}
