/** The TLS ClientHello parser behind the JA3 fingerprint; GREASE values after section 2 of RFC 8701. */
module ClientHello {
  import opened Wrappers

  type byte = x: int | 0 <= x < 256
  type u16 = x: int | 0 <= x < 65536

  const HANDSHAKE := 22
  const CLIENT_HELLO := 1
  const SUPPORTED_GROUPS := 0x000A
  const POINT_FORMATS := 0x000B

  datatype Ja3Fields = Ja3Fields(version: u16, ciphers: seq<u16>, extensions: seq<u16>, groups: seq<u16>,
                                 formats: seq<byte>)

  predicate IsGrease(x: u16) {
    x in {0x0A0A, 0x1A1A, 0x2A2A, 0x3A3A, 0x4A4A, 0x5A5A, 0x6A6A, 0x7A7A,
          0x8A8A, 0x9A9A, 0xAAAA, 0xBABA, 0xCACA, 0xDADA, 0xEAEA, 0xFAFA}
  }

  /** The table lists the sixteen values 0x0A0A + 0x1010 k. */
  lemma GreaseTable(x: u16)
    ensures IsGrease(x) <==> exists k | 0 <= k < 16 :: x == Pattern(k)
  {
    if IsGrease(x) {
      assert x in {Pattern(0), Pattern(1), Pattern(2), Pattern(3), Pattern(4), Pattern(5), Pattern(6), Pattern(7),
                   Pattern(8), Pattern(9), Pattern(10), Pattern(11), Pattern(12), Pattern(13), Pattern(14),
                   Pattern(15)};
    }
  }

  function Pattern(k: int): int {
    2570 + 4112 * k
  }

  lemma BytesOf(x: u16)
    ensures x == 256 * (x / 256) + x % 256 && 0 <= x % 256 < 256
    ensures x % 16 == x % 256 % 16
  {
  }

  lemma LowByte(low: int)
    requires 0 <= low < 256 && low % 16 == 10
    ensures exists k | 0 <= k < 16 :: 257 * low == Pattern(k)
  {
    assert low == 16 * (low / 16) + 10;
    assert 257 * low == Pattern(low / 16);
  }

  lemma PatternBytes(k: int)
    requires 0 <= k < 16
    ensures Pattern(k) / 256 == Pattern(k) % 256 == 16 * k + 10 && Pattern(k) % 16 == 10
  {
    var low := 16 * k + 10;
    assert Pattern(k) == 256 * low + low;
  }

  /** The table holds exactly the values of the RFC's pattern: two equal bytes that end in hexadecimal A. */
  lemma GreasePattern(x: u16)
    ensures IsGrease(x) <==> x / 256 == x % 256 && x % 16 == 10
  {
    hide *;
    GreaseTable(x);
    BytesOf(x);
    if x / 256 == x % 256 && x % 16 == 10 {
      LowByte(x % 256);
    }
    if k :| 0 <= k < 16 && x == Pattern(k) {
      PatternBytes(k);
    }
  }

  /* ---- the parser as a function ---- */

  function U16At(d: seq<byte>, i: nat): u16
    requires i + 2 <= |d|
  {
    d[i] as int * 256 + d[i + 1] as int
  }

  /** Python's `s[a:b]` for 0 <= a <= b. */
  function Slice(s: seq<byte>, a: nat, b: nat): (r: seq<byte>)
    requires a <= b
    ensures b <= |s| ==> |r| == b - a
    ensures a <= |s| < b ==> |r| == |s| - a
    ensures |s| < a ==> r == []
    ensures forall i | 0 <= i < |r| :: a + i < |s| && r[i] == s[a + i]
  {
    if a >= |s| then [] else if b >= |s| then s[a..] else s[a..b]
  }

  function Keep(x: u16): seq<u16> {
    if IsGrease(x) then [] else [x]
  }

  function CipherScan(hs: seq<byte>, pos: nat, total: nat, i: nat): seq<u16>
    decreases total + 1 - i
  {
    if i >= total || pos + i + 2 > |hs| then [] else Keep(U16At(hs, pos + i)) + CipherScan(hs, pos, total, i + 2)
  }

  function GroupScan(ext: seq<byte>, end: nat, i: nat): seq<u16>
    decreases end + 1 - i
  {
    if i >= end then []
    else (if i + 2 <= |ext| then Keep(U16At(ext, i)) else []) + GroupScan(ext, end, i + 2)
  }

  function Min(a: nat, b: nat): nat {
    if a < b then a else b
  }

  function GroupsOf(kind: u16, data: seq<byte>): seq<u16> {
    if kind == SUPPORTED_GROUPS && |data| >= 2 then GroupScan(data, Min(2 + U16At(data, 0), |data|), 2) else []
  }

  function FormatsOf(kind: u16, data: seq<byte>): seq<byte> {
    if kind == POINT_FORMATS && |data| >= 1 then data[1..Min(1 + data[0] as int, |data|)] else []
  }

  datatype ExtensionLists = ExtensionLists(kinds: seq<u16>, groups: seq<u16>, formats: seq<byte>) {
    function Plus(o: ExtensionLists): ExtensionLists {
      ExtensionLists(kinds + o.kinds, groups + o.groups, formats + o.formats)
    }
  }

  function OneExtension(kind: u16, data: seq<byte>): ExtensionLists {
    ExtensionLists(Keep(kind), GroupsOf(kind, data), FormatsOf(kind, data))
  }

  function ExtensionScan(hs: seq<byte>, pos: nat, end: nat): ExtensionLists
    decreases if pos < |hs| then |hs| - pos else 0
  {
    if pos + 4 <= end && pos + 4 <= |hs| then
      var kind, len := U16At(hs, pos), U16At(hs, pos + 2);
      OneExtension(kind, Slice(hs, pos + 4, pos + 4 + len)).Plus(ExtensionScan(hs, pos + 4 + len, end))
    else ExtensionLists([], [], [])
  }

  /** Everything from the compression methods on. */
  function ParseTail(hs: seq<byte>, pos: nat): Option<ExtensionLists> {
    if pos >= |hs| then None
    else
      var p := pos + 1 + hs[pos] as int;
      if p + 2 <= |hs| then Some(ExtensionScan(hs, p + 2, p + 2 + U16At(hs, p)))
      else Some(ExtensionLists([], [], []))
  }

  function ParseHandshake(hs: seq<byte>): Option<Ja3Fields> {
    if |hs| < 38 then None
    else
      var pos := 35 + hs[34] as int;
      if pos + 2 > |hs| then None
      else
        var total := U16At(hs, pos);
        var tail := ParseTail(hs, pos + 2 + total);
        if tail.None? then None
        else Some(Ja3Fields(U16At(hs, 0), CipherScan(hs, pos + 2, total, 0), tail.value.kinds, tail.value.groups,
                            tail.value.formats))
  }

  /** The ClientHello inside a record, if that is what the bytes start with. */
  function HandshakeBody(data: seq<byte>): Option<seq<byte>> {
    if |data| < 5 || data[0] != HANDSHAKE then None
    else
      var payload := Slice(data, 5, 5 + U16At(data, 3));
      if |payload| < 4 || payload[0] != CLIENT_HELLO then None
      else Some(Slice(payload, 4, 4 + payload[1] as int * 65536 + U16At(payload, 2)))
  }

  function Parse(data: seq<byte>): Option<Ja3Fields> {
    var hs := HandshakeBody(data);
    if hs.None? then None else ParseHandshake(hs.value)
  }

  /* ---- the parser as the program runs it ---- */

  lemma CipherStep(hs: seq<byte>, pos: nat, total: nat, i: nat)
    ensures CipherScan(hs, pos, total, i)
         == if i >= total || pos + i + 2 > |hs| then []
            else (if IsGrease(U16At(hs, pos + i)) then [] else [U16At(hs, pos + i)]) + CipherScan(hs, pos, total, i + 2)
  {
    hide IsGrease, U16At;
  }

  lemma GroupStep(ext: seq<byte>, end: nat, i: nat)
    ensures GroupScan(ext, end, i)
         == if i >= end then []
            else (if i + 2 > |ext| || IsGrease(U16At(ext, i)) then [] else [U16At(ext, i)]) + GroupScan(ext, end, i + 2)
  {
    hide IsGrease, U16At;
  }

  method ReadCiphers(hs: seq<byte>, pos: nat, total: nat) returns (ciphers: seq<u16>)
    ensures ciphers == CipherScan(hs, pos, total, 0)
  {
    hide CipherScan, U16At, IsGrease;
    ciphers := [];
    var i := 0;
    while i < total
      invariant ciphers + CipherScan(hs, pos, total, i) == CipherScan(hs, pos, total, 0)
      decreases total + 1 - i
    {
      CipherStep(hs, pos, total, i);
      if pos + i + 2 > |hs| {
        break;
      }
      var c := U16At(hs, pos + i);
      if !IsGrease(c) {
        ciphers := ciphers + [c];
      }
      i := i + 2;
    }
    CipherStep(hs, pos, total, i);
  }

  method ReadGroups(ext: seq<byte>, end: nat) returns (groups: seq<u16>)
    ensures groups == GroupScan(ext, end, 2)
  {
    hide GroupScan, U16At, IsGrease;
    groups := [];
    var i := 2;
    while i < end
      invariant groups + GroupScan(ext, end, i) == GroupScan(ext, end, 2)
      decreases end + 1 - i
    {
      GroupStep(ext, end, i);
      if i + 2 <= |ext| {
        var g := U16At(ext, i);
        if !IsGrease(g) {
          groups := groups + [g];
        }
      }
      i := i + 2;
    }
    GroupStep(ext, end, i);
  }

  /** One extension's contribution to the three lists. */
  method ReadExtension(kind: u16, data: seq<byte>, lists: ExtensionLists) returns (r: ExtensionLists)
    ensures r == lists.Plus(OneExtension(kind, data))
  {
    r := lists;
    if !IsGrease(kind) {
      r := r.(kinds := r.kinds + [kind]);
    }
    if kind == SUPPORTED_GROUPS && |data| >= 2 {
      var groups := ReadGroups(data, Min(2 + U16At(data, 0), |data|));
      r := r.(groups := r.groups + groups);
    }
    if kind == POINT_FORMATS && |data| >= 1 {
      r := r.(formats := r.formats + data[1..Min(1 + data[0] as int, |data|)]);
    }
  }

  method ReadExtensions(hs: seq<byte>, start: nat, end: nat) returns (lists: ExtensionLists)
    ensures lists == ExtensionScan(hs, start, end)
  {
    hide OneExtension, Slice, ExtensionLists.Plus;
    lists := ExtensionLists([], [], []);
    var pos := start;
    PlusNothing(ExtensionScan(hs, start, end));
    while pos + 4 <= end && pos + 4 <= |hs|
      invariant lists.Plus(ExtensionScan(hs, pos, end)) == ExtensionScan(hs, start, end)
      decreases if pos < |hs| then |hs| - pos else 0
    {
      var kind, len := U16At(hs, pos), U16At(hs, pos + 2);
      var data := Slice(hs, pos + 4, pos + 4 + len);
      PlusAssociates(lists, OneExtension(kind, data), ExtensionScan(hs, pos + 4 + len, end));
      lists := ReadExtension(kind, data, lists);
      pos := pos + 4 + len;
    }
    PlusNothing(lists);
  }

  lemma PlusNothing(a: ExtensionLists)
    ensures ExtensionLists([], [], []).Plus(a) == a == a.Plus(ExtensionLists([], [], []))
  {
  }

  lemma PlusAssociates(a: ExtensionLists, b: ExtensionLists, c: ExtensionLists)
    ensures a.Plus(b).Plus(c) == a.Plus(b.Plus(c))
  {
  }

  /** The ClientHello message inside the handshake message inside the record. */
  method ReadHandshake(hs: seq<byte>) returns (r: Option<Ja3Fields>)
    ensures r == ParseHandshake(hs)
  {
    hide CipherScan, ExtensionScan, U16At;
    if |hs| < 38 {
      return None;
    }
    var version := U16At(hs, 0);
    var pos := 34;
    pos := pos + 1 + hs[pos] as int;
    if pos + 2 > |hs| {
      return None;
    }
    var total := U16At(hs, pos);
    pos := pos + 2;
    var ciphers := ReadCiphers(hs, pos, total);
    pos := pos + total;
    if pos >= |hs| {
      return None;
    }
    pos := pos + 1 + hs[pos] as int;
    var lists := ExtensionLists([], [], []);
    if pos + 2 <= |hs| {
      lists := ReadExtensions(hs, pos + 2, pos + 2 + U16At(hs, pos));
    }
    return Some(Ja3Fields(version, ciphers, lists.kinds, lists.groups, lists.formats));
  }

  /** `_parse_client_hello`: total on every byte string, and every read is within bounds. */
  method ParseClientHello(data: seq<byte>) returns (r: Option<Ja3Fields>)
    ensures r == Parse(data)
  {
    hide ParseHandshake, Slice;
    if |data| < 5 || data[0] != HANDSHAKE {
      return None;
    }
    var payload := Slice(data, 5, 5 + U16At(data, 3));
    if |payload| < 4 || payload[0] != CLIENT_HELLO {
      return None;
    }
    var hs := Slice(payload, 4, 4 + payload[1] as int * 65536 + payload[2] as int * 256 + payload[3] as int);
    r := ReadHandshake(hs);
  }
}
