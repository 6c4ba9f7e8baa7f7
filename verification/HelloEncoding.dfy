/**
 * The wire format that the ClientHello parser undoes: record layer and ClientHello after sections 6.2.1, 7.4,
 * 7.4.1.2 and 7.4.1.4 of RFC 5246, supported groups and point formats after sections 5.1.1 and 5.1.2 of RFC 8422.
 */
module HelloEncoding {
  import opened ClientHello
  import opened Wrappers

  /* ---- the wire format ---- */

  datatype Extension = Groups(groups: seq<u16>) | PointFormats(formats: seq<byte>) | Other(kind: u16, data: seq<byte>)

  datatype Hello = Hello(recordVersion: u16, version: u16, random: seq<byte>, session: seq<byte>, ciphers: seq<u16>,
                         compression: seq<byte>, extensions: Option<seq<Extension>>)

  function EncodeU16(x: u16): (r: seq<byte>)
    ensures |r| == 2 && U16At(r, 0) == x
  {
    [x / 256, x % 256]
  }

  function EncodeU16s(xs: seq<u16>): (r: seq<byte>)
    ensures |r| == 2 * |xs|
  {
    if xs == [] then [] else EncodeU16s(xs[..|xs| - 1]) + EncodeU16(xs[|xs| - 1])
  }

  function KindOf(e: Extension): u16 {
    match e
    case Groups(_) => 10
    case PointFormats(_) => 11
    case Other(kind, _) => kind
  }

  predicate ExtensionOk(e: Extension) {
    match e
    case Groups(gs) => 2 * |gs| < 65536
    case PointFormats(fs) => |fs| < 256
    case Other(kind, _) => kind != 10 && kind != 11
  }

  function ExtensionData(e: Extension): seq<byte>
    requires ExtensionOk(e)
  {
    match e
    case Groups(gs) => EncodeU16(2 * |gs|) + EncodeU16s(gs)
    case PointFormats(fs) => [|fs|] + fs
    case Other(_, data) => data
  }

  predicate ExtensionsOk(es: seq<Extension>) {
    forall i | 0 <= i < |es| :: ExtensionOk(es[i]) && |ExtensionData(es[i])| < 65536
  }

  function EncodeExtension(e: Extension): seq<byte>
    requires ExtensionOk(e) && |ExtensionData(e)| < 65536
  {
    EncodeU16(KindOf(e)) + EncodeU16(|ExtensionData(e)|) + ExtensionData(e)
  }

  function EncodeExtensions(es: seq<Extension>): seq<byte>
    requires ExtensionsOk(es)
  {
    if es == [] then [] else EncodeExtension(es[0]) + EncodeExtensions(es[1..])
  }

  /** Field lengths fit their length prefixes; the sizes are the RFC's. */
  predicate FieldsOk(h: Hello) {
    && |h.random| == 32 && |h.session| <= 32
    && 1 <= |h.ciphers| && 2 * |h.ciphers| < 65536
    && 1 <= |h.compression| < 256
    && (h.extensions.Some? ==> ExtensionsOk(h.extensions.value) && |EncodeExtensions(h.extensions.value)| < 65536)
  }

  function ExtensionBlock(h: Hello): seq<byte>
    requires FieldsOk(h)
  {
    match h.extensions
    case None => []
    case Some(es) => EncodeU16(|EncodeExtensions(es)|) + EncodeExtensions(es)
  }

  function CompressionOn(h: Hello): seq<byte>
    requires FieldsOk(h)
  {
    [|h.compression|] + h.compression + ExtensionBlock(h)
  }

  function CiphersOn(h: Hello): seq<byte>
    requires FieldsOk(h)
  {
    EncodeU16(2 * |h.ciphers|) + EncodeU16s(h.ciphers) + CompressionOn(h)
  }

  function EncodeBody(h: Hello): seq<byte>
    requires FieldsOk(h)
  {
    EncodeU16(h.version) + h.random + [|h.session|] + h.session + CiphersOn(h)
  }

  /** The hello fits into one TLS record. */
  predicate WellFormed(h: Hello) {
    FieldsOk(h) && |EncodeBody(h)| + 4 <= 16384
  }

  function Encode(h: Hello): seq<byte>
    requires WellFormed(h)
  {
    var body := EncodeBody(h);
    [22] + EncodeU16(h.recordVersion) + EncodeU16(|body| + 4) + [1] + [0] + EncodeU16(|body|) + body
  }

  /* ---- what the fingerprint should contain ---- */

  function NoGrease(xs: seq<u16>): seq<u16> {
    if xs == [] then [] else Keep(xs[0]) + NoGrease(xs[1..])
  }

  function HeadLists(e: Extension): ExtensionLists {
    ExtensionLists(Keep(KindOf(e)), if e.Groups? then NoGrease(e.groups) else [],
                   if e.PointFormats? then e.formats else [])
  }

  function ListsOf(es: seq<Extension>): ExtensionLists {
    if es == [] then ExtensionLists([], [], []) else HeadLists(es[0]).Plus(ListsOf(es[1..]))
  }

  function FieldsOf(h: Hello): Ja3Fields {
    var lists := ListsOf(if h.extensions.Some? then h.extensions.value else []);
    Ja3Fields(h.version, NoGrease(h.ciphers), lists.kinds, lists.groups, lists.formats)
  }

  /* ---- the round trip ---- */

  lemma U16Elsewhere(d: seq<byte>, pos: nat, end: nat, i: nat)
    requires pos + i + 2 <= end <= |d|
    ensures U16At(d, pos + i) == U16At(d[pos..end], i)
  {
    assert d[pos..end][i] == d[pos + i] && d[pos..end][i + 1] == d[pos + i + 1];
  }

  lemma {:induction false} EncodedHere(xs: seq<u16>, k: nat)
    requires k < |xs|
    ensures U16At(EncodeU16s(xs), 2 * k) == xs[k]
  {
    hide U16At;
    var front, last := xs[..|xs| - 1], EncodeU16(xs[|xs| - 1]);
    var e := EncodeU16s(front);
    assert (e + last)[0..|e|] == e && (e + last)[|e|..|e| + 2] == last;
    if k < |front| {
      EncodedHere(front, k);
      U16Elsewhere(e + last, 0, |e|, 2 * k);
    } else {
      U16Elsewhere(e + last, |e|, |e| + 2, 0);
    }
  }

  /** Reading the k-th value of an encoded list wherever the list lies. */
  lemma EncodedAt(d: seq<byte>, pos: nat, xs: seq<u16>, k: nat)
    requires k < |xs| && pos + 2 * |xs| <= |d| && d[pos..pos + 2 * |xs|] == EncodeU16s(xs)
    ensures U16At(d, pos + 2 * k) == xs[k]
  {
    hide *;
    var n := 2 * |xs|;
    EncodedHere(xs, k);
    assert U16At(d[pos..pos + n], 2 * k) == xs[k];
    U16Elsewhere(d, pos, pos + n, 2 * k);
  }

  lemma {:induction false} CipherScanDecodes(hs: seq<byte>, pos: nat, xs: seq<u16>, k: nat)
    requires k <= |xs| && pos + 2 * |xs| <= |hs| && hs[pos..pos + 2 * |xs|] == EncodeU16s(xs)
    ensures CipherScan(hs, pos, 2 * |xs|, 2 * k) == NoGrease(xs[k..])
    decreases |xs| - k
  {
    hide EncodeU16s, U16At, Keep;
    if k < |xs| {
      CipherScanDecodes(hs, pos, xs, k + 1);
      EncodedAt(hs, pos, xs, k);
      assert xs[k..][0] == xs[k] && xs[k..][1..] == xs[k + 1..];
    }
  }

  lemma {:induction false} GroupScanDecodes(data: seq<byte>, gs: seq<u16>, k: nat)
    requires k <= |gs| && |data| >= 2 + 2 * |gs| && data[2..2 + 2 * |gs|] == EncodeU16s(gs)
    ensures GroupScan(data, 2 + 2 * |gs|, 2 + 2 * k) == NoGrease(gs[k..])
    decreases |gs| - k
  {
    hide EncodeU16s, U16At, Keep;
    if k < |gs| {
      GroupScanDecodes(data, gs, k + 1);
      EncodedAt(data, 2, gs, k);
      assert gs[k..][0] == gs[k] && gs[k..][1..] == gs[k + 1..];
    }
  }

  /** A list of groups in an extension that declares `n` bytes for it. */
  lemma GroupsOfData(data: seq<byte>, n: u16, gs: seq<u16>)
    requires |data| >= 2 + 2 * |gs| && U16At(data, 0) == n && data[2..2 + 2 * |gs|] == EncodeU16s(gs)
    requires n == 2 * |gs| || (n > 2 * |gs| && |data| == 2 + 2 * |gs|)
    ensures GroupsOf(10, data) == NoGrease(gs)
  {
    hide *;
    var end := 2 + 2 * |gs|;
    GroupsEnd(data, n, end);
    WholeGroupScan(data, gs, end);
  }

  lemma WholeGroupScan(data: seq<byte>, gs: seq<u16>, end: nat)
    requires end == 2 + 2 * |gs| <= |data| && data[2..end] == EncodeU16s(gs)
    ensures GroupScan(data, end, 2) == NoGrease(gs)
  {
    hide *;
    GroupScanDecodes(data, gs, 0);
    assert gs[0..] == gs;
  }

  lemma GroupsEnd(data: seq<byte>, n: u16, end: nat)
    requires |data| >= 2 && U16At(data, 0) == n
    requires if |data| < 2 + n then end == |data| else end == 2 + n
    ensures GroupsOf(10, data) == GroupScan(data, end, 2)
  {
    hide GroupScan, U16At;
  }

  lemma HeaderAndList(head: seq<byte>, list: seq<byte>, extra: seq<byte>)
    requires |head| == 2
    ensures var data := head + list + extra; U16At(data, 0) == U16At(head, 0) && data[2..2 + |list|] == list
  {
  }

  /** Bytes of an extension after the declared length of its list are not read. */
  lemma DeclaredLengthRules(gs: seq<u16>, fs: seq<byte>, extra: seq<byte>)
    requires 2 * |gs| < 65536 && |fs| < 256
    ensures GroupsOf(10, EncodeU16(2 * |gs|) + EncodeU16s(gs) + extra) == NoGrease(gs)
    ensures FormatsOf(11, [|fs|] + fs + extra) == fs
  {
    hide EncodeU16, EncodeU16s, NoGrease, GroupsOf, U16At;
    HeaderAndList(EncodeU16(2 * |gs|), EncodeU16s(gs), extra);
    GroupsOfData(EncodeU16(2 * |gs|) + EncodeU16s(gs) + extra, 2 * |gs|, gs);
    assert ([|fs|] + fs + extra)[1..1 + |fs|] == fs;
  }

  /** A list that declares more than the extension holds is read as far as it goes. */
  lemma ShortListIsRead(gs: seq<u16>, n: u16, fs: seq<byte>, m: byte)
    requires n >= 2 * |gs| && m as int >= |fs|
    ensures GroupsOf(10, EncodeU16(n) + EncodeU16s(gs)) == NoGrease(gs)
    ensures FormatsOf(11, [m] + fs) == fs
  {
    hide EncodeU16, EncodeU16s, NoGrease, GroupsOf, U16At;
    HeaderAndList(EncodeU16(n), EncodeU16s(gs), []);
    assert EncodeU16(n) + EncodeU16s(gs) + [] == EncodeU16(n) + EncodeU16s(gs);
    GroupsOfData(EncodeU16(n) + EncodeU16s(gs), n, gs);
  }

  lemma ExtensionDecodes(e: Extension)
    requires ExtensionOk(e)
    ensures OneExtension(KindOf(e), ExtensionData(e)) == HeadLists(e)
  {
    hide EncodeU16s;
    var data := ExtensionData(e);
    match e
    case Groups(gs) =>
      assert data[2..2 + 2 * |gs|] == EncodeU16s(gs);
      GroupScanDecodes(data, gs, 0);
      assert gs[0..] == gs;
    case PointFormats(fs) =>
      assert data[1..] == fs;
    case Other(_, _) =>
  }

  /** The header of an encoded extension, and what follows it. */
  lemma ExtensionLayout(hs: seq<byte>, pos: nat, e: Extension, rest: seq<byte>)
    requires ExtensionOk(e) && |ExtensionData(e)| < 65536
    requires pos <= |hs| && hs[pos..] == EncodeExtension(e) + rest
    ensures pos + 4 + |ExtensionData(e)| + |rest| == |hs|
    ensures U16At(hs, pos) == KindOf(e) && U16At(hs, pos + 2) == |ExtensionData(e)|
    ensures Slice(hs, pos + 4, pos + 4 + |ExtensionData(e)|) == ExtensionData(e)
    ensures hs[pos + 4 + |ExtensionData(e)|..] == rest
  {
    hide ExtensionData, KindOf;
    var tail, data := hs[pos..], ExtensionData(e);
    var n := |data|;
    assert tail == EncodeU16(KindOf(e)) + EncodeU16(n) + data + rest;
    assert hs[pos] == tail[0] && hs[pos + 1] == tail[1] && hs[pos + 2] == tail[2] && hs[pos + 3] == tail[3];
    assert hs[pos + 4..pos + 4 + n] == tail[4..4 + n] == data;
    assert hs[pos + 4 + n..] == tail[4 + n..] == rest;
  }

  lemma ExtensionScanNext(hs: seq<byte>, pos: nat, kind: u16, data: seq<byte>)
    requires pos + 4 + |data| <= |hs| && U16At(hs, pos) == kind && U16At(hs, pos + 2) == |data|
    requires Slice(hs, pos + 4, pos + 4 + |data|) == data
    ensures ExtensionScan(hs, pos, |hs|) == OneExtension(kind, data).Plus(ExtensionScan(hs, pos + 4 + |data|, |hs|))
  {
    hide U16At, Slice, OneExtension;
  }

  lemma NothingToScan(hs: seq<byte>)
    ensures ExtensionScan(hs, |hs|, |hs|) == ListsOf([])
  {
  }

  lemma EncodeExtensionsNext(es: seq<Extension>)
    requires ExtensionsOk(es)
    ensures es == [] ==> EncodeExtensions(es) == []
    ensures es != [] ==> ExtensionOk(es[0]) && |ExtensionData(es[0])| < 65536 && ExtensionsOk(es[1..])
                         && EncodeExtensions(es) == EncodeExtension(es[0]) + EncodeExtensions(es[1..])
                         && ListsOf(es) == HeadLists(es[0]).Plus(ListsOf(es[1..]))
  {
    hide ExtensionData, EncodeExtension, HeadLists;
  }

  lemma {:induction false} ExtensionScanDecodes(hs: seq<byte>, pos: nat, es: seq<Extension>)
    requires ExtensionsOk(es) && pos <= |hs| && hs[pos..] == EncodeExtensions(es)
    ensures ExtensionScan(hs, pos, |hs|) == ListsOf(es)
    decreases |es|
  {
    hide *;
    EncodeExtensionsNext(es);
    if es == [] {
      assert |hs[pos..]| == |hs| - pos;
      NothingToScan(hs);
    } else {
      var e, rest := es[0], es[1..];
      ExtensionLayout(hs, pos, e, EncodeExtensions(rest));
      ExtensionScanNext(hs, pos, KindOf(e), ExtensionData(e));
      ExtensionScanDecodes(hs, pos + 4 + |ExtensionData(e)|, rest);
      ExtensionDecodes(e);
    }
  }

  /* Where the parts of a body lie. */

  ghost function CiphersAt(h: Hello): nat {
    35 + |h.session|
  }

  ghost function CompressionAt(h: Hello): nat {
    CiphersAt(h) + 2 + 2 * |h.ciphers|
  }

  lemma BodyLayout(h: Hello)
    requires FieldsOk(h)
    ensures var hs := EncodeBody(h);
            && |hs| == CompressionAt(h) + |CompressionOn(h)| && 38 <= |hs|
            && U16At(hs, 0) == h.version && hs[34] == |h.session|
            && U16At(hs, CiphersAt(h)) == 2 * |h.ciphers|
            && hs[CiphersAt(h) + 2..CompressionAt(h)] == EncodeU16s(h.ciphers)
            && hs[CompressionAt(h)..] == CompressionOn(h)
  {
    hide CompressionOn, EncodeU16s;
    var hs, rest := EncodeBody(h), CiphersOn(h);
    var front := EncodeU16(h.version) + h.random + [|h.session|] + h.session;
    assert |front| == CiphersAt(h) && hs == front + rest;
    assert hs[34] == front[34] == |h.session|;
    assert hs[0] == front[0] && hs[1] == front[1];
    assert U16At(rest, 0) == 2 * |h.ciphers|;
    assert hs[CiphersAt(h)] == rest[0] && hs[CiphersAt(h) + 1] == rest[1];
    assert hs[CiphersAt(h) + 2..CompressionAt(h)] == rest[2..2 + 2 * |h.ciphers|] == EncodeU16s(h.ciphers);
    assert hs[CompressionAt(h)..] == rest[2 + 2 * |h.ciphers|..] == CompressionOn(h);
    assert |CompressionOn(h)| >= 1 by { CompressionLayout(h, CompressionOn(h), 0); }
  }

  lemma CompressionLayout(h: Hello, hs: seq<byte>, pos: nat)
    requires FieldsOk(h) && pos <= |hs| && hs[pos..] == CompressionOn(h)
    ensures pos < |hs| && hs[pos] == |h.compression|
    ensures |hs| == pos + 1 + |h.compression| + |ExtensionBlock(h)|
    ensures hs[pos + 1 + |h.compression|..] == ExtensionBlock(h)
  {
    hide ExtensionBlock;
    var tail := hs[pos..];
    assert tail == [|h.compression|] + h.compression + ExtensionBlock(h);
    assert hs[pos] == tail[0];
    assert hs[pos + 1 + |h.compression|..] == tail[1 + |h.compression|..] == ExtensionBlock(h);
  }

  lemma BlockLayout(es: seq<Extension>, hs: seq<byte>, p: nat)
    requires ExtensionsOk(es) && |EncodeExtensions(es)| < 65536
    requires p <= |hs| && hs[p..] == EncodeU16(|EncodeExtensions(es)|) + EncodeExtensions(es)
    ensures p + 2 <= |hs| && U16At(hs, p) == |EncodeExtensions(es)|
    ensures hs[p + 2..] == EncodeExtensions(es) && |hs| == p + 2 + |EncodeExtensions(es)|
  {
    hide EncodeExtensions;
    var tail := hs[p..];
    assert hs[p] == tail[0] && hs[p + 1] == tail[1];
    assert hs[p + 2..] == tail[2..];
  }

  lemma TailDecodes(h: Hello, hs: seq<byte>, pos: nat)
    requires FieldsOk(h) && pos <= |hs| && hs[pos..] == CompressionOn(h)
    ensures ParseTail(hs, pos) == Some(ListsOf(if h.extensions.Some? then h.extensions.value else []))
  {
    hide CompressionOn, ExtensionScan, EncodeExtensions, U16At;
    CompressionLayout(h, hs, pos);
    var p := pos + 1 + |h.compression|;
    if h.extensions.Some? {
      BlockLayout(h.extensions.value, hs, p);
      ExtensionScanDecodes(hs, p + 2, h.extensions.value);
    }
  }

  lemma HandshakeDecodes(h: Hello)
    requires FieldsOk(h)
    ensures ParseHandshake(EncodeBody(h)) == Some(FieldsOf(h))
  {
    hide EncodeBody, CompressionOn, CipherScan, ParseTail, U16At, ListsOf;
    BodyLayout(h);
    var hs := EncodeBody(h);
    CipherScanDecodes(hs, CiphersAt(h) + 2, h.ciphers, 0);
    assert h.ciphers[0..] == h.ciphers;
    TailDecodes(h, hs, CompressionAt(h));
  }

  /** The record and handshake headers, with anything after the record. */
  lemma HeaderDecodes(h: Hello, trailing: seq<byte>)
    requires WellFormed(h)
    ensures HandshakeBody(Encode(h) + trailing) == Some(EncodeBody(h))
  {
    hide EncodeBody;
    var body := EncodeBody(h);
    var n := |body|;
    var data := Encode(h) + trailing;
    var payload := [CLIENT_HELLO] + [0] + EncodeU16(n) + body;
    assert data == [HANDSHAKE] + EncodeU16(h.recordVersion) + EncodeU16(n + 4) + payload + trailing;
    assert U16At(data, 3) == n + 4;
    assert Slice(data, 5, 5 + (n + 4)) == payload;
    assert U16At(payload, 2) == n && payload[1] == 0;
    assert Slice(payload, 4, 4 + n) == body;
  }

  /**
   * Parsing undoes encoding: for every well-formed ClientHello, whatever follows its record, the parser returns
   * its version and its cipher, extension, group and point-format lists without the GREASE values.
   */
  lemma ParseUndoesEncode(h: Hello, trailing: seq<byte>)
    requires WellFormed(h)
    ensures Parse(Encode(h) + trailing) == Some(FieldsOf(h))
  {
    hide Encode, EncodeBody, HandshakeBody, ParseHandshake, FieldsOf;
    HeaderDecodes(h, trailing);
    HandshakeDecodes(h);
  }

  /* ---- GREASE ---- */

  lemma NoGreaseNext(x: u16, rest: seq<u16>)
    ensures NoGrease([]) == [] && NoGrease([x] + rest) == Keep(x) + NoGrease(rest)
  {
    hide Keep;
    assert ([x] + rest)[1..] == rest;
  }

  lemma {:induction false} NoGreaseConcat(a: seq<u16>, b: seq<u16>)
    ensures NoGrease(a + b) == NoGrease(a) + NoGrease(b)
  {
    hide *;
    if a == [] {
      assert a + b == b;
      NoGreaseNext(0, []);
    } else {
      var x, rest := a[0], a[1..];
      var head, u, v := Keep(x), NoGrease(rest), NoGrease(b);
      NoGreaseConcat(rest, b);
      NoGreaseNext(x, rest);
      NoGreaseNext(x, rest + b);
      assert a == [x] + rest && a + b == [x] + (rest + b);
      assert head + (u + v) == head + u + v;
    }
  }

  lemma {:induction false} ListsOfConcat(a: seq<Extension>, b: seq<Extension>)
    ensures ListsOf(a + b) == ListsOf(a).Plus(ListsOf(b))
  {
    hide HeadLists;
    if a == [] {
      assert a + b == b;
      PlusNothing(ListsOf(b));
    } else {
      ListsOfConcat(a[1..], b);
      assert (a + b)[1..] == a[1..] + b;
      PlusAssociates(HeadLists(a[0]), ListsOf(a[1..]), ListsOf(b));
    }
  }

  /** `b` is `a` with GREASE values added at some place: a cipher, an extension, or a group. */
  ghost predicate GreasedOnce(a: Hello, b: Hello) {
    || (exists front: seq<u16>, g: u16, back: seq<u16> ::
         IsGrease(g) && a.ciphers == front + back && b == a.(ciphers := front + [g] + back))
    || (a.extensions.Some? && exists front: seq<Extension>, g: u16, data: seq<byte>, back: seq<Extension> ::
         IsGrease(g) && a.extensions.value == front + back
         && b == a.(extensions := Some(front + [Other(g, data)] + back)))
    || (a.extensions.Some? && exists front: seq<Extension>, gs: seq<u16>, g: u16, hs: seq<u16>, back: seq<Extension> ::
         IsGrease(g) && a.extensions.value == front + [Groups(gs + hs)] + back
         && b == a.(extensions := Some(front + [Groups(gs + [g] + hs)] + back)))
  }

  lemma GreasedFields(a: Hello, b: Hello)
    requires GreasedOnce(a, b)
    ensures FieldsOf(a) == FieldsOf(b)
  {
    if front: seq<u16>, g: u16, back: seq<u16> :|
      IsGrease(g) && a.ciphers == front + back && b == a.(ciphers := front + [g] + back) {
      GreaseDropsOut(front, g, back);
    } else if a.extensions.Some? {
      if front: seq<Extension>, g: u16, data: seq<byte>, back: seq<Extension> :|
        IsGrease(g) && a.extensions.value == front + back
        && b == a.(extensions := Some(front + [Other(g, data)] + back)) {
        MiddleExtension(front, [Other(g, data)], back);
        ListsOfConcat(front, back);
        assert [Other(g, data)][1..] == [];
        PlusNothing(ListsOf(back));
        assert ListsOf([Other(g, data)]) == ExtensionLists([], [], []);
      } else {
        var front: seq<Extension>, gs: seq<u16>, g: u16, hs: seq<u16>, back: seq<Extension> :|
          IsGrease(g) && a.extensions.value == front + [Groups(gs + hs)] + back
          && b == a.(extensions := Some(front + [Groups(gs + [g] + hs)] + back));
        GreaseDropsOut(gs, g, hs);
        MiddleExtension(front, [Groups(gs + hs)], back);
        MiddleExtension(front, [Groups(gs + [g] + hs)], back);
        SingleGroups(gs + hs, gs + [g] + hs);
      }
    }
  }

  lemma GreaseDropsOut(front: seq<u16>, g: u16, back: seq<u16>)
    requires IsGrease(g)
    ensures NoGrease(front + [g] + back) == NoGrease(front + back)
  {
    hide IsGrease, NoGrease;
    SingleGrease(g);
    NoGreaseConcat(front + [g], back);
    NoGreaseConcat(front, [g]);
    NoGreaseConcat(front, back);
  }

  lemma SingleGrease(g: u16)
    requires IsGrease(g)
    ensures NoGrease([g]) == []
  {
    hide IsGrease;
    assert [g][1..] == [];
  }

  lemma MiddleExtension(front: seq<Extension>, mid: seq<Extension>, back: seq<Extension>)
    ensures ListsOf(front + mid + back) == ListsOf(front).Plus(ListsOf(mid).Plus(ListsOf(back)))
  {
    ListsOfConcat(front + mid, back);
    ListsOfConcat(front, mid);
    PlusAssociates(ListsOf(front), ListsOf(mid), ListsOf(back));
  }

  lemma SingleGroups(gs: seq<u16>, hs: seq<u16>)
    requires NoGrease(gs) == NoGrease(hs)
    ensures ListsOf([Groups(gs)]) == ListsOf([Groups(hs)])
  {
    assert [Groups(gs)][1..] == [] && [Groups(hs)][1..] == [];
  }

  /** Inserting a GREASE cipher, extension or group anywhere never changes what the parser returns. */
  lemma GreaseIsInvisible(a: Hello, b: Hello)
    requires WellFormed(a) && WellFormed(b) && GreasedOnce(a, b)
    ensures Parse(Encode(a)) == Parse(Encode(b))
  {
    hide WellFormed, Encode, Parse, FieldsOf, GreasedOnce;
    ParseUndoesEncode(a, []);
    ParseUndoesEncode(b, []);
    GreasedFields(a, b);
    assert Encode(a) + [] == Encode(a) && Encode(b) + [] == Encode(b);
  }

  /** A smallest ClientHello, without and with a GREASE cipher, is well-formed: the two results above say something. */
  lemma SmallHellos() returns (a: Hello, b: Hello)
    ensures WellFormed(a) && WellFormed(b) && GreasedOnce(a, b) && a != b
    ensures Parse(Encode(b)) == Some(Ja3Fields(0x0303, [0x1301], [], [], []))
  {
    hide Parse, Encode, IsGrease;
    var random := seq(32, _ => 0);
    a := Hello(0x0301, 0x0303, random, [], [0x1301], [0], None);
    b := a.(ciphers := [] + [0x0A0A] + [0x1301]);
    assert a.ciphers == [] + [0x1301];
    GreaseValue();
    ParseUndoesEncode(a, []);
    assert Encode(a) + [] == Encode(a);
    GreaseIsInvisible(a, b);
    NoGreaseCipher();
  }

  lemma GreaseValue()
    ensures IsGrease(0x0A0A)
  {
  }

  lemma NoGreaseCipher()
    ensures NoGrease([0x1301]) == [0x1301]
  {
    assert [0x1301][1..] == [];
  }

  /** Bytes after the first record never matter, whatever the record holds. */
  lemma TrailingBytesIgnored(data: seq<byte>, trailing: seq<byte>)
    requires |data| >= 5 && |data| >= 5 + U16At(data, 3)
    ensures Parse(data + trailing) == Parse(data)
  {
    hide ParseHandshake;
    assert U16At(data + trailing, 3) == U16At(data, 3);
    assert Slice(data + trailing, 5, 5 + U16At(data, 3)) == Slice(data, 5, 5 + U16At(data, 3));
  }
}
