/** The dv packet as a value: what a sequence of front and back pushes builds, and what the decoder
    makes of a packet (pcs/pcs_passport_dv.c). */
module DvPacket {
  import opened Wrappers
  import opened DvBytes
  import opened DvItems

  /** pkg_setdv: magic number, payload length, encoded payload. */
  function EncodeItem(d: seq<byte>): (e: seq<byte>)
    requires |d| >= 2
    ensures |e| == |d| + 2
  {
    d[..2] + (Be16(|d| - 2) + XorEncode(d[2..], SEED))
  }

  function Stream(items: seq<Item>): seq<byte> {
    if items == [] then [] else EncodeItem(Data(items[0])) + Stream(items[1..])
  }

  lemma {:induction false} StreamAppend(a: seq<Item>, b: seq<Item>)
    ensures Stream(a + b) == Stream(a) + Stream(b)
  {
    hide EncodeItem, Data;
    if a == [] {
      assert a + b == b;
    } else {
      StreamAppend(a[1..], b);
      assert (a + b)[1..] == a[1..] + b;
      Regroup(EncodeItem(Data(a[0])), Stream(a[1..]), Stream(b));
    }
  }

  /** The 16 header bytes: magic, checksum, av, payload length, item count, three zeros, ldm, zero. */
  function Header(cs: int, av: int, bol: int, pc: int): (h: seq<byte>)
    ensures |h| == 16
  {
    Be16(0xa) + (Be16(cs) + (Be16(av) + (Be16(bol) + (Be16(pc) + ([0, 0, 0] + (Be16(0x5d34) + [0]))))))
  }

  /** The checksum and `av` are filled in by the first push only. */
  function HeaderOf(items: seq<Item>): (h: seq<byte>)
    ensures |h| == 16
  {
    if items == [] then Header(0, 0, 0, 0)
    else Header(Checksum(Stream(items)), 0xa, |Stream(items)|, |items|)
  }

  function Packet(items: seq<Item>): seq<byte> { HeaderOf(items) + Stream(items) }

  /** One call of pkg_setdv; `front` is the outcome of its coin. */
  datatype Push = Push(item: Item, front: bool)

  /** The order in which pushes leave the items. */
  function Deque(ps: seq<Push>): seq<Item> {
    if ps == [] then [] else
      var p := ps[|ps| - 1];
      var q := Deque(ps[..|ps| - 1]);
      if p.front then [p.item] + q else q + [p.item]
  }

  // ---- Decoding ----------------------------------------------------------------------

  /** passport_print_dvhead: the item count, or None for its errors. */
  function DecodeHead(d: seq<byte>): Option<nat> {
    if |d| < 19 || d[..3] != MARK then None
    else if U16(d, 3) != 0xa || U16(d, 7) != 0xa || U16(d, 16) != 0x5d34 then None
    else if |d| - 19 < U16(d, 9) then None
    else if U16(d, 5) != Checksum(d[19..19 + U16(d, 9)]) then None
    else Some(U16(d, 11))
  }

  /** passport_print_dvitems without the final count. */
  function DecodeStream(s: seq<byte>): Option<seq<Item>> {
    if s == [] then Some([])
    else if |s| < 4 || |s| - 4 < U16(s, 2) then None
    else
      var n := U16(s, 2);
      match DecodeItem(U16(s, 0), XorDecode(s[4..4 + n], SEED))
      case None => None
      case Some(x) =>
        match DecodeStream(s[4 + n..])
        case None => None
        case Some(xs) => Some([x] + xs)
  }

  /** passport_print_dv on the decoded bytes. */
  function DecodePacket(d: seq<byte>): Option<seq<Item>> {
    match DecodeHead(d)
    case None => None
    case Some(pc) =>
      match DecodeStream(d[19..])
      case None => None
      case Some(items) => if pc == |items| then Some(items) else None
  }

  // ---- Round trip --------------------------------------------------------------------

  /** The bytes an item takes in the stream: four before its payload. */
  function ItemSize(item: Item): nat {
    match item
    case Init(_) => 8
    case ToolBar(_, _) => 10
    case Time(_) => 12
    case Browser(_, _, version) => 8 + |version|
    case PageToken(token) => 5 + |token|
    case Verify(_, _, excerpt) => 9 + |excerpt|
    case PcMac(_) => 5
    case Location(url, referer) => 8 + |url| + |referer|
    case ScreenInfo(sizes) => 4 + 4 * |sizes|
    case TestUtils(_) => 8
    case MouseMove(target, _, _, _) => 13 + |target|
    case MouseDown(target, _, _, _, attrs, _, rect) => (if rect.None? then 16 else 24) + |target| + |attrs|
    case Focus(target, _) => 9 + |target|
    case KeyDown(target, _, _, _, kind) => 11 + |target| + |kind|
    case Other(_, raw) => 4 + |raw|
  }

  function StreamSize(items: seq<Item>): nat {
    if items == [] then 0 else ItemSize(items[0]) + StreamSize(items[1..])
  }

  lemma ItemSizeIs(item: Item)
    ensures |Payload(item)| + 4 == ItemSize(item)
  {
  }

  lemma {:induction false} StreamSizeIs(items: seq<Item>)
    ensures |Stream(items)| == StreamSize(items)
  {
    hide EncodeItem, Data, ItemSize;
    if items != [] {
      ItemSizeIs(items[0]);
      StreamSizeIs(items[1..]);
    }
  }

  predicate AllInRange(items: seq<Item>) { forall k | 0 <= k < |items| :: InRange(items[k]) }

  lemma EncodedShape(magic: seq<byte>, payload: seq<byte>)
    requires |magic| == 2
    ensures EncodeItem(magic + payload) == magic + (Be16(|payload|) + XorEncode(payload, SEED))
  {
    hide Be16, XorEncode;
    var d := magic + payload;
    assert d[..2] == magic && d[2..] == payload;
  }

  /** Cutting `a b c rest` at its seams. */
  lemma Seams(a: seq<byte>, b: seq<byte>, c: seq<byte>, rest: seq<byte>)
    requires |a| == 2 && |b| == 2
    ensures var s := (a + (b + c)) + rest;
            |s| == 4 + |c| + |rest| && s[0..2] == a && s[2..4] == b && s[4..4 + |c|] == c && s[4 + |c|..] == rest
  {
  }

  /** The pieces of an encoded item at the front of a stream. */
  lemma EncodedPieces(magic: seq<byte>, payload: seq<byte>, rest: seq<byte>)
    requires |magic| == 2
    ensures var s := EncodeItem(magic + payload) + rest; var n := |payload|;
            && |s| >= 4 + n && s[0..2] == magic && s[2..4] == Be16(n)
            && s[4..4 + n] == XorEncode(payload, SEED) && s[4 + n..] == rest
  {
    hide Be16, XorEncode, EncodeItem;
    EncodedShape(magic, payload);
    Seams(magic, Be16(|payload|), XorEncode(payload, SEED), rest);
  }

  lemma EncodedItemDecodes(item: Item, rest: seq<byte>)
    requires InRange(item) && |Payload(item)| < 0x1_0000
    ensures var s := EncodeItem(Data(item)) + rest; var n := |Payload(item)|;
            && |s| >= 4 + n && U16(s, 0) == Magic(item) && U16(s, 2) == n
            && XorDecode(s[4..4 + n], SEED) == Payload(item) && s[4 + n..] == rest
  {
    hide Be16, U16, EncodeItem, Payload, XorEncode, XorDecode, Magic;
    EncodedPieces(Be16(Magic(item)), Payload(item), rest);
    var s := EncodeItem(Data(item)) + rest;
    Read16(s, 0, Magic(item));
    Read16(s, 2, |Payload(item)|);
    XorRoundTrip(Payload(item), SEED);
  }

  lemma {:induction false} StreamDecodes(items: seq<Item>)
    requires AllInRange(items) && StreamSize(items) < 0x1_0000
    ensures DecodeStream(Stream(items)) == Some(items)
  {
    if items != [] {
      var x, rest := items[0], Stream(items[1..]);
      assert InRange(items[0]);
      ItemSizeIs(x);
      EncodedItemDecodes(x, rest);
      hide InRange, ItemSize, EncodeItem, Data, Payload, XorDecode, DecodeItem, U16, Magic;
      ItemRoundTrip(x);
      StreamDecodes(items[1..]);
      assert [x] + items[1..] == items;
    }
  }

  lemma HeadDecodes(cs: byte, av: int, bol: int, pc: int, s: seq<byte>)
    requires IsU16(av) && IsU16(bol) && IsU16(pc)
    ensures var d := MARK + (Header(cs, av, bol, pc) + s);
            && |d| == 19 + |s| && d[..3] == MARK && d[19..] == s
            && U16(d, 3) == 0xa && U16(d, 5) == cs && U16(d, 7) == av && U16(d, 9) == bol
            && U16(d, 11) == pc && U16(d, 16) == 0x5d34
  {
    var d := MARK + (Header(cs, av, bol, pc) + s);
    assert d[3..19] == Header(cs, av, bol, pc);
    HeaderFields(d, 3, cs, av, bol, pc);
    hide Be16, U16, Header;
    Read16(d, 3, 0xa);
    Read16(d, 5, cs);
    Read16(d, 7, av);
    Read16(d, 9, bol);
    Read16(d, 11, pc);
    Read16(d, 16, 0x5d34);
  }

  lemma HeaderFields(d: seq<byte>, i: nat, cs: int, av: int, bol: int, pc: int)
    requires i + 16 <= |d| && d[i..i + 16] == Header(cs, av, bol, pc)
    ensures d[i..i + 2] == Be16(0xa) && d[i + 2..i + 4] == Be16(cs) && d[i + 4..i + 6] == Be16(av)
    ensures d[i + 6..i + 8] == Be16(bol) && d[i + 8..i + 10] == Be16(pc) && d[i + 13..i + 15] == Be16(0x5d34)
  {
    hide Be16;
    var h := Header(cs, av, bol, pc);
    assert h[0..2] == Be16(0xa) && h[2..4] == Be16(cs) && h[4..6] == Be16(av);
    assert h[6..8] == Be16(bol) && h[8..10] == Be16(pc) && h[13..15] == Be16(0x5d34);
    hide Header;
    Sub(d, i, h, 0);
    Sub(d, i, h, 2);
    Sub(d, i, h, 4);
    Sub(d, i, h, 6);
    Sub(d, i, h, 8);
    Sub(d, i, h, 13);
  }

  lemma Sub(d: seq<byte>, i: nat, h: seq<byte>, k: nat)
    requires |h| == 16 && i + 16 <= |d| && d[i..i + 16] == h && k + 2 <= 16
    ensures d[i + k..i + k + 2] == h[k..k + 2]
  {
    assert d[i + k] == d[i..i + 16][k] && d[i + k + 1] == d[i..i + 16][k + 1];
  }

  lemma {:induction false} StreamIsLong(items: seq<Item>)
    ensures |Stream(items)| >= 4 * |items|
  {
    if items != [] {
      StreamIsLong(items[1..]);
    }
  }

  lemma HeadAccepted(d: seq<byte>, s: seq<byte>, pc: nat)
    requires |d| == 19 + |s| && d[..3] == MARK && d[19..] == s
    requires U16(d, 3) == 0xa && U16(d, 5) == Checksum(s) && U16(d, 7) == 0xa && U16(d, 9) == |s|
    requires U16(d, 11) == pc && U16(d, 16) == 0x5d34
    ensures DecodeHead(d) == Some(pc)
  {
    hide U16, Checksum;
    assert d[19..19 + |s|] == s;
  }

  /** The header of a packet with items is accepted and announces their count. */
  lemma PacketHead(items: seq<Item>)
    requires items != [] && StreamSize(items) < 0x1_0000
    ensures var d := MARK + Packet(items);
            |d| >= 19 && DecodeHead(d) == Some(|items|) && d[19..] == Stream(items)
  {
    var s := Stream(items);
    StreamIsLong(items);
    StreamSizeIs(items);
    var d := MARK + Packet(items);
    assert d == MARK + (Header(Checksum(s), 0xa, |s|, |items|) + s);
    hide Header, HeaderOf, Packet, Stream, Checksum, U16, DecodeHead;
    HeadDecodes(Checksum(s), 0xa, |s|, |items|, s);
    HeadAccepted(d, s, |items|);
  }

  lemma PacketDecodes(items: seq<Item>)
    requires |items| > 0 && AllInRange(items) && StreamSize(items) < 0x1_0000
    ensures DecodePacket(MARK + Packet(items)) == Some(items)
  {
    hide Packet, Stream, DecodeStream, DecodeHead, InRange;
    PacketHead(items);
    StreamDecodes(items);
  }

  /** A packet nothing was pushed to is rejected: its `av` field is still zero. */
  lemma EmptyPacketRejected()
    ensures DecodePacket(MARK + Packet([])) == None
  {
    assert HeaderOf([]) == Header(0, 0, 0, 0);
    assert Stream([]) == [];
    hide Header, U16, HeaderOf;
    HeadDecodes(0, 0, 0, 0, []);
  }

  /** For every list of in-range items pushed to either end, with fewer than 65536 bytes of payload,
      decoding the base64 text of the packet gives the items in deque order, unless there are none. */
  lemma PacketRoundTrip(ps: seq<Push>)
    requires AllInRange(Deque(ps)) && StreamSize(Deque(ps)) < 0x1_0000
    ensures DecodePacket(Debase64(Base64(Packet(Deque(ps))))) ==
            if ps == [] then None else Some(Deque(ps))
  {
    hide DecodePacket, Packet, Stream;
    PrefixedRoundTrip(Packet(Deque(ps)));
    DequeHoldsAll(ps);
    if ps == [] {
      EmptyPacketRejected();
    } else {
      PacketDecodes(Deque(ps));
    }
  }

  /** Every pushed item is in the deque, with its multiplicity. */
  lemma {:induction false} DequeHoldsAll(ps: seq<Push>)
    ensures |Deque(ps)| == |ps|
    ensures multiset(Deque(ps)) == multiset(seq(|ps|, i requires 0 <= i < |ps| => ps[i].item))
  {
    var all := seq(|ps|, i requires 0 <= i < |ps| => ps[i].item);
    if ps != [] {
      var n := |ps| - 1;
      DequeHoldsAll(ps[..n]);
      var before := seq(n, i requires 0 <= i < n => ps[..n][i].item);
      assert all == before + [ps[n].item];
    }
  }

  /** Damage to any one payload byte that changes it is noticed by the checksum. */
  lemma ChecksumSeesOneByte(a: seq<byte>, x: byte, y: byte, b: seq<byte>)
    requires x != y
    ensures Checksum(a + [x] + b) != Checksum(a + [y] + b)
  {
    SumAppend(a + [x], b);
    SumAppend(a + [y], b);
    assert (a + [x])[..|a|] == a && (a + [y])[..|a|] == a;
  }

  lemma {:induction false} SumAppend(a: seq<byte>, b: seq<byte>)
    ensures SumBytes(a + b) == SumBytes(a) + SumBytes(b)
  {
    if b == [] {
      assert a + b == a;
    } else {
      var n := |b| - 1;
      SumAppend(a, b[..n]);
      assert (a + b)[..|a + b| - 1] == a + b[..n];
    }
  }
}
