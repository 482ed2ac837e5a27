/** Building and reading a dv packet in place (pcs/pcs_passport_dv.c over pcs/pcs_buffer.c). */
module DvPackage {
  import opened Wrappers
  import opened DvBytes
  import opened DvItems
  import opened DvPacket
  import opened PcsBuffer

  /** Two bytes overwritten at `i`. */
  function Patch(s: seq<byte>, i: nat, v: int): (t: seq<byte>)
    requires i + 2 <= |s|
    ensures |t| == |s|
  {
    s[..i] + (Be16(v) + s[i + 2..])
  }

  /** buf_writei2. */
  method WriteI2(a: array<byte>, i: nat, v: int)
    requires i + 2 <= a.Length
    modifies a
    ensures a[..] == Patch(old(a[..]), i, v)
  {
    var w := v;
    var k := 2;
    while k > 0
      invariant 0 <= k <= 2 && w == if k == 2 then v else if k == 1 then v / 256 else v / 256 / 256
      invariant a[..] == if k == 2 then old(a[..]) else if k == 1 then old(a[..])[i + 1 := v % 256] else old(a[..])[i + 1 := v % 256][i := v / 256 % 256]
    {
      k := k - 1;
      a[i + k] := w % 256;
      w := w / 256;
    }
  }

  lemma PatchCs(cs: int, av: int, bol: int, pc: int, s: seq<byte>, v: int)
    ensures Patch(Header(cs, av, bol, pc) + s, 2, v) == Header(v, av, bol, pc) + s
  {
    hide Be16;
  }

  lemma PatchAv(cs: int, av: int, bol: int, pc: int, s: seq<byte>, v: int)
    ensures Patch(Header(cs, av, bol, pc) + s, 4, v) == Header(cs, v, bol, pc) + s
  {
    hide Be16;
  }

  lemma PatchBol(cs: int, av: int, bol: int, pc: int, s: seq<byte>, v: int)
    ensures Patch(Header(cs, av, bol, pc) + s, 6, v) == Header(cs, av, v, pc) + s
  {
    hide Be16;
  }

  lemma PatchPc(cs: int, av: int, bol: int, pc: int, s: seq<byte>, v: int)
    ensures Patch(Header(cs, av, bol, pc) + s, 8, v) == Header(cs, av, bol, v) + s
  {
    hide Be16;
  }

  lemma PatchFresh()
    ensures Patch(Patch(seq(16, _ => 0), 0, 0xa), 13, 0x5d34) == Header(0, 0, 0, 0)
  {
    var z: seq<byte> := seq(16, _ => 0);
    var f := Patch(Patch(z, 0, 0xa), 13, 0x5d34);
    var h := Header(0, 0, 0, 0);
    assert Be16(0xa) == [0, 10] && Be16(0x5d34) == [0x5d, 0x34] && Be16(0) == [0, 0];
    hide Be16;
    assert forall k | 0 <= k < 16 :: f[k] == h[k];
  }

  /** The payload length pkg_gap writes again is already there. */
  lemma PatchLength(d: seq<byte>, x: seq<byte>, y: seq<byte>)
    requires |d| >= 2
    ensures var e := EncodeItem(d); Patch(x + (e + y), |x| + 2, |e| - 4) == x + (e + y)
  {
    var e := EncodeItem(d);
    assert e[2..4] == Be16(|e| - 4);
    hide Be16, EncodeItem;
    var s := x + (e + y);
    assert s[|x| + 2..|x| + 4] == e[2..4];
    assert s == s[..|x| + 2] + (s[|x| + 2..|x| + 4] + s[|x| + 4..]);
  }

  /** Where pkg_gap puts an item: its coin chooses the end. */
  function Added(items: seq<Item>, item: Item, front: bool): (r: seq<Item>)
    ensures |r| == |items| + 1
    ensures front ==> r[0] == item && r[1..] == items
    ensures !front ==> r[|items|] == item && r[..|items|] == items
  {
    if front then [item] + items else items + [item]
  }

  lemma StreamAdded(items: seq<Item>, item: Item, front: bool)
    ensures var e := EncodeItem(Data(item));
            Stream(Added(items, item, front)) == if front then e + Stream(items) else Stream(items) + e
  {
    hide EncodeItem, Data;
    var e := EncodeItem(Data(item));
    assert Stream([item]) == e;
    if front {
      StreamAppend([item], items);
    } else {
      StreamAppend(items, [item]);
    }
  }

  lemma HeldAfter(items: seq<Item>, item: Item, front: bool)
    ensures var after := Added(items, item, front); var s := Stream(after);
            Packet(after) == Header(Checksum(s), 0xa, |s|, |items| + 1) + s && |after| == |items| + 1
  {
    hide Header, Stream, Checksum;
  }

  lemma StreamOfNone()
    ensures Stream([]) == []
  {
  }

  /** pkg_t; the item stream starts at offset 16. */
  class Package {
    const a: Buffer
    var pc: int
    var bol: int

    /** The package holds exactly these items, in this order. */
    ghost predicate Holds(items: seq<Item>)
      reads this, a, a.data
    {
      a.Valid() && a.Contents() == Packet(items) && bol == |Stream(items)| && pc == |items|
    }

    /** The bytes of the package, split into header fields and item stream. */
    ghost predicate Is(cs: int, av: int, b: int, n: int, s: seq<byte>)
      reads this, a, a.data
    {
      a.Valid() && a.Contents() == Header(cs, av, b, n) + s
    }

    /** buf_writei2 into the used part of the buffer. */
    method Overwrite(i: nat, v: int)
      requires a.Valid() && i + 2 <= a.len
      modifies a.data
      ensures a.Valid() && a.Contents() == Patch(old(a.Contents()), i, v)
    {
      hide Be16;
      WriteI2(a.data, i, v);
      assert old(a.data[..])[..a.len] == old(a.Contents());
    }

    /** pkg_init. */
    constructor ()
      ensures Holds([]) && fresh(a) && fresh(a.data)
    {
      a := new Buffer();
      pc, bol := 0, 0;
      new;
      hide Patch, Header;
      var z: seq<byte> := seq(16, _ => 0);
      a.Write(z);
      assert a.Contents() == z;
      Overwrite(0, 0xa);
      Overwrite(13, 0x5d34);
      PatchFresh();
    }

    method PkgAv(ghost cs: int, ghost av: int, ghost b: int, ghost n: int, ghost s: seq<byte>)
      requires Is(cs, av, b, n, s)
      modifies a.data
      ensures Is(cs, 0xa, b, n, s)
    {
      hide Patch, Header;
      Overwrite(4, 0xa);
      PatchAv(cs, av, b, n, s, 0xa);
    }

    method PkgP(ghost cs: int, ghost av: int, ghost b: int, ghost n: int, ghost s: seq<byte>)
      requires Is(cs, av, b, n, s)
      modifies this`pc, a.data
      ensures Is(cs, av, b, pc, s) && pc == old(pc) + 1
    {
      hide Patch, Header;
      pc := pc + 1;
      Overwrite(8, pc);
      PatchPc(cs, av, b, n, s, pc);
    }

    method PkgBl(len: nat, ghost cs: int, ghost av: int, ghost b: int, ghost n: int, ghost s: seq<byte>)
      requires Is(cs, av, b, n, s)
      modifies this`bol, a.data
      ensures Is(cs, av, bol, n, s) && bol == old(bol) + len
    {
      hide Patch, Header;
      bol := bol + len;
      Overwrite(6, bol);
      PatchBol(cs, av, b, n, s, bol);
    }

    method PkgCs(ghost cs: int, ghost av: int, ghost b: int, ghost n: int, ghost s: seq<byte>)
      requires Is(cs, av, b, n, s)
      modifies a.data
      ensures Is(Checksum(s), av, b, n, s)
    {
      hide Patch, Header, Checksum;
      var sum := CalcCs(a.data, 16, a.len - 16);
      assert a.data[16..16 + (a.len - 16)] == a.Contents()[16..] == s;
      Overwrite(2, sum);
      PatchCs(cs, av, b, n, s, sum);
    }

    /** The two ways pkg_gap splices a block in. */
    method Splice(e: seq<byte>, front: bool, ghost d: seq<byte>, ghost h: seq<byte>, ghost s: seq<byte>)
      requires a.Valid() && a.Contents() == h + s && |h| == 16 && |d| >= 2 && e == EncodeItem(d)
      modifies a, a.data
      ensures a.Valid() && a.Contents() == h + if front then e + s else s + e
      ensures a.data == old(a.data) || fresh(a.data)
    {
      hide EncodeItem, Patch;
      ghost var was := a.Contents();
      if !front {
        a.Write(e);
        Regroup(h, s, e);
        Overwrite(a.len - |e| + 2, |e| - 4);
        PatchLength(d, h + s, []);
        assert e + [] == e;
      } else {
        a.Insert(16, e);
        assert was[..16] == h && was[16..] == s;
        Regroup(h, e, s);
        Overwrite(16 + 2, |e| - 4);
        PatchLength(d, h, s);
      }
    }

    /** The header fields a push of `len` bytes updates. */
    method PkgHeader(len: nat, ghost cs: int, ghost av: int, ghost b: int, ghost n: int, ghost s: seq<byte>)
      requires Is(cs, av, b, n, s)
      modifies this, a.data
      ensures Is(Checksum(s), 0xa, bol, pc, s) && pc == old(pc) + 1 && bol == old(bol) + len
    {
      hide *;
      PkgAv(cs, av, b, n, s);
      PkgP(cs, 0xa, b, n, s);
      PkgBl(len, cs, 0xa, b, pc, s);
      PkgCs(cs, 0xa, bol, pc, s);
    }

    /** pkg_gap. */
    method PkgGap(e: seq<byte>, front: bool, ghost item: Item, ghost items: seq<Item>)
      requires Holds(items) && e == EncodeItem(Data(item))
      modifies this, a, a.data
      ensures Holds(Added(items, item, front)) && (a.data == old(a.data) || fresh(a.data))
    {
      hide Header, EncodeItem, Data, Checksum, Stream, Added;
      ghost var s := Stream(items);
      ghost var full := items != [];
      ghost var cs: int, av: int := if full then Checksum(s) else 0, if full then 0xa else 0;
      assert HeaderOf(items) == Header(cs, av, bol, pc) by { StreamOfNone(); }
      hide HeaderOf;
      Splice(e, front, Data(item), HeaderOf(items), s);
      StreamAdded(items, item, front);
      PkgHeader(|e|, cs, av, bol, pc, Stream(Added(items, item, front)));
      HeldAfter(items, item, front);
    }

    /** pkg_setdv: what the builder wrote, its payload encoded, goes to one end. */
    method PkgSetDv(d: seq<byte>, front: bool, ghost item: Item, ghost items: seq<Item>)
      requires Holds(items) && d == Data(item)
      modifies this, a, a.data
      ensures Holds(Added(items, item, front)) && (a.data == old(a.data) || fresh(a.data))
    {
      hide *;
      var c := EncodeBlock(d);
      PkgGap(c, front, item, items);
    }

    /** The base64 text of the package. */
    method Text(ghost items: seq<Item>) returns (dv: seq<byte>)
      requires Holds(items)
      ensures dv == Base64(Packet(items))
    {
      hide Packet, Stream, Base64;
      dv := PassportBase64(a.data[..a.len]);
    }
  }

  /** The block of pkg_setdv: magic number, length, and the payload encoded in place. */
  method EncodeBlock(d: seq<byte>) returns (e: seq<byte>)
    requires |d| >= 2
    ensures e == EncodeItem(d)
  {
    hide XorEncode, Be16;
    var len := |d|;
    var c := new byte[len + 2](_ => 0);
    CopyAt(c, 2, d);
    c[0], c[1] := d[0], d[1];
    assert c[..2] == d[..2] && c[4..] == d[2..];
    WriteI2(c, 2, len - 2);
    assert c[..4] == d[..2] + Be16(len - 2) && c[4..] == d[2..];
    assert c[4..4 + (len - 2)] == d[2..];
    EncodeXor(c, 4, len - 2);
    e := c[..];
    assert e[4..] == c[4..4 + (len - 2)];
    assert e == e[..4] + e[4..];
  }

  method CopyAt(c: array<byte>, p: nat, d: seq<byte>)
    requires p + |d| <= c.Length
    modifies c
    ensures c[p..p + |d|] == d
  {
    for k := 0 to |d|
      invariant c[p..p + k] == d[..k]
    {
      c[p + k] := d[k];
    }
    assert d[..|d|] == d;
  }

  // ---- Reading -----------------------------------------------------------------------

  /** passport_print_dvhead. */
  method PrintDvHead(d: array<byte>, len: nat) returns (r: Option<nat>)
    requires len <= d.Length
    ensures r == DecodeHead(d[..len])
  {
    hide Checksum, U16;
    ghost var s := d[..len];
    if len < 19 {
      return None;
    }
    if d[0] != 48 || d[1] != 49 || d[2] != 48 {
      assert s[..3][0] == d[0] && s[..3][1] == d[1] && s[..3][2] == d[2];
      return None;
    }
    assert s[..3] == MARK;
    var mgc, cs, av, bol := ReadI2(d, 3, s), ReadI2(d, 5, s), ReadI2(d, 7, s), ReadI2(d, 9, s);
    var pc, ldm := ReadI2(d, 11, s), ReadI2(d, 16, s);
    if mgc != 0xa || av != 0xa || ldm != 0x5d34 {
      return None;
    }
    if len - 19 < bol {
      return None;
    }
    var sum := CalcCs(d, 19, bol);
    assert d[19..19 + bol] == s[19..19 + bol];
    if cs != sum {
      return None;
    }
    return Some(pc);
  }

  /** buf_readi2. */
  function ReadI2(d: array<byte>, i: nat, ghost s: seq<byte>): (v: nat)
    requires i + 2 <= |s| <= d.Length && s == d[..|s|]
    reads d
    ensures v == U16(s, i)
  {
    var hi: int, lo: int := d[i], d[i + 1];
    hi * 256 + lo
  }

  /** One round of passport_print_dvitems. */
  lemma StreamStep(s: seq<byte>)
    requires s != []
    ensures |s| < 4 || |s| - 4 < U16(s, 2) ==> DecodeStream(s) == None
    ensures |s| >= 4 && |s| - 4 >= U16(s, 2) ==>
              var n := U16(s, 2);
              DecodeStream(s) ==
              match DecodeItem(U16(s, 0), XorDecode(s[4..4 + n], SEED))
              case None => None
              case Some(x) => Cat([x], DecodeStream(s[4 + n..]))
  {
    hide DecodeItem, XorDecode, U16;
  }

  /** A slice of a slice. */
  lemma Window(d: seq<byte>, p: nat, s: seq<byte>, i: nat, j: nat)
    requires p + |s| <= |d| && s == d[p..p + |s|] && i <= j <= |s|
    ensures s[i..j] == d[p + i..p + j]
  {
    var x, y := s[i..j], d[p + i..p + j];
    forall k | 0 <= k < |x| ensures x[k] == y[k] {
      assert x[k] == s[i + k] == d[p + (i + k)];
    }
  }

  /** Decodes the payload at the decoder's position; what follows it stays. */
  method DecodePayload(d: array<byte>, p: nat, n: nat, ghost s: seq<byte>)
    requires 0 < p && p + |s| <= d.Length && s == d[p..p + |s|] && 4 + n <= |s|
    modifies d
    ensures d[p + 4..p + 4 + n] == XorDecode(s[4..4 + n], SEED)
    ensures d[p + 4 + n..p + |s|] == s[4 + n..]
  {
    hide XorDecode;
    Window(d[..], p, s, 4, 4 + n);
    Window(d[..], p, s, 4 + n, |s|);
    ghost var rest := d[p + 4 + n..];
    DecodeXor(d, p + 4, n);
    assert rest[..|s| - 4 - n] == s[4 + n..];
  }

  /** One round of passport_print_dvitems: the payload is decoded in place. */
  method PrintDvItem(d: array<byte>, p: nat, len: nat, ghost s: seq<byte>) returns (item: Option<Item>, n: nat)
    requires 0 < p && 0 < len == |s| && p + len <= d.Length && s == d[p..p + len]
    modifies d
    ensures item == None ==> DecodeStream(s) == None
    ensures item.Some? ==> 4 + n <= len && d[p + 4 + n..p + len] == s[4 + n..]
    ensures item.Some? ==> DecodeStream(s) == Cat([item.value], DecodeStream(s[4 + n..]))
  {
    StreamStep(s);
    hide DecodeItem, XorDecode, U16, DecodeStream, Cat;
    n := 0;
    if len < 4 {
      return None, n;
    }
    var magic := ReadHere(d, p, s, 0);
    n := ReadHere(d, p, s, 2);
    if len - 4 < n {
      return None, n;
    }
    DecodePayload(d, p, n, s);
    item := DecodeItem(magic, d[p + 4..p + 4 + n]);
  }

  /** passport_print_dvitems; the result stands for what is printed. */
  method PrintDvItems(d: array<byte>, start: nat, length: nat, pc: nat) returns (r: Option<seq<Item>>)
    requires 0 < start && start + length <= d.Length
    modifies d
    ensures r == match DecodeStream(old(d[start..start + length]))
                 case None => None
                 case Some(items) => if pc == |items| then Some(items) else None
  {
    hide *;
    ghost var s := d[start..start + length];
    ghost var all := DecodeStream(s);
    var p, len, items := start, length, [];
    CatNothing(all);
    while len > 0
      invariant 0 < p && p + len == start + length && |s| == len && s == d[p..p + len]
      invariant Cat(items, DecodeStream(s)) == all
    {
      CatFails(items);
      var item, n := PrintDvItem(d, p, len, s);
      if item.None? {
        return None;
      }
      s := s[4 + n..];
      CatCat(items, [item.value], DecodeStream(s));
      items := items + [item.value];
      p, len := p + 4 + n, len - 4 - n;
    }
    CatEnd(items, s);
    return if pc == |items| then Some(items) else None;
  }

  /** buf_readi2 at the decoder's position. */
  function ReadHere(d: array<byte>, p: nat, ghost s: seq<byte>, i: nat): (v: nat)
    requires i + 2 <= |s| && p + |s| <= d.Length && s == d[p..p + |s|]
    reads d
    ensures v == U16(s, i)
  {
    var hi: int, lo: int := d[p + i], d[p + i + 1];
    assert d[p + i] == s[i] && d[p + i + 1] == s[i + 1];
    hi * 256 + lo
  }

  lemma CatFails(xs: seq<Item>)
    ensures Cat(xs, None) == None
  {
  }

  lemma CatEnd(xs: seq<Item>, s: seq<byte>)
    requires s == []
    ensures Cat(xs, DecodeStream(s)) == Some(xs)
  {
    assert xs + [] == xs;
  }

  /** passport_print_dv. */
  method PrintDv(dv: seq<byte>) returns (r: Option<seq<Item>>)
    ensures r == DecodePacket(Debase64(dv))
  {
    hide DecodeHead, DecodeStream, Debase64;
    var d, len := PassportDebase64(dv);
    ghost var s := d[..len];
    HeadIsLong(s);
    var pc := PrintDvHead(d, len);
    if pc.None? {
      return None;
    }
    assert s[19..] == d[19..19 + (len - 19)];
    r := PrintDvItems(d, 19, len - 19, pc.value);
  }

  lemma HeadIsLong(d: seq<byte>)
    ensures DecodeHead(d).Some? ==> |d| >= 19
  {
    hide Checksum, U16;
  }

  /** passport_build_dv: an empty package, pushes, and the text of the result. */
  method BuildDv(ps: seq<Push>) returns (dv: seq<byte>)
    ensures dv == Base64(Packet(Deque(ps)))
  {
    hide *;
    var pkg := new Package();
    ghost var items: seq<Item> := [];
    DequeOfNone();
    for k := 0 to |ps|
      invariant fresh(pkg) && fresh(pkg.a) && fresh(pkg.a.data)
      invariant items == Deque(ps[..k]) && pkg.Holds(items)
    {
      pkg.PkgSetDv(Data(ps[k].item), ps[k].front, ps[k].item, items);
      DequeStep(ps, k);
      items := Added(items, ps[k].item, ps[k].front);
    }
    assert ps[..|ps|] == ps;
    dv := pkg.Text(items);
  }

  lemma DequeOfNone()
    ensures Deque([]) == []
  {
  }

  lemma DequeStep(ps: seq<Push>, k: nat)
    requires k < |ps|
    ensures Deque(ps[..k + 1]) == Added(Deque(ps[..k]), ps[k].item, ps[k].front)
  {
    assert ps[..k + 1][..k] == ps[..k];
  }
}
