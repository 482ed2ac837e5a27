/** The items of a dv packet: what each builder writes and what its decoder reads back
    (pcs/pcs_passport_dv.c). */
module DvItems {
  import opened Wrappers
  import opened DvBytes

  datatype Rect = Rect(left: int, top: int, width: int, height: int)

  datatype Item =
    | Init(flags: int)
    | ToolBar(flags: int, key: int)
    | Time(ms: int)
    | Browser(browser: int, os: int, version: seq<byte>)
    | PageToken(token: seq<byte>)
    | Verify(func: int, position: int, excerpt: seq<byte>)
    | PcMac(count: int)
    | Location(url: seq<byte>, referer: seq<byte>)
    | ScreenInfo(sizes: seq<int>)
    | TestUtils(found: int)
    | MouseMove(target: seq<byte>, x: int, y: int, time: int)
    | MouseDown(target: seq<byte>, x: int, y: int, which: int, attrs: seq<byte>, time: int, rect: Option<Rect>)
    | Focus(target: seq<byte>, time: int)
    | KeyDown(target: seq<byte>, key: int, ctrl: int, time: int, kind: seq<byte>)
    | Other(magic: int, raw: seq<byte>)   // dumped as it stands

  function Magic(item: Item): (m: nat)
    ensures m < 0x1_0000
  {
    match item
    case Other(magic, _) => magic % 0x1_0000
    case ToolBar(_, _) => 0x102
    case Browser(_, _, _) => 0x402
    case Init(_) => 0x502
    case ScreenInfo(_) => 0x602
    case TestUtils(_) => 0x702
    case MouseMove(_, _, _, _) => 0x802
    case MouseDown(_, _, _, _, _, _, _) => 0x902
    case KeyDown(_, _, _, _, _) => 0xc02
    case Focus(_, _) => 0xd02
    case PcMac(_) => 0x1002
    case Location(_, _) => 0x1302
    case Time(_) => 0x1502
    case PageToken(_) => 0x1602
    case Verify(_, _, _) => 0x1702
  }

  predicate Known(magic: int) {
    magic in [0x102, 0x402, 0x502, 0x602, 0x702, 0x802, 0x902, 0xc02, 0xd02, 0x1002, 0x1302, 0x1502, 0x1602, 0x1702]
  }

  predicate IsByte(v: int) { 0 <= v < 256 }

  /** The fields fit the widths the builders write them with. */
  predicate InRange(item: Item) {
    match item
    case Init(flags) => IsI32(flags)
    case ToolBar(flags, key) => IsByte(flags) && IsI32(key)
    case Time(ms) => IsI64(ms)
    case Browser(browser, os, _) => IsByte(browser) && IsByte(os)
    case PageToken(token) => |token| < 256
    case Verify(func, position, excerpt) => IsByte(func) && IsU16(position) && |excerpt| < 0x1_0000
    case PcMac(count) => IsByte(count)
    case Location(url, referer) => |url| < 0x1_0000 && |referer| < 0x1_0000
    case ScreenInfo(sizes) => |sizes| == 10 && forall k | 0 <= k < 10 :: IsI32(sizes[k])
    case TestUtils(found) => IsI32(found)
    case MouseMove(target, x, y, time) => |target| < 256 && IsU16(x) && IsU16(y) && IsI32(time)
    case MouseDown(target, x, y, which, attrs, time, rect) =>
      |target| < 256 && IsU16(x) && IsU16(y) && IsByte(which) && |attrs| < 256 && IsI32(time) &&
      (rect.Some? ==> var r := rect.value;
         IsU16(r.left) && IsU16(r.top) && IsU16(r.width) && IsU16(r.height))
    case Focus(target, time) => |target| < 256 && IsI32(time)
    case KeyDown(target, key, ctrl, time, _) => |target| < 256 && IsByte(key) && IsByte(ctrl) && IsI32(time)
    case Other(magic, _) => IsU16(magic) && !Known(magic)
  }

  function U8(v: int): seq<byte> { [v % 256] }

  function Words32(vs: seq<int>): (s: seq<byte>)
    ensures |s| == 4 * |vs|
  {
    if vs == [] then [] else Be32(vs[0]) + Words32(vs[1..])
  }

  function RectBytes(rect: Option<Rect>): seq<byte> {
    match rect
    case None => U8(0)
    case Some(r) => U8(1) + (Be16(r.left) + (Be16(r.top) + (Be16(r.width) + Be16(r.height))))
  }

  /** What the builder of an item writes after the magic number. */
  function Payload(item: Item): seq<byte> {
    match item
    case Init(flags) => Be32(flags)
    case ToolBar(flags, key) => Be16(flags) + Be32(key)
    case Time(ms) => Be64(ms)
    case Browser(browser, os, version) => U8(browser) + (Be16(0) + (U8(os) + version))
    case PageToken(token) => U8(|token|) + token
    case Verify(func, position, excerpt) => U8(func) + (Be16(position) + (Be16(|excerpt|) + excerpt))
    case PcMac(count) => U8(count)
    case Location(url, referer) => Be16(|url|) + (Be16(|referer|) + (url + referer))
    case ScreenInfo(sizes) => Words32(sizes)
    case TestUtils(found) => Be32(found)
    case MouseMove(target, x, y, time) => U8(|target|) + (Be16(x) + (Be16(y) + (Be32(time) + target)))
    case MouseDown(target, x, y, which, attrs, time, rect) =>
      U8(|target|) + (Be16(x) + (Be16(y) + (U8(which) + (U8(|attrs|) + (Be32(time) +
        (RectBytes(rect) + (target + attrs)))))))
    case Focus(target, time) => Be32(time) + (U8(|target|) + target)
    case KeyDown(target, key, ctrl, time, kind) =>
      U8(|target|) + (U8(key) + (U8(ctrl) + (Be32(time) + (target + kind))))
    case Other(_, raw) => raw
  }

  /** What a builder hands to the packet: magic number and payload. */
  function Data(item: Item): (d: seq<byte>)
    ensures |d| == |Payload(item)| + 2
  {
    Be16(Magic(item)) + Payload(item)
  }

  // ---- Decoders ----------------------------------------------------------------------

  function ReadWords32(d: seq<byte>, n: nat): (vs: seq<int>)
    requires 4 * n <= |d|
    ensures |vs| == n
  {
    if n == 0 then [] else [I32(d, 0)] + ReadWords32(d[4..], n - 1)
  }

  function DecodeMouseDown(d: seq<byte>): Option<Item> {
    if |d| < 12 then None else
      var n: nat, m: nat := d[0], d[6];
      if d[11] == 0 then
        if |d| - 12 < n + m then None
        else Some(MouseDown(d[12..12 + n], U16(d, 1), U16(d, 3), d[5], d[12 + n..12 + n + m], I32(d, 7), None))
      else if |d| < 20 || |d| - 20 < n + m then None
      else Some(MouseDown(d[20..20 + n], U16(d, 1), U16(d, 3), d[5], d[20 + n..20 + n + m], I32(d, 7),
                          Some(Rect(U16(d, 12), U16(d, 14), U16(d, 16), U16(d, 18)))))
  }

  /** passport_print_dvitem: the fields an item decoder reads, or None for its error. */
  function DecodeItem(magic: nat, d: seq<byte>): Option<Item> {
    match magic
    case 0x102 => if |d| < 6 then None else Some(ToolBar(d[1], I32(d, 2)))
    case 0x402 => if |d| < 4 then None else Some(Browser(d[0], d[3], d[4..]))
    case 0x502 => if |d| < 4 then None else Some(Init(I32(d, 0)))
    case 0x602 => if |d| < 40 then None else Some(ScreenInfo(ReadWords32(d, 10)))
    case 0x702 => if |d| < 4 then None else Some(TestUtils(I32(d, 0)))
    case 0x802 =>
      if |d| < 9 || |d| - 9 < d[0] then None else Some(MouseMove(d[9..9 + d[0]], U16(d, 1), U16(d, 3), I32(d, 5)))
    case 0x902 => DecodeMouseDown(d)
    case 0xc02 =>
      if |d| < 7 || |d| - 7 < d[0] then None
      else Some(KeyDown(d[7..7 + d[0]], d[1], d[2], I32(d, 3), d[7 + d[0]..]))
    case 0xd02 => if |d| < 5 || |d| - 5 < d[4] then None else Some(Focus(d[5..5 + d[4]], I32(d, 0)))
    case 0x1002 => if |d| < 1 then None else Some(PcMac(d[0]))
    case 0x1302 =>
      if |d| < 4 || |d| - 4 < U16(d, 0) + U16(d, 2) then None
      else Some(Location(d[4..4 + U16(d, 0)], d[4 + U16(d, 0)..4 + U16(d, 0) + U16(d, 2)]))
    case 0x1502 => if |d| < 8 then None else Some(Time(I64(d, 0)))
    case 0x1602 => if |d| < 1 || |d| - 1 < d[0] then None else Some(PageToken(d[1..1 + d[0]]))
    case 0x1702 =>
      if |d| < 5 || |d| - 5 < U16(d, 3) then None else Some(Verify(d[0], U16(d, 1), d[5..5 + U16(d, 3)]))
    case _ => Some(Other(magic, d))
  }

  // ---- Round trip --------------------------------------------------------------------

  /** `d` continues with `p` at `i`. */
  predicate HasAt(d: seq<byte>, i: nat, p: seq<byte>) { i <= |d| && d[i..] == p }

  lemma Next(d: seq<byte>, i: nat, a: seq<byte>, b: seq<byte>)
    requires HasAt(d, i, a + b)
    ensures i + |a| <= |d| && d[i..i + |a|] == a && HasAt(d, i + |a|, b)
  {
    assert d[i..][..|a|] == a && d[i..][|a|..] == b;
    assert d[i..i + |a|] == d[i..][..|a|] && d[i + |a|..] == d[i..][|a|..];
  }

  lemma Next8(d: seq<byte>, i: nat, v: int, b: seq<byte>)
    requires HasAt(d, i, U8(v) + b) && IsByte(v)
    ensures i < |d| && d[i] == v && HasAt(d, i + 1, b)
  {
    Next(d, i, U8(v), b);
    assert d[i] == d[i..i + 1][0];
  }

  lemma Next16(d: seq<byte>, i: nat, v: int, b: seq<byte>)
    requires HasAt(d, i, Be16(v) + b) && IsU16(v)
    ensures i + 2 <= |d| && U16(d, i) == v && HasAt(d, i + 2, b)
  {
    Next(d, i, Be16(v), b);
    Read16(d, i, v);
  }

  lemma Next32(d: seq<byte>, i: nat, v: int, b: seq<byte>)
    requires HasAt(d, i, Be32(v) + b) && IsI32(v)
    ensures i + 4 <= |d| && I32(d, i) == v && HasAt(d, i + 4, b)
  {
    Next(d, i, Be32(v), b);
    Read32(d, i, v);
  }

  lemma Whole(d: seq<byte>)
    ensures HasAt(d, 0, d) && d + [] == d
  {
    assert d[0..] == d;
  }

  lemma {:induction false} WordsRoundTrip(vs: seq<int>)
    requires forall k | 0 <= k < |vs| :: IsI32(vs[k])
    ensures ReadWords32(Words32(vs), |vs|) == vs
  {
    if vs != [] {
      var d := Words32(vs);
      Whole(d);
      Next32(d, 0, vs[0], Words32(vs[1..]));
      WordsRoundTrip(vs[1..]);
      assert d[4..] == Words32(vs[1..]);
    }
  }

  lemma MouseMoveRoundTrip(item: Item)
    requires item.MouseMove? && InRange(item)
    ensures DecodeItem(0x802, Payload(item)) == Some(item)
  {
    hide U8, Be16, Be32, HasAt, U16, I32;
    var d := Payload(item);
    Whole(d);
    var t := item.target;
    Next8(d, 0, |t|, Be16(item.x) + (Be16(item.y) + (Be32(item.time) + t)));
    Next16(d, 1, item.x, Be16(item.y) + (Be32(item.time) + t));
    Next16(d, 3, item.y, Be32(item.time) + t);
    Next32(d, 5, item.time, t);
    Last(d, 9, t);
  }

  lemma Last(d: seq<byte>, i: nat, t: seq<byte>)
    requires HasAt(d, i, t)
    ensures |d| == i + |t| && d[i..i + |t|] == t && d[i..] == t
  {
    assert d[i..i + |t|] == d[i..];
  }

  lemma LastTwo(d: seq<byte>, i: nat, a: seq<byte>, b: seq<byte>)
    requires HasAt(d, i, a + b)
    ensures |d| == i + |a| + |b| && d[i..i + |a|] == a && d[i + |a|..i + |a| + |b|] == b && d[i + |a|..] == b
  {
    Next(d, i, a, b);
    Last(d, i + |a|, b);
  }

  lemma MouseDownRoundTrip(item: Item)
    requires item.MouseDown? && InRange(item)
    ensures DecodeMouseDown(Payload(item)) == Some(item)
  {
    hide U8, Be16, Be32, HasAt, U16, I32, RectBytes;
    var d := Payload(item);
    Whole(d);
    var t, a := item.target, item.attrs;
    var r := RectBytes(item.rect) + (t + a);
    Next8(d, 0, |t|, Be16(item.x) + (Be16(item.y) + (U8(item.which) + (U8(|a|) + (Be32(item.time) + r)))));
    Next16(d, 1, item.x, Be16(item.y) + (U8(item.which) + (U8(|a|) + (Be32(item.time) + r))));
    Next16(d, 3, item.y, U8(item.which) + (U8(|a|) + (Be32(item.time) + r)));
    Next8(d, 5, item.which, U8(|a|) + (Be32(item.time) + r));
    Next8(d, 6, |a|, Be32(item.time) + r);
    Next32(d, 7, item.time, r);
    RectRoundTrip(d, item.rect, t + a);
    LastTwo(d, if item.rect.None? then 12 else 20, t, a);
  }

  lemma RectRoundTrip(d: seq<byte>, rect: Option<Rect>, b: seq<byte>)
    requires HasAt(d, 11, RectBytes(rect) + b)
    requires rect.Some? ==> var r := rect.value;
               IsU16(r.left) && IsU16(r.top) && IsU16(r.width) && IsU16(r.height)
    ensures 11 < |d| && (d[11] == 0 <==> rect.None?)
    ensures rect.None? ==> HasAt(d, 12, b)
    ensures rect.Some? ==> 20 <= |d| && rect.value == Rect(U16(d, 12), U16(d, 14), U16(d, 16), U16(d, 18)) &&
                           HasAt(d, 20, b)
  {
    match rect
    case None => Next8(d, 11, 0, b);
    case Some(r) =>
      var w := Be16(r.height) + b;
      assert RectBytes(rect) + b == U8(1) + (Be16(r.left) + (Be16(r.top) + (Be16(r.width) + w)));
      hide U8, Be16, HasAt, U16, RectBytes;
      Next8(d, 11, 1, Be16(r.left) + (Be16(r.top) + (Be16(r.width) + w)));
      Next16(d, 12, r.left, Be16(r.top) + (Be16(r.width) + w));
      Next16(d, 14, r.top, Be16(r.width) + w);
      Next16(d, 16, r.width, w);
      Next16(d, 18, r.height, b);
  }

  lemma KeyDownRoundTrip(item: Item)
    requires item.KeyDown? && InRange(item)
    ensures DecodeItem(0xc02, Payload(item)) == Some(item)
  {
    hide U8, Be32, HasAt, I32;
    var d := Payload(item);
    Whole(d);
    var r := item.target + item.kind;
    Next8(d, 0, |item.target|, U8(item.key) + (U8(item.ctrl) + (Be32(item.time) + r)));
    Next8(d, 1, item.key, U8(item.ctrl) + (Be32(item.time) + r));
    Next8(d, 2, item.ctrl, Be32(item.time) + r);
    Next32(d, 3, item.time, r);
    LastTwo(d, 7, item.target, item.kind);
  }

  lemma LocationRoundTrip(item: Item)
    requires item.Location? && InRange(item)
    ensures DecodeItem(0x1302, Payload(item)) == Some(item)
  {
    var d := Be16(|item.url|) + (Be16(|item.referer|) + (item.url + item.referer));
    assert Payload(item) == d;
    hide Be16, HasAt, U16, Payload;
    Whole(d);
    Next16(d, 0, |item.url|, Be16(|item.referer|) + (item.url + item.referer));
    Next16(d, 2, |item.referer|, item.url + item.referer);
    LastTwo(d, 4, item.url, item.referer);
  }

  lemma VerifyRoundTrip(item: Item)
    requires item.Verify? && InRange(item)
    ensures DecodeItem(0x1702, Payload(item)) == Some(item)
  {
    hide U8, Be16, HasAt, U16;
    var d := Payload(item);
    Whole(d);
    Next8(d, 0, item.func, Be16(item.position) + (Be16(|item.excerpt|) + item.excerpt));
    Next16(d, 1, item.position, Be16(|item.excerpt|) + item.excerpt);
    Next16(d, 3, |item.excerpt|, item.excerpt);
    Last(d, 5, item.excerpt);
  }

  lemma BrowserRoundTrip(item: Item)
    requires item.Browser? && InRange(item)
    ensures DecodeItem(0x402, Payload(item)) == Some(item)
  {
    hide U8, Be16, HasAt, U16;
    var d := Payload(item);
    Whole(d);
    Next8(d, 0, item.browser, Be16(0) + (U8(item.os) + item.version));
    Next16(d, 1, 0, U8(item.os) + item.version);
    Next8(d, 3, item.os, item.version);
    Last(d, 4, item.version);
  }

  lemma SmallRoundTrip(item: Item)
    requires InRange(item) && (item.Init? || item.TestUtils? || item.PcMac? || item.PageToken? || item.Focus?)
    ensures DecodeItem(Magic(item), Payload(item)) == Some(item)
  {
    hide Be32, HasAt, I32, Be16, U16;
    var d := Payload(item);
    Whole(d);
    match item
    case Init(flags) => Next32(d, 0, flags, []);
    case TestUtils(found) => Next32(d, 0, found, []);
    case PcMac(count) => Next8(d, 0, count, []);
    case PageToken(token) =>
      Next8(d, 0, |token|, token);
      Last(d, 1, token);
    case Focus(target, time) =>
      Next32(d, 0, time, U8(|target|) + target);
      Next8(d, 4, |target|, target);
      Last(d, 5, target);
  }

  lemma ToolBarRoundTrip(item: Item)
    requires item.ToolBar? && InRange(item)
    ensures DecodeItem(0x102, Payload(item)) == Some(item)
  {
    var d := Payload(item);
    Whole(d);
    Next(d, 0, Be16(item.flags), Be32(item.key));
    assert d[1] == d[0..2][1];
    assert Be32(item.key) + [] == Be32(item.key);
    Next32(d, 2, item.key, []);
  }

  lemma TimeRoundTrip(item: Item)
    requires item.Time? && InRange(item)
    ensures DecodeItem(0x1502, Payload(item)) == Some(item)
  {
    var d := Payload(item);
    assert d[0..8] == d == Be64(item.ms);
    Read64(d, 0, item.ms);
  }

  /** Every item decoder undoes its builder. */
  lemma ItemRoundTrip(item: Item)
    requires InRange(item)
    ensures DecodeItem(Magic(item), Payload(item)) == Some(item)
  {
    match item
    case Init(_) => SmallRoundTrip(item);
    case TestUtils(_) => SmallRoundTrip(item);
    case PcMac(_) => SmallRoundTrip(item);
    case PageToken(_) => SmallRoundTrip(item);
    case Focus(_, _) => SmallRoundTrip(item);
    case ToolBar(_, _) => ToolBarRoundTrip(item);
    case Time(_) => TimeRoundTrip(item);
    case Browser(_, _, _) => BrowserRoundTrip(item);
    case Verify(_, _, _) => VerifyRoundTrip(item);
    case Location(_, _) => LocationRoundTrip(item);
    case ScreenInfo(sizes) => WordsRoundTrip(sizes);
    case MouseMove(_, _, _, _) => MouseMoveRoundTrip(item);
    case MouseDown(_, _, _, _, _, _, _) => MouseDownRoundTrip(item);
    case KeyDown(_, _, _, _, _) => KeyDownRoundTrip(item);
    case Other(_, _) =>
  }
}
