/** JSON trees, the text cJSON prints for them and the tree it reads from a text (pcs/cJSON.c). */
module JsonText {
  import opened Wrappers
  import opened Utf8Char

  /** A number is kept as mantissa and decimal exponent: m * 10^e. */
  datatype Json =
    | Null | False | True
    | Num(m: int, e: int)
    | Str(s: seq<text>)
    | Arr(items: seq<Json>)
    | Obj(members: seq<Member>)

  datatype Member = Member(name: seq<text>, value: Json)

  predicate IsInt32(n: int) { -0x8000_0000 <= n <= 0x7FFF_FFFF }

  /** Trees with 32-bit integers and C strings, at any depth. */
  predicate Printable(j: Json) {
    match j
    case Num(m, e) => e == 0 && IsInt32(m)
    case Str(s) => CString(s)
    case Arr(items) => forall x | x in items :: Printable(x)
    case Obj(members) => forall x | x in members :: CString(x.name) && Printable(x.value)
    case _ => true
  }

  // ---- Printing ----------------------------------------------------------------------

  function Digit(d: nat): text
    requires d < 16
  {
    if d < 10 then (48 + d) as char else (87 + d) as char
  }

  function Decimal(n: nat): (t: seq<text>)
    ensures |t| >= 1
  {
    if n < 10 then [Digit(n)] else Decimal(n / 10) + [Digit(n % 10)]
  }

  function PrintNum(n: int): seq<text> {
    if n < 0 then ['-'] + Decimal(-n) else Decimal(n)
  }

  predicate Plain(c: text) { c > 31 as char && c != '"' && c != '\\' }

  function Escape(c: text): (t: seq<text>)
    ensures 1 <= |t| <= 6
  {
    if Plain(c) then [c]
    else if c == '\\' then ['\\', '\\']
    else if c == '"' then ['\\', '"']
    else if c == 8 as char then ['\\', 'b']
    else if c == 12 as char then ['\\', 'f']
    else if c == '\n' then ['\\', 'n']
    else if c == '\r' then ['\\', 'r']
    else if c == '\t' then ['\\', 't']
    else ['\\', 'u', '0', '0', Digit(c as int / 16), Digit(c as int % 16)]
  }

  function EscapeAll(s: seq<text>): seq<text> {
    if s == [] then [] else Escape(s[0]) + EscapeAll(s[1..])
  }

  function PrintStr(s: seq<text>): seq<text> {
    ['"'] + (EscapeAll(s) + ['"'])
  }

  function Tabs(n: nat): seq<text> { seq(n, _ => '\t') }

  function When(b: bool, t: seq<text>): seq<text> { if b then t else [] }

  function Separator(fmt: bool): seq<text> { [','] + When(fmt, [' ']) }

  function PrintValue(j: Json, depth: nat, fmt: bool): seq<text>
    decreases j, 1
  {
    match j
    case Null => "null"
    case False => "false"
    case True => "true"
    case Num(m, _) => PrintNum(m)
    case Str(s) => PrintStr(s)
    case Arr(items) => ['['] + (PrintItems(items, depth + 1, fmt) + [']'])
    case Obj(members) =>
      if members == [] then
        ['{'] + (When(fmt, ['\n'] + Tabs(if depth == 0 then 0 else depth - 1)) + ['}'])
      else
        ['{'] + (When(fmt, ['\n']) + (PrintMembers(members, depth + 1, fmt) + (When(fmt, Tabs(depth)) + ['}'])))
  }

  function PrintItems(items: seq<Json>, depth: nat, fmt: bool): seq<text>
    decreases items, 0
  {
    if items == [] then []
    else if |items| == 1 then PrintValue(items[0], depth, fmt)
    else PrintValue(items[0], depth, fmt) + (Separator(fmt) + PrintItems(items[1..], depth, fmt))
  }

  function PrintMembers(members: seq<Member>, depth: nat, fmt: bool): seq<text>
    decreases members, 0
  {
    if members == [] then [] else
      When(fmt, Tabs(depth)) + (PrintStr(members[0].name) + ([':'] + (When(fmt, ['\t']) +
        (PrintValue(members[0].value, depth, fmt) +
          (When(|members| > 1, [',']) + (When(fmt, ['\n']) + PrintMembers(members[1..], depth, fmt)))))))
  }

  // ---- Reading -----------------------------------------------------------------------

  /** The outcome of reading at a position: a value and the position after it, a syntax error, or
      a read past the end of the text, which C leaves undefined. */
  datatype Parsed<+T> = Parsed(value: T, next: nat) | Bad | Overrun

  function SkipSpace(s: seq<text>, i: nat): (k: nat)
    requires i <= |s|
    ensures i <= k <= |s|
    decreases |s| - i
  {
    if i < |s| && s[i] != '\0' && s[i] <= 32 as char then SkipSpace(s, i + 1) else i
  }

  /** The end of a block comment whose body starts at `i`: after the closing mark, if there is one. */
  function BlockEnd(s: seq<text>, i: nat): (k: nat)
    requires i <= |s|
    ensures i <= k <= |s|
    decreases |s| - i
  {
    if i == |s| then i
    else if s[i] == '*' && At(s, i + 1) == '/' then i + 2
    else BlockEnd(s, i + 1)
  }

  function LineEnd(s: seq<text>, i: nat): (k: nat)
    requires i <= |s|
    ensures i <= k <= |s|
    decreases |s| - i
  {
    if i == |s| || s[i] == '\n' then i else LineEnd(s, i + 1)
  }

  function SkipComments(s: seq<text>, i: nat): (k: nat)
    requires i <= |s|
    ensures i <= k <= |s|
  {
    if At(s, i) == '/' && At(s, i + 1) == '*' then BlockEnd(s, i + 2)
    else if At(s, i) == '/' && At(s, i + 1) == '/' then
      var e := LineEnd(s, i + 2);
      if e < |s| then e + 1 else e
    else i
  }

  function Skip(s: seq<text>, i: nat): (k: nat)
    requires i <= |s|
    ensures i <= k <= |s|
    decreases |s| - i
  {
    var k := SkipComments(s, SkipSpace(s, i));
    if k == i then i else Skip(s, k)
  }

  function HexValue(c: text): int {
    if '0' <= c <= '9' then c as int - 48
    else if 'A' <= c <= 'F' then c as int - 55
    else if 'a' <= c <= 'f' then c as int - 87
    else -1
  }

  /** parse_hex4: four hexadecimal digits, or 0 when one of them is not. */
  function Hex4(s: seq<text>, i: nat): (h: nat)
    ensures h < 0x10000
  {
    var a, b, c, d := HexValue(At(s, i)), HexValue(At(s, i + 1)), HexValue(At(s, i + 2)), HexValue(At(s, i + 3));
    if a < 0 || b < 0 || c < 0 || d < 0 then 0 else ((a * 16 + b) * 16 + c) * 16 + d
  }

  function AsText(bs: seq<byte>): (t: seq<text>)
    ensures |t| == |bs|
  {
    seq(|bs|, i requires 0 <= i < |bs| => bs[i] as char)
  }

  /** The bytes of a \u escape whose `u` is at `i`, and the position of its last character. */
  function UnicodeEscape(s: seq<text>, i: nat): (seq<text>, nat) {
    var uc := Hex4(s, i + 1);
    if 0xDC00 <= uc <= 0xDFFF || uc == 0 then ([], i + 4)
    else if 0xD800 <= uc <= 0xDBFF then
      if At(s, i + 5) != '\\' || At(s, i + 6) != 'u' then ([], i + 4)
      else
        var uc2 := Hex4(s, i + 7);
        if uc2 < 0xDC00 || uc2 > 0xDFFF then ([], i + 10)
        else (AsText(EncodeChar(0x10000 + uc % 1024 * 1024 + uc2 % 1024)), i + 10)
    else (AsText(EncodeChar(uc)), i + 4)
  }

  /** The bytes of the escape whose backslash precedes `i`, and the position of its last character. */
  function Unescape(s: seq<text>, i: nat): (seq<text>, nat) {
    var c := At(s, i);
    if c == 'b' then ([8 as char], i)
    else if c == 'f' then ([12 as char], i)
    else if c == 'n' then (['\n'], i)
    else if c == 'r' then (['\r'], i)
    else if c == 't' then (['\t'], i)
    else if c == 'u' then UnicodeEscape(s, i)
    else ([c], i)
  }

  function Prepend<T>(xs: seq<T>, r: Parsed<seq<T>>): Parsed<seq<T>> {
    match r
    case Parsed(ys, next) => Parsed(xs + ys, next)
    case _ => r
  }

  /** The rest of a string literal from `i`; `q` is the quote that opened it. */
  function ParseChars(s: seq<text>, i: nat, q: text): (r: Parsed<seq<text>>)
    requires i <= |s|
    ensures r.Parsed? ==> i <= r.next <= |s|
    decreases |s| - i
  {
    if i == |s| || s[i] == '\0' then Parsed([], i)
    else if s[i] == q then Parsed([], i + 1)
    else if s[i] != '\\' then Prepend([s[i]], ParseChars(s, i + 1, q))
    else
      var (bs, last) := Unescape(s, i + 1);
      if last < |s| then Prepend(bs, ParseChars(s, last + 1, q)) else Overrun
  }

  /** The first pass over the rest of a string literal: the bytes it counts, an escape as one, and
      where it stops. It skips the byte after a backslash unseen, the terminator included. */
  function Measure(s: seq<text>, i: nat, q: text): (r: Parsed<nat>)
    requires i <= |s|
    ensures r.Parsed? ==> i <= r.next <= |s|
    decreases |s| - i
  {
    if i == |s| || s[i] == '\0' || s[i] == q then Parsed(0, i)
    else if s[i] == '\\' && i + 1 == |s| then Overrun
    else
      match Measure(s, if s[i] == '\\' then i + 2 else i + 1, q)
      case Parsed(n, end) => Parsed(n + 1, end)
      case _ => Overrun
  }

  function ParseStr(s: seq<text>, i: nat): (r: Parsed<seq<text>>)
    requires i <= |s|
    ensures r.Parsed? ==> i < r.next <= |s|
  {
    if At(s, i) != '"' && At(s, i) != '\'' then Bad
    else if !Measure(s, i + 1, s[i]).Parsed? then Overrun
    else ParseChars(s, i + 1, s[i])
  }

  /** Continue the number `n` with the digits at `i`. */
  function ReadDigits(s: seq<text>, i: nat, n: nat): (r: (nat, nat))
    requires i <= |s|
    ensures i <= r.1 <= |s|
    decreases |s| - i
  {
    if i < |s| && IsDigit(s[i]) then ReadDigits(s, i + 1, n * 10 + (s[i] as int - 48)) else (n, i)
  }

  /** Integer part: an optional zero, then digits that start with 1 to 9. */
  function ReadWhole(s: seq<text>, i: nat): (r: (nat, nat))
    requires i <= |s|
    ensures i <= r.1 <= |s|
    ensures i < |s| && IsDigit(s[i]) ==> i < r.1
  {
    var k := if At(s, i) == '0' then i + 1 else i;
    if '1' <= At(s, k) <= '9' then ReadDigits(s, k + 1, s[k] as int - 48) else (0, k)
  }

  /** Exponent part: value and position after it. */
  function ReadExponent(s: seq<text>, i: nat): (r: (int, nat))
    requires i <= |s|
    ensures i <= r.1 <= |s|
  {
    if At(s, i) != 'e' && At(s, i) != 'E' then (0, i)
    else
      var k := if At(s, i + 1) == '+' || At(s, i + 1) == '-' then i + 2 else i + 1;
      var (v, next) := ReadDigits(s, k, 0);
      (if At(s, i + 1) == '-' then 0 - v else v, next)
  }

  function ParseNum(s: seq<text>, i: nat): (r: Parsed<Json>)
    requires i < |s| && (s[i] == '-' || IsDigit(s[i]))
    ensures r.Parsed? && i < r.next <= |s|
  {
    var start := if s[i] == '-' then i + 1 else i;
    var (whole, k) := ReadWhole(s, start);
    var (digits, next) := if At(s, k) == '.' && IsDigit(At(s, k + 1)) then ReadDigits(s, k + 1, whole) else (whole, k);
    var scale := if next == k then 0 else -(next - k - 1);
    var (exponent, end) := ReadExponent(s, next);
    var m: int := digits;
    Parsed(Num(if s[i] == '-' then -m else m, scale + exponent), end)
  }

  predicate Occurs(s: seq<text>, i: nat, t: seq<text>) {
    i + |t| <= |s| && forall k | 0 <= k < |t| :: s[i + k] == t[k]
  }

  function ParseValue(s: seq<text>, i: nat): (r: Parsed<Json>)
    requires i <= |s|
    ensures r.Parsed? ==> i < r.next <= |s|
    decreases |s| - i, 2
  {
    if Occurs(s, i, "null") then Parsed(Null, i + 4)
    else if Occurs(s, i, "false") then Parsed(False, i + 5)
    else if Occurs(s, i, "true") then Parsed(True, i + 4)
    else if At(s, i) == '"' || At(s, i) == '\'' then
      match ParseStr(s, i)
      case Parsed(t, next) => Parsed(Str(t), next)
      case Bad => Bad
      case Overrun => Overrun
    else if At(s, i) == '-' || IsDigit(At(s, i)) then ParseNum(s, i)
    else if At(s, i) == '[' then ParseArray(s, i)
    else if At(s, i) == '{' then ParseObject(s, i)
    else Bad
  }

  function ParseArray(s: seq<text>, i: nat): (r: Parsed<Json>)
    requires i < |s| && s[i] == '['
    ensures r.Parsed? ==> i < r.next <= |s|
    decreases |s| - i, 1
  {
    var v := Skip(s, i + 1);
    if At(s, v) == ']' then Parsed(Arr([]), v + 1)
    else
      match ParseItems(s, v)
      case Parsed(items, next) => Parsed(Arr(items), next)
      case Bad => Bad
      case Overrun => Overrun
  }

  /** The remaining elements of an array, the first of them at or after `v`, and the closing bracket. */
  function ParseItems(s: seq<text>, v: nat): (r: Parsed<seq<Json>>)
    requires v <= |s|
    ensures r.Parsed? ==> v < r.next <= |s|
    decreases |s| - v, 3
  {
    match ParseValue(s, Skip(s, v))
    case Bad => Bad
    case Overrun => Overrun
    case Parsed(x, next) =>
      var w := Skip(s, next);
      if At(s, w) == ',' then Prepend([x], ParseItems(s, w + 1))
      else if At(s, w) == ']' then Parsed([x], w + 1)
      else Bad
  }

  function ParseObject(s: seq<text>, i: nat): (r: Parsed<Json>)
    requires i < |s| && s[i] == '{'
    ensures r.Parsed? ==> i < r.next <= |s|
    decreases |s| - i, 1
  {
    var v := Skip(s, i + 1);
    if At(s, v) == '}' then Parsed(Obj([]), v + 1)
    else
      match ParseMembers(s, v)
      case Parsed(members, next) => Parsed(Obj(members), next)
      case Bad => Bad
      case Overrun => Overrun
  }

  /** One `name : value` pair, the name at or after `v`. */
  function ParseMember(s: seq<text>, v: nat): (r: Parsed<Member>)
    requires v <= |s|
    ensures r.Parsed? ==> v < r.next <= |s|
    decreases |s| - v, 3
  {
    match ParseStr(s, Skip(s, v))
    case Bad => Bad
    case Overrun => Overrun
    case Parsed(name, next) =>
      var w := Skip(s, next);
      if At(s, w) != ':' then Bad
      else
        match ParseValue(s, Skip(s, w + 1))
        case Bad => Bad
        case Overrun => Overrun
        case Parsed(x, next) => Parsed(Member(name, x), next)
  }

  function ParseMembers(s: seq<text>, v: nat): (r: Parsed<seq<Member>>)
    requires v <= |s|
    ensures r.Parsed? ==> v < r.next <= |s|
    decreases |s| - v, 4
  {
    match ParseMember(s, v)
    case Bad => Bad
    case Overrun => Overrun
    case Parsed(m, next) =>
      var w := Skip(s, next);
      if At(s, w) == ',' then Prepend([m], ParseMembers(s, w + 1))
      else if At(s, w) == '}' then Parsed([m], w + 1)
      else Bad
  }

  /** cJSON_Parse. */
  function Parse(s: seq<text>): Parsed<Json> {
    ParseValue(s, Skip(s, 0))
  }
}
