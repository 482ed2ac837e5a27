/** The parsing routines of pcs/cJSON.c as they run: a position that moves over the text, and loops
    for whitespace, digits, string bytes, array elements and object members. */
module JsonParser {
  import opened Wrappers
  import opened Utf8Char
  import opened JsonText
  import opened JsonBuffer

  lemma PrependTwice<T>(a: seq<T>, b: seq<T>, r: Parsed<seq<T>>)
    ensures Prepend(a, Prepend(b, r)) == Prepend(a + b, r)
  {
    if r.Parsed? {
      assert a + (b + r.value) == (a + b) + r.value;
    }
  }

  method SkipSpaces(s: seq<text>, i: nat) returns (k: nat)
    requires i <= |s|
    ensures k == SkipSpace(s, i)
  {
    k := i;
    while k < |s| && s[k] != '\0' && s[k] <= 32 as char
      invariant i <= k <= |s| && SkipSpace(s, i) == SkipSpace(s, k)
    {
      k := k + 1;
    }
  }

  method SkipComment(s: seq<text>, i: nat) returns (k: nat)
    requires i <= |s|
    ensures k == SkipComments(s, i)
  {
    k := i;
    if At(s, k) == '/' && At(s, k + 1) == '*' {
      k := k + 2;
      while k < |s| && !(s[k] == '*' && At(s, k + 1) == '/')
        invariant i + 2 <= k <= |s| && BlockEnd(s, i + 2) == BlockEnd(s, k)
      {
        k := k + 1;
      }
      if k < |s| {
        k := k + 2;
      }
    } else if At(s, k) == '/' && At(s, k + 1) == '/' {
      k := k + 2;
      while k < |s| && s[k] != '\n'
        invariant i + 2 <= k <= |s| && LineEnd(s, i + 2) == LineEnd(s, k)
      {
        k := k + 1;
      }
      if k < |s| {
        k := k + 1;
      }
    }
  }

  method SkipAll(s: seq<text>, i: nat) returns (k: nat)
    requires i <= |s|
    ensures k == Skip(s, i)
  {
    k := i;
    while true
      invariant i <= k <= |s| && Skip(s, i) == Skip(s, k)
      decreases |s| - k
    {
      var ptr := k;
      k := SkipSpaces(s, k);
      k := SkipComment(s, k);
      if k == ptr {
        break;
      }
    }
  }

  lemma PlainStep(s: seq<text>, i: nat, p: nat, q: text, out: seq<text>)
    requires i <= p < |s| && s[p] != '\0' && s[p] != q && s[p] != '\\'
    requires ParseChars(s, i, q) == Prepend(out, ParseChars(s, p, q))
    ensures ParseChars(s, i, q) == Prepend(out + [s[p]], ParseChars(s, p + 1, q))
  {
    assert ParseChars(s, p, q) == Prepend([s[p]], ParseChars(s, p + 1, q));
    hide ParseChars;
    PrependTwice(out, [s[p]], ParseChars(s, p + 1, q));
  }

  lemma EscapeStep(s: seq<text>, i: nat, p: nat, q: text, out: seq<text>)
    requires i <= p < |s| && q != '\\' && s[p] == '\\'
    requires ParseChars(s, i, q) == Prepend(out, ParseChars(s, p, q))
    ensures var (bs, last) := Unescape(s, p + 1);
            ParseChars(s, i, q) == if last < |s| then Prepend(out + bs, ParseChars(s, last + 1, q)) else Overrun
  {
    hide Unescape;
    var (bs, last) := Unescape(s, p + 1);
    if last < |s| {
      assert ParseChars(s, p, q) == Prepend(bs, ParseChars(s, last + 1, q));
      hide ParseChars;
      PrependTwice(out, bs, ParseChars(s, last + 1, q));
    }
  }

  lemma EndStep(s: seq<text>, i: nat, p: nat, q: text, out: seq<text>)
    requires i <= p <= |s| && ParseChars(s, i, q) == Prepend(out, ParseChars(s, p, q))
    requires p == |s| || s[p] == '\0' || s[p] == q
    ensures ParseChars(s, i, q) == Parsed(out, if p < |s| && s[p] != '\0' then p + 1 else p)
  {
    assert out + [] == out;
  }

  /** The loop that measures a string literal. */
  method MeasureString(s: seq<text>, i: nat, sp: text) returns (r: Parsed<nat>)
    requires i <= |s|
    ensures r == Measure(s, i, sp)
  {
    var ptr, len := i, 0;
    while ptr < |s| && s[ptr] != sp && s[ptr] != '\0'
      invariant i <= ptr <= |s|
      invariant Measure(s, i, sp) ==
                match Measure(s, ptr, sp)
                case Parsed(n, end) => Parsed(len + n, end)
                case _ => Overrun
      decreases |s| - ptr
    {
      len := len + 1;
      ptr := ptr + 1;
      if s[ptr - 1] == '\\' {
        if ptr == |s| {
          return Overrun;
        }
        ptr := ptr + 1;
      }
    }
    r := Parsed(len, ptr);
  }

  /** The loop that fills the buffer. */
  method FillString(s: seq<text>, i: nat, sp: text) returns (r: Parsed<seq<text>>)
    requires i <= |s| && sp != '\\'
    ensures r == ParseChars(s, i, sp)
  {
    hide Unescape, ParseChars;
    var p, out := i, [];
    PrependNothing(ParseChars(s, p, sp));
    while p < |s| && s[p] != '\0' && s[p] != sp
      invariant i <= p <= |s| && ParseChars(s, i, sp) == Prepend(out, ParseChars(s, p, sp))
      decreases |s| - p
    {
      if s[p] != '\\' {
        PlainStep(s, i, p, sp, out);
        out, p := out + [s[p]], p + 1;
      } else {
        EscapeStep(s, i, p, sp, out);
        var (bs, last) := Unescape(s, p + 1);
        if last >= |s| {
          return Overrun;
        }
        assert last >= p by { LastIsLater(s, p + 1); }
        out, p := out + bs, last + 1;
      }
    }
    EndStep(s, i, p, sp, out);
    if p < |s| && s[p] != '\0' {
      p := p + 1;
    }
    r := Parsed(out, p);
  }

  /** parse_string: `len` is what the first pass measured. The second one writes at most that many bytes
      when it reads the literal without an escape that reaches over its end. */
  method ParseString(s: seq<text>, i: nat) returns (r: Parsed<seq<text>>, len: nat)
    requires i <= |s|
    ensures r == ParseStr(s, i)
    ensures r.Parsed? ==> Measure(s, i + 1, s[i]).Parsed? && len == Measure(s, i + 1, s[i]).value
    ensures At(s, i) == '"' || At(s, i) == '\'' ==>
              var m := Measure(s, i + 1, s[i]);
              m.Parsed? && ParseChars(s[..m.next], i + 1, s[i]).Parsed? ==> r.Parsed? && |r.value| <= len
  {
    len := 0;
    if At(s, i) != '"' && At(s, i) != '\'' {
      return Bad, len;
    }
    hide Unescape, ParseChars, Measure;
    var sp := s[i];
    var measured := MeasureString(s, i + 1, sp);
    if measured.Overrun? {
      return Overrun, len;
    }
    len := measured.value;
    LiteralFits(s, i + 1, sp);
    r := FillString(s, i + 1, sp);
  }

  lemma LastIsLater(s: seq<text>, i: nat)
    ensures Unescape(s, i).1 >= i
  {
  }

  method ScanDigits(s: seq<text>, i: nat, n: nat) returns (v: nat, k: nat)
    requires i <= |s|
    ensures (v, k) == ReadDigits(s, i, n)
  {
    v, k := n, i;
    while k < |s| && IsDigit(s[k])
      invariant i <= k <= |s| && ReadDigits(s, i, n) == ReadDigits(s, k, v)
    {
      v, k := v * 10 + (s[k] as int - 48), k + 1;
    }
  }

  method ScanWhole(s: seq<text>, i: nat) returns (n: nat, k: nat)
    requires i <= |s|
    ensures (n, k) == ReadWhole(s, i)
  {
    n, k := 0, i;
    if At(s, k) == '0' {
      k := k + 1;
    }
    if '1' <= At(s, k) <= '9' {
      n, k := ScanDigits(s, k + 1, s[k] as int - 48);
    }
  }

  method ScanExponent(s: seq<text>, i: nat) returns (v: int, k: nat)
    requires i <= |s|
    ensures (v, k) == ReadExponent(s, i)
  {
    v, k := 0, i;
    if At(s, k) == 'e' || At(s, k) == 'E' {
      k := k + 1;
      var signsubscale: int := 1;
      if At(s, k) == '+' {
        k := k + 1;
      } else if At(s, k) == '-' {
        signsubscale, k := -1, k + 1;
      }
      var subscale;
      subscale, k := ScanDigits(s, k, 0);
      v := subscale * signsubscale;
    }
  }

  method ParseNumber(s: seq<text>, i: nat) returns (r: Parsed<Json>)
    requires i < |s| && (s[i] == '-' || IsDigit(s[i]))
    ensures r == ParseNum(s, i)
  {
    var negative := s[i] == '-';
    var n, num := ScanWhole(s, if negative then i + 1 else i);
    var scale: int := 0;
    if At(s, num) == '.' && IsDigit(At(s, num + 1)) {
      var first := num + 1;
      n, num := ScanDigits(s, first, n);
      scale := first as int - num as int;
    }
    var exponent;
    exponent, num := ScanExponent(s, num);
    var m: int := n;
    r := Parsed(Num(if negative then -m else m, scale + exponent), num);
  }

  method ParseJson(s: seq<text>, i: nat) returns (r: Parsed<Json>)
    requires i <= |s|
    ensures r == ParseValue(s, i)
    decreases |s| - i, 2
  {
    if Occurs(s, i, "null") {
      r := Parsed(Null, i + 4);
    } else if Occurs(s, i, "false") {
      r := Parsed(False, i + 5);
    } else if Occurs(s, i, "true") {
      r := Parsed(True, i + 4);
    } else if At(s, i) == '"' || At(s, i) == '\'' {
      var str, _ := ParseString(s, i);
      match str
      case Parsed(t, next) => r := Parsed(Str(t), next);
      case Bad => r := Bad;
      case Overrun => r := Overrun;
    } else if At(s, i) == '-' || IsDigit(At(s, i)) {
      r := ParseNumber(s, i);
    } else if At(s, i) == '[' {
      r := ParseArrayText(s, i);
    } else if At(s, i) == '{' {
      r := ParseObjectText(s, i);
    } else {
      r := Bad;
    }
  }

  lemma NoItem(s: seq<text>, v: nat)
    requires v <= |s| && !ParseValue(s, Skip(s, v)).Parsed?
    ensures ParseItems(s, v) == if ParseValue(s, Skip(s, v)).Bad? then Bad else Overrun
  {
    hide Skip, ParseValue;
  }

  lemma OneItem(s: seq<text>, v: nat)
    requires v <= |s| && ParseValue(s, Skip(s, v)).Parsed?
    ensures var x := ParseValue(s, Skip(s, v)); var w := Skip(s, x.next);
            ParseItems(s, v) == if At(s, w) == ',' then Prepend([x.value], ParseItems(s, w + 1))
                                else if At(s, w) == ']' then Parsed([x.value], w + 1) else Bad
  {
    hide Skip, ParseValue;
  }

  lemma NoMember(s: seq<text>, v: nat)
    requires v <= |s| && !ParseMember(s, v).Parsed?
    ensures ParseMembers(s, v) == if ParseMember(s, v).Bad? then Bad else Overrun
  {
    hide Skip, ParseMember;
  }

  lemma OneMember(s: seq<text>, v: nat)
    requires v <= |s| && ParseMember(s, v).Parsed?
    ensures var x := ParseMember(s, v); var w := Skip(s, x.next);
            ParseMembers(s, v) == if At(s, w) == ',' then Prepend([x.value], ParseMembers(s, w + 1))
                                  else if At(s, w) == '}' then Parsed([x.value], w + 1) else Bad
  {
    hide Skip, ParseMember;
  }

  /** The loop of parse_array: one round for every comma. */
  method ParseElements(s: seq<text>, start: nat) returns (r: Parsed<seq<Json>>)
    requires start <= |s|
    ensures r == ParseItems(s, start)
    decreases |s| - start, 3
  {
    hide Skip, ParseValue, ParseItems;
    var value := start;
    var children := [];
    PrependNothing(ParseItems(s, start));
    while true
      invariant start <= value <= |s|
      invariant ParseItems(s, start) == Prepend(children, ParseItems(s, value))
      decreases |s| - value
    {
      ghost var v := value;
      value := SkipAll(s, value);
      var item := ParseJson(s, value);
      if !item.Parsed? {
        NoItem(s, v);
        return if item.Bad? then Bad else Overrun;
      }
      OneItem(s, v);
      value := SkipAll(s, item.next);
      if At(s, value) != ',' {
        return if At(s, value) == ']' then Parsed(children + [item.value], value + 1) else Bad;
      }
      PrependTwice(children, [item.value], ParseItems(s, value + 1));
      children, value := children + [item.value], value + 1;
    }
  }

  /** parse_array. */
  method ParseArrayText(s: seq<text>, i: nat) returns (r: Parsed<Json>)
    requires i < |s| && s[i] == '['
    ensures r == ParseArray(s, i)
    decreases |s| - i, 1
  {
    var value := SkipAll(s, i + 1);
    if At(s, value) == ']' {
      return Parsed(Arr([]), value + 1);
    }
    var items := ParseElements(s, value);
    match items
    case Parsed(xs, next) => r := Parsed(Arr(xs), next);
    case Bad => r := Bad;
    case Overrun => r := Overrun;
  }

  lemma PrependNothing<T>(r: Parsed<seq<T>>)
    ensures Prepend([], r) == r
  {
    if r.Parsed? {
      assert [] + r.value == r.value;
    }
  }

  method ParsePair(s: seq<text>, v: nat) returns (r: Parsed<Member>)
    requires v <= |s|
    ensures r == ParseMember(s, v)
    decreases |s| - v, 3
  {
    var value := SkipAll(s, v);
    var name, _ := ParseString(s, value);
    if !name.Parsed? {
      return if name.Bad? then Bad else Overrun;
    }
    value := SkipAll(s, name.next);
    if At(s, value) != ':' {
      return Bad;
    }
    value := SkipAll(s, value + 1);
    var item := ParseJson(s, value);
    match item
    case Parsed(x, next) => r := Parsed(Member(name.value, x), next);
    case Bad => r := Bad;
    case Overrun => r := Overrun;
  }

  /** The loop of parse_object: one round for every comma. */
  method ParsePairs(s: seq<text>, start: nat) returns (r: Parsed<seq<Member>>)
    requires start <= |s|
    ensures r == ParseMembers(s, start)
    decreases |s| - start, 4
  {
    hide Skip, ParseMember, ParseMembers;
    var value := start;
    var children := [];
    PrependNothing(ParseMembers(s, start));
    while true
      invariant start <= value <= |s|
      invariant ParseMembers(s, start) == Prepend(children, ParseMembers(s, value))
      decreases |s| - value
    {
      ghost var v := value;
      var item := ParsePair(s, value);
      if !item.Parsed? {
        NoMember(s, v);
        return if item.Bad? then Bad else Overrun;
      }
      OneMember(s, v);
      value := SkipAll(s, item.next);
      if At(s, value) != ',' {
        return if At(s, value) == '}' then Parsed(children + [item.value], value + 1) else Bad;
      }
      PrependTwice(children, [item.value], ParseMembers(s, value + 1));
      children, value := children + [item.value], value + 1;
    }
  }

  /** parse_object. */
  method ParseObjectText(s: seq<text>, i: nat) returns (r: Parsed<Json>)
    requires i < |s| && s[i] == '{'
    ensures r == ParseObject(s, i)
    decreases |s| - i, 1
  {
    var value := SkipAll(s, i + 1);
    if At(s, value) == '}' {
      return Parsed(Obj([]), value + 1);
    }
    var members := ParsePairs(s, value);
    match members
    case Parsed(xs, next) => r := Parsed(Obj(xs), next);
    case Bad => r := Bad;
    case Overrun => r := Overrun;
  }

  /** cJSON_Parse. */
  method ParseText(s: seq<text>) returns (r: Parsed<Json>)
    ensures r == Parse(s)
  {
    var start := SkipAll(s, 0);
    r := ParseJson(s, start);
  }
}
