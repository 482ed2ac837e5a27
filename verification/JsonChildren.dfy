/** The child list of a JSON array or object: nodes linked both ways, with a pointer to the first only
    (pcs/cJSON.c). */
module JsonChildren {
  import opened Wrappers
  import opened JsonText
  import opened LinkedNodes

  type Item = Node<Member>

  /** tolower on one byte. */
  /** cJSON_strcasecmp finds no difference. */
  predicate SameName(a: seq<text>, b: seq<text>) {
    |a| == |b| && forall k | 0 <= k < |a| :: ToLower(a[k]) == ToLower(b[k])
  }

  /** Two bytes are the same letter in different cases. */
  predicate OtherCase(x: text, y: text) { 'A' <= x <= 'Z' && y as int == x as int + 32 }

  /** Names agree when they do so byte by byte, letters in either case. */
  lemma SameNameIff(a: seq<text>, b: seq<text>)
    ensures SameName(a, b) <==>
            |a| == |b| && forall k | 0 <= k < |a| :: a[k] == b[k] || OtherCase(a[k], b[k]) || OtherCase(b[k], a[k])
  {
    if |a| == |b| {
      forall k | 0 <= k < |a|
        ensures ToLower(a[k]) == ToLower(b[k]) <==> a[k] == b[k] || OtherCase(a[k], b[k]) || OtherCase(b[k], a[k])
      {
      }
    }
  }

  /** The loop of cJSON_strcasecmp; both texts end with a terminator. */
  method StrCaseEq(s1: seq<text>, s2: seq<text>) returns (same: bool)
    requires CString(s1) && CString(s2)
    ensures same <==> SameName(s1, s2)
  {
    var i: nat := 0;
    while ToLower(At(s1, i)) == ToLower(At(s2, i))
      invariant i <= |s1| && i <= |s2| && forall k | 0 <= k < i :: ToLower(s1[k]) == ToLower(s2[k])
      decreases |s1| - i
    {
      if At(s1, i) == '\0' {
        return true;
      }
      i := i + 1;
    }
    same := false;
  }

  class Parent {
    var child: Node?<Member>
    ghost var items: seq<Item>

    ghost predicate Valid()
      reads this, items
    {
      Distinct(items) && Chain(null, items, null) && child == First(items, null)
    }

    /** A new array or object has no children. */
    constructor ()
      ensures Valid() && items == []
    {
      child, items := null, [];
    }

    /** cJSON_GetArraySize. */
    method GetArraySize() returns (n: nat)
      requires Valid()
      ensures n == |items|
    {
      var c := child;
      n := 0;
      while c != null
        invariant n <= |items| && c == (if n < |items| then items[n] else null)
        decreases |items| - n
      {
        ChainAt(items, n);
        n := n + 1;
        c := c.next;
      }
    }

    /** cJSON_GetArrayItem: a negative index gives the first item. */
    method GetArrayItem(which: int) returns (c: Node?<Member>)
      requires Valid()
      ensures c == if Max0(which) < |items| then items[Max0(which)] else null
    {
      c := child;
      var left := which;
      ghost var k: nat := 0;
      while c != null && left > 0
        invariant k <= |items| && c == (if k < |items| then items[k] else null)
        invariant left + k == which || (k == 0 && left == which)
        invariant k > 0 ==> left >= 0
        decreases |items| - k
      {
        ChainAt(items, k);
        left := left - 1;
        c := c.next;
        k := k + 1;
      }
    }

    /** cJSON_GetObjectItem: the first item whose name agrees but for case. */
    method GetObjectItem(name: seq<text>) returns (c: Node?<Member>)
      requires Valid() && CString(name) && forall x | x in items :: CString(x.info.name)
      ensures c == null ==> forall j | 0 <= j < |items| :: !SameName(items[j].info.name, name)
      ensures c != null ==> exists k | 0 <= k < |items| :: items[k] == c && SameName(items[k].info.name, name) &&
                              forall j | 0 <= j < k :: !SameName(items[j].info.name, name)
    {
      c := child;
      ghost var k: nat := 0;
      while c != null
        invariant k <= |items| && c == (if k < |items| then items[k] else null)
        invariant forall j | 0 <= j < k :: !SameName(items[j].info.name, name)
        decreases |items| - k
      {
        ChainAt(items, k);
        var same := StrCaseEq(c.info.name, name);
        if same {
          return;
        }
        c, k := c.next, k + 1;
      }
    }

    /** cJSON_AddItemToArray: append, walking from the first child to the last. */
    method AddItemToArray(item: Node?<Member>)
      requires Valid() && (item != null ==> item !in items && item.prev == null && item.next == null)
      modifies this, items, item
      ensures Valid() && items == if item == null then old(items) else old(items) + [item]
    {
      if item == null {
        return;
      }
      Append(item);
    }

    /** The same for an item that is there. */
    method Append(item: Item)
      requires Valid() && item !in items && item.prev == null && item.next == null
      modifies this, items, item
      ensures Valid() && items == old(items) + [item]
    {
      hide Distinct, Chain;
      var c := child;
      ghost var was, k: nat := items, 0;
      if c == null {
        child := item;
      } else {
        while c.next != null
          modifies {}
          invariant Valid() && items == was && k < |items| && c == items[k]
          decreases |items| - k
        {
          ChainAt(items, k);
          c, k := c.next, k + 1;
        }
        ChainAt(items, k);
        assert k == |was| - 1 && c in was;
        SetNext(c, item, null, was, null);
        item.prev := c;
      }
      ChainOne(Last(was, null), item, null);
      ChainNone(null, item);
      DistinctJoin(was, [item]);
      ChainJoin(null, was, [item], null);
      items := was + [item];
    }

    /** cJSON_DetachItemFromArray: takes the item out and clears its links. */
    method DetachItemFromArray(which: int) returns (c: Node?<Member>)
      requires Valid()
      modifies this, items
      ensures Valid() && c == if Max0(which) < |old(items)| then old(items)[Max0(which)] else null
      ensures c == null ==> items == old(items)
      ensures c != null ==> items == old(items)[..Max0(which)] + old(items)[Max0(which) + 1..] &&
                            c !in items && c.prev == null == c.next
    {
      c := GetArrayItem(which);
      if c != null {
        Parted(items, Max0(which));
        Detach(c, items[..Max0(which)], items[Max0(which) + 1..]);
      }
    }

    method Detach(c: Item, ghost a: seq<Item>, ghost b: seq<Item>)
      requires Valid() && items == a + ([c] + b)
      modifies this, items
      ensures Valid() && items == a + b && c !in items && c.prev == null == c.next
    {
      hide Distinct, Chain;
      PartsInside(a, c, b);
      assert c in items;
      Bypass(c, a, b, items);
      DistinctParts(a, c, b);
      if c == child {
        child := c.next;
      }
      c.prev, c.next := null, null;
      items := a + b;
    }

    /** cJSON_ReplaceItemInArray: the new item takes the place, the old one is cut off. */
    method ReplaceItemInArray(which: int, newitem: Item)
      requires Valid() && newitem !in items
      modifies this, items, newitem
      ensures Valid()
      ensures items == if Max0(which) < |old(items)| then old(items)[Max0(which) := newitem] else old(items)
    {
      var c := GetArrayItem(which);
      if c != null {
        ghost var k := Max0(which);
        Parted(items, k);
        ReplacedDistinct(items, k, newitem);
        Replace(c, newitem, items[..k], items[k + 1..]);
      }
    }

    method Replace(c: Item, newitem: Item, ghost a: seq<Item>, ghost b: seq<Item>)
      requires Valid() && items == a + ([c] + b) && newitem !in items && Distinct(a + ([newitem] + b))
      modifies this, items, newitem
      ensures Valid() && items == a + ([newitem] + b)
    {
      hide Distinct, Chain;
      LinksOf(a, c, b);
      PartsInside(a, c, b);
      newitem.next, newitem.prev := c.next, c.prev;
      if newitem.next != null {
        SetPrev(newitem.next, newitem, c, b, null);
      } else {
        ChainNone(newitem, null);
      }
      if c == child {
        child := newitem;
        ChainNone(null, newitem);
      } else {
        SetNext(newitem.prev, newitem, null, a, c);
      }
      c.next, c.prev := null, null;
      ChainOne(Last(a, null), newitem, First(b, null));
      ChainJoin(Last(a, null), [newitem], b, null);
      ChainJoin(null, a, [newitem] + b, null);
      items := a + ([newitem] + b);
    }
  }

  lemma PartsInside(a: seq<Item>, c: Item, b: seq<Item>)
    ensures forall y | y in a || y in b :: y in a + ([c] + b)
    ensures a != [] ==> a[|a| - 1] in a && a[|a| - 1] in a + ([c] + b)
    ensures b != [] ==> b[0] in b && b[0] in a + ([c] + b)
    ensures (a + ([c] + b))[|a|] == c
    ensures a != [] ==> (a + ([c] + b))[0] == a[0]
  {
  }

  lemma ChainAt(items: seq<Item>, k: nat)
    requires Chain(null, items, null) && k < |items|
    ensures items[k].next == if k + 1 < |items| then items[k + 1] else null
  {
  }

  /** What the links of the middle node say. */
  lemma LinksOf(a: seq<Item>, c: Item, b: seq<Item>)
    requires Chain(null, a + ([c] + b), null) && Distinct(a + ([c] + b))
    ensures c.prev == Last(a, null) && c.next == First(b, null)
    ensures Chain(null, a, c) && Chain(c, b, null)
    ensures Distinct(a) && Distinct(b) && c !in a && c !in b && forall y | y in a :: y !in b
  {
    hide Distinct, Chain;
    DistinctParts(a, c, b);
    ChainSplit(null, a, [c] + b, null);
    ChainSplit(Last(a, null), [c], b, null);
    ChainOne(Last(a, null), c, First(b, null));
  }

  lemma ReplacedDistinct(s: seq<Item>, k: nat, x: Item)
    requires Distinct(s) && k < |s| && x !in s
    ensures s[..k] + ([x] + s[k + 1..]) == s[k := x] && Distinct(s[k := x])
  {
  }
}
