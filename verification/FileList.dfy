/** The doubly linked list of remote files and its iterator (pcs/pcs_fileinfo.c). */
module FileList {
  import opened Wrappers
  import opened LinkedNodes

  datatype FileInfo = FileInfo(fsId: nat, path: string, size: nat, isdir: bool)

  type Item = Node<FileInfo>

  class List {
    var count: nat
    var link: Node?<FileInfo>
    var linkTail: Node?<FileInfo>
    ghost var items: seq<Item>

    ghost predicate Valid()
      reads this, items
    {
      && Distinct(items) && Chain(null, items, null) && count == |items|
      && link == First(items, null) && linkTail == Last(items, null)
    }

    /** pcs_filist_create. */
    constructor ()
      ensures Valid() && items == []
    {
      count, link, linkTail, items := 0, null, null, [];
    }

    /** pcs_filist_add: append. */
    method Add(item: Item)
      requires Valid() && item !in items
      modifies this, item, items
      ensures Valid() && items == old(items) + [item]
    {
      hide Distinct, Chain;
      ghost var was := items;
      if linkTail == null {
        link, linkTail := item, item;
        item.prev, item.next := null, null;
      } else {
        item.prev := linkTail;
        item.next := null;
        SetNext(linkTail, item, null, was, null);
        linkTail := item;
      }
      ChainOne(Last(was, null), item, null);
      ChainNone(null, item);
      DistinctJoin(was, [item]);
      ChainJoin(null, was, [item], null);
      count := count + 1;
      items := was + [item];
    }

    /** pcs_filist_combin: moves all items of `src` to the end of this list. */
    method Combin(src: List)
      requires Valid() && src.Valid() && src != this && forall x | x in items :: x !in src.items
      modifies this, src, items, src.items
      ensures Valid() && src.Valid() && items == old(items) + old(src.items) && src.items == []
    {
      hide Distinct, Chain;
      ghost var a, b := items, src.items;
      DistinctJoin(a, b);
      ChainNone<FileInfo>(null, null);
      if src.link == null {
        assert a + b == a;
        return;
      }
      if linkTail == null {
        assert a + b == b;
        link, linkTail, count := src.link, src.linkTail, src.count;
      } else {
        assert linkTail in a && src.link in b;
        SetNext(linkTail, src.link, null, a, null);
        SetPrev(src.link, linkTail, null, b, null);
        ChainJoin(null, a, b, null);
        linkTail := src.linkTail;
        count := count + src.count;
      }
      items := a + b;
      src.count, src.link, src.linkTail, src.items := 0, null, null, [];
    }

    /** The item leaves the list; its own links still say where it was. */
    method Unlink(item: Item, ghost a: seq<Item>, ghost b: seq<Item>)
      requires Valid() && items == a + ([item] + b)
      modifies this, items
      ensures Valid() && items == a + b && item !in items
      ensures item.prev == Last(a, null) && item.next == First(b, null)
    {
      hide Distinct, Chain;
      Bypass(item, a, b, items);
      DistinctParts(a, item, b);
      if link == item {
        link := item.next;
      }
      if linkTail == item {
        linkTail := item.prev;
      }
      count := count - 1;
      items := a + b;
    }

    /** pcs_filist_remove: an iterator that stands on the item steps back. */
    method Remove(item: Item, iterater: Iterater?)
      requires Valid() && item in items
      requires iterater != null ==> iterater.list == this && iterater.Valid()
      modifies this, items, iterater
      ensures Valid() && items == Without(old(items), item) && item.prev == null == item.next
      ensures iterater != null ==> iterater.Valid() && iterater.Remaining() == Without(old(iterater.Remaining()), item)
      ensures iterater != null ==> iterater.list == this && iterater.invert == old(iterater.invert)
    {
      hide Distinct, Chain, Without, Rest, First, Last, IndexOf;
      ghost var was, k := items, IndexOf(items, item);
      ghost var a, b := was[..k], was[k + 1..];
      Parted(was, k);
      WithoutIs(was, k);
      ghost var m: nat := 0;
      if iterater != null {
        m := iterater.RemainingWithout(k);
      }
      Unlink(item, a, b);
      if iterater != null {
        iterater.StepBack(item, was, k, m);
      }
      item.prev, item.next := null, null;
      if iterater != null {
        iterater.RemainsFrom(if k < m then m - 1 else m);
      }
    }
  }

  lemma WithoutIs<T>(s: seq<T>, k: nat)
    requires Distinct(s) && k < |s|
    ensures IndexOf(s, s[k]) == k && Without(s, s[k]) == s[..k] + s[k + 1..]
  {
    hide IndexOf;
    IndexIs(s, k);
  }

  class Iterater {
    var invert: bool
    var list: List
    var cursor: Node?<FileInfo>
    var current: Option<FileInfo>

    ghost predicate Valid()
      reads this, list, list.items
    {
      list.Valid() && (cursor == null || cursor in list.items)
    }

    /** The boundary between what was visited and what was not. */
    ghost function Mark(): (m: nat)
      requires cursor == null || cursor in list.items
      reads this, list
      ensures m <= |list.items|
    {
      if cursor == null then if invert then |list.items| else 0
      else IndexOf(list.items, cursor) + if invert then 0 else 1
    }

    lemma WhereMark()
      requires Valid()
      ensures Stands(Mark())
    {
      if cursor != null {
        IndexIs(list.items, IndexOf(list.items, cursor));
      }
    }

    /** The cursor is the item of `items` visited last, at the boundary `m`. */
    ghost predicate StandsIn(items: seq<Item>, m: nat)
      reads this
    {
      m <= |items| &&
      cursor == if invert then if m == |items| then null else items[m] else if m == 0 then null else items[m - 1]
    }

    ghost predicate Stands(m: nat)
      reads this, list
    {
      StandsIn(list.items, m)
    }

    /** When item `k` has left the list the cursor moves off it, to the item visited before. */
    method StepBack(item: Item, ghost items: seq<Item>, ghost k: nat, ghost m: nat)
      requires Distinct(items) && StandsIn(items, m) && k < |items| && items[k] == item
      requires item.prev == Last(items[..k], null) && item.next == First(items[k + 1..], null)
      modifies this`cursor
      ensures StandsIn(items[..k] + items[k + 1..], if k < m then m - 1 else m)
    {
      ghost var left := items[..k] + items[k + 1..];
      OnItem(items, k, m);
      hide Distinct;
      assert forall i | 0 <= i < |left| :: left[i] == items[if i < k then i else i + 1];
      if cursor == item {
        if invert {
          cursor := item.next;
        } else {
          cursor := item.prev;
        }
      }
    }

    lemma OnItem(items: seq<Item>, k: nat, m: nat)
      requires Distinct(items) && StandsIn(items, m) && k < |items|
      ensures cursor == items[k] <==> k == if invert then m else m - 1
    {
    }

    /** The link an iterator follows leads to the next item to visit. */
    lemma Neighbour(m: nat)
      requires list.Valid() && Stands(m) && cursor != null
      ensures invert ==> cursor.prev == if m == 0 then null else list.items[m - 1]
      ensures !invert ==> cursor.next == if m == |list.items| then null else list.items[m]
    {
      assert cursor == list.items[if invert then m else m - 1];
    }

    /** The cursor stands on the last of the items before what is still to visit. */
    lemma CursorIsLast(back: seq<Item>)
      requires Valid() && Ordered(list.items, invert) == back + Remaining()
      ensures cursor == Last(back, null)
    {
      WhereMark();
      BeforeRest(list.items, Mark(), invert, back);
      hide IndexOf, Distinct, Chain, Ordered, Rest;
    }

    /** The item under the cursor is not visited again. */
    lemma CursorVisited()
      requires Valid() && cursor != null
      ensures Without<Item>(Remaining(), cursor) == Remaining()
    {
      WhereMark();
      var s, m := list.items, Mark();
      hide IndexOf, Reverse;
      if invert {
        ReverseDistinct(s[..m]);
        assert cursor !in s[..m] by { assert cursor == s[m]; }
      } else {
        assert cursor !in s[m..] by { assert cursor == s[m - 1]; }
      }
      WithoutAbsent<Item>(Remaining(), cursor);
    }

    lemma MarkIs(m: nat)
      requires list.Valid() && Stands(m)
      ensures Valid() && Mark() == m
    {
      if cursor != null {
        IndexIs(list.items, if invert then m else m - 1);
      }
    }

    /** What is to be visited once item `k` is gone, in terms of the boundary. */
    lemma RemainingWithout(k: nat) returns (m: nat)
      requires Valid() && k < |list.items|
      ensures StandsIn(list.items, m)
      ensures var left := list.items[..k] + list.items[k + 1..];
              Rest(left, if k < m then m - 1 else m, invert) == Without(Remaining(), list.items[k])
    {
      hide Distinct, Without, Rest, IndexOf;
      m := Mark();
      WhereMark();
      RestWithout(list.items, k, m, invert);
    }

    lemma RemainsFrom(m: nat)
      requires list.Valid() && Stands(m)
      ensures Valid() && Remaining() == Rest(list.items, m, invert)
    {
      hide Distinct, Rest, IndexOf;
      MarkIs(m);
    }

    ghost function Remaining(): seq<Item>
      requires cursor == null || cursor in list.items
      reads this, list
    {
      Rest(list.items, Mark(), invert)
    }

    /** pcs_filist_iterater_init. */
    constructor (list: List, invert: bool)
      requires list.Valid()
      ensures Valid() && this.list == list && this.invert == invert && current == None
      ensures Remaining() == Ordered(list.items, invert)
    {
      this.list, this.invert, cursor, current := list, invert, null, None;
      new;
      assert list.items[..|list.items|] == list.items;
    }

    /** pcs_filist_iterater_next: the first of the items still to visit. */
    method Next() returns (ok: bool)
      requires Valid()
      modifies this`cursor, this`current
      ensures Valid() && (ok <==> old(Remaining()) != [])
      ensures ok ==> cursor == old(Remaining())[0] && current == Some(cursor.info) && Remaining() == old(Remaining())[1..]
      ensures !ok ==> cursor == old(cursor) && current == old(current)
    {
      hide Distinct, Chain, Rest, IndexOf;
      ghost var m := Mark();
      WhereMark();
      RestStep(list.items, m, invert);
      ok := Advance(m);
      if ok {
        current := Some(cursor.info);
        MarkIs(if invert then m - 1 else m + 1);
      }
    }

    /** The cursor's own move. */
    method Advance(ghost m: nat) returns (ok: bool)
      requires list.Valid() && Stands(m)
      modifies this`cursor
      ensures ok <==> m != if invert then 0 else |list.items|
      ensures ok ==> Stands(if invert then m - 1 else m + 1)
      ensures !ok ==> cursor == old(cursor)
    {
      hide Distinct, Chain;
      if cursor != null {
        Neighbour(m);
      }
      if list.link == null {
        return false;
      }
      if invert {
        if cursor == null {
          cursor := list.linkTail;
          return true;
        } else if cursor.prev != null {
          cursor := cursor.prev;
          return true;
        }
      } else {
        if cursor == null {
          cursor := list.link;
          return true;
        } else if cursor.next != null {
          cursor := cursor.next;
          return true;
        }
      }
      return false;
    }
  }

  // ---- Whole iterations --------------------------------------------------------------

  datatype Op = Step | Drop

  function Steps(ops: seq<Op>): nat {
    if ops == [] then 0 else Steps(ops[..|ops| - 1]) + if ops[|ops| - 1].Step? then 1 else 0
  }

  /** Items stepped over and kept, with the last one under the cursor; items still to visit; items dropped. */
  datatype Walk<T> = Walk(back: seq<T>, rest: seq<T>, dropped: seq<T>)

  /** A step moves on to the next item, if there is one; a removal takes the item it stands on, if any,
      and steps back to the one before. */
  function Next<T>(w: Walk<T>, op: Op): (w': Walk<T>)
    ensures |w'.back| + |w'.rest| + |w'.dropped| == |w.back| + |w.rest| + |w.dropped|
  {
    match op
    case Step => if w.rest == [] then w else Walk(w.back + [w.rest[0]], w.rest[1..], w.dropped)
    case Drop =>
      if w.back == [] then w
      else Walk(w.back[..|w.back| - 1], w.rest, w.dropped + [w.back[|w.back| - 1]])
  }

  /** What a mix of steps and removals does to an order of visits. */
  function After<T>(order: seq<T>, ops: seq<Op>): (w: Walk<T>)
    ensures |w.back| + |w.rest| + |w.dropped| == |order|
  {
    if ops == [] then Walk([], order, []) else Next(After(order, ops[..|ops| - 1]), ops[|ops| - 1])
  }

  ghost function WithoutAll<T>(s: seq<T>, xs: seq<T>): seq<T> {
    if xs == [] then s else Without(WithoutAll(s, xs[..|xs| - 1]), xs[|xs| - 1])
  }

  /** Removing the item under the cursor leaves what is still to visit alone, and takes the last of
      the items before that. */
  method DropCurrent(list: List, it: Iterater, ghost was: set<Item>, ghost back: seq<Item>) returns (gone: Item)
    requires it.list == list && it.Valid() && it.cursor != null && Within(list.items, was)
    requires Ordered(list.items, it.invert) == back + it.Remaining()
    modifies list, was, it
    ensures it.list == list && it.Valid() && it.invert == old(it.invert) && it.Remaining() == old(it.Remaining())
    ensures list.items == Without(old(list.items), gone) && Within(list.items, was)
    ensures back != [] && gone == back[|back| - 1]
    ensures Ordered(list.items, it.invert) == back[..|back| - 1] + it.Remaining()
  {
    hide Distinct, Chain, Reverse, Rest, IndexOf, Without, Ordered;
    gone := it.cursor;
    it.CursorVisited();
    it.CursorIsLast(back);
    ghost var rest := it.Remaining();
    WithoutSub(list.items, gone, was);
    WithoutLast(list.items, it.invert, gone, back, rest);
    list.Remove(gone, it);
  }

  lemma WithoutLast(items: seq<Item>, invert: bool, x: Item, back: seq<Item>, rest: seq<Item>)
    requires Distinct(items) && x in items && back != [] && back[|back| - 1] == x
    requires Ordered(items, invert) == back + rest
    ensures Ordered(Without(items, x), invert) == back[..|back| - 1] + rest
  {
    var k, front := IndexOf(items, x), back[..|back| - 1];
    WithoutIs(items, k);
    OrderedWithout(items, k, invert);
    ReverseDistinct(items);
    assert back + rest == front + [x] + rest;
    hide Without, Reverse, IndexOf;
    WithoutMiddle(front, x, rest);
  }

  ghost predicate Within<T>(s: seq<T>, all: set<T>) { forall i | 0 <= i < |s| :: s[i] in all }

  lemma WithoutSub<T>(s: seq<T>, x: T, all: set<T>)
    requires Within(s, all)
    ensures Within(Without(s, x), all)
  {
    hide IndexOf;
  }

  /** One operation of an iteration. */
  method Perform(list: List, it: Iterater, op: Op, ghost all: set<Item>, ghost w: Walk<Item>)
    returns (took: bool, ghost w': Walk<Item>)
    requires it.list == list && it.Valid() && Within(list.items, all)
    requires it.Remaining() == w.rest && Ordered(list.items, it.invert) == w.back + w.rest
    modifies list, all, it
    ensures it.list == list && it.Valid() && it.invert == old(it.invert) && Within(list.items, all)
    ensures w' == Next(w, op) && it.Remaining() == w'.rest && Ordered(list.items, it.invert) == w'.back + w'.rest
    ensures list.items == if op.Drop? && w.back != [] then Without(old(list.items), w.back[|w.back| - 1])
                          else old(list.items)
    ensures took <==> op.Step? && w.rest != []
    ensures took ==> it.cursor == w.rest[0]
  {
    hide Distinct, Chain, First, Reverse, Ordered, Rest, IndexOf, Without, Within;
    it.CursorIsLast(w.back);
    took, w' := false, Next(w, op);
    if op.Step? {
      took := it.Next();
      if took {
        Visit(w.back, w.rest);
      }
    } else if it.cursor != null {
      var gone := DropCurrent(list, it, all, w.back);
    }
  }

  /** Any mix of steps and removals of the current item, in either direction: every item is visited
      once and in order, whatever was removed on the way; which items are dropped and which stay is
      what the mix does to the order of visits. */
  method Iterate(list: List, invert: bool, ops: seq<Op>) returns (visited: seq<Item>, ghost dropped: seq<Item>)
    requires list.Valid()
    modifies list, list.items
    ensures list.Valid() && list.items == WithoutAll(old(list.items), dropped)
    ensures var w := After(Ordered(old(list.items), invert), ops);
            dropped == w.dropped && Ordered(list.items, invert) == w.back + w.rest
    ensures visited == Ordered(old(list.items), invert)[..Min(Steps(ops), |old(list.items)|)]
  {
    hide Distinct, Chain, First, Last, Reverse, Ordered, Rest, IndexOf, Without, WithoutAll, Within, Steps, Min, After;
    ghost var was := list.items;
    ghost var order, all := Ordered(was, invert), set x | x in was;
    var it := new Iterater(list, invert);
    visited := [];
    ghost var w := Walk([], order, []);
    StartOf(was, all, invert);
    for k := 0 to |ops|
      modifies list, all, it
      invariant it.Valid() && it.list == list && it.invert == invert && fresh(it) && Within(list.items, all)
      invariant w == After(order, ops[..k]) && it.Remaining() == w.rest && Ordered(list.items, invert) == w.back + w.rest
      invariant list.items == WithoutAll(was, w.dropped)
      invariant visited + w.rest == order && |visited| == Min(Steps(ops[..k]), |was|)
    {
      NextOp(order, ops, k, |was|);
      var took, w' := Perform(list, it, ops[k], all, w);
      if took {
        Visit(visited, w.rest);
        visited := visited + [it.cursor];
      }
      DropOne(was, w, ops[k]);
      w := w';
    }
    assert ops[..|ops|] == ops;
    dropped := w.dropped;
  }

  lemma StartOf(was: seq<Item>, all: set<Item>, invert: bool)
    requires all == set x | x in was
    ensures Within(was, all) && WithoutAll<Item>(was, []) == was && Min(Steps([]), |was|) == 0
    ensures |Ordered(was, invert)| == |was|
    ensures After<Item>(Ordered(was, invert), []) == Walk([], Ordered(was, invert), [])
    ensures Ordered(was, invert) == [] + Ordered(was, invert)
  {
  }

  lemma NextOp(order: seq<Item>, ops: seq<Op>, k: nat, n: nat)
    requires k < |ops|
    ensures After(order, ops[..k + 1]) == Next(After(order, ops[..k]), ops[k])
    ensures Min(Steps(ops[..k + 1]), n) ==
            if ops[k].Step? && Min(Steps(ops[..k]), n) < n then Min(Steps(ops[..k]), n) + 1 else Min(Steps(ops[..k]), n)
  {
    assert ops[..k + 1][..k] == ops[..k];
  }

  lemma Visit<T>(visited: seq<T>, rest: seq<T>)
    requires rest != []
    ensures (visited + [rest[0]]) + rest[1..] == visited + rest
  {
  }

  lemma DropOne<T>(s: seq<T>, w: Walk<T>, op: Op)
    ensures WithoutAll(s, Next(w, op).dropped) ==
            if op.Drop? && w.back != [] then Without(WithoutAll(s, w.dropped), w.back[|w.back| - 1])
            else WithoutAll(s, w.dropped)
  {
    hide Without;
    if w.back != [] {
      assert (w.dropped + [w.back[|w.back| - 1]])[..|w.dropped|] == w.dropped;
    }
  }
}
