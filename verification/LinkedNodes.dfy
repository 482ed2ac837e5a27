/** Doubly linked nodes, as the file list and the JSON trees use them, and sequences of distinct elements. */
module LinkedNodes {

  class Node<T> {
    const info: T
    var prev: Node?<T>
    var next: Node?<T>

    constructor (info: T)
      ensures this.info == info && prev == null && next == null
    {
      this.info := info;
      prev, next := null, null;
    }
  }

  // ---- Sequences of distinct elements ------------------------------------------------

  ghost predicate Distinct<T>(s: seq<T>) {
    forall i, j | 0 <= i < j < |s| :: s[i] != s[j]
  }

  ghost function IndexOf<T>(s: seq<T>, x: T): (i: nat)
    requires x in s
    ensures i < |s| && s[i] == x
  {
    if s[0] == x then 0 else 1 + IndexOf(s[1..], x)
  }

  /** `s` without the first occurrence of `x`, if there is one. */
  ghost function Without<T>(s: seq<T>, x: T): seq<T> {
    if x in s then s[..IndexOf(s, x)] + s[IndexOf(s, x) + 1..] else s
  }

  ghost function Reverse<T>(s: seq<T>): (r: seq<T>)
    ensures |r| == |s| && forall i | 0 <= i < |s| :: r[i] == s[|s| - 1 - i]
  {
    if s == [] then [] else Reverse(s[1..]) + [s[0]]
  }

  /** The order in which an iterator visits a list. */
  ghost function Ordered<T>(s: seq<T>, invert: bool): seq<T> { if invert then Reverse(s) else s }

  lemma IndexIs<T>(s: seq<T>, i: nat)
    requires Distinct(s) && i < |s|
    ensures IndexOf(s, s[i]) == i
  {
    var k := IndexOf(s, s[i]);
    assert s[k] == s[i];
  }

  lemma DistinctJoin<T>(a: seq<T>, b: seq<T>)
    requires Distinct(a) && Distinct(b) && forall x | x in a :: x !in b
    ensures Distinct(a + b)
  {
    forall i, j | 0 <= i < j < |a + b|
      ensures (a + b)[i] != (a + b)[j]
    {
      if i < |a| {
        assert (a + b)[i] in a;
        if j >= |a| {
          assert (a + b)[j] in b;
        }
      }
    }
  }

  /** What is still to visit when an iterator stands between item `mark - 1` and item `mark`. */
  ghost function Rest<T>(items: seq<T>, mark: nat, invert: bool): seq<T>
    requires mark <= |items|
  {
    if invert then Reverse(items[..mark]) else items[mark..]
  }

  lemma {:induction false} ReverseJoin<T>(a: seq<T>, x: T, b: seq<T>)
    ensures Reverse(a + [x] + b) == Reverse(b) + [x] + Reverse(a)
    ensures Reverse(a + b) == Reverse(b) + Reverse(a)
  {
    hide Reverse;
    var r, q := Reverse(b) + [x] + Reverse(a), Reverse(a + [x] + b);
    assert |r| == |q| && forall i | 0 <= i < |q| :: q[i] == r[i];
    var u, v := Reverse(b) + Reverse(a), Reverse(a + b);
    assert |u| == |v| && forall i | 0 <= i < |v| :: v[i] == u[i];
  }

  lemma WithoutMiddle<T>(a: seq<T>, x: T, b: seq<T>)
    requires Distinct(a + [x] + b)
    ensures Without(a + [x] + b, x) == a + b
  {
    var s := a + [x] + b;
    assert s[|a|] == x;
    IndexIs(s, |a|);
  }

  lemma WithoutAbsent<T>(s: seq<T>, x: T)
    requires x !in s
    ensures Without(s, x) == s
  {
  }

  lemma ForwardWithout<T>(items: seq<T>, k: nat, mark: nat)
    requires Distinct(items) && k < |items| && mark <= |items|
    ensures var left := items[..k] + items[k + 1..];
            left[if k < mark then mark - 1 else mark..] == Without(items[mark..], items[k])
  {
    hide Without;
    var left, x, rest := items[..k] + items[k + 1..], items[k], items[mark..];
    if k < mark {
      assert left[mark - 1..] == rest;
      WithoutAbsent(rest, x);
    } else {
      var a, b := items[mark..k], items[k + 1..];
      assert rest == a + [x] + b;
      WithoutMiddle(a, x, b);
      assert left[mark..] == a + b;
    }
  }

  lemma BackwardWithout<T>(items: seq<T>, k: nat, mark: nat)
    requires Distinct(items) && k < |items| && mark <= |items|
    ensures var left := items[..k] + items[k + 1..];
            Reverse(left[..if k < mark then mark - 1 else mark]) == Without(Reverse(items[..mark]), items[k])
  {
    hide Without, Reverse;
    var left, x, done := items[..k] + items[k + 1..], items[k], items[..mark];
    ReverseDistinct(done);
    if k < mark {
      var a, b := items[..k], items[k + 1..mark];
      assert done == a + [x] + b && left[..mark - 1] == a + b;
      ReverseJoin(a, x, b);
      WithoutMiddle(Reverse(b), x, Reverse(a));
    } else {
      assert left[..mark] == done;
      WithoutAbsent(Reverse(done), x);
    }
  }

  /** Taking item `k` out of the list takes it out of what is still to visit. */
  lemma RestWithout<T>(items: seq<T>, k: nat, mark: nat, invert: bool)
    requires Distinct(items) && k < |items| && mark <= |items|
    ensures var left := items[..k] + items[k + 1..];
            Rest(left, if k < mark then mark - 1 else mark, invert) == Without(Rest(items, mark, invert), items[k])
  {
    hide Distinct, Without, Reverse;
    if invert {
      BackwardWithout(items, k, mark);
    } else {
      ForwardWithout(items, k, mark);
    }
  }

  /** Taking an item out of the list takes it out of the order of visits. */
  lemma OrderedWithout<T>(items: seq<T>, k: nat, invert: bool)
    requires Distinct(items) && k < |items|
    ensures Ordered(items[..k] + items[k + 1..], invert) == Without(Ordered(items, invert), items[k])
  {
    hide Distinct, Without, Reverse;
    var left := items[..k] + items[k + 1..];
    RestWithout(items, k, if invert then |items| else 0, invert);
    assert items[..|items|] == items && left[..|left|] == left;
  }

  /** The last item before what is still to visit. */
  lemma BeforeRest<T>(items: seq<T>, mark: nat, invert: bool, back: seq<T>)
    requires mark <= |items| && Ordered(items, invert) == back + Rest(items, mark, invert)
    ensures |back| == if invert then |items| - mark else mark
    ensures back != [] ==> back[|back| - 1] == items[if invert then mark else mark - 1]
  {
    hide Reverse;
    if back != [] {
      assert Ordered(items, invert)[|back| - 1] == back[|back| - 1];
    }
  }

  /** One step takes the first of what is still to visit. */
  lemma RestStep<T>(items: seq<T>, mark: nat, invert: bool)
    requires mark <= |items|
    ensures Rest(items, mark, invert) == [] <==> mark == if invert then 0 else |items|
    ensures Rest(items, mark, invert) != [] ==>
              var next := if invert then mark - 1 else mark + 1;
              Rest(items, mark, invert)[0] == items[if invert then mark - 1 else mark] &&
              Rest(items, mark, invert)[1..] == Rest(items, next, invert)
  {
    if invert && mark > 0 {
      var front, x := items[..mark - 1], items[mark - 1];
      assert items[..mark] == front + [x];
      ReverseJoin(front, x, []);
      assert front + [x] + [] == front + [x];
    }
  }

  lemma ReverseDistinct<T>(s: seq<T>)
    requires Distinct(s)
    ensures Distinct(Reverse(s)) && forall x :: x in Reverse(s) <==> x in s
  {
    hide Reverse;
    var r := Reverse(s);
    forall x | x in s ensures x in r {
      var i :| 0 <= i < |s| && s[i] == x;
      assert r[|s| - 1 - i] == x;
    }
  }

  // ---- The list ----------------------------------------------------------------------

  /** The neighbours of item `i`; `l` and `r` are the outer ones. */
  ghost function PrevAt<T>(l: Node?<T>, items: seq<Node<T>>, i: nat): Node?<T>
    requires i < |items|
  {
    if i == 0 then l else items[i - 1]
  }

  ghost function NextAt<T>(items: seq<Node<T>>, r: Node?<T>, i: nat): Node?<T>
    requires i < |items|
  {
    if i == |items| - 1 then r else items[i + 1]
  }

  /** The items are linked in order. */
  ghost predicate Chain<T>(l: Node?<T>, items: seq<Node<T>>, r: Node?<T>)
    reads items
  {
    forall i | 0 <= i < |items| :: items[i].prev == PrevAt(l, items, i) && items[i].next == NextAt(items, r, i)
  }

  ghost function First<T>(items: seq<Node<T>>, otherwise: Node?<T>): Node?<T> {
    if items == [] then otherwise else items[0]
  }

  ghost function Last<T>(items: seq<Node<T>>, otherwise: Node?<T>): Node?<T> {
    if items == [] then otherwise else items[|items| - 1]
  }

  lemma ChainJoin<T>(l: Node?<T>, a: seq<Node<T>>, b: seq<Node<T>>, r: Node?<T>)
    requires Chain(l, a, First(b, r)) && Chain(Last(a, l), b, r)
    ensures Chain(l, a + b, r)
  {
    var s := a + b;
    forall i | 0 <= i < |s|
      ensures s[i].prev == PrevAt(l, s, i) && s[i].next == NextAt(s, r, i)
    {
      if i < |a| {
        assert s[i] == a[i];
      } else {
        assert s[i] == b[i - |a|];
      }
    }
  }

  lemma ChainSplit<T>(l: Node?<T>, a: seq<Node<T>>, b: seq<Node<T>>, r: Node?<T>)
    requires Chain(l, a + b, r)
    ensures Chain(l, a, First(b, r)) && Chain(Last(a, l), b, r)
  {
    var s := a + b;
    assert forall i | 0 <= i < |a| :: a[i] == s[i];
    assert forall i | 0 <= i < |b| :: b[i] == s[|a| + i];
  }

  lemma ChainOne<T>(l: Node?<T>, x: Node<T>, r: Node?<T>)
    ensures Chain(l, [x], r) <==> x.prev == l && x.next == r
    ensures Distinct([x])
  {
    var s := [x];
    assert s[0] == x;
  }

  lemma ChainNone<T>(l: Node?<T>, r: Node?<T>)
    ensures Chain(l, [], r) && Distinct<Node<T>>([])
  {
  }

  lemma LastOnce<T>(a: seq<T>)
    requires Distinct(a) && a != []
    ensures forall i | 0 <= i < |a| - 1 :: a[i] != a[|a| - 1]
    ensures forall i | 1 <= i < |a| :: a[i] != a[0]
  {
  }

  /** A new outer link on the right. */
  method SetNext<T>(x: Node<T>, v: Node?<T>, ghost l: Node?<T>, ghost a: seq<Node<T>>, ghost r: Node?<T>)
    requires Chain(l, a, r) && Distinct(a) && a != [] && a[|a| - 1] == x
    modifies x`next
    ensures Chain(l, a, v)
  {
    hide Distinct;
    LastOnce(a);
    x.next := v;
  }

  /** A new outer link on the left. */
  method SetPrev<T>(y: Node<T>, v: Node?<T>, ghost l: Node?<T>, ghost b: seq<Node<T>>, ghost r: Node?<T>)
    requires Chain(l, b, r) && Distinct(b) && b != [] && b[0] == y
    modifies y`prev
    ensures Chain(v, b, r)
  {
    hide Distinct;
    LastOnce(b);
    y.prev := v;
  }

  lemma Parted<T>(s: seq<T>, k: nat)
    requires k < |s|
    ensures s == s[..k] + ([s[k]] + s[k + 1..])
  {
  }

  lemma DistinctParts<T>(a: seq<T>, x: T, b: seq<T>)
    requires Distinct(a + ([x] + b))
    ensures Distinct(a) && Distinct(b) && Distinct(a + b) && x !in a && x !in b && x !in a + b
    ensures forall y | y in a :: y !in b
    ensures b != [] ==> (a + ([x] + b))[|a + ([x] + b)| - 1] != x
    ensures a != [] ==> (a + ([x] + b))[0] != x
  {
    var s, t := a + ([x] + b), a + b;
    assert forall i | 0 <= i < |a| :: s[i] == a[i];
    assert s[|a|] == x;
    assert forall i | 0 <= i < |b| :: s[|a| + 1 + i] == b[i];
    forall i, j | 0 <= i < j < |t| ensures t[i] != t[j] {
      assert t[i] == s[if i < |a| then i else i + 1] && t[j] == s[if j < |a| then j else j + 1];
    }
  }

  /** The neighbours of `item` are linked to each other. */
  method Bypass<T>(item: Node<T>, ghost a: seq<Node<T>>, ghost b: seq<Node<T>>, ghost items: seq<Node<T>>)
    requires items == a + ([item] + b) && Distinct(items) && Chain(null, items, null)
    modifies items
    ensures Chain(null, a + b, null) && item.prev == Last(a, null) && item.next == First(b, null)
  {
    hide Distinct, Chain;
    DistinctParts(a, item, b);
    ChainSplit(null, a, [item] + b, null);
    ChainSplit(Last(a, null), [item], b, null);
    ChainOne(Last(a, null), item, First(b, null));
    assert ([item] + b)[0] == item;
    assert a != [] ==> a[|a| - 1] in a && a[|a| - 1] in items;
    assert b != [] ==> b[0] in b && b[0] in items;
    if item.prev != null {
      SetNext(item.prev, item.next, null, a, item);
    } else {
      ChainNone(null, item.next);
    }
    if item.next != null {
      SetPrev(item.next, item.prev, item, b, null);
    } else {
      ChainNone(item.prev, null);
    }
    ChainJoin(null, a, b, null);
  }
}
