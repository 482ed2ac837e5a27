/** Shared result types, the byte types of the C strings and buffers, and a few facts about sequences. */
module Wrappers {
  datatype Option<+T> = None | Some(value: T)

  /** An unsigned byte, as read through `& 0xff`. */
  type byte = b: int | 0 <= b < 256

  /** A byte of text, written as the character with that code. */
  type text = c: char | c as int < 256

  /** A C string: bytes before the terminator, none of them NUL. */
  predicate CString(s: seq<text>) {
    forall i | 0 <= i < |s| :: s[i] != '\0'
  }

  /** Reading one byte of a C string, terminator included. */
  function At(s: seq<text>, i: nat): text {
    if i < |s| then s[i] else '\0'
  }

  predicate IsDigit(c: text) { '0' <= c <= '9' }

  function ToLower(c: text): text { if 'A' <= c <= 'Z' then (c as int + 32) as char else c }

  function Min(a: int, b: int): int { if a < b then a else b }

  function Max0(n: int): nat { if n < 0 then 0 else n }

  lemma Regroup<T>(a: seq<T>, b: seq<T>, c: seq<T>)
    ensures (a + b) + c == a + (b + c)
  {
  }

  /** `t` and then the rest, when the rest exists. */
  function Cat<T>(t: seq<T>, r: Option<seq<T>>): Option<seq<T>> {
    if r.Some? then Some(t + r.value) else None
  }

  lemma CatCat<T>(a: seq<T>, b: seq<T>, r: Option<seq<T>>)
    ensures Cat(a, Cat(b, r)) == Cat(a + b, r)
  {
    if r.Some? {
      Regroup(a, b, r.value);
    }
  }

  lemma CatNothing<T>(r: Option<seq<T>>)
    ensures Cat([], r) == r
  {
    if r.Some? { assert [] + r.value == r.value; }
  }
}
