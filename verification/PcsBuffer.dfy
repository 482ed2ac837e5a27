/** The growable byte buffer of pcs/pcs_buffer.c. */
module PcsBuffer {
  import opened Wrappers

  lemma Spliced(whole: seq<byte>, was: seq<byte>, offset: nat, src: seq<byte>)
    requires offset <= |was| && |was| + |src| <= |whole|
    requires whole[..offset] == was[..offset] && whole[offset..offset + |src|] == src
    requires whole[offset + |src|..][..|was| - offset] == was[offset..]
    ensures whole[..|was| + |src|] == was[..offset] + src + was[offset..]
  {
    assert whole[..|was| + |src|] ==
           whole[..offset] + whole[offset..offset + |src|] + whole[offset + |src|..][..|was| - offset];
  }

  class Buffer {
    var data: array<byte>
    var len: nat

    /** A buffer that holds anything has room for the terminator. */
    ghost predicate Valid()
      reads this
    {
      if data.Length == 0 then len == 0 else len < data.Length
    }

    ghost function Contents(): (s: seq<byte>)
      reads this, data
      requires Valid()
      ensures |s| == len
    {
      data[..len]
    }

    constructor ()
      ensures Valid() && Contents() == [] && fresh(data)
    {
      data := new byte[0];
      len := 0;
    }

    /** pcs_buf_enlarge: afterwards `want` more bytes fit. */
    method Enlarge(want: nat)
      requires Valid()
      modifies this`data
      ensures len + want <= data.Length && data[..len] == old(data[..len])
      ensures data == old(data) || fresh(data)
      ensures old(data.Length) > 0 && want > 0 ==> data[len] == old(data[len])
    {
      if len + want <= data.Length {
        return;
      }
      var sz := len + want * 2;
      var newdata := new byte[sz](_ => 0);
      if data.Length > 0 {
        for k := 0 to len + 1
          modifies newdata
          invariant forall j | 0 <= j < k :: newdata[j] == data[j]
        {
          newdata[k] := data[k];
        }
      }
      data := newdata;
    }

    /** memcpy of a whole source to position `p`. */
    method Copy(p: nat, src: seq<byte>)
      requires p + |src| <= data.Length
      modifies data
      ensures data[p..p + |src|] == src
      ensures data[..p] == old(data[..p]) && data[p + |src|..] == old(data[p + |src|..])
    {
      for k := 0 to |src|
        invariant data[p..p + k] == src[..k]
        invariant data[..p] == old(data[..p]) && data[p + k..] == old(data[p + k..])
      {
        data[p + k] := src[k];
      }
      assert src[..|src|] == src;
    }

    /** pcs_buf_write: append. */
    method Write(src: seq<byte>)
      requires Valid()
      modifies this, data
      ensures Valid() && Contents() == old(Contents()) + src
      ensures data == old(data) || fresh(data)
      ensures src != [] ==> data[len] == 0
    {
      if src == [] {
        return;
      }
      ghost var was := Contents();
      Enlarge(|src| + 1);
      Copy(len, src);
      assert data[..len] == was;
      len := len + |src|;
      data[len] := 0;
      assert data[..len] == was + src;
    }

    /** memmove of the tail and its terminator, `n` places up. */
    method MoveUp(offset: nat, n: nat)
      requires offset <= len && len + n < data.Length
      modifies data
      ensures data[..offset] == old(data[..offset])
      ensures data[offset + n..len + n + 1] == old(data[offset..len + 1])
    {
      var k := len + 1;
      ghost var tail := data[offset..len + 1];
      while k > offset
        invariant offset <= k <= len + 1
        invariant data[..k] == old(data[..k])
        invariant forall j | k - offset <= j < |tail| :: data[offset + n + j] == tail[j]
      {
        k := k - 1;
        assert data[k] == old(data[..k + 1])[k] == tail[k - offset];
        data[k + n] := data[k];
      }
      assert forall j | 0 <= j < |tail| :: data[offset + n..len + n + 1][j] == tail[j];
    }

    /** The splice once the buffer is large enough. */
    method InsertMiddle(offset: nat, src: seq<byte>)
      requires Valid() && offset <= len && len + |src| < data.Length
      modifies this`len, data
      ensures Valid() && Contents() == old(Contents())[..offset] + src + old(Contents())[offset..]
    {
      ghost var was := Contents();
      var n := |src|;
      MoveUp(offset, n);
      assert data[..offset] == was[..offset];
      ghost var moved := data[offset + n..];
      assert moved[..len - offset] == data[offset + n..len + n + 1][..len - offset] == was[offset..];
      Copy(offset, src);
      Spliced(data[..], was, offset, src);
      len := len + n;
      assert data[..len] == data[..][..len];
    }

    /** pcs_buf_insert: splice at `offset`; an offset past the end leaves arbitrary bytes in between. */
    method Insert(offset: nat, src: seq<byte>)
      requires Valid()
      modifies this, data
      ensures Valid() && (data == old(data) || fresh(data))
      ensures src == [] ==> Contents() == old(Contents())
      ensures src != [] && offset <= old(len) ==>
                Contents() == old(Contents())[..offset] + src + old(Contents())[offset..]
      ensures src != [] && offset > old(len) ==>
                len == offset + |src| && Contents()[..old(len)] == old(Contents()) && Contents()[offset..] == src
    {
      if src == [] {
        return;
      }
      ghost var was := Contents();
      if len > offset {
        Enlarge(|src| + 1);
        assert data[..len] == was;
        InsertMiddle(offset, src);
      } else {
        Enlarge(offset + |src| - len + 1);
        assert data[..len] == was;
        Copy(offset, src);
        assert data[..offset][..len] == was;
        len := offset + |src|;
        data[len] := 0;
        assert data[..len][offset..] == src;
      }
    }
  }
}
