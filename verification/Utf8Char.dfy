/** UTF-8 encoding of one code point (pcs/utf8.c and the \u escapes of pcs/cJSON.c),
    section 3 of RFC 3629. */
module Utf8Char {
  import opened Wrappers

  const MAX_CODE := 0x110000

  /** The bytes of one code point; a value above the Unicode range has none. */
  function EncodeChar(ch: nat): (bs: seq<byte>)
    ensures |bs| == CharSize(ch)
  {
    if ch < 0x80 then [ch]
    else if ch < 0x800 then [0xC0 + ch / 64, 0x80 + ch % 64]
    else if ch < 0x10000 then [0xE0 + ch / 4096, 0x80 + ch / 64 % 64, 0x80 + ch % 64]
    else if ch < MAX_CODE then
      [0xF0 + ch / 262144, 0x80 + ch / 4096 % 64, 0x80 + ch / 64 % 64, 0x80 + ch % 64]
    else []
  }

  function CharSize(ch: nat): nat {
    if ch < 0x80 then 1 else if ch < 0x800 then 2 else if ch < 0x10000 then 3
    else if ch < MAX_CODE then 4 else 0
  }
}
