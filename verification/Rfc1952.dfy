/** What the header of a gzip member is (section 2.3 of RFC 1952), in the numbers of that document. */
module Rfc1952 {
  import opened Bytes
  import opened JsonValue

  /** `fixed` is the modification time, the extra flags and the operating system. */
  datatype Header = Header(flags: byte, fixed: seq<byte>, extra: Option<seq<byte>>,
    name: Option<seq<byte>>, comment: Option<seq<byte>>, crc: Option<seq<byte>>)

  predicate ZeroFree(s: seq<byte>) {
    forall i :: 0 <= i < |s| ==> s[i] != 0
  }

  // FTEXT, FHCRC, FEXTRA, FNAME and FCOMMENT are the bits of the flag byte, from the lowest on

  predicate HasCrc(flags: byte) { flags / 2 % 2 == 1 }

  predicate HasExtra(flags: byte) { flags / 4 % 2 == 1 }

  predicate HasName(flags: byte) { flags / 8 % 2 == 1 }

  predicate HasComment(flags: byte) { flags / 16 % 2 == 1 }

  /** The other bits are reserved and zero. */
  predicate WellFormed(h: Header) {
    && h.flags < 32 && |h.fixed| == 6
    && (h.extra.Some? <==> HasExtra(h.flags)) && (h.extra.Some? ==> |h.extra.value| < 65536)
    && (h.name.Some? <==> HasName(h.flags)) && (h.name.Some? ==> ZeroFree(h.name.value))
    && (h.comment.Some? <==> HasComment(h.flags)) && (h.comment.Some? ==> ZeroFree(h.comment.value))
    && (h.crc.Some? <==> HasCrc(h.flags)) && (h.crc.Some? ==> |h.crc.value| == 2)
  }

  function Bytes16(n: nat): seq<byte>
    requires n < 65536
  {
    [(n % 256) as byte, (n / 256) as byte]
  }

  function ExtraBytes(x: Option<seq<byte>>): seq<byte>
    requires x.Some? ==> |x.value| < 65536
  {
    if x.Some? then Bytes16(|x.value|) + x.value else []
  }

  function ZeroEnded(x: Option<seq<byte>>): seq<byte> {
    if x.Some? then x.value + [0] else []
  }

  function CrcBytes(x: Option<seq<byte>>): seq<byte> {
    if x.Some? then x.value else []
  }

  /** ID1, ID2, CM, FLG, MTIME, XFL, OS, and then the parts that the flags announce. */
  function HeaderBytes(h: Header): seq<byte>
    requires WellFormed(h)
  {
    [31, 139, 8, h.flags] + h.fixed
      + (ExtraBytes(h.extra) + (ZeroEnded(h.name) + (ZeroEnded(h.comment) + CrcBytes(h.crc))))
  }
}
