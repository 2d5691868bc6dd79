/** Unpacking a gzip body that arrives in chunks, with a zlib that cannot skip the header itself. */
module GzipWriter {
  import opened Bytes
  import opened JsonValue
  import opened Sequences
  import opened Gzip

  /** `check_gzip_header`: the data pointer `i` and the remaining length `len` move together. */
  method CheckGzipHeader(data: seq<byte>) returns (r: Check)
    ensures r == CheckHeader(data)
  {
    var i: nat, len: int := 0, |data|;
    if len < 10 { return GzipUnderflow; }
    if data[0] != GZIP_MAGIC_0 || data[1] != GZIP_MAGIC_1 { return GzipBad; }
    var method_, flags := data[2], data[3];
    if method_ != Z_DEFLATED || flags >= RESERVED_FROM { return GzipBad; }
    len := len - 10;
    i := i + 10;
    if Flag(flags, EXTRA_FIELD) {
      if len < 2 { return GzipUnderflow; }
      var extraLen := data[i + 1] as int * 256 + data[i] as int;
      if len < extraLen + 2 { return GzipUnderflow; }
      len := len - (extraLen + 2);
      i := i + (extraLen + 2);
    }
    if Flag(flags, ORIG_NAME) {
      var ok;
      ok, i, len := SkipZeroEnded(data, i, len);
      if !ok { return GzipUnderflow; }
    }
    if Flag(flags, COMMENT) {
      var ok;
      ok, i, len := SkipZeroEnded(data, i, len);
      if !ok { return GzipUnderflow; }
    }
    if Flag(flags, HEAD_CRC) {
      if len < 2 { return GzipUnderflow; }
      len := len - 2;
    }
    return GzipOk(|data| - len);
  }

  /** The loop over a file name or a comment, and the step over the zero behind it. */
  method SkipZeroEnded(data: seq<byte>, i: nat, len: nat) returns (ok: bool, i': nat, len': nat)
    requires i + len == |data|
    ensures i' + len' == |data|
    ensures if ok then SkipText(data, i) == Some(i') else SkipText(data, i) == None
  {
    i', len' := i, len;
    while len' != 0 && data[i'] != 0
      invariant i' + len' == |data| && SkipText(data, i) == SkipText(data, i')
    {
      len' := len' - 1;
      i' := i' + 1;
    }
    if len' == 0 { return false, i', len'; }
    return true, i' + 1, len' - 1;
  }

  // ----- the states of Curl_unencode_gzip_write

  datatype ZlibInit = Uninit | Init | GzipHeader | GzipInflating

  datatype Code = CodeOk | BadContentEncoding

  /** `block` is the copy of an unfinished header; `handed` are the bytes that inflate has been given so far. */
  datatype Unzip = Unzip(init: ZlibInit, block: seq<byte>, handed: seq<byte>)

  const CLOSED := Unzip(Uninit, [], [])

  /** What the fields say about the bytes written since the state was opened. */
  ghost predicate Tells(u: Unzip, stream: seq<byte>) {
    match u.init
    case Uninit => stream == [] || CheckHeader(stream) == GzipBad
    case Init => stream == [] && u.block == [] && u.handed == []
    case GzipHeader => CheckHeader(stream) == GzipUnderflow && u.block == stream && u.handed == []
    case GzipInflating => CheckHeader(stream).GzipOk? && u.handed == stream[CheckHeader(stream).headerLen..]
  }

  /** One call. In the header state the bytes behind the header are addressed in the chunk, by an index
      that counts from the front of the block; it never lies before the chunk. */
  function Next(u: Unzip, chunk: seq<byte>): (Unzip, Code)
    requires u.init == GzipHeader ==> CheckHeader(u.block) == GzipUnderflow
  {
    match u.init
    case GzipInflating => (u.(handed := u.handed + chunk), CodeOk)
    case GzipHeader =>
      var block := u.block + chunk;
      MoreData(u.block, chunk);
      (match CheckHeader(block)
       case GzipOk(hlen) => (Unzip(GzipInflating, block, chunk[hlen + |chunk| - |block|..]), CodeOk)
       case GzipUnderflow => (Unzip(GzipHeader, block, []), CodeOk)
       case GzipBad => (Unzip(Uninit, block, []), BadContentEncoding))
    case _ =>
      match CheckHeader(chunk)
      case GzipOk(hlen) => (Unzip(GzipInflating, [], chunk[hlen..]), CodeOk)
      case GzipUnderflow => (Unzip(GzipHeader, chunk, []), CodeOk)
      case GzipBad => (Unzip(Uninit, [], []), BadContentEncoding)
  }

  /** The bytes that count after a call: a closed state starts again. */
  function Stream(u: Unzip, stream: seq<byte>, chunk: seq<byte>): seq<byte> {
    if u.init == Uninit then chunk else stream + chunk
  }

  lemma NextTells(u: Unzip, stream: seq<byte>, chunk: seq<byte>)
    requires Tells(u, stream)
    ensures var (u', code) := Next(u, chunk); var all := Stream(u, stream, chunk);
      && Tells(u', all)
      && (code == BadContentEncoding <==> CheckHeader(all) == GzipBad)
      && (code == BadContentEncoding <==> u'.init == Uninit)
  {
    hide CheckHeader;
    MoreData(stream, chunk);
    if u.init == Init { assert stream + chunk == chunk; }
    if u.init == GzipInflating {
      var h := CheckHeader(stream).headerLen;
      assert (stream + chunk)[h..] == stream[h..] + chunk;
    }
    if u.init == GzipHeader && CheckHeader(stream + chunk).GzipOk? {
      var h := CheckHeader(stream + chunk).headerLen;
      assert chunk[h - |stream|..] == (stream + chunk)[h..];
    }
  }

  /** All calls of a transfer; the first error ends it. */
  ghost function WriteAll(u: Unzip, stream: seq<byte>, chunks: seq<seq<byte>>): (Unzip, Code)
    requires Tells(u, stream)
    decreases |chunks|
  {
    if chunks == [] then (u, CodeOk)
    else
      NextTells(u, stream, chunks[0]);
      var (u', code) := Next(u, chunks[0]);
      if code == BadContentEncoding then (u', code)
      else WriteAll(u', Stream(u, stream, chunks[0]), chunks[1..])
  }

  /** However a stream is cut, inflate has been handed exactly what lies behind the header, or nothing
      while the header is unfinished; and the transfer fails exactly when the stream begins with no header. */
  lemma AnyCut(chunks: seq<seq<byte>>)
    ensures var (u, code) := WriteAll(CLOSED, [], chunks); var all := Concat(chunks);
      && (code == BadContentEncoding <==> CheckHeader(all) == GzipBad)
      && (CheckHeader(all).GzipOk? ==> u.handed == all[CheckHeader(all).headerLen..])
      && (CheckHeader(all).GzipUnderflow? ==> u.handed == [])
  {
    hide CheckHeader;
    if chunks == [] {
      Nothing();
    } else {
      NextTells(CLOSED, [], chunks[0]);
      var (u, code) := Next(CLOSED, chunks[0]);
      MoreData(chunks[0], Concat(chunks[1..]));
      if code == CodeOk { CutFrom(u, chunks[0], chunks[1..]); }
    }
  }

  lemma Nothing()
    ensures CheckHeader([]) == GzipUnderflow
  {
  }

  lemma {:induction false} CutFrom(u: Unzip, stream: seq<byte>, chunks: seq<seq<byte>>)
    requires Tells(u, stream) && u.init != Uninit
    ensures var (u', code) := WriteAll(u, stream, chunks); var all := stream + Concat(chunks);
      && (code == BadContentEncoding <==> CheckHeader(all) == GzipBad)
      && (code == CodeOk ==> Tells(u', all) && u'.init != Uninit)
    decreases |chunks|
  {
    hide CheckHeader;
    if chunks == [] {
      assert stream + Concat(chunks) == stream;
      Nothing();
    } else {
      var more := stream + chunks[0];
      assert stream + Concat(chunks) == more + Concat(chunks[1..]);
      NextTells(u, stream, chunks[0]);
      var (u', code) := Next(u, chunks[0]);
      MoreData(more, Concat(chunks[1..]));
      if code == CodeOk { CutFrom(u', more, chunks[1..]); }
    }
  }

  class GzipWriter {
    var zlibInit: ZlibInit
    var block: seq<byte>
    ghost var handed: seq<byte>
    ghost var stream: seq<byte>

    ghost predicate Valid()
      reads this
    {
      Tells(Unzip(zlibInit, block, handed), stream)
    }

    constructor ()
      ensures Valid() && zlibInit == Uninit && stream == []
    {
      zlibInit, block, handed, stream := Uninit, [], [], [];
    }

    /** `inflate_stream` as a consumer that takes all bytes it is given and asks for more. */
    ghost method Inflate(data: seq<byte>)
      modifies `handed
      ensures handed == old(handed) + data
    {
      handed := handed + data;
    }

    ghost function Now(): Unzip
      reads this
    {
      Unzip(zlibInit, block, handed)
    }

    /** `Curl_unencode_gzip_write`. */
    method Write(chunk: seq<byte>) returns (code: Code)
      requires Valid()
      modifies this
      ensures Valid() && stream == Stream(old(Now()), old(stream), chunk)
      ensures (Now(), code) == Next(old(Now()), chunk)
    {
      hide CheckHeader;
      NextTells(Now(), stream, chunk);
      MoreData(stream, chunk);
      var nread := |chunk|;
      var nextIn, availIn := 0, nread;
      if zlibInit == Uninit {
        zlibInit, block, handed, stream := Init, [], [], [];
      }
      stream := stream + chunk;
      match zlibInit {
        case Init =>
          assert stream == chunk;
          var r := CheckGzipHeader(chunk);
          match r {
            case GzipOk(hlen) =>
              nextIn, availIn := hlen, nread - hlen;
              zlibInit := GzipInflating;
            case GzipUnderflow =>
              block := chunk;
              zlibInit := GzipHeader;
              return CodeOk;
            case GzipBad =>
              zlibInit := Uninit;
              return BadContentEncoding;
          }
        case GzipHeader =>
          block := block + chunk;
          availIn := |block|;
          var r := CheckGzipHeader(block);
          match r {
            case GzipOk(hlen) =>
              nextIn := hlen + nread - availIn;
              availIn := availIn - hlen;
              zlibInit := GzipInflating;
            case GzipUnderflow =>
              return CodeOk;
            case GzipBad =>
              zlibInit := Uninit;
              return BadContentEncoding;
          }
        case _ =>
      }
      assert nextIn + availIn == |chunk|;
      if availIn == 0 { return CodeOk; }
      Inflate(chunk[nextIn..]);
      return CodeOk;
    }
  }
}
