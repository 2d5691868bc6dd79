/** The growing character buffer that text is collected in. */
module PrintBuf {
  import opened JsonValue

  class PrintBuf {
    var buf: array<char>
    var bpos: int

    /** The C field `size` is the length of `buf`. */
    ghost predicate Valid()
      reads this
    {
      0 <= bpos < buf.Length
    }

    /** The text is followed by a NUL, so it can be read as a C string. */
    ghost predicate Terminated()
      reads this, buf
    {
      Valid() && buf[bpos] == NUL
    }

    ghost function Contents(): string
      reads this, buf
      requires Valid()
    {
      buf[..bpos]
    }

    constructor ()
      ensures Valid() && Contents() == "" && fresh(buf) && buf.Length == 32
    {
      buf := new char[32];
      bpos := 0;
    }

    /** `memcpy` of `s` to the end of the text, and the terminator behind it. */
    method Store(s: string)
      requires Valid() && bpos + |s| < buf.Length
      modifies this`bpos, buf
      ensures Terminated() && Contents() == old(Contents()) + s
    {
      forall i | 0 <= i < |s| {
        buf[bpos + i] := s[i];
      }
      bpos := bpos + |s|;
      buf[bpos] := NUL;
    }

    /** `printbuf_memappend`: grow when the text and its terminator do not fit, to twice the size, or to eight more
        than is needed if that is greater. */
    method Append(s: string)
      requires Valid()
      modifies this, buf
      ensures Terminated() && Contents() == old(Contents()) + s
      ensures if old(buf.Length) - old(bpos) > |s| then buf == old(buf)
        else
          && fresh(buf) && buf.Length >= 2 * old(buf.Length) && buf.Length >= old(bpos) + |s| + 8
          && (buf.Length == 2 * old(buf.Length) || buf.Length == old(bpos) + |s| + 8)
    {
      if buf.Length - bpos <= |s| {
        var newSize := if buf.Length * 2 > bpos + |s| + 8 then buf.Length * 2 else bpos + |s| + 8;
        var t := new char[newSize];
        forall i | 0 <= i < buf.Length {
          t[i] := buf[i];
        }
        assert t[..bpos] == buf[..bpos];
        buf := t;
      }
      Store(s);
    }

    /** The macro `printbuf_memappend_fast` copies in place when there is room and else calls the function. */
    method AppendFast(s: string)
      requires Valid()
      modifies this, buf
      ensures Terminated() && Contents() == old(Contents()) + s
      ensures buf == old(buf) || fresh(buf)
    {
      if buf.Length - bpos > |s| {
        Store(s);
      } else {
        Append(s);
      }
    }

    method Reset()
      requires Valid()
      modifies this`bpos, buf
      ensures Terminated() && Contents() == ""
    {
      buf[0] := NUL;
      bpos := 0;
    }

    /** What `strdup` makes of the buffer: the characters before the first NUL. */
    method CopyString() returns (s: string)
      requires Terminated()
      ensures s == CString(Contents())
    {
      var n := 0;
      while buf[n] != NUL
        invariant 0 <= n <= bpos
        invariant forall i :: 0 <= i < n ==> buf[i] != NUL
        decreases bpos - n
      {
        n := n + 1;
      }
      CStringEnds(Contents(), n);
      s := buf[..n];
      assert s == Contents()[..n];
    }
  }
}
