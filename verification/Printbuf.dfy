/** printbuf.c: a growable character buffer.  Its first bpos characters are what has been
    written; allocation is taken to succeed. */
module PrintbufModule {
  class Printbuf {
    var buf: array<char>
    var bpos: nat
    var size: nat

    ghost predicate Valid()
      reads this, buf
    {
      bpos <= size == buf.Length && size >= 32
    }

    /** What has been written. */
    ghost function Contents(): string
      reads this, buf
      requires Valid()
    {
      buf[..bpos]
    }

    /** printbuf_new */
    constructor ()
      ensures Valid() && fresh(buf) && Contents() == ""
    {
      buf := new char[32](_ => '\0');
      bpos, size := 0, 32;
    }

    /** printbuf_extend: at least minSize characters of room, nothing else changes. */
    method Extend(minSize: nat)
      requires Valid()
      modifies this`buf, this`size
      ensures Valid() && size >= minSize && size >= old(size)
      ensures buf == old(buf) || fresh(buf)
      ensures buf[..old(size)] == old(buf[..])
    {
      if size >= minSize {
        assert buf[..size] == buf[..];
        return;
      }
      var newSize := if size * 2 < minSize + 8 then minSize + 8 else size * 2;
      var t := new char[newSize](_ => '\0');
      forall i | 0 <= i < size { t[i] := buf[i]; }
      assert t[..size] == buf[..];
      buf, size := t, newSize;
    }

    /** printbuf_memappend */
    method MemAppend(s: string)
      requires Valid()
      modifies this, buf
      ensures Valid() && (buf == old(buf) || fresh(buf))
      ensures Contents() == old(Contents()) + s
      ensures bpos < size && buf[bpos] == '\0'
    {
      ghost var was := Contents();
      if size <= bpos + |s| + 1 {
        Extend(bpos + |s| + 1);
      }
      CopyIn(s);
      bpos := bpos + |s|;
      ghost var now := buf[..];
      buf[bpos] := '\0';
      assert buf[..bpos] == now[..bpos];
    }

    /** memcpy(p->buf + p->bpos, s, size) */
    method CopyIn(s: string)
      requires Valid() && bpos + |s| <= size
      modifies buf
      ensures buf[..bpos + |s|] == old(buf[..bpos]) + s
    {
      forall i | 0 <= i < |s| { buf[bpos + i] := s[i]; }
      assert buf[..bpos] == old(buf[..bpos]);
      assert buf[bpos..bpos + |s|] == s;
      assert buf[..bpos + |s|] == buf[..bpos] + buf[bpos..bpos + |s|];
    }

    /** The macro printbuf_memappend_fast. */
    method MemAppendFast(s: string)
      requires Valid()
      modifies this, buf
      ensures Valid() && (buf == old(buf) || fresh(buf))
      ensures Contents() == old(Contents()) + s
      ensures bpos < size && buf[bpos] == '\0'
    {
      if size - bpos > |s| {
        ghost var was := Contents();
        forall i | 0 <= i < |s| { buf[bpos + i] := s[i]; }
        assert buf[..bpos] == was && buf[bpos..bpos + |s|] == s;
        bpos := bpos + |s|;
        buf[bpos] := '\0';
        assert buf[..bpos] == was + s;
      } else {
        MemAppend(s);
      }
    }

    /** printbuf_memset; offset -1 stands for the end of what has been written.  It may
        leave no room for a NUL, and writes none. */
    method MemSet(offset: int, c: char, len: nat)
      requires Valid() && offset >= -1
      modifies this, buf
      ensures Valid() && (buf == old(buf) || fresh(buf))
      ensures var o := if offset == -1 then old(bpos) else offset;
              && bpos == (if old(bpos) < o + len then o + len else old(bpos))
              && (forall i | 0 <= i < bpos :: o <= i < o + len ==> buf[i] == c)
              && (forall i | 0 <= i < bpos && i < old(size) && !(o <= i < o + len) :: buf[i] == old(buf[i]))
      ensures offset == -1 ==> Contents() == old(Contents()) + seq(len, _ => c)
    {
      var o: nat := if offset == -1 then bpos else offset;
      var needed := o + len;
      if size < needed {
        Extend(needed);
      }
      assert forall i | 0 <= i < old(size) :: buf[..old(size)][i] == old(buf[..])[i];
      forall i | o <= i < needed { buf[i] := c; }
      if bpos < needed { bpos := needed; }
      if offset == -1 {
        assert buf[..bpos] == old(Contents()) + seq(len, _ => c);
      }
    }

    /** printbuf_reset */
    method Reset()
      requires Valid()
      modifies this`bpos, buf
      ensures Valid() && Contents() == ""
    {
      buf[0] := '\0';
      bpos := 0;
    }
  }
}
