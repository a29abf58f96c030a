/** Buffer.hpp: a byte queue inside one block of memory, which it compacts or grows. */
module BufferModel {
  const BUFFER_DEFAULT_SIZE: nat := 1024
  const BUFFER_MAX_SIZE: nat := 1024 * 1024

  // ----- Where the readable bytes lie

  datatype Shape = Shape(size: nat, reader: nat, writer: nat)

  predicate ShapeOk(s: Shape) { s.reader <= s.writer <= s.size && BUFFER_DEFAULT_SIZE <= s.size <= BUFFER_MAX_SIZE }

  function TailIdle(s: Shape): nat
    requires ShapeOk(s)
  {
    s.size - s.writer
  }

  /** EnsureWriteSpace: leave, compact, or grow. */
  function Ensured(s: Shape, len: nat): Shape
    requires ShapeOk(s)
  {
    if len <= TailIdle(s) then s
    else if len <= s.reader + TailIdle(s) then Shape(s.size, 0, s.writer - s.reader)
    else
      var size := if s.size * 2 >= s.writer + len then s.size * 2 else s.writer + len;
      Shape(if size > BUFFER_MAX_SIZE then BUFFER_MAX_SIZE else size, s.reader, s.writer)
  }

  /** A write of len bytes has room: in the idle space, or behind the written bytes
      within the size limit. */
  predicate Fits(s: Shape, len: nat)
    requires ShapeOk(s)
  {
    len <= s.reader + TailIdle(s) || s.writer + len <= BUFFER_MAX_SIZE
  }

  /** EnsureWriteSpace provides the space exactly when the write fits; it never shrinks
      the block, never exceeds 1 MiB and keeps the readable size. */
  lemma EnsuredExact(s: Shape, len: nat)
    requires ShapeOk(s)
    ensures var t := Ensured(s, len);
      ShapeOk(t) && s.size <= t.size && t.writer - t.reader == s.writer - s.reader &&
      (len <= TailIdle(t) <==> Fits(s, len))
  {
  }

  /** The clamp refuses a write that a compacted block would hold. */
  lemma ClampIgnoresHead()
    ensures var s := Shape(BUFFER_MAX_SIZE / 2, 8, BUFFER_MAX_SIZE / 2);
      var len := BUFFER_MAX_SIZE / 2 + 8;
      ShapeOk(s) && !Fits(s, len) && Holdable(s, len)
  {
  }

  /** A compacted block of 1 MiB would hold the readable bytes and len more. */
  predicate Holdable(s: Shape, len: nat)
    requires ShapeOk(s)
  {
    s.writer - s.reader + len <= BUFFER_MAX_SIZE
  }

  /** Every write that a compacted block would hold fits, exactly if nothing has been read
      out of the block or it has its full size. */
  lemma ClampExact(s: Shape)
    requires ShapeOk(s)
    ensures (forall len: nat :: Holdable(s, len) ==> Fits(s, len)) <==> s.reader == 0 || s.size == BUFFER_MAX_SIZE
  {
    var most := BUFFER_MAX_SIZE - (s.writer - s.reader);
    assert Holdable(s, most);
  }

  // ----- Lines

  /** Up to and including the first LF; empty if there is none. */
  function LineOf(s: string): (line: string)
    ensures line <= s
    ensures line == "" <==> '\n' !in s
    ensures line != "" ==> line[|line| - 1] == '\n' && '\n' !in line[..|line| - 1]
  {
    if s == "" then ""
    else if s[0] == '\n' then s[..1]
    else
      var rest := LineOf(s[1..]);
      if rest == "" then "" else s[..1 + |rest|]
  }

  lemma {:induction false} LineOfIs(s: string, n: nat)
    requires n < |s| && s[n] == '\n' && '\n' !in s[..n]
    ensures LineOf(s) == s[..n + 1]
  {
    if n > 0 {
      assert s[0] == s[..n][0];
      assert s[1..][..n - 1] == s[..n][1..];
      LineOfIs(s[1..], n - 1);
      assert s[..1 + n] == [s[0]] + s[1..][..n];
    }
  }

  class Buffer {
    var data: array<char>
    var reader: nat
    var writer: nat

    ghost predicate Valid()
      reads this
    {
      ShapeOk(Where())
    }

    function Where(): Shape
      reads this
    {
      Shape(data.Length, reader, writer)
    }

    /** The readable bytes. */
    ghost function Contents(): string
      reads this, data
      requires Valid()
    {
      data[reader..writer]
    }

    constructor ()
      ensures Valid() && fresh(data) && Where() == Shape(BUFFER_DEFAULT_SIZE, 0, 0)
      ensures Contents() == ""
    {
      data := new char[BUFFER_DEFAULT_SIZE];
      reader, writer := 0, 0;
    }

    method ReadAbleSize() returns (n: nat)
      requires Valid()
      ensures n == |Contents()|
    {
      n := writer - reader;
    }

    method MoveReadOffset(len: nat)
      requires Valid() && len <= |Contents()|
      modifies this`reader
      ensures Valid() && Contents() == old(Contents())[len..]
      ensures Where() == old(Where()).(reader := old(reader) + len)
    {
      reader := reader + len;
    }

    method MoveWriteOffset(len: nat)
      requires Valid() && len <= TailIdle(Where())
      modifies this`writer
      ensures Valid() && Contents() == old(Contents()) + old(data[writer..writer + len])
      ensures Where() == old(Where()).(writer := old(writer) + len)
    {
      writer := writer + len;
    }

    method EnsureWriteSpace(len: nat)
      requires Valid()
      modifies this, data
      ensures Valid() && Contents() == old(Contents())
      ensures Where() == Ensured(old(Where()), len)
      ensures data == old(data) || fresh(data)
    {
      EnsuredExact(Where(), len);
      if len <= data.Length - writer {
        return;
      } else if len <= reader + (data.Length - writer) {
        MoveToFront();
      } else {
        var size := if data.Length * 2 >= writer + len then data.Length * 2 else writer + len;
        Resize(if size > BUFFER_MAX_SIZE then BUFFER_MAX_SIZE else size);
      }
    }

    /** memmove of the readable bytes to the front. */
    method MoveToFront()
      requires Valid()
      modifies this`reader, this`writer, data
      ensures Valid() && Contents() == old(Contents())
      ensures Where() == Shape(old(Where()).size, 0, old(Where()).writer - old(Where()).reader)
    {
      var n, r := writer - reader, reader;
      forall i | 0 <= i < n {
        data[i] := data[r + i];
      }
      reader, writer := 0, n;
    }

    /** vector::resize to a larger size. */
    method Resize(size: nat)
      requires Valid() && data.Length <= size <= BUFFER_MAX_SIZE
      modifies this`data
      ensures Valid() && Contents() == old(Contents()) && fresh(data)
      ensures Where() == Shape(size, reader, writer)
    {
      var more := new char[size];
      forall i | 0 <= i < data.Length {
        more[i] := data[i];
      }
      assert more[reader..writer] == data[reader..writer];
      data := more;
    }

    /** Puts bytes behind the readable ones, without making them readable. */
    method Write(bytes: string)
      requires Valid() && Fits(Where(), |bytes|)
      modifies this, data
      ensures Valid() && Contents() == old(Contents())
      ensures |bytes| <= TailIdle(Where()) && data[writer..writer + |bytes|] == bytes
      ensures Where() == if bytes == "" then old(Where()) else Ensured(old(Where()), |bytes|)
      ensures data == old(data) || fresh(data)
    {
      if bytes == "" {
        return;
      }
      hide Ensured, Fits;
      EnsuredExact(Where(), |bytes|);
      EnsureWriteSpace(|bytes|);
      Copy(bytes);
    }

    /** std::copy to the write position */
    method Copy(bytes: string)
      requires Valid() && |bytes| <= TailIdle(Where())
      modifies data
      ensures Contents() == old(Contents()) && data[writer..writer + |bytes|] == bytes
    {
      var w := writer;
      forall i | 0 <= i < |bytes| {
        data[w + i] := bytes[i];
      }
      ghost var copied := data[w..w + |bytes|];
      assert forall i :: 0 <= i < |bytes| ==> copied[i] == bytes[i];
    }

    method WriteAndPush(bytes: string)
      requires Valid() && Fits(Where(), |bytes|)
      modifies this, data
      ensures Valid() && Contents() == old(Contents()) + bytes
      ensures data == old(data) || fresh(data)
      ensures Where() == Pushed(old(Where()), |bytes|)
    {
      Write(bytes);
      MoveWriteOffset(|bytes|);
    }

    method Read(len: nat) returns (s: string)
      requires Valid() && len <= |Contents()|
      ensures s == Contents()[..len]
    {
      s := data[reader..reader + len];
    }

    method ReadAsStringAndPop(len: nat) returns (s: string)
      requires Valid() && len <= |Contents()|
      modifies this`reader
      ensures Valid() && s == old(Contents())[..len] && Contents() == old(Contents())[len..]
      ensures Where() == old(Where()).(reader := old(reader) + len)
    {
      s := Read(len);
      MoveReadOffset(len);
    }

    /** Copies another buffer's readable bytes, or its own. */
    method WriteBuffer(from: Buffer)
      requires Valid() && from.Valid() && (from == this || from.data != data)
      requires Fits(Where(), |from.Contents()|)
      modifies this, data
      ensures Valid() && Contents() == old(Contents())
      ensures from.Valid() && from.Contents() == old(from.Contents())
      ensures var n := |from.Contents()|; n <= TailIdle(Where()) && data[writer..writer + n] == from.Contents()
      ensures data == old(data) || fresh(data)
    {
      hide Ensured, Fits;
      var n := from.ReadAbleSize();
      var temp := from.Read(n);
      Write(temp);
    }

    method WriteBufferAndPush(from: Buffer)
      requires Valid() && from.Valid() && (from == this || from.data != data)
      requires Fits(Where(), |from.Contents()|)
      modifies this, data
      ensures Valid() && Contents() == old(Contents()) + old(from.Contents())
      ensures data == old(data) || fresh(data)
    {
      hide Ensured, Fits;
      WriteBuffer(from);
      var n := from.ReadAbleSize(); // after the bytes may have moved
      MoveWriteOffset(n);
    }

    /** memchr for LF: its place among the readable bytes, or their number. */
    method FindCRLF() returns (n: nat)
      requires Valid()
      ensures n <= |Contents()| && '\n' !in Contents()[..n]
      ensures n < |Contents()| ==> Contents()[n] == '\n'
    {
      n := 0;
      while reader + n < writer && data[reader + n] != '\n'
        invariant reader + n <= writer
        invariant forall i :: 0 <= i < n ==> Contents()[i] != '\n'
      {
        n := n + 1;
      }
    }

    method GetLine() returns (line: string)
      requires Valid()
      ensures line == LineOf(Contents())
    {
      var n := FindCRLF();
      if n == writer - reader {
        assert Contents()[..n] == Contents();
        return "";
      }
      LineOfIs(Contents(), n);
      line := Read(n + 1);
    }

    method GetLineAndPop() returns (line: string)
      requires Valid()
      modifies this`reader
      ensures Valid() && line == LineOf(old(Contents())) && Contents() == old(Contents())[|line|..]
      ensures Where() == old(Where()).(reader := old(reader) + |line|)
    {
      line := GetLine();
      MoveReadOffset(|line|);
    }

    /** Empties the queue and gives memory back. */
    method Clear()
      requires Valid()
      modifies this
      ensures Valid() && Contents() == "" && Where() == Shape(BUFFER_DEFAULT_SIZE, 0, 0)
      ensures data == old(data) || fresh(data)
    {
      reader, writer := 0, 0;
      if data.Length > BUFFER_DEFAULT_SIZE {
        data := new char[BUFFER_DEFAULT_SIZE];
      }
    }
  }

  function Pushed(s: Shape, len: nat): Shape
    requires ShapeOk(s)
  {
    var t := if len == 0 then s else Ensured(s, len);
    t.(writer := t.writer + len)
  }
}
