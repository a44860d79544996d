/** Reading what a file holds past a remembered byte offset. Two readers:
    `ToEnd` is the one the program uses (seek to the offset, read every
    line up to the end of file, remember the file length); `WholeLines`
    reads only the complete lines and leaves an unfinished last line for
    the next read. */
module Tail {
  import opened Bytes
  import opened Text

  datatype Reader = ToEnd | WholeLines

  /** The lines one read yields and the offset remembered after it. */
  datatype Chunk = Chunk(lines: seq<Line>, next: nat)

  /** The bytes from `pos` to the end of `data`; a seek at or past the end
      of the file reads nothing. */
  function Span(data: seq<Byte>, pos: nat): (x: seq<Byte>)
    ensures pos <= |data| ==> x == data[pos..]
    ensures |data| <= pos ==> x == []
  {
    if pos <= |data| then data[pos..] else []
  }

  /** One read of `data` from offset `pos`. The `ToEnd` clause is the
      definition of the program's reader; the other clauses bound the
      offset for both readers and say what the corrected reader reads. */
  function Read(reader: Reader, data: seq<Byte>, pos: nat): (c: Chunk)
    ensures c.next <= |data|
    ensures pos <= |data| ==> pos <= c.next
    ensures |data| < pos ==> c == Chunk([], |data|)
    ensures reader == ToEnd ==> c == Chunk(Lines(Span(data, pos)), |data|)
    ensures reader == WholeLines && pos <= |data| ==>
              && AtLineBoundary(data[pos..c.next])
              && (forall i :: c.next <= i < |data| ==> data[i] != LF)
              && c.lines == Lines(data[pos..c.next])
  {
    match reader
    case ToEnd => Chunk(Lines(Span(data, pos)), |data|)
    case WholeLines =>
      if |data| < pos then Chunk([], |data|)
      else
        var x := data[pos..];
        var c := CompleteEnd(x);
        assert x[..c] == data[pos..pos + c];
        assert forall i :: pos + c <= i < |data| ==> data[i] == x[i - pos];
        Chunk(Lines(x[..c]), pos + c)
  }
}
