/**
 * The io.Writer the print functions write to, as an append-only log of the
 * chunks written, in the order they were written.
 */
module Writers {

  class Writer {
    var log: seq<string>

    constructor ()
      ensures log == []
    {
      log := [];
    }

    /** One write: the chunk is appended and its length reported. */
    method Write(chunk: string) returns (n: nat)
      modifies this
      ensures log == old(log) + [chunk]
      ensures n == |chunk|
    {
      log := log + [chunk];
      n := |chunk|;
    }
  }

  /** The text a terminal receives from a log of chunks. */
  function Concat(chunks: seq<string>): string {
    if |chunks| == 0 then "" else chunks[0] + Concat(chunks[1..])
  }

  /** The text of a log of one chunk. */
  lemma ConcatOne(a: string)
    ensures Concat([a]) == a
  {
    assert Concat([a]) == a + Concat([]);
  }

  /** The text of a log of two chunks. */
  lemma ConcatTwo(a: string, b: string)
    ensures Concat([a, b]) == a + b
  {
    assert [a, b][1..] == [b];
    ConcatOne(b);
  }

  /** The text of a log of three chunks. */
  lemma ConcatThree(a: string, b: string, c: string)
    ensures Concat([a, b, c]) == a + b + c
  {
    assert [a, b, c][1..] == [b, c];
    ConcatTwo(b, c);
  }
}
