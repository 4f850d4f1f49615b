/**
 * The two I/O boundaries of the core, abstracted.
 *
 * A byte source (`io.Reader`) is a finite sequence of chunks that arrive in
 * order and are followed by end of stream.  A byte sink (`io.Writer`) is an
 * append-only octet sequence; any single write may fail, in which case it
 * appends nothing.
 */
module Streams {
  import opened Wrappers

  /** Everything a source delivers, in order. */
  function Flatten(chunks: seq<seq<char>>): (data: seq<char>)
  {
    if |chunks| == 0 then [] else chunks[0] + Flatten(chunks[1..])
  }

  /** Why a read delivers nothing: the stream has ended, or it broke. */
  datatype ReadError = EndOfStream | ReadFailure

  /** The chunks still to come once the first m octets of the first chunk are read. */
  function AfterRead(chunks: seq<seq<char>>, m: nat): seq<seq<char>>
    requires |chunks| > 0 && m <= |chunks[0]|
  {
    if m == |chunks[0]| then chunks[1..] else [chunks[0][m..]] + chunks[1..]
  }

  /** A read takes its octets from the front of the stream and leaves the rest in order. */
  lemma {:induction false} FlattenAfterRead(chunks: seq<seq<char>>, m: nat)
    requires |chunks| > 0 && m <= |chunks[0]|
    ensures Flatten(chunks) == chunks[0][..m] + Flatten(AfterRead(chunks, m))
  {
    var head := chunks[0];
    var tail := Flatten(chunks[1..]);
    assert Flatten(chunks) == head + tail;
    if m == |head| {
      assert head[..m] == head;
    } else {
      var rest := [head[m..]] + chunks[1..];
      assert rest[0] == head[m..] && rest[1..] == chunks[1..];
      assert Flatten(rest) == head[m..] + tail;
      assert head == head[..m] + head[m..];
      assert head + tail == head[..m] + (head[m..] + tail);
    }
  }

  /**
   * An `io.Reader`: the chunks it has still to deliver, and whether the
   * stream ends in a failure rather than at end of file.
   */
  class Reader {
    var chunks: seq<seq<char>>
    const failsAtEnd: bool

    constructor (chunks: seq<seq<char>>, failsAtEnd: bool)
      ensures this.chunks == chunks && this.failsAtEnd == failsAtEnd
    {
      this.chunks := chunks;
      this.failsAtEnd := failsAtEnd;
    }

    /**
     * `Read(p[start:])`: once the chunks are used up, no octet and the error
     * that ends the stream; otherwise as much of the next chunk as fits, put
     * at p[start..], and nothing else of p changes.
     */
    method Read(p: array<char>, start: nat) returns (n: nat, err: Option<ReadError>)
      requires start <= p.Length
      modifies this, p
      ensures old(chunks) == [] ==>
                n == 0 && err == Some(if failsAtEnd then ReadFailure else EndOfStream)
                && chunks == old(chunks) && p[..] == old(p[..])
      ensures old(chunks) != [] ==>
                err == None && start + n <= p.Length
                && n == (if |old(chunks)[0]| <= p.Length - start then |old(chunks)[0]| else p.Length - start)
                && chunks == AfterRead(old(chunks), n)
                && Flatten(old(chunks)) == old(chunks)[0][..n] + Flatten(chunks)
      ensures forall i :: 0 <= i < p.Length ==>
                p[i] == if start <= i < start + n then old(chunks)[0][i - start] else old(p[i])
    {
      if chunks == [] {
        return 0, Some(if failsAtEnd then ReadFailure else EndOfStream);
      }
      var head := chunks[0];
      n := if |head| <= p.Length - start then |head| else p.Length - start;
      forall i | 0 <= i < n {
        p[start + i] := head[i];
      }
      FlattenAfterRead(chunks, n);
      chunks := AfterRead(chunks, n);
      err := None;
    }
  }

  /** An `io.Writer`: what has been written so far. */
  class Sink {
    var written: seq<char>

    constructor ()
      ensures written == []
    {
      written := [];
    }

    /**
     * Writes p in full or fails without writing; which of the two happens is
     * decided by the environment (a closed connection, say).
     */
    method Write(p: seq<char>) returns (failed: bool)
      modifies this
      ensures written == if failed then old(written) else old(written) + p
    {
      failed := *;
      if !failed {
        written := written + p;
      }
    }
  }
}
