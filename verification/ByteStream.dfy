/** The two halves of a QUIC or TCP byte stream, as the code that uses them sees them: writes
    append until the transport fails, reads return the bytes in arbitrary chunks. */
module ByteStream {
  import opened Basics

  /** The sending half. The transport takes `budget` more bytes, then every write fails. */
  class SendStream {
    var written: bytes
    var budget: nat

    constructor (budget: nat)
      ensures this.written == [] && this.budget == budget
    {
      this.written := [];
      this.budget := budget;
    }

    /** `write_all`: on failure, the part that fitted has been written. */
    method WriteAll(b: bytes) returns (ok: bool)
      modifies this
      ensures ok <==> |b| <= old(budget)
      ensures written == old(written) + b[..Min(|b|, old(budget))]
      ensures budget == old(budget) - Min(|b|, old(budget))
    {
      var n := Min(|b|, budget);
      written := written + b[..n];
      budget := budget - n;
      ok := n == |b|;
    }

    /** One `write`, which takes at most `pace` bytes; none when the transport has failed. */
    method Write(b: bytes, pace: nat) returns (n: nat)
      modifies this
      ensures n == Min(|b|, Min(pace, old(budget)))
      ensures written == old(written) + b[..n] && budget == old(budget) - n
    {
      n := Min(|b|, Min(pace, budget));
      written := written + b[..n];
      budget := budget - n;
    }
  }

  /** The receiving half: the chunks that have yet to be read. After the last one the stream
      is at its end. */
  class RecvStream {
    var chunks: seq<bytes>

    constructor (chunks: seq<bytes>)
      ensures this.chunks == chunks
    {
      this.chunks := chunks;
    }

    ghost function Unread(): bytes
      reads this
    {
      Flatten(chunks)
    }

    /** One `read`: at most `max` bytes of the next non-empty chunk, or nothing at the end. */
    method Read(max: nat) returns (b: bytes)
      requires max > 0
      modifies this
      ensures |b| <= max
      ensures old(Unread()) == b + Unread()
      ensures b == [] ==> Unread() == []
    {
      while chunks != [] && chunks[0] == []
        invariant Unread() == old(Unread())
        decreases |chunks|
      {
        chunks := chunks[1..];
      }
      if chunks == [] {
        b := [];
      } else {
        var first := chunks[0];
        var n := Min(max, |first|);
        b := first[..n];
        ghost var tail := chunks[1..];
        chunks := [first[n..]] + chunks[1..];
        assert chunks[1..] == tail;
        assert first == first[..n] + first[n..];
      }
    }

    /** `read_exact`: all `n` bytes, however many reads they take, or a failure at the end. */
    method ReadExact(n: nat) returns (r: Option<bytes>)
      modifies this
      ensures n <= |old(Unread())| ==>
                r == Some(old(Unread())[..n]) && Unread() == old(Unread())[n..]
      ensures n > |old(Unread())| ==> r.None? && Unread() == []
    {
      var got: bytes := [];
      while |got| < n
        invariant |got| <= n
        invariant old(Unread()) == got + Unread()
        decreases n - |got|
      {
        var b := Read(n - |got|);
        if b == [] {
          return None;
        }
        assert got + (b + Unread()) == got + b + Unread();
        got := got + b;
      }
      r := Some(got);
    }
  }
}
