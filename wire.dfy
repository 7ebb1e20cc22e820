/** The connection's outgoing side: a socket that records each `write` call. */
module Wire {
  import opened Bytes

  class Stream {
    /** The buffers passed to `write`, in call order. */
    var writes: seq<seq<byte>>

    constructor ()
      ensures writes == []
    {
      writes := [];
    }

    /** The bytes the peer receives, in order. */
    function Sent(): seq<byte>
      reads this
    {
      Concat(writes)
    }

    /** One `write` call; the whole buffer is sent. */
    method Write(data: seq<byte>)
      modifies this
      ensures writes == old(writes) + [data]
      ensures Sent() == old(Sent()) + data
    {
      ConcatAppend(writes, [data]);
      writes := writes + [data];
    }
  }
}
