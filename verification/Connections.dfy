/** One end of a connection, a whole send or receive at a time. */
module Connections {
  import opened Bytes

  class Connection {
    var incoming: seq<Frame>
    var outgoing: seq<Frame>

    constructor (incoming: seq<Frame>)
      ensures this.incoming == incoming && outgoing == []
    {
      this.incoming, outgoing := incoming, [];
    }

    method Send(data: Frame)
      modifies this`outgoing
      ensures outgoing == old(outgoing) + [data]
    {
      outgoing := outgoing + [data];
    }

    /** None: no message, or none of this length, is there to receive, and the call does not succeed. */
    method Recv(length: int) returns (data: Option<Frame>)
      modifies this`incoming
      ensures data.Some? <==> old(incoming) != [] && |old(incoming)[0]| == length
      ensures data.Some? ==> [data.value] + incoming == old(incoming)
      ensures data.None? ==> incoming == old(incoming)
    {
      if incoming == [] || |incoming[0]| != length { return None; }
      data := Some(incoming[0]);
      incoming := incoming[1..];
    }
  }
}
