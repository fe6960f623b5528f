/** Moving whole buffers over a kernel that transfers as few bytes per call as it likes. */
module Transport {
  import opened Bytes

  const MAX_RETRIES: nat := 10

  /** How many bytes the `count` calls from call `from` on are willing to move. */
  function Offered(kernel: nat -> nat, from: nat, count: nat): nat {
    if count == 0 then 0 else Offered(kernel, from, count - 1) + kernel(from + (count - 1))
  }

  /**
   One end of a connection. `kernel` is an arbitrary schedule: its k-th call moves at most `kernel(k)`
   bytes. `outgoing` is what the kernel has accepted, `incoming` what the other side has sent and this
   side has not received. `stalls` counts the calls that moved nothing.
   */
  class Socket {
    const kernel: nat -> nat
    var calls: nat
    var outgoing: seq<byte>
    var incoming: seq<byte>
    ghost var stalls: nat

    constructor (kernel: nat -> nat)
      ensures this.kernel == kernel && outgoing == [] && incoming == []
    {
      this.kernel := kernel;
      calls, outgoing, incoming, stalls := 0, [], [], 0;
    }

    /** `::send`. */
    method KernelSend(data: seq<byte>) returns (s: nat)
      modifies this`calls, this`outgoing, this`stalls
      ensures s <= |data| && s <= kernel(old(calls)) && (s < |data| ==> s == kernel(old(calls)))
      ensures outgoing == old(outgoing) + data[..s]
      ensures calls == old(calls) + 1 && stalls == old(stalls) + (if s == 0 then 1 else 0)
    {
      s := if kernel(calls) < |data| then kernel(calls) else |data|;
      outgoing := outgoing + data[..s];
      calls := calls + 1;
      stalls := stalls + (if s == 0 then 1 else 0);
    }

    /** `::recv` into `buf[from..from + len]`. */
    method KernelRecv(buf: array<byte>, from: nat, len: nat) returns (r: nat)
      requires from + len <= buf.Length
      modifies this`calls, this`incoming, this`stalls, buf
      ensures r <= len && r <= |old(incoming)| && r <= kernel(old(calls))
      ensures r < len && r < |old(incoming)| ==> r == kernel(old(calls))
      ensures incoming == old(incoming)[r..]
      ensures buf[..] == old(buf[..from]) + old(incoming)[..r] + old(buf[from + r..])
      ensures calls == old(calls) + 1 && stalls == old(stalls) + (if r == 0 then 1 else 0)
    {
      r := if kernel(calls) < len then kernel(calls) else len;
      r := if |incoming| < r then |incoming| else r;
      forall i | 0 <= i < r {
        buf[from + i] := incoming[i];
      }
      incoming := incoming[r..];
      calls := calls + 1;
      stalls := stalls + (if r == 0 then 1 else 0);
    }

    /**
     `ServerSocket::send` and `ClientSocket::send`: true exactly when all of `data` was accepted, in
     order; false exactly when ten calls moved nothing before that.
     */
    method Send(data: seq<byte>) returns (ok: bool)
      modifies this`calls, this`outgoing, this`stalls
      ensures ok <==> outgoing == old(outgoing) + data
      ensures outgoing <= old(outgoing) + data && old(outgoing) <= outgoing
      ensures if ok then old(stalls) <= stalls < old(stalls) + 10 else stalls == old(stalls) + 10
    {
      var retries, sent := 0, 0;
      while retries < MAX_RETRIES && sent < |data|
        invariant 0 <= sent <= |data| && 0 <= retries <= MAX_RETRIES
        invariant retries == MAX_RETRIES ==> sent < |data|
        invariant outgoing == old(outgoing) + data[..sent]
        invariant stalls == old(stalls) + retries
        decreases |data| - sent + MAX_RETRIES - retries
      {
        var s := KernelSend(data[sent..]);
        assert data[..sent] + data[sent..][..s] == data[..sent + s];
        sent := sent + s;
        if s < 1 {
          retries := retries + 1;
        }
      }
      assert data[..|data|] == data;
      return retries != MAX_RETRIES;
    }

    /** `ServerSocket::recv`: true exactly when `len` bytes arrived; false exactly after ten empty calls. */
    method RecvBounded(buf: array<byte>, len: nat) returns (ok: bool)
      requires len <= buf.Length
      modifies this`calls, this`incoming, this`stalls, buf
      ensures ok <==> |incoming| + len == |old(incoming)|
      ensures |old(incoming)| - len <= |incoming| <= |old(incoming)|
      ensures old(incoming) == buf[..|old(incoming)| - |incoming|] + incoming
      ensures buf[|old(incoming)| - |incoming|..] == old(buf[..])[|old(incoming)| - |incoming|..]
      ensures if ok then old(stalls) <= stalls < old(stalls) + 10 else stalls == old(stalls) + 10
    {
      var retries, received := 0, 0;
      while retries < MAX_RETRIES && received < len
        invariant 0 <= received <= len && 0 <= retries <= MAX_RETRIES
        invariant retries == MAX_RETRIES ==> received < len
        invariant old(incoming) == buf[..received] + incoming
        invariant buf[received..] == old(buf[..])[received..]
        invariant stalls == old(stalls) + retries
        decreases len - received + MAX_RETRIES - retries
      {
        var r := KernelRecv(buf, received, len - received);
        received := received + r;
        if r < 1 {
          retries := retries + 1;
        }
      }
      return retries != MAX_RETRIES;
    }

    /**
     `ClientSocket::recv` has no bound on its retries. This is the call as seen after `patience` calls of
     the kernel: still waiting exactly when too few bytes are on their way or the kernel has offered too
     few, and else returned with all bytes, answering false exactly when ten calls moved nothing.
     */
    method RecvUnbounded(buf: array<byte>, len: nat, patience: nat) returns (r: Waiting)
      requires len <= buf.Length
      modifies this`calls, this`incoming, this`stalls, buf
      ensures r.StillWaiting? <==> |old(incoming)| < len || Offered(kernel, old(calls), patience) < len
      ensures r.Returned? ==> old(incoming) == buf[..len] + incoming && buf[len..] == old(buf[..])[len..]
      ensures r.Returned? ==> stalls >= old(stalls) && (r.ok <==> stalls != old(stalls) + 10)
    {
      var retries, received, from := 0, 0, calls;
      while received < len && calls < from + patience
        invariant 0 <= received <= len && 0 <= retries && from <= calls <= from + patience
        invariant received == Least(len, Least(|old(incoming)|, Offered(kernel, from, calls - from)))
        invariant old(incoming) == buf[..received] + incoming
        invariant buf[received..] == old(buf[..])[received..]
        invariant stalls == old(stalls) + retries
        decreases from + patience - calls
      {
        var n := KernelRecv(buf, received, len - received);
        received := received + n;
        if n < 1 {
          retries := retries + 1;
        }
      }
      OfferedGrows(kernel, from, calls - from, patience);
      return if received < len then StillWaiting else Returned(retries != MAX_RETRIES);
    }
  }

  datatype Waiting = StillWaiting | Returned(ok: bool)

  function Least(a: nat, b: nat): nat {
    if a < b then a else b
  }

  lemma {:induction false} OfferedGrows(kernel: nat -> nat, from: nat, few: nat, many: nat)
    requires few <= many
    ensures Offered(kernel, from, few) <= Offered(kernel, from, many)
  {
    if few < many {
      OfferedGrows(kernel, from, few, many - 1);
    }
  }

  /**
   Whatever the two kernels do, frames that are all sent and all received, with the same lengths, arrive
   as they were sent, unless one of the kernels moves nothing in ten calls.
   */
  method Exchange(sender: Socket, receiver: Socket, frames: seq<Frame>) returns (ok: bool, received: seq<Frame>)
    requires sender != receiver && sender.outgoing == [] && receiver.incoming == []
    modifies sender, receiver
    ensures ok ==> received == frames && receiver.incoming == []
    ensures !ok ==> received <= frames
    ensures !ok ==> sender.stalls >= old(sender.stalls) + 10 || receiver.stalls >= old(receiver.stalls) + 10
  {
    received := [];
    for i := 0 to |frames|
      invariant sender.outgoing == Flatten(frames[..i]) && sender.stalls >= old(sender.stalls)
      invariant receiver.stalls == old(receiver.stalls)
    {
      assert frames[..i + 1] == frames[..i] + [frames[i]];
      FlattenAppend(frames[..i], frames[i]);
      var sent := sender.Send(frames[i]);
      if !sent { return false, []; }
    }
    receiver.incoming := sender.outgoing;
    assert frames[..|frames|] == frames && frames[0..] == frames;
    for i := 0 to |frames|
      invariant received == frames[..i] && receiver.incoming == Flatten(frames[i..])
      invariant receiver.stalls >= old(receiver.stalls)
    {
      assert frames[i..][0] == frames[i] && frames[i..][1..] == frames[i + 1..];
      var buf := new byte[|frames[i]|];
      ghost var before := receiver.incoming;
      var got := receiver.RecvBounded(buf, buf.Length);
      if !got { return false, received; }
      assert before[..buf.Length] == buf[..] && before[..buf.Length] == frames[i];
      assert receiver.incoming == before[buf.Length..];
      received := received + [buf[..]];
    }
    return true, received;
  }
}
