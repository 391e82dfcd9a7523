/** The boundary buffers of a block through a communication round (tools/commbench/src/amr/bvar.cc). */
module Boundary {
  import opened Blocks

  /** The sizes of the entries that are chosen, and how many those are. */
  function SizeWhere(es: seq<NeighborBlock>, chosen: seq<bool>): int
    requires |chosen| >= |es|
  {
    if |es| == 0 then 0
    else SizeWhere(es[..|es| - 1], chosen) + if chosen[|es| - 1] then es[|es| - 1].msgSize else 0
  }

  function CountWhere(n: nat, chosen: seq<bool>): int
    requires |chosen| >= n
  {
    if n == 0 then 0 else CountWhere(n - 1, chosen) + if chosen[n - 1] then 1 else 0
  }

  function TotalSize(es: seq<NeighborBlock>): int
  {
    if |es| == 0 then 0 else TotalSize(es[..|es| - 1]) + es[|es| - 1].msgSize
  }

  function Flipped(chosen: seq<bool>): (f: seq<bool>)
    ensures |f| == |chosen| && forall k :: 0 <= k < |f| ==> f[k] == !chosen[k]
  {
    seq(|chosen|, k requires 0 <= k < |chosen| => !chosen[k])
  }

  /** What is not counted the first time is counted the second time. */
  lemma {:induction false} TwiceCoversAll(es: seq<NeighborBlock>, chosen: seq<bool>)
    requires |chosen| >= |es|
    ensures SizeWhere(es, chosen) + SizeWhere(es, Flipped(chosen)) == TotalSize(es)
    ensures CountWhere(|es|, chosen) + CountWhere(|es|, Flipped(chosen)) == |es|
  {
    if |es| > 0 {
      TwiceCoversAll(es[..|es| - 1], chosen);
    }
  }

  class BoundaryVariable {
    const snd: seq<NeighborBlock>
    const rcv: seq<NeighborBlock>
    const flag: array<bool>        // arrived
    const posted: array<bool>      // the receive request is started and not complete
    const sendSize: array<int>
    const recvSize: array<int>
    var bytesSent: int
    var bytesRcvd: int
    var sendCnt: int
    var recvCnt: int

    ghost predicate Shaped()
    {
      && flag.Length == posted.Length == sendSize.Length == recvSize.Length == MAX_NEIGHBOR
      && flag != posted && sendSize != recvSize
      && IsPaired(snd, rcv) && 2 * |snd| <= MAX_NEIGHBOR
    }

    /** The buffers' sizes are those of the entries. */
    ghost predicate IsSetUp()
      reads sendSize, recvSize
    {
      && Shaped()
      && (forall k :: 0 <= k < |snd| ==> sendSize[snd[k].bufId] == snd[k].msgSize)
      && (forall k :: 0 <= k < |rcv| ==> recvSize[rcv[k].bufId] == rcv[k].msgSize)
    }

    /** The receives' flags and requests. */
    ghost predicate Flags(arrived: seq<bool>)
      requires Shaped() && |arrived| >= |rcv|
      reads flag
    {
      forall k :: 0 <= k < |rcv| ==> flag[rcv[k].bufId] == arrived[k]
    }

    ghost predicate Requests(active: seq<bool>)
      requires Shaped() && |active| >= |rcv|
      reads posted
    {
      forall k :: 0 <= k < |rcv| ==> posted[rcv[k].bufId] == active[k]
    }

    /** Between rounds: nothing has arrived and no receive is active. */
    ghost predicate Idle()
      requires Shaped()
      reads flag, posted
    {
      Flags(seq(|rcv|, _ => false)) && Requests(seq(|rcv|, _ => false))
    }

    constructor (snd: seq<NeighborBlock>, rcv: seq<NeighborBlock>)
      requires IsPaired(snd, rcv) && 2 * |snd| <= MAX_NEIGHBOR
      ensures this.snd == snd && this.rcv == rcv && Shaped() && Idle()
      ensures fresh(flag) && fresh(posted) && fresh(sendSize) && fresh(recvSize)
      ensures bytesSent == bytesRcvd == sendCnt == recvCnt == 0
    {
      this.snd, this.rcv := snd, rcv;
      flag := new bool[MAX_NEIGHBOR](_ => false);
      posted := new bool[MAX_NEIGHBOR](_ => false);
      sendSize := new int[MAX_NEIGHBOR](_ => 0);
      recvSize := new int[MAX_NEIGHBOR](_ => 0);
      bytesSent, bytesRcvd, sendCnt, recvCnt := 0, 0, 0, 0;
    }

    /** Not ok where the source aborts: a message too large to send. */
    method SetupPersistentMPI() returns (ok: bool)
      requires Shaped()
      modifies sendSize, recvSize
      ensures ok <==> forall k :: 0 <= k < |snd| ==> snd[k].msgSize < MAX_MESSAGE_SIZE
      ensures ok ==> IsSetUp()
    {
      for i := 0 to |snd|
        invariant forall k :: 0 <= k < i ==> snd[k].msgSize < MAX_MESSAGE_SIZE
        invariant forall k :: 0 <= k < i ==> sendSize[snd[k].bufId] == snd[k].msgSize
      {
        if snd[i].bufId >= MAX_NEIGHBOR || snd[i].msgSize >= MAX_MESSAGE_SIZE {
          return false;
        }
        sendSize[snd[i].bufId] := snd[i].msgSize;
      }
      for i := 0 to |rcv|
        invariant forall k :: 0 <= k < |snd| ==> sendSize[snd[k].bufId] == snd[k].msgSize
        invariant forall k :: 0 <= k < i ==> recvSize[rcv[k].bufId] == rcv[k].msgSize
      {
        recvSize[rcv[i].bufId] := rcv[i].msgSize;
      }
      ok := true;
    }

    /** Starts every receive; none of them is active, so each start is allowed. */
    method StartReceiving()
      requires Shaped() && Idle()
      modifies posted
      ensures Flags(seq(|rcv|, _ => false)) && Requests(seq(|rcv|, _ => true))
    {
      for i := 0 to |rcv|
        invariant forall k :: 0 <= k < |rcv| ==> posted[rcv[k].bufId] == (k < i)
      {
        assert !posted[rcv[i].bufId];
        posted[rcv[i].bufId] := true;
      }
    }

    method SendBoundaryBuffers()
      requires Shaped()
      modifies this`sendCnt
      ensures sendCnt == old(sendCnt) + |snd|
    {
      for i := 0 to |snd|
        invariant sendCnt == old(sendCnt) + i
      {
        sendCnt := sendCnt + 1;
      }
    }

    /** Receive i has completed; it was active. */
    method Complete(i: nat)
      requires IsSetUp() && i < |rcv| && posted[rcv[i].bufId]
      modifies flag, posted, this`bytesRcvd, this`recvCnt
      ensures forall k :: 0 <= k < |rcv| ==> flag[rcv[k].bufId] == (k == i || old(flag[rcv[k].bufId]))
      ensures forall k :: 0 <= k < |rcv| ==> posted[rcv[k].bufId] == (k != i && old(posted[rcv[k].bufId]))
      ensures bytesRcvd == old(bytesRcvd) + rcv[i].msgSize && recvCnt == old(recvCnt) + 1
    {
      posted[rcv[i].bufId] := false;
      flag[rcv[i].bufId] := true;
      bytesRcvd := bytesRcvd + recvSize[rcv[i].bufId];
      recvCnt := recvCnt + 1;
    }

    /** Tests every receive once; done are the answers. */
    method ReceiveBoundaryBuffers(done: seq<bool>) returns (all: bool)
      requires IsSetUp() && |done| == |rcv| && Flags(seq(|rcv|, _ => false)) && Requests(seq(|rcv|, _ => true))
      modifies flag, posted, this`bytesRcvd, this`recvCnt
      ensures Flags(done) && Requests(Flipped(done)) && (all <==> forall k :: 0 <= k < |done| ==> done[k])
      ensures bytesRcvd == old(bytesRcvd) + SizeWhere(rcv, done)
      ensures recvCnt == old(recvCnt) + CountWhere(|rcv|, done)
    {
      all := true;
      for i := 0 to |rcv|
        invariant forall k :: 0 <= k < |rcv| ==> flag[rcv[k].bufId] == (k < i && done[k])
        invariant forall k :: 0 <= k < |rcv| ==> posted[rcv[k].bufId] == !(k < i && done[k])
        invariant all <==> forall k :: 0 <= k < i ==> done[k]
        invariant bytesRcvd == old(bytesRcvd) + SizeWhere(rcv[..i], done)
        invariant recvCnt == old(recvCnt) + CountWhere(i, done)
      {
        assert rcv[..i + 1][..i] == rcv[..i];
        if flag[rcv[i].bufId] {
          continue;
        }
        if !done[i] {
          all := false;
          continue;
        }
        Complete(i);
      }
      assert rcv[..|rcv|] == rcv;
    }

    /** Waits for every receive the tests did not find complete. */
    method ReceiveBoundaryBuffersWithWait(ghost done: seq<bool>)
      requires IsSetUp() && |done| == |rcv| && Flags(done) && Requests(Flipped(done))
      modifies flag, posted, this`bytesRcvd, this`recvCnt
      ensures Flags(seq(|rcv|, _ => true)) && Requests(seq(|rcv|, _ => false))
      ensures bytesRcvd == old(bytesRcvd) + SizeWhere(rcv, Flipped(done))
      ensures recvCnt == old(recvCnt) + CountWhere(|rcv|, Flipped(done))
    {
      ghost var rest := Flipped(done);
      for i := 0 to |rcv|
        invariant forall k :: 0 <= k < |rcv| ==> flag[rcv[k].bufId] == (k < i || done[k])
        invariant forall k :: 0 <= k < |rcv| ==> posted[rcv[k].bufId] == !(k < i || done[k])
        invariant bytesRcvd == old(bytesRcvd) + SizeWhere(rcv[..i], rest)
        invariant recvCnt == old(recvCnt) + CountWhere(i, rest)
      {
        assert rcv[..i + 1][..i] == rcv[..i];
        if flag[rcv[i].bufId] {
          continue;
        }
        Complete(i);
      }
      assert rcv[..|rcv|] == rcv;
    }

    method ClearBoundary()
      requires IsSetUp()
      modifies flag, this`bytesSent
      ensures Flags(seq(|rcv|, _ => false)) && bytesSent == old(bytesSent) + TotalSize(snd)
    {
      for i := 0 to |snd|
        invariant bytesSent == old(bytesSent) + TotalSize(snd[..i])
      {
        assert snd[..i + 1][..i] == snd[..i];
        flag[snd[i].bufId] := false;
        bytesSent := bytesSent + sendSize[snd[i].bufId];
      }
      assert snd[..|snd|] == snd;
      for i := 0 to |rcv|
        invariant forall k :: 0 <= k < i ==> !flag[rcv[k].bufId]
        invariant bytesSent == old(bytesSent) + TotalSize(snd)
      {
        flag[rcv[i].bufId] := false;
      }
    }

    /** The tests and the waits together. */
    method ReceiveAll(done: seq<bool>)
      requires IsSetUp() && |done| == |rcv| && Flags(seq(|rcv|, _ => false)) && Requests(seq(|rcv|, _ => true))
      modifies flag, posted, this`bytesRcvd, this`recvCnt
      ensures Requests(seq(|rcv|, _ => false))
      ensures bytesRcvd == old(bytesRcvd) + TotalSize(rcv) && recvCnt == old(recvCnt) + |rcv|
    {
      var all := ReceiveBoundaryBuffers(done);
      ReceiveBoundaryBuffersWithWait(done);
      TwiceCoversAll(rcv, done);
    }

    /**
     A whole round, whatever the tests answer: every receive is started and completed exactly once, all bytes are
     counted exactly once, and the buffers are ready for the next round.
     */
    method Round(done: seq<bool>)
      requires IsSetUp() && |done| == |rcv| && Idle()
      modifies flag, posted, this`bytesSent, this`bytesRcvd, this`sendCnt, this`recvCnt
      ensures IsSetUp() && Idle()
      ensures sendCnt == old(sendCnt) + |snd| && bytesSent == old(bytesSent) + TotalSize(snd)
      ensures recvCnt == old(recvCnt) + |rcv| && bytesRcvd == old(bytesRcvd) + TotalSize(rcv)
    {
      StartReceiving();
      SendBoundaryBuffers();
      ReceiveAll(done);
      ClearBoundary();
    }
  }
}
