/** The connection side of geiger_gen2.hpp: GeigerGen2NetworkLayer's static
    Context and the lwIP callbacks that update it (clientClose, serverClose,
    serverSendData, serverSentClbk, serverRecvClbk, serverErrClbk,
    serverAccept). lwIP handles are abstract values; whether tcp_write or
    tcp_close succeeds is decided by oracle parameters. */
module Network {
  import opened Common
  import opened Entropy
  import opened Protocol

  /** BUF_SIZE, the size of both buffers of the Context */
  const BUF_SIZE: nat := 2048

  const ERR_OK: int8 := 0
  const ERR_VAL: int8 := -6
  const ERR_ABRT: int8 := -13

  /** An lwIP tcp_pcb, seen only through its identity */
  datatype Pcb = Pcb(id: nat)

  /** The Context fields that the handlers change, as a value */
  datatype Conn = Conn(server: Option<Pcb>, client: Option<Pcb>, send: seq<uint8>, toSendLen: uint16, sentLen: uint16)

  ghost predicate ValidConn(c: Conn) {
    |c.send| == BUF_SIZE && c.toSendLen as int <= BUF_SIZE
  }

  /** A new connection state and the err_t a handler returns */
  datatype Step = Step(conn: Conn, err: int8)

  /** The text sent on accept */
  const GREETING: seq<uint8> := Bytes("ready\n")

  // ---------------------------------------------------------------------------
  // The handlers as transitions on Conn

  /** clientClose; `closeOk` stands for tcp_close returning ERR_OK */
  function ClientCloseStep(c: Conn, closeOk: bool): Step {
    if c.client.None? then Step(c, ERR_OK)
    else if closeOk then Step(c.(client := None), ERR_OK)
    else Step(c.(client := None), ERR_ABRT)
  }

  /** serverClose (its tcp_close result is ignored and it returns ERR_OK) */
  function ServerCloseStep(c: Conn): Conn {
    c.(server := None)
  }

  /** serverSendData; `writeOk` stands for tcp_write returning ERR_OK */
  function SendDataStep(c: Conn, writeOk: bool, closeOk: bool): Step {
    var reset := c.(sentLen := 0);
    if writeOk then Step(reset, ERR_OK) else ClientCloseStep(reset, closeOk)
  }

  /** serverSentClbk: `sentLen += len` on a u16_t */
  function SentStep(c: Conn, len: uint16): Conn {
    c.(sentLen := ((c.sentLen as int + len as int) % 0x1_0000) as uint16)
  }

  /** The toSendLen computation and copy_n into bufferSend */
  function Load(c: Conn, msg: seq<uint8>): (r: Conn)
    requires ValidConn(c)
    ensures ValidConn(r)
  {
    var k := Min(|msg|, |c.send|);
    c.(send := msg[..k] + c.send[k..], toSendLen := k as uint16)
  }

  /** A `req` stride: pop a sample, build the reply with the length read after
      the pop, load it and send it */
  function ReqStep(c: Conn, q: seq<Rng>, writeOk: bool, closeOk: bool): (r: (Conn, seq<Rng>))
    requires ValidConn(c)
    ensures ValidConn(r.0)
  {
    var (rndn, rest) := Pop(q);
    (SendDataStep(Load(c, Reply(rndn, |rest|)), writeOk, closeOk).conn, rest)
  }

  /** One stride of the receive loop, by the code ckeckReq gave it.
      The err each branch produces is discarded: it lives in the loop body. */
  function StrideStep(c: Conn, q: seq<Rng>, code: int, writeOk: bool, closeOk: bool): (r: (Conn, seq<Rng>))
    requires ValidConn(c)
    ensures ValidConn(r.0)
  {
    if code == 0 then ReqStep(c, q, writeOk, closeOk)
    else (ClientCloseStep(c, closeOk).conn, q)
  }

  /** How the stride loop ends: normally, or by bufferRecv.at() throwing inside a
      noexcept function (std::terminate) */
  datatype Outcome = Completed(conn: Conn, queue: seq<Rng>) | OutOfRange(conn: Conn, queue: seq<Rng>)

  /** The stride loop of serverRecvClbk from offset i on; the oracles are indexed
      by stride number */
  function RecvLoop(c: Conn, q: seq<Rng>, buf: seq<uint8>, recvLen: nat, i: nat,
                    writeOk: nat -> bool, closeOk: nat -> bool): (o: Outcome)
    requires ValidConn(c)
    ensures ValidConn(o.conn)
    decreases recvLen - i
  {
    if i >= recvLen then Completed(c, q)
    else if i + 2 >= |buf| then OutOfRange(c, q)
    else
      var next := StrideStep(c, q, CheckReq(buf[i], buf[i + 1], buf[i + 2]), writeOk(i / 3), closeOk(i / 3));
      RecvLoop(next.0, next.1, buf, recvLen, i + 3, writeOk, closeOk)
  }

  /** The number of `req` strides the loop runs from offset i on */
  function Requests(buf: seq<uint8>, recvLen: nat, i: nat): nat
    decreases recvLen - i
  {
    if i >= recvLen || i + 2 >= |buf| then 0
    else (if CheckReq(buf[i], buf[i + 1], buf[i + 2]) == 0 then 1 else 0) + Requests(buf, recvLen, i + 3)
  }

  /** serverAccept for the handle and err_t lwIP passes */
  function AcceptStep(c: Conn, pcb: Option<Pcb>, err: int8, writeOk: bool, closeOk: bool): (r: Step)
    requires ValidConn(c)
    ensures ValidConn(r.conn)
  {
    if err != ERR_OK || pcb.None? then Step(ClientCloseStep(c, closeOk).conn, ERR_VAL)
    else SendDataStep(Load(c.(client := pcb), GREETING), writeOk, closeOk)
  }

  /** serverErrClbk */
  function ErrStep(c: Conn, err: int8): Conn {
    if err != ERR_ABRT then ServerCloseStep(c) else c
  }

  // ---------------------------------------------------------------------------
  // What the transitions guarantee

  /** clientClose always drops the client handle; it reports ERR_ABRT exactly when a
      handle was there and closing it failed, and touches nothing else */
  lemma ClientCloseResult(c: Conn, closeOk: bool)
    ensures ClientCloseStep(c, closeOk).conn == c.(client := None)
    ensures ClientCloseStep(c, closeOk).err == ERR_OK <==> c.client.None? || closeOk
    ensures ClientCloseStep(c, closeOk).err != ERR_OK ==> ClientCloseStep(c, closeOk).err == ERR_ABRT
  {
  }

  /** serverSentClbk only advances sentLen, modulo 2^16 */
  lemma SentOnlyAddsLength(c: Conn, len: uint16)
    ensures SentStep(c, len).(sentLen := c.sentLen) == c
    ensures SentStep(c, len).sentLen as int == (c.sentLen as int + len as int) % 0x1_0000
  {
  }

  /** serverErrClbk ignores ERR_ABRT; any other error closes the listening handle */
  lemma ErrIgnoresAbort(c: Conn, err: int8)
    ensures err == ERR_ABRT ==> ErrStep(c, err) == c
    ensures err != ERR_ABRT ==> ErrStep(c, err) == c.(server := None)
  {
  }

  /** Loading a message puts its first min(|msg|, 2048) bytes at the front of the
      send buffer and keeps the rest of the buffer */
  lemma LoadContents(c: Conn, msg: seq<uint8>)
    requires ValidConn(c)
    ensures Load(c, msg).toSendLen as int == Min(|msg|, BUF_SIZE)
    ensures Load(c, msg).send[..Load(c, msg).toSendLen] == msg[..Load(c, msg).toSendLen]
    ensures Load(c, msg).send[Load(c, msg).toSendLen..] == c.send[Load(c, msg).toSendLen..]
    ensures Load(c, msg).(send := c.send, toSendLen := c.toSendLen) == c
  {
    var r := Load(c, msg);
    assert r.send[..r.toSendLen] == msg[..r.toSendLen];
  }

  /** A `req` stride pops exactly one sample, loads its reply whole (a reply never
      reaches the buffer size) and resets sentLen; the client handle survives iff
      the write succeeds */
  lemma RequestReply(c: Conn, q: seq<Rng>, writeOk: bool, closeOk: bool)
    requires ValidConn(c) && ValidQueue(q)
    ensures var (rndn, rest) := Pop(q);
            var msg := Reply(rndn, |rest|);
            var r := ReqStep(c, q, writeOk, closeOk).0;
            && ReqStep(c, q, writeOk, closeOk).1 == rest
            && r.toSendLen as int == |msg|
            && r.send[..|msg|] == msg
            && r.send[|msg|..] == c.send[|msg|..]
            && r.sentLen == 0
            && r.server == c.server
            && r.client == (if writeOk then c.client else None)
  {
    var (rndn, rest) := Pop(q);
    PopDistinguishesSentinel(q);
    assert rndn.value as int <= INVALID_RESULT;
    ReplyLength(rndn, |rest|);
    LoadContents(c, Reply(rndn, |rest|));
  }

  /** An `end` or malformed stride closes the client and sends nothing */
  lemma CloseStrideSendsNothing(c: Conn, q: seq<Rng>, code: int, writeOk: bool, closeOk: bool)
    requires ValidConn(c) && code != 0
    ensures StrideStep(c, q, code, writeOk, closeOk) == (c.(client := None), q)
  {
  }

  /** The loop pops one sample per `req` stride it reaches, and nothing else */
  lemma {:induction false} RecvLoopPops(c: Conn, q: seq<Rng>, buf: seq<uint8>, recvLen: nat, i: nat,
                                        writeOk: nat -> bool, closeOk: nat -> bool)
    requires ValidConn(c)
    ensures RecvLoop(c, q, buf, recvLen, i, writeOk, closeOk).queue == q[Min(|q|, Requests(buf, recvLen, i))..]
    decreases recvLen - i
  {
    if i < recvLen && i + 2 < |buf| {
      var code := CheckReq(buf[i], buf[i + 1], buf[i + 2]);
      var next := StrideStep(c, q, code, writeOk(i / 3), closeOk(i / 3));
      RecvLoopPops(next.0, next.1, buf, recvLen, i + 3, writeOk, closeOk);
      if code == 0 && q != [] {
        assert next.1 == q[1..];
        assert q[1..][Min(|q| - 1, Requests(buf, recvLen, i + 3))..] == q[Min(|q|, Requests(buf, recvLen, i))..];
      }
    }
  }

  /** The loop never opens a connection and never touches the listening handle:
      after it, the client handle is the one before or none */
  lemma {:induction false} RecvLoopKeepsHandles(c: Conn, q: seq<Rng>, buf: seq<uint8>, recvLen: nat, i: nat,
                                                writeOk: nat -> bool, closeOk: nat -> bool)
    requires ValidConn(c)
    ensures RecvLoop(c, q, buf, recvLen, i, writeOk, closeOk).conn.server == c.server
    ensures RecvLoop(c, q, buf, recvLen, i, writeOk, closeOk).conn.client in {c.client, None}
    decreases recvLen - i
  {
    if i < recvLen && i + 2 < |buf| {
      var next := StrideStep(c, q, CheckReq(buf[i], buf[i + 1], buf[i + 2]), writeOk(i / 3), closeOk(i / 3));
      RecvLoopKeepsHandles(next.0, next.1, buf, recvLen, i + 3, writeOk, closeOk);
    }
  }

  /** With a full 2048-byte receive buffer, the loop reads past its end exactly when
      the delivery leaves a stride starting at offset 2046, i.e. for 2047 or 2048 bytes */
  lemma {:induction false} RecvLoopOutOfRange(c: Conn, q: seq<Rng>, buf: seq<uint8>, recvLen: nat, i: nat,
                                              writeOk: nat -> bool, closeOk: nat -> bool)
    requires ValidConn(c) && |buf| == BUF_SIZE && recvLen <= BUF_SIZE && i % 3 == 0
    ensures RecvLoop(c, q, buf, recvLen, i, writeOk, closeOk).OutOfRange? <==> i <= 2046 < recvLen
    decreases recvLen - i
  {
    if i < recvLen && i + 2 < |buf| {
      var next := StrideStep(c, q, CheckReq(buf[i], buf[i + 1], buf[i + 2]), writeOk(i / 3), closeOk(i / 3));
      RecvLoopOutOfRange(next.0, next.1, buf, recvLen, i + 3, writeOk, closeOk);
    }
  }

  /** A delivery of only `re` is answered as a `req` when the byte left at offset 2
      by an earlier delivery is `q` */
  lemma StaleByteCompletesRequest(c: Conn, q: seq<Rng>, old_buf: seq<uint8>, writeOk: nat -> bool, closeOk: nat -> bool)
    requires ValidConn(c) && |old_buf| == BUF_SIZE && old_buf[2] == 'q' as int as uint8
    ensures var buf := Bytes("re") + old_buf[2..];
            var next := ReqStep(c, q, writeOk(0), closeOk(0));
            RecvLoop(c, q, buf, 2, 0, writeOk, closeOk) == Completed(next.0, next.1)
  {
    var buf := Bytes("re") + old_buf[2..];
    assert buf[0] == 'r' as int as uint8 && buf[1] == 'e' as int as uint8 && buf[2] == 'q' as int as uint8;
  }

  /** A successful accept stores the handle and sends exactly `ready\n` */
  lemma AcceptGreets(c: Conn, pcb: Pcb, writeOk: bool, closeOk: bool)
    requires ValidConn(c)
    ensures var r := AcceptStep(c, Some(pcb), ERR_OK, writeOk, closeOk);
            && r.conn.toSendLen as int == |GREETING| == 6
            && r.conn.send[..6] == GREETING
            && r.conn.sentLen == 0
            && (writeOk ==> r.conn.client == Some(pcb) && r.err == ERR_OK)
            && (!writeOk ==> r.conn.client == None && (r.err == ERR_OK <==> closeOk))
  {
    LoadContents(c.(client := Some(pcb)), GREETING);
  }

  /** A failed accept closes the stored client (if any) and returns ERR_VAL */
  lemma AcceptFailure(c: Conn, pcb: Option<Pcb>, err: int8, writeOk: bool, closeOk: bool)
    requires ValidConn(c) && (err != ERR_OK || pcb.None?)
    ensures AcceptStep(c, pcb, err, writeOk, closeOk) == Step(c.(client := None), ERR_VAL)
  {
  }

  // ---------------------------------------------------------------------------
  // The Context and the handlers that update it in place

  /** What serverRecvClbk returns: the incoming err (the loop's own err shadows
      it and is lost), or nothing because the process terminated */
  datatype RecvResult = Returned(err: int8) | Terminate

  class Context {
    var serverPcb: Option<Pcb>
    var clientPcb: Option<Pcb>
    const bufferSend: array<uint8>
    const bufferRecv: array<uint8>
    var toSendLen: uint16
    var sentLen: uint16
    var recvLen: uint16

    ghost predicate Valid()
      reads this
    {
      && bufferSend.Length == BUF_SIZE && bufferRecv.Length == BUF_SIZE
      && bufferSend != bufferRecv
      && toSendLen as int <= BUF_SIZE
    }

    ghost function Snapshot(): (c: Conn)
      reads this, bufferSend
      requires Valid()
      ensures ValidConn(c)
    {
      Conn(serverPcb, clientPcb, bufferSend[..], toSendLen, sentLen)
    }

    /** The static Context starts zeroed: null handles, zero lengths, zero buffers */
    constructor ()
      ensures Valid() && fresh(bufferSend) && fresh(bufferRecv)
      ensures serverPcb == None && clientPcb == None
      ensures toSendLen == 0 && sentLen == 0 && recvLen == 0
      ensures forall k :: 0 <= k < BUF_SIZE ==> bufferSend[k] == 0 && bufferRecv[k] == 0
    {
      serverPcb, clientPcb := None, None;
      bufferSend := new uint8[BUF_SIZE](_ => 0);
      bufferRecv := new uint8[BUF_SIZE](_ => 0);
      toSendLen, sentLen, recvLen := 0, 0, 0;
    }

    method ClientClose(closeOk: bool) returns (err: int8)
      requires Valid()
      modifies this`clientPcb
      ensures Valid()
      ensures Step(Snapshot(), err) == ClientCloseStep(old(Snapshot()), closeOk)
    {
      err := ERR_OK;
      if clientPcb.Some? {
        if !closeOk {
          // tcp_close failed: the handle is aborted instead
          err := ERR_ABRT;
        }
        clientPcb := None;
      }
    }

    method ServerClose() returns (err: int8)
      requires Valid()
      modifies this`serverPcb
      ensures Valid()
      ensures Snapshot() == ServerCloseStep(old(Snapshot())) && err == ERR_OK
    {
      err := ERR_OK;
      if serverPcb.Some? {
        serverPcb := None;
      }
    }

    method ServerSentClbk(len: uint16) returns (err: int8)
      requires Valid()
      modifies this`sentLen
      ensures Valid()
      ensures Snapshot() == SentStep(old(Snapshot()), len) && err == ERR_OK
    {
      sentLen := ((sentLen as int + len as int) % 0x1_0000) as uint16;
      err := ERR_OK;
    }

    /** serverSendData on the stored client handle */
    method ServerSendData(writeOk: bool, closeOk: bool) returns (err: int8)
      requires Valid()
      modifies this`sentLen, this`clientPcb
      ensures Valid()
      ensures Step(Snapshot(), err) == SendDataStep(old(Snapshot()), writeOk, closeOk)
    {
      sentLen := 0;
      if !writeOk {
        err := ClientClose(closeOk);
        return;
      }
      err := ERR_OK;
    }

    /** toSendLen := min(|msg|, bufferSend.size()) and copy_n(msg, toSendLen, bufferSend) */
    method LoadSend(msg: seq<uint8>)
      requires Valid()
      modifies this`toSendLen, bufferSend
      ensures Valid()
      ensures Snapshot() == Load(old(Snapshot()), msg)
    {
      var k := if |msg| <= bufferSend.Length then |msg| else bufferSend.Length;
      toSendLen := k as uint16;
      for j := 0 to k
        invariant forall m :: 0 <= m < j ==> bufferSend[m] == msg[m]
        invariant forall m :: j <= m < bufferSend.Length ==> bufferSend[m] == old(bufferSend[m])
        modifies bufferSend
      {
        bufferSend[j] := msg[j];
      }
      assert bufferSend[..] == msg[..k] + old(bufferSend[..])[k..];
    }

    /** pbuf_copy_partial of the delivered payload into bufferRecv; recvLen is the number of bytes copied */
    method CopyReceived(payload: seq<uint8>)
      requires Valid() && |payload| <= BUF_SIZE
      modifies this`recvLen, bufferRecv
      ensures Valid()
      ensures bufferRecv[..] == payload + old(bufferRecv[..])[|payload|..]
      ensures recvLen as int == |payload|
    {
      for j := 0 to |payload|
        invariant forall m :: 0 <= m < j ==> bufferRecv[m] == payload[m]
        invariant forall m :: j <= m < bufferRecv.Length ==> bufferRecv[m] == old(bufferRecv[m])
        modifies bufferRecv
      {
        bufferRecv[j] := payload[j];
      }
      assert bufferRecv[..] == payload + old(bufferRecv[..])[|payload|..];
      recvLen := |payload| as uint16;
    }

    /** The switch on ckeckReq's code for one stride; the err it produces is dropped */
    method HandleStride(gen: GeigerGen2, code: int, writeOk: bool, closeOk: bool)
      requires Valid() && gen.Valid()
      modifies this`clientPcb, this`toSendLen, this`sentLen, bufferSend, gen`rndQueue
      ensures Valid() && gen.Valid()
      ensures (Snapshot(), gen.rndQueue) == StrideStep(old(Snapshot()), old(gen.rndQueue), code, writeOk, closeOk)
    {
      var strideErr: int8;
      if code == 0 {
        var rndn := gen.GetRnd();
        var available := gen.GetAvailable();
        LoadSend(Reply(rndn, available));
        strideErr := ServerSendData(writeOk, closeOk);
      } else if code == 1 {
        strideErr := ClientClose(closeOk);
      } else {
        strideErr := ClientClose(closeOk);
      }
    }

    /** The stride loop of serverRecvClbk over bufferRecv[..recvLen] */
    method ReceiveStrides(gen: GeigerGen2, writeOk: nat -> bool, closeOk: nat -> bool) returns (completed: bool)
      requires Valid() && gen.Valid()
      modifies this`clientPcb, this`toSendLen, this`sentLen, bufferSend, gen`rndQueue
      ensures Valid() && gen.Valid()
      ensures var o := RecvLoop(old(Snapshot()), old(gen.rndQueue), bufferRecv[..], recvLen as nat, 0, writeOk, closeOk);
              Snapshot() == o.conn && gen.rndQueue == o.queue && completed == o.Completed?
    {
      var i: uint16 := 0;
      while i < recvLen
        invariant Valid() && gen.Valid()
        invariant i as int % 3 == 0 && i as int <= recvLen as int + 2
        invariant RecvLoop(Snapshot(), gen.rndQueue, bufferRecv[..], recvLen as nat, i as nat, writeOk, closeOk)
               == RecvLoop(old(Snapshot()), old(gen.rndQueue), bufferRecv[..], recvLen as nat, 0, writeOk, closeOk)
        decreases recvLen as int - i as int
      {
        if i as int + 2 >= BUF_SIZE {
          // bufferRecv.at(2 + i) throws std::out_of_range in a noexcept function
          return false;
        }
        var code := CheckReq(bufferRecv[i], bufferRecv[i + 1], bufferRecv[i + 2]);
        HandleStride(gen, code, writeOk(i as nat / 3), closeOk(i as nat / 3));
        i := i + 3;
      }
      return true;
    }

    /** serverRecvClbk; `pb` is the delivered pbuf's payload, None for a null pbuf */
    method ServerRecvClbk(gen: GeigerGen2, pb: Option<seq<uint8>>, err: int8,
                          writeOk: nat -> bool, closeOk: nat -> bool) returns (r: RecvResult)
      requires Valid() && gen.Valid()
      requires pb.Some? ==> |pb.value| <= BUF_SIZE
      modifies this`clientPcb, this`toSendLen, this`sentLen, this`recvLen, bufferSend, bufferRecv, gen`rndQueue
      ensures Valid() && gen.Valid()
      ensures pb.None? ==>
        && r.Returned? && Step(Snapshot(), r.err) == ClientCloseStep(old(Snapshot()), closeOk(0))
        && gen.rndQueue == old(gen.rndQueue)
        && bufferRecv[..] == old(bufferRecv[..]) && recvLen == old(recvLen)
      ensures pb.Some? ==>
        && bufferRecv[..] == pb.value + old(bufferRecv[..])[|pb.value|..]
        && recvLen as int == |pb.value|
        && var o := RecvLoop(old(Snapshot()), old(gen.rndQueue), bufferRecv[..], |pb.value|, 0, writeOk, closeOk);
           && Snapshot() == o.conn && gen.rndQueue == o.queue
           && r == (if o.Completed? then Returned(err) else Terminate)
    {
      if pb.None? {
        var e := ClientClose(closeOk(0));
        return Returned(e);
      }
      CopyReceived(pb.value);
      var completed := ReceiveStrides(gen, writeOk, closeOk);
      // the err declared inside the loop shadows the parameter: the parameter is returned
      r := if completed then Returned(err) else Terminate;
    }

    method ServerErrClbk(err: int8)
      requires Valid()
      modifies this`serverPcb
      ensures Valid()
      ensures Snapshot() == ErrStep(old(Snapshot()), err)
    {
      if err != ERR_ABRT {
        var _ := ServerClose();
      }
    }

    /** serverAccept; the callback registrations on the new handle are not modelled */
    method ServerAccept(pcb: Option<Pcb>, err: int8, writeOk: bool, closeOk: bool) returns (r: int8)
      requires Valid()
      modifies this`clientPcb, this`toSendLen, this`sentLen, bufferSend
      ensures Valid()
      ensures Step(Snapshot(), r) == AcceptStep(old(Snapshot()), pcb, err, writeOk, closeOk)
    {
      if err != ERR_OK || pcb.None? {
        var _ := ClientClose(closeOk);
        return ERR_VAL;
      }
      clientPcb := pcb;
      LoadSend(GREETING);
      r := ServerSendData(writeOk, closeOk);
    }
  }
}
