/** What the client and the server handshake of TLS up to 1.2 have in common: section 7.3 of RFC 5246
    and section 3.3 of RFC 5077. Messages are abstract; their contents appear only where the order of
    the handshake depends on them. */
module Handshake {
  import opened Wrappers

  datatype KeyExchange = RsaExchange | EcdheExchange | PskExchange

  datatype Authentication = CertificateAuth | PskAuth

  /** What a ServerHello settles. `echoed` says that it repeats the session ID the client offered. */
  datatype Params = Params(
    echoed: bool, kex: KeyExchange, auth: Authentication, aead: bool,
    status: bool, ticket: bool, npn: bool, channelId: bool)

  const NO_PARAMS: Params := Params(false, RsaExchange, CertificateAuth, false, false, false, false, false)

  /** `count` is the length of a certificate chain; `mac` stands for the hash a Finished carries, which
      covers the messages so far and the side it comes from. */
  datatype Msg =
    | ClientHello(offersSession: bool)
    | HelloVerifyRequest
    | ServerHello(params: Params)
    | Certificate(count: nat)
    | CertificateStatus
    | ServerKeyExchange
    | CertificateRequest
    | ServerHelloDone
    | ClientKeyExchange
    | CertificateVerify
    | NextProto
    | ChannelId
    | Finished(fromServer: bool, mac: seq<Msg>)
    | NewSessionTicket(empty: bool)

  datatype Item = Handshake(m: Msg) | ChangeCipherSpec

  /** The successful checks a side has made. */
  datatype Check = ChainVerified | KeyExchangeSigned | PossessionProved | PeerFinished

  datatype VerifyResult = VerifyOk | VerifyInvalid | VerifyRetry

  // ----- The two directions of one side -----

  /** Everything sent so far and how much of it was flushed, the current flight, the messages hashed so
      far, and how many items of the peer were consumed. */
  datatype Io = Io(sent: seq<Item>, visible: nat, flight: seq<Item>, flushed: bool, transcript: seq<Msg>, got: nat) {

    /** Adds to the flight; one that was flushed makes room for a new one. */
    function Add(item: Item): Io {
      this.(sent := sent + [item], flight := (if flushed then [] else flight) + [item], flushed := false)
    }

    /** A message is hashed when it is added. */
    function Say(m: Msg): Io {
      Add(Handshake(m)).(transcript := transcript + [m])
    }

    function SayIf(said: bool, m: Msg): Io {
      if said then Say(m) else this
    }

    /** A received message is hashed when it is consumed. */
    function Hear(m: Msg): Io {
      this.(transcript := transcript + [m], got := got + 1)
    }

    function Take(): Io {
      this.(got := got + 1)
    }

    function Flush(): Io {
      this.(visible := |sent|, flushed := true)
    }

    /** Where the current flight stands: what an addition would follow. */
    function Pending(): nat {
      if flushed then 0 else |flight|
    }
  }

  const NEW_IO: Io := Io([], 0, [], true, [], 0)

  /** How a handler ends: it lacks a message or a ChangeCipherSpec, waits for a callback, fails the
      handshake, or moves the machine on; `flush` then sends the flight and `early` returns to the caller. */
  datatype Outcome<S> = Blocked | Paused | Failed | Next(hs: S, flush: bool, early: bool)

  function Goes<S>(hs: S): Outcome<S> {
    Next(hs, false, false)
  }

  /** A handler that needs a message ends like this, where `o` is how it ends with the one it has. */
  function Reading<S>(head: Option<Item>, o: Outcome<S>): Outcome<S> {
    match head
    case None => Blocked
    case Some(ChangeCipherSpec) => Failed
    case Some(Handshake(_)) => o
  }

  function MessageOf(head: Option<Item>): Msg {
    if head.Some? && head.value.Handshake? then head.value.m else HelloVerifyRequest
  }

  /** Why a machine's driver returned. */
  datatype Wait = WaitOk | WaitError | WaitFlush | WaitRead | WaitCallback | WaitEarly

  // ----- A side's connection -----

  const MAX_FLIGHT: nat := 7

  /** What the handlers do to the connection: they add to the flight, and look at the next item the record
      layer has, which stays there until it is consumed. */
  class Connection {
    var io: Io
    var inbox: Option<Item>

    constructor ()
      ensures io == NEW_IO && inbox == None
    {
      io, inbox := NEW_IO, None;
    }

    /** Adds to the flight; a flight that was flushed is dropped first. */
    method AddItem(item: Item) returns (ok: bool)
      modifies this`io
      ensures ok <==> old(io).Pending() < MAX_FLIGHT
      ensures ok ==> io == old(io).Add(item)
    {
      if io.flushed {
        io := io.(flight := [], flushed := false);
      }
      if |io.flight| >= MAX_FLIGHT {
        return false;
      }
      io := io.(sent := io.sent + [item], flight := io.flight + [item]);
      return true;
    }

    method AddMessage(m: Msg) returns (ok: bool)
      modifies this`io
      ensures ok <==> old(io).Pending() < MAX_FLIGHT
      ensures ok ==> io == old(io).Say(m)
    {
      ok := AddItem(Handshake(m));
      if ok {
        io := io.(transcript := io.transcript + [m]);
      }
    }

    /** The next message, which stays the current one. A ChangeCipherSpec in its place is an error. */
    method GetMessage() returns (m: Option<Msg>, otherwise: Wait)
      ensures m == if inbox.Some? && inbox.value.Handshake? then Some(inbox.value.m) else None
      ensures otherwise == if inbox.None? then WaitRead else WaitError
    {
      if inbox.None? {
        return None, WaitRead;
      }
      return if inbox.value.Handshake? then Some(inbox.value.m) else None, WaitError;
    }

    /** Starts the hash of the messages over. */
    method InitTranscript()
      modifies this`io
      ensures io == old(io).(transcript := [])
    {
      io := io.(transcript := []);
    }

    /** Consumes the current message. */
    method NextMessage()
      modifies this
      ensures io == old(io).Take() && inbox == None
    {
      io, inbox := io.(got := io.got + 1), None;
    }

    /** Hashes the current message and consumes it. */
    method HearMessage(m: Msg)
      modifies this
      ensures io == old(io).Hear(m) && inbox == None
    {
      io, inbox := io.(transcript := io.transcript + [m], got := io.got + 1), None;
    }

    /** Consumes a ChangeCipherSpec. A message in its place is an error. */
    method ReadChangeCipherSpec() returns (ok: bool, otherwise: Wait)
      modifies this
      ensures ok <==> old(inbox) == Some(ChangeCipherSpec)
      ensures ok ==> io == old(io).Take() && inbox == None
      ensures !ok ==> io == old(io) && inbox == old(inbox)
      ensures otherwise == if old(inbox).None? then WaitRead else WaitError
    {
      if inbox.None? {
        return false, WaitRead;
      }
      if inbox.value.ChangeCipherSpec? {
        io, inbox := io.(got := io.got + 1), None;
        return true, WaitError;
      }
      return false, WaitError;
    }

    /** Adds a Finished over everything hashed so far. */
    method SendFinished(fromServer: bool) returns (ok: bool)
      modifies this`io
      ensures ok <==> old(io).Pending() < MAX_FLIGHT
      ensures ok ==> io == old(io).Say(Finished(fromServer, old(io).transcript))
    {
      ok := AddMessage(Finished(fromServer, io.transcript));
    }

    /** Checks the peer's Finished against everything hashed so far, then hashes and consumes it. */
    method GetFinished(fromServer: bool, accepted: bool) returns (wait: Wait)
      modifies this
      ensures match old(inbox)
        case None => wait == WaitRead && io == old(io) && inbox == None
        case Some(ChangeCipherSpec) => wait == WaitError
        case Some(Handshake(m)) =>
          if m == Finished(fromServer, old(io).transcript) && accepted then
            wait == WaitOk && io == old(io).Hear(m) && inbox == None
          else wait == WaitError
    {
      var msg, otherwise := GetMessage();
      if msg.None? {
        return otherwise;
      }
      if !msg.value.Finished? || msg.value.fromServer != fromServer {
        return WaitError;
      }
      if msg.value.mac != io.transcript || !accepted {
        return WaitError;
      }
      HearMessage(msg.value);
      return WaitOk;
    }

    /** The network delivers the next item. */
    method Arrive(item: Item)
      modifies this`inbox
      ensures inbox == Some(item)
    {
      inbox := Some(item);
    }

    method Flush()
      modifies this`io
      ensures io == old(io).Flush()
    {
      io := io.(visible := |io.sent|, flushed := true);
    }
  }
}
