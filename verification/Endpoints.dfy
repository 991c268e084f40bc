/** The endpoint object of `src/endpoint.rs`: choosing a contact, resolving the public address in
    place, and the sequence of exchanges in `new_peer` with their errors. */
module Endpoints {
  import opened Types
  import opened Errors
  import opened Wire
  import opened Bootstrap

  /** How one request to the contact ended. */
  datatype Call = SendFailed(error: SendError) | Elapsed | Got(result: ReadResult)

  datatype EndpointError =
    | EndpointEcho(error: RpcError)
    | Upnp
    | EndpointVerification(error: RpcError)
    | Unreachable(publicAddr: SocketAddr)

  function EchoRpc(x: Call): Result<SocketAddr, RpcError> {
    match x
    case SendFailed(e) => Err(RpcSend(e))
    case Elapsed => Err(RpcTimedOut)
    case Got(Err(e)) => Err(RpcRecv(e))
    case Got(Ok(Some(EndpointEchoResp(addr)))) => Ok(addr)
    case Got(Ok(msg)) => Err(RpcRecv(RecvSerialization(Unexpected(msg))))
  }

  function VerificationRpc(x: Call): Result<bool, RpcError> {
    match x
    case SendFailed(e) => Err(RpcSend(e))
    case Elapsed => Err(RpcTimedOut)
    case Got(Err(e)) => Err(RpcRecv(e))
    case Got(Ok(Some(EndpointVerificationResp(valid)))) => Ok(valid)
    case Got(Ok(msg)) => Err(RpcRecv(RecvSerialization(Unexpected(msg))))
  }

  /** Only the reply that belongs to the request is taken; the end of the stream, or any other message,
      is an error that tells what came instead. */
  lemma OnlyTheExpectedReply(x: Call, addr: SocketAddr, valid: bool)
    ensures EchoRpc(x) == Ok(addr) <==> x == Got(Ok(Some(EndpointEchoResp(addr))))
    ensures VerificationRpc(x) == Ok(valid) <==> x == Got(Ok(Some(EndpointVerificationResp(valid))))
    ensures x.SendFailed? ==> EchoRpc(x) == Err(RpcSend(x.error)) && VerificationRpc(x) == Err(RpcSend(x.error))
    ensures x.Elapsed? ==> EchoRpc(x) == Err(RpcTimedOut) && VerificationRpc(x) == Err(RpcTimedOut)
    ensures x.Got? && x.result.Err? ==>
              EchoRpc(x) == Err(RpcRecv(x.result.error)) && VerificationRpc(x) == Err(RpcRecv(x.result.error))
    ensures x.Got? && x.result.Ok? && EchoRpc(x).Err? ==>
              EchoRpc(x).error == RpcRecv(RecvSerialization(Unexpected(x.result.value)))
    ensures x.Got? && x.result.Ok? && VerificationRpc(x).Err? ==>
              VerificationRpc(x).error == RpcRecv(RecvSerialization(Unexpected(x.result.value)))
  {
  }

  /** What comes of an echo request to the contact, and of a request to verify an address. */
  datatype Replies = Replies(echo: Call, verify: SocketAddr -> Call)

  /** The race for a contact. `completions` lists the attempts in the order in which they finish;
      the first to succeed wins and the rest is dropped. */
  method ConnectToAny<C>(completions: seq<Result<C, ConnectionError>>) returns (winner: Option<C>)
    ensures winner.None? <==> forall i :: 0 <= i < |completions| ==> completions[i].Err?
    ensures winner.Some? ==>
              exists i :: 0 <= i < |completions| && completions[i] == Ok(winner.value)
                          && forall j :: 0 <= j < i ==> completions[j].Err?
  {
    var i := 0;
    while i < |completions|
      invariant 0 <= i <= |completions|
      invariant forall j :: 0 <= j < i ==> completions[j].Err?
    {
      if completions[i].Ok? {
        return Some(completions[i].value);
      }
      i := i + 1;
    }
    return None;
  }

  class Endpoint {
    const localAddr: SocketAddr
    var publicAddr: Option<SocketAddr>

    constructor (localAddr: SocketAddr)
      ensures this.localAddr == localAddr && publicAddr.None?
    {
      this.localAddr := localAddr;
      publicAddr := None;
    }

    /** The public address as reported: the resolved one if there is one, else the local one. */
    function PublicAddr(): SocketAddr
      reads this
    {
      OrElse(publicAddr, localAddr)
    }

    /** Starts from the local address and replaces the IP and the port, each by the configured value
        or else by the one the contact sees. */
    method ResolvePublicAddr(cfg: Config, contact: Option<Replies>)
      returns (r: Result<SocketAddr, EndpointError>)
      modifies this
      ensures contact.Some? && EchoRpc(contact.value.echo).Err? ==>
                && r == Err(EndpointEcho(EchoRpc(contact.value.echo).error))
                && publicAddr == old(publicAddr)
      ensures !(contact.Some? && EchoRpc(contact.value.echo).Err?) ==>
                && r == Ok(Resolve(cfg, Seen(contact), localAddr))
                && publicAddr == Some(Resolve(cfg, Seen(contact), localAddr))
      ensures contact.Some? ==> (r.Ok? <==> EchoRpc(contact.value.echo).Ok?)
      ensures r.Ok? && cfg.externalIp.Some? ==> r.value.ip == cfg.externalIp.value
      ensures r.Ok? && cfg.externalIp.None? && contact.Some? ==>
                r.value.ip == EchoRpc(contact.value.echo).value.ip
      ensures r.Ok? && cfg.externalIp.None? && contact.None? ==> r.value.ip == localAddr.ip
      ensures r.Ok? && cfg.externalPort.Some? ==> r.value.port == cfg.externalPort.value
      ensures r.Ok? && cfg.externalPort.None? && contact.Some? ==>
                r.value.port == EchoRpc(contact.value.echo).value.port
      ensures r.Ok? && cfg.externalPort.None? && contact.None? ==> r.value.port == localAddr.port
    {
      var addr := localAddr;
      var visible: Option<SocketAddr> := None;
      if contact.Some? {
        var echo := EchoRpc(contact.value.echo);
        if echo.Err? {
          return Err(EndpointEcho(echo.error));
        }
        visible := Some(echo.value);
      }
      if cfg.externalIp.Some? {
        addr := addr.(ip := cfg.externalIp.value);
      } else if visible.Some? {
        addr := addr.(ip := visible.value.ip);
      }
      if cfg.externalPort.Some? {
        addr := addr.(port := cfg.externalPort.value);
      } else if visible.Some? {
        addr := addr.(port := visible.value.port);
      }
      publicAddr := Some(addr);
      return Ok(addr);
    }

    /** The exchanges of `new_peer`, in order. It succeeds exactly when the contact, if there is
        one, answered the echo request and confirmed the very address the endpoint then reports,
        and the port mapping, if asked for, was made. */
    method NewPeer(cfg: Config, contact: Option<Replies>, mapped: bool)
      returns (r: Result<(), EndpointError>)
      modifies this
      ensures r.Ok? <==>
                && (cfg.forwardPort ==> mapped)
                && (contact.Some? ==>
                      && EchoRpc(contact.value.echo).Ok?
                      && VerificationRpc(contact.value.verify(Resolve(cfg, Seen(contact), localAddr)))
                         == Ok(true))
      ensures r.Ok? ==> PublicAddr() == Resolve(cfg, Seen(contact), localAddr)
      ensures r.Ok? && cfg.externalIp.Some? ==> PublicAddr().ip == cfg.externalIp.value
      ensures r.Ok? && cfg.externalIp.None? && contact.Some? ==>
                PublicAddr().ip == EchoRpc(contact.value.echo).value.ip
      ensures r.Ok? && cfg.externalIp.None? && contact.None? ==> PublicAddr().ip == localAddr.ip
      ensures r.Ok? && cfg.externalPort.Some? ==> PublicAddr().port == cfg.externalPort.value
      ensures r.Ok? && cfg.externalPort.None? && contact.Some? ==>
                PublicAddr().port == EchoRpc(contact.value.echo).value.port
      ensures r.Ok? && cfg.externalPort.None? && contact.None? ==> PublicAddr().port == localAddr.port
      ensures r.Err? && r.error.Unreachable? ==>
                && contact.Some?
                && r.error.publicAddr == PublicAddr() == Resolve(cfg, Seen(contact), localAddr)
                && VerificationRpc(contact.value.verify(PublicAddr())) == Ok(false)
      ensures r.Err? && r.error.EndpointVerification? ==>
                && contact.Some?
                && VerificationRpc(contact.value.verify(PublicAddr())) == Err(r.error.error)
      ensures r.Err? && r.error.EndpointEcho? ==>
                contact.Some? && EchoRpc(contact.value.echo) == Err(r.error.error)
      ensures r.Err? && r.error.Upnp? <==>
                && cfg.forwardPort && !mapped
                && (contact.Some? ==> EchoRpc(contact.value.echo).Ok?)
    {
      var resolved := ResolvePublicAddr(cfg, contact);
      if resolved.Err? {
        return Err(resolved.error);
      }
      var addr := resolved.value;
      publicAddr := Some(addr);
      if cfg.forwardPort && !mapped {
        return Err(Upnp);
      }
      if contact.Some? {
        var valid := VerificationRpc(contact.value.verify(addr));
        if valid.Err? {
          return Err(EndpointVerification(valid.error));
        }
        if !valid.value {
          return Err(Unreachable(addr));
        }
      }
      return Ok(());
    }
  }

  /** The address the contact reported, if any. */
  function Seen(contact: Option<Replies>): Option<SocketAddr> {
    if contact.Some? && EchoRpc(contact.value.echo).Ok? then Some(EchoRpc(contact.value.echo).value)
    else None
  }
}
