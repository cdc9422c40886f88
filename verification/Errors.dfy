/** The exceptions that travel through the relay, and operations that raise one. */
module Errors {
  import opened Wrappers

  /** `Stopped` ends the process or cancels its work; it is the one that no `except Exception` clause catches. */
  datatype Exc =
    | PoisonEpisode | UnknownPayloadType | NamespaceValidation | IdentifierValidation | PydanticValidation
    | EmbedDimension | EmbedRequest | EmbedService | EmbedTimeout | Connection | Timeout
    | SupersessionValidation | Other | Stopped

  /** What a store operation can raise: the embedding service's errors, the store's own, or the end of the process. */
  predicate FromStore(e: Exc) {
    e in {EmbedDimension, EmbedRequest, EmbedService, EmbedTimeout, Connection, Timeout, Other, Stopped}
  }

  /** Raised only where something is embedded, that is, on a put. */
  predicate Embeds(e: Exc) { e in {EmbedDimension, EmbedRequest, EmbedService, EmbedTimeout} }

  type StoreExc = e: Exc | FromStore(e) witness Other

  /** After this many further operations, every operation raises the exception. */
  datatype Fault = Fault(after: nat, exc: StoreExc)

  /** How a store is going to fail: `searches` is the number of searches left before searching fails. */
  datatype Health = Health(fault: Option<Fault>, searches: Option<nat>)
  {
    predicate Due() { fault.Some? && fault.value.after == 0 }

    /** What a put raises now. */
    function Raises(): Option<Exc> { if Due() then Some(fault.value.exc) else None }

    /** What a read raises now: it embeds nothing. */
    function ReadRaises(): Option<Exc> { if Due() && !Embeds(fault.value.exc) then Some(fault.value.exc) else None }

    /** After one more operation. */
    function Sooner(): Health {
      if fault.Some? && fault.value.after > 0 then this.(fault := Some(fault.value.(after := fault.value.after - 1))) else this
    }

    /** Later on: no new way to fail has come up, and none has gone. */
    predicate Leads(later: Health) {
      && (fault.None? <==> later.fault.None?) && (fault.Some? ==> fault.value.exc == later.fault.value.exc)
      && (searches.None? <==> later.searches.None?)
    }

    /** An exception that can come from here. */
    predicate MayRaise(raised: Exc) { fault.Some? && raised == fault.value.exc }
  }

  const HEALTHY := Health(None, None)
}
