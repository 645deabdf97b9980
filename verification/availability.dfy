/** The availability check. The DNS lookup itself is network I/O and is
    modelled as an oracle: a total function from host name to the outcome
    the resolver's callback receives. */
module Availability {

  /** What the resolver's callback receives: no error, or an error of any kind.
      The oracle decides which case applies to a host; the callback looks at
      nothing but whether an error was passed. */
  datatype Resolution = Resolved | ResolveError

  type Resolver = string -> Resolution

  /** A host is reported available exactly when its lookup reports an error,
      and unavailable when it does not. Every error passed to the lookup
      callback becomes `true`, so no such error aborts a resolver. */
  function IsDomainAvailable(resolve: Resolver, host: string): (available: bool)
    ensures resolve(host).ResolveError? ==> available
    ensures resolve(host).Resolved? ==> !available
  {
    match resolve(host)
    case ResolveError => true
    case Resolved => false
  }

}
