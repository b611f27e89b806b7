/**
 * The Google token provider: a cached token, and at most one mint under way that
 * everybody who needs a token meanwhile shares.
 */
module TokenProvider {
  import opened Outcomes

  /** A token, with the number of the mint it came from. */
  datatype Token = Token(serial: nat, expiresAt: int)

  const REFRESH_BUFFER_MS: int := 300000

  predicate StillValid(t: Token, now: int) {
    t.expiresAt - now > REFRESH_BUFFER_MS
  }

  /** `started` mints have been requested and `settled` of them have come to an end. */
  datatype Provider = Provider(cached: Option<Token>, inFlight: Option<nat>, started: nat, settled: nat)

  /** A caller has its token at once, or waits for the mint of that number. */
  datatype Answer = Have(token: Token) | Await(mint: nat)

  function Fresh(): Provider {
    Provider(None, None, 0, 0)
  }

  function Mint(p: Provider): (Provider, Answer) {
    (p.(inFlight := Some(p.started), started := p.started + 1), Await(p.started))
  }

  function GetToken(p: Provider, now: int): (Provider, Answer) {
    if p.cached.Some? && StillValid(p.cached.value, now) then (p, Have(p.cached.value))
    else if p.inFlight.Some? then (p, Await(p.inFlight.value))
    else Mint(p)
  }

  function Refresh(p: Provider): (Provider, Answer) {
    var cleared := p.(cached := None);
    if p.inFlight.Some? then (cleared, Await(p.inFlight.value)) else Mint(cleared)
  }

  /** The mint under way answers with a token, or fails; either way it is no longer under way. */
  function Settle(p: Provider, expiresAt: Option<int>): Provider
    requires p.inFlight.Some?
  {
    var over := p.(inFlight := None, settled := p.settled + 1);
    if expiresAt.Some? then over.(cached := Some(Token(p.inFlight.value, expiresAt.value))) else over
  }

  /** One mint at a time, the latest; whatever is cached came from an earlier one. */
  predicate Sound(p: Provider) {
    && p.started == p.settled + (if p.inFlight.Some? then 1 else 0)
    && (p.inFlight.Some? ==> p.inFlight.value == p.settled)
    && (p.cached.Some? ==> p.cached.value.serial < p.settled)
  }

  class GoogleTokenProvider {
    var cached: Option<Token>
    var inFlight: Option<nat>
    var started: nat
    var settled: nat

    function State(): Provider
      reads this
    {
      Provider(cached, inFlight, started, settled)
    }

    constructor ()
      ensures State() == Fresh() && Sound(State())
    {
      cached, inFlight, started, settled := None, None, 0, 0;
    }

    method StartMint() returns (a: Answer)
      requires inFlight.None?
      modifies this
      ensures (State(), a) == Mint(old(State()))
    {
      a := Await(started);
      inFlight := Some(started);
      started := started + 1;
    }

    method TokenNow(now: int) returns (a: Answer)
      requires Sound(State())
      modifies this
      ensures (State(), a) == GetToken(old(State()), now) && Sound(State())
      ensures cached == old(cached) && settled == old(settled)
      ensures a.Have? <==> old(cached).Some? && old(cached).value.expiresAt - now > 300000
      ensures a.Have? ==> a.token == old(cached).value && inFlight == old(inFlight) && started == old(started)
      ensures a.Await? ==>
                && inFlight == Some(a.mint)
                && (if old(inFlight).Some? then inFlight == old(inFlight) && started == old(started)
                    else a.mint == old(started) && started == old(started) + 1)
    {
      if cached.Some? && StillValid(cached.value, now) { return Have(cached.value); }
      if inFlight.Some? { return Await(inFlight.value); }
      a := StartMint();
    }

    method Renew() returns (a: Answer)
      requires Sound(State())
      modifies this
      ensures (State(), a) == Refresh(old(State())) && Sound(State())
      ensures a.Await? && inFlight == Some(a.mint) && cached == None && settled == old(settled)
      ensures if old(inFlight).Some? then inFlight == old(inFlight) && started == old(started)
              else a.mint == old(started) && started == old(started) + 1
    {
      cached := None;
      if inFlight.Some? { return Await(inFlight.value); }
      a := StartMint();
    }

    /** A failure clears the mint and leaves the cache as it is: it is never what a later caller is answered with. */
    method MintSettles(expiresAt: Option<int>)
      requires Sound(State()) && inFlight.Some?
      modifies this
      ensures State() == Settle(old(State()), expiresAt) && Sound(State())
      ensures inFlight == None && started == old(started)
      ensures cached == if expiresAt.Some? then Some(Token(old(inFlight).value, expiresAt.value)) else old(cached)
    {
      if expiresAt.Some? { cached := Some(Token(inFlight.value, expiresAt.value)); }
      inFlight := None;
      settled := settled + 1;
    }
  }
}
