/**
 * Many requests through the authenticated transport at once, sharing one token provider:
 * each sends with a token, and renews and sends once more if that token is rejected.
 */
module DriveTransport {
  import opened Outcomes
  import opened TokenProvider

  /** Where one request of the transport stands. */
  datatype Phase =
    | AwaitFirst(mint: nat)
    | Sent(token: Token)
    | AwaitSecond(mint: nat, rejected: Token)
    | Resent(token: Token, rejected: Token)
    | Returned
    | Failed

  datatype World = World(provider: Provider, requests: map<nat, Phase>)

  datatype Event =
    | Begin(request: nat, now: int)               // a new request asks for a token
    | Answered(request: nat, status: int)         // the server answers what was sent
    | OthersGet(now: int)                         // some other user of the provider
    | OthersRefresh
    | SettleOk(expiresAt: int)
    | SettleFail

  /** The phase of a request that awaited `mint` once that mint has settled. */
  function Resume(ph: Phase, mint: nat, token: Option<Token>): Phase {
    match ph
    case AwaitFirst(m) => if m != mint then ph else if token.Some? then Sent(token.value) else Failed
    case AwaitSecond(m, r) => if m != mint then ph else if token.Some? then Resent(token.value, r) else Failed
    case _ => ph
  }

  function SettleWith(w: World, expiresAt: Option<int>): World {
    if w.provider.inFlight.None? then w
    else
      var mint := w.provider.inFlight.value;
      var token := if expiresAt.Some? then Some(Token(mint, expiresAt.value)) else None;
      World(Settle(w.provider, expiresAt), map i | i in w.requests :: Resume(w.requests[i], mint, token))
  }

  function Step(w: World, e: Event): World {
    match e
    case Begin(i, now) =>
      if i in w.requests then w
      else
        var (p, a) := GetToken(w.provider, now);
        World(p, w.requests[i := if a.Have? then Sent(a.token) else AwaitFirst(a.mint)])
    case Answered(i, status) =>
      if i !in w.requests then w
      else
        (match w.requests[i]
         case Sent(token) =>
           if status != 401 then w.(requests := w.requests[i := Returned])
           else
             var (p, a) := Refresh(w.provider);
             World(p, w.requests[i := if a.Await? then AwaitSecond(a.mint, token) else Resent(a.token, token)])
         case Resent(_, _) => w.(requests := w.requests[i := Returned])
         case _ => w)
    case OthersGet(now) => w.(provider := GetToken(w.provider, now).0)
    case OthersRefresh => w.(provider := Refresh(w.provider).0)
    case SettleOk(expiresAt) => SettleWith(w, Some(expiresAt))
    case SettleFail => SettleWith(w, None)
  }

  function Run(w: World, events: seq<Event>): World {
    if events == [] then w else Step(Run(w, events[..|events| - 1]), events[|events| - 1])
  }

  /** Every token about comes from a mint that has settled, and a second one from a later mint than the first. */
  predicate GoodPhase(p: Provider, ph: Phase) {
    match ph
    case AwaitFirst(m) => p.inFlight == Some(m)
    case Sent(t) => t.serial < p.settled
    case AwaitSecond(m, r) => p.inFlight == Some(m) && r.serial < m
    case Resent(t, r) => r.serial < t.serial < p.settled
    case _ => true
  }

  predicate Good(w: World) {
    Sound(w.provider) && forall i :: i in w.requests ==> GoodPhase(w.provider, w.requests[i])
  }

  lemma StepKeepsGood(w: World, e: Event)
    requires Good(w)
    ensures Good(Step(w, e))
  {
    var w' := Step(w, e);
    forall i | i in w'.requests ensures GoodPhase(w'.provider, w'.requests[i]) {
      if i in w.requests { assert GoodPhase(w.provider, w.requests[i]); }
    }
  }

  /** In every interleaving: one mint outstanding at most, and the single retry always carries a newer token. */
  lemma {:induction false} AlwaysGood(events: seq<Event>)
    ensures Good(Run(World(Fresh(), map[]), events))
    ensures var p := Run(World(Fresh(), map[]), events).provider;
            p.settled <= p.started <= p.settled + 1
    ensures var w := Run(World(Fresh(), map[]), events);
            forall i :: i in w.requests && w.requests[i].Resent? ==>
              w.requests[i].token.serial > w.requests[i].rejected.serial
    decreases |events|
  {
    if events != [] {
      AlwaysGood(events[..|events| - 1]);
      StepKeepsGood(Run(World(Fresh(), map[]), events[..|events| - 1]), events[|events| - 1]);
    }
    var w := Run(World(Fresh(), map[]), events);
    forall i | i in w.requests ensures GoodPhase(w.provider, w.requests[i]) {}
  }

  /**
   * When a mint settles, everybody waiting gets its one result and nobody is left waiting;
   * a failure leaves the cache as it was.
   */
  lemma JoinersShareTheResult(events: seq<Event>, expiresAt: Option<int>)
    requires Run(World(Fresh(), map[]), events).provider.inFlight.Some?
    ensures var w := Run(World(Fresh(), map[]), events);
            var w' := SettleWith(w, expiresAt);
            var token := Token(w.provider.inFlight.value, if expiresAt.Some? then expiresAt.value else 0);
            && w'.requests.Keys == w.requests.Keys
            && (forall i :: i in w.requests && w.requests[i].AwaitFirst? ==>
                  w'.requests[i] == if expiresAt.Some? then Sent(token) else Failed)
            && (forall i :: i in w.requests && w.requests[i].AwaitSecond? ==>
                  w'.requests[i] == if expiresAt.Some? then Resent(token, w.requests[i].rejected) else Failed)
            && (forall i :: i in w'.requests ==> !w'.requests[i].AwaitFirst? && !w'.requests[i].AwaitSecond?)
            && w'.provider.cached == (if expiresAt.Some? then Some(token) else w.provider.cached)
  {
    AlwaysGood(events);
    var w := Run(World(Fresh(), map[]), events);
    forall i | i in w.requests ensures GoodPhase(w.provider, w.requests[i]) {}
  }

  /**
   * A token that has been rejected is not what anybody is answered from the cache at once: the
   * rejection empties it.
   */
  lemma RejectionEmptiesTheCache(events: seq<Event>, i: nat)
    requires var w := Run(World(Fresh(), map[]), events); i in w.requests && w.requests[i].Sent?
    ensures var w := Run(World(Fresh(), map[]), events);
            var w' := Step(w, Answered(i, 401));
            && w'.provider.cached == None
            && w'.requests[i].AwaitSecond? && w'.requests[i].rejected == w.requests[i].token
            && w'.requests[i].mint > w.requests[i].token.serial
            && (w.provider.inFlight.Some? ==> w'.provider.started == w.provider.started)
  {
    AlwaysGood(events);
    var w := Run(World(Fresh(), map[]), events);
    assert GoodPhase(w.provider, w.requests[i]);
  }

  // ----- how often a request is sent, and when a mint is started -----

  /** What the server answered to what this request sent, in order. */
  function Sends(events: seq<Event>, i: nat): seq<int> {
    if events == [] then []
    else
      var before, last := events[..|events| - 1], events[|events| - 1];
      var w := Run(World(Fresh(), map[]), before);
      Sends(before, i)
      + (if last.Answered? && last.request == i && i in w.requests && (w.requests[i].Sent? || w.requests[i].Resent?)
         then [last.status] else [])
  }

  /**
   * Whatever else happens: a request is sent once more exactly when its first answer was a 401, and
   * what comes then is returned.
   */
  predicate SentRightly(ph: Phase, sends: seq<int>) {
    match ph
    case AwaitFirst(_) => sends == []
    case Sent(_) => sends == []
    case AwaitSecond(_, _) => sends == [401]
    case Resent(_, _) => sends == [401]
    case Returned => (|sends| == 1 && sends[0] != 401) || (|sends| == 2 && sends[0] == 401)
    case Failed => sends == [] || sends == [401]
  }

  /** In every interleaving, for every request. */
  lemma {:induction false} SentAtMostTwice(events: seq<Event>, i: nat)
    ensures var w := Run(World(Fresh(), map[]), events);
            if i in w.requests then SentRightly(w.requests[i], Sends(events, i)) else Sends(events, i) == []
    decreases |events|
  {
    if events != [] {
      var before := events[..|events| - 1];
      SentAtMostTwice(before, i);
      AlwaysGood(before);
      SentOn(Run(World(Fresh(), map[]), before), events[|events| - 1], i, Sends(before, i));
    }
  }

  lemma SentOn(w: World, e: Event, i: nat, sends: seq<int>)
    requires Good(w) && (if i in w.requests then SentRightly(w.requests[i], sends) else sends == [])
    ensures var more := if e.Answered? && e.request == i && i in w.requests && (w.requests[i].Sent? || w.requests[i].Resent?)
                        then [e.status] else [];
            var w' := Step(w, e);
            if i in w'.requests then SentRightly(w'.requests[i], sends + more) else sends + more == []
  {
    assert sends + [] == sends;
    if i in w.requests { assert GoodPhase(w.provider, w.requests[i]); }
  }

  /** No token that is good for five minutes more is at hand. */
  predicate NoneAtHand(p: Provider, now: int) {
    p.cached.None? || p.cached.value.expiresAt - now <= 300000
  }

  predicate IsRejected(w: World, e: Event) {
    e.Answered? && e.status == 401 && e.request in w.requests && w.requests[e.request].Sent?
  }

  /** Someone needs a token that is not at hand. */
  predicate NeedsMint(w: World, e: Event) {
    || (e.Begin? && e.request !in w.requests && NoneAtHand(w.provider, e.now))
    || (e.OthersGet? && NoneAtHand(w.provider, e.now))
    || e.OthersRefresh?
    || IsRejected(w, e)
  }

  /**
   * In every interleaving: a mint is started exactly when somebody needs a token that is not at hand
   * and none is under way; a good token at hand is what a new request is sent with; and what
   * is cached is thrown away only by a rejection of a first answer or a refresh from outside.
   */
  lemma MintsExactly(events: seq<Event>, e: Event)
    ensures var w := Run(World(Fresh(), map[]), events);
            var p, p' := w.provider, Step(w, e).provider;
            && p'.started == p.started + (if p.inFlight.None? && NeedsMint(w, e) then 1 else 0)
            && (p.cached.Some? && p'.cached.None? ==> e.OthersRefresh? || IsRejected(w, e))
            && (e.Begin? && e.request !in w.requests && !NoneAtHand(p, e.now) ==>
                  Step(w, e).requests[e.request] == Sent(p.cached.value))
            && (e.Answered? && !IsRejected(w, e) ==> p' == p)
  {
    AlwaysGood(events);
    hide Run;
  }
}
