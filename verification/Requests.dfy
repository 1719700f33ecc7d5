/** The single requests of a run: authorization fetch, order creation and refresh, the challenge
    poll loop, finalize with its poll loop, certificate download. */
module Requests {
  import opened Wrappers
  import opened Jws
  import opened Acme
  import opened Wire
  import opened Account

  // ---- reading the trace ---------------------------------------------------

  ghost predicate Accepted(e: Event) {
    e.Post? && e.reply.Ok? && e.reply.value.Success()
  }

  /** A POST-as-GET of `url` that a 2xx answered, with the body of the answer. */
  ghost predicate Read(e: Event, url: string, body: Body) {
    Accepted(e) && e.url == url && e.payload == AsGet && e.reply.value.body == body
  }

  ghost predicate ReadAuthorization(e: Event, url: string, authz: Authorization) {
    Accepted(e) && Read(e, url, e.reply.value.body) && e.reply.value.body.authorization == Some(authz)
  }

  ghost predicate ReadChallenge(e: Event, url: string, challenge: Challenge) {
    Accepted(e) && Read(e, url, e.reply.value.body) && e.reply.value.body.challenge == Some(challenge)
  }

  ghost predicate ReadOrder(e: Event, url: string, order: Order) {
    && Accepted(e) && Read(e, url, e.reply.value.body) && e.reply.value.body.order.Some?
    && order == e.reply.value.body.order.value.(url := url)
  }

  ghost predicate ReadChain(e: Event, url: string, chain: seq<byte>) {
    Accepted(e) && Read(e, url, e.reply.value.body) && e.reply.value.body.raw == chain
  }

  /** Requests that neither order nor finalize: HEADs, reads and challenge signals of the account. */
  ghost predicate Calm(e: Event, who: Signer) {
    e.Post? ==> ByAccount(e, who) && (e.payload.AsGet? || e.payload.ChallengeReady?)
  }

  ghost predicate Still(e: Event) {
    !e.Arm? && !e.Drop?
  }

  /** From `from` to the end of the trace every request is calm and no handle comes or goes. */
  ghost predicate CalmFrom(t: Trace, from: int, who: Signer) {
    forall i :: 0 <= from <= i < |t| ==> Calm(t[i], who) && Still(t[i])
  }

  /** A POST-as-GET of `url` by the account. */
  ghost predicate IsPoll(e: Event, url: string, who: Signer) {
    ByAccount(e, who) && e.url == url && e.payload == AsGet
  }

  lemma OneIsCalm(t: Trace, from: int, url: string, payload: Payload, who: Signer)
    requires OneRequest(t, from, url, payload, who) && (payload.AsGet? || payload.ChallengeReady?)
    ensures CalmFrom(t, from, who)
    ensures forall i :: from <= i < |t| && t[i].Post? ==> i == |t| - 1
  {
  }

  // ---- what the client makes of an answer ----------------------------------

  function BodyAnswer(reply: Reply): Result<Body, Error> {
    if reply.Err? then Err(reply.error)
    else if !reply.value.Success() then Err(Problem(reply.value.status))
    else Ok(reply.value.body)
  }

  function AuthorizationAnswer(reply: Reply): Result<Authorization, Error> {
    match BodyAnswer(reply)
    case Err(e) => Err(e)
    case Ok(body) => if body.authorization.Some? then Ok(body.authorization.value) else Err(Serialization)
  }

  function RefreshAnswer(reply: Reply, url: string): Result<Order, Error> {
    match BodyAnswer(reply)
    case Err(e) => Err(e)
    case Ok(body) => if body.order.Some? then Ok(body.order.value.(url := url)) else Err(Serialization)
  }

  function DownloadAnswer(reply: Reply): Result<seq<byte>, Error> {
    match BodyAnswer(reply)
    case Err(e) => Err(e)
    case Ok(body) => Ok(body.raw)
  }

  /** A poll of a challenge settles it, or (with no verdict) asks for another poll: only the strings
      `valid` and `invalid` settle, any other status keeps polling. */
  function ChallengeVerdict(reply: Reply): Option<Result<(), Error>> {
    match BodyAnswer(reply)
    case Err(e) => Some(Err(e))
    case Ok(body) =>
      if body.challenge.None? then Some(Err(Serialization))
      else if body.challenge.value.status == "valid" then Some(Ok(()))
      else if body.challenge.value.status == "invalid" then Some(Err(Malformed))
      else None
  }

  /** The same for a poll of the order; a valid order must name its certificate. */
  function OrderVerdict(reply: Reply, url: string): Option<Result<Order, Error>> {
    match RefreshAnswer(reply, url)
    case Err(e) => Some(Err(e))
    case Ok(order) =>
      if order.status == "valid" then
        Some(if order.certificate.None? then Err(MissingField("order.certificate")) else Ok(order))
      else if order.status == "invalid" then Some(Err(Malformed))
      else None
  }

  /** What a 2xx order poll does with the status string of its body. */
  lemma OrderVerdictByString(response: HttpResponse, url: string)
    requires response.status / 100 == 2 && response.body.order.Some?
    ensures var status, v := response.body.order.value.status, OrderVerdict(Result.Ok(response), url);
            && (v.None? <==> status != "valid" && status != "invalid")
            && (v == Some(Err(Malformed)) <==> status == "invalid")
            && ((v.Some? && v.value.Ok?) <==> status == "valid" && response.body.order.value.certificate.Some?)
            && (status in {"pending", "ready", "processing"} ==> v.None?)
  {
    StringsDiffer();
  }

  lemma ChallengeVerdictByString(response: HttpResponse)
    requires response.status / 100 == 2 && response.body.challenge.Some?
    ensures var status, v := response.body.challenge.value.status, ChallengeVerdict(Result.Ok(response));
            && (v.None? <==> status != "valid" && status != "invalid")
            && (v == Some(Err(Malformed)) <==> status == "invalid")
            && (v == Some(Ok(())) <==> status == "valid")
            && (status in {"pending", "processing"} ==> v.None?)
  {
    StringsDiffer();
  }

  // ---- one read ------------------------------------------------------------

  /** POST-as-GET `url` and require a 2xx. */
  method ReadUrl(url: string, account: Account, wire: Wire) returns (r: Result<Body, Error>)
    requires wire.Valid() && account.nonce.Valid()
    modifies wire, account.nonce
    ensures Moved(wire, account.nonce, r.Ok?) && wire.clock >= old(wire.clock) + wire.latency
    ensures wire.ledger.posts <= old(wire.ledger).posts + 1 && wire.ledger.live == old(wire.ledger).live
    ensures OneRequest(wire.trace, |old(wire.trace)|, url, AsGet, account.Who())
    ensures var e := wire.trace[|wire.trace| - 1];
            if e.Post? then r == BodyAnswer(e.reply)
            else r.Err? && GetFailed(e, r.error)
  {
    var reply :- PostKid(account, url, AsGet, wire);
    var response :- reply.Ok();
    return Ok(response.body);
  }

  /** `authorization::fetch`. */
  method FetchAuthorization(url: string, account: Account, wire: Wire) returns (r: Result<Authorization, Error>)
    requires wire.Valid() && account.nonce.Valid()
    modifies wire, account.nonce
    ensures Moved(wire, account.nonce, r.Ok?)
    ensures wire.ledger.posts <= old(wire.ledger).posts + 1 && wire.ledger.live == old(wire.ledger).live
    ensures OneRequest(wire.trace, |old(wire.trace)|, url, AsGet, account.Who())
    ensures var e := wire.trace[|wire.trace| - 1];
            if e.Post? then r == AuthorizationAnswer(e.reply)
            else r.Err? && GetFailed(e, r.error)
    ensures r.Ok? ==> ReadAuthorization(wire.trace[|wire.trace| - 1], url, r.value)
  {
    var body :- ReadUrl(url, account, wire);
    return if body.authorization.Some? then Ok(body.authorization.value) else Err(Serialization);
  }

  /** `order::refresh`. */
  method RefreshOrder(url: string, account: Account, wire: Wire) returns (r: Result<Order, Error>)
    requires wire.Valid() && account.nonce.Valid()
    modifies wire, account.nonce
    ensures Moved(wire, account.nonce, r.Ok?) && wire.clock >= old(wire.clock) + wire.latency
    ensures wire.ledger.posts <= old(wire.ledger).posts + 1 && wire.ledger.live == old(wire.ledger).live
    ensures OneRequest(wire.trace, |old(wire.trace)|, url, AsGet, account.Who())
    ensures var e := wire.trace[|wire.trace| - 1];
            if e.Post? then r == RefreshAnswer(e.reply, url)
            else r.Err? && GetFailed(e, r.error)
    ensures r.Ok? ==> ReadOrder(wire.trace[|wire.trace| - 1], url, r.value)
  {
    var body :- ReadUrl(url, account, wire);
    return if body.order.Some? then Ok(body.order.value.(url := url)) else Err(Serialization);
  }

  /** `certificate::download`. */
  method Download(url: string, account: Account, wire: Wire) returns (r: Result<seq<byte>, Error>)
    requires wire.Valid() && account.nonce.Valid()
    modifies wire, account.nonce
    ensures Moved(wire, account.nonce, r.Ok?)
    ensures wire.ledger.posts <= old(wire.ledger).posts + 1 && wire.ledger.live == old(wire.ledger).live
    ensures OneRequest(wire.trace, |old(wire.trace)|, url, AsGet, account.Who())
    ensures var e := wire.trace[|wire.trace| - 1];
            if e.Post? then r == DownloadAnswer(e.reply)
            else r.Err? && GetFailed(e, r.error)
    ensures r.Ok? ==> ReadChain(wire.trace[|wire.trace| - 1], url, r.value)
  {
    var body :- ReadUrl(url, account, wire);
    return Ok(body.raw);
  }

  // ---- ordering ------------------------------------------------------------

  /** What `order::create` makes of the answer: `Location` is checked before the status. */
  function OrderAnswer(reply: Reply): Result<Order, Error> {
    if reply.Err? then Err(reply.error)
    else if reply.value.Location().None? then Err(MissingField("Location"))
    else if !reply.value.Success() then Err(Problem(reply.value.status))
    else if reply.value.body.order.None? then Err(Serialization)
    else Ok(reply.value.body.order.value.(url := reply.value.Location().value))
  }

  function Failure<T>(r: Result<T, Error>): Option<Error> {
    match r case Ok(_) => None case Err(e) => Some(e)
  }

  /** The two creation calls take one answer differently in exactly two cases: an error answer without
      `Location`, and a complete 2xx answer whose body only one of them can decode. */
  lemma CreationsDiffer(reply: Reply)
    ensures Failure(OrderAnswer(reply)) != Failure(AccountAnswer(reply)) <==>
            && reply.Ok?
            && (if reply.value.Success() then
                  reply.value.Location().Some?
                  && (reply.value.body.order.Some? <==> reply.value.body.account.None?)
                else reply.value.Location().None?)
  {
  }

  /** `order::create`. */
  method CreateOrder(account: Account, identifiers: seq<Identifier>, wire: Wire) returns (r: Result<Order, Error>)
    requires wire.Valid() && account.nonce.Valid()
    modifies wire, account.nonce
    ensures Moved(wire, account.nonce, r.Ok?)
    ensures wire.ledger.posts <= old(wire.ledger).posts + 1 && wire.ledger.live == old(wire.ledger).live
    ensures OneRequest(wire.trace, |old(wire.trace)|, account.directory.newOrder, NewOrder(identifiers), account.Who())
    ensures var e := wire.trace[|wire.trace| - 1];
            if e.Post? then
              r == OrderAnswer(e.reply) && (r.Ok? ==> e.reply.Ok? && e.reply.value.Location() == Some(r.value.url))
            else r.Err? && GetFailed(e, r.error)
  {
    var reply :- PostKid(account, account.directory.newOrder, NewOrder(identifiers), wire);
    if reply.Location().None? {
      return Err(MissingField("Location"));
    }
    var response :- reply.Ok();
    if response.body.order.None? {
      return Err(Serialization);
    }
    return Ok(response.body.order.value.(url := reply.Location().value));
  }

  // ---- poll budgets --------------------------------------------------------

  /** At most this many polls fit a timeout: one at the start of every interval, and a last one. */
  function MaxPolls(timeout: nat, interval: nat): (r: nat)
    requires interval > 0
    ensures r >= 1
  {
    (timeout + interval - 1) / interval + 1
  }

  /** `n` units added up: the time `n` sleeps take, the POSTs of `n` authorizations. */
  function Times(n: nat, unit: nat): nat {
    if n == 0 then 0 else Times(n - 1, unit) + unit
  }

  lemma {:induction false} TimesMultiplies(n: nat, unit: nat)
    ensures Times(n, unit) == n * unit
  {
    if n > 0 {
      TimesMultiplies(n - 1, unit);
    }
  }

  /** `n` whole intervals inside the timeout leave room for another poll. */
  lemma PollFits(n: nat, timeout: nat, interval: nat)
    requires interval > 0 && Times(n, interval) < timeout
    ensures n + 2 <= MaxPolls(timeout, interval)
  {
    TimesMultiplies(n, interval);
    var c := (timeout + interval - 1) / interval;
    assert c * interval >= timeout;
    assert c <= n ==> c * interval <= n * interval;
  }

  /** Slower polls are fewer. */
  lemma SlowerPollsAreFewer(timeout: nat, fast: nat, slow: nat)
    requires 0 < fast <= slow
    ensures MaxPolls(timeout, slow) <= MaxPolls(timeout, fast)
  {
    var many, few := (timeout + fast - 1) / fast, (timeout + slow - 1) / slow;
    if few > many {
      assert many * fast >= timeout;
      assert many * slow >= many * fast;
      assert few * slow >= (many + 1) * slow;
      assert few * slow <= timeout + slow - 1;
    }
  }
}
