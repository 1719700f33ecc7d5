/** The whole run: `issue_certificate_with_timeouts`, finalize and its poll loop (`certificate.rs`),
    and the name list of the CSR (`csr.rs`). */
module Issuance {
  import opened Wrappers
  import opened Jws
  import opened Acme
  import opened Wire
  import opened Account
  import opened Requests
  import opened Challenges

  /** The certificate key: a CSR encoder for a list of DNS names, which may refuse the names. */
  datatype CertificateKey = CertificateKey(request: seq<string> -> Option<seq<byte>>)

  // ---- the CSR -------------------------------------------------------------

  /** Collects the names of `dns` identifiers; the first identifier of another kind fails the list. */
  function DnsNames(identifiers: seq<Identifier>): Result<seq<string>, Error> {
    if identifiers == [] then Ok([])
    else if identifiers[0].kind != "dns" then Err(BadCsr)
    else
      match DnsNames(identifiers[1..])
      case Err(e) => Err(e)
      case Ok(rest) => Ok([identifiers[0].value] + rest)
  }

  function BuildCsr(key: CertificateKey, identifiers: seq<Identifier>): Result<seq<byte>, Error> {
    if identifiers == [] then Err(BadCsr)
    else
      match DnsNames(identifiers)
      case Err(e) => Err(e)
      case Ok(names) =>
        match key.request(names)
        case None => Err(BadCsr)
        case Some(der) => Ok(der)
  }

  lemma {:induction false} DnsNamesAreTheIdentifiers(identifiers: seq<Identifier>, names: seq<string>)
    ensures DnsNames(identifiers) == Ok(names) <==>
            |names| == |identifiers| && forall i :: 0 <= i < |names| ==> identifiers[i] == Identifier("dns", names[i])
  {
    if identifiers != [] {
      if names != [] {
        DnsNamesAreTheIdentifiers(identifiers[1..], names[1..]);
        assert names == [names[0]] + names[1..];
        if |names| == |identifiers| && forall i :: 0 <= i < |names| ==> identifiers[i] == Identifier("dns", names[i]) {
          assert forall i :: 0 <= i < |names| - 1 ==> identifiers[1..][i] == Identifier("dns", names[1..][i]);
        }
        if DnsNames(identifiers) == Ok(names) {
          assert DnsNames(identifiers).value[1..] == DnsNames(identifiers[1..]).value;
          forall i | 0 <= i < |names|
            ensures identifiers[i] == Identifier("dns", names[i])
          {
            assert i > 0 ==> identifiers[1..][i - 1] == Identifier("dns", names[1..][i - 1]);
          }
        }
      }
    }
  }

  /** `csr` is the encoding of a request for exactly these DNS identifiers. */
  ghost predicate EncodedFor(certKey: CertificateKey, identifiers: seq<Identifier>, names: seq<string>,
                             csr: Option<seq<byte>>) {
    && |names| == |identifiers|
    && (forall n :: 0 <= n < |names| ==> identifiers[n] == Identifier("dns", names[n]))
    && csr.Some? && certKey.request(names) == csr
  }

  /** A CSR is built exactly for a non-empty list of DNS identifiers whose names, in order, the encoder takes. */
  lemma CsrIsForTheNames(key: CertificateKey, identifiers: seq<Identifier>, der: seq<byte>)
    ensures BuildCsr(key, identifiers) == Ok(der) <==>
            identifiers != [] && exists names :: EncodedFor(key, identifiers, names, Some(der))
    ensures BuildCsr(key, identifiers).Err? ==> BuildCsr(key, identifiers).error == BadCsr
  {
    if DnsNames(identifiers).Ok? {
      DnsNamesAreTheIdentifiers(identifiers, DnsNames(identifiers).value);
      assert BuildCsr(key, identifiers) == Ok(der) ==>
             EncodedFor(key, identifiers, DnsNames(identifiers).value, Some(der));
    }
    forall names | EncodedFor(key, identifiers, names, Some(der))
      ensures DnsNames(identifiers) == Ok(names)
    {
      DnsNamesAreTheIdentifiers(identifiers, names);
    }
    DnsErrors(identifiers);
  }

  lemma {:induction false} DnsErrors(identifiers: seq<Identifier>)
    ensures DnsNames(identifiers).Err? ==> DnsNames(identifiers).error == BadCsr
  {
    if identifiers != [] {
      DnsErrors(identifiers[1..]);
    }
  }

  // ---- finalize ------------------------------------------------------------

  /** The POST that finalizes `order`: at its finalize URL, with a CSR for exactly its identifiers. */
  ghost predicate FinalizePost(e: Event, order: Order, key: CertificateKey, who: Signer) {
    && ByAccount(e, who) && e.url == order.finalize && e.payload.Csr?
    && BuildCsr(key, order.identifiers) == Ok(e.payload.der)
  }

  /** From `from` on every event but the one at `at` is calm, and no handle comes or goes. */
  ghost predicate CalmExcept(t: Trace, from: int, at: int, who: Signer) {
    forall i :: 0 <= from <= i < |t| && i != at ==> Calm(t[i], who) && Still(t[i])
  }

  /** Between `from` and `to` there are only polls that left the order unsettled, and nonce HEADs. */
  ghost predicate OrderUnsettled(t: Trace, from: int, to: int, url: string, who: Signer)
    requires to <= |t|
  {
    forall i :: 0 <= from <= i < to ==>
                  t[i].Head? || (IsPoll(t[i], url, who) && OrderVerdict(t[i].reply, url).None?)
  }

  /** The order poll loop of `finalize_with_intervals`. */
  method PollOrder(order: Order, account: Account, wire: Wire, timeout: nat, interval: nat)
    returns (r: Result<Order, Error>)
    requires interval + wire.latency > 0
    requires wire.Valid() && account.nonce.Valid()
    modifies wire, account.nonce
    ensures Moved(wire, account.nonce, r.Ok?)
    ensures wire.ledger.live == old(wire.ledger).live
    ensures wire.ledger.posts <= old(wire.ledger).posts + MaxPolls(timeout, interval + wire.latency)
    ensures |wire.trace| > |old(wire.trace)|
    ensures OrderUnsettled(wire.trace, |old(wire.trace)|, |wire.trace| - 1, order.url, account.Who())
    ensures var e := wire.trace[|wire.trace| - 1];
            if e.Post? then
              && IsPoll(e, order.url, account.Who())
              && match OrderVerdict(e.reply, order.url)
                 case Some(verdict) => r == verdict
                 case None => r == Err(Timeout) && wire.clock >= old(wire.clock) + timeout
            else r.Err? && GetFailed(e, r.error)
    ensures r.Ok? ==>
              && ReadOrder(wire.trace[|wire.trace| - 1], order.url, r.value)
              && r.value.status == "valid" && r.value.certificate.Some?
  {
    var start := wire.Now();
    var deadline := start + timeout;
    ghost var polls, pace := 0, interval + wire.latency;
    ghost var budget := MaxPolls(timeout, pace);
    while true
      invariant Moved(wire, account.nonce, true)
      invariant wire.ledger.live == old(wire.ledger).live
      invariant OrderUnsettled(wire.trace, |old(wire.trace)|, |wire.trace|, order.url, account.Who())
      invariant wire.ledger.posts <= old(wire.ledger).posts + polls && polls < budget
      invariant wire.clock >= start + Times(polls, pace)
      decreases deadline - wire.clock
    {
      var refreshed :- RefreshOrder(order.url, account, wire);
      var status := refreshed.StatusEnum();
      OrderStrings(refreshed.status);
      if status.Valid? {
        return if refreshed.certificate.None? then Err(MissingField("order.certificate")) else Ok(refreshed);
      }
      if status.Invalid? {
        return Err(Malformed);
      }
      var now := wire.Now();
      if now >= deadline {
        return Err(Timeout);
      }
      wire.Sleep(interval);
      PollFits(polls, timeout, pace);
      polls := polls + 1;
    }
  }

  /** The order was read as `valid` at `refreshed`, with this certificate URL. */
  ghost predicate NamedCertificate(t: Trace, refreshed: int, orderUrl: string, url: string) {
    && 0 <= refreshed < |t|
    && exists o :: ReadOrder(t[refreshed], orderUrl, o) && o.status == "valid" && o.certificate == Some(url)
  }

  /** A finalize POST that is not accepted is the last event. After an accepted one the order is read,
      and once it was read as `valid` its certificate; nothing else is posted. */
  ghost predicate ReadsAfterFinalize(t: Trace, orderUrl: string, finalized: int, refreshed: int) {
    && 0 <= finalized < |t| && (finalized < |t| - 1 ==> Accepted(t[finalized]))
    && (refreshed != -1 ==> finalized < refreshed < |t| - 1)
    && forall i :: finalized < i < |t| && t[i].Post? ==>
         && t[i].payload.AsGet?
         && if 0 <= refreshed < i then NamedCertificate(t, refreshed, orderUrl, t[i].url) else t[i].url == orderUrl
  }

  /** Finalizing failed on the last event: a nonce HEAD, the finalize POST at `at`, or a poll. */
  ghost predicate FinalizeFailed(t: Trace, at: int, orderUrl: string, error: Error) {
    && t != []
    && var e := t[|t| - 1];
       if !e.Post? then GetFailed(e, error)
       else if at == |t| - 1 then BodyAnswer(e.reply) == Err(error)
       else e.url == orderUrl && e.payload == AsGet && PollFailed(OrderVerdict(e.reply, orderUrl), error)
  }

  /** The trace ends with a poll that left the order unsettled. */
  ghost predicate OrderTimedOut(t: Trace, at: int, orderUrl: string) {
    && t != [] && at < |t| - 1 && t[|t| - 1].Post? && t[|t| - 1].payload.AsGet?
    && OrderVerdict(t[|t| - 1].reply, orderUrl).None?
  }

  /** No finalize POST was sent after `from`: the order has no URL, its identifiers make no CSR, or the
      nonce HEAD failed. */
  ghost predicate NotSent(t: Trace, from: int, order: Order, key: CertificateKey, error: Error) {
    if order.url == "" then |t| == from && error == MissingField("order.url")
    else if BuildCsr(key, order.identifiers).Err? then |t| == from && error == BadCsr
    else |t| == from + 1 && |t| > 0 && GetFailed(t[|t| - 1], error)
  }

  /** The finalize POST at `at` is the next request after `from`, but for a nonce HEAD. */
  ghost predicate NextPost(t: Trace, from: int, at: int) {
    0 <= from <= at < |t| && at <= from + 1 && (at == from + 1 ==> t[from].Head?)
  }

  /** `finalize_with_intervals`; `at` is the position of the finalize POST, or -1. */
  method Finalize(order: Order, key: CertificateKey, account: Account, wire: Wire, timeout: nat, interval: nat)
    returns (r: Result<Order, Error>, ghost at: int)
    requires interval + wire.latency > 0
    requires wire.Valid() && account.nonce.Valid()
    modifies wire, account.nonce
    ensures Moved(wire, account.nonce, r.Ok?)
    ensures wire.ledger.live == old(wire.ledger).live
    ensures wire.ledger.posts <= old(wire.ledger).posts + 1 + MaxPolls(timeout, interval + wire.latency)
    ensures at == -1 ==> r.Err? && NotSent(wire.trace, |old(wire.trace)|, order, key, r.error)
    ensures at != -1 ==>
              && NextPost(wire.trace, |old(wire.trace)|, at) && FinalizePost(wire.trace[at], order, key, account.Who())
              && ReadsAfterFinalize(wire.trace, order.url, at, -1)
              && (r.Err? ==> FinalizeFailed(wire.trace, at, order.url, r.error))
              && (r.Err? && OrderTimedOut(wire.trace, at, order.url) ==> wire.clock >= old(wire.clock) + timeout)
    ensures CalmExcept(wire.trace, |old(wire.trace)|, at, account.Who())
    ensures r.Ok? ==>
              && 0 <= at < |wire.trace| - 1 && Accepted(wire.trace[at])
              && ReadOrder(wire.trace[|wire.trace| - 1], order.url, r.value)
              && r.value.status == "valid" && r.value.certificate.Some?
  {
    at := -1;
    CsrErrors(key, order.identifiers);
    if order.url == "" {
      return Err(MissingField("order.url")), at;
    }
    var der :- BuildCsr(key, order.identifiers);
    var sent;
    sent, at := PostCsr(order, der, account, wire);
    var _ :- sent;
    ghost var posted := wire.trace;
    r := PollOrder(order, account, wire, timeout, interval);
    PollsAfterFinalize(posted, wire.trace, |old(wire.trace)|, order, der, account.Who());
  }

  lemma CsrErrors(key: CertificateKey, identifiers: seq<Identifier>)
    ensures BuildCsr(key, identifiers).Err? ==> BuildCsr(key, identifiers).error == BadCsr
  {
    DnsErrors(identifiers);
  }

  /** The finalize POST itself; `at` is its position, or -1. */
  method PostCsr(order: Order, der: seq<byte>, account: Account, wire: Wire)
    returns (r: Result<(), Error>, ghost at: int)
    requires wire.Valid() && account.nonce.Valid()
    modifies wire, account.nonce
    ensures Moved(wire, account.nonce, r.Ok?)
    ensures wire.ledger.posts <= old(wire.ledger).posts + 1 && wire.ledger.live == old(wire.ledger).live
    ensures OneRequest(wire.trace, |old(wire.trace)|, order.finalize, Csr(der), account.Who())
    ensures var e := wire.trace[|wire.trace| - 1];
            && at == (if e.Post? then |wire.trace| - 1 else -1)
            && (if r.Ok? then Accepted(e)
                else if e.Post? then BodyAnswer(e.reply) == Err(r.error) && !Accepted(e)
                else GetFailed(e, r.error))
  {
    var reply := PostKid(account, order.finalize, Csr(der), wire);
    at := if wire.trace[|wire.trace| - 1].Post? then |wire.trace| - 1 else -1;
    var response :- reply;
    var _ :- response.Ok();
    return Ok(()), at;
  }

  /** The polls that follow an accepted finalize POST. */
  lemma PollsAfterFinalize(posted: Trace, t: Trace, from: int, order: Order, der: seq<byte>, who: Signer)
    requires 0 <= from && OneRequest(posted, from, order.finalize, Csr(der), who) && Accepted(posted[|posted| - 1])
    requires posted <= t && |posted| < |t| && OrderUnsettled(t, |posted|, |t| - 1, order.url, who)
    requires t[|t| - 1].Head? || IsPoll(t[|t| - 1], order.url, who)
    ensures CalmExcept(t, from, |posted| - 1, who) && ReadsAfterFinalize(t, order.url, |posted| - 1, -1)
    ensures t[|posted| - 1] == posted[|posted| - 1]
  {
    assert forall i :: 0 <= i < |posted| ==> t[i] == posted[i];
  }

  // ---- the run -------------------------------------------------------------

  /** What a run is asked to do; `thumbprint` is that of the account key. */
  datatype Job = Job(directoryUrl: string, contact: seq<string>, identifiers: seq<Identifier>,
                     solvers: seq<ChallengeKind>, certKey: CertificateKey, key: AccountKey, thumbprint: string)

  /** What a run did, as positions in its trace; -1 for what it never reached. `attempt` is the
      authorization that failed, if one did. */
  datatype Run = Run(registered: int, who: Signer, order: Order, ordered: int, proofs: seq<Proof>, attempt: Proof,
                     finalized: int, refreshed: int)

  /** One proof for each URL, found from `from` on and in the order of the list. */
  ghost predicate AllShown(t: Trace, urls: seq<string>, thumbprint: string, from: int, proofs: seq<Proof>) {
    && |proofs| == |urls|
    && (forall m :: 0 <= m < |urls| ==> from <= proofs[m].fetched && Shows(t, urls[m], thumbprint, proofs[m]))
    && (forall m, n :: 0 <= m < n < |urls| ==> proofs[m].Last() < proofs[n].fetched)
  }

  /** Every solver armed was the first that any offered challenge suits, with the first such challenge. */
  ghost predicate AllPicked(t: Trace, proofs: seq<Proof>, solvers: seq<ChallengeKind>) {
    forall m :: 0 <= m < |proofs| && proofs[m].Solved? ==>
                  && 0 <= proofs[m].armed < |t| && t[proofs[m].armed].Arm?
                  && PickedFirst(proofs[m].authz.challenges, solvers, t[proofs[m].armed].solver, proofs[m].challenge)
  }

  /** The length of the trace once the proofs, which begin at `from`, are complete. */
  function DoneAt(from: int, proofs: seq<Proof>): int {
    if proofs == [] then from else proofs[|proofs| - 1].End()
  }

  lemma ShownLater(t: Trace, u: Trace, urls: seq<string>, thumbprint: string, from: int, proofs: seq<Proof>)
    requires t <= u && AllShown(t, urls, thumbprint, from, proofs)
    ensures AllShown(u, urls, thumbprint, from, proofs)
  {
    forall m | 0 <= m < |urls|
      ensures Shows(u, urls[m], thumbprint, proofs[m])
    {
      ShowsLater(t, u, urls[m], thumbprint, proofs[m]);
    }
  }

  /** The first of the URLs are proved, one proof each. */
  ghost predicate Proven(t: Trace, urls: seq<string>, thumbprint: string, solvers: seq<ChallengeKind>, from: int,
                         proofs: seq<Proof>) {
    && |proofs| <= |urls| && AllShown(t, urls[..|proofs|], thumbprint, from, proofs) && AllPicked(t, proofs, solvers)
  }

  lemma ProvenLater(t: Trace, u: Trace, urls: seq<string>, thumbprint: string, solvers: seq<ChallengeKind>, from: int,
                    proofs: seq<Proof>)
    requires t <= u && Proven(t, urls, thumbprint, solvers, from, proofs)
    ensures Proven(u, urls, thumbprint, solvers, from, proofs)
  {
    ShownLater(t, u, urls[..|proofs|], thumbprint, from, proofs);
    forall m | 0 <= m < |proofs| && proofs[m].Solved?
      ensures u[proofs[m].armed] == t[proofs[m].armed]
    {
    }
  }

  /** The answer to the newAccount POST at `at` gave the account URL `kid` as its `Location`. */
  ghost predicate RegisteredAt(t: Trace, at: int, kid: string) {
    && 0 <= at < |t| && t[at].Post? && t[at].payload.NewAccount?
    && AccountAnswer(t[at].reply).Ok? && AccountAnswer(t[at].reply).value.1 == kid
  }

  /** newAccount is POSTed with the `jwk`; every other POST comes after it, signed with the `kid` its
      answer gave. At `ordered` that is newOrder, at `finalized` finalize, elsewhere reads and signals. */
  ghost predicate OnlyTheseRequests(t: Trace, run: Run, key: AccountKey) {
    forall i :: 0 <= i < |t| && t[i].Post? ==>
                  if t[i].payload.NewAccount? then ByKey(t[i], key)
                  else
                    && ByAccount(t[i], run.who) && run.who.key == key
                    && run.registered < i && RegisteredAt(t, run.registered, run.who.kid)
                    && (t[i].payload.NewOrder? <==> i == run.ordered)
                    && (t[i].payload.Csr? <==> i == run.finalized)
  }

  /** The order of a run is the one its newOrder answer gave; without such an answer it lists nothing. */
  ghost predicate KnowsOrder(t: Trace, run: Run) {
    if OrderGiven(t, run.ordered) then OrderAnswer(t[run.ordered].reply) == Ok(run.order)
    else run.order.authorizations == []
  }

  ghost predicate OrderGiven(t: Trace, at: int) {
    0 <= at < |t| && t[at].Post? && OrderAnswer(t[at].reply).Ok?
  }

  /** The order was created by the POST at `ordered`. */
  ghost predicate OrderedAt(t: Trace, run: Run, identifiers: seq<Identifier>) {
    && 0 <= run.ordered < |t| && t[run.ordered].Post?
    && t[run.ordered].payload == NewOrder(identifiers)
    && OrderAnswer(t[run.ordered].reply) == Ok(run.order)
  }

  /** The finalize POST came after a proof of every authorization of the order. */
  ghost predicate FinalizedSafely(t: Trace, run: Run, identifiers: seq<Identifier>, thumbprint: string,
                                  certKey: CertificateKey) {
    && 0 <= run.ordered < run.finalized < |t|
    && OrderedAt(t, run, identifiers)
    && AllShown(t[..run.finalized], run.order.authorizations, thumbprint, run.ordered + 1, run.proofs)
    && FinalizePost(t[run.finalized], run.order, certKey, run.who)
  }

  /** The result was downloaded from the certificate URL of an order read as `valid`, after its
      finalize POST was accepted. */
  ghost predicate DownloadedAfterValid(t: Trace, orderUrl: string, finalized: int, refreshed: int, chain: seq<byte>) {
    && 0 <= finalized < refreshed < |t| - 1
    && Accepted(t[finalized])
    && exists o :: ReadOrder(t[refreshed], orderUrl, o) && o.status == "valid" && o.certificate.Some?
                   && ReadChain(t[|t| - 1], o.certificate.value, chain)
  }

  /** POSTs of a run over `n` authorizations. */
  function MaxPosts(n: nat, challengePolls: nat, finalizePolls: nat): nat {
    2 + n * (2 + challengePolls) + (1 + finalizePolls) + 1
  }

  lemma ShownOneMore(t: Trace, u: Trace, urls: seq<string>, k: nat, thumbprint: string, from: int, proofs: seq<Proof>,
                     proof: Proof)
    requires k < |urls| && t <= u && from <= |t| && AllShown(t, urls[..k], thumbprint, from, proofs)
    requires Shows(u, urls[k], thumbprint, proof) && |t| <= proof.fetched
    ensures AllShown(u, urls[..k + 1], thumbprint, from, proofs + [proof])
  {
    ShownLater(t, u, urls[..k], thumbprint, from, proofs);
    assert urls[..k + 1] == urls[..k] + [urls[k]];
    assert forall m :: 0 <= m < k ==> Shows(t, urls[..k][m], thumbprint, proofs[m]);
  }

  lemma PickedOneMore(t: Trace, u: Trace, proofs: seq<Proof>, solvers: seq<ChallengeKind>, proof: Proof)
    requires t <= u && AllPicked(t, proofs, solvers)
    requires proof.Solved? ==>
               && 0 <= proof.armed < |u| && u[proof.armed].Arm?
               && PickedFirst(proof.authz.challenges, solvers, u[proof.armed].solver, proof.challenge)
    ensures AllPicked(u, proofs + [proof], solvers)
  {
    forall m | 0 <= m < |proofs| && proofs[m].Solved?
      ensures u[proofs[m].armed] == t[proofs[m].armed]
    {
    }
  }

  lemma ProvenOneMore(t: Trace, u: Trace, urls: seq<string>, thumbprint: string, solvers: seq<ChallengeKind>, from: int,
                      proofs: seq<Proof>, proof: Proof)
    requires |proofs| < |urls| && t <= u && from <= |t| && Proven(t, urls, thumbprint, solvers, from, proofs)
    requires Shows(u, urls[|proofs|], thumbprint, proof) && |t| <= proof.fetched
    requires proof.Solved? ==>
               PickedFirst(proof.authz.challenges, solvers, u[proof.armed].solver, proof.challenge)
    ensures Proven(u, urls, thumbprint, solvers, from, proofs + [proof])
  {
    ShownOneMore(t, u, urls, |proofs|, thumbprint, from, proofs, proof);
    PickedOneMore(t, u, proofs, solvers, proof);
  }

  lemma {:induction false} TimesGrow(m: nat, n: nat, unit: nat)
    requires m <= n
    ensures Times(m, unit) <= Times(n, unit)
  {
    if m < n {
      TimesGrow(m, n - 1, unit);
    }
  }

  /** One turn of the loop over the order's authorizations: the next URL is proved, or failed. */
  method AuthorizeNext(urls: seq<string>, url: string, account: Account, thumbprint: string, wire: Wire,
                       solvers: seq<ChallengeKind>, timeout: nat, interval: nat, ghost from: int,
                       ghost proofs: seq<Proof>)
    returns (r: Result<(), Error>, ghost last: Proof)
    requires interval + wire.latency > 0
    requires wire.Valid() && account.nonce.Valid() && wire.ledger.live.Free?
    requires |proofs| < |urls| && url == urls[|proofs|] && from <= |wire.trace| == DoneAt(from, proofs)
    requires Proven(wire.trace, urls, thumbprint, solvers, from, proofs)
    modifies wire, account.nonce
    ensures Moved(wire, account.nonce, r.Ok?)
    ensures wire.ledger.live.Free?
    ensures wire.ledger.posts <= old(wire.ledger).posts + 2 + MaxPolls(timeout, interval + wire.latency)
    ensures forall i :: |old(wire.trace)| <= i < |wire.trace| ==> Calm(wire.trace[i], account.Who())
    ensures r.Ok? ==>
              && Proven(wire.trace, urls, thumbprint, solvers, from, proofs + [last])
              && |wire.trace| == DoneAt(from, proofs + [last])
    ensures r.Err? ==>
              && Proven(wire.trace, urls, thumbprint, solvers, from, proofs)
              && AuthorizationFailed(wire.trace, url, solvers, last, r.error)
    ensures r.Err? && ChallengeTimedOut(wire.trace) ==> wire.clock >= old(wire.clock) + timeout
  {
    ghost var before := wire.trace;
    r, last := RunOneAuthorization(url, account, thumbprint, wire, solvers, timeout, interval);
    if r.Ok? {
      ProvenOneMore(before, wire.trace, urls, thumbprint, solvers, from, proofs, last);
    } else {
      ProvenLater(before, wire.trace, urls, thumbprint, solvers, from, proofs);
    }
  }

  /** The loop over the order's authorizations. A failure is that of the first one without a proof. */
  method AuthorizeAll(urls: seq<string>, account: Account, thumbprint: string, wire: Wire, solvers: seq<ChallengeKind>,
                      timeout: nat, interval: nat)
    returns (r: Result<(), Error>, ghost proofs: seq<Proof>, ghost last: Proof)
    requires interval + wire.latency > 0
    requires wire.Valid() && account.nonce.Valid() && wire.ledger.live.Free?
    modifies wire, account.nonce
    ensures Moved(wire, account.nonce, r.Ok?)
    ensures wire.ledger.live.Free?
    ensures wire.ledger.posts
            <= old(wire.ledger).posts + Times(|urls|, 2 + MaxPolls(timeout, interval + wire.latency))
    ensures forall i :: |old(wire.trace)| <= i < |wire.trace| ==> Calm(wire.trace[i], account.Who())
    ensures Proven(wire.trace, urls, thumbprint, solvers, |old(wire.trace)|, proofs)
    ensures r.Ok? ==> |proofs| == |urls| && |wire.trace| == DoneAt(|old(wire.trace)|, proofs)
    ensures r.Err? ==>
              |proofs| < |urls| && AuthorizationFailed(wire.trace, urls[|proofs|], solvers, last, r.error)
    ensures r.Err? && ChallengeTimedOut(wire.trace) ==> wire.clock >= old(wire.clock) + timeout
  {
    proofs, last := [], Reused(0);
    ghost var cost := 2 + MaxPolls(timeout, interval + wire.latency);
    for k := 0 to |urls|
      invariant Moved(wire, account.nonce, true) && wire.ledger.live.Free?
      invariant wire.ledger.posts <= old(wire.ledger).posts + Times(k, cost)
      invariant forall i :: |old(wire.trace)| <= i < |wire.trace| ==> Calm(wire.trace[i], account.Who())
      invariant |proofs| == k && Proven(wire.trace, urls, thumbprint, solvers, |old(wire.trace)|, proofs)
      invariant |wire.trace| == DoneAt(|old(wire.trace)|, proofs)
    {
      r, last := AuthorizeNext(urls, urls[k], account, thumbprint, wire, solvers, timeout, interval, |old(wire.trace)|,
                               proofs);
      if r.Err? {
        TimesGrow(k + 1, |urls|, cost);
        return;
      }
      proofs := proofs + [last];
    }
    r := Ok(());
  }

  function DirectoryAnswer(reply: Reply): Result<Directory, Error> {
    match BodyAnswer(reply)
    case Err(e) => Err(e)
    case Ok(body) => if body.directory.Some? then Ok(body.directory.value) else Err(Serialization)
  }

  /** `directory::fetch`. */
  method FetchDirectory(url: string, wire: Wire) returns (r: Result<Directory, Error>)
    requires wire.Valid()
    modifies wire
    ensures wire.Valid() && wire.clock >= old(wire.clock) && wire.ledger == old(wire.ledger)
    ensures |wire.trace| == |old(wire.trace)| + 1 && old(wire.trace) <= wire.trace
    ensures var e := wire.trace[|old(wire.trace)|]; e.Get? && e.url == url && r == DirectoryAnswer(e.reply)
  {
    ghost var books := wire.ledger.books;
    var reply := wire.HttpGet(url);
    assert books.offered + [] == books.offered;
    var response :- reply;
    var accepted :- response.Ok();
    return if accepted.body.directory.Some? then Ok(accepted.body.directory.value) else Err(Serialization);
  }

  /** The run that read its order as `valid` at `refreshed` ends with the download from the certificate URL the
      order named, or with the nonce HEAD that failed before it; the result is what that answer says. */
  ghost predicate Downloads(t: Trace, refreshed: int, orderUrl: string, r: Result<seq<byte>, Error>) {
    && 0 <= refreshed < |t| - 1 && |t| <= refreshed + 3 && (|t| == refreshed + 3 ==> t[refreshed + 1].Head?)
    && var e := t[|t| - 1];
       if e.Post? then
         NamedCertificate(t, refreshed, orderUrl, e.url) && e.payload == AsGet && r == DownloadAnswer(e.reply)
       else r.Err? && GetFailed(e, r.error)
  }

  /** From finalize on: nothing sent, a refusal or a failed poll, or the download. */
  ghost predicate FinishedAs(t: Trace, from: int, order: Order, certKey: CertificateKey, finalized: int, refreshed: int,
                             r: Result<seq<byte>, Error>) {
    if finalized == -1 then r.Err? && NotSent(t, from, order, certKey, r.error)
    else if refreshed == -1 then r.Err? && FinalizeFailed(t, finalized, order.url, r.error)
    else Downloads(t, refreshed, order.url, r)
  }

  /** The finalized order's certificate, downloaded. */
  method FinalizeAndDownload(order: Order, certKey: CertificateKey, account: Account, wire: Wire, timeout: nat,
                             interval: nat)
    returns (r: Result<seq<byte>, Error>, ghost finalized: int, ghost refreshed: int)
    requires interval + wire.latency > 0
    requires wire.Valid() && account.nonce.Valid()
    modifies wire, account.nonce
    ensures Moved(wire, account.nonce, r.Ok?)
    ensures wire.ledger.live == old(wire.ledger).live
    ensures wire.ledger.posts <= old(wire.ledger).posts + (1 + MaxPolls(timeout, interval + wire.latency)) + 1
    ensures FinishedAs(wire.trace, |old(wire.trace)|, order, certKey, finalized, refreshed, r)
    ensures finalized != -1 ==>
              && NextPost(wire.trace, |old(wire.trace)|, finalized)
              && FinalizePost(wire.trace[finalized], order, certKey, account.Who())
              && ReadsAfterFinalize(wire.trace, order.url, finalized, refreshed)
    ensures finalized != -1 && refreshed == -1 && OrderTimedOut(wire.trace, finalized, order.url) ==>
              wire.clock >= old(wire.clock) + timeout
    ensures CalmExcept(wire.trace, |old(wire.trace)|, finalized, account.Who())
  {
    refreshed := -1;
    var final;
    final, finalized := Finalize(order, certKey, account, wire, timeout, interval);
    if final.Err? {
      return Err(final.error), finalized, refreshed;
    }
    refreshed := |wire.trace| - 1;
    ghost var before := wire.trace;
    r := Download(final.value.certificate.value, account, wire);
    OneIsCalm(wire.trace, |before|, final.value.certificate.value, AsGet, account.Who());
    DownloadComesLast(before, wire.trace, order.url, final.value, finalized);
  }

  /** Adding the download, which is the only POST after the last poll. */
  lemma DownloadComesLast(before: Trace, t: Trace, orderUrl: string, order: Order, finalized: int)
    requires before <= t && |before| < |t| && 0 <= finalized < |before| - 1
    requires ReadsAfterFinalize(before, orderUrl, finalized, -1) && order.certificate.Some?
    requires ReadOrder(before[|before| - 1], orderUrl, order) && order.status == "valid"
    requires forall i :: |before| <= i < |t| && t[i].Post? ==> i == |t| - 1
    requires t[|t| - 1].Post? ==> t[|t| - 1].url == order.certificate.value && t[|t| - 1].payload == AsGet
    ensures ReadsAfterFinalize(t, orderUrl, finalized, |before| - 1)
    ensures NamedCertificate(t, |before| - 1, orderUrl, order.certificate.value)
    ensures forall i :: 0 <= i < |before| ==> t[i] == before[i]
  {
    assert forall i :: 0 <= i < |before| ==> t[i] == before[i];
    assert ReadOrder(t[|before| - 1], orderUrl, order);
  }

  /** Everything after `order::create`: an authorization failed, or it went on as `FinishedAs` says. */
  ghost predicate CompletedAs(t: Trace, from: int, order: Order, job: Job, proofs: seq<Proof>, attempt: Proof,
                              finalized: int, refreshed: int, r: Result<seq<byte>, Error>) {
    if |proofs| < |order.authorizations| then
      && finalized == refreshed == -1 && r.Err?
      && AuthorizationFailed(t, order.authorizations[|proofs|], job.solvers, attempt, r.error)
    else FinishedAs(t, DoneAt(from, proofs), order, job.certKey, finalized, refreshed, r)
  }

  /** One proof after the other in the order of the list, and finalize only after the last. */
  ghost predicate ProvesInOrder(t: Trace, from: int, order: Order, job: Job, who: Signer, proofs: seq<Proof>,
                                finalized: int, refreshed: int) {
    && Proven(t, order.authorizations, job.thumbprint, job.solvers, from, proofs)
    && (finalized != -1 ==>
          && |proofs| == |order.authorizations| && NextPost(t, DoneAt(from, proofs), finalized)
          && AllShown(t[..finalized], order.authorizations, job.thumbprint, from, proofs)
          && FinalizePost(t[finalized], order, job.certKey, who)
          && ReadsAfterFinalize(t, order.url, finalized, refreshed))
  }

  method CompleteOrder(order: Order, account: Account, job: Job, wire: Wire, challengeTimeout: nat,
                       finalizeTimeout: nat, interval: nat)
    returns (r: Result<seq<byte>, Error>, ghost proofs: seq<Proof>, ghost attempt: Proof, ghost finalized: int,
             ghost refreshed: int)
    requires interval + wire.latency > 0
    requires wire.Valid() && account.nonce.Valid() && wire.ledger.live.Free?
    modifies wire, account.nonce
    ensures Moved(wire, account.nonce, r.Ok?) && wire.ledger.live.Free?
    ensures wire.ledger.posts <= old(wire.ledger).posts
              + (MaxPosts(|order.authorizations|, MaxPolls(challengeTimeout, interval + wire.latency),
                          MaxPolls(finalizeTimeout, interval + wire.latency)) - 2)
    ensures forall i :: |old(wire.trace)| <= i < |wire.trace| && i != finalized ==> Calm(wire.trace[i], account.Who())
    ensures ProvesInOrder(wire.trace, |old(wire.trace)|, order, job, account.Who(), proofs, finalized, refreshed)
    ensures finalized != -1 ==> |old(wire.trace)| <= finalized
    ensures CompletedAs(wire.trace, |old(wire.trace)|, order, job, proofs, attempt, finalized, refreshed, r)
    ensures r.Err? && ChallengeTimedOut(wire.trace) && |proofs| < |order.authorizations| ==>
              wire.clock >= old(wire.clock) + challengeTimeout
    ensures finalized != -1 && refreshed == -1 && OrderTimedOut(wire.trace, finalized, order.url) ==>
              wire.clock >= old(wire.clock) + finalizeTimeout
  {
    finalized, refreshed := -1, -1;
    var authorized;
    authorized, proofs, attempt := AuthorizeAll(order.authorizations, account, job.thumbprint, wire, job.solvers,
                                                challengeTimeout, interval);
    TimesMultiplies(|order.authorizations|, 2 + MaxPolls(challengeTimeout, interval + wire.latency));
    if authorized.Err? {
      return Err(authorized.error), proofs, attempt, finalized, refreshed;
    }
    ghost var before := wire.trace;
    r, finalized, refreshed := FinalizeAndDownload(order, job.certKey, account, wire, finalizeTimeout, interval);
    assert forall i :: 0 <= i < |before| ==> wire.trace[i] == before[i];
    ProofsStand(before, wire.trace, |old(wire.trace)|, order, job, account.Who(), proofs, finalized, refreshed);
  }

  /** The proofs of all authorizations, and a finalize POST after them if there is one. */
  lemma ProofsStand(before: Trace, t: Trace, from: int, order: Order, job: Job, who: Signer, proofs: seq<Proof>,
                    finalized: int, refreshed: int)
    requires before <= t && |before| == DoneAt(from, proofs) && |proofs| == |order.authorizations|
    requires Proven(before, order.authorizations, job.thumbprint, job.solvers, from, proofs)
    requires finalized != -1 ==>
               && NextPost(t, |before|, finalized) && FinalizePost(t[finalized], order, job.certKey, who)
               && ReadsAfterFinalize(t, order.url, finalized, refreshed)
    ensures ProvesInOrder(t, from, order, job, who, proofs, finalized, refreshed)
  {
    ProvenLater(before, t, order.authorizations, job.thumbprint, job.solvers, from, proofs);
    if finalized != -1 {
      assert order.authorizations[..|proofs|] == order.authorizations;
      ShownLater(before, t[..finalized], order.authorizations, job.thumbprint, from, proofs);
    }
  }

  // ---- the start of a run --------------------------------------------------

  /** The nonces of a whole run: those sent were offered, in order, and every HEAD after the first is
      paid for by a POST answered without a nonce. */
  ghost predicate Paid(b: Books) {
    b.sent <= b.offered && b.heads <= b.dry + 1
  }

  /** A HEAD that brings nothing fails the run, so it is the last. */
  lemma RestIsPaid(b: Books, pool: seq<string>)
    requires AtRest(b, pool) && (b.barren == 0 || (b.barren == 1 && pool == []))
    ensures Paid(b)
  {
  }

  /** A run opens with the directory GET; its second request, if any, is the newNonce HEAD. */
  ghost predicate Opening(t: Trace) {
    t != [] && t[0].Get? && (|t| > 1 ==> t[1].Head?)
  }

  /** The first requests of a run: the directory GET, then the newNonce HEAD, newAccount with the caller's
      contacts, and newOrder for the caller's identifiers, each at the URL the directory gives and only after the
      answer before it was good. */
  ghost predicate Starts(t: Trace, run: Run, job: Job) {
    && t != [] && t[0].Get? && t[0].url == job.directoryUrl
    && (|t| > 1 ==> DirectoryAnswer(t[0].reply).Ok? && Joins(t, DirectoryAnswer(t[0].reply).value, job))
    && (|t| > 3 ==> Orders(t, DirectoryAnswer(t[0].reply).value, run, job))
  }

  ghost predicate Joins(t: Trace, directory: Directory, job: Job)
    requires |t| > 1
  {
    && t[1].Head? && t[1].url == directory.newNonce
    && (|t| > 2 ==>
          && FirstOf(t[1].reply).Ok? && ByKey(t[2], job.key) && t[2].url == directory.newAccount
          && t[2].payload == NewAccount(true, job.contact, false))
    && (|t| > 3 ==> AccountAnswer(t[2].reply).Ok?)
  }

  ghost predicate Orders(t: Trace, directory: Directory, run: Run, job: Job)
    requires |t| > 3 && t[2].Post? && AccountAnswer(t[2].reply).Ok?
  {
    && run.registered == 2 && run.who == Signer(AccountAnswer(t[2].reply).value.1, job.key)
    && 3 <= run.ordered < |t| && run.ordered <= 4 && (run.ordered == 4 ==> t[3].Head?)
    && (t[run.ordered].Post? ==>
          && ByAccount(t[run.ordered], run.who) && t[run.ordered].url == directory.newOrder
          && t[run.ordered].payload == NewOrder(job.identifiers))
    && (|t| > run.ordered + 1 ==> OrderGiven(t, run.ordered))
  }

  /** A run without an order ended on its last request: the directory, a nonce, the account or the order. */
  ghost predicate StartFailed(t: Trace, error: Error) {
    && t != []
    && match t[|t| - 1]
       case Get(_, reply) => DirectoryAnswer(reply) == Err(error)
       case Head(_, _) => GetFailed(t[|t| - 1], error)
       case Post(_, _, _, _, payload, reply) =>
         if payload.NewAccount? then AccountAnswer(reply) == Err(error)
         else payload.NewOrder? && OrderAnswer(reply) == Err(error)
       case _ => false
  }

  /** Directory and account. */
  method Join(job: Job, wire: Wire) returns (r: Result<Account, Error>)
    requires wire.Valid() && wire.trace == [] && wire.ledger == EMPTY
    modifies wire
    ensures wire.Valid() && wire.ledger.live.Free? && wire.ledger.posts <= 1 && wire.clock >= old(wire.clock)
    ensures Paid(wire.ledger.books) && 1 <= |wire.trace| <= 3
    ensures wire.trace[0].Get? && wire.trace[0].url == job.directoryUrl
    ensures |wire.trace| > 1 ==>
              && DirectoryAnswer(wire.trace[0].reply).Ok?
              && Joins(wire.trace, DirectoryAnswer(wire.trace[0].reply).value, job)
    ensures r.Err? ==> StartFailed(wire.trace, r.error)
    ensures r.Ok? ==>
              && |wire.trace| == 3 && fresh(r.value.nonce) && r.value.nonce.Valid()
              && r.value.nonce.books == wire.ledger.books && wire.ledger.books.barren == 0
              && AccountAnswer(wire.trace[2].reply) == Ok((r.value.record, r.value.kid)) && r.value.key == job.key
              && DirectoryAnswer(wire.trace[0].reply) == Ok(r.value.directory)
  {
    var directory :- FetchDirectory(job.directoryUrl, wire);
    ghost var got := wire.trace;
    ghost var books;
    r, books := CreateAccount(directory, job.contact, true, false, job.key, wire);
    assert wire.trace[0] == got[0];
  }

  /** newOrder is the fourth request, or the fifth after another nonce HEAD. */
  lemma OrderFollows(before: Trace, t: Trace, directory: Directory, run: Run, job: Job,
                     answered: Result<Order, Error>)
    requires before <= t && |before| == 3 && before[0].Get? && before[0].url == job.directoryUrl
    requires DirectoryAnswer(before[0].reply) == Ok(directory) && Joins(before, directory, job)
    requires AccountAnswer(before[2].reply).Ok?
    requires run.who == Signer(AccountAnswer(before[2].reply).value.1, job.key)
    requires run.registered == 2 && run.ordered == |t| - 1 && run.finalized == -1
    requires OneRequest(t, 3, directory.newOrder, NewOrder(job.identifiers), run.who)
    requires var e := t[|t| - 1];
             if e.Post? then answered == OrderAnswer(e.reply) else answered.Err? && GetFailed(e, answered.error)
    ensures Starts(t, run, job) && OnlyTheseRequests(t, run, job.key)
    ensures OrderGiven(t, run.ordered) <==> answered.Ok?
    ensures answered.Ok? ==> OrderAnswer(t[run.ordered].reply) == answered
    ensures answered.Err? ==> StartFailed(t, answered.error)
  {
    assert t[0] == before[0] && t[1] == before[1] && t[2] == before[2];
  }

  /** `issue_certificate_with_timeouts` up to the order: directory, account, newOrder. */
  method StartOrder(job: Job, wire: Wire)
    returns (r: Result<(Account, Order), Error>, ghost run: Run)
    requires wire.Valid() && wire.trace == [] && wire.ledger == EMPTY
    modifies wire
    ensures wire.Valid() && wire.ledger.live.Free? && wire.ledger.posts <= 2 && wire.clock >= old(wire.clock)
    ensures Paid(wire.ledger.books) && Starts(wire.trace, run, job) && OnlyTheseRequests(wire.trace, run, job.key)
    ensures run.proofs == [] && run.finalized == run.refreshed == -1 && KnowsOrder(wire.trace, run)
    ensures r.Err? ==> !OrderGiven(wire.trace, run.ordered) && StartFailed(wire.trace, r.error)
    ensures r.Ok? ==>
              && var (account, order) := r.value;
                 && fresh(account.nonce) && account.nonce.Valid() && account.Who() == run.who
                 && account.nonce.books == wire.ledger.books && account.nonce.books.barren == 0
                 && OrderGiven(wire.trace, run.ordered) && run.order == order
                 && run.ordered == |wire.trace| - 1 && |wire.trace| > 3
  {
    run := Run(-1, Signer("", job.key), Order("", [], [], "", None, ""), -1, [], Reused(0), -1, -1);
    var account :- Join(job, wire);
    ghost var before := wire.trace;
    var answered := CreateOrder(account, job.identifiers, wire);
    RestIsPaid(account.nonce.books, account.nonce.pool);
    run := run.(registered := 2, who := account.Who(), ordered := |wire.trace| - 1);
    OrderFollows(before, wire.trace, account.directory, run, job, answered);
    var order :- answered;
    run := run.(order := order);
    r := Ok((account, order));
  }

  // ---- the whole run -------------------------------------------------------

  /** What holds of the trace and the ledger of every run, however it ends. By `Wire.Audit` the ledger
      is that of the trace, and every POST of the trace opens to what the trace records. */
  ghost predicate RunShape(t: Trace, ledger: Ledger, run: Run, job: Job) {
    && ledger.live.Free? && Paid(ledger.books) && Starts(t, run, job)
    && KnowsOrder(t, run) && OnlyTheseRequests(t, run, job.key)
    && ProvesInOrder(t, run.ordered + 1, run.order, job, run.who, run.proofs, run.finalized, run.refreshed)
    && (run.finalized != -1 ==> FinalizedSafely(t, run, job.identifiers, job.thumbprint, job.certKey))
  }

  /** The result of a run is what its last request, or the step that then sent none, comes to: without an order
      that of the start; with one that of the first authorization without a proof; with all proved that of
      finalize, of the order polls, or of the download. */
  ghost predicate Outcome(t: Trace, run: Run, job: Job, r: Result<seq<byte>, Error>) {
    if !OrderGiven(t, run.ordered) then r.Err? && StartFailed(t, r.error)
    else CompletedAs(t, run.ordered + 1, run.order, job, run.proofs, run.attempt, run.finalized, run.refreshed, r)
  }

  /** A run that ends on a poll that settled nothing ends after the timeout. */
  ghost predicate InTime(t: Trace, run: Run, spent: int, challengeTimeout: nat, finalizeTimeout: nat) {
    && (OrderGiven(t, run.ordered) && |run.proofs| < |run.order.authorizations| && ChallengeTimedOut(t) ==>
          spent >= challengeTimeout)
    && (run.finalized != -1 && run.refreshed == -1 && OrderTimedOut(t, run.finalized, run.order.url) ==>
          spent >= finalizeTimeout)
  }

  lemma RefusedEnds(t: Trace, from: int, order: Order, certKey: CertificateKey, finalized: int, refreshed: int,
                    r: Result<seq<byte>, Error>)
    requires FinishedAs(t, from, order, certKey, finalized, refreshed, r)
    requires finalized != -1 && ReadsAfterFinalize(t, order.url, finalized, refreshed)
    requires t[finalized].Post? && !Accepted(t[finalized])
    ensures r.Err? && finalized == |t| - 1 && BodyAnswer(t[finalized].reply) == Err(r.error)
  {
  }

  /** A finalize POST that is not accepted ends the run with the error of its answer. */
  lemma RefusedFinalizeEnds(t: Trace, ledger: Ledger, run: Run, job: Job, r: Result<seq<byte>, Error>)
    requires RunShape(t, ledger, run, job) && Outcome(t, run, job, r)
    requires run.finalized != -1 && !Accepted(t[run.finalized])
    ensures r.Err? && run.finalized == |t| - 1 && BodyAnswer(t[run.finalized].reply) == Err(r.error)
  {
    RefusedEnds(t, DoneAt(run.ordered + 1, run.proofs), run.order, job.certKey, run.finalized, run.refreshed, r);
  }

  /** A successful run downloaded its result after the order was read as `valid`. */
  lemma SuccessIsDownload(t: Trace, ledger: Ledger, run: Run, job: Job, chain: seq<byte>)
    requires RunShape(t, ledger, run, job) && Outcome(t, run, job, Ok(chain))
    ensures run.finalized != -1 && DownloadedAfterValid(t, run.order.url, run.finalized, run.refreshed, chain)
  {
    var e := t[|t| - 1];
    var o :| ReadOrder(t[run.refreshed], run.order.url, o) && o.status == "valid" && o.certificate == Some(e.url);
    assert ReadChain(e, o.certificate.value, chain);
  }

  /** `issue_certificate_with_timeouts`. */
  method IssueCertificateWithTimeouts(job: Job, wire: Wire, challengeTimeout: nat, finalizeTimeout: nat, interval: nat)
    returns (r: Result<seq<byte>, Error>, ghost run: Run)
    requires interval + wire.latency > 0
    requires wire.Valid() && wire.trace == [] && wire.ledger == EMPTY
    modifies wire
    ensures wire.Valid() && RunShape(wire.trace, wire.ledger, run, job) && Outcome(wire.trace, run, job, r)
    ensures wire.ledger.posts
            <= MaxPosts(|run.order.authorizations|, MaxPolls(challengeTimeout, interval + wire.latency),
                        MaxPolls(finalizeTimeout, interval + wire.latency))
    ensures InTime(wire.trace, run, wire.clock - old(wire.clock), challengeTimeout, finalizeTimeout)
  {
    var started;
    started, run := StartOrder(job, wire);
    if started.Err? {
      return Err(started.error), run;
    }
    var (account, order) := started.value;
    ghost var before, start := wire.trace, run;
    ghost var proofs, attempt, finalized, refreshed;
    r, proofs, attempt, finalized, refreshed := CompleteOrder(order, account, job, wire, challengeTimeout,
                                                              finalizeTimeout, interval);
    run := run.(proofs := proofs, attempt := attempt, finalized := finalized, refreshed := refreshed);
    RestIsPaid(account.nonce.books, account.nonce.pool);
    RunIsShaped(before, wire.trace, wire.ledger, start, run, job, r);
  }

  /** A well started run whose order was completed is a run. */
  lemma RunIsShaped(before: Trace, t: Trace, ledger: Ledger, start: Run, run: Run, job: Job,
                    r: Result<seq<byte>, Error>)
    requires ledger.live.Free? && Paid(ledger.books)
    requires before <= t && |before| > 3 && start.ordered == |before| - 1 && OrderGiven(before, start.ordered)
    requires Starts(before, start, job) && KnowsOrder(before, start) && OnlyTheseRequests(before, start, job.key)
    requires start.finalized == start.refreshed == -1
    requires run == start.(proofs := run.proofs, attempt := run.attempt, finalized := run.finalized,
                           refreshed := run.refreshed)
    requires forall i :: |before| <= i < |t| && i != run.finalized ==> Calm(t[i], run.who)
    requires ProvesInOrder(t, |before|, run.order, job, run.who, run.proofs, run.finalized, run.refreshed)
    requires CompletedAs(t, |before|, run.order, job, run.proofs, run.attempt, run.finalized, run.refreshed, r)
    requires run.finalized != -1 ==> |before| <= run.finalized
    ensures RunShape(t, ledger, run, job) && Outcome(t, run, job, r)
  {
    StartIsKept(before, t, start, run, job);
    assert OrderGiven(t, run.ordered) && run.ordered + 1 == |before|;
  }

  /** The start of a trace stays what it was. */
  lemma StartIsKept(before: Trace, t: Trace, start: Run, run: Run, job: Job)
    requires before <= t && |before| > 3 && start.ordered == |before| - 1 && OrderGiven(before, start.ordered)
    requires Starts(before, start, job) && KnowsOrder(before, start) && OnlyTheseRequests(before, start, job.key)
    requires start.finalized == -1 && (run.finalized == -1 || run.finalized >= |before|)
    requires run == start.(proofs := run.proofs, attempt := run.attempt, finalized := run.finalized,
                           refreshed := run.refreshed)
    requires forall i :: |before| <= i < |t| && i != run.finalized ==> Calm(t[i], run.who)
    requires run.finalized != -1 ==>
               run.finalized < |t| && ByAccount(t[run.finalized], run.who) && t[run.finalized].payload.Csr?
    ensures Starts(t, run, job) && KnowsOrder(t, run) && OnlyTheseRequests(t, run, job.key)
    ensures OrderedAt(t, run, job.identifiers)
  {
    assert forall i :: 0 <= i < |before| ==> t[i] == before[i];
  }

  /** Both default timeouts, and the poll interval, in seconds. */
  const DEFAULT_TIMEOUT := 120
  const POLL_INTERVAL := 2

  /** The facts of a run with the default timeouts and the fixed poll interval. */
  ghost predicate RunFacts(t: Trace, ledger: Ledger, run: Run, job: Job) {
    RunShape(t, ledger, run, job) && ledger.posts <= 65 + 63 * |run.order.authorizations|
  }

  /** POSTs over `n` authorizations with the defaults, however slow requests are. */
  lemma DefaultPosts(n: nat, latency: nat)
    ensures var polls := MaxPolls(DEFAULT_TIMEOUT, POLL_INTERVAL + latency); MaxPosts(n, polls, polls) <= 65 + 63 * n
  {
    var polls := MaxPolls(DEFAULT_TIMEOUT, POLL_INTERVAL + latency);
    SlowerPollsAreFewer(DEFAULT_TIMEOUT, POLL_INTERVAL, POLL_INTERVAL + latency);
    assert MaxPolls(DEFAULT_TIMEOUT, POLL_INTERVAL) == 61;
    assert n * (2 + polls) <= n * 63;
  }

  /** A run with the default timeouts. */
  method IssueWithDefaults(job: Job, wire: Wire) returns (r: Result<seq<byte>, Error>, ghost run: Run)
    requires wire.Valid() && wire.trace == [] && wire.ledger == EMPTY
    modifies wire
    ensures wire.Valid() && RunFacts(wire.trace, wire.ledger, run, job) && Outcome(wire.trace, run, job, r)
    ensures InTime(wire.trace, run, wire.clock - old(wire.clock), DEFAULT_TIMEOUT, DEFAULT_TIMEOUT)
  {
    r, run := IssueCertificateWithTimeouts(job, wire, DEFAULT_TIMEOUT, DEFAULT_TIMEOUT, POLL_INTERVAL);
    DefaultPosts(|run.order.authorizations|, wire.latency);
  }

  /** `issue_certificate`. */
  method IssueCertificate(directoryUrl: string, contact: seq<string>, identifiers: seq<Identifier>,
                          solvers: seq<ChallengeKind>, certKey: CertificateKey, key: AccountKey, wire: Wire)
    returns (r: Result<seq<byte>, Error>, ghost run: Run, ghost job: Job)
    requires wire.Valid() && wire.trace == [] && wire.ledger == EMPTY
    modifies wire
    ensures job == Job(directoryUrl, contact, identifiers, solvers, certKey, key, key.JwkThumbprint())
    ensures wire.Valid() && RunFacts(wire.trace, wire.ledger, run, job) && Outcome(wire.trace, run, job, r)
    ensures InTime(wire.trace, run, wire.clock - old(wire.clock), 120, 120)
  {
    var work := Job(directoryUrl, contact, identifiers, solvers, certKey, key, key.JwkThumbprint());
    job := work;
    r, run := IssueWithDefaults(work, wire);
  }
}
