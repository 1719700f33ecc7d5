/** A run beside a CA that follows section 7.1.6 of RFC 8555. The CA is a sequence of states, one for
    the moment each event of the trace reaches it; between events it may do anything lawful. */
module CaJoint {
  import opened Wrappers
  import opened Jws
  import opened Acme
  import opened Wire
  import opened Account
  import opened Requests
  import opened Challenges
  import opened Issuance

  datatype CaOrder = CaOrder(url: string, identifiers: seq<Identifier>, authorizations: seq<string>, finalize: string,
                             status: OrderStatus, csr: Option<seq<byte>>, certificate: Option<string>,
                             chain: seq<byte>)
  datatype CaAuthz = CaAuthz(status: AuthorizationStatus, challenges: set<string>)
  datatype CaChallenge = CaChallenge(status: ChallengeStatus, authz: string)

  /** What the CA keeps for the run: its order once created, and authorizations and challenges by URL. */
  datatype Ca = Ca(order: Option<CaOrder>, authz: map<string, CaAuthz>, challenges: map<string, CaChallenge>)

  ghost predicate AllValid(c: Ca, urls: seq<string>) {
    forall u :: u in urls ==> u in c.authz && c.authz[u].status.AuthzValid?
  }

  /** An authorization of the list reached a final status other than `valid`. */
  ghost predicate SomeDead(c: Ca, urls: seq<string>) {
    exists u :: u in urls && u in c.authz && !c.authz[u].status.AuthzValid? && !c.authz[u].status.AuthzPending?
  }

  /** The status of an order says how far it got: only valid authorizations make it `ready`, only a CSR
      makes it `processing` or `valid`, and without one only a dead authorization makes it `invalid`. */
  ghost predicate LawfulOrder(c: Ca, o: CaOrder) {
    && (forall u :: u in o.authorizations ==> u in c.authz)
    && match o.status
       case Pending => o.csr.None?
       case Ready => o.csr.None? && AllValid(c, o.authorizations)
       case Processing => o.csr.Some?
       case Valid => o.csr.Some? && o.certificate.Some?
       case Invalid => o.csr.None? ==> SomeDead(c, o.authorizations)
       case Unknown => false
  }

  /** Challenge-valid carries to authorization-valid at once. */
  ghost predicate Lawful(c: Ca) {
    && (forall u, h :: u in c.authz && h in c.authz[u].challenges ==> h in c.challenges && c.challenges[h].authz == u)
    && (forall h :: h in c.challenges && c.challenges[h].status.ChallValid? ==>
          c.challenges[h].authz in c.authz && c.authz[c.challenges[h].authz].status.AuthzValid?)
    && (c.order.Some? ==> LawfulOrder(c, c.order.value))
  }

  /** At this moment the order, if it awaits its CSR with every authorization valid, is ready. */
  ghost predicate Prompt(c: Ca) {
    c.order.Some? && c.order.value.csr.None? && AllValid(c, c.order.value.authorizations) ==>
      c.order.value.status.Ready?
  }

  /** Nothing valid expires, and what identifies an order, an authorization or a challenge is fixed. */
  ghost predicate Grows(c: Ca, d: Ca) {
    && (forall u :: u in c.authz ==>
          u in d.authz && d.authz[u].challenges == c.authz[u].challenges
          && (c.authz[u].status.AuthzValid? ==> d.authz[u].status.AuthzValid?))
    && (forall h :: h in c.challenges ==>
          h in d.challenges && d.challenges[h].authz == c.challenges[h].authz)
    && (c.order.Some? ==> d.order.Some? && OrderGrows(c.order.value, d.order.value))
  }

  /** The order statuses of section 7.1.6 only move forward. */
  predicate MayBecome(s: OrderStatus, p: OrderStatus) {
    match s
    case Pending => true
    case Ready => !p.Pending?
    case Processing => p.Processing? || p.Valid? || p.Invalid?
    case _ => p == s
  }

  ghost predicate OrderGrows(o: CaOrder, p: CaOrder) {
    && MayBecome(o.status, p.status)
    && p.url == o.url && p.identifiers == o.identifiers
    && p.authorizations == o.authorizations && p.finalize == o.finalize
    && (o.csr.Some? ==> p.csr == o.csr)
    && (o.certificate.Some? ==> p.certificate == o.certificate && p.chain == o.chain)
  }

  /** The order document of an answer describes the CA's order. */
  ghost predicate Describes(doc: Order, o: CaOrder) {
    && doc.url == o.url && doc.identifiers == o.identifiers
    && doc.authorizations == o.authorizations && doc.finalize == o.finalize
  }

  // The strings of section 7.1.6 of RFC 8555 for what the CA keeps.

  function OrderName(s: OrderStatus): string {
    match s
    case Pending => "pending"
    case Ready => "ready"
    case Processing => "processing"
    case Valid => "valid"
    case Invalid => "invalid"
    case Unknown => ""
  }

  function AuthorizationName(s: AuthorizationStatus): string {
    match s
    case AuthzPending => "pending"
    case AuthzValid => "valid"
    case AuthzInvalid => "invalid"
    case Deactivated => "deactivated"
    case Expired => "expired"
    case Revoked => "revoked"
    case AuthzUnknown => ""
  }

  function ChallengeName(s: ChallengeStatus): string {
    match s
    case ChallPending => "pending"
    case ChallProcessing => "processing"
    case ChallValid => "valid"
    case ChallInvalid => "invalid"
    case ChallUnknown => ""
  }

  lemma OnlyValidIsNamedValid()
    ensures forall s :: OrderName(s) == "valid" ==> s.Valid?
    ensures forall s :: AuthorizationName(s) == "valid" ==> s.AuthzValid?
    ensures forall s :: ChallengeName(s) == "valid" ==> s.ChallValid?
  {
    StringsDiffer();
    assert |"valid"| == 5;
  }

  /** A 2xx answer tells the truth about the resource it was asked for, in the wire's own strings. */
  ghost predicate Honest(c: Ca, e: Event, d: Ca) {
    && (e.Post? && e.payload.NewOrder? && OrderAnswer(e.reply).Ok? ==>
          d.order.Some? && Describes(OrderAnswer(e.reply).value, d.order.value))
    && (forall u, z :: u in c.authz && ReadAuthorization(e, u, z) ==>
          && z.status == AuthorizationName(c.authz[u].status)
          && forall ch :: ch in z.challenges ==> ch.url in c.authz[u].challenges)
    && (forall h, ch :: h in c.challenges && ReadChallenge(e, h, ch) ==>
          ch.status == ChallengeName(c.challenges[h].status))
    && (c.order.Some? ==>
          var o := c.order.value;
          && (forall doc :: ReadOrder(e, o.url, doc) ==>
                Describes(doc, o) && doc.status == OrderName(o.status) && doc.certificate == o.certificate)
          && (forall chain :: o.certificate.Some? && ReadChain(e, o.certificate.value, chain) ==> chain == o.chain))
    && (Accepted(e) && e.payload.Csr? ==> d.order.Some? && d.order.value.csr == Some(e.payload.der))
  }

  /** A CSR is taken only from a POST of it to the finalize URL of a ready order, and orders are
      created only by newOrder. */
  ghost predicate TakesCsr(c: Ca, e: Event, d: Ca) {
    d.order.Some? && d.order.value.csr.Some? && (c.order.None? || c.order.value.csr.None?) ==>
      c.order.Some? && c.order.value.status.Ready? && e.Post? && e.url == c.order.value.finalize
      && e.payload == Csr(d.order.value.csr.value)
  }

  ghost predicate CaStep(c: Ca, e: Event, d: Ca) {
    Lawful(c) && Lawful(d) && Grows(c, d) && Honest(c, e, d) && TakesCsr(c, e, d)
  }

  /** `cs[i]` is the CA's state when event `i` reaches it. */
  ghost predicate Joint(cs: seq<Ca>, t: Trace) {
    && |cs| == |t| + 1 && cs[0].order.None?
    && forall i :: 0 <= i < |t| ==> CaStep(cs[i], t[i], cs[i + 1])
  }

  lemma {:induction false} GrowsOver(cs: seq<Ca>, t: Trace, a: nat, b: nat)
    requires Joint(cs, t) && a <= b <= |t|
    ensures Grows(cs[a], cs[b])
    decreases b - a
  {
    if a < b {
      GrowsOver(cs, t, a, b - 1);
      assert CaStep(cs[b - 1], t[b - 1], cs[b]);
    }
  }

  /** No CSR is taken before the first finalize POST. */
  lemma {:induction false} NoCsrYet(cs: seq<Ca>, t: Trace, b: nat)
    requires Joint(cs, t) && b <= |t|
    requires forall i :: 0 <= i < b && t[i].Post? ==> !t[i].payload.Csr?
    ensures cs[b].order.Some? ==> cs[b].order.value.csr.None?
  {
    if b > 0 {
      NoCsrYet(cs, t, b - 1);
      assert CaStep(cs[b - 1], t[b - 1], cs[b]);
    }
  }

  /** An authorization read as `valid` is valid, then and ever after. */
  lemma ReadIsValid(cs: seq<Ca>, t: Trace, url: string, authz: Authorization, j: nat, at: nat)
    requires Joint(cs, t) && j < at <= |t| && url in cs[j].authz
    requires ReadAuthorization(t[j], url, authz) && authz.status == "valid"
    ensures url in cs[at].authz && cs[at].authz[url].status.AuthzValid?
  {
    OnlyValidIsNamedValid();
    assert CaStep(cs[j], t[j], cs[j + 1]);
    GrowsOver(cs, t, j, at);
  }

  /** So is one of whose challenges, as the CA listed them at `j`, one was read as `valid` at `k`. */
  lemma SolvedIsValid(cs: seq<Ca>, t: Trace, url: string, authz: Authorization, challenge: Challenge, c: Challenge,
                      j: nat, k: nat, at: nat)
    requires Joint(cs, t) && j < k < at <= |t| && url in cs[j].authz
    requires ReadAuthorization(t[j], url, authz) && challenge in authz.challenges
    requires ReadChallenge(t[k], challenge.url, c) && c.status == "valid"
    ensures url in cs[at].authz && cs[at].authz[url].status.AuthzValid?
  {
    OnlyValidIsNamedValid();
    assert CaStep(cs[j], t[j], cs[j + 1]);
    assert challenge.url in cs[j].authz[url].challenges;
    GrowsOver(cs, t, j, k);
    assert CaStep(cs[k], t[k], cs[k + 1]);
    GrowsOver(cs, t, k, at);
  }

  /** What the trace shows of an authorization is true at the CA, then and ever after. */
  lemma ShownIsValid(cs: seq<Ca>, t: Trace, url: string, thumbprint: string, p: Proof, from: nat, at: nat)
    requires Joint(cs, t) && from <= at <= |t| && from <= p.fetched && url in cs[from].authz
    requires Shows(t[..at], url, thumbprint, p)
    ensures url in cs[at].authz && cs[at].authz[url].status.AuthzValid?
  {
    var j := p.fetched;
    assert t[..at][j] == t[j];
    GrowsOver(cs, t, from, j);
    if p.Reused? {
      var authz :| ReadAuthorization(t[j], url, authz) && authz.status == "valid";
      ReadIsValid(cs, t, url, authz, j, at);
    } else {
      assert t[..at][p.validated] == t[p.validated];
      var c :| ReadChallenge(t[p.validated], p.challenge.url, c) && c.status == "valid";
      SolvedIsValid(cs, t, url, p.authz, p.challenge, c, j, p.validated, at);
    }
  }

  /** The order the client was told of is the CA's order from then on. */
  lemma OrderIsKnown(cs: seq<Ca>, t: Trace, run: Run, identifiers: seq<Identifier>, at: nat)
    requires Joint(cs, t) && OrderedAt(t, run, identifiers) && run.ordered < at <= |t|
    ensures cs[at].order.Some? && Describes(run.order, cs[at].order.value)
  {
    var q := run.ordered;
    assert CaStep(cs[q], t[q], cs[q + 1]);
    GrowsOver(cs, t, q + 1, at);
  }

  /** The authorizations of an order are at the CA once it is created. */
  lemma AuthorizationsAreKnown(cs: seq<Ca>, t: Trace, run: Run, identifiers: seq<Identifier>)
    requires Joint(cs, t) && OrderedAt(t, run, identifiers)
    ensures forall u :: u in run.order.authorizations ==> u in cs[run.ordered + 1].authz
  {
    assert CaStep(cs[run.ordered], t[run.ordered], cs[run.ordered + 1]);
  }

  lemma AllShownAreValid(cs: seq<Ca>, t: Trace, run: Run, identifiers: seq<Identifier>, thumbprint: string, at: nat)
    requires Joint(cs, t) && OrderedAt(t, run, identifiers) && run.ordered < at <= |t|
    requires AllShown(t[..at], run.order.authorizations, thumbprint, run.ordered + 1, run.proofs)
    ensures AllValid(cs[at], run.order.authorizations)
  {
    var urls := run.order.authorizations;
    AuthorizationsAreKnown(cs, t, run, identifiers);
    forall m | 0 <= m < |urls|
      ensures urls[m] in cs[at].authz && cs[at].authz[urls[m]].status.AuthzValid?
    {
      ShownIsValid(cs, t, urls[m], thumbprint, run.proofs[m], run.ordered + 1, at);
    }
  }

  /** Once `ready`, an order stays so until it takes a CSR. */
  lemma ReadyStays(cs: seq<Ca>, t: Trace, a: nat, b: nat)
    requires Joint(cs, t) && a <= b <= |t|
    requires cs[a].order.Some? && cs[a].order.value.status.Ready? && cs[b].order.Some? && cs[b].order.value.csr.None?
    ensures cs[b].order.value.status.Ready?
  {
    if a < b {
      GrowsOver(cs, t, a, b);
      LawfulAt(cs, t, a);
      LawfulAt(cs, t, b);
      assert AllValid(cs[b], cs[b].order.value.authorizations);
    }
  }

  lemma LawfulAt(cs: seq<Ca>, t: Trace, a: nat)
    requires Joint(cs, t) && a <= |t| && t != []
    ensures Lawful(cs[a])
  {
    if a < |t| {
      assert CaStep(cs[a], t[a], cs[a + 1]);
    } else {
      assert CaStep(cs[a - 1], t[a - 1], cs[a]);
    }
  }

  /** At some moment from `from` to `to` the authorizations were all valid and the CA was prompt. */
  ghost predicate PromptOnce(cs: seq<Ca>, urls: seq<string>, from: int, to: int) {
    exists k :: 0 <= from <= k <= to < |cs| && AllValid(cs[k], urls) && Prompt(cs[k])
  }

  /** Finalize reaches the CA only for the order it created, with no CSR taken yet and every
      authorization valid. The order is `ready` then exactly if the CA was prompt at some moment after
      the order's creation at which its authorizations were valid; it is `pending` otherwise. */
  lemma FinalizeOnlyWhenReady(cs: seq<Ca>, t: Trace, run: Run, identifiers: seq<Identifier>, thumbprint: string,
                              certKey: CertificateKey, key: AccountKey, i: nat)
    requires Joint(cs, t) && OnlyTheseRequests(t, run, key)
    requires run.finalized != -1 ==> FinalizedSafely(t, run, identifiers, thumbprint, certKey)
    requires i < |t| && t[i].Post? && t[i].payload.Csr?
    ensures cs[i].order.Some? && Describes(run.order, cs[i].order.value)
    ensures cs[i].order.value.csr.None? && t[i].url == cs[i].order.value.finalize
    ensures AllValid(cs[i], run.order.authorizations)
    ensures cs[i].order.value.status.Ready? <==> PromptOnce(cs, run.order.authorizations, run.ordered + 1, i)
    ensures !cs[i].order.value.status.Ready? ==> cs[i].order.value.status.Pending?
  {
    assert i == run.finalized;
    var q := run.ordered;
    OrderIsKnown(cs, t, run, identifiers, i);
    AllShownAreValid(cs, t, run, identifiers, thumbprint, i);
    NoCsrYet(cs, t, i);
    LawfulAt(cs, t, i);
    if cs[i].order.value.status.Ready? {
      assert AllValid(cs[i], run.order.authorizations) && Prompt(cs[i]);
    }
    if PromptOnce(cs, run.order.authorizations, q + 1, i) {
      var k :| q + 1 <= k <= i && AllValid(cs[k], run.order.authorizations) && Prompt(cs[k]);
      OrderIsKnown(cs, t, run, identifiers, k);
      NoCsrYet(cs, t, k);
      ReadyStays(cs, t, k, i);
    }
  }

  /** A finalize POST that meets a pending order is not accepted; it ends the run, which fails with what
      the answer says. */
  lemma TooEarlyFails(cs: seq<Ca>, t: Trace, run: Run, job: Job, r: Result<seq<byte>, Error>)
    requires Joint(cs, t) && RunShape(t, LedgerOf(t), run, job) && Outcome(t, run, job, r)
    requires run.finalized != -1 && !PromptOnce(cs, run.order.authorizations, run.ordered + 1, run.finalized)
    ensures r.Err? && run.finalized == |t| - 1 && BodyAnswer(t[run.finalized].reply) == Err(r.error)
  {
    var f := run.finalized;
    FinalizeOnlyWhenReady(cs, t, run, job.identifiers, job.thumbprint, job.certKey, job.key, f);
    NotReadyNotAccepted(cs, t, f);
    RefusedFinalizeEnds(t, LedgerOf(t), run, job, r);
  }

  /** A CSR sent for an order that is not ready is not accepted. */
  lemma NotReadyNotAccepted(cs: seq<Ca>, t: Trace, f: nat)
    requires Joint(cs, t) && f < |t| && t[f].Post? && t[f].payload.Csr?
    requires cs[f].order.Some? && cs[f].order.value.csr.None? && !cs[f].order.value.status.Ready?
    ensures !Accepted(t[f])
  {
    assert CaStep(cs[f], t[f], cs[f + 1]);
  }

  /** Reading the order as `valid` and then its certificate URL yields the chain the CA keeps. */
  lemma ChainIsTheCas(cs: seq<Ca>, t: Trace, orderUrl: string, y: nat, z: nat, o: Order, chain: seq<byte>)
    requires Joint(cs, t) && y < z < |t|
    requires cs[y].order.Some? && cs[y].order.value.url == orderUrl
    requires ReadOrder(t[y], orderUrl, o) && o.status == "valid" && o.certificate.Some?
    requires ReadChain(t[z], o.certificate.value, chain)
    ensures cs[z].order.Some? && cs[z].order.value.chain == chain
  {
    OnlyValidIsNamedValid();
    assert CaStep(cs[y], t[y], cs[y + 1]);
    GrowsOver(cs, t, y, z);
    assert CaStep(cs[z], t[z], cs[z + 1]);
  }

  /** A successful run returns the chain the CA issued for its order: every authorization of that order
      is valid, and the CSR it took was encoded for exactly the order's names, in order. */
  lemma ChainOfTheOrder(cs: seq<Ca>, t: Trace, run: Run, identifiers: seq<Identifier>, thumbprint: string,
                        certKey: CertificateKey, key: AccountKey, chain: seq<byte>)
    requires Joint(cs, t) && OnlyTheseRequests(t, run, key)
    requires FinalizedSafely(t, run, identifiers, thumbprint, certKey)
    requires DownloadedAfterValid(t, run.order.url, run.finalized, run.refreshed, chain)
    ensures var c := cs[|t| - 1];
            && c.order.Some? && Describes(run.order, c.order.value) && c.order.value.chain == chain
            && AllValid(c, run.order.authorizations)
            && exists names :: EncodedFor(certKey, run.order.identifiers, names, c.order.value.csr)
  {
    var f, y, z := run.finalized, run.refreshed, |t| - 1;
    FinalizeOnlyWhenReady(cs, t, run, identifiers, thumbprint, certKey, key, f);
    GrowsOver(cs, t, f, z);
    GrowsOver(cs, t, f, y);
    var o :| ReadOrder(t[y], run.order.url, o) && o.status == "valid" && o.certificate.Some?
             && ReadChain(t[z], o.certificate.value, chain);
    ChainIsTheCas(cs, t, run.order.url, y, z, o, chain);
    CsrIsKept(cs, t, f, z);
    var names := DnsNames(run.order.identifiers).value;
    DnsNamesAreTheIdentifiers(run.order.identifiers, names);
    assert EncodedFor(certKey, run.order.identifiers, names, cs[z].order.value.csr);
  }

  lemma CsrIsKept(cs: seq<Ca>, t: Trace, f: nat, z: nat)
    requires Joint(cs, t) && f < z <= |t| && Accepted(t[f]) && t[f].payload.Csr?
    ensures cs[z].order.Some? && cs[z].order.value.csr == Some(t[f].payload.der)
  {
    assert CaStep(cs[f], t[f], cs[f + 1]);
    GrowsOver(cs, t, f + 1, z);
  }

  // ---- the names the caller asked for --------------------------------------

  /** Section 7.4 of RFC 8555: an order is created for the identifiers of its newOrder request. */
  ghost predicate OrdersAsAsked(cs: seq<Ca>, t: Trace) {
    forall i :: 0 <= i < |t| && i + 1 < |cs| && t[i].Post? && t[i].payload.NewOrder? && OrderAnswer(t[i].reply).Ok? ==>
                  cs[i + 1].order.Some? && cs[i + 1].order.value.identifiers == t[i].payload.identifiers
  }

  /** Then the CSR that a successful run had certified is for exactly the names its caller gave. */
  lemma ChainForTheNamesAsked(cs: seq<Ca>, t: Trace, run: Run, identifiers: seq<Identifier>, thumbprint: string,
                              certKey: CertificateKey, key: AccountKey, chain: seq<byte>)
    requires Joint(cs, t) && OnlyTheseRequests(t, run, key) && OrdersAsAsked(cs, t)
    requires FinalizedSafely(t, run, identifiers, thumbprint, certKey)
    requires DownloadedAfterValid(t, run.order.url, run.finalized, run.refreshed, chain)
    ensures var c := cs[|t| - 1];
            && c.order.Some? && c.order.value.chain == chain
            && exists names :: EncodedFor(certKey, identifiers, names, c.order.value.csr)
  {
    ChainOfTheOrder(cs, t, run, identifiers, thumbprint, certKey, key, chain);
    OrderIsKnown(cs, t, run, identifiers, run.ordered + 1);
    assert run.order.identifiers == identifiers;
  }
}
