/** Two whole runs beside a CA, for one name with one authorization. The first CA is prompt and the run
    returns its chain. The second makes its order ready only after finalize has arrived; the POST meets
    a pending order, is refused, and the run fails. */
module CaExample {
  import opened Wrappers
  import opened Jws
  import opened Acme
  import opened Wire
  import opened Account
  import opened Requests
  import opened Challenges
  import opened Issuance
  import opened CaJoint

  // ---- the letters ---------------------------------------------------------

  const NOTHING := Body([], None, None, None, None, None)

  /** An answer with one nonce. */
  function Answer(status: nat, nonce: string, body: Body): Reply {
    Result.Ok(HttpResponse(status, [("Replay-Nonce", nonce)], body))
  }

  /** The same for something created at a location. */
  function Created(location: string, nonce: string, body: Body): Reply {
    Result.Ok(HttpResponse(201, [("Location", location), ("Replay-Nonce", nonce)], body))
  }

  lemma NoncesOfAnswer(status: nat, nonce: string, body: Body)
    requires nonce != ""
    ensures ReplayNonces(Answer(status, nonce, body).value) == [nonce]
  {
    var n := ("Replay-Nonce", nonce);
    assert EqIgnoreAsciiCase("Replay-Nonce", "Replay-Nonce");
    assert [n][1..] == [] && [nonce][1..] == [];
    assert HeadersAll([n], "Replay-Nonce") == [nonce] + [];
    assert NonEmpty([nonce]) == [nonce] + [];
  }

  lemma HeadersOfCreated(location: string, nonce: string, body: Body)
    requires nonce != ""
    ensures ReplayNonces(Created(location, nonce, body).value) == [nonce]
    ensures Created(location, nonce, body).value.Location() == Some(location)
  {
    var l, n := ("Location", location), ("Replay-Nonce", nonce);
    assert EqIgnoreAsciiCase("Location", "Location");
    assert !EqIgnoreAsciiCase("Location", "Replay-Nonce") by {
      assert |"Location"| != |"Replay-Nonce"|;
    }
    assert [l, n][1..] == [n];
    var rest := HeadersAll([n], "Replay-Nonce");
    assert HeadersAll([l, n], "Replay-Nonce") == [] + rest == rest;
    assert Header([l, n], "Location") == Some(location);
    NoncesOfAnswer(201, nonce, body);
  }

  /** A POST the account signs, with a nonce in its answer. */
  ghost predicate Letter(e: Event, key: AccountKey, url: string, payload: Payload, nonce: string, reply: Reply) {
    && ByAccount(e, Signer("kid", key)) && e.url == url && e.payload == payload
    && e.header.nonce == nonce && e.reply == reply
  }

  lemma Written(key: AccountKey, url: string, payload: Payload, nonce: string, reply: Reply) returns (e: Event)
    ensures Letter(e, key, url, payload, nonce, reply) && AllOpen([e])
  {
    OpenSigned(PayloadBytes(payload), url, nonce, None, Some("kid"), key);
    e := Post(url, SignJwsWithKid(PayloadBytes(payload), url, nonce, "kid", key), key,
              ProtectedHeader(key.Alg(), None, Some("kid"), nonce, url), payload, reply);
  }

  ghost predicate Registration(e: Event, key: AccountKey, nonce: string, reply: Reply) {
    && ByKey(e, key) && e.url == "account" && e.payload == NewAccount(true, [], false)
    && e.header.nonce == nonce && e.reply == reply
  }

  lemma Registered(key: AccountKey, nonce: string, reply: Reply) returns (e: Event)
    ensures Registration(e, key, nonce, reply) && AllOpen([e])
  {
    var payload := NewAccount(true, [], false);
    OpenSigned(PayloadBytes(payload), "account", nonce, Some(PublicJwk(key.pub)), None, key);
    e := Post("account", SignJwsWithJwk(PayloadBytes(payload), "account", nonce, key), key,
              ProtectedHeader(key.Alg(), Some(PublicJwk(key.pub)), None, nonce, "account"), payload, reply);
  }

  // ---- the common part of both runs ----------------------------------------

  const DIRECTORY := Directory("nonce", "account", "orders")
  const ORDER := "order"
  const AUTHZ := "authz"
  const CHALL := "chall"
  const FINALIZE := "finalize"
  const CHAIN := "chain"

  function TheOrder(name: string): Order {
    Order("pending", [Identifier("dns", name)], [AUTHZ], FINALIZE, None, ORDER)
  }

  function TheChallenge(status: string): Challenge {
    Challenge("http-01", CHALL, status, Some("token"))
  }

  function TheAuthorization(name: string): Authorization {
    Authorization(Identifier("dns", name), "pending", [TheChallenge("pending")])
  }

  function TheHandle(thumbprint: string): Handle {
    Handle(0, 0, KeyAuthorization("token", thumbprint))
  }

  /** The POSTs up to the challenge being valid, with their answers. */
  datatype Letters = Letters(register: Event, order: Event, fetch: Event, signal: Event, poll: Event)

  ghost predicate Proceeds(l: Letters, key: AccountKey, name: string) {
    && Registration(l.register, key, "n0", Created("kid", "n1", NOTHING.(account := Some(AccountRecord("valid", [])))))
    && Letter(l.order, key, "orders", NewOrder([Identifier("dns", name)]), "n1",
              Created(ORDER, "n2", NOTHING.(order := Some(TheOrder(name)))))
    && Letter(l.fetch, key, AUTHZ, AsGet, "n2",
              Answer(200, "n3", NOTHING.(authorization := Some(TheAuthorization(name)))))
    && Letter(l.signal, key, CHALL, ChallengeReady, "n3",
              Answer(200, "n4", NOTHING.(challenge := Some(TheChallenge("processing")))))
    && Letter(l.poll, key, CHALL, AsGet, "n4",
              Answer(200, "n5", NOTHING.(challenge := Some(TheChallenge("valid")))))
  }

  function Opened(): Trace {
    [Get("directory", Answer(200, "", NOTHING.(directory := Some(DIRECTORY))))]
    + [Head("nonce", Answer(200, "n0", NOTHING))]
  }

  function Prologue(l: Letters, name: string, thumbprint: string): Trace {
    var h := TheHandle(thumbprint);
    Opened() + [l.register] + [l.order] + [l.fetch] + [Arm(0, Identifier("dns", name), h.keyAuth, Some(h))]
    + [SelfCheck(h, true)] + [l.signal] + [l.poll] + [Drop(h)]
  }

  function Before(): Ca {
    Ca(None, map[], map[])
  }

  function Ordered(name: string): Ca {
    Ca(Some(CaOrder(ORDER, [Identifier("dns", name)], [AUTHZ], FINALIZE, Pending, None, None, [])),
       map[AUTHZ := CaAuthz(AuthzPending, {CHALL})], map[CHALL := CaChallenge(ChallPending, AUTHZ)])
  }

  /** Challenge and authorization are valid; the order is where `status` says. */
  function Validated(name: string, status: OrderStatus): Ca {
    var c := Ordered(name);
    Ca(Some(c.order.value.(status := status)), map[AUTHZ := CaAuthz(AuthzValid, {CHALL})],
       map[CHALL := CaChallenge(ChallValid, AUTHZ)])
  }

  /** The CA's states up to the event after the prologue. */
  function States(name: string, status: OrderStatus): seq<Ca> {
    var b, o, v := Before(), Ordered(name), Validated(name, status);
    [b] + [b] + [b] + [b] + [o] + [o] + [o] + [o] + [v] + [v] + [v]
  }

  // ---- the prologue beside the CA ------------------------------------------

  /** Solver events and the directory do not concern the CA. */
  lemma IdleStep(c: Ca, e: Event)
    requires Lawful(c) && !e.Post?
    ensures CaStep(c, e, c)
  {
  }

  /** A read is a step if what its answer decodes to is true of the resource it names. */
  lemma ReadStep(c: Ca, e: Event)
    requires Lawful(c) && e.Post? && e.payload.AsGet? && e.reply.Ok?
    requires e.url in c.authz ==> forall z :: ReadAuthorization(e, e.url, z) ==>
               && z.status == AuthorizationName(c.authz[e.url].status)
               && forall ch :: ch in z.challenges ==> ch.url in c.authz[e.url].challenges
    requires e.url in c.challenges ==> forall ch :: ReadChallenge(e, e.url, ch) ==>
               ch.status == ChallengeName(c.challenges[e.url].status)
    requires c.order.Some? && e.url == c.order.value.url ==> forall doc :: ReadOrder(e, e.url, doc) ==>
               var o := c.order.value;
               Describes(doc, o) && doc.status == OrderName(o.status) && doc.certificate == o.certificate
    requires c.order.Some? && c.order.value.certificate == Some(e.url) ==>
               e.reply.value.body.raw == c.order.value.chain
    ensures CaStep(c, e, c)
  {
  }

  lemma StaysBefore(e: Event)
    requires e.Post? ==> e.payload.NewAccount?
    ensures CaStep(Before(), e, Before())
  {
  }

  lemma OrderStep(e: Event, key: AccountKey, name: string)
    requires Letter(e, key, "orders", NewOrder([Identifier("dns", name)]), "n1",
                    Created(ORDER, "n2", NOTHING.(order := Some(TheOrder(name)))))
    ensures CaStep(Before(), e, Ordered(name))
  {
    HeadersOfCreated(ORDER, "n2", NOTHING.(order := Some(TheOrder(name))));
    assert OrderAnswer(e.reply) == Ok(TheOrder(name));
  }

  lemma LawfulStates(name: string, status: OrderStatus)
    requires status.Pending? || status.Ready?
    ensures Lawful(Ordered(name)) && Lawful(Validated(name, status)) && Grows(Ordered(name), Validated(name, status))
    ensures Grows(Ordered(name), Ordered(name)) && Grows(Validated(name, status), Validated(name, status))
  {
  }

  lemma FetchStep(e: Event, key: AccountKey, name: string)
    requires Letter(e, key, AUTHZ, AsGet, "n2",
                    Answer(200, "n3", NOTHING.(authorization := Some(TheAuthorization(name)))))
    ensures CaStep(Ordered(name), e, Ordered(name))
  {
    LawfulStates(name, Pending);
    assert |"authz"| == |"order"| && "authz"[0] == 'a' && "chall"[0] == 'c' && "order"[0] == 'o';
    ReadStep(Ordered(name), e);
  }

  lemma SignalStep(e: Event, key: AccountKey, name: string, status: OrderStatus)
    requires Letter(e, key, CHALL, ChallengeReady, "n3",
                    Answer(200, "n4", NOTHING.(challenge := Some(TheChallenge("processing")))))
    requires status.Pending? || status.Ready?
    ensures CaStep(Ordered(name), e, Validated(name, status))
  {
    LawfulStates(name, status);
  }

  lemma PollStep(e: Event, key: AccountKey, name: string, status: OrderStatus)
    requires Letter(e, key, CHALL, AsGet, "n4", Answer(200, "n5", NOTHING.(challenge := Some(TheChallenge("valid")))))
    requires status.Pending? || status.Ready?
    ensures CaStep(Validated(name, status), e, Validated(name, status))
  {
    LawfulStates(name, status);
    ReadStep(Validated(name, status), e);
  }

  lemma JointAppend(cs: seq<Ca>, t: Trace, e: Event, d: Ca)
    requires Joint(cs, t) && CaStep(cs[|t|], e, d)
    ensures Joint(cs + [d], t + [e])
  {
    var all, longer := cs + [d], t + [e];
    forall i | 0 <= i < |longer|
      ensures CaStep(all[i], longer[i], all[i + 1])
    {
      if i < |t| {
        assert CaStep(cs[i], t[i], cs[i + 1]);
      }
    }
  }

  /** The CA before the order: the directory, the nonce and the account do not concern it. */
  lemma JointBefore(x: Event, y: Event, z: Event)
    requires !x.Post? && !y.Post? && (z.Post? ==> z.payload.NewAccount?)
    ensures var b := Before(); Joint([b] + [b] + [b] + [b], [x] + [y] + [z])
  {
    var b, none: Trace := Before(), [];
    StaysBefore(x);
    StaysBefore(y);
    StaysBefore(z);
    assert none + [x] == [x];
    JointAppend([b], none, x, b);
    JointAppend([b] + [b], [x], y, b);
    JointAppend([b] + [b] + [b], [x] + [y], z, b);
  }

  lemma JointOrdered(cs: seq<Ca>, t: Trace, l: Letters, key: AccountKey, name: string, x: Event, y: Event)
    requires Joint(cs, t) && cs[|t|] == Before() && Proceeds(l, key, name) && !x.Post? && !y.Post?
    ensures var o := Ordered(name); Joint(cs + [o] + [o] + [o] + [o], t + [l.order] + [l.fetch] + [x] + [y])
  {
    var o := Ordered(name);
    OrderStep(l.order, key, name);
    FetchStep(l.fetch, key, name);
    LawfulStates(name, Pending);
    IdleStep(o, x);
    IdleStep(o, y);
    JointAppend(cs, t, l.order, o);
    JointAppend(cs + [o], t + [l.order], l.fetch, o);
    JointAppend(cs + [o] + [o], t + [l.order] + [l.fetch], x, o);
    JointAppend(cs + [o] + [o] + [o], t + [l.order] + [l.fetch] + [x], y, o);
  }

  lemma JointValidated(cs: seq<Ca>, t: Trace, l: Letters, key: AccountKey, name: string, status: OrderStatus, x: Event)
    requires Joint(cs, t) && cs[|t|] == Ordered(name) && Proceeds(l, key, name) && !x.Post?
    requires status.Pending? || status.Ready?
    ensures var v := Validated(name, status); Joint(cs + [v] + [v] + [v], t + [l.signal] + [l.poll] + [x])
  {
    var v := Validated(name, status);
    SignalStep(l.signal, key, name, status);
    PollStep(l.poll, key, name, status);
    LawfulStates(name, status);
    IdleStep(v, x);
    JointAppend(cs, t, l.signal, v);
    JointAppend(cs + [v], t + [l.signal], l.poll, v);
    JointAppend(cs + [v] + [v], t + [l.signal] + [l.poll], x, v);
  }

  lemma PrologueJoint(l: Letters, key: AccountKey, name: string, thumbprint: string, status: OrderStatus)
    requires Proceeds(l, key, name) && (status.Pending? || status.Ready?)
    ensures Joint(States(name, status), Prologue(l, name, thumbprint))
    ensures |Prologue(l, name, thumbprint)| == 10 && States(name, status)[10] == Validated(name, status)
  {
    var b, o, h := Before(), Ordered(name), TheHandle(thumbprint);
    var armed := Arm(0, Identifier("dns", name), h.keyAuth, Some(h));
    JointBefore(Opened()[0], Opened()[1], l.register);
    var early := [Opened()[0]] + [Opened()[1]] + [l.register];
    JointOrdered([b] + [b] + [b] + [b], early, l, key, name, armed, SelfCheck(h, true));
    JointValidated([b] + [b] + [b] + [b] + [o] + [o] + [o] + [o],
                   early + [l.order] + [l.fetch] + [armed] + [SelfCheck(h, true)], l, key, name, status, Drop(h));
    assert early == Opened() + [l.register];
  }

  // ---- the prologue as a run -----------------------------------------------

  /** One HEAD, then so many POSTs, each with the nonce of the answer before; the next nonce is at hand. */
  ghost predicate Booked(l: Ledger, posts: nat, next: string, live: Live) {
    && l.posts == posts && l.live == live
    && l.books.heads == 1 && l.books.dry == 0 && l.books.sent + [next] == l.books.offered
  }

  lemma PostBooks(t: Trace, e: Event, posts: nat, brought: string, live: Live)
    requires e.Post? && Offers(e) == [brought] && Booked(LedgerOf(t), posts, e.header.nonce, live)
    ensures Booked(LedgerOf(t + [e]), posts + 1, brought, live)
  {
    LedgerOfAppend(t, e);
  }

  lemma SilentBooks(t: Trace, e: Event, posts: nat, next: string, live: Live)
    requires !e.Post? && !e.Head? && Booked(LedgerOf(t), posts, next, live)
    ensures Booked(LedgerOf(t + [e]), posts, next, LiveAfter(live, e))
  {
    LedgerOfAppend(t, e);
    assert LedgerOf(t).books.offered + [] == LedgerOf(t).books.offered;
  }

  lemma OpenedBooks()
    ensures Booked(LedgerOf(Opened()), 0, "n0", Free)
  {
    var get, head, none: Trace := Opened()[0], Opened()[1], [];
    assert none + [get] == [get];
    LedgerOfAppend(none, get);
    LedgerOfAppend([get], head);
    NoncesOfAnswer(200, "n0", NOTHING);
    assert Offers(get) == [] && Offers(head) == ["n0"];
  }

  lemma LettersOffer(l: Letters, key: AccountKey, name: string)
    requires Proceeds(l, key, name)
    ensures Offers(l.register) == ["n1"] && Offers(l.order) == ["n2"] && Offers(l.fetch) == ["n3"]
    ensures Offers(l.signal) == ["n4"] && Offers(l.poll) == ["n5"]
    ensures RegisteredAt([l.register], 0, "kid") && OrderAnswer(l.order.reply) == Ok(TheOrder(name))
  {
    HeadersOfCreated("kid", "n1", NOTHING.(account := Some(AccountRecord("valid", []))));
    HeadersOfCreated(ORDER, "n2", NOTHING.(order := Some(TheOrder(name))));
    NoncesOfAnswer(200, "n3", NOTHING.(authorization := Some(TheAuthorization(name))));
    NoncesOfAnswer(200, "n4", NOTHING.(challenge := Some(TheChallenge("processing"))));
    NoncesOfAnswer(200, "n5", NOTHING.(challenge := Some(TheChallenge("valid"))));
  }

  lemma OrderedBooks(l: Letters, key: AccountKey, name: string)
    requires Proceeds(l, key, name)
    ensures Booked(LedgerOf(Opened() + [l.register] + [l.order] + [l.fetch]), 3, "n3", Free)
  {
    LettersOffer(l, key, name);
    OpenedBooks();
    PostBooks(Opened(), l.register, 0, "n1", Free);
    PostBooks(Opened() + [l.register], l.order, 1, "n2", Free);
    PostBooks(Opened() + [l.register] + [l.order], l.fetch, 2, "n3", Free);
  }

  lemma PrologueBooks(l: Letters, key: AccountKey, name: string, thumbprint: string)
    requires Proceeds(l, key, name)
    ensures Booked(LedgerOf(Prologue(l, name, thumbprint)), 5, "n5", Free)
  {
    var h := TheHandle(thumbprint);
    var armed, checked := Arm(0, Identifier("dns", name), h.keyAuth, Some(h)), SelfCheck(h, true);
    var t := Opened() + [l.register] + [l.order] + [l.fetch];
    OrderedBooks(l, key, name);
    LettersOffer(l, key, name);
    SilentBooks(t, armed, 3, "n3", Free);
    SilentBooks(t + [armed], checked, 3, "n3", Held(h));
    PostBooks(t + [armed] + [checked], l.signal, 3, "n4", Held(h));
    PostBooks(t + [armed] + [checked] + [l.signal], l.poll, 4, "n5", Held(h));
    SilentBooks(t + [armed] + [checked] + [l.signal] + [l.poll], Drop(h), 5, "n5", Held(h));
  }

  /** What both runs are asked to do, with an HTTP-01 solver. */
  function TheJob(key: AccountKey, certKey: CertificateKey, name: string, thumbprint: string): Job {
    Job("directory", [], [Identifier("dns", name)], [Http01], certKey, key, thumbprint)
  }

  /** The positions of both runs; `refreshed` is where the order was read as `valid`, if it was. */
  function TheRun(key: AccountKey, name: string, refreshed: int): Run {
    var proof := Solved(4, TheAuthorization(name), TheChallenge("pending"), 5, 8);
    Run(2, Signer("kid", key), TheOrder(name), 3, [proof], Reused(0), 10, refreshed)
  }

  lemma FitsAppend(t: Trace, run: Run, key: AccountKey, e: Event)
    requires OnlyTheseRequests(t, run, key) && 0 <= run.registered < |t| && RegisteredAt(t, run.registered, run.who.kid)
    requires e.Post? ==>
               && ByAccount(e, run.who) && run.who.key == key && !e.payload.NewAccount?
               && (e.payload.NewOrder? <==> |t| == run.ordered) && (e.payload.Csr? <==> |t| == run.finalized)
    ensures OnlyTheseRequests(t + [e], run, key) && RegisteredAt(t + [e], run.registered, run.who.kid)
  {
    var u := t + [e];
    assert forall i :: 0 <= i < |t| ==> u[i] == t[i];
  }

  lemma PrologueFits(l: Letters, key: AccountKey, name: string, thumbprint: string, refreshed: int)
    requires Proceeds(l, key, name)
    ensures OnlyTheseRequests(Prologue(l, name, thumbprint), TheRun(key, name, refreshed), key)
    ensures RegisteredAt(Prologue(l, name, thumbprint), 2, "kid")
  {
    var h, run := TheHandle(thumbprint), TheRun(key, name, refreshed);
    var armed, checked := Arm(0, Identifier("dns", name), h.keyAuth, Some(h)), SelfCheck(h, true);
    LettersOffer(l, key, name);
    var t := Opened() + [l.register];
    assert RegisteredAt(t, 2, "kid") by {
      assert [l.register][0] == t[2];
    }
    FitsAppend(t, run, key, l.order);
    FitsAppend(t + [l.order], run, key, l.fetch);
    var u := t + [l.order] + [l.fetch];
    FitsAppend(u, run, key, armed);
    FitsAppend(u + [armed], run, key, checked);
    FitsAppend(u + [armed] + [checked], run, key, l.signal);
    FitsAppend(u + [armed] + [checked] + [l.signal], run, key, l.poll);
    FitsAppend(u + [armed] + [checked] + [l.signal] + [l.poll], run, key, Drop(h));
  }

  lemma PrologueSolves(l: Letters, key: AccountKey, name: string, thumbprint: string)
    requires Proceeds(l, key, name)
    ensures SolvedAt(Prologue(l, name, thumbprint), Identifier("dns", name), TheChallenge("pending"), thumbprint, 5, 8)
  {
    var t := Prologue(l, name, thumbprint);
    assert |"valid"| == 5 && |"pending"| == 7 && |"processing"| == 10;
    assert t[5].Arm? && t[6].SelfCheck? && t[7] == l.signal && t[8] == l.poll;
    assert ReadChallenge(t[8], CHALL, TheChallenge("valid"));
  }

  /** The prologue shows the authorization solved. */
  lemma PrologueShows(l: Letters, key: AccountKey, name: string, thumbprint: string, refreshed: int)
    requires Proceeds(l, key, name)
    ensures AllShown(Prologue(l, name, thumbprint), [AUTHZ], thumbprint, 4, TheRun(key, name, refreshed).proofs)
  {
    var t := Prologue(l, name, thumbprint);
    PrologueSolves(l, key, name, thumbprint);
    assert |"valid"| == 5 && |"pending"| == 7;
    assert t[4] == l.fetch && ReadAuthorization(t[4], AUTHZ, TheAuthorization(name));
  }

  // ---- letters exist -------------------------------------------------------

  ghost predicate LettersOpen(l: Letters) {
    AllOpen([l.register]) && AllOpen([l.order]) && AllOpen([l.fetch]) && AllOpen([l.signal]) && AllOpen([l.poll])
  }

  lemma SomeLetters(key: AccountKey, name: string) returns (l: Letters)
    ensures Proceeds(l, key, name) && LettersOpen(l)
  {
    var x := Registered(key, "n0", Created("kid", "n1", NOTHING.(account := Some(AccountRecord("valid", [])))));
    var y := Written(key, "orders", NewOrder([Identifier("dns", name)]), "n1",
                     Created(ORDER, "n2", NOTHING.(order := Some(TheOrder(name)))));
    var z := Written(key, AUTHZ, AsGet, "n2",
                     Answer(200, "n3", NOTHING.(authorization := Some(TheAuthorization(name)))));
    var u := Written(key, CHALL, ChallengeReady, "n3",
                     Answer(200, "n4", NOTHING.(challenge := Some(TheChallenge("processing")))));
    var v := Written(key, CHALL, AsGet, "n4", Answer(200, "n5", NOTHING.(challenge := Some(TheChallenge("valid")))));
    l := Letters(x, y, z, u, v);
  }

  lemma OpenAppend(t: Trace, e: Event)
    requires AllOpen(t) && (e.Post? ==> AllOpen([e]))
    ensures AllOpen(t + [e])
  {
    assert [e][0] == e;
  }

  lemma PrologueOpens(l: Letters, name: string, thumbprint: string)
    requires LettersOpen(l)
    ensures AllOpen(Prologue(l, name, thumbprint))
  {
    var h, t := TheHandle(thumbprint), Opened() + [l.register] + [l.order] + [l.fetch];
    var armed, checked := Arm(0, Identifier("dns", name), h.keyAuth, Some(h)), SelfCheck(h, true);
    OpenAppend(Opened(), l.register);
    OpenAppend(Opened() + [l.register], l.order);
    OpenAppend(Opened() + [l.register] + [l.order], l.fetch);
    OpenAppend(t, armed);
    OpenAppend(t + [armed], checked);
    OpenAppend(t + [armed] + [checked], l.signal);
    OpenAppend(t + [armed] + [checked] + [l.signal], l.poll);
    OpenAppend(t + [armed] + [checked] + [l.signal] + [l.poll], Drop(h));
  }

  // ---- too early -----------------------------------------------------------

  /** The finalize POST of both runs. */
  ghost predicate FinalizeLetter(e: Event, key: AccountKey, der: seq<byte>, status: nat) {
    Letter(e, key, FINALIZE, Csr(der), "n5", Answer(status, "n6", NOTHING))
  }

  /** Any trace that starts with the prologue and the finalize POST holds them at their places. */
  lemma PrologueAt(t: Trace, l: Letters, e: Event, name: string, thumbprint: string)
    requires Prologue(l, name, thumbprint) + [e] <= t
    ensures |t| >= 11 && t[0] == Opened()[0] && t[1] == Opened()[1] && t[2] == l.register && t[3] == l.order
    ensures t[5].Arm? && t[5].solver == 0 && t[10] == e && t[..10] == Prologue(l, name, thumbprint)
  {
    var s := Prologue(l, name, thumbprint) + [e];
    assert |s| == 11 && s[0] == Opened()[0] && s[1] == Opened()[1] && s[2] == l.register && s[3] == l.order;
    assert s[5].Arm? && s[5].solver == 0 && s[10] == e;
    assert forall i :: 0 <= i < 11 ==> t[i] == s[i];
  }

  /** Both runs start as a run starts. */
  lemma StartsWell(t: Trace, l: Letters, e: Event, key: AccountKey, certKey: CertificateKey, name: string,
                   thumbprint: string, refreshed: int)
    requires Proceeds(l, key, name) && Prologue(l, name, thumbprint) + [e] <= t
    ensures Starts(t, TheRun(key, name, refreshed), TheJob(key, certKey, name, thumbprint))
    ensures KnowsOrder(t, TheRun(key, name, refreshed)) && OrderGiven(t, 3)
  {
    PrologueAt(t, l, e, name, thumbprint);
    LettersOffer(l, key, name);
    NoncesOfAnswer(200, "n0", NOTHING);
    assert DirectoryAnswer(t[0].reply) == Ok(DIRECTORY);
    assert FirstOf(t[1].reply) == Ok("n0");
  }

  lemma PickedHttp01(challenge: Challenge)
    requires challenge.type_ == "http-01"
    ensures PickedFirst([challenge], [Http01], 0, challenge)
  {
    KindStrings(challenge.type_);
    assert [challenge][0] == challenge;
  }

  /** What both runs have shown when they finalize. */
  lemma FinalizesSafely(t: Trace, l: Letters, e: Event, key: AccountKey, certKey: CertificateKey, name: string,
                        thumbprint: string, der: seq<byte>, status: nat, refreshed: int)
    requires Proceeds(l, key, name) && FinalizeLetter(e, key, der, status) && certKey.request([name]) == Some(der)
    requires Prologue(l, name, thumbprint) + [e] <= t
    ensures FinalizedSafely(t, TheRun(key, name, refreshed), [Identifier("dns", name)], thumbprint, certKey)
  {
    PrologueAt(t, l, e, name, thumbprint);
    LettersOffer(l, key, name);
    PrologueShows(l, key, name, thumbprint, refreshed);
    DnsNamesAreTheIdentifiers([Identifier("dns", name)], [name]);
  }

  lemma ProvesTheOne(t: Trace, l: Letters, e: Event, key: AccountKey, certKey: CertificateKey, name: string,
                     thumbprint: string, der: seq<byte>, status: nat, refreshed: int)
    requires Proceeds(l, key, name) && FinalizeLetter(e, key, der, status) && certKey.request([name]) == Some(der)
    requires Prologue(l, name, thumbprint) + [e] <= t && ReadsAfterFinalize(t, ORDER, 10, refreshed)
    ensures var run := TheRun(key, name, refreshed);
            ProvesInOrder(t, 4, run.order, TheJob(key, certKey, name, thumbprint), run.who, run.proofs, 10, refreshed)
  {
    var run, job := TheRun(key, name, refreshed), TheJob(key, certKey, name, thumbprint);
    PrologueAt(t, l, e, name, thumbprint);
    PrologueShows(l, key, name, thumbprint, refreshed);
    PickedHttp01(TheChallenge("pending"));
    FinalizesSafely(t, l, e, key, certKey, name, thumbprint, der, status, refreshed);
    ShownLater(t[..10], t, [AUTHZ], thumbprint, 4, run.proofs);
    assert run.order.authorizations[..1] == [AUTHZ];
    assert Proven(t, run.order.authorizations, thumbprint, job.solvers, 4, run.proofs);
  }

  lemma SlowSteps(e: Event, key: AccountKey, name: string, der: seq<byte>)
    requires FinalizeLetter(e, key, der, 403)
    ensures CaStep(Validated(name, Pending), e, Validated(name, Ready))
  {
    LawfulStates(name, Pending);
    LawfulStates(name, Ready);
  }

  lemma SlowJoint(l: Letters, e: Event, key: AccountKey, name: string, thumbprint: string, der: seq<byte>)
    requires Proceeds(l, key, name) && FinalizeLetter(e, key, der, 403)
    ensures Joint(States(name, Pending) + [Validated(name, Ready)], Prologue(l, name, thumbprint) + [e])
  {
    PrologueJoint(l, key, name, thumbprint, Pending);
    SlowSteps(e, key, name, der);
    JointAppend(States(name, Pending), Prologue(l, name, thumbprint), e, Validated(name, Ready));
  }

  lemma SlowRunFacts(l: Letters, e: Event, key: AccountKey, certKey: CertificateKey, name: string, thumbprint: string,
                     der: seq<byte>)
    requires Proceeds(l, key, name) && FinalizeLetter(e, key, der, 403) && certKey.request([name]) == Some(der)
    ensures var t := Prologue(l, name, thumbprint) + [e];
            RunFacts(t, LedgerOf(t), TheRun(key, name, -1), TheJob(key, certKey, name, thumbprint))
  {
    var before, run := Prologue(l, name, thumbprint), TheRun(key, name, -1);
    var t := before + [e];
    PrologueBooks(l, key, name, thumbprint);
    NoncesOfAnswer(403, "n6", NOTHING);
    PostBooks(before, e, 5, "n6", Free);
    PrologueFits(l, key, name, thumbprint, -1);
    FitsAppend(before, run, key, e);
    PrologueAt(t, l, e, name, thumbprint);
    StartsWell(t, l, e, key, certKey, name, thumbprint, -1);
    FinalizesSafely(t, l, e, key, certKey, name, thumbprint, der, 403, -1);
    ProvesTheOne(t, l, e, key, certKey, name, thumbprint, der, 403, -1);
  }

  lemma SlowRunEnds(l: Letters, e: Event, key: AccountKey, certKey: CertificateKey, name: string, thumbprint: string,
                    der: seq<byte>)
    requires Proceeds(l, key, name) && FinalizeLetter(e, key, der, 403)
    ensures Outcome(Prologue(l, name, thumbprint) + [e], TheRun(key, name, -1),
                    TheJob(key, certKey, name, thumbprint), Err(Problem(403)))
    ensures (States(name, Pending) + [Validated(name, Ready)])[10] == Validated(name, Pending)
  {
    var t := Prologue(l, name, thumbprint) + [e];
    PrologueAt(t, l, e, name, thumbprint);
    StartsWell(t, l, e, key, certKey, name, thumbprint, -1);
    assert |t| == 11;
  }

  /** A CA that makes its order ready too late: the run sent its finalize while the order was pending,
      and failed. */
  lemma SlowRun(key: AccountKey, certKey: CertificateKey, thumbprint: string, name: string, der: seq<byte>)
    returns (cs: seq<Ca>, t: Trace, run: Run, job: Job)
    requires certKey.request([name]) == Some(der)
    ensures job == TheJob(key, certKey, name, thumbprint)
    ensures Joint(cs, t) && AllOpen(t) && RunFacts(t, LedgerOf(t), run, job) && Outcome(t, run, job, Err(Problem(403)))
    ensures run.order.authorizations == [AUTHZ] && 0 <= run.finalized < |cs|
    ensures cs[run.finalized].order.Some? && cs[run.finalized].order.value.status.Pending?
  {
    var l := SomeLetters(key, name);
    var e := Written(key, FINALIZE, Csr(der), "n5", Answer(403, "n6", NOTHING));
    run, job := TheRun(key, name, -1), TheJob(key, certKey, name, thumbprint);
    t, cs := Prologue(l, name, thumbprint) + [e], States(name, Pending) + [Validated(name, Ready)];
    SlowJoint(l, e, key, name, thumbprint, der);
    PrologueOpens(l, name, thumbprint);
    OpenAppend(Prologue(l, name, thumbprint), e);
    SlowRunFacts(l, e, key, certKey, name, thumbprint, der);
    SlowRunEnds(l, e, key, certKey, name, thumbprint, der);
  }

  // ---- in time -------------------------------------------------------------

  const CERTIFICATE_URL := "certificate"

  function Issued(name: string, der: seq<byte>, chain: seq<byte>): Ca {
    var c := Validated(name, Ready);
    var o := c.order.value.(status := Valid, csr := Some(der), certificate := Some(CERTIFICATE_URL), chain := chain);
    c.(order := Some(o))
  }

  function ValidOrder(name: string): Order {
    TheOrder(name).(status := "valid", certificate := Some(CERTIFICATE_URL))
  }

  ghost predicate OrderPoll(e: Event, key: AccountKey, name: string) {
    Letter(e, key, ORDER, AsGet, "n6", Answer(200, "n7", NOTHING.(order := Some(ValidOrder(name)))))
  }

  ghost predicate ChainRead(e: Event, key: AccountKey, chain: seq<byte>) {
    Letter(e, key, CERTIFICATE_URL, AsGet, "n7", Answer(200, "n8", NOTHING.(raw := chain)))
  }

  lemma LawfulIssued(name: string, der: seq<byte>, chain: seq<byte>)
    ensures Lawful(Issued(name, der, chain)) && Grows(Validated(name, Ready), Issued(name, der, chain))
  {
  }

  lemma IssuingStep(e: Event, key: AccountKey, name: string, der: seq<byte>, chain: seq<byte>)
    requires FinalizeLetter(e, key, der, 200)
    ensures CaStep(Validated(name, Ready), e, Issued(name, der, chain))
  {
    LawfulStates(name, Ready);
    LawfulIssued(name, der, chain);
  }

  lemma ValidOrderReads(e: Event, key: AccountKey, name: string)
    requires OrderPoll(e, key, name)
    ensures ReadOrder(e, ORDER, ValidOrder(name))
  {
  }

  lemma OrderPollStep(e: Event, key: AccountKey, name: string, der: seq<byte>, chain: seq<byte>)
    requires OrderPoll(e, key, name)
    ensures CaStep(Issued(name, der, chain), e, Issued(name, der, chain))
  {
    ValidOrderReads(e, key, name);
    LawfulIssued(name, der, chain);
    assert |"order"| == 5 && |"certificate"| == 11;
    ReadStep(Issued(name, der, chain), e);
  }

  lemma ChainStep(e: Event, key: AccountKey, name: string, der: seq<byte>, chain: seq<byte>)
    requires ChainRead(e, key, chain)
    ensures CaStep(Issued(name, der, chain), e, Issued(name, der, chain)) && ReadChain(e, CERTIFICATE_URL, chain)
  {
    LawfulIssued(name, der, chain);
    ReadStep(Issued(name, der, chain), e);
  }

  lemma PromptJoint(l: Letters, e: Event, poll: Event, last: Event, key: AccountKey, name: string, thumbprint: string,
                    der: seq<byte>, chain: seq<byte>)
    requires Proceeds(l, key, name) && FinalizeLetter(e, key, der, 200)
    requires OrderPoll(poll, key, name) && ChainRead(last, key, chain)
    ensures var i := Issued(name, der, chain);
            Joint(States(name, Ready) + [i] + [i] + [i], Prologue(l, name, thumbprint) + [e] + [poll] + [last])
  {
    var i, cs, t := Issued(name, der, chain), States(name, Ready), Prologue(l, name, thumbprint);
    PrologueJoint(l, key, name, thumbprint, Ready);
    IssuingStep(e, key, name, der, chain);
    OrderPollStep(poll, key, name, der, chain);
    ChainStep(last, key, name, der, chain);
    JointAppend(cs, t, e, i);
    JointAppend(cs + [i], t + [e], poll, i);
    JointAppend(cs + [i] + [i], t + [e] + [poll], last, i);
  }

  lemma PromptBooks(l: Letters, e: Event, poll: Event, last: Event, key: AccountKey, name: string, thumbprint: string,
                    der: seq<byte>, chain: seq<byte>)
    requires Proceeds(l, key, name) && FinalizeLetter(e, key, der, 200)
    requires OrderPoll(poll, key, name) && ChainRead(last, key, chain)
    ensures Booked(LedgerOf(Prologue(l, name, thumbprint) + [e] + [poll] + [last]), 8, "n8", Free)
  {
    var t := Prologue(l, name, thumbprint);
    PrologueBooks(l, key, name, thumbprint);
    NoncesOfAnswer(200, "n6", NOTHING);
    NoncesOfAnswer(200, "n7", NOTHING.(order := Some(ValidOrder(name))));
    NoncesOfAnswer(200, "n8", NOTHING.(raw := chain));
    PostBooks(t, e, 5, "n6", Free);
    PostBooks(t + [e], poll, 6, "n7", Free);
    PostBooks(t + [e] + [poll], last, 7, "n8", Free);
  }

  lemma PromptFits(l: Letters, e: Event, poll: Event, last: Event, key: AccountKey, name: string, thumbprint: string,
                   der: seq<byte>, chain: seq<byte>)
    requires Proceeds(l, key, name) && FinalizeLetter(e, key, der, 200)
    requires OrderPoll(poll, key, name) && ChainRead(last, key, chain)
    ensures OnlyTheseRequests(Prologue(l, name, thumbprint) + [e] + [poll] + [last], TheRun(key, name, 11), key)
  {
    var t, run := Prologue(l, name, thumbprint), TheRun(key, name, 11);
    PrologueFits(l, key, name, thumbprint, 11);
    FitsAppend(t, run, key, e);
    FitsAppend(t + [e], run, key, poll);
    FitsAppend(t + [e] + [poll], run, key, last);
  }

  lemma PromptReads(l: Letters, e: Event, poll: Event, last: Event, key: AccountKey, name: string, thumbprint: string,
                    der: seq<byte>, chain: seq<byte>)
    requires Proceeds(l, key, name) && FinalizeLetter(e, key, der, 200)
    requires OrderPoll(poll, key, name) && ChainRead(last, key, chain)
    ensures var t := Prologue(l, name, thumbprint) + [e] + [poll] + [last];
            |t| == 13 && ReadsAfterFinalize(t, ORDER, 10, 11) && Downloads(t, 11, ORDER, Ok(chain))
  {
    var t := Prologue(l, name, thumbprint) + [e] + [poll] + [last];
    assert t[10] == e && t[11] == poll && t[12] == last && |t| == 13;
    ValidOrderReads(poll, key, name);
    assert NamedCertificate(t, 11, ORDER, CERTIFICATE_URL);
  }

  lemma PromptRunFacts(l: Letters, e: Event, poll: Event, last: Event, key: AccountKey, certKey: CertificateKey,
                       name: string, thumbprint: string, der: seq<byte>, chain: seq<byte>)
    requires Proceeds(l, key, name) && FinalizeLetter(e, key, der, 200) && certKey.request([name]) == Some(der)
    requires OrderPoll(poll, key, name) && ChainRead(last, key, chain)
    ensures var t := Prologue(l, name, thumbprint) + [e] + [poll] + [last];
            var run, job := TheRun(key, name, 11), TheJob(key, certKey, name, thumbprint);
            RunFacts(t, LedgerOf(t), run, job) && Outcome(t, run, job, Ok(chain))
  {
    var t := Prologue(l, name, thumbprint) + [e] + [poll] + [last];
    PromptBooks(l, e, poll, last, key, name, thumbprint, der, chain);
    PromptFits(l, e, poll, last, key, name, thumbprint, der, chain);
    PromptReads(l, e, poll, last, key, name, thumbprint, der, chain);
    StartsWell(t, l, e, key, certKey, name, thumbprint, 11);
    FinalizesSafely(t, l, e, key, certKey, name, thumbprint, der, 200, 11);
    ProvesTheOne(t, l, e, key, certKey, name, thumbprint, der, 200, 11);
  }

  /** A prompt CA: the run returns the chain. */
  lemma PromptRun(key: AccountKey, certKey: CertificateKey, thumbprint: string, name: string, der: seq<byte>,
                  chain: seq<byte>)
    returns (cs: seq<Ca>, t: Trace, run: Run, job: Job)
    requires certKey.request([name]) == Some(der)
    ensures job == TheJob(key, certKey, name, thumbprint)
    ensures Joint(cs, t) && AllOpen(t) && RunFacts(t, LedgerOf(t), run, job) && Outcome(t, run, job, Ok(chain))
    ensures run.order.authorizations == [AUTHZ]
  {
    var l := SomeLetters(key, name);
    var e := Written(key, FINALIZE, Csr(der), "n5", Answer(200, "n6", NOTHING));
    var poll := Written(key, ORDER, AsGet, "n6", Answer(200, "n7", NOTHING.(order := Some(ValidOrder(name)))));
    var last := Written(key, CERTIFICATE_URL, AsGet, "n7", Answer(200, "n8", NOTHING.(raw := chain)));
    var before, i := Prologue(l, name, thumbprint), Issued(name, der, chain);
    run, job := TheRun(key, name, 11), TheJob(key, certKey, name, thumbprint);
    t, cs := before + [e] + [poll] + [last], States(name, Ready) + [i] + [i] + [i];
    PromptJoint(l, e, poll, last, key, name, thumbprint, der, chain);
    PromptRunFacts(l, e, poll, last, key, certKey, name, thumbprint, der, chain);
    PrologueOpens(l, name, thumbprint);
    OpenAppend(before, e);
    OpenAppend(before + [e], poll);
    OpenAppend(before + [e] + [poll], last);
  }
}
