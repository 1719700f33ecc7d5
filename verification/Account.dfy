/** The nonce store as one thread uses it (`nonce.rs`), and the account calls that spend a nonce and
    absorb the answer (`account.rs`). The store used by several threads is module NonceProtocol. */
module Account {
  import opened Wrappers
  import opened Jws
  import opened Acme
  import opened Wire

  // ---- the nonce books -----------------------------------------------------

  /** Sent nonces followed by the pool are all nonces offered so far, in order. A HEAD is sent on an
      empty pool only, so all but one that brought nonces are paid for by POSTs answered without. */
  ghost predicate AtRest(b: Books, pool: seq<string>) {
    b.sent + pool == b.offered && b.heads <= b.barren + b.dry + (if pool == [] then 0 else 1)
  }

  /** The same while `nonce` is out of the pool and not yet sent. */
  ghost predicate InHand(b: Books, nonce: string, pool: seq<string>) {
    b.sent + [nonce] + pool == b.offered && b.heads <= b.barren + b.dry + 1
  }

  /** A POST that spends the nonce in hand and absorbs its answer comes to rest again. */
  lemma SpendAndAbsorb(b: Books, nonce: string, pool: seq<string>, e: Event)
    requires InHand(b, nonce, pool) && e.Post? && e.header.nonce == nonce
    ensures AtRest(BooksAfter(b, e), pool + Offers(e))
  {
    assert b.sent + [nonce] + (pool + Offers(e)) == b.offered + Offers(e);
  }

  /** What `get` on an empty pool returns for each answer to its HEAD. */
  function FirstOf(reply: Reply): Result<string, Error> {
    if reply.Err? then Err(reply.error)
    else if !reply.value.Success() then Err(Transport)
    else if ReplayNonces(reply.value) == [] then Err(MissingField("Replay-Nonce"))
    else Ok(ReplayNonces(reply.value)[0])
  }

  class ReplayNonceStore {
    const newNonceUrl: string
    var pool: seq<string>
    ghost var books: Books   // of the requests made for this store since it was last cleared

    ghost predicate Valid()
      reads this`pool, this`books
    {
      AtRest(books, pool)
    }

    constructor (newNonceUrl: string)
      ensures Valid() && pool == [] && books == NO_BOOKS && this.newNonceUrl == newNonceUrl
    {
      this.newNonceUrl := newNonceUrl;
      pool, books := [], NO_BOOKS;
    }

    method Clear()
      modifies this
      ensures Valid() && pool == []
    {
      pool, books := [], NO_BOOKS;
    }

    method Absorb(response: HttpResponse)
      modifies this`pool
      ensures pool == old(pool) + ReplayNonces(response)
    {
      var values := HeadersAll(response.headers, "Replay-Nonce");
      var i := 0;
      while i < |values|
        invariant 0 <= i <= |values|
        invariant pool + NonEmpty(values[i..]) == old(pool) + NonEmpty(values)
      {
        assert values[i..][1..] == values[i + 1..];
        if values[i] != "" {
          pool := pool + [values[i]];
        }
        i := i + 1;
      }
    }

    /** `refill`: one HEAD; fails unless it is a 2xx that leaves the pool non-empty. */
    method Refill(wire: Wire) returns (r: Result<(), Error>)
      requires wire.Valid() && pool == []
      modifies wire, this
      ensures wire.Valid() && wire.clock >= old(wire.clock) + wire.latency
      ensures |wire.trace| == |old(wire.trace)| + 1 && old(wire.trace) <= wire.trace
      ensures var e := wire.trace[|old(wire.trace)|];
              && e.Head? && e.url == newNonceUrl && pool == Offers(e)
              && wire.ledger == Extend(old(wire.ledger), e) && books == BooksAfter(old(books), e)
              && (r.Ok? <==> FirstOf(e.reply).Ok?)
              && (r.Err? ==> r.error == FirstOf(e.reply).error && pool == [])
    {
      var reply := wire.HttpHead(newNonceUrl);
      books := BooksAfter(books, Head(newNonceUrl, reply));
      if reply.Err? {
        return Err(reply.error);
      }
      if !reply.value.Success() {
        return Err(Transport);
      }
      Absorb(reply.value);
      if pool == [] {
        return Err(MissingField("Replay-Nonce"));
      }
      return Ok(());
    }

    /** `get`: the oldest pooled nonce, after at most one HEAD. The error branch of its last pop
        cannot be taken by a single thread. */
    method Get(wire: Wire) returns (r: Result<string, Error>)
      requires wire.Valid() && Valid()
      modifies wire, this
      ensures wire.Valid() && wire.clock >= old(wire.clock)
      ensures old(pool) != [] ==>
                && wire.trace == old(wire.trace) && wire.ledger == old(wire.ledger) && books == old(books)
                && r == Ok(old(pool)[0]) && pool == old(pool)[1..]
      ensures old(pool) == [] ==>
                && |wire.trace| == |old(wire.trace)| + 1 && old(wire.trace) <= wire.trace
                && wire.clock >= old(wire.clock) + wire.latency
                && var e := wire.trace[|old(wire.trace)|];
                   && e.Head? && e.url == newNonceUrl && r == FirstOf(e.reply)
                   && wire.ledger == Extend(old(wire.ledger), e) && books == BooksAfter(old(books), e)
                   && pool == if r.Ok? then ReplayNonces(e.reply.value)[1..] else []
      ensures if r.Ok? then InHand(books, r.value, pool) else Valid()
    {
      if pool != [] {
        r, pool := Ok(pool[0]), pool[1..];
        return;
      }
      var _ :- Refill(wire);
      assert pool != [];
      r, pool := Ok(pool[0]), pool[1..];
    }
  }

  // ---- the account ---------------------------------------------------------

  /** Who signs a request: the account URL and the account key. */
  datatype Signer = Signer(kid: string, key: AccountKey)

  datatype Account = Account(record: AccountRecord, kid: string, key: AccountKey, nonce: ReplayNonceStore,
                             directory: Directory)
  {
    function Who(): Signer {
      Signer(kid, key)
    }
  }

  /** Time and trace only grow, and the store is at rest. Only a HEAD that brought nothing, which
      fails the call, adds to the barren ones. A store that makes all requests keeps the wire's books. */
  twostate predicate Moved(wire: Wire, store: ReplayNonceStore, ok: bool)
    reads wire, store
  {
    && wire.Valid() && old(wire.clock) <= wire.clock && old(wire.trace) <= wire.trace
    && store.Valid()
    && (store.books.barren == old(store.books.barren)
        || (!ok && store.books.barren == old(store.books.barren) + 1 && store.pool == []))
    && (old(wire.ledger.books) == old(store.books) ==> wire.ledger.books == store.books)
  }

  /** A POST signed for the account: `kid` and no `jwk`. */
  ghost predicate ByAccount(e: Event, who: Signer) {
    e.Post? && e.key == who.key && e.header.kid == Some(who.kid) && e.header.jwk == None
  }

  /** A call that ends on a HEAD ended because that HEAD yielded no nonce. */
  ghost predicate GetFailed(e: Event, error: Error) {
    e.Head? && FirstOf(e.reply) == Err(error)
  }

  /** From `from` on the trace holds this one request, after a HEAD at most; or only a HEAD, which failed. */
  ghost predicate OneRequest(t: Trace, from: int, url: string, payload: Payload, who: Signer) {
    && 0 <= from < |t| <= from + 2 && (|t| == from + 2 ==> t[from].Head?)
    && var e := t[|t| - 1];
       (e.Head? && |t| == from + 1) || (ByAccount(e, who) && e.url == url && e.payload == payload)
  }

  /** Sign with the account's `kid` and send. */
  method SendWithKid(account: Account, url: string, payload: Payload, nonce: string, wire: Wire) returns (r: Reply)
    requires wire.Valid()
    modifies wire
    ensures wire.Valid() && wire.clock >= old(wire.clock) + wire.latency
    ensures |wire.trace| == |old(wire.trace)| + 1 && old(wire.trace) <= wire.trace
    ensures var e := wire.trace[|old(wire.trace)|];
            && e.Post? && e.url == url && e.payload == payload && e.reply == r
            && e.header == ProtectedHeader(account.key.Alg(), None, Some(account.kid), nonce, url)
            && e.key == account.key && wire.ledger == Extend(old(wire.ledger), e)
  {
    var body := SignJwsWithKid(PayloadBytes(payload), url, nonce, account.kid, account.key);
    OpenSigned(PayloadBytes(payload), url, nonce, None, Some(account.kid), account.key);
    ghost var header := ProtectedHeader(account.key.Alg(), None, Some(account.kid), nonce, url);
    r := wire.PostJose(url, body, account.key, header, payload);
  }

  /** Sign with the key's own `jwk` and send. */
  method SendWithJwk(key: AccountKey, url: string, payload: Payload, nonce: string, wire: Wire) returns (r: Reply)
    requires wire.Valid()
    modifies wire
    ensures wire.Valid() && wire.clock >= old(wire.clock) + wire.latency
    ensures |wire.trace| == |old(wire.trace)| + 1 && old(wire.trace) <= wire.trace
    ensures var e := wire.trace[|old(wire.trace)|];
            && e.Post? && e.url == url && e.payload == payload && e.reply == r
            && e.header == ProtectedHeader(key.Alg(), Some(PublicJwk(key.pub)), None, nonce, url)
            && e.key == key && wire.ledger == Extend(old(wire.ledger), e)
  {
    var body := SignJwsWithJwk(PayloadBytes(payload), url, nonce, key);
    OpenSigned(PayloadBytes(payload), url, nonce, Some(PublicJwk(key.pub)), None, key);
    ghost var header := ProtectedHeader(key.Alg(), Some(PublicJwk(key.pub)), None, nonce, url);
    r := wire.PostJose(url, body, key, header, payload);
  }

  /** The part of `post_kid` after the nonce is in hand. */
  method SpendNonce(account: Account, url: string, payload: Payload, nonce: string, wire: Wire) returns (r: Reply)
    requires wire.Valid() && InHand(account.nonce.books, nonce, account.nonce.pool)
    modifies wire, account.nonce
    ensures wire.Valid() && account.nonce.Valid() && wire.clock >= old(wire.clock) + wire.latency
    ensures |wire.trace| == |old(wire.trace)| + 1 && old(wire.trace) <= wire.trace
    ensures var e := wire.trace[|old(wire.trace)|];
            && ByAccount(e, account.Who()) && e.url == url && e.payload == payload && e.reply == r
            && e.header.nonce == nonce
            && wire.ledger == Extend(old(wire.ledger), e)
            && account.nonce.books == BooksAfter(old(account.nonce.books), e)
  {
    ghost var store := account.nonce;
    ghost var books, pool := store.books, store.pool;
    r := SendWithKid(account, url, payload, nonce, wire);
    ghost var e := wire.trace[|wire.trace| - 1];
    SpendAndAbsorb(books, nonce, pool, e);
    account.nonce.books := BooksAfter(books, e);
    if r.Ok? {
      account.nonce.Absorb(r.value);
    }
  }

  /** `post_kid`: spend a nonce, sign with the account's `kid`, send, absorb the answer. */
  method PostKid(account: Account, url: string, payload: Payload, wire: Wire) returns (r: Reply)
    requires wire.Valid() && account.nonce.Valid()
    modifies wire, account.nonce
    ensures Moved(wire, account.nonce, r.Ok?) && wire.clock >= old(wire.clock) + wire.latency
    ensures wire.ledger.posts <= old(wire.ledger).posts + 1 && wire.ledger.live == old(wire.ledger).live
    ensures OneRequest(wire.trace, |old(wire.trace)|, url, payload, account.Who())
    ensures var e := wire.trace[|wire.trace| - 1];
            if e.Post? then r == e.reply else r.Err? && GetFailed(e, r.error)
    ensures old(account.nonce.pool) != [] ==>
              && |wire.trace| == |old(wire.trace)| + 1
              && var e := wire.trace[|wire.trace| - 1]; e.Post? && e.header.nonce == old(account.nonce.pool)[0]
  {
    var nonce :- account.nonce.Get(wire);
    r := SpendNonce(account, url, payload, nonce, wire);
  }

  /** What `create_with_options` makes of the answer: the status is checked before `Location`. */
  function AccountAnswer(reply: Reply): Result<(AccountRecord, string), Error> {
    if reply.Err? then Err(reply.error)
    else if !reply.value.Success() then Err(Problem(reply.value.status))
    else if reply.value.Location().None? then Err(MissingField("Location"))
    else if reply.value.body.account.None? then Err(Serialization)
    else Ok((reply.value.body.account.value, reply.value.Location().value))
  }

  /** The checks of `create_with_options` on the answer it got. */
  method ReadAccount(response: HttpResponse) returns (r: Result<(AccountRecord, string), Error>)
    ensures r == AccountAnswer(Ok(response))
  {
    var accepted :- response.Ok();
    var kid := accepted.Location();
    if kid.None? {
      return Err(MissingField("Location"));
    }
    if accepted.body.account.None? {
      return Err(Serialization);
    }
    return Ok((accepted.body.account.value, kid.value));
  }

  /** A POST signed with the key's own `jwk`, no `kid`. */
  ghost predicate ByKey(e: Event, key: AccountKey) {
    e.Post? && e.key == key && e.header.jwk == Some(PublicJwk(key.pub)) && e.header.kid == None
  }

  /** The part of `create_with_options` after the nonce is in hand, up to absorbing the answer. */
  method Register(store: ReplayNonceStore, url: string, payload: Payload, nonce: string, key: AccountKey, wire: Wire)
    returns (r: Reply)
    requires wire.Valid() && InHand(store.books, nonce, store.pool)
    modifies wire, store
    ensures wire.Valid() && store.Valid() && wire.clock >= old(wire.clock) + wire.latency
    ensures |wire.trace| == |old(wire.trace)| + 1 && old(wire.trace) <= wire.trace
    ensures var e := wire.trace[|old(wire.trace)|];
            && ByKey(e, key) && e.url == url && e.payload == payload && e.reply == r && e.header.nonce == nonce
            && wire.ledger == Extend(old(wire.ledger), e) && store.books == BooksAfter(old(store.books), e)
  {
    ghost var books, pool := store.books, store.pool;
    r := SendWithJwk(key, url, payload, nonce, wire);
    ghost var e := wire.trace[|wire.trace| - 1];
    SpendAndAbsorb(books, nonce, pool, e);
    store.books := BooksAfter(books, e);
    if r.Ok? {
      store.Absorb(r.value);
    }
  }

  /** `create_with_options` once the nonce is in hand: register and read the answer. */
  method Enroll(store: ReplayNonceStore, url: string, payload: Payload, nonce: string, key: AccountKey, wire: Wire)
    returns (r: Result<(AccountRecord, string), Error>)
    requires wire.Valid() && InHand(store.books, nonce, store.pool)
    modifies wire, store
    ensures wire.Valid() && store.Valid() && wire.clock >= old(wire.clock)
    ensures |wire.trace| == |old(wire.trace)| + 1 && old(wire.trace) <= wire.trace
    ensures var e := wire.trace[|old(wire.trace)|];
            && ByKey(e, key) && e.url == url && e.payload == payload && e.header.nonce == nonce
            && r == AccountAnswer(e.reply)
            && wire.ledger == Extend(old(wire.ledger), e) && store.books == BooksAfter(old(store.books), e)
  {
    var reply := Register(store, url, payload, nonce, key, wire);
    var response :- reply;
    r := ReadAccount(response);
  }

  /** The first two requests of a fresh store: the HEAD its empty pool calls for, and then a POST. */
  ghost predicate FirstRequests(t: Trace, from: int, newNonceUrl: string) {
    && 0 <= from < |t| <= from + 2 && t[from].Head? && t[from].url == newNonceUrl
    && (|t| == from + 2 ==> FirstOf(t[from].reply).Ok?)
  }

  /** `create_with_options` on its fresh store: the HEAD, and the registration over the nonce it brings. */
  method GetAndEnroll(store: ReplayNonceStore, url: string, payload: Payload, key: AccountKey, wire: Wire)
    returns (r: Result<(AccountRecord, string), Error>)
    requires wire.Valid() && store.Valid() && store.pool == [] && store.books == NO_BOOKS
    modifies wire, store
    ensures wire.Valid() && store.Valid() && wire.clock >= old(wire.clock)
    ensures store.books.heads == 1 && store.books.sent <= store.books.offered
    ensures old(wire.ledger.books) == NO_BOOKS ==> wire.ledger.books == store.books
    ensures wire.ledger.posts <= old(wire.ledger).posts + 1 && wire.ledger.live == old(wire.ledger).live
    ensures old(wire.trace) <= wire.trace && FirstRequests(wire.trace, |old(wire.trace)|, store.newNonceUrl)
    ensures |wire.trace| == |old(wire.trace)| + 2 ==>
              var head, post := wire.trace[|old(wire.trace)|], wire.trace[|old(wire.trace)| + 1];
              && ByKey(post, key) && post.url == url && post.payload == payload
              && post.header.nonce == FirstOf(head.reply).value && r == AccountAnswer(post.reply)
    ensures |wire.trace| == |old(wire.trace)| + 1 ==> r.Err? && GetFailed(wire.trace[|old(wire.trace)|], r.error)
    ensures r.Ok? ==> store.books.barren == 0
  {
    var nonce :- store.Get(wire);
    ghost var asked := wire.trace;
    r := Enroll(store, url, payload, nonce, key, wire);
    assert wire.trace[|old(wire.trace)|] == asked[|old(wire.trace)|];
  }

  /** `account::create_with_options`: a fresh store, and a request signed with the `jwk` over the first
      nonce its HEAD brings. `books` are those of the store. */
  method CreateAccount(directory: Directory, contact: seq<string>, termsAgreed: bool, onlyReturnExisting: bool,
                       key: AccountKey, wire: Wire)
    returns (r: Result<Account, Error>, ghost books: Books)
    requires wire.Valid()
    modifies wire
    ensures wire.Valid() && wire.clock >= old(wire.clock)
    ensures books.heads == 1 && books.sent <= books.offered
    ensures old(wire.ledger.books) == NO_BOOKS ==> wire.ledger.books == books
    ensures wire.ledger.posts <= old(wire.ledger).posts + 1 && wire.ledger.live == old(wire.ledger).live
    ensures old(wire.trace) <= wire.trace && FirstRequests(wire.trace, |old(wire.trace)|, directory.newNonce)
    ensures |wire.trace| == |old(wire.trace)| + 2 ==>
              var head, post := wire.trace[|old(wire.trace)|], wire.trace[|old(wire.trace)| + 1];
              && ByKey(post, key) && post.url == directory.newAccount
              && post.payload == NewAccount(termsAgreed, contact, onlyReturnExisting)
              && post.header.nonce == FirstOf(head.reply).value
              && match AccountAnswer(post.reply)
                 case Ok(made) => r.Ok? && r.value.record == made.0 && r.value.kid == made.1
                 case Err(e) => r == Err(e)
    ensures |wire.trace| == |old(wire.trace)| + 1 ==> r.Err? && GetFailed(wire.trace[|old(wire.trace)|], r.error)
    ensures r.Ok? ==>
              && fresh(r.value.nonce) && r.value.nonce.Valid() && r.value.nonce.books == books && books.barren == 0
              && r.value.key == key && r.value.directory == directory
  {
    var store := new ReplayNonceStore(directory.newNonce);
    var payload := NewAccount(termsAgreed, contact, onlyReturnExisting);
    var made := GetAndEnroll(store, directory.newAccount, payload, key, wire);
    books := store.books;
    if made.Err? {
      return Err(made.error), books;
    }
    return Ok(Account(made.value.0, made.value.1, key, store, directory)), books;
  }
}
