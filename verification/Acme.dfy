/** The objects an ACME run reads and writes: HTTP responses, the decoded protocol objects with
    their status strings, and the payloads the client signs. */
module Acme {
  import opened Wrappers
  import Utf8
  import Base64Url
  import opened Json
  import opened Jws

  datatype Error =
    | Transport
    | MissingField(name: string)
    | Problem(status: nat)
    | Serialization
    | BadCsr
    | UnsupportedIdentifier
    | Malformed
    | Timeout
    | SolverFailed

  // ---- protocol objects ----------------------------------------------------

  datatype Identifier = Identifier(kind: string, value: string)

  datatype Directory = Directory(newNonce: string, newAccount: string, newOrder: string)

  datatype AccountRecord = AccountRecord(status: string, contact: seq<string>)

  datatype OrderStatus = Pending | Ready | Processing | Valid | Invalid | Unknown {
    static function FromWire(s: string): OrderStatus {
      if s == "pending" then Pending else if s == "ready" then Ready else if s == "processing" then Processing
      else if s == "valid" then Valid else if s == "invalid" then Invalid else Unknown
    }
  }

  datatype Order = Order(status: string, identifiers: seq<Identifier>, authorizations: seq<string>, finalize: string,
                         certificate: Option<string>, url: string) {
    function StatusEnum(): OrderStatus {
      OrderStatus.FromWire(status)
    }
  }

  datatype AuthorizationStatus =
    | AuthzPending | AuthzValid | AuthzInvalid | Deactivated | Expired | Revoked | AuthzUnknown
  {
    static function FromWire(s: string): AuthorizationStatus {
      if s == "pending" then AuthzPending else if s == "valid" then AuthzValid else if s == "invalid" then AuthzInvalid
      else if s == "deactivated" then Deactivated else if s == "expired" then Expired
      else if s == "revoked" then Revoked else AuthzUnknown
    }
  }

  datatype Authorization = Authorization(identifier: Identifier, status: string, challenges: seq<Challenge>) {
    function StatusEnum(): AuthorizationStatus {
      AuthorizationStatus.FromWire(status)
    }
  }

  datatype ChallengeStatus = ChallPending | ChallProcessing | ChallValid | ChallInvalid | ChallUnknown {
    static function FromWire(s: string): ChallengeStatus {
      if s == "pending" then ChallPending else if s == "processing" then ChallProcessing
      else if s == "valid" then ChallValid else if s == "invalid" then ChallInvalid else ChallUnknown
    }
  }

  datatype ChallengeKind = Http01 | Dns01 | TlsAlpn01 | Other(name: string) {
    static function FromType(s: string): ChallengeKind {
      if s == "http-01" then Http01 else if s == "dns-01" then Dns01 else if s == "tls-alpn-01" then TlsAlpn01
      else Other(s)
    }
  }

  datatype Challenge = Challenge(type_: string, url: string, status: string, token: Option<string>) {
    function StatusEnum(): ChallengeStatus {
      ChallengeStatus.FromWire(status)
    }

    function Kind(): ChallengeKind {
      ChallengeKind.FromType(type_)
    }
  }

  // ---- the wire strings ----------------------------------------------------

  /** Each known status has one wire string, spelled exactly so; every other string is unknown. */
  lemma OrderStrings(s: string)
    ensures var e := OrderStatus.FromWire(s);
            && (e.Pending? <==> s == "pending") && (e.Ready? <==> s == "ready")
            && (e.Processing? <==> s == "processing") && (e.Valid? <==> s == "valid")
            && (e.Invalid? <==> s == "invalid")
  {
    StringsDiffer();
  }

  lemma AuthorizationStrings(s: string)
    ensures var e := AuthorizationStatus.FromWire(s);
            && (e.AuthzPending? <==> s == "pending") && (e.AuthzValid? <==> s == "valid")
            && (e.AuthzInvalid? <==> s == "invalid") && (e.Deactivated? <==> s == "deactivated")
            && (e.Expired? <==> s == "expired") && (e.Revoked? <==> s == "revoked")
  {
    StringsDiffer();
  }

  lemma ChallengeStrings(s: string)
    ensures var e := ChallengeStatus.FromWire(s);
            && (e.ChallPending? <==> s == "pending") && (e.ChallProcessing? <==> s == "processing")
            && (e.ChallValid? <==> s == "valid") && (e.ChallInvalid? <==> s == "invalid")
  {
    StringsDiffer();
  }

  lemma KindStrings(s: string)
    ensures var k := ChallengeKind.FromType(s);
            && (k.Http01? <==> s == "http-01") && (k.Dns01? <==> s == "dns-01")
            && (k.TlsAlpn01? <==> s == "tls-alpn-01") && (k.Other? ==> k.name == s)
  {
    assert |"http-01"| == 7 && |"dns-01"| == 6 && |"tls-alpn-01"| == 11;
  }

  lemma StringsDiffer()
    ensures "pending" !in ["ready", "processing", "valid", "invalid", "deactivated", "expired", "revoked"]
    ensures "ready" !in ["processing", "valid", "invalid", "deactivated", "expired", "revoked"]
    ensures "processing" !in ["valid", "invalid", "deactivated", "expired", "revoked"]
    ensures "valid" !in ["invalid", "deactivated", "expired", "revoked"]
    ensures "invalid" !in ["deactivated", "expired", "revoked"]
    ensures "deactivated" !in ["expired", "revoked"] && "expired" != "revoked"
  {
    assert |"ready"| == |"valid"| == 5 && |"pending"| == |"invalid"| == |"expired"| == |"revoked"| == 7;
    assert |"processing"| == 10 && |"deactivated"| == 11;
    assert "ready"[0] == 'r' && "valid"[0] == 'v';
    assert "pending"[0] == 'p' && "invalid"[0] == 'i' && "expired"[0] == 'e' && "revoked"[0] == 'r';
  }

  // ---- key authorizations --------------------------------------------------

  /** `compute_key_authorization`, for the thumbprint of the account key. */
  function KeyAuthorization(token: string, thumbprint: string): string {
    token + "." + thumbprint
  }

  /** The parts around the last dot. */
  function AtLastDot(s: string): Option<(string, string)> {
    if s == "" then None
    else if s[|s| - 1] == '.' then Some((s[..|s| - 1], ""))
    else
      match AtLastDot(s[..|s| - 1])
      case None => None
      case Some(p) => Some((p.0, p.1 + [s[|s| - 1]]))
  }

  lemma {:induction false} LastDotSplits(a: string, b: string)
    requires '.' !in b
    ensures AtLastDot(a + "." + b) == Some((a, b))
  {
    var s := a + "." + b;
    if b == "" {
      assert s[..|s| - 1] == a;
    } else {
      var front := b[..|b| - 1];
      LastDotSplits(a, front);
      assert s[..|s| - 1] == a + "." + front && b == front + [b[|b| - 1]];
    }
  }

  /** Section 8.1 of RFC 8555: a key authorization is the token, a dot, and the base64url text of the
      hash of the JWK of the account key. The thumbprint has no dot, so the last one splits it. */
  lemma KeyAuthorizationReads(token: string, key: AccountKey)
    ensures var parts := AtLastDot(KeyAuthorization(token, key.JwkThumbprint()));
            && parts.Some? && parts.value.0 == token
            && Base64Url.Decode(parts.value.1) == Some(key.sha256(JsonBytes(PublicJwk(key.pub))))
  {
    var hash := key.sha256(JsonBytes(PublicJwk(key.pub)));
    Base64Url.InAlphabet(hash);
    Base64Url.RoundTrip(hash);
    LastDotSplits(token, key.JwkThumbprint());
  }

  // ---- HTTP responses ------------------------------------------------------

  /** A response body together with what each of the client's JSON decoders makes of it. */
  datatype Body = Body(raw: seq<byte>, directory: Option<Directory>, account: Option<AccountRecord>,
                       order: Option<Order>, authorization: Option<Authorization>, challenge: Option<Challenge>)

  type Headers = seq<(string, string)>

  function LowerAscii(c: char): char {
    if 'A' <= c <= 'Z' then c - 'A' + 'a' else c
  }

  predicate EqIgnoreAsciiCase(a: string, b: string) {
    |a| == |b| && forall k :: 0 <= k < |a| ==> LowerAscii(a[k]) == LowerAscii(b[k])
  }

  function HeadersAll(headers: Headers, name: string): seq<string> {
    if headers == [] then []
    else
      (if EqIgnoreAsciiCase(headers[0].0, name) then [headers[0].1] else []) + HeadersAll(headers[1..], name)
  }

  function Header(headers: Headers, name: string): Option<string> {
    if headers == [] then None
    else if EqIgnoreAsciiCase(headers[0].0, name) then Some(headers[0].1)
    else Header(headers[1..], name)
  }

  datatype HttpResponse = HttpResponse(status: nat, headers: Headers, body: Body) {
    predicate Success(): (r: bool)
      ensures r <==> status / 100 == 2
    {
      200 <= status < 300
    }

    function Ok(): Result<HttpResponse, Error> {
      if Success() then Result.Ok(this) else Err(Problem(status))
    }

    function Location(): Option<string> {
      Header(headers, "Location")
    }
  }

  type Reply = Result<HttpResponse, Error>

  function NonEmpty(values: seq<string>): seq<string> {
    if values == [] then [] else (if values[0] == "" then [] else [values[0]]) + NonEmpty(values[1..])
  }

  /** The nonces `absorb` keeps of a response, in header order. */
  function ReplayNonces(response: HttpResponse): seq<string> {
    NonEmpty(HeadersAll(response.headers, "Replay-Nonce"))
  }

  // ---- header lists --------------------------------------------------------

  /** One character and the other case of an ASCII letter, by their codes. */
  predicate SameLetter(c: char, d: char) {
    || c == d
    || (65 <= c as int <= 90 && d as int == c as int + 32)
    || (65 <= d as int <= 90 && c as int == d as int + 32)
  }

  predicate SameName(a: string, b: string) {
    |a| == |b| && forall k :: 0 <= k < |a| ==> SameLetter(a[k], b[k])
  }

  /** Header names match exactly if they differ at most in the case of ASCII letters. */
  lemma NamesMatch(a: string, b: string)
    ensures EqIgnoreAsciiCase(a, b) <==> SameName(a, b)
  {
    forall c: char, d: char
      ensures LowerAscii(c) == LowerAscii(d) <==> SameLetter(c, d)
    {
      LowerCodes(c);
      LowerCodes(d);
    }
  }

  lemma LowerCodes(c: char)
    ensures LowerAscii(c) as int == if 65 <= c as int <= 90 then c as int + 32 else c as int
  {
  }

  /** Headers with the same values, under names that differ at most in case. */
  ghost predicate SameHeaders(h: Headers, g: Headers) {
    |h| == |g| && forall k :: 0 <= k < |h| ==> h[k].1 == g[k].1 && SameName(h[k].0, g[k].0)
  }

  lemma MatchEither(a: string, b: string, name: string)
    requires SameName(a, b)
    ensures EqIgnoreAsciiCase(a, name) <==> EqIgnoreAsciiCase(b, name)
  {
    NamesMatch(a, b);
    if |a| == |name| {
      assert forall k :: 0 <= k < |a| ==> LowerAscii(a[k]) == LowerAscii(b[k]);
    }
  }

  lemma {:induction false} CaseDoesNotMatter(h: Headers, g: Headers, name: string)
    requires SameHeaders(h, g)
    ensures HeadersAll(h, name) == HeadersAll(g, name) && Header(h, name) == Header(g, name)
  {
    if h != [] {
      MatchEither(h[0].0, g[0].0, name);
      assert forall k :: 0 <= k < |h| - 1 ==> h[1..][k] == h[k + 1] && g[1..][k] == g[k + 1];
      CaseDoesNotMatter(h[1..], g[1..], name);
    }
  }

  /** What the client reads of a response does not depend on the case of its header names. */
  lemma ResponseIgnoresCase(r: HttpResponse, s: HttpResponse)
    requires SameHeaders(r.headers, s.headers)
    ensures ReplayNonces(r) == ReplayNonces(s) && r.Location() == s.Location()
  {
    CaseDoesNotMatter(r.headers, s.headers, "Replay-Nonce");
    CaseDoesNotMatter(r.headers, s.headers, "Location");
  }

  /** A lone header is read exactly if its name is the one asked for, in any case. */
  lemma LoneHeader(field: string, value: string, name: string)
    ensures HeadersAll([(field, value)], name) == if SameName(field, name) then [value] else []
    ensures Header([(field, value)], name) == if SameName(field, name) then Some(value) else None
  {
    NamesMatch(field, name);
    assert [(field, value)][1..] == [];
  }

  /** `value` is that of the first header with this name, in any case. */
  ghost predicate FirstNamed(headers: Headers, name: string, value: string) {
    exists k :: 0 <= k < |headers| && SameName(headers[k].0, name) && headers[k].1 == value
                && forall j :: 0 <= j < k ==> !SameName(headers[j].0, name)
  }

  /** `header` is the first of `headers_all`, that of the first header with the name. */
  lemma {:induction false} HeaderIsFirst(headers: Headers, name: string)
    ensures Header(headers, name) ==
            if HeadersAll(headers, name) == [] then None else Some(HeadersAll(headers, name)[0])
    ensures match Header(headers, name)
            case None => forall k :: 0 <= k < |headers| ==> !SameName(headers[k].0, name)
            case Some(value) => FirstNamed(headers, name, value)
  {
    if headers != [] {
      var rest := headers[1..];
      HeaderIsFirst(rest, name);
      NamesMatch(headers[0].0, name);
      if !SameName(headers[0].0, name) && Header(rest, name).Some? {
        var k :| 0 <= k < |rest| && SameName(rest[k].0, name) && rest[k].1 == Header(rest, name).value
                 && forall j :: 0 <= j < k ==> !SameName(rest[j].0, name);
        assert headers[k + 1] == rest[k] && forall j :: 0 < j < k + 1 ==> headers[j] == rest[j - 1];
      }
    }
  }

  lemma {:induction false} HeadersAppend(a: Headers, b: Headers, name: string)
    ensures HeadersAll(a + b, name) == HeadersAll(a, name) + HeadersAll(b, name)
  {
    if a == [] {
      assert a + b == b;
    } else {
      HeadersAppend(a[1..], b, name);
      assert (a + b)[0] == a[0] && (a + b)[1..] == a[1..] + b;
      var first := if EqIgnoreAsciiCase(a[0].0, name) then [a[0].1] else [];
      var x, y := HeadersAll(a[1..], name), HeadersAll(b, name);
      assert first + (x + y) == (first + x) + y;
    }
  }

  /** Header lists are read in order, repeats included: each header adds its value if it has the name. */
  lemma HeadersInOrder(a: Headers, field: string, value: string, b: Headers, name: string)
    ensures HeadersAll(a + [(field, value)] + b, name) ==
            HeadersAll(a, name) + (if SameName(field, name) then [value] else []) + HeadersAll(b, name)
  {
    HeadersAppend(a + [(field, value)], b, name);
    HeadersAppend(a, [(field, value)], name);
    LoneHeader(field, value, name);
  }

  // ---- payloads ------------------------------------------------------------

  datatype Payload =
    | NewAccount(termsAgreed: bool, contact: seq<string>, onlyReturnExisting: bool)
    | NewOrder(identifiers: seq<Identifier>)
    | AsGet
    | ChallengeReady
    | Csr(der: seq<byte>)

  function Strings(s: seq<string>): Items {
    if s == [] then NoItems else Item(Str(s[0]), Strings(s[1..]))
  }

  function Identifiers(s: seq<Identifier>): Items {
    if s == [] then NoItems
    else
      Item(Obj(Member("type", Str(s[0].kind), Member("value", Str(s[0].value), NoMembers))), Identifiers(s[1..]))
  }

  function PayloadJson(p: Payload): Value
    requires !p.AsGet?
  {
    match p
    case NewAccount(terms, contact, existing) =>
      Obj(Member("contact", Arr(Strings(contact)),
          Member("onlyReturnExisting", Bool(existing), Member("termsOfServiceAgreed", Bool(terms), NoMembers))))
    case NewOrder(identifiers) => Obj(Member("identifiers", Arr(Identifiers(identifiers)), NoMembers))
    case ChallengeReady => Obj(NoMembers)
    case Csr(der) => Obj(Member("csr", Str(Base64Url.Encode(der)), NoMembers))
  }

  /** A POST-as-GET signs no bytes at all; every other payload is a JSON object. */
  function PayloadBytes(p: Payload): seq<byte> {
    if p.AsGet? then [] else JsonBytes(PayloadJson(p))
  }

  ghost predicate IsTexts(items: Items, texts: seq<string>) {
    match items
    case NoItems => texts == []
    case Item(v, next) => texts != [] && v == Str(texts[0]) && IsTexts(next, texts[1..])
  }

  ghost predicate IsIdentifiers(items: Items, ids: seq<Identifier>) {
    match items
    case NoItems => ids == []
    case Item(v, next) =>
      && ids != [] && TextOf(v, "type") == Some(ids[0].kind) && TextOf(v, "value") == Some(ids[0].value)
      && IsIdentifiers(next, ids[1..])
  }

  /** What a reader that goes by member names finds: sections 7.3, 7.4 and 7.5.1 of RFC 8555. */
  ghost predicate ReadsAs(j: Value, p: Payload) {
    && j.Obj?
    && match p
       case NewAccount(terms, contact, existing) =>
         && Field(j.members, "termsOfServiceAgreed") == Some(Bool(terms))
         && Field(j.members, "onlyReturnExisting") == Some(Bool(existing))
         && var c := Field(j.members, "contact"); c.Some? && c.value.Arr? && IsTexts(c.value.items, contact)
       case NewOrder(ids) =>
         var i := Field(j.members, "identifiers"); i.Some? && i.value.Arr? && IsIdentifiers(i.value.items, ids)
       case ChallengeReady => j.members.NoMembers?
       case Csr(der) => DecodeMember(j, "csr") == Some(der)
       case AsGet => false
  }

  lemma {:induction false} StringsAreTexts(s: seq<string>)
    ensures IsTexts(Strings(s), s)
  {
    if s != [] {
      StringsAreTexts(s[1..]);
    }
  }

  lemma IdentifierReads(id: Identifier)
    ensures var j := Obj(Member("type", Str(id.kind), Member("value", Str(id.value), NoMembers)));
            TextOf(j, "type") == Some(id.kind) && TextOf(j, "value") == Some(id.value)
  {
    assert |"type"| == 4 && |"value"| == 5;
    var m := Member("type", Str(id.kind), Member("value", Str(id.value), NoMembers));
    assert Field(m, "value") == Field(m.next, "value") == Some(Str(id.value));
  }

  lemma {:induction false} IdentifiersRead(s: seq<Identifier>)
    ensures IsIdentifiers(Identifiers(s), s)
  {
    if s != [] {
      IdentifierReads(s[0]);
      IdentifiersRead(s[1..]);
    }
  }

  lemma NewAccountReads(terms: bool, contact: seq<string>, existing: bool)
    ensures ReadsAs(PayloadJson(NewAccount(terms, contact, existing)), NewAccount(terms, contact, existing))
  {
    assert |"contact"| == 7 && |"onlyReturnExisting"| == 18 && |"termsOfServiceAgreed"| == 20;
    StringsAreTexts(contact);
    var m := PayloadJson(NewAccount(terms, contact, existing)).members;
    assert Field(m, "onlyReturnExisting") == Field(m.next, "onlyReturnExisting") == Some(Bool(existing));
    var key := "termsOfServiceAgreed";
    assert Field(m, key) == Field(m.next, key) == Field(m.next.next, key) == Some(Bool(terms));
  }

  lemma JsonReads(p: Payload)
    requires !p.AsGet?
    ensures ReadsAs(PayloadJson(p), p)
  {
    match p
    case NewAccount(terms, contact, existing) => NewAccountReads(terms, contact, existing);
    case NewOrder(ids) => IdentifiersRead(ids);
    case Csr(der) => Base64Url.RoundTrip(der);
    case ChallengeReady =>
  }

  /** The payload bytes of a request are no bytes for a POST-as-GET, and otherwise a JSON object that
      reads, by its member names, as the request. */
  lemma PayloadReads(p: Payload)
    ensures if p.AsGet? then PayloadBytes(p) == []
            else ParseBytes(PayloadBytes(p)).Some? && ReadsAs(ParseBytes(PayloadBytes(p)).value, p)
  {
    if !p.AsGet? {
      ParseJsonBytes(PayloadJson(p));
      JsonReads(p);
    }
  }

  lemma {:induction false} StringsInjective(s: seq<string>, t: seq<string>)
    requires Strings(s) == Strings(t)
    ensures s == t
  {
    if s != [] && t != [] {
      StringsInjective(s[1..], t[1..]);
      assert s == [s[0]] + s[1..] && t == [t[0]] + t[1..];
    }
  }

  lemma {:induction false} IdentifiersInjective(s: seq<Identifier>, t: seq<Identifier>)
    requires Identifiers(s) == Identifiers(t)
    ensures s == t
  {
    if s != [] && t != [] {
      IdentifiersInjective(s[1..], t[1..]);
      assert s == [s[0]] + s[1..] && t == [t[0]] + t[1..];
    }
  }

  /** The payload bytes of a request say which request it is. */
  lemma PayloadInjective(p: Payload, q: Payload)
    requires PayloadBytes(p) == PayloadBytes(q)
    ensures p == q
  {
    if !p.AsGet? {
      ParseJsonBytes(PayloadJson(p));
    }
    if !q.AsGet? {
      ParseJsonBytes(PayloadJson(q));
    }
    EmptyIsNoJson();
    if !p.AsGet? && !q.AsGet? {
      var j, k := PayloadJson(p), PayloadJson(q);
      assert j == k;
      assert |"contact"| == 7 && |"identifiers"| == 11 && |"csr"| == 3;
      if p.NewAccount? {
        StringsInjective(p.contact, q.contact);
      } else if p.NewOrder? {
        IdentifiersInjective(p.identifiers, q.identifiers);
      } else if p.Csr? {
        Base64Url.Injective(p.der, q.der);
      }
    }
  }

  lemma EmptyIsNoJson()
    ensures ParseBytes([]) == None
  {
    assert Utf8.Decode([]) == Some("");
  }
}
