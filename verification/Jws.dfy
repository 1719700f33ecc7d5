/** Flattened JWS assembly, public JWKs and their thumbprints (`jws.rs`). Signing and SHA-256 are
    library code and appear as functions of the bytes they are given. */
module Jws {
  import opened Wrappers
  import Utf8
  import Base64Url
  import opened Json

  // ---- keys ----------------------------------------------------------------

  /** An RSA key is its two numbers; the other kinds are the fixed-length bytes of their point. */
  datatype PublicKey =
    | Rsa(n: nat, e: nat)
    | P256(x: seq<byte>, y: seq<byte>)
    | P384(x: seq<byte>, y: seq<byte>)
    | Ed25519(x: seq<byte>)

  datatype AccountKey = AccountKey(pub: PublicKey, sign: seq<byte> -> seq<byte>, sha256: seq<byte> -> seq<byte>) {
    function Alg(): string {
      match pub
      case Rsa(_, _) => "RS256"
      case P256(_, _) => "ES256"
      case P384(_, _) => "ES384"
      case Ed25519(_) => "EdDSA"
    }

    function JwkThumbprint(): string {
      Thumbprint(PublicJwk(pub), sha256)
    }
  }

  /** Minimal big-endian bytes, a single zero byte for zero. */
  function ToBytesBe(n: nat): seq<byte> {
    if n < 256 then [n] else ToBytesBe(n / 256) + [n % 256]
  }

  function FromBytesBe(b: seq<byte>): nat {
    if b == [] then 0 else FromBytesBe(b[..|b| - 1]) * 256 + b[|b| - 1]
  }

  lemma {:induction false} BigEndianRoundTrip(n: nat)
    ensures FromBytesBe(ToBytesBe(n)) == n
  {
    if n < 256 {
      assert FromBytesBe([]) == 0;
    } else {
      BigEndianRoundTrip(n / 256);
      assert ToBytesBe(n)[..|ToBytesBe(n)| - 1] == ToBytesBe(n / 256);
    }
  }

  function Ec(crv: string, x: seq<byte>, y: seq<byte>): Value {
    Obj(Member("crv", Str(crv), Member("kty", Str("EC"),
        Member("x", Str(Base64Url.Encode(x)), Member("y", Str(Base64Url.Encode(y)), NoMembers)))))
  }

  function PublicJwk(pub: PublicKey): Value {
    match pub
    case Rsa(n, e) =>
      Obj(Member("e", Str(Base64Url.Encode(ToBytesBe(e))), Member("kty", Str("RSA"),
          Member("n", Str(Base64Url.Encode(ToBytesBe(n))), NoMembers))))
    case P256(x, y) => Ec("P-256", x, y)
    case P384(x, y) => Ec("P-384", x, y)
    case Ed25519(x) =>
      Obj(Member("crv", Str("Ed25519"), Member("kty", Str("OKP"), Member("x", Str(Base64Url.Encode(x)), NoMembers))))
  }

  function JsonBytes(j: Value): seq<byte> {
    Utf8.Encode(Print(j))
  }

  function Thumbprint(jwk: Value, sha256: seq<byte> -> seq<byte>): string {
    Base64Url.Encode(sha256(JsonBytes(jwk)))
  }

  lemma JsonBytesInjective(j: Value, k: Value)
    requires JsonBytes(j) == JsonBytes(k)
    ensures j == k
  {
    Utf8.EncodeInjective(Print(j), Print(k));
    PrintInjective(j, k);
  }

  /** Minimal big-endian: no leading zero but for zero itself. */
  lemma {:induction false} BigEndianMinimal(n: nat)
    ensures ToBytesBe(n) != [] && (ToBytesBe(n)[0] == 0 <==> n == 0)
  {
    if n >= 256 {
      BigEndianMinimal(n / 256);
    }
  }

  // ---- reading a JWK by its member names -----------------------------------

  function Field(m: Members, key: string): Option<Value> {
    if m.NoMembers? then None else if m.key == key then Some(m.value) else Field(m.next, key)
  }

  function Text(v: Option<Value>): Option<string> {
    if v.Some? && v.value.Str? then Some(v.value.s) else None
  }

  function TextOf(j: Value, key: string): Option<string> {
    if j.Obj? then Text(Field(j.members, key)) else None
  }

  function DecodeMember(j: Value, key: string): Option<seq<byte>> {
    match TextOf(j, key) case None => None case Some(s) => Base64Url.Decode(s)
  }

  /** The key a JWK holds: sections 6.2 and 6.3 of RFC 7518, section 2 of RFC 8037. */
  function ReadJwk(j: Value): Option<PublicKey> {
    var kty, crv := TextOf(j, "kty"), TextOf(j, "crv");
    if kty == Some("RSA") then
      var n, e := DecodeMember(j, "n"), DecodeMember(j, "e");
      if n.Some? && e.Some? then Some(Rsa(FromBytesBe(n.value), FromBytesBe(e.value))) else None
    else
      var x, y := DecodeMember(j, "x"), DecodeMember(j, "y");
      if x.None? then None
      else if kty == Some("OKP") && crv == Some("Ed25519") then Some(Ed25519(x.value))
      else if kty != Some("EC") || y.None? then None
      else if crv == Some("P-256") then Some(P256(x.value, y.value))
      else if crv == Some("P-384") then Some(P384(x.value, y.value))
      else None
  }

  /** The signature algorithm for the key of a JWK: section 3.1 of RFC 7518, section 3.1 of RFC 8037. */
  function AlgForJwk(j: Value): string {
    var kty, crv := TextOf(j, "kty"), TextOf(j, "crv");
    if kty == Some("RSA") then "RS256"
    else if kty == Some("OKP") then "EdDSA"
    else if crv == Some("P-256") then "ES256"
    else "ES384"
  }

  lemma NamesDiffer()
    ensures "RSA" != "EC" && "RSA" != "OKP" && "EC" != "OKP" && "P-256" != "P-384"
    ensures "P-256" != "Ed25519" && "P-384" != "Ed25519"
    ensures "kty" != "crv" && "kty" != "x" && "kty" != "e" && "kty" != "n" && "crv" != "x" && "crv" != "e"
    ensures "x" != "y" && "e" != "n" && "crv" != "y" && "crv" != "n" && "kty" != "y"
  {
    assert |"EC"| == 2 && |"RSA"| == |"OKP"| == 3 && "RSA"[0] == 'R' && "OKP"[0] == 'O';
    assert |"P-256"| == |"P-384"| == 5 && |"Ed25519"| == 7 && "P-256"[2] == '2' && "P-384"[2] == '3';
    assert |"kty"| == |"crv"| == 3 && "kty"[0] == 'k' && "crv"[0] == 'c';
    assert |"x"| == |"y"| == |"e"| == |"n"| == 1 && "x"[0] == 'x' && "y"[0] == 'y' && "e"[0] == 'e' && "n"[0] == 'n';
  }

  lemma RsaFields(n: nat, e: nat)
    ensures var j := PublicJwk(Rsa(n, e));
            && TextOf(j, "kty") == Some("RSA")
            && DecodeMember(j, "n") == Some(ToBytesBe(n)) && DecodeMember(j, "e") == Some(ToBytesBe(e))
  {
    NamesDiffer();
    var m := PublicJwk(Rsa(n, e)).members;
    assert Field(m, "kty") == Field(m.next, "kty");
    assert Field(m, "n") == Field(m.next, "n") == Field(m.next.next, "n");
    Base64Url.RoundTrip(ToBytesBe(n));
    Base64Url.RoundTrip(ToBytesBe(e));
  }

  lemma EcFields(c: string, x: seq<byte>, y: seq<byte>)
    ensures var j := Ec(c, x, y);
            && TextOf(j, "kty") == Some("EC") && TextOf(j, "crv") == Some(c)
            && DecodeMember(j, "x") == Some(x) && DecodeMember(j, "y") == Some(y)
  {
    NamesDiffer();
    var m := Ec(c, x, y).members;
    assert Field(m, "kty") == Field(m.next, "kty");
    assert Field(m, "x") == Field(m.next, "x") == Field(m.next.next, "x");
    assert Field(m, "y") == Field(m.next, "y") == Field(m.next.next, "y") == Field(m.next.next.next, "y");
    Base64Url.RoundTrip(x);
    Base64Url.RoundTrip(y);
  }

  lemma OkpFields(x: seq<byte>)
    ensures var j := PublicJwk(Ed25519(x));
            && TextOf(j, "kty") == Some("OKP") && TextOf(j, "crv") == Some("Ed25519")
            && DecodeMember(j, "x") == Some(x)
  {
    NamesDiffer();
    var m := PublicJwk(Ed25519(x)).members;
    assert Field(m, "kty") == Field(m.next, "kty");
    assert Field(m, "x") == Field(m.next, "x") == Field(m.next.next, "x");
    Base64Url.RoundTrip(x);
  }

  /** A reader that goes by member names finds in a JWK exactly the public key it was made of. */
  lemma JwkReads(pub: PublicKey)
    ensures ReadJwk(PublicJwk(pub)) == Some(pub)
  {
    NamesDiffer();
    match pub
    case Rsa(n, e) =>
      RsaFields(n, e);
      BigEndianRoundTrip(n);
      BigEndianRoundTrip(e);
    case P256(x, y) => EcFields("P-256", x, y);
    case P384(x, y) => EcFields("P-384", x, y);
    case Ed25519(x) => OkpFields(x);
  }

  /** The algorithm of a key's signatures is the one for the key type and the curve in its JWK. */
  lemma AlgFitsJwk(key: AccountKey)
    ensures key.Alg() == AlgForJwk(PublicJwk(key.pub))
  {
    NamesDiffer();
    match key.pub
    case Rsa(n, e) => RsaFields(n, e);
    case P256(x, y) => EcFields("P-256", x, y);
    case P384(x, y) => EcFields("P-384", x, y);
    case Ed25519(x) => OkpFields(x);
  }

  /** Different public keys, of one kind or of two, hash different bytes. */
  lemma ThumbprintInputInjective(a: PublicKey, b: PublicKey)
    ensures JsonBytes(PublicJwk(a)) == JsonBytes(PublicJwk(b)) <==> a == b
  {
    if JsonBytes(PublicJwk(a)) == JsonBytes(PublicJwk(b)) {
      JsonBytesInjective(PublicJwk(a), PublicJwk(b));
      JwkReads(a);
      JwkReads(b);
    }
  }

  // ---- member order --------------------------------------------------------

  /** Order by code point, the order of section 3.3 of RFC 7638. */
  predicate Less(a: string, b: string) {
    b != "" && (a == "" || a[0] < b[0] || (a[0] == b[0] && Less(a[1..], b[1..])))
  }

  predicate Sorted(m: Members) {
    m.Member? && m.next.Member? ==> Less(m.key, m.next.key) && Sorted(m.next)
  }

  /** Insertion into a map that keeps its keys sorted. */
  function Insert(k: string, v: Value, m: Members): Members {
    if m.NoMembers? || Less(k, m.key) then Member(k, v, m)
    else if k == m.key then Member(k, v, m.next)
    else Member(m.key, m.value, Insert(k, v, m.next))
  }

  /** What a sorted map makes of members inserted last first; an insertion-ordered map keeps `m`. */
  function InSortedMap(m: Members): Members {
    if m.NoMembers? then m else Insert(m.key, m.value, InSortedMap(m.next))
  }

  lemma {:induction false} SortedMapKeepsSorted(m: Members)
    requires Sorted(m)
    ensures InSortedMap(m) == m
  {
    if m.Member? {
      SortedMapKeepsSorted(m.next);
    }
  }

  /** The literals are sorted already, so whichever map serde_json uses prints the same bytes. */
  lemma JwkMembersSorted(pub: PublicKey)
    ensures Sorted(PublicJwk(pub).members) && InSortedMap(PublicJwk(pub).members) == PublicJwk(pub).members
  {
    var m := PublicJwk(pub).members;
    assert "e"[0] == 'e' && "crv"[0] == 'c' && "kty"[0] == 'k' && "n"[0] == 'n' && "x"[0] == 'x' && "y"[0] == 'y';
    if m.next.next.next.Member? {
      assert Sorted(m.next.next);
    }
    assert Sorted(m.next);
    SortedMapKeepsSorted(m);
  }

  // ---- signing -------------------------------------------------------------

  datatype ProtectedHeader = ProtectedHeader(
    alg: string, jwk: Option<Value>, kid: Option<string>, nonce: string, url: string)

  function HeaderJson(h: ProtectedHeader): Value {
    var tail := Member("nonce", Str(h.nonce), Member("url", Str(h.url), NoMembers));
    var withKid := if h.kid.Some? then Member("kid", Str(h.kid.value), tail) else tail;
    var withJwk := if h.jwk.Some? then Member("jwk", h.jwk.value, withKid) else withKid;
    Obj(Member("alg", Str(h.alg), withJwk))
  }

  function SigningInput(h: ProtectedHeader, payload: seq<byte>): string {
    Base64Url.Encode(JsonBytes(HeaderJson(h))) + "." + Base64Url.Encode(payload)
  }

  function Flattened(protected_: string, payload: string, signature: string): Value {
    Obj(Member("protected", Str(protected_), Member("payload", Str(payload),
        Member("signature", Str(signature), NoMembers))))
  }

  function SignJwsInner(payload: seq<byte>, url: string, nonce: string, jwk: Option<Value>, kid: Option<string>,
                        key: AccountKey): seq<byte> {
    var header := ProtectedHeader(key.Alg(), jwk, kid, nonce, url);
    var signature := key.sign(Utf8.Encode(SigningInput(header, payload)));
    JsonBytes(Flattened(Base64Url.Encode(JsonBytes(HeaderJson(header))), Base64Url.Encode(payload),
                        Base64Url.Encode(signature)))
  }

  function SignJwsWithJwk(payload: seq<byte>, url: string, nonce: string, key: AccountKey): seq<byte> {
    SignJwsInner(payload, url, nonce, Some(PublicJwk(key.pub)), None, key)
  }

  function SignJwsWithKid(payload: seq<byte>, url: string, nonce: string, kid: string, key: AccountKey): seq<byte> {
    SignJwsInner(payload, url, nonce, None, Some(kid), key)
  }

  // ---- opening -------------------------------------------------------------

  /** What a receiver finds in a request body; `signed` is the text the signature must be over. */
  datatype OpenedJws = OpenedJws(header: ProtectedHeader, payload: seq<byte>, signature: seq<byte>, signed: string)

  function ParseBytes(b: seq<byte>): Option<Value> {
    match Utf8.Decode(b) case None => None case Some(s) => Parse(s)
  }

  function HeaderOf(j: Value): Option<ProtectedHeader> {
    if !j.Obj? then None
    else
      var m := j.members;
      var alg, nonce, url := Text(Field(m, "alg")), Text(Field(m, "nonce")), Text(Field(m, "url"));
      if alg.None? || nonce.None? || url.None? then None
      else Some(ProtectedHeader(alg.value, Field(m, "jwk"), Text(Field(m, "kid")), nonce.value, url.value))
  }

  /** What a receiver reads out of a request body: section 5.2 of RFC 7515, for the flattened form. The
      signed text is that of the members `protected` and `payload` as they stand, with a dot between. */
  function Open(body: seq<byte>): Option<OpenedJws> {
    match ParseBytes(body)
    case None => None
    case Some(j) =>
      var head, payload, signature :=
        DecodeMember(j, "protected"), DecodeMember(j, "payload"), DecodeMember(j, "signature");
      if head.None? || payload.None? || signature.None? || ParseBytes(head.value).None? then None
      else
        match HeaderOf(ParseBytes(head.value).value)
        case None => None
        case Some(h) =>
          var signed := TextOf(j, "protected").value + "." + TextOf(j, "payload").value;
          Some(OpenedJws(h, payload.value, signature.value, signed))
  }

  lemma ParseJsonBytes(j: Value)
    ensures ParseBytes(JsonBytes(j)) == Some(j)
  {
    Utf8.DecodeEncode(Print(j));
    ParsePrint(j);
  }

  lemma HeaderRoundTrip(h: ProtectedHeader)
    ensures HeaderOf(HeaderJson(h)) == Some(h)
  {
    assert |"alg"| == |"jwk"| == |"kid"| == |"url"| == 3 && |"nonce"| == 5;
    assert "alg"[0] == 'a' && "jwk"[0] == 'j' && "kid"[0] == 'k' && "url"[0] == 'u';
    var tail := Member("nonce", Str(h.nonce), Member("url", Str(h.url), NoMembers));
    FieldsOfTail(h.nonce, h.url);
    var withKid := if h.kid.Some? then Member("kid", Str(h.kid.value), tail) else tail;
    forall key | key in {"nonce", "url", "jwk"}
      ensures Field(withKid, key) == Field(tail, key)
    {
    }
    assert Field(withKid, "kid") == if h.kid.Some? then Some(Str(h.kid.value)) else None;
    var withJwk := if h.jwk.Some? then Member("jwk", h.jwk.value, withKid) else withKid;
    forall key | key in {"nonce", "url", "kid"}
      ensures Field(withJwk, key) == Field(withKid, key)
    {
    }
    assert Field(withJwk, "jwk") == h.jwk;
    var all := HeaderJson(h).members;
    forall key | key in {"nonce", "url", "kid", "jwk"}
      ensures Field(all, key) == Field(withJwk, key)
    {
    }
  }

  lemma FieldsOfTail(nonce: string, url: string)
    ensures var tail := Member("nonce", Str(nonce), Member("url", Str(url), NoMembers));
            && Field(tail, "nonce") == Some(Str(nonce)) && Field(tail, "url") == Some(Str(url))
            && Field(tail, "jwk") == None && Field(tail, "kid") == None
  {
    assert |"nonce"| == 5 && |"jwk"| == |"kid"| == |"url"| == 3;
    assert "jwk"[0] == 'j' && "kid"[0] == 'k' && "url"[0] == 'u';
    var last := Member("url", Str(url), NoMembers);
    assert Field(last, "jwk") == None && Field(last, "kid") == None;
  }

  lemma FlattenedFields(p: string, q: string, s: string)
    ensures var m := Flattened(p, q, s).members;
            && Field(m, "protected") == Some(Str(p)) && Field(m, "payload") == Some(Str(q))
            && Field(m, "signature") == Some(Str(s))
  {
    assert |"payload"| == 7 && |"protected"| == |"signature"| == 9 && "protected"[0] == 'p' && "signature"[0] == 's';
    var m := Flattened(p, q, s).members;
    assert Field(m.next, "signature") == Field(m.next.next, "signature");
  }

  /** Each member of a flattened JWS decodes to the bytes it was made of. */
  lemma MembersDecode(head: seq<byte>, payload: seq<byte>, signature: seq<byte>)
    ensures var j := Flattened(Base64Url.Encode(head), Base64Url.Encode(payload), Base64Url.Encode(signature));
            && DecodeMember(j, "protected") == Some(head) && DecodeMember(j, "payload") == Some(payload)
            && DecodeMember(j, "signature") == Some(signature)
            && TextOf(j, "protected") == Some(Base64Url.Encode(head))
            && TextOf(j, "payload") == Some(Base64Url.Encode(payload))
  {
    Base64Url.RoundTrip(head);
    Base64Url.RoundTrip(payload);
    Base64Url.RoundTrip(signature);
    FlattenedFields(Base64Url.Encode(head), Base64Url.Encode(payload), Base64Url.Encode(signature));
  }

  /** What opening makes of a body whose parts decode. */
  lemma OpenParts(body: seq<byte>, j: Value, h: ProtectedHeader, p: string, q: string, head: seq<byte>,
                  payload: seq<byte>, signature: seq<byte>)
    requires ParseBytes(body) == Some(j) && ParseBytes(head).Some? && HeaderOf(ParseBytes(head).value) == Some(h)
    requires TextOf(j, "protected") == Some(p) && TextOf(j, "payload") == Some(q)
    requires DecodeMember(j, "protected") == Some(head) && DecodeMember(j, "payload") == Some(payload)
    requires DecodeMember(j, "signature") == Some(signature)
    ensures Open(body) == Some(OpenedJws(h, payload, signature, p + "." + q))
  {
  }

  /** Opening a signed request gives back the header and the payload bytes that went in, and a signature
      over the text a receiver must check it against. */
  lemma OpenSigned(payload: seq<byte>, url: string, nonce: string, jwk: Option<Value>, kid: Option<string>,
                   key: AccountKey)
    ensures var o := Open(SignJwsInner(payload, url, nonce, jwk, kid, key));
            && o.Some? && o.value.payload == payload
            && o.value.header == ProtectedHeader(key.Alg(), jwk, kid, nonce, url)
            && o.value.signature == key.sign(Utf8.Encode(o.value.signed))
  {
    var h := ProtectedHeader(key.Alg(), jwk, kid, nonce, url);
    var signature := key.sign(Utf8.Encode(SigningInput(h, payload)));
    var head := JsonBytes(HeaderJson(h));
    var p, q := Base64Url.Encode(head), Base64Url.Encode(payload);
    var j := Flattened(p, q, Base64Url.Encode(signature));
    ParseJsonBytes(j);
    ParseJsonBytes(HeaderJson(h));
    HeaderRoundTrip(h);
    MembersDecode(head, payload, signature);
    OpenParts(JsonBytes(j), j, h, p, q, head, payload, signature);
  }

  /** The signed text has one dot; the header is before it and the payload after it. */
  ghost predicate ReadsAsSigned(text: string, h: ProtectedHeader, payload: seq<byte>) {
    exists k :: 0 <= k < |text| && text[k] == '.' && '.' !in text[..k] && '.' !in text[k + 1..]
                && Base64Url.Decode(text[..k]) == Some(JsonBytes(HeaderJson(h)))
                && Base64Url.Decode(text[k + 1..]) == Some(payload)
  }

  lemma SigningInputReads(h: ProtectedHeader, payload: seq<byte>)
    ensures ReadsAsSigned(SigningInput(h, payload), h, payload)
  {
    var head := JsonBytes(HeaderJson(h));
    var a, b := Base64Url.Encode(head), Base64Url.Encode(payload);
    Base64Url.InAlphabet(head);
    Base64Url.InAlphabet(payload);
    Base64Url.RoundTrip(head);
    Base64Url.RoundTrip(payload);
    var text := SigningInput(h, payload);
    assert text[..|a|] == a && text[|a|] == '.' && text[|a| + 1..] == b;
  }

  /** The signed text fixes the header and the payload: base64url never contains the dot. */
  lemma SigningInputInjective(h: ProtectedHeader, p: seq<byte>, h': ProtectedHeader, p': seq<byte>)
    requires SigningInput(h, p) == SigningInput(h', p')
    ensures h == h' && p == p'
    ensures ReadsAsSigned(SigningInput(h, p), h, p)
  {
    SigningInputReads(h, p);
    var a, a' := Base64Url.Encode(JsonBytes(HeaderJson(h))), Base64Url.Encode(JsonBytes(HeaderJson(h')));
    var b, b' := Base64Url.Encode(p), Base64Url.Encode(p');
    Base64Url.InAlphabet(JsonBytes(HeaderJson(h)));
    Base64Url.InAlphabet(JsonBytes(HeaderJson(h')));
    SplitAtDot(a, b, a', b');
    Base64Url.Injective(p, p');
    Base64Url.Injective(JsonBytes(HeaderJson(h)), JsonBytes(HeaderJson(h')));
    JsonBytesInjective(HeaderJson(h), HeaderJson(h'));
    HeaderRoundTrip(h);
    HeaderRoundTrip(h');
  }

  lemma SplitAtDot(a: string, b: string, a': string, b': string)
    requires '.' !in a && '.' !in a' && a + "." + b == a' + "." + b'
    ensures a == a' && b == b'
  {
    var s := a + "." + b;
    assert s[|a|] == '.' && s[|a'|] == '.';
    assert forall k :: 0 <= k < |a| ==> s[k] == a[k] != '.';
    assert forall k :: 0 <= k < |a'| ==> s[k] == a'[k] != '.';
    assert a == s[..|a|] && a' == s[..|a'|];
    assert b == s[|a| + 1..] && b' == s[|a'| + 1..];
  }
}
