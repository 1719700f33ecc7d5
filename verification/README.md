# A verified model of the ACME client

The client obtains certificates from an ACME CA (RFC 8555): it keeps a pool of replay nonces, signs
requests, orders a certificate, has each authorization validated through an armed solver, finalizes
with a CSR and downloads the chain. This project models that client in Dafny and proves what it
promises, for every behaviour of the CA, the network, the clock, the solvers and the threads that
share the nonce pool.

How the pieces fit:

- `NonceProtocol` is the nonce store used by any number of threads. Each lock section, request and
  answer is one atomic action; a run is any sequence of actions. `Account` holds the same store as
  one thread uses it, a class with a pool that `get` and `absorb` change.
- `Wire` is the outside of a run: requests, solver calls, clock. Every answer is arbitrary. A ghost
  trace records each request with its answer, and a ledger sums the trace up. `Requests`,
  `Challenges` and `Issuance` are the calls of a run up to `issue_certificate`, as methods with the
  client's own loops and early exits; their contracts speak of the trace and hold on every exit.
- `RunProperties`, `CaJoint` and `Responder` read the trace: matched handles and nonces used once; the
  run beside a CA that follows section 7.1.6 of RFC 8555; the run beside the HTTP-01 responder, whose
  class does on each call what the run's event does to the map. `CaExample` is two whole runs beside a
  CA, one that succeeds and one that finalizes too early.
- `Pem`, `Jws`, `Json`, `Base64Url` and `Utf8` are the segmenters, printers and encoders with the
  readers that undo them. `Cloudflare`, `DnsNaming` and `WasiBody` are the DNS provider and the
  flow-controlled bodies of the wasi transport.

Signatures, SHA-256 and the CSR encoder are functions handed in by the caller; nothing is assumed of
them. A response is a status, a header list and a body that carries what each JSON decoder of the
client makes of it.

Where the code and its documentation differ, the model follows the code:

- `crates/core/src/challenge.rs:163-164` says `Retry-After` is honoured; no header is read and the poll
  loop sleeps a fixed interval.
- `crates/core/src/nonce.rs:61` says `clear` serves `badNonce` retries; there is no retry. `Clear` is
  an action of the nonce protocol all the same.
- `crates/core/src/order.rs:113-117` looks for `Location` before it looks at the status, `account.rs`
  the other way round, so an error answer without `Location` reads as a missing field in one and as a
  problem in the other (`Requests.CreationsDiffer`).
- The order is finalized without first being read as `ready`. Finalize reaches the CA in the `ready`
  state exactly if the CA, at some moment after the last authorization became valid and up to the
  POST, had passed that on to the order (`CaJoint.FinalizeOnlyWhenReady`). Otherwise it meets a pending
  order, is not accepted, and ends the run with the error of its answer (`CaJoint.TooEarlyFails`);
  `CaExample.SlowRun` is such a run, `CaExample.PromptRun` one that succeeds.
- BEGIN and END markers of a PEM block may share dashes, because END is searched from the start of
  BEGIN (`Pem.MarkersOverlap`); and the two PEM splitters differ on input that is not UTF-8, holds a
  certificate and is not one block already (`Pem.SplittersAgree`).
- `jwk_thumbprint` relies on insertion order; the members are in sorted order already, so it does not
  matter which kind of map serde_json uses.
- `upsert_txt` always creates a record and never replaces one.

## Model

| member | source | states |
|---|---|---|
| NonceProtocol.NoPostRefused | crates/core/src/nonce.rs:69-106 | in every interleaving of any number of threads, against a CA whose answers carry new nonces and with requests and answers lost at will, no POST is refused for its nonce; the nonces pooled, unpushed, in requests and in answers are pairwise distinct and each is outstanding at the CA |
| NonceProtocol.NoncesConserved | crates/core/src/nonce.rs:62-106 | whatever the CA answers, nonces returned, cleared, pooled and not yet pushed are together, as a multiset, the non-empty values of the answers received, read off the actions and the phase of the thread that takes each |
| NonceProtocol.FirstInFirstOut | crates/core/src/nonce.rs:88-106 | over all threads, removals happen in the order of the pushes and the pool is what is left |
| NonceProtocol.OneThreadInOrder | crates/core/src/nonce.rs:88-106 | with one thread and no `clear`, returned nonces, then the pool, then the values still to push are the non-empty values of the answers received, in order, and the last pop of `get` never finds the pool empty |
| NonceProtocol.GivenIsReceived | crates/core/src/nonce.rs:69-106 | over any run, what the threads gave to `absorb` is the concatenation of the non-empty values of the successful HEAD answers and of all POST answers received |
| NonceProtocol.StarvedByOthers | crates/core/src/nonce.rs:69-98 | when `get` fails after absorbing its own HEAD, every nonce that HEAD brought was pushed and then removed by `clear` or by another thread's pop |
| NonceProtocol.OneThreadStarvesOnlyDry | crates/core/src/nonce.rs:69-98 | with one thread and no `clear` that failure means the HEAD brought no nonce |
| NonceProtocol.UndisturbedGet | crates/core/src/nonce.rs:88-98 | the atomic actions of one `get`, undisturbed, take the oldest pooled nonce, or with an empty pool the first non-empty nonce of one HEAD, whose others are pooled; without any, `get` fails |
| NonceProtocol.UndisturbedPost | crates/core/src/account.rs:78-80 | from the sending on, the atomic actions of one POST, undisturbed, append the non-empty nonces of its answer to the pool and leave the thread idle |
| NonceProtocol.UndisturbedPostKid | crates/core/src/account.rs:70-81 | a whole `post_kid`, undisturbed: the first nonce is sent, the others and then those of the answer are pooled |
| NonceProtocol.FailedHead | crates/core/src/nonce.rs:70-76 | a HEAD that fails ends `get` and gives nothing to `absorb` |
| NonceProtocol.ClearEmpties | crates/core/src/nonce.rs:62-64 | `clear` takes every pooled nonce, in order, and no thread notices |
| Account.ReplayNonceStore.Clear | crates/core/src/nonce.rs:62-64 | empties the pool and starts the store's books anew |
| Account.ReplayNonceStore.Absorb | crates/core/src/nonce.rs:100-106 | appends the non-empty `Replay-Nonce` values of a response, in order |
| Account.ReplayNonceStore.Refill | crates/core/src/nonce.rs:69-84 | exactly one HEAD, of the newNonce URL; succeeds exactly on a 2xx answer with a non-empty nonce, whose nonces become the pool |
| Account.ReplayNonceStore.Get | crates/core/src/nonce.rs:88-98 | the oldest pooled nonce without a request, or else one HEAD whose answer alone determines the result, the pool and the books; a failed call leaves the store ready for the next |
| Account.PostKid | crates/core/src/account.rs:70-81 | at most one HEAD and one POST, signed with the `kid` over the next nonce of the pool; the result is that POST's answer, or the failure of `get`; on every exit sent nonces plus pool are all nonces offered, in order, and HEADs are paid for |
| Account.CreateAccount | crates/core/src/account.rs:121-158 | one HEAD, then one POST signed with the `jwk` over the first nonce the HEAD brought; status checked before `Location`; the account's `kid` is that `Location` |
| Account.SpendAndAbsorb | crates/core/src/account.rs:76-80 | spending a nonce and absorbing the answer, of whatever status, keeps sent nonces plus pool equal to all offered and the count of HEADs paid for |
| RunProperties.NoNonceTwice | crates/core/src/nonce.rs:88-106 | if the nonces a run is offered differ, no two of its POSTs carry the same nonce |
| RunProperties.OneHead | crates/core/src/nonce.rs:88-106 | a run that gets past its directory and whose POSTs are all answered with a nonce sends exactly one HEAD, as its second request |
| RunProperties.LedgerCounts | crates/core/src/transport.rs:74-86 | the ledger of a trace counts its POSTs, its HEADs and its POSTs answered without a nonce |
| RunProperties.RequestsOfRun | crates/core/src/lib.rs:107-127 | a run with the default timeouts sends at most 65 + 63n POSTs over the n authorizations of its order, and at most one HEAD more than it has POSTs answered without a nonce |
| RunProperties.LedgerMatchesHandles | crates/core/src/challenge.rs:183-227 | a ledger that ends free means every armed handle was dropped by the next handle event, every drop answers an arm, and never were two armed at once |
| Acme.HeaderIsFirst | crates/core/src/transport.rs:34-48 | `header` is the value of the first header whose name is equal up to the case of ASCII letters, and that of the first entry of `headers_all`; there is none exactly if no name is |
| Acme.HeadersInOrder | crates/core/src/transport.rs:42-48 | at any place of the list a header adds its value, in order and repeats included, exactly if its name is equal up to the case of ASCII letters |
| Acme.NamesMatch | crates/core/src/transport.rs:34-48 | header names match exactly if they have equal length and each character is equal or an ASCII letter and its other case, by character codes |
| Acme.ResponseIgnoresCase | crates/core/src/nonce.rs:100-106 | changing the case of header names changes neither the nonces nor the `Location` of a response |
| Acme.OrderStrings | crates/core/src/order.rs:50-59 | each order status is read from exactly its wire string, any other string is unknown |
| Acme.AuthorizationStrings | crates/core/src/authorization.rs:32-42 | the same for authorization statuses |
| Acme.ChallengeStrings | crates/core/src/challenge.rs:34-42 | the same for challenge statuses |
| Acme.KindStrings | crates/core/src/challenge.rs:59-66 | the same for challenge types; an unknown type is kept verbatim |
| Acme.KeyAuthorizationReads | crates/core/src/challenge.rs:136-141 | split at its last dot, a key authorization is the token and the base64url text of the hash of the account key's JWK |
| Acme.PayloadInjective | crates/core/src/account.rs:134-139 | the payload bytes of a request determine which request it is, with all its fields |
| Acme.PayloadReads | crates/core/src/account.rs:134-139 | read by its member names, the payload of each kind of request has the fields of that request, each newAccount flag under its own name; a POST-as-GET signs no bytes |
| Wire.Wire.PostJose | crates/core/src/transport.rs:81-86 | a POST is recorded with its answer and its nonces; its body must open to the recorded header and payload, with the signature of the recorded key over the texts of its `protected` and `payload` members joined by a dot, the algorithm of that key, and the URL posted to |
| Wire.Wire.Audit | crates/core/src/transport.rs:74-86 | the ledger is the sum of the trace, and every POST of the trace opens, with its signature, to its recorded header and payload and the URL posted to |
| Requests.ReadUrl | crates/core/src/transport.rs:56-66 | a POST-as-GET; a non-2xx answer is an error |
| Requests.FetchAuthorization | crates/core/src/authorization.rs:65-69 | the decoded authorization of a 2xx answer to a POST-as-GET of the URL, or the error that answer gives |
| Requests.RefreshOrder | crates/core/src/order.rs:126-131 | the decoded order of a 2xx answer, with its URL filled in |
| Requests.CreateOrder | crates/core/src/order.rs:106-121 | one newOrder POST; `Location` checked before the status; the URL of the order is that `Location` |
| Requests.Download | crates/core/src/certificate.rs:122-125 | the raw body of a 2xx answer to a POST-as-GET of the certificate URL, or the error that answer gives |
| Requests.OrderVerdictByString | crates/core/src/certificate.rs:87-117 | by the status string of a decoded order: `invalid` alone is the invalid error, `valid` with a certificate URL alone is success, and every string but these two, `pending`, `ready` and `processing` among them, polls again |
| Requests.ChallengeVerdictByString | crates/core/src/challenge.rs:198-226 | the same for a decoded challenge: `valid` is success, `invalid` the error, every other string polls again |
| Requests.PollFits | crates/core/src/challenge.rs:198-226 | after `n` whole intervals inside the timeout another poll is within the budget of ceil(T/p)+1 polls |
| Challenges.PollChallenge | crates/core/src/challenge.rs:183-227 | self-check, signal, polls, and the handle dropped as the last event on every exit; at most 1 + ceil(T/p)+1 POSTs, p being interval plus least request time; success means the last poll read the string `valid`, failure is that of the last event before the drop, and a poll that settled nothing is the last one only once the timeout has passed |
| Challenges.SignalReady | crates/core/src/challenge.rs:191-196 | the self-check comes first and its failure sends nothing; then `{}` is POSTed and must be answered 2xx |
| Challenges.PollUntilSettled | crates/core/src/challenge.rs:198-226 | every poll but the last left the challenge unsettled, unknown status strings included; the last poll's answer is the result, or it settled nothing, the clock has passed the timeout and the result is the timeout error |
| Challenges.PickSolverAndChallenge | crates/core/src/lib.rs:206-225 | the first solver that any challenge suits, by index, with the first such challenge, by index; fails exactly when no solver suits any challenge |
| Challenges.FirstOfKindFits | crates/core/src/lib.rs:210-214 | the challenge found for a kind has no other of that kind before it; none is found exactly if there is none |
| Challenges.RunOneAuthorization | crates/core/src/lib.rs:183-204 | success shows the authorization read as `valid` with no solver armed, or the first fitting solver armed with its key authorization and standing until a poll read that challenge as `valid`; failure is that of the fetch, of the choice, or of the last event of the challenge picked |
| Issuance.DnsNamesAreTheIdentifiers | crates/core/src/csr.rs:86-98 | the CSR name list is exactly the identifiers in order, and exists exactly if all are of kind `dns` |
| Issuance.CsrIsForTheNames | crates/core/src/csr.rs:82-106 | a CSR is built exactly for a non-empty list of `dns` identifiers whose names, in order, the encoder takes, and is what it encodes; every failure is the CSR error |
| Issuance.PollOrder | crates/core/src/certificate.rs:87-116 | every poll but the last left the order unsettled; the last answer is the result, or it settled nothing, the clock has passed the timeout and the result is the timeout error; success has read the string `valid` with a certificate URL; at most ceil(T/p)+1 polls |
| Issuance.Finalize | crates/core/src/certificate.rs:64-117 | a missing order URL or a refused name list sends nothing; otherwise one POST of a CSR encoded for exactly the order's identifiers, and polls only once that is accepted; the error is that of the last request |
| Issuance.FetchDirectory | crates/core/src/directory.rs:64-67 | one GET; its answer alone determines the result |
| Issuance.AuthorizeAll | crates/core/src/lib.rs:154-162 | one proof per authorization URL, found in the order of the list, each solver armed being the first that suits; a failure is that of the first URL without a proof; at most n(2+Pc) POSTs |
| Issuance.IssueCertificateWithTimeouts | crates/core/src/lib.rs:133-174 | on every exit: no handle armed, nonce books balanced, at most 2+n(2+Pc)+(1+Pf)+1 POSTs with n the authorizations of the order the newOrder answer gave (0 without one). The requests are in order: the directory URL, one HEAD of its newNonce, newAccount with the terms agreed, newOrder with the identifiers asked for, each at the URL the directory names; a finalize POST only after a proof of every authorization, then only reads of the order and, once that read `valid`, of the certificate URL it named. The result is the answer of the last request, or of the step that then sends none: without an order the failure of directory, HEAD, newAccount or newOrder; with fewer proofs than authorizations the failure of the first without one; with all proved that of finalize, its polls or the download, whose body is the chain. A timeout is returned only after the time allowed |
| Issuance.SuccessIsDownload | crates/core/src/lib.rs:164-174 | a chain returned is the body of the last request, a read of the certificate URL the order named when it was read as `valid` after finalize |
| Issuance.RefusedFinalizeEnds | crates/core/src/certificate.rs:83-85 | a finalize that is not accepted is the last request, and the error of its answer the result |
| Issuance.IssueCertificate | crates/core/src/lib.rs:107-127 | the same with the default timeouts of 120 seconds: at most 65 + 63n POSTs over the n authorizations of the order, `jwk` only on newAccount and elsewhere the `kid` its `Location` gave |
| CaJoint.FinalizeOnlyWhenReady | crates/core/src/lib.rs:144-174 | beside a CA that carries challenge-valid to authorization-valid and lets nothing valid expire, finalize reaches the CA with all authorizations valid and no CSR taken; the order is `ready` exactly if the CA was prompt at some moment since its authorizations were valid, and `pending` otherwise |
| CaJoint.TooEarlyFails | crates/core/src/certificate.rs:83-85 | a finalize that meets a pending order is not accepted, is the last request of the run, and the error of its answer is the result of the run |
| CaJoint.ChainOfTheOrder | crates/core/src/certificate.rs:78-125 | a returned chain is the CA's chain for the run's order, all its authorizations are valid, and the CSR it took was encoded for exactly the order's names in order |
| CaJoint.ChainForTheNamesAsked | crates/core/src/csr.rs:82-106 | if the CA creates orders as asked, the CSR of a returned chain was encoded for exactly the names the caller gave, in order |
| CaJoint.ShownIsValid | crates/core/src/lib.rs:190-203 | what the trace shows of an authorization is true at the CA, then and ever after |
| CaExample.SlowRun | crates/core/src/lib.rs:144-174 | a run over one authorization, with all the facts of a run and every POST opening with its signature, whose finalize meets a pending order and whose outcome is the CA's refusal |
| CaExample.PromptRun | crates/core/src/lib.rs:133-174 | a run over one authorization, with all the facts of a run and every POST opening with its signature, whose outcome is the CA's chain |
| Responder.Http01Server.HandleConnection | crates/testing/src/http_server.rs:132-167 | 405 exactly if the first line is no GET; 200 exactly if it asks for the path of a filed token, with that token's body; whatever follows the probe of a clean token, its filed body, or 404 if none is filed |
| Responder.Http01Server.ArmAdapter | crates/testing/src/http_server.rs:219-235 | files the key authorization under the part before its first dot, which is what the arming event of a run does to the map |
| Responder.Http01Server.DropAdapter | crates/testing/src/http_server.rs:251-255 | removes that token, which is what the drop event of a run does to the map |
| Responder.ServedIffClean | crates/testing/src/http_server.rs:152-166 | the probe for a token is answered with its key authorization exactly if the token has no dot and no whitespace |
| Responder.CleanIsServed | crates/testing/src/http_server.rs:152-166 | whatever else is filed, a token without dot and whitespace is served once armed |
| Responder.MapOfRun | crates/testing/src/http_server.rs:219-255 | the map after any run is the entry map without the armed tokens; while a handle stands it has that one entry more |
| Responder.ServedWhileHeld | crates/testing/src/http_server.rs:219-255 | while an adapter's handle for such a token stands, its key authorization is served |
| Responder.ServedThroughPoll | crates/core/src/challenge.rs:198-226 | when a finished run solved a challenge with the adapter, it was served at every event from the arming to the poll that read `valid` |
| Pem.Find | crates/core/src/certificate.rs:155-163 | the first occurrence at or after a position, or none |
| Pem.SplitPemChain | crates/core/src/certificate.rs:130-153 | the reference segmentation, and nothing on input that is not UTF-8 |
| Pem.SplitChainIsTheSegmentation | crates/core/src/certificate.rs:130-163 | on UTF-8 input there is exactly one leftmost segmentation into certificates and the splitter returns its blocks |
| Pem.SpansSegment | crates/core/src/certificate.rs:136-151 | the spans visited are ordered and disjoint, start with BEGIN, end with the first END, no gap holds a BEGIN, and no BEGIN of the tail is followed by an END |
| Pem.SegmentationUnique | crates/core/src/certificate.rs:136-151 | any segmentation with those properties is the one computed |
| Pem.EndPastBeginLabel | crates/core/src/certificate.rs:131-141 | END starts at least 22 bytes after BEGIN: the markers share at most five dashes |
| Pem.MarkersOverlap | crates/core/src/certificate.rs:141-148 | that distance is reached: markers sharing five dashes make one block |
| Pem.BeginSpells | crates/core/src/certificate.rs:131 | the BEGIN marker, byte for byte |
| Pem.EndSpells | crates/core/src/certificate.rs:132 | the END marker, byte for byte |
| Pem.SplitAgain | crates/core/src/certificate.rs:130-163 | splitting the concatenation of the blocks gives the same blocks |
| Pem.SplitPemCerts | crates/testing/src/lib.rs:370-391 | the same segmentation without the UTF-8 gate, and the whole input if it is empty |
| Pem.SplittersAgree | crates/testing/src/lib.rs:370-391 | when the two splitters agree, up to the fallback: exactly on UTF-8 input, on input without a BEGIN that an END follows, and on input that already is one block |
| Pem.SplittersDisagree | crates/testing/src/lib.rs:370-391 | an input on which they differ |
| Utf8.DecodeEncode | crates/core/src/jws.rs:203-212 | decoding the bytes of a string gives the string back |
| Utf8.ValidCut | crates/core/src/certificate.rs:133-136 | valid UTF-8 may be cut in front of any ASCII byte |
| Base64Url.RoundTrip | crates/core/src/jws.rs:255-257 | base64url without padding decodes back to the bytes |
| Base64Url.InAlphabet | crates/core/src/jws.rs:255-257 | its text never contains a dot or padding |
| Base64Url.SymbolInTable | crates/core/src/jws.rs:255-257 | the 64 symbols are those of the table in section 5 of RFC 4648 |
| Base64Url.GroupBits | crates/core/src/jws.rs:255-257 | a group of bytes is written from its most significant bits on, six to a symbol, padded with zero bits |
| Json.ParsePrint | crates/core/src/jws.rs:203-220 | every JSON value the client writes reads back as itself, string escapes included |
| Jws.OpenSigned | crates/core/src/jws.rs:188-221 | opening a flattened JWS gives back the exact payload, the header (algorithm, `jwk` or `kid`, nonce and URL) and a signature that is the key's over the texts of the members `protected` and `payload` joined by a dot, in that order |
| Jws.SigningInputInjective | crates/core/src/jws.rs:203-212 | the signed text determines header and payload; it has one dot, before which the header is read and after which the payload |
| Jws.ThumbprintInputInjective | crates/core/src/jws.rs:73-105 | the bytes hashed for a thumbprint are equal exactly for equal public keys, over all four kinds |
| Jws.JwkMembersSorted | crates/core/src/jws.rs:115-129 | the members are in the order of section 3.3 of RFC 7638, so a sorted map prints the same bytes |
| Jws.JwkReads | crates/core/src/jws.rs:73-105 | read by its member names, a JWK gives back the public key: curve, coordinates, modulus and exponent |
| Jws.AlgFitsJwk | crates/core/src/jws.rs:60-68 | the algorithm of a key is the one that goes with the key type and curve in its JWK |
| Cloudflare.CachedIsFirstSuccess | crates/dns-providers/cloudflare/src/lib.rs:156-183 | whatever the API answers over time, a lookup returns the first success for its apex, itself included, or the failure it was just given |
| Cloudflare.CacheInvisible | crates/dns-providers/cloudflare/src/lib.rs:156-183 | against an API with one answer per apex a cached lookup returns what an uncached one would |
| Cloudflare.CacheHoldsFirstSuccesses | crates/dns-providers/cloudflare/src/lib.rs:161-179 | the cache holds the first success of each apex and nothing else, never a failure |
| Cloudflare.OneSuccessfulGet | crates/dns-providers/cloudflare/src/lib.rs:161-179 | at most one GET per apex succeeds, and none is sent after it |
| Cloudflare.CloudflareProvider.ResolveZoneId | crates/dns-providers/cloudflare/src/lib.rs:156-183 | the static map, or the cached lookup with at most one GET |
| Cloudflare.CloudflareProvider.UpsertTxt | crates/dns-providers/cloudflare/src/lib.rs:187-225 | a failed zone lookup sends nothing and is the error; otherwise one creation request with the default TTL for zero; success is a new record and a handle of zone and record id, failure leaves every other record alone |
| Cloudflare.CloudflareProvider.DeleteTxt | crates/dns-providers/cloudflare/src/lib.rs:227-259 | one deletion request for the record its handle names; a missing record changes nothing and succeeds if answered; so does a repeated deletion by the handle of a created record |
| Cloudflare.NotFoundReads | crates/dns-providers/cloudflare/src/lib.rs:249-255 | an error list says "not found" exactly if those words stand in one of its messages, in any case of their letters |
| Cloudflare.HandleRoundTrip | crates/dns-providers/cloudflare/src/lib.rs:222-231 | a handle splits back into its zone and record id exactly if the zone id has no slash |
| Cloudflare.LiveAreCreatedNotDeleted | crates/dns-providers/cloudflare/src/lib.rs:187-259 | over every sequence of requests of the two calls, answers lost included: a created record is live with its contents until its deletion is asked for, never after one succeeded, and nothing is live but created records and those of lost creations |
| Cloudflare.LiveExactly | crates/dns-providers/cloudflare/src/lib.rs:187-259 | a record is live exactly if some request made it and none removed it since |
| Cloudflare.AllAnswered | crates/dns-providers/cloudflare/src/lib.rs:187-259 | if every request succeeds, exactly the records created and not deleted since are live |
| Cloudflare.RepeatedDelete | crates/dns-providers/cloudflare/src/lib.rs:238-258 | a deletion of a created record that was already deleted changes nothing, whatever comes of it |
| Cloudflare.NotLiveAgain | crates/dns-providers/cloudflare/src/lib.rs:238-258 | a created record whose deletion succeeded is never live again |
| Cloudflare.WithProvisionedRecord | crates/challenge-dns-01/src/lib.rs:77-93 | a failed publication is the error and at most one lost creation; once published, the callback's verdict is returned whether or not the deletion by handle succeeds, and a successful one leaves the record gone and, if the callback made no request, the records of before |
| DnsNaming.RecordUnderApex | crates/challenge-dns-01/src/lib.rs:32-35 | the challenge record of an identifier, wildcard or not, has the apex of its base domain exactly if that domain has two labels or more; a domain and its wildcard share it |
| DnsNaming.ApexIdempotent | crates/dns-providers/cloudflare/src/lib.rs:147-154 | the apex of an apex is itself |
| DnsNaming.ApexIsSuffix | crates/dns-providers/cloudflare/src/lib.rs:147-154 | the apex is a suffix of the name |
| DnsNaming.UrlEncode | crates/dns-providers/cloudflare/src/lib.rs:279-290 | the loop computes the percent-encoding of the UTF-8 bytes |
| DnsNaming.PercentRoundTrip | crates/dns-providers/cloudflare/src/lib.rs:279-290 | percent-encoding decodes back to every byte string |
| DnsNaming.UnreservedUntouched | crates/dns-providers/cloudflare/src/lib.rs:279-290 | exactly the byte strings of unreserved characters are left as they are |
| DnsNaming.EncodedByte | crates/dns-providers/cloudflare/src/lib.rs:282-287 | an unreserved byte is its own character, any other a percent sign and its two upper-case hexadecimal digits |
| WasiBody.OutputStream.WriteAll | crates/http-client/src/lib.rs:154-190 | for every sequence of permits: no write is empty or above its permit, each is as long as its permit or completes the body, and together they are a prefix of it; success means all of it was written and flushed; failure means the last offer taken stopped it before the end, or the flush after the last write failed |
| WasiBody.ReadBody | crates/http-client/src/lib.rs:240-254 | the body is the concatenation of all chunks before the stream closed; an error before that fails |

## Left out

- Challenges.PollChallenge: requires that the interval or the least time a request takes is positive; with both zero and a clock that stands still the loop need not end.
- Challenges.PollUntilSettled: the same; durations are natural numbers, and an overflow of `Instant + timeout` is not modelled.
- Issuance.PollOrder: the same.
- Issuance.IssueCertificateWithTimeouts: the job it is given carries the thumbprint of the account key, and the poll interval is an argument; `Issuance.IssueCertificate` passes the source's values.
- Account.PostKid: a signature that fails is not modelled here; in the nonce protocol it is the action `Fail` of a signing thread.
- WasiBody.OutputStream.WriteAll: what a stream will offer is a finite list and an exhausted list is a third outcome, blocked; waiting on a pollable has no other effect.
- NonceProtocol.NoPostRefused: a CA that expires unused nonces is outside the assumption; a nonce refused for another reason is outside the model.
- Cloudflare.WithProvisionedRecord: the callback makes any requests of the record API and comes to any verdict; it does not use the provider's zone cache.
- Responder.Http01Server.HandleConnection: socket errors and read timeouts, after which nothing is answered.
- Signatures, SHA-256, key generation, rcgen and X.509 are library code: functions of their inputs, with no claim about collisions or forgeries.
- JSON parsing of CA bodies: a body carries what each decoder would return. Unread fields (expiry, problem details, validation times) and error texts are dropped.
- The problem-document table of `crates/core/src/error.rs` and the WIT error translation: one-branch lookups.
- The URL split `parse_url`, HTTP framing, sockets, TLS, wasi resource handles and the reqwest transport.
- The TLS-ALPN-01 solver, `MockDnsProvider`, the Pebble harness and the generated bindings.
- Mutex poisoning and thread scheduling fairness; a thread may stop for ever at any action.
