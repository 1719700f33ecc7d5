/** Driving one authorization: picking a solver, arming it, and the challenge poll loop that must
    drop the handle on every way out (`lib.rs`, `challenge.rs`). */
module Challenges {
  import opened Wrappers
  import opened Jws
  import opened Acme
  import opened Wire
  import opened Account
  import opened Requests

  // ---- the poll loop -------------------------------------------------------

  /** A poll loop that failed with `error` on a poll it read as `verdict`. */
  predicate PollFailed<T(==)>(verdict: Option<Result<T, Error>>, error: Error) {
    match verdict case None => error == Timeout case Some(v) => v == Err(error)
  }

  /** Driving the challenge at `url` failed on `e`: the self-check, a nonce HEAD, the signal or a poll. */
  ghost predicate ChallengeFailed(e: Event, url: string, error: Error) {
    match e
    case SelfCheck(_, passed) => !passed && error == SolverFailed
    case Head(_, _) => GetFailed(e, error)
    case Post(to, _, _, _, payload, reply) =>
      && to == url
      && if payload.ChallengeReady? then BodyAnswer(reply) == Err(error)
         else payload.AsGet? && PollFailed(ChallengeVerdict(reply), error)
    case _ => false
  }

  /** A poll that left the challenge unsettled: when it is the last one, the deadline has passed. */
  ghost predicate LeftUnsettled(e: Event) {
    e.Post? && e.payload.AsGet? && ChallengeVerdict(e.reply).None?
  }

  /** The trace ends with a drop after such a poll. */
  ghost predicate ChallengeTimedOut(t: Trace) {
    |t| >= 2 && t[|t| - 1].Drop? && LeftUnsettled(t[|t| - 2])
  }

  /** From `from` on: calm requests around one drop of `handle`, which is the last event. */
  ghost predicate CalmThenDrop(t: Trace, from: int, who: Signer, handle: Handle) {
    && 0 <= from < |t| && t[|t| - 1] == Drop(handle)
    && forall i :: from <= i < |t| - 1 ==> Calm(t[i], who) && Still(t[i])
  }

  /** `poll_challenge_with_interval`: signal readiness, then poll until `valid`, `invalid` or the
      deadline. An unknown status keeps polling. */
  method PollChallenge(url: string, account: Account, wire: Wire, ready: Handle, timeout: nat, interval: nat)
    returns (r: Result<(), Error>)
    requires interval + wire.latency > 0
    requires wire.Valid() && account.nonce.Valid() && wire.ledger.live == Held(ready)
    modifies wire, account.nonce
    ensures Moved(wire, account.nonce, r.Ok?)
    ensures wire.ledger.live == Free
    ensures wire.ledger.posts <= old(wire.ledger).posts + 1 + MaxPolls(timeout, interval + wire.latency)
    ensures CalmThenDrop(wire.trace, |old(wire.trace)|, account.Who(), ready)
    ensures |wire.trace| - 2 >= |old(wire.trace)|
    ensures r.Ok? ==> exists c :: ReadChallenge(wire.trace[|wire.trace| - 2], url, c) && c.status == "valid"
    ensures r.Err? ==> ChallengeFailed(wire.trace[|wire.trace| - 2], url, r.error)
    ensures r.Err? && ChallengeTimedOut(wire.trace) ==> wire.clock >= old(wire.clock) + timeout
  {
    r := SignalReady(url, account, wire, ready);
    if r.Err? {
      wire.DropHandle(ready);
      return;
    }
    ghost var signalled := wire.trace;
    r := PollUntilSettled(url, account, wire, timeout, interval);
    PollsAreCalm(wire.trace, |signalled|, url, account.Who());
    wire.DropHandle(ready);
  }

  /** The self-check, and the POST of `{}` that tells the CA to validate. */
  method SignalReady(url: string, account: Account, wire: Wire, ready: Handle) returns (r: Result<(), Error>)
    requires wire.Valid() && account.nonce.Valid()
    modifies wire, account.nonce
    ensures Moved(wire, account.nonce, r.Ok?)
    ensures wire.ledger.posts <= old(wire.ledger).posts + 1 && wire.ledger.live == old(wire.ledger).live
    ensures CalmFrom(wire.trace, |old(wire.trace)|, account.Who())
    ensures |wire.trace| > |old(wire.trace)|
    ensures var check := wire.trace[|old(wire.trace)|];
            && check.SelfCheck? && check.handle == ready
            && (!check.passed ==> r == Err(SolverFailed) && |wire.trace| == |old(wire.trace)| + 1)
            && (check.passed ==>
                  && |wire.trace| > |old(wire.trace)| + 1
                  && var e := wire.trace[|wire.trace| - 1];
                     if e.Post? then
                       e.url == url && e.payload == ChallengeReady
                       && r == (match BodyAnswer(e.reply) case Err(x) => Err(x) case Ok(_) => Ok(()))
                     else r.Err? && GetFailed(e, r.error))
  {
    ghost var start := |wire.trace|;
    r := wire.Check(ready);
    if r.Err? {
      return;
    }
    ghost var checked := wire.trace;
    var reply := PostKid(account, url, ChallengeReady, wire);
    OneIsCalm(wire.trace, |checked|, url, ChallengeReady, account.Who());
    assert wire.trace[start] == checked[start];
    var response :- reply;
    var _ :- response.Ok();
    return Ok(());
  }

  /** Between `from` and `to` there are only polls that left the challenge unsettled, and nonce HEADs. */
  ghost predicate Unsettled(t: Trace, from: int, to: int, url: string, who: Signer)
    requires to <= |t|
  {
    forall i :: 0 <= from <= i < to ==>
                  t[i].Head? || (IsPoll(t[i], url, who) && ChallengeVerdict(t[i].reply).None?)
  }

  lemma PollsAreCalm(t: Trace, from: int, url: string, who: Signer)
    requires 0 <= from < |t| && Unsettled(t, from, |t| - 1, url, who)
    requires t[|t| - 1].Head? || IsPoll(t[|t| - 1], url, who)
    ensures CalmFrom(t, from, who)
  {
  }

  method PollUntilSettled(url: string, account: Account, wire: Wire, timeout: nat, interval: nat)
    returns (r: Result<(), Error>)
    requires interval + wire.latency > 0
    requires wire.Valid() && account.nonce.Valid()
    modifies wire, account.nonce
    ensures Moved(wire, account.nonce, r.Ok?)
    ensures wire.ledger.live == old(wire.ledger).live
    ensures wire.ledger.posts <= old(wire.ledger).posts + MaxPolls(timeout, interval + wire.latency)
    ensures |wire.trace| > |old(wire.trace)|
    ensures Unsettled(wire.trace, |old(wire.trace)|, |wire.trace| - 1, url, account.Who())
    ensures var e := wire.trace[|wire.trace| - 1];
            if e.Post? then
              && IsPoll(e, url, account.Who())
              && match ChallengeVerdict(e.reply)
                 case Some(verdict) => r == verdict
                 case None => r == Err(Timeout) && wire.clock >= old(wire.clock) + timeout
            else r.Err? && GetFailed(e, r.error)
    ensures r.Ok? ==> exists c :: ReadChallenge(wire.trace[|wire.trace| - 1], url, c) && c.status == "valid"
  {
    var start := wire.Now();
    var deadline := start + timeout;
    ghost var polls, pace := 0, interval + wire.latency;
    ghost var budget := MaxPolls(timeout, pace);
    while true
      invariant Moved(wire, account.nonce, true)
      invariant wire.ledger.live == old(wire.ledger).live
      invariant Unsettled(wire.trace, |old(wire.trace)|, |wire.trace|, url, account.Who())
      invariant wire.ledger.posts <= old(wire.ledger).posts + polls && polls < budget
      invariant wire.clock >= start + Times(polls, pace)
      decreases deadline - wire.clock
    {
      var body :- ReadUrl(url, account, wire);
      if body.challenge.None? {
        return Err(Serialization);
      }
      var status := body.challenge.value.StatusEnum();
      ChallengeStrings(body.challenge.value.status);
      if status.ChallValid? {
        assert ReadChallenge(wire.trace[|wire.trace| - 1], url, body.challenge.value);
        return Ok(());
      }
      if status.ChallInvalid? {
        return Err(Malformed);
      }
      var now := wire.Now();
      if now >= deadline {
        return Err(Timeout);
      }
      wire.Sleep(interval);
      PollFits(polls, timeout, pace);
      polls := polls + 1;
    }
  }

  // ---- picking a solver ----------------------------------------------------

  /** `iter().find(..)` for a challenge of a kind. */
  function FirstOfKind(challenges: seq<Challenge>, kind: ChallengeKind): Option<Challenge> {
    if challenges == [] then None
    else if challenges[0].Kind() == kind then Some(challenges[0])
    else FirstOfKind(challenges[1..], kind)
  }

  /** `c` is of the kind, and no challenge before it is. */
  ghost predicate FirstFitting(challenges: seq<Challenge>, kind: ChallengeKind, c: Challenge) {
    exists k :: 0 <= k < |challenges| && challenges[k] == c && c.Kind() == kind
                && forall j :: 0 <= j < k ==> challenges[j].Kind() != kind
  }

  ghost predicate NoneFits(challenges: seq<Challenge>, kind: ChallengeKind) {
    forall c :: c in challenges ==> c.Kind() != kind
  }

  lemma {:induction false} FirstOfKindFits(challenges: seq<Challenge>, kind: ChallengeKind)
    ensures match FirstOfKind(challenges, kind)
            case None => NoneFits(challenges, kind)
            case Some(c) => FirstFitting(challenges, kind, c) && c in challenges
  {
    if challenges != [] {
      var rest := challenges[1..];
      FirstOfKindFits(rest, kind);
      if challenges[0].Kind() != kind && FirstOfKind(rest, kind).Some? {
        var c := FirstOfKind(rest, kind).value;
        var k :| 0 <= k < |rest| && rest[k] == c && c.Kind() == kind
                 && forall j :: 0 <= j < k ==> rest[j].Kind() != kind;
        assert challenges[k + 1] == c;
        assert forall j :: 0 < j < k + 1 ==> challenges[j] == rest[j - 1];
      }
    }
  }

  /** Solver `s` is the first one that any offered challenge suits, and `challenge` the first such. */
  ghost predicate PickedFirst(challenges: seq<Challenge>, solvers: seq<ChallengeKind>, s: nat, challenge: Challenge) {
    && s < |solvers| && FirstFitting(challenges, solvers[s], challenge)
    && forall k :: 0 <= k < s ==> NoneFits(challenges, solvers[k])
  }

  ghost predicate NoneSuits(challenges: seq<Challenge>, solvers: seq<ChallengeKind>) {
    forall s :: 0 <= s < |solvers| ==> NoneFits(challenges, solvers[s])
  }

  /** `pick_solver_and_challenge`: the first solver that any offered challenge suits. */
  method PickSolverAndChallenge(challenges: seq<Challenge>, solvers: seq<ChallengeKind>)
    returns (r: Result<(nat, Challenge), Error>)
    ensures r.Ok? ==> PickedFirst(challenges, solvers, r.value.0, r.value.1)
    ensures r.Ok? ==> r.value.1 in challenges
    ensures r.Err? <==> NoneSuits(challenges, solvers)
    ensures r.Err? ==> r.error == UnsupportedIdentifier
  {
    for s := 0 to |solvers|
      invariant forall k :: 0 <= k < s ==> NoneFits(challenges, solvers[k])
    {
      FirstOfKindFits(challenges, solvers[s]);
      var c := FirstOfKind(challenges, solvers[s]);
      if c.Some? {
        return Ok((s, c.value));
      }
    }
    return Err(UnsupportedIdentifier);
  }

  // ---- one authorization ---------------------------------------------------

  /** Where a trace shows that an authorization was satisfied: it was read as `valid`, or one of its
      challenges was armed with a solver and then read as `valid` while that solver stood. */
  datatype Proof =
    | Reused(fetched: int)
    | Solved(fetched: int, authz: Authorization, challenge: Challenge, armed: int, validated: int)
  {
    function Last(): int {
      if Reused? then fetched else validated
    }

    /** The length of the trace once it is complete: a solved challenge's handle is dropped last. */
    function End(): int {
      if Reused? then fetched + 1 else validated + 2
    }
  }

  ghost predicate Shows(t: Trace, url: string, thumbprint: string, p: Proof) {
    match p
    case Reused(fetched) =>
      0 <= fetched < |t| && exists authz :: ReadAuthorization(t[fetched], url, authz) && authz.status == "valid"
    case Solved(fetched, authz, challenge, armed, validated) =>
      && 0 <= fetched < armed < |t|
      && ReadAuthorization(t[fetched], url, authz) && authz.status != "valid"
      && challenge in authz.challenges && challenge.token.Some?
      && SolvedAt(t, authz.identifier, challenge, thumbprint, armed, validated)
  }

  /** What was shown stays shown as the trace grows. */
  lemma ShowsLater(t: Trace, u: Trace, url: string, thumbprint: string, p: Proof)
    requires t <= u && Shows(t, url, thumbprint, p)
    ensures Shows(u, url, thumbprint, p)
  {
    if p.Reused? {
      assert u[p.fetched] == t[p.fetched];
    } else {
      assert u[p.fetched] == t[p.fetched] && u[p.armed] == t[p.armed] && u[p.validated] == t[p.validated];
      assert forall i :: p.armed < i <= p.validated ==> u[i] == t[i];
    }
  }

  /** A solver was armed at `armed` for this challenge, stood until `validated`, and at `validated`
      the challenge was read as `valid`. */
  ghost predicate SolvedAt(t: Trace, identifier: Identifier, challenge: Challenge, thumbprint: string, armed: int,
                           validated: int)
    requires challenge.token.Some?
  {
    && 0 <= armed < validated < |t|
    && t[armed].Arm? && t[armed].outcome.Some? && t[armed].identifier == identifier
    && t[armed].keyAuth == KeyAuthorization(challenge.token.value, thumbprint)
    && t[armed].outcome.value.keyAuth == t[armed].keyAuth && t[armed].outcome.value.solver == t[armed].solver
    && (forall i :: armed < i <= validated ==> Still(t[i]))
    && exists c :: ReadChallenge(t[validated], challenge.url, c) && c.status == "valid"
  }

  /** Arming failed, or the last event is the drop after the challenge failed. */
  ghost predicate SolveFailed(t: Trace, url: string, error: Error) {
    && t != []
    && match t[|t| - 1]
       case Arm(_, _, _, outcome) => outcome.None? && error == SolverFailed
       case Drop(_) => |t| >= 2 && ChallengeFailed(t[|t| - 2], url, error)
       case _ => false
  }

  /** Arms the chosen solver and drives its challenge. */
  method Solve(solver: nat, identifier: Identifier, challenge: Challenge, thumbprint: string, account: Account,
               wire: Wire, timeout: nat, interval: nat)
    returns (r: Result<(), Error>, ghost armed: int)
    requires interval + wire.latency > 0 && challenge.token.Some?
    requires wire.Valid() && account.nonce.Valid() && wire.ledger.live.Free?
    modifies wire, account.nonce
    ensures Moved(wire, account.nonce, r.Ok?)
    ensures wire.ledger.live.Free?
    ensures wire.ledger.posts <= old(wire.ledger).posts + 1 + MaxPolls(timeout, interval + wire.latency)
    ensures forall i :: |old(wire.trace)| <= i < |wire.trace| ==> Calm(wire.trace[i], account.Who())
    ensures armed == |old(wire.trace)| < |wire.trace| && wire.trace[armed].Arm? && wire.trace[armed].solver == solver
    ensures r.Ok? ==> SolvedAt(wire.trace, identifier, challenge, thumbprint, armed, |wire.trace| - 2)
    ensures r.Err? ==> SolveFailed(wire.trace, challenge.url, r.error)
    ensures r.Err? && ChallengeTimedOut(wire.trace) ==> wire.clock >= old(wire.clock) + timeout
  {
    armed := |wire.trace|;
    var keyAuth := KeyAuthorization(challenge.token.value, thumbprint);
    var ready :- wire.ArmSolver(solver, identifier, keyAuth);
    ghost var soFar := wire.trace;
    r := PollChallenge(challenge.url, account, wire, ready, timeout, interval);
    assert soFar <= wire.trace && soFar[armed] == wire.trace[armed];
  }

  /** An authorization failed on its fetch, after a fetch that left no way to solve it, or (as `proof`
      records) on the challenge that was picked. */
  ghost predicate AuthorizationFailed(t: Trace, url: string, solvers: seq<ChallengeKind>, proof: Proof, error: Error) {
    && t != []
    && match proof
       case Reused(_) => FetchFailed(t[|t| - 1], url, solvers, error)
       case Solved(fetched, authz, challenge, armed, _) =>
         && 0 <= fetched < armed < |t| && ReadAuthorization(t[fetched], url, authz) && t[armed].Arm?
         && PickedFirst(authz.challenges, solvers, t[armed].solver, challenge)
         && SolveFailed(t, challenge.url, error)
  }

  ghost predicate FetchFailed(e: Event, url: string, solvers: seq<ChallengeKind>, error: Error) {
    if e.Post? then
      && e.url == url && e.payload == AsGet
      && match AuthorizationAnswer(e.reply)
         case Err(x) => error == x
         case Ok(authz) => authz.status != "valid" && Unsolvable(authz, solvers, error)
    else GetFailed(e, error)
  }

  /** No solver suits, or the challenge picked has no token. */
  ghost predicate Unsolvable(authz: Authorization, solvers: seq<ChallengeKind>, error: Error) {
    || (NoneSuits(authz.challenges, solvers) && error == UnsupportedIdentifier)
    || (error == MissingField("challenge.token")
        && exists s, c :: PickedFirst(authz.challenges, solvers, s, c) && c.token.None?)
  }

  /** The solver and the challenge of an authorization that is not valid yet; the challenge has a token. */
  method ChooseChallenge(authz: Authorization, solvers: seq<ChallengeKind>) returns (r: Result<(nat, Challenge), Error>)
    ensures r.Ok? ==>
              && PickedFirst(authz.challenges, solvers, r.value.0, r.value.1) && r.value.1.token.Some?
              && r.value.1 in authz.challenges
    ensures r.Err? ==> Unsolvable(authz, solvers, r.error)
  {
    var picked :- PickSolverAndChallenge(authz.challenges, solvers);
    return if picked.1.token.None? then Err(MissingField("challenge.token")) else Ok(picked);
  }

  /** A fetch that ended `before`, and then solving, make a proof. */
  lemma SolvingShows(before: Trace, t: Trace, url: string, authz: Authorization, challenge: Challenge,
                     thumbprint: string)
    requires before <= t && before != [] && ReadAuthorization(before[|before| - 1], url, authz)
    requires authz.status != "valid" && challenge in authz.challenges && challenge.token.Some?
    requires SolvedAt(t, authz.identifier, challenge, thumbprint, |before|, |t| - 2)
    ensures Shows(t, url, thumbprint, Solved(|before| - 1, authz, challenge, |before|, |t| - 2))
  {
    assert t[|before| - 1] == before[|before| - 1];
  }

  lemma SolvingFails(before: Trace, t: Trace, url: string, authz: Authorization, solvers: seq<ChallengeKind>,
                     challenge: Challenge, error: Error)
    requires before <= t && 0 < |before| < |t| && ReadAuthorization(before[|before| - 1], url, authz)
    requires t[|before|].Arm? && PickedFirst(authz.challenges, solvers, t[|before|].solver, challenge)
    requires SolveFailed(t, challenge.url, error)
    ensures AuthorizationFailed(t, url, solvers, Solved(|before| - 1, authz, challenge, |before|, |t| - 2), error)
  {
    assert t[|before| - 1] == before[|before| - 1];
  }

  /** `run_one_authorization` after the fetch: choose, arm and drive. */
  method SolveFetched(url: string, authz: Authorization, account: Account, thumbprint: string, wire: Wire,
                      solvers: seq<ChallengeKind>, timeout: nat, interval: nat)
    returns (r: Result<(), Error>, ghost proof: Proof)
    requires interval + wire.latency > 0
    requires wire.Valid() && account.nonce.Valid() && wire.ledger.live.Free?
    requires wire.trace != [] && ReadAuthorization(wire.trace[|wire.trace| - 1], url, authz) && authz.status != "valid"
    modifies wire, account.nonce
    ensures Moved(wire, account.nonce, r.Ok?)
    ensures wire.ledger.live.Free?
    ensures wire.ledger.posts <= old(wire.ledger).posts + 1 + MaxPolls(timeout, interval + wire.latency)
    ensures forall i :: |old(wire.trace)| <= i < |wire.trace| ==> Calm(wire.trace[i], account.Who())
    ensures proof.fetched == |old(wire.trace)| - 1
    ensures proof.Solved? ==>
              && 0 <= proof.armed < |wire.trace| && wire.trace[proof.armed].Arm?
              && PickedFirst(proof.authz.challenges, solvers, wire.trace[proof.armed].solver, proof.challenge)
    ensures r.Ok? ==> proof.Solved? && Shows(wire.trace, url, thumbprint, proof) && |wire.trace| == proof.End()
    ensures r.Err? && proof.Reused? ==> wire.trace == old(wire.trace) && Unsolvable(authz, solvers, r.error)
    ensures r.Err? && proof.Solved? ==> AuthorizationFailed(wire.trace, url, solvers, proof, r.error)
    ensures r.Err? && ChallengeTimedOut(wire.trace) && proof.Solved? ==> wire.clock >= old(wire.clock) + timeout
  {
    proof := Reused(|wire.trace| - 1);
    var chosen :- ChooseChallenge(authz, solvers);
    var (solver, challenge) := chosen;
    ghost var soFar, armed := wire.trace, 0;
    r, armed := Solve(solver, authz.identifier, challenge, thumbprint, account, wire, timeout, interval);
    proof := Solved(|soFar| - 1, authz, challenge, armed, |wire.trace| - 2);
    if r.Ok? {
      SolvingShows(soFar, wire.trace, url, authz, challenge, thumbprint);
    } else {
      SolvingFails(soFar, wire.trace, url, authz, solvers, challenge, r.error);
    }
  }

  /** `run_one_authorization`. */
  method RunOneAuthorization(url: string, account: Account, thumbprint: string, wire: Wire, solvers: seq<ChallengeKind>,
                             timeout: nat, interval: nat)
    returns (r: Result<(), Error>, ghost proof: Proof)
    requires interval + wire.latency > 0
    requires wire.Valid() && account.nonce.Valid() && wire.ledger.live.Free?
    modifies wire, account.nonce
    ensures Moved(wire, account.nonce, r.Ok?)
    ensures wire.ledger.live.Free?
    ensures wire.ledger.posts <= old(wire.ledger).posts + 2 + MaxPolls(timeout, interval + wire.latency)
    ensures forall i :: |old(wire.trace)| <= i < |wire.trace| ==> Calm(wire.trace[i], account.Who())
    ensures r.Ok? ==> Shows(wire.trace, url, thumbprint, proof) && |old(wire.trace)| <= proof.fetched
    ensures r.Ok? && proof.Solved? ==>
              PickedFirst(proof.authz.challenges, solvers, wire.trace[proof.armed].solver, proof.challenge)
    ensures r.Ok? ==> |wire.trace| == proof.End()
    ensures r.Err? ==> AuthorizationFailed(wire.trace, url, solvers, proof, r.error)
    ensures r.Err? && ChallengeTimedOut(wire.trace) ==> wire.clock >= old(wire.clock) + timeout
    ensures proof.Reused? ==> forall i :: |old(wire.trace)| <= i < |wire.trace| ==> Still(wire.trace[i])
  {
    proof := Reused(0);
    var read := FetchAuthorization(url, account, wire);
    OneIsCalm(wire.trace, |old(wire.trace)|, url, AsGet, account.Who());
    var authz :- read;
    AuthorizationStrings(authz.status);
    if authz.StatusEnum().AuthzValid? {
      proof := Reused(|wire.trace| - 1);
      return Ok(()), proof;
    }
    ghost var soFar := wire.trace;
    r, proof := SolveFetched(url, authz, account, thumbprint, wire, solvers, timeout, interval);
    assert forall i :: 0 <= i < |soFar| ==> wire.trace[i] == soFar[i];
  }
}
