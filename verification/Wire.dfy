/** Everything an issuance run does to the outside: requests, solver calls, the clock. The answers
    are arbitrary; a ghost trace records every request with its answer, in order. */
module Wire {
  import opened Wrappers
  import opened Acme
  import opened Jws
  import Utf8

  /** An armed solver: which one, and the key authorization it stands for. */
  datatype Handle = Handle(id: nat, solver: nat, keyAuth: string)

  datatype Event =
    | Get(url: string, reply: Reply)
    | Head(url: string, reply: Reply)
    | Post(url: string, body: seq<byte>, key: AccountKey, header: ProtectedHeader, payload: Payload, reply: Reply)
    | Arm(solver: nat, identifier: Identifier, keyAuth: string, outcome: Option<Handle>)
    | SelfCheck(handle: Handle, passed: bool)
    | Drop(handle: Handle)

  type Trace = seq<Event>

  /** A receiver that opens the body finds exactly this header, which names the URL the body is sent to and
      the algorithm of the key, exactly this payload, and the key's signature over what it must check. */
  ghost predicate Opens(url: string, body: seq<byte>, key: AccountKey, header: ProtectedHeader, payload: Payload) {
    var o := Open(body);
    && o.Some? && o.value.header == header && o.value.payload == PayloadBytes(payload)
    && header.url == url && header.alg == key.Alg()
    && o.value.signature == key.sign(Utf8.Encode(o.value.signed))
  }

  /** The nonces a response hands to `absorb`: every POST response, and a 2xx `newNonce` response. */
  function Offers(e: Event): seq<string> {
    if (e.Post? && e.reply.Ok?) || (e.Head? && e.reply.Ok? && e.reply.value.Success()) then ReplayNonces(e.reply.value)
    else []
  }

  // ---- the ledger of a trace -----------------------------------------------

  /** The nonce books of a sequence of requests. */
  datatype Books = Books(
    heads: nat,
    barren: nat,            // HEADs that brought no nonce
    dry: nat,               // POSTs whose answer brought no nonce
    sent: seq<string>,      // the nonces of the POSTs, in order
    offered: seq<string>)   // every nonce handed to `absorb`, in order

  const NO_BOOKS := Books(0, 0, 0, [], [])

  function BooksAfter(b: Books, e: Event): Books {
    Books(
      if e.Head? then b.heads + 1 else b.heads,
      if e.Head? && Offers(e) == [] then b.barren + 1 else b.barren,
      if e.Post? && Offers(e) == [] then b.dry + 1 else b.dry,
      if e.Post? then b.sent + [e.header.nonce] else b.sent,
      b.offered + Offers(e))
  }

  /** Which solver handle is armed; `Broken` once a handle is armed twice, or dropped unarmed. */
  datatype Live = Free | Held(handle: Handle) | Broken

  datatype Ledger = Ledger(posts: nat, books: Books, live: Live)

  const EMPTY := Ledger(0, NO_BOOKS, Free)

  function LiveAfter(live: Live, e: Event): Live {
    if e.Arm? && e.outcome.Some? then if live.Free? then Held(e.outcome.value) else Broken
    else if e.Drop? then if live == Held(e.handle) then Free else Broken
    else live
  }

  function Extend(l: Ledger, e: Event): Ledger {
    Ledger(if e.Post? then l.posts + 1 else l.posts, BooksAfter(l.books, e), LiveAfter(l.live, e))
  }

  function LedgerOf(t: Trace): Ledger {
    if t == [] then EMPTY else Extend(LedgerOf(t[..|t| - 1]), t[|t| - 1])
  }

  lemma LedgerOfAppend(t: Trace, e: Event)
    ensures LedgerOf(t + [e]) == Extend(LedgerOf(t), e)
  {
    assert (t + [e])[..|t|] == t;
  }

  /** Every POST of the trace opens to the header and payload recorded beside it. */
  ghost predicate AllOpen(t: Trace) {
    forall i :: 0 <= i < |t| && t[i].Post? ==> Opens(t[i].url, t[i].body, t[i].key, t[i].header, t[i].payload)
  }

  // ---- the outside ---------------------------------------------------------

  class Wire {
    ghost var trace: Trace
    ghost var ledger: Ledger
    var clock: nat
    const latency: nat   // the least time a request takes

    /** The ledger is that of the trace, and every POST opens. The trigger keeps both facts out of
        sight until `Audit` asks for them. */
    ghost predicate Valid()
      reads this`trace, this`ledger
    {
      forall t {:trigger AllOpen(t)} :: t == trace ==> ledger == LedgerOf(t) && AllOpen(t)
    }

    lemma Audit()
      requires Valid()
      ensures ledger == LedgerOf(trace) && AllOpen(trace)
    {
      assert AllOpen(trace);
    }

    constructor (latency: nat)
      ensures Valid() && trace == [] && ledger == EMPTY && this.latency == latency
    {
      trace, ledger, clock, this.latency := [], EMPTY, 0, latency;
      new;
      assert LedgerOf(trace) == EMPTY;
    }

    ghost method Record(e: Event)
      requires Valid() && (e.Post? ==> Opens(e.url, e.body, e.key, e.header, e.payload))
      modifies this`trace, this`ledger
      ensures Valid() && trace == old(trace) + [e] && ledger == Extend(old(ledger), e)
    {
      Audit();
      LedgerOfAppend(trace, e);
      ledger := Extend(ledger, e);
      trace := trace + [e];
    }

    /** Time passes. */
    method Wait(least: nat)
      modifies this`clock
      ensures clock >= old(clock) + least
    {
      var d: int := *;
      clock := clock + least + if d > 0 then d else 0;
    }

    method HttpGet(url: string) returns (r: Reply)
      requires Valid()
      modifies this
      ensures Valid() && clock >= old(clock) + latency
      ensures trace == old(trace) + [Get(url, r)] && ledger == Extend(old(ledger), Get(url, r))
    {
      Wait(latency);
      r := *;
      Record(Get(url, r));
    }

    method HttpHead(url: string) returns (r: Reply)
      requires Valid()
      modifies this
      ensures Valid() && clock >= old(clock) + latency
      ensures trace == old(trace) + [Head(url, r)] && ledger == Extend(old(ledger), Head(url, r))
    {
      Wait(latency);
      r := *;
      Record(Head(url, r));
    }

    /** Sends a signed body, which the receiver must be able to open. */
    method PostJose(url: string, body: seq<byte>, ghost key: AccountKey, ghost header: ProtectedHeader,
                    ghost payload: Payload)
      returns (r: Reply)
      requires Valid() && Opens(url, body, key, header, payload)
      modifies this
      ensures Valid() && clock >= old(clock) + latency
      ensures trace == old(trace) + [Post(url, body, key, header, payload, r)]
      ensures ledger == Extend(old(ledger), Post(url, body, key, header, payload, r))
    {
      Wait(latency);
      r := *;
      Record(Post(url, body, key, header, payload, r));
    }

    /** `ChallengeSolver::arm`; a fresh handle on success. */
    method ArmSolver(solver: nat, identifier: Identifier, keyAuth: string) returns (r: Result<Handle, Error>)
      requires Valid() && ledger.live.Free?
      modifies this
      ensures Valid() && clock >= old(clock)
      ensures r.Err? ==>
                && r.error == SolverFailed && ledger == old(ledger)
                && trace == old(trace) + [Arm(solver, identifier, keyAuth, None)]
      ensures r.Ok? ==>
                && r.value.keyAuth == keyAuth && r.value.solver == solver
                && trace == old(trace) + [Arm(solver, identifier, keyAuth, Some(r.value))]
                && ledger == old(ledger).(live := Held(r.value))
    {
      Wait(0);
      var id: int := *;
      if id >= 0 {
        Record(Arm(solver, identifier, keyAuth, Some(Handle(id, solver, keyAuth))));
        return Ok(Handle(id, solver, keyAuth));
      }
      Record(Arm(solver, identifier, keyAuth, None));
      return Err(SolverFailed);
    }

    method Check(handle: Handle) returns (r: Result<(), Error>)
      requires Valid()
      modifies this
      ensures Valid() && clock >= old(clock)
      ensures trace == old(trace) + [SelfCheck(handle, r.Ok?)] && ledger == old(ledger)
      ensures r.Err? ==> r.error == SolverFailed
    {
      Wait(0);
      var passed: bool := *;
      Record(SelfCheck(handle, passed));
      return if passed then Ok(()) else Err(SolverFailed);
    }

    /** Dropping the handle tears the solver down. */
    method DropHandle(handle: Handle)
      requires Valid() && ledger.live == Held(handle)
      modifies this
      ensures Valid() && clock >= old(clock)
      ensures trace == old(trace) + [Drop(handle)] && ledger == old(ledger).(live := Free)
    {
      Wait(0);
      Record(Drop(handle));
    }

    method Now() returns (t: nat)
      modifies this`clock
      ensures t == clock >= old(clock)
    {
      Wait(0);
      t := clock;
    }

    method Sleep(d: nat)
      modifies this`clock
      ensures clock >= old(clock) + d
    {
      Wait(d);
    }
  }
}
