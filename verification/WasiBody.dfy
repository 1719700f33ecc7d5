/** Bodies over wasi streams (`http-client/src/lib.rs`): the flow-controlled writer `write_all` and
    the read loop of `read_response`. What a stream will offer is a finite list; when it runs out the
    call is blocked for good. */
module WasiBody {
  import opened Wrappers

  datatype Outcome<T> = Done(value: T) | Failed | Blocked

  function Concat(chunks: seq<seq<byte>>): seq<byte> {
    if chunks == [] then [] else Concat(chunks[..|chunks| - 1]) + chunks[|chunks| - 1]
  }

  lemma ConcatAppend(chunks: seq<seq<byte>>, chunk: seq<byte>)
    ensures Concat(chunks + [chunk]) == Concat(chunks) + chunk
  {
    assert (chunks + [chunk])[..|chunks|] == chunks;
  }

  // ---- writing -------------------------------------------------------------

  /** `usize` is 32 bits wide in a wasm component, so a permit is taken modulo this. */
  const USIZE := 0x1_0000_0000

  /** What `check_write` returns next, and whether a write or flush after it succeeds. */
  datatype Offer = Permit(n: nat, accepted: bool) | Closed

  /** The stream is closed, or takes a permitted write and then fails it. */
  predicate Stops(o: Offer) {
    o.Closed? || (o.n % USIZE != 0 && !o.accepted)
  }

  ghost predicate NoneStops(offers: seq<Offer>) {
    forall o :: o in offers ==> !Stops(o)
  }

  /** The permit an offer gives to a write, if it gives one. */
  function Granted(o: Offer): seq<nat> {
    if o.Permit? && o.n % USIZE != 0 && o.accepted then [o.n % USIZE] else []
  }

  /** The permits of the offers, in order. */
  function Permits(offers: seq<Offer>): seq<nat> {
    if offers == [] then [] else Permits(offers[..|offers| - 1]) + Granted(offers[|offers| - 1])
  }

  lemma PermitsAppend(used: seq<Offer>, offer: Offer)
    ensures Permits(used + [offer]) == Permits(used) + Granted(offer)
  {
    assert (used + [offer])[..|used|] == used;
  }

  lemma StopsAppend(used: seq<Offer>, offer: Offer)
    ensures NoneStops(used + [offer]) <==> NoneStops(used) && !Stops(offer)
    ensures (used + [offer])[..|used|] == used && (used + [offer])[|used|] == offer
  {
    assert forall o :: o in used + [offer] <==> o in used || o == offer;
  }

  /** What was written with the first chunks up to and including chunk `k`. */
  function Written(chunks: seq<seq<byte>>, k: nat): seq<byte>
    requires k < |chunks|
  {
    Concat(chunks[..k + 1])
  }

  /** Every chunk is as long as its permit, or completes the body. */
  ghost predicate Filled(chunks: seq<seq<byte>>, permits: seq<nat>, body: seq<byte>)
    requires |chunks| == |permits|
  {
    forall k :: 0 <= k < |chunks| ==> |chunks[k]| == permits[k] || Written(chunks, k) == body
  }

  lemma WrittenEarlier(chunks: seq<seq<byte>>, chunk: seq<byte>, k: nat)
    requires k < |chunks|
    ensures Written(chunks + [chunk], k) == Written(chunks, k)
  {
    assert (chunks + [chunk])[..k + 1] == chunks[..k + 1];
  }

  lemma FilledAppend(chunks: seq<seq<byte>>, permits: seq<nat>, body: seq<byte>, chunk: seq<byte>, permit: nat)
    requires |chunks| == |permits| && Filled(chunks, permits, body)
    requires |chunk| == permit || Concat(chunks) + chunk == body
    ensures Filled(chunks + [chunk], permits + [permit], body)
  {
    var all, more := chunks + [chunk], permits + [permit];
    ConcatAppend(chunks, chunk);
    assert all[..|chunks| + 1] == all;
    forall k | 0 <= k < |all|
      ensures |all[k]| == more[k] || Written(all, k) == body
    {
      if k < |chunks| {
        WrittenEarlier(chunks, chunk, k);
      }
    }
  }

  /** A chunk from the front of what is left, as long as its permit or all of it. */
  lemma OneMoreChunk(chunks: seq<seq<byte>>, permits: seq<nat>, body: seq<byte>, data: seq<byte>, len: nat, permit: nat)
    requires |chunks| == |permits| && Filled(chunks, permits, body) && Concat(chunks) + data == body
    requires len <= |data| && (len == permit || len == |data|)
    ensures Filled(chunks + [data[..len]], permits + [permit], body)
    ensures Concat(chunks + [data[..len]]) + data[len..] == body
  {
    var chunk, rest, before := data[..len], data[len..], Concat(chunks);
    ConcatAppend(chunks, chunk);
    assert before + chunk + rest == before + data;
    if len == |data| {
      assert chunk == data;
    }
    FilledAppend(chunks, permits, body, chunk, permit);
  }

  lemma SplitIsPrefix(a: seq<byte>, b: seq<byte>, body: seq<byte>)
    requires a + b == body
    ensures a <= body && |a| + |b| == |body| && (b == [] ==> a == body)
  {
  }

  lemma OneTaken(used: seq<Offer>, offers: seq<Offer>)
    requires offers != []
    ensures used + offers == (used + [offers[0]]) + offers[1..]
  {
  }

  class OutputStream {
    var offers: seq<Offer>
    var chunks: seq<seq<byte>>
    ghost var permits: seq<nat>   // the permit each chunk was written under
    ghost var used: seq<Offer>    // the offers taken

    ghost predicate Valid()
      reads this
    {
      && |permits| == |chunks| && permits == Permits(used)
      && forall k :: 0 <= k < |chunks| ==> 0 < |chunks[k]| <= permits[k]
    }

    constructor (offers: seq<Offer>)
      ensures Valid() && chunks == [] && used == [] && this.offers == offers
    {
      this.offers, chunks, permits, used := offers, [], [], [];
    }

    /** Part of the body is written, `data` is left, and nothing stopped it so far. */
    ghost predicate Going(body: seq<byte>, data: seq<byte>)
      reads this
    {
      Valid() && Filled(chunks, permits, body) && NoneStops(used) && Concat(chunks) + data == body
    }

    method Put(body: seq<byte>, data: seq<byte>, len: nat, permit: nat)
      requires |permits| == |chunks| && forall k :: 0 <= k < |chunks| ==> 0 < |chunks[k]| <= permits[k]
      requires Filled(chunks, permits, body) && Concat(chunks) + data == body
      requires 0 < len <= |data| && len <= permit && (len == permit || len == |data|)
      modifies this`chunks, this`permits
      ensures |permits| == |chunks| && forall k :: 0 <= k < |chunks| ==> 0 < |chunks[k]| <= permits[k]
      ensures permits == old(permits) + [permit] && chunks == old(chunks) + [data[..len]]
      ensures Filled(chunks, permits, body) && Concat(chunks) + data[len..] == body
    {
      OneMoreChunk(chunks, permits, body, data, len, permit);
      chunks, permits := chunks + [data[..len]], permits + [permit];
    }

    /** One turn: ask for a permit, and write that much of what is left. */
    method Turn(body: seq<byte>, data: seq<byte>) returns (rest: Option<seq<byte>>)
      requires offers != [] && data != [] && Going(body, data)
      modifies this
      ensures offers == old(offers)[1..] && used == old(used) + [old(offers)[0]]
      ensures rest.Some? <==> !Stops(old(offers)[0])
      ensures rest.Some? ==> Going(body, rest.value)
      ensures rest.None? ==> Valid() && Filled(chunks, permits, body) && Concat(chunks) + data == body
    {
      var offer := offers[0];
      PermitsAppend(used, offer);
      StopsAppend(used, offer);
      offers, used := offers[1..], used + [offer];
      if offer.Closed? {
        return None;
      }
      var permit := offer.n % USIZE;
      if permit == 0 {
        return Some(data);
      }
      var len := if |data| < permit then |data| else permit;
      if !offer.accepted {
        return None;
      }
      Put(body, data, len, permit);
      return Some(data[len..]);
    }

    /** `write_all`; `flushed` says whether the final flush succeeds. It fails exactly when an offer it took
        stops it, or the flush after the last write does. */
    method WriteAll(body: seq<byte>, flushed: bool) returns (r: Outcome<()>)
      requires Valid() && chunks == [] && used == []
      modifies this
      ensures Valid() && Filled(chunks, permits, body)
      ensures old(offers) == used + offers && Concat(chunks) <= body
      ensures r.Done? ==> Concat(chunks) == body && (body == [] || flushed) && NoneStops(used)
      ensures r.Blocked? ==> offers == [] && |Concat(chunks)| < |body| && NoneStops(used)
      ensures r.Failed? ==>
                if used != [] && Stops(used[|used| - 1]) then
                  NoneStops(used[..|used| - 1]) && |Concat(chunks)| < |body|
                else Concat(chunks) == body != [] && !flushed && NoneStops(used)
      ensures body == [] ==> r.Done? && used == []
    {
      if body == [] {
        return Done(());
      }
      var data := body;
      while data != []
        invariant Going(body, data) && old(offers) == used + offers
        decreases |offers|
      {
        SplitIsPrefix(Concat(chunks), data, body);
        if offers == [] {
          return Blocked;
        }
        OneTaken(used, offers);
        StopsAppend(used, offers[0]);
        var rest := Turn(body, data);
        SplitIsPrefix(Concat(chunks), if rest.None? then data else rest.value, body);
        if rest.None? {
          return Failed;
        }
        data := rest.value;
      }
      SplitIsPrefix(Concat(chunks), data, body);
      return if flushed then Done(()) else Failed;
    }
  }

  // ---- reading -------------------------------------------------------------

  datatype Step = Chunk(bytes: seq<byte>) | EndOfStream | StreamError

  ghost predicate AllChunks(steps: seq<Step>, k: int)
    requires k <= |steps|
  {
    forall i :: 0 <= i < k ==> steps[i].Chunk?
  }

  function Bytes(steps: seq<Step>): seq<byte> {
    if steps == [] then []
    else Bytes(steps[..|steps| - 1]) + if steps[|steps| - 1].Chunk? then steps[|steps| - 1].bytes else []
  }

  /** The read loop: the body is the chunks read before the stream closed, empty reads included. */
  method ReadBody(steps: seq<Step>) returns (r: Outcome<seq<byte>>)
    ensures r.Done? <==> exists k :: 0 <= k < |steps| && AllChunks(steps, k) && steps[k].EndOfStream?
    ensures r.Failed? <==> exists k :: 0 <= k < |steps| && AllChunks(steps, k) && steps[k].StreamError?
    ensures forall k :: 0 <= k < |steps| && AllChunks(steps, k) && steps[k].EndOfStream? ==>
              r == Done(Bytes(steps[..k]))
  {
    var body: seq<byte> := [];
    var i := 0;
    while i < |steps|
      invariant 0 <= i <= |steps| && AllChunks(steps, i) && body == Bytes(steps[..i])
    {
      match steps[i] {
        case Chunk(bytes) =>
          assert steps[..i + 1][..i] == steps[..i];
          if bytes != [] {
            body := body + bytes;
          }
        case EndOfStream =>
          assert forall k :: 0 <= k < |steps| && AllChunks(steps, k) && !steps[k].Chunk? ==> k == i;
          return Done(body);
        case StreamError =>
          assert forall k :: 0 <= k < |steps| && AllChunks(steps, k) && !steps[k].Chunk? ==> k == i;
          return Failed;
      }
      i := i + 1;
    }
    assert AllChunks(steps, |steps|);
    return Blocked;
  }
}
