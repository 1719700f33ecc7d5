/** What the ledger of a trace says about the trace itself: handles come in matched pairs, nonces are
    used once, and spare HEADs are paid for. Every finished run has such a ledger. */
module RunProperties {
  import opened Wrappers
  import opened Acme
  import opened Wire
  import opened Issuance

  // ---- handles -------------------------------------------------------------

  ghost predicate Arms(e: Event, h: Handle) {
    e.Arm? && e.outcome == Some(h)
  }

  ghost predicate Quiet(e: Event) {
    !e.Drop? && !(e.Arm? && e.outcome.Some?)
  }

  /** `j` is the drop that answers the arm at `i`: same handle, nothing armed or dropped between. */
  ghost predicate Pair(t: Trace, i: int, j: int) {
    && 0 <= i < j < |t| && t[j].Drop? && Arms(t[i], t[j].handle)
    && forall k :: i < k < j ==> Quiet(t[k])
  }

  /** Every armed handle is dropped, every drop answers an arm. */
  ghost predicate Matched(t: Trace) {
    && (forall i :: 0 <= i < |t| && t[i].Arm? && t[i].outcome.Some? ==> exists j :: Pair(t, i, j))
    && (forall j :: 0 <= j < |t| && t[j].Drop? ==> exists i :: Pair(t, i, j))
  }

  /** Matched up to one handle, armed at `i` and still standing. */
  ghost predicate MatchedBut(t: Trace, i: int) {
    && 0 <= i < |t| && t[i].Arm? && t[i].outcome.Some? && (forall k :: i < k < |t| ==> Quiet(t[k]))
    && Matched(t[..i])
  }

  lemma PairLater(t: Trace, u: Trace, i: int, j: int)
    requires t <= u && Pair(t, i, j)
    ensures Pair(u, i, j)
  {
    assert forall k :: 0 <= k < |t| ==> u[k] == t[k];
  }

  lemma MatchedExtends(t: Trace, u: Trace)
    requires t <= u && Matched(t) && forall k :: |t| <= k < |u| ==> Quiet(u[k])
    ensures Matched(u)
  {
    forall i | 0 <= i < |u| && u[i].Arm? && u[i].outcome.Some?
      ensures exists j :: Pair(u, i, j)
    {
      assert t[i] == u[i];
      var j :| Pair(t, i, j);
      PairLater(t, u, i, j);
    }
    forall j | 0 <= j < |u| && u[j].Drop?
      ensures exists i :: Pair(u, i, j)
    {
      assert t[j] == u[j];
      var i :| Pair(t, i, j);
      PairLater(t, u, i, j);
    }
  }

  lemma MatchedByDrop(t: Trace, i: int, e: Event)
    requires MatchedBut(t, i) && e.Drop? && Arms(t[i], e.handle)
    ensures Matched(t + [e])
  {
    var u := t + [e];
    assert forall k :: 0 <= k < |t| ==> u[k] == t[k];
    assert Pair(u, i, |t|);
    forall m | 0 <= m < |u| && u[m].Arm? && u[m].outcome.Some?
      ensures exists j :: Pair(u, m, j)
    {
      if m < i {
        assert t[..i][m] == u[m];
        var j :| Pair(t[..i], m, j);
        PairLater(t[..i], u, m, j);
      } else {
        assert m == i;
      }
    }
    forall j | 0 <= j < |u| && u[j].Drop?
      ensures exists m :: Pair(u, m, j)
    {
      if j < i {
        assert t[..i][j] == u[j];
        var m :| Pair(t[..i], m, j);
        PairLater(t[..i], u, m, j);
      } else {
        assert j == |t|;
      }
    }
  }

  /** What a ledger with this handle state says of the trace. */
  ghost predicate Says(t: Trace, live: Live) {
    match live
    case Free => Matched(t)
    case Held(h) => exists i :: MatchedBut(t, i) && Arms(t[i], h)
    case Broken => true
  }

  lemma QuietKeepsHeld(s: Trace, t: Trace, e: Event, h: Handle)
    requires t == s + [e] && Quiet(e) && Says(s, Held(h))
    ensures Says(t, Held(h))
  {
    var i :| MatchedBut(s, i) && Arms(s[i], h);
    assert t[..i] == s[..i];
    assert MatchedBut(t, i) && Arms(t[i], h);
  }

  lemma ArmStands(s: Trace, t: Trace, e: Event, h: Handle)
    requires t == s + [e] && Matched(s) && Arms(e, h)
    ensures Says(t, Held(h))
  {
    assert t[..|s|] == s;
    assert MatchedBut(t, |s|) && Arms(t[|s|], h);
  }

  lemma SaysMore(s: Trace, t: Trace, e: Event, live: Live)
    requires t == s + [e] && Says(s, live)
    ensures Says(t, LiveAfter(live, e))
  {
    if live.Free? && Quiet(e) {
      MatchedExtends(s, t);
    } else if live.Free? && e.Arm? {
      ArmStands(s, t, e, e.outcome.value);
    } else if live.Held? && Quiet(e) {
      QuietKeepsHeld(s, t, e, live.handle);
    } else if live.Held? && e == Drop(live.handle) {
      var i :| MatchedBut(s, i) && Arms(s[i], live.handle);
      MatchedByDrop(s, i, e);
    }
  }

  /** A ledger that ends free, or with one handle held, says exactly how the handles were matched. */
  lemma {:induction false} LedgerMatchesHandles(t: Trace)
    ensures LedgerOf(t).live.Free? ==> Matched(t)
    ensures LedgerOf(t).live.Held? ==> exists i :: MatchedBut(t, i) && Arms(t[i], LedgerOf(t).live.handle)
    ensures Says(t, LedgerOf(t).live)
  {
    if t != [] {
      var s, e := t[..|t| - 1], t[|t| - 1];
      LedgerMatchesHandles(s);
      SaysMore(s, t, e, LedgerOf(s).live);
    }
  }

  // ---- nonces --------------------------------------------------------------

  /** The nonces of the POSTs of a trace, in order. */
  function SentBy(t: Trace): seq<string> {
    if t == [] then [] else SentBy(t[..|t| - 1]) + if t[|t| - 1].Post? then [t[|t| - 1].header.nonce] else []
  }

  lemma {:induction false} SentIsBooked(t: Trace)
    ensures LedgerOf(t).books.sent == SentBy(t)
  {
    if t != [] {
      SentIsBooked(t[..|t| - 1]);
    }
  }

  lemma SentByPrefix(t: Trace, i: nat)
    requires i < |t|
    ensures SentBy(t[..i + 1]) == SentBy(t[..i]) + if t[i].Post? then [t[i].header.nonce] else []
  {
    assert t[..i + 1][..i] == t[..i];
  }

  /** The nonce of the POST at `i` has the place its earlier POSTs leave it. */
  lemma {:induction false} SentInOrder(t: Trace, i: nat, n: nat)
    requires i < n <= |t| && t[i].Post?
    ensures |SentBy(t[..i])| < |SentBy(t[..n])|
    ensures SentBy(t[..n])[|SentBy(t[..i])|] == t[i].header.nonce
  {
    SentByPrefix(t, n - 1);
    if i < n - 1 {
      SentInOrder(t, i, n - 1);
    }
  }

  /** When the nonces a run is offered are all different, no two of its POSTs carry the same one. */
  lemma NoNonceTwice(t: Trace, i: nat, j: nat)
    requires LedgerOf(t).books.sent <= LedgerOf(t).books.offered
    requires var offered := LedgerOf(t).books.offered;
             forall a, b :: 0 <= a < b < |offered| ==> offered[a] != offered[b]
    requires i < j < |t| && t[i].Post? && t[j].Post?
    ensures t[i].header.nonce != t[j].header.nonce
  {
    SentIsBooked(t);
    assert t[..|t|] == t;
    SentInOrder(t, i, |t|);
    SentInOrder(t, j, |t|);
    SentInOrder(t, i, j);
  }

  // ---- HEAD requests -------------------------------------------------------

  lemma {:induction false} HeadsCounted(t: Trace, i: nat, j: nat)
    requires i < j < |t| && t[i].Head? && t[j].Head?
    ensures LedgerOf(t).books.heads >= 2
  {
    if j < |t| - 1 {
      HeadsCounted(t[..|t| - 1], i, j);
    } else {
      HeadCounted(t[..|t| - 1], i);
    }
  }

  lemma {:induction false} HeadCounted(t: Trace, i: nat)
    requires i < |t| && t[i].Head?
    ensures LedgerOf(t).books.heads >= 1
  {
    if i < |t| - 1 {
      HeadCounted(t[..|t| - 1], i);
    }
  }

  lemma {:induction false} NoDryPosts(t: Trace)
    requires forall i :: 0 <= i < |t| && t[i].Post? ==> Offers(t[i]) != []
    ensures LedgerOf(t).books.dry == 0
  {
    if t != [] {
      NoDryPosts(t[..|t| - 1]);
    }
  }

  /** A run that gets past its directory, and whose POSTs are all answered with a nonce, sends exactly
      one HEAD: its second request. */
  lemma OneHead(t: Trace, i: nat)
    requires Opening(t) && Paid(LedgerOf(t).books) && |t| > 1
    requires forall k :: 0 <= k < |t| && t[k].Post? ==> Offers(t[k]) != []
    requires i < |t|
    ensures t[i].Head? <==> i == 1
  {
    NoDryPosts(t);
    if i > 1 && t[i].Head? {
      HeadsCounted(t, 1, i);
    }
  }

  // ---- how many requests ---------------------------------------------------

  function Posts(t: Trace): set<int> {
    set i | 0 <= i < |t| && t[i].Post?
  }

  function Heads(t: Trace): set<int> {
    set i | 0 <= i < |t| && t[i].Head?
  }

  /** The POSTs whose answer brought no nonce, or that had no answer. */
  function DryPosts(t: Trace): set<int> {
    set i | 0 <= i < |t| && t[i].Post? && Offers(t[i]) == []
  }

  lemma OneMoreEvent(s: Trace, t: Trace, e: Event)
    requires t == s + [e]
    ensures Posts(t) == Posts(s) + (if e.Post? then {|s|} else {})
    ensures Heads(t) == Heads(s) + (if e.Head? then {|s|} else {})
    ensures DryPosts(t) == DryPosts(s) + (if e.Post? && Offers(e) == [] then {|s|} else {})
  {
    assert forall i :: 0 <= i < |s| ==> t[i] == s[i];
  }

  /** The ledger counts what its names say. */
  lemma {:induction false} LedgerCounts(t: Trace)
    ensures LedgerOf(t).posts == |Posts(t)|
    ensures LedgerOf(t).books.heads == |Heads(t)| && LedgerOf(t).books.dry == |DryPosts(t)|
  {
    if t == [] {
      assert Posts(t) == {} && Heads(t) == {} && DryPosts(t) == {};
    } else {
      var s, e := t[..|t| - 1], t[|t| - 1];
      LedgerCounts(s);
      OneMoreEvent(s, t, e);
    }
  }

  /** A run with the default timeouts sends at most 65 POSTs and 63 more for each authorization of its order,
      and at most one HEAD more than it has POSTs answered without a nonce. */
  lemma RequestsOfRun(t: Trace, run: Run, job: Job)
    requires RunFacts(t, LedgerOf(t), run, job)
    ensures |Posts(t)| <= 65 + 63 * |run.order.authorizations|
    ensures |Heads(t)| <= 1 + |DryPosts(t)|
  {
    LedgerCounts(t);
  }
}
