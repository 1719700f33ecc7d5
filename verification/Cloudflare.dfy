/** The Cloudflare provider (`dns-providers/cloudflare/src/lib.rs`): the zone cache, and the handles
    by which created records are deleted again. */
module Cloudflare {
  import opened Wrappers
  import opened Acme
  import opened DnsNaming

  datatype DnsError = Rejected | TransportFailed | ZoneNotFound(apex: string)

  /** A JSON answer of the API: nothing when the transport failed, no body when it did not parse. */
  datatype Answer<T> = NoAnswer | Answer(status: nat, body: Option<ApiBody<T>>)
  datatype ApiBody<T> = ApiBody(success: bool, messages: seq<string>, result: T)

  /** Whatever the API answers. */
  method Hear<T(0)>() returns (a: Answer<T>) {
    a := *;
  }

  // ---- zones ---------------------------------------------------------------

  /** What `resolve_zone_id` makes of the answer to `/zones?name=apex`: the first zone listed. */
  function ZoneAnswer(apex: string, a: Answer<seq<string>>): Result<string, DnsError> {
    if a.NoAnswer? then Err(TransportFailed)
    else if a.body.None? || !a.body.value.success then Err(Rejected)
    else if a.body.value.result == [] then Err(ZoneNotFound(apex))
    else Ok(a.body.value.result[0])
  }

  datatype ZoneLookup = Static(zones: map<string, string>) | ByName(cache: map<string, string>)

  /** One lookup: `answer` is what the API would say to it now. */
  datatype Lookup = Lookup(apex: string, answer: Answer<seq<string>>) {
    function Uncached(): Result<string, DnsError> {
      ZoneAnswer(apex, answer)
    }
  }

  function Cached(cache: map<string, string>, l: Lookup): Result<string, DnsError> {
    if l.apex in cache then Ok(cache[l.apex]) else l.Uncached()
  }

  function CacheAfter(cache: map<string, string>, l: Lookup): map<string, string> {
    if l.apex in cache || l.Uncached().Err? then cache else cache[l.apex := l.Uncached().value]
  }

  /** The cache after a sequence of lookups that started with none. */
  function CacheOver(ls: seq<Lookup>): map<string, string> {
    if ls == [] then map[] else CacheAfter(CacheOver(ls[..|ls| - 1]), ls[|ls| - 1])
  }

  /** The lookups that sent a GET, in order. */
  function Asked(ls: seq<Lookup>): seq<Lookup> {
    if ls == [] then []
    else
      var before, l := ls[..|ls| - 1], ls[|ls| - 1];
      Asked(before) + if l.apex in CacheOver(before) then [] else [l]
  }

  /** The first successful answer for an apex, asked of the API without a cache. */
  function FirstSuccess(ls: seq<Lookup>, apex: string): Option<string> {
    if ls == [] then None
    else
      var before, l := FirstSuccess(ls[..|ls| - 1], apex), ls[|ls| - 1];
      if before.Some? then before
      else if l.apex == apex && l.Uncached().Ok? then Some(l.Uncached().value)
      else None
  }

  /** The cache holds first successes, all of them and nothing else. */
  lemma {:induction false} CacheHoldsFirstSuccesses(ls: seq<Lookup>, apex: string)
    ensures apex in CacheOver(ls) <==> FirstSuccess(ls, apex).Some?
    ensures apex in CacheOver(ls) ==> CacheOver(ls)[apex] == FirstSuccess(ls, apex).value
  {
    if ls != [] {
      CacheHoldsFirstSuccesses(ls[..|ls| - 1], apex);
    }
  }

  lemma {:induction false} FirstSuccessIsOf(ls: seq<Lookup>, apex: string) returns (k: nat)
    requires FirstSuccess(ls, apex).Some?
    ensures k < |ls| && ls[k].apex == apex && ls[k].Uncached() == Ok(FirstSuccess(ls, apex).value)
    ensures forall j :: 0 <= j < k && ls[j].apex == apex ==> ls[j].Uncached().Err?
  {
    var before := ls[..|ls| - 1];
    if FirstSuccess(before, apex).Some? {
      k := FirstSuccessIsOf(before, apex);
      assert forall j :: 0 <= j < |before| ==> before[j] == ls[j];
    } else {
      k := |ls| - 1;
      NoSuccess(before, apex);
      assert forall j :: 0 <= j < |before| ==> before[j] == ls[j];
    }
  }

  lemma {:induction false} NoSuccess(ls: seq<Lookup>, apex: string)
    requires FirstSuccess(ls, apex).None?
    ensures forall j :: 0 <= j < |ls| && ls[j].apex == apex ==> ls[j].Uncached().Err?
  {
    if ls != [] {
      var before := ls[..|ls| - 1];
      NoSuccess(before, apex);
      assert forall j :: 0 <= j < |before| ==> before[j] == ls[j];
    }
  }

  /** Whatever the API answers from one request to the next, a lookup returns the first success there
      ever was for its apex, itself included, and otherwise the failure it was just given. */
  lemma CachedIsFirstSuccess(ls: seq<Lookup>, l: Lookup)
    ensures Cached(CacheOver(ls), l) ==
            if FirstSuccess(ls + [l], l.apex).Some? then Ok(FirstSuccess(ls + [l], l.apex).value) else l.Uncached()
  {
    CacheHoldsFirstSuccesses(ls, l.apex);
    assert (ls + [l])[..|ls|] == ls;
  }

  /** Against an API that gives each apex one answer, the cache is invisible. */
  lemma CacheInvisible(ls: seq<Lookup>, l: Lookup, api: string -> Answer<seq<string>>)
    requires l.answer == api(l.apex) && forall k :: 0 <= k < |ls| ==> ls[k].answer == api(ls[k].apex)
    ensures Cached(CacheOver(ls), l) == l.Uncached()
  {
    CachedIsFirstSuccess(ls, l);
    if FirstSuccess(ls + [l], l.apex).Some? {
      var k := FirstSuccessIsOf(ls + [l], l.apex);
    }
  }

  /** At most one GET per apex succeeds, and after it none is sent. */
  lemma {:induction false} OneSuccessfulGet(ls: seq<Lookup>, i: nat, j: nat)
    requires i < j < |Asked(ls)| && Asked(ls)[i].apex == Asked(ls)[j].apex
    ensures Asked(ls)[i].Uncached().Err?
  {
    var before := ls[..|ls| - 1];
    if j < |Asked(before)| {
      OneSuccessfulGet(before, i, j);
    } else if Asked(ls)[i].Uncached().Ok? {
      AskedAndSucceeded(before, i);
    }
  }

  lemma {:induction false} AskedAndSucceeded(ls: seq<Lookup>, i: nat)
    requires i < |Asked(ls)| && Asked(ls)[i].Uncached().Ok?
    ensures Asked(ls)[i].apex in CacheOver(ls)
  {
    var before := ls[..|ls| - 1];
    if i < |Asked(before)| {
      AskedAndSucceeded(before, i);
    }
  }

  // ---- records -------------------------------------------------------------

  const DEFAULT_TTL_SECONDS := 60

  function TtlOrDefault(ttl: nat): nat {
    if ttl == 0 then DEFAULT_TTL_SECONDS else ttl
  }

  datatype Txt = Txt(name: string, content: string, ttl: nat)

  /** `split_once('/')`. */
  function SplitOnce(s: string): Option<(string, string)> {
    if s == "" then None
    else if s[0] == '/' then Some(("", s[1..]))
    else
      match SplitOnce(s[1..])
      case None => None
      case Some(p) => Some(([s[0]] + p.0, p.1))
  }

  function HandleOf(zone: string, id: string): string {
    zone + "/" + id
  }

  lemma {:induction false} SplitAtFirst(zone: string, id: string)
    requires '/' !in zone
    ensures SplitOnce(HandleOf(zone, id)) == Some((zone, id))
  {
    var s := HandleOf(zone, id);
    if zone == "" {
      assert s[1..] == id;
    } else {
      SplitAtFirst(zone[1..], id);
      assert s[1..] == HandleOf(zone[1..], id);
      assert zone == [zone[0]] + zone[1..];
    }
  }

  lemma {:induction false} SplitHasNoSlash(s: string)
    ensures SplitOnce(s).Some? ==> '/' !in SplitOnce(s).value.0
  {
    if s != "" && s[0] != '/' {
      SplitHasNoSlash(s[1..]);
    }
  }

  /** A handle names its record exactly when the zone id contains no slash; the record id may. */
  lemma HandleRoundTrip(zone: string, id: string)
    ensures SplitOnce(HandleOf(zone, id)) == Some((zone, id)) <==> '/' !in zone
  {
    SplitHasNoSlash(HandleOf(zone, id));
    if '/' !in zone {
      SplitAtFirst(zone, id);
    }
  }

  lemma {:induction false} HandlesSplit(zone: string, id: string)
    ensures SplitOnce(HandleOf(zone, id)).Some?
  {
    if zone != "" && zone[0] != '/' {
      HandlesSplit(zone[1..], id);
      assert HandleOf(zone, id)[1..] == HandleOf(zone[1..], id);
    }
  }

  /** `to_lowercase`, as far as ASCII letters go. */
  function Lower(s: string): (r: string)
    ensures |r| == |s| && forall k :: 0 <= k < |s| ==> r[k] == LowerAscii(s[k])
  {
    if s == "" then "" else [LowerAscii(s[0])] + Lower(s[1..])
  }

  predicate Contains(s: string, part: string) {
    part <= s || (s != "" && Contains(s[1..], part))
  }

  predicate SaysNotFound(messages: seq<string>) {
    exists m :: m in messages && Contains(Lower(m), "not found")
  }

  /** `part` stands in `s` at `i`, in whatever case of ASCII letters. */
  predicate StandsAt(s: string, part: string, i: int) {
    0 <= i <= |s| - |part| && SameName(s[i..i + |part|], part)
  }

  predicate OccursIn(s: string, part: string, i: int) {
    0 <= i <= |s| - |part| && s[i..i + |part|] == part
  }

  lemma {:induction false} ContainsSomewhere(s: string, part: string)
    ensures Contains(s, part) <==> exists i :: OccursIn(s, part, i)
  {
    if part <= s {
      assert OccursIn(s, part, 0);
    } else if s != "" {
      ContainsSomewhere(s[1..], part);
      forall i: int
        ensures OccursIn(s[1..], part, i) ==> OccursIn(s, part, i + 1)
        ensures OccursIn(s, part, i) ==> OccursIn(s[1..], part, i - 1)
      {
        OccursLater(s, part, i);
        OccursLater(s, part, i - 1);
      }
      if exists i :: OccursIn(s[1..], part, i) {
        var i :| OccursIn(s[1..], part, i);
        assert OccursIn(s, part, i + 1);
      }
      if exists i :: OccursIn(s, part, i) {
        var i :| OccursIn(s, part, i);
        assert OccursIn(s[1..], part, i - 1);
      }
    } else {
      assert forall i :: !OccursIn(s, part, i);
    }
  }

  lemma OccursLater(s: string, part: string, i: int)
    requires s != "" && !(part <= s)
    ensures OccursIn(s[1..], part, i) <==> OccursIn(s, part, i + 1) && i >= 0
    ensures !OccursIn(s, part, 0)
  {
    if 0 <= i <= |s| - 1 - |part| {
      assert s[1..][i..i + |part|] == s[i + 1..i + 1 + |part|];
    }
    assert |part| <= |s| ==> s[0..|part|] == s[..|part|];
  }

  /** The message test: "not found" stands in one of the messages, in whatever case. */
  lemma NotFoundReads(messages: seq<string>)
    ensures SaysNotFound(messages) <==> exists m, i :: m in messages && StandsAt(m, "not found", i)
  {
    forall m | m in messages
      ensures Contains(Lower(m), "not found") <==> exists i :: StandsAt(m, "not found", i)
    {
      NotFoundIsLower();
      LowerContains(m, "not found");
    }
  }

  lemma NotFoundIsLower()
    ensures forall k :: 0 <= k < 9 ==> LowerAscii("not found"[k]) == "not found"[k]
  {
  }

  lemma LowerStands(m: string, part: string, i: int)
    requires forall k :: 0 <= k < |part| ==> LowerAscii(part[k]) == part[k]
    ensures OccursIn(Lower(m), part, i) <==> StandsAt(m, part, i)
  {
    if 0 <= i <= |m| - |part| {
      var a, b := Lower(m)[i..i + |part|], m[i..i + |part|];
      assert forall k :: 0 <= k < |part| ==> a[k] == LowerAscii(b[k]);
      NamesMatch(b, part);
      assert a == part <==> EqIgnoreAsciiCase(b, part);
    }
  }

  lemma LowerContains(m: string, part: string)
    requires forall k :: 0 <= k < |part| ==> LowerAscii(part[k]) == part[k]
    ensures Contains(Lower(m), part) <==> exists i :: StandsAt(m, part, i)
  {
    ContainsSomewhere(Lower(m), part);
    forall i: int
      ensures OccursIn(Lower(m), part, i) <==> StandsAt(m, part, i)
    {
      LowerStands(m, part, i);
    }
  }

  function CreateAnswer(zone: string, a: Answer<Option<string>>): Result<string, DnsError> {
    if a.NoAnswer? then Err(TransportFailed)
    else if a.body.None? || !a.body.value.success || a.body.value.result.None? then Err(Rejected)
    else Ok(HandleOf(zone, a.body.value.result.value))
  }

  /** A missing record, by status or by message, counts as deleted. */
  function DeleteAnswer(a: Answer<()>): Result<(), DnsError> {
    if a.NoAnswer? then Err(TransportFailed)
    else if a.status == 404 then Ok(())
    else if a.body.None? then Err(Rejected)
    else if !a.body.value.success && !SaysNotFound(a.body.value.messages) then Err(Rejected)
    else Ok(())
  }

  // ---- the record API ------------------------------------------------------

  type Key = (string, string)   // zone id and record id

  /** The requests the API has handled. One whose answer says nothing may or may not have taken effect;
      `made` and `applied` say whether it did. */
  datatype RecordOp =
    | Created(key: Key, txt: Txt)
    | CreationLost(made: Option<Key>, txt: Txt)
    | Deletion(key: Key, ok: bool, applied: bool)

  predicate Makes(op: RecordOp, key: Key) {
    (op.Created? && op.key == key) || (op.CreationLost? && op.made == Some(key))
  }

  predicate Removes(op: RecordOp, key: Key) {
    op.Deletion? && op.key == key && op.applied
  }

  function LiveAfter(live: map<Key, Txt>, op: RecordOp): map<Key, Txt> {
    match op
    case Created(key, txt) => live[key := txt]
    case CreationLost(made, txt) => if made.Some? then live[made.value := txt] else live
    case Deletion(key, _, applied) => if applied then live - {key} else live
  }

  function IssuedAfter(issued: set<Key>, op: RecordOp): set<Key> {
    match op
    case Created(key, _) => issued + {key}
    case CreationLost(made, _) => if made.Some? then issued + {made.value} else issued
    case Deletion(_, _, _) => issued
  }

  /** The live records after these requests. */
  function LiveOver(ops: seq<RecordOp>): map<Key, Txt> {
    if ops == [] then map[] else LiveAfter(LiveOver(ops[..|ops| - 1]), ops[|ops| - 1])
  }

  function IssuedOver(ops: seq<RecordOp>): set<Key> {
    if ops == [] then {} else IssuedAfter(IssuedOver(ops[..|ops| - 1]), ops[|ops| - 1])
  }

  /** An id is issued once per zone, and a deletion answered with success has taken effect. */
  ghost predicate Fair(issued: set<Key>, op: RecordOp) {
    && (forall key :: Makes(op, key) ==> key !in issued)
    && (op.Deletion? && op.ok ==> op.applied)
  }

  ghost predicate Proper(ops: seq<RecordOp>) {
    ops == [] || (Proper(ops[..|ops| - 1]) && Fair(IssuedOver(ops[..|ops| - 1]), ops[|ops| - 1]))
  }

  lemma OneMore(ops: seq<RecordOp>, op: RecordOp)
    ensures LiveOver(ops + [op]) == LiveAfter(LiveOver(ops), op)
    ensures IssuedOver(ops + [op]) == IssuedAfter(IssuedOver(ops), op)
    ensures Proper(ops + [op]) <==> Proper(ops) && Fair(IssuedOver(ops), op)
  {
    assert (ops + [op])[..|ops|] == ops;
  }

  /** The request that a creation in `zone` with this outcome made of the API. */
  ghost predicate CreationHandled(zone: string, record: Txt, r: Result<string, DnsError>, op: RecordOp) {
    match op
    case Created(key, txt) => key.0 == zone && txt == record && r == Ok(HandleOf(key.0, key.1))
    case CreationLost(made, txt) =>
      && txt == record && (made.Some? ==> made.value.0 == zone)
      && r.Err? && r.error in {TransportFailed, Rejected}
    case Deletion(_, _, _) => false
  }

  lemma {:induction false} LiveIsIssued(ops: seq<RecordOp>)
    ensures LiveOver(ops).Keys <= IssuedOver(ops)
  {
    if ops != [] {
      LiveIsIssued(ops[..|ops| - 1]);
    }
  }

  class RecordApi {
    var live: map<Key, Txt>
    var issued: set<Key>
    ghost var ops: seq<RecordOp>

    ghost predicate Valid()
      reads this
    {
      Proper(ops) && live == LiveOver(ops) && issued == IssuedOver(ops)
    }

    constructor ()
      ensures Valid() && ops == []
    {
      live, issued, ops := map[], {}, [];
    }

    method Handle(op: RecordOp)
      requires Valid() && Fair(issued, op)
      modifies this
      ensures Valid() && ops == old(ops) + [op] && live == LiveAfter(old(live), op)
    {
      OneMore(ops, op);
      live, issued, ops := LiveAfter(live, op), IssuedAfter(issued, op), ops + [op];
    }

    method Create(zone: string, record: Txt) returns (a: Answer<Option<string>>)
      requires Valid()
      modifies this
      ensures Valid() && |ops| == |old(ops)| + 1 && old(ops) <= ops
      ensures var op := ops[|old(ops)|];
              && CreationHandled(zone, record, CreateAnswer(zone, a), op)
              && Fair(old(issued), op) && live == LiveAfter(old(live), op)
    {
      a := Hear();
      var created := CreateAnswer(zone, a);
      if created.Ok? && (zone, a.body.value.result.value) !in issued {
        Handle(Created((zone, a.body.value.result.value), record));
        return;
      }
      if created.Ok? {
        a := NoAnswer;
      }
      var id: string, made: bool := *, *;
      Handle(CreationLost(if made && (zone, id) !in issued then Some((zone, id)) else None, record));
    }

    method Delete(zone: string, id: string) returns (a: Answer<()>, applied: bool)
      requires Valid()
      modifies this
      ensures Valid() && ops == old(ops) + [Deletion((zone, id), DeleteAnswer(a).Ok?, applied)]
      ensures live == (if applied then old(live) - {(zone, id)} else old(live)) && (DeleteAnswer(a).Ok? ==> applied)
      ensures (zone, id) !in old(live) ==> live == old(live) && (DeleteAnswer(a).Ok? || a.NoAnswer?)
    {
      a := Hear();
      if (zone, id) !in live && a.Answer? && DeleteAnswer(a).Err? {
        a := Answer(404, None);
      }
      applied := *;
      applied := applied || DeleteAnswer(a).Ok?;
      Handle(Deletion((zone, id), DeleteAnswer(a).Ok?, applied));
    }

    /** Any requests of anyone. */
    method Others()
      requires Valid()
      modifies this
      ensures Valid() && old(ops) <= ops
    {
      var n: int := *;
      while n > 0
        invariant Valid() && old(ops) <= ops
      {
        var create: bool, zone: string, id: string, name: string := *, *, *, *;
        if create {
          var _ := Create(zone, Txt(name, id, DEFAULT_TTL_SECONDS));
        } else {
          var _, _ := Delete(zone, id);
        }
        n := n - 1;
      }
    }
  }

  // ---- what is live --------------------------------------------------------

  lemma {:induction false} MadeIsIssued(ops: seq<RecordOp>, i: nat, key: Key)
    requires i < |ops| && Makes(ops[i], key)
    ensures key in IssuedOver(ops)
  {
    if i < |ops| - 1 {
      MadeIsIssued(ops[..|ops| - 1], i, key);
    }
  }

  /** No record is made twice. */
  lemma {:induction false} MadeOnce(ops: seq<RecordOp>, i: nat, j: nat, key: Key)
    requires Proper(ops) && i < j < |ops| && Makes(ops[i], key)
    ensures !Makes(ops[j], key)
  {
    if j < |ops| - 1 {
      MadeOnce(ops[..|ops| - 1], i, j, key);
    } else {
      MadeIsIssued(ops[..|ops| - 1], i, key);
    }
  }

  /** The record was made at `i` and not removed since. */
  ghost predicate Stands(ops: seq<RecordOp>, key: Key, i: int) {
    0 <= i < |ops| && Makes(ops[i], key) && forall j :: i < j < |ops| ==> !Removes(ops[j], key)
  }

  /** A record is live exactly if it was made and not removed since, with the contents it was made with. */
  lemma {:induction false} LiveExactly(ops: seq<RecordOp>, key: Key)
    requires Proper(ops)
    ensures key in LiveOver(ops) <==> exists i :: Stands(ops, key, i)
    ensures forall i :: Stands(ops, key, i) ==> key in LiveOver(ops) && LiveOver(ops)[key] == ops[i].txt
  {
    if ops != [] {
      var before, last := ops[..|ops| - 1], |ops| - 1;
      LiveExactly(before, key);
      assert forall i :: 0 <= i < last ==> before[i] == ops[i];
      forall i | 0 <= i < last
        ensures Stands(ops, key, i) <==> Stands(before, key, i) && !Removes(ops[last], key)
      {
      }
      if Makes(ops[last], key) {
        assert Stands(ops, key, last);
        forall i | 0 <= i < last
          ensures !Makes(ops[i], key)
        {
          if Makes(ops[i], key) {
            MadeOnce(ops, i, last, key);
          }
        }
      } else {
        assert !Stands(ops, key, last);
      }
    }
  }

  /** A deletion of the record made at `i` was answered with success. */
  ghost predicate DeletedAfter(ops: seq<RecordOp>, i: int) {
    exists j :: 0 <= i < j < |ops| && ops[j].Deletion? && ops[i].Created? && ops[j].key == ops[i].key && ops[j].ok
  }

  /** Nobody has asked to delete the record made at `i`. */
  ghost predicate Untouched(ops: seq<RecordOp>, i: int)
    requires 0 <= i < |ops| && ops[i].Created?
  {
    forall j :: i < j < |ops| && ops[j].Deletion? ==> ops[j].key != ops[i].key
  }

  /** Whatever was created and deleted in whatever order, with answers lost: a record created with success
      is live, with its contents, until its deletion is asked for; it is not live once a deletion was
      answered with success; and no record is live that was neither created so nor by a lost creation. */
  lemma LiveAreCreatedNotDeleted(ops: seq<RecordOp>, i: nat)
    requires Proper(ops) && i < |ops| && ops[i].Created?
    ensures Untouched(ops, i) ==> ops[i].key in LiveOver(ops) && LiveOver(ops)[ops[i].key] == ops[i].txt
    ensures DeletedAfter(ops, i) ==> ops[i].key !in LiveOver(ops)
    ensures forall key :: key in LiveOver(ops) ==>
              exists k :: 0 <= k < |ops| && Makes(ops[k], key) && LiveOver(ops)[key] == ops[k].txt
  {
    var mine := ops[i].key;
    LiveExactly(ops, mine);
    if Untouched(ops, i) {
      assert Stands(ops, mine, i);
    }
    if DeletedAfter(ops, i) {
      NotLiveAgain(ops, i);
    }
    forall key | key in LiveOver(ops)
      ensures exists k :: 0 <= k < |ops| && Makes(ops[k], key) && LiveOver(ops)[key] == ops[k].txt
    {
      LiveExactly(ops, key);
      var k :| Stands(ops, key, k);
    }
  }

  /** Once its deletion was answered with success a record never comes back. */
  lemma NotLiveAgain(ops: seq<RecordOp>, i: nat)
    requires Proper(ops) && DeletedAfter(ops, i)
    ensures ops[i].key !in LiveOver(ops)
  {
    var key := ops[i].key;
    var j :| i < j < |ops| && ops[j].Deletion? && ops[j].key == key && ops[j].ok;
    FairAt(ops, j);
    assert Removes(ops[j], key);
    LiveExactly(ops, key);
    forall k
      ensures !Stands(ops, key, k)
    {
      if i < k < |ops| {
        MadeOnce(ops, i, k, key);
      }
    }
  }

  /** Deleting it again, whatever comes of it, changes nothing. */
  lemma RepeatedDelete(ops: seq<RecordOp>, i: nat, ok: bool, applied: bool)
    requires Proper(ops) && DeletedAfter(ops, i)
    ensures LiveOver(ops + [Deletion(ops[i].key, ok, applied)]) == LiveOver(ops)
  {
    NotLiveAgain(ops, i);
    OneMore(ops, Deletion(ops[i].key, ok, applied));
  }

  lemma {:induction false} FairAt(ops: seq<RecordOp>, j: nat)
    requires Proper(ops) && j < |ops|
    ensures Fair(IssuedOver(ops[..j]), ops[j])
  {
    if j < |ops| - 1 {
      FairAt(ops[..|ops| - 1], j);
      assert ops[..|ops| - 1][..j] == ops[..j];
    }
  }

  /** When every request is answered with success, the live records are exactly those created and not
      deleted since. */
  lemma AllAnswered(ops: seq<RecordOp>, key: Key)
    requires Proper(ops)
    requires forall j :: 0 <= j < |ops| ==> ops[j].Created? || (ops[j].Deletion? && ops[j].ok)
    ensures key in LiveOver(ops) <==>
            exists i :: 0 <= i < |ops| && ops[i].Created? && ops[i].key == key && Untouched(ops, i)
  {
    LiveExactly(ops, key);
    forall i | 0 <= i < |ops| && ops[i].Created? && ops[i].key == key
      ensures Stands(ops, key, i) <==> Untouched(ops, i)
    {
      forall j | i < j < |ops|
        ensures Removes(ops[j], key) <==> ops[j].Deletion? && ops[j].key == key
      {
        FairAt(ops, j);
      }
    }
  }

  // ---- the provider --------------------------------------------------------

  class CloudflareProvider {
    var lookup: ZoneLookup
    ghost var history: seq<Lookup>   // every lookup, with the answer the API had for it
    ghost var asked: seq<Lookup>     // those that sent a GET

    ghost predicate Valid()
      reads this
    {
      lookup.ByName? ==> lookup.cache == CacheOver(history) && asked == Asked(history)
    }

    constructor (lookup: ZoneLookup)
      requires lookup.ByName? ==> lookup.cache == map[]
      ensures Valid() && this.lookup == lookup && history == [] && asked == []
    {
      this.lookup, history, asked := lookup, [], [];
    }

    /** What a zone lookup for `name` came to: the static map, or the cached lookup with at most one GET. */
    twostate predicate Resolves(name: string, new r: Result<string, DnsError>)
      reads this
    {
      && Valid()
      && (old(lookup).Static? ==>
            && lookup == old(lookup) && asked == old(asked)
            && r == if Apex(name) in lookup.zones then Ok(lookup.zones[Apex(name)]) else Err(ZoneNotFound(Apex(name))))
      && (old(lookup).ByName? ==>
            && |history| == |old(history)| + 1 && old(history) <= history
            && var l := history[|old(history)|];
               && l.apex == Apex(name) && r == Cached(old(lookup).cache, l)
               && lookup == ByName(CacheAfter(old(lookup).cache, l))
               && asked == old(asked) + if l.apex in old(lookup).cache then [] else [l])
    }

    /** `resolve_zone_id`. */
    method ResolveZoneId(name: string) returns (r: Result<string, DnsError>)
      requires Valid()
      modifies this
      ensures Resolves(name, r)
    {
      var apex := Apex(name);
      match lookup
      case Static(zones) =>
        return if apex in zones then Ok(zones[apex]) else Err(ZoneNotFound(apex));
      case ByName(cache) =>
        var answer: Answer<seq<string>> := Hear();
        ghost var l := Lookup(apex, answer);
        assert (history + [l])[..|history|] == history;
        history := history + [l];
        if apex in cache {
          assert asked + [] == asked;
          return Ok(cache[apex]);
        }
        asked := asked + [l];
        if answer.NoAnswer? {
          return Err(TransportFailed);
        }
        if answer.body.None? || !answer.body.value.success {
          return Err(Rejected);
        }
        if answer.body.value.result == [] {
          return Err(ZoneNotFound(apex));
        }
        var id := answer.body.value.result[0];
        lookup := ByName(cache[apex := id]);
        return Ok(id);
    }

    /** `upsert_txt`: always creates, never replaces; the handle carries the zone and the record id. A failed
        zone lookup sends nothing. */
    method UpsertTxt(name: string, value: string, ttl: nat, api: RecordApi)
      returns (r: Result<string, DnsError>, ghost zone: Result<string, DnsError>)
      requires Valid() && api.Valid()
      modifies this, api
      ensures api.Valid() && Resolves(name, zone)
      ensures zone.Err? ==> r == Err(zone.error) && api.ops == old(api.ops) && api.live == old(api.live)
      ensures zone.Ok? ==>
                && |api.ops| == |old(api.ops)| + 1 && old(api.ops) <= api.ops
                && var op := api.ops[|old(api.ops)|];
                   && CreationHandled(zone.value, Txt(name, value, TtlOrDefault(ttl)), r, op)
                   && Fair(old(api.issued), op) && api.live == LiveAfter(old(api.live), op)
    {
      var found := ResolveZoneId(name);
      zone := found;
      if found.Err? {
        return Err(found.error), zone;
      }
      var a := api.Create(found.value, Txt(name, value, if ttl == 0 then DEFAULT_TTL_SECONDS else ttl));
      if a.NoAnswer? {
        return Err(TransportFailed), zone;
      }
      if a.body.None? {
        return Err(Rejected), zone;
      }
      if !a.body.value.success {
        return Err(Rejected), zone;
      }
      var created := a.body.value.result;
      if created.None? {
        return Err(Rejected), zone;
      }
      return Ok(found.value + "/" + created.value), zone;
    }

    /** `delete_txt`: no second zone lookup, the handle says where the record is. A record that is not there
        counts as deleted, so deleting a created record again succeeds whenever the API answers. */
    method DeleteTxt(handle: string, api: RecordApi) returns (r: Result<(), DnsError>, ghost applied: bool)
      requires api.Valid()
      modifies api
      ensures api.Valid()
      ensures SplitOnce(handle).None? ==> r == Err(Rejected) && api.ops == old(api.ops) && api.live == old(api.live)
      ensures SplitOnce(handle).Some? ==>
                var key := SplitOnce(handle).value;
                && api.ops == old(api.ops) + [Deletion(key, r.Ok?, applied)]
                && api.live == (if applied then old(api.live) - {key} else old(api.live)) && (r.Ok? ==> applied)
                && (key !in old(api.live) ==> api.live == old(api.live) && (r.Ok? || r == Err(TransportFailed)))
      ensures forall i :: DeletedAfter(old(api.ops), i) && '/' !in old(api.ops)[i].key.0
                          && handle == HandleOf(old(api.ops)[i].key.0, old(api.ops)[i].key.1) ==>
                            api.live == old(api.live) && (r.Ok? || r == Err(TransportFailed))
    {
      var split := SplitOnce(handle);
      forall i | DeletedAfter(api.ops, i) && '/' !in api.ops[i].key.0
                 && handle == HandleOf(api.ops[i].key.0, api.ops[i].key.1)
        ensures split == Some(api.ops[i].key) && api.ops[i].key !in api.live
      {
        NotLiveAgain(api.ops, i);
        HandleRoundTrip(api.ops[i].key.0, api.ops[i].key.1);
      }
      applied := false;
      if split.None? {
        return Err(Rejected), applied;
      }
      var a;
      a, applied := api.Delete(split.value.0, split.value.1);
      if a.NoAnswer? {
        return Err(TransportFailed), applied;
      }
      if a.status == 404 {
        return Ok(()), applied;
      }
      if a.body.None? {
        return Err(Rejected), applied;
      }
      if !a.body.value.success {
        return if SaysNotFound(a.body.value.messages) then Ok(()) else Err(Rejected), applied;
      }
      return Ok(()), applied;
    }
  }

  /** The callback of `with_provisioned_record`: it sees the record, may use the API, and comes to a verdict. */
  method Callback<T(0)>(record: Txt, api: RecordApi) returns (verdict: Result<T, DnsError>)
    requires api.Valid()
    modifies api
    ensures api.Valid() && old(api.ops) <= api.ops
  {
    api.Others();
    verdict := *;
  }

  /** The deletion that ends `with_provisioned_record`: of the record made, if its zone id has no slash. */
  ghost predicate Retracted(during: seq<RecordOp>, after: seq<RecordOp>, made: RecordOp, cleaned: bool) {
    && made.Created? && |after| == |during| + 1 && during <= after
    && var op := after[|during|];
       op.Deletion? && op.ok == cleaned && ('/' !in made.key.0 ==> op.key == made.key)
  }

  /** Deleting the record that was just made brings back the records of before. */
  lemma RetractionRestores(before: seq<RecordOp>, made: RecordOp, after: seq<RecordOp>)
    requires made.Created? && '/' !in made.key.0 && Proper(after) && before + [made] <= after
    requires Retracted(after[..|after| - 1], after, made, true)
    ensures made.key !in LiveOver(after)
    ensures |after| == |before| + 2 ==> LiveOver(after) == LiveOver(before)
  {
    var during, op := after[..|after| - 1], after[|after| - 1];
    assert during == after[..|during|];
    if |after| == |before| + 2 {
      assert during == before + [made];
      OneMore(before, made);
      LiveIsIssued(before);
      assert Makes(made, made.key) && made.key !in LiveOver(before);
      assert LiveOver(before)[made.key := made.txt] - {made.key} == LiveOver(before);
    }
  }

  method Retract(provider: CloudflareProvider, handle: string, api: RecordApi, ghost made: RecordOp)
    returns (cleaned: bool)
    requires api.Valid() && made.Created? && handle == HandleOf(made.key.0, made.key.1)
    modifies api
    ensures api.Valid() && Retracted(old(api.ops), api.ops, made, cleaned)
  {
    HandleRoundTrip(made.key.0, made.key.1);
    HandlesSplit(made.key.0, made.key.1);
    var deleted, _ := provider.DeleteTxt(handle, api);
    cleaned := deleted.Ok?;
  }

  /** `with_provisioned_record`: publish, call back, delete, and return the verdict whether or not the
      deletion went through. `during` are the API's requests up to the end of the callback. */
  method WithProvisionedRecord<T(0)>(provider: CloudflareProvider, identifier: string, value: string, api: RecordApi)
    returns (r: Result<T, DnsError>, ghost zone: Result<string, DnsError>, ghost verdict: Option<Result<T, DnsError>>,
             ghost during: seq<RecordOp>, cleaned: bool)
    requires provider.Valid() && api.Valid()
    modifies provider, api
    ensures provider.Valid() && api.Valid()
    ensures verdict.Some? ==> r == verdict.value
    ensures verdict.None? && zone.Err? ==> r == Err(zone.error) && api.ops == old(api.ops)
    ensures verdict.None? && zone.Ok? ==>
              && |api.ops| == |old(api.ops)| + 1 && old(api.ops) <= api.ops && r.Err?
              && CreationHandled(zone.value, Txt(RecordName(identifier), value, DEFAULT_TTL_SECONDS), Err(r.error),
                                 api.ops[|old(api.ops)|])
    ensures verdict.Some? ==>
              && |old(api.ops)| < |during| && old(api.ops) <= during
              && var made := during[|old(api.ops)|];
                 && made.Created? && made.txt == Txt(RecordName(identifier), value, DEFAULT_TTL_SECONDS)
                 && Retracted(during, api.ops, made, cleaned)
                 && (cleaned && '/' !in made.key.0 ==>
                       && made.key !in api.live
                       && (|during| == |old(api.ops)| + 1 ==> api.live == old(api.live)))
  {
    verdict, during, cleaned := None, [], false;
    ghost var before := api.ops;
    var handle;
    handle, zone := provider.UpsertTxt(RecordName(identifier), value, DEFAULT_TTL_SECONDS, api);
    if handle.Err? {
      return Err(handle.error), zone, verdict, during, cleaned;
    }
    ghost var made := api.ops[|before|];
    assert before + [made] == api.ops;
    r := Callback(Txt(RecordName(identifier), value, DEFAULT_TTL_SECONDS), api);
    verdict, during := Some(r), api.ops;
    cleaned := Retract(provider, handle.value, api, made);
    if cleaned && '/' !in made.key.0 {
      assert api.ops[..|api.ops| - 1] == during;
      RetractionRestores(before, made, api.ops);
    }
  }
}
