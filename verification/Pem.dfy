/** Splitting a PEM chain into certificate blocks: `certificate::split_pem_chain` of the core and
    the harness's own `split_pem_certs`.

    `Blocks` is the reference meaning: repeatedly cut at the first BEGIN and the first END at or
    after it. END is searched from the start of BEGIN, so the two markers may share dashes. */
module Pem {
  import opened Wrappers
  import Utf8

  datatype RawMarkers = Markers(begin: seq<byte>, end: seq<byte>)
  type Markers = m: RawMarkers | m.begin != [] && m.end != [] witness Markers([0], [0])

  /** "-----BEGIN CERTIFICATE-----" and "-----END CERTIFICATE-----" */
  const CERTIFICATE: Markers := Markers(
    [45, 45, 45, 45, 45, 66, 69, 71, 73, 78, 32, 67, 69, 82, 84, 73, 70, 73, 67, 65, 84, 69, 45, 45, 45, 45, 45],
    [45, 45, 45, 45, 45, 69, 78, 68, 32, 67, 69, 82, 84, 73, 70, 73, 67, 65, 84, 69, 45, 45, 45, 45, 45])

  const NEWLINE: byte := 10

  type Block = seq<byte>

  // ---- first-occurrence search ---------------------------------------------

  predicate OccursAt(h: seq<byte>, needle: seq<byte>, i: int) {
    0 <= i <= |h| - |needle| && h[i..i + |needle|] == needle
  }

  /** What `Some(i)` and `None` of a search from `from` mean. */
  ghost predicate IsFirst(h: seq<byte>, needle: seq<byte>, from: int, r: Option<nat>) {
    match r
    case None => forall k :: from <= k ==> !OccursAt(h, needle, k)
    case Some(i) => from <= i && OccursAt(h, needle, i) && forall k :: from <= k < i ==> !OccursAt(h, needle, k)
  }

  function First(h: seq<byte>, needle: seq<byte>, from: nat): (r: Option<nat>)
    ensures r.Some? ==> from <= r.value <= |h| - |needle|
    decreases |h| - from
  {
    if from + |needle| > |h| then None
    else if OccursAt(h, needle, from) then Some(from)
    else if from == |h| then None
    else First(h, needle, from + 1)
  }

  lemma {:induction false} FirstIsFirst(h: seq<byte>, needle: seq<byte>, from: nat)
    ensures IsFirst(h, needle, from, First(h, needle, from))
    decreases |h| - from
  {
    if from + |needle| <= |h| && !OccursAt(h, needle, from) && from < |h| {
      FirstIsFirst(h, needle, from + 1);
    }
  }

  lemma FirstUnique(h: seq<byte>, needle: seq<byte>, from: nat, r: Option<nat>)
    requires IsFirst(h, needle, from, r)
    ensures First(h, needle, from) == r
  {
    FirstIsFirst(h, needle, from);
    var f := First(h, needle, from);
    if f.Some? && r.Some? {
      assert !(f.value < r.value) && !(r.value < f.value);
    }
  }

  /** `find`: the guard against short haystacks, then a scan over the windows. */
  method Find(h: seq<byte>, needle: seq<byte>, from: nat) returns (r: Option<nat>)
    ensures needle != [] ==> r == First(h, needle, from)
    ensures needle == [] ==> r == None
  {
    if from >= |h| || needle == [] || |needle| > |h| - from {
      return None;
    }
    r := Windows(h[from..], needle);
    FirstInSuffix(h, needle, from, 0);
    if r.Some? {
      r := Some(r.value + from);
    }
  }

  /** `windows(n).position(..)`: the first window equal to the needle. */
  method Windows(h: seq<byte>, needle: seq<byte>) returns (r: Option<nat>)
    ensures r == First(h, needle, 0)
  {
    var off := 0;
    while off + |needle| <= |h|
      invariant 0 <= off <= |h| + 1
      invariant forall k :: 0 <= k < off ==> !OccursAt(h, needle, k)
    {
      if h[off..off + |needle|] == needle {
        FirstUnique(h, needle, 0, Some(off));
        return Some(off);
      }
      off := off + 1;
    }
    FirstUnique(h, needle, 0, None);
    return None;
  }

  lemma SliceOfSlice(s: seq<byte>, lo: nat, hi: nat, k: nat, n: nat)
    requires lo + k + n <= hi <= |s|
    ensures s[lo..hi][k..k + n] == s[lo + k..lo + k + n]
  {
    var a, b := s[lo..hi][k..k + n], s[lo + k..lo + k + n];
    assert |a| == |b| == n;
    assert forall i :: 0 <= i < n ==> a[i] == s[lo..hi][k + i] == s[lo + k + i] == b[i];
  }

  lemma SliceOfFront(a: seq<byte>, b: seq<byte>, k: nat, n: nat)
    requires k + n <= |a|
    ensures (a + b)[k..k + n] == a[k..k + n]
  {
  }

  lemma OccursInSuffix(s: seq<byte>, needle: seq<byte>, cut: nat, k: int)
    requires cut <= |s| && cut <= k
    ensures OccursAt(s, needle, k) <==> OccursAt(s[cut..], needle, k - cut)
  {
    if 0 <= k <= |s| - |needle| {
      assert s[cut..][k - cut..k - cut + |needle|] == s[k..k + |needle|];
    } else {
      assert k - cut > |s[cut..]| - |needle|;
    }
  }

  lemma OccursInFront(a: seq<byte>, b: seq<byte>, needle: seq<byte>, k: nat)
    requires k + |needle| <= |a|
    ensures OccursAt(a + b, needle, k) <==> OccursAt(a, needle, k)
  {
    SliceOfFront(a, b, k, |needle|);
  }

  function Shift(r: Option<nat>, d: nat): Option<nat> {
    match r case None => None case Some(i) => Some(i + d)
  }

  /** Searching a suffix and searching from a cursor find the same place. */
  lemma FirstInSuffix(s: seq<byte>, needle: seq<byte>, cut: nat, k: nat)
    requires cut <= |s|
    ensures First(s, needle, cut + k) == Shift(First(s[cut..], needle, k), cut)
  {
    FirstIsFirst(s[cut..], needle, k);
    var r := First(s[cut..], needle, k);
    SuffixIsFirst(s, needle, cut, cut + k, r, Shift(r, cut));
    FirstUnique(s, needle, cut + k, Shift(r, cut));
  }

  lemma SuffixIsFirst(s: seq<byte>, needle: seq<byte>, cut: nat, from: nat, r: Option<nat>, shifted: Option<nat>)
    requires cut <= from && cut <= |s| && IsFirst(s[cut..], needle, from - cut, r)
    requires shifted == Shift(r, cut)
    ensures IsFirst(s, needle, from, shifted)
  {
    if r.Some? {
      OccursInSuffix(s, needle, cut, r.value + cut);
    }
    forall k: int | from <= k && (r.Some? ==> k < r.value + cut)
      ensures !OccursAt(s, needle, k)
    {
      OccursInSuffix(s, needle, cut, k);
      assert !OccursAt(s[cut..], needle, k - cut);
    }
  }

  // ---- the reference segmentation ------------------------------------------

  datatype Span = Span(start: nat, end: nat)

  predicate Within(s: seq<byte>, p: Span) {
    p.start <= p.end <= |s|
  }

  /** The first certificate at or after `from`. */
  function Next(m: Markers, s: seq<byte>, from: nat): (r: Option<Span>)
    ensures r.Some? ==> from <= r.value.start < r.value.end <= |s|
  {
    match First(s, m.begin, from)
    case None => None
    case Some(b) =>
      match First(s, m.end, b)
      case None => None
      case Some(e) => Some(Span(b, e + |m.end|))
  }

  function BlockOf(s: seq<byte>, p: Span): Block
    requires Within(s, p)
  {
    s[p.start..p.end] + [NEWLINE]
  }

  function Blocks(m: Markers, s: seq<byte>): (r: seq<Block>)
    decreases |s|
  {
    match Next(m, s, 0)
    case None => []
    case Some(p) => [BlockOf(s, p)] + Blocks(m, s[p.end..])
  }

  function SplitChain(pem: seq<byte>): seq<Block> {
    if Utf8.Valid(pem) then Blocks(CERTIFICATE, pem) else []
  }

  function SplitCerts(pem: seq<byte>): seq<Block> {
    if Blocks(CERTIFICATE, pem) == [] then [pem] else Blocks(CERTIFICATE, pem)
  }

  lemma NextBySearch(m: Markers, s: seq<byte>, from: nat, b: Option<nat>, e: Option<nat>)
    requires b == First(s, m.begin, from) && (if b.Some? then e == First(s, m.end, b.value) else e.None?)
    ensures Next(m, s, from) == if e.None? then None else Some(Span(b.value, e.value + |m.end|))
  {
  }

  /** And the same certificate. */
  lemma NextInSuffix(m: Markers, s: seq<byte>, cut: nat)
    requires cut <= |s|
    ensures Next(m, s, cut).None? <==> Next(m, s[cut..], 0).None?
    ensures Next(m, s, cut).Some? ==>
              var p, q := Next(m, s, cut).value, Next(m, s[cut..], 0).value;
              p.start == q.start + cut && p.end == q.end + cut
  {
    var begin := First(s[cut..], m.begin, 0);
    FirstInSuffix(s, m.begin, cut, 0);
    if begin.None? {
      NextBySearch(m, s[cut..], 0, None, None);
      NextBySearch(m, s, cut, None, None);
    } else {
      var end := First(s[cut..], m.end, begin.value);
      FirstInSuffix(s, m.end, cut, begin.value);
      NextBySearch(m, s[cut..], 0, begin, end);
      NextBySearch(m, s, cut, Shift(begin, cut), Shift(end, cut));
    }
  }

  lemma BlockOfSuffix(s: seq<byte>, cut: nat, p: Span)
    requires cut <= p.start && Within(s, p)
    ensures BlockOf(s[cut..], Span(p.start - cut, p.end - cut)) == BlockOf(s, p)
    ensures s[cut..][p.end - cut..] == s[p.end..]
  {
    assert s[cut..][p.start - cut..p.end - cut] == s[p.start..p.end];
  }

  /** Unfolds the reference splitter at a cursor of the whole text. */
  lemma BlocksAt(m: Markers, s: seq<byte>, cursor: nat)
    requires cursor <= |s|
    ensures Blocks(m, s[cursor..]) ==
            match Next(m, s, cursor)
            case None => []
            case Some(p) => [BlockOf(s, p)] + Blocks(m, s[p.end..])
  {
    NextInSuffix(m, s, cursor);
    var next := Next(m, s, cursor);
    if next.Some? {
      BlockOfSuffix(s, cursor, next.value);
    }
  }

  /** The two `find` calls of one turn of `split_pem_chain`. */
  method FindCertificate(m: Markers, text: seq<byte>, cursor: nat) returns (r: Option<Span>)
    ensures r == Next(m, text, cursor)
  {
    var begin := Find(text, m.begin, cursor);
    if begin.None? {
      return None;
    }
    var end := Find(text, m.end, begin.value);
    if end.None? {
      return None;
    }
    return Some(Span(begin.value, end.value + |m.end|));
  }

  /** The cursor loop of `certificate::split_pem_chain`. */
  method SplitLoop(m: Markers, text: seq<byte>) returns (out: seq<Block>)
    ensures out == Blocks(m, text)
  {
    out := [];
    var cursor := 0;
    assert text[0..] == text;
    while true
      invariant 0 <= cursor <= |text|
      invariant out + Blocks(m, text[cursor..]) == Blocks(m, text)
      decreases |text| - cursor
    {
      BlocksAt(m, text, cursor);
      var found := FindCertificate(m, text, cursor);
      if found.None? { break; }
      out := out + [text[found.value.start..found.value.end] + [NEWLINE]];
      cursor := found.value.end;
    }
  }

  /** `certificate::split_pem_chain`. */
  method SplitPemChain(pem: seq<byte>) returns (out: seq<Block>)
    ensures out == SplitChain(pem)
  {
    if !Utf8.Valid(pem) {
      return [];
    }
    out := SplitLoop(CERTIFICATE, pem);
  }

  /** A window search on the slice from `from` on. */
  method WindowsFrom(pem: seq<byte>, needle: seq<byte>, from: nat) returns (r: Option<nat>)
    requires from <= |pem|
    ensures r == First(pem, needle, from)
  {
    r := Windows(pem[from..], needle);
    FirstInSuffix(pem, needle, from, 0);
    if r.Some? {
      r := Some(r.value + from);
    }
  }

  /** The two window searches of one turn of `split_pem_certs`. */
  method FindBySlices(m: Markers, pem: seq<byte>, cursor: nat) returns (r: Option<Span>)
    requires cursor <= |pem|
    ensures r == Next(m, pem, cursor)
  {
    var begin := WindowsFrom(pem, m.begin, cursor);
    if begin.None? {
      return None;
    }
    var end := WindowsFrom(pem, m.end, begin.value);
    if end.None? {
      return None;
    }
    return Some(Span(begin.value, end.value + |m.end|));
  }

  /** The loop of the harness's `split_pem_certs`. */
  method SplitCertsLoop(m: Markers, pem: seq<byte>) returns (out: seq<Block>)
    ensures out == Blocks(m, pem)
  {
    out := [];
    var cursor := 0;
    assert pem[0..] == pem;
    while true
      invariant 0 <= cursor <= |pem|
      invariant out + Blocks(m, pem[cursor..]) == Blocks(m, pem)
      decreases |pem| - cursor
    {
      BlocksAt(m, pem, cursor);
      var found := FindBySlices(m, pem, cursor);
      if found.None? { break; }
      out := out + [pem[found.value.start..found.value.end] + [NEWLINE]];
      cursor := found.value.end;
    }
  }

  /** The harness's `split_pem_certs`: no UTF-8 gate, and the whole input when nothing is found. */
  method SplitPemCerts(pem: seq<byte>) returns (out: seq<Block>)
    ensures out == SplitCerts(pem)
  {
    out := SplitCertsLoop(CERTIFICATE, pem);
    if out == [] {
      out := [pem];
    }
  }

  // ---- the unique leftmost segmentation ------------------------------------

  function Cut(s: seq<byte>, spans: seq<Span>): (r: seq<Block>)
    requires forall p :: p in spans ==> Within(s, p)
    ensures |r| == |spans| && forall k :: 0 <= k < |spans| ==> r[k] == BlockOf(s, spans[k])
  {
    if spans == [] then [] else [BlockOf(s, spans[0])] + Cut(s, spans[1..])
  }

  /** `p` starts with BEGIN and stops with the first END at or after that start. */
  ghost predicate IsCertificate(m: Markers, s: seq<byte>, p: Span) {
    && OccursAt(s, m.begin, p.start) && p.end >= |m.end|
    && IsFirst(s, m.end, p.start, Some(p.end - |m.end|))
  }

  ghost predicate NoBegin(m: Markers, s: seq<byte>, from: int, to: int) {
    forall i :: from <= i < to ==> !OccursAt(s, m.begin, i)
  }

  /** No BEGIN at or after `from` is followed by an END. */
  ghost predicate NoCertificate(m: Markers, s: seq<byte>, from: int) {
    forall i, j :: from <= i <= j ==> !(OccursAt(s, m.begin, i) && OccursAt(s, m.end, j))
  }

  /** Ordered disjoint certificates of `s` at or past `from`, no BEGIN in any gap before one of
      them, and in the tail no BEGIN that an END follows. */
  ghost predicate IsSegmentation(m: Markers, s: seq<byte>, from: int, spans: seq<Span>)
    decreases |spans|
  {
    if spans == [] then NoCertificate(m, s, from)
    else
      && Within(s, spans[0]) && IsCertificate(m, s, spans[0])
      && from <= spans[0].start && NoBegin(m, s, from, spans[0].start)
      && IsSegmentation(m, s, spans[0].end, spans[1..])
  }

  /** The spans the cursor loop visits from `from` on. */
  function Spans(m: Markers, s: seq<byte>, from: nat): (r: seq<Span>)
    ensures forall p :: p in r ==> Within(s, p)
    decreases |s| - from
  {
    match Next(m, s, from)
    case None => []
    case Some(p) => [p] + Spans(m, s, p.end)
  }

  lemma {:induction false} SpansAreBlocks(m: Markers, s: seq<byte>, from: nat)
    requires from <= |s|
    ensures Cut(s, Spans(m, s, from)) == Blocks(m, s[from..])
    decreases |s| - from
  {
    BlocksAt(m, s, from);
    var next := Next(m, s, from);
    if next.Some? {
      var p := next.value;
      SpansAreBlocks(m, s, p.end);
      var spans := Spans(m, s, from);
      assert spans[0] == p && spans[1..] == Spans(m, s, p.end);
    }
  }

  lemma NoneIsNoCertificate(m: Markers, s: seq<byte>, from: nat)
    requires Next(m, s, from).None?
    ensures NoCertificate(m, s, from)
  {
    var b := First(s, m.begin, from);
    FirstIsFirst(s, m.begin, from);
    if b.Some? {
      FirstIsFirst(s, m.end, b.value);
    }
    forall i, j | from <= i <= j && OccursAt(s, m.begin, i)
      ensures !OccursAt(s, m.end, j)
    {
      assert b.Some? && b.value <= i;
    }
  }

  lemma SomeIsCertificate(m: Markers, s: seq<byte>, from: nat)
    requires Next(m, s, from).Some?
    ensures var p := Next(m, s, from).value; IsCertificate(m, s, p) && NoBegin(m, s, from, p.start)
  {
    FirstIsFirst(s, m.begin, from);
    FirstIsFirst(s, m.end, First(s, m.begin, from).value);
  }

  lemma SpansUnfold(m: Markers, s: seq<byte>, from: nat, p: Span)
    requires Next(m, s, from) == Some(p)
    ensures Spans(m, s, from)[0] == p && Spans(m, s, from)[1..] == Spans(m, s, p.end)
  {
  }

  lemma {:induction false} SpansSegment(m: Markers, s: seq<byte>, from: nat)
    ensures IsSegmentation(m, s, from, Spans(m, s, from))
    decreases |s| - from
  {
    var next := Next(m, s, from);
    if next.None? {
      NoneIsNoCertificate(m, s, from);
    } else {
      SomeIsCertificate(m, s, from);
      SpansSegment(m, s, next.value.end);
      SpansUnfold(m, s, from, next.value);
    }
  }

  lemma NextUnique(m: Markers, s: seq<byte>, from: nat, p: Span)
    requires Within(s, p) && IsCertificate(m, s, p) && from <= p.start && NoBegin(m, s, from, p.start)
    ensures Next(m, s, from) == Some(p)
  {
    FirstUnique(s, m.begin, from, Some(p.start));
    FirstUnique(s, m.end, p.start, Some(p.end - |m.end|));
  }

  lemma NoNext(m: Markers, s: seq<byte>, from: nat)
    requires NoCertificate(m, s, from)
    ensures Next(m, s, from) == None
  {
    FirstIsFirst(s, m.begin, from);
    var b := First(s, m.begin, from);
    if b.Some? {
      FirstIsFirst(s, m.end, b.value);
    }
  }

  lemma {:induction false} SegmentationUnique(m: Markers, s: seq<byte>, from: nat, spans: seq<Span>)
    requires IsSegmentation(m, s, from, spans)
    ensures spans == Spans(m, s, from)
    decreases |spans|
  {
    if spans == [] {
      NoNext(m, s, from);
    } else {
      var p, rest := spans[0], spans[1..];
      NextUnique(m, s, from, p);
      SegmentationUnique(m, s, p.end, rest);
      SpansUnfold(m, s, from, p);
      assert spans == [p] + rest && Spans(m, s, from) == [p] + rest;
    }
  }

  /** Past its UTF-8 gate the splitter computes the one leftmost segmentation of its input. */
  lemma SplitChainIsTheSegmentation(pem: seq<byte>)
    requires Utf8.Valid(pem)
    ensures exists spans :: IsSegmentation(CERTIFICATE, pem, 0, spans)
    ensures forall spans :: IsSegmentation(CERTIFICATE, pem, 0, spans) ==>
              (forall p :: p in spans ==> Within(pem, p)) && SplitChain(pem) == Cut(pem, spans)
  {
    SpansSegment(CERTIFICATE, pem, 0);
    SpansAreBlocks(CERTIFICATE, pem, 0);
    assert pem[0..] == pem;
    forall spans | IsSegmentation(CERTIFICATE, pem, 0, spans)
      ensures spans == Spans(CERTIFICATE, pem, 0)
    {
      SegmentationUnique(CERTIFICATE, pem, 0, spans);
    }
  }

  // ---- splitting again -----------------------------------------------------

  /** A block as the splitter makes it: BEGIN, a first END, and nothing after it but the newline. */
  ghost predicate IsBlock(m: Markers, b: Block) {
    && |b| > |m.begin| && |b| > |m.end| && b[|b| - 1] == NEWLINE
    && OccursAt(b, m.begin, 0)
    && IsFirst(b, m.end, 0, Some(|b| - 1 - |m.end|))
  }

  /** Up to its newline a block reads like the text it was cut from. */
  lemma OccursInBlock(s: seq<byte>, p: Span, needle: seq<byte>, k: nat)
    requires Within(s, p) && p.start + k + |needle| <= p.end
    ensures OccursAt(BlockOf(s, p), needle, k) <==> OccursAt(s, needle, p.start + k)
  {
    OccursInFront(s[p.start..p.end], [NEWLINE], needle, k);
    SliceOfSlice(s, p.start, p.end, k, |needle|);
  }

  lemma CertificateMakesBlock(m: Markers, s: seq<byte>, p: Span)
    requires Within(s, p) && IsCertificate(m, s, p) && p.end >= p.start + |m.begin|
    ensures IsBlock(m, BlockOf(s, p))
  {
    var b, last := BlockOf(s, p), p.end - p.start - |m.end|;
    OccursInBlock(s, p, m.begin, 0);
    OccursInBlock(s, p, m.end, last);
    forall k | 0 <= k < last
      ensures !OccursAt(b, m.end, k)
    {
      OccursInBlock(s, p, m.end, k);
      assert !OccursAt(s, m.end, p.start + k);
    }
    assert |b| - 1 - |m.end| == last;
  }

  function Concat(blocks: seq<Block>): seq<byte> {
    if blocks == [] then [] else blocks[0] + Concat(blocks[1..])
  }

  lemma FirstOfPrefix(a: seq<byte>, rest: seq<byte>, needle: seq<byte>, i: nat)
    requires IsFirst(a, needle, 0, Some(i))
    ensures First(a + rest, needle, 0) == Some(i)
  {
    OccursInFront(a, rest, needle, i);
    forall k | 0 <= k < i
      ensures !OccursAt(a + rest, needle, k)
    {
      OccursInFront(a, rest, needle, k);
      assert !OccursAt(a, needle, k);
    }
    FirstUnique(a + rest, needle, 0, Some(i));
  }

  /** A newline in front of the rest of a chain changes nothing: BEGIN cannot start on it. */
  lemma BlocksSkipNewline(m: Markers, s: seq<byte>)
    requires m.begin[0] != NEWLINE
    ensures Blocks(m, [NEWLINE] + s) == Blocks(m, s)
  {
    var t := [NEWLINE] + s;
    assert t[1..] == s && t[0..] == t;
    assert Next(m, t, 0) == Next(m, t, 1) by {
      assert !OccursAt(t, m.begin, 0);
    }
    BlocksAt(m, t, 0);
    BlocksAt(m, t, 1);
  }

  /** A block in front of anything is found first, and found whole. */
  lemma BlockComesFirst(m: Markers, b: Block, rest: seq<byte>)
    requires m.begin[0] != NEWLINE && IsBlock(m, b)
    ensures Blocks(m, b + rest) == [b] + Blocks(m, rest)
  {
    var e := |b| - 1;
    FirstOfPrefix(b, rest, m.begin, 0);
    FirstOfPrefix(b, rest, m.end, e - |m.end|);
    assert Next(m, b + rest, 0) == Some(Span(0, e));
    assert (b + rest)[0..e] + [NEWLINE] == b;
    assert (b + rest)[e..] == [NEWLINE] + rest;
    BlocksSkipNewline(m, rest);
  }

  lemma {:induction false} BlocksOfConcat(m: Markers, blocks: seq<Block>)
    requires m.begin[0] != NEWLINE
    requires forall b :: b in blocks ==> IsBlock(m, b)
    ensures Blocks(m, Concat(blocks)) == blocks
  {
    if blocks != [] {
      assert blocks[0] in blocks;
      BlocksOfConcat(m, blocks[1..]);
      BlockComesFirst(m, blocks[0], Concat(blocks[1..]));
      assert blocks == [blocks[0]] + blocks[1..];
    } else {
      assert Next(m, Concat(blocks), 0) == None;
    }
  }

  lemma {:induction false} ConcatValid(blocks: seq<Block>)
    requires forall b :: b in blocks ==> Utf8.Valid(b)
    ensures Utf8.Valid(Concat(blocks))
  {
    if blocks != [] {
      ConcatValid(blocks[1..]);
      Utf8.ValidConcat(blocks[0], Concat(blocks[1..]));
    }
  }

  /** What occurs at a place is there byte by byte. */
  lemma ByteOf(s: seq<byte>, needle: seq<byte>, i: int, d: nat)
    requires OccursAt(s, needle, i) && d < |needle|
    ensures s[i + d] == needle[d]
  {
    assert s[i..i + |needle|][d] == needle[d];
  }

  /** The first dash of END is not inside the label of BEGIN, nor is its B before the first space of END. */
  ghost predicate Apart(begin: seq<byte>, end: seq<byte>) {
    && |begin| == 27 && |end| == 25 && begin[5] == 66 && end[0] == 45
    && (forall d :: 5 <= d < 22 ==> begin[d] != 45)
    && (forall d :: 0 <= d <= 5 ==> end[d] != 66)
  }

  lemma MarkersApart()
    ensures Apart(CERTIFICATE.begin, CERTIFICATE.end)
  {
  }

  lemma EndPastLabel(begin: seq<byte>, end: seq<byte>, s: seq<byte>, b: int, e: int)
    requires Apart(begin, end) && OccursAt(s, begin, b) && OccursAt(s, end, e) && b <= e
    ensures e >= b + 22
  {
    var i, j := if b + 5 <= e < b + 22 then e - b else 5, if e <= b + 5 then b + 5 - e else 0;
    ByteOf(s, begin, b, i);
    ByteOf(s, end, e, j);
  }

  /** The two markers share at most their five dashes, so a certificate covers its whole BEGIN. */
  lemma EndPastBeginLabel(s: seq<byte>, b: int, e: int)
    requires OccursAt(s, CERTIFICATE.begin, b) && OccursAt(s, CERTIFICATE.end, e) && b <= e
    ensures e >= b + 22
  {
    MarkersApart();
    EndPastLabel(CERTIFICATE.begin, CERTIFICATE.end, s, b, e);
  }

  // The marker bytes spell the two lines of section 2 of RFC 7468.

  lemma BeginSpells()
    ensures |CERTIFICATE.begin| == |"-----BEGIN CERTIFICATE-----"| == 27
    ensures forall k :: 0 <= k < 27 ==> CERTIFICATE.begin[k] == "-----BEGIN CERTIFICATE-----"[k] as int
  {
  }

  lemma EndSpells()
    ensures |CERTIFICATE.end| == |"-----END CERTIFICATE-----"| == 25
    ensures forall k :: 0 <= k < 25 ==> CERTIFICATE.end[k] == "-----END CERTIFICATE-----"[k] as int
  {
  }

  lemma {:induction false} AllAsciiValid(s: seq<byte>)
    requires forall k :: 0 <= k < |s| ==> s[k] < 0x80
    ensures Utf8.Valid(s)
  {
    if s != [] {
      AllAsciiValid(s[1..]);
    }
  }

  lemma MarkersAscii()
    ensures forall k :: 0 <= k < 27 ==> CERTIFICATE.begin[k] < 0x80
    ensures forall k :: 0 <= k < 25 ==> CERTIFICATE.end[k] < 0x80
  {
  }

  /** BEGIN and END with their dashes shared: the label of BEGIN, then END. */
  function Overlap(begin: seq<byte>, end: seq<byte>): seq<byte>
    requires |begin| == 27 && |end| == 25
  {
    begin[..22] + end
  }

  lemma OverlapHoldsBoth(begin: seq<byte>, end: seq<byte>)
    requires |begin| == 27 && |end| == 25 && begin[22..] == end[..5]
    ensures OccursAt(Overlap(begin, end), begin, 0) && OccursAt(Overlap(begin, end), end, 22)
  {
    var s := Overlap(begin, end);
    assert begin == begin[..22] + begin[22..];
    assert s[0..27] == begin[..22] + end[..5];
    assert s[22..47] == end;
  }

  lemma OverlapIsValid()
    ensures Utf8.Valid(Overlap(CERTIFICATE.begin, CERTIFICATE.end))
  {
    MarkersAscii();
    AllAsciiValid(Overlap(CERTIFICATE.begin, CERTIFICATE.end));
  }

  lemma OverlapIsFirst(s: seq<byte>)
    requires |s| == 47 && OccursAt(s, CERTIFICATE.begin, 0) && OccursAt(s, CERTIFICATE.end, 22)
    ensures Next(CERTIFICATE, s, 0) == Some(Span(0, 47))
  {
    forall k | 0 <= k < 22
      ensures !OccursAt(s, CERTIFICATE.end, k)
    {
      if OccursAt(s, CERTIFICATE.end, k) {
        EndPastBeginLabel(s, 0, k);
        assert false;
      }
    }
    NextUnique(CERTIFICATE, s, 0, Span(0, 47));
  }

  lemma NothingSplitsToNothing(m: Markers)
    ensures Blocks(m, []) == []
  {
    assert First([], m.begin, 0) == None;
  }

  lemma OneBlock(m: Markers, s: seq<byte>)
    requires Next(m, s, 0) == Some(Span(0, |s|))
    ensures Blocks(m, s) == [s + [NEWLINE]]
  {
    NothingSplitsToNothing(m);
    assert s[|s|..] == [] && s[0..|s|] == s;
  }

  /** The distance of 22 is reached: the splitter makes one block of two markers that share five dashes. */
  lemma MarkersOverlap()
    ensures var s := Overlap(CERTIFICATE.begin, CERTIFICATE.end);
            && OccursAt(s, CERTIFICATE.begin, 0) && OccursAt(s, CERTIFICATE.end, 22)
            && SplitChain(s) == [s + [NEWLINE]]
  {
    var s := Overlap(CERTIFICATE.begin, CERTIFICATE.end);
    assert CERTIFICATE.begin[22..] == CERTIFICATE.end[..5];
    OverlapHoldsBoth(CERTIFICATE.begin, CERTIFICATE.end);
    OverlapIsFirst(s);
    OneBlock(CERTIFICATE, s);
    OverlapIsValid();
  }

  /** The byte before the end of a certificate is a dash, and so is its first. */
  lemma CertificateDashes(s: seq<byte>, p: Span)
    requires Within(s, p) && IsCertificate(CERTIFICATE, s, p)
    ensures p.start < p.end && s[p.start] == s[p.end - 1] == 45
  {
    ByteOf(s, CERTIFICATE.begin, p.start, 0);
    ByteOf(s, CERTIFICATE.end, p.end - 25, 24);
  }

  lemma BlockValid(s: seq<byte>, p: Span)
    requires Utf8.Valid(s) && Within(s, p) && IsCertificate(CERTIFICATE, s, p)
    ensures Utf8.Valid(BlockOf(s, p))
  {
    CertificateDashes(s, p);
    var tail, n := s[p.start..], p.end - p.start - 1;
    Utf8.ValidCut(s, p.start);
    assert tail[n] == s[p.end - 1];
    Utf8.ValidCut(tail, n);
    AllAsciiValid([45, NEWLINE]);
    Utf8.ValidConcat(tail[..n], [45, NEWLINE]);
    BlockEnds(s, p);
  }

  lemma BlockEnds(s: seq<byte>, p: Span)
    requires Within(s, p) && p.start < p.end && s[p.end - 1] == 45
    ensures BlockOf(s, p) == s[p.start..][..p.end - p.start - 1] + [45, NEWLINE]
  {
    assert s[p.start..p.end] == s[p.start..][..p.end - p.start - 1] + [45];
  }

  lemma {:induction false} CutMakesBlocks(s: seq<byte>, from: int, spans: seq<Span>)
    requires Utf8.Valid(s) && IsSegmentation(CERTIFICATE, s, from, spans)
    requires forall p :: p in spans ==> Within(s, p)
    ensures forall b :: b in Cut(s, spans) ==> IsBlock(CERTIFICATE, b) && Utf8.Valid(b)
    decreases |spans|
  {
    if spans != [] {
      var p := spans[0];
      EndPastBeginLabel(s, p.start, p.end - 25);
      CertificateMakesBlock(CERTIFICATE, s, p);
      BlockValid(s, p);
      CutMakesBlocks(s, p.end, spans[1..]);
    }
  }

  /** Splitting the concatenation of the blocks gives the same blocks, overlapping markers included;
      the concatenation passes the UTF-8 gate again. */
  lemma SplitAgain(pem: seq<byte>)
    ensures SplitChain(Concat(SplitChain(pem))) == SplitChain(pem)
  {
    var blocks := SplitChain(pem);
    if Utf8.Valid(pem) {
      SplitChainIsTheSegmentation(pem);
      SpansSegment(CERTIFICATE, pem, 0);
      CutMakesBlocks(pem, 0, Spans(CERTIFICATE, pem, 0));
    }
    ConcatValid(blocks);
    BlocksOfConcat(CERTIFICATE, blocks);
  }

  lemma NoBlocks(m: Markers, s: seq<byte>)
    ensures Blocks(m, s) == [] <==> NoCertificate(m, s, 0)
  {
    if NoCertificate(m, s, 0) {
      NoNext(m, s, 0);
    } else if Next(m, s, 0).None? {
      NoneIsNoCertificate(m, s, 0);
      assert false;
    }
  }

  lemma BlockIsOwn(m: Markers, b: Block)
    requires m.begin[0] != NEWLINE && IsBlock(m, b)
    ensures Blocks(m, b) == [b]
  {
    BlockComesFirst(m, b, []);
    NothingSplitsToNothing(m);
    assert b + [] == b;
  }

  lemma OwnIsBlock(s: seq<byte>)
    requires Blocks(CERTIFICATE, s) == [s]
    ensures IsBlock(CERTIFICATE, s)
  {
    var p := Next(CERTIFICATE, s, 0).value;
    assert Blocks(CERTIFICATE, s)[0] == BlockOf(s, p);
    SomeIsCertificate(CERTIFICATE, s, 0);
    EndPastBeginLabel(s, p.start, p.end - 25);
    CertificateMakesBlock(CERTIFICATE, s, p);
  }

  /** When the two splitters agree, the harness's fallback aside: exactly on UTF-8 input, on input
      without a BEGIN that an END follows, and on input that already is one block. */
  lemma SplittersAgree(pem: seq<byte>)
    ensures SplitCerts(pem) == (if SplitChain(pem) == [] then [pem] else SplitChain(pem))
       <==> Utf8.Valid(pem) || NoCertificate(CERTIFICATE, pem, 0) || IsBlock(CERTIFICATE, pem)
  {
    NoBlocks(CERTIFICATE, pem);
    if IsBlock(CERTIFICATE, pem) {
      BlockIsOwn(CERTIFICATE, pem);
    }
    if Blocks(CERTIFICATE, pem) == [pem] {
      OwnIsBlock(pem);
    }
  }

  /** In BEGIN followed by END, no END starts before the second marker. */
  lemma EndAfterBegin(tail: seq<byte>, k: nat)
    requires k < 27
    ensures !OccursAt(CERTIFICATE.begin + CERTIFICATE.end + tail, CERTIFICATE.end, k)
  {
    var m := CERTIFICATE;
    var pem := m.begin + m.end + tail;
    assert pem[0..27] == m.begin;
    assert k >= 22 ==> pem[k + 5] == m.end[k - 22] == 45;
    assert m.end[5] == 69;
    if OccursAt(pem, m.end, k) {
      EndPastBeginLabel(pem, 0, k);
      assert false;
    }
  }

  /** BEGIN directly followed by END is the first certificate of any text it starts. */
  lemma MarkersFirst(tail: seq<byte>)
    ensures Next(CERTIFICATE, CERTIFICATE.begin + CERTIFICATE.end + tail, 0) == Some(Span(0, 52))
  {
    var m := CERTIFICATE;
    var pem := m.begin + m.end + tail;
    assert OccursAt(pem, m.begin, 0) && OccursAt(pem, m.end, 27) by {
      assert pem[0..27] == m.begin && pem[27..52] == m.end;
    }
    forall k | 0 <= k < 27
      ensures !OccursAt(pem, m.end, k)
    {
      EndAfterBegin(tail, k);
    }
    NextUnique(m, pem, 0, Span(0, 52));
  }

  /** The gate matters: one invalid byte after a certificate hides it from `split_pem_chain` only. */
  lemma SplittersDisagree()
    ensures var text := CERTIFICATE.begin + CERTIFICATE.end;
            SplitChain(text + [255]) == [] && SplitCerts(text + [255]) == [text + [NEWLINE]]
  {
    var m := CERTIFICATE;
    var text, tail: seq<byte> := m.begin + m.end, [255];
    var pem := text + tail;
    MarkersFirst(tail);
    assert pem[52..] == tail && pem[0..52] == text;
    assert Blocks(m, tail) == [] by {
      assert First(tail, m.begin, 0) == None;
    }
    assert BlockOf(pem, Span(0, 52)) == text + [NEWLINE];
    assert Utf8.Decode(tail) == None;
    if Utf8.Valid(pem) {
      assert pem[51..][1..] == tail;
      Utf8.ValidCut(pem, 51);
      assert false;
    }
  }
}
