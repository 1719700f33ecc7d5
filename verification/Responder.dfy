/** The HTTP-01 responder of the test harness (`http_server.rs`): its token map, its request
    dispatch, and the solver adapter that fills and cleans the map; and what that means for a run. */
module Responder {
  import opened Wrappers
  import opened Acme
  import opened Wire
  import opened Requests
  import opened Challenges

  // ---- request dispatch ----------------------------------------------------

  /** The Unicode White_Space characters `split_whitespace` splits at. */
  predicate IsWhitespace(c: char) {
    var v := c as int;
    9 <= v <= 13 || v == 0x20 || v == 0x85 || v == 0xA0 || v == 0x1680 || 0x2000 <= v <= 0x200A
    || v == 0x2028 || v == 0x2029 || v == 0x202F || v == 0x205F || v == 0x3000
  }

  /** `read_line`: up to and including the first newline. */
  function FirstLine(s: string): string {
    if s == "" then "" else if s[0] == '\n' then "\n" else [s[0]] + FirstLine(s[1..])
  }

  /** The characters before the first whitespace. */
  function Word(s: string): (r: string)
    ensures |r| <= |s|
  {
    if s == "" || IsWhitespace(s[0]) then "" else [s[0]] + Word(s[1..])
  }

  function SkipSpaces(s: string): string {
    if s != "" && IsWhitespace(s[0]) then SkipSpaces(s[1..]) else s
  }

  function RequestMethod(line: string): string {
    Word(SkipSpaces(line))
  }

  function RequestPath(line: string): string {
    var s := SkipSpaces(line);
    Word(SkipSpaces(s[|Word(s)|..]))
  }

  const PREFIX := "/.well-known/acme-challenge/"

  datatype Answer = Answer(status: nat, body: string)

  /** The answer of `handle_connection` to a request line. */
  function Dispatch(m: map<string, string>, line: string): Answer {
    if RequestMethod(line) != "GET" then Answer(405, "")
    else
      var path := RequestPath(line);
      if PREFIX <= path && path[|PREFIX|..] in m then Answer(200, m[path[|PREFIX|..]]) else Answer(404, "")
  }

  /** `split('.').next()`: the part before the first dot, or all of it. */
  function BeforeDot(s: string): string {
    if s == "" || s[0] == '.' then "" else [s[0]] + BeforeDot(s[1..])
  }

  // ---- what is served ------------------------------------------------------

  /** The probe a validator sends for a token. */
  function Probe(token: string): string {
    "GET " + (PREFIX + token + " HTTP/1.1\r\n")
  }

  predicate Clean(token: string) {
    '.' !in token && forall c :: c in token ==> !IsWhitespace(c)
  }

  lemma {:induction false} BeforeDotPrefix(token: string, rest: string)
    ensures BeforeDot(token + "." + rest) == BeforeDot(token)
    ensures BeforeDot(token) == token <==> '.' !in token
    ensures BeforeDot(token) <= token && '.' !in BeforeDot(token)
    ensures BeforeDot(token) != token ==> token[|BeforeDot(token)|] == '.'
  {
    if token == "" {
      assert token + "." + rest == "." + rest;
    } else {
      BeforeDotPrefix(token[1..], rest);
      assert (token + "." + rest)[1..] == token[1..] + "." + rest;
      assert token == [token[0]] + token[1..];
    }
  }

  lemma {:induction false} WordPrefix(token: string)
    ensures Word(token) == token <==> forall c :: c in token ==> !IsWhitespace(c)
    ensures Word(token) <= token && forall c :: c in Word(token) ==> !IsWhitespace(c)
    ensures Word(token) != token ==> IsWhitespace(token[|Word(token)|])
  {
    if token != "" {
      WordPrefix(token[1..]);
      assert token == [token[0]] + token[1..];
    }
  }

  lemma {:induction false} WordBefore(token: string, rest: string)
    requires rest != "" && IsWhitespace(rest[0])
    ensures Word(token + rest) == Word(token)
  {
    if token == "" {
      assert token + rest == rest;
    } else {
      WordBefore(token[1..], rest);
      assert (token + rest)[1..] == token[1..] + rest;
    }
  }

  /** A newline is whitespace, so cutting at the first one does not change the first word. */
  lemma {:induction false} WordOfLine(s: string)
    ensures Word(FirstLine(s)) == Word(s)
  {
    if s != "" && !IsWhitespace(s[0]) {
      WordOfLine(s[1..]);
      assert FirstLine(s)[0] == s[0] && FirstLine(s)[1..] == FirstLine(s[1..]);
    } else if s != "" {
      assert FirstLine(s)[0] == s[0];
    }
  }

  lemma {:induction false} FirstLineKeeps(a: string, b: string)
    requires '\n' !in a
    ensures FirstLine(a + b) == a + FirstLine(b)
  {
    if a == "" {
      assert a + b == b;
    } else {
      FirstLineKeeps(a[1..], b);
      assert (a + b)[1..] == a[1..] + b;
    }
  }

  lemma {:induction false} WordKeeps(a: string, b: string)
    requires forall c :: c in a ==> !IsWhitespace(c)
    ensures Word(a + b) == a + Word(b)
  {
    if a == "" {
      assert a + b == b;
    } else {
      WordKeeps(a[1..], b);
      assert (a + b)[1..] == a[1..] + b;
    }
  }

  /** The words of a request line with this path prefix. */
  lemma LineParts(prefix: string, token: string)
    requires prefix != "" && forall c :: c in prefix ==> !IsWhitespace(c)
    ensures var line := FirstLine("GET " + (prefix + token + " HTTP/1.1\r\n"));
            RequestMethod(line) == "GET" && RequestPath(line) == prefix + Word(token)
  {
    var rest := " HTTP/1.1\r\n";
    var text := "GET " + (prefix + token + rest);
    var line, after := FirstLine(text), FirstLine(token + rest);
    assert text == "GET " + (prefix + (token + rest));
    assert '\n' !in prefix;
    FirstLineKeeps(prefix, token + rest);
    FirstLineKeeps("GET ", prefix + (token + rest));
    var tail := " " + (prefix + after);
    assert line == "GET" + tail;
    WordKeeps("GET", tail);
    assert SkipSpaces(line) == line && line[3..] == tail && tail[1..] == prefix + after;
    assert SkipSpaces(tail) == prefix + after by {
      assert !IsWhitespace((prefix + after)[0]);
    }
    WordKeeps(prefix, after);
    WordOfLine(token + rest);
    WordBefore(token, rest);
  }

  lemma PrefixHasNoSpace()
    ensures forall c :: c in PREFIX ==> !IsWhitespace(c)
  {
  }

  /** A probe is a GET whose path carries the token up to its first whitespace. */
  lemma ProbeParts(token: string)
    ensures RequestMethod(FirstLine(Probe(token))) == "GET"
    ensures RequestPath(FirstLine(Probe(token))) == PREFIX + Word(token)
  {
    PrefixHasNoSpace();
    LineParts(PREFIX, token);
  }

  /** The request line asks for `token` under the challenge path. */
  predicate Asks(line: string, token: string) {
    RequestMethod(line) == "GET" && RequestPath(line) == PREFIX + token
  }

  lemma {:induction false} LineEndsIt(a: string, b: string)
    requires '\n' in a
    ensures FirstLine(a + b) == FirstLine(a)
  {
    assert (a + b)[0] == a[0];
    if a[0] != '\n' {
      assert (a + b)[1..] == a[1..] + b;
      LineEndsIt(a[1..], b);
    }
  }

  /** A request that starts with the probe of a clean token asks for it, whatever comes after. */
  lemma ProbeAsks(token: string, text: string)
    requires Clean(token) && Probe(token) <= text
    ensures Asks(FirstLine(text), token)
  {
    var probe := Probe(token);
    assert probe[|probe| - 1] == '\n' && text == probe + text[|probe|..];
    LineEndsIt(probe, text[|probe|..]);
    ProbeParts(token);
    WordPrefix(token);
  }

  /** A clean token is served its key authorization from any map that files it. */
  lemma CleanIsServed(m: map<string, string>, token: string, thumbprint: string)
    requires Clean(token)
    ensures var ka := KeyAuthorization(token, thumbprint);
            Dispatch(m[BeforeDot(ka) := ka], FirstLine(Probe(token))) == Answer(200, ka)
  {
    ProbeParts(token);
    BeforeDotPrefix(token, thumbprint);
    WordPrefix(token);
    assert (PREFIX + token)[|PREFIX|..] == token;
  }

  /** On a responder holding nothing else, exactly the tokens without dot and whitespace are served. */
  lemma ServedIffClean(token: string, thumbprint: string)
    ensures var ka := KeyAuthorization(token, thumbprint);
            Dispatch(map[BeforeDot(ka) := ka], FirstLine(Probe(token))) == Answer(200, ka) <==> Clean(token)
  {
    var ka := KeyAuthorization(token, thumbprint);
    if Clean(token) {
      CleanIsServed(map[], token, thumbprint);
      assert map[][BeforeDot(ka) := ka] == map[BeforeDot(ka) := ka];
    } else {
      ProbeParts(token);
      BeforeDotPrefix(token, thumbprint);
      WordPrefix(token);
      assert (PREFIX + Word(token))[|PREFIX|..] == Word(token);
    }
  }

  // ---- a run against the responder -----------------------------------------

  /** What an event of a run does to the map; `adapters` are the solvers the server backs. */
  function AfterEvent(m: map<string, string>, e: Event, adapters: set<nat>): map<string, string> {
    if e.Arm? && e.outcome.Some? && e.outcome.value.solver in adapters then
      m[BeforeDot(e.outcome.value.keyAuth) := e.outcome.value.keyAuth]
    else if e.Drop? && e.handle.solver in adapters then m - {BeforeDot(e.handle.keyAuth)}
    else m
  }

  /** The responder's map after the events of a trace. */
  function Replay(m: map<string, string>, t: Trace, adapters: set<nat>): map<string, string> {
    if t == [] then m else AfterEvent(Replay(m, t[..|t| - 1], adapters), t[|t| - 1], adapters)
  }

  function TokenArmedBy(e: Event, adapters: set<nat>): set<string> {
    if e.Arm? && e.outcome.Some? && e.outcome.value.solver in adapters then {BeforeDot(e.outcome.value.keyAuth)} else {}
  }

  function ArmedTokens(t: Trace, adapters: set<nat>): set<string> {
    if t == [] then {} else ArmedTokens(t[..|t| - 1], adapters) + TokenArmedBy(t[|t| - 1], adapters)
  }

  /** `now` is the entry map without the armed tokens, plus the one entry of a standing adapter handle. */
  ghost predicate MapFits(m: map<string, string>, now: map<string, string>, tokens: set<string>, live: Live,
                          adapters: set<nat>) {
    match live
    case Free => now == m - tokens
    case Held(h) =>
      if h.solver in adapters then
        BeforeDot(h.keyAuth) in tokens && now == (m - tokens)[BeforeDot(h.keyAuth) := h.keyAuth]
      else now == m - tokens
    case Broken => true
  }

  /** The map during and after a run: the entry map without the armed tokens, plus the one entry of
      the handle that stands, if any. */
  lemma {:induction false} MapOfRun(m: map<string, string>, t: Trace, adapters: set<nat>)
    ensures MapFits(m, Replay(m, t, adapters), ArmedTokens(t, adapters), LedgerOf(t).live, adapters)
  {
    if t != [] {
      var s, e := t[..|t| - 1], t[|t| - 1];
      MapOfRun(m, s, adapters);
      MapStep(m, Replay(m, s, adapters), ArmedTokens(s, adapters), LedgerOf(s).live, e, adapters);
    }
  }

  lemma MapStep(m: map<string, string>, now: map<string, string>, tokens: set<string>, live: Live, e: Event,
                adapters: set<nat>)
    requires MapFits(m, now, tokens, live, adapters)
    ensures MapFits(m, AfterEvent(now, e, adapters), tokens + TokenArmedBy(e, adapters), LiveAfter(live, e), adapters)
  {
    assert tokens + {} == tokens;
    if e.Arm? && e.outcome.Some? {
      ArmMap(m, tokens, BeforeDot(e.outcome.value.keyAuth), e.outcome.value.keyAuth);
    } else if e.Drop? {
      DropMap(m, tokens, BeforeDot(e.handle.keyAuth), e.handle.keyAuth);
    }
  }

  lemma ArmMap(m: map<string, string>, tokens: set<string>, k: string, v: string)
    ensures (m - tokens)[k := v] == (m - (tokens + {k}))[k := v]
  {
  }

  lemma DropMap(m: map<string, string>, tokens: set<string>, k: string, v: string)
    ensures k in tokens ==> (m - tokens)[k := v] - {k} == m - tokens
  {
  }

  /** Which handle is armed after the first `n` events. */
  function LiveAt(t: Trace, n: nat): Live
    requires n <= |t|
  {
    if n == 0 then Free else LiveAfter(LiveAt(t, n - 1), t[n - 1])
  }

  lemma {:induction false} LiveAtIsBooked(s: Trace, t: Trace)
    requires s <= t
    ensures LedgerOf(s).live == LiveAt(t, |s|)
  {
    if s != [] {
      LiveAtIsBooked(s[..|s| - 1], t);
      assert s[|s| - 1] == t[|s| - 1];
    }
  }

  /** A ledger that is not broken never was. */
  lemma {:induction false} NeverBroken(t: Trace, i: nat, n: nat)
    requires i <= n <= |t| && !LiveAt(t, n).Broken?
    ensures !LiveAt(t, i).Broken?
  {
    if i < n {
      NeverBroken(t, i, n - 1);
    }
  }

  lemma {:induction false} StandsWhileStill(t: Trace, armed: nat, i: nat, h: Handle)
    requires armed < i <= |t| && !LiveAt(t, i).Broken?
    requires t[armed].Arm? && t[armed].outcome == Some(h) && forall k :: armed < k < i ==> Still(t[k])
    ensures LiveAt(t, i) == Held(h)
  {
    if armed < i - 1 {
      assert Still(t[i - 1]);
      StandsWhileStill(t, armed, i - 1, h);
    }
  }

  /** Whatever else the responder holds, while an adapter's handle for a clean token stands its key
      authorization is served. */
  lemma ServedWhileHeld(m: map<string, string>, t: Trace, adapters: set<nat>, token: string, thumbprint: string)
    requires LedgerOf(t).live.Held? && LedgerOf(t).live.handle.solver in adapters && Clean(token)
    requires LedgerOf(t).live.handle.keyAuth == KeyAuthorization(token, thumbprint)
    ensures Dispatch(Replay(m, t, adapters), FirstLine(Probe(token)))
            == Answer(200, KeyAuthorization(token, thumbprint))
  {
    MapOfRun(m, t, adapters);
    CleanIsServed(m - ArmedTokens(t, adapters), token, thumbprint);
  }

  /** Whenever a finished run solved a challenge with the adapter, the responder served
      `token.thumbprint` from the arming up to the poll that read `valid`. */
  lemma ServedThroughPoll(m: map<string, string>, t: Trace, adapters: set<nat>, identifier: Identifier,
                          challenge: Challenge, thumbprint: string, armed: nat, validated: nat, i: nat)
    requires LedgerOf(t).live.Free? && challenge.token.Some? && Clean(challenge.token.value)
    requires SolvedAt(t, identifier, challenge, thumbprint, armed, validated)
    requires t[armed].solver in adapters && armed < i <= validated
    ensures Dispatch(Replay(m, t[..i], adapters), FirstLine(Probe(challenge.token.value)))
            == Answer(200, KeyAuthorization(challenge.token.value, thumbprint))
  {
    LiveAtIsBooked(t, t);
    NeverBroken(t, i, |t|);
    StandsWhileStill(t, armed, i, t[armed].outcome.value);
    LiveAtIsBooked(t[..i], t);
    ServedWhileHeld(m, t[..i], adapters, challenge.token.value, thumbprint);
  }

  // ---- the server and its adapter ------------------------------------------

  class Http01Server {
    var tokens: map<string, string>

    constructor ()
      ensures tokens == map[]
    {
      tokens := map[];
    }

    method Insert(token: string, body: string)
      modifies this
      ensures tokens == old(tokens)[token := body]
    {
      tokens := tokens[token := body];
    }

    /** Idempotent. */
    method Remove(token: string)
      modifies this
      ensures tokens == old(tokens) - {token}
    {
      tokens := tokens - {token};
    }

    /** `handle_connection`: 405 unless the first line is a GET, the filed body for the path of a filed
        token, 404 otherwise. Whatever follows the probe of a clean token, its filed body is served. */
    method HandleConnection(text: string) returns (a: Answer)
      ensures a == Dispatch(tokens, FirstLine(text))
      ensures a.status == 405 <==> RequestMethod(FirstLine(text)) != "GET"
      ensures a.status == 200 <==> exists token :: token in tokens && Asks(FirstLine(text), token)
      ensures forall token :: token in tokens && Asks(FirstLine(text), token) ==> a == Answer(200, tokens[token])
      ensures a.status == 200 || (a.status in {404, 405} && a.body == "")
      ensures forall token :: Clean(token) && Probe(token) <= text ==>
                if token in tokens then a == Answer(200, tokens[token]) else a == Answer(404, "")
    {
      forall token | Clean(token) && Probe(token) <= text
        ensures Asks(FirstLine(text), token)
      {
        ProbeAsks(token, text);
      }
      var line := FirstLine(text);
      var path := RequestPath(line);
      if RequestMethod(line) != "GET" {
        return Answer(405, "");
      }
      if PREFIX <= path && path[|PREFIX|..] in tokens {
        assert Asks(line, path[|PREFIX|..]);
        return Answer(200, tokens[path[|PREFIX|..]]);
      }
      assert forall token :: Asks(line, token) ==> token == path[|PREFIX|..];
      return Answer(404, "");
    }

    /** `Http01SolverAdapter::arm`: the key authorization is filed under the part before its first dot.
        That is what a run's arming of an adapter does to the map. */
    method ArmAdapter(handle: Handle, ghost identifier: Identifier) returns (token: string)
      modifies this
      ensures token == BeforeDot(handle.keyAuth)
      ensures forall adapters: set<nat> :: handle.solver in adapters ==>
                var e := Arm(handle.solver, identifier, handle.keyAuth, Some(handle));
                tokens == AfterEvent(old(tokens), e, adapters)
    {
      token := BeforeDot(handle.keyAuth);
      Insert(token, handle.keyAuth);
    }

    /** `Http01Ready::drop`, for the token its arming returned. */
    method DropAdapter(handle: Handle, token: string)
      requires token == BeforeDot(handle.keyAuth)
      modifies this
      ensures forall adapters: set<nat> :: handle.solver in adapters ==>
                tokens == AfterEvent(old(tokens), Drop(handle), adapters)
    {
      Remove(token);
    }
  }
}
