/** The part of serde_json the client writes: compact objects, arrays, strings and booleans, with
    its string escapes; and a reader for what it writes. */
module Json {
  import opened Wrappers

  datatype Value =
    | Str(s: string)
    | Bool(b: bool)
    | Arr(items: Items)
    | Obj(members: Members)
  datatype Items = NoItems | Item(value: Value, next: Items)
  datatype Members = NoMembers | Member(key: string, value: Value, next: Members)

  // ---- writing -------------------------------------------------------------

  function HexDigit(v: int): char
    requires 0 <= v < 16
  {
    if v < 10 then '0' + v as char else 'a' + (v - 10) as char
  }

  function EscapeChar(c: char): (r: string)
    ensures r != ""
  {
    if c == '\"' then "\\\"" else if c == '\\' then "\\\\"
    else if c as int == 8 then "\\b" else if c == '\t' then "\\t" else if c == '\n' then "\\n"
    else if c as int == 12 then "\\f" else if c == '\r' then "\\r"
    else if c as int < 32 then "\\u00" + [HexDigit(c as int / 16), HexDigit(c as int % 16)]
    else [c]
  }

  function Escape(s: string): string {
    if s == "" then "" else EscapeChar(s[0]) + Escape(s[1..])
  }

  function Quote(s: string): string {
    "\"" + Escape(s) + "\""
  }

  function Print(j: Value): (r: string)
    ensures r != "" && r[0] !in ",]}:"
    decreases j, 0
  {
    match j
    case Str(s) => Quote(s)
    case Bool(b) => if b then "true" else "false"
    case Arr(items) => "[" + PrintItems(items, true)
    case Obj(members) => "{" + PrintMembers(members, true)
  }

  function PrintItems(items: Items, first: bool): string
    decreases items, 1
  {
    match items
    case NoItems => "]"
    case Item(v, next) => (if first then "" else ",") + Print(v) + PrintItems(next, false)
  }

  function PrintMembers(members: Members, first: bool): string
    decreases members, 1
  {
    match members
    case NoMembers => "}"
    case Member(k, v, next) =>
      (if first then "" else ",") + Quote(k) + ":" + Print(v) + PrintMembers(next, false)
  }

  // ---- reading -------------------------------------------------------------

  function HexValue(c: char): Option<int> {
    if '0' <= c <= '9' then Some((c - '0') as int)
    else if 'a' <= c <= 'f' then Some((c - 'a') as int + 10)
    else None
  }

  /** One possibly escaped character and the number of characters it takes. */
  function ReadChar(s: string): (r: Option<(char, nat)>)
    ensures r.Some? ==> 1 <= r.value.1 <= |s|
  {
    if s == "" || s[0] == '\"' || s[0] as int < 32 then None
    else if s[0] != '\\' then Some((s[0], 1))
    else if |s| < 2 then None
    else if s[1] == '\"' || s[1] == '\\' then Some((s[1], 2))
    else if s[1] == 'b' then Some((8 as char, 2))
    else if s[1] == 't' then Some(('\t', 2))
    else if s[1] == 'n' then Some(('\n', 2))
    else if s[1] == 'f' then Some((12 as char, 2))
    else if s[1] == 'r' then Some(('\r', 2))
    else if |s| >= 6 && s[1..4] == "u00" && HexValue(s[4]).Some? && HexValue(s[5]).Some? then
      Some(((HexValue(s[4]).value * 16 + HexValue(s[5]).value) as char, 6))
    else None
  }

  /** Reads up to the closing quote. */
  function ReadText(s: string): (r: Option<(string, string)>)
    ensures r.Some? ==> |r.value.1| < |s|
  {
    if s == "" then None
    else if s[0] == '\"' then Some(("", s[1..]))
    else
      match ReadChar(s)
      case None => None
      case Some(c) =>
        match ReadText(s[c.1..])
        case None => None
        case Some(t) => Some(([c.0] + t.0, t.1))
  }

  function ReadQuoted(s: string): (r: Option<(string, string)>)
    ensures r.Some? ==> |r.value.1| < |s|
  {
    if s != "" && s[0] == '\"' then ReadText(s[1..]) else None
  }

  function Read(s: string): (r: Option<(Value, string)>)
    ensures r.Some? ==> |r.value.1| < |s|
    decreases |s|, 0
  {
    if s == "" then None
    else if s[0] == '\"' then
      match ReadQuoted(s) case None => None case Some(t) => Some((Str(t.0), t.1))
    else if s[0] == '[' then
      match ReadItems(s[1..], true) case None => None case Some(t) => Some((Arr(t.0), t.1))
    else if s[0] == '{' then
      match ReadMembers(s[1..], true) case None => None case Some(t) => Some((Obj(t.0), t.1))
    else if "true" <= s then Some((Bool(true), s[4..]))
    else if "false" <= s then Some((Bool(false), s[5..]))
    else None
  }

  /** Past the comma that every element but the first needs. */
  function Separated(s: string, first: bool): (r: Option<string>)
    ensures r.Some? ==> |r.value| <= |s|
  {
    if first then Some(s) else if s != "" && s[0] == ',' then Some(s[1..]) else None
  }

  function ReadItems(s: string, first: bool): (r: Option<(Items, string)>)
    ensures r.Some? ==> |r.value.1| < |s|
    decreases |s|, 1
  {
    if s != "" && s[0] == ']' then Some((NoItems, s[1..]))
    else
      match Separated(s, first)
      case None => None
      case Some(body) =>
        match Read(body)
        case None => None
        case Some(v) =>
          match ReadItems(v.1, false)
          case None => None
          case Some(t) => Some((Item(v.0, t.0), t.1))
  }

  function ReadMembers(s: string, first: bool): (r: Option<(Members, string)>)
    ensures r.Some? ==> |r.value.1| < |s|
    decreases |s|, 1
  {
    if s != "" && s[0] == '}' then Some((NoMembers, s[1..]))
    else
      match Separated(s, first)
      case None => None
      case Some(body) =>
        match ReadQuoted(body)
        case None => None
        case Some(k) =>
          if k.1 == "" || k.1[0] != ':' then None
          else
            match Read(k.1[1..])
            case None => None
            case Some(v) =>
              match ReadMembers(v.1, false)
              case None => None
              case Some(t) => Some((Member(k.0, v.0, t.0), t.1))
  }

  function Parse(s: string): Option<Value> {
    match Read(s)
    case None => None
    case Some(r) => if r.1 == "" then Some(r.0) else None
  }

  // ---- reading what was written --------------------------------------------

  lemma CharRoundTrip(c: char, rest: string)
    ensures ReadChar(EscapeChar(c) + rest) == Some((c, |EscapeChar(c)|))
    ensures EscapeChar(c)[0] != '\"'
  {
    if c as int < 32 {
      var s := EscapeChar(c) + rest;
      if |EscapeChar(c)| == 6 {
        assert s[1..4] == "u00";
      }
    }
  }

  /** A character read in front of a text that is read. */
  lemma TextStep(c: char, e: string, after: string, t: string, rest: string)
    requires e != "" && e[0] != '\"' && ReadChar(e + after) == Some((c, |e|))
    requires ReadText(after) == Some((t, rest))
    ensures ReadText(e + after) == Some(([c] + t, rest))
  {
    DropPrefix(e, after);
  }

  lemma {:induction false} TextRoundTrip(t: string, rest: string)
    ensures ReadText(Escape(t) + ("\"" + rest)) == Some((t, rest))
  {
    if t == "" {
      assert Escape(t) + ("\"" + rest) == "\"" + rest;
      DropPrefix("\"", rest);
    } else {
      var e, after := EscapeChar(t[0]), Escape(t[1..]) + ("\"" + rest);
      TextRoundTrip(t[1..], rest);
      CharRoundTrip(t[0], after);
      TextStep(t[0], e, after, t[1..], rest);
      Regroup2(e, Escape(t[1..]), "\"" + rest);
      assert [t[0]] + t[1..] == t;
    }
  }

  lemma ReadQuote(s: string, t: string, rest: string)
    requires ReadText(s) == Some((t, rest))
    ensures ReadQuoted("\"" + s) == Some((t, rest))
  {
    DropPrefix("\"", s);
  }

  lemma QuotedRoundTrip(t: string, rest: string)
    ensures ReadQuoted(Quote(t) + rest) == Some((t, rest))
  {
    TextRoundTrip(t, rest);
    ReadQuote(Escape(t) + ("\"" + rest), t, rest);
    Regroup3("\"", Escape(t), "\"", rest);
  }

  lemma Regroup(a: string, b: string, c: string, d: string, e: string, f: string)
    ensures a + b + c + d + e + f == a + (b + (c + (d + (e + f))))
  {
  }

  lemma Regroup2(a: string, b: string, c: string)
    ensures a + b + c == a + (b + c)
  {
  }

  lemma Regroup3(a: string, b: string, c: string, d: string)
    ensures a + b + c + d == a + (b + (c + d))
  {
  }

  lemma DropPrefix(a: string, b: string)
    ensures (a + b)[|a|..] == b
  {
  }

  lemma ReadString(s: string, t: string, rest: string)
    requires ReadQuoted(s) == Some((t, rest))
    ensures Read(s) == Some((Str(t), rest))
  {
  }

  lemma ReadArray(s: string, items: Items, rest: string)
    requires ReadItems(s, true) == Some((items, rest))
    ensures Read("[" + s) == Some((Arr(items), rest))
  {
    DropPrefix("[", s);
  }

  lemma ReadObject(s: string, members: Members, rest: string)
    requires ReadMembers(s, true) == Some((members, rest))
    ensures Read("{" + s) == Some((Obj(members), rest))
  {
    DropPrefix("{", s);
  }

  lemma ReadBool(b: bool, rest: string)
    ensures Read((if b then "true" else "false") + rest) == Some((Bool(b), rest))
  {
    var text := if b then "true" else "false";
    assert (text + rest)[..|text|] == text;
    DropPrefix(text, rest);
  }

  lemma {:induction false} ValueRoundTrip(j: Value, rest: string)
    ensures Read(Print(j) + rest) == Some((j, rest))
    decreases j, 0
  {
    match j
    case Str(t) =>
      QuotedRoundTrip(t, rest);
      ReadString(Quote(t) + rest, t, rest);
    case Bool(b) =>
      ReadBool(b, rest);
    case Arr(items) =>
      ItemsRoundTrip(items, true, rest);
      ReadArray(PrintItems(items, true) + rest, items, rest);
      Regroup2("[", PrintItems(items, true), rest);
    case Obj(members) =>
      MembersRoundTrip(members, true, rest);
      ReadObject(PrintMembers(members, true) + rest, members, rest);
      Regroup2("{", PrintMembers(members, true), rest);
  }

  lemma {:induction false} ItemsRoundTrip(items: Items, first: bool, rest: string)
    ensures ReadItems(PrintItems(items, first) + rest, first) == Some((items, rest))
    decreases items, 1
  {
    match items
    case NoItems =>
      DropPrefix("]", rest);
    case Item(v, next) =>
      ItemText(v, next, first, rest);
      ValueRoundTrip(v, PrintItems(next, false) + rest);
      ItemsRoundTrip(next, false, rest);
  }

  lemma ItemText(v: Value, next: Items, first: bool, rest: string)
    ensures var s := PrintItems(Item(v, next), first) + rest;
            Separated(s, first) == Some(Print(v) + (PrintItems(next, false) + rest)) && s[0] != ']'
  {
    var lead := if first then "" else ",";
    var body := Print(v) + (PrintItems(next, false) + rest);
    Regroup3(lead, Print(v), PrintItems(next, false), rest);
    DropPrefix(lead, body);
  }

  lemma {:induction false} MembersRoundTrip(members: Members, first: bool, rest: string)
    ensures ReadMembers(PrintMembers(members, first) + rest, first) == Some((members, rest))
    decreases members, 1
  {
    match members
    case NoMembers =>
      DropPrefix("}", rest);
    case Member(k, v, next) =>
      var value := Print(v) + (PrintMembers(next, false) + rest);
      MemberText(k, v, next, first, rest);
      QuotedRoundTrip(k, ":" + value);
      DropPrefix(":", value);
      ValueRoundTrip(v, PrintMembers(next, false) + rest);
      MembersRoundTrip(next, false, rest);
  }

  lemma MemberText(k: string, v: Value, next: Members, first: bool, rest: string)
    ensures var s := PrintMembers(Member(k, v, next), first) + rest;
            && Separated(s, first) == Some(Quote(k) + (":" + (Print(v) + (PrintMembers(next, false) + rest))))
            && s[0] != '}'
  {
    var lead := if first then "" else ",";
    var body := Quote(k) + (":" + (Print(v) + (PrintMembers(next, false) + rest)));
    Regroup(lead, Quote(k), ":", Print(v), PrintMembers(next, false), rest);
    DropPrefix(lead, body);
  }

  lemma ParsePrint(j: Value)
    ensures Parse(Print(j)) == Some(j)
  {
    ValueRoundTrip(j, "");
    assert Print(j) + "" == Print(j);
  }

  lemma PrintInjective(j: Value, k: Value)
    requires Print(j) == Print(k)
    ensures j == k
  {
    ParsePrint(j);
    ParsePrint(k);
  }
}
