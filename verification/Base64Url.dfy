/** Base64url without padding (section 5 of RFC 4648): the crate's `b64url`, and the strict decoder
    a receiver uses, which rejects foreign symbols, a lone last symbol and non-zero spare bits. */
module Base64Url {
  import opened Wrappers

  function Symbol(v: int): char
    requires 0 <= v < 64
  {
    if v < 26 then 'A' + v as char
    else if v < 52 then 'a' + (v - 26) as char
    else if v < 62 then '0' + (v - 52) as char
    else if v == 62 then '-' else '_'
  }

  function Value(c: char): (r: Option<int>)
    ensures r.Some? ==> 0 <= r.value < 64
  {
    if 'A' <= c <= 'Z' then Some((c - 'A') as int)
    else if 'a' <= c <= 'z' then Some((c - 'a') as int + 26)
    else if '0' <= c <= '9' then Some((c - '0') as int + 52)
    else if c == '-' then Some(62) else if c == '_' then Some(63) else None
  }

  type sextet = v: int | 0 <= v < 64

  /** The 6-bit values of a full group of three bytes, or of a final group of one or two. */
  function Sextets(g: seq<byte>): (r: seq<sextet>)
    requires 1 <= |g| <= 3
    ensures |r| == |g| + 1
  {
    if |g| == 1 then [g[0] / 4, g[0] % 4 * 16]
    else if |g| == 2 then [g[0] / 4, g[0] % 4 * 16 + g[1] / 16, g[1] % 16 * 4]
    else [g[0] / 4, g[0] % 4 * 16 + g[1] / 16, g[1] % 16 * 4 + g[2] / 64, g[2] % 64]
  }

  function Pack(v: seq<int>): Option<seq<byte>>
    requires 1 <= |v| <= 4 && forall k :: 0 <= k < |v| ==> 0 <= v[k] < 64
  {
    if |v| == 1 then None
    else if |v| == 2 then
      if v[1] % 16 != 0 then None else Some([v[0] * 4 + v[1] / 16])
    else if |v| == 3 then
      if v[2] % 4 != 0 then None else Some([v[0] * 4 + v[1] / 16, v[1] % 16 * 16 + v[2] / 4])
    else Some([v[0] * 4 + v[1] / 16, v[1] % 16 * 16 + v[2] / 4, v[2] % 4 * 64 + v[3]])
  }

  function Symbols(v: seq<sextet>): (r: string)
    ensures |r| == |v|
  {
    if v == [] then "" else [Symbol(v[0])] + Symbols(v[1..])
  }

  function Values(s: string): (r: Option<seq<sextet>>)
    ensures r.Some? ==> |r.value| == |s|
  {
    if s == "" then Some([])
    else
      match Values(s[1..])
      case None => None
      case Some(rest) => if Value(s[0]).None? then None else Some([Value(s[0]).value] + rest)
  }

  function EncodeGroup(g: seq<byte>): (r: string)
    requires 1 <= |g| <= 3
    ensures |r| == |g| + 1
  {
    Symbols(Sextets(g))
  }

  function Encode(b: seq<byte>): string {
    if b == [] then "" else if |b| <= 3 then EncodeGroup(b) else EncodeGroup(b[..3]) + Encode(b[3..])
  }

  function DecodeGroup(s: string): (r: Option<seq<byte>>)
    requires 1 <= |s| <= 4
  {
    if Values(s).None? then None else Pack(Values(s).value)
  }

  function Decode(s: string): Option<seq<byte>> {
    if s == "" then Some([])
    else if |s| <= 4 then DecodeGroup(s)
    else
      match DecodeGroup(s[..4])
      case None => None
      case Some(head) =>
        match Decode(s[4..])
        case None => None
        case Some(tail) => Some(head + tail)
  }

  lemma SymbolValue(v: int)
    requires 0 <= v < 64
    ensures Value(Symbol(v)) == Some(v)
  {
  }

  const UPPER := "ABCDEFGHIJKLMNOPQRSTUVWXYZ"
  const LOWER := "abcdefghijklmnopqrstuvwxyz"
  const DIGITS := "0123456789"

  /** The alphabet of section 5 of RFC 4648. */
  const ALPHABET := UPPER + LOWER + DIGITS + "-_"

  lemma InARow()
    ensures |UPPER| == 26 && forall k :: 0 <= k < 26 ==> UPPER[k] as int == 65 + k
    ensures |LOWER| == 26 && forall k :: 0 <= k < 26 ==> LOWER[k] as int == 97 + k
    ensures |DIGITS| == 10 && forall k :: 0 <= k < 10 ==> DIGITS[k] as int == 48 + k
  {
  }

  lemma SymbolInTable(v: int)
    requires 0 <= v < 64
    ensures |ALPHABET| == 64 && Symbol(v) == ALPHABET[v]
  {
    InARow();
  }

  /** The symbols of a group are its bits from the most significant on, six to a symbol, padded with zeros. */
  lemma GroupBits(g: seq<byte>)
    requires 1 <= |g| <= 3
    ensures var v: seq<int>, b: seq<int> := Sextets(g), g;
            && (|g| == 1 ==> v[0] * 64 + v[1] == b[0] * 16)
            && (|g| == 2 ==> (v[0] * 64 + v[1]) * 64 + v[2] == (b[0] * 256 + b[1]) * 4)
            && (|g| == 3 ==> ((v[0] * 64 + v[1]) * 64 + v[2]) * 64 + v[3] == (b[0] * 256 + b[1]) * 256 + b[2])
  {
  }

  lemma {:induction false} SymbolsRoundTrip(v: seq<sextet>)
    ensures Values(Symbols(v)) == Some(v)
    ensures forall c :: c in Symbols(v) ==> Value(c).Some?
  {
    if v != [] {
      SymbolsRoundTrip(v[1..]);
      assert Symbols(v)[1..] == Symbols(v[1..]);
      SymbolValue(v[0]);
      assert v == [v[0]] + v[1..];
    }
  }

  lemma GroupRoundTrip(g: seq<byte>)
    requires 1 <= |g| <= 3
    ensures DecodeGroup(EncodeGroup(g)) == Some(g)
  {
    SymbolsRoundTrip(Sextets(g));
    PackSextets(g);
  }

  lemma PackSextets(g: seq<byte>)
    requires 1 <= |g| <= 3
    ensures Pack(Sextets(g)) == Some(g)
  {
    var v: seq<int> := Sextets(g);
    var a: int := g[0];
    assert v[0] * 4 + v[1] / 16 == a by {
      assert a / 4 * 4 + a % 4 == a;
    }
    if |g| == 1 {
      assert v[1] % 16 == 0;
      assert Pack(v).value == g;
    } else {
      var b: int := g[1];
      assert v[1] % 16 * 16 + v[2] / 4 == b;
      if |g| == 2 {
        assert v[2] % 4 == 0;
        assert Pack(v).value == g;
      } else {
        assert v[2] % 4 * 64 + v[3] == g[2];
        assert Pack(v).value == g;
      }
    }
  }

  lemma {:induction false} RoundTrip(b: seq<byte>)
    ensures Decode(Encode(b)) == Some(b)
  {
    if |b| > 3 {
      var head, tail := EncodeGroup(b[..3]), Encode(b[3..]);
      GroupRoundTrip(b[..3]);
      RoundTrip(b[3..]);
      assert Encode(b)[..4] == head && Encode(b)[4..] == tail;
      assert tail != "";
      assert b == b[..3] + b[3..];
    } else if b != [] {
      GroupRoundTrip(b);
    }
  }

  lemma Injective(a: seq<byte>, b: seq<byte>)
    requires Encode(a) == Encode(b)
    ensures a == b
  {
    RoundTrip(a);
    RoundTrip(b);
  }

  /** Every symbol is in the alphabet, so neither '.' nor '=' ever appears. */
  lemma {:induction false} InAlphabet(b: seq<byte>)
    ensures forall c :: c in Encode(b) ==> Value(c).Some? && c != '.' && c != '='
  {
    if |b| > 3 {
      SymbolsRoundTrip(Sextets(b[..3]));
      InAlphabet(b[3..]);
    } else if b != [] {
      SymbolsRoundTrip(Sextets(b));
    }
  }
}
