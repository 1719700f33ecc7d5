/** Record names, zone apexes and percent-encoding: `record_name` of the DNS-01 solver composed with
    `apex_from_record_name` and `urlencoding_encode` of the Cloudflare provider. */
module DnsNaming {
  import opened Wrappers
  import opened Base64Url
  import Utf8

  // ---- labels --------------------------------------------------------------

  /** `split('.')`. */
  function Labels(s: string): (r: seq<string>)
    ensures |r| >= 1
  {
    if s == "" then [""]
    else
      var rest := Labels(s[1..]);
      if s[0] == '.' then [""] + rest else [[s[0]] + rest[0]] + rest[1..]
  }

  /** `join(".")`. */
  function Join(labels: seq<string>): string
    requires labels != []
  {
    if |labels| == 1 then labels[0] else labels[0] + "." + Join(labels[1..])
  }

  /** `apex_from_record_name`: a name of at most two labels, or its last two labels. */
  function Apex(name: string): string {
    var labels := Labels(name);
    if |labels| <= 2 then name else Join(labels[|labels| - 2..])
  }

  /** The identifier without a leading wildcard label. */
  function Base(identifier: string): string {
    if "*." <= identifier then identifier[2..] else identifier
  }

  const CHALLENGE_LABEL := "_acme-challenge"

  /** `record_name`. */
  function RecordName(identifier: string): string {
    CHALLENGE_LABEL + "." + Base(identifier)
  }

  lemma {:induction false} JoinLabels(s: string)
    ensures Join(Labels(s)) == s
  {
    if s != "" {
      JoinLabels(s[1..]);
      var rest := Labels(s[1..]);
      if s[0] != '.' && |rest| > 1 {
        assert Labels(s)[1..] == rest[1..];
        assert s == [s[0]] + (rest[0] + "." + Join(rest[1..]));
      } else if s[0] == '.' {
        assert Labels(s)[1..] == rest;
      }
    }
  }

  lemma FirstLabelGrows(c: string, rest: seq<string>, more: seq<string>)
    requires rest != []
    ensures [c + (rest + more)[0]] + (rest + more)[1..] == [c + rest[0]] + rest[1..] + more
    ensures [""] + (rest + more) == [""] + rest + more
  {
  }

  lemma {:induction false} LabelsAtDot(a: string, b: string)
    ensures Labels(a + "." + b) == Labels(a) + Labels(b)
  {
    if a == "" {
      assert ("" + "." + b)[1..] == b;
    } else {
      LabelsAtDot(a[1..], b);
      assert (a + "." + b)[1..] == a[1..] + "." + b;
      FirstLabelGrows([a[0]], Labels(a[1..]), Labels(b));
    }
  }

  lemma {:induction false} LabelsHaveNoDot(s: string)
    ensures forall l :: l in Labels(s) ==> '.' !in l
    ensures '.' !in s ==> Labels(s) == [s]
    ensures '.' in s ==> |Labels(s)| >= 2
  {
    if s != "" {
      LabelsHaveNoDot(s[1..]);
      var rest := Labels(s[1..]);
      assert rest[0] in rest;
      assert s == [s[0]] + s[1..];
    }
  }

  lemma ApexOfTwo(a: string, b: string)
    requires '.' !in a && '.' !in b
    ensures Apex(a + "." + b) == a + "." + b
  {
    LabelsAtDot(a, b);
    LabelsHaveNoDot(a);
    LabelsHaveNoDot(b);
  }

  lemma ApexByLastTwo(s: string)
    requires |Labels(s)| >= 2
    ensures var l := Labels(s); Apex(s) == l[|l| - 2] + "." + l[|l| - 1]
  {
    var l := Labels(s);
    var tail := l[|l| - 2..];
    JoinLabels(s);
    assert tail[0] == l[|l| - 2] && tail[1..] == [l[|l| - 1]];
    assert Join(tail) == tail[0] + "." + Join(tail[1..]);
    assert |l| == 2 ==> tail == l;
  }

  /** Taking the apex twice is taking it once. */
  lemma ApexIdempotent(name: string)
    ensures Apex(Apex(name)) == Apex(name)
  {
    var l := Labels(name);
    if |l| > 2 {
      ApexByLastTwo(name);
      LabelsHaveNoDot(name);
      assert l[|l| - 2] in l && l[|l| - 1] in l;
      ApexOfTwo(l[|l| - 2], l[|l| - 1]);
    }
  }

  predicate EndsWith(s: string, tail: string) {
    |tail| <= |s| && s[|s| - |tail|..] == tail
  }

  lemma {:induction false} JoinEndsWithTail(labels: seq<string>, k: nat)
    requires k < |labels|
    ensures EndsWith(Join(labels), Join(labels[k..]))
  {
    if k == 0 {
      assert labels[0..] == labels;
    } else {
      JoinEndsWithTail(labels[1..], k - 1);
      assert labels[1..][k - 1..] == labels[k..];
      var s, rest := Join(labels), Join(labels[1..]);
      assert s == (labels[0] + ".") + rest;
      assert s[|s| - |rest|..] == rest;
      var tail := Join(labels[k..]);
      assert s[|s| - |tail|..] == rest[|rest| - |tail|..];
    }
  }

  /** The apex is always a suffix of the name. */
  lemma ApexIsSuffix(name: string)
    ensures EndsWith(name, Apex(name))
  {
    var l := Labels(name);
    if |l| > 2 {
      JoinLabels(name);
      JoinEndsWithTail(l, |l| - 2);
    }
  }

  lemma DotMakesLabels(front: string, base: string)
    requires '.' !in front
    ensures Labels(front + "." + base) == [front] + Labels(base)
  {
    LabelsAtDot(front, base);
    LabelsHaveNoDot(front);
  }

  /** A label in front keeps the apex of a name of at least two labels, and of no other. */
  lemma ApexPastLabel(front: string, base: string)
    requires '.' !in front
    ensures Apex(front + "." + base) == Apex(base) <==> '.' in base
  {
    var name := front + "." + base;
    DotMakesLabels(front, base);
    LabelsHaveNoDot(base);
    if '.' in base {
      ApexByLastTwo(name);
      ApexByLastTwo(base);
    } else {
      assert Apex(name) == name && Apex(base) == base && |name| > |base|;
    }
  }

  lemma WildcardSharesRecord(d: string)
    requires !("*." <= d)
    ensures RecordName("*." + d) == RecordName(d) && Base("*." + d) == Base(d) == d
  {
    assert ("*." + d)[2..] == d;
  }

  lemma ChallengeLabelHasNoDot()
    ensures '.' !in CHALLENGE_LABEL
  {
  }

  /** The challenge record of an identifier, wildcard or not, lies under the apex of its base domain
      exactly when that domain has at least two labels; `d` and `*.d` share their record. */
  lemma RecordUnderApex(identifier: string)
    ensures Apex(RecordName(identifier)) == Apex(Base(identifier)) <==> '.' in Base(identifier)
    ensures !("*." <= identifier) ==> RecordName("*." + identifier) == RecordName(identifier)
    ensures !("*." <= identifier) ==> Base("*." + identifier) == Base(identifier) == identifier
  {
    ChallengeLabelHasNoDot();
    ApexPastLabel(CHALLENGE_LABEL, Base(identifier));
    if !("*." <= identifier) {
      WildcardSharesRecord(identifier);
    }
  }

  // ---- percent-encoding ----------------------------------------------------

  /** Unreserved bytes of section 2.3 of RFC 3986. */
  predicate Unreserved(b: byte) {
    'A' as int <= b <= 'Z' as int || 'a' as int <= b <= 'z' as int || '0' as int <= b <= '9' as int
    || b == '-' as int || b == '_' as int || b == '.' as int || b == '~' as int
  }

  function UpperHex(v: int): char
    requires 0 <= v < 16
  {
    if v < 10 then '0' + v as char else 'A' + (v - 10) as char
  }

  function EncodeByte(b: byte): (r: string)
    ensures r != ""
  {
    if Unreserved(b) then [b as char] else ['%', UpperHex(b / 16), UpperHex(b % 16)]
  }

  /** The unreserved characters of section 2.3 of RFC 3986, and the digits of section 2.1. */
  const UNRESERVED := UPPER + LOWER + DIGITS + "-._~"
  const HEX := "0123456789ABCDEF"

  lemma UnreservedInTable(b: byte)
    ensures Unreserved(b) <==> b as char in UNRESERVED
  {
    InARow();
    if 'A' as int <= b <= 'Z' as int {
      assert UPPER[b - 65] == b as char;
    } else if 'a' as int <= b <= 'z' as int {
      assert LOWER[b - 97] == b as char;
    } else if '0' as int <= b <= '9' as int {
      assert DIGITS[b - 48] == b as char;
    }
  }

  /** A byte is its own character if unreserved, and otherwise a percent sign and two upper-case digits. */
  lemma EncodedByte(b: byte)
    ensures EncodeByte(b) == if b as char in UNRESERVED then [b as char] else ['%', HEX[b / 16], HEX[b % 16]]
  {
    UnreservedInTable(b);
    assert forall v :: 0 <= v < 10 ==> HEX[v] as int == 48 + v;
    assert forall v :: 10 <= v < 16 ==> HEX[v] as int == 65 + v - 10;
  }

  function Percent(bytes: seq<byte>): string {
    if bytes == [] then "" else EncodeByte(bytes[0]) + Percent(bytes[1..])
  }

  lemma {:induction false} PercentAppend(bytes: seq<byte>, b: byte)
    ensures Percent(bytes + [b]) == Percent(bytes) + EncodeByte(b)
  {
    if bytes == [] {
      assert [b][1..] == [];
      assert Percent([b]) == EncodeByte(b) + "";
    } else {
      PercentAppend(bytes[1..], b);
      assert (bytes + [b])[1..] == bytes[1..] + [b];
    }
  }

  /** `urlencoding_encode`. */
  method UrlEncode(s: string) returns (out: string)
    ensures out == Percent(Utf8.Encode(s))
  {
    var bytes := Utf8.Encode(s);
    out := "";
    for i := 0 to |bytes|
      invariant out == Percent(bytes[..i])
    {
      PercentAppend(bytes[..i], bytes[i]);
      assert bytes[..i + 1] == bytes[..i] + [bytes[i]];
      if Unreserved(bytes[i]) {
        out := out + [bytes[i] as char];
      } else {
        out := out + ['%', UpperHex(bytes[i] / 16), UpperHex(bytes[i] % 16)];
      }
    }
    assert bytes[..|bytes|] == bytes;
  }

  function HexValue(c: char): (r: Option<int>)
    ensures r.Some? ==> 0 <= r.value < 16
  {
    if '0' <= c <= '9' then Some((c - '0') as int)
    else if 'A' <= c <= 'F' then Some((c - 'A') as int + 10)
    else if 'a' <= c <= 'f' then Some((c - 'a') as int + 10)
    else None
  }

  /** Section 2.1 of RFC 3986: a percent sign and two hexadecimal digits stand for one byte. */
  function PercentDecode(s: string): Option<seq<byte>> {
    if s == "" then Some([])
    else if s[0] == '%' then
      if |s| < 3 || HexValue(s[1]).None? || HexValue(s[2]).None? then None
      else
        match PercentDecode(s[3..])
        case None => None
        case Some(rest) => Some([HexValue(s[1]).value * 16 + HexValue(s[2]).value] + rest)
    else if s[0] as int >= 256 then None
    else
      match PercentDecode(s[1..])
      case None => None
      case Some(rest) => Some([s[0] as int] + rest)
  }

  lemma HexRoundTrip(v: int)
    requires 0 <= v < 16
    ensures HexValue(UpperHex(v)) == Some(v)
  {
  }

  lemma DecodeByte(b: byte, rest: string)
    ensures PercentDecode(EncodeByte(b) + rest) ==
            match PercentDecode(rest) case None => None case Some(tail) => Some([b] + tail)
  {
    var s := EncodeByte(b) + rest;
    if Unreserved(b) {
      assert s[1..] == rest;
    } else {
      HexRoundTrip(b / 16);
      HexRoundTrip(b % 16);
      assert s[3..] == rest;
    }
  }

  /** Every byte string decodes back. */
  lemma {:induction false} PercentRoundTrip(bytes: seq<byte>)
    ensures PercentDecode(Percent(bytes)) == Some(bytes)
  {
    if bytes != [] {
      PercentRoundTrip(bytes[1..]);
      DecodeByte(bytes[0], Percent(bytes[1..]));
      assert bytes == [bytes[0]] + bytes[1..];
    }
  }

  /** Text of unreserved characters is left as it is, and no other text is. */
  lemma {:induction false} UnreservedUntouched(bytes: seq<byte>)
    ensures |Percent(bytes)| >= |bytes|
    ensures (|Percent(bytes)| == |bytes| && forall k :: 0 <= k < |bytes| ==> Percent(bytes)[k] == bytes[k] as char)
       <==> forall k :: 0 <= k < |bytes| ==> Unreserved(bytes[k])
  {
    if bytes != [] {
      UnreservedUntouched(bytes[1..]);
      var head, rest := EncodeByte(bytes[0]), Percent(bytes[1..]);
      if Unreserved(bytes[0]) {
        assert forall k :: 1 <= k < |bytes| ==> bytes[k] == bytes[1..][k - 1];
        assert forall k :: 1 <= k < |Percent(bytes)| ==> Percent(bytes)[k] == rest[k - 1];
        assert forall k :: 0 <= k < |bytes| - 1 ==> bytes[1..][k] == bytes[k + 1];
        assert |rest| == |bytes| - 1 ==> forall k :: 0 <= k < |rest| ==> rest[k] == Percent(bytes)[k + 1];
      }
    }
  }
}
