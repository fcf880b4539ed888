/** A licence as JSON, byte for byte as `serde_json` prints the four fields: compact, in the order of
    declaration, quotes, backslashes and control characters escaped, everything else as UTF-8. */
module LicenceJson {
  import opened Common

  datatype CustomServer = CustomServer(key: string, host: string, api: string, relay: string)

  const QUOTE: Byte := 34
  const BACKSLASH: Byte := 92

  predicate AsciiText(s: string) {
    forall i :: 0 <= i < |s| ==> s[i] < 128 as char
  }

  predicate AsciiLicence(lic: CustomServer) {
    AsciiText(lic.key) && AsciiText(lic.host) && AsciiText(lic.api) && AsciiText(lic.relay)
  }

  function Ascii(s: string): (b: seq<Byte>)
    requires AsciiText(s)
    ensures |b| == |s| && IsAscii(b)
  {
    seq(|s|, i requires 0 <= i < |s| => s[i] as int)
  }

  function Utf8(c: char): seq<Byte> {
    var n := c as int;
    var q := n / 64;
    if n < 0x80 then [n]
    else if n < 0x800 then [192 + q, 128 + n % 64]
    else if n < 0x10000 then [224 + q / 64, 128 + q % 64, 128 + n % 64]
    else [240 + q / 64 / 64, 128 + q / 64 % 64, 128 + q % 64, 128 + n % 64]
  }

  function Hex(n: nat): Byte
    requires n < 16
  {
    if n < 10 then 48 + n else 87 + n
  }

  /** The letter of a two-character escape, if the character has one. */
  function Short(n: int): Option<Byte> {
    if n == 34 || n == 92 then Some(n)
    else if n == 8 then Some(98)
    else if n == 9 then Some(116)
    else if n == 10 then Some(110)
    else if n == 12 then Some(102)
    else if n == 13 then Some(114)
    else None
  }

  function Escape(c: char): seq<Byte> {
    var n := c as int;
    if Short(n).Some? then [BACKSLASH, Short(n).value]
    else if n < 32 then [BACKSLASH, 117, 48, 48, Hex(n / 16), Hex(n % 16)]
    else Utf8(c)
  }

  function Escaped(s: string): seq<Byte> {
    if |s| == 0 then [] else Escape(s[0]) + Escaped(s[1..])
  }

  /** A string up to and including its closing quote, then `rest`. */
  function Quoted(s: string, rest: seq<Byte>): seq<Byte> {
    Escaped(s) + ([QUOTE] + rest)
  }

  function Json(lic: CustomServer): seq<Byte> {
    Ascii("{\"key\":\"") + Quoted(lic.key,
    Ascii(",\"host\":\"") + Quoted(lic.host,
    Ascii(",\"api\":\"") + Quoted(lic.api,
    Ascii(",\"relay\":\"") + Quoted(lic.relay, Ascii("}")))))
  }

  // What the printed bytes mean

  /** The number that lead and trail bytes spell. */
  function Number(b: seq<int>): int {
    if |b| == 1 then b[0]
    else if |b| == 2 then (b[0] - 192) * 64 + (b[1] - 128)
    else if |b| == 3 then ((b[0] - 224) * 64 + (b[1] - 128)) * 64 + (b[2] - 128)
    else if |b| == 4 then (((b[0] - 240) * 64 + (b[1] - 128)) * 64 + (b[2] - 128)) * 64 + (b[3] - 128)
    else 0
  }

  function LengthByLead(lead: Byte): nat {
    if lead < 128 then 1 else if lead < 224 then 2 else if lead < 240 then 3 else 4
  }

  function Digit(b: Byte): Option<nat> {
    if 48 <= b <= 57 then Some(b - 48)
    else if 97 <= b <= 102 then Some(b - 87)
    else if 65 <= b <= 70 then Some(b - 55)
    else None
  }

  function FourDigits(a: Byte, b: Byte, c: Byte, d: Byte): Option<int> {
    if Digit(a).Some? && Digit(b).Some? && Digit(c).Some? && Digit(d).Some? then
      Some(((Digit(a).value * 16 + Digit(b).value) * 16 + Digit(c).value) * 16 + Digit(d).value)
    else None
  }

  /** The escapes of section 7 of RFC 8259: the letter behind the backslash, and the character it stands for. */
  const ESCAPES: map<Byte, int> :=
    map[34 := 34, 92 := 92, 47 := 47, 98 := 8, 102 := 12, 110 := 10, 114 := 13, 116 := 9]

  /** The first character of a string's text, and how many bytes it takes. */
  function FirstChar(b: seq<Byte>): Option<(int, nat)>
    requires |b| > 0
  {
    if b[0] == BACKSLASH then
      if |b| >= 2 && b[1] in ESCAPES then Some((ESCAPES[b[1]], 2))
      else if |b| >= 6 && b[1] == 117 && FourDigits(b[2], b[3], b[4], b[5]).Some? then
        Some((FourDigits(b[2], b[3], b[4], b[5]).value, 6))
      else None
    else
      var k := LengthByLead(b[0]);
      if k <= |b| then Some((Number(b[..k]), k)) else None
  }

  predicate IsScalar(n: int) {
    0 <= n < 0xD800 || 0xE000 <= n < 0x110000
  }

  /** A string up to its closing quote, and what follows. */
  function ReadString(b: seq<Byte>): Option<(string, seq<Byte>)>
    decreases |b|
  {
    if |b| == 0 then None
    else if b[0] == QUOTE then Some(("", b[1..]))
    else
      match FirstChar(b)
      case None => None
      case Some((n, k)) =>
        if !IsScalar(n) then None
        else
          match ReadString(b[k..])
          case None => None
          case Some((s, rest)) => Some(([n as char] + s, rest))
  }

  /** The fields of these names, in this order: their values, and what follows. */
  function ReadFields(names: seq<seq<Byte>>, b: seq<Byte>): Option<(seq<string>, seq<Byte>)> {
    if |names| == 0 then Some(([], b))
    else if !(names[0] <= b) then None
    else
      match ReadString(b[|names[0]|..])
      case None => None
      case Some((value, rest)) =>
        match ReadFields(names[1..], rest)
        case None => None
        case Some((values, end)) => Some(([value] + values, end))
  }

  function FieldNames(): seq<seq<Byte>> {
    [Ascii("{\"key\":\""), Ascii(",\"host\":\""), Ascii(",\"api\":\""), Ascii(",\"relay\":\"")]
  }

  lemma Utf8Number(c: char, x: seq<Byte>)
    ensures |Utf8(c)| > 0 && LengthByLead((Utf8(c) + x)[0]) == |Utf8(c)| && Number(Utf8(c)) == c as int
  {
  }

  lemma EscapeMeans(c: char, x: seq<Byte>)
    ensures |Escape(c)| > 0 && Escape(c)[0] != QUOTE
    ensures FirstChar(Escape(c) + x) == Some((c as int, |Escape(c)|))
  {
    var n, b := c as int, Escape(c) + x;
    if Short(n).Some? {
      assert b[0] == BACKSLASH && b[1] == Short(n).value;
    } else if n < 32 {
      assert b[0] == BACKSLASH && b[1] == 117;
      assert b[2] == 48 && b[3] == 48 && b[4] == Hex(n / 16) && b[5] == Hex(n % 16);
    } else {
      Utf8Number(c, x);
      assert b[..|Utf8(c)|] == Utf8(c);
    }
  }

  /** A character that has an escape letter is printed with it; of the eight only the slash needs none. */
  lemma EscapeTable(letter: Byte, c: char)
    requires letter in ESCAPES && letter != 47 && c as int == ESCAPES[letter]
    ensures Escape(c) == [BACKSLASH, letter]
  {
  }

  lemma QuotedStep(s: string, x: seq<Byte>)
    requires |s| > 0
    ensures Quoted(s, x) == Escape(s[0]) + Quoted(s[1..], x)
  {
  }

  lemma {:induction false} QuotedMeans(s: string, x: seq<Byte>)
    ensures ReadString(Quoted(s, x)) == Some((s, x))
  {
    var b := Quoted(s, x);
    if |s| == 0 {
      assert b == [QUOTE] + x;
    } else {
      var rest, k := Quoted(s[1..], x), |Escape(s[0])|;
      QuotedStep(s, x);
      EscapeMeans(s[0], rest);
      assert b[k..] == rest;
      QuotedMeans(s[1..], x);
      assert [s[0]] + s[1..] == s;
    }
  }

  lemma FieldMeans(name: seq<Byte>, names: seq<seq<Byte>>, s: string, values: seq<string>, x: seq<Byte>,
                   end: seq<Byte>)
    requires ReadFields(names, x) == Some((values, end))
    ensures ReadFields([name] + names, name + Quoted(s, x)) == Some(([s] + values, end))
  {
    assert ([name] + names)[1..] == names;
    assert (name + Quoted(s, x))[|name|..] == Quoted(s, x);
    QuotedMeans(s, x);
  }

  /** Two more fields in front. */
  lemma TwoMean(k: seq<Byte>, h: seq<Byte>, names: seq<seq<Byte>>, s: string, t: string, values: seq<string>,
                x: seq<Byte>, end: seq<Byte>)
    requires ReadFields(names, x) == Some((values, end))
    ensures ReadFields([k, h] + names, k + Quoted(s, h + Quoted(t, x))) == Some(([s, t] + values, end))
  {
    FieldMeans(h, names, t, values, x, end);
    FieldMeans(k, [h] + names, s, [t] + values, h + Quoted(t, x), end);
    assert [k] + ([h] + names) == [k, h] + names;
    assert [s] + ([t] + values) == [s, t] + values;
  }

  lemma FieldsMean(k: seq<Byte>, h: seq<Byte>, p: seq<Byte>, r: seq<Byte>, end: seq<Byte>, lic: CustomServer)
    ensures var b := k + Quoted(lic.key, h + Quoted(lic.host, p + Quoted(lic.api, r + Quoted(lic.relay, end))));
            ReadFields([k, h, p, r], b) == Some(([lic.key, lic.host, lic.api, lic.relay], end))
  {
    var b2 := p + Quoted(lic.api, r + Quoted(lic.relay, end));
    TwoMean(p, r, [], lic.api, lic.relay, [], end, end);
    TwoMean(k, h, [p, r] + [], lic.key, lic.host, [lic.api, lic.relay] + [], b2, end);
    assert [k, h] + ([p, r] + []) == [k, h, p, r];
    assert [lic.key, lic.host] + ([lic.api, lic.relay] + []) == [lic.key, lic.host, lic.api, lic.relay];
  }

  /** A printed licence says what it should: read by the rules of JSON, its four fields hold their values,
      in the order of declaration, and only the closing brace follows. */
  lemma JsonMeans(lic: CustomServer)
    ensures ReadFields(FieldNames(), Json(lic))
         == Some(([lic.key, lic.host, lic.api, lic.relay], Ascii("}")))
  {
    var names, end := FieldNames(), Ascii("}");
    FieldsMean(names[0], names[1], names[2], names[3], end, lic);
    assert names == [names[0], names[1], names[2], names[3]];
  }

  /** So different licences print differently. */
  lemma JsonInjective(a: CustomServer, b: CustomServer)
    requires Json(a) == Json(b)
    ensures a == b
  {
    JsonMeans(a);
    JsonMeans(b);
  }

  // The shape of the bytes

  predicate IsTrail(b: Byte) {
    128 <= b < 192
  }

  /** Lead and trail bytes in the right numbers. */
  predicate Utf8Shaped(b: seq<Byte>) {
    if |b| == 0 then true
    else if b[0] < 128 then Utf8Shaped(b[1..])
    else if 192 <= b[0] < 224 then |b| >= 2 && IsTrail(b[1]) && Utf8Shaped(b[2..])
    else if 224 <= b[0] < 240 then |b| >= 3 && IsTrail(b[1]) && IsTrail(b[2]) && Utf8Shaped(b[3..])
    else
      240 <= b[0] < 248 && |b| >= 4 && IsTrail(b[1]) && IsTrail(b[2]) && IsTrail(b[3]) && Utf8Shaped(b[4..])
  }

  /** Every lead byte is followed by a trail byte, and none is above 247. */
  lemma {:induction false} LeadThenTrail(b: seq<Byte>, i: nat)
    requires Utf8Shaped(b) && i < |b|
    ensures b[i] < 248 && (b[i] >= 192 ==> i + 1 < |b| && IsTrail(b[i + 1]))
  {
    var k := if b[0] < 128 then 1 else if b[0] < 224 then 2 else if b[0] < 240 then 3 else 4;
    if i >= k {
      LeadThenTrail(b[k..], i - k);
    }
  }

  /** Every trail byte follows a lead byte or another trail byte. */
  lemma {:induction false} TrailBefore(b: seq<Byte>, i: nat)
    requires Utf8Shaped(b) && i < |b| && IsTrail(b[i])
    ensures i > 0 && b[i - 1] >= 128
  {
    var k := if b[0] < 128 then 1 else if b[0] < 224 then 2 else if b[0] < 240 then 3 else 4;
    if i >= k {
      TrailBefore(b[k..], i - k);
    }
  }

  lemma {:induction false} AsciiShaped(a: seq<Byte>, rest: seq<Byte>)
    requires IsAscii(a) && Utf8Shaped(rest)
    ensures Utf8Shaped(a + rest)
  {
    if |a| == 0 {
      assert a + rest == rest;
    } else {
      AsciiShaped(a[1..], rest);
      assert (a + rest)[1..] == a[1..] + rest;
    }
  }

  lemma EscapeShaped(c: char, rest: seq<Byte>)
    requires Utf8Shaped(rest)
    ensures Utf8Shaped(Escape(c) + rest)
  {
    var e := Escape(c);
    var b := e + rest;
    if IsAscii(e) {
      AsciiShaped(e, rest);
    } else {
      assert e == Utf8(c);
      assert b[|e|..] == rest;
      assert forall i :: 0 <= i < |e| ==> b[i] == e[i];
    }
  }

  lemma {:induction false} QuotedShaped(s: string, rest: seq<Byte>)
    requires Utf8Shaped(rest)
    ensures Utf8Shaped(Quoted(s, rest))
  {
    if |s| == 0 {
      AsciiShaped([QUOTE], rest);
      assert Quoted(s, rest) == [QUOTE] + rest;
    } else {
      QuotedShaped(s[1..], rest);
      EscapeShaped(s[0], Quoted(s[1..], rest));
      QuotedStep(s, rest);
    }
  }

  lemma FieldShaped(name: seq<Byte>, s: string, rest: seq<Byte>)
    requires IsAscii(name) && Utf8Shaped(rest)
    ensures Utf8Shaped(name + Quoted(s, rest))
  {
    QuotedShaped(s, rest);
    AsciiShaped(name, Quoted(s, rest));
  }

  /** Every printed licence is UTF-8. */
  lemma JsonShaped(lic: CustomServer)
    ensures Utf8Shaped(Json(lic))
  {
    var end := Ascii("}");
    AsciiShaped(end, []);
    assert end + [] == end;
    var x3 := Ascii(",\"relay\":\"") + Quoted(lic.relay, end);
    FieldShaped(Ascii(",\"relay\":\""), lic.relay, end);
    var x2 := Ascii(",\"api\":\"") + Quoted(lic.api, x3);
    FieldShaped(Ascii(",\"api\":\""), lic.api, x3);
    var x1 := Ascii(",\"host\":\"") + Quoted(lic.host, x2);
    FieldShaped(Ascii(",\"host\":\""), lic.host, x2);
    FieldShaped(Ascii("{\"key\":\""), lic.key, x1);
  }

  lemma {:induction false} EscapedAscii(s: string)
    requires AsciiText(s)
    ensures IsAscii(Escaped(s))
  {
    if |s| > 0 {
      EscapedAscii(s[1..]);
      assert IsAscii(Escape(s[0]));
    }
  }

  lemma QuotedAscii(s: string, rest: seq<Byte>)
    requires AsciiText(s) && IsAscii(rest)
    ensures IsAscii(Quoted(s, rest))
  {
    EscapedAscii(s);
  }

  /** A licence in ASCII is printed in ASCII. */
  lemma JsonAscii(lic: CustomServer)
    requires AsciiLicence(lic)
    ensures IsAscii(Json(lic))
  {
    var x3 := Ascii(",\"relay\":\"") + Quoted(lic.relay, Ascii("}"));
    QuotedAscii(lic.relay, Ascii("}"));
    var x2 := Ascii(",\"api\":\"") + Quoted(lic.api, x3);
    QuotedAscii(lic.api, x3);
    var x1 := Ascii(",\"host\":\"") + Quoted(lic.host, x2);
    QuotedAscii(lic.host, x2);
    QuotedAscii(lic.key, x1);
  }

  lemma FieldEnds(name: seq<Byte>, s: string, rest: seq<Byte>)
    requires |name| > 0 && |rest| > 0
    ensures var b := name + Quoted(s, rest);
            |b| >= 2 && b[0] == name[0] && b[|b| - 1] == rest[|rest| - 1]
  {
  }

  /** It is one object: the first byte is `{` (123), the last `}` (125). */
  lemma JsonEnds(lic: CustomServer)
    ensures |Json(lic)| >= 2 && Json(lic)[0] == 123 && Json(lic)[|Json(lic)| - 1] == 125
  {
    var k, h, p, r := Ascii("{\"key\":\""), Ascii(",\"host\":\""), Ascii(",\"api\":\""), Ascii(",\"relay\":\"");
    var end := Ascii("}");
    assert k[0] == 123 && end[0] == 125;
    EndsOf(k, h, p, r, end, lic);
  }

  lemma EndsOf(k: seq<Byte>, h: seq<Byte>, p: seq<Byte>, r: seq<Byte>, end: seq<Byte>, lic: CustomServer)
    requires |k| > 0 && |h| > 0 && |p| > 0 && |r| > 0 && |end| > 0
    ensures var b := k + Quoted(lic.key, h + Quoted(lic.host, p + Quoted(lic.api, r + Quoted(lic.relay, end))));
            |b| >= 2 && b[0] == k[0] && b[|b| - 1] == end[|end| - 1]
  {
    FieldEnds(r, lic.relay, end);
    var x3 := r + Quoted(lic.relay, end);
    FieldEnds(p, lic.api, x3);
    var x2 := p + Quoted(lic.api, x3);
    FieldEnds(h, lic.host, x2);
    FieldEnds(k, lic.key, h + Quoted(lic.host, x2));
  }

  // No document ends in another one

  /** `{"k` around the position `i`. */
  predicate StartAt(b: seq<Byte>, i: nat)
    requires 1 <= i < |b| - 1
  {
    b[i - 1] == 123 && b[i] == QUOTE && b[i + 1] == 107
  }

  predicate NoStart(b: seq<Byte>) {
    forall i :: 1 <= i < |b| - 1 ==> !StartAt(b, i)
  }

  /** A quote inside a string is escaped. */
  lemma {:induction false} QuoteEscaped(s: string, i: nat)
    requires i < |Escaped(s)| && Escaped(s)[i] == QUOTE
    ensures i > 0 && Escaped(s)[i - 1] == BACKSLASH
  {
    var k := |Escape(s[0])|;
    if i < k {
      EscapeQuote(s[0], i);
    } else {
      QuoteEscaped(s[1..], i - k);
    }
  }

  lemma EscapeQuote(c: char, i: nat)
    requires i < |Escape(c)| && Escape(c)[i] == QUOTE
    ensures i == 1 && Escape(c)[0] == BACKSLASH
  {
  }

  predicate NoBraceQuote(name: seq<Byte>) {
    |name| > 0 && name[|name| - 1] != 123 && forall i :: 1 <= i < |name| && name[i] == QUOTE ==> name[i - 1] != 123
  }

  lemma FieldStart(name: seq<Byte>, s: string, rest: seq<Byte>)
    requires NoBraceQuote(name) && NoStart(rest) && |rest| > 0 && rest[0] != QUOTE && rest[0] != 107
    ensures NoStart(name + Quoted(s, rest))
  {
    var b, m, n := name + Quoted(s, rest), |name|, |name| + |Escaped(s)|;
    forall i | 1 <= i < |b| - 1 ensures !StartAt(b, i) {
      if m <= i < n {
        assert b[i] == Escaped(s)[i - m];
        if b[i] == QUOTE {
          QuoteEscaped(s, i - m);
          assert b[i - 1] == Escaped(s)[i - 1 - m];
        }
      } else if i > n {
        var j := i - n - 1;
        assert b[i] == rest[j] && b[i + 1] == rest[j + 1];
        if j > 0 {
          assert b[i - 1] == rest[j - 1] && !StartAt(rest, j);
        }
      }
    }
  }

  /** The document behind its first brace. */
  lemma OpenStart(k: seq<Byte>, h: seq<Byte>, p: seq<Byte>, r: seq<Byte>, end: seq<Byte>, lic: CustomServer)
    requires NoBraceQuote(k) && NoBraceQuote(h) && NoBraceQuote(p) && NoBraceQuote(r)
    requires h[0] == 44 && p[0] == 44 && r[0] == 44 && |end| == 1 && end[0] == 125
    ensures NoStart(k + Quoted(lic.key, h + Quoted(lic.host, p + Quoted(lic.api, r + Quoted(lic.relay, end)))))
  {
    FieldStart(r, lic.relay, end);
    var x3 := r + Quoted(lic.relay, end);
    FieldStart(p, lic.api, x3);
    var x2 := p + Quoted(lic.api, x3);
    FieldStart(h, lic.host, x2);
    FieldStart(k, lic.key, h + Quoted(lic.host, x2));
  }

  lemma JsonStart(lic: CustomServer)
    ensures |Json(lic)| > 3 && NoStart(Json(lic)[1..]) && StartAt(Json(lic), 1)
  {
    var brace, k := Ascii("{\"key\":\""), Ascii("\"key\":\"");
    var h, p, r, end := Ascii(",\"host\":\""), Ascii(",\"api\":\""), Ascii(",\"relay\":\""), Ascii("}");
    assert brace == [123] + k && k[0] == QUOTE && k[1] == 107;
    NamesPlain(k, h, p, r);
    OpenStart(k, h, p, r, end, lic);
    var x := Quoted(lic.key, h + Quoted(lic.host, p + Quoted(lic.api, r + Quoted(lic.relay, end))));
    BehindBrace(brace, k, x);
    assert Json(lic) == brace + x;
  }

  lemma BehindBrace(brace: seq<Byte>, k: seq<Byte>, x: seq<Byte>)
    requires brace == [123] + k && |k| > 1 && k[0] == QUOTE && k[1] == 107 && |x| > 0
    ensures var b := brace + x; |b| > 3 && b[1..] == k + x && StartAt(b, 1)
  {
  }

  lemma NamesPlain(k: seq<Byte>, h: seq<Byte>, p: seq<Byte>, r: seq<Byte>)
    requires k == Ascii("\"key\":\"") && h == Ascii(",\"host\":\"")
    requires p == Ascii(",\"api\":\"") && r == Ascii(",\"relay\":\"")
    ensures NoBraceQuote(k) && NoBraceQuote(h) && NoBraceQuote(p) && NoBraceQuote(r)
  {
  }

  /** What is left of a printed document without its beginning is no printed document. */
  lemma SuffixIsNoDocument(a: CustomServer, b: CustomServer, i: nat)
    requires 0 < i <= |Json(a)|
    ensures Json(a)[i..] != Json(b)
  {
    JsonStart(a);
    JsonStart(b);
    var x := Json(a);
    if i + 2 < |x| {
      assert !StartAt(x[1..], i);
      assert !StartAt(x[i..], 1);
    }
  }
}
