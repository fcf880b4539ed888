/** base64url (section 5 of RFC 4648) with the padding omitted, the `URL_SAFE_NO_PAD` engine that
    `gen_name` and `get_custom_server_from_config_string` share. Decoding is strict: an unknown
    symbol, a lone trailing symbol and non-zero trailing bits are all errors. */
module Base64Url {
  import opened Common

  type Sextet = v: int | 0 <= v < 64

  // Bytes to sextets and back

  function Sextets(b: seq<Byte>): seq<Sextet> {
    if |b| == 0 then []
    else if |b| == 1 then [b[0] / 4, b[0] % 4 * 16]
    else if |b| == 2 then [b[0] / 4, b[0] % 4 * 16 + b[1] / 16, b[1] % 16 * 4]
    else
      [b[0] / 4, b[0] % 4 * 16 + b[1] / 16, b[1] % 16 * 4 + b[2] / 64, b[2] % 64] + Sextets(b[3..])
  }

  function FirstByte(v0: Sextet, v1: Sextet): Byte {
    v0 as int * 4 + v1 / 16
  }

  function SecondByte(v1: Sextet, v2: Sextet): Byte {
    v1 as int % 16 * 16 + v2 / 4
  }

  function ThirdByte(v2: Sextet, v3: Sextet): Byte {
    v2 as int % 4 * 64 + v3
  }

  function Bytes(v: seq<Sextet>): Option<seq<Byte>> {
    if |v| == 0 then Some([])
    else if |v| == 1 then None
    else if |v| == 2 then
      if v[1] % 16 == 0 then Some([FirstByte(v[0], v[1])]) else None
    else if |v| == 3 then
      if v[2] % 4 == 0 then Some([FirstByte(v[0], v[1]), SecondByte(v[1], v[2])]) else None
    else
      match Bytes(v[4..])
      case None => None
      case Some(rest) =>
        Some([FirstByte(v[0], v[1]), SecondByte(v[1], v[2]), ThirdByte(v[2], v[3])] + rest)
  }

  lemma GroupBytes(b0: Byte, b1: Byte, b2: Byte)
    ensures FirstByte(b0 / 4, b0 % 4 * 16 + b1 / 16) == b0
    ensures SecondByte(b0 % 4 * 16 + b1 / 16, b1 % 16 * 4 + b2 / 64) == b1
    ensures ThirdByte(b1 % 16 * 4 + b2 / 64, b2 % 64) == b2
  {
  }

  lemma BytesOfPair(v0: Sextet, v1: Sextet)
    requires v1 % 16 == 0
    ensures Bytes([v0, v1]) == Some([FirstByte(v0, v1)])
  {
  }

  lemma BytesOfTriple(v0: Sextet, v1: Sextet, v2: Sextet)
    requires v2 % 4 == 0
    ensures Bytes([v0, v1, v2]) == Some([FirstByte(v0, v1), SecondByte(v1, v2)])
  {
  }

  lemma BytesAppend(v0: Sextet, v1: Sextet, v2: Sextet, v3: Sextet, rest: seq<Sextet>)
    requires Bytes(rest).Some?
    ensures Bytes([v0, v1, v2, v3] + rest)
         == Some([FirstByte(v0, v1), SecondByte(v1, v2), ThirdByte(v2, v3)] + Bytes(rest).value)
  {
    assert ([v0, v1, v2, v3] + rest)[4..] == rest;
  }

  lemma BytesOfOne(b0: Byte)
    ensures Bytes(Sextets([b0])) == Some([b0])
  {
    var v0: Sextet, v1: Sextet := b0 / 4, b0 % 4 * 16;
    assert Sextets([b0]) == [v0, v1];
    BytesOfPair(v0, v1);
    assert FirstByte(v0, v1) == b0;
  }

  lemma BytesOfTwo(b0: Byte, b1: Byte)
    ensures Bytes(Sextets([b0, b1])) == Some([b0, b1])
  {
    var v0: Sextet, v1: Sextet, v2: Sextet := b0 / 4, b0 % 4 * 16 + b1 / 16, b1 % 16 * 4;
    assert Sextets([b0, b1]) == [v0, v1, v2];
    BytesOfTriple(v0, v1, v2);
    assert FirstByte(v0, v1) == b0 && SecondByte(v1, v2) == b1 by {
      GroupBytes(b0, b1, 0);
    }
  }

  lemma {:induction false} BytesOfSextets(b: seq<Byte>)
    ensures Bytes(Sextets(b)) == Some(b)
  {
    if |b| == 0 {
    } else if |b| == 1 {
      BytesOfOne(b[0]);
      assert b == [b[0]];
    } else if |b| == 2 {
      BytesOfTwo(b[0], b[1]);
      assert b == [b[0], b[1]];
    } else {
      GroupBytes(b[0], b[1], b[2]);
      BytesOfSextets(b[3..]);
      BytesAppend(b[0] / 4, b[0] % 4 * 16 + b[1] / 16, b[1] % 16 * 4 + b[2] / 64, b[2] % 64,
                  Sextets(b[3..]));
      assert b == [b[0], b[1], b[2]] + b[3..];
    }
  }

  lemma FirstOfGroup(v0: Sextet, v1: Sextet)
    ensures FirstByte(v0, v1) / 4 == v0 && FirstByte(v0, v1) % 4 == v1 / 16
  {
  }

  lemma SecondOfGroup(v1: Sextet, v2: Sextet)
    ensures SecondByte(v1, v2) / 16 == v1 % 16 && SecondByte(v1, v2) % 16 == v2 / 4
  {
  }

  lemma ThirdOfGroup(v2: Sextet, v3: Sextet)
    ensures ThirdByte(v2, v3) / 64 == v2 % 4 && ThirdByte(v2, v3) % 64 == v3
  {
  }

  lemma GroupSextets(v0: Sextet, v1: Sextet, v2: Sextet, v3: Sextet)
    ensures Sextets([FirstByte(v0, v1), SecondByte(v1, v2), ThirdByte(v2, v3)]) == [v0, v1, v2, v3]
  {
    FirstOfGroup(v0, v1);
    SecondOfGroup(v1, v2);
    ThirdOfGroup(v2, v3);
  }

  lemma TripleSextets(v0: Sextet, v1: Sextet, v2: Sextet)
    requires v2 % 4 == 0
    ensures Sextets([FirstByte(v0, v1), SecondByte(v1, v2)]) == [v0, v1, v2]
  {
    FirstOfGroup(v0, v1);
    SecondOfGroup(v1, v2);
  }

  lemma PairSextets(v0: Sextet, v1: Sextet)
    requires v1 % 16 == 0
    ensures Sextets([FirstByte(v0, v1)]) == [v0, v1]
  {
    FirstOfGroup(v0, v1);
  }

  lemma SextetsAppend(b0: Byte, b1: Byte, b2: Byte, rest: seq<Byte>)
    ensures Sextets([b0, b1, b2] + rest) == Sextets([b0, b1, b2]) + Sextets(rest)
  {
    assert ([b0, b1, b2] + rest)[3..] == rest;
  }

  lemma {:induction false} SextetsOfBytes(v: seq<Sextet>)
    requires Bytes(v).Some?
    ensures Sextets(Bytes(v).value) == v
  {
    if |v| >= 4 {
      GroupSextets(v[0], v[1], v[2], v[3]);
      SextetsOfBytes(v[4..]);
      SextetsAppend(FirstByte(v[0], v[1]), SecondByte(v[1], v[2]), ThirdByte(v[2], v[3]),
                    Bytes(v[4..]).value);
      assert v == [v[0], v[1], v[2], v[3]] + v[4..];
    } else if |v| == 3 {
      TripleSextets(v[0], v[1], v[2]);
      assert v == [v[0], v[1], v[2]];
    } else if |v| == 2 {
      PairSextets(v[0], v[1]);
      assert v == [v[0], v[1]];
    }
  }

  function FirstGroup(v: seq<Sextet>): seq<Byte>
    requires |v| >= 4
  {
    [FirstByte(v[0], v[1]), SecondByte(v[1], v[2]), ThirdByte(v[2], v[3])]
  }

  lemma BytesFrom(v: seq<Sextet>, w: seq<Sextet>)
    requires |v| >= 4 && w == v[4..]
    ensures Bytes(v).Some? <==> Bytes(w).Some?
    ensures Bytes(v).Some? ==> Bytes(v).value == FirstGroup(v) + Bytes(w).value
  {
  }

  /** What decoding comes to, seen from the end: which lengths and trailing bits are errors, and the
      last byte otherwise. */
  predicate Decodable(v: seq<Sextet>) {
    || |v| % 4 == 0
    || (|v| % 4 == 2 && v[|v| - 1] % 16 == 0)
    || (|v| % 4 == 3 && v[|v| - 1] % 4 == 0)
  }

  predicate EndsSo(v: seq<Sextet>, b: seq<Byte>)
    requires |v| >= 2
  {
    && |b| > 0
    && (|v| % 4 == 3 ==> b[|b| - 1] == SecondByte(v[|v| - 2], v[|v| - 1]))
    && (|v| % 4 == 0 ==> b[|b| - 1] == ThirdByte(v[|v| - 2], v[|v| - 1]))
  }

  lemma {:induction false} LastByte(v: seq<Sextet>)
    requires |v| > 0
    ensures Bytes(v).Some? <==> Decodable(v)
    ensures Bytes(v).Some? ==> |v| >= 2 && EndsSo(v, Bytes(v).value)
  {
    if |v| > 4 {
      var w := v[4..];
      LastByte(w);
      BytesFrom(v, w);
      SameEnd(v, w);
      if Bytes(w).Some? {
        EndsLonger(v, w, FirstGroup(v), Bytes(w).value);
      }
    } else if |v| == 4 {
      BytesFrom(v, v[4..]);
    }
  }

  lemma SameEnd(v: seq<Sextet>, w: seq<Sextet>)
    requires |v| > 4 && w == v[4..]
    ensures |w| % 4 == |v| % 4 && w[|w| - 1] == v[|v| - 1]
    ensures Decodable(w) <==> Decodable(v)
  {
  }

  lemma EndsLonger(v: seq<Sextet>, w: seq<Sextet>, g: seq<Byte>, b: seq<Byte>)
    requires |v| > 5 && w == v[4..] && EndsSo(w, b)
    ensures EndsSo(v, g + b)
  {
    assert |w| % 4 == |v| % 4 && w[|w| - 1] == v[|v| - 1] && w[|w| - 2] == v[|v| - 2];
    assert (g + b)[|g + b| - 1] == b[|b| - 1];
  }

  lemma Regrouped(g: seq<Byte>, a: seq<Byte>, b: seq<Byte>)
    ensures g + (a + b) == g + a + b
  {
  }

  lemma ConcatStep(v: seq<Sextet>, w: seq<Sextet>, rest: seq<Sextet>, both: seq<Sextet>)
    requires |v| >= 4 && rest == v[4..] && both == rest + w && Bytes(v).Some? && Bytes(rest).Some? && Bytes(w).Some?
    requires Bytes(both) == Some(Bytes(rest).value + Bytes(w).value)
    ensures Bytes(v + w) == Some(Bytes(v).value + Bytes(w).value)
  {
    BytesFrom(v, rest);
    assert (v + w)[4..] == both;
    BytesFrom(v + w, both);
    assert FirstGroup(v + w) == FirstGroup(v);
    Regrouped(FirstGroup(v), Bytes(rest).value, Bytes(w).value);
  }

  /** The sextets from group `k` on are those of the bytes from group `k` on. */
  lemma {:induction false} SuffixSextets(b: seq<Byte>, k: nat, i: nat, j: nat)
    requires j == 3 * k <= |b| && i == 4 * k
    ensures i <= |Sextets(b)| && Sextets(b)[i..] == Sextets(b[j..])
  {
    if k > 0 {
      var b', v := b[3..], Sextets(b);
      var v' := Sextets(b');
      SuffixSextets(b', k - 1, i - 4, j - 3);
      assert v[4..] == v' && b'[j - 3..] == b[j..];
      assert v'[i - 4..] == v[i..];
    } else {
      assert b[j..] == b;
    }
  }

  lemma {:induction false} SextetsEnough(b: seq<Byte>, k: nat)
    requires 4 * k <= |Sextets(b)|
    ensures 3 * k <= |b|
  {
    if k > 0 {
      assert |b| < 3 ==> |Sextets(b)| < 4;
      SextetsEnough(b[3..], k - 1);
    }
  }

  /** Whole groups decode on their own. */
  lemma {:induction false} BytesConcat(v: seq<Sextet>, w: seq<Sextet>, groups: nat)
    requires |v| == 4 * groups && Bytes(v).Some? && Bytes(w).Some?
    ensures Bytes(v + w) == Some(Bytes(v).value + Bytes(w).value)
  {
    if groups == 0 {
      assert v == [] && v + w == w;
      assert Bytes(v).value + Bytes(w).value == Bytes(w).value;
    } else {
      var rest := v[4..];
      BytesFrom(v, rest);
      BytesConcat(rest, w, groups - 1);
      ConcatStep(v, w, rest, rest + w);
    }
  }

  lemma {:induction false} SextetCount(b: seq<Byte>, k: nat, r: nat)
    requires |b| == 3 * k + r && r < 3
    ensures |Sextets(b)| == 4 * k + (if r == 0 then 0 else r + 1)
  {
    if k > 0 {
      SextetCount(b[3..], k - 1, r);
    }
  }

  // Sextets to symbols and back

  function Symbol(v: Sextet): char {
    if v < 26 then (65 + v) as char
    else if v < 52 then (71 + v) as char
    else if v < 62 then (v - 4) as char
    else if v == 62 then '-'
    else '_'
  }

  predicate IsSymbol(c: char) {
    'A' <= c <= 'Z' || 'a' <= c <= 'z' || '0' <= c <= '9' || c == '-' || c == '_'
  }

  function Value(c: char): Sextet
    requires IsSymbol(c)
  {
    if 'A' <= c <= 'Z' then c as int - 65
    else if 'a' <= c <= 'z' then c as int - 71
    else if '0' <= c <= '9' then c as int + 4
    else if c == '-' then 62
    else 63
  }

  lemma SymbolValue(v: Sextet)
    ensures IsSymbol(Symbol(v)) && Value(Symbol(v)) == v
  {
  }

  lemma ValueSymbol(c: char)
    requires IsSymbol(c)
    ensures Symbol(Value(c)) == c
  {
  }

  predicate AllSymbols(s: string) {
    forall i :: 0 <= i < |s| ==> IsSymbol(s[i])
  }

  function Encode(b: seq<Byte>): string {
    var v := Sextets(b);
    seq(|v|, i requires 0 <= i < |v| => Symbol(v[i]))
  }

  function Decode(s: string): Option<seq<Byte>> {
    if AllSymbols(s) then Bytes(seq(|s|, i requires 0 <= i < |s| => Value(s[i]))) else None
  }

  lemma EncodeSymbols(b: seq<Byte>)
    ensures AllSymbols(Encode(b))
  {
    var v := Sextets(b);
    forall i | 0 <= i < |v| ensures IsSymbol(Symbol(v[i])) {
      SymbolValue(v[i]);
    }
  }

  /** Decoding undoes encoding, for every byte string. */
  lemma DecodeEncode(b: seq<Byte>)
    ensures Decode(Encode(b)) == Some(b)
  {
    EncodeSymbols(b);
    var v, s := Sextets(b), Encode(b);
    forall i | 0 <= i < |v| ensures Value(Symbol(v[i])) == v[i] {
      SymbolValue(v[i]);
    }
    assert seq(|s|, i requires 0 <= i < |s| => Value(s[i])) == v;
    BytesOfSextets(b);
  }

  /** Every string the decoder accepts is the one the encoder writes for those bytes. */
  lemma EncodeDecode(s: string)
    requires Decode(s).Some?
    ensures Encode(Decode(s).value) == s
  {
    var v: seq<Sextet> := seq(|s|, i requires 0 <= i < |s| => Value(s[i]));
    SextetsOfBytes(v);
    forall i | 0 <= i < |s| ensures Symbol(v[i]) == s[i] {
      ValueSymbol(s[i]);
    }
  }

  // Where the symbol `-` can stand

  /** ASCII bytes give the sextet of `-` nowhere but at positions 3 modulo 4. */
  lemma {:induction false} SextetPositions(b: seq<Byte>, i: nat)
    requires IsAscii(b) && i < |Sextets(b)| && Sextets(b)[i] == 62
    ensures i % 4 == 3
  {
    if |b| >= 3 && i >= 4 {
      SextetPositions(b[3..], i - 4);
    }
  }

  lemma DashPositions(b: seq<Byte>, i: nat)
    requires IsAscii(b)
    requires i < |Encode(b)| && Encode(b)[i] == '-'
    ensures i % 4 == 3
  {
    SymbolValue(Sextets(b)[i]);
    SextetPositions(b, i);
  }

  lemma {:induction false} LastSextet(b: seq<Byte>)
    requires |b| > 0 && b[|b| - 1] == 125
    ensures |Sextets(b)| > 0
    ensures Sextets(b)[|Sextets(b)| - 1] in {61, 16, 52}
  {
    if |b| > 3 {
      LastSextet(b[3..]);
    }
  }

  lemma {:induction false} LastBits(b: seq<Byte>)
    requires |b| > 0
    ensures |Sextets(b)| > 0
    ensures var last := b[|b| - 1]; Sextets(b)[|Sextets(b)| - 1] in {last % 64, last % 16 * 4, last % 4 * 16}
  {
    if |b| > 3 {
      LastBits(b[3..]);
    }
  }

  /** Bytes that end in `}` (125) encode to a string that ends in `9`, `Q` or `0`. */
  lemma LastSymbol(b: seq<Byte>)
    requires |b| > 0 && b[|b| - 1] == 125
    ensures |Encode(b)| > 0
    ensures Encode(b)[|Encode(b)| - 1] in {'9', 'Q', '0'}
  {
    LastSextet(b);
  }
}
