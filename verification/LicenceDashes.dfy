/** Where `--` and `-licensed-` can stand in a base64url text of UTF-8: the two things the file-name
    reader would take for separators. */
module LicenceDashes {
  import opened Common
  import opened Text
  import opened Base64Url
  import opened LicenceJson

  /** The bytes of one group give two dashes in a row: `…11`, EF and a trail byte, or `…1111` and BE. */
  predicate Dashed(b0: Byte, b1: Byte, b2: Byte) {
    (b0 % 4 == 3 && b1 == 0xEF && b2 / 64 == 2) || (b1 % 16 == 15 && b2 == 0xBE)
  }

  /** Some group does, counting in threes from the first byte. */
  predicate DashesMeet(b: seq<Byte>) {
    |b| >= 3 && (Dashed(b[0], b[1], b[2]) || DashesMeet(b[3..]))
  }

  predicate Both(v: seq<Sextet>, i: nat) {
    i + 1 < |v| && v[i] == 62 && v[i + 1] == 62
  }

  predicate HasPair(v: seq<Sextet>) {
    exists i :: 0 <= i < |v| && Both(v, i)
  }

  predicate NoneHigh(b: seq<Byte>) {
    forall i :: 0 <= i < |b| ==> b[i] < 248
  }

  function Group(b0: Byte, b1: Byte, b2: Byte): seq<Sextet> {
    [b0 / 4, b0 % 4 * 16 + b1 / 16, b1 % 16 * 4 + b2 / 64, b2 % 64]
  }

  lemma GroupPair(b0: Byte, b1: Byte, b2: Byte)
    requires b0 < 248
    ensures HasPair(Group(b0, b1, b2)) <==> Dashed(b0, b1, b2)
  {
    var v := Group(b0, b1, b2);
    assert !Both(v, 0) && !Both(v, 3);
    assert Both(v, 1) <==> b0 % 4 == 3 && b1 == 0xEF && b2 / 64 == 2;
    assert Both(v, 2) <==> b1 % 16 == 15 && b2 == 0xBE;
  }

  lemma PairAppend(g: seq<Sextet>, rest: seq<Sextet>)
    requires |g| > 0 && (|rest| > 0 ==> rest[0] != 62)
    ensures HasPair(g + rest) <==> HasPair(g) || HasPair(rest)
  {
    var v := g + rest;
    if HasPair(g) {
      var i :| 0 <= i < |g| && Both(g, i);
      assert Both(v, i);
    }
    if HasPair(rest) {
      var i :| 0 <= i < |rest| && Both(rest, i);
      assert Both(v, |g| + i);
    }
    if HasPair(v) {
      var i :| 0 <= i < |v| && Both(v, i);
      if i < |g| - 1 {
        assert Both(g, i);
      } else {
        assert i >= |g|;
        assert Both(rest, i - |g|);
      }
    }
  }

  lemma FirstSextet(b: seq<Byte>)
    requires NoneHigh(b) && |b| > 0
    ensures |Sextets(b)| > 0 && Sextets(b)[0] != 62
  {
  }

  lemma {:induction false} MeetSextets(b: seq<Byte>)
    requires NoneHigh(b)
    ensures HasPair(Sextets(b)) <==> DashesMeet(b)
  {
    if |b| >= 3 {
      var g, rest := Group(b[0], b[1], b[2]), Sextets(b[3..]);
      MeetSextets(b[3..]);
      GroupPair(b[0], b[1], b[2]);
      if |b| > 3 {
        FirstSextet(b[3..]);
      }
      PairAppend(g, rest);
      assert Sextets(b) == g + rest;
    }
  }

  lemma SymbolOf(b: seq<Byte>, i: nat)
    requires i < |Sextets(b)|
    ensures |Encode(b)| == |Sextets(b)|
    ensures IsSymbol(Encode(b)[i]) && Sextets(b)[i] == Value(Encode(b)[i])
    ensures Sextets(b)[i] == 62 <==> Encode(b)[i] == '-'
  {
    SymbolValue(Sextets(b)[i]);
  }

  lemma PairAt(s: string, i: nat)
    requires i + 2 <= |s|
    ensures At(s, "--", i) <==> s[i] == '-' && s[i + 1] == '-'
  {
    assert s[i..i + 2] == [s[i], s[i + 1]];
  }

  lemma EncodedPair(b: seq<Byte>)
    ensures Contains(Encode(b), "--") <==> HasPair(Sextets(b))
  {
    var v, e := Sextets(b), Encode(b);
    if HasPair(v) {
      var i :| 0 <= i < |v| && Both(v, i);
      SymbolOf(b, i);
      SymbolOf(b, i + 1);
      PairAt(e, i);
    }
    if Contains(e, "--") {
      var i :| 0 <= i <= |e| && At(e, "--", i);
      PairAt(e, i);
      SymbolOf(b, i);
      SymbolOf(b, i + 1);
      assert Both(v, i);
    }
  }

  lemma ReversedPair(s: string)
    requires Contains(s, "--")
    ensures Contains(Reverse(s), "--")
  {
    var i :| 0 <= i <= |s| && At(s, "--", i);
    PairAt(s, i);
    PairAt(Reverse(s), |s| - 2 - i);
  }

  /** Two dashes meet in the printed name of a UTF-8 text if and only if one of its groups is dashed. */
  lemma DashesMeetExactly(b: seq<Byte>)
    requires Utf8Shaped(b)
    ensures Contains(Reverse(Encode(b)), "--") <==> DashesMeet(b)
  {
    forall i | 0 <= i < |b| ensures b[i] < 248 {
      LeadThenTrail(b, i);
    }
    MeetSextets(b);
    EncodedPair(b);
    var e := Encode(b);
    ReverseTwice(e);
    if Contains(e, "--") {
      ReversedPair(e);
    }
    if Contains(Reverse(e), "--") {
      ReversedPair(Reverse(e));
    }
  }

  lemma {:induction false} AsciiNeverMeets(b: seq<Byte>)
    requires IsAscii(b)
    ensures !DashesMeet(b)
  {
    if |b| >= 3 {
      AsciiNeverMeets(b[3..]);
    }
  }

  // `-licensed-`

  lemma FirstGroupOf(b: seq<Byte>, v: seq<Sextet>)
    requires v == Sextets(b) && |v| >= 4
    ensures |b| >= 3 && b[0] == FirstByte(v[0], v[1]) && b[1] == SecondByte(v[1], v[2]) && b[2] == ThirdByte(v[2], v[3])
  {
    assert |b| >= 3;
    assert v[..4] == Group(b[0], b[1], b[2]);
    BytesOfGroup(b[0], b[1], b[2], v[..4]);
  }

  lemma BytesOfGroup(b0: Byte, b1: Byte, b2: Byte, g: seq<Sextet>)
    requires g == Group(b0, b1, b2)
    ensures b0 == FirstByte(g[0], g[1]) && b1 == SecondByte(g[1], g[2]) && b2 == ThirdByte(g[2], g[3])
  {
    GroupBytes(b0, b1, b2);
  }

  lemma GroupAt(b: seq<Byte>, k: nat)
    requires 4 * k + 3 < |Sextets(b)|
    ensures 3 * k + 2 < |b|
    ensures var v := Sextets(b);
            && b[3 * k] == FirstByte(v[4 * k], v[4 * k + 1])
            && b[3 * k + 1] == SecondByte(v[4 * k + 1], v[4 * k + 2])
            && b[3 * k + 2] == ThirdByte(v[4 * k + 2], v[4 * k + 3])
  {
    var i, j, v := 4 * k, 3 * k, Sextets(b);
    SextetsEnough(b, k);
    SuffixSextets(b, k, i, j);
    FirstGroupOf(b[j..], v[i..]);
  }

  /** No group spells a lead byte followed by anything but a trail byte. */
  lemma NoSuchGroup(b: seq<Byte>, k: nat, v1: Sextet, v2: Sextet, v3: Sextet)
    requires Utf8Shaped(b) && 4 * k + 3 < |Sextets(b)|
    requires SecondByte(v1, v2) >= 192 && !IsTrail(ThirdByte(v2, v3))
    ensures var v := Sextets(b); !(v[4 * k + 1] == v1 && v[4 * k + 2] == v2 && v[4 * k + 3] == v3)
  {
    GroupAt(b, k);
    LeadThenTrail(b, 3 * k + 1);
  }

  lemma NotHigh(b: seq<Byte>, k: nat)
    requires Utf8Shaped(b) && 4 * k + 3 < |Sextets(b)|
    ensures Sextets(b)[4 * k] != 62
  {
    GroupAt(b, k);
    LeadThenTrail(b, 3 * k);
  }

  /** `v` spells the start of `-desnecil-` at `j`. */
  predicate Spells(v: seq<Sextet>, j: nat)
    requires j + 6 <= |v|
  {
    v[j] == 62 && v[j + 1] == 29 && v[j + 2] == 30 && v[j + 3] == 44 && v[j + 4] == 39 && v[j + 5] == 30
  }

  lemma NotInGroup(b: seq<Byte>, k: nat, j: nat)
    requires Utf8Shaped(b) && j + 6 <= |Sextets(b)| && (j == 4 * k || j == 4 * k + 1)
    ensures !Spells(Sextets(b), j)
  {
    NotHigh(b, k);
    NoSuchGroup(b, k, 62, 29, 30);
  }

  lemma NotOverGroup(b: seq<Byte>, k: nat, j: nat)
    requires Utf8Shaped(b) && j + 6 <= |Sextets(b)| && k > 0 && (j + 2 == 4 * k || j + 1 == 4 * k)
    ensures !Spells(Sextets(b), j)
  {
    NoSuchGroup(b, k, 44, 39, 30);
    NoSuchGroup(b, k, 30, 44, 39);
  }

  /** Wherever it started, that would need a broken UTF-8 sequence. */
  lemma NoSuchSextets(b: seq<Byte>, j: nat)
    requires Utf8Shaped(b) && j + 6 <= |Sextets(b)|
    ensures !Spells(Sextets(b), j)
  {
    if j % 4 < 2 {
      NotInGroup(b, j / 4, j);
    } else {
      NotOverGroup(b, j / 4 + 1, j);
    }
  }

  lemma LicensedReversed(s: string, i: nat, p: string)
    requires At(Reverse(s), p, i)
    ensures i + |p| <= |s| && s[|s| - i - |p|..|s| - i] == Reverse(p)
  {
    var r := Reverse(s);
    var j := |s| - i - |p|;
    forall m | 0 <= m < |p| ensures s[j..j + |p|][m] == Reverse(p)[m] {
      assert r[i..i + |p|][|p| - 1 - m] == p[|p| - 1 - m];
    }
  }

  lemma SextetAt(b: seq<Byte>, j: nat, word: string, m: nat)
    requires j + |word| <= |Encode(b)| && Encode(b)[j..j + |word|] == word && m < |word|
    ensures |Encode(b)| == |Sextets(b)| && IsSymbol(word[m]) && Sextets(b)[j + m] == Value(word[m])
  {
    SymbolOf(b, j + m);
    assert Encode(b)[j..j + |word|][m] == Encode(b)[j + m];
  }

  lemma SpelledSo(b: seq<Byte>, j: nat, word: string)
    requires |word| == 10 && j + |word| <= |Encode(b)| && Encode(b)[j..j + |word|] == word
    requires word[0] == '-' && word[1] == 'd' && word[2] == 'e' && word[3] == 's' && word[4] == 'n' && word[5] == 'e'
    ensures |Encode(b)| == |Sextets(b)| && Spells(Sextets(b), j)
  {
    SextetAt(b, j, word, 0);
    SextetAt(b, j, word, 1);
    SextetAt(b, j, word, 2);
    SextetAt(b, j, word, 3);
    SextetAt(b, j, word, 4);
    SextetAt(b, j, word, 5);
  }

  lemma LettersReversed(p: string, word: string)
    requires |p| == 10 && word == Reverse(p)
    ensures |word| == 10 && forall m :: 0 <= m < 10 ==> word[m] == p[9 - m]
  {
  }

  lemma NotSpelledAt(b: seq<Byte>, e: string, p: string, i: nat)
    requires Utf8Shaped(b) && e == Encode(b) && |p| == 10
    requires p[9] == '-' && p[8] == 'd' && p[7] == 'e' && p[6] == 's' && p[5] == 'n' && p[4] == 'e'
    ensures !At(Reverse(e), p, i)
  {
    if At(Reverse(e), p, i) {
      var word := Reverse(p);
      LettersReversed(p, word);
      LicensedReversed(e, i, p);
      var j := |e| - i - |p|;
      SpelledSo(b, j, word);
      NoSuchSextets(b, j);
    }
  }

  /** The printed name of a UTF-8 text never holds the word the reader splits on. */
  lemma NeverLicensed(b: seq<Byte>, p: string)
    requires Utf8Shaped(b) && p == "-licensed-"
    ensures !Contains(Reverse(Encode(b)), p)
  {
    var e := Encode(b);
    forall i | 0 <= i <= |e| ensures !At(Reverse(e), p, i) {
      NotSpelledAt(b, e, p, i);
    }
  }
}
