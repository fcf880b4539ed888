/** What the reader makes of a name it does not see whole: a printed name cut where two dashes meet.
    Neither its first nor its last piece is ever a licence, so only pieces between two cuts can be. */
module LicencePieces {
  import opened Common
  import opened Text
  import opened LicenceJson
  import opened LicenceName
  import opened LicenceDashes
  import opened LicenceHeads
  import opened LicenceParts
  import opened LicenceRoundTrip
  import opened LicenceLimits
  import Base64Url

  /** The pieces between the first cut and the last. */
  function Middle(n: string): seq<string> {
    var pieces := Split(n, "--");
    if |pieces| < 2 then [] else pieces[1..|pieces| - 1]
  }

  // The first and the last piece

  /** The first piece ends at `i` and the last one begins behind `j`, both cuts. */
  predicate EndsAt(s: string, p: string, i: nat, j: nat)
    requires |p| > 0
  {
    && |Split(s, p)| >= 2 && At(s, p, i) && At(s, p, j)
    && Split(s, p)[0] == s[..i] && Split(s, p)[|Split(s, p)| - 1] == s[j + |p|..]
  }

  lemma {:induction false} SplitEnds(s: string, p: string) returns (i: nat, j: nat)
    requires |p| > 0 && Contains(s, p)
    ensures EndsAt(s, p, i, j)
    decreases |s|
  {
    if p <= s {
      var rest := s[|p|..];
      if Contains(rest, p) {
        var i', j' := SplitEnds(rest, p);
        HitEnds(s, p, rest, i', j');
        i, j := 0, |p| + j';
      } else {
        LastHit(s, p, rest);
        i, j := 0, 0;
      }
    } else {
      ContainsLater(s, p);
      var i', j' := SplitEnds(s[1..], p);
      ShiftEnds(s, p, s[1..], i', j');
      i, j := i' + 1, j' + 1;
    }
  }

  lemma HitEnds(s: string, p: string, rest: string, i: nat, j: nat)
    requires |p| > 0 && p <= s && rest == s[|p|..] && EndsAt(rest, p, i, j)
    ensures EndsAt(s, p, 0, |p| + j)
  {
    assert s == p + rest;
    AtBehind(p, rest, p, j);
    assert Split(s, p) == [""] + Split(rest, p);
    assert rest[j + |p|..] == s[|p| + j + |p|..];
  }

  lemma LastHit(s: string, p: string, rest: string)
    requires |p| > 0 && p <= s && rest == s[|p|..] && !Contains(rest, p)
    ensures EndsAt(s, p, 0, 0)
  {
    SplitNone(rest, p);
    assert Split(s, p) == [""] + [rest];
  }

  lemma ContainsLater(s: string, p: string)
    requires |p| > 0 && Contains(s, p) && !(p <= s)
    ensures |s| > 0 && Contains(s[1..], p)
  {
    var k :| 0 <= k <= |s| && At(s, p, k);
    assert k > 0;
    AtShifted(s, p, k - 1);
  }

  lemma ShiftEnds(s: string, p: string, rest: string, i: nat, j: nat)
    requires |p| > 0 && |s| > 0 && !(p <= s) && rest == s[1..] && EndsAt(rest, p, i, j)
    ensures EndsAt(s, p, i + 1, j + 1)
  {
    AtShifted(s, p, i);
    AtShifted(s, p, j);
    var parts := Split(rest, p);
    assert Split(s, p) == [[s[0]] + parts[0]] + parts[1..];
    assert [s[0]] + rest[..i] == s[..i + 1];
    assert rest[j + |p|..] == s[j + 1 + |p|..];
  }

  /** A cut of the reversed text is a cut of the text. */
  lemma CutReversed(e: string, i: nat, sep: string) returns (j: nat)
    requires sep == "--" && At(Reverse(e), sep, i)
    ensures j == |e| - 2 - i && At(e, sep, j)
    ensures Reverse(e)[..i] == Reverse(e[j + 2..]) && Reverse(e)[i + 2..] == Reverse(e[..j])
  {
    j := |e| - 2 - i;
    PairAt(Reverse(e), i);
    PairAt(e, j);
  }

  // What they decode to

  lemma {:induction false} LastTwo(b: seq<Byte>)
    requires |b| > 0 && b[|b| - 1] == 125
    ensures var v := Base64Url.Sextets(b);
            && |v| % 4 != 1 && |v| >= 2
            && (|v| % 4 == 2 ==> v[|v| - 2] == 31 && v[|v| - 1] == 16)
            && (|v| % 4 == 3 ==> v[|v| - 2] % 4 == 3 && v[|v| - 1] == 52)
  {
    if |b| > 3 {
      var v, rest := Base64Url.Sextets(b), Base64Url.Sextets(b[3..]);
      LastTwo(b[3..]);
      Lengthened(Group(b[0], b[1], b[2]), rest);
      assert v == Group(b[0], b[1], b[2]) + rest;
    }
  }

  lemma Lengthened(g: seq<Base64Url.Sextet>, rest: seq<Base64Url.Sextet>)
    requires |g| == 4 && |rest| >= 2
    ensures var v := g + rest;
            |v| % 4 == |rest| % 4 && v[|v| - 1] == rest[|rest| - 1] && v[|v| - 2] == rest[|rest| - 2]
  {
  }

  lemma DecodePart(b: seq<Byte>, i: nat, j: nat)
    requires i <= j <= |Base64Url.Encode(b)|
    ensures |Base64Url.Encode(b)| == |Base64Url.Sextets(b)|
    ensures Base64Url.Decode(Base64Url.Encode(b)[i..j]) == Base64Url.Bytes(Base64Url.Sextets(b)[i..j])
  {
    var e, v := Base64Url.Encode(b), Base64Url.Sextets(b);
    var x := e[i..j];
    Base64Url.EncodeSymbols(b);
    forall m | 0 <= m < |x| ensures Base64Url.Value(x[m]) == v[i..j][m] {
      SymbolOf(b, i + m);
    }
    assert seq(|x|, m requires 0 <= m < |x| => Base64Url.Value(x[m])) == v[i..j];
  }

  lemma BackByte(w: seq<Base64Url.Sextet>)
    requires |w| > 0 && |w| % 4 != 2
    requires |w| % 4 == 3 ==> w[|w| - 2] == 31 && w[|w| - 1] == 16
    requires |w| % 4 == 0 ==> w[|w| - 2] % 4 == 3 && w[|w| - 1] == 52
    ensures var d := Base64Url.Bytes(w); d.Some? ==> |d.value| > 0 && d.value[|d.value| - 1] == 244
  {
    Base64Url.LastByte(w);
  }

  lemma BackSextets(v: seq<Base64Url.Sextet>, i: nat, w: seq<Base64Url.Sextet>)
    requires i % 4 == 3 && i < |v| && |v| % 4 != 1 && w == v[i..|v|]
    requires |v| % 4 == 2 ==> v[|v| - 2] == 31 && v[|v| - 1] == 16
    requires |v| % 4 == 3 ==> v[|v| - 2] % 4 == 3 && v[|v| - 1] == 52
    ensures var d := Base64Url.Bytes(w); d.Some? ==> |d.value| > 0 && d.value[|d.value| - 1] == 244
  {
    Residue(|v|, i);
    assert |w| == |v| - i;
    assert |w| > 1 ==> w[|w| - 2] == v[|v| - 2];
    assert w[|w| - 1] == v[|v| - 1];
    BackByte(w);
  }

  lemma Residue(n: nat, i: nat)
    requires i % 4 == 3 && i < n
    ensures (n - i) % 4 == (n + 1) % 4
  {
  }

  /** What comes after it has one too few, or ends in a byte no document ends in. */
  lemma BackUnreadable(b: seq<Byte>, i: nat, n: nat)
    requires |b| > 0 && b[|b| - 1] == 125 && i % 4 == 3 && n == |Base64Url.Encode(b)| && i < n
    ensures var d := Base64Url.Decode(Base64Url.Encode(b)[i..n]);
            d.Some? ==> |d.value| > 0 && d.value[|d.value| - 1] == 244
  {
    var v := Base64Url.Sextets(b);
    DecodePart(b, i, n);
    LastTwo(b);
    BackSextets(v, i, v[i..n]);
  }

  lemma PairInFirst(b: seq<Byte>, r: nat)
    requires NoneHigh(b) && r < 4 && r + 1 < |Base64Url.Sextets(b)|
    requires Base64Url.Sextets(b)[r] == 62 && Base64Url.Sextets(b)[r + 1] == 62
    ensures |b| >= 3 && (r == 1 || r == 2)
    ensures if r == 1 then b[0] % 4 == 3 && b[1] == 0xEF && b[2] / 64 == 2 else b[1] % 16 == 15 && b[2] == 0xBE
  {
    if |b| > 3 {
      FirstSextet(b[3..]);
    }
  }

  /** Two dashes meet inside group `k`, or at its end. */
  lemma PairInGroup(b: seq<Byte>, m: nat, k: nat)
    requires NoneHigh(b) && m + 1 < |Base64Url.Sextets(b)| && 4 * k <= m < 4 * k + 4
    requires Base64Url.Sextets(b)[m] == 62 && Base64Url.Sextets(b)[m + 1] == 62
    ensures 3 * k + 2 < |b| && (m == 4 * k + 1 || m == 4 * k + 2)
    ensures if m == 4 * k + 1 then b[3 * k] % 4 == 3 && b[3 * k + 1] == 0xEF && b[3 * k + 2] / 64 == 2
            else b[3 * k + 1] % 16 == 15 && b[3 * k + 2] == 0xBE
  {
    var i, j := 4 * k, 3 * k;
    Base64Url.SextetsEnough(b, k);
    Base64Url.SuffixSextets(b, k, i, j);
    var b', v := b[j..], Base64Url.Sextets(b);
    assert v[i..][m - i] == 62 && v[i..][m - i + 1] == 62;
    PairInFirst(b', m - i);
    assert b'[0] == b[j] && b'[1] == b[j + 1] && b'[2] == b[j + 2];
  }

  lemma SextetsAt(b: seq<Byte>, k: nat)
    requires 3 * k + 2 < |b|
    ensures 4 * k + 3 < |Base64Url.Sextets(b)|
    ensures Base64Url.Sextets(b)[4 * k + 1] == b[3 * k] % 4 * 16 + b[3 * k + 1] / 16
    ensures Base64Url.Sextets(b)[4 * k + 2] == b[3 * k + 1] % 16 * 4 + b[3 * k + 2] / 64
  {
    var i, j := 4 * k, 3 * k;
    Base64Url.SuffixSextets(b, k, i, j);
    var b', v := b[j..], Base64Url.Sextets(b);
    FirstFour(b', v[i..]);
    assert v[i..][1] == v[i + 1] && v[i..][2] == v[i + 2];
  }

  lemma FirstFour(b: seq<Byte>, w: seq<Base64Url.Sextet>)
    requires |b| >= 3 && w == Base64Url.Sextets(b)
    ensures |w| >= 4 && w[1] == b[0] % 4 * 16 + b[1] / 16 && w[2] == b[1] % 16 * 4 + b[2] / 64
  {
  }

  lemma CutSextets(b: seq<Byte>, e: string, j: nat, sep: string)
    requires e == Base64Url.Encode(b) && sep == "--" && At(e, sep, j)
    ensures j + 1 < |Base64Url.Sextets(b)| && |e| == |Base64Url.Sextets(b)|
    ensures Base64Url.Sextets(b)[j] == 62 && Base64Url.Sextets(b)[j + 1] == 62
  {
    PairAt(e, j);
    SymbolOf(b, j);
    SymbolOf(b, j + 1);
  }

  lemma NoneAbove(b: seq<Byte>)
    requires Utf8Shaped(b)
    ensures NoneHigh(b)
  {
    forall i | 0 <= i < |b| ensures b[i] < 248 {
      LeadThenTrail(b, i);
    }
  }

  /** The bits left over where a cut ends a group: those of a byte beyond ASCII. */
  lemma BitsLeft(b: seq<Byte>, k: nat)
    requires Utf8Shaped(b) && 3 * k + 2 < |b| && b[3 * k + 2] == 0xBE
    ensures 4 * k + 1 < |Base64Url.Sextets(b)| && Base64Url.Sextets(b)[4 * k + 1] % 16 != 0
  {
    SextetsAt(b, k);
    TrailBefore(b, 3 * k + 2);
    HighNibble(b[3 * k], b[3 * k + 1]);
  }

  lemma HighNibble(b0: Byte, b1: Byte)
    requires b1 >= 128
    ensures (b0 % 4 * 16 + b1 / 16) % 16 != 0
  {
  }

  /** What comes before a cut has one symbol too many, or bits left over. */
  lemma FrontUnreadable(b: seq<Byte>, j: nat)
    requires Utf8Shaped(b) && j + 1 < |Base64Url.Sextets(b)|
    requires Base64Url.Sextets(b)[j] == 62 && Base64Url.Sextets(b)[j + 1] == 62
    ensures 0 < j && Base64Url.Bytes(Base64Url.Sextets(b)[0..j]) == None
  {
    NoneAbove(b);
    var v, k := Base64Url.Sextets(b), j / 4;
    PairInGroup(b, j, k);
    if j == 4 * k + 2 {
      BitsLeft(b, k);
    }
    Residues(j, k);
    NotDecoded(v[0..j], v, j);
  }

  lemma Residues(j: nat, k: nat)
    ensures j == 4 * k + 1 ==> j % 4 == 1
    ensures j == 4 * k + 2 ==> j % 4 == 2
    ensures j == 4 * k + 3 ==> j % 4 == 3
  {
  }

  lemma NotDecoded(w: seq<Base64Url.Sextet>, v: seq<Base64Url.Sextet>, j: nat)
    requires 0 < j <= |v| && w == v[0..j] && (j % 4 == 1 || (j % 4 == 2 && v[j - 1] % 16 != 0))
    ensures Base64Url.Bytes(w) == None
  {
    assert |w| == j && w[j - 1] == v[j - 1];
    Base64Url.LastByte(w);
  }

  // Neither is a licence

  predicate Unread(s: string, reader: Reader) {
    FirstLicence(Candidates(s), reader) == None
  }

  lemma HalfIsNoLicence(x: string, reader: Reader)
    requires Lawful(reader) && |x| > 0 && Base64Url.AllSymbols(x)
    requires var d := Base64Url.Decode(x); d.Some? ==> |d.value| > 0 && d.value[|d.value| - 1] == 244
    ensures Unread(Reverse(x), reader)
  {
    var s := Reverse(x);
    ReverseTwice(x);
    NoDocument(s, reader);
    TrimNothing(s);
    MissingChar(s, "(", 0);
    assert Candidates(s) == [s];
  }

  lemma LastPieceUnread(b: seq<Byte>, e: string, j: nat, sep: string, reader: Reader)
    requires Lawful(reader) && Utf8Shaped(b) && e == Base64Url.Encode(b) && sep == "--" && At(e, sep, j)
    ensures Unread(Reverse(e[..j]), reader)
  {
    CutSextets(b, e, j, sep);
    FrontUnreadable(b, j);
    DecodePart(b, 0, j);
    assert e[..j] == e[0..j];
    Base64Url.EncodeSymbols(b);
    HalfIsNoLicence(e[..j], reader);
  }

  /** The end of a text, from a group on, is the end of its encoding. */
  lemma SuffixDecodes(b: seq<Byte>, e: string, k: nat, i: nat)
    requires e == Base64Url.Encode(b) && i == 4 * k <= |e| && 3 * k <= |b|
    ensures Base64Url.Decode(e[i..|e|]) == Some(b[3 * k..])
  {
    var v := Base64Url.Sextets(b);
    Base64Url.SuffixSextets(b, k, i, 3 * k);
    DecodePart(b, i, |e|);
    Base64Url.BytesOfSextets(b[3 * k..]);
    assert v[i..|e|] == v[i..];
  }

  lemma SuffixUnread(lic: CustomServer, b: seq<Byte>, e: string, k: nat, i: nat, reader: Reader)
    requires Lawful(reader) && ReadsNoSuffix(reader) && b == Json(lic) && e == Base64Url.Encode(b)
    requires i == 4 * k < |e| && 0 < 3 * k <= |b|
    ensures Unread(Reverse(e[i..]), reader)
  {
    var x, j := e[i..|e|], 3 * k;
    SuffixDecodes(b, e, k, i);
    Base64Url.EncodeSymbols(b);
    assert Base64Url.AllSymbols(x);
    SuffixIsNoLicence(lic, j, x, reader);
    assert e[i..] == x;
  }

  lemma SuffixIsNoLicence(lic: CustomServer, i: nat, x: string, reader: Reader)
    requires Lawful(reader) && ReadsNoSuffix(reader) && 0 < i <= |Json(lic)|
    requires |x| > 0 && Base64Url.AllSymbols(x) && Base64Url.Decode(x) == Some(Json(lic)[i..])
    ensures Unread(Reverse(x), reader)
  {
    var s, b := Reverse(x), Json(lic);
    var d := b[i..];
    ReverseTwice(x);
    assert reader.parse(d) == None;
    if reader.verify(d).Some? {
      assert d[64..] == b[i + 64..];
      assert reader.parse(b[i + 64..]) == None;
    }
    assert FromConfigString(s, reader) == None;
    OnlyItself(s);
  }

  lemma OnlyItself(s: string)
    requires |s| > 0 && Base64Url.AllSymbols(s)
    ensures Trim(s) == s && Candidates(s) == [s]
  {
    TrimNothing(s);
    MissingChar(s, "(", 0);
  }

  lemma ShiftedUnread(b: seq<Byte>, e: string, i: nat, reader: Reader)
    requires Lawful(reader) && e == Base64Url.Encode(b) && i % 4 == 3 && i < |e|
    requires |b| > 0 && b[|b| - 1] == 125
    ensures Unread(Reverse(e[i..]), reader)
  {
    Base64Url.EncodeSymbols(b);
    BackUnreadable(b, i, |e|);
    assert e[i..] == e[i..|e|];
    HalfIsNoLicence(e[i..], reader);
  }

  /** Where the text goes on behind a cut: at the end of a group, or with the next one, number `k`. */
  lemma BehindCut(b: seq<Byte>, e: string, j: nat, sep: string) returns (i: nat, k: nat)
    requires Utf8Shaped(b) && e == Base64Url.Encode(b) && sep == "--" && At(e, sep, j)
    ensures i == j + 2 && 0 < 3 * k <= |b| && (i % 4 == 3 || i == 4 * k)
  {
    NoneAbove(b);
    CutSextets(b, e, j, sep);
    var g := j / 4;
    PairInGroup(b, j, g);
    i, k := j + 2, g + 1;
    Residues(i, g);
  }

  lemma FirstPieceUnread(lic: CustomServer, b: seq<Byte>, e: string, k: nat, i: nat, reader: Reader)
    requires Lawful(reader) && ReadsNoSuffix(reader) && b == Json(lic) && e == Base64Url.Encode(b)
    requires 0 < 3 * k <= |b| && b[|b| - 1] == 125
    requires i < |e| && (i % 4 == 3 || i == 4 * k)
    ensures Unread(Reverse(e[i..]), reader)
  {
    if i % 4 == 3 {
      ShiftedUnread(b, e, i, reader);
    } else {
      SuffixUnread(lic, b, e, k, i, reader);
    }
  }

  /** Behind the first cut of the printed name. */
  lemma BehindUnread(lic: CustomServer, e: string, j: nat, sep: string, reader: Reader)
    requires Lawful(reader) && ReadsNoSuffix(reader) && e == Base64Url.Encode(Json(lic))
    requires sep == "--" && At(e, sep, j) && j + 2 < |e|
    ensures Unread(Reverse(e[j + 2..]), reader)
  {
    JsonShaped(lic);
    JsonEnds(lic);
    var i, k := BehindCut(Json(lic), e, j, sep);
    FirstPieceUnread(lic, Json(lic), e, k, i, reader);
  }

  /** Both, for any printed name in which dashes meet. */
  lemma OuterPieces(lic: CustomServer, n: string, sep: string, reader: Reader)
    requires Lawful(reader) && n == GenName(lic) && sep == "--" && Contains(n, sep)
    ensures |Split(n, sep)| >= 2
    ensures ReadsNoSuffix(reader) ==> Unread(Split(n, sep)[0], reader)
    ensures Unread(Split(n, sep)[|Split(n, sep)| - 1], reader)
  {
    var e := Base64Url.Encode(Json(lic));
    var i, k := SplitEnds(n, sep);
    var k' := CutReversed(e, k, sep);
    JsonShaped(lic);
    LastPieceUnread(Json(lic), e, k', sep, reader);
    if ReadsNoSuffix(reader) {
      var i' := CutReversed(e, i, sep);
      GenNameEnds(lic);
      NotAtEnd(e, i', sep);
      BehindUnread(lic, e, i', sep, reader);
    }
  }

  lemma NotAtEnd(e: string, i: nat, sep: string)
    requires sep == "--" && At(e, sep, i) && |e| > 0 && Reverse(e)[0] in {'9', 'Q', '0'}
    ensures i + 2 < |e|
  {
    PairAt(e, i);
    assert Reverse(e)[0] == e[|e| - 1];
  }

  // The whole name

  lemma Sandwich(x: string, middle: seq<string>, z: string, reader: Reader)
    requires Unread(x, reader) && Unread(z, reader)
    ensures FirstLicence(AllCandidates([x] + middle + [z]), reader) == FirstLicence(AllCandidates(middle), reader)
  {
    AllCandidatesAppend([x] + middle, [z]);
    AllCandidatesAppend([x], middle);
    OneOf(x);
    OneOf(z);
    var a, m, c := Candidates(x), AllCandidates(middle), Candidates(z);
    FirstLicenceAppend(a + m, c, reader);
    FirstLicenceAppend(a, m, reader);
  }

  lemma OneOf(x: string)
    ensures AllCandidates([x]) == Candidates(x)
  {
    assert [x][1..] == [];
  }

  lemma {:induction false} UnreadAlone(x: string, reader: Reader)
    requires Unread(x, reader)
    ensures FirstLicence(AllCandidates([x]), reader) == None
  {
    OneOf(x);
  }

  lemma GenNameUnpatterned(lic: CustomServer, word: string)
    requires word == "licensed"
    ensures Fronted(GenName(lic)) && Unpatterned(GenName(lic), word)
  {
    var p := Pattern(word, 1);
    Patterns();
    GenNameEnds(lic);
    JsonShaped(lic);
    NeverLicensed(Json(lic), p);
  }

  lemma PlainStripped(head: string, n: string, ext: string)
    requires IsHead(head) && '.' !in n && '=' !in n && IsExtension(ext)
    ensures StripExe(head + n + ext) == head + n && !Contains(ToLower(head + n), "host=")
  {
    HeadChars(head);
    PlainExtension(head + n, ext);
    NotTheOtherForm(head + n, None);
    assert head + n + Tail(None) == head + n;
  }

  lemma PiecesBehindHead(prog: string, head: string, n: string, sep: string)
    requires prog == "rustdesk" && sep == "--" && IsHead(head) && Fronted(n) && Unpatterned(n, "licensed")
    ensures Split(Normalise(head + n), sep) == [prog] + Split(n, sep)
  {
    var word := "licensed";
    NormalisePlain(prog, head, n, word);
    assert Dash(2) == sep;
    SplitProgram(prog, sep, n);
  }

  lemma MiddleOf(n: string, sep: string, pieces: seq<string>)
    requires sep == "--" && pieces == Split(n, sep) && |pieces| >= 2
    ensures pieces == [pieces[0]] + Middle(n) + [pieces[|pieces| - 1]]
  {
    var m := pieces[1..|pieces| - 1];
    assert Middle(n) == m;
    Ends(pieces, m);
  }

  lemma Ends(pieces: seq<string>, m: seq<string>)
    requires |pieces| >= 2 && m == pieces[1..|pieces| - 1]
    ensures pieces == [pieces[0]] + m + [pieces[|pieces| - 1]]
  {
  }

  lemma ReadMiddle(prog: string, n: string, sep: string, reader: Reader)
    requires sep == "--" && |Split(n, sep)| >= 2 && Unread(prog, reader)
    requires Unread(Split(n, sep)[0], reader) && Unread(Split(n, sep)[|Split(n, sep)| - 1], reader)
    ensures FirstLicence(AllCandidates([prog] + Split(n, sep)), reader)
         == FirstLicence(AllCandidates(Middle(n)), reader)
  {
    var pieces := Split(n, sep);
    var x, m, z := pieces[0], Middle(n), pieces[|pieces| - 1];
    MiddleOf(n, sep, pieces);
    AllCandidatesAppend([prog], [x] + m + [z]);
    OneOf(prog);
    FirstLicenceAppend(Candidates(prog), AllCandidates([x] + m + [z]), reader);
    Sandwich(x, m, z, reader);
  }

  /** What a documented name gives, for every licence: the licence itself if no two dashes meet in its
      printed name, else whatever the pieces between two cuts come to. With a single cut that is nothing. */
  lemma SplitNameLost(lic: CustomServer, reader: Reader, head: string, ext: string)
    requires Lawful(reader) && ReadsNoSuffix(reader) && IsHead(head) && IsExtension(ext)
    ensures ParseName(head + GenName(lic) + ext, reader)
         == if DashesMeet(Json(lic)) then FirstLicence(AllCandidates(Middle(GenName(lic))), reader) else Some(lic)
    ensures |Split(GenName(lic), "--")| == 2 ==> ParseName(head + GenName(lic) + ext, reader) == None
  {
    var n, prog, sep := GenName(lic), "rustdesk", "--";
    JsonShaped(lic);
    DashesMeetExactly(Json(lic));
    MiddleShort(n);
    if DashesMeet(Json(lic)) {
      SplitNameRead(lic, n, reader, head, ext, prog, sep);
    } else {
      WholeNameRead(lic, n, reader, head, ext, sep);
    }
  }

  lemma WholeNameRead(lic: CustomServer, n: string, reader: Reader, head: string, ext: string, sep: string)
    requires Lawful(reader) && IsHead(head) && IsExtension(ext) && !DashesMeet(Json(lic))
    requires n == GenName(lic) && sep == "--" && !Contains(n, sep)
    ensures ParseName(head + n + ext, reader) == Some(lic) && |Split(n, sep)| == 1
  {
    EncodedRoundTrip(lic, reader, head, "", "", [], None, ext);
    assert Dressed("", n, "", []) + Tail(None) == n;
    SplitNone(n, sep);
  }

  lemma SplitNameRead(lic: CustomServer, n: string, reader: Reader, head: string, ext: string, prog: string,
                      sep: string)
    requires Lawful(reader) && ReadsNoSuffix(reader) && IsHead(head) && IsExtension(ext)
    requires n == GenName(lic) && prog == "rustdesk" && sep == "--" && Contains(n, sep)
    ensures |Split(n, sep)| >= 2
    ensures ParseName(head + n + ext, reader) == FirstLicence(AllCandidates(Middle(n)), reader)
  {
    var word := "licensed";
    GenNameUnpatterned(lic, word);
    GenNameEnds(lic);
    PlainStripped(head, n, ext);
    PiecesBehindHead(prog, head, n, sep);
    ParsedTokens(head + n + ext, head + n, [prog] + Split(n, sep), reader);
    OwnName(prog, reader);
    OuterPieces(lic, n, sep, reader);
    ReadMiddle(prog, n, sep, reader);
  }

  // Behind the generator's own prefix

  lemma DashHead(pre: string, n: string, p: string)
    requires |p| >= 2 && p[0] == '-' && !Contains(n, p)
    requires forall i :: 0 <= i < |pre| && pre[i] == '-' ==> i + 1 < |pre + n| && (pre + n)[i + 1] != p[1]
    ensures !Contains(pre + n, p)
  {
    forall i | 0 <= i <= |pre + n| ensures !At(pre + n, p, i) {
      if i < |pre| {
        NotAt(pre + n, p, i, if pre[i] == '-' then 1 else 0);
      } else {
        AtBehind(pre, n, p, i - |pre|);
      }
    }
  }

  lemma ClearPrefix(pre: string, n: string, sep: string)
    requires IsPrefix(pre) && sep == "--" && |n| > 0 && n[0] != '-'
    ensures Clear(pre, n, sep)
  {
    forall i | 0 <= i < |pre| ensures !At(pre + n, sep, i) {
      NotAt(pre + n, sep, i, if pre[i] == '-' then 1 else 0);
    }
  }

  lemma Unreduced(a: string, word: string)
    requires Unpatterned(a, word) && word == "licensed"
    ensures Normalise(a) == a
  {
    assert IsPattern(Pattern(word, 1), word, 1);
    NothingReplaced(a, Pattern(word, 3), word, 3);
    NothingReplaced(a, Pattern(word, 2), word, 2);
    NothingReplaced(a, Pattern(word, 1), word, 1);
  }

  lemma PrefixedUnpatterned(pre: string, n: string, word: string)
    requires IsPrefix(pre) && word == "licensed" && Fronted(n) && Unpatterned(n, word)
    ensures Unpatterned(pre + n, word)
  {
    DashHead(pre, n, Pattern(word, 1));
  }

  lemma PrefixedPieces(pre: string, n: string, sep: string)
    requires IsPrefix(pre) && sep == "--" && Fronted(n) && Unpatterned(n, "licensed")
    ensures Split(Normalise(pre + n), sep) == [pre + Split(n, sep)[0]] + Split(n, sep)[1..]
  {
    var word := "licensed";
    PrefixedUnpatterned(pre, n, word);
    Unreduced(pre + n, word);
    ClearPrefix(pre, n, sep);
    SplitSkip(pre, n, sep);
  }

  lemma PrefixedStripped(pre: string, n: string, ext: string)
    requires IsPrefix(pre) && '.' !in n && '=' !in n && IsExtension(ext)
    ensures StripExe(pre + n + ext) == pre + n && !Contains(ToLower(pre + n), "host=")
  {
    PlainExtension(pre + n, ext);
    NotTheOtherForm(pre + n, None);
    assert pre + n + Tail(None) == pre + n;
  }

  lemma PrefixedFirst(pre: string, n: string, sep: string, reader: Reader)
    requires Lawful(reader) && IsPrefix(pre) && |sep| > 0 && Base64Url.AllSymbols(n)
    ensures Unread(pre + Split(n, sep)[0], reader)
  {
    SplitClean(n, sep);
    PrefixedSymbols(pre, n, Split(n, sep)[0], reader);
  }

  lemma PrefixedSymbols(pre: string, n: string, x: string, reader: Reader)
    requires Lawful(reader) && IsPrefix(pre) && Base64Url.AllSymbols(n) && x <= n
    ensures Unread(pre + x, reader)
  {
    assert '(' !in x;
    var s := pre + x;
    assert s[|s| - 1] == if |x| > 0 then x[|x| - 1] else pre[23];
    ProgramNameIsNoLicence(s, reader);
  }

  lemma PrefixedMiddle(pre: string, n: string, sep: string, reader: Reader)
    requires sep == "--" && Unread(pre + Split(n, sep)[0], reader)
    requires |Split(n, sep)| >= 2 ==> Unread(Split(n, sep)[|Split(n, sep)| - 1], reader)
    ensures FirstLicence(AllCandidates([pre + Split(n, sep)[0]] + Split(n, sep)[1..]), reader)
         == FirstLicence(AllCandidates(Middle(n)), reader)
  {
    var pieces := Split(n, sep);
    if |pieces| >= 2 {
      var x, m, z := pieces[0], Middle(n), pieces[|pieces| - 1];
      MiddleOf(n, sep, pieces);
      assert pieces[1..] == m + [z];
      assert [pre + x] + (m + [z]) == [pre + x] + m + [z];
      Sandwich(pre + x, m, z, reader);
    } else {
      assert [pre + pieces[0]] + pieces[1..] == [pre + pieces[0]];
      UnreadAlone(pre + pieces[0], reader);
    }
  }

  /** What the generator prints around a name, `rustdesk-custom_serverd-….exe`, gives for every licence what
      the pieces between two cuts come to: nothing for every name cut at most once, whole names included. */
  lemma PrintedNameUnreadable(lic: CustomServer, reader: Reader, ext: string)
    requires Lawful(reader) && IsExtension(ext)
    ensures ParseName("rustdesk-custom_serverd-" + GenName(lic) + ext, reader)
         == FirstLicence(AllCandidates(Middle(GenName(lic))), reader)
    ensures |Split(GenName(lic), "--")| <= 2 ==>
              ParseName("rustdesk-custom_serverd-" + GenName(lic) + ext, reader) == None
  {
    var pre, n, sep := "rustdesk-custom_serverd-", GenName(lic), "--";
    GeneratorPrefix(pre);
    PrefixedRead(lic, pre, n, sep, ext, reader);
    MiddleShort(n);
  }

  lemma MiddleShort(n: string)
    ensures |Split(n, "--")| <= 2 ==> Middle(n) == []
  {
  }

  lemma PrefixedRead(lic: CustomServer, pre: string, n: string, sep: string, ext: string, reader: Reader)
    requires Lawful(reader) && IsPrefix(pre) && n == GenName(lic) && sep == "--" && IsExtension(ext)
    ensures ParseName(pre + n + ext, reader) == FirstLicence(AllCandidates(Middle(n)), reader)
  {
    var word := "licensed";
    GenNameUnpatterned(lic, word);
    GenNameEnds(lic);
    PrefixedStripped(pre, n, ext);
    PrefixedPieces(pre, n, sep);
    ParsedTokens(pre + n + ext, pre + n, [pre + Split(n, sep)[0]] + Split(n, sep)[1..], reader);
    PrefixedFirst(pre, n, sep, reader);
    if Contains(n, sep) {
      OuterPieces(lic, n, sep, reader);
    } else {
      SplitNone(n, sep);
    }
    PrefixedMiddle(pre, n, sep, reader);
  }

  // The witness: `c` followed by a full-width character, as bytes 9 to 12 of the document

  const FullWidth := CustomServer("ac\U{FF01}", "", "", "")

  lemma FullWidthKey(key: string)
    requires key == "ac\U{FF01}"
    ensures Escaped(key) == [97, 99, 0xEF, 0xBC, 0x81]
  {
    var two, one := "c\U{FF01}", "\U{FF01}";
    assert Escape('a') == [97] && Escape('c') == [99] && Escape('\U{FF01}') == [0xEF, 0xBC, 0x81];
    assert one[1..] == "" && two[1..] == one && key[1..] == two;
    assert Escaped(one) == Escape(one[0]) + Escaped("");
    assert Escaped(two) == Escape(two[0]) + Escaped(one);
    assert Escaped(key) == Escape(key[0]) + Escaped(two);
  }

  lemma AsciiRest(h: seq<Byte>, p: seq<Byte>, r: seq<Byte>, end: seq<Byte>)
    requires IsAscii(h) && IsAscii(p) && IsAscii(r) && IsAscii(end)
    ensures IsAscii(h + Quoted("", p + Quoted("", r + Quoted("", end))))
  {
    QuotedAscii("", end);
    QuotedAscii("", r + Quoted("", end));
    QuotedAscii("", p + Quoted("", r + Quoted("", end)));
  }

  lemma FullWidthBytes(b: seq<Byte>)
    requires b == Json(FullWidth)
    ensures |b| > 13 && b[9] == 99 && b[10] == 0xEF && b[11] == 0xBC
    ensures forall i :: 0 <= i < |b| && i != 10 && i != 11 && i != 12 ==> b[i] < 128
  {
    var k, h, p, r := Ascii("{\"key\":\""), Ascii(",\"host\":\""), Ascii(",\"api\":\""), Ascii(",\"relay\":\"");
    var end := Ascii("}");
    var key := "ac\U{FF01}";
    FullWidthKey(key);
    AsciiRest(h, p, r, end);
    var rest := h + Quoted("", p + Quoted("", r + Quoted("", end)));
    assert b == k + (Escaped(key) + ([QUOTE] + rest));
  }

  lemma PairOnlyThere(b: seq<Byte>, m: nat)
    requires |b| > 13 && b[11] == 0xBC && NoneHigh(b)
    requires forall i :: 0 <= i < |b| && i != 10 && i != 11 && i != 12 ==> b[i] < 128
    requires m + 1 < |Base64Url.Sextets(b)|
    requires Base64Url.Sextets(b)[m] == 62 && Base64Url.Sextets(b)[m + 1] == 62
    ensures m == 13
  {
    var k := m / 4;
    PairInGroup(b, m, k);
    assert m == 4 * k + 1 ==> 3 * k + 1 in {10, 11, 12};
    assert m == 4 * k + 2 ==> 3 * k + 2 in {10, 11, 12};
  }

  lemma FullWidthThere(b: seq<Byte>, e: string)
    requires b == Json(FullWidth) && e == Base64Url.Encode(b)
    ensures At(e, "--", 13)
  {
    FullWidthBytes(b);
    DashedAt(b, e, 3);
  }

  lemma DashedAt(b: seq<Byte>, e: string, k: nat)
    requires e == Base64Url.Encode(b) && 3 * k + 2 < |b|
    requires b[3 * k] % 4 == 3 && b[3 * k + 1] == 0xEF && b[3 * k + 2] / 64 == 2
    ensures At(e, "--", 4 * k + 1)
  {
    SextetsAt(b, k);
    SymbolOf(b, 4 * k + 1);
    SymbolOf(b, 4 * k + 2);
    PairAt(e, 4 * k + 1);
  }

  lemma FullWidthOnly(b: seq<Byte>, e: string, m: nat)
    requires b == Json(FullWidth) && e == Base64Url.Encode(b) && At(e, "--", m)
    ensures m == 13
  {
    FullWidthBytes(b);
    PairAt(e, m);
    SymbolOf(b, m);
    SymbolOf(b, m + 1);
    PairOnlyThere(b, m);
  }

  lemma FullWidthCut(b: seq<Byte>, e: string, sep: string)
    requires b == Json(FullWidth) && e == Base64Url.Encode(b) && sep == "--"
    ensures |e| >= 15 && Split(Reverse(e), sep) == [Reverse(e[15..]), Reverse(e[..13])]
  {
    FullWidthThere(b, e);
    var n, back, front := Reverse(e), Reverse(e[15..]), Reverse(e[..13]);
    PairAt(e, 13);
    assert n == back + (sep + front);
    forall m | 0 <= m <= |n| && At(n, sep, m) ensures m == |back| {
      var j := CutReversed(e, m, sep);
      FullWidthOnly(b, e, j);
    }
    SplitInTwo(n, back, front, sep);
  }

  lemma SplitInTwo(n: string, back: string, front: string, sep: string)
    requires |sep| > 0 && n == back + (sep + front)
    requires forall m :: 0 <= m <= |n| && At(n, sep, m) ==> m == |back|
    ensures Split(n, sep) == [back, front]
  {
    SplitSkip(back, sep + front, sep);
    SplitHit(front, sep);
    forall m | 0 <= m <= |front| ensures !At(front, sep, m) {
      AtBehind(sep, front, sep, m);
      AtBehind(back, sep + front, sep, |sep| + m);
    }
    SplitNone(front, sep);
    assert back + "" == back;
  }

  /** A real document, `{"key":"ac！",…}`: its printed name is read from none of the documented names, nor
      behind the generator's prefix. */
  lemma FullWidthLost(reader: Reader, head: string, ext: string)
    requires Lawful(reader) && ReadsNoSuffix(reader) && IsHead(head) && IsExtension(ext)
    ensures ParseName(head + GenName(FullWidth) + ext, reader) == None
    ensures ParseName("rustdesk-custom_serverd-" + GenName(FullWidth) + ext, reader) == None
  {
    var sep := "--";
    FullWidthCut(Json(FullWidth), Base64Url.Encode(Json(FullWidth)), sep);
    SplitNameLost(FullWidth, reader, head, ext);
    PrintedNameUnreadable(FullWidth, reader, ext);
  }
}
