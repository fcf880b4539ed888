/** What the encoded form promises: the name of every document the reader takes, printed or written by
    hand, signed or not, comes back behind every head the program documents, whatever copy marks Windows
    adds and whatever comment follows, as long as it can be seen whole; and exactly what can be. */
module LicenceRoundTrip {
  import opened Common
  import opened Text
  import opened LicenceJson
  import opened LicenceName
  import opened LicenceDashes
  import opened LicenceHeads
  import opened LicenceParts
  import Base64Url

  // How far the reader sees

  lemma SplitBehind(a: string, r: string, sep: string) returns (after: seq<string>)
    requires sep == "--" && !Contains(Onward(a, r != ""), sep) && (r == "" || Dash(2) <= r)
    ensures Split(a + r, sep) == [a] + after && (r == "" ==> after == [])
  {
    ClearOnward(a, r, sep, sep);
    if r == "" {
      SplitSkip(a, r, sep);
      after := [];
      assert a + "" == a;
    } else {
      assert Dash(2) == sep;
      var c := r[2..];
      assert r == sep + c;
      SplitFirst(a, c, sep);
      assert a + sep + c == a + r;
      after := Split(c, sep);
    }
  }

  lemma SplitHeaded(prog: string, a: string, r: string, word: string, sep: string, more: bool)
    returns (after: seq<string>)
    requires '-' !in prog && sep == "--" && Unbroken(a, more, word) && more == (r != "") && (r == "" || Dash(2) <= r)
    ensures Split(prog + (Dash(2) + (a + r)), sep) == [prog, a] + after && (r == "" ==> after == [])
  {
    assert Dash(2) == sep;
    after := SplitBehind(a, r, sep);
    SplitProgram(prog, sep, a + r);
    assert [prog] + ([a] + after) == [prog, a] + after;
  }

  lemma TokensBehind(prog: string, head: string, a: string, r: string, word: string, sep: string)
    returns (after: seq<string>)
    requires prog == "rustdesk" && word == "licensed" && sep == "--" && IsHead(head) && Fronted(a)
    requires Unbroken(a, r != "", word) && Opens(r, word)
    ensures Split(Normalise(head + (a + r)), sep) == [prog, a] + after && (r == "" ==> after == [])
  {
    var r' := NormaliseBehind(prog, head, a, r, word);
    after := SplitHeaded(prog, a, r', word, sep, r != "");
  }

  predicate Breaks(w: string, word: string, i: nat) {
    At(w, "--", i) || At(w, Pattern(word, 1), i)
  }

  lemma UnbrokenBefore(w: string, word: string, i: nat, q: string)
    requires i <= |w| && |q| >= 2 && (i < |w| ==> w[i] == '-')
    requires forall j :: 0 <= j < i ==> !At(w, q, j)
    ensures !Contains(Onward(w[..i], i < |w|), q)
  {
    var t := Onward(w[..i], i < |w|);
    assert t <= w;
    forall j | 0 <= j <= |t| ensures !At(t, q, j) {
      if j + |q| <= |t| {
        assert t[j..j + |q|] == w[j..j + |q|];
        assert !At(w, q, j);
      }
    }
  }

  lemma BreakOpens(w: string, word: string, i: nat)
    requires Breaks(w, word, i)
    ensures i < |w| && w[i] == '-' && Opens(w[i..], word)
  {
    if At(w, "--", i) {
      assert w[i..i + 2][0] == w[i];
      assert Dash(2) == "--" <= w[i..];
    } else {
      var q := Pattern(word, 1);
      assert w[i..i + |q|][0] == w[i];
      assert q <= w[i..];
    }
  }

  lemma FirstBreak(w: string, word: string) returns (i: nat)
    ensures i <= |w| && (forall j :: 0 <= j < i ==> !Breaks(w, word, j)) && (i < |w| ==> Breaks(w, word, i))
  {
    i := 0;
    while i < |w| && !Breaks(w, word, i)
      invariant i <= |w| && forall j :: 0 <= j < i ==> !Breaks(w, word, j)
    {
      i := i + 1;
    }
  }

  lemma FirstCut(w: string, word: string) returns (i: nat)
    requires Fronted(w) && |word| > 0
    ensures 0 < i <= |w| && Unbroken(w[..i], i < |w|, word) && Opens(w[i..], word)
  {
    i := FirstBreak(w, word);
    var q := Pattern(word, 1);
    if i < |w| {
      BreakOpens(w, word, i);
    }
    forall j | 0 <= j < i ensures !At(w, "--", j) && !At(w, q, j) {
      assert !Breaks(w, word, j);
    }
    UnbrokenBefore(w, word, i, "--");
    UnbrokenBefore(w, word, i, q);
  }

  /** What the reader can see whole behind a head: text in which no `--` and no `-licensed-` begins, the
      dash of a following comment included. */
  predicate Seen(a: string, comment: Option<string>) {
    Unbroken(a, comment.Some?, "licensed")
  }

  lemma SeenTokens(prog: string, head: string, a: string, comment: Option<string>, sep: string)
    returns (after: seq<string>)
    requires prog == "rustdesk" && IsHead(head) && Fronted(a) && sep == "--" && Seen(a, comment)
    ensures Split(Normalise(head + (a + Tail(comment))), sep) == [prog, a] + after
    ensures comment.None? ==> after == []
  {
    var word := "licensed";
    assert Dash(2) == "--";
    assert comment.Some? ==> Dash(2) <= Tail(comment);
    after := TokensBehind(prog, head, a, Tail(comment), word, sep);
  }

  lemma CutIsSeen(w: string, a: string, comment: Option<string>, word: string, i: nat)
    requires w == a + Tail(comment) && word == "licensed" && i <= |w| && Unbroken(w[..i], i < |w|, word)
    ensures w[..i] == a ==> Seen(a, comment)
  {
    assert w[..i] == a ==> (i < |w| <==> comment.Some?);
  }

  /** Behind each of the four heads, and before any comment, a text is a token of its own if and only if it
      can be seen whole. */
  lemma SeenExactly(head: string, a: string, comment: Option<string>, sep: string)
    requires IsHead(head) && Fronted(a) && sep == "--"
    ensures var tokens := Split(Normalise(head + (a + Tail(comment))), sep);
            |tokens| >= 2 && tokens[0] == "rustdesk" && (tokens[1] == a <==> Seen(a, comment))
  {
    var w, word, prog := a + Tail(comment), "licensed", "rustdesk";
    var i := FirstCut(w, word);
    assert w == w[..i] + w[i..];
    var after := TokensBehind(prog, head, w[..i], w[i..], word, sep);
    CutIsSeen(w, a, comment, word, i);
    if Seen(a, comment) {
      var more := SeenTokens(prog, head, a, comment, sep);
    }
  }

  // What it makes of what it sees

  /** A name as it may be found: blanks around it, copy marks behind it. */
  function Dressed(lead: string, n: string, gap: string, cs: seq<Copy>): string {
    lead + (n + (gap + Marks(cs)))
  }

  predicate IsName(n: string) {
    |n| > 0 && Base64Url.AllSymbols(n) && n[0] != 'l' && n[0] != '-'
  }

  predicate IsDress(lead: string, gap: string, cs: seq<Copy>) {
    IsBlank(lead) && IsBlank(gap) && AreCopies(cs)
  }

  lemma DressedChars(lead: string, n: string, gap: string, cs: seq<Copy>)
    requires IsName(n) && IsDress(lead, gap, cs)
    ensures var a := Dressed(lead, n, gap, cs); Fronted(a) && '.' !in a && '=' !in a
  {
    var m := Marks(cs);
    forall c | c in m ensures c !in ".=" {
      MarksForeign(cs, c);
    }
    assert '.' in ".=" && '=' in ".=";
  }

  /** The first mark, and what stands before its parenthesis. */
  lemma MarkedPiece(lead: string, n: string, gap: string, cs: seq<Copy>) returns (blank: string, rest: string)
    requires IsName(n) && IsDress(lead, gap, cs) && |cs| > 0
    ensures IsBlank(blank) && gap + Marks(cs) == blank + "(" + rest
  {
    rest := cs[0].digits + ")" + Marks(cs[1..]);
    blank := if cs[0].space then gap + " " else gap;
    assert gap + Marks(cs) == blank + "(" + rest;
  }

  lemma WholeUnread(lead: string, n: string, gap: string, cs: seq<Copy>, blank: string, rest: string, reader: Reader)
    requires IsName(n) && IsDress(lead, gap, cs) && |cs| > 0 && gap + Marks(cs) == blank + "(" + rest
    ensures FromConfigString(Trim(Dressed(lead, n, gap, cs)), reader) == None
  {
    var m := n + (gap + Marks(cs));
    MarksEnd(cs);
    TrimBlanks(lead, m, "");
    assert lead + (m + "") == Dressed(lead, n, gap, cs);
    assert m[|n| + |blank|] == '(';
    NotALicence(m, |n| + |blank|, reader);
  }

  lemma DressedMarked(lead: string, n: string, gap: string, cs: seq<Copy>, reader: Reader)
    requires IsName(n) && IsDress(lead, gap, cs) && |cs| > 0 && FromConfigString(n, reader).Some?
    ensures FirstLicence(Candidates(Dressed(lead, n, gap, cs)), reader) == FromConfigString(n, reader)
  {
    var blank, rest := MarkedPiece(lead, n, gap, cs);
    var first := lead + (n + blank);
    WholeUnread(lead, n, gap, cs, blank, rest, reader);
    assert Dressed(lead, n, gap, cs) == first + "(" + rest;
    TrimBlanks(lead, n, blank);
    assert '(' !in first;
    FirstPiece(first, rest, reader);
  }

  lemma DressedToken(lead: string, n: string, gap: string, cs: seq<Copy>, reader: Reader)
    requires IsName(n) && IsDress(lead, gap, cs) && FromConfigString(n, reader).Some?
    ensures FirstLicence(Candidates(Dressed(lead, n, gap, cs)), reader) == FromConfigString(n, reader)
  {
    if |cs| == 0 {
      assert Dressed(lead, n, gap, cs) == lead + (n + gap);
      TrimBlanks(lead, n, gap);
    } else {
      DressedMarked(lead, n, gap, cs, reader);
    }
  }

  /** The name of a document. */
  function NameOf(d: seq<Byte>): string {
    Reverse(Base64Url.Encode(d))
  }

  /** Bytes a document ends in give a name that starts with neither `l` nor a dash. */
  lemma DocumentName(d: seq<Byte>)
    requires |d| > 0 && d[|d| - 1] in {9, 10, 13, 32, 93, 125}
    ensures IsName(NameOf(d))
  {
    Base64Url.EncodeSymbols(d);
    Base64Url.LastBits(d);
    var v := Base64Url.Sextets(d);
    var last := v[|v| - 1];
    assert last != 37 && last != 62;
    Base64Url.SymbolValue(last);
    assert NameOf(d)[0] == Base64Url.Symbol(last);
  }

  lemma FromName(d: seq<Byte>, reader: Reader)
    ensures FromConfigString(NameOf(d), reader)
         == if reader.parse(d).Some? then reader.parse(d)
            else if reader.verify(d).Some? then reader.parse(reader.verify(d).value)
            else None
  {
    ReverseTwice(Base64Url.Encode(d));
    Base64Url.DecodeEncode(d);
  }

  lemma ParsedSeen(prog: string, head: string, a: string, comment: Option<string>, ext: string, reader: Reader)
    returns (after: seq<string>)
    requires prog == "rustdesk" && IsHead(head) && IsExtension(ext) && Fronted(a) && '.' !in a && '=' !in a
    requires (comment.Some? ==> IsComment(comment.value)) && Seen(a, comment)
    ensures ParseName(head + (a + Tail(comment)) + ext, reader)
         == FirstLicence(AllCandidates([prog, a] + after), reader)
    ensures comment.None? ==> after == []
  {
    var sep := "--";
    HeadChars(head);
    var stripped := StrippedName(head, a, comment, ext);
    after := SeenTokens(prog, head, a, stripped, sep);
    ParsedTokens(head + (a + Tail(comment)) + ext, head + (a + Tail(stripped)), [prog, a] + after, reader);
  }

  lemma ReadSeen(head: string, a: string, comment: Option<string>, ext: string, reader: Reader)
    requires Lawful(reader) && IsHead(head) && IsExtension(ext) && Fronted(a) && '.' !in a && '=' !in a
    requires (comment.Some? ==> IsComment(comment.value)) && Seen(a, comment)
    requires FirstLicence(Candidates(a), reader).Some?
    ensures ParseName(head + (a + Tail(comment)) + ext, reader) == FirstLicence(Candidates(a), reader)
  {
    var prog := "rustdesk";
    var after := ParsedSeen(prog, head, a, comment, ext, reader);
    OwnName(prog, reader);
    FirstOfTokens(prog, a, after, reader);
  }

  /** Every document the reader takes, whoever wrote it, comes back from its name: behind each head, with
      blanks around it, copy marks and a comment behind it, and the extension missing, single or doubled,
      as long as the name can be seen whole. */
  lemma DocumentRoundTrip(d: seq<Byte>, reader: Reader, head: string, lead: string, gap: string, cs: seq<Copy>,
                          comment: Option<string>, ext: string)
    requires Lawful(reader) && reader.parse(d).Some?
    requires IsHead(head) && IsExtension(ext) && IsDress(lead, gap, cs)
    requires comment.Some? ==> IsComment(comment.value)
    requires Seen(Dressed(lead, NameOf(d), gap, cs), comment)
    ensures ParseName(head + (Dressed(lead, NameOf(d), gap, cs) + Tail(comment)) + ext, reader) == reader.parse(d)
  {
    DocumentName(d);
    FromName(d, reader);
    DressedChars(lead, NameOf(d), gap, cs);
    DressedToken(lead, NameOf(d), gap, cs, reader);
    ReadSeen(head, Dressed(lead, NameOf(d), gap, cs), comment, ext, reader);
  }

  /** A signed licence comes back just so: `d` is a signature and the document it signs, and cannot be read
      as a document itself. */
  lemma SignedRoundTrip(d: seq<Byte>, document: seq<Byte>, lic: CustomServer, reader: Reader, head: string,
                        lead: string, gap: string, cs: seq<Copy>, comment: Option<string>, ext: string)
    requires Lawful(reader) && reader.parse(d) == None
    requires reader.verify(d) == Some(document) && reader.parse(document) == Some(lic)
    requires IsHead(head) && IsExtension(ext) && IsDress(lead, gap, cs)
    requires comment.Some? ==> IsComment(comment.value)
    requires Seen(Dressed(lead, NameOf(d), gap, cs), comment)
    ensures ParseName(head + (Dressed(lead, NameOf(d), gap, cs) + Tail(comment)) + ext, reader) == Some(lic)
  {
    assert document == d[64..];
    assert document[|document| - 1] == d[|d| - 1];
    DocumentName(d);
    FromName(d, reader);
    DressedChars(lead, NameOf(d), gap, cs);
    DressedToken(lead, NameOf(d), gap, cs, reader);
    ReadSeen(head, Dressed(lead, NameOf(d), gap, cs), comment, ext, reader);
  }

  /** Such documents exist: a lawful reader may take the licence behind any 64 bytes for a signed one, and
      what starts with a zero is no document. */
  lemma SignaturesCanBeMet(lic: CustomServer) returns (reader: Reader, d: seq<Byte>)
    ensures Lawful(reader) && reader.parse(d) == None
    ensures reader.verify(d) == Some(Json(lic)) && reader.parse(Json(lic)) == Some(lic)
  {
    var plain := LawsCanBeMet();
    var zeros: seq<Byte> := seq(64, _ => 0);
    reader := Reader(b => if |b| > 0 && b[0] == 0 then None else plain.parse(b),
                     b => if |b| >= 64 then Some(b[64..]) else None);
    d := zeros + Json(lic);
    forall other ensures reader.parse(Json(other)) == Some(other) {
      JsonEnds(other);
    }
    assert d[64..] == Json(lic);
  }

  lemma OnlyToken(prog: string, n: string, reader: Reader)
    requires IsName(n) && FirstLicence(Candidates(prog), reader) == None
    ensures FirstLicence(AllCandidates([prog, n] + []), reader) == FromConfigString(n, reader)
  {
    var tokens := [prog, n] + [];
    assert '(' !in n;
    MissingChar(n, "(", 0);
    TrimNothing(n);
    assert tokens[1..] == [n] && [n][1..] == [];
    assert Candidates(n) == [n] && AllCandidates([n]) == [n];
    FirstLicenceAppend(Candidates(prog), [n], reader);
    assert [n][1..] == [];
  }

  /** A name that can be seen whole is read for what its bytes are, and for nothing else: as a document if
      they are one, else as the document a valid signature stands before, else not at all. */
  lemma ReadsExactly(d: seq<Byte>, n: string, reader: Reader, head: string, ext: string)
    requires Lawful(reader) && IsHead(head) && IsExtension(ext)
    requires n == NameOf(d) && IsName(n) && Seen(n, None)
    ensures ParseName(head + n + ext, reader)
         == if reader.parse(d).Some? then reader.parse(d)
            else if reader.verify(d).Some? then reader.parse(reader.verify(d).value)
            else None
  {
    var prog := "rustdesk";
    assert '.' !in n && '=' !in n;
    var after := ParsedSeen(prog, head, n, None, ext, reader);
    assert n + Tail(None) == n;
    OwnName(prog, reader);
    OnlyToken(prog, n, reader);
    FromName(d, reader);
  }

  // Printed licences

  /** The properties of a printed name that the reader depends on. */
  predicate PlainName(n: string) {
    && |n| > 0 && Base64Url.AllSymbols(n)
    && n[0] in {'9', 'Q', '0'} && n[|n| - 1] == 'e'
    && !Contains(n, "--") && !Contains(n, "-licensed-")
  }

  lemma FirstSymbol(b: seq<Byte>)
    requires |b| > 0 && b[0] == 123
    ensures |Base64Url.Encode(b)| > 0 && Base64Url.Encode(b)[0] == 'e'
  {
  }

  /** The printed name of any licence: its symbols and its two ends. */
  lemma GenNameEnds(lic: CustomServer)
    ensures var n := GenName(lic);
            && |n| > 0 && Base64Url.AllSymbols(n) && n[0] in {'9', 'Q', '0'} && n[|n| - 1] == 'e'
            && '.' !in n && '=' !in n
  {
    var b := Json(lic);
    JsonEnds(lic);
    Base64Url.EncodeSymbols(b);
    Base64Url.LastSymbol(b);
    FirstSymbol(b);
  }

  /** It can be seen whole if and only if no two dashes meet in it. */
  lemma GenNamePlain(lic: CustomServer)
    ensures PlainName(GenName(lic)) <==> !DashesMeet(Json(lic))
  {
    var b, word := Json(lic), "-licensed-";
    GenNameEnds(lic);
    JsonShaped(lic);
    DashesMeetExactly(b);
    NeverLicensed(b, word);
  }

  lemma ForeignFront(m: string, n: string, p: string)
    requires |p| > 0 && !Contains(n, p) && forall c :: c in m ==> c !in p
    ensures !Contains(m + n, p)
  {
    forall i | 0 <= i <= |m + n| ensures !At(m + n, p, i) {
      if i < |m| {
        assert (m + n)[i] == m[i] && m[i] in m;
        NotAt(m + n, p, i, 0);
      } else {
        AtBehind(m, n, p, i - |m|);
      }
    }
  }

  lemma DashBehind(a: string, p: string, more: bool)
    requires |a| > 0 && |p| >= 2 && !Contains(a, p) && a[|a| - 1] != p[|p| - 2]
    ensures !Contains(Onward(a, more), p)
  {
    var t := a + "-";
    forall i | 0 <= i <= |t| ensures !At(t, p, i) {
      if i + |p| <= |a| {
        NotAtFront(a, "-", p, p, i);
      } else {
        NotAt(t, p, i, if i + |p| == |t| then |p| - 2 else |p| - 1);
      }
    }
  }

  lemma DressForeign(lead: string, gap: string, cs: seq<Copy>, c: char)
    requires IsDress(lead, gap, cs) && (c in lead || c in gap + Marks(cs))
    ensures c !in "-licensed-" && c !in "--"
  {
    if c in Marks(cs) {
      MarksForeign(cs, c);
    }
  }

  lemma DressedWithout(lead: string, n: string, gap: string, cs: seq<Copy>, p: string)
    requires IsDress(lead, gap, cs) && p in {"--", "-licensed-"} && !Contains(n, p)
    ensures !Contains(Dressed(lead, n, gap, cs), p)
  {
    forall c | c in lead || c in gap + Marks(cs) ensures c !in p {
      DressForeign(lead, gap, cs, c);
    }
    ForeignTail(n, gap + Marks(cs), p);
    ForeignFront(lead, n + (gap + Marks(cs)), p);
  }

  lemma DressedEnd(lead: string, n: string, gap: string, cs: seq<Copy>)
    requires IsDress(lead, gap, cs) && |n| > 0 && n[|n| - 1] == 'e'
    ensures var a := Dressed(lead, n, gap, cs); |a| > 0 && a[|a| - 1] != '-' && a[|a| - 1] != 'd'
  {
    if |cs| > 0 {
      MarksEnd(cs);
    }
  }

  lemma PlainSeen(lead: string, n: string, gap: string, cs: seq<Copy>, comment: Option<string>)
    requires PlainName(n) && IsDress(lead, gap, cs)
    ensures Seen(Dressed(lead, n, gap, cs), comment)
  {
    var a := Dressed(lead, n, gap, cs);
    Patterns();
    DressedWithout(lead, n, gap, cs, "--");
    DressedWithout(lead, n, gap, cs, "-licensed-");
    DressedEnd(lead, n, gap, cs);
    DashBehind(a, "--", comment.Some?);
    DashBehind(a, "-licensed-", comment.Some?);
  }

  /** Every licence in whose printed name no two dashes meet comes back from it: behind each of the four
      heads the reader splits on, with any blanks around it, any run of copy marks, any comment after `--`
      that does not hold `host=`, and the extension missing, single or doubled, in any letter case. */
  lemma EncodedRoundTrip(lic: CustomServer, reader: Reader, head: string, lead: string, gap: string,
                         cs: seq<Copy>, comment: Option<string>, ext: string)
    requires Lawful(reader) && !DashesMeet(Json(lic))
    requires IsHead(head) && IsExtension(ext) && IsDress(lead, gap, cs)
    requires comment.Some? ==> IsComment(comment.value)
    ensures ParseName(head + (Dressed(lead, GenName(lic), gap, cs) + Tail(comment)) + ext, reader) == Some(lic)
  {
    GenNamePlain(lic);
    PlainSeen(lead, GenName(lic), gap, cs, comment);
    DocumentRoundTrip(Json(lic), reader, head, lead, gap, cs, comment, ext);
  }

  /** In particular every licence in ASCII. */
  lemma AsciiRoundTrip(lic: CustomServer, reader: Reader, head: string, lead: string, gap: string,
                       cs: seq<Copy>, comment: Option<string>, ext: string)
    requires Lawful(reader) && AsciiLicence(lic)
    requires IsHead(head) && IsExtension(ext) && IsDress(lead, gap, cs)
    requires comment.Some? ==> IsComment(comment.value)
    ensures ParseName(head + (Dressed(lead, GenName(lic), gap, cs) + Tail(comment)) + ext, reader) == Some(lic)
  {
    JsonAscii(lic);
    AsciiNeverMeets(Json(lic));
    EncodedRoundTrip(lic, reader, head, lead, gap, cs, comment, ext);
  }
}
