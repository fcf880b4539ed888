/** The parts of a renamed program's name beside the licence: the marks of a copy, the program's own name,
    the comment and the extension. */
module LicenceParts {
  import opened Common
  import opened Text
  import opened LicenceName
  import opened LicenceHeads
  import Base64Url

  // Copy marks

  /** A mark Windows adds to the name of a copy: `(1)` or ` (1)`. */
  datatype Copy = Copy(space: bool, digits: string)

  predicate IsNumber(s: string) {
    forall i :: 0 <= i < |s| ==> '0' <= s[i] <= '9'
  }

  predicate AreCopies(cs: seq<Copy>) {
    forall i :: 0 <= i < |cs| ==> IsNumber(cs[i].digits)
  }

  function Marks(cs: seq<Copy>): string {
    if |cs| == 0 then "" else (if cs[0].space then " (" else "(") + cs[0].digits + ")" + Marks(cs[1..])
  }

  lemma {:induction false} MarksChars(cs: seq<Copy>, i: nat)
    requires AreCopies(cs) && i < |Marks(cs)|
    ensures Marks(cs)[i] in {' ', '(', ')'} || '0' <= Marks(cs)[i] <= '9'
  {
    var first := (if cs[0].space then " (" else "(") + cs[0].digits + ")";
    if i >= |first| {
      MarksChars(cs[1..], i - |first|);
    }
  }

  lemma {:induction false} MarksEnd(cs: seq<Copy>)
    requires |cs| > 0
    ensures |Marks(cs)| > 0 && Marks(cs)[|Marks(cs)| - 1] == ')'
  {
    if |cs| > 1 {
      MarksEnd(cs[1..]);
    }
  }

  lemma ForeignTail(n: string, m: string, p: string)
    requires |p| > 0 && !Contains(n, p) && forall c :: c in m ==> c !in p
    ensures !Contains(n + m, p)
  {
    forall i | 0 <= i <= |n + m| ensures !At(n + m, p, i) {
      if i + |p| <= |n| {
        NotAtFront(n, m, p, p, i);
      } else if i + |p| <= |n + m| {
        var k := if i < |n| then |n| - i else 0;
        assert (n + m)[i + k] == m[i + k - |n|] && m[i + k - |n|] in m;
        NotAt(n + m, p, i, k);
      }
    }
  }

  lemma MarksForeign(cs: seq<Copy>, c: char)
    requires AreCopies(cs) && c in Marks(cs)
    ensures c !in "-licensed-" && c !in "--" && c !in ".="
  {
    var i :| 0 <= i < |Marks(cs)| && Marks(cs)[i] == c;
    MarksChars(cs, i);
  }

  // A token and its pieces

  lemma NotALicence(s: string, k: nat, reader: Reader)
    requires k < |s| && s[k] == '('
    ensures FromConfigString(s, reader) == None
  {
    assert Reverse(s)[|s| - 1 - k] == '(';
  }

  lemma FirstPiece(first: string, rest: string, reader: Reader)
    requires '(' !in first
    requires FromConfigString(Trim(first + "(" + rest), reader) == None
    requires FromConfigString(Trim(first), reader).Some?
    ensures FirstLicence(Candidates(first + "(" + rest), reader) == FromConfigString(Trim(first), reader)
  {
    var token := first + "(" + rest;
    assert At(token, "(", |first|);
    ClearWord(first, "(" + rest, "(");
    SplitFirst(first, rest, "(");
    var pieces := Split(token, "(");
    assert Candidates(token)[1..] == pieces && pieces[0] == first;
  }

  // The program's own name

  lemma BackwardByte(v: seq<Base64Url.Sextet>)
    requires |v| >= 2 && v[|v| - 1] == 43 && v[|v| - 2] == 46
    ensures var d := Base64Url.Bytes(v); d.Some? ==> |d.value| > 0 && d.value[|d.value| - 1] == 171
  {
    Base64Url.LastByte(v);
  }

  /** Base64 text read backwards from `ru…` has trailing bits, or ends in a byte no document ends in. */
  lemma DecodeBackwards(s: string)
    requires |s| >= 2 && s[0] == 'r' && s[1] == 'u'
    ensures var d := Base64Url.Decode(Reverse(s));
            d.Some? ==> |d.value| > 0 && d.value[|d.value| - 1] == 171
  {
    var r := Reverse(s);
    if Base64Url.AllSymbols(r) {
      var v: seq<Base64Url.Sextet> := seq(|r|, i requires 0 <= i < |r| => Base64Url.Value(r[i]));
      assert v[|v| - 1] == Base64Url.Value('r') && v[|v| - 2] == Base64Url.Value('u');
      BackwardByte(v);
    }
  }

  /** Bytes whose last one ends no document hold no licence, signed or not. */
  lemma NoDocument(s: string, reader: Reader)
    requires Lawful(reader)
    requires var d := Base64Url.Decode(Reverse(s));
             d.Some? ==> |d.value| > 0 && d.value[|d.value| - 1] !in {9, 10, 13, 32, 93, 125}
    ensures FromConfigString(s, reader) == None
  {
    var d := Base64Url.Decode(Reverse(s));
    if d.Some? && reader.verify(d.value).Some? {
      var signed := reader.verify(d.value).value;
      if |signed| > 0 {
        assert signed[|signed| - 1] == d.value[|d.value| - 1];
      }
    }
  }

  /** Neither the program's own name nor anything that starts like it is a licence. */
  lemma ProgramNameIsNoLicence(s: string, reader: Reader)
    requires Lawful(reader) && |s| >= 2 && s[0] == 'r' && s[1] == 'u' && !IsSpace(s[|s| - 1]) && '(' !in s
    ensures FirstLicence(Candidates(s), reader) == None
  {
    DecodeBackwards(s);
    NoDocument(s, reader);
    TrimNothing(s);
    MissingChar(s, "(", 0);
    assert Candidates(s) == [s];
  }

  lemma OwnName(prog: string, reader: Reader)
    requires Lawful(reader) && prog == "rustdesk"
    ensures FirstLicence(Candidates(prog), reader) == None
  {
    ProgramNameIsNoLicence(prog, reader);
  }

  lemma FirstOfTokens(prog: string, token: string, after: seq<string>, reader: Reader)
    requires FirstLicence(Candidates(prog), reader) == None
    requires FirstLicence(Candidates(token), reader).Some?
    ensures FirstLicence(AllCandidates([prog, token] + after), reader)
         == FirstLicence(Candidates(token), reader)
  {
    var tokens := [prog, token] + after;
    assert tokens[1..] == [token] + after;
    assert tokens[1..][1..] == after;
    FirstLicenceAppend(Candidates(prog), AllCandidates(tokens[1..]), reader);
    FirstLicenceAppend(Candidates(token), AllCandidates(after), reader);
  }

  lemma SplitProgram(prog: string, sep: string, w: string)
    requires |sep| > 0 && sep[0] !in prog
    ensures Split(prog + (sep + w), sep) == [prog] + Split(w, sep)
  {
    ClearWord(prog, sep + w, sep);
    SplitFirst(prog, w, sep);
    Regroup(prog, sep, w);
  }

  // The comment and the extension

  function Tail(comment: Option<string>): string {
    if comment.None? then "" else "--" + comment.value
  }

  /** What may follow the licence after a further `--`: anything that does not bring in the other form. */
  predicate IsComment(s: string) {
    !Contains(ToLower(s), "host=")
  }

  lemma PlainExtension(body: string, ext: string)
    requires '.' !in body && IsExtension(ext)
    ensures StripExe(body + ext) == body
  {
    var low := ToLower(body);
    assert |ToLower(ext)| == |ext|;
    assert '.' !in low;
    EndsWithout(low, ".exe");
    EndsWithout(low, ".exe.exe");
    if ToLower(ext) == ".exe.exe" {
      StripTwo(body + ext, body, ext);
    } else if ToLower(ext) == ".exe" {
      StripOne(body + ext, body, ext);
    } else {
      assert body + ext == body;
    }
  }

  lemma CommentPrefix(c: string, k: nat)
    requires IsComment(c) && k <= |c|
    ensures IsComment(c[..k])
  {
    var p := "host=";
    forall i | 0 <= i <= k ensures !At(ToLower(c[..k]), p, i) {
      assert !At(ToLower(c), p, i);
      ToLowerAppend(c[..k], c[k..]);
      assert c[..k] + c[k..] == c;
      if i + |p| <= k {
        assert ToLower(c)[i..i + |p|] == ToLower(c[..k])[i..i + |p|];
      }
    }
  }

  /** Stripping the extension takes at most some of the comment. */
  lemma StripComment(pre: string, c: string, ext: string) returns (c': string)
    requires |pre| > 0 && pre[|pre| - 1] == '-' && IsExtension(ext) && IsComment(c)
    ensures StripExe(pre + c + ext) == pre + c' && IsComment(c')
  {
    var k := StripBehind(pre + c, pre, c, ext);
    CommentPrefix(c, k);
    c' := c[..k];
  }

  lemma StripName(s: string, front: string, comment: Option<string>, ext: string)
    returns (comment': Option<string>)
    requires s == front + Tail(comment)
    requires '.' !in front && IsExtension(ext) && (comment.Some? ==> IsComment(comment.value))
    ensures StripExe(s + ext) == front + Tail(comment')
    ensures comment'.Some? == comment.Some? && (comment'.Some? ==> IsComment(comment'.value))
  {
    if comment.None? {
      assert s == front;
      PlainExtension(front, ext);
      comment' := None;
      assert front + Tail(comment') == front;
    } else {
      assert s == front + "--" + comment.value;
      var c' := StripComment(front + "--", comment.value, ext);
      comment' := Some(c');
      assert front + Tail(comment') == front + "--" + c';
    }
  }

  lemma NoHost(pre: string, c: string)
    requires '=' !in pre && (c == "" || (|pre| > 0 && pre[|pre| - 1] == '-')) && IsComment(c)
    ensures !Contains(ToLower(pre + c), "host=")
  {
    var p := "host=";
    var low := ToLower(pre + c);
    ToLowerAppend(pre, c);
    forall i | 0 <= i <= |low| ensures !At(low, p, i) {
      if i + 4 < |pre| || c == "" {
        NotAt(low, p, i, 4);
      } else if i < |pre| {
        NotAt(low, p, i, |pre| - 1 - i);
      } else {
        AtBehind(ToLower(pre), ToLower(c), p, i - |pre|);
      }
    }
  }

  lemma NotTheOtherForm(front: string, comment: Option<string>)
    requires '=' !in front && (comment.Some? ==> IsComment(comment.value))
    ensures !Contains(ToLower(front + Tail(comment)), "host=")
  {
    if comment.None? {
      assert IsComment("");
      NoHost(front, "");
    } else {
      assert front + Tail(comment) == (front + "--") + comment.value;
      NoHost(front + "--", comment.value);
    }
  }

  lemma ParsedTokens(s: string, body: string, tokens: seq<string>, reader: Reader)
    requires StripExe(s) == body && !Contains(ToLower(body), "host=") && Split(Normalise(body), "--") == tokens
    ensures ParseName(s, reader) == FirstLicence(AllCandidates(tokens), reader)
  {
  }

  lemma StrippedName(head: string, a: string, comment: Option<string>, ext: string)
    returns (comment': Option<string>)
    requires '.' !in head && '.' !in a && '=' !in head && '=' !in a
    requires IsExtension(ext) && (comment.Some? ==> IsComment(comment.value))
    ensures comment'.Some? == comment.Some?
    ensures StripExe(head + (a + Tail(comment)) + ext) == head + (a + Tail(comment'))
    ensures !Contains(ToLower(head + (a + Tail(comment'))), "host=")
  {
    Regroup(head, a, Tail(comment));
    comment' := StripName(head + (a + Tail(comment)), head + a, comment, ext);
    NotTheOtherForm(head + a, comment');
    Regroup(head, a, Tail(comment'));
  }

  lemma Regroup(a: string, b: string, c: string)
    ensures a + b + c == a + (b + c)
  {
  }
}
