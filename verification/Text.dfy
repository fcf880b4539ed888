/** The string operations the file-name parser uses, on ASCII text: leftmost non-overlapping
    replacement and splitting, trimming, reversal and letter case. */
module Text {
  function LowerChar(c: char): char {
    if 'A' <= c <= 'Z' then (c as int + 32) as char else c
  }

  function ToLower(s: string): string {
    seq(|s|, i requires 0 <= i < |s| => LowerChar(s[i]))
  }

  function Reverse(s: string): string {
    seq(|s|, i requires 0 <= i < |s| => s[|s| - 1 - i])
  }

  /** `p` occurs in `s` at position `i`. */
  predicate At(s: string, p: string, i: nat) {
    i + |p| <= |s| && s[i..i + |p|] == p
  }

  /** One character in the wrong place rules an occurrence out. */
  lemma NotAt(s: string, p: string, i: nat, m: nat)
    requires m < |p| && (i + m < |s| ==> s[i + m] != p[m])
    ensures !At(s, p, i)
  {
    if i + |p| <= |s| {
      assert s[i..i + |p|][m] == s[i + m];
    }
  }

  /** Where the front of `p` does not occur in `a`, `p` does not in anything `a` starts. */
  lemma NotAtFront(a: string, rest: string, p: string, q: string, i: nat)
    requires !At(a, q, i) && q <= p && i + |q| <= |a|
    ensures !At(a + rest, p, i)
  {
    if i + |p| <= |a + rest| {
      assert (a + rest)[i..i + |p|][..|q|] == a[i..i + |q|];
    }
  }

  lemma AtBehind(a: string, s: string, p: string, m: nat)
    ensures At(a + s, p, |a| + m) <==> At(s, p, m)
  {
    if m + |p| <= |s| {
      assert (a + s)[|a| + m..|a| + m + |p|] == s[m..m + |p|];
    }
  }

  predicate Contains(s: string, p: string) {
    exists i | 0 <= i <= |s| :: At(s, p, i)
  }

  predicate StartsWith(s: string, p: string) {
    At(s, p, 0)
  }

  predicate EndsWith(s: string, p: string) {
    |p| <= |s| && At(s, p, |s| - |p|)
  }

  predicate IsSpace(c: char) {
    c == ' ' || '\t' <= c <= '\r'
  }

  function TrimStart(s: string): string {
    if |s| > 0 && IsSpace(s[0]) then TrimStart(s[1..]) else s
  }

  function TrimEnd(s: string): string {
    if |s| > 0 && IsSpace(s[|s| - 1]) then TrimEnd(s[..|s| - 1]) else s
  }

  function Trim(s: string): string {
    TrimEnd(TrimStart(s))
  }

  function Replace(s: string, p: string, r: string): string
    requires |p| > 0
    decreases |s|
  {
    if |s| == 0 then ""
    else if p <= s then r + Replace(s[|p|..], p, r)
    else [s[0]] + Replace(s[1..], p, r)
  }

  function Split(s: string, p: string): (parts: seq<string>)
    requires |p| > 0
    ensures |parts| > 0
    decreases |s|
  {
    if |s| == 0 then [""]
    else if p <= s then [""] + Split(s[|p|..], p)
    else
      var rest := Split(s[1..], p);
      [[s[0]] + rest[0]] + rest[1..]
  }

  function Join(parts: seq<string>, p: string): string {
    if |parts| == 0 then ""
    else if |parts| == 1 then parts[0]
    else parts[0] + p + Join(parts[1..], p)
  }

  lemma ReverseTwice(s: string)
    ensures Reverse(Reverse(s)) == s
  {
  }

  /** The letters of ASCII one by one. */
  lemma LetterCase(c: char, k: nat, upper: string)
    requires k < 26 && upper == "ABCDEFGHIJKLMNOPQRSTUVWXYZ"
    ensures LowerChar(upper[k]) == "abcdefghijklmnopqrstuvwxyz"[k]
    ensures c !in upper ==> LowerChar(c) == c
  {
    assert upper[k] as int == 65 + k;
    if 'A' <= c <= 'Z' {
      assert upper[c as int - 65] == c;
    }
  }

  lemma Spaces(c: char)
    ensures IsSpace(c) <==> c in {' ', '\t', '\n', '\U{B}', '\U{C}', '\r'}
  {
  }

  lemma ToLowerAppend(a: string, b: string)
    ensures ToLower(a + b) == ToLower(a) + ToLower(b)
  {
  }

  /** An occurrence of `p` brings every character of `p` along. */
  lemma MissingChar(s: string, p: string, k: nat)
    requires k < |p| && p[k] !in s
    ensures !Contains(s, p)
  {
    forall i | 0 <= i <= |s| ensures !At(s, p, i) {
      if i + |p| <= |s| {
        assert s[i..i + |p|][k] == s[i + k];
      }
    }
  }

  // The end of a text

  /** A character that is not in `p` keeps an occurrence at the end from reaching back over it. */
  lemma EndsInside(a: string, b: string, p: string)
    requires |a| > 0 && a[|a| - 1] !in p
    ensures EndsWith(a + b, p) <==> EndsWith(b, p)
  {
    var s := a + b;
    if |p| <= |b| {
      assert s[|s| - |p|..|s|] == b[|b| - |p|..|b|];
    } else if |p| <= |s| {
      assert s[|s| - |p|..|s|][|p| - |b| - 1] == a[|a| - 1];
    }
  }

  lemma EndsWithout(s: string, p: string)
    requires |p| > 0 && p[0] !in s
    ensures !EndsWith(s, p)
  {
    if |p| <= |s| {
      assert s[|s| - |p|..|s|][0] == s[|s| - |p|];
    }
  }

  lemma EndsTwice(s: string, p: string)
    ensures EndsWith(s + p, p)
    ensures EndsWith(s + p, p + p) <==> EndsWith(s, p)
  {
    assert (s + p)[|s|..] == p;
    if |p| <= |s| {
      var a, end := s[..|s| - |p|], s[|s| - |p|..];
      assert (s + p)[|a|..] == end + p;
      SameFront(end, p, p);
    }
  }

  lemma SameFront(a: string, b: string, rest: string)
    requires |a| == |b|
    ensures a + rest == b + rest <==> a == b
  {
    assert (a + rest)[..|a|] == a;
    assert (b + rest)[..|b|] == b;
  }

  // Passing over a part of the text in which no occurrence starts

  predicate Clear(a: string, s: string, p: string) {
    forall i | 0 <= i < |a| :: !At(a + s, p, i)
  }

  lemma ClearStep(a: string, s: string, p: string)
    requires |a| > 0 && Clear(a, s, p)
    ensures !(p <= a + s)
    ensures Clear(a[1..], s, p)
    ensures (a + s)[1..] == a[1..] + s
  {
    assert (a + s)[1..] == a[1..] + s;
    assert !At(a + s, p, 0);
    forall i | 0 <= i < |a| - 1 ensures !At(a[1..] + s, p, i) {
      assert !At(a + s, p, i + 1);
      AtShifted(a + s, p, i);
    }
  }

  lemma AtShifted(s: string, p: string, i: nat)
    requires |s| > 0
    ensures At(s[1..], p, i) <==> At(s, p, i + 1)
  {
    if i + 1 + |p| <= |s| {
      assert s[1..][i..i + |p|] == s[i + 1..i + 1 + |p|];
    }
  }

  lemma {:induction false} ReplaceSkip(a: string, s: string, p: string, r: string)
    requires |p| > 0 && Clear(a, s, p)
    ensures Replace(a + s, p, r) == a + Replace(s, p, r)
  {
    if |a| == 0 {
      assert a + s == s;
    } else {
      ClearStep(a, s, p);
      ReplaceSkip(a[1..], s, p, r);
      assert a == [a[0]] + a[1..];
    }
  }

  lemma {:induction false} SplitSkip(a: string, s: string, p: string)
    requires |p| > 0 && Clear(a, s, p)
    ensures Split(a + s, p) == [a + Split(s, p)[0]] + Split(s, p)[1..]
  {
    if |a| == 0 {
      assert a + s == s;
      assert a + Split(s, p)[0] == Split(s, p)[0];
    } else {
      ClearStep(a, s, p);
      SplitSkip(a[1..], s, p);
      assert [a[0]] + (a[1..] + Split(s, p)[0]) == a + Split(s, p)[0];
    }
  }

  /** Text without the first character of the pattern is passed over. */
  lemma ClearWord(a: string, s: string, p: string)
    requires |p| > 0 && p[0] !in a
    ensures Clear(a, s, p)
  {
    forall i | 0 <= i < |a| ensures !At(a + s, p, i) {
      if i + |p| <= |a + s| {
        assert (a + s)[i..i + |p|][0] == a[i];
      }
    }
  }

  lemma ReplaceWord(a: string, s: string, p: string, r: string)
    requires |p| > 0 && p[0] !in a
    ensures Replace(a + s, p, r) == a + Replace(s, p, r)
  {
    ClearWord(a, s, p);
    ReplaceSkip(a, s, p, r);
  }

  lemma ReplaceHit(s: string, p: string, r: string)
    requires |p| > 0
    ensures Replace(p + s, p, r) == r + Replace(s, p, r)
  {
    assert (p + s)[|p|..] == s;
  }

  lemma SplitHit(s: string, p: string)
    requires |p| > 0
    ensures Split(p + s, p) == [""] + Split(s, p)
  {
    assert (p + s)[|p|..] == s;
  }

  /** Up to the first separator: what comes before it is the first part. */
  lemma SplitFirst(a: string, s: string, p: string)
    requires |p| > 0 && Clear(a, p + s, p)
    ensures Split(a + p + s, p) == [a] + Split(s, p)
  {
    assert a + p + s == a + (p + s);
    SplitSkip(a, p + s, p);
    SplitHit(s, p);
    assert a + "" == a;
  }

  lemma SplitNone(s: string, p: string)
    requires |p| > 0 && !Contains(s, p)
    ensures Split(s, p) == [s]
  {
    assert s + "" == s;
    SplitSkip(s, "", p);
  }

  /** Splitting undoes joining when no part holds the separator character. */
  lemma {:induction false} SplitJoin(parts: seq<string>, c: char)
    requires |parts| > 0
    requires forall k :: 0 <= k < |parts| ==> c !in parts[k]
    ensures Split(Join(parts, [c]), [c]) == parts
  {
    if |parts| == 1 {
      MissingChar(parts[0], [c], 0);
      SplitNone(parts[0], [c]);
    } else {
      ClearWord(parts[0], [c] + Join(parts[1..], [c]), [c]);
      SplitFirst(parts[0], Join(parts[1..], [c]), [c]);
      SplitJoin(parts[1..], c);
    }
  }

  lemma TrimNothing(s: string)
    requires |s| > 0 && !IsSpace(s[0]) && !IsSpace(s[|s| - 1])
    ensures Trim(s) == s
  {
  }

  predicate IsBlank(s: string) {
    forall i :: 0 <= i < |s| ==> IsSpace(s[i])
  }

  lemma {:induction false} TrimFront(lead: string, m: string)
    requires IsBlank(lead) && |m| > 0 && !IsSpace(m[0])
    ensures TrimStart(lead + m) == m
  {
    if |lead| == 0 {
      assert lead + m == m;
    } else {
      TrimFront(lead[1..], m);
      assert (lead + m)[1..] == lead[1..] + m;
    }
  }

  lemma {:induction false} TrimBack(m: string, trail: string)
    requires IsBlank(trail) && |m| > 0 && !IsSpace(m[|m| - 1])
    ensures TrimEnd(m + trail) == m
  {
    if |trail| == 0 {
      assert m + trail == m;
    } else {
      var n := |trail| - 1;
      TrimBack(m, trail[..n]);
      assert (m + trail)[..|m| + n] == m + trail[..n];
    }
  }

  lemma {:induction false} TrimAll(s: string)
    requires IsBlank(s)
    ensures Trim(s) == ""
  {
    if |s| > 0 {
      TrimAll(s[1..]);
    }
  }

  /** Blanks on both sides go, and nothing else. */
  lemma TrimBlanks(lead: string, m: string, trail: string)
    requires IsBlank(lead) && IsBlank(trail)
    requires |m| > 0 && !IsSpace(m[0]) && !IsSpace(m[|m| - 1])
    ensures Trim(lead + (m + trail)) == m
  {
    TrimFront(lead, m + trail);
    TrimBack(m, trail);
  }
}
