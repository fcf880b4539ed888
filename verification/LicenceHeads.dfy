/** What the reader's three replacements make of a name: whichever head it documents stands in front,
    one `--` is left between the program's name and the licence, and the licence is untouched. */
module LicenceHeads {
  import opened Common
  import opened Text
  import opened LicenceName

  /** `p` is a dash, a word without dashes that starts with `l`, and `k` more dashes. */
  predicate IsPattern(p: string, word: string, k: nat) {
    |word| > 0 && word[0] == 'l' && '-' !in word && k >= 1 && p == Pattern(word, k)
  }

  // In front of the licence

  /** A text whose first character neither prolongs a run of dashes nor starts the word. */
  predicate Fronted(w: string) {
    |w| > 0 && w[0] != 'l' && w[0] != '-'
  }

  lemma DashThen(x: string, p: string, r: string)
    requires |p| > 1 && |x| > 0 && x[0] != p[1]
    ensures Replace("-" + x, p, r) == "-" + Replace(x, p, r)
  {
    assert ("-" + x)[1..] == x;
    assert ("-" + x)[1] == x[0];
  }

  lemma {:induction false} KeepDashes(j: nat, w: string, p: string, word: string, k: nat)
    requires IsPattern(p, word, k) && Fronted(w)
    ensures Replace(Dash(j) + w, p, Dash(2)) == Dash(j) + Replace(w, p, Dash(2))
  {
    if j == 0 {
      assert Dash(0) + w == w;
    } else {
      KeepDashes(j - 1, w, p, word, k);
      DashThen(Dash(j - 1) + w, p, Dash(2));
      assert "-" + (Dash(j - 1) + w) == Dash(j) + w;
      assert "-" + (Dash(j - 1) + Replace(w, p, Dash(2))) == Dash(j) + Replace(w, p, Dash(2));
    }
  }

  lemma KeepSplit(prog: string, w: string, p: string, word: string, k: nat)
    requires '-' !in prog && IsPattern(p, word, k) && Fronted(w)
    ensures Replace(prog + (Dash(2) + w), p, Dash(2)) == prog + (Dash(2) + Replace(w, p, Dash(2)))
  {
    KeepDashes(2, w, p, word, k);
    ReplaceWord(prog, Dash(2) + w, p, Dash(2));
  }

  /** The text with one `-word` and `j` dashes between program name and licence. */
  function Headed(prog: string, word: string, j: nat, w: string): string {
    prog + ("-" + (word + (Dash(j) + w)))
  }

  lemma KeepShorter(prog: string, j: nat, w: string, p: string, word: string, k: nat)
    requires '-' !in prog && IsPattern(p, word, k) && 1 <= j < k && Fronted(w)
    ensures Replace(Headed(prog, word, j, w), p, Dash(2)) == Headed(prog, word, j, Replace(w, p, Dash(2)))
  {
    var x := word + (Dash(j) + w);
    var y := "-" + x;
    KeepDashes(j, w, p, word, k);
    ReplaceWord(word, Dash(j) + w, p, Dash(2));
    assert y[1 + |word| + j] == w[0] && p[1 + |word| + j] == '-';
    assert !(p <= y);
    assert y[1..] == x;
    ReplaceWord(prog, y, p, Dash(2));
  }

  lemma HitPattern(prog: string, w: string, p: string, word: string, k: nat)
    requires '-' !in prog && IsPattern(p, word, k)
    ensures Replace(Headed(prog, word, k, w), p, Dash(2)) == prog + (Dash(2) + Replace(w, p, Dash(2)))
  {
    ReplaceHit(w, p, Dash(2));
    assert "-" + (word + (Dash(k) + w)) == p + w;
    ReplaceWord(prog, p + w, p, Dash(2));
  }

  /** The heads, spelled by program name, word and number of dashes (0 for no word at all). */
  function HeadOf(prog: string, word: string, j: nat): string {
    if j == 0 then prog + Dash(2) else prog + ("-" + (word + Dash(j)))
  }

  lemma HeadText(prog: string, word: string, j: nat, w: string)
    ensures HeadOf(prog, word, j) + w == if j == 0 then prog + (Dash(2) + w) else Headed(prog, word, j, w)
  {
  }

  /** One replacement: a shorter head is left alone, the matching one becomes `--`. */
  lemma OnePattern(prog: string, word: string, j: nat, w: string, p: string, k: nat, w': string)
    requires '-' !in prog && j <= k && Fronted(w) && IsPattern(p, word, k) && w' == Replace(w, p, Dash(2))
    ensures Replace(HeadOf(prog, word, j) + w, p, Dash(2)) == HeadOf(prog, word, if j < k then j else 0) + w'
  {
    HeadText(prog, word, j, w);
    HeadText(prog, word, if j < k then j else 0, w');
    if j == 0 {
      KeepSplit(prog, w, p, word, k);
    } else if j < k {
      KeepShorter(prog, j, w, p, word, k);
    } else {
      HitPattern(prog, w, p, word, k);
    }
  }

  // Behind it

  /** `a`, and the dash that follows if anything does. */
  function Onward(a: string, more: bool): string {
    if more then a + "-" else a
  }

  /** Neither `--` nor `-word-` begins in `a`. */
  predicate Unbroken(a: string, more: bool, word: string) {
    !Contains(Onward(a, more), "--") && !Contains(Onward(a, more), Pattern(word, 1))
  }

  /** A text that ends a token where it stands, if it is not empty. */
  predicate Opens(r: string, word: string) {
    r == "" || Dash(2) <= r || Pattern(word, 1) <= r
  }

  /** Beyond its first character a pattern meets the dash behind `a` at its last one only. */
  lemma ClearOnward(a: string, r: string, p: string, q: string)
    requires |q| >= 2 && q <= p && !Contains(Onward(a, r != ""), q) && (r != "" ==> r[0] == '-')
    requires forall m :: 1 <= m < |q| - 1 ==> q[m] != '-'
    ensures Clear(a, r, p)
  {
    var t := Onward(a, r != "");
    var rest := if r == "" then "" else r[1..];
    assert t + rest == a + r;
    forall i | 0 <= i < |a| ensures !At(a + r, p, i) {
      if i + |q| <= |t| {
        NotAtFront(t, rest, p, q, i);
      } else {
        NotAt(a + r, p, i, |a| - i);
      }
    }
  }

  lemma ClearPattern(a: string, r: string, p: string, word: string, k: nat)
    requires IsPattern(p, word, k) && Unbroken(a, r != "", word) && Opens(r, word)
    ensures Clear(a, r, p)
  {
    var q := Pattern(word, 1);
    assert q <= p;
    forall m | 1 <= m < |q| - 1 ensures q[m] != '-' {
      assert q[m] == word[m - 1] && word[m - 1] in word;
    }
    ClearOnward(a, r, p, q);
  }

  lemma DashesKept(c: string, p: string, word: string, k: nat) returns (c': string)
    requires IsPattern(p, word, k)
    ensures Replace(Dash(2) + c, p, Dash(2)) == Dash(2) + c'
  {
    DashThen("-" + c, p, Dash(2));
    assert "-" + ("-" + c) == Dash(2) + c;
    var x := "-" + c;
    if p <= x {
      var rest := Replace(x[|p|..], p, Dash(2));
      c' := "-" + rest;
      assert "-" + (Dash(2) + rest) == Dash(2) + c';
    } else {
      c' := Replace(c, p, Dash(2));
      assert x[1..] == c;
      assert "-" + ("-" + c') == Dash(2) + c';
    }
  }

  lemma WordKept(word: string, x: string, p: string, k: nat) returns (x': string)
    requires IsPattern(p, word, k) && !(p <= "-" + (word + ("-" + x)))
    ensures Replace("-" + (word + ("-" + x)), p, Dash(2)) == "-" + (word + ("-" + x'))
  {
    var y := "-" + x;
    var s := "-" + (word + y);
    assert s[1..] == word + y;
    ReplaceWord(word, y, p, Dash(2));
    if p <= y {
      x' := "-" + Replace(y[|p|..], p, Dash(2));
      assert Replace(y, p, Dash(2)) == "-" + x';
    } else {
      assert y[1..] == x;
      x' := Replace(x, p, Dash(2));
    }
  }

  lemma OpensKept(r: string, p: string, word: string, k: nat) returns (r': string)
    requires IsPattern(p, word, k) && Opens(r, word)
    ensures r' == Replace(r, p, Dash(2)) && Opens(r', word) && (r' == "" <==> r == "")
    ensures k == 1 ==> r' == "" || Dash(2) <= r'
  {
    r' := Replace(r, p, Dash(2));
    if r != "" && !(p <= r) {
      if Dash(2) <= r {
        assert r == Dash(2) + r[2..];
        var c' := DashesKept(r[2..], p, word, k);
      } else {
        var q := Pattern(word, 1);
        var x := r[|q|..];
        assert r == "-" + (word + ("-" + x));
        var x' := WordKept(word, x, p, k);
        assert q <= r';
        assert k == 1 ==> p == q;
      }
    }
  }

  lemma ReplaceBehind(a: string, r: string, p: string, word: string, k: nat) returns (r': string)
    requires IsPattern(p, word, k) && Unbroken(a, r != "", word) && Opens(r, word)
    ensures Replace(a + r, p, Dash(2)) == a + r' && Opens(r', word) && (r' == "" <==> r == "")
    ensures k == 1 ==> r' == "" || Dash(2) <= r'
  {
    ClearPattern(a, r, p, word, k);
    ReplaceSkip(a, r, p, Dash(2));
    r' := OpensKept(r, p, word, k);
  }

  // All three

  /** The three replacements leave `a` alone, and what follows it opens with two dashes. */
  lemma ReducedBehind(prog: string, word: string, j: nat, a: string, r: string) returns (r': string)
    requires '-' !in prog && j <= 3 && Fronted(a) && IsPattern(Pattern(word, 1), word, 1)
    requires Unbroken(a, r != "", word) && Opens(r, word)
    ensures Reduced(HeadOf(prog, word, j) + (a + r), word) == HeadOf(prog, word, 0) + (a + r')
    ensures (r' == "" <==> r == "") && (r' == "" || Dash(2) <= r')
  {
    var r3 := ReplaceBehind(a, r, Pattern(word, 3), word, 3);
    OnePattern(prog, word, j, a + r, Pattern(word, 3), 3, a + r3);
    var j3 := if j < 3 then j else 0;
    var r2 := ReplaceBehind(a, r3, Pattern(word, 2), word, 2);
    OnePattern(prog, word, j3, a + r3, Pattern(word, 2), 2, a + r2);
    var j2 := if j3 < 2 then j3 else 0;
    r' := ReplaceBehind(a, r2, Pattern(word, 1), word, 1);
    OnePattern(prog, word, j2, a + r2, Pattern(word, 1), 1, a + r');
  }

  predicate IsHead(head: string) {
    head in {"rustdesk--", "rustdesk-licensed-", "rustdesk-licensed--", "rustdesk-licensed---"}
  }

  lemma Heads(head: string, prog: string, word: string) returns (j: nat)
    requires IsHead(head) && prog == "rustdesk" && word == "licensed"
    ensures j <= 3 && head == HeadOf(prog, word, j)
  {
    if head == "rustdesk--" {
      j := 0;
    } else if head == "rustdesk-licensed-" {
      j := 1;
    } else if head == "rustdesk-licensed--" {
      j := 2;
    } else {
      j := 3;
    }
    assert head == HeadOf(prog, word, j);
  }

  lemma HeadChars(head: string)
    requires IsHead(head)
    ensures '.' !in head && '=' !in head
  {
  }

  lemma NormaliseBehind(prog: string, head: string, a: string, r: string, word: string) returns (r': string)
    requires prog == "rustdesk" && word == "licensed" && IsHead(head) && Fronted(a)
    requires Unbroken(a, r != "", word) && Opens(r, word)
    ensures Normalise(head + (a + r)) == prog + (Dash(2) + (a + r'))
    ensures (r' == "" <==> r == "") && (r' == "" || Dash(2) <= r')
  {
    var j := Heads(head, prog, word);
    r' := ReducedBehind(prog, word, j, a, r);
    HeadText(prog, word, 0, a + r');
  }

  // A name the patterns do not touch

  predicate Unpatterned(a: string, word: string) {
    !Contains(a, Pattern(word, 1))
  }

  lemma NothingReplaced(a: string, p: string, word: string, k: nat)
    requires Unpatterned(a, word) && IsPattern(p, word, k)
    ensures Replace(a, p, Dash(2)) == a
  {
    var q := Pattern(word, 1);
    assert q <= p && a + "" == a;
    forall i | 0 <= i < |a| ensures !At(a + "", p, i) {
      if i + |q| <= |a| {
        NotAtFront(a, "", p, q, i);
      }
    }
    ReplaceSkip(a, "", p, Dash(2));
  }

  lemma ReducedPlain(prog: string, word: string, j: nat, a: string)
    requires '-' !in prog && j <= 3 && Fronted(a) && Unpatterned(a, word) && IsPattern(Pattern(word, 1), word, 1)
    ensures Reduced(HeadOf(prog, word, j) + a, word) == HeadOf(prog, word, 0) + a
  {
    NothingReplaced(a, Pattern(word, 3), word, 3);
    OnePattern(prog, word, j, a, Pattern(word, 3), 3, a);
    var j3 := if j < 3 then j else 0;
    NothingReplaced(a, Pattern(word, 2), word, 2);
    OnePattern(prog, word, j3, a, Pattern(word, 2), 2, a);
    var j2 := if j3 < 2 then j3 else 0;
    NothingReplaced(a, Pattern(word, 1), word, 1);
    OnePattern(prog, word, j2, a, Pattern(word, 1), 1, a);
  }

  lemma NormalisePlain(prog: string, head: string, a: string, word: string)
    requires prog == "rustdesk" && word == "licensed" && IsHead(head) && Fronted(a) && Unpatterned(a, word)
    ensures Normalise(head + a) == prog + (Dash(2) + a)
  {
    var j := Heads(head, prog, word);
    ReducedPlain(prog, word, j, a);
    HeadText(prog, word, 0, a);
  }
}
