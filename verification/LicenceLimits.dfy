/** Where the encoded form ends: which names the reader sees whole, and what the generator's own prefix
    adds to one. */
module LicenceLimits {
  import opened Common
  import opened Text
  import opened LicenceJson
  import opened LicenceName
  import opened LicenceDashes
  import opened LicenceHeads
  import opened LicenceParts
  import opened LicenceRoundTrip
  import Base64Url

  // Names the reader splits

  lemma {:induction false} SplitClean(s: string, p: string)
    requires |p| > 0
    ensures Split(s, p)[0] <= s
    ensures forall k :: 0 <= k < |Split(s, p)| ==> !Contains(Split(s, p)[k], p)
  {
    if |s| == 0 {
    } else if p <= s {
      SplitClean(s[|p|..], p);
    } else {
      var rest := Split(s[1..], p);
      SplitClean(s[1..], p);
      var first := [s[0]] + rest[0];
      assert s == [s[0]] + s[1..];
      assert first <= s;
      forall i | 0 <= i <= |first| ensures !At(first, p, i) {
        if i == 0 {
          assert At(first, p, 0) ==> p <= first;
        } else {
          assert !At(rest[0], p, i - 1);
          assert first[1..] == rest[0];
          AtShifted(first, p, i - 1);
        }
      }
    }
  }

  lemma PlainToken(prog: string, head: string, n: string, sep: string)
    requires prog == "rustdesk" && IsHead(head) && PlainName(n) && sep == "--"
    ensures n in Split(Normalise(head + n), sep)
  {
    NoDress(n);
    assert n + Tail(None) == n;
    var after := SeenTokens(prog, head, n, None, sep);
    assert ([prog, n] + after)[1] == n;
  }

  lemma NoDress(n: string)
    requires PlainName(n)
    ensures Seen(n, None)
  {
    PlainSeen("", n, "", [], None);
    assert Dressed("", n, "", []) == n;
  }

  /** The reader sees the printed name whole, behind any head, if and only if no two dashes meet in it. */
  lemma NameStaysWhole(lic: CustomServer, head: string, sep: string)
    requires IsHead(head) && sep == "--"
    ensures GenName(lic) in Split(Normalise(head + GenName(lic)), sep) <==> !DashesMeet(Json(lic))
  {
    var n, prog := GenName(lic), "rustdesk";
    GenNamePlain(lic);
    if DashesMeet(Json(lic)) {
      SplitClean(Normalise(head + n), sep);
      JsonShaped(lic);
      DashesMeetExactly(Json(lic));
    } else {
      PlainToken(prog, head, n, sep);
    }
  }

  // The generator's own prefix

  /** The prefix of the printed name: its dashes, and its characters. */
  predicate IsPrefix(pre: string) {
    && |pre| == 24 && pre[0] == 'r' && pre[1] == 'u' && pre[9] == 'c' && pre[23] == '-'
    && (forall i :: 0 <= i < |pre| && pre[i] == '-' ==> i == 8 || i == 23)
    && '.' !in pre && '=' !in pre && '(' !in pre
  }

  lemma GeneratorPrefix(pre: string)
    requires pre == "rustdesk-custom_serverd-"
    ensures IsPrefix(pre)
  {
  }

  /** Read backwards, the prefix is more base64 text behind the licence's own. */
  lemma PrintedNameDecodes(lic: CustomServer, pre: string) returns (extra: seq<Byte>)
    requires pre == "rustdesk-custom_serverd-"
    ensures |extra| == 18
    ensures Base64Url.Decode(Reverse(pre + GenName(lic)))
         == if |Json(lic)| % 3 == 0 then Some(Json(lic) + extra) else None
  {
    var b := Json(lic);
    var e, r := Base64Url.Encode(b), Reverse(pre);
    GeneratorPrefix(pre);
    PrefixSymbols(pre);
    ReverseTwice(e);
    assert Reverse(pre + Reverse(e)) == e + r;
    var v: seq<Base64Url.Sextet> := Base64Url.Sextets(b);
    var u: seq<Base64Url.Sextet> := seq(|r|, i requires 0 <= i < |r| => Base64Url.Value(r[i]));
    assert u[23] == 43;
    DecodeAppend(b, r, u);
    extra := AppendedBytes(b, u);
  }

  lemma PrefixSymbols(pre: string)
    requires pre == "rustdesk-custom_serverd-"
    ensures Base64Url.AllSymbols(pre)
  {
  }

  lemma DecodeAppend(b: seq<Byte>, r: string, u: seq<Base64Url.Sextet>)
    requires Base64Url.AllSymbols(r) && |u| == |r|
    requires forall i :: 0 <= i < |r| ==> u[i] == Base64Url.Value(r[i])
    ensures Base64Url.Decode(Base64Url.Encode(b) + r) == Base64Url.Bytes(Base64Url.Sextets(b) + u)
  {
    var e, v := Base64Url.Encode(b), Base64Url.Sextets(b);
    var s := e + r;
    Base64Url.EncodeSymbols(b);
    forall i | 0 <= i < |s| ensures Base64Url.Value(s[i]) == (v + u)[i] {
      if i < |e| {
        SymbolOf(b, i);
      }
    }
    assert seq(|s|, i requires 0 <= i < |s| => Base64Url.Value(s[i])) == v + u;
  }

  lemma {:induction false} WholeGroups(u: seq<Base64Url.Sextet>)
    requires |u| % 4 == 0
    ensures Base64Url.Bytes(u).Some? && |Base64Url.Bytes(u).value| == |u| / 4 * 3
  {
    if |u| > 0 {
      WholeGroups(u[4..]);
    }
  }

  lemma AppendedBytes(b: seq<Byte>, u: seq<Base64Url.Sextet>) returns (extra: seq<Byte>)
    requires |u| == 24 && u[23] == 43
    ensures |extra| == 18
    ensures Base64Url.Bytes(Base64Url.Sextets(b) + u) == if |b| % 3 == 0 then Some(b + extra) else None
  {
    var v := Base64Url.Sextets(b);
    WholeGroups(u);
    extra := Base64Url.Bytes(u).value;
    var k, r := |b| / 3, |b| % 3;
    Base64Url.SextetCount(b, k, r);
    WholeOrNot(|v|, k, r);
    if |b| % 3 == 0 {
      Base64Url.BytesOfSextets(b);
      Base64Url.BytesConcat(v, u, |v| / 4);
    } else {
      NotDecodable(v, u);
      Base64Url.LastByte(v + u);
    }
  }

  lemma WholeOrNot(n: nat, k: nat, r: nat)
    requires r < 3 && n == 4 * k + (if r == 0 then 0 else r + 1)
    ensures n % 4 == 0 <==> r == 0
    ensures r == 0 ==> n / 4 == k
  {
  }

  lemma NotDecodable(v: seq<Base64Url.Sextet>, u: seq<Base64Url.Sextet>)
    requires |u| == 24 && u[23] == 43 && |v| % 4 != 0
    ensures !Base64Url.Decodable(v + u)
  {
    var w := v + u;
    assert w[|w| - 1] == 43 && |w| % 4 == |v| % 4;
  }
}
