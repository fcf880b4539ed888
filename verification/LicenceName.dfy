/** The licence a renamed executable carries in its file name: `gen_name` prints it
    (JSON, base64url, reversed) and `get_custom_server_from_string` reads it back, or reads the
    plain `host=…,key=…` form. */
module LicenceName {
  import opened Common
  import opened Text
  import opened LicenceJson
  import Base64Url

  /** The two foreign steps: the JSON reader and the signature check (`None` is an error). */
  datatype Reader = Reader(parse: seq<Byte> -> Option<CustomServer>,
                           verify: seq<Byte> -> Option<seq<Byte>>)

  /** What is relied on: the reader undoes the printer; a readable document ends in `}`, `]` or white
      space; a signed message is what follows the 64 bytes of its signature. */
  ghost predicate Lawful(reader: Reader) {
    && (forall lic :: reader.parse(Json(lic)) == Some(lic))
    && (forall b :: reader.parse(b).Some? ==> |b| > 0 && b[|b| - 1] in {9, 10, 13, 32, 93, 125})
    && (forall b :: reader.verify(b).Some? ==> |b| >= 64 && reader.verify(b).value == b[64..])
  }

  /** And, where a printed name is split: what is left of a printed document without its beginning cannot
      be read. */
  ghost predicate ReadsNoSuffix(reader: Reader) {
    forall lic, i :: 0 < i <= |Json(lic)| ==> reader.parse(Json(lic)[i..]) == None
  }

  ghost function Unprinted(b: seq<Byte>): Option<CustomServer> {
    if exists lic :: Json(lic) == b then
      var lic :| Json(lic) == b;
      Some(lic)
    else None
  }

  lemma UnprintedDocument(lic: CustomServer)
    ensures Unprinted(Json(lic)) == Some(lic)
  {
    var found := Unprinted(Json(lic)).value;
    JsonInjective(found, lic);
  }

  lemma UnprintedEnds(b: seq<Byte>)
    requires Unprinted(b).Some?
    ensures |b| > 0 && b[|b| - 1] == 125
  {
    JsonEnds(Unprinted(b).value);
  }

  lemma UnprintedSuffix(lic: CustomServer, i: nat)
    requires 0 < i <= |Json(lic)|
    ensures Unprinted(Json(lic)[i..]) == None
  {
    forall other ensures Json(other) != Json(lic)[i..] {
      SuffixIsNoDocument(lic, other, i);
    }
  }

  /** The laws can be met: printing is injective, and no document ends in another one. */
  lemma LawsCanBeMet() returns (reader: Reader)
    ensures Lawful(reader) && ReadsNoSuffix(reader)
  {
    reader := Reader(b => Unprinted(b), _ => None);
    forall lic ensures reader.parse(Json(lic)) == Some(lic) {
      UnprintedDocument(lic);
    }
    forall b | reader.parse(b).Some? ensures |b| > 0 && b[|b| - 1] in {9, 10, 13, 32, 93, 125} {
      UnprintedEnds(b);
    }
    forall lic, i | 0 < i <= |Json(lic)| ensures reader.parse(Json(lic)[i..]) == None {
      UnprintedSuffix(lic, i);
    }
  }

  function GenName(lic: CustomServer): string {
    Reverse(Base64Url.Encode(Json(lic)))
  }

  function FromConfigString(s: string, reader: Reader): Option<CustomServer> {
    match Base64Url.Decode(Reverse(s))
    case None => None
    case Some(data) =>
      match reader.parse(data)
      case Some(lic) => Some(lic)
      case None =>
        match reader.verify(data)
        case None => None
        case Some(signed) => reader.parse(signed)
  }

  // The reader's specification

  function StripExe(s: string): string {
    if EndsWith(ToLower(s), ".exe.exe") then s[..|s| - 8]
    else if EndsWith(ToLower(s), ".exe") then s[..|s| - 4]
    else s
  }

  predicate IsExtension(ext: string) {
    ToLower(ext) in {"", ".exe", ".exe.exe"}
  }

  /** `.exe.exe` ends in `.exe`. */
  lemma DoubledEnd(s: string)
    requires EndsWith(s, ".exe.exe")
    ensures EndsWith(s, ".exe")
  {
    assert s[|s| - 4..] == s[|s| - 8..][4..];
  }

  lemma StripOne(s: string, body: string, ext: string)
    requires s == body + ext && ToLower(ext) == ".exe"
    ensures StripExe(s) == if EndsWith(ToLower(body), ".exe") then body[..|body| - 4] else body
  {
    ToLowerAppend(body, ext);
    assert |ToLower(ext)| == |ext|;
    EndsTwice(ToLower(body), ".exe");
    assert ".exe" + ".exe" == ".exe.exe";
    assert s[..|body|] == body;
    if EndsWith(ToLower(body), ".exe") {
      assert s[..|s| - 8] == body[..|body| - 4];
    }
  }

  lemma StripTwo(s: string, body: string, ext: string)
    requires s == body + ext && ToLower(ext) == ".exe.exe"
    ensures StripExe(s) == body
  {
    ToLowerAppend(body, ext);
    assert |ToLower(ext)| == |ext|;
    EndsTwice(ToLower(body), ".exe.exe");
    assert s[..|body|] == body;
  }

  /** What is stripped behind a separator: the extension, and the end of the last element where that
      ends in `.exe` itself, unless the extension is doubled already. */
  lemma StripBehind(body: string, pre: string, el: string, ext: string) returns (k: nat)
    requires body == pre + el && |pre| > 0 && pre[|pre| - 1] in {',', '=', '-'} && IsExtension(ext)
    ensures k <= |el| && StripExe(body + ext) == pre + el[..k]
    ensures k == |el| <==> ToLower(ext) == ".exe.exe" || !EndsWith(ToLower(el), ".exe")
  {
    var low := ToLower(el);
    ToLowerAppend(pre, el);
    EndsInside(ToLower(pre), low, ".exe");
    EndsInside(ToLower(pre), low, ".exe.exe");
    if ToLower(ext) == ".exe.exe" {
      StripTwo(body + ext, body, ext);
      k := |el|;
    } else if ToLower(ext) == ".exe" {
      StripOne(body + ext, body, ext);
      k := if EndsWith(low, ".exe") then |el| - 4 else |el|;
    } else {
      assert |ToLower(ext)| == |ext|;
      assert body + ext == body;
      if EndsWith(low, ".exe.exe") {
        DoubledEnd(low);
      }
      k := if EndsWith(low, ".exe.exe") then |el| - 8 else if EndsWith(low, ".exe") then |el| - 4 else |el|;
    }
    assert body[..|pre| + k] == pre + el[..k];
  }

  function FindFrom(s: string, p: string, i: nat): (r: nat)
    requires i <= |s| && exists k :: i <= k <= |s| && At(s, p, k)
    ensures i <= r <= |s| && At(s, p, r)
    ensures forall k :: i <= k < r ==> !At(s, p, k)
    decreases |s| - i
  {
    if At(s, p, i) then i else FindFrom(s, p, i + 1)
  }

  /** The value after the last element that starts with `tag`, whatever its letter case. */
  function LastValue(els: seq<string>, tag: string): string {
    if |els| == 0 then ""
    else
      var el := els[|els| - 1];
      if StartsWith(ToLower(el), tag) then el[|tag|..] else LastValue(els[..|els| - 1], tag)
  }

  function HostFields(els: seq<string>): CustomServer {
    CustomServer(LastValue(els, "key="), LastValue(els, "host="),
                 LastValue(els, "api="), LastValue(els, "relay="))
  }

  function Dash(k: nat): string {
    seq(k, _ => '-')
  }

  /** `-word` and `k` dashes. */
  function Pattern(word: string, k: nat): string {
    "-" + word + Dash(k)
  }

  lemma Patterns()
    ensures Dash(2) == "--"
    ensures Pattern("licensed", 3) == "-licensed---"
    ensures Pattern("licensed", 2) == "-licensed--"
    ensures Pattern("licensed", 1) == "-licensed-"
  {
  }

  function Reduced(s: string, word: string): string {
    Replace(Replace(Replace(s, Pattern(word, 3), Dash(2)), Pattern(word, 2), Dash(2)), Pattern(word, 1), Dash(2))
  }

  function Normalise(s: string): string {
    Reduced(s, "licensed")
  }

  /** The strings tried for one token: the token itself, then its pieces between `(`. */
  function Candidates(token: string): seq<string> {
    [token] + (if Contains(token, "(") then Split(token, "(") else [])
  }

  function AllCandidates(tokens: seq<string>): seq<string> {
    if |tokens| == 0 then [] else Candidates(tokens[0]) + AllCandidates(tokens[1..])
  }

  function FirstLicence(cands: seq<string>, reader: Reader): Option<CustomServer> {
    if |cands| == 0 then None
    else
      match FromConfigString(Trim(cands[0]), reader)
      case Some(lic) => Some(lic)
      case None => FirstLicence(cands[1..], reader)
  }

  function ParseStripped(s: string, reader: Reader): Option<CustomServer> {
    if Contains(ToLower(s), "host=") then
      Some(HostFields(Split(s[FindFrom(ToLower(s), "host=", 0)..], ",")))
    else
      FirstLicence(AllCandidates(Split(Normalise(s), "--")), reader)
  }

  function ParseName(name: string, reader: Reader): Option<CustomServer> {
    ParseStripped(StripExe(name), reader)
  }

  // The reader

  /** The comma-separated form: one pass over the elements, later ones overwrite. */
  method ReadHostFields(strs: seq<string>) returns (server: CustomServer)
    ensures server == HostFields(strs)
  {
    var host, key, api, relay := "", "", "", "";
    for i := 0 to |strs|
      invariant CustomServer(key, host, api, relay) == HostFields(strs[..i])
    {
      var el := strs[i];
      var elLower := ToLower(el);
      assert strs[..i + 1][..i] == strs[..i];
      if StartsWith(elLower, "host=") {
        host := el[5..];
      }
      if StartsWith(elLower, "key=") {
        key := el[4..];
      }
      if StartsWith(elLower, "api=") {
        api := el[4..];
      }
      if StartsWith(elLower, "relay=") {
        relay := el[6..];
      }
    }
    assert strs[..|strs|] == strs;
    return CustomServer(key, host, api, relay);
  }

  lemma {:induction false} FirstLicenceAppend(a: seq<string>, b: seq<string>, reader: Reader)
    ensures FirstLicence(a + b, reader)
         == if FirstLicence(a, reader).Some? then FirstLicence(a, reader) else FirstLicence(b, reader)
  {
    if |a| == 0 {
      assert a + b == b;
    } else {
      assert (a + b)[1..] == a[1..] + b;
      FirstLicenceAppend(a[1..], b, reader);
    }
  }

  lemma {:induction false} AllCandidatesAppend(a: seq<string>, b: seq<string>)
    ensures AllCandidates(a + b) == AllCandidates(a) + AllCandidates(b)
  {
    if |a| == 0 {
      assert a + b == b;
    } else {
      assert (a + b)[1..] == a[1..] + b;
      AllCandidatesAppend(a[1..], b);
    }
  }

  /** The pieces of one token, in order, until one is a licence. */
  method ReadPieces(pieces: seq<string>, reader: Reader) returns (r: Option<CustomServer>)
    ensures r == FirstLicence(pieces, reader)
  {
    for j := 0 to |pieces|
      invariant FirstLicence(pieces[..j], reader) == None
    {
      var lic := FromConfigString(Trim(pieces[j]), reader);
      assert pieces == pieces[..j] + pieces[j..];
      FirstLicenceAppend(pieces[..j], pieces[j..], reader);
      if lic.Some? {
        return lic;
      }
      assert pieces[..j + 1] == pieces[..j] + [pieces[j]];
      FirstLicenceAppend(pieces[..j], [pieces[j]], reader);
    }
    assert pieces[..|pieces|] == pieces;
    return None;
  }

  /** One token: the whole of it, else its pieces. */
  method ReadToken(token: string, reader: Reader) returns (r: Option<CustomServer>)
    ensures r == FirstLicence(Candidates(token), reader)
  {
    r := FromConfigString(Trim(token), reader);
    if r.None? && Contains(token, "(") {
      r := ReadPieces(Split(token, "("), reader);
      assert Candidates(token)[1..] == Split(token, "(");
    } else {
      assert r.None? ==> Candidates(token)[1..] == [];
    }
  }

  lemma AllCandidatesSnoc(before: seq<string>, token: string)
    ensures AllCandidates(before + [token]) == AllCandidates(before) + Candidates(token)
  {
    AllCandidatesAppend(before, [token]);
    assert [token][1..] == [];
  }

  method ReadTokens(tokens: seq<string>, reader: Reader) returns (r: Option<CustomServer>)
    ensures r == FirstLicence(AllCandidates(tokens), reader)
  {
    for i := 0 to |tokens|
      invariant FirstLicence(AllCandidates(tokens[..i]), reader) == None
    {
      r := ReadToken(tokens[i], reader);
      assert tokens[..i + 1] == tokens[..i] + [tokens[i]];
      AllCandidatesSnoc(tokens[..i], tokens[i]);
      FirstLicenceAppend(AllCandidates(tokens[..i]), Candidates(tokens[i]), reader);
      if r.Some? {
        assert tokens == tokens[..i + 1] + tokens[i + 1..];
        AllCandidatesAppend(tokens[..i + 1], tokens[i + 1..]);
        FirstLicenceAppend(AllCandidates(tokens[..i + 1]), AllCandidates(tokens[i + 1..]), reader);
        return;
      }
    }
    assert tokens[..|tokens|] == tokens;
    return None;
  }

  method GetCustomServerFromString(name: string, reader: Reader) returns (r: Option<CustomServer>)
    ensures r == ParseName(name, reader)
  {
    var s := StripExe(name);
    if Contains(ToLower(s), "host=") {
      var stripped := s[FindFrom(ToLower(s), "host=", 0)..];
      var server := ReadHostFields(Split(stripped, ","));
      return Some(server);
    }
    r := ReadTokens(Split(Normalise(s), "--"), reader);
  }
}
