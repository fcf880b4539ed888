/** The plain form of the file name, `…host=a,key=b,api=c,relay=d.exe`: which fields come back. */
module HostForm {
  import opened Common
  import opened Text
  import opened LicenceJson
  import opened LicenceName

  datatype Kind = Host | Key | Api | Relay

  function Tag(kind: Kind): string {
    match kind
    case Host => "host="
    case Key => "key="
    case Api => "api="
    case Relay => "relay="
  }

  /** One element, with its tag in any letter case. */
  datatype Field = Field(kind: Kind, tag: string, value: string)

  predicate ValidField(f: Field) {
    ToLower(f.tag) == Tag(f.kind) && ',' !in f.value
  }

  predicate ValidFields(fs: seq<Field>) {
    forall i :: 0 <= i < |fs| ==> ValidField(fs[i])
  }

  function Texts(fs: seq<Field>): seq<string> {
    seq(|fs|, i requires 0 <= i < |fs| => fs[i].tag + fs[i].value)
  }

  /** The value the last field of a kind gives, empty if there is none. */
  function Given(fs: seq<Field>, kind: Kind): string {
    if |fs| == 0 then ""
    else if fs[|fs| - 1].kind == kind then fs[|fs| - 1].value
    else Given(fs[..|fs| - 1], kind)
  }

  function Server(fs: seq<Field>): CustomServer {
    CustomServer(Given(fs, Key), Given(fs, Host), Given(fs, Api), Given(fs, Relay))
  }

  predicate Unrecognised(el: string) {
    ',' !in el && forall kind: Kind :: !StartsWith(ToLower(el), Tag(kind))
  }

  lemma TagChars(f: Field)
    requires ToLower(f.tag) == Tag(f.kind)
    ensures |f.tag| == |Tag(f.kind)|
    ensures ',' !in f.tag
    ensures f.tag[|f.tag| - 1] == '='
  {
    forall i | 0 <= i < |f.tag| ensures f.tag[i] != ',' {
      assert ToLower(f.tag)[i] == Tag(f.kind)[i];
      assert ',' !in Tag(f.kind);
    }
    assert ToLower(f.tag)[|f.tag| - 1] == '=';
  }

  /** The tags are told apart by their first letters. */
  lemma TagMatch(f: Field, kind: Kind)
    requires ValidField(f)
    ensures StartsWith(ToLower(f.tag + f.value), Tag(kind)) <==> f.kind == kind
    ensures |Tag(f.kind)| <= |f.tag + f.value| && (f.tag + f.value)[|Tag(f.kind)|..] == f.value
  {
    ToLowerAppend(f.tag, f.value);
    var low := ToLower(f.tag + f.value);
    assert low[..|f.tag|] == Tag(f.kind);
    assert low[0] == Tag(f.kind)[0];
    if |Tag(kind)| <= |low| {
      assert low[0..|Tag(kind)|][0] == low[0];
    }
  }

  lemma {:induction false} LastValueBy(fs: seq<Field>, tag: string, kind: Kind)
    requires forall i :: 0 <= i < |fs| ==>
               && (StartsWith(ToLower(Texts(fs)[i]), tag) <==> fs[i].kind == kind)
               && (fs[i].kind == kind ==> |tag| <= |Texts(fs)[i]| && Texts(fs)[i][|tag|..] == fs[i].value)
    ensures LastValue(Texts(fs), tag) == Given(fs, kind)
  {
    if |fs| > 0 {
      var n := |fs| - 1;
      assert Texts(fs)[..n] == Texts(fs[..n]);
      LastValueBy(fs[..n], tag, kind);
    }
  }

  lemma LastValueGiven(fs: seq<Field>, kind: Kind)
    requires ValidFields(fs)
    ensures LastValue(Texts(fs), Tag(kind)) == Given(fs, kind)
  {
    forall i | 0 <= i < |fs|
      ensures StartsWith(ToLower(Texts(fs)[i]), Tag(kind)) <==> fs[i].kind == kind
      ensures fs[i].kind == kind ==>
                |Tag(kind)| <= |Texts(fs)[i]| && Texts(fs)[i][|Tag(kind)|..] == fs[i].value
    {
      TagMatch(fs[i], kind);
    }
    LastValueBy(fs, Tag(kind), kind);
  }

  lemma HostFieldsGiven(fs: seq<Field>)
    requires ValidFields(fs)
    ensures HostFields(Texts(fs)) == Server(fs)
  {
    LastValueGiven(fs, Host);
    LastValueGiven(fs, Key);
    LastValueGiven(fs, Api);
    LastValueGiven(fs, Relay);
  }

  lemma UnrecognisedIgnored(els: seq<string>, el: string)
    requires Unrecognised(el)
    ensures HostFields(els + [el]) == HostFields(els)
  {
    assert (els + [el])[..|els|] == els;
    assert !StartsWith(ToLower(el), Tag(Host));
    assert !StartsWith(ToLower(el), Tag(Key));
    assert !StartsWith(ToLower(el), Tag(Api));
    assert !StartsWith(ToLower(el), Tag(Relay));
  }

  // Which fields are read

  /** The value of this kind survives when only the fields from `h` on are read: the last field of the
      kind is among those, or empty. */
  predicate KindKept(fs: seq<Field>, h: nat, kind: Kind)
    requires h <= |fs|
  {
    forall i :: 0 <= i < h && fs[i].kind == kind && LastOfKind(fs, i) ==> fs[i].value == ""
  }

  predicate LastOfKind(fs: seq<Field>, i: nat)
    requires i < |fs|
  {
    forall j :: i < j < |fs| ==> fs[j].kind != fs[i].kind
  }

  /** Nothing is lost with the fields in front of `h`. */
  ghost predicate NothingLost(fs: seq<Field>, h: nat)
    requires h <= |fs|
  {
    forall kind: Kind :: KindKept(fs, h, kind)
  }

  lemma {:induction false} FindLast(fs: seq<Field>, kind: Kind) returns (i: int)
    ensures -1 <= i < |fs|
    ensures i >= 0 ==> fs[i].kind == kind && Given(fs, kind) == fs[i].value
    ensures i < 0 ==> Given(fs, kind) == ""
    ensures forall j :: i < j < |fs| ==> fs[j].kind != kind
  {
    var n := |fs| - 1;
    if n < 0 || fs[n].kind == kind {
      i := n;
    } else {
      i := FindLast(fs[..n], kind);
    }
  }

  lemma KindRead(fs: seq<Field>, h: nat, kind: Kind)
    requires h <= |fs|
    ensures Given(fs[h..], kind) == Given(fs, kind) <==> KindKept(fs, h, kind)
  {
    var i := FindLast(fs, kind);
    var k := FindLast(fs[h..], kind);
    assert k >= 0 ==> fs[h..][k] == fs[h + k] && i >= h + k;
    assert i >= h ==> fs[h..][i - h] == fs[i] && k >= i - h;
    if 0 <= i < h {
      assert LastOfKind(fs, i);
    }
  }

  lemma ServerRead(fs: seq<Field>, h: nat)
    requires h <= |fs|
    ensures Server(fs[h..]) == Server(fs) <==> NothingLost(fs, h)
  {
    KindRead(fs, h, Host);
    KindRead(fs, h, Key);
    KindRead(fs, h, Api);
    KindRead(fs, h, Relay);
    if Server(fs[h..]) == Server(fs) {
      forall kind: Kind ensures KindKept(fs, h, kind) {
        match kind
        case Host =>
        case Key =>
        case Api =>
        case Relay =>
      }
    }
  }

  // Locating the form in the name

  /** Nothing in front of the first tag is taken for `host=`. */
  predicate CleanFront(front: string, tag: string) {
    forall i :: 0 <= i < |front| ==> !At(ToLower(front + tag), "host=", i)
  }

  lemma FindHost(front: string, tag: string, rest: string, p: string)
    requires ToLower(tag) == p
    requires forall i :: 0 <= i < |front| ==> !At(ToLower(front + tag), p, i)
    ensures var low := ToLower(front + tag + rest);
            && Contains(low, p)
            && FindFrom(low, p, 0) == |front|
  {
    var low := ToLower(front + tag + rest);
    ToLowerAppend(front + tag, rest);
    ToLowerAppend(front, tag);
    assert low[|front|..|front| + |p|] == p;
    assert At(low, p, |front|);
    forall i | 0 <= i < |front| ensures !At(low, p, i) {
      assert !At(ToLower(front + tag), p, i);
      if i + |p| <= |low| {
        assert low[i..i + |p|] == ToLower(front + tag)[i..i + |p|];
      }
    }
  }

  lemma ReadLocated(front: string, text: string, reader: Reader)
    requires Contains(ToLower(front + text), "host=")
    requires FindFrom(ToLower(front + text), "host=", 0) == |front|
    ensures ParseStripped(front + text, reader) == Some(HostFields(Split(text, ",")))
  {
    assert (front + text)[|front|..] == text;
  }

  lemma ReadParts(front: string, tag: string, parts: seq<string>, reader: Reader)
    requires |parts| > 0 && tag <= parts[0] && ToLower(tag) == Tag(Host) && CleanFront(front, tag)
    requires forall k :: 0 <= k < |parts| ==> ',' !in parts[k]
    ensures ParseStripped(front + Join(parts, ","), reader) == Some(HostFields(parts))
  {
    var text := Join(parts, ",");
    TextFound(front, tag, text, parts[0], Tag(Host));
    ReadLocated(front, text, reader);
    SplitJoin(parts, ',');
  }

  lemma TextFound(front: string, tag: string, text: string, part: string, p: string)
    requires tag <= part <= text && ToLower(tag) == p
    requires forall i :: 0 <= i < |front| ==> !At(ToLower(front + tag), p, i)
    ensures Contains(ToLower(front + text), p) && FindFrom(ToLower(front + text), p, 0) == |front|
  {
    var rest := text[|tag|..];
    assert front + tag + rest == front + text;
    FindHost(front, tag, rest, p);
  }

  lemma {:induction false} JoinAppend(a: seq<string>, b: seq<string>, p: string)
    requires |a| > 0 && |b| > 0
    ensures Join(a + b, p) == Join(a, p) + p + Join(b, p)
  {
    var all := a + b;
    if |a| > 1 {
      JoinAppend(a[1..], b, p);
      assert all[1..] == a[1..] + b;
    } else {
      assert all[1..] == b && all[0] == a[0];
    }
  }

  /** The name up to the field `h`. */
  function Before(front: string, fs: seq<Field>, h: nat): string
    requires h <= |fs|
  {
    if h == 0 then front else front + Join(Texts(fs[..h]), ",") + ","
  }

  lemma FromField(front: string, fs: seq<Field>, h: nat, more: seq<string>)
    requires h < |fs|
    ensures front + Join(Texts(fs) + more, ",") == Before(front, fs, h) + Join(Texts(fs[h..]) + more, ",")
  {
    var a, b := Texts(fs[..h]), Texts(fs[h..]) + more;
    assert Texts(fs) + more == a + b;
    if h > 0 {
      JoinAppend(a, b, ",");
    } else {
      assert a + b == b;
    }
  }

  // The extension

  lemma UnrecognisedPrefix(el: string, k: nat)
    requires Unrecognised(el) && k <= |el|
    ensures Unrecognised(el[..k])
  {
    forall kind: Kind ensures !StartsWith(ToLower(el[..k]), Tag(kind)) {
      assert !StartsWith(ToLower(el), Tag(kind));
      assert ToLower(el)[..k] == ToLower(el[..k]);
      if |Tag(kind)| <= k {
        assert ToLower(el[..k])[0..|Tag(kind)|] == ToLower(el)[0..|Tag(kind)|];
      }
    }
  }

  lemma TextsPlain(fs: seq<Field>)
    requires ValidFields(fs)
    ensures forall k :: 0 <= k < |fs| ==> ',' !in Texts(fs)[k]
  {
    forall k | 0 <= k < |fs| ensures ',' !in Texts(fs)[k] {
      TagChars(fs[k]);
    }
  }

  /** Everything up to and including the last comma, and the element behind it. */
  lemma JoinLast(front: string, texts: seq<string>, x: string)
    requires |texts| > 0
    ensures front + Join(texts + [x], ",") == (front + Join(texts, ",") + ",") + x
  {
    JoinAppend(texts, [x], ",");
    assert Join([x], ",") == x;
    Together(front, Join(texts, ","), ",", x);
  }

  lemma Together(a: string, b: string, c: string, d: string)
    ensures a + (b + c + d) == a + b + c + d
  {
  }

  lemma StripClosed(front: string, texts: seq<string>, el: string, ext: string) returns (cut: string)
    requires |texts| > 0 && Unrecognised(el) && IsExtension(ext)
    ensures Unrecognised(cut)
    ensures StripExe(front + Join(texts + [el], ",") + ext) == front + Join(texts + [cut], ",")
  {
    var pre := front + Join(texts, ",") + ",";
    JoinLast(front, texts, el);
    var k := StripBehind(front + Join(texts + [el], ","), pre, el, ext);
    cut := el[..k];
    UnrecognisedPrefix(el, k);
    JoinLast(front, texts, cut);
  }

  lemma ReadClosed(front: string, fs: seq<Field>, el: string, reader: Reader)
    requires |fs| > 0 && ValidFields(fs) && fs[0].kind == Host && CleanFront(front, fs[0].tag)
    requires Unrecognised(el)
    ensures ParseStripped(front + Join(Texts(fs) + [el], ","), reader) == Some(Server(fs))
  {
    TextsPlain(fs);
    ReadParts(front, fs[0].tag, Texts(fs) + [el], reader);
    UnrecognisedIgnored(Texts(fs), el);
    HostFieldsGiven(fs);
  }

  /** With a final comma, whatever unrecognised text follows it (Windows' copy mark, or nothing), and
      whatever the extension, the fields from the first `host=` on come back, in any order and letter
      case, the last of a kind winning: all of them if and only if nothing stands in front that counts. */
  lemma ClosedForm(front: string, fs: seq<Field>, h: nat, el: string, ext: string, reader: Reader)
    requires h < |fs| && ValidFields(fs) && fs[h].kind == Host && CleanFront(Before(front, fs, h), fs[h].tag)
    requires Unrecognised(el) && IsExtension(ext)
    ensures ParseName(front + Join(Texts(fs) + [el], ",") + ext, reader) == Some(Server(fs[h..]))
    ensures Server(fs[h..]) == Server(fs) <==> NothingLost(fs, h)
  {
    var cut := StripClosed(front, Texts(fs), el, ext);
    FromField(front, fs, h, [cut]);
    ReadClosed(Before(front, fs, h), fs[h..], cut, reader);
    ServerRead(fs, h);
  }

  /** The last field with its value cut to `k` characters. */
  function CutLast(fs: seq<Field>, k: nat): seq<Field>
    requires |fs| > 0 && k <= |fs[|fs| - 1].value|
  {
    var f := fs[|fs| - 1];
    fs[|fs| - 1 := f.(value := f.value[..k])]
  }

  lemma LastElement(front: string, init: seq<string>, f: Field, value: string)
    requires ToLower(f.tag) == Tag(f.kind)
    ensures var pre := front + (if init == [] then "" else Join(init, ",") + ",") + f.tag;
            && |pre| > 0 && pre[|pre| - 1] == '='
            && front + Join(init + [f.tag + value], ",") == pre + value
  {
    TagChars(f);
    if init != [] {
      JoinAppend(init, [f.tag + value], ",");
    } else {
      assert init + [f.tag + value] == [f.tag + value];
    }
  }

  lemma StripLast(front: string, init: seq<string>, f: Field, ext: string) returns (k: nat)
    requires ToLower(f.tag) == Tag(f.kind) && IsExtension(ext)
    ensures k <= |f.value|
    ensures StripExe(front + Join(init + [f.tag + f.value], ",") + ext)
         == front + Join(init + [f.tag + f.value[..k]], ",")
    ensures k == |f.value| <==> ToLower(ext) == ".exe.exe" || !EndsWith(ToLower(f.value), ".exe")
  {
    var body := front + Join(init + [f.tag + f.value], ",");
    var pre := front + (if init == [] then "" else Join(init, ",") + ",") + f.tag;
    LastElement(front, init, f, f.value);
    k := StripBehind(body, pre, f.value, ext);
    LastElement(front, init, f, f.value[..k]);
  }

  lemma TextsOfLast(fs: seq<Field>, k: nat)
    requires |fs| > 0 && k <= |fs[|fs| - 1].value|
    ensures var f, init := fs[|fs| - 1], Texts(fs)[..|fs| - 1];
            Texts(fs) == init + [f.tag + f.value] && Texts(CutLast(fs, k)) == init + [f.tag + f.value[..k]]
  {
  }

  lemma StripOpen(front: string, fs: seq<Field>, ext: string) returns (k: nat)
    requires |fs| > 0 && ValidFields(fs) && IsExtension(ext)
    ensures k <= |fs[|fs| - 1].value|
    ensures StripExe(front + Join(Texts(fs), ",") + ext) == front + Join(Texts(CutLast(fs, k)), ",")
    ensures k == |fs[|fs| - 1].value|
       <==> ToLower(ext) == ".exe.exe" || !EndsWith(ToLower(fs[|fs| - 1].value), ".exe")
  {
    var f, init := fs[|fs| - 1], Texts(fs)[..|fs| - 1];
    k := StripLast(front, init, f, ext);
    TextsOfLast(fs, k);
  }

  lemma ReadFields(front: string, fs: seq<Field>, h: nat, reader: Reader)
    requires h < |fs| && ValidFields(fs) && fs[h].kind == Host && CleanFront(Before(front, fs, h), fs[h].tag)
    ensures ParseStripped(front + Join(Texts(fs), ","), reader) == Some(Server(fs[h..]))
  {
    var gs := fs[h..];
    FromField(front, fs, h, []);
    assert Texts(fs) + [] == Texts(fs) && Texts(gs) + [] == Texts(gs);
    TextsPlain(gs);
    ReadParts(Before(front, fs, h), gs[0].tag, Texts(gs), reader);
    HostFieldsGiven(gs);
  }

  lemma CutBehind(front: string, fs: seq<Field>, h: nat, k: nat)
    requires h < |fs| && ValidFields(fs) && k <= |fs[|fs| - 1].value|
    ensures ValidFields(CutLast(fs, k)) && Before(front, CutLast(fs, k), h) == Before(front, fs, h)
    ensures CutLast(fs, k)[h].kind == fs[h].kind && CutLast(fs, k)[h].tag == fs[h].tag
    ensures k < |fs[|fs| - 1].value| ==> Server(CutLast(fs, k)[h..]) != Server(fs)
    ensures k == |fs[|fs| - 1].value| ==> CutLast(fs, k) == fs
  {
    var cut, f := CutLast(fs, k), fs[|fs| - 1];
    assert k == |f.value| ==> f.value[..k] == f.value;
    assert cut[..h] == fs[..h];
    assert cut[h..][|fs| - 1 - h] == cut[|fs| - 1];
    assert Given(cut[h..], f.kind) == f.value[..k] && Given(fs, f.kind) == f.value;
  }

  /** Without a final comma the fields come back if and only if nothing that counts stands in front of
      the first `host=`, and the last value does not itself end in `.exe`, which the reader takes for
      part of the extension unless that is doubled already. */
  lemma OpenForm(front: string, fs: seq<Field>, h: nat, ext: string, reader: Reader)
    requires h < |fs| && ValidFields(fs) && fs[h].kind == Host && CleanFront(Before(front, fs, h), fs[h].tag)
    requires IsExtension(ext)
    ensures ParseName(front + Join(Texts(fs), ",") + ext, reader) == Some(Server(fs))
       <==> NothingLost(fs, h)
            && (ToLower(ext) == ".exe.exe" || !EndsWith(ToLower(fs[|fs| - 1].value), ".exe"))
  {
    var k := StripOpen(front, fs, ext);
    CutBehind(front, fs, h, k);
    ReadFields(front, CutLast(fs, k), h, reader);
    ServerRead(fs, h);
  }

  /** A key in front of the host is lost: `rustdesk-key=b,host=h,.exe` gives back an empty key. */
  lemma KeyFirstIsLost(front: string, fs: seq<Field>, ext: string, reader: Reader)
    requires front == "rustdesk-" && fs == [Field(Key, "key=", "b"), Field(Host, "host=", "h")] && ext == ".exe"
    ensures Server(fs) == CustomServer("b", "h", "", "")
    ensures ParseName(front + Join(Texts(fs) + [""], ",") + ext, reader) == Some(CustomServer("", "h", "", ""))
  {
    KeyFirstClean(front, fs);
    assert ToLower(ext) == ".exe";
    assert Unrecognised("");
    ClosedForm(front, fs, 1, "", ext, reader);
    KeyFirstServer(fs);
  }

  lemma KeyFirstServer(fs: seq<Field>)
    requires |fs| == 2 && fs[0].kind == Key && fs[1].kind == Host
    ensures Server(fs) == CustomServer(fs[0].value, fs[1].value, "", "")
    ensures Server(fs[1..]) == CustomServer("", fs[1].value, "", "")
  {
    GivenOfTwo(fs, Key);
    GivenOfTwo(fs, Host);
    GivenOfTwo(fs, Api);
    GivenOfTwo(fs, Relay);
  }

  lemma GivenOfTwo(fs: seq<Field>, kind: Kind)
    requires |fs| == 2
    ensures Given(fs[1..], kind) == if fs[1].kind == kind then fs[1].value else ""
    ensures Given(fs, kind)
         == if fs[1].kind == kind then fs[1].value else if fs[0].kind == kind then fs[0].value else ""
  {
    GivenSnoc([], fs[0], kind);
    GivenSnoc([], fs[1], kind);
    GivenSnoc([fs[0]], fs[1], kind);
    assert [] + [fs[0]] == [fs[0]] && [] + [fs[1]] == fs[1..] && [fs[0]] + [fs[1]] == fs;
  }

  lemma GivenSnoc(fs: seq<Field>, f: Field, kind: Kind)
    ensures Given(fs + [f], kind) == if f.kind == kind then f.value else Given(fs, kind)
  {
    assert (fs + [f])[..|fs|] == fs;
  }

  lemma KeyFirstClean(front: string, fs: seq<Field>)
    requires front == "rustdesk-" && fs == [Field(Key, "key=", "b"), Field(Host, "host=", "h")]
    ensures ValidFields(fs) && CleanFront(Before(front, fs, 1), "host=")
  {
    assert ToLower("key=") == "key=" && ToLower("host=") == "host=";
    var before := Before(front, fs, 1);
    assert "key=" + "b" == "key=b";
    assert Texts(fs[..1]) == ["key=b"];
    assert before == "rustdesk-key=b,";
    var low := ToLower(before + "host=");
    forall i | 0 <= i < |before| ensures !At(low, "host=", i) {
      assert before[i] != 'h' && before[i] != 'H';
      NotAt(low, "host=", i, 0);
    }
  }
}
