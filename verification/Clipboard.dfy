/** Clipboard contents on the wire: the protobuf items they become and what is read back. Rust
    strings are modelled by their UTF-8 bytes. */
module Clipboard {
  import opened Common

  type Bytes = seq<Byte>

  datatype Image = Rgba(width: nat, height: nat, pixels: Bytes) | Png(png: Bytes) | Svg(svg: Bytes)

  datatype Data =
    | Text(text: Bytes)
    | Rtf(rtf: Bytes)
    | Html(html: Bytes)
    | Picture(image: Image)
    | Special(name: Bytes, data: Bytes)
    | FileUrl(urls: seq<Bytes>)
    | Absent

  datatype Format = FText | FRtf | FHtml | FRgba | FPng | FSvg | FSpecial | FUnknown

  datatype Item = Item(compress: bool, content: Bytes, width: int, height: int, format: Format,
                       specialName: Bytes)

  /** Foreign code: the compressor (an empty result is its failure) and the UTF-8 check. */
  datatype Codec = Codec(compress: Bytes -> Bytes, decompress: Bytes -> Bytes, utf8: Bytes -> bool)

  ghost predicate Lawful(c: Codec) {
    && (forall d :: c.compress(d) != [] ==> c.decompress(c.compress(d)) == d)
    && c.decompress([]) == []
    && c.utf8([])
  }

  // Machine integers: a `usize` sent as `int32`

  const WORD := 0x1_0000_0000_0000_0000
  const HALF := 0x8000_0000
  const FULL := 0x1_0000_0000

  function ToInt32(w: nat): (r: int)
    ensures -HALF <= r < HALF
  {
    if w % FULL < HALF then w % FULL else w % FULL - FULL
  }

  function ToUsize(i: int): nat
    requires -HALF <= i < HALF
  {
    if i >= 0 then i else WORD + i
  }

  lemma SizeSurvives(w: nat)
    requires w < WORD
    ensures ToUsize(ToInt32(w)) == w <==> w < HALF || w >= WORD - HALF
  {
  }

  // Encoding and decoding

  predicate Shortens(c: Codec, d: Bytes) {
    |c.compress(d)| < |d|
  }

  function Packed(c: Codec, d: Bytes, format: Format): Item {
    Item(Shortens(c, d), if Shortens(c, d) then c.compress(d) else d, 0, 0, format, [])
  }

  function ToItem(c: Codec, x: Data): Option<Item> {
    match x
    case Text(s) => Some(Packed(c, s, FText))
    case Rtf(s) => Some(Packed(c, s, FRtf))
    case Html(s) => Some(Packed(c, s, FHtml))
    case Picture(Rgba(w, h, d)) => Some(Packed(c, d, FRgba).(width := ToInt32(w), height := ToInt32(h)))
    case Picture(Png(d)) => Some(Item(false, d, 0, 0, FPng, []))
    case Picture(Svg(d)) => Some(Packed(c, d, FSvg))
    case Special(s, d) =>
      // The uncompressed branch sends the bytes of the name.
      Some(Item(Shortens(c, d), if Shortens(c, d) then c.compress(d) else s, 0, 0, FSpecial, s))
    case _ => None
  }

  function FromItem(c: Codec, i: Item): Option<Data>
    requires -HALF <= i.width < HALF && -HALF <= i.height < HALF
  {
    var d := if i.compress then c.decompress(i.content) else i.content;
    match i.format
    case FText => if c.utf8(d) then Some(Text(d)) else None
    case FRtf => if c.utf8(d) then Some(Rtf(d)) else None
    case FHtml => if c.utf8(d) then Some(Html(d)) else None
    case FRgba => Some(Picture(Rgba(ToUsize(i.width), ToUsize(i.height), d)))
    case FPng => Some(Picture(Png(d)))
    case FSvg => Some(Picture(Svg(if c.utf8(d) then d else [])))
    case FSpecial => Some(Special(i.specialName, d))
    case FUnknown => None
  }

  predicate ValidItem(i: Item) {
    -HALF <= i.width < HALF && -HALF <= i.height < HALF
  }

  predicate ValidItems(items: seq<Item>) {
    forall k :: 0 <= k < |items| ==> ValidItem(items[k])
  }

  function CreateMulti(c: Codec, xs: seq<Data>): (items: seq<Item>)
    ensures ValidItems(items)
  {
    if |xs| == 0 then []
    else
      var rest := CreateMulti(c, xs[1..]);
      match ToItem(c, xs[0])
      case Some(i) => [i] + rest
      case None => rest
  }

  function FromMulti(c: Codec, items: seq<Item>): seq<Data>
    requires ValidItems(items)
  {
    if |items| == 0 then []
    else
      var rest := FromMulti(c, items[1..]);
      match FromItem(c, items[0])
      case Some(x) => [x] + rest
      case None => rest
  }

  // Round trips

  /** What the types of the source guarantee: strings are UTF-8, sizes are machine words. */
  predicate WellFormed(c: Codec, x: Data) {
    match x
    case Text(s) => c.utf8(s)
    case Rtf(s) => c.utf8(s)
    case Html(s) => c.utf8(s)
    case Picture(Rgba(w, h, _)) => w < WORD && h < WORD
    case Picture(Svg(s)) => c.utf8(s)
    case _ => true
  }

  predicate Supported(x: Data) {
    !x.FileUrl? && !x.Absent?
  }

  /** The compressor did not fail on data it would have shortened. */
  predicate Survives(c: Codec, d: Bytes) {
    c.compress(d) != [] || d == []
  }

  predicate SizeFits(w: nat) {
    w < HALF || w >= WORD - HALF
  }

  /** When an item comes back as it was. */
  predicate Faithful(c: Codec, x: Data) {
    match x
    case Text(s) => Survives(c, s)
    case Rtf(s) => Survives(c, s)
    case Html(s) => Survives(c, s)
    case Picture(Rgba(w, h, d)) => Survives(c, d) && SizeFits(w) && SizeFits(h)
    case Picture(Png(_)) => true
    case Picture(Svg(d)) => Survives(c, d)
    case Special(s, d) => if Shortens(c, d) then c.compress(d) != [] else d == s
    case _ => false
  }

  lemma ItemRoundTrip(c: Codec, x: Data)
    requires Lawful(c) && WellFormed(c, x) && Supported(x)
    ensures ToItem(c, x).Some? && FromItem(c, ToItem(c, x).value).Some?
    ensures FromItem(c, ToItem(c, x).value) == Some(x) <==> Faithful(c, x)
  {
    if x.Picture? && x.image.Rgba? {
      SizeSurvives(x.image.width);
      SizeSurvives(x.image.height);
    }
  }

  /** Only a picture's pixels are sent with a size, only a special kind with a name; a PNG
      is never compressed again, and files are not sent. */
  lemma ItemSays(c: Codec, x: Data)
    ensures ToItem(c, x) == None <==> x.FileUrl? || x.Absent?
    ensures ToItem(c, x).Some? ==>
              var i := ToItem(c, x).value;
              && (!(x.Picture? && x.image.Rgba?) ==> i.width == 0 && i.height == 0)
              && i.specialName == (if x.Special? then x.name else [])
              && (x.Picture? && x.image.Png? ==> !i.compress)
  {
  }

  function Kept(xs: seq<Data>): seq<Data> {
    if |xs| == 0 then []
    else if Supported(xs[0]) then [xs[0]] + Kept(xs[1..]) else Kept(xs[1..])
  }

  lemma {:induction false} RoundTripLength(c: Codec, xs: seq<Data>)
    requires Lawful(c) && forall k :: 0 <= k < |xs| ==> WellFormed(c, xs[k])
    ensures |FromMulti(c, CreateMulti(c, xs))| == |Kept(xs)|
  {
    if |xs| > 0 {
      RoundTripLength(c, xs[1..]);
      if Supported(xs[0]) {
        ItemRoundTrip(c, xs[0]);
        assert CreateMulti(c, xs)[1..] == CreateMulti(c, xs[1..]);
      }
    }
  }

  /** A list comes back in order, without the unsupported kinds, if and only if every supported item
      is one the wire format is faithful to. */
  lemma {:induction false} ListRoundTrip(c: Codec, xs: seq<Data>)
    requires Lawful(c) && forall k :: 0 <= k < |xs| ==> WellFormed(c, xs[k])
    ensures FromMulti(c, CreateMulti(c, xs)) == Kept(xs)
       <==> forall k :: 0 <= k < |xs| && Supported(xs[k]) ==> Faithful(c, xs[k])
  {
    if |xs| > 0 {
      var rest := xs[1..];
      ListRoundTrip(c, rest);
      RoundTripLength(c, rest);
      assert xs == [xs[0]] + rest;
      if Supported(xs[0]) {
        ItemRoundTrip(c, xs[0]);
        var items := CreateMulti(c, xs);
        assert items[1..] == CreateMulti(c, rest);
        var back := FromMulti(c, items);
        assert back[1..] == FromMulti(c, CreateMulti(c, rest)) && Kept(xs)[1..] == Kept(rest);
      }
    }
  }
}
