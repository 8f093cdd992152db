/** The generation record of an image: its XMP packet, and the three containers that carry it. */
module Metadata {
  import opened Wrappers
  import opened Bytes
  import Base64
  import Jpeg
  import Png
  import Webp

  datatype Format = PngImage | JpegImage | WebpImage

  datatype ImageMetadata = ImageMetadata(format: Format, width: nat, height: nat)

  datatype Error =
    | InvalidRecord | VerificationFailed | FormatMismatch | PropertiesChanged | MalformedRecord
    | InPng(png: Png.Error) | InJpeg(jpeg: Jpeg.Error) | InWebp(webp: Webp.Error)

  /** The image decoder and the JSON parser, which the bridge takes from libraries. */
  datatype Library = Library(
    inspect: seq<Byte> -> Option<ImageMetadata>,
    isObject: seq<Byte> -> bool)

  const MAX_RECORD_BYTES := 40 * 1024

  // ----- the packet

  function Code(c: char): Byte {
    if c < 0x80 as char then c as int else 0x3F
  }

  function Ascii(text: string): (r: seq<Byte>)
    ensures |r| == |text|
  {
    seq(|text|, i requires 0 <= i < |text| => Code(text[i]))
  }

  const LT: Byte := 0x3C

  /** An opening angle bracket and the rest of the tag. */
  function Tag(body: string): seq<Byte> {
    [LT] + Ascii(body)
  }

  const META := "x:xmpmeta xmlns:x=\"adobe:ns:meta/\" " + "x:xmptk=\"imagegen-bridge\">"
  const RDF := "rdf:RDF xmlns:rdf=\"http://www.w3.org/" + "1999/02/22-rdf-syntax-ns#\">"
  const NAMESPACE := "https://github.com/" + "Crimsab/imagegen-bridge/ns/1.0/"
  const ABOUT := "rdf:Description rdf:about=\"\" xmlns:igb=\""
  const DESCRIPTION := ABOUT + NAMESPACE + "\">"
  const OPEN := "igb:Metadata>"
  const CLOSE := "/igb:Metadata>"
  const TRAILER := "</rdf:Description></rdf:RDF></x:xmpmeta>"

  function Packet(record: seq<Byte>): seq<Byte> {
    Tag(META) + (Tag(RDF) + (Tag(DESCRIPTION)
      + (Tag(OPEN) + (Base64.Encode(record) + (Tag(CLOSE) + Ascii(TRAILER))))))
  }

  /** Where `pattern` first occurs. */
  function Find(text: seq<Byte>, pattern: seq<Byte>): (r: Option<nat>)
    ensures r.Some? ==> r.value + |pattern| <= |text|
    decreases |text|
  {
    if pattern <= text then Some(0)
    else if text == [] then None
    else match Find(text[1..], pattern)
      case None => None
      case Some(n) => Some(n + 1)
  }

  /** What stands between the first opening tag and the first closing tag after it. */
  function Between(text: seq<Byte>, open: seq<Byte>, close: seq<Byte>): Option<seq<Byte>> {
    match Find(text, open)
    case None => None
    case Some(at) =>
      var rest := text[at + |open|..];
      match Find(rest, close)
      case None => None
      case Some(end) => Some(rest[..end])
  }

  lemma {:induction false} FindPlain(plain: seq<Byte>, rest: seq<Byte>, pattern: seq<Byte>)
    requires pattern != [] && pattern[0] == LT && LT !in plain && Find(rest, pattern).Some?
    ensures Find(plain + rest, pattern) == Some(|plain| + Find(rest, pattern).value)
  {
    if plain == [] {
      assert plain + rest == rest;
    } else {
      var text := plain + rest;
      assert text[0] == plain[0] && text[1..] == plain[1..] + rest;
      FindPlain(plain[1..], rest, pattern);
    }
  }

  lemma NotPrefix(pattern: seq<Byte>, text: seq<Byte>)
    requires |pattern| >= 2 && |text| >= 2 && text[1] != pattern[1]
    ensures !(pattern <= text)
  {
  }

  lemma FindNext(text: seq<Byte>, pattern: seq<Byte>)
    requires text != [] && !(pattern <= text) && Find(text[1..], pattern).Some?
    ensures Find(text, pattern) == Some(Find(text[1..], pattern).value + 1)
  {
  }

  lemma AfterBracket(plain: seq<Byte>, rest: seq<Byte>)
    requires plain != []
    ensures var text := ([LT] + plain) + rest;
      |text| >= 2 && text[1] == plain[0] && text[1..] == plain + rest
  {
  }

  /** A tag other than the one sought is passed over. */
  lemma FindTag(plain: seq<Byte>, rest: seq<Byte>, pattern: seq<Byte>)
    requires |pattern| >= 2 && pattern[0] == LT && plain != [] && plain[0] != pattern[1]
    requires LT !in plain && Find(rest, pattern).Some?
    ensures Find([LT] + plain + rest, pattern) == Some(1 + |plain| + Find(rest, pattern).value)
  {
    hide *;
    AfterBracket(plain, rest);
    FindPlain(plain, rest, pattern);
    NotPrefix(pattern, [LT] + plain + rest);
    FindNext([LT] + plain + rest, pattern);
  }

  lemma FindHere(pattern: seq<Byte>, rest: seq<Byte>)
    ensures Find(pattern + rest, pattern) == Some(0)
  {
    assert (pattern + rest)[..|pattern|] == pattern;
  }

  predicate IsBody(body: string, first: char) {
    body != "" && body[0] == first && first < 0x80 as char && '<' !in body
  }

  lemma TagBytes(body: string, first: char)
    requires IsBody(body, first)
    ensures var text := Ascii(body); text != [] && text[0] == first as int && LT !in text
  {
    forall i | 0 <= i < |body| ensures Ascii(body)[i] != LT {
      assert body[i] in body;
    }
  }

  lemma MetaBody()
    ensures IsBody(META, 'x') && |META| <= 70
  {
  }

  lemma RdfBody()
    ensures IsBody(RDF, 'r') && |RDF| <= 70
  {
  }

  lemma AboutBody()
    ensures |ABOUT| == 40 && ABOUT[0] == 'r' && '<' !in ABOUT
  {
  }

  lemma NamespaceBody()
    ensures |NAMESPACE| <= 55 && '<' !in NAMESPACE
  {
  }

  lemma DescriptionBody()
    ensures IsBody(DESCRIPTION, 'r') && |DESCRIPTION| <= 100
  {
    AboutBody();
    NamespaceBody();
    hide ABOUT, NAMESPACE;
    assert '<' !in "\">";
  }

  lemma RecordBodies()
    ensures IsBody(OPEN, 'i') && IsBody(CLOSE, '/') && |OPEN| + |CLOSE| + |TRAILER| <= 80
  {
  }

  lemma PassTag(body: string, first: char, rest: seq<Byte>)
    requires IsBody(body, first) && first != 'i' && Find(rest, Tag(OPEN)).Some?
    ensures Find(Tag(body) + rest, Tag(OPEN)) == Some(|Tag(body)| + Find(rest, Tag(OPEN)).value)
  {
    hide Find, Ascii;
    RecordBodies();
    TagBytes(body, first);
    TagBytes(OPEN, 'i');
    FindTag(Ascii(body), rest, Tag(OPEN));
  }

  /** The first pair of tags in a packet encloses exactly the encoded record. */
  lemma PacketRoundTrip(record: seq<Byte>)
    ensures Between(Packet(record), Tag(OPEN), Tag(CLOSE)) == Some(Base64.Encode(record))
    ensures |Packet(record)| <= 330 + (|record| + 2) / 3 * 4
  {
    hide Base64.Encode, Find, Ascii, IsBody;
    MetaBody();
    RdfBody();
    DescriptionBody();
    RecordBodies();
    Base64.EncodeShape(record);
    var encoded := Base64.Encode(record);
    var tail := Tag(CLOSE) + Ascii(TRAILER);
    var inner := encoded + tail;
    var framed := Tag(OPEN) + inner;
    FindHere(Tag(OPEN), inner);
    PassTag(DESCRIPTION, 'r', framed);
    PassTag(RDF, 'r', Tag(DESCRIPTION) + framed);
    PassTag(META, 'x', Tag(RDF) + (Tag(DESCRIPTION) + framed));
    var packet := Packet(record);
    var head := Tag(META) + Tag(RDF) + Tag(DESCRIPTION) + Tag(OPEN);
    assert packet == head + inner;
    assert packet[|head|..] == inner;
    FindHere(Tag(CLOSE), Ascii(TRAILER));
    FindPlain(encoded, tail, Tag(CLOSE));
    assert inner[..|encoded|] == encoded;
  }

  /** Every acceptable record fits the reader's bound and the JPEG segment. */
  lemma PacketFits(record: seq<Byte>)
    requires |record| <= MAX_RECORD_BYTES
    ensures 0 < |Packet(record)| <= MAX_XMP_BYTES
    ensures |Jpeg.HEADER| + |Packet(record)| + 2 < U16_LIMIT
  {
    PacketRoundTrip(record);
  }

  // ----- embedding and extracting

  predicate ValidRecord(record: seq<Byte>, library: Library) {
    0 < |record| <= MAX_RECORD_BYTES && library.isObject(record)
  }

  function EmbedPacket(bytes: seq<Byte>, image: ImageMetadata, xmp: seq<Byte>): Result<seq<Byte>, Error> {
    match image.format
    case PngImage => (match Png.Embed(bytes, xmp) case Ok(output) => Ok(output) case Err(e) => Err(InPng(e)))
    case JpegImage => (match Jpeg.Embed(bytes, xmp) case Ok(output) => Ok(output) case Err(e) => Err(InJpeg(e)))
    case WebpImage => (match Webp.Embed(bytes, xmp, image.width, image.height)
      case Ok(output) => Ok(output) case Err(e) => Err(InWebp(e)))
  }

  function ExtractPacket(bytes: seq<Byte>, format: Format): Result<Option<seq<Byte>>, Error> {
    match format
    case PngImage => (match Png.Extract(bytes) case Ok(xmp) => Ok(xmp) case Err(e) => Err(InPng(e)))
    case JpegImage => (match Jpeg.Extract(bytes) case Ok(xmp) => Ok(xmp) case Err(e) => Err(InJpeg(e)))
    case WebpImage => (match Webp.Extract(bytes) case Ok(xmp) => Ok(xmp) case Err(e) => Err(InWebp(e)))
  }

  function Embed(bytes: seq<Byte>, expected: Format, record: seq<Byte>, library: Library): Result<seq<Byte>, Error> {
    if !ValidRecord(record, library) then Err(InvalidRecord)
    else match library.inspect(bytes)
      case None => Err(VerificationFailed)
      case Some(source) =>
        if source.format != expected then Err(FormatMismatch)
        else
          var output :- EmbedPacket(bytes, source, Packet(record));
          match library.inspect(output)
          case None => Err(VerificationFailed)
          case Some(result) => if result == source then Ok(output) else Err(PropertiesChanged)
  }

  function Extract(bytes: seq<Byte>, library: Library): Result<Option<seq<Byte>>, Error> {
    match library.inspect(bytes)
    case None => Err(VerificationFailed)
    case Some(image) =>
      match ExtractPacket(bytes, image.format)
      case Err(e) => Err(e)
      case Ok(None) => Ok(None)
      case Ok(Some(xmp)) =>
        match Between(xmp, Tag(OPEN), Tag(CLOSE))
        case None => Err(MalformedRecord)
        case Some(encoded) =>
          match Base64.Decode(encoded)
          case None => Err(MalformedRecord)
          case Some(record) => if ValidRecord(record, library) then Ok(Some(record)) else Err(InvalidRecord)
  }

  method EmbedImageMetadata(bytes: seq<Byte>, expected: Format, record: seq<Byte>, library: Library)
    returns (r: Result<seq<Byte>, Error>)
    ensures r == Embed(bytes, expected, record, library)
  {
    if !ValidRecord(record, library) {
      return Err(InvalidRecord);
    }
    var source := library.inspect(bytes);
    if source.None? {
      return Err(VerificationFailed);
    }
    if source.value.format != expected {
      return Err(FormatMismatch);
    }
    var xmp := Packet(record);
    var embedded: seq<Byte>;
    match source.value.format {
      case PngImage =>
        var output := Png.EmbedPng(bytes, xmp);
        if output.Err? { return Err(InPng(output.error)); }
        embedded := output.value;
      case JpegImage =>
        var output := Jpeg.Embed(bytes, xmp);
        if output.Err? { return Err(InJpeg(output.error)); }
        embedded := output.value;
      case WebpImage =>
        var output := Webp.EmbedWebp(bytes, xmp, source.value.width, source.value.height);
        if output.Err? { return Err(InWebp(output.error)); }
        embedded := output.value;
    }
    var result := library.inspect(embedded);
    if result.None? {
      return Err(VerificationFailed);
    }
    if result != source {
      return Err(PropertiesChanged);
    }
    return Ok(embedded);
  }

  /** An embedding succeeds exactly when nothing that the inspection sees has changed by it. */
  lemma EmbedOkIff(bytes: seq<Byte>, expected: Format, record: seq<Byte>, library: Library, output: seq<Byte>)
    ensures Embed(bytes, expected, record, library) == Ok(output) <==>
      && 1 <= |record| <= 40960 && library.isObject(record)
      && library.inspect(bytes).Some? && library.inspect(bytes).value.format == expected
      && EmbedPacket(bytes, library.inspect(bytes).value, Packet(record)) == Ok(output)
      && library.inspect(output) == library.inspect(bytes)
  {
    hide EmbedPacket, Packet;
  }

  /** A record is found exactly when a packet is, its first pair of tags encloses the record's code, and it is valid. */
  lemma ExtractIff(bytes: seq<Byte>, record: seq<Byte>, library: Library)
    ensures Extract(bytes, library) == Ok(Some(record)) <==>
      && library.inspect(bytes).Some?
      && (var found := ExtractPacket(bytes, library.inspect(bytes).value.format);
        && found.Ok? && found.value.Some?
        && Between(found.value.value, Tag(OPEN), Tag(CLOSE)) == Some(Base64.Encode(record)))
      && 1 <= |record| <= 40960 && library.isObject(record)
  {
    hide ExtractPacket, Between, Tag, Base64.Encode, Base64.Decode;
    if library.inspect(bytes).Some? {
      var found := ExtractPacket(bytes, library.inspect(bytes).value.format);
      if found.Ok? && found.value.Some? {
        var encoded := Between(found.value.value, Tag(OPEN), Tag(CLOSE));
        if encoded.Some? {
          Base64.DecodeIff(encoded.value, record);
        }
      }
    }
  }

  /** How many chunks a WebP source has once the record is in it. */
  function ChunksAfter(source: seq<Webp.Chunk>): int {
    |source| - Webp.Count(source, Webp.XMP) + (if Webp.HasVp8x(source) then 1 else 2)
  }

  /**
   * The record that was embedded is the record that is extracted, whatever records the image held
   * before; only a WebP image at the reader's chunk cap can take one and then refuse to give it back.
   */
  lemma RecordRoundTrip(bytes: seq<Byte>, expected: Format, record: seq<Byte>, library: Library)
    requires Embed(bytes, expected, record, library).Ok?
    ensures expected == WebpImage ==> Webp.Parse(bytes).Ok?
    ensures var output := Embed(bytes, expected, record, library).value;
      if expected == WebpImage && ChunksAfter(Webp.Parse(bytes).value) > Webp.MAX_CHUNKS
      then Extract(output, library) == Err(InWebp(Webp.TooManyChunks))
      else Extract(output, library) == Ok(Some(record))
  {
    hide Packet, Between, Base64.Decode, Base64.Encode, Webp.Parse, Webp.Rewrite, Webp.Extract, Png.Embed, Png.Extract;
    var output, source := Embed(bytes, expected, record, library).value, library.inspect(bytes).value;
    var xmp := Packet(record);
    PacketFits(record);
    PacketRoundTrip(record);
    Base64.DecodeEncode(record);
    match expected {
      case PngImage => Png.EmbedRoundTrip(bytes, xmp);
      case JpegImage => Jpeg.EmbedRoundTrip(bytes, xmp);
      case WebpImage =>
        WebpPacket(bytes, xmp, source.width, source.height);
    }
  }

  lemma WebpPacket(bytes: seq<Byte>, xmp: seq<Byte>, width: nat, height: nat)
    requires Webp.Embed(bytes, xmp, width, height).Ok? && 0 < |xmp| <= MAX_XMP_BYTES
    ensures Webp.Parse(bytes).Ok?
    ensures Webp.Extract(Webp.Embed(bytes, xmp, width, height).value) ==
      if ChunksAfter(Webp.Parse(bytes).value) > Webp.MAX_CHUNKS then Err(Webp.TooManyChunks) else Ok(Some(xmp))
  {
    hide Webp.Rewrite, Webp.Extract, Webp.Parse;
    Webp.EmbedRoundTrip(bytes, xmp, width, height);
    Webp.RewriteMeaning(Webp.Parse(bytes).value, xmp, width, height);
  }
}
