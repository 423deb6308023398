/**
 * The multipart/form-data body of the image upload.
 *
 * `CreateMultipartFormData` is the body exactly as `createMultipartFormData`
 * assembles it: four UTF-8 text segments with the image bytes between the
 * third and the fourth. `Encode` is an independent reference encoder for a
 * list of parts, following the delimiter syntax of section 5.1.1 of RFC 2046
 * and the part headers of section 4.2 of RFC 7578; `MatchesReference` proves
 * the hand-written body is the reference encoding of the three form fields.
 */
module Multipart {
  import opened Wrappers
  import opened Text

  /** One form field: name, optional file name, optional media type, raw content. */
  datatype Part = Part(name: string, filename: Option<string>, contentType: Option<string>, content: seq<byte>)

  // ---------------------------------------------------------------------
  // Literal text of the body
  // ---------------------------------------------------------------------

  const CRLF: string := "\r\n"
  const Dashes: string := "--"
  const Quote: string := "\""
  const DispositionPrefix: string := "Content-Disposition: form-data; name=\""
  const FilenameParam: string := "; filename=\""
  const ContentTypePrefix: string := "Content-Type: "

  // ---------------------------------------------------------------------
  // Reference encoder
  // ---------------------------------------------------------------------

  /**
   * The line that opens every part: the dash-boundary (`"--" boundary`) of
   * RFC 2046 followed by CRLF. For the parts after the first, the CRLF that
   * RFC 2046 places at the front of each delimiter is the one `EncodePart`
   * appends after the previous part's content.
   */
  function OpenLine(boundary: string): string {
    Dashes + boundary + CRLF
  }

  /**
   * The line that ends the body: the close-delimiter of RFC 2046 without its
   * leading CRLF (which again ends the last part in `EncodePart`), followed by
   * a CRLF of its own, as the upload body writes it.
   */
  function CloseLine(boundary: string): string {
    Dashes + boundary + Dashes + CRLF
  }

  /** The part's header lines, each ended by CRLF. */
  function PartHeaders(p: Part): string {
    DispositionPrefix + p.name + Quote
    + (if p.filename.Some? then FilenameParam + p.filename.value + Quote else "")
    + CRLF
    + (if p.contentType.Some? then ContentTypePrefix + p.contentType.value + CRLF else "")
  }

  /** Delimiter line, headers and the blank line that ends them. */
  function PartHead(boundary: string, p: Part): string {
    OpenLine(boundary) + PartHeaders(p) + "\r\n"
  }

  /** One encapsulated part: head, content, and the CRLF that precedes the next delimiter. */
  function EncodePart(boundary: string, p: Part): (r: seq<byte>)
    ensures |r| == |Utf8(PartHead(boundary, p))| + |p.content| + 2
  {
    Utf8(PartHead(boundary, p)) + p.content + Utf8(CRLF)
  }

  function EncodeParts(boundary: string, parts: seq<Part>): seq<byte>
    decreases |parts|
  {
    if |parts| == 0 then [] else EncodePart(boundary, parts[0]) + EncodeParts(boundary, parts[1..])
  }

  /** A complete multipart body: the parts in order, then the close-delimiter. */
  function Encode(boundary: string, parts: seq<Part>): seq<byte> {
    EncodeParts(boundary, parts) + Utf8(CloseLine(boundary))
  }

  /** Every body with at least one part opens with a dash-boundary line and ends with the close-delimiter. */
  lemma EncodeFraming(boundary: string, parts: seq<Part>)
    requires |parts| > 0
    ensures IsPrefix(Utf8(OpenLine(boundary)), Encode(boundary, parts))
    ensures IsSuffix(Utf8(CloseLine(boundary)), Encode(boundary, parts))
  {
    var p := parts[0];
    Utf8Append(OpenLine(boundary), PartHeaders(p) + CRLF);
    assert PartHead(boundary, p) == OpenLine(boundary) + (PartHeaders(p) + CRLF);
    var open := Utf8(OpenLine(boundary));
    var rest := Utf8(PartHeaders(p) + CRLF) + p.content + Utf8(CRLF) + EncodeParts(boundary, parts[1..]);
    assert EncodeParts(boundary, parts) == open + rest;
    var body := Encode(boundary, parts);
    assert body == open + (rest + Utf8(CloseLine(boundary)));
  }

  // ---------------------------------------------------------------------
  // The body as the upload code writes it
  // ---------------------------------------------------------------------

  const FileName: string := "image.jpg"
  const FileType: string := "image/jpeg"

  /** The three form fields, in the order the body carries them. */
  function FormParts(appId: string, original: string, image: seq<byte>): seq<Part> {
    [AppIdPart(appId), OriginalPart(original), FilePart(image)]
  }

  // Each segment is the interpolated literal of the source, cut at its
  // interpolations and line breaks.

  function AppIdSegment(boundary: string, appId: string): string {
    Dashes + boundary + CRLF + DispositionPrefix + "appid" + Quote + CRLF + CRLF + appId + CRLF
  }

  function OriginalSegment(boundary: string, original: string): string {
    Dashes + boundary + CRLF + DispositionPrefix + "original" + Quote + CRLF + CRLF + original + CRLF
  }

  function FileHeaderSegment(boundary: string): string {
    Dashes + boundary + CRLF + DispositionPrefix + "file" + Quote + FilenameParam + FileName + Quote + CRLF
    + ContentTypePrefix + FileType + CRLF + CRLF
  }

  function ClosingSegment(boundary: string): string {
    CRLF + Dashes + boundary + Dashes + CRLF
  }

  /** Byte length of everything in front of the image. */
  function ImageOffset(boundary: string, appId: string, original: string): nat {
    |Utf8(AppIdSegment(boundary, appId))| + |Utf8(OriginalSegment(boundary, original))|
    + |Utf8(FileHeaderSegment(boundary))|
  }

  /**
   * `createMultipartFormData(imageURL:boundary:)`. `original` is the discovery
   * endpoint (`uploadURL!.absoluteString`) and `image` the PNG bytes of the
   * edited image; `imageUrl` is accepted, as in the source, and not used.
   */
  function CreateMultipartFormData(imageUrl: string, boundary: string, appId: string,
                                   original: string, image: seq<byte>): (body: seq<byte>)
    ensures |body| == ImageOffset(boundary, appId, original) + |image| + |Utf8(ClosingSegment(boundary))|
    ensures body[ImageOffset(boundary, appId, original)..][..|image|] == image
    ensures body[ImageOffset(boundary, appId, original) + |image|..] == Utf8(ClosingSegment(boundary))
  {
    var head := Utf8(AppIdSegment(boundary, appId)) + Utf8(OriginalSegment(boundary, original))
                + Utf8(FileHeaderSegment(boundary));
    var body := head + image + Utf8(ClosingSegment(boundary));
    assert body[|head|..][..|image|] == image;
    body
  }

  function AppIdPart(appId: string): Part {
    Part("appid", None, None, Utf8(appId))
  }

  function OriginalPart(original: string): Part {
    Part("original", None, None, Utf8(original))
  }

  function FilePart(image: seq<byte>): Part {
    Part("file", Some(FileName), Some(FileType), image)
  }

  /** The appid segment is the encapsulation of the appid field. */
  lemma AppIdSegmentIsPart(boundary: string, appId: string)
    ensures Utf8(AppIdSegment(boundary, appId)) == EncodePart(boundary, AppIdPart(appId))
  {
    var h := PartHead(boundary, AppIdPart(appId));
    assert PartHeaders(AppIdPart(appId)) == DispositionPrefix + "appid" + Quote + CRLF;
    assert AppIdSegment(boundary, appId) == h + appId + CRLF;
    Utf8Append(h + appId, CRLF);
    Utf8Append(h, appId);
  }

  /** The original segment is the encapsulation of the original field. */
  lemma OriginalSegmentIsPart(boundary: string, original: string)
    ensures Utf8(OriginalSegment(boundary, original)) == EncodePart(boundary, OriginalPart(original))
  {
    var h := PartHead(boundary, OriginalPart(original));
    assert PartHeaders(OriginalPart(original)) == DispositionPrefix + "original" + Quote + CRLF;
    assert OriginalSegment(boundary, original) == h + original + CRLF;
    Utf8Append(h + original, CRLF);
    Utf8Append(h, original);
  }

  /** The file header segment is the head of the file field. */
  lemma FileHeaderIsPartHead(boundary: string, image: seq<byte>)
    ensures FileHeaderSegment(boundary) == PartHead(boundary, FilePart(image))
  {
    var p := FilePart(image);
    assert PartHeaders(p) == DispositionPrefix + "file" + Quote + (FilenameParam + FileName + Quote) + CRLF
                             + (ContentTypePrefix + FileType + CRLF);
  }

  /** The closing segment is the CRLF ending the last part followed by the close-delimiter. */
  lemma ClosingIsCrlfAndClose(boundary: string)
    ensures Utf8(ClosingSegment(boundary)) == Utf8(CRLF) + Utf8(CloseLine(boundary))
  {
    assert ClosingSegment(boundary) == CRLF + CloseLine(boundary);
    Utf8Append(CRLF, CloseLine(boundary));
  }

  /** File header, image and closing segment are the file field followed by the close-delimiter. */
  lemma FileSegmentsArePart(boundary: string, image: seq<byte>)
    ensures Utf8(FileHeaderSegment(boundary)) + image + Utf8(ClosingSegment(boundary))
         == EncodePart(boundary, FilePart(image)) + Utf8(CloseLine(boundary))
  {
    FileHeaderIsPartHead(boundary, image);
    ClosingIsCrlfAndClose(boundary);
  }

  /** A three-part body, written out. */
  lemma EncodeThree(boundary: string, p0: Part, p1: Part, p2: Part)
    ensures Encode(boundary, [p0, p1, p2])
         == EncodePart(boundary, p0) + EncodePart(boundary, p1)
            + (EncodePart(boundary, p2) + Utf8(CloseLine(boundary)))
  {
    var parts := [p0, p1, p2];
    var rest1 := parts[1..];
    var rest2 := rest1[1..];
    assert rest2[1..] == [];
    assert EncodeParts(boundary, rest2) == EncodePart(boundary, p2);
    assert EncodeParts(boundary, rest1) == EncodePart(boundary, p1) + EncodeParts(boundary, rest2);
  }

  /** The body as its three field encodings. */
  lemma BodySegments(imageUrl: string, boundary: string, appId: string, original: string, image: seq<byte>)
    ensures CreateMultipartFormData(imageUrl, boundary, appId, original, image)
         == Utf8(AppIdSegment(boundary, appId)) + Utf8(OriginalSegment(boundary, original))
            + (Utf8(FileHeaderSegment(boundary)) + image + Utf8(ClosingSegment(boundary)))
  {
  }

  /** The body is the reference encoding of the appid, original and file fields, in that order. */
  lemma MatchesReference(imageUrl: string, boundary: string, appId: string, original: string, image: seq<byte>)
    ensures CreateMultipartFormData(imageUrl, boundary, appId, original, image)
         == Encode(boundary, FormParts(appId, original, image))
  {
    BodySegments(imageUrl, boundary, appId, original, image);
    EncodeThree(boundary, AppIdPart(appId), OriginalPart(original), FilePart(image));
    AppIdSegmentIsPart(boundary, appId);
    OriginalSegmentIsPart(boundary, original);
    FileSegmentsArePart(boundary, image);
  }

  /** The body opens with the first dash-boundary line and ends with the close-delimiter. */
  lemma BodyFraming(imageUrl: string, boundary: string, appId: string, original: string, image: seq<byte>)
    ensures IsPrefix(Utf8(OpenLine(boundary)), CreateMultipartFormData(imageUrl, boundary, appId, original, image))
    ensures IsSuffix(Utf8(CloseLine(boundary)), CreateMultipartFormData(imageUrl, boundary, appId, original, image))
  {
    MatchesReference(imageUrl, boundary, appId, original, image);
    EncodeFraming(boundary, FormParts(appId, original, image));
  }

  /** The file part's headers are complete (end with a blank line) right where the image begins. */
  lemma ImageFollowsBlankLine(imageUrl: string, boundary: string, appId: string, original: string, image: seq<byte>)
    ensures var body := CreateMultipartFormData(imageUrl, boundary, appId, original, image);
            var off := ImageOffset(boundary, appId, original);
            4 <= off && body[off - 4..off] == [13, 10, 13, 10]
  {
    Utf8Ascii(CRLF);
    var x := Dashes + boundary + CRLF + DispositionPrefix + "file" + Quote + FilenameParam + FileName + Quote + CRLF
             + ContentTypePrefix + FileType;
    var s3 := FileHeaderSegment(boundary);
    assert s3 == x + CRLF + CRLF;
    Utf8Append(x + CRLF, CRLF);
    Utf8Append(x, CRLF);
    var body := CreateMultipartFormData(imageUrl, boundary, appId, original, image);
    var front := Utf8(AppIdSegment(boundary, appId)) + Utf8(OriginalSegment(boundary, original)) + Utf8(x);
    var head := front + [13, 10, 13, 10];
    assert Utf8(s3) == Utf8(x) + [13, 10] + [13, 10];
    assert body == head + image + Utf8(ClosingSegment(boundary));
    var off := ImageOffset(boundary, appId, original);
    assert off == |head|;
    assert body[off - 4..off] == head[|front|..];
  }

  /** Byte count of a concatenation. */
  lemma Utf8Length(a: string, b: string)
    ensures |Utf8(a + b)| == |Utf8(a)| + |Utf8(b)|
  {
    Utf8Append(a, b);
  }

  lemma ShortLiteralLengths()
    ensures |Utf8(CRLF)| == 2 && |Utf8(Dashes)| == 2 && |Utf8(Quote)| == 1
  {
    Utf8Ascii(CRLF); Utf8Ascii(Dashes); Utf8Ascii(Quote);
  }

  lemma DispositionLength()
    ensures |Utf8(DispositionPrefix)| == 38
  {
    Utf8Ascii(DispositionPrefix);
  }

  lemma FilenameParamLength()
    ensures |Utf8(FilenameParam)| == 12
  {
    Utf8Ascii(FilenameParam);
  }

  lemma ContentTypePrefixLength()
    ensures |Utf8(ContentTypePrefix)| == 14
  {
    Utf8Ascii(ContentTypePrefix);
  }

  lemma FileNameLength()
    ensures |Utf8(FileName)| == 9
  {
    Utf8Ascii(FileName);
  }

  lemma FileTypeLength()
    ensures |Utf8(FileType)| == 10
  {
    Utf8Ascii(FileType);
  }

  lemma FieldNameLength(name: string)
    requires name == "appid" || name == "original" || name == "file"
    ensures |Utf8(name)| == |name|
  {
    Utf8Ascii(name);
  }

  /** Bytes of the opening of every part, up to the field name. */
  lemma OpeningLength(boundary: string)
    ensures |Utf8(Dashes + boundary + CRLF + DispositionPrefix)| == 42 + |Utf8(boundary)|
  {
    ShortLiteralLengths();
    DispositionLength();
    Utf8Length(Dashes + boundary + CRLF, DispositionPrefix);
    Utf8Length(Dashes + boundary, CRLF);
    Utf8Length(Dashes, boundary);
  }

  /** A text field's segment: opening, name, closing quote, blank line, value, CRLF. */
  lemma TextSegmentLength(boundary: string, name: string, value: string)
    ensures |Utf8(Dashes + boundary + CRLF + DispositionPrefix + name + Quote + CRLF + CRLF + value + CRLF)|
         == 49 + |Utf8(boundary)| + |Utf8(name)| + |Utf8(value)|
  {
    var open := Dashes + boundary + CRLF + DispositionPrefix;
    OpeningLength(boundary);
    ShortLiteralLengths();
    Utf8Length(open + name + Quote + CRLF + CRLF + value, CRLF);
    Utf8Length(open + name + Quote + CRLF + CRLF, value);
    Utf8Length(open + name + Quote + CRLF, CRLF);
    Utf8Length(open + name + Quote, CRLF);
    Utf8Length(open + name, Quote);
    Utf8Length(open, name);
  }

  lemma FileHeaderLength(boundary: string)
    ensures |Utf8(FileHeaderSegment(boundary))| == 99 + |Utf8(boundary)|
  {
    var open := Dashes + boundary + CRLF + DispositionPrefix;
    OpeningLength(boundary);
    ShortLiteralLengths();
    FilenameParamLength(); ContentTypePrefixLength(); FileNameLength(); FileTypeLength();
    FieldNameLength("file");
    var f := open + "file" + Quote + FilenameParam + FileName + Quote + CRLF + ContentTypePrefix + FileType;
    assert FileHeaderSegment(boundary) == f + CRLF + CRLF;
    Utf8Length(f + CRLF, CRLF);
    Utf8Length(f, CRLF);
    Utf8Length(open + "file" + Quote + FilenameParam + FileName + Quote + CRLF + ContentTypePrefix, FileType);
    Utf8Length(open + "file" + Quote + FilenameParam + FileName + Quote + CRLF, ContentTypePrefix);
    Utf8Length(open + "file" + Quote + FilenameParam + FileName + Quote, CRLF);
    Utf8Length(open + "file" + Quote + FilenameParam + FileName, Quote);
    Utf8Length(open + "file" + Quote + FilenameParam, FileName);
    Utf8Length(open + "file" + Quote, FilenameParam);
    Utf8Length(open + "file", Quote);
    Utf8Length(open, "file");
  }

  lemma ClosingLength(boundary: string)
    ensures |Utf8(ClosingSegment(boundary))| == 8 + |Utf8(boundary)|
  {
    ShortLiteralLengths();
    Utf8Length(CRLF + Dashes + boundary + Dashes, CRLF);
    Utf8Length(CRLF + Dashes + boundary, Dashes);
    Utf8Length(CRLF + Dashes, boundary);
    Utf8Length(CRLF, Dashes);
  }

  /**
   * The body's length is a fixed 218 bytes of literal text, the boundary four
   * times, the appid and original values, and the image.
   */
  lemma BodyLength(imageUrl: string, boundary: string, appId: string, original: string, image: seq<byte>)
    ensures |CreateMultipartFormData(imageUrl, boundary, appId, original, image)|
         == 218 + 4 * |Utf8(boundary)| + |Utf8(appId)| + |Utf8(original)| + |image|
  {
    FieldNameLength("appid");
    FieldNameLength("original");
    TextSegmentLength(boundary, "appid", appId);
    TextSegmentLength(boundary, "original", original);
    FileHeaderLength(boundary);
    ClosingLength(boundary);
  }

  /** The body is the same whatever image URL is passed. */
  lemma IgnoresImageUrl(u1: string, u2: string, boundary: string, appId: string, original: string, image: seq<byte>)
    ensures CreateMultipartFormData(u1, boundary, appId, original, image)
         == CreateMultipartFormData(u2, boundary, appId, original, image)
  {
  }

  // ---------------------------------------------------------------------
  // The Content-Type header of the request
  // ---------------------------------------------------------------------

  const MediaTypePrefix: string := "multipart/form-data; boundary="

  /** The value of the request's Content-Type header for a boundary. */
  function ContentTypeHeader(boundary: string): (h: string)
    ensures IsPrefix(MediaTypePrefix, h) && h[|MediaTypePrefix|..] == boundary
  {
    MediaTypePrefix + boundary
  }

  /** Reads the boundary parameter back out of a Content-Type value of that shape. */
  function BoundaryParam(header: string): (r: Option<string>)
    ensures r.Some? <==> IsPrefix(MediaTypePrefix, header)
    ensures r.Some? ==> header == MediaTypePrefix + r.value
  {
    if IsPrefix(MediaTypePrefix, header) then Some(header[|MediaTypePrefix|..]) else None
  }

  /** The header announces exactly the boundary it was built from. */
  lemma BoundaryParamOfHeader(boundary: string)
    ensures BoundaryParam(ContentTypeHeader(boundary)) == Some(boundary)
  {
    assert ContentTypeHeader(boundary)[..|MediaTypePrefix|] == MediaTypePrefix;
  }
}
