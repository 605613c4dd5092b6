/**
 The conversation format: how images leave the messages for content-named files
 when a conversation is written, and how they come back when it is read.
 */
module Conversation {
  import opened Outcomes
  import opened Strings
  import Base64

  // JSON values; a float is a finite double, by its bits.
  datatype Json =
    | Null
    | Bool(b: bool)
    | Number(n: int)
    | Float(bits: nat)
    | Str(s: string)
    | Arr(items: seq<Json>)
    | Obj(fields: map<string, Json>)

  datatype Reason =
    | InvalidConversation
    | MissingId
    | ImageTooLarge
    | ThreadTooLarge
    | WriteFailed
    | NotAConversation
    | NewerFormat
    | BadAttachment
    | IdMismatch
    | NoConversationFile

  // A SHA-256 digest in lower-case hexadecimal.
  type Digest = s: string | |s| == 64 && forall c :: c in s ==> IsHex(c)
    witness seq(64, _ => '0')

  predicate IsHex(c: char) { IsDigit(c) || 'a' <= c <= 'f' }

  /**
   What the store takes from libraries: SHA-256 of a byte string and of a text,
   and the JSON printer and parser.
   */
  datatype World = World(
    imageHash: Bytes -> Digest,
    textHash: string -> Digest,
    printJson: Json -> Bytes,
    parseJson: Bytes -> Option<Json>
  )

  // Printed JSON parses back; nothing else is assumed of the parser.
  ghost predicate Lawful(w: World) {
    forall j :: w.parseJson(w.printJson(j)) == Some(j)
  }

  // -------------------------------------------------------------- data URLs

  datatype DataUrl = DataUrl(mediaType: string, bytes: Bytes)

  predicate ValidMediaType(value: string) {
    match StripPrefix(value, "image/")
    case None => false
    case Some(subtype) =>
      1 <= |subtype| <= 64 && forall c :: c in subtype ==> IsAlnum(c) || c in ".+-"
  }

  /** The decoder of the source: length first, so nothing oversized is decoded. */
  function DecodeDataUrl(value: string, max: nat): Result<Option<DataUrl>, Reason> {
    match SplitUrl(value)
    case None => Ok(None)
    case Some((mediaType, payload)) =>
      if !ValidMediaType(Lower(mediaType)) then Ok(None)
      else match Base64.EncodedPayloadLen(payload)
        case None => Ok(None)
        case Some(length) =>
          if length > max then Err(ImageTooLarge)
          else match Base64.Decode(payload)
            case None => Ok(None)
            case Some(bytes) =>
              if |bytes| > max then Err(ImageTooLarge)
              else if bytes == [] then Ok(None)
              else Ok(Some(DataUrl(Lower(mediaType), bytes)))
  }

  function SplitUrl(value: string): Option<(string, string)> {
    match StripPrefix(value, "data:")
    case None => None
    case Some(rest) => SplitOnce(rest, ";base64,")
  }

  function UrlText(mediaType: string, payload: string): string {
    "data:" + (mediaType + ";base64," + payload)
  }

  function EncodeDataUrl(d: DataUrl): string {
    UrlText(d.mediaType, Base64.Encode(d.bytes))
  }

  /** The image a data URL stands for, whatever its size. */
  function UrlImage(value: string): Option<DataUrl> {
    match SplitUrl(value)
    case None => None
    case Some((mediaType, payload)) =>
      if !ValidMediaType(Lower(mediaType)) then None
      else match Base64.Decode(payload)
        case None => None
        case Some(bytes) => if bytes == [] then None else Some(DataUrl(Lower(mediaType), bytes))
  }

  /**
   The size limit rejects exactly the well-formed images above it; a malformed
   URL is never an error, and an accepted one is what it stands for.
   */
  lemma DecodeIsBounded(value: string, max: nat)
    ensures DecodeDataUrl(value, max) ==
            if UrlImage(value).Some? && |UrlImage(value).value.bytes| > max then Err(ImageTooLarge)
            else Ok(UrlImage(value))
  {
    if SplitUrl(value).Some? {
      Base64.OracleAgreesWithDecoder(SplitUrl(value).value.1);
    }
  }

  lemma {:induction false} LowerIsIdempotent(s: string)
    ensures Lower(Lower(s)) == Lower(s)
  {
  }

  lemma MediaTypeHasNoSemicolon(m: string)
    requires ValidMediaType(m)
    ensures ';' !in m
  {
    assert m == "image/" + m[6..];
  }

  lemma SplitEncodedUrl(d: DataUrl)
    requires ValidMediaType(d.mediaType)
    ensures SplitUrl(EncodeDataUrl(d)) == Some((d.mediaType, Base64.Encode(d.bytes)))
  {
    assert EncodeDataUrl(d)[5..] == d.mediaType + ";base64," + Base64.Encode(d.bytes);
    MediaTypeHasNoSemicolon(d.mediaType);
    SplitOnceAt(d.mediaType, ";base64,", Base64.Encode(d.bytes));
  }

  /** An image that a URL stands for is what its canonical URL stands for. */
  lemma UrlRoundTrip(value: string)
    requires UrlImage(value).Some?
    ensures UrlImage(EncodeDataUrl(UrlImage(value).value)) == UrlImage(value)
    ensures ValidMediaType(UrlImage(value).value.mediaType)
  {
    var d := UrlImage(value).value;
    var (m, p) := SplitUrl(value).value;
    SplitEncodedUrl(d);
    LowerIsIdempotent(m);
    Base64.DecodeEncode(d.bytes);
  }

  /** The canonical URL differs from the given one only in media type case. */
  lemma CanonicalUrl(value: string)
    requires UrlImage(value).Some?
    ensures var (m, p) := SplitUrl(value).value;
            value == UrlText(m, p)
            && EncodeDataUrl(UrlImage(value).value) == UrlText(Lower(m), p)
  {
    var (m, p) := SplitUrl(value).value;
    Base64.EncodeDecode(p);
    var rest := StripPrefix(value, "data:").value;
    assert rest == m + ";base64," + p;
    assert value == "data:" + rest;
  }

  // ------------------------------------------------------------ what URLs say

  // "image/", then up to 64 letters, digits, dots, plus signs and dashes.
  ghost predicate IsMediaType(value: string) {
    exists subtype :: value == "image/" + subtype && 1 <= |subtype| <= 64
      && forall i :: 0 <= i < |subtype| ==>
           'a' <= subtype[i] <= 'z' || 'A' <= subtype[i] <= 'Z' || '0' <= subtype[i] <= '9' || subtype[i] in ".+-"
  }

  lemma MediaTypeIsRead(value: string)
    ensures ValidMediaType(value) <==> IsMediaType(value)
  {
    if ValidMediaType(value) {
      var subtype := value[6..];
      assert value == "image/" + subtype;
      forall i | 0 <= i < |subtype|
        ensures 'a' <= subtype[i] <= 'z' || 'A' <= subtype[i] <= 'Z' || '0' <= subtype[i] <= '9' || subtype[i] in ".+-"
      {
        assert subtype[i] in subtype;
      }
    }
    if IsMediaType(value) {
      var subtype :| value == "image/" + subtype && 1 <= |subtype| <= 64
        && forall i :: 0 <= i < |subtype| ==>
             'a' <= subtype[i] <= 'z' || 'A' <= subtype[i] <= 'Z' || '0' <= subtype[i] <= '9' || subtype[i] in ".+-";
      assert value[6..] == subtype;
    }
  }

  /** A text as a data URL for an image: the canonical payload of its bytes, any case of its type. */
  ghost predicate IsUrlOf(value: string, d: DataUrl) {
    d.bytes != []
    && exists mediaType ::
         IsMediaType(Lower(mediaType)) && d.mediaType == Lower(mediaType)
         && value == "data:" + mediaType + ";base64," + Base64.Encode(d.bytes)
  }

  lemma {:induction false} LowerHoldsSemicolon(s: string)
    ensures ';' in s <==> ';' in Lower(s)
  {
    if i :| 0 <= i < |s| && s[i] == ';' {
      assert Lower(s)[i] == ';';
    }
    if i :| 0 <= i < |s| && Lower(s)[i] == ';' {
      assert s[i] == ';';
    }
  }

  lemma {:induction false} UrlSplits(mediaType: string, payload: string)
    requires ';' !in mediaType
    ensures SplitUrl("data:" + mediaType + ";base64," + payload) == Some((mediaType, payload))
  {
    var value, rest := "data:" + mediaType + ";base64," + payload, mediaType + ";base64," + payload;
    assert value == "data:" + rest;
    assert value[5..] == rest;
    SplitOnceAt(mediaType, ";base64,", payload);
    hide SplitOnce;
  }

  lemma {:induction false} SplitJoins(value: string)
    requires SplitUrl(value).Some?
    ensures value == "data:" + SplitUrl(value).value.0 + ";base64," + SplitUrl(value).value.1
  {
    hide SplitOnce;
    var (m, p) := SplitUrl(value).value;
    assert value[5..] == m + ";base64," + p;
    assert value == "data:" + value[5..];
  }

  lemma {:induction false} UrlIsImage(value: string, mediaType: string, bytes: Bytes)
    requires IsMediaType(Lower(mediaType)) && bytes != []
    requires value == "data:" + mediaType + ";base64," + Base64.Encode(bytes)
    ensures UrlImage(value) == Some(DataUrl(Lower(mediaType), bytes))
  {
    MediaTypeIsRead(Lower(mediaType));
    MediaTypeHasNoSemicolon(Lower(mediaType));
    LowerHoldsSemicolon(mediaType);
    UrlSplits(mediaType, Base64.Encode(bytes));
    Base64.DecodeEncode(bytes);
    hide *;
    ImageOfSplit(value);
  }

  // Which split texts are images.
  lemma ImageOfSplit(value: string)
    requires SplitUrl(value).Some?
    ensures var (m, p) := SplitUrl(value).value;
            if ValidMediaType(Lower(m)) && Base64.Decode(p).Some? && Base64.Decode(p).value != []
            then UrlImage(value) == Some(DataUrl(Lower(m), Base64.Decode(p).value))
            else UrlImage(value) == None
  {
    hide SplitUrl, ValidMediaType, Lower, Base64.Decode;
  }

  /** A text stands for an image exactly when it is one of its data URLs. */
  lemma {:induction false} UrlIsRead(value: string, d: DataUrl)
    ensures UrlImage(value) == Some(d) <==> IsUrlOf(value, d)
  {
    hide ValidMediaType, IsMediaType, SplitUrl, Lower, Base64.Decode, Base64.Encode;
    if IsUrlOf(value, d) {
      var m :| IsMediaType(Lower(m)) && d.mediaType == Lower(m)
        && value == "data:" + m + ";base64," + Base64.Encode(d.bytes);
      UrlIsImage(value, m, d.bytes);
    }
    if UrlImage(value) == Some(d) {
      var (m, p) := SplitUrl(value).value;
      MediaTypeIsRead(Lower(m));
      Base64.EncodeDecode(p);
      SplitJoins(value);
    }
  }

  /** The extension of an image's file names its type; types without one of their own share "bin". */
  lemma ExtensionIsListed(mediaType: string)
    ensures match Extension(mediaType)
            case "png" => mediaType == "image/png"
            case "jpg" => mediaType == "image/jpeg" || mediaType == "image/jpg"
            case "gif" => mediaType == "image/gif"
            case "webp" => mediaType == "image/webp"
            case "bmp" => mediaType == "image/bmp"
            case "avif" => mediaType == "image/avif"
            case "svg" => mediaType == "image/svg+xml"
            case other =>
              other == "bin"
              && mediaType !in {"image/png", "image/jpeg", "image/jpg", "image/gif", "image/webp", "image/bmp",
                                "image/avif", "image/svg+xml"}
  {
  }

  // ------------------------------------------------------- attachment names

  function Extension(mediaType: string): (e: string)
    ensures 1 <= |e| <= 8 && forall c :: c in e ==> IsLowerAlnum(c)
  {
    if mediaType == "image/png" then "png"
    else if mediaType == "image/jpeg" || mediaType == "image/jpg" then "jpg"
    else if mediaType == "image/gif" then "gif"
    else if mediaType == "image/webp" then "webp"
    else if mediaType == "image/bmp" then "bmp"
    else if mediaType == "image/avif" then "avif"
    else if mediaType == "image/svg+xml" then "svg"
    else "bin"
  }

  function FileName(w: World, d: DataUrl): string {
    w.imageHash(d.bytes) + "." + Extension(d.mediaType)
  }

  /** The only stored names that are followed: attachments/<sha256>.<extension>. */
  function AttachmentName(file: string): Option<string> {
    match StripPrefix(file, "attachments/")
    case None => None
    case Some(name) =>
      match SplitOnce(name, ".")
      case None => None
      case Some((hash, extension)) =>
        if |hash| == 64 && (forall c :: c in hash ==> IsHex(c))
           && 1 <= |extension| <= 8 && (forall c :: c in extension ==> IsLowerAlnum(c))
        then Some(name)
        else None
  }

  lemma WrittenNamesAreFollowed(w: World, d: DataUrl)
    ensures AttachmentName("attachments/" + FileName(w, d)) == Some(FileName(w, d))
  {
    var hash, extension := w.imageHash(d.bytes), Extension(d.mediaType);
    var file := "attachments/" + FileName(w, d);
    assert file[12..] == FileName(w, d);
    SplitOnceAt(hash, ".", extension);
  }

  /** Two images share a file only if their digests and extensions agree. */
  lemma SameFileSameDigest(w: World, d: DataUrl, e: DataUrl)
    requires FileName(w, d) == FileName(w, e)
    ensures w.imageHash(d.bytes) == w.imageHash(e.bytes)
  {
    assert FileName(w, d)[..64] == w.imageHash(d.bytes);
    assert FileName(w, e)[..64] == w.imageHash(e.bytes);
  }

  /** A followed name starts with a hexadecimal digit and has no separator. */
  lemma FollowedNamesStayInside(file: string)
    requires AttachmentName(file).Some?
    ensures var name := AttachmentName(file).value;
            |name| >= 66 && IsHex(name[0]) && '/' !in name && '\\' !in name
  {
    var name := AttachmentName(file).value;
    var (hash, extension) := SplitOnce(name, ".").value;
    assert name == hash + "." + extension;
    assert name[0] == hash[0];
  }

  // ------------------------------------------------- one image, out and back

  /** The image an entry of a message's image list will be stored as. */
  function ImageOf(image: Json): Option<DataUrl> {
    if image.Obj? && "dataUrl" in image.fields && image.fields["dataUrl"].Str?
    then UrlImage(image.fields["dataUrl"].s)
    else None
  }

  function StoredImage(w: World, image: Json): Json {
    match ImageOf(image)
    case None => image
    case Some(d) =>
      Obj((image.fields - {"dataUrl"})
          ["file" := Str("attachments/" + FileName(w, d))]
          ["mediaType" := Str(d.mediaType)])
  }

  // A folder's attachment files.
  type Attachments = map<string, Bytes>

  const MAX_IMAGE_BYTES: nat := 64 * 1024 * 1024
  const MAX_THREAD_BYTES: nat := 256 * 1024 * 1024

  function RestoredImage(files: Attachments, image: Json): Result<Json, Reason> {
    if !image.Obj? || "file" !in image.fields then Ok(image)
    else if !image.fields["file"].Str? then Err(BadAttachment)
    else match AttachmentName(image.fields["file"].s)
      case None => Err(BadAttachment)
      case Some(name) =>
        if "mediaType" !in image.fields || !image.fields["mediaType"].Str?
           || !ValidMediaType(image.fields["mediaType"].s)
           || name !in files || |files[name]| > MAX_IMAGE_BYTES
        then Err(BadAttachment)
        else
          var url := EncodeDataUrl(DataUrl(image.fields["mediaType"].s, files[name]));
          Ok(Obj((image.fields - {"file", "mediaType"})["dataUrl" := Str(url)]))
  }

  /** The image with its URL in canonical form: the media type in lower case. */
  function CanonicalImage(image: Json): Json {
    match ImageOf(image)
    case None => image
    case Some(d) => Obj(image.fields["dataUrl" := Str(EncodeDataUrl(d))])
  }

  /**
   The images the format can carry: none names a file of its own, and one that
   is moved to a file has no media type of its own.
   */
  predicate Carried(image: Json) {
    image.Obj? ==>
      "file" !in image.fields && (ImageOf(image).Some? ==> "mediaType" !in image.fields)
  }

  lemma MoveFields<V>(fields: map<string, V>, url: string, file: string, kind: string, u: V, v: V, x: V)
    requires url != file && url != kind && file != kind
    ensures var stored := (fields - {url})[file := v][kind := x];
            (stored - {file, kind})[url := u] == (fields - {file, kind})[url := u]
  {
  }

  /** What a stored image reads back as, whatever its other fields. */
  lemma StoredImageRestores(w: World, files: Attachments, image: Json)
    requires ImageOf(image).Some?
    requires var d := ImageOf(image).value;
             FileName(w, d) in files && files[FileName(w, d)] == d.bytes
             && |d.bytes| <= MAX_IMAGE_BYTES
    ensures RestoredImage(files, StoredImage(w, image)) ==
            Ok(Obj((image.fields - {"file", "mediaType"})
                   ["dataUrl" := Str(EncodeDataUrl(ImageOf(image).value))]))
  {
    var d := ImageOf(image).value;
    var file := "attachments/" + FileName(w, d);
    var stored := StoredImage(w, image).fields;
    assert ValidMediaType(d.mediaType) by { UrlRoundTrip(image.fields["dataUrl"].s); }
    assert AttachmentName(file) == Some(FileName(w, d)) by { WrittenNamesAreFollowed(w, d); }
    assert stored["mediaType"] == Str(d.mediaType) && stored["file"] == Str(file);
    var url := Str(EncodeDataUrl(d));
    MoveFields(image.fields, "dataUrl", "file", "mediaType", url, Str(file), Str(d.mediaType));
    assert d == DataUrl(d.mediaType, files[FileName(w, d)]);
  }

  lemma RestoringDropsFile(files: Attachments, image: Json)
    requires image.Obj? && "file" in image.fields && RestoredImage(files, image).Ok?
    ensures var back := RestoredImage(files, image).value;
            back.Obj? && "file" !in back.fields
  {
  }

  /**
   Storing an image and reading it back is the identity, up to the case of the
   media type, exactly for the images the format can carry.
   */
  lemma ImageRoundTrip(w: World, files: Attachments, image: Json)
    requires ImageOf(image).Some? ==>
               var d := ImageOf(image).value;
               FileName(w, d) in files && files[FileName(w, d)] == d.bytes
               && |d.bytes| <= MAX_IMAGE_BYTES
    ensures RestoredImage(files, StoredImage(w, image)) == Ok(CanonicalImage(image))
            <==> Carried(image)
  {
    if ImageOf(image).Some? {
      StoredImageRestores(w, files, image);
      MovedImageRoundTrip(image.fields, Str(EncodeDataUrl(ImageOf(image).value)));
    } else if image.Obj? && "file" in image.fields {
      if RestoredImage(files, image).Ok? {
        RestoringDropsFile(files, image);
      }
    }
  }

  lemma MovedImageRoundTrip(fields: map<string, Json>, url: Json)
    ensures (fields - {"file", "mediaType"})["dataUrl" := url] == fields["dataUrl" := url]
            <==> "file" !in fields && "mediaType" !in fields
  {
    var back := (fields - {"file", "mediaType"})["dataUrl" := url];
    assert "file" !in back && "mediaType" !in back;
    if "file" !in fields && "mediaType" !in fields {
      assert fields - {"file", "mediaType"} == fields;
    }
  }
}
