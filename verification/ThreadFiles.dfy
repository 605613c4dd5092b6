/**
 What a conversation's folder reads as, told from the bytes of its files and the
 fields of the JSON in them: an account that does not follow the reader's steps.
 */
module ThreadFiles {
  import opened Outcomes
  import opened Strings
  import Base64
  import opened Conversation
  import opened Threads

  // ------------------------------------------------------------------ images

  predicate IsContentName(hash: string, extension: string) {
    |hash| == 64 && (forall i :: 0 <= i < 64 ==> '0' <= hash[i] <= '9' || 'a' <= hash[i] <= 'f')
    && 1 <= |extension| <= 8
    && forall i :: 0 <= i < |extension| ==> '0' <= extension[i] <= '9' || 'a' <= extension[i] <= 'z'
  }

  // The file an image points to: attachments/<64 hexadecimal digits>.<extension>.
  ghost predicate PointsTo(file: string, name: string) {
    exists hash, extension :: IsContentName(hash, extension)
      && name == hash + "." + extension && file == "attachments/" + name
  }

  // An image with a `file` key, and the inline image its file makes of it.
  ghost predicate ComesFromFile(files: Attachments, image: map<string, Json>, back: Json, name: string) {
    "file" in image && image["file"].Str? && PointsTo(image["file"].s, name)
    && "mediaType" in image && image["mediaType"].Str? && IsMediaType(image["mediaType"].s)
    && name in files && |files[name]| <= 64 * 1024 * 1024
    && back == Obj((image - {"file", "mediaType"})
                   ["dataUrl" := Str("data:" + image["mediaType"].s + ";base64," + Base64.Encode(files[name]))])
  }

  ghost predicate ImageComes(files: Attachments, image: Json, back: Json) {
    if image.Obj? && "file" in image.fields
    then exists name :: ComesFromFile(files, image.fields, back, name)
    else back == image
  }

  lemma {:induction false} NameIsRead(file: string, name: string)
    ensures AttachmentName(file) == Some(name) <==> PointsTo(file, name)
  {
    if PointsTo(file, name) {
      var hash, extension :| IsContentName(hash, extension)
        && name == hash + "." + extension && file == "attachments/" + name;
      assert file[12..] == name && '.' !in hash;
      SplitOnceAt(hash, ".", extension);
    }
    if AttachmentName(file) == Some(name) {
      var (hash, extension) := SplitOnce(name, ".").value;
      assert file == "attachments/" + name && name == hash + "." + extension;
      assert forall i :: 0 <= i < |hash| ==> hash[i] in hash;
      assert forall i :: 0 <= i < |extension| ==> extension[i] in extension;
      assert IsContentName(hash, extension);
    }
  }

  lemma UrlIsJoined(mediaType: string, payload: string)
    ensures UrlText(mediaType, payload) == "data:" + mediaType + ";base64," + payload
  {
  }

  lemma FollowedComes(files: Attachments, image: map<string, Json>, back: Json, name: string)
    requires "file" in image && image["file"].Str? && AttachmentName(image["file"].s) == Some(name)
    ensures RestoredImage(files, Obj(image)) == Ok(back) <==> ComesFromFile(files, image, back, name)
    ensures RestoredImage(files, Obj(image)).Err? ==> RestoredImage(files, Obj(image)) == Err(BadAttachment)
  {
    NameIsRead(image["file"].s, name);
    hide AttachmentName, ValidMediaType, IsMediaType, PointsTo, UrlText, Base64.Encode;
    if "mediaType" in image && image["mediaType"].Str? {
      MediaTypeIsRead(image["mediaType"].s);
      if name in files {
        UrlIsJoined(image["mediaType"].s, Base64.Encode(files[name]));
      }
    }
  }

  lemma ImageIsRead(files: Attachments, image: Json, back: Json)
    ensures RestoredImage(files, image) == Ok(back) <==> ImageComes(files, image, back)
    ensures RestoredImage(files, image).Err? ==> RestoredImage(files, image) == Err(BadAttachment)
  {
    hide AttachmentName, ValidMediaType, IsMediaType, PointsTo, UrlText, EncodeDataUrl;
    if image.Obj? && "file" in image.fields && image.fields["file"].Str? {
      var file := image.fields["file"].s;
      if AttachmentName(file).Some? {
        FollowedComes(files, image.fields, back, AttachmentName(file).value);
      }
      forall name | PointsTo(file, name) ensures AttachmentName(file) == Some(name) {
        NameIsRead(file, name);
      }
    }
  }

  ghost predicate ImagesCome(files: Attachments, images: seq<Json>, back: seq<Json>) {
    |back| == |images| && forall i :: 0 <= i < |images| ==> ImageComes(files, images[i], back[i])
  }

  lemma OneImageMore(files: Attachments, images: seq<Json>, back: seq<Json>)
    requires images != [] && back != []
    ensures ImagesCome(files, images, back) <==>
            ImageComes(files, images[0], back[0]) && ImagesCome(files, images[1..], back[1..])
  {
    hide ImageComes;
    if ImagesCome(files, images[1..], back[1..]) {
      assert forall i :: 0 < i < |images| ==> images[i] == images[1..][i - 1];
      assert forall i :: 0 < i < |back| ==> back[i] == back[1..][i - 1];
    }
  }

  lemma {:induction false} ImagesAreRead(files: Attachments, images: seq<Json>, back: seq<Json>)
    ensures RestoredImages(files, images) == Ok(back) <==> ImagesCome(files, images, back)
    ensures RestoredImages(files, images).Err? ==> RestoredImages(files, images) == Err(BadAttachment)
  {
    hide RestoredImage, ImageComes;
    if images != [] {
      ImageIsRead(files, images[0], if back == [] then Null else back[0]);
      ImagesAreRead(files, images[1..], if back == [] then [] else back[1..]);
      if back != [] {
        OneImageMore(files, images, back);
        hide ImagesCome;
        assert back == [back[0]] + back[1..];
      }
    }
  }

  // ---------------------------------------------------------------- messages

  predicate HasImages(message: Json) {
    message.Obj? && "images" in message.fields && message.fields["images"].Arr?
  }

  // A message's image list comes from its files; everything else stays.
  ghost predicate MessageComes(files: Attachments, message: Json, back: Json) {
    if HasImages(message)
    then HasImages(back) && back.fields == message.fields["images" := back.fields["images"]]
         && ImagesCome(files, message.fields["images"].items, back.fields["images"].items)
    else back == message
  }

  ghost predicate MessagesCome(files: Attachments, messages: seq<Json>, back: seq<Json>) {
    |back| == |messages| && forall i :: 0 <= i < |messages| ==> MessageComes(files, messages[i], back[i])
  }

  lemma MessageIsRead(files: Attachments, message: Json, back: Json)
    ensures RestoredMessage(files, message) == Ok(back) <==> MessageComes(files, message, back)
    ensures RestoredMessage(files, message).Err? ==> RestoredMessage(files, message) == Err(BadAttachment)
  {
    hide RestoredImages, ImagesCome;
    var images := RestoredImages(files, Images(message));
    ImagesAreRead(files, Images(message), if images.Ok? then images.value else []);
    if HasImages(message) {
      if HasImages(back) {
        ImagesAreRead(files, Images(message), back.fields["images"].items);
      }
    } else {
      NoImages(files);
    }
  }

  lemma {:induction false} NoImages(files: Attachments)
    ensures RestoredImages(files, []) == Ok([])
  {
  }

  lemma OneMessageMore(files: Attachments, messages: seq<Json>, back: seq<Json>)
    requires messages != [] && back != []
    ensures MessagesCome(files, messages, back) <==>
            MessageComes(files, messages[0], back[0]) && MessagesCome(files, messages[1..], back[1..])
  {
    hide MessageComes;
    if MessagesCome(files, messages[1..], back[1..]) {
      assert forall i :: 0 < i < |messages| ==> messages[i] == messages[1..][i - 1];
      assert forall i :: 0 < i < |back| ==> back[i] == back[1..][i - 1];
    }
  }

  /** Messages are restored exactly as their files say, or refused. */
  lemma {:induction false} MessagesAreRead(files: Attachments, messages: seq<Json>, back: seq<Json>)
    ensures RestoredMessages(files, messages) == Ok(back) <==> MessagesCome(files, messages, back)
    ensures RestoredMessages(files, messages).Err? ==> RestoredMessages(files, messages) == Err(BadAttachment)
  {
    hide RestoredMessage, MessageComes;
    if messages != [] {
      MessageIsRead(files, messages[0], if back == [] then Null else back[0]);
      MessagesAreRead(files, messages[1..], if back == [] then [] else back[1..]);
      if back != [] {
        OneMessageMore(files, messages, back);
        hide MessagesCome;
        assert back == [back[0]] + back[1..];
      }
    }
  }

  // ------------------------------------------------------------ moved images

  // An image entry whose text is a data URL for some bytes.
  ghost predicate ImageIs(image: Json, d: DataUrl) {
    image.Obj? && "dataUrl" in image.fields && image.fields["dataUrl"].Str?
    && IsUrlOf(image.fields["dataUrl"].s, d)
  }

  ghost predicate ListHolds(images: seq<Json>, d: DataUrl) {
    exists k :: 0 <= k < |images| && ImageIs(images[k], d)
  }

  /** Some message shows an image inline. */
  ghost predicate HoldsImage(messages: seq<Json>, d: DataUrl) {
    exists i :: 0 <= i < |messages| && HasImages(messages[i])
                && ListHolds(messages[i].fields["images"].items, d)
  }

  lemma MovedImageIs(image: Json, d: DataUrl)
    ensures d in MovedImage(image) <==> ImageIs(image, d)
  {
    hide UrlImage, IsUrlOf;
    if image.Obj? && "dataUrl" in image.fields && image.fields["dataUrl"].Str? {
      UrlIsRead(image.fields["dataUrl"].s, d);
    }
  }

  lemma {:induction false} MovedImagesAre(images: seq<Json>, d: DataUrl)
    ensures d in MovedImages(images) <==> ListHolds(images, d)
  {
    hide MovedImage, ImageIs;
    if images != [] {
      var rest := images[1..];
      MovedImageIs(images[0], d);
      MovedImagesAre(rest, d);
      assert forall k :: 0 <= k < |rest| ==> rest[k] == images[k + 1];
      assert forall k :: 0 < k < |images| ==> images[k] == rest[k - 1];
    }
  }

  /** The images that become files are those some message shows inline. */
  lemma {:induction false} MovedAreHeld(messages: seq<Json>, d: DataUrl)
    ensures d in Moved(messages) <==> HoldsImage(messages, d)
  {
    hide MovedImages, ListHolds;
    if messages != [] {
      var rest := messages[1..];
      MovedImagesAre(Images(messages[0]), d);
      NoneHeld(d);
      MovedAreHeld(rest, d);
      assert forall i :: 0 <= i < |rest| ==> rest[i] == messages[i + 1];
      assert forall i :: 0 < i < |messages| ==> messages[i] == rest[i - 1];
    }
  }

  lemma NoneHeld(d: DataUrl)
    ensures !ListHolds([], d)
  {
  }

  // ------------------------------------------------------------ the whole file

  // The object in a folder's thread file, if the file holds one and is not too large.
  function FileFields(w: World, g: Folder): Option<map<string, Json>> {
    if "thread.json" !in g.root || |g.root["thread.json"]| > 256 * 1024 * 1024 then None
    else
      match w.parseJson(g.root["thread.json"])
      case Some(Obj(fields)) => Some(fields)
      case _ => None
  }

  // A text for an id, a list of messages if any, and a 64-bit version number if any.
  predicate HasShape(fields: map<string, Json>) {
    "id" in fields && fields["id"].Str?
    && ("messages" in fields ==> fields["messages"].Arr?)
    && ("version" in fields ==> fields["version"].Number? && 0 <= fields["version"].n < 0x1_0000_0000_0000_0000)
  }

  // The shape of a conversation, in a format after the first.
  predicate OfNewerFormat(fields: map<string, Json>) {
    HasShape(fields) && "version" in fields && fields["version"].n > 1
  }

  predicate OfKnownFormat(fields: map<string, Json>) {
    HasShape(fields) && ("version" in fields ==> fields["version"].n <= 1)
  }

  function Given(fields: map<string, Json>, key: string): Json {
    if key in fields then fields[key] else Null
  }

  // The conversation that an object's fields describe, but for its messages.
  ghost predicate Describes(fields: map<string, Json>, t: Thread) {
    "id" in fields && fields["id"] == Str(t.id)
    && t.version == (if "version" in fields && fields["version"].Number? then fields["version"].n else 0)
    && t.title == Given(fields, "title") && t.systemPrompt == Given(fields, "systemPrompt")
    && t.createdAt == Given(fields, "createdAt") && t.updatedAt == Given(fields, "updatedAt")
    && (forall key :: key in t.rest <==>
          key in fields && key !in {"version", "id", "title", "systemPrompt", "createdAt", "updatedAt", "messages"})
    && forall key :: key in t.rest ==> t.rest[key] == fields[key]
  }

  function MessagesOf(fields: map<string, Json>): seq<Json> {
    if "messages" in fields && fields["messages"].Arr? then fields["messages"].items else []
  }

  /** What a folder reads as. */
  ghost predicate Reads(w: World, g: Folder, r: Result<Option<Thread>, Reason>) {
    if "thread.json" !in g.root then r == Ok(None)
    else if FileFields(w, g).None? || !HasShape(FileFields(w, g).value) then r == Err(NotAConversation)
    else
      var fields := FileFields(w, g).value;
      if OfNewerFormat(fields) then r == Err(NewerFormat)
      else if r.Ok? then
        r.value.Some? && Describes(fields, r.value.value)
        && MessagesCome(g.attachments, MessagesOf(fields), r.value.value.messages)
      else
        r == Err(BadAttachment) && forall back :: !MessagesCome(g.attachments, MessagesOf(fields), back)
  }

  lemma ShapeIsRead(fields: map<string, Json>)
    ensures FromValue(Obj(fields)).Some? <==> HasShape(fields)
    ensures HasShape(fields) ==>
              var t := FromValue(Obj(fields)).value;
              Describes(fields, t) && t.messages == MessagesOf(fields) && (t.version > 1 <==> OfNewerFormat(fields))
  {
  }

  lemma FieldsAreRead(w: World, g: Folder)
    requires "thread.json" in g.root
    ensures FileFields(w, g).None? ==> ReadFolder(w, g) == Err(NotAConversation)
    ensures FileFields(w, g).Some? ==>
              var value := FromValue(Obj(FileFields(w, g).value));
              if value.None? then ReadFolder(w, g) == Err(NotAConversation)
              else if value.value.version > 1 then ReadFolder(w, g) == Err(NewerFormat)
              else
                match RestoredMessages(g.attachments, value.value.messages)
                case Err(e) => ReadFolder(w, g) == Err(e)
                case Ok(messages) => ReadFolder(w, g) == Ok(Some(value.value.(messages := messages)))
  {
    hide RestoredMessages;
  }

  /** A folder reads as its bytes and fields say, and as nothing else. */
  lemma ReadsAsWritten(w: World, g: Folder)
    ensures Reads(w, g, ReadFolder(w, g))
  {
    if "thread.json" in g.root {
      FieldsAreRead(w, g);
      hide ReadFolder;
      if FileFields(w, g).Some? {
        var fields := FileFields(w, g).value;
        ShapeIsRead(fields);
        if OfKnownFormat(fields) {
          hide FromValue, FileFields, Describes, MessagesCome;
          ReadsMessages(g, fields);
        }
      }
    }
  }

  lemma ReadsMessages(g: Folder, fields: map<string, Json>)
    ensures var r := RestoredMessages(g.attachments, MessagesOf(fields));
            if r.Ok? then MessagesCome(g.attachments, MessagesOf(fields), r.value)
            else r == Err(BadAttachment) && forall back :: !MessagesCome(g.attachments, MessagesOf(fields), back)
  {
    hide RestoredMessages, MessagesCome;
    forall back
      ensures RestoredMessages(g.attachments, MessagesOf(fields)) == Ok(back) <==>
              MessagesCome(g.attachments, MessagesOf(fields), back)
    {
      MessagesAreRead(g.attachments, MessagesOf(fields), back);
    }
    MessagesAreRead(g.attachments, MessagesOf(fields), []);
  }

  lemma DescribedOnce(fields: map<string, Json>, a: Thread, b: Thread)
    requires Describes(fields, a) && Describes(fields, b) && a.messages == b.messages
    ensures a == b
  {
    assert a.rest == b.rest;
  }

  /** The account leaves no choice: a folder reads as nothing but what it says. */
  lemma ReadsOnce(w: World, g: Folder, r: Result<Option<Thread>, Reason>)
    requires Reads(w, g, r)
    ensures r == ReadFolder(w, g)
  {
    ReadsAsWritten(w, g);
    var read := ReadFolder(w, g);
    hide ReadFolder, FileFields, HasShape, OfNewerFormat, Describes, MessagesCome, RestoredMessages;
    if r.Ok? && r.value.Some? && read.Ok? && read.value.Some? {
      var messages := MessagesOf(FileFields(w, g).value);
      MessagesAreRead(g.attachments, messages, r.value.value.messages);
      MessagesAreRead(g.attachments, messages, read.value.value.messages);
      DescribedOnce(FileFields(w, g).value, r.value.value, read.value.value);
    }
  }

  // No image of a message names a file.
  predicate WithoutFiles(message: Json) {
    HasImages(message) ==>
      var images := message.fields["images"].items;
      forall k :: 0 <= k < |images| ==> images[k].Obj? ==> "file" !in images[k].fields
  }

  lemma WithoutFilesStays(files: Attachments, message: Json)
    requires WithoutFiles(message)
    ensures MessageComes(files, message, message)
  {
    if HasImages(message) {
      assert message.fields == message.fields["images" := message.fields["images"]];
    }
  }

  /** A conversation of a known format whose images are inline reads with the messages of its file. */
  lemma KnownFormatReads(w: World, g: Folder)
    requires FileFields(w, g).Some? && OfKnownFormat(FileFields(w, g).value)
    requires var messages := MessagesOf(FileFields(w, g).value);
             forall i :: 0 <= i < |messages| ==> WithoutFiles(messages[i])
    ensures var r := ReadFolder(w, g);
            r.Ok? && r.value.Some? && Describes(FileFields(w, g).value, r.value.value)
            && r.value.value.messages == MessagesOf(FileFields(w, g).value)
  {
    var fields := FileFields(w, g).value;
    var messages := MessagesOf(fields);
    hide ReadFolder, WithoutFiles, FileFields, Describes, MessageComes, RestoredMessages;
    forall i | 0 <= i < |messages| ensures MessageComes(g.attachments, messages[i], messages[i]) {
      WithoutFilesStays(g.attachments, messages[i]);
    }
    ReadsAsWritten(w, g);
    var r := ReadFolder(w, g);
    MessagesAreRead(g.attachments, messages, messages);
    if r.Ok? {
      MessagesAreRead(g.attachments, messages, r.value.value.messages);
    }
    assert "thread.json" in g.root by { ObjectIsInFile(w, g); }
  }

  lemma ObjectIsInFile(w: World, g: Folder)
    requires FileFields(w, g).Some?
    ensures "thread.json" in g.root
  {
  }
}
