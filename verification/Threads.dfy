/**
 Whole conversations: the thread file's fields, the images of all messages, and
 reading a folder back. A folder is its files; nothing else of it is observed.
 */
module Threads {
  import opened Outcomes
  import opened Strings
  import opened Conversation

  // ---------------------------------------------------------------- messages

  function Images(message: Json): seq<Json> {
    if message.Obj? && "images" in message.fields && message.fields["images"].Arr?
    then message.fields["images"].items
    else []
  }

  /** The message with its image list edited in place. */
  function WithImages(message: Json, images: seq<Json>): Json
    requires |images| == |Images(message)|
  {
    if message.Obj? && "images" in message.fields && message.fields["images"].Arr?
    then Obj(message.fields["images" := Arr(images)])
    else message
  }

  function StoredImages(w: World, images: seq<Json>): (r: seq<Json>)
    ensures |r| == |images|
  {
    if images == [] then [] else [StoredImage(w, images[0])] + StoredImages(w, images[1..])
  }

  function StoredMessages(w: World, messages: seq<Json>): (r: seq<Json>)
    ensures |r| == |messages|
  {
    if messages == [] then []
    else [StoredMessage(w, messages[0])] + StoredMessages(w, messages[1..])
  }

  function StoredMessage(w: World, message: Json): Json {
    WithImages(message, StoredImages(w, Images(message)))
  }

  function RestoredImages(files: Attachments, images: seq<Json>): (r: Result<seq<Json>, Reason>)
    ensures r.Ok? ==> |r.value| == |images|
  {
    if images == [] then Ok([])
    else match RestoredImage(files, images[0])
      case Err(e) => Err(e)
      case Ok(head) =>
        match RestoredImages(files, images[1..])
        case Err(e) => Err(e)
        case Ok(tail) => Ok([head] + tail)
  }

  function RestoredMessage(files: Attachments, message: Json): Result<Json, Reason> {
    match RestoredImages(files, Images(message))
    case Err(e) => Err(e)
    case Ok(images) => Ok(WithImages(message, images))
  }

  function RestoredMessages(files: Attachments, messages: seq<Json>): (r: Result<seq<Json>, Reason>)
    ensures r.Ok? ==> |r.value| == |messages|
  {
    if messages == [] then Ok([])
    else match RestoredMessage(files, messages[0])
      case Err(e) => Err(e)
      case Ok(head) =>
        match RestoredMessages(files, messages[1..])
        case Err(e) => Err(e)
        case Ok(tail) => Ok([head] + tail)
  }

  // A list already restored, followed by the rest or its error.
  function After(done: seq<Json>, rest: Result<seq<Json>, Reason>): Result<seq<Json>, Reason> {
    match rest
    case Err(e) => Err(e)
    case Ok(tail) => Ok(done + tail)
  }

  lemma AfterNothing(rest: Result<seq<Json>, Reason>)
    ensures After([], rest) == rest
  {
    if rest.Ok? {
      assert [] + rest.value == rest.value;
    }
  }

  /** The source's loop over a message's images, which are edited in place. */
  method RestoreImages(files: Attachments, images: seq<Json>) returns (r: Result<seq<Json>, Reason>)
    ensures r == RestoredImages(files, images)
  {
    var done: seq<Json> := [];
    AfterNothing(RestoredImages(files, images));
    assert images[0..] == images;
    for k := 0 to |images|
      invariant RestoredImages(files, images) == After(done, RestoredImages(files, images[k..]))
    {
      assert images[k..][1..] == images[k + 1..];
      var image := RestoredImage(files, images[k]);
      if image.Err? { return Err(image.error); }
      ghost var tail := RestoredImages(files, images[k + 1..]);
      assert tail.Ok? ==> done + ([image.value] + tail.value) == (done + [image.value]) + tail.value;
      done := done + [image.value];
    }
    assert done + [] == done;
    r := Ok(done);
  }

  function CanonicalImages(images: seq<Json>): (r: seq<Json>)
    ensures |r| == |images|
  {
    if images == [] then [] else [CanonicalImage(images[0])] + CanonicalImages(images[1..])
  }

  function CanonicalMessages(messages: seq<Json>): (r: seq<Json>)
    ensures |r| == |messages|
  {
    if messages == [] then []
    else [CanonicalMessage(messages[0])] + CanonicalMessages(messages[1..])
  }

  function CanonicalMessage(message: Json): Json {
    WithImages(message, CanonicalImages(Images(message)))
  }

  /** The images of a list, and of all messages, that become files. */
  function MovedImages(images: seq<Json>): set<DataUrl> {
    if images == [] then {} else MovedImage(images[0]) + MovedImages(images[1..])
  }

  function MovedImage(image: Json): set<DataUrl> {
    match ImageOf(image)
    case None => {}
    case Some(d) => {d}
  }

  function Moved(messages: seq<Json>): set<DataUrl> {
    if messages == [] then {}
    else MovedImages(Images(messages[0])) + Moved(messages[1..])
  }

  function Names(w: World, moved: set<DataUrl>): set<string> {
    set d | d in moved :: FileName(w, d)
  }

  predicate AllCarried(messages: seq<Json>) {
    forall m :: m in messages ==> forall image :: image in Images(m) ==> Carried(image)
  }

  /** Every moved image is on disk with its own content. */
  predicate Present(w: World, files: Attachments, moved: set<DataUrl>) {
    forall d :: d in moved ==>
      FileName(w, d) in files && files[FileName(w, d)] == d.bytes && |d.bytes| <= MAX_IMAGE_BYTES
  }

  lemma {:induction false} ImagesRoundTrip(w: World, files: Attachments, images: seq<Json>)
    requires Present(w, files, MovedImages(images))
    ensures RestoredImages(files, StoredImages(w, images)) == Ok(CanonicalImages(images))
            <==> forall image :: image in images ==> Carried(image)
  {
    if images != [] {
      var rest := images[1..];
      ImagesRoundTrip(w, files, rest);
      ImageRoundTrip(w, files, images[0]);
      assert StoredImages(w, images)[1..] == StoredImages(w, rest);
      assert forall image :: image in images <==> image == images[0] || image in rest;
      var r := RestoredImages(files, StoredImages(w, images));
      if r == Ok(CanonicalImages(images)) {
        assert r.value[0] == CanonicalImage(images[0]) && r.value[1..] == CanonicalImages(rest);
      }
    }
  }

  lemma WithImagesInjective(message: Json, a: seq<Json>, b: seq<Json>)
    requires |a| == |b| == |Images(message)|
    ensures WithImages(message, a) == WithImages(message, b) <==> a == b
    ensures Images(WithImages(message, a)) == a
    ensures WithImages(WithImages(message, a), b) == WithImages(message, b)
  {
    if a != [] && a != b {
      assert WithImages(message, a).fields["images"] == Arr(a);
      assert WithImages(message, b).fields["images"] == Arr(b);
    }
  }

  lemma MessageRoundTrip(w: World, files: Attachments, message: Json)
    requires Present(w, files, MovedImages(Images(message)))
    ensures RestoredMessage(files, StoredMessage(w, message))
              == Ok(CanonicalMessage(message))
            <==> forall image :: image in Images(message) ==> Carried(image)
  {
    var stored := StoredImages(w, Images(message));
    ImagesRoundTrip(w, files, Images(message));
    WithImagesInjective(message, stored, stored);
    var back := RestoredImages(files, stored);
    if back.Ok? {
      WithImagesInjective(message, stored, back.value);
      WithImagesInjective(message, back.value, CanonicalImages(Images(message)));
    }
  }

  /**
   Messages whose images are written out and read back are the same messages,
   up to media type case, exactly when every image is one the format carries.
   */
  lemma {:induction false} MessagesRoundTrip(w: World, files: Attachments, messages: seq<Json>)
    requires Present(w, files, Moved(messages))
    ensures RestoredMessages(files, StoredMessages(w, messages)) == Ok(CanonicalMessages(messages))
            <==> AllCarried(messages)
  {
    if messages != [] {
      var rest := messages[1..];
      MessagesRoundTrip(w, files, rest);
      MessageRoundTrip(w, files, messages[0]);
      hide RestoredMessage, StoredMessage, CanonicalMessage, Present, MovedImages, Carried;
      assert StoredMessages(w, messages)[1..] == StoredMessages(w, rest);
      assert forall m :: m in messages <==> m == messages[0] || m in rest;
      var r := RestoredMessages(files, StoredMessages(w, messages));
      if r == Ok(CanonicalMessages(messages)) {
        assert r.value[0] == CanonicalMessages(messages)[0];
        assert r.value[1..] == CanonicalMessages(rest);
      }
    }
  }

  // ------------------------------------------------- what can be read at all

  /**
   An image that a reader follows: it is moved to a file by the save, or has no
   file of its own, or names one that the save itself writes.
   */
  predicate Follows(names: set<string>, image: Json) {
    image.Obj? && ImageOf(image).None? && "file" in image.fields ==>
      FollowedName(image).Some? && FollowedName(image).value in names
      && "mediaType" in image.fields && image.fields["mediaType"].Str?
      && ValidMediaType(image.fields["mediaType"].s)
  }

  // The attachment that an image's own `file` key names.
  function FollowedName(image: Json): Option<string>
    requires image.Obj? && "file" in image.fields
  {
    if image.fields["file"].Str? then AttachmentName(image.fields["file"].s) else None
  }

  predicate AllFollowed(names: set<string>, images: seq<Json>) {
    forall i :: 0 <= i < |images| ==> Follows(names, images[i])
  }

  predicate Readable(names: set<string>, messages: seq<Json>) {
    forall i :: 0 <= i < |messages| ==> AllFollowed(names, Images(messages[i]))
  }

  // A conversation that can be read after it was saved.
  predicate Legible(w: World, t: Thread) {
    Readable(Names(w, Moved(t.messages)), t.messages)
  }

  // Files for all moved images, and all of them within the size a reader takes.
  predicate Supplied(w: World, files: Attachments, moved: set<DataUrl>) {
    (forall d :: d in moved ==> FileName(w, d) in files)
    && forall n :: n in files ==> |files[n]| <= MAX_IMAGE_BYTES
  }

  lemma ImageReadsExactly(w: World, files: Attachments, image: Json)
    requires Supplied(w, files, MovedImage(image))
    ensures RestoredImage(files, StoredImage(w, image)).Ok? <==> Follows(files.Keys, image)
  {
    if ImageOf(image).Some? {
      var d := ImageOf(image).value;
      UrlRoundTrip(image.fields["dataUrl"].s);
      WrittenNamesAreFollowed(w, d);
      var stored := StoredImage(w, image);
      assert stored.fields["file"] == Str("attachments/" + FileName(w, d));
      assert stored.fields["mediaType"] == Str(d.mediaType);
      assert FileName(w, d) in files;
    }
  }

  lemma {:induction false} ImagesReadExactly(w: World, files: Attachments, images: seq<Json>)
    requires Supplied(w, files, MovedImages(images))
    ensures RestoredImages(files, StoredImages(w, images)).Ok? <==> AllFollowed(files.Keys, images)
  {
    hide RestoredImage, StoredImage, Follows, MovedImage, FileName;
    if images != [] {
      var rest := images[1..];
      ImageReadsExactly(w, files, images[0]);
      ImagesReadExactly(w, files, rest);
      assert StoredImages(w, images)[1..] == StoredImages(w, rest);
      assert forall i :: 0 < i < |images| ==> images[i] == rest[i - 1];
      assert forall i :: 0 <= i < |rest| ==> rest[i] == images[i + 1];
    }
  }

  /** Stored messages can be restored exactly when every image that names a file names one of these. */
  lemma {:induction false} MessagesReadExactly(w: World, files: Attachments, messages: seq<Json>)
    requires Supplied(w, files, Moved(messages))
    ensures RestoredMessages(files, StoredMessages(w, messages)).Ok? <==> Readable(files.Keys, messages)
  {
    hide RestoredImages, StoredImages, AllFollowed, MovedImages, FileName;
    if messages != [] {
      var rest := messages[1..];
      var stored := StoredImages(w, Images(messages[0]));
      ImagesReadExactly(w, files, Images(messages[0]));
      WithImagesInjective(messages[0], stored, stored);
      MessagesReadExactly(w, files, rest);
      assert StoredMessages(w, messages)[1..] == StoredMessages(w, rest);
      assert forall i :: 0 < i < |messages| ==> messages[i] == rest[i - 1];
      assert forall i :: 0 <= i < |rest| ==> rest[i] == messages[i + 1];
    }
  }

  lemma {:induction false} RestoredImagesGrow(a: Attachments, b: Attachments, images: seq<Json>)
    requires forall n :: n in a ==> n in b && b[n] == a[n]
    requires RestoredImages(a, images).Ok?
    ensures RestoredImages(b, images) == RestoredImages(a, images)
  {
    if images != [] {
      RestoredImagesGrow(a, b, images[1..]);
    }
  }

  /** Adding files never changes messages that could already be restored. */
  lemma {:induction false} RestoredMessagesGrow(a: Attachments, b: Attachments, messages: seq<Json>)
    requires forall n :: n in a ==> n in b && b[n] == a[n]
    requires RestoredMessages(a, messages).Ok?
    ensures RestoredMessages(b, messages) == RestoredMessages(a, messages)
  {
    if messages != [] {
      RestoredImagesGrow(a, b, Images(messages[0]));
      RestoredMessagesGrow(a, b, messages[1..]);
    }
  }

  // ----------------------------------------------------------------- threads

  datatype Thread = Thread(
    version: nat,
    id: string,
    title: Json,
    systemPrompt: Json,
    createdAt: Json,
    updatedAt: Json,
    messages: seq<Json>,
    rest: map<string, Json>
  )

  const KNOWN: set<string> :=
    {"version", "id", "title", "systemPrompt", "createdAt", "updatedAt", "messages"}

  const FORMAT_VERSION: nat := 1

  predicate WellFormed(t: Thread) {
    t.version < 0x1_0000_0000_0000_0000 && t.rest.Keys !! KNOWN
  }

  function Field(fields: map<string, Json>, key: string, default: Json): Json {
    if key in fields then fields[key] else default
  }

  /** Deserialization: only the id is required; unknown fields are kept. */
  function FromValue(value: Json): (r: Option<Thread>)
    ensures r.Some? ==> WellFormed(r.value)
  {
    if !value.Obj? then None
    else
      var f := value.fields;
      var version := Field(f, "version", Number(0));
      var id := Field(f, "id", Null);
      var messages := Field(f, "messages", Arr([]));
      if id.Str? && messages.Arr? && version.Number? && 0 <= version.n < 0x1_0000_0000_0000_0000
      then Some(Thread(version.n, id.s, Field(f, "title", Null), Field(f, "systemPrompt", Null),
                       Field(f, "createdAt", Null), Field(f, "updatedAt", Null),
                       messages.items, f - KNOWN))
      else None
  }

  function Head(t: Thread): map<string, Json> {
    map["version" := Number(t.version), "id" := Str(t.id), "title" := t.title,
        "systemPrompt" := t.systemPrompt, "createdAt" := t.createdAt,
        "updatedAt" := t.updatedAt, "messages" := Arr(t.messages)]
  }

  function ToValue(t: Thread): Json {
    Obj(t.rest + Head(t))
  }

  lemma ThreadRoundTrip(t: Thread)
    requires WellFormed(t)
    ensures FromValue(ToValue(t)) == Some(t)
  {
    assert Head(t).Keys == KNOWN;
    assert (t.rest + Head(t)) - KNOWN == t.rest;
  }

  /** A value read as a thread comes back with its absent fields defaulted. */
  lemma ValueRoundTrip(value: Json)
    requires FromValue(value).Some?
    ensures var t := FromValue(value).value;
            ToValue(t) == Obj(Head(t) + value.fields)
  {
    var t := FromValue(value).value;
    assert Head(t).Keys == KNOWN;
    assert t.rest + Head(t) == Head(t) + value.fields;
  }

  // ----------------------------------------------------------------- folders

  // The files directly in a conversation's folder, and in its attachments.
  datatype Folder = Folder(root: map<string, Bytes>, attachments: Attachments)

  const THREAD_FILE: string := "thread.json"

  function ReadFolder(w: World, g: Folder): Result<Option<Thread>, Reason> {
    if THREAD_FILE !in g.root then Ok(None)
    else if |g.root[THREAD_FILE]| > MAX_THREAD_BYTES then Err(NotAConversation)
    else match w.parseJson(g.root[THREAD_FILE])
      case None => Err(NotAConversation)
      case Some(value) =>
        match FromValue(value)
        case None => Err(NotAConversation)
        case Some(t) =>
          if t.version > FORMAT_VERSION then Err(NewerFormat)
          else match RestoredMessages(g.attachments, t.messages)
            case Err(e) => Err(e)
            case Ok(messages) => Ok(Some(t.(messages := messages)))
  }

  /** The thread as it is written, and as it is read afterwards. */
  function Stored(w: World, t: Thread): Thread {
    t.(version := FORMAT_VERSION, messages := StoredMessages(w, t.messages))
  }

  function Canonical(t: Thread): Thread {
    t.(version := FORMAT_VERSION, messages := CanonicalMessages(t.messages))
  }

  function ThreadBytes(w: World, t: Thread): Bytes {
    w.printJson(ToValue(Stored(w, t)))
  }

  // A folder as a save leaves it: the thread's file within the limit, and its images.
  predicate Saved(w: World, g: Folder, t: Thread) {
    THREAD_FILE in g.root && g.root[THREAD_FILE] == ThreadBytes(w, t)
    && |ThreadBytes(w, t)| <= MAX_THREAD_BYTES
    && Present(w, g.attachments, Moved(t.messages))
  }

  lemma {:induction false} SavedReads(w: World, g: Folder, t: Thread)
    requires Lawful(w) && WellFormed(t) && Saved(w, g, t)
    ensures ReadFolder(w, g)
         == match RestoredMessages(g.attachments, StoredMessages(w, t.messages))
            case Err(e) => Err(e)
            case Ok(messages) => Ok(Some(t.(version := FORMAT_VERSION, messages := messages)))
  {
    hide ToValue, FromValue, StoredMessages, RestoredMessages, Present;
    ThreadRoundTrip(Stored(w, t));
    assert w.parseJson(ThreadBytes(w, t)) == Some(ToValue(Stored(w, t)));
  }

  /** A folder holding a thread's file and images reads as that thread. */
  lemma ReadStored(w: World, g: Folder, t: Thread)
    requires Lawful(w) && WellFormed(t)
    requires Saved(w, g, t)
    ensures ReadFolder(w, g) == Ok(Some(Canonical(t))) <==> AllCarried(t.messages)
  {
    SavedReads(w, g, t);
    MessagesRoundTrip(w, g.attachments, t.messages);
  }

  /**
   A saved folder with exactly the thread's images can be read exactly when every
   image that names a file names one of these.
   */
  lemma SavedReadsExactly(w: World, g: Folder, t: Thread)
    requires Lawful(w) && WellFormed(t) && Saved(w, g, t)
    requires g.attachments.Keys == Names(w, Moved(t.messages))
    ensures ReadFolder(w, g).Ok? <==> Legible(w, t)
  {
    SavedReads(w, g, t);
    assert Supplied(w, g.attachments, Moved(t.messages));
    MessagesReadExactly(w, g.attachments, t.messages);
  }

  // The content of one of the files that moved images become, and all of them.
  ghost function Content(w: World, moved: set<DataUrl>, name: string): (b: Bytes)
    requires name in Names(w, moved)
    ensures exists d :: d in moved && FileName(w, d) == name && d.bytes == b
  {
    var d :| d in moved && FileName(w, d) == name;
    d.bytes
  }

  ghost function ImageFiles(w: World, moved: set<DataUrl>): Attachments {
    map n | n in Names(w, moved) :: Content(w, moved, n)
  }

  /** What a conversation that can be read comes back as, after it was saved. */
  ghost function Reloaded(w: World, t: Thread): (r: Thread)
    ensures r.id == t.id && r.version == FORMAT_VERSION && r.rest == t.rest
  {
    match RestoredMessages(ImageFiles(w, Moved(t.messages)), StoredMessages(w, t.messages))
    case Ok(messages) => t.(version := FORMAT_VERSION, messages := messages)
    case Err(_) => t.(version := FORMAT_VERSION, messages := [])
  }

  /** Files beside the thread's images do not matter: a readable conversation reads as reloaded. */
  lemma SavedReadsReloaded(w: World, g: Folder, t: Thread)
    requires Lawful(w) && WellFormed(t) && Saved(w, g, t)
    requires Legible(w, t)
    ensures ReadFolder(w, g) == Ok(Some(Reloaded(w, t)))
  {
    var moved := Moved(t.messages);
    SavedReads(w, g, t);
    ImageFilesAreSupplied(w, g.attachments, moved);
    hide ImageFiles, Saved, ReadFolder, Moved;
    MessagesReadExactly(w, ImageFiles(w, moved), t.messages);
    RestoredMessagesGrow(ImageFiles(w, moved), g.attachments, StoredMessages(w, t.messages));
  }

  lemma ImageFilesAreSupplied(w: World, files: Attachments, moved: set<DataUrl>)
    requires Present(w, files, moved)
    ensures ImageFiles(w, moved).Keys == Names(w, moved) && Supplied(w, ImageFiles(w, moved), moved)
    ensures forall n :: n in ImageFiles(w, moved) ==> n in files && files[n] == ImageFiles(w, moved)[n]
  {
  }

  // Moved images within the reader's limit, of which different ones have different files.
  predicate Distinguished(w: World, moved: set<DataUrl>) {
    (forall d :: d in moved ==> |d.bytes| <= MAX_IMAGE_BYTES)
    && forall d, e :: d in moved && e in moved && FileName(w, d) == FileName(w, e) ==> d.bytes == e.bytes
  }

  /** A conversation comes back as saved, up to media type case, exactly when the format carries its images. */
  lemma ReloadedExactlyAsSaved(w: World, t: Thread)
    requires Distinguished(w, Moved(t.messages))
    ensures Reloaded(w, t) == Canonical(t) <==> AllCarried(t.messages)
  {
    var files := ImageFiles(w, Moved(t.messages));
    assert Present(w, files, Moved(t.messages));
    hide ImageFiles, Present, Distinguished;
    MessagesRoundTrip(w, files, t.messages);
  }

  /** What the format carries can be read. */
  lemma CarriedIsLegible(w: World, t: Thread)
    requires AllCarried(t.messages)
    ensures Legible(w, t)
  {
    var names, messages := Names(w, Moved(t.messages)), t.messages;
    forall i | 0 <= i < |messages|
      ensures AllFollowed(names, Images(messages[i]))
    {
      assert messages[i] in messages;
      forall k | 0 <= k < |Images(messages[i])|
        ensures Follows(names, Images(messages[i])[k])
      {
        assert Images(messages[i])[k] in Images(messages[i]);
      }
    }
  }

  /**
   An image beside no data URL that names a file outside the attachments is stored
   as it is; once its thread has been written, the folder can no longer be read.
   */
  lemma OwnFileIsNotCarried(w: World, g: Folder, t: Thread)
    requires Lawful(w) && WellFormed(t)
    requires t.messages == [Obj(map["images" := Arr([Obj(map["file" := Str("x")])])])]
    requires THREAD_FILE in g.root && g.root[THREAD_FILE] == ThreadBytes(w, t)
    requires |ThreadBytes(w, t)| <= MAX_THREAD_BYTES
    ensures ReadFolder(w, g) == Err(BadAttachment)
  {
    hide FromValue, ToValue;
    var image := Obj(map["file" := Str("x")]);
    var message := t.messages[0];
    assert Images(message) == [image] && StoredImage(w, image) == image;
    assert StoredImages(w, [image]) == [image];
    var stored := StoredMessage(w, message);
    WithImagesInjective(message, [image], [image]);
    assert RestoredImage(g.attachments, image) == Err(BadAttachment);
    assert RestoredMessage(g.attachments, stored) == Err(BadAttachment);
    assert StoredMessages(w, t.messages)[0] == stored;
    ThreadRoundTrip(Stored(w, t));
    assert w.parseJson(ThreadBytes(w, t)) == Some(ToValue(Stored(w, t)));
  }

  /** New attachments never change what a readable folder reads as. */
  lemma ReadGrown(w: World, g: Folder, h: Folder)
    requires THREAD_FILE in g.root <==> THREAD_FILE in h.root
    requires THREAD_FILE in g.root ==> g.root[THREAD_FILE] == h.root[THREAD_FILE]
    requires forall n :: n in g.attachments ==> n in h.attachments && h.attachments[n] == g.attachments[n]
    requires ReadFolder(w, g).Ok?
    ensures ReadFolder(w, h) == ReadFolder(w, g)
  {
    if THREAD_FILE in g.root {
      var t := FromValue(w.parseJson(g.root[THREAD_FILE]).value).value;
      RestoredMessagesGrow(g.attachments, h.attachments, t.messages);
    }
  }

  // Temporary files of unfinished writes start with a dot.
  predicate Hidden(name: string) { name != "" && name[0] == '.' }

  function VisibleFiles(files: map<string, Bytes>): map<string, Bytes> {
    map n | n in files && !Hidden(n) :: files[n]
  }

  function Visible(g: Folder): Folder {
    Folder(VisibleFiles(g.root), VisibleFiles(g.attachments))
  }

  lemma {:induction false} RestoredImagesVisible(files: Attachments, images: seq<Json>)
    ensures RestoredImages(VisibleFiles(files), images) == RestoredImages(files, images)
  {
    if images != [] {
      RestoredImagesVisible(files, images[1..]);
      var image := images[0];
      if image.Obj? && "file" in image.fields && image.fields["file"].Str? {
        var file := image.fields["file"].s;
        if AttachmentName(file).Some? {
          FollowedNamesStayInside(file);
        }
      }
    }
  }

  lemma {:induction false} RestoredMessagesVisible(files: Attachments, messages: seq<Json>)
    ensures RestoredMessages(VisibleFiles(files), messages) == RestoredMessages(files, messages)
  {
    if messages != [] {
      RestoredImagesVisible(files, Images(messages[0]));
      RestoredMessagesVisible(files, messages[1..]);
    }
  }

  /** Leftover temporary files are never seen by a reader. */
  lemma ReadVisible(w: World, g: Folder)
    ensures ReadFolder(w, Visible(g)) == ReadFolder(w, g)
  {
    assert THREAD_FILE[0] == 't';
    if ReadFolder(w, g) != Ok(None) {
      match w.parseJson(g.root[THREAD_FILE])
      case None =>
      case Some(value) =>
        if FromValue(value).Some? {
          RestoredMessagesVisible(g.attachments, FromValue(value).value.messages);
        }
    }
  }

  // ------------------------------------------------------------ folder names

  /** Ids that name their folder themselves. */
  predicate Plain(id: string) {
    1 <= |id| <= 128 && !("h-" <= id)
    && (forall c :: c in id ==> IsLowerAlnum(c) || c == '-' || c == '_')
    && !IsDeviceName(id)
  }

  predicate IsDeviceName(name: string) {
    name in ["con", "prn", "aux", "nul"]
    || (|name| == 4 && ("com" <= name || "lpt" <= name) && IsDigit(name[3]))
  }

  function FolderName(w: World, id: string): string {
    if Plain(id) then id else "h-" + w.textHash(id)[..32]
  }

  /**
   Two ids share a folder exactly when they are equal or both are hashed with
   equal truncated digests; a plain id never meets a hashed one.
   */
  lemma FolderNameCollisions(w: World, a: string, b: string)
    ensures FolderName(w, a) == FolderName(w, b) <==>
            a == b || (!Plain(a) && !Plain(b) && w.textHash(a)[..32] == w.textHash(b)[..32])
  {
    var x, y := FolderName(w, a), FolderName(w, b);
    assert !Plain(a) ==> "h-" <= x && x[2..] == w.textHash(a)[..32];
    assert !Plain(b) ==> "h-" <= y && y[2..] == w.textHash(b)[..32];
  }

  // The names Windows keeps for devices, in lower case.
  predicate NamesDevice(s: string) {
    s == "con" || s == "prn" || s == "aux" || s == "nul"
    || (|s| == 4 && (s[..3] == "com" || s[..3] == "lpt") && s[3] in "0123456789")
  }

  lemma DevicesAreListed(name: string)
    ensures IsDeviceName(name) <==> NamesDevice(name)
  {
    if |name| == 4 {
      DigitIsListed(name[3]);
      assert "com" <= name <==> name[..3] == "com";
      assert "lpt" <= name <==> name[..3] == "lpt";
    }
  }

  lemma DigitIsListed(c: char)
    ensures IsDigit(c) <==> c in "0123456789"
  {
    var digits := "0123456789";
    if IsDigit(c) {
      assert digits[(c - '0') as int] == c;
    }
  }

  // Up to 128 small letters, digits, dashes and underscores, no hash and no device.
  predicate NamesItself(id: string) {
    id != "" && |id| <= 128 && !NamesDevice(id) && !(|id| >= 2 && id[0] == 'h' && id[1] == '-') && HasPlainLetters(id)
  }

  predicate HasPlainLetters(id: string) {
    forall i :: 0 <= i < |id| ==> 'a' <= id[i] <= 'z' || '0' <= id[i] <= '9' || id[i] == '-' || id[i] == '_'
  }

  lemma LettersAreRead(id: string)
    ensures (forall c :: c in id ==> IsLowerAlnum(c) || c == '-' || c == '_') <==> HasPlainLetters(id)
  {
    assert forall i :: 0 <= i < |id| ==> id[i] in id;
  }

  lemma PlainIsRead(id: string)
    ensures Plain(id) <==> NamesItself(id)
  {
    DevicesAreListed(id);
    LettersAreRead(id);
    hide IsDeviceName, NamesDevice, HasPlainLetters, IsLowerAlnum;
  }

  /** Which ids name their own folder; every other id has a hashed one. */
  lemma PlainIdsNameTheirFolder(w: World, id: string)
    ensures FolderName(w, id) == if NamesItself(id) then id else "h-" + w.textHash(id)[..32]
  {
    PlainIsRead(id);
    hide Plain, NamesItself;
  }

  /** No folder has the name of a device. */
  lemma FolderIsNoDevice(w: World, id: string)
    ensures !NamesDevice(FolderName(w, id))
  {
    DevicesAreListed(FolderName(w, id));
  }

  /** A folder name is one plain path component, never a parent or a separator. */
  lemma FolderNamesStayInside(w: World, id: string)
    ensures var f := FolderName(w, id);
            f != "" && |f| <= 128
            && forall c :: c in f ==> IsLowerAlnum(c) || c == '-' || c == '_'
  {
    if !Plain(id) {
      var h := w.textHash(id)[..32];
      assert forall c :: c in h ==> c in w.textHash(id);
    }
  }
}
