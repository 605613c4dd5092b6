/**
 The conversation store on disk. Every file system call is one step that moves
 the disk to its next state; `trail` records all states, so a crash between any
 two steps leaves the disk in some state of the trail. Writes may fail at any
 step; deletions succeed.
 */
module ConversationStore {
  import opened Outcomes
  import opened Conversation
  import opened Threads
  import opened ThreadFiles

  // The conversations directory: folders by name.
  type Disk = map<string, Folder>

  datatype Limits = Limits(threadBytes: nat, imageBytes: nat)

  datatype Outcome = Done | Failed(reason: Reason)

  const EMPTY: Folder := Folder(map[], map[])

  function FolderOf(d: Disk, f: string): Folder {
    if f in d then d[f] else EMPTY
  }

  /** What a reader can see of a folder: everything but unfinished writes. */
  function View(d: Disk, f: string): Folder {
    Visible(FolderOf(d, f))
  }

  function ReadAt(w: World, d: Disk, f: string): Result<Option<Thread>, Reason> {
    ReadFolder(w, FolderOf(d, f))
  }

  // Which of a folder's two directories a file is in.
  datatype Place = Root | Attached

  function Files(g: Folder, place: Place): map<string, Bytes> {
    if place.Root? then g.root else g.attachments
  }

  function WithFiles(g: Folder, place: Place, files: map<string, Bytes>): Folder {
    if place.Root? then g.(root := files) else g.(attachments := files)
  }

  function Put(g: Folder, place: Place, name: string, content: Bytes): Folder {
    WithFiles(g, place, Files(g, place)[name := content])
  }

  function TempName(name: string, tag: string): string {
    "." + name + ".tmp-" + tag
  }

  // Everything outside one folder is as it was.
  predicate Untouched(d: Disk, e: Disk, f: string) { d - {f} == e - {f} }

  lemma TempFilesAreHidden(name: string, tag: string)
    ensures Hidden(TempName(name, tag))
  {
  }

  /** Writing or removing a hidden file changes nothing a reader can see. */
  lemma HiddenChange(g: Folder, place: Place, name: string, content: Bytes)
    requires Hidden(name)
    ensures Visible(Put(g, place, name, content)) == Visible(g)
    ensures Visible(WithFiles(g, place, Files(g, place) - {name})) == Visible(g)
  {
    assert VisibleFiles(Files(g, place)[name := content]) == VisibleFiles(Files(g, place));
    assert VisibleFiles(Files(g, place) - {name}) == VisibleFiles(Files(g, place));
  }

  /** Renaming a hidden file onto a visible one puts exactly that content there. */
  lemma HiddenRename(g: Folder, place: Place, temp: string, name: string, content: Bytes)
    requires Hidden(temp) && !Hidden(name)
    ensures Visible(WithFiles(g, place, (Files(g, place) - {temp})[name := content]))
         == Put(Visible(g), place, name, content)
  {
    assert VisibleFiles((Files(g, place) - {temp})[name := content])
        == VisibleFiles(Files(g, place))[name := content];
  }

  class FileSystem {
    var disk: Disk
    ghost var trail: seq<Disk>
    // How many writes have failed.
    ghost var faults: nat

    constructor (found: Disk)
      ensures Current() && disk == found && trail == [found] && faults == 0
    {
      disk := found;
      trail := [found];
      faults := 0;
    }

    ghost predicate Current() reads this {
      trail != [] && trail[|trail| - 1] == disk
    }

    /** One file system call, which changes one folder. */
    method Step(f: string, g: Folder)
      requires Current()
      modifies this`disk, this`trail
      ensures Current() && disk == old(disk)[f := g] && trail == old(trail) + [disk]
      ensures Untouched(old(disk), disk, f)
    {
      assert disk[f := g] - {f} == disk - {f};
      disk := disk[f := g];
      trail := trail + [disk];
    }

    // In every state since `from`, a reader of the folder sees one of two views.
    ghost predicate Shows(from: nat, base: Disk, f: string, before: Folder, after: Folder)
      reads this
    {
      forall i :: from <= i < |trail| ==>
        Untouched(base, trail[i], f) && (View(trail[i], f) == before || View(trail[i], f) == after)
    }

    /** Removes one file, if it is there. */
    method RemoveFile(f: string, place: Place, name: string)
      requires Current() && f in disk
      modifies this`disk, this`trail
      ensures Current() && f in disk && Untouched(old(disk), disk, f)
      ensures disk[f] == WithFiles(old(disk)[f], place, Files(old(disk)[f], place) - {name})
      ensures trail == old(trail) || trail == old(trail) + [disk]
    {
      var g := disk[f];
      if name in Files(g, place) {
        Step(f, WithFiles(g, place, Files(g, place) - {name}));
      } else {
        assert Files(g, place) - {name} == Files(g, place);
      }
    }

    /** Removes a directory that holds no files any more. */
    method RemoveDirectory(f: string)
      requires Current() && f in disk && disk[f] == EMPTY
      modifies this`disk, this`trail
      ensures Current() && disk == old(disk) - {f} && trail == old(trail) + [disk]
    {
      disk := disk - {f};
      trail := trail + [disk];
    }

    /** Creates and fills the temporary file; a reader sees none of it. */
    method WriteTemp(f: string, place: Place, temp: string, content: Bytes) returns (ok: bool)
      requires Current() && Hidden(temp) && f in disk
      modifies this`disk, this`trail
      ensures Current() && f in disk && old(trail) <= trail
      ensures Shows(|old(trail)|, old(disk), f, old(View(disk, f)), old(View(disk, f)))
      ensures View(disk, f) == old(View(disk, f)) && Untouched(old(disk), disk, f)
      ensures ok ==> temp in Files(disk[f], place) && Files(disk[f], place)[temp] == content
      ensures temp in old(Files(disk[f], place)) ==> !ok && disk == old(disk)
    {
      var failsAt: nat := *;
      var g := disk[f];
      if failsAt == 0 || temp in Files(g, place) { return false; }
      HiddenChange(g, place, temp, []);
      Step(f, Put(g, place, temp, []));
      var written :| 0 <= written <= |content|;
      HiddenChange(disk[f], place, temp, content[..written]);
      Step(f, Put(disk[f], place, temp, content[..written]));
      if failsAt == 1 { return false; }
      HiddenChange(disk[f], place, temp, content);
      Step(f, Put(disk[f], place, temp, content));
      return true;
    }

    /**
     Writes a file through a temporary file and one atomic rename. Any call may
     fail; what a reader sees is the old folder in every state before the
     rename and the old folder with exactly the new content afterwards.
     */
    method AtomicWrite(f: string, place: Place, name: string, content: Bytes) returns (ok: bool)
      requires Current() && !Hidden(name)
      modifies this
      ensures Current() && old(trail) <= trail && Untouched(old(disk), disk, f)
      ensures faults == old(faults) + (if ok then 0 else 1)
      ensures var before, after := old(View(disk, f)), Put(old(View(disk, f)), place, name, content);
              View(disk, f) == (if ok then after else before)
              && Shows(|old(trail)|, old(disk), f, before, if ok then after else before)
    {
      if * {
        faults := faults + 1;
        return false;
      }
      Step(f, FolderOf(disk, f));
      var tag: string := *;
      var temp := TempName(name, tag);
      TempFilesAreHidden(name, tag);
      ok := WriteTemp(f, place, temp, content);
      var g := disk[f];
      if ok {
        if * { ok := false; }
      }
      if ok {
        var moved := Files(g, place)[temp];
        HiddenRename(g, place, temp, name, moved);
        Step(f, WithFiles(g, place, (Files(g, place) - {temp})[name := moved]));
      } else {
        HiddenChange(g, place, temp, []);
        RemoveFile(f, place, temp);
        faults := faults + 1;
      }
    }
  }

  // --------------------------------------------------------- storing images

  ghost predicate IsImage(w: World, name: string, content: Bytes, moved: set<DataUrl>) {
    exists d :: d in moved && FileName(w, d) == name && d.bytes == content
  }

  // Every attachment was there before or is one of the moved images.
  ghost predicate Sourced(w: World, moved: set<DataUrl>, before: Folder, now: Folder) {
    forall n :: n in now.attachments ==>
      (n in before.attachments && now.attachments[n] == before.attachments[n])
      || IsImage(w, n, now.attachments[n], moved)
  }

  // The folder gained moved images and lost nothing.
  ghost predicate Grew(w: World, moved: set<DataUrl>, before: Folder, now: Folder) {
    now.root == before.root && Sourced(w, moved, before, now) && Keeps(before, now)
  }

  predicate Keeps(before: Folder, now: Folder) {
    forall n :: n in before.attachments ==>
      n in now.attachments && now.attachments[n] == before.attachments[n]
  }

  // What it gained are the files created.
  ghost predicate Created(before: Folder, now: Folder, created: seq<string>) {
    (forall n :: n in now.attachments ==> n in before.attachments || n in created)
    && (forall j :: 0 <= j < |created| ==> created[j] !in before.attachments)
  }

  ghost predicate GrewSince(w: World, moved: set<DataUrl>, fs: FileSystem, from: nat, base: Disk, f: string)
    reads fs
  {
    forall i :: from <= i < |fs.trail| ==>
      Untouched(base, fs.trail[i], f) && Grew(w, moved, View(base, f), View(fs.trail[i], f))
  }

  // What holds between any two steps of a save that has not yet replaced the thread file.
  ghost predicate Storing(w: World, moved: set<DataUrl>, fs: FileSystem, start: seq<Disk>, base: Disk, f: string)
    reads fs
  {
    fs.Current() && start <= fs.trail && Untouched(base, fs.disk, f)
    && Grew(w, moved, View(base, f), View(fs.disk, f))
    && GrewSince(w, moved, fs, |start|, base, f)
  }

  lemma FileNamesAreVisible(w: World, d: DataUrl)
    ensures !Hidden(FileName(w, d))
  {
    assert FileName(w, d)[0] == w.imageHash(d.bytes)[0];
  }

  lemma ImageWritten(w: World, before: Folder, now: Folder, created: seq<string>, moved: set<DataUrl>, d: DataUrl)
    requires Created(before, now, created) && Grew(w, moved, before, now)
    requires d in moved && FileName(w, d) !in now.attachments
    ensures var next := Put(now, Attached, FileName(w, d), d.bytes);
            Created(before, next, created + [FileName(w, d)])
            && Grew(w, moved, before, next) && Keeps(now, next)
  {
    var n := FileName(w, d);
    assert IsImage(w, n, Put(now, Attached, n, d.bytes).attachments[n], moved);
  }

  /** Writes an image's file unless a file of that name is there. */
  method WriteImage(w: World, fs: FileSystem, f: string, d: DataUrl, created0: seq<string>,
                    ghost start: seq<Disk>, ghost base: Disk, ghost moved: set<DataUrl>)
    returns (ok: bool, created: seq<string>)
    requires Storing(w, moved, fs, start, base, f) && d in moved
    requires Created(View(base, f), View(fs.disk, f), created0)
    modifies fs
    ensures fs.faults == old(fs.faults) + (if ok then 0 else 1)
    ensures Storing(w, moved, fs, start, base, f)
    ensures Created(View(base, f), View(fs.disk, f), created)
    ensures Keeps(old(View(fs.disk, f)), View(fs.disk, f))
    ensures ok ==> FileName(w, d) in View(fs.disk, f).attachments
  {
    var name := FileName(w, d);
    ghost var now := View(fs.disk, f);
    FileNamesAreVisible(w, d);
    ok, created := true, created0;
    if name !in FolderOf(fs.disk, f).attachments {
      ImageWritten(w, View(base, f), now, created0, moved, d);
      ok := fs.AtomicWrite(f, Attached, name, d.bytes);
      if ok {
        created := created + [name];
      }
    }
  }

  // Why an image is refused.
  predicate Oversized(moved: set<DataUrl>, max: nat) {
    exists d :: d in moved && |d.bytes| > max
  }

  predicate Fits(moved: set<DataUrl>, max: nat) {
    forall d :: d in moved ==> |d.bytes| <= max
  }

  predicate Placed(w: World, files: Attachments, moved: set<DataUrl>) {
    forall d :: d in moved ==> FileName(w, d) in files
  }

  /** One turn of the source's image loop. */
  method StoreImage(w: World, fs: FileSystem, f: string, image: Json, max: nat,
                    kept0: set<string>, created0: seq<string>,
                    ghost start: seq<Disk>, ghost base: Disk, ghost moved: set<DataUrl>)
    returns (r: Result<Json, Reason>, kept: set<string>, created: seq<string>)
    requires Storing(w, moved, fs, start, base, f) && MovedImage(image) <= moved
    requires Created(View(base, f), View(fs.disk, f), created0)
    modifies fs
    ensures fs.faults == old(fs.faults) + (if r == Err(WriteFailed) then 1 else 0)
    ensures Storing(w, moved, fs, start, base, f)
    ensures Created(View(base, f), View(fs.disk, f), created)
    ensures Keeps(old(View(fs.disk, f)), View(fs.disk, f))
    ensures r.Ok? ==> r.value == StoredImage(w, image) && kept == kept0 + Names(w, MovedImage(image))
                      && Fits(MovedImage(image), max)
                      && Placed(w, View(fs.disk, f).attachments, MovedImage(image))
    ensures r.Err? ==> r.error == WriteFailed || r.error == ImageTooLarge
    ensures r == Err(ImageTooLarge) ==> Oversized(moved, max)
  {
    hide Storing, Created, DecodeDataUrl, UrlImage, FileName;
    kept, created := kept0, created0;
    if !image.Obj? || "dataUrl" !in image.fields || !image.fields["dataUrl"].Str? {
      return Ok(image), kept, created;
    }
    var url := image.fields["dataUrl"].s;
    DecodeIsBounded(url, max);
    var decoded := DecodeDataUrl(url, max);
    if decoded.Err? {
      assert UrlImage(url).value in MovedImage(image);
      return Err(decoded.error), kept, created;
    }
    if decoded.value.None? {
      return Ok(image), kept, created;
    }
    var d := decoded.value.value;
    assert MovedImage(image) == {d};
    var ok;
    ok, created := WriteImage(w, fs, f, d, created, start, base, moved);
    if !ok {
      return Err(WriteFailed), kept, created;
    }
    var name := FileName(w, d);
    r := Ok(Obj((image.fields - {"dataUrl"})
                ["file" := Str("attachments/" + name)]["mediaType" := Str(d.mediaType)]));
    kept := kept + {name};
  }

  lemma KeptStep(w: World, kept: set<string>, seen: set<DataUrl>, some: set<DataUrl>, rest: set<DataUrl>)
    ensures kept + Names(w, seen) + Names(w, some) == kept + Names(w, seen + some)
    ensures seen + (some + rest) == (seen + some) + rest
  {
  }

  lemma {:induction false} StoredImagesStep(w: World, images: seq<Json>, k: nat, done: seq<Json>)
    requires k < |images| && StoredImages(w, images) == done + StoredImages(w, images[k..])
    ensures StoredImages(w, images) == done + [StoredImage(w, images[k])] + StoredImages(w, images[k + 1..])
    ensures MovedImages(images[k..]) == MovedImage(images[k]) + MovedImages(images[k + 1..])
  {
    assert images[k..][1..] == images[k + 1..];
  }

  lemma {:induction false} StoredMessagesStep(w: World, messages: seq<Json>, k: nat, done: seq<Json>)
    requires k < |messages| && StoredMessages(w, messages) == done + StoredMessages(w, messages[k..])
    ensures StoredMessages(w, messages)
         == done + [StoredMessage(w, messages[k])] + StoredMessages(w, messages[k + 1..])
    ensures Moved(messages[k..]) == MovedImages(Images(messages[k])) + Moved(messages[k + 1..])
  {
    assert messages[k..][1..] == messages[k + 1..];
  }

  method StoreMessageImages(w: World, fs: FileSystem, f: string, images: seq<Json>, max: nat,
                            kept0: set<string>, created0: seq<string>,
                            ghost start: seq<Disk>, ghost base: Disk, ghost moved: set<DataUrl>)
    returns (r: Result<seq<Json>, Reason>, kept: set<string>, created: seq<string>)
    requires Storing(w, moved, fs, start, base, f) && MovedImages(images) <= moved
    requires Created(View(base, f), View(fs.disk, f), created0)
    modifies fs
    ensures fs.faults == old(fs.faults) + (if r == Err(WriteFailed) then 1 else 0)
    ensures Storing(w, moved, fs, start, base, f)
    ensures Created(View(base, f), View(fs.disk, f), created)
    ensures Keeps(old(View(fs.disk, f)), View(fs.disk, f))
    ensures r.Ok? ==> r.value == StoredImages(w, images) && kept == kept0 + Names(w, MovedImages(images))
                      && Fits(MovedImages(images), max)
                      && Placed(w, View(fs.disk, f).attachments, MovedImages(images))
    ensures r.Err? ==> r.error == WriteFailed || r.error == ImageTooLarge
    ensures r == Err(ImageTooLarge) ==> Oversized(moved, max)
  {
    kept, created := kept0, created0;
    var done: seq<Json> := [];
    ghost var seen: set<DataUrl> := {};
    for k := 0 to |images|
      invariant Storing(w, moved, fs, start, base, f)
      invariant fs.faults == old(fs.faults)
      invariant Created(View(base, f), View(fs.disk, f), created)
      invariant Keeps(old(View(fs.disk, f)), View(fs.disk, f))
      invariant MovedImages(images) == seen + MovedImages(images[k..])
      invariant StoredImages(w, images) == done + StoredImages(w, images[k..])
      invariant kept == kept0 + Names(w, seen)
      invariant Fits(seen, max) && Placed(w, View(fs.disk, f).attachments, seen)
    {
      ghost var one := MovedImage(images[k]);
      StoredImagesStep(w, images, k, done);
      KeptStep(w, kept0, seen, one, MovedImages(images[k + 1..]));
      var image;
      image, kept, created := StoreImage(w, fs, f, images[k], max, kept, created, start, base, moved);
      if image.Err? {
        return Err(image.error), kept, created;
      }
      done := done + [image.value];
      seen := seen + one;
    }
    r := Ok(done);
  }

  /** The image loop over all messages, which are edited in place. */
  method StoreImages(w: World, fs: FileSystem, f: string, messages: seq<Json>, max: nat,
                     ghost start: seq<Disk>, ghost base: Disk)
    returns (r: Result<seq<Json>, Reason>, kept: set<string>, created: seq<string>)
    requires fs.Current() && fs.trail == start && fs.disk == base
    modifies fs
    ensures fs.faults == old(fs.faults) + (if r == Err(WriteFailed) then 1 else 0)
    ensures Storing(w, Moved(messages), fs, start, base, f)
    ensures Created(View(base, f), View(fs.disk, f), created)
    ensures r.Ok? ==> r.value == StoredMessages(w, messages) && kept == Names(w, Moved(messages))
                      && Fits(Moved(messages), max)
                      && Placed(w, View(fs.disk, f).attachments, Moved(messages))
    ensures r.Err? ==> r.error == WriteFailed || r.error == ImageTooLarge
    ensures r == Err(ImageTooLarge) ==> Oversized(Moved(messages), max)
  {
    kept, created := {}, [];
    var done: seq<Json> := [];
    ghost var seen: set<DataUrl> := {};
    for k := 0 to |messages|
      invariant Storing(w, Moved(messages), fs, start, base, f)
      invariant fs.faults == old(fs.faults)
      invariant Created(View(base, f), View(fs.disk, f), created)
      invariant Moved(messages) == seen + Moved(messages[k..])
      invariant StoredMessages(w, messages) == done + StoredMessages(w, messages[k..])
      invariant kept == {} + Names(w, seen)
      invariant Fits(seen, max) && Placed(w, View(fs.disk, f).attachments, seen)
    {
      ghost var some := MovedImages(Images(messages[k]));
      StoredMessagesStep(w, messages, k, done);
      KeptStep(w, {}, seen, some, Moved(messages[k + 1..]));
      var images;
      images, kept, created := StoreMessageImages(w, fs, f, Images(messages[k]), max, kept, created,
                                                  start, base, Moved(messages));
      if images.Err? {
        return Err(images.error), kept, created;
      }
      done := done + [WithImages(messages[k], images.value)];
      seen := seen + some;
    }
    r := Ok(done);
  }

  // ------------------------------------------------- rollback and collection

  lemma VisibleRemove(g: Folder, name: string)
    ensures Visible(WithFiles(g, Attached, g.attachments - {name}))
         == Folder(Visible(g).root, Visible(g).attachments - {name})
  {
    assert VisibleFiles(g.attachments - {name}) == VisibleFiles(g.attachments) - {name};
  }

  /** Removes one attachment, as every cleanup step of the source does. */
  method RemoveAttachment(fs: FileSystem, f: string, name: string)
    requires fs.Current()
    modifies fs`disk, fs`trail
    ensures fs.Current() && old(fs.trail) <= fs.trail
    ensures Untouched(old(fs.disk), fs.disk, f)
    ensures View(fs.disk, f) == Folder(old(View(fs.disk, f)).root, old(View(fs.disk, f)).attachments - {name})
    ensures FolderOf(fs.disk, f)
         == Folder(old(FolderOf(fs.disk, f)).root, old(FolderOf(fs.disk, f)).attachments - {name})
    ensures forall i :: |old(fs.trail)| <= i < |fs.trail| ==> fs.trail[i] == fs.disk
  {
    if f in fs.disk {
      VisibleRemove(fs.disk[f], name);
      fs.RemoveFile(f, Attached, name);
    } else {
      VisibleRemove(EMPTY, name);
      assert EMPTY.attachments - {name} == EMPTY.attachments;
    }
  }

  lemma UndoKeepsGrew(w: World, moved: set<DataUrl>, before: Folder, now: Folder, name: string)
    requires Grew(w, moved, before, now) && name !in before.attachments
    ensures Grew(w, moved, before, Folder(now.root, now.attachments - {name}))
  {
  }

  /** Undoes a failed save: a reader sees exactly the folder from before it. */
  method Rollback(fs: FileSystem, f: string, created: seq<string>,
                  ghost w: World, ghost moved: set<DataUrl>, ghost start: seq<Disk>, ghost base: Disk)
    requires Storing(w, moved, fs, start, base, f)
    requires Created(View(base, f), View(fs.disk, f), created)
    modifies fs`disk, fs`trail
    ensures Storing(w, moved, fs, start, base, f)
    ensures View(fs.disk, f) == View(base, f)
  {
    ghost var before := View(base, f);
    for k := 0 to |created|
      invariant Storing(w, moved, fs, start, base, f)
      invariant forall n :: n in View(fs.disk, f).attachments ==> n in before.attachments || n in created[k..]
    {
      UndoKeepsGrew(w, moved, before, View(fs.disk, f), created[k]);
      assert created[k..] == [created[k]] + created[k + 1..];
      RemoveAttachment(fs, f, created[k]);
    }
    assert View(fs.disk, f).attachments == before.attachments;
  }

  // The thread file and the kept attachments are as they were.
  predicate Retains(before: Folder, now: Folder, kept: set<string>) {
    now.root == before.root
    && (forall n :: n in kept && n in before.attachments ==> n in now.attachments)
    && (forall n :: n in now.attachments ==>
          n in before.attachments && now.attachments[n] == before.attachments[n])
  }

  /** Deletes every attachment that is not kept, in any order. */
  method RemoveUnreferenced(fs: FileSystem, f: string, kept: set<string>)
    requires fs.Current()
    modifies fs`disk, fs`trail
    ensures fs.Current() && old(fs.trail) <= fs.trail && Untouched(old(fs.disk), fs.disk, f)
    ensures Retains(old(View(fs.disk, f)), View(fs.disk, f), kept)
    ensures forall n :: n in FolderOf(fs.disk, f).attachments <==>
              n in old(FolderOf(fs.disk, f)).attachments && n in kept
    ensures forall i :: |old(fs.trail)| <= i < |fs.trail| ==>
              Untouched(old(fs.disk), fs.trail[i], f)
              && Retains(old(View(fs.disk, f)), View(fs.trail[i], f), kept)
  {
    var entries := FolderOf(fs.disk, f).attachments.Keys;
    var todo := entries - kept;
    while todo != {}
      invariant fs.Current() && old(fs.trail) <= fs.trail && Untouched(old(fs.disk), fs.disk, f)
      invariant todo !! kept
      invariant Retains(old(View(fs.disk, f)), View(fs.disk, f), kept)
      invariant forall n :: n in FolderOf(fs.disk, f).attachments <==>
                  n in old(FolderOf(fs.disk, f)).attachments && (n in kept || n in todo)
      invariant forall i :: |old(fs.trail)| <= i < |fs.trail| ==>
                  Untouched(old(fs.disk), fs.trail[i], f)
                  && Retains(old(View(fs.disk, f)), View(fs.trail[i], f), kept)
    {
      var name :| name in todo;
      RemoveAttachment(fs, f, name);
      todo := todo - {name};
    }
  }

  // --------------------------------------------------------------- one save

  /**
   No file the save relies on holds other content: a present attachment of a
   moved image's name is that image, and no two moved images meet in one name.
   */
  predicate Clashless(w: World, files: Attachments, moved: set<DataUrl>) {
    (forall d :: d in moved && FileName(w, d) in files ==> files[FileName(w, d)] == d.bytes)
    && forall d, e :: d in moved && e in moved && FileName(w, d) == FileName(w, e) ==> d.bytes == e.bytes
  }

  lemma GrewIsPresent(w: World, before: Folder, now: Folder, moved: set<DataUrl>)
    requires Grew(w, moved, before, now) && Placed(w, now.attachments, moved)
    requires Clashless(w, before.attachments, moved) && Fits(moved, MAX_IMAGE_BYTES)
    ensures Present(w, now.attachments, moved)
  {
    forall d | d in moved
      ensures FileName(w, d) in now.attachments && now.attachments[FileName(w, d)] == d.bytes
    {
      var n := FileName(w, d);
      if n !in before.attachments {
        assert IsImage(w, n, now.attachments[n], moved);
      }
    }
  }

  /** What a save answers when every write succeeds. */
  function Verdict(w: World, value: Json, limits: Limits): Outcome {
    match FromValue(value)
    case None => Failed(InvalidConversation)
    case Some(t) => ThreadVerdict(w, t, limits)
  }

  function ThreadVerdict(w: World, t: Thread, limits: Limits): Outcome {
    if t.id == "" then Failed(MissingId)
    else if Oversized(Moved(t.messages), limits.imageBytes) then Failed(ImageTooLarge)
    else if |ThreadBytes(w, t)| > limits.threadBytes then Failed(ThreadTooLarge)
    else Done
  }

  // Some image of a conversation is larger than a limit.
  ghost predicate HoldsLarger(t: Thread, max: nat) {
    exists d :: HoldsImage(t.messages, d) && |d.bytes| > max
  }

  /** What each answer of a save means for the conversation it was given. */
  ghost predicate AnswersAsGiven(w: World, t: Thread, limits: Limits, r: Outcome) {
    match r
    case Done => t.id != "" && !HoldsLarger(t, limits.imageBytes) && |ThreadBytes(w, t)| <= limits.threadBytes
    case Failed(MissingId) => t.id == ""
    case Failed(ImageTooLarge) => t.id != "" && HoldsLarger(t, limits.imageBytes)
    case Failed(ThreadTooLarge) =>
      t.id != "" && !HoldsLarger(t, limits.imageBytes) && |ThreadBytes(w, t)| > limits.threadBytes
    case Failed(reason) => reason == WriteFailed && t.id != ""
  }

  lemma OversizedIsHeld(t: Thread, max: nat)
    ensures Oversized(Moved(t.messages), max) <==> HoldsLarger(t, max)
  {
    hide Moved, HoldsImage;
    forall d ensures d in Moved(t.messages) <==> HoldsImage(t.messages, d) {
      MovedAreHeld(t.messages, d);
    }
  }

  lemma VerdictIsAnswer(w: World, t: Thread, limits: Limits)
    ensures AnswersAsGiven(w, t, limits, ThreadVerdict(w, t, limits))
    ensures t.id != "" ==> AnswersAsGiven(w, t, limits, Failed(WriteFailed))
  {
    hide Oversized, HoldsLarger, ThreadBytes, Moved;
    OversizedIsHeld(t, limits.imageBytes);
  }

  /** A disk on which the thread and its images have all been written. */
  predicate Committed(w: World, d: Disk, f: string, t: Thread) {
    Saved(w, View(d, f), t)
  }

  /**
   Reading a committed folder gives the thread reloaded, if it can be read, and the
   thread as it was saved exactly if the format carries it.
   */
  lemma ReadCommitted(w: World, d: Disk, f: string, t: Thread)
    requires Lawful(w) && WellFormed(t) && Committed(w, d, f, t)
    ensures ReadAt(w, d, f) == Ok(Some(Canonical(t))) <==> AllCarried(t.messages)
    ensures Legible(w, t) ==> ReadAt(w, d, f) == Ok(Some(Reloaded(w, t)))
  {
    hide Saved, Legible, ReadFolder, Canonical, Reloaded;
    ReadStored(w, View(d, f), t);
    if Legible(w, t) {
      SavedReadsReloaded(w, View(d, f), t);
    }
    ReadVisible(w, FolderOf(d, f));
  }

  /**
   After a save a conversation can be read exactly when each of its images is moved,
   has no file of its own, or names a file the save wrote.
   */
  lemma ReadsAfterSave(w: World, d: Disk, f: string, t: Thread)
    requires Lawful(w) && WellFormed(t) && Committed(w, d, f, t)
    requires FolderOf(d, f).attachments.Keys == Names(w, Moved(t.messages))
    ensures ReadAt(w, d, f).Ok? <==> Legible(w, t)
  {
    assert View(d, f).attachments.Keys == Names(w, Moved(t.messages)) by {
      forall n | n in FolderOf(d, f).attachments ensures !Hidden(n) {
        var u :| u in Moved(t.messages) && FileName(w, u) == n;
        FileNamesAreVisible(w, u);
      }
    }
    hide Saved, Legible, ReadFolder, Names;
    SavedReadsExactly(w, View(d, f), t);
    ReadVisible(w, FolderOf(d, f));
  }

  /** Reading a folder that only gained attachments gives what it gave before. */
  lemma ReadGrew(w: World, moved: set<DataUrl>, base: Disk, d: Disk, f: string)
    requires Grew(w, moved, View(base, f), View(d, f)) && ReadAt(w, base, f).Ok?
    ensures ReadAt(w, d, f) == ReadAt(w, base, f)
  {
    ReadVisible(w, FolderOf(base, f));
    ReadVisible(w, FolderOf(d, f));
    ReadGrown(w, View(base, f), View(d, f));
  }

  // The folder has the old thread and more files, or the new thread.
  ghost predicate OldOrNew(w: World, base: Disk, d: Disk, f: string, t: Thread) {
    Untouched(base, d, f)
    && Sourced(w, Moved(t.messages), View(base, f), View(d, f))
    && (Grew(w, Moved(t.messages), View(base, f), View(d, f)) || Committed(w, d, f, t))
  }

  ghost predicate OldOrNewSince(w: World, fs: FileSystem, from: nat, base: Disk, f: string, t: Thread)
    reads fs
  {
    forall i :: from <= i < |fs.trail| ==> OldOrNew(w, base, fs.trail[i], f, t)
  }

  // The images of a thread are all on disk.
  predicate Ready(w: World, d: Disk, f: string, t: Thread) {
    Present(w, View(d, f).attachments, Moved(t.messages)) && |ThreadBytes(w, t)| <= MAX_THREAD_BYTES
  }

  lemma ReplaceCommits(w: World, base: Disk, d: Disk, e: Disk, f: string, t: Thread)
    requires Ready(w, d, f, t) && Grew(w, Moved(t.messages), View(base, f), View(d, f))
    requires Untouched(base, e, f)
    requires View(e, f) == Put(View(d, f), Root, THREAD_FILE, ThreadBytes(w, t))
    ensures Committed(w, e, f, t) && OldOrNew(w, base, e, f, t)
  {
  }

  lemma RetainsCommitted(w: World, base: Disk, d: Disk, e: Disk, f: string, t: Thread)
    requires Committed(w, d, f, t) && OldOrNew(w, base, d, f, t) && Untouched(base, e, f)
    requires Retains(View(d, f), View(e, f), Names(w, Moved(t.messages)))
    ensures Committed(w, e, f, t) && OldOrNew(w, base, e, f, t)
  {
  }

  /** Replaces the thread file, once its images are in place. */
  method ReplaceThread(w: World, fs: FileSystem, f: string, t: Thread, bytes: Bytes,
                       ghost start: seq<Disk>, ghost base: Disk)
    returns (ok: bool)
    requires Storing(w, Moved(t.messages), fs, start, base, f) && bytes == ThreadBytes(w, t)
    requires Ready(w, fs.disk, f, t)
    modifies fs
    ensures fs.faults == old(fs.faults) + (if ok then 0 else 1)
    ensures fs.Current() && start <= fs.trail && Untouched(base, fs.disk, f)
    ensures ok ==> OldOrNewSince(w, fs, |start|, base, f, t)
    ensures ok ==> Committed(w, fs.disk, f, t) && OldOrNew(w, base, fs.disk, f, t)
    ensures !ok ==> Storing(w, Moved(t.messages), fs, start, base, f)
    ensures !ok ==> View(fs.disk, f) == old(View(fs.disk, f))
  {
    ghost var ready := fs.disk;
    ghost var from := |fs.trail|;
    ok := fs.AtomicWrite(f, Root, THREAD_FILE, bytes);
    if ok {
      forall i | from <= i < |fs.trail|
        ensures OldOrNew(w, base, fs.trail[i], f, t)
      {
        if View(fs.trail[i], f) != View(ready, f) {
          ReplaceCommits(w, base, ready, fs.trail[i], f, t);
        }
      }
      ReplaceCommits(w, base, ready, fs.disk, f, t);
    }
  }

  /** Deletes what the new thread file no longer names; it stays committed throughout. */
  method Collect(w: World, fs: FileSystem, f: string, t: Thread, kept: set<string>,
                 ghost start: seq<Disk>, ghost base: Disk)
    requires fs.Current() && start <= fs.trail && OldOrNewSince(w, fs, |start|, base, f, t)
    requires Committed(w, fs.disk, f, t) && OldOrNew(w, base, fs.disk, f, t)
    requires kept == Names(w, Moved(t.messages))
    modifies fs`disk, fs`trail
    ensures fs.Current() && start <= fs.trail && OldOrNewSince(w, fs, |start|, base, f, t)
    ensures Committed(w, fs.disk, f, t) && OldOrNew(w, base, fs.disk, f, t)
    ensures forall n :: n in FolderOf(fs.disk, f).attachments ==> n in kept
  {
    ghost var committed := fs.disk;
    ghost var from := |fs.trail|;
    RemoveUnreferenced(fs, f, kept);
    forall i | from <= i < |fs.trail|
      ensures OldOrNew(w, base, fs.trail[i], f, t)
    {
      RetainsCommitted(w, base, committed, fs.trail[i], f, t);
    }
    RetainsCommitted(w, base, committed, fs.disk, f, t);
  }

  /**
   A save, step by step. In every state it passes through, other folders are as
   they were and this folder either only gained images or holds the new thread.
   A failed save leaves what a reader sees as it was; a successful one leaves
   the thread, its images and no other attachment.
   */
  method SaveThread(w: World, fs: FileSystem, t: Thread, limits: Limits) returns (r: Outcome)
    requires fs.Current() && limits.imageBytes <= MAX_IMAGE_BYTES && limits.threadBytes <= MAX_THREAD_BYTES
    requires Clashless(w, View(fs.disk, FolderName(w, t.id)).attachments, Moved(t.messages))
    modifies fs
    ensures fs.faults == old(fs.faults) + (if r == Failed(WriteFailed) then 1 else 0)
    ensures fs.Current() && old(fs.trail) <= fs.trail
    ensures r != Failed(WriteFailed) ==> r == ThreadVerdict(w, t, limits)
    ensures AnswersAsGiven(w, t, limits, r)
    ensures OldOrNewSince(w, fs, |old(fs.trail)|, old(fs.disk), FolderName(w, t.id), t)
    ensures OldOrNew(w, old(fs.disk), fs.disk, FolderName(w, t.id), t)
    ensures r.Failed? ==> View(fs.disk, FolderName(w, t.id)) == old(View(fs.disk, FolderName(w, t.id)))
    ensures r.Done? ==> Committed(w, fs.disk, FolderName(w, t.id), t)
    ensures r.Done? ==> FolderOf(fs.disk, FolderName(w, t.id)).attachments.Keys == Names(w, Moved(t.messages))
  {
    VerdictIsAnswer(w, t, limits);
    hide Clashless, ToValue, FromValue, StoredMessages, FileName, AnswersAsGiven;
    var f := FolderName(w, t.id);
    if t.id == "" { return Failed(MissingId); }
    ghost var start, base, moved := fs.trail, fs.disk, Moved(t.messages);
    var stored, kept, created := StoreImages(w, fs, f, t.messages, limits.imageBytes, start, base);
    if stored.Err? {
      Rollback(fs, f, created, w, moved, start, base);
      return Failed(stored.error);
    }
    var bytes := w.printJson(ToValue(t.(version := FORMAT_VERSION, messages := stored.value)));
    if |bytes| > limits.threadBytes {
      Rollback(fs, f, created, w, moved, start, base);
      return Failed(ThreadTooLarge);
    }
    GrewIsPresent(w, View(base, f), View(fs.disk, f), moved);
    var ok := ReplaceThread(w, fs, f, t, bytes, start, base);
    if !ok {
      Rollback(fs, f, created, w, moved, start, base);
      return Failed(WriteFailed);
    }
    Collect(w, fs, f, t, kept, start, base);
    r := Done;
  }

  // ---------------------------------------------------------------- removal

  /** Deletes the files of one directory, in any order. */
  method EmptyDirectory(fs: FileSystem, f: string, place: Place)
    requires fs.Current() && f in fs.disk
    modifies fs`disk, fs`trail
    ensures fs.Current() && f in fs.disk && old(fs.trail) <= fs.trail && Untouched(old(fs.disk), fs.disk, f)
    ensures fs.disk[f] == WithFiles(old(fs.disk)[f], place, map[])
    ensures forall i :: |old(fs.trail)| <= i < |fs.trail| ==> Untouched(old(fs.disk), fs.trail[i], f)
  {
    var todo := Files(fs.disk[f], place).Keys;
    while todo != {}
      invariant fs.Current() && f in fs.disk && old(fs.trail) <= fs.trail && Untouched(old(fs.disk), fs.disk, f)
      invariant fs.disk[f] == WithFiles(old(fs.disk)[f], place, Files(fs.disk[f], place))
      invariant Files(fs.disk[f], place).Keys == todo
      invariant forall i :: |old(fs.trail)| <= i < |fs.trail| ==> Untouched(old(fs.disk), fs.trail[i], f)
    {
      var name :| name in todo;
      fs.RemoveFile(f, place, name);
      todo := todo - {name};
    }
    assert Files(fs.disk[f], place) == map[];
  }

  /** Deletes a folder: its files one by one, then the directories. */
  method RemoveFolder(fs: FileSystem, f: string)
    requires fs.Current()
    modifies fs`disk, fs`trail
    ensures fs.Current() && fs.disk == old(fs.disk) - {f} && old(fs.trail) <= fs.trail
    ensures forall i :: |old(fs.trail)| <= i < |fs.trail| ==> Untouched(old(fs.disk), fs.trail[i], f)
  {
    if f in fs.disk {
      EmptyDirectory(fs, f, Attached);
      EmptyDirectory(fs, f, Root);
      fs.RemoveDirectory(f);
      assert fs.disk - {f} == fs.disk;
    } else {
      assert fs.disk - {f} == fs.disk;
    }
  }

  // The outcome of deleting a conversation.
  datatype Deletion = Deleted | Absent | Refused(reason: Reason)

  function DeleteVerdict(w: World, d: Disk, id: string): Deletion {
    match ReadAt(w, d, FolderName(w, id))
    case Err(e) => Refused(e)
    case Ok(Some(t)) => if t.id == id then Deleted else Refused(IdMismatch)
    case Ok(None) => if FolderName(w, id) in d then Refused(NoConversationFile) else Absent
  }

  // A folder whose thread file is a conversation in a format after the first.
  predicate NewerAt(w: World, d: Disk, f: string) {
    f in d && FileFields(w, d[f]).Some? && OfNewerFormat(FileFields(w, d[f]).value)
  }

  lemma NewerIsThere(w: World, d: Disk, f: string)
    requires NewerAt(w, d, f)
    ensures f in d
  {
  }

  lemma NewerIsRefused(w: World, d: Disk, f: string)
    requires NewerAt(w, d, f)
    ensures ReadAt(w, d, f) == Err(NewerFormat)
  {
    ReadsAsWritten(w, d[f]);
    hide ReadFolder, OfNewerFormat;
    ObjectIsInFile(w, d[f]);
  }

  /** What each answer of a deletion means for the folder's bytes and fields. */
  ghost predicate DeletesAsWritten(w: World, d: Disk, f: string, id: string, r: Deletion) {
    match r
    case Deleted => f in d && exists t: Thread :: t.id == id && Reads(w, d[f], Ok(Some(t)))
    case Absent => f !in d
    case Refused(reason) =>
      f in d
      && (if reason == IdMismatch then exists t: Thread :: t.id != id && Reads(w, d[f], Ok(Some(t)))
          else if reason == NoConversationFile then "thread.json" !in d[f].root
          else Reads(w, d[f], Err(reason)))
  }

  lemma DeletesByFields(w: World, d: Disk, id: string)
    ensures DeletesAsWritten(w, d, FolderName(w, id), id, DeleteVerdict(w, d, id))
  {
    var f := FolderName(w, id);
    hide FolderName, ReadFolder, HasShape, OfNewerFormat, Describes, MessagesCome, MessagesOf;
    ReadsAsWritten(w, FolderOf(d, f));
    EmptyReads(w);
  }

  lemma EmptyReads(w: World)
    ensures ReadFolder(w, EMPTY) == Ok(None)
  {
  }

  /** Deletes a conversation's folder only when it reads as that conversation. */
  method DeleteFolder(w: World, fs: FileSystem, id: string) returns (r: Deletion)
    requires fs.Current()
    modifies fs`disk, fs`trail
    ensures fs.Current() && r == DeleteVerdict(w, old(fs.disk), id)
    ensures fs.disk == if r.Deleted? then old(fs.disk) - {FolderName(w, id)} else old(fs.disk)
    ensures DeletesAsWritten(w, old(fs.disk), FolderName(w, id), id, r)
    ensures NewerAt(w, old(fs.disk), FolderName(w, id)) ==> r == Refused(NewerFormat) && fs.disk == old(fs.disk)
  {
    var f := FolderName(w, id);
    DeletesByFields(w, fs.disk, id);
    if NewerAt(w, fs.disk, f) {
      NewerIsRefused(w, fs.disk, f);
    }
    var found := ReadAt(w, fs.disk, f);
    if found.Err? { return Refused(found.error); }
    if found.value.None? {
      return if f in fs.disk then Refused(NoConversationFile) else Absent;
    }
    if found.value.value.id != id { return Refused(IdMismatch); }
    RemoveFolder(fs, f);
    r := Deleted;
  }

  /** Removes every folder, readable or not. */
  method ClearAll(fs: FileSystem)
    requires fs.Current()
    modifies fs`disk, fs`trail
    ensures fs.Current() && fs.disk == map[]
  {
    while fs.disk.Keys != {}
      invariant fs.Current()
      decreases |fs.disk.Keys|
    {
      var f :| f in fs.disk.Keys;
      ghost var was := fs.disk;
      RemoveFolder(fs, f);
      assert fs.disk.Keys == was.Keys - {f};
    }
  }

  // A folder whose thread is listed: it reads, under the name its id gives.
  predicate Listed(w: World, d: Disk, f: string) {
    var found := ReadAt(w, d, f);
    f in d && found.Ok? && found.value.Some? && FolderName(w, found.value.value.id) == f
  }

  // A folder that is reported and left alone.
  predicate Reported(w: World, d: Disk, f: string) {
    f in d && !Listed(w, d, f) && ReadAt(w, d, f) != Ok(None)
  }

  function ThreadOf(w: World, d: Disk, f: string): Thread
    requires Listed(w, d, f)
  {
    ReadAt(w, d, f).value.value
  }

  /**
   A listing, told from the bytes and fields of the folders: each thread is what its
   folder's file says, a folder that is neither listed nor reported holds no thread
   file, a readable one is listed exactly when it has the name its id gives, and one of
   a newer format is reported and not listed.
   */
  ghost predicate ListedAsWritten(w: World, d: Disk, threads: seq<Thread>, warnings: set<string>, order: seq<string>) {
    |order| == |threads|
    && (forall i :: 0 <= i < |threads| ==> order[i] in d && Reads(w, d[order[i]], Ok(Some(threads[i]))))
    && (forall f :: f in d ==> ("thread.json" !in d[f].root <==> f !in warnings && f !in order))
    && (forall f :: f in warnings ==> f !in order)
    && (forall f, t :: f in d && Reads(w, d[f], Ok(Some(t))) ==> (f in order <==> FolderName(w, t.id) == f))
    && forall f :: NewerAt(w, d, f) ==> f in warnings && f !in order
  }

  lemma ListingIsAsWritten(w: World, d: Disk, threads: seq<Thread>, warnings: set<string>, order: seq<string>)
    requires |order| == |threads|
    requires forall i :: 0 <= i < |threads| ==> Listed(w, d, order[i]) && threads[i] == ThreadOf(w, d, order[i])
    requires forall f :: Listed(w, d, f) ==> exists i :: 0 <= i < |order| && order[i] == f
    requires warnings == set f | f in d && Reported(w, d, f)
    ensures ListedAsWritten(w, d, threads, warnings, order)
  {
    ListsAsWritten(w, d);
    forall f, t | f in d && Reads(w, d[f], Ok(Some(t))) ensures Listed(w, d, f) <==> FolderName(w, t.id) == f {
      hide FolderName, Reads, ReadFolder;
      ReadsOnce(w, d[f], Ok(Some(t)));
    }
    assert forall f :: Reported(w, d, f) ==> !Listed(w, d, f);
    hide *;
    forall f ensures f in order <==> Listed(w, d, f) {
      if f in order {
        var i :| 0 <= i < |order| && order[i] == f;
      }
    }
    forall f | NewerAt(w, d, f) ensures f in d {
      NewerIsThere(w, d, f);
    }
  }

  lemma ListsAsWritten(w: World, d: Disk)
    ensures forall f :: Listed(w, d, f) ==> f in d && Reads(w, d[f], Ok(Some(ThreadOf(w, d, f))))
    ensures forall f :: f in d ==> ("thread.json" !in d[f].root <==> !Listed(w, d, f) && !Reported(w, d, f))
    ensures forall f :: NewerAt(w, d, f) ==> Reported(w, d, f) && !Listed(w, d, f)
  {
    hide FolderName, ReadFolder, FileFields, HasShape, OfNewerFormat, Describes, MessagesCome, MessagesOf;
    forall f | f in d
      ensures Reads(w, d[f], ReadAt(w, d, f))
      ensures NewerAt(w, d, f) ==> ReadAt(w, d, f) == Err(NewerFormat)
    {
      ReadsAsWritten(w, d[f]);
      if NewerAt(w, d, f) { NewerIsRefused(w, d, f); }
    }
  }

  /** Lists every readable conversation once, and reports every other thread file. */
  method Load(w: World, fs: FileSystem)
    returns (threads: seq<Thread>, warnings: set<string>, ghost order: seq<string>)
    ensures |order| == |threads|
    ensures forall i :: 0 <= i < |threads| ==>
              Listed(w, fs.disk, order[i]) && threads[i] == ThreadOf(w, fs.disk, order[i])
    ensures forall i, j :: 0 <= i < j < |order| ==> order[i] != order[j]
    ensures forall f :: Listed(w, fs.disk, f) ==> exists i :: 0 <= i < |order| && order[i] == f
    ensures warnings == set f | f in fs.disk && Reported(w, fs.disk, f)
    ensures ListedAsWritten(w, fs.disk, threads, warnings, order)
  {
    hide ReadAt, FolderName, ListedAsWritten;
    threads, warnings, order := [], {}, [];
    var todo := fs.disk.Keys;
    ghost var seen: set<string> := {};
    while todo != {}
      invariant seen + todo == fs.disk.Keys && seen !! todo
      invariant |order| == |threads|
      invariant forall i :: 0 <= i < |threads| ==> order[i] in seen
      invariant forall i :: 0 <= i < |threads| ==>
                  Listed(w, fs.disk, order[i]) && threads[i] == ThreadOf(w, fs.disk, order[i])
      invariant forall i, j :: 0 <= i < j < |order| ==> order[i] != order[j]
      invariant forall f :: f in seen && Listed(w, fs.disk, f) ==> exists i :: 0 <= i < |order| && order[i] == f
      invariant warnings == set f | f in seen && Reported(w, fs.disk, f)
    {
      var f :| f in todo;
      todo, seen := todo - {f}, seen + {f};
      ghost var before := order;
      match ReadAt(w, fs.disk, f) {
        case Ok(Some(t)) =>
          if FolderName(w, t.id) == f {
            threads, order := threads + [t], order + [f];
            assert order[|before|] == f;
          } else {
            warnings := warnings + {f};
          }
        case Ok(None) =>
        case Err(_) =>
          warnings := warnings + {f};
      }
      assert forall g :: g in seen - {f} && Listed(w, fs.disk, g) ==>
        exists i :: 0 <= i < |before| && before[i] == g && order[i] == g;
    }
    ListingIsAsWritten(w, fs.disk, threads, warnings, order);
  }
}
