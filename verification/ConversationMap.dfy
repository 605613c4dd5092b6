/**
 The store as its users see it: a map from ids to conversations. Every call
 keeps the disk a refinement of that map, and so does every state in which a
 crash may leave the disk during a save.
 */
module ConversationMap {
  import opened Outcomes
  import opened Conversation
  import opened Threads
  import opened ThreadFiles
  import opened ConversationStore

  // No two of these images have one SHA-256, and no two of these ids one folder.
  ghost predicate CollisionFree(w: World, images: iset<Bytes>, ids: iset<string>) {
    (forall a, b :: a in images && b in images && w.imageHash(a) == w.imageHash(b) ==> a == b)
    && forall a, b :: a in ids && b in ids && FolderName(w, a) == FolderName(w, b) ==> a == b
  }

  // An attachment whose name is the digest of its content.
  ghost predicate Authentic(w: World, images: iset<Bytes>, name: string, content: Bytes) {
    |name| >= 64 && name[..64] == w.imageHash(content) && content in images
  }

  ghost predicate Intact(w: World, images: iset<Bytes>, d: Disk) {
    forall f, n :: f in d && n in View(d, f).attachments ==> Authentic(w, images, n, View(d, f).attachments[n])
  }

  predicate HasThread(d: Disk, f: string) {
    f in d && THREAD_FILE in d[f].root
  }

  /** Every entry reads back from its folder, and no other folder has a thread. */
  ghost predicate Refines(w: World, d: Disk, m: map<string, Thread>) {
    (forall id :: id in m ==> m[id].id == id && ReadAt(w, d, FolderName(w, id)) == Ok(Some(m[id])))
    && forall f :: HasThread(d, f) ==> exists id :: id in m && FolderName(w, id) == f
  }

  // The images a thread moves to files are among those considered.
  ghost predicate Known(t: Thread, images: iset<Bytes>) {
    forall d :: d in Moved(t.messages) ==> d.bytes in images
  }

  lemma ImageIsAuthentic(w: World, images: iset<Bytes>, d: DataUrl)
    requires d.bytes in images
    ensures Authentic(w, images, FileName(w, d), d.bytes)
  {
    assert FileName(w, d)[..64] == w.imageHash(d.bytes);
  }

  /** On an intact disk no file that a save relies on holds other content. */
  lemma IntactIsClashless(w: World, images: iset<Bytes>, ids: iset<string>, d: Disk, f: string, t: Thread)
    requires CollisionFree(w, images, ids) && Intact(w, images, d) && Known(t, images)
    ensures Clashless(w, View(d, f).attachments, Moved(t.messages))
  {
    var files := View(d, f).attachments;
    var moved := Moved(t.messages);
    forall u | u in moved && FileName(w, u) in files
      ensures files[FileName(w, u)] == u.bytes
    {
      ImageIsAuthentic(w, images, u);
      assert f in d;
      assert Authentic(w, images, FileName(w, u), files[FileName(w, u)]);
    }
    forall u, v | u in moved && v in moved && FileName(w, u) == FileName(w, v)
      ensures u.bytes == v.bytes
    {
      SameFileSameDigest(w, u, v);
    }
  }

  /** Every state of a save is intact if the disk was. */
  lemma SaveKeepsIntact(w: World, images: iset<Bytes>, base: Disk, d: Disk, f: string, t: Thread)
    requires Intact(w, images, base) && Known(t, images)
    requires OldOrNew(w, base, d, f, t)
    ensures Intact(w, images, d)
  {
    forall g, n | g in d && n in View(d, g).attachments
      ensures Authentic(w, images, n, View(d, g).attachments[n])
    {
      var content := View(d, g).attachments[n];
      if g != f {
        assert g in d - {f} && (d - {f})[g] == (base - {f})[g];
        assert View(d, g) == View(base, g);
      } else if n in View(base, f).attachments && View(base, f).attachments[n] == content {
        assert f in base;
      } else {
        assert IsImage(w, n, content, Moved(t.messages));
        var u :| u in Moved(t.messages) && FileName(w, u) == n && u.bytes == content;
        ImageIsAuthentic(w, images, u);
      }
    }
  }

  lemma UntouchedReads(w: World, base: Disk, d: Disk, f: string, g: string)
    requires Untouched(base, d, f) && g != f
    ensures ReadAt(w, d, g) == ReadAt(w, base, g)
    ensures HasThread(d, g) == HasThread(base, g)
  {
    assert g in d <==> g in d - {f};
    assert g in base <==> g in base - {f};
    if g in d {
      assert d[g] == (d - {f})[g] && base[g] == (base - {f})[g];
    }
  }

  lemma HasThreadIsVisible(d: Disk, f: string)
    ensures HasThread(d, f) <==> THREAD_FILE in View(d, f).root
  {
    assert THREAD_FILE[0] == 't';
  }

  lemma UnreadableHasNoThread(w: World, d: Disk, f: string)
    requires !HasThread(d, f)
    ensures ReadAt(w, d, f) == Ok(None)
  {
  }

  // What a save may leave behind, seen through the map.
  ghost predicate SameOrSaved(w: World, d: Disk, m: map<string, Thread>, t: Thread) {
    Refines(w, d, m) || Refines(w, d, m[t.id := Reloaded(w, t)])
  }

  lemma GrewRefines(w: World, base: Disk, d: Disk, m: map<string, Thread>, t: Thread)
    requires Refines(w, base, m)
    requires var f := FolderName(w, t.id);
             Untouched(base, d, f) && Grew(w, Moved(t.messages), View(base, f), View(d, f))
    ensures Refines(w, d, m)
  {
    var f := FolderName(w, t.id);
    HasThreadIsVisible(base, f);
    HasThreadIsVisible(d, f);
    forall id | id in m
      ensures ReadAt(w, d, FolderName(w, id)) == Ok(Some(m[id]))
    {
      if FolderName(w, id) == f {
        ReadGrew(w, Moved(t.messages), base, d, f);
      } else {
        UntouchedReads(w, base, d, f, FolderName(w, id));
      }
    }
    forall g | HasThread(d, g)
      ensures exists id :: id in m && FolderName(w, id) == g
    {
      if g != f {
        UntouchedReads(w, base, d, f, g);
      }
    }
  }

  lemma CommittedRefines(w: World, images: iset<Bytes>, ids: iset<string>,
                         base: Disk, d: Disk, m: map<string, Thread>, t: Thread)
    requires Lawful(w) && CollisionFree(w, images, ids) && WellFormed(t) && Legible(w, t)
    requires Refines(w, base, m) && t.id in ids && forall id :: id in m ==> id in ids
    requires var f := FolderName(w, t.id);
             Untouched(base, d, f) && Committed(w, d, f, t)
    ensures Refines(w, d, m[t.id := Reloaded(w, t)])
  {
    hide ReadAt, HasThread, FolderName, Committed, Untouched, WellFormed, Legible, Lawful, Reloaded;
    var f := FolderName(w, t.id);
    var next := m[t.id := Reloaded(w, t)];
    ReadCommitted(w, d, f, t);
    forall id | id in next
      ensures next[id].id == id && ReadAt(w, d, FolderName(w, id)) == Ok(Some(next[id]))
    {
      if id != t.id {
        UntouchedReads(w, base, d, f, FolderName(w, id));
      }
    }
    forall g | HasThread(d, g)
      ensures exists id :: id in next && FolderName(w, id) == g
    {
      if g == f {
        assert t.id in next;
      } else {
        UntouchedReads(w, base, d, f, g);
        var id :| id in m && FolderName(w, id) == g;
        assert id in next;
      }
    }
  }

  /**
   Crash atomicity: whatever state of a save the disk is left in, it refines
   either the map from before the save or the map with the saved conversation.
   */
  lemma CrashAtomicity(w: World, images: iset<Bytes>, ids: iset<string>,
                       base: Disk, d: Disk, m: map<string, Thread>, t: Thread)
    requires Lawful(w) && CollisionFree(w, images, ids) && WellFormed(t) && Legible(w, t)
    requires Refines(w, base, m) && t.id in ids && forall id :: id in m ==> id in ids
    requires OldOrNew(w, base, d, FolderName(w, t.id), t)
    ensures SameOrSaved(w, d, m, t)
    ensures var now := ReadAt(w, d, FolderName(w, t.id));
            now == ReadAt(w, base, FolderName(w, t.id)) || now == Ok(Some(Reloaded(w, t)))
  {
    var f := FolderName(w, t.id);
    if Grew(w, Moved(t.messages), View(base, f), View(d, f)) {
      GrewRefines(w, base, d, m, t);
      if HasThread(base, f) {
        var id :| id in m && FolderName(w, id) == f;
      } else {
        UnreadableHasNoThread(w, base, f);
      }
      ReadGrew(w, Moved(t.messages), base, d, f);
    } else {
      CommittedRefines(w, images, ids, base, d, m, t);
    }
  }

  lemma RemovedRefines(w: World, images: iset<Bytes>, ids: iset<string>, d: Disk, m: map<string, Thread>, id: string)
    requires CollisionFree(w, images, ids) && id in ids && forall k :: k in m ==> k in ids
    requires Refines(w, d, m) && Intact(w, images, d)
    ensures Refines(w, d - {FolderName(w, id)}, m - {id}) && Intact(w, images, d - {FolderName(w, id)})
  {
    var f := FolderName(w, id);
    var e := d - {f};
    assert Untouched(d, e, f) by { assert e - {f} == e; }
    forall k | k in m - {id}
      ensures ReadAt(w, e, FolderName(w, k)) == Ok(Some(m[k]))
    {
      UntouchedReads(w, d, e, f, FolderName(w, k));
    }
    forall g | HasThread(e, g)
      ensures exists k :: k in m - {id} && FolderName(w, k) == g
    {
      assert HasThread(d, g);
      var k :| k in m && FolderName(w, k) == g;
      assert k in m - {id};
    }
    forall g, n | g in e && n in View(e, g).attachments
      ensures Authentic(w, images, n, View(e, g).attachments[n])
    {
      assert View(e, g) == View(d, g);
    }
  }

  /** What deleting an id finds in its folder. */
  lemma StoredUnderId(w: World, d: Disk, m: map<string, Thread>, id: string)
    requires Refines(w, d, m) && id in m
    ensures m[id].id == id
  {
  }

  // What deleting answers for a folder that reads as a conversation of the id, or as none.
  lemma VerdictOfReading(w: World, d: Disk, id: string)
    ensures var f, r := FolderName(w, id), DeleteVerdict(w, d, id);
            match ReadAt(w, d, f)
            case Ok(Some(t)) => t.id == id ==> r == Deleted
            case Ok(None) => r == if f in d then Refused(NoConversationFile) else Absent
            case Err(_) => true
  {
    hide ReadFolder, FolderName;
  }

  lemma FolderOfId(w: World, images: iset<Bytes>, ids: iset<string>, d: Disk, m: map<string, Thread>, id: string)
    requires CollisionFree(w, images, ids) && id in ids && forall k :: k in m ==> k in ids
    requires Refines(w, d, m)
    ensures ReadAt(w, d, FolderName(w, id)) == if id in m then Ok(Some(m[id])) else Ok(None)
    ensures HasThread(d, FolderName(w, id)) <==> id in m
  {
    var f := FolderName(w, id);
    if HasThread(d, f) {
      var k :| k in m && FolderName(w, k) == f;
    } else {
      UnreadableHasNoThread(w, d, f);
    }
  }

  function IdOf(value: Json): Option<string> {
    if value.Obj? && "id" in value.fields && value.fields["id"].Str? then Some(value.fields["id"].s)
    else None
  }

  // The map after importing one value: a new id is added, a stored one is left alone.
  ghost function ImportedOne(w: World, m: map<string, Thread>, value: Json): map<string, Thread> {
    match FromValue(value)
    case None => m
    case Some(t) => if t.id in m then m else m[t.id := Reloaded(w, t)]
  }

  /** The map after importing a list of values. */
  ghost function Imported(w: World, m: map<string, Thread>, values: seq<Json>): map<string, Thread>
    decreases |values|
  {
    if values == [] then m
    else ImportedOne(w, Imported(w, m, values[..|values| - 1]), values[|values| - 1])
  }

  lemma {:induction false} ImportedStep(w: World, m: map<string, Thread>, values: seq<Json>, k: nat)
    requires k < |values|
    ensures Imported(w, m, values[..k + 1]) == ImportedOne(w, Imported(w, m, values[..k]), values[k])
  {
    hide ImportedOne;
    assert values[..k + 1][..k] == values[..k];
  }

  lemma {:induction false} ImportedNone(w: World, m: map<string, Thread>, values: seq<Json>)
    ensures Imported(w, m, values[..0]) == m && values[..|values|] == values
  {
  }

  lemma IdOfValue(value: Json)
    ensures FromValue(value).Some? ==> IdOf(value) == Some(FromValue(value).value.id)
  {
  }

  predicate Includes(m: map<string, Thread>, n: map<string, Thread>) {
    forall id :: id in m ==> id in n && n[id] == m[id]
  }

  // Every conversation of a list is in the map.
  predicate Holds(m: map<string, Thread>, values: seq<Json>) {
    forall k :: 0 <= k < |values| && FromValue(values[k]).Some? ==> FromValue(values[k]).value.id in m
  }

  /** An import adds entries and keeps every entry, and importing again adds none. */
  lemma {:induction false} ImportKeeps(w: World, m: map<string, Thread>, values: seq<Json>)
    ensures Includes(m, Imported(w, m, values)) && Holds(Imported(w, m, values), values)
    ensures Imported(w, Imported(w, m, values), values) == Imported(w, m, values)
    decreases |values|
  {
    hide FromValue, Reloaded;
    if values != [] {
      ImportKeeps(w, m, values[..|values| - 1]);
    }
    ImportKnown(w, Imported(w, m, values), values);
  }

  lemma {:induction false} ImportKnown(w: World, m: map<string, Thread>, values: seq<Json>)
    requires Holds(m, values)
    ensures Imported(w, m, values) == m
    decreases |values|
  {
    hide FromValue, Reloaded;
    if values != [] {
      ImportKnown(w, m, values[..|values| - 1]);
    }
  }

  // A state that an import passes through: the disk shows the map after some of the values.
  ghost predicate PartlyImported(w: World, images: iset<Bytes>, d: Disk, m: map<string, Thread>, values: seq<Json>) {
    Intact(w, images, d) && exists k :: 0 <= k <= |values| && Refines(w, d, Imported(w, m, values[..k]))
  }

  lemma {:induction false} SavePartlyImports(w: World, images: iset<Bytes>, d: Disk,
                                             m: map<string, Thread>, values: seq<Json>, k: nat)
    requires k < |values| && Intact(w, images, d) && FromValue(values[k]).Some?
    requires var t := FromValue(values[k]).value;
             t.id !in Imported(w, m, values[..k]) && SameOrSaved(w, d, Imported(w, m, values[..k]), t)
    ensures PartlyImported(w, images, d, m, values)
  {
    hide Intact, Refines, FromValue, Reloaded, Imported;
    ImportedStep(w, m, values, k);
    assert Refines(w, d, Imported(w, m, values[..k])) || Refines(w, d, Imported(w, m, values[..k + 1]));
  }

  class Conversations {
    const world: World
    const fs: FileSystem
    // The contents and ids this store ever meets, on which SHA-256 does not collide.
    ghost const images: iset<Bytes>
    ghost const ids: iset<string>
    // The stored conversations by id.
    ghost var stored: map<string, Thread>

    ghost predicate Valid()
      reads this, fs
    {
      fs.Current() && Lawful(world) && CollisionFree(world, images, ids)
      && (forall id :: id in stored ==> id in ids)
      && Refines(world, fs.disk, stored) && Intact(world, images, fs.disk)
    }

    /** Opens the store on whatever a clean shutdown or a crash left behind. */
    constructor (w: World, found: Disk, ghost images: iset<Bytes>, ghost ids: iset<string>,
                 ghost found0: map<string, Thread>)
      requires Lawful(w) && CollisionFree(w, images, ids) && forall id :: id in found0 ==> id in ids
      requires Refines(w, found, found0) && Intact(w, images, found)
      ensures Valid() && stored == found0 && fs.disk == found
      ensures world == w && this.images == images && this.ids == ids && fresh(fs)
    {
      world := w;
      fs := new FileSystem(found);
      this.images := images;
      this.ids := ids;
      stored := found0;
    }

    // The values the refinement speaks about: those that can be read after they were saved.
    ghost predicate Savable(value: Json) {
      FromValue(value).Some? ==>
        var t := FromValue(value).value;
        Legible(world, t) && Known(t, images) && t.id in ids
    }

    /**
     Saves a conversation. The map changes in one entry or not at all, and in
     every state of the save a crash leaves the old map or the new one.
     */
    method Save(value: Json, limits: Limits) returns (r: Outcome)
      requires Valid() && Savable(value)
      requires limits.imageBytes <= MAX_IMAGE_BYTES && limits.threadBytes <= MAX_THREAD_BYTES
      modifies this, fs
      ensures Valid() && old(fs.trail) <= fs.trail
      ensures r != Failed(WriteFailed) ==> r == Verdict(world, value, limits)
      ensures r == Failed(InvalidConversation) <==> !(value.Obj? && HasShape(value.fields))
      ensures r.Done? ==> FromValue(value).Some?
                          && stored == old(stored)[FromValue(value).value.id := Reloaded(world, FromValue(value).value)]
      ensures r.Failed? ==> stored == old(stored)
      ensures FromValue(value).None? ==> fs.trail == old(fs.trail)
      ensures FromValue(value).Some? ==> forall i :: |old(fs.trail)| <= i < |fs.trail| ==>
                SameOrSaved(world, fs.trail[i], old(stored), FromValue(value).value)
                && Intact(world, images, fs.trail[i])
    {
      if value.Obj? { ShapeIsRead(value.fields); }
      var parsed := FromValue(value);
      if parsed.None? { return Failed(InvalidConversation); }
      var t := parsed.value;
      ghost var base, f := fs.disk, FolderName(world, t.id);
      IntactIsClashless(world, images, ids, base, f, t);
      r := SaveThread(world, fs, t, limits);
      forall i | |old(fs.trail)| <= i < |fs.trail|
        ensures SameOrSaved(world, fs.trail[i], old(stored), t) && Intact(world, images, fs.trail[i])
      {
        CrashAtomicity(world, images, ids, base, fs.trail[i], stored, t);
        SaveKeepsIntact(world, images, base, fs.trail[i], f, t);
      }
      SaveKeepsIntact(world, images, base, fs.disk, f, t);
      if r.Done? {
        CommittedRefines(world, images, ids, base, fs.disk, stored, t);
        stored := stored[t.id := Reloaded(world, t)];
      } else {
        GrewRefines(world, base, fs.disk, stored, t);
      }
    }

    /** Deletes a stored conversation, and nothing that it cannot read as one. */
    method Delete(id: string) returns (r: Deletion)
      requires Valid() && id in ids
      modifies this, fs
      ensures Valid() && stored == old(stored) - {id}
      ensures r.Deleted? <==> id in old(stored)
      ensures r.Absent? ==> fs.disk == old(fs.disk) && FolderName(world, id) !in fs.disk
      ensures r.Refused? ==> fs.disk == old(fs.disk) && r.reason == NoConversationFile
    {
      hide Refines, Intact, CollisionFree, Lawful, ReadAt, FolderName, DeleteVerdict, DeletesAsWritten, NewerAt;
      if id in stored { StoredUnderId(world, fs.disk, stored, id); }
      VerdictOfReading(world, fs.disk, id);
      RemovedRefines(world, images, ids, fs.disk, stored, id);
      FolderOfId(world, images, ids, fs.disk, stored, id);
      r := DeleteFolder(world, fs, id);
      if !r.Deleted? {
        assert stored - {id} == stored;
      }
      stored := stored - {id};
    }

    /**
     Imports conversations that are not stored yet. Every state it passes through,
     and the one it stops in, is the map after some of the values; a complete import
     adds exactly the first conversation of each new id.
     */
    method Import(values: seq<Json>, limits: Limits) returns (r: Result<nat, Reason>)
      requires Valid() && forall k :: 0 <= k < |values| ==>
                 Savable(values[k]) && (IdOf(values[k]).Some? ==> IdOf(values[k]).value in ids)
      requires limits.imageBytes <= MAX_IMAGE_BYTES && limits.threadBytes <= MAX_THREAD_BYTES
      modifies this, fs
      ensures Valid() && Includes(old(stored), stored)
      ensures r.Ok? ==> stored == Imported(world, old(stored), values) && |stored| == |old(stored)| + r.value
      ensures r.Err? ==> exists k :: 0 <= k < |values| && stored == Imported(world, old(stored), values[..k])
      ensures old(fs.trail) <= fs.trail
      ensures forall i :: |old(fs.trail)| <= i < |fs.trail| ==>
                PartlyImported(world, images, fs.trail[i], old(stored), values)
    {
      hide Imported, Refines, Intact, CollisionFree, ReadAt, HasThread, FolderName, Reloaded, Legible, Known,
           FromValue, IdOf, Verdict, PartlyImported, SameOrSaved;
      var imported := 0;
      ImportedNone(world, stored, values);
      for k := 0 to |values|
        invariant Valid() && Includes(old(stored), stored)
        invariant stored == Imported(world, old(stored), values[..k])
        invariant |stored| == |old(stored)| + imported
        invariant old(fs.trail) <= fs.trail
        invariant forall i :: |old(fs.trail)| <= i < |fs.trail| ==>
                    PartlyImported(world, images, fs.trail[i], old(stored), values)
      {
        label Turn:
        ImportedStep(world, old(stored), values, k);
        IdOfValue(values[k]);
        var id := IdOf(values[k]);
        if id.None? { return Err(MissingId); }
        FolderOfId(world, images, ids, fs.disk, stored, id.value);
        if HasThread(fs.disk, FolderName(world, id.value)) { continue; }
        var saved := Save(values[k], limits);
        forall i | |old@Turn(fs.trail)| <= i < |fs.trail|
          ensures PartlyImported(world, images, fs.trail[i], old(stored), values)
        {
          SavePartlyImports(world, images, fs.trail[i], old(stored), values, k);
        }
        if saved.Failed? { return Err(saved.reason); }
        imported := imported + 1;
      }
      r := Ok(imported);
    }

    /** Removes everything. */
    method Clear()
      requires Valid()
      modifies this, fs
      ensures Valid() && stored == map[] && fs.disk == map[]
    {
      ClearAll(fs);
      stored := map[];
    }

    /** What loading shows is exactly the map, each conversation once, and no warning. */
    method LoadAll() returns (threads: seq<Thread>, warnings: set<string>)
      requires Valid()
      ensures warnings == {}
      ensures forall i :: 0 <= i < |threads| ==> threads[i].id in stored && stored[threads[i].id] == threads[i]
      ensures forall i, j :: 0 <= i < j < |threads| ==> threads[i].id != threads[j].id
      ensures forall id :: id in stored ==> exists i :: 0 <= i < |threads| && threads[i] == stored[id]
    {
      ghost var order;
      threads, warnings, order := Load(world, fs);
      forall f | f in fs.disk
        ensures !Reported(world, fs.disk, f)
        ensures Listed(world, fs.disk, f) ==>
                  var t := ThreadOf(world, fs.disk, f);
                  t.id in stored && stored[t.id] == t && FolderName(world, t.id) == f
      {
        ListedIsStored(world, fs.disk, stored, f);
      }
      forall id | id in stored
        ensures exists i :: 0 <= i < |threads| && threads[i] == stored[id]
      {
        StoredIsListed(world, fs.disk, stored, id);
        var i :| 0 <= i < |order| && order[i] == FolderName(world, id);
        assert threads[i] == stored[id];
      }
    }
  }

  lemma ListedIsStored(w: World, d: Disk, m: map<string, Thread>, f: string)
    requires Refines(w, d, m) && f in d
    ensures !Reported(w, d, f)
    ensures Listed(w, d, f) ==>
              var t := ThreadOf(w, d, f);
              t.id in m && m[t.id] == t && FolderName(w, t.id) == f
  {
    if HasThread(d, f) {
      var id :| id in m && FolderName(w, id) == f;
    }
  }

  lemma StoredIsListed(w: World, d: Disk, m: map<string, Thread>, id: string)
    requires Refines(w, d, m) && id in m
    ensures Listed(w, d, FolderName(w, id)) && ThreadOf(w, d, FolderName(w, id)) == m[id]
  {
    if FolderName(w, id) !in d {
      UnreadableHasNoThread(w, d, FolderName(w, id));
    }
  }
}
