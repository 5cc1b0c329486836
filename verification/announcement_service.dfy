/** The announcement service's three writes, each run inside one database
    transaction and paired with files on disk: the uploaded files of a
    request are already on disk when the service runs, a failed write
    removes them again, and the files of deleted attachments are removed
    only after the transaction has committed.

    The model's world is the database (announcements, attachments and
    users), the set of paths present on disk, and the unit of work. Faults
    are injected: `failAt` names the repository call (counted from 0 within
    one operation) that throws `cause`, and `unlinkFails` are the paths the
    file system refuses to remove. */
module AnnouncementService {
  import opened Common
  import opened Errors
  import opened Text
  import opened Users
  import UserRepository
  import opened UnitOfWork
  import opened Upload

  datatype Announcement = Announcement(id: Id, title: string, description: string, attachments: seq<Id>, authorId: Id)

  /** The record kept for one uploaded file. */
  datatype Attachment = Attachment(
    id: Id,
    fileName: string,
    savedName: string,
    filePath: string,
    contentType: string,
    fileExtension: string)

  datatype Store = Store(announcements: seq<Announcement>, attachments: seq<Attachment>, users: seq<User>)

  datatype World = World(db: Store, files: set<string>, uow: Uow<Store>)

  datatype Faults = Faults(failAt: Option<nat>, cause: Thrown, unlinkFails: set<string>)

  /** Title and description of a new or replaced announcement. */
  datatype AnnouncementInput = AnnouncementInput(title: string, description: string)

  /** An operation's result, the world afterwards, and whether its
      transaction committed. */
  datatype Outcome<T> = Outcome(result: Result<T>, world: World, committed: bool)

  /** What the work inside a transaction produced, and the database as the
      work left it (including the writes made before a failure). */
  datatype Work<T> = Work(result: Result<T>, db: Store)

  datatype Cleanup = Cleanup(result: Result<()>, files: set<string>)

  function CreationFailure(): Thrown {
    ServerError("AnnouncementCreationFailure", "Fail to create a new announcement")
  }

  function UpdateFailure(): Thrown {
    ServerError("AnnouncementUpdateFailure", "Failed to update the announcement")
  }

  function CleanupFailure(): Thrown {
    ServerError("AppServerError", "Fail to delete uploads")
  }

  function AnnouncementNotFound(id: Id): Thrown {
    NotFoundError("Announcement", "Announcement with id " + id + " not found")
  }

  /** The document validator's refusal (a required field missing or empty). */
  function ValidationFailed(model: string): Thrown {
    MongooseValidation(model + " validation failed")
  }

  /** True when the injected fault hits repository call `step`. */
  predicate Throws(f: Faults, step: nat) {
    f.failAt == Some(step)
  }

  /** No injected fault among the repository calls `lo` up to `hi - 1`. */
  predicate Quiet(f: Faults, lo: nat, hi: nat) {
    f.failAt.None? || f.failAt.value < lo || hi <= f.failAt.value
  }

  /** The attachment record written for an uploaded file; its extension is
      the last dot-separated piece of the client's file name. */
  function AttachmentOf(id: Id, file: UploadedFile): Attachment {
    Attachment(id, file.originalname, file.filename, file.path, file.mimetype, LastSegment(file.originalname, '.'))
  }

  /** The validator's required fields: an empty string counts as missing. */
  predicate Storable(a: Attachment) {
    a.fileName != "" && a.savedName != "" && a.filePath != ""
    && a.contentType != "" && a.fileExtension != ""
  }

  /** Every file yields a record the validator accepts. */
  predicate AllStorable(files: seq<UploadedFile>, ids: seq<Id>)
    requires |ids| == |files|
    decreases |files|
  {
    |files| == 0 || (Storable(AttachmentOf(ids[0], files[0])) && AllStorable(files[1..], ids[1..]))
  }

  /** The attachment records of `files`, file by file. */
  function Records(files: seq<UploadedFile>, ids: seq<Id>): (r: seq<Attachment>)
    requires |ids| == |files|
    ensures |r| == |files|
    ensures forall i :: 0 <= i < |r| ==> r[i] == AttachmentOf(ids[i], files[i])
    decreases |files|
  {
    if |files| == 0 then [] else [AttachmentOf(ids[0], files[0])] + Records(files[1..], ids[1..])
  }

  function UploadPaths(files: seq<UploadedFile>): (r: seq<string>)
    ensures |r| == |files|
    ensures forall i :: 0 <= i < |r| ==> r[i] == files[i].path
    decreases |files|
  {
    if |files| == 0 then [] else [files[0].path] + UploadPaths(files[1..])
  }

  function IdsOf(atts: seq<Attachment>): (r: seq<Id>)
    ensures |r| == |atts|
    decreases |atts|
  {
    if |atts| == 0 then [] else [atts[0].id] + IdsOf(atts[1..])
  }

  function PathsOf(atts: seq<Attachment>): (r: seq<string>)
    ensures |r| == |atts|
    ensures forall i :: 0 <= i < |r| ==> r[i] == atts[i].filePath
    decreases |atts|
  {
    if |atts| == 0 then [] else [atts[0].filePath] + PathsOf(atts[1..])
  }

  predicate Distinct<T(==)>(s: seq<T>) {
    forall i, j :: 0 <= i < j < |s| ==> s[i] != s[j]
  }

  /** Position of the announcement with this id. */
  function FindAnnouncement(anns: seq<Announcement>, id: Id): Option<nat> {
    FirstIndex(anns, (a: Announcement) => a.id == id)
  }

  /** The first attachment record with this id, as a list of zero or one. */
  function FirstWithId(store: seq<Attachment>, id: Id): (r: seq<Attachment>)
    ensures |r| <= 1
    ensures forall a :: a in r ==> a in store && a.id == id
    ensures id in IdsOf(store) ==> |r| == 1
  {
    IdsHeld(store, id);
    match FirstIndex(store, (a: Attachment) => a.id == id)
    case None => []
    case Some(k) => [store[k]]
  }

  /** An id is among a list's ids exactly when some record carries it. */
  lemma {:induction false} IdsHeld(store: seq<Attachment>, id: Id)
    ensures id in IdsOf(store) <==> exists j :: 0 <= j < |store| && store[j].id == id
    decreases |store|
  {
    if |store| > 0 {
      IdsHeld(store[1..], id);
      if id in IdsOf(store[1..]) {
        var j :| 0 <= j < |store[1..]| && store[1..][j].id == id;
        assert store[j + 1].id == id;
      }
      if exists j :: 0 <= j < |store| && store[j].id == id {
        var j :| 0 <= j < |store| && store[j].id == id;
        if j > 0 { assert store[1..][j - 1].id == id; }
      }
    }
  }

  /** Population of an attachment reference list: the first record for each
      referenced id, in reference order; dangling references are dropped. */
  function Populate(store: seq<Attachment>, ids: seq<Id>): (r: seq<Attachment>)
    ensures forall a :: a in r ==> a in store && a.id in ids
    decreases |ids|
  {
    if |ids| == 0 then []
    else FirstWithId(store, ids[0]) + Populate(store, ids[1..])
  }

  /** Every referenced id that has a record is populated. */
  lemma {:induction false} PopulateKeepsPresent(store: seq<Attachment>, ids: seq<Id>, id: Id)
    requires id in ids && id in IdsOf(store)
    ensures id in IdsOf(Populate(store, ids))
    decreases |ids|
  {
    var head := FirstWithId(store, ids[0]);
    var rest := Populate(store, ids[1..]);
    IdsConcat(head, rest);
    if id == ids[0] {
      assert head[0].id == id;
    } else {
      assert id in ids[1..];
      PopulateKeepsPresent(store, ids[1..], id);
    }
  }

  lemma {:induction false} IdsConcat(a: seq<Attachment>, b: seq<Attachment>)
    ensures IdsOf(a + b) == IdsOf(a) + IdsOf(b)
    decreases |a|
  {
    if |a| > 0 {
      assert (a + b)[1..] == a[1..] + b;
      IdsConcat(a[1..], b);
    } else {
      assert a + b == b;
    }
  }

  /** Every record except those carrying `id` (a delete by id). */
  function WithoutId(s: seq<Attachment>, id: Id): (r: seq<Attachment>)
    ensures forall a :: a in r <==> a in s && a.id != id
    decreases |s|
  {
    if |s| == 0 then []
    else
      assert forall a :: a in s <==> a == s[0] || a in s[1..];
      (if s[0].id == id then [] else [s[0]]) + WithoutId(s[1..], id)
  }

  /** `cleanUpFiles`: every path is attempted; a path is removed when it is
      on disk and the file system does not refuse, and the call fails when
      any attempt failed (a path listed twice fails the second time). */
  function CleanUpFiles(files: set<string>, paths: seq<string>, failing: set<string>): (r: Cleanup)
    ensures r.files == files - (set p | p in paths && p !in failing)
    ensures r.result.Ok? <==> Distinct(paths) && forall i :: 0 <= i < |paths| ==> paths[i] in files && paths[i] !in failing
    ensures r.result.Err? ==> r.result.error == CleanupFailure()
    decreases |paths|
  {
    if |paths| == 0 then Cleanup(Ok(()), files)
    else
      var p := paths[0];
      var removed := p in files && p !in failing;
      var rest := CleanUpFiles(if removed then files - {p} else files, paths[1..], failing);
      assert forall i :: 1 <= i < |paths| ==> paths[i] == paths[1..][i - 1];
      assert forall q :: q in paths <==> q == p || q in paths[1..];
      Cleanup(if removed && rest.result.Ok? then Ok(()) else Err(CleanupFailure()), rest.files)
  }

  /** The attachment records of `files`, one repository call each starting
      at call `step`, in file order. */
  function CreateAttachments(db: Store, files: seq<UploadedFile>, ids: seq<Id>, step: nat, f: Faults): (w: Work<seq<Id>>)
    requires |ids| == |files|
    ensures w.db.announcements == db.announcements && w.db.users == db.users
    ensures w.result.Err? ==> w.result.error == f.cause || w.result.error == ValidationFailed("Attachment")
    ensures w.result.Ok? <==> Quiet(f, step, step + |files|) && AllStorable(files, ids)
    ensures w.result.Ok? ==> w.result.value == ids && w.db.attachments == db.attachments + Records(files, ids)
    decreases |files|
  {
    if |files| == 0 then Work(Ok([]), db)
    else if Throws(f, step) then Work(Err(f.cause), db)
    else
      var a := AttachmentOf(ids[0], files[0]);
      if !Storable(a) then Work(Err(ValidationFailed("Attachment")), db)
      else
        var rest := CreateAttachments(db.(attachments := db.attachments + [a]), files[1..], ids[1..], step + 1, f);
        RecordsStep(db.attachments, files, ids);
        match rest.result
        case Err(_) => rest
        case Ok(saved) => Work(Ok([ids[0]] + saved), rest.db)
  }

  /** The records of a non-empty file list: the first file's record, then
      the records of the rest. */
  lemma {:induction false} RecordsStep(pre: seq<Attachment>, files: seq<UploadedFile>, ids: seq<Id>)
    requires |ids| == |files| > 0
    ensures pre + [AttachmentOf(ids[0], files[0])] + Records(files[1..], ids[1..]) == pre + Records(files, ids)
  {
    var a := AttachmentOf(ids[0], files[0]);
    var rest := Records(files[1..], ids[1..]);
    assert Records(files, ids) == [a] + rest;
    assert pre + [a] + rest == pre + ([a] + rest);
  }

  /** Deletes the given attachment records, one repository call each
      starting at call `step`, collecting their file paths. */
  function DeleteAttachments(db: Store, atts: seq<Attachment>, step: nat, f: Faults): (w: Work<seq<string>>)
    ensures w.db.announcements == db.announcements && w.db.users == db.users
    ensures w.result.Err? ==> w.result.error == f.cause
    ensures w.result.Ok? <==> Quiet(f, step, step + |atts|)
    ensures w.result.Ok? ==> w.result.value == PathsOf(atts)
    ensures w.result.Ok? ==> forall a :: a in w.db.attachments <==> a in db.attachments && a.id !in IdsOf(atts)
    decreases |atts|
  {
    if |atts| == 0 then Work(Ok([]), db)
    else if Throws(f, step) then Work(Err(f.cause), db)
    else
      var db1 := db.(attachments := WithoutId(db.attachments, atts[0].id));
      var rest := DeleteAttachments(db1, atts[1..], step + 1, f);
      match rest.result
      case Err(_) => rest
      case Ok(paths) => Work(Ok([atts[0].filePath] + paths), rest.db)
  }

  /** The repository calls of `createAnnouncement`: one per file, then the
      author lookup, the announcement insert, the author update and the
      population of the author. */
  function CreateWork(db: Store, dto: AnnouncementInput, files: seq<UploadedFile>, userId: Id,
                      attachmentIds: seq<Id>, announcementId: Id, f: Faults): (w: Work<Announcement>)
    requires |attachmentIds| == |files|
    ensures w.result.Ok? <==>
              Quiet(f, 0, |files| + 4)
              && AllStorable(files, attachmentIds)
              && UserRepository.FindById(db.users, userId).Some?
              && dto.title != "" && dto.description != ""
    ensures w.result.Ok? ==>
              w.result.value == Announcement(announcementId, dto.title, dto.description, attachmentIds, userId)
              && w.db == Store(db.announcements + [w.result.value],
                               db.attachments + Records(files, attachmentIds),
                               UserRepository.AddAnnouncement(db.users, userId, announcementId).users)
  {
    var saved := CreateAttachments(db, files, attachmentIds, 0, f);
    match saved.result
    case Err(e) => Work(Err(e), saved.db)
    case Ok(ids) => Publish(saved.db, dto, userId, ids, announcementId, |files|, f)
  }

  /** The calls of `createAnnouncement` after the attachments, starting at
      call `step`: the author lookup, the announcement insert (which needs an
      author and a non-empty title and description), the author update and
      the population of the author. */
  function Publish(db: Store, dto: AnnouncementInput, userId: Id, ids: seq<Id>, announcementId: Id,
                   step: nat, f: Faults): (w: Work<Announcement>)
    ensures w.result.Ok? <==>
              Quiet(f, step, step + 4) && UserRepository.FindById(db.users, userId).Some?
              && dto.title != "" && dto.description != ""
    ensures !Throws(f, step) && !Throws(f, step + 1)
            && (UserRepository.FindById(db.users, userId).None? || dto.title == "" || dto.description == "") ==>
              w == Work(Err(ValidationFailed("Announcement")), db)
    ensures w.result.Ok? ==>
              w.result.value == Announcement(announcementId, dto.title, dto.description, ids, userId)
              && w.db == Store(db.announcements + [w.result.value], db.attachments,
                               UserRepository.AddAnnouncement(db.users, userId, announcementId).users)
  {
    if Throws(f, step) then Work(Err(f.cause), db)
    else
      var author := UserRepository.FindById(db.users, userId);
      if Throws(f, step + 1) then Work(Err(f.cause), db)
      else if author.None? || dto.title == "" || dto.description == "" then
        Work(Err(ValidationFailed("Announcement")), db)
      else
        Record(db, Announcement(announcementId, dto.title, dto.description, ids, author.value.id), step + 2, f)
  }

  /** What follows a successful announcement insert: the author update,
      call `step`, and the population of the author, call `step + 1`. The
      inserted announcement stays in the database a failure leaves behind;
      undoing it is the transaction's business. */
  function Record(db: Store, ann: Announcement, step: nat, f: Faults): (w: Work<Announcement>)
    ensures w.result.Ok? <==> Quiet(f, step, step + 2)
    ensures w.result.Ok? ==>
              w.result.value == ann
              && w.db == Store(db.announcements + [ann], db.attachments,
                               UserRepository.AddAnnouncement(db.users, ann.authorId, ann.id).users)
  {
    var db2 := db.(announcements := db.announcements + [ann]);
    if Throws(f, step) then Work(Err(f.cause), db2)
    else
      var db3 := db2.(users := UserRepository.AddAnnouncement(db2.users, ann.authorId, ann.id).users);
      if Throws(f, step + 1) then Work(Err(f.cause), db3)
      else Work(Ok(ann), db3)
  }

  /** `createAnnouncement`: all the writes commit together, or the database
      is rolled back, every uploaded file is removed, and the failure is
      reported as the creation failure whatever caused it; only a failure
      of that clean-up itself escapes instead. */
  function CreateAnnouncement(w: World, dto: AnnouncementInput, files: seq<UploadedFile>, userId: Id,
                              attachmentIds: seq<Id>, announcementId: Id, f: Faults): (r: Outcome<Announcement>)
    requires |attachmentIds| == |files|
    ensures r.result.Ok? <==> r.committed
    ensures r.result.Ok? <==>
              Quiet(f, 0, |files| + 4)
              && AllStorable(files, attachmentIds)
              && UserRepository.FindById(w.db.users, userId).Some?
              && dto.title != "" && dto.description != ""
    ensures r.result.Ok? ==>
              var ann := r.result.value;
              ann.attachments == attachmentIds && ann.authorId == userId && ann.id == announcementId
              && ann.title == dto.title && ann.description == dto.description
              && r.world.db.announcements == w.db.announcements + [ann]
              && r.world.db.attachments == w.db.attachments + Records(files, attachmentIds)
              && r.world.db.users == UserRepository.AddAnnouncement(w.db.users, userId, announcementId).users
              && r.world.files == w.files
    ensures r.result.Err? ==> r.world.db == w.db
    ensures r.result.Err? ==> r.world.files == w.files - (set p | p in UploadPaths(files) && p !in f.unlinkFails)
    ensures r.result.Err? ==>
              (r.result.error == CreationFailure() <==> CleanUpFiles(w.files, UploadPaths(files), f.unlinkFails).result.Ok?)
              && (r.result.error == CreationFailure() || r.result.error == CleanupFailure())
    ensures r.world.uow.session.Some? && r.world.uow.session.value.state == (if r.committed then Committed else Aborted)
  {
    var u := Start(w.uow, w.db);
    var work := CreateWork(w.db, dto, files, userId, attachmentIds, announcementId, f);
    match work.result
    case Ok(ann) =>
      var c := Commit(u, work.db);
      Outcome(Ok(ann), World(c.db, w.files, c.uow), true)
    case Err(_) =>
      var rb := Rollback(u, work.db);
      var clean := CleanUpFiles(w.files, UploadPaths(files), f.unlinkFails);
      Outcome(if clean.result.Err? then Err(clean.result.error) else Err(CreationFailure()),
              World(rb.db, clean.files, rb.uow), false)
  }

  /** The repository calls of `deleteAnnouncementById`: the delete itself,
      one per populated attachment, then the author update. */
  function DeleteWork(db: Store, id: Id, f: Faults): (w: Work<seq<string>>)
    ensures Throws(f, 0) ==> w == Work(Err(f.cause), db)
    ensures !Throws(f, 0) && FindAnnouncement(db.announcements, id).None? ==> w == Work(Err(AnnouncementNotFound(id)), db)
    ensures !Throws(f, 0) && FindAnnouncement(db.announcements, id).Some? ==>
              w == DeleteFound(db, FindAnnouncement(db.announcements, id).value, id, f)
  {
    if Throws(f, 0) then Work(Err(f.cause), db)
    else
      match FindAnnouncement(db.announcements, id)
      case None => Work(Err(AnnouncementNotFound(id)), db)
      case Some(k) => DeleteFound(db, k, id, f)
  }

  /** The calls of `deleteAnnouncementById` once the announcement at
      position `k` has been deleted: one per populated attachment, then the
      author update. */
  function DeleteFound(db: Store, k: nat, id: Id, f: Faults): (w: Work<seq<string>>)
    requires k < |db.announcements| && !Throws(f, 0)
    ensures w.result.Ok? <==> Quiet(f, 0, |Populate(db.attachments, db.announcements[k].attachments)| + 2)
    ensures w.result.Err? ==> w.result.error == f.cause
    ensures w.result.Ok? ==> w.result.value == PathsOf(Populate(db.attachments, db.announcements[k].attachments))
    ensures w.result.Ok? ==> w.db.announcements == RemoveAt(db.announcements, k)
    ensures w.result.Ok? ==>
      var atts := Populate(db.attachments, db.announcements[k].attachments);
      forall a :: a in w.db.attachments <==> a in db.attachments && a.id !in IdsOf(atts)
    ensures w.result.Ok? ==>
      w.db.users == UserRepository.RemoveAnnouncement(db.users, db.announcements[k].authorId, id).users
  {
    DeleteStepsOutcome(db, k, id, f);
    DeleteStepsWrites(db, k, id, f);
    DeleteSteps(db, k, id, f)
  }

  /** The calls themselves: the attachment deletes from call 1 on, then the
      author update. */
  function DeleteSteps(db: Store, k: nat, id: Id, f: Faults): Work<seq<string>>
    requires k < |db.announcements|
  {
    var ann := db.announcements[k];
    var atts := Populate(db.attachments, ann.attachments);
    var del := DeleteAttachments(db.(announcements := RemoveAt(db.announcements, k)), atts, 1, f);
    UnlinkAuthor(del, ann.authorId, id, |atts| + 1, f)
  }

  /** When the delete calls succeed, and what a failure reports. */
  lemma {:induction false} DeleteStepsOutcome(db: Store, k: nat, id: Id, f: Faults)
    requires k < |db.announcements| && !Throws(f, 0)
    ensures DeleteSteps(db, k, id, f).result.Ok? <==>
              Quiet(f, 0, |Populate(db.attachments, db.announcements[k].attachments)| + 2)
    ensures DeleteSteps(db, k, id, f).result.Err? ==> DeleteSteps(db, k, id, f).result.error == f.cause
  {
    QuietFramed(f, |Populate(db.attachments, db.announcements[k].attachments)|);
  }

  /** What the delete calls write when they succeed. */
  lemma {:induction false} DeleteStepsWrites(db: Store, k: nat, id: Id, f: Faults)
    requires k < |db.announcements|
    ensures var w := DeleteSteps(db, k, id, f);
      w.result.Ok? ==> w.result.value == PathsOf(Populate(db.attachments, db.announcements[k].attachments))
    ensures var w := DeleteSteps(db, k, id, f);
      w.result.Ok? ==> w.db.announcements == RemoveAt(db.announcements, k)
    ensures var w := DeleteSteps(db, k, id, f);
      w.result.Ok? ==>
        var atts := Populate(db.attachments, db.announcements[k].attachments);
        forall a :: a in w.db.attachments <==> a in db.attachments && a.id !in IdsOf(atts)
    ensures var w := DeleteSteps(db, k, id, f);
      w.result.Ok? ==> w.db.users == UserRepository.RemoveAnnouncement(db.users, db.announcements[k].authorId, id).users
  {
  }

  /** The last call of a delete, `step`: the author update, once the
      attachment deletes have gone through. */
  function UnlinkAuthor(del: Work<seq<string>>, authorId: Id, id: Id, step: nat, f: Faults): (w: Work<seq<string>>)
    ensures w.result.Ok? <==> del.result.Ok? && !Throws(f, step)
    ensures w.result.Err? ==> w.db == del.db && (w.result == del.result || w.result == Err(f.cause))
    ensures w.result.Ok? ==> w.result == del.result
    ensures w.result.Ok? ==> w.db.announcements == del.db.announcements && w.db.attachments == del.db.attachments
    ensures w.result.Ok? ==> w.db.users == UserRepository.RemoveAnnouncement(del.db.users, authorId, id).users
  {
    match del.result
    case Err(e) => Work(Err(e), del.db)
    case Ok(paths) =>
      if Throws(f, step) then Work(Err(f.cause), del.db)
      else Work(Ok(paths), del.db.(users := UserRepository.RemoveAnnouncement(del.db.users, authorId, id).users))
  }

  /** The fault window of a delete: its first call, the `n` attachment
      deletes, and the author update. */
  lemma {:induction false} QuietFramed(f: Faults, n: nat)
    ensures Quiet(f, 0, n + 2) <==> !Throws(f, 0) && Quiet(f, 1, 1 + n) && !Throws(f, n + 1)
  {
  }

  /** `deleteAnnouncementById`: a failure before the commit rolls back,
      leaves every file in place and re-raises the original error; after the
      commit the attachments' files are removed, and a failure of that
      removal leads to a rollback of the committed transaction, which the
      driver refuses. */
  function DeleteAnnouncement(w: World, id: Id, f: Faults): (r: Outcome<()>)
    ensures r.committed <==> DeleteWork(w.db, id, f).result.Ok?
    ensures !r.committed ==> r.result.Err? && r.world.db == w.db && r.world.files == w.files
    ensures !r.committed ==> r.result.error == AnnouncementNotFound(id) || r.result.error == f.cause
    ensures !Throws(f, 0) && FindAnnouncement(w.db.announcements, id).None? ==>
              r == Outcome(Err(AnnouncementNotFound(id)), World(w.db, w.files, r.world.uow), false)
    ensures r.committed ==>
              var paths := DeleteWork(w.db, id, f).result.value;
              r.world.db == DeleteWork(w.db, id, f).db
              && r.world.files == w.files - (set p | p in paths && p !in f.unlinkFails)
              && (r.result.Ok? <==> CleanUpFiles(w.files, paths, f.unlinkFails).result.Ok?)
              && (r.result.Err? ==> r.result.error == EndedTransaction())
  {
    var u := Start(w.uow, w.db);
    var work := DeleteWork(w.db, id, f);
    match work.result
    case Err(e) =>
      var rb := Rollback(u, work.db);
      Outcome(Err(e), World(rb.db, w.files, rb.uow), false)
    case Ok(paths) =>
      var c := Commit(u, work.db);
      var clean := CleanUpFiles(w.files, paths, f.unlinkFails);
      match clean.result
      case Ok(_) => Outcome(Ok(()), World(c.db, clean.files, c.uow), true)
      case Err(_) =>
        var rb := Rollback(c.uow, c.db);
        Outcome(Err(rb.result.error), World(rb.db, clean.files, rb.uow), true)
  }

  /** The repository calls of `updateAnnouncement`: the populated lookup,
      one per new file, one per old attachment, the update and the
      population of the author. */
  function UpdateWork(db: Store, id: Id, dto: AnnouncementInput, files: seq<UploadedFile>,
                      attachmentIds: seq<Id>, f: Faults): (w: Work<(Announcement, seq<string>)>)
    requires |attachmentIds| == |files|
    ensures w.result.Ok? <==>
              FindAnnouncement(db.announcements, id).Some?
              && var k := FindAnnouncement(db.announcements, id).value;
              Quiet(f, 0, |files| + |Populate(db.attachments, db.announcements[k].attachments)| + 3)
              && AllStorable(files, attachmentIds) && dto.title != "" && dto.description != ""
    ensures w.result.Ok? ==>
              FindAnnouncement(db.announcements, id).Some?
              && var k := FindAnnouncement(db.announcements, id).value;
              var olds := Populate(db.attachments, db.announcements[k].attachments);
              var ann := w.result.value.0;
              ann == db.announcements[k].(title := dto.title, description := dto.description, attachments := attachmentIds)
              && w.result.value.1 == PathsOf(olds)
              && w.db.announcements == db.announcements[k := ann]
              && (forall a :: a in w.db.attachments <==>
                    (a in db.attachments || a in Records(files, attachmentIds)) && a.id !in IdsOf(olds))
              && w.db.users == db.users
  {
    if Throws(f, 0) then Work(Err(f.cause), db)
    else
      match FindAnnouncement(db.announcements, id)
      case None => Work(Err(AnnouncementNotFound(id)), db)
      case Some(k) =>
        var olds := Populate(db.attachments, db.announcements[k].attachments);
        var saved := CreateAttachments(db, files, attachmentIds, 1, f);
        match saved.result
        case Err(e) => Work(Err(e), saved.db)
        case Ok(newIds) => Rewrite(saved.db, k, olds, newIds, dto, |files| + 1, f)
  }

  /** The calls of `updateAnnouncement` after the new attachments, starting
      at call `step`: one delete per old attachment, the update of the
      announcement at position `k` (which needs a non-empty title and
      description) and the population of the author. */
  function Rewrite(db: Store, k: nat, olds: seq<Attachment>, newIds: seq<Id>, dto: AnnouncementInput,
                   step: nat, f: Faults): (w: Work<(Announcement, seq<string>)>)
    requires k < |db.announcements|
    ensures w.result.Ok? <==> Quiet(f, step, step + |olds| + 2) && dto.title != "" && dto.description != ""
    ensures w.result.Ok? ==>
              var ann := db.announcements[k].(title := dto.title, description := dto.description, attachments := newIds);
              w.result.value == (ann, PathsOf(olds))
              && w.db.announcements == db.announcements[k := ann]
              && (forall a :: a in w.db.attachments <==> a in db.attachments && a.id !in IdsOf(olds))
              && w.db.users == db.users
  {
    var del := DeleteAttachments(db, olds, step, f);
    match del.result
    case Err(e) => Work(Err(e), del.db)
    case Ok(oldPaths) =>
      var next := step + |olds|;
      if Throws(f, next) then Work(Err(f.cause), del.db)
      else if dto.title == "" || dto.description == "" then Work(Err(ValidationFailed("Announcement")), del.db)
      else
        var updated := db.announcements[k].(title := dto.title, description := dto.description, attachments := newIds);
        var db3 := del.db.(announcements := del.db.announcements[k := updated]);
        if Throws(f, next + 1) then Work(Err(f.cause), db3)
        else Work(Ok((updated, oldPaths)), db3)
  }

  /** `updateAnnouncement`: a failure before the commit rolls back, removes
      the newly uploaded files and is reported as the update failure, even
      for an unknown id; after the commit the old attachments' files are
      removed, and a failure of that removal ends in the driver's refusal
      to roll back a committed transaction. */
  function UpdateAnnouncement(w: World, id: Id, dto: AnnouncementInput, files: seq<UploadedFile>,
                              attachmentIds: seq<Id>, f: Faults): (r: Outcome<Announcement>)
    requires |attachmentIds| == |files|
    ensures r.committed <==> UpdateWork(w.db, id, dto, files, attachmentIds, f).result.Ok?
    ensures FindAnnouncement(w.db.announcements, id).None? ==> !r.committed
    ensures !r.committed ==>
              r.result.Err? && r.world.db == w.db
              && r.world.files == w.files - (set p | p in UploadPaths(files) && p !in f.unlinkFails)
              && (r.result.error == UpdateFailure() <==> CleanUpFiles(w.files, UploadPaths(files), f.unlinkFails).result.Ok?)
              && (r.result.error == UpdateFailure() || r.result.error == CleanupFailure())
    ensures r.committed ==>
              var work := UpdateWork(w.db, id, dto, files, attachmentIds, f);
              var oldPaths := work.result.value.1;
              r.world.db == work.db
              && r.world.files == w.files - (set p | p in oldPaths && p !in f.unlinkFails)
              && (r.result.Ok? <==> CleanUpFiles(w.files, oldPaths, f.unlinkFails).result.Ok?)
              && (r.result.Ok? ==> r.result.value == work.result.value.0)
              && (r.result.Err? ==> r.result.error == EndedTransaction())
  {
    var u := Start(w.uow, w.db);
    var work := UpdateWork(w.db, id, dto, files, attachmentIds, f);
    match work.result
    case Ok(done) =>
      var (ann, oldPaths) := done;
      var c := Commit(u, work.db);
      var clean := CleanUpFiles(w.files, oldPaths, f.unlinkFails);
      if clean.result.Ok? then Outcome(Ok(ann), World(c.db, clean.files, c.uow), true)
      else
        var rb := Rollback(c.uow, c.db);
        Outcome(Err(rb.result.error), World(rb.db, clean.files, rb.uow), true)
    case Err(_) =>
      var rb := Rollback(u, work.db);
      var clean := CleanUpFiles(w.files, UploadPaths(files), f.unlinkFails);
      Outcome(if clean.result.Err? then Err(clean.result.error) else Err(UpdateFailure()),
              World(rb.db, clean.files, rb.uow), false)
  }

  /** Deleting an unknown announcement is a 404, while updating one is a
      500 carrying the update failure (or the clean-up failure). */
  lemma {:induction false} UnknownIdStatuses(w: World, id: Id, dto: AnnouncementInput, files: seq<UploadedFile>,
                          attachmentIds: seq<Id>, f: Faults)
    requires |attachmentIds| == |files|
    requires FindAnnouncement(w.db.announcements, id).None? && !Throws(f, 0)
    ensures HandleError(DeleteAnnouncement(w, id, f).result.error) ==
              Response(404, CodeMessage("AnnouncementNotFound", "Announcement with id " + id + " not found"))
    ensures HandleError(UpdateAnnouncement(w, id, dto, files, attachmentIds, f).result.error).status == 500
  {
    assert "Announcement" + DefaultName(ObjectNotFound) == "AnnouncementNotFound";
  }

  /** The first record carrying `id` sits at position `k`. */
  lemma {:induction false} FirstWithIdAt(store: seq<Attachment>, id: Id, k: nat)
    requires k < |store| && store[k].id == id
    requires forall j :: 0 <= j < k ==> store[j].id != id
    ensures FirstWithId(store, id) == [store[k]]
  {
    FirstIndexAt(store, (a: Attachment) => a.id == id, k);
  }

  lemma {:induction false} IdsAt(atts: seq<Attachment>, i: nat)
    requires i < |atts|
    ensures IdsOf(atts)[i] == atts[i].id
    decreases i
  {
    if i > 0 {
      IdsAt(atts[1..], i - 1);
    }
  }

  /** Records appended under distinct fresh ids are populated back, in order. */
  lemma {:induction false} PopulateFresh(base: seq<Attachment>, recs: seq<Attachment>, ids: seq<Id>)
    requires IdsOf(recs) == ids
    requires Distinct(ids)
    requires forall i :: 0 <= i < |ids| ==> ids[i] !in IdsOf(base)
    ensures Populate(base + recs, ids) == recs
  {
    forall i | 0 <= i < |ids| ensures FirstWithId(base + recs, ids[i]) == [recs[i]] {
      FreshFound(base, recs, ids, i);
    }
    PopulateFound(base + recs, recs, ids);
  }

  /** When each reference finds its record, population yields exactly
      those records. */
  lemma {:induction false} PopulateFound(store: seq<Attachment>, recs: seq<Attachment>, ids: seq<Id>)
    requires |recs| == |ids|
    requires forall i :: 0 <= i < |ids| ==> FirstWithId(store, ids[i]) == [recs[i]]
    ensures Populate(store, ids) == recs
    decreases |ids|
  {
    if |ids| > 0 {
      forall i | 0 <= i < |ids| - 1 ensures FirstWithId(store, ids[1..][i]) == [recs[1..][i]] {
        assert ids[1..][i] == ids[i + 1] && recs[1..][i] == recs[i + 1];
      }
      PopulateFound(store, recs[1..], ids[1..]);
      PopulateCons(store, ids);
      assert recs == [recs[0]] + recs[1..];
    }
  }

  /** Population of a non-empty reference list, one reference at a time. */
  lemma {:induction false} PopulateCons(store: seq<Attachment>, ids: seq<Id>)
    requires |ids| > 0
    ensures Populate(store, ids) == FirstWithId(store, ids[0]) + Populate(store, ids[1..])
  {
  }

  /** The `j`-th fresh id finds the `j`-th appended record. */
  lemma {:induction false} FreshFound(base: seq<Attachment>, recs: seq<Attachment>, ids: seq<Id>, j: nat)
    requires IdsOf(recs) == ids && j < |ids|
    requires Distinct(ids)
    requires ids[j] !in IdsOf(base)
    ensures FirstWithId(base + recs, ids[j]) == [recs[j]]
  {
    var store := base + recs;
    var id := ids[j];
    IdsHeld(base, id);
    forall x | 0 <= x < |base| + j ensures store[x].id != id {
      if x < |base| {
        assert store[x] == base[x];
      } else {
        assert store[x] == recs[x - |base|];
        IdsAt(recs, x - |base|);
      }
    }
    assert store[|base| + j] == recs[j];
    IdsAt(recs, j);
    FirstWithIdAt(store, id, |base| + j);
  }

  lemma {:induction false} RecordPaths(files: seq<UploadedFile>, ids: seq<Id>)
    requires |ids| == |files|
    ensures PathsOf(Records(files, ids)) == UploadPaths(files)
    ensures IdsOf(Records(files, ids)) == ids
    decreases |files|
  {
    if |files| > 0 {
      RecordPaths(files[1..], ids[1..]);
      assert ids == [ids[0]] + ids[1..];
    }
  }

  /** The delete's repository work on a database that holds a just-created
      announcement undoes that creation. */
  lemma {:induction false} DeleteAfterCreate(base: Store, db: Store, ann: Announcement, recs: seq<Attachment>, g: Faults)
    requires db == Store(base.announcements + [ann], base.attachments + recs,
                         UserRepository.AddAnnouncement(base.users, ann.authorId, ann.id).users)
    requires FindAnnouncement(base.announcements, ann.id).None?
    requires IdsOf(recs) == ann.attachments
    requires Distinct(ann.attachments) && forall i :: 0 <= i < |recs| ==> ann.attachments[i] !in IdsOf(base.attachments)
    requires forall i :: 0 <= i < |base.users| ==> ann.id !in base.users[i].announcements
    requires Quiet(g, 0, |recs| + 2)
    ensures var work := DeleteWork(db, ann.id, g);
      work.result == Ok(PathsOf(recs))
      && work.db.announcements == base.announcements
      && work.db.users == base.users
      && forall a :: a in work.db.attachments <==> a in base.attachments
  {
    var k := |base.announcements|;
    AppendedFound(base.announcements, ann);
    assert db.announcements[k] == ann;
    PopulateFresh(base.attachments, recs, ann.attachments);
    UserRepository.AddThenRemoveAnnouncement(base.users, ann.authorId, ann.id);
    var work := DeleteFound(db, k, ann.id, g);
    assert work == DeleteWork(db, ann.id, g);
    FreshRecordsRemoved(base.attachments, recs, work.db.attachments);
  }

  /** An announcement appended under a fresh id is found at the end, and
      removing it there gives back the earlier list. */
  lemma {:induction false} AppendedFound(anns: seq<Announcement>, ann: Announcement)
    requires FindAnnouncement(anns, ann.id).None?
    ensures FindAnnouncement(anns + [ann], ann.id) == Some(|anns|)
    ensures RemoveAt(anns + [ann], |anns|) == anns
  {
    var all := anns + [ann];
    forall j | 0 <= j < |anns| ensures all[j].id != ann.id {
      assert all[j] == anns[j];
    }
    FirstIndexAt(all, (a: Announcement) => a.id == ann.id, |anns|);
  }

  /** Removing every record whose id is among the appended fresh records'
      ids leaves the original records. */
  lemma {:induction false} FreshRecordsRemoved(base: seq<Attachment>, recs: seq<Attachment>, after: seq<Attachment>)
    requires forall i :: 0 <= i < |recs| ==> IdsOf(recs)[i] !in IdsOf(base)
    requires forall a :: a in after <==> a in base + recs && a.id !in IdsOf(recs)
    ensures forall a :: a in after <==> a in base
  {
    forall a ensures a in after <==> a in base {
      if a in base {
        IdsHeld(base, a.id);
        assert forall i :: 0 <= i < |recs| ==> IdsOf(recs)[i] != a.id;
      }
      if a in recs {
        var i :| 0 <= i < |recs| && recs[i] == a;
        IdsAt(recs, i);
      }
    }
  }

  /** Deleting an announcement right after creating it undoes the creation:
      the announcements, the authors' lists and the attachment records are
      as before, and exactly the uploaded files that the file system lets go
      are removed from disk. The ids the database handed out are fresh. */
  lemma {:induction false} CreateThenDelete(w: World, dto: AnnouncementInput, files: seq<UploadedFile>, userId: Id,
                         attachmentIds: seq<Id>, announcementId: Id, f: Faults, g: Faults)
    requires |attachmentIds| == |files|
    requires CreateAnnouncement(w, dto, files, userId, attachmentIds, announcementId, f).result.Ok?
    requires FindAnnouncement(w.db.announcements, announcementId).None?
    requires Distinct(attachmentIds) && forall i :: 0 <= i < |files| ==> attachmentIds[i] !in IdsOf(w.db.attachments)
    requires forall i :: 0 <= i < |w.db.users| ==> announcementId !in w.db.users[i].announcements
    requires Quiet(g, 0, |files| + 2)
    ensures var made := CreateAnnouncement(w, dto, files, userId, attachmentIds, announcementId, f).world;
      var gone := DeleteAnnouncement(made, announcementId, g);
      gone.committed
      && gone.world.db.announcements == w.db.announcements
      && gone.world.db.users == w.db.users
      && (forall a :: a in gone.world.db.attachments <==> a in w.db.attachments)
      && gone.world.files == w.files - (set p | p in UploadPaths(files) && p !in g.unlinkFails)
  {
    var made := CreateAnnouncement(w, dto, files, userId, attachmentIds, announcementId, f);
    var ann := made.result.value;
    var recs := Records(files, attachmentIds);
    RecordPaths(files, attachmentIds);
    assert ann.id == announcementId && ann.authorId == userId && ann.attachments == attachmentIds;
    assert made.world.files == w.files;
    DeleteAfterCreate(w.db, made.world.db, ann, recs, g);
    DeleteCommitted(made.world, announcementId, g, UploadPaths(files));
  }

  /** A delete whose repository work succeeds commits, and removes the
      collected files that the file system lets go. */
  lemma {:induction false} DeleteCommitted(w: World, id: Id, g: Faults, paths: seq<string>)
    requires DeleteWork(w.db, id, g).result == Ok(paths)
    ensures var gone := DeleteAnnouncement(w, id, g);
      gone.committed && gone.world.db == DeleteWork(w.db, id, g).db
      && gone.world.files == w.files - (set p | p in paths && p !in g.unlinkFails)
  {
  }
}
