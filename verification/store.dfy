/**
 * The database of db/init.js: the `posts` and `images` tables with the
 * integrity rules their schema declares (NOT NULL, CHECK, AUTOINCREMENT,
 * foreign keys with `PRAGMA foreign_keys = ON`, ON DELETE CASCADE), and the
 * result semantics of `queryOne` and `execute`. The status column also gets
 * the NOT NULL its CHECK evidently relies on (`StatusColumn`), which the
 * declared column lacks (`StatusCheckAsWritten`). The delete and the image
 * insert also appear as a connection without foreign keys runs them, which
 * is what every `save` leaves behind.
 */
module Store {
  import opened Wrappers
  import opened Table

  datatype Status = Draft | Published
  datatype Mode = Initial | Blend | Iterate

  /** A row of `posts`; `title` is NOT NULL, `body` and `cover_image` are nullable. */
  datatype Post = Post(
    id: int,
    title: string,
    body: Option<string>,
    coverImage: Option<string>,
    status: Status,
    createdAt: nat,
    updatedAt: nat)

  /** A row of `images`; `file_path` is NOT NULL, the two references are nullable. */
  datatype Image = Image(
    id: int,
    postId: Option<int>,
    filePath: string,
    prompt: Option<string>,
    parentImageId: Option<int>,
    mode: Mode,
    createdAt: nat)

  /**
   * The whole database: the two tables, each table's AUTOINCREMENT high-water
   * mark (its `sqlite_sequence` entry), the connection's `last_insert_rowid()`,
   * and the time `datetime('now')` reads.
   */
  datatype Db = Db(
    posts: map<int, Post>,
    images: map<int, Image>,
    postSeq: nat,
    imageSeq: nat,
    lastInsertRowid: int,
    clock: nat)

  /** A freshly created database file: empty tables, nothing inserted yet. */
  const Empty := Db(map[], map[], 0, 0, 0, 0)

  function StatusText(s: Status): string {
    match s
    case Draft => "draft"
    case Published => "published"
  }

  /** CHECK(status IN ('draft','published')) applied to a non-null value. */
  function ParseStatus(t: string): (r: Option<Status>)
    ensures r.Some? <==> t == "draft" || t == "published"
    ensures r.Some? ==> StatusText(r.value) == t
  {
    if t == "draft" then Some(Draft)
    else if t == "published" then Some(Published)
    else None
  }

  function ModeText(m: Mode): string {
    match m
    case Initial => "initial"
    case Blend => "blend"
    case Iterate => "iterate"
  }

  /** CHECK(mode IN ('initial','blend','iterate')) applied to a non-null value. */
  function ParseMode(t: string): (r: Option<Mode>)
    ensures r.Some? <==> t == "initial" || t == "blend" || t == "iterate"
    ensures r.Some? ==> ModeText(r.value) == t
  {
    if t == "initial" then Some(Initial)
    else if t == "blend" then Some(Blend)
    else if t == "iterate" then Some(Iterate)
    else None
  }

  /**
   * The status CHECK as SQL evaluates it on a nullable value: `NULL IN (...)`
   * is NULL, and a CHECK fails only on false, so NULL passes.
   */
  predicate StatusCheckAsWritten(v: Option<string>) {
    match v
    case None => true
    case Some(t) => t == "draft" || t == "published"
  }

  /** The status column as the corrected schema has it: NOT NULL as well as CHECK. */
  function StatusColumn(v: Option<string>): (r: Option<Status>)
    ensures r.Some? ==> v.Some? && StatusText(r.value) == v.value
    ensures r.None? <==> v.None? || !StatusCheckAsWritten(v)
  {
    match v
    case None => None
    case Some(t) => ParseStatus(t)
  }

  /** NULL passes the status CHECK as written, but the corrected column refuses it. */
  lemma NullStatusPassesCheckAsWritten()
    ensures StatusCheckAsWritten(None)
    ensures StatusColumn(None).None?
  {
  }

  ghost predicate PostsWellFormed(db: Db) {
    forall k :: k in db.posts ==>
      && db.posts[k].id == k
      && 1 <= k <= db.postSeq
      && db.posts[k].createdAt <= db.posts[k].updatedAt <= db.clock
  }

  ghost predicate ImagesWellFormed(db: Db) {
    forall k :: k in db.images ==>
      && db.images[k].id == k
      && 1 <= k <= db.imageSeq
      && db.images[k].createdAt <= db.clock
  }

  /** images.post_id REFERENCES posts(id): no image points at a missing post. */
  ghost predicate OwnersExist(db: Db) {
    forall k :: k in db.images && db.images[k].postId.Some? ==> db.images[k].postId.value in db.posts
  }

  /**
   * images.parent_image_id REFERENCES images(id): every parent link names an
   * existing image that is older or the image itself. SQLite's check of an
   * insert into a table that references itself counts a row naming its own
   * id as its parent as satisfied, so a self-parented image can be stored.
   */
  ghost predicate LineageClosed(db: Db) {
    forall k :: k in db.images && db.images[k].parentImageId.Some? ==>
      db.images[k].parentImageId.value in db.images && db.images[k].parentImageId.value <= k
  }

  /** The lineage as it is evidently meant: every parent is strictly older, so the links form a forest. */
  ghost predicate Forest(db: Db) {
    forall k :: k in db.images && db.images[k].parentImageId.Some? ==> db.images[k].parentImageId.value < k
  }

  ghost predicate Valid(db: Db) {
    PostsWellFormed(db) && ImagesWellFormed(db) && OwnersExist(db) && LineageClosed(db)
  }

  /** Counters and the clock never move backwards. */
  ghost predicate Monotone(before: Db, after: Db) {
    before.postSeq <= after.postSeq && before.imageSeq <= after.imageSeq && before.clock <= after.clock
  }

  datatype DbError = NotNullFailed | CheckFailed | ForeignKeyFailed

  /** What `execute` reports: `{ lastInsertRowid, changes }`. */
  datatype Changes = Changes(lastInsertRowid: int, changes: nat)

  /** A statement that ran: its report and the database after it. */
  datatype Executed = Executed(info: Changes, db: Db)

  /** The statements the route handlers issue, with their bound parameters. */
  datatype Statement =
    | InsertPostStmt(title: string, body: string, coverImage: Option<string>, status: string)
    | UpdatePostStmt(id: Option<int>, setTitle: Option<string>, setBody: Option<string>,
                     setCoverImage: Option<string>, setStatus: Option<string>)
    | DeletePostStmt(id: Option<int>)
    | InsertImageStmt(postId: Option<int>, filePath: string, prompt: Option<string>,
                      parentImageId: Option<int>, mode: string)

  /** Time passes: `datetime('now')` reads a later value from now on. */
  function Tick(db: Db, dt: nat): (r: Db)
    requires Valid(db)
    ensures Valid(r) && Monotone(db, r)
    ensures r.clock == db.clock + dt
    ensures r.posts == db.posts && r.images == db.images
  {
    db.(clock := db.clock + dt)
  }

  /** INSERT INTO posts (title, body, cover_image, status) VALUES (?, ?, ?, ?). */
  function InsertPost(db: Db, title: string, body: string, coverImage: Option<string>, status: string)
    : (r: Result<Executed, DbError>)
    requires Valid(db)
    ensures r.Err? <==> ParseStatus(status).None?
    ensures r.Err? ==> r.error == CheckFailed
    ensures r.Ok? ==>
      var id := r.value.info.lastInsertRowid;
      && r.value.info.changes == 1
      && id == db.postSeq + 1
      && (forall k :: k in db.posts ==> k < id)
      && r.value.db == db.(posts := db.posts[id := Post(id, title, Some(body), coverImage,
                                                         ParseStatus(status).value, db.clock, db.clock)],
                           postSeq := id, lastInsertRowid := id)
      && Valid(r.value.db) && Monotone(db, r.value.db)
  {
    match ParseStatus(status)
    case None => Err(CheckFailed)
    case Some(s) =>
      var id := db.postSeq + 1;
      var row := Post(id, title, Some(body), coverImage, s, db.clock, db.clock);
      Ok(Executed(Changes(id, 1), db.(posts := db.posts[id := row], postSeq := id, lastInsertRowid := id)))
  }

  /**
   * UPDATE posts SET title, body, cover_image, status, updated_at = datetime('now')
   * WHERE id = ?. No matching row is zero changes, not an error, and then no
   * constraint is evaluated.
   */
  function UpdatePost(db: Db, id: Option<int>, title: Option<string>, body: Option<string>,
                      coverImage: Option<string>, status: Option<string>)
    : (r: Result<Executed, DbError>)
    requires Valid(db)
    ensures (id.None? || id.value !in db.posts) ==> r == Ok(Executed(Changes(db.lastInsertRowid, 0), db))
    ensures id.Some? && id.value in db.posts ==>
      (r.Err? <==> title.None? || StatusColumn(status).None?)
    ensures id.Some? && id.value in db.posts && r.Ok? ==> r.value.info.changes == 1
    ensures r.Ok? && r.value.info.changes == 1 ==>
      && id.Some? && id.value in db.posts && title.Some? && StatusColumn(status).Some?
      && r.value.db == db.(posts := db.posts[id.value := Post(id.value, title.value, body, coverImage,
                                      StatusColumn(status).value, db.posts[id.value].createdAt, db.clock)])
    ensures r.Ok? ==> Valid(r.value.db) && Monotone(db, r.value.db)
  {
    if id.None? || id.value !in db.posts then
      Ok(Executed(Changes(db.lastInsertRowid, 0), db))
    else if title.None? then
      Err(NotNullFailed)
    else match StatusColumn(status)
      case None => if status.None? then Err(NotNullFailed) else Err(CheckFailed)
      case Some(s) =>
        var existing := db.posts[id.value];
        var row := Post(id.value, title.value, body, coverImage, s, existing.createdAt, db.clock);
        Ok(Executed(Changes(db.lastInsertRowid, 1), db.(posts := db.posts[id.value := row])))
  }

  /** The images ON DELETE CASCADE removes together with post `id`. */
  function Cascade(db: Db, id: int): (doomed: set<int>)
    ensures forall k :: k in doomed <==> k in db.images && db.images[k].postId == Some(id)
  {
    set k | k in db.images && db.images[k].postId == Some(id)
  }

  /** Some image that survives the deletion of `doomed` has its parent among them. */
  predicate OrphansChild(db: Db, doomed: set<int>) {
    exists k :: k in db.images && k !in doomed && db.images[k].parentImageId.Some?
                && db.images[k].parentImageId.value in doomed
  }

  /**
   * DELETE FROM posts WHERE id = ?, with the cascade to its images. Foreign
   * keys are checked when the statement ends, so a parent link between two
   * cascaded images is fine, while a surviving image whose parent is
   * cascaded aborts the whole statement.
   */
  function DeletePost(db: Db, id: Option<int>): (r: Result<Executed, DbError>)
    requires Valid(db)
    ensures (id.None? || id.value !in db.posts) ==> r == Ok(Executed(Changes(db.lastInsertRowid, 0), db))
    ensures id.Some? && id.value in db.posts ==>
      (r.Err? <==> OrphansChild(db, Cascade(db, id.value)))
    ensures r.Err? ==> r.error == ForeignKeyFailed
    ensures id.Some? && id.value in db.posts && r.Ok? ==> r.value.info.changes == 1
    ensures r.Ok? && r.value.info.changes == 1 ==>
      && id.Some? && id.value in db.posts
      && r.value.db == db.(posts := db.posts - {id.value}, images := db.images - Cascade(db, id.value))
      && (forall k :: k in r.value.db.images <==> k in db.images && db.images[k].postId != id)
    ensures r.Ok? ==> Valid(r.value.db) && Monotone(db, r.value.db)
  {
    if id.None? || id.value !in db.posts then
      Ok(Executed(Changes(db.lastInsertRowid, 0), db))
    else
      var doomed := Cascade(db, id.value);
      if OrphansChild(db, doomed) then Err(ForeignKeyFailed)
      else
        Ok(Executed(Changes(db.lastInsertRowid, 1),
                    db.(posts := db.posts - {id.value}, images := db.images - doomed)))
  }

  /** INSERT INTO images (post_id, file_path, prompt, parent_image_id, mode) VALUES (...). */
  function InsertImage(db: Db, postId: Option<int>, filePath: string, prompt: Option<string>,
                       parentImageId: Option<int>, mode: string)
    : (r: Result<Executed, DbError>)
    requires Valid(db)
    ensures r.Err? <==>
      || ParseMode(mode).None?
      || (postId.Some? && postId.value !in db.posts)
      || (parentImageId.Some? && parentImageId.value !in db.images && parentImageId.value != db.imageSeq + 1)
    ensures r.Err? && ParseMode(mode).None? ==> r.error == CheckFailed
    ensures r.Err? && ParseMode(mode).Some? ==> r.error == ForeignKeyFailed
    ensures r.Ok? ==>
      var id := r.value.info.lastInsertRowid;
      && r.value.info.changes == 1
      && id == db.imageSeq + 1
      && (forall k :: k in db.images ==> k < id)
      && r.value.db == db.(images := db.images[id := Image(id, postId, filePath, prompt, parentImageId,
                                                           ParseMode(mode).value, db.clock)],
                           imageSeq := id, lastInsertRowid := id)
      && Valid(r.value.db) && Monotone(db, r.value.db)
  {
    match ParseMode(mode)
    case None => Err(CheckFailed)
    case Some(m) =>
      if postId.Some? && postId.value !in db.posts then Err(ForeignKeyFailed)
      else if parentImageId.Some? && parentImageId.value !in db.images && parentImageId.value != db.imageSeq + 1 then
        Err(ForeignKeyFailed)
      else
        var id := db.imageSeq + 1;
        var row := Image(id, postId, filePath, prompt, parentImageId, m, db.clock);
        Ok(Executed(Changes(id, 1), db.(images := db.images[id := row], imageSeq := id, lastInsertRowid := id)))
  }

  /**
   * The image insert as the lineage evidently intends it: a parent must be an
   * image that already exists, so a new image can never be its own parent.
   */
  function InsertImageInForest(db: Db, postId: Option<int>, filePath: string, prompt: Option<string>,
                               parentImageId: Option<int>, mode: string)
    : (r: Result<Executed, DbError>)
    requires Valid(db)
    ensures r.Err? <==>
      || ParseMode(mode).None?
      || (postId.Some? && postId.value !in db.posts)
      || (parentImageId.Some? && parentImageId.value !in db.images)
    ensures r.Err? && ParseMode(mode).None? ==> r.error == CheckFailed
    ensures r.Err? && ParseMode(mode).Some? ==> r.error == ForeignKeyFailed
    ensures r.Ok? ==> r == InsertImage(db, postId, filePath, prompt, parentImageId, mode)
    ensures r.Ok? && Forest(db) ==> Forest(r.value.db)
  {
    if ParseMode(mode).Some? && parentImageId.Some? && parentImageId.value !in db.images then Err(ForeignKeyFailed)
    else InsertImage(db, postId, filePath, prompt, parentImageId, mode)
  }

  /**
   * As SQLite checks the schema, an image inserted with the id it is about to
   * get as its parent is stored as its own parent, and the lineage stops being
   * a forest; the intended insert refuses it.
   */
  lemma SelfParentAccepted(db: Db, postId: Option<int>, filePath: string, prompt: Option<string>, mode: string)
    requires Valid(db) && ParseMode(mode).Some? && (postId.None? || postId.value in db.posts)
    ensures var r := InsertImage(db, postId, filePath, prompt, Some(db.imageSeq + 1), mode);
      && r.Ok?
      && db.imageSeq + 1 !in db.images
      && r.value.db.images[db.imageSeq + 1].parentImageId == Some(db.imageSeq + 1)
      && !Forest(r.value.db)
    ensures InsertImageInForest(db, postId, filePath, prompt, Some(db.imageSeq + 1), mode) == Err(ForeignKeyFailed)
  {
  }

  /*
   * The statements as the connection runs them once `save` has exported the
   * database: sql.js's export closes and re-opens the database, which puts
   * `foreign_keys` back to its default, off, and starts a connection whose
   * last inserted rowid is 0. `save` runs at the end of start-up and after
   * every statement, so every request meets such a connection.
   */

  /** DELETE FROM posts WHERE id = ? without foreign keys: nothing cascades and nothing fails. */
  function DeletePostUnenforced(db: Db, id: Option<int>): (r: Result<Executed, DbError>)
    ensures r.Ok? && r.value.info.lastInsertRowid == 0
    ensures r.value.info.changes == 1 <==> id.Some? && id.value in db.posts
    ensures r.value.db.posts.Keys == db.posts.Keys - (if id.Some? then {id.value} else {})
    ensures forall k :: k in r.value.db.posts ==> r.value.db.posts[k] == db.posts[k]
    ensures r.value.db.images == db.images
  {
    if id.Some? && id.value in db.posts then
      Ok(Executed(Changes(0, 1), db.(posts := db.posts - {id.value}, lastInsertRowid := 0)))
    else
      Ok(Executed(Changes(0, 0), db.(lastInsertRowid := 0)))
  }

  /** The image insert without foreign keys: only the mode's CHECK can refuse it. */
  function InsertImageUnenforced(db: Db, postId: Option<int>, filePath: string, prompt: Option<string>,
                                 parentImageId: Option<int>, mode: string)
    : (r: Result<Executed, DbError>)
    requires ImagesWellFormed(db)
    ensures r.Err? <==> ParseMode(mode).None?
    ensures r.Err? ==> r.error == CheckFailed
    ensures r.Ok? ==>
      var id := r.value.info.lastInsertRowid;
      && id == db.imageSeq + 1
      && (forall k :: k in db.images ==> k < id)
      && r.value.db.images.Keys == db.images.Keys + {id}
      && r.value.db.images[id].postId == postId
      && r.value.db.images[id].parentImageId == parentImageId
      && r.value.db.posts == db.posts
      && ImagesWellFormed(r.value.db)
    ensures Valid(db) && InsertImage(db, postId, filePath, prompt, parentImageId, mode).Ok? ==>
      r == InsertImage(db, postId, filePath, prompt, parentImageId, mode)
  {
    match ParseMode(mode)
    case None => Err(CheckFailed)
    case Some(m) =>
      var id := db.imageSeq + 1;
      var row := Image(id, postId, filePath, prompt, parentImageId, m, db.clock);
      Ok(Executed(Changes(id, 1), db.(images := db.images[id := row], imageSeq := id, lastInsertRowid := id)))
  }

  /**
   * With the foreign keys off, deleting a post that owns an image leaves that
   * image pointing at a post that is gone, where the schema's cascade removes
   * it; and deleting a post whose image is another post's image's parent
   * succeeds, where the schema refuses it.
   */
  lemma UnenforcedDeleteOrphans(db: Db, id: int, k: int)
    requires Valid(db) && id in db.posts && k in db.images && db.images[k].postId == Some(id)
    ensures var r := DeletePostUnenforced(db, Some(id));
      r.Ok? && k in r.value.db.images && !OwnersExist(r.value.db)
    ensures DeletePost(db, Some(id)).Ok? ==> k !in DeletePost(db, Some(id)).value.db.images
    ensures OrphansChild(db, Cascade(db, id)) ==>
      DeletePost(db, Some(id)) == Err(ForeignKeyFailed) && DeletePostUnenforced(db, Some(id)).Ok?
  {
  }

  /** With the foreign keys off, an image naming a missing post is stored; the schema refuses it. */
  lemma UnenforcedInsertDangles(db: Db, postId: int, filePath: string, prompt: Option<string>,
                                parentImageId: Option<int>, mode: string)
    requires Valid(db) && ParseMode(mode).Some? && postId !in db.posts
    ensures var r := InsertImageUnenforced(db, Some(postId), filePath, prompt, parentImageId, mode);
      r.Ok? && !OwnersExist(r.value.db)
    ensures InsertImage(db, Some(postId), filePath, prompt, parentImageId, mode) == Err(ForeignKeyFailed)
  {
  }

  /** The statement touches a row of its own: an insert always does, an update or delete when its id is stored. */
  predicate Matches(db: Db, stmt: Statement) {
    match stmt
    case InsertPostStmt(_, _, _, _) => true
    case UpdatePostStmt(id, _, _, _, _) => id.Some? && id.value in db.posts
    case DeletePostStmt(id) => id.Some? && id.value in db.posts
    case InsertImageStmt(_, _, _, _, _) => true
  }

  /**
   * `execute`: run one statement. A failed statement throws and changes
   * nothing; a successful one reports the rows it modified itself (cascaded
   * rows are not counted) and the connection's last inserted rowid.
   */
  function Execute(db: Db, stmt: Statement): (r: Result<Executed, DbError>)
    requires Valid(db)
    ensures r.Ok? ==> Valid(r.value.db) && Monotone(db, r.value.db)
    ensures r.Ok? ==> (r.value.info.changes == 1 <==> Matches(db, stmt))
    ensures r.Ok? ==> r.value.info.changes <= 1
    ensures r.Ok? && r.value.info.changes == 0 ==> r.value.db == db
    ensures r.Ok? && !stmt.InsertPostStmt? && !stmt.InsertImageStmt? ==>
      r.value.info.lastInsertRowid == db.lastInsertRowid
    ensures r.Ok? ==> r.value.info.lastInsertRowid == r.value.db.lastInsertRowid
  {
    match stmt
    case InsertPostStmt(title, body, cover, status) => InsertPost(db, title, body, cover, status)
    case UpdatePostStmt(id, title, body, cover, status) => UpdatePost(db, id, title, body, cover, status)
    case DeletePostStmt(id) => DeletePost(db, id)
    case InsertImageStmt(postId, path, prompt, parent, mode) => InsertImage(db, postId, path, prompt, parent, mode)
  }

  function PostId(p: Post): int { p.id }
  function ImageId(i: Image): int { i.id }

  /** `queryOne('SELECT * FROM posts WHERE id = ?', [id])`. */
  function FindPost(db: Db, id: Option<int>): (r: Option<Post>)
    requires Valid(db)
    ensures r.Some? <==> id.Some? && id.value in db.posts
    ensures r.Some? ==> r.value == db.posts[id.value]
  {
    QueryOneById(db.posts, PostId, id, 1, db.postSeq + 1)
  }

  /** `queryOne('SELECT * FROM images WHERE id = ?', [id])`. */
  function FindImage(db: Db, id: Option<int>): (r: Option<Image>)
    requires Valid(db)
    ensures r.Some? <==> id.Some? && id.value in db.images
    ensures r.Some? ==> r.value == db.images[id.value]
  {
    QueryOneById(db.images, ImageId, id, 1, db.imageSeq + 1)
  }
}
