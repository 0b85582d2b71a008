/** The post repository of routes/posts.js: one pure transition per route. */
module Posts {
  import opened Wrappers
  import opened Table
  import opened Store
  import opened Http

  /** The `{ title, body, cover_image, status }` of a POST or PUT body. */
  datatype PostFields = PostFields(title: Field, body: Field, coverImage: Field, status: Field)

  function NewestFirst(p: Post): int { -(p.createdAt as int) }
  function RecentlyUpdatedFirst(p: Post): int { -(p.updatedAt as int) }
  predicate IsPublished(p: Post) { p.status == Published }
  predicate IsDraft(p: Post) { p.status == Draft }

  /** GET /: the published posts, newest first. */
  function ListPublished(db: Db): (r: seq<Post>)
    requires Valid(db)
    ensures forall i :: 0 <= i < |r| ==>
              r[i].id in db.posts && db.posts[r[i].id] == r[i] && r[i].status == Published
    ensures forall k :: k in db.posts && db.posts[k].status == Published ==> db.posts[k] in r
    ensures NoDuplicates(r)
    ensures forall i, j :: 0 <= i < j < |r| ==> r[i].createdAt >= r[j].createdAt
  {
    Select(db.posts, PostId, IsPublished, NewestFirst, 1, db.postSeq + 1)
  }

  /** GET /drafts: the drafts, most recently updated first. */
  function ListDrafts(db: Db): (r: seq<Post>)
    requires Valid(db)
    ensures forall i :: 0 <= i < |r| ==>
              r[i].id in db.posts && db.posts[r[i].id] == r[i] && r[i].status == Draft
    ensures forall k :: k in db.posts && db.posts[k].status == Draft ==> db.posts[k] in r
    ensures NoDuplicates(r)
    ensures forall i, j :: 0 <= i < j < |r| ==> r[i].updatedAt >= r[j].updatedAt
  {
    Select(db.posts, PostId, IsDraft, RecentlyUpdatedFirst, 1, db.postSeq + 1)
  }

  /**
   * A stored post is listed as published exactly when its status is
   * published and as a draft exactly when it is a draft, so it is in exactly
   * one of the two listings.
   */
  lemma ListingsPartitionPosts(db: Db, k: int)
    requires Valid(db)
    requires k in db.posts
    ensures db.posts[k] in ListPublished(db) <==> db.posts[k].status == Published
    ensures db.posts[k] in ListDrafts(db) <==> db.posts[k].status == Draft
    ensures db.posts[k] in ListPublished(db) <==> db.posts[k] !in ListDrafts(db)
  {
  }

  /** GET /:id */
  function Get(db: Db, id: Option<int>): (r: Result<Post, Failure>)
    requires Valid(db)
    ensures r.Err? <==> id.None? || id.value !in db.posts
    ensures r.Err? ==> r.error == NotFound
    ensures r.Ok? ==> r.value == db.posts[id.value]
  {
    match FindPost(db, id)
    case None => Err(NotFound)
    case Some(p) => Ok(p)
  }

  /**
   * POST /: insert with every falsy field replaced by its default, then read
   * the row back by the inserted id. A status other than 'draft' or
   * 'published' makes the insert throw.
   */
  function Create(db: Db, f: PostFields): (r: Reply<Post>)
    requires Valid(db)
    ensures Valid(r.db) && Monotone(db, r.db)
    ensures r.result.Err? <==> ParseStatus(OrElse(f.status, "draft")).None?
    ensures r.result.Err? ==> r.result.error == StatementFailed(CheckFailed) && r.db == db
    ensures r.result.Ok? ==>
      var p := r.result.value;
      && p.id == db.postSeq + 1
      && (forall k :: k in db.posts ==> k < p.id)
      && p.title == OrElse(f.title, "Untitled")
      && p.body == Some(OrElse(f.body, ""))
      && p.coverImage == OrNull(f.coverImage)
      && StatusText(p.status) == OrElse(f.status, "draft")
      && p.createdAt == db.clock && p.updatedAt == db.clock
      && r.db == db.(posts := db.posts[p.id := p], postSeq := p.id, lastInsertRowid := p.id)
  {
    var stmt := InsertPostStmt(OrElse(f.title, "Untitled"), OrElse(f.body, ""),
                               OrNull(f.coverImage), OrElse(f.status, "draft"));
    match Execute(db, stmt)
    case Err(e) => Reply(Err(StatementFailed(e)), db)
    case Ok(x) =>
      var created := FindPost(x.db, Some(x.info.lastInsertRowid));
      Reply(Ok(created.value), x.db)
  }

  /** What create returns is what a later get of its id returns. */
  lemma CreateThenGet(db: Db, f: PostFields)
    requires Valid(db)
    ensures var r := Create(db, f);
      r.result.Ok? ==> Get(r.db, Some(r.result.value.id)) == Ok(r.result.value)
  {
  }

  /** An empty title counts as missing and becomes 'Untitled'. */
  lemma EmptyTitleBecomesUntitled(db: Db, body: Field, cover: Field, status: Field)
    requires Valid(db)
    ensures var r := Create(db, PostFields(Text(""), body, cover, status));
      r.result.Ok? ==> r.result.value.title == "Untitled"
  {
  }

  /**
   * PUT /:id: a sparse patch. A missing post is 404 and nothing is written;
   * otherwise each field that is present (even null or '') overwrites, each
   * missing field keeps its value, and updated_at becomes the current time.
   */
  function Update(db: Db, id: Option<int>, f: PostFields): (r: Reply<Post>)
    requires Valid(db)
    ensures Valid(r.db) && Monotone(db, r.db)
    ensures r.result.Err? ==> r.db == db
    ensures (id.None? || id.value !in db.posts) ==> r.result == Err(NotFound)
    ensures id.Some? && id.value in db.posts ==>
      (r.result.Err? <==> f.title.Null? || f.status.Null? || (f.status.Text? && ParseStatus(f.status.value).None?))
    ensures id.Some? && id.value in db.posts && r.result.Err? ==>
      r.result.error == (if f.title.Null? || f.status.Null? then StatementFailed(NotNullFailed)
                         else StatementFailed(CheckFailed))
    ensures r.result.Ok? ==>
      && id.Some? && id.value in db.posts
      && var before := db.posts[id.value];
      && var p := r.result.value;
      && p.id == before.id
      && p.createdAt == before.createdAt
      && p.updatedAt == db.clock
      && p.title == (if f.title.Text? then f.title.value else before.title)
      && p.body == Patch(f.body, before.body)
      && p.coverImage == Patch(f.coverImage, before.coverImage)
      && (f.status.Absent? ==> p.status == before.status)
      && (f.status.Text? ==> StatusText(p.status) == f.status.value)
      && r.db == db.(posts := db.posts[id.value := p])
  {
    match FindPost(db, id)
    case None => Reply(Err(NotFound), db)
    case Some(existing) =>
      var stmt := UpdatePostStmt(id, Patch(f.title, Some(existing.title)), Patch(f.body, existing.body),
                                 Patch(f.coverImage, existing.coverImage),
                                 Patch(f.status, Some(StatusText(existing.status))));
      match Execute(db, stmt)
      case Err(e) => Reply(Err(StatementFailed(e)), db)
      case Ok(x) =>
        var updated := FindPost(x.db, id);
        Reply(Ok(updated.value), x.db)
  }

  /** What update returns is what a later get of the id returns. */
  lemma UpdateThenGet(db: Db, id: Option<int>, f: PostFields)
    requires Valid(db)
    ensures var r := Update(db, id, f);
      r.result.Ok? ==> Get(r.db, id) == Ok(r.result.value)
  {
  }

  /** A PUT with an empty body changes nothing but the post's updated_at. */
  lemma EmptyPatchOnlyTouches(db: Db, id: int)
    requires Valid(db) && id in db.posts
    ensures var r := Update(db, Some(id), PostFields(Absent, Absent, Absent, Absent));
      && r.result == Ok(db.posts[id].(updatedAt := db.clock))
      && r.db == db.(posts := db.posts[id := db.posts[id].(updatedAt := db.clock)])
  {
  }

  /** A created post shows up in the listing its status selects, and in no other. */
  lemma CreatedPostListed(db: Db, f: PostFields)
    requires Valid(db)
    ensures var r := Create(db, f);
      r.result.Ok? ==>
        && (r.result.value in ListPublished(r.db) <==> OrElse(f.status, "draft") == "published")
        && (r.result.value in ListDrafts(r.db) <==> OrElse(f.status, "draft") == "draft")
  {
  }

  /*
   * The schema as written: the status column has a CHECK but no NOT NULL, and
   * a CHECK lets NULL through, so a stored row may have no status at all.
   */

  /** A row of `posts` as the schema as written can hold it. */
  datatype StoredPost = StoredPost(
    id: int,
    title: string,
    body: Option<string>,
    coverImage: Option<string>,
    status: Option<Status>,
    createdAt: nat,
    updatedAt: nat)

  function Stored(p: Post): StoredPost {
    StoredPost(p.id, p.title, p.body, p.coverImage, Some(p.status), p.createdAt, p.updatedAt)
  }

  /** The posts table with the nullable status column. */
  function StoredTable(db: Db): map<int, StoredPost> {
    map k | k in db.posts :: Stored(db.posts[k])
  }

  /** `WHERE status = s` on a nullable column: `NULL = s` is NULL, which WHERE treats as false. */
  predicate StatusIs(p: StoredPost, s: Status) {
    p.status == Some(s)
  }

  /** The ids the listing of status `s` selects from the stored rows. */
  function ListedAsWritten(rows: map<int, StoredPost>, s: Status): set<int> {
    set k | k in rows && StatusIs(rows[k], s)
  }

  /** On a table without NULL statuses, the WHERE clauses select what the two listings hold. */
  lemma ListedAsWrittenMatchesListings(db: Db)
    requires Valid(db)
    ensures forall k :: k in ListedAsWritten(StoredTable(db), Published) <==>
                        k in db.posts && db.posts[k] in ListPublished(db)
    ensures forall k :: k in ListedAsWritten(StoredTable(db), Draft) <==>
                        k in db.posts && db.posts[k] in ListDrafts(db)
  {
    forall k | k in db.posts {
      ListingsPartitionPosts(db, k);
    }
  }

  /**
   * PUT /:id as written: the posts table it leaves. The bound status is
   * checked only by the CHECK, so `null` is stored as NULL.
   */
  function UpdateAsWritten(db: Db, id: Option<int>, f: PostFields): (r: Result<map<int, StoredPost>, Failure>)
    requires Valid(db)
    ensures r.Err? <==>
      || id.None? || id.value !in db.posts || f.title.Null?
      || (f.status.Text? && ParseStatus(f.status.value).None?)
    ensures r.Ok? ==> r.value.Keys == db.posts.Keys
    ensures r.Ok? ==> forall k :: k in db.posts && k != id.value ==> r.value[k] == Stored(db.posts[k])
    ensures r.Ok? && f.status.Null? ==> r.value[id.value].status.None?
    ensures !f.status.Null? ==>
      && (r.Ok? <==> Update(db, id, f).result.Ok?)
      && (r.Ok? ==> r.value == StoredTable(Update(db, id, f).db))
  {
    match FindPost(db, id)
    case None => Err(NotFound)
    case Some(existing) =>
      var title := Patch(f.title, Some(existing.title));
      var status := Patch(f.status, Some(StatusText(existing.status)));
      if title.None? then Err(StatementFailed(NotNullFailed))
      else if !StatusCheckAsWritten(status) then Err(StatementFailed(CheckFailed))
      else
        var row := StoredPost(existing.id, title.value, Patch(f.body, existing.body),
                              Patch(f.coverImage, existing.coverImage),
                              if status.None? then None else ParseStatus(status.value),
                              existing.createdAt, db.clock);
        AsWrittenAgrees(db, id.value, f, row);
        Ok(StoredTable(db)[id.value := row])
  }

  /** Off the NULL case, the update as written stores what the corrected update stores. */
  lemma AsWrittenAgrees(db: Db, id: int, f: PostFields, row: StoredPost)
    requires Valid(db) && id in db.posts && !f.title.Null?
    requires StatusCheckAsWritten(Patch(f.status, Some(StatusText(db.posts[id].status))))
    requires
      var status := Patch(f.status, Some(StatusText(db.posts[id].status)));
      var existing := db.posts[id];
      row == StoredPost(existing.id, Patch(f.title, Some(existing.title)).value, Patch(f.body, existing.body),
                        Patch(f.coverImage, existing.coverImage),
                        if status.None? then None else ParseStatus(status.value),
                        existing.createdAt, db.clock)
    ensures !f.status.Null? ==>
      && Update(db, Some(id), f).result.Ok?
      && StoredTable(db)[id := row] == StoredTable(Update(db, Some(id), f).db)
  {
    if !f.status.Null? {
      var r := Update(db, Some(id), f);
      assert r.result.Ok?;
      assert Stored(r.result.value) == row;
      assert r.db.posts == db.posts[id := r.result.value];
    }
  }

  /**
   * As written, `{ status: null }` stores a post with a NULL status, which
   * neither listing selects; the corrected schema's NOT NULL rule rejects the
   * update and nothing is written.
   */
  lemma NullStatusSlipsThrough(db: Db, id: int, f: PostFields)
    requires Valid(db) && id in db.posts
    requires f.status.Null? && !f.title.Null?
    ensures var r := UpdateAsWritten(db, Some(id), f);
      && r.Ok?
      && id in r.value
      && id !in ListedAsWritten(r.value, Published)
      && id !in ListedAsWritten(r.value, Draft)
    ensures Update(db, Some(id), f) == Reply(Err(StatementFailed(NotNullFailed)), db)
  {
  }

  /**
   * DELETE /:id: zero rows changed is 404; otherwise the post and, by the
   * cascade, all of its images are gone. The cascade throws when an image of
   * another post was derived from one of them.
   */
  function Delete(db: Db, id: Option<int>): (r: Reply<()>)
    requires Valid(db)
    ensures Valid(r.db) && Monotone(db, r.db)
    ensures r.result.Err? ==> r.db == db
    ensures r.result == Err(NotFound) <==> id.None? || id.value !in db.posts
    ensures id.Some? && id.value in db.posts ==>
      (r.result.Ok? <==> !OrphansChild(db, Cascade(db, id.value)))
    ensures r.result.Err? && r.result.error != NotFound ==> r.result.error == StatementFailed(ForeignKeyFailed)
    ensures r.result.Ok? ==>
      && id.Some?
      && r.db == db.(posts := db.posts - {id.value}, images := db.images - Cascade(db, id.value))
      && (forall k :: k in r.db.images <==> k in db.images && db.images[k].postId != id)
  {
    match Execute(db, DeletePostStmt(id))
    case Err(e) => Reply(Err(StatementFailed(e)), db)
    case Ok(x) =>
      if x.info.changes == 0 then Reply(Err(NotFound), x.db)
      else Reply(Ok(()), x.db)
  }

  /** After a successful delete no image refers to the post and a get of it is 404. */
  lemma DeleteLeavesNoTrace(db: Db, id: int)
    requires Valid(db)
    ensures var r := Delete(db, Some(id));
      r.result.Ok? ==>
        && Get(r.db, Some(id)) == Err(NotFound)
        && (forall k :: k in r.db.images ==> r.db.images[k].postId != Some(id))
  {
  }
}
