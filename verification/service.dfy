/**
 * The API as one state machine: every route is a request, each request is a
 * transition of the database, and the schema's integrity rules hold after
 * any sequence of them.
 */
module Service {
  import opened Wrappers
  import opened Table
  import opened Store
  import opened Http
  import Posts
  import Images

  datatype Request =
    | Feed
    | Drafts
    | GetPost(id: Option<int>)
    | CreatePost(fields: Posts.PostFields)
    | PutPost(id: Option<int>, fields: Posts.PostFields)
    | RemovePost(id: Option<int>)
    | ListImages(postId: Option<int>)
    | UploadImage(file: Option<string>, uploadPostId: Option<int>)
    | GenerateImage(apiKey: Option<string>, req: Images.GenerateRequest,
                    generator: Images.GenCall -> Images.GenOutcome)
    | Wait(dt: nat)

  predicate ReadOnly(q: Request) {
    q.Feed? || q.Drafts? || q.GetPost? || q.ListImages?
  }

  /** The database after one request, whatever its reply. */
  function Apply(db: Db, q: Request): (r: Db)
    requires Valid(db)
    ensures Valid(r) && Monotone(db, r)
    ensures ReadOnly(q) ==> r == db
  {
    match q
    case Feed => db
    case Drafts => db
    case GetPost(_) => db
    case CreatePost(f) => Posts.Create(db, f).db
    case PutPost(id, f) => Posts.Update(db, id, f).db
    case RemovePost(id) => Posts.Delete(db, id).db
    case ListImages(_) => db
    case UploadImage(file, postId) => Images.Upload(db, file, postId).db
    case GenerateImage(key, req, generator) => Images.Generate(db, key, req, generator).db
    case Wait(dt) => Tick(db, dt)
  }

  /** The database after a sequence of requests, served one at a time. */
  function Run(db: Db, qs: seq<Request>): (r: Db)
    requires Valid(db)
    ensures Valid(r) && Monotone(db, r)
    decreases |qs|
  {
    if |qs| == 0 then db else Run(Apply(db, qs[0]), qs[1..])
  }

  /** The integrity rules hold from an empty database on, after any requests. */
  lemma ReachableIsValid(qs: seq<Request>)
    ensures Valid(Run(Empty, qs))
  {
  }

  /**
   * Ids are never reused: a post or image created after any sequence of
   * requests gets an id above every id of that table before the sequence,
   * including the ids of rows deleted meanwhile.
   */
  lemma IdsNeverReused(db: Db, qs: seq<Request>, f: Posts.PostFields,
                        file: Option<string>, postId: Option<int>,
                        apiKey: Option<string>, req: Images.GenerateRequest,
                        generator: Images.GenCall -> Images.GenOutcome)
    requires Valid(db)
    ensures var later := Run(db, qs);
      && (Posts.Create(later, f).result.Ok? ==>
            forall k :: k in db.posts ==> k < Posts.Create(later, f).result.value.id)
      && (Images.Upload(later, file, postId).result.Ok? ==>
            forall k :: k in db.images ==> k < Images.Upload(later, file, postId).result.value.id)
      && (Images.Generate(later, apiKey, req, generator).result.Ok? ==>
            forall k :: k in db.images ==> k < Images.Generate(later, apiKey, req, generator).result.value.id)
  {
  }

  /*
   * A short session, one step per lemma: create a post in an
   * empty database, upload an image to it, blend a generated image from that
   * one, list the post's images (upload first), then delete the post and find
   * nothing left.
   */

  lemma CreateFirstPost(title: string)
    requires title != ""
    ensures var r := Posts.Create(Empty, Posts.PostFields(Text(title), Absent, Absent, Absent));
      && r.result == Ok(Store.Post(1, title, Some(""), None, Draft, 0, 0))
      && r.db == Empty.(posts := map[1 := r.result.value], postSeq := 1, lastInsertRowid := 1)
  {
  }

  lemma UploadFirstImage(before: Db, file: string)
    requires Valid(before) && 1 in before.posts && before.images == map[] && before.imageSeq == 0
    ensures var r := Images.Upload(before, Some(file), Some(1));
      && r.result == Ok(Image(1, Some(1), Images.UploadDir + file, None, None, Initial, before.clock))
      && r.db == before.(images := map[1 := r.result.value], imageSeq := 1, lastInsertRowid := 1)
  {
  }

  lemma BlendFromFirst(before: Db, key: string, prompt: string,
                       generator: Images.GenCall -> Images.GenOutcome, produced: string)
    requires Valid(before) && 1 in before.posts && before.imageSeq == 1 && before.images.Keys == {1}
    requires prompt != "" && Images.Configured(Some(key))
    requires generator(Images.EditCall(before.images[1].filePath, Images.StylePrefix + prompt))
             == Images.Produced(produced)
    ensures var req := Images.GenerateRequest(Some(1), Text(prompt), Text("blend"), Some(1));
      var r := Images.Generate(before, Some(key), req, generator);
      && r.result == Ok(Image(2, Some(1), Images.UploadDir + produced, Some(prompt), Some(1), Blend, before.clock))
      && r.db == before.(images := before.images[2 := r.result.value], imageSeq := 2, lastInsertRowid := 2)
  {
    var req := Images.GenerateRequest(Some(1), Text(prompt), Text("blend"), Some(1));
    assert Images.DerivesFromParent(req);
    assert Images.Plan(before, Some(key), req)
           == Ok(Images.EditCall(before.images[1].filePath, Images.StylePrefix + prompt));
    assert ParseMode("blend") == Some(Blend);
  }

  lemma ListTwo(db: Db, first: Image, second: Image)
    requires Valid(db) && db.images == map[1 := first, 2 := second]
    requires first.postId == Some(1) && second.postId == Some(1) && first.createdAt < second.createdAt
    ensures Images.ListForPost(db, Some(1)) == [first, second]
  {
    var listed := Images.ListForPost(db, Some(1));
    assert db.images[1] == first && db.images[2] == second;
    assert first in listed && second in listed;
    forall x | x in listed ensures x == first || x == second {
      var i :| 0 <= i < |listed| && listed[i] == x;
    }
    ListedInOrder(listed, first, second);
  }

  lemma DeleteOnlyPost(db: Db)
    requires Valid(db) && db.posts.Keys == {1}
    requires forall k :: k in db.images ==> db.images[k].postId == Some(1)
    ensures var r := Posts.Delete(db, Some(1));
      r.result == Ok(()) && r.db.images == map[] && Posts.Get(r.db, Some(1)) == Err(NotFound)
  {
    var doomed := Cascade(db, 1);
    assert forall k :: k in db.images ==> k in doomed;
    assert !OrphansChild(db, doomed);
    var r := Posts.Delete(db, Some(1));
    assert r.db.images.Keys == {};
  }

  /** Two images listed oldest first, the older one strictly so, come in that order. */
  lemma ListedInOrder(listed: seq<Image>, first: Image, second: Image)
    requires first in listed && second in listed && first.createdAt < second.createdAt
    requires forall x :: x in listed ==> x == first || x == second
    requires NoDuplicates(listed)
    requires forall i, j :: 0 <= i < j < |listed| ==> listed[i].createdAt <= listed[j].createdAt
    ensures listed == [first, second]
  {
    assert multiset(listed) == multiset{first, second} by {
      forall x ensures multiset(listed)[x] == multiset{first, second}[x] {
        if x != first && x != second {
          assert x !in listed;
        }
      }
    }
    assert |listed| == |multiset(listed)| == 2;
    var i :| 0 <= i < |listed| && listed[i] == first;
    var j :| 0 <= j < |listed| && listed[j] == second;
    assert i < j;
  }
}
