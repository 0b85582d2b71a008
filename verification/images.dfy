/**
 * The image repository of routes/images.js. Multer's file handling and the
 * image generator are inputs: an upload arrives as the stored filename (or
 * none), and the generator is a function from the call the handler makes to
 * its outcome.
 */
module Images {
  import opened Wrappers
  import opened Table
  import opened Store
  import opened Http

  /** Stored files are served under this directory. */
  const UploadDir := "/uploads/"

  /** The placeholder key the handler rejects as not configured (routes/images.js:46). */
  const PlaceholderKey := "your_key_here"

  /** The style text put in front of every prompt sent to the generator. */
  const StylePrefix := "Oil painting style using ONLY three colors: deep black (#1A1814), neon red (#E8222C), and electric blue (#1B4DFF) on a cream (#F5F4EF) background. Bold thick brushstrokes with visible paint texture, pixelated blocky feel like pixel art meets oil painting. Abstract expressionist. "

  /** The `{ image_id, prompt, mode, post_id }` of a generate request, ids already parsed. */
  datatype GenerateRequest = GenerateRequest(imageId: Option<int>, prompt: Field, mode: Field, postId: Option<int>)

  /** The call made to the generator: an edit of a reference image, or a fresh image. */
  datatype GenCall = EditCall(reference: string, prompt: string) | CreateCall(prompt: string)

  /** The generator either produced a file (the name it was saved under) or failed. */
  datatype GenOutcome = Produced(filename: string) | GenFailed

  /** `apiKey && apiKey !== 'your_key_here'` */
  predicate Configured(apiKey: Option<string>) {
    apiKey.Some? && apiKey.value != "" && apiKey.value != PlaceholderKey
  }

  /** `image_id && (mode === 'blend' || mode === 'iterate')`: the request derives from a parent. */
  predicate DerivesFromParent(req: GenerateRequest) {
    req.imageId.Some? && (req.mode == Text("blend") || req.mode == Text("iterate"))
  }

  function OldestFirst(i: Image): int { i.createdAt }

  /** GET /:postId: the images of one post, oldest first. */
  function ListForPost(db: Db, postId: Option<int>): (r: seq<Image>)
    requires Valid(db)
    ensures forall i :: 0 <= i < |r| ==>
              r[i].id in db.images && db.images[r[i].id] == r[i] && postId.Some? && r[i].postId == postId
    ensures forall k :: k in db.images && postId.Some? && db.images[k].postId == postId ==> db.images[k] in r
    ensures NoDuplicates(r)
    ensures forall i, j :: 0 <= i < j < |r| ==> r[i].createdAt <= r[j].createdAt
  {
    Select(db.images, ImageId, (i: Image) => postId.Some? && i.postId == postId, OldestFirst, 1, db.imageSeq + 1)
  }

  /**
   * POST /upload: without a valid file, 400; otherwise one row with mode
   * 'initial', no prompt and no parent. A post_id that names no post makes the
   * insert throw.
   */
  function Upload(db: Db, file: Option<string>, postId: Option<int>): (r: Reply<Image>)
    requires Valid(db)
    ensures Valid(r.db) && Monotone(db, r.db)
    ensures r.result.Err? ==> r.db == db
    ensures r.result == Err(BadRequest) <==> file.None?
    ensures file.Some? ==>
      (r.result.Err? <==> postId.Some? && postId.value !in db.posts)
    ensures r.result.Err? && file.Some? ==> r.result.error == StatementFailed(ForeignKeyFailed)
    ensures r.result.Ok? ==>
      var img := r.result.value;
      && file.Some?
      && img.id == db.imageSeq + 1
      && (forall k :: k in db.images ==> k < img.id)
      && img.postId == postId
      && img.filePath == UploadDir + file.value
      && img.prompt.None?
      && img.parentImageId.None?
      && img.mode == Initial
      && img.createdAt == db.clock
      && r.db == db.(images := db.images[img.id := img], imageSeq := img.id, lastInsertRowid := img.id)
  {
    match file
    case None => Reply(Err(BadRequest), db)
    case Some(name) =>
      match Execute(db, InsertImageStmt(postId, UploadDir + name, None, None, "initial"))
      case Err(e) => Reply(Err(StatementFailed(e)), db)
      case Ok(x) =>
        var created := FindImage(x.db, Some(x.info.lastInsertRowid));
        Reply(Ok(created.value), x.db)
  }

  /** An uploaded image is listed with its post's images. */
  lemma UploadThenList(db: Db, file: Option<string>, postId: Option<int>)
    requires Valid(db)
    ensures var r := Upload(db, file, postId);
      r.result.Ok? && postId.Some? ==> r.result.value in ListForPost(r.db, postId)
  {
  }

  /**
   * The checks of POST /generate before the generator runs, in the order the
   * handler makes them: 422 for a missing key, 400 for a missing prompt, 404
   * for a missing parent; otherwise the call to make, whose prompt is the
   * style prefix followed by the user's prompt.
   */
  function Plan(db: Db, apiKey: Option<string>, req: GenerateRequest): (r: Result<GenCall, Failure>)
    requires Valid(db)
    ensures !Configured(apiKey) ==> r == Err(Unconfigured)
    ensures Configured(apiKey) && Falsy(req.prompt) ==> r == Err(BadRequest)
    ensures Configured(apiKey) && !Falsy(req.prompt) ==>
      (r == Err(NotFound) <==> DerivesFromParent(req) && req.imageId.value !in db.images)
    ensures Configured(apiKey) && !Falsy(req.prompt) && !(DerivesFromParent(req) && req.imageId.value !in db.images) ==>
      r.Ok?
    ensures r.Ok? ==>
      && Configured(apiKey) && !Falsy(req.prompt)
      && r.value.prompt == StylePrefix + req.prompt.value
      && (r.value.EditCall? <==> DerivesFromParent(req))
      && (r.value.EditCall? ==> r.value.reference == db.images[req.imageId.value].filePath)
  {
    if !Configured(apiKey) then Err(Unconfigured)
    else if Falsy(req.prompt) then Err(BadRequest)
    else
      var fullPrompt := StylePrefix + req.prompt.value;
      if DerivesFromParent(req) then
        match FindImage(db, req.imageId)
        case None => Err(NotFound)
        case Some(parent) => Ok(EditCall(parent.filePath, fullPrompt))
      else Ok(CreateCall(fullPrompt))
  }

  /**
   * POST /generate: plan, call the generator, then insert. The row stores the
   * user's own prompt, `mode || 'initial'` and `image_id` as parent whatever
   * the mode. Every failure, the generator's included, leaves the database
   * as it was, because the insert is the last step.
   */
  function Generate(db: Db, apiKey: Option<string>, req: GenerateRequest, generator: GenCall -> GenOutcome)
    : (r: Reply<Image>)
    requires Valid(db)
    ensures Valid(r.db) && Monotone(db, r.db)
    ensures r.result.Err? ==> r.db == db
    ensures Plan(db, apiKey, req).Err? ==> r.result == Err(Plan(db, apiKey, req).error)
    ensures Plan(db, apiKey, req).Ok? && generator(Plan(db, apiKey, req).value).GenFailed? ==>
      r.result == Err(GeneratorFailed)
    ensures Plan(db, apiKey, req).Ok? && generator(Plan(db, apiKey, req).value).Produced? ==>
      (r.result.Err? <==>
        || ParseMode(OrElse(req.mode, "initial")).None?
        || (req.postId.Some? && req.postId.value !in db.posts)
        || (req.imageId.Some? && req.imageId.value !in db.images && req.imageId.value != db.imageSeq + 1))
    ensures Plan(db, apiKey, req).Ok? && generator(Plan(db, apiKey, req).value).Produced? && r.result.Err? ==>
      r.result.error == StatementFailed(if ParseMode(OrElse(req.mode, "initial")).None? then CheckFailed
                                        else ForeignKeyFailed)
    ensures r.result.Ok? ==>
      var img := r.result.value;
      && Plan(db, apiKey, req).Ok?
      && generator(Plan(db, apiKey, req).value).Produced?
      && img.id == db.imageSeq + 1
      && (forall k :: k in db.images ==> k < img.id)
      && img.postId == req.postId
      && img.filePath == UploadDir + generator(Plan(db, apiKey, req).value).filename
      && img.prompt == Some(req.prompt.value)
      && img.parentImageId == req.imageId
      && ModeText(img.mode) == OrElse(req.mode, "initial")
      && img.createdAt == db.clock
      && r.db == db.(images := db.images[img.id := img], imageSeq := img.id, lastInsertRowid := img.id)
  {
    match Plan(db, apiKey, req)
    case Err(e) => Reply(Err(e), db)
    case Ok(call) =>
      match generator(call)
      case GenFailed => Reply(Err(GeneratorFailed), db)
      case Produced(name) =>
        var stmt := InsertImageStmt(req.postId, UploadDir + name, Some(req.prompt.value), req.imageId,
                                    OrElse(req.mode, "initial"));
        match Execute(db, stmt)
        case Err(e) => Reply(Err(StatementFailed(e)), db)
        case Ok(x) =>
          var created := FindImage(x.db, Some(x.info.lastInsertRowid));
          Reply(Ok(created.value), x.db)
  }

  /** A missing or placeholder key is 422 whatever else the request holds. */
  lemma UnconfiguredComesFirst(db: Db, apiKey: Option<string>, req: GenerateRequest,
                               generator: GenCall -> GenOutcome)
    requires Valid(db) && !Configured(apiKey)
    ensures Generate(db, apiKey, req, generator) == Reply(Err(Unconfigured), db)
  {
  }

  /**
   * A parent given with a mode other than blend or iterate is never looked up
   * before generation, yet it is still stored as the parent, so for the insert
   * to succeed it must exist or be the id the new image gets.
   */
  lemma ParentKeptWithoutLineageMode(db: Db, apiKey: Option<string>, req: GenerateRequest,
                                     generator: GenCall -> GenOutcome)
    requires Valid(db) && Configured(apiKey) && !Falsy(req.prompt)
    requires req.imageId.Some? && !DerivesFromParent(req)
    ensures Plan(db, apiKey, req).Ok? && Plan(db, apiKey, req).value.CreateCall?
    ensures var r := Generate(db, apiKey, req, generator);
      r.result.Ok? ==>
        && r.result.value.parentImageId == req.imageId
        && (req.imageId.value in db.images || req.imageId.value == r.result.value.id)
  {
  }

  /**
   * POST /generate with `image_id` set to the id the new image is about to get
   * and no lineage mode: the parent is not looked up, and the insert stores an
   * image that is its own parent.
   */
  lemma SelfParentGenerated(db: Db, apiKey: Option<string>, req: GenerateRequest,
                            generator: GenCall -> GenOutcome)
    requires Valid(db) && Configured(apiKey) && !Falsy(req.prompt)
    requires req.imageId == Some(db.imageSeq + 1) && !DerivesFromParent(req)
    requires ParseMode(OrElse(req.mode, "initial")).Some? && (req.postId.None? || req.postId.value in db.posts)
    requires generator(Plan(db, apiKey, req).value).Produced?
    ensures var r := Generate(db, apiKey, req, generator);
      r.result.Ok? && r.result.value.parentImageId == Some(r.result.value.id)
  {
  }
}
