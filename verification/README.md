# Philosophy of Things: the store and its routes, in Dafny

Philosophy of Things is a small publishing tool. Authors write posts and attach images to them, either uploaded or generated from a prompt. A generated image may be derived from a parent image ("blend" or "iterate"). Posts are kept as drafts or published to a public feed.

This project models the part of the system with real rules:

- **The SQLite database of `db/init.js`** (module `Store`). It has two tables, `posts` and `images`, and enforces the schema's integrity rules:
  - NOT NULL on the title;
  - CHECK on status and on mode;
  - AUTOINCREMENT ids, which are never reused;
  - foreign keys from an image to its post and to its parent image, where SQLite lets a new image name its own id as its parent;
  - ON DELETE CASCADE from a post to its images.

  The rules are modelled as the schema declares them, with `PRAGMA foreign_keys = ON` in force. The running program probably loses that pragma at start-up, as the second row of "## Findings" explains, and `Store` also holds the statements as such a connection runs them.

  It also gives the results `queryOne` and `execute` report. `execute` counts only the statement's own rows, not cascaded ones, and reports the connection's last inserted rowid.
- **The post routes of `routes/posts.js`** (module `Posts`): list published, list drafts, get, create, update, delete.
- **The image routes of `routes/images.js`** (module `Images`): upload, generate, and list a post's images.
- **The shared request conventions** (module `Http`):
  - JavaScript truthiness (`f || d`, `f || null`);
  - the difference between a missing field, `null` and a string in a PUT body;
  - the HTTP status of each failure.
- **The whole API as a state machine** (module `Service`). The schema's rules hold after any sequence of requests. Ids grow without reuse. A short session is stated one step per lemma: create a post, upload an image to it, blend a new image from that one, list both, and delete the post.
- **Two pieces of the front end:**
  - the feed card preview of `public/js/explore.js` (module `Preview`);
  - the splitting of a body into paragraphs in `public/js/post.js` (module `Paragraphs`), including a round-trip theorem: joining the pieces with blank lines gives back the body with each separator shortened to one blank line.

`Table` holds the generic reading of a table: a scan in rowid order, a sort by a rank, and the first row of a result. `Wrappers` holds `Option` and `Result`.

Every handler is a pure function from the database, and the parsed request, to a `Reply`: the result (a row or a `Failure`) together with the database after the request. A failed statement throws in `execute` (db/init.js:75), before `save`, and nothing is written. The model returns the input database unchanged in that case.

The environment becomes parameters:

- The current time is the `clock` field of the database. It advances only by an explicit `Wait` request. Every write in between stamps the same time, so timestamps may tie.
- An uploaded file is the name it was stored under, or none.
- The image generator is a function argument from the call the handler would make (edit a reference image, or create one) to its outcome: a stored file name, or a failure.
- The API key is an optional string.

Some behaviours of the code are easy to miss on a first reading. The model follows the code in each. The last two hold with the foreign keys the schema declares; see the second row of "## Findings" for why the running program probably does not enforce them:

- **Create defaults.** A create replaces any falsy field with its default, not only a missing one (routes/posts.js:37). An empty title becomes "Untitled".
- **Status changes.** An update may set any valid status, so a published post can go back to draft (routes/posts.js:57).
- **Parent checks on generate.** The parent of a generated image is looked up before generation only when the mode is blend or iterate. With any other mode, a given `image_id` is still stored as the parent. With the foreign keys the schema declares, it is then the foreign key at insert time that rejects a missing parent, which becomes a 500, not a 404 (routes/images.js:64-66 and 92-101). Without them the image is stored with a dangling parent (`Store.InsertImageUnenforced`).
- **Failing deletes.** With the foreign keys the schema declares, a post delete can fail. The parent link has no cascade, so deleting a post whose image is the parent of another post's image violates that foreign key. The statement then throws (a 500) and nothing is deleted (db/init.js:36-40, routes/posts.js:66-69). Without the foreign keys the delete always succeeds and nothing cascades (`Store.DeletePostUnenforced`).

## Model

| member | source | states |
|---|---|---|
| Store.ParseStatus | db/init.js:28 | a status text is accepted exactly when it is 'draft' or 'published', and the accepted value reads back as the same text |
| Store.ParseMode | db/init.js:41 | a mode text is accepted exactly when it is 'initial', 'blend' or 'iterate', and reads back as the same text |
| Store.StatusColumn | db/init.js:28 | the corrected status column rejects a value exactly when it is NULL or fails the CHECK; an accepted value has the given text |
| Store.NullStatusPassesCheckAsWritten | db/init.js:28 | NULL passes the status CHECK as written, while the corrected column refuses it |
| Store.Tick | db/init.js:29-30 | time only moves forward; the tables and the integrity rules are untouched |
| Store.InsertPost | db/init.js:22-32 | an insert fails exactly on a status outside the CHECK; otherwise the new row gets the next AUTOINCREMENT id, above every existing id, stamped with the current time; the connection's last rowid becomes that id; nothing else changes and the integrity rules still hold |
| Store.UpdatePost | routes/posts.js:51-52 | the UPDATE against the corrected status column (NOT NULL added, see "## Findings"): no matching row is zero changes and no write; a matching row fails exactly on a NULL title, a NULL status or a status outside the CHECK; otherwise it reports one change, only that row changes, keeping its id and created_at, with updated_at set to now |
| Store.DeletePost | db/init.js:36-40 | a missing id is zero changes and a matching one reports one change; otherwise the delete fails with a foreign-key error exactly when a surviving image's parent is among the cascaded images; on success the post and exactly its images are gone, everything else is kept, and the integrity rules still hold |
| Store.InsertImage | db/init.js:35-43 | an image insert fails exactly on a mode outside the CHECK (a CHECK error) or on a dangling post or parent reference (a foreign-key error), where a parent equal to the id the new row gets is not dangling; otherwise the new row gets the next id and nothing else changes |
| Store.SelfParentAccepted | db/init.js:40 | an image inserted with its own future id as parent is stored as its own parent, so the lineage is no longer a forest; the intended insert refuses it |
| Store.InsertImageInForest | db/init.js:40 | the intended insert refuses any parent that is not already stored, agrees with the schema's insert on everything it accepts, and keeps the lineage a forest |
| Store.DeletePostUnenforced | db/init.js:36-40 | with the foreign keys off, a post delete never fails, removes only the post, leaves every image in place, and reports rowid 0 |
| Store.InsertImageUnenforced | db/init.js:35-43 | with the foreign keys off, an image insert fails only on the mode CHECK, stores the given post and parent as they are, and agrees with the schema's insert wherever that succeeds |
| Store.UnenforcedDeleteOrphans | db/init.js:37 | with the foreign keys off, a deleted post's image stays behind pointing at the missing post, and an orphaning delete the schema refuses goes through |
| Store.UnenforcedInsertDangles | db/init.js:37 | with the foreign keys off, an image naming a missing post is stored, where the schema refuses it with a foreign-key error |
| Store.Execute | db/init.js:74-81 | a successful statement keeps the integrity rules, reports one change exactly when it is an insert or its WHERE id matches a row, changes nothing when it reports zero changes, and reports the connection's last inserted rowid, which only inserts move |
| Store.FindPost | db/init.js:69-72 | the first row of a query by id is the stored post of that id, and NULL exactly when there is none or no id was given |
| Store.FindImage | db/init.js:69-72 | the same for images |
| Table.QueryOneById | db/init.js:58-72 | scanning a table for a key and taking the first row gives the stored row of that key, or nothing exactly when the key is absent |
| Table.Select | db/init.js:58-67 | a filtered, ordered query returns exactly the stored rows that pass the filter, each once, in order of the rank |
| Table.SortBy | routes/posts.js:10 | ORDER BY returns a permutation of the rows, sorted by the rank |
| Table.ScanSound | db/init.js:62-64 | a rowid-order scan yields only stored rows that pass the filter, with strictly increasing ids |
| Table.ScanComplete | db/init.js:62-64 | a rowid-order scan misses no stored row in range that passes the filter |
| Posts.ListPublished | routes/posts.js:6-13 | the feed holds exactly the stored published posts, each once, newest first |
| Posts.ListDrafts | routes/posts.js:16-23 | the drafts listing holds exactly the stored drafts, each once, most recently updated first |
| Posts.ListingsPartitionPosts | routes/posts.js:6-23 | every stored post is in exactly one of the two listings, chosen by its status |
| Posts.Get | routes/posts.js:26-30 | 404 exactly when no post has the id; otherwise the stored post |
| Posts.Create | routes/posts.js:33-41 | a create fails exactly on a status that is not 'draft' or 'published' after defaulting, and then writes nothing; otherwise the post gets the next id, the title defaults to 'Untitled', the body to '', the cover to NULL and the status to 'draft' whenever the given value is falsy, both timestamps are now, and no other row changes |
| Posts.CreateThenGet | routes/posts.js:35-40 | what a create returns is what a later get of its id returns |
| Posts.EmptyTitleBecomesUntitled | routes/posts.js:37 | an empty title is stored as 'Untitled' |
| Posts.CreatedPostListed | routes/posts.js:33-41 | a created post shows up in the feed exactly when its status is published, and in the drafts exactly when it is a draft |
| Posts.Update | routes/posts.js:44-63 | a missing post is 404 and nothing is written; otherwise each present field (even null or '') overwrites, each missing field keeps its value, updated_at becomes now, and only that post changes; the update fails exactly on a null title, a null status or an invalid status |
| Posts.UpdateThenGet | routes/posts.js:50-62 | what an update returns is what a later get of the id returns |
| Posts.EmptyPatchOnlyTouches | routes/posts.js:53-59 | a PUT with no fields changes only the post's updated_at |
| Posts.UpdateAsWritten | routes/posts.js:44-63 | the update as written, over a status column that may hold NULL: it fails exactly on a missing post, a null title or a non-null invalid status; a null status is stored as NULL; other rows and the set of ids are unchanged; with a non-null status it agrees with the corrected update row for row |
| Posts.ListedAsWrittenMatchesListings | routes/posts.js:6-23 | the two WHERE status = ? filters over the stored rows select exactly the posts of the feed and of the drafts listing |
| Posts.NullStatusSlipsThrough | routes/posts.js:57 | as written, `status: null` on an existing post succeeds, stores NULL, and the post is then in neither the feed nor the drafts listing; the corrected update rejects it and writes nothing |
| Posts.Delete | routes/posts.js:66-70 | 404 exactly when no post has the id; otherwise the delete succeeds exactly when no surviving image derives from a cascaded one, and then the post and exactly its images are gone |
| Posts.DeleteLeavesNoTrace | routes/posts.js:66-69 | after a successful delete a get of the post is 404 and no image refers to it |
| Images.ListForPost | routes/images.js:112-118 | the listing holds exactly the stored images of that post, each once, oldest first |
| Images.Upload | routes/images.js:28-41 | no file is 400; otherwise the upload fails exactly when post_id names no post, and else stores one image with mode 'initial', no prompt, no parent, its path under /uploads/, the next id and the current time, changing nothing else |
| Images.UploadThenList | routes/images.js:34-40 | an uploaded image is listed among its post's images |
| Images.Plan | routes/images.js:44-81 | the checks come in order: 422 without a usable key, then 400 without a prompt, then 404 for a missing parent, and the parent is looked up only for blend or iterate; a request that passes all three is planned; the generator call edits the parent's file exactly in those modes, and its prompt is the style prefix followed by the user's prompt |
| Images.Generate | routes/images.js:44-109 | every failure leaves the database as it was; a failing generator gives a 500; after a successful generation the insert fails exactly on an invalid mode (a CHECK failure) or a dangling post or parent (a foreign-key failure), and both are 500s, where a parent equal to the new image's id is not dangling; the stored row keeps the user's own prompt, `image_id` as its parent and `mode` defaulted to 'initial' |
| Images.UnconfiguredComesFirst | routes/images.js:45-50 | a missing or placeholder key is 422, whatever else the request holds |
| Images.ParentKeptWithoutLineageMode | routes/images.js:64-98 | with a parent but no lineage mode, generation creates a fresh image, yet the parent is still stored and must exist or be the new image's own id |
| Images.SelfParentGenerated | routes/images.js:92-101 | a generate with no lineage mode whose `image_id` is the id the new image gets stores an image that is its own parent |
| Service.Apply | server.js:15-16 | every request keeps the integrity rules and never moves the id counters or the clock back; read-only requests change nothing |
| Service.Run | server.js:15-16 | after any sequence of requests the integrity rules still hold, and the id counters and the clock have not moved back |
| Service.ReachableIsValid | db/init.js:20-44 | from an empty database, the integrity rules hold after any requests |
| Service.IdsNeverReused | db/init.js:24 | a post created, an image uploaded or an image generated after any sequence of requests gets an id above every id of its table before them, deleted rows included |
| Service.CreateFirstPost | routes/posts.js:33-41 | a post created in an empty database is post 1, a draft with an empty body and no cover |
| Service.UploadFirstImage | routes/images.js:28-41 | the first upload to post 1 is image 1, with mode 'initial' and no parent |
| Service.BlendFromFirst | routes/images.js:64-104 | a blend from image 1 sends an edit of image 1's file, then stores image 2 with parent 1, mode blend and the user's prompt |
| Service.ListTwo | routes/images.js:112-118 | the post's two images are listed older first |
| Service.DeleteOnlyPost | routes/posts.js:66-69 | deleting the only post removes all of its images, and a later get is 404 |
| Preview.SpaceNewlines | public/js/explore.js:22 | every newline becomes a space, and every other character and the length are kept |
| Preview.PreviewText | public/js/explore.js:22 | the preview is the first 150 characters of the body, newlines as spaces, and is empty for a missing body |
| Preview.PreviewParagraph | public/js/explore.js:31 | there is no preview paragraph exactly when the body is missing or empty; otherwise it is the preview text, followed by '...' exactly when the body is longer than 150 |
| Preview.ShortPlainBodyShownWhole | public/js/explore.js:22-31 | a body of at most 150 characters without newlines is shown as it is |
| Preview.PreviewIgnoresTail | public/js/explore.js:22-31 | two long bodies with the same first 150 characters have the same preview |
| Paragraphs.TrimStart | public/js/post.js:26-27 | the result is a suffix of the text that does not start with whitespace, and everything dropped is whitespace |
| Paragraphs.TrimEnd | public/js/post.js:26-27 | the result is a prefix of the text that does not end with whitespace, and everything dropped is whitespace |
| Paragraphs.Trim | public/js/post.js:26-27 | the result has no whitespace at either end, and is empty exactly when the text is all whitespace |
| Paragraphs.TrimSlice | public/js/post.js:26-27 | the trimmed text is a contiguous slice of the text with only whitespace before and after it |
| Paragraphs.TrimIdempotent | public/js/post.js:26-27 | trimming twice is trimming once |
| Paragraphs.TrimKeepsNoBlankLine | public/js/post.js:26-27 | trimming cannot create a blank line |
| Paragraphs.Split | public/js/post.js:25 | splitting gives at least one piece, no piece holds a blank line, and a body of whitespace gives pieces of whitespace |
| Paragraphs.SplitJoinRoundTrip | public/js/post.js:25 | the pieces joined by single blank lines give back the body with each run of two or more newlines shortened to two |
| Paragraphs.TidyClean | public/js/post.js:26-27 | every paragraph kept is non-empty, already trimmed, and holds no blank line |
| Paragraphs.TidyBlank | public/js/post.js:26 | pieces of whitespace only leave no paragraph |
| Paragraphs.TidyKeeps | public/js/post.js:26-27 | the kept paragraphs are the trimmed pieces at strictly increasing positions, covering every piece that is not blank |
| Paragraphs.SplitBlank | public/js/post.js:25 | a body whose pieces are all whitespace is itself all whitespace |
| Paragraphs.Paragraphs | public/js/post.js:24-28 | every paragraph is non-empty, trimmed and without a blank line, and the paragraphs are the trimmed non-blank pieces of the split, in order, none left out |
| Paragraphs.BlankBodyHasNoParagraphs | public/js/post.js:24-28 | a body has no paragraphs exactly when it is all whitespace |

## Left out

- The Express plumbing is not modelled: routing, JSON parsing and the `{ error }` message texts. The model keeps the status codes.
- Multer's handling of the upload is not modelled: the type filter, the 10 MB limit and the random file names. The model takes the stored file name, or none when no file reached the handler: a missing file or one the type filter refused.
- Images.Upload: a file over 10 MB makes multer raise an error before the handler runs, which Express answers with a 500. The model has no such input and answers every missing file with a 400.
- The generator's network calls, the download and the file writes are not modelled. The generator is a function argument.
- Reading and writing the database file (`save`, `export`, opening an existing file) is not modelled. The database is a value. `save` writes the database out after start-up and after each successful statement (db/init.js:46 and 79). That does not change what the tables hold, but the export re-opens the connection, which the second row of "## Findings" is about.
- Store.Execute: reports the connection's last inserted rowid for an update or a delete. On a connection that `save` has just re-opened (db/init.js:79), SQLite reports 0 there instead. No route reads that value for an update or a delete.
- The wall clock is not modelled. `datetime('now')` reads the `clock` field, which only an explicit `Wait` request advances. The text format of the timestamps is left out.
- `parseInt` of the route parameters is not modelled. Ids arrive as `Option<int>`, where none stands for a missing or a falsy value. In a generate request, a numeric `post_id` or `image_id` of 0 is falsy in JavaScript, so the handler treats it as absent. That case is not modelled separately.
- Images.Generate: a non-numeric `image_id` such as "abc" with mode blend or iterate is truthy, so the source looks up `parseInt("abc")`, finds no row and answers 404 (routes/images.js:64-66). The model has no such id; a request without an id skips the lookup and generates a fresh image.
- Images.Generate: it is one step from one database. In the source the handler awaits the generator, the download and the body between the parent lookup and the insert (routes/images.js:65, 69, 76, 85-86 and 92). Another request may delete the post or the parent in that window, and the insert then fails with a foreign-key error and a 500 after the file was written. Interleavings of requests are not modelled.
- Request fields that are numbers, booleans or objects are not modelled. Fields are missing, null or text.
- The HTML built around the preview and the paragraphs is not modelled: escaping, dates, cover images and `join('')`. The post page with a NULL body is also left out, because `split` on null throws there.
- The lengths in the preview count characters. JavaScript counts UTF-16 code units, which differ for characters outside the Basic Multilingual Plane.
- The draft editor (`public/js/draft.js`) is not part of this model.
- The cascade's foreign-key failure and the invalid-status insert both throw inside the handler. Express then answers with its default 500. The model reports them as `StatementFailed`, which `HttpStatus` maps to 500.

## Findings

| source | as written | input that shows it | evidently intended | confidence | as-written member | corrected member |
|---|---|---|---|---|---|---|
| db/init.js:28 | the status column has a CHECK but no NOT NULL. SQL lets NULL pass a CHECK, and the PUT handler binds `null` as given, so the post is stored with a NULL status and drops out of both listings | `PUT /api/posts/1` with body `{"status": null}` | a post's status is always 'draft' or 'published' | not executed | Store.NullStatusPassesCheckAsWritten, Posts.UpdateAsWritten, Posts.NullStatusSlipsThrough | Store.StatusColumn, Store.UpdatePost, Posts.Update |
| db/init.js:20 | `PRAGMA foreign_keys = ON` runs once, on the connection opened at start-up. `save` then calls sql.js's `export` at the end of start-up and after every statement (db/init.js:46, 52 and 79). sql.js documents that `export` closes and re-opens the database, which resets every pragma to its default, and foreign keys default to off. From the first request on, no reference is checked and nothing cascades | create post 1, upload an image with `post_id` 1, then `DELETE /api/posts/1`: the image stays, naming post 1, which is gone | the schema's foreign keys and its ON DELETE CASCADE apply to every statement | not executed | Store.DeletePostUnenforced, Store.InsertImageUnenforced, Store.UnenforcedDeleteOrphans, Store.UnenforcedInsertDangles | Store.DeletePost, Store.InsertImage |
| routes/images.js:92-101 | without blend or iterate, `image_id` is stored as the parent without a lookup. SQLite's foreign-key check of an insert into a table that references itself accepts a row that names its own id, so the new image becomes its own parent | with image 1 the only image ever stored, `POST /api/images/generate` with `{"prompt": "x", "image_id": 2}` | every parent is an older image that already exists, so the lineage is a forest | not executed | Store.InsertImage, Store.SelfParentAccepted, Images.SelfParentGenerated | Store.InsertImageInForest |
