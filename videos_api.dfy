/**
 * The serverless videos endpoint (api/videos.ts): GET one row or the list
 * newest first, POST a row after checking `title` and `url` and falling
 * back to the find-or-create `Uncategorized` category, DELETE by id.
 * A database failure is an input: the message the first query throws.
 */
module VideosApi {
  import opened Common
  import opened Database

  const DefaultCategoryName: string := "Uncategorized"

  /**
   * The parsed JSON body: none at all (`null`, which the destructuring of a
   * POST cannot read), or an object whose fields may each be missing.
   */
  datatype PostBody =
    | NoBody
    | Fields(title: Option<string>, categoryId: Option<nat>, url: Option<string>)

  datatype Request = Request(
    httpMethod: string,
    id: Option<nat>,              // the `id` query parameter; None when absent or empty
    categoryFilter: Option<nat>,  // the `categoryId` query parameter
    body: PostBody)

  /** The message of the `TypeError` a destructuring of a `null` body throws. */
  const NullBodyMessage: string := "Cannot destructure property 'title' of 'req.body' as it is null."

  datatype Body =
    | Row(row: VideoRecord)
    | Rows(rows: seq<VideoRecord>)
    | NoContent
    | ErrorBody(error: string)
    | DbError(details: string)    // { error: 'Database error', details }

  datatype Response = Response(status: int, body: Body)

  /** The body's `categoryId` is used when truthy: absent and 0 are not. */
  predicate CategoryGiven(categoryId: Option<nat>)
  {
    categoryId.Some? && categoryId.value != 0
  }

  function Reverse(s: seq<VideoRecord>): (r: seq<VideoRecord>)
    ensures |r| == |s| && forall k :: 0 <= k < |s| ==> r[k] == s[|s| - 1 - k]
  {
    if s == [] then [] else Reverse(s[1..]) + [s[0]]
  }

  /** `WHERE category_id = $1`. */
  function InCategory(categoryId: nat): VideoRecord -> bool
  {
    (v: VideoRecord) => v.categoryId == categoryId
  }

  /** `SELECT * FROM videos [WHERE category_id = $1] ORDER BY created_at DESC`. */
  function Listing(videos: seq<VideoRecord>, categoryFilter: Option<nat>): (r: seq<VideoRecord>)
    ensures |r| <= |videos|
    ensures categoryFilter.None? ==> |r| == |videos|
  {
    Reverse(if categoryFilter.Some? then Filter(videos, InCategory(categoryFilter.value)) else videos)
  }

  /**
   * The list holds exactly the rows of the requested category (all rows
   * without a filter), each once, newest first.
   */
  lemma ListingNewestFirst(videos: seq<VideoRecord>, categoryFilter: Option<nat>)
    requires Ordered(videos)
    ensures var r := Listing(videos, categoryFilter);
      (forall i, j :: 0 <= i < j < |r| ==> r[i].createdAt > r[j].createdAt)
      && (forall v :: v in r <==> v in videos && (categoryFilter.Some? ==> v.categoryId == categoryFilter.value))
  {
    var base := if categoryFilter.Some? then Filter(videos, InCategory(categoryFilter.value)) else videos;
    if categoryFilter.Some? {
      FilterKeepsOrder(videos, InCategory(categoryFilter.value));
    }
    var r := Reverse(base);
    forall i, j | 0 <= i < j < |r|
      ensures r[i].createdAt > r[j].createdAt
    {
      assert r[i] == base[|base| - 1 - i] && r[j] == base[|base| - 1 - j];
    }
    forall v
      ensures v in r <==> v in base
    {
      if v in base {
        var k :| 0 <= k < |base| && base[k] == v;
        assert r[|base| - 1 - k] == v;
      }
    }
  }

  /**
   * `ensureDefaultCategory`: the id of a category named `Uncategorized`,
   * inserted only when there is none.
   */
  method EnsureDefaultCategory(db: Db) returns (id: nat)
    requires db.Valid()
    modifies db`categories, db`nextCategoryId, db`clock
    ensures db.Valid() && db.videos == old(db.videos)
    ensures CategoryNamed(old(db.categories), DefaultCategoryName).Some? ==>
      id == CategoryNamed(old(db.categories), DefaultCategoryName).value.id
      && db.categories == old(db.categories) && db.clock == old(db.clock)
    ensures CategoryNamed(old(db.categories), DefaultCategoryName).None? ==>
      id == old(db.nextCategoryId)
      && db.categories == old(db.categories) + [CategoryRecord(id, DefaultCategoryName, old(db.clock))]
    ensures CategoryNamed(db.categories, DefaultCategoryName).Some?
      && CategoryNamed(db.categories, DefaultCategoryName).value.id == id
  {
    var existing := CategoryNamed(db.categories, DefaultCategoryName);
    if existing.Some? {
      return existing.value.id;
    }
    var row := db.InsertCategory(DefaultCategoryName);
    NamedAfterAppend(old(db.categories), row);
    id := row.id;
  }

  /** Appending a row to a table without its name makes it the first row with that name. */
  lemma {:induction false} NamedAfterAppend(categories: seq<CategoryRecord>, row: CategoryRecord)
    requires CategoryNamed(categories, row.name).None?
    ensures CategoryNamed(categories + [row], row.name) == Some(row)
  {
    if categories != [] {
      assert (categories + [row])[1..] == categories[1..] + [row];
      NamedAfterAppend(categories[1..], row);
    }
  }

  /** A second `ensureDefaultCategory` inserts nothing and answers the same id. */
  method EnsureTwice(db: Db) returns (first: nat, second: nat)
    requires db.Valid()
    modifies db`categories, db`nextCategoryId, db`clock
    ensures first == second
    ensures |db.categories| <= |old(db.categories)| + 1
  {
    first := EnsureDefaultCategory(db);
    ghost var between := db.categories;
    second := EnsureDefaultCategory(db);
    assert db.categories == between;
  }

  /** `handler`: dispatch on the method; every path that queries fails with 500 when the database does. */
  method Handle(db: Db, req: Request, failure: Option<string>) returns (resp: Response)
    requires db.Valid()
    modifies db
    ensures db.Valid()
    // GET
    ensures req.httpMethod == "GET" ==> db.videos == old(db.videos) && db.categories == old(db.categories)
    ensures req.httpMethod == "GET" && failure.Some? ==> resp == Response(500, DbError(failure.value))
    ensures req.httpMethod == "GET" && failure.None? && req.id.Some? ==>
      var found := VideosWithId(old(db.videos), req.id.value);
      if found == [] then resp == Response(404, ErrorBody("Video not found"))
      else resp == Response(200, Row(found[0]))
    ensures req.httpMethod == "GET" && failure.None? && req.id.None? ==>
      resp == Response(200, Rows(Listing(old(db.videos), req.categoryFilter)))
    // POST
    ensures req.httpMethod == "POST" && req.body.NoBody? ==>
      resp == Response(500, DbError(NullBodyMessage))
      && db.videos == old(db.videos) && db.categories == old(db.categories)
    ensures req.httpMethod == "POST" && req.body.Fields? && !(Truthy(req.body.title) && Truthy(req.body.url)) ==>
      resp == Response(400, ErrorBody("Title and URL are required"))
      && db.videos == old(db.videos) && db.categories == old(db.categories)
    ensures req.httpMethod == "POST" && req.body.Fields? && Truthy(req.body.title) && Truthy(req.body.url) && failure.Some? ==>
      resp == Response(500, DbError(failure.value))
      && db.videos == old(db.videos) && db.categories == old(db.categories)
    ensures req.httpMethod == "POST" && req.body.Fields? && Truthy(req.body.title) && Truthy(req.body.url) && failure.None? ==>
      resp.status == 201 && resp.body.Row?
      && db.videos == old(db.videos) + [resp.body.row]
      && resp.body.row.title == req.body.title.value && resp.body.row.url == req.body.url.value
      && resp.body.row.duration == "0:00" && resp.body.row.thumbnail.None?
      && (CategoryGiven(req.body.categoryId) ==>
            resp.body.row.categoryId == req.body.categoryId.value && db.categories == old(db.categories))
      && (!CategoryGiven(req.body.categoryId) ==>
            CategoryNamed(db.categories, DefaultCategoryName).Some?
            && resp.body.row.categoryId == CategoryNamed(db.categories, DefaultCategoryName).value.id)
      && (!CategoryGiven(req.body.categoryId) && CategoryNamed(old(db.categories), DefaultCategoryName).Some? ==>
            db.categories == old(db.categories))
      && (!CategoryGiven(req.body.categoryId) && CategoryNamed(old(db.categories), DefaultCategoryName).None? ==>
            db.categories == old(db.categories)
              + [CategoryRecord(resp.body.row.categoryId, DefaultCategoryName, old(db.clock))])
    // DELETE
    ensures req.httpMethod == "DELETE" && req.id.None? ==>
      resp == Response(400, ErrorBody("Video ID required")) && db.videos == old(db.videos)
    ensures req.httpMethod == "DELETE" && req.id.Some? && failure.Some? ==>
      resp == Response(500, DbError(failure.value)) && db.videos == old(db.videos)
    ensures req.httpMethod == "DELETE" && req.id.Some? && failure.None? ==>
      db.videos == VideosWithout(old(db.videos), req.id.value)
      && (VideosWithId(old(db.videos), req.id.value) == [] ==> resp == Response(404, ErrorBody("Video not found")))
      && (VideosWithId(old(db.videos), req.id.value) != [] ==> resp == Response(204, NoContent))
    ensures req.httpMethod == "DELETE" ==> db.categories == old(db.categories)
    // anything else
    ensures req.httpMethod !in {"GET", "POST", "DELETE"} ==>
      resp == Response(405, ErrorBody("Method not allowed"))
      && db.videos == old(db.videos) && db.categories == old(db.categories)
  {
    if req.httpMethod == "GET" {
      if failure.Some? {
        return Response(500, DbError(failure.value));
      }
      if req.id.Some? {
        var found := VideosWithId(db.videos, req.id.value);
        if found == [] {
          return Response(404, ErrorBody("Video not found"));
        }
        return Response(200, Row(found[0]));
      }
      return Response(200, Rows(Listing(db.videos, req.categoryFilter)));
    }
    if req.httpMethod == "POST" {
      if req.body.NoBody? {
        return Response(500, DbError(NullBodyMessage));
      }
      if !(Truthy(req.body.title) && Truthy(req.body.url)) {
        return Response(400, ErrorBody("Title and URL are required"));
      }
      if failure.Some? {
        return Response(500, DbError(failure.value));
      }
      var finalCategoryId: nat;
      if CategoryGiven(req.body.categoryId) {
        finalCategoryId := req.body.categoryId.value;
      } else {
        finalCategoryId := EnsureDefaultCategory(db);
      }
      var row := db.InsertVideo(req.body.title.value, finalCategoryId, req.body.url.value, "0:00", None);
      return Response(201, Row(row));
    }
    if req.httpMethod == "DELETE" {
      if req.id.None? {
        return Response(400, ErrorBody("Video ID required"));
      }
      if failure.Some? {
        return Response(500, DbError(failure.value));
      }
      var removed := db.DeleteVideo(req.id.value);
      if removed == [] {
        return Response(404, ErrorBody("Video not found"));
      }
      return Response(204, NoContent);
    }
    resp := Response(405, ErrorBody("Method not allowed"));
  }
}
