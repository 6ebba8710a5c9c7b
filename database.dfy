/**
 * The Postgres tables behind the serverless endpoints (api/videos.ts,
 * api/categories.ts), as in-memory tables in one object. Rows keep their
 * insertion order; `NOW()` is a clock that advances with every insert and
 * `SERIAL` ids come from counters.
 */
module Database {
  import opened Common

  datatype VideoRecord = VideoRecord(
    id: nat,
    title: string,
    categoryId: nat,
    url: string,
    duration: string,
    thumbnail: Option<string>,
    createdAt: nat)

  datatype CategoryRecord = CategoryRecord(id: nat, name: string, createdAt: nat)

  /** The rows a `WHERE` clause keeps, in table order. */
  function Filter(videos: seq<VideoRecord>, keep: VideoRecord -> bool): (r: seq<VideoRecord>)
    ensures |r| <= |videos|
    ensures forall k :: 0 <= k < |r| ==> keep(r[k]) && r[k] in videos
    ensures forall k :: 0 <= k < |videos| && keep(videos[k]) ==> videos[k] in r
  {
    if videos == [] then []
    else
      var rest := Filter(videos[1..], keep);
      assert forall k :: 1 <= k < |videos| ==> videos[k] == videos[1..][k - 1];
      if keep(videos[0]) then [videos[0]] + rest else rest
  }

  /** The rows with `id = $1`. */
  function VideosWithId(videos: seq<VideoRecord>, id: nat): seq<VideoRecord>
  {
    Filter(videos, (v: VideoRecord) => v.id == id)
  }

  /** The rows left by `DELETE ... WHERE id = $1`. */
  function VideosWithout(videos: seq<VideoRecord>, id: nat): seq<VideoRecord>
  {
    Filter(videos, (v: VideoRecord) => v.id != id)
  }

  /** The first category with the given name (`... WHERE name = $1 LIMIT 1`). */
  function CategoryNamed(categories: seq<CategoryRecord>, name: string): (r: Option<CategoryRecord>)
    ensures r.None? <==> forall k :: 0 <= k < |categories| ==> categories[k].name != name
    ensures r.Some? ==> r.value in categories && r.value.name == name
  {
    if categories == [] then None
    else if categories[0].name == name then Some(categories[0])
    else
      var rest := CategoryNamed(categories[1..], name);
      assert forall k :: 1 <= k < |categories| ==> categories[k] == categories[1..][k - 1];
      rest
  }

  class Db {
    var videos: seq<VideoRecord>
    var categories: seq<CategoryRecord>
    var nextVideoId: nat
    var nextCategoryId: nat
    /** The value `NOW()` gives the next insert. */
    var clock: nat

    /** Ids are unique and creation times increase along the table. */
    ghost predicate Valid()
      reads this
    {
      (forall k :: 0 <= k < |videos| ==> videos[k].id < nextVideoId && videos[k].createdAt < clock)
      && Ordered(videos)
      && (forall k :: 0 <= k < |categories| ==> categories[k].id < nextCategoryId && categories[k].createdAt < clock)
    }

    constructor ()
      ensures Valid() && videos == [] && categories == []
    {
      videos := [];
      categories := [];
      nextVideoId := 1;
      nextCategoryId := 1;
      clock := 0;
    }

    /** `INSERT INTO videos ... RETURNING *`, with `created_at = NOW()`. */
    method InsertVideo(title: string, categoryId: nat, url: string, duration: string, thumbnail: Option<string>)
      returns (row: VideoRecord)
      requires Valid()
      modifies this`videos, this`nextVideoId, this`clock
      ensures Valid()
      ensures row == VideoRecord(old(nextVideoId), title, categoryId, url, duration, thumbnail, old(clock))
      ensures videos == old(videos) + [row]
    {
      row := VideoRecord(nextVideoId, title, categoryId, url, duration, thumbnail, clock);
      videos := videos + [row];
      nextVideoId := nextVideoId + 1;
      clock := clock + 1;
    }

    /** `DELETE FROM videos WHERE id = $1 RETURNING *`. */
    method DeleteVideo(id: nat) returns (removed: seq<VideoRecord>)
      requires Valid()
      modifies this`videos
      ensures Valid()
      ensures removed == VideosWithId(old(videos), id) && videos == VideosWithout(old(videos), id)
    {
      removed := VideosWithId(videos, id);
      FilterKeepsOrder(videos, (v: VideoRecord) => v.id != id);
      videos := VideosWithout(videos, id);
    }

    /** `INSERT INTO categories (name) ... RETURNING *`. */
    method InsertCategory(name: string) returns (row: CategoryRecord)
      requires Valid()
      modifies this`categories, this`nextCategoryId, this`clock
      ensures Valid()
      ensures row == CategoryRecord(old(nextCategoryId), name, old(clock))
      ensures categories == old(categories) + [row]
    {
      row := CategoryRecord(nextCategoryId, name, clock);
      categories := categories + [row];
      nextCategoryId := nextCategoryId + 1;
      clock := clock + 1;
    }
  }

  /** Ids and creation times both increase along the table. */
  predicate Ordered(videos: seq<VideoRecord>)
  {
    forall i, j :: 0 <= i < j < |videos| ==>
      videos[i].id < videos[j].id && videos[i].createdAt < videos[j].createdAt
  }

  /** A row before every row of an ordered table keeps it ordered. */
  lemma ConsOrdered(v: VideoRecord, rest: seq<VideoRecord>)
    requires Ordered(rest)
    requires forall k :: 0 <= k < |rest| ==> v.id < rest[k].id && v.createdAt < rest[k].createdAt
    ensures Ordered([v] + rest)
  {
    var s := [v] + rest;
    forall i, j | 0 <= i < j < |s|
      ensures s[i].id < s[j].id && s[i].createdAt < s[j].createdAt
    {
      assert s[j] == rest[j - 1];
      if i > 0 {
        assert s[i] == rest[i - 1];
      }
    }
  }

  /** Keeping some rows keeps the order of ids and of creation times among them. */
  lemma {:induction false} FilterKeepsOrder(videos: seq<VideoRecord>, keep: VideoRecord -> bool)
    requires Ordered(videos)
    ensures Ordered(Filter(videos, keep))
  {
    if videos != [] {
      var tail := videos[1..];
      assert Ordered(tail) by {
        forall i, j | 0 <= i < j < |tail|
          ensures tail[i].id < tail[j].id && tail[i].createdAt < tail[j].createdAt
        {
          assert tail[i] == videos[i + 1] && tail[j] == videos[j + 1];
        }
      }
      FilterKeepsOrder(tail, keep);
      var rest := Filter(tail, keep);
      forall k | 0 <= k < |rest|
        ensures videos[0].id < rest[k].id && videos[0].createdAt < rest[k].createdAt
      {
        var m :| 0 <= m < |tail| && tail[m] == rest[k];
        assert videos[m + 1] == tail[m];
      }
      if keep(videos[0]) {
        ConsOrdered(videos[0], rest);
      }
    }
  }
}
