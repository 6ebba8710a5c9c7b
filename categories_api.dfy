/**
 * The serverless categories endpoint (api/categories.ts): GET lists every
 * category ordered by name with the number of videos filed under it; POST
 * creates a category after checking the name.
 */
module CategoriesApi {
  import opened Common
  import opened Database

  // ---------------------------------------------------------------------
  // Counting

  /** The number of rows filed under a category: what `COUNT(*) ... GROUP BY category_id` gives. */
  function CountOf(videos: seq<VideoRecord>, categoryId: nat): (n: nat)
    ensures n <= |videos|
    ensures n == 0 <==> forall k :: 0 <= k < |videos| ==> videos[k].categoryId != categoryId
  {
    if videos == [] then 0
    else
      var init := videos[..|videos| - 1];
      assert forall k :: 0 <= k < |init| ==> init[k] == videos[k];
      CountOf(init, categoryId) + if videos[|videos| - 1].categoryId == categoryId then 1 else 0
  }

  /** `counts` holds, for each category id occurring in `videos`, its count, and nothing else. */
  ghost predicate Tallies(counts: map<nat, nat>, videos: seq<VideoRecord>)
  {
    forall c :: (c in counts <==> CountOf(videos, c) > 0) && (c in counts ==> counts[c] == CountOf(videos, c))
  }

  /** Counting one more row adds one to its category and leaves the others. */
  lemma TallyStep(counts: map<nat, nat>, videos: seq<VideoRecord>, i: nat)
    requires i < |videos| && Tallies(counts, videos[..i])
    ensures var c := videos[i].categoryId;
      Tallies(counts[c := if c in counts then counts[c] + 1 else 1], videos[..i + 1])
  {
    assert videos[..i + 1][..i] == videos[..i];
  }

  /**
   * The grouped counts reduced into a dictionary (`acc[row.category_id] =
   * count`): one entry per category id that occurs, holding its count.
   */
  method CountByCategory(videos: seq<VideoRecord>) returns (counts: map<nat, nat>)
    ensures forall c :: c in counts <==> CountOf(videos, c) > 0
    ensures forall c :: c in counts ==> counts[c] == CountOf(videos, c)
  {
    counts := map[];
    var i := 0;
    while i < |videos|
      invariant 0 <= i <= |videos|
      invariant Tallies(counts, videos[..i])
    {
      var c := videos[i].categoryId;
      TallyStep(counts, videos, i);
      if c in counts {
        counts := counts[c := counts[c] + 1];
      } else {
        counts := counts[c := 1];
      }
      i := i + 1;
    }
    assert videos[..i] == videos;
  }

  // ---------------------------------------------------------------------
  // Ordering by name

  /** Lexicographic order on code units, standing for the database's ordering of `name`. */
  predicate NameLeq(a: string, b: string)
    decreases |a|
  {
    a == [] || (b != [] && (a[0] < b[0] || (a[0] == b[0] && NameLeq(a[1..], b[1..]))))
  }

  lemma {:induction false} NameLeqTotal(a: string, b: string)
    ensures NameLeq(a, b) || NameLeq(b, a)
    decreases |a|
  {
    if a != [] && b != [] && a[0] == b[0] {
      NameLeqTotal(a[1..], b[1..]);
    }
  }

  lemma {:induction false} NameLeqTrans(a: string, b: string, c: string)
    requires NameLeq(a, b) && NameLeq(b, c)
    ensures NameLeq(a, c)
    decreases |a|
  {
    if a != [] && b != [] && c != [] && a[0] == b[0] && b[0] == c[0] {
      NameLeqTrans(a[1..], b[1..], c[1..]);
    }
  }

  predicate SortedByName(s: seq<CategoryRecord>)
  {
    forall i, j :: 0 <= i < j < |s| ==> NameLeq(s[i].name, s[j].name)
  }

  function Insert(c: CategoryRecord, s: seq<CategoryRecord>): (r: seq<CategoryRecord>)
    ensures multiset(r) == multiset(s) + multiset{c}
  {
    if s == [] || NameLeq(c.name, s[0].name) then [c] + s
    else
      assert s == [s[0]] + s[1..];
      [s[0]] + Insert(c, s[1..])
  }

  /** Every name in `s` is at least `x`. */
  predicate AllAtLeast(x: string, s: seq<CategoryRecord>)
  {
    forall k :: 0 <= k < |s| ==> NameLeq(x, s[k].name)
  }

  /** A head no greater than every later name keeps a sorted list sorted. */
  lemma ConsSorted(h: CategoryRecord, t: seq<CategoryRecord>)
    requires SortedByName(t) && AllAtLeast(h.name, t)
    ensures SortedByName([h] + t)
  {
    var r := [h] + t;
    forall i, j | 0 <= i < j < |r|
      ensures NameLeq(r[i].name, r[j].name)
    {
      assert r[j] == t[j - 1];
      if i > 0 {
        assert r[i] == t[i - 1];
      }
    }
  }

  /** A lower bound of a list and of `c` is a lower bound of the list with `c` inserted. */
  lemma InsertKeepsBound(x: string, c: CategoryRecord, s: seq<CategoryRecord>)
    requires AllAtLeast(x, s) && NameLeq(x, c.name)
    ensures AllAtLeast(x, Insert(c, s))
  {
    var t := Insert(c, s);
    forall k | 0 <= k < |t|
      ensures NameLeq(x, t[k].name)
    {
      assert t[k] in multiset(t);
      if t[k] != c {
        assert t[k] in multiset(s);
        var m :| 0 <= m < |s| && s[m] == t[k];
      }
    }
  }

  lemma SortedTail(s: seq<CategoryRecord>)
    requires SortedByName(s) && s != []
    ensures SortedByName(s[1..]) && AllAtLeast(s[0].name, s[1..])
  {
  }

  lemma {:induction false} InsertSorted(c: CategoryRecord, s: seq<CategoryRecord>)
    requires SortedByName(s)
    ensures SortedByName(Insert(c, s))
    decreases |s|
  {
    if s == [] {
    } else if NameLeq(c.name, s[0].name) {
      SortedTail(s);
      forall k | 0 <= k < |s|
        ensures NameLeq(c.name, s[k].name)
      {
        if k > 0 {
          NameLeqTrans(c.name, s[0].name, s[k].name);
        }
      }
      ConsSorted(c, s);
    } else {
      NameLeqTotal(c.name, s[0].name);
      SortedTail(s);
      InsertSorted(c, s[1..]);
      InsertKeepsBound(s[0].name, c, s[1..]);
      ConsSorted(s[0], Insert(c, s[1..]));
    }
  }

  /** `ORDER BY name`. */
  function SortByName(s: seq<CategoryRecord>): (r: seq<CategoryRecord>)
    ensures multiset(r) == multiset(s)
  {
    if s == [] then []
    else
      assert s == [s[0]] + s[1..];
      Insert(s[0], SortByName(s[1..]))
  }

  /** The order is by name and holds every category exactly as often as the table does. */
  lemma {:induction false} SortByNameSorted(s: seq<CategoryRecord>)
    ensures SortedByName(SortByName(s))
    ensures multiset(SortByName(s)) == multiset(s)
  {
    if s != [] {
      SortByNameSorted(s[1..]);
      InsertSorted(s[0], SortByName(s[1..]));
    }
  }

  // ---------------------------------------------------------------------
  // The listing

  /** `{ ...cat, count: videoCounts[cat.id] || 0 }`. */
  datatype CategoryWithCount = CategoryWithCount(category: CategoryRecord, count: nat)

  /** The reference listing: every category by name, with its count of rows. */
  function Listing(categories: seq<CategoryRecord>, videos: seq<VideoRecord>): (r: seq<CategoryWithCount>)
    ensures |r| == |categories|
  {
    var sorted := SortByName(categories);
    assert |sorted| == |multiset(sorted)| == |multiset(categories)| == |categories|;
    seq(|sorted|, i requires 0 <= i < |sorted| => CategoryWithCount(sorted[i], CountOf(videos, sorted[i].id)))
  }

  /** Each entry counts exactly the rows of its category, and the entries are ordered by name. */
  lemma ListingCountsAndOrder(categories: seq<CategoryRecord>, videos: seq<VideoRecord>)
    ensures var r := Listing(categories, videos);
      (forall i :: 0 <= i < |r| ==> r[i].count == CountOf(videos, r[i].category.id))
      && (forall i, j :: 0 <= i < j < |r| ==> NameLeq(r[i].category.name, r[j].category.name))
  {
    SortByNameSorted(categories);
  }

  /** Every category appears in the listing with all its fields, including those without videos. */
  lemma ListingKeepsCategories(categories: seq<CategoryRecord>, videos: seq<VideoRecord>, c: CategoryRecord)
    ensures c in categories <==> exists i :: 0 <= i < |Listing(categories, videos)| && Listing(categories, videos)[i].category == c
  {
    var sorted := SortByName(categories);
    var r := Listing(categories, videos);
    assert forall i :: 0 <= i < |r| ==> r[i].category == sorted[i];
    assert c in categories <==> c in multiset(categories);
    assert c in sorted <==> c in multiset(sorted);
    if c in sorted {
      var i :| 0 <= i < |sorted| && sorted[i] == c;
      assert r[i].category == c;
    }
  }

  /** A video filed under an id no category has changes no count. */
  lemma DanglingVideoCountsNothing(categories: seq<CategoryRecord>, videos: seq<VideoRecord>, v: VideoRecord)
    requires forall k :: 0 <= k < |categories| ==> categories[k].id != v.categoryId
    ensures Listing(categories, videos + [v]) == Listing(categories, videos)
  {
    var sorted := SortByName(categories);
    forall i | 0 <= i < |sorted|
      ensures CountOf(videos + [v], sorted[i].id) == CountOf(videos, sorted[i].id)
    {
      assert sorted[i] in multiset(categories);
      assert (videos + [v])[..|videos|] == videos;
    }
  }

  /** Three videos filed under a category give it a count of three, and none elsewhere. */
  lemma ThreeVideosCountThree(a: VideoRecord, b: VideoRecord, c: VideoRecord, id: nat, other: nat)
    requires a.categoryId == id && b.categoryId == id && c.categoryId == id && other != id
    ensures CountOf([a, b, c], id) == 3 && CountOf([a, b, c], other) == 0
  {
    assert [a, b, c][..2] == [a, b];
    assert [a, b][..1] == [a];
    assert [a][..0] == [];
    assert CountOf([a], id) == 1;
    assert CountOf([a, b], id) == 2;
  }

  // ---------------------------------------------------------------------
  // The handler

  datatype Body =
    | CountedList(categories: seq<CategoryWithCount>)
    | Created(category: CategoryRecord)
    | ErrorBody(error: string)

  datatype Response = Response(status: int, body: Body)

  /**
   * The parsed JSON body of a POST: `NoBody` when Express left `req.body`
   * as `null`, so that destructuring `name` out of it throws.
   */
  datatype PostBody = NoBody | Fields(name: Option<string>)

  /** `handler`: GET lists, POST creates after checking the name, anything else 405. */
  method Handle(db: Db, httpMethod: string, body: PostBody, failure: Option<string>) returns (resp: Response)
    requires db.Valid()
    modifies db`categories, db`nextCategoryId, db`clock
    ensures db.Valid() && db.videos == old(db.videos)
    ensures httpMethod == "GET" && failure.Some? ==> resp == Response(500, ErrorBody("Database error"))
    ensures httpMethod == "GET" && failure.None? ==>
      resp == Response(200, CountedList(Listing(db.categories, db.videos)))
    ensures httpMethod == "GET" ==> db.categories == old(db.categories)
    ensures httpMethod == "POST" && body.NoBody? ==>
      resp == Response(500, ErrorBody("Database error")) && db.categories == old(db.categories)
    ensures httpMethod == "POST" && body.Fields? && !Truthy(body.name) ==>
      resp == Response(400, ErrorBody("Category name required")) && db.categories == old(db.categories)
    ensures httpMethod == "POST" && body.Fields? && Truthy(body.name) && failure.Some? ==>
      resp == Response(500, ErrorBody("Database error")) && db.categories == old(db.categories)
    ensures httpMethod == "POST" && body.Fields? && Truthy(body.name) && failure.None? ==>
      var row := CategoryRecord(old(db.nextCategoryId), body.name.value, old(db.clock));
      resp == Response(201, Created(row)) && db.categories == old(db.categories) + [row]
    ensures httpMethod != "GET" && httpMethod != "POST" ==>
      resp == Response(405, ErrorBody("Method not allowed")) && db.categories == old(db.categories)
  {
    if httpMethod == "GET" {
      if failure.Some? {
        return Response(500, ErrorBody("Database error"));
      }
      var sorted := SortByName(db.categories);
      var counts := CountByCategory(db.videos);
      var listed := seq(|sorted|, i requires 0 <= i < |sorted| =>
        CategoryWithCount(sorted[i], if sorted[i].id in counts then counts[sorted[i].id] else 0));
      assert listed == Listing(db.categories, db.videos);
      return Response(200, CountedList(listed));
    }
    if httpMethod == "POST" {
      if body.NoBody? {
        return Response(500, ErrorBody("Database error"));
      }
      if !Truthy(body.name) {
        return Response(400, ErrorBody("Category name required"));
      }
      if failure.Some? {
        return Response(500, ErrorBody("Database error"));
      }
      var row := db.InsertCategory(body.name.value);
      return Response(201, Created(row));
    }
    resp := Response(405, ErrorBody("Method not allowed"));
  }
}
