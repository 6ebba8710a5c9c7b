/**
 * The Express server (server/src/index.ts): an in-memory set of admin
 * session tokens, the login/logout routes, the Bearer-token guard (the
 * header form of section 2.1 of RFC 6750), the upload file filter and
 * file naming, and the video upload and delete routes over an in-memory
 * `videos` table and the uploads directory.
 */
module ExpressServer {
  import opened Common
  import opened Text

  // ---------------------------------------------------------------------
  // Sessions and the guard

  /**
   * `requireAuth` over a session set: the header with its FIRST `'Bearer '`
   * removed (wherever it occurs) must be non-empty and a live session.
   */
  predicate Authorized(sessions: set<string>, authorization: Option<string>)
    ensures Authorized(sessions, authorization) ==> authorization.Some? && exists t :: t in sessions && t != ""
  {
    authorization.Some? &&
    var token := ReplaceFirst(authorization.value, "Bearer ", "");
    token != "" && token in sessions
  }

  /** A `Bearer <token>` header passes exactly for a non-empty live token. */
  lemma BearerHeader(sessions: set<string>, token: string)
    ensures Authorized(sessions, Some("Bearer " + token)) <==> token != "" && token in sessions
  {
    ReplaceLeading("Bearer ", token);
  }

  /** A header holding a live token without any `Bearer ` also passes. */
  lemma BareTokenPasses(sessions: set<string>, token: string)
    requires token != "" && token in sessions && !Contains(token, "Bearer ")
    ensures Authorized(sessions, Some(token))
  {
  }

  /** No header, no access. */
  lemma MissingHeaderFails(sessions: set<string>)
    ensures !Authorized(sessions, None)
  {
  }

  // ---------------------------------------------------------------------
  // File names

  /** The end of `p` once trailing slashes are dropped. */
  function TrimmedEnd(p: string, e: nat): (r: nat)
    requires e <= |p|
    ensures r <= e
    ensures r > 0 ==> p[r - 1] != '/'
    ensures forall k :: r <= k < e ==> p[k] == '/'
  {
    if e == 0 || p[e - 1] != '/' then e else TrimmedEnd(p, e - 1)
  }

  /** The start of the last segment ending at `e`: just after the slash before it. */
  function SegmentStart(p: string, e: nat): (r: nat)
    requires e <= |p|
    ensures r <= e
    ensures forall k :: r <= k < e ==> p[k] != '/'
    ensures r > 0 ==> p[r - 1] == '/'
  {
    if e == 0 || p[e - 1] == '/' then e else SegmentStart(p, e - 1)
  }

  /** The last segment of a path, trailing slashes ignored (`path.basename`). */
  function Basename(p: string): (b: string)
    ensures !Contains(b, "/")
  {
    var e := TrimmedEnd(p, |p|);
    var s := SegmentStart(p, e);
    var b := p[s..e];
    assert forall j :: !StartsAt(b, "/", j) by {
      forall j
        ensures !StartsAt(b, "/", j)
      {
        CharAt(b, '/', j);
      }
    }
    b
  }

  lemma NoSlashInSuffix(b: string, d: nat)
    requires !Contains(b, "/") && d <= |b|
    ensures !Contains(b[d..], "/")
  {
    forall j
      ensures !StartsAt(b[d..], "/", j)
    {
      CharAt(b[d..], '/', j);
      if 0 <= j < |b| - d {
        NotAt(b, '/', d + j);
      }
    }
  }

  /**
   * `path.extname` (POSIX): from the last `.` of the last segment to its end;
   * empty when there is no dot, when the dot opens the segment, or when the
   * segment is `..`.
   */
  function Extname(p: string): (r: string)
    ensures r != "" ==> r[0] == '.' && !Contains(r, "/") && !Contains(r[1..], ".")
  {
    var b := Basename(p);
    var d := LastIndexOf(b, ".");
    if d <= 0 || b == ".." then ""
    else
      CharAt(b, '.', d);
      NoSlashInSuffix(b, d);
      NoDotAfterLast(b, d);
      b[d..]
  }

  lemma NoDotAfterLast(b: string, d: nat)
    requires d < |b| && forall j :: d < j ==> !StartsAt(b, ".", j)
    ensures !Contains(b[d..][1..], ".")
  {
    var t := b[d..][1..];
    forall j
      ensures !StartsAt(t, ".", j)
    {
      CharAt(t, '.', j);
      CharAt(b, '.', d + 1 + j);
    }
  }

  /** A string made of no `c` at any position does not contain `c`. */
  lemma Absent(s: string, c: char)
    requires forall k :: 0 <= k < |s| ==> s[k] != c
    ensures !Contains(s, [c])
  {
    forall j
      ensures !StartsAt(s, [c], j)
    {
      CharAt(s, c, j);
    }
  }

  /** A name with no slash is its own last segment. */
  lemma BasenameOfPlainName(p: string)
    requires !Contains(p, "/")
    ensures Basename(p) == p
  {
    forall k | 0 <= k < |p|
      ensures p[k] != '/'
    {
      NotAt(p, '/', k);
    }
    assert TrimmedEnd(p, |p|) == |p|;
    SegmentStartFrom(p, |p|, 0);
  }

  /** The last segment of `dir/name` is `name`, whatever the directory part holds. */
  lemma BasenameOfJoin(dir: string, name: string)
    requires name != "" && !Contains(name, "/")
    ensures Basename(dir + "/" + name) == name
  {
    var p := dir + "/" + name;
    forall k | |dir| < k < |p|
      ensures p[k] != '/'
    {
      NotAt(name, '/', k - |dir| - 1);
    }
    assert TrimmedEnd(p, |p|) == |p|;
    SegmentStartFrom(p, |p|, |dir| + 1);
    assert p[|dir| + 1..] == name;
  }

  /** A plain name without a dot has no extension. */
  lemma ExtnameOfDotless(name: string)
    requires !Contains(name, "/") && !Contains(name, ".")
    ensures Extname(name) == ""
  {
    BasenameOfPlainName(name);
  }

  /** A name whose only dot opens it, such as `.mp4`, has no extension either. */
  lemma ExtnameOfLeadingDot(ext: string)
    requires !Contains(ext, "/") && !Contains(ext, ".")
    ensures Extname("." + ext) == ""
  {
    var p := "." + ext;
    forall k | 0 <= k < |p|
      ensures p[k] != '/'
    {
      if k > 0 {
        NotAt(ext, '/', k - 1);
      }
    }
    Absent(p, '/');
    BasenameOfPlainName(p);
    LastBeforeSuffix("", '.', ext);
    assert "" + "." + ext == p;
  }

  /** A plain name `stem.ext`, with no slash and a dot-free extension, has extension `.ext`. */
  lemma ExtnameOfPlainName(stem: string, ext: string)
    requires stem != "" && !Contains(stem, "/")
    requires !Contains(ext, "/") && !Contains(ext, ".")
    requires ext == "" ==> stem != "."
    ensures Extname(stem + "." + ext) == "." + ext
  {
    var p := stem + "." + ext;
    forall k | 0 <= k < |p|
      ensures p[k] != '/'
    {
      if k < |stem| {
        NotAt(stem, '/', k);
      } else if k > |stem| {
        NotAt(ext, '/', k - |stem| - 1);
      }
    }
    assert TrimmedEnd(p, |p|) == |p|;
    SegmentStartFrom(p, |p|, 0);
    assert Basename(p) == p;
    LastBeforeSuffix(stem, '.', ext);
    assert p[|stem|..] == "." + ext;
  }

  /** A segment that runs from just after a slash (or from the start) to `e` starts there. */
  lemma {:induction false} SegmentStartFrom(p: string, e: nat, start: nat)
    requires start <= e <= |p|
    requires start > 0 ==> p[start - 1] == '/'
    requires forall k :: start <= k < e ==> p[k] != '/'
    ensures SegmentStart(p, e) == start
    decreases e
  {
    if e > start {
      SegmentStartFrom(p, e - 1, start);
    }
  }

  /** The extensions the upload filter lists. */
  const AllowedTypes: seq<string> := [".mov", ".mp4", ".MOV", ".MP4"]

  /** `fileFilter`: the lower-cased extension must be in the list. */
  predicate FileFilter(originalname: string)
    ensures FileFilter(originalname) ==> |Extname(originalname)| == 4
  {
    Lower(Extname(originalname)) in AllowedTypes
  }

  /** A plain name without a dot, or whose only dot opens it (such as `.mp4`), is refused. */
  lemma FileFilterRefusesNoExtension(name: string)
    requires !Contains(name, "/")
    requires !Contains(name, ".") || (name != "" && name[0] == '.' && !Contains(name[1..], "."))
    ensures !FileFilter(name)
  {
    if Contains(name, ".") {
      NoSlashInSuffix(name, 1);
      assert name == "." + name[1..];
      ExtnameOfLeadingDot(name[1..]);
    } else {
      ExtnameOfDotless(name);
    }
  }

  /** The filter accepts exactly `.mov` and `.mp4` in any letter case; the upper-case entries never match. */
  lemma FileFilterLowerOnly(originalname: string)
    ensures FileFilter(originalname) <==>
      Lower(Extname(originalname)) == ".mov" || Lower(Extname(originalname)) == ".mp4"
  {
    var x := Lower(Extname(originalname));
    LowerHasNoUpper(Extname(originalname));
    if |x| > 1 {
      assert !('A' <= x[1] <= 'Z');
    }
  }

  /** The multer file name: `<ms>-<random>` followed by the original extension. */
  function StoredFilename(timestamp: nat, random: nat, originalname: string): (f: string)
    ensures Decimal(timestamp) + "-" + Decimal(random) <= f
    ensures f[|Decimal(timestamp) + "-" + Decimal(random)|..] == Extname(originalname)
  {
    var prefix := Decimal(timestamp) + "-" + Decimal(random);
    var f := prefix + Extname(originalname);
    assert f[..|prefix|] == prefix;
    f
  }

  /** `<digits>-<digits>` holds no slash and no dot. */
  lemma StampPlain(timestamp: nat, random: nat)
    ensures var prefix := Decimal(timestamp) + "-" + Decimal(random);
      !Contains(prefix, "/") && !Contains(prefix, ".") && prefix != "."
  {
    var prefix := Decimal(timestamp) + "-" + Decimal(random);
    forall k | 0 <= k < |prefix|
      ensures prefix[k] != '/' && prefix[k] != '.'
    {
      if k < |Decimal(timestamp)| {
        assert IsDigit(Decimal(timestamp)[k]);
      } else if k > |Decimal(timestamp)| {
        assert IsDigit(Decimal(random)[k - |Decimal(timestamp)| - 1]);
      }
    }
    Absent(prefix, '/');
    Absent(prefix, '.');
  }

  /** Two strings without `c` join into one without `c`. */
  lemma AbsentJoin(a: string, b: string, c: char)
    requires !Contains(a, [c]) && !Contains(b, [c])
    ensures !Contains(a + b, [c])
  {
    forall k | 0 <= k < |a + b|
      ensures (a + b)[k] != c
    {
      if k < |a| {
        NotAt(a, c, k);
      } else {
        NotAt(b, c, k - |a|);
      }
    }
    Absent(a + b, c);
  }

  /**
   * The stored file keeps the extension the filter checked, and its name has
   * no slash, so it stays inside the uploads directory.
   */
  lemma StoredKeepsExtension(timestamp: nat, random: nat, originalname: string)
    ensures var f := StoredFilename(timestamp, random, originalname);
      f != "" && !Contains(f, "/") && Extname(f) == Extname(originalname)
  {
    var prefix := Decimal(timestamp) + "-" + Decimal(random);
    var e := Extname(originalname);
    assert StoredFilename(timestamp, random, originalname) == prefix + e;
    StampPlain(timestamp, random);
    AbsentJoin(prefix, e, '/');
    if e == "" {
      assert prefix + e == prefix;
      ExtnameOfDotless(prefix);
    } else {
      var ext := e[1..];
      NoSlashInSuffix(e, 1);
      assert prefix + e == prefix + "." + ext;
      ExtnameOfPlainName(prefix, ext);
    }
  }

  /** The URL the upload route answers: the stored file, served under `/uploads/`. */
  function UploadUrl(filename: string): (url: string)
    ensures "/uploads/" <= url && url[|"/uploads/"|..] == filename
  {
    "/uploads/" + filename
  }

  /** The last segment of the URL of a stored file is that file, with its extension. */
  lemma ServedUnderUploads(filename: string)
    requires filename != "" && !Contains(filename, "/")
    ensures Basename(UploadUrl(filename)) == filename
    ensures Extname(UploadUrl(filename)) == Extname(filename)
  {
    assert UploadUrl(filename) == "/uploads" + "/" + filename;
    BasenameOfJoin("/uploads", filename);
    BasenameOfPlainName(filename);
  }

  /** A stored upload is served at a URL whose extension is the original file's. */
  lemma UploadUrlKeepsExtension(timestamp: nat, random: nat, originalname: string)
    ensures Extname(UploadUrl(StoredFilename(timestamp, random, originalname))) == Extname(originalname)
  {
    StoredKeepsExtension(timestamp, random, originalname);
    ServedUnderUploads(StoredFilename(timestamp, random, originalname));
  }

  // ---------------------------------------------------------------------
  // Display order

  /** `MAX(display_order)`: nulls are ignored; null when no row has an order. */
  function MaxOrder(orders: seq<Option<int>>): (r: Option<int>)
    ensures r.None? <==> forall k :: 0 <= k < |orders| ==> orders[k].None?
    ensures r.Some? ==> forall k :: 0 <= k < |orders| && orders[k].Some? ==> orders[k].value <= r.value
    ensures r.Some? ==> exists k :: 0 <= k < |orders| && orders[k] == r
  {
    if orders == [] then None
    else
      var rest := MaxOrder(orders[1..]);
      assert forall k :: 1 <= k < |orders| ==> orders[k] == orders[1..][k - 1];
      if orders[0].None? then rest
      else if rest.None? || rest.value < orders[0].value then orders[0]
      else rest
  }

  /** `(max_order || 0) + 1`. */
  function NextOrder(orders: seq<Option<int>>): (r: int)
    ensures forall k :: 0 <= k < |orders| && orders[k].Some? ==> orders[k].value < r
  {
    var m := MaxOrder(orders);
    (if m.Some? && m.value != 0 then m.value else 0) + 1
  }

  /** The next order is above every order already stored, and 1 when none is. */
  lemma NextOrderAbove(orders: seq<Option<int>>)
    ensures forall k :: 0 <= k < |orders| && orders[k].Some? ==> orders[k].value < NextOrder(orders)
    ensures (forall k :: 0 <= k < |orders| ==> orders[k].None?) ==> NextOrder(orders) == 1
  {
  }

  // ---------------------------------------------------------------------
  // The server state

  datatype VideoRow = VideoRow(
    id: nat,
    title: Option<string>,
    categoryId: Option<string>,
    url: string,
    duration: string,
    displayOrder: Option<int>)

  datatype Body =
    | LoginOk(token: string)            // { success: true, token }
    | LoginFailed(message: string)      // { success: false, message }
    | Success                           // { success: true }
    | ErrorBody(error: string)          // { error }
    | RowBody(row: VideoRow)            // the inserted row

  datatype Response = Response(status: int, body: Body)

  /** A file multer received: the client's name for it. */
  datatype IncomingFile = IncomingFile(originalname: string)

  function Orders(rows: seq<VideoRow>): (r: seq<Option<int>>)
    ensures |r| == |rows| && forall k :: 0 <= k < |rows| ==> r[k] == rows[k].displayOrder
  {
    seq(|rows|, k requires 0 <= k < |rows| => rows[k].displayOrder)
  }

  /** The rows left after `DELETE FROM videos WHERE id = $1`. */
  function WithoutId(rows: seq<VideoRow>, id: nat): (r: seq<VideoRow>)
    ensures forall k :: 0 <= k < |r| ==> r[k].id != id && r[k] in rows
    ensures forall k :: 0 <= k < |rows| && rows[k].id != id ==> rows[k] in r
    ensures |r| <= |rows|
  {
    if rows == [] then []
    else if rows[0].id == id then WithoutId(rows[1..], id)
    else [rows[0]] + WithoutId(rows[1..], id)
  }

  /** The url of the first row with the id, as `SELECT url ... WHERE id = $1` returns it. */
  function UrlOf(rows: seq<VideoRow>, id: nat): (r: Option<string>)
    ensures r.Some? <==> exists k :: 0 <= k < |rows| && rows[k].id == id
    ensures r.Some? ==> exists k :: 0 <= k < |rows| && rows[k].id == id && rows[k].url == r.value
  {
    if rows == [] then None
    else if rows[0].id == id then Some(rows[0].url)
    else
      var rest := UrlOf(rows[1..], id);
      assert forall k :: 1 <= k < |rows| ==> rows[k] == rows[1..][k - 1];
      rest
  }

  class Server {
    /** `ADMIN_PASSWORD`, possibly unset. */
    const adminPassword: Option<string>
    var sessions: set<string>
    var videos: seq<VideoRow>
    /** The next id the database hands out. */
    var nextId: nat
    /** The files in the uploads directory, by URL. */
    var files: set<string>

    ghost predicate Valid()
      reads this
    {
      forall k :: 0 <= k < |videos| ==> videos[k].id < nextId
    }

    constructor (adminPassword: Option<string>)
      ensures Valid() && this.adminPassword == adminPassword
      ensures sessions == {} && videos == [] && files == {}
    {
      this.adminPassword := adminPassword;
      sessions := {};
      videos := [];
      nextId := 1;
      files := {};
    }

    /**
     * `POST /api/admin/login`: strict equality with the configured password
     * (an absent password equals an unset one) adds the fresh `token`.
     */
    method Login(password: Option<string>, token: string) returns (resp: Response)
      modifies this`sessions
      ensures password == adminPassword ==>
        sessions == old(sessions) + {token} && resp == Response(200, LoginOk(token))
      ensures password != adminPassword ==>
        sessions == old(sessions) && resp == Response(401, LoginFailed("Invalid password"))
    {
      if password == adminPassword {
        sessions := sessions + {token};
        resp := Response(200, LoginOk(token));
      } else {
        resp := Response(401, LoginFailed("Invalid password"));
      }
    }

    /** `POST /api/admin/logout`: forgets that one token, if any, and always succeeds. */
    method Logout(token: Option<string>) returns (resp: Response)
      modifies this`sessions
      ensures token.Some? ==> sessions == old(sessions) - {token.value}
      ensures token.None? ==> sessions == old(sessions)
      ensures resp == Response(200, Success)
    {
      if token.Some? {
        sessions := sessions - {token.value};
      }
      resp := Response(200, Success);
    }

    /**
     * `POST /api/videos/upload`: the guard (401), then multer (a file the
     * filter refuses ends in Express's error handler, 500), then the
     * handler: no file 400 before any query, otherwise the row is inserted
     * with the next display order.
     */
    method UploadVideo(authorization: Option<string>, file: Option<IncomingFile>,
                       title: Option<string>, categoryId: Option<string>, duration: Option<string>,
                       timestamp: nat, random: nat, dbFails: bool)
      returns (resp: Response)
      requires Valid()
      modifies this`videos, this`nextId, this`files
      ensures Valid()
      ensures !Authorized(sessions, authorization) ==>
        resp == Response(401, ErrorBody("Unauthorized"))
        && videos == old(videos) && files == old(files)
      ensures Authorized(sessions, authorization) && file.Some? && !FileFilter(file.value.originalname) ==>
        resp == Response(500, ErrorBody("Only .mov and .mp4 files are allowed"))
        && videos == old(videos) && files == old(files)
      ensures Authorized(sessions, authorization) && file.None? ==>
        resp == Response(400, ErrorBody("No file uploaded")) && videos == old(videos) && files == old(files)
      ensures Authorized(sessions, authorization) && file.Some? && FileFilter(file.value.originalname) ==>
        var url := UploadUrl(StoredFilename(timestamp, random, file.value.originalname));
        files == old(files) + {url}
        && if dbFails then
             resp == Response(500, ErrorBody("Failed to upload video")) && videos == old(videos)
           else
             var row := VideoRow(old(nextId), title, if Truthy(categoryId) then categoryId else None,
                                 url, if Truthy(duration) then duration.value else "0.6s",
                                 Some(NextOrder(Orders(old(videos)))));
             videos == old(videos) + [row] && resp == Response(200, RowBody(row))
    {
      if !Authorized(sessions, authorization) {
        return Response(401, ErrorBody("Unauthorized"));
      }
      if file.Some? && !FileFilter(file.value.originalname) {
        return Response(500, ErrorBody("Only .mov and .mp4 files are allowed"));
      }
      if file.None? {
        return Response(400, ErrorBody("No file uploaded"));
      }
      var videoUrl := UploadUrl(StoredFilename(timestamp, random, file.value.originalname));
      files := files + {videoUrl};
      if dbFails {
        return Response(500, ErrorBody("Failed to upload video"));
      }
      var nextOrder := NextOrder(Orders(videos));
      var row := VideoRow(nextId, title, if Truthy(categoryId) then categoryId else None,
                          videoUrl, if Truthy(duration) then duration.value else "0.6s", Some(nextOrder));
      videos := videos + [row];
      nextId := nextId + 1;
      resp := Response(200, RowBody(row));
    }

    /**
     * `DELETE /api/videos/:id`: removes the stored file of the row, if both
     * exist, then every row with the id, and reports success either way.
     */
    method DeleteVideo(authorization: Option<string>, id: nat, dbFails: bool) returns (resp: Response)
      requires Valid()
      modifies this`videos, this`files
      ensures Valid()
      ensures !Authorized(sessions, authorization) ==>
        resp == Response(401, ErrorBody("Unauthorized")) && videos == old(videos) && files == old(files)
      ensures Authorized(sessions, authorization) && dbFails ==>
        resp == Response(500, ErrorBody("Failed to delete video")) && videos == old(videos) && files == old(files)
      ensures Authorized(sessions, authorization) && !dbFails ==>
        resp == Response(200, Success) && videos == WithoutId(old(videos), id)
        && files == old(files) - (if UrlOf(old(videos), id).Some? then {UrlOf(old(videos), id).value} else {})
    {
      if !Authorized(sessions, authorization) {
        return Response(401, ErrorBody("Unauthorized"));
      }
      if dbFails {
        return Response(500, ErrorBody("Failed to delete video"));
      }
      var url := UrlOf(videos, id);
      if url.Some? && url.value in files {
        files := files - {url.value};
      }
      videos := WithoutId(videos, id);
      resp := Response(200, Success);
    }
  }

  /** Logging out revokes exactly the given token: every other session still passes the guard. */
  lemma LogoutRevokes(sessions: set<string>, token: string, other: string)
    requires other != token
    ensures !Authorized(sessions - {token}, Some("Bearer " + token))
    ensures Authorized(sessions - {token}, Some("Bearer " + other)) <==> Authorized(sessions, Some("Bearer " + other))
  {
    BearerHeader(sessions - {token}, token);
    BearerHeader(sessions - {token}, other);
    BearerHeader(sessions, other);
  }

  /** A successful login makes its token pass the guard, unless the token is empty. */
  method LoginThenGuard(s: Server, token: string)
    modifies s
    ensures Authorized(s.sessions, Some("Bearer " + token)) <==> token != ""
  {
    var _ := s.Login(s.adminPassword, token);
    BearerHeader(s.sessions, token);
  }

  /** With `ADMIN_PASSWORD` unset, a login body without a password is accepted. */
  method UnsetPasswordAcceptsMissingPassword(token: string) returns (resp: Response)
    ensures resp == Response(200, LoginOk(token))
  {
    var s := new Server(None);
    resp := s.Login(None, token);
  }
}
