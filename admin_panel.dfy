/**
 * The admin panel page (Admin.tsx): client-side checks on the selected video
 * file, the upload progress driven by a 500 ms interval, the category and
 * title filters over the video list, the list of distinct titles, the
 * default category of the add-video form and the form schemas.
 * Timers are explicit events: `Tick` is one firing of an interval.
 */
module AdminPanel {
  import opened Common
  import opened Text

  // ---------------------------------------------------------------------
  // File checks

  const MaxUploadBytes: nat := 500 * 1024 * 1024

  datatype SelectedFile = SelectedFile(mimeType: string, size: nat)

  datatype FileCheck = NoFile | InvalidType | TooLarge | Accepted

  /** The checks of `handleFileUpload`, in order: a file, a `video/` type, then the size. */
  function CheckFile(file: Option<SelectedFile>): (r: FileCheck)
    ensures r == NoFile <==> file.None?
    ensures r == InvalidType <==> file.Some? && !StartsWith(file.value.mimeType, "video/")
    ensures r == TooLarge <==>
      file.Some? && StartsWith(file.value.mimeType, "video/") && file.value.size > MaxUploadBytes
    ensures r == Accepted <==>
      file.Some? && StartsWith(file.value.mimeType, "video/") && file.value.size <= MaxUploadBytes
  {
    if file.None? then NoFile
    else if !StartsWith(file.value.mimeType, "video/") then InvalidType
    else if file.value.size > MaxUploadBytes then TooLarge
    else Accepted
  }

  /** Exactly 500 MiB passes; one byte more does not, and a non-video type fails whatever its size. */
  lemma SizeBoundary(mimeType: string, other: string)
    requires StartsWith(mimeType, "video/")
    requires !StartsWith(other, "video/")
    ensures CheckFile(Some(SelectedFile(mimeType, 524288000))) == Accepted
    ensures CheckFile(Some(SelectedFile(mimeType, 524288001))) == TooLarge
    ensures forall size: nat :: CheckFile(Some(SelectedFile(other, size))) == InvalidType
  {
  }

  // ---------------------------------------------------------------------
  // The add-video form

  class VideoForm {
    var title: string
    var categoryId: string
    var url: string

    constructor ()
      ensures title == "" && categoryId == "" && url == ""
    {
      title := "";
      categoryId := "";
      url := "";
    }

    /** The effect on `[categories]`: an empty category is set to the first category's id. */
    method DefaultCategoryEffect(categoryIds: seq<string>)
      modifies this`categoryId
      ensures old(categoryId) == "" && categoryIds != [] ==> categoryId == categoryIds[0]
      ensures !(old(categoryId) == "" && categoryIds != []) ==> categoryId == old(categoryId)
    {
      if |categoryIds| > 0 && categoryId == "" {
        categoryId := categoryIds[0];
      }
    }

    /** The reset after a video was added: the first category again, or empty. */
    method ResetAfterAdd(categoryIds: seq<string>)
      modifies this
      ensures title == "" && url == ""
      ensures categoryId == if categoryIds != [] then categoryIds[0] else ""
    {
      title := "";
      url := "";
      categoryId := if categoryIds != [] then categoryIds[0] else "";
    }
  }

  /** The Zod schema of the video form: one message per failing field, in field order. */
  function VideoFormErrors(title: string, categoryId: string, url: string, isUrl: bool): (r: seq<string>)
    ensures r == [] <==> title != "" && categoryId != "" && isUrl
    ensures title == "" ==> r[0] == "Title is required"
    ensures "Category is required" in r <==> categoryId == ""
    ensures "Must be a valid URL" in r <==> !isUrl
  {
    (if title == "" then ["Title is required"] else [])
    + (if categoryId == "" then ["Category is required"] else [])
    + (if isUrl then [] else ["Must be a valid URL"])
  }

  /** The Zod schema of the category form. */
  function CategoryFormErrors(name: string): (r: seq<string>)
    ensures r == [] <==> name != ""
  {
    if name == "" then ["Category name is required"] else []
  }

  /** "Add Video" is enabled only with an uploaded URL and no request in flight. */
  function AddVideoEnabled(isPending: bool, uploadedUrl: string): (r: bool)
    ensures r <==> !isPending && uploadedUrl != ""
  {
    !(isPending || uploadedUrl == "")
  }

  // ---------------------------------------------------------------------
  // The upload progress

  function Min(a: int, b: int): (r: int)
    ensures r <= a && r <= b && (r == a || r == b)
  {
    if a < b then a else b
  }

  datatype UploadOutcome = Uploaded(url: string) | UploadFailed(message: string)

  class Uploader {
    var isUploading: bool
    var progress: int
    /** Intervals still running. */
    var timers: nat
    /** Between `setInterval` and the arrival of the response. */
    var waiting: bool
    var uploadedUrl: string
    const form: VideoForm

    /**
     * Progress stays in range, is at most 90 while the request is out, and is
     * 0 when no upload runs; exactly the current upload's interval runs.
     */
    ghost predicate Valid()
      reads this
    {
      0 <= progress <= 100
      && (waiting ==> isUploading && progress <= 90)
      && (!isUploading ==> progress == 0)
      && timers == (if waiting then 1 else 0)
    }

    constructor (form: VideoForm)
      ensures Valid() && this.form == form
      ensures !isUploading && progress == 0 && uploadedUrl == ""
    {
      this.form := form;
      isUploading := false;
      progress := 0;
      timers := 0;
      waiting := false;
      uploadedUrl := "";
    }

    /** Choosing a file (the input is disabled during an upload): a rejected file changes nothing. */
    method SelectFile(file: Option<SelectedFile>) returns (check: FileCheck)
      requires Valid() && !isUploading
      modifies this
      ensures Valid() && check == CheckFile(file)
      ensures check == Accepted ==> isUploading && waiting && progress == 0 && timers == 1
      ensures check != Accepted ==> !isUploading && !waiting && timers == old(timers)
      ensures uploadedUrl == old(uploadedUrl)
    {
      check := CheckFile(file);
      if check == Accepted {
        isUploading := true;
        progress := 0;
        waiting := true;
        timers := timers + 1;
      }
    }

    /** One firing of an interval: `Math.min(prev + 10, 90)`. */
    method Tick()
      requires timers > 0 && 0 <= progress <= 100
      modifies this`progress
      ensures progress == Min(old(progress) + 10, 90) && progress <= 90
      ensures old(Valid()) && waiting ==> Valid()
    {
      progress := Min(progress + 10, 90);
    }

    /** The response arrives: the interval is cleared and the bar shows 100. */
    method ResponseArrives()
      requires Valid() && waiting
      modifies this`waiting, this`timers, this`progress
      ensures Valid() && isUploading && !waiting && progress == 100 && timers == 0
    {
      waiting := false;
      timers := timers - 1;
      progress := 100;
    }

    /** The rest of the `try` and the `finally`: a good response fills the URL. */
    method Finish(outcome: UploadOutcome)
      requires Valid() && isUploading && !waiting
      modifies this`isUploading, this`progress, this`uploadedUrl, form`url
      ensures Valid() && !isUploading && progress == 0
      ensures outcome.Uploaded? ==> uploadedUrl == outcome.url && form.url == outcome.url
      ensures outcome.UploadFailed? ==> uploadedUrl == old(uploadedUrl) && form.url == old(form.url)
    {
      if outcome.Uploaded? {
        uploadedUrl := outcome.url;
        form.url := outcome.url;
      }
      isUploading := false;
      progress := 0;
    }

    /** The request itself rejects (a network error), as written: the `catch` and `finally` run but the interval is never cleared. */
    method FetchFailsAsWritten()
      requires Valid() && waiting
      modifies this`isUploading, this`progress, this`waiting
      ensures !isUploading && progress == 0 && !waiting && timers == old(timers) == 1
      ensures uploadedUrl == old(uploadedUrl)
    {
      waiting := false;
      isUploading := false;
      progress := 0;
    }

    /** A video was added: the form is reset and the uploaded URL cleared, which disables "Add Video" again. */
    method VideoAdded(categoryIds: seq<string>)
      modifies this`uploadedUrl, form
      ensures uploadedUrl == "" && form.title == "" && form.url == ""
      ensures form.categoryId == if categoryIds != [] then categoryIds[0] else ""
      ensures forall isPending :: !AddVideoEnabled(isPending, uploadedUrl)
    {
      form.ResetAfterAdd(categoryIds);
      uploadedUrl := "";
    }

    /** The request rejects, with the interval cleared in `finally`: no timer survives the upload. */
    method FetchFailsClearing()
      requires Valid() && waiting
      modifies this`isUploading, this`progress, this`waiting, this`timers
      ensures Valid() && !isUploading && progress == 0 && timers == 0
      ensures uploadedUrl == old(uploadedUrl)
    {
      timers := timers - 1;
      waiting := false;
      isUploading := false;
      progress := 0;
    }
  }

  /** A full successful upload: at most 90 while waiting, 100 on arrival, then back to 0 with the URL set. */
  method UploadSucceeds(u: Uploader, file: SelectedFile, ticks: nat, url: string)
    requires u.Valid() && !u.isUploading
    requires CheckFile(Some(file)) == Accepted
    modifies u, u.form
    ensures u.Valid() && !u.isUploading && u.progress == 0 && u.timers == 0
    ensures u.uploadedUrl == url && u.form.url == url
  {
    var _ := u.SelectFile(Some(file));
    var k := 0;
    while k < ticks
      invariant u.Valid() && u.waiting && u.progress <= 90
    {
      u.Tick();
      k := k + 1;
    }
    u.ResponseArrives();
    u.Finish(Uploaded(url));
  }

  /** As written, after a network error the old interval keeps moving the progress of an idle panel. */
  method LeakedTimerAfterNetworkError() returns (u: Uploader)
    ensures !u.isUploading && u.timers == 1 && u.progress == 10
  {
    var form := new VideoForm();
    u := new Uploader(form);
    var _ := u.SelectFile(Some(SelectedFile("video/mp4", 1000)));
    u.FetchFailsAsWritten();
    u.Tick();
  }

  /** With the interval cleared on every path, no timer is left once the upload has failed. */
  method ClearedTimerAfterNetworkError() returns (u: Uploader)
    ensures u.Valid() && !u.isUploading && u.timers == 0 && u.progress == 0
  {
    var form := new VideoForm();
    u := new Uploader(form);
    var _ := u.SelectFile(Some(SelectedFile("video/mp4", 1000)));
    u.FetchFailsClearing();
  }

  // ---------------------------------------------------------------------
  // The list filters

  datatype AdminVideo = AdminVideo(id: string, title: string, categoryId: string, url: string)

  /** The `'all'` sentinel of both selects. */
  const All: string := "all"

  function ByCategory(videos: seq<AdminVideo>, category: string): (r: seq<AdminVideo>)
    ensures |r| <= |videos|
    ensures forall v :: v in r <==> v in videos && v.categoryId == category
  {
    if videos == [] then []
    else
      var rest := ByCategory(videos[1..], category);
      assert forall v :: v in videos <==> v == videos[0] || v in videos[1..];
      if videos[0].categoryId == category then [videos[0]] + rest else rest
  }

  function ByTitle(videos: seq<AdminVideo>, title: string): (r: seq<AdminVideo>)
    ensures |r| <= |videos|
    ensures forall v :: v in r <==> v in videos && v.title == title
  {
    if videos == [] then []
    else
      var rest := ByTitle(videos[1..], title);
      assert forall v :: v in videos <==> v == videos[0] || v in videos[1..];
      if videos[0].title == title then [videos[0]] + rest else rest
  }

  /** `finalFilteredVideos`: the category filter, then the title filter; `'all'` disables either. */
  function FinalFilteredVideos(videos: seq<AdminVideo>, category: string, title: string): (r: seq<AdminVideo>)
    ensures |r| <= |videos|
    ensures forall v :: v in r <==>
      v in videos && (category == All || v.categoryId == category) && (title == All || v.title == title)
  {
    var filtered := if category == All then videos else ByCategory(videos, category);
    if title == All then filtered else ByTitle(filtered, title)
  }

  /** `a` is `b` with some elements left out, in the same order. */
  predicate SubsequenceOf(a: seq<AdminVideo>, b: seq<AdminVideo>)
    decreases |b|
  {
    if a == [] then true
    else if b == [] then false
    else (a[0] == b[0] && SubsequenceOf(a[1..], b[1..])) || SubsequenceOf(a, b[1..])
  }

  lemma {:induction false} SubsequenceTrans(a: seq<AdminVideo>, b: seq<AdminVideo>, c: seq<AdminVideo>)
    requires SubsequenceOf(a, b) && SubsequenceOf(b, c)
    ensures SubsequenceOf(a, c)
    decreases |c|
  {
    if a != [] && c != [] {
      if b[0] == c[0] && SubsequenceOf(b[1..], c[1..]) {
        if a[0] == b[0] && SubsequenceOf(a[1..], b[1..]) {
          SubsequenceTrans(a[1..], b[1..], c[1..]);
        } else {
          SubsequenceTrans(a, b[1..], c[1..]);
        }
      } else {
        SubsequenceTrans(a, b, c[1..]);
      }
    }
  }

  lemma {:induction false} SubsequenceRefl(a: seq<AdminVideo>)
    ensures SubsequenceOf(a, a)
    decreases |a|
  {
    if a != [] {
      SubsequenceRefl(a[1..]);
    }
  }

  lemma {:induction false} ByCategoryIsSubsequence(videos: seq<AdminVideo>, category: string)
    ensures SubsequenceOf(ByCategory(videos, category), videos)
    decreases |videos|
  {
    if videos != [] {
      ByCategoryIsSubsequence(videos[1..], category);
    }
  }

  lemma {:induction false} ByTitleIsSubsequence(videos: seq<AdminVideo>, title: string)
    ensures SubsequenceOf(ByTitle(videos, title), videos)
    decreases |videos|
  {
    if videos != [] {
      ByTitleIsSubsequence(videos[1..], title);
    }
  }

  /**
   * The shown list keeps the order of `videos`, and a video is shown exactly
   * when it matches every filter that is not `'all'`.
   */
  lemma FinalFilteredIsOrderedSelection(videos: seq<AdminVideo>, category: string, title: string)
    ensures SubsequenceOf(FinalFilteredVideos(videos, category, title), videos)
    ensures forall v :: v in FinalFilteredVideos(videos, category, title) <==>
      v in videos && (category == All || v.categoryId == category) && (title == All || v.title == title)
  {
    var filtered := if category == All then videos else ByCategory(videos, category);
    if category == All {
      SubsequenceRefl(videos);
    } else {
      ByCategoryIsSubsequence(videos, category);
    }
    if title == All {
    } else {
      ByTitleIsSubsequence(filtered, title);
      SubsequenceTrans(ByTitle(filtered, title), filtered, videos);
    }
  }

  /**
   * A video titled `all` can never be picked out by title: choosing it shows
   * the whole list under the chosen category, whatever the titles are.
   */
  lemma TitleAllSelectsEverything(videos: seq<AdminVideo>, category: string)
    ensures FinalFilteredVideos(videos, category, All) ==
      if category == All then videos else ByCategory(videos, category)
    ensures forall v :: v in videos && (category == All || v.categoryId == category) ==>
      v in FinalFilteredVideos(videos, category, All)
  {
  }

  // ---------------------------------------------------------------------
  // Distinct titles

  /** The titles of the list, in list order: a title occurs exactly when some video carries it. */
  function Titles(videos: seq<AdminVideo>): (r: seq<string>)
    ensures |r| == |videos| && forall k :: 0 <= k < |videos| ==> r[k] == videos[k].title
    ensures forall t :: t in r <==> exists v :: v in videos && v.title == t
  {
    var r := seq(|videos|, k requires 0 <= k < |videos| => videos[k].title);
    assert forall t :: t in r ==> exists v :: v in videos && v.title == t by {
      forall t | t in r
        ensures exists v :: v in videos && v.title == t
      {
        var k :| 0 <= k < |r| && r[k] == t;
        assert videos[k] in videos;
      }
    }
    assert forall v :: v in videos ==> v.title in r by {
      forall v | v in videos
        ensures v.title in r
      {
        var k :| 0 <= k < |videos| && videos[k] == v;
        assert r[k] == v.title;
      }
    }
    r
  }

  /** `Array.from(new Set(titles))`: each title once, where it first appears. */
  function Distinct(s: seq<string>): (r: seq<string>)
    ensures forall x :: x in r <==> x in s
    ensures forall i, j :: 0 <= i < j < |r| ==> r[i] != r[j]
  {
    if s == [] then []
    else
      var init := s[..|s| - 1];
      var last := s[|s| - 1];
      assert forall x :: x in s <==> x in init || x == last;
      if last in init then Distinct(init) else Distinct(init) + [last]
  }

  /** The least index at which `x` occurs. */
  function FirstIndex(s: seq<string>, x: string): (k: nat)
    requires x in s
    ensures k < |s| && s[k] == x && forall j :: 0 <= j < k ==> s[j] != x
  {
    if s[0] == x then 0 else 1 + FirstIndex(s[1..], x)
  }

  lemma FirstIndexPrefix(s: seq<string>, n: nat, x: string)
    requires n <= |s| && x in s[..n]
    ensures FirstIndex(s, x) == FirstIndex(s[..n], x) < n
  {
    var b := FirstIndex(s[..n], x);
    assert s[..n][b] == s[b];
  }

  lemma FirstIndexLast(s: seq<string>)
    requires s != [] && s[|s| - 1] !in s[..|s| - 1]
    ensures FirstIndex(s, s[|s| - 1]) == |s| - 1
  {
    var n := |s| - 1;
    forall f | 0 <= f < n
      ensures s[f] != s[n]
    {
      assert s[..n][f] == s[f];
    }
  }

  /** The elements of `r` come in the order in which each first appears in `s`. */
  predicate FirstAppearanceOrder(s: seq<string>, r: seq<string>)
    requires forall x :: x in r ==> x in s
  {
    forall i, j :: 0 <= i < j < |r| ==> FirstIndex(s, r[i]) < FirstIndex(s, r[j])
  }

  /** The distinct titles come in the order in which each first appears. */
  lemma {:induction false} DistinctInFirstAppearanceOrder(s: seq<string>)
    ensures FirstAppearanceOrder(s, Distinct(s))
    decreases |s|
  {
    if s != [] {
      var n := |s| - 1;
      var init := s[..n];
      var d := Distinct(init);
      DistinctInFirstAppearanceOrder(init);
      forall i | 0 <= i < |d|
        ensures d[i] in init && d[i] in s && FirstIndex(s, d[i]) == FirstIndex(init, d[i]) < n
      {
        assert d[i] in d;
        FirstIndexPrefix(s, n, d[i]);
      }
      if s[n] in init {
        assert Distinct(s) == d;
      } else {
        FirstIndexLast(s);
        assert Distinct(s) == d + [s[n]];
      }
    }
  }

  /** `uniqueTitles`: every title of the list exactly once, in order of first appearance. */
  lemma UniqueTitles(videos: seq<AdminVideo>)
    ensures var r := Distinct(Titles(videos));
      (forall t :: t in r <==> exists k :: 0 <= k < |videos| && videos[k].title == t)
      && (forall i, j :: 0 <= i < j < |r| ==> r[i] != r[j])
      && FirstAppearanceOrder(Titles(videos), r)
  {
    DistinctInFirstAppearanceOrder(Titles(videos));
    var ts := Titles(videos);
    forall t
      ensures t in ts <==> exists k :: 0 <= k < |videos| && videos[k].title == t
    {
      if t in ts {
        var k :| 0 <= k < |ts| && ts[k] == t;
        assert videos[k].title == t;
      }
    }
  }
}
