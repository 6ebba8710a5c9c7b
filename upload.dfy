/**
 * The serverless upload endpoint (api/upload.ts): a loose extractor for a
 * `multipart/form-data` body (RFC 7578; delimiter lines per section 5.1.1
 * of RFC 2046), the derivation of the storage key, and the handler's
 * status codes. The blob store is an object whose write log the handler
 * extends; its URL scheme and its failures are inputs.
 */
module UploadApi {
  import opened Common
  import opened Text

  type byte = x: int | 0 <= x < 256

  // ---------------------------------------------------------------------
  // Reading the body

  /** `Buffer.concat(chunks)`. */
  function Flatten(chunks: seq<seq<byte>>): seq<byte>
  {
    if chunks == [] then [] else Flatten(chunks[..|chunks| - 1]) + chunks[|chunks| - 1]
  }

  /** Concatenation distributes over splitting the list of chunks. */
  lemma {:induction false} FlattenAppend(a: seq<seq<byte>>, b: seq<seq<byte>>)
    ensures Flatten(a + b) == Flatten(a) + Flatten(b)
    decreases |b|
  {
    if b == [] {
      assert a + b == a;
    } else {
      var init := b[..|b| - 1];
      var last := b[|b| - 1];
      SplitLast(a, b);
      FlattenAppend(a, init);
      assert Flatten(b) == Flatten(init) + last;
    }
  }

  lemma SplitLast(a: seq<seq<byte>>, b: seq<seq<byte>>)
    requires b != []
    ensures (a + b)[..|a + b| - 1] == a + b[..|b| - 1]
    ensures (a + b)[|a + b| - 1] == b[|b| - 1]
  {
  }

  /** The `for await` loop pushing each chunk, then `Buffer.concat`. */
  method ConcatChunks(chunks: seq<seq<byte>>) returns (buffer: seq<byte>)
    ensures buffer == Flatten(chunks)
  {
    buffer := [];
    var i := 0;
    while i < |chunks|
      invariant 0 <= i <= |chunks|
      invariant buffer == Flatten(chunks[..i])
    {
      assert chunks[..i + 1][..i] == chunks[..i];
      buffer := buffer + chunks[i];
      i := i + 1;
    }
    assert chunks[..i] == chunks;
  }

  /** `buffer.toString('binary')`: each byte becomes the character with that code. */
  function BinaryString(b: seq<byte>): (s: string)
    ensures |s| == |b|
    ensures forall k :: 0 <= k < |b| ==> s[k] as int == b[k]
    ensures Latin1(s)
  {
    seq(|b|, k requires 0 <= k < |b| => b[k] as char)
  }

  /** Every character has a code below 256, as the text of a binary decoding has. */
  predicate Latin1(s: string)
  {
    forall k :: 0 <= k < |s| ==> s[k] as int < 256
  }

  /** `Buffer.from(s, 'binary')`: each character keeps its low eight bits. */
  function BinaryBytes(s: string): (b: seq<byte>)
    ensures |b| == |s|
    ensures forall k :: 0 <= k < |s| ==> b[k] == s[k] as int % 256
    ensures Latin1(s) ==> BinaryString(b) == s
  {
    var b := seq(|s|, k requires 0 <= k < |s| => s[k] as int % 256);
    assert Latin1(s) ==> forall k :: 0 <= k < |s| ==> BinaryString(b)[k] == s[k];
    b
  }

  /** The two binary conversions undo each other, on every slice of the text. */
  lemma BinaryRoundTrip(b: seq<byte>, lo: nat, hi: nat)
    requires lo <= hi <= |b|
    ensures BinaryBytes(BinaryString(b)[lo..hi]) == b[lo..hi]
  {
  }

  // ---------------------------------------------------------------------
  // The boundary

  /**
   * `contentType?.split('boundary=')[1]`: the text between the first
   * `boundary=` and the next one (or the end); missing or empty means no
   * boundary.
   */
  function Boundary(contentType: Option<string>): (r: Option<string>)
    ensures contentType.None? || !Contains(contentType.value, "boundary=") ==> r.None?
    ensures r.Some? ==> r.value != "" && !Contains(r.value, "boundary=")
  {
    if contentType.None? then None
    else
      var pieces := Split(contentType.value, "boundary=");
      SplitPiecesFree(contentType.value, "boundary=");
      if |pieces| < 2 || pieces[1] == "" then None else Some(pieces[1])
  }

  /** A header whose first `boundary=` follows a prefix without the letter `b` yields what follows it. */
  lemma BoundaryAfter(pre: string, b: string)
    requires forall k :: 0 <= k < |pre| ==> pre[k] != 'b'
    requires b != "" && !Contains(b, "boundary=")
    ensures Boundary(Some(pre + "boundary=" + b)) == Some(b)
  {
    var s := pre + "boundary=" + b;
    assert StartsAt(s, "boundary=", |pre|) by {
      assert s[|pre|..|pre| + 9] == "boundary=";
    }
    forall j | 0 <= j < |pre|
      ensures !StartsAt(s, "boundary=", j)
    {
      assert s[j] == pre[j];
    }
    var i := IndexOf(s, "boundary=");
    assert i == |pre|;
    assert s[i + 9..] == b;
    SplitWithout(b, "boundary=");
    assert Split(s, "boundary=") == [s[..i]] + [b];
  }

  /** The `Content-Type` a browser sends for a form: the boundary is read back. */
  lemma BoundaryOfFormHeader(b: string)
    requires b != "" && !Contains(b, "boundary=")
    ensures Boundary(Some(FormDataType + "boundary=" + b)) == Some(b)
  {
    NoBInFormDataType();
    BoundaryAfter(FormDataType, b);
  }

  const FormDataType: string := "multipart/form-data; "

  lemma NoBInFormDataType()
    ensures forall k :: 0 <= k < |FormDataType| ==> FormDataType[k] != 'b'
  {
  }

  // ---------------------------------------------------------------------
  // The filename match: /filename="(.+?)"/

  /** The characters a regular-expression `.` does not match without the `s` flag. */
  predicate IsLineTerminator(c: char)
  {
    c == '\n' || c == '\r' || c as int == 0x2028 || c as int == 0x2029
  }

  const FilenameOpen: string := "filename=\""

  /**
   * The lazy group `(.+?)"` tried at `start`, having already taken `k`
   * characters: the shortest non-empty run of non-terminators that is
   * followed by a quote.
   */
  function CaptureFrom(s: string, start: nat, k: nat): (r: Option<string>)
    requires k >= 1
    ensures r.Some? ==> |r.value| >= k && start + |r.value| < |s|
    ensures r.Some? ==> r.value == s[start..start + |r.value|] && s[start + |r.value|] == '"'
    ensures r.Some? ==> forall m :: k - 1 <= m < |r.value| ==> !IsLineTerminator(r.value[m])
    ensures r.Some? ==> forall m :: k <= m < |r.value| ==> r.value[m] != '"'
    decreases |s| - start - k
  {
    if start + k >= |s| || IsLineTerminator(s[start + k - 1]) then None
    else if s[start + k] == '"' then Some(s[start..start + k])
    else CaptureFrom(s, start, k + 1)
  }

  /** The match of the expression starting at position `i`, if any. */
  function MatchAt(s: string, i: nat): Option<string>
  {
    if StartsAt(s, FilenameOpen, i) then CaptureFrom(s, i + |FilenameOpen|, 1) else None
  }

  /** The least position `>= from` where the expression matches, or -1. */
  function MatchPosFrom(s: string, from: nat): (r: int)
    ensures r == -1 || (from <= r && MatchAt(s, r).Some?)
    ensures r == -1 ==> forall j: nat :: from <= j ==> MatchAt(s, j).None?
    ensures r != -1 ==> forall j: nat :: from <= j < r ==> MatchAt(s, j).None?
    decreases |s| - from
  {
    if from >= |s| then
      assert forall j: nat :: from <= j ==> !StartsAt(s, FilenameOpen, j);
      -1
    else if MatchAt(s, from).Some? then from
    else MatchPosFrom(s, from + 1)
  }

  /** `part.match(/filename="(.+?)"/)[1]`: the group of the leftmost match. */
  function FilenameMatch(s: string): (r: Option<string>)
    ensures r.Some? ==> r.value != "" && Contains(s, FilenameOpen)
  {
    var p := MatchPosFrom(s, 0);
    if p == -1 then None else MatchAt(s, p)
  }

  lemma {:induction false} CaptureName(s: string, start: nat, name: string, k: nat)
    requires 1 <= k <= |name| && start + |name| < |s|
    requires s[start..start + |name|] == name && s[start + |name|] == '"'
    requires forall m :: 0 <= m < |name| ==> name[m] != '"' && !IsLineTerminator(name[m])
    ensures CaptureFrom(s, start, k) == Some(name)
    decreases |name| - k
  {
    assert s[start + k - 1] == name[k - 1];
    if k < |name| {
      assert s[start + k] == name[k];
      CaptureName(s, start, name, k + 1);
    }
  }

  /** A `filename="<name>"` parameter is read back when no earlier one precedes it. */
  lemma FilenameOfParameter(pre: string, name: string, post: string)
    requires name != ""
    requires forall m :: 0 <= m < |name| ==> name[m] != '"' && !IsLineTerminator(name[m])
    requires !Contains(pre + "filename=", FilenameOpen)
    ensures FilenameMatch(pre + FilenameOpen + name + "\"" + post) == Some(name)
  {
    var rest := name + "\"" + post;
    var s := pre + FilenameOpen + rest;
    assert s == pre + FilenameOpen + name + "\"" + post;
    NoEarlierMatch(pre, rest);
    NameCaptured(pre, name, post);
  }

  /** No match starts inside a prefix holding no `filename="`. */
  lemma NoEarlierMatch(pre: string, rest: string)
    requires !Contains(pre + "filename=", FilenameOpen)
    ensures forall j: nat :: j < |pre| ==> MatchAt(pre + FilenameOpen + rest, j).None?
  {
    var s := pre + FilenameOpen + rest;
    var t := pre + "filename=";
    assert t == s[..|t|];
    forall j: nat | j < |pre|
      ensures MatchAt(s, j).None?
    {
      assert s[j..j + 10] == t[j..j + 10];
      assert !StartsAt(t, FilenameOpen, j);
    }
  }

  /** The match right after the prefix captures the name up to its closing quote. */
  lemma NameCaptured(pre: string, name: string, post: string)
    requires name != ""
    requires forall m :: 0 <= m < |name| ==> name[m] != '"' && !IsLineTerminator(name[m])
    ensures MatchAt(pre + FilenameOpen + (name + "\"" + post), |pre|) == Some(name)
  {
    var s := pre + FilenameOpen + (name + "\"" + post);
    assert s[|pre|..|pre| + 10] == FilenameOpen;
    var start := |pre| + 10;
    assert s[start..start + |name|] == name;
    assert s[start + |name|] == '"';
    CaptureName(s, start, name, 1);
  }

  // ---------------------------------------------------------------------
  // One part

  /** `s.substring(a, b)`: both bounds clamped to the text, swapped when reversed. */
  function Clamp(x: int, n: nat): (r: nat)
    ensures r <= n
    ensures 0 <= x <= n ==> r == x
  {
    if x < 0 then 0 else if x > n then n else x
  }

  function Substring(s: string, a: int, b: int): (r: string)
    ensures 0 <= a <= b <= |s| ==> r == s[a..b]
    ensures 0 <= b <= a <= |s| ==> r == s[b..a]
  {
    var x := Clamp(a, |s|);
    var y := Clamp(b, |s|);
    if x <= y then s[x..y] else s[y..x]
  }

  /** Swapping the arguments of `substring` changes nothing. */
  lemma SubstringSymmetric(s: string, a: int, b: int)
    ensures Substring(s, a, b) == Substring(s, b, a)
  {
  }

  const CRLF: string := "\r\n"
  const HeaderEnd: string := "\r\n\r\n"

  datatype Upload = Upload(file: seq<byte>, filename: string)

  /** The body of the loop over parts, for one part: the file it holds, or none. */
  function PartFile(part: string): (r: Option<Upload>)
    ensures r.Some? ==> Contains(part, "Content-Disposition") && Contains(part, "filename=")
    ensures r.Some? ==> FilenameMatch(part) == Some(r.value.filename) && r.value.filename != ""
  {
    if !(Contains(part, "Content-Disposition") && Contains(part, "filename=")) then None
    else
      var m := FilenameMatch(part);
      if m.None? then None
      else
        var contentStart := IndexOf(part, HeaderEnd) + 4;
        var contentEnd := LastIndexOf(part, CRLF);
        if contentStart == -1 || contentEnd == -1 then None
        else Some(Upload(BinaryBytes(Substring(part, contentStart, contentEnd)), m.value))
  }

  /**
   * A part yields a file exactly when it mentions `Content-Disposition` and
   * `filename=`, the filename expression matches and a CRLF occurs: the
   * `contentStart === -1` test never fires, since `indexOf` answers at least
   * -1 and 4 is added to it.
   */
  lemma PartFileCases(part: string)
    ensures PartFile(part).Some? <==>
      Contains(part, "Content-Disposition") && Contains(part, "filename=")
      && FilenameMatch(part).Some? && LastIndexOf(part, CRLF) != -1
    ensures PartFile(part).Some? ==> PartFile(part).value.filename == FilenameMatch(part).value
    ensures PartFile(part).Some? ==>
      PartFile(part).value.file == BinaryBytes(Substring(part, IndexOf(part, HeaderEnd) + 4, LastIndexOf(part, CRLF)))
  {
  }

  /**
   * The content of a part laid out as headers, a blank line, the data and a
   * final CRLF is exactly the data, whatever the data holds (CRLFs included),
   * as long as the headers hold no blank line.
   */
  lemma PartContent(headers: string, data: string)
    requires !Contains(headers + "\r\n\r", HeaderEnd)
    ensures var part := headers + HeaderEnd + data + CRLF;
      Substring(part, IndexOf(part, HeaderEnd) + 4, LastIndexOf(part, CRLF)) == data
  {
    var part := headers + HeaderEnd + data + CRLF;
    FirstHeaderEnd(headers, data + CRLF);
    assert part == headers + HeaderEnd + (data + CRLF);
    EndsWithCRLF(headers + HeaderEnd + data);
    assert part[|headers| + 4..|part| - 2] == data;
  }

  lemma FirstHeaderEnd(headers: string, rest: string)
    requires !Contains(headers + "\r\n\r", HeaderEnd)
    ensures IndexOf(headers + HeaderEnd + rest, HeaderEnd) == |headers|
  {
    var part := headers + HeaderEnd + rest;
    var h := headers + "\r\n\r";
    assert part[..|h|] == h;
    assert part[|headers|..|headers| + 4] == HeaderEnd;
    assert StartsAt(part, HeaderEnd, |headers|);
    forall j | 0 <= j < |headers|
      ensures !StartsAt(part, HeaderEnd, j)
    {
      assert part[j..j + 4] == h[j..j + 4];
      assert !StartsAt(h, HeaderEnd, j);
    }
  }

  lemma EndsWithCRLF(x: string)
    ensures LastIndexOf(x + CRLF, CRLF) == |x|
  {
    var s := x + CRLF;
    assert s[|x|..|x| + 2] == CRLF;
    assert StartsAt(s, CRLF, |x|);
  }

  /** An occurrence inside a prefix is an occurrence in the whole text. */
  lemma ContainsInPrefix(s: string, pre: string, pat: string)
    requires |pre| <= |s| && s[..|pre|] == pre && Contains(pre, pat)
    ensures Contains(s, pat)
  {
    var i := IndexOf(pre, pat);
    assert s[..|pre|][i..i + |pat|] == s[i..i + |pat|];
    assert StartsAt(s, pat, i);
  }

  /**
   * A file part as a browser lays it out (RFC 7578, section 4.2): headers
   * naming the file in a `filename="<name>"` parameter, a blank line, the
   * file's bytes in binary form and the CRLF that precedes the next
   * delimiter. The scan reads back exactly that name and those bytes.
   */
  lemma FilePartRoundTrip(pre: string, name: string, post: string, data: seq<byte>)
    requires Contains(pre, "Content-Disposition")
    requires !Contains(pre + "filename=", FilenameOpen)
    requires name != ""
    requires forall m :: 0 <= m < |name| ==> name[m] != '"' && !IsLineTerminator(name[m])
    requires !Contains(pre + FilenameOpen + name + "\"" + post + "\r\n\r", HeaderEnd)
    ensures PartFile(pre + FilenameOpen + name + "\"" + post + HeaderEnd + BinaryString(data) + CRLF)
      == Some(Upload(data, name))
  {
    var headers := pre + FilenameOpen + name + "\"" + post;
    var part := headers + HeaderEnd + BinaryString(data) + CRLF;
    FilenameInPart(part, headers, pre, name, post, BinaryString(data));
    HeadersMention(part, headers, pre, name, post, BinaryString(data), "Content-Disposition");
    PartData(part, headers, data);
    PartFileOf(part, name, data);
  }

  /** The name is captured, and `filename=` found, whatever follows the headers. */
  lemma FilenameInPart(part: string, headers: string, pre: string, name: string, post: string, d: string)
    requires headers == pre + FilenameOpen + name + "\"" + post
    requires part == headers + HeaderEnd + d + CRLF
    requires !Contains(pre + "filename=", FilenameOpen)
    requires name != ""
    requires forall m :: 0 <= m < |name| ==> name[m] != '"' && !IsLineTerminator(name[m])
    ensures FilenameMatch(part) == Some(name) && Contains(part, "filename=")
  {
    var tail := post + (HeaderEnd + d + CRLF);
    Regroup(part, headers, pre, name, post, d);
    FilenameOfParameter(pre, name, tail);
    assert part[|pre|..|pre| + 9] == "filename=";
    assert StartsAt(part, "filename=", |pre|);
  }

  /** The part regrouped so that the file name parameter is followed by one tail. */
  lemma Regroup(part: string, headers: string, pre: string, name: string, post: string, d: string)
    requires headers == pre + FilenameOpen + name + "\"" + post
    requires part == headers + HeaderEnd + d + CRLF
    ensures part == pre + FilenameOpen + name + "\"" + (post + (HeaderEnd + d + CRLF))
  {
    assert part == headers + (HeaderEnd + d + CRLF);
  }

  /** What the text before the file name mentions, the whole part mentions. */
  lemma HeadersMention(part: string, headers: string, pre: string, name: string, post: string, d: string, pat: string)
    requires headers == pre + FilenameOpen + name + "\"" + post
    requires part == headers + HeaderEnd + d + CRLF
    requires Contains(pre, pat)
    ensures Contains(part, pat)
  {
    assert headers[..|pre|] == pre;
    assert part[..|headers|] == headers;
    ContainsInPrefix(headers, pre, pat);
    ContainsInPrefix(part, headers, pat);
  }

  /** The content the scan cuts out of a laid-out part converts back to the file's bytes. */
  lemma PartData(part: string, headers: string, data: seq<byte>)
    requires part == headers + HeaderEnd + BinaryString(data) + CRLF
    requires !Contains(headers + "\r\n\r", HeaderEnd)
    ensures LastIndexOf(part, CRLF) != -1
    ensures BinaryBytes(Substring(part, IndexOf(part, HeaderEnd) + 4, LastIndexOf(part, CRLF))) == data
  {
    var d := BinaryString(data);
    PartContent(headers, d);
    EndsWithCRLF(headers + HeaderEnd + d);
    BinaryRoundTrip(data, 0, |data|);
    assert d[0..|data|] == d;
    assert data[0..|data|] == data;
  }

  lemma PartFileOf(part: string, name: string, data: seq<byte>)
    requires FilenameMatch(part) == Some(name)
    requires Contains(part, "Content-Disposition") && Contains(part, "filename=")
    requires LastIndexOf(part, CRLF) != -1
    requires BinaryBytes(Substring(part, IndexOf(part, HeaderEnd) + 4, LastIndexOf(part, CRLF))) == data
    ensures PartFile(part) == Some(Upload(data, name))
  {
    PartFileCases(part);
  }

  /** The result of the loop body on each part, in order. */
  function MapParts(parts: seq<string>, f: string -> Option<Upload>): (r: seq<Option<Upload>>)
    ensures |r| == |parts|
  {
    if parts == [] then [] else MapParts(parts[..|parts| - 1], f) + [f(parts[|parts| - 1])]
  }

  lemma {:induction false} MapPartsAt(parts: seq<string>, f: string -> Option<Upload>, k: nat)
    requires k < |parts|
    ensures MapParts(parts, f)[k] == f(parts[k])
    decreases |parts|
  {
    var init := parts[..|parts| - 1];
    if k < |init| {
      MapPartsAt(init, f, k);
      assert init[k] == parts[k];
    }
  }

  /** The file each part holds, if any. */
  function PartFiles(parts: seq<string>): (r: seq<Option<Upload>>)
    ensures |r| == |parts|
  {
    MapParts(parts, PartFile)
  }

  lemma PartFilesAt(parts: seq<string>, k: nat)
    requires k < |parts|
    ensures PartFiles(parts)[k] == PartFile(parts[k])
  {
    MapPartsAt(parts, PartFile, k);
  }

  /** The least index `>= i` holding a value, or `|files|`. */
  function FirstSomeIndex(files: seq<Option<Upload>>, i: nat): (r: nat)
    requires i <= |files|
    ensures i <= r <= |files|
    ensures forall j :: i <= j < r ==> files[j].None?
    ensures r < |files| ==> files[r].Some?
    decreases |files| - i
  {
    if i == |files| || files[i].Some? then i else FirstSomeIndex(files, i + 1)
  }

  /** The first file among the parts: the reference for the scan loop. */
  function FirstFile(parts: seq<string>): Option<Upload>
  {
    var files := PartFiles(parts);
    var k := FirstSomeIndex(files, 0);
    if k == |files| then None else files[k]
  }

  /** No file exactly when no part holds one; otherwise the file of the first part that holds one. */
  lemma FirstFileSpec(parts: seq<string>)
    ensures FirstFile(parts).None? <==> forall k :: 0 <= k < |parts| ==> PartFile(parts[k]).None?
    ensures FirstFile(parts).Some? ==>
      exists k :: (0 <= k < |parts| && PartFile(parts[k]) == FirstFile(parts) &&
        forall j :: 0 <= j < k ==> PartFile(parts[j]).None?)
  {
    var files := PartFiles(parts);
    var k := FirstSomeIndex(files, 0);
    forall j | 0 <= j < |parts|
      ensures files[j] == PartFile(parts[j])
    {
      PartFilesAt(parts, j);
    }
    if k < |files| {
      assert PartFile(parts[k]) == FirstFile(parts);
    }
  }

  /** A value preceded only by empty entries is the first one. */
  lemma FirstSomeAt(files: seq<Option<Upload>>, k: nat)
    requires k < |files| && files[k].Some?
    requires forall j :: 0 <= j < k ==> files[j].None?
    ensures FirstSomeIndex(files, 0) == k
  {
    var m := FirstSomeIndex(files, 0);
    if m < k {
      assert false;
    } else if m > k {
      assert false;
    }
  }

  /** What `parseMultipart` answers for a body and a `Content-Type`. */
  function ParseBody(body: seq<byte>, contentType: Option<string>): (r: Option<Upload>)
    ensures Boundary(contentType).None? ==> r.None?
    ensures r.Some? ==> r.value.filename != ""
  {
    match Boundary(contentType)
    case None => None
    case Some(b) =>
      var parts := Split(BinaryString(body), "--" + b);
      FirstFileSpec(parts);
      FirstFile(parts)
  }

  /** The `for ... of parts` loop: the first part holding a file ends the scan. */
  method ScanParts(parts: seq<string>) returns (r: Option<Upload>)
    ensures r == FirstFile(parts)
  {
    ghost var files := PartFiles(parts);
    var i := 0;
    while i < |parts|
      invariant 0 <= i <= |parts|
      invariant forall j :: 0 <= j < i ==> files[j].None?
    {
      var found := PartFile(parts[i]);
      PartFilesAt(parts, i);
      if found.Some? {
        FirstSomeAt(files, i);
        return found;
      }
      i := i + 1;
    }
    return None;
  }

  /** `parseMultipart`: read the chunks, find the boundary, scan the parts and stop at the first file. */
  method ParseMultipart(chunks: seq<seq<byte>>, contentType: Option<string>) returns (r: Option<Upload>)
    ensures r == ParseBody(Flatten(chunks), contentType)
    ensures Boundary(contentType).None? ==> r.None?
  {
    var buffer := ConcatChunks(chunks);
    var boundary := Boundary(contentType);
    if boundary.None? {
      return None;
    }
    var parts := Split(BinaryString(buffer), "--" + boundary.value);
    r := ScanParts(parts);
  }

  // ---------------------------------------------------------------------
  // The storage key

  lemma NoDotInDefault()
    ensures !Contains("mp4", ".")
  {
    forall j
      ensures !StartsAt("mp4", ".", j)
    {
      if 0 <= j < 3 {
        assert "mp4"[j] != '.';
      }
    }
  }

  /** `filename.split('.').pop() || 'mp4'`. */
  function Extension(filename: string): (r: string)
    ensures r != "" && !Contains(r, ".")
  {
    var pieces := Split(filename, ".");
    var last := pieces[|pieces| - 1];
    SplitPiecesFree(filename, ".");
    NoDotInDefault();
    if last == "" then "mp4" else last
  }

  /** A name without a dot is its own extension; an empty one gets `mp4`. */
  lemma ExtensionOfUndotted(filename: string)
    requires !Contains(filename, ".")
    ensures Extension(filename) == if filename == "" then "mp4" else filename
  {
    SplitWithout(filename, ".");
  }

  /** A name ending in `.<ext>`, with no dot in `ext`, yields `ext`, or `mp4` when `ext` is empty. */
  lemma ExtensionOfDotted(base: string, ext: string)
    requires !Contains(ext, ".")
    ensures Extension(base + "." + ext) == if ext == "" then "mp4" else ext
  {
    SplitLastOfSuffix(base, '.', ext);
  }

  /** `videos/${timestamp}-${random}.${extension}`. */
  function StorageKey(timestamp: nat, random: string, filename: string): (key: string)
    ensures StartsWith(key, "videos/")
    ensures |key| > |Extension(filename)| && key[|key| - |Extension(filename)| - 1..] == "." + Extension(filename)
  {
    var stem := "videos/" + Decimal(timestamp) + "-" + random;
    var key := stem + "." + Extension(filename);
    assert key[|stem|..] == "." + Extension(filename);
    key
  }

  /** The key keeps the upload's extension: reading it back from the key gives the same extension. */
  lemma KeyKeepsExtension(timestamp: nat, random: string, filename: string)
    ensures Extension(StorageKey(timestamp, random, filename)) == Extension(filename)
    ensures StartsWith(StorageKey(timestamp, random, filename), "videos/")
  {
    ExtensionOfDotted("videos/" + Decimal(timestamp) + "-" + random, Extension(filename));
  }

  // ---------------------------------------------------------------------
  // The handler

  datatype Body = UrlBody(url: string) | ErrorBody(error: string)
  datatype Response = Response(status: int, body: Body)

  /** The blob store: every successful `put` adds a public object. */
  class BlobStore {
    /** The URL prefix under which the store publishes objects. */
    const baseUrl: string
    var objects: seq<(string, seq<byte>)>

    constructor (baseUrl: string)
      ensures this.baseUrl == baseUrl && objects == []
    {
      this.baseUrl := baseUrl;
      objects := [];
    }

    /** `put(key, data)`: `failure` is the message of the error the service throws, if it does. */
    method Put(key: string, data: seq<byte>, failure: Option<string>) returns (url: Option<string>)
      modifies this
      ensures failure.Some? ==> url.None? && objects == old(objects)
      ensures failure.None? ==> url == Some(baseUrl + key) && objects == old(objects) + [(key, data)]
    {
      if failure.Some? {
        url := None;
      } else {
        objects := objects + [(key, data)];
        url := Some(baseUrl + key);
      }
    }
  }

  /**
   * `handler`: 405 for anything but POST, before the body is read; 400 when
   * no file was found, with nothing stored; otherwise the file is stored
   * under a fresh key and its URL returned, or 500 with the error message.
   */
  method Handle(httpMethod: string, chunks: seq<seq<byte>>, contentType: Option<string>,
                timestamp: nat, random: string, putFailure: Option<string>, store: BlobStore)
    returns (resp: Response)
    modifies store
    ensures httpMethod != "POST" ==>
      resp == Response(405, ErrorBody("Method not allowed")) && store.objects == old(store.objects)
    ensures httpMethod == "POST" && ParseBody(Flatten(chunks), contentType).None? ==>
      resp == Response(400, ErrorBody("No file uploaded")) && store.objects == old(store.objects)
    ensures httpMethod == "POST" && ParseBody(Flatten(chunks), contentType).Some? ==>
      var up := ParseBody(Flatten(chunks), contentType).value;
      var key := StorageKey(timestamp, random, up.filename);
      if putFailure.None? then
        resp == Response(200, UrlBody(store.baseUrl + key))
        && store.objects == old(store.objects) + [(key, up.file)]
      else
        resp == Response(500, ErrorBody(putFailure.value)) && store.objects == old(store.objects)
  {
    if httpMethod != "POST" {
      return Response(405, ErrorBody("Method not allowed"));
    }
    var parsed := ParseMultipart(chunks, contentType);
    if parsed.None? {
      return Response(400, ErrorBody("No file uploaded"));
    }
    var key := StorageKey(timestamp, random, parsed.value.filename);
    var url := store.Put(key, parsed.value.file, putFailure);
    if url.None? {
      return Response(500, ErrorBody(putFailure.value));
    }
    resp := Response(200, UrlBody(url.value));
  }
}
