/** The upload routes: how a stored file is named, which files the filter lets
    through, and what the single-file, multi-file and delete routes answer. The
    uploads directory is the set of stored file names; the clock is a parameter
    (one reading per file). */
module Uploads {
  import opened Seqs
  import opened Text
  import opened Http

  /** A file part as the upload middleware sees it. */
  datatype Upload = Upload(originalName: string, mimetype: string, size: nat)

  /** The uploads directory after a route, and the route's answer. */
  datatype Stored = Stored(dir: set<string>, response: Response)

  /** The per-file size limit, 10 MB. */
  const MaxFileSize: nat := 10 * 1024 * 1024

  /** The most files one multi-file upload may carry. */
  const MaxFiles: nat := 10

  /** The position of the last `c` in `s`, or -1. */
  function LastIndexOf(s: string, c: char): (k: int)
    ensures -1 <= k < |s|
    ensures k >= 0 ==> s[k] == c && forall m :: k < m < |s| ==> s[m] != c
    ensures k == -1 <==> c !in s
  {
    if |s| == 0 then -1
    else if s[|s| - 1] == c then |s| - 1
    else
      var k := LastIndexOf(s[..|s| - 1], c);
      assert forall m :: 0 <= m < |s| - 1 ==> s[..|s| - 1][m] == s[m];
      assert c in s[..|s| - 1] ==> c in s;
      k
  }

  /** `s` with every trailing `/` removed. */
  function StripTrailingSlashes(s: string): (r: string)
    ensures |r| <= |s| && r == s[..|r|]
    ensures |r| == 0 || r[|r| - 1] != '/'
    ensures |s| > 0 && s[|s| - 1] != '/' ==> r == s
  {
    if |s| > 0 && s[|s| - 1] == '/' then StripTrailingSlashes(s[..|s| - 1]) else s
  }

  /** The last path segment: `path.basename`. */
  function BaseName(s: string): (b: string)
    ensures '/' !in b
  {
    var t := StripTrailingSlashes(s);
    t[LastIndexOf(t, '/') + 1..]
  }

  /** `path.extname`: from the last `.` of the last segment to its end; empty when
      the segment has no `.`, starts with its only `.`, or is `..`. */
  function ExtName(name: string): (e: string)
    ensures e == "" || (e[0] == '.' && '.' !in e[1..] && '/' !in e)
    ensures e != "" ==> |e| < |BaseName(name)| && e == BaseName(name)[|BaseName(name)| - |e|..]
  {
    var b := BaseName(name);
    var d := LastIndexOf(b, '.');
    if d <= 0 || b == ".." then ""
    else
      FromLastIndex(b, '.', d);
      NotInSuffix(b, '/', d);
      b[d..]
  }

  /** From the last `c` on, a string starts with `c` and holds no other. */
  lemma FromLastIndex(s: string, c: char, d: nat)
    requires d < |s| && LastIndexOf(s, c) == d
    ensures s[d..][0] == c && c !in s[d..][1..]
  {
    assert forall m :: 0 <= m < |s| - d - 1 ==> s[d..][1..][m] == s[d + 1 + m];
  }

  /** A character absent from a string is absent from each of its suffixes. */
  lemma NotInSuffix(s: string, c: char, d: nat)
    requires d <= |s| && c !in s
    ensures c !in s[d..]
  {
    assert forall m :: 0 <= m < |s| - d ==> s[d..][m] == s[d + m];
  }

  /** Characters appended after the last `c` do not move it, as long as they hold no `c`. */
  lemma {:induction false} LastIndexOfAppend(p: string, q: string, c: char)
    requires c !in q
    ensures LastIndexOf(p + q, c) == LastIndexOf(p, c)
    decreases |q|
  {
    if |q| > 0 {
      var q' := q[..|q| - 1];
      assert q[|q| - 1] in q;
      assert forall m :: 0 <= m < |q'| ==> q'[m] == q[m];
      assert (p + q)[..|p + q| - 1] == p + q';
      assert (p + q)[|p + q| - 1] == q[|q| - 1];
      LastIndexOfAppend(p, q', c);
    } else {
      assert p + q == p;
    }
  }

  /** A path whose last character is not `/` has no trailing slashes to strip. */
  lemma EndsWithoutSlash(x: string, q: string)
    requires q != "" && '/' !in q
    ensures StripTrailingSlashes(x + q) == x + q
  {
    assert q[|q| - 1] in q;
    assert (x + q)[|x + q| - 1] == q[|q| - 1];
  }

  /** A name without `/` is its own last segment. */
  lemma BaseNameOfName(s: string)
    requires s != "" && '/' !in s
    ensures BaseName(s) == s
  {
    EndsWithoutSlash(s[..|s| - 1], s[|s| - 1..]);
    assert s[..|s| - 1] + s[|s| - 1..] == s;
  }

  /** The last `.` of `y.e` is the one before `e` when `e` holds none. */
  lemma LastDot(y: string, e: string)
    requires '.' !in e
    ensures LastIndexOf(y + "." + e, '.') == |y|
  {
    LastIndexOfAppend(y + ".", e, '.');
  }

  /** A file name `x.e`, where `e` is a non-empty extension, has extension `.e`. */
  lemma ExtNameOfSuffix(x: string, e: string)
    requires x != "" && '/' !in x
    requires e != "" && '.' !in e && '/' !in e
    ensures ExtName(x + "." + e) == "." + e
  {
    DottedName(x, e);
    BaseNameOfName(x + "." + e);
    LastDot(x, e);
    ExtNameIs(x + "." + e, |x|);
  }

  /** `x.e` is longer than two characters, holds no `/` when neither part does,
      and ends in `.e` from position `|x|`. */
  lemma DottedName(x: string, e: string)
    requires x != "" && '/' !in x && e != "" && '/' !in e
    ensures var s := x + "." + e; |s| > 2 && '/' !in s && s[|x|..] == "." + e
  {
    var s := x + "." + e;
    assert s == x + ("." + e);
  }

  /** The extension of a name that is its own last segment, from its last `.`. */
  lemma ExtNameIs(s: string, d: int)
    requires BaseName(s) == s && LastIndexOf(s, '.') == d && d > 0 && |s| > 2
    ensures ExtName(s) == s[d..]
  {
  }

  /** The words the filter's pattern alternates: `/jpeg|jpg|png|gif|webp|svg|pdf/`. */
  const AllowedWords: seq<string> := ["jpeg", "jpg", "png", "gif", "webp", "svg", "pdf"]

  /** `pattern.test(s)`: some allowed word occurs anywhere in `s`. */
  predicate MatchesAllowed(s: string)
  {
    exists k :: 0 <= k < |AllowedWords| && Contains(s, AllowedWords[k])
  }

  /** The upload filter: the lower-cased extension and the MIME type must both
      match the pattern. */
  predicate FileFilter(f: Upload)
  {
    MatchesAllowed(ToLower(ExtName(f.originalName))) && MatchesAllowed(f.mimetype)
  }

  /** A file the middleware stores: it passes the filter and is within the size limit. */
  predicate Accepted(f: Upload)
  {
    FileFilter(f) && f.size <= MaxFileSize
  }

  /** Lower-case ASCII letters only. */
  predicate LowerWord(w: string)
  {
    forall k :: 0 <= k < |w| ==> 'a' <= w[k] <= 'z'
  }

  lemma AllowedWordsLower()
    ensures forall k :: 0 <= k < |AllowedWords| ==> LowerWord(AllowedWords[k])
  {
  }

  lemma ToLowerAppend(a: string, b: string)
    ensures ToLower(a + b) == ToLower(a) + ToLower(b)
  {
    var l, r := ToLower(a + b), ToLower(a) + ToLower(b);
    assert |l| == |r|;
    forall m | 0 <= m < |l| ensures l[m] == r[m] {
      if m < |a| { assert (a + b)[m] == a[m]; } else { assert (a + b)[m] == b[m - |a|]; }
    }
  }

  lemma ToLowerOfLowerWord(w: string)
    requires LowerWord(w)
    ensures ToLower(w) == w
  {
  }

  lemma ToLowerKeepsSeparators(e: string)
    requires '.' !in e && '/' !in e
    ensures '.' !in ToLower(e) && '/' !in ToLower(e)
  {
    var le := ToLower(e);
    forall m | 0 <= m < |le| ensures le[m] != '.' && le[m] != '/' {
      assert le[m] == LowerChar(e[m]);
    }
  }

  lemma MatchesAllowedAt(s: string, k: nat)
    requires k < |AllowedWords| && Contains(s, AllowedWords[k])
    ensures MatchesAllowed(s)
  {
  }

  /** The filter's extension test on a name whose extension is known. */
  lemma FilterOnExtension(x: string, e: string, mimetype: string, size: nat)
    requires x != "" && '/' !in x
    requires e != "" && '.' !in e && '/' !in e
    ensures FileFilter(Upload(x + "." + e, mimetype, size)) == (MatchesAllowed(ToLower("." + e)) && MatchesAllowed(mimetype))
  {
    ExtNameOfSuffix(x, e);
  }

  lemma LowerDotWordContains(w: string, tail: string)
    requires LowerWord(w)
    ensures Contains(ToLower("." + (w + tail)), w)
  {
    ToLowerAppend(".", w + tail);
    ToLowerAppend(w, tail);
    ToLowerOfLowerWord(w);
    var low := ToLower("." + (w + tail));
    assert low == ToLower(".") + (w + ToLower(tail));
    assert low[1..1 + |w|] == w;
    ContainsAt(low, w, 1);
  }

  /** The extension half of the filter is an unanchored search: any extension that
      merely begins with an allowed word, `.pdfexe` as much as `.pdf`, passes. */
  lemma ExtensionWithAllowedWordAccepted(x: string, k: nat, tail: string, mimetype: string, size: nat)
    requires x != "" && '/' !in x && k < |AllowedWords|
    requires '.' !in tail && '/' !in tail
    ensures FileFilter(Upload(x + "." + (AllowedWords[k] + tail), mimetype, size)) <==> MatchesAllowed(mimetype)
  {
    var w := AllowedWords[k];
    AllowedWordsLower();
    assert LowerWord(w);
    var e := w + tail;
    assert '.' !in e && '/' !in e;
    FilterOnExtension(x, e, mimetype, size);
    LowerDotWordContains(w, tail);
    MatchesAllowedAt(ToLower("." + e), k);
  }

  /** Only the lower-cased extension is tested: `PHOTO.JPG` and `PHOTO.jpg` are
      treated alike. */
  lemma FilterIgnoresExtensionCase(x: string, e: string, mimetype: string, size: nat)
    requires x != "" && '/' !in x
    requires e != "" && '.' !in e && '/' !in e
    ensures FileFilter(Upload(x + "." + e, mimetype, size)) == FileFilter(Upload(x + "." + ToLower(e), mimetype, size))
  {
    var le := ToLower(e);
    ToLowerKeepsSeparators(e);
    FilterOnExtension(x, e, mimetype, size);
    FilterOnExtension(x, le, mimetype, size);
    LowerDotIdempotent(e);
  }

  lemma LowerDotIdempotent(e: string)
    ensures ToLower("." + ToLower(e)) == ToLower("." + e)
  {
    ToLowerAppend(".", e);
    ToLowerAppend(".", ToLower(e));
    assert ToLower(ToLower(e)) == ToLower(e);
  }

  /** A name without an extension is refused whatever its type. */
  lemma NoExtensionRejected(name: string, mimetype: string, size: nat)
    requires '.' !in name
    ensures !FileFilter(Upload(name, mimetype, size))
  {
    var t := StripTrailingSlashes(name);
    assert '.' !in t;
    var b := BaseName(name);
    assert '.' !in b;
    assert ExtName(name) == "";
    assert ToLower("") == "";
    forall k | 0 <= k < |AllowedWords| ensures !Contains("", AllowedWords[k]) {
    }
  }

  /** The stored name: `Date.now() + '-' + originalname.replace(/\s+/g, '-')`. */
  function StoredName(now: nat, originalName: string): (r: string)
    ensures NoWhitespace(r)
    ensures |r| > |Decimal(now)| && r[|Decimal(now)|] == '-'
  {
    var d := Decimal(now);
    var r := d + "-" + CollapseWhitespace(originalName);
    assert forall k :: 0 <= k < |d| ==> r[k] == d[k] && !IsWhitespace(d[k]);
    r
  }

  /** Read a stored name back: the timestamp before the first `-`, and the rest. */
  function ParseStoredName(s: string): (r: Option<(nat, string)>)
  {
    var first := Split(s, '-')[0];
    if |first| == 0 || |first| >= |s| || exists k :: 0 <= k < |first| && !IsDigit(first[k]) then None
    else Some((ParseDecimal(first), s[|first| + 1..]))
  }

  /** A stored name gives back the clock reading and the collapsed original name. */
  lemma ParseStoredNameInverse(now: nat, originalName: string)
    ensures ParseStoredName(StoredName(now, originalName)) == Some((now, CollapseWhitespace(originalName)))
  {
    var d := Decimal(now);
    var c := CollapseWhitespace(originalName);
    var s := StoredName(now, originalName);
    assert '-' !in d;
    assert s == d + ['-'] + c;
    SplitPrefix(d, '-', c);
    assert Split(s, '-')[0] == d;
    ParseDecimalInverse(now);
    assert s[|d| + 1..] == c;
  }

  /** Files stored at different clock readings never share a name. */
  lemma StoredNamesDiffer(now1: nat, now2: nat, a: string, b: string)
    requires now1 != now2
    ensures StoredName(now1, a) != StoredName(now2, b)
  {
    ParseStoredNameInverse(now1, a);
    ParseStoredNameInverse(now2, b);
  }

  function UploadsPath(name: string): string
  {
    "/uploads/" + name
  }

  /** `{ filePath, filename }` of one stored file. */
  function FileEntry(name: string): (j: Json)
    ensures j.JObj? && j.fields.Keys == {"filePath", "filename"}
    ensures j.fields["filePath"] == JStr(UploadsPath(name)) && j.fields["filename"] == JStr(name)
  {
    JObj(map["filePath" := JStr(UploadsPath(name)), "filename" := JStr(name)])
  }

  /** `POST /api/data/upload`. A refused or oversized file stops the request in the
      middleware, which answers through the default error handler. */
  function UploadOne(dir: set<string>, file: Option<Upload>, now: nat): (o: Stored)
    ensures file.None? ==> o == Stored(dir, Reply(400, "No file uploaded"))
    ensures file.Some? && !Accepted(file.value) ==> o == Stored(dir, ServerError)
    ensures file.Some? && Accepted(file.value) ==>
      var name := StoredName(now, file.value.originalName);
      && o.dir == dir + {name} && o.response.status == 200
      && o.response.body.Some? && o.response.body.value.JObj?
      && o.response.body.value.fields.Keys == {"message", "filePath", "filename"}
      && o.response.body.value.fields["filePath"] == JStr(UploadsPath(name))
      && o.response.body.value.fields["filename"] == JStr(name)
  {
    match file
    case None => Stored(dir, Reply(400, "No file uploaded"))
    case Some(f) =>
      if !Accepted(f) then Stored(dir, ServerError)
      else
        var name := StoredName(now, f.originalName);
        Stored(dir + {name}, Response(200, Some(JObj(map["message" := JStr("File uploaded successfully"),
          "filePath" := JStr(UploadsPath(name)), "filename" := JStr(name)]))))
  }

  /** The stored names of a batch, file by file, each with its own clock reading. */
  function StoredNames(files: seq<Upload>, clock: seq<nat>): (r: seq<string>)
    requires |clock| == |files|
    ensures |r| == |files|
    ensures forall k :: 0 <= k < |files| ==> r[k] == StoredName(clock[k], files[k].originalName)
  {
    seq(|files|, k requires 0 <= k < |files| => StoredName(clock[k], files[k].originalName))
  }

  /** The stored names of a batch, as a set of directory entries. */
  function NameSet(names: seq<string>): (r: set<string>)
    ensures forall n :: n in r <==> n in names
  {
    set n | n in names
  }

  /** One `{ filePath, filename }` per stored name, in the same order. */
  function Entries(names: seq<string>): (js: seq<Json>)
    ensures |js| == |names|
    ensures forall k :: 0 <= k < |names| ==> js[k] == FileEntry(names[k])
  {
    seq(|names|, k requires 0 <= k < |names| => FileEntry(names[k]))
  }

  /** Every file of a batch passes the filter and the size limit. */
  predicate AllAccepted(files: seq<Upload>)
  {
    forall k :: 0 <= k < |files| ==> Accepted(files[k])
  }

  /** `POST /api/data/upload/multiple`: more than ten files, or any file refused,
      stops the whole request and keeps nothing; otherwise every file is stored
      and the answer lists them in the order given. */
  function UploadMany(dir: set<string>, files: seq<Upload>, clock: seq<nat>): (o: Stored)
    requires |clock| == |files|
    ensures |files| > MaxFiles ==> o == Stored(dir, ServerError)
    ensures !AllAccepted(files) ==> o == Stored(dir, ServerError)
    ensures |files| == 0 ==> o == Stored(dir, Reply(400, "No files uploaded"))
    ensures 0 < |files| <= MaxFiles && AllAccepted(files) ==>
      var names := StoredNames(files, clock);
      && o.dir == dir + NameSet(names)
      && o.response.status == 200 && o.response.body.Some? && o.response.body.value.JObj?
      && "files" in o.response.body.value.fields
      && o.response.body.value.fields["files"] == JArr(Entries(names))
  {
    if |files| > MaxFiles || !AllAccepted(files) then Stored(dir, ServerError)
    else if |files| == 0 then Stored(dir, Reply(400, "No files uploaded"))
    else
      var names := StoredNames(files, clock);
      Stored(dir + NameSet(names),
        Response(200, Some(JObj(map["message" := JStr("Files uploaded successfully"), "files" := JArr(Entries(names))]))))
  }

  /** `DELETE /api/data/upload/:filename`. `unlinkError` is the error text when
      removing an existing file fails. */
  function Delete(dir: set<string>, filename: string, unlinkError: Option<string>): (o: Stored)
    ensures filename !in dir ==> o == Stored(dir, Reply(404, "File not found"))
    ensures filename in dir && unlinkError.None? ==> o == Stored(dir - {filename}, Reply(200, "File deleted successfully"))
    ensures filename in dir && unlinkError.Some? ==>
      o == Stored(dir, Response(500, Some(Failure("Error deleting file", unlinkError.value))))
    ensures o.dir <= dir && o.dir + {filename} >= dir
  {
    if filename !in dir then Stored(dir, Reply(404, "File not found"))
    else if unlinkError.Some? then Stored(dir, Response(500, Some(Failure("Error deleting file", unlinkError.value))))
    else Stored(dir - {filename}, Reply(200, "File deleted successfully"))
  }

  /** Uploading a file under a new name and deleting that name restores the directory. */
  lemma UploadThenDelete(dir: set<string>, f: Upload, now: nat)
    requires Accepted(f) && StoredName(now, f.originalName) !in dir
    ensures var name := StoredName(now, f.originalName);
      Delete(UploadOne(dir, Some(f), now).dir, name, None) == Stored(dir, Reply(200, "File deleted successfully"))
  {
    var name := StoredName(now, f.originalName);
    var up := UploadOne(dir, Some(f), now);
    assert up.dir == dir + {name};
    DeleteAdded(dir, name);
  }

  lemma DeleteAdded(dir: set<string>, name: string)
    requires name !in dir
    ensures Delete(dir + {name}, name, None) == Stored(dir, Reply(200, "File deleted successfully"))
  {
    assert dir + {name} - {name} == dir;
  }

  /** A second delete of the same name finds nothing. */
  lemma DeleteTwice(dir: set<string>, filename: string)
    requires filename in dir
    ensures Delete(Delete(dir, filename, None).dir, filename, None).response == Reply(404, "File not found")
  {
  }
}
