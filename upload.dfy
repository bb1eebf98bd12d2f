/**
 * The name handling of the `/documents/upload` route (app/routes/upload.py).
 *
 * The extension of the uploaded file name is validated against a fixed set,
 * a fresh blob name is built from a UTC timestamp and a short random id, the
 * blob is stored, and a URL carrying the store's access token is returned.
 * The clock, the random id, the configured URL, container and token, and
 * whether the blob store accepted the upload are parameters.
 */
module UploadRoute {
  import opened Http

  const AllowedExtensions: set<string> := {"pdf", "docx", "xlsx"}
  const UploadedMessage := "File uploaded successfully"
  const RejectedDetail := "Only PDF, DOCX, and XLSX files are allowed"
  const NamePrefix := "document_"

  predicate IsDigit(c: char) { '0' <= c <= '9' }
  predicate IsUpper(c: char) { 'A' <= c <= 'Z' }
  predicate IsLowerHex(c: char) { IsDigit(c) || 'a' <= c <= 'f' }

  /** A UTC time printed as year, month, day, hour, minute and second for a four-digit year: fourteen decimal digits. */
  predicate ValidTimestamp(ts: string) {
    |ts| == 14 && forall i | 0 <= i < |ts| :: IsDigit(ts[i])
  }

  /** The first eight hexadecimal digits of a random UUID, lower-case. */
  predicate ValidUniqueId(id: string) {
    |id| == 8 && forall i | 0 <= i < |id| :: IsLowerHex(id[i])
  }

  predicate NoUpper(s: string) {
    forall i | 0 <= i < |s| :: !IsUpper(s[i])
  }

  /** The last of the pieces `s` splits into at '.': the text after the last '.', or all of `s` when it has none. */
  function AfterLastDot(s: string): (r: string)
    ensures '.' !in r
    ensures |r| <= |s| && s[|s| - |r|..] == r
    ensures '.' in s ==> |r| < |s| && s[|s| - |r| - 1] == '.'
    ensures '.' !in s ==> r == s
    decreases |s|
  {
    if s == [] then []
    else if s[|s| - 1] == '.' then []
    else
      var init := s[..|s| - 1];
      var r := AfterLastDot(init);
      assert s == init + [s[|s| - 1]];
      assert s[|s| - |r| - 1..] == init[|init| - |r|..] + [s[|s| - 1]];
      r + [s[|s| - 1]]
  }

  function LowerChar(c: char): char {
    if IsUpper(c) then (c as int - 'A' as int + 'a' as int) as char else c
  }

  /** Lower-casing, restricted to the ASCII letters. */
  function Lower(s: string): (r: string)
    ensures |r| == |s| && NoUpper(r)
    ensures forall i | 0 <= i < |s| :: !IsUpper(s[i]) ==> r[i] == s[i]
    ensures forall i | 0 <= i < |s| :: IsUpper(s[i]) ==> 'a' <= r[i] <= 'z' && r[i] as int - s[i] as int == 32
  {
    seq(|s|, i requires 0 <= i < |s| => LowerChar(s[i]))
  }

  lemma LowerIdempotent(s: string)
    ensures Lower(Lower(s)) == Lower(s)
    ensures NoUpper(s) ==> Lower(s) == s
  {
  }

  /**
   * The extension of an uploaded name: the lower-cased text after the last
   * '.', or the whole lower-cased name when it has no '.'.
   */
  function Extension(filename: string): (ext: string)
    ensures '.' !in ext && NoUpper(ext)
    ensures '.' !in filename ==> ext == Lower(filename)
    ensures '.' in filename ==>
              exists k :: 0 <= k < |filename| && filename[k] == '.' && '.' !in filename[k + 1..]
                          && ext == Lower(filename[k + 1..])
  {
    var tail := AfterLastDot(filename);
    var ext := Lower(tail);
    if '.' in filename then
      var k := |filename| - |tail| - 1;
      assert filename[k + 1..] == tail;
      ext
    else
      ext
  }

  predicate IsAllowed(ext: string) {
    ext in AllowedExtensions
  }

  /** The blob name: the prefix "document_", the timestamp, '_', the id, '.', and the extension. */
  function NewFilename(ts: string, id: string, ext: string): (name: string)
    requires ValidTimestamp(ts) && ValidUniqueId(id)
    ensures |name| == 33 + |ext|
    ensures name[..9] == NamePrefix && name[9..23] == ts && name[23] == '_'
    ensures name[24..32] == id && name[32] == '.' && name[33..] == ext
  {
    NamePrefix + ts + "_" + id + "." + ext
  }

  /** The last-dot segment of `stem + "." + ext` is `ext` whenever `ext` holds no '.'. */
  lemma {:induction false} AfterLastDotOfDotted(stem: string, ext: string)
    requires '.' !in ext
    ensures AfterLastDot(stem + "." + ext) == ext
    decreases |ext|
  {
    var s := stem + "." + ext;
    if ext != [] {
      var init := ext[..|ext| - 1];
      assert s[..|s| - 1] == stem + "." + init;
      assert s[|s| - 1] == ext[|ext| - 1];
      AfterLastDotOfDotted(stem, init);
      assert init + [ext[|ext| - 1]] == ext;
    }
  }

  /**
   * Round trip: the extension read back from the generated blob name is the
   * validated extension of the uploaded name.
   */
  lemma StoredNameRoundTrip(ts: string, id: string, filename: string)
    requires ValidTimestamp(ts) && ValidUniqueId(id)
    ensures Extension(NewFilename(ts, id, Extension(filename))) == Extension(filename)
  {
  }

  /** `n` question marks. */
  function Questions(n: nat): (r: string)
    ensures |r| == n && forall i | 0 <= i < n :: r[i] == '?'
  {
    seq(n, i => '?')
  }

  /** The token with all of its leading '?' characters removed. */
  function LStripQuestion(token: string): (r: string)
    ensures |r| <= |token| && token[|token| - |r|..] == r
    ensures forall i | 0 <= i < |token| - |r| :: token[i] == '?'
    ensures r == [] || r[0] != '?'
    decreases |token|
  {
    if token != [] && token[0] == '?' then LStripQuestion(token[1..]) else token
  }

  /**
   * The stripped token is the only suffix that drops nothing but '?' and
   * does not itself start with '?'; stripping twice strips nothing more, and
   * a token not starting with '?' is kept whole.
   */
  lemma LStripQuestionUnique(token: string, r: string)
    requires |r| <= |token| && token[|token| - |r|..] == r
    requires forall i | 0 <= i < |token| - |r| :: token[i] == '?'
    requires r == [] || r[0] != '?'
    ensures r == LStripQuestion(token)
  {
    var s := LStripQuestion(token);
    assert r != [] ==> r[0] == token[|token| - |r|];
    assert s != [] ==> s[0] == token[|token| - |s|];
  }

  lemma LStripQuestionIdempotent(token: string)
    ensures LStripQuestion(LStripQuestion(token)) == LStripQuestion(token)
    ensures token == [] || token[0] != '?' ==> LStripQuestion(token) == token
  {
  }

  /**
   * The URL returned for a stored blob: the account URL, the container and
   * the blob name joined by '/', then one '?' and the stripped token.
   */
  function FileUrl(blobUrl: string, container: string, name: string, token: string): (url: string)
    ensures var head := blobUrl + "/" + container + "/" + name + "?";
      |url| == |head| + |LStripQuestion(token)| && url[..|head|] == head && url[|head|..] == LStripQuestion(token)
  {
    blobUrl + "/" + container + "/" + name + "?" + LStripQuestion(token)
  }

  /**
   * After the one '?' the URL inserts comes the token with its leading '?'
   * removed, so the query never starts with a second '?'.
   */
  lemma FileUrlQuery(blobUrl: string, container: string, name: string, token: string)
    ensures var head := blobUrl + "/" + container + "/" + name + "?";
      var url := FileUrl(blobUrl, container, name, token);
      && |head| <= |url| && url[..|head|] == head
      && (|url| == |head| || url[|head|] != '?')
      && exists n :: 0 <= n <= |token| && token == Questions(n) + url[|head|..]
  {
    var head := blobUrl + "/" + container + "/" + name + "?";
    var url := FileUrl(blobUrl, container, name, token);
    var r := LStripQuestion(token);
    assert url == head + r;
    assert url[|head|..] == r;
    var n := |token| - |r|;
    assert token == Questions(n) + r;
  }

  /** The blob upload the route performs (always with overwrite). */
  datatype Call = PutBlob(name: string)

  /** The route's answer: a success body or an HTTP error. */
  datatype Reply =
    | Uploaded(message: string, fileUrl: string)
    | HttpError(status: nat, detail: string)

  datatype Exchange = Exchange(reply: Reply, calls: seq<Call>)

  /**
   * The `upload_document` endpoint: `ts` and `id` are what the clock and the
   * random generator give, `stored` whether the blob store accepted the
   * upload (it raises otherwise).
   */
  function UploadDocument(filename: string, ts: string, id: string, blobUrl: string, container: string,
                          token: string, stored: bool): (x: Exchange)
    requires ValidTimestamp(ts) && ValidUniqueId(id)
    ensures x.reply == HttpError(400, RejectedDetail) <==> !IsAllowed(Extension(filename))
    ensures !IsAllowed(Extension(filename)) ==> x.calls == []
    ensures IsAllowed(Extension(filename)) ==> x.calls == [PutBlob(NewFilename(ts, id, Extension(filename)))]
    ensures IsAllowed(Extension(filename)) && stored ==>
              x.reply == Uploaded(UploadedMessage, FileUrl(blobUrl, container, NewFilename(ts, id, Extension(filename)), token))
    ensures IsAllowed(Extension(filename)) && !stored ==> x.reply == HttpError(500, InternalErrorDetail)
  {
    var ext := Extension(filename);
    if !IsAllowed(ext) then
      Exchange(HttpError(400, RejectedDetail), [])
    else
      var name := NewFilename(ts, id, ext);
      if stored then Exchange(Uploaded(UploadedMessage, FileUrl(blobUrl, container, name, token)), [PutBlob(name)])
      else Exchange(HttpError(500, InternalErrorDetail), [PutBlob(name)])
  }

  /**
   * An accepted upload is stored under a generated name whose extension reads
   * back as the allowed extension of the uploaded name, and the returned URL
   * points at exactly that blob.
   */
  lemma UploadedNameCarriesExtension(filename: string, ts: string, id: string, blobUrl: string,
                                     container: string, token: string, stored: bool)
    requires ValidTimestamp(ts) && ValidUniqueId(id)
    requires IsAllowed(Extension(filename))
    ensures var x := UploadDocument(filename, ts, id, blobUrl, container, token, stored);
      && x.calls == [PutBlob(NewFilename(ts, id, Extension(filename)))]
      && Extension(x.calls[0].name) == Extension(filename)
      && IsAllowed(Extension(x.calls[0].name))
      && x.calls[0].name[..9] == NamePrefix && x.calls[0].name[9..23] == ts && x.calls[0].name[24..32] == id
      && (stored ==> x.reply.fileUrl == FileUrl(blobUrl, container, x.calls[0].name, token))
  {
  }

  /** A name without any '.' is judged by its whole lower-cased text, so a bare "PDF" passes. */
  lemma BareNameIsItsOwnExtension()
    ensures Extension("PDF") == "pdf" && IsAllowed(Extension("PDF"))
  {
  }

  /** Only the last segment counts: whatever precedes it, the extension is the lower-cased last segment. */
  lemma ExtensionOfDotted(stem: string, ext: string)
    requires '.' !in ext
    ensures Extension(stem + "." + ext) == Lower(ext)
  {
    AfterLastDotOfDotted(stem, ext);
  }

  /** A name ending in ".pdf.exe" is rejected, whatever comes before. */
  lemma OnlyLastSegmentCounts(stem: string)
    ensures Extension(stem + ".pdf.exe") == "exe" && !IsAllowed(Extension(stem + ".pdf.exe"))
  {
    var name := stem + ".pdf.exe";
    assert name == (stem + ".pdf") + "." + "exe";
    ExtensionOfDotted(stem + ".pdf", "exe");
    assert NoUpper("exe");
    LowerIdempotent("exe");
    assert Extension(name) == "exe";
  }
}
