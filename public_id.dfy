/**
 * `extractPublicId` (lib/utils.ts): the public id of an uploaded image, read out of its
 * delivery URL with the regular expression `/\/upload\/(?:v\d+\/)?(.+)(?:\.[^.]+)$/`.
 *
 * The expression is evaluated the way a backtracking JavaScript engine does: the match
 * starting leftmost wins; at one start the optional version segment is tried first and
 * skipped only when the rest cannot match with it; the greedy `(.+)` takes everything up
 * to the last dot whose dot-free suffix is non-empty; and `.` does not match a line
 * terminator.
 */
module PublicId {
  import opened Wrappers
  import JsText

  const UploadMarker: string := "/upload/"

  /** The characters JavaScript's `.` does not match. */
  predicate IsLineTerminator(c: char) {
    c == '\n' || c == '\r' || c == '\U{2028}' || c == '\U{2029}'
  }

  predicate NoLineTerminator(s: string) {
    forall k :: 0 <= k < |s| ==> !IsLineTerminator(s[k])
  }

  predicate NoDot(s: string) {
    forall k :: 0 <= k < |s| ==> s[k] != '.'
  }

  /** A version segment `v\d+\/`. */
  predicate IsVersion(v: string) {
    && |v| >= 3 && v[0] == 'v' && v[|v| - 1] == '/'
    && forall k :: 1 <= k < |v| - 1 ==> JsText.IsDecimalDigit(v[k])
  }

  predicate UploadAt(s: string, p: nat) {
    p + |UploadMarker| <= |s| && s[p..p + |UploadMarker|] == UploadMarker
  }

  /** The first index at or after `i` that does not hold a decimal digit. */
  function DigitRunEnd(s: string, i: nat): (j: nat)
    requires i <= |s|
    ensures i <= j <= |s|
    ensures forall k :: i <= k < j ==> JsText.IsDecimalDigit(s[k])
    ensures j < |s| ==> !JsText.IsDecimalDigit(s[j])
    decreases |s| - i
  {
    if i < |s| && JsText.IsDecimalDigit(s[i]) then DigitRunEnd(s, i + 1) else i
  }

  /** `(?:v\d+\/)` tried at index `i`: the index just after the segment, when there is one. */
  function VersionEnd(s: string, i: nat): (r: Option<nat>)
    requires i <= |s|
    ensures r.Some? ==> i + 3 <= r.value <= |s| && IsVersion(s[i..r.value])
  {
    if i < |s| && s[i] == 'v' then
      var j := DigitRunEnd(s, i + 1);
      if j > i + 1 && j < |s| && s[j] == '/' then Some(j + 1) else None
    else None
  }

  /** The index of the last dot of `s`, if it has one. */
  function LastDot(s: string): (r: Option<nat>)
    ensures r.None? <==> NoDot(s)
    ensures r.Some? ==> r.value < |s| && s[r.value] == '.' && NoDot(s[r.value + 1..])
  {
    if s == [] then None
    else if s[|s| - 1] == '.' then Some(|s| - 1)
    else
      var r := LastDot(s[..|s| - 1]);
      if r.Some? then
        assert s[r.value + 1..] == s[..|s| - 1][r.value + 1..] + [s[|s| - 1]];
        r
      else r
  }

  /** `(.+)(?:\.[^.]+)$` matched against the whole of `body`: the captured text. */
  function SplitExtension(body: string): Option<string> {
    match LastDot(body)
    case None => None
    case Some(d) =>
      if 1 <= d && d + 1 < |body| && NoLineTerminator(body[..d]) then Some(body[..d]) else None
  }

  /** The match attempted at index `p` of `s`, version segment first. */
  function MatchAt(s: string, p: nat): Option<string>
    requires p <= |s|
  {
    if !UploadAt(s, p) then None
    else
      var i := p + |UploadMarker|;
      var withVersion := WithVersion(s, i);
      if withVersion.Some? then withVersion else SplitExtension(s[i..])
  }

  /** The rest of the expression after "/upload/", with the version segment taken. */
  function WithVersion(s: string, i: nat): Option<string>
    requires i <= |s|
  {
    match VersionEnd(s, i)
    case Some(j) => SplitExtension(s[j..])
    case None => None
  }

  /** The leftmost match at index `p` or later. */
  function MatchFrom(s: string, p: nat): Option<string>
    requires p <= |s|
    decreases |s| - p
  {
    if p == |s| then None
    else
      match MatchAt(s, p)
      case Some(r) => Some(r)
      case None => MatchFrom(s, p + 1)
  }

  /** `extractPublicId(url)`: `null` for an empty URL or when the expression does not match. */
  function ExtractPublicId(url: string): Option<string> {
    if url == "" then None else MatchFrom(url, 0)
  }

  /**
   * The regular expression's meaning written as a decomposition of the URL:
   * text before, "/upload/", an optional version segment, the public id, ".", an extension.
   */
  predicate Decomposes(url: string, pre: string, ver: string, id: string, ext: string) {
    && url == pre + UploadMarker + ver + id + "." + ext
    && (ver == "" || IsVersion(ver))
    && id != "" && NoLineTerminator(id)
    && ext != "" && NoDot(ext)
  }

  /**
   * Which of two decompositions the engine reports: the one whose "/upload/" starts first,
   * and at the same start the one with a version segment.
   */
  ghost predicate Preferred(url: string, pre: string, ver: string) {
    forall pre', ver', id', ext' :: Decomposes(url, pre', ver', id', ext') ==>
      |pre| < |pre'| || (|pre| == |pre'| && (ver' != "" ==> ver != ""))
  }

  lemma {:induction false} LastDotOf(id: string, ext: string)
    requires NoDot(ext)
    ensures LastDot(id + "." + ext) == Some(|id|)
    decreases |ext|
  {
    var s := id + "." + ext;
    if ext != [] {
      assert s[|s| - 1] == ext[|ext| - 1];
      assert s[..|s| - 1] == id + "." + ext[..|ext| - 1];
      LastDotOf(id, ext[..|ext| - 1]);
    }
  }

  lemma SplitExtensionOf(id: string, ext: string)
    requires id != "" && NoLineTerminator(id) && ext != "" && NoDot(ext)
    ensures SplitExtension(id + "." + ext) == Some(id)
  {
    LastDotOf(id, ext);
    assert (id + "." + ext)[..|id|] == id;
  }

  /** What a successful split says about the body: captured text, a dot, a dot-free extension. */
  lemma SplitExtensionSome(body: string) returns (ext: string)
    requires SplitExtension(body).Some?
    ensures var id := SplitExtension(body).value;
      body == id + "." + ext && id != "" && NoLineTerminator(id) && ext != "" && NoDot(ext)
  {
    var d := LastDot(body).value;
    ext := body[d + 1..];
    assert body == body[..d] + "." + ext;
  }

  lemma VersionEndOf(s: string, i: nat, ver: string)
    requires i + |ver| <= |s| && s[i..i + |ver|] == ver && IsVersion(ver)
    ensures VersionEnd(s, i) == Some(i + |ver|)
  {
    assert s[i] == ver[0];
    var j := DigitRunEnd(s, i + 1);
    forall k | i + 1 <= k < i + |ver| - 1
      ensures JsText.IsDecimalDigit(s[k])
    {
      assert s[k] == ver[k - i];
    }
    assert s[i + |ver| - 1] == ver[|ver| - 1] == '/';
  }

  /** The parts of a decomposed URL, found back at their offsets. */
  lemma DecomposesParts(s: string, pre: string, ver: string, id: string, ext: string)
    requires s == pre + UploadMarker + ver + id + "." + ext
    ensures var i := |pre| + |UploadMarker|;
      && UploadAt(s, |pre|) && s[..|pre|] == pre
      && i + |ver| <= |s| && s[i..i + |ver|] == ver && s[i + |ver|..] == id + "." + ext
  {
    var i := |pre| + |UploadMarker|;
    var tail := id + "." + ext;
    assert s == pre + (UploadMarker + (ver + tail));
    assert s[..|pre|] == pre;
    assert s[|pre|..] == UploadMarker + (ver + tail);
    assert s[|pre|..][..|UploadMarker|] == UploadMarker;
    assert s[i..] == ver + tail;
    assert s[i..][..|ver|] == ver;
    assert s[i..][|ver|..] == tail;
  }

  /** The attempt at `p` once "/upload/" is found there. */
  lemma MatchAtOf(s: string, p: nat)
    requires UploadAt(s, p)
    ensures var i := p + |UploadMarker|;
      MatchAt(s, p) == if WithVersion(s, i).Some? then WithVersion(s, i) else SplitExtension(s[i..])
  {
  }

  /** A decomposition starting at `|pre|` makes the attempt there succeed, with its id when it has a version. */
  lemma MatchAtComplete(s: string, pre: string, ver: string, id: string, ext: string)
    requires Decomposes(s, pre, ver, id, ext)
    ensures MatchAt(s, |pre|).Some?
    ensures ver != "" ==> MatchAt(s, |pre|) == Some(id)
  {
    DecomposesParts(s, pre, ver, id, ext);
    MatchAtOfParts(s, |pre|, ver, id, ext);
  }

  /** The attempt at `p` on a URL laid out as a decomposition from `p`. */
  lemma MatchAtOfParts(s: string, p: nat, ver: string, id: string, ext: string)
    requires UploadAt(s, p)
    requires var i := p + |UploadMarker|;
      i + |ver| <= |s| && s[i..i + |ver|] == ver && s[i + |ver|..] == id + "." + ext
    requires (ver == "" || IsVersion(ver)) && id != "" && NoLineTerminator(id) && ext != "" && NoDot(ext)
    ensures MatchAt(s, p).Some?
    ensures ver != "" ==> MatchAt(s, p) == Some(id)
  {
    var i := p + |UploadMarker|;
    SplitExtensionOf(id, ext);
    if ver != "" {
      WithVersionOfParts(s, i, ver, id, ext);
    } else {
      assert s[i..] == id + "." + ext;
    }
    MatchAtOf(s, p);
  }

  /** The version segment taken at `i` on a URL laid out as segment, id, dot and extension. */
  lemma WithVersionOfParts(s: string, i: nat, ver: string, id: string, ext: string)
    requires i + |ver| <= |s| && s[i..i + |ver|] == ver && s[i + |ver|..] == id + "." + ext
    requires IsVersion(ver) && id != "" && NoLineTerminator(id) && ext != "" && NoDot(ext)
    ensures WithVersion(s, i) == Some(id)
  {
    assert VersionEnd(s, i) == Some(i + |ver|) by { VersionEndOf(s, i, ver); }
    WithVersionOf(s, i, i + |ver|);
    assert SplitExtension(s[i + |ver|..]) == Some(id) by { SplitExtensionOf(id, ext); }
  }

  /** Once the version segment ends at `j`, the rest is split from `j`. */
  lemma WithVersionOf(s: string, i: nat, j: nat)
    requires i <= |s| && VersionEnd(s, i) == Some(j)
    ensures WithVersion(s, i) == SplitExtension(s[j..])
  {
  }

  /** When the version segment cannot be taken at `p`, no decomposition there has one. */
  lemma NoVersionAt(s: string, p: nat)
    requires p + |UploadMarker| <= |s| && WithVersion(s, p + |UploadMarker|).None?
    ensures forall ver, id, ext :: Decomposes(s, s[..p], ver, id, ext) ==> ver == ""
  {
    forall ver, id, ext | Decomposes(s, s[..p], ver, id, ext)
      ensures ver == ""
    {
      if ver != "" {
        DecomposesParts(s, s[..p], ver, id, ext);
        WithVersionOfParts(s, p + |UploadMarker|, ver, id, ext);
      }
    }
  }

  /** A URL cut at `p`, `i` and `j` around "/upload/", read back as a concatenation. */
  lemma Recompose(s: string, p: nat, i: nat, j: nat, id: string, ext: string)
    requires p <= i <= j <= |s| && s[p..i] == UploadMarker && s[j..] == id + "." + ext
    ensures s == s[..p] + UploadMarker + s[i..j] + id + "." + ext
  {
    assert s == s[..p] + s[p..i] + s[i..j] + s[j..];
  }

  /** A successful attempt at `p` comes from a decomposition there, with a version when one fits. */
  lemma MatchAtSound(s: string, p: nat) returns (ver: string, ext: string)
    requires p <= |s| && MatchAt(s, p).Some?
    ensures Decomposes(s, s[..p], ver, MatchAt(s, p).value, ext)
    ensures ver == "" ==> forall ver', id', ext' :: Decomposes(s, s[..p], ver', id', ext') ==> ver' == ""
  {
    var i := p + |UploadMarker|;
    var id := MatchAt(s, p).value;
    MatchAtOf(s, p);
    if WithVersion(s, i).Some? {
      var j := VersionEnd(s, i).value;
      assert WithVersion(s, i) == SplitExtension(s[j..]);
      ver := s[i..j];
      ext := SplitExtensionSome(s[j..]);
      Recompose(s, p, i, j, id, ext);
    } else {
      ver := "";
      ext := SplitExtensionSome(s[i..]);
      Recompose(s, p, i, i, id, ext);
      assert s[i..i] == "";
      NoVersionAt(s, p);
    }
  }

  /** The scan reports the first index from `p` on where an attempt succeeds. */
  lemma {:induction false} MatchFromFirst(s: string, p: nat) returns (q: nat)
    requires p <= |s|
    ensures MatchFrom(s, p).Some? ==>
      p <= q < |s| && MatchAt(s, q) == MatchFrom(s, p)
      && forall q' :: p <= q' < q ==> MatchAt(s, q').None?
    ensures MatchFrom(s, p).None? ==> forall q' :: p <= q' <= |s| ==> MatchAt(s, q').None?
    decreases |s| - p
  {
    if p == |s| || MatchAt(s, p).Some? {
      q := p;
    } else {
      q := MatchFromFirst(s, p + 1);
      assert MatchFrom(s, p) == MatchFrom(s, p + 1);
      forall q' | p <= q' <= |s| && (MatchFrom(s, p).None? || q' < q)
        ensures MatchAt(s, q').None?
      {
        if q' > p {
          assert p + 1 <= q';
        }
      }
    }
  }

  /** The first successful attempt, with its version segment when one fits, is the preferred one. */
  lemma PreferredFirst(url: string, q: nat, ver: string)
    requires q <= |url| && forall q' :: 0 <= q' < q ==> MatchAt(url, q').None?
    requires ver == "" ==> forall ver', id', ext' :: Decomposes(url, url[..q], ver', id', ext') ==> ver' == ""
    ensures Preferred(url, url[..q], ver)
  {
    forall pre', ver', id', ext' | Decomposes(url, pre', ver', id', ext')
      ensures q < |pre'| || (q == |pre'| && (ver' != "" ==> ver != ""))
    {
      assert MatchAt(url, |pre'|).Some? by { MatchAtComplete(url, pre', ver', id', ext'); }
      if |pre'| == q {
        assert pre' == url[..q] by { DecomposesParts(url, pre', ver', id', ext'); }
      }
    }
  }

  /** Every reported id is that of a decomposition the engine prefers over all others. */
  lemma ExtractPublicIdSound(url: string)
    requires ExtractPublicId(url).Some?
    ensures exists pre, ver, ext ::
      Decomposes(url, pre, ver, ExtractPublicId(url).value, ext) && Preferred(url, pre, ver)
  {
    var q := MatchFromFirst(url, 0);
    var ver, ext := MatchAtSound(url, q);
    PreferredFirst(url, q, ver);
    assert ExtractPublicId(url).value == MatchAt(url, q).value;
  }

  /** The id of the preferred decomposition is what is reported. */
  lemma ExtractPublicIdOfPreferred(url: string, pre: string, ver: string, id: string, ext: string)
    requires Decomposes(url, pre, ver, id, ext) && Preferred(url, pre, ver)
    ensures ExtractPublicId(url) == Some(id)
  {
    var p := |pre|;
    var q := MatchFromFirst(url, 0);
    MatchAtComplete(url, pre, ver, id, ext);
    assert MatchAt(url, p).Some?;
    assert q <= p;
    var r := MatchAt(url, q).value;
    var ver0, ext0 := MatchAtSound(url, q);
    assert |url[..q]| <= p by {
      assert Decomposes(url, url[..q], ver0, r, ext0);
    }
    if ver == "" {
      assert Decomposes(url, url[..q], ver0, r, ext0);
      assert ver0 == "";
      SameSplit(url, pre, id, ext, url[..q], r, ext0);
    }
  }

  /**
   * A URL whose first "/upload/" is followed by a version segment, the public id, a dot and
   * a dot-free extension yields that id, the version segment left out.
   */
  lemma FirstUploadVersioned(url: string, pre: string, ver: string, id: string, ext: string)
    requires Decomposes(url, pre, ver, id, ext) && ver != ""
    requires forall q :: 0 <= q < |pre| ==> !UploadAt(url, q)
    ensures ExtractPublicId(url) == Some(id)
  {
    forall pre', ver', id', ext' | Decomposes(url, pre', ver', id', ext')
      ensures |pre| <= |pre'|
    {
      DecomposesParts(url, pre', ver', id', ext');
    }
    ExtractPublicIdOfPreferred(url, pre, ver, id, ext);
  }

  /**
   * The example URL of the source's comment,
   * "https://res.cloudinary.com/cloud/image/upload/v123/folder/image.jpg", written in its parts.
   */
  const ExampleHost: string := "https://res.cloudinary.com/cloud/image"
  const ExampleUrl: string := ExampleHost + "/upload/" + "v123/" + "folder/image" + "." + "jpg"

  /** The example URL laid out as the expression reads it. */
  lemma ExampleDecomposes()
    ensures Decomposes(ExampleUrl, ExampleHost, "v123/", "folder/image", "jpg")
  {
    assert IsVersion("v123/") && NoLineTerminator("folder/image") && NoDot("jpg");
  }

  /** A "/upload/" starting at `q` has "/u" there. */
  lemma UploadAtStart(s: string, q: nat)
    requires q + 1 < |s|
    ensures UploadAt(s, q) ==> s[q] == '/' && s[q + 1] == 'u'
  {
    if UploadAt(s, q) {
      assert s[q..q + |UploadMarker|][0] == s[q] && s[q..q + |UploadMarker|][1] == s[q + 1];
    }
  }

  /** The example URL has no "/upload/" before the one after its host part. */
  lemma ExampleNoEarlierUpload(q: nat)
    requires q < |ExampleHost|
    ensures !UploadAt(ExampleUrl, q)
  {
    assert ExampleHost[q] != '/' || q + 1 == |ExampleHost| || ExampleHost[q + 1] != 'u';
    assert ExampleUrl[q] == ExampleHost[q];
    assert ExampleUrl[q + 1] == if q + 1 == |ExampleHost| then '/' else ExampleHost[q + 1];
    UploadAtStart(ExampleUrl, q);
  }

  /** The example of the source's comment: the version segment and the extension are dropped. */
  lemma CommentExample()
    ensures ExtractPublicId(ExampleUrl) == Some("folder/image")
  {
    ExampleDecomposes();
    forall q | 0 <= q < |ExampleHost|
      ensures !UploadAt(ExampleUrl, q)
    {
      ExampleNoEarlierUpload(q);
    }
    FirstUploadVersioned(ExampleUrl, ExampleHost, "v123/", "folder/image", "jpg");
  }

  /** Two version-free decompositions at the same start capture the same id. */
  lemma SameSplit(url: string, pre: string, id: string, ext: string, pre': string, id': string, ext': string)
    requires Decomposes(url, pre, "", id, ext) && Decomposes(url, pre', "", id', ext') && |pre| == |pre'|
    ensures id == id'
  {
    var i := |pre| + |UploadMarker|;
    assert url[i..] == id' + "." + ext' by {
      assert url == pre' + UploadMarker + (id' + "." + ext');
    }
    assert url[i..] == id + "." + ext by {
      assert url == pre + UploadMarker + (id + "." + ext);
    }
    SplitExtensionOf(id, ext);
    SplitExtensionOf(id', ext');
  }

  /** Nothing is reported exactly when the URL has no decomposition at all. */
  lemma ExtractPublicIdNone(url: string)
    ensures ExtractPublicId(url).None? <==>
      forall pre, ver, id, ext :: !Decomposes(url, pre, ver, id, ext)
  {
    if ExtractPublicId(url).None? {
      var q := MatchFromFirst(url, 0);
      forall pre, ver, id, ext | Decomposes(url, pre, ver, id, ext)
        ensures false
      {
        MatchAtComplete(url, pre, ver, id, ext);
      }
    } else {
      ExtractPublicIdSound(url);
    }
  }
}
