/** The media-host helpers: the null guards of the upload and delete helpers
    and the public id that the delete helper derives from a media URL. The
    uploads and deletions themselves happen on the media host; here a
    deletion is the request the helper would send. */
module Cloudinary {
  import opened Common

  /** What the media host answers to an upload. */
  datatype Upload = Upload(url: string, duration: real)

  /** A deletion request sent to the media host. */
  datatype Destroy = Destroy(publicId: string, resourceType: string)

  /** The position of the first `c` in `s`, or `|s|` when there is none. */
  function IndexOf(s: string, c: char): (i: nat)
    ensures i <= |s| && c !in s[..i]
    ensures i < |s| ==> s[i] == c
  {
    if s == [] then 0
    else if s[0] == c then 0
    else
      var i := IndexOf(s[1..], c) + 1;
      assert s[..i] == [s[0]] + s[1..][..i - 1];
      i
  }

  /** `s.split(sep)` for a one-character separator: the text before the
      first separator, then the split of the rest. */
  function Split(s: string, sep: char): (parts: seq<string>)
    ensures |parts| >= 1
    ensures forall k :: 0 <= k < |parts| ==> sep !in parts[k]
    decreases |s|
  {
    var i := IndexOf(s, sep);
    if i == |s| then
      assert s[..i] == s;
      [s]
    else [s[..i]] + Split(s[i + 1..], sep)
  }

  /** `parts.join(sep)`. */
  function Join(parts: seq<string>, sep: char): string {
    if parts == [] then ""
    else if |parts| == 1 then parts[0]
    else parts[0] + [sep] + Join(parts[1..], sep)
  }

  /** Splitting and joining again gives back the original string. */
  lemma {:induction false} JoinSplit(s: string, sep: char)
    ensures Join(Split(s, sep), sep) == s
    decreases |s|
  {
    var i := IndexOf(s, sep);
    if i < |s| {
      var rest := Split(s[i + 1..], sep);
      JoinSplit(s[i + 1..], sep);
      assert Split(s, sep) == [s[..i]] + rest;
      assert ([s[..i]] + rest)[1..] == rest;
      assert s == s[..i] + [sep] + s[i + 1..];
    }
  }

  /** The first separator of `a + [sep] + b` is the one between them when
      `a` has none. */
  lemma IndexOfJoined(a: string, b: string, sep: char)
    requires sep !in a
    ensures IndexOf(a + [sep] + b, sep) == |a|
  {
    var s := a + [sep] + b;
    assert s[|a|] == sep;
    assert forall k :: 0 <= k < |a| ==> s[k] == a[k];
  }

  /** Joining parts that do not contain the separator and splitting again
      gives back the parts. */
  lemma {:induction false} SplitJoin(parts: seq<string>, sep: char)
    requires |parts| >= 1
    requires forall k :: 0 <= k < |parts| ==> sep !in parts[k]
    ensures Split(Join(parts, sep), sep) == parts
    decreases |parts|
  {
    if |parts| == 1 {
      SplitWithout(parts[0], sep);
    } else {
      var a := parts[0];
      var b := Join(parts[1..], sep);
      var s := a + [sep] + b;
      assert Join(parts, sep) == s;
      IndexOfJoined(a, b, sep);
      assert s[..|a|] == a;
      assert s[|a| + 1..] == b;
      SplitJoin(parts[1..], sep);
      assert parts == [a] + parts[1..];
    }
  }

  /** A string without the separator splits into itself alone. */
  lemma SplitWithout(s: string, sep: char)
    requires sep !in s
    ensures Split(s, sep) == [s]
  {
    assert s[..|s|] == s;
  }

  /** The first part is the text before the first separator. */
  lemma SplitFirst(s: string, sep: char)
    ensures Split(s, sep)[0] == s[..IndexOf(s, sep)]
  {
  }

  function LastPart(s: string, sep: char): string {
    var parts := Split(s, sep);
    parts[|parts| - 1]
  }

  /** Past a separator, the last part is the last part of what follows it. */
  lemma {:induction false} LastPartAfter(s: string, sep: char)
    requires IndexOf(s, sep) < |s|
    ensures LastPart(s, sep) == LastPart(s[IndexOf(s, sep) + 1..], sep)
  {
    var i := IndexOf(s, sep);
    var rest := Split(s[i + 1..], sep);
    var parts := Split(s, sep);
    assert parts == [s[..i]] + rest;
    assert |parts| == |rest| + 1;
    assert parts[|parts| - 1] == rest[|rest| - 1];
  }

  /** The last part is the text after the last separator. */
  lemma {:induction false} SplitLast(s: string, sep: char)
    ensures |LastPart(s, sep)| <= |s|
    ensures LastPart(s, sep) == s[|s| - |LastPart(s, sep)|..]
    ensures |LastPart(s, sep)| == |s| || s[|s| - |LastPart(s, sep)| - 1] == sep
    decreases |s|
  {
    var i := IndexOf(s, sep);
    if i == |s| {
      assert s[..i] == s;
    } else {
      var t := s[i + 1..];
      SplitLast(t, sep);
      LastPartAfter(s, sep);
      var l := LastPart(t, sep);
      var k := |t| - |l|;
      assert |s| - |l| == i + 1 + k;
      assert t[k..] == s[i + 1 + k..];
      if k > 0 {
        assert s[i + k] == t[k - 1];
      }
    }
  }

  /** `url.split("/").pop()`: the text after the last "/". */
  function LastSegment(url: string): (seg: string)
    ensures '/' !in seg
    ensures |seg| <= |url| && seg == url[|url| - |seg|..]
    ensures |seg| == |url| || url[|url| - |seg| - 1] == '/'
  {
    SplitLast(url, '/');
    LastPart(url, '/')
  }

  /** The public id the delete helper derives: the last "/"-separated
      segment of the URL, cut before its first ".". */
  function PublicId(url: string): (id: string)
    ensures '/' !in id && '.' !in id
    ensures id <= LastSegment(url)
    ensures |id| == |LastSegment(url)| || LastSegment(url)[|id|] == '.'
  {
    var seg := LastSegment(url);
    var id := Split(seg, '.')[0];
    SplitFirst(seg, '.');
    assert forall c :: c in id ==> c in seg;
    id
  }

  /** A URL without "/" and "." is its own public id. */
  lemma PublicIdOfPlainName(url: string)
    requires '/' !in url && '.' !in url
    ensures PublicId(url) == url
  {
    SplitWithout(url, '/');
    SplitWithout(url, '.');
  }

  /** `deleteFromCloudinary(fileUrl)`: nothing is sent for a falsy URL;
      otherwise the derived public id is destroyed as an "image", whatever
      kind of file the URL names (the helper has no parameter for it). */
  function DeleteFromCloudinary(fileUrl: Option<string>): (r: Option<Destroy>)
    ensures !Truthy(fileUrl) <==> r.None?
    ensures r.Some? ==> r.value.resourceType == "image"
    ensures r.Some? ==> r.value.publicId == PublicId(fileUrl.value)
    ensures r.Some? ==> '/' !in r.value.publicId && r.value.publicId <= LastSegment(fileUrl.value)
  {
    if !Truthy(fileUrl) then None
    else Some(Destroy(PublicId(fileUrl.value), "image"))
  }

  /** `uploadOnCloudinary(localFilePath)` given what the media host answers
      (`None` when the upload throws): no upload for a falsy path, and any
      failure comes back as null. */
  function UploadOnCloudinary(localFilePath: Option<string>, reply: Option<Upload>): (r: Option<Upload>)
    ensures !Truthy(localFilePath) ==> r.None?
    ensures Truthy(localFilePath) ==> r == reply
  {
    if !Truthy(localFilePath) then None else reply
  }
}
