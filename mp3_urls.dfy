/**
 * Cutting a download link down to its `.mp3` file: the link on an episode page carries
 * tracking parameters after the file name. Resolution cuts at the first ".mp3"; the older
 * discovery code cuts at the last one.
 */
module Mp3Urls {
  import opened Wrappers
  import opened Strings

  const MP3: string := ".mp3"

  /**
   * `try_truncate_url`: the prefix through the end of the first ".mp3", or nothing when
   * the URL has none. The cut always falls inside the string, so `get` never fails.
   */
  function TryTruncateUrl(url: string): (r: Option<string>)
    ensures r.Some? <==> Contains(url, MP3)
    ensures r.Some? ==> StartsWith(url, r.value) && EndsWith(r.value, MP3)
    ensures r.Some? ==> forall j: nat :: OccursAt(r.value, MP3, j) ==> j == |r.value| - |MP3|
  {
    match Find(url, MP3)
    case None => None
    case Some(idx) =>
      var t := url[..idx + |MP3|];
      assert forall j: nat :: OccursAt(t, MP3, j) ==> OccursAt(url, MP3, j);
      Some(t)
  }

  /** The download URL resolution stores: the truncated URL, or the link unchanged. */
  function ResolvedUrl(url: string): (r: string)
    ensures Contains(url, MP3) ==> StartsWith(url, r) && EndsWith(r, MP3)
    ensures Contains(url, MP3) ==> forall j: nat :: OccursAt(r, MP3, j) ==> j == |r| - |MP3|
    ensures Contains(url, MP3) ==> TryTruncateUrl(url) == Some(r)
    ensures !Contains(url, MP3) ==> r == url
  {
    match TryTruncateUrl(url)
    case Some(truncated) => truncated
    case None => url
  }

  /** Truncating a truncated URL changes nothing. */
  lemma ResolvedUrlIdempotent(url: string)
    ensures ResolvedUrl(ResolvedUrl(url)) == ResolvedUrl(url)
  {
    var t := TryTruncateUrl(url);
    if t.Some? {
      var r := t.value;
      assert OccursAt(r, MP3, |r| - |MP3|);
      assert Find(r, MP3).Some?;
      assert r[..|r|] == r;
    }
  }

  /**
   * The older cut (`rfind(".mp3").unwrap()`): the prefix through the end of the last
   * ".mp3". A URL without ".mp3" panics, hence the precondition.
   */
  function TruncateAtLastMp3(url: string): (r: string)
    requires Contains(url, MP3)
    ensures StartsWith(url, r) && EndsWith(r, MP3)
    ensures !Contains(url[|r|..], MP3)
  {
    var idx := RFind(url, MP3).value;
    var r := url[..idx + |MP3|];
    assert !Contains(url[|r|..], MP3) by {
      forall j: nat | j <= |url[|r|..]|
        ensures !OccursAt(url[|r|..], MP3, j)
      {
        if OccursAt(url[|r|..], MP3, j) {
          assert url[|r|..][j..j + |MP3|] == url[|r| + j..|r| + j + |MP3|];
          assert OccursAt(url, MP3, |r| + j);
        }
      }
    }
    r
  }

  /** With a single ".mp3" in the URL, the first and the last cut agree. */
  lemma FirstAndLastCutAgree(url: string, i: nat)
    requires OccursAt(url, MP3, i)
    requires forall j: nat :: OccursAt(url, MP3, j) ==> j == i
    ensures TruncateAtLastMp3(url) == ResolvedUrl(url)
  {
    assert Contains(url, MP3);
    assert Find(url, MP3) == Some(i);
    assert RFind(url, MP3) == Some(i);
  }
}
