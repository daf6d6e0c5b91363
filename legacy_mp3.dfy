/**
 * The mp3 side of the older `fconx-scraper` crate (`RWMp3`): the file name an episode is
 * saved under, the listing of a series directory, and the fingerprints of the files in it.
 * The fingerprint is the prefix SHA-1 of `Hasher`.
 */
module LegacyMp3 {
  import opened Strings
  import opened WorkerPool
  import opened Hasher
  import opened LegacyEpisodes

  /** The characters a FAT file name may not contain. */
  const RESERVED_FAT_FILENAME_CHARS: seq<char> := ['"', '*', '/', ':', '<', '>', '?', '\\', '|']

  const MP3_EXT: string := ".mp3"

  /** The title with every reserved character removed. */
  function FilterReserved(title: string): (r: string)
    ensures |r| <= |title|
    ensures forall i :: 0 <= i < |r| ==> r[i] !in RESERVED_FAT_FILENAME_CHARS
    ensures forall c :: c in r <==> c in title && c !in RESERVED_FAT_FILENAME_CHARS
  {
    if |title| == 0 then []
    else if title[0] in RESERVED_FAT_FILENAME_CHARS then FilterReserved(title[1..])
    else [title[0]] + FilterReserved(title[1..])
  }

  /** Filtering works piece by piece: what is kept of a concatenation is what is kept of each part, in order. */
  lemma {:induction false} FilterReservedConcat(a: string, b: string)
    ensures FilterReserved(a + b) == FilterReserved(a) + FilterReserved(b)
  {
    if |a| > 0 {
      assert (a + b)[1..] == a[1..] + b;
      var kept := if a[0] in RESERVED_FAT_FILENAME_CHARS then [] else [a[0]];
      FilterReservedConcat(a[1..], b);
      AppendAssoc(kept, FilterReserved(a[1..]), FilterReserved(b));
    } else {
      assert a + b == b;
    }
  }

  /** A title with no reserved character is kept whole, so sanitising twice is sanitising once. */
  lemma {:induction false} FilterReservedKeepsClean(title: string)
    requires forall i :: 0 <= i < |title| ==> title[i] !in RESERVED_FAT_FILENAME_CHARS
    ensures FilterReserved(title) == title
  {
    if |title| > 0 {
      FilterReservedKeepsClean(title[1..]);
      assert [title[0]] + title[1..] == title;
    }
  }

  lemma FilterReservedIdempotent(title: string)
    ensures FilterReserved(FilterReserved(title)) == FilterReserved(title)
  {
    FilterReservedKeepsClean(FilterReserved(title));
  }

  /** `get_filename`: "{number} - {title}.mp3" with the title sanitised and the number copied verbatim. */
  function GetFilename(e: Episode): (r: string)
    ensures StartsWith(r, e.number + " - ") && EndsWith(r, MP3_EXT)
    ensures |r| == |e.number| + 3 + |FilterReserved(e.title)| + |MP3_EXT|
    ensures r[|e.number| + 3..|r| - |MP3_EXT|] == FilterReserved(e.title)
  {
    var r := e.number + " - " + FilterReserved(e.title) + MP3_EXT;
    assert r[..|e.number| + 3] == e.number + " - ";
    assert r[|e.number| + 3..|r| - |MP3_EXT|] == FilterReserved(e.title);
    r
  }

  /** Between " - " and ".mp3" a file name holds no reserved character. */
  lemma GetFilenameTitleIsSafe(e: Episode)
    ensures var r := GetFilename(e);
      forall i :: |e.number| + 3 <= i < |r| - |MP3_EXT| ==> r[i] !in RESERVED_FAT_FILENAME_CHARS
  {
    var r := GetFilename(e);
    var t := FilterReserved(e.title);
    forall i | |e.number| + 3 <= i < |r| - |MP3_EXT|
      ensures r[i] !in RESERVED_FAT_FILENAME_CHARS
    {
      assert r[i] == r[|e.number| + 3..|r| - |MP3_EXT|][i - |e.number| - 3];
    }
  }

  /** One entry of a directory listing. */
  datatype DirEntry = DirEntry(name: string, isFile: bool, path: string)

  /** The listing filter: a regular file whose name ends in ".mp3". */
  predicate IsMp3File(d: DirEntry) {
    d.isFile && EndsWith(d.name, MP3_EXT)
  }

  /** The paths `read_dir` keeps, in listing order. */
  function Mp3Paths(entries: seq<DirEntry>): (r: seq<string>)
    ensures |r| <= |entries|
    ensures forall p :: p in r <==> exists d :: d in entries && IsMp3File(d) && d.path == p
  {
    if |entries| == 0 then []
    else
      var init := entries[..|entries| - 1];
      var last := entries[|entries| - 1];
      assert forall d :: d in entries <==> d in init || d == last;
      Mp3Paths(init) + (if IsMp3File(last) then [last.path] else [])
  }

  /** `read_dir`: walks the listing and pushes the path of every mp3 file. */
  method ReadDir(entries: seq<DirEntry>) returns (out: seq<string>)
    ensures out == Mp3Paths(entries)
  {
    out := [];
    for i := 0 to |entries|
      invariant out == Mp3Paths(entries[..i])
    {
      assert entries[..i + 1][..i] == entries[..i];
      var entry := entries[i];
      if !(entry.isFile && EndsWith(entry.name, MP3_EXT)) {
        continue;
      }
      out := out + [entry.path];
    }
    assert entries[..|entries|] == entries;
  }

  /** The fingerprint of every listed file, in listing order. */
  function Fingerprints(digest: seq<Byte> -> string, contents: string -> seq<Byte>, paths: seq<string>): (r: seq<string>)
    ensures |r| == |paths|
    ensures forall i :: 0 <= i < |paths| ==> r[i] == Fingerprint(digest, contents(paths[i]))
  {
    if |paths| == 0 then [] else [Fingerprint(digest, contents(paths[0]))] + Fingerprints(digest, contents, paths[1..])
  }

  /** Popping path `k` adds its fingerprint to those of the paths above it. */
  lemma FingerprintsPop(digest: seq<Byte> -> string, contents: string -> seq<Byte>, paths: seq<string>, k: nat)
    requires k < |paths|
    ensures multiset(Fingerprints(digest, contents, paths[k..])) ==
      multiset(Fingerprints(digest, contents, paths[k + 1..])) + multiset{Fingerprint(digest, contents(paths[k]))}
  {
    assert paths[k..][1..] == paths[k + 1..];
  }

  /** After `n` pops, the collected hashes are, in some order, those of the last `n` paths. */
  ghost predicate Collected(digest: seq<Byte> -> string, contents: string -> seq<Byte>, paths: seq<string>,
                            n: nat, out: seq<string>)
    requires n <= |paths|
  {
    multiset(out) == multiset(Fingerprints(digest, contents, paths[|paths| - n..]))
  }

  /** Pushing the hash of the next path popped extends the collection by one pop. */
  lemma CollectOneMore(digest: seq<Byte> -> string, contents: string -> seq<Byte>, paths: seq<string>,
                       n: nat, out: seq<string>, sha1: string)
    requires n < |paths| && Collected(digest, contents, paths, n, out)
    requires sha1 == Fingerprint(digest, contents(paths[|paths| - n - 1]))
    ensures Collected(digest, contents, paths, n + 1, out + [sha1])
  {
    FingerprintsPop(digest, contents, paths, |paths| - n - 1);
    assert multiset(out + [sha1]) == multiset(out) + multiset{sha1};
  }

  /**
   * `read_mp3s_and_to_sha1`: list the directory, then `min(workers, count)` workers pop paths
   * and push the fingerprint of each file. The result holds one fingerprint per listed
   * file, in some order; with no worker it is empty. `contents` reads a file.
   */
  method ReadMp3sAndToSha1(entries: seq<DirEntry>, workers: nat, digest: seq<Byte> -> string,
                           contents: string -> seq<Byte>)
    returns (spawned: nat, out: seq<string>)
    ensures spawned == Min(workers, |Mp3Paths(entries)|)
    ensures spawned > 0 ==> multiset(out) == multiset(Fingerprints(digest, contents, Mp3Paths(entries)))
    ensures spawned == 0 ==> out == []
  {
    var filePaths := ReadDir(entries);
    ghost var all := filePaths;
    spawned := Min(workers, |filePaths|);
    out := [];
    if spawned == 0 {
      return;
    }
    var hasher := new Sha1Hasher(digest);
    while |filePaths| > 0
      invariant hasher.digest == digest && hasher.pending == []
      invariant filePaths == all[..|filePaths|]
      invariant Collected(digest, contents, all, |all| - |filePaths|, out)
      decreases |filePaths|
    {
      var k := |filePaths| - 1;
      var filePath := filePaths[k];
      filePaths := filePaths[..k];
      var buf := contents(filePath);
      var sha1 := hasher.CreateSha1(buf);
      CollectOneMore(digest, contents, all, |all| - k - 1, out, sha1);
      out := out + [sha1];
    }
    assert all[0..] == all;
  }
}
