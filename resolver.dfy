/** The lazy url lookup of `fetch_selected_channel_url`: a scan of the playlist's lines for a
    channel's `#EXTINF:` line, memoised in a dictionary keyed by that line. The method that
    writes the dictionary is `Player.IPTVPlayer.FetchSelectedChannelUrl`. */
module Resolver {
  import opened Wrappers
  import opened Text
  import Playlist

  /** A line the scan stops at: it opens a record and is exactly the channel's info. */
  predicate Matches(line: string, info: string) {
    IsExtInf(line) && line == info
  }

  /** The scan over the lines not read yet; `found` says whether the channel's own line has
      been seen. The first non-matching line read after that is the answer. */
  function ScanFrom(lines: seq<string>, info: string, found: bool): (r: Option<string>)
    ensures r.Some? ==> r.value in lines && !Matches(r.value, info)
  {
    if lines == [] then None
    else if Matches(lines[0], info) then ScanFrom(lines[1..], info, true)
    else if found then Some(lines[0])
    else ScanFrom(lines[1..], info, false)
  }

  /** The url the scan finds for `info` in the stripped lines of the playlist, if any. */
  function FindAfter(lines: seq<string>, info: string): (r: Option<string>)
    ensures r.Some? ==> r.value in lines && !Matches(r.value, info)
  {
    ScanFrom(lines, info, false)
  }

  /** Line j is one the scan can answer with, given whether the line before position 0 matched. */
  predicate BoundaryFrom(lines: seq<string>, info: string, found: bool, j: int) {
    0 <= j < |lines| && (if j == 0 then found else Matches(lines[j - 1], info)) && !Matches(lines[j], info)
  }

  /** Line j directly follows a line equal to `info` and is not itself such a line. */
  predicate Boundary(lines: seq<string>, info: string, j: int) {
    BoundaryFrom(lines, info, false, j)
  }

  lemma {:induction false} ScanFromFirst(lines: seq<string>, info: string, found: bool, j: nat)
    requires BoundaryFrom(lines, info, found, j)
    requires forall j' :: 0 <= j' < j ==> !BoundaryFrom(lines, info, found, j')
    ensures ScanFrom(lines, info, found) == Some(lines[j])
  {
    if j > 0 {
      var rest := lines[1..];
      var found' := Matches(lines[0], info);
      assert !BoundaryFrom(lines, info, found, 0);
      assert BoundaryFrom(rest, info, found', j - 1);
      forall j' | 0 <= j' < j - 1 ensures !BoundaryFrom(rest, info, found', j') {
        assert !BoundaryFrom(lines, info, found, j' + 1);
      }
      ScanFromFirst(rest, info, found', j - 1);
    }
  }

  lemma {:induction false} ScanFromNone(lines: seq<string>, info: string, found: bool)
    requires forall j :: !BoundaryFrom(lines, info, found, j)
    ensures ScanFrom(lines, info, found) == None
  {
    if lines != [] {
      var rest := lines[1..];
      var found' := Matches(lines[0], info);
      assert !BoundaryFrom(lines, info, found, 0);
      forall j | 0 <= j ensures !BoundaryFrom(rest, info, found', j) {
        assert !BoundaryFrom(lines, info, found, j + 1);
      }
      ScanFromNone(rest, info, found');
    }
  }

  /** The answer is the line at the first place where a line equal to `info` is followed by one
      that is not: usually the line right after the channel's `#EXTINF:` line, whatever it holds. */
  lemma FindAfterFirstBoundary(lines: seq<string>, info: string, j: nat)
    requires Boundary(lines, info, j)
    requires forall j' :: 0 <= j' < j ==> !Boundary(lines, info, j')
    ensures FindAfter(lines, info) == Some(lines[j])
  {
    forall j' | 0 <= j' < j ensures !BoundaryFrom(lines, info, false, j') {
      assert !Boundary(lines, info, j');
    }
    ScanFromFirst(lines, info, false, j);
  }

  /** No such place: nothing is found. */
  lemma FindAfterNoBoundary(lines: seq<string>, info: string)
    requires forall j :: !Boundary(lines, info, j)
    ensures FindAfter(lines, info) == None
  {
    forall j ensures !BoundaryFrom(lines, info, false, j) {
      assert !Boundary(lines, info, j);
    }
    ScanFromNone(lines, info, false);
  }

  /** The common case: the line right after the first line equal to `info`. */
  lemma FindAfterNextLine(lines: seq<string>, info: string, k: nat)
    requires k + 1 < |lines| && Matches(lines[k], info) && lines[k + 1] != info
    requires forall i :: 0 <= i < k ==> !Matches(lines[i], info)
    ensures FindAfter(lines, info) == Some(lines[k + 1])
  {
    forall j' | 0 <= j' < k + 1 ensures !Boundary(lines, info, j') {
    }
    FindAfterFirstBoundary(lines, info, k + 1);
  }

  /** When the first line equal to `info` is the last line, nothing is found. */
  lemma FindAfterMatchIsLast(lines: seq<string>, info: string)
    requires lines != [] && Matches(lines[|lines| - 1], info)
    requires forall i :: 0 <= i < |lines| - 1 ==> !Matches(lines[i], info)
    ensures FindAfter(lines, info) == None
  {
    FindAfterNoBoundary(lines, info);
  }

  /** When no line equals `info` (or `info` does not open a record), nothing is found. */
  lemma FindAfterNoMatch(lines: seq<string>, info: string)
    requires forall i :: 0 <= i < |lines| ==> !Matches(lines[i], info)
    ensures FindAfter(lines, info) == None
  {
    FindAfterNoBoundary(lines, info);
  }

  /** The answer and the dictionary after one lookup. */
  datatype Resolution = Resolution(url: Option<string>, cache: map<string, string>)

  /** One call of `fetch_selected_channel_url` for a channel whose info is `info`, with the
      dictionary `cache` and the file named in the playlist entry read as `file`. A hit answers
      from the dictionary; a read failure answers with the error text; a miss scans the lines and
      records what it finds. */
  function Resolve(cache: map<string, string>, info: string, file: Result<seq<string>>): (r: Resolution)
    ensures info in cache ==> r == Resolution(Some(cache[info]), cache)
    ensures cache.Keys <= r.cache.Keys && r.cache.Keys <= cache.Keys + {info}
    ensures forall k :: k in cache ==> r.cache[k] == cache[k]
    ensures info in r.cache ==> r.url == Some(r.cache[info])
    ensures info !in cache && file.Success? ==>
              r.url == FindAfter(Playlist.StripAll(file.value), info)
              && (info in r.cache <==> r.url.Some?)
    ensures info !in cache && file.Failure? ==>
              r == Resolution(Some("Error: " + file.error), cache)
  {
    if info in cache then Resolution(Some(cache[info]), cache)
    else match file
      case Failure(e) => Resolution(Some("Error: " + e), cache)
      case Success(raw) =>
        match FindAfter(Playlist.StripAll(raw), info)
        case None => Resolution(None, cache)
        case Some(u) => Resolution(Some(u), cache[info := u])
  }

  /** Once a lookup has answered from the dictionary or from a read of the file, a second
      lookup of the same channel gives the same answer and changes nothing, whatever the file
      holds by then. */
  lemma ResolveTwice(cache: map<string, string>, info: string, first: Result<seq<string>>, second: Result<seq<string>>)
    requires info in cache || first.Success?
    requires Resolve(cache, info, first).url.Some?
    ensures var r := Resolve(cache, info, first);
            Resolve(r.cache, info, second) == r
  {
  }

  /** Every dictionary entry is what a scan of these lines would find. */
  predicate CacheSound(cache: map<string, string>, lines: seq<string>) {
    forall k :: k in cache ==> FindAfter(lines, k) == Some(cache[k])
  }

  /** While the file does not change, the dictionary is invisible: a lookup answers exactly what
      a fresh scan would, and the dictionary stays sound. */
  lemma ResolveTransparent(cache: map<string, string>, info: string, raw: seq<string>)
    requires CacheSound(cache, Playlist.StripAll(raw))
    ensures var r := Resolve(cache, info, Success(raw));
            r.url == FindAfter(Playlist.StripAll(raw), info) && CacheSound(r.cache, Playlist.StripAll(raw))
  {
  }
}
