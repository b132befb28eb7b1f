/** The extended-M3U parsing of `update_channel_list`, as pure specifications over the
    playlist's lines. The loop that computes them step by step is `Player.IPTVPlayer.UpdateChannelList`. */
module Playlist {
  import opened Text
  import opened Wrappers

  /** One channel record: its `#EXTINF:` line, which is also its identity, and its stream url. */
  datatype Channel = Channel(info: string, url: string)

  /** Every line stripped, as the parse loop strips each line before looking at it. */
  function StripAll(raw: seq<string>): seq<string> {
    seq(|raw|, i requires 0 <= i < |raw| => Trim(raw[i]))
  }

  /** The url of the record whose `#EXTINF:` line comes just before `rest`: each line up to the
      next `#EXTINF:` line overwrites it, so it is the last of them, or "" when there is none. */
  function UrlOf(rest: seq<string>): (url: string)
    ensures !IsExtInf(url)
    ensures url == "" || url in rest
  {
    if rest == [] || IsExtInf(rest[0]) then ""
    else if |rest| == 1 || IsExtInf(rest[1]) then rest[0]
    else UrlOf(rest[1..])
  }

  /** The channel records of a playlist whose lines are already stripped, in file order. */
  function Parse(lines: seq<string>): (channels: seq<Channel>)
    ensures |channels| <= |lines|
  {
    if lines == [] then []
    else if IsExtInf(lines[0]) then [Channel(lines[0], UrlOf(lines[1..]))] + Parse(lines[1..])
    else Parse(lines[1..])
  }

  /** The channel records `update_channel_list` builds from the lines `readlines` returns. */
  function ParsePlaylist(raw: seq<string>): (channels: seq<Channel>)
    ensures |channels| <= |raw|
  {
    Parse(StripAll(raw))
  }

  /** The text the channel list shows for a record: its `info` with every `#EXTINF:` removed, stripped. */
  function DisplayName(info: string): (name: string)
    ensures |name| <= |info|
  {
    Trim(RemoveAll(info, ExtInf))
  }

  /** The positions of the lines that open a record, in increasing order. */
  function ExtInfPositions(lines: seq<string>): (ps: seq<nat>)
    ensures forall j :: 0 <= j < |ps| ==> ps[j] < |lines| && IsExtInf(lines[ps[j]])
    ensures forall j, j' :: 0 <= j < j' < |ps| ==> ps[j] < ps[j']
  {
    if lines == [] then []
    else
      var tail := ExtInfPositions(lines[1..]);
      var shifted := seq(|tail|, j requires 0 <= j < |tail| => tail[j] + 1);
      assert forall j :: 0 <= j < |shifted| ==> IsExtInf(lines[shifted[j]]) by {
        forall j | 0 <= j < |shifted| ensures IsExtInf(lines[shifted[j]]) {
          assert lines[shifted[j]] == lines[1..][tail[j]];
        }
      }
      (if IsExtInf(lines[0]) then [0] else []) + shifted
  }

  /** Every line that opens a record has its position listed; m is where. */
  lemma {:induction false} ExtInfPositionsComplete(lines: seq<string>, k: nat) returns (m: nat)
    requires k < |lines| && IsExtInf(lines[k])
    ensures m < |ExtInfPositions(lines)| && ExtInfPositions(lines)[m] == k
  {
    var d := if IsExtInf(lines[0]) then 1 else 0;
    if k == 0 {
      m := 0;
    } else {
      assert lines[1..][k - 1] == lines[k];
      var j := ExtInfPositionsComplete(lines[1..], k - 1);
      m := j + d;
    }
  }

  /** The url is the last line before the next `#EXTINF:` line (or the end), whatever that line holds. */
  lemma {:induction false} UrlOfIsLastOfRun(rest: seq<string>, e: nat)
    requires e <= |rest|
    requires forall k :: 0 <= k < e ==> !IsExtInf(rest[k])
    requires e == |rest| || IsExtInf(rest[e])
    ensures UrlOf(rest) == if e == 0 then "" else rest[e - 1]
  {
    if e > 1 {
      UrlOfIsLastOfRun(rest[1..], e - 1);
    }
  }

  /** One record per line that opens one. */
  lemma {:induction false} ParseLength(lines: seq<string>)
    ensures |Parse(lines)| == |ExtInfPositions(lines)|
  {
    if lines != [] {
      ParseLength(lines[1..]);
    }
  }

  /** Record j comes from the j-th line that opens a record, in file order: its info is that
      line and its url is computed from the lines after it. */
  lemma {:induction false} ParseAt(lines: seq<string>, j: nat)
    requires j < |ExtInfPositions(lines)|
    ensures j < |Parse(lines)|
    ensures var p := ExtInfPositions(lines)[j];
            Parse(lines)[j] == Channel(lines[p], UrlOf(lines[p + 1..]))
  {
    ParseLength(lines);
    var rest := lines[1..];
    var d := if IsExtInf(lines[0]) then 1 else 0;
    if j >= d {
      ParseAt(rest, j - d);
      ParseLength(rest);
      var p := ExtInfPositions(rest)[j - d];
      assert ExtInfPositions(lines)[j] == p + 1;
      assert Parse(lines)[j] == Parse(rest)[j - d];
      assert rest[p + 1..] == lines[p + 2..];
    }
  }

  /** No line strictly between two consecutive record openers opens a record. */
  lemma NoExtInfBetween(lines: seq<string>, j: nat, k: nat)
    requires j < |ExtInfPositions(lines)|
    requires ExtInfPositions(lines)[j] < k < |lines|
    requires j + 1 < |ExtInfPositions(lines)| ==> k < ExtInfPositions(lines)[j + 1]
    ensures !IsExtInf(lines[k])
  {
    if IsExtInf(lines[k]) {
      var m := ExtInfPositionsComplete(lines, k);
      assert false;
    }
  }

  /** The end of record j's lines: the position of the next record opener, or the end. */
  function RecordEnd(lines: seq<string>, j: nat): (e: nat)
    requires j < |ExtInfPositions(lines)|
    ensures ExtInfPositions(lines)[j] < e <= |lines|
  {
    var ps := ExtInfPositions(lines);
    if j + 1 < |ps| then ps[j + 1] else |lines|
  }

  /** Record j's url: the last line strictly between its `#EXTINF:` line and the next one (or
      the end of the playlist), blank lines and comments included; "" when there is no such line. */
  lemma ParseUrl(lines: seq<string>, j: nat)
    requires j < |ExtInfPositions(lines)|
    ensures j < |Parse(lines)|
    ensures Parse(lines)[j].url == if RecordEnd(lines, j) == ExtInfPositions(lines)[j] + 1 then ""
                                   else lines[RecordEnd(lines, j) - 1]
  {
    var p := ExtInfPositions(lines)[j];
    var e := RecordEnd(lines, j);
    ParseAt(lines, j);
    var rest := lines[p + 1..];
    RecordRun(lines, j);
    UrlOfIsLastOfRun(rest, e - p - 1);
    assert e > p + 1 ==> rest[e - p - 2] == lines[e - 1];
  }

  /** The lines after record j's opener, up to its end, open no record; the line at its end,
      if any, does. */
  lemma RecordRun(lines: seq<string>, j: nat)
    requires j < |ExtInfPositions(lines)|
    ensures var p := ExtInfPositions(lines)[j];
            var e := RecordEnd(lines, j);
            var rest := lines[p + 1..];
            (forall k :: 0 <= k < e - p - 1 ==> !IsExtInf(rest[k])) &&
            (e - p - 1 == |rest| || IsExtInf(rest[e - p - 1]))
  {
    var p := ExtInfPositions(lines)[j];
    var e := RecordEnd(lines, j);
    var rest := lines[p + 1..];
    forall k | 0 <= k < e - p - 1 ensures !IsExtInf(rest[k]) {
      assert rest[k] == lines[p + 1 + k];
      NoExtInfBetween(lines, j, p + 1 + k);
    }
    if e < |lines| {
      assert rest[e - p - 1] == lines[e];
    }
  }

  lemma {:induction false} UrlOfSplit(a: seq<string>, b: seq<string>)
    requires b == [] || IsExtInf(b[0])
    ensures UrlOf(a + b) == UrlOf(a)
  {
    if a != [] {
      assert (a + b)[1..] == a[1..] + b;
      UrlOfSplit(a[1..], b);
    }
  }

  /** Cutting a playlist just before an `#EXTINF:` line cuts its record list in the same place. */
  lemma {:induction false} ParseSplit(a: seq<string>, b: seq<string>)
    requires b == [] || IsExtInf(b[0])
    ensures Parse(a + b) == Parse(a) + Parse(b)
  {
    if a == [] {
      assert a + b == b;
    } else {
      assert (a + b)[1..] == a[1..] + b;
      ParseSplit(a[1..], b);
      UrlOfSplit(a[1..], b);
    }
  }

  /** Lines before the first `#EXTINF:` line never affect the records. */
  lemma {:induction false} ParseIgnoresPreamble(pre: seq<string>, lines: seq<string>)
    requires forall k :: 0 <= k < |pre| ==> !IsExtInf(pre[k])
    ensures Parse(pre + lines) == Parse(lines)
  {
    if pre == [] {
      assert pre + lines == lines;
    } else {
      assert (pre + lines)[1..] == pre[1..] + lines;
      ParseIgnoresPreamble(pre[1..], lines);
    }
  }

  /** A trailing `#EXTINF:` line with nothing after it still gives a final record, with url "". */
  lemma ParseTrailingExtInf(lines: seq<string>, last: string)
    requires IsExtInf(last)
    ensures Parse(lines + [last]) == Parse(lines) + [Channel(last, "")]
  {
    ParseSplit(lines, [last]);
  }

  /** The playlist text a list of records stands for: each record's info line, then its url line. */
  function Serialize(channels: seq<Channel>): seq<string> {
    if channels == [] then []
    else [channels[0].info, channels[0].url] + Serialize(channels[1..])
  }

  /** Records whose info lines open a record and whose urls do not are read back unchanged. */
  lemma {:induction false} ParseSerialize(channels: seq<Channel>)
    requires forall c :: c in channels ==> IsExtInf(c.info) && !IsExtInf(c.url)
    ensures Parse(Serialize(channels)) == channels
  {
    if channels != [] {
      var c, rest := channels[0], Serialize(channels[1..]);
      assert Serialize(channels)[1..] == [c.url] + rest;
      assert ([c.url] + rest)[1..] == rest;
      ParseSerialize(channels[1..]);
      assert channels == [c] + channels[1..];
    }
  }

  lemma {:induction false} StripAllSerialize(channels: seq<Channel>)
    requires forall c :: c in channels ==> Trim(c.info) == c.info && Trim(c.url) == c.url
    ensures StripAll(Serialize(channels)) == Serialize(channels)
  {
    if channels != [] {
      var c := channels[0];
      var rest := Serialize(channels[1..]);
      StripAllSerialize(channels[1..]);
      StripAllAppend([c.info, c.url], rest);
      assert StripAll([c.info, c.url]) == [Trim(c.info), Trim(c.url)];
    }
  }

  lemma StripAllAppend(a: seq<string>, b: seq<string>)
    ensures StripAll(a + b) == StripAll(a) + StripAll(b)
  {
  }

  /** Round trip on structure: a playlist written from stripped records parses back to them. */
  lemma ParsePlaylistSerialize(channels: seq<Channel>)
    requires forall c :: c in channels ==>
      IsExtInf(c.info) && !IsExtInf(c.url) && Trim(c.info) == c.info && Trim(c.url) == c.url
    ensures ParsePlaylist(Serialize(channels)) == channels
  {
    StripAllSerialize(channels);
    ParseSerialize(channels);
  }

  /** Every record the parse gives opens with `#EXTINF:` and has a url that does not, and both
      come from the lines (or the url is ""). */
  lemma {:induction false} ParseWellFormed(lines: seq<string>)
    ensures forall c :: c in Parse(lines) ==> IsExtInf(c.info) && !IsExtInf(c.url)
    ensures forall c :: c in Parse(lines) ==> c.info in lines && (c.url == "" || c.url in lines)
  {
    if lines != [] {
      ParseWellFormed(lines[1..]);
      forall c | c in Parse(lines[1..]) ensures c.info in lines && (c.url == "" || c.url in lines) {
        assert c.info in lines[1..];
      }
      assert UrlOf(lines[1..]) == "" || UrlOf(lines[1..]) in lines;
    }
  }

  /** Round trip from lines: parsing, writing the records back as info and url lines, and parsing
      again gives the same records. */
  lemma ParseRoundTrip(lines: seq<string>)
    ensures Parse(Serialize(Parse(lines))) == Parse(lines)
  {
    ParseWellFormed(lines);
    ParseSerialize(Parse(lines));
  }

  /** The same round trip for a playlist file: the records of its stripped lines are themselves
      stripped, so writing them out and reading them again gives them back. */
  lemma ParsePlaylistRoundTrip(raw: seq<string>)
    ensures ParsePlaylist(Serialize(ParsePlaylist(raw))) == ParsePlaylist(raw)
  {
    var lines := StripAll(raw);
    var cs := Parse(lines);
    ParseWellFormed(lines);
    forall c | c in cs
      ensures IsExtInf(c.info) && !IsExtInf(c.url) && Trim(c.info) == c.info && Trim(c.url) == c.url
    {
      var i :| 0 <= i < |lines| && lines[i] == c.info;
      TrimIdempotent(raw[i]);
      if c.url != "" {
        var k :| 0 <= k < |lines| && lines[k] == c.url;
        TrimIdempotent(raw[k]);
      } else {
        assert Trim("") == "";
      }
    }
    ParsePlaylistSerialize(cs);
  }

  /** An example: a url line after the first record, none after the second. */
  lemma ParseExample()
    ensures Parse(["#EXTINF:-1,Channel A", "http://a.test/stream", "#EXTINF:-1,Channel B"])
         == [Channel("#EXTINF:-1,Channel A", "http://a.test/stream"), Channel("#EXTINF:-1,Channel B", "")]
  {
    var lines := ["#EXTINF:-1,Channel A", "http://a.test/stream", "#EXTINF:-1,Channel B"];
    assert IsExtInf(lines[0]) && !IsExtInf(lines[1]) && IsExtInf(lines[2]);
    assert lines[1..][1..] == [lines[2]];
    assert lines[1..][1..][1..] == [];
  }

  /** The name shown for a record: the text after `#EXTINF:`, stripped, when it holds no
      further `#EXTINF:`. */
  lemma DisplayNameOfRecord(info: string)
    requires IsExtInf(info)
    requires forall i :: !OccursAt(info[|ExtInf|..], ExtInf, i)
    ensures DisplayName(info) == Trim(info[|ExtInf|..])
  {
    IsExtInfStartsWith(info);
    assert RemoveAll(info, ExtInf) == RemoveAll(info[|ExtInf|..], ExtInf);
  }

  /** The rows the channel list shows, one per record and in the same order. */
  function DisplayList(channels: seq<Channel>): (rows: seq<string>)
    ensures |rows| == |channels|
    ensures forall k :: 0 <= k < |rows| ==> rows[k] == DisplayName(channels[k].info)
  {
    seq(|channels|, k requires 0 <= k < |channels| => DisplayName(channels[k].info))
  }

  /** What the parse loop still appends, given its pending record and the lines it has not read. */
  function Resume(pending: Option<Channel>, rest: seq<string>): seq<Channel> {
    match pending
    case None => Parse(rest)
    case Some(c) => [c.(url := if rest == [] || IsExtInf(rest[0]) then c.url else UrlOf(rest))] + Parse(rest)
  }

  /** One step of the parse loop: reading `line` with record `pending` open. An `#EXTINF:` line
      closes the pending record and opens a new one with url ""; any other line becomes the
      pending record's url, and is dropped when no record is open. What is appended so far plus
      what is still to come stays the same. */
  lemma ResumeStep(done: seq<Channel>, pending: Option<Channel>, line: string, rest: seq<string>,
                   done': seq<Channel>, pending': Option<Channel>)
    requires done' == if IsExtInf(line) && pending.Some? then done + [pending.value] else done
    requires pending' == if IsExtInf(line) then Some(Channel(line, ""))
                         else if pending.Some? then Some(pending.value.(url := line)) else None
    ensures done' + Resume(pending', rest) == done + Resume(pending, [line] + rest)
  {
    var lines := [line] + rest;
    assert lines[1..] == rest;
    if IsExtInf(line) && pending.Some? {
      assert done' + Resume(pending', rest) == done + ([pending.value] + Resume(pending', rest));
    }
  }
}
