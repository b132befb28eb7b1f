/** The state of the `IPTVPlayer` window that the playlist, lookup and navigation logic reads
    and writes: the parsed channel records, the rows of the channel list, the current index and
    the url dictionary. Widgets and the media engine are not modelled; a call of the playback
    engine is reported as the url handed to it. */
module Player {
  import opened Wrappers
  import opened Text
  import opened Playlist
  import Resolver
  import Navigator

  /** What `play_selected_channel` does with the current selection. */
  datatype PlayAction =
    | Idle                      // nothing is selected
    | IndexFault                // the selected row has no record (the error row): IndexError
    | PlayNow(url: string)      // the record already holds a url: play it
    | FetchThenPlay(index: nat) // the record's url is empty: look it up, store it, play it

  /** The decision of `play_selected_channel` for the selected row, if any. */
  function PlayChoice(channels: seq<Channel>, selection: Option<nat>): (a: PlayAction)
    ensures a.Idle? <==> selection.None?
    ensures a.IndexFault? <==> selection.Some? && selection.value >= |channels|
    ensures a.PlayNow? <==> selection.Some? && selection.value < |channels| && channels[selection.value].url != ""
    ensures a.PlayNow? ==> a.url == channels[selection.value].url && a.url != ""
    ensures a.FetchThenPlay? ==> a.index == selection.value && channels[a.index].url == ""
  {
    match selection
    case None => Idle
    case Some(i) =>
      if i >= |channels| then IndexFault
      else if channels[i].url == "" then FetchThenPlay(i)
      else PlayNow(channels[i].url)
  }

  /** The url stored back into a record after a lookup. Python stores None when nothing is
      found; like "", it is falsy, so the next play decision is the same. */
  function StoredUrl(found: Option<string>): (u: string)
    ensures u == "" <==> found.None? || found.value == ""
    ensures found.Some? ==> u == found.value
  {
    match found
    case Some(v) => v
    case None => ""
  }

  /** A lookup that fails to read the file stores the error text as the channel's url, so the
      next play of that channel hands the error text straight to the playback engine. */
  lemma ErrorTextIsPlayedLater(channels: seq<Channel>, i: nat, cache: map<string, string>, error: string)
    requires i < |channels| && channels[i].info !in cache
    ensures var r := Resolver.Resolve(cache, channels[i].info, Failure(error));
            PlayChoice(channels[i := channels[i].(url := StoredUrl(r.url))], Some(i)) == PlayNow("Error: " + error)
  {
  }

  class IPTVPlayer {
    /** The parsed records (`self.channels`). */
    var channels: seq<Channel>
    /** The rows of the channel list box. */
    var display: seq<string>
    /** `self.current_channel_index`. */
    var index: int
    /** `self.channel_url_cache`: url by `#EXTINF:` line. */
    var cache: map<string, string>

    constructor ()
      ensures channels == [] && display == [] && index == 0 && cache == map[]
    {
      channels := [];
      display := [];
      index := 0;
      cache := map[];
    }

    /** `update_channel_list`: parse the playlist file's lines into records, then fill the channel
        list with their names. A file that cannot be read leaves no records and one error row.
        The index and the url dictionary are left as they were. */
    method UpdateChannelList(file: Result<seq<string>>)
      modifies this`channels, this`display
      ensures file.Success? ==> channels == ParsePlaylist(file.value) && display == DisplayList(channels)
      ensures file.Failure? ==> channels == [] && display == ["Error: " + file.error]
    {
      channels := [];
      if file.Failure? {
        display := ["Error: " + file.error];
        return;
      }
      var raw := file.value;
      ghost var lines := StripAll(raw);
      var pending: Option<Channel> := None;
      var i := 0;
      while i < |raw|
        invariant 0 <= i <= |raw|
        invariant channels + Resume(pending, lines[i..]) == Parse(lines)
      {
        var line := Trim(raw[i]);
        ghost var rest := lines[i + 1..];
        assert lines[i..] == [line] + rest;
        ghost var done, open := channels, pending;
        if IsExtInf(line) {
          if pending.Some? {
            channels := channels + [pending.value];
          }
          pending := Some(Channel(line, ""));
        } else if pending.Some? {
          pending := Some(pending.value.(url := line));
        }
        ResumeStep(done, open, line, rest, channels, pending);
        i := i + 1;
      }
      assert lines[i..] == [];
      if pending.Some? {
        channels := channels + [pending.value];
      }
      assert channels == ParsePlaylist(raw);
      FillChannelList();
    }

    /** The end of `update_channel_list`: clear the channel list, then add one row per record. */
    method FillChannelList()
      modifies this`display
      ensures display == DisplayList(channels)
    {
      display := [];
      var k := 0;
      while k < |channels|
        invariant 0 <= k <= |channels|
        invariant display == DisplayList(channels[..k])
      {
        display := display + [DisplayName(channels[k].info)];
        k := k + 1;
      }
      assert channels[..k] == channels;
    }

    /** `fetch_selected_channel_url`: answer from the dictionary, or scan the lines of the file
        named in the playlist entry for the channel's `#EXTINF:` line and record the line after it. */
    method FetchSelectedChannelUrl(selected: Channel, file: Result<seq<string>>) returns (url: Option<string>)
      modifies this`cache
      ensures Resolver.Resolution(url, cache) == Resolver.Resolve(old(cache), selected.info, file)
    {
      var info := selected.info;
      if info in cache {
        return Some(cache[info]);
      }
      if file.Failure? {
        return Some("Error: " + file.error);
      }
      var raw := file.value;
      ghost var lines := StripAll(raw);
      var found := false;
      var i := 0;
      while i < |raw|
        invariant 0 <= i <= |raw|
        invariant cache == old(cache)
        invariant Resolver.ScanFrom(lines[i..], info, found) == Resolver.FindAfter(lines, info)
      {
        var line := Trim(raw[i]);
        assert lines[i..] == [line] + lines[i + 1..];
        if IsExtInf(line) && line == info {
          found := true;
        } else if found {
          cache := cache[info := line];
          return Some(line);
        }
        i := i + 1;
      }
      return None;
    }

    /** `play_selected_channel` followed, when the url is empty, by `fetch_and_play_channel`
        (run on a worker thread in Python, here in sequence). Returns the url handed to the
        playback engine, if it is called. */
    method PlaySelectedChannel(selection: Option<nat>, file: Result<seq<string>>) returns (played: Option<Option<string>>)
      modifies this`channels, this`cache
      ensures var a := PlayChoice(old(channels), selection);
              match a
              case Idle => played.None? && channels == old(channels) && cache == old(cache)
              case IndexFault => played.None? && channels == old(channels) && cache == old(cache)
              case PlayNow(u) => played == Some(Some(u)) && channels == old(channels) && cache == old(cache)
              case FetchThenPlay(i) =>
                var r := Resolver.Resolve(old(cache), old(channels)[i].info, file);
                played == Some(r.url) && cache == r.cache
                && channels == old(channels)[i := old(channels)[i].(url := StoredUrl(r.url))]
    {
      var action := PlayChoice(channels, selection);
      match action
      case Idle => played := None;
      case IndexFault => played := None;
      case PlayNow(u) => played := Some(Some(u));
      case FetchThenPlay(i) =>
        var u := FetchAndPlayChannel(i, file);
        played := Some(u);
    }

    /** `fetch_and_play_channel`: look the url up, store it in the record, play it. */
    method FetchAndPlayChannel(i: nat, file: Result<seq<string>>) returns (played: Option<string>)
      requires i < |channels|
      modifies this`channels, this`cache
      ensures var r := Resolver.Resolve(old(cache), old(channels)[i].info, file);
              played == r.url && cache == r.cache
              && channels == old(channels)[i := old(channels)[i].(url := StoredUrl(r.url))]
    {
      var selected := channels[i];
      var url := FetchSelectedChannelUrl(selected, file);
      channels := channels[i := selected.(url := StoredUrl(url))];
      played := url;
    }

    /** `next_channel`, up to the selection and play of `update_current_channel`. */
    method NextChannel()
      requires index >= -1
      modifies this`index
      ensures index >= -1 && index == Navigator.NextIndex(old(index), |channels|)
    {
      index := index + 1;
      if index >= |channels| {
        index := 0;
      }
    }

    /** `prev_channel`, up to the selection and play of `update_current_channel`. */
    method PrevChannel()
      requires index >= -1
      modifies this`index
      ensures index >= -1 && index == Navigator.PrevIndex(old(index), |channels|)
    {
      index := index - 1;
      if index < 0 {
        index := |channels| - 1;
      }
    }
  }
}
