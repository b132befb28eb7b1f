# NG'ANJO TV playlist core, in Dafny

`iptv30.0.py` is a Tkinter window that plays IPTV channels through VLC. Inside the
`IPTVPlayer` class, three pieces of sequential logic decide what the window shows and plays:

- **Extended-M3U parsing** (`update_channel_list`). Each line is stripped. A line starting with
  `#EXTINF:` closes the pending channel record and opens a new one with url `""`. Any other
  line seen while a record is open becomes that record's url, overwriting the previous one;
  blank lines and `#` comments count too. The last record is closed at the end of the file.
  Each record is then shown as its `info` with every `#EXTINF:` removed and the rest stripped.
- **Lazy url lookup with a dictionary** (`fetch_selected_channel_url`). A hit in
  `channel_url_cache` answers at once. On a miss, the file is scanned again for a line that
  starts with `#EXTINF:` and equals the channel's `info`. The first line after it that is not
  such a line is returned and recorded. If there is none, nothing (`None`) is returned and
  nothing is recorded. A read error returns the text `"Error: ..."` and records nothing.
- **Navigation** (`next_channel`, `prev_channel`). One integer field goes one step forward or
  back and wraps against the number of records.
- **The play decision** (`play_selected_channel`). A record with a non-empty url is played
  directly. Otherwise its url is looked up, stored back into the record and played.

Modules:

- `Text` models Python's `str.strip()`, `startswith("#EXTINF:")` and `replace("#EXTINF:", "")`.
- `Playlist` holds the pure specification `Parse` of the parse loop and its properties.
- `Resolver` holds the scan `FindAfter`, the one-call specification `Resolve` of the lookup
  with its dictionary, and their properties.
- `Navigator` holds the index arithmetic.
- `Player.IPTVPlayer` is a class with the fields the Python methods update: `channels`,
  `display` (the rows of the list box), `index` and `cache`. Its methods run the same loops
  as the Python code and are proved against those specifications.

A file read is a parameter: `Success(lines)`, the lines `readlines()` returns, or
`Failure(msg)`, the text of the exception raised.

Behaviour of the code worth noting:

- Blank and comment lines do become urls.
- A failed lookup returns `None`, not an error.
- A read error's text is stored as the record's url. The next play of that channel hands the
  text straight to the player (`Player.ErrorTextIsPlayedLater`).
- `prev_channel` on an empty list, from index 0 or -1, gives -1; from a stale larger index
  it only steps down by one (`Navigator.PrevFromStaleIndex`).
- The index and the url dictionary are kept when a new playlist is loaded. An entry recorded
  for one playlist therefore answers for a record with the same `info` in the next one
  (`Resolver.ResolveTwice` holds whatever the second file holds).

## Model

| member | source | states |
|---|---|---|
| `Text.TrimLeft` | iptv30.0.py:66 | `str.lstrip()` (its properties are the lemmas below); never lengthens the line |
| `Text.TrimRight` | iptv30.0.py:66 | `str.rstrip()`; never lengthens the line |
| `Text.Trim` | iptv30.0.py:66 | `str.strip()` as rstrip after lstrip; never lengthens the line (fully pinned down by `TrimInfix`, `TrimStripped` and `TrimPadded`) |
| `Text.TrimLeftSuffix` | iptv30.0.py:66 | leading strip keeps a suffix of the line, removes only white space, and leaves none in front |
| `Text.TrimRightPrefix` | iptv30.0.py:66 | trailing strip keeps a prefix of the line, removes only white space, and leaves none at the end |
| `Text.TrimStripped` | iptv30.0.py:66 | a stripped line has no white space at either end |
| `Text.TrimInfix` | iptv30.0.py:66 | a stripped line is an infix of the original, with only white space around it |
| `Text.TrimPadded` | iptv30.0.py:66 | stripping any white-space padding off a stripped string gives that string back (strip is determined by this) |
| `Text.TrimIdempotent` | iptv30.0.py:66 | stripping twice is stripping once |
| `Text.IsExtInfStartsWith` | iptv30.0.py:67 | the character-wise test of a record line is exactly `startswith("#EXTINF:")` |
| `Text.RemoveAll` | iptv30.0.py:79 | `replace(pat, "")` never lengthens a string and leaves it unchanged when `pat` does not occur |
| `Text.RemoveAllFirst` | iptv30.0.py:79 | `replace(pat, "")` keeps the text before the leftmost occurrence of `pat`, drops that occurrence and goes on removing after it, so occurrences never overlap |
| `Playlist.UrlOf` | iptv30.0.py:70-72 | the url a record ends with, from the lines after its `#EXTINF:` line: never a record line itself, and either `""` or one of those lines |
| `Playlist.Parse` | iptv30.0.py:65-75 | the records of stripped lines, at most one per line (characterised by `ParseLength`, `ParseAt` and `ParseUrl`) |
| `Playlist.ParsePlaylist` | iptv30.0.py:62-75 | the records of the lines `readlines` returns, each stripped first; at most one per line |
| `Playlist.DisplayName` | iptv30.0.py:79 | a record's row, `info.replace("#EXTINF:", "").strip()`; never longer than the info |
| `Playlist.ExtInfPositions` | iptv30.0.py:65-70 | lists, in increasing order, positions of lines that open a record |
| `Playlist.ExtInfPositionsComplete` | iptv30.0.py:67-70 | every line that opens a record is listed |
| `Playlist.ParseLength` | iptv30.0.py:65-75 | there are as many records as lines starting with `#EXTINF:` |
| `Playlist.ParseAt` | iptv30.0.py:65-75 | record j comes from the j-th `#EXTINF:` line in file order, and its info is exactly that stripped line |
| `Playlist.UrlOfIsLastOfRun` | iptv30.0.py:71-72 | the url picked from the lines after a record line is the last of them before the next record line, or `""` |
| `Playlist.NoExtInfBetween` | iptv30.0.py:67-72 | no line between two consecutive record lines opens a record |
| `Playlist.ParseUrl` | iptv30.0.py:67-75 | record j's url is the last line strictly between its line and the next record line (or the end), blank and comment lines included; `""` when there is none |
| `Playlist.ParseSplit` | iptv30.0.py:65-75 | cutting the lines just before a record line cuts the records in the same place |
| `Playlist.ParseIgnoresPreamble` | iptv30.0.py:71 | lines before the first `#EXTINF:` line never affect the records |
| `Playlist.ParseTrailingExtInf` | iptv30.0.py:74-75 | a final `#EXTINF:` line with nothing after it is the last record, with url `""` |
| `Playlist.ParseSerialize` | iptv30.0.py:65-75 | records written back as info and url lines parse to themselves when the urls do not start with `#EXTINF:` |
| `Playlist.ParsePlaylistSerialize` | iptv30.0.py:62-75 | the same round trip through line stripping, for records with stripped fields |
| `Playlist.ParseWellFormed` | iptv30.0.py:65-75 | every parsed record's info starts with `#EXTINF:` and its url does not; both are lines of the input (or the url is `""`) |
| `Playlist.ParseRoundTrip` | iptv30.0.py:65-75 | parsing, writing the records back as info and url lines, and parsing again gives the same records |
| `Playlist.ParsePlaylistRoundTrip` | iptv30.0.py:62-75 | the same round trip for a file's raw lines, stripping included |
| `Playlist.ParseExample` | iptv30.0.py:65-75 | two records from three lines; the second has url `""` |
| `Playlist.DisplayNameOfRecord` | iptv30.0.py:79 | a record's row is the text after `#EXTINF:`, stripped, when no further `#EXTINF:` occurs in it |
| `Playlist.DisplayList` | iptv30.0.py:77-80 | one row per record, in record order, each the record's display name |
| `Playlist.ResumeStep` | iptv30.0.py:65-72 | one loop step keeps "records appended + records still to come" equal to the parse |
| `Resolver.ScanFrom` | iptv30.0.py:94-100 | the scan loop over the lines not yet read: an answer is one of those lines and never a line equal to info |
| `Resolver.FindAfter` | iptv30.0.py:93-100 | the scan over a whole file: an answer is one of its lines and never a line equal to info (characterised by the lemmas below) |
| `Resolver.ScanFromFirst` | iptv30.0.py:94-100 | the scan answers with the line at the first place where a line equal to info is followed by one that is not |
| `Resolver.ScanFromNone` | iptv30.0.py:94-100 | with no such place the scan finds nothing |
| `Resolver.FindAfterFirstBoundary` | iptv30.0.py:93-100 | the lookup's scan of a whole file answers with the line after the first run of lines equal to info |
| `Resolver.FindAfterNoBoundary` | iptv30.0.py:93-100 | when no line equal to info is followed by a different line, the scan gives nothing |
| `Resolver.FindAfterNextLine` | iptv30.0.py:93-100 | the answer is the line right after the first line equal to info, whatever it holds, when it differs from info |
| `Resolver.FindAfterMatchIsLast` | iptv30.0.py:93-100 | when the first line equal to info is the last line, nothing is found |
| `Resolver.FindAfterNoMatch` | iptv30.0.py:93-100 | when no line is a record line equal to info, nothing is found |
| `Resolver.Resolve` | iptv30.0.py:85-102 | a hit answers from the dictionary and changes nothing; only the key info may be added, no entry is overwritten; a miss answers what the scan finds and records it only when found; a read error answers `"Error: "` plus the message and records nothing |
| `Resolver.ResolveTwice` | iptv30.0.py:87-99 | a second lookup of the same channel after an answered one gives the same answer and changes nothing, whatever the file holds then |
| `Resolver.ResolveTransparent` | iptv30.0.py:85-100 | while the file is unchanged the dictionary is invisible: every answer is what a fresh scan gives, and the dictionary stays consistent with the file |
| `Navigator.NextIndex` | iptv30.0.py:123-126 | next gives (i+1) mod n from an index in range; from any index the player can hold it lands in range, or on 0; on an empty list it gives 0 |
| `Navigator.PrevIndex` | iptv30.0.py:129-132 | previous gives (i-1+n) mod n and stays in range from an index in range; on an empty list, from index 0 or -1, it gives -1; it never goes below -1 |
| `Navigator.NextWrapsAround` | iptv30.0.py:123-126 | n presses of next on n records come back to the start |
| `Navigator.PrevWrapsAround` | iptv30.0.py:129-132 | n presses of previous on n records come back to the start |
| `Navigator.NextPrevInverse` | iptv30.0.py:123-132 | previous undoes next and next undoes previous |
| `Navigator.PrevFromStaleIndex` | iptv30.0.py:129-132 | an index left past the end by a shorter playlist only steps down by one |
| `Player.PlayChoice` | iptv30.0.py:104-112 | a non-empty url is played as it is, never an empty one; an empty url is looked up; no selection does nothing; a row with no record fails |
| `Player.StoredUrl` | iptv30.0.py:115 | the url stored after a lookup is empty exactly when Python's stored value is falsy (None or ""); otherwise it is the looked-up text |
| `Player.ErrorTextIsPlayedLater` | iptv30.0.py:101-116 | after a read error, the error text is the channel's url and is played directly next time |
| `Player.IPTVPlayer.constructor` | iptv30.0.py:11-18 | no records, index 0, empty dictionary |
| `Player.IPTVPlayer.UpdateChannelList` | iptv30.0.py:58-83 | the records are the parse of the file's stripped lines and the rows their display names; an unreadable file leaves no records and one error row |
| `Player.IPTVPlayer.FillChannelList` | iptv30.0.py:77-80 | the rows are the display names of the records |
| `Player.IPTVPlayer.FetchSelectedChannelUrl` | iptv30.0.py:85-102 | answer and new dictionary are those of `Resolver.Resolve` |
| `Player.IPTVPlayer.PlaySelectedChannel` | iptv30.0.py:104-112 | follows `PlayChoice`: plays the stored url, or looks it up, stores it in the record and plays it |
| `Player.IPTVPlayer.FetchAndPlayChannel` | iptv30.0.py:114-116 | the looked-up url is stored in the record (nothing found stores `""`) and handed to the player |
| `Player.IPTVPlayer.NextChannel` | iptv30.0.py:123-127 | the index becomes `NextIndex` of the old index and the number of records |
| `Player.IPTVPlayer.PrevChannel` | iptv30.0.py:129-133 | the index becomes `PrevIndex` of the old index and the number of records, and stays at least -1 |

## Left out

- Tkinter widgets: the list box is modelled only as its list of rows (`display`). Selection,
  scrolling and the file dialog (`create_widgets`, `open_playlist`, `update_current_channel`)
  are UI. The selection `play_selected_channel` reads is a parameter.
- `Player.IPTVPlayer.NextChannel`: `next_channel` then calls `update_current_channel`, which selects
  the new index in the list box and calls `play_selected_channel`. That play is
  `PlaySelectedChannel` with the list box's selection. The model does not compose the two steps,
  because which row Tk selects for an index out of range is widget behaviour.
- `Player.IPTVPlayer.PrevChannel`: likewise, the `play_selected_channel` that `update_current_channel`
  runs after `prev_channel` is not composed here.
- VLC: `play_iptv_url` is an external call. The model reports the url handed to it and does
  not model playback.
- The worker thread of `play_selected_channel`: the lookup runs at once, in sequence. A
  second play that starts before the first lookup ends is not modelled.
- File opening, UTF-8 decoding and `readlines`: a read is given as its lines or as an
  exception's message. The exception is modelled only for reading. Errors raised by the
  widgets are not modelled.
- `Player.IPTVPlayer.FetchAndPlayChannel`: Python stores `None` in the record when nothing is
  found. The model stores `""`. Both are falsy, so the next play decision is the same.
- `Text.Trim`: white space is the fixed set of code points `str.isspace()` accepts. No Unicode
  database is modelled.
