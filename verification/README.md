# IPTV playlist checker — a Dafny model

The service takes the address of an extended-M3U (M3U8) playlist and fetches
it. It reads each `#EXTINF` entry as a (display name, stream address) pair,
then probes every address. A probe sends a HEAD request and, only if that
request raises, a GET for the first byte. The service reports each channel as
ONLINE, BLOQ (the server answered with an HTML page) or OFF.

The model has five modules:

- `PyStr` (`pystr.dfy`): the Python string operations the service depends on,
  over Unicode code points: `isspace`, `strip`, `startswith`, `in`,
  `split(",", 1)[-1]`, `splitlines` and `lower`. Whitespace and line
  boundaries are CPython's character tables. Each string operation is a plain
  definition, and a lemma next to it states what it computes.
- `Playlist` (`playlist.dfy`): `parse_m3u8`. It is an imperative method with a
  loop, proved against a specification function. Lemmas say what the parse
  yields. A renderer turns entries back into playlist text, and the parse is
  proved to be its inverse.
- `Classifier` (`classifier.dfy`): `etiqueta`, the verdict for one status and
  content type, with a characterisation of each verdict.
- `Prober` (`prober.dfy`): `head_or_range`, the HEAD-then-ranged-GET fallback.
  The network is abstract: a function tells what each request gives.
- `Engine` (`engine.dfy`): `verificar_async`. It fetches the playlist, parses
  it, probes entry `i` as task `i`, and builds the report. This module also
  holds a two-channel example worked end to end.

Two behaviours of the code are worth noting:

- The placeholder for an `#EXTINF` line without a title is `"SIN NOMBRE"`
  (api.py:14).
- An address is accepted when its stripped text starts with the bare prefix
  `"http"` (api.py:17), so `"httpfoo"` is accepted.

## Model

| member | source | states |
|---|---|---|
| Playlist.ParseM3u8 | api.py:10-18 | the loop over `splitlines()` returns exactly `Parse(text)`: one entry per `#EXTINF` line whose next line, stripped, starts with "http", in line order |
| Playlist.ParseTrace | api.py:11-17 | of `Parse` and `Entries`: entry `k` comes from line `src[k]`, an `#EXTINF` line that has a next line; its name is that line's display name and its address is the next line stripped, which starts with "http"; source lines strictly increase; no qualifying line is skipped |
| Playlist.EntriesTrace | api.py:12-17 | after the first `n` lines, the collected entries match one-to-one the qualifying lines before `n`, in increasing order, with none missed |
| Playlist.SourcesSound | api.py:12-17 | after the first `n` lines, entry `k` is the one built from qualifying line `src[k]`, which lies before `n` |
| Playlist.SourcesIncreasing | api.py:12 | the source lines of the entries strictly increase: entries keep the playlist order |
| Playlist.SourcesComplete | api.py:13-17 | every qualifying line before `n` is the source of an entry |
| Playlist.DisplayNameSpec | api.py:14 | of `DisplayName`: the name is never empty and is stripped; it is "SIN NOMBRE" when the text after the first comma (the whole line if it has no comma) is blank, and that text stripped otherwise; a name from one line holds no line boundary |
| Playlist.AppendNonAddressLine | api.py:15-17 | a final line that does not start with "http" once stripped adds no entry; in particular a trailing `#EXTINF` line, which has no next line, yields nothing |
| Playlist.ExtinfIsNoAddress | api.py:13-17 | an `#EXTINF` line never passes as an address, so one `#EXTINF` line cannot serve as another's address |
| Playlist.EntriesAtMostExtinf | api.py:12-17 | there are never more entries than `#EXTINF` lines |
| Playlist.EntryAtWellFormed | api.py:14-17 | an entry built from two single lines has a non-empty stripped name and a stripped "http" address, neither holding a line boundary |
| Playlist.ParsedEntriesWellFormed | api.py:10-18 | every parsed entry is well formed in that sense |
| Playlist.DisplayNameOfExtinfLine | api.py:14 | the display name of `#EXTINF:-1,<name>` is `<name>` for a well-formed name |
| Playlist.AppendEntryLines | api.py:12-17 | appending an `#EXTINF` line and an address line after lines that do not end in an `#EXTINF` line appends exactly that entry |
| Playlist.EntriesOfRenderLines | api.py:12-17 | the scan over the rendered lines of well-formed entries gives back those entries |
| Playlist.RenderLinesShape | api.py:11 | rendering gives two lines per entry, none holding a line boundary |
| Playlist.ParseRender | api.py:10-18 | parsing the rendered text of well-formed entries gives them back, duplicates included |
| Playlist.ParseRenderWithTerminator | api.py:10-18 | the round trip holds whichever terminator ends the lines, so a playlist with "\r\n" line ends reads as the same entries |
| Playlist.ParseRenderParse | api.py:10-18 | parsing is a normal form: re-rendering the parse and parsing again changes nothing |
| Classifier.Classify | api.py:33-39 | `etiqueta`: only a 200 can be ONLINE (a 206 answer to the ranged GET never is), and a BLOQ verdict implies an HTML type; the full characterisation is in the three lemmas below |
| Classifier.StreamingTypesReduce | api.py:34-35 | matching any of the six streaming substrings is the same as containing "mpegurl" or "mp2t" |
| Classifier.ClassifyOnline | api.py:34-36 | ONLINE if and only if the status is 200 and the type contains "mpegurl" or "mp2t" |
| Classifier.ClassifyBloq | api.py:37 | BLOQ if and only if the answer is not ONLINE and its type contains "text/html", whatever the status |
| Classifier.ClassifyOff | api.py:37-39 | OFF if and only if neither rule above applies; the dead-status rule and the fallback agree |
| Classifier.Verdict.Label | api.py:36-39 | the label is one of "ONLINE", "BLOQ", "OFF" |
| Classifier.LabelsDistinct | api.py:36-39 | two verdicts have the same label only if they are the same verdict |
| Classifier.NotStreamingWithoutP | api.py:35 | a type with no letter 'p' matches no streaming substring |
| Classifier.ExampleOnline | api.py:34-36 | (200, "application/vnd.apple.mpegurl") is ONLINE |
| Classifier.ExampleBloq | api.py:37 | (200, "text/html; charset=utf-8") is BLOQ |
| Classifier.ExampleBloqError | api.py:37 | (500, "text/html") is BLOQ |
| Classifier.ExampleOff | api.py:37-39 | (500, "video/mp2t"), (404, "") and (0, "") are OFF |
| Prober.Normalize | api.py:23 | the reported status is the response's; the reported type holds no ASCII capital; a missing content-type header gives ""; a present one keeps its length once lower-cased |
| Prober.Probe | api.py:20-31 | a HEAD response gives its status; after HEAD raises, a GET response gives its status; two raised requests give (0, "") |
| Prober.HeadOrRange | api.py:20-31 | for the answers the network gives probe task `task` at the address: a HEAD response gives its status; after HEAD raises, a ranged-GET response gives its status; two raised requests give (0, "") |
| Prober.FirstResponse | api.py:20-31 | the result, when present, got a response and is the first such request in the list, every earlier one having raised; when absent, every request raised |
| Prober.ProbeIsFirstResponse | api.py:20-31 | the probe reports the first request, in order, that got a response, and (0, "") when none did |
| Prober.HeadResponseDecides | api.py:21-23 | any response to HEAD, an error status included, decides the outcome: the GET's answer cannot matter; a missing header gives "", a present one is reported lower-cased |
| Prober.GetAfterHeadRaised | api.py:24-29 | after HEAD raises, the GET's status and lower-cased type are reported, and "" when the GET has no content-type header |
| Prober.ProbeContentTypeLower | api.py:23-31 | the reported type never holds an ASCII capital; two raised requests give (0, "") |
| Engine.CheckEntry | api.py:50-53 | `uno`: the item carries the entry's name and address, and its verdict is the verdict for the status and type it reports |
| Engine.CheckAll | api.py:54 | one item per entry, item `i` carrying entry `i`'s name and address |
| Engine.Verify | api.py:41-56 | a report exists only after a fetch with a 2xx status, and its count is its number of items, which is the number of parsed entries |
| Engine.VerifyFailsOnlyOnFetch | api.py:43-44 | no report if and only if the playlist fetch raised or its status is not 2xx; each case gives its own error |
| Engine.ReportMatchesEntries | api.py:45-56 | a report has `count` = number of items = number of entries; item `i` has entry `i`'s name and address, probe task `i`'s outcome and that outcome's verdict |
| Engine.ReportItemsWellFormed | api.py:45-56 | every item has a non-empty name, an "http" address, a lower-case type and one of the three labels |
| Engine.ProbeFailureIsOff | api.py:50-53 | a probe whose two requests raise does not abort the report; its item is (0, "", OFF) |
| Engine.ItemDependsOnItsTaskOnly | api.py:50-54 | item `i` depends only on entry `i` and the answers to task `i`, so completion order cannot reorder or mix the items |
| Engine.TwoChannelsParse | api.py:10-18 | the example two-channel playlist parses to its two entries |
| Engine.HlsIsOnline | api.py:34-36 | a 200 with type "application/vnd.apple.mpegurl", lower-cased, is ONLINE |
| Engine.TwoChannelScenario | api.py:41-56 | with one stream answering 200 with an HLS type and the other unreachable, the report has two items: the first ONLINE, the second OFF with status 0 |
| PyStr.StripSpec | api.py:14-16 | of `Strip`: `strip` keeps a contiguous piece of its argument and removes only whitespace at both ends; the result has none at its ends; it is empty exactly for blank input |
| PyStr.StripLeadingSpec | api.py:14-16 | `lstrip` removes the longest whitespace prefix |
| PyStr.StripTrailingSpec | api.py:14-16 | `rstrip` removes the longest whitespace suffix |
| PyStr.StripOfStripped | api.py:14-16 | a string with no whitespace at its ends is its own `strip` |
| PyStr.StripNoLineBreak | api.py:16 | `strip` introduces no line boundary |
| PyStr.AfterFirstCommaSpec | api.py:14 | of `AfterFirstComma`: `split(",", 1)[-1]` is all of a comma-free line, and otherwise exactly the text after the first comma |
| PyStr.AfterFirstCommaOf | api.py:14 | for a comma-free `p`, the text after the first comma of `p + "," + q` is `q` |
| PyStr.BreakIndexSpec | api.py:11 | the text before the first line boundary holds none, and the boundary found is one |
| PyStr.SplitLinesRejoin | api.py:11 | of `SplitLines`: each line followed by its own terminator ("\r\n" or one boundary character; the end of the text for the last line) gives back the text |
| PyStr.SplitLinesCons | api.py:11 | a line free of boundaries, a terminator and the rest split into that line followed by the lines of the rest, unless a lone "\r" is followed by "\n" |
| PyStr.SplitLinesSpec | api.py:11 | no line from `splitlines` holds a line boundary, and there are no more lines than characters |
| PyStr.SplitJoinLines | api.py:11 | `splitlines` inverts joining lines free of line boundaries with any one terminator; "\r\n" ends one line, not two |
| PyStr.ContainsAt | api.py:34-37 | of `Contains`: `sub in s` holds when `sub` occurs at any offset |
| PyStr.ContainsWitness | api.py:34-37 | when `sub in s` holds, `sub` occurs at some offset |
| PyStr.ContainsChar | api.py:34-37 | every character of a contained string occurs in the container |
| PyStr.ContainsNoLonger | api.py:34-37 | no string contains a longer one |
| PyStr.ContainsSuffix | api.py:34-35 | whatever contains `p + q` contains `q` |
| PyStr.Lower | api.py:23 | `lower` keeps the length |
| PyStr.LowerSpec | api.py:23 | `lower` leaves no ASCII capital, changes only capitals (each to its small letter), and is idempotent |

## Left out

- The Flask layer is not modelled: the `/verify` and `/` routes, CORS, reading and `int`-parsing the query parameters, the 400 for a missing playlist, JSON serialization, and `PORT`/`app.run`. It is request plumbing around `verificar_async`.
- The HTTP client is replaced by the abstract network, so headers, connection limits, timeouts and redirect following are not modelled. The `conc` and `timeout` parameters are left out with them.
- Concurrency is not modelled: the semaphore and `asyncio.gather`. `gather` returns results in argument order, so the report is modelled as an entry-by-entry map, with task `i` probing entry `i`.
- Engine.VerifyFailsOnlyOnFetch: assumes `conc >= 1`. The source passes any integer from the query to `asyncio.Semaphore(conc)`, which raises for `conc < 0`, so no report comes even after a good fetch. With `conc == 0`, every probe waits forever once there is at least one entry. Neither behaviour is modelled.
- The `took` field is left out, because it reads the clock.
- The text of the error returned for a failed fetch (`str(e)`) is not modelled; only which of the two failures happened.
- Decoding the playlist body (`r.text`) is not modelled; the model starts from the decoded text.
- Lower: only ASCII capitals are lower-cased; the rest of Unicode case mapping (which can change the length, as for U+0130) is not modelled, because only the ASCII comparison with the streaming and HTML type names matters.
- PyStr.LowerSpec: states the ASCII-only lowering, weaker than Python's full Unicode `lower`, for the reason above.
