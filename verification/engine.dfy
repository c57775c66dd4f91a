/** `verificar_async`: fetch the playlist, read its entries, probe each one
    and assemble the report. Probes run concurrently in the source, but
    `asyncio.gather` hands back their results in the order of its arguments,
    so the report is the entry-by-entry map computed here. */
module Engine {
  import opened PyStr
  import opened Playlist
  import opened Classifier
  import opened Prober

  /** One line of the report: `{"name", "url", "http", "ctype", "status"}`. */
  datatype Item = Item(name: string, url: string, http: int, ctype: string, status: Verdict)

  /** `{"count", "items"}`; the elapsed time is not modelled. */
  datatype Report = Report(count: int, items: seq<Item>)

  /** What fetching the playlist gave: a response with its status and decoded
      text, or an exception. */
  datatype ManifestFetch = Fetched(status: int, text: string) | Unreachable

  /** Why no report is produced: the fetch raised, or `raise_for_status`
      rejected the status. */
  datatype VerifyError = ManifestUnreachable | ManifestStatus(status: int)

  datatype Result = Ok(report: Report) | Err(error: VerifyError)

  /** The statuses `raise_for_status` accepts. */
  predicate IsSuccess(status: int) {
    200 <= status < 300
  }

  /** `uno(name, u)` once its probe has given `outcome`. */
  function CheckEntry(e: Entry, outcome: ProbeOutcome): (item: Item)
    ensures item.name == e.name && item.url == e.url
    ensures item.status == Classify(item.http, item.ctype)
  {
    Item(e.name, e.url, outcome.status, outcome.contentType, Classify(outcome.status, outcome.contentType))
  }

  /** The report for the entries `entries`, probe task `i` checking entry `i`. */
  function CheckAll(entries: seq<Entry>, net: Network): (items: seq<Item>)
    ensures |items| == |entries|
    ensures forall i :: 0 <= i < |items| ==> items[i].name == entries[i].name && items[i].url == entries[i].url
  {
    seq(|entries|, i requires 0 <= i < |entries| => CheckEntry(entries[i], HeadOrRange(net, i, entries[i].url)))
  }

  /** `verificar_async(url)`, given what fetching `url` gave and how the
      network answers the probes. */
  function Verify(manifest: ManifestFetch, net: Network): (r: Result)
    ensures r.Ok? ==> manifest.Fetched? && IsSuccess(manifest.status)
    ensures r.Ok? ==> r.report.count == |r.report.items| == |Parse(manifest.text)|
  {
    match manifest
    case Unreachable => Err(ManifestUnreachable)
    case Fetched(status, text) =>
      if !IsSuccess(status) then Err(ManifestStatus(status))
      else
        var items := CheckAll(Parse(text), net);
        Ok(Report(|items|, items))
  }

  /** A failed fetch, or one with a non-2xx status, yields an error and no
      report; every other fetch yields a report. */
  lemma VerifyFailsOnlyOnFetch(manifest: ManifestFetch, net: Network)
    ensures Verify(manifest, net).Err? <==> manifest.Unreachable? || !IsSuccess(manifest.status)
    ensures manifest.Unreachable? ==> Verify(manifest, net) == Err(ManifestUnreachable)
    ensures manifest.Fetched? && !IsSuccess(manifest.status) ==>
      Verify(manifest, net) == Err(ManifestStatus(manifest.status))
  {
  }

  /** A report has one item per parsed entry, in playlist order: item `i`
      carries the name and address of entry `i`, the outcome of probe task `i`
      on that address, and the verdict for that outcome; `count` is the
      number of items. */
  lemma ReportMatchesEntries(status: int, text: string, net: Network)
    requires IsSuccess(status)
    ensures Verify(Fetched(status, text), net).Ok?
    ensures var r := Verify(Fetched(status, text), net).report; var es := Parse(text);
      r.count == |r.items| == |es|
      && forall i :: 0 <= i < |es| ==>
           r.items[i].name == es[i].name && r.items[i].url == es[i].url
           && ProbeOutcome(r.items[i].http, r.items[i].ctype) == HeadOrRange(net, i, es[i].url)
           && r.items[i].status == Classify(r.items[i].http, r.items[i].ctype)
  {
  }

  /** Every item has a non-empty name, an `http` address, a lower-case
      content type, and one of the three labels. */
  lemma ReportItemsWellFormed(status: int, text: string, net: Network)
    requires IsSuccess(status)
    ensures var items := Verify(Fetched(status, text), net).report.items;
      forall i :: 0 <= i < |items| ==>
        items[i].name != [] && StartsWith(items[i].url, "http") && IsLower(items[i].ctype)
        && items[i].status.Label() in {"ONLINE", "BLOQ", "OFF"}
  {
    var es := Parse(text);
    var items := CheckAll(es, net);
    ParsedEntriesWellFormed(text);
    forall i | 0 <= i < |items|
      ensures items[i].name != [] && StartsWith(items[i].url, "http") && IsLower(items[i].ctype)
    {
      ProbeContentTypeLower(net(Head, i, es[i].url), net(RangedGet, i, es[i].url));
    }
  }

  /** A probe whose two requests both raise does not abort the report: its
      item reports status 0, an empty type and OFF. */
  lemma ProbeFailureIsOff(status: int, text: string, net: Network, i: nat)
    requires IsSuccess(status) && i < |Parse(text)|
    requires net(Head, i, Parse(text)[i].url).Raised? && net(RangedGet, i, Parse(text)[i].url).Raised?
    ensures var item := Verify(Fetched(status, text), net).report.items[i];
      item.http == 0 && item.ctype == "" && item.status == Off
  {
    ClassifyOff(0, "");
    if Contains("", "text/html") {
      ContainsNoLonger("", "text/html");
    }
  }

  /** Item `i` depends only on entry `i` and the answers to probe task `i`:
      the order in which concurrent probes finish cannot reorder or mix up
      the report. */
  lemma ItemDependsOnItsTaskOnly(status: int, text: string, net1: Network, net2: Network, i: nat)
    requires IsSuccess(status) && i < |Parse(text)|
    requires forall stage :: net1(stage, i, Parse(text)[i].url) == net2(stage, i, Parse(text)[i].url)
    ensures Verify(Fetched(status, text), net1).report.items[i] == Verify(Fetched(status, text), net2).report.items[i]
  {
    var u := Parse(text)[i].url;
    assert net1(Head, i, u) == net2(Head, i, u);
    assert net1(RangedGet, i, u) == net2(RangedGet, i, u);
  }

  const GoodUrl: string := "http://good.test/stream.m3u8"
  const DeadUrl: string := "http://dead.test/x"
  const Hls: string := "application/vnd.apple.mpegurl"

  /** A playlist of two channels, the first on `GoodUrl`, the second on
      `DeadUrl`. */
  const TwoChannels: string :=
    "#EXTINF:-1,Channel A" + "\n" + GoodUrl + "\n" + "#EXTINF:-1,Channel B" + "\n" + DeadUrl + "\n"

  /** A network on which `GoodUrl` answers every request with 200 and an HLS
      playlist type, and every other request raises. */
  function ScenarioNetwork(stage: Stage, task: nat, url: string): StageResult {
    if url == GoodUrl then Responded(200, Some(Hls)) else Raised
  }

  lemma RenderTwo(a: Entry, b: Entry)
    ensures Render([a, b]) == ExtinfLine(a) + "\n" + a.url + "\n" + ExtinfLine(b) + "\n" + b.url + "\n"
  {
    assert [a][..0] == [];
    assert RenderLines([a]) == [ExtinfLine(a), a.url];
    assert [a, b][..1] == [a];
    var lines := [ExtinfLine(a), a.url, ExtinfLine(b), b.url];
    assert RenderLines([a, b]) == lines;
    assert [b.url][1..] == [];
    assert JoinLines([b.url], "\n") == b.url + "\n";
    assert [ExtinfLine(b), b.url][1..] == [b.url];
    assert JoinLines([ExtinfLine(b), b.url], "\n") == ExtinfLine(b) + "\n" + b.url + "\n";
    assert [a.url, ExtinfLine(b), b.url][1..] == [ExtinfLine(b), b.url];
    assert JoinLines([a.url, ExtinfLine(b), b.url], "\n") == a.url + "\n" + ExtinfLine(b) + "\n" + b.url + "\n";
    assert lines[1..] == [a.url, ExtinfLine(b), b.url];
  }

  lemma ScenarioEntriesWellFormed()
    ensures WellFormed(Entry("Channel A", GoodUrl)) && WellFormed(Entry("Channel B", DeadUrl))
  {
    PrintableNoLineBreak("Channel A");
    PrintableNoLineBreak("Channel B");
    PrintableNoLineBreak(GoodUrl);
    PrintableNoLineBreak(DeadUrl);
  }

  lemma ScenarioRender()
    ensures Render([Entry("Channel A", GoodUrl), Entry("Channel B", DeadUrl)]) == TwoChannels
  {
    RenderTwo(Entry("Channel A", GoodUrl), Entry("Channel B", DeadUrl));
  }

  /** The two-channel playlist reads as its two entries. */
  lemma TwoChannelsParse()
    ensures Parse(TwoChannels) == [Entry("Channel A", GoodUrl), Entry("Channel B", DeadUrl)]
  {
    ScenarioEntriesWellFormed();
    ScenarioRender();
    ParseRender([Entry("Channel A", GoodUrl), Entry("Channel B", DeadUrl)]);
  }

  /** The HLS type, lower-cased, reads as a stream. */
  lemma HlsIsOnline()
    ensures Classify(200, Lower(Hls)) == Online
  {
    assert Hls[22..29] == "mpegurl";
    LowerKeepsPiece(Hls, 22, "mpegurl");
    ContainsAt(Lower(Hls), "mpegurl", 22);
    ClassifyOnline(200, Lower(Hls));
  }

  /** The report for the two-channel playlist: two items, the answering
      stream ONLINE, the dead one OFF with status 0. */
  lemma TwoChannelScenario()
    ensures var r := Verify(Fetched(200, TwoChannels), ScenarioNetwork);
      r.Ok? && r.report.count == 2
      && r.report.items[0].name == "Channel A" && r.report.items[0].status == Online
      && r.report.items[1].name == "Channel B" && r.report.items[1].status == Off
      && r.report.items[1].http == 0
  {
    TwoChannelsParse();
    HlsIsOnline();
    ProbeFailureIsOff(200, TwoChannels, ScenarioNetwork, 1);
  }
}
