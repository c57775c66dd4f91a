/** `head_or_range`: probe one address with a HEAD request and, only if that
    request raises, with a GET for its first byte. The network is abstract:
    each request is answered by a `StageResult`. */
module Prober {
  import opened PyStr

  datatype Option<T> = None | Some(value: T)

  /** What one request gave: a response, with its status and its
      content-type header if it had one, or an exception (connection error,
      timeout, TLS or protocol error). An error status is a response. */
  datatype StageResult = Responded(status: int, contentType: Option<string>) | Raised

  /** The two requests of a probe: HEAD, then GET with "Range: bytes=0-0". */
  datatype Stage = Head | RangedGet

  /** The answer the network gives to request `stage` of probe task `task`
      (the entry's position in the playlist) for address `url`. */
  type Network = (Stage, nat, string) -> StageResult

  /** The status and the lower-cased content type a probe reports; status 0
      with an empty type means that no request got a response. */
  datatype ProbeOutcome = ProbeOutcome(status: int, contentType: string)

  /** `r.status_code, (r.headers.get("content-type") or "").lower()` */
  function Normalize(status: int, contentType: Option<string>): (o: ProbeOutcome)
    ensures o.status == status
    ensures contentType.None? ==> o.contentType == ""
    ensures contentType.Some? ==> |o.contentType| == |contentType.value|
    ensures IsLower(o.contentType)
  {
    var ct := if contentType.Some? then contentType.value else "";
    LowerSpec(ct);
    ProbeOutcome(status, Lower(ct))
  }

  /** The outcome of a probe whose HEAD request gave `head` and whose ranged
      GET, if it is sent, gives `get`. */
  function Probe(head: StageResult, get: StageResult): (o: ProbeOutcome)
    ensures head.Responded? ==> o.status == head.status
    ensures head.Raised? && get.Responded? ==> o.status == get.status
    ensures head.Raised? && get.Raised? ==> o == ProbeOutcome(0, "")
  {
    if head.Responded? then Normalize(head.status, head.contentType)
    else if get.Responded? then Normalize(get.status, get.contentType)
    else ProbeOutcome(0, "")
  }

  /** `head_or_range(client, url)` run as probe task `task`. */
  function HeadOrRange(net: Network, task: nat, url: string): (o: ProbeOutcome)
    ensures net(Head, task, url).Responded? ==> o.status == net(Head, task, url).status
    ensures net(Head, task, url).Raised? && net(RangedGet, task, url).Responded? ==>
      o.status == net(RangedGet, task, url).status
    ensures net(Head, task, url).Raised? && net(RangedGet, task, url).Raised? ==> o == ProbeOutcome(0, "")
  {
    Probe(net(Head, task, url), net(RangedGet, task, url))
  }

  /** The first request in `tries` that got a response, if any. */
  function FirstResponse(tries: seq<StageResult>): (r: Option<StageResult>)
    ensures r.Some? ==> r.value.Responded?
    ensures r.Some? ==>
      exists j :: 0 <= j < |tries| && tries[j] == r.value && forall m :: 0 <= m < j ==> tries[m].Raised?
    ensures r.None? ==> forall j :: 0 <= j < |tries| ==> tries[j].Raised?
  {
    if tries == [] then None
    else if tries[0].Responded? then
      assert tries[0] == tries[0];
      Some(tries[0])
    else
      var r := FirstResponse(tries[1..]);
      if r.Some? then
        var j :| 0 <= j < |tries[1..]| && tries[1..][j] == r.value && forall m :: 0 <= m < j ==> tries[1..][m].Raised?;
        assert tries[j + 1] == r.value && forall m :: 0 <= m < j + 1 ==> tries[m].Raised?;
        r
      else
        r
  }

  /** The probe reports the first of its requests, in order, that got a
      response, and (0, "") when neither did. */
  lemma ProbeIsFirstResponse(head: StageResult, get: StageResult)
    ensures match FirstResponse([head, get])
      case Some(r) => Probe(head, get) == Normalize(r.status, r.contentType)
      case None => Probe(head, get) == ProbeOutcome(0, "")
  {
    assert [head, get][1..] == [get];
    assert [get][1..] == [];
    assert FirstResponse([head, get]) ==
      if head.Responded? then Some(head) else if get.Responded? then Some(get) else None;
  }

  /** Any response to HEAD, an error status such as 404 included, ends the
      probe: its status is reported and the GET is never sent, so its answer
      cannot matter. */
  lemma HeadResponseDecides(head: StageResult, get1: StageResult, get2: StageResult)
    requires head.Responded?
    ensures Probe(head, get1) == Probe(head, get2)
    ensures Probe(head, get1).status == head.status
    ensures head.contentType.None? ==> Probe(head, get1).contentType == ""
    ensures head.contentType.Some? ==> Probe(head, get1).contentType == Lower(head.contentType.value)
  {
  }

  /** After HEAD raised, the ranged GET decides the outcome. */
  lemma GetAfterHeadRaised(get: StageResult)
    requires get.Responded?
    ensures Probe(Raised, get).status == get.status
    ensures get.contentType.Some? ==> Probe(Raised, get).contentType == Lower(get.contentType.value)
    ensures get.contentType.None? ==> Probe(Raised, get).contentType == ""
  {
  }

  /** The reported content type never has an ASCII capital letter, and it is
      empty when no request got a response. */
  lemma ProbeContentTypeLower(head: StageResult, get: StageResult)
    ensures IsLower(Probe(head, get).contentType)
    ensures head.Raised? && get.Raised? ==> Probe(head, get) == ProbeOutcome(0, "")
  {
    if head.Responded? {
      LowerSpec(if head.contentType.Some? then head.contentType.value else "");
    } else if get.Responded? {
      LowerSpec(if get.contentType.Some? then get.contentType.value else "");
    }
  }
}
