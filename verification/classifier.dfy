/** `etiqueta`: the verdict for one probed address, from its HTTP status and
    its (already lower-cased) content type. */
module Classifier {
  import opened PyStr

  datatype Verdict = Online | Bloq | Off {
    /** The label written into the report. */
    function Label(): (s: string)
      ensures s == "ONLINE" || s == "BLOQ" || s == "OFF"
    {
      match this
      case Online => "ONLINE"
      case Bloq => "BLOQ"
      case Off => "OFF"
    }
  }

  /** The content types, as substrings, that mark a playlist or a transport
      stream. */
  const StreamingTypes: seq<string> := [
    "application/vnd.apple.mpegurl", "application/x-mpegurl", "audio/x-mpegurl",
    "video/mp2t", "mpegurl", "mp2t"
  ]

  /** `any(x in ct for x in subs)` */
  predicate ContainsAny(ct: string, subs: seq<string>) {
    exists j :: 0 <= j < |subs| && Contains(ct, subs[j])
  }

  /** The statuses the explicit "OFF" rule names. */
  predicate IsDeadStatus(sc: int) {
    sc in {403, 404, 410, 451} || sc >= 500 || sc == 0
  }

  /** `etiqueta(sc, ct)`: only a 200 can be ONLINE, so a 206 answer to the
      one-byte ranged request is OFF or BLOQ even when its type is a stream;
      BLOQ needs an HTML type. */
  function Classify(sc: int, ct: string): (v: Verdict)
    ensures v == Online ==> sc == 200
    ensures v == Bloq ==> Contains(ct, "text/html")
  {
    if sc == 200 && ContainsAny(ct, StreamingTypes) then Online
    else if Contains(ct, "text/html") then Bloq
    else if IsDeadStatus(sc) then Off
    else Off
  }

  /** The six streaming substrings come down to two: every one of them
      contains "mpegurl" or "mp2t". */
  lemma StreamingTypesReduce(ct: string)
    ensures ContainsAny(ct, StreamingTypes) <==> Contains(ct, "mpegurl") || Contains(ct, "mp2t")
  {
    if ContainsAny(ct, StreamingTypes) {
      var j :| 0 <= j < |StreamingTypes| && Contains(ct, StreamingTypes[j]);
      if j == 0 {
        assert StreamingTypes[0] == "application/vnd.apple." + "mpegurl";
        ContainsSuffix(ct, "application/vnd.apple.", "mpegurl");
      } else if j == 1 {
        assert StreamingTypes[1] == "application/x-" + "mpegurl";
        ContainsSuffix(ct, "application/x-", "mpegurl");
      } else if j == 2 {
        assert StreamingTypes[2] == "audio/x-" + "mpegurl";
        ContainsSuffix(ct, "audio/x-", "mpegurl");
      } else if j == 3 {
        assert StreamingTypes[3] == "video/" + "mp2t";
        ContainsSuffix(ct, "video/", "mp2t");
      }
    }
    if Contains(ct, "mpegurl") {
      assert Contains(ct, StreamingTypes[4]);
    }
    if Contains(ct, "mp2t") {
      assert Contains(ct, StreamingTypes[5]);
    }
  }

  /** ONLINE exactly for status 200 with a playlist or transport-stream type. */
  lemma ClassifyOnline(sc: int, ct: string)
    ensures Classify(sc, ct) == Online <==> sc == 200 && (Contains(ct, "mpegurl") || Contains(ct, "mp2t"))
  {
    StreamingTypesReduce(ct);
  }

  /** BLOQ exactly when the answer is not ONLINE and its type is an HTML page,
      whatever the status. */
  lemma ClassifyBloq(sc: int, ct: string)
    ensures Classify(sc, ct) == Bloq <==>
      !(sc == 200 && (Contains(ct, "mpegurl") || Contains(ct, "mp2t"))) && Contains(ct, "text/html")
  {
    StreamingTypesReduce(ct);
  }

  /** OFF in every other case: the explicit rule for dead statuses and the
      final fallback give the same verdict, so the status matters only
      through the ONLINE rule. */
  lemma ClassifyOff(sc: int, ct: string)
    ensures Classify(sc, ct) == Off <==>
      !(sc == 200 && (Contains(ct, "mpegurl") || Contains(ct, "mp2t"))) && !Contains(ct, "text/html")
  {
    StreamingTypesReduce(ct);
  }

  /** The labels of the three verdicts are distinct. */
  lemma LabelsDistinct(v: Verdict, w: Verdict)
    ensures v.Label() == w.Label() <==> v == w
  {
  }

  lemma ExampleOnline()
    ensures Classify(200, "application/vnd.apple.mpegurl") == Online
  {
    var ct := "application/vnd.apple.mpegurl";
    assert ct[22..] == "mpegurl";
    ContainsAt(ct, "mpegurl", 22);
    ClassifyOnline(200, ct);
  }

  /** Both streaming substrings hold a 'p'. */
  lemma NotStreamingWithoutP(ct: string)
    requires 'p' !in ct
    ensures !Contains(ct, "mpegurl") && !Contains(ct, "mp2t")
  {
    if Contains(ct, "mpegurl") {
      ContainsChar(ct, "mpegurl", 1);
      assert false;
    }
    if Contains(ct, "mp2t") {
      ContainsChar(ct, "mp2t", 1);
      assert false;
    }
  }

  /** An HTML page is BLOQ even with status 200 ... */
  lemma ExampleBloq()
    ensures Classify(200, "text/html; charset=utf-8") == Bloq
  {
    var ct := "text/html; charset=utf-8";
    assert "text/html" <= ct;
    NotStreamingWithoutP(ct);
    ClassifyBloq(200, ct);
  }

  /** ... and with an error status. */
  lemma ExampleBloqError()
    ensures Classify(500, "text/html") == Bloq
  {
    assert Contains("text/html", "text/html");
  }

  /** A stream type with an error status is OFF, and so are a 404 with no
      type and the "no answer" outcome (0, ""). */
  lemma ExampleOff()
    ensures Classify(500, "video/mp2t") == Off
    ensures Classify(404, "") == Off
    ensures Classify(0, "") == Off
  {
    var ct := "video/mp2t";
    assert 'h' !in ct;
    if Contains(ct, "text/html") {
      ContainsChar(ct, "text/html", 5);
      assert false;
    }
    if Contains("", "text/html") {
      ContainsNoLonger("", "text/html");
    }
  }
}
