/** The extended-M3U reader: every `#EXTINF` line whose next line is an
    `http` address yields one (display name, address) entry. */
module Playlist {
  import opened PyStr

  datatype Entry = Entry(name: string, url: string)

  /** The name given to an entry whose `#EXTINF` line carries no title. */
  const Placeholder: string := "SIN NOMBRE"

  predicate IsExtinf(line: string) {
    StartsWith(line, "#EXTINF")
  }

  /** The title of an `#EXTINF` line: the stripped text after its first comma
      (the whole stripped line when it has no comma), or the placeholder when
      that text is empty. */
  function DisplayName(line: string): string {
    var title := Strip(AfterFirstComma(line));
    if title == [] then Placeholder else title
  }

  /** A title is never empty, has no whitespace at its ends and stays within
      its line; it is the placeholder when the text after the first comma
      (the whole line if there is none) is blank, and that text stripped
      otherwise. */
  lemma DisplayNameSpec(line: string)
    ensures DisplayName(line) != [] && Stripped(DisplayName(line))
    ensures AllSpace(AfterFirstComma(line)) ==> DisplayName(line) == Placeholder
    ensures !AllSpace(AfterFirstComma(line)) ==> DisplayName(line) == Strip(AfterFirstComma(line))
    ensures NoLineBreak(line) ==> NoLineBreak(DisplayName(line))
  {
    var tail := AfterFirstComma(line);
    var _ := AfterFirstCommaSpec(line);
    var _ := StripSpec(tail);
    if NoLineBreak(line) {
      assert NoLineBreak(tail);
      StripNoLineBreak(tail);
    }
  }

  /** Line `i` opens an entry that is kept: it is an `#EXTINF` line, a next
      line exists, and that line, stripped, starts with "http". */
  predicate Emits(lines: seq<string>, i: int) {
    0 <= i && i + 1 < |lines| && IsExtinf(lines[i]) && StartsWith(Strip(lines[i + 1]), "http")
  }

  function EntryAt(lines: seq<string>, i: int): Entry
    requires 0 <= i && i + 1 < |lines|
  {
    Entry(DisplayName(lines[i]), Strip(lines[i + 1]))
  }

  /** The entries the scan has collected once it has looked at lines `0..n`. */
  function EntriesBefore(lines: seq<string>, n: nat): seq<Entry>
    requires n <= |lines|
  {
    if n == 0 then []
    else EntriesBefore(lines, n - 1) + (if Emits(lines, n - 1) then [EntryAt(lines, n - 1)] else [])
  }

  /** The `#EXTINF` lines among `0..n` that yield those entries. */
  function SourcesBefore(lines: seq<string>, n: nat): seq<nat>
    requires n <= |lines|
  {
    if n == 0 then []
    else SourcesBefore(lines, n - 1) + (if Emits(lines, n - 1) then [n - 1] else [])
  }

  function Entries(lines: seq<string>): seq<Entry> {
    EntriesBefore(lines, |lines|)
  }

  /** What `parse_m3u8(text)` returns. */
  function Parse(text: string): seq<Entry> {
    Entries(SplitLines(text))
  }

  /** `parse_m3u8`: one pass over the lines, appending an entry for each
      `#EXTINF` line followed by an `http` line. */
  method ParseM3u8(text: string) returns (out: seq<Entry>)
    ensures out == Parse(text)
  {
    out := [];
    var lines := SplitLines(text);
    for i := 0 to |lines|
      invariant out == EntriesBefore(lines, i)
    {
      var l := lines[i];
      if StartsWith(l, "#EXTINF") {
        var name := DisplayName(l);
        if i + 1 < |lines| {
          var u := Strip(lines[i + 1]);
          if StartsWith(u, "http") {
            out := out + [Entry(name, u)];
          }
        }
      }
    }
  }

  /** Each entry comes from its own qualifying line, among the first `n`. */
  lemma {:induction false} SourcesSound(lines: seq<string>, n: nat)
    requires n <= |lines|
    ensures |EntriesBefore(lines, n)| == |SourcesBefore(lines, n)|
    ensures forall k :: 0 <= k < |SourcesBefore(lines, n)| ==>
      SourcesBefore(lines, n)[k] < n && Emits(lines, SourcesBefore(lines, n)[k])
      && EntriesBefore(lines, n)[k] == EntryAt(lines, SourcesBefore(lines, n)[k])
  {
    if n > 0 {
      SourcesSound(lines, n - 1);
      var S := SourcesBefore(lines, n - 1);
      var E := EntriesBefore(lines, n - 1);
      if Emits(lines, n - 1) {
        assert SourcesBefore(lines, n) == S + [n - 1];
        assert EntriesBefore(lines, n) == E + [EntryAt(lines, n - 1)];
      } else {
        assert SourcesBefore(lines, n) == S && EntriesBefore(lines, n) == E;
      }
    }
  }

  /** The source lines are taken in increasing order. */
  lemma {:induction false} SourcesIncreasing(lines: seq<string>, n: nat)
    requires n <= |lines|
    ensures forall k :: 0 <= k < |SourcesBefore(lines, n)| ==> SourcesBefore(lines, n)[k] < n
    ensures forall k, m :: 0 <= k < m < |SourcesBefore(lines, n)| ==>
      SourcesBefore(lines, n)[k] < SourcesBefore(lines, n)[m]
  {
    if n > 0 {
      SourcesIncreasing(lines, n - 1);
      var S := SourcesBefore(lines, n - 1);
      if Emits(lines, n - 1) {
        assert SourcesBefore(lines, n) == S + [n - 1];
      }
    }
  }

  /** No qualifying line among the first `n` is skipped. */
  lemma {:induction false} SourcesComplete(lines: seq<string>, n: nat)
    requires n <= |lines|
    ensures forall i :: 0 <= i < n && Emits(lines, i) ==> i in SourcesBefore(lines, n)
  {
    if n > 0 {
      SourcesComplete(lines, n - 1);
      var S := SourcesBefore(lines, n - 1);
      if Emits(lines, n - 1) {
        assert SourcesBefore(lines, n) == S + [n - 1];
      } else {
        assert SourcesBefore(lines, n) == S;
      }
    }
  }

  /** Each entry comes from its own `#EXTINF` line, in the order of the
      lines; every line that qualifies yields one. */
  lemma EntriesTrace(lines: seq<string>, n: nat)
    requires n <= |lines|
    ensures |EntriesBefore(lines, n)| == |SourcesBefore(lines, n)|
    ensures forall k :: 0 <= k < |SourcesBefore(lines, n)| ==>
      SourcesBefore(lines, n)[k] < n && Emits(lines, SourcesBefore(lines, n)[k])
      && EntriesBefore(lines, n)[k] == EntryAt(lines, SourcesBefore(lines, n)[k])
    ensures forall k, m :: 0 <= k < m < |SourcesBefore(lines, n)| ==>
      SourcesBefore(lines, n)[k] < SourcesBefore(lines, n)[m]
    ensures forall i :: 0 <= i < n && Emits(lines, i) ==> i in SourcesBefore(lines, n)
  {
    SourcesSound(lines, n);
    SourcesIncreasing(lines, n);
    SourcesComplete(lines, n);
  }

  /** The parser's output, entry by entry: entry `k` is built from line
      `src[k]`, an `#EXTINF` line with a next line; its address is that next
      line stripped, which starts with "http"; the lines are taken in
      increasing order and none that qualifies is skipped. */
  lemma ParseTrace(text: string) returns (src: seq<nat>)
    ensures var lines := SplitLines(text); var es := Parse(text);
      |es| == |src|
      && (forall k :: 0 <= k < |src| ==>
            src[k] + 1 < |lines| && IsExtinf(lines[src[k]])
            && es[k].url == Strip(lines[src[k] + 1]) && StartsWith(es[k].url, "http")
            && es[k].name == DisplayName(lines[src[k]]))
      && (forall k, m :: 0 <= k < m < |src| ==> src[k] < src[m])
      && (forall i :: Emits(lines, i) ==> i in src)
  {
    var lines := SplitLines(text);
    src := SourcesBefore(lines, |lines|);
    EntriesTrace(lines, |lines|);
  }

  /** Only the first `n` lines and the one after them decide the first `n`
      steps of the scan. */
  lemma {:induction false} EntriesBeforePrefix(a: seq<string>, b: seq<string>, n: nat)
    requires n < |a| <= |b| && a == b[..|a|]
    ensures EntriesBefore(a, n) == EntriesBefore(b, n)
  {
    if n > 0 {
      assert a[n - 1] == b[n - 1] && a[n] == b[n];
      EntriesBeforePrefix(a, b, n - 1);
    }
  }

  /** A line whose stripped text does not start with "http" (an `#EXTINF`
      line in particular) added at the end yields nothing: an `#EXTINF` line
      that is the last line has no address. */
  lemma AppendNonAddressLine(lines: seq<string>, l: string)
    requires !StartsWith(Strip(l), "http")
    ensures Entries(lines + [l]) == Entries(lines)
  {
    var b := lines + [l];
    assert b[..|lines|] == lines && b[|lines|] == l;
    assert !Emits(b, |lines|);
    assert Entries(b) == EntriesBefore(b, |lines|);
    if lines != [] {
      EntriesBeforePrefix(lines, b, |lines| - 1);
      assert !Emits(b, |lines| - 1) && !Emits(lines, |lines| - 1);
    }
  }

  lemma ExtinfIsNoAddress(l: string)
    requires IsExtinf(l)
    ensures !StartsWith(Strip(l), "http")
  {
    assert StripLeading(l) == l;
    StripTrailingSpec(l);
  }

  /** The number of `#EXTINF` lines among the first `n`. */
  function CountExtinf(lines: seq<string>, n: nat): nat
    requires n <= |lines|
  {
    if n == 0 then 0 else CountExtinf(lines, n - 1) + (if IsExtinf(lines[n - 1]) then 1 else 0)
  }

  /** No more entries than `#EXTINF` lines. */
  lemma {:induction false} EntriesAtMostExtinf(lines: seq<string>, n: nat)
    requires n <= |lines|
    ensures |EntriesBefore(lines, n)| <= CountExtinf(lines, n)
  {
    if n > 0 {
      EntriesAtMostExtinf(lines, n - 1);
    }
  }

  /** What every parsed entry looks like: a non-empty title and an `http`
      address, both stripped and within one line. */
  predicate WellFormed(e: Entry) {
    e.name != [] && Stripped(e.name) && NoLineBreak(e.name)
    && StartsWith(e.url, "http") && Stripped(e.url) && NoLineBreak(e.url)
  }

  /** An entry built from lines without line boundaries is well formed. */
  lemma EntryAtWellFormed(lines: seq<string>, i: nat)
    requires Emits(lines, i) && NoLineBreak(lines[i]) && NoLineBreak(lines[i + 1])
    ensures WellFormed(EntryAt(lines, i))
  {
    DisplayNameSpec(lines[i]);
    var _ := StripSpec(lines[i + 1]);
    StripNoLineBreak(lines[i + 1]);
  }

  lemma ParsedEntriesWellFormed(text: string)
    ensures forall k :: 0 <= k < |Parse(text)| ==> WellFormed(Parse(text)[k])
  {
    var lines := SplitLines(text);
    EntriesTrace(lines, |lines|);
    SplitLinesSpec(text);
    forall k | 0 <= k < |Parse(text)|
      ensures WellFormed(Parse(text)[k])
    {
      EntryAtWellFormed(lines, SourcesBefore(lines, |lines|)[k]);
    }
  }

  /** The `#EXTINF` line written for an entry. */
  function ExtinfLine(e: Entry): string {
    "#EXTINF:-1," + e.name
  }

  function RenderLines(es: seq<Entry>): seq<string> {
    if es == [] then []
    else RenderLines(es[..|es| - 1]) + [ExtinfLine(es[|es| - 1]), es[|es| - 1].url]
  }

  /** A playlist listing `es`, two lines per entry. */
  function Render(es: seq<Entry>): string {
    JoinLines(RenderLines(es), "\n")
  }

  lemma {:induction false} RenderLinesShape(es: seq<Entry>)
    requires forall k :: 0 <= k < |es| ==> WellFormed(es[k])
    ensures |RenderLines(es)| == 2 * |es|
    ensures forall j :: 0 <= j < |RenderLines(es)| ==> NoLineBreak(RenderLines(es)[j])
  {
    if es != [] {
      var e := es[|es| - 1];
      RenderLinesShape(es[..|es| - 1]);
      var x := ExtinfLine(e);
      forall i | 0 <= i < |x| ensures !IsLineBreak(x[i]) {
        if i >= 11 { assert x[i] == e.name[i - 11]; }
      }
    }
  }

  lemma DisplayNameOfExtinfLine(e: Entry)
    requires WellFormed(e)
    ensures IsExtinf(ExtinfLine(e)) && DisplayName(ExtinfLine(e)) == e.name
  {
    assert ExtinfLine(e) == "#EXTINF:-1" + "," + e.name;
    AfterFirstCommaOf("#EXTINF:-1", e.name);
    StripOfStripped(e.name);
  }

  /** Lines that do not end in an `#EXTINF` line, followed by the two lines
      of a well-formed entry, read as their own entries and that one. */
  lemma AppendEntryLines(L: seq<string>, e: Entry)
    requires WellFormed(e) && (L == [] || !IsExtinf(L[|L| - 1]))
    ensures Entries(L + [ExtinfLine(e), e.url]) == Entries(L) + [e]
  {
    var lines := L + [ExtinfLine(e), e.url];
    if L != [] {
      EntriesBeforePrefix(L, lines, |L| - 1);
      assert lines[|L| - 1] == L[|L| - 1];
      assert !Emits(lines, |L| - 1) && !Emits(L, |L| - 1);
    }
    assert EntriesBefore(lines, |L|) == Entries(L);
    assert lines[|L|] == ExtinfLine(e) && lines[|L| + 1] == e.url;
    DisplayNameOfExtinfLine(e);
    StripOfStripped(e.url);
    assert Emits(lines, |L|) && EntryAt(lines, |L|) == e;
    assert EntriesBefore(lines, |L| + 1) == Entries(L) + [e];
    assert !Emits(lines, |L| + 1);
    assert Entries(lines) == EntriesBefore(lines, |L| + 2);
  }

  lemma {:induction false} EntriesOfRenderLines(es: seq<Entry>)
    requires forall k :: 0 <= k < |es| ==> WellFormed(es[k])
    ensures Entries(RenderLines(es)) == es
  {
    if es != [] {
      var init := es[..|es| - 1];
      var e := es[|es| - 1];
      var L := RenderLines(init);
      EntriesOfRenderLines(init);
      // The last line of L, if any, is an address, not an `#EXTINF` line.
      if init != [] {
        var d := init[|init| - 1];
        assert L == RenderLines(init[..|init| - 1]) + [ExtinfLine(d), d.url];
        assert L[|L| - 1] == d.url;
        assert L[|L| - 1][0] == 'h';
      }
      AppendEntryLines(L, e);
      assert es == init + [e];
    }
  }

  /** Reading a rendered playlist gives back its entries, duplicates
      included. */
  lemma ParseRender(es: seq<Entry>)
    requires forall k :: 0 <= k < |es| ==> WellFormed(es[k])
    ensures Parse(Render(es)) == es
  {
    RenderLinesShape(es);
    SplitJoinLines(RenderLines(es), "\n");
    EntriesOfRenderLines(es);
  }

  /** The same holds whichever line terminator the playlist uses: a
      playlist saved with "\r\n" line ends reads as the same entries. */
  lemma ParseRenderWithTerminator(es: seq<Entry>, eol: string)
    requires forall k :: 0 <= k < |es| ==> WellFormed(es[k])
    requires IsTerminator(eol)
    ensures Parse(JoinLines(RenderLines(es), eol)) == es
  {
    RenderLinesShape(es);
    SplitJoinLines(RenderLines(es), eol);
    EntriesOfRenderLines(es);
  }

  /** Parsing is a normal form: re-rendering what was read and reading it
      again changes nothing. */
  lemma ParseRenderParse(text: string)
    ensures Parse(Render(Parse(text))) == Parse(text)
  {
    ParsedEntriesWellFormed(text);
    ParseRender(Parse(text));
  }
}
