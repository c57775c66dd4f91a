/** The Python `str` operations the playlist checker relies on, over Unicode
    code points: `isspace`, `strip`, `startswith`, `in`, `split(",", 1)[-1]`,
    `splitlines` and (for ASCII letters) `lower`.

    The functions are plain definitions; what each one computes is stated by
    the lemma that follows it, so that callers bring in only the facts they
    use. */
module PyStr {

  /** `c.isspace()`: the code points CPython treats as whitespace. */
  predicate IsSpace(c: char) {
    ('\U{9}' <= c <= '\U{D}') || ('\U{1C}' <= c <= '\U{20}') || c == '\U{85}' || c == '\U{A0}'
    || c == '\U{1680}' || ('\U{2000}' <= c <= '\U{200A}') || c == '\U{2028}' || c == '\U{2029}'
    || c == '\U{202F}' || c == '\U{205F}' || c == '\U{3000}'
  }

  /** The line boundaries recognised by `str.splitlines`. */
  predicate IsLineBreak(c: char) {
    c == '\n' || c == '\r' || c == '\U{B}' || c == '\U{C}' || ('\U{1C}' <= c <= '\U{1E}')
    || c == '\U{85}' || c == '\U{2028}' || c == '\U{2029}'
  }

  predicate AllSpace(s: string) {
    forall i :: 0 <= i < |s| ==> IsSpace(s[i])
  }

  /** Neither end of `s` is whitespace. */
  predicate Stripped(s: string) {
    s == [] || (!IsSpace(s[0]) && !IsSpace(s[|s| - 1]))
  }

  predicate NoLineBreak(s: string) {
    forall i :: 0 <= i < |s| ==> !IsLineBreak(s[i])
  }

  /** Printable ASCII holds no line boundary. */
  lemma PrintableNoLineBreak(s: string)
    requires forall i :: 0 <= i < |s| ==> ' ' <= s[i] <= '~'
    ensures NoLineBreak(s)
  {
  }

  /** `s.startswith(p)` */
  predicate StartsWith(s: string, p: string) {
    p <= s
  }

  /** `sub in s` for strings: `sub` occurs as a contiguous piece of `s`. */
  predicate Contains(s: string, sub: string)
    decreases |s|
  {
    sub <= s || (s != [] && Contains(s[1..], sub))
  }

  /** `sub in s` holds wherever `sub` starts, at any offset. */
  lemma {:induction false} ContainsAt(s: string, sub: string, i: nat)
    requires i <= |s| && sub <= s[i..]
    ensures Contains(s, sub)
  {
    if i > 0 {
      assert s[1..][i - 1..] == s[i..];
      ContainsAt(s[1..], sub, i - 1);
    }
  }

  /** Where `sub in s` holds, `sub` is found at some offset `i`. */
  lemma {:induction false} ContainsWitness(s: string, sub: string) returns (i: nat)
    requires Contains(s, sub)
    ensures i + |sub| <= |s| && forall k :: 0 <= k < |sub| ==> s[i + k] == sub[k]
    decreases |s|
  {
    if sub <= s {
      i := 0;
    } else {
      var j := ContainsWitness(s[1..], sub);
      i := j + 1;
    }
  }

  /** Every character of a contained string occurs in the container. */
  lemma ContainsChar(s: string, sub: string, k: nat)
    requires Contains(s, sub) && k < |sub|
    ensures sub[k] in s
  {
    var i := ContainsWitness(s, sub);
    assert s[i + k] == sub[k];
  }

  /** Nothing contains a longer string. */
  lemma {:induction false} ContainsNoLonger(s: string, sub: string)
    requires Contains(s, sub)
    ensures |sub| <= |s|
    decreases |s|
  {
    if !(sub <= s) {
      ContainsNoLonger(s[1..], sub);
    }
  }

  /** Whatever contains `p + q` contains `q`. */
  lemma {:induction false} ContainsSuffix(s: string, p: string, q: string)
    requires Contains(s, p + q)
    ensures Contains(s, q)
  {
    if p + q <= s {
      assert q <= s[|p|..] by {
        assert s[|p|..|p| + |q|] == (p + q)[|p|..];
      }
      ContainsAt(s, q, |p|);
    } else {
      ContainsSuffix(s[1..], p, q);
    }
  }

  /** `s.lstrip()` */
  function StripLeading(s: string): string
    decreases |s|
  {
    if s != [] && IsSpace(s[0]) then StripLeading(s[1..]) else s
  }

  /** `lstrip` drops a run of whitespace from the front and stops at the
      first other character. */
  lemma {:induction false} StripLeadingSpec(s: string)
    ensures var r := StripLeading(s);
      |r| <= |s| && r == s[|s| - |r|..] && AllSpace(s[..|s| - |r|]) && (r == [] || !IsSpace(r[0]))
    decreases |s|
  {
    if s != [] && IsSpace(s[0]) {
      StripLeadingSpec(s[1..]);
      var r := StripLeading(s[1..]);
      assert s[..|s| - |r|] == [s[0]] + s[1..][..|s| - 1 - |r|];
    }
  }

  /** `s.rstrip()` */
  function StripTrailing(s: string): string
    decreases |s|
  {
    if s != [] && IsSpace(s[|s| - 1]) then StripTrailing(s[..|s| - 1]) else s
  }

  /** `rstrip` drops a run of whitespace from the end and stops at the last
      other character. */
  lemma {:induction false} StripTrailingSpec(s: string)
    ensures var r := StripTrailing(s);
      |r| <= |s| && r == s[..|r|] && AllSpace(s[|r|..]) && (r == [] || !IsSpace(r[|r| - 1]))
    decreases |s|
  {
    if s != [] && IsSpace(s[|s| - 1]) {
      StripTrailingSpec(s[..|s| - 1]);
      var r := StripTrailing(s[..|s| - 1]);
      assert s[|r|..] == s[..|s| - 1][|r|..] + [s[|s| - 1]];
    }
  }

  /** `s.strip()` */
  function Strip(s: string): string {
    StripTrailing(StripLeading(s))
  }

  /** `strip` keeps the piece `s[lo..lo + |Strip(s)|]` of `s`, removing only
      whitespace around it; that piece has no whitespace at either end, and it
      is empty exactly when `s` is all whitespace. */
  lemma StripSpec(s: string) returns (lo: nat)
    ensures lo + |Strip(s)| <= |s| && Strip(s) == s[lo..lo + |Strip(s)|]
    ensures AllSpace(s[..lo]) && AllSpace(s[lo + |Strip(s)|..])
    ensures Stripped(Strip(s))
    ensures Strip(s) == [] <==> AllSpace(s)
  {
    var t := StripLeading(s);
    StripLeadingSpec(s);
    StripTrailingSpec(t);
    var r := StripTrailing(t);
    lo := |s| - |t|;
    assert s[lo..] == t;
    assert s[lo + |r|..] == t[|r|..];
    assert r == [] ==> s == s[..lo] + t;
  }

  /** A string without whitespace at its ends is its own `strip`. */
  lemma StripOfStripped(s: string)
    requires Stripped(s)
    ensures Strip(s) == s
  {
    if s != [] {
      assert StripLeading(s) == s;
      assert StripTrailing(s) == s;
    }
  }

  /** `strip` adds no character: a string without line boundaries stays so. */
  lemma StripNoLineBreak(s: string)
    requires NoLineBreak(s)
    ensures NoLineBreak(Strip(s))
  {
    var lo := StripSpec(s);
    assert forall i :: 0 <= i < |Strip(s)| ==> Strip(s)[i] == s[lo + i];
  }

  /** `s.split(",", 1)[-1]` */
  function AfterFirstComma(s: string): string {
    if ',' !in s then s
    else if s[0] == ',' then s[1..]
    else AfterFirstComma(s[1..])
  }

  /** A comma that is not the first character is in the tail. */
  lemma CommaInTail(s: string)
    requires ',' in s && s[0] != ','
    ensures ',' in s[1..]
  {
    var k :| 0 <= k < |s| && s[k] == ',';
    assert s[1..][k - 1] == ',';
  }

  /** `split(",", 1)[-1]` is everything after the first comma, at index `c`,
      or all of `s` when it holds no comma. */
  lemma {:induction false} AfterFirstCommaSpec(s: string) returns (c: nat)
    ensures ',' !in s ==> AfterFirstComma(s) == s
    ensures ',' in s ==> c < |s| && s[c] == ',' && AfterFirstComma(s) == s[c + 1..]
    ensures ',' in s ==> forall m :: 0 <= m < c ==> s[m] != ','
  {
    c := 0;
    if ',' in s && s[0] != ',' {
      CommaInTail(s);
      var t := s[1..];
      var c' := AfterFirstCommaSpec(t);
      c := c' + 1;
      assert AfterFirstComma(s) == AfterFirstComma(t);
      assert t[c' + 1..] == s[c + 1..];
      forall m | 0 < m < c ensures s[m] != ',' {
        assert s[m] == t[m - 1];
      }
    }
  }

  /** Text after a comma-free prefix and a comma is what `split(",", 1)[-1]`
      gives back. */
  lemma {:induction false} AfterFirstCommaOf(p: string, q: string)
    requires ',' !in p
    ensures AfterFirstComma(p + "," + q) == q
  {
    var s := p + "," + q;
    assert s[|p|] == ',';
    if p == [] {
      assert s[1..] == q;
    } else {
      assert s[1..] == p[1..] + "," + q;
      AfterFirstCommaOf(p[1..], q);
    }
  }

  /** Position of the first line boundary in `s`, or `|s|` if there is none. */
  function BreakIndex(s: string): (k: nat)
    ensures k <= |s|
    decreases |s|
  {
    if s == [] || IsLineBreak(s[0]) then 0 else 1 + BreakIndex(s[1..])
  }

  lemma {:induction false} BreakIndexSpec(s: string)
    ensures NoLineBreak(s[..BreakIndex(s)])
    ensures BreakIndex(s) < |s| ==> IsLineBreak(s[BreakIndex(s)])
    decreases |s|
  {
    if s != [] && !IsLineBreak(s[0]) {
      BreakIndexSpec(s[1..]);
      var k := BreakIndex(s);
      assert s[..k] == [s[0]] + s[1..][..k - 1];
    }
  }

  /** `s.splitlines()`: the lines of `s` without their terminators; "\r\n"
      ends one line, and a terminator at the very end opens no further line. */
  function SplitLines(s: string): seq<string>
    decreases |s|
  {
    if s == [] then []
    else
      var k := BreakIndex(s);
      if k == |s| then [s]
      else
        [s[..k]] + SplitLines(s[NextLine(s, k)..])
  }

  /** Where the line after a boundary at `k` starts: "\r\n" is one
      boundary. */
  function NextLine(s: string, k: nat): (n: nat)
    requires k < |s|
    ensures k < n <= |s|
  {
    if s[k] == '\r' && k + 1 < |s| && s[k + 1] == '\n' then k + 2 else k + 1
  }

  lemma SplitLinesStep(s: string)
    requires BreakIndex(s) < |s|
    ensures SplitLines(s) == [s[..BreakIndex(s)]] + SplitLines(s[NextLine(s, BreakIndex(s))..])
  {
  }

  /** No line that `splitlines` returns holds a line boundary, and there are
      no more lines than characters. */
  lemma {:induction false} SplitLinesSpec(s: string)
    ensures forall j :: 0 <= j < |SplitLines(s)| ==> NoLineBreak(SplitLines(s)[j])
    ensures |SplitLines(s)| <= |s|
    decreases |s|
  {
    if s != [] {
      var k := BreakIndex(s);
      BreakIndexSpec(s);
      if k < |s| {
        SplitLinesSpec(s[NextLine(s, k)..]);
      }
    }
  }

  /** A line terminator `splitlines` recognises: "\r\n" or one boundary
      character. */
  predicate IsTerminator(eol: string) {
    eol == "\r\n" || (|eol| == 1 && IsLineBreak(eol[0]))
  }

  /** What ends a line at a boundary is a terminator. */
  lemma TerminatorAt(s: string, k: nat)
    requires k < |s| && IsLineBreak(s[k])
    ensures IsTerminator(s[k..NextLine(s, k)])
  {
    if NextLine(s, k) == k + 2 {
      assert s[k..k + 2] == "\r\n";
    } else {
      assert s[k..k + 1] == [s[k]];
    }
  }

  /** Each line followed by its own terminator. */
  function Rejoin(lines: seq<string>, ends: seq<string>): string
    requires |lines| == |ends|
  {
    if lines == [] then [] else lines[0] + ends[0] + Rejoin(lines[1..], ends[1..])
  }

  lemma RejoinCons(l: string, e: string, lines: seq<string>, ends: seq<string>)
    requires |lines| == |ends|
    ensures Rejoin([l] + lines, [e] + ends) == l + e + Rejoin(lines, ends)
  {
    assert ([l] + lines)[1..] == lines && ([e] + ends)[1..] == ends;
  }

  /** Every line is ended by a terminator, except that the last may be ended
      by the end of the text. */
  predicate Terminated(ends: seq<string>) {
    (forall j :: 0 <= j < |ends| - 1 ==> IsTerminator(ends[j]))
    && (ends != [] ==> IsTerminator(ends[|ends| - 1]) || ends[|ends| - 1] == [])
  }

  lemma TerminatedCons(e: string, ends: seq<string>)
    requires IsTerminator(e) && Terminated(ends)
    ensures Terminated([e] + ends)
  {
    var all := [e] + ends;
    forall j | 0 < j < |all| ensures all[j] == ends[j - 1] { }
  }

  /** Text without a boundary is one line. */
  lemma SplitLinesWhole(s: string)
    requires s != [] && BreakIndex(s) == |s|
    ensures SplitLines(s) == [s]
  {
  }

  /** One step of `splitlines` seen from the other side: the first line, its
      terminator and the rejoined remaining lines give back `s`. */
  lemma RejoinStep(s: string, ends: seq<string>)
    requires BreakIndex(s) < |s|
    requires |ends| == |SplitLines(s[NextLine(s, BreakIndex(s))..])|
    requires Rejoin(SplitLines(s[NextLine(s, BreakIndex(s))..]), ends) == s[NextLine(s, BreakIndex(s))..]
    ensures |SplitLines(s)| == |ends| + 1
    ensures Rejoin(SplitLines(s), [s[BreakIndex(s)..NextLine(s, BreakIndex(s))]] + ends) == s
  {
    var k := BreakIndex(s);
    var n := NextLine(s, k);
    SplitLinesStep(s);
    RejoinCons(s[..k], s[k..n], SplitLines(s[n..]), ends);
    assert s == s[..k] + s[k..n] + s[n..];
  }

  /** `splitlines` cuts `s` into its lines and their terminators: each line
      followed by its terminator gives back `s`; every line but the last is
      ended by a terminator, and the last by one or by the end of `s`. */
  lemma {:induction false} SplitLinesRejoin(s: string) returns (ends: seq<string>)
    ensures |ends| == |SplitLines(s)| && Terminated(ends)
    ensures Rejoin(SplitLines(s), ends) == s
    decreases |s|
  {
    if s == [] {
      ends := [];
    } else if BreakIndex(s) == |s| {
      ends := [[]];
      SplitLinesWhole(s);
      RejoinCons(s, [], [], []);
    } else {
      var k := BreakIndex(s);
      BreakIndexSpec(s);
      TerminatorAt(s, k);
      var rest := SplitLinesRejoin(s[NextLine(s, k)..]);
      ends := [s[k..NextLine(s, k)]] + rest;
      TerminatedCons(s[k..NextLine(s, k)], rest);
      RejoinStep(s, rest);
    }
  }

  /** Lines written one after the other, each ended by `eol`. */
  function JoinLines(lines: seq<string>, eol: string): string {
    if lines == [] then [] else lines[0] + eol + JoinLines(lines[1..], eol)
  }

  /** The first boundary of `l + t` is where `t` starts, when `l` has none
      and `t` opens with one. */
  lemma {:induction false} BreakIndexAfter(l: string, t: string)
    requires NoLineBreak(l) && t != [] && IsLineBreak(t[0])
    ensures BreakIndex(l + t) == |l|
  {
    if l != [] {
      assert (l + t)[1..] == l[1..] + t;
      BreakIndexAfter(l[1..], t);
    }
  }

  /** Joined lines free of boundaries start with "\n" only if the
      terminator does. */
  lemma JoinLinesHead(lines: seq<string>, eol: string)
    requires forall j :: 0 <= j < |lines| ==> NoLineBreak(lines[j])
    requires IsTerminator(eol) && eol[0] != '\n'
    ensures JoinLines(lines, eol) == [] || JoinLines(lines, eol)[0] != '\n'
  {
    if lines != [] && lines[0] != [] {
      assert JoinLines(lines, eol)[0] == lines[0][0];
    }
  }

  /** After a line free of boundaries and a terminator, the next line starts
      right after the terminator, provided a lone "\r" is not followed by
      "\n". */
  lemma NextLineAfter(l: string, eol: string, rest: string)
    requires NoLineBreak(l) && IsTerminator(eol)
    requires eol == "\r" ==> rest == [] || rest[0] != '\n'
    ensures |l| < |l + eol + rest| && NextLine(l + eol + rest, |l|) == |l| + |eol|
  {
    var s := l + eol + rest;
    if eol == "\r\n" {
      assert s[|l|] == '\r' && s[|l| + 1] == '\n';
    } else if rest != [] {
      assert s[|l| + 1] == rest[0];
    }
  }

  /** One step of `splitlines` over a line, its terminator and the rest. */
  lemma SplitLinesCons(l: string, eol: string, rest: string)
    requires NoLineBreak(l) && IsTerminator(eol)
    requires eol == "\r" ==> rest == [] || rest[0] != '\n'
    ensures SplitLines(l + eol + rest) == [l] + SplitLines(rest)
  {
    var s := l + eol + rest;
    assert s == l + (eol + rest);
    BreakIndexAfter(l, eol + rest);
    NextLineAfter(l, eol, rest);
    SplitLinesStep(s);
    assert s[..|l|] == l;
    assert s[|l| + |eol|..] == rest;
  }

  /** `splitlines` undoes `JoinLines` when no line holds a line boundary,
      whichever terminator joins them; in particular "\r\n" ends one line,
      not two. */
  lemma {:induction false} SplitJoinLines(lines: seq<string>, eol: string)
    requires forall j :: 0 <= j < |lines| ==> NoLineBreak(lines[j])
    requires IsTerminator(eol)
    ensures SplitLines(JoinLines(lines, eol)) == lines
  {
    if lines != [] {
      var tail := lines[1..];
      assert forall j :: 0 <= j < |tail| ==> NoLineBreak(tail[j]) by {
        forall j | 0 <= j < |tail| ensures NoLineBreak(tail[j]) {
          assert tail[j] == lines[j + 1];
        }
      }
      var rest := JoinLines(tail, eol);
      assert JoinLines(lines, eol) == lines[0] + eol + rest;
      if eol[0] != '\n' {
        JoinLinesHead(tail, eol);
      }
      SplitLinesCons(lines[0], eol, rest);
      SplitJoinLines(tail, eol);
      assert lines == [lines[0]] + tail;
    }
  }

  predicate IsAsciiUpper(c: char) {
    'A' <= c <= 'Z'
  }

  /** No ASCII capital letter occurs in `s`. */
  predicate IsLower(s: string) {
    forall i :: 0 <= i < |s| ==> !IsAsciiUpper(s[i])
  }

  function LowerChar(c: char): char {
    if IsAsciiUpper(c) then (c as int + 32) as char else c
  }

  /** `s.lower()`, for ASCII letters. */
  function Lower(s: string): (r: string)
    ensures |r| == |s|
  {
    seq(|s|, i requires 0 <= i < |s| => LowerChar(s[i]))
  }

  /** `lower` leaves no capital letter, changes only capital letters, each to
      its small letter, and a second `lower` changes nothing. */
  lemma LowerSpec(s: string)
    ensures IsLower(Lower(s))
    ensures forall i :: 0 <= i < |s| && !IsAsciiUpper(s[i]) ==> Lower(s)[i] == s[i]
    ensures forall i :: 0 <= i < |s| && IsAsciiUpper(s[i]) ==> Lower(s)[i] as int == s[i] as int + 32
    ensures Lower(Lower(s)) == Lower(s)
  {
  }

  /** `lower` keeps a lower-case piece of its argument. */
  lemma LowerKeepsPiece(s: string, i: nat, sub: string)
    requires i + |sub| <= |s| && s[i..i + |sub|] == sub && IsLower(sub)
    ensures Lower(s)[i..i + |sub|] == sub
  {
    LowerSpec(s);
    forall k | 0 <= k < |sub| ensures Lower(s)[i + k] == sub[k] {
      assert s[i + k] == sub[k];
    }
  }
}
