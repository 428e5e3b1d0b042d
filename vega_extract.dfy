/**
 * The chart-spec extractor: given the whole text streamed so far, pick one
 * candidate JSON text (the last closed ```json fenced block, otherwise the
 * last top-level brace region), parse it and check that it has the shape of
 * a Vega-Lite spec.
 */
module VegaExtract {
  import opened Wrappers
  import opened JsonValue
  import opened JsText

  datatype Source = Fenced | Braces

  datatype FailReason = NotFound | InvalidJson | InvalidSchema

  /** The `VegaExtractResult` union: `ok: true` is `Found`, `ok: false` is `Failed`. */
  datatype VegaExtractResult =
    | Found(spec: Json, raw: string, source: Source)
    | Failed(reason: FailReason, error: Option<string>)

  const SchemaError := "Spec missing required fields: mark/encoding"

  /** The shape check: an object with `mark` and an `encoding` that is a non-null object (an array passes). */
  function IsValidVegaLite(spec: Json): (ok: bool)
    ensures ok <==> spec.JObject? && "mark" in spec.fields && "encoding" in spec.fields
                    && (spec.fields["encoding"].JObject? || spec.fields["encoding"].JArray?)
  {
    if !Truthy(spec) || !TypeofObject(spec) then false
    else if Member(spec, "mark").None? then false
    else if Member(spec, "encoding").None? then false
    else
      var encoding := Member(spec, "encoding").value;
      if !TypeofObject(encoding) || encoding.JNull? then false
      else true
  }

  // ---------------------------------------------------------------------------
  // Fenced search: the global regular expression /```json\s*([\s\S]*?)\s*```/gi
  // ---------------------------------------------------------------------------

  /**
   * One match of the pattern: it starts at `start`, capture group 1 is
   * text[capStart..capEnd] and the match ends (exclusive) at `end`.
   */
  datatype FenceMatch = FenceMatch(start: nat, capStart: nat, capEnd: nat, end: nat)

  /** "```json" at p, the tag compared case-insensitively (for these letters only ASCII folds to them). */
  predicate OpensAt(text: string, p: nat) {
    p + 7 <= |text|
    && text[p] == '`' && text[p + 1] == '`' && text[p + 2] == '`'
    && AsciiLower(text[p + 3]) == 'j' && AsciiLower(text[p + 4]) == 's'
    && AsciiLower(text[p + 5]) == 'o' && AsciiLower(text[p + 6]) == 'n'
  }

  /** The tag matches in its sixteen ASCII case spellings, "json" to "JSON", and in no other. */
  lemma OpensAtSpellings(text: string, p: nat)
    ensures OpensAt(text, p) <==>
      && p + 7 <= |text| && text[p..p + 3] == "```"
      && text[p + 3] in "jJ" && text[p + 4] in "sS" && text[p + 5] in "oO" && text[p + 6] in "nN"
  {
    if p + 7 <= |text| {
      TagLetterFolding(text[p + 3]);
      TagLetterFolding(text[p + 4]);
      TagLetterFolding(text[p + 5]);
      TagLetterFolding(text[p + 6]);
    }
  }

  /** U+017F (long s) does not match `s`: the pattern has no `u` flag, so only ASCII letters fold. */
  lemma LongSDoesNotOpen()
    ensures !OpensAt("```j\U{017F}on", 0)
  {
  }

  /** "```" at j. */
  predicate FenceAt(text: string, j: nat) {
    j + 3 <= |text| && text[j] == '`' && text[j + 1] == '`' && text[j + 2] == '`'
  }

  /** The end of the whitespace run starting at j: what a greedy `\s*` takes first. */
  function SkipWs(text: string, j: nat): (k: nat)
    requires j <= |text|
    ensures j <= k <= |text| && AllWs(text, j, k)
    ensures k == |text| || !IsWs(text[k])
    decreases |text| - j
  {
    if j < |text| && IsWs(text[j]) then SkipWs(text, j + 1) else j
  }

  /** The first "```" at or after j. */
  function FindFence(text: string, j: nat): (r: Option<nat>)
    requires j <= |text|
    ensures r.Some? ==> j <= r.value && FenceAt(text, r.value)
    decreases |text| - j
  {
    if j + 3 > |text| then None
    else if FenceAt(text, j) then Some(j)
    else FindFence(text, j + 1)
  }

  /** No "```" starts between j and the one FindFence returns, and none at all when it returns nothing. */
  lemma {:induction false} FindFenceIsFirst(text: string, j: nat)
    requires j <= |text|
    ensures FindFence(text, j).Some? ==> forall i :: j <= i < FindFence(text, j).value ==> !FenceAt(text, i)
    ensures FindFence(text, j).None? ==> forall i :: j <= i ==> !FenceAt(text, i)
    decreases |text| - j
  {
    if j + 3 <= |text| && !FenceAt(text, j) {
      FindFenceIsFirst(text, j + 1);
    }
  }

  /** A "```" at e with no backquote between j and e is the one FindFence returns. */
  lemma {:induction false} FindFenceReaches(text: string, j: nat, e: nat)
    requires j <= e && FenceAt(text, e)
    requires forall i :: j <= i < e ==> text[i] != '`'
    ensures FindFence(text, j) == Some(e)
    decreases e - j
  {
    if j < e {
      FindFenceReaches(text, j + 1, e);
    }
  }

  /** The start of the whitespace run that ends at hi, not going below lo. */
  function TrimWsBack(text: string, lo: nat, hi: nat): (d: nat)
    requires lo <= hi <= |text|
    ensures lo <= d <= hi && AllWs(text, d, hi)
    ensures d == lo || !IsWs(text[d - 1])
    decreases hi - lo
  {
    if lo < hi && IsWs(text[hi - 1]) then TrimWsBack(text, lo, hi - 1) else hi
  }

  /** The match of the pattern that begins exactly at p, if there is one. */
  function MatchAt(text: string, p: nat): (r: Option<FenceMatch>)
    ensures r.Some? ==> r.value.start == p && OpensAt(text, p)
    ensures r.Some? ==> p + 7 <= r.value.capStart <= r.value.capEnd && r.value.capEnd + 3 <= r.value.end <= |text|
  {
    if !OpensAt(text, p) then None
    else
      var g := SkipWs(text, p + 7);
      match FindFence(text, g)
      case None => None
      case Some(e) => Some(FenceMatch(p, g, TrimWsBack(text, g, e), e + 3))
  }

  /**
   * One way the pattern can match at p: the first `\s*` takes k characters,
   * the lazy group l characters, the second `\s*` m characters, then "```".
   */
  ghost predicate IsWay(text: string, p: nat, k: nat, l: nat, m: nat) {
    OpensAt(text, p) && p + 7 + k + l + m + 3 <= |text|
    && AllWs(text, p + 7, p + 7 + k)
    && AllWs(text, p + 7 + k + l, p + 7 + k + l + m)
    && FenceAt(text, p + 7 + k + l + m)
  }

  /**
   * The order in which a backtracking ECMAScript matcher tries the ways:
   * a greedy quantifier longest first, the lazy group shortest first.
   */
  predicate TriedBefore(k: nat, l: nat, m: nat, k2: nat, l2: nat, m2: nat) {
    k > k2 || (k == k2 && (l < l2 || (l == l2 && m > m2)))
  }

  /** (k, l, m) is a way to match at p, and no way tried before it succeeds. */
  ghost predicate IsFirstWay(text: string, p: nat, k: nat, l: nat, m: nat) {
    IsWay(text, p, k, l, m)
    && forall k2, l2, m2 :: IsWay(text, p, k2, l2, m2) ==> !TriedBefore(k2, l2, m2, k, l, m)
  }

  /** MatchAt is what the regular-expression engine returns at p: the first way it tries that succeeds. */
  lemma {:induction false} MatchAtIsFirstWay(text: string, p: nat)
    ensures MatchAt(text, p).None? <==> forall k, l, m :: !IsWay(text, p, k, l, m)
    ensures MatchAt(text, p).Some? ==>
      var r := MatchAt(text, p).value;
      IsFirstWay(text, p, r.capStart - (p + 7), r.capEnd - r.capStart, r.end - 3 - r.capEnd)
  {
    if OpensAt(text, p) {
      var q := p + 7;
      var g := SkipWs(text, q);
      FindFenceIsFirst(text, g);
      // No way can take more than the whitespace run, and no fence starts inside it.
      forall k2: nat, l2: nat, m2: nat | IsWay(text, p, k2, l2, m2)
        ensures q + k2 <= g && g <= q + k2 + l2 + m2
        ensures FindFence(text, g).Some? && FindFence(text, g).value <= q + k2 + l2 + m2
      {
      }
      match FindFence(text, g)
      case None =>
      case Some(e) =>
        var d := TrimWsBack(text, g, e);
        assert IsWay(text, p, g - q, d - g, e - d);
        forall k2: nat, l2: nat, m2: nat | IsWay(text, p, k2, l2, m2) && k2 == g - q
          ensures l2 >= d - g && (l2 == d - g ==> m2 == e - d)
        {
        }
    }
  }

  /** `re.exec(text)` with `re.lastIndex == from`: the leftmost match starting at or after `from`. */
  function Exec(text: string, from: nat): (r: Option<FenceMatch>)
    requires from <= |text|
    ensures r.Some? ==> from <= r.value.start && MatchAt(text, r.value.start) == r
    decreases |text| - from
  {
    if from == |text| then None
    else
      match MatchAt(text, from)
      case Some(m) => Some(m)
      case None => Exec(text, from + 1)
  }

  /** The pattern does not match at p when p lies at or after `from` and before what exec returns from there. */
  lemma {:induction false} ExecSkipsTo(text: string, from: nat, p: nat)
    requires from <= |text|
    ensures from <= p && (Exec(text, from).None? || p < Exec(text, from).value.start) ==> MatchAt(text, p).None?
    decreases |text| - from
  {
    if from == |text| {
      if from <= p {
        assert !OpensAt(text, p);
      }
    } else if MatchAt(text, from).None? {
      assert Exec(text, from) == Exec(text, from + 1);
      if p > from {
        ExecSkipsTo(text, from + 1, p);
      }
    }
  }

  /** exec finds the leftmost match: the pattern matches nowhere between `from` and the match it returns, and nowhere at all when it returns null. */
  lemma ExecIsLeftmost(text: string, from: nat)
    requires from <= |text|
    ensures Exec(text, from).Some? ==> forall p :: from <= p < Exec(text, from).value.start ==> MatchAt(text, p).None?
    ensures Exec(text, from).None? ==> forall p :: from <= p ==> MatchAt(text, p).None?
  {
    forall p: nat
      ensures from <= p && (Exec(text, from).None? || p < Exec(text, from).value.start) ==> MatchAt(text, p).None?
    {
      ExecSkipsTo(text, from, p);
    }
  }

  /**
   * The last match of the global search resumed at `from`, where `last` is
   * the match found before (null when the search starts): each search
   * resumes at the previous match's end.
   */
  function LastMatchFrom(text: string, from: nat, last: Option<FenceMatch>): (r: Option<FenceMatch>)
    requires from <= |text|
    ensures last.Some? ==> r.Some?
    ensures r.Some? && r != last ==> from <= r.value.start && MatchAt(text, r.value.start) == r
    decreases |text| - from
  {
    match Exec(text, from)
    case None => last
    case Some(m) => LastMatchFrom(text, m.end, Some(m))
  }

  /** The value `extractFromFencedJson` returns: group 1 of the last match, or null. */
  function FencedJson(text: string): Option<string> {
    var r := LastMatchFrom(text, 0, None);
    if r.None? then None else Some(text[r.value.capStart..r.value.capEnd])
  }

  method ExtractFromFencedJson(text: string) returns (r: Option<string>)
    ensures r == FencedJson(text)
  {
    var lastIndex: nat := 0;
    var last: Option<FenceMatch> := None;
    var m := Exec(text, lastIndex);
    while m.Some?
      invariant lastIndex <= |text| && m == Exec(text, lastIndex)
      invariant LastMatchFrom(text, lastIndex, last) == LastMatchFrom(text, 0, None)
      invariant last.Some? ==> MatchAt(text, last.value.start) == last
      decreases |text| - lastIndex
    {
      last := m;
      lastIndex := m.value.end;
      m := Exec(text, lastIndex);
    }
    if last.Some? {
      r := Some(text[last.value.capStart..last.value.capEnd]);
    } else {
      r := None;
    }
  }

  /** The last match of a global search is final: searching on from its end finds nothing. */
  lemma {:induction false} LastMatchIsFinal(text: string, from: nat, last: Option<FenceMatch>)
    requires from <= |text| && (last.Some? ==> last.value.end == from)
    ensures var r := LastMatchFrom(text, from, last);
      r.Some? ==> r.value.end <= |text| && Exec(text, r.value.end).None?
    decreases |text| - from
  {
    var m := Exec(text, from);
    if m.Some? {
      LastMatchIsFinal(text, m.value.end, m);
    }
  }

  /** The fenced search finds nothing exactly when the pattern matches at no position. */
  lemma FencedJsonNone(text: string)
    ensures FencedJson(text).None? <==> forall p :: MatchAt(text, p).None?
  {
    ExecIsLeftmost(text, 0);
  }

  /** r is a match of the pattern, and the pattern matches nowhere at or after its end. */
  ghost predicate IsFinalMatch(text: string, r: FenceMatch) {
    MatchAt(text, r.start) == Some(r) && forall p :: r.end <= p ==> MatchAt(text, p).None?
  }

  /**
   * A fenced result is the capture of a real match after which the pattern
   * matches nowhere, with its surrounding whitespace removed. That match is
   * the last one of the global search, which need not be the last opening
   * "```json": a match runs to the first closing "```" after its opener,
   * and any opener inside it is part of its capture. When matches overlap
   * this does not single out the match: in "```json```json x ```" both the
   * match at 0 and the one at 7 end at the last fence. LastMatchFrom and
   * ExtractFromFencedJson fix which one the search returns.
   */
  lemma FencedJsonIsLastMatch(text: string)
    requires FencedJson(text).Some?
    ensures exists r: FenceMatch :: IsFinalMatch(text, r) && FencedJson(text) == Some(text[r.capStart..r.capEnd])
  {
    var r := LastMatchFrom(text, 0, None).value;
    LastMatchIsFinal(text, 0, None);
    ExecIsLeftmost(text, r.end);
    assert IsFinalMatch(text, r);
  }

  /** A capture never starts or ends with whitespace, so trimming it changes nothing. */
  lemma CaptureIsTrimmed(text: string, p: nat)
    requires MatchAt(text, p).Some?
    ensures var r := MatchAt(text, p).value; Trim(text[r.capStart..r.capEnd]) == text[r.capStart..r.capEnd]
  {
    var r := MatchAt(text, p).value;
    var c := text[r.capStart..r.capEnd];
    if c != [] {
      assert c[0] == text[r.capStart];
      assert c[|c| - 1] == text[r.capEnd - 1];
    }
    TrimUnchanged(c);
  }

  lemma FencedJsonIsTrimmed(text: string)
    requires FencedJson(text).Some?
    ensures Trim(FencedJson(text).value) == FencedJson(text).value
  {
    var r := LastMatchFrom(text, 0, None).value;
    CaptureIsTrimmed(text, r.start);
  }

  /** A reply that is exactly one block: "```json", a newline, the body, a newline, "```". */
  function FencedBlock(body: string): string {
    "```json\n" + body + "\n```"
  }

  /** A body without backquotes and without whitespace at either end comes back out of its block unchanged. */
  lemma FencedBlockRoundTrip(body: string)
    requires |body| > 0 && !IsWs(body[0]) && !IsWs(body[|body| - 1])
    requires forall i :: 0 <= i < |body| ==> body[i] != '`'
    ensures FencedJson(FencedBlock(body)) == Some(body)
  {
    var t := FencedBlock(body);
    var n := |body|;
    assert |t| == n + 12;
    assert forall i :: 8 <= i < 8 + n ==> t[i] == body[i - 8];
    assert t[7] == '\n' && t[8 + n] == '\n';
    assert OpensAt(t, 0);
    assert SkipWs(t, 8) == 8;
    assert SkipWs(t, 7) == 8;
    FindFenceReaches(t, 8, n + 9);
    assert TrimWsBack(t, 8, n + 8) == n + 8;
    assert TrimWsBack(t, 8, n + 9) == n + 8;
    var m := FenceMatch(0, 8, n + 8, n + 12);
    assert MatchAt(t, 0) == Some(m);
    assert Exec(t, 0) == Some(m);
    assert Exec(t, n + 12) == None;
    assert LastMatchFrom(t, n + 12, Some(m)) == Some(m);
    assert t[8..n + 8] == body;
  }

  // ---------------------------------------------------------------------------
  // Brace scan
  // ---------------------------------------------------------------------------

  /** A candidate region text[start..end]. */
  datatype Span = Span(start: nat, end: nat)

  /** The scan's variables: `inString`, `escape`, the `stack` of open-brace offsets and the `candidates`. */
  datatype ScanState = ScanState(inString: bool, escape: bool, stack: seq<nat>, candidates: seq<Span>)

  /** What one iteration of the scan loop does with character ch at offset i. */
  function ScanStep(st: ScanState, ch: char, i: nat): ScanState {
    if st.escape then st.(escape := false)
    else if ch == '\\' then (if st.inString then st.(escape := true) else st)
    else if ch == '"' then st.(inString := !st.inString)
    else if st.inString then st
    else if ch == '{' then st.(stack := st.stack + [i])
    else if ch == '}' then
      if |st.stack| == 0 then st
      else
        var start := st.stack[|st.stack| - 1];
        var rest := st.stack[..|st.stack| - 1];
        st.(stack := rest, candidates := if rest == [] then st.candidates + [Span(start, i + 1)] else st.candidates)
    else st
  }

  /** The scan's variables after the first n characters. */
  function Scan(text: string, n: nat): ScanState
    requires n <= |text|
  {
    if n == 0 then ScanState(false, false, [], [])
    else ScanStep(Scan(text, n - 1), text[n - 1], n - 1)
  }

  /** A `}` read outside a string with nothing open closes nothing and records nothing. */
  lemma UnmatchedCloseIgnored(text: string, i: nat)
    requires i < |text| && text[i] == '}'
    requires !Scan(text, i).escape && !Scan(text, i).inString && Scan(text, i).stack == []
    ensures Scan(text, i + 1) == Scan(text, i)
  {
  }

  /** Everything the scan has stacked or recorded lies within the characters it has read. */
  lemma {:induction false} ScanBounds(text: string, n: nat)
    requires n <= |text|
    ensures forall k :: 0 <= k < |Scan(text, n).stack| ==> Scan(text, n).stack[k] < n
    ensures forall j :: 0 <= j < |Scan(text, n).candidates| ==>
      Scan(text, n).candidates[j].start < Scan(text, n).candidates[j].end <= n
  {
    if n > 0 {
      ScanBounds(text, n - 1);
    }
  }

  /** The value `extractLastJSONObjectByBraces` returns: the last candidate's slice, or null. */
  function BraceCandidate(text: string): Option<string> {
    ScanBounds(text, |text|);
    var cs := Scan(text, |text|).candidates;
    if cs == [] then None
    else
      var last := cs[|cs| - 1];
      Some(text[last.start..last.end])
  }

  method ExtractLastJsonObjectByBraces(text: string) returns (r: Option<string>)
    ensures r == BraceCandidate(text)
  {
    var inString := false;
    var escape := false;
    var candidates: seq<Span> := [];
    var stack: seq<nat> := [];
    for i := 0 to |text|
      invariant ScanState(inString, escape, stack, candidates) == Scan(text, i)
    {
      var ch := text[i];
      if escape {
        escape := false;
      } else if ch == '\\' {
        if inString {
          escape := true;
        }
      } else if ch == '"' {
        inString := !inString;
      } else if !inString {
        if ch == '{' {
          stack := stack + [i];
        } else if ch == '}' {
          if |stack| > 0 {
            var start := stack[|stack| - 1];
            stack := stack[..|stack| - 1];
            if |stack| == 0 {
              candidates := candidates + [Span(start, i + 1)];
            }
          }
        }
      }
    }
    ScanBounds(text, |text|);
    if |candidates| == 0 {
      r := None;
    } else {
      var last := candidates[|candidates| - 1];
      r := Some(text[last.start..last.end]);
    }
  }

  /** text[i] is a structural `}` that empties the stack: a top-level region closes there. */
  predicate ClosesTopLevel(text: string, i: nat)
    requires i < |text|
  {
    var st := Scan(text, i);
    !st.escape && !st.inString && text[i] == '}' && |st.stack| == 1
  }

  /** The escape flag is only ever set inside a string. */
  lemma {:induction false} EscapeOnlyInString(text: string, n: nat)
    requires n <= |text|
    ensures Scan(text, n).escape ==> Scan(text, n).inString
  {
    if n > 0 {
      EscapeOnlyInString(text, n - 1);
    }
  }

  /**
   * Entry k of a stack is a structural `{`: the scan held exactly the entries
   * below it just before reading it, and pushed it on reading it.
   */
  ghost predicate OpenEntry(text: string, stack: seq<nat>, k: nat) {
    k < |stack| && stack[k] < |text| && text[stack[k]] == '{'
    && Scan(text, stack[k]).stack == stack[..k]
    && Scan(text, stack[k] + 1).stack == stack[..k + 1]
  }

  /** Every entry of the stack after n characters is an open entry. */
  lemma {:induction false} StackEntriesAreOpen(text: string, n: nat)
    requires n <= |text|
    ensures forall k :: 0 <= k < |Scan(text, n).stack| ==> OpenEntry(text, Scan(text, n).stack, k)
  {
    if n > 0 {
      StackEntriesAreOpen(text, n - 1);
      var prev := Scan(text, n - 1);
      var st := Scan(text, n);
      var ch := text[n - 1];
      assert st == ScanStep(prev, ch, n - 1);
      if !prev.escape && ch != '\\' && ch != '"' && !prev.inString && ch == '{' {
        assert st.stack == prev.stack + [n - 1];
        forall k | 0 <= k < |st.stack|
          ensures OpenEntry(text, st.stack, k)
        {
          if k < |prev.stack| {
            assert OpenEntry(text, prev.stack, k);
            assert st.stack[..k] == prev.stack[..k];
            assert st.stack[..k + 1] == prev.stack[..k + 1];
          } else {
            assert st.stack[..k] == prev.stack;
            assert st.stack[..k + 1] == st.stack;
          }
        }
      } else if !prev.escape && ch != '\\' && ch != '"' && !prev.inString && ch == '}' && |prev.stack| > 0 {
        assert st.stack == prev.stack[..|prev.stack| - 1];
        forall k | 0 <= k < |st.stack|
          ensures OpenEntry(text, st.stack, k)
        {
          assert OpenEntry(text, prev.stack, k);
          assert st.stack[..k] == prev.stack[..k];
          assert st.stack[..k + 1] == prev.stack[..k + 1];
        }
      } else {
        assert st.stack == prev.stack;
      }
    }
  }

  /** Reading character n - 1 records a candidate exactly when a top-level region closes there. */
  lemma CandidatesStep(text: string, n: nat)
    requires 0 < n <= |text|
    ensures var prev := Scan(text, n - 1);
      Scan(text, n).candidates ==
        if ClosesTopLevel(text, n - 1) then prev.candidates + [Span(prev.stack[0], n)] else prev.candidates
  {
    assert Scan(text, n) == ScanStep(Scan(text, n - 1), text[n - 1], n - 1);
  }

  /**
   * A candidate exists exactly when some top-level region has closed, and
   * the last candidate is the region that closed last.
   */
  lemma {:induction false} LastCandidateClosedLast(text: string, n: nat)
    requires n <= |text|
    ensures Scan(text, n).candidates == [] <==> forall i :: 0 <= i < n ==> !ClosesTopLevel(text, i)
    ensures Scan(text, n).candidates != [] ==>
      var c := Scan(text, n).candidates[|Scan(text, n).candidates| - 1];
      && 0 < c.end <= n && ClosesTopLevel(text, c.end - 1)
      && c.start == Scan(text, c.end - 1).stack[0]
      && forall i :: c.end <= i < n ==> !ClosesTopLevel(text, i)
  {
    NoCandidatesUntil(text, n);
    LastCandidateIsLast(text, n);
  }

  /** No candidate has been recorded exactly when no top-level region has closed yet. */
  lemma {:induction false} NoCandidatesUntil(text: string, n: nat)
    requires n <= |text|
    ensures Scan(text, n).candidates == [] <==> forall i :: 0 <= i < n ==> !ClosesTopLevel(text, i)
  {
    if n > 0 {
      NoCandidatesUntil(text, n - 1);
      CandidatesStep(text, n);
    }
  }

  /** The last candidate recorded is the region that closed last. */
  lemma {:induction false} LastCandidateIsLast(text: string, n: nat)
    requires n <= |text|
    ensures Scan(text, n).candidates != [] ==>
      var c := Scan(text, n).candidates[|Scan(text, n).candidates| - 1];
      && 0 < c.end <= n && ClosesTopLevel(text, c.end - 1)
      && c.start == Scan(text, c.end - 1).stack[0]
      && forall i :: c.end <= i < n ==> !ClosesTopLevel(text, i)
  {
    if n > 0 {
      LastCandidateIsLast(text, n - 1);
      CandidatesStep(text, n);
      var prev := Scan(text, n - 1).candidates;
      var cs := Scan(text, n).candidates;
      if ClosesTopLevel(text, n - 1) {
        var c := Span(Scan(text, n - 1).stack[0], n);
        assert cs == prev + [c];
        assert cs[|cs| - 1] == c;
      } else {
        assert cs == prev;
      }
    }
  }

  /**
   * text[s..e] is a top-level region that closes last: it opens with a `{`
   * that takes the stack from empty to one entry, it ends with the `}` that
   * empties it again, and no top-level region closes after it.
   */
  ghost predicate IsLastRegion(text: string, s: nat, e: nat) {
    s < e <= |text|
    && text[s] == '{' && text[e - 1] == '}'
    && Scan(text, s).stack == [] && Scan(text, s + 1).stack == [s]
    && Scan(text, e - 1).stack == [s]
    && ClosesTopLevel(text, e - 1) && Scan(text, e).stack == []
    && forall i :: e <= i < |text| ==> !ClosesTopLevel(text, i)
  }

  /**
   * A top-level region closing at i opened at the bottom stack entry s: a
   * structural `{` read on an empty stack, and reading the `}` empties it.
   */
  lemma TopLevelRegion(text: string, i: nat)
    requires i < |text| && ClosesTopLevel(text, i)
    ensures var s := Scan(text, i).stack[0];
      && s < i && text[s] == '{' && Scan(text, s).stack == [] && Scan(text, s + 1).stack == [s]
      && Scan(text, i + 1).stack == []
  {
    var before := Scan(text, i);
    StackEntriesAreOpen(text, i);
    ScanBounds(text, i);
    assert OpenEntry(text, before.stack, 0);
    assert before.stack[..0] == [] && before.stack[..1] == before.stack;
    assert Scan(text, i + 1) == ScanStep(before, text[i], i);
  }

  /**
   * The brace scan's answer is the last top-level region to close, and with
   * no such region the answer is null.
   */
  lemma BraceCandidateIsLastRegion(text: string)
    ensures BraceCandidate(text).None? <==> forall i :: 0 <= i < |text| ==> !ClosesTopLevel(text, i)
    ensures BraceCandidate(text).Some? ==>
      exists s: nat, e: nat :: IsLastRegion(text, s, e) && BraceCandidate(text) == Some(text[s..e])
  {
    LastCandidateClosedLast(text, |text|);
    var cs := Scan(text, |text|).candidates;
    if cs != [] {
      var c := cs[|cs| - 1];
      var i := c.end - 1;
      TopLevelRegion(text, i);
      var open := Scan(text, i).stack;
      assert |open| == 1 && open[0] == c.start;
      assert open == [c.start];
      assert c.end == i + 1;
      assert IsLastRegion(text, c.start, c.end);
    }
  }

  /** Braces inside a string literal are text: they leave the stack and the candidates alone. */
  lemma BracesInStringsAreLiteral(text: string, i: nat)
    requires i < |text| && Scan(text, i).inString && (text[i] == '{' || text[i] == '}')
    ensures Scan(text, i + 1).stack == Scan(text, i).stack
    ensures Scan(text, i + 1).candidates == Scan(text, i).candidates
    ensures Scan(text, i + 1).inString
  {
  }

  /** A backslash outside a string is skipped and escapes nothing. */
  lemma BackslashOutsideString(st: ScanState, i: nat)
    requires !st.escape && !st.inString
    ensures ScanStep(st, '\\', i) == st
  {
  }

  /** Inside a string a backslash makes the scan skip the next character, whatever it is (a quote included). */
  lemma BackslashEscapesNext(st: ScanState, ch: char, i: nat)
    requires !st.escape && st.inString
    ensures ScanStep(ScanStep(st, '\\', i), ch, i + 1) == st
  {
  }

  // ---------------------------------------------------------------------------
  // tryExtractVegaSpec
  // ---------------------------------------------------------------------------

  /** `fenced ?? extractLastJSONObjectByBraces(text)`: only a null fenced result falls back. */
  function Candidate(text: string): Option<string> {
    var fenced := FencedJson(text);
    if fenced.Some? then fenced else BraceCandidate(text)
  }

  /** The outcome once the fenced capture and the chosen candidate are known: trim, parse, validate. */
  function Decide(parse: Parser, fenced: Option<string>, candidate: Option<string>): (r: VegaExtractResult)
    ensures r.Found? ==> parse(r.raw) == Parsed(r.spec) && IsValidVegaLite(r.spec) && r.raw != []
  {
    if candidate.None? || Trim(candidate.value) == [] then Failed(NotFound, None)
    else
      var raw := Trim(candidate.value);
      match parse(raw)
      case SyntaxError(message) => Failed(InvalidJson, Some(message))
      case Parsed(parsed) =>
        if !IsValidVegaLite(parsed) then Failed(InvalidSchema, Some(SchemaError))
        else Found(parsed, raw, if fenced.Some? && fenced.value != [] then Fenced else Braces)
  }

  function TryExtractVegaSpec(parse: Parser, fullText: string): (r: VegaExtractResult)
    ensures r.Found? ==> parse(r.raw) == Parsed(r.spec) && IsValidVegaLite(r.spec) && r.raw != []
  {
    Decide(parse, FencedJson(fullText), Candidate(fullText))
  }

  /** Every candidate is already trimmed: a fenced capture has no outer whitespace, a brace region starts with `{` and ends with `}`. */
  lemma CandidateIsTrimmed(text: string)
    requires Candidate(text).Some?
    ensures Trim(Candidate(text).value) == Candidate(text).value
  {
    if FencedJson(text).Some? {
      FencedJsonIsTrimmed(text);
    } else {
      BraceCandidateDelimited(text);
      TrimUnchanged(BraceCandidate(text).value);
    }
  }

  /** A brace candidate opens with `{` and closes with `}`. */
  lemma BraceCandidateDelimited(text: string)
    requires BraceCandidate(text).Some?
    ensures var c := BraceCandidate(text).value; |c| > 0 && c[0] == '{' && c[|c| - 1] == '}'
  {
    BraceCandidateIsLastRegion(text);
    var s: nat, e: nat :| IsLastRegion(text, s, e) && BraceCandidate(text) == Some(text[s..e]);
    assert text[s..e][0] == text[s] && text[s..e][e - s - 1] == text[e - 1];
  }

  /** When a ```json block matches, its capture is the candidate and the brace scan is not consulted. */
  lemma FencedBlockWins(parse: Parser, text: string, other: string)
    requires FencedJson(text).Some? && FencedJson(other) == FencedJson(text)
    ensures Candidate(text) == FencedJson(text)
    ensures TryExtractVegaSpec(parse, text) == TryExtractVegaSpec(parse, other)
  {
    var f := FencedJson(text);
    assert Candidate(text) == f && Candidate(other) == f;
  }

  /** Without a fenced match the candidate is the brace scan's. */
  lemma BracesWithoutFence(text: string)
    requires FencedJson(text).None?
    ensures Candidate(text) == BraceCandidate(text)
  {
  }

  /** An empty ```json block still counts as found by the fenced search: the result is not_found, braces elsewhere notwithstanding. */
  lemma EmptyFenceIsNotFound(parse: Parser, text: string)
    requires FencedJson(text) == Some([])
    ensures TryExtractVegaSpec(parse, text) == Failed(NotFound, None)
  {
  }

  /**
   * The four outcomes of tryExtractVegaSpec, each in both directions:
   * not_found without a (non-blank) candidate, invalid_json with the parser's
   * message, invalid_schema with the fixed message, and ok with the parsed
   * spec, the candidate itself as raw text, and source "fenced" exactly when
   * the fenced search returned a string.
   */
  lemma TryExtractOutcomes(parse: Parser, text: string)
    ensures var r := TryExtractVegaSpec(parse, text);
      var c := Candidate(text);
      && (r == Failed(NotFound, None) <==> c.None? || c.value == [])
      && (c.Some? && c.value != [] ==>
            && (r.Failed? && r.reason == InvalidJson <==> parse(c.value).SyntaxError?)
            && (parse(c.value).SyntaxError? ==> r.error == Some(parse(c.value).message))
            && ((r == Failed(InvalidSchema, Some(SchemaError)))
                  <==> parse(c.value).Parsed? && !IsValidVegaLite(parse(c.value).value))
            && (r.Found? <==> parse(c.value).Parsed? && IsValidVegaLite(parse(c.value).value))
            && (r.Found? ==> r.spec == parse(c.value).value && r.raw == c.value
                             && (r.source == Fenced <==> FencedJson(text).Some?)))
  {
    if Candidate(text).Some? {
      CandidateIsTrimmed(text);
    }
  }

  /** Text with no backquote after its first seven characters has no closed block: an opening "```json" alone matches nothing. */
  lemma NoClosingFence(text: string)
    requires forall i :: 7 <= i < |text| ==> text[i] != '`'
    ensures FencedJson(text).None?
  {
    forall p: nat | OpensAt(text, p)
      ensures MatchAt(text, p).None?
    {
      assert FindFence(text, SkipWs(text, p + 7)).None?;
    }
    FencedJsonNone(text);
  }

  /** Text without a `}` has no brace candidate. */
  lemma NoCloseBraceNoCandidate(text: string)
    requires forall i :: 0 <= i < |text| ==> text[i] != '}'
    ensures BraceCandidate(text).None?
  {
    BraceCandidateIsLastRegion(text);
  }

  /** The scan of two adjacent objects records each of them. */
  lemma AdjacentObjectsScan(t: string)
    requires |t| == 4 && t[0] == '{' && t[1] == '}' && t[2] == '{' && t[3] == '}'
    ensures Scan(t, 2).stack == [] && Scan(t, 3).stack == [2]
    ensures Scan(t, 4) == ScanState(false, false, [], [Span(0, 2), Span(2, 4)])
  {
    var first := ScanState(false, false, [0], []);
    var between := ScanState(false, false, [], [Span(0, 2)]);
    var second := ScanState(false, false, [2], [Span(0, 2)]);
    assert Scan(t, 1) == ScanStep(ScanState(false, false, [], []), '{', 0) == first;
    assert first.stack[..0] == [];
    assert Scan(t, 2) == ScanStep(first, '}', 1) == between;
    assert Scan(t, 3) == ScanStep(between, '{', 2) == second;
    assert second.stack[..0] == [];
    assert Scan(t, 4) == ScanStep(second, '}', 3);
  }

  /**
   * Of two adjacent objects the second is the candidate: the region that
   * closed last, not the span of both, which does not close on a one-entry
   * stack at its last character.
   */
  lemma AdjacentObjects()
    ensures BraceCandidate("{}{}") == Some("{}")
    ensures !IsLastRegion("{}{}", 0, 4)
  {
    var t := "{}{}";
    AdjacentObjectsScan(t);
    assert t[2..4] == "{}";
  }

  /** The scan of `{"a": "}"}`, character by character: the quoted `}` is read inside the string. */
  lemma QuotedBraceStates(t: string)
    requires |t| == 10 && t[0] == '{' && t[1] == '"' && t[2] == 'a' && t[3] == '"' && t[4] == ':'
    requires t[5] == ' ' && t[6] == '"' && t[7] == '}' && t[8] == '"' && t[9] == '}'
    ensures Scan(t, 10) == ScanState(false, false, [], [Span(0, 10)])
  {
    var open := ScanState(false, false, [0], []);
    var quoted := ScanState(true, false, [0], []);
    assert Scan(t, 1) == ScanStep(ScanState(false, false, [], []), '{', 0) == open;
    assert Scan(t, 2) == ScanStep(open, '"', 1) == quoted;
    assert Scan(t, 3) == ScanStep(quoted, 'a', 2) == quoted;
    assert Scan(t, 4) == ScanStep(quoted, '"', 3) == open;
    assert Scan(t, 5) == ScanStep(open, ':', 4) == open;
    assert Scan(t, 6) == ScanStep(open, ' ', 5) == open;
    assert Scan(t, 7) == ScanStep(open, '"', 6) == quoted;
    assert Scan(t, 8) == ScanStep(quoted, '}', 7) == quoted;
    assert Scan(t, 9) == ScanStep(quoted, '"', 8) == open;
    assert Scan(t, 10) == ScanStep(open, '}', 9);
  }

  /** `{"a": "}"}`: the `}` inside the string does not close the object, so the whole text is the brace candidate. */
  lemma QuotedBraceScan()
    ensures BraceCandidate("{\"a\": \"}\"}") == Some("{\"a\": \"}\"}")
  {
    var t := "{\"a\": \"}\"}";
    QuotedBraceStates(t);
    assert t[0..10] == t;
  }

  /** With no fence, that candidate is parsed, and an object without mark/encoding is invalid_schema. */
  lemma QuotedBraceExample(parse: Parser)
    requires parse("{\"a\": \"}\"}") == Parsed(JObject(map["a" := JString("}")]))
    ensures TryExtractVegaSpec(parse, "{\"a\": \"}\"}") == Failed(InvalidSchema, Some(SchemaError))
  {
    var t := "{\"a\": \"}\"}";
    NoClosingFence(t);
    QuotedBraceScan();
    assert Candidate(t) == Some(t);
    assert !IsValidVegaLite(JObject(map["a" := JString("}")]));
    TryExtractOutcomes(parse, t);
  }
}
