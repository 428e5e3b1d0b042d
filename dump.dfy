/**
 * The JSONL event-log decoder: split the file into lines, drop the empty
 * ones, parse each line and keep the records that carry both an `event` and
 * a `data` member.
 */
module Dump {
  import opened Wrappers
  import opened JsonValue

  /**
   * The events the player dispatches on. `event` names the kind; `done`
   * carries a payload the player never reads. The decoder does not check
   * the discriminator, so a record of any other kind reaches the player,
   * which skips it: that is `OtherEvent`.
   */
  datatype StreamEvent =
    | TokenEvent(delta: string)
    | DoneEvent
    | ErrorEvent(message: string)
    | OtherEvent

  // ---------------------------------------------------------------------------
  // text.split(/\r?\n/)
  // ---------------------------------------------------------------------------

  /** The offset of the first line feed, or |s| when there is none. */
  function NewlineIndex(s: string): (k: nat)
    ensures k <= |s| && (k < |s| ==> s[k] == '\n')
    ensures forall j :: 0 <= j < k ==> s[j] != '\n'
  {
    if s == [] || s[0] == '\n' then 0 else 1 + NewlineIndex(s[1..])
  }

  /** A piece ending right before a line feed loses one carriage return: the separator is `\r\n` there. */
  function DropCr(piece: string): string {
    if piece != [] && piece[|piece| - 1] == '\r' then piece[..|piece| - 1] else piece
  }

  /**
   * `text.split(/\r?\n/)`. The leftmost match of `\r?\n` is a line feed,
   * taken together with the carriage return right before it when that
   * character is still part of the current piece; a lone `\r` separates
   * nothing.
   */
  function SplitLines(s: string): seq<string>
    decreases |s|
  {
    var k := NewlineIndex(s);
    if k == |s| then [s] else [DropCr(s[..k])] + SplitLines(s[k + 1..])
  }

  /** The number of line feeds in s. */
  function Newlines(s: string): nat {
    if s == [] then 0 else (if s[0] == '\n' then 1 else 0) + Newlines(s[1..])
  }

  /** Every `\r\n` replaced by `\n`, scanning left to right. */
  function NormalizeNewlines(s: string): string {
    if |s| >= 2 && s[0] == '\r' && s[1] == '\n' then "\n" + NormalizeNewlines(s[2..])
    else if s == [] then []
    else [s[0]] + NormalizeNewlines(s[1..])
  }

  /** `pieces.join("\n")`. */
  function JoinLines(pieces: seq<string>): string {
    if |pieces| <= 1 then (if pieces == [] then "" else pieces[0])
    else pieces[0] + "\n" + JoinLines(pieces[1..])
  }

  /** Newlines distributes over a line feed inside s. */
  lemma NewlinesSplit(s: string, k: nat)
    requires k < |s| && s[k] == '\n' && forall j :: 0 <= j < k ==> s[j] != '\n'
    ensures Newlines(s) == 1 + Newlines(s[k + 1..])
  {
    if k > 0 {
      assert s[1..][k - 1 + 1..] == s[k + 1..];
      NewlinesSplit(s[1..], k - 1);
    }
  }

  /** Text without a line feed has none to count. */
  lemma NoNewlines(s: string)
    requires forall j :: 0 <= j < |s| ==> s[j] != '\n'
    ensures Newlines(s) == 0
  {
    if s != [] {
      NoNewlines(s[1..]);
    }
  }

  /** There is one line more than there are line feeds; a lone `\r` adds none. */
  lemma {:induction false} SplitLinesCount(s: string)
    ensures |SplitLines(s)| == Newlines(s) + 1
    decreases |s|
  {
    var k := NewlineIndex(s);
    if k == |s| {
      NoNewlines(s);
    } else {
      NewlinesSplit(s, k);
      SplitLinesCount(s[k + 1..]);
    }
  }

  /** No line contains a line feed. */
  lemma {:induction false} SplitLinesHaveNoNewline(s: string)
    ensures forall i, j :: 0 <= i < |SplitLines(s)| && 0 <= j < |SplitLines(s)[i]| ==> SplitLines(s)[i][j] != '\n'
    decreases |s|
  {
    var k := NewlineIndex(s);
    if k < |s| {
      SplitLinesHaveNoNewline(s[k + 1..]);
      assert SplitLines(s) == [DropCr(s[..k])] + SplitLines(s[k + 1..]);
    }
  }

  /** Normalizing text without a line feed leaves it alone. */
  lemma NormalizeWithoutNewline(s: string)
    requires forall j :: 0 <= j < |s| ==> s[j] != '\n'
    ensures NormalizeNewlines(s) == s
  {
    if s != [] {
      NormalizeWithoutNewline(s[1..]);
    }
  }

  /** Text that does not open with `\r\n` keeps its first character. */
  lemma NormalizeCons(s: string)
    requires s != [] && !(|s| >= 2 && s[0] == '\r' && s[1] == '\n')
    ensures NormalizeNewlines(s) == [s[0]] + NormalizeNewlines(s[1..])
  {
  }

  /** Normalizing a piece and the line feed after it. */
  lemma NormalizeThroughNewline(s: string, k: nat)
    requires k < |s| && s[k] == '\n' && forall j :: 0 <= j < k ==> s[j] != '\n'
    ensures NormalizeNewlines(s) == DropCr(s[..k]) + "\n" + NormalizeNewlines(s[k + 1..])
  {
    assert s == s[..k] + "\n" + s[k + 1..];
    NormalizeLine(s[..k], s[k + 1..]);
  }

  /** A piece without a line feed, then a line feed: the separator swallows one final `\r` of the piece. */
  lemma {:induction false} NormalizeLine(p: string, r: string)
    requires forall j :: 0 <= j < |p| ==> p[j] != '\n'
    ensures NormalizeNewlines(p + "\n" + r) == DropCr(p) + "\n" + NormalizeNewlines(r)
    decreases |p|
  {
    var x := p + "\n" + r;
    if p == [] {
      assert x == "\n" + r && x[1..] == r;
    } else if p == "\r" {
      assert x[..2] == "\r\n" && x[2..] == r;
    } else {
      var tail := p[1..];
      assert x[1..] == tail + "\n" + r;
      assert x[1] == if |p| >= 2 then p[1] else '\n';
      NormalizeCons(x);
      NormalizeLine(tail, r);
      assert p == [p[0]] + tail;
      DropCrCons(p[0], tail);
      var piece, rest := DropCr(tail), NormalizeNewlines(r);
      assert [p[0]] + (piece + "\n" + rest) == ([p[0]] + piece) + "\n" + rest;
    }
  }

  /** A carriage return is only dropped at the end of a piece, so a character in front survives. */
  lemma DropCrCons(c: char, q: string)
    requires q != [] || c != '\r'
    ensures DropCr([c] + q) == [c] + DropCr(q)
  {
    var p := [c] + q;
    if q != [] {
      assert p[|p| - 1] == q[|q| - 1];
      assert p[..|p| - 1] == [c] + q[..|q| - 1];
    } else {
      assert p == [c];
    }
  }

  /** Joining the lines with `\n` gives back the text with every `\r\n` turned into `\n`. */
  lemma {:induction false} SplitLinesJoin(s: string)
    ensures JoinLines(SplitLines(s)) == NormalizeNewlines(s)
    decreases |s|
  {
    var k := NewlineIndex(s);
    if k == |s| {
      NormalizeWithoutNewline(s);
    } else {
      SplitLinesJoin(s[k + 1..]);
      NormalizeThroughNewline(s, k);
      var rest := SplitLines(s[k + 1..]);
      assert |rest| >= 1;
      assert SplitLines(s) == [DropCr(s[..k])] + rest;
    }
  }

  /** A lone carriage return is not a separator. */
  lemma LoneCrIsNotSeparator(s: string)
    requires forall j :: 0 <= j < |s| ==> s[j] != '\n'
    ensures SplitLines(s) == [s]
  {
  }

  // ---------------------------------------------------------------------------
  // .filter(Boolean) and the decoding loop
  // ---------------------------------------------------------------------------

  /** `.filter(Boolean)` over strings: the empty ones go, whitespace-only ones stay. */
  function NonEmpty(lines: seq<string>): (r: seq<string>)
    ensures |r| <= |lines|
    ensures forall l :: l in r <==> l in lines && l != ""
  {
    if lines == [] then []
    else (if lines[0] != "" then [lines[0]] else []) + NonEmpty(lines[1..])
  }

  /** Filtering two runs of lines filters each in turn: the kept lines keep their order and their repetitions. */
  lemma {:induction false} NonEmptyAppend(a: seq<string>, b: seq<string>)
    ensures NonEmpty(a + b) == NonEmpty(a) + NonEmpty(b)
    decreases |a|
  {
    if a != [] {
      assert (a + b)[1..] == a[1..] + b;
      NonEmptyAppend(a[1..], b);
    } else {
      assert a + b == b;
    }
  }

  /** One line is kept exactly when it is not empty. */
  lemma NonEmptyOne(line: string)
    ensures NonEmpty([line]) == if line == "" then [] else [line]
  {
    assert [line][1..] == [];
  }

  /** The record a line contributes: its parse, when that is not an error and its `event` and `data` are truthy. */
  function Accepted(parse: Parser, line: string): (r: Option<Json>)
    ensures r.Some? <==> parse(line).Parsed? && MemberTruthy(parse(line).value, "event")
                         && MemberTruthy(parse(line).value, "data")
    ensures r.Some? ==> r == Some(parse(line).value)
  {
    match parse(line)
    case SyntaxError(_) => None
    case Parsed(obj) => if MemberTruthy(obj, "event") && MemberTruthy(obj, "data") then Some(obj) else None
  }

  /** The records the loop has pushed after the given lines, in line order. */
  function Decoded(parse: Parser, lines: seq<string>): seq<Json>
  {
    if lines == [] then []
    else
      var front := Decoded(parse, lines[..|lines| - 1]);
      match Accepted(parse, lines[|lines| - 1])
      case None => front
      case Some(rec) => front + [rec]
  }

  /** The lines parseJSONL decodes. */
  function Lines(text: string): seq<string> {
    NonEmpty(SplitLines(text))
  }

  method ParseJsonl(parse: Parser, text: string) returns (events: seq<Json>)
    ensures events == Decoded(parse, Lines(text))
  {
    var lines := Lines(text);
    events := [];
    for i := 0 to |lines|
      invariant events == Decoded(parse, lines[..i])
    {
      assert lines[..i + 1][..i] == lines[..i];
      match Accepted(parse, lines[i])
      case Some(rec) =>
        events := events + [rec];
      case None =>
    }
    assert lines[..|lines|] == lines;
  }

  // ---------------------------------------------------------------------------
  // What the decoder promises
  // ---------------------------------------------------------------------------

  /** Decoding is a filter: it never yields more records than it reads lines. */
  lemma {:induction false} DecodedLength(parse: Parser, lines: seq<string>)
    ensures |Decoded(parse, lines)| <= |lines|
  {
    if lines != [] {
      DecodedLength(parse, lines[..|lines| - 1]);
    }
  }

  /** Decoding two runs of lines decodes each in turn: records keep the order of their lines. */
  lemma {:induction false} DecodedAppend(parse: Parser, a: seq<string>, b: seq<string>)
    ensures Decoded(parse, a + b) == Decoded(parse, a) + Decoded(parse, b)
    decreases |b|
  {
    if b == [] {
      assert a + b == a;
    } else {
      var b' := b[..|b| - 1];
      assert (a + b)[..|a + b| - 1] == a + b';
      assert (a + b)[|a + b| - 1] == b[|b| - 1];
      DecodedAppend(parse, a, b');
    }
  }

  /** One line decodes to its accepted record, or to nothing. */
  lemma DecodedOne(parse: Parser, line: string)
    ensures Decoded(parse, [line]) == match Accepted(parse, line) case None => [] case Some(rec) => [rec]
  {
    assert [line][..0] == [];
  }

  /** A line that fails to parse is dropped, and decoding carries on with the lines after it. */
  lemma FailedLineIsDropped(parse: Parser, a: seq<string>, line: string, b: seq<string>)
    requires parse(line).SyntaxError?
    ensures Decoded(parse, a + [line] + b) == Decoded(parse, a) + Decoded(parse, b)
  {
    DecodedAppend(parse, a + [line], b);
    DecodedAppend(parse, a, [line]);
    DecodedOne(parse, line);
  }

  /** Every output record is, unchanged, the parse of one of the lines, and every such accepted parse is output. */
  lemma {:induction false} DecodedMembers(parse: Parser, lines: seq<string>)
    ensures forall rec :: rec in Decoded(parse, lines) <==>
      exists i :: 0 <= i < |lines| && Accepted(parse, lines[i]) == Some(rec)
  {
    if lines != [] {
      var front := lines[..|lines| - 1];
      DecodedMembers(parse, front);
      forall rec
        ensures rec in Decoded(parse, lines) <==> exists i :: 0 <= i < |lines| && Accepted(parse, lines[i]) == Some(rec)
      {
        if exists i :: 0 <= i < |lines| && Accepted(parse, lines[i]) == Some(rec) {
          var i :| 0 <= i < |lines| && Accepted(parse, lines[i]) == Some(rec);
          if i < |front| {
            assert front[i] == lines[i];
          }
        }
        if rec in Decoded(parse, front) {
          var i :| 0 <= i < |front| && Accepted(parse, front[i]) == Some(rec);
          assert lines[i] == front[i];
        }
      }
    }
  }

  /** The decoder checks only that `event` and `data` are truthy: a record of an unknown kind is kept. */
  lemma DiscriminatorIsNotChecked(parse: Parser, line: string)
    requires parse(line) == Parsed(JObject(map["event" := JString("ping"), "data" := JBool(true)]))
    ensures Decoded(parse, [line]) == [JObject(map["event" := JString("ping"), "data" := JBool(true)])]
  {
    DecodedOne(parse, line);
  }

  /** A record whose `data` is falsy (here `0`) is dropped even with a known kind. */
  lemma FalsyDataIsDropped(parse: Parser, line: string)
    requires parse(line) == Parsed(JObject(map["event" := JString("done"), "data" := JNumber(0.0)]))
    ensures Decoded(parse, [line]) == []
  {
    DecodedOne(parse, line);
  }

  /** Whitespace-only lines are not filtered out: they reach the parser. */
  lemma BlankLineIsParsed()
    ensures Lines(" \n\n\t") == [" ", "\t"]
  {
    var s := " \n\n\t";
    assert NewlineIndex(s) == 1;
    assert s[..1] == " " && s[2..] == "\n\t";
    assert NewlineIndex("\n\t") == 0;
    assert "\n\t"[..0] == "" && "\n\t"[1..] == "\t";
    assert NewlineIndex("\t") == 1;
    assert SplitLines("\t") == ["\t"];
    assert SplitLines("\n\t") == [""] + ["\t"];
    assert SplitLines(s) == [" "] + SplitLines("\n\t");
    assert SplitLines(s) == [" ", "", "\t"];
  }
}
