/**
 * The seen-jobs ledger: a text file holding one job id per line. It is read
 * whole at the start of a run and only ever appended to at the end.
 */
module Ledger {
  import opened Wrappers

  const NL: char := '\n'

  /** The text of the ledger, or "" when the file does not exist yet. */
  function Existing(ledger: Option<string>): (text: string)
    ensures LoadSeen(Some(text)) == LoadSeen(ledger)
  {
    ledger.GetOr("")
  }

  /** Index of the first line break in `s`, or `|s|` when there is none. */
  function LineEnd(s: string): (i: nat)
    ensures i <= |s|
    ensures i < |s| ==> s[i] == NL
  {
    if |s| == 0 || s[0] == NL then 0 else 1 + LineEnd(s[1..])
  }

  /** No line break comes before the one LineEnd finds. */
  lemma {:induction false} NoBreakBeforeLineEnd(s: string)
    ensures NL !in s[..LineEnd(s)]
    decreases |s|
  {
    if |s| > 0 && s[0] != NL {
      NoBreakBeforeLineEnd(s[1..]);
      assert s[..LineEnd(s)] == [s[0]] + s[1..][..LineEnd(s[1..])];
    }
  }

  /**
   * `s.splitlines()` with '\n' as the only line break: the pieces between
   * breaks, where a final break does not start an extra empty line.
   */
  function SplitLines(s: string): (lines: seq<string>)
    ensures lines == [] <==> |s| == 0
    decreases |s|
  {
    if |s| == 0 then []
    else
      var i := LineEnd(s);
      if i == |s| then [s] else [s[..i]] + SplitLines(s[i + 1..])
  }

  /** The text written by `f.write(f"{jid}\n")` for each id in turn. */
  function Render(ids: seq<string>): (text: string)
    ensures Terminated(text)
    ensures |ids| > 0 ==> |text| > 0
  {
    if |ids| == 0 then "" else ids[0] + [NL] + Render(ids[1..])
  }

  /** Empty, or ending in a line break: the shape every flush leaves behind. */
  predicate Terminated(text: string) {
    |text| == 0 || text[|text| - 1] == NL
  }

  predicate NoLineBreaks(ids: seq<string>) {
    forall k :: 0 <= k < |ids| ==> NL !in ids[k]
  }

  /** `set(f.read().splitlines())` when the file exists, the empty set otherwise. */
  function LoadSeen(ledger: Option<string>): (seen: set<string>)
    ensures ledger.None? ==> seen == {}
    ensures forall id :: id in seen ==> NL !in id
  {
    match ledger
    case None => {}
    case Some(text) =>
      SplitLinesHaveNoBreaks(text);
      set line | line in SplitLines(text)
  }

  /** Appending the rendered ids, as the `'a'`-mode file does; a missing file is created first. */
  method Flush(ledger: Option<string>, newIds: seq<string>) returns (text: string)
    ensures text == Existing(ledger) + Render(newIds)
    ensures Existing(ledger) <= text
    ensures |newIds| == 0 ==> text == Existing(ledger)
  {
    var start := Existing(ledger);
    text := start;
    for k := 0 to |newIds|
      invariant text == start + Render(newIds[..k])
    {
      RenderSnoc(newIds[..k], newIds[k]);
      assert newIds[..k + 1] == newIds[..k] + [newIds[k]];
      text := text + newIds[k] + [NL];
    }
    assert newIds[..|newIds|] == newIds;
    assert text[..|start|] == start;
  }

  /** Writing one more id appends that id and a line break. */
  lemma RenderSnoc(ids: seq<string>, id: string)
    ensures Render(ids + [id]) == Render(ids) + id + [NL]
  {
    RenderAppend(ids, [id]);
    assert Render([id]) == id + [NL] + Render([]);
  }

  /** No parsed line holds a line break. */
  lemma {:induction false} SplitLinesHaveNoBreaks(s: string)
    ensures NoLineBreaks(SplitLines(s))
    decreases |s|
  {
    if |s| > 0 {
      var i := LineEnd(s);
      NoBreakBeforeLineEnd(s);
      if i < |s| {
        SplitLinesHaveNoBreaks(s[i + 1..]);
      } else {
        assert s[..i] == s;
      }
    }
  }

  /** Rendering distributes over concatenation of id lists. */
  lemma {:induction false} RenderAppend(a: seq<string>, b: seq<string>)
    ensures Render(a + b) == Render(a) + Render(b)
    decreases |a|
  {
    if |a| > 0 {
      assert (a + b)[1..] == a[1..] + b;
      RenderAppend(a[1..], b);
    } else {
      assert a + b == b;
    }
  }

  /** A flush keeps the ledger empty-or-terminated. */
  lemma AppendKeepsTerminated(text: string, ids: seq<string>)
    requires Terminated(text)
    ensures Terminated(text + Render(ids))
  {
    var r := Render(ids);
    if |r| > 0 {
      assert (text + r)[|text + r| - 1] == r[|r| - 1];
    }
  }

  /** Reading back what was rendered gives the ids, in order. */
  lemma {:induction false} SplitRender(ids: seq<string>)
    requires NoLineBreaks(ids)
    ensures SplitLines(Render(ids)) == ids
    decreases |ids|
  {
    if |ids| > 0 {
      var s := Render(ids);
      var id := ids[0];
      assert s == id + [NL] + Render(ids[1..]);
      assert s[..|id|] == id;
      LineEndAt(s, |id|);
      assert s[|id| + 1..] == Render(ids[1..]);
      SplitRender(ids[1..]);
    }
  }

  /** A line break with none before it is the first one. */
  lemma {:induction false} LineEndAt(s: string, j: nat)
    requires j < |s| && s[j] == NL && NL !in s[..j]
    ensures LineEnd(s) == j
    decreases j
  {
    if j > 0 {
      assert s[0] == s[..j][0];
      assert s[1..][..j - 1] == s[..j][1..];
      LineEndAt(s[1..], j - 1);
    }
  }

  /** Rendering the parsed lines gives back the text, with a final line break added if missing. */
  lemma {:induction false} RenderSplit(s: string)
    ensures Render(SplitLines(s)) == if Terminated(s) then s else s + [NL]
    decreases |s|
  {
    if |s| > 0 {
      var i := LineEnd(s);
      if i == |s| {
        NoBreakBeforeLineEnd(s);
        assert s[..i] == s;
        assert SplitLines(s) == [s];
        assert Render([s]) == s + [NL] + Render([]);
      } else {
        var rest := s[i + 1..];
        RenderSplitFirstLine(s, i);
        RenderSplit(rest);
        TerminatedAfterBreak(s, i);
        BreakThenRest(s, i, Render(SplitLines(rest)));
      }
    }
  }

  /** The first parsed line is written back followed by its line break. */
  lemma RenderSplitFirstLine(s: string, i: nat)
    requires i < |s| && i == LineEnd(s)
    ensures Render(SplitLines(s)) == s[..i] + [NL] + Render(SplitLines(s[i + 1..]))
  {
    var tail := SplitLines(s[i + 1..]);
    SplitFirstLine(s, i);
    RenderAppend([s[..i]], tail);
    assert Render([s[..i]]) == s[..i] + [NL];
  }

  /** Parsing takes off the text up to the first line break as the first line. */
  lemma SplitFirstLine(s: string, i: nat)
    requires i < |s| && i == LineEnd(s)
    ensures SplitLines(s) == [s[..i]] + SplitLines(s[i + 1..])
  {
  }

  /** Sequence bookkeeping for the inductive step of RenderSplit. */
  lemma BreakThenRest(s: string, i: nat, restOut: string)
    requires i < |s| && s[i] == NL
    requires restOut == if Terminated(s[i + 1..]) then s[i + 1..] else s[i + 1..] + [NL]
    requires Terminated(s) == Terminated(s[i + 1..])
    ensures s[..i] + [NL] + restOut == if Terminated(s) then s else s + [NL]
  {
    assert s == s[..i] + [NL] + s[i + 1..];
  }

  /** What follows a line break ends in one exactly when the whole text does. */
  lemma TerminatedAfterBreak(s: string, i: nat)
    requires i < |s| && s[i] == NL
    ensures Terminated(s) == Terminated(s[i + 1..])
  {
    var rest := s[i + 1..];
    if |rest| > 0 {
      assert s[|s| - 1] == rest[|rest| - 1];
    }
  }

  /** Parsing a terminated text followed by more text parses each part on its own. */
  lemma {:induction false} SplitAppend(a: string, b: string)
    requires Terminated(a)
    ensures SplitLines(a + b) == SplitLines(a) + SplitLines(b)
    decreases |a|
  {
    if |a| == 0 {
      assert a + b == b;
    } else {
      var i := LineEnd(a);
      FirstLineOfAppend(a, b);
      var rest := a[i + 1..];
      SplitFirstLine(a, i);
      SplitFirstLine(a + b, i);
      SplitAppend(rest, b);
      ConsAppend(a[..i], SplitLines(rest), SplitLines(b));
    }
  }

  /**
   * Associativity for a one-element prefix, kept as a lemma of its own: the
   * same assertion inside SplitAppend, where SplitLines unfolds, is too costly.
   */
  lemma ConsAppend<T>(x: T, s: seq<T>, t: seq<T>)
    ensures [x] + (s + t) == ([x] + s) + t
  {
  }

  /** In a terminated text followed by more text, the first line ends where it ends in the first part. */
  lemma FirstLineOfAppend(a: string, b: string)
    requires Terminated(a) && |a| > 0
    ensures LineEnd(a) < |a|
    ensures LineEnd(a + b) == LineEnd(a)
    ensures (a + b)[..LineEnd(a)] == a[..LineEnd(a)]
    ensures (a + b)[LineEnd(a) + 1..] == a[LineEnd(a) + 1..] + b
    ensures Terminated(a[LineEnd(a) + 1..])
  {
    var i := LineEnd(a);
    NoBreakBeforeLineEnd(a);
    assert a[..|a|][|a| - 1] == NL;
    var ab := a + b;
    assert ab[..i] == a[..i];
    LineEndAt(ab, i);
    TerminatedAfterBreak(a, i);
  }

  /**
   * Reloading the ledger after a flush gives the ids seen before together
   * with the ids just written, provided the old text was empty or ended in
   * a line break and no id holds a line break.
   */
  lemma ReloadAfterFlush(ledger: Option<string>, ids: seq<string>)
    requires Terminated(Existing(ledger))
    requires NoLineBreaks(ids)
    ensures LoadSeen(Some(Existing(ledger) + Render(ids))) == LoadSeen(ledger) + set id | id in ids
  {
    var text := Existing(ledger);
    SplitAppend(text, Render(ids));
    SplitRender(ids);
    var lines := SplitLines(text + Render(ids));
    assert lines == SplitLines(text) + ids;
    assert LoadSeen(ledger) == set line | line in SplitLines(text);
    assert (set line | line in lines) == (set line | line in SplitLines(text)) + set id | id in ids;
  }

  /** Two runs recording "1", "2" and then "3" leave a ledger that loads as {"1", "2", "3"}. */
  lemma TwoRunsAppend()
    ensures LoadSeen(Some(Render(["1", "2"]) + Render(["3"]))) == {"1", "2", "3"}
  {
    var first := Render(["1", "2"]);
    ReloadAfterFlush(None, ["1", "2"]);
    assert "" + first == first;
    assert LoadSeen(Some(first)) == {"1", "2"};
    ReloadAfterFlush(Some(first), ["3"]);
  }

  /**
   * Why the round trip needs a terminated ledger: appending to "abc", which
   * lacks a final line break, glues the next id onto its last line, so the
   * reloaded set holds neither "abc" nor "def".
   */
  lemma UnterminatedLedgerGluesIds()
    ensures LoadSeen(Some("abc" + Render(["def"]))) == {"abcdef"}
  {
    assert "abc" + Render(["def"]) == Render(["abcdef"]);
    SplitRender(["abcdef"]);
  }
}
