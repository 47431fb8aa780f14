/** A one-pass line counter that decides whether `splitlines()` would return too many lines. */
module LineLimit {

  predicate Separator(c: char)
  {
    c in {'\n', '\r', '\U{b}', '\U{c}', '\U{1c}', '\U{1d}', '\U{1e}', '\U{85}', '\U{2028}', '\U{2029}'}
  }

  // ── splitlines ──────────────────────────────────────────────────────────────

  /** Index of the first separator, or the length. */
  function FirstBreak(s: string): (i: nat)
    ensures i <= |s| && (i < |s| ==> Separator(s[i])) && forall j :: 0 <= j < i ==> !Separator(s[j])
  {
    if s == "" then 0 else if Separator(s[0]) then 0 else 1 + FirstBreak(s[1..])
  }

  /** A carriage return and a line feed make one break. */
  function BreakLength(s: string, i: nat): (n: nat)
    requires i < |s|
    ensures n >= 1 && i + n <= |s|
  {
    if s[i] == '\r' && i + 1 < |s| && s[i + 1] == '\n' then 2 else 1
  }

  /** The lines of a text without their breaks; a trailing break starts no further line. */
  function SplitLines(s: string): seq<string>
    decreases |s|
  {
    if s == "" then []
    else
      var i := FirstBreak(s);
      if i == |s| then [s] else [s[..i]] + SplitLines(s[i + BreakLength(s, i)..])
  }

  // ── The counter ─────────────────────────────────────────────────────────────

  predicate EndsWith(s: string, c: char) { s != "" && s[|s| - 1] == c }

  /** Breaks counted from left to right: a line feed right after a carriage return does not count. */
  function Breaks(s: string): nat
  {
    if s == "" then 0
    else
      var front, c := s[..|s| - 1], s[|s| - 1];
      Breaks(front) + if Separator(c) && !(c == '\n' && EndsWith(front, '\r')) then 1 else 0
  }

  method ExceedsSplitlineLimit(text: string, maxLines: int) returns (exceeds: bool)
    ensures exceeds <==> if maxLines < 1 then text != "" else 1 + Breaks(text) > maxLines
  {
    if maxLines < 1 { return text != ""; }
    var lines, previousWasCr := 1, false;
    for i := 0 to |text|
      invariant lines == 1 + Breaks(text[..i]) <= maxLines
      invariant previousWasCr <==> EndsWith(text[..i], '\r')
    {
      var c := text[i];
      assert text[..i + 1][..i] == text[..i];
      if c == '\n' && previousWasCr {
        previousWasCr := false;
        continue;
      }
      previousWasCr := c == '\r';
      if !Separator(c) {
        previousWasCr := false;
        continue;
      }
      lines := lines + 1;
      if lines > maxLines {
        BreaksGrow(text, i + 1);
        return true;
      }
    }
    assert text[..|text|] == text;
    exceeds := false;
  }

  lemma {:induction false} BreaksGrow(s: string, n: nat)
    requires n <= |s|
    ensures Breaks(s[..n]) <= Breaks(s)
    decreases |s| - n
  {
    if n == |s| {
      assert s[..n] == s;
    } else {
      assert s[..n + 1][..n] == s[..n];
      BreaksGrow(s, n + 1);
    }
  }

  // ── Counter against lines ───────────────────────────────────────────────────

  lemma {:induction false} BreaksConcat(a: string, b: string)
    requires !(EndsWith(a, '\r') && b != "" && b[0] == '\n')
    ensures Breaks(a + b) == Breaks(a) + Breaks(b)
  {
    if b == "" {
      assert a + b == a;
    } else {
      var front := b[..|b| - 1];
      assert (a + b)[..|a + b| - 1] == a + front;
      BreaksConcat(a, front);
      assert front == "" ==> a + front == a;
      assert EndsWith(a + front, '\r') <==> if front == "" then EndsWith(a, '\r') else EndsWith(front, '\r');
    }
  }

  lemma {:induction false} NoBreaks(s: string)
    requires forall j :: 0 <= j < |s| ==> !Separator(s[j])
    ensures Breaks(s) == 0
  {
    if s != "" { NoBreaks(s[..|s| - 1]); }
  }

  lemma OneBreak(s: string, i: nat)
    requires i < |s| && i == FirstBreak(s)
    ensures Breaks(s[..i + BreakLength(s, i)]) == 1
  {
    NoBreaks(s[..i]);
    var head := s[..i + 1];
    assert head[..i] == s[..i];
    assert !EndsWith(s[..i], '\r');
    assert Breaks(head) == 1;
    if BreakLength(s, i) == 2 {
      var whole := s[..i + 2];
      assert whole[..i + 1] == head;
    }
  }

  lemma CleanCut(s: string, i: nat)
    requires i < |s|
    ensures var n := BreakLength(s, i);
            EndsWith(s[..i + n], '\r') && s[i + n..] != "" ==> s[i + n..][0] != '\n'
  {}

  lemma Halves(s: string, n: nat)
    requires n <= |s|
    ensures s[..n] + s[n..] == s
  {}

  /** The first line with its break holds one break and can be cut off. */
  lemma BreaksSplit(s: string)
    requires FirstBreak(s) < |s|
    ensures var i := FirstBreak(s); Breaks(s) == 1 + Breaks(s[i + BreakLength(s, i)..])
  {
    var i := FirstBreak(s);
    var cut := i + BreakLength(s, i);
    OneBreak(s, i);
    CleanCut(s, i);
    BreaksConcat(s[..cut], s[cut..]);
    Halves(s, cut);
  }

  predicate EndsWithBreak(s: string) { s != "" && Separator(s[|s| - 1]) }

  lemma TrailingBreak(s: string, i: nat, rest: string)
    requires i < |s| && Separator(s[i]) && rest == s[i + BreakLength(s, i)..]
    ensures EndsWithBreak(s) <==> rest == "" || EndsWithBreak(rest)
  {}

  lemma {:induction false} LinesAreBreaks(s: string)
    ensures |SplitLines(s)| == if s == "" || EndsWithBreak(s) then Breaks(s) else Breaks(s) + 1
    decreases |s|
  {
    if s != "" {
      var i := FirstBreak(s);
      if i == |s| {
        NoBreaks(s);
      } else {
        var rest := s[i + BreakLength(s, i)..];
        BreaksSplit(s);
        LinesAreBreaks(rest);
        assert |SplitLines(s)| == 1 + |SplitLines(rest)|;
        TrailingBreak(s, i, rest);
      }
    }
  }

  /** The counter answers as `len(text.splitlines()) > max_lines` would, except that it also rejects
      a text of exactly the limit whose last line is terminated. */
  lemma LimitIff(text: string, maxLines: nat)
    ensures (if maxLines < 1 then text != "" else 1 + Breaks(text) > maxLines) <==>
              || |SplitLines(text)| > maxLines
              || (maxLines >= 1 && |SplitLines(text)| == maxLines && EndsWithBreak(text))
  {
    LinesAreBreaks(text);
  }

  /** One terminated line is one line, and is rejected at a limit of one. */
  lemma TerminatedLineIsRejected(text: string)
    requires text == "a\n"
    ensures |SplitLines(text)| == 1 && 1 + Breaks(text) > 1
  {
    assert text[..1] == "a" && !Separator('a') && EndsWithBreak(text);
    NoBreaks(text[..1]);
    LinesAreBreaks(text);
  }
}
