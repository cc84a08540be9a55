/**
 * The reply format the exercise endpoint asks the model for (the prompt of
 * app/api/exercise/route.ts) and what the parser makes of it: a reply laid
 * out exactly as the prompt shows reads back as the exercise it was written
 * from, as long as its texts do not themselves contain the markers the
 * parser looks for. Beside it, the stricter checks the parser does not make,
 * each with an input that shows it does not make them.
 */
module ExerciseTemplate {
  import opened Text
  import opened Types
  import opened ExerciseRoute
  import opened Exercises

  // ---------------------------------------------------------------------
  // Rendering

  const Header: string := "QUESTION: "

  /** One option line: a line break, its letter, `) ` and the text. */
  function Block(o: string, j: nat): string
    requires j < 4
  {
    "\n" + [OptionLabel(j)] + ") " + o
  }

  /** The option lines for `opts`, lettered from position j on. */
  function Blocks(opts: seq<string>, j: nat): string
    requires j + |opts| <= 4
    decreases |opts|
  {
    if opts == [] then "" else Block(opts[0], j) + Blocks(opts[1..], j + 1)
  }

  /** The CORRECT and EXPLANATION lines. */
  function Tail(letter: char, x: string): string {
    "\nCORRECT: " + [letter] + "\nEXPLANATION: " + x
  }

  /** The reply laid out as the prompt asks: QUESTION, the lettered options, CORRECT, EXPLANATION. */
  function Render(e: GeneratedExercise): string
    requires 0 <= e.correctAnswer < 4 && |e.options| <= 4
  {
    Header + e.question + Blocks(e.options, 0) + Tail(OptionLabel(e.correctAnswer), e.explanation)
  }

  // ---------------------------------------------------------------------
  // Texts the parser cannot mistake for structure

  /** No `[A-D])` anywhere in t. */
  ghost predicate NoMarker(t: string) {
    forall k: nat :: !MarkerAt(t, k)
  }

  /** The literal pat occurs nowhere in t. */
  ghost predicate Absent(t: string, pat: string) {
    forall k: nat :: !OccursAt(t, k, pat)
  }

  /** A question or option text: not empty, trimmed, and free of option labels and of the CORRECT and EXPLANATION markers. */
  ghost predicate PlainText(t: string) {
    && t != [] && Trimmed(t) && NoMarker(t)
    && Absent(t, CorrectMarker) && Absent(t, ExplanationMarker)
  }

  /** An exercise whose rendering the parser reads without ambiguity. */
  ghost predicate Renderable(e: GeneratedExercise) {
    && 1 <= |e.options| <= 4
    && 0 <= e.correctAnswer < 4
    && PlainText(e.question)
    && (forall k :: 0 <= k < |e.options| ==> PlainText(e.options[k]))
    && Trimmed(e.explanation) && NoMarker(e.explanation)
  }

  lemma NoParenNoMarker(t: string)
    requires ')' !in t
    ensures NoMarker(t)
  {
    forall k: nat ensures !MarkerAt(t, k) {
      if k + 1 < |t| {
        assert t[k + 1] in t;
      }
    }
  }

  lemma ConcatNoMarker(a: string, b: string)
    requires NoMarker(a) && NoMarker(b)
    requires a == [] || b == [] || !IsLetter(a[|a| - 1]) || b[0] != ')'
    ensures NoMarker(a + b)
  {
    forall k: nat ensures !MarkerAt(a + b, k) {
      if k + 2 <= |a| {
        assert MarkerAt(a + b, k) ==> MarkerAt(a, k);
      } else if k >= |a| {
        assert MarkerAt(a + b, k) ==> MarkerAt(b, k - |a|);
      }
    }
  }

  lemma CharAbsent(t: string, pat: string, i: nat)
    requires i < |pat| && pat[i] !in t
    ensures Absent(t, pat)
  {
    forall k: nat ensures !OccursAt(t, k, pat) {
      if k + |pat| <= |t| {
        assert t[k + i] in t;
        assert t[k..k + |pat|][i] == t[k + i];
      }
    }
  }

  lemma ConcatAbsent(a: string, b: string, pat: string)
    requires Absent(a, pat) && Absent(b, pat)
    requires a == [] || b == [] || a[|a| - 1] !in pat || b[0] !in pat
    ensures Absent(a + b, pat)
  {
    var s := a + b;
    forall k: nat | k + |pat| <= |s| ensures !OccursAt(s, k, pat) {
      if k + |pat| <= |a| {
        assert s[k..k + |pat|] == a[k..k + |pat|];
        assert !OccursAt(a, k, pat);
      } else if k >= |a| {
        assert s[k..k + |pat|] == b[k - |a|..k - |a| + |pat|];
        assert !OccursAt(b, k - |a|, pat);
      } else {
        assert pat[|a| - 1 - k] in pat && s[k..k + |pat|][|a| - 1 - k] == a[|a| - 1];
        assert pat[|a| - k] in pat && s[k..k + |pat|][|a| - k] == b[0];
      }
    }
  }

  /** No option label starts inside the t part of u + t + v. */
  lemma RegionNoMarker(s: string, u: string, t: string, v: string)
    requires s == u + t + v && NoMarker(t)
    requires v == [] || v[0] != ')'
    ensures forall k :: |u| <= k < |u| + |t| ==> !MarkerAt(s, k)
  {
    forall k | |u| <= k < |u| + |t| ensures !MarkerAt(s, k) {
      if k + 1 < |u| + |t| {
        assert MarkerAt(s, k) ==> MarkerAt(t, k - |u|);
      }
    }
  }

  /** No occurrence of pat starts inside the t part of u + t + v. */
  lemma RegionAbsent(s: string, u: string, t: string, v: string, pat: string)
    requires s == u + t + v && Absent(t, pat)
    requires v != [] && v[0] !in pat
    ensures forall k :: |u| <= k < |u| + |t| ==> !OccursAt(s, k, pat)
  {
    forall k | |u| <= k < |u| + |t| && k + |pat| <= |s| ensures !OccursAt(s, k, pat) {
      if k + |pat| <= |u| + |t| {
        assert s[k..k + |pat|] == t[k - |u|..k - |u| + |pat|];
        assert !OccursAt(t, k - |u|, pat);
      } else {
        assert pat[|u| + |t| - k] in pat && s[k..k + |pat|][|u| + |t| - k] == v[0];
      }
    }
  }

  /** The option lines never contain a marker longer than their own label. */
  lemma {:induction false} BlocksAbsent(opts: seq<string>, j: nat, pat: string)
    requires j + |opts| <= 4 && |pat| > 4 && ' ' !in pat && '\n' !in pat
    requires forall k :: 0 <= k < |opts| ==> PlainText(opts[k])
    requires forall k :: 0 <= k < |opts| ==> Absent(opts[k], pat)
    ensures Absent(Blocks(opts, j), pat)
    decreases |opts|
  {
    if opts != [] {
      var lead := "\n" + [OptionLabel(j)] + ") ";
      assert Block(opts[0], j) == lead + opts[0];
      ConcatAbsent(lead, opts[0], pat);
      BlocksAbsent(opts[1..], j + 1, pat);
      var rest := Blocks(opts[1..], j + 1);
      assert rest == [] || rest[0] == '\n';
      ConcatAbsent(Block(opts[0], j), rest, pat);
    }
  }

  // ---------------------------------------------------------------------
  // Scanning the option lines

  /** The cleaned option texts matched from position i on. */
  function Cleaned(s: string, i: nat): seq<string>
    requires i <= |s|
  {
    CleanOptions(SpanTexts(s, OptionSpans(s, i)))
  }

  lemma CleanOptionsCons(x: string, xs: seq<string>)
    ensures CleanOptions([x] + xs) == [CleanOption(x)] + CleanOptions(xs)
  {
    var ys := [x] + xs;
    var lhs := CleanOptions(ys);
    var rhs := [CleanOption(x)] + CleanOptions(xs);
    forall k | 0 <= k < |lhs| ensures lhs[k] == rhs[k] {
      if k > 0 {
        assert ys[k] == xs[k - 1];
      }
    }
    assert lhs == rhs;
  }

  lemma SpanTextsCons(s: string, first: Span, later: seq<Span>)
    requires first.start <= first.end <= |s|
    requires forall k :: 0 <= k < |later| ==> later[k].start <= later[k].end <= |s|
    ensures SpanTexts(s, [first] + later) == [s[first.start..first.end]] + SpanTexts(s, later)
  {
    var spans := [first] + later;
    var texts := SpanTexts(s, spans);
    var laterTexts := SpanTexts(s, later);
    forall k | 0 < k < |texts| ensures texts[k] == laterTexts[k - 1] {
      assert spans[k] == later[k - 1];
    }
  }

  lemma CleanedCons(s: string, i: nat, a: nat, e: nat)
    requires i <= a <= e <= |s|
    requires OptionSpans(s, i) == [Span(a, e)] + OptionSpans(s, e)
    ensures Cleaned(s, i) == [CleanOption(s[a..e])] + Cleaned(s, e)
  {
    var later := OptionSpans(s, e);
    SpanTextsCons(s, Span(a, e), later);
    CleanOptionsCons(s[a..e], SpanTexts(s, later));
  }

  /** Positions without a label are passed over one by one. */
  lemma {:induction false} ScanSkips(s: string, i: nat, j: nat)
    requires i <= j <= |s|
    requires forall k :: i <= k < j ==> !MarkerAt(s, k)
    ensures OptionSpans(s, i) == OptionSpans(s, j)
    decreases j - i
  {
    if i < j {
      ScanSkips(s, i + 1, j);
    }
  }

  /** Inside an option text, no option match can end: no line break before a label, no CORRECT marker. */
  lemma NoEndInside(s: string, u: string, o: string, after: string)
    requires s == u + o + after && NoMarker(o) && Absent(o, CorrectMarker)
    requires after != [] && after[0] == '\n'
    ensures forall k :: |u| < k < |u| + |o| ==> !OptionEndAt(s, k)
  {
    RegionNoMarker(s, u, o, after);
    RegionAbsent(s, u, o, after, CorrectMarker);
    forall k | |u| < k < |u| + |o| ensures !BreakAt(s, k) {
      if k + 1 == |u| + |o| {
        assert s[k + 1] == '\n';
      }
    }
  }

  /** A label written as the prompt shows it: a line break, the letter, `)` and one space before the text. */
  lemma LabelAt(s: string, pre: string, j: nat, rest: string)
    requires j < 4 && s == pre + ("\n" + [OptionLabel(j)] + ") ") + rest
    requires rest != [] && !IsWhite(rest[0])
    ensures s[|pre|] == '\n' && MarkerAt(s, |pre| + 1) && !MarkerAt(s, |pre|)
    ensures SkipWhite(s, |pre| + 3) == |pre| + 4
  {
    var i := |pre|;
    assert s[i] == '\n' && s[i + 1] == OptionLabel(j) && s[i + 2] == ')' && s[i + 3] == ' ';
    assert s[i + 4] == rest[0];
    assert SkipWhite(s, i + 4) == i + 4;
  }

  /** Where an option line stops: at the next label's line break, or just past the break before CORRECT. */
  lemma LineEnd(s: string, v: string, after: string, last: bool, e: nat)
    requires s == v + after && after != [] && after[0] == '\n'
    requires last ==> OccursAt(after, 1, CorrectMarker)
    requires !last ==> |after| >= 3 && IsLetter(after[1]) && after[2] == ')'
    requires e == |v| + (if last then 1 else 0)
    ensures e <= |s| && OptionEndAt(s, e)
    ensures last ==> !OptionEndAt(s, |v|)
  {
    var n := |v|;
    assert s[n] == '\n';
    if last {
      assert s[n + 1..n + 1 + |CorrectMarker|] == after[1..1 + |CorrectMarker|];
      assert s[n + 1] == 'C' && s[n + 2] == 'O';
      assert s[n] != CorrectMarker[0];
    } else {
      assert s[n + 1] == after[1] && s[n + 2] == after[2];
    }
  }

  /** The first end of an option match at or after i, given by where it is and that none precedes it. */
  lemma NextOptionEndIs(s: string, i: nat, e: nat)
    requires i <= e <= |s| && OptionEndAt(s, e)
    requires forall k :: i <= k < e ==> !OptionEndAt(s, k)
    ensures NextOptionEnd(s, i) == e
  {
    var f := NextOptionEnd(s, i);
    assert !(f < e) && !(e < f);
  }

  /** The global options search steps over a position without a label to the match at the next one. */
  lemma SpansAtLabel(s: string, i: nat, e: nat)
    requires i + 1 <= e <= |s| && !MarkerAt(s, i) && MarkerAt(s, i + 1)
    requires OptionMatchEnd(s, i + 1) == Some(e)
    ensures OptionSpans(s, i) == [Span(i + 1, e)] + OptionSpans(s, e)
  {
  }

  /** Concatenation regroups freely. */
  lemma Assoc(a: string, b: string, c: string)
    ensures a + (b + c) == (a + b) + c
  {
  }

  /** The match that starts at an option's label ends where the option line ends. */
  lemma BlockEnd(s: string, pre: string, o: string, j: nat, after: string, last: bool, e: nat)
    requires j < 4 && s == pre + Block(o, j) + after && PlainText(o)
    requires after != [] && after[0] == '\n'
    requires last ==> OccursAt(after, 1, CorrectMarker)
    requires !last ==> |after| >= 3 && IsLetter(after[1]) && after[2] == ')'
    requires e == |pre| + 4 + |o| + (if last then 1 else 0)
    ensures !MarkerAt(s, |pre|) && MarkerAt(s, |pre| + 1)
    ensures e <= |s| && OptionMatchEnd(s, |pre| + 1) == Some(e)
  {
    var i := |pre|;
    var lead := "\n" + [OptionLabel(j)] + ") ";
    var u := pre + lead;
    Assoc(pre, lead, o);
    Assoc(u, o, after);
    LabelAt(s, pre, j, o + after);
    NoEndInside(s, u, o, after);
    LineEnd(s, u + o, after, last, e);
    NextOptionEndIs(s, i + 5, e);
  }

  /**
   * One option line: the match that starts at its label ends at the next
   * option line, or for the last one at the CORRECT marker, and cleans to
   * the option text.
   */
  lemma BlockStep(s: string, pre: string, o: string, j: nat, after: string, last: bool, e: nat)
    requires j < 4 && s == pre + Block(o, j) + after && PlainText(o)
    requires after != [] && after[0] == '\n'
    requires last ==> OccursAt(after, 1, CorrectMarker)
    requires !last ==> |after| >= 3 && IsLetter(after[1]) && after[2] == ')'
    requires e == |pre| + 4 + |o| + (if last then 1 else 0)
    ensures e <= |s|
    ensures OptionSpans(s, |pre|) == [Span(|pre| + 1, e)] + OptionSpans(s, e)
    ensures CleanOption(s[|pre| + 1..e]) == o
  {
    BlockEnd(s, pre, o, j, after, last, e);
    SpansAtLabel(s, |pre|, e);
    BlockText(s, pre, o, j, after, e);
  }

  lemma BlockText(s: string, pre: string, o: string, j: nat, after: string, e: nat)
    requires j < 4 && s == pre + Block(o, j) + after && Trimmed(o)
    requires after != [] && after[0] == '\n'
    requires e == |pre| + 4 + |o| || e == |pre| + 5 + |o|
    requires e <= |s|
    ensures CleanOption(s[|pre| + 1..e]) == o
  {
    var b := Block(o, j);
    var x := b + after;
    var n: nat := e - |pre|;
    Assoc(pre, b, after);
    SliceAt(s, pre, x, |pre| + 1, e, 1, n);
    BlockSpan(o, j, after, n);
  }

  /** A slice of s == a + b that lies in b, with its ends given as positions in s. */
  lemma SliceAt(s: string, a: string, b: string, lo: nat, hi: nat, i: nat, j: nat)
    requires s == a + b && i <= j <= |b| && lo == |a| + i && hi == |a| + j
    ensures s[lo..hi] == b[i..j]
  {
  }

  /** What an option line's match holds, from its label to its end, cleans to the option text. */
  lemma BlockSpan(o: string, j: nat, after: string, n: nat)
    requires j < 4 && Trimmed(o) && after != [] && after[0] == '\n'
    requires n == 4 + |o| || n == 5 + |o|
    ensures CleanOption((Block(o, j) + after)[1..n]) == o
  {
    var x := Block(o, j) + after;
    var pad := if n == 5 + |o| then "\n" else "";
    var body := x[3..n];
    assert body == " " + o + pad;
    TrimOfPadded(" ", o, pad);
    var span := x[1..n];
    assert span[0] == OptionLabel(j) && span[1] == ')' && span[2..] == body;
    CleanLabelled(span);
  }

  /** An option line followed by further option lines: its match ends where the next line starts. */
  lemma InnerBlock(s: string, pre: string, opts: seq<string>, j: nat, tail: string, e: nat)
    requires |opts| > 1 && j + |opts| <= 4 && PlainText(opts[0])
    requires s == pre + Blocks(opts, j) + tail
    requires e == |pre| + 4 + |opts[0]|
    ensures e <= |s|
    ensures Cleaned(s, |pre|) == [opts[0]] + Cleaned(s, e)
    ensures s == (pre + Block(opts[0], j)) + Blocks(opts[1..], j + 1) + tail
    ensures |pre + Block(opts[0], j)| == e
  {
    var o := opts[0];
    var b := Block(o, j);
    var bs := Blocks(opts[1..], j + 1);
    assert Blocks(opts, j) == b + bs;
    Assoc(pre, b, bs);
    Assoc(pre + b, bs, tail);
    BlocksStart(opts[1..], j + 1);
    var after := bs + tail;
    assert after[0] == '\n' && after[1] == OptionLabel(j + 1) && after[2] == ')' by {
      assert after[0] == bs[0] && after[1] == bs[1] && after[2] == bs[2];
    }
    BlockStep(s, pre, o, j, after, false, e);
    CleanedCons(s, |pre|, |pre| + 1, e);
  }

  /** Option lines start with a line break and their label. */
  lemma BlocksStart(opts: seq<string>, j: nat)
    requires |opts| > 0 && j + |opts| <= 4
    ensures var bs := Blocks(opts, j);
      |bs| >= 4 && bs[0] == '\n' && bs[1] == OptionLabel(j) && bs[2] == ')'
  {
    var b := Block(opts[0], j);
    assert Blocks(opts, j) == b + Blocks(opts[1..], j + 1);
  }

  /** The last option line: its match ends just past the line break before CORRECT. */
  lemma LastBlock(s: string, pre: string, opts: seq<string>, j: nat, tail: string, end: nat)
    requires |opts| == 1 && j + 1 <= 4 && PlainText(opts[0])
    requires s == pre + Blocks(opts, j) + tail
    requires tail != [] && tail[0] == '\n' && OccursAt(tail, 1, CorrectMarker)
    requires end == |pre| + |Blocks(opts, j)| + 1
    ensures end <= |s|
    ensures Cleaned(s, |pre|) == opts + Cleaned(s, end)
  {
    var o := opts[0];
    assert Blocks(opts, j) == Block(o, j) + Blocks([], j + 1) == Block(o, j);
    assert s == pre + Block(o, j) + tail;
    BlockStep(s, pre, o, j, tail, true, end);
    CleanedCons(s, |pre|, |pre| + 1, end);
    assert opts == [o];
  }

  lemma CleanedAppend(s: string, i: nat, e: nat, end: nat, o: string, rest: seq<string>)
    requires i <= e <= end <= |s|
    requires Cleaned(s, i) == [o] + Cleaned(s, e)
    requires Cleaned(s, e) == rest + Cleaned(s, end)
    ensures Cleaned(s, i) == ([o] + rest) + Cleaned(s, end)
  {
    var later := Cleaned(s, end);
    assert [o] + (rest + later) == ([o] + rest) + later;
  }

  /** All option lines together read back as the options, in order. */
  lemma {:induction false} ScanBlocks(s: string, pre: string, opts: seq<string>, j: nat, tail: string, end: nat)
    requires opts != [] && j + |opts| <= 4
    requires forall k :: 0 <= k < |opts| ==> PlainText(opts[k])
    requires s == pre + Blocks(opts, j) + tail
    requires tail != [] && tail[0] == '\n' && OccursAt(tail, 1, CorrectMarker)
    requires end == |pre| + |Blocks(opts, j)| + 1
    ensures end <= |s|
    ensures Cleaned(s, |pre|) == opts + Cleaned(s, end)
    decreases |opts|
  {
    if |opts| == 1 {
      LastBlock(s, pre, opts, j, tail, end);
    } else {
      var e := |pre| + 4 + |opts[0]|;
      InnerBlock(s, pre, opts, j, tail, e);
      var pre' := pre + Block(opts[0], j);
      var rest := opts[1..];
      assert Blocks(opts, j) == Block(opts[0], j) + Blocks(rest, j + 1);
      ScanBlocks(s, pre', rest, j + 1, tail, end);
      CleanedAppend(s, |pre|, e, end, opts[0], rest);
      assert opts == [opts[0]] + rest;
    }
  }

  // ---------------------------------------------------------------------
  // The round trip

  /** The question line reads back as the question: it ends at the first option label. */
  lemma RenderedQuestion(s: string, q: string, rest: string)
    requires s == Header + q + rest && PlainText(q)
    requires |rest| >= 3 && rest[0] == '\n' && IsLetter(rest[1]) && rest[2] == ')'
    ensures SearchQuestion(s, 0) == Some(q)
  {
    var head := Header + q;
    var pb := |head|;
    assert s == head + rest;
    assert s[pb] == '\n' && s[pb + 1] == rest[1] && s[pb + 2] == ')';
    NoParenNoMarker(Header);
    ConcatNoMarker(Header, q);
    assert s == [] + head + rest;
    RegionNoMarker(s, [], head, rest);
    assert s[..9] == QuestionMarker;
    assert s[9] == ' ' && s[10] == q[0];
    assert SkipWhite(s, 10) == 10;
    assert SkipWhite(s, 9) == 10;
    forall k | 10 < k < pb ensures !BreakAt(s, k) {
      if k + 1 < pb {
        assert !MarkerAt(s, k + 1);
      }
    }
    QuestionIsTextBeforeFirstLabel(s, 0, pb);
    assert s[10..pb] == q;
  }

  /** No option label after the option lines: the scan past them finds nothing. */
  lemma NothingAfterOptions(s: string, front: string, letter: char, x: string, e: nat)
    requires s == front + Tail(letter, x) && NoMarker(x) && e == |front| + 1
    ensures e <= |s| && Cleaned(s, e) == []
  {
    var rest := "CORRECT: " + [letter] + "\nEXPLANATION: " + x;
    NoParenNoMarker("CORRECT: ");
    NoParenNoMarker("\nEXPLANATION: ");
    ConcatNoMarker("CORRECT: ", [letter]);
    ConcatNoMarker("CORRECT: " + [letter], "\nEXPLANATION: ");
    ConcatNoMarker("CORRECT: " + [letter] + "\nEXPLANATION: ", x);
    assert s == (front + "\n") + rest + [];
    RegionNoMarker(s, front + "\n", rest, []);
    ScanSkips(s, |front| + 1, |s|);
  }

  /** No option label in the question line: the scan starts at the first option line. */
  lemma NothingBeforeOptions(s: string, q: string, rest: string)
    requires s == Header + q + rest && PlainText(q)
    requires rest != [] && rest[0] == '\n'
    ensures OptionSpans(s, 0) == OptionSpans(s, |Header + q|)
  {
    var head := Header + q;
    NoParenNoMarker(Header);
    ConcatNoMarker(Header, q);
    assert s == [] + head + rest;
    RegionNoMarker(s, [], head, rest);
    ScanSkips(s, 0, |head|);
  }

  /** The option lines read back as the options, in order, from the first label on. */
  lemma OptionLines(s: string, q: string, opts: seq<string>, letter: char, x: string, end: nat)
    requires 1 <= |opts| <= 4 && (forall k :: 0 <= k < |opts| ==> PlainText(opts[k]))
    requires s == Header + q + Blocks(opts, 0) + Tail(letter, x)
    requires end == |Header + q| + |Blocks(opts, 0)| + 1
    ensures end <= |s| && Cleaned(s, |Header + q|) == opts + Cleaned(s, end)
  {
    TailStart(letter, x);
    ScanBlocks(s, Header + q, opts, 0, Tail(letter, x), end);
  }

  /** Nothing before the first option line and nothing after the last adds an option. */
  lemma CleanedBetween(s: string, a: nat, end: nat, opts: seq<string>)
    requires a <= end <= |s|
    requires OptionSpans(s, 0) == OptionSpans(s, a)
    requires Cleaned(s, a) == opts + Cleaned(s, end) && Cleaned(s, end) == []
    ensures Cleaned(s, 0) == opts
  {
    assert opts + [] == opts;
  }

  /** The option lines read back as the options, in order, and nothing after them adds one. */
  lemma RenderedOptions(s: string, q: string, opts: seq<string>, letter: char, x: string)
    requires 1 <= |opts| <= 4 && (forall k :: 0 <= k < |opts| ==> PlainText(opts[k]))
    requires PlainText(q) && NoMarker(x)
    requires s == Header + q + Blocks(opts, 0) + Tail(letter, x)
    ensures Cleaned(s, 0) == opts
  {
    var end := |Header + q| + |Blocks(opts, 0)| + 1;
    OptionsStart(s, q, opts, letter, x);
    OptionsEnd(s, q, opts, letter, x, end);
    OptionLines(s, q, opts, letter, x, end);
    CleanedBetween(s, |Header + q|, end, opts);
  }

  lemma OptionsStart(s: string, q: string, opts: seq<string>, letter: char, x: string)
    requires 1 <= |opts| <= 4 && PlainText(q)
    requires s == Header + q + Blocks(opts, 0) + Tail(letter, x)
    ensures OptionSpans(s, 0) == OptionSpans(s, |Header + q|)
  {
    var blocks := Blocks(opts, 0);
    assert blocks == Block(opts[0], 0) + Blocks(opts[1..], 1);
    assert s == Header + q + (blocks + Tail(letter, x));
    NothingBeforeOptions(s, q, blocks + Tail(letter, x));
  }

  lemma OptionsEnd(s: string, q: string, opts: seq<string>, letter: char, x: string, end: nat)
    requires |opts| <= 4 && NoMarker(x)
    requires s == Header + q + Blocks(opts, 0) + Tail(letter, x)
    requires end == |Header + q| + |Blocks(opts, 0)| + 1
    ensures end <= |s| && Cleaned(s, end) == []
  {
    var front := Header + q + Blocks(opts, 0);
    assert s == front + Tail(letter, x);
    NothingAfterOptions(s, front, letter, x, end);
  }

  lemma TailStart(letter: char, x: string)
    ensures Tail(letter, x) != [] && Tail(letter, x)[0] == '\n'
    ensures OccursAt(Tail(letter, x), 1, CorrectMarker)
  {
    assert Tail(letter, x)[1..1 + |CorrectMarker|] == CorrectMarker;
  }

  /** Options that clean to a non-empty list came from a match of the options pattern. */
  lemma MatchedOptions(s: string)
    requires Cleaned(s, 0) != []
    ensures MatchOptions(s).Some? && CleanOptions(MatchOptions(s).value) == Cleaned(s, 0)
  {
  }

  /** Neither the question line nor the option lines hold a marker that one of their characters cannot start. */
  lemma FrontAbsent(q: string, opts: seq<string>, pat: string, i: nat)
    requires |opts| <= 4 && (forall k :: 0 <= k < |opts| ==> PlainText(opts[k]))
    requires PlainText(q) && Absent(q, pat)
    requires forall k :: 0 <= k < |opts| ==> Absent(opts[k], pat)
    requires |pat| > 4 && ' ' !in pat && '\n' !in pat && i < |pat| && pat[i] !in Header
    ensures Absent(Header + q + Blocks(opts, 0), pat)
  {
    CharAbsent(Header, pat, i);
    ConcatAbsent(Header, q, pat);
    BlocksAbsent(opts, 0, pat);
    var blocks := Blocks(opts, 0);
    assert opts != [] ==> blocks == Block(opts[0], 0) + Blocks(opts[1..], 1);
    ConcatAbsent(Header + q, blocks, pat);
  }

  /** The CORRECT line reads back as its letter. */
  lemma RenderedCorrect(s: string, front: string, letter: char, x: string)
    requires s == front + Tail(letter, x) && Absent(front, CorrectMarker) && IsLetter(letter)
    ensures SearchCorrect(s, 0) == Some(letter)
  {
    var tail := Tail(letter, x);
    var pt := |front|;
    assert s == [] + front + tail;
    RegionAbsent(s, [], front, tail, CorrectMarker);
    assert s[pt + 1..pt + 9] == CorrectMarker;
    assert s[pt + 9] == ' ' && s[pt + 10] == letter;
    assert SkipWhite(s, pt + 10) == pt + 10;
    assert SkipWhite(s, pt + 9) == pt + 10;
    assert CorrectAt(s, pt + 1);
    forall k | 0 <= k < pt + 1 ensures !CorrectAt(s, k) {
      if k == pt {
        assert s[k] != CorrectMarker[0];
      }
    }
    SearchCorrectSkips(s, 0, pt + 1);
  }

  /** A slice of the second part of a concatenation. */
  lemma SliceOfRight(s: string, a: string, b: string, i: nat, j: nat)
    requires s == a + b && i <= j <= |b|
    ensures s[|a| + i..|a| + j] == b[i..j]
  {
  }

  /** The last two lines of a rendered reply, and what the EXPLANATION line holds. */
  lemma TailLines(letter: char, x: string)
    requires IsLetter(letter)
    ensures Tail(letter, x) == ("\nCORRECT: " + [letter]) + ("\nEXPLANATION: " + x)
    ensures |"\nCORRECT: " + [letter]| == 11
    ensures ("\nEXPLANATION: " + x)[1..13] == ExplanationMarker
    ensures ("\nEXPLANATION: " + x)[13..] == " " + x
    ensures Absent("\nCORRECT: " + [letter], ExplanationMarker)
  {
    CharAbsent("\nCORRECT: " + [letter], ExplanationMarker, 1);
  }

  /** The first EXPLANATION marker of a rendered reply is the one on its last line. */
  lemma ExplanationMarkerFirst(s: string, front: string, letter: char, x: string, p: nat)
    requires s == front + Tail(letter, x) && Absent(front, ExplanationMarker) && IsLetter(letter)
    requires p == |front| + 12
    ensures p + 12 <= |s| && s[p + 12..] == " " + x
    ensures OccursAt(s, p, ExplanationMarker)
    ensures forall k :: 0 <= k < p ==> !OccursAt(s, k, ExplanationMarker)
  {
    var lineC := "\nCORRECT: " + [letter];
    var lineE := "\nEXPLANATION: " + x;
    TailLines(letter, x);
    var head := front + lineC;
    assert s == head + lineE;
    assert |head| == p - 1;
    ConcatAbsent(front, lineC, ExplanationMarker);
    assert s == [] + head + lineE;
    RegionAbsent(s, [], head, lineE, ExplanationMarker);
    SliceOfRight(s, head, lineE, 1, 13);
    SliceOfRight(s, head, lineE, 13, |lineE|);
    SliceOfRight(s, head, lineE, 0, 1);
    forall k | 0 <= k < p ensures !OccursAt(s, k, ExplanationMarker) {
      if k == p - 1 {
        assert s[k] == '\n';
      }
    }
  }

  /** The EXPLANATION line reads back as the explanation. */
  lemma RenderedExplanation(s: string, front: string, letter: char, x: string)
    requires s == front + Tail(letter, x) && Absent(front, ExplanationMarker) && IsLetter(letter)
    requires Trimmed(x)
    ensures ExplanationText(s) == x
  {
    var p := |front| + 12;
    ExplanationMarkerFirst(s, front, letter, x, p);
    ExplanationIsRest(s, p);
    assert " " + x + "" == s[p + 12..];
    TrimOfPadded(" ", x, "");
  }

  /** A reply whose four parts each read back parses to the exercise made of them. */
  lemma ParseOfParts(s: string, q: string, opts: seq<string>, letter: char, x: string)
    requires SearchQuestion(s, 0) == Some(q) && Trimmed(q)
    requires Cleaned(s, 0) == opts && opts != []
    requires SearchCorrect(s, 0) == Some(letter)
    requires ExplanationText(s) == x
    ensures ParseExercise(s) == Parsed(GeneratedExercise(q, opts, LetterIndex(letter), x))
  {
    MatchedOptions(s);
    TrimOfPadded("", q, "");
    assert "" + q + "" == q;
  }

  /** A reply in the prompt's format parses to the exercise it was rendered from. */
  lemma RenderParseRoundTrip(e: GeneratedExercise)
    requires Renderable(e)
    ensures ParseExercise(Render(e)) == Parsed(e)
  {
    var s := Render(e);
    var q := e.question;
    var opts := e.options;
    var letter := OptionLabel(e.correctAnswer);
    QuestionOf(e);
    RenderedOptions(s, q, opts, letter, e.explanation);
    CorrectOf(e);
    ExplanationOf(e);
    ParseOfParts(s, q, opts, letter, e.explanation);
  }

  lemma QuestionOf(e: GeneratedExercise)
    requires Renderable(e)
    ensures SearchQuestion(Render(e), 0) == Some(e.question)
  {
    var s := Render(e);
    var blocks := Blocks(e.options, 0);
    var tail := Tail(OptionLabel(e.correctAnswer), e.explanation);
    assert blocks == Block(e.options[0], 0) + Blocks(e.options[1..], 1);
    assert s == Header + e.question + (blocks + tail);
    RenderedQuestion(s, e.question, blocks + tail);
  }

  lemma CorrectOf(e: GeneratedExercise)
    requires Renderable(e)
    ensures SearchCorrect(Render(e), 0) == Some(OptionLabel(e.correctAnswer))
  {
    var front := Header + e.question + Blocks(e.options, 0);
    FrontAbsent(e.question, e.options, CorrectMarker, 0);
    RenderedCorrect(Render(e), front, OptionLabel(e.correctAnswer), e.explanation);
  }

  lemma ExplanationOf(e: GeneratedExercise)
    requires Renderable(e)
    ensures ExplanationText(Render(e)) == e.explanation
  {
    var front := Header + e.question + Blocks(e.options, 0);
    FrontAbsent(e.question, e.options, ExplanationMarker, 1);
    RenderedExplanation(Render(e), front, OptionLabel(e.correctAnswer), e.explanation);
  }

  // ---------------------------------------------------------------------
  // What the parser leaves unchecked

  /**
   * The checks the prompt's format suggests and the parser does not make:
   * exactly four options, an answer index among them, and no blank question
   * or option.
   */
  ghost predicate CompleteExercise(e: GeneratedExercise) {
    && |e.options| == 4
    && 0 <= e.correctAnswer < |e.options|
    && !IsBlank(e.question)
    && (forall k :: 0 <= k < |e.options| ==> !IsBlank(e.options[k]))
  }

  /** A reply with one option and the answer D parses, to an exercise whose answer names no option. */
  lemma ParserAcceptsIncomplete() returns (content: string)
    ensures ParseExercise(content).Parsed?
    ensures |ParseExercise(content).exercise.options| == 1
    ensures ParseExercise(content).exercise.correctAnswer == 3
    ensures !CompleteExercise(ParseExercise(content).exercise)
  {
    var e := GeneratedExercise("Q", ["a"], 3, "");
    assert NoMarker("Q") && NoMarker("a") && NoMarker("");
    assert Renderable(e);
    RenderParseRoundTrip(e);
    content := Render(e);
  }
}
