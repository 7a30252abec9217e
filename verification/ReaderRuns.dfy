/** Whole runs of the line reader: every sequence of NextLine calls from the start of a file stays
    in step with the newline-split of that file.
  */
module ReaderRuns {
  import opened Text
  import opened LineReader

  /** Results of consecutive calls, with the reader's states before, between and after them. */
  predicate Run(limit: nat, greedy: bool, states: seq<Cursor>, results: seq<LineResult>) {
    && |states| == |results| + 1
    && forall i :: 0 <= i < |results| ==> Step(limit, greedy, states[i], results[i], states[i + 1])
  }

  /** A driver stops at the first end-of-file result. */
  predicate StopsAtEof(results: seq<LineResult>) {
    forall i :: 0 <= i < |results| - 1 ==> !results[i].eof
  }

  /** A run from a given state up to the first end-of-file result; over a whole file when it starts
      at the start. */
  predicate CompleteRun(limit: nat, greedy: bool, start: Cursor, states: seq<Cursor>, results: seq<LineResult>) {
    && Run(limit, greedy, states, results) && states[0] == start
    && StopsAtEof(results) && |results| > 0 && results[|results| - 1].eof
  }

  /** A driver part way through a file; it goes on until the end is reported. */
  predicate Driving(limit: nat, greedy: bool, start: Cursor, states: seq<Cursor>, results: seq<LineResult>,
                    goOn: bool) {
    && Run(limit, greedy, states, results) && states[0] == start
    && (if goOn then forall i :: 0 <= i < |results| ==> !results[i].eof
        else CompleteRun(limit, greedy, start, states, results))
  }

  lemma DriveOn(limit: nat, greedy: bool, start: Cursor, states: seq<Cursor>, results: seq<LineResult>,
                r: LineResult, t: Cursor)
    requires Driving(limit, greedy, start, states, results, true)
    requires Step(limit, greedy, states[|results|], r, t)
    ensures Driving(limit, greedy, start, states + [t], results + [r], !r.eof)
    ensures r.eof || |t.Pending()| < |states[|results|].Pending()|
  {
    hide Step;
    if !r.eof {
      Progress(limit, greedy, states[|results|], r, t);
    }
    RunOn(limit, greedy, states, results, r, t);
  }

  lemma RunOn(limit: nat, greedy: bool, states: seq<Cursor>, results: seq<LineResult>, r: LineResult, t: Cursor)
    requires Run(limit, greedy, states, results) && Step(limit, greedy, states[|results|], r, t)
    ensures Run(limit, greedy, states + [t], results + [r])
  {
    hide Step;
  }

  /** Before call i the reader stands at the start of piece i, or past a truncated last piece. */
  predicate StandsAt(s: Cursor, pieces: seq<string>, results: seq<LineResult>, i: nat)
    requires i <= |results|
  {
    if i < |pieces| then Split(s.Pending(), '\n') == pieces[i..]
    else i == |pieces| && s.Pending() == "" && i > 0 && !results[i - 1].fullLine
  }

  lemma {:induction false} InStepAt(limit: nat, greedy: bool, states: seq<Cursor>, results: seq<LineResult>, i: nat)
    requires Run(limit, greedy, states, results)
    requires i <= |results| && forall k :: 0 <= k < i ==> !results[k].eof
    ensures StandsAt(states[i], Split(states[0].Pending(), '\n'), results, i)
  {
    hide Split, Step;
    var pieces := Split(states[0].Pending(), '\n');
    if i == 0 {
      assert pieces == pieces[0..];
    } else {
      InStepAt(limit, greedy, states, results, i - 1);
      StepMovesOn(limit, greedy, states[i - 1], results[i - 1], states[i], pieces, results, i - 1);
    }
  }

  lemma StepMovesOn(limit: nat, greedy: bool, s: Cursor, r: LineResult, t: Cursor, pieces: seq<string>,
                    results: seq<LineResult>, i: nat)
    requires i < |results| && results[i] == r && !r.eof
    requires Step(limit, greedy, s, r, t) && StandsAt(s, pieces, results, i)
    ensures StandsAt(t, pieces, results, i + 1)
  {
    NoSeparator("", '\n');
    if i < |pieces| {
      assert pieces[i..][1..] == pieces[i + 1..];
      if '\n' !in s.Pending() {
        NoSeparator(s.Pending(), '\n');
        assert |pieces[i..]| == 1;
      }
    }
  }

  /** Reader and file stay in step, however short the reads: result i is a prefix of line i and is
      the whole line when it says so; no line is skipped, merged or delivered twice. The end of
      the file is reported with the last line, or once more after it came out truncated. */
  lemma StaysInStep(limit: nat, greedy: bool, states: seq<Cursor>, results: seq<LineResult>, i: nat)
    requires Run(limit, greedy, states, results) && StopsAtEof(results) && i < |results|
    ensures var lines, r := Split(states[0].Pending(), '\n'), results[i];
            && i <= |lines|
            && (i < |lines| ==> r.line <= lines[i] && |r.line| <= limit && (r.fullLine ==> r.line == lines[i]))
            && (i < |lines| - 1 ==> !r.eof)
            && (i == |lines| ==> r == LineResult("", true, true) && i > 0 && !results[i - 1].fullLine)
            && (greedy && i < |lines| ==> r.line == Cut(lines[i], limit))
            && (greedy && i < |lines| - 1 ==> (r.fullLine <==> |lines[i]| < limit))
  {
    var lines, s := Split(states[0].Pending(), '\n'), states[i];
    InStepAt(limit, greedy, states, results, i);
    assert Step(limit, greedy, s, results[i], states[i + 1]);
    NoSeparator("", '\n');
    if i < |lines| {
      assert lines[i..][0] == lines[i] == Before(s.Pending(), '\n') by {
        if '\n' !in s.Pending() {
          NoSeparator(s.Pending(), '\n');
        }
      }
      assert i < |lines| - 1 ==> '\n' in s.Pending();
      assert '\n' in s.Pending() ==> |Split(s.Pending(), '\n')| > 1;
    }
  }

  /** A driver that stops at the end of the file makes as many calls as the file has lines, or one
      more: at most newlines + 2. */
  lemma CallCount(limit: nat, greedy: bool, content: string, states: seq<Cursor>, results: seq<LineResult>)
    requires CompleteRun(limit, greedy, AtStart(content), states, results)
    ensures var lines := Split(content, '\n'); |results| == |lines| || |results| == |lines| + 1
    ensures |results| <= Newlines(content) + 2
  {
    StaysInStep(limit, greedy, states, results, |results| - 1);
    PieceCount(content);
  }

  function Newlines(s: string): nat {
    if s == "" then 0 else (if s[0] == '\n' then 1 else 0) + Newlines(s[1..])
  }

  lemma {:induction false} PieceCount(s: string)
    ensures |Split(s, '\n')| == Newlines(s) + 1
    decreases |s|
  {
    NewlinesFrom(s);
    if '\n' in s {
      CutRestores(s, '\n');
      PieceCount(After(s, '\n'));
    }
  }

  lemma {:induction false} NewlinesFrom(s: string)
    ensures Newlines(s) == if '\n' in s then 1 + Newlines(After(s, '\n')) else 0
  {
    if s != "" && s[0] != '\n' {
      NewlinesFrom(s[1..]);
      assert s == [s[0]] + s[1..];
      CutPrefix([s[0]], s[1..], '\n');
    }
  }

  /** The file's lines as the buffer can show them. */
  function CutLines(content: string, limit: nat): (lines: seq<string>)
    ensures |lines| == |Split(content, '\n')|
  {
    var pieces := Split(content, '\n');
    seq(|pieces|, i requires 0 <= i < |pieces| => Cut(pieces[i], limit))
  }

  function Lines(results: seq<LineResult>): (lines: seq<string>)
    ensures |lines| == |results|
    ensures forall i :: 0 <= i < |lines| ==> lines[i] == results[i].line
  {
    seq(|results|, i requires 0 <= i < |results| => results[i].line)
  }

  /** Under greedy reads a driver sees the split of the file, each piece cut to the buffer, and at
      most one further empty line. */
  lemma RefinesSplit(limit: nat, content: string, states: seq<Cursor>, results: seq<LineResult>)
    requires CompleteRun(limit, true, AtStart(content), states, results)
    ensures var lines := CutLines(content, limit); Lines(results) == lines || Lines(results) == lines + [""]
  {
    var lines := CutLines(content, limit);
    CallCount(limit, true, content, states, results);
    forall i | 0 <= i < |results|
      ensures Lines(results)[i] == if i < |lines| then lines[i] else ""
    {
      StaysInStep(limit, true, states, results, i);
    }
    if |results| == |lines| {
      assert Lines(results) == lines;
    } else {
      assert Lines(results) == lines + [""];
    }
  }

  /** Once the end of the file is reported, every further call reports the same. */
  lemma {:induction false} EofRepeats(limit: nat, greedy: bool, states: seq<Cursor>, results: seq<LineResult>,
                                      i: nat, j: nat)
    requires Run(limit, greedy, states, results)
    requires i <= j < |results| && results[i].eof
    ensures results[j] == results[i] && states[j + 1] == states[i + 1]
    decreases j
  {
    assert Step(limit, greedy, states[j], results[j], states[j + 1]);
    if i < j {
      EofRepeats(limit, greedy, states, results, i, j - 1);
      assert Step(limit, greedy, states[j - 1], results[j - 1], states[j]);
    }
  }

  /** Each call that is not the end of the file leaves less to deliver, so drivers terminate. */
  lemma Progress(limit: nat, greedy: bool, s: Cursor, r: LineResult, t: Cursor)
    requires Step(limit, greedy, s, r, t) && !r.eof
    ensures |t.Pending()| < |s.Pending()|
  {
  }

  // ----- The last line

  /** Outside skip mode, a last line without a newline is marked full exactly when it was buffered
      before the call. */
  lemma LastCall(limit: nat, greedy: bool, s: Cursor, r: LineResult, t: Cursor)
    requires Step(limit, greedy, s, r, t) && !s.skipping && '\n' !in s.text
    ensures r.fullLine <==> s.Drained()
  {
  }

  /** How much of the last line of the text a greedy reader has buffered when it comes to it. */
  function BufferedAtLast(limit: nat, text: string, buffered: nat): nat
    decreases |text|
  {
    if '\n' !in text then buffered
    else
      CutRestores(text, '\n');
      var view := Cut(text, Loaded(limit, text, buffered));
      BufferedAtLast(limit, After(text, '\n'),
                     if '\n' in view then |After(view, '\n')| else BufferedBehindTail(limit, text[|view|..]))
  }

  /** What a state says about the last line is kept by every call before it. */
  function BufferedAtLastFrom(limit: nat, s: Cursor): nat {
    var u := Resumed(limit, s);
    BufferedAtLast(limit, u.text, u.buffered)
  }

  lemma ResumedText(limit: nat, s: Cursor)
    ensures var u := Resumed(limit, s); !u.skipping && u.text == s.Pending()
  {
  }

  lemma StepKeepsLast(limit: nat, s: Cursor, r: LineResult, t: Cursor)
    requires Step(limit, true, s, r, t) && !r.eof
    ensures '\n' in s.Pending() ==> BufferedAtLastFrom(limit, t) == BufferedAtLastFrom(limit, s)
  {
    var u := Resumed(limit, s);
    var view := Cut(u.text, Loaded(limit, u.text, u.buffered));
    assert t == GreedyNext(limit, s);
    if '\n' in u.text && '\n' !in view {
      assert u.text == view + u.text[|view|..];
      CutPrefix(view, u.text[|view|..], '\n');
    }
  }

  lemma EofHasNoEol(limit: nat, greedy: bool, s: Cursor, r: LineResult, t: Cursor)
    requires Step(limit, greedy, s, r, t)
    ensures r.eof ==> '\n' !in s.Pending()
  {
  }

  /** The end of the file is reported with the last line or behind it. */
  lemma {:induction false} NoEofBefore(limit: nat, greedy: bool, states: seq<Cursor>, results: seq<LineResult>, i: nat)
    requires Run(limit, greedy, states, results)
    requires i <= |results| && i < |Split(states[0].Pending(), '\n')|
    ensures forall k :: 0 <= k < i ==> !results[k].eof
  {
    hide Split, Step;
    if i > 0 {
      NoEofBefore(limit, greedy, states, results, i - 1);
      InStepAt(limit, greedy, states, results, i - 1);
      SplitAt(states[i - 1].Pending(), '\n');
      EofHasNoEol(limit, greedy, states[i - 1], results[i - 1], states[i]);
    }
  }

  lemma {:induction false} KeptUpTo(limit: nat, states: seq<Cursor>, results: seq<LineResult>, i: nat)
    requires Run(limit, true, states, results)
    requires i < |results| && i < |Split(states[0].Pending(), '\n')|
    ensures BufferedAtLastFrom(limit, states[i]) == BufferedAtLastFrom(limit, states[0])
  {
    hide Split, Step, BufferedAtLastFrom;
    if i > 0 {
      KeptUpTo(limit, states, results, i - 1);
      NoEofBefore(limit, true, states, results, i);
      InStepAt(limit, true, states, results, i - 1);
      SplitAt(states[i - 1].Pending(), '\n');
      StepKeepsLast(limit, states[i - 1], results[i - 1], states[i]);
    }
  }

  /** Whether a greedy reader reports the last line of a file as full, and the end of the file with
      it. */
  predicate LastIsFull(limit: nat, content: string) {
    BufferedAtLast(limit, content, 0) == |LastPiece(content, '\n')|
  }

  /** The mark of the last line is decided by the file and the buffer size alone. */
  lemma LastLineMark(limit: nat, content: string, states: seq<Cursor>, results: seq<LineResult>)
    requires Run(limit, true, states, results) && states[0] == AtStart(content)
    requires |results| >= |Split(content, '\n')|
    ensures var r := results[|Split(content, '\n')| - 1];
            && (r.fullLine <==> LastIsFull(limit, content)) && (r.eof <==> LastIsFull(limit, content))
            && (r.eof ==> r.line == LastPiece(content, '\n'))
  {
    hide Split, LastPiece, BufferedAtLast, Step;
    var lines := Split(content, '\n');
    var i := |lines| - 1;
    NoEofBefore(limit, true, states, results, i);
    InStepAt(limit, true, states, results, i);
    KeptUpTo(limit, states, results, i);
    SplitAt(states[i].Pending(), '\n');
    LastOfSplit(content, '\n');
    assert lines[i..] == [lines[i]];
    MarkOfLast(limit, states[i], results[i], states[i + 1]);
  }

  /** From which call on a greedy reader reports the end of a file, and with which line. */
  lemma EndOfFile(limit: nat, content: string, states: seq<Cursor>, results: seq<LineResult>, i: nat)
    requires Run(limit, true, states, results) && states[0] == AtStart(content) && i < |results|
    ensures results[i].eof <==> i + (if LastIsFull(limit, content) then 1 else 0) >= |Split(content, '\n')|
    ensures results[i].eof ==> results[i].line == if LastIsFull(limit, content) then LastPiece(content, '\n') else ""
  {
    hide Split, LastPiece, LastIsFull, Step;
    var n := |Split(content, '\n')|;
    if i < n - 1 {
      NoEofBefore(limit, true, states, results, i + 1);
    } else {
      LastLineMark(limit, content, states, results);
      if LastIsFull(limit, content) {
        EofRepeats(limit, true, states, results, n - 1, i);
      } else if i >= n {
        NoEofBefore(limit, true, states, results, n - 1);
        InStepAt(limit, true, states, results, n);
        EndIsEof(limit, true, states[n], results[n], states[n + 1]);
        EofRepeats(limit, true, states, results, n, i);
      }
    }
  }

  lemma EndIsEof(limit: nat, greedy: bool, s: Cursor, r: LineResult, t: Cursor)
    requires Step(limit, greedy, s, r, t) && s.Pending() == ""
    ensures r.eof && r.line == ""
  {
  }

  lemma MarkOfLast(limit: nat, s: Cursor, r: LineResult, t: Cursor)
    requires Step(limit, true, s, r, t) && '\n' !in s.Pending()
    ensures r.fullLine <==> BufferedAtLastFrom(limit, s) == |s.Pending()|
    ensures r.eof <==> r.fullLine
    ensures r.eof ==> r.line == s.Pending()
  {
    NoSeparator(s.Pending(), '\n');
    ResumedText(limit, s);
    assert t == GreedyNext(limit, s);
  }

  /** When nothing is reported as truncated: every line that a newline ends is shorter than the
      buffer, and the last line is buffered when the reader comes to it. */
  lemma AllFullIff(limit: nat, content: string, states: seq<Cursor>, results: seq<LineResult>)
    requires CompleteRun(limit, true, AtStart(content), states, results)
    ensures var lines := Split(content, '\n');
            (forall i :: 0 <= i < |results| ==> results[i].fullLine) <==>
            (forall i :: 0 <= i < |lines| - 1 ==> |lines[i]| < limit) && LastIsFull(limit, content)
  {
    hide Split, Step, LastIsFull, Run;
    var lines := Split(content, '\n');
    CallCount(limit, true, content, states, results);
    LastLineMark(limit, content, states, results);
    forall i | 0 <= i < |results|
      ensures i < |lines| - 1 ==> (results[i].fullLine <==> |lines[i]| < limit)
      ensures i == |lines| ==> results[i].fullLine
    {
      StaysInStep(limit, true, states, results, i);
    }
  }

  /** A file that fits the buffer: nothing is reported as truncated exactly when it is empty or has a
      newline, wherever that is. */
  lemma SmallFile(limit: nat, content: string, states: seq<Cursor>, results: seq<LineResult>)
    requires CompleteRun(limit, true, AtStart(content), states, results)
    requires |content| <= limit
    ensures (forall i :: 0 <= i < |results| ==> results[i].fullLine) <==> content == "" || '\n' in content
  {
    AllFullIff(limit, content, states, results);
    PiecesFit(content);
    SmallFileMark(limit, content);
  }

  lemma SmallFileMark(limit: nat, content: string)
    requires |content| <= limit
    ensures LastIsFull(limit, content) <==> content == "" || '\n' in content
  {
    if '\n' in content {
      CutRestores(content, '\n');
      assert Cut(content, Loaded(limit, content, 0)) == content;
      AllBuffered(limit, After(content, '\n'));
    }
  }

  lemma {:induction false} AllBuffered(limit: nat, text: string)
    ensures BufferedAtLast(limit, text, |text|) == |LastPiece(text, '\n')|
    decreases |text|
  {
    if '\n' in text {
      CutRestores(text, '\n');
      assert Cut(text, Loaded(limit, text, |text|)) == text;
      AllBuffered(limit, After(text, '\n'));
    }
  }

  /** A line that a newline ends is shorter than the file. */
  lemma {:induction false} PiecesFit(content: string)
    ensures var lines := Split(content, '\n');
            forall i :: 0 <= i < |lines| - 1 ==> |lines[i]| < |content|
    decreases |content|
  {
    hide Split;
    SplitAt(content, '\n');
    if '\n' in content {
      CutRestores(content, '\n');
      PiecesFit(After(content, '\n'));
      var lines := Split(content, '\n');
      forall i | 0 < i < |lines|
        ensures lines[i] == lines[1..][i - 1]
      {
      }
    }
  }

  /** A greedily read file that is a single line without a newline takes two calls: the line comes
      out as truncated, though nothing of a short one is missing, and then the end of the file. */
  lemma UnterminatedFile(limit: nat, content: string, states: seq<Cursor>, results: seq<LineResult>)
    requires CompleteRun(limit, true, AtStart(content), states, results)
    requires content != "" && '\n' !in content
    ensures results == [LineResult(Cut(content, limit), false, false), LineResult("", true, true)]
  {
    NoSeparator(content, '\n');
    NoSeparator("", '\n');
    assert Step(limit, true, states[0], results[0], states[1]);
    assert |results| > 1 && Step(limit, true, states[1], results[1], states[2]);
    CallCount(limit, true, content, states, results);
  }

  /** The full-line flag can be trusted: when no result lacks it, the lines are exactly the file's. */
  lemma NothingTruncated(limit: nat, greedy: bool, content: string, states: seq<Cursor>, results: seq<LineResult>)
    requires CompleteRun(limit, greedy, AtStart(content), states, results)
    requires forall r :: r in results ==> r.fullLine
    ensures Lines(results) == Split(content, '\n')
  {
    CallCount(limit, greedy, content, states, results);
    forall i | 0 <= i < |results|
      ensures i < |Split(content, '\n')| && Lines(results)[i] == Split(content, '\n')[i]
    {
      StaysInStep(limit, greedy, states, results, i);
      assert results[i] in results && (i > 0 ==> results[i - 1] in results);
    }
  }
}
