/** The fixed-size buffered line reader of src/stack_line_reader.c over a file whose reads may
    return fewer bytes than asked for.
  */
module LineReader {
  import opened Text
  import StringView

  function Min(a: nat, b: nat): nat {
    if a < b then a else b
  }

  /** At most limit characters of s: what fits the buffer. */
  function Cut(s: string, limit: nat): string {
    s[..Min(|s|, limit)]
  }

  /** A NUL-free file. A greedy file hands out all it can; any other may hand out less, but at
      least one byte while some are left. */
  class File {
    const content: string
    const greedy: bool
    var pos: nat

    ghost predicate Valid()
      reads this
    {
      pos <= |content| && NulFree(content)
    }

    ghost function Unread(): string
      requires Valid()
      reads this
    {
      content[pos..]
    }

    constructor (content: string, greedy: bool)
      requires NulFree(content)
      ensures Valid() && pos == 0
      ensures this.content == content && this.greedy == greedy
    {
      this.content, this.greedy, pos := content, greedy, 0;
    }

    method Read(buffer: array<char>, at: nat, count: nat) returns (n: nat)
      requires Valid() && at + count <= buffer.Length
      modifies `pos, buffer
      ensures Valid() && n <= Min(count, |old(Unread())|)
      ensures n == 0 <==> count == 0 || old(Unread()) == ""
      ensures greedy ==> n == Min(count, |old(Unread())|)
      ensures old(Unread()) == buffer[at..at + n] + Unread()
      ensures buffer[..at] == old(buffer[..at])
      ensures NulFree(buffer[at..at + n])
    {
      var most := Min(count, |content| - pos);
      n := most;
      if !greedy && most > 0 {
        n :| 1 <= n <= most;
      }
      forall i | 0 <= i < n {
        buffer[at + i] := content[pos + i];
      }
      assert buffer[at..at + n] == content[pos..pos + n];
      pos := pos + n;
    }
  }

  datatype LineResult = LineResult(line: string, eof: bool, fullLine: bool)

  /** Where a reader stands: the text it has still to read or deliver, how much of that text is
      already buffered, and whether it must first skip the tail of a truncated line. */
  datatype Cursor = Cursor(text: string, buffered: nat, skipping: bool) {
    /** What is still to be delivered. */
    function Pending(): string {
      if skipping then After(text, '\n') else text
    }

    /** All that is pending is buffered: nothing is left to load. */
    predicate Drained() {
      !skipping && buffered == |text|
    }
  }

  function AtStart(content: string): Cursor {
    Cursor(content, 0, false)
  }

  /** What is buffered behind the next newline of the text when full buffers are loaded one after
      the other until one holds it. */
  function BufferedBehindTail(limit: nat, text: string): nat
    decreases |text|
  {
    var chunk := Cut(text, limit);
    if chunk == "" then 0
    else if '\n' in chunk then |After(chunk, '\n')|
    else BufferedBehindTail(limit, text[|chunk|..])
  }

  /** Where a greedy reader stands once a truncated line's tail is skipped. */
  function Resumed(limit: nat, s: Cursor): Cursor {
    if s.skipping then Cursor(s.Pending(), BufferedBehindTail(limit, s.text), false) else s
  }

  /** How much of the text is buffered once a line is looked for: a greedy reader loads only if no
      newline is buffered, and then fills the buffer. */
  function Loaded(limit: nat, text: string, buffered: nat): nat {
    if '\n' in Cut(text, buffered) then Min(buffered, |text|) else Min(limit, |text|)
  }

  /** Where one call takes a greedy reader. */
  function GreedyNext(limit: nat, s: Cursor): Cursor {
    var u := Resumed(limit, s);
    var view := Cut(u.text, Loaded(limit, u.text, u.buffered));
    if '\n' in view then Cursor(After(u.text, '\n'), |After(view, '\n')|, false)
    else if u.Drained() then u
    else Cursor(u.text[|view|..], 0, true)
  }

  /** What one call promises, whatever the buffer holds. It takes the first line off the pending
      text: whole, or truncated with its tail dropped; or it reports the end of the file. A last line
      without a newline is the end of the file only when it was buffered before the call, or behind a
      skipped tail; otherwise it comes out as truncated, however short it is. Greedy reads leave no
      choice at all. */
  predicate Step(limit: nat, greedy: bool, s: Cursor, r: LineResult, t: Cursor) {
    var line, hasEol := Before(s.Pending(), '\n'), '\n' in s.Pending();
    && (s.Drained() ==> t.Drained())
    && (t.skipping <==> !r.fullLine)
    && (r.eof && !s.skipping ==> s.Drained())
    && (r.eof ==>
          r.fullLine && !hasEol && r.line == line && |line| < limit && t.Pending() == s.Pending() && t.Drained())
    && (!r.eof && r.fullLine ==>
          hasEol && r.line == line && |line| < limit && t.Pending() == After(s.Pending(), '\n'))
    && (!r.fullLine ==>
          && r.line != "" && r.line <= line && |r.line| <= limit && !s.Drained()
          && t.Pending() == After(s.Pending(), '\n')
          && (greedy ==> r.line == Cut(line, limit) && (hasEol ==> |line| >= limit)))
    && (greedy ==> t == GreedyNext(limit, s))
  }

  /** Greedy reads decide the result and the next state. */
  lemma GreedyIsDeterminate(limit: nat, s: Cursor, r: LineResult, t: Cursor, r': LineResult, t': Cursor)
    requires Step(limit, true, s, r, t) && Step(limit, true, s, r', t')
    ensures r == r' && t == t'
  {
    assert r.eof <==> r.fullLine && '\n' !in s.Pending();
    assert r'.eof <==> r'.fullLine && '\n' !in s.Pending();
  }

  lemma EofStep(limit: nat, greedy: bool, s: Cursor)
    requires '\n' !in s.text && |s.text| < limit && s.Drained()
    ensures Step(limit, greedy, s, LineResult(s.text, true, true), s)
  {
    hide BufferedBehindTail;
    NoSeparator(s.text, '\n');
  }

  lemma TruncatedStep(limit: nat, greedy: bool, s: Cursor, view: string, rest: string)
    requires !s.skipping && s.text == view + rest && !s.Drained() && '\n' !in view && 0 < |view| <= limit
    requires greedy ==> |view| == Loaded(limit, s.text, s.buffered)
    ensures Step(limit, greedy, s, LineResult(view, false, false), Cursor(rest, 0, true))
  {
    CutPrefix(view, rest, '\n');
    assert s.text[..|view|] == view && s.text[|view|..] == rest;
  }

  lemma FullStep(limit: nat, greedy: bool, s: Cursor, view: string, rest: string)
    requires !s.skipping && s.text == view + rest && '\n' in view && |view| <= limit
    requires s.Drained() ==> rest == ""
    requires greedy ==> |view| == Loaded(limit, s.text, s.buffered)
    ensures Step(limit, greedy, s, LineResult(Before(view, '\n'), false, true),
                 Cursor(After(view, '\n') + rest, |After(view, '\n')|, false))
  {
    FindPresent(view, '\n');
    CutAppend(view, rest, '\n');
    assert s.text[..|view|] == view;
  }

  /** Before the skipping the same text allows whatever it allows afterwards. */
  lemma AfterSkipping(limit: nat, greedy: bool, s: Cursor, s': Cursor, r: LineResult, t: Cursor)
    requires s.Pending() == s'.Pending() && s.skipping && !s'.skipping && Step(limit, greedy, s', r, t)
    requires greedy ==> s' == Resumed(limit, s)
    ensures Step(limit, greedy, s, r, t)
  {
  }

  lemma NothingBehindEnd(limit: nat)
    ensures After("", '\n') == "" && BufferedBehindTail(limit, "") == 0
  {
  }

  /** One chunk of the tail: it ends the tail, or the rest decides. */
  lemma ChunkOfTail(limit: nat, greedy: bool, chunk: string, rest: string)
    requires chunk != "" && (greedy ==> chunk == Cut(chunk + rest, limit))
    ensures var tail := chunk + rest;
            && After(tail, '\n') == (if '\n' in chunk then After(chunk, '\n') + rest else After(rest, '\n'))
            && (greedy ==> BufferedBehindTail(limit, tail) ==
                           if '\n' in chunk then |After(chunk, '\n')| else BufferedBehindTail(limit, rest))
  {
    if '\n' in chunk {
      CutAppend(chunk, rest, '\n');
    } else {
      CutPrefix(chunk, rest, '\n');
      assert (chunk + rest)[|chunk|..] == rest;
    }
  }

  class StackLineReader {
    const buffer: array<char>
    const file: File
    var ptr: nat
    var size: nat
    var skipMode: bool

    /** Outside skip mode there is always room to load more. */
    ghost predicate Valid()
      reads this, buffer, file
    {
      && file.Valid() && buffer.Length > 0
      && ptr + size <= buffer.Length
      && (!skipMode ==> size < buffer.Length && NulFree(View()))
    }

    function View(): (r: string)
      requires ptr + size <= buffer.Length
      reads this, buffer
      ensures |r| == size
    {
      buffer[ptr..ptr + size]
    }

    /** In skip mode the buffered text is already delivered. */
    ghost function State(): Cursor
      requires Valid()
      reads this, buffer, file
    {
      if skipMode then Cursor(file.Unread(), 0, true) else Cursor(View() + file.Unread(), size, false)
    }

    constructor (file: File, capacity: nat)
      requires file.Valid() && capacity > 0
      ensures Valid() && fresh(buffer) && buffer.Length == capacity && this.file == file
      ensures !skipMode && View() == "" && State() == AtStart(file.Unread())
    {
      buffer := new char[capacity];
      this.file := file;
      ptr, size, skipMode := 0, 0, false;
      new;
      assert View() + file.Unread() == file.Unread();
    }

    method LoadFullBuffer() returns (read: nat)
      requires Valid()
      modifies `ptr, `size, buffer, file`pos
      ensures file.Valid() && ptr == 0 && size == read <= buffer.Length && NulFree(View())
      ensures old(file.Unread()) == View() + file.Unread()
      ensures read == 0 <==> old(file.Unread()) == ""
      ensures file.greedy ==> View() == Cut(old(file.Unread()), buffer.Length)
    {
      read := file.Read(buffer, 0, buffer.Length);
      ptr, size := 0, read;
    }

    method LoadMore() returns (read: nat)
      requires Valid() && !skipMode && ptr == 0
      modifies `size, buffer, file`pos
      ensures file.Valid() && size == old(size) + read <= buffer.Length && NulFree(View())
      ensures View() + file.Unread() == old(View() + file.Unread())
      ensures read == 0 <==> old(file.Unread()) == ""
      ensures read == 0 ==> View() == old(View())
      ensures file.greedy ==> size == buffer.Length || file.Unread() == ""
    {
      read := file.Read(buffer, size, buffer.Length - size);
      assert buffer[..size + read] == buffer[..size] + buffer[size..size + read];
      size := size + read;
    }

    method IndexOfEol() returns (r: int)
      requires ptr + size <= buffer.Length && NulFree(View())
      ensures r < 0 <==> '\n' !in View()
      ensures r >= 0 ==> r == Find(View(), '\n')
    {
      r := StringView.IndexOfChar(View(), '\n');
    }

    method BringToFrontAndLoadMore() returns (read: nat)
      requires Valid() && !skipMode
      modifies `ptr, `size, buffer, file`pos
      ensures file.Valid() && ptr == 0 && size == old(size) + read <= buffer.Length && NulFree(View())
      ensures View() + file.Unread() == old(View() + file.Unread())
      ensures read == 0 <==> old(file.Unread()) == ""
      ensures read == 0 ==> View() == old(View())
      ensures file.greedy ==> size == buffer.Length || file.Unread() == ""
    {
      if size != 0 && ptr != 0 {
        forall i | 0 <= i < size {
          buffer[i] := buffer[ptr + i];
        }
        assert buffer[..size] == old(View());
      }
      ptr := 0;
      read := LoadMore();
    }

    /** Takes the line before the newline at eol off the view. */
    method PopLine(eol: nat) returns (line: string)
      requires ptr + size <= buffer.Length && NulFree(View())
      requires '\n' in View() && eol == Find(View(), '\n')
      modifies `ptr, `size
      ensures ptr + size <= buffer.Length && size < old(size) && NulFree(View())
      ensures line == old(Before(View(), '\n')) && View() == old(After(View(), '\n')) && NulFree(line)
    {
      FindPresent(View(), '\n');
      line := StringView.KeepFront(View(), eol);
      ptr, size := ptr + eol + 1, size - (eol + 1);
    }

    /** Drops everything up to the next newline, or the whole file if there is none. */
    method SkipToNextLine()
      requires Valid() && skipMode
      modifies `ptr, `size, buffer, file`pos
      ensures file.Valid() && ptr + size <= buffer.Length && size < buffer.Length && NulFree(View())
      ensures View() + file.Unread() == After(old(file.Unread()), '\n')
      ensures file.greedy ==> size == BufferedBehindTail(buffer.Length, old(file.Unread()))
    {
      hide BufferedBehindTail, After;
      NothingBehindEnd(buffer.Length);
      while true
        invariant Valid()
        invariant After(file.Unread(), '\n') == After(old(file.Unread()), '\n')
        invariant file.greedy ==> BufferedBehindTail(buffer.Length, file.Unread()) ==
                                  BufferedBehindTail(buffer.Length, old(file.Unread()))
        decreases |file.Unread()|
      {
        var read := LoadFullBuffer();
        if read == 0 {
          break;
        }
        ChunkOfTail(buffer.Length, file.greedy, View(), file.Unread());
        var eol := IndexOfEol();
        if eol >= 0 {
          var _ := PopLine(eol);
          break;
        }
      }
    }

    method NextLine() returns (r: LineResult)
      requires Valid()
      modifies `ptr, `size, `skipMode, buffer, file`pos
      ensures Valid()
      ensures Step(buffer.Length, file.greedy, old(State()), r, State()) && NulFree(r.line)
    {
      hide Step, BufferedBehindTail, Before, After, GreedyNext;
      ghost var s, skipping := State(), skipMode;
      if skipMode {
        SkipToNextLine();
        skipMode := false;
      }
      ghost var s' := State();
      r := TakeLine();
      if skipping {
        AfterSkipping(buffer.Length, file.greedy, s, s', r, State());
      }
    }

    /** The part of NextLine behind the skipping. */
    method TakeLine() returns (r: LineResult)
      requires Valid() && !skipMode
      modifies `ptr, `size, `skipMode, buffer, file`pos
      ensures Valid()
      ensures Step(buffer.Length, file.greedy, old(State()), r, State()) && NulFree(r.line)
    {
      hide Step;
      ghost var s := State();
      var canLoadMore := size < buffer.Length;
      var eol := IndexOfEol();
      assert Cut(s.text, s.buffered) == View();
      if eol < 0 && canLoadMore {
        var read := BringToFrontAndLoadMore();
        if read == 0 {
          r := LineResult(View(), true, true);
          assert View() + file.Unread() == View() == s.text;
          EofStep(buffer.Length, file.greedy, s);
          return;
        }
        eol := IndexOfEol();
      }
      r := Deliver(eol, s);
    }

    /** Hands out the line before eol, or the whole view when no newline is buffered. */
    method Deliver(eol: int, ghost s: Cursor) returns (r: LineResult)
      requires file.Valid() && ptr + size <= buffer.Length && NulFree(View()) && !skipMode
      requires !s.skipping && s.text == View() + file.Unread() && (s.Drained() ==> file.Unread() == "")
      requires eol < 0 <==> '\n' !in View()
      requires eol >= 0 ==> eol == Find(View(), '\n')
      requires eol < 0 ==> size > 0 && !s.Drained()
      requires file.greedy ==> size == Loaded(buffer.Length, s.text, s.buffered)
      modifies `ptr, `size, `skipMode
      ensures Valid() && Step(buffer.Length, file.greedy, s, r, State()) && NulFree(r.line)
    {
      hide Step, Loaded, Before, After, Find, GreedyNext, NulFree, StackLineReader.View;
      var view := View();
      ghost var rest := file.Unread();
      if eol < 0 {
        TruncatedStep(buffer.Length, file.greedy, s, view, rest);
        skipMode := true;
        r := LineResult(view, false, false);
      } else {
        FullStep(buffer.Length, file.greedy, s, view, rest);
        var line := PopLine(eol);
        r := LineResult(line, false, true);
      }
    }
  }

  /** The bytes of q full chunks. */
  function Chunks(q: nat, limit: nat): nat {
    if q == 0 then 0 else Chunks(q - 1, limit) + limit
  }

  lemma {:induction false} ChunksAre(q: nat, limit: nat)
    ensures Chunks(q, limit) == q * limit
  {
    if q > 0 {
      ChunksAre(q - 1, limit);
      assert q * limit == (q - 1) * limit + limit;
    }
  }

  /** How much is buffered behind a tail, in closed form: q full chunks without the newline, then one
      that holds it, which the end of the file may cut short. */
  lemma BehindTailIs(limit: nat, text: string, q: nat)
    requires '\n' in text && q * limit <= Find(text, '\n') < q * limit + limit
    ensures BufferedBehindTail(limit, text) == Min(q * limit + limit, |text|) - (Find(text, '\n') + 1)
  {
    hide BufferedBehindTail, Find, Chunks;
    ChunksAre(q, limit);
    BehindChunks(limit, text, q);
  }

  lemma {:induction false} BehindChunks(limit: nat, text: string, q: nat)
    requires '\n' in text && Chunks(q, limit) <= Find(text, '\n') < Chunks(q, limit) + limit
    ensures BufferedBehindTail(limit, text) == Min(Chunks(q, limit) + limit, |text|) - (Find(text, '\n') + 1)
    decreases q
  {
    hide BufferedBehindTail, Find;
    FindPresent(text, '\n');
    if q == 0 {
      LastChunk(limit, text);
    } else {
      FullChunk(limit, text);
      BehindChunks(limit, text[limit..], q - 1);
    }
  }

  lemma LastChunk(limit: nat, text: string)
    requires Find(text, '\n') < |text| && Find(text, '\n') < limit
    ensures BufferedBehindTail(limit, text) == Min(limit, |text|) - (Find(text, '\n') + 1)
  {
    hide Find;
    var n, chunk := Find(text, '\n'), Cut(text, limit);
    assert chunk[n] == '\n';
    FindIs(chunk, '\n', n);
  }

  lemma FullChunk(limit: nat, text: string)
    requires 0 < limit <= Find(text, '\n') < |text|
    ensures BufferedBehindTail(limit, text) == BufferedBehindTail(limit, text[limit..])
    ensures '\n' in text[limit..] && Find(text, '\n') == limit + Find(text[limit..], '\n')
  {
    hide Find;
    var n, rest := Find(text, '\n'), text[limit..];
    assert Cut(text, limit) == text[..limit] && '\n' !in text[..limit];
    assert rest[n - limit] == '\n';
    FindIs(rest, '\n', n - limit);
  }
}
