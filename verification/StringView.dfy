/** The non-owning string views of src/string_view.c. A view is a string value; the NULL view is
    the empty one, since every null test there is paired with a size test. Routines that loop are
    methods proved against Text and Numerals.
  */
module StringView {
  import opened Text
  import opened Numerals

  function PopFront(view: string, count: nat): string {
    if count > |view| then "" else view[count..]
  }

  function PopBack(view: string, count: nat): string {
    if count > |view| then "" else view[..|view| - count]
  }

  function KeepFront(view: string, count: nat): string {
    if count <= |view| then view[..count] else view
  }

  predicate StartsWith(a: string, b: string) {
    b != "" && |a| >= |b| && a[..|b|] == b
  }

  /** The scan for a character gives up at a NUL, so only what precedes it is searched. */
  method IndexOfChar(view: string, c: char) returns (r: int)
    ensures r == if c in Before(view, '\0') then Find(view, c) else -1
    ensures NulFree(view) ==> r == if c in view then Find(view, c) else -1
  {
    var i := 0;
    while i < |view| && view[i] != '\0'
      invariant 0 <= i <= |view|
      invariant forall k :: 0 <= k < i ==> view[k] != c && view[k] != '\0'
    {
      if view[i] == c {
        FindIs(view, c, i);
        assert Before(view, '\0')[i] == c;
        return i;
      }
      i := i + 1;
    }
    FindIs(view, '\0', i);
    return -1;
  }

  /** The least occurrence of a non-empty sub-view, provided no NUL hides it. */
  function VisibleIndex(view: string, sub: string): (r: int)
    ensures r >= 0 ==> OccursAt(view, sub, r) && forall k :: 0 <= k < r ==> !OccursAt(view, sub, k)
    ensures sub != "" && NulFree(view) ==> r == FindSub(view, sub)
  {
    var i := FindSub(view, sub);
    if sub != "" && i >= 0 && NulFree(KeepFront(view, i + 1)) then i else -1
  }

  /** A sub-view is found exactly when it is not empty and some occurrence is not behind a NUL. */
  lemma FoundIff(view: string, sub: string)
    ensures VisibleIndex(view, sub) >= 0 <==>
            sub != "" && exists i :: OccursAt(view, sub, i) && NulFree(KeepFront(view, i + 1))
    ensures VisibleIndex(view, sub) >= 0 ==> VisibleIndex(view, sub) == FindSub(view, sub)
  {
    var first := FindSub(view, sub);
    forall i | sub != "" && OccursAt(view, sub, i) && NulFree(KeepFront(view, i + 1))
      ensures first >= 0 && NulFree(KeepFront(view, first + 1))
    {
      assert 0 <= first <= i;
      assert forall k :: 0 <= k <= first ==> view[k] == KeepFront(view, i + 1)[k];
    }
  }

  /** The remainder starts at pos, and before pos there is neither an occurrence nor a NUL. */
  predicate Passed(view: string, sub: string, remainder: string, pos: nat) {
    && pos <= |view| && remainder == view[pos..] && NulFree(view[..pos])
    && forall k :: 0 <= k < pos ==> !OccursAt(view, sub, k)
  }

  method IndexOf(view: string, sub: string) returns (r: int)
    ensures r == VisibleIndex(view, sub)
  {
    if sub != "" {
      assert Passed(view, sub, view, 0);
      hide VisibleIndex, Passed, StartsWith, PopFront;
      var remainder := view;
      ghost var pos: nat := 0;
      while |remainder| >= |sub|
        invariant Passed(view, sub, remainder, pos)
        decreases |remainder|
      {
        var found := NextCandidate(view, sub, remainder, pos);
        if found < 0 {
          return -1;
        }
        remainder, pos := PopFront(remainder, found), pos + found;
        Compare(view, sub, remainder, pos);
        if StartsWith(remainder, sub) {
          return |view| - |remainder|;
        }
        remainder, pos := PopFront(remainder, 1), pos + 1;
      }
      NoRoom(view, sub, remainder, pos);
    }
    return -1;
  }

  /** The next place where the sub-view may start. */
  method NextCandidate(ghost view: string, sub: string, remainder: string, ghost pos: nat) returns (found: int)
    requires sub != "" && Passed(view, sub, remainder, pos)
    ensures found < 0 ==> VisibleIndex(view, sub) == -1
    ensures found >= 0 ==>
              && Passed(view, sub, PopFront(remainder, found), pos + found)
              && 0 < |PopFront(remainder, found)| <= |remainder| && PopFront(remainder, found)[0] != '\0'
  {
    hide VisibleIndex, Passed, Before, Find, PopFront;
    found := IndexOfChar(remainder, sub[0]);
    if found < 0 {
      NoVisibleOccurrence(view, sub, remainder, pos);
    } else {
      SkipToFirstChar(view, sub, remainder, pos, found);
    }
  }

  lemma NoRoom(view: string, sub: string, remainder: string, pos: nat)
    requires |remainder| < |sub| && Passed(view, sub, remainder, pos)
    ensures VisibleIndex(view, sub) == -1
  {
  }

  /** Jumping to the next first character passes over no occurrence and no NUL. */
  lemma SkipToFirstChar(view: string, sub: string, remainder: string, pos: nat, found: nat)
    requires sub != "" && Passed(view, sub, remainder, pos)
    requires sub[0] in Before(remainder, '\0') && found == Find(remainder, sub[0])
    ensures var rest := PopFront(remainder, found);
            && Passed(view, sub, rest, pos + found)
            && 0 < |rest| <= |remainder| && rest[0] != '\0'
  {
  }

  /** The comparison at pos either settles the search or extends what is passed. */
  lemma Compare(view: string, sub: string, remainder: string, pos: nat)
    requires sub != "" && Passed(view, sub, remainder, pos) && remainder != "" && remainder[0] != '\0'
    ensures StartsWith(remainder, sub) ==> VisibleIndex(view, sub) == pos == |view| - |remainder|
    ensures |PopFront(remainder, 1)| < |remainder|
    ensures !StartsWith(remainder, sub) ==> Passed(view, sub, PopFront(remainder, 1), pos + 1)
  {
    SameComparison(view, sub, pos);
    assert view[..pos + 1] == view[..pos] + [view[pos]];
    if OccursAt(view, sub, pos) {
      FindSubIs(view, sub, pos);
    }
  }

  lemma SameComparison(view: string, sub: string, pos: nat)
    requires sub != "" && pos <= |view|
    ensures StartsWith(view[pos..], sub) <==> OccursAt(view, sub, pos)
  {
  }

  lemma NoVisibleOccurrence(view: string, sub: string, remainder: string, pos: nat)
    requires sub != "" && Passed(view, sub, remainder, pos) && sub[0] !in Before(remainder, '\0')
    ensures VisibleIndex(view, sub) == -1
  {
  }

  method TrimWhitespace(view: string) returns (r: string)
    ensures r == Trim(view)
  {
    r := view;
    while |r| != 0 && IsSpace(r[0])
      invariant TrimLeft(r) == TrimLeft(view)
    {
      r := PopFront(r, 1);
    }
    while |r| != 0 && IsSpace(r[|r| - 1])
      invariant TrimRight(r) == Trim(view)
    {
      r := PopBack(r, 1);
    }
  }

  /** One of the numerals of at most i digits that the text starts with is too large. */
  predicate OverflowsWithin(view: string, base: nat, i: nat)
    requires i <= |view|
  {
    exists k :: 0 <= k <= i && AllDigits(view[..k], base) && Value(view[..k], base) > INT_MAX
  }

  /** Some numeral that the text starts with is too large for a C int. */
  predicate Overflows(view: string, base: nat) {
    OverflowsWithin(view, base, |view|)
  }

  lemma NoDigits(view: string, base: nat)
    ensures AllDigits(view[..0], base) && Value(view[..0], base) == 0 && !OverflowsWithin(view, base, 0)
  {
  }

  lemma NextDigit(view: string, base: nat, i: nat)
    requires i < |view| && AllDigits(view[..i], base) && 0 <= HexValue(view[i]) < base
    ensures AllDigits(view[..i + 1], base)
    ensures Value(view[..i + 1], base) == Value(view[..i], base) * base + HexValue(view[i])
    ensures OverflowsWithin(view, base, i + 1) <==>
            OverflowsWithin(view, base, i) || Value(view[..i + 1], base) > INT_MAX
  {
    assert view[..i + 1][..i] == view[..i] && view[..i + 1] == view[..i] + [view[i]];
  }

  lemma NoDigit(view: string, base: nat, i: nat)
    requires i < |view| && AllDigits(view[..i], base) && !(0 <= HexValue(view[i]) < base)
    ensures !AllDigits(view, base)
    ensures Overflows(view, base) <==> OverflowsWithin(view, base, i)
  {
    hide HexValue, Value;
    forall k | i < k <= |view|
      ensures !AllDigits(view[..k], base)
    {
      assert view[..k][i] == view[i];
    }
    forall k | 0 <= k <= i
      ensures AllDigits(view[..k], base)
    {
      DigitsBefore(view, base, i, k);
    }
    assert view[..|view|] == view;
  }

  lemma DigitsBefore(view: string, base: nat, i: nat, k: nat)
    requires k <= i <= |view| && AllDigits(view[..i], base)
    ensures AllDigits(view[..k], base)
  {
    hide HexValue;
    assert view[..k] == view[..i][..k];
  }

  lemma AllRead(view: string, base: nat)
    requires AllDigits(view[..|view|], base) && 1 <= base
    ensures AllDigits(view, base) && Value(view[..|view|], base) == Value(view, base)
    ensures Overflows(view, base) <==> Value(view, base) > INT_MAX
  {
    hide HexValue, Value, AllDigits;
    assert view[..|view|] == view;
    forall k | 0 <= k <= |view|
      ensures AllDigits(view[..k], base) && Value(view[..k], base) <= Value(view, base)
    {
      DigitsBefore(view, base, |view|, k);
      PrefixValue(view, base, k);
    }
  }

  /** Reads digits most significant first. The flag tells that some intermediate value left the
      range of a C int, in which case the C result would be undefined. */
  method ParsePositiveNumberWithBase(view: string, base: nat) returns (r: int, overflow: bool)
    requires 1 <= base <= 16
    ensures r == if AllDigits(view, base) then Value(view, base) else -1
    ensures overflow <==> Overflows(view, base)
    ensures r >= 0 ==> (overflow <==> r > INT_MAX)
  {
    hide AllDigits, Value, OverflowsWithin;
    r, overflow := 0, false;
    var remainder := view;
    ghost var i := 0;
    NoDigits(view, base);
    while |remainder| != 0
      invariant 0 <= i <= |view| && remainder == view[i..]
      invariant AllDigits(view[..i], base) && r == Value(view[..i], base)
      invariant overflow <==> OverflowsWithin(view, base, i)
    {
      var value := HexValue(remainder[0]);
      if value < 0 || value >= base {
        NoDigit(view, base, i);
        return -1, overflow;
      }
      NextDigit(view, base, i);
      r := r * base + value;
      overflow := overflow || r > INT_MAX;
      remainder := PopFront(remainder, 1);
      i := i + 1;
    }
    AllRead(view, base);
  }

  method ParsePositiveNumber(view: string) returns (r: int, overflow: bool)
    ensures r == ParseNumber(view)
    ensures view == "" ==> !overflow
    ensures r >= 0 ==> (overflow <==> r >= 0x8000_0000)
  {
    if |view| != 0 {
      if StartsWith(view, "0x") {
        r, overflow := ParsePositiveNumberWithBase(PopFront(view, 2), 16);
      } else {
        r, overflow := ParsePositiveNumberWithBase(view, 10);
      }
    } else {
      r, overflow := -1, false;
    }
  }

  /** The destination after a copy: what fits of the source, a terminator, the old rest. */
  function Copied(src: string, dst: seq<char>): (r: seq<char>)
    requires |dst| > 0
    ensures |r| == |dst|
  {
    var n := if |src| < |dst| then |src| else |dst| - 1;
    src[..n] + ['\0'] + dst[n + 1..]
  }

  /** Reading the destination up to its terminator gives the source, cut to the space available. */
  lemma CopyReadsBack(src: string, dst: seq<char>)
    requires |dst| > 0 && NulFree(src)
    ensures Before(Copied(src, dst), '\0') == if |src| < |dst| then src else src[..|dst| - 1]
    ensures forall k :: |src| < k < |dst| ==> Copied(src, dst)[k] == dst[k]
  {
    var n := if |src| < |dst| then |src| else |dst| - 1;
    CutAt(src[..n], '\0', dst[n + 1..]);
  }

  method CopyString(src: string, dst: array<char>)
    modifies dst
    ensures dst.Length > 0 ==> dst[..] == Copied(src, old(dst[..]))
  {
    if dst.Length > 0 {
      var size := if |src| > dst.Length - 1 then dst.Length - 1 else |src|;
      for i := 0 to size
        invariant forall k :: 0 <= k < i ==> dst[k] == src[k]
        invariant forall k :: i <= k < dst.Length ==> dst[k] == old(dst[k])
      {
        dst[i] := src[i];
      }
      dst[size] := '\0';
    }
  }

  /** The word stands delimited at p, and no NUL comes before it. */
  predicate VisibleToken(line: string, word: string, sep: char, p: int) {
    IsToken(line, word, sep, p) && NulFree(KeepFront(line, p))
  }

  /** The remainder starts at pos, and before pos there is no NUL and no token to be found. */
  predicate Scanned(line: string, word: string, sep: char, remainder: string, pos: nat) {
    && pos <= |line| && remainder == line[pos..] && NulFree(line[..pos]) && NulFree(word)
    && (sep !in word ==> NoTokenBefore(line, word, sep, pos))
  }

  /** True exactly when the word is a separator-delimited piece of the line. The scan jumps over a
      whole failed match; that loses nothing as long as the word does not hold the separator. */
  method HasWord(line: string, word: string, separator: char) returns (r: bool)
    requires NulFree(word)
    ensures r ==> word != "" && exists p :: VisibleToken(line, word, separator, p)
    ensures separator !in word && word != "" && (exists p :: VisibleToken(line, word, separator, p)) ==> r
    ensures separator !in word && NulFree(line) ==> (r <==> word != "" && word in Split(line, separator))
  {
    assert Scanned(line, word, separator, line, 0);
    hide Scanned, VisibleIndex, VisibleToken, NulFree, PopFront, Split;
    VisibleTokenIffPiece(line, word, separator);
    var remainder := line;
    ghost var pos: nat := 0;
    while true
      invariant Scanned(line, word, separator, remainder, pos)
      decreases |remainder|
    {
      var index, delimited := Match(line, word, separator, remainder, pos);
      if index < 0 {
        NoTokenLeft(line, word, separator, remainder, pos);
        return false;
      }
      if delimited {
        return true;
      }
      remainder := PopFront(remainder, index + |word|);
      pos := pos + index + |word|;
    }
  }

  /** One step of the scan: the next occurrence, checked against its real neighbours in the line. A
      failed match can be jumped over. */
  method Match(line: string, word: string, separator: char, remainder: string, ghost pos: nat)
    returns (index: int, delimited: bool)
    requires Scanned(line, word, separator, remainder, pos)
    ensures index == VisibleIndex(remainder, word)
    ensures index >= 0 ==>
              && word != "" && OccursAt(line, word, pos + index) && NulFree(line[..pos + index])
              && (delimited <==> IsToken(line, word, separator, pos + index))
              && (delimited ==> VisibleToken(line, word, separator, pos + index))
    ensures index >= 0 && !delimited ==>
              && Scanned(line, word, separator, PopFront(remainder, index + |word|), pos + index + |word|)
              && |PopFront(remainder, index + |word|)| < |remainder|
  {
    hide IsToken, VisibleIndex, VisibleToken, NulFree, NoTokenBefore;
    index := IndexOf(remainder, word);
    delimited := false;
    if index >= 0 {
      var absolute := (|line| - |remainder|) + index;
      Advance(line, word, pos, index);
      var before, after := KeepFront(line, absolute), PopFront(line, absolute + |word|);
      var validBefore := |before| == 0 || before[|before| - 1] == separator;
      var validAfter := |after| == 0 || after[0] == separator;
      Delimited(line, word, separator, absolute);
      delimited := validBefore && validAfter;
      if !delimited {
        JumpIsSafe(line, word, separator, pos, absolute);
        DropTwice(line, pos, index + |word|);
      }
    }
  }

  lemma DropTwice(s: string, a: nat, b: nat)
    requires a + b <= |s|
    ensures s[a..][b..] == s[a + b..]
  {
  }

  lemma Delimited(line: string, word: string, sep: char, at: nat)
    requires OccursAt(line, word, at) && NulFree(line[..at])
    ensures IsToken(line, word, sep, at) ==> VisibleToken(line, word, sep, at)
    ensures var before, after := KeepFront(line, at), PopFront(line, at + |word|);
            (before == "" || before[|before| - 1] == sep) && (after == "" || after[0] == sep) <==>
            IsToken(line, word, sep, at)
  {
  }

  lemma VisibleTokenIffPiece(line: string, word: string, sep: char)
    ensures sep !in word && NulFree(line) ==>
              (word in Split(line, sep) <==> exists p :: VisibleToken(line, word, sep, p))
  {
    if sep !in word && NulFree(line) {
      TokenIffPiece(line, word, sep);
      assert forall p :: IsToken(line, word, sep, p) ==> VisibleToken(line, word, sep, p);
    }
  }

  /** An occurrence found in the remainder is one in the line, with no NUL up to its end. */
  lemma Advance(line: string, word: string, pos: nat, index: nat)
    requires pos <= |line| && NulFree(line[..pos]) && NulFree(word)
    requires index == VisibleIndex(line[pos..], word)
    ensures word != "" && OccursAt(line, word, pos + index)
    ensures NulFree(line[..pos + index]) && NulFree(line[..pos + index + |word|])
  {
  }

  predicate NoTokenBefore(line: string, word: string, sep: char, pos: nat) {
    forall p :: 0 <= p < pos ==> !IsToken(line, word, sep, p)
  }

  /** No token can begin inside a failed match, for a separator would have to lie in the word. */
  lemma JumpIsSafe(line: string, word: string, sep: char, pos: nat, at: nat)
    requires word != "" && pos <= at && OccursAt(line, word, at) && !IsToken(line, word, sep, at)
    requires forall k :: 0 <= k < at - pos ==> !OccursAt(line[pos..], word, k)
    requires sep !in word ==> NoTokenBefore(line, word, sep, pos)
    ensures sep !in word ==> NoTokenBefore(line, word, sep, at + |word|)
  {
    OccursChars(line, word, at);
    forall p | pos <= p < at + |word| && sep !in word
      ensures !IsToken(line, word, sep, p)
    {
      if p < at {
        OccursShift(line, word, pos, p - pos);
        assert !OccursAt(line[pos..], word, p - pos);
      } else if p > at {
        assert line[at + (p - 1 - at)] == word[p - 1 - at];
      }
    }
  }

  lemma NoTokenLeft(line: string, word: string, sep: char, remainder: string, pos: nat)
    requires Scanned(line, word, sep, remainder, pos) && VisibleIndex(remainder, word) < 0
    ensures sep !in word && word != "" ==> !exists p :: VisibleToken(line, word, sep, p)
  {
    forall p: nat | pos <= p && word != "" && OccursAt(line, word, p)
      ensures !NulFree(KeepFront(line, p))
    {
      hide VisibleIndex;
      NoVisibleOccurrenceLeft(line, word, pos, p);
    }
  }

  lemma NoVisibleOccurrenceLeft(line: string, word: string, pos: nat, p: nat)
    requires pos <= p && pos <= |line| && NulFree(word) && VisibleIndex(line[pos..], word) < 0
    requires word != "" && OccursAt(line, word, p)
    ensures !NulFree(KeepFront(line, p))
  {
    hide VisibleIndex;
    var rest := line[pos..];
    OccursShift(line, word, pos, p - pos);
    FoundIff(rest, word);
    NulBefore(line, word, p);
    assert KeepFront(rest, p - pos + 1) == KeepFront(line, p + 1)[pos..];
  }

  /** A NUL up to the start of an occurrence of a word without NULs comes before it. */
  lemma NulBefore(line: string, word: string, p: nat)
    requires word != "" && NulFree(word) && OccursAt(line, word, p)
    ensures NulFree(KeepFront(line, p + 1)) <==> NulFree(KeepFront(line, p))
  {
    assert line[p] == line[p..p + |word|][0] == word[0];
    assert KeepFront(line, p + 1) == KeepFront(line, p) + [line[p]];
  }

  datatype Attribute = NoAttribute | Attribute(key: string, value: string)

  /** A line holds an attribute when ": " occurs; the first occurrence splits key from value. */
  function KeyValue(line: string): Attribute {
    var i := VisibleIndex(line, ": ");
    if i < 0 then NoAttribute else Attribute(Trim(line[..i]), Trim(line[i + 2..]))
  }

  lemma SeparatorAt(line: string, i: int)
    ensures OccursAt(line, ": ", i) <==> 0 <= i < |line| - 1 && line[i] == ':' && line[i + 1] == ' '
  {
    if 0 <= i < |line| - 1 {
      assert line[i..i + 2] == [line[i], line[i + 1]];
    }
  }

  /** The attribute of a line is cut at its first colon that a blank follows. */
  lemma FirstSeparator(line: string, i: nat)
    requires i + 1 < |line| && line[i] == ':' && line[i + 1] == ' ' && NulFree(line[..i])
    requires forall k :: 0 <= k < i ==> !(line[k] == ':' && line[k + 1] == ' ')
    ensures KeyValue(line) == Attribute(Trim(line[..i]), Trim(line[i + 2..]))
  {
    hide Trim;
    forall k | 0 <= k <= i
      ensures OccursAt(line, ": ", k) <==> k == i
    {
      SeparatorAt(line, k);
    }
    FindSubIs(line, ": ", i);
    assert line[..i + 1] == line[..i] + [line[i]];
  }

  /** A line has no attribute exactly when every colon that a blank follows is behind a NUL. */
  lemma NoAttributeIff(line: string)
    ensures KeyValue(line) == NoAttribute <==>
            forall i :: 0 <= i < |line| - 1 && line[i] == ':' && line[i + 1] == ' ' ==> '\0' in line[..i]
  {
    hide VisibleIndex, Trim;
    FoundIff(line, ": ");
    if KeyValue(line).Attribute? {
      var i :| OccursAt(line, ": ", i) && NulFree(KeepFront(line, i + 1));
      SeparatorAt(line, i);
      NulFront(line, i);
    } else {
      forall i | 0 <= i < |line| - 1 && line[i] == ':' && line[i + 1] == ' '
        ensures '\0' in line[..i]
      {
        SeparatorAt(line, i);
        NulFront(line, i);
      }
    }
  }

  lemma NulFront(line: string, i: nat)
    requires i < |line| && line[i] != '\0'
    ensures NulFree(KeepFront(line, i + 1)) <==> '\0' !in line[..i]
  {
    assert line[..i + 1] == line[..i] + [line[i]];
  }

  /** Keys as /proc/cpuinfo pads them: the tabs are no part of the key. */
  lemma TabbedLine(key: string, value: string)
    requires ':' !in key && Trimmed(key) && Trimmed(value) && NulFree(key)
    ensures KeyValue(key + "\t\t: " + value) == Attribute(key, value)
    ensures KeyValue(key + "\t: " + value) == Attribute(key, value)
    ensures KeyValue(key + ": " + value) == Attribute(key, value)
  {
    hide KeyValue, FindSub, Trimmed, NulFree;
    PaddedLine(key, "\t\t", value);
    PaddedLine(key, "\t", value);
    PaddedLine(key, "", value);
    assert key + "\t\t" + ": " + value == key + "\t\t: " + value;
    assert key + "\t" + ": " + value == key + "\t: " + value;
    assert key + "" + ": " + value == key + ": " + value;
  }

  lemma PaddedLine(key: string, pad: string, value: string)
    requires ':' !in key + pad && Trimmed(key) && Trimmed(value) && NulFree(key)
    requires forall k :: 0 <= k < |pad| ==> pad[k] in [' ', '\t', '\n', '\U{B}', '\U{C}', '\r']
    ensures KeyValue(key + pad + ": " + value) == Attribute(key, value)
  {
    hide KeyValue, Trimmed, NulFree, IsSpace;
    forall k | 0 <= k < |pad|
      ensures IsSpace(pad[k])
    {
      SpaceIs(pad[k]);
    }
    NotFound(key + pad, ": ");
    KeyValueRoundTrip("", key, pad, "", value, "");
    assert "" + key + pad == key + pad && "" + value + "" == value;
  }

  /** A line of a T-Head C910. */
  lemma TabsAreTrimmed()
    ensures KeyValue("isa\t\t: rv64imafdcsu") == Attribute("isa", "rv64imafdcsu")
  {
    hide KeyValue;
    var key, value := "isa", "rv64imafdcsu";
    TabbedLine(key, value);
    assert key + "\t\t: " + value == "isa\t\t: rv64imafdcsu";
  }

  lemma ValueNulFree(line: string)
    requires NulFree(line) && KeyValue(line).Attribute?
    ensures NulFree(KeyValue(line).value)
  {
    var i := VisibleIndex(line, ": ");
    TrimKeeps(line[i + 2..]);
  }

  lemma {:induction false} TrimLeftKeeps(s: string)
    ensures forall c :: c in TrimLeft(s) ==> c in s
  {
    if s != "" && IsSpace(s[0]) {
      TrimLeftKeeps(s[1..]);
    }
  }

  lemma TrimKeeps(s: string)
    ensures forall c :: c in Trim(s) ==> c in s
  {
    TrimLeftKeeps(s);
  }

  method GetAttributeKeyValue(line: string) returns (r: Attribute)
    ensures r == KeyValue(line)
  {
    var index := IndexOf(line, ": ");
    if index < 0 {
      return NoAttribute;
    }
    var value := TrimWhitespace(PopFront(line, index + 2));
    var key := TrimWhitespace(KeepFront(line, index));
    return Attribute(key, value);
  }

  /** Splitting a padded "key: value" line gives the key and value back exactly when the padded
      key does not itself hold the separator; the value may hold it. */
  lemma KeyValueRoundTrip(padA: string, key: string, padB: string, padC: string, value: string, padD: string)
    requires AllSpace(padA) && AllSpace(padB) && AllSpace(padC) && AllSpace(padD)
    requires Trimmed(key) && Trimmed(value) && NulFree(key)
    ensures KeyValue(padA + key + padB + ": " + (padC + value + padD)) == Attribute(key, value) <==>
            FindSub(padA + key + padB, ": ") == -1
  {
    var front, back := padA + key + padB, padC + value + padD;
    var line := front + ": " + back;
    SeparatorIndex(front, back);
    assert NulFree(front);
    if FindSub(front, ": ") == -1 {
      assert VisibleIndex(line, ": ") == |front|;
      assert line[..|front|] == front && line[|front| + 2..] == back;
      TrimPadded(padA, key, padB);
      TrimPadded(padC, value, padD);
    } else {
      var i := FindSub(front, ": ");
      assert VisibleIndex(line, ": ") == i && line[..i] == front[..i];
      EarlierSplit(padA, key, padB, i);
    }
  }

  /** Appending the separator and more text creates no earlier occurrence of the separator. */
  lemma SameInFront(front: string, back: string, k: nat)
    requires k < |front|
    ensures OccursAt(front + ": " + back, ": ", k) <==> OccursAt(front, ": ", k)
  {
    var line := front + ": " + back;
    assert line == front + (": " + back);
    if k + 2 <= |front| {
      assert line[k..k + 2] == front[k..k + 2];
    } else {
      assert line[k + 1] == ':';
      assert line[k..k + 2][1] == ':' && ": "[1] == ' ';
    }
  }

  lemma SeparatorIndex(front: string, back: string)
    requires NulFree(front)
    ensures VisibleIndex(front + ": " + back, ": ") ==
            if FindSub(front, ": ") == -1 then |front| else FindSub(front, ": ")
  {
    var line := front + ": " + back;
    forall k | 0 <= k < |front|
      ensures OccursAt(line, ": ", k) <==> OccursAt(front, ": ", k)
    {
      hide OccursAt;
      SameInFront(front, back, k);
    }
    var i := if FindSub(front, ": ") == -1 then |front| else FindSub(front, ": ");
    assert line[|front|..|front| + 2] == ": ";
    FindSubIs(line, ": ", i);
    assert forall k :: 0 <= k < |front| ==> line[k] == front[k];
  }

  /** Cutting a padded key before its end yields a strictly shorter key. */
  lemma EarlierSplit(padA: string, key: string, padB: string, i: nat)
    requires AllSpace(padA) && AllSpace(padB) && OccursAt(padA + key + padB, ": ", i)
    ensures |Trim((padA + key + padB)[..i])| < |key|
  {
    var front := padA + key + padB;
    assert front[i..i + 2][0] == front[i] == ':';
    assert |padA| <= i < |padA| + |key|;
    var n := i - |padA|;
    assert front[..i] == padA + key[..n];
    TrimLeftPad(padA, key[..n]);
    TrimLeftShrinks(key[..n]);
  }

  lemma TrimLeftShrinks(s: string)
    ensures |TrimLeft(s)| <= |s|
  {
  }
}
