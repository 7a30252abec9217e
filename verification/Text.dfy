/** Reference vocabulary for text: what "first occurrence", "split at a separator", "word of a
    line" and "trimmed" mean, written for clarity. The string-view routines are proved against it.
  */
module Text {
  predicate NulFree(s: string) {
    '\0' !in s
  }

  /** The index of the first c in s, or |s| when there is none. */
  function Find(s: string, c: char): (i: nat)
    ensures i <= |s| && forall k :: 0 <= k < i ==> s[k] != c
    ensures i < |s| ==> s[i] == c
  {
    if s == "" || s[0] == c then 0 else 1 + Find(s[1..], c)
  }

  /** What precedes the first c; all of s when there is none. */
  function Before(s: string, c: char): string {
    s[..Find(s, c)]
  }

  /** What follows the first c; nothing when there is none. */
  function After(s: string, c: char): string {
    if Find(s, c) < |s| then s[Find(s, c) + 1..] else ""
  }

  /** The pieces of s between separators; always at least one. */
  function Split(s: string, c: char): (pieces: seq<string>)
    ensures |pieces| >= 1
    decreases |s|
  {
    if c in s then
      FindPresent(s, c);
      [Before(s, c)] + Split(After(s, c), c)
    else [s]
  }

  /** What follows the last c; all of s when there is none. */
  function LastPiece(s: string, c: char): string
    decreases |s|
  {
    if c in s then
      FindPresent(s, c);
      LastPiece(After(s, c), c)
    else s
  }

  lemma {:induction false} LastOfSplit(s: string, c: char)
    ensures Split(s, c)[|Split(s, c)| - 1] == LastPiece(s, c)
    decreases |s|
  {
    hide Split;
    SplitAt(s, c);
    if c in s {
      FindPresent(s, c);
      LastOfSplit(After(s, c), c);
    }
  }

  lemma LastPieceBehind(a: string, c: char, b: string)
    requires c !in a
    ensures LastPiece(a + [c] + b, c) == LastPiece(b, c)
  {
    CutAt(a, c, b);
  }

  /** Splitting takes the first piece off. */
  lemma SplitAt(s: string, c: char)
    ensures c in s ==> Split(s, c) == [Before(s, c)] + Split(After(s, c), c)
    ensures c in s ==> Split(s, c)[1..] == Split(After(s, c), c)
    ensures c !in s ==> Split(s, c) == [s]
  {
  }

  function Join(pieces: seq<string>, c: char): string
    requires |pieces| >= 1
  {
    if |pieces| == 1 then pieces[0] else pieces[0] + [c] + Join(pieces[1..], c)
  }

  lemma FindPresent(s: string, c: char)
    ensures c in s <==> Find(s, c) < |s|
  {
  }

  lemma FindIs(s: string, c: char, i: nat)
    requires i <= |s| && forall k :: 0 <= k < i ==> s[k] != c
    requires i < |s| ==> s[i] == c
    ensures Find(s, c) == i
  {
  }

  /** A separator-free prefix ending at a separator is what Before and After cut out. */
  lemma CutAt(a: string, c: char, b: string)
    requires c !in a
    ensures Before(a + [c] + b, c) == a && After(a + [c] + b, c) == b
  {
    var s := a + [c] + b;
    assert s[..|a|] == a;
    FindIs(s, c, |a|);
    assert s[|a| + 1..] == b;
  }

  /** Text appended after the first separator only reaches After. */
  lemma CutAppend(a: string, b: string, c: char)
    requires c in a
    ensures Before(a + b, c) == Before(a, c) && After(a + b, c) == After(a, c) + b
  {
    FindPresent(a, c);
    var i := Find(a, c);
    assert (a + b)[..i] == a[..i];
    FindIs(a + b, c, i);
    assert (a + b)[i + 1..] == a[i + 1..] + b;
  }

  /** A separator-free prefix delays the first separator. */
  lemma CutPrefix(a: string, b: string, c: char)
    requires c !in a
    ensures Before(a + b, c) == a + Before(b, c) && After(a + b, c) == After(b, c)
  {
    var i := Find(b, c);
    FindIs(a + b, c, |a| + i);
    assert (a + b)[..|a| + i] == a + b[..i];
    if i < |b| {
      assert (a + b)[|a| + i + 1..] == b[i + 1..];
    }
  }

  /** Cutting at a separator and putting it back restores the text. */
  lemma CutRestores(s: string, c: char)
    requires c in s
    ensures s == Before(s, c) + [c] + After(s, c)
    ensures |After(s, c)| < |s|
  {
  }

  lemma NoSeparator(s: string, c: char)
    requires c !in s
    ensures Before(s, c) == s && After(s, c) == ""
  {
  }

  /** Split is the inverse of Join, and no piece holds the separator. */
  lemma {:induction false} SplitJoin(s: string, c: char)
    ensures Join(Split(s, c), c) == s
    ensures forall k :: 0 <= k < |Split(s, c)| ==> c !in Split(s, c)[k]
    decreases |s|
  {
    if c in s {
      CutRestores(s, c);
      SplitJoin(After(s, c), c);
      assert Split(s, c)[1..] == Split(After(s, c), c);
    }
  }

  lemma {:induction false} JoinSplit(pieces: seq<string>, c: char)
    requires |pieces| >= 1
    requires forall k :: 0 <= k < |pieces| ==> c !in pieces[k]
    ensures Split(Join(pieces, c), c) == pieces
  {
    hide Split;
    var s := Join(pieces, c);
    SplitAt(s, c);
    if |pieces| > 1 {
      var rest := Join(pieces[1..], c);
      JoinSplit(pieces[1..], c);
      CutAt(pieces[0], c, rest);
      assert s == pieces[0] + [c] + rest && s[|pieces[0]|] == c;
      assert pieces == [pieces[0]] + pieces[1..];
    } else {
      assert pieces == [s];
    }
  }

  predicate OccursAt(s: string, sub: string, i: int) {
    0 <= i && i + |sub| <= |s| && s[i..i + |sub|] == sub
  }

  lemma OccursShift(s: string, sub: string, d: nat, p: nat)
    requires d <= |s|
    ensures OccursAt(s[d..], sub, p) <==> OccursAt(s, sub, p + d)
  {
  }

  lemma OccursChars(s: string, sub: string, i: int)
    requires OccursAt(s, sub, i)
    ensures forall k :: 0 <= k < |sub| ==> s[i + k] == sub[k]
  {
  }

  /** The least index from i on at which sub occurs, or -1. */
  function FindFrom(s: string, sub: string, i: nat): (r: int)
    requires i <= |s|
    ensures r == -1 || (i <= r && OccursAt(s, sub, r))
    ensures forall k :: i <= k && (r < 0 || k < r) ==> !OccursAt(s, sub, k)
    decreases |s| - i
  {
    if OccursAt(s, sub, i) then i
    else if i == |s| then -1
    else FindFrom(s, sub, i + 1)
  }

  function FindSub(s: string, sub: string): int {
    FindFrom(s, sub, 0)
  }

  lemma FindSubIs(s: string, sub: string, i: nat)
    requires OccursAt(s, sub, i)
    requires forall k :: 0 <= k < i ==> !OccursAt(s, sub, k)
    ensures FindSub(s, sub) == i
  {
  }

  lemma NoStart(s: string, sub: string, i: nat)
    requires sub != "" && i < |s| && s[i] != sub[0]
    ensures !OccursAt(s, sub, i)
  {
  }

  /** Behind a prefix in which no occurrence starts, the rest decides. */
  lemma AbsentBehind(pre: string, rest: string, sub: string)
    requires forall i :: 0 <= i < |pre| ==> !OccursAt(pre + rest, sub, i)
    ensures FindSub(pre + rest, sub) == -1 <==> FindSub(rest, sub) == -1
  {
    var s, p, q := pre + rest, FindSub(pre + rest, sub), FindSub(rest, sub);
    assert s[|pre|..] == rest;
    if p >= 0 {
      OccursShift(s, sub, |pre|, p - |pre|);
    }
    if q >= 0 {
      OccursShift(s, sub, |pre|, q);
    }
  }

  /** What starts with a character that is absent does not occur. */
  lemma NotFound(s: string, sub: string)
    requires sub != "" && sub[0] !in s
    ensures FindSub(s, sub) == -1
  {
    assert forall k :: 0 <= k < |s| ==> s[k] in s;
    var i := FindSub(s, sub);
    if i >= 0 {
      OccursChars(s, sub, i);
    }
  }

  /** w stands at p in line with the separator or an end of the line on both sides. */
  predicate IsToken(line: string, w: string, sep: char, p: int) {
    && OccursAt(line, w, p)
    && (p == 0 || line[p - 1] == sep)
    && (p + |w| == |line| || line[p + |w|] == sep)
  }

  /** Delimited occurrences and pieces of the split are the same thing. */
  lemma {:induction false} TokenIffPiece(line: string, w: string, sep: char)
    requires sep !in w
    ensures w in Split(line, sep) <==> exists p :: IsToken(line, w, sep, p)
    decreases |line|
  {
    if IsToken(line, w, sep, 0) {
      TokenFirst(line, w, sep, 0);
    }
    FindPresent(line, sep);
    assert w == Before(line, sep) ==> IsToken(line, w, sep, 0);
    if sep in line {
      TokenIffPiece(After(line, sep), w, sep);
      TokenLater(line, w, sep);
    } else {
      NoSeparator(line, sep);
      forall p | IsToken(line, w, sep, p)
        ensures w == line
      {
        TokenFirst(line, w, sep, p);
      }
    }
  }

  /** A token that starts no later than the first separator is the first piece. */
  lemma TokenFirst(line: string, w: string, sep: char, p: int)
    requires sep !in w && IsToken(line, w, sep, p) && p <= Find(line, sep)
    ensures w == Before(line, sep)
  {
  }

  /** Past the first separator, the tokens of the line are those of the rest. */
  lemma TokenShift(line: string, w: string, sep: char, p: nat)
    requires sep in line
    ensures IsToken(After(line, sep), w, sep, p) <==> IsToken(line, w, sep, p + Find(line, sep) + 1)
  {
    FindPresent(line, sep);
    DropKeepsTokens(line, w, sep, Find(line, sep) + 1, p);
  }

  lemma DropKeepsTokens(line: string, w: string, sep: char, d: nat, p: nat)
    requires 0 < d <= |line| && line[d - 1] == sep
    ensures IsToken(line[d..], w, sep, p) <==> IsToken(line, w, sep, p + d)
  {
  }

  /** A token is at the start of the line or behind the first separator. */
  lemma TokenStart(line: string, w: string, sep: char, p: int)
    requires IsToken(line, w, sep, p) && sep in line
    ensures p == 0 || p > Find(line, sep)
  {
  }

  lemma TokenLater(line: string, w: string, sep: char)
    requires sep in line
    ensures (exists p :: IsToken(line, w, sep, p)) <==>
            (IsToken(line, w, sep, 0) || exists p :: IsToken(After(line, sep), w, sep, p))
  {
    var d, rest := Find(line, sep) + 1, After(line, sep);
    forall p | IsToken(rest, w, sep, p)
      ensures IsToken(line, w, sep, p + d)
    {
      TokenShift(line, w, sep, p);
    }
    forall p | IsToken(line, w, sep, p)
      ensures p == 0 || IsToken(rest, w, sep, p - d)
    {
      hide IsToken;
      TokenStart(line, w, sep, p);
      if p >= d {
        TokenShift(line, w, sep, p - d);
      }
    }
  }

  /** The C locale's isspace. */
  predicate IsSpace(c: char) {
    c == ' ' || '\t' <= c <= '\r'
  }

  /** Space, tab, newline, vertical tab, form feed and carriage return; nothing else. */
  lemma SpaceIs(c: char)
    ensures IsSpace(c) <==> c in [' ', '\t', '\n', '\U{B}', '\U{C}', '\r']
  {
    assert '\t' == '\U{9}' && '\n' == '\U{A}' && '\r' == '\U{D}';
  }

  predicate AllSpace(s: string) {
    forall k :: 0 <= k < |s| ==> IsSpace(s[k])
  }

  predicate Trimmed(s: string) {
    s == "" || (!IsSpace(s[0]) && !IsSpace(s[|s| - 1]))
  }

  function TrimLeft(s: string): (r: string)
    ensures r == "" || !IsSpace(r[0])
  {
    if s != "" && IsSpace(s[0]) then TrimLeft(s[1..]) else s
  }

  function TrimRight(s: string): (r: string)
    ensures r <= s
    ensures r == "" || !IsSpace(r[|r| - 1])
  {
    if s != "" && IsSpace(s[|s| - 1]) then TrimRight(s[..|s| - 1]) else s
  }

  function Trim(s: string): (r: string)
    ensures Trimmed(r)
  {
    TrimRight(TrimLeft(s))
  }

  lemma {:induction false} TrimLeftPad(pad: string, s: string)
    requires AllSpace(pad)
    ensures TrimLeft(pad + s) == TrimLeft(s)
  {
    if pad == "" {
      assert pad + s == s;
    } else {
      assert (pad + s)[0] == pad[0] && (pad + s)[1..] == pad[1..] + s;
      TrimLeftPad(pad[1..], s);
    }
  }

  lemma {:induction false} TrimRightPad(s: string, pad: string)
    requires AllSpace(pad)
    ensures TrimRight(s + pad) == TrimRight(s)
  {
    if pad == "" {
      assert s + pad == s;
    } else {
      var t := s + pad;
      assert t[|t| - 1] == pad[|pad| - 1] && t[..|t| - 1] == s + pad[..|pad| - 1];
      TrimRightPad(s, pad[..|pad| - 1]);
    }
  }

  /** Trim strips exactly the padding: it is the inverse of padding a trimmed text. */
  lemma TrimPadded(left: string, core: string, right: string)
    requires AllSpace(left) && AllSpace(right) && Trimmed(core)
    ensures Trim(left + core + right) == core
  {
    assert left + core + right == left + (core + right);
    TrimLeftPad(left, core + right);
    if core == "" {
      assert core + right == right + "";
      TrimLeftPad(right, "");
    } else {
      TrimRightPad(core, right);
    }
  }
}
