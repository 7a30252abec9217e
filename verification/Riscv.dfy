/** RISC-V line handling (src/impl_riscv_linux.c): an ordered scan of the ISA string, and the
    vendor and microarchitecture names.
  */
module Riscv {
  import opened LineReader
  import opened ReaderRuns
  import opened StringView
  import opened Text

  const LAST := 11

  const FLAGS: seq<string> := ["rv32i", "rv64i", "m", "a", "f", "d", "q", "c", "v", "_zicsr", "_zifencei"]

  /** Where the search for the next flag starts: behind flag i if it is found. */
  function Behind(line: string, i: nat): string
    requires i < LAST
  {
    var index := VisibleIndex(line, FLAGS[i]);
    if index < 0 then line else line[index + |FLAGS[i]|..]
  }

  /** Each flag is looked for behind the previous flag that was found. */
  function Scan(line: string, i: nat): (r: seq<bool>)
    requires i <= LAST
    ensures |r| == LAST - i
    decreases LAST - i, line
  {
    if i == LAST then [] else [VisibleIndex(line, FLAGS[i]) >= 0] + Scan(Behind(line, i), i + 1)
  }

  method HandleRiscVIsaLine(isa: string, features: array<bool>)
    requires features.Length == LAST
    modifies features
    ensures features[..] == Scan(isa, 0)
  {
    var line := isa;
    for i := 0 to LAST
      invariant features[..i] + Scan(line, i) == Scan(isa, 0)
    {
      ghost var before := line;
      var isSet;
      isSet, line := FindFlag(line, i);
      features[i] := isSet;
      Append(features[..i], isSet, Scan(line, i + 1));
      assert features[..i + 1] == features[..i] + [isSet];
      assert Scan(before, i) == [isSet] + Scan(line, i + 1);
    }
  }

  method FindFlag(line: string, i: nat) returns (isSet: bool, rest: string)
    requires i < LAST
    ensures isSet == (VisibleIndex(line, FLAGS[i]) >= 0) && rest == Behind(line, i)
  {
    var flag := FLAGS[i];
    var index := IndexOf(line, flag);
    isSet := index != -1;
    rest := if isSet then PopFront(line, index + |flag|) else line;
  }

  lemma Append(a: seq<bool>, b: bool, c: seq<bool>)
    ensures a + ([b] + c) == (a + [b]) + c
  {
  }

  const LETTERS := "mafdqcv"

  /** Filler may hold anything that starts no flag. */
  predicate Plain(s: string) {
    forall c :: c in s ==> c !in LETTERS && c != 'r' && c != '_' && c != '\0'
  }

  /** What follows the base: filler k, letter k if present, filler k+1 and so on. */
  function Extensions(present: seq<bool>, filler: seq<string>, k: nat): string
    requires |present| == |LETTERS| && |filler| == |LETTERS| + 1 && k <= |LETTERS|
    decreases |LETTERS| - k, present
  {
    if k == |LETTERS| then filler[k]
    else filler[k] + (if present[k] then [LETTERS[k]] else "") + Extensions(present, filler, k + 1)
  }

  lemma ExtensionsFrom(present: seq<bool>, filler: seq<string>, k: nat)
    requires |present| == |LETTERS| && |filler| == |LETTERS| + 1 && k <= |LETTERS|
    ensures k < |LETTERS| && present[k] ==>
              Extensions(present, filler, k) == filler[k] + [LETTERS[k]] + Extensions(present, filler, k + 1)
    ensures k < |LETTERS| && !present[k] ==>
              Extensions(present, filler, k) == filler[k] + Extensions(present, filler, k + 1)
  {
  }

  /** The extensions from k on hold no letter before the k-th, no r, no underscore and no NUL. */
  lemma {:induction false} ExtensionChars(present: seq<bool>, filler: seq<string>, k: nat)
    requires |present| == |LETTERS| && |filler| == |LETTERS| + 1 && k <= |LETTERS|
    requires forall j :: 0 <= j < |filler| ==> Plain(filler[j])
    ensures forall c :: c in Extensions(present, filler, k) ==>
              c !in LETTERS[..k] && c != 'r' && c != '_' && c != '\0'
    decreases |LETTERS| - k
  {
    if k < |LETTERS| {
      ExtensionChars(present, filler, k + 1);
      LettersDiffer(k);
    }
  }

  lemma LettersDiffer(k: nat)
    requires k < |LETTERS|
    ensures LETTERS[k] !in LETTERS[..k] && LETTERS[k] in LETTERS[..k + 1]
    ensures LETTERS[k] != 'r' && LETTERS[k] != '_' && LETTERS[k] != '\0'
    ensures FLAGS[k + 2] == [LETTERS[k]]
  {
  }

  /** Looking for a one-character flag is looking for the character. */
  lemma OneCharacter(line: string, c: char)
    requires NulFree(line)
    ensures VisibleIndex(line, [c]) == if c in line then Find(line, c) else -1
  {
    var i := Find(line, c);
    assert forall k :: 0 <= k < |line| ==> (OccursAt(line, [c], k) <==> line[k] == c);
    FindPresent(line, c);
    if c in line {
      FindSubIs(line, [c], i);
    }
  }

  /** A flag whose first character is absent is not found. */
  lemma Absent(line: string, flag: string)
    requires flag != "" && flag[0] !in line
    ensures VisibleIndex(line, flag) == -1
  {
  }

  /** The search for letter k, with the letter at hand or not. */
  lemma LetterFound(pre: string, k: nat, rest: string)
    requires k < |LETTERS| && LETTERS[k] !in pre && NulFree(pre + [LETTERS[k]] + rest)
    ensures var line := pre + [LETTERS[k]] + rest; Scan(line, k + 2) == [true] + Scan(rest, k + 3)
  {
    var line := pre + [LETTERS[k]] + rest;
    LettersDiffer(k);
    OneCharacter(line, LETTERS[k]);
    FindIs(line, LETTERS[k], |pre|);
    assert line[|pre| + 1..] == rest;
  }

  lemma LetterMissing(line: string, k: nat)
    requires k < |LETTERS| && LETTERS[k] !in line
    ensures Scan(line, k + 2) == [false] + Scan(line, k + 3)
  {
    LettersDiffer(k);
    Absent(line, FLAGS[k + 2]);
  }

  lemma NoLongExtensions(line: string)
    requires '_' !in line
    ensures Scan(line, 9) == [false, false]
  {
    Absent(line, FLAGS[9]);
    Absent(line, FLAGS[10]);
    assert Behind(line, 9) == line;
    assert Scan(line, 10) == [false];
  }

  lemma {:induction false} ScanExtensions(pre: string, present: seq<bool>, filler: seq<string>, k: nat)
    requires |present| == |LETTERS| && |filler| == |LETTERS| + 1 && k <= |LETTERS|
    requires Plain(pre) && forall j :: 0 <= j < |filler| ==> Plain(filler[j])
    ensures Scan(pre + Extensions(present, filler, k), k + 2) == present[k..] + [false, false]
    decreases |LETTERS| - k
  {
    hide Scan, Extensions;
    ExtensionChars(present, filler, k);
    ExtensionsFrom(present, filler, k);
    if k == |LETTERS| {
      NoLongExtensions(pre + Extensions(present, filler, k));
      assert present[k..] + [false, false] == [false, false];
    } else {
      var rest, pre' := Extensions(present, filler, k + 1), pre + filler[k];
      LettersDiffer(k);
      ExtensionChars(present, filler, k + 1);
      if present[k] {
        assert pre + Extensions(present, filler, k) == pre' + [LETTERS[k]] + rest;
        LetterFound(pre', k, rest);
        ScanExtensions("", present, filler, k + 1);
        assert "" + rest == rest;
      } else {
        assert pre + Extensions(present, filler, k) == pre' + rest;
        LetterMissing(pre' + rest, k);
        ScanExtensions(pre', present, filler, k + 1);
      }
      TakeFlag(present, k, [false, false]);
    }
  }

  lemma TakeFlag(present: seq<bool>, k: nat, tail: seq<bool>)
    requires k < |present|
    ensures [present[k]] + (present[k + 1..] + tail) == present[k..] + tail
  {
  }

  /** For a base followed by any in-order selection of the letters, with plain filler of any length
      around them, the features are exactly the base and the selected letters. */
  lemma IsaFeatures(wide: bool, present: seq<bool>, filler: seq<string>)
    requires |present| == |LETTERS| && |filler| == |LETTERS| + 1
    requires forall j :: 0 <= j < |filler| ==> Plain(filler[j])
    ensures Scan(Base(wide) + Extensions(present, filler, 0), 0) == [!wide, wide] + present + [false, false]
  {
    hide Scan, Extensions;
    var rest := Extensions(present, filler, 0);
    ExtensionChars(present, filler, 0);
    ScanExtensions("", present, filler, 0);
    assert "" + rest == rest && present[0..] == present;
    NotFound(rest, Base(!wide));
    BaseAlone(wide, rest);
    assert [!wide, wide] + (present + [false, false]) == [!wide, wide] + present + [false, false];
  }

  function Base(wide: bool): string {
    if wide then "rv64i" else "rv32i"
  }

  /** The base in front is reported alone if and only if the other one does not occur behind it. */
  lemma BaseAlone(wide: bool, rest: string)
    requires NulFree(rest)
    ensures Scan(Base(wide) + rest, 0)[..2] == [!wide, wide] <==> FindSub(rest, Base(!wide)) == -1
    ensures FindSub(rest, Base(!wide)) == -1 ==> Scan(Base(wide) + rest, 0) == [!wide, wide] + Scan(rest, 2)
  {
    hide Scan, VisibleIndex;
    var line := Base(wide) + rest;
    BaseFound(Base(wide), rest);
    ScanStep(line, 0);
    ScanStep(Behind(line, 0), 1);
    TwoFlags(VisibleIndex(line, FLAGS[0]) >= 0, VisibleIndex(Behind(line, 0), FLAGS[1]) >= 0,
             Scan(Behind(Behind(line, 0), 1), 2));
    Plainly(rest, Base(!wide));
    if wide {
      NotInBase(rest);
      AbsentBehind("rv64i", rest, "rv32i");
      Plainly(line, "rv32i");
    }
  }

  lemma TwoFlags(a: bool, b: bool, rest: seq<bool>)
    ensures ([a] + ([b] + rest))[..2] == [a, b] && [a] + ([b] + rest) == [a, b] + rest
  {
  }

  /** Without NULs the search finds what occurs. */
  lemma Plainly(line: string, flag: string)
    requires NulFree(line) && flag != ""
    ensures VisibleIndex(line, flag) == FindSub(line, flag)
  {
  }

  lemma ScanStep(line: string, i: nat)
    requires i < LAST
    ensures Scan(line, i) == [VisibleIndex(line, FLAGS[i]) >= 0] + Scan(Behind(line, i), i + 1)
  {
  }

  lemma BaseFound(base: string, rest: string)
    requires NulFree(base) && base != "" && NulFree(rest)
    ensures VisibleIndex(base + rest, base) == 0 && (base + rest)[|base|..] == rest
  {
  }

  lemma NotInBase(rest: string)
    ensures forall i :: 0 <= i < 5 ==> !OccursAt("rv64i" + rest, "rv32i", i)
  {
    var line := "rv64i" + rest;
    assert forall k :: 0 <= k < 5 ==> line[k] == "rv64i"[k];
    assert "rv32i"[0] == 'r' && "rv32i"[2] == '3';
    forall i | 0 <= i < 5 && OccursAt(line, "rv32i", i)
      ensures false
    {
      OccursChars(line, "rv32i", i);
    }
  }

  function Letter(present: bool, c: char): string {
    if present then [c] else ""
  }

  /** The flags by name: any selection of the single letters in the order of the ISA manual. */
  lemma SingleLetters(wide: bool, on: seq<bool>)
    requires |on| == 7
    ensures Scan((if wide then "rv64i" else "rv32i") +
                 (Letter(on[0], 'm') + (Letter(on[1], 'a') + (Letter(on[2], 'f') + (Letter(on[3], 'd') +
                  (Letter(on[4], 'q') + (Letter(on[5], 'c') + Letter(on[6], 'v'))))))), 0) ==
            [!wide, wide] + on + [false, false]
  {
    hide Scan, Extensions, Letter;
    var filler := seq(8, _ => "");
    IsaFeatures(wide, on, filler);
    AllLetters(on, filler);
  }

  lemma AllLetters(present: seq<bool>, filler: seq<string>)
    requires |present| == 7 && |filler| == 8 && forall k :: 0 <= k < 8 ==> filler[k] == ""
    ensures Extensions(present, filler, 0) ==
            Letter(present[0], 'm') + (Letter(present[1], 'a') + (Letter(present[2], 'f') + (Letter(present[3], 'd') +
             (Letter(present[4], 'q') + (Letter(present[5], 'c') + Letter(present[6], 'v'))))))
  {
    hide Extensions, Letter;
    NoFiller(present, filler, 0);
    NoFiller(present, filler, 1);
    NoFiller(present, filler, 2);
    NoFiller(present, filler, 3);
    NoFiller(present, filler, 4);
    NoFiller(present, filler, 5);
    NoFiller(present, filler, 6);
    assert Letter(present[6], 'v') + "" == Letter(present[6], 'v');
  }

  lemma NoFiller(present: seq<bool>, filler: seq<string>, k: nat)
    requires |present| == |LETTERS| && |filler| == |LETTERS| + 1 && k < |LETTERS|
    requires filler[k] == "" && filler[k + 1] == ""
    ensures Extensions(present, filler, k) == Letter(present[k], "mafdqcv"[k]) + Extensions(present, filler, k + 1)
    ensures k == 6 ==> Extensions(present, filler, 7) == ""
  {
    ExtensionsFrom(present, filler, k);
    hide Extensions;
    LastFiller(present, filler);
  }

  lemma LastFiller(present: seq<bool>, filler: seq<string>)
    requires |present| == |LETTERS| && |filler| == |LETTERS| + 1
    ensures Extensions(present, filler, |LETTERS|) == filler[|LETTERS|]
  {
  }

  // ----- Behind the single letters, long names

  /** The long flags by name: _zicsr anywhere, and _zifencei behind it, or anywhere without it. */
  lemma LongFlags(long: string)
    requires NulFree(long)
    ensures var z := FindSub(long, "_zicsr");
            && |Scan(long, 9)| == 2 && (Scan(long, 9)[0] <==> z >= 0)
            && (z < 0 ==> (Scan(long, 9)[1] <==> FindSub(long, "_zifencei") >= 0))
            && (z >= 0 ==> z + 6 <= |long| && (Scan(long, 9)[1] <==> FindSub(long[z + 6..], "_zifencei") >= 0))
  {
    hide Scan, FindSub;
    Plainly(long, "_zicsr");
    Plainly(long, "_zifencei");
    ScanStep(long, 9);
    ScanStep(Behind(long, 9), 10);
    var z := VisibleIndex(long, "_zicsr");
    if z >= 0 {
      RestNulFree(long, z + 6);
      Plainly(long[z + 6..], "_zifencei");
    }
  }

  lemma RestNulFree(s: string, d: nat)
    requires NulFree(s) && d <= |s|
    ensures NulFree(s[d..])
  {
  }

  /** The long names hold no letter that the single-letter part lacks. */
  predicate LongLacks(present: seq<bool>, long: string, k: nat)
    requires |present| == |LETTERS|
  {
    forall j :: k <= j < |LETTERS| && !present[j] ==> LETTERS[j] !in long
  }

  /** A flag is found behind text without its first character as it is found without that text. */
  lemma FoundBehind(pre: string, line: string, i: nat)
    requires 0 < i < LAST && FLAGS[i][0] !in pre && NulFree(pre + line)
    ensures VisibleIndex(pre + line, FLAGS[i]) >= 0 <==> VisibleIndex(line, FLAGS[i]) >= 0
    ensures Behind(pre + line, i) == if VisibleIndex(line, FLAGS[i]) >= 0 then Behind(line, i) else pre + line
  {
    hide FindSub, OccursAt;
    var all, flag := pre + line, FLAGS[i];
    assert all[|pre|..] == line;
    assert NulFree(line) by {
      assert forall c :: c in line ==> c in all;
    }
    Plainly(all, flag);
    Plainly(line, flag);
    forall k | 0 <= k < |pre|
      ensures !OccursAt(all, flag, k)
    {
      NoStart(all, flag, k);
    }
    AbsentBehind(pre, line, flag);
    var q := FindSub(line, flag);
    if q >= 0 {
      FoundAt(pre, line, flag, q);
      assert all[|pre| + q + |flag|..] == line[q + |flag|..];
    }
  }

  lemma FoundAt(pre: string, line: string, flag: string, q: nat)
    requires q == FindSub(line, flag) && forall k :: 0 <= k < |pre| ==> !OccursAt(pre + line, flag, k)
    ensures FindSub(pre + line, flag) == |pre| + q && q + |flag| <= |line|
  {
    var all := pre + line;
    assert all[|pre|..] == line;
    OccursShift(all, flag, |pre|, q);
    forall k | |pre| <= k < |pre| + q
      ensures !OccursAt(all, flag, k)
    {
      OccursShift(all, flag, |pre|, k - |pre|);
    }
    FindSubIs(all, flag, |pre| + q);
  }

  lemma ScanLongNames(pre: string, line: string)
    requires '_' !in pre && NulFree(pre + line)
    ensures Scan(pre + line, 9) == Scan(line, 9)
  {
    hide Scan, VisibleIndex;
    FoundBehind(pre, line, 9);
    ScanStep(pre + line, 9);
    ScanStep(line, 9);
    if VisibleIndex(line, FLAGS[9]) < 0 {
      FoundBehind(pre, line, 10);
      ScanStep(pre + line, 10);
      ScanStep(line, 10);
      NothingLeft(Behind(pre + line, 10), Behind(line, 10));
    }
  }

  lemma NothingLeft(a: string, b: string)
    ensures Scan(a, LAST) == Scan(b, LAST)
  {
  }

  /** The letters from k on are reported as selected if and only if the long names lack all the
      others; and then the long names alone decide the long flags. */
  predicate Reported(r: seq<bool>, present: seq<bool>, long: string, k: nat)
    requires |present| == |LETTERS| && k <= |LETTERS| && |r| == LAST - (k + 2)
  {
    && (r[..|LETTERS| - k] == present[k..] <==> LongLacks(present, long, k))
    && (LongLacks(present, long, k) ==> r == present[k..] + Scan(['_'] + long, 9))
  }

  lemma AllTaken(present: seq<bool>, long: string)
    requires |present| == |LETTERS|
    ensures Reported(Scan(['_'] + long, 9), present, long, |LETTERS|)
  {
    hide Scan;
    assert present[|LETTERS|..] + Scan(['_'] + long, 9) == Scan(['_'] + long, 9);
  }

  lemma RightLetter(r: seq<bool>, present: seq<bool>, long: string, k: nat)
    requires |present| == |LETTERS| && k < |LETTERS| && |r| == LAST - (k + 3)
    requires Reported(r, present, long, k + 1) && (present[k] || LETTERS[k] !in long)
    ensures Reported([present[k]] + r, present, long, k)
  {
    hide Scan;
    FirstDecides(present, k, present[k], r);
    TakeFlag(present, k, Scan(['_'] + long, 9));
    assert LongLacks(present, long, k) <==> LongLacks(present, long, k + 1);
  }

  lemma WrongLetter(r: seq<bool>, present: seq<bool>, long: string, k: nat)
    requires |present| == |LETTERS| && k < |LETTERS| && |r| == LAST - (k + 3)
    requires !present[k] && LETTERS[k] in long
    ensures Reported([true] + r, present, long, k)
  {
    hide Scan;
    FirstDecides(present, k, true, r);
  }

  lemma FirstDecides(present: seq<bool>, k: nat, b: bool, r: seq<bool>)
    requires |present| == |LETTERS| && k < |LETTERS| && |r| == LAST - (k + 3)
    ensures ([b] + r)[..|LETTERS| - k] == present[k..] <==>
            b == present[k] && r[..|LETTERS| - (k + 1)] == present[k + 1..]
  {
    var n := |LETTERS| - (k + 1);
    assert ([b] + r)[..n + 1] == [b] + r[..n];
    assert present[k..] == [present[k]] + present[k + 1..];
    assert ([b] + r[..n])[1..] == r[..n];
  }

  /** Behind any selection of the letters, with plain filler, and an underscore. */
  lemma {:induction false} ScanWithLongNames(pre: string, present: seq<bool>, filler: seq<string>, long: string, k: nat)
    requires |present| == |LETTERS| && |filler| == |LETTERS| + 1 && k <= |LETTERS|
    requires Plain(pre) && NulFree(long) && forall j :: 0 <= j < |filler| ==> Plain(filler[j])
    ensures Reported(Scan(pre + Extensions(present, filler, k) + (['_'] + long), k + 2), present, long, k)
    decreases |LETTERS| - k
  {
    hide Scan, Reported, VisibleIndex, Extensions;
    var tail := ['_'] + long;
    ExtensionChars(present, filler, k);
    ExtensionsFrom(present, filler, k);
    if k == |LETTERS| {
      ScanLongNames(pre + Extensions(present, filler, k), tail);
      AllTaken(present, long);
    } else {
      var rest, pre' := Extensions(present, filler, k + 1), pre + filler[k];
      LettersDiffer(k);
      ExtensionChars(present, filler, k + 1);
      if present[k] {
        assert pre + Extensions(present, filler, k) + tail == pre' + [LETTERS[k]] + (rest + tail);
        LetterFound(pre', k, rest + tail);
        ScanWithLongNames("", present, filler, long, k + 1);
        assert "" + rest + tail == rest + tail;
        RightLetter(Scan(rest + tail, k + 3), present, long, k);
      } else {
        assert pre + Extensions(present, filler, k) + tail == pre' + rest + tail;
        AbsentLetter(pre', present, filler, long, k);
      }
    }
  }

  lemma {:induction false} AbsentLetter(pre: string, present: seq<bool>, filler: seq<string>, long: string, k: nat)
    requires |present| == |LETTERS| && |filler| == |LETTERS| + 1 && k < |LETTERS| && !present[k]
    requires Plain(pre) && NulFree(long) && forall j :: 0 <= j < |filler| ==> Plain(filler[j])
    ensures Reported(Scan(pre + Extensions(present, filler, k + 1) + (['_'] + long), k + 2), present, long, k)
    decreases |LETTERS| - k, 0
  {
    hide Scan, Reported, VisibleIndex, Extensions;
    var line := pre + Extensions(present, filler, k + 1) + (['_'] + long);
    LettersDiffer(k);
    ExtensionChars(present, filler, k + 1);
    if LETTERS[k] in long {
      ScanStep(line, k + 2);
      OneCharacter(line, LETTERS[k]);
      WrongLetter(Scan(Behind(line, k + 2), k + 3), present, long, k);
    } else {
      LetterMissing(line, k);
      ScanWithLongNames(pre, present, filler, long, k + 1);
      RightLetter(Scan(line, k + 3), present, long, k);
    }
  }

  lemma NulFreeIs(s: string)
    ensures NulFree(s) <==> forall c :: c in s ==> c != '\0'
  {
  }

  lemma RestOfLine(letters: string, long: string)
    requires NulFree(letters) && NulFree(long)
    ensures var rest := letters + (['_'] + long);
            rest == (letters + ['_']) + long && rest == "" + letters + (['_'] + long) && NulFree(rest)
    ensures 'r' !in letters ==> 'r' !in letters + ['_']
  {
  }

  lemma EmptyIsPlain()
    ensures Plain("")
  {
  }

  /** The whole line: with long names behind the single letters, the base and the letters are
      reported as given if and only if the long names hold neither the other base nor a letter that
      is absent. Only then do the long names alone decide the long flags. */
  lemma LongNamesHarmlessIff(wide: bool, present: seq<bool>, filler: seq<string>, long: string)
    requires |present| == |LETTERS| && |filler| == |LETTERS| + 1
    requires NulFree(long) && forall j :: 0 <= j < |filler| ==> Plain(filler[j])
    ensures var r := Scan(Base(wide) + (Extensions(present, filler, 0) + (['_'] + long)), 0);
            var harmless := FindSub(long, Base(!wide)) == -1 && LongLacks(present, long, 0);
            && (r[..2 + |LETTERS|] == [!wide, wide] + present <==> harmless)
            && (harmless ==> r == [!wide, wide] + present + Scan(['_'] + long, 9))
  {
    hide Scan, Extensions, LongLacks, FindSub, VisibleIndex, Plain, NulFree;
    EmptyIsPlain();
    var letters := Extensions(present, filler, 0);
    var rest := letters + (['_'] + long);
    ExtensionChars(present, filler, 0);
    NulFreeIs(letters);
    RestOfLine(letters, long);
    BaseBehind(letters + ['_'], long, Base(!wide));
    BaseAlone(wide, rest);
    ScanWithLongNames("", present, filler, long, 0);
    assert present[0..] == present;
    BaseAndLetters(Scan(Base(wide) + rest, 0), [!wide, wide], Scan(rest, 2), present, Scan(['_'] + long, 9));
  }

  lemma BaseAndLetters(r: seq<bool>, base: seq<bool>, s: seq<bool>, present: seq<bool>, tail: seq<bool>)
    requires |present| == |LETTERS| && |base| == 2 && |r| == LAST && |s| == LAST - 2
    ensures r[..2 + |LETTERS|] == base + present ==> r[..2] == base
    ensures r == base + s ==> (r[..2 + |LETTERS|] == base + present <==> s[..|LETTERS|] == present)
    ensures base + (present + tail) == base + present + tail
  {
    assert r[..2 + |LETTERS|][..2] == r[..2] && (base + present)[..2] == base;
    assert (base + s)[..2 + |LETTERS|] == base + s[..|LETTERS|];
    assert (base + s[..|LETTERS|])[2..] == s[..|LETTERS|] && (base + present)[2..] == present;
  }

  lemma BaseBehind(pre: string, long: string, base: string)
    requires base != "" && base[0] !in pre
    ensures FindSub(pre + long, base) == -1 <==> FindSub(long, base) == -1
  {
    forall k | 0 <= k < |pre|
      ensures !OccursAt(pre + long, base, k)
    {
      NoStart(pre + long, base, k);
    }
    AbsentBehind(pre, long, base);
  }

  /** The f of zfinx is taken for F, and C, which stands in front of it, is lost. */
  lemma LetterLost()
    ensures Scan("rv64imc_zfinx", 0) ==
            [false, true, true, false, true, false, false, false, false, false, false]
  {
    hide Scan, VisibleIndex;
    assert "rv64imc_zfinx" == Base(true) + "mc_zfinx" && "mc_zfinx" == "" + [LETTERS[0]] + "c_zfinx";
    assert "c_zfinx" == "c_z" + [LETTERS[2]] + "inx";
    NotFound("mc_zfinx", Base(false));
    BaseAlone(true, "mc_zfinx");
    LetterFound("", 0, "c_zfinx");
    LetterMissing("c_zfinx", 1);
    LetterFound("c_z", 2, "inx");
    LetterMissing("inx", 3);
    LetterMissing("inx", 4);
    LetterMissing("inx", 5);
    LetterMissing("inx", 6);
    NoLongExtensions("inx");
  }

  // ----- Lines of /proc/cpuinfo

  datatype Info = Info(features: seq<bool>, vendor: seq<char>, uarch: seq<char>)

  class RiscvInfo {
    const features: array<bool>
    const uarch: array<char>
    const vendor: array<char>

    ghost function Value(): Info
      reads features, uarch, vendor
    {
      Info(features[..], vendor[..], uarch[..])
    }

    ghost predicate Valid() {
      features.Length == LAST && uarch.Length == 64 && vendor.Length == 64 && uarch != vendor
    }

    constructor ()
      ensures Valid() && fresh(features) && fresh(uarch) && fresh(vendor)
    {
      features := new bool[LAST](_ => false);
      uarch := new char[64](_ => '\0');
      vendor := new char[64](_ => '\0');
    }
  }

  predicate IsaLine(line: string) {
    KeyValue(line).Attribute? && KeyValue(line).key == "isa"
  }

  function IsaFlags(line: string): seq<bool>
    requires IsaLine(line)
  {
    Scan(KeyValue(line).value, 0)
  }

  predicate VendorLine(line: string) {
    KeyValue(line).Attribute? && KeyValue(line).key == "uarch" && ',' in KeyValue(line).value
  }

  function UarchValue(line: string): string
    requires VendorLine(line)
  {
    KeyValue(line).value
  }

  /** A uarch line whose value names no vendor. */
  predicate VendorMissing(line: string) {
    KeyValue(line).Attribute? && KeyValue(line).key == "uarch" && ',' !in KeyValue(line).value
  }

  /** Whether the handler asks for another line. */
  predicate GoesOn(r: LineResult) {
    !r.eof || VendorMissing(r.line)
  }

  /** What a line leaves: an ISA line decides all features, a uarch line with a comma the names. */
  function AfterLine(line: string, info: Info): Info
    requires |info.vendor| > 0 && |info.uarch| > 0
  {
    if IsaLine(line) then info.(features := IsaFlags(line))
    else if VendorLine(line) then
      var value := KeyValue(line).value;
      info.(vendor := Copied(Before(value, ','), info.vendor), uarch := Copied(After(value, ','), info.uarch))
    else info
  }

  method HandleUarch(value: string, vendor: array<char>, uarch: array<char>) returns (found: bool)
    requires NulFree(value) && vendor != uarch && vendor.Length > 0 && uarch.Length > 0
    modifies vendor, uarch
    ensures found == (',' in value)
    ensures found ==> vendor[..] == Copied(Before(value, ','), old(vendor[..]))
    ensures found ==> uarch[..] == Copied(After(value, ','), old(uarch[..]))
    ensures !found ==> vendor[..] == old(vendor[..]) && uarch[..] == old(uarch[..])
  {
    var index := IndexOfChar(value, ',');
    if index == -1 {
      return false;
    }
    FindPresent(value, ',');
    CopyString(KeepFront(value, index), vendor);
    CopyString(PopFront(value, index + 1), uarch);
    return true;
  }

  method HandleRiscVLine(result: LineResult, info: RiscvInfo) returns (goOn: bool)
    requires info.Valid() && NulFree(result.line)
    modifies info.features, info.uarch, info.vendor
    ensures goOn == GoesOn(result)
    ensures info.Value() == AfterLine(result.line, old(info.Value()))
  {
    var a := GetAttributeKeyValue(result.line);
    if a.Attribute? {
      if a.key == "isa" {
        HandleRiscVIsaLine(a.value, info.features);
      } else if a.key == "uarch" {
        ValueNulFree(result.line);
        var found := HandleUarch(a.value, info.vendor, info.uarch);
        if !found {
          return true;
        }
      }
    }
    return !result.eof;
  }

  function AfterLines(lines: seq<string>, info: Info): (r: Info)
    requires |info.vendor| > 0 && |info.uarch| > 0
    ensures |r.vendor| == |info.vendor| && |r.uarch| == |info.uarch|
  {
    if lines == [] then info else AfterLine(lines[|lines| - 1], AfterLines(lines[..|lines| - 1], info))
  }

  lemma OneMoreLine(results: seq<LineResult>, r: LineResult, info: Info)
    requires |info.vendor| > 0 && |info.uarch| > 0
    ensures AfterLines(Lines(results + [r]), info) == AfterLine(r.line, AfterLines(Lines(results), info))
  {
    var lines := Lines(results + [r]);
    assert lines[..|lines| - 1] == Lines(results);
  }

  predicate IsLastIsa(lines: seq<string>, k: nat) {
    && k < |lines| && IsaLine(lines[k])
    && forall j :: k < j < |lines| ==> !IsaLine(lines[j])
  }

  lemma IsaLineDecides(line: string, info: Info)
    requires |info.vendor| > 0 && |info.uarch| > 0
    ensures AfterLine(line, info).features == if IsaLine(line) then IsaFlags(line) else info.features
  {
  }

  /** The last ISA line alone decides the features. */
  lemma {:induction false} LastIsaDecides(lines: seq<string>, info: Info, k: nat)
    requires |info.vendor| > 0 && |info.uarch| > 0 && IsLastIsa(lines, k)
    ensures AfterLines(lines, info).features == IsaFlags(lines[k])
  {
    hide IsaFlags, AfterLine, IsaLine;
    var n := |lines| - 1;
    IsaLineDecides(lines[n], AfterLines(lines[..n], info));
    if k < n {
      LastIsaDecides(lines[..n], info, k);
    }
  }

  lemma {:induction false} NoIsaLine(lines: seq<string>, info: Info)
    requires |info.vendor| > 0 && |info.uarch| > 0 && forall k :: 0 <= k < |lines| ==> !IsaLine(lines[k])
    ensures AfterLines(lines, info).features == info.features
  {
    hide IsaFlags, AfterLine, IsaLine;
    if lines != [] {
      var n := |lines| - 1;
      NoIsaLine(lines[..n], info);
      IsaLineDecides(lines[n], AfterLines(lines[..n], info));
    }
  }

  predicate IsLastVendor(lines: seq<string>, k: nat) {
    && k < |lines| && VendorLine(lines[k])
    && forall j :: k < j < |lines| ==> !VendorLine(lines[j])
  }

  /** What a buffer of n characters holds of a text. */
  function Fitting(s: string, n: nat): string
    requires n > 0
  {
    if |s| < n then s else s[..n - 1]
  }

  /** The names as a caller reads them, up to the terminator. */
  predicate Shows(info: Info, value: string)
    requires |info.vendor| > 0 && |info.uarch| > 0
  {
    && Before(info.vendor, '\0') == Fitting(Before(value, ','), |info.vendor|)
    && Before(info.uarch, '\0') == Fitting(After(value, ','), |info.uarch|)
  }

  lemma VendorLineDecides(line: string, info: Info)
    requires |info.vendor| > 0 && |info.uarch| > 0 && NulFree(line)
    ensures VendorLine(line) ==> Shows(AfterLine(line, info), UarchValue(line))
    ensures !VendorLine(line) ==>
              AfterLine(line, info).vendor == info.vendor && AfterLine(line, info).uarch == info.uarch
  {
    hide KeyValue, Copied, Before, After, Scan;
    if VendorLine(line) {
      var value := KeyValue(line).value;
      ValueNulFree(line);
      PartsNulFree(value);
      CopyReadsBack(Before(value, ','), info.vendor);
      CopyReadsBack(After(value, ','), info.uarch);
    }
  }

  lemma PartsNulFree(value: string)
    requires NulFree(value)
    ensures NulFree(Before(value, ',')) && NulFree(After(value, ','))
  {
  }

  /** The last uarch line with a comma alone decides both names. */
  lemma {:induction false} LastVendorDecides(lines: seq<string>, info: Info, k: nat)
    requires |info.vendor| > 0 && |info.uarch| > 0 && forall i :: 0 <= i < |lines| ==> NulFree(lines[i])
    requires IsLastVendor(lines, k)
    ensures Shows(AfterLines(lines, info), UarchValue(lines[k]))
  {
    hide UarchValue, VendorLine, AfterLine, NulFree, Before, After, Fitting;
    var n := |lines| - 1;
    VendorLineDecides(lines[n], AfterLines(lines[..n], info));
    if k < n {
      LastVendorDecides(lines[..n], info, k);
    }
  }

  lemma {:induction false} NoVendorLine(lines: seq<string>, info: Info)
    requires |info.vendor| > 0 && |info.uarch| > 0
    requires forall k :: 0 <= k < |lines| ==> NulFree(lines[k]) && !VendorLine(lines[k])
    ensures AfterLines(lines, info).vendor == info.vendor && AfterLines(lines, info).uarch == info.uarch
  {
    hide VendorLine, AfterLine, NulFree;
    if lines != [] {
      var n := |lines| - 1;
      NoVendorLine(lines[..n], info);
      VendorLineDecides(lines[n], AfterLines(lines[..n], info));
    }
  }

  /** A uarch line as the kernel writes it: the text before the comma is the vendor, the text behind it
      the microarchitecture. */
  lemma NamesLine(vendor: string, uarch: string, info: Info)
    requires NulFree(vendor) && NulFree(uarch) && ',' !in vendor && Trimmed(vendor + [','] + uarch)
    requires |vendor| < |info.vendor| && |uarch| < |info.uarch|
    ensures var line := "uarch\t: " + (vendor + [','] + uarch);
            var r := AfterLine(line, info);
            && Before(r.vendor, '\0') == vendor && Before(r.uarch, '\0') == uarch
            && r.features == info.features && !VendorMissing(line)
  {
    hide KeyValue, Trimmed, Copied, Before, After, NulFree, Trim;
    var value := vendor + [','] + uarch;
    UarchLine(value);
    CutAt(vendor, ',', uarch);
    assert ',' in value;
    CopyReadsBack(vendor, info.vendor);
    CopyReadsBack(uarch, info.uarch);
  }

  lemma UarchLine(value: string)
    requires Trimmed(value)
    ensures KeyValue("uarch\t: " + value) == Attribute("uarch", value)
    ensures VendorMissing("uarch\t: " + value) <==> ',' !in value
  {
    hide KeyValue, Trimmed;
    var key := "uarch";
    TrimmedKey(key);
    TabbedLine(key, value);
    assert key + "\t: " + value == "uarch\t: " + value;
  }

  lemma TrimmedKey(key: string)
    requires key == "uarch" || key == "isa"
    ensures Trimmed(key) && NulFree(key) && ':' !in key
  {
  }

  /** An isa line as the kernel writes it decides the features and nothing else. */
  lemma IsaText(isa: string, info: Info)
    requires Trimmed(isa) && |info.vendor| > 0 && |info.uarch| > 0
    ensures AfterLine("isa\t\t: " + isa, info) == info.(features := Scan(isa, 0))
  {
    hide KeyValue, Trimmed, Scan;
    var key := "isa";
    TrimmedKey(key);
    TabbedLine(key, isa);
    assert key + "\t\t: " + isa == "isa\t\t: " + isa;
  }

  /** A line with any other key, or none, changes nothing and never keeps the driver going. */
  lemma OtherLine(line: string, info: Info)
    requires |info.vendor| > 0 && |info.uarch| > 0
    requires KeyValue(line).Attribute? ==> KeyValue(line).key != "isa" && KeyValue(line).key != "uarch"
    ensures AfterLine(line, info) == info && !VendorMissing(line)
  {
  }

  // ----- The driver

  /** The files on which the driver, with this buffer, calls the reader for ever. */
  predicate Hangs(limit: nat, content: string) {
    VendorMissing(LastPiece(content, '\n')) && LastIsFull(limit, content)
  }

  /** A driver that has seen one more result than the file has lines has been told to stop, unless
      the last line names no vendor and is reported together with the end of the file. */
  lemma DriverStopsIff(limit: nat, content: string, states: seq<Cursor>, results: seq<LineResult>)
    requires Run(limit, true, states, results) && states[0] == AtStart(content)
    ensures Hangs(limit, content) ==> forall i :: 0 <= i < |results| ==> GoesOn(results[i])
    ensures |results| > |Split(content, '\n')| && !Hangs(limit, content) ==>
              exists i :: 0 <= i < |results| && !GoesOn(results[i])
  {
    hide Run, VendorMissing, LastIsFull, Split, LastPiece;
    NoVendorInEmpty();
    forall i | 0 <= i < |results|
      ensures Hangs(limit, content) ==> GoesOn(results[i])
      ensures i == |Split(content, '\n')| && !Hangs(limit, content) ==> !GoesOn(results[i])
    {
      EndOfFile(limit, content, states, results, i);
    }
    var n := |Split(content, '\n')|;
    assert n < |results| && !Hangs(limit, content) ==> !GoesOn(results[n]);
  }

  lemma NoVendorInEmpty()
    ensures !VendorMissing("")
  {
  }

  /** Under any reads, the first end-of-file result decides whether the driver ever stops. */
  lemma EofDecides(limit: nat, greedy: bool, states: seq<Cursor>, results: seq<LineResult>, i: nat)
    requires Run(limit, greedy, states, results) && i < |results| && results[i].eof
    ensures VendorMissing(results[i].line) <==> forall j :: i <= j < |results| ==> GoesOn(results[j])
  {
    forall j | i <= j < |results|
      ensures results[j] == results[i]
    {
      EofRepeats(limit, greedy, states, results, i, j);
    }
    assert GoesOn(results[i]) <==> VendorMissing(results[i].line);
  }

  lemma NamesNoVendor()
    ensures VendorMissing("uarch: x")
  {
    hide VisibleIndex, Trim, FindSub;
    var front, back := "" + "uarch" + "", "" + "x" + "";
    KeyValueRoundTrip("", "uarch", "", "", "x", "");
    NotFound(front, ": ");
    assert front + ": " + back == "uarch: x";
  }

  lemma LastPieceIsAll(line: string)
    requires '\n' !in line
    ensures LastPiece(line, '\n') == line
  {
  }

  /** Two lines of which the last names no vendor make the driver hang; the last line alone does
      not, since it comes out as truncated. */
  lemma HangingFile(limit: nat)
    requires limit >= 10
    ensures Hangs(limit, "a\nuarch: x") && !Hangs(limit, "uarch: x")
  {
    hide VendorMissing, LastPiece, LastIsFull;
    var last := "uarch: x";
    assert "a\nuarch: x" == "a" + ['\n'] + last;
    SmallFileMark(limit, "a" + ['\n'] + last);
    SmallFileMark(limit, last);
    NamesNoVendor();
    LastPieceBehind("a", '\n', last);
    LastPieceIsAll(last);
  }

  method HandleNextLine(reader: StackLineReader, info: RiscvInfo) returns (goOn: bool, ghost result: LineResult)
    requires reader.Valid() && info.Valid() && reader.buffer != info.vendor && reader.buffer != info.uarch
    modifies reader`ptr, reader`size, reader`skipMode, reader.buffer, reader.file`pos
    modifies info.features, info.uarch, info.vendor
    ensures reader.Valid() && goOn == GoesOn(result)
    ensures Step(reader.buffer.Length, reader.file.greedy, old(reader.State()), result, reader.State())
    ensures info.Value() == AfterLine(result.line, old(info.Value()))
  {
    hide Step, AfterLine, GoesOn, BufferedBehindTail;
    var r := reader.NextLine();
    result := r;
    goOn := HandleRiscVLine(r, info);
  }

  /** The driver part way through a file: it goes on until a line tells it to stop. */
  predicate Drives(limit: nat, greedy: bool, start: Cursor, states: seq<Cursor>, results: seq<LineResult>, goOn: bool) {
    && Run(limit, greedy, states, results) && states[0] == start
    && (!goOn ==> |results| > 0)
    && forall i :: 0 <= i < |results| ==> (GoesOn(results[i]) <==> goOn || i < |results| - 1)
  }

  lemma DriveFurther(limit: nat, greedy: bool, start: Cursor, states: seq<Cursor>, results: seq<LineResult>,
                     r: LineResult, t: Cursor)
    requires Drives(limit, greedy, start, states, results, true)
    requires Step(limit, greedy, states[|results|], r, t)
    ensures Drives(limit, greedy, start, states + [t], results + [r], GoesOn(r))
  {
    hide Step, GoesOn;
  }

  /** At most the given number of rounds of the driver's loop, which on some files has no end. */
  method HandleLines(reader: StackLineReader, info: RiscvInfo, rounds: nat)
    returns (goOn: bool, ghost states: seq<Cursor>, ghost results: seq<LineResult>)
    requires reader.Valid() && info.Valid() && reader.buffer != info.vendor && reader.buffer != info.uarch
    modifies reader`ptr, reader`size, reader`skipMode, reader.buffer, reader.file`pos
    modifies info.features, info.uarch, info.vendor
    ensures Drives(reader.buffer.Length, reader.file.greedy, old(reader.State()), states, results, goOn)
    ensures |results| <= rounds && (goOn ==> |results| == rounds)
    ensures info.Value() == AfterLines(Lines(results), old(info.Value()))
  {
    hide Step, GoesOn, AfterLine;
    states, results, goOn := [reader.State()], [], true;
    var i := 0;
    while goOn && i < rounds
      invariant reader.Valid() && info.Valid() && i == |results| <= rounds
      invariant Drives(reader.buffer.Length, reader.file.greedy, old(reader.State()), states, results, goOn)
      invariant states[|results|] == reader.State()
      invariant info.Value() == AfterLines(Lines(results), old(info.Value()))
      decreases rounds - i
    {
      ghost var result;
      goOn, result := HandleNextLine(reader, info);
      DriveFurther(reader.buffer.Length, reader.file.greedy, states[0], states, results, result, reader.State());
      OneMoreLine(results, result, old(info.Value()));
      states, results, i := states + [reader.State()], results + [result], i + 1;
    }
  }

  /** When the driver stops, it has seen the whole file once. */
  lemma StoppedIsComplete(limit: nat, greedy: bool, start: Cursor, states: seq<Cursor>, results: seq<LineResult>)
    requires Drives(limit, greedy, start, states, results, false)
    ensures CompleteRun(limit, greedy, start, states, results)
  {
    var n := |results| - 1;
    forall i | 0 <= i < n
      ensures !results[i].eof
    {
      if results[i].eof {
        EofRepeats(limit, greedy, states, results, i, n);
      }
    }
  }

  lemma NothingInEmpty(info: Info)
    requires |info.vendor| > 0 && |info.uarch| > 0
    ensures AfterLine("", info) == info
  {
  }

  /** What a stopped driver leaves is the fold over the lines of the file. */
  lemma FileDecides(limit: nat, content: string, states: seq<Cursor>, results: seq<LineResult>, info: Info)
    requires CompleteRun(limit, true, AtStart(content), states, results)
    requires |info.vendor| > 0 && |info.uarch| > 0
    ensures AfterLines(Lines(results), info) == AfterLines(CutLines(content, limit), info)
  {
    hide AfterLine, CompleteRun;
    var lines := CutLines(content, limit);
    RefinesSplit(limit, content, states, results);
    NothingInEmpty(AfterLines(lines, info));
    assert (lines + [""])[..|lines|] == lines;
  }

  /** An unopenable file is null and leaves everything alone. With one round more than the file has
      lines, a greedily read file either hangs the driver or has been folded line by line. */
  method FillProcCpuInfoData(file: File?, capacity: nat, info: RiscvInfo, rounds: nat)
    returns (goOn: bool, ghost states: seq<Cursor>, ghost results: seq<LineResult>)
    requires file != null ==> file.Valid() && file.pos == 0
    requires capacity > 0 && info.Valid()
    modifies file, info.features, info.uarch, info.vendor
    ensures file == null ==> !goOn && info.Value() == old(info.Value())
    ensures file != null ==>
              && Drives(capacity, file.greedy, AtStart(file.content), states, results, goOn)
              && info.Value() == AfterLines(Lines(results), old(info.Value()))
    ensures file != null && file.greedy && rounds > |Split(file.content, '\n')| ==>
              && (goOn <==> Hangs(capacity, file.content))
              && (!goOn ==> info.Value() == AfterLines(CutLines(file.content, capacity), old(info.Value())))
  {
    goOn, states, results := false, [], [];
    if file != null {
      hide Drives, Hangs, AfterLines, CutLines, Step, Split;
      var reader := new StackLineReader(file, capacity);
      goOn, states, results := HandleLines(reader, info, rounds);
      if file.greedy {
        Outcome(capacity, file.content, states, results, goOn, rounds, old(info.Value()));
      }
    }
  }

  lemma Outcome(limit: nat, content: string, states: seq<Cursor>, results: seq<LineResult>, goOn: bool,
                rounds: nat, info: Info)
    requires Drives(limit, true, AtStart(content), states, results, goOn)
    requires goOn ==> |results| == rounds
    requires |info.vendor| > 0 && |info.uarch| > 0
    ensures rounds > |Split(content, '\n')| ==> (goOn <==> Hangs(limit, content))
    ensures !goOn ==> AfterLines(Lines(results), info) == AfterLines(CutLines(content, limit), info)
  {
    hide GoesOn, Hangs, AfterLines, CutLines, Split, CompleteRun, Run;
    DriverStopsIff(limit, content, states, results);
    if !goOn {
      StoppedIsComplete(limit, true, AtStart(content), states, results);
      FileDecides(limit, content, states, results, info);
    }
  }
}
