/** The kernel CPU-list parser of ndk_compat/cpu-features.c: comma-separated CPU numbers and ranges
    become a 32-bit mask, and the masks of two files become a CPU count.
  */
module CpuList {
  import opened Bits
  import opened LineReader
  import opened Numerals
  import opened StringView
  import opened Text

  // ----- The mask as a set of CPU numbers

  lemma IndexFits(j: nat)
    requires j < 32
    ensures (j as bv32) as nat == j && (j as bv32) < 32
  {
  }

  predicate HasCpu(bits: bv32, j: nat)
    requires j < 32
  {
    IndexFits(j);
    IsBitSet(bits, j as bv32)
  }

  function Cpus(bits: bv32): set<nat> {
    set j: nat | j < 32 && HasCpu(bits, j)
  }

  lemma SetBit(bits: bv32, i: bv32, j: bv32)
    requires i < 32 && j < 32
    ensures IsBitSet(bits | (1 << i), j) <==> IsBitSet(bits, j) || i == j
  {
  }

  lemma SameIndex(i: nat, j: nat)
    requires i < 32 && j < 32
    ensures i as bv32 == j as bv32 <==> i == j
  {
    IndexFits(i);
    IndexFits(j);
  }

  lemma AddOne(bits: bv32, i: nat, j: nat)
    requires i < 32 && j < 32
    ensures (i as bv32) < 32
    ensures HasCpu(bits | (1 << (i as bv32)), j) <==> HasCpu(bits, j) || i == j
  {
    hide IsBitSet;
    IndexFits(i);
    IndexFits(j);
    SetBit(bits, i as bv32, j as bv32);
    SameIndex(i, j);
  }

  lemma OneMoreCpu(before: bv32, after: bv32, i: nat)
    requires i < 32 && forall j: nat :: j < 32 ==> (HasCpu(after, j) <==> HasCpu(before, j) || i == j)
    ensures Cpus(after) == Cpus(before) + {i}
  {
    hide HasCpu;
  }

  lemma AddCpu(bits: bv32, i: nat)
    requires i < 32
    ensures (i as bv32) < 32 && Cpus(bits | (1 << (i as bv32))) == Cpus(bits) + {i}
  {
    hide HasCpu, Cpus;
    IndexFits(i);
    var after := bits | (1 << (i as bv32));
    forall j: nat | j < 32
      ensures HasCpu(after, j) <==> HasCpu(bits, j) || i == j
    {
      AddOne(bits, i, j);
    }
    OneMoreCpu(bits, after, i);
  }

  lemma NoCpus()
    ensures Cpus(0) == {}
  {
  }

  // ----- What a list means

  predicate Between(a: int, j: int, b: int) {
    a <= j <= b
  }

  function Span(a: int, b: int): set<nat> {
    set j: nat | j < 32 && Between(a, j, b)
  }

  lemma NoSpan(a: nat)
    ensures Span(a, a - 1) == {}
  {
  }

  lemma SpanGrows(a: nat, i: nat)
    requires a <= i
    ensures Span(a, i) == Span(a, i - 1) + if i < 32 then {i} else {}
  {
  }

  /** The loop over a range ends behind it, or at once when it is empty. */
  lemma SpanEnds(a: nat, b: nat, i: nat)
    requires i > b && (i == a || a <= i <= b + 1)
    ensures Span(a, i - 1) == Span(a, b)
  {
  }

  /** The CPUs below 32 that one entry, "n" or "a-b", stands for; none when it is malformed. */
  function EntryCpus(text: string): set<nat> {
    if '-' in text then
      var a, b := ParseNumber(Before(text, '-')), ParseNumber(After(text, '-'));
      if a < 0 || b < 0 then {} else Span(a, b)
    else
      var n := ParseNumber(text);
      if 0 <= n < 32 then {n} else {}
  }

  function AllCpus(entries: seq<string>): set<nat> {
    if entries == [] then {} else EntryCpus(entries[0]) + AllCpus(entries[1..])
  }

  /** The numbers of the entry, and the loop counter behind a range, fit a C int. */
  predicate FitsInt(text: string) {
    if '-' in text then
      0 <= ParseNumber(Before(text, '-')) < INT_MAX && 0 <= ParseNumber(After(text, '-')) < INT_MAX
    else
      0 <= ParseNumber(text) <= INT_MAX
  }

  // ----- The parser

  class CpuMask {
    var bits: bv32

    constructor ()
      ensures bits == 0
    {
      bits := 0;
    }

    method SetBit(index: nat)
      modifies this
      ensures Cpus(bits) == old(Cpus(bits)) + (if index < 32 then {index} else {})
    {
      if index >= 32 {
        return;
      }
      AddCpu(bits, index);
      bits := bits | (1 << (index as bv32));
    }

    /** overflow tells that some C int left its range on the way. */
    method ParseCpuMask(text: string) returns (overflow: bool)
      requires NulFree(text)
      modifies this
      ensures Cpus(bits) == old(Cpus(bits)) + EntryCpus(text)
      ensures text == "" || FitsInt(text) ==> !overflow
    {
      var separator := IndexOfChar(text, '-');
      if separator < 0 {
        var cpu, o := ParsePositiveNumber(text);
        overflow := o;
        if cpu < 0 {
          return;
        }
        SetBit(cpu);
      } else {
        FindPresent(text, '-');
        var a, o := ParsePositiveNumber(KeepFront(text, separator));
        var b, o' := ParsePositiveNumber(PopFront(text, separator + 1));
        overflow := o || o' || b == INT_MAX;
        if a < 0 || b < 0 {
          return;
        }
        SetRange(a, b);
      }
    }

    method SetRange(a: nat, b: nat)
      modifies this
      ensures Cpus(bits) == old(Cpus(bits)) + Span(a, b)
    {
      hide Cpus, Span;
      var i := a;
      NoSpan(a);
      ghost var before := Cpus(bits);
      Regroup(before, {}, {});
      while i <= b
        invariant i == a || a <= i <= b + 1
        invariant Cpus(bits) == old(Cpus(bits)) + Span(a, i - 1)
      {
        if i < 32 {
          SetBit(i);
        } else {
          Regroup(Cpus(bits), {}, {});
        }
        SpanGrows(a, i);
        Regroup(before, Span(a, i - 1), if i < 32 then {i} else {});
        i := i + 1;
      }
      SpanEnds(a, b, i);
    }

    /** A whole first line adds the CPUs of all its entries; anything else adds nothing. */
    method ParseCpuMaskLine(result: LineResult) returns (overflow: bool)
      requires NulFree(result.line)
      modifies this
      ensures Cpus(bits) == old(Cpus(bits)) + ResultCpus(result)
      ensures !result.fullLine || result.eof || AllFitInt(Split(result.line, ',')) ==> !overflow
    {
      overflow := false;
      if !result.fullLine || result.eof {
        return;
      }
      hide Split, AllCpus, AllFitInt, EntryCpus, FitsInt, Cpus, NulFree;
      var line := result.line;
      while |line| > 0
        invariant NulFree(line)
        invariant Cpus(bits) + AllCpus(Split(line, ',')) == old(Cpus(bits)) + AllCpus(Split(result.line, ','))
        invariant AllFitInt(Split(result.line, ',')) ==> AllFitInt(Split(line, ',')) && !overflow
        decreases |line|
      {
        var next := IndexOfChar(line, ',');
        ghost var before := Cpus(bits);
        if next < 0 {
          LastEntry(line);
          var o := ParseCpuMask(line);
          overflow := overflow || o;
          return;
        }
        FirstEntry(line);
        var o := ParseCpuMask(KeepFront(line, next));
        overflow := overflow || o;
        Regroup(before, EntryCpus(Before(line, ',')), AllCpus(Split(After(line, ','), ',')));
        line := PopFront(line, next + 1);
      }
      LastEntry("");
      Regroup(Cpus(bits), {}, {});
    }
  }

  lemma Regroup(a: set<nat>, b: set<nat>, c: set<nat>)
    ensures (a + b) + c == a + (b + c)
    ensures a + {} == a
  {
  }

  /** Only a whole line that is not the end of the file is parsed. */
  function ResultCpus(result: LineResult): set<nat> {
    if result.fullLine && !result.eof then AllCpus(Split(result.line, ',')) else {}
  }

  predicate AllFitInt(entries: seq<string>) {
    forall entry :: entry in entries ==> entry == "" || FitsInt(entry)
  }

  lemma FirstEntry(line: string)
    requires ',' in line
    ensures AllCpus(Split(line, ',')) == EntryCpus(Before(line, ',')) + AllCpus(Split(After(line, ','), ','))
    ensures AllFitInt(Split(line, ',')) ==>
              (Before(line, ',') == "" || FitsInt(Before(line, ','))) && AllFitInt(Split(After(line, ','), ','))
    ensures |After(line, ',')| < |line| && (NulFree(line) ==> NulFree(After(line, ',')) && NulFree(Before(line, ',')))
    ensures Find(line, ',') < |line|
  {
  }

  lemma LastEntry(line: string)
    requires ',' !in line
    ensures AllCpus(Split(line, ',')) == EntryCpus(line)
    ensures AllFitInt(Split(line, ',')) ==> line == "" || FitsInt(line)
    ensures EntryCpus("") == {}
  {
  }

  // ----- Files and the count

  /** What a greedily read file contributes: its first line, if a newline ends it within the buffer. */
  function FileCpus(content: string, capacity: nat): set<nat> {
    if '\n' in content && |Before(content, '\n')| < capacity then
      AllCpus(Split(Before(content, '\n'), ','))
    else {}
  }

  /** What a file may contribute, and does when it is read greedily. Short reads may turn the first
      line into nothing, never into part of it. */
  predicate Contributes(file: File?, capacity: nat, cpus: set<nat>) {
    if file == null then cpus == {}
    else if file.greedy then cpus == FileCpus(file.content, capacity)
    else cpus == {} || ('\n' in file.content && cpus == AllCpus(Split(Before(file.content, '\n'), ',')))
  }

  /** The numbers of the first line fit a C int. */
  predicate FirstLineFits(file: File?) {
    file != null ==> AllFitInt(Split(Before(file.content, '\n'), ','))
  }

  method UpdateCpuMaskFromFile(file: File?, capacity: nat, mask: CpuMask) returns (overflow: bool, ghost cpus: set<nat>)
    requires file != null ==> file.Valid() && file.pos == 0
    requires capacity > 0
    modifies file, mask
    ensures file != null ==> file.Valid()
    ensures Contributes(file, capacity, cpus) && Cpus(mask.bits) == old(Cpus(mask.bits)) + cpus
    ensures FirstLineFits(file) ==> !overflow
  {
    hide Cpus, FileCpus, AllCpus, Split, ResultCpus, AllFitInt;
    overflow, cpus := false, {};
    if file != null {
      var result := ReadFirstLine(file, capacity);
      cpus := ResultCpus(result);
      overflow := mask.ParseCpuMaskLine(result);
    }
  }

  method ReadFirstLine(file: File, capacity: nat) returns (result: LineResult)
    requires file.Valid() && file.pos == 0 && capacity > 0
    modifies file
    ensures file.Valid() && NulFree(result.line)
    ensures Contributes(file, capacity, ResultCpus(result))
    ensures result.fullLine && !result.eof ==> result.line == Before(file.content, '\n')
  {
    hide Cpus, FileCpus, AllCpus, Split, Step, ResultCpus;
    var reader := new StackLineReader(file, capacity);
    ghost var s := reader.State();
    result := reader.NextLine();
    FirstResult(capacity, file.greedy, file.content, s, result, reader.State());
  }

  lemma FirstResult(limit: nat, greedy: bool, content: string, s: Cursor, r: LineResult, t: Cursor)
    requires Step(limit, greedy, s, r, t) && s == AtStart(content)
    ensures greedy ==> ResultCpus(r) == FileCpus(content, limit)
    ensures ResultCpus(r) == {} ||
            ('\n' in content && ResultCpus(r) == AllCpus(Split(Before(content, '\n'), ',')))
    ensures r.fullLine && !r.eof ==> r.line == Before(content, '\n')
  {
  }

  /** The count of bits, as the compiler's popcount gives it. */
  function Popcount(bits: bv32): nat {
    |Cpus(bits)|
  }

  function FileCpusOrNone(file: File?, capacity: nat): set<nat> {
    if file == null then {} else FileCpus(file.content, capacity)
  }

  /** The number of CPUs below 32 that either file lists. */
  method GetCpuCount(present: File?, possible: File?, capacity: nat)
    returns (count: nat, overflow: bool, ghost a: set<nat>, ghost b: set<nat>)
    requires present != null ==> present.Valid() && present.pos == 0
    requires possible != null ==> possible.Valid() && possible.pos == 0
    requires capacity > 0 && (present != null ==> present != possible)
    modifies present, possible
    ensures Contributes(present, capacity, a) && Contributes(possible, capacity, b)
    ensures count == |a + b| && count <= 32
    ensures (present != null ==> present.Valid()) && (possible != null ==> possible.Valid())
    ensures (present != null ==> present.greedy) && (possible != null ==> possible.greedy) ==>
              count == |FileCpusOrNone(present, capacity) + FileCpusOrNone(possible, capacity)|
    ensures FirstLineFits(present) && FirstLineFits(possible) ==> !overflow
  {
    hide Cpus, FileCpus, AllCpus, FirstLineFits;
    var mask := new CpuMask();
    NoCpus();
    var o, o';
    o, a := UpdateCpuMaskFromFile(present, capacity, mask);
    o', b := UpdateCpuMaskFromFile(possible, capacity, mask);
    overflow := o || o';
    assert {} + a == a;
    AtMost32(mask.bits);
    count := Popcount(mask.bits);
  }

  lemma AtMost32(bits: bv32)
    ensures |Cpus(bits)| <= 32
  {
    Smaller(Cpus(bits), Below(32));
  }

  function Below(n: nat): (r: set<nat>)
    ensures |r| == n && forall j: nat :: j in r <==> j < n
  {
    if n == 0 then {} else Below(n - 1) + {n - 1}
  }

  lemma {:induction false} Smaller(a: set<nat>, b: set<nat>)
    requires a <= b
    ensures |a| <= |b|
  {
    if a != {} {
      var x :| x in a;
      Smaller(a - {x}, b - {x});
    }
  }

  // ----- Printed lists

  datatype Entry = One(n: nat) | Range(a: nat, b: nat)

  function PrintEntry(e: Entry): string {
    match e
    case One(n) => Decimal(n)
    case Range(a, b) => Decimal(a) + ['-'] + Decimal(b)
  }

  function PrintEntries(entries: seq<Entry>): (r: seq<string>)
    ensures |r| == |entries|
    ensures forall k :: 0 <= k < |r| ==> r[k] == PrintEntry(entries[k])
  {
    seq(|entries|, k requires 0 <= k < |entries| => PrintEntry(entries[k]))
  }

  function PrintList(entries: seq<Entry>): string {
    if entries == [] then "" else Join(PrintEntries(entries), ',')
  }

  predicate Covers(e: Entry, j: nat) {
    match e
    case One(n) => j == n
    case Range(a, b) => a <= j <= b
  }

  predicate Small(e: Entry) {
    match e
    case One(n) => n < INT_MAX
    case Range(a, b) => a < INT_MAX && b < INT_MAX
  }

  lemma EntryRoundTrip(e: Entry)
    ensures ',' !in PrintEntry(e) && PrintEntry(e) != ""
    ensures forall j: nat :: j in EntryCpus(PrintEntry(e)) <==> j < 32 && Covers(e, j)
    ensures Small(e) ==> FitsInt(PrintEntry(e))
  {
    match e
    case One(n) =>
      DecimalRoundTrip(n);
    case Range(a, b) =>
      DecimalRoundTrip(a);
      DecimalRoundTrip(b);
      CutAt(Decimal(a), '-', Decimal(b));
      assert forall j: nat :: j in Span(a, b) <==> j < 32 && Between(a, j, b);
  }

  predicate SomeCovers(entries: seq<Entry>, j: nat) {
    exists e :: e in entries && Covers(e, j)
  }

  /** A printed list parses to exactly the CPUs below 32 that some entry covers, and no C int
      overflows on the way when the numbers are below INT_MAX. */
  lemma ListRoundTrip(entries: seq<Entry>)
    ensures forall j: nat :: j in AllCpus(Split(PrintList(entries), ',')) <==> j < 32 && SomeCovers(entries, j)
    ensures (forall e :: e in entries ==> Small(e)) ==> AllFitInt(Split(PrintList(entries), ','))
  {
    if entries == [] {
      LastEntry("");
    } else {
      var texts := PrintEntries(entries);
      forall k | 0 <= k < |texts|
        ensures ',' !in texts[k] && (Small(entries[k]) ==> FitsInt(texts[k]))
      {
        EntryRoundTrip(entries[k]);
      }
      JoinSplit(texts, ',');
      EntriesRoundTrip(entries);
    }
  }

  lemma {:induction false} EntriesRoundTrip(entries: seq<Entry>)
    ensures forall j: nat :: j in AllCpus(PrintEntries(entries)) <==> j < 32 && SomeCovers(entries, j)
  {
    if entries != [] {
      EntriesRoundTrip(entries[1..]);
      EntryRoundTrip(entries[0]);
      assert PrintEntries(entries)[1..] == PrintEntries(entries[1..]);
      forall j: nat
        ensures SomeCovers(entries, j) <==> Covers(entries[0], j) || SomeCovers(entries[1..], j)
      {
        assert forall e :: e in entries <==> e == entries[0] || e in entries[1..];
      }
    }
  }

  /** A file whose first line is a printed list that fits the buffer contributes those CPUs. */
  lemma PrintedFile(entries: seq<Entry>, rest: string, capacity: nat)
    requires |PrintList(entries)| < capacity
    ensures forall j: nat :: j in FileCpus(PrintList(entries) + ['\n'] + rest, capacity) <==>
                             j < 32 && SomeCovers(entries, j)
  {
    forall k | 0 <= k < |entries|
      ensures '\n' !in PrintEntries(entries)[k]
    {
      OneLine(entries[k]);
    }
    if entries != [] {
      JoinLacks(PrintEntries(entries), ',', '\n');
    }
    CutAt(PrintList(entries), '\n', rest);
    ListRoundTrip(entries);
  }

  lemma OneLine(e: Entry)
    ensures '\n' !in PrintEntry(e)
  {
  }

  lemma {:induction false} JoinLacks(pieces: seq<string>, c: char, d: char)
    requires |pieces| >= 1 && c != d && forall k :: 0 <= k < |pieces| ==> d !in pieces[k]
    ensures d !in Join(pieces, c)
  {
    if |pieces| > 1 {
      JoinLacks(pieces[1..], c, d);
    }
  }

  // ----- Malformed entries and files

  /** A range stands for both its ends and everything between them. */
  lemma ZeroToThree()
    ensures EntryCpus("0-3") == {0, 1, 2, 3}
  {
    hide ParseNumber;
    var a, b := "0", "3";
    OneDigit();
    assert a + ['-'] + b == "0-3";
    CutAt(a, '-', b);
  }

  lemma OneDigit()
    ensures ParseNumber("0") == 0 && ParseNumber("3") == 3
  {
    assert "0"[..0] == "" && "3"[..0] == "";
  }

  /** A range without one of its ends, or with a second dash, stands for nothing. */
  lemma MalformedRange(a: string, b: string)
    requires '-' !in a && (a == "" || b == "" || '-' in b)
    ensures EntryCpus(a + ['-'] + b) == {}
  {
    hide ParseNumber;
    CutAt(a, '-', b);
    ParseFailsIff(a);
    ParseFailsIff(b);
    assert "0x" <= b ==> b[0] == '0' && b[1] == 'x';
  }

  /** So does a number with a character that is not a digit, and a number from 32 on. */
  lemma MalformedNumber(text: string)
    requires '-' !in text
    requires (!("0x" <= text) && exists k :: 0 <= k < |text| && text[k] !in "0123456789") || ParseNumber(text) >= 32
    ensures EntryCpus(text) == {}
  {
    hide ParseNumber;
    ParseFailsIff(text);
  }

  /** A file whose first line no newline ends, or does not fit the buffer, contributes nothing. */
  lemma NoFirstLine(file: File, capacity: nat, cpus: set<nat>)
    requires file.greedy && Contributes(file, capacity, cpus)
    requires '\n' !in file.content || |Before(file.content, '\n')| >= capacity
    ensures cpus == {}
  {
  }
}
