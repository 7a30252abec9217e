/** MIPS feature detection (src/impl_mips_linux_or_android.c): /proc/cpuinfo lines and hardware
    capabilities are merged into one array of flags.
  */
module Mips {
  import opened Bits
  import opened LineReader
  import opened ReaderRuns
  import opened StringView
  import opened Text

  const LAST := 8

  const FLAGS: seq<string> := ["msa", "eva", "r6", "mips16", "mdmx", "mips3d", "smartmips", "dsp"]

  const MASKS: seq<HardwareCapabilities> := [
    HardwareCapabilities(1 << 1, 0), HardwareCapabilities(0, 0), HardwareCapabilities(1 << 0, 0),
    HardwareCapabilities(1 << 3, 0), HardwareCapabilities(1 << 4, 0), HardwareCapabilities(1 << 5, 0),
    HardwareCapabilities(1 << 6, 0), HardwareCapabilities(1 << 7, 0)]

  predicate ListsAses(line: string) {
    KeyValue(line).Attribute? && KeyValue(line).key == "ASEs implemented"
  }

  /** Flag i is one of the words of the line's value. */
  predicate Names(line: string, i: nat)
    requires i < LAST && ListsAses(line)
  {
    FLAGS[i] in Split(KeyValue(line).value, ' ')
  }

  /** The features after a line: a line that lists ASEs decides all of them. */
  function AfterLine(line: string, features: seq<bool>): (r: seq<bool>)
    requires |features| == LAST
    ensures |r| == LAST
  {
    if ListsAses(line) then seq(LAST, i requires 0 <= i < LAST => Names(line, i)) else features
  }

  function AfterLines(lines: seq<string>, features: seq<bool>): (r: seq<bool>)
    requires |features| == LAST
    ensures |r| == LAST
  {
    if lines == [] then features
    else AfterLine(lines[|lines| - 1], AfterLines(lines[..|lines| - 1], features))
  }

  predicate IsLastAses(lines: seq<string>, k: nat) {
    && k < |lines| && ListsAses(lines[k])
    && forall j :: k < j < |lines| ==> !ListsAses(lines[j])
  }

  /** Flag i is a word of the last line that lists ASEs. */
  ghost predicate Reported(lines: seq<string>, i: nat)
    requires i < LAST
  {
    exists k: nat :: IsLastAses(lines, k) && Names(lines[k], i)
  }

  /** Later lines override earlier ones: what is left is what the last ASE line says. */
  lemma {:induction false} LastLineDecides(lines: seq<string>, features: seq<bool>, i: nat)
    requires |features| == LAST && i < LAST && !features[i]
    ensures AfterLines(lines, features)[i] <==> Reported(lines, i)
  {
    if lines != [] {
      var n := |lines| - 1;
      LastLineDecides(lines[..n], features, i);
      if ListsAses(lines[n]) {
        OverridingLine(lines, i);
      } else {
        SilentLine(lines[..n], lines[n], i);
        assert lines[..n] + [lines[n]] == lines;
      }
    }
  }

  lemma OverridingLine(lines: seq<string>, i: nat)
    requires i < LAST && lines != [] && ListsAses(lines[|lines| - 1])
    ensures Reported(lines, i) <==> Names(lines[|lines| - 1], i)
  {
    var n := |lines| - 1;
    assert IsLastAses(lines, n);
    forall k: nat | IsLastAses(lines, k)
      ensures k == n
    {
    }
  }

  lemma SilentLine(lines: seq<string>, line: string, i: nat)
    requires i < LAST && !ListsAses(line)
    ensures Reported(lines + [line], i) <==> Reported(lines, i)
  {
    var all := lines + [line];
    forall k: nat
      ensures IsLastAses(all, k) ==> IsLastAses(lines, k) && all[k] == lines[k]
      ensures IsLastAses(lines, k) ==> IsLastAses(all, k) && all[k] == lines[k]
    {
      SilentKeepsLast(lines, line, k);
    }
  }

  lemma SilentKeepsLast(lines: seq<string>, line: string, k: nat)
    requires !ListsAses(line)
    ensures IsLastAses(lines + [line], k) <==> IsLastAses(lines, k)
  {
    var all := lines + [line];
    assert forall j :: 0 <= j < |lines| ==> all[j] == lines[j];
    assert all[|lines|] == line;
  }

  lemma NoAttributeInEmpty()
    ensures !ListsAses("")
  {
  }

  /** The flags are words: HasWord decides them exactly. */
  lemma FlagIsWord(i: nat)
    requires i < LAST
    ensures NulFree(FLAGS[i]) && FLAGS[i] != "" && ' ' !in FLAGS[i]
  {
  }

  method SetFlags(value: string, features: array<bool>)
    requires features.Length == LAST && NulFree(value)
    modifies features
    ensures forall j :: 0 <= j < LAST ==> features[j] == (FLAGS[j] in Split(value, ' '))
  {
    for i := 0 to LAST
      invariant forall j :: 0 <= j < i ==> features[j] == (FLAGS[j] in Split(value, ' '))
    {
      hide Split;
      FlagIsWord(i);
      features[i] := HasWord(value, FLAGS[i], ' ');
    }
  }

  method HandleMipsLine(result: LineResult, features: array<bool>) returns (goOn: bool)
    requires features.Length == LAST && NulFree(result.line)
    modifies features
    ensures features[..] == AfterLine(result.line, old(features[..]))
    ensures goOn == !result.eof
  {
    var attribute := GetAttributeKeyValue(result.line);
    if attribute.Attribute? {
      if attribute.key == "ASEs implemented" {
        ValueNulFree(result.line);
        SetFlags(attribute.value, features);
        assert ListsAses(result.line);
      }
    }
    return !result.eof;
  }

  lemma OneMoreLine(results: seq<LineResult>, r: LineResult, features: seq<bool>)
    requires |features| == LAST
    ensures AfterLines(Lines(results + [r]), features) == AfterLine(r.line, AfterLines(Lines(results), features))
  {
    var lines := Lines(results + [r]);
    assert lines[..|lines| - 1] == Lines(results);
  }

  method HandleNextLine(reader: StackLineReader, features: array<bool>)
    returns (goOn: bool, ghost result: LineResult)
    requires reader.Valid() && features.Length == LAST
    modifies reader`ptr, reader`size, reader`skipMode, reader.buffer, reader.file`pos, features
    ensures reader.Valid() && goOn == !result.eof
    ensures Step(reader.buffer.Length, reader.file.greedy, old(reader.State()), result, reader.State())
    ensures features[..] == AfterLine(result.line, old(features[..]))
  {
    var r := reader.NextLine();
    result := r;
    goOn := HandleMipsLine(r, features);
  }

  /** Feeds every line up to the end of the file to the handler. */
  method HandleAllLines(reader: StackLineReader, features: array<bool>)
    returns (ghost states: seq<Cursor>, ghost results: seq<LineResult>)
    requires reader.Valid() && features.Length == LAST
    modifies reader`ptr, reader`size, reader`skipMode, reader.buffer, reader.file`pos, features
    ensures CompleteRun(reader.buffer.Length, reader.file.greedy, old(reader.State()), states, results)
    ensures features[..] == AfterLines(Lines(results), old(features[..]))
  {
    states, results := [reader.State()], [];
    var goOn := true;
    while goOn
      invariant reader.Valid()
      invariant Driving(reader.buffer.Length, reader.file.greedy, old(reader.State()), states, results, goOn)
      invariant states[|results|] == reader.State()
      invariant features[..] == AfterLines(Lines(results), old(features[..]))
      decreases goOn, |states[|results|].Pending()|
    {
      ghost var result;
      goOn, result := HandleNextLine(reader, features);
      DriveOn(reader.buffer.Length, reader.file.greedy, states[0], states, results, result, reader.State());
      OneMoreLine(results, result, old(features[..]));
      states, results := states + [reader.State()], results + [result];
    }
  }

  /** An unopenable file is null and leaves the features alone. */
  method FillProcCpuInfoData(file: File?, capacity: nat, features: array<bool>)
    returns (ghost states: seq<Cursor>, ghost results: seq<LineResult>)
    requires file != null ==> file.Valid() && file.pos == 0
    requires capacity > 0 && features.Length == LAST
    modifies file, features
    ensures file == null ==> features[..] == old(features[..])
    ensures file != null ==>
              && CompleteRun(capacity, file.greedy, AtStart(file.content), states, results)
              && features[..] == AfterLines(Lines(results), old(features[..]))
  {
    states, results := [], [];
    if file != null {
      var reader := new StackLineReader(file, capacity);
      states, results := HandleAllLines(reader, features);
    }
  }

  /** A feature is reported exactly when its flag is a word of the value of the last line, as the
      buffer shows it, whose key is "ASEs implemented", or when the kernel's capabilities hold its
      non-zero mask. */
  method GetMipsInfo(file: File?, capacity: nat, hwcaps: HardwareCapabilities) returns (features: array<bool>)
    requires file != null ==> file.Valid() && file.pos == 0
    requires capacity > 0
    modifies file
    ensures fresh(features) && features.Length == LAST
    ensures file == null ==> forall i :: 0 <= i < LAST ==>
              (features[i] <==> || (MASKS[i].hwcaps != 0 && Contained(MASKS[i].hwcaps, hwcaps.hwcaps))
                                || (MASKS[i].hwcaps2 != 0 && Contained(MASKS[i].hwcaps2, hwcaps.hwcaps2)))
    ensures file != null && file.greedy ==> forall i :: 0 <= i < LAST ==>
              (features[i] <==> Reported(CutLines(file.content, capacity), i) || IsHwCapsSet(MASKS[i], hwcaps))
    ensures file != null ==> exists states, results ::
              && CompleteRun(capacity, file.greedy, AtStart(file.content), states, results)
              && forall i :: 0 <= i < LAST ==>
                   (features[i] <==> Reported(Lines(results), i) || IsHwCapsSet(MASKS[i], hwcaps))
  {
    features := new bool[LAST](_ => false);
    assert features[..] == seq(LAST, _ => false);
    ghost var states, results := FillProcCpuInfoData(file, capacity, features);
    ghost var parsed := features[..];
    if file != null {
      forall i | 0 <= i < LAST
        ensures parsed[i] <==> Reported(Lines(results), i)
        ensures file.greedy ==> (parsed[i] <==> Reported(CutLines(file.content, capacity), i))
      {
        FileDecides(capacity, file.greedy, file.content, states, results, i);
      }
    }
    for i := 0 to LAST
      invariant forall j :: 0 <= j < LAST ==>
                  features[j] == (parsed[j] || (j < i && IsHwCapsSet(MASKS[j], hwcaps)))
    {
      if IsHwCapsSet(MASKS[i], hwcaps) {
        features[i] := true;
      }
    }
    forall i | 0 <= i < LAST
      ensures IsHwCapsSet(MASKS[i], hwcaps) <==>
              || (MASKS[i].hwcaps != 0 && Contained(MASKS[i].hwcaps, hwcaps.hwcaps))
              || (MASKS[i].hwcaps2 != 0 && Contained(MASKS[i].hwcaps2, hwcaps.hwcaps2))
    {
      IsHwCapsSetIff(MASKS[i], hwcaps);
    }
  }

  lemma FileDecides(limit: nat, greedy: bool, content: string, states: seq<Cursor>, results: seq<LineResult>, i: nat)
    requires CompleteRun(limit, greedy, AtStart(content), states, results) && i < LAST
    ensures var parsed := AfterLines(Lines(results), seq(LAST, _ => false));
            && (parsed[i] <==> Reported(Lines(results), i))
            && (greedy ==> (parsed[i] <==> Reported(CutLines(content, limit), i)))
  {
    var none := seq(LAST, _ => false);
    LastLineDecides(Lines(results), none, i);
    if greedy {
      var lines := CutLines(content, limit);
      RefinesSplit(limit, content, states, results);
      NoAttributeInEmpty();
      assert (lines + [""])[..|lines|] == lines;
      LastLineDecides(lines, none, i);
    }
  }

  // ----- Names and bits in full

  /** Which bit of the first capability word each feature has; eva has none, and the second word
      decides nothing. */
  lemma CapabilityBits(hwcaps: HardwareCapabilities)
    ensures IsHwCapsSet(MASKS[0], hwcaps) <==> hwcaps.hwcaps & 0x02 != 0
    ensures !IsHwCapsSet(MASKS[1], hwcaps)
    ensures IsHwCapsSet(MASKS[2], hwcaps) <==> hwcaps.hwcaps & 0x01 != 0
    ensures IsHwCapsSet(MASKS[3], hwcaps) <==> hwcaps.hwcaps & 0x08 != 0
    ensures IsHwCapsSet(MASKS[4], hwcaps) <==> hwcaps.hwcaps & 0x10 != 0
    ensures IsHwCapsSet(MASKS[5], hwcaps) <==> hwcaps.hwcaps & 0x20 != 0
    ensures IsHwCapsSet(MASKS[6], hwcaps) <==> hwcaps.hwcaps & 0x40 != 0
    ensures IsHwCapsSet(MASKS[7], hwcaps) <==> hwcaps.hwcaps & 0x80 != 0
  {
  }

  /** A line that lists any words as the kernel writes it: which word stands for which feature. */
  lemma AsesLine(words: seq<string>, features: seq<bool>)
    requires |features| == LAST && |words| >= 1 && forall k :: 0 <= k < |words| ==> ' ' !in words[k]
    requires Trimmed(Join(words, ' '))
    ensures AfterLine("ASEs implemented\t: " + Join(words, ' '), features) ==
            ["msa" in words, "eva" in words, "r6" in words, "mips16" in words,
             "mdmx" in words, "mips3d" in words, "smartmips" in words, "dsp" in words]
  {
    hide KeyValue, Trimmed, Join, Split, AfterLine;
    var key, value := "ASEs implemented", Join(words, ' ');
    PlainText(key);
    TabbedLine(key, value);
    Prefixed(key, value);
    JoinSplit(words, ' ');
    WordsDecide("ASEs implemented\t: " + value, value, features);
  }

  lemma Prefixed(key: string, value: string)
    requires key == "ASEs implemented"
    ensures key + "\t: " + value == "ASEs implemented\t: " + value
  {
  }

  lemma WordsDecide(line: string, value: string, features: seq<bool>)
    requires |features| == LAST && KeyValue(line) == Attribute("ASEs implemented", value)
    ensures var words := Split(value, ' ');
            AfterLine(line, features) ==
            ["msa" in words, "eva" in words, "r6" in words, "mips16" in words,
             "mdmx" in words, "mips3d" in words, "smartmips" in words, "dsp" in words]
  {
    hide KeyValue, Split;
    assert ListsAses(line);
  }

  lemma PlainText(key: string)
    ensures key == "ASEs implemented" ==> ':' !in key && Trimmed(key) && NulFree(key)
  {
  }

  /** A line with any other key, or none, changes nothing. */
  lemma OtherLine(line: string, features: seq<bool>)
    requires |features| == LAST
    requires KeyValue(line).Attribute? ==> KeyValue(line).key != "ASEs implemented"
    ensures AfterLine(line, features) == features
  {
  }
}
