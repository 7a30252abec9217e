/** JSON text: what printJson of src/utils/list_cpu_features.c emits for a tree, and a reader for
    it that follows the grammar of RFC 8259 (sections 4 to 7).
  */
module Json {
  import opened Numerals

  /** Arrays and maps are chains of elements; the keys of array elements are empty. */
  datatype Tree = Int(n: int) | Str(s: string) | Arr(items: Chain) | Map(entries: Chain)

  datatype Chain = End | Link(key: string, value: Tree, next: Chain)

  // ----- Printing

  predicate NeedsEscape(c: char) {
    c == '"' || c == '\\' || c == '/' || IsShortControl(c)
  }

  /** Backspace, form feed, newline, carriage return and tab. */
  predicate IsShortControl(c: char) {
    '\U{8}' <= c <= '\U{A}' || '\U{C}' <= c <= '\U{D}'
  }

  function Escape(s: string): string {
    if s == "" then "" else (if NeedsEscape(s[0]) then ['\\', s[0]] else [s[0]]) + Escape(s[1..])
  }

  /** Which characters the printer puts a backslash in front of. */
  lemma EscapeOfOne(c: char)
    ensures Escape([c]) ==
            if c in ['"', '\\', '/', '\U{8}', '\U{C}', '\n', '\r', '\t'] then ['\\', c] else [c]
  {
    assert '\t' == '\U{9}' && '\n' == '\U{A}' && '\r' == '\U{D}';
    assert [c][1..] == "";
  }

  lemma {:induction false} EscapeOfSum(a: string, b: string)
    ensures Escape(a + b) == Escape(a) + Escape(b)
  {
    if a == "" {
      assert a + b == b;
    } else {
      assert (a + b)[1..] == a[1..] + b;
      EscapeOfSum(a[1..], b);
    }
  }

  function Signed(n: int): string {
    if n < 0 then ['-'] + Decimal(-n) else Decimal(n)
  }

  function Print(t: Tree): string
    decreases t
  {
    match t
    case Int(n) => Signed(n)
    case Str(s) => ['"'] + Escape(s) + ['"']
    case Arr(items) => ['['] + PrintChain(false, items) + [']']
    case Map(entries) => ['{'] + PrintChain(true, entries) + ['}']
  }

  function PrintChain(isMap: bool, c: Chain): string
    decreases c
  {
    match c
    case End => ""
    case Link(key, value, next) =>
      (if isMap then ['"'] + key + ['"', ':'] else "") + Print(value) +
      (if next.End? then "" else [','] + PrintChain(isMap, next))
  }

  /** The punctuation of the printed text. */
  lemma Punctuation(s: string, x: Tree, y: Tree, key: string, n: int)
    requires n >= 0
    ensures Print(Arr(End)) == "[]" && Print(Map(End)) == "{}"
    ensures Print(Str(s)) == ['"'] + Escape(s) + ['"']
    ensures Print(Arr(Link("", x, Link("", y, End)))) == ['['] + (Print(x) + ([','] + Print(y))) + [']']
    ensures Print(Map(Link(key, x, End))) == ['{'] + (['"'] + key + ['"', ':'] + Print(x)) + ['}']
    ensures Print(Int(n)) == Decimal(n) && Print(Int(-n - 1)) == ['-'] + Decimal(n + 1)
  {
    TwoElements(x, y);
    OneEntry(key, x);
  }

  lemma LastElement(y: Tree)
    ensures PrintChain(false, Link("", y, End)) == Print(y)
  {
    hide Print;
    assert "" + Print(y) + "" == Print(y);
  }

  lemma MoreElements(x: Tree, next: Chain)
    requires next.Link?
    ensures PrintChain(false, Link("", x, next)) == Print(x) + ([','] + PrintChain(false, next))
  {
    hide Print;
    assert "" + Print(x) == Print(x);
  }

  lemma TwoElements(x: Tree, y: Tree)
    ensures Print(Arr(Link("", x, Link("", y, End)))) == ['['] + (Print(x) + ([','] + Print(y))) + [']']
  {
    hide PrintChain;
    LastElement(y);
    MoreElements(x, Link("", y, End));
  }

  lemma OneEntry(key: string, x: Tree)
    ensures Print(Map(Link(key, x, End))) == ['{'] + (['"'] + key + ['"', ':'] + Print(x)) + ['}']
  {
    hide PrintChain;
    LastEntry(key, x);
  }

  lemma LastEntry(key: string, x: Tree)
    ensures PrintChain(true, Link(key, x, End)) == ['"'] + key + ['"', ':'] + Print(x)
  {
    hide Print;
    var text := ['"'] + key + ['"', ':'] + Print(x);
    assert text + "" == text;
  }

  // ----- Reading

  datatype Parsed<T> = Bad | Good(value: T, rest: string)

  /** Unescaped characters exclude the quote, the backslash and U+0000 to U+001F. */
  predicate IsControl(c: char) {
    c < ' '
  }

  function Unescape(c: char): Parsed<char> {
    if c == '"' || c == '\\' || c == '/' then Good(c, "")
    else if c == 'b' then Good('\U{8}', "")
    else if c == 'f' then Good('\U{C}', "")
    else if c == 'n' then Good('\n', "")
    else if c == 'r' then Good('\r', "")
    else if c == 't' then Good('\t', "")
    else Bad
  }

  /** A character and how many of the text's characters stand for it. Surrogates are refused. */
  function ReadChar(s: string): (r: Parsed<char>)
    requires s != "" && s[0] != '"'
    ensures r.Good? ==> |r.rest| < |s| && r.rest == s[|s| - |r.rest|..]
    ensures s[0] == '\\' && r.Good? ==> |s| - |r.rest| == 2 || |s| - |r.rest| == 6
  {
    if s[0] == '\\' then
      if |s| >= 2 && Unescape(s[1]).Good? then Good(Unescape(s[1]).value, s[2..])
      else if |s| >= 6 && s[1] == 'u' && AllDigits(s[2..6], 16) then
        var v := Value(s[2..6], 16);
        if v < 0xD800 || 0xDFFF < v < 0x10000 then Good(v as char, s[6..]) else Bad
      else Bad
    else if IsControl(s[0]) then Bad
    else Good(s[0], s[1..])
  }

  /** The escapes of section 7: eight short ones, and four hexadecimal digits. */
  lemma EscapesAre(rest: string)
    ensures ReadChar(['\\', '"'] + rest) == Good('"', rest) && ReadChar(['\\', '\\'] + rest) == Good('\\', rest)
    ensures ReadChar(['\\', '/'] + rest) == Good('/', rest) && ReadChar(['\\', 'b'] + rest) == Good('\U{8}', rest)
    ensures ReadChar(['\\', 'f'] + rest) == Good('\U{C}', rest) && ReadChar(['\\', 'n'] + rest) == Good('\U{A}', rest)
    ensures ReadChar(['\\', 'r'] + rest) == Good('\U{D}', rest) && ReadChar(['\\', 't'] + rest) == Good('\U{9}', rest)
    ensures forall c :: c < '\U{20}' ==> ReadChar([c] + rest) == Bad
    ensures forall c :: c !in ['"', '\\', '/', 'b', 'f', 'n', 'r', 't', 'u'] ==> ReadChar(['\\', c] + rest) == Bad
  {
    assert '\n' == '\U{A}' && '\r' == '\U{D}' && '\t' == '\U{9}' && ' ' == '\U{20}';
    assert forall c :: (['\\', c] + rest)[2..] == rest;
  }

  /** The characters up to the closing quote. */
  function ReadChars(s: string): (r: Parsed<string>)
    ensures r.Good? ==> |r.rest| < |s|
    decreases |s|
  {
    if s == "" then Bad
    else if s[0] == '"' then Good("", s[1..])
    else
      var c := ReadChar(s);
      if c.Bad? then Bad
      else
        var more := ReadChars(c.rest);
        if more.Bad? then Bad else Good([c.value] + more.value, more.rest)
  }

  function DigitRun(s: string): (n: nat)
    ensures n <= |s| && forall k :: 0 <= k < n ==> '0' <= s[k] <= '9'
    ensures n < |s| ==> !('0' <= s[n] <= '9')
  {
    if s != "" && '0' <= s[0] <= '9' then 1 + DigitRun(s[1..]) else 0
  }

  /** An integer without superfluous zeros; fractions and exponents are not read. */
  function ReadDigits(s: string): (r: Parsed<int>)
    ensures r.Good? ==> |r.rest| < |s|
  {
    var n := DigitRun(s);
    if n == 0 || (n > 1 && s[0] == '0') || (n < |s| && s[n] in ".eE") then Bad
    else
      assert AllDigits(s[..n], 10);
      Good(Value(s[..n], 10), s[n..])
  }

  function ReadInt(s: string): (r: Parsed<int>)
    ensures r.Good? ==> |r.rest| < |s|
  {
    if s != "" && s[0] == '-' then
      var digits := ReadDigits(s[1..]);
      if digits.Bad? then Bad else Good(-digits.value, digits.rest)
    else
      var digits := ReadDigits(s);
      if digits.Bad? then Bad else Good(digits.value, digits.rest)
  }

  function Closer(isMap: bool): char {
    if isMap then '}' else ']'
  }

  function ReadValue(s: string): (r: Parsed<Tree>)
    ensures r.Good? ==> |r.rest| < |s|
    decreases |s|, 0
  {
    if s == "" then Bad
    else if s[0] == '"' then
      var chars := ReadChars(s[1..]);
      if chars.Bad? then Bad else Good(Str(chars.value), chars.rest)
    else if s[0] == '[' || s[0] == '{' then
      var isMap := s[0] == '{';
      var chain := if |s| > 1 && s[1] == Closer(isMap) then Good(End, s[2..]) else ReadChain(isMap, s[1..]);
      if chain.Bad? then Bad else Good(if isMap then Map(chain.value) else Arr(chain.value), chain.rest)
    else
      var number := ReadInt(s);
      if number.Bad? then Bad else Good(Int(number.value), number.rest)
  }

  /** The key and the colon before a member's value; nothing before an array element. */
  function ReadKey(isMap: bool, s: string): (r: Parsed<string>)
    ensures r.Good? ==> |r.rest| <= |s|
  {
    if !isMap then Good("", s)
    else if s == "" || s[0] != '"' then Bad
    else
      var key := ReadChars(s[1..]);
      if key.Bad? || key.rest == "" || key.rest[0] != ':' then Bad else Good(key.value, key.rest[1..])
  }

  /** At least one element, then more behind commas, then the closing bracket. */
  function ReadChain(isMap: bool, s: string): (r: Parsed<Chain>)
    ensures r.Good? ==> |r.rest| < |s|
    decreases |s|, 1
  {
    var key := ReadKey(isMap, s);
    if key.Bad? then Bad
    else
      var value := ReadValue(key.rest);
      if value.Bad? || value.rest == "" then Bad
      else if value.rest[0] == Closer(isMap) then Good(Link(key.value, value.value, End), value.rest[1..])
      else if value.rest[0] == ',' then
        var next := ReadChain(isMap, value.rest[1..]);
        if next.Bad? then Bad else Good(Link(key.value, value.value, next.value), next.rest)
      else Bad
  }

  /** A text is the value it consists of. */
  function ReadText(s: string): Parsed<Tree> {
    var r := ReadValue(s);
    if r.Good? && r.rest == "" then r else Bad
  }

  // ----- Strings

  predicate NoControls(s: string) {
    forall k :: 0 <= k < |s| ==> !IsControl(s[k])
  }

  /** Reading a text that starts with one plain or escaped character. */
  lemma ReadFirst(first: string, c: char, more: string)
    requires (first == [c] && c != '"' && c != '\\') || first == ['\\', c]
    requires first == [c] ==> !IsControl(c)
    requires first != [c] ==> Unescape(c).Good?
    ensures var v := if first == [c] then c else Unescape(c).value;
            ReadChars(first + more) == if ReadChars(more).Bad? then Bad
                                       else Good([v] + ReadChars(more).value, ReadChars(more).rest)
  {
  }

  lemma ReadFirstControl(first: string, c: char, more: string)
    requires IsControl(c) && (first == [c] || first == ['\\', c])
    ensures ReadChars(first + more) == Bad
  {
  }

  /** An escaped string reads back exactly if it holds no control character; otherwise the text is
      not JSON, since the printer puts a backslash before the raw character. */
  lemma {:induction false} StringRoundTrip(s: string, rest: string)
    ensures ReadChars(Escape(s) + ['"'] + rest) == if NoControls(s) then Good(s, rest) else Bad
  {
    var text := Escape(s) + ['"'] + rest;
    if s == "" {
      assert text == ['"'] + rest;
      assert text[1..] == rest;
    } else {
      var c, more := s[0], Escape(s[1..]) + ['"'] + rest;
      var first := if NeedsEscape(c) then ['\\', c] else [c];
      assert text == first + more;
      assert s == [c] + s[1..];
      StringRoundTrip(s[1..], rest);
      hide ReadChars;
      if IsControl(c) {
        ReadFirstControl(first, c, more);
      } else {
        ReadFirst(first, c, more);
      }
    }
  }

  /** Keys are printed as they are. */
  predicate PlainKey(key: string) {
    forall k :: 0 <= k < |key| ==> PlainChar(key[k])
  }

  predicate PlainChar(c: char) {
    c != '"' && c != '\\' && !IsControl(c)
  }

  lemma {:induction false} KeyRoundTrip(key: string, rest: string)
    requires PlainKey(key)
    ensures ReadChars(key + ['"'] + rest) == Good(key, rest)
  {
    var text := key + ['"'] + rest;
    if key == "" {
      assert text == ['"'] + rest;
      assert text[1..] == rest;
    } else {
      var more := key[1..] + ['"'] + rest;
      assert text == [key[0]] + more && key == [key[0]] + key[1..];
      KeyRoundTrip(key[1..], rest);
      ReadFirst([key[0]], key[0], more);
    }
  }

  /** A key that reads back as itself, wherever the reader stops, is a plain key. */
  lemma {:induction false} OnlyPlainKeys(key: string, rest: string, m: nat)
    requires m <= |key| && forall k :: 0 <= k < m ==> PlainChar(key[k])
    requires ReadChars((key + ['"'] + rest)[m..]).Good?
    requires ReadChars((key + ['"'] + rest)[m..]).value == key[m..]
    ensures PlainKey(key)
    decreases |key| - m
  {
    var s := key + ['"'] + rest;
    if m < |key| {
      hide ReadChars, ReadChar;
      assert s[m] == key[m];
      ReadOne(s, key, m, m);
      var n := m + |s[m..]| - |ReadChar(s[m..]).rest|;
      if key[m] == '\\' {
        NoEscapeInKey(key, rest, m);
      } else {
        OnlyPlainKeys(key, rest, n);
      }
    }
  }

  /** After an escape the reader can no longer give the key itself. */
  lemma NoEscapeInKey(key: string, rest: string, m: nat)
    requires m < |key| && key[m] == '\\' && forall k :: 0 <= k < m ==> key[k] != '"'
    requires ReadChars((key + ['"'] + rest)[m..]).Good?
    requires ReadChars((key + ['"'] + rest)[m..]).value == key[m..]
    ensures false
  {
    hide ReadChars, ReadChar;
    var s := key + ['"'] + rest;
    ReadOne(s, key, m, m);
    var n := m + |s[m..]| - |ReadChar(s[m..]).rest|;
    EscapeInsideKey(s, key, m, n);
    NoCatchingUp(key, rest, m + 1, n);
  }

  /** One character read at m: it is the next of the value, and the rest follows. */
  lemma ReadOne(s: string, key: string, p: nat, m: nat)
    requires p < |key| && m < |s| && ReadChars(s[m..]).Good? && ReadChars(s[m..]).value == key[p..]
    ensures s[m] != '"' && ReadChar(s[m..]).Good? && ReadChar(s[m..]).value == key[p]
    ensures s[m] == '\\' || (!IsControl(s[m]) && s[m] == key[p] && |ReadChar(s[m..]).rest| == |s| - m - 1)
    ensures var n := m + |s[m..]| - |ReadChar(s[m..]).rest|;
            m < n <= |s| && ReadChars(s[n..]).Good? && ReadChars(s[n..]).value == key[p + 1..]
  {
  }

  /** An escape that does not stand for a quote ends before the closing quote. */
  lemma EscapeInsideKey(s: string, key: string, m: nat, n: nat)
    requires m < |key| < |s| && s[..|key|] == key && s[|key|] == '"' && key[m] == '\\'
    requires ReadChar(s[m..]).Good? && ReadChar(s[m..]).value != '"' && n == m + |s[m..]| - |ReadChar(s[m..]).rest|
    ensures n <= |key| && forall k :: m < k < n ==> key[k] != '"'
  {
    var t := s[m..];
    assert t[0] == s[m] == '\\';
    EscapeWithoutQuote(t);
    assert t[|key| - m] == s[|key|];
    assert forall k :: m <= k < |key| ==> t[k - m] == key[k];
  }

  lemma EscapeWithoutQuote(t: string)
    requires t != "" && t[0] == '\\' && ReadChar(t).Good? && ReadChar(t).value != '"'
    ensures forall k :: 0 <= k < |t| - |ReadChar(t).rest| ==> t[k] != '"'
  {
  }

  /** Once the reader has taken more characters than it has given, it cannot give the key: it would
      have to read the closing quote as an escaped one, but no quote was given before. */
  lemma {:induction false} NoCatchingUp(key: string, rest: string, p: nat, m: nat)
    requires p < m <= |key| && forall k :: 0 <= k < m ==> key[k] != '"'
    requires ReadChars((key + ['"'] + rest)[m..]).Good?
    requires ReadChars((key + ['"'] + rest)[m..]).value == key[p..]
    ensures false
    decreases |key| - m
  {
    hide ReadChars, ReadChar;
    var s := key + ['"'] + rest;
    ReadOne(s, key, p, m);
    assert s[m] == if m < |key| then key[m] else '"';
    var n := m + |s[m..]| - |ReadChar(s[m..]).rest|;
    if key[m] == '\\' {
      EscapeInsideKey(s, key, m, n);
    }
    NoCatchingUp(key, rest, p + 1, n);
  }

  // ----- Numbers

  /** What may follow a value inside printed text. */
  predicate Closed(rest: string) {
    rest == "" || rest[0] == ',' || rest[0] == ']' || rest[0] == '}'
  }

  lemma {:induction false} DigitRunIs(digits: string, rest: string)
    requires forall k :: 0 <= k < |digits| ==> '0' <= digits[k] <= '9'
    requires rest == "" || !('0' <= rest[0] <= '9')
    ensures DigitRun(digits + rest) == |digits|
  {
    if digits == "" {
      assert digits + rest == rest;
    } else {
      assert (digits + rest)[1..] == digits[1..] + rest;
      DigitRunIs(digits[1..], rest);
    }
  }

  lemma DigitsRoundTrip(n: nat, rest: string)
    requires Closed(rest)
    ensures ReadDigits(Decimal(n) + rest) == Good(n, rest)
    ensures '0' <= Decimal(n)[0] <= '9'
  {
    var digits := Decimal(n);
    assert forall k :: 0 <= k < |digits| ==> HexValue(digits[k]) < 10;
    DigitRunIs(digits, rest);
    ValueOfNumeral(n, 10);
    assert (digits + rest)[..|digits|] == digits && (digits + rest)[|digits|..] == rest;
  }

  lemma IntRoundTrip(n: int, rest: string)
    requires Closed(rest)
    ensures ReadInt(Signed(n) + rest) == Good(n, rest)
    ensures Signed(n)[0] == '-' || '0' <= Signed(n)[0] <= '9'
  {
    hide ReadDigits, Decimal;
    if n < 0 {
      DigitsRoundTrip(-n, rest);
      assert (Signed(n) + rest)[1..] == Decimal(-n) + rest;
    } else {
      DigitsRoundTrip(n, rest);
    }
  }

  // ----- Trees

  /** Strings without control characters, keys also without quote and backslash. */
  predicate Clean(t: Tree)
    decreases t
  {
    match t
    case Int(n) => true
    case Str(s) => NoControls(s)
    case Arr(items) => CleanChain(false, items)
    case Map(entries) => CleanChain(true, entries)
  }

  predicate CleanChain(isMap: bool, c: Chain)
    decreases c
  {
    match c
    case End => true
    case Link(key, value, next) =>
      (if isMap then PlainKey(key) else key == "") && Clean(value) && CleanChain(isMap, next)
  }

  /** No value starts like the end of a chain. */
  lemma FirstCharacter(t: Tree)
    ensures Print(t) != ""
    ensures var c := Print(t)[0]; c == '"' || c == '[' || c == '{' || c == '-' || '0' <= c <= '9'
    ensures t.Int? <==> Print(t)[0] != '"' && Print(t)[0] != '[' && Print(t)[0] != '{'
    ensures t.Str? <==> Print(t)[0] == '"'
    ensures t.Arr? <==> Print(t)[0] == '['
  {
  }

  function KeyText(isMap: bool, key: string): string {
    if isMap then ['"'] + key + ['"', ':'] else ""
  }

  /** What follows the first value of a printed chain. */
  function AfterValue(isMap: bool, next: Chain, rest: string): (r: string)
    ensures Closed(r) && r != ""
  {
    (if next.End? then "" else [','] + PrintChain(isMap, next)) + [Closer(isMap)] + rest
  }

  lemma ChainText(isMap: bool, c: Chain, rest: string)
    requires c.Link?
    ensures PrintChain(isMap, c) + [Closer(isMap)] + rest ==
            KeyText(isMap, c.key) + (Print(c.value) + AfterValue(isMap, c.next, rest))
    ensures PrintChain(isMap, c) != "" && PrintChain(isMap, c)[0] != Closer(isMap)
  {
    FirstCharacter(c.value);
    var more := if c.next.End? then "" else [','] + PrintChain(isMap, c.next);
    Regroup(KeyText(isMap, c.key), Print(c.value), more, [Closer(isMap)], rest);
  }

  lemma Regroup(a: string, b: string, c: string, d: string, e: string)
    ensures a + b + c + d + e == a + (b + (c + d + e))
  {
  }

  lemma KeyReads(isMap: bool, key: string, rest: string)
    requires if isMap then PlainKey(key) else key == ""
    ensures ReadKey(isMap, KeyText(isMap, key) + rest) == Good(key, rest)
  {
    if isMap {
      var t := KeyText(isMap, key) + rest;
      assert t[1..] == key + ['"'] + ([':'] + rest);
      KeyRoundTrip(key, [':'] + rest);
    } else {
      assert "" + rest == rest;
    }
  }

  /** Reading a key is reading its characters behind the quote. */
  lemma KeyCharacters(key: string, rest: string)
    ensures var r, chars := ReadKey(true, KeyText(true, key) + rest), ReadChars(key + ['"'] + ([':'] + rest));
            r.Good? ==> chars.Good? && chars.value == r.value
  {
    hide ReadChars;
    assert (KeyText(true, key) + rest)[1..] == key + ['"'] + ([':'] + rest);
  }

  lemma PlainIfRead(key: string, rest: string)
    requires ReadChars(key + ['"'] + rest).Good? && ReadChars(key + ['"'] + rest).value == key
    ensures PlainKey(key)
  {
    hide ReadChars, PlainChar;
    var u := key + ['"'] + rest;
    assert u[0..] == u && key[0..] == key;
    OnlyPlainKeys(key, rest, 0);
  }

  /** A key that reads back as itself is clean. */
  lemma OnlyCleanKeys(isMap: bool, key: string, rest: string)
    requires ReadKey(isMap, KeyText(isMap, key) + rest).Good?
    requires ReadKey(isMap, KeyText(isMap, key) + rest).value == key
    ensures if isMap then PlainKey(key) else key == ""
  {
    if isMap {
      hide ReadKey, PlainKey;
      KeyCharacters(key, rest);
      PlainIfRead(key, [':'] + rest);
    }
  }

  lemma IntReads(n: int, rest: string)
    requires Closed(rest)
    ensures ReadValue(Print(Int(n)) + rest) == Good(Int(n), rest)
  {
    IntRoundTrip(n, rest);
  }

  lemma StringReads(s: string, rest: string)
    ensures ReadValue(Print(Str(s)) + rest) == if NoControls(s) then Good(Str(s), rest) else Bad
  {
    hide ReadChars, Escape;
    StringRoundTrip(s, rest);
    assert (Print(Str(s)) + rest)[1..] == Escape(s) + ['"'] + rest;
  }

  /** The bracketed forms read their chain. */
  lemma ReadBracketed(isMap: bool, c: Chain, rest: string)
    ensures var t := if isMap then Map(c) else Arr(c);
            var inner := PrintChain(isMap, c) + [Closer(isMap)] + rest;
            ReadValue(Print(t) + rest) ==
            if c.End? then Good(t, rest)
            else if ReadChain(isMap, inner).Bad? then Bad
            else Good(if isMap then Map(ReadChain(isMap, inner).value) else Arr(ReadChain(isMap, inner).value),
                      ReadChain(isMap, inner).rest)
  {
    var t := if isMap then Map(c) else Arr(c);
    var inner := PrintChain(isMap, c) + [Closer(isMap)] + rest;
    var s := Print(t) + rest;
    assert s[1..] == inner;
    if c.End? {
      assert s[2..] == rest;
    } else {
      ChainText(isMap, c, rest);
    }
  }

  /** One element of a chain: its key and value, then the end or more. */
  lemma ReadLink(isMap: bool, s: string, key: string, value: Tree, isEnd: bool, more: string)
    requires ReadKey(isMap, s).Good? && ReadKey(isMap, s).value == key
    requires ReadValue(ReadKey(isMap, s).rest) == Good(value, [if isEnd then Closer(isMap) else ','] + more)
    ensures ReadChain(isMap, s) ==
            if isEnd then Good(Link(key, value, End), more)
            else if ReadChain(isMap, more).Bad? then Bad
            else Good(Link(key, value, ReadChain(isMap, more).value), ReadChain(isMap, more).rest)
  {
  }

  lemma {:induction false} ValueRoundTrip(t: Tree, rest: string)
    requires Clean(t) && Closed(rest)
    ensures ReadValue(Print(t) + rest) == Good(t, rest)
    decreases t
  {
    hide ReadChain, ReadChars, ReadValue, Print, PrintChain;
    match t
    case Int(n) =>
      IntReads(n, rest);
    case Str(s) =>
      StringReads(s, rest);
    case Arr(items) =>
      ReadBracketed(false, items, rest);
      if items.Link? {
        ChainRoundTrip(false, items, rest);
      }
    case Map(entries) =>
      ReadBracketed(true, entries, rest);
      if entries.Link? {
        ChainRoundTrip(true, entries, rest);
      }
  }

  lemma {:induction false} ChainRoundTrip(isMap: bool, c: Chain, rest: string)
    requires CleanChain(isMap, c) && c.Link?
    ensures ReadChain(isMap, PrintChain(isMap, c) + [Closer(isMap)] + rest) == Good(c, rest)
    decreases c
  {
    hide ReadChain, ReadValue, ReadKey, Print, PrintChain;
    var after := AfterValue(isMap, c.next, rest);
    ChainText(isMap, c, rest);
    KeyReads(isMap, c.key, Print(c.value) + after);
    ValueRoundTrip(c.value, after);
    var s := KeyText(isMap, c.key) + (Print(c.value) + after);
    if c.next.End? {
      assert after == [Closer(isMap)] + rest;
      ReadLink(isMap, s, c.key, c.value, true, rest);
    } else {
      var more := PrintChain(isMap, c.next) + [Closer(isMap)] + rest;
      assert after == [','] + more;
      ReadLink(isMap, s, c.key, c.value, false, more);
      ChainRoundTrip(isMap, c.next, rest);
    }
  }

  /** A value that reads back as itself is clean. */
  lemma {:induction false} OnlyCleanValues(t: Tree, rest: string)
    requires Closed(rest) && ReadValue(Print(t) + rest).Good? && ReadValue(Print(t) + rest).value == t
    ensures Clean(t)
    decreases t
  {
    hide ReadChain, ReadChars, ReadValue, Print, PrintChain;
    match t
    case Int(n) =>
    case Str(s) =>
      StringReads(s, rest);
    case Arr(items) =>
      ReadBracketed(false, items, rest);
      if items.Link? {
        OnlyCleanChains(false, items, rest);
      }
    case Map(entries) =>
      ReadBracketed(true, entries, rest);
      if entries.Link? {
        OnlyCleanChains(true, entries, rest);
      }
  }

  lemma {:induction false} OnlyCleanChains(isMap: bool, c: Chain, rest: string)
    requires c.Link?
    requires ReadChain(isMap, PrintChain(isMap, c) + [Closer(isMap)] + rest).Good?
    requires ReadChain(isMap, PrintChain(isMap, c) + [Closer(isMap)] + rest).value == c
    ensures CleanChain(isMap, c)
    decreases c
  {
    hide ReadChain, ReadValue, ReadKey, Print, PrintChain;
    var after := AfterValue(isMap, c.next, rest);
    ChainText(isMap, c, rest);
    var s := KeyText(isMap, c.key) + (Print(c.value) + after);
    LinkParts(isMap, s);
    OnlyCleanKeys(isMap, c.key, Print(c.value) + after);
    KeyReads(isMap, c.key, Print(c.value) + after);
    OnlyCleanValues(c.value, after);
    if c.next.Link? {
      ValueRoundTrip(c.value, after);
      var more := PrintChain(isMap, c.next) + [Closer(isMap)] + rest;
      assert after == [','] + more;
      ReadLink(isMap, s, c.key, c.value, false, more);
      OnlyCleanChains(isMap, c.next, rest);
    }
  }

  /** What a chain that was read says about its first element. */
  lemma LinkParts(isMap: bool, s: string)
    requires ReadChain(isMap, s).Good?
    ensures ReadChain(isMap, s).value.Link?
    ensures ReadKey(isMap, s).Good? && ReadKey(isMap, s).value == ReadChain(isMap, s).value.key
    ensures ReadValue(ReadKey(isMap, s).rest).Good?
    ensures ReadValue(ReadKey(isMap, s).rest).value == ReadChain(isMap, s).value.value
  {
  }

  /** Reading is the inverse of printing exactly on the clean trees. */
  lemma PrintReadsBackIffClean(t: Tree)
    ensures ReadText(Print(t)) == Good(t, "") <==> Clean(t)
  {
    assert Print(t) + "" == Print(t);
    if Clean(t) {
      ValueRoundTrip(t, "");
    } else if ReadText(Print(t)) == Good(t, "") {
      OnlyCleanValues(t, "");
    }
  }
}
