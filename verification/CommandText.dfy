/** The text form of commands: a printer that escapes values, and a parser that walks over bytes. */
module CommandText {
  import opened Prelude

  const TAB: u8 := 0x09
  const NEWLINE: u8 := 0x0a
  const VERTICAL_TAB: u8 := 0x0b
  const FORM_FEED: u8 := 0x0c
  const RETURN: u8 := 0x0d
  const SPACE: u8 := 0x20
  const SLASH: u8 := 0x2f
  const EQUALS: u8 := 0x3d
  const BACKSLASH: u8 := 0x5c
  const PIPE: u8 := 0x7c

  predicate IsAlphanumeric(c: u8) {
    0x30 <= c <= 0x39 || 0x41 <= c <= 0x5a || 0x61 <= c <= 0x7a
  }

  predicate IsSpace(c: u8) {
    c == VERTICAL_TAB || c == FORM_FEED || c == TAB || c == RETURN || c == NEWLINE || c == SPACE
  }

  predicate EndsName(c: u8) {
    c == SPACE || c == EQUALS || c == PIPE
  }

  predicate EndsValue(c: u8) {
    IsSpace(c) || c == PIPE
  }

  /** What a command is made of, after its name. */
  datatype Op = NewPart | Arg(name: Bytes, value: Bytes)

  // Escaping.

  function EscapeByte(c: u8): Bytes {
    if c == VERTICAL_TAB then [BACKSLASH, 0x76]
    else if c == FORM_FEED then [BACKSLASH, 0x66]
    else if c == BACKSLASH then [BACKSLASH, BACKSLASH]
    else if c == TAB then [BACKSLASH, 0x74]
    else if c == RETURN then [BACKSLASH, 0x72]
    else if c == NEWLINE then [BACKSLASH, 0x6e]
    else if c == PIPE then [BACKSLASH, 0x70]
    else if c == SPACE then [BACKSLASH, 0x73]
    else if c == SLASH then [BACKSLASH, SLASH]
    else [c]
  }

  function UnescapeByte(c: u8): u8 {
    if c == 0x76 then VERTICAL_TAB
    else if c == 0x66 then FORM_FEED
    else if c == 0x74 then TAB
    else if c == 0x72 then RETURN
    else if c == 0x6e then NEWLINE
    else if c == 0x70 then PIPE
    else if c == 0x73 then SPACE
    else c
  }

  function Escape(value: Bytes): Bytes {
    if value == [] then [] else EscapeByte(value[0]) + Escape(value[1..])
  }

  function Unescape(raw: Bytes): Bytes {
    if raw == [] then []
    else if raw[0] != BACKSLASH then [raw[0]] + Unescape(raw[1..])
    else if |raw| == 1 then []
    else [UnescapeByte(raw[1])] + Unescape(raw[2..])
  }

  lemma {:induction false} EscapeAppends(value: Bytes, c: u8)
    ensures Escape(value + [c]) == Escape(value) + EscapeByte(c)
  {
    if value != [] {
      EscapeAppends(value[1..], c);
      assert (value + [c])[1..] == value[1..] + [c];
    }
  }

  lemma EscapedByteRoundTrip(c: u8, s: Bytes)
    ensures Unescape(EscapeByte(c) + s) == [c] + Unescape(s)
  {
    var raw := EscapeByte(c) + s;
    if raw[0] == BACKSLASH {
      assert raw[2..] == s;
    } else {
      assert raw[1..] == s;
    }
  }

  lemma {:induction false} EscapeRoundTrip(value: Bytes)
    ensures Unescape(Escape(value)) == value
  {
    hide Unescape, EscapeByte;
    if value == [] {
      NothingToUnescape();
    } else {
      EscapeRoundTrip(value[1..]);
      EscapedByteRoundTrip(value[0], Escape(value[1..]));
    }
  }

  lemma NothingToUnescape()
    ensures Unescape([]) == []
  {
  }

  /** The bytes of a text in ASCII. */
  function Ascii(s: string): (r: Bytes)
    requires forall i {:trigger s[i]} :: 0 <= i < |s| ==> s[i] < 128 as char
    ensures |r| == |s| && forall i {:trigger r[i]} :: 0 <= i < |r| ==> r[i] == s[i] as int
  {
    seq(|s|, i requires 0 <= i < |s| => s[i] as int)
  }

  /** Digits and letters may stand in the name of a command. */
  lemma AlphanumericIff(c: u8)
    ensures IsAlphanumeric(c) <==>
            '0' <= c as char <= '9' || 'A' <= c as char <= 'Z' || 'a' <= c as char <= 'z'
  {
  }

  /** The letters on the wire. */
  lemma WireLetters()
    ensures EscapeByte(' ' as int) == Ascii("\\s") && EscapeByte('|' as int) == Ascii("\\p")
    ensures EscapeByte('/' as int) == Ascii("\\/") && EscapeByte('\\' as int) == Ascii("\\\\")
    ensures EscapeByte('\t' as int) == Ascii("\\t") && EscapeByte('\n' as int) == Ascii("\\n")
    ensures EscapeByte('\r' as int) == Ascii("\\r") && EscapeByte(11) == Ascii("\\v") && EscapeByte(12) == Ascii("\\f")
    ensures forall c: u8 {:trigger EscapeByte(c)} ::
              c !in Ascii(" |/\\\t\n\r") && c != 11 && c != 12 ==> EscapeByte(c) == [c]
  {
    forall c: u8 | c !in Ascii(" |/\\\t\n\r")
      ensures c != ' ' as int && c != '|' as int && c != '/' as int && c != '\\' as int
      ensures c != '\t' as int && c != '\n' as int && c != '\r' as int
    {
      var s := Ascii(" |/\\\t\n\r");
      assert s[0] in s && s[1] in s && s[2] in s && s[3] in s && s[4] in s && s[5] in s && s[6] in s;
    }
  }

  /** What an escaped value looks like can end neither a value nor a part. */
  lemma {:induction false} EscapedEndsNothing(value: Bytes, i: nat)
    requires i < |Escape(value)|
    ensures !EndsValue(Escape(value)[i])
  {
    if value != [] && i >= |EscapeByte(value[0])| {
      EscapedEndsNothing(value[1..], i - |EscapeByte(value[0])|);
    }
  }

  // Scanning. All lengths are counted from the start of the given text.

  function SpaceLen(s: Bytes): (n: nat)
    ensures n <= |s|
  {
    if s != [] && IsSpace(s[0]) then 1 + SpaceLen(s[1..]) else 0
  }

  function NameLen(s: Bytes): (n: nat)
    ensures n <= |s|
  {
    if s != [] && !EndsName(s[0]) then 1 + NameLen(s[1..]) else 0
  }

  /** A backslash protects the next byte, unless that ends the value. */
  function ValueLen(s: Bytes): (n: nat)
    ensures n <= |s|
  {
    if s == [] || EndsValue(s[0]) then 0
    else if s[0] != BACKSLASH then 1 + ValueLen(s[1..])
    else if |s| == 1 || EndsValue(s[1]) then 1
    else 2 + ValueLen(s[2..])
  }

  /** The number of backslashes that start an escape sequence of the value. */
  function Escapes(s: Bytes): (n: nat)
    ensures n <= ValueLen(s)
  {
    if s == [] || EndsValue(s[0]) then 0
    else if s[0] != BACKSLASH then Escapes(s[1..])
    else if |s| == 1 || EndsValue(s[1]) then 1
    else 1 + Escapes(s[2..])
  }

  function AlphanumericLen(s: Bytes): (n: nat)
    ensures n <= |s|
  {
    if s != [] && IsAlphanumeric(s[0]) then 1 + AlphanumericLen(s[1..]) else 0
  }

  /** The name of a command is alphanumeric and ends at a space or with the text. */
  function CommandNameLen(s: Bytes): (n: nat)
    ensures n <= |s|
  {
    var n := AlphanumericLen(s);
    if n == |s| || s[n] == SPACE then n else 0
  }

  // Parsing.

  datatype Span = Span(start: nat, end: nat)

  datatype Item = NextCommand | Argument(name: Span, value: Span, escapes: nat)

  datatype Parsed = End | Found(item: Item, index: nat)

  function Slice(data: Bytes, span: Span): Bytes
    requires span.start <= span.end <= |data|
  {
    data[span.start..span.end]
  }

  /** The next item from an index on, and the index after it. */
  function ParseOne(data: Bytes, index: nat): Parsed
    requires index <= |data|
  {
    var start := index + SpaceLen(data[index..]);
    if start == |data| then End
    else if data[start] == PIPE then Found(NextCommand, start + 1)
    else
      var nameEnd := start + NameLen(data[start..]);
      if nameEnd == |data| || data[nameEnd] != EQUALS then
        Found(Argument(Span(start, nameEnd), Span(nameEnd, nameEnd), 0), nameEnd)
      else
        var value := data[nameEnd + 1..];
        var end := nameEnd + 1 + ValueLen(value);
        Found(Argument(Span(start, nameEnd), Span(nameEnd + 1, end), Escapes(value)), end)
  }

  /** The spans of an item lie in order between two indices. */
  predicate Within(item: Item, from: nat, to: nat) {
    item.Argument? ==> from <= item.name.start <= item.name.end <= item.value.start <= item.value.end <= to
                       && item.escapes <= item.value.end - item.value.start
  }

  /** On any bytes the parser makes progress and stays inside. */
  lemma ParseOneProgresses(data: Bytes, index: nat)
    requires index <= |data| && ParseOne(data, index).Found?
    ensures index < ParseOne(data, index).index <= |data|
    ensures Within(ParseOne(data, index).item, index, ParseOne(data, index).index)
  {
    var start := index + SpaceLen(data[index..]);
    assert data[start..] != [];
  }

  function ParseAll(data: Bytes, index: nat): seq<Item>
    requires index <= |data|
    decreases |data| - index
  {
    match ParseOne(data, index)
    case End => []
    case Found(item, next) =>
      ParseOneProgresses(data, index);
      [item] + ParseAll(data, next)
  }

  /** The spans of all items are disjoint and in the order of the text. */
  lemma {:induction false} SpansIncrease(data: Bytes, index: nat, i: nat, j: nat)
    requires index <= |data| && i < j < |ParseAll(data, index)|
    requires ParseAll(data, index)[i].Argument? && ParseAll(data, index)[j].Argument?
    ensures index <= ParseAll(data, index)[i].name.start
    ensures ParseAll(data, index)[i].value.end <= ParseAll(data, index)[j].name.start
    decreases |data| - index
  {
    var next := ParseOne(data, index).index;
    ParseOneProgresses(data, index);
    if i == 0 {
      SpansStayInside(data, next, j - 1);
    } else {
      SpansIncrease(data, next, i - 1, j - 1);
    }
  }

  lemma {:induction false} SpansStayInside(data: Bytes, index: nat, j: nat)
    requires index <= |data| && j < |ParseAll(data, index)|
    ensures Within(ParseAll(data, index)[j], index, |data|)
    decreases |data| - index
  {
    var next := ParseOne(data, index).index;
    ParseOneProgresses(data, index);
    if j > 0 {
      SpansStayInside(data, next, j - 1);
    }
  }

  /** The value that an argument stands for: without escapes the raw text serves. */
  function Get(raw: Bytes, escapes: nat): Bytes {
    if escapes == 0 then raw else Unescape(raw)
  }

  /** Taking the raw text is only a shortcut. */
  lemma {:induction false} GetIsUnescape(s: Bytes)
    ensures Get(s[..ValueLen(s)], Escapes(s)) == Unescape(s[..ValueLen(s)])
  {
    var raw := s[..ValueLen(s)];
    if Escapes(s) == 0 && raw != [] {
      GetIsUnescape(s[1..]);
      assert raw[1..] == s[1..][..ValueLen(s[1..])];
    }
  }

  function Read(data: Bytes, item: Item): Op
    requires Within(item, 0, |data|)
  {
    match item
    case NextCommand => NewPart
    case Argument(name, value, escapes) => Arg(Slice(data, name), Get(Slice(data, value), escapes))
  }

  /** All items from an index on, as a reader sees them. */
  function ReadAll(data: Bytes, index: nat): seq<Op>
    requires index <= |data|
    decreases |data| - index
  {
    match ParseOne(data, index)
    case End => []
    case Found(item, next) =>
      ParseOneProgresses(data, index);
      [Read(data, item)] + ReadAll(data, next)
  }

  lemma {:induction false} ReadAllReadsItems(data: Bytes, index: nat, j: nat)
    requires index <= |data|
    ensures |ReadAll(data, index)| == |ParseAll(data, index)|
    ensures j < |ParseAll(data, index)| ==>
              Within(ParseAll(data, index)[j], 0, |data|)
              && ReadAll(data, index)[j] == Read(data, ParseAll(data, index)[j])
    decreases |data| - index
  {
    hide ParseOne, Read;
    if ParseOne(data, index).Found? {
      ParseOneProgresses(data, index);
      ReadAllReadsItems(data, ParseOne(data, index).index, if j == 0 then 0 else j - 1);
    }
  }

  // Printing.

  /** Whether an argument needs no space before it. */
  predicate Fresh(content: Bytes) {
    content == [] || content[|content| - 1] == PIPE
  }

  function PrintOp(content: Bytes, op: Op): Bytes {
    match op
    case NewPart => content + [PIPE]
    case Arg(name, value) =>
      var text := content + (if Fresh(content) then [] else [SPACE]) + name;
      if value == [] then text else text + [EQUALS] + Escape(value)
  }

  function Print(content: Bytes, ops: seq<Op>): Bytes
    decreases |ops|
  {
    if ops == [] then content else Print(PrintOp(content, ops[0]), ops[1..])
  }

  /** What an operation adds, which only depends on whether a space is needed. */
  function Piece(clear: bool, op: Op): Bytes {
    match op
    case NewPart => [PIPE]
    case Arg(name, value) =>
      (if clear then [] else [SPACE]) + name + (if value == [] then [] else [EQUALS] + Escape(value))
  }

  function FreshAfter(clear: bool, piece: Bytes): bool {
    if piece == [] then clear else piece[|piece| - 1] == PIPE
  }

  function Pieces(clear: bool, ops: seq<Op>): Bytes
    decreases |ops|
  {
    if ops == [] then []
    else
      var piece := Piece(clear, ops[0]);
      piece + Pieces(FreshAfter(clear, piece), ops[1..])
  }

  lemma PrintOpAddsPiece(content: Bytes, op: Op)
    ensures var piece := Piece(Fresh(content), op);
      PrintOp(content, op) == content + piece
      && Fresh(content + piece) == FreshAfter(Fresh(content), piece)
  {
    hide Escape;
    var piece := Piece(Fresh(content), op);
    if op.Arg? {
      var space := if Fresh(content) then [] else [SPACE];
      Associative(content, space, op.name);
      if op.value != [] {
        Associative(content + space + op.name, [EQUALS], Escape(op.value));
        Associative(content, space + op.name, [EQUALS] + Escape(op.value));
      }
      assert space + op.name + [] == space + op.name;
    }
    assert piece == [] ==> content + piece == content;
  }

  lemma {:induction false} PrintIsPieces(content: Bytes, ops: seq<Op>)
    ensures Print(content, ops) == content + Pieces(Fresh(content), ops)
    decreases |ops|
  {
    hide Piece, PrintOp, Fresh, FreshAfter;
    if ops != [] {
      var piece := Piece(Fresh(content), ops[0]);
      PrintOpAddsPiece(content, ops[0]);
      PrintIsPieces(content + piece, ops[1..]);
    }
  }

  // Reading back what was printed.

  /** Whether the parser can return the argument name. */
  predicate WellNamed(name: Bytes) {
    NameLen(name) == |name| && (name != [] ==> !IsSpace(name[0]))
  }

  ghost predicate AllWellNamed(ops: seq<Op>) {
    forall i {:trigger ops[i]} :: 0 <= i < |ops| && ops[i].Arg? ==> WellNamed(ops[i].name)
  }

  /** Nothing is printed for an argument without name and value. */
  predicate Blank(op: Op) {
    op.Arg? && op.name == [] && op.value == []
  }

  function WithoutBlanks(ops: seq<Op>): seq<Op> {
    if ops == [] then []
    else (if Blank(ops[0]) then [] else [ops[0]]) + WithoutBlanks(ops[1..])
  }

  lemma {:induction false} NoBlanksIff(ops: seq<Op>)
    ensures |WithoutBlanks(ops)| <= |ops|
    ensures WithoutBlanks(ops) == ops <==> forall i {:trigger ops[i]} :: 0 <= i < |ops| ==> !Blank(ops[i])
  {
    if ops != [] {
      NoBlanksIff(ops[1..]);
      assert ops == [ops[0]] + ops[1..];
      assert forall i {:trigger ops[i]} :: 0 < i < |ops| ==> ops[i] == ops[1..][i - 1];
    }
  }

  /** A text at which both names and values end. */
  predicate Delimited(s: Bytes) {
    s == [] || s[0] == SPACE || s[0] == PIPE
  }

  lemma {:induction false} NameEndsAtDelimiter(name: Bytes, s: Bytes)
    requires NameLen(name) == |name| && (s == [] || EndsName(s[0]))
    ensures NameLen(name + s) == |name|
  {
    if name != [] {
      NameEndsAtDelimiter(name[1..], s);
      assert (name + s)[1..] == name[1..] + s;
    } else {
      assert name + s == s;
    }
  }

  lemma EscapedByteIsInside(c: u8, s: Bytes)
    ensures ValueLen(EscapeByte(c) + s) == |EscapeByte(c)| + ValueLen(s)
  {
    var e := EscapeByte(c);
    if |e| == 2 {
      assert (e + s)[2..] == s;
    } else {
      assert (e + s)[1..] == s;
    }
  }

  lemma {:induction false} EscapedValueEndsAtDelimiter(value: Bytes, s: Bytes)
    requires Delimited(s)
    ensures ValueLen(Escape(value) + s) == |Escape(value)|
  {
    hide EscapeByte, ValueLen;
    if value != [] {
      EscapedValueEndsAtDelimiter(value[1..], s);
      EscapedByteIsInside(value[0], Escape(value[1..]) + s);
      assert Escape(value) + s == EscapeByte(value[0]) + (Escape(value[1..]) + s);
    } else {
      assert Escape(value) + s == s;
      ValueEndsHere(s);
    }
  }

  lemma ValueEndsHere(s: Bytes)
    requires Delimited(s)
    ensures ValueLen(s) == 0
  {
  }

  /** Without escapes nothing was escaped. */
  lemma EscapedValueIsRead(value: Bytes, s: Bytes)
    requires Delimited(s)
    ensures Get(Escape(value), Escapes(Escape(value) + s)) == value
  {
    EscapedValueEndsAtDelimiter(value, s);
    GetIsUnescape(Escape(value) + s);
    assert (Escape(value) + s)[..|Escape(value)|] == Escape(value);
    EscapeRoundTrip(value);
  }

  lemma PiecesAreDelimited(ops: seq<Op>)
    requires AllWellNamed(ops)
    ensures Delimited(Pieces(false, ops))
  {
    if ops != [] {
      assert Pieces(false, ops)[0] == Piece(false, ops[0])[0];
    }
  }

  lemma {:induction false} EscapedHasNoPipe(value: Bytes)
    ensures value != [] ==> Escape(value) != [] && Escape(value)[|Escape(value)| - 1] != PIPE
  {
    if |value| > 1 {
      EscapedHasNoPipe(value[1..]);
    }
  }

  lemma {:induction false} NamesHaveNoDelimiter(name: Bytes, i: nat)
    requires i < NameLen(name)
    ensures !EndsName(name[i])
  {
    if i > 0 {
      NamesHaveNoDelimiter(name[1..], i - 1);
    }
  }

  lemma WellNamedIsNotFresh(op: Op, clear: bool)
    requires op.Arg? && WellNamed(op.name)
    ensures FreshAfter(clear, Piece(clear, op)) == (clear && Blank(op))
  {
    EscapedHasNoPipe(op.value);
    if op.name != [] {
      NamesHaveNoDelimiter(op.name, |op.name| - 1);
    }
  }

  lemma NoSpaceBefore(s: Bytes)
    requires s == [] || !IsSpace(s[0])
    ensures SpaceLen(s) == 0
  {
  }

  /** A space before an item makes no difference. */
  lemma ParsingSkipsSpace(data: Bytes, index: nat)
    requires index < |data| && IsSpace(data[index])
    ensures ParseOne(data, index) == ParseOne(data, index + 1)
  {
    hide NameLen, ValueLen, Escapes, IsSpace, EndsName;
    var s := data[index..];
    assert s[0] == data[index] && s[1..] == data[index + 1..];
    assert SpaceLen(s) == 1 + SpaceLen(s[1..]);
  }

  lemma ParsedName(data: Bytes, start: nat, n: nat)
    requires start < |data| && SpaceLen(data[start..]) == 0 && data[start] != PIPE
    requires NameLen(data[start..]) == n && (start + n < |data| ==> data[start + n] != EQUALS)
    ensures ParseOne(data, start)
            == Found(Argument(Span(start, start + n), Span(start + n, start + n), 0), start + n)
  {
    hide SpaceLen, NameLen, ValueLen, Escapes;
  }

  lemma ParsedValue(data: Bytes, start: nat, n: nat, v: nat)
    requires start < |data| && SpaceLen(data[start..]) == 0 && data[start] != PIPE
    requires NameLen(data[start..]) == n && start + n < |data| && data[start + n] == EQUALS
    requires ValueLen(data[start + n + 1..]) == v
    ensures var at := start + n + 1;
      v <= |data| - at
      && ParseOne(data, start) == Found(Argument(Span(start, start + n), Span(at, at + v), Escapes(data[at..])), at + v)
  {
    hide SpaceLen, NameLen, ValueLen, Escapes;
  }

  /** A printed argument is the next item, up to the text after it. */
  lemma NameIsParsed(data: Bytes, start: nat, name: Bytes, rest: Bytes)
    requires WellNamed(name) && name != [] && Delimited(rest)
    requires start <= |data| && data[start..] == name + rest
    ensures ParseOne(data, start).Found?
    ensures var p := ParseOne(data, start);
      p.index == |data| - |rest| && Within(p.item, 0, |data|) && Read(data, p.item) == Arg(name, [])
  {
    hide SpaceLen, NameLen, WellNamed, ParseOne;
    StartOfArgument(name, rest);
    SliceAt(data, start, name, rest);
    NoSpaceBefore(data[start..]);
    NameEndsAtDelimiter(name, rest);
    ParsedName(data, start, |name|);
  }

  lemma ValueIsParsed(data: Bytes, start: nat, name: Bytes, value: Bytes, rest: Bytes)
    requires WellNamed(name) && value != [] && Delimited(rest)
    requires start <= |data| && data[start..] == name + ([EQUALS] + (Escape(value) + rest))
    ensures ParseOne(data, start).Found?
    ensures var p := ParseOne(data, start);
      p.index == |data| - |rest| && Within(p.item, 0, |data|) && Read(data, p.item) == Arg(name, value)
  {
    hide SpaceLen, NameLen, WellNamed, ParseOne, Escape, ValueLen, Escapes, Get, Delimited;
    var raw := Escape(value);
    var text := [EQUALS] + (raw + rest);
    assert text[0] == EQUALS;
    StartOfArgument(name, text);
    NoSpaceBefore(data[start..]);
    NameEndsAtDelimiter(name, text);
    SlicesAt(data, start, name, raw, rest);
    EscapedValueEndsAtDelimiter(value, rest);
    EscapedValueIsRead(value, rest);
    ParsedValue(data, start, |name|, |raw|);
  }

  lemma SlicesAt(data: Bytes, start: nat, name: Bytes, raw: Bytes, rest: Bytes)
    requires start <= |data| && data[start..] == name + ([EQUALS] + (raw + rest))
    ensures var nameEnd := start + |name|;
      var at := nameEnd + 1;
      && nameEnd < |data| && data[nameEnd] == EQUALS && at + |raw| + |rest| == |data|
      && data[start] == data[start..][0] && data[start..nameEnd] == name
      && data[at..] == raw + rest && data[at..at + |raw|] == raw
  {
    SliceAt(data, start, name, [EQUALS] + (raw + rest));
    SliceAt(data, start + |name|, [EQUALS], raw + rest);
    SliceAt(data, start + |name| + 1, raw, rest);
  }

  lemma ArgumentIsParsed(data: Bytes, start: nat, op: Op, rest: Bytes)
    requires op.Arg? && WellNamed(op.name) && !Blank(op) && Delimited(rest)
    requires start <= |data| && data[start..] == Piece(true, op) + rest
    ensures ParseOne(data, start).Found?
    ensures var p := ParseOne(data, start);
      p.index == |data| - |rest| && Within(p.item, 0, |data|) && Read(data, p.item) == op
  {
    hide WellNamed, ParseOne, Escape, Delimited, Read;
    if op.value == [] {
      assert Piece(true, op) == op.name;
      NameIsParsed(data, start, op.name, rest);
    } else {
      assert Piece(true, op) + rest == op.name + ([EQUALS] + (Escape(op.value) + rest));
      ValueIsParsed(data, start, op.name, op.value, rest);
    }
  }

  lemma StartOfArgument(name: Bytes, s: Bytes)
    requires name == [] ==> s != [] && s[0] == EQUALS
    requires WellNamed(name)
    ensures !IsSpace((name + s)[0]) && (name + s)[0] != PIPE && NameLen(name) == |name|
  {
  }

  lemma SliceAt(data: Bytes, index: nat, a: Bytes, b: Bytes)
    requires index <= |data| && data[index..] == a + b
    ensures index + |a| <= |data| && data[index..index + |a|] == a && data[index + |a|..] == b
    ensures b != [] ==> index + |a| < |data| && data[index + |a|] == b[0]
    ensures a != [] ==> data[index] == a[0]
  {
    var s := data[index..];
    assert s[..|a|] == a && s[|a|..] == b;
    assert b != [] ==> s[|a|] == b[0];
  }

  /** Printing and parsing: all comes back but for the arguments that print as nothing. */
  lemma {:induction false} PiecesAreRead(data: Bytes, index: nat, clear: bool, ops: seq<Op>)
    requires AllWellNamed(ops) && index <= |data| && data[index..] == Pieces(clear, ops)
    ensures ReadAll(data, index) == WithoutBlanks(ops)
    decreases |ops|
  {
    hide WellNamed, ReadAll, Piece, Pieces, FreshAfter, AllWellNamed, Blank;
    FirstPiece(clear, ops);
    if ops == [] {
      NothingIsParsed(data, index);
    } else {
      var op, piece := ops[0], Piece(clear, ops[0]);
      var after := FreshAfter(clear, piece);
      SliceAt(data, index, piece, Pieces(after, ops[1..]));
      PiecesAreRead(data, index + |piece|, after, ops[1..]);
      PieceIsRead(data, index, clear, op, ops[1..]);
    }
  }

  lemma FirstPiece(clear: bool, ops: seq<Op>)
    requires AllWellNamed(ops)
    ensures ops == [] ==> Pieces(clear, ops) == []
    ensures ops != [] ==>
              var piece := Piece(clear, ops[0]);
              && Pieces(clear, ops) == piece + Pieces(FreshAfter(clear, piece), ops[1..])
              && AllWellNamed(ops[1..]) && (ops[0].Arg? ==> WellNamed(ops[0].name))
  {
    hide WellNamed, Piece, FreshAfter;
  }

  lemma NothingIsParsed(data: Bytes, index: nat)
    requires index <= |data| && data[index..] == []
    ensures ReadAll(data, index) == []
  {
  }

  lemma ReadAllStep(data: Bytes, index: nat)
    requires index <= |data| && ParseOne(data, index).Found?
    ensures var p := ParseOne(data, index);
      && index < p.index <= |data| && Within(p.item, 0, |data|)
      && ReadAll(data, index) == [Read(data, p.item)] + ReadAll(data, p.index)
  {
    ParseOneProgresses(data, index);
  }

  lemma {:induction false} ReadingSkipsSpace(data: Bytes, index: nat)
    requires index < |data| && IsSpace(data[index])
    ensures ReadAll(data, index) == ReadAll(data, index + 1)
  {
    hide ParseOne, Read, Within;
    ParsingSkipsSpace(data, index);
    if ParseOne(data, index).Found? {
      ReadAllStep(data, index);
      ReadAllStep(data, index + 1);
    }
  }

  lemma {:induction false} BarePieceIsRead(data: Bytes, index: nat, op: Op, tail: Bytes)
    requires op.Arg? ==> WellNamed(op.name) && (Blank(op) || Delimited(tail))
    requires index <= |data| && data[index..] == Piece(true, op) + tail
    ensures var next := |data| - |tail|;
      index <= next && ReadAll(data, index) == (if Blank(op) then [] else [op]) + ReadAll(data, next)
  {
    hide WellNamed, Read, ParseOne, Escape, ReadAll, Delimited;
    if op == NewPart {
      SliceAt(data, index, [PIPE], tail);
      PipeIsParsed(data, index);
      ReadAllStep(data, index);
    } else if !Blank(op) {
      ArgumentIsParsed(data, index, op, tail);
      ReadAllStep(data, index);
    } else {
      assert data[index..] == tail;
    }
  }

  lemma {:induction false} PieceIsRead(data: Bytes, index: nat, clear: bool, op: Op, rest: seq<Op>)
    requires (op.Arg? ==> WellNamed(op.name)) && AllWellNamed(rest) && index <= |data|
    requires data[index..] == Piece(clear, op) + Pieces(FreshAfter(clear, Piece(clear, op)), rest)
    ensures var next := index + |Piece(clear, op)|;
      next <= |data| && ReadAll(data, index) == (if Blank(op) then [] else [op]) + ReadAll(data, next)
  {
    hide WellNamed, Read, ParseOne, Escape, Pieces, FreshAfter, AllWellNamed, ReadAll, Delimited, Blank;
    var tail := Pieces(FreshAfter(clear, Piece(clear, op)), rest);
    if op.Arg? {
      WellNamedIsNotFresh(op, clear);
      PiecesAreDelimited(rest);
    }
    var start := index;
    if op.Arg? && !clear {
      SpacePiece(op);
      assert data[index..] == [SPACE] + (Piece(true, op) + tail);
      SliceAt(data, index, [SPACE], Piece(true, op) + tail);
      ReadingSkipsSpace(data, index);
      start := index + 1;
    }
    BarePieceIsRead(data, start, op, tail);
  }

  lemma SpacePiece(op: Op)
    requires op.Arg?
    ensures Piece(false, op) == [SPACE] + Piece(true, op)
  {
    hide Escape;
  }

  lemma PipeIsParsed(data: Bytes, index: nat)
    requires index < |data| && data[index] == PIPE
    ensures ParseOne(data, index) == Found(NextCommand, index + 1)
    ensures Read(data, NextCommand) == NewPart
  {
  }

  lemma {:induction false} NameIsScannedAgain(s: Bytes)
    ensures NameLen(s[..NameLen(s)]) == NameLen(s)
  {
    var name := s[..NameLen(s)];
    if name != [] {
      NameIsScannedAgain(s[1..]);
      assert name[1..] == s[1..][..NameLen(s[1..])];
    }
  }

  lemma {:induction false} SpacesEnd(s: Bytes)
    ensures SpaceLen(s) < |s| ==> !IsSpace(s[SpaceLen(s)])
  {
    if s != [] && IsSpace(s[0]) {
      SpacesEnd(s[1..]);
    }
  }

  /** The parser returns no other argument names. */
  lemma {:induction false} ReadsAreWellNamed(data: Bytes, index: nat)
    requires index <= |data|
    ensures AllWellNamed(ReadAll(data, index))
    decreases |data| - index
  {
    hide ParseOne, Within, Read;
    var p := ParseOne(data, index);
    if p.Found? {
      ReadAllStep(data, index);
      ReadsAreWellNamed(data, p.index);
      ReadIsWellNamed(data, index);
    }
  }

  lemma ReadIsWellNamed(data: Bytes, index: nat)
    requires index <= |data| && ParseOne(data, index).Found? && Within(ParseOne(data, index).item, 0, |data|)
    ensures var op := Read(data, ParseOne(data, index).item);
      op.Arg? ==> WellNamed(op.name)
  {
    hide ValueLen, Escapes, IsSpace;
    var s := data[index..];
    var start := index + SpaceLen(s);
    SpacesEnd(s);
    NameIsScannedAgain(data[start..]);
    assert start < |data| ==> data[start] == s[SpaceLen(s)];
    assert data[start..][..NameLen(data[start..])] == data[start..start + NameLen(data[start..])];
  }

  // Whole commands.

  function Parse(data: Bytes): (Bytes, seq<Op>) {
    (data[..CommandNameLen(data)], ReadAll(data, CommandNameLen(data)))
  }

  /** What a command is read as comes from disjoint spans behind its name, in the order of the text. */
  lemma {:induction false} ReadsInOrder(data: Bytes, i: nat, j: nat)
    requires i < j < |Parse(data).1| && Parse(data).1[i].Arg? && Parse(data).1[j].Arg?
    ensures var items := ParseAll(data, CommandNameLen(data));
      && |items| == |Parse(data).1| && Within(items[i], 0, |data|) && Within(items[j], 0, |data|)
      && Parse(data).1[i] == Read(data, items[i]) && Parse(data).1[j] == Read(data, items[j])
      && items[i].Argument? && items[j].Argument?
      && |Parse(data).0| <= items[i].name.start && items[i].value.end <= items[j].name.start
  {
    ReadAllReadsItems(data, CommandNameLen(data), i);
    ReadAllReadsItems(data, CommandNameLen(data), j);
    SpansIncrease(data, CommandNameLen(data), i, j);
  }

  predicate Alphanumeric(s: Bytes) {
    AlphanumericLen(s) == |s|
  }

  /**
   * Whether the parser finds the command name: no pipe may come right after a name, and without a
   * name the first argument must not look like one.
   */
  predicate NameSurvives(name: Bytes, ops: seq<Op>) {
    if ops == [] then true
    else if name != [] then ops[0].Arg?
    else !(ops[0].Arg? && ops[0].name != [] && Alphanumeric(ops[0].name) && ops[0].value == []
           && (|ops| == 1 || ops[1].Arg?))
  }

  lemma {:induction false} AlphanumericEnds(name: Bytes, s: Bytes)
    requires s == [] || !IsAlphanumeric(s[0])
    ensures AlphanumericLen(name + s) == AlphanumericLen(name)
  {
    if name == [] {
      assert name + s == s;
    } else {
      assert (name + s)[1..] == name[1..] + s;
      AlphanumericEnds(name[1..], s);
    }
  }

  /** A name is found exactly if a space or the end follows it. */
  lemma CommandNameEnds(name: Bytes, s: Bytes)
    requires Alphanumeric(name) && (s == [] || !IsAlphanumeric(s[0]))
    ensures CommandNameLen(name + s) == if s == [] || s[0] == SPACE then |name| else 0
  {
    hide AlphanumericLen;
    AlphanumericEnds(name, s);
    assert s != [] ==> (name + s)[|name|] == s[0];
  }

  lemma {:induction false} OtherNameEnds(name: Bytes, s: Bytes)
    requires !Alphanumeric(name)
    ensures AlphanumericLen(name + s) == AlphanumericLen(name) < |name|
    ensures !IsAlphanumeric(name[AlphanumericLen(name)])
  {
    assert (name + s)[0] == name[0];
    if IsAlphanumeric(name[0]) {
      assert (name + s)[1..] == name[1..] + s;
      OtherNameEnds(name[1..], s);
    }
  }

  lemma {:induction false} LastIsAlphanumeric(name: Bytes)
    requires Alphanumeric(name) && name != []
    ensures IsAlphanumeric(name[|name| - 1])
  {
    if |name| > 1 {
      LastIsAlphanumeric(name[1..]);
    }
  }

  lemma NameAfterNameIff(name: Bytes, ops: seq<Op>)
    requires Alphanumeric(name) && name != []
    ensures CommandNameLen(name + Pieces(false, ops)) == |name| <==> NameSurvives(name, ops)
  {
    var s := Pieces(false, ops);
    if ops != [] {
      assert s[0] == if ops[0].Arg? then SPACE else PIPE;
    }
    CommandNameEnds(name, s);
  }

  lemma FirstArgumentIff(name: Bytes, value: Bytes, s: Bytes)
    requires WellNamed(name) && (name != [] || value != []) && Delimited(s)
    ensures var text := (if value == [] then [] else [EQUALS] + Escape(value)) + s;
      CommandNameLen(name + text) == 0 <==>
      !(name != [] && Alphanumeric(name) && value == [] && (s == [] || s[0] == SPACE))
  {
    hide AlphanumericLen, Escape;
    var text := (if value == [] then [] else [EQUALS] + Escape(value)) + s;
    if Alphanumeric(name) {
      CommandNameEnds(name, text);
    } else {
      OtherNameEnds(name, text);
      NamesHaveNoDelimiter(name, AlphanumericLen(name));
      assert (name + text)[AlphanumericLen(name)] == name[AlphanumericLen(name)];
    }
  }

  lemma PieceStart(ops: seq<Op>)
    requires ops != []
    ensures Pieces(false, ops) != [] && Pieces(false, ops)[0] == if ops[0].Arg? then SPACE else PIPE
  {
  }

  lemma {:induction false} PiecesOfArgument(ops: seq<Op>)
    requires ops != [] && ops[0].Arg? && WellNamed(ops[0].name) && !Blank(ops[0])
    ensures Pieces(true, ops)
            == ops[0].name
               + ((if ops[0].value == [] then [] else [EQUALS] + Escape(ops[0].value)) + Pieces(false, ops[1..]))
  {
    hide WellNamed, Blank, FreshAfter;
    WellNamedIsNotFresh(ops[0], true);
    PieceAndMore(ops[0], Pieces(false, ops[1..]));
  }

  lemma PieceAndMore(op: Op, s: Bytes)
    requires op.Arg?
    ensures Piece(true, op) + s == op.name + ((if op.value == [] then [] else [EQUALS] + Escape(op.value)) + s)
  {
    hide Escape;
    var text := if op.value == [] then [] else [EQUALS] + Escape(op.value);
    assert Piece(true, op) == op.name + text;
    Associative(op.name, text, s);
  }

  lemma {:induction false} NoNameIff(ops: seq<Op>)
    requires AllWellNamed(ops) && forall i {:trigger ops[i]} :: 0 <= i < |ops| ==> !Blank(ops[i])
    ensures CommandNameLen(Pieces(true, ops)) == 0 <==> NameSurvives([], ops)
  {
    hide Escape, Alphanumeric, CommandNameLen, WellNamed, Piece;
    if ops == [] {
      NoNameAtPipe(Pieces(true, ops));
    } else if ops[0] == NewPart {
      PipeStart(ops);
      NoNameAtPipe(Pieces(true, ops));
    } else {
      var rest := ops[1..];
      PiecesAreDelimited(rest);
      if rest != [] {
        PieceStart(rest);
      }
      FirstArgumentIff(ops[0].name, ops[0].value, Pieces(false, rest));
      PiecesOfArgument(ops);
    }
  }

  lemma PipeStart(ops: seq<Op>)
    requires ops != [] && ops[0] == NewPart
    ensures Pieces(true, ops) != [] && Pieces(true, ops)[0] == PIPE
  {
  }

  lemma NoNameAtPipe(s: Bytes)
    requires s == [] || s[0] == PIPE
    ensures CommandNameLen(s) == 0
  {
  }

  /**
   * Printing and parsing a command gives it back exactly if every argument has a name the parser can
   * return, none is blank, and the command name can be told from what follows.
   */
  lemma {:induction false} CommandRoundTripIff(name: Bytes, ops: seq<Op>)
    requires Alphanumeric(name)
    ensures Parse(Print(name, ops)) == (name, ops) <==>
            && AllWellNamed(ops) && (forall i {:trigger ops[i]} :: 0 <= i < |ops| ==> !Blank(ops[i]))
            && NameSurvives(name, ops)
  {
    hide CommandNameLen, NameSurvives, Pieces, Blank, AllWellNamed, ReadAll;
    var data, s := Print(name, ops), Pieces(Fresh(name), ops);
    PrintIsPieces(name, ops);
    assert data[|name|..] == s && data[..|name|] == name;
    if AllWellNamed(ops) {
      PiecesAreRead(data, |name|, Fresh(name), ops);
      NoBlanksIff(ops);
    }
    ReadsAreWellNamed(data, CommandNameLen(data));
    if name != [] {
      LastIsAlphanumeric(name);
      NameAfterNameIff(name, ops);
    } else {
      assert data == s;
      if AllWellNamed(ops) && forall i {:trigger ops[i]} :: 0 <= i < |ops| ==> !Blank(ops[i]) {
        NoNameIff(ops);
      }
    }
  }

  // The program.

  /** Walks over the items of a command. */
  class CommandParser {
    const data: Bytes
    var index: nat

    ghost predicate Valid()
      reads this
    {
      index <= |data|
    }

    constructor (data: Bytes, index: nat)
      requires index <= |data|
      ensures Valid() && this.data == data && this.index == index
    {
      this.data, this.index := data, index;
    }

    /** The name of the command, and a parser for what comes after it. */
    static method New(data: Bytes) returns (name: Bytes, parser: CommandParser)
      ensures name == Parse(data).0
      ensures fresh(parser) && parser.Valid() && parser.data == data && parser.index == CommandNameLen(data)
    {
      var nameEnd := 0;
      assert data[nameEnd..] == data;
      while nameEnd < |data|
        invariant 0 <= nameEnd <= |data|
        invariant AlphanumericLen(data) == nameEnd + AlphanumericLen(data[nameEnd..])
      {
        if !IsAlphanumeric(data[nameEnd]) {
          if data[nameEnd] != SPACE {
            nameEnd := 0;
          }
          break;
        }
        assert data[nameEnd..][1..] == data[nameEnd + 1..];
        nameEnd := nameEnd + 1;
      }
      name := data[..nameEnd];
      parser := new CommandParser(data, nameEnd);
    }

    method SkipSpace()
      requires Valid()
      modifies this
      ensures Valid() && index == old(index) + SpaceLen(data[old(index)..])
    {
      while index < |data| && IsSpace(data[index])
        invariant index <= |data|
        invariant index + SpaceLen(data[index..]) == old(index) + SpaceLen(data[old(index)..])
      {
        assert data[index..][1..] == data[index + 1..];
        index := index + 1;
      }
    }

    method Next() returns (item: Option<Item>)
      requires Valid()
      modifies this
      ensures Valid()
      ensures match ParseOne(data, old(index))
              case End => item == None && index == |data|
              case Found(i, next) => item == Some(i) && index == next
    {
      hide SpaceLen, NameLen, ValueLen, Escapes;
      SkipSpace();
      if index == |data| {
        return None;
      }
      if data[index] == PIPE {
        index := index + 1;
        return Some(NextCommand);
      }
      var nameStart := index;
      index := ScanName(data, index);
      var nameEnd := index;
      if index == |data| || data[index] != EQUALS {
        return Some(Argument(Span(nameStart, nameEnd), Span(nameEnd, nameEnd), 0));
      }
      index := index + 1;
      var valueStart := index;
      var escapes;
      index, escapes := ScanValue(data, index);
      return Some(Argument(Span(nameStart, nameEnd), Span(valueStart, index), escapes));
    }

    static method ScanName(data: Bytes, start: nat) returns (index: nat)
      requires start <= |data|
      ensures index == start + NameLen(data[start..])
    {
      index := start;
      while index < |data| && !EndsName(data[index])
        invariant index <= |data|
        invariant index + NameLen(data[index..]) == start + NameLen(data[start..])
      {
        assert data[index..][1..] == data[index + 1..];
        index := index + 1;
      }
    }

    static method ScanValue(data: Bytes, start: nat) returns (index: nat, escapes: nat)
      requires start <= |data|
      ensures index == start + ValueLen(data[start..]) && escapes == Escapes(data[start..])
    {
      hide ValueLen, Escapes;
      index, escapes := start, 0;
      while index < |data|
        invariant index <= |data|
        invariant index + ValueLen(data[index..]) == start + ValueLen(data[start..])
        invariant escapes + Escapes(data[index..]) == Escapes(data[start..])
      {
        ScanningValue(data, index);
        if EndsValue(data[index]) {
          return;
        }
        if data[index] == BACKSLASH {
          escapes, index := escapes + 1, index + 1;
          if index == |data| || EndsValue(data[index]) {
            return;
          }
        }
        index := index + 1;
      }
      ScanningEnds(data);
    }
  }

  lemma ScanningEnds(data: Bytes)
    ensures ValueLen(data[|data|..]) == 0 == Escapes(data[|data|..])
  {
  }

  lemma ScanningValue(data: Bytes, i: nat)
    requires i < |data|
    ensures var more := if data[i] != BACKSLASH then 1 else if i + 1 == |data| || EndsValue(data[i + 1]) then 0 else 2;
      if EndsValue(data[i]) then ValueLen(data[i..]) == 0 == Escapes(data[i..])
      else if more == 0 then ValueLen(data[i..]) == 1 == Escapes(data[i..])
      else ValueLen(data[i..]) == more + ValueLen(data[i + more..])
           && Escapes(data[i..]) == more - 1 + Escapes(data[i + more..])
  {
    var s := data[i..];
    assert s[0] == data[i] && s[1..] == data[i + 1..];
    assert |s| > 1 ==> s[1] == data[i + 1] && s[2..] == data[i + 2..];
  }

  method UnescapeValue(raw: Bytes) returns (res: Bytes)
    ensures res == Unescape(raw)
  {
    hide Unescape, UnescapeByte;
    res := [];
    var i := 0;
    assert raw[i..] == raw;
    while i < |raw|
      invariant 0 <= i <= |raw|
      invariant res + Unescape(raw[i..]) == Unescape(raw)
    {
      Unescaping(raw, i);
      if raw[i] == BACKSLASH {
        i := i + 1;
        if i == |raw| {
          return;
        }
        res := res + [UnescapeByte(raw[i])];
      } else {
        res := res + [raw[i]];
      }
      i := i + 1;
    }
    UnescapeNothing(raw);
  }

  lemma UnescapeNothing(raw: Bytes)
    ensures Unescape(raw[|raw|..]) == []
  {
  }

  lemma Unescaping(raw: Bytes, i: nat)
    requires i < |raw|
    ensures Unescape(raw[i..])
            == if raw[i] != BACKSLASH then [raw[i]] + Unescape(raw[i + 1..])
               else if i + 1 == |raw| then []
               else [UnescapeByte(raw[i + 1])] + Unescape(raw[i + 2..])
  {
    hide UnescapeByte;
    var s := raw[i..];
    assert s[0] == raw[i] && s[1..] == raw[i + 1..];
    assert |s| > 1 ==> s[1] == raw[i + 1] && s[2..] == raw[i + 2..];
  }

  /** Reads a whole command, as the users of the parser do. */
  method ReadCommand(data: Bytes) returns (name: Bytes, ops: seq<Op>)
    ensures (name, ops) == Parse(data)
  {
    hide ParseOne, CommandNameLen, Read;
    var parser;
    name, parser := CommandParser.New(data);
    ops := [];
    var more := true;
    while more
      invariant fresh(parser) && parser.Valid() && parser.data == data
      invariant ops + (if more then ReadAll(data, parser.index) else []) == Parse(data).1
      decreases more, |data| - parser.index
    {
      ghost var from := parser.index;
      var item := parser.Next();
      match item {
        case None => more := false;
        case Some(i) =>
          ReadAllStep(data, from);
          ops := ops + [Read(data, i)];
      }
    }
    assert ops + [] == ops;
  }

  /** Writes the text of a command. */
  class OutCommand {
    var content: Bytes

    constructor (name: Bytes)
      ensures content == Print(name, [])
    {
      content := name;
    }

    method WriteEscaped(value: Bytes)
      modifies this
      ensures content == old(content) + Escape(value)
    {
      var i := 0;
      while i < |value|
        invariant 0 <= i <= |value| && content == old(content) + Escape(value[..i])
      {
        EscapeAppends(value[..i], value[i]);
        assert value[..i + 1] == value[..i] + [value[i]];
        content := content + EscapeByte(value[i]);
        i := i + 1;
      }
      assert value[..i] == value;
    }

    method WriteBinArg(name: Bytes, value: Bytes)
      modifies this
      ensures content == PrintOp(old(content), Arg(name, value))
    {
      hide Escape;
      if !(content != [] && content[|content| - 1] == PIPE) && content != [] {
        content := content + [SPACE];
      }
      content := content + name;
      if value != [] {
        content := content + [EQUALS];
        WriteEscaped(value);
      }
    }

    /** Takes the equals sign back when nothing was written after it. */
    method WriteArg(name: Bytes, value: Bytes)
      modifies this
      ensures content == PrintOp(old(content), Arg(name, value))
    {
      hide Escape;
      if !(content != [] && content[|content| - 1] == PIPE) && content != [] {
        content := content + [SPACE];
      }
      ghost var text := content + name;
      content := content + name + [EQUALS];
      var len := |content|;
      WriteEscaped(value);
      EscapeGrows(value);
      if |content| == len {
        assert content == text + [EQUALS];
        content := content[..|content| - 1];
      }
    }

    method StartNewPart()
      modifies this
      ensures content == PrintOp(old(content), NewPart)
    {
      content := content + [PIPE];
    }
  }

  lemma EscapeGrows(value: Bytes)
    ensures |Escape(value)| >= |value| && (value == [] ==> Escape(value) == [])
  {
  }
}
