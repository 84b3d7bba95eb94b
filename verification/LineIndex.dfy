/** Converting between LSP positions and byte offsets
    (crates/jabar-server/src/line_index.rs).

    The table stores, per line, where it starts and where its non-ASCII
    characters are. Everything it answers is proved against the text itself: a
    column becomes the largest character cut at or before it, as long as the sum the
    conversion forms fits the 32 bits it is formed in; what happens otherwise is proved
    too, for builds that check additions and for builds that wrap. */
module LineIndex {
  import opened Ranges
  import opened Text
  import opened Wrappers

  datatype LinePosition = LinePosition(line: nat, character: nat)

  /** A non-ASCII character, positioned within its line. */
  datatype WideChar = WideChar(start: nat, len: nat, utf16Len: nat)

  datatype LineIndex = LineIndex(lineStarts: seq<nat>, wideChars: map<nat, seq<WideChar>>, len: nat)

  // ---- what the table must hold ----

  /** The wide characters of `line`, which begins at byte `base`. */
  function WideFrom(line: string, base: nat): seq<WideChar> {
    if line == [] then [] else
    var rest := WideFrom(line[1..], base + Utf8Len(line[0]));
    if IsAscii(line[0]) then rest
    else [WideChar(base, Utf8Len(line[0]), Utf16Len(line[0]))] + rest
  }

  /** A non-ASCII first character heads the table of its line. */
  lemma WideFromHead(line: string, base: nat)
    requires line != [] && !IsAscii(line[0])
    ensures WideFrom(line, base) != []
    ensures WideFrom(line, base)[0] == WideChar(base, Utf8Len(line[0]), Utf16Len(line[0]))
    ensures WideFrom(line, base)[1..] == WideFrom(line[1..], base + Utf8Len(line[0]))
  {
  }

  lemma {:induction false} WideFromSnoc(line: string, c: char, base: nat)
    ensures WideFrom(line + [c], base)
            == WideFrom(line, base)
               + (if IsAscii(c) then [] else [WideChar(base + Bytes(line), Utf8Len(c), Utf16Len(c))])
  {
    if line == [] {
      assert line + [c] == [c] && [c][1..] == [];
    } else {
      assert (line + [c])[1..] == line[1..] + [c];
      WideFromSnoc(line[1..], c, base + Utf8Len(line[0]));
    }
  }

  /** `ix` describes exactly `text`. */
  ghost predicate Describes(ix: LineIndex, text: string) {
    Tabulates(ix, Lines(text))
  }

  ghost predicate Tabulates(ix: LineIndex, lines: seq<string>) {
    && |lines| > 0
    && StartsOf(ix.lineStarts, lines)
    && WideOf(ix.wideChars, lines, |lines|)
    && ix.len == ByteEnd(lines)
  }

  ghost predicate StartsOf(starts: seq<nat>, lines: seq<string>) {
    |starts| == |lines| && forall i :: 0 <= i < |lines| ==> starts[i] == ByteStart(lines, i)
  }

  /** The wide characters of the first `full` lines, and of no other. */
  ghost predicate WideOf(wide: map<nat, seq<WideChar>>, lines: seq<string>, full: nat) {
    && full <= |lines|
    && (forall i :: i in wide ==> i < full && wide[i] != [])
    && (forall i :: 0 <= i < full ==> WideOn(wide, i) == WideFrom(lines[i], 0))
  }

  /** The wide characters of a line; a pure-ASCII line has no entry. */
  function WideOn(wide: map<nat, seq<WideChar>>, line: nat): seq<WideChar> {
    if line in wide then wide[line] else []
  }

  /** The state of the pass: what is known after the characters making `lines`. */
  ghost predicate Scanned(starts: seq<nat>, wide: map<nat, seq<WideChar>>, current: seq<WideChar>,
                          lineStart: nat, offset: nat, lines: seq<string>) {
    && |lines| > 0
    && StartsOf(starts, lines) && WideOf(wide, lines, |lines| - 1)
    && current == WideFrom(lines[|lines| - 1], 0)
    && lineStart == ByteStart(lines, |lines| - 1)
    && offset == ByteEnd(lines)
  }

  /** `LineIndex::new`: one pass over the characters with their byte offsets. */
  method New(text: string) returns (ix: LineIndex)
    ensures Describes(ix, text)
  {
    var lineStarts: seq<nat> := [0];
    var wideChars: map<nat, seq<WideChar>> := map[];
    var line: nat, lineStart: nat, offset: nat := 0, 0, 0;
    var currentWide: seq<WideChar> := [];
    ghost var lines := [""];
    hide Scanned, Tabulates, Utf8Len, Utf16Len;
    ScanStart();
    for n := 0 to |text|
      invariant lines == Lines(text[..n]) && line == |lines| - 1
      invariant Scanned(lineStarts, wideChars, currentWide, lineStart, offset, lines)
      invariant lineStart <= offset
    {
      var ch := text[n];
      assert text[..n + 1][..n] == text[..n];
      if ch == '\n' {
        ScanNewline(lineStarts, wideChars, currentWide, lineStart, offset, lines);
        if currentWide != [] {
          wideChars := wideChars[line := currentWide];
          currentWide := [];
        }
        line := line + 1;
        lineStart := offset + 1;
        lineStarts := lineStarts + [lineStart];
      } else {
        ScanChar(lineStarts, wideChars, currentWide, lineStart, offset, lines, ch);
        if !IsAscii(ch) {
          currentWide := currentWide + [WideChar(offset - lineStart, Utf8Len(ch), Utf16Len(ch))];
        }
      }
      lines := AddChar(lines, ch);
      offset := offset + Utf8Len(ch);
    }
    assert text[..|text|] == text;
    ScanEnd(lineStarts, wideChars, currentWide, lineStart, offset, lines);
    if currentWide != [] {
      wideChars := wideChars[line := currentWide];
    }
    ix := LineIndex(lineStarts, wideChars, offset);
  }

  lemma ScanEnd(starts: seq<nat>, wide: map<nat, seq<WideChar>>, current: seq<WideChar>,
                lineStart: nat, offset: nat, lines: seq<string>)
    requires Scanned(starts, wide, current, lineStart, offset, lines)
    ensures var all := if current == [] then wide else wide[|lines| - 1 := current];
            Tabulates(LineIndex(starts, all, offset), lines)
  {
    CloseLine(wide, lines);
  }

  lemma ScanStart()
    ensures Scanned([0], map[], [], 0, 0, [""])
  {
  }

  lemma ScanNewline(starts: seq<nat>, wide: map<nat, seq<WideChar>>, current: seq<WideChar>,
                    lineStart: nat, offset: nat, lines: seq<string>)
    requires Scanned(starts, wide, current, lineStart, offset, lines)
    ensures Scanned(starts + [offset + 1], if current == [] then wide else wide[|lines| - 1 := current], [],
                    offset + 1, offset + 1, AddChar(lines, '\n'))
  {
    CloseLine(wide, lines);
    OpenLine(starts, lines);
    AddCharEnds(lines, '\n');
  }

  lemma ScanChar(starts: seq<nat>, wide: map<nat, seq<WideChar>>, current: seq<WideChar>,
                 lineStart: nat, offset: nat, lines: seq<string>, c: char)
    requires Scanned(starts, wide, current, lineStart, offset, lines) && c != '\n'
    ensures var more := if IsAscii(c) then [] else [WideChar(offset - lineStart, Utf8Len(c), Utf16Len(c))];
            Scanned(starts, wide, current + more, lineStart, offset + Utf8Len(c), AddChar(lines, c))
  {
    GrowLine(starts, lines, c);
    AddCharStarts(lines, c, |lines| - 1);
    AddCharEnds(lines, c);
  }

  /** A `\n` closes the current line: its wide characters enter the table. */
  lemma CloseLine(wide: map<nat, seq<WideChar>>, lines: seq<string>)
    requires |lines| > 0 && WideOf(wide, lines, |lines| - 1)
    ensures var last := |lines| - 1;
            var current := WideFrom(lines[last], 0);
            WideOf(if current == [] then wide else wide[last := current], lines, |lines|)
  {
  }

  lemma OpenLine(starts: seq<nat>, lines: seq<string>)
    requires |lines| > 0 && StartsOf(starts, lines)
    ensures StartsOf(starts + [ByteEnd(lines) + 1], AddChar(lines, '\n'))
    ensures ByteStart(AddChar(lines, '\n'), |lines|) == ByteEnd(lines) + 1
  {
    AddCharStarts(lines, '\n', |lines| - 1);
    forall i | 0 <= i < |lines|
      ensures ByteStart(AddChar(lines, '\n'), i) == ByteStart(lines, i)
    {
      AddCharStarts(lines, '\n', i);
    }
  }

  lemma GrowLine(starts: seq<nat>, lines: seq<string>, c: char)
    requires |lines| > 0 && StartsOf(starts, lines)
    requires c != '\n'
    ensures StartsOf(starts, AddChar(lines, c))
    ensures var last := |lines| - 1;
            WideFrom(AddChar(lines, c)[last], 0) == WideFrom(lines[last], 0)
               + (if IsAscii(c) then [] else [WideChar(Bytes(lines[last]), Utf8Len(c), Utf16Len(c))])
  {
    forall i | 0 <= i < |lines|
      ensures ByteStart(AddChar(lines, c), i) == ByteStart(lines, i)
    {
      AddCharStarts(lines, c, i);
    }
    WideFromSnoc(lines[|lines| - 1], c, 0);
  }

  // ---- column conversions ----

  /** What a `u32` addition does when it overflows: a build with overflow checks panics,
      any other wraps around. */
  datatype Build = Checked | Wrapping

  /** A `u32` addition; None is the panic. */
  function Add32(a: nat, b: nat, build: Build): Option<nat> {
    if a + b <= MAX_U32 then Some(a + b)
    else if build == Checked then None
    else Some(a + b - MAX_U32 - 1)
  }

  /** Bytes a character takes beyond its UTF-16 units. */
  function Surplus(wide: WideChar): nat {
    if wide.utf16Len <= wide.len then wide.len - wide.utf16Len else 0
  }

  /** UTF-16 column to byte column, character by character over the wide ones. */
  function ByteCol32(wide: seq<WideChar>, col: nat, build: Build): Option<nat> {
    if wide == [] || wide[0].start >= col then Some(col)
    else
      match Add32(col, Surplus(wide[0]), build)
      case None => None
      case Some(next) => ByteCol32(wide[1..], next, build)
  }

  /** The same without the limit of 32 bits: what the conversion is meant to give. */
  function ByteCol(wide: seq<WideChar>, col: int): int {
    if wide == [] || wide[0].start >= col then col
    else ByteCol(wide[1..], col + wide[0].len - wide[0].utf16Len)
  }

  /** Byte column to UTF-16 column: `col` loses the surplus of every wide
      character that starts before `colBytes`. */
  function Utf16Col(wide: seq<WideChar>, colBytes: int, col: int): int {
    if wide == [] || wide[0].start >= colBytes then col
    else Utf16Col(wide[1..], colBytes, col - (wide[0].len - wide[0].utf16Len))
  }

  /** Start of the wide character that `col` falls strictly inside, else `col`. */
  function Snap(wide: seq<WideChar>, col: int): int {
    if wide == [] then col
    else if wide[0].start < col < wide[0].start + wide[0].len then wide[0].start
    else Snap(wide[1..], col)
  }

  method Utf16ToByteCol(wide: seq<WideChar>, colUtf16: nat, build: Build) returns (col: Option<nat>)
    ensures col == ByteCol32(wide, colUtf16, build)
  {
    var running := colUtf16;
    for i := 0 to |wide|
      invariant ByteCol32(wide[i..], running, build) == ByteCol32(wide, colUtf16, build)
    {
      if wide[i].start >= running {
        return Some(running);
      }
      assert wide[i..][1..] == wide[i + 1..];
      match Add32(running, Surplus(wide[i]), build) {
        case None => return None;
        case Some(next) => running := next;
      }
    }
    col := Some(running);
  }

  method ByteToUtf16Col(wide: seq<WideChar>, colBytes: nat) returns (col: int)
    ensures col == Utf16Col(wide, colBytes, colBytes)
  {
    col := colBytes;
    for i := 0 to |wide|
      invariant Utf16Col(wide[i..], colBytes, col) == Utf16Col(wide, colBytes, colBytes)
    {
      if wide[i].start >= colBytes {
        return;
      }
      col := col - (wide[i].len - wide[i].utf16Len);
      assert wide[i..][1..] == wide[i + 1..];
    }
  }

  function Min(a: int, b: int): int {
    if a < b then a else b
  }

  /** Before the first wide character a column is its own answer. */
  lemma {:induction false} SnapBefore(line: string, base: nat, col: int)
    requires col <= base
    ensures Snap(WideFrom(line, base), col) == col && ByteCol(WideFrom(line, base), col) == col
  {
    if line != [] {
      SnapBefore(line[1..], base + Utf8Len(line[0]), col);
      if !IsAscii(line[0]) {
        WideFromHead(line, base);
      }
    }
  }

  /** The running column only grows, and by no more than the surplus bytes of the line. */
  lemma {:induction false} ByteColGrows(line: string, base: nat, col: int)
    ensures col <= ByteCol(WideFrom(line, base), col) <= col + Bytes(line) - Units(line, Utf16)
  {
    if line != [] {
      var c, rest, next := line[0], line[1..], base + Utf8Len(line[0]);
      UnitsShrink(rest);
      if IsAscii(c) {
        ByteColGrows(rest, next, col);
      } else {
        WideFromHead(line, base);
        ByteColGrows(rest, next, col + Utf8Len(c) - Utf16Len(c));
      }
    }
  }

  lemma UnitsShrink(s: string)
    ensures Units(s, Utf16) <= Bytes(s)
  {
  }

  // ---- the limit of 32 bits ----

  /** The guard: the column and the line's surplus bytes together fit 32 bits. */
  predicate Fits(line: string, col: nat, enc: Encoding) {
    enc == Utf16 ==> col + Bytes(line) - Units(line, Utf16) <= MAX_U32
  }

  lemma {:induction false} ByteCol32Before(line: string, base: nat, col: nat, build: Build)
    requires col <= base
    ensures ByteCol32(WideFrom(line, base), col, build) == Some(col)
  {
    if line != [] {
      ByteCol32Before(line[1..], base + Utf8Len(line[0]), col, build);
      if !IsAscii(line[0]) {
        WideFromHead(line, base);
      }
    }
  }

  /** The sum overflows exactly when the guard fails. When it does not, the conversion
      gives what it is meant to; when it does, a wrapping build arrives at column 0 or 1. */
  lemma {:induction false} OverflowIsExact(line: string, base: nat, col: nat, build: Build)
    requires col <= MAX_U32 && base + Bytes(line) <= MAX_U32
    ensures var wide := WideFrom(line, base);
            && ByteCol(wide, col) >= 0
            && (ByteCol32(wide, col, Checked).None? <==> !Fits(line, col, Utf16))
            && (Fits(line, col, Utf16) ==> ByteCol32(wide, col, build) == Some(ByteCol(wide, col)))
            && (!Fits(line, col, Utf16) && build == Wrapping ==>
                  ByteCol32(wide, col, build).Some? && ByteCol32(wide, col, build).value <= 1)
  {
    UnitsShrink(line);
    if line != [] {
      var c, rest, next := line[0], line[1..], base + Utf8Len(line[0]);
      UnitsShrink(rest);
      if IsAscii(c) {
        OverflowIsExact(rest, next, col, build);
      } else {
        WideFromHead(line, base);
        var sum := col + Utf8Len(c) - Utf16Len(c);
        if base < col && sum <= MAX_U32 {
          OverflowIsExact(rest, next, sum, build);
        } else if base < col {
          ByteColGrows(rest, next, sum);
          ByteCol32Before(rest, next, sum - MAX_U32 - 1, build);
        }
      }
    }
  }

  /** How many whole characters of its line the code puts before a column. */
  function Lands(line: string, col: nat, enc: Encoding, build: Build): (k: Option<nat>)
    ensures k.Some? ==> k.value <= |line|
  {
    match if enc == Utf8 then Some(col) else ByteCol32(WideFrom(line, 0), col, build)
    case None => None
    case Some(bytes) => Some(Floor(line, bytes, Utf8))
  }

  /** A column lands where it should, on the largest cut at or before it, exactly when
      the guard holds. Otherwise it should land at the end of the line; a checked build
      panics, and a wrapping one lands at one of the first two cuts, before that end. */
  lemma LandsRight(line: string, col: nat, enc: Encoding, build: Build)
    requires col <= MAX_U32 && Bytes(line) <= MAX_U32
    ensures Lands(line, col, enc, build) == Some(Floor(line, col, enc)) <==> Fits(line, col, enc)
    ensures !Fits(line, col, enc) ==>
              && Floor(line, col, enc) == |line|
              && (if build == Checked then Lands(line, col, enc, build) == None
                  else Lands(line, col, enc, build).Some? && Lands(line, col, enc, build).value <= 1
                       && Lands(line, col, enc, build).value < |line|)
  {
    if enc == Utf16 {
      OverflowIsExact(line, 0, col, build);
      if Fits(line, col, enc) {
        SameCut(line, col);
      } else {
        FillsLine(line, col);
        if build == Wrapping {
          NearStart(line, ByteCol32(WideFrom(line, 0), col, build).value);
        }
      }
    }
  }

  /** Converting the column first and counting bytes then finds the same cut. */
  lemma SameCut(line: string, col: nat)
    requires ByteCol(WideFrom(line, 0), col) >= 0
    ensures Floor(line, ByteCol(WideFrom(line, 0), col), Utf8) == Floor(line, col, Utf16)
  {
    hide WideFrom, Floor, Units, Snap, ByteCol;
    var bytes := ByteCol(WideFrom(line, 0), col);
    ColumnFloors(line, 0, col, Utf16);
    ColumnFloors(line, 0, bytes, Utf8);
    var i, j := Floor(line, bytes, Utf8), Floor(line, col, Utf16);
    if i < j {
      UnitsPrefix(line, i, j, Utf8);
    } else {
      UnitsPrefix(line, j, i, Utf8);
    }
  }

  lemma FillsLine(line: string, col: nat)
    requires Bytes(line) <= MAX_U32 && !Fits(line, col, Utf16)
    ensures Floor(line, col, Utf16) == |line|
  {
    hide Floor, Units;
    assert line[..|line|] == line;
    FloorAtCut(line, |line|, Utf16);
    FloorMonotone(line, Units(line, Utf16), col, Utf16);
  }

  lemma NearStart(line: string, bytes: nat)
    requires bytes <= 1 && Bytes(line) > Units(line, Utf16)
    ensures Floor(line, bytes, Utf8) <= 1 && Floor(line, bytes, Utf8) < |line|
  {
    if |line| == 1 {
      assert line[1..] == [];
    }
  }

  /** The byte column `offset` arrives at on a line beginning at byte `base`. */
  function Resolve(line: string, base: nat, col: nat, enc: Encoding): int {
    var wide := WideFrom(line, base);
    var converted := if enc == Utf8 then base + col else ByteCol(wide, base + col);
    Snap(wide, Min(converted, base + Bytes(line)))
  }

  /** The heart of the module: without the limit of 32 bits, the byte column found for
      any column is the largest character cut of the line at or before it. */
  lemma {:induction false} ColumnFloors(line: string, base: nat, col: nat, enc: Encoding)
    ensures Resolve(line, base, col, enc) == base + Bytes(line[..Floor(line, col, enc)])
  {
    if line != [] {
      if col >= Width(line[0], enc) {
        ColumnSkips(line, base, col, enc);
        ColumnFloors(line[1..], base + Utf8Len(line[0]), col - Width(line[0], enc), enc);
        UnitsTake(line, Floor(line, col, enc), Utf8);
      } else {
        ColumnStays(line, base, col, enc);
        assert line[..0] == [];
      }
    }
  }

  /** A column past the first character resolves on the rest of the line. */
  lemma ColumnSkips(line: string, base: nat, col: nat, enc: Encoding)
    requires line != [] && col >= Width(line[0], enc)
    ensures Resolve(line, base, col, enc)
            == Resolve(line[1..], base + Utf8Len(line[0]), col - Width(line[0], enc), enc)
  {
    var c, rest, next, left := line[0], line[1..], base + Utf8Len(line[0]), col - Width(line[0], enc);
    assert Bytes(line) == Utf8Len(c) + Bytes(rest);
    hide Units;
    ByteColGrows(rest, next, next + left);
    if !IsAscii(c) {
      WideFromHead(line, base);
    }
  }

  /** A column inside the first character goes back to where that one starts. */
  lemma ColumnStays(line: string, base: nat, col: nat, enc: Encoding)
    requires line != [] && col < Width(line[0], enc)
    ensures Resolve(line, base, col, enc) == base
  {
    var c, rest, next := line[0], line[1..], base + Utf8Len(line[0]);
    SnapBefore(line, base, base);
    if !IsAscii(c) {
      WideFromHead(line, base);
      SnapBefore(rest, next, next - 1);
    }
  }

  /** The conversion back agrees at every character cut. */
  lemma {:induction false} ColumnNarrows(line: string, base: nat, k: nat, col: int)
    requires k <= |line|
    ensures Utf16Col(WideFrom(line, base), base + Bytes(line[..k]), col)
            == col - Bytes(line[..k]) + Units(line[..k], Utf16)
  {
    if line != [] {
      var rest, next := line[1..], base + Utf8Len(line[0]);
      if !IsAscii(line[0]) {
        WideFromHead(line, base);
      }
      if k == 0 {
        NarrowBefore(line, base, base, col);
        assert line[..0] == [];
      } else {
        var narrowed := if IsAscii(line[0]) then col else col - (Utf8Len(line[0]) - Utf16Len(line[0]));
        ColumnNarrows(rest, next, k - 1, narrowed);
        UnitsTake(line, k, Utf8);
        UnitsTake(line, k, Utf16);
      }
    }
  }

  lemma {:induction false} NarrowBefore(line: string, base: nat, colBytes: int, col: int)
    requires colBytes <= base
    ensures Utf16Col(WideFrom(line, base), colBytes, col) == col
  {
    if line != [] {
      NarrowBefore(line[1..], base + Utf8Len(line[0]), colBytes, col);
      if !IsAscii(line[0]) {
        WideFromHead(line, base);
      }
    }
  }

  // ---- positions and offsets ----

  /** Byte offset just past the last character of `line`, without its newline. */
  function LineEnd(ix: LineIndex, line: nat): int
    requires line < |ix.lineStarts|
  {
    if line + 1 < |ix.lineStarts| then ix.lineStarts[line + 1] - 1 else ix.len
  }

  /** What `offset` comes to: no such line, a panic, or a byte offset. */
  datatype Found = NoLine | Overflow | At(offset: int)

  /** `LineIndex::offset`: none past the last line, clamped to the end of its line. */
  function Offset(ix: LineIndex, p: LinePosition, enc: Encoding, build: Build): Found {
    if p.line >= |ix.lineStarts| then NoLine else
    var wide := WideOn(ix.wideChars, p.line);
    var maxCol := LineEnd(ix, p.line) - ix.lineStarts[p.line];
    match if enc == Utf8 then Some(p.character) else ByteCol32(wide, p.character, build)
    case None => Overflow
    case Some(colBytes) => At(ix.lineStarts[p.line] + Snap(wide, Min(colBytes, maxCol)))
  }

  /** How many lines start at or before `offset`. */
  function PartitionPoint(starts: seq<nat>, offset: nat): (n: nat)
    ensures n <= |starts|
    ensures n > 0 ==> starts[n - 1] <= offset
    ensures forall i :: n <= i < |starts| ==> starts[i] > offset
  {
    if starts == [] then 0
    else if starts[|starts| - 1] <= offset then |starts|
    else PartitionPoint(starts[..|starts| - 1], offset)
  }

  /** `LineIndex::position`. None stands for the subtraction on unsigned columns
      going below zero, which can only happen inside a character. */
  function Position(ix: LineIndex, offset: nat, enc: Encoding): Option<LinePosition> {
    var at := Min(offset, ix.len);
    if at < 0 then None else
    var n := PartitionPoint(ix.lineStarts, at);
    if n == 0 then None else
    var colBytes := at - ix.lineStarts[n - 1];
    var character := if enc == Utf8 then colBytes
                     else Utf16Col(WideOn(ix.wideChars, n - 1), colBytes, colBytes);
    if character < 0 then None else Some(LinePosition(n - 1, character))
  }

  /** Index in `text` of the character cut a client position stands for. */
  function CharAt(text: string, p: LinePosition, enc: Encoding): (m: nat)
    requires p.line < |Lines(text)|
    ensures m <= |text|
  {
    var k := Floor(Lines(text)[p.line], p.character, enc);
    LinePrefix(text, p.line, k);
    CharStart(Lines(text), p.line) + k
  }

  /** Index in `text` of the cut at which the code arrives; None is a panic. */
  function CutAt(text: string, p: LinePosition, enc: Encoding, build: Build): (m: Option<nat>)
    requires p.line < |Lines(text)|
    ensures m.Some? ==> m.value <= |text|
  {
    match Lands(Lines(text)[p.line], p.character, enc, build)
    case None => None
    case Some(k) =>
      LinePrefix(text, p.line, k);
      Some(CharStart(Lines(text), p.line) + k)
  }

  /** The guard for a position in a text: a line it has not is no trouble. */
  predicate FitsAt(text: string, p: LinePosition, enc: Encoding) {
    p.line < |Lines(text)| ==> Fits(Lines(text)[p.line], p.character, enc)
  }

  /** The `u32` fields hold what they should, and so does the table. */
  ghost predicate In32(text: string, p: LinePosition) {
    p.character <= MAX_U32 && Bytes(text) <= MAX_U32
  }

  /** What the table says of a line. */
  lemma LineTable(ix: LineIndex, lines: seq<string>, i: nat)
    requires Tabulates(ix, lines) && i < |lines|
    ensures |ix.lineStarts| == |lines| && ix.lineStarts[i] == ByteStart(lines, i)
    ensures WideOn(ix.wideChars, i) == WideFrom(lines[i], 0)
    ensures LineEnd(ix, i) - ix.lineStarts[i] == Bytes(lines[i])
  {
    hide WideFrom, Units, Bytes;
    assert |ix.lineStarts| == |lines| && ix.lineStarts[i] == ByteStart(lines, i);
    WideTable(ix.wideChars, lines, i);
    hide WideOf, WideOn;
    hide ByteStart;
    ByteStartNext(lines, i);
    if i + 1 < |lines| {
      assert ix.lineStarts[i + 1] == ByteStart(lines, i + 1);
    }
  }

  lemma ByteStartNext(lines: seq<string>, i: nat)
    requires i < |lines|
    ensures i + 1 < |lines| ==> ByteStart(lines, i + 1) == ByteStart(lines, i) + Bytes(lines[i]) + 1
    ensures i + 1 == |lines| ==> ByteEnd(lines) == ByteStart(lines, i) + Bytes(lines[i])
  {
    hide Units;
  }

  lemma WideTable(wide: map<nat, seq<WideChar>>, lines: seq<string>, i: nat)
    requires WideOf(wide, lines, |lines|) && i < |lines|
    ensures WideOn(wide, i) == WideFrom(lines[i], 0)
  {
    hide WideFrom;
  }

  /** On an existing line `offset` finds the cut its column lands on. */
  lemma OffsetOnLine(ix: LineIndex, lines: seq<string>, p: LinePosition, enc: Encoding, build: Build)
    requires Tabulates(ix, lines) && p.line < |lines|
    ensures Offset(ix, p, enc, build)
            == match Lands(lines[p.line], p.character, enc, build)
               case None => Overflow
               case Some(k) => At(ByteAt(lines, p.line, k))
  {
    LineTable(ix, lines, p.line);
    hide Tabulates, WideOn, WideFrom, ByteCol32, Floor, Snap, Units, LineEnd;
    match if enc == Utf8 then Some(p.character) else ByteCol32(WideFrom(lines[p.line], 0), p.character, build)
    case None =>
    case Some(bytes) => ColumnFloors(lines[p.line], 0, bytes, Utf8);
  }

  lemma LineIsShorter(text: string, i: nat)
    requires i < |Lines(text)|
    ensures Bytes(Lines(text)[i]) <= Bytes(text)
  {
    hide Lines, Units;
    var line := Lines(text)[i];
    LinePrefix(text, i, |line|);
    assert line[..|line|] == line && text[..|text|] == text;
    UnitsPrefix(text, CharStart(Lines(text), i) + |line|, |text|, Utf8);
  }

  /** Whatever the column, `offset` answers with the byte offset of the cut it arrives
      at, so it never splits a character, and with none exactly past the last line. */
  lemma OffsetIsCut(ix: LineIndex, text: string, p: LinePosition, enc: Encoding, build: Build)
    requires Describes(ix, text)
    ensures Offset(ix, p, enc, build)
            == if p.line >= |Lines(text)| then NoLine
               else match CutAt(text, p, enc, build)
                    case None => Overflow
                    case Some(m) => At(Bytes(text[..m]))
    ensures Offset(ix, p, enc, build).At? ==>
              Offset(ix, p, enc, build).offset >= 0 && IsBoundary(text, Offset(ix, p, enc, build).offset)
  {
    var lines := Lines(text);
    if p.line < |lines| {
      hide Lines, Units, Floor, Tabulates, Offset, Lands;
      OffsetOnLine(ix, lines, p, enc, build);
      match Lands(lines[p.line], p.character, enc, build)
      case None =>
      case Some(k) => LinePrefix(text, p.line, k);
    }
  }

  /** Where a position arrives against where it belongs. */
  lemma CutIsRight(text: string, p: LinePosition, enc: Encoding, build: Build)
    requires p.line < |Lines(text)| && In32(text, p)
    ensures CutAt(text, p, enc, build) == Some(CharAt(text, p, enc)) <==> FitsAt(text, p, enc)
    ensures !FitsAt(text, p, enc) ==>
              if build == Checked then CutAt(text, p, enc, build) == None
              else CutAt(text, p, enc, build).Some? && CutAt(text, p, enc, build).value < CharAt(text, p, enc)
                   && CutAt(text, p, enc, build).value <= CharStart(Lines(text), p.line) + 1
  {
    hide Lines, Units, Floor, Lands;
    LineIsShorter(text, p.line);
    LandsRight(Lines(text)[p.line], p.character, enc, build);
  }

  /** `offset` gives the byte offset of the largest character cut of its line at or
      before the column, exactly when the column and the line's surplus bytes fit 32 bits
      together. Past that a checked build panics, and a wrapping one answers about the
      start of the line instead of its end. */
  lemma OffsetFloors(ix: LineIndex, text: string, p: LinePosition, enc: Encoding, build: Build)
    requires Describes(ix, text) && In32(text, p) && p.line < |Lines(text)|
    ensures Offset(ix, p, enc, build) == At(Bytes(text[..CharAt(text, p, enc)])) <==> FitsAt(text, p, enc)
    ensures !FitsAt(text, p, enc) && build == Checked ==> Offset(ix, p, enc, build) == Overflow
    ensures !FitsAt(text, p, enc) && build == Wrapping ==>
              Offset(ix, p, enc, build).At? && Offset(ix, p, enc, build).offset < Bytes(text[..CharAt(text, p, enc)])
  {
    hide Lines, Units, Tabulates, Offset, CutAt, CharAt, FitsAt;
    OffsetIsCut(ix, text, p, enc, build);
    CutIsRight(text, p, enc, build);
    if !FitsAt(text, p, enc) && build == Wrapping {
      UnitsPrefix(text, CutAt(text, p, enc, build).value, CharAt(text, p, enc), Utf8);
    }
  }

  /** One wide character and the largest column a client can send: the position belongs
      at byte 2, the end of the line; a wrapping build answers byte 0. */
  lemma LargestColumnMissesTheEnd(ix: LineIndex)
    requires Describes(ix, "\U{E9}")
    ensures var p := LinePosition(0, MAX_U32);
            && CharAt("\U{E9}", p, Utf16) == 1 && Bytes("\U{E9}"[..1]) == 2
            && Offset(ix, p, Utf16, Wrapping) == At(0)
            && Offset(ix, p, Utf16, Checked) == Overflow
  {
    var text, p := "\U{E9}", LinePosition(0, MAX_U32);
    assert text == [text[0]] && text[..1] == text && text[..0] == [];
    OneLetter(text[0]);
    hide Lines, Units, Tabulates, Offset, Floor, Lands;
    FillsLine(text, MAX_U32);
    assert CharStart([text], 0) == 0;
    OffsetFloors(ix, text, p, Utf16, Wrapping);
    OffsetFloors(ix, text, p, Utf16, Checked);
    OffsetIsCut(ix, text, p, Utf16, Wrapping);
    CutIsRight(text, p, Utf16, Wrapping);
  }

  lemma OneLetter(c: char)
    requires c as int == 0xe9
    ensures Lines([c]) == [[c]] && Bytes([c]) == 2 && Units([c], Utf16) == 1 && Bytes([]) == 0
  {
    assert [c][..0] == [] && [c][1..] == [];
    assert Lines([]) == [""] && Lines([c]) == AddChar(Lines([c][..0]), c);
    assert [""][..0] == [] && [] + [c] == [c];
    assert Units([c], Utf8) == Utf8Len(c) + Units([c][1..], Utf8);
    assert Units([c], Utf16) == Utf16Len(c) + Units([c][1..], Utf16);
  }

  /** The line found for a byte offset inside line `i` is line `i`. */
  lemma FindsLine(ix: LineIndex, lines: seq<string>, i: nat, col: nat)
    requires Tabulates(ix, lines) && i < |lines| && col <= Bytes(lines[i])
    ensures ByteStart(lines, i) + col <= ix.len
    ensures PartitionPoint(ix.lineStarts, ByteStart(lines, i) + col) == i + 1
  {
    hide Units, Bytes, ByteStart;
    if i < |lines| - 1 {
      StartsIncrease(lines, i, |lines| - 1);
    }
    var n := PartitionPoint(ix.lineStarts, ByteStart(lines, i) + col);
    if n > i + 1 {
      StartsIncrease(lines, i, n - 1);
    }
  }

  lemma PrefixBytes(line: string, k: nat)
    requires k <= |line|
    ensures Bytes(line[..k]) <= Bytes(line)
    ensures k < |line| ==> Bytes(line[..k]) + Utf8Len(line[k]) <= Bytes(line)
  {
    assert line[..|line|] == line;
    UnitsPrefix(line, k, |line|, Utf8);
    if k < |line| {
      assert line[..k + 1] == line[..k] + [line[k]];
      UnitsConcat(line[..k], [line[k]], Utf8);
      UnitsSingle(line[k], Utf8);
      UnitsPrefix(line, k + 1, |line|, Utf8);
    }
  }

  /** `position` of an offset on line `i`, once the line has been found. */
  lemma PositionOnLine(ix: LineIndex, lines: seq<string>, i: nat, col: nat, enc: Encoding)
    requires Tabulates(ix, lines) && i < |lines| && col <= Bytes(lines[i])
    ensures var character := if enc == Utf8 then col else Utf16Col(WideFrom(lines[i], 0), col, col);
            Position(ix, ByteStart(lines, i) + col, enc)
            == if character < 0 then None else Some(LinePosition(i, character))
  {
    hide Units, ByteStart, WideFrom, Utf16Col, ByteEnd, PartitionPoint;
    FindsLine(ix, lines, i, col);
  }

  /** At a character cut `position` never underflows: it gives the line and the
      length of the part before the cut. */
  lemma PositionAtCut(ix: LineIndex, lines: seq<string>, i: nat, k: nat, enc: Encoding)
    requires Tabulates(ix, lines) && i < |lines| && k <= |lines[i]|
    ensures Position(ix, ByteAt(lines, i, k), enc) == Some(LinePosition(i, Units(lines[i][..k], enc)))
  {
    hide Units, Tabulates, Position, WideFrom, Utf16Col;
    PrefixBytes(lines[i], k);
    PositionOnLine(ix, lines, i, Bytes(lines[i][..k]), enc);
    ColumnNarrows(lines[i], 0, k, Bytes(lines[i][..k]));
  }

  /** What `position` does `d` bytes into the character after the cut: under
      UTF-16 the surplus of that whole character has already been taken off, so
      the column is wrong, and it underflows exactly when it would be negative. */
  lemma PositionInside(ix: LineIndex, lines: seq<string>, i: nat, k: nat, d: nat)
    requires Tabulates(ix, lines) && i < |lines| && k < |lines[i]|
    requires 0 < d < Utf8Len(lines[i][k])
    ensures var column := ColumnInside(lines[i], k, d);
            Position(ix, ByteAt(lines, i, k) + d, Utf16)
            == if column < 0 then None else Some(LinePosition(i, column))
  {
    hide Units, Bytes, Utf8Len, Utf16Len, Tabulates, Position, ColumnInside, WideFrom, Utf16Col;
    InsideColumn(lines[i], k, d);
    PositionOnLine(ix, lines, i, Bytes(lines[i][..k]) + d, Utf16);
  }

  function ColumnInside(line: string, k: nat, d: nat): int
    requires k < |line|
  {
    Units(line[..k], Utf16) + d - (Utf8Len(line[k]) - Utf16Len(line[k]))
  }

  lemma InsideColumn(line: string, k: nat, d: nat)
    requires k < |line| && 0 < d < Utf8Len(line[k])
    ensures var col := Bytes(line[..k]) + d;
            col <= Bytes(line) && Utf16Col(WideFrom(line, 0), col, col) == ColumnInside(line, k, d)
  {
    hide Units, Utf8Len, Utf16Len, WideFrom, Utf16Col;
    PrefixBytes(line, k);
    NarrowsInside(line, 0, k, d, Bytes(line[..k]) + d);
  }

  lemma {:induction false} NarrowsInside(line: string, base: nat, k: nat, d: nat, col: int)
    requires k < |line| && 0 < d < Utf8Len(line[k])
    ensures Utf16Col(WideFrom(line, base), base + Bytes(line[..k]) + d, col)
            == col - Bytes(line[..k]) + Units(line[..k], Utf16) - Utf8Len(line[k]) + Utf16Len(line[k])
  {
    var rest, next := line[1..], base + Utf8Len(line[0]);
    var narrowed := if IsAscii(line[0]) then col else col - (Utf8Len(line[0]) - Utf16Len(line[0]));
    if !IsAscii(line[0]) {
      WideFromHead(line, base);
    }
    if k == 0 {
      assert line[..0] == [];
      NarrowBefore(rest, next, base + d, narrowed);
    } else {
      NarrowsInside(rest, next, k - 1, d, narrowed);
      UnitsTake(line, k, Utf8);
      UnitsTake(line, k, Utf16);
    }
  }

  /** The column of a cut always satisfies the guard. */
  lemma CutFits(line: string, k: nat, enc: Encoding)
    requires k <= |line| && Bytes(line) <= MAX_U32
    ensures Fits(line, Units(line[..k], enc), enc) && Units(line[..k], enc) <= MAX_U32
  {
    hide Units;
    assert line[..|line|] == line;
    UnitsPrefix(line, k, |line|, enc);
    UnitsShrink(line);
  }

  /** The cut at line `i`, character `k` survives the trip to a position and back. */
  lemma RoundTripOnLine(ix: LineIndex, lines: seq<string>, i: nat, k: nat, enc: Encoding, build: Build)
    requires Tabulates(ix, lines) && i < |lines| && k <= |lines[i]| && Bytes(lines[i]) <= MAX_U32
    ensures var p := Position(ix, ByteAt(lines, i, k), enc);
            p.Some? && Offset(ix, p.value, enc, build) == At(ByteAt(lines, i, k))
  {
    hide Units, Tabulates, Floor, Offset, Position, Fits, Lands;
    PositionAtCut(ix, lines, i, k, enc);
    FloorAtCut(lines[i], k, enc);
    CutFits(lines[i], k, enc);
    LandsRight(lines[i], Units(lines[i][..k], enc), enc, build);
    OffsetOnLine(ix, lines, LinePosition(i, Units(lines[i][..k], enc)), enc, build);
  }

  /** Round trip: at every character boundary of any text, its end included, and
      in both encodings and either build, `offset(position(o))` is `o`. */
  lemma RoundTrip(ix: LineIndex, text: string, o: nat, enc: Encoding, build: Build)
    requires Describes(ix, text) && IsBoundary(text, o) && Bytes(text) <= MAX_U32
    ensures Position(ix, o, enc).Some?
    ensures Offset(ix, Position(ix, o, enc).value, enc, build) == At(o)
  {
    hide Lines, Units, Bytes, Tabulates, Position, Offset, ByteAt;
    var m :| 0 <= m <= |text| && Bytes(text[..m]) == o;
    var i, k := CutOnLine(text, m);
    LineIsShorter(text, i);
    RoundTripOnLine(ix, Lines(text), i, k, enc, build);
  }

  /** `position(offset(p))` keeps the line, never passes `p`, and is a fixed point,
      whenever `offset` answers at all: always in a wrapping build, and in a checked one
      exactly under the guard. */
  lemma Normalizes(ix: LineIndex, text: string, p: LinePosition, enc: Encoding, build: Build)
    requires Describes(ix, text) && In32(text, p) && p.line < |Lines(text)|
    ensures Offset(ix, p, enc, build).At? <==> build == Wrapping || FitsAt(text, p, enc)
    ensures var found := Offset(ix, p, enc, build);
            found.At? ==>
              && found.offset >= 0
              && var back := Position(ix, found.offset, enc);
                 && back.Some? && back.value.line == p.line && back.value.character <= p.character
                 && Offset(ix, back.value, enc, build) == found
  {
    hide Lines, Units, Tabulates, Floor, Offset, Position, Lands, Fits;
    var line := Lines(text)[p.line];
    LineIsShorter(text, p.line);
    OffsetOnLine(ix, Lines(text), p, enc, build);
    LandsRight(line, p.character, enc, build);
    match Lands(line, p.character, enc, build)
    case None =>
    case Some(k) =>
      FloorIsLargestCut(line, p.character, enc);
      UnitsPrefix(line, k, Floor(line, p.character, enc), enc);
      PositionAtCut(ix, Lines(text), p.line, k, enc);
      RoundTripOnLine(ix, Lines(text), p.line, k, enc, build);
  }

  predicate AtMost(p: LinePosition, q: LinePosition) {
    p.line < q.line || (p.line == q.line && p.character <= q.character)
  }

  /** The cut a position stands for moves forward with the position. */
  lemma CharAtMonotone(text: string, p: LinePosition, q: LinePosition, enc: Encoding)
    requires AtMost(p, q) && q.line < |Lines(text)|
    ensures CharAt(text, p, enc) <= CharAt(text, q, enc)
  {
    if p.line == q.line {
      FloorMonotone(Lines(text)[p.line], p.character, q.character, enc);
    } else {
      StartsIncrease(Lines(text), p.line, q.line);
    }
  }

  /** So does the cut the code arrives at, when the later position satisfies the guard
      or lies on a later line. */
  lemma CutMonotone(text: string, p: LinePosition, q: LinePosition, enc: Encoding, build: Build)
    requires AtMost(p, q) && q.line < |Lines(text)| && In32(text, p) && In32(text, q)
    requires FitsAt(text, q, enc) || p.line < q.line
    ensures CutAt(text, p, enc, build).Some? && CutAt(text, q, enc, build).Some? ==>
              CutAt(text, p, enc, build).value <= CutAt(text, q, enc, build).value
  {
    hide Lines, Units, Floor, Lands;
    if p.line == q.line {
      CutIsRight(text, p, enc, build);
      CutIsRight(text, q, enc, build);
      CharAtMonotone(text, p, q, enc);
    } else {
      StartsIncrease(Lines(text), p.line, q.line);
    }
  }

  /** `offset` is monotone in (line, column) up to a position that satisfies the guard. */
  lemma OffsetMonotone(ix: LineIndex, text: string, p: LinePosition, q: LinePosition, enc: Encoding, build: Build)
    requires Describes(ix, text) && AtMost(p, q) && In32(text, p) && In32(text, q)
    requires FitsAt(text, q, enc) || p.line < q.line
    ensures Offset(ix, p, enc, build) == NoLine ==> Offset(ix, q, enc, build) == NoLine
    ensures Offset(ix, p, enc, build).At? && Offset(ix, q, enc, build).At? ==>
              Offset(ix, p, enc, build).offset <= Offset(ix, q, enc, build).offset
  {
    hide Lines, Units, Tabulates, CutAt, Offset, FitsAt;
    OffsetIsCut(ix, text, p, enc, build);
    OffsetIsCut(ix, text, q, enc, build);
    if Offset(ix, p, enc, build).At? && Offset(ix, q, enc, build).At? {
      CutMonotone(text, p, q, enc, build);
      UnitsPrefix(text, CutAt(text, p, enc, build).value, CutAt(text, q, enc, build).value, Utf8);
    }
  }

  /** And only up to such a position: in a wrapping build some earlier position resolves
      behind one that does not satisfy it. */
  lemma MonotoneExactlyWhenItFits(ix: LineIndex, text: string, q: LinePosition, enc: Encoding)
    requires Describes(ix, text) && In32(text, q) && q.line < |Lines(text)|
    ensures Offset(ix, q, enc, Wrapping).At?
    ensures (forall p :: AtMost(p, q) && In32(text, p) ==>
               Offset(ix, p, enc, Wrapping).At?
               && Offset(ix, p, enc, Wrapping).offset <= Offset(ix, q, enc, Wrapping).offset)
            <==> FitsAt(text, q, enc)
  {
    hide Lines, Units, Tabulates, Offset, Lands, FitsAt;
    Normalizes(ix, text, q, enc, Wrapping);
    if FitsAt(text, q, enc) {
      forall p | AtMost(p, q) && In32(text, p)
        ensures Offset(ix, p, enc, Wrapping).At?
        ensures Offset(ix, p, enc, Wrapping).offset <= Offset(ix, q, enc, Wrapping).offset
      {
        Normalizes(ix, text, p, enc, Wrapping);
        OffsetMonotone(ix, text, p, q, enc, Wrapping);
      }
    } else {
      var p := EndOfLine(text, q, enc);
      OffsetFloors(ix, text, p, enc, Wrapping);
      OffsetFloors(ix, text, q, enc, Wrapping);
    }
  }

  /** The position at the end of the line of one that does not satisfy the guard. */
  lemma EndOfLine(text: string, q: LinePosition, enc: Encoding) returns (p: LinePosition)
    requires In32(text, q) && q.line < |Lines(text)| && !FitsAt(text, q, enc)
    ensures p.line == q.line && AtMost(p, q) && In32(text, p) && FitsAt(text, p, enc)
    ensures CharAt(text, p, enc) == CharAt(text, q, enc)
  {
    hide Lines, Units, Floor;
    var line := Lines(text)[q.line];
    LineIsShorter(text, q.line);
    CutFits(line, |line|, enc);
    assert line[..|line|] == line;
    p := LinePosition(q.line, Units(line, enc));
    FloorAtCut(line, |line|, enc);
    FillsLine(line, q.character);
  }
}
