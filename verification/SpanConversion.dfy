/** Converting index ranges into the encoding the client negotiated
    (crates/jabar-server/src/handlers.rs:170-212, 542-567, 726-740). */
module SpanConversion {
  import opened Text
  import opened Wrappers
  import opened LineIndex
  import opened Ranges

  /** How the index counted a document's columns. */
  datatype ColumnUnit = ColumnsUtf8 | ColumnsUtf16 | ColumnsUtf32

  /** A range as LSP sends it. */
  datatype Span = Span(start: LinePosition, end: LinePosition)

  /** UTF-32 is read as UTF-16. */
  function ReadAs(unit: ColumnUnit): Encoding {
    if unit == ColumnsUtf8 then Utf8 else Utf16
  }

  /** Where a position lands: on its own line, before the same whole characters,
      measured in the other unit. A line the text does not have is left alone. */
  function Converted(text: string, p: LinePosition, from: Encoding, to: Encoding): LinePosition {
    if p.line >= |Lines(text)| then p else
    var line := Lines(text)[p.line];
    LinePosition(p.line, Units(line[..Floor(line, p.character, from)], to))
  }

  /** Where the code puts it; None when the sum of the column conversion overflows in a
      build that checks. */
  function ConvertedBy(text: string, p: LinePosition, from: Encoding, to: Encoding,
                       build: Build): Option<LinePosition> {
    if p.line >= |Lines(text)| then Some(p) else
    var line := Lines(text)[p.line];
    match Lands(line, p.character, from, build)
    case None => None
    case Some(k) => Some(LinePosition(p.line, Units(line[..k], to)))
  }

  /** One end of a span: through the byte offset and back out. */
  function Convert(ix: LineIndex, ghost text: string, p: LinePosition, from: Encoding, to: Encoding, build: Build)
    : (q: Option<LinePosition>)
    requires Describes(ix, text)
    ensures q == ConvertedBy(text, p, from, to, build)
  {
    ConvertLands(ix, text, p, from, to, build);
    match Offset(ix, p, from, build)
    case NoLine => Some(p)
    case Overflow => None
    case At(offset) => Position(ix, offset, to)
  }

  lemma ConvertLands(ix: LineIndex, text: string, p: LinePosition, from: Encoding, to: Encoding, build: Build)
    requires Describes(ix, text)
    ensures Offset(ix, p, from, build) == NoLine <==> p.line >= |Lines(text)|
    ensures Offset(ix, p, from, build) == Overflow ==> ConvertedBy(text, p, from, to, build) == None
    ensures Offset(ix, p, from, build).At? ==>
              && Offset(ix, p, from, build).offset >= 0
              && ConvertedBy(text, p, from, to, build).Some?
              && Position(ix, Offset(ix, p, from, build).offset, to) == ConvertedBy(text, p, from, to, build)
  {
    var lines := Lines(text);
    if p.line < |lines| {
      hide Lines, Units, Floor, Tabulates, Offset, Position, Lands;
      OffsetOnLine(ix, lines, p, from, build);
      match Lands(lines[p.line], p.character, from, build)
      case None =>
      case Some(k) => PositionAtCut(ix, lines, p.line, k, to);
    } else {
      hide Lines, Lands;
    }
  }

  /** The first `k` characters take at most `col` units, and one more takes too many. */
  ghost predicate MostWithin(l: string, k: nat, col: nat, enc: Encoding) {
    k <= |l| && Units(l[..k], enc) <= col && (k < |l| ==> col < Units(l[..k + 1], enc))
  }

  /** `q` is where a column of one unit lies in the other: on the same line, after the most
      whole characters that fit; where the text has no such line it is left alone. */
  ghost predicate Moved(text: string, line: nat, col: nat, q: LinePosition, from: Encoding, to: Encoding) {
    && q.line == line
    && if line >= |Lines(text)| then q.character == col
       else
         var l := Lines(text)[line];
         exists k: nat :: MostWithin(l, k, col, from) && q.character == Units(l[..k], to)
  }

  /** At a cut that is the same cut, measured in the other unit. */
  lemma MovedAtCut(text: string, line: nat, k: nat, q: LinePosition, from: Encoding, to: Encoding)
    requires line < |Lines(text)| && k <= |Lines(text)[line]|
    requires Moved(text, line, Units(Lines(text)[line][..k], from), q, from, to)
    ensures q == LinePosition(line, Units(Lines(text)[line][..k], to))
  {
    hide Lines, Units, Floor;
    MovedIsConverted(text, line, Units(Lines(text)[line][..k], from), q, from, to);
    FloorAtCut(Lines(text)[line], k, from);
  }

  lemma MovedIsConverted(text: string, line: nat, col: nat, q: LinePosition, from: Encoding, to: Encoding)
    ensures Moved(text, line, col, q, from, to) <==> q == Converted(text, LinePosition(line, col), from, to)
  {
    hide Lines, Units, Floor;
    if line < |Lines(text)| {
      var l := Lines(text)[line];
      FloorIsLargestCut(l, col, from);
      var f := Floor(l, col, from);
      assert MostWithin(l, f, col, from);
      if k: nat :| MostWithin(l, k, col, from) && q.character == Units(l[..k], to) {
        if k < f {
          UnitsPrefix(l, k + 1, f, from);
        } else if f < k {
          UnitsPrefix(l, f + 1, k, from);
        }
      }
    }
  }

  /** Which unit an end is read in, and what becomes of it. */
  lemma EndIsRead(line: nat, col: nat, unit: ColumnUnit, client: Encoding, source: Option<string>, build: Build)
    ensures source.None? || (unit == ColumnsUtf8 && client == Utf8) || (unit == ColumnsUtf16 && client == Utf16)
            || (unit == ColumnsUtf32 && client == Utf16) ==>
              EndBy(line, col, unit, client, source, build) == Some(LinePosition(line, col))
    ensures source.Some? && unit == ColumnsUtf8 && client == Utf16 ==>
              var q := EndBy(line, col, unit, client, source, build);
              q.Some? && Moved(source.value, line, col, q.value, Utf8, Utf16)
    ensures source.Some? && (unit == ColumnsUtf16 || unit == ColumnsUtf32) && client == Utf8
            && col <= MAX_U32 && Units(source.value, Utf8) <= MAX_U32 ==>
              var q := EndBy(line, col, unit, client, source, build);
              (q.Some? && Moved(source.value, line, col, q.value, Utf16, Utf8))
              <==> (line < |Lines(source.value)| ==>
                      var l := Lines(source.value)[line];
                      col + Units(l, Utf8) - Units(l, Utf16) <= MAX_U32)
  {
    hide Lines, Units, Floor;
    if source.Some? && ReadAs(unit) != client {
      var q := EndBy(line, col, unit, client, source, build);
      if q.Some? {
        MovedIsConverted(source.value, line, col, q.value, ReadAs(unit), client);
      }
      if ReadAs(unit) == Utf16 && col <= MAX_U32 && Bytes(source.value) <= MAX_U32 {
        EndIsRight(line, col, unit, client, source, build);
      }
    }
  }

  /** `convert_span`. `source` is the file's text when the server could read it,
      together with its table. Equal units and unreadable files pass through; byte columns
      always come out as they should, and UTF-16 columns exactly when both sums fit. */
  method ConvertSpan(raw: Range, unit: ColumnUnit, client: Encoding, source: Option<string>, build: Build)
    returns (span: Option<Span>)
    ensures span == SpanBy(raw, unit, client, source, build)
    ensures source.None? || (unit == ColumnsUtf8 && client == Utf8) || (unit == ColumnsUtf16 && client == Utf16)
            || (unit == ColumnsUtf32 && client == Utf16) ==>
              span == Some(Span(LinePosition(raw.startLine, raw.startCol), LinePosition(raw.endLine, raw.endCol)))
    ensures source.Some? && unit == ColumnsUtf8 && client == Utf16 ==>
              && span.Some? && Moved(source.value, raw.startLine, raw.startCol, span.value.start, Utf8, Utf16)
              && Moved(source.value, raw.endLine, raw.endCol, span.value.end, Utf8, Utf16)
    ensures source.Some? && (unit == ColumnsUtf16 || unit == ColumnsUtf32) && client == Utf8
            && FitsU32(raw) && Units(source.value, Utf8) <= MAX_U32 ==>
              var lines := Lines(source.value);
              (&& span.Some? && Moved(source.value, raw.startLine, raw.startCol, span.value.start, Utf16, Utf8)
               && Moved(source.value, raw.endLine, raw.endCol, span.value.end, Utf16, Utf8))
              <==> && (raw.startLine < |lines| ==>
                         var l := lines[raw.startLine];
                         raw.startCol + Units(l, Utf8) - Units(l, Utf16) <= MAX_U32)
                   && (raw.endLine < |lines| ==>
                         var l := lines[raw.endLine];
                         raw.endCol + Units(l, Utf8) - Units(l, Utf16) <= MAX_U32)
  {
    hide Lines, ConvertedBy, Moved, Units;
    EndIsRead(raw.startLine, raw.startCol, unit, client, source, build);
    EndIsRead(raw.endLine, raw.endCol, unit, client, source, build);
    var start, end := LinePosition(raw.startLine, raw.startCol), LinePosition(raw.endLine, raw.endCol);
    if ReadAs(unit) == client || source.None? {
      return Some(Span(start, end));
    }
    var ix := New(source.value);
    var from := Convert(ix, source.value, start, ReadAs(unit), client, build);
    if from.None? {
      return None;
    }
    var to := Convert(ix, source.value, end, ReadAs(unit), client, build);
    if to.None? {
      return None;
    }
    span := Some(Span(from.value, to.value));
  }

  function EndBy(line: nat, col: nat, unit: ColumnUnit, client: Encoding, source: Option<string>, build: Build)
    : Option<LinePosition>
  {
    if ReadAs(unit) == client || source.None? then Some(LinePosition(line, col))
    else ConvertedBy(source.value, LinePosition(line, col), ReadAs(unit), client, build)
  }

  function SpanBy(raw: Range, unit: ColumnUnit, client: Encoding, source: Option<string>,
                  build: Build): Option<Span> {
    match (EndBy(raw.startLine, raw.startCol, unit, client, source, build),
           EndBy(raw.endLine, raw.endCol, unit, client, source, build))
    case (Some(start), Some(end)) => Some(Span(start, end))
    case _ => None
  }

  /** The guard for one end: nothing to convert, or the sum of the conversion fits. */
  predicate EndFits(line: nat, col: nat, unit: ColumnUnit, client: Encoding, source: Option<string>) {
    ReadAs(unit) == client || source.None? || FitsAt(source.value, LinePosition(line, col), ReadAs(unit))
  }

  predicate SpanFits(raw: Range, unit: ColumnUnit, client: Encoding, source: Option<string>) {
    && EndFits(raw.startLine, raw.startCol, unit, client, source)
    && EndFits(raw.endLine, raw.endCol, unit, client, source)
  }

  ghost predicate Source32(source: Option<string>) {
    source.Some? ==> Bytes(source.value) <= MAX_U32
  }

  /** An end is converted as it should be exactly when the guard holds. */
  lemma EndIsRight(line: nat, col: nat, unit: ColumnUnit, client: Encoding, source: Option<string>, build: Build)
    requires col <= MAX_U32 && Source32(source)
    ensures EndBy(line, col, unit, client, source, build) == Some(ConvertedEnd(line, col, unit, client, source))
            <==> EndFits(line, col, unit, client, source)
  {
    if ReadAs(unit) != client && source.Some? && line < |Lines(source.value)| {
      var text, from := Lines(source.value)[line], ReadAs(unit);
      LineIsShorter(source.value, line);
      hide Lines, Units, Floor, Lands;
      LandsRight(text, col, from, build);
      if !Fits(text, col, from) && build == Wrapping {
        UnitsPrefix(text, Lands(text, col, from, build).value, Floor(text, col, from), client);
      }
    }
  }

  /** A span is converted as it should be exactly when both its ends satisfy the guard. */
  lemma SpanIsRight(raw: Range, unit: ColumnUnit, client: Encoding, source: Option<string>, build: Build)
    requires FitsU32(raw) && Source32(source)
    ensures SpanBy(raw, unit, client, source, build) == Some(ConvertedSpan(raw, unit, client, source))
            <==> SpanFits(raw, unit, client, source)
  {
    hide EndBy, ConvertedEnd, EndFits;
    EndIsRight(raw.startLine, raw.startCol, unit, client, source, build);
    EndIsRight(raw.endLine, raw.endCol, unit, client, source, build);
  }

  function ConvertedSpan(raw: Range, unit: ColumnUnit, client: Encoding, source: Option<string>): Span {
    Span(ConvertedEnd(raw.startLine, raw.startCol, unit, client, source),
         ConvertedEnd(raw.endLine, raw.endCol, unit, client, source))
  }

  function ConvertedEnd(line: nat, col: nat, unit: ColumnUnit, client: Encoding,
                        source: Option<string>): LinePosition {
    if ReadAs(unit) == client || source.None? then LinePosition(line, col)
    else Converted(source.value, LinePosition(line, col), ReadAs(unit), client)
  }

  /** Conversion keeps source order, whatever the columns point at. */
  lemma ConvertedMonotone(text: string, p: LinePosition, q: LinePosition, from: Encoding, to: Encoding)
    requires AtMost(p, q)
    ensures AtMost(Converted(text, p, from, to), Converted(text, q, from, to))
  {
    if p.line == q.line < |Lines(text)| {
      var line := Lines(text)[p.line];
      FloorMonotone(line, p.character, q.character, from);
      UnitsPrefix(line, Floor(line, p.character, from), Floor(line, q.character, from), to);
    }
  }

  lemma EndsKeepOrder(line1: nat, col1: nat, line2: nat, col2: nat,
                      unit: ColumnUnit, client: Encoding, source: Option<string>)
    requires Before(line1, col1, line2, col2)
    ensures AtMost(ConvertedEnd(line1, col1, unit, client, source), ConvertedEnd(line2, col2, unit, client, source))
  {
    if ReadAs(unit) != client && source.Some? {
      ConvertedMonotone(source.value, LinePosition(line1, col1), LinePosition(line2, col2), ReadAs(unit), client);
    }
  }

  predicate SpanWithin(inner: Span, outer: Span) {
    AtMost(outer.start, inner.start) && AtMost(inner.end, outer.end)
  }

  lemma IntendedKeepsNesting(outer: Range, inner: Range, unit: ColumnUnit, client: Encoding, source: Option<string>)
    requires Encloses(outer, inner)
    ensures SpanWithin(ConvertedSpan(inner, unit, client, source), ConvertedSpan(outer, unit, client, source))
    ensures WellFormed(inner) ==>
            var span := ConvertedSpan(inner, unit, client, source); AtMost(span.start, span.end)
  {
    EndsKeepOrder(outer.startLine, outer.startCol, inner.startLine, inner.startCol, unit, client, source);
    EndsKeepOrder(inner.endLine, inner.endCol, outer.endLine, outer.endCol, unit, client, source);
    if WellFormed(inner) {
      EndsKeepOrder(inner.startLine, inner.startCol, inner.endLine, inner.endCol, unit, client, source);
    }
  }

  /** A name inside its declaration is still inside it once both are converted, and
      an ordered range stays ordered: what LSP demands of `range` and
      `selectionRange` for document symbols and call-hierarchy items. */
  lemma ConversionKeepsNesting(outer: Range, inner: Range, unit: ColumnUnit, client: Encoding, source: Option<string>,
                               build: Build)
    requires Encloses(outer, inner) && FitsU32(outer) && FitsU32(inner) && Source32(source)
    requires SpanFits(outer, unit, client, source) && SpanFits(inner, unit, client, source)
    ensures var within, around := SpanBy(inner, unit, client, source, build), SpanBy(outer, unit, client, source, build);
            && within.Some? && around.Some? && SpanWithin(within.value, around.value)
            && (WellFormed(inner) ==> AtMost(within.value.start, within.value.end))
  {
    hide SpanBy, ConvertedSpan, SpanFits;
    SpanIsRight(outer, unit, client, source, build);
    SpanIsRight(inner, unit, client, source, build);
    IntendedKeepsNesting(outer, inner, unit, client, source);
  }

  ghost predicate KeepsInside(outer: Range, inner: Range, unit: ColumnUnit, client: Encoding,
                              source: Option<string>) {
    var within, around := SpanBy(inner, unit, client, source, Wrapping), SpanBy(outer, unit, client, source, Wrapping);
    within.Some? && around.Some? && SpanWithin(within.value, around.value)
  }

  /** A declaration keeps every range inside it exactly when its own end satisfies the
      guard: otherwise, in a wrapping build, what lies on its last line falls out. */
  lemma NestingExactlyWhenItFits(outer: Range, unit: ColumnUnit, client: Encoding, source: Option<string>)
    requires WellFormed(outer) && FitsU32(outer) && Source32(source)
    requires EndFits(outer.startLine, outer.startCol, unit, client, source)
    ensures (forall inner :: Encloses(outer, inner) && FitsU32(inner) && SpanFits(inner, unit, client, source) ==>
               KeepsInside(outer, inner, unit, client, source))
            <==> EndFits(outer.endLine, outer.endCol, unit, client, source)
  {
    if EndFits(outer.endLine, outer.endCol, unit, client, source) {
      forall inner | Encloses(outer, inner) && FitsU32(inner) && SpanFits(inner, unit, client, source)
        ensures KeepsInside(outer, inner, unit, client, source)
      {
        ConversionKeepsNesting(outer, inner, unit, client, source, Wrapping);
      }
    } else {
      var inner := FallsOut(outer, unit, client, source);
      assert !KeepsInside(outer, inner, unit, client, source);
    }
  }

  /** A range at the end of the last line, or where the declaration starts behind it. */
  lemma FallsOut(outer: Range, unit: ColumnUnit, client: Encoding, source: Option<string>) returns (inner: Range)
    requires WellFormed(outer) && FitsU32(outer) && Source32(source)
    requires EndFits(outer.startLine, outer.startCol, unit, client, source)
    requires !EndFits(outer.endLine, outer.endCol, unit, client, source)
    ensures Encloses(outer, inner) && FitsU32(inner) && SpanFits(inner, unit, client, source)
    ensures !KeepsInside(outer, inner, unit, client, source)
  {
    var text, enc := source.value, ReadAs(unit);
    var last := LinePosition(outer.endLine, outer.endCol);
    var line := Lines(text)[last.line];
    hide Lines, Units, Floor, Lands;
    var p := EndOfLine(text, last, enc);
    var col := if outer.startLine == last.line && outer.startCol > p.character then outer.startCol else p.character;
    inner := Range(last.line, col, last.line, col);
    LineIsShorter(text, last.line);
    FloorMonotone(line, p.character, col, enc);
    LandsRight(line, col, enc, Wrapping);
    LandsRight(line, last.character, enc, Wrapping);
    UnitsPrefix(line, Lands(line, last.character, enc, Wrapping).value, |line|, client);
  }

  /** `p` sits between two characters of an existing line. */
  ghost predicate AtCut(text: string, p: LinePosition, enc: Encoding) {
    p.line < |Lines(text)|
    && exists k :: 0 <= k <= |Lines(text)[p.line]| && p.character == Units(Lines(text)[p.line][..k], enc)
  }

  /** Converting there and back is the identity exactly on the positions that sit
      between two characters; any other column moves. */
  lemma ConversionInverts(text: string, p: LinePosition, from: Encoding, to: Encoding, build: Build)
    requires p.line < |Lines(text)| && In32(text, p)
    ensures var there := ConvertedBy(text, p, from, to, build);
            (there.Some? && ConvertedBy(text, there.value, to, from, build) == Some(p)) <==> AtCut(text, p, from)
  {
    var line := Lines(text)[p.line];
    LineIsShorter(text, p.line);
    hide Lines, Units, Floor, Lands, Fits;
    LandsRight(line, p.character, from, build);
    match Lands(line, p.character, from, build) {
      case None =>
      case Some(k) =>
        CutFits(line, k, to);
        FloorAtCut(line, k, to);
        LandsRight(line, Units(line[..k], to), to, build);
    }
    if AtCut(text, p, from) {
      var j :| 0 <= j <= |line| && p.character == Units(line[..j], from);
      FloorAtCut(line, j, from);
      CutFits(line, j, from);
    }
  }
}
