/** Documents the client holds open, and applying its edits to them
    (crates/jabar-server/src/documents.rs). Edits follow LSP 3.17,
    "DidChangeTextDocument Notification": each applies to the text the one
    before it produced. */
module Documents {
  import opened Text
  import opened Wrappers
  import opened LineIndex
  import opened Ranges
  import opened SpanConversion

  type Path = string

  datatype Document = Document(version: int, text: string)

  /** One content change; without a range it replaces everything. */
  datatype Change = Change(range: Option<Span>, text: string)

  // ---- what an edit means, in characters ----

  predicate OnExistingLines(text: string, span: Span) {
    span.start.line < |Lines(text)| && span.end.line < |Lines(text)|
  }

  function Splice(text: string, i: nat, j: nat, replacement: string): string
    requires i <= j <= |text|
  {
    text[..i] + replacement + text[j..]
  }

  /** An edit should replace the characters between its two cuts. It is dropped when a
      line does not exist or the cuts are inverted. */
  function Intended(text: string, change: Change, enc: Encoding): string {
    match change.range
    case None => change.text
    case Some(span) =>
      if !OnExistingLines(text, span) then text else
      var i, j := CharAt(text, span.start, enc), CharAt(text, span.end, enc);
      if i <= j then Splice(text, i, j, change.text) else text
  }

  /** Resolving a position panics. */
  predicate Panics(text: string, p: LinePosition, enc: Encoding, build: Build) {
    p.line < |Lines(text)| && CutAt(text, p, enc, build).None?
  }

  /** What an edit does: the same between the cuts its columns land on, unless the
      server panics while it resolves them (None). */
  function Edited(text: string, change: Change, enc: Encoding, build: Build): Option<string> {
    match change.range
    case None => Some(change.text)
    case Some(span) =>
      if Panics(text, span.start, enc, build) || Panics(text, span.end, enc, build) then None
      else if !OnExistingLines(text, span) then Some(text) else
      var i, j := CutAt(text, span.start, enc, build).value, CutAt(text, span.end, enc, build).value;
      Some(if i <= j then Splice(text, i, j, change.text) else text)
  }

  function EditedAll(text: string, changes: seq<Change>, enc: Encoding, build: Build): Option<string>
    decreases |changes|
  {
    if changes == [] then Some(text) else
    match Edited(text, changes[0], enc, build)
    case None => None
    case Some(after) => EditedAll(after, changes[1..], enc, build)
  }

  /** The text a batch has made before its first edit that panics, or at its end. */
  function EditedUntilPanic(text: string, changes: seq<Change>, enc: Encoding, build: Build): string
    decreases |changes|
  {
    if changes == [] then text else
    match Edited(text, changes[0], enc, build)
    case None => text
    case Some(after) => EditedUntilPanic(after, changes[1..], enc, build)
  }

  function IntendedAll(text: string, changes: seq<Change>, enc: Encoding): string
    decreases |changes|
  {
    if changes == [] then text else IntendedAll(Intended(text, changes[0], enc), changes[1..], enc)
  }

  // ---- the code ----

  /** `String::replace_range`: panics unless both offsets are character boundaries
      in order, which is what its precondition says. */
  function ReplaceRange(text: string, start: nat, end: nat, replacement: string): string
    requires IsBoundary(text, start) && IsBoundary(text, end) && start <= end
  {
    var i, j := Floor(text, start, Utf8), Floor(text, end, Utf8);
    FloorMonotone(text, start, end, Utf8);
    text[..i] + replacement + text[j..]
  }

  /** `apply_change`: resolves both ends on the current text, drops what cannot be
      placed, and replaces the bytes between otherwise. */
  method ApplyChange(text: string, change: Change, enc: Encoding, build: Build) returns (after: Option<string>)
    ensures after == Edited(text, change, enc, build)
  {
    if change.range.None? {
      return Some(change.text);
    }
    var index := New(text);
    var span := change.range.value;
    hide Lines, Describes, CutAt, Offset;
    ResolvesCut(index, text, span.start, enc, build);
    ResolvesCut(index, text, span.end, enc, build);
    var start := Offset(index, span.start, enc, build);
    if start == Overflow {
      return None;
    }
    var end := Offset(index, span.end, enc, build);
    if end == Overflow {
      return None;
    }
    if start == NoLine || end == NoLine {
      return Some(text);
    }
    CutsCompare(text, CutAt(text, span.start, enc, build).value, CutAt(text, span.end, enc, build).value);
    if start.offset > end.offset {
      return Some(text);
    }
    after := Some(ReplaceRange(text, start.offset, end.offset, change.text));
  }

  /** The byte offset of an end names its cut. */
  lemma ResolvesCut(ix: LineIndex, text: string, p: LinePosition, enc: Encoding, build: Build)
    requires Describes(ix, text)
    ensures Offset(ix, p, enc, build) == NoLine <==> p.line >= |Lines(text)|
    ensures Offset(ix, p, enc, build) == Overflow <==> Panics(text, p, enc, build)
    ensures Offset(ix, p, enc, build).At? ==>
              var m := CutAt(text, p, enc, build).value;
              && Offset(ix, p, enc, build).offset == Bytes(text[..m])
              && IsBoundary(text, Bytes(text[..m])) && Floor(text, Bytes(text[..m]), Utf8) == m
  {
    hide Lines, Units, Floor, Tabulates, Offset, CutAt;
    OffsetIsCut(ix, text, p, enc, build);
    if p.line < |Lines(text)| && CutAt(text, p, enc, build).Some? {
      FloorAtCut(text, CutAt(text, p, enc, build).value, Utf8);
    }
  }

  /** Offsets compare as the cuts do. */
  lemma CutsCompare(text: string, i: nat, j: nat)
    requires i <= |text| && j <= |text|
    ensures Bytes(text[..i]) <= Bytes(text[..j]) <==> i <= j
  {
    hide Units;
    if i <= j {
      UnitsPrefix(text, i, j, Utf8);
    } else {
      UnitsPrefix(text, j, i, Utf8);
    }
  }

  class Documents {
    var open: map<Path, Document>

    constructor ()
      ensures open == map[]
    {
      open := map[];
    }

    method Open(path: Path, version: int, text: string) returns (previous: Option<Document>)
      modifies this
      ensures open == old(open)[path := Document(version, text)]
      ensures previous == if path in old(open) then Some(old(open)[path]) else None
    {
      previous := if path in open then Some(open[path]) else None;
      open := open[path := Document(version, text)];
    }

    method Close(path: Path) returns (closed: Option<Document>)
      modifies this
      ensures open == old(open) - {path}
      ensures closed == if path in old(open) then Some(old(open)[path]) else None
    {
      closed := if path in open then Some(open[path]) else None;
      open := open - {path};
    }

    /** Applies a batch in place; None, and no change at all, when the document is not
        open. When an edit panics, the caller is unwound: the document keeps the new
        version and the edits before that one. */
    method ApplyChanges(path: Path, version: int, changes: seq<Change>, enc: Encoding, build: Build)
      returns (text: Option<string>, panicked: bool)
      modifies this
      ensures path !in old(open) ==> text == None && !panicked && open == old(open)
      ensures path in old(open) ==>
                var before := old(open)[path].text;
                && text == EditedAll(before, changes, enc, build) && panicked == text.None?
                && open == old(open)[path := Document(version, EditedUntilPanic(before, changes, enc, build))]
                && (text.Some? ==> text.value == EditedUntilPanic(before, changes, enc, build))
    {
      if path !in open {
        return None, false;
      }
      hide Edited;
      ghost var before := open[path].text;
      open := open[path := Document(version, open[path].text)];
      for n := 0 to |changes|
        invariant path in open && open == old(open)[path := Document(version, open[path].text)]
        invariant EditedAll(open[path].text, changes[n..], enc, build) == EditedAll(before, changes, enc, build)
        invariant EditedUntilPanic(open[path].text, changes[n..], enc, build)
                  == EditedUntilPanic(before, changes, enc, build)
      {
        assert changes[n..][1..] == changes[n + 1..];
        var after := ApplyChange(open[path].text, changes[n], enc, build);
        if after.None? {
          return None, true;
        }
        open := open[path := Document(version, after.value)];
      }
      return Some(open[path].text), false;
    }
  }

  // ---- what the client can rely on ----

  ghost predicate Span32(text: string, span: Span) {
    In32(text, span.start) && In32(text, span.end)
  }

  /** The guard for an edit: the column sums of both its ends fit 32 bits. */
  predicate SpanFitsIn(text: string, span: Span, enc: Encoding) {
    FitsAt(text, span.start, enc) && FitsAt(text, span.end, enc)
  }

  /** An edit whose ends satisfy the guard does what it should. */
  lemma EditIsIntended(text: string, span: Span, replacement: string, enc: Encoding, build: Build)
    requires Span32(text, span) && SpanFitsIn(text, span, enc)
    ensures Edited(text, Change(Some(span), replacement), enc, build)
            == Some(Intended(text, Change(Some(span), replacement), enc))
  {
    hide Lines, CutAt, CharAt, FitsAt;
    if span.start.line < |Lines(text)| {
      CutIsRight(text, span.start, enc, build);
    }
    if span.end.line < |Lines(text)| {
      CutIsRight(text, span.end, enc, build);
    }
  }

  /** An ordered range on existing lines is then always applied: the text before its
      start and after its end is kept, and the new text stands between. */
  lemma OrderedEditApplies(text: string, span: Span, replacement: string, enc: Encoding, build: Build)
    requires OnExistingLines(text, span) && AtMost(span.start, span.end)
    requires Span32(text, span) && SpanFitsIn(text, span, enc)
    ensures CharAt(text, span.start, enc) <= CharAt(text, span.end, enc)
    ensures Edited(text, Change(Some(span), replacement), enc, build)
            == Some(Splice(text, CharAt(text, span.start, enc), CharAt(text, span.end, enc), replacement))
  {
    hide Lines, Edited, CharAt, SpanFitsIn;
    EditIsIntended(text, span, replacement, enc, build);
    CharAtMonotone(text, span.start, span.end, enc);
  }

  /** Ordered ranges are edited as they should be, whatever is put in their place,
      exactly when both ends satisfy the guard. */
  lemma OrderedEditExactlyWhenItFits(text: string, span: Span, enc: Encoding, build: Build)
    requires OnExistingLines(text, span) && AtMost(span.start, span.end) && Span32(text, span)
    ensures (forall replacement :: Edited(text, Change(Some(span), replacement), enc, build)
                                   == Some(Intended(text, Change(Some(span), replacement), enc)))
            <==> SpanFitsIn(text, span, enc)
  {
    if SpanFitsIn(text, span, enc) {
      forall replacement
        ensures Edited(text, Change(Some(span), replacement), enc, build)
                == Some(Intended(text, Change(Some(span), replacement), enc))
      {
        EditIsIntended(text, span, replacement, enc, build);
      }
    } else {
      var replacement := GoesWrong(text, span, enc, build);
    }
  }

  /** A replacement that shows the edit in the wrong place. */
  lemma GoesWrong(text: string, span: Span, enc: Encoding, build: Build) returns (replacement: string)
    requires OnExistingLines(text, span) && AtMost(span.start, span.end) && Span32(text, span)
    requires !SpanFitsIn(text, span, enc)
    ensures Edited(text, Change(Some(span), replacement), enc, build)
            != Some(Intended(text, Change(Some(span), replacement), enc))
  {
    hide Lines, CutAt, CharAt, FitsAt;
    CutIsRight(text, span.start, enc, build);
    CutIsRight(text, span.end, enc, build);
    CharAtMonotone(text, span.start, span.end, enc);
    var i, j := CharAt(text, span.start, enc), CharAt(text, span.end, enc);
    replacement := [];
    if build == Wrapping {
      replacement := WrongSplice(text, i, j, CutAt(text, span.start, enc, build).value, CutAt(text, span.end, enc, build).value);
    }
  }

  /** Splicing at other cuts, or not at all, can be told from splicing at these. */
  lemma WrongSplice(text: string, i: nat, j: nat, i': nat, j': nat) returns (r: string)
    requires i' <= i <= j <= |text| && j' <= j && (i', j') != (i, j)
    ensures (if i' <= j' then Splice(text, i', j', r) else text) != Splice(text, i, j, r)
  {
    if i' > j' {
      r := seq(j - i + 1, _ => 'a');
      assert |Splice(text, i, j, r)| == |text| + 1;
    } else if i' < i {
      r := if text[i'] == 'a' then "b" else "a";
      assert Splice(text, i', j', r)[i'] == r[0] && Splice(text, i, j, r)[i'] == text[i'];
    } else {
      r := [];
      assert |Splice(text, i', j', r)| != |Splice(text, i, j, r)|;
    }
  }

  /** An edit is dropped although its lines exist. */
  predicate Dropped(text: string, span: Span, enc: Encoding) {
    && OnExistingLines(text, span)
    && CutAt(text, span.start, enc, Wrapping).Some? && CutAt(text, span.end, enc, Wrapping).Some?
    && CutAt(text, span.start, enc, Wrapping).value > CutAt(text, span.end, enc, Wrapping).value
  }

  /** In a wrapping build no ordered edit up to a position is dropped exactly when that
      position satisfies the guard. */
  lemma NeverDroppedExactlyWhenItFits(text: string, end: LinePosition, enc: Encoding)
    requires In32(text, end) && end.line < |Lines(text)|
    ensures (forall start :: AtMost(start, end) && In32(text, start) ==> !Dropped(text, Span(start, end), enc))
            <==> FitsAt(text, end, enc)
  {
    hide Lines, CutAt, CharAt, FitsAt;
    if FitsAt(text, end, enc) {
      forall start | AtMost(start, end) && In32(text, start)
        ensures !Dropped(text, Span(start, end), enc)
      {
        CutMonotone(text, start, end, enc, Wrapping);
      }
    } else {
      var start := EndOfLine(text, end, enc);
      CutIsRight(text, start, enc, Wrapping);
      CutIsRight(text, end, enc, Wrapping);
      assert Dropped(text, Span(start, end), enc);
    }
  }

  /** One wide character, and an edit from behind it to the largest column a client can
      send: a wrapping build drops it, a checked one panics. */
  lemma OrderedEditIsDropped(replacement: string)
    ensures var text, span := "\U{E9}", Span(LinePosition(0, 1), LinePosition(0, MAX_U32));
            && OnExistingLines(text, span) && AtMost(span.start, span.end)
            && Intended(text, Change(Some(span), replacement), Utf16) == text + replacement
            && Edited(text, Change(Some(span), replacement), Utf16, Wrapping) == Some(text)
            && Edited(text, Change(Some(span), replacement), Utf16, Checked) == None
  {
    var text, span := "\U{E9}", Span(LinePosition(0, 1), LinePosition(0, MAX_U32));
    assert text == [text[0]];
    OneLetterCuts(text[0]);
    hide Lines, CutAt, CharAt;
    assert text[..1] + replacement + text[1..] == text + replacement;
  }

  /** Where the two ends of that edit should be, and where they are. */
  lemma OneLetterCuts(c: char)
    requires c as int == 0xe9
    ensures var text, start, end := [c], LinePosition(0, 1), LinePosition(0, MAX_U32);
            && |Lines(text)| == 1 && CharAt(text, start, Utf16) == CharAt(text, end, Utf16) == 1
            && CutAt(text, start, Utf16, Wrapping) == Some(1) && CutAt(text, start, Utf16, Checked) == Some(1)
            && CutAt(text, end, Utf16, Wrapping) == Some(0) && CutAt(text, end, Utf16, Checked) == None
  {
    var text, start, end := [c], LinePosition(0, 1), LinePosition(0, MAX_U32);
    assert text[..1] == text;
    OneLetter(c);
    hide Lines, Units, Floor, Lands;
    FillsLine(text, MAX_U32);
    FloorAtCut(text, 1, Utf16);
    CutIsRight(text, start, Utf16, Wrapping);
    CutIsRight(text, start, Utf16, Checked);
    CutIsRight(text, end, Utf16, Wrapping);
    CutIsRight(text, end, Utf16, Checked);
  }

  /** A ranged edit leaves the text outside the two cuts it lands on alone, and when it
      is dropped it leaves everything alone. */
  lemma EditIsLocal(text: string, span: Span, replacement: string, enc: Encoding, build: Build)
    ensures var after := Edited(text, Change(Some(span), replacement), enc, build);
            after.Some? ==>
              if OnExistingLines(text, span) && CutAt(text, span.start, enc, build).value <= CutAt(text, span.end, enc, build).value
              then
                var i, j := CutAt(text, span.start, enc, build).value, CutAt(text, span.end, enc, build).value;
                && |after.value| == |text| - (j - i) + |replacement|
                && after.value[..i] == text[..i]
                && after.value[i..i + |replacement|] == replacement
                && after.value[i + |replacement|..] == text[j..]
              else after.value == text
  {
    hide Lines, CutAt;
  }

  // ---- which batches panic ----

  /** The 32-bit fields hold what they should, edit by edit. */
  ghost predicate Batch32(text: string, changes: seq<Change>, enc: Encoding)
    decreases |changes|
  {
    changes != [] ==>
      && (changes[0].range.Some? ==> Span32(text, changes[0].range.value))
      && Batch32(Intended(text, changes[0], enc), changes[1..], enc)
  }

  /** Every edit satisfies the guard on the text it applies to. */
  predicate BatchFits(text: string, changes: seq<Change>, enc: Encoding)
    decreases |changes|
  {
    changes != [] ==>
      && (changes[0].range.Some? ==> SpanFitsIn(text, changes[0].range.value, enc))
      && BatchFits(Intended(text, changes[0], enc), changes[1..], enc)
  }

  /** In a build that checks, an edit panics exactly when it fails the guard; no edit
      panics in a build that wraps. */
  lemma EditPanicsExactly(text: string, span: Span, replacement: string, enc: Encoding)
    requires Span32(text, span)
    ensures Edited(text, Change(Some(span), replacement), enc, Checked).None? <==> !SpanFitsIn(text, span, enc)
    ensures Edited(text, Change(Some(span), replacement), enc, Wrapping).Some?
  {
    hide Lines, CutAt, CharAt, FitsAt;
    if span.start.line < |Lines(text)| {
      CutIsRight(text, span.start, enc, Checked);
      CutIsRight(text, span.start, enc, Wrapping);
    } else {
      NoLineFits(text, span.start, enc);
    }
    if span.end.line < |Lines(text)| {
      CutIsRight(text, span.end, enc, Checked);
      CutIsRight(text, span.end, enc, Wrapping);
    } else {
      NoLineFits(text, span.end, enc);
    }
  }

  lemma NoLineFits(text: string, p: LinePosition, enc: Encoding)
    requires p.line >= |Lines(text)|
    ensures FitsAt(text, p, enc)
  {
    hide Lines;
  }

  /** A batch panics in a build that checks exactly when some edit fails the guard on its
      own text. A batch of which none does is what it should be, in either build. */
  lemma {:induction false} BatchPanicsExactly(text: string, changes: seq<Change>, enc: Encoding)
    requires Batch32(text, changes, enc)
    ensures EditedAll(text, changes, enc, Checked).None? <==> !BatchFits(text, changes, enc)
    ensures BatchFits(text, changes, enc) ==>
              EditedAll(text, changes, enc, Checked) == EditedAll(text, changes, enc, Wrapping)
              == Some(IntendedAll(text, changes, enc))
    decreases |changes|
  {
    hide Edited, Intended, SpanFitsIn, Span32;
    if changes != [] {
      var change := changes[0];
      if change.range.Some? {
        assert change == Change(Some(change.range.value), change.text);
        EditPanicsExactly(text, change.range.value, change.text, enc);
        if SpanFitsIn(text, change.range.value, enc) {
          EditIsIntended(text, change.range.value, change.text, enc, Checked);
          EditIsIntended(text, change.range.value, change.text, enc, Wrapping);
          BatchPanicsExactly(Intended(text, change, enc), changes[1..], enc);
        }
      } else {
        ReplacesAll(text, change, enc);
        BatchPanicsExactly(Intended(text, change, enc), changes[1..], enc);
      }
    }
  }

  lemma ReplacesAll(text: string, change: Change, enc: Encoding)
    requires change.range.None?
    ensures forall build :: Edited(text, change, enc, build) == Some(Intended(text, change, enc))
  {
  }

  /** An insertion before one wide character, then an edit that panics: what is left is
      the first edit. */
  function HalfBatch(): seq<Change> {
    [Change(Some(Span(LinePosition(0, 0), LinePosition(0, 0))), "x"),
     Change(Some(Span(LinePosition(0, 2), LinePosition(0, MAX_U32))), "")]
  }

  lemma BatchIsHalfApplied()
    ensures EditedAll("\U{E9}", HalfBatch(), Utf16, Checked) == None
    ensures EditedUntilPanic("\U{E9}", HalfBatch(), Utf16, Checked) == "x\U{E9}"
  {
    var text, changes := "\U{E9}", HalfBatch();
    assert text == [text[0]];
    FirstEdit(text[0], Checked);
    assert ['x', text[0]] == "x\U{E9}";
    SecondEdit(text[0]);
    assert changes[1..] == [changes[1]];
    hide Edited;
    assert EditedAll("x\U{E9}", changes[1..], Utf16, Checked) == None;
    assert EditedUntilPanic("x\U{E9}", changes[1..], Utf16, Checked) == "x\U{E9}";
  }

  lemma FirstEdit(c: char, build: Build)
    requires c as int == 0xe9
    ensures Edited([c], HalfBatch()[0], Utf16, build) == Some(['x', c])
  {
    var p := LinePosition(0, 0);
    OneLetter(c);
    hide Lines, Units, Floor, Lands;
    assert [c][..0] == [];
    FloorAtCut([c], 0, Utf16);
    assert Units([c][..0], Utf16) == 0 by {
      NoUnits();
    }
    CutIsRight([c], p, Utf16, build);
    assert [c][..0] + "x" + [c][0..] == ['x', c];
  }

  lemma NoUnits()
    ensures Units([], Utf16) == 0
  {
  }

  lemma SecondEdit(c: char)
    requires c as int == 0xe9
    ensures Edited(['x', c], HalfBatch()[1], Utf16, Checked) == None
  {
    var text, p := ['x', c], LinePosition(0, MAX_U32);
    OneLetter(c);
    TwoLetters(c);
    hide Lines, Units, Floor, Lands;
    CutIsRight(text, p, Utf16, Checked);
  }

  lemma TwoLetters(c: char)
    requires c as int == 0xe9
    ensures Lines(['x', c]) == [['x', c]] && Bytes(['x', c]) == 3 && Units(['x', c], Utf16) == 2
  {
    OneLetter(c);
    OneLine('x');
    LinesSnoc(['x'], c);
    hide Lines;
    assert ['x'] + [c] == ['x', c] && [['x']][..0] == [];
    UnitsConcat(['x'], [c], Utf8);
    UnitsConcat(['x'], [c], Utf16);
    UnitsSingle('x', Utf8);
    UnitsSingle('x', Utf16);
  }

  lemma LinesSnoc(text: string, c: char)
    ensures Lines(text + [c]) == AddChar(Lines(text), c)
  {
    assert (text + [c])[..|text + [c]| - 1] == text;
  }

  lemma OneLine(c: char)
    requires c != '\n'
    ensures Lines([c]) == [[c]]
  {
    LinesSnoc([], c);
    assert [] + [c] == [c] && [""][..0] == [];
  }

  // ---- the same edit in the other unit ----

  /** Two positions name the same cut, one counting bytes and one UTF-16 units. */
  ghost predicate SamePlace(text: string, p8: LinePosition, p16: LinePosition) {
    && p8.line == p16.line
    && (p8.line < |Lines(text)| ==>
          exists k :: 0 <= k <= |Lines(text)[p8.line]|
                      && p8.character == Units(Lines(text)[p8.line][..k], Utf8)
                      && p16.character == Units(Lines(text)[p8.line][..k], Utf16))
  }

  ghost predicate SameChange(text: string, c8: Change, c16: Change) {
    && c8.text == c16.text
    && (c8.range.Some? <==> c16.range.Some?)
    && (c8.range.Some? ==> SamePlace(text, c8.range.value.start, c16.range.value.start)
                           && SamePlace(text, c8.range.value.end, c16.range.value.end))
  }

  /** The batches agree edit by edit, each on the text it applies to, whose length is a
      32-bit number. */
  ghost predicate SameChanges(text: string, c8: seq<Change>, c16: seq<Change>)
    decreases |c8|
  {
    && |c8| == |c16|
    && (c8 != [] ==> Bytes(text) <= MAX_U32 && SameChange(text, c8[0], c16[0])
                     && SameChanges(Intended(text, c8[0], Utf8), c8[1..], c16[1..]))
  }

  /** A position at a cut satisfies the guard, so both land there. */
  lemma SamePlaceSameCut(text: string, p8: LinePosition, p16: LinePosition, build: Build)
    requires SamePlace(text, p8, p16) && p8.line < |Lines(text)| && Bytes(text) <= MAX_U32
    ensures CharAt(text, p8, Utf8) == CharAt(text, p16, Utf16)
    ensures CutAt(text, p8, Utf8, build) == Some(CharAt(text, p8, Utf8))
    ensures CutAt(text, p16, Utf16, build) == Some(CharAt(text, p16, Utf16))
  {
    hide Lines, Units, Floor, Lands;
    var line := Lines(text)[p8.line];
    var k :| 0 <= k <= |line| && p8.character == Units(line[..k], Utf8) && p16.character == Units(line[..k], Utf16);
    LineIsShorter(text, p8.line);
    FloorAtCut(line, k, Utf8);
    FloorAtCut(line, k, Utf16);
    CutFits(line, k, Utf8);
    CutFits(line, k, Utf16);
    LandsRight(line, p8.character, Utf8, build);
    LandsRight(line, p16.character, Utf16, build);
  }

  lemma SameChangeSameText(text: string, c8: Change, c16: Change, build: Build)
    requires SameChange(text, c8, c16) && Bytes(text) <= MAX_U32
    ensures Edited(text, c8, Utf8, build) == Edited(text, c16, Utf16, build) == Some(Intended(text, c8, Utf8))
  {
    hide Lines, Units, CutAt, CharAt;
    if c8.range.Some? {
      var s8, s16 := c8.range.value, c16.range.value;
      if s8.start.line < |Lines(text)| {
        SamePlaceSameCut(text, s8.start, s16.start, build);
      }
      if s8.end.line < |Lines(text)| {
        SamePlaceSameCut(text, s8.end, s16.end, build);
      }
    }
  }

  /** A batch written in UTF-8 columns and the same batch written in UTF-16
      columns leave the same text, in either build. */
  lemma {:induction false} EncodingDoesNotMatter(text: string, c8: seq<Change>, c16: seq<Change>, build: Build)
    requires SameChanges(text, c8, c16)
    ensures EditedAll(text, c8, Utf8, build) == EditedAll(text, c16, Utf16, build)
    ensures EditedAll(text, c8, Utf8, build).Some?
    decreases |c8|
  {
    hide Edited, Intended, SameChange;
    if c8 != [] {
      SameChangeSameText(text, c8[0], c16[0], build);
      EncodingDoesNotMatter(Intended(text, c8[0], Utf8), c8[1..], c16[1..], build);
    }
  }
}
