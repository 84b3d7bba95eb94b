/** Source text as Rust sees it: a sequence of Unicode scalar values that can be
    measured in UTF-8 bytes (RFC 3629, section 3) or in UTF-16 code units
    (RFC 2781, section 2.1), and cut into lines at `\n` only. */
module Text {

  /** Which unit a column counts. */
  datatype Encoding = Utf8 | Utf16

  function Utf8Len(c: char): (n: nat)
    ensures 1 <= n <= 4
  {
    if c as int < 0x80 then 1 else if c as int < 0x800 then 2 else if c as int < 0x1_0000 then 3 else 4
  }

  function Utf16Len(c: char): (n: nat)
    ensures 1 <= n <= 2 && n <= Utf8Len(c)
  {
    if c as int < 0x1_0000 then 1 else 2
  }

  predicate IsAscii(c: char) {
    c as int < 0x80
  }

  function Width(c: char, enc: Encoding): (n: nat)
    ensures 1 <= n <= Utf8Len(c)
    ensures IsAscii(c) ==> n == 1
  {
    if enc == Utf8 then Utf8Len(c) else Utf16Len(c)
  }

  /** Length of `s` in units of `enc`. */
  function Units(s: string, enc: Encoding): nat {
    if s == [] then 0 else Width(s[0], enc) + Units(s[1..], enc)
  }

  /** Measuring a non-empty prefix, first character first. */
  lemma UnitsTake(s: string, k: nat, enc: Encoding)
    requires 0 < k <= |s|
    ensures Units(s[..k], enc) == Width(s[0], enc) + Units(s[1..][..k - 1], enc)
  {
    assert s[..k][1..] == s[1..][..k - 1];
  }

  function Bytes(s: string): nat {
    Units(s, Utf8)
  }

  lemma {:induction false} UnitsConcat(a: string, b: string, enc: Encoding)
    ensures Units(a + b, enc) == Units(a, enc) + Units(b, enc)
  {
    if a == [] {
      assert a + b == b;
    } else {
      assert (a + b)[1..] == a[1..] + b;
      UnitsConcat(a[1..], b, enc);
    }
  }

  lemma UnitsSingle(c: char, enc: Encoding)
    ensures Units([c], enc) == Width(c, enc)
  {
    assert [c][1..] == [];
  }

  /** Cutting further into a text never makes the part before the cut shorter,
      and a strictly later cut makes it strictly longer. */
  lemma UnitsPrefix(s: string, i: nat, j: nat, enc: Encoding)
    requires i <= j <= |s|
    ensures Units(s[..i], enc) + (j - i) <= Units(s[..j], enc)
    decreases j - i
  {
    if i < j {
      UnitsPrefix(s, i + 1, j, enc);
      assert s[..i + 1] == s[..i] + [s[i]];
      UnitsConcat(s[..i], [s[i]], enc);
      UnitsSingle(s[i], enc);
    }
  }

  /** The byte offsets at which `s` may be cut without splitting a character. */
  ghost predicate IsBoundary(s: string, offset: nat) {
    exists k :: 0 <= k <= |s| && Bytes(s[..k]) == offset
  }

  /** How many whole characters of `s` fit in `col` units of `enc`. */
  function Floor(s: string, col: nat, enc: Encoding): (k: nat)
    ensures k <= |s|
  {
    if s == [] || col < Width(s[0], enc) then 0
    else 1 + Floor(s[1..], col - Width(s[0], enc), enc)
  }

  /** `Floor` is the largest cut at or before the column. */
  lemma {:induction false} FloorIsLargestCut(s: string, col: nat, enc: Encoding)
    ensures Units(s[..Floor(s, col, enc)], enc) <= col
    ensures Floor(s, col, enc) < |s| ==> col < Units(s[..Floor(s, col, enc) + 1], enc)
  {
    if s != [] && col >= Width(s[0], enc) {
      var k := Floor(s, col, enc);
      FloorIsLargestCut(s[1..], col - Width(s[0], enc), enc);
      UnitsTake(s, k, enc);
      if k < |s| {
        UnitsTake(s, k + 1, enc);
      }
    } else {
      assert s[..0] == [];
      if s != [] {
        UnitsTake(s, 1, enc);
      }
    }
  }

  /** At a cut, `Floor` gives back that very cut. */
  lemma FloorAtCut(s: string, k: nat, enc: Encoding)
    requires k <= |s|
    ensures Floor(s, Units(s[..k], enc), enc) == k
  {
    var c := Units(s[..k], enc);
    var f := Floor(s, c, enc);
    FloorIsLargestCut(s, c, enc);
    if f < k {
      UnitsPrefix(s, f + 1, k, enc);
    } else if f > k {
      UnitsPrefix(s, k, f, enc);
    }
  }

  lemma {:induction false} FloorMonotone(s: string, c: nat, d: nat, enc: Encoding)
    requires c <= d
    ensures Floor(s, c, enc) <= Floor(s, d, enc)
  {
    if s != [] && c >= Width(s[0], enc) {
      FloorMonotone(s[1..], c - Width(s[0], enc), d - Width(s[0], enc), enc);
    }
  }

  // ---- lines ----

  /** The lines of `text`, without their `\n`. There is always a last line, empty
      when the text ends in `\n`. */
  function Lines(text: string): (lines: seq<string>)
    ensures |lines| > 0
  {
    if text == [] then [""] else AddChar(Lines(text[..|text| - 1]), text[|text| - 1])
  }

  /** A further character opens a new line or extends the last one. */
  function AddChar(lines: seq<string>, c: char): (after: seq<string>)
    requires |lines| > 0
    ensures |after| >= |lines|
  {
    var last := |lines| - 1;
    if c == '\n' then lines + [""] else lines[..last] + [lines[last] + [c]]
  }

  ghost predicate Newlineless(lines: seq<string>) {
    forall i, j :: 0 <= i < |lines| && 0 <= j < |lines[i]| ==> lines[i][j] != '\n'
  }

  /** No line holds a `\n` of its own. */
  lemma {:induction false} LinesNewlineless(text: string)
    ensures Newlineless(Lines(text))
  {
    if text != [] {
      LinesNewlineless(text[..|text| - 1]);
      AddCharNewlineless(Lines(text[..|text| - 1]), text[|text| - 1]);
    }
  }

  lemma AddCharNewlineless(lines: seq<string>, c: char)
    requires |lines| > 0 && Newlineless(lines)
    ensures Newlineless(AddChar(lines, c))
  {
  }

  /** Index in the joined text of the first character of line `i`, or of the byte
      offset of that character when measured in bytes. */
  function CharStart(lines: seq<string>, i: nat): nat
    requires i < |lines|
  {
    if i == 0 then 0 else CharStart(lines, i - 1) + |lines[i - 1]| + 1
  }

  function ByteStart(lines: seq<string>, i: nat): nat
    requires i < |lines|
  {
    if i == 0 then 0 else ByteStart(lines, i - 1) + Bytes(lines[i - 1]) + 1
  }

  /** The starts of the first `i` lines only depend on the lines before them. */
  lemma {:induction false} StartsAgree(a: seq<string>, b: seq<string>, i: nat)
    requires i < |a| && i < |b| && a[..i] == b[..i]
    ensures CharStart(a, i) == CharStart(b, i) && ByteStart(a, i) == ByteStart(b, i)
  {
    if i > 0 {
      assert a[i - 1] == a[..i][i - 1] == b[i - 1];
      assert a[..i - 1] == a[..i][..i - 1] == b[..i - 1];
      StartsAgree(a, b, i - 1);
    }
  }

  lemma {:induction false} StartsIncrease(lines: seq<string>, i: nat, j: nat)
    requires i < j < |lines|
    ensures CharStart(lines, i) + |lines[i]| < CharStart(lines, j)
    ensures ByteStart(lines, i) + Bytes(lines[i]) < ByteStart(lines, j)
  {
    if i + 1 < j {
      StartsIncrease(lines, i, j - 1);
    }
  }

  /** No earlier line moves when a character is added. */
  lemma AddCharStarts(lines: seq<string>, c: char, i: nat)
    requires i < |lines|
    ensures CharStart(AddChar(lines, c), i) == CharStart(lines, i)
    ensures ByteStart(AddChar(lines, c), i) == ByteStart(lines, i)
  {
    assert AddChar(lines, c)[..i] == lines[..i];
    StartsAgree(AddChar(lines, c), lines, i);
  }

  function CharEnd(lines: seq<string>): nat
    requires |lines| > 0
  {
    CharStart(lines, |lines| - 1) + |lines[|lines| - 1]|
  }

  function ByteEnd(lines: seq<string>): nat
    requires |lines| > 0
  {
    ByteStart(lines, |lines| - 1) + Bytes(lines[|lines| - 1])
  }

  lemma AddCharEnds(lines: seq<string>, c: char)
    requires |lines| > 0
    ensures CharEnd(AddChar(lines, c)) == CharEnd(lines) + 1
    ensures ByteEnd(AddChar(lines, c)) == ByteEnd(lines) + Utf8Len(c)
  {
    var last := |lines| - 1;
    AddCharStarts(lines, c, last);
    UnitsConcat(lines[last], [c], Utf8);
    UnitsSingle(c, Utf8);
  }

  /** Where the last line of a text ends is where the text ends. */
  lemma {:induction false} LastLine(text: string)
    ensures CharEnd(Lines(text)) == |text|
    ensures ByteEnd(Lines(text)) == Bytes(text)
  {
    if text != [] {
      var cut := |text| - 1;
      LastLine(text[..cut]);
      AddCharEnds(Lines(text[..cut]), text[cut]);
      assert text == text[..cut] + [text[cut]];
      UnitsConcat(text[..cut], [text[cut]], Utf8);
      UnitsSingle(text[cut], Utf8);
    }
  }

  /** Byte offset of the cut before character `k` of line `i`. */
  function ByteAt(lines: seq<string>, i: nat, k: nat): nat
    requires i < |lines| && k <= |lines[i]|
  {
    ByteStart(lines, i) + Bytes(lines[i][..k])
  }

  lemma SamePrefix(lines: seq<string>, c: char, i: nat, k: nat)
    requires i < |lines| && k <= |lines[i]|
    ensures i < |AddChar(lines, c)| && k <= |AddChar(lines, c)[i]|
    ensures AddChar(lines, c)[i][..k] == lines[i][..k]
  {
  }

  lemma AddCharByteAt(lines: seq<string>, c: char, i: nat, k: nat)
    requires i < |lines| && k <= |lines[i]|
    ensures k <= |AddChar(lines, c)[i]|
    ensures ByteAt(AddChar(lines, c), i, k) == ByteAt(lines, i, k)
    ensures CharStart(AddChar(lines, c), i) == CharStart(lines, i)
  {
    hide Units, Bytes, ByteStart, CharStart;
    AddCharStarts(lines, c, i);
    SamePrefix(lines, c, i, k);
  }

  lemma EndIsLastCut(lines: seq<string>)
    requires |lines| > 0
    ensures ByteAt(lines, |lines| - 1, |lines[|lines| - 1]|) == ByteEnd(lines)
  {
    assert lines[|lines| - 1][..|lines[|lines| - 1]|] == lines[|lines| - 1];
  }

  /** Column `k` of line `i` sits `CharStart + k` characters into the text, and
      the bytes before it are the bytes before the line plus those of its prefix. */
  lemma {:induction false} LinePrefix(text: string, i: nat, k: nat)
    requires i < |Lines(text)| && k <= |Lines(text)[i]|
    ensures CharStart(Lines(text), i) + k <= |text|
    ensures Bytes(text[..CharStart(Lines(text), i) + k]) == ByteAt(Lines(text), i, k)
    decreases text, 1
  {
    var lines := Lines(text);
    if i == |lines| - 1 && k == |lines[i]| {
      LastLine(text);
      EndIsLastCut(lines);
      assert text[..|text|] == text;
    } else {
      hide ByteAt, CharStart, Bytes;
      LinePrefixStep(text, i, k);
    }
  }

  lemma {:induction false} LinePrefixStep(text: string, i: nat, k: nat)
    requires i < |Lines(text)| && k <= |Lines(text)[i]|
    requires i < |Lines(text)| - 1 || k < |Lines(text)[i]|
    ensures CharStart(Lines(text), i) + k <= |text|
    ensures Bytes(text[..CharStart(Lines(text), i) + k]) == ByteAt(Lines(text), i, k)
    decreases text, 0
  {
    hide ByteAt, CharStart, Bytes;
    var cut := |text| - 1;
    var before := Lines(text[..cut]);
    assert i < |before| && k <= |before[i]|;
    LinePrefix(text[..cut], i, k);
    AddCharByteAt(before, text[cut], i, k);
    assert text[..cut][..CharStart(before, i) + k] == text[..CharStart(before, i) + k];
  }

  /** Line and in-line character index of the `m`-th cut of the text. */
  function Locate(lines: seq<string>, m: nat): (r: (nat, nat))
    requires |lines| > 0
    ensures r.0 < |lines|
    ensures m <= CharEnd(lines) ==> r.1 <= |lines[r.0]|
    ensures CharStart(lines, r.0) + r.1 == m
    decreases |lines|
  {
    var last := |lines| - 1;
    if m >= CharStart(lines, last) then (last, m - CharStart(lines, last))
    else
      StartsAgree(lines[..last], lines, last - 1);
      var r := Locate(lines[..last], m);
      StartsAgree(lines[..last], lines, r.0);
      r
  }

  /** `Lines` loses nothing and adds nothing: it holds the text's characters in
      place, and between two lines stands exactly the `\n` that ended the first. */
  lemma {:induction false} LinesSpellText(text: string, i: nat, k: nat)
    requires i < |Lines(text)| && k <= |Lines(text)[i]|
    requires k < |Lines(text)[i]| || i < |Lines(text)| - 1
    ensures CharStart(Lines(text), i) + k < |text|
    ensures text[CharStart(Lines(text), i) + k] == if k < |Lines(text)[i]| then Lines(text)[i][k] else '\n'
  {
    var lines, cut := Lines(text), |text| - 1;
    var before := Lines(text[..cut]);
    AddCharStarts(before, text[cut], if i < |before| then i else |before| - 1);
    LastLine(text[..cut]);
    if i < |before| - 1 || (i == |before| - 1 && k < |before[i]|) {
      LinesSpellText(text[..cut], i, k);
    }
  }

  /** Every cut of a text is a cut of one of its lines. */
  lemma CutOnLine(text: string, m: nat) returns (i: nat, k: nat)
    requires m <= |text|
    ensures i < |Lines(text)| && k <= |Lines(text)[i]|
    ensures CharStart(Lines(text), i) + k == m
    ensures Bytes(text[..m]) == ByteAt(Lines(text), i, k)
  {
    hide Lines, Units, Bytes, CharStart, CharEnd;
    LastLine(text);
    var at := Locate(Lines(text), m);
    i, k := at.0, at.1;
    LinePrefix(text, i, k);
  }
}
