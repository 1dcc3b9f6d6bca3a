/**
  Painting a page: the text is wrapped into rows, the rows that are visible are painted in
  runs of linked and unlinked bytes, and every painted linked run leaves a hit box.  A click
  is answered from those boxes alone.
*/
module Layout {
  import CString
  import opened Html
  import HtmlPages

  const LINE_MAX := 127
  const CELL_W := 8
  const CELL_H := 16
  const LEFT := 8
  const TOP := 40

  // ---- wrapping -----------------------------------------------------------------------

  /** A row shows the page bytes [base, base + len). */
  datatype Row = Row(base: nat, len: nat)

  /** The rows flushed by the wrap loop from state (i, base, len) on. */
  function Wrap(text: seq<char>, i: nat, base: nat, len: nat, width: int): (rows: seq<Row>)
    decreases |text| + 1 - i
  {
    if i > |text| then []
    else
      var c := if i < |text| then text[i] else '\n';
      if c == '\n' || len >= width || len >= LINE_MAX then
        [Row(base, len)]
        + (if c != '\n' && i < |text| then Wrap(text, i + 1, i, 1, width) else Wrap(text, i + 1, i + 1, 0, width))
      else Wrap(text, i + 1, base, if ' ' <= c <= '~' then len + 1 else len, width)
  }

  function Rows(text: seq<char>, width: int): seq<Row> { Wrap(text, 0, 0, 0, width) }

  function Widest(width: int): nat { if width < 1 then 1 else if width > LINE_MAX then LINE_MAX else width }

  /** The text from i on without its newlines. */
  function VisibleFrom(text: seq<char>, i: nat): seq<char>
    decreases |text| - i
  {
    if i >= |text| then [] else (if text[i] == '\n' then [] else [text[i]]) + VisibleFrom(text, i + 1)
  }

  function Visible(text: seq<char>): seq<char> { VisibleFrom(text, 0) }

  function Slice(text: seq<char>, row: Row): seq<char> {
    if row.base + row.len <= |text| then text[row.base..row.base + row.len] else []
  }

  function Flatten(text: seq<char>, rows: seq<Row>): seq<char> {
    if rows == [] then [] else Slice(text, rows[0]) + Flatten(text, rows[1..])
  }

  /** The loop keeps base + len == i, as long as the page has nothing but newlines and
      printable characters: the row under construction is the text just read. */
  predicate Building(text: seq<char>, i: nat, base: nat, len: nat, width: int) {
    (forall k :: 0 <= k < |text| ==> Shown(text[k])) && base + len == i <= |text| && len <= Widest(width)
    && forall k :: base <= k < i ==> text[k] != '\n'
  }

  predicate RowFits(text: seq<char>, row: Row, width: int) {
    row.base + row.len <= |text| && row.len <= Widest(width)
    && forall k :: row.base <= k < row.base + row.len ==> text[k] != '\n'
  }

  /** Row q starts at or after the end of the row before it. */
  predicate After(rows: seq<Row>, q: int)
    requires 0 < q < |rows|
  { rows[q - 1].base + rows[q - 1].len <= rows[q].base }

  /** Slices of the page without newlines, within the width, in page order. */
  predicate Sliced(text: seq<char>, rows: seq<Row>, base: nat, width: int) {
    rows != [] && rows[0].base == base
    && (forall q :: 0 <= q < |rows| ==> RowFits(text, rows[q], width))
    && (forall q :: 0 < q < |rows| ==> After(rows, q))
  }

  lemma SlicedFirst(text: seq<char>, row: Row, rest: seq<Row>, base: nat, width: int)
    requires RowFits(text, row, width) && row.base + row.len <= base
    requires Sliced(text, rest, base, width)
    ensures Sliced(text, [row] + rest, row.base, width)
  {
    var rows := [row] + rest;
    forall q | 0 < q < |rows|
      ensures After(rows, q)
    {
      if q > 1 { assert After(rest, q - 1); }
    }
  }

  lemma {:induction false} WrapSlices(text: seq<char>, i: nat, base: nat, len: nat, width: int)
    requires Building(text, i, base, len, width)
    ensures Sliced(text, Wrap(text, i, base, len, width), base, width)
    decreases |text| + 1 - i
  {
    if i == |text| {
      assert Wrap(text, i + 1, i + 1, 0, width) == [];
    } else if text[i] == '\n' {
      WrapSlices(text, i + 1, i + 1, 0, width);
      SlicedFirst(text, Row(base, len), Wrap(text, i + 1, i + 1, 0, width), i + 1, width);
    } else if len >= width || len >= LINE_MAX {
      WrapSlices(text, i + 1, i, 1, width);
      SlicedFirst(text, Row(base, len), Wrap(text, i + 1, i, 1, width), i, width);
    } else {
      assert Shown(text[i]);
      WrapSlices(text, i + 1, base, len + 1, width);
    }
  }

  lemma FlattenFirst(text: seq<char>, row: Row, rows: seq<Row>)
    ensures Flatten(text, [row] + rows) == Slice(text, row) + Flatten(text, rows)
  {
    assert ([row] + rows)[1..] == rows;
  }

  /** The rows are the text from `base` to i followed by the rest without its newlines. */
  predicate Restores(text: seq<char>, rows: seq<Row>, base: nat, i: nat)
    requires base <= i <= |text|
  { Flatten(text, rows) == text[base..i] + VisibleFrom(text, i) }

  lemma BuildsOn(text: seq<char>, i: nat, base: nat, len: nat, width: int)
    requires Building(text, i, base, len, width) && i < |text|
    ensures text[i] == '\n' ==> Building(text, i + 1, i + 1, 0, width)
    ensures text[i] != '\n' ==> Building(text, i + 1, i, 1, width)
    ensures text[i] != '\n' && len < width && len < LINE_MAX ==>
      Shown(text[i]) && Building(text, i + 1, base, len + 1, width)
  {
  }

  /** Nothing is lost and nothing shown twice: the rows together are the page without its
      newlines. */
  lemma {:induction false} WrapFlattens(text: seq<char>, i: nat, base: nat, len: nat, width: int)
    requires Building(text, i, base, len, width)
    ensures Restores(text, Wrap(text, i, base, len, width), base, i)
    decreases |text| + 1 - i
  {
    if i == |text| {
      AtEnd(text, base, len, width);
      return;
    }
    BuildsOn(text, i, base, len, width);
    if text[i] == '\n' {
      WrapFlattens(text, i + 1, i + 1, 0, width);
      NewlineFlattens(text, i, base, len, width);
    } else if len >= width || len >= LINE_MAX {
      WrapFlattens(text, i + 1, i, 1, width);
      FullFlattens(text, i, base, len, width);
    } else {
      WrapFlattens(text, i + 1, base, len + 1, width);
      CharacterFlattens(text, i, base, len, width);
    }
  }

  lemma NewlineFlattens(text: seq<char>, i: nat, base: nat, len: nat, width: int)
    requires base + len == i < |text| && text[i] == '\n'
    requires Restores(text, Wrap(text, i + 1, i + 1, 0, width), i + 1, i + 1)
    ensures Restores(text, Wrap(text, i, base, len, width), base, i)
  {
    WrapBreaks(text, i, base, len, width);
    AtNewline(text, i, base, len, Wrap(text, i + 1, i + 1, 0, width));
  }

  lemma FullFlattens(text: seq<char>, i: nat, base: nat, len: nat, width: int)
    requires base + len == i < |text| && text[i] != '\n' && (len >= width || len >= LINE_MAX)
    requires Restores(text, Wrap(text, i + 1, i, 1, width), i, i + 1)
    ensures Restores(text, Wrap(text, i, base, len, width), base, i)
  {
    WrapBreaks(text, i, base, len, width);
    AtWrap(text, i, base, len, Wrap(text, i + 1, i, 1, width));
  }

  lemma CharacterFlattens(text: seq<char>, i: nat, base: nat, len: nat, width: int)
    requires base + len == i < |text| && text[i] != '\n' && Shown(text[i]) && len < width && len < LINE_MAX
    requires Restores(text, Wrap(text, i + 1, base, len + 1, width), base, i + 1)
    ensures Restores(text, Wrap(text, i, base, len, width), base, i)
  {
    WrapGoesOn(text, i, base, len, width);
    AtCharacter(text, i, base, Wrap(text, i + 1, base, len + 1, width));
  }

  /** One turn of the wrap loop that flushes a row, and one that does not. */
  lemma WrapBreaks(text: seq<char>, i: nat, base: nat, len: nat, width: int)
    requires i < |text| && (text[i] == '\n' || len >= width || len >= LINE_MAX)
    ensures Wrap(text, i, base, len, width) == [Row(base, len)]
      + (if text[i] == '\n' then Wrap(text, i + 1, i + 1, 0, width) else Wrap(text, i + 1, i, 1, width))
  {
  }

  lemma WrapGoesOn(text: seq<char>, i: nat, base: nat, len: nat, width: int)
    requires i < |text| && Shown(text[i]) && text[i] != '\n' && len < width && len < LINE_MAX
    ensures Wrap(text, i, base, len, width) == Wrap(text, i + 1, base, len + 1, width)
  {
  }

  lemma AtEnd(text: seq<char>, base: nat, len: nat, width: int)
    requires base + len == |text|
    ensures Restores(text, Wrap(text, |text|, base, len, width), base, |text|)
  {
    assert Wrap(text, |text|, base, len, width) == [Row(base, len)] + [];
    FlattenFirst(text, Row(base, len), []);
  }

  lemma AtNewline(text: seq<char>, i: nat, base: nat, len: nat, rest: seq<Row>)
    requires base + len == i < |text| && text[i] == '\n' && Restores(text, rest, i + 1, i + 1)
    ensures Restores(text, [Row(base, len)] + rest, base, i)
  {
    FlattenFirst(text, Row(base, len), rest);
    assert text[i + 1..i + 1] == [];
  }

  lemma AtWrap(text: seq<char>, i: nat, base: nat, len: nat, rest: seq<Row>)
    requires base + len == i < |text| && text[i] != '\n' && Restores(text, rest, i, i + 1)
    ensures Restores(text, [Row(base, len)] + rest, base, i)
  {
    FlattenFirst(text, Row(base, len), rest);
    assert text[i..i + 1] == [text[i]];
  }

  lemma AtCharacter(text: seq<char>, i: nat, base: nat, rows: seq<Row>)
    requires base <= i < |text| && text[i] != '\n' && Restores(text, rows, base, i + 1)
    ensures Restores(text, rows, base, i)
  {
    assert text[base..i + 1] == text[base..i] + [text[i]];
    CString.Regroup(text[base..i], text[i], VisibleFrom(text, i + 1));
  }

  /** A rendered page is shown completely: its rows are slices without newlines, no wider than
      the window and the line buffer allow, in order, and together they are every byte of the
      page but the newlines. */
  lemma RowsPartition(text: seq<char>, width: int)
    requires NormalForm(text)
    ensures Flatten(text, Rows(text, width)) == Visible(text)
    ensures Sliced(text, Rows(text, width), 0, width)
  {
    WrapSlices(text, 0, 0, 0, width);
    WrapFlattens(text, 0, 0, 0, width);
    assert text[0..0] + VisibleFrom(text, 0) == Visible(text);
  }

  // ---- hit boxes ----------------------------------------------------------------------

  datatype Box = Box(x: int, y: int, w: int, link: int)

  predicate Linked(links: seq<Link>, pos: int) { CoverOf(links, pos) >= 0 }

  /** Column where the run of equally linked bytes around column k ends. */
  function RunEnd(links: seq<Link>, row: Row, k: nat, linked: bool): (e: nat)
    requires k <= row.len
    ensures k <= e <= row.len && forall p :: row.base + k <= p < row.base + e ==> Linked(links, p) == linked
    ensures e < row.len ==> Linked(links, row.base + e) != linked
    decreases row.len - k
  {
    if k < row.len && Linked(links, row.base + k) == linked then RunEnd(links, row, k + 1, linked) else k
  }

  /** The boxes of one row painted at height y, from column k on. */
  function RowBoxes(links: seq<Link>, row: Row, k: nat, y: int): seq<Box>
    requires k <= row.len
    decreases row.len - k
  {
    if k == row.len then []
    else
      var linked := Linked(links, row.base + k);
      var e := RunEnd(links, row, k, linked);
      (if linked then [Box(LEFT + CELL_W * k, y, CELL_W * (e - k), CoverOf(links, row.base + k))] else [])
      + RowBoxes(links, row, e, y)
  }

  /** The boxes of the remaining rows, painted row by painted row; `line` is the number of the
      first remaining row. */
  function PaintedRows(links: seq<Link>, rows: seq<Row>, line: nat, scroll: nat, y: int, bottom: int): seq<seq<Box>> {
    if rows == [] then []
    else if line < scroll then PaintedRows(links, rows[1..], line + 1, scroll, y, bottom)
    else [RowBoxes(links, rows[0], 0, y)]
         + if y + CELL_H > bottom then [] else PaintedRows(links, rows[1..], line + 1, scroll, y + CELL_H, bottom)
  }

  function Concat(a: seq<seq<Box>>): seq<Box> { if a == [] then [] else a[0] + Concat(a[1..]) }

  function PageBoxes(links: seq<Link>, rows: seq<Row>, line: nat, scroll: nat, y: int, bottom: int): seq<Box> {
    Concat(PaintedRows(links, rows, line, scroll, y, bottom))
  }

  predicate Inside(b: Box, cx: int, cy: int) { b.x <= cx < b.x + b.w && b.y <= cy < b.y + CELL_H }

  /** Index of the first box under the mouse, -1 when there is none. */
  function HitIndex(boxes: seq<Box>, cx: int, cy: int): (h: int)
    ensures -1 <= h < |boxes|
    ensures h >= 0 ==> Inside(boxes[h], cx, cy)
  {
    if boxes == [] then -1 else if Inside(boxes[0], cx, cy) then 0
    else var h := HitIndex(boxes[1..], cx, cy); if h < 0 then -1 else h + 1
  }

  function HitLink(boxes: seq<Box>, cx: int, cy: int): int {
    var h := HitIndex(boxes, cx, cy);
    if h < 0 then -1 else boxes[h].link
  }

  lemma {:induction false} HitConcat(a: seq<Box>, b: seq<Box>, cx: int, cy: int)
    ensures HitIndex(a + b, cx, cy) ==
      if HitIndex(a, cx, cy) >= 0 then HitIndex(a, cx, cy)
      else if HitIndex(b, cx, cy) >= 0 then |a| + HitIndex(b, cx, cy) else -1
  {
    if a == [] {
      assert a + b == b;
    } else {
      assert (a + b)[1..] == a[1..] + b;
      HitConcat(a[1..], b, cx, cy);
    }
  }

  lemma {:induction false} HitMisses(boxes: seq<Box>, cx: int, cy: int)
    requires forall h :: 0 <= h < |boxes| ==> !Inside(boxes[h], cx, cy)
    ensures HitIndex(boxes, cx, cy) == -1
  {
    if boxes != [] { HitMisses(boxes[1..], cx, cy); }
  }

  /** The mouse is over column k of the row painted at height y. */
  predicate Over(k: nat, y: int, cx: int, cy: int) {
    LEFT + CELL_W * k <= cx < LEFT + CELL_W * (k + 1) && y <= cy < y + CELL_H
  }

  lemma {:induction false} RowExtent(links: seq<Link>, row: Row, k: nat, y: int)
    requires k <= row.len
    ensures forall b :: b in RowBoxes(links, row, k, y) ==> b.y == y && b.x >= LEFT + CELL_W * k && b.link >= 0
    decreases row.len - k
  {
    if k < row.len {
      var linked := Linked(links, row.base + k);
      assert RunEnd(links, row, k, linked) > k;
      RowExtent(links, row, RunEnd(links, row, k, linked), y);
    }
  }

  /** The link that answers for column k: the one covering the first byte of its run. */
  function Answer(links: seq<Link>, row: Row, k0: nat, k: nat): (a: int)
    requires k0 <= k < row.len
    ensures a >= -1
    decreases row.len - k0
  {
    var link := CoverOf(links, row.base + k0);
    var e := RunEnd(links, row, k0, link >= 0);
    if k < e then link else Answer(links, row, e, k)
  }

  lemma {:induction false} AnswerLinked(links: seq<Link>, row: Row, k0: nat, k: nat)
    requires k0 <= k < row.len
    ensures Answer(links, row, k0, k) >= 0 <==> Linked(links, row.base + k)
    ensures k0 < k && Linked(links, row.base + k - 1) && Linked(links, row.base + k) ==>
      Answer(links, row, k0, k - 1) == Answer(links, row, k0, k)
    ensures k0 == k || !Linked(links, row.base + k - 1) ==> Answer(links, row, k0, k) == CoverOf(links, row.base + k)
    decreases row.len - k0
  {
    var link := CoverOf(links, row.base + k0);
    var e := RunEnd(links, row, k0, link >= 0);
    if k >= e { AnswerLinked(links, row, e, k); }
  }

  /** Bytes p - 1 and p belong to different links. */
  predicate Seam(links: seq<Link>, p: int) {
    CoverOf(links, p - 1) >= 0 && CoverOf(links, p) >= 0 && CoverOf(links, p - 1) != CoverOf(links, p)
  }

  /** No two links touch inside the row. */
  predicate RowApart(links: seq<Link>, row: Row) {
    forall p :: row.base < p < row.base + row.len ==> !Seam(links, p)
  }

  lemma {:induction false} AnswerOwn(links: seq<Link>, row: Row, k: nat)
    requires k < row.len && RowApart(links, row)
    ensures Answer(links, row, 0, k) == CoverOf(links, row.base + k)
  {
    AnswerLinked(links, row, 0, k);
    if k > 0 {
      AnswerOwn(links, row, k - 1);
      assert !Seam(links, row.base + k);
    }
  }

  lemma TouchingDisagree(links: seq<Link>, row: Row, k: nat)
    requires 0 < k < row.len && Seam(links, row.base + k)
    ensures Answer(links, row, 0, k - 1) != CoverAt(links, row, k - 1)
      || Answer(links, row, 0, k) != CoverAt(links, row, k)
  {
    AnswerLinked(links, row, 0, k);
  }

  /** Every cell of the row answers with its own link. */
  predicate AnswersOwn(links: seq<Link>, row: Row) {
    forall k :: 0 <= k < row.len ==> Answer(links, row, 0, k) == CoverAt(links, row, k)
  }

  /** Runs merge links that touch, so every cell of a row answers with its own link exactly
      when no two links touch inside that row. */
  lemma AnswerOwnExactly(links: seq<Link>, row: Row)
    ensures RowApart(links, row) <==> AnswersOwn(links, row)
  {
    if RowApart(links, row) {
      forall k | 0 <= k < row.len ensures Answer(links, row, 0, k) == CoverAt(links, row, k) {
        AnswerOwn(links, row, k);
      }
    } else {
      var p :| row.base < p < row.base + row.len && Seam(links, p);
      TouchingDisagree(links, row, p - row.base);
    }
  }

  /** The page of two adjacent links has such a row: the first link answers for both letters. */
  lemma TouchingRow(text: seq<char>, links: seq<Link>, width: int)
    requires text == PageText(HtmlPages.TOUCHING) && links == PageLinks(HtmlPages.TOUCHING) && width >= 2
    ensures Rows(text, width) == [Row(0, 2)] && Ordered(links) && !AnswersOwn(links, Row(0, 2))
  {
    HtmlPages.TouchingPage();
    OneRow(text, width);
    CoverUnique(links, 0, 0);
    CoverUnique(links, 1, 1);
    assert Seam(links, 1);
    assert !RowApart(links, Row(0, 2));
    AnswerOwnExactly(links, Row(0, 2));
  }

  lemma OneRow(text: seq<char>, width: int)
    requires text == "yz" && width >= 2
    ensures Rows(text, width) == [Row(0, 2)]
  {
    assert Wrap(text, 3, 3, 0, width) == [];
    assert Wrap(text, 2, 0, 2, width) == [Row(0, 2)];
    assert Wrap(text, 1, 0, 1, width) == Wrap(text, 2, 0, 2, width);
  }

  function CoverAt(links: seq<Link>, row: Row, k: nat): int { CoverOf(links, row.base + k) }

  /** No two non-empty link ranges touch. */
  predicate Apart(links: seq<Link>) {
    forall m, n :: 0 <= m < n < |links| && links[m].start < links[m].end && links[n].start < links[n].end ==>
      links[m].end < links[n].start
  }

  lemma ApartRow(links: seq<Link>, row: Row)
    requires Ordered(links) && Apart(links)
    ensures RowApart(links, row)
  {
    forall p | row.base < p < row.base + row.len && CoverOf(links, p - 1) >= 0 && CoverOf(links, p) >= 0
      ensures !Seam(links, p)
    {
      CoverUnique(links, p - 1, CoverOf(links, p - 1));
      CoverUnique(links, p, CoverOf(links, p));
    }
  }

  /** Hitting a run: inside it the box answers, past it the box is out of the way. */
  lemma RunHit(first: seq<Box>, rest: seq<Box>, k0: nat, e: nat, y: int, link: int, k: nat, cx: int, cy: int)
    requires k0 < e && k0 <= k && Over(k, y, cx, cy)
    requires first == if link >= 0 then [Box(LEFT + CELL_W * k0, y, CELL_W * (e - k0), link)] else []
    requires forall b :: b in rest ==> b.y == y && b.x >= LEFT + CELL_W * e
    ensures HitLink(first + rest, cx, cy) ==
      if k >= e then HitLink(rest, cx, cy) else if link >= 0 then link else -1
  {
    HitConcat(first, rest, cx, cy);
    if k < e {
      HitMisses(rest, cx, cy);
      if link >= 0 { assert Inside(first[0], cx, cy); }
    } else {
      HitMisses(first, cx, cy);
    }
  }

  /** The run that starts at column k0: where it ends and what it contributes. */
  lemma RunFacts(links: seq<Link>, row: Row, k0: nat, y: int, k: nat) returns (e: nat, link: int, first: seq<Box>)
    requires k0 <= k < row.len
    ensures k0 < e <= row.len && link == CoverOf(links, row.base + k0)
    ensures first == if link >= 0 then [Box(LEFT + CELL_W * k0, y, CELL_W * (e - k0), link)] else []
    ensures RowBoxes(links, row, k0, y) == first + RowBoxes(links, row, e, y)
    ensures forall b :: b in RowBoxes(links, row, e, y) ==> b.y == y && b.x >= LEFT + CELL_W * e
    ensures Answer(links, row, k0, k) == if k < e then link else Answer(links, row, e, k)
  {
    link := CoverOf(links, row.base + k0);
    e := RunEnd(links, row, k0, link >= 0);
    first := if link >= 0 then [Box(LEFT + CELL_W * k0, y, CELL_W * (e - k0), link)] else [];
    RowExtent(links, row, e, y);
  }

  /** In its row, a cell is under a box exactly when its byte is linked, and the box carries
      the link of the first byte of the run. */
  lemma {:induction false} RowHit(links: seq<Link>, row: Row, k0: nat, y: int, k: nat, cx: int, cy: int)
    requires k0 <= k < row.len && Over(k, y, cx, cy)
    ensures HitLink(RowBoxes(links, row, k0, y), cx, cy) == Answer(links, row, k0, k)
    decreases row.len - k0
  {
    var e, link, first := RunFacts(links, row, k0, y, k);
    RunHit(first, RowBoxes(links, row, e, y), k0, e, y, link, k, cx, cy);
    if k >= e { RowHit(links, row, e, y, k, cx, cy); }
  }

  // ---- a click ------------------------------------------------------------------------

  /** The boxes of painted row j are all at height y + 16 j, and carry a link. */
  predicate Layered(a: seq<seq<Box>>, y: int) {
    forall j :: 0 <= j < |a| ==> Level(a[j], y + CELL_H * j)
  }

  predicate Level(boxes: seq<Box>, y: int) { forall b :: b in boxes ==> b.y == y && b.link >= 0 }

  /** Rows above the scroll offset. */
  function Hidden(line: nat, scroll: nat): nat { if line < scroll then scroll - line else 0 }

  /** Row q of the remaining rows is painted, at height `at`. */
  predicate Painted(rows: seq<Row>, line: nat, scroll: nat, y: int, bottom: int, q: nat, at: int) {
    var v := Hidden(line, scroll);
    v <= q < |rows| && at == y + CELL_H * (q - v) && (q == v || at <= bottom)
  }

  lemma {:induction false} RowsLayered(links: seq<Link>, rows: seq<Row>, line: nat, scroll: nat, y: int, bottom: int)
    ensures Layered(PaintedRows(links, rows, line, scroll, y, bottom), y)
    decreases |rows|
  {
    if rows != [] {
      if line < scroll {
        RowsLayered(links, rows[1..], line + 1, scroll, y, bottom);
      } else {
        RowExtent(links, rows[0], 0, y);
        var rest :=
          if y + CELL_H > bottom then [] else PaintedRows(links, rows[1..], line + 1, scroll, y + CELL_H, bottom);
        RowsLayered(links, rows[1..], line + 1, scroll, y + CELL_H, bottom);
        LayeredFirst(RowBoxes(links, rows[0], 0, y), rest, y);
      }
    }
  }

  lemma LayeredFirst(own: seq<Box>, rest: seq<seq<Box>>, y: int)
    requires Level(own, y) && Layered(rest, y + CELL_H)
    ensures Layered([own] + rest, y)
  {
    var a := [own] + rest;
    forall j | 0 <= j < |a| ensures Level(a[j], y + CELL_H * j) {
      if j > 0 { assert a[j] == rest[j - 1] && Level(rest[j - 1], y + CELL_H + CELL_H * (j - 1)); }
    }
  }

  /** The rows below the scroll offset, without the counting of lines. */
  function Down(links: seq<Link>, rows: seq<Row>, y: int, bottom: int): seq<seq<Box>>
    decreases |rows|
  {
    if rows == [] then []
    else [RowBoxes(links, rows[0], 0, y)]
         + if y + CELL_H > bottom then [] else Down(links, rows[1..], y + CELL_H, bottom)
  }

  lemma {:induction false} PaintedDown(links: seq<Link>, rows: seq<Row>, line: nat, scroll: nat, y: int, bottom: int)
    requires line >= scroll
    ensures PaintedRows(links, rows, line, scroll, y, bottom) == Down(links, rows, y, bottom)
    decreases |rows|
  {
    if rows != [] { PaintedDown(links, rows[1..], line + 1, scroll, y + CELL_H, bottom); }
  }

  predicate Nth(a: seq<seq<Box>>, q: nat, boxes: seq<Box>) { q < |a| && a[q] == boxes }

  lemma NthFirst(first: seq<Box>, a: seq<seq<Box>>, q: nat, boxes: seq<Box>)
    requires q > 0 && Nth(a, q - 1, boxes)
    ensures Nth([first] + a, q, boxes)
  {
  }

  /** Row q is painted q cells further down, if that is in the window. */
  lemma {:induction false} RowBelow(links: seq<Link>, rows: seq<Row>, y: int, bottom: int, q: nat)
    requires q < |rows| && (q == 0 || y + CELL_H * q <= bottom)
    ensures Nth(Down(links, rows, y, bottom), q, RowBoxes(links, rows[q], 0, y + CELL_H * q))
    decreases |rows|
  {
    if q > 0 {
      var rest := rows[1..];
      RowBelow(links, rest, y + CELL_H, bottom, q - 1);
      assert rest[q - 1] == rows[q];
      var first, own := RowBoxes(links, rows[0], 0, y), RowBoxes(links, rows[q], 0, y + CELL_H * q);
      NthFirst(first, Down(links, rest, y + CELL_H, bottom), q, own);
    }
  }

  lemma {:induction false} RowIsPainted(links: seq<Link>, rows: seq<Row>, line: nat, scroll: nat, y: int, bottom: int,
                                        q: nat, at: int)
    requires Painted(rows, line, scroll, y, bottom, q, at)
    ensures var a := PaintedRows(links, rows, line, scroll, y, bottom); var j := q - Hidden(line, scroll);
      j < |a| && a[j] == RowBoxes(links, rows[q], 0, at)
    decreases |rows|
  {
    if line < scroll {
      RowIsPainted(links, rows[1..], line + 1, scroll, y, bottom, q - 1, at);
    } else {
      PaintedDown(links, rows, line, scroll, y, bottom);
      RowBelow(links, rows, y, bottom, q);
    }
  }

  /** Boxes of one row followed by boxes of lower rows: the height decides who answers. */
  lemma HeightDecides(own: seq<Box>, rest: seq<Box>, y: int, cx: int, cy: int)
    requires Level(own, y) && forall b :: b in rest ==> b.y >= y + CELL_H
    ensures y <= cy < y + CELL_H ==> HitLink(own + rest, cx, cy) == HitLink(own, cx, cy)
    ensures cy >= y + CELL_H ==> HitLink(own + rest, cx, cy) == HitLink(rest, cx, cy)
  {
    HitConcat(own, rest, cx, cy);
    if y <= cy < y + CELL_H { HitMisses(rest, cx, cy); } else if cy >= y + CELL_H { HitMisses(own, cx, cy); }
  }

  lemma LayeredRest(a: seq<seq<Box>>, y: int)
    requires Layered(a, y) && a != []
    ensures Level(a[0], y) && Layered(a[1..], y + CELL_H)
  {
    assert Level(a[0], y + CELL_H * 0);
    forall j | 0 <= j < |a[1..]| ensures Level(a[1..][j], y + CELL_H + CELL_H * j) {
      assert Level(a[j + 1], y + CELL_H * (j + 1));
    }
  }

  lemma {:induction false} ConcatExtent(a: seq<seq<Box>>, y: int)
    requires Layered(a, y)
    ensures forall b :: b in Concat(a) ==> b.y >= y && b.link >= 0
  {
    if a != [] {
      LayeredRest(a, y);
      ConcatExtent(a[1..], y + CELL_H);
    }
  }

  /** Only the boxes of its own row can answer for a cell. */
  lemma {:induction false} ConcatHit(a: seq<seq<Box>>, y: int, j: nat, cx: int, cy: int)
    requires Layered(a, y) && j < |a| && y + CELL_H * j <= cy < y + CELL_H * j + CELL_H
    ensures HitLink(Concat(a), cx, cy) == HitLink(a[j], cx, cy)
  {
    LayeredRest(a, y);
    ConcatExtent(a[1..], y + CELL_H);
    HeightDecides(a[0], Concat(a[1..]), y, cx, cy);
    if j > 0 { ConcatHit(a[1..], y + CELL_H, j - 1, cx, cy); }
  }

  lemma PageHit(links: seq<Link>, rows: seq<Row>, line: nat, scroll: nat, y: int, bottom: int,
                q: nat, at: int, cx: int, cy: int)
    requires Painted(rows, line, scroll, y, bottom, q, at) && at <= cy < at + CELL_H
    ensures HitLink(PageBoxes(links, rows, line, scroll, y, bottom), cx, cy)
      == HitLink(RowBoxes(links, rows[q], 0, at), cx, cy)
    ensures forall b :: b in PageBoxes(links, rows, line, scroll, y, bottom) ==> b.link >= 0
  {
    var a := PaintedRows(links, rows, line, scroll, y, bottom);
    RowsLayered(links, rows, line, scroll, y, bottom);
    RowIsPainted(links, rows, line, scroll, y, bottom, q, at);
    ConcatExtent(a, y);
    ConcatHit(a, y, q - Hidden(line, scroll), cx, cy);
  }

  /** All boxes of a frame, and the ones that fit in the table. */
  function AllBoxes(text: seq<char>, links: seq<Link>, width: int, scroll: nat, bottom: int): seq<Box> {
    PageBoxes(links, Rows(text, width), 0, scroll, TOP, bottom)
  }

  function Capped(boxes: seq<Box>): seq<Box> { if |boxes| > MAX_LINKS then boxes[..MAX_LINKS] else boxes }

  lemma {:induction false} HitPrefix(boxes: seq<Box>, n: nat, cx: int, cy: int)
    requires n <= |boxes|
    ensures HitIndex(boxes[..n], cx, cy) == if HitIndex(boxes, cx, cy) < n then HitIndex(boxes, cx, cy) else -1
  {
    HitConcat(boxes[..n], boxes[n..], cx, cy);
    assert boxes[..n] + boxes[n..] == boxes;
  }

  /** Click exactness: over any painted cell, a click finds a link exactly when the byte shown
      there is linked, as long as the box had a slot; and the link it finds is the one that
      answers for the cell, which is the byte's own when no two links touch. */
  lemma ClickExact(text: seq<char>, links: seq<Link>, width: int, scroll: nat, bottom: int,
                   q: nat, at: int, k: nat, cx: int, cy: int)
    requires Painted(Rows(text, width), 0, scroll, TOP, bottom, q, at)
    requires k < Rows(text, width)[q].len && Over(k, at, cx, cy)
    ensures var all, row := AllBoxes(text, links, width, scroll, bottom), Rows(text, width)[q];
      var h := HitIndex(all, cx, cy);
      && (h >= 0 <==> Linked(links, row.base + k))
      && HitLink(Capped(all), cx, cy) == (if h < MAX_LINKS then Answer(links, row, 0, k) else -1)
      && (Ordered(links) && Apart(links) ==> Answer(links, row, 0, k) == CoverOf(links, row.base + k))
  {
    var rows := Rows(text, width);
    var all := AllBoxes(text, links, width, scroll, bottom);
    PageHit(links, rows, 0, scroll, TOP, bottom, q, at, cx, cy);
    RowHit(links, rows[q], 0, at, k, cx, cy);
    AnswerLinked(links, rows[q], 0, k);
    if Ordered(links) && Apart(links) {
      ApartRow(links, rows[q]);
      AnswerOwn(links, rows[q], k);
    }
    if |all| > MAX_LINKS { HitPrefix(all, MAX_LINKS, cx, cy); }
  }

  /** A click beside every painted linked cell finds nothing. */
  lemma MissOutside(boxes: seq<Box>, cx: int, cy: int)
    ensures HitLink(boxes, cx, cy) < 0 <== forall b :: b in boxes ==> !Inside(b, cx, cy)
  {
    if forall b :: b in boxes ==> !Inside(b, cx, cy) { HitMisses(boxes, cx, cy); }
  }

  // ---- the code -----------------------------------------------------------------------

  function Add(boxes: seq<Box>, more: seq<Box>): seq<Box> { Capped(boxes + more) }

  lemma AddTwice(a: seq<Box>, b: seq<Box>, c: seq<Box>)
    requires |a| <= MAX_LINKS
    ensures Add(Add(a, b), c) == Add(a, b + c)
  {
    assert a + b + c == a + (b + c);
  }

  method FindRunEnd(links: seq<Link>, row: Row, start: nat, linked: bool) returns (end: nat)
    requires Ordered(links) && start <= row.len
    ensures end == RunEnd(links, row, start, linked)
  {
    end := start;
    while end < row.len
      invariant start <= end <= row.len && RunEnd(links, row, end, linked) == RunEnd(links, row, start, linked)
    {
      var l := LinkIndexAt(links, row.base + end);
      if (l >= 0) != linked { break; }
      end := end + 1;
    }
  }

  function FirstBox(link: int, start: nat, end: int, y: int): seq<Box> {
    if link >= 0 then [Box(LEFT + CELL_W * start, y, CELL_W * (end - start), link)] else []
  }

  lemma RowFirst(links: seq<Link>, row: Row, start: nat, y: int, boxes: seq<Box>)
    requires start < row.len && |boxes| <= MAX_LINKS
    ensures var link := CoverOf(links, row.base + start);
      var end := RunEnd(links, row, start, link >= 0);
      end > start
      && Add(boxes, RowBoxes(links, row, start, y))
         == Add(Add(boxes, FirstBox(link, start, end, y)), RowBoxes(links, row, end, y))
  {
    var link := CoverOf(links, row.base + start);
    var end := RunEnd(links, row, start, link >= 0);
    AddTwice(boxes, FirstBox(link, start, end, y), RowBoxes(links, row, end, y));
  }

  lemma AddNothing(boxes: seq<Box>)
    requires |boxes| <= MAX_LINKS
    ensures Add(boxes, []) == boxes
  {
    assert boxes + [] == boxes;
  }

  lemma AddFirst(boxes: seq<Box>, link: int, start: nat, end: int, y: int)
    requires |boxes| <= MAX_LINKS
    ensures Add(boxes, FirstBox(link, start, end, y)) ==
      if link >= 0 && |boxes| < MAX_LINKS then boxes + [Box(LEFT + start * CELL_W, y, (end - start) * CELL_W, link)]
      else boxes
  {
    AddNothing(boxes);
  }

  /** One run of the row loop: at most one box, while slots remain. */
  method PaintRun(links: seq<Link>, row: Row, start: nat, y: int, boxes: seq<Box>) returns (r: seq<Box>, end: nat)
    requires Ordered(links) && |boxes| <= MAX_LINKS && start < row.len
    ensures start < end <= row.len && |r| <= MAX_LINKS
    ensures Add(r, RowBoxes(links, row, end, y)) == Add(boxes, RowBoxes(links, row, start, y))
  {
    RowFirst(links, row, start, y, boxes);
    var link := LinkIndexAt(links, row.base + start);
    end := FindRunEnd(links, row, start, link >= 0);
    AddFirst(boxes, link, start, end, y);
    r := boxes;
    if link >= 0 && |boxes| < MAX_LINKS {
      r := boxes + [Box(LEFT + start * CELL_W, y, (end - start) * CELL_W, link)];
    }
  }

  /** The run loop of draw_browser for one row. */
  method PaintRow(links: seq<Link>, row: Row, y: int, boxes: seq<Box>) returns (r: seq<Box>)
    requires Ordered(links) && |boxes| <= MAX_LINKS
    ensures r == Add(boxes, RowBoxes(links, row, 0, y))
  {
    r := boxes;
    var start := 0;
    while start < row.len
      invariant 0 <= start <= row.len && |r| <= MAX_LINKS
      invariant Add(r, RowBoxes(links, row, start, y)) == Add(boxes, RowBoxes(links, row, 0, y))
      decreases row.len - start
    {
      r, start := PaintRun(links, row, start, y, r);
    }
    AddNothing(r);
  }

  /** What the wrap loop does when a row is complete. */
  function AfterRow(text: seq<char>, i: nat, width: int): seq<Row> {
    if i < |text| && text[i] != '\n' then Wrap(text, i + 1, i, 1, width) else Wrap(text, i + 1, i + 1, 0, width)
  }

  lemma PageFirst(links: seq<Link>, row: Row, rest: seq<Row>, line: nat, scroll: nat, y: int, bottom: int)
    ensures PageBoxes(links, [row] + rest, line, scroll, y, bottom) ==
      if line < scroll then PageBoxes(links, rest, line + 1, scroll, y, bottom)
      else RowBoxes(links, row, 0, y)
           + if y + CELL_H > bottom then [] else PageBoxes(links, rest, line + 1, scroll, y + CELL_H, bottom)
  {
    assert ([row] + rest)[1..] == rest;
    if line >= scroll {
      var own := [RowBoxes(links, row, 0, y)];
      var more := if y + CELL_H > bottom then [] else PaintedRows(links, rest, line + 1, scroll, y + CELL_H, bottom);
      assert PaintedRows(links, [row] + rest, line, scroll, y, bottom) == own + more;
      assert (own + more)[1..] == more;
      assert Concat(own + more) == own[0] + Concat(more);
    }
  }

  lemma FlushRow(text: seq<char>, links: seq<Link>, i: nat, base: nat, len: nat, width: int,
                 line: nat, scroll: nat, y: int, bottom: int, boxes: seq<Box>)
    requires i <= |text| && |boxes| <= MAX_LINKS
    requires i == |text| || text[i] == '\n' || len >= width || len >= LINE_MAX
    ensures var rest := AfterRow(text, i, width);
      Add(boxes, PageBoxes(links, Wrap(text, i, base, len, width), line, scroll, y, bottom)) ==
      if line < scroll then Add(boxes, PageBoxes(links, rest, line + 1, scroll, y, bottom))
      else
        var own := Add(boxes, RowBoxes(links, Row(base, len), 0, y));
        if y + CELL_H > bottom then own else Add(own, PageBoxes(links, rest, line + 1, scroll, y + CELL_H, bottom))
  {
    var rest := AfterRow(text, i, width);
    assert Wrap(text, i, base, len, width) == [Row(base, len)] + rest;
    PageFirst(links, Row(base, len), rest, line, scroll, y, bottom);
    if line >= scroll {
      var own := RowBoxes(links, Row(base, len), 0, y);
      var below := if y + CELL_H > bottom then [] else PageBoxes(links, rest, line + 1, scroll, y + CELL_H, bottom);
      AddTwice(boxes, own, below);
      AddNothing(Add(boxes, own));
    }
  }

  /** A completed row: painted when it is not above the scroll offset; `more` is false when
      the next row would be below the page area. */
  method Flush(text: seq<char>, links: seq<Link>, i: nat, base: nat, len: nat, width: int,
               line: nat, scroll: nat, y: int, bottom: int, boxes: seq<Box>)
    returns (r: seq<Box>, y': int, more: bool)
    requires Ordered(links) && i <= |text| && |boxes| <= MAX_LINKS
    requires i == |text| || text[i] == '\n' || len >= width || len >= LINE_MAX
    ensures |r| <= MAX_LINKS
    ensures Add(boxes, PageBoxes(links, Wrap(text, i, base, len, width), line, scroll, y, bottom)) ==
      if more then Add(r, PageBoxes(links, AfterRow(text, i, width), line + 1, scroll, y', bottom)) else r
  {
    FlushRow(text, links, i, base, len, width, line, scroll, y, bottom, boxes);
    r, y', more := boxes, y, true;
    if line >= scroll {
      r := PaintRow(links, Row(base, len), y, boxes);
      y' := y + CELL_H;
      more := y' <= bottom;
    }
  }

  /** Characters per row in a window of this width; the division truncates toward zero. */
  function Columns(winCw: int): int { (if winCw >= 28 then (winCw - 28) / 8 else -((28 - winCw) / 8)) - 1 }

  /** In a window of at least 44 pixels the last column ends left of the scrollbar, with room for
      exactly two more columns. */
  lemma ColumnsFit(winCw: int)
    requires winCw >= 44
    ensures Columns(winCw) >= 1 && 8 + 8 * (Columns(winCw) + 2) <= winCw - 12 < 8 + 8 * (Columns(winCw) + 3)
  {
  }

  /** The page part of draw_browser: the wrap loop, stopping below the last visible row. */
  method DrawPage(text: seq<char>, links: seq<Link>, scroll: nat, winCw: int, winCh: int) returns (boxes: seq<Box>)
    requires Ordered(links)
    ensures boxes == Capped(AllBoxes(text, links, Columns(winCw), scroll, winCh - 40))
  {
    var width, bottom := Columns(winCw), winCh - 40;
    var y, len, base, line, i := TOP, 0, 0, 0, 0;
    boxes := [];
    ghost var all := Capped(AllBoxes(text, links, width, scroll, bottom));
    assert [] + AllBoxes(text, links, width, scroll, bottom) == AllBoxes(text, links, width, scroll, bottom);
    while i <= |text|
      invariant 0 <= i <= |text| + 1 && |boxes| <= MAX_LINKS && base >= 0 && len >= 0
      invariant Add(boxes, PageBoxes(links, Wrap(text, i, base, len, width), line, scroll, y, bottom)) == all
    {
      var c := if i < |text| then text[i] else '\n';
      if c == '\n' || len >= width || len >= LINE_MAX {
        var more;
        boxes, y, more := Flush(text, links, i, base, len, width, line, scroll, y, bottom, boxes);
        if !more { return; }
        line, len, base := line + 1, 0, i + 1;
        if c != '\n' && i < |text| { len, base := 1, i; }
      } else if ' ' <= c <= '~' {
        len := len + 1;
      }
      i := i + 1;
    }
    AddNothing(boxes);
  }

  /** link_hit_at. */
  method LinkHitAt(boxes: seq<Box>, cx: int, cy: int) returns (link: int)
    ensures link == HitLink(boxes, cx, cy)
  {
    var h := 0;
    while h < |boxes|
      invariant 0 <= h <= |boxes|
      invariant var rest := HitIndex(boxes[h..], cx, cy); HitIndex(boxes, cx, cy) == if rest < 0 then -1 else h + rest
    {
      var b := boxes[h];
      if cx >= b.x && cx < b.x + b.w && cy >= b.y && cy < b.y + CELL_H { return b.link; }
      assert boxes[h..][1..] == boxes[h + 1..];
      h := h + 1;
    }
    return -1;
  }
}
