/** The padded pipe table of the Python notifier (`make_table` and its `make_row`). */
module Table {
  import opened Wrappers
  import opened Text
  import opened PyStr

  datatype Destination = Datadog | Slack

  type Row = seq<Cell>

  /** Every row has one cell per header: the assertion make_table makes before it
      renders anything. */
  predicate WellShaped(headers: seq<string>, content: seq<Row>)
  {
    forall j :: 0 <= j < |content| ==> |content[j]| == |headers|
  }

  function Max(a: nat, b: nat): nat
  {
    if a >= b then a else b
  }

  /** `w` is the width of column `i` over the first `k` rows: at least the header and
      every rendered cell, and equal to one of them. */
  ghost predicate IsColumnMax(headers: seq<string>, content: seq<Row>, i: nat, k: nat, w: nat)
    requires WellShaped(headers, content) && i < |headers| && k <= |content|
  {
    && w >= |headers[i]|
    && (forall j :: 0 <= j < k ==> w >= |CellText(content[j][i])|)
    && (w == |headers[i]| || exists j :: 0 <= j < k && w == |CellText(content[j][i])|)
  }

  /** The running maximum make_table keeps for column `i` after `k` rows. */
  function ColumnWidth(headers: seq<string>, content: seq<Row>, i: nat, k: nat): (w: nat)
    requires WellShaped(headers, content) && i < |headers| && k <= |content|
    ensures IsColumnMax(headers, content, i, k, w)
  {
    if k == 0 then |headers[i]|
    else
      var prev := ColumnWidth(headers, content, i, k - 1);
      ColumnMaxStep(headers, content, i, k, prev);
      Max(prev, |CellText(content[k - 1][i])|)
  }

  /** Taking the next row into the running maximum keeps it the column's maximum. */
  lemma ColumnMaxStep(headers: seq<string>, content: seq<Row>, i: nat, k: nat, prev: nat)
    requires WellShaped(headers, content) && i < |headers| && 0 < k <= |content|
    requires IsColumnMax(headers, content, i, k - 1, prev)
    ensures IsColumnMax(headers, content, i, k, Max(prev, |CellText(content[k - 1][i])|))
  {
    var cell := |CellText(content[k - 1][i])|;
    forall j | 0 <= j < k
      ensures Max(prev, cell) >= |CellText(content[j][i])|
    {
    }
    if prev < cell {
      assert 0 <= k - 1 < k && Max(prev, cell) == |CellText(content[k - 1][i])|;
    } else if prev != |headers[i]| {
      var j :| 0 <= j < k - 1 && prev == |CellText(content[j][i])|;
      assert 0 <= j < k && Max(prev, cell) == |CellText(content[j][i])|;
    }
  }

  /** `max_width` of make_table: one width per column. */
  function Widths(headers: seq<string>, content: seq<Row>): (ws: seq<nat>)
    requires WellShaped(headers, content)
    ensures |ws| == |headers|
    ensures forall i :: 0 <= i < |ws| ==> IsColumnMax(headers, content, i, |content|, ws[i])
  {
    seq(|headers|, i requires 0 <= i < |headers| => ColumnWidth(headers, content, i, |content|))
  }

  /** One rendered cell: a space, the text left-justified to the column width, a space. */
  function Pad(text: string, width: nat): string
  {
    " " + LJust(text, width) + " "
  }

  /** The padded cells of a row, in column order. */
  function Cells(texts: seq<string>, ws: seq<nat>): seq<string>
    requires |texts| == |ws|
  {
    seq(|texts|, i requires 0 <= i < |texts| => Pad(texts[i], ws[i]))
  }

  /** make_row: the padded cells joined with "|" between outer bars, ended by a newline. */
  function MakeRow(texts: seq<string>, ws: seq<nat>): (r: string)
    requires |texts| == |ws|
    ensures HasPrefix(r, "|") && HasSuffix(r, "|\n")
  {
    "|" + Join("|", Cells(texts, ws)) + "|\n"
  }

  /** Every text fits its column. */
  predicate Fits(texts: seq<string>, ws: seq<nat>)
  {
    |texts| == |ws| && forall i :: 0 <= i < |ws| ==> |texts[i]| <= ws[i]
  }

  /** Position of the bar in front of column `i` of a rendered row. */
  function Offset(ws: seq<nat>, i: nat): nat
    requires i <= |ws|
  {
    if i == 0 then 0 else Offset(ws, i - 1) + ws[i - 1] + 3
  }

  /** Length of every row rendered with widths `ws`. */
  function RowLength(ws: seq<nat>): nat
  {
    if |ws| == 0 then 3 else Offset(ws, |ws|) + 2
  }

  /** The text between the bars in front of columns `i` and `i + 1` of a rendered row. */
  function Column(row: string, ws: seq<nat>, i: nat): string
    requires i < |ws| && Offset(ws, i + 1) <= |row|
  {
    row[1 + Offset(ws, i)..Offset(ws, i + 1)]
  }

  function Dashes(ws: seq<nat>): seq<string>
  {
    seq(|ws|, i requires 0 <= i < |ws| => Repeat('-', ws[i]))
  }

  function Texts(row: Row): seq<string>
  {
    seq(|row|, i requires 0 <= i < |row| => CellText(row[i]))
  }

  /** The cell texts of line `l` of the table: the headers, the dash cells, then the rows. */
  function LineTexts(headers: seq<string>, content: seq<Row>, l: nat): seq<string>
    requires WellShaped(headers, content) && l < |content| + 2
  {
    if l == 0 then headers
    else if l == 1 then Dashes(Widths(headers, content))
    else Texts(content[l - 2])
  }

  /** Header line, separator line, then one line per row of `content`. */
  function TableLines(headers: seq<string>, content: seq<Row>): seq<string>
    requires WellShaped(headers, content)
  {
    var ws := Widths(headers, content);
    seq(|content| + 2, l requires 0 <= l < |content| + 2 => MakeRow(LineTexts(headers, content, l), ws))
  }

  /** The table text: emitted only when there is more than one row of content. */
  function TableBody(headers: seq<string>, content: seq<Row>): string
    requires WellShaped(headers, content)
  {
    if |content| > 1 then Concat(TableLines(headers, content)) else ""
  }

  const ErrorHeading := "ERROR - the following error occurred while processing this topic:"
  const ChangesStillMade := "The following changes were still made:"
  const NoChangesMade := "No changes were made."

  /** The error heading and footer as each destination formats them. */
  function Banner(text: string, d: Destination): string
  {
    match d
    case Datadog => "# " + text + "\n"
    case Slack => ":warning: *" + text + "*\n"
  }

  /** Slack puts a non-empty table inside a code fence. */
  function Fence(table: string, d: Destination): string
  {
    if d == Slack && table != "" then "```\n" + table + "```" else table
  }

  /** What opens and closes the table in the output of each destination when no error
      text stands in front of it. */
  function Opener(d: Destination): string
  {
    match d
    case Datadog => "%%%\n"
    case Slack => "```\n"
  }

  function Closer(d: Destination): string
  {
    match d
    case Datadog => "%%%"
    case Slack => "```"
  }

  /** What make_table puts around the table text: the Slack fence, the error overlay
      (keyed on the message being present, the footer on whether changes were made) and
      the Datadog "%%%" wrapper. */
  function Frame(table: string, changed: bool, errorMessage: Option<string>, d: Destination): string
  {
    var fenced := Fence(table, d);
    var body :=
      match errorMessage
      case None => fenced
      case Some(msg) =>
        var footer := if changed then ChangesStillMade else NoChangesMade;
        Banner(ErrorHeading, d) + msg + "\n\n" + Banner(footer, d) + fenced;
    if d == Datadog then "%%%\n" + body + "%%%" else body
  }

  /** make_table: an empty table renders as nothing at all, anything else is framed, and
      Datadog output is always wrapped in "%%%" even when there is no table. */
  function MakeTable(headers: seq<string>, content: seq<Row>, errorMessage: Option<string>,
                     d: Destination): (r: string)
    requires WellShaped(headers, content)
    ensures headers == [] && content == [] ==> r == ""
    ensures (headers != [] || content != []) && d == Datadog ==>
              HasPrefix(r, "%%%\n") && HasSuffix(r, "%%%")
  {
    if headers == [] && content == [] then ""
    else Frame(TableBody(headers, content), |content| > 1, errorMessage, d)
  }

  // ---------------------------------------------------------------------------
  // Layout of a rendered row and of the whole table

  lemma PadLength(text: string, width: nat)
    requires |text| <= width
    ensures |Pad(text, width)| == width + 2
  {
  }

  lemma SliceOfConcat(a: string, b: string, lo: nat, hi: nat)
    requires |a| <= lo <= hi <= |a| + |b|
    ensures (a + b)[lo..hi] == b[lo - |a|..hi - |a|]
  {
  }

  lemma {:induction false} OffsetTail(ws: seq<nat>, i: nat)
    requires i < |ws|
    ensures Offset(ws, i + 1) == ws[0] + 3 + Offset(ws[1..], i)
  {
    if i > 0 {
      OffsetTail(ws, i - 1);
    }
  }

  lemma {:induction false} OffsetMonotonic(ws: seq<nat>, i: nat, j: nat)
    requires i <= j <= |ws|
    ensures Offset(ws, i) + 3 * (j - i) <= Offset(ws, j)
    decreases j - i
  {
    if i < j {
      OffsetMonotonic(ws, i, j - 1);
    }
  }

  /** Piece `i` is two characters wider than column `i`. */
  predicate Sized(pieces: seq<string>, ws: seq<nat>)
  {
    |pieces| == |ws| && forall i :: 0 <= i < |ws| ==> |pieces[i]| == ws[i] + 2
  }

  lemma {:induction false} JoinLength(pieces: seq<string>, ws: seq<nat>)
    requires Sized(pieces, ws) && |ws| > 0
    ensures |Join("|", pieces)| == Offset(ws, |ws|) - 1
    decreases |ws|
  {
    if |ws| > 1 {
      JoinLength(pieces[1..], ws[1..]);
      OffsetTail(ws, |ws| - 1);
    }
  }

  lemma {:induction false} JoinPiece(pieces: seq<string>, ws: seq<nat>, i: nat)
    requires Sized(pieces, ws) && i < |ws|
    ensures Offset(ws, i) + ws[i] + 2 <= |Join("|", pieces)|
    ensures Join("|", pieces)[Offset(ws, i)..Offset(ws, i) + ws[i] + 2] == pieces[i]
    decreases |ws|
  {
    if i == 0 {
      JoinHead(pieces, ws);
    } else {
      SizedTail(pieces, ws);
      JoinPiece(pieces[1..], ws[1..], i - 1);
      assert |pieces[0]| == ws[0] + 2;
      JoinShift(pieces, ws, i);
    }
  }

  /** The first piece opens the joined text. */
  lemma JoinHead(pieces: seq<string>, ws: seq<nat>)
    requires Sized(pieces, ws) && |ws| > 0
    ensures ws[0] + 2 <= |Join("|", pieces)|
    ensures Join("|", pieces)[..ws[0] + 2] == pieces[0]
  {
    if |ws| > 1 {
      var rest := Join("|", pieces[1..]);
      assert Join("|", pieces) == pieces[0] + ("|" + rest);
      PrefixOfConcat(pieces[0], "|" + rest);
    }
  }

  /** A later piece sits in the joined tail, shifted by the first piece and its bar. */
  lemma JoinShift(pieces: seq<string>, ws: seq<nat>, i: nat)
    requires |pieces| == |ws| && 0 < i < |ws| && |pieces[0]| == ws[0] + 2
    requires Offset(ws[1..], i - 1) + ws[i] + 2 <= |Join("|", pieces[1..])|
    requires Join("|", pieces[1..])[Offset(ws[1..], i - 1)..Offset(ws[1..], i - 1) + ws[i] + 2] == pieces[i]
    ensures Offset(ws, i) + ws[i] + 2 <= |Join("|", pieces)|
    ensures Join("|", pieces)[Offset(ws, i)..Offset(ws, i) + ws[i] + 2] == pieces[i]
  {
    var p := pieces[0] + "|";
    var rest := Join("|", pieces[1..]);
    assert Join("|", pieces) == p + rest;
    OffsetTail(ws, i - 1);
    var a := Offset(ws[1..], i - 1);
    assert Offset(ws, i) == |p| + a;
    SliceOfConcat(p, rest, |p| + a, |p| + a + ws[i] + 2);
  }

  lemma SizedTail(pieces: seq<string>, ws: seq<nat>)
    requires Sized(pieces, ws) && |ws| > 0
    ensures Sized(pieces[1..], ws[1..])
  {
    forall i | 0 <= i < |ws| - 1
      ensures |pieces[1..][i]| == ws[1..][i] + 2
    {
      assert pieces[1..][i] == pieces[i + 1];
    }
  }

  lemma PrefixOfConcat(a: string, b: string)
    ensures (a + b)[..|a|] == a
  {
  }

  lemma {:induction false} JoinBar(pieces: seq<string>, ws: seq<nat>, i: nat)
    requires Sized(pieces, ws) && 0 < i < |ws|
    ensures Offset(ws, i) <= |Join("|", pieces)|
    ensures Join("|", pieces)[Offset(ws, i) - 1] == '|'
    decreases |ws|
  {
    JoinLength(pieces, ws);
    OffsetMonotonic(ws, i, |ws|);
    var p := pieces[0] + "|";
    var rest := Join("|", pieces[1..]);
    assert Join("|", pieces) == p + rest;
    OffsetTail(ws, i - 1);
    if i > 1 {
      JoinBar(pieces[1..], ws[1..], i - 1);
    }
  }

  lemma CellsSized(texts: seq<string>, ws: seq<nat>)
    requires Fits(texts, ws)
    ensures Sized(Cells(texts, ws), ws)
  {
    forall i | 0 <= i < |ws|
      ensures |Cells(texts, ws)[i]| == ws[i] + 2
    {
      PadLength(texts[i], ws[i]);
    }
  }

  lemma RowSize(texts: seq<string>, ws: seq<nat>)
    requires Fits(texts, ws)
    ensures |MakeRow(texts, ws)| == RowLength(ws)
    ensures MakeRow(texts, ws)[RowLength(ws) - 1] == '\n'
  {
    if |ws| > 0 {
      CellsSized(texts, ws);
      JoinLength(Cells(texts, ws), ws);
    }
  }

  lemma RowBar(texts: seq<string>, ws: seq<nat>, i: nat)
    requires Fits(texts, ws) && i <= |ws|
    ensures Offset(ws, i) < |MakeRow(texts, ws)|
    ensures MakeRow(texts, ws)[Offset(ws, i)] == '|'
  {
    CellsSized(texts, ws);
    PiecesBar(Cells(texts, ws), ws, i);
  }

  lemma PiecesBar(pieces: seq<string>, ws: seq<nat>, i: nat)
    requires Sized(pieces, ws) && i <= |ws|
    ensures Offset(ws, i) < |"|" + Join("|", pieces) + "|\n"|
    ensures ("|" + Join("|", pieces) + "|\n")[Offset(ws, i)] == '|'
  {
    var inner := Join("|", pieces);
    OffsetMonotonic(ws, i, |ws|);
    if 0 < i {
      JoinLength(pieces, ws);
      if i < |ws| {
        JoinBar(pieces, ws, i);
        InnerChar(inner, Offset(ws, i) - 1);
      } else {
        ClosingBar(inner);
      }
    }
  }

  lemma InnerChar(inner: string, k: nat)
    requires k < |inner|
    ensures ("|" + inner + "|\n")[k + 1] == inner[k]
  {
  }

  lemma ClosingBar(inner: string)
    ensures ("|" + inner + "|\n")[|inner| + 1] == '|'
  {
  }

  lemma RowPiece(pieces: seq<string>, ws: seq<nat>, i: nat)
    requires Sized(pieces, ws) && i < |ws|
    ensures Offset(ws, i + 1) <= |"|" + Join("|", pieces) + "|\n"|
    ensures Column("|" + Join("|", pieces) + "|\n", ws, i) == pieces[i]
  {
    var inner := Join("|", pieces);
    JoinPiece(pieces, ws, i);
    var lo := Offset(ws, i);
    var hi := lo + ws[i] + 2;
    SliceOfConcat("|", inner + "|\n", 1 + lo, 1 + hi);
    assert (inner + "|\n")[lo..hi] == inner[lo..hi];
  }

  lemma RowCell(texts: seq<string>, ws: seq<nat>, i: nat)
    requires Fits(texts, ws) && i < |ws|
    ensures Offset(ws, i + 1) <= |MakeRow(texts, ws)|
    ensures Column(MakeRow(texts, ws), ws, i) == Pad(texts[i], ws[i])
  {
    CellsSized(texts, ws);
    RowPiece(Cells(texts, ws), ws, i);
  }

  /** `row` is laid out by the widths `ws`: it has the row length and ends its line, its
      bars stand at `Offset(ws, i)`, and between the bars `i` and `i + 1` lies the text
      of column `i` padded to the width. */
  predicate LaidOut(row: string, ws: seq<nat>, texts: seq<string>)
    requires |texts| == |ws|
  {
    && |row| == RowLength(ws)
    && row[|row| - 1] == '\n'
    && (forall i :: 0 <= i <= |ws| ==> Offset(ws, i) < |row| && row[Offset(ws, i)] == '|')
    && (forall i :: 0 <= i < |ws| ==> Offset(ws, i + 1) <= |row| && Column(row, ws, i) == Pad(texts[i], ws[i]))
  }

  /** Where a cell lands in a rendered row depends on the widths alone, never on the
      texts. */
  lemma RowLayout(texts: seq<string>, ws: seq<nat>)
    requires Fits(texts, ws)
    ensures LaidOut(MakeRow(texts, ws), ws, texts)
  {
    RowSize(texts, ws);
    forall i | 0 <= i <= |ws|
      ensures Offset(ws, i) < RowLength(ws) && MakeRow(texts, ws)[Offset(ws, i)] == '|'
    {
      RowBar(texts, ws, i);
    }
    forall i | 0 <= i < |ws|
      ensures Offset(ws, i + 1) <= RowLength(ws) && Column(MakeRow(texts, ws), ws, i) == Pad(texts[i], ws[i])
    {
      RowCell(texts, ws, i);
    }
  }

  /** Every line of a table fits the column widths. */
  lemma LineFits(headers: seq<string>, content: seq<Row>, l: nat)
    requires WellShaped(headers, content) && l < |content| + 2
    ensures Fits(LineTexts(headers, content, l), Widths(headers, content))
  {
  }

  lemma LineIsRow(headers: seq<string>, content: seq<Row>, l: nat)
    requires WellShaped(headers, content) && l < |content| + 2
    ensures |TableLines(headers, content)| == |content| + 2
    ensures TableLines(headers, content)[l] == MakeRow(LineTexts(headers, content, l), Widths(headers, content))
  {
  }

  /** Every line of the table, the header, the dash separator and each data row, is
      laid out by the same column widths: same length, bars in the same places, and
      column `i` of line `l` holding the text of that line padded to the width. */
  lemma TableLayout(headers: seq<string>, content: seq<Row>, l: nat)
    requires WellShaped(headers, content) && l < |content| + 2
    ensures |TableLines(headers, content)| == |content| + 2
    ensures |LineTexts(headers, content, l)| == |headers|
    ensures LaidOut(TableLines(headers, content)[l], Widths(headers, content), LineTexts(headers, content, l))
  {
    var ws := Widths(headers, content);
    LineIsRow(headers, content, l);
    LineFits(headers, content, l);
    RowLayout(LineTexts(headers, content, l), ws);
  }

  /** The separator line holds `width` dashes in every column. */
  lemma SeparatorCells(headers: seq<string>, content: seq<Row>, i: nat)
    requires WellShaped(headers, content) && i < |headers|
    ensures LineTexts(headers, content, 1)[i] == Repeat('-', Widths(headers, content)[i])
  {
  }

  lemma {:induction false} ConcatNonEmpty(xs: seq<string>)
    requires |xs| > 0 && xs[0] != ""
    ensures Concat(xs) != ""
  {
    assert Concat(xs) == xs[0] + Concat(xs[1..]);
  }

  /** The table text is non-empty exactly when there is more than one row of content. */
  lemma TableBodyNonEmpty(headers: seq<string>, content: seq<Row>)
    requires WellShaped(headers, content)
    ensures TableBody(headers, content) != "" <==> |content| > 1
  {
    if |content| > 1 {
      ConcatNonEmpty(TableLines(headers, content));
    }
  }

  // ---------------------------------------------------------------------------
  // What make_table returns

  /** Without an error message the table text sits between the destination's opener and
      closer when there is more than one row, and nothing but Datadog's empty "%%%"
      wrapper is left otherwise. */
  lemma NoErrorRendering(headers: seq<string>, content: seq<Row>, d: Destination)
    requires WellShaped(headers, content)
    ensures |content| > 1 ==>
              MakeTable(headers, content, None, d) == Opener(d) + TableBody(headers, content) + Closer(d)
    ensures |content| <= 1 ==>
              MakeTable(headers, content, None, d)
                == if d == Datadog && (headers != [] || content != []) then "%%%\n%%%" else ""
  {
    TableBodyNonEmpty(headers, content);
  }

  /** With an error message the output is the error heading, the message and a footer
      saying whether changes were still made, followed by what the same call renders
      without the message; for Datadog all of it stays inside the one "%%%" wrapper. */
  lemma FrameErrorOverlay(table: string, changed: bool, msg: string, d: Destination)
    ensures var footer := if changed then ChangesStillMade else NoChangesMade;
            var banners := Banner(ErrorHeading, d) + msg + "\n\n" + Banner(footer, d);
            var plain := Frame(table, changed, None, d);
            && (d == Slack ==> Frame(table, changed, Some(msg), d) == banners + plain)
            && (d == Datadog ==> |plain| >= 4 && Frame(table, changed, Some(msg), d) == "%%%\n" + banners + plain[4..])
  {
    var fenced := Fence(table, d);
    if d == Datadog {
      var plain := Frame(table, changed, None, d);
      assert plain[4..] == fenced + "%%%";
    }
  }

  /** make_table with an error message: the footer says changes were still made exactly
      when there is more than one row. */
  lemma ErrorOverlay(headers: seq<string>, content: seq<Row>, msg: string, d: Destination)
    requires WellShaped(headers, content) && (headers != [] || content != [])
    ensures var footer := if |content| > 1 then ChangesStillMade else NoChangesMade;
            var banners := Banner(ErrorHeading, d) + msg + "\n\n" + Banner(footer, d);
            var plain := MakeTable(headers, content, None, d);
            && (d == Slack ==> MakeTable(headers, content, Some(msg), d) == banners + plain)
            && (d == Datadog ==> |plain| >= 4 && MakeTable(headers, content, Some(msg), d) == "%%%\n" + banners + plain[4..])
  {
    FrameErrorOverlay(TableBody(headers, content), |content| > 1, msg, d);
  }

  lemma TwoColumnRow(x: string, y: string)
    requires |x| == 4 && |y| == 4
    ensures MakeRow([x, y], [4, 4]) == "| " + x + " | " + y + " |\n"
  {
    assert Cells([x, y], [4, 4]) == [" " + x + " ", " " + y + " "];
    JoinPair("|", " " + x + " ", " " + y + " ");
  }

  lemma ExampleWidths()
    ensures Widths(["col1", "col2"], [[Str("val1"), Str("val2")], [Str("val3"), Str("val4")]]) == [4, 4]
  {
    var headers := ["col1", "col2"];
    var content := [[Str("val1"), Str("val2")], [Str("val3"), Str("val4")]];
    assert ColumnWidth(headers, content, 0, 2) == 4;
    assert ColumnWidth(headers, content, 1, 2) == 4;
  }

  lemma ExampleLine(l: nat, x: string, y: string)
    requires || (l == 0 && x == "col1" && y == "col2")
             || (l == 1 && x == "----" && y == "----")
             || (l == 2 && x == "val1" && y == "val2")
             || (l == 3 && x == "val3" && y == "val4")
    ensures |TableLines(["col1", "col2"], [[Str("val1"), Str("val2")], [Str("val3"), Str("val4")]])| == 4
    ensures TableLines(["col1", "col2"], [[Str("val1"), Str("val2")], [Str("val3"), Str("val4")]])[l]
            == "| " + x + " | " + y + " |\n"
  {
    var headers := ["col1", "col2"];
    var content := [[Str("val1"), Str("val2")], [Str("val3"), Str("val4")]];
    ExampleWidths();
    LineIsRow(headers, content, l);
    if l == 1 {
      assert Repeat('-', 4) == "----";
      assert Dashes([4, 4]) == ["----", "----"];
    }
    assert LineTexts(headers, content, l) == [x, y];
    TwoColumnRow(x, y);
  }

  /** The two-column example of the Python tests, rendered for Slack: the fence is
      followed by a newline, which the test's expected text leaves out. */
  lemma SlackExample()
    ensures MakeTable(["col1", "col2"], [[Str("val1"), Str("val2")], [Str("val3"), Str("val4")]], None, Slack)
            == "```\n"
               + (("| " + "col1" + " | " + "col2" + " |\n")
               + (("| " + "----" + " | " + "----" + " |\n")
               + (("| " + "val1" + " | " + "val2" + " |\n")
               + ("| " + "val3" + " | " + "val4" + " |\n"))))
               + "```"
  {
    var headers := ["col1", "col2"];
    var content := [[Str("val1"), Str("val2")], [Str("val3"), Str("val4")]];
    var lines := TableLines(headers, content);
    ExampleLine(0, "col1", "col2");
    ExampleLine(1, "----", "----");
    ExampleLine(2, "val1", "val2");
    ExampleLine(3, "val3", "val4");
    assert Concat(lines[3..]) == lines[3];
    assert Concat(lines[2..]) == lines[2] + Concat(lines[3..]);
    assert Concat(lines[1..]) == lines[1] + Concat(lines[2..]);
    assert Concat(lines) == lines[0] + Concat(lines[1..]);
  }

  /** The expected text of the Python test (fence directly followed by the header line)
      is not what make_table produces. */
  lemma SlackTestExpectationDiffers()
    ensures MakeTable(["col1", "col2"], [[Str("val1"), Str("val2")], [Str("val3"), Str("val4")]], None, Slack)
            != "```" + "| col1 | col2 |\n" + "| ---- | ---- |\n" + "| val1 | val2 |\n" + "| val3 | val4 |\n" + "```"
  {
    SlackExample();
    var r := MakeTable(["col1", "col2"], [[Str("val1"), Str("val2")], [Str("val3"), Str("val4")]], None, Slack);
    assert r[3] == '\n';
    var rest := "| col1 | col2 |\n" + "| ---- | ---- |\n" + "| val1 | val2 |\n" + "| val3 | val4 |\n" + "```";
    assert ("```" + rest)[3] == '|';
  }
}
