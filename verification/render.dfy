/** Read-only projections of the patch model: the review panel's status
    badge, per-line prefix, colours and gutters, hunk headers, file-name
    split, and the inline transcript diff that splits raw text into numbered
    rows. */
module Render {
  import opened Base
  import opened Text
  import opened Patch

  // ---------------------------------------------------------------------------
  // Status badge
  // ---------------------------------------------------------------------------

  /** `getStatusLabel`: one letter for the three known status strings, `?`
      for anything else. */
  function StatusLabel(status: string): (r: string)
    ensures r in {"A", "M", "D", "?"}
    ensures r == "?" <==> status !in {"added", "modified", "deleted"}
  {
    if status == "added" then "A"
    else if status == "modified" then "M"
    else if status == "deleted" then "D"
    else "?"
  }

  /** `getStatusColor`; the side summary carries an identical copy. */
  function StatusColor(status: string): string
  {
    if status == "added" then "text-[#50fa7b]"
    else if status == "modified" then "text-[#f1fa8c]"
    else if status == "deleted" then "text-[#ff5555]"
    else "text-[#9ca3af]"
  }

  /** The two file lists agree on the status letter: the review panel's label
      is the side summary's `status.charAt(0)` shown upper-case, and distinct
      statuses get distinct letters and colours. */
  lemma StatusLabelIsInitial(s: FileStatus)
    ensures StatusLabel(StatusName(s)) == [UpperChar(StatusName(s)[0])]
    ensures forall t: FileStatus :: t != s ==>
      StatusLabel(StatusName(t)) != StatusLabel(StatusName(s))
      && StatusColor(StatusName(t)) != StatusColor(StatusName(s))
  {
  }

  // ---------------------------------------------------------------------------
  // Per-line projection of the full viewer
  // ---------------------------------------------------------------------------

  /** Glyph and colour classes of one line, a function of its type alone. */
  datatype LineStyle = LineStyle(prefix: string, background: string, textColor: string)

  const AddBackground := "bg-[#0f4c2a]"
  const RemoveBackground := "bg-[#4c0f0f]"
  const PlainBackground := "bg-transparent"
  const AddText := "text-[#50fa7b]"
  const RemoveText := "text-[#ff5555]"
  const PlainText := "text-[#f8f8f2]"

  function StyleOf(kind: LineType): (r: LineStyle)
    ensures r.prefix == "+" <==> kind == Add
    ensures r.prefix == "-" <==> kind == Remove
    ensures r.prefix == " " <==> kind in {Context, Header}
    ensures |r.prefix| == 1
  {
    match kind
    case Add => LineStyle("+", AddBackground, AddText)
    case Remove => LineStyle("-", RemoveBackground, RemoveText)
    case _ => LineStyle(" ", PlainBackground, PlainText)
  }

  /** Header lines are drawn exactly like context lines, and the three drawn
      kinds are pairwise distinguishable by colour as well as by glyph. */
  lemma StyleClasses()
    ensures StyleOf(Header) == StyleOf(Context)
    ensures StyleOf(Add).background != StyleOf(Remove).background
    ensures StyleOf(Add).background != StyleOf(Context).background
    ensures StyleOf(Remove).background != StyleOf(Context).background
    ensures StyleOf(Add).textColor != StyleOf(Remove).textColor
  {
  }

  /** `{line.oldLineNumber || ""}`: an absent number and the number 0 are both
      falsy and render blank; any other number renders as its numeral. */
  function Gutter(n: Option<nat>): (r: string)
    ensures r == "" <==> n == None || n == Some(0)
    ensures r != "" ==> AllDigits(r) && n.Some? && ParseDigits(r) == n.value
  {
    match n
    case None => ""
    case Some(v) => if v == 0 then "" else NatToString(v)
  }

  /** One row of the full viewer. */
  datatype Row = Row(oldGutter: string, newGutter: string, style: LineStyle, content: string)

  function RenderLine(l: DiffLine): Row {
    Row(Gutter(l.oldLineNumber), Gutter(l.newLineNumber), StyleOf(l.kind), l.content)
  }

  /** A hunk renders one row per line, in array order, nothing merged or dropped. */
  function RenderHunkRows(h: DiffHunk): (rows: seq<Row>)
    ensures |rows| == |h.lines|
    ensures forall i :: 0 <= i < |rows| ==>
      rows[i].content == h.lines[i].content
      && rows[i].oldGutter == Gutter(h.lines[i].oldLineNumber)
      && rows[i].newGutter == Gutter(h.lines[i].newLineNumber)
      && rows[i].style == StyleOf(h.lines[i].kind)
  {
    seq(|h.lines|, i requires 0 <= i < |h.lines| => RenderLine(h.lines[i]))
  }

  /** Every row can be read back: its glyph names the line's type, and each
      gutter is blank exactly for a missing or zero number and otherwise reads
      back as that number. */
  lemma RowsReadBack(h: DiffHunk, i: nat)
    requires i < |h.lines|
    ensures var row := RenderHunkRows(h)[i];
      var l := h.lines[i];
      (row.style.prefix == "+" <==> l.kind == Add)
      && (row.style.prefix == "-" <==> l.kind == Remove)
      && (row.oldGutter == "" <==> l.oldLineNumber == None || l.oldLineNumber == Some(0))
      && (row.oldGutter != "" ==> ParseDigits(row.oldGutter) == l.oldLineNumber.value)
      && (row.newGutter == "" <==> l.newLineNumber == None || l.newLineNumber == Some(0))
      && (row.newGutter != "" ==> ParseDigits(row.newGutter) == l.newLineNumber.value)
  {
  }

  // ---------------------------------------------------------------------------
  // Hunk header
  // ---------------------------------------------------------------------------

  /** `@@ -{oldStart},{oldLines} +{newStart},{newLines} @@`. Unlike the unified
      format of the POSIX `diff` utility, both numbers of each range are
      always printed, including a length of 1. */
  function HunkHeader(h: DiffHunk): string {
    "@@ " + ("-" + RangeText(h.oldStart, h.oldLines)) + " "
    + ("+" + RangeText(h.newStart, h.newLines)) + " @@"
  }

  datatype Range4 = Range4(oldStart: nat, oldLines: nat, newStart: nat, newLines: nat)

  /** Reads `a,b` with both parts non-empty decimal numerals. */
  function ParseRange(s: string): Option<(nat, nat)> {
    var parts := Split(s, ',');
    if |parts| == 2 && |parts[0]| >= 1 && |parts[1]| >= 1
       && AllDigits(parts[0]) && AllDigits(parts[1])
    then Some((ParseDigits(parts[0]), ParseDigits(parts[1])))
    else None
  }

  /** Reads a header of the shape `HunkHeader` prints. */
  function ParseHunkHeader(s: string): Option<Range4> {
    var parts := Split(s, ' ');
    if |parts| == 4 && parts[0] == "@@" && parts[3] == "@@"
       && |parts[1]| >= 1 && parts[1][0] == '-'
       && |parts[2]| >= 1 && parts[2][0] == '+'
    then
      match (ParseRange(parts[1][1..]), ParseRange(parts[2][1..]))
      case (Some(o), Some(n)) => Some(Range4(o.0, o.1, n.0, n.1))
      case _ => None
    else None
  }

  /** A numeral contains neither a space nor a comma. */
  lemma NumeralHasNoSeparators(n: nat)
    ensures ' ' !in NatToString(n) && ',' !in NatToString(n)
  {
    var s := NatToString(n);
    assert forall i :: 0 <= i < |s| ==> s[i] != ' ' && s[i] != ',' by {
      assert AllDigits(s);
    }
  }

  /** `a,b`, the text of one range. */
  function RangeText(a: nat, b: nat): string {
    NatToString(a) + "," + NatToString(b)
  }

  /** `a,b` for two numerals reads back as the pair. */
  lemma {:induction false} RangeRoundTrip(a: nat, b: nat)
    ensures ParseRange(RangeText(a, b)) == Some((a, b))
    ensures ' ' !in RangeText(a, b)
  {
    var A, B := NatToString(a), NatToString(b);
    NumeralHasNoSeparators(a);
    NumeralHasNoSeparators(b);
    assert Join([A, B], ',') == A + "," + B;
    SplitJoin([A, B], ',');
  }

  /** The header is its four space-separated fields. */
  lemma HeaderFields(h: DiffHunk)
    ensures HunkHeader(h) == Join(["@@", "-" + RangeText(h.oldStart, h.oldLines),
                                   "+" + RangeText(h.newStart, h.newLines), "@@"], ' ')
  {
    var o := "-" + RangeText(h.oldStart, h.oldLines);
    var n := "+" + RangeText(h.newStart, h.newLines);
    var pieces := ["@@", o, n, "@@"];
    assert pieces[1..] == [o, n, "@@"];
    assert pieces[1..][1..] == [n, "@@"];
    assert pieces[1..][1..][1..] == ["@@"];
    var tail := n + " @@";
    assert Join([n, "@@"], ' ') == tail;
    var mid := o + " " + tail;
    assert Join([o, n, "@@"], ' ') == mid;
    assert Join(pieces, ' ') == "@@ " + mid;
    assert HunkHeader(h) == "@@ " + o + " " + n + " @@";
  }

  /** The header string determines the four numbers it was printed from. */
  lemma {:induction false} HunkHeaderRoundTrip(h: DiffHunk)
    ensures ParseHunkHeader(HunkHeader(h)) == Some(Range4(h.oldStart, h.oldLines, h.newStart, h.newLines))
  {
    var o := "-" + RangeText(h.oldStart, h.oldLines);
    var n := "+" + RangeText(h.newStart, h.newLines);
    RangeRoundTrip(h.oldStart, h.oldLines);
    RangeRoundTrip(h.newStart, h.newLines);
    assert ' ' !in o && ' ' !in n;
    HeaderFields(h);
    SplitJoin(["@@", o, n, "@@"], ' ');
    assert o[1..] == RangeText(h.oldStart, h.oldLines);
    assert n[1..] == RangeText(h.newStart, h.newLines);
  }

  /** One range holds exactly one comma. */
  lemma RangeHasOneComma(a: nat, b: nat)
    ensures Occurrences(RangeText(a, b), ',') == 1
  {
    NumeralHasNoSeparators(a);
    NumeralHasNoSeparators(b);
    OccurrencesConcat(NatToString(a), ",", ',');
    OccurrencesConcat(NatToString(a) + ",", NatToString(b), ',');
  }

  /** Both lengths are always printed: the header holds exactly two commas. */
  lemma HunkHeaderPrintsLengths(h: DiffHunk)
    ensures Occurrences(HunkHeader(h), ',') == 2
  {
    var o := "-" + RangeText(h.oldStart, h.oldLines);
    var n := "+" + RangeText(h.newStart, h.newLines);
    RangeHasOneComma(h.oldStart, h.oldLines);
    RangeHasOneComma(h.newStart, h.newLines);
    OccurrencesConcat("-", RangeText(h.oldStart, h.oldLines), ',');
    OccurrencesConcat("+", RangeText(h.newStart, h.newLines), ',');
    OccurrencesConcat("@@ ", o, ',');
    OccurrencesConcat("@@ " + o, " ", ',');
    OccurrencesConcat("@@ " + o + " ", n, ',');
    OccurrencesConcat("@@ " + o + " " + n, " @@", ',');
  }

  // ---------------------------------------------------------------------------
  // File tree: name and folder
  // ---------------------------------------------------------------------------

  /** `path.split("/").pop()`. */
  function Basename(path: string): string {
    var parts := Split(path, '/');
    parts[|parts| - 1]
  }

  /** `path.split("/").slice(0, -1).join("/")`. */
  function Dirname(path: string): string {
    var parts := Split(path, '/');
    Join(parts[..|parts| - 1], '/')
  }

  /** Folder and name partition the path at its last slash; a path without a
      slash is all name and no folder. */
  lemma {:induction false} PathSplits(path: string)
    ensures '/' !in Basename(path)
    ensures '/' in path ==> Dirname(path) + "/" + Basename(path) == path
    ensures '/' !in path ==> Dirname(path) == "" && Basename(path) == path
  {
    var parts := Split(path, '/');
    JoinSplit(path, '/');
    if '/' in path {
      JoinLast(parts, '/');
    } else {
      SplitWithout(path, '/');
    }
  }

  // ---------------------------------------------------------------------------
  // Inline transcript diff
  // ---------------------------------------------------------------------------

  /** One row of the inline diff: its 1-based number, its raw text, and the
      classification by first character. */
  datatype InlineRow = InlineRow(
    number: nat,
    text: string,
    isAddition: bool,
    isDeletion: bool,
    background: string,
    textColor: string)

  function ClassifyInline(index: nat, line: string): InlineRow {
    var isAddition := StartsWith(line, "+");
    var isDeletion := StartsWith(line, "-");
    InlineRow(index + 1, line, isAddition, isDeletion,
      if isAddition then AddBackground else if isDeletion then RemoveBackground else PlainBackground,
      if isAddition then AddText else if isDeletion then RemoveText else PlainText)
  }

  /** `content.split("\n").map((line, index) => ...)`. */
  function InlineRows(content: string): (rows: seq<InlineRow>)
    ensures |rows| == Occurrences(content, '\n') + 1
    ensures forall i :: 0 <= i < |rows| ==> rows[i].number == i + 1
    ensures forall i :: 0 <= i < |rows| ==> '\n' !in rows[i].text
    ensures forall i :: 0 <= i < |rows| ==>
      (rows[i].isAddition <==> |rows[i].text| > 0 && rows[i].text[0] == '+')
      && (rows[i].isDeletion <==> |rows[i].text| > 0 && rows[i].text[0] == '-')
      && !(rows[i].isAddition && rows[i].isDeletion)
  {
    var lines := Split(content, '\n');
    seq(|lines|, i requires 0 <= i < |lines| => ClassifyInline(i, lines[i]))
  }

  function RowTexts(rows: seq<InlineRow>): (texts: seq<string>)
    ensures |texts| == |rows|
    ensures forall i :: 0 <= i < |rows| ==> texts[i] == rows[i].text
  {
    seq(|rows|, i requires 0 <= i < |rows| => rows[i].text)
  }

  /** The inline rows are lossless: re-joining their texts gives the content. */
  lemma InlineRowsLossless(content: string)
    ensures Join(RowTexts(InlineRows(content)), '\n') == content
  {
    assert RowTexts(InlineRows(content)) == Split(content, '\n');
    JoinSplit(content, '\n');
  }

  /** The line type an inline row's first character stands for. */
  function InlineKind(r: InlineRow): LineType {
    if r.isAddition then Add else if r.isDeletion then Remove else Context
  }

  /** The inline view colours each row exactly as the full viewer colours a
      line of the corresponding type. */
  lemma InlineSharesLineColours(index: nat, line: string)
    ensures ClassifyInline(index, line).background == StyleOf(InlineKind(ClassifyInline(index, line))).background
    ensures ClassifyInline(index, line).textColor == StyleOf(InlineKind(ClassifyInline(index, line))).textColor
  {
  }
}
