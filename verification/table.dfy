/**
 * `print_table`: the console table, as the list of lines it prints. Every
 * cell is left-justified to its column's width, the width being the longest
 * of the header and the column's cells; cells are joined by two spaces.
 */
module Table {
  import opened Classification
  import opened Batch

  const NoRecordsNotice := "No records to display."
  const Gap := "  "

  /** The printed columns, in their printed order. */
  datatype Column = RequestedCol | MatchedCol | SourceCol | DomainCol | ReasonCol | GroupIdCol

  const Columns: seq<Column> := [RequestedCol, MatchedCol, SourceCol, DomainCol, ReasonCol, GroupIdCol]

  /** The title printed above a column. */
  function Header(c: Column): (h: string)
    ensures h != []
  {
    match c
    case RequestedCol => "Requested"
    case MatchedCol => "Graph Match"
    case SourceCol => "Source"
    case DomainCol => "On-Prem Domain"
    case ReasonCol => "Reason"
    case GroupIdCol => "Object Id"
  }

  /** `record.get(key, "")` for the column's key. */
  function Cell(r: GroupRecord, c: Column): (s: string)
    ensures c == SourceCol ==> s == Label(r.source) && s != []
  {
    match c
    case RequestedCol => r.requestedName
    case MatchedCol => r.matchedName
    case SourceCol => Label(r.source)
    case DomainCol => r.domain
    case ReasonCol => r.reason
    case GroupIdCol => r.groupId
  }

  /** `max(len(header), *(len(record.get(key, "")) for record in records))` */
  function ColumnWidth(records: seq<GroupRecord>, c: Column): (w: nat)
    ensures w >= |Header(c)|
  {
    if records == [] then |Header(c)|
    else
      var rest := ColumnWidth(records[1..], c);
      var here := |Cell(records[0], c)|;
      if here > rest then here else rest
  }

  /**
   * A column's width is no shorter than its header and than any of its
   * cells, and equals one of them.
   */
  lemma {:induction false} ColumnWidthBounds(records: seq<GroupRecord>, c: Column)
    ensures ColumnWidth(records, c) >= |Header(c)|
    ensures forall i :: 0 <= i < |records| ==> |Cell(records[i], c)| <= ColumnWidth(records, c)
    ensures ColumnWidth(records, c) == |Header(c)|
         || exists i :: 0 <= i < |records| && ColumnWidth(records, c) == |Cell(records[i], c)|
  {
    if records != [] {
      var tail := records[1..];
      ColumnWidthBounds(tail, c);
      forall i | 1 <= i < |records|
        ensures |Cell(records[i], c)| <= ColumnWidth(tail, c)
      {
        assert records[i] == tail[i - 1];
      }
      if ColumnWidth(tail, c) != |Header(c)| && ColumnWidth(tail, c) >= |Cell(records[0], c)| {
        var j :| 0 <= j < |tail| && ColumnWidth(tail, c) == |Cell(tail[j], c)|;
        assert tail[j] == records[j + 1];
      }
    }
  }

  /** The `widths` dict, one entry per column in `Columns` order. */
  function Widths(records: seq<GroupRecord>): (ws: seq<nat>)
    ensures |ws| == |Columns|
  {
    seq(|Columns|, j requires 0 <= j < |Columns| => ColumnWidth(records, Columns[j]))
  }

  /** `n` copies of `c`. */
  function Repeat(c: char, n: nat): (s: string)
    ensures |s| == n
  {
    if n == 0 then [] else [c] + Repeat(c, n - 1)
  }

  /** `s.ljust(w)`: `s` followed by enough spaces to fill `w` characters; `s` itself when it is not shorter. */
  function LJust(s: string, w: nat): (r: string)
    ensures |r| == if |s| < w then w else |s|
  {
    if |s| < w then s + Repeat(' ', w - |s|) else s
  }

  lemma {:induction false} RepeatAll(c: char, n: nat)
    ensures forall i :: 0 <= i < n ==> Repeat(c, n)[i] == c
  {
    if n > 0 {
      RepeatAll(c, n - 1);
      assert Repeat(c, n) == [c] + Repeat(c, n - 1);
    }
  }

  /** A justified cell starts with the value and is filled with spaces after it. */
  lemma LJustShape(s: string, w: nat)
    ensures LJust(s, w)[..|s|] == s
    ensures forall i :: |s| <= i < |LJust(s, w)| ==> LJust(s, w)[i] == ' '
  {
    if |s| < w {
      RepeatAll(' ', w - |s|);
      assert (s + Repeat(' ', w - |s|))[..|s|] == s;
    }
  }

  /** `sep.join(parts)` */
  function Join(parts: seq<string>, sep: string): string {
    if parts == [] then []
    else if |parts| == 1 then parts[0]
    else parts[0] + sep + Join(parts[1..], sep)
  }

  /** Where part `k` starts in a joined line whose parts have lengths `ws`. */
  function Offset(ws: seq<nat>, k: nat, gap: nat): nat
    requires k <= |ws|
  {
    if k == 0 then 0 else ws[0] + gap + Offset(ws[1..], k - 1, gap)
  }

  /** The width of a joined line whose parts have lengths `ws`. */
  function Span(ws: seq<nat>, gap: nat): nat {
    if ws == [] then 0
    else if |ws| == 1 then ws[0]
    else ws[0] + gap + Span(ws[1..], gap)
  }

  /** Part m of `parts` is `ws[m]` characters long. */
  predicate HasLengths(parts: seq<string>, ws: seq<nat>) {
    |parts| == |ws| && forall m :: 0 <= m < |parts| ==> |parts[m]| == ws[m]
  }

  /** A joined line is as long as its parts and the separators between them. */
  lemma {:induction false} JoinLength(parts: seq<string>, ws: seq<nat>, sep: string)
    requires HasLengths(parts, ws)
    ensures |Join(parts, sep)| == Span(ws, |sep|)
  {
    if |parts| > 1 {
      JoinLength(parts[1..], ws[1..], sep);
    }
  }

  /** The middle piece of a concatenation, sliced back out. */
  lemma SliceMiddle<T>(a: seq<T>, b: seq<T>, c: seq<T>)
    ensures |a| + |b| <= |a + b + c| && (a + b + c)[|a|..|a| + |b|] == b
  {
  }

  /** Slicing past a prefix is slicing the rest. */
  lemma SliceAfter<T>(head: seq<T>, tail: seq<T>, lo: nat, hi: nat)
    requires lo <= hi <= |tail|
    ensures (head + tail)[|head| + lo..|head| + hi] == tail[lo..hi]
  {
  }

  /** Part `k` of a joined line sits at its offset: the columns of the table line up. */
  lemma {:induction false} JoinAt(parts: seq<string>, ws: seq<nat>, sep: string, k: nat)
    requires HasLengths(parts, ws) && k < |parts|
    ensures Offset(ws, k, |sep|) + ws[k] <= |Join(parts, sep)|
    ensures Join(parts, sep)[Offset(ws, k, |sep|)..Offset(ws, k, |sep|) + ws[k]] == parts[k]
  {
    if |parts| > 1 {
      var head := parts[0] + sep;
      var tail := Join(parts[1..], sep);
      assert Join(parts, sep) == head + tail;
      if k == 0 {
        assert (head + tail)[..|parts[0]|] == parts[0];
      } else {
        var o := Offset(ws[1..], k - 1, |sep|);
        assert o + ws[k] <= |tail| && tail[o..o + ws[k]] == parts[k] by {
          JoinAt(parts[1..], ws[1..], sep, k - 1);
        }
        SliceAfter(head, tail, o, o + ws[k]);
      }
    }
  }

  /** Each part starts right after the previous part and one separator. */
  lemma {:induction false} OffsetNext(ws: seq<nat>, k: nat, gap: nat)
    requires k < |ws|
    ensures Offset(ws, k + 1, gap) == Offset(ws, k, gap) + ws[k] + gap
  {
    if k > 0 {
      OffsetNext(ws[1..], k - 1, gap);
    }
  }

  /** Between part `k` and part `k + 1` of a joined line stands the separator. */
  lemma {:induction false} JoinGap(parts: seq<string>, ws: seq<nat>, sep: string, k: nat)
    requires HasLengths(parts, ws) && k + 1 < |parts|
    ensures Offset(ws, k, |sep|) + ws[k] + |sep| <= |Join(parts, sep)|
    ensures Join(parts, sep)[Offset(ws, k, |sep|) + ws[k]..Offset(ws, k, |sep|) + ws[k] + |sep|] == sep
  {
    var head := parts[0] + sep;
    var tail := Join(parts[1..], sep);
    assert Join(parts, sep) == head + tail;
    if k == 0 {
      SliceMiddle(parts[0], sep, tail);
    } else {
      var o := Offset(ws[1..], k - 1, |sep|) + ws[k];
      assert o + |sep| <= |tail| && tail[o..o + |sep|] == sep by {
        JoinGap(parts[1..], ws[1..], sep, k - 1);
      }
      SliceAfter(head, tail, o, o + |sep|);
    }
  }

  /** The cells of one line, each padded to its column's width. */
  function PaddedRow(cells: seq<string>, ws: seq<nat>): (row: seq<string>)
    requires |cells| == |ws|
    ensures |row| == |ws|
  {
    seq(|ws|, j requires 0 <= j < |ws| => LJust(cells[j], ws[j]))
  }

  function HeaderCells(): seq<string> {
    seq(|Columns|, j requires 0 <= j < |Columns| => Header(Columns[j]))
  }

  function RecordCells(r: GroupRecord): seq<string> {
    seq(|Columns|, j requires 0 <= j < |Columns| => Cell(r, Columns[j]))
  }

  /** `header_row`: the headers, padded to the widths `ws`; as wide as the table when every header fits. */
  function HeaderLine(ws: seq<nat>): (line: string)
    requires |ws| == |Columns|
    ensures (forall j :: 0 <= j < |ws| ==> |HeaderCells()[j]| <= ws[j]) ==> |line| == Span(ws, |Gap|)
  {
    PaddedWidth(HeaderCells(), ws);
    Join(PaddedRow(HeaderCells(), ws), Gap)
  }

  /** The dashes of each column. */
  function Dashes(ws: seq<nat>): (parts: seq<string>)
    ensures HasLengths(parts, ws)
  {
    seq(|ws|, j requires 0 <= j < |ws| => Repeat('-', ws[j]))
  }

  /** `separator`: a run of dashes as wide as each column; always as wide as the table. */
  function SeparatorLine(ws: seq<nat>): (line: string)
    ensures |line| == Span(ws, |Gap|)
  {
    JoinLength(Dashes(ws), ws, Gap);
    Join(Dashes(ws), Gap)
  }

  /** The line of one record: its cells, padded to the widths `ws`; as wide as the table when every cell fits. */
  function RowLine(r: GroupRecord, ws: seq<nat>): (line: string)
    requires |ws| == |Columns|
    ensures (forall j :: 0 <= j < |ws| ==> |RecordCells(r)[j]| <= ws[j]) ==> |line| == Span(ws, |Gap|)
  {
    PaddedWidth(RecordCells(r), ws);
    Join(PaddedRow(RecordCells(r), ws), Gap)
  }

  /** The cells of record i are no wider than the table's columns. */
  lemma RecordCellsFit(records: seq<GroupRecord>, i: nat)
    requires i < |records|
    ensures forall j :: 0 <= j < |Columns| ==> |RecordCells(records[i])[j]| <= Widths(records)[j]
  {
    forall j | 0 <= j < |Columns|
      ensures |RecordCells(records[i])[j]| <= Widths(records)[j]
    {
      ColumnWidthBounds(records, Columns[j]);
    }
  }

  /** Nor are the headers. */
  lemma HeaderCellsFit(records: seq<GroupRecord>)
    ensures forall j :: 0 <= j < |Columns| ==> |HeaderCells()[j]| <= Widths(records)[j]
  {
    forall j | 0 <= j < |Columns|
      ensures |HeaderCells()[j]| <= Widths(records)[j]
    {
      ColumnWidthBounds(records, Columns[j]);
    }
  }

  /** Cells no wider than their columns, padded, are exactly as wide as their columns. */
  lemma PaddedLengths(cells: seq<string>, ws: seq<nat>)
    requires |cells| == |ws|
    requires forall m :: 0 <= m < |ws| ==> |cells[m]| <= ws[m]
    ensures HasLengths(PaddedRow(cells, ws), ws)
  {
    forall m | 0 <= m < |ws|
      ensures |PaddedRow(cells, ws)[m]| == ws[m]
    {
      assert PaddedRow(cells, ws)[m] == LJust(cells[m], ws[m]);
    }
  }

  /** Cells no wider than their columns, padded and joined, make a line as wide as the table. */
  lemma PaddedWidth(cells: seq<string>, ws: seq<nat>)
    requires |cells| == |ws|
    ensures (forall m :: 0 <= m < |ws| ==> |cells[m]| <= ws[m]) ==> |Join(PaddedRow(cells, ws), Gap)| == Span(ws, |Gap|)
  {
    if forall m :: 0 <= m < |ws| ==> |cells[m]| <= ws[m] {
      PaddedLengths(cells, ws);
      JoinLength(PaddedRow(cells, ws), ws, Gap);
    }
  }

  /**
   * Cells no wider than their columns, padded and joined, make a line as
   * wide as the table whose cell j is cell j left-justified to the column's
   * width, starting at the column's offset.
   */
  lemma {:induction false} PaddedLayout(cells: seq<string>, ws: seq<nat>, j: nat)
    requires |cells| == |ws| && j < |ws|
    requires forall m :: 0 <= m < |ws| ==> |cells[m]| <= ws[m]
    ensures var line := Join(PaddedRow(cells, ws), Gap);
      var o := Offset(ws, j, |Gap|);
      && |line| == Span(ws, |Gap|)
      && o + ws[j] <= |line|
      && line[o..o + ws[j]] == LJust(cells[j], ws[j])
  {
    var padded := PaddedRow(cells, ws);
    PaddedLengths(cells, ws);
    JoinLength(padded, ws, Gap);
    JoinAt(padded, ws, Gap, j);
  }

  /** In such a line, the two-space gap follows every column but the last. */
  lemma PaddedGap(cells: seq<string>, ws: seq<nat>, j: nat)
    requires |cells| == |ws| && j + 1 < |ws|
    requires forall m :: 0 <= m < |ws| ==> |cells[m]| <= ws[m]
    ensures var line := Join(PaddedRow(cells, ws), Gap);
      var e := Offset(ws, j, |Gap|) + ws[j];
      e + |Gap| <= |line| && line[e..e + |Gap|] == Gap
  {
    PaddedLengths(cells, ws);
    JoinGap(PaddedRow(cells, ws), ws, Gap, j);
  }

  /**
   * The line of record i is as wide as the table, and its cell in column j
   * is that record's value left-justified to the column's width, starting at
   * the column's offset.
   */
  lemma RowLayout(records: seq<GroupRecord>, i: nat, j: nat)
    requires i < |records| && j < |Columns|
    ensures var ws := Widths(records);
      var line := RowLine(records[i], ws);
      var o := Offset(ws, j, |Gap|);
      && |line| == Span(ws, |Gap|)
      && o + ws[j] <= |line|
      && line[o..o + ws[j]] == LJust(Cell(records[i], Columns[j]), ws[j])
  {
    RecordCellsFit(records, i);
    RecordLayout(records[i], Widths(records), j);
  }

  /** The same for one record and any widths its cells fit in. */
  lemma RecordLayout(r: GroupRecord, ws: seq<nat>, j: nat)
    requires |ws| == |Columns| && j < |Columns|
    requires forall m :: 0 <= m < |Columns| ==> |RecordCells(r)[m]| <= ws[m]
    ensures var line := RowLine(r, ws);
      var o := Offset(ws, j, |Gap|);
      && |line| == Span(ws, |Gap|)
      && o + ws[j] <= |line|
      && line[o..o + ws[j]] == LJust(Cell(r, Columns[j]), ws[j])
  {
    var cells := RecordCells(r);
    assert RowLine(r, ws) == Join(PaddedRow(cells, ws), Gap);
    assert cells[j] == Cell(r, Columns[j]);
    PaddedLayout(cells, ws, j);
  }

  /** In the line of record i, the two-space gap follows every column but the last. */
  lemma RowGap(records: seq<GroupRecord>, i: nat, j: nat)
    requires i < |records| && j + 1 < |Columns|
    ensures var ws := Widths(records);
      var line := RowLine(records[i], ws);
      var e := Offset(ws, j, |Gap|) + ws[j];
      e + |Gap| <= |line| && line[e..e + |Gap|] == Gap
  {
    RecordCellsFit(records, i);
    PaddedGap(RecordCells(records[i]), Widths(records), j);
  }

  /** The header line is as wide as the table, each header left-justified at its column's offset. */
  lemma HeaderLayout(records: seq<GroupRecord>, j: nat)
    requires j < |Columns|
    ensures var ws := Widths(records);
      var line := HeaderLine(ws);
      var o := Offset(ws, j, |Gap|);
      && |line| == Span(ws, |Gap|)
      && o + ws[j] <= |line|
      && line[o..o + ws[j]] == LJust(Header(Columns[j]), ws[j])
  {
    var ws := Widths(records);
    var cells := HeaderCells();
    assert HeaderLine(ws) == Join(PaddedRow(cells, ws), Gap);
    assert cells[j] == Header(Columns[j]);
    HeaderCellsFit(records);
    PaddedLayout(cells, ws, j);
  }

  /** In the header line, the two-space gap follows every column but the last. */
  lemma HeaderGap(records: seq<GroupRecord>, j: nat)
    requires j + 1 < |Columns|
    ensures var ws := Widths(records);
      var line := HeaderLine(ws);
      var e := Offset(ws, j, |Gap|) + ws[j];
      e + |Gap| <= |line| && line[e..e + |Gap|] == Gap
  {
    HeaderCellsFit(records);
    PaddedGap(HeaderCells(), Widths(records), j);
  }

  /** The dashes line holds, at each column's offset, as many dashes as the column is wide. */
  lemma SeparatorLayout(ws: seq<nat>, j: nat)
    requires j < |ws|
    ensures var o := Offset(ws, j, |Gap|);
      o + ws[j] <= |SeparatorLine(ws)| && SeparatorLine(ws)[o..o + ws[j]] == Repeat('-', ws[j])
  {
    JoinAt(Dashes(ws), ws, Gap, j);
  }

  /** In the dashes line, the two-space gap follows every column but the last. */
  lemma SeparatorGap(ws: seq<nat>, j: nat)
    requires j + 1 < |ws|
    ensures var e := Offset(ws, j, |Gap|) + ws[j];
      e + |Gap| <= |SeparatorLine(ws)| && SeparatorLine(ws)[e..e + |Gap|] == Gap
  {
    JoinGap(Dashes(ws), ws, Gap, j);
  }

  /** Every line of a non-empty table is as wide as the table. */
  lemma LinesSpan(records: seq<GroupRecord>)
    requires records != []
    ensures |HeaderLine(Widths(records))| == Span(Widths(records), |Gap|)
    ensures |SeparatorLine(Widths(records))| == Span(Widths(records), |Gap|)
    ensures forall i :: 0 <= i < |records| ==> |RowLine(records[i], Widths(records))| == Span(Widths(records), |Gap|)
  {
    HeaderCellsFit(records);
    forall i | 0 <= i < |records|
      ensures |RowLine(records[i], Widths(records))| == Span(Widths(records), |Gap|)
    {
      RecordCellsFit(records, i);
    }
  }

  /**
   * The lines `print_table` prints: the notice alone for no records;
   * otherwise the header, the dashes, then one line per record in order,
   * all of them as wide as the table.
   */
  method RenderTable(records: seq<GroupRecord>) returns (lines: seq<string>)
    ensures records == [] ==> lines == [NoRecordsNotice]
    ensures records != [] ==>
      && |lines| == |records| + 2
      && lines[0] == HeaderLine(Widths(records))
      && lines[1] == SeparatorLine(Widths(records))
      && (forall i :: 0 <= i < |records| ==> lines[i + 2] == RowLine(records[i], Widths(records)))
      && forall k :: 0 <= k < |lines| ==> |lines[k]| == Span(Widths(records), |Gap|)
  {
    if records == [] {
      return [NoRecordsNotice];
    }
    var widths := Widths(records);
    ghost var rows := seq(|records|, i requires 0 <= i < |records| => RowLine(records[i], widths));
    lines := [HeaderLine(widths), SeparatorLine(widths)];
    for i := 0 to |records|
      invariant lines == [HeaderLine(widths), SeparatorLine(widths)] + rows[..i]
    {
      lines := lines + [RowLine(records[i], widths)];
      PrefixGrows(rows, i);
    }
    assert rows[..|records|] == rows;
    LinesSpan(records);
  }
}
