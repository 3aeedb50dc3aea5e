/** The text extraction of drive.py: a Google Docs document body is a tree
    of structural elements (paragraphs, tables, tables of contents), and its
    text is the concatenation, in document order, of the contents of the
    text runs in it.

    The JSON dictionaries of the Docs API become datatypes with one field
    per key that the extraction reads. A key that may be missing and is read
    with a default is an `Option` where the default is not the empty list;
    a missing list is the empty list, which is what `.get(key, [])` yields.
    `ReadElements` is the recursive definition, `ReadStructuralElements` the
    loops of the source, proved to compute it. */
module Drive {
  import opened Wrappers

  /** A `textRun`: its `content` key may be missing. */
  datatype TextRun = TextRun(content: Option<string>)

  /** An entry of a paragraph's `elements`: its `textRun` key may be missing. */
  datatype ParagraphElement = ParagraphElement(textRun: Option<TextRun>)

  datatype Paragraph = Paragraph(elements: seq<ParagraphElement>)

  datatype TableCell = TableCell(content: seq<StructuralElement>)

  datatype TableRow = TableRow(tableCells: seq<TableCell>)

  datatype Table = Table(tableRows: seq<TableRow>)

  datatype TableOfContents = TableOfContents(content: seq<StructuralElement>)

  /** A structural element: any of the three keys may be present. */
  datatype StructuralElement = StructuralElement(
    paragraph: Option<Paragraph>,
    table: Option<Table>,
    tableOfContents: Option<TableOfContents>)

  datatype Body = Body(content: seq<StructuralElement>)

  /** A fetched document: its `body` key may be missing. */
  datatype Document = Document(body: Option<Body>)

  /** What one paragraph element adds: its text run's content, or nothing
      when it has no text run or the run has no content (drive.py:45-47). */
  function RunText(pe: ParagraphElement): string {
    match pe.textRun
    case None => ""
    case Some(tr) => match tr.content case None => "" case Some(c) => c
  }

  /** The text of a paragraph's elements, in order (drive.py:44-47). */
  function ParagraphText(pels: seq<ParagraphElement>): string {
    if pels == [] then "" else RunText(pels[0]) + ParagraphText(pels[1..])
  }

  /** `_read_structural_elements(elements)` (drive.py:40-54). */
  function ReadElements(els: seq<StructuralElement>): string
    decreases els, 1
  {
    if els == [] then "" else ReadElement(els[0]) + ReadElements(els[1..])
  }

  /** What one element adds: a paragraph's text; otherwise a table's cells,
      row by row; otherwise a table of contents' elements; otherwise nothing
      (drive.py:43-53). */
  function ReadElement(el: StructuralElement): string
    decreases el, 0
  {
    if el.paragraph.Some? then ParagraphText(el.paragraph.value.elements)
    else if el.table.Some? then ReadRows(el.table.value.tableRows)
    else if el.tableOfContents.Some? then ReadElements(el.tableOfContents.value.content)
    else ""
  }

  /** The text of a table's rows, in row-major order (drive.py:49-51). */
  function ReadRows(rows: seq<TableRow>): string
    decreases rows
  {
    if rows == [] then "" else ReadCells(rows[0].tableCells) + ReadRows(rows[1..])
  }

  /** The text of a row's cells, left to right (drive.py:50-51). */
  function ReadCells(cells: seq<TableCell>): string
    decreases cells
  {
    if cells == [] then "" else ReadElements(cells[0].content) + ReadCells(cells[1..])
  }

  /** The text of a document: its body's elements, or nothing when the
      body is missing (drive.py:56-57). */
  function DocText(doc: Document): string {
    match doc.body
    case None => ""
    case Some(b) => ReadElements(b.content)
  }

  /** The keys of an element are tried in a fixed order: a paragraph
      hides a table and a table of contents, a table hides a table of
      contents, and an element with none of the three adds nothing
      (drive.py:43-53). */
  lemma ElementPrecedence(p: Paragraph, tb: Table, toc: TableOfContents,
                          t: Option<Table>, c: Option<TableOfContents>)
    ensures ReadElement(StructuralElement(Some(p), t, c)) == ParagraphText(p.elements)
    ensures ReadElement(StructuralElement(None, Some(tb), c)) == ReadRows(tb.tableRows)
    ensures ReadElement(StructuralElement(None, None, Some(toc))) == ReadElements(toc.content)
    ensures ReadElement(StructuralElement(None, None, None)) == ""
  {
  }

  lemma {:induction false} ParagraphTextAppend(pels: seq<ParagraphElement>, pe: ParagraphElement)
    ensures ParagraphText(pels + [pe]) == ParagraphText(pels) + RunText(pe)
  {
    if pels != [] {
      assert (pels + [pe])[1..] == pels[1..] + [pe];
      ParagraphTextAppend(pels[1..], pe);
    }
  }

  lemma {:induction false} ReadCellsAppend(cells: seq<TableCell>, cell: TableCell)
    ensures ReadCells(cells + [cell]) == ReadCells(cells) + ReadElements(cell.content)
  {
    if cells != [] {
      assert (cells + [cell])[1..] == cells[1..] + [cell];
      ReadCellsAppend(cells[1..], cell);
    }
  }

  lemma {:induction false} ReadRowsAppend(rows: seq<TableRow>, row: TableRow)
    ensures ReadRows(rows + [row]) == ReadRows(rows) + ReadCells(row.tableCells)
  {
    if rows != [] {
      assert (rows + [row])[1..] == rows[1..] + [row];
      ReadRowsAppend(rows[1..], row);
    }
  }

  /** Flattening distributes over concatenation of element lists: the text
      of two lists one after the other is the text of the first followed by
      the text of the second. */
  lemma {:induction false} ReadElementsAppend(a: seq<StructuralElement>, b: seq<StructuralElement>)
    ensures ReadElements(a + b) == ReadElements(a) + ReadElements(b)
  {
    if a == [] {
      assert a + b == b;
    } else {
      assert (a + b)[0] == a[0] && (a + b)[1..] == a[1..] + b;
      ReadElementsAppend(a[1..], b);
    }
  }

  /** `_read_structural_elements` as the source writes it (drive.py:40-54):
      one pass over the elements appending what each adds to `text`. */
  method ReadStructuralElements(elements: seq<StructuralElement>) returns (text: string)
    ensures text == ReadElements(elements)
    decreases elements, 1
  {
    text := "";
    for i := 0 to |elements|
      invariant text == ReadElements(elements[..i])
    {
      assert elements[i] in elements;
      var part := ReadStructuralElement(elements[i]);
      text := text + part;
      assert elements[..i + 1] == elements[..i] + [elements[i]];
      ReadElementsAppend(elements[..i], [elements[i]]);
    }
    assert elements[..|elements|] == elements;
  }

  /** The body of that pass for one element (drive.py:43-53): a pass over
      a paragraph's elements, nested passes over a table's rows and cells
      with a recursive call per cell, or a recursive call for a table of
      contents. */
  method ReadStructuralElement(el: StructuralElement) returns (text: string)
    ensures text == ReadElement(el)
    decreases el, 0
  {
    text := "";
    if el.paragraph.Some? {
      var pels := el.paragraph.value.elements;
      for j := 0 to |pels|
        invariant text == ParagraphText(pels[..j])
      {
        var tr := pels[j].textRun;
        if tr.Some? {
          var content := if tr.value.content.Some? then tr.value.content.value else "";
          text := text + content;
        }
        assert pels[..j + 1] == pels[..j] + [pels[j]];
        ParagraphTextAppend(pels[..j], pels[j]);
      }
      assert pels[..|pels|] == pels;
    } else if el.table.Some? {
      var rows := el.table.value.tableRows;
      for r := 0 to |rows|
        invariant text == ReadRows(rows[..r])
      {
        ghost var beforeRow := text;
        var cells := rows[r].tableCells;
        for c := 0 to |cells|
          invariant text == beforeRow + ReadCells(cells[..c])
        {
          assert cells[c] in cells && rows[r] in rows;
          var cellText := ReadStructuralElements(cells[c].content);
          text := text + cellText;
          assert cells[..c + 1] == cells[..c] + [cells[c]];
          ReadCellsAppend(cells[..c], cells[c]);
        }
        assert cells[..|cells|] == cells;
        assert rows[..r + 1] == rows[..r] + [rows[r]];
        ReadRowsAppend(rows[..r], rows[r]);
      }
      assert rows[..|rows|] == rows;
    } else if el.tableOfContents.Some? {
      text := ReadStructuralElements(el.tableOfContents.value.content);
    }
  }

  /** The body extraction (drive.py:56-57): a missing body reads as no
      elements. */
  method GetDocText(doc: Document) returns (text: string)
    ensures text == DocText(doc)
    ensures doc.body.None? ==> text == ""
  {
    var body := if doc.body.Some? then doc.body.value.content else [];
    text := ReadStructuralElements(body);
  }
}
