/**
 * `_DoxygenXmlParagraphFormatter` as an object: the fields `lines` and
 * `continue_line` are updated in place by the `visit_*` methods, exactly as
 * the functions of `FormatSpec` say, and `format_xml_paragraph` drives a
 * fresh formatter over a root node.
 */
module XmlUtils {
  import opened Wrappers
  import opened Strings
  import opened Xml
  import opened Symbols
  import TableLayout
  import Spec = FormatSpec

  /** How a visit ended: normally, or with the exception Python raises. */
  datatype Status = Done | Failed(fault: Spec.Fault)

  class ParagraphFormatter {
    /** The document tree `get_doxygen_root()` returns; only read. */
    const idx: SymbolIndex
    var lines: seq<string>
    var continueLine: bool

    constructor (idx: SymbolIndex)
      ensures this.idx == idx && lines == [""] && !continueLine
    {
      this.idx := idx;
      lines := [""];
      continueLine := false;
    }

    predicate Valid()
      reads this
    {
      |lines| > 0
    }

    function Snapshot(): Spec.Fmt
      reads this
    {
      Spec.Fmt(lines, continueLine)
    }

    /** The state after a visit, or its exception, in the terms of `FormatSpec`. */
    function Observed(st: Status): Spec.Run
      reads this
    {
      match st
      case Done => Ok(Snapshot())
      case Failed(f) => Err(f)
    }

    method ParaText(text: Option<string>)
      requires Valid()
      modifies this
      ensures Snapshot() == Spec.ParaText(old(Snapshot()), text)
    {
      if text.Some? {
        if continueLine {
          lines := lines[|lines| - 1 := lines[|lines| - 1] + text.value];
        } else {
          lines := lines + [LStrip(text.value)];
        }
      }
    }

    method Visit(n: Node) returns (st: Status)
      requires Valid()
      modifies this
      ensures Observed(st) == Spec.Visit(idx, old(Snapshot()), n)
      decreases n, 3, 0, 0
    {
      match Spec.HandlerFor(n.tag)
      case Para => st := VisitPara(n);
      case Ref => st := VisitRef(n);
      case Formula => st := VisitFormula(n);
      case ParameterName => VisitParameterName(n); st := Done;
      case ParameterList => st := VisitParameterList(n);
      case SimpleSect => st := VisitSimpleSect(n);
      case Sect(c) => st := VisitSect(n, c);
      case SectWithoutLevel =>
        st := Failed(Spec.TypeError(Spec.MissingSectChar));
      case ListItem => st := VisitListItem(n);
      case Preformatted => st := VisitPreformatted(n);
      case ComputerOutput => st := VisitComputerOutput(n);
      case XrefSect => st := VisitXrefSect(n);
      case Subscript => VisitSubscript(n); st := Done;
      case Table => st := VisitTable(n);
      case Generic => st := GenericVisit(n);
    }

    method GenericVisit(n: Node) returns (st: Status)
      requires Valid()
      modifies this
      ensures Observed(st) == Spec.GenericVisit(idx, old(Snapshot()), n)
      decreases n, 1, 0, 0
    {
      ghost var s0 := Snapshot();
      st := Done;
      var i := 0;
      while i < |n.children|
        invariant 0 <= i <= |n.children| && Valid()
        invariant Spec.VisitChildren(idx, s0, n, 0) == Spec.VisitChildren(idx, Snapshot(), n, i)
      {
        ghost var prev := Snapshot();
        st := Visit(n.children[i]);
        if st.Failed? {
          assert Spec.VisitChildren(idx, prev, n, i) == Err(st.fault);
          return;
        }
        assert Spec.VisitChildren(idx, prev, n, i) == Spec.VisitChildren(idx, Snapshot(), n, i + 1);
        i := i + 1;
      }
      assert Spec.VisitChildren(idx, Snapshot(), n, i) == Ok(Snapshot());
      st := Done;
    }

    method VisitPara(n: Node) returns (st: Status)
      requires Valid()
      modifies this
      ensures Observed(st) == Spec.VisitPara(idx, old(Snapshot()), n)
      decreases n, 2, 0, 0
    {
      ghost var s0 := Snapshot();
      ParaText(n.text);
      ghost var s1 := Snapshot();
      assert s1 == Spec.ParaText(s0, n.text);
      var i := 0;
      while i < |n.children|
        invariant 0 <= i <= |n.children| && Valid()
        invariant Spec.ParaChildren(idx, s1, n, 0) == Spec.ParaChildren(idx, Snapshot(), n, i)
      {
        ghost var prev := Snapshot();
        st := Visit(n.children[i]);
        if st.Failed? {
          assert Spec.ParaChildren(idx, prev, n, i) == Err(st.fault);
          return;
        }
        ParaText(n.children[i].tail);
        continueLine := true;
        assert Spec.ParaChildren(idx, prev, n, i) == Spec.ParaChildren(idx, Snapshot(), n, i + 1);
        i := i + 1;
      }
      assert Spec.ParaChildren(idx, Snapshot(), n, i) == Ok(Snapshot());
      ghost var s2 := lines;
      lines := lines + [""];
      continueLine := false;
      assert Spec.VisitPara(idx, s0, n) == Ok(Spec.Fmt(s2 + [""], false));
      st := Done;
    }

    method VisitRef(n: Node) returns (st: Status)
      requires Valid()
      modifies this
      ensures Observed(st) == Spec.VisitRef(idx, old(Snapshot()), n)
    {
      if n.text.None? {
        return Failed(Spec.TypeError(Spec.NoneConcat));
      }
      var target := Resolve(idx, RefKey(n));
      if target.Unsupported? {
        lines := lines[|lines| - 1 := lines[|lines| - 1] + ("(unimplemented link)" + n.text.value)];
        return Done;
      }
      var val := Spec.RefSpan(n.text.value, target);
      if n.tail.Some? {
        val := val + n.tail.value;
      }
      assert val == Spec.RefSpan(n.text.value, target) + n.tail.GetOr("");
      lines := lines[|lines| - 1 := lines[|lines| - 1] + val];
      st := Done;
    }

    method VisitFormula(n: Node) returns (st: Status)
      requires Valid()
      modifies this
      ensures Observed(st) == Spec.VisitFormula(old(Snapshot()), n)
    {
      if n.text.None? {
        return Failed(Spec.AttributeError(Spec.NoneStrip));
      }
      var text := Strip(n.text.value);
      // opened by `\[`, or not by `$`: a displayed formula
      if Spec.IsBlockFormula(text) {
        if "\\[" <= text {
          text := Spec.DropEnds(text, 2);
        }
        BlockMath(text);
      } else {
        InlineMath(":math:`" + Strip(Spec.DropEnds(text, 1)) + "`");
      }
      st := Done;
    }

    /** The block branch of `visit_formula`: a `.. math::` directive between blank lines. */
    method BlockMath(text: string)
      requires Valid()
      modifies this
      ensures Snapshot() == Spec.Fmt(old(lines) + ["", ".. math:: " + text, ""], false)
    {
      lines := lines + [""];
      lines := lines + [".. math:: " + text];
      lines := lines + [""];
      assert lines == old(lines) + ["", ".. math:: " + text, ""];
      continueLine := false;
    }

    /** The inline branch of `visit_formula`: the role joins the open line or starts one. */
    method InlineMath(inline: string)
      requires Valid()
      modifies this
      ensures Snapshot() == Spec.Fmt(if old(continueLine) then Spec.AppendToLast(old(lines), inline) else old(lines) + [inline], true)
    {
      if continueLine {
        lines := lines[|lines| - 1 := lines[|lines| - 1] + inline];
      } else {
        lines := lines + [inline];
      }
      continueLine := true;
    }

    method VisitParameterName(n: Node)
      requires Valid()
      modifies this
      ensures Snapshot() == Spec.VisitParameterName(old(Snapshot()), n)
    {
      var direction := "";
      if "direction" in n.attrib {
        direction := "[" + n.attrib["direction"] + "] ";
      }
      lines := lines + [":param " + n.text.GetOr("None") + ": " + direction];
      continueLine := true;
    }

    method VisitParameterList(n: Node) returns (st: Status)
      requires Valid()
      modifies this
      ensures Observed(st) == Spec.VisitParameterList(idx, old(Snapshot()), n)
      decreases n, 2, 0, 0
    {
      var sub := new ParagraphFormatter(idx);
      st := sub.GenericVisit(n);
      if st.Failed? {
        return;
      }
      var kept := Spec.DropEmpty(sub.lines);
      ghost var s0 := lines;
      lines := lines + [""];
      lines := lines + kept;
      lines := lines + [""];
      assert lines == s0 + [""] + kept + [""];
    }

    method VisitSimpleSect(n: Node) returns (st: Status)
      requires Valid()
      modifies this
      ensures Observed(st) == Spec.VisitSimpleSect(idx, old(Snapshot()), n)
      decreases n, 2, 0, 0
    {
      if Get(n, "kind") == Some("return") {
        lines := lines + [":returns: "];
        continueLine := true;
      }
      st := GenericVisit(n);
    }

    method VisitSect(n: Node, c: char) returns (st: Status)
      requires Valid()
      modifies this
      ensures Observed(st) == Spec.VisitSect(idx, old(Snapshot()), n, c)
      decreases n, 2, 0, 0
    {
      var titleNode := Find(n, "title");
      if titleNode.Some? {
        if titleNode.value.text.None? {
          return Failed(Spec.TypeError(Spec.NoneLen));
        }
        var title := titleNode.value.text.value;
        ghost var s0 := lines;
        lines := lines + [title];
        lines := lines + [Repeat(c, |title|)];
        lines := lines + [""];
        assert lines == s0 + [title, Repeat(c, |title|), ""];
      }
      st := GenericVisit(n);
    }

    method VisitListItem(n: Node) returns (st: Status)
      requires Valid()
      modifies this
      ensures Observed(st) == Spec.VisitListItem(idx, old(Snapshot()), n)
      decreases n, 2, 0, 0
    {
      lines := lines + ["   - "];
      continueLine := true;
      st := GenericVisit(n);
    }

    method VisitPreformatted(n: Node) returns (st: Status)
      requires Valid()
      modifies this
      ensures Observed(st) == Spec.VisitPreformatted(old(Snapshot()), n)
    {
      var segment := [Some(n.text.GetOr(""))];
      for i := 0 to |n.children|
        invariant segment == [Some(n.text.GetOr(""))] + Spec.ChildParts(n.children[..i])
      {
        assert n.children[..i + 1][..i] == n.children[..i];
        segment := segment + [n.children[i].text];
        if n.children[i].tail.Some? {
          segment := segment + [n.children[i].tail];
        }
      }
      assert n.children[..|n.children|] == n.children;
      var joined := Spec.JoinParts(segment);
      if joined.Err? {
        return Failed(joined.error);
      }
      var pieces := Split(joined.value, '\n');
      ghost var s0 := lines;
      lines := lines + [".. code-block:: C++", ""];
      lines := lines + Indent("  ", pieces);
      assert lines == s0 + [".. code-block:: C++", ""] + Indent("  ", pieces);
      st := Done;
    }

    method VisitComputerOutput(n: Node) returns (st: Status)
      requires Valid()
      modifies this
      ensures Observed(st) == Spec.VisitComputerOutput(old(Snapshot()), n)
    {
      var c := Find(n, "preformatted");
      if c.Some? {
        st := VisitPreformatted(c.value);
        return;
      }
      if n.text.None? {
        return Failed(Spec.TypeError(Spec.NoneConcat));
      }
      lines := lines[|lines| - 1 := lines[|lines| - 1] + ("``" + n.text.value + "``")];
      st := Done;
    }

    method VisitXrefSect(n: Node) returns (st: Status)
      requires Valid()
      modifies this
      ensures Observed(st) == Spec.VisitXrefSect(idx, old(Snapshot()), n)
      decreases n, 2, 0, 0
    {
      var title := Find(n, "xreftitle");
      if title.None? {
        return Failed(Spec.AttributeError(Spec.NoneText));
      }
      if title.value.text == Some("Deprecated") {
        var sub := new ParagraphFormatter(idx);
        st := sub.GenericVisit(n);
        if st.Failed? {
          return;
        }
        ghost var s0 := lines;
        lines := lines + [".. admonition:: Deprecated"];
        lines := lines + Indent("   ", sub.lines);
        assert lines == s0 + [".. admonition:: Deprecated"] + Indent("   ", sub.lines);
      } else {
        st := Failed(Spec.ValueError(Spec.NotDeprecated));
      }
    }

    method VisitTable(n: Node) returns (st: Status)
      requires Valid()
      modifies this
      ensures Observed(st) == Spec.VisitTable(idx, old(Snapshot()), n)
      decreases n, 2, 0, 0
    {
      // `cols` as an integer, or the fault `int()` raises
      var count := Spec.ColumnCount(n);
      if count.Err? {
        return Failed(count.error);
      }
      var cols := count.value;
      // the buffer is set aside while the cells render
      var saved := lines;
      var table, widths;
      st, table, widths := RenderRows(n, cols);
      if st.Failed? {
        return;
      }
      lines := saved;
      st := AppendTable(table, widths);
    }

    /** The row loop of `visit_table`: each entry is rendered by this formatter into `lines = ['']`. */
    method RenderRows(n: Node, cols: int) returns (st: Status, table: seq<TableLayout.Row>, ws: seq<int>)
      requires Valid()
      modifies this
      ensures st.Failed? ==> Spec.RenderRows(idx, [], old(continueLine), n, 0, cols) == Err(st.fault)
      ensures st.Done? ==> Spec.RenderRows(idx, [], old(continueLine), n, 0, cols) == Ok((table, continueLine))
      ensures st.Done? ==> Spec.WellShaped(table, cols) && ws == TableLayout.ColumnWidths(table, cols)
      decreases n, 1, |n.children| + 1, 0
    {
      ghost var c0 := continueLine;
      table := [];
      ws := [];
      // `widths` is widened cell by cell
      var widths := new int[TableLayout.Slots(cols)](_ => 0);
      var j := 0;
      while j < |n.children|
        invariant 0 <= j <= |n.children| && Valid()
        invariant widths.Length == TableLayout.Slots(cols)
        invariant Spec.WellShaped(table, cols)
        invariant widths[..] == TableLayout.ColumnWidths(table, cols)
        invariant Spec.RenderRows(idx, [], c0, n, 0, cols) == Spec.RenderRows(idx, table, continueLine, n, j, cols)
      {
        st, table := RenderRowAt(n, j, cols, widths, table);
        if st.Failed? {
          return;
        }
        j := j + 1;
      }
      assert Spec.RenderRows(idx, table, continueLine, n, j, cols) == Ok((table, continueLine));
      ws := widths[..];
      st := Done;
    }

    /** Child `j` of the table: a `row` is rendered and its widths taken, any other child is passed over. */
    method RenderRowAt(n: Node, j: nat, cols: int, widths: array<int>, table: seq<TableLayout.Row>)
      returns (st: Status, table': seq<TableLayout.Row>)
      requires Valid() && j < |n.children|
      requires widths.Length == TableLayout.Slots(cols) && Spec.WellShaped(table, cols)
      requires widths[..] == TableLayout.ColumnWidths(table, cols)
      modifies this, widths
      ensures st.Failed? ==> Spec.RenderRows(idx, table, old(continueLine), n, j, cols) == Err(st.fault)
      ensures st.Done? ==> Valid() && Spec.WellShaped(table', cols) && widths[..] == TableLayout.ColumnWidths(table', cols)
      ensures st.Done? ==> Spec.RenderRows(idx, table, old(continueLine), n, j, cols)
                           == Spec.RenderRows(idx, table', continueLine, n, j + 1, cols)
      decreases n, 1, |n.children| - j, 0
    {
      table' := table;
      st := Done;
      if n.children[j].tag == "row" {
        var row;
        st, row := RenderEntries(n, j, cols, widths, table);
        if st.Failed? {
          return;
        }
        assert (table + [row])[..|table|] == table;
        table' := table + [row];
      }
    }

    /** The entry loop of one row: render, record, and widen the column. */
    method RenderEntries(n: Node, j: nat, cols: int, widths: array<int>, ghost table: seq<TableLayout.Row>)
      returns (st: Status, row: TableLayout.Row)
      requires Valid() && j < |n.children|
      requires widths.Length == TableLayout.Slots(cols) && Spec.WellShaped(table, cols)
      requires widths[..] == TableLayout.ColumnWidths(table, cols)
      modifies this, widths
      ensures st.Failed? ==> Spec.RenderRow(idx, [], old(continueLine), n, j, 0, cols) == Err(st.fault)
      ensures st.Done? ==> Spec.RenderRow(idx, [], old(continueLine), n, j, 0, cols) == Ok((row, continueLine))
      ensures st.Done? ==> Valid() && Spec.WellShaped(table + [row], cols)
      ensures st.Done? ==> widths[..] == TableLayout.WidenRow(TableLayout.ColumnWidths(table, cols), row)
      decreases n, 0, |n.children| - j, 1
    {
      ghost var c0 := continueLine;
      row := [];
      st := Done;
      var i := 0;
      while i < |n.children[j].children|
        invariant 0 <= i <= |n.children[j].children| && |row| == i && Valid() && st == Done
        invariant |row| <= TableLayout.Slots(cols) && forall e :: 0 <= e < |row| ==> |row[e]| > 0
        invariant widths[..] == TableLayout.WidenRow(TableLayout.ColumnWidths(table, cols), row)
        invariant Spec.RenderRow(idx, [], c0, n, j, 0, cols) == Spec.RenderRow(idx, row, continueLine, n, j, i, cols)
      {
        st, row := RenderEntry(n, j, i, cols, widths, table, row);
        if st.Failed? {
          return;
        }
        i := i + 1;
      }
      assert Spec.RenderRow(idx, row, continueLine, n, j, i, cols) == Ok((row, continueLine));
      ShapedAppend(table, row, cols);
    }

    /** One entry of a row: render it into `lines = ['']`, record it, and widen its column. */
    method RenderEntry(n: Node, j: nat, i: nat, cols: int, widths: array<int>, ghost table: seq<TableLayout.Row>,
                       row: TableLayout.Row)
      returns (st: Status, row': TableLayout.Row)
      requires Valid() && j < |n.children| && i < |n.children[j].children| && |row| == i
      requires |row| <= TableLayout.Slots(cols) && forall e :: 0 <= e < |row| ==> |row[e]| > 0
      requires widths.Length == TableLayout.Slots(cols) && Spec.WellShaped(table, cols)
      requires widths[..] == TableLayout.WidenRow(TableLayout.ColumnWidths(table, cols), row)
      modifies this, widths
      ensures st.Failed? ==> Spec.RenderRow(idx, row, old(continueLine), n, j, i, cols) == Err(st.fault)
      ensures st.Done? ==> Valid() && |row'| == i + 1 && |row'| <= TableLayout.Slots(cols)
      ensures st.Done? ==> forall e :: 0 <= e < |row'| ==> |row'[e]| > 0
      ensures st.Done? ==> Spec.RenderRow(idx, row, old(continueLine), n, j, i, cols)
                           == Spec.RenderRow(idx, row', continueLine, n, j, i + 1, cols)
      ensures st.Done? ==> widths[..] == TableLayout.WidenRow(TableLayout.ColumnWidths(table, cols), row')
      decreases n, 0, |n.children| - j, 0
    {
      ghost var before := continueLine;
      row' := row;
      lines := [""];
      st := GenericVisit(n.children[j].children[i]);
      if st.Failed? {
        EntryFails(idx, row, before, n, j, i, cols);
        return;
      }
      if i >= widths.Length {
        st := Failed(Spec.IndexError(Spec.ListIndex));
        EntryBeyond(idx, row, before, n, j, i, cols);
        return;
      }
      EntryStep(idx, row, before, n, j, i, cols);
      TableLayout.WidenRowSnoc(TableLayout.ColumnWidths(table, cols), row, lines);
      row' := row + [lines];
      WidenColumn(widths, i, lines);
    }

    /** The layout half of `visit_table`: blank, border, header, '=' border, body rows, blank. */
    method AppendTable(table: seq<TableLayout.Row>, ws: seq<int>) returns (st: Status)
      requires Valid()
      requires forall r :: 0 <= r < |table| ==> |table[r]| <= |ws|
      modifies this
      ensures st.Failed? ==> Spec.LayOut(table, ws) == Err(st.fault)
      ensures st.Done? ==> Spec.LayOut(table, ws).Ok? && lines == old(lines) + Spec.LayOut(table, ws).value
      ensures continueLine == old(continueLine)
    {
      // the lines are gathered in `out` and then appended, in the same order
      // a blank line opens the grid
      var out := [""];
      // the '-' border
      var sep := Border(ws);
      out := out + [sep];
      if |table| == 0 {
        return Failed(Spec.IndexError(Spec.ListIndex));
      }
      // the first row is the header
      var header := AppendRow(table[0], ws);
      if header.Err? {
        return Failed(header.error);
      }
      out := out + header.value;
      // below it, the border redrawn with '='
      out := out + [ReplaceChar(sep, '-', '=')];
      // each further row, closed by a '-' border
      var body := AppendBody(table[1..], ws, sep);
      if body.Err? {
        BodyErr(table);
        return Failed(body.error);
      }
      out := out + body.value;
      // a blank line closes the grid
      out := out + [""];
      BodyOk(table);
      lines := lines + out;
      st := Done;
    }

    method VisitSubscript(n: Node)
      requires Valid()
      modifies this
      ensures Snapshot() == Spec.VisitSubscript(old(Snapshot()), n)
    {
      lines := lines[|lines| - 1 := lines[|lines| - 1] + ("\\ :sub:`" + n.text.GetOr("None") + "` " + n.tail.GetOr("None"))];
    }
  }

  /** `widths[i] = max(widths[i], max([len(line) for line in cell]) + 2)`. */
  method WidenColumn(widths: array<int>, i: nat, cell: TableLayout.Cell)
    requires i < widths.Length
    modifies widths
    ensures widths[..] == TableLayout.Widen(old(widths[..]), i, cell)
  {
    // the entry's widest line plus one space on each side
    widths[i] := TableLayout.Max(widths[i], TableLayout.MaxLen(cell) + 2);
  }

  lemma EntryFails(idx: SymbolIndex, row: TableLayout.Row, cont: bool, t: Node, j: nat, i: nat, cols: int)
    requires j < |t.children| && i < |t.children[j].children|
    requires |row| <= TableLayout.Slots(cols) && forall e :: 0 <= e < |row| ==> |row[e]| > 0
    requires Spec.GenericVisit(idx, Spec.Fmt([""], cont), t.children[j].children[i]).Err?
    ensures Spec.RenderRow(idx, row, cont, t, j, i, cols)
            == Err(Spec.GenericVisit(idx, Spec.Fmt([""], cont), t.children[j].children[i]).error)
  {
  }

  lemma EntryBeyond(idx: SymbolIndex, row: TableLayout.Row, cont: bool, t: Node, j: nat, i: nat, cols: int)
    requires j < |t.children| && i < |t.children[j].children|
    requires |row| == TableLayout.Slots(cols) && forall e :: 0 <= e < |row| ==> |row[e]| > 0
    requires Spec.GenericVisit(idx, Spec.Fmt([""], cont), t.children[j].children[i]).Ok?
    ensures Spec.RenderRow(idx, row, cont, t, j, i, cols) == Err(Spec.IndexError(Spec.ListIndex))
  {
  }

  lemma EntryStep(idx: SymbolIndex, row: TableLayout.Row, cont: bool, t: Node, j: nat, i: nat, cols: int)
    requires j < |t.children| && i < |t.children[j].children|
    requires |row| < TableLayout.Slots(cols) && forall e :: 0 <= e < |row| ==> |row[e]| > 0
    requires Spec.GenericVisit(idx, Spec.Fmt([""], cont), t.children[j].children[i]).Ok?
    ensures var cell := Spec.GenericVisit(idx, Spec.Fmt([""], cont), t.children[j].children[i]).value;
            Spec.RenderRow(idx, row, cont, t, j, i, cols) == Spec.RenderRow(idx, row + [cell.lines], cell.cont, t, j, i + 1, cols)
  {
  }

  lemma ShapedAppend(table: seq<TableLayout.Row>, row: TableLayout.Row, cols: int)
    requires Spec.WellShaped(table, cols)
    requires |row| <= TableLayout.Slots(cols) && forall e :: 0 <= e < |row| ==> |row[e]| > 0
    ensures Spec.WellShaped(table + [row], cols)
  {
    forall r | 0 <= r < |table| + 1
      ensures |(table + [row])[r]| <= TableLayout.Slots(cols)
    {
      if r < |table| { assert (table + [row])[r] == table[r]; }
    }
  }

  lemma BodyErr(table: seq<TableLayout.Row>)
    requires |table| > 0 && exists r :: 0 <= r < |table[1..]| && |table[1..][r]| == 0
    ensures exists r :: 0 <= r < |table| && |table[r]| == 0
  {
    var r :| 0 <= r < |table[1..]| && |table[1..][r]| == 0;
    assert table[1..][r] == table[r + 1];
  }

  lemma BodyOk(table: seq<TableLayout.Row>)
    requires |table| > 0 && |table[0]| > 0 && forall r :: 0 <= r < |table[1..]| ==> |table[1..][r]| > 0
    ensures forall r :: 0 <= r < |table| ==> |table[r]| > 0
  {
    forall r | 0 < r < |table| ensures |table[r]| > 0 {
      assert table[r] == table[1..][r - 1];
    }
  }

  /** The separator line `sep` of `visit_table`. */
  method Border(ws: seq<int>) returns (sep: string)
    ensures sep == TableLayout.Border(ws)
  {
    sep := "+";
    for k := 0 to |ws|
      invariant sep == TableLayout.Border(ws[..k])
    {
      assert ws[..k + 1][..k] == ws[..k];
      sep := sep + Repeat('-', ws[k]);
      sep := sep + "+";
    }
    assert ws[..|ws|] == ws;
  }

  /** The body-row loop of `visit_table`: each row's lines, then `sep`. */
  method AppendBody(rows: seq<TableLayout.Row>, ws: seq<int>, sep: string) returns (r: Result<seq<string>, Spec.Fault>)
    requires forall b :: 0 <= b < |rows| ==> |rows[b]| <= |ws|
    requires sep == TableLayout.Border(ws)
    ensures r.Err? <==> exists b :: 0 <= b < |rows| && |rows[b]| == 0
    ensures r.Err? ==> r.error == Spec.ValueError(Spec.EmptyMax)
    ensures r.Ok? ==> r.value == TableLayout.BodyLines(rows, ws)
  {
    var out: seq<string> := [];
    for b := 0 to |rows|
      invariant forall c :: 0 <= c < b ==> |rows[c]| > 0
      invariant out == TableLayout.BodyLines(rows[..b], ws)
    {
      var lines := AppendRow(rows[b], ws);
      if lines.Err? {
        return lines;
      }
      assert rows[..b + 1][..b] == rows[..b];
      out := out + lines.value;
      out := out + [sep];
    }
    assert rows[..|rows|] == rows;
    r := Ok(out);
  }

  /** Line `k` of a row: '|', then each entry's line `k` padded to its column's width, each closed by '|'. */
  method AppendRowLine(row: TableLayout.Row, widths: seq<int>, k: nat) returns (line: string)
    requires |row| <= |widths|
    ensures line == TableLayout.RowLine(row, widths, k)
  {
    line := "|";
    for i := 0 to |row|
      invariant line == TableLayout.CellsLine(row, widths, k, i)
    {
      ghost var before := line;
      if k < |row[i]| {
        // the entry has a line `k`: a space, the text, then padding to the width
        line := line + " " + row[i][k];
        line := line + Repeat(' ', widths[i] - |row[i][k]| - 1);
      } else {
        // a shorter entry leaves its slot blank
        line := line + Repeat(' ', widths[i]);
      }
      line := line + "|";
      assert line == before + TableLayout.CellLine(row[i], k, widths[i]) + "|";
    }
  }

  /** `append_row(row)`, the closure of `visit_table` over its `widths`. */
  method AppendRow(row: TableLayout.Row, widths: seq<int>) returns (r: Result<seq<string>, Spec.Fault>)
    requires |row| <= |widths|
    ensures |row| == 0 ==> r == Err(Spec.ValueError(Spec.EmptyMax))
    ensures |row| > 0 ==> r == Ok(TableLayout.RowLines(row, widths))
  {
    if |row| == 0 {
      return Err(Spec.ValueError(Spec.EmptyMax));
    }
    // the row is as tall as its tallest entry
    var numLines := TableLayout.LineCount(row);
    var out: seq<string> := [];
    for k := 0 to numLines
      invariant |out| == k
      invariant forall kk :: 0 <= kk < k ==> out[kk] == TableLayout.RowLine(row, widths, kk)
    {
      var line := AppendRowLine(row, widths, k);
      out := out + [line];
    }
    assert out == TableLayout.RowLines(row, widths);
    r := Ok(out);
  }

  /** `format_xml_paragraph(xmlnode)`. */
  method FormatXmlParagraph(idx: SymbolIndex, n: Node) returns (r: Result<seq<string>, Spec.Fault>)
    ensures r == Spec.FormatXmlParagraph(idx, n)
  {
    var f := new ParagraphFormatter(idx);
    var st := f.GenericVisit(n);
    if st.Failed? {
      return Err(st.fault);
    }
    r := Ok(RStripAll(f.lines));
  }
}
