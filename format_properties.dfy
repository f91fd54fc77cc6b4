/**
 * Properties of the paragraph formatter that relate several handlers: the
 * buffer only ever grows, paragraphs and sections leave the layout the
 * handlers promise, the preformatted block splits and re-joins its text, and
 * the table block has the shape of a reST grid table.
 */
module FormatProperties {
  import opened Wrappers
  import opened Strings
  import opened Xml
  import opened Symbols
  import TableLayout
  import opened FormatSpec

  // ---------------------------------------------------------------------------
  // The buffer only grows

  lemma GrowsAppend(a: seq<string>, x: seq<string>)
    requires |a| > 0
    ensures Grows(a, a + x)
  {
    assert (a + x)[..|a| - 1] == a[..|a| - 1];
    assert (a + x)[|a| - 1] == Last(a);
  }

  lemma GrowsLast(a: seq<string>, x: string)
    requires |a| > 0
    ensures Grows(a, AppendToLast(a, x))
  {
  }

  lemma AppendNothing(a: seq<string>)
    requires |a| > 0
    ensures AppendToLast(a, "") == a
  {
    assert Last(a) + "" == Last(a);
  }

  lemma ParaTextGrows(s: Fmt, text: Option<string>)
    requires |s.lines| > 0
    ensures Grows(s.lines, ParaText(s, text).lines)
  {
    if text.None? {
      GrowsAppend(s.lines, []);
      assert s.lines + [] == s.lines;
    } else if !s.cont {
      GrowsAppend(s.lines, [LStrip(text.value)]);
    }
  }

  lemma GrowsTrans(a: seq<string>, b: seq<string>, c: seq<string>)
    requires Grows(a, b) && Grows(b, c)
    ensures Grows(a, c)
  {
    assert c[..|a| - 1] == c[..|b| - 1][..|a| - 1];
    assert b[..|a| - 1] == b[..|b| - 1][..|a| - 1];
    if |a| < |b| {
      assert c[|a| - 1] == c[..|b| - 1][|a| - 1];
      assert b[|a| - 1] == b[..|b| - 1][|a| - 1];
    }
  }

  /**
   * No handler rewrites emitted text: the lines before the last one are kept,
   * the last line can only be extended, and new lines go after it.
   */
  lemma {:induction false} VisitGrows(idx: SymbolIndex, s: Fmt, n: Node)
    requires |s.lines| > 0
    ensures Visit(idx, s, n).Ok? ==> Grows(s.lines, Visit(idx, s, n).value.lines)
    decreases n, 3, 0, 0
  {
    match HandlerFor(n.tag)
    case Para => ParaGrows(idx, s, n);
    case Ref => RefGrows(idx, s, n);
    case Formula => FormulaGrows(s, n);
    case ParameterName => ParameterNameGrows(s, n);
    case ParameterList => ParameterListGrows(idx, s, n);
    case SimpleSect => SimpleSectGrows(idx, s, n);
    case Sect(c) => SectGrows(idx, s, n, c);
    case SectWithoutLevel =>
    case ListItem => ListItemGrows(idx, s, n);
    case Preformatted => PreformattedGrows(s, n);
    case ComputerOutput => ComputerOutputGrows(s, n);
    case XrefSect => PrefixGrows(s.lines, VisitXrefSect(idx, s, n));
    case Subscript => SubscriptGrows(s, n);
    case Table => TableGrows(idx, s, n);
    case Generic => GenericGrows(idx, s, n);
  }

  lemma RefGrows(idx: SymbolIndex, s: Fmt, n: Node)
    requires |s.lines| > 0
    ensures VisitRef(idx, s, n).Ok? ==> Grows(s.lines, VisitRef(idx, s, n).value.lines)
  {
    if n.text.Some? {
      var t := Resolve(idx, RefKey(n));
      if t.Unsupported? {
        GrowsLast(s.lines, "(unimplemented link)" + n.text.value);
      } else {
        GrowsLast(s.lines, RefSpan(n.text.value, t) + n.tail.GetOr(""));
      }
    }
  }

  lemma ParameterNameGrows(s: Fmt, n: Node)
    requires |s.lines| > 0
    ensures Grows(s.lines, VisitParameterName(s, n).lines)
  {
    var direction := if "direction" in n.attrib then "[" + n.attrib["direction"] + "] " else "";
    GrowsAppend(s.lines, [":param " + n.text.GetOr("None") + ": " + direction]);
  }

  lemma ParameterListGrows(idx: SymbolIndex, s: Fmt, n: Node)
    requires |s.lines| > 0
    ensures VisitParameterList(idx, s, n).Ok? ==> Grows(s.lines, VisitParameterList(idx, s, n).value.lines)
  {
    if VisitParameterList(idx, s, n).Ok? {
      var sub := GenericVisit(idx, Fresh, n).value;
      var tail := [""] + DropEmpty(sub.lines) + [""];
      assert s.lines + [""] + DropEmpty(sub.lines) + [""] == s.lines + tail;
      GrowsAppend(s.lines, tail);
    }
  }

  lemma PreformattedGrows(s: Fmt, n: Node)
    requires |s.lines| > 0
    ensures VisitPreformatted(s, n).Ok? ==> Grows(s.lines, VisitPreformatted(s, n).value.lines)
  {
    if VisitPreformatted(s, n).Ok? {
      var text := JoinParts(SegmentParts(n)).value;
      var tail := [".. code-block:: C++", ""] + Indent("  ", Split(text, '\n'));
      assert s.lines + [".. code-block:: C++", ""] + Indent("  ", Split(text, '\n')) == s.lines + tail;
      GrowsAppend(s.lines, tail);
    }
  }

  lemma ComputerOutputGrows(s: Fmt, n: Node)
    requires |s.lines| > 0
    ensures VisitComputerOutput(s, n).Ok? ==> Grows(s.lines, VisitComputerOutput(s, n).value.lines)
  {
    match Find(n, "preformatted")
    case Some(c) => PreformattedGrows(s, c);
    case None => if n.text.Some? { GrowsLast(s.lines, "``" + n.text.value + "``"); }
  }

  lemma SubscriptGrows(s: Fmt, n: Node)
    requires |s.lines| > 0
    ensures Grows(s.lines, VisitSubscript(s, n).lines)
  {
    GrowsLast(s.lines, "\\ :sub:`" + n.text.GetOr("None") + "` " + n.tail.GetOr("None"));
  }

  /** A handler that only appends lines. */
  lemma PrefixGrows(a: seq<string>, r: Run)
    requires |a| > 0
    requires r.Ok? ==> |r.value.lines| >= |a| && r.value.lines[..|a|] == a
    ensures r.Ok? ==> Grows(a, r.value.lines)
  {
    if r.Ok? {
      GrowsAppend(a, r.value.lines[|a|..]);
      assert r.value.lines == a + r.value.lines[|a|..];
    }
  }

  lemma {:induction false} ParaGrows(idx: SymbolIndex, s: Fmt, n: Node)
    requires |s.lines| > 0
    ensures VisitPara(idx, s, n).Ok? ==> Grows(s.lines, VisitPara(idx, s, n).value.lines)
    decreases n, 2, 0, 0
  {
    VisitParaUnfold(idx, s, n);
    var s1 := ParaText(s, n.text);
    ParaTextGrows(s, n.text);
    ParaChildrenGrows(idx, s1, n, 0);
    if ParaChildren(idx, s1, n, 0).Ok? {
      var s2 := ParaChildren(idx, s1, n, 0).value;
      GrowsAppend(s2.lines, [""]);
      GrowsTrans(s.lines, s1.lines, s2.lines);
      GrowsTrans(s.lines, s2.lines, s2.lines + [""]);
    }
  }

  lemma FormulaGrows(s: Fmt, n: Node)
    requires |s.lines| > 0
    ensures VisitFormula(s, n).Ok? ==> Grows(s.lines, VisitFormula(s, n).value.lines)
  {
    var r := VisitFormula(s, n);
    if r.Ok? && (IsBlockFormula(Strip(n.text.value)) || !s.cont) {
      PrefixGrows(s.lines, r);
    }
  }

  lemma {:induction false} SimpleSectGrows(idx: SymbolIndex, s: Fmt, n: Node)
    requires |s.lines| > 0
    ensures VisitSimpleSect(idx, s, n).Ok? ==> Grows(s.lines, VisitSimpleSect(idx, s, n).value.lines)
    decreases n, 2, 0, 0
  {
    var s1 := if Get(n, "kind") == Some("return") then Fmt(s.lines + [":returns: "], true) else s;
    GrowsAppend(s.lines, s1.lines[|s.lines|..]);
    assert s1.lines == s.lines + s1.lines[|s.lines|..];
    GenericGrows(idx, s1, n);
    if VisitSimpleSect(idx, s, n).Ok? {
      GrowsTrans(s.lines, s1.lines, VisitSimpleSect(idx, s, n).value.lines);
    }
  }

  lemma {:induction false} SectGrows(idx: SymbolIndex, s: Fmt, n: Node, c: char)
    requires |s.lines| > 0
    ensures VisitSect(idx, s, n, c).Ok? ==> Grows(s.lines, VisitSect(idx, s, n, c).value.lines)
    decreases n, 2, 0, 0
  {
    if VisitSect(idx, s, n, c).Ok? {
      var s1 := match Find(n, "title")
        case None => s
        case Some(t) => s.(lines := s.lines + [t.text.GetOr(""), Repeat(c, |t.text.GetOr("")|), ""]);
      GrowsAppend(s.lines, s1.lines[|s.lines|..]);
      assert s1.lines == s.lines + s1.lines[|s.lines|..];
      GenericGrows(idx, s1, n);
      GrowsTrans(s.lines, s1.lines, VisitSect(idx, s, n, c).value.lines);
    }
  }

  lemma {:induction false} ListItemGrows(idx: SymbolIndex, s: Fmt, n: Node)
    requires |s.lines| > 0
    ensures VisitListItem(idx, s, n).Ok? ==> Grows(s.lines, VisitListItem(idx, s, n).value.lines)
    decreases n, 2, 0, 0
  {
    var s1 := Fmt(s.lines + ["   - "], true);
    GrowsAppend(s.lines, ["   - "]);
    GenericGrows(idx, s1, n);
    if VisitListItem(idx, s, n).Ok? {
      GrowsTrans(s.lines, s1.lines, VisitListItem(idx, s, n).value.lines);
    }
  }

  lemma TableGrows(idx: SymbolIndex, s: Fmt, n: Node)
    requires |s.lines| > 0
    ensures VisitTable(idx, s, n).Ok? ==> Grows(s.lines, VisitTable(idx, s, n).value.lines)
  {
    var r := VisitTable(idx, s, n);
    if r.Ok? {
      assert r.value.lines[..|s.lines|] == s.lines;
      PrefixGrows(s.lines, r);
    }
  }

  lemma {:induction false} GenericGrows(idx: SymbolIndex, s: Fmt, n: Node)
    requires |s.lines| > 0
    ensures GenericVisit(idx, s, n).Ok? ==> Grows(s.lines, GenericVisit(idx, s, n).value.lines)
    decreases n, 1, 0, 0
  {
    ChildrenGrows(idx, s, n, 0);
  }

  lemma {:induction false} ChildrenGrows(idx: SymbolIndex, s: Fmt, n: Node, i: nat)
    requires |s.lines| > 0 && i <= |n.children|
    ensures VisitChildren(idx, s, n, i).Ok? ==> Grows(s.lines, VisitChildren(idx, s, n, i).value.lines)
    decreases n, 0, |n.children| - i, 0
  {
    if i == |n.children| {
      GrowsAppend(s.lines, []);
      assert s.lines + [] == s.lines;
    } else if VisitChildren(idx, s, n, i).Ok? {
      var s1 := Visit(idx, s, n.children[i]).value;
      VisitGrows(idx, s, n.children[i]);
      ChildrenGrows(idx, s1, n, i + 1);
      GrowsTrans(s.lines, s1.lines, VisitChildren(idx, s, n, i).value.lines);
    }
  }

  lemma {:induction false} ParaChildrenGrows(idx: SymbolIndex, s: Fmt, n: Node, i: nat)
    requires |s.lines| > 0 && i <= |n.children|
    ensures ParaChildren(idx, s, n, i).Ok? ==> Grows(s.lines, ParaChildren(idx, s, n, i).value.lines)
    decreases n, 0, |n.children| - i, 0
  {
    if i == |n.children| {
      GrowsAppend(s.lines, []);
      assert s.lines + [] == s.lines;
    } else if ParaChildren(idx, s, n, i).Ok? {
      var s1 := Visit(idx, s, n.children[i]).value;
      VisitGrows(idx, s, n.children[i]);
      var s2 := ParaText(s1, n.children[i].tail);
      ParaTextGrows(s1, n.children[i].tail);
      GrowsTrans(s.lines, s1.lines, s2.lines);
      ParaChildrenGrows(idx, s2.(cont := true), n, i + 1);
      GrowsTrans(s.lines, s2.lines, ParaChildren(idx, s, n, i).value.lines);
    }
  }

  /** The root's rendering keeps the initial blank line first (possibly extended), and never shrinks. */
  lemma RootGrows(idx: SymbolIndex, n: Node)
    ensures GenericVisit(idx, Fresh, n).Ok? ==> Grows([""], GenericVisit(idx, Fresh, n).value.lines)
  {
    GenericGrows(idx, Fresh, n);
  }

  // ---------------------------------------------------------------------------
  // Paragraphs

  /** Once a paragraph's first child is visited and its tail emitted, `continue_line` stays set. */
  lemma {:induction false} ParaChildrenContinue(idx: SymbolIndex, s: Fmt, n: Node, i: nat)
    requires |s.lines| > 0 && i < |n.children|
    ensures ParaChildren(idx, s, n, i).Ok? ==> ParaChildren(idx, s, n, i).value.cont
    decreases |n.children| - i
  {
    if ParaChildren(idx, s, n, i).Ok? && i + 1 < |n.children| {
      var s1 := Visit(idx, s, n.children[i]).value;
      var s2 := ParaText(s1, n.children[i].tail);
      ParaChildrenContinue(idx, s2.(cont := true), n, i + 1);
    }
  }

  lemma Cat2(a: seq<string>, x: string, y: string)
    ensures a + [x] + [y] == a + [x, y]
  {
  }

  lemma ExtendSecond(a: seq<string>, x: string, y: string, z: string)
    ensures AppendToLast(a + [x, y], z) == a + [x, y + z]
  {
  }

  lemma ParaChildStep(idx: SymbolIndex, s: Fmt, n: Node, i: nat)
    requires |s.lines| > 0 && i < |n.children| && Visit(idx, s, n.children[i]).Ok?
    ensures ParaChildren(idx, s, n, i)
            == ParaChildren(idx, ParaText(Visit(idx, s, n.children[i]).value, n.children[i].tail).(cont := true), n, i + 1)
  {
  }

  lemma VisitParaUnfold(idx: SymbolIndex, s: Fmt, n: Node)
    requires |s.lines| > 0
    ensures VisitPara(idx, s, n) == match ParaChildren(idx, ParaText(s, n.text), n, 0)
                                    case Ok(s2) => Ok(Fmt(s2.lines + [""], false))
                                    case Err(e) => Err(e)
  {
  }

  /** A child that `generic_visit` handles and that has no children of its own: visiting it changes nothing. */
  predicate Inert(c: Node) {
    HandlerFor(c.tag) == Generic && c.children == []
  }

  lemma InertVisit(idx: SymbolIndex, s: Fmt, c: Node)
    requires |s.lines| > 0 && Inert(c)
    ensures Visit(idx, s, c) == Ok(s)
  {
    assert VisitChildren(idx, s, c, 0) == Ok(s);
  }

  /** The tails of the children from `i` on, a missing tail read as ''. */
  function Tails(cs: seq<Node>, i: nat): string
    requires i <= |cs|
    decreases |cs| - i
  {
    if i == |cs| then "" else cs[i].tail.GetOr("") + Tails(cs, i + 1)
  }

  /** With `continue_line` set, the tails of inert children all extend the current line. */
  lemma {:induction false} InertTailsContinue(idx: SymbolIndex, s: Fmt, n: Node, i: nat)
    requires |s.lines| > 0 && i <= |n.children| && s.cont
    requires forall k :: i <= k < |n.children| ==> Inert(n.children[k])
    ensures ParaChildren(idx, s, n, i) == Ok(Fmt(AppendToLast(s.lines, Tails(n.children, i)), true))
    decreases |n.children| - i
  {
    if i == |n.children| {
      AppendNothing(s.lines);
    } else {
      var c := n.children[i];
      InertVisit(idx, s, c);
      ParaChildStep(idx, s, n, i);
      var tail := c.tail.GetOr("");
      var s2 := ParaText(s, c.tail);
      if c.tail.None? { AppendNothing(s.lines); }
      assert s2.lines == AppendToLast(s.lines, tail);
      InertTailsContinue(idx, s2.(cont := true), n, i + 1);
      AppendTwice(s.lines, tail, Tails(n.children, i + 1));
    }
  }

  lemma AppendTwice(a: seq<string>, x: string, y: string)
    requires |a| > 0
    ensures AppendToLast(AppendToLast(a, x), y) == AppendToLast(a, x + y)
  {
    assert Last(a) + x + y == Last(a) + (x + y);
  }

  /**
   * A paragraph on a fresh line whose children all fall through to
   * `generic_visit` (their own text is dropped): the text becomes one line,
   * the first child's tail starts the next line (`continue_line` is still
   * false when it is emitted), the later tails extend it, and the paragraph
   * ends with a blank line.
   */
  lemma ParaOfInertChildren(idx: SymbolIndex, s: Fmt, n: Node, t: string, u: string)
    requires |s.lines| > 0 && !s.cont && n.text == Some(t)
    requires |n.children| > 0 && n.children[0].tail == Some(u)
    requires forall k :: 0 <= k < |n.children| ==> Inert(n.children[k])
    ensures VisitPara(idx, s, n) == Ok(Fmt(s.lines + [LStrip(t), LStrip(u) + Tails(n.children, 1)] + [""], false))
  {
    var s1 := ParaText(s, n.text);
    assert s1 == Fmt(s.lines + [LStrip(t)], false);
    InertVisit(idx, s1, n.children[0]);
    ParaChildStep(idx, s1, n, 0);
    var s2 := ParaText(s1, n.children[0].tail);
    Cat2(s.lines, LStrip(t), LStrip(u));
    assert s2 == Fmt(s.lines + [LStrip(t), LStrip(u)], false);
    InertTailsContinue(idx, s2.(cont := true), n, 1);
    ExtendSecond(s.lines, LStrip(t), LStrip(u), Tails(n.children, 1));
    VisitParaUnfold(idx, s, n);
  }

  /** `<ref refid="r">f</ref> x`. */
  function SampleRef(): Node {
    Node("ref", map["refid" := "r"], Some("f"), Some(" x"), [])
  }

  /** `<para>A <ref .../> x</para>`. */
  function SamplePara(): Node {
    Node("para", map[], Some("A "), None, [SampleRef()])
  }

  lemma SampleRefSpan(idx: SymbolIndex)
    requires "r" !in idx
    ensures VisitRef(idx, Fmt(["", "A "], false), SampleRef()) == Ok(Fmt(["", "A :cpp:any:`f` x"], false))
  {
    var span := ":cpp:any:`" + "f" + "`" + " x";
    assert RefKey(SampleRef()) == "r";
    assert AppendToLast(["", "A "], span) == ["", "A " + span];
    assert "A " + span == "A :cpp:any:`f` x";
  }

  lemma SampleStrips()
    ensures LStrip("A ") == "A " && LStrip(" x") == "x"
  {
    LStripKeeps("A ");
    LStripDrops(" x");
    assert " x"[1..] == "x";
    LStripKeeps("x");
  }

  /**
   * A reference inside a paragraph has its tail emitted twice: `visit_ref`
   * appends it to the current line, and `visit_para` then emits it again,
   * here on a line of its own because `continue_line` is still false. This
   * holds for every index without the id "r".
   */
  lemma RefTailTwiceInPara(idx: SymbolIndex)
    requires "r" !in idx
    ensures VisitPara(idx, Fresh, SamplePara())
            == Ok(Fmt(["", "A :cpp:any:`f` x", "x", ""], false))
  {
    SampleStrips();
    SampleParaChildren(idx);
    assert ParaText(Fresh, SamplePara().text) == Fmt(["", "A "], false);
    VisitParaUnfold(idx, Fresh, SamplePara());
    assert ["", "A :cpp:any:`f` x", "x"] + [""] == ["", "A :cpp:any:`f` x", "x", ""];
  }

  /** The paragraph's one child: the span and the tail on the first line, the tail again on its own. */
  lemma SampleParaChildren(idx: SymbolIndex)
    requires "r" !in idx
    ensures ParaChildren(idx, Fmt(["", "A "], false), SamplePara(), 0) == Ok(Fmt(["", "A :cpp:any:`f` x", "x"], true))
  {
    var s1 := Fmt(["", "A "], false);
    var s2 := Fmt(["", "A :cpp:any:`f` x"], false);
    SampleStrips();
    SampleRefSpan(idx);
    assert Visit(idx, s1, SampleRef()) == Ok(s2);
    var s3 := Fmt(["", "A :cpp:any:`f` x", "x"], false);
    assert ParaText(s2, SampleRef().tail) == s3;
    ParaChildStep(idx, s1, SamplePara(), 0);
    assert ParaChildren(idx, s3.(cont := true), SamplePara(), 1) == Ok(s3.(cont := true));
  }

  // ---------------------------------------------------------------------------
  // Sections, lists, parameter lists

  /**
   * A titled section emits the title and an underline of the level character
   * as long as the title, then a blank line that only the content can extend.
   */
  lemma SectTitleLines(idx: SymbolIndex, s: Fmt, n: Node, c: char)
    requires |s.lines| > 0
    requires Find(n, "title").Some? && Find(n, "title").value.text.Some?
    ensures var title := Find(n, "title").value.text.value;
            var r := VisitSect(idx, s, n, c);
            r.Ok? ==>
              && |r.value.lines| >= |s.lines| + 3
              && r.value.lines[..|s.lines| + 2] == s.lines + [title, Repeat(c, |title|)]
              && |r.value.lines[|s.lines| + 1]| == |title|
  {
    var title := Find(n, "title").value.text.value;
    var s1 := s.(lines := s.lines + [title, Repeat(c, |title|), ""]);
    GenericGrows(idx, s1, n);
    assert s1.lines[..|s1.lines| - 1] == s.lines + [title, Repeat(c, |title|)];
  }

  /**
   * A section without a title goes straight to its children; a title
   * without text is a TypeError from `len(None)`; otherwise the children
   * are rendered after the three heading lines.
   */
  lemma SectOutput(idx: SymbolIndex, s: Fmt, n: Node, c: char)
    requires |s.lines| > 0
    ensures Find(n, "title").None? ==> VisitSect(idx, s, n, c) == GenericVisit(idx, s, n)
    ensures Find(n, "title").Some? && Find(n, "title").value.text.None? ==>
              VisitSect(idx, s, n, c) == Err(TypeError(NoneLen))
    ensures Find(n, "title").Some? && Find(n, "title").value.text.Some? ==>
              var title := Find(n, "title").value.text.value;
              VisitSect(idx, s, n, c) == GenericVisit(idx, s.(lines := s.lines + [title, Repeat(c, |title|), ""]), n)
  {
  }

  /**
   * A simple section of kind "return" first opens a `:returns: ` field line
   * that its content continues; any other kind only renders its children.
   */
  lemma SimpleSectOutput(idx: SymbolIndex, s: Fmt, n: Node)
    requires |s.lines| > 0
    ensures Get(n, "kind") == Some("return") ==>
              VisitSimpleSect(idx, s, n) == GenericVisit(idx, Fmt(s.lines + [":returns: "], true), n)
    ensures var r := VisitSimpleSect(idx, s, n);
            Get(n, "kind") == Some("return") && r.Ok? ==>
              && |r.value.lines| > |s.lines| && r.value.lines[..|s.lines|] == s.lines
              && ":returns: " <= r.value.lines[|s.lines|]
    ensures Get(n, "kind") != Some("return") ==> VisitSimpleSect(idx, s, n) == GenericVisit(idx, s, n)
  {
    if Get(n, "kind") == Some("return") {
      var s1 := Fmt(s.lines + [":returns: "], true);
      GenericGrows(idx, s1, n);
      var r := VisitSimpleSect(idx, s, n);
      if r.Ok? {
        assert s1.lines[..|s1.lines| - 1] == s.lines;
        assert r.value.lines[..|s.lines|] == s1.lines[..|s1.lines| - 1];
      }
    }
  }

  /** The level characters of `visit_sect1` .. `visit_sect4`. */
  lemma SectLevels()
    ensures HandlerFor("sect1") == Sect('=') && HandlerFor("sect2") == Sect('-')
    ensures HandlerFor("sect3") == Sect('^') && HandlerFor("sect4") == Sect('"')
    ensures HandlerFor("sect").SectWithoutLevel?
  {
  }

  /** A list item opens a bullet line that the item's content continues. */
  lemma ListItemBullet(idx: SymbolIndex, s: Fmt, n: Node)
    requires |s.lines| > 0
    ensures VisitListItem(idx, s, n) == GenericVisit(idx, Fmt(s.lines + ["   - "], true), n)
    ensures var r := VisitListItem(idx, s, n);
            r.Ok? ==> r.value.lines[..|s.lines|] == s.lines && "   - " <= r.value.lines[|s.lines|]
  {
    var s1 := Fmt(s.lines + ["   - "], true);
    GenericGrows(idx, s1, n);
    var r := VisitListItem(idx, s, n);
    if r.Ok? {
      assert r.value.lines[..|s.lines|] == s1.lines[..|s1.lines| - 1];
    }
  }

  /**
   * A parameter list is a fresh rendering spliced in between two blank lines:
   * between them stand exactly the rendering's non-empty lines, in their
   * order (`DropEmptyKeepsOrder`), and the list fails exactly when that
   * rendering does.
   */
  lemma ParameterListBlock(idx: SymbolIndex, s: Fmt, n: Node)
    requires |s.lines| > 0
    ensures var r := VisitParameterList(idx, s, n);
            && (r.Ok? <==> GenericVisit(idx, Fresh, n).Ok?)
            && (r.Ok? ==>
                  && r.value.cont == s.cont
                  && |r.value.lines| >= |s.lines| + 2
                  && r.value.lines[..|s.lines|] == s.lines
                  && r.value.lines[|s.lines|] == "" && Last(r.value.lines) == ""
                  && r.value.lines[|s.lines| + 1..|r.value.lines| - 1] == DropEmpty(GenericVisit(idx, Fresh, n).value.lines)
                  && forall k :: |s.lines| < k < |r.value.lines| - 1 ==> r.value.lines[k] != "")
  {
    if VisitParameterList(idx, s, n).Ok? {
      BlankFramed(s.lines, DropEmpty(GenericVisit(idx, Fresh, n).value.lines));
    }
  }

  /** Non-empty lines between two blank ones, after `a`. */
  lemma BlankFramed(a: seq<string>, kept: seq<string>)
    requires forall k :: 0 <= k < |kept| ==> kept[k] != ""
    ensures var r := a + [""] + kept + [""];
            && r[..|a|] == a && r[|a|] == "" && Last(r) == ""
            && r[|a| + 1..|r| - 1] == kept
            && forall k :: |a| < k < |r| - 1 ==> r[k] != ""
  {
    var r := a + [""] + kept + [""];
    assert r[..|a|] == a;
    assert r[|a| + 1..|r| - 1] == kept;
    forall k | |a| < k < |r| - 1 ensures r[k] != "" {
      assert r[k] == kept[k - |a| - 1];
    }
  }

  // ---------------------------------------------------------------------------
  // Preformatted text

  /** The text `visit_preformatted` splits into lines. */
  function PreformattedText(n: Node): Result<string, Fault> {
    JoinParts(SegmentParts(n))
  }

  /** What each child contributes to a code block: its text, then its tail, a missing one read as ''. */
  function ChildTexts(cs: seq<Node>): (r: seq<string>)
    ensures |r| == |cs| && forall k :: 0 <= k < |cs| ==> r[k] == cs[k].text.GetOr("") + cs[k].tail.GetOr("")
  {
    seq(|cs|, k requires 0 <= k < |cs| => cs[k].text.GetOr("") + cs[k].tail.GetOr(""))
  }

  lemma PartValuesAppend(a: seq<Option<string>>, b: seq<Option<string>>)
    ensures PartValues(a + b) == PartValues(a) + PartValues(b)
  {
  }

  /**
   * The parts a code block collects from its children hold no None exactly
   * when every child has a text, and they concatenate to each child's text
   * followed by its tail, in document order.
   */
  lemma ChildPartsValues(cs: seq<Node>)
    ensures (forall k :: 0 <= k < |ChildParts(cs)| ==> ChildParts(cs)[k].Some?)
            <==> (forall k :: 0 <= k < |cs| ==> cs[k].text.Some?)
    ensures Concat(PartValues(ChildParts(cs))) == Concat(ChildTexts(cs))
  {
    ChildPartsSome(cs);
    ChildPartsConcat(cs);
  }

  /** The parts of one more child: its text, then its tail unless that is None. */
  lemma ChildPartsSnoc(cs: seq<Node>)
    requires cs != []
    ensures var c := cs[|cs| - 1];
            ChildParts(cs) == ChildParts(cs[..|cs| - 1]) + [c.text] + (if c.tail.Some? then [c.tail] else [])
  {
  }

  lemma {:induction false} ChildPartsSome(cs: seq<Node>)
    ensures (forall k :: 0 <= k < |ChildParts(cs)| ==> ChildParts(cs)[k].Some?)
            <==> (forall k :: 0 <= k < |cs| ==> cs[k].text.Some?)
  {
    if cs != [] {
      var p := cs[..|cs| - 1];
      var c := cs[|cs| - 1];
      var tail: seq<Option<string>> := if c.tail.Some? then [c.tail] else [];
      ChildPartsSome(p);
      ChildPartsSnoc(cs);
      var parts := ChildParts(cs);
      var m := |ChildParts(p)|;
      assert parts == ChildParts(p) + [c.text] + tail;
      assert forall k :: 0 <= k < m ==> parts[k] == ChildParts(p)[k];
      assert parts[m] == c.text;
      assert forall k :: m < k < |parts| ==> parts[k] == tail[k - m - 1];
      assert forall k :: 0 <= k < |p| ==> p[k] == cs[k];
      if forall k :: 0 <= k < |cs| ==> cs[k].text.Some? {
        assert forall k :: 0 <= k < |p| ==> p[k].text.Some?;
      }
    }
  }

  lemma {:induction false} ChildPartsConcat(cs: seq<Node>)
    ensures Concat(PartValues(ChildParts(cs))) == Concat(ChildTexts(cs))
  {
    if cs != [] {
      var p := cs[..|cs| - 1];
      var c := cs[|cs| - 1];
      var tail: seq<Option<string>> := if c.tail.Some? then [c.tail] else [];
      ChildPartsConcat(p);
      ChildPartsSnoc(cs);
      PartValuesAppend(ChildParts(p) + [c.text], tail);
      PartValuesAppend(ChildParts(p), [c.text]);
      assert PartValues([c.text]) == [c.text.GetOr("")];
      assert Concat(PartValues(tail)) == c.tail.GetOr("") by {
        if c.tail.Some? { assert Concat(PartValues(tail)) == c.tail.value + Concat([]); }
      }
      assert ChildTexts(cs) == ChildTexts(p) + [c.text.GetOr("") + c.tail.GetOr("")];
      SnocConcat(PartValues(ChildParts(p)), ChildTexts(p), c.text.GetOr(""), PartValues(tail), c.tail.GetOr(""));
    }
  }

  /** One more child: its text, then the parts that join to its tail. */
  lemma SnocConcat(pv: seq<string>, ts: seq<string>, x: string, tv: seq<string>, y: string)
    requires Concat(pv) == Concat(ts) && Concat(tv) == y
    ensures Concat(pv + [x] + tv) == Concat(ts + [x + y])
  {
    ConcatAppend(pv + [x], tv);
    ConcatAppend(pv, [x]);
    ConcatAppend(ts, [x + y]);
    assert Concat([x]) == x + Concat([]);
    assert Concat([x + y]) == x + y + Concat([]);
  }

  /**
   * The text of a code block is the node's text (or '') followed by each
   * child's text and its tail, and it exists exactly when every child has a
   * text.
   */
  lemma PreformattedTextValue(n: Node)
    ensures PreformattedText(n).Ok? <==> forall k :: 0 <= k < |n.children| ==> n.children[k].text.Some?
    ensures PreformattedText(n).Ok? ==> PreformattedText(n).value == n.text.GetOr("") + Concat(ChildTexts(n.children))
  {
    var parts := SegmentParts(n);
    ChildPartsValues(n.children);
    assert parts == [Some(n.text.GetOr(""))] + ChildParts(n.children);
    PartValuesAppend([Some(n.text.GetOr(""))], ChildParts(n.children));
    assert PartValues([Some(n.text.GetOr(""))]) == [n.text.GetOr("")];
    ConcatAppend([n.text.GetOr("")], PartValues(ChildParts(n.children)));
    assert Concat([n.text.GetOr("")]) == n.text.GetOr("");
    forall k | 0 <= k < |ChildParts(n.children)| ensures parts[k + 1] == ChildParts(n.children)[k] {
    }
  }

  /**
   * A code block: the directive, a blank line, then one line per '\n'-separated
   * piece of the joined text, each indented by two spaces; dropping the indent
   * and re-joining the pieces with '\n' gives the text back.
   */
  lemma PreformattedLines(s: Fmt, n: Node)
    requires |s.lines| > 0
    ensures VisitPreformatted(s, n).Ok? <==> PreformattedText(n).Ok?
    ensures VisitPreformatted(s, n).Ok? ==>
              var text := PreformattedText(n).value;
              var r := VisitPreformatted(s, n).value;
              var body := r.lines[|s.lines| + 2..];
              && r.cont == s.cont
              && r.lines[..|s.lines|] == s.lines
              && r.lines[|s.lines|] == ".. code-block:: C++" && r.lines[|s.lines| + 1] == ""
              && |body| == Count(text, '\n') + 1
              && (forall k :: 0 <= k < |body| ==> |body[k]| >= 2 && body[k][..2] == "  " && '\n' !in body[k][2..])
              && Join(seq(|body|, k requires 0 <= k < |body| => body[k][2..]), "\n") == text
  {
    if VisitPreformatted(s, n).Ok? {
      var text := PreformattedText(n).value;
      var r := VisitPreformatted(s, n).value;
      var pieces := Split(text, '\n');
      assert r.lines == s.lines + [".. code-block:: C++", ""] + Indent("  ", pieces);
      var body := r.lines[|s.lines| + 2..];
      assert body == Indent("  ", pieces);
      SplitCount(text, '\n');
      SplitJoin(text, '\n');
      forall k | 0 <= k < |body| ensures body[k][2..] == pieces[k] {
        assert body[k] == "  " + pieces[k];
      }
      assert seq(|body|, k requires 0 <= k < |body| => body[k][2..]) == pieces;
    }
  }

  // ---------------------------------------------------------------------------
  // Tables

  /** The rendered rows and the final `widths` of a table whose rendering succeeded. */
  function RenderedTable(idx: SymbolIndex, s: Fmt, n: Node): (t: (seq<TableLayout.Row>, seq<int>))
    requires |s.lines| > 0 && VisitTable(idx, s, n).Ok?
    ensures |t.1| == TableLayout.Slots(ColumnCount(n).value) && TableLayout.Fits(t.0, ColumnCount(n).value)
  {
    var cols := ColumnCount(n).value;
    var table := RenderRows(idx, [], s.cont, n, 0, cols).value.0;
    (table, TableLayout.ColumnWidths(table, cols))
  }

  /** A rendered table appends exactly the layout of its rows, which are all non-empty. */
  lemma TableOutput(idx: SymbolIndex, s: Fmt, n: Node)
    requires |s.lines| > 0 && VisitTable(idx, s, n).Ok?
    ensures var (table, w) := RenderedTable(idx, s, n);
            && |table| > 0 && (forall row :: 0 <= row < |table| ==> |table[row]| > 0)
            && (forall row :: 0 <= row < |table| ==> |table[row]| <= |w|)
            && VisitTable(idx, s, n).value.lines == s.lines + TableLayout.Block(table, w)
  {
    var cols := ColumnCount(n).value;
    var rendered := RenderRows(idx, [], s.cont, n, 0, cols).value;
    var w := TableLayout.ColumnWidths(rendered.0, cols);
    assert VisitTable(idx, s, n) == Ok(Fmt(s.lines + LayOut(rendered.0, w).value, rendered.1));
    LaidOut(rendered.0, w);
  }

  lemma LaidOut(table: seq<TableLayout.Row>, w: seq<int>)
    requires forall r :: 0 <= r < |table| ==> |table[r]| <= |w|
    requires LayOut(table, w).Ok?
    ensures |table| > 0 && (forall row :: 0 <= row < |table| ==> |table[row]| > 0)
    ensures LayOut(table, w).value == TableLayout.Block(table, w)
  {
  }

  /** `widths[i]` is never negative and is two more than any line of any entry in column `i`. */
  lemma WidthsCover(table: seq<TableLayout.Row>, cols: int)
    requires TableLayout.Fits(table, cols)
    ensures TableLayout.NonNegative(TableLayout.ColumnWidths(table, cols))
    ensures var w := TableLayout.ColumnWidths(table, cols);
            forall i, row, k :: 0 <= i < |w| && 0 <= row < |table| && i < |table[row]| && 0 <= k < |table[row][i]| ==>
              |table[row][i][k]| + 2 <= w[i]
  {
    var w := TableLayout.ColumnWidths(table, cols);
    forall i | 0 <= i < |w|
      ensures w[i] >= 0
      ensures forall row, k :: 0 <= row < |table| && i < |table[row]| && 0 <= k < |table[row][i]| ==>
                |table[row][i][k]| + 2 <= w[i]
    {
      TableLayout.ColumnWidthsExact(table, cols, i);
    }
  }

  /**
   * The grid: blank lines around it, a '+'/'-' border as wide as a full line
   * first, the header row's lines, each as wide as the columns it spans, then
   * the same border drawn with '='.
   */
  lemma GridShape(table: seq<TableLayout.Row>, w: seq<int>)
    requires |table| > 0 && TableLayout.NonNegative(w)
    requires forall row :: 0 <= row < |table| ==> |table[row]| <= |w|
    requires forall i, k :: 0 <= i < |table[0]| && 0 <= k < |table[0][i]| ==> |table[0][i][k]| + 1 <= w[i]
    ensures var b := TableLayout.Block(table, w);
            && |b| >= 4 + TableLayout.LineCount(table[0])
            && b[0] == "" && b[|b| - 1] == ""
            && b[1] == TableLayout.Border(w) && |b[1]| == TableLayout.LineWidth(w)
            && (forall j :: 0 <= j < |b[1]| ==> b[1][j] in {'+', '-'})
            && b[2 + TableLayout.LineCount(table[0])] == TableLayout.BorderWith(w, '=')
            && b[2 + TableLayout.LineCount(table[0])] == ReplaceChar(b[1], '-', '=')
            && (forall k :: 2 <= k < 2 + TableLayout.LineCount(table[0]) ==>
                  |b[k]| == TableLayout.LineWidth(w[..|table[0]|]))
  {
    var b := TableLayout.Block(table, w);
    TableLayout.BlockShape(table, w);
    TableLayout.BorderWithShape(w, '-');
    TableLayout.RowLinesShape(table[0], w);
    forall k | 2 <= k < 2 + TableLayout.LineCount(table[0])
      ensures |b[k]| == TableLayout.LineWidth(w[..|table[0]|])
    {
      assert b[k] == b[2..2 + TableLayout.LineCount(table[0])][k - 2];
    }
  }

  /**
   * A rendered table is a grid table appended below the current lines, whose
   * columns are two wider than their longest entry line.
   */
  lemma TableBlock(idx: SymbolIndex, s: Fmt, n: Node)
    requires |s.lines| > 0 && VisitTable(idx, s, n).Ok?
    ensures var (table, w) := RenderedTable(idx, s, n);
            var r := VisitTable(idx, s, n).value;
            && |table| > 0 && (forall row :: 0 <= row < |table| ==> |table[row]| > 0)
            && r.lines[..|s.lines|] == s.lines
            && r.lines[|s.lines|..] == TableLayout.Block(table, w)
            && (forall i, row, k :: 0 <= i < |w| && 0 <= row < |table| && i < |table[row]| && 0 <= k < |table[row][i]| ==>
                  |table[row][i][k]| + 2 <= w[i])
  {
    var cols := ColumnCount(n).value;
    var (table, w) := RenderedTable(idx, s, n);
    TableOutput(idx, s, n);
    WidthsCover(table, cols);
    var r := VisitTable(idx, s, n).value;
    assert r.lines[|s.lines|..] == TableLayout.Block(table, w);
  }
}
