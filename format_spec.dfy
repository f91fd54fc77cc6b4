/**
 * What `_DoxygenXmlParagraphFormatter` does, as pure functions over its state:
 * the line buffer `lines` and the `continue_line` flag. Every `visit_*` handler
 * maps a state and a node to the next state, or to the exception Python
 * would raise (which aborts the whole `format_xml_paragraph` call).
 */
module FormatSpec {
  import opened Wrappers
  import opened Strings
  import opened Xml
  import opened Symbols
  import TableLayout

  /** The formatter's fields: `self.lines` and `self.continue_line`. */
  datatype Fmt = Fmt(lines: seq<string>, cont: bool)

  /** The Python exceptions a handler can raise. */
  datatype Fault =
    | TypeError(reason: Reason)
    | ValueError(reason: Reason)
    | IndexError(reason: Reason)
    | AttributeError(reason: Reason)

  /** What Python's exception message says went wrong. */
  datatype Reason =
    | NoneConcat       // can only concatenate str (not "NoneType") to str
    | MissingSectChar  // visit_sect() missing 1 required positional argument: 'char'
    | NoneStrip        // 'NoneType' object has no attribute 'strip'
    | NoneLen          // object of type 'NoneType' has no len()
    | NoneInJoin       // sequence item: expected str instance, NoneType found
    | NotDeprecated    // ValueError(node) for an xrefsect other than Deprecated
    | NoneText         // 'NoneType' object has no attribute 'text'
    | NoneToInt        // int() argument must be a string, not 'NoneType'
    | BadIntLiteral    // invalid literal for int() with base 10
    | ListIndex        // list index out of range
    | EmptyMax         // max() arg is an empty sequence

  type Run = Result<Fmt, Fault>

  /** The handler `visit` selects through `getattr(self, 'visit_' + node.tag, self.generic_visit)`. */
  datatype Handler =
    | Para | Ref | Formula | ParameterName | ParameterList | SimpleSect
    | Sect(underline: char)  // visit_sect1 .. visit_sect4
    | SectWithoutLevel       // the tag "sect" reaches visit_sect(node) without its `char`
    | ListItem | Preformatted | ComputerOutput | XrefSect | Subscript | Table
    | Generic

  function HandlerFor(tag: string): Handler {
    if tag == "para" then Para
    else if tag == "ref" then Ref
    else if tag == "formula" then Formula
    else if tag == "parametername" then ParameterName
    else if tag == "parameterlist" then ParameterList
    else if tag == "simplesect" then SimpleSect
    else if tag == "sect" then SectWithoutLevel
    else if tag == "sect1" then Sect('=')
    else if tag == "sect2" then Sect('-')
    else if tag == "sect3" then Sect('^')
    else if tag == "sect4" then Sect('"')
    else if tag == "listitem" then ListItem
    else if tag == "preformatted" then Preformatted
    else if tag == "computeroutput" then ComputerOutput
    else if tag == "xrefsect" then XrefSect
    else if tag == "subscript" then Subscript
    else if tag == "table" then Table
    else Generic
  }

  /** A fresh formatter: `lines = ['']`, `continue_line = False`. */
  const Fresh := Fmt([""], false)

  function Last(lines: seq<string>): string
    requires |lines| > 0
  {
    lines[|lines| - 1]
  }

  /** `self.lines[-1] += x`. */
  function AppendToLast(lines: seq<string>, x: string): (r: seq<string>)
    requires |lines| > 0
    ensures |r| == |lines| && r[..|r| - 1] == lines[..|lines| - 1] && Last(r) == Last(lines) + x
  {
    lines[|lines| - 1 := Last(lines) + x]
  }

  /**
   * The buffer only grows: lines before the old last line stay as they were,
   * the old last line can only have been extended, and lines may follow it.
   */
  predicate Grows(before: seq<string>, after: seq<string>) {
    && |before| > 0
    && |after| >= |before|
    && after[..|before| - 1] == before[..|before| - 1]
    && Last(before) <= after[|before| - 1]
  }

  // ---------------------------------------------------------------------------
  // para_text

  /** `para_text(text)`: nothing for None, extend the last line, or a new lstripped line. */
  function ParaText(s: Fmt, text: Option<string>): (r: Fmt)
    requires |s.lines| > 0
    ensures r.cont == s.cont
    ensures text.None? ==> r == s
    ensures text.Some? && s.cont ==>
              |r.lines| == |s.lines| && r.lines[..|r.lines| - 1] == s.lines[..|s.lines| - 1]
              && Last(r.lines) == Last(s.lines) + text.value
    ensures text.Some? && !s.cont ==> r.lines == s.lines + [LStrip(text.value)]
  {
    match text
    case None => s
    case Some(t) =>
      if s.cont then s.(lines := AppendToLast(s.lines, t)) else s.(lines := s.lines + [LStrip(t)])
  }

  // ---------------------------------------------------------------------------
  // Dispatch and traversal

  /** `visit(node)`. */
  function Visit(idx: SymbolIndex, s: Fmt, n: Node): (r: Run)
    requires |s.lines| > 0
    ensures r.Ok? ==> |r.value.lines| >= |s.lines|
    decreases n, 3, 0, 0
  {
    match HandlerFor(n.tag)
    case Para => VisitPara(idx, s, n)
    case Ref => VisitRef(idx, s, n)
    case Formula => VisitFormula(s, n)
    case ParameterName => Ok(VisitParameterName(s, n))
    case ParameterList => VisitParameterList(idx, s, n)
    case SimpleSect => VisitSimpleSect(idx, s, n)
    case Sect(c) => VisitSect(idx, s, n, c)
    case SectWithoutLevel => Err(TypeError(MissingSectChar))
    case ListItem => VisitListItem(idx, s, n)
    case Preformatted => VisitPreformatted(s, n)
    case ComputerOutput => VisitComputerOutput(s, n)
    case XrefSect => VisitXrefSect(idx, s, n)
    case Subscript => Ok(VisitSubscript(s, n))
    case Table => VisitTable(idx, s, n)
    case Generic => GenericVisit(idx, s, n)
  }

  /** `generic_visit(node)`: visit the children in order; the node's own text and the tails are not emitted. */
  function GenericVisit(idx: SymbolIndex, s: Fmt, n: Node): (r: Run)
    requires |s.lines| > 0
    ensures r.Ok? ==> |r.value.lines| >= |s.lines|
    decreases n, 1, 0, 0
  {
    VisitChildren(idx, s, n, 0)
  }

  /** The loop of `generic_visit` from child `i` on. */
  function VisitChildren(idx: SymbolIndex, s: Fmt, n: Node, i: nat): (r: Run)
    requires |s.lines| > 0 && i <= |n.children|
    ensures r.Ok? ==> |r.value.lines| >= |s.lines|
    decreases n, 0, |n.children| - i, 0
  {
    if i == |n.children| then Ok(s)
    else
      var s1 :- Visit(idx, s, n.children[i]);
      VisitChildren(idx, s1, n, i + 1)
  }

  // ---------------------------------------------------------------------------
  // Paragraphs

  /** `visit_para(node)`. */
  function VisitPara(idx: SymbolIndex, s: Fmt, n: Node): (r: Run)
    requires |s.lines| > 0
    ensures r.Ok? ==> |r.value.lines| > |s.lines|
    ensures r.Ok? ==> Last(r.value.lines) == "" && !r.value.cont
    decreases n, 2, 0, 0
  {
    var s1 := ParaText(s, n.text);
    var s2 :- ParaChildren(idx, s1, n, 0);
    Ok(Fmt(s2.lines + [""], false))
  }

  /** The loop of `visit_para` from child `i` on: visit, emit the tail, then continue the line. */
  function ParaChildren(idx: SymbolIndex, s: Fmt, n: Node, i: nat): (r: Run)
    requires |s.lines| > 0 && i <= |n.children|
    ensures r.Ok? ==> |r.value.lines| >= |s.lines|
    decreases n, 0, |n.children| - i, 0
  {
    if i == |n.children| then Ok(s)
    else
      var s1 :- Visit(idx, s, n.children[i]);
      var s2 := ParaText(s1, n.children[i].tail);
      ParaChildren(idx, s2.(cont := true), n, i + 1)
  }

  // ---------------------------------------------------------------------------
  // Cross-references

  /** The inline span `visit_ref` emits for a resolvable (or unknown) target. */
  function RefSpan(caption: string, t: Target): string {
    if t.Resolved? && t.realName != "" then ":cpp:any:`" + caption + " <" + t.realName + ">`"
    else ":cpp:any:`" + caption + "`"
  }

  /** `visit_ref(node)`. */
  function VisitRef(idx: SymbolIndex, s: Fmt, n: Node): (r: Run)
    requires |s.lines| > 0
    ensures n.text.None? <==> r.Err?
    ensures r.Ok? ==> |r.value.lines| == |s.lines| && r.value.cont == s.cont
    // an id missing from the index: the caption alone, then the tail
    ensures n.text.Some? && RefKey(n) !in idx ==>
              r.value.lines == AppendToLast(s.lines, ":cpp:any:`" + n.text.value + "`" + n.tail.GetOr(""))
    // a member: `compoundname::name` as the target
    ensures n.text.Some? && RefKey(n) in idx && idx[RefKey(n)].MemberDef? ==>
              var e := idx[RefKey(n)];
              r.value.lines == AppendToLast(s.lines, ":cpp:any:`" + n.text.value + " <" + e.compoundName + "::"
                                                     + e.memberName + ">`" + n.tail.GetOr(""))
    // a compound or an enum value: its own name as the target, or the caption alone when that is empty
    ensures n.text.Some? && RefKey(n) in idx && (idx[RefKey(n)].CompoundDef? || idx[RefKey(n)].EnumValue?) ==>
              var name := idx[RefKey(n)].ownName.GetOr("");
              && (name != "" ==>
                    r.value.lines == AppendToLast(s.lines, ":cpp:any:`" + n.text.value + " <" + name + ">`" + n.tail.GetOr("")))
              && (name == "" ==>
                    r.value.lines == AppendToLast(s.lines, ":cpp:any:`" + n.text.value + "`" + n.tail.GetOr("")))
    // an element of another kind: a marker and the caption, and no tail
    ensures n.text.Some? && RefKey(n) in idx && idx[RefKey(n)].OtherElement? ==>
              r.value.lines == AppendToLast(s.lines, "(unimplemented link)" + n.text.value)
    decreases n, 2, 0, 0
  {
    if n.text.None? then Err(TypeError(NoneConcat))
    else
      var t := Resolve(idx, RefKey(n));
      if t.Unsupported? then
        Ok(s.(lines := AppendToLast(s.lines, "(unimplemented link)" + n.text.value)))
      else
        var x := RefSpan(n.text.value, t) + n.tail.GetOr("");
        assert RefKey(n) in idx && idx[RefKey(n)].MemberDef? ==>
               var e := idx[RefKey(n)];
               x == ":cpp:any:`" + n.text.value + " <" + e.compoundName + "::" + e.memberName + ">`" + n.tail.GetOr("");
        Ok(s.(lines := AppendToLast(s.lines, x)))
  }

  // ---------------------------------------------------------------------------
  // Formulas and parameters

  /** `s[k:-k]` in Python: empty once the two ends overlap. */
  function DropEnds(s: string, k: nat): (r: string)
    ensures |s| >= 2 * k ==> r == s[k..|s| - k]
    ensures |s| < 2 * k ==> r == ""
  {
    if |s| >= 2 * k then s[k..|s| - k] else ""
  }

  /** Block math: `\[...\]` or anything not starting with `$`. */
  predicate IsBlockFormula(text: string) {
    "\\[" <= text || !("$" <= text)
  }

  /** `visit_formula(node)`. */
  function VisitFormula(s: Fmt, n: Node): (r: Run)
    requires |s.lines| > 0
    ensures n.text.None? <==> r.Err?
    ensures r.Ok? ==> |r.value.lines| >= |s.lines|
    // block math: a `.. math::` directive between blank lines, and the line is closed
    ensures n.text.Some? && IsBlockFormula(Strip(n.text.value)) ==>
              && r.value.lines[..|s.lines|] == s.lines && |r.value.lines| == |s.lines| + 3
              && r.value.lines[|s.lines|] == "" && r.value.lines[|s.lines| + 2] == ""
              && ".. math:: " <= r.value.lines[|s.lines| + 1] && !r.value.cont
    // the directive holds the stripped formula, without its `\[` and `\]` delimiters when it has them
    ensures n.text.Some? && IsBlockFormula(Strip(n.text.value)) ==>
              var t := Strip(n.text.value);
              r.value.lines[|s.lines| + 1] == ".. math:: " + (if "\\[" <= t then DropEnds(t, 2) else t)
    // inline math: a `:math:` role on the current (or a new) line, which stays open
    ensures n.text.Some? && !IsBlockFormula(Strip(n.text.value)) ==>
              && r.value.cont && |r.value.lines| == |s.lines| + (if s.cont then 0 else 1)
              && r.value.lines[..|s.lines| - 1] == s.lines[..|s.lines| - 1]
              && EndsWith(Last(r.value.lines), "`")
    // the role holds the formula without its `$` delimiters, stripped again
    ensures n.text.Some? && !IsBlockFormula(Strip(n.text.value)) ==>
              var role := ":math:`" + Strip(DropEnds(Strip(n.text.value), 1)) + "`";
              && EndsWith(Last(r.value.lines), role)
              && (s.cont ==> Last(r.value.lines) == Last(s.lines) + role)
              && (!s.cont ==> Last(r.value.lines) == role)
  {
    if n.text.None? then Err(AttributeError(NoneStrip))
    else
      var text := Strip(n.text.value);
      if IsBlockFormula(text) then
        var body := if "\\[" <= text then DropEnds(text, 2) else text;
        BlockLines(s.lines, ".. math:: ", body);
        Ok(Fmt(s.lines + ["", ".. math:: " + body, ""], false))
      else
        var inline := ":math:`" + Strip(DropEnds(text, 1)) + "`";
        InlineLast(s.lines, ":math:`" + Strip(DropEnds(text, 1)), s.cont);
        Ok(Fmt(if s.cont then AppendToLast(s.lines, inline) else s.lines + [inline], true))
  }

  /** Three lines appended after `a`: a blank, a directive line, a blank. */
  lemma BlockLines(a: seq<string>, directive: string, body: string)
    ensures var r := a + ["", directive + body, ""];
            && r[..|a|] == a && |r| == |a| + 3
            && r[|a|] == "" && r[|a| + 2] == "" && directive <= r[|a| + 1]
  {
    var r := a + ["", directive + body, ""];
    assert r[|a| + 1] == directive + body;
    assert (directive + body)[..|directive|] == directive;
  }

  /** A heading line after `a`, then `body` indented by `prefix`. */
  lemma HeadedIndent(a: seq<string>, head: string, prefix: string, body: seq<string>)
    ensures var r := a + [head] + Indent(prefix, body);
            && r[..|a|] == a && r[|a|] == head && |r| == |a| + 1 + |body|
            && forall k :: |a| < k < |r| ==> prefix <= r[k]
  {
    var r := a + [head] + Indent(prefix, body);
    assert r[..|a|] == a;
    forall k | |a| < k < |r| ensures prefix <= r[k] {
      assert r[k] == prefix + body[k - |a| - 1];
    }
  }

  /** A role ending in a backquote, added to the open last line or on a line of its own. */
  lemma InlineLast(a: seq<string>, x: string, cont: bool)
    requires |a| > 0
    ensures var r := if cont then AppendToLast(a, x + "`") else a + [x + "`"];
            && |r| == |a| + (if cont then 0 else 1)
            && r[..|a| - 1] == a[..|a| - 1]
            && EndsWith(Last(r), "`") && EndsWith(Last(r), x + "`")
            && (cont ==> Last(r) == Last(a) + (x + "`"))
            && (!cont ==> Last(r) == x + "`")
  {
    var r := if cont then AppendToLast(a, x + "`") else a + [x + "`"];
    if cont {
      assert Last(r) == Last(a) + (x + "`");
      assert Last(r)[|Last(r)| - |x + "`"|..] == x + "`";
    } else {
      assert Last(r) == x + "`";
      assert r[..|a| - 1] == a[..|a| - 1];
    }
  }

  /** `visit_parametername(node)`; `%s` prints a missing text as "None". */
  function VisitParameterName(s: Fmt, n: Node): (r: Fmt)
    // one `:param` field line is added after the kept buffer, and the line stays open
    ensures |r.lines| == |s.lines| + 1 && r.lines[..|s.lines|] == s.lines && r.cont
    ensures ":param " + n.text.GetOr("None") + ": " <= r.lines[|s.lines|]
    // a direction follows the name in brackets; without one the field ends after the colon
    ensures "direction" in n.attrib ==>
              r.lines[|s.lines|] == ":param " + n.text.GetOr("None") + ": [" + n.attrib["direction"] + "] "
    ensures "direction" !in n.attrib ==> r.lines[|s.lines|] == ":param " + n.text.GetOr("None") + ": "
    ensures n.text.None? ==> ":param None: " <= r.lines[|s.lines|]
  {
    var direction := if "direction" in n.attrib then "[" + n.attrib["direction"] + "] " else "";
    var field := ":param " + n.text.GetOr("None") + ": ";
    assert (field + direction)[..|field|] == field;
    Fmt(s.lines + [field + direction], true)
  }

  /** `[l for l in lines if l is not '']` (CPython's empty string is a single object). */
  function DropEmpty(ls: seq<string>): (r: seq<string>)
    ensures forall k :: 0 <= k < |r| ==> r[k] != ""
    ensures multiset(r) == multiset(ls)["" := 0]
  {
    if ls == [] then []
    else
      assert ls == [ls[0]] + ls[1..];
      (if ls[0] == "" then [] else [ls[0]]) + DropEmpty(ls[1..])
  }

  /** Filtering a concatenation filters each part: the kept lines stay in their order. */
  lemma {:induction false} DropEmptyAppend(a: seq<string>, b: seq<string>)
    ensures DropEmpty(a + b) == DropEmpty(a) + DropEmpty(b)
  {
    if a != [] {
      assert (a + b)[0] == a[0] && (a + b)[1..] == a[1..] + b;
      DropEmptyAppend(a[1..], b);
    } else {
      assert a + b == b;
    }
  }

  /** A non-empty first line is kept first. */
  lemma DropEmptyFront(ls: seq<string>)
    requires ls != [] && ls[0] != ""
    ensures |DropEmpty(ls)| > 0 && DropEmpty(ls)[0] == ls[0]
  {
  }

  /**
   * Every non-empty line `ls[k]` is kept, at the position given by the
   * non-empty lines before it, so later lines land at later positions.
   */
  lemma DropEmptyKeepsOrder(ls: seq<string>)
    ensures forall k :: 0 <= k < |ls| && ls[k] != "" ==>
              |DropEmpty(ls[..k])| < |DropEmpty(ls)| && DropEmpty(ls)[|DropEmpty(ls[..k])|] == ls[k]
    ensures forall j, k :: 0 <= j < k <= |ls| && ls[j] != "" ==> |DropEmpty(ls[..j])| < |DropEmpty(ls[..k])|
  {
    forall k | 0 <= k < |ls| && ls[k] != ""
      ensures |DropEmpty(ls[..k])| < |DropEmpty(ls)| && DropEmpty(ls)[|DropEmpty(ls[..k])|] == ls[k]
    {
      KeptAt(ls, k);
    }
    forall j, k | 0 <= j < k <= |ls| && ls[j] != ""
      ensures |DropEmpty(ls[..j])| < |DropEmpty(ls[..k])|
    {
      KeptBefore(ls, j, k);
    }
  }

  lemma KeptAt(ls: seq<string>, k: nat)
    requires k < |ls| && ls[k] != ""
    ensures |DropEmpty(ls[..k])| < |DropEmpty(ls)| && DropEmpty(ls)[|DropEmpty(ls[..k])|] == ls[k]
  {
    assert ls == ls[..k] + ls[k..];
    DropEmptyAppend(ls[..k], ls[k..]);
    DropEmptyFront(ls[k..]);
  }

  lemma KeptBefore(ls: seq<string>, j: nat, k: nat)
    requires j < k <= |ls| && ls[j] != ""
    ensures |DropEmpty(ls[..j])| < |DropEmpty(ls[..k])|
  {
    assert ls[..k] == ls[..j] + ls[j..k];
    DropEmptyAppend(ls[..j], ls[j..k]);
    DropEmptyFront(ls[j..k]);
  }

  /** `visit_parameterlist(node)`: a fresh formatter renders the list; blank lines around it. */
  function VisitParameterList(idx: SymbolIndex, s: Fmt, n: Node): (r: Run)
    requires |s.lines| > 0
    ensures r.Ok? ==> |r.value.lines| >= |s.lines| + 2
    decreases n, 2, 0, 0
  {
    var sub :- GenericVisit(idx, Fresh, n);
    Ok(s.(lines := s.lines + [""] + DropEmpty(sub.lines) + [""]))
  }

  /** `visit_simplesect(node)`: a "return" section opens a `:returns: ` field first. */
  function VisitSimpleSect(idx: SymbolIndex, s: Fmt, n: Node): (r: Run)
    requires |s.lines| > 0
    ensures r.Ok? ==> |r.value.lines| >= |s.lines|
    decreases n, 2, 0, 0
  {
    var s1 := if Get(n, "kind") == Some("return") then Fmt(s.lines + [":returns: "], true) else s;
    GenericVisit(idx, s1, n)
  }

  // ---------------------------------------------------------------------------
  // Sections and lists

  /** `visit_sect(node, char)`: title, underline as long as the title, blank; then the children. */
  function VisitSect(idx: SymbolIndex, s: Fmt, n: Node, c: char): (r: Run)
    requires |s.lines| > 0
    ensures r.Ok? ==> |r.value.lines| >= |s.lines|
    decreases n, 2, 0, 0
  {
    match Find(n, "title")
    case None => GenericVisit(idx, s, n)
    case Some(t) =>
      if t.text.None? then Err(TypeError(NoneLen))
      else
        var title := t.text.value;
        GenericVisit(idx, s.(lines := s.lines + [title, Repeat(c, |title|), ""]), n)
  }

  /** `visit_listitem(node)`: a bullet line the item's text continues. */
  function VisitListItem(idx: SymbolIndex, s: Fmt, n: Node): (r: Run)
    requires |s.lines| > 0
    ensures r.Ok? ==> |r.value.lines| > |s.lines|
    decreases n, 2, 0, 0
  {
    GenericVisit(idx, Fmt(s.lines + ["   - "], true), n)
  }

  // ---------------------------------------------------------------------------
  // Literal text

  /** `segment` of `visit_preformatted` for the given children: each text, then each tail that is not None. */
  function ChildParts(cs: seq<Node>): seq<Option<string>> {
    if cs == [] then []
    else
      var c := cs[|cs| - 1];
      ChildParts(cs[..|cs| - 1]) + [c.text] + (if c.tail.Some? then [c.tail] else [])
  }

  /** The list `visit_preformatted` joins: the node's text (or '') and its children's parts. */
  function SegmentParts(n: Node): seq<Option<string>> {
    [Some(n.text.GetOr(""))] + ChildParts(n.children)
  }

  /** The strings of `parts`, a None read as ''. */
  function PartValues(parts: seq<Option<string>>): (r: seq<string>)
    ensures |r| == |parts| && forall k :: 0 <= k < |parts| ==> r[k] == parts[k].GetOr("")
  {
    seq(|parts|, k requires 0 <= k < |parts| => parts[k].GetOr(""))
  }

  /** `''.join(parts)`: the parts one after the other, or a TypeError on a None item. */
  function JoinParts(parts: seq<Option<string>>): (r: Result<string, Fault>)
    ensures r.Err? <==> exists k :: 0 <= k < |parts| && parts[k].None?
    ensures r.Err? ==> r.error == TypeError(NoneInJoin)
    ensures r.Ok? ==> r.value == Concat(PartValues(parts))
  {
    if parts == [] then Ok("")
    else if parts[0].None? then Err(TypeError(NoneInJoin))
    else
      var rest :- JoinParts(parts[1..]);
      assert forall k :: 1 <= k < |parts| ==> parts[k] == parts[1..][k - 1];
      assert PartValues(parts) == [parts[0].value] + PartValues(parts[1..]);
      Ok(parts[0].value + rest)
  }

  /** `visit_preformatted(node)`: a C++ code block, each source line indented by two spaces. */
  function VisitPreformatted(s: Fmt, n: Node): (r: Run)
    requires |s.lines| > 0
    ensures r.Ok? ==> |r.value.lines| >= |s.lines| + 2
  {
    var text :- JoinParts(SegmentParts(n));
    Ok(s.(lines := s.lines + [".. code-block:: C++", ""] + Indent("  ", Split(text, '\n'))))
  }

  /** `visit_computeroutput(node)`: a nested preformatted block, or inline literal text. */
  function VisitComputerOutput(s: Fmt, n: Node): (r: Run)
    requires |s.lines| > 0
    ensures r.Ok? ==> |r.value.lines| >= |s.lines|
    ensures Find(n, "preformatted").Some? ==> r == VisitPreformatted(s, Find(n, "preformatted").value)
    ensures Find(n, "preformatted").None? ==>
              && (r.Err? <==> n.text.None?)
              && (r.Ok? ==> |r.value.lines| == |s.lines| && r.value.cont == s.cont
                            && Last(r.value.lines) == Last(s.lines) + "``" + n.text.value + "``")
  {
    match Find(n, "preformatted")
    case Some(c) => VisitPreformatted(s, c)
    case None =>
      if n.text.None? then Err(TypeError(NoneConcat))
      else Ok(s.(lines := AppendToLast(s.lines, "``" + n.text.value + "``")))
  }

  /** `visit_xrefsect(node)`: only "Deprecated" is supported, as an admonition. */
  function VisitXrefSect(idx: SymbolIndex, s: Fmt, n: Node): (r: Run)
    requires |s.lines| > 0
    ensures r.Ok? ==> |r.value.lines| > |s.lines|
    ensures Find(n, "xreftitle").None? ==> r.Err? && r.error.AttributeError?
    ensures Find(n, "xreftitle").Some? && Find(n, "xreftitle").value.text != Some("Deprecated") ==>
              r == Err(ValueError(NotDeprecated))
    // "Deprecated": an admonition whose body is a fresh rendering, indented by three spaces
    ensures r.Ok? ==>
              && GenericVisit(idx, Fresh, n).Ok?
              && r.value.cont == s.cont
              && r.value.lines[..|s.lines|] == s.lines
              && r.value.lines[|s.lines|] == ".. admonition:: Deprecated"
              && |r.value.lines| == |s.lines| + 1 + |GenericVisit(idx, Fresh, n).value.lines|
              && (forall k :: |s.lines| < k < |r.value.lines| ==> "   " <= r.value.lines[k])
              && forall k :: 0 <= k < |GenericVisit(idx, Fresh, n).value.lines| ==>
                   r.value.lines[|s.lines| + 1 + k] == "   " + GenericVisit(idx, Fresh, n).value.lines[k]
    decreases n, 2, 0, 0
  {
    match Find(n, "xreftitle")
    case None => Err(AttributeError(NoneText))
    case Some(t) =>
      if t.text == Some("Deprecated") then
        var sub :- GenericVisit(idx, Fresh, n);
        HeadedIndent(s.lines, ".. admonition:: Deprecated", "   ", sub.lines);
        Ok(s.(lines := s.lines + [".. admonition:: Deprecated"] + Indent("   ", sub.lines)))
      else Err(ValueError(NotDeprecated))
  }

  /** `visit_subscript(node)`; `%s` prints a missing text or tail as "None". */
  function VisitSubscript(s: Fmt, n: Node): (r: Fmt)
    requires |s.lines| > 0
    ensures |r.lines| == |s.lines| && r.lines[..|r.lines| - 1] == s.lines[..|s.lines| - 1] && r.cont == s.cont
    ensures Last(s.lines) + "\\ :sub:`" <= Last(r.lines)
    // the role around the text, a space, then the tail; each prints as "None" when missing
    ensures n.text.Some? && n.tail.Some? ==>
              Last(r.lines) == Last(s.lines) + "\\ :sub:`" + n.text.value + "` " + n.tail.value
    ensures n.text.None? && n.tail.Some? ==>
              Last(r.lines) == Last(s.lines) + "\\ :sub:`None` " + n.tail.value
    ensures n.text.Some? && n.tail.None? ==>
              Last(r.lines) == Last(s.lines) + "\\ :sub:`" + n.text.value + "` None"
    ensures n.text.None? && n.tail.None? ==>
              Last(r.lines) == Last(s.lines) + "\\ :sub:`None` None"
  {
    s.(lines := AppendToLast(s.lines, "\\ :sub:`" + n.text.GetOr("None") + "` " + n.tail.GetOr("None")))
  }

  // ---------------------------------------------------------------------------
  // Tables

  predicate IsDigit(c: char) {
    '0' <= c <= '9'
  }

  function DigitsValue(ds: string): (v: int)
    requires forall k :: 0 <= k < |ds| ==> IsDigit(ds[k])
    ensures v >= 0
  {
    if ds == [] then 0
    else
      assert IsDigit(ds[|ds| - 1]);
      DigitsValue(ds[..|ds| - 1]) * 10 + (ds[|ds| - 1] as int - '0' as int)
  }

  /** An optionally signed run of ASCII digits, read as a number. */
  function ReadLiteral(t: string): (r: Option<int>)
    ensures r.Some? ==> t != [] && IsDigit(t[|t| - 1])
    ensures r.Some? && r.value < 0 ==> t[0] == '-'
  {
    var neg := t != [] && t[0] == '-';
    var ds := if t != [] && (t[0] == '-' || t[0] == '+') then t[1..] else t;
    if ds != [] && forall k :: 0 <= k < |ds| ==> IsDigit(ds[k]) then
      assert IsDigit(ds[|ds| - 1]) && ds[|ds| - 1] == t[|t| - 1];
      var v: int := if neg then -DigitsValue(ds) else DigitsValue(ds);
      Some(v)
    else None
  }

  /** `int(text)` for an optionally signed run of ASCII digits between whitespace. */
  function ParseInt(text: string): (r: Option<int>)
    // a literal has something besides whitespace, and that ends in a digit
    ensures r.Some? ==> var t := Strip(text); t != [] && IsDigit(t[|t| - 1])
    // only a leading minus gives a negative number
    ensures r.Some? && r.value < 0 ==> Strip(text)[0] == '-'
    // blank text is no literal
    ensures AllSpace(text) ==> r.None?
  {
    var t := Strip(text);
    if AllSpace(text) then AllSpaceStrips(text); None
    else
      ReadLiteral(t)
  }

  lemma {:induction false} AllSpaceStrips(text: string)
    requires AllSpace(text)
    ensures Strip(text) == []
  {
  }

  /** The decimal digit of `d`. */
  function DigitChar(d: nat): char
    requires d < 10
  {
    ('0' as int + d) as char
  }

  /** `str(n)` for a natural number: its decimal digits, most significant first. */
  function Digits(n: nat): (ds: string)
    ensures ds != [] && forall k :: 0 <= k < |ds| ==> IsDigit(ds[k])
  {
    if n < 10 then [DigitChar(n)] else Digits(n / 10) + [DigitChar(n % 10)]
  }

  /** `str(v)`: a minus sign for a negative number, then the digits of its magnitude. */
  function Decimal(v: int): string {
    (if v < 0 then "-" else "") + Digits(if v < 0 then -v else v)
  }

  /** Reading the digits of `n` gives `n` back. */
  lemma {:induction false} DigitsRoundTrip(n: nat)
    ensures DigitsValue(Digits(n)) == n
  {
    var ds := Digits(n);
    if n >= 10 {
      DigitsRoundTrip(n / 10);
      assert ds[..|ds| - 1] == Digits(n / 10);
    }
  }

  /** `int(str(v))`, with any whitespace around the literal, gives back `v`. */
  lemma ParseIntDecimal(v: int, before: string, after: string)
    requires AllSpace(before) && AllSpace(after)
    ensures ParseInt(before + Decimal(v) + after) == Some(v)
  {
    var text := before + Decimal(v) + after;
    StripDecimal(v, before, after);
    ParseStripped(v, text);
  }

  /** The whitespace around a decimal literal is what `strip` removes. */
  lemma StripDecimal(v: int, before: string, after: string)
    requires AllSpace(before) && AllSpace(after)
    ensures Strip(before + Decimal(v) + after) == Decimal(v)
    ensures !AllSpace(before + Decimal(v) + after)
  {
    var d := Decimal(v);
    var m := if v < 0 then -v else v;
    var text := before + d + after;
    assert text == before + (d + after);
    assert d[|d| - 1] == Digits(m)[|Digits(m)| - 1];
    assert (d + after)[0] == d[0];
    LStripAfterSpace(before, d + after);
    RStripBeforeSpace(d, after);
    assert text[|before|] == d[0];
  }

  /** A text that strips to a decimal literal reads as its number. */
  lemma ParseStripped(v: int, text: string)
    requires Strip(text) == Decimal(v) && !AllSpace(text)
    ensures ParseInt(text) == Some(v)
  {
    ReadDecimal(v);
  }

  lemma ReadDecimal(v: int)
    ensures ReadLiteral(Decimal(v)) == Some(v)
  {
    var m := if v < 0 then -v else v;
    var ds := Digits(m);
    DigitsRoundTrip(m);
    if v < 0 {
      ReadSigned(ds, Decimal(v));
    } else {
      assert Decimal(v) == ds;
      ReadUnsigned(ds);
    }
  }

  lemma ReadSigned(ds: string, d: string)
    requires ds != [] && (forall k :: 0 <= k < |ds| ==> IsDigit(ds[k])) && d == "-" + ds
    ensures ReadLiteral(d) == Some(-DigitsValue(ds))
  {
    assert d[0] == '-' && d[1..] == ds;
  }

  lemma ReadUnsigned(ds: string)
    requires ds != [] && forall k :: 0 <= k < |ds| ==> IsDigit(ds[k])
    ensures ReadLiteral(ds) == Some(DigitsValue(ds))
  {
    assert IsDigit(ds[0]);
  }

  /** `int(node.get('cols'))`: a TypeError without the attribute, a ValueError for a bad literal. */
  function ColumnCount(n: Node): (r: Result<int, Fault>)
    ensures Get(n, "cols").None? ==> r == Err(TypeError(NoneToInt))
    ensures Get(n, "cols").Some? ==>
              && (r.Ok? <==> ParseInt(Get(n, "cols").value).Some?)
              && (r.Ok? ==> r.value == ParseInt(Get(n, "cols").value).value)
              && (r.Err? ==> r.error == ValueError(BadIntLiteral))
  {
    match Get(n, "cols")
    case None => Err(TypeError(NoneToInt))
    case Some(v) =>
      match ParseInt(v)
      case None => Err(ValueError(BadIntLiteral))
      case Some(k) => Ok(k)
  }

  /** Rendered rows: every row within `cols` entries, every entry at least one line. */
  predicate WellShaped(table: seq<TableLayout.Row>, cols: int) {
    forall r :: 0 <= r < |table| ==>
      |table[r]| <= TableLayout.Slots(cols) && forall i :: 0 <= i < |table[r]| ==> |table[r][i]| > 0
  }

  /**
   * The entries of row `j` of table `t` from entry `i` on: each is rendered by
   * this same formatter into `lines = ['']`, so `continue_line` carries from
   * one entry to the next; an entry beyond `cols` raises once rendered.
   */
  function RenderRow(idx: SymbolIndex, acc: TableLayout.Row, cont: bool, t: Node, j: nat, i: nat, cols: int)
    : (r: Result<(TableLayout.Row, bool), Fault>)
    requires j < |t.children| && i <= |t.children[j].children|
    requires |acc| <= TableLayout.Slots(cols) && forall e :: 0 <= e < |acc| ==> |acc[e]| > 0
    ensures r.Ok? ==> |r.value.0| <= TableLayout.Slots(cols) && forall e :: 0 <= e < |r.value.0| ==> |r.value.0[e]| > 0
    decreases t, 0, |t.children| - j, |t.children[j].children| - i
  {
    var entries := t.children[j].children;
    if i == |entries| then Ok((acc, cont))
    else
      var cell :- GenericVisit(idx, Fmt([""], cont), entries[i]);
      if |acc| >= TableLayout.Slots(cols) then Err(IndexError(ListIndex))
      else RenderRow(idx, acc + [cell.lines], cell.cont, t, j, i + 1, cols)
  }

  /** The `row` children of `t` from child `j` on (`node.findall('row')`), rendered in order. */
  function RenderRows(idx: SymbolIndex, acc: seq<TableLayout.Row>, cont: bool, t: Node, j: nat, cols: int)
    : (r: Result<(seq<TableLayout.Row>, bool), Fault>)
    requires j <= |t.children| && WellShaped(acc, cols)
    ensures r.Ok? ==> WellShaped(r.value.0, cols)
    decreases t, 1, |t.children| - j, 0
  {
    if j == |t.children| then Ok((acc, cont))
    else if t.children[j].tag == "row" then
      var row :- RenderRow(idx, [], cont, t, j, 0, cols);
      RenderRows(idx, acc + [row.0], row.1, t, j + 1, cols)
    else RenderRows(idx, acc, cont, t, j + 1, cols)
  }

  /** `table[0]` raises for no rows, `append_row` raises for a row without entries. */
  function LayOut(table: seq<TableLayout.Row>, widths: seq<int>): (r: Result<seq<string>, Fault>)
    requires forall r :: 0 <= r < |table| ==> |table[r]| <= |widths|
    ensures |table| == 0 ==> r == Err(IndexError(ListIndex))
    ensures |table| > 0 && (exists row :: 0 <= row < |table| && |table[row]| == 0) ==> r == Err(ValueError(EmptyMax))
    ensures r.Ok? <==> |table| > 0 && forall row :: 0 <= row < |table| ==> |table[row]| > 0
    // the grid: blank first and last, the '-' border, the header's lines, then the '=' border
    ensures r.Ok? ==>
              && r.value == TableLayout.Block(table, widths)
              && r.value[0] == "" && Last(r.value) == ""
              && r.value[1] == TableLayout.Border(widths)
              && r.value[2..2 + TableLayout.LineCount(table[0])] == TableLayout.RowLines(table[0], widths)
              && r.value[2 + TableLayout.LineCount(table[0])] == TableLayout.BorderWith(widths, '=')
  {
    if |table| == 0 then Err(IndexError(ListIndex))
    else if exists r :: 0 <= r < |table| && |table[r]| == 0 then Err(ValueError(EmptyMax))
    else
      TableLayout.BlockShape(table, widths);
      Ok(TableLayout.Block(table, widths))
  }

  /** `visit_table(node)`. */
  function VisitTable(idx: SymbolIndex, s: Fmt, n: Node): (r: Run)
    requires |s.lines| > 0
    ensures r.Ok? ==> |r.value.lines| >= |s.lines|
    decreases n, 2, 0, 0
  {
    var cols :- ColumnCount(n);
    var rendered :- RenderRows(idx, [], s.cont, n, 0, cols);
    var table := rendered.0;
    var widths := TableLayout.ColumnWidths(table, cols);
    var block :- LayOut(table, widths);
    Ok(Fmt(s.lines + block, rendered.1))
  }

  // ---------------------------------------------------------------------------
  // Entry point

  /**
   * `format_xml_paragraph(node)`: the root is entered through `generic_visit`,
   * and every line of the final buffer is right-stripped.
   */
  function FormatXmlParagraph(idx: SymbolIndex, n: Node): (r: Result<seq<string>, Fault>)
    ensures var b := GenericVisit(idx, Fresh, n);
      && (r.Ok? <==> b.Ok?)
      && (r.Err? ==> r.error == b.error)
      && (r.Ok? ==>
            && |r.value| == |b.value.lines| >= 1
            && forall k :: 0 <= k < |r.value| ==>
                 && r.value[k] <= b.value.lines[k]
                 && AllSpace(b.value.lines[k][|r.value[k]|..])
                 && (r.value[k] == [] || !IsSpace(r.value[k][|r.value[k]| - 1])))
  {
    var b :- GenericVisit(idx, Fresh, n);
    Ok(RStripAll(b.lines))
  }
}
