/**
 * What `find_autosummary_in_lines`, the shortened source list and the suffix
 * normalisation promise, proved about the definitions in `Generate`.
 */
module GenerateProperties {
  import opened Wrappers
  import opened Strings
  import opened Generate

  // ---------------------------------------------------------------------------
  // Line classes

  /** A line that an open block with this indentation does not close. */
  ghost predicate InsideBlock(baseIndent: string, line: string) {
    TocTreeArg(line).Some? || TemplateArg(line).Some? || IsOptionLine(line)
    || ItemName(line).Some? || KeepsOpen(baseIndent, line)
  }

  /** Line `d` is a directive and every line after it, before line `j`, stays inside its block. */
  ghost predicate Opens(lines: seq<string>, d: int, j: int)
    requires 0 <= d < j <= |lines|
  {
    DirectiveIndent(lines[d]).Some?
    && forall k :: d < k < j ==> InsideBlock(DirectiveIndent(lines[d]).value, lines[k])
  }

  /**
   * Line `d` is a directive at which the scan opens a block: no block is
   * open before it, or the open one does not keep it and so closes there.
   */
  ghost predicate OpensAt(lines: seq<string>, d: int, filename: string, joinDir: (string, string) -> string)
    requires 0 <= d < |lines|
  {
    var sp := Scan(lines[..d], filename, joinDir);
    DirectiveIndent(lines[d]).Some? && !(sp.inBlock && InsideBlock(sp.baseIndent, lines[d]))
  }

  /** The value of the last `:toctree:` line of `ls`, as the scanner keeps it. */
  function LastTocTree(ls: seq<string>, filename: string, joinDir: (string, string) -> string): Option<string> {
    if ls == [] then None
    else if TocTreeArg(ls[|ls| - 1]).Some? then Some(TocTreePath(filename, joinDir, TocTreeArg(ls[|ls| - 1]).value))
    else LastTocTree(ls[..|ls| - 1], filename, joinDir)
  }

  /** The value of the last `:template:` line of `ls`. */
  function LastTemplate(ls: seq<string>): Option<string> {
    if ls == [] then None
    else if TemplateArg(ls[|ls| - 1]).Some? then Some(Strip(TemplateArg(ls[|ls| - 1]).value))
    else LastTemplate(ls[..|ls| - 1])
  }

  /** The block opened at line `d` holds the last line of `ls`, and `e` carries the options set between the two. */
  ghost predicate OpenedFor(ls: seq<string>, e: Entry, d: int, filename: string, joinDir: (string, string) -> string) {
    && 0 <= d < |ls| - 1 && Opens(ls, d, |ls|) && OpensAt(ls, d, filename, joinDir)
    && e.toctree == LastTocTree(ls[d + 1..|ls| - 1], filename, joinDir)
    && e.template == LastTemplate(ls[d + 1..|ls| - 1])
  }

  /** Some directive line of `ls` opened the block that holds its last line, and `e` carries that block's options. */
  ghost predicate InOpenedBlock(ls: seq<string>, e: Entry, filename: string, joinDir: (string, string) -> string) {
    exists d :: OpenedFor(ls, e, d, filename, joinDir)
  }

  /** Entry `e` comes from the item on line `i` of a block opened at some earlier line, with that block's options. */
  ghost predicate EntryAt(lines: seq<string>, e: Entry, i: int, filename: string, joinDir: (string, string) -> string) {
    && 0 <= i < |lines|
    && ItemName(lines[i]) == Some(e.name)
    && InOpenedBlock(lines[..i + 1], e, filename, joinDir)
  }

  /** Dropping a prefix and appending commute. */
  lemma DropSnoc<T>(ls: seq<T>, x: T, a: int)
    requires 0 <= a <= |ls|
    ensures (ls + [x])[a..] == ls[a..] + [x]
    ensures (ls + [x])[a..|ls|] == ls[a..]
    ensures (ls + [x])[..|ls|] == ls && (ls + [x])[|ls|] == x
  {
  }

  lemma SplitLast<T>(ls: seq<T>)
    requires ls != []
    ensures ls == ls[..|ls| - 1] + [ls[|ls| - 1]]
  {
  }

  /** Cutting after line `i` gives the same prefix once more lines follow. */
  lemma TakeSnoc<T>(ls: seq<T>, x: T, i: int)
    requires 0 <= i < |ls|
    ensures (ls + [x])[..i + 1] == ls[..i + 1] && (ls + [x])[i] == ls[i]
  {
  }

  // ---------------------------------------------------------------------------
  // Single lines

  /** A stripped line keeps the first character of a line that starts with a non-space. */
  lemma StripStart(s: string)
    requires s != [] && !IsSpace(s[0])
    ensures Strip(s) != [] && Strip(s)[0] == s[0]
  {
    LStripKeeps(s);
  }

  /** No line is both a `:toctree:` and a `:template:` option. */
  lemma OptionsExclusive(line: string)
    ensures TocTreeArg(line).Some? ==> TemplateArg(line).None?
  {
    if TocTreeArg(line).Some? && TemplateArg(line).Some? {
      KeysClash(LStrip(line));
    }
  }

  lemma KeysClash(rest: string)
    requires ":toctree:" <= rest
    ensures !(":template:" <= rest)
  {
    assert rest[2] == 'o';
  }

  /**
   * The converse of `DirectiveIndent`'s contract: any indentation, "..", some
   * whitespace and the directive name make a directive line with that indentation.
   */
  lemma DirectiveLine(ws: string, gap: string, tail: string)
    requires AllSpace(ws) && gap != [] && AllSpace(gap)
    ensures DirectiveIndent(ws + ".." + gap + "autodoxysummary::" + tail) == Some(ws)
  {
    var word := "autodoxysummary::" + tail;
    var after := gap + word;
    var rest := ".." + after;
    assert ws + ".." + gap + "autodoxysummary::" + tail == ws + rest;
    LStripAfterSpace(ws, rest);
    LStripAfterSpace(gap, word);
    assert rest[2..] == after;
    IndentationIs(ws + rest, ws, rest);
    DirectiveMatch(ws + rest, rest, after, word);
  }

  lemma DirectiveMatch(line: string, rest: string, after: string, word: string)
    requires LStrip(line) == rest && ".." <= rest && rest[2..] == after && LStrip(after) == word
    requires |word| < |after| && "autodoxysummary::" <= word
    ensures DirectiveIndent(line) == Some(Indentation(line))
  {
  }

  lemma IndentationIs(line: string, ws: string, rest: string)
    requires line == ws + rest && LStrip(line) == rest
    ensures Indentation(line) == ws
  {
  }

  /**
   * A directive line is never an option or an item: it documents nothing,
   * and unless an open block swallows it as an indented line it opens a new
   * block with no `:toctree:` and no `:template:`.
   */
  lemma DirectiveStep(st: ScanState, line: string, filename: string, joinDir: (string, string) -> string)
    requires DirectiveIndent(line).Some?
    ensures Step(st, line, filename, joinDir).documented == st.documented
    ensures !st.inBlock || !KeepsOpen(st.baseIndent, line) ==>
              Step(st, line, filename, joinDir)
              == st.(inBlock := true, baseIndent := DirectiveIndent(line).value, toctree := None, template := None)
  {
    var rest := LStrip(line);
    assert rest[0] == '.';
    assert ItemName(line).None?;
    assert TocTreeArg(line).None? && TemplateArg(line).None?;
    StripStart(rest);
    assert Strip(line) == Strip(rest) by {
      LStripKeeps(rest);
    }
    assert !IsOptionLine(line);
  }

  /**
   * In an open block a line ends the block exactly when it is none of the
   * kinds the block keeps; such a line is then checked as a directive of
   * its own. The indentation changes only when a new directive starts.
   */
  lemma BlockClose(st: ScanState, line: string, filename: string, joinDir: (string, string) -> string)
    requires st.inBlock
    ensures var r := Step(st, line, filename, joinDir);
            && (InsideBlock(st.baseIndent, line) ==> r.inBlock && r.baseIndent == st.baseIndent)
            && (!InsideBlock(st.baseIndent, line) ==>
                  r == Reopen(st.(inBlock := false), line)
                  && (r.inBlock <==> DirectiveIndent(line).Some?))
  {
    if InsideBlock(st.baseIndent, line) {
      InsideStep(st, line, filename, joinDir);
    } else {
      StepCloses(st, line, filename, joinDir);
      ReopenOpens(st.(inBlock := false), line);
    }
  }

  lemma StepCloses(st: ScanState, line: string, filename: string, joinDir: (string, string) -> string)
    requires st.inBlock && !InsideBlock(st.baseIndent, line)
    ensures Step(st, line, filename, joinDir) == Reopen(st.(inBlock := false), line)
  {
  }

  lemma ReopenOpens(st: ScanState, line: string)
    requires !st.inBlock
    ensures Reopen(st, line).inBlock <==> DirectiveIndent(line).Some?
  {
  }

  /** Inside a block a line whose stripped form starts with ':' is skipped: no entry, and the block stays open. */
  lemma OptionLineSkipped(st: ScanState, line: string, filename: string, joinDir: (string, string) -> string)
    requires st.inBlock && IsOptionLine(line)
    ensures var r := Step(st, line, filename, joinDir);
            r.documented == st.documented && r.inBlock && r.baseIndent == st.baseIndent
  {
  }

  /** A run of name characters is taken whole. */
  lemma {:induction false} NameRunWhole(name: string, rest: string)
    requires forall k :: 0 <= k < |name| ==> IsNameChar(name[k])
    requires rest == [] || !IsNameChar(rest[0])
    ensures NameRun(name + rest) == name
  {
    if name == [] {
      assert name + rest == rest;
    } else {
      assert (name + rest)[1..] == name[1..] + rest;
      NameRunWhole(name[1..], rest);
      assert name == [name[0]] + name[1..];
    }
  }

  /** An indented item is recorded under its name. */
  lemma PlainItem(ws: string, name: string, rest: string)
    requires ws != [] && AllSpace(ws)
    requires name != [] && IsNameStart(name[0]) && forall k :: 0 <= k < |name| ==> IsNameChar(name[k])
    requires rest == [] || !IsNameChar(rest[0])
    ensures ItemName(ws + (name + rest)) == Some(name)
  {
    NameRunWhole(name, rest);
    LStripAfterSpace(ws, name + rest);
  }

  /** One leading '~' is dropped from the recorded name. */
  lemma TildeStripped(ws: string, name: string, rest: string)
    requires ws != [] && AllSpace(ws)
    requires name != [] && IsNameStart(name[0]) && forall k :: 0 <= k < |name| ==> IsNameChar(name[k])
    requires rest == [] || !IsNameChar(rest[0])
    ensures ItemName(ws + ("~" + (name + rest))) == Some(name)
  {
    var x := "~" + (name + rest);
    LStripAfterSpace(ws, x);
    assert |x| < |ws + x| && x[0] == '~' && x[1..] == name + rest;
    assert (name + rest)[0] == name[0];
    NameRunWhole(name, rest);
  }

  /** A second '~' makes the line no item at all. */
  lemma DoubleTildeNoItem(ws: string, body: string)
    requires ws != [] && AllSpace(ws)
    ensures ItemName(ws + ("~~" + body)) == None
  {
    LStripAfterSpace(ws, "~~" + body);
    assert ("~~" + body)[1..][0] == '~';
  }

  /** A line adds at most one entry, and only an item line inside a block does; it records the block's options as they stand. */
  lemma StepEntries(st: ScanState, line: string, filename: string, joinDir: (string, string) -> string)
    ensures var r := Step(st, line, filename, joinDir);
            || r.documented == st.documented
            || (&& st.inBlock && ItemName(line).Some? && !IsOptionLine(line)
                && r.documented == st.documented + [Entry(ItemName(line).value, st.toctree, st.template)])
  {
    if st.inBlock && TocTreeArg(line).None? && TemplateArg(line).None? && !IsOptionLine(line) && ItemName(line).Some? {
      assert Step(st, line, filename, joinDir).documented == st.documented + [Entry(ItemName(line).value, st.toctree, st.template)];
    } else {
      ReopenKeepsEntries(st.(inBlock := false), line);
      ReopenKeepsEntries(st, line);
    }
  }

  lemma ReopenKeepsEntries(st: ScanState, line: string)
    ensures Reopen(st, line).documented == st.documented
  {
  }

  // ---------------------------------------------------------------------------
  // Whole documents

  lemma ScanUnfold(lines: seq<string>, filename: string, joinDir: (string, string) -> string)
    requires lines != []
    ensures Scan(lines, filename, joinDir)
            == Step(Scan(lines[..|lines| - 1], filename, joinDir), lines[|lines| - 1], filename, joinDir)
  {
  }

  /** Until a directive line appears nothing is documented and no block is open. */
  lemma {:induction false} ScanBeforeDirective(lines: seq<string>, filename: string, joinDir: (string, string) -> string)
    requires forall k :: 0 <= k < |lines| ==> DirectiveIndent(lines[k]).None?
    ensures Scan(lines, filename, joinDir) == Start
  {
    if lines != [] {
      var p := lines[..|lines| - 1];
      assert forall k :: 0 <= k < |p| ==> p[k] == lines[k];
      ScanBeforeDirective(p, filename, joinDir);
    }
  }

  /** A name as `find_autosummary_in_lines` records it: `[_a-zA-Z]` first, never '~', then name characters. */
  ghost predicate BareName(name: string) {
    && name != [] && IsNameStart(name[0]) && name[0] != '~'
    && forall k :: 0 <= k < |name| ==> IsNameChar(name[k])
  }

  /** Every documented name is a bare name: it starts with `[_a-zA-Z]`, so never with '~'. */
  lemma {:induction false} EntryNames(lines: seq<string>, filename: string, joinDir: (string, string) -> string)
    ensures var doc := Scan(lines, filename, joinDir).documented;
            forall e :: 0 <= e < |doc| ==> BareName(doc[e].name)
  {
    if lines != [] {
      var p := lines[..|lines| - 1];
      var line := lines[|lines| - 1];
      var sp := Scan(p, filename, joinDir);
      EntryNames(p, filename, joinDir);
      ScanUnfold(lines, filename, joinDir);
      StepEntries(sp, line, filename, joinDir);
      if Scan(lines, filename, joinDir).documented != sp.documented {
        var x := Entry(ItemName(line).value, sp.toctree, sp.template);
        assert BareName(x.name);
        NamesSnoc(sp.documented, x);
      }
    }
  }

  lemma NamesSnoc(doc: seq<Entry>, x: Entry)
    requires forall e :: 0 <= e < |doc| ==> BareName(doc[e].name)
    requires BareName(x.name)
    ensures forall e :: 0 <= e < |doc + [x]| ==> BareName((doc + [x])[e].name)
  {
  }

  /**
   * `st` is the state of a block opened at line `d` of `lines` that every
   * later line stayed inside, with the options set since then.
   */
  ghost predicate Tracks(lines: seq<string>, st: ScanState, d: int, filename: string, joinDir: (string, string) -> string) {
    && 0 <= d < |lines| && Opens(lines, d, |lines|) && OpensAt(lines, d, filename, joinDir)
    && DirectiveIndent(lines[d]) == Some(st.baseIndent)
    && st.toctree == LastTocTree(lines[d + 1..], filename, joinDir)
    && st.template == LastTemplate(lines[d + 1..])
  }

  /** A line that stays inside a block changes only the option it sets. */
  lemma InsideStep(st: ScanState, line: string, filename: string, joinDir: (string, string) -> string)
    requires st.inBlock && InsideBlock(st.baseIndent, line)
    ensures var r := Step(st, line, filename, joinDir);
            && r.inBlock && r.baseIndent == st.baseIndent
            && r.toctree == (if TocTreeArg(line).Some? then Some(TocTreePath(filename, joinDir, TocTreeArg(line).value)) else st.toctree)
            && r.template == (if TemplateArg(line).Some? then Some(Strip(TemplateArg(line).value)) else st.template)
  {
    OptionsExclusive(line);
  }

  /** A line that does not stay inside an open block, or any line outside one, is checked as a directive. */
  lemma OutsideStep(st: ScanState, line: string, filename: string, joinDir: (string, string) -> string)
    requires !(st.inBlock && InsideBlock(st.baseIndent, line))
    ensures var r := Step(st, line, filename, joinDir);
            r.inBlock ==> DirectiveIndent(line) == Some(r.baseIndent) && r.toctree == None && r.template == None
  {
  }

  lemma LastTocTreeSnoc(ls: seq<string>, line: string, filename: string, joinDir: (string, string) -> string)
    ensures LastTocTree(ls + [line], filename, joinDir)
            == if TocTreeArg(line).Some? then Some(TocTreePath(filename, joinDir, TocTreeArg(line).value))
               else LastTocTree(ls, filename, joinDir)
  {
    var l := ls + [line];
    assert l[..|l| - 1] == ls && l[|l| - 1] == line;
  }

  lemma LastTemplateSnoc(ls: seq<string>, line: string)
    ensures LastTemplate(ls + [line])
            == if TemplateArg(line).Some? then Some(Strip(TemplateArg(line).value)) else LastTemplate(ls)
  {
    var l := ls + [line];
    assert l[..|l| - 1] == ls && l[|l| - 1] == line;
  }

  lemma TocTreeFollows(ls: seq<string>, line: string, before: Option<string>, after: Option<string>, filename: string, joinDir: (string, string) -> string)
    requires before == LastTocTree(ls, filename, joinDir)
    requires after == if TocTreeArg(line).Some? then Some(TocTreePath(filename, joinDir, TocTreeArg(line).value)) else before
    ensures after == LastTocTree(ls + [line], filename, joinDir)
  {
    LastTocTreeSnoc(ls, line, filename, joinDir);
  }

  lemma TemplateFollows(ls: seq<string>, line: string, before: Option<string>, after: Option<string>)
    requires before == LastTemplate(ls)
    requires after == if TemplateArg(line).Some? then Some(Strip(TemplateArg(line).value)) else before
    ensures after == LastTemplate(ls + [line])
  {
    LastTemplateSnoc(ls, line);
  }

  /** A line that stays inside the block keeps the tracking. */
  lemma TracksInside(lines: seq<string>, st: ScanState, d: int, line: string, filename: string, joinDir: (string, string) -> string)
    requires st.inBlock && InsideBlock(st.baseIndent, line)
    requires Tracks(lines, st, d, filename, joinDir)
    ensures Tracks(lines + [line], Step(st, line, filename, joinDir), d, filename, joinDir)
  {
    var more := lines + [line];
    var r := Step(st, line, filename, joinDir);
    InsideStep(st, line, filename, joinDir);
    DropSnoc(lines, line, d + 1);
    TakeSnoc(lines, line, d);
    TocTreeFollows(lines[d + 1..], line, st.toctree, r.toctree, filename, joinDir);
    TemplateFollows(lines[d + 1..], line, st.template, r.template);
    OpensGrow(lines, line, d);
    OpensAtExtends(lines, line, d, filename, joinDir);
  }

  /** Whether the scan opens a block at line `d` depends only on the lines up to `d`. */
  lemma OpensAtExtends(lines: seq<string>, line: string, d: int, filename: string, joinDir: (string, string) -> string)
    requires 0 <= d < |lines| && OpensAt(lines, d, filename, joinDir)
    ensures OpensAt(lines + [line], d, filename, joinDir)
  {
    var more := lines + [line];
    assert more[..d] == lines[..d] && more[d] == lines[d];
  }

  /** A directive line that opens a block starts the tracking at its own line. */
  lemma TracksOpened(lines: seq<string>, st: ScanState, line: string, filename: string, joinDir: (string, string) -> string)
    requires st == Scan(lines, filename, joinDir)
    requires !(st.inBlock && InsideBlock(st.baseIndent, line))
    requires Step(st, line, filename, joinDir).inBlock
    ensures Tracks(lines + [line], Step(st, line, filename, joinDir), |lines|, filename, joinDir)
  {
    OutsideStep(st, line, filename, joinDir);
    DropSnoc(lines, line, |lines|);
    OpensAtEnd(lines, line, filename, joinDir);
  }

  /** A directive line that the scan does not keep inside an open block opens one at its own index. */
  lemma OpensAtEnd(lines: seq<string>, line: string, filename: string, joinDir: (string, string) -> string)
    requires DirectiveIndent(line).Some?
    requires var st := Scan(lines, filename, joinDir); !(st.inBlock && InsideBlock(st.baseIndent, line))
    ensures Opens(lines + [line], |lines|, |lines| + 1) && OpensAt(lines + [line], |lines|, filename, joinDir)
  {
    DropSnoc(lines, line, |lines|);
  }

  /**
   * While a block is open, some earlier directive line opened it, every
   * line since stayed inside it, and the options in force are the last
   * `:toctree:` and `:template:` lines since that directive, or None.
   */
  lemma {:induction false} OpenBlock(lines: seq<string>, filename: string, joinDir: (string, string) -> string)
    ensures var st := Scan(lines, filename, joinDir);
            st.inBlock ==> exists d :: Tracks(lines, st, d, filename, joinDir)
  {
    if lines == [] {
      return;
    }
    var p := lines[..|lines| - 1];
    var line := lines[|lines| - 1];
    var sp := Scan(p, filename, joinDir);
    var st := Step(sp, line, filename, joinDir);
    SplitLast(lines);
    ScanUnfold(lines, filename, joinDir);
    if sp.inBlock && InsideBlock(sp.baseIndent, line) {
      OpenBlock(p, filename, joinDir);
      var d :| Tracks(p, sp, d, filename, joinDir);
      TracksInside(p, sp, d, line, filename, joinDir);
      assert Tracks(lines, st, d, filename, joinDir);
    } else if st.inBlock {
      TracksOpened(p, sp, line, filename, joinDir);
      assert Tracks(lines, st, |p|, filename, joinDir);
    }
  }

  /** A block's run of lines is the same once more lines follow. */
  lemma OpensExtends(lines: seq<string>, line: string, d: int, j: int)
    requires 0 <= d < j <= |lines|
    requires Opens(lines, d, j)
    ensures Opens(lines + [line], d, j)
  {
    var more := lines + [line];
    var w := DirectiveIndent(lines[d]).value;
    assert more[d] == lines[d];
    forall k | d < k < j ensures InsideBlock(w, more[k]) {
      assert more[k] == lines[k];
    }
  }

  /** A line inside the block lengthens its run by one. */
  lemma OpensGrow(lines: seq<string>, line: string, d: int)
    requires 0 <= d < |lines| && Opens(lines, d, |lines|)
    requires InsideBlock(DirectiveIndent(lines[d]).value, line)
    ensures Opens(lines + [line], d, |lines| + 1)
  {
    var more := lines + [line];
    var w := DirectiveIndent(lines[d]).value;
    assert more[d] == lines[d];
    forall k | d < k < |lines| + 1 ensures InsideBlock(w, more[k]) {
      if k < |lines| {
        assert more[k] == lines[k];
      } else {
        assert more[k] == line;
      }
    }
  }

  /** An entry found in a document is still found, unchanged, once more lines follow. */
  lemma EntryAtExtends(lines: seq<string>, line: string, e: Entry, i: int, filename: string, joinDir: (string, string) -> string)
    requires EntryAt(lines, e, i, filename, joinDir)
    ensures EntryAt(lines + [line], e, i, filename, joinDir)
  {
    TakeSnoc(lines, line, i);
  }

  /** An item line in a tracked block gives an entry found at that line. */
  lemma ItemOpened(lines: seq<string>, st: ScanState, d: int, line: string, filename: string, joinDir: (string, string) -> string)
    requires st.inBlock && ItemName(line).Some?
    requires Tracks(lines, st, d, filename, joinDir)
    ensures EntryAt(lines + [line], Entry(ItemName(line).value, st.toctree, st.template), |lines|, filename, joinDir)
  {
    var more := lines + [line];
    assert more[..|lines| + 1] == more && more[|lines|] == line;
    OpenedSnoc(lines, st, d, line, ItemName(line).value, filename, joinDir);
  }

  /** A line that stays inside the tracked block extends it, and the block's options are the state's. */
  lemma OpenedSnoc(lines: seq<string>, st: ScanState, d: int, line: string, name: string, filename: string, joinDir: (string, string) -> string)
    requires InsideBlock(st.baseIndent, line)
    requires Tracks(lines, st, d, filename, joinDir)
    ensures OpenedFor(lines + [line], Entry(name, st.toctree, st.template), d, filename, joinDir)
  {
    DropSnoc(lines, line, d + 1);
    OpensGrow(lines, line, d);
    OpensAtExtends(lines, line, d, filename, joinDir);
  }

  /** `ix` gives, in increasing order, the line each entry of `doc` comes from. */
  ghost predicate Indexes(lines: seq<string>, doc: seq<Entry>, ix: seq<int>, filename: string, joinDir: (string, string) -> string) {
    && |ix| == |doc|
    && (forall a, b :: 0 <= a < b < |ix| ==> ix[a] < ix[b])
    && (forall e :: 0 <= e < |ix| ==> EntryAt(lines, doc[e], ix[e], filename, joinDir))
  }

  lemma IndexesExtend(lines: seq<string>, line: string, doc: seq<Entry>, ix: seq<int>, filename: string, joinDir: (string, string) -> string)
    requires Indexes(lines, doc, ix, filename, joinDir)
    ensures Indexes(lines + [line], doc, ix, filename, joinDir)
    ensures forall e :: 0 <= e < |ix| ==> ix[e] < |lines|
  {
    forall e | 0 <= e < |ix| ensures EntryAt(lines + [line], doc[e], ix[e], filename, joinDir) {
      EntryAtExtends(lines, line, doc[e], ix[e], filename, joinDir);
    }
  }

  lemma IndexesAppend(lines: seq<string>, doc: seq<Entry>, ix: seq<int>, x: Entry, i: int, filename: string, joinDir: (string, string) -> string)
    requires Indexes(lines, doc, ix, filename, joinDir)
    requires EntryAt(lines, x, i, filename, joinDir)
    requires forall e :: 0 <= e < |ix| ==> ix[e] < i
    ensures Indexes(lines, doc + [x], ix + [i], filename, joinDir)
  {
    IncreasingSnoc(ix, i);
    EntriesSnoc(lines, doc, ix, x, i, filename, joinDir);
  }

  lemma EntriesSnoc(lines: seq<string>, doc: seq<Entry>, ix: seq<int>, x: Entry, i: int, filename: string, joinDir: (string, string) -> string)
    requires |ix| == |doc|
    requires forall e :: 0 <= e < |ix| ==> EntryAt(lines, doc[e], ix[e], filename, joinDir)
    requires EntryAt(lines, x, i, filename, joinDir)
    ensures forall e :: 0 <= e < |ix + [i]| ==> EntryAt(lines, (doc + [x])[e], (ix + [i])[e], filename, joinDir)
  {
    PairwiseSnoc(doc, ix, x, i, (e, k) => EntryAt(lines, e, k, filename, joinDir));
  }

  /** A property held by each pair of two lists, and by one more pair, holds after appending that pair. */
  lemma PairwiseSnoc<A, B>(xs: seq<A>, ys: seq<B>, x: A, y: B, p: (A, B) -> bool)
    requires |xs| == |ys|
    requires forall e :: 0 <= e < |xs| ==> p(xs[e], ys[e])
    requires p(x, y)
    ensures forall e :: 0 <= e < |xs| + 1 ==> p((xs + [x])[e], (ys + [y])[e])
  {
    forall e | 0 <= e < |xs| + 1 ensures p((xs + [x])[e], (ys + [y])[e]) {
      if e < |xs| {
        assert (xs + [x])[e] == xs[e] && (ys + [y])[e] == ys[e];
      }
    }
  }

  lemma IncreasingSnoc(ix: seq<int>, i: int)
    requires forall a, b :: 0 <= a < b < |ix| ==> ix[a] < ix[b]
    requires forall e :: 0 <= e < |ix| ==> ix[e] < i
    ensures forall a, b :: 0 <= a < b < |ix + [i]| ==> (ix + [i])[a] < (ix + [i])[b]
  {
  }

  /**
   * The entries appear in the order of their lines, one per line, and each
   * one is its line's item name with the options of the block it sits in:
   * the last `:toctree:` and `:template:` lines between the directive and
   * the item, or None where there is none.
   */
  lemma {:induction false} EntriesInOrder(lines: seq<string>, filename: string, joinDir: (string, string) -> string)
    ensures exists ix :: Indexes(lines, Scan(lines, filename, joinDir).documented, ix, filename, joinDir)
  {
    var doc := Scan(lines, filename, joinDir).documented;
    if lines == [] {
      assert Indexes(lines, doc, [], filename, joinDir);
      return;
    }
    var p := lines[..|lines| - 1];
    var line := lines[|lines| - 1];
    var sp := Scan(p, filename, joinDir);
    SplitLast(lines);
    ScanUnfold(lines, filename, joinDir);
    EntriesInOrder(p, filename, joinDir);
    var ix0 :| Indexes(p, sp.documented, ix0, filename, joinDir);
    IndexesExtend(p, line, sp.documented, ix0, filename, joinDir);
    StepEntries(sp, line, filename, joinDir);
    if doc == sp.documented {
      assert Indexes(lines, doc, ix0, filename, joinDir);
    } else {
      var x := Entry(ItemName(line).value, sp.toctree, sp.template);
      OpenBlock(p, filename, joinDir);
      var d :| Tracks(p, sp, d, filename, joinDir);
      ItemOpened(p, sp, d, line, filename, joinDir);
      IndexesAppend(lines, sp.documented, ix0, x, |p|, filename, joinDir);
      assert Indexes(lines, doc, ix0 + [|p|], filename, joinDir);
    }
  }

  /** The method's result, read through the lemmas above. */
  lemma FoundEntries(lines: seq<string>, filename: string, joinDir: (string, string) -> string)
    ensures |Scan(lines, filename, joinDir).documented| <= |lines|
  {
    EntriesInOrder(lines, filename, joinDir);
    var doc := Scan(lines, filename, joinDir).documented;
    var ix :| Indexes(lines, doc, ix, filename, joinDir);
    IncreasingBound(ix, |lines|);
  }

  /** A strictly increasing sequence of indices below `n` has at most `n` elements. */
  lemma {:induction false} IncreasingBound(ix: seq<int>, n: int)
    requires forall a, b :: 0 <= a < b < |ix| ==> ix[a] < ix[b]
    requires 0 <= n
    requires forall e :: 0 <= e < |ix| ==> 0 <= ix[e] < n
    ensures |ix| <= n
  {
    if ix != [] {
      var q := ix[..|ix| - 1];
      var top := ix[|ix| - 1];
      assert forall e :: 0 <= e < |q| ==> q[e] == ix[e];
      assert forall e :: 0 <= e < |q| ==> q[e] < top;
      assert forall e :: 0 <= e < |q| ==> 0 <= q[e];
      IncreasingBound(q, top);
      assert |ix| == |q| + 1 && top < n;
    }
  }

  /** The state after line `k` is one step on from the state before it. */
  lemma ScanPrefixStep(ls: seq<string>, k: int, filename: string, joinDir: (string, string) -> string)
    requires 0 <= k < |ls|
    ensures Scan(ls[..k + 1], filename, joinDir) == Step(Scan(ls[..k], filename, joinDir), ls[k], filename, joinDir)
  {
    assert ls[..k + 1][..k] == ls[..k] && ls[..k + 1][k] == ls[k];
  }

  /** A directive line that the state does not keep inside its block opens one with its own indentation. */
  lemma DirectiveOpens(st: ScanState, line: string, filename: string, joinDir: (string, string) -> string)
    requires DirectiveIndent(line).Some? && !(st.inBlock && InsideBlock(st.baseIndent, line))
    ensures var r := Step(st, line, filename, joinDir);
            r.inBlock && r.baseIndent == DirectiveIndent(line).value
  {
    if st.inBlock {
      StepCloses(st, line, filename, joinDir);
    }
  }

  /** After the first `j` lines the scan is inside a block indented by `w`. */
  ghost predicate OpenAfter(ls: seq<string>, j: int, w: string, filename: string, joinDir: (string, string) -> string)
    requires 0 <= j <= |ls|
  {
    var st := Scan(ls[..j], filename, joinDir);
    st.inBlock && st.baseIndent == w
  }

  /** After the line that opens a block, and every line up to `j` that stays inside it, that block is still open. */
  lemma {:induction false} StaysOpen(ls: seq<string>, d: int, j: int, w: string, filename: string, joinDir: (string, string) -> string)
    requires 0 <= d < j <= |ls| && OpenAfter(ls, d + 1, w, filename, joinDir)
    requires forall k :: d < k < j ==> InsideBlock(w, ls[k])
    ensures OpenAfter(ls, j, w, filename, joinDir)
    decreases j
  {
    if j > d + 1 {
      StaysOpen(ls, d, j - 1, w, filename, joinDir);
      KeptOpen(ls, j - 1, w, filename, joinDir);
    }
  }

  lemma OpenedHere(ls: seq<string>, d: int, filename: string, joinDir: (string, string) -> string)
    requires 0 <= d < |ls| && OpensAt(ls, d, filename, joinDir)
    ensures OpenAfter(ls, d + 1, DirectiveIndent(ls[d]).value, filename, joinDir)
  {
    ScanPrefixStep(ls, d, filename, joinDir);
    DirectiveOpens(Scan(ls[..d], filename, joinDir), ls[d], filename, joinDir);
  }

  lemma KeptOpen(ls: seq<string>, k: int, w: string, filename: string, joinDir: (string, string) -> string)
    requires 0 <= k < |ls| && InsideBlock(w, ls[k]) && OpenAfter(ls, k, w, filename, joinDir)
    ensures OpenAfter(ls, k + 1, w, filename, joinDir)
  {
    ScanPrefixStep(ls, k, filename, joinDir);
    InsideStep(Scan(ls[..k], filename, joinDir), ls[k], filename, joinDir);
  }

  /** Only one line opened the block that holds the last line: the one the scan opened it at. */
  lemma OpenerUnique(ls: seq<string>, e1: Entry, e2: Entry, d1: int, d2: int, filename: string, joinDir: (string, string) -> string)
    requires OpenedFor(ls, e1, d1, filename, joinDir) && OpenedFor(ls, e2, d2, filename, joinDir)
    ensures d1 == d2 && e1.toctree == e2.toctree && e1.template == e2.template
  {
    if d1 < d2 {
      Opener(ls, d1, d2, filename, joinDir);
    } else if d2 < d1 {
      Opener(ls, d2, d1, filename, joinDir);
    }
  }

  /** A later line inside the block opened at `d` does not open one of its own. */
  lemma Opener(ls: seq<string>, d: int, d': int, filename: string, joinDir: (string, string) -> string)
    requires 0 <= d < d' < |ls| && Opens(ls, d, |ls|) && OpensAt(ls, d, filename, joinDir)
    ensures !OpensAt(ls, d', filename, joinDir)
  {
    OpenThrough(ls, d, d', filename, joinDir);
    assert InsideBlock(DirectiveIndent(ls[d]).value, ls[d']);
  }

  /** Each line yields at most one entry: the options an item gets are fixed by the document. */
  lemma EntryOptionsPinned(lines: seq<string>, e1: Entry, e2: Entry, i: int, filename: string, joinDir: (string, string) -> string)
    requires EntryAt(lines, e1, i, filename, joinDir) && EntryAt(lines, e2, i, filename, joinDir)
    ensures e1 == e2
  {
    var ls := lines[..i + 1];
    var d1 :| OpenedFor(ls, e1, d1, filename, joinDir);
    var d2 :| OpenedFor(ls, e2, d2, filename, joinDir);
    OpenerUnique(ls, e1, e2, d1, d2, filename, joinDir);
  }

  /** An item line is neither a `:toctree:` nor a `:template:` line, nor skipped as another option. */
  lemma ItemNotOption(line: string)
    requires ItemName(line).Some?
    ensures TocTreeArg(line).None? && TemplateArg(line).None? && !IsOptionLine(line)
  {
    var rest := LStrip(line);
    var name := ItemName(line).value;
    assert rest != [] && rest[0] != ':' by {
      if name <= rest {
        assert rest[0] == name[0];
      } else {
        assert rest[0] == '~';
      }
    }
    LStripKeeps(rest);
    StripStart(rest);
  }

  /**
   * The converse of `EntriesInOrder`: when the loop reaches an item line of
   * a block the scan opened, it records exactly that entry.
   */
  lemma ItemRecorded(lines: seq<string>, e: Entry, i: int, filename: string, joinDir: (string, string) -> string)
    requires EntryAt(lines, e, i, filename, joinDir)
    ensures Scan(lines[..i + 1], filename, joinDir).documented == Scan(lines[..i], filename, joinDir).documented + [e]
  {
    OpenBeforeItem(lines, e, i, filename, joinDir);
    var sp := Scan(lines[..i], filename, joinDir);
    ItemOptions(lines, e, i, filename, joinDir);
    ItemNotOption(lines[i]);
    ScanPrefixStep(lines, i, filename, joinDir);
    assert Step(sp, lines[i], filename, joinDir).documented == sp.documented + [e];
  }

  /** The block that holds an entry's line is still open when the loop reaches that line. */
  lemma OpenBeforeItem(lines: seq<string>, e: Entry, i: int, filename: string, joinDir: (string, string) -> string)
    requires EntryAt(lines, e, i, filename, joinDir)
    ensures Scan(lines[..i], filename, joinDir).inBlock
  {
    var ls := lines[..i + 1];
    var d :| OpenedFor(ls, e, d, filename, joinDir);
    OpenThrough(ls, d, i, filename, joinDir);
    assert ls[..i] == lines[..i];
  }

  /** A block the scan opened at line `d` is still open before any later line it keeps inside. */
  lemma OpenThrough(ls: seq<string>, d: int, j: int, filename: string, joinDir: (string, string) -> string)
    requires 0 <= d < j < |ls| && Opens(ls, d, |ls|) && OpensAt(ls, d, filename, joinDir)
    ensures OpenAfter(ls, j, DirectiveIndent(ls[d]).value, filename, joinDir)
  {
    var w := DirectiveIndent(ls[d]).value;
    assert forall k :: d < k < j ==> InsideBlock(w, ls[k]);
    OpenedHere(ls, d, filename, joinDir);
    StaysOpen(ls, d, j, w, filename, joinDir);
  }

  /** An entry found at a line carries the options the scan holds when it reaches that line. */
  lemma ItemOptions(lines: seq<string>, e: Entry, i: int, filename: string, joinDir: (string, string) -> string)
    requires EntryAt(lines, e, i, filename, joinDir) && Scan(lines[..i], filename, joinDir).inBlock
    ensures var sp := Scan(lines[..i], filename, joinDir);
            e == Entry(ItemName(lines[i]).value, sp.toctree, sp.template)
  {
    var sp := Scan(lines[..i], filename, joinDir);
    OpenBlock(lines[..i], filename, joinDir);
    var d' :| Tracks(lines[..i], sp, d', filename, joinDir);
    var ls := lines[..i + 1];
    var x := Entry(e.name, sp.toctree, sp.template);
    OpenedSnoc(lines[..i], sp, d', lines[i], e.name, filename, joinDir);
    TakeOneMore(lines, i);
    SameOpened(lines[..i] + [lines[i]], ls, x, d', filename, joinDir);
    var d :| OpenedFor(ls, e, d, filename, joinDir);
    OpenerUnique(ls, e, x, d, d', filename, joinDir);
  }

  lemma TakeOneMore<T>(ls: seq<T>, i: int)
    requires 0 <= i < |ls|
    ensures ls[..i] + [ls[i]] == ls[..i + 1]
  {
  }

  lemma SameOpened(a: seq<string>, b: seq<string>, x: Entry, d: int, filename: string, joinDir: (string, string) -> string)
    requires a == b && OpenedFor(a, x, d, filename, joinDir)
    ensures OpenedFor(b, x, d, filename, joinDir)
  {
  }

  /** Entries recorded after the first `j` lines are still there at the end. */
  lemma {:induction false} DocumentedGrows(lines: seq<string>, j: int, filename: string, joinDir: (string, string) -> string)
    requires 0 <= j <= |lines|
    ensures Scan(lines[..j], filename, joinDir).documented <= Scan(lines, filename, joinDir).documented
    decreases |lines| - j
  {
    if j < |lines| {
      DocumentedGrows(lines, j + 1, filename, joinDir);
      ScanPrefixStep(lines, j, filename, joinDir);
    } else {
      assert lines[..j] == lines;
    }
  }

  /** Every item of a block the scan opened is among the entries the whole document yields. */
  lemma ItemFound(lines: seq<string>, e: Entry, i: int, filename: string, joinDir: (string, string) -> string)
    requires EntryAt(lines, e, i, filename, joinDir)
    ensures e in Scan(lines, filename, joinDir).documented
  {
    ItemRecorded(lines, e, i, filename, joinDir);
    DocumentedGrows(lines, i + 1, filename, joinDir);
    var a := Scan(lines[..i + 1], filename, joinDir).documented;
    assert a[|a| - 1] == e;
    assert Scan(lines, filename, joinDir).documented[|a| - 1] == e;
  }

  // ---------------------------------------------------------------------------
  // The shortened source list and the suffixes

  /**
   * The printed list is the sorted sources when there are at most 20 of
   * them, and otherwise the ten smallest, '...', and the ten largest.
   */
  lemma ShownSourcesShape(sources: seq<string>)
    ensures var r := ShownSources(sources);
            var s := Sorted(sources);
            && (|sources| <= 20 ==> multiset(r) == multiset(sources) && Ascending(r))
            && (|sources| > 20 ==>
                  && |r| == 21 && r[10] == "..."
                  && r[..10] == s[..10] && r[11..] == s[|s| - 10..]
                  && forall k :: 0 <= k < 21 && k != 10 ==> r[k] in multiset(sources))
  {
    var s := Sorted(sources);
    var r := ShownSources(sources);
    if |sources| > 20 {
      assert |s| == |sources| by {
        assert |multiset(s)| == |multiset(sources)|;
      }
      forall k | 0 <= k < 21 && k != 10 ensures r[k] in multiset(sources) {
        if k < 10 {
          assert r[k] == s[k];
        } else {
          assert r[k] == r[11..][k - 11] == s[|s| - 10 + (k - 11)];
        }
      }
    }
  }

  /** Normalising the suffixes a second time changes nothing, and every name ends with the suffix. */
  lemma WithSuffixesIdempotent(genfiles: seq<string>, ext: string)
    ensures var r := WithSuffixes(genfiles, ext);
            && WithSuffixes(r, ext) == r
            && forall k :: 0 <= k < |r| ==> EndsWith(r[k], ext)
  {
    var r := WithSuffixes(genfiles, ext);
    assert WithSuffixes(r, ext) == r by {
      forall k | 0 <= k < |r| ensures WithSuffixes(r, ext)[k] == r[k] {
        assert EndsWith(r[k], ext);
      }
    }
  }
}
