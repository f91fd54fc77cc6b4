/**
 * The pure parts of `autosummary/generate.py`: the scanner that
 * `find_autosummary_in_lines` runs over the lines of a document (its four
 * regular expressions written out as string functions, one step per line,
 * and the loop itself), the list of sources shown in the progress message,
 * and the suffix normalisation of the generated file names.
 */
module Generate {
  import opened Wrappers
  import opened Strings

  // ---------------------------------------------------------------------------
  // The four patterns

  /** `[_a-zA-Z]` */
  predicate IsNameStart(c: char) {
    c == '_' || ('a' <= c <= 'z') || ('A' <= c <= 'Z')
  }

  /** `[a-zA-Z0-9_.:]` */
  predicate IsNameChar(c: char) {
    IsNameStart(c) || ('0' <= c <= '9') || c == '.' || c == ':'
  }

  /** The longest prefix of `s` made of name characters (what a greedy `[a-zA-Z0-9_.:]*` takes). */
  function NameRun(s: string): (r: string)
    ensures r <= s
    ensures forall k :: 0 <= k < |r| ==> IsNameChar(r[k])
    ensures |r| == |s| || !IsNameChar(s[|r|])
  {
    if s != [] && IsNameChar(s[0]) then [s[0]] + NameRun(s[1..]) else []
  }

  /** The leading whitespace of `line` (group 1 of a greedy `^(\s*)`). */
  function Indentation(line: string): (w: string)
    ensures w <= line && AllSpace(w)
    ensures w + LStrip(line) == line
  {
    var k := |line| - |LStrip(line)|;
    assert line[..k] + line[k..] == line;
    line[..k]
  }

  /**
   * `^(\s*)\.\.\s+autodoxysummary::\s*`: the indentation of a directive line,
   * or None for any other line.
   */
  function DirectiveIndent(line: string): (r: Option<string>)
    // a match is the indentation, "..", at least one whitespace character, then the directive name
    ensures r.Some? ==> r.value == Indentation(line) && AllSpace(r.value)
    ensures r.Some? ==> DirectiveShape(line, r.value)
  {
    var rest := LStrip(line);
    if ".." <= rest then
      var after := rest[2..];
      var word := LStrip(after);
      if |word| < |after| && "autodoxysummary::" <= word then
        DirectiveParts(line, Indentation(line), rest, after, word);
        Some(Indentation(line))
      else None
    else None
  }

  lemma DirectiveParts(line: string, ws: string, rest: string, after: string, word: string)
    requires rest == LStrip(line) && ws == Indentation(line) && ".." <= rest
    requires after == rest[2..] && word == LStrip(after)
    requires |word| < |after| && "autodoxysummary::" <= word
    ensures DirectiveShape(line, ws)
  {
    SplitDirective(line, ws, rest, after, word);
  }

  /** `line` is `ws`, "..", at least one whitespace character, the directive name, and anything after it. */
  ghost predicate DirectiveShape(line: string, ws: string) {
    exists gap, tail :: gap != [] && AllSpace(gap) && line == ws + ".." + gap + "autodoxysummary::" + tail
  }

  /** How a directive line falls apart: indentation, "..", whitespace, the name, and the rest. */
  lemma SplitDirective(line: string, ws: string, rest: string, after: string, word: string)
    requires line == ws + rest && ".." <= rest && after == rest[2..]
    requires |word| < |after| && word == after[|after| - |word|..] && AllSpace(after[..|after| - |word|])
    requires "autodoxysummary::" <= word
    ensures DirectiveShape(line, ws)
  {
    var gap := after[..|after| - |word|];
    var tail := word[|"autodoxysummary::"|..];
    assert after == gap + word;
    assert word == "autodoxysummary::" + tail;
    assert rest == ".." + after;
    assert line == ws + ".." + gap + "autodoxysummary::" + tail;
  }


  /**
   * `^\s+(~?[_a-zA-Z][a-zA-Z0-9_.:]*)\s*.*?` followed by `.strip()` and the
   * removal of one leading '~': the item's name, or None.
   */
  function ItemName(line: string): (r: Option<string>)
    ensures r.Some? ==>
              && r.value != [] && IsNameStart(r.value[0])
              && (forall k :: 0 <= k < |r.value| ==> IsNameChar(r.value[k]))
              && 0 < |Indentation(line)|
              && (r.value <= LStrip(line) || "~" + r.value <= LStrip(line))
  {
    var rest := LStrip(line);
    if |rest| == |line| then None
    else
      var body := if rest != [] && rest[0] == '~' then rest[1..] else rest;
      if body != [] && IsNameStart(body[0]) then
        ItemShape(line, body);
        Some(NameRun(body))
      else None
  }

  /** What `ItemName` promises of the name it takes from `body`. */
  lemma ItemShape(line: string, body: string)
    requires |LStrip(line)| < |line|
    requires var rest := LStrip(line); body == if rest != [] && rest[0] == '~' then rest[1..] else rest
    requires body != [] && IsNameStart(body[0])
    ensures var name := NameRun(body);
            && name != [] && IsNameStart(name[0])
            && (forall k :: 0 <= k < |name| ==> IsNameChar(name[k]))
            && 0 < |Indentation(line)|
            && (name <= LStrip(line) || "~" + name <= LStrip(line))
  {
    var rest := LStrip(line);
    assert body == rest || rest == "~" + body;
    NameRunStarts(body);
    PrefixThroughTilde(NameRun(body), body, rest);
    IndentedLine(line);
  }

  lemma NameRunStarts(s: string)
    requires s != [] && IsNameStart(s[0])
    ensures NameRun(s) != [] && NameRun(s)[0] == s[0]
  {
  }

  lemma PrefixThroughTilde(name: string, body: string, rest: string)
    requires name <= body && (body == rest || rest == "~" + body)
    ensures name <= rest || "~" + name <= rest
  {
    if rest == "~" + body {
      assert ("~" + body)[..|name| + 1] == "~" + name;
    }
  }

  lemma IndentedLine(line: string)
    requires |LStrip(line)| < |line|
    ensures 0 < |Indentation(line)|
  {
  }

  /**
   * `^\s+<key>\s*(.*?)\s*$`: the option's value with the surrounding
   * whitespace removed. `.` does not match a line break, so a value that
   * still holds one after stripping does not match.
   */
  function OptionArg(line: string, key: string): (r: Option<string>)
    // the line matches exactly when it is indented, starts with the key after
    // the indentation, and what follows the key holds no line break once stripped
    ensures r.Some? <==> 0 < |Indentation(line)| && key <= LStrip(line) && '\n' !in Strip(LStrip(line)[|key|..])
    // the value: whitespace after the key and at the end of the line are not part of it
    ensures r.Some? ==> r.value == Strip(LStrip(line)[|key|..])
    ensures r.Some? ==> '\n' !in r.value && (r.value == [] || (!IsSpace(r.value[0]) && !IsSpace(r.value[|r.value| - 1])))
    ensures r.Some? ==> Padded(LStrip(line), key, r.value)
  {
    var rest := LStrip(line);
    if |rest| < |line| && key <= rest then
      var v := Strip(rest[|key|..]);
      if '\n' in v then None
      else
        OptionValue(rest, key);
        Some(v)
    else None
  }

  /** `rest` is `key`, some whitespace, `v`, and some whitespace. */
  ghost predicate Padded(rest: string, key: string, v: string) {
    exists gap, trail :: AllSpace(gap) && AllSpace(trail) && rest == key + gap + v + trail
  }

  /** What follows the key is whitespace, the stripped value, and whitespace. */
  lemma OptionValue(rest: string, key: string)
    requires key <= rest
    ensures Padded(rest, key, Strip(rest[|key|..]))
  {
    var x := rest[|key|..];
    var l := LStrip(x);
    StripParts(x);
    KeyThenParts(rest, key, x[..|x| - |l|], Strip(x), l[|Strip(x)|..]);
  }

  lemma KeyThenParts(rest: string, key: string, gap: string, v: string, trail: string)
    requires AllSpace(gap) && AllSpace(trail)
    requires key <= rest && rest[|key|..] == gap + v + trail
    ensures Padded(rest, key, v)
  {
    assert rest == key + gap + v + trail by {
      assert rest == key + rest[|key|..];
    }
  }

  function TocTreeArg(line: string): Option<string> {
    OptionArg(line, ":toctree:")
  }

  function TemplateArg(line: string): Option<string> {
    OptionArg(line, ":template:")
  }

  /** `line.strip().startswith(':')` */
  predicate IsOptionLine(line: string) {
    ":" <= Strip(line)
  }

  /** `not line.strip()` */
  predicate IsBlank(line: string) {
    Strip(line) == ""
  }

  // ---------------------------------------------------------------------------
  // The scanner

  /** `(name, toctree, template)` */
  datatype Entry = Entry(name: string, toctree: Option<string>, template: Option<string>)

  /** The loop variables of `find_autosummary_in_lines`. */
  datatype ScanState = ScanState(
    inBlock: bool, baseIndent: string, toctree: Option<string>, template: Option<string>, documented: seq<Entry>)

  const Start := ScanState(false, "", None, None, [])

  /**
   * `os.path.join(os.path.dirname(filename), toctree)` when a file name is
   * given; `joinDir` stands for the path operation.
   */
  function TocTreePath(filename: string, joinDir: (string, string) -> string, v: string): string {
    if filename != "" then joinDir(filename, v) else v
  }

  /** A line that keeps an open block open without being an option or an item. */
  predicate KeepsOpen(baseIndent: string, line: string) {
    IsBlank(line) || baseIndent + " " <= line
  }

  /** The directive check, reached by a line outside a block or by one that just closed it. */
  function Reopen(st: ScanState, line: string): ScanState {
    match DirectiveIndent(line)
    case Some(w) => st.(inBlock := true, baseIndent := w, toctree := None, template := None)
    case None => st
  }

  /** One iteration of the loop of `find_autosummary_in_lines`. */
  function Step(st: ScanState, line: string, filename: string, joinDir: (string, string) -> string): (r: ScanState)
    // entries are only ever appended, at most one per line
    ensures st.documented <= r.documented && |r.documented| <= |st.documented| + 1
    // a line that leaves no block open changes nothing else
    ensures !r.inBlock ==> r == st.(inBlock := false)
    // a block is open afterwards because it stayed open, or because this line is a directive that opened a fresh one
    ensures r.inBlock ==>
              || (st.inBlock && r.baseIndent == st.baseIndent)
              || (DirectiveIndent(line) == Some(r.baseIndent) && r.toctree.None? && r.template.None?
                  && r.documented == st.documented)
  {
    if st.inBlock then
      if TocTreeArg(line).Some? then st.(toctree := Some(TocTreePath(filename, joinDir, TocTreeArg(line).value)))
      else if TemplateArg(line).Some? then st.(template := Some(Strip(TemplateArg(line).value)))
      else if IsOptionLine(line) then st
      else if ItemName(line).Some? then st.(documented := st.documented + [Entry(ItemName(line).value, st.toctree, st.template)])
      else if KeepsOpen(st.baseIndent, line) then st
      else Reopen(st.(inBlock := false), line)
    else Reopen(st, line)
  }

  /** The loop over `lines`, in order. */
  function Scan(lines: seq<string>, filename: string, joinDir: (string, string) -> string): ScanState {
    if lines == [] then Start
    else Step(Scan(lines[..|lines| - 1], filename, joinDir), lines[|lines| - 1], filename, joinDir)
  }

  /**
   * `find_autosummary_in_lines(lines, module, filename)`, with `filename`
   * None given as "".
   */
  method FindAutosummaryInLines(lines: seq<string>, filename: string, joinDir: (string, string) -> string)
    returns (documented: seq<Entry>)
    ensures documented == Scan(lines, filename, joinDir).documented
  {
    documented := [];
    var toctree: Option<string> := None;
    var template: Option<string> := None;
    var inAutosummary := false;
    var baseIndent := "";
    for i := 0 to |lines|
      invariant Scan(lines[..i], filename, joinDir) == ScanState(inAutosummary, baseIndent, toctree, template, documented)
    {
      var line := lines[i];
      ghost var pre := ScanState(inAutosummary, baseIndent, toctree, template, documented);
      assert lines[..i + 1][..i] == lines[..i];
      assert Scan(lines[..i + 1], filename, joinDir) == Step(pre, line, filename, joinDir);
      if inAutosummary {
        var m := TocTreeArg(line);
        if m.Some? {
          toctree := m;
          if filename != "" {
            toctree := Some(joinDir(filename, m.value));
          }
          assert Step(pre, line, filename, joinDir) == pre.(toctree := toctree);
          continue;
        }
        m := TemplateArg(line);
        if m.Some? {
          template := Some(Strip(m.value));
          assert Step(pre, line, filename, joinDir) == pre.(template := template);
          continue;
        }
        if ":" <= Strip(line) {
          assert Step(pre, line, filename, joinDir) == pre;
          continue;  // any other option line is ignored
        }
        m := ItemName(line);
        if m.Some? {
          documented := documented + [Entry(m.value, toctree, template)];
          assert Step(pre, line, filename, joinDir) == pre.(documented := documented);
          continue;
        }
        if Strip(line) == "" || baseIndent + " " <= line {
          assert Step(pre, line, filename, joinDir) == pre;
          continue;
        }
        inAutosummary := false;
        assert Step(pre, line, filename, joinDir) == Reopen(pre.(inBlock := false), line);
      }
      ghost var mid := ScanState(inAutosummary, baseIndent, toctree, template, documented);
      assert Scan(lines[..i + 1], filename, joinDir) == Reopen(mid, line);
      var d := DirectiveIndent(line);
      if d.Some? {
        inAutosummary := true;
        baseIndent := d.value;
        toctree := None;
        template := None;
        continue;
      }
    }
    assert lines[..|lines|] == lines;
  }

  // ---------------------------------------------------------------------------
  // The sources named in the progress message

  /** Python's `<` on `str`: code point by code point, a proper prefix first. */
  predicate Below(a: string, b: string) {
    if a == [] then b != []
    else if b == [] then false
    else if a[0] != b[0] then a[0] < b[0]
    else Below(a[1..], b[1..])
  }

  predicate AtMost(a: string, b: string) {
    a == b || Below(a, b)
  }

  predicate Ascending(s: seq<string>) {
    forall k :: 0 <= k < |s| - 1 ==> AtMost(s[k], s[k + 1])
  }

  lemma {:induction false} BelowTotal(a: string, b: string)
    ensures a == b || Below(a, b) || Below(b, a)
    decreases |a|
  {
    if a != [] && b != [] && a[0] == b[0] {
      BelowTotal(a[1..], b[1..]);
      if a[1..] == b[1..] {
        assert a == [a[0]] + a[1..] && b == [b[0]] + b[1..];
      }
    }
  }

  /** Insert `x` before the first element it does not exceed. */
  function Insert(x: string, s: seq<string>): (r: seq<string>)
    requires Ascending(s)
    ensures multiset(r) == multiset(s) + multiset{x}
    ensures Ascending(r)
    ensures r[0] == x || (s != [] && r[0] == s[0])
  {
    if s == [] then [x]
    else if AtMost(x, s[0]) then [x] + s
    else
      BelowTotal(x, s[0]);
      AscendingTail(s);
      var rest := Insert(x, s[1..]);
      assert s == [s[0]] + s[1..];
      AscendingCons(s[0], rest);
      [s[0]] + rest
  }

  lemma AscendingTail(s: seq<string>)
    requires s != [] && Ascending(s)
    ensures Ascending(s[1..])
  {
    forall k | 0 <= k < |s[1..]| - 1 ensures AtMost(s[1..][k], s[1..][k + 1]) {
      assert s[1..][k] == s[k + 1] && s[1..][k + 1] == s[k + 2];
    }
  }

  lemma AscendingCons(h: string, s: seq<string>)
    requires Ascending(s) && (s == [] || AtMost(h, s[0]))
    ensures Ascending([h] + s)
  {
    forall k | 0 <= k < |s| ensures AtMost(([h] + s)[k], ([h] + s)[k + 1]) {
      if k > 0 {
        assert ([h] + s)[k] == s[k - 1] && ([h] + s)[k + 1] == s[k];
      }
    }
  }

  /** `sorted(sources)` */
  function Sorted(s: seq<string>): (r: seq<string>)
    ensures multiset(r) == multiset(s)
    ensures Ascending(r)
  {
    if s == [] then []
    else
      assert s == s[..|s| - 1] + [s[|s| - 1]];
      Insert(s[|s| - 1], Sorted(s[..|s| - 1]))
  }

  /** `showed_sources` after the cut: more than 20 become the first ten, '...', and the last ten. */
  function Shortened(s: seq<string>): (r: seq<string>)
    ensures |s| > 20 ==> |r| == 21 && r[..10] == s[..10] && r[10] == "..." && r[11..] == s[|s| - 10..]
    ensures |s| <= 20 ==> r == s
  {
    if |s| > 20 then s[..10] + ["..."] + s[|s| - 10..] else s
  }

  /** The list that `generate_autosummary_docs` prints. */
  function ShownSources(sources: seq<string>): seq<string> {
    Shortened(Sorted(sources))
  }

  // ---------------------------------------------------------------------------
  // Generated file names

  /** `genfile + (not genfile.endswith(ext) and ext or '')` */
  function WithSuffix(genfile: string, ext: string): (r: string)
    ensures EndsWith(r, ext)
    ensures EndsWith(genfile, ext) ==> r == genfile
    ensures !EndsWith(genfile, ext) ==> r == genfile + ext
  {
    if !EndsWith(genfile, ext) && ext != "" then genfile + ext
    else
      assert ext == "" ==> genfile + ext == genfile;
      genfile
  }

  /** The comprehension over `genfiles`. */
  function WithSuffixes(genfiles: seq<string>, ext: string): (r: seq<string>)
    ensures |r| == |genfiles|
    ensures forall k :: 0 <= k < |r| ==> r[k] == WithSuffix(genfiles[k], ext)
  {
    seq(|genfiles|, k requires 0 <= k < |genfiles| => WithSuffix(genfiles[k], ext))
  }
}
