/** Commenting out type definitions in generated Go code
    (contracts/bindings/scripts/commenttypes.go), and the scanner that undoes it. */
module CommentTypes {
  import opened Strings

  const MARKER := "// autocommented by commenttypes.go"

  /** Unicode white space, as Go's unicode.IsSpace has it. */
  predicate IsSpace(c: char) {
    || '\U{0009}' <= c <= '\U{000D}' || c == ' ' || c == '\U{0085}' || c == '\U{00A0}' || c == '\U{1680}'
    || '\U{2000}' <= c <= '\U{200A}' || c == '\U{2028}' || c == '\U{2029}' || c == '\U{202F}'
    || c == '\U{205F}' || c == '\U{3000}'
  }

  function TrimLeft(s: string): string {
    if s != "" && IsSpace(s[0]) then TrimLeft(s[1..]) else s
  }

  function TrimRight(s: string): string {
    if s != "" && IsSpace(s[|s| - 1]) then TrimRight(s[..|s| - 1]) else s
  }

  function TrimSpace(s: string): string {
    TrimRight(TrimLeft(s))
  }

  predicate IsTypeDefStart(line: string, types: seq<string>) {
    exists i :: 0 <= i < |types| && "type " + types[i] <= TrimSpace(line)
  }

  predicate IsTypeDefEnd(line: string) {
    "}" <= TrimSpace(line)
  }

  /** The lines written for one input line. */
  function Emit(line: string, types: seq<string>, mark: string, inDef: bool): seq<string> {
    if inDef then ["// " + line]
    else if IsTypeDefStart(line, types) then [mark, "// " + line]
    else [line]
  }

  /** Whether the scan is inside a definition after the line. */
  function Inside(line: string, types: seq<string>, inDef: bool): bool {
    (inDef || IsTypeDefStart(line, types)) && !IsTypeDefEnd(line)
  }

  /** The lines of the result, for a scan that starts inside (inDef) or outside a definition and
      announces each commented block by the line mark. */
  function Comment(lines: seq<string>, types: seq<string>, mark: string, inDef: bool): seq<string> {
    if lines == [] then []
    else Emit(lines[0], types, mark, inDef) + Comment(lines[1..], types, mark, Inside(lines[0], types, inDef))
  }

  function CommentText(content: string, types: seq<string>, mark: string): string {
    Join(Comment(Split(content, '\n'), types, mark, false), '\n')
  }

  lemma {:induction false} CommentNext(lines: seq<string>, i: nat, types: seq<string>, mark: string, inDef: bool,
                                       before: seq<string>)
    requires i < |lines|
    ensures before + Comment(lines[i..], types, mark, inDef) ==
            before + Emit(lines[i], types, mark, inDef) +
            Comment(lines[i + 1..], types, mark, Inside(lines[i], types, inDef))
  {
    assert lines[i..][1..] == lines[i + 1..];
  }

  method CommentTypes(content: string, types: seq<string>) returns (r: string)
    ensures r == CommentText(content, types, MARKER)
    ensures CommentText(r, types, MARKER) == r
    ensures UncommentText(r, MARKER) == content <==> NoStrayMarker(Split(content, '\n'), types, MARKER, false)
  {
    MarkerIsGood();
    CommentingTwice(content, types, MARKER);
    TextComesBackExactlyWhen(content, types, MARKER);
    var lines := Split(content, '\n');
    var modifiedLines := CommentLines(lines, types, MARKER);
    r := Join(modifiedLines, '\n');
  }

  /** The loop over the lines. */
  method CommentLines(lines: seq<string>, types: seq<string>, mark: string) returns (modifiedLines: seq<string>)
    ensures modifiedLines == Comment(lines, types, mark, false)
  {
    modifiedLines := [];
    var inTypeDef := false;
    for i := 0 to |lines|
      invariant modifiedLines + Comment(lines[i..], types, mark, inTypeDef) == Comment(lines, types, mark, false)
    {
      var line := lines[i];
      CommentNext(lines, i, types, mark, inTypeDef, modifiedLines);
      if inTypeDef && IsTypeDefEnd(line) {
        inTypeDef := false;
        modifiedLines := modifiedLines + ["// " + line];
        continue;
      }
      if inTypeDef {
        modifiedLines := modifiedLines + ["// " + line];
        continue;
      }
      if IsTypeDefStart(line, types) {
        inTypeDef := true;
        modifiedLines := modifiedLines + [mark, "// " + line];
        if IsTypeDefEnd(line) {
          inTypeDef := false;
        }
        continue;
      }
      modifiedLines := modifiedLines + [line];
    }
  }

  /** A comment line without line breaks, whose text does not look like a comment again. */
  ghost predicate GoodMark(mark: string) {
    "// " <= mark && '\n' !in mark && !("// " <= mark[3..])
  }

  lemma {:induction false} MarkerIsGood()
    ensures GoodMark(MARKER) && |MARKER| > 3 && MARKER[3] == 'a'
  {
    assert MARKER[3..][0] == 'a';
  }

  lemma {:induction false} TrimKeepsFirst(s: string)
    requires s != "" && !IsSpace(s[0])
    ensures TrimSpace(s) != "" && TrimSpace(s)[0] == s[0]
  {
    assert TrimLeft(s) == s;
    TrimRightKeepsFirst(s);
  }

  lemma {:induction false} TrimRightKeepsFirst(s: string)
    requires s != "" && !IsSpace(s[0])
    ensures TrimRight(s) != "" && TrimRight(s)[0] == s[0]
    decreases |s|
  {
    if IsSpace(s[|s| - 1]) {
      TrimRightKeepsFirst(s[..|s| - 1]);
    }
  }

  /** A comment line neither starts nor ends a definition. */
  lemma {:induction false} CommentsAreInert(line: string, types: seq<string>)
    requires "// " <= line
    ensures !IsTypeDefStart(line, types) && !IsTypeDefEnd(line)
  {
    assert line[0] == '/';
    TrimKeepsFirst(line);
    forall i | 0 <= i < |types|
      ensures !("type " + types[i] <= TrimSpace(line))
    {
      assert ("type " + types[i])[0] == 't';
    }
  }

  /** No line both starts and ends a definition, so the check for one-line definitions never
      fires and every block runs on to a later line. */
  lemma {:induction false} StartIsNotEnd(line: string, types: seq<string>)
    requires IsTypeDefStart(line, types)
    ensures !IsTypeDefEnd(line)
  {
    var i :| 0 <= i < |types| && "type " + types[i] <= TrimSpace(line);
    assert ("type " + types[i])[0] == 't';
  }

  /** The visible part of the line runs from position i up to position j: white space before and behind. */
  ghost predicate Visible(line: string, i: int, j: int) {
    && 0 <= i < j <= |line| && !IsSpace(line[i]) && !IsSpace(line[j - 1])
    && (forall k :: 0 <= k < i ==> IsSpace(line[k]))
    && (forall k :: j <= k < |line| ==> IsSpace(line[k]))
  }

  ghost predicate Blank(line: string) {
    forall k :: 0 <= k < |line| ==> IsSpace(line[k])
  }

  lemma {:induction false} TrimLeftFrom(line: string, i: nat)
    requires i < |line| && !IsSpace(line[i]) && forall k :: 0 <= k < i ==> IsSpace(line[k])
    ensures TrimLeft(line) == line[i..]
    decreases i
  {
    if i > 0 {
      TrimLeftFrom(line[1..], i - 1);
      assert line[1..][i - 1..] == line[i..];
    }
  }

  lemma {:induction false} TrimRightTo(line: string, j: nat)
    requires 0 < j <= |line| && !IsSpace(line[j - 1]) && forall k :: j <= k < |line| ==> IsSpace(line[k])
    ensures TrimRight(line) == line[..j]
    decreases |line|
  {
    if j < |line| {
      TrimRightTo(line[..|line| - 1], j);
      assert line[..|line| - 1][..j] == line[..j];
    }
  }

  /** Trimming leaves exactly the visible part. */
  lemma {:induction false} TrimIsVisible(line: string, i: nat, j: nat)
    requires Visible(line, i, j)
    ensures TrimSpace(line) == line[i..j]
  {
    TrimLeftFrom(line, i);
    TrimRightTo(line[i..], j - i);
    assert line[i..][..j - i] == line[i..j];
  }

  lemma {:induction false} TrimBlank(line: string)
    requires Blank(line)
    ensures TrimSpace(line) == ""
    decreases |line|
  {
    if line != "" {
      TrimBlank(line[1..]);
    }
  }

  lemma {:induction false} FirstOf(line: string, i: nat) returns (first: nat)
    requires i < |line| && !IsSpace(line[i])
    ensures first <= i && !IsSpace(line[first]) && forall k :: 0 <= k < first ==> IsSpace(line[k])
  {
    first := i;
    if k :| 0 <= k < i && !IsSpace(line[k]) {
      first := FirstOf(line, k);
    }
  }

  lemma {:induction false} LastOf(line: string, i: nat) returns (end: nat)
    requires i < |line| && !IsSpace(line[i])
    ensures i < end <= |line| && !IsSpace(line[end - 1]) && forall k :: end <= k < |line| ==> IsSpace(line[k])
    decreases |line| - i
  {
    end := i + 1;
    if k :| i < k < |line| && !IsSpace(line[k]) {
      end := LastOf(line, k);
    }
  }

  lemma {:induction false} BlankOrVisible(line: string) returns (i: nat, j: nat)
    ensures Blank(line) || Visible(line, i, j)
  {
    i, j := 0, 0;
    if k :| 0 <= k < |line| && !IsSpace(line[k]) {
      i := FirstOf(line, k);
      j := LastOf(line, k);
    }
  }

  lemma {:induction false} OneVisiblePart(line: string, i: int, j: int, i': int, j': int)
    requires Visible(line, i, j) && Visible(line, i', j')
    ensures i == i' && j == j'
  {
    assert !IsSpace(line[i]) && !IsSpace(line[i']);
    assert !IsSpace(line[j - 1]) && !IsSpace(line[j' - 1]);
  }

  /** A line ends a definition exactly when the first thing to be seen on it is a closing brace, whatever
      comes behind it. */
  lemma {:induction false} EndsWithBrace(line: string)
    ensures IsTypeDefEnd(line) <==> exists i, j :: Visible(line, i, j) && line[i] == '}'
  {
    var i, j := BlankOrVisible(line);
    if Visible(line, i, j) {
      TrimIsVisible(line, i, j);
      forall i', j' | Visible(line, i', j')
        ensures i' == i
      {
        OneVisiblePart(line, i, j, i', j');
      }
    } else {
      TrimBlank(line);
    }
  }

  /** A line starts a definition exactly when what is to be seen on it starts with the keyword and one of
      the names. */
  lemma {:induction false} StartsWithName(line: string, types: seq<string>)
    ensures IsTypeDefStart(line, types) <==>
            exists i, j :: Visible(line, i, j) && exists t :: 0 <= t < |types| && "type " + types[t] <= line[i..j]
  {
    var i, j := BlankOrVisible(line);
    if Visible(line, i, j) {
      TrimIsVisible(line, i, j);
      forall i', j' | Visible(line, i', j')
        ensures i' == i && j' == j
      {
        OneVisiblePart(line, i, j, i', j');
      }
    } else {
      TrimBlank(line);
    }
  }

  // ---------------------------------------------------------------------------------------
  // Idempotence
  // ---------------------------------------------------------------------------------------

  ghost predicate NoStarts(lines: seq<string>, types: seq<string>) {
    forall i :: 0 <= i < |lines| ==> !IsTypeDefStart(lines[i], types)
  }

  ghost predicate OneLineEach(lines: seq<string>) {
    forall i :: 0 <= i < |lines| ==> '\n' !in lines[i]
  }

  lemma {:induction false} NothingToComment(lines: seq<string>, types: seq<string>, mark: string)
    requires NoStarts(lines, types)
    ensures Comment(lines, types, mark, false) == lines
    decreases |lines|
  {
    if lines != [] {
      NothingToComment(lines[1..], types, mark);
      assert lines == [lines[0]] + lines[1..];
    }
  }

  lemma {:induction false} OutputIsInert(lines: seq<string>, types: seq<string>, mark: string, inDef: bool)
    requires GoodMark(mark)
    ensures NoStarts(Comment(lines, types, mark, inDef), types)
    decreases |lines|
  {
    if lines != [] {
      OutputIsInert(lines[1..], types, mark, Inside(lines[0], types, inDef));
      CommentsAreInert("// " + lines[0], types);
      CommentsAreInert(mark, types);
      assert NoStarts(Emit(lines[0], types, mark, inDef), types);
    }
  }

  lemma {:induction false} OutputLines(lines: seq<string>, types: seq<string>, mark: string, inDef: bool)
    requires GoodMark(mark) && OneLineEach(lines)
    ensures OneLineEach(Comment(lines, types, mark, inDef))
    ensures lines != [] ==> Comment(lines, types, mark, inDef) != []
    decreases |lines|
  {
    if lines != [] {
      OutputLines(lines[1..], types, mark, Inside(lines[0], types, inDef));
      assert OneLineEach(Emit(lines[0], types, mark, inDef));
    }
  }

  /** A second pass with the same types changes nothing. */
  lemma {:induction false} CommentingTwice(content: string, types: seq<string>, mark: string)
    requires GoodMark(mark)
    ensures CommentText(CommentText(content, types, mark), types, mark) == CommentText(content, types, mark)
  {
    var lines := Split(content, '\n');
    var out := Comment(lines, types, mark, false);
    OutputLines(lines, types, mark, false);
    SplitJoin(out, '\n');
    OutputIsInert(lines, types, mark, false);
    NothingToComment(out, types, mark);
  }

  /** The blocks that get commented out. */
  function Blocks(lines: seq<string>, types: seq<string>, inDef: bool): nat {
    if lines == [] then 0
    else
      (if !inDef && IsTypeDefStart(lines[0], types) then 1 else 0) +
      Blocks(lines[1..], types, Inside(lines[0], types, inDef))
  }

  /** One extra line per block. */
  lemma {:induction false} OneMarkerPerBlock(lines: seq<string>, types: seq<string>, mark: string, inDef: bool)
    ensures |Comment(lines, types, mark, inDef)| == |lines| + Blocks(lines, types, inDef)
    decreases |lines|
  {
    if lines != [] {
      OneMarkerPerBlock(lines[1..], types, mark, Inside(lines[0], types, inDef));
    }
  }

  // ---------------------------------------------------------------------------------------
  // Which lines are commented out
  // ---------------------------------------------------------------------------------------

  /** Some definition starts on an earlier line and has not ended before line i. */
  ghost predicate Open(lines: seq<string>, types: seq<string>, i: nat)
    requires i <= |lines|
  {
    Unended(Starts(lines, types), Ends(lines), i)
  }

  ghost function Starts(lines: seq<string>, types: seq<string>): (r: seq<bool>)
    ensures |r| == |lines|
  {
    seq(|lines|, k requires 0 <= k < |lines| => IsTypeDefStart(lines[k], types))
  }

  ghost function Ends(lines: seq<string>): (r: seq<bool>)
    ensures |r| == |lines|
  {
    seq(|lines|, k requires 0 <= k < |lines| => IsTypeDefEnd(lines[k]))
  }

  /** There is a start before i, and no end from it on. */
  ghost predicate Unended(starts: seq<bool>, ends: seq<bool>, i: nat)
    requires i <= |starts| == |ends|
  {
    exists j :: 0 <= j < i && starts[j] && NoEnd(ends, j, i)
  }

  ghost predicate NoEnd(ends: seq<bool>, j: nat, i: nat)
    requires j <= i <= |ends|
  {
    forall k :: j <= k < i ==> !ends[k]
  }

  lemma {:induction false} UnendedNext(starts: seq<bool>, ends: seq<bool>, i: nat)
    requires i < |starts| == |ends|
    ensures Unended(starts, ends, i + 1) <==> (Unended(starts, ends, i) || starts[i]) && !ends[i]
  {
    if Unended(starts, ends, i) && !ends[i] {
      var j :| 0 <= j < i && starts[j] && NoEnd(ends, j, i);
      assert NoEnd(ends, j, i + 1);
    }
    if starts[i] && !ends[i] {
      assert NoEnd(ends, i, i + 1);
    }
    if Unended(starts, ends, i + 1) {
      var j :| 0 <= j < i + 1 && starts[j] && NoEnd(ends, j, i + 1);
      assert j < i ==> NoEnd(ends, j, i);
    }
  }

  /** What becomes of line i: inside an open definition it is commented out, on its first line it is
      announced by the marker as well, and everywhere else it stays as it is. */
  ghost function Rewritten(lines: seq<string>, types: seq<string>, mark: string, i: nat): seq<string>
    requires i < |lines|
  {
    if Open(lines, types, i) then ["// " + lines[i]]
    else if IsTypeDefStart(lines[i], types) then [mark, "// " + lines[i]]
    else [lines[i]]
  }

  ghost function RewrittenFrom(lines: seq<string>, types: seq<string>, mark: string, i: nat): seq<string>
    requires i <= |lines|
    decreases |lines| - i
  {
    if i == |lines| then []
    else Rewritten(lines, types, mark, i) + RewrittenFrom(lines, types, mark, i + 1)
  }

  /** The state of the scan says whether a definition is open. */
  lemma {:induction false} InsideIsOpen(lines: seq<string>, types: seq<string>, i: nat)
    requires i < |lines|
    ensures Inside(lines[i], types, Open(lines, types, i)) <==> Open(lines, types, i + 1)
  {
    UnendedNext(Starts(lines, types), Ends(lines), i);
  }

  /** The scan rewrites every line by what is open there, and adds nothing else. */
  lemma {:induction false} ScanRewrites(lines: seq<string>, types: seq<string>, mark: string, i: nat)
    requires i <= |lines|
    ensures Comment(lines[i..], types, mark, Open(lines, types, i)) == RewrittenFrom(lines, types, mark, i)
    decreases |lines| - i
  {
    if i < |lines| {
      InsideIsOpen(lines, types, i);
      assert lines[i..][1..] == lines[i + 1..];
      ScanRewrites(lines, types, mark, i + 1);
    }
  }

  /** Commenting comments out exactly the lines from the start of a definition to its end. */
  lemma {:induction false} CommentedExactly(lines: seq<string>, types: seq<string>, mark: string)
    ensures Comment(lines, types, mark, false) == RewrittenFrom(lines, types, mark, 0)
  {
    assert lines[0..] == lines && !Open(lines, types, 0);
    ScanRewrites(lines, types, mark, 0);
  }

  // ---------------------------------------------------------------------------------------
  // The way back
  // ---------------------------------------------------------------------------------------

  function Strip(line: string): string {
    TrimPrefix(line, "// ")
  }

  /** Drops a marker line and uncomments from there to the end of the definition. */
  function Uncomment(lines: seq<string>, mark: string, inDef: bool): seq<string> {
    if lines == [] then []
    else if inDef then [Strip(lines[0])] + Uncomment(lines[1..], mark, !IsTypeDefEnd(Strip(lines[0])))
    else if lines[0] == mark then Uncomment(lines[1..], mark, true)
    else [lines[0]] + Uncomment(lines[1..], mark, false)
  }

  function UncommentText(text: string, mark: string): string {
    Join(Uncomment(Split(text, '\n'), mark, false), '\n')
  }

  /** No line outside a definition is the marker line. */
  ghost predicate NoStrayMarker(lines: seq<string>, types: seq<string>, mark: string, inDef: bool)
    decreases |lines|
  {
    lines == [] ||
    (&& (inDef || lines[0] != mark)
     && NoStrayMarker(lines[1..], types, mark, Inside(lines[0], types, inDef)))
  }

  lemma {:induction false} ConsEqual(a: string, xs: seq<string>, ys: seq<string>)
    ensures [a] + xs == [a] + ys <==> xs == ys
  {
    assert ([a] + xs)[1..] == xs && ([a] + ys)[1..] == ys;
  }

  lemma {:induction false} DifferentHeads(a: string, xs: seq<string>, b: string, ys: seq<string>)
    requires a != b
    ensures [a] + xs != [b] + ys
  {
    assert ([a] + xs)[0] != ([b] + ys)[0];
  }

  lemma {:induction false} StripComment(line: string)
    ensures Strip("// " + line) == line
  {
    assert "// " <= "// " + line;
    assert ("// " + line)[3..] == line;
  }

  lemma {:induction false} UncommentInside(line: string, rest: seq<string>, mark: string)
    ensures Uncomment([line] + rest, mark, true) == [Strip(line)] + Uncomment(rest, mark, !IsTypeDefEnd(Strip(line)))
  {
    assert ([line] + rest)[1..] == rest;
  }

  lemma {:induction false} UncommentOutside(line: string, rest: seq<string>, mark: string)
    ensures Uncomment([line] + rest, mark, false) ==
            if line == mark then Uncomment(rest, mark, true) else [line] + Uncomment(rest, mark, false)
  {
    assert ([line] + rest)[1..] == rest;
  }

  /** One input line, commented and brought back. */
  lemma {:induction false} LineComesBack(line: string, rest: seq<string>, types: seq<string>, mark: string, inDef: bool)
    requires GoodMark(mark)
    requires inDef || IsTypeDefStart(line, types) || line != mark
    ensures Uncomment(Emit(line, types, mark, inDef) + rest, mark, inDef) ==
            [line] + Uncomment(rest, mark, Inside(line, types, inDef))
  {
    StripComment(line);
    if inDef {
      UncommentInside("// " + line, rest, mark);
    } else if IsTypeDefStart(line, types) {
      assert [mark, "// " + line] + rest == [mark] + (["// " + line] + rest);
      UncommentOutside(mark, ["// " + line] + rest, mark);
      UncommentInside("// " + line, rest, mark);
    } else {
      UncommentOutside(line, rest, mark);
    }
  }

  /** After a stray marker the way back runs one line ahead and never catches up. */
  lemma {:induction false} NeverCatchesUp(comment: string, lines: seq<string>, types: seq<string>, mark: string)
    requires GoodMark(mark)
    requires "// " <= comment
    ensures Uncomment(Comment(lines, types, mark, false), mark, true) != [comment] + lines
    decreases |lines|
  {
    if lines != [] {
      var y, rest := lines[0], lines[1..];
      var out := Comment(rest, types, mark, Inside(y, types, false));
      if IsTypeDefStart(y, types) {
        assert Emit(y, types, mark, false) + out == [mark] + (["// " + y] + out);
        UncommentInside(mark, ["// " + y] + out, mark);
        DifferentHeads(Strip(mark), Uncomment(["// " + y] + out, mark, !IsTypeDefEnd(Strip(mark))), comment, lines);
      } else {
        UncommentInside(y, out, mark);
        if Strip(y) == comment {
          StripIsComment(y);
          CommentsAreInert(comment, types);
          NeverCatchesUp(y, rest, types, mark);
          assert lines == [y] + rest;
          ConsEqual(comment, Uncomment(out, mark, true), lines);
        } else {
          DifferentHeads(Strip(y), Uncomment(out, mark, !IsTypeDefEnd(Strip(y))), comment, lines);
        }
      }
    }
  }

  lemma {:induction false} StripIsComment(line: string)
    requires "// " <= Strip(line)
    ensures "// " <= line
  {
  }

  /** Uncommenting gives the lines back exactly when no line outside a definition is the marker. */
  lemma {:induction false} LinesComeBackExactlyWhen(lines: seq<string>, types: seq<string>, mark: string, inDef: bool)
    requires GoodMark(mark)
    ensures Uncomment(Comment(lines, types, mark, inDef), mark, inDef) == lines <==>
            NoStrayMarker(lines, types, mark, inDef)
    decreases |lines|
  {
    if lines != [] {
      var y, rest, next := lines[0], lines[1..], Inside(lines[0], types, inDef);
      var out := Comment(rest, types, mark, next);
      assert lines == [y] + rest;
      CommentsAreInert(mark, types);
      if inDef || IsTypeDefStart(y, types) || y != mark {
        LineComesBack(y, out, types, mark, inDef);
        LinesComeBackExactlyWhen(rest, types, mark, next);
        ConsEqual(y, Uncomment(out, mark, next), rest);
      } else {
        UncommentOutside(y, out, mark);
        NeverCatchesUp(y, rest, types, mark);
      }
    }
  }

  lemma {:induction false} BackIsOneLineEach(lines: seq<string>, mark: string, inDef: bool)
    requires OneLineEach(lines)
    ensures OneLineEach(Uncomment(lines, mark, inDef))
    ensures Uncomment(lines, mark, inDef) == [] ==> lines == [] || lines == [mark]
    decreases |lines|
  {
    if lines != [] {
      BackIsOneLineEach(lines[1..], mark, true);
      BackIsOneLineEach(lines[1..], mark, false);
      if inDef {
        BackIsOneLineEach(lines[1..], mark, !IsTypeDefEnd(Strip(lines[0])));
      } else if lines[0] == mark && Uncomment(lines[1..], mark, true) == [] {
        assert lines[1..] == [];
        assert lines == [mark];
      }
    }
  }

  lemma {:induction false} JoinInjective(xs: seq<string>, ys: seq<string>)
    requires |xs| > 0 && |ys| > 0 && OneLineEach(xs) && OneLineEach(ys)
    ensures Join(xs, '\n') == Join(ys, '\n') <==> xs == ys
  {
    SplitJoin(xs, '\n');
    SplitJoin(ys, '\n');
  }

  /** A text comes back from its commented form exactly when none of its lines outside the
      definitions is the marker line. */
  lemma {:induction false} TextComesBackExactlyWhen(content: string, types: seq<string>, mark: string)
    requires GoodMark(mark)
    ensures UncommentText(CommentText(content, types, mark), mark) == content <==>
            NoStrayMarker(Split(content, '\n'), types, mark, false)
  {
    var lines := Split(content, '\n');
    var out := Comment(lines, types, mark, false);
    var back := Uncomment(out, mark, false);
    OutputLines(lines, types, mark, false);
    SplitJoin(out, '\n');
    BackIsOneLineEach(out, mark, false);
    LinesComeBackExactlyWhen(lines, types, mark, false);
    JoinSplit(content, '\n');
    if back == [] {
      OneMarkerPerBlock(lines, types, mark, false);
      assert lines == [lines[0]];
      CommentsAreInert(mark, types);
      assert out == Emit(lines[0], types, mark, false) + Comment([], types, mark, Inside(lines[0], types, false));
      assert lines == [mark];
    } else {
      JoinInjective(back, lines);
    }
  }
}
