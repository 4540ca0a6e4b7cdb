/** Which texts can be told from their commented form (contracts/bindings/scripts/commenttypes.go).
    The scanner here looks ahead before it takes a marker line for a marker; it gives back one text
    for every commented form, and more than that no scanner can do. */
module CommentInverse {
  import opened Strings
  import opened CommentTypes

  /** A comment line without line breaks whose text starts no definition. */
  ghost predicate PlainMark(mark: string, types: seq<string>) {
    GoodMark(mark) && !IsTypeDefStart(Strip(mark), types)
  }

  lemma {:induction false} MarkerIsPlain(types: seq<string>)
    ensures PlainMark(MARKER, types)
  {
    MarkerIsGood();
    var text := Strip(MARKER);
    assert text == MARKER[3..];
    TrimKeepsFirst(text);
    forall i | 0 <= i < |types|
      ensures !("type " + types[i] <= TrimSpace(text))
    {
      assert ("type " + types[i])[0] == 't';
    }
  }

  predicate IsComment(line: string) {
    "// " <= line
  }

  /** The lines go on as a commented definition does: comments up to one that holds the end of the
      definition, or up to the end of the text. */
  predicate BlockGoesOn(lines: seq<string>)
    decreases |lines|
  {
    lines == [] || (IsComment(lines[0]) && (IsTypeDefEnd(Strip(lines[0])) || BlockGoesOn(lines[1..])))
  }

  /** The lines start with a whole commented definition, marker first. */
  predicate LooksCommented(lines: seq<string>, types: seq<string>, mark: string) {
    && |lines| >= 2 && lines[0] == mark
    && IsComment(lines[1]) && IsTypeDefStart(Strip(lines[1]), types)
    && BlockGoesOn(lines[2..])
  }

  function Restore(lines: seq<string>, types: seq<string>, mark: string, inDef: bool): seq<string>
    decreases |lines|
  {
    if lines == [] then []
    else if inDef then [Strip(lines[0])] + Restore(lines[1..], types, mark, !IsTypeDefEnd(Strip(lines[0])))
    else if LooksCommented(lines, types, mark) then Restore(lines[1..], types, mark, true)
    else [lines[0]] + Restore(lines[1..], types, mark, false)
  }

  // ---------------------------------------------------------------------------------------
  // One text for every commented form
  // ---------------------------------------------------------------------------------------

  lemma {:induction false} CommentCons(y: string, rest: seq<string>, types: seq<string>, mark: string, inDef: bool)
    ensures Comment([y] + rest, types, mark, inDef) ==
            Emit(y, types, mark, inDef) + Comment(rest, types, mark, Inside(y, types, inDef))
  {
    assert ([y] + rest)[1..] == rest;
  }

  lemma {:induction false} StripAndComment(line: string)
    requires IsComment(line)
    ensures "// " + Strip(line) == line
  {
  }

  lemma {:induction false} HeadAndRest(lines: seq<string>)
    requires lines != []
    ensures lines == [lines[0]] + lines[1..]
    ensures |lines| >= 2 ==>
        lines == [lines[0], lines[1]] + lines[2..] && lines[1..][0] == lines[1] && lines[1..][1..] == lines[2..]
  {
  }

  lemma {:induction false} NoStartsRest(lines: seq<string>, types: seq<string>)
    requires lines != [] && NoStarts(lines, types)
    ensures NoStarts(lines[1..], types) && !IsTypeDefStart(lines[0], types)
    ensures |lines| >= 2 ==> NoStarts(lines[2..], types)
  {
  }

  /** Commenting what the scanner makes of inert lines gives these lines. */
  lemma {:induction false} RestoredIsOrigin(lines: seq<string>, types: seq<string>, mark: string, inDef: bool)
    requires NoStarts(lines, types)
    requires inDef ==> BlockGoesOn(lines)
    ensures Comment(Restore(lines, types, mark, inDef), types, mark, inDef) == lines
    decreases |lines|
  {
    if lines != [] {
      HeadAndRest(lines);
      NoStartsRest(lines, types);
      if inDef {
        var y := Strip(lines[0]);
        StripAndComment(lines[0]);
        RestoredIsOrigin(lines[1..], types, mark, !IsTypeDefEnd(y));
        CommentCons(y, Restore(lines[1..], types, mark, !IsTypeDefEnd(y)), types, mark, true);
      } else if LooksCommented(lines, types, mark) {
        var y := Strip(lines[1]);
        StripAndComment(lines[1]);
        StartIsNotEnd(y, types);
        RestoredIsOrigin(lines[2..], types, mark, true);
        assert Restore(lines[1..], types, mark, true) == [y] + Restore(lines[2..], types, mark, true);
        CommentCons(y, Restore(lines[2..], types, mark, true), types, mark, false);
      } else {
        RestoredIsOrigin(lines[1..], types, mark, false);
        CommentCons(lines[0], Restore(lines[1..], types, mark, false), types, mark, false);
      }
    }
  }

  // ---------------------------------------------------------------------------------------
  // Which text that is
  // ---------------------------------------------------------------------------------------

  /** Once commented, the lines go on as a commented definition does: a definition among them is
      commented to its end. */
  predicate WillGoOn(lines: seq<string>, types: seq<string>)
    decreases |lines|
  {
    || lines == []
    || IsTypeDefStart(lines[0], types)
    || (IsComment(lines[0]) && (IsTypeDefEnd(Strip(lines[0])) || WillGoOn(lines[1..], types)))
  }

  /** A marker line of the text itself that, once the text is commented, heads what looks like a
      commented definition. */
  predicate FalseMarker(lines: seq<string>, types: seq<string>, mark: string) {
    && |lines| >= 2 && lines[0] == mark
    && IsComment(lines[1]) && IsTypeDefStart(Strip(lines[1]), types)
    && WillGoOn(lines[2..], types)
  }

  /** No line outside the definitions is a false marker. */
  predicate NoFalseMarker(lines: seq<string>, types: seq<string>, mark: string, inDef: bool)
    decreases |lines|
  {
    lines == [] ||
    (&& (inDef || !FalseMarker(lines, types, mark))
     && NoFalseMarker(lines[1..], types, mark, Inside(lines[0], types, inDef)))
  }

  lemma {:induction false} BlockCons(line: string, rest: seq<string>)
    ensures BlockGoesOn([line] + rest) <==> IsComment(line) && (IsTypeDefEnd(Strip(line)) || BlockGoesOn(rest))
  {
    assert ([line] + rest)[1..] == rest;
  }

  /** Inside a definition everything is commented to its end. */
  lemma {:induction false} InsideGoesOn(lines: seq<string>, types: seq<string>, mark: string)
    ensures BlockGoesOn(Comment(lines, types, mark, true))
    decreases |lines|
  {
    if lines != [] {
      var rest := Comment(lines[1..], types, mark, Inside(lines[0], types, true));
      StripComment(lines[0]);
      BlockCons("// " + lines[0], rest);
      if !IsTypeDefEnd(lines[0]) {
        InsideGoesOn(lines[1..], types, mark);
      }
    }
  }

  lemma {:induction false} GoesOnWhenCommented(lines: seq<string>, types: seq<string>, mark: string)
    requires GoodMark(mark)
    ensures BlockGoesOn(Comment(lines, types, mark, false)) <==> WillGoOn(lines, types)
    decreases |lines|
  {
    if lines != [] {
      var y := lines[0];
      var rest := Comment(lines[1..], types, mark, Inside(y, types, false));
      if IsTypeDefStart(y, types) {
        StartIsNotEnd(y, types);
        InsideGoesOn(lines[1..], types, mark);
        StripComment(y);
        assert [mark, "// " + y] + rest == [mark] + (["// " + y] + rest);
        BlockCons("// " + y, rest);
        BlockCons(mark, ["// " + y] + rest);
      } else {
        GoesOnWhenCommented(lines[1..], types, mark);
        BlockCons(y, rest);
      }
    }
  }

  lemma {:induction false} LooksAt(first: string, second: string, rest: seq<string>, types: seq<string>, mark: string)
    ensures LooksCommented([first, second] + rest, types, mark) <==>
            first == mark && IsComment(second) && IsTypeDefStart(Strip(second), types) && BlockGoesOn(rest)
  {
    assert ([first, second] + rest)[2..] == rest;
  }

  lemma {:induction false} LooksAtTwo(first: string, second: string, rest: seq<string>, types: seq<string>,
                                      mark: string)
    ensures LooksCommented([first] + ([second] + rest), types, mark) <==>
            first == mark && IsComment(second) && IsTypeDefStart(Strip(second), types) && BlockGoesOn(rest)
  {
    assert [first] + ([second] + rest) == [first, second] + rest;
    LooksAt(first, second, rest, types, mark);
  }

  /** An outside line heads what looks like a commented definition exactly when it is a false marker. */
  lemma {:induction false} LooksCommentedWhen(lines: seq<string>, types: seq<string>, mark: string)
    requires PlainMark(mark, types)
    requires lines != [] && !IsTypeDefStart(lines[0], types)
    ensures LooksCommented(Comment(lines, types, mark, false), types, mark) <==> FalseMarker(lines, types, mark)
  {
    var rest := lines[1..];
    assert Comment(lines, types, mark, false) == [lines[0]] + Comment(rest, types, mark, false);
    if rest != [] {
      var y := rest[0];
      assert rest[1..] == lines[2..];
      if IsTypeDefStart(y, types) {
        var tail := Comment(rest[1..], types, mark, true);
        StartIsNotEnd(y, types);
        assert Comment(rest, types, mark, false) == [mark] + (["// " + y] + tail);
        LooksAtTwo(lines[0], mark, ["// " + y] + tail, types, mark);
        NotComment(y, types);
      } else {
        var tail := Comment(rest[1..], types, mark, false);
        assert Comment(rest, types, mark, false) == [y] + tail;
        LooksAtTwo(lines[0], y, tail, types, mark);
        GoesOnWhenCommented(rest[1..], types, mark);
      }
    }
  }

  lemma {:induction false} NotComment(y: string, types: seq<string>)
    requires IsTypeDefStart(y, types)
    ensures !IsComment(y)
  {
    if IsComment(y) {
      CommentsAreInert(y, types);
    }
  }

  lemma {:induction false} RestoreInside(line: string, rest: seq<string>, types: seq<string>, mark: string)
    ensures Restore([line] + rest, types, mark, true) ==
            [Strip(line)] + Restore(rest, types, mark, !IsTypeDefEnd(Strip(line)))
  {
    assert ([line] + rest)[1..] == rest;
  }

  lemma {:induction false} RestoreOutside(line: string, rest: seq<string>, types: seq<string>, mark: string)
    requires !LooksCommented([line] + rest, types, mark)
    ensures Restore([line] + rest, types, mark, false) == [line] + Restore(rest, types, mark, false)
  {
    assert ([line] + rest)[1..] == rest;
  }

  lemma {:induction false} RestoreBlock(y: string, rest: seq<string>, types: seq<string>, mark: string)
    requires IsTypeDefStart(y, types) && BlockGoesOn(rest)
    ensures Restore([mark, "// " + y] + rest, types, mark, false) == [y] + Restore(rest, types, mark, true)
  {
    var all := [mark, "// " + y] + rest;
    StripComment(y);
    StartIsNotEnd(y, types);
    LooksAt(mark, "// " + y, rest, types, mark);
    assert all[1..] == ["// " + y] + rest;
    RestoreInside("// " + y, rest, types, mark);
  }

  /** One line of the text and how the scanner brings it back, unless it is a false marker. */
  lemma {:induction false} LineRestored(lines: seq<string>, types: seq<string>, mark: string, inDef: bool)
    requires PlainMark(mark, types)
    requires lines != [] && (inDef || !FalseMarker(lines, types, mark))
    ensures var next := Inside(lines[0], types, inDef);
            Restore(Comment(lines, types, mark, inDef), types, mark, inDef) ==
            [lines[0]] + Restore(Comment(lines[1..], types, mark, next), types, mark, next)
  {
    var y := lines[0];
    var rest := Comment(lines[1..], types, mark, Inside(y, types, inDef));
    if inDef {
      StripComment(y);
      RestoreInside("// " + y, rest, types, mark);
    } else if IsTypeDefStart(y, types) {
      StartIsNotEnd(y, types);
      InsideGoesOn(lines[1..], types, mark);
      RestoreBlock(y, rest, types, mark);
    } else {
      LooksCommentedWhen(lines, types, mark);
      RestoreOutside(y, rest, types, mark);
    }
  }

  /** At a false marker the scanner gives back a definition instead. */
  lemma {:induction false} FalseMarkerMisleads(lines: seq<string>, types: seq<string>, mark: string)
    requires PlainMark(mark, types)
    requires lines != [] && FalseMarker(lines, types, mark)
    ensures Restore(Comment(lines, types, mark, false), types, mark, false) != lines
  {
    CommentsAreInert(mark, types);
    CommentsAreInert(lines[1], types);
    LooksCommentedWhen(lines, types, mark);
    var out := Comment(lines, types, mark, false);
    var tail := Comment(lines[1..][1..], types, mark, false);
    assert Comment(lines[1..], types, mark, false) == [lines[1]] + tail;
    assert out[1..] == [lines[1]] + tail;
    RestoreInside(lines[1], tail, types, mark);
  }

  /** The scanner gives a text back exactly when it has no false marker. */
  lemma {:induction false} RestoredExactlyWhen(lines: seq<string>, types: seq<string>, mark: string, inDef: bool)
    requires PlainMark(mark, types)
    ensures Restore(Comment(lines, types, mark, inDef), types, mark, inDef) == lines <==>
            NoFalseMarker(lines, types, mark, inDef)
    decreases |lines|
  {
    if lines != [] {
      if !inDef && FalseMarker(lines, types, mark) {
        FalseMarkerMisleads(lines, types, mark);
      } else {
        var next := Inside(lines[0], types, inDef);
        LineRestored(lines, types, mark, inDef);
        RestoredExactlyWhen(lines[1..], types, mark, next);
        HeadAndRest(lines);
        ConsEqual(lines[0], Restore(Comment(lines[1..], types, mark, next), types, mark, next), lines[1..]);
      }
    }
  }

  // ---------------------------------------------------------------------------------------
  // Texts determined by their commented form
  // ---------------------------------------------------------------------------------------

  /** No other text has the same commented form. */
  ghost predicate Determined(lines: seq<string>, types: seq<string>, mark: string) {
    forall other :: Comment(other, types, mark, false) == Comment(lines, types, mark, false) ==> other == lines
  }

  /** A text that nothing was commented in is untouched. */
  lemma {:induction false} NoBlocksNoStarts(lines: seq<string>, types: seq<string>)
    requires Blocks(lines, types, false) == 0
    ensures NoStarts(lines, types)
    decreases |lines|
  {
    if lines != [] {
      NoBlocksNoStarts(lines[1..], types);
    }
  }

  lemma {:induction false} NoStartsNoBlocks(lines: seq<string>, types: seq<string>)
    requires NoStarts(lines, types)
    ensures Blocks(lines, types, false) == 0
    decreases |lines|
  {
    if lines != [] {
      NoStartsNoBlocks(lines[1..], types);
    }
  }

  /** A text is determined by its commented form exactly when it has neither a definition to comment
      out nor a false marker: commented text is a possible input too. */
  lemma {:induction false} DeterminedExactlyWhen(lines: seq<string>, types: seq<string>, mark: string)
    requires PlainMark(mark, types)
    ensures Determined(lines, types, mark) <==>
            Blocks(lines, types, false) == 0 && NoFalseMarker(lines, types, mark, false)
  {
    var out := Comment(lines, types, mark, false);
    OutputIsInert(lines, types, mark, false);
    NothingToComment(out, types, mark);
    OneMarkerPerBlock(lines, types, mark, false);
    RestoredIsOrigin(out, types, mark, false);
    RestoredExactlyWhen(lines, types, mark, false);
    if Determined(lines, types, mark) {
      assert out == lines;
      assert Restore(out, types, mark, false) == lines;
    }
    if Blocks(lines, types, false) == 0 && NoFalseMarker(lines, types, mark, false) {
      forall other | Comment(other, types, mark, false) == out
        ensures other == lines
      {
        OnlyOrigin(lines, types, mark, other);
      }
    }
  }

  /** Untouched lines without a false marker come from themselves only. */
  lemma {:induction false} OnlyOrigin(lines: seq<string>, types: seq<string>, mark: string, other: seq<string>)
    requires PlainMark(mark, types)
    requires Blocks(lines, types, false) == 0 && NoFalseMarker(lines, types, mark, false)
    requires Comment(other, types, mark, false) == Comment(lines, types, mark, false)
    ensures other == lines
    decreases |other|
  {
    NoBlocksNoStarts(lines, types);
    NothingToComment(lines, types, mark);
    if other != [] {
      var y := other[0];
      assert lines != [];
      HeadAndRest(other);
      HeadAndRest(lines);
      if IsTypeDefStart(y, types) {
        BlockIsFalseMarker(lines, types, mark, other);
      } else {
        assert lines[1..] == Comment(other[1..], types, mark, false);
        NoStartsRest(lines, types);
        NothingToComment(lines[1..], types, mark);
        NoStartsNoBlocks(lines[1..], types);
        OnlyOrigin(lines[1..], types, mark, other[1..]);
      }
    }
  }

  lemma {:induction false} GoesOnWillGoOn(lines: seq<string>, types: seq<string>)
    requires BlockGoesOn(lines)
    ensures WillGoOn(lines, types)
    decreases |lines|
  {
    if lines != [] && !IsTypeDefEnd(Strip(lines[0])) {
      GoesOnWillGoOn(lines[1..], types);
    }
  }

  lemma {:induction false} BlockIsFalseMarker(lines: seq<string>, types: seq<string>, mark: string, other: seq<string>)
    requires other != [] && IsTypeDefStart(other[0], types)
    requires lines == Comment(other, types, mark, false)
    ensures FalseMarker(lines, types, mark)
  {
    var rest := Comment(other[1..], types, mark, true);
    StartIsNotEnd(other[0], types);
    StripComment(other[0]);
    InsideGoesOn(other[1..], types, mark);
    GoesOnWillGoOn(rest, types);
    assert lines == [mark, "// " + other[0]] + rest;
    assert lines[2..] == rest;
  }

  // ---------------------------------------------------------------------------------------
  // Whole texts
  // ---------------------------------------------------------------------------------------

  function RestoreText(text: string, types: seq<string>, mark: string): string {
    Join(Restore(Split(text, '\n'), types, mark, false), '\n')
  }

  lemma {:induction false} RestoredLines(lines: seq<string>, types: seq<string>, mark: string, inDef: bool)
    requires OneLineEach(lines)
    ensures OneLineEach(Restore(lines, types, mark, inDef))
    ensures lines != [] ==> Restore(lines, types, mark, inDef) != []
    decreases |lines|
  {
    if lines != [] {
      if inDef {
        RestoredLines(lines[1..], types, mark, !IsTypeDefEnd(Strip(lines[0])));
      } else if LooksCommented(lines, types, mark) {
        RestoredLines(lines[1..], types, mark, true);
      } else {
        RestoredLines(lines[1..], types, mark, false);
      }
    }
  }

  lemma {:induction false} CommentedLines(content: string, types: seq<string>, mark: string)
    requires GoodMark(mark)
    ensures var out := Comment(Split(content, '\n'), types, mark, false);
            OneLineEach(out) && out != [] && Split(CommentText(content, types, mark), '\n') == out
  {
    OutputLines(Split(content, '\n'), types, mark, false);
    SplitJoin(Comment(Split(content, '\n'), types, mark, false), '\n');
  }

  /** Two texts have the same commented form exactly when their lines do. */
  lemma {:induction false} SameCommentText(x: string, y: string, types: seq<string>, mark: string)
    requires GoodMark(mark)
    ensures CommentText(x, types, mark) == CommentText(y, types, mark) <==>
            Comment(Split(x, '\n'), types, mark, false) == Comment(Split(y, '\n'), types, mark, false)
  {
    CommentedLines(x, types, mark);
    CommentedLines(y, types, mark);
  }

  lemma {:induction false} SameText(x: string, y: string)
    ensures x == y <==> Split(x, '\n') == Split(y, '\n')
  {
    JoinSplit(x, '\n');
    JoinSplit(y, '\n');
  }

  lemma {:induction false} LinesOfRestored(content: string, types: seq<string>, mark: string)
    requires GoodMark(mark)
    ensures var out := Comment(Split(content, '\n'), types, mark, false);
            Split(RestoreText(CommentText(content, types, mark), types, mark), '\n') == Restore(out, types, mark, false)
  {
    var out := Comment(Split(content, '\n'), types, mark, false);
    CommentedLines(content, types, mark);
    RestoredLines(out, types, mark, false);
    SplitJoin(Restore(out, types, mark, false), '\n');
  }

  /** The scanner finds a text for every commented form, and it is the original exactly when that has
      no false marker.  Any scanner gives back at most one text for each form, so none gives back more. */
  lemma {:induction false} TextRestoredExactlyWhen(content: string, types: seq<string>, mark: string)
    requires PlainMark(mark, types)
    ensures var out := CommentText(content, types, mark);
            && CommentText(RestoreText(out, types, mark), types, mark) == out
            && (RestoreText(out, types, mark) == content <==> NoFalseMarker(Split(content, '\n'), types, mark, false))
  {
    var lines := Split(content, '\n');
    var out := Comment(lines, types, mark, false);
    var back := RestoreText(CommentText(content, types, mark), types, mark);
    LinesOfRestored(content, types, mark);
    OutputIsInert(lines, types, mark, false);
    RestoredIsOrigin(out, types, mark, false);
    RestoredExactlyWhen(lines, types, mark, false);
    SameCommentText(back, content, types, mark);
    SameText(back, content);
  }

  ghost predicate DeterminedText(content: string, types: seq<string>, mark: string) {
    forall other :: CommentText(other, types, mark) == CommentText(content, types, mark) ==> other == content
  }

  /** The texts that any scanner at all could tell from their commented form among all texts. */
  lemma {:induction false} TextDeterminedExactlyWhen(content: string, types: seq<string>, mark: string)
    requires PlainMark(mark, types)
    ensures DeterminedText(content, types, mark) <==>
            var lines := Split(content, '\n');
            Blocks(lines, types, false) == 0 && NoFalseMarker(lines, types, mark, false)
  {
    var lines := Split(content, '\n');
    TextRestoredExactlyWhen(content, types, mark);
    DeterminedExactlyWhen(lines, types, mark);
    if DeterminedText(content, types, mark) {
      CommentingTwice(content, types, mark);
      assert CommentText(content, types, mark) == content;
      CommentedLines(content, types, mark);
      OneMarkerPerBlock(lines, types, mark, false);
    }
    if Determined(lines, types, mark) {
      forall other | CommentText(other, types, mark) == CommentText(content, types, mark)
        ensures other == content
      {
        SameCommentText(other, content, types, mark);
        SameText(other, content);
      }
    }
  }

  /** All of this for the marker that the program writes. */
  lemma {:induction false} MarkerTexts(content: string, types: seq<string>)
    ensures var out, lines := CommentText(content, types, MARKER), Split(content, '\n');
            && CommentText(RestoreText(out, types, MARKER), types, MARKER) == out
            && (RestoreText(out, types, MARKER) == content <==> NoFalseMarker(lines, types, MARKER, false))
            && (DeterminedText(content, types, MARKER) <==>
                  Blocks(lines, types, false) == 0 && NoFalseMarker(lines, types, MARKER, false))
  {
    MarkerIsPlain(types);
    TextRestoredExactlyWhen(content, types, MARKER);
    TextDeterminedExactlyWhen(content, types, MARKER);
  }
}
