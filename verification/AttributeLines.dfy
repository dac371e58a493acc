/** The scanner and attribute lines: exactly when it finds the brace that closes the block in the
    language, what the fixer's deletion then removes, and where it goes wrong. */
module AttributeLines {
  import opened SourceText
  import opened Splice
  import opened BlockClose

  // ---------------------------------------------------------------------
  // When the scanner's answer is the language's.
  // ---------------------------------------------------------------------

  /** The lexer accepts the strings up to `e`: no control character stands in one. */
  ghost predicate Lexes(src: Source, start: nat, e: nat)
    requires start <= e <= |src|
  {
    forall i :: start <= i < e && src[i] < 32 ==> ModeAt(Language, src, start, i) !in {Str, Escape}
  }

  ghost predicate AttributeAt(src: Source, start: nat, i: nat)
    requires start <= i < |src|
  {
    ModeAt(Language, src, start, i) == Code && OpensAttribute(src, i)
  }

  /** Byte `i` lies in the rest of a line after the `#` of an attribute. */
  ghost predicate InTail(src: Source, start: nat, i: nat)
    requires start <= i <= |src|
  {
    i > start && !IsEol(src[i - 1]) && (InTail(src, start, i - 1) || AttributeAt(src, start, i - 1))
  }

  /** What the braces in the rests of attribute lines before `i` add to the depth. */
  ghost function Missed(src: Source, start: nat, i: nat): int
    requires start <= i <= |src|
  {
    if i == start then 0
    else
      Missed(src, start, i - 1) +
      if InTail(src, start, i - 1) then Weight(ModeAt(Language, src, start, i - 1), src[i - 1]) else 0
  }

  /** The scanner reads the rest of an attribute line as a comment, and misses exactly its braces;
      everything else it reads as the language does. */
  lemma {:induction false} ScannerMisses(src: Source, start: nat, i: nat)
    requires start <= i <= |src| && Lexes(src, start, i)
    ensures ModeAt(Scanner, src, start, i) ==
      if InTail(src, start, i) then Comment else ModeAt(Language, src, start, i)
    ensures Depth(Scanner, src, start, i) == Depth(Language, src, start, i) - Missed(src, start, i)
    decreases i
  {
    if i > start {
      ScannerMisses(src, start, i - 1);
    }
  }

  /** The condition: the block's brace stands in no attribute line's rest, and what those rests
      add to the depth is nothing at that brace, and never more than the depth before it. */
  ghost predicate TailsCancel(src: Source, start: nat, e: nat)
    requires start <= e < |src|
  {
    && !InTail(src, start, e) && Missed(src, start, e) == 0
    && forall i :: start <= i <= e ==> Missed(src, start, i) <= Depth(Language, src, start, i)
  }

  lemma {:induction false} NotBelowZero(rd: Reader, src: Source, start: nat, i: nat)
    requires start <= i <= |src| && forall k :: start <= k < i ==> !Closes(rd, src, start, k)
    ensures Depth(rd, src, start, i) >= 0
    decreases i
  {
    if i > start {
      NotBelowZero(rd, src, start, i - 1);
      assert !Closes(rd, src, start, i - 1);
    }
  }

  lemma {:induction false} BelowZeroCloses(rd: Reader, src: Source, start: nat, k: nat)
    requires start <= k < |src| && Closes(rd, src, start, k)
    ensures Depth(rd, src, start, k + 1) == -1
  {
  }

  /** The scanner finds the brace that closes the block in the language exactly if the braces in
      the rests of attribute lines cancel out on the way to it. */
  lemma ScannerIsRightExactly(src: Source, start: nat, e: nat)
    requires start <= e < |src| && Lexes(src, start, e) && IsFirstClose(Language, src, start, e)
    ensures IsFirstClose(Scanner, src, start, e) <==> TailsCancel(src, start, e)
  {
    hide Closes, Depth, ModeAt, Missed, InTail;
    forall i | start <= i <= e
      ensures ModeAt(Scanner, src, start, i) ==
        if InTail(src, start, i) then Comment else ModeAt(Language, src, start, i)
      ensures Depth(Scanner, src, start, i) == Depth(Language, src, start, i) - Missed(src, start, i)
    {
      ScannerMisses(src, start, i);
    }
    CloseIs(Language, src, start, e);
    CloseIs(Scanner, src, start, e);
    if IsFirstClose(Scanner, src, start, e) {
      forall i | start <= i <= e
        ensures Missed(src, start, i) <= Depth(Language, src, start, i)
      {
        NotBelowZero(Scanner, src, start, i);
      }
    }
    forall i | TailsCancel(src, start, e) && start <= i < e
      ensures !Closes(Scanner, src, start, i)
    {
      if Closes(Scanner, src, start, i) {
        BelowZeroCloses(Scanner, src, start, i);
      }
    }
  }

  lemma CloseIs(rd: Reader, src: Source, start: nat, i: nat)
    requires start <= i < |src|
    ensures Closes(rd, src, start, i) <==>
      ModeAt(rd, src, start, i) == Code && src[i] == CLOSE && Depth(rd, src, start, i) == 0
  {
  }

  // ---------------------------------------------------------------------
  // The condition, line by line.
  // ---------------------------------------------------------------------

  /** Where the line of byte `i` ends: at its line break, or at the end of the file. */
  function LineEnd(src: Source, i: nat): (n: nat)
    requires i <= |src|
    ensures i <= n <= |src| && (n < |src| ==> IsEol(src[n])) && forall k :: i <= k < n ==> !IsEol(src[k])
    decreases |src| - i
  {
    if i == |src| || IsEol(src[i]) then i else LineEnd(src, i + 1)
  }

  /** The rest of the attribute's line opens as many blocks as it closes, and ends before `e`. */
  ghost predicate IsNeutral(src: Source, start: nat, a: nat, e: nat)
    requires start <= a <= e < |src|
  {
    var n := LineEnd(src, a);
    n <= e && Depth(Language, src, start, n) == Depth(Language, src, start, a)
  }

  /** The attribute whose line's rest byte `i` lies in. */
  ghost function TailStart(src: Source, start: nat, i: nat): (a: nat)
    requires start <= i <= |src| && InTail(src, start, i)
    ensures start <= a < i
  {
    if InTail(src, start, i - 1) then TailStart(src, start, i - 1) else i - 1
  }

  lemma {:induction false} TailStartsAt(src: Source, start: nat, i: nat)
    requires start <= i <= |src| && InTail(src, start, i)
    ensures var a := TailStart(src, start, i);
      AttributeAt(src, start, a) && i <= LineEnd(src, a) && !InTail(src, start, a)
    decreases i
  {
    if InTail(src, start, i - 1) {
      TailStartsAt(src, start, i - 1);
    } else {
      assert LineEnd(src, i - 1) >= i;
    }
  }

  /** Every line that an attribute starts up to `e` is neutral. */
  ghost predicate NeutralLines(src: Source, start: nat, i: nat, e: nat)
    requires start <= i <= e < |src|
  {
    forall a :: start <= a < i && AttributeAt(src, start, a) && !InTail(src, start, a) ==> IsNeutral(src, start, a, e)
  }

  /** Up to the block's brace, what has been missed is what the current attribute line added. */
  lemma {:induction false} NeutralSoFar(src: Source, start: nat, e: nat, i: nat)
    requires start <= i <= e < |src| && NeutralLines(src, start, i, e)
    ensures !InTail(src, start, i) ==> Missed(src, start, i) == 0
    ensures InTail(src, start, i) ==>
      Missed(src, start, i) ==
        Depth(Language, src, start, i) - Depth(Language, src, start, TailStart(src, start, i))
    decreases i
  {
    if i > start {
      NeutralSoFar(src, start, e, i - 1);
      if InTail(src, start, i - 1) {
        TailStartsAt(src, start, i - 1);
        assert TailStart(src, start, i - 1) < i;
      }
    }
  }

  /** If every attribute line up to the block's brace is neutral, the scanner is right. */
  lemma NeutralLinesCancel(src: Source, start: nat, e: nat)
    requires start <= e < |src| && IsFirstClose(Language, src, start, e)
    requires NeutralLines(src, start, e, e)
    ensures TailsCancel(src, start, e)
  {
    hide Closes, Depth, ModeAt, Missed, InTail, AttributeAt, IsNeutral;
    assert src[e] == CLOSE by { CloseIs(Language, src, start, e); }
    forall i | start <= i <= e
      ensures !InTail(src, start, i) ==> Missed(src, start, i) == 0
      ensures Missed(src, start, i) <= Depth(Language, src, start, i)
    {
      NeutralSoFar(src, start, e, i);
      NotBelowZero(Language, src, start, i);
      if InTail(src, start, i) {
        TailStartsAt(src, start, i);
        NotBelowZero(Language, src, start, TailStart(src, start, i));
      }
    }
    if InTail(src, start, e) {
      TailStartsAt(src, start, e);
      TailEndsBefore(src, start, TailStart(src, start, e), e);
    }
  }

  lemma TailEndsBefore(src: Source, start: nat, a: nat, e: nat)
    requires start <= a < e < |src| && IsNeutral(src, start, a, e) && src[e] == CLOSE
    ensures LineEnd(src, a) < e
  {
  }

  /** Without attributes the two readings agree byte by byte. */
  lemma {:induction false} NoAttributesNoDifference(src: Source, start: nat, i: nat)
    requires start <= i <= |src| && forall a :: start <= a < i ==> !AttributeAt(src, start, a)
    ensures ModeAt(Scanner, src, start, i) == ModeAt(Language, src, start, i)
    ensures Depth(Scanner, src, start, i) == Depth(Language, src, start, i)
    decreases i
  {
    if i > start {
      hide ModeAt, Depth, AttributeAt;
      NoAttributesNoDifference(src, start, i - 1);
      ReadNext(src, start, i - 1);
    }
  }

  lemma ReadNext(src: Source, start: nat, i: nat)
    requires start <= i < |src| && !AttributeAt(src, start, i)
    requires ModeAt(Scanner, src, start, i) == ModeAt(Language, src, start, i)
    ensures ModeAt(Scanner, src, start, i + 1) == ModeAt(Language, src, start, i + 1)
    ensures Depth(Scanner, src, start, i + 1) - Depth(Language, src, start, i + 1) ==
      Depth(Scanner, src, start, i) - Depth(Language, src, start, i)
  {
  }

  /** What has been missed once the one attribute line at `a` has been passed. */
  lemma {:induction false} OneLineMissed(src: Source, start: nat, a: nat, e: nat, i: nat)
    requires start <= a < e < |src| && AttributeAt(src, start, a) && start <= i <= e
    requires forall k :: start <= k < e && AttributeAt(src, start, k) ==> a <= k < LineEnd(src, a)
    ensures InTail(src, start, i) <==> a < i <= LineEnd(src, a)
    ensures i <= a ==> Missed(src, start, i) == 0
    ensures a <= i <= LineEnd(src, a) ==>
      Missed(src, start, i) == Depth(Language, src, start, i) - Depth(Language, src, start, a)
    ensures i > LineEnd(src, a) ==> Missed(src, start, i) == Missed(src, start, LineEnd(src, a))
    decreases i
  {
    if i > start {
      OneLineMissed(src, start, a, e, i - 1);
    }
  }

  /** With attributes on one line only, the scanner finds the block's brace exactly if that line's
      rest does not hold it and opens as many blocks as it closes. */
  lemma OneAttributeLine(src: Source, start: nat, a: nat, e: nat)
    requires start <= a < e < |src| && Lexes(src, start, e) && IsFirstClose(Language, src, start, e)
    requires AttributeAt(src, start, a)
    requires forall k :: start <= k < e && AttributeAt(src, start, k) ==> a <= k < LineEnd(src, a)
    ensures IsFirstClose(Scanner, src, start, e) <==> IsNeutral(src, start, a, e)
  {
    ScannerIsRightExactly(src, start, e);
    hide Closes, Depth, ModeAt, Missed, InTail, AttributeAt, IsFirstClose, Lexes;
    var n := LineEnd(src, a);
    OneLineMissed(src, start, a, e, e);
    if IsNeutral(src, start, a, e) {
      forall k | start <= k < e && AttributeAt(src, start, k) && !InTail(src, start, k)
        ensures k == a
      {
        OneLineMissed(src, start, a, e, k);
      }
      NeutralLinesCancel(src, start, e);
    } else if n <= e {
      OneLineMissed(src, start, a, e, n);
    }
  }

  // ---------------------------------------------------------------------
  // The fixer's deletion.
  // ---------------------------------------------------------------------

  lemma {:induction false} RenderAppend(ps: seq<Piece>, qs: seq<Piece>)
    ensures Render(ps + qs) == Render(ps) + Render(qs)
    decreases |ps|
  {
    if ps == [] {
      assert ps + qs == qs;
    } else {
      assert (ps + qs)[0] == ps[0] && (ps + qs)[1..] == ps[1..] + qs;
      RenderAppend(ps[1..], qs);
    }
  }

  function DeadBlock(before: Source, dead: seq<Piece>, rest: Source): Source {
    before + Render(dead) + [CLOSE] + rest
  }

  /** The fixer's deletion of a dead run, any run of the language, removes the run and nothing
      else exactly if the scanner is right about its brace. */
  lemma DeletionKeepsTheRest(before: Source, dead: seq<Piece>, rest: Source, r: int, rule: string, line: nat)
    requires AllLexed(Language, dead)
    requires Lexes(DeadBlock(before, dead, rest), |before|, |before| + |Render(dead)|)
    requires IsFirstClose(Scanner, DeadBlock(before, dead, rest), |before|, r)
    ensures var src, e := DeadBlock(before, dead, rest), |before| + |Render(dead)|;
      && IsFirstClose(Language, src, |before|, e)
      && (r == e <==> TailsCancel(src, |before|, e))
      && (TailsCancel(src, |before|, e) <==>
            r >= 0 && Substitute(src, 0, [Edit(|before|, r, [], rule, line)]) == before + ([CLOSE] + rest))
  {
    var src, e := DeadBlock(before, dead, rest), |before| + |Render(dead)|;
    hide *;
    DeadBlockParts(before, dead, rest);
    BalancedRunCloses(Language, src, |before|, dead, rest);
    ScannerIsRightExactly(src, |before|, e);
    if TailsCancel(src, |before|, e) {
      FirstCloseIsUnique(Scanner, src, |before|, r, e);
    }
    ScannerAnswers(src, |before|, r);
    if r >= 0 {
      DeletesExactly(before, src, e, [CLOSE] + rest, r, rule, line);
    }
  }

  lemma DeadBlockParts(before: Source, dead: seq<Piece>, rest: Source)
    ensures var src, e := DeadBlock(before, dead, rest), |before| + |Render(dead)|;
      && e < |src| && src[..|before|] == before && src[e..] == [CLOSE] + rest
      && src[|before|..] == Render(dead) + [CLOSE] + rest
  {
    hide Render;
  }

  lemma ScannerAnswers(src: Source, start: nat, r: int)
    requires start <= |src| && IsFirstClose(Scanner, src, start, r)
    ensures r == -1 || start <= r < |src|
  {
  }

  lemma DeletesExactly(before: Source, src: Source, e: nat, rest: Source, r: nat, rule: string, line: nat)
    requires |before| <= e && |before| <= r < |src|
    requires src[..|before|] == before && e <= |src| && src[e..] == rest
    ensures Substitute(src, 0, [Edit(|before|, r, [], rule, line)]) == before + rest <==> r == e
  {
    DeletesTo(src, |before|, r, rule, line);
    hide Substitute;
    assert |before + src[r..]| == |before| + |src| - r && |before + rest| == |before| + |src| - e;
  }

  lemma DeletesTo(src: Source, start: nat, r: nat, rule: string, line: nat)
    requires start <= r <= |src|
    ensures Ordered(|src|, 0, [Edit(start, r, [], rule, line)])
    ensures Substitute(src, 0, [Edit(start, r, [], rule, line)]) == src[..start] + src[r..]
  {
    var e := Edit(start, r, [], rule, line);
    assert [e][1..] == [];
    assert Substitute(src, r, []) == src[r..];
  }

  // ---------------------------------------------------------------------
  // Where the scanner is wrong.
  // ---------------------------------------------------------------------

  function InnerBrace(): Source {
    [HASH, BRACKET, 0x73, 0x5D, OPEN, LF, CLOSE, CLOSE]
  }

  lemma ScannerClosesInside()
    ensures IsFirstClose(Scanner, InnerBrace(), 0, 6)
  {
    var line: seq<Piece> := [Remark([BRACKET, 0x73, 0x5D, OPEN], LF)];
    assert Render(line) == [HASH, BRACKET, 0x73, 0x5D, OPEN, LF] by {
      assert line[1..] == [];
    }
    assert InnerBrace()[0..] == Render(line) + [CLOSE] + [CLOSE];
    BalancedRunCloses(Scanner, InnerBrace(), 0, line, [CLOSE]);
  }

  lemma LanguageClosesOutside()
    ensures IsFirstClose(Language, InnerBrace(), 0, 7)
  {
    var eol: seq<Piece> := [Plain(LF)];
    assert Render(eol) == [LF] by { assert eol[1..] == []; }
    var last := [Braces(eol)];
    assert last[1..] == [] && Render(last) == [OPEN, LF, CLOSE];
    var two := [Plain(0x5D)] + last;
    assert two[1..] == last && Render(two) == [0x5D, OPEN, LF, CLOSE];
    var three := [Plain(0x73)] + two;
    assert three[1..] == two && Render(three) == [0x73, 0x5D, OPEN, LF, CLOSE];
    var all := [Attribute(false)] + three;
    assert all[1..] == three && Render(all) == [HASH, BRACKET, 0x73, 0x5D, OPEN, LF, CLOSE];
    assert InnerBrace()[0..] == Render(all) + [CLOSE] + [];
    BalancedRunCloses(Language, InnerBrace(), 0, all, []);
  }

  /** A block opened in a line that an attribute starts: the scanner takes the inner brace for the outer. */
  lemma ScannerTakesTheInnerBrace()
    ensures IsFirstClose(Scanner, InnerBrace(), 0, 6) && IsFirstClose(Language, InnerBrace(), 0, 7)
  {
    ScannerClosesInside();
    LanguageClosesOutside();
  }

  function Plains(w: Source): (ps: seq<Piece>)
    ensures |ps| == |w| && forall i :: 0 <= i < |w| ==> ps[i] == Plain(w[i])
  {
    seq(|w|, i requires 0 <= i < |w| => Plain(w[i]))
  }

  lemma {:induction false} RenderPlains(w: Source)
    ensures Render(Plains(w)) == w
    decreases |w|
  {
    if w != [] {
      assert Plains(w)[1..] == Plains(w[1..]);
      RenderPlains(w[1..]);
    }
  }

  /** The tail of an attribute line: bytes that are neither quotes, remarks, braces nor line breaks. */
  predicate IsLineTail(w: Source) {
    forall i :: 0 <= i < |w| ==> w[i] !in {QUOTE, HASH, OPEN, CLOSE, LF, CR}
  }

  function AttributeLine(w: Source, brace: Byte): Source {
    [HASH] + ([BRACKET] + w + [brace]) + [LF]
  }

  /** A file whose dead run ends in an attribute line that closes the block, with live code after
      it, and another attribute line that opens one. */
  function TwoLines(before: Source, dead: seq<Piece>, v: Source, live: seq<Piece>, w: Source, inner: seq<Piece>,
                    rest: Source): Source {
    before + (Render(dead) + AttributeLine(v, CLOSE) + Render(live) + AttributeLine(w, OPEN) + Render(inner))
    + [CLOSE] + rest
  }

  lemma ScannerSkipsBoth(before: Source, dead: seq<Piece>, v: Source, live: seq<Piece>, w: Source,
                         inner: seq<Piece>, rest: Source)
    requires AllLexed(Scanner, dead) && AllLexed(Scanner, live) && AllLexed(Scanner, inner)
    requires IsLineTail(v) && IsLineTail(w)
    ensures var src := TwoLines(before, dead, v, live, w, inner, rest);
      IsFirstClose(Scanner, src, |before|, |src| - |rest| - 1)
  {
    var src := TwoLines(before, dead, v, live, w, inner, rest);
    var one, two := Remark([BRACKET] + v + [CLOSE], LF), Remark([BRACKET] + w + [OPEN], LF);
    assert WellLexed(Scanner, one) && WellLexed(Scanner, two);
    var ps := dead + [one] + live + [two] + inner;
    assert AllLexed(Scanner, ps);
    hide WellLexed, IsFirstClose;
    assert Render([one]) == AttributeLine(v, CLOSE) by { assert [one][1..] == []; }
    assert Render([two]) == AttributeLine(w, OPEN) by { assert [two][1..] == []; }
    RenderAppend(dead, [one]);
    RenderAppend(dead + [one], live);
    RenderAppend(dead + [one] + live, [two]);
    RenderAppend(dead + [one] + live + [two], inner);
    hide Render;
    assert src[|before|..] == Render(ps) + [CLOSE] + rest;
    BalancedRunCloses(Scanner, src, |before|, ps, rest);
  }

  /** What follows the brace that closes the block in the language. */
  function AfterFirst(live: Source, w: Source, inner: Source, rest: Source): Source {
    [LF] + (live + AttributeLine(w, OPEN) + inner) + ([CLOSE] + rest)
  }

  lemma SplitAtFirst(before: Source, dead: Source, v: Source, mid: Source, end: Source)
    ensures (before + (dead + AttributeLine(v, CLOSE) + mid) + end)[|before|..] ==
      dead + ([HASH, BRACKET] + v) + [CLOSE] + ([LF] + mid + end)
  {
    var tail := dead + AttributeLine(v, CLOSE) + mid + end;
    assert before + (dead + AttributeLine(v, CLOSE) + mid) + end == before + tail;
    assert AttributeLine(v, CLOSE) == [HASH, BRACKET] + v + [CLOSE] + [LF];
  }

  lemma GroupMiddle(before: Source, dead: Source, one: Source, live: Source, two: Source, inner: Source, rest: Source)
    ensures before + (dead + one + live + two + inner) + [CLOSE] + rest ==
      before + (dead + one + (live + two + inner)) + ([CLOSE] + rest)
  {
    assert dead + one + live + two + inner == dead + one + (live + two + inner);
  }

  lemma OpeningRun(dead: seq<Piece>, v: Source)
    requires AllLexed(Language, dead) && IsLineTail(v)
    ensures AllLexed(Language, dead + [Attribute(false)] + Plains(v))
    ensures Render(dead + [Attribute(false)] + Plains(v)) == Render(dead) + ([HASH, BRACKET] + v)
  {
    assert Render([Attribute(false)]) == [HASH, BRACKET] by { assert [Attribute(false)][1..] == []; }
    RenderAppend(dead, [Attribute(false)]);
    RenderAppend(dead + [Attribute(false)], Plains(v));
    RenderPlains(v);
  }

  lemma LanguageClosesAtTheFirst(before: Source, dead: seq<Piece>, v: Source, live: seq<Piece>, w: Source,
                                 inner: seq<Piece>, rest: Source)
    requires AllLexed(Language, dead) && IsLineTail(v)
    ensures var src := TwoLines(before, dead, v, live, w, inner, rest);
      IsFirstClose(Language, src, |before|, |before| + |Render(dead)| + 2 + |v|)
  {
    var src := TwoLines(before, dead, v, live, w, inner, rest);
    hide WellLexed, IsFirstClose, Render, AllLexed, AttributeLine, Plains;
    OpeningRun(dead, v);
    var d, l, i := Render(dead), Render(live), Render(inner);
    GroupMiddle(before, d, AttributeLine(v, CLOSE), l, AttributeLine(w, OPEN), i, rest);
    SplitAtFirst(before, d, v, l + AttributeLine(w, OPEN) + i, [CLOSE] + rest);
    BalancedRunCloses(Language, src, |before|, dead + [Attribute(false)] + Plains(v), AfterFirst(l, w, i, rest));
  }

  /** Two attribute lines can cancel: the fixer then deletes the live code after the dead block as
      well, together with the head of the block that the second line opens. */
  lemma TwoLinesTakeLiveCode(before: Source, dead: seq<Piece>, v: Source, live: seq<Piece>, w: Source,
                             inner: seq<Piece>, rest: Source, rule: string, line: nat)
    requires AllLexed(Scanner, dead) && AllLexed(Scanner, live) && AllLexed(Scanner, inner)
    requires AllLexed(Language, dead) && IsLineTail(v) && IsLineTail(w)
    ensures var src := TwoLines(before, dead, v, live, w, inner, rest);
      var r, e := |src| - |rest| - 1, |before| + |Render(dead)| + 2 + |v|;
      && IsFirstClose(Scanner, src, |before|, r) && IsFirstClose(Language, src, |before|, e)
      && e + |Render(live)| < r
      && Substitute(src, 0, [Edit(|before|, r, [], rule, line)]) == before + [CLOSE] + rest
  {
    var src := TwoLines(before, dead, v, live, w, inner, rest);
    var r := |src| - |rest| - 1;
    hide Render, IsFirstClose;
    ScannerSkipsBoth(before, dead, v, live, w, inner, rest);
    LanguageClosesAtTheFirst(before, dead, v, live, w, inner, rest);
    DeletesTo(src, |before|, r, rule, line);
    assert src[..|before|] == before && src[r..] == [CLOSE] + rest;
  }
}
