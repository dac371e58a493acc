/** The fuzzer's minimiser: removing lines of `fn main` while the program still diverges. */
module Minimize {
  import opened Options
  import opened SourceText
  import opened TextLines

  function MainStart(): Text { "fn main" }
  function LastStatement(): Text { "return 0" }

  predicate IsBlank(c: char) {
    c == ' ' || '\t' <= c <= '\r' || '\U{1c}' <= c <= '\U{1f}'
  }

  /** The text without the blanks at both its ends. */
  function Strip(s: Text): Text {
    if s == [] then []
    else if IsBlank(s[0]) then Strip(s[1..])
    else if IsBlank(s[|s| - 1]) then Strip(s[..|s| - 1])
    else s
  }

  /** Space, tab, line feed, vertical tab, form feed, carriage return and the four separators. */
  ghost predicate AllBlank(s: Text) {
    forall i :: 0 <= i < |s| ==> s[i] as int in {9, 10, 11, 12, 13, 28, 29, 30, 31, 32}
  }

  /** Stripping takes blanks from both ends, and all of them. */
  lemma {:induction false} StripsBlanks(s: Text) returns (left: Text, right: Text)
    ensures s == left + Strip(s) + right && AllBlank(left) && AllBlank(right)
    ensures Strip(s) != [] ==> !AllBlank([Strip(s)[0]]) && !AllBlank([Strip(s)[|Strip(s)| - 1]])
    decreases |s|
  {
    if s == [] {
      left, right := [], [];
    } else if IsBlank(s[0]) {
      left, right := StripsBlanks(s[1..]);
      left := [s[0]] + left;
    } else if IsBlank(s[|s| - 1]) {
      left, right := StripsBlanks(s[..|s| - 1]);
      right := right + [s[|s| - 1]];
    } else {
      left, right := [], [];
      assert [s[0]][0] == s[0] && [s[|s| - 1]][0] == s[|s| - 1];
    }
  }

  lemma {:induction false} StripPadded(left: Text, core: Text, right: Text)
    requires AllBlank(left) && AllBlank(right)
    requires core != [] && !AllBlank([core[0]]) && !AllBlank([core[|core| - 1]])
    ensures Strip(left + core + right) == core
    decreases |left|, |right|
  {
    var s := left + core + right;
    assert [core[0]][0] == core[0] && [core[|core| - 1]][0] == core[|core| - 1];
    if left != [] {
      StripPadded(left[1..], core, right);
      assert s[1..] == left[1..] + core + right;
    } else if right != [] {
      assert s[0] == core[0];
      StripPadded(left, core, right[..|right| - 1]);
      assert s[..|s| - 1] == left + core + right[..|right| - 1];
    } else {
      assert s == core;
    }
  }

  /** The lines that can end the body: `return 0` with blanks around it. */
  lemma EndsBodyExactly(line: Text)
    ensures EndsBody(line) <==>
      exists left, right :: AllBlank(left) && AllBlank(right) && line == left + "return 0" + right
  {
    var core := "return 0";
    assert core[0] == 'r' && core[|core| - 1] == '0';
    assert [core[0]][0] == 'r' && [core[|core| - 1]][0] == '0';
    if EndsBody(line) {
      var left, right := StripsBlanks(line);
    }
    hide Strip;
    if left, right :| AllBlank(left) && AllBlank(right) && line == left + core + right {
      StripPadded(left, core, right);
    }
  }

  predicate OpensMain(line: Text) {
    StartsWith(line, MainStart())
  }

  /** The lines that can open `main`: those that begin with `fn main`. */
  lemma OpensMainExactly(line: Text)
    ensures OpensMain(line) <==> exists rest :: line == "fn main" + rest
  {
    if OpensMain(line) {
      assert line == "fn main" + line[7..];
    }
    if rest :| line == "fn main" + rest {
      assert line[..7] == "fn main";
    }
  }

  predicate EndsBody(line: Text) {
    Strip(line) == LastStatement()
  }

  /** `main` opens at the first line that can open it, and its body stops at the last line
      after that which can end it. */
  ghost predicate IsRegion(lines: seq<Text>, main: nat, end: nat) {
    && main < end < |lines|
    && OpensMain(lines[main]) && (forall i :: 0 <= i < main ==> !OpensMain(lines[i]))
    && EndsBody(lines[end]) && (forall i :: end < i < |lines| ==> !EndsBody(lines[i]))
  }

  method FindMain(lines: seq<Text>) returns (main: Option<nat>)
    ensures main.None? ==> forall i :: 0 <= i < |lines| ==> !OpensMain(lines[i])
    ensures main.Some? ==> main.value < |lines| && OpensMain(lines[main.value])
    ensures main.Some? ==> forall i :: 0 <= i < main.value ==> !OpensMain(lines[i])
  {
    for i := 0 to |lines|
      invariant forall j :: 0 <= j < i ==> !OpensMain(lines[j])
    {
      if OpensMain(lines[i]) {
        return Some(i);
      }
    }
    return None;
  }

  method FindEnd(lines: seq<Text>, main: nat) returns (end: Option<nat>)
    requires main < |lines|
    ensures end.None? ==> forall i :: main < i < |lines| ==> !EndsBody(lines[i])
    ensures end.Some? ==> main < end.value < |lines| && EndsBody(lines[end.value])
    ensures end.Some? ==> forall i :: end.value < i < |lines| ==> !EndsBody(lines[i])
  {
    for i := |lines| downto main + 1
      invariant forall j :: i <= j < |lines| ==> !EndsBody(lines[j])
    {
      if EndsBody(lines[i]) {
        return Some(i);
      }
    }
    return None;
  }

  lemma OneRegion(lines: seq<Text>, main: nat, end: nat)
    requires IsRegion(lines, main, end)
    ensures forall m: nat, e: nat :: IsRegion(lines, m, e) ==> m == main && e == end
  {
    hide OpensMain, EndsBody;
    forall m: nat, e: nat | IsRegion(lines, m, e)
      ensures m == main && e == end
    {
      assert m <= main && main <= m;
      assert e <= end && end <= e;
    }
  }

  /** The program with another body. */
  function Build(lines: seq<Text>, main: nat, end: nat, body: seq<Text>): Text
    requires main < end < |lines|
  {
    Join('\n', lines[..main + 1]) + ['\n'] + Join('\n', body) + ['\n'] + Join('\n', lines[end..])
  }

  /** An empty body still takes up one empty line. */
  function Shown(body: seq<Text>): seq<Text> {
    if body == [] then [[]] else body
  }

  lemma {:induction false} JoinAppend(sep: char, a: seq<Text>, b: seq<Text>)
    requires a != [] && b != []
    ensures Join(sep, a + b) == Join(sep, a) + [sep] + Join(sep, b)
    decreases |a|
  {
    assert (a + b)[0] == a[0] && (a + b)[1..] == a[1..] + b;
    if |a| == 1 {
      assert a[1..] + b == b;
    } else {
      JoinAppend(sep, a[1..], b);
      assert a[0] + [sep] + (Join(sep, a[1..]) + [sep] + Join(sep, b))
          == (a[0] + [sep] + Join(sep, a[1..])) + [sep] + Join(sep, b);
    }
  }

  /** The lines of the built program: those before, the body's, those after. */
  lemma BuildLines(lines: seq<Text>, main: nat, end: nat, body: seq<Text>)
    requires main < end < |lines| && AllFree('\n', lines) && AllFree('\n', body)
    ensures SplitOn('\n', Build(lines, main, end, body)) == lines[..main + 1] + Shown(body) + lines[end..]
    ensures Build(lines, main, end, body) == Join('\n', lines[..main + 1] + Shown(body) + lines[end..])
  {
    hide Free;
    var top, rest := lines[..main + 1], lines[end..];
    assert Join('\n', Shown(body)) == Join('\n', body);
    JoinAppend('\n', top, Shown(body));
    JoinAppend('\n', top + Shown(body), rest);
    var all := top + Shown(body) + rest;
    assert AllFree('\n', Shown(body)) by {
      ShownFree(body);
    }
    JoinThenSplit('\n', all);
  }

  lemma ShownFree(body: seq<Text>)
    requires AllFree('\n', body)
    ensures AllFree('\n', Shown(body))
  {
  }

  /** The original program is the one built with its own body. */
  lemma BuildOriginal(src: Text, lines: seq<Text>, main: nat, end: nat)
    requires lines == SplitOn('\n', src) && main + 1 < end < |lines|
    ensures Build(lines, main, end, lines[main + 1..end]) == src
    ensures AllFree('\n', lines)
  {
    hide Free, Build, SplitOn, Join;
    SplitThenJoin('\n', src);
    assert AllFree('\n', lines[main + 1..end]);
    BuildLines(lines, main, end, lines[main + 1..end]);
    assert lines[..main + 1] + lines[main + 1..end] + lines[end..] == lines;
  }

  function Without(body: seq<Text>, i: nat): seq<Text>
    requires i < |body|
  {
    body[..i] + body[i + 1..]
  }

  /** `part` is `whole` with some lines left out: `kept` says which remain. */
  ghost predicate Keeps(part: seq<Text>, whole: seq<Text>, kept: seq<nat>) {
    && |kept| == |part|
    && (forall k :: 0 <= k < |kept| ==> kept[k] < |whole| && part[k] == whole[kept[k]])
    && (forall j, k :: 0 <= j < k < |kept| ==> kept[j] < kept[k])
  }

  ghost predicate Subsequence(part: seq<Text>, whole: seq<Text>) {
    exists kept :: Keeps(part, whole, kept)
  }

  lemma SubsequenceSelf(whole: seq<Text>)
    ensures Subsequence(whole, whole)
  {
    var kept := seq(|whole|, k requires 0 <= k < |whole| => k);
    assert Keeps(whole, whole, kept);
  }

  lemma SubsequenceWithout(part: seq<Text>, whole: seq<Text>, i: nat)
    requires Subsequence(part, whole) && i < |part|
    ensures Subsequence(Without(part, i), whole)
  {
    var kept :| Keeps(part, whole, kept);
    var fewer := kept[..i] + kept[i + 1..];
    assert Keeps(Without(part, i), whole, fewer);
  }

  lemma SubsequenceFree(part: seq<Text>, whole: seq<Text>)
    requires Subsequence(part, whole) && AllFree('\n', whole)
    ensures AllFree('\n', part)
  {
    hide Free;
  }

  /** No single line of the body can be removed. */
  ghost predicate OneMinimal(lines: seq<Text>, main: nat, end: nat, body: seq<Text>, diverges: Text -> bool)
    requires main < end < |lines|
  {
    forall i :: 0 <= i < |body| ==> !diverges(Build(lines, main, end, Without(body, i)))
  }

  /** The result: a program whose body is part of the original body and whose other lines
      are the original ones, and from which no further line can be removed. */
  ghost predicate IsMinimised(lines: seq<Text>, main: nat, end: nat, diverges: Text -> bool, body: seq<Text>, out: Text)
    requires main < end < |lines|
  {
    && Subsequence(body, lines[main + 1..end])
    && SplitOn('\n', out) == lines[..main + 1] + Shown(body) + lines[end..]
    && (|body| > 1 ==> OneMinimal(lines, main, end, body, diverges))
  }

  /** One pass over the body, from its last line to its first. */
  method Pass(lines: seq<Text>, main: nat, end: nat, diverges: Text -> bool, body: seq<Text>, src: Text)
    returns (body': seq<Text>, src': Text, changed: bool)
    requires main < end < |lines| && src == Build(lines, main, end, body)
    ensures src' == Build(lines, main, end, body') && (diverges(src) ==> diverges(src'))
    ensures forall whole :: Subsequence(body, whole) ==> Subsequence(body', whole)
    ensures changed ==> |body'| < |body| && diverges(src')
    ensures !changed ==> body' == body && OneMinimal(lines, main, end, body, diverges)
  {
    hide Build, Subsequence;
    body', src', changed := body, src, false;
    for i := |body| downto 0
      invariant i <= |body'| <= |body|
      invariant src' == Build(lines, main, end, body') && (diverges(src) ==> diverges(src'))
      invariant forall whole :: Subsequence(body, whole) ==> Subsequence(body', whole)
      invariant changed ==> |body'| < |body| && diverges(src')
      invariant !changed ==> body' == body
      invariant !changed ==> forall j :: i <= j < |body| ==> !diverges(Build(lines, main, end, Without(body, j)))
    {
      var candidate := Without(body', i);
      var attempt := Build(lines, main, end, candidate);
      if diverges(attempt) {
        forall whole | Subsequence(body, whole)
          ensures Subsequence(candidate, whole)
        {
          SubsequenceWithout(body', whole, i);
        }
        body', src', changed := candidate, attempt, true;
      }
    }
  }

  /** Shrinks a diverging program: the result still diverges and is minimised; a program in
      which no body is found is returned as it is. */
  method MinimizeProgram(src: Text, diverges: Text -> bool)
    returns (out: Text, ghost main: nat, ghost end: nat, ghost body: seq<Text>, ghost found: bool)
    ensures diverges(src) ==> diverges(out)
    ensures out != src ==> diverges(out)
    ensures !found ==> out == src && forall m: nat, e: nat :: IsRegion(SplitOn('\n', src), m, e) ==> e - m < 2
    ensures found ==> IsRegion(SplitOn('\n', src), main, end) && end - main >= 2
    ensures found ==> IsMinimised(SplitOn('\n', src), main, end, diverges, body, out)
  {
    hide Build, OpensMain, EndsBody, SplitOn, Subsequence, OneMinimal;
    var lines := SplitOn('\n', src);
    out, main, end, body, found := src, 0, 0, [], false;
    var mi := FindMain(lines);
    if mi.None? {
      return;
    }
    var ri := FindEnd(lines, mi.value);
    if ri.None? || ri.value - mi.value < 2 {
      if ri.Some? {
        OneRegion(lines, mi.value, ri.value);
      }
      return;
    }
    main, end, found := mi.value, ri.value, true;
    BuildOriginal(src, lines, main, end);
    var rest := lines[mi.value + 1..ri.value];
    SubsequenceSelf(rest);
    var changed := true;
    while changed && |rest| > 1
      invariant out == Build(lines, main, end, rest)
      invariant Subsequence(rest, lines[main + 1..end])
      invariant diverges(src) ==> diverges(out)
      invariant out != src ==> diverges(out)
      invariant |rest| > 1 && !changed ==> OneMinimal(lines, main, end, rest, diverges)
      decreases |rest|, changed
    {
      rest, out, changed := Pass(lines, mi.value, ri.value, diverges, rest, out);
    }
    body := rest;
    assert AllFree('\n', lines[main + 1..end]);
    SubsequenceFree(rest, lines[main + 1..end]);
    BuildLines(lines, main, end, rest);
  }
}
