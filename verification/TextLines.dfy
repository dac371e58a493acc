/** Splitting text at a separator, joining it again, and finding a part of it. */
module TextLines {
  import opened SourceText

  predicate Free(sep: char, part: Text) {
    forall i :: 0 <= i < |part| ==> part[i] != sep
  }

  predicate AllFree(sep: char, parts: seq<Text>) {
    forall i :: 0 <= i < |parts| ==> Free(sep, parts[i])
  }

  /** The pieces between separators: one more piece than there are separators. */
  function SplitOn(sep: char, s: Text): (parts: seq<Text>)
    ensures parts != []
  {
    if s == [] then [[]]
    else
      var rest := SplitOn(sep, s[1..]);
      if s[0] == sep then [[]] + rest else [[s[0]] + rest[0]] + rest[1..]
  }

  function Join(sep: char, parts: seq<Text>): Text {
    if parts == [] then []
    else if |parts| == 1 then parts[0]
    else parts[0] + [sep] + Join(sep, parts[1..])
  }

  lemma JoinFirst(sep: char, c: char, parts: seq<Text>)
    requires parts != []
    ensures Join(sep, [[c] + parts[0]] + parts[1..]) == [c] + Join(sep, parts)
  {
    if |parts| > 1 {
      var longer := [[c] + parts[0]] + parts[1..];
      assert longer[1..] == parts[1..];
      assert ([c] + parts[0]) + [sep] + Join(sep, parts[1..]) == [c] + (parts[0] + [sep] + Join(sep, parts[1..]));
    }
  }

  /** Joining the pieces gives the text back, and no piece holds a separator. */
  lemma {:induction false} SplitThenJoin(sep: char, s: Text)
    ensures Join(sep, SplitOn(sep, s)) == s && AllFree(sep, SplitOn(sep, s))
  {
    if s != [] {
      SplitThenJoin(sep, s[1..]);
      var rest := SplitOn(sep, s[1..]);
      assert s == [s[0]] + s[1..];
      if s[0] == sep {
        assert ([[]] + rest)[1..] == rest;
      } else {
        JoinFirst(sep, s[0], rest);
      }
    }
  }

  lemma {:induction false} SplitPiece(sep: char, part: Text, s: Text)
    requires Free(sep, part)
    ensures SplitOn(sep, part + [sep] + s) == [part] + SplitOn(sep, s)
    decreases |part|
  {
    var all := part + [sep] + s;
    if part == [] {
      assert all[1..] == s;
    } else {
      SplitPiece(sep, part[1..], s);
      assert all[1..] == part[1..] + [sep] + s;
      assert [part[0]] + part[1..] == part;
    }
  }

  lemma {:induction false} SplitOne(sep: char, part: Text)
    requires Free(sep, part)
    ensures SplitOn(sep, part) == [part]
    decreases |part|
  {
    if part != [] {
      SplitOne(sep, part[1..]);
      assert [part[0]] + part[1..] == part;
    }
  }

  /** Splitting gives back what was joined. */
  lemma {:induction false} JoinThenSplit(sep: char, parts: seq<Text>)
    requires parts != [] && AllFree(sep, parts)
    ensures SplitOn(sep, Join(sep, parts)) == parts
  {
    assert Free(sep, parts[0]);
    if |parts| == 1 {
      SplitOne(sep, parts[0]);
    } else {
      JoinThenSplit(sep, parts[1..]);
      SplitPiece(sep, parts[0], Join(sep, parts[1..]));
      assert parts == [parts[0]] + parts[1..];
    }
  }

  predicate OccursAt(part: Text, s: Text, i: nat) {
    i + |part| <= |s| && s[i..i + |part|] == part
  }

  predicate Occurs(part: Text, s: Text) {
    exists i :: 0 <= i <= |s| && OccursAt(part, s, i)
  }

  predicate StartsWith(s: Text, prefix: Text) {
    |prefix| <= |s| && s[..|prefix|] == prefix
  }

  /** Whole lines, each ended by a line feed. */
  function Lines(lines: seq<Text>): Text {
    if lines == [] then [] else Lines(lines[..|lines| - 1]) + lines[|lines| - 1] + ['\n']
  }

  lemma {:induction false} LinesAppend(a: seq<Text>, b: seq<Text>)
    ensures Lines(a + b) == Lines(a) + Lines(b)
    decreases |b|
  {
    if b == [] {
      assert a + b == a;
    } else {
      var front := b[..|b| - 1];
      assert (a + b)[..|a + b| - 1] == a + front;
      LinesAppend(a, front);
    }
  }

  /** Reading whole lines: the lines, and an empty piece after the last line feed. */
  lemma {:induction false} SplitLines(lines: seq<Text>)
    requires AllFree('\n', lines)
    ensures SplitOn('\n', Lines(lines)) == lines + [[]]
    decreases |lines|
  {
    if lines != [] {
      var rest := lines[1..];
      assert lines == [lines[0]] + rest;
      LinesAppend([lines[0]], rest);
      assert [lines[0]][..0] == [];
      assert Lines([lines[0]]) == lines[0] + ['\n'];
      SplitLines(rest);
      assert Free('\n', lines[0]);
      SplitPiece('\n', lines[0], Lines(rest));
      assert Lines(lines) == lines[0] + ['\n'] + Lines(rest);
    }
  }
}
