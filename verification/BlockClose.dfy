/** The brace scanner that finds where a dead run's block ends, and what the language says of it. */
module BlockClose {
  import opened SourceText

  const QUOTE: Byte := 0x22
  const HASH: Byte := 0x23
  const BACKSLASH: Byte := 0x5C
  const OPEN: Byte := 0x7B
  const CLOSE: Byte := 0x7D
  const BANG: Byte := 0x21
  const BRACKET: Byte := 0x5B
  const LF: Byte := 10
  const CR: Byte := 13

  // ---------------------------------------------------------------------
  // Two readings of a file: one lexical mode per byte.
  // ---------------------------------------------------------------------

  /** The language's lexer, for which `#[` and `#![` open attributes and so are code; and the
      scanner, for which every `#` in code opens a comment. */
  datatype Reader = Language | Scanner

  datatype Mode = Code | Str | Escape | Comment

  predicate IsEol(c: Byte) {
    c == LF || c == CR
  }

  /** An attribute list, or a crate-level one, starts at this `#`. */
  predicate OpensAttribute(src: Source, i: nat)
    requires i < |src|
  {
    && src[i] == HASH && i + 1 < |src|
    && (src[i + 1] == BRACKET || (src[i + 1] == BANG && i + 2 < |src| && src[i + 2] == BRACKET))
  }

  predicate OpensComment(rd: Reader, src: Source, i: nat)
    requires i < |src|
  {
    src[i] == HASH && (rd == Scanner || !OpensAttribute(src, i))
  }

  /** The mode of the byte after `src[i]`, when that is read in mode `m`. */
  function After(rd: Reader, m: Mode, src: Source, i: nat): Mode
    requires i < |src|
  {
    match m
    case Code => if src[i] == QUOTE then Str else if OpensComment(rd, src, i) then Comment else Code
    case Str => if src[i] == QUOTE then Code else if src[i] == BACKSLASH then Escape else Str
    case Escape => Str
    case Comment => if IsEol(src[i]) then Code else Comment
  }

  /** The mode in which byte `i` is read, starting in code at `start`. */
  function ModeAt(rd: Reader, src: Source, start: nat, i: nat): Mode
    requires start <= i <= |src|
  {
    if i == start then Code else After(rd, ModeAt(rd, src, start, i - 1), src, i - 1)
  }

  /** What a byte read in this mode does to the depth of blocks. */
  function Weight(m: Mode, c: Byte): int {
    if m != Code then 0 else if c == OPEN then 1 else if c == CLOSE then -1 else 0
  }

  /** How many blocks opened since `start` are still open before byte `i`. */
  function Depth(rd: Reader, src: Source, start: nat, i: nat): int
    requires start <= i <= |src|
  {
    if i == start then 0 else Depth(rd, src, start, i - 1) + Weight(ModeAt(rd, src, start, i - 1), src[i - 1])
  }

  /** A `}` outside strings and comments that closes the block `start` is in. */
  ghost predicate Closes(rd: Reader, src: Source, start: nat, i: nat)
    requires start <= i < |src|
  {
    ModeAt(rd, src, start, i) == Code && src[i] == CLOSE && Depth(rd, src, start, i) == 0
  }

  ghost predicate IsFirstClose(rd: Reader, src: Source, start: nat, r: int)
    requires start <= |src|
  {
    if r == -1 then forall i :: start <= i < |src| ==> !Closes(rd, src, start, i)
    else
      start <= r < |src| && Closes(rd, src, start, r) && forall i :: start <= i < r ==> !Closes(rd, src, start, i)
  }

  /** Reading may start at any byte that the file's own lexing reads as code. */
  lemma {:induction false} ReadingStartsAnywhere(rd: Reader, src: Source, start: nat, i: nat)
    requires start <= i <= |src| && ModeAt(rd, src, 0, start) == Code
    ensures ModeAt(rd, src, start, i) == ModeAt(rd, src, 0, i)
    ensures Depth(rd, src, start, i) == Depth(rd, src, 0, i) - Depth(rd, src, 0, start)
    decreases i
  {
    if i > start {
      ReadingStartsAnywhere(rd, src, start, i - 1);
    }
  }

  // ---------------------------------------------------------------------
  // The scanner.
  // ---------------------------------------------------------------------

  method FindBlockClose(src: Source, start: nat) returns (r: int)
    requires start <= |src|
    ensures IsFirstClose(Scanner, src, start, r)
  {
    var i, n, depth := start, |src|, 0;
    while i < n
      invariant start <= i
      invariant i <= n ==> Depth(Scanner, src, start, i) == depth
      invariant i < n ==> ReadAsCode(src, start, i)
      invariant depth >= 0
      invariant forall j :: start <= j < i && j < n ==> !Closes(Scanner, src, start, j)
      decreases n - i
    {
      var c := src[i];
      if c == QUOTE {
        i := i + 1;
        while i < n && src[i] != QUOTE
          invariant start < i
          invariant i <= n ==> ModeAt(Scanner, src, start, i) == Str && Depth(Scanner, src, start, i) == depth
          invariant forall j :: start <= j < i && j < n ==> !Closes(Scanner, src, start, j)
          decreases n - i
        {
          if src[i] == BACKSLASH {
            i := i + 1;
          }
          i := i + 1;
        }
        i := i + 1;
      } else if c == HASH {
        ghost var at := i;
        while i < n && src[i] != LF && src[i] != CR
          invariant at <= i <= n
          invariant i > at ==> ModeAt(Scanner, src, start, i) == Comment
          invariant Depth(Scanner, src, start, i) == depth
          invariant forall j :: start <= j < i ==> !Closes(Scanner, src, start, j)
          decreases n - i
        {
          i := i + 1;
        }
      } else {
        if c == OPEN {
          depth := depth + 1;
        } else if c == CLOSE {
          if depth == 0 {
            return i;
          }
          depth := depth - 1;
        }
        i := i + 1;
      }
    }
    return -1;
  }

  /** The line break that ends a comment is scanned like code. */
  ghost predicate ReadAsCode(src: Source, start: nat, i: nat)
    requires start <= i < |src|
  {
    ModeAt(Scanner, src, start, i) == Code || (ModeAt(Scanner, src, start, i) == Comment &&
      (src[i] == LF || src[i] == CR))
  }

  lemma FirstCloseIsUnique(rd: Reader, src: Source, start: nat, r: int, r': int)
    requires start <= |src| && IsFirstClose(rd, src, start, r) && IsFirstClose(rd, src, start, r')
    ensures r == r'
  {
  }

  // ---------------------------------------------------------------------
  // Balanced text, from a grammar of its own.
  // ---------------------------------------------------------------------

  datatype Piece =
    | Plain(c: Byte)
    | Literal(body: Source)
    | Remark(text: Source, eol: Byte)
    | Attribute(bang: bool)
    | Braces(inner: seq<Piece>)

  predicate LiteralBody(b: Source) {
    b == [] ||
    (if b[0] == BACKSLASH then |b| >= 2 && LiteralBody(b[2..]) else b[0] != QUOTE && LiteralBody(b[1..]))
  }

  function RemarkBytes(text: Source, eol: Byte): Source {
    [HASH] + text + [eol]
  }

  /** A remark of the language does not open an attribute; to the scanner every `#` is a remark. */
  predicate WellLexed(rd: Reader, p: Piece) {
    match p
    case Plain(c) => c !in {QUOTE, HASH, OPEN, CLOSE}
    case Literal(body) => LiteralBody(body)
    case Remark(text, eol) =>
      LF !in text && CR !in text && eol in {LF, CR} && OpensComment(rd, RemarkBytes(text, eol), 0)
    case Attribute(_) => rd == Language
    case Braces(inner) => forall i :: 0 <= i < |inner| ==> WellLexed(rd, inner[i])
  }

  ghost predicate AllLexed(rd: Reader, ps: seq<Piece>) {
    forall i :: 0 <= i < |ps| ==> WellLexed(rd, ps[i])
  }

  function Render(ps: seq<Piece>): Source
    decreases ps, 0
  {
    if ps == [] then [] else RenderPiece(ps[0]) + Render(ps[1..])
  }

  function RenderPiece(p: Piece): Source
    decreases p, 1
  {
    match p
    case Plain(c) => [c]
    case Literal(body) => [QUOTE] + body + [QUOTE]
    case Remark(text, eol) => RemarkBytes(text, eol)
    case Attribute(bang) => if bang then [HASH, BANG, BRACKET] else [HASH, BRACKET]
    case Braces(inner) => [OPEN] + Render(inner) + [CLOSE]
  }

  /** `w` stands in `src` at `a`, and the reader passes over it: it starts and ends
      in code at the same depth, with no closing brace of the block on the way. */
  ghost predicate PassesOver(rd: Reader, src: Source, start: nat, a: nat, b: nat) {
    && start <= a <= b <= |src|
    && ModeAt(rd, src, start, b) == Code && Depth(rd, src, start, b) == Depth(rd, src, start, a)
    && forall i :: a <= i < b ==> !Closes(rd, src, start, i)
  }

  lemma {:induction false} LiteralPasses(rd: Reader, src: Source, start: nat, a: nat, b: nat)
    requires start <= a <= b <= |src| && LiteralBody(src[a..b]) && ModeAt(rd, src, start, a) == Str
    ensures ModeAt(rd, src, start, b) == Str && Depth(rd, src, start, b) == Depth(rd, src, start, a)
    ensures forall i :: a <= i < b ==> !Closes(rd, src, start, i)
    decreases b - a
  {
    if a < b {
      var k := if src[a] == BACKSLASH then 2 else 1;
      assert src[a..b][0] == src[a];
      assert src[a..b][k..] == src[a + k..b];
      assert ModeAt(rd, src, start, a + 1) == After(rd, Str, src, a);
      LiteralPasses(rd, src, start, a + k, b);
    }
  }

  lemma {:induction false} CommentPasses(rd: Reader, src: Source, start: nat, a: nat, b: nat)
    requires start <= a <= b <= |src| && ModeAt(rd, src, start, a) == Comment
    requires LF !in src[a..b] && CR !in src[a..b]
    ensures ModeAt(rd, src, start, b) == Comment && Depth(rd, src, start, b) == Depth(rd, src, start, a)
    ensures forall i :: a <= i < b ==> !Closes(rd, src, start, i)
    decreases b - a
  {
    if a < b {
      assert src[a] in src[a..b];
      assert forall c :: c in src[a + 1..b] ==> c in src[a..b];
      CommentPasses(rd, src, start, a + 1, b);
    }
  }

  lemma SplitAt(src: Source, a: nat, b: nat, x: Source, y: Source)
    requires a <= b <= |src| && src[a..b] == x + y
    ensures b - a == |x| + |y| && src[a..a + |x|] == x && src[a + |x|..b] == y
  {
    var w := src[a..b];
    assert src[a..a + |x|] == w[..|x|];
    assert src[a + |x|..b] == w[|x|..];
  }

  lemma Enclosed(src: Source, a: nat, b: nat, first: Byte, mid: Source, last: Byte)
    requires a <= b <= |src| && src[a..b] == [first] + mid + [last]
    ensures b - a == |mid| + 2 && src[a] == first && src[b - 1] == last && src[a + 1..b - 1] == mid
  {
    assert [first] + mid + [last] == [first] + (mid + [last]);
    SplitAt(src, a, b, [first], mid + [last]);
    SplitAt(src, a + 1, b, mid, [last]);
    assert src[a] == src[a..a + 1][0] && src[b - 1] == src[b - 1..b][0];
  }

  /** The look-ahead at a `#` does not leave its own line. */
  lemma SameLookahead(src: Source, a: nat, b: nat)
    requires a + 1 < b <= |src| && src[a] == HASH && IsEol(src[b - 1])
    ensures OpensAttribute(src, a) == OpensAttribute(src[a..b], 0)
  {
  }

  lemma AttributePasses(src: Source, start: nat, a: nat, b: nat, bang: bool)
    requires start <= a <= b <= |src| && src[a..b] == RenderPiece(Attribute(bang))
    requires ModeAt(Language, src, start, a) == Code
    ensures PassesOver(Language, src, start, a, b)
  {
    var w := src[a..b];
    assert b == a + |w| && forall i :: 0 <= i < |w| ==> src[a + i] == w[i];
    assert OpensAttribute(src, a);
    assert ModeAt(Language, src, start, a + 1) == Code && ModeAt(Language, src, start, a + 2) == Code;
    assert Depth(Language, src, start, a + 2) == Depth(Language, src, start, a);
    if bang {
      assert ModeAt(Language, src, start, a + 3) == Code;
      assert Depth(Language, src, start, a + 3) == Depth(Language, src, start, a);
    }
  }

  lemma {:induction false} PiecePasses(rd: Reader, src: Source, start: nat, a: nat, b: nat, p: Piece)
    requires start <= a <= b <= |src| && src[a..b] == RenderPiece(p) && WellLexed(rd, p)
    requires ModeAt(rd, src, start, a) == Code && Depth(rd, src, start, a) >= 0
    ensures PassesOver(rd, src, start, a, b)
    decreases p, 1
  {
    match p
    case Plain(c) =>
      assert src[a] == src[a..b][0];
    case Literal(body) =>
      Enclosed(src, a, b, QUOTE, body, QUOTE);
      LiteralPasses(rd, src, start, a + 1, b - 1);
    case Remark(text, eol) =>
      Enclosed(src, a, b, HASH, text, eol);
      SameLookahead(src, a, b);
      CommentPasses(rd, src, start, a + 1, b - 1);
    case Attribute(bang) =>
      AttributePasses(src, start, a, b, bang);
    case Braces(inner) =>
      Enclosed(src, a, b, OPEN, Render(inner), CLOSE);
      RunPasses(rd, src, start, a + 1, b - 1, inner);
  }

  lemma {:induction false} RunPasses(rd: Reader, src: Source, start: nat, a: nat, b: nat, ps: seq<Piece>)
    requires start <= a <= b <= |src| && src[a..b] == Render(ps)
    requires AllLexed(rd, ps)
    requires ModeAt(rd, src, start, a) == Code && Depth(rd, src, start, a) >= 0
    ensures PassesOver(rd, src, start, a, b)
    decreases ps, 0
  {
    if ps != [] {
      var m := a + |RenderPiece(ps[0])|;
      SplitAt(src, a, b, RenderPiece(ps[0]), Render(ps[1..]));
      PiecePasses(rd, src, start, a, m, ps[0]);
      RunPasses(rd, src, start, m, b, ps[1..]);
    }
  }

  /** After any balanced run and a `}`, the reader's block closes at that `}`, whatever follows. */
  lemma BalancedRunCloses(rd: Reader, src: Source, start: nat, ps: seq<Piece>, rest: Source)
    requires start <= |src| && src[start..] == Render(ps) + [CLOSE] + rest && AllLexed(rd, ps)
    ensures IsFirstClose(rd, src, start, start + |Render(ps)|)
  {
    var w, e := Render(ps), start + |Render(ps)|;
    assert src[start..][..|w|] == w && src[start..e] == src[start..][..|w|];
    assert src[start..][|w|] == CLOSE == src[e];
    RunPasses(rd, src, start, start, e, ps);
  }
}
