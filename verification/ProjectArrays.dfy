/**
 Writing a list of strings as an array broken over lines, and reading it back:
 indentation, blank lines, comments and a trailing comma make no difference,
 and neither do brackets, quotes, hashes or backslashes inside the strings.
 */
module ProjectArrays {
  import opened Wrappers
  import opened ProjectText

  // ----- Writing -----

  function EscapeChar(ch: char): string {
    if ch == '\n' then "\\n"
    else if ch == '\t' then "\\t"
    else if ch == '\\' || ch == '"' then ['\\', ch]
    else [ch]
  }

  function Escaped(s: string): string {
    if s == [] then [] else EscapeChar(s[0]) + Escaped(s[1..])
  }

  datatype Piece = Blank(ws: string) | Quoted(s: string) | Comma

  predicate Good(ps: seq<Piece>) {
    forall i :: 0 <= i < |ps| && ps[i].Blank? ==> AllSpace(ps[i].ws)
  }

  function PieceText(p: Piece): string {
    match p
    case Blank(ws) => ws
    case Quoted(s) => "\"" + Escaped(s) + "\""
    case Comma => ","
  }

  function PiecesText(ps: seq<Piece>): string {
    if ps == [] then [] else PieceText(ps[0]) + PiecesText(ps[1..])
  }

  /** One physical line: some pieces between whitespace, then perhaps a comment. */
  datatype Physical = Physical(lead: string, pieces: seq<Piece>, trail: string, comment: Option<string>)

  function TailText(l: Physical): string {
    l.trail + match l.comment case None => [] case Some(c) => "#" + c
  }

  datatype Layout = OneLine(line: Physical) | Broken(first: Physical, middle: seq<Physical>, last: Physical)

  predicate GoodLine(l: Physical) {
    AllSpace(l.lead) && AllSpace(l.trail) && Good(l.pieces)
  }

  predicate StartsSolid(ps: seq<Piece>) {
    ps == [] || !ps[0].Blank?
  }

  predicate EndsSolid(ps: seq<Piece>) {
    ps == [] || !ps[|ps| - 1].Blank?
  }

  /** Whitespace at the ends of a line is its lead and trail. */
  predicate GoodLayout(l: Layout) {
    match l
    case OneLine(line) => GoodLine(line)
    case Broken(first, middle, last) =>
      && GoodLine(first) && EndsSolid(first.pieces)
      && (forall i :: 0 <= i < |middle| ==> GoodLine(middle[i]) && StartsSolid(middle[i].pieces) && EndsSolid(middle[i].pieces))
      && GoodLine(last) && StartsSolid(last.pieces)
  }

  function Opening(key: string, gap: string): string {
    key + "=" + gap + "["
  }

  function MiddleLine(l: Physical): string {
    l.lead + PiecesText(l.pieces) + TailText(l)
  }

  function MiddleLines(ls: seq<Physical>): (lines: seq<string>)
    ensures |lines| == |ls|
  {
    seq(|ls|, i requires 0 <= i < |ls| => MiddleLine(ls[i]))
  }

  function FirstLine(key: string, gap: string, l: Physical): string {
    l.lead + (Opening(key, gap) + PiecesText(l.pieces)) + TailText(l)
  }

  function LastLine(l: Physical): string {
    l.lead + (PiecesText(l.pieces) + "]") + TailText(l)
  }

  function RawLines(key: string, gap: string, l: Layout): seq<string> {
    match l
    case OneLine(line) => [line.lead + (Opening(key, gap) + PiecesText(line.pieces) + "]") + TailText(line)]
    case Broken(first, middle, last) => [FirstLine(key, gap, first)] + MiddleLines(middle) + [LastLine(last)]
  }

  /** The pieces as they stand once the lines are joined by single spaces. */
  function Joined(ls: seq<Physical>): seq<Piece> {
    if ls == [] then []
    else (if ls[0].pieces == [] then [] else [Blank(" ")] + ls[0].pieces) + Joined(ls[1..])
  }

  function Pieces(l: Layout): seq<Piece> {
    match l
    case OneLine(line) => line.pieces
    case Broken(first, middle, last) => first.pieces + Joined(middle) + [Blank(" ")] + last.pieces
  }

  function Tokens(ps: seq<Piece>): seq<Piece> {
    if ps == [] then [] else (if ps[0].Blank? then [] else [ps[0]]) + Tokens(ps[1..])
  }

  /** The strings separated by commas, and possibly one more comma. */
  function Elements(strings: seq<string>, trailing: bool): seq<Piece> {
    if strings == [] then []
    else if |strings| == 1 then [Quoted(strings[0])] + (if trailing then [Comma] else [])
    else [Quoted(strings[0]), Comma] + Elements(strings[1..], trailing)
  }

  /** A key is a name: no quotes, hashes or equals signs, and no leading whitespace. */
  predicate GoodKey(key: string) {
    key != [] && !IsSpace(key[0]) && forall i :: 0 <= i < |key| ==> key[i] !in {'\\', '"', '#', '='}
  }

  // ----- Comments -----

  lemma {:induction false} StripAppend(s: Strip, a: string, b: string)
    ensures StripRun(s, a + b) == StripRun(StripRun(s, a), b)
    decreases |a|
  {
    hide StripStep;
    if a == [] {
      assert a + b == b;
    } else {
      StripAppend(StripStep(s, a[0]), a[1..], b);
      assert (a + b)[1..] == a[1..] + b;
    }
  }

  predicate Plain(text: string) {
    forall i :: 0 <= i < |text| ==> text[i] !in {'\\', '"', '#'}
  }

  lemma {:induction false} StripPlain(o: string, text: string)
    requires Plain(text)
    ensures StripRun(Strip(o, false, false, false), text) == Strip(o + text, false, false, false)
    decreases |text|
  {
    if text == [] {
      assert o + text == o;
    } else {
      StripPlain(o + [text[0]], text[1..]);
      assert o + [text[0]] + text[1..] == o + text;
    }
  }

  lemma {:induction false} Assoc(a: string, b: string, c: string)
    ensures a + b + c == a + (b + c)
  {
  }

  lemma {:induction false} StripTwo(s: Strip, a: char, b: char)
    ensures StripRun(s, [a]) == StripStep(s, a)
    ensures StripRun(s, [a, b]) == StripStep(StripStep(s, a), b)
  {
    hide StripStep;
    assert [a, b][1..] == [b] && [a][1..] == [] && [b][1..] == [];
    var t := StripStep(s, a);
    assert StripRun(t, [b]) == StripStep(t, b);
  }

  lemma {:induction false} StripEscapeChar(o: string, ch: char)
    ensures StripRun(Strip(o, true, false, false), EscapeChar(ch)) == Strip(o + EscapeChar(ch), true, false, false)
  {
    hide StripRun;
    var e := EscapeChar(ch);
    if |e| == 2 {
      StripTwo(Strip(o, true, false, false), e[0], e[1]);
      assert e == [e[0], e[1]] && o + [e[0]] + [e[1]] == o + e;
    } else {
      StripTwo(Strip(o, true, false, false), ch, ch);
    }
  }

  lemma {:induction false} StripEscaped(o: string, s: string)
    ensures StripRun(Strip(o, true, false, false), Escaped(s)) == Strip(o + Escaped(s), true, false, false)
    decreases |s|
  {
    hide StripRun, EscapeChar;
    if s == [] {
      assert o + Escaped(s) == o;
      StripNothing(Strip(o, true, false, false));
    } else {
      var e := EscapeChar(s[0]);
      StripAppend(Strip(o, true, false, false), e, Escaped(s[1..]));
      StripEscapeChar(o, s[0]);
      StripEscaped(o + e, s[1..]);
      Assoc(o, e, Escaped(s[1..]));
    }
  }

  lemma {:induction false} StripNothing(s: Strip)
    ensures StripRun(s, []) == s
  {
  }

  lemma {:induction false} StripPieces(o: string, ps: seq<Piece>)
    requires Good(ps)
    ensures StripRun(Strip(o, false, false, false), PiecesText(ps)) == Strip(o + PiecesText(ps), false, false, false)
    decreases |ps|
  {
    hide StripRun, PieceText, AllSpace;
    if ps == [] {
      assert o + PiecesText(ps) == o;
      StripNothing(Strip(o, false, false, false));
    } else {
      var p := PieceText(ps[0]);
      StripAppend(Strip(o, false, false, false), p, PiecesText(ps[1..]));
      StripPiece(o, ps[0]);
      StripPieces(o + p, ps[1..]);
      Assoc(o, p, PiecesText(ps[1..]));
    }
  }

  lemma {:induction false} StripPiece(o: string, p: Piece)
    requires p.Blank? ==> AllSpace(p.ws)
    ensures StripRun(Strip(o, false, false, false), PieceText(p)) == Strip(o + PieceText(p), false, false, false)
  {
    match p
    case Blank(ws) => StripPlain(o, ws);
    case Comma => StripPlain(o, ",");
    case Quoted(s) => StripQuoted(o, s);
  }

  lemma {:induction false} StripQuoted(o: string, s: string)
    ensures StripRun(Strip(o, false, false, false), PieceText(Quoted(s))) == Strip(o + PieceText(Quoted(s)), false, false, false)
  {
    hide StripRun, Escaped;
    var t := Escaped(s);
    Assoc("\"", t, "\"");
    StripAppend(Strip(o, false, false, false), "\"", t + "\"");
    StripTwo(Strip(o, false, false, false), '"', '"');
    StripAppend(Strip(o + "\"", true, false, false), t, "\"");
    StripEscaped(o + "\"", s);
    StripTwo(Strip(o + "\"" + t, true, false, false), '"', '"');
    Assoc(o, "\"", t);
    Assoc(o, "\"" + t, "\"");
  }

  /** Plain text, pieces, plain text, then a comment: only the comment goes. */
  lemma {:induction false} StrippedLine(a: string, ps: seq<Piece>, b: string, l: Physical)
    requires Plain(a) && Good(ps) && Plain(b) && AllSpace(l.trail)
    ensures Stripped(a + PiecesText(ps) + b + TailText(l)) == a + PiecesText(ps) + b + l.trail
  {
    var s := Strip([], false, false, false);
    var body := a + PiecesText(ps) + b;
    StripAppend(s, body, TailText(l));
    StripAppend(s, a + PiecesText(ps), b);
    StripAppend(s, a, PiecesText(ps));
    StripPlain([], a);
    StripPieces(a, ps);
    StripPlain(a + PiecesText(ps), b);
    assert [] + a == a;
    StripTail(body, l);
  }

  lemma {:induction false} StripTail(o: string, l: Physical)
    requires AllSpace(l.trail)
    ensures StripRun(Strip(o, false, false, false), TailText(l)).output == o + l.trail
  {
    StripPlain(o, l.trail);
    if l.comment.Some? {
      var c := l.comment.value;
      StripAppend(Strip(o, false, false, false), l.trail, "#" + c);
      assert ("#" + c)[1..] == c;
      StoppedStays(Strip(o + l.trail, false, false, true), c);
    } else {
      assert TailText(l) == l.trail;
    }
  }

  // ----- Whitespace -----

  lemma {:induction false} TrimStartDrops(a: string, b: string)
    requires AllSpace(a) && (b == [] || !IsSpace(b[0]))
    ensures TrimStart(a + b) == b
    decreases |a|
  {
    if a == [] {
      assert a + b == b;
    } else {
      TrimStartDrops(a[1..], b);
      assert (a + b)[1..] == a[1..] + b;
    }
  }

  lemma {:induction false} TrimEndDrops(a: string, b: string)
    requires AllSpace(b) && (a == [] || !IsSpace(a[|a| - 1]))
    ensures TrimEnd(a + b) == a
    decreases |b|
  {
    if b == [] {
      assert a + b == a;
    } else {
      TrimEndDrops(a, b[..|b| - 1]);
      assert (a + b)[..|a + b| - 1] == a + b[..|b| - 1];
    }
  }

  predicate Solid(text: string) {
    text == [] || (!IsSpace(text[0]) && !IsSpace(text[|text| - 1]))
  }

  lemma {:induction false} TrimmedIs(a: string, core: string, b: string)
    requires AllSpace(a) && AllSpace(b) && Solid(core)
    ensures Trimmed(a + core + b) == core
  {
    if core == [] {
      assert a + core + b == (a + b) + [];
      TrimStartDrops(a + b, []);
    } else {
      assert a + core + b == a + (core + b);
      TrimStartDrops(a, core + b);
      TrimEndDrops(core, b);
    }
  }

  lemma {:induction false} PiecesStart(ps: seq<Piece>)
    requires StartsSolid(ps) && ps != []
    ensures PiecesText(ps) != [] && !IsSpace(PiecesText(ps)[0])
  {
  }

  lemma {:induction false} PiecesEnd(ps: seq<Piece>)
    requires EndsSolid(ps) && ps != []
    ensures var t := PiecesText(ps); t != [] && !IsSpace(t[|t| - 1])
    decreases |ps|
  {
    if |ps| == 1 {
      assert PiecesText(ps[1..]) == [];
      assert PiecesText(ps) == PieceText(ps[0]);
    } else {
      PiecesEnd(ps[1..]);
    }
  }

  // ----- Brackets -----

  lemma {:induction false} DepthAppend(d: Depth, a: string, b: string)
    ensures DepthRun(d, a + b) == DepthRun(DepthRun(d, a), b)
    decreases |a|
  {
    hide DepthStep;
    if a == [] {
      assert a + b == b;
    } else {
      DepthAppend(DepthStep(d, a[0]), a[1..], b);
      assert (a + b)[1..] == a[1..] + b;
    }
  }

  lemma {:induction false} DepthSpaces(n: int, text: string)
    requires AllSpace(text)
    ensures DepthRun(Depth(n, false, false), text) == Depth(n, false, false)
    decreases |text|
  {
    if text != [] {
      DepthSpaces(n, text[1..]);
    }
  }

  lemma {:induction false} DepthEscaped(n: int, s: string)
    ensures DepthRun(Depth(n, true, false), Escaped(s)) == Depth(n, true, false)
    decreases |s|
  {
    if s != [] {
      var e := EscapeChar(s[0]);
      DepthAppend(Depth(n, true, false), e, Escaped(s[1..]));
      assert DepthRun(Depth(n, true, false), e) == Depth(n, true, false) by {
        if |e| == 2 {
          assert e[1..] == [e[1]];
          assert DepthRun(Depth(n, true, false), e) == DepthRun(Depth(n, true, true), [e[1]]);
        } else {
          assert e[1..] == [];
        }
      }
      DepthEscaped(n, s[1..]);
    }
  }

  /** Pieces never change the depth, whatever their strings contain. */
  lemma {:induction false} DepthPieces(n: int, ps: seq<Piece>)
    requires Good(ps)
    ensures DepthRun(Depth(n, false, false), PiecesText(ps)) == Depth(n, false, false)
    decreases |ps|
  {
    if ps != [] {
      DepthAppend(Depth(n, false, false), PieceText(ps[0]), PiecesText(ps[1..]));
      match ps[0] {
        case Blank(ws) => DepthSpaces(n, ws);
        case Comma => assert DepthRun(Depth(n, false, false), ",") == Depth(n, false, false);
        case Quoted(s) =>
          DepthAppend(Depth(n, false, false), "\"", Escaped(s) + "\"");
          DepthAppend(Depth(n, true, false), Escaped(s), "\"");
          DepthEscaped(n, s);
          assert PieceText(ps[0]) == "\"" + (Escaped(s) + "\"");
      }
      DepthPieces(n, ps[1..]);
    }
  }

  lemma {:induction false} Deltas(ps: seq<Piece>)
    requires Good(ps)
    ensures BracketDelta(PiecesText(ps)) == 0
    ensures BracketDelta("[" + PiecesText(ps)) == 1
    ensures BracketDelta("[" + PiecesText(ps) + "]") == 0
    ensures BracketDelta(PiecesText(ps) + "]") == -1
  {
    DepthPieces(0, ps);
    DepthPieces(1, ps);
    DepthAppend(Depth(0, false, false), "[", PiecesText(ps));
    DepthAppend(Depth(0, false, false), "[" + PiecesText(ps), "]");
    DepthAppend(Depth(0, false, false), PiecesText(ps), "]");
  }

  // ----- Reading the lines -----

  lemma {:induction false} EqualsAfterKey(key: string, rest: string)
    requires forall i :: 0 <= i < |key| ==> key[i] != '='
    ensures FindEquals(key + "=" + rest) == Some(|key|)
    ensures (key + "=" + rest)[|key| + 1..] == rest
    decreases |key|
  {
    var text := key + "=" + rest;
    if key != [] {
      EqualsAfterKey(key[1..], rest);
      assert text[1..] == key[1..] + "=" + rest;
    }
  }

  lemma {:induction false} PlainParts(key: string, gap: string, lead: string)
    requires GoodKey(key) && AllSpace(gap) && AllSpace(lead)
    ensures Plain(lead + Opening(key, gap)) && Plain(lead) && Plain("]") && Plain([])
  {
  }

  /** The first line of a broken array starts a pending entry of depth 1. */
  lemma {:induction false} ReadFirst(lines: seq<string>, key: string, gap: string, l: Physical)
    requires GoodKey(key) && AllSpace(gap) && GoodLine(l) && EndsSolid(l.pieces)
    ensures ReadStep(Reader(lines, None), FirstLine(key, gap, l)) ==
            Reader(lines, Some(Pending(Opening(key, gap) + PiecesText(l.pieces), 1)))
  {
    hide StripRun, PiecesText, DepthRun, TrimStart, TrimEnd, FindEquals;
    var core := Opening(key, gap) + PiecesText(l.pieces);
    PlainParts(key, gap, l.lead);
    assert l.lead + core + TailText(l) == l.lead + Opening(key, gap) + PiecesText(l.pieces) + [] + TailText(l);
    StrippedLine(l.lead + Opening(key, gap), l.pieces, [], l);
    assert l.lead + Opening(key, gap) + PiecesText(l.pieces) + [] + l.trail == l.lead + core + l.trail;
    CoreSolid(key, gap, l.pieces);
    TrimmedIs(l.lead, core, l.trail);
    OpensWith(key, gap, PiecesText(l.pieces));
    Deltas(l.pieces);
  }

  lemma {:induction false} NoPieces()
    ensures PiecesText([]) == []
  {
  }

  lemma {:induction false} CoreSolid(key: string, gap: string, ps: seq<Piece>)
    requires GoodKey(key) && EndsSolid(ps)
    ensures Solid(Opening(key, gap) + PiecesText(ps)) && Solid("[" + PiecesText(ps))
    ensures Opening(key, gap) + PiecesText(ps) != []
  {
    hide PiecesText;
    if ps == [] {
      NoPieces();
      assert "[" + PiecesText(ps) == "[" && Opening(key, gap) + PiecesText(ps) == Opening(key, gap);
    } else {
      PiecesEnd(ps);
    }
  }

  /** What follows the equals sign of an opening line. */
  lemma {:induction false} OpensWith(key: string, gap: string, rest: string)
    requires GoodKey(key) && AllSpace(gap) && Solid("[" + rest)
    ensures FindEquals(Opening(key, gap) + rest) == Some(|key|)
    ensures Trimmed((Opening(key, gap) + rest)[|key| + 1..]) == "[" + rest
  {
    hide TrimStart, TrimEnd, FindEquals;
    assert Opening(key, gap) + rest == key + "=" + (gap + "[" + rest);
    EqualsAfterKey(key, gap + "[" + rest);
    assert gap + "[" + rest == gap + ("[" + rest) + [];
    TrimmedIs(gap, "[" + rest, []);
  }

  /** A middle line adds its pieces, or nothing if it has none. */
  lemma {:induction false} ReadMiddle(lines: seq<string>, text: string, l: Physical)
    requires GoodLine(l) && StartsSolid(l.pieces) && EndsSolid(l.pieces)
    ensures ReadStep(Reader(lines, Some(Pending(text, 1))), MiddleLine(l)) ==
            Reader(lines, Some(Pending(text + PiecesText(Joined([l])), 1)))
  {
    hide StripRun, DepthRun, TrimStart, TrimEnd;
    assert l.lead + PiecesText(l.pieces) + TailText(l) == l.lead + PiecesText(l.pieces) + [] + TailText(l);
    StrippedLine(l.lead, l.pieces, [], l);
    assert l.lead + PiecesText(l.pieces) + [] + l.trail == l.lead + PiecesText(l.pieces) + l.trail;
    if l.pieces != [] {
      PiecesStart(l.pieces);
      PiecesEnd(l.pieces);
    }
    TrimmedIs(l.lead, PiecesText(l.pieces), l.trail);
    Deltas(l.pieces);
    JoinedOne(l);
    assert text + [] == text;
    assert text + (" " + PiecesText(l.pieces)) == text + " " + PiecesText(l.pieces);
  }

  lemma {:induction false} JoinedOne(l: Physical)
    ensures PiecesText(Joined([l])) == if l.pieces == [] then [] else " " + PiecesText(l.pieces)
  {
    assert Joined([l][1..]) == [];
    if l.pieces != [] {
      var ps := [Blank(" ")] + l.pieces;
      assert ps[1..] == l.pieces && Joined([l]) == ps;
      assert PiecesText(ps) == PieceText(ps[0]) + PiecesText(l.pieces);
    }
  }

  lemma {:induction false} PiecesAppend(a: seq<Piece>, b: seq<Piece>)
    ensures PiecesText(a + b) == PiecesText(a) + PiecesText(b)
    decreases |a|
  {
    hide PieceText;
    if a == [] {
      assert a + b == b;
    } else {
      PiecesAppend(a[1..], b);
      assert (a + b)[1..] == a[1..] + b && (a + b)[0] == a[0];
      Assoc(PieceText(a[0]), PiecesText(a[1..]), PiecesText(b));
    }
  }

  lemma {:induction false} ReadMiddles(lines: seq<string>, text: string, ls: seq<Physical>)
    requires forall i :: 0 <= i < |ls| ==> GoodLine(ls[i]) && StartsSolid(ls[i].pieces) && EndsSolid(ls[i].pieces)
    ensures ReadRun(Reader(lines, Some(Pending(text, 1))), MiddleLines(ls)) ==
            Reader(lines, Some(Pending(text + PiecesText(Joined(ls)), 1)))
    decreases |ls|
  {
    hide ReadStep, GoodLine, MiddleLine, PiecesText, Joined, StartsSolid, EndsSolid;
    if ls == [] {
      NoPieces();
      NothingJoined();
      assert text + PiecesText(Joined(ls)) == text;
    } else {
      ReadMiddle(lines, text, ls[0]);
      var next := text + PiecesText(Joined([ls[0]]));
      ReadMiddles(lines, next, ls[1..]);
      assert MiddleLines(ls)[1..] == MiddleLines(ls[1..]);
      JoinedStep(ls);
      Assoc(text, PiecesText(Joined([ls[0]])), PiecesText(Joined(ls[1..])));
    }
  }

  lemma {:induction false} NothingJoined()
    ensures Joined([]) == []
  {
  }

  lemma {:induction false} JoinedStep(ls: seq<Physical>)
    requires ls != []
    ensures PiecesText(Joined(ls)) == PiecesText(Joined([ls[0]])) + PiecesText(Joined(ls[1..]))
  {
    hide PiecesText;
    assert [ls[0]][1..] == [];
    var head := if ls[0].pieces == [] then [] else [Blank(" ")] + ls[0].pieces;
    assert Joined([ls[0]]) == head + [] == head;
    PiecesAppend(head, Joined(ls[1..]));
  }

  lemma {:induction false} ReadLast(lines: seq<string>, text: string, l: Physical)
    requires GoodLine(l) && StartsSolid(l.pieces)
    ensures ReadStep(Reader(lines, Some(Pending(text, 1))), LastLine(l)) ==
            Reader(lines + [text + " " + (PiecesText(l.pieces) + "]")], None)
  {
    hide StripRun, PiecesText, DepthRun, TrimStart, TrimEnd;
    var core := PiecesText(l.pieces) + "]";
    assert l.lead + core + TailText(l) == l.lead + PiecesText(l.pieces) + "]" + TailText(l);
    StrippedLine(l.lead, l.pieces, "]", l);
    assert l.lead + PiecesText(l.pieces) + "]" + l.trail == l.lead + core + l.trail;
    if l.pieces == [] {
      NoPieces();
      assert core == "]";
    } else {
      PiecesStart(l.pieces);
    }
    TrimmedIs(l.lead, core, l.trail);
    Deltas(l.pieces);
  }

  lemma {:induction false} ReadAppend(r: Reader, a: seq<string>, b: seq<string>)
    ensures ReadRun(r, a + b) == ReadRun(ReadRun(r, a), b)
    decreases |a|
  {
    hide ReadStep;
    if a == [] {
      assert a + b == b;
    } else {
      ReadAppend(ReadStep(r, a[0]), a[1..], b);
      assert (a + b)[1..] == a[1..] + b;
    }
  }

  lemma {:induction false} ReadOne(r: Reader, line: string)
    ensures ReadRun(r, [line]) == ReadStep(r, line)
  {
    hide ReadStep;
    assert [line][1..] == [];
  }

  /** The logical line an array becomes. */
  function Entry(key: string, gap: string, l: Layout): string {
    Opening(key, gap) + PiecesText(Pieces(l)) + "]"
  }

  lemma {:induction false} ReadOneLine(lines: seq<string>, key: string, gap: string, l: Physical)
    requires GoodKey(key) && AllSpace(gap) && GoodLine(l)
    ensures ReadRun(Reader(lines, None), RawLines(key, gap, OneLine(l))) ==
            Reader(lines + [Entry(key, gap, OneLine(l))], None)
  {
    hide StripRun, PiecesText, DepthRun, TrimStart, TrimEnd, FindEquals, ReadRun;
    var core := Opening(key, gap) + PiecesText(l.pieces) + "]";
    PlainParts(key, gap, l.lead);
    assert l.lead + core + TailText(l) == l.lead + Opening(key, gap) + PiecesText(l.pieces) + "]" + TailText(l);
    StrippedLine(l.lead + Opening(key, gap), l.pieces, "]", l);
    assert l.lead + Opening(key, gap) + PiecesText(l.pieces) + "]" + l.trail == l.lead + core + l.trail;
    TrimmedIs(l.lead, core, l.trail);
    assert core == Opening(key, gap) + (PiecesText(l.pieces) + "]");
    OpensWith(key, gap, PiecesText(l.pieces) + "]");
    Deltas(l.pieces);
    assert "[" + (PiecesText(l.pieces) + "]") == "[" + PiecesText(l.pieces) + "]";
    ReadOne(Reader(lines, None), RawLines(key, gap, OneLine(l))[0]);
  }

  /** However it is laid out, an array becomes one logical line. */
  lemma {:induction false} ReadLayout(lines: seq<string>, key: string, gap: string, l: Layout)
    requires GoodKey(key) && AllSpace(gap) && GoodLayout(l)
    ensures ReadRun(Reader(lines, None), RawLines(key, gap, l)) == Reader(lines + [Entry(key, gap, l)], None)
  {
    hide ReadStep, PiecesText, ReadRun, GoodLine, FirstLine, LastLine;
    match l
    case OneLine(line) => ReadOneLine(lines, key, gap, line);
    case Broken(first, middle, last) =>
      var r := Reader(lines, None);
      var one, two, three := [FirstLine(key, gap, first)], MiddleLines(middle), [LastLine(last)];
      ReadAppend(r, one + two, three);
      ReadAppend(r, one, two);
      ReadOne(r, one[0]);
      ReadFirst(lines, key, gap, first);
      var text := Opening(key, gap) + PiecesText(first.pieces);
      ReadMiddles(lines, text, middle);
      var more := text + PiecesText(Joined(middle));
      ReadLast(lines, more, last);
      ReadOne(Reader(lines, Some(Pending(more, 1))), three[0]);
      JoinedText(first.pieces, Joined(middle), last.pieces);
      assert more + " " + (PiecesText(last.pieces) + "]") ==
             Opening(key, gap) + (PiecesText(first.pieces) + PiecesText(Joined(middle)) + " " + PiecesText(last.pieces)) + "]";
  }

  lemma {:induction false} OneBlank()
    ensures PiecesText([Blank(" ")]) == " "
  {
    assert [Blank(" ")][1..] == [] && " " + [] == " ";
  }

  lemma {:induction false} JoinedText(a: seq<Piece>, b: seq<Piece>, c: seq<Piece>)
    ensures PiecesText(a + b + [Blank(" ")] + c) == PiecesText(a) + PiecesText(b) + " " + PiecesText(c)
  {
    hide PiecesText;
    OneBlank();
    PiecesAppend(a + b + [Blank(" ")], c);
    PiecesAppend(a + b, [Blank(" ")]);
    PiecesAppend(a, b);
  }

  // ----- Parsing the array -----

  /** What pieces do to the values read so far; None for a comma with nothing before it. */
  function Fold(values: seq<string>, sawValue: bool, ps: seq<Piece>): Option<(seq<string>, bool)>
    decreases |ps|
  {
    if ps == [] then Some((values, sawValue))
    else
      match ps[0]
      case Blank(_) => Fold(values, sawValue, ps[1..])
      case Comma => if sawValue then Fold(values, false, ps[1..]) else None
      case Quoted(s) => Fold(values + [s], true, ps[1..])
  }

  predicate Idle(s: ArrayState, values: seq<string>, sawValue: bool) {
    !s.inString && !s.escape && s.values == values && s.sawValue == sawValue
  }

  lemma {:induction false} ArrayAppend(s: ArrayState, a: string, b: string)
    requires ArrayRun(s, a).Some?
    ensures ArrayRun(s, a + b) == ArrayRun(ArrayRun(s, a).value, b)
    decreases |a|
  {
    hide ArrayStep;
    if a == [] {
      assert a + b == b;
    } else {
      ArrayAppend(ArrayStep(s, a[0]).value, a[1..], b);
      assert (a + b)[1..] == a[1..] + b;
    }
  }

  lemma {:induction false} ArraySpaces(s: ArrayState, text: string)
    requires AllSpace(text) && !s.inString
    ensures ArrayRun(s, text) == Some(s)
    decreases |text|
  {
    if text != [] {
      ArraySpaces(s, text[1..]);
    }
  }

  lemma {:induction false} ArrayTwo(s: ArrayState, a: char, b: char)
    ensures ArrayRun(s, [a]) == ArrayStep(s, a)
    ensures ArrayStep(s, a).Some? ==> ArrayRun(s, [a, b]) == ArrayStep(ArrayStep(s, a).value, b)
  {
    hide ArrayStep;
    assert [a, b][1..] == [b] && [a][1..] == [] && [b][1..] == [];
    if ArrayStep(s, a).Some? {
      var t := ArrayStep(s, a).value;
      assert ArrayRun(t, [b]) == ArrayStep(t, b);
    }
  }

  lemma {:induction false} ArrayEscapeChar(s: ArrayState, ch: char)
    requires s.inString && !s.escape
    ensures ArrayRun(s, EscapeChar(ch)) == Some(s.(current := s.current + [ch]))
  {
    hide ArrayRun;
    var e := EscapeChar(ch);
    if |e| == 2 {
      ArrayTwo(s, e[0], e[1]);
      assert e == [e[0], e[1]];
    } else {
      ArrayTwo(s, ch, ch);
    }
  }

  lemma {:induction false} ArrayEscaped(s: ArrayState, t: string)
    requires s.inString && !s.escape
    ensures ArrayRun(s, Escaped(t)) == Some(s.(current := s.current + t))
    decreases |t|
  {
    hide ArrayStep, EscapeChar;
    if t == [] {
      assert s.current + t == s.current;
    } else {
      var next := s.(current := s.current + [t[0]]);
      ArrayEscapeChar(s, t[0]);
      ArrayAppend(s, EscapeChar(t[0]), Escaped(t[1..]));
      ArrayEscaped(next, t[1..]);
      assert s.current + [t[0]] + t[1..] == s.current + t;
    }
  }

  lemma {:induction false} ArrayQuoted(s: ArrayState, t: string)
    requires !s.inString && !s.escape
    ensures ArrayRun(s, PieceText(Quoted(t))) == Some(ArrayState(s.values + [t], t, false, false, true))
  {
    var open := s.(current := [], inString := true, escape := false);
    assert ArrayRun(s, "\"") == Some(open) by { assert "\""[1..] == []; }
    ArrayEscaped(open, t);
    assert [] + t == t;
    var filled := open.(current := t);
    ArrayAppend(open, Escaped(t), "\"");
    assert ArrayRun(filled, "\"") == Some(ArrayState(s.values + [t], t, false, false, true)) by { assert "\""[1..] == []; }
    ArrayAppend(s, "\"", Escaped(t) + "\"");
    assert PieceText(Quoted(t)) == "\"" + (Escaped(t) + "\"");
  }

  lemma {:induction false} ArrayPieces(s: ArrayState, ps: seq<Piece>)
    requires !s.inString && !s.escape && Good(ps) && Fold(s.values, s.sawValue, ps).Some?
    ensures var f := Fold(s.values, s.sawValue, ps).value;
            var r := ArrayRun(s, PiecesText(ps));
            r.Some? && Idle(r.value, f.0, f.1)
    decreases |ps|
  {
    if ps != [] {
      match ps[0]
      case Blank(ws) =>
        ArraySpaces(s, ws);
        ArrayAppend(s, ws, PiecesText(ps[1..]));
        ArrayPieces(s, ps[1..]);
      case Comma =>
        var next := s.(sawValue := false);
        assert ArrayRun(s, ",") == Some(next) by { assert ","[1..] == []; }
        ArrayAppend(s, ",", PiecesText(ps[1..]));
        ArrayPieces(next, ps[1..]);
      case Quoted(t) =>
        var next := ArrayState(s.values + [t], t, false, false, true);
        ArrayQuoted(s, t);
        ArrayAppend(s, PieceText(ps[0]), PiecesText(ps[1..]));
        ArrayPieces(next, ps[1..]);
    }
  }

  lemma {:induction false} FoldTokens(values: seq<string>, sawValue: bool, ps: seq<Piece>)
    ensures Fold(values, sawValue, ps) == Fold(values, sawValue, Tokens(ps))
    decreases |ps|
  {
    if ps != [] {
      var rest := Tokens(ps[1..]);
      if !ps[0].Blank? {
        assert ([ps[0]] + rest)[1..] == rest;
      } else {
        assert [] + rest == rest;
      }
      match ps[0]
      case Blank(_) => FoldTokens(values, sawValue, ps[1..]);
      case Comma => FoldTokens(values, false, ps[1..]);
      case Quoted(s) => FoldTokens(values + [s], true, ps[1..]);
    }
  }

  lemma {:induction false} FoldElements(values: seq<string>, sawValue: bool, strings: seq<string>, trailing: bool)
    ensures Fold(values, sawValue, Elements(strings, trailing)).Some?
    ensures Fold(values, sawValue, Elements(strings, trailing)).value.0 == values + strings
    decreases |strings|
  {
    var ps := Elements(strings, trailing);
    if strings == [] {
      assert values + strings == values;
    } else if |strings| == 1 {
      assert strings == [strings[0]];
      if trailing {
        assert ps[1..] == [Comma] && [Comma][1..] == [];
        assert Fold(values + [strings[0]], true, [Comma]) == Fold(values + [strings[0]], false, []);
      } else {
        assert ps[1..] == [];
      }
    } else {
      var rest := Elements(strings[1..], trailing);
      assert ps[1..] == [Comma] + rest && ps[1..][1..] == rest;
      assert Fold(values, sawValue, ps) == Fold(values + [strings[0]], true, ps[1..]);
      assert Fold(values + [strings[0]], true, ps[1..]) == Fold(values + [strings[0]], false, rest);
      FoldElements(values + [strings[0]], false, strings[1..], trailing);
      assert values + [strings[0]] + strings[1..] == values + strings;
    }
  }

  lemma {:induction false} EntryParses(key: string, gap: string, l: Layout, strings: seq<string>, trailing: bool)
    requires GoodKey(key) && AllSpace(gap) && GoodLayout(l)
    requires Tokens(Pieces(l)) == Elements(strings, trailing)
    ensures EntryArray(Entry(key, gap, l)) == Some(strings)
  {
    hide PiecesText, TrimStart, TrimEnd, FindEquals, ArrayRun, Tokens, Elements, Fold;
    var ps := Pieces(l);
    PiecesGood(l);
    var body := PiecesText(ps);
    assert Entry(key, gap, l) == Opening(key, gap) + (body + "]");
    assert Solid("[" + (body + "]"));
    OpensWith(key, gap, body + "]");
    FoldTokens([], false, ps);
    FoldElements([], false, strings, trailing);
    ArrayPieces(ARRAY_START, ps);
    assert [] + strings == strings;
    var text := "[" + (body + "]");
    assert text[1..|text| - 1] == body;
  }

  lemma {:induction false} JoinedGood(ls: seq<Physical>)
    requires forall i :: 0 <= i < |ls| ==> GoodLine(ls[i])
    ensures Good(Joined(ls))
    decreases |ls|
  {
    if ls != [] {
      JoinedGood(ls[1..]);
    }
  }

  lemma {:induction false} PiecesGood(l: Layout)
    requires GoodLayout(l)
    ensures Good(Pieces(l))
  {
    if l.Broken? {
      JoinedGood(l.middle);
    }
  }

  /**
   Any list of strings, escaped and laid out over lines in any way, is read
   as one more entry, and that entry parses back to exactly the list.
   */
  lemma {:induction false} ArrayRoundTrip(lines: seq<string>, key: string, gap: string, l: Layout, strings: seq<string>, trailing: bool)
    requires GoodKey(key) && AllSpace(gap) && GoodLayout(l)
    requires Tokens(Pieces(l)) == Elements(strings, trailing)
    ensures var r := ReadRun(Reader(lines, None), RawLines(key, gap, l));
            && |r.lines| == |lines| + 1 && lines <= r.lines && r.pending == None
            && EntryArray(r.lines[|lines|]) == Some(strings)
  {
    hide ReadRun, EntryArray, Entry, RawLines, GoodLayout, Tokens, Elements, Pieces;
    ReadLayout(lines, key, gap, l);
    EntryParses(key, gap, l, strings, trailing);
  }
}
