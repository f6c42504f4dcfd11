/**
 What the scanners of build.toml's text see, by position in the text: which
 characters are protected by a backslash, which lie inside a string, and which
 array texts are accepted.
 */
module ProjectScan {
  import opened Wrappers
  import opened ProjectText
  import opened ProjectArrays

  // ----- Positions -----

  /** Whitespace of the C locale: the space and the control characters 9 to 13. */
  lemma {:induction false} SpaceIs(ch: char)
    ensures IsSpace(ch) <==> ch as int == 32 || 9 <= ch as int <= 13
  {
    assert '\U{0B}' as int == 11 && '\U{0C}' as int == 12;
  }

  /** Position k follows a backslash that is not itself protected. */
  predicate Protected(text: string, k: nat)
    requires k <= |text|
  {
    k > 0 && text[k - 1] == '\\' && !Protected(text, k - 1)
  }

  /** An odd number of unprotected quotes comes before position k. */
  predicate InString(text: string, k: nat)
    requires k <= |text|
  {
    k > 0 && (InString(text, k - 1) != (text[k - 1] == '"' && !Protected(text, k - 1)))
  }

  /** An unprotected character outside strings. */
  predicate IsCode(text: string, k: nat, ch: char)
    requires k < |text|
  {
    text[k] == ch && !Protected(text, k) && !InString(text, k)
  }

  lemma {:induction false} PrefixPositions(text: string, n: nat, k: nat)
    requires k <= n <= |text|
    ensures Protected(text[..n], k) == Protected(text, k) && InString(text[..n], k) == InString(text, k)
  {
    if k > 0 {
      PrefixPositions(text, n, k - 1);
    }
  }

  // ----- Comments -----

  /** The first hash that is code, or the end. */
  predicate CommentAt(line: string, k: nat) {
    && k <= |line|
    && (k < |line| ==> IsCode(line, k, '#'))
    && forall j :: 0 <= j < k ==> !IsCode(line, j, '#')
  }

  lemma {:induction false} StripState(line: string, k: nat)
    requires k <= |line| && forall j :: 0 <= j < k ==> !IsCode(line, j, '#')
    ensures StripRun(Strip([], false, false, false), line[..k]) == Strip(line[..k], InString(line, k), Protected(line, k), false)
  {
    if k == 0 {
      assert line[..0] == [];
    } else {
      StripState(line, k - 1);
      var s := Strip(line[..k - 1], InString(line, k - 1), Protected(line, k - 1), false);
      assert line[..k] == line[..k - 1] + [line[k - 1]];
      StripAppend(Strip([], false, false, false), line[..k - 1], [line[k - 1]]);
      assert !IsCode(line, k - 1, '#');
      StripOne(s, line[k - 1]);
    }
  }

  lemma {:induction false} StripOne(s: Strip, ch: char)
    ensures StripRun(s, [ch]) == StripStep(s, ch)
  {
    assert [ch][1..] == [];
  }

  /** A line loses exactly what starts at its first hash outside strings and not behind a backslash. */
  lemma {:induction false} StrippedAt(line: string, k: nat)
    requires CommentAt(line, k)
    ensures Stripped(line) == line[..k]
  {
    hide StripStep;
    var s := Strip([], false, false, false);
    StripState(line, k);
    assert line[..k] + line[k..] == line;
    StripAppend(s, line[..k], line[k..]);
    if k < |line| {
      var before := Strip(line[..k], false, false, false);
      StripOne(before, '#');
      assert StripStep(before, '#') == before.(stopped := true) by { HashStops(before); }
      assert line[k..] == [line[k]] + line[k + 1..];
      StripAppend(before, [line[k]], line[k + 1..]);
      StoppedStays(before.(stopped := true), line[k + 1..]);
    } else {
      assert line[k..] == [];
    }
  }

  lemma {:induction false} HashStops(s: Strip)
    requires !s.stopped && !s.escape && !s.inString
    ensures StripStep(s, '#') == s.(stopped := true)
  {
  }

  /** There is always one such place. */
  lemma {:induction false} CommentSomewhere(line: string, n: nat) returns (k: nat)
    requires n <= |line| && forall j :: 0 <= j < n ==> !IsCode(line, j, '#')
    ensures CommentAt(line, k)
    decreases |line| - n
  {
    if n == |line| {
      k := n;
    } else if IsCode(line, n, '#') {
      k := n;
    } else {
      k := CommentSomewhere(line, n + 1);
    }
  }

  // ----- Brackets -----

  /** How often ch is code in the first k characters. */
  function CodeCount(text: string, k: nat, ch: char): nat
    requires k <= |text|
  {
    if k == 0 then 0 else CodeCount(text, k - 1, ch) + if IsCode(text, k - 1, ch) then 1 else 0
  }

  lemma {:induction false} DepthState(text: string, k: nat)
    requires k <= |text|
    ensures DepthRun(Depth(0, false, false), text[..k]) ==
            Depth(CodeCount(text, k, '[') - CodeCount(text, k, ']'), InString(text, k), Protected(text, k))
  {
    if k == 0 {
      assert text[..0] == [];
    } else {
      DepthState(text, k - 1);
      var d := DepthRun(Depth(0, false, false), text[..k - 1]);
      assert text[..k] == text[..k - 1] + [text[k - 1]];
      DepthAppend(Depth(0, false, false), text[..k - 1], [text[k - 1]]);
      DepthOne(d, text[k - 1]);
    }
  }

  lemma {:induction false} DepthOne(d: Depth, ch: char)
    ensures DepthRun(d, [ch]) == DepthStep(d, ch)
  {
    assert [ch][1..] == [];
  }

  /** The bracket delta is opening minus closing brackets that are code. */
  lemma {:induction false} DeltaCounts(text: string)
    ensures BracketDelta(text) == CodeCount(text, |text|, '[') - CodeCount(text, |text|, ']')
  {
    hide DepthRun;
    DepthState(text, |text|);
    assert text[..|text|] == text;
  }

  // ----- Arrays of strings -----

  /** A character of a string as written. */
  datatype Written = Raw(ch: char) | Backslash(ch: char)

  datatype Token = Space(ch: char) | Separator | Literal(chars: seq<Written>)

  predicate GoodWritten(c: Written) {
    match c
    case Raw(ch) => ch != '\\' && ch != '"'
    case Backslash(ch) => ch in {'n', 't', '\\', '"'}
  }

  predicate GoodToken(t: Token) {
    match t
    case Space(ch) => IsSpace(ch)
    case Separator => true
    case Literal(chars) => forall i :: 0 <= i < |chars| ==> GoodWritten(chars[i])
  }

  function WrittenText(chars: seq<Written>): string {
    if chars == [] then []
    else (match chars[0] case Raw(ch) => [ch] case Backslash(ch) => ['\\', ch]) + WrittenText(chars[1..])
  }

  function Meant(c: Written): char {
    match c
    case Raw(ch) => ch
    case Backslash(ch) => if ch == 'n' then '\n' else if ch == 't' then '\t' else ch
  }

  function MeantText(chars: seq<Written>): string {
    seq(|chars|, i requires 0 <= i < |chars| => Meant(chars[i]))
  }

  function TokenText(t: Token): string {
    match t
    case Space(ch) => [ch]
    case Separator => ","
    case Literal(chars) => "\"" + WrittenText(chars) + "\""
  }

  function TokensText(ts: seq<Token>): string {
    if ts == [] then [] else TokenText(ts[0]) + TokensText(ts[1..])
  }

  function Values(ts: seq<Token>): seq<string> {
    if ts == [] then [] else (if ts[0].Literal? then [MeantText(ts[0].chars)] else []) + Values(ts[1..])
  }

  /** Every comma has a string between it and the comma before it; seen says whether one is there already. */
  predicate CommasFollow(ts: seq<Token>, seen: bool)
    decreases |ts|
  {
    ts == [] ||
      match ts[0]
      case Space(_) => CommasFollow(ts[1..], seen)
      case Separator => seen && CommasFollow(ts[1..], false)
      case Literal(_) => CommasFollow(ts[1..], true)
  }

  ghost predicate Reads(body: string, seen: bool, values: seq<string>) {
    exists ts: seq<Token> :: TokensRead(ts, body, seen, values)
  }

  predicate TokensRead(ts: seq<Token>, body: string, seen: bool, values: seq<string>) {
    && (forall i :: 0 <= i < |ts| ==> GoodToken(ts[i]))
    && body == TokensText(ts) && CommasFollow(ts, seen) && Values(ts) == values
  }

  /** Where the parser stands between tokens. */
  function Outside(values: seq<string>, current: string, seen: bool): ArrayState {
    ArrayState(values, current, false, false, seen)
  }

  predicate Finishes(s: ArrayState, text: string, values: seq<string>) {
    && ArrayRun(s, text).Some?
    && var t := ArrayRun(s, text).value;
    !t.inString && !t.escape && t.values == values
  }

  lemma {:induction false} OneMore(t: Token, ts: seq<Token>, body: string, rest: string, seen: bool, after: bool, more: seq<string>)
    requires TokensRead(ts, rest, after, more) && GoodToken(t) && body == TokenText(t) + rest
    requires match t case Space(_) => after == seen case Separator => seen && !after case Literal(_) => after
    ensures TokensRead([t] + ts, body, seen, (if t.Literal? then [MeantText(t.chars)] else []) + more)
  {
    var all := [t] + ts;
    assert all[1..] == ts && all[0] == t;
  }

  /** What is parsed from here on comes from tokens. */
  lemma {:induction false} ParsedIsTokens(values: seq<string>, current: string, seen: bool, text: string, all: seq<string>)
    returns (ts: seq<Token>, more: seq<string>)
    requires Finishes(Outside(values, current, seen), text, all)
    ensures all == values + more && TokensRead(ts, text, seen, more)
    decreases |text|, 1
  {
    hide TokensRead, GoodWritten;
    if text == [] {
      ts, more := [], [];
      assert TokensRead([], [], seen, []) by { NoTokens(seen); }
      assert values + [] == values;
    } else {
      var s, ch, rest := Outside(values, current, seen), text[0], text[1..];
      assert text == [ch] + rest;
      if IsSpace(ch) {
        ts, more := ParsedIsTokens(values, current, seen, rest, all);
        OneMore(Space(ch), ts, text, rest, seen, seen, more);
        assert [] + more == more;
        ts := [Space(ch)] + ts;
      } else if ch == ',' {
        ts, more := ParsedIsTokens(values, current, false, rest, all);
        OneMore(Separator, ts, text, rest, seen, false, more);
        assert [] + more == more;
        ts := [Separator] + ts;
      } else {
        ts, more := ParsedIsLiteral(values, [], seen, rest, all);
        assert [] + WrittenText(ts[0].chars) == WrittenText(ts[0].chars);
        LiteralFirst(ts, text, rest, seen, more);
      }
    }
  }

  lemma {:induction false} NoTokens(seen: bool)
    ensures TokensRead([], [], seen, [])
  {
  }

  /** The first token's text is its opening quote and what follows. */
  lemma {:induction false} LiteralFirst(ts: seq<Token>, text: string, rest: string, seen: bool, more: seq<string>)
    requires ts != [] && ts[0].Literal? && GoodToken(ts[0]) && text == "\"" + rest && more != [] && more[0] == MeantText(ts[0].chars)
    requires exists after :: RestRead(ts, rest, more, after)
    ensures TokensRead(ts, text, seen, more)
  {
    var after :| RestRead(ts, rest, more, after);
    assert text == TokenText(ts[0]) + after by {
      assert text == "\"" + (WrittenText(ts[0].chars) + "\"" + after);
    }
    OneMore(ts[0], ts[1..], text, after, seen, true, more[1..]);
    assert ts == [ts[0]] + ts[1..] && more == [more[0]] + more[1..];
  }

  /** Behind the first literal's characters come its closing quote and the text of the other tokens. */
  predicate RestRead(ts: seq<Token>, rest: string, more: seq<string>, after: string)
    requires ts != [] && ts[0].Literal? && more != []
  {
    rest == WrittenText(ts[0].chars) + "\"" + after && TokensRead(ts[1..], after, true, more[1..])
  }

  /** One written character inside a string. */
  lemma {:induction false} StringStep(values: seq<string>, current: string, seen: bool, text: string, all: seq<string>)
    requires Finishes(ArrayState(values, current, true, false, seen), text, all)
    ensures text != []
    ensures text[0] == '"' ==> Finishes(Outside(values + [current], current, true), text[1..], all)
    ensures text[0] == '\\' ==>
              && |text| > 1 && GoodWritten(Backslash(text[1]))
              && Finishes(ArrayState(values, current + [Meant(Backslash(text[1]))], true, false, seen), text[2..], all)
    ensures text[0] != '"' && text[0] != '\\' ==>
              Finishes(ArrayState(values, current + [text[0]], true, false, seen), text[1..], all)
  {
    if text != [] && text[0] == '\\' {
      var s := ArrayState(values, current, true, true, seen);
      assert ArrayRun(ArrayState(values, current, true, false, seen), text) == ArrayRun(s, text[1..]);
      var rest := text[1..];
      assert rest == [] || |text| > 1;
      if |text| > 1 {
        assert text[1..][1..] == text[2..] && text[1..][0] == text[1];
      }
    }
  }

  lemma {:induction false} ParsedIsLiteral(values: seq<string>, current: string, seen: bool, text: string, all: seq<string>)
    returns (ts: seq<Token>, more: seq<string>)
    requires Finishes(ArrayState(values, current, true, false, seen), text, all)
    ensures ts != [] && ts[0].Literal? && GoodToken(ts[0]) && more != []
    ensures all == values + [current + MeantText(ts[0].chars)] + more[1..] && more[0] == MeantText(ts[0].chars)
    ensures current == [] ==> all == values + more
    ensures exists after :: RestRead(ts, text, more, after)
    decreases |text|, 0
  {
    hide TokensRead, Finishes, GoodWritten, Meant;
    StringStep(values, current, seen, text, all);
    if text[0] == '"' {
      var ts', more' := ParsedIsTokens(values + [current], current, true, text[1..], all);
      ts, more := [Literal([])] + ts', [[]] + more';
      LiteralEnds(text, current, values, ts', more');
    } else if text[0] == '\\' {
      var ts', more' := ParsedIsLiteral(values, current + [Meant(Backslash(text[1]))], seen, text[2..], all);
      assert text == ['\\', text[1]] + text[2..];
      ts, more := LiteralGrows(Backslash(text[1]), ['\\', text[1]], ts', more', text, text[2..], values, current);
    } else {
      var ts', more' := ParsedIsLiteral(values, current + [text[0]], seen, text[1..], all);
      assert text == [text[0]] + text[1..];
      assert Meant(Raw(text[0])) == text[0] && GoodWritten(Raw(text[0])) by { RawIs(text[0]); }
      ts, more := LiteralGrows(Raw(text[0]), [text[0]], ts', more', text, text[1..], values, current);
    }
  }

  lemma {:induction false} RawIs(ch: char)
    ensures Meant(Raw(ch)) == ch && (ch != '\\' && ch != '"' ==> GoodWritten(Raw(ch)))
  {
  }

  lemma {:induction false} LiteralEnds(text: string, current: string, values: seq<string>, ts: seq<Token>, more: seq<string>)
    requires text != [] && text[0] == '"' && TokensRead(ts, text[1..], true, more)
    ensures RestRead([Literal([])] + ts, text, [[]] + more, text[1..])
    ensures MeantText([]) == [] && current + MeantText([]) == current
    ensures values + [current] + more == values + [current + MeantText([])] + ([[]] + more)[1..]
    ensures current == [] ==> values + [current] + more == values + ([[]] + more)
  {
    hide TokensRead;
    var all := [Literal([])] + ts;
    assert all[1..] == ts && ([[]] + more)[1..] == more;
    assert WrittenText([]) + "\"" + text[1..] == text;
    assert current + MeantText([]) == current;
    if current == [] {
      assert values + [current] + more == values + ([current] + more);
    }
  }

  /** One more written character in front of the first literal. */
  lemma {:induction false} LiteralGrows(c: Written, written: string, ts: seq<Token>, more: seq<string>, text: string, later: string,
                                        values: seq<string>, current: string) returns (ts': seq<Token>, more': seq<string>)
    requires ts != [] && ts[0].Literal? && GoodToken(ts[0]) && more != [] && GoodWritten(c)
    requires written == (match c case Raw(ch) => [ch] case Backslash(ch) => ['\\', ch]) && text == written + later
    requires more[0] == MeantText(ts[0].chars) && exists after :: RestRead(ts, later, more, after)
    ensures ts' != [] && ts'[0].Literal? && GoodToken(ts'[0]) && more' != []
    ensures more'[0] == MeantText(ts'[0].chars) && more'[1..] == more[1..]
    ensures current + [Meant(c)] + MeantText(ts[0].chars) == current + MeantText(ts'[0].chars)
    ensures current == [] ==> values + [current + MeantText(ts'[0].chars)] + more'[1..] == values + more'
    ensures exists after :: RestRead(ts', text, more', after)
  {
    hide TokensRead, GoodWritten, Meant;
    var chars := [c] + ts[0].chars;
    assert chars[1..] == ts[0].chars && MeantText(chars) == [Meant(c)] + MeantText(ts[0].chars);
    ts', more' := [Literal(chars)] + ts[1..], [MeantText(chars)] + more[1..];
    var after :| RestRead(ts, later, more, after);
    assert text == WrittenText(chars) + "\"" + after;
    assert RestRead(ts', text, more', after);
    assert [] + MeantText(chars) == MeantText(chars);
    assert values + [MeantText(chars)] + more[1..] == values + more';
  }

  // ----- The converse: tokens parse -----

  lemma {:induction false} CharacterParses(values: seq<string>, current: string, seen: bool, c: Written, later: string)
    requires GoodWritten(c)
    ensures var written := match c case Raw(ch) => [ch] case Backslash(ch) => ['\\', ch];
            ArrayRun(ArrayState(values, current, true, false, seen), written + later) ==
            ArrayRun(ArrayState(values, current + [Meant(c)], true, false, seen), later)
  {
    match c
    case Raw(ch) =>
      assert ([ch] + later)[1..] == later;
    case Backslash(ch) =>
      var text := ['\\', ch] + later;
      assert text[1..] == [ch] + later && text[1..][1..] == later;
      assert ArrayRun(ArrayState(values, current, true, false, seen), text) == ArrayRun(ArrayState(values, current, true, true, seen), text[1..]);
  }

  lemma {:induction false} CharactersParse(values: seq<string>, current: string, seen: bool, chars: seq<Written>, rest: string)
    requires forall i :: 0 <= i < |chars| ==> GoodWritten(chars[i])
    ensures ArrayRun(ArrayState(values, current, true, false, seen), WrittenText(chars) + rest) ==
            ArrayRun(ArrayState(values, current + MeantText(chars), true, false, seen), rest)
    decreases |chars|
  {
    hide ArrayRun, GoodWritten, Meant;
    if chars == [] {
      assert WrittenText(chars) + rest == rest && current + MeantText([]) == current;
    } else {
      var c, later := chars[0], WrittenText(chars[1..]) + rest;
      CharactersParse(values, current + [Meant(c)], seen, chars[1..], rest);
      CharacterParses(values, current, seen, c, later);
      assert current + [Meant(c)] + MeantText(chars[1..]) == current + MeantText(chars);
      assert WrittenText(chars) + rest == (match c case Raw(ch) => [ch] case Backslash(ch) => ['\\', ch]) + later;
    }
  }

  lemma {:induction false} TokensParse(values: seq<string>, current: string, seen: bool, ts: seq<Token>, body: string, more: seq<string>)
    requires TokensRead(ts, body, seen, more)
    ensures Finishes(Outside(values, current, seen), body, values + more)
    decreases |ts|
  {
    hide ArrayRun, TokensRead, WrittenText, MeantText, GoodWritten;
    if ts == [] {
      assert body == [] && more == [] by { NoneLeft(body, seen, more); }
      assert values + [] == values;
      NothingParses(Outside(values, current, seen));
    } else {
      var rest := FirstToken(ts, body, seen, more);
      match ts[0]
      case Space(ch) =>
        TokensParse(values, current, seen, ts[1..], rest, more);
        SpaceParses(values, current, seen, ch, rest);
      case Separator =>
        TokensParse(values, current, false, ts[1..], rest, more);
        SeparatorParses(values, current, rest);
      case Literal(chars) =>
        var meant := MeantText(chars);
        TokensParse(values + [meant], meant, true, ts[1..], rest, more[1..]);
        assert values + [meant] + more[1..] == values + more;
        LiteralParses(values, current, seen, chars, rest, body);
    }
  }

  lemma {:induction false} NoneLeft(body: string, seen: bool, more: seq<string>)
    requires TokensRead([], body, seen, more)
    ensures body == [] && more == []
  {
  }

  lemma {:induction false} NothingParses(s: ArrayState)
    ensures ArrayRun(s, []) == Some(s)
  {
  }

  lemma {:induction false} FirstToken(ts: seq<Token>, body: string, seen: bool, more: seq<string>) returns (rest: string)
    requires ts != [] && TokensRead(ts, body, seen, more)
    ensures GoodToken(ts[0]) && body == TokenText(ts[0]) + rest
    ensures ts[0].Separator? ==> seen
    ensures ts[0].Literal? ==> more != [] && more[0] == MeantText(ts[0].chars)
    ensures TokensRead(ts[1..], rest, match ts[0] case Space(_) => seen case Separator => false case Literal(_) => true,
                       if ts[0].Literal? then more[1..] else more)
  {
    rest := TokensText(ts[1..]);
    if ts[0].Literal? {
      assert more == [MeantText(ts[0].chars)] + Values(ts[1..]);
    } else {
      assert [] + Values(ts[1..]) == Values(ts[1..]);
    }
  }

  lemma {:induction false} SpaceParses(values: seq<string>, current: string, seen: bool, ch: char, rest: string)
    requires IsSpace(ch)
    ensures ArrayRun(Outside(values, current, seen), [ch] + rest) == ArrayRun(Outside(values, current, seen), rest)
  {
    assert ([ch] + rest)[1..] == rest;
  }

  lemma {:induction false} SeparatorParses(values: seq<string>, current: string, rest: string)
    ensures ArrayRun(Outside(values, current, true), "," + rest) == ArrayRun(Outside(values, current, false), rest)
  {
    assert ("," + rest)[1..] == rest;
  }

  lemma {:induction false} LiteralParses(values: seq<string>, current: string, seen: bool, chars: seq<Written>, rest: string, body: string)
    requires forall i :: 0 <= i < |chars| ==> GoodWritten(chars[i])
    requires body == "\"" + WrittenText(chars) + "\"" + rest
    ensures ArrayRun(Outside(values, current, seen), body) == ArrayRun(Outside(values + [MeantText(chars)], MeantText(chars), true), rest)
  {
    var inside := WrittenText(chars) + ("\"" + rest);
    assert body[1..] == inside && body[0] == '"';
    CharactersParse(values, [], seen, chars, "\"" + rest);
    assert [] + MeantText(chars) == MeantText(chars);
    assert ("\"" + rest)[1..] == rest;
  }

  /**
   Exactly these texts are arrays of strings: brackets around whitespace,
   strings with the four escapes, and commas that each follow a string. Two
   strings need no comma between them.
   */
  lemma {:induction false} ArrayTextsAre(text: string, values: seq<string>)
    ensures StringArray(text) == Some(values) <==>
            |text| >= 2 && text[0] == '[' && text[|text| - 1] == ']' && Reads(text[1..|text| - 1], false, values)
  {
    hide TokensRead, ArrayRun;
    if |text| >= 2 {
      var body := text[1..|text| - 1];
      if Finishes(ARRAY_START, body, values) {
        var ts, more := ParsedIsTokens([], [], false, body, values);
        assert [] + more == more;
        assert TokensRead(ts, body, false, values);
      }
      if Reads(body, false, values) {
        var ts: seq<Token> :| TokensRead(ts, body, false, values);
        TokensParse([], [], false, ts, body, values);
        assert [] + values == values;
      }
    }
  }

  /** A missing comma is not noticed. */
  lemma {:induction false} MissingCommaIsRead(a: seq<Written>, b: seq<Written>)
    requires GoodToken(Literal(a)) && GoodToken(Literal(b))
    ensures StringArray("[" + (TokenText(Literal(a)) + TokenText(Literal(b))) + "]") == Some([MeantText(a), MeantText(b)])
  {
    hide TokensRead, WrittenText, MeantText, StringArray;
    var x, y := TokenText(Literal(a)), TokenText(Literal(b));
    NoTokens(true);
    assert y + [] == y && [MeantText(b)] + [] == [MeantText(b)];
    OneMore(Literal(b), [], y, [], true, true, []);
    OneMore(Literal(a), [Literal(b)], x + y, y, false, true, [MeantText(b)]);
    assert [Literal(b)] + [] == [Literal(b)];
    assert [MeantText(a)] + [MeantText(b)] == [MeantText(a), MeantText(b)];
    var text := "[" + (x + y) + "]";
    assert text[1..|text| - 1] == x + y;
    assert TokensRead([Literal(a)] + [Literal(b)], x + y, false, [MeantText(a), MeantText(b)]);
    ArrayTextsAre(text, [MeantText(a), MeantText(b)]);
  }
}
