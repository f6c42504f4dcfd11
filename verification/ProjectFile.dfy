/**
 Reading a whole build.toml down to its logical lines: section headers, single
 values, arrays in any layout, blank lines and comments, in any order; and an
 array that is never closed.
 */
module ProjectFile {
  import opened Wrappers
  import opened ProjectText
  import opened ProjectArrays

  // ----- Writing -----

  datatype Value = Word(text: string) | Text(s: string)

  /** What a file consists of; line holds the whitespace around a text and the comment behind it. */
  datatype Item =
    | Nothing(line: Physical)
    | Header(text: string, line: Physical)
    | Single(key: string, gap: string, value: Value, line: Physical)
    | Strings(key: string, gap: string, layout: Layout)

  function ValueText(v: Value): string {
    match v
    case Word(text) => text
    case Text(s) => "\"" + Escaped(s) + "\""
  }

  predicate GoodItem(item: Item) {
    match item
    case Nothing(line) => AllSpace(line.lead) && AllSpace(line.trail)
    case Header(text, line) =>
      AllSpace(line.lead) && AllSpace(line.trail) && text != [] && Solid(text) && Plain(text) && '=' !in text
    case Single(key, gap, value, line) =>
      && AllSpace(line.lead) && AllSpace(line.trail) && GoodKey(key) && AllSpace(gap)
      && (value.Word? ==> value.text != [] && Solid(value.text) && Plain(value.text) && value.text[0] != '[')
    case Strings(key, gap, layout) => GoodKey(key) && AllSpace(gap) && GoodLayout(layout)
  }

  function ItemRaw(item: Item): seq<string> {
    match item
    case Nothing(line) => [line.lead + TailText(line)]
    case Header(text, line) => [line.lead + text + TailText(line)]
    case Single(key, gap, value, line) => [line.lead + (key + "=" + gap + ValueText(value)) + TailText(line)]
    case Strings(key, gap, layout) => RawLines(key, gap, layout)
  }

  /** The logical lines the item should become. */
  function ItemLines(item: Item): seq<string> {
    match item
    case Nothing(_) => []
    case Header(text, _) => [text]
    case Single(key, gap, value, _) => [key + "=" + gap + ValueText(value)]
    case Strings(key, gap, layout) => [Entry(key, gap, layout)]
  }

  function FileRaw(items: seq<Item>): seq<string> {
    if items == [] then [] else ItemRaw(items[0]) + FileRaw(items[1..])
  }

  function FileLines(items: seq<Item>): seq<string> {
    if items == [] then [] else ItemLines(items[0]) + FileLines(items[1..])
  }

  // ----- Reading one line -----

  lemma {:induction false} PieceOfText(s: string)
    ensures PiecesText([Quoted(s)]) == "\"" + Escaped(s) + "\"" && Good([Quoted(s)])
  {
    assert [Quoted(s)][1..] == [] && PiecesText([]) == [];
    assert "\"" + Escaped(s) + "\"" + [] == "\"" + Escaped(s) + "\"";
  }

  /** Comment and surrounding whitespace go, the rest stays. */
  lemma {:induction false} LineRead(head: string, ps: seq<Piece>, l: Physical)
    requires AllSpace(l.lead) && AllSpace(l.trail) && Plain(head) && Good(ps) && Solid(head + PiecesText(ps))
    ensures Trimmed(Stripped(l.lead + (head + PiecesText(ps)) + TailText(l))) == head + PiecesText(ps)
  {
    hide PiecesText, StripRun, TrimStart, TrimEnd;
    var core := head + PiecesText(ps);
    assert Plain(l.lead + head) && Plain([]);
    assert l.lead + core + TailText(l) == l.lead + head + PiecesText(ps) + [] + TailText(l);
    StrippedLine(l.lead + head, ps, [], l);
    assert l.lead + head + PiecesText(ps) + [] + l.trail == l.lead + core + l.trail;
    TrimmedIs(l.lead, core, l.trail);
  }

  lemma {:induction false} PlainRead(text: string, l: Physical)
    requires AllSpace(l.lead) && AllSpace(l.trail) && Plain(text) && Solid(text)
    ensures Trimmed(Stripped(l.lead + text + TailText(l))) == text
  {
    hide PiecesText, StripRun, TrimStart, TrimEnd;
    NoPieces();
    assert text + PiecesText([]) == text;
    LineRead(text, [], l);
  }

  lemma {:induction false} ReadNothing(lines: seq<string>, l: Physical)
    requires AllSpace(l.lead) && AllSpace(l.trail)
    ensures ReadStep(Reader(lines, None), l.lead + TailText(l)) == Reader(lines, None)
  {
    hide StripRun, TrimStart, TrimEnd;
    assert l.lead + [] + TailText(l) == l.lead + TailText(l);
    PlainRead([], l);
  }

  lemma {:induction false} ReadHeader(lines: seq<string>, text: string, l: Physical)
    requires GoodItem(Header(text, l))
    ensures ReadStep(Reader(lines, None), l.lead + text + TailText(l)) == Reader(lines + [text], None)
  {
    hide StripRun, TrimStart, TrimEnd, FindEquals, BracketDelta;
    PlainRead(text, l);
    assert FindEquals(text) == None;
  }

  lemma {:induction false} SingleRead(key: string, gap: string, value: Value, l: Physical)
    requires GoodItem(Single(key, gap, value, l))
    ensures var text := key + "=" + gap + ValueText(value);
            text != [] && Trimmed(Stripped(l.lead + text + TailText(l))) == text
  {
    hide StripRun, TrimStart, TrimEnd, PiecesText, Escaped;
    var head := key + "=" + gap;
    if value.Word? {
      PlainRead(head + value.text, l);
    } else {
      PieceOfText(value.s);
      LineRead(head, [Quoted(value.s)], l);
    }
  }

  lemma {:induction false} OpensNothing(key: string, gap: string, value: Value, l: Physical)
    requires GoodItem(Single(key, gap, value, l))
    ensures OpensArray(key + "=" + gap + ValueText(value)) == None
  {
    hide TrimStart, TrimEnd, BracketDelta, Escaped;
    var text := ValueText(value);
    assert key + "=" + gap + text == key + "=" + (gap + text);
    EqualsAfterKey(key, gap + text);
    assert gap + text + [] == gap + text;
    TrimmedIs(gap, text, []);
  }

  lemma {:induction false} ReadSingle(lines: seq<string>, key: string, gap: string, value: Value, l: Physical)
    requires GoodItem(Single(key, gap, value, l))
    ensures var text := key + "=" + gap + ValueText(value);
            ReadStep(Reader(lines, None), l.lead + text + TailText(l)) == Reader(lines + [text], None)
  {
    hide Trimmed, Stripped, OpensArray, ValueText, TailText;
    SingleRead(key, gap, value, l);
    OpensNothing(key, gap, value, l);
  }

  // ----- Reading the file -----

  lemma {:induction false} ReadItem(lines: seq<string>, item: Item)
    requires GoodItem(item)
    ensures ReadRun(Reader(lines, None), ItemRaw(item)) == Reader(lines + ItemLines(item), None)
  {
    hide ReadRun, ReadStep, RawLines, Entry, ValueText, TailText;
    match item
    case Nothing(line) =>
      ReadOne(Reader(lines, None), ItemRaw(item)[0]);
      ReadNothing(lines, line);
      assert lines + [] == lines;
    case Header(text, line) =>
      ReadOne(Reader(lines, None), ItemRaw(item)[0]);
      ReadHeader(lines, text, line);
    case Single(key, gap, value, line) =>
      ReadOne(Reader(lines, None), ItemRaw(item)[0]);
      ReadSingle(lines, key, gap, value, line);
    case Strings(key, gap, layout) =>
      ReadLayout(lines, key, gap, layout);
  }

  /** Every file of such items is read as their logical lines, in order, and nothing is left open. */
  lemma {:induction false} FileRead(lines: seq<string>, items: seq<Item>)
    requires forall i :: 0 <= i < |items| ==> GoodItem(items[i])
    ensures ReadRun(Reader(lines, None), FileRaw(items)) == Reader(lines + FileLines(items), None)
    decreases |items|
  {
    hide GoodItem, ItemRaw, ItemLines, ReadStep;
    if items == [] {
      assert lines + [] == lines;
    } else {
      ReadItem(lines, items[0]);
      ReadAppend(Reader(lines, None), ItemRaw(items[0]), FileRaw(items[1..]));
      FileRead(lines + ItemLines(items[0]), items[1..]);
      assert lines + ItemLines(items[0]) + FileLines(items[1..]) == lines + (ItemLines(items[0]) + FileLines(items[1..]));
    }
  }

  /** An array still open at the end of the file is reported, and the lines before it are kept. */
  lemma {:induction false} UnclosedArray(items: seq<Item>, key: string, gap: string, first: Physical, middle: seq<Physical>)
    requires forall i :: 0 <= i < |items| ==> GoodItem(items[i])
    requires GoodKey(key) && AllSpace(gap) && GoodLine(first) && EndsSolid(first.pieces)
    requires forall i :: 0 <= i < |middle| ==> GoodLine(middle[i]) && StartsSolid(middle[i].pieces) && EndsSolid(middle[i].pieces)
    ensures var r := ReadRun(Reader([], None), FileRaw(items) + [FirstLine(key, gap, first)] + MiddleLines(middle));
            r.lines == FileLines(items) && r.pending.Some?
  {
    hide GoodItem, ReadStep, ReadRun, FileRaw, FileLines, FirstLine, MiddleLines, PiecesText, GoodLine;
    var r, opening := Reader([], None), [FirstLine(key, gap, first)];
    ReadAppend(r, FileRaw(items) + opening, MiddleLines(middle));
    ReadAppend(r, FileRaw(items), opening);
    FileRead([], items);
    assert [] + FileLines(items) == FileLines(items);
    ReadOne(Reader(FileLines(items), None), opening[0]);
    ReadFirst(FileLines(items), key, gap, first);
    ReadMiddles(FileLines(items), Opening(key, gap) + PiecesText(first.pieces), middle);
  }

  // ----- Any entry over several lines -----

  /** A raw line without its comment and the whitespace around the rest. */
  function Content(rawLine: string): string {
    Trimmed(Stripped(rawLine))
  }

  /** The contents of the lines, joined by single spaces; lines without content leave no trace. */
  function JoinedContents(text: string, rawLines: seq<string>): string
    decreases |rawLines|
  {
    if rawLines == [] then text
    else JoinedContents(if Content(rawLines[0]) == [] then text else text + " " + Content(rawLines[0]), rawLines[1..])
  }

  /** Brackets still open after n of the lines. */
  function OpenAfter(depth: int, rawLines: seq<string>, n: nat): int
    requires n <= |rawLines|
  {
    if n == 0 then depth else OpenAfter(depth, rawLines, n - 1) + BracketDelta(Content(rawLines[n - 1]))
  }

  lemma {:induction false} NoContentNoBrackets()
    ensures BracketDelta([]) == 0
  {
  }

  lemma {:induction false} OpenAfterTail(depth: int, rawLines: seq<string>, n: nat)
    requires n < |rawLines|
    ensures OpenAfter(depth + BracketDelta(Content(rawLines[0])), rawLines[1..], n) == OpenAfter(depth, rawLines, n + 1)
  {
    hide Content, BracketDelta;
    if n > 0 {
      OpenAfterTail(depth, rawLines, n - 1);
    } else {
      assert OpenAfter(depth, rawLines, 1) == OpenAfter(depth, rawLines, 0) + BracketDelta(Content(rawLines[0]));
    }
  }

  /** The n lines end with one without content, or leave brackets open. */
  predicate StaysOpen(depth: int, rawLines: seq<string>, n: nat)
    requires n <= |rawLines|
  {
    n > 0 && Content(rawLines[n - 1]) != [] ==> OpenAfter(depth, rawLines, n) > 0
  }

  /** While brackets are open, lines are collected. */
  lemma {:induction false} Collected(lines: seq<string>, text: string, depth: int, rawLines: seq<string>)
    requires forall n :: 0 <= n <= |rawLines| ==> StaysOpen(depth, rawLines, n)
    ensures ReadRun(Reader(lines, Some(Pending(text, depth))), rawLines) ==
            Reader(lines, Some(Pending(JoinedContents(text, rawLines), OpenAfter(depth, rawLines, |rawLines|))))
    decreases |rawLines|
  {
    hide BracketDelta, Trimmed, Stripped, OpensArray;
    if rawLines != [] {
      var first := Content(rawLines[0]);
      NoContentNoBrackets();
      var next := if first == [] then text else text + " " + first;
      assert OpenAfter(depth, rawLines, 1) == depth + BracketDelta(first) by {
        assert OpenAfter(depth, rawLines, 0) == depth;
      }
      var one := 1;
      assert StaysOpen(depth, rawLines, one);
      var tail, open := rawLines[1..], depth + BracketDelta(first);
      forall n | 0 <= n <= |tail| ensures StaysOpen(open, tail, n) {
        if n > 0 {
          OpenAfterTail(depth, rawLines, n);
          assert tail[n - 1] == rawLines[n];
          var m := n + 1;
          assert StaysOpen(depth, rawLines, m);
        }
      }
      Collected(lines, next, open, tail);
      OpenAfterTail(depth, rawLines, |rawLines| - 1);
      StepWhilePending(lines, text, depth, rawLines[0]);
    }
  }

  lemma {:induction false} StepWhilePending(lines: seq<string>, text: string, depth: int, rawLine: string)
    ensures var content := Content(rawLine); var open := depth + BracketDelta(content);
            ReadStep(Reader(lines, Some(Pending(text, depth))), rawLine) ==
            if content == [] then Reader(lines, Some(Pending(text, depth)))
            else if open <= 0 then Reader(lines + [text + " " + content], None)
            else Reader(lines, Some(Pending(text + " " + content, open)))
  {
    hide BracketDelta, Trimmed, Stripped, OpensArray;
  }

  /** An opening line: after the first equals sign comes a bracket, and more brackets open than close. */
  predicate Opens(content: string, at: nat, depth: int) {
    && at < |content| && content[at] == '=' && '=' !in content[..at]
    && var value := Trimmed(content[at + 1..]);
    value != [] && value[0] == '[' && BracketDelta(value) == depth > 0
  }

  lemma {:induction false} FirstEquals(line: string, at: nat)
    requires at < |line| && line[at] == '=' && '=' !in line[..at]
    ensures FindEquals(line) == Some(at)
  {
    assert line == line[..at] + "=" + line[at + 1..];
    EqualsAfterKey(line[..at], line[at + 1..]);
  }

  /**
   However deep its brackets nest, an entry runs from the line that opens them
   to the first line after which none is open, and becomes one logical line of
   the contents joined by spaces.
   */
  lemma {:induction false} EntryJoined(lines: seq<string>, first: string, at: nat, depth: int, middle: seq<string>, last: string)
    requires Opens(Content(first), at, depth)
    requires forall n :: 0 <= n <= |middle| ==> StaysOpen(depth, middle, n)
    requires Content(last) != [] && OpenAfter(depth, middle, |middle|) + BracketDelta(Content(last)) <= 0
    ensures ReadRun(Reader(lines, None), [first] + middle + [last]) ==
            Reader(lines + [JoinedContents(Content(first), middle) + " " + Content(last)], None)
  {
    hide Trimmed, Stripped, BracketDelta, ReadRun;
    var r := Reader(lines, None);
    ReadAppend(r, [first] + middle, [last]);
    ReadAppend(r, [first], middle);
    ReadOne(r, first);
    FirstEquals(Content(first), at);
    Collected(lines, Content(first), depth, middle);
    var text, open := JoinedContents(Content(first), middle), OpenAfter(depth, middle, |middle|);
    ReadOne(Reader(lines, Some(Pending(text, open))), last);
    StepWhilePending(lines, text, open, last);
  }

  /** Any other line with content is a logical line of its own, and a line without is none. */
  lemma {:induction false} LineAlone(lines: seq<string>, rawLine: string)
    requires forall at, depth :: !Opens(Content(rawLine), at, depth)
    ensures ReadRun(Reader(lines, None), [rawLine]) == Reader(if Content(rawLine) == [] then lines else lines + [Content(rawLine)], None)
  {
    hide Trimmed, Stripped, BracketDelta, ReadRun;
    ReadOne(Reader(lines, None), rawLine);
    if FindEquals(Content(rawLine)).Some? {
      var at := FindEquals(Content(rawLine)).value;
      assert !Opens(Content(rawLine), at, BracketDelta(Trimmed(Content(rawLine)[at + 1..])));
    }
  }
}
