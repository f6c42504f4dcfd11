/**
 The text level of build.toml: comments, whitespace, bracket counting, arrays
 continued over lines, and parsing an array of strings.
 */
module ProjectText {
  import opened Wrappers

  predicate IsSpace(ch: char) {
    ch in {' ', '\t', '\n', '\r', '\U{0B}', '\U{0C}'}
  }

  predicate AllSpace(text: string) {
    forall i :: 0 <= i < |text| ==> IsSpace(text[i])
  }

  // ----- Trim -----

  function TrimStart(text: string): string {
    if text != [] && IsSpace(text[0]) then TrimStart(text[1..]) else text
  }

  function TrimEnd(text: string): string {
    if text != [] && IsSpace(text[|text| - 1]) then TrimEnd(text[..|text| - 1]) else text
  }

  function Trimmed(text: string): string {
    TrimEnd(TrimStart(text))
  }

  method Trim(text: string) returns (trimmed: string)
    ensures trimmed == Trimmed(text)
  {
    var begin := 0;
    while begin < |text| && IsSpace(text[begin])
      invariant 0 <= begin <= |text|
      invariant TrimStart(text) == TrimStart(text[begin..])
    {
      begin := begin + 1;
    }
    assert TrimStart(text) == text[begin..];
    var end := |text|;
    assert text[begin..end] == text[begin..];
    while end > begin && IsSpace(text[end - 1])
      invariant begin <= end <= |text|
      invariant TrimEnd(text[begin..]) == TrimEnd(text[begin..end])
    {
      assert text[begin..end][..end - begin - 1] == text[begin..end - 1];
      end := end - 1;
    }
    trimmed := text[begin..end];
  }

  // ----- Comments -----

  datatype Strip = Strip(output: string, inString: bool, escape: bool, stopped: bool)

  function StripStep(s: Strip, ch: char): Strip {
    if s.stopped then s
    else if s.escape then s.(output := s.output + [ch], escape := false)
    else if ch == '\\' then s.(output := s.output + [ch], escape := true)
    else if ch == '"' then s.(output := s.output + [ch], inString := !s.inString)
    else if ch == '#' && !s.inString then s.(stopped := true)
    else s.(output := s.output + [ch])
  }

  function StripRun(s: Strip, text: string): Strip
    decreases |text|
  {
    if text == [] then s else StripRun(StripStep(s, text[0]), text[1..])
  }

  function Stripped(line: string): string {
    StripRun(Strip([], false, false, false), line).output
  }

  method StripComment(line: string) returns (output: string)
    ensures output == Stripped(line)
  {
    output := [];
    var inString, escape := false, false;
    for i := 0 to |line|
      invariant StripRun(Strip([], false, false, false), line) == StripRun(Strip(output, inString, escape, false), line[i..])
    {
      var ch := line[i];
      assert line[i..][1..] == line[i + 1..];
      if escape {
        output := output + [ch];
        escape := false;
        continue;
      }
      if ch == '\\' {
        output := output + [ch];
        escape := true;
        continue;
      }
      if ch == '"' {
        output := output + [ch];
        inString := !inString;
        continue;
      }
      if ch == '#' && !inString {
        StoppedStays(Strip(output, inString, escape, true), line[i + 1..]);
        return;
      }
      output := output + [ch];
    }
  }

  lemma {:induction false} StoppedStays(s: Strip, text: string)
    requires s.stopped
    ensures StripRun(s, text) == s
  {
    if text != [] {
      StoppedStays(s, text[1..]);
    }
  }

  // ----- Brackets -----

  datatype Depth = Depth(delta: int, inString: bool, escape: bool)

  function DepthStep(d: Depth, ch: char): Depth {
    if d.escape then d.(escape := false)
    else if ch == '\\' then d.(escape := true)
    else if ch == '"' then d.(inString := !d.inString)
    else if d.inString then d
    else if ch == '[' then d.(delta := d.delta + 1)
    else if ch == ']' then d.(delta := d.delta - 1)
    else d
  }

  function DepthRun(d: Depth, text: string): Depth
    decreases |text|
  {
    if text == [] then d else DepthRun(DepthStep(d, text[0]), text[1..])
  }

  function BracketDelta(text: string): int {
    DepthRun(Depth(0, false, false), text).delta
  }

  method CountBracketDelta(text: string) returns (delta: int)
    ensures delta == BracketDelta(text)
  {
    delta := 0;
    var inString, escape := false, false;
    for i := 0 to |text|
      invariant DepthRun(Depth(0, false, false), text) == DepthRun(Depth(delta, inString, escape), text[i..])
    {
      var ch := text[i];
      assert text[i..][1..] == text[i + 1..];
      if escape {
        escape := false;
        continue;
      }
      if ch == '\\' {
        escape := true;
        continue;
      }
      if ch == '"' {
        inString := !inString;
        continue;
      }
      if inString {
        continue;
      }
      if ch == '[' {
        delta := delta + 1;
        continue;
      }
      if ch == ']' {
        delta := delta - 1;
      }
    }
  }

  // ----- Logical lines -----

  function FindEquals(line: string): (at: Option<nat>)
    ensures at.Some? ==> at.value < |line| && line[at.value] == '=' && '=' !in line[..at.value]
    ensures at.None? ==> '=' !in line
  {
    if line == [] then None
    else if line[0] == '=' then Some(0)
    else
      match FindEquals(line[1..])
      case None => None
      case Some(k) => assert line[..k + 1] == [line[0]] + line[1..][..k]; Some(k + 1)
  }

  datatype Pending = Pending(text: string, depth: int)

  datatype Reader = Reader(lines: seq<string>, pending: Option<Pending>)

  /** Does this line begin an array that ends on a later one? */
  function OpensArray(line: string): Option<int> {
    match FindEquals(line)
    case None => None
    case Some(at) =>
      var value := Trimmed(line[at + 1..]);
      if value != [] && value[0] == '[' && BracketDelta(value) > 0 then Some(BracketDelta(value)) else None
  }

  function ReadStep(r: Reader, rawLine: string): Reader {
    var line := Trimmed(Stripped(rawLine));
    if line == [] then r
    else
      match r.pending
      case None =>
        (match OpensArray(line)
         case Some(depth) => r.(pending := Some(Pending(line, depth)))
         case None => r.(lines := r.lines + [line]))
      case Some(p) =>
        var text, depth := p.text + " " + line, p.depth + BracketDelta(line);
        if depth <= 0 then Reader(r.lines + [text], None) else r.(pending := Some(Pending(text, depth)))
  }

  function ReadRun(r: Reader, rawLines: seq<string>): Reader
    decreases |rawLines|
  {
    if rawLines == [] then r else ReadRun(ReadStep(r, rawLines[0]), rawLines[1..])
  }

  /** ReadLogicalProjectLines; terminated is false if an array never closes. */
  method ReadLogicalProjectLines(rawLines: seq<string>) returns (lines: seq<string>, terminated: bool)
    ensures var r := ReadRun(Reader([], None), rawLines); lines == r.lines && terminated == r.pending.None?
  {
    lines := [];
    var pending: Option<Pending> := None;
    for i := 0 to |rawLines|
      invariant ReadRun(Reader([], None), rawLines) == ReadRun(Reader(lines, pending), rawLines[i..])
    {
      assert rawLines[i..][1..] == rawLines[i + 1..];
      var withoutComment := StripComment(rawLines[i]);
      var line := Trim(withoutComment);
      if line == [] {
        continue;
      }
      if pending.None? {
        var equals := FindEquals(line);
        if equals.Some? {
          var valueText := Trim(line[equals.value + 1..]);
          var bracketDepth := CountBracketDelta(valueText);
          if valueText != [] && valueText[0] == '[' && bracketDepth > 0 {
            pending := Some(Pending(line, bracketDepth));
            continue;
          }
        }
        lines := lines + [line];
        continue;
      }
      var delta := CountBracketDelta(line);
      var text := pending.value.text + " " + line;
      var depth := pending.value.depth + delta;
      pending := Some(Pending(text, depth));
      if depth <= 0 {
        lines := lines + [text];
        pending := None;
      }
    }
    terminated := pending.None?;
  }

  // ----- Arrays of strings -----

  datatype ArrayState = ArrayState(values: seq<string>, current: string, inString: bool, escape: bool, sawValue: bool)

  function Unescape(ch: char): Option<char> {
    if ch == 'n' then Some('\n')
    else if ch == 't' then Some('\t')
    else if ch == '\\' || ch == '"' then Some(ch)
    else None
  }

  function ArrayStep(s: ArrayState, ch: char): Option<ArrayState> {
    if !s.inString then
      if IsSpace(ch) then Some(s)
      else if ch == ',' then (if s.sawValue then Some(s.(sawValue := false)) else None)
      else if ch == '"' then Some(s.(current := [], inString := true, escape := false))
      else None
    else if s.escape then
      (match Unescape(ch)
       case None => None
       case Some(c) => Some(s.(current := s.current + [c], escape := false)))
    else if ch == '\\' then Some(s.(escape := true))
    else if ch == '"' then Some(s.(values := s.values + [s.current], inString := false, sawValue := true))
    else Some(s.(current := s.current + [ch]))
  }

  function ArrayRun(s: ArrayState, text: string): Option<ArrayState>
    decreases |text|
  {
    if text == [] then Some(s)
    else
      match ArrayStep(s, text[0])
      case None => None
      case Some(t) => ArrayRun(t, text[1..])
  }

  const ARRAY_START := ArrayState([], [], false, false, false)

  function StringArray(text: string): Option<seq<string>> {
    if |text| < 2 || text[0] != '[' || text[|text| - 1] != ']' then None
    else
      match ArrayRun(ARRAY_START, text[1..|text| - 1])
      case None => None
      case Some(s) => if s.inString || s.escape then None else Some(s.values)
  }

  method ParseStringArray(text: string) returns (values: Option<seq<string>>)
    ensures values == StringArray(text)
  {
    if |text| < 2 || text[0] != '[' || text[|text| - 1] != ']' {
      return None;
    }
    var s := ARRAY_START;
    ghost var body := text[1..|text| - 1];
    var index := 1;
    while index + 1 < |text|
      invariant 1 <= index <= |text| - 1
      invariant ArrayRun(ARRAY_START, body) == ArrayRun(s, body[index - 1..])
    {
      assert body[index - 1..][1..] == body[index..] && body[index - 1] == text[index];
      var step := ArrayStep(s, text[index]);
      if step.None? {
        return None;
      }
      s := step.value;
      index := index + 1;
    }
    if s.inString || s.escape {
      return None;
    }
    values := Some(s.values);
  }

  /** The value of an array entry: what follows the first '='. */
  function EntryArray(line: string): Option<seq<string>> {
    match FindEquals(line)
    case None => None
    case Some(at) => StringArray(Trimmed(line[at + 1..]))
  }
}
