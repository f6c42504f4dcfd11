/** The module build state file: tab-separated lines, written and read back. */
module BuildState {
  import opened Wrappers

  datatype ModuleState = ModuleState(
    target: string, mode: string, env: string, package: string,
    sourceHash: string, interfaceHash: string, wrapHostedMain: bool,
    importHashes: seq<(string, string)>)

  const FORMAT_VERSION := 2

  // ----- Lines and fields -----

  /** std::getline: the text up to the next newline, and what follows it; None at the end of the text. */
  function GetLine(text: string): (r: Option<(string, string)>)
    ensures r.None? <==> text == []
    ensures r.Some? ==> |r.value.1| < |text| && '\n' !in r.value.0
  {
    if text == [] then None
    else if text[0] == '\n' then Some(([], text[1..]))
    else
      match GetLine(text[1..])
      case None => Some(([text[0]], []))
      case Some((line, rest)) => Some(([text[0]] + line, rest))
  }

  function Find(text: string, ch: char): (at: Option<nat>)
    ensures at.Some? ==> at.value < |text| && text[at.value] == ch && ch !in text[..at.value]
    ensures at.None? ==> ch !in text
  {
    if text == [] then None
    else if text[0] == ch then Some(0)
    else
      match Find(text[1..], ch)
      case None => None
      case Some(k) => assert text[..k + 1] == [text[0]] + text[1..][..k]; Some(k + 1)
  }

  /** The value of a line with the expected key, and the text after it. */
  function Field(text: string, key: string): (r: Option<(string, string)>)
    ensures r.Some? ==> |r.value.1| < |text| && '\n' !in r.value.0
  {
    match GetLine(text)
    case None => None
    case Some((line, rest)) =>
      match Find(line, '\t')
      case None => None
      case Some(tab) => if line[..tab] != key then None else Some((line[tab + 1..], rest))
  }

  function FieldText(key: string, value: string): string {
    key + "\t" + value + "\n"
  }

  // ----- The format number -----

  const TWO_32 := 0x1_0000_0000
  const TWO_64 := 0x1_0000_0000_0000_0000

  predicate AllDigits(text: string) {
    forall i :: 0 <= i < |text| ==> '0' <= text[i] <= '9'
  }

  function Digit(ch: char): (d: nat)
    requires '0' <= ch <= '9'
  {
    ch as int - '0' as int
  }

  function Digits(text: string): nat
    requires AllDigits(text)
  {
    if text == [] then 0 else 10 * Digits(text[..|text| - 1]) + Digit(text[|text| - 1])
  }

  /** ParseArrayLength: the digits' number as a std::size_t holds it. */
  function ParseNumber(text: string): Option<nat> {
    if text != [] && AllDigits(text) then Some(Digits(text) % TWO_64) else None
  }

  method ParseArrayLength(text: string) returns (number: Option<nat>)
    ensures number == ParseNumber(text)
  {
    if text == [] {
      return None;
    }
    var value: nat := 0;
    assert Digits(text[..0]) % TWO_64 == 0;
    for i := 0 to |text|
      invariant AllDigits(text[..i]) && value == Digits(text[..i]) % TWO_64
    {
      if text[i] < '0' || text[i] > '9' {
        assert !AllDigits(text);
        return None;
      }
      assert text[..i + 1][..i] == text[..i];
      WrapStep(Digits(text[..i]), Digit(text[i]));
      value := (value * 10 + Digit(text[i])) % TWO_64;
    }
    assert text[..|text|] == text;
    number := Some(value);
  }

  lemma {:induction false} WholeWordsVanish(q: nat, x: nat)
    ensures (TWO_64 * q + x) % TWO_64 == x % TWO_64
  {
    var a, b := x / TWO_64, x % TWO_64;
    assert TWO_64 * q + x == TWO_64 * (q + a) + b;
  }

  /** Wrapping at every digit comes to wrapping once. */
  lemma {:induction false} WrapStep(n: nat, d: nat)
    ensures ((n % TWO_64) * 10 + d) % TWO_64 == (n * 10 + d) % TWO_64
  {
    var q, x := n / TWO_64, (n % TWO_64) * 10 + d;
    WholeWordsVanish(10 * q, x);
    assert n == TWO_64 * q + n % TWO_64;
    assert n * 10 + d == TWO_64 * (10 * q) + x;
  }

  lemma {:induction false} WordToInt(n: nat)
    ensures n % TWO_64 % TWO_32 == n % TWO_32
  {
    var q, r := n / TWO_64, n % TWO_64;
    assert n == TWO_32 * (TWO_32 * q) + r;
  }

  /** static_cast<int> of a std::size_t. */
  function AsInt(n: nat): int {
    if 2 * (n % TWO_32) < TWO_32 then n % TWO_32 else n % TWO_32 - TWO_32
  }

  /** Every decimal number that is 2 modulo 2^32 passes for format 2. */
  lemma {:induction false} FormatAcceptedIff(text: string)
    ensures (ParseNumber(text).Some? && AsInt(ParseNumber(text).value) == FORMAT_VERSION)
            <==> (text != [] && AllDigits(text) && Digits(text) % TWO_32 == 2)
  {
    if text != [] && AllDigits(text) {
      WordToInt(Digits(text));
    }
  }

  /** 4294967298 is 2 + 2^32. */
  lemma {:induction false} WrappedFormatAccepted()
    ensures ParseNumber("4294967298").Some? && AsInt(ParseNumber("4294967298").value) == FORMAT_VERSION
  {
    hide Digits, ParseNumber, AsInt;
    var t := "4294967298";
    assert t[..10] == t;
    assert AllDigits(t);
    NoDigits(t);
    DigitsSnoc(t, 1, 0);
    DigitsSnoc(t, 2, 4);
    DigitsSnoc(t, 3, 42);
    DigitsSnoc(t, 4, 429);
    DigitsSnoc(t, 5, 4294);
    DigitsSnoc(t, 6, 42949);
    DigitsSnoc(t, 7, 429496);
    DigitsSnoc(t, 8, 4294967);
    DigitsSnoc(t, 9, 42949672);
    DigitsSnoc(t, 10, 429496729);
    FormatAcceptedIff(t);
  }

  lemma {:induction false} NoDigits(t: string)
    ensures Digits(t[..0]) == 0
  {
  }

  lemma {:induction false} DigitsSnoc(t: string, n: nat, before: nat)
    requires AllDigits(t) && 0 < n <= |t| && Digits(t[..n - 1]) == before
    ensures Digits(t[..n]) == 10 * before + Digit(t[n - 1])
  {
    assert t[..n][..n - 1] == t[..n - 1];
  }

  // ----- Writing -----

  function ImportsText(imports: seq<(string, string)>): string {
    if imports == [] then []
    else FieldText("import_hash", imports[0].0 + "=" + imports[0].1) + ImportsText(imports[1..])
  }

  function Flag(b: bool): string {
    if b then "1" else "0"
  }

  function HeadText(s: ModuleState): string {
    FieldText("format", "2") + (FieldText("target", s.target) + (FieldText("mode", s.mode) + (FieldText("env", s.env)
    + (FieldText("package", s.package) + (FieldText("source_hash", s.sourceHash)
    + (FieldText("interface_hash", s.interfaceHash) + FieldText("wrap_hosted_main", Flag(s.wrapHostedMain))))))))
  }

  function StateText(s: ModuleState): string {
    HeadText(s) + ImportsText(s.importHashes)
  }

  method WriteModuleBuildState(s: ModuleState) returns (output: string)
    ensures output == StateText(s)
  {
    hide FieldText;
    output := FieldText("format", "2");
    output := output + FieldText("target", s.target);
    output := output + FieldText("mode", s.mode);
    output := output + FieldText("env", s.env);
    output := output + FieldText("package", s.package);
    output := output + FieldText("source_hash", s.sourceHash);
    output := output + FieldText("interface_hash", s.interfaceHash);
    output := output + FieldText("wrap_hosted_main", Flag(s.wrapHostedMain));
    assert output == HeadText(s) by {
      Reassociated(FieldText("format", "2"), FieldText("target", s.target), FieldText("mode", s.mode), FieldText("env", s.env),
                   FieldText("package", s.package), FieldText("source_hash", s.sourceHash),
                   FieldText("interface_hash", s.interfaceHash), FieldText("wrap_hosted_main", Flag(s.wrapHostedMain)));
    }
    for i := 0 to |s.importHashes|
      invariant output + ImportsText(s.importHashes[i..]) == StateText(s)
    {
      var entry := FieldText("import_hash", s.importHashes[i].0 + "=" + s.importHashes[i].1);
      assert s.importHashes[i..][1..] == s.importHashes[i + 1..];
      assert output + (entry + ImportsText(s.importHashes[i + 1..])) == output + entry + ImportsText(s.importHashes[i + 1..]);
      output := output + entry;
    }
    assert output + [] == output;
  }

  lemma {:induction false} Reassociated(a: string, b: string, c: string, d: string, e: string, f: string, g: string, h: string)
    ensures a + b + c + d + e + f + g + h == a + (b + (c + (d + (e + (f + (g + h))))))
  {
  }

  // ----- Loading -----

  /** The import lines, to the end of the text. */
  function LoadImports(text: string): Option<seq<(string, string)>>
    decreases |text|
  {
    if text == [] then Some([])
    else
      match Field(text, "import_hash")
      case None => None
      case Some((value, rest)) =>
        match Find(value, '=')
        case None => None
        case Some(at) =>
          match LoadImports(rest)
          case None => None
          case Some(more) => Some([(value[..at], value[at + 1..])] + more)
  }

  /** The seven fields after the format, each on its own line. */
  function LoadFields(text: string, keys: seq<string>): Option<(seq<string>, string)>
    decreases |keys|
  {
    if keys == [] then Some(([], text))
    else
      match Field(text, keys[0])
      case None => None
      case Some((value, rest)) =>
        match LoadFields(rest, keys[1..])
        case None => None
        case Some((values, end)) => Some(([value] + values, end))
  }

  const KEYS := ["target", "mode", "env", "package", "source_hash", "interface_hash", "wrap_hosted_main"]

  lemma {:induction false} LoadFieldsCount(text: string, keys: seq<string>)
    ensures LoadFields(text, keys).Some? ==>
              |LoadFields(text, keys).value.0| == |keys| &&
              forall i :: 0 <= i < |keys| ==> '\n' !in LoadFields(text, keys).value.0[i]
    decreases |keys|
  {
    if keys != [] && Field(text, keys[0]).Some? {
      LoadFieldsCount(Field(text, keys[0]).value.1, keys[1..]);
    }
  }

  function Load(text: string): Option<ModuleState> {
    match Field(text, "format")
    case None => None
    case Some((format, rest)) =>
      if ParseNumber(format).None? || AsInt(ParseNumber(format).value) != FORMAT_VERSION then None
      else
        LoadFieldsCount(rest, KEYS);
        match LoadFields(rest, KEYS)
        case None => None
        case Some((v, end)) =>
          match LoadImports(end)
          case None => None
          case Some(imports) => Some(ModuleState(v[0], v[1], v[2], v[3], v[4], v[5], v[6] == "1", imports))
  }

  method LoadModuleBuildState(text: string) returns (state: Option<ModuleState>)
    ensures state == Load(text)
  {
    hide Field, LoadFields, ParseNumber, Find;
    var format := Field(text, "format");
    if format.None? {
      return None;
    }
    var number := ParseArrayLength(format.value.0);
    if number.None? {
      return None;
    }
    if AsInt(number.value) != FORMAT_VERSION {
      return None;
    }
    LoadFieldsCount(format.value.1, KEYS);
    var fields := LoadFields(format.value.1, KEYS);
    if fields.None? {
      return None;
    }
    var v, input := fields.value.0, fields.value.1;
    var imports: seq<(string, string)> := [];
    assert LoadImports(input) == Prefixed(imports, LoadImports(input)) by {
      if LoadImports(input).Some? {
        assert [] + LoadImports(input).value == LoadImports(input).value;
      }
    }
    while input != []
      invariant LoadImports(fields.value.1) == Prefixed(imports, LoadImports(input))
      decreases |input|
    {
      var line := Field(input, "import_hash");
      if line.None? {
        return None;
      }
      var value := line.value.0;
      var equals := Find(value, '=');
      if equals.None? {
        return None;
      }
      FieldShorter(input, "import_hash");
      ghost var more := LoadImports(line.value.1);
      var entry := (value[..equals.value], value[equals.value + 1..]);
      PrefixedStep(imports, entry, more);
      input := line.value.1;
      imports := imports + [entry];
    }
    assert imports + [] == imports;
    state := Some(ModuleState(v[0], v[1], v[2], v[3], v[4], v[5], v[6] == "1", imports));
  }

  function Prefixed(before: seq<(string, string)>, more: Option<seq<(string, string)>>): Option<seq<(string, string)>> {
    match more
    case None => None
    case Some(m) => Some(before + m)
  }

  lemma {:induction false} PrefixedStep(before: seq<(string, string)>, entry: (string, string), more: Option<seq<(string, string)>>)
    ensures Prefixed(before, Prefixed([entry], more)) == Prefixed(before + [entry], more)
  {
    if more.Some? {
      assert before + ([entry] + more.value) == before + [entry] + more.value;
    }
  }

  lemma {:induction false} FieldShorter(text: string, key: string)
    ensures Field(text, key).Some? ==> |Field(text, key).value.1| < |text|
  {
  }

  // ----- Round trip -----

  /** Nothing in the state would end a line or an import's name early. */
  predicate Clean(s: ModuleState) {
    && '\n' !in s.target && '\n' !in s.mode && '\n' !in s.env && '\n' !in s.package
    && '\n' !in s.sourceHash && '\n' !in s.interfaceHash
    && CleanImports(s.importHashes)
  }

  predicate CleanImports(imports: seq<(string, string)>) {
    forall i :: 0 <= i < |imports| ==> '\n' !in imports[i].0 && '=' !in imports[i].0 && '\n' !in imports[i].1
  }

  lemma {:induction false} GetLineSplits(line: string, rest: string)
    requires '\n' !in line
    ensures GetLine(line + "\n" + rest) == Some((line, rest))
  {
    var text := line + "\n" + rest;
    if line == [] {
      assert text == "\n" + rest && text[1..] == rest;
    } else {
      GetLineSplits(line[1..], rest);
      assert text[1..] == line[1..] + "\n" + rest;
      assert [line[0]] + line[1..] == line;
    }
  }

  lemma {:induction false} FindSplits(before: string, ch: char, after: string)
    requires ch !in before
    ensures Find(before + [ch] + after, ch) == Some(|before|)
    ensures (before + [ch] + after)[..|before|] == before && (before + [ch] + after)[|before| + 1..] == after
  {
    var text := before + [ch] + after;
    if before != [] {
      FindSplits(before[1..], ch, after);
      assert text[1..] == before[1..] + [ch] + after;
    }
  }

  lemma {:induction false} FieldReads(key: string, value: string, rest: string)
    requires '\n' !in key && '\t' !in key && '\n' !in value
    ensures Field(FieldText(key, value) + rest, key) == Some((value, rest))
  {
    hide GetLine, Find;
    var line := key + "\t" + value;
    assert FieldText(key, value) + rest == line + "\n" + rest;
    GetLineSplits(line, rest);
    FindSplits(key, '\t', value);
  }

  lemma {:induction false} ImportsRead(imports: seq<(string, string)>)
    requires CleanImports(imports)
    ensures LoadImports(ImportsText(imports)) == Some(imports)
  {
    hide Field, FieldText, Find;
    if imports != [] {
      var name, hash := imports[0].0, imports[0].1;
      var value := name + "=" + hash;
      FieldReads("import_hash", value, ImportsText(imports[1..]));
      FindSplits(name, '=', hash);
      ImportsRead(imports[1..]);
      assert [(name, hash)] + imports[1..] == imports;
      EntryNonempty("import_hash", value, ImportsText(imports[1..]));
    }
  }

  lemma {:induction false} EntryNonempty(key: string, value: string, rest: string)
    ensures FieldText(key, value) + rest != []
  {
    assert |FieldText(key, value)| > 0;
  }

  /** Text of consecutive fields. */
  function FieldsText(keys: seq<string>, values: seq<string>): string
    requires |keys| == |values|
  {
    if keys == [] then [] else FieldText(keys[0], values[0]) + FieldsText(keys[1..], values[1..])
  }

  lemma {:induction false} FieldsRead(keys: seq<string>, values: seq<string>, rest: string)
    requires |keys| == |values|
    requires forall i :: 0 <= i < |keys| ==> '\n' !in keys[i] && '\t' !in keys[i] && '\n' !in values[i]
    ensures LoadFields(FieldsText(keys, values) + rest, keys) == Some((values, rest))
    decreases |keys|
  {
    hide Field, FieldText;
    if keys == [] {
      assert FieldsText(keys, values) + rest == rest;
    } else {
      var more := FieldsText(keys[1..], values[1..]);
      assert FieldsText(keys, values) + rest == FieldText(keys[0], values[0]) + (more + rest);
      FieldReads(keys[0], values[0], more + rest);
      FieldsRead(keys[1..], values[1..], rest);
      assert [values[0]] + values[1..] == values;
    }
  }

  function Values(s: ModuleState): (v: seq<string>)
    ensures |v| == |KEYS|
  {
    [s.target, s.mode, s.env, s.package, s.sourceHash, s.interfaceHash, Flag(s.wrapHostedMain)]
  }

  lemma {:induction false} HeadIsFields(s: ModuleState)
    ensures HeadText(s) == FieldText("format", "2") + FieldsText(KEYS, Values(s))
  {
    hide FieldText;
    var v := Values(s);
    assert FieldsText(KEYS[7..], v[7..]) == [];
    assert FieldsText(KEYS[6..], v[6..]) == FieldText(KEYS[6], v[6]) + FieldsText(KEYS[7..], v[7..]) == FieldText(KEYS[6], v[6]);
    assert FieldsText(KEYS[5..], v[5..]) == FieldText(KEYS[5], v[5]) + FieldsText(KEYS[6..], v[6..]);
    assert FieldsText(KEYS[4..], v[4..]) == FieldText(KEYS[4], v[4]) + FieldsText(KEYS[5..], v[5..]);
    assert FieldsText(KEYS[3..], v[3..]) == FieldText(KEYS[3], v[3]) + FieldsText(KEYS[4..], v[4..]);
    assert FieldsText(KEYS[2..], v[2..]) == FieldText(KEYS[2], v[2]) + FieldsText(KEYS[3..], v[3..]);
    assert FieldsText(KEYS[1..], v[1..]) == FieldText(KEYS[1], v[1]) + FieldsText(KEYS[2..], v[2..]);
  }

  /** The number is 2 modulo 2^32. */
  predicate AcceptedFormat(text: string) {
    text != [] && AllDigits(text) && Digits(text) % TWO_32 == 2
  }

  /** A state file with this format number, these seven values and these imports. */
  function FileText(format: string, values: seq<string>, imports: seq<(string, string)>): string
    requires |values| == |KEYS|
  {
    FieldText("format", format) + (FieldsText(KEYS, values) + ImportsText(imports))
  }

  /** A file in the right form is loaded exactly when its format is accepted, value by value; only the flag text 1 sets the flag. */
  lemma {:induction false} LoadReads(format: string, values: seq<string>, imports: seq<(string, string)>)
    requires |values| == |KEYS| && '\n' !in format && CleanImports(imports)
    requires forall i :: 0 <= i < |values| ==> '\n' !in values[i]
    ensures Load(FileText(format, values, imports)) ==
            if AcceptedFormat(format) then
              Some(ModuleState(values[0], values[1], values[2], values[3], values[4], values[5], values[6] == "1", imports))
            else None
  {
    hide Field, FieldText, LoadImports, LoadFields, FieldsText, ParseNumber, AsInt;
    FieldReads("format", format, FieldsText(KEYS, values) + ImportsText(imports));
    FormatAcceptedIff(format);
    FieldsRead(KEYS, values, ImportsText(imports));
    ImportsRead(imports);
  }

  lemma {:induction false} Loads(s: ModuleState)
    requires Clean(s)
    ensures Load(StateText(s)) == Some(s)
  {
    hide Load, FieldText, FieldsText, HeadText, Digits;
    var fields, imports := FieldsText(KEYS, Values(s)), ImportsText(s.importHashes);
    HeadIsFields(s);
    assert StateText(s) == FileText("2", Values(s), s.importHashes);
    assert Digits("2") == 2 by { OneDigit(); }
    LoadReads("2", Values(s), s.importHashes);
  }

  lemma {:induction false} OneDigit()
    ensures AllDigits("2") && Digits("2") == 2
  {
    assert Digits("2"[..0]) == 0;
  }

  lemma {:induction false} LoadedImportsClean(text: string)
    ensures LoadImports(text).Some? ==> CleanImports(LoadImports(text).value)
    decreases |text|
  {
    hide GetLine;
    if text != [] && Field(text, "import_hash").Some? {
      LoadedImportsClean(Field(text, "import_hash").value.1);
    }
  }

  lemma {:induction false} LoadedClean(text: string)
    ensures Load(text).Some? ==> Clean(Load(text).value)
  {
    hide Field, LoadImports, LoadFields, CleanImports;
    if Field(text, "format").Some? {
      var rest := Field(text, "format").value.1;
      LoadFieldsCount(rest, KEYS);
      if LoadFields(rest, KEYS).Some? {
        LoadedImportsClean(LoadFields(rest, KEYS).value.1);
      }
    }
  }

  /** A state survives being written and loaded exactly when no field has a newline and no import name an equals sign. */
  lemma {:induction false} RoundTripIffClean(s: ModuleState)
    ensures Load(StateText(s)) == Some(s) <==> Clean(s)
  {
    hide Load, StateText, Clean;
    if Clean(s) {
      Loads(s);
    }
    LoadedClean(StateText(s));
  }

  // ----- Nothing else is loaded -----

  /** text is whole, perhaps without its last newline. */
  predicate UpToNewline(text: string, whole: string) {
    text == whole || text + "\n" == whole
  }

  lemma {:induction false} LineRead(text: string)
    requires GetLine(text).Some?
    ensures var (line, rest) := GetLine(text).value;
            text == line + "\n" + rest || (rest == [] && text == line)
  {
    if text[0] != '\n' && GetLine(text[1..]).Some? {
      LineRead(text[1..]);
    }
  }

  lemma {:induction false} FieldRead(text: string, key: string)
    requires Field(text, key).Some?
    ensures var (value, rest) := Field(text, key).value;
            text == FieldText(key, value) + rest || (rest == [] && text + "\n" == FieldText(key, value))
  {
    hide GetLine, Find;
    LineRead(text);
    var (line, rest) := GetLine(text).value;
    var tab := Find(line, '\t').value;
    assert line == key + "\t" + line[tab + 1..];
    if text == line + "\n" + rest {
      assert text == FieldText(key, line[tab + 1..]) + rest;
    }
  }

  lemma {:induction false} FieldsReadBack(text: string, keys: seq<string>)
    requires LoadFields(text, keys).Some?
    ensures var (values, rest) := LoadFields(text, keys).value;
            |values| == |keys| && (text == FieldsText(keys, values) + rest || (rest == [] && text + "\n" == FieldsText(keys, values)))
    decreases |keys|
  {
    hide Field, FieldText;
    if keys == [] {
      assert [] + text == text;
    } else {
      FieldRead(text, keys[0]);
      var (value, after) := Field(text, keys[0]).value;
      FieldsReadBack(after, keys[1..]);
      var (values, rest) := LoadFields(after, keys[1..]).value;
      var all := [value] + values;
      assert all[1..] == values;
      if after == [] {
        NoFieldsLeft(keys[1..]);
        assert FieldText(keys[0], value) + [] == FieldText(keys[0], value);
        assert FieldsText([], []) == [];
      } else {
        var more := FieldsText(keys[1..], values);
        assert FieldText(keys[0], value) + (more + rest) == FieldText(keys[0], value) + more + rest;
        assert text + "\n" == FieldText(keys[0], value) + (after + "\n");
      }
    }
  }

  /** Keys are looked for in what is left of the text. */
  lemma {:induction false} NoFieldsLeft(keys: seq<string>)
    ensures LoadFields([], keys).Some? <==> keys == []
  {
  }

  lemma {:induction false} ImportsReadBack(text: string)
    requires LoadImports(text).Some?
    ensures UpToNewline(text, ImportsText(LoadImports(text).value))
    decreases |text|
  {
    hide Field, FieldText;
    if text != [] {
      FieldRead(text, "import_hash");
      var (value, rest) := Field(text, "import_hash").value;
      var at := Find(value, '=').value;
      ImportsReadBack(rest);
      var imports, more := LoadImports(text).value, LoadImports(rest).value;
      assert imports[1..] == more && imports[0] == (value[..at], value[at + 1..]);
      assert value == imports[0].0 + "=" + imports[0].1;
      if rest == [] {
        assert more == [] && ImportsText(more) == [];
        assert FieldText("import_hash", value) + [] == FieldText("import_hash", value);
      } else {
        assert text + "\n" == FieldText("import_hash", value) + (rest + "\n");
      }
    }
  }

  /** The parts of a text that loads. */
  lemma {:induction false} LoadedParts(text: string) returns (format: string, rest: string, values: seq<string>, end: string)
    requires Load(text).Some?
    ensures Field(text, "format") == Some((format, rest)) && AcceptedFormat(format)
    ensures LoadFields(rest, KEYS) == Some((values, end)) && |values| == |KEYS|
    ensures var s := Load(text).value;
            && LoadImports(end) == Some(s.importHashes)
            && [s.target, s.mode, s.env, s.package, s.sourceHash, s.interfaceHash] == values[..6] && s.wrapHostedMain == (values[6] == "1")
  {
    hide Field, LoadImports, LoadFields, ParseNumber, AsInt;
    format, rest := Field(text, "format").value.0, Field(text, "format").value.1;
    FormatAcceptedIff(format);
    LoadFieldsCount(rest, KEYS);
    values, end := LoadFields(rest, KEYS).value.0, LoadFields(rest, KEYS).value.1;
  }

  /** Only files of the written form, with an accepted format number, are loaded; their last newline may be missing. */
  lemma {:induction false} LoadedOnlyIf(text: string) returns (format: string, values: seq<string>)
    requires Load(text).Some?
    ensures AcceptedFormat(format) && |values| == |KEYS|
    ensures UpToNewline(text, FileText(format, values, Load(text).value.importHashes))
    ensures var s := Load(text).value;
            [s.target, s.mode, s.env, s.package, s.sourceHash, s.interfaceHash] == values[..6] && s.wrapHostedMain == (values[6] == "1")
  {
    var rest: string, end: string;
    format, rest, values, end := LoadedParts(text);
    assert LoadImports([]) == Some([]) && ImportsText([]) == [];
    hide Load, Field, FieldText, FieldsText, LoadImports, LoadFields, ImportsText;
    FieldRead(text, "format");
    FieldsReadBack(rest, KEYS);
    ImportsReadBack(end);
    if rest == [] {
      NoFieldsLeft(KEYS);
    } else {
      Ended(text, format, rest, FieldsText(KEYS, values), end, ImportsText(Load(text).value.importHashes));
    }
  }

  lemma {:induction false} Ended(text: string, format: string, rest: string, fields: string, end: string, imports: string)
    requires text == FieldText("format", format) + rest && UpToNewline(end, imports)
    requires rest == fields + end || (end == [] && rest + "\n" == fields)
    requires end == [] ==> imports == []
    ensures UpToNewline(text, FieldText("format", format) + (fields + imports))
  {
    hide FieldText;
    var head := FieldText("format", format);
    assert text + "\n" == head + (rest + "\n");
    if rest == fields + end {
      assert rest + "\n" == fields + (end + "\n");
    } else {
      assert fields + [] == fields;
    }
  }
}
