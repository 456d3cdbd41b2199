/**
 * CsvComponent: a component described by a manifest file whose lines read
 * "fullName,simpleName,flag"; its actions are the rows flagged true. The file is
 * None while it does not exist, otherwise its text.
 */
module Csv {
  import opened Wrappers
  import opened Strings
  import opened Sequences
  import opened ComponentNames
  import opened ClassInfos
  import opened Collecting

  /** The exceptions actions() and write() raise: IllegalStateException for a missing or an
      existing file (with its path), IllegalArgumentException for a bad line (with its
      1-based number). */
  datatype CsvError =
    | FileDoesNotExist(path: string)
    | IncompleteLine(lineNo: int, line: string)
    | InvalidBoolean(value: string, lineNo: int, line: string)
    | FileAlreadyExists(path: string)

  const CsvExtension := ".csv"

  /** extractName: the file name without one trailing ".csv", otherwise the whole name. */
  function ExtractName(fileName: string): (r: string)
    ensures EndsWith(fileName, CsvExtension) ==> r + CsvExtension == fileName
    ensures !EndsWith(fileName, CsvExtension) ==> r == fileName
  {
    if EndsWith(fileName, CsvExtension) then fileName[..|fileName| - |CsvExtension|] else fileName
  }

  /** A manifest named n + ".csv" names the component n. */
  lemma ExtractNameOfCsv(n: string)
    ensures ExtractName(n + CsvExtension) == n
  {
    var f := n + CsvExtension;
    assert f[|f| - |CsvExtension|..] == CsvExtension;
    assert f[..|f| - |CsvExtension|] == n;
  }

  // ---------------------------------------------------------------------------------------
  // Reading lines (BufferedReader.readLine)

  predicate IsLineBreak(c: char) {
    c == '\n' || c == '\r'
  }

  /** The length of the first line: the characters before the first line break. */
  function LineLength(text: string): (n: nat)
    ensures n <= |text|
    ensures forall i :: 0 <= i < n ==> !IsLineBreak(text[i])
    ensures n < |text| ==> IsLineBreak(text[n])
    decreases |text|
  {
    if |text| == 0 || IsLineBreak(text[0]) then 0 else 1 + LineLength(text[1..])
  }

  /** The lines readLine returns one after another: each ends at "\n", "\r", "\r\n" or the
      end of the text, and a line break at the very end starts no further line. */
  function Lines(text: string): seq<string>
    decreases |text|
  {
    if |text| == 0 then []
    else
      var n := LineLength(text);
      var next := if n == |text| then n
                  else if text[n] == '\r' && n + 1 < |text| && text[n + 1] == '\n' then n + 2
                  else n + 1;
      [text[..n]] + Lines(text[next..])
  }

  /** A line without line breaks followed by "\n" is read back as that line. */
  lemma LinesOfLine(line: string, rest: string)
    requires '\n' !in line && '\r' !in line
    ensures Lines(line + "\n" + rest) == [line] + Lines(rest)
  {
    var text := line + "\n" + rest;
    assert text[|line|] == '\n';
    assert LineLength(text) == |line|;
    assert text[..|line|] == line;
    assert text[|line| + 1..] == rest;
  }

  // ---------------------------------------------------------------------------------------
  // Parsing (actions, parseBooleanStrict)

  /** parseBooleanStrict: the trimmed field must equal "true" or "false" ignoring case; the
      value is Boolean.parseBoolean's, true exactly for "true" in any case. */
  function ParseBooleanStrict(part: string, line: string, lineNo: int): Result<bool, CsvError> {
    var value := Trim(part);
    if !EqualsIgnoreCase(value, "true") && !EqualsIgnoreCase(value, "false") then
      Failure(InvalidBoolean(value, lineNo, line))
    else
      Success(EqualsIgnoreCase(value, "true"))
  }

  /** The flag is read after trimming and regardless of letter case: two fields that agree
      in that sense are accepted or refused alike, with the same value. */
  lemma ParseBooleanIgnoresCase(part1: string, part2: string, line: string, lineNo: int)
    requires EqualsIgnoreCase(Trim(part1), Trim(part2))
    ensures ParseBooleanStrict(part1, line, lineNo).Success? == ParseBooleanStrict(part2, line, lineNo).Success?
    ensures ParseBooleanStrict(part1, line, lineNo).Success? ==>
              ParseBooleanStrict(part1, line, lineNo).value == ParseBooleanStrict(part2, line, lineNo).value
  {
    var v1, v2 := Trim(part1), Trim(part2);
    EqualsIgnoreCaseThrough(v1, v2, "true");
    EqualsIgnoreCaseThrough(v1, v2, "false");
  }

  lemma EqualsIgnoreCaseThrough(a: string, b: string, c: string)
    requires EqualsIgnoreCase(a, b)
    ensures EqualsIgnoreCase(a, c) == EqualsIgnoreCase(b, c)
  {
  }

  /** Blanks around the flag and its letter case do not matter: " TRUE " reads as true ... */
  lemma ParseBooleanOfPaddedUpperCase(line: string, lineNo: int)
    ensures ParseBooleanStrict(" TRUE ", line, lineNo) == Success(true)
  {
    assert TrimStart(" TRUE ") == "TRUE " by {
      assert " TRUE "[1..] == "TRUE ";
    }
    assert TrimEnd("TRUE ") == "TRUE" by {
      assert "TRUE "[..4] == "TRUE";
    }
    assert !EqualsIgnoreCase("TRUE", "false") by {
      assert |"TRUE"| != |"false"|;
    }
  }

  /** ... and anything but the two words is refused, with the trimmed value in the error. */
  lemma ParseBooleanOfOtherWord(line: string, lineNo: int)
    ensures ParseBooleanStrict(" yes", line, lineNo) == Failure(InvalidBoolean("yes", lineNo, line))
  {
    assert TrimStart(" yes") == "yes" by {
      assert " yes"[1..] == "yes";
    }
    assert TrimEnd("yes") == "yes";
    assert !EqualsIgnoreCase("yes", "true") && !EqualsIgnoreCase("yes", "false");
  }

  /** One line of actions(): split on ',' (trailing empty fields dropped), at least three
      fields, the third a strict boolean; an action for true, nothing for false. */
  function ParseLine(line: string, lineNo: int): Result<Option<ClassValue>, CsvError> {
    var parts := JavaSplit(line, ',');
    if |parts| < 3 then Failure(IncompleteLine(lineNo, line))
    else
      match ParseBooleanStrict(parts[2], line, lineNo)
      case Failure(e) => Failure(e)
      case Success(isAction) => Success(if isAction then Some(ClassValue(parts[0], parts[1], CsvRow)) else None)
  }

  /** Empty trailing fields do not count: "a,b," has two fields, not three, and is refused
      as incomplete with its line number and text. */
  lemma TrailingEmptyFieldIgnored(a: string, b: string, lineNo: int)
    requires ',' !in a && ',' !in b
    ensures ParseLine(a + "," + b + ",", lineNo) == Failure(IncompleteLine(lineNo, a + "," + b + ","))
  {
    var parts := [a, b, ""];
    assert Join([','], parts[2..]) == "";
    assert Join([','], parts[1..]) == b + [','] + "";
    assert Join([','], parts) == a + "," + b + ",";
    SplitJoin(parts, ',');
    assert |JavaSplit(a + "," + b + ",", ',')| < 3;
  }

  /** actions() on the file: an error when it does not exist, otherwise its lines parsed. */
  function ReadActions(path: string, text: Option<string>): Result<seq<ClassValue>, CsvError> {
    if text.None? then Failure(FileDoesNotExist(path)) else Collect(Lines(text.value), ParseLine)
  }

  /** A file whose lines parse up to a bad one fails with that line's error, whatever
      follows it. */
  lemma ReadActionsFirstError(path: string, text: string, k: nat)
    requires k < |Lines(text)|
    requires forall i :: 0 <= i < k ==> ParseLine(Lines(text)[i], i + 1).Success?
    requires ParseLine(Lines(text)[k], k + 1).Failure?
    ensures ReadActions(path, Some(text)) == Failure(ParseLine(Lines(text)[k], k + 1).error)
  {
    CollectFirstError(Lines(text), ParseLine, k);
  }

  // ---------------------------------------------------------------------------------------
  // Writing (write, writeAction)

  /** The line writeAction writes for a class, without its "\n": the flag is always "true". */
  function RowLine(v: ClassValue): string {
    v.fullName + "," + v.simpleName + "," + "true"
  }

  function LineOf(v: ClassValue): string {
    RowLine(v) + "\n"
  }

  /** The text write puts in the new file: one line per action, in order. */
  function Text(values: seq<ClassValue>): string {
    FlatMap(values, LineOf)
  }

  /** A class as actions() reads it back: its two names, from a manifest row. */
  function AsCsvRow(v: ClassValue): ClassValue {
    ClassValue(v.fullName, v.simpleName, CsvRow)
  }

  /** Names that survive the manifest format: no ',' and no line break. */
  predicate Writable(v: ClassValue) {
    && ',' !in v.fullName && '\n' !in v.fullName && '\r' !in v.fullName
    && ',' !in v.simpleName && '\n' !in v.simpleName && '\r' !in v.simpleName
  }

  /** The flag write puts in every row reads as true. */
  lemma ParseBooleanOfTrue(line: string, lineNo: int)
    ensures ParseBooleanStrict("true", line, lineNo) == Success(true)
  {
    TrimUnchanged("true");
    assert EqualsIgnoreCase("true", "true");
    assert !EqualsIgnoreCase("true", "false") by {
      assert "true"[0] != "false"[0];
    }
  }

  /** A written row holds no line break, and splits back into the two names and the flag. */
  lemma RowLineFields(v: ClassValue)
    requires Writable(v)
    ensures '\n' !in RowLine(v) && '\r' !in RowLine(v)
    ensures JavaSplit(RowLine(v), ',') == [v.fullName, v.simpleName, "true"]
  {
    var t := "true";
    assert t == ['t', 'r', 'u', 'e'];
    assert "," == [','];
    JavaSplitThree(v.fullName, v.simpleName, t, ',');
  }

  /** A written row parses back to the class it was written from. */
  lemma ParseRowLine(v: ClassValue, lineNo: int)
    requires Writable(v)
    ensures ParseLine(RowLine(v), lineNo) == Success(Some(AsCsvRow(v)))
  {
    RowLineFields(v);
    ParseBooleanOfTrue(RowLine(v), lineNo);
  }

  /** The text of the classes reads as their rows, one line each. */
  lemma {:induction false} LinesOfText(values: seq<ClassValue>)
    requires forall v | v in values :: Writable(v)
    ensures Lines(Text(values)) == Map(values, RowLine)
    decreases |values|
  {
    if |values| > 0 {
      var v := values[0];
      assert values == [v] + values[1..];
      FlatMapAppend([v], values[1..], LineOf);
      assert FlatMap([v], LineOf) == LineOf(v) by {
        assert [v][..0] == [];
      }
      RowLineFields(v);
      LinesOfLine(RowLine(v), Text(values[1..]));
      LinesOfText(values[1..]);
    }
  }

  /** The rows of writable classes parse back to those classes. */
  lemma {:induction false} ParseRowLines(values: seq<ClassValue>)
    requires forall v | v in values :: Writable(v)
    ensures Collect(Map(values, RowLine), ParseLine) == Success(Map(values, AsCsvRow))
    decreases |values|
  {
    if |values| > 0 {
      var m := |values| - 1;
      var lines := Map(values, RowLine);
      MapAppend(values[..m], [values[m]], RowLine);
      assert values[..m] + [values[m]] == values;
      MapAt(values, RowLine);
      assert lines[..m] == Map(values[..m], RowLine);
      ParseRowLines(values[..m]);
      ParseRowLine(values[m], m + 1);
      CollectMapNext(lines, ParseLine, m, values[..m], AsCsvRow, Some(values[m]));
      assert lines[..m + 1] == lines;
    }
  }

  /** Reading back what write wrote gives the same classes, as manifest rows, in the same
      order, as long as their names contain no ',' and no line break. */
  lemma WriteThenRead(path: string, values: seq<ClassValue>)
    requires forall v | v in values :: Writable(v)
    ensures ReadActions(path, Some(Text(values))) == Success(Map(values, AsCsvRow))
  {
    LinesOfText(values);
    ParseRowLines(values);
  }

  /** One more action written: the loop's next step. */
  lemma TextStep(actions: seq<ClassInfo>, i: nat)
    requires i < |actions|
    ensures Text(Map(actions[..i], ValueOf)) + LineOf(ValueOf(actions[i])) == Text(Map(actions[..i + 1], ValueOf))
  {
    assert actions[..i + 1] == actions[..i] + [actions[i]];
    MapAppend(actions[..i], [actions[i]], ValueOf);
    assert Map([actions[i]], ValueOf) == [ValueOf(actions[i])] by {
      MapAt([actions[i]], ValueOf);
    }
    FlatMapAppend(Map(actions[..i], ValueOf), [ValueOf(actions[i])], LineOf);
    assert FlatMap([ValueOf(actions[i])], LineOf) == LineOf(ValueOf(actions[i])) by {
      assert [ValueOf(actions[i])][..0] == [];
    }
  }

  // ---------------------------------------------------------------------------------------
  // The component

  /** The manifest file: its path (File.toString, which the messages quote), its name
      (File.getName) and its text, None while it does not exist. */
  class CsvFile {
    const path: string
    const name: string
    var text: Option<string>

    constructor (path: string, name: string, text: Option<string>)
      ensures this.path == path && this.name == name && this.text == text
    {
      this.path := path;
      this.name := name;
      this.text := text;
    }
  }

  class CsvComponent {
    const csv: CsvFile
    const name: ComponentName

    constructor (csv: CsvFile, name: ComponentName)
      ensures this.csv == csv && this.name == name
    {
      this.csv := csv;
      this.name := name;
    }

    /** new CsvComponent(csv): the name is the file name without ".csv", refused when it
        holds a space. */
    static method Create(csv: CsvFile) returns (r: Result<CsvComponent, NameError>)
      ensures r.Success? <==> ' ' !in ExtractName(csv.name)
      ensures r.Success? ==> r.value.csv == csv && r.value.name.value == ExtractName(csv.name)
      ensures r.Failure? ==> r.error == ContainsSpace(ExtractName(csv.name))
    {
      match ComponentNames.Create(ExtractName(csv.name))
      case Failure(e) =>
        r := Failure(e);
      case Success(n) =>
        var c := new CsvComponent(csv, n);
        r := Success(c);
    }

    /** actions(): a new object per row flagged true, in file order, or the error of the
        missing file or of the first bad line. */
    method Actions() returns (r: Result<seq<ClassInfo>, CsvError>)
      ensures var spec := ReadActions(csv.path, csv.text);
              && r.Success? == spec.Success?
              && (r.Failure? ==> r.error == spec.error)
              && (r.Success? ==> Map(r.value, ValueOf) == spec.value)
      ensures r.Success? ==> forall x | x in r.value :: fresh(x)
    {
      if csv.text.None? {
        return Failure(FileDoesNotExist(csv.path));
      }
      var lines := Lines(csv.text.value);
      var actions: seq<ClassInfo> := [];
      var lineNo := 0;
      while lineNo < |lines|
        invariant 0 <= lineNo <= |lines|
        invariant Collect(lines[..lineNo], ParseLine) == Success(Map(actions, ValueOf))
        invariant forall x | x in actions :: fresh(x)
      {
        var next := ReadLine(lines[lineNo], lineNo + 1);
        if next.Failure? {
          CollectFails(lines, ParseLine, lineNo);
          return Failure(next.error);
        }
        CollectMapNext(lines, ParseLine, lineNo, actions, ValueOf, next.value);
        actions := actions + if next.value.Some? then [next.value.value] else [];
        lineNo := lineNo + 1;
      }
      assert lines[..lineNo] == lines;
      return Success(actions);
    }

    /** One pass of the read loop on line number lineNo: a new object when the line is
        flagged true, nothing when it is flagged false, or the error that ends actions(). */
    static method ReadLine(line: string, lineNo: int) returns (r: Result<Option<ClassInfo>, CsvError>)
      ensures var parsed := ParseLine(line, lineNo);
              && r.Success? == parsed.Success?
              && (r.Failure? ==> r.error == parsed.error)
              && (r.Success? ==> r.value.Some? == parsed.value.Some?)
      ensures r.Success? && r.value.Some? ==> fresh(r.value.value) && ValueOf(r.value.value) == ParseLine(line, lineNo).value.value
    {
      var parsed := ParseLine(line, lineNo);
      if parsed.Failure? {
        return Failure(parsed.error);
      }
      if parsed.value.None? {
        return Success(None);
      }
      var v := parsed.value.value;
      var info := new ClassInfo(v.fullName, v.simpleName, v.origin);
      return Success(Some(info));
    }

    /** write(component): refuses a file that exists and leaves it alone; otherwise creates
        it holding one line "fullName,simpleName,true" per action of the given component. */
    method Write(actions: seq<ClassInfo>) returns (r: Outcome<CsvError>)
      modifies csv
      ensures old(csv.text).Some? ==> r == Fail(FileAlreadyExists(csv.path)) && csv.text == old(csv.text)
      ensures old(csv.text).None? ==> r == Pass && csv.text == Some(Text(Map(actions, ValueOf)))
    {
      if csv.text.Some? {
        return Fail(FileAlreadyExists(csv.path));
      }
      csv.text := Some("");
      for i := 0 to |actions|
        invariant csv.text == Some(Text(Map(actions[..i], ValueOf)))
      {
        TextStep(actions, i);
        csv.text := Some(csv.text.value + LineOf(ValueOf(actions[i])));
      }
      assert actions[..|actions|] == actions;
      return Pass;
    }
  }
}
