/** Reading and writing delimited text (data/io/data.hpp). A stream is the text it has not
    yet delivered with its end-of-file and failure flags; opening files and parsing one
    field with `>>` are outside the model, the latter a parameter. */
module Data {
  import opened Wrappers
  import opened Element

  /** `file_type`. */
  datatype FileType = CsvType | TsvType | DetectType

  predicate EndsWith(s: string, suffix: string)
  {
    |suffix| <= |s| && s[|s| - |suffix|..] == suffix
  }

  /** `detect_file_type(file, suggested)`: a suggested type is kept; `detect_type` is
      resolved from the ".csv" or ".tsv" suffix, any other name is an error. */
  function DetectFileType(file: string, suggested: FileType): (r: Result<FileType>)
    ensures r.Ok? ==> r.value != DetectType
    ensures r.Err? <==> suggested == DetectType && !EndsWith(file, ".csv") && !EndsWith(file, ".tsv")
  {
    if suggested == DetectType then
      if EndsWith(file, ".csv") then Ok(CsvType)
      else if EndsWith(file, ".tsv") then Ok(TsvType)
      else Err("Unable to infer file type from file name")
    else Ok(suggested)
  }

  /** A name ending in ".csv" or ".tsv" is detected as that type, and a detected type,
      suggested again, is kept. */
  lemma DetectFileTypeSuffix(base: string, suggested: FileType)
    ensures DetectFileType(base + ".csv", DetectType) == Ok(CsvType)
    ensures DetectFileType(base + ".tsv", DetectType) == Ok(TsvType)
    ensures DetectFileType(base, suggested).Ok? ==>
      DetectFileType(base, DetectFileType(base, suggested).value) == DetectFileType(base, suggested)
  {
    assert (base + ".csv")[|base|..] == ".csv";
    assert (base + ".tsv")[|base|..] == ".tsv";
  }

  /** `file_type_to_separator`: a tab for tsv, a comma for every other type. */
  function FileTypeToSeparator(t: FileType): (c: char)
    ensures c == '\t' <==> t == TsvType
    ensures c == ',' <==> t != TsvType
  {
    match t
    case TsvType => '\t'
    case _ => ','
  }

  // ---------------------------------------------------------------------------------------
  // Streams and std::getline
  // ---------------------------------------------------------------------------------------

  /** An input stream over text: what is left to read, and its eof and fail bits. */
  datatype Stream = Stream(rest: string, eof: bool, fail: bool)

  /** A stream opened on text, `std::istringstream(text)`. */
  function Open(text: string): Stream
  {
    Stream(text, false, false)
  }

  /** How many `getline` calls can still extract something, as a bound: none once fail is
      set, one failing call once eof is set, else the text and the calls that find the end. */
  function Pending(st: Stream): nat
  {
    if st.fail then 0 else if st.eof then 1 else |st.rest| + 2
  }

  /** The position of the first occurrence of c. */
  function FirstIndex(s: string, c: char): (i: nat)
    requires c in s
    ensures i < |s| && s[i] == c && c !in s[..i]
  {
    if s[0] == c then 0 else 1 + FirstIndex(s[1..], c)
  }

  /** `std::getline(is, buffer, delim)`: with a flag already set the call fails and
      leaves the buffer as it was; otherwise the buffer is emptied and receives the text
      up to the next delimiter, which is consumed; reaching the end sets eof, and fail too
      when nothing at all was extracted. */
  function GetLine(st: Stream, delim: char, buffer: string): (r: (Stream, string))
    ensures !st.fail ==> Pending(r.0) < Pending(st)
    ensures r.0.fail <==> st.eof || st.fail || st.rest == ""
  {
    if st.eof || st.fail then (st.(fail := true), buffer)
    else if st.rest == "" then (Stream("", true, true), "")
    else if delim in st.rest then
      var i := FirstIndex(st.rest, delim);
      assert st.rest == st.rest[..i] + [delim] + st.rest[i + 1..];
      (Stream(st.rest[i + 1..], false, false), st.rest[..i])
    else (Stream("", true, false), st.rest)
  }

  /** A `getline` that succeeds splits what was left into the buffer, free of the
      delimiter, and the new rest: after the consumed delimiter, or empty at the end. */
  lemma GetLineSplits(st: Stream, delim: char, buffer: string)
    requires !GetLine(st, delim, buffer).0.fail
    ensures delim !in GetLine(st, delim, buffer).1
    ensures var (st', line) := GetLine(st, delim, buffer);
      st.rest == line + [delim] + st'.rest || (st.rest == line && st'.rest == "" && st'.eof)
  {
  }

  /** One `std::getline` call on a stream variable and a buffer variable. */
  method ReadLine(st: Stream, delim: char, buffer: string) returns (st': Stream, buffer': string)
    ensures (st', buffer') == GetLine(st, delim, buffer)
  {
    var r := GetLine(st, delim, buffer);
    st', buffer' := r.0, r.1;
  }

  /** The lines `while(std::getline(fs, line))` reads from a stream, in order. */
  function LinesFrom(st: Stream): seq<string>
    decreases Pending(st)
  {
    var next := GetLine(st, '\n', "");
    if next.0.fail then [] else [next.1] + LinesFrom(next.0)
  }

  // ---------------------------------------------------------------------------------------
  // Writing a row
  // ---------------------------------------------------------------------------------------

  /** The fields joined by the separator. */
  function Join(fields: seq<string>, sep: char): string
    requires |fields| > 0
  {
    if |fields| == 1 then fields[0] else fields[0] + [sep] + Join(fields[1..], sep)
  }

  /** `tuple_to_line_helper_2`: the first field, then separator and field for each of the
      others, then a newline. Fields are the printed forms of the components. */
  function Line(fields: seq<string>, sep: char): string
    requires |fields| > 0
  {
    Join(fields, sep) + "\n"
  }

  /** The text of rows written one line each. */
  function RowsText(rows: seq<seq<string>>, sep: char): string
    requires forall r :: 0 <= r < |rows| ==> |rows[r]| > 0
  {
    if |rows| == 0 then "" else Line(rows[0], sep) + RowsText(rows[1..], sep)
  }

  /** An output stream: the text written so far. */
  class OutStream {
    var text: string

    constructor ()
      ensures text == ""
    {
      text := "";
    }

    /** `os << s`. */
    method Write(s: string)
      modifies this
      ensures text == old(text) + s
    {
      text := text + s;
    }
  }

  /** `tuple_to_line_helper_2(os, tuple, indexes, separator)`. */
  method TupleToLine(os: OutStream, fields: seq<string>, sep: char)
    requires |fields| > 0
    modifies os
    ensures os.text == old(os.text) + Line(fields, sep)
  {
    os.Write(fields[0]);
    for i := 1 to |fields|
      invariant os.text == old(os.text) + Join(fields[..i], sep)
    {
      JoinAppend(fields[..i + 1], sep);
      assert fields[..i + 1][..i] == fields[..i];
      os.Write([sep] + fields[i]);
    }
    assert fields[..|fields|] == fields;
    os.Write("\n");
  }

  /** Joining one more field appends the separator and that field. */
  lemma {:induction false} JoinAppend(fields: seq<string>, sep: char)
    requires |fields| >= 2
    ensures Join(fields, sep) == Join(fields[..|fields| - 1], sep) + [sep] + fields[|fields| - 1]
    decreases |fields|
  {
    if |fields| > 2 {
      JoinAppend(fields[1..], sep);
      assert fields[1..][..|fields[1..]| - 1] == fields[..|fields| - 1][1..];
    }
  }

  // ---------------------------------------------------------------------------------------
  // Reading a row
  // ---------------------------------------------------------------------------------------

  /** The stream, shared buffer and values after the first k slots of a tuple are read
      with `load_tuple_indexes_by_separator`: each slot reads the next segment and parses
      it, and a parse failure is the error "Failed loading row". */
  function Slots(line: string, sep: char, k: nat, parse: (nat, string) -> Option<Atom>): (r: Result<(Stream, string, seq<Atom>)>)
    ensures r.Ok? ==> |r.value.2| == k
    ensures r.Err? ==> r.error == "Failed loading row"
    decreases k
  {
    if k == 0 then Ok((Open(line), "", []))
    else
      match Slots(line, sep, k - 1, parse)
      case Err(e) => Err(e)
      case Ok((st, buffer, values)) =>
        var (st', buffer') := GetLine(st, sep, buffer);
        match parse(k - 1, buffer')
        case None => Err("Failed loading row")
        case Some(v) => Ok((st', buffer', values + [v]))
  }

  /** `load_tuple` on one line followed by the loader's stream check: the n values, or
      "Failed loading row", or "Failing reading into tuple" when a slot found no text
      left but still parsed. */
  function LoadTuple(line: string, sep: char, n: nat, parse: (nat, string) -> Option<Atom>): (r: Result<Tuple>)
    ensures r.Ok? ==> |r.value| == n
  {
    match Slots(line, sep, n, parse)
    case Err(e) => Err(e)
    case Ok((st, _, values)) => if st.fail then Err("Failing reading into tuple") else Ok(values)
  }

  /** Reading the fields of a joined row, non-empty and free of the separator, yields them
      one by one. */
  lemma {:induction false} GetLineJoin(fields: seq<string>, sep: char, buffer: string)
    requires |fields| > 0
    requires forall i :: 0 <= i < |fields| ==> |fields[i]| > 0 && sep !in fields[i]
    ensures GetLine(Open(Join(fields, sep)), sep, buffer)
      == if |fields| == 1 then (Stream("", true, false), fields[0]) else (Open(Join(fields[1..], sep)), fields[0])
  {
    if |fields| > 1 {
      var s := Join(fields, sep);
      assert s == fields[0] + [sep] + Join(fields[1..], sep);
      assert s[|fields[0]|] == sep && s[..|fields[0]|] == fields[0];
      FirstIndexAt(s, sep, |fields[0]|);
      assert s[|fields[0]| + 1..] == Join(fields[1..], sep);
    }
  }

  /** The first occurrence is at i when s[i] is c and s[..i] is free of c. */
  lemma FirstIndexAt(s: string, c: char, i: nat)
    requires i < |s| && s[i] == c && c !in s[..i]
    ensures FirstIndex(s, c) == i
  {
  }

  /** After k < n slots of a joined row the stream holds the remaining fields; after all n
      it is at the end without failure, and the values are the parsed fields. */
  lemma {:induction false} SlotsJoin(fields: seq<string>, sep: char, k: nat, parse: (nat, string) -> Option<Atom>, values: seq<Atom>)
    requires 0 < k <= |fields| == |values|
    requires forall i :: 0 <= i < |fields| ==> |fields[i]| > 0 && sep !in fields[i]
    requires forall i :: 0 <= i < |fields| ==> parse(i, fields[i]) == Some(values[i])
    ensures Slots(Join(fields, sep), sep, k, parse)
      == Ok((if k == |fields| then Stream("", true, false) else Open(Join(fields[k..], sep)), fields[k - 1], values[..k]))
    decreases k
  {
    var line := Join(fields, sep);
    var tail := fields[k - 1..];
    assert forall i :: 0 <= i < |tail| ==> tail[i] == fields[k - 1 + i];
    var before := if k == 1 then Open(line) else Open(Join(tail, sep));
    var buffer := if k == 1 then "" else fields[k - 2];
    if k == 1 {
      assert tail == fields;
      assert Slots(line, sep, 0, parse) == Ok((before, buffer, values[..0]));
    } else {
      SlotsJoin(fields, sep, k - 1, parse, values);
      assert Slots(line, sep, k - 1, parse) == Ok((before, buffer, values[..k - 1]));
    }
    GetLineJoin(tail, sep, buffer);
    var after := if k == |fields| then Stream("", true, false) else Open(Join(fields[k..], sep));
    assert tail[1..] == fields[k..];
    assert GetLine(before, sep, buffer) == (after, fields[k - 1]);
    assert parse(k - 1, fields[k - 1]) == Some(values[k - 1]);
    TakeOneMore(values, k);
  }

  /** A prefix one longer is the shorter prefix and one more element. */
  lemma TakeOneMore<T>(s: seq<T>, k: nat)
    requires 0 < k <= |s|
    ensures s[..k] == s[..k - 1] + [s[k - 1]]
  {
  }

  /** A row written with `tuple_to_line_helper_2` reads back: fields that are non-empty and
      free of the separator, parsed slot by slot, give back the values. */
  lemma JoinLoadTuple(fields: seq<string>, sep: char, parse: (nat, string) -> Option<Atom>, values: seq<Atom>)
    requires 0 < |fields| == |values|
    requires forall i :: 0 <= i < |fields| ==> |fields[i]| > 0 && sep !in fields[i]
    requires forall i :: 0 <= i < |fields| ==> parse(i, fields[i]) == Some(values[i])
    ensures LoadTuple(Join(fields, sep), sep, |fields|, parse) == Ok(values)
  {
    SlotsJoin(fields, sep, |fields|, parse, values);
    assert values[..|fields|] == values;
  }

  /** `load_tuple_indexes(tuple, is, indexes, separator)` with the loader's stream check. */
  method LoadTupleIndexes(line: string, sep: char, n: nat, parse: (nat, string) -> Option<Atom>)
    returns (r: Result<Tuple>)
    ensures r == LoadTuple(line, sep, n, parse)
  {
    var st := Open(line);
    var buffer := "";
    var values: seq<Atom> := [];
    for slot := 0 to n
      invariant Slots(line, sep, slot, parse) == Ok((st, buffer, values))
    {
      st, buffer := ReadLine(st, sep, buffer);
      var v := parse(slot, buffer);
      if v.None? {
        SlotsErrSticky(line, sep, slot + 1, n, parse);
        return Err("Failed loading row");
      }
      values := values + [v.value];
    }
    if st.fail {
      return Err("Failing reading into tuple");
    }
    r := Ok(values);
  }

  /** Once a slot fails to parse, the row fails. */
  lemma {:induction false} SlotsErrSticky(line: string, sep: char, k: nat, n: nat, parse: (nat, string) -> Option<Atom>)
    requires k <= n && Slots(line, sep, k, parse).Err?
    ensures Slots(line, sep, n, parse).Err?
    decreases n
  {
    if n > k {
      SlotsErrSticky(line, sep, k, n - 1, parse);
    }
  }

  // ---------------------------------------------------------------------------------------
  // The line loops
  // ---------------------------------------------------------------------------------------

  /** Every line through `load`, in order, stopping at the first error. */
  function LoadAll<T>(lines: seq<string>, load: string -> Result<T>): (r: Result<seq<T>>)
    ensures r.Ok? ==> |r.value| == |lines|
    decreases |lines|
  {
    if |lines| == 0 then Ok([])
    else
      match LoadAll(lines[..|lines| - 1], load)
      case Err(e) => Err(e)
      case Ok(vs) =>
        match load(lines[|lines| - 1])
        case Err(e) => Err(e)
        case Ok(v) => Ok(vs + [v])
  }

  /** Every line loads exactly when each does, to its own value, in order. */
  lemma {:induction false} LoadAllEach<T>(lines: seq<string>, load: string -> Result<T>)
    ensures LoadAll(lines, load).Ok? <==> forall i :: 0 <= i < |lines| ==> load(lines[i]).Ok?
    ensures LoadAll(lines, load).Ok? ==> forall i :: 0 <= i < |lines| ==> load(lines[i]) == Ok(LoadAll(lines, load).value[i])
    decreases |lines|
  {
    if |lines| > 0 {
      var front := lines[..|lines| - 1];
      LoadAllEach(front, load);
      assert forall i :: 0 <= i < |front| ==> front[i] == lines[i];
    }
  }

  /** A failed prefix of lines fails every longer run with the same error. */
  lemma {:induction false} LoadAllErrSticky<T>(lines: seq<string>, m: nat, load: string -> Result<T>)
    requires m <= |lines| && LoadAll(lines[..m], load).Err?
    ensures LoadAll(lines, load) == LoadAll(lines[..m], load)
    decreases |lines|
  {
    if m < |lines| {
      assert lines[..|lines| - 1][..m] == lines[..m];
      LoadAllErrSticky(lines[..|lines| - 1], m, load);
    } else {
      assert lines[..m] == lines;
    }
  }

  /** One more line through `load`, after a prefix that loaded: its error is the error of
      the whole run, or its value extends the prefix's. */
  lemma LoadAllNext<T>(all: seq<string>, read: seq<string>, line: string, more: seq<string>,
                       load: string -> Result<T>, res: seq<T>)
    requires all == read + [line] + more && LoadAll(read, load) == Ok(res)
    ensures load(line).Err? ==> LoadAll(all, load) == Err(load(line).error)
    ensures load(line).Ok? ==> LoadAll(read + [line], load) == Ok(res + [load(line).value])
  {
    assert (read + [line])[..|read|] == read;
    if load(line).Err? {
      assert all[..|read| + 1] == read + [line];
      LoadAllErrSticky(all, |read| + 1, load);
    }
  }

  /** The lines a line loop has still to handle: the one just read, unless the read
      failed, and those left in the stream. */
  function Unread(st: Stream, line: string): seq<string>
  {
    if st.fail then [] else [line] + LinesFrom(st)
  }

  /** The lines of a stream are those left after its first `getline`. */
  lemma FirstLine(fs: Stream)
    ensures LinesFrom(fs) == Unread(GetLine(fs, '\n', "").0, GetLine(fs, '\n', "").1)
  {
  }

  /** The loop's next `getline`, whatever its buffer held, reads the next line of the
      stream or ends the run. */
  lemma NextLine(all: seq<string>, read: seq<string>, line: string, st: Stream)
    requires !st.fail && all == read + Unread(st, line)
    ensures all == (read + [line]) + Unread(GetLine(st, '\n', line).0, GetLine(st, '\n', line).1)
  {
    assert GetLine(st, '\n', line).0 == GetLine(st, '\n', "").0;
    if !GetLine(st, '\n', line).0.fail {
      assert GetLine(st, '\n', line).1 == GetLine(st, '\n', "").1;
    }
  }

  /** The tuple loader's result for the lines left in a stream. */
  function LoadTuplesFrom(st: Stream, sep: char, n: nat, parse: (nat, string) -> Option<Atom>): Result<seq<Tuple>>
  {
    LoadAll(LinesFrom(st), TupleLoader(sep, n, parse))
  }

  /** A line read as a tuple. */
  function TupleLoader(sep: char, n: nat, parse: (nat, string) -> Option<Atom>): string -> Result<Tuple>
  {
    line => LoadTuple(line, sep, n, parse)
  }

  /** `load_into_container(fs, res, type, load_tuple_into_container_tag)`: one tuple per
      line, appended in order until the stream ends. */
  method LoadTuplesIntoContainer(fs: Stream, sep: char, n: nat, parse: (nat, string) -> Option<Atom>)
    returns (r: Result<seq<Tuple>>)
    ensures r == LoadTuplesFrom(fs, sep, n, parse)
  {
    ghost var load := TupleLoader(sep, n, parse);
    var st, line := fs, "";
    var res: seq<Tuple> := [];
    ghost var read: seq<string> := [];
    st, line := ReadLine(st, '\n', line);
    FirstLine(fs);
    while !st.fail
      invariant LinesFrom(fs) == read + Unread(st, line)
      invariant LoadAll(read, load) == Ok(res)
      decreases Pending(st)
    {
      var value := LoadTupleIndexes(line, sep, n, parse);
      LoadAllNext(LinesFrom(fs), read, line, LinesFrom(st), load, res);
      assert load(line) == value;
      if value.Err? {
        return Err(value.error);
      }
      NextLine(LinesFrom(fs), read, line, st);
      res := res + [value.value];
      read := read + [line];
      st, line := ReadLine(st, '\n', line);
    }
    assert Unread(st, line) == [];
    assert LinesFrom(fs) == read;
    r := Ok(res);
  }

  /** `load_into_container(fs, res, type, load_value_into_container_tag)` as written: it
      consumes every line and appends nothing. */
  method LoadValuesIntoContainerAsWritten(fs: Stream) returns (res: seq<Atom>, st: Stream)
    ensures res == [] && st.fail
  {
    res := [];
    var line := "";
    st, line := ReadLine(fs, '\n', line);
    while !st.fail
      decreases Pending(st)
    {
      st, line := ReadLine(st, '\n', line);
    }
  }

  /** The value loader as intended: each line parsed with `iss >> value` and appended, a
      failed parse being the error "Failing reading value". */
  function LoadValuesFrom(st: Stream, parse: string -> Option<Atom>): Result<seq<Atom>>
  {
    LoadAll(LinesFrom(st), ValueLoader(parse))
  }

  /** A line read as one value. */
  function ValueLoader(parse: string -> Option<Atom>): string -> Result<Atom>
  {
    line => ParsedValue(parse, line)
  }

  /** One line read with `iss >> value`. */
  function ParsedValue(parse: string -> Option<Atom>, line: string): Result<Atom>
  {
    match parse(line)
    case None => Err("Failing reading value")
    case Some(v) => Ok(v)
  }

  /** The file "rolls.csv" holding "2\n1\n" has the lines "2" and "1": loading it as a
      single type as written returns no value, the value loader as intended one value per
      line. */
  lemma ValueLoaderCounterexample(parse: string -> Option<Atom>)
    requires parse("2") == Some(Num(2.0)) && parse("1") == Some(Num(1.0))
    ensures LinesFrom(Open("2\n1\n")) == ["2", "1"]
    ensures Loaded("rolls.csv", "2\n1\n", false, DetectType, 1, (i, s) => parse(s)) == Ok([])
    ensures LoadValuesFrom(Open("2\n1\n"), parse) == Ok([Num(2.0), Num(1.0)])
  {
    assert EndsWith("rolls.csv", ".csv");
    TwoLines();
    LoadTwoValues(parse, ValueLoader(parse));
  }

  /** The lines of "2\n1\n". */
  lemma TwoLines()
    ensures LinesFrom(Open("2\n1\n")) == ["2", "1"]
  {
    var text: string := "2\n1\n";
    assert text[..1] == "2" && text[2..] == "1\n";
    FirstIndexAt(text, '\n', 1);
    assert GetLine(Open(text), '\n', "") == (Open("1\n"), "2");
    OneLine();
  }

  /** The lines of "1\n". */
  lemma OneLine()
    ensures LinesFrom(Open("1\n")) == ["1"]
  {
    var text: string := "1\n";
    assert text[..1] == "1" && text[2..] == "";
    FirstIndexAt(text, '\n', 1);
    assert GetLine(Open(text), '\n', "") == (Open(""), "1");
    assert GetLine(Open(""), '\n', "").0.fail;
  }

  /** Parsing the lines "2" and "1". */
  lemma LoadTwoValues(parse: string -> Option<Atom>, load: string -> Result<Atom>)
    requires parse("2") == Some(Num(2.0)) && parse("1") == Some(Num(1.0))
    requires forall line :: load(line) == ParsedValue(parse, line)
    ensures LoadAll(["2", "1"], load) == Ok([Num(2.0), Num(1.0)])
  {
    var two: seq<string> := ["2", "1"];
    assert load(two[0]) == Ok(Num(2.0)) && load(two[1]) == Ok(Num(1.0));
    LoadAllEach(two, load);
    var vs := LoadAll(two, load).value;
    assert vs[0] == Num(2.0) && vs[1] == Num(1.0);
    assert vs == [Num(2.0), Num(1.0)];
  }

  /** The value loader as intended, one loop over the lines. */
  method LoadValuesIntoContainer(fs: Stream, parse: string -> Option<Atom>) returns (r: Result<seq<Atom>>)
    ensures r == LoadValuesFrom(fs, parse)
  {
    ghost var load := ValueLoader(parse);
    var st, line := fs, "";
    var res: seq<Atom> := [];
    ghost var read: seq<string> := [];
    st, line := ReadLine(st, '\n', line);
    FirstLine(fs);
    while !st.fail
      invariant LinesFrom(fs) == read + Unread(st, line)
      invariant LoadAll(read, load) == Ok(res)
      decreases Pending(st)
    {
      var value := parse(line);
      LoadAllNext(LinesFrom(fs), read, line, LinesFrom(st), load, res);
      assert load(line) == ParsedValue(parse, line);
      if value.None? {
        assert LoadAll(LinesFrom(fs), load) == Err("Failing reading value");
        return Err("Failing reading value");
      }
      NextLine(LinesFrom(fs), read, line, st);
      res := res + [value.value];
      read := read + [line];
      st, line := ReadLine(st, '\n', line);
    }
    assert Unread(st, line) == [];
    assert LinesFrom(fs) == read;
    r := Ok(res);
  }

  // ---------------------------------------------------------------------------------------
  // Round trip and load
  // ---------------------------------------------------------------------------------------

  /** Written rows are read back line by line when no field holds a newline. */
  lemma {:induction false} LinesFromText(rows: seq<seq<string>>, sep: char)
    requires sep != '\n'
    requires forall r :: 0 <= r < |rows| ==> |rows[r]| > 0
    requires forall r, i :: 0 <= r < |rows| && 0 <= i < |rows[r]| ==> '\n' !in rows[r][i]
    ensures |LinesFrom(Open(RowsText(rows, sep)))| == |rows|
    ensures forall r :: 0 <= r < |rows| ==> LinesFrom(Open(RowsText(rows, sep)))[r] == Join(rows[r], sep)
    decreases |rows|
  {
    if |rows| == 0 {
      assert GetLine(Open(""), '\n', "").0.fail;
    } else {
      var s := RowsText(rows, sep);
      var head := Join(rows[0], sep);
      NoNewlineInJoin(rows[0], sep);
      assert s == head + "\n" + RowsText(rows[1..], sep);
      assert s[|head|] == '\n' && s[..|head|] == head;
      FirstIndexAt(s, '\n', |head|);
      assert s[|head| + 1..] == RowsText(rows[1..], sep);
      assert GetLine(Open(s), '\n', "") == (Open(RowsText(rows[1..], sep)), head);
      LinesFromText(rows[1..], sep);
    }
  }

  /** A joined row holds a newline only if a field does. */
  lemma {:induction false} NoNewlineInJoin(fields: seq<string>, sep: char)
    requires |fields| > 0 && sep != '\n'
    requires forall i :: 0 <= i < |fields| ==> '\n' !in fields[i]
    ensures '\n' !in Join(fields, sep)
    decreases |fields|
  {
    if |fields| > 1 {
      NoNewlineInJoin(fields[1..], sep);
    }
  }

  /** `load<Types...>(file, first_line_header, type)` on a file holding `text`, for n
      types: the type is detected, a header line is skipped (its absence is an error), and
      the other lines go to the tuple loader, or for a single type to the value loader,
      which as written returns no value. */
  function Loaded(file: string, text: string, header: bool, t: FileType, n: nat, parse: (nat, string) -> Option<Atom>): (r: Result<seq<Tuple>>)
    requires n > 0
    ensures DetectFileType(file, t).Err? ==> r == Err("Unable to infer file type from file name")
    ensures DetectFileType(file, t).Ok? && header && text == "" ==> r == Err("Failed reading header")
  {
    match DetectFileType(file, t)
    case Err(e) => Err(e)
    case Ok(use) =>
      var sep := FileTypeToSeparator(use);
      var st := if header then GetLine(Open(text), '\n', "").0 else Open(text);
      if st.fail then Err("Failed reading header")
      else if n == 1 then Ok([])
      else LoadTuplesFrom(st, sep, n, parse)
  }

  /** Loading a single type yields no value whatever the file holds, once its type is
      known and its header is read. */
  lemma SingleTypeLoadsNothing(file: string, text: string, header: bool, t: FileType, parse: (nat, string) -> Option<Atom>)
    requires DetectFileType(file, t).Ok? && !(header && text == "")
    ensures Loaded(file, text, header, t, 1, parse) == Ok([])
  {
  }

  /** `load`: detection, the header line, then the loader for the element type. */
  method Load(file: string, text: string, header: bool, t: FileType, n: nat, parse: (nat, string) -> Option<Atom>)
    returns (r: Result<seq<Tuple>>)
    requires n > 0
    ensures r == Loaded(file, text, header, t, n, parse)
  {
    var use := DetectFileType(file, t);
    if use.Err? {
      return Err(use.error);
    }
    var fs := Open(text);
    var line := "";
    if header {
      fs, line := ReadLine(fs, '\n', line);
      if fs.fail {
        return Err("Failed reading header");
      }
    }
    if n == 1 {
      var values, _ := LoadValuesIntoContainerAsWritten(fs);
      return Ok([]);
    }
    r := LoadTuplesIntoContainer(fs, FileTypeToSeparator(use.value), n, parse);
  }

  /** The stream after a header line free of newlines holds what follows it. */
  lemma SkipHeader(headerLine: string, body: string)
    requires '\n' !in headerLine
    ensures GetLine(Open(headerLine + "\n" + body), '\n', "").0 == Open(body)
  {
    var s := headerLine + "\n" + body;
    assert s[|headerLine|] == '\n' && s[..|headerLine|] == headerLine;
    FirstIndexAt(s, '\n', |headerLine|);
    assert s[|headerLine| + 1..] == body;
  }

  /** Saving rows, after a header line when there is one, and loading them gives the rows
      back, when there are at least two components and every field is non-empty, free of
      the separator and of newlines, and parses to its value. */
  lemma SaveLoadRoundTrip(file: string, header: bool, headerLine: string, rows: seq<seq<string>>, t: FileType, n: nat,
                          parse: (nat, string) -> Option<Atom>, values: seq<Tuple>)
    requires DetectFileType(file, t).Ok? && '\n' !in headerLine
    requires |rows| == |values| && n >= 2
    requires forall r :: 0 <= r < |rows| ==> |rows[r]| == n && |values[r]| == n
    requires forall r, i :: 0 <= r < |rows| && 0 <= i < n ==>
      |rows[r][i]| > 0 && FileTypeToSeparator(DetectFileType(file, t).value) !in rows[r][i] && '\n' !in rows[r][i]
    requires forall r, i :: 0 <= r < |rows| && 0 <= i < n ==> parse(i, rows[r][i]) == Some(values[r][i])
    ensures Loaded(file, (if header then headerLine + "\n" else "") + RowsText(rows, FileTypeToSeparator(DetectFileType(file, t).value)),
                   header, t, n, parse) == Ok(values)
  {
    var sep := FileTypeToSeparator(DetectFileType(file, t).value);
    var load := TupleLoader(sep, n, parse);
    var body := RowsText(rows, sep);
    if header {
      SkipHeader(headerLine, body);
    } else {
      assert "" + body == body;
    }
    var lines := LinesFrom(Open(body));
    LinesFromText(rows, sep);
    forall r | 0 <= r < |rows| ensures load(lines[r]) == Ok(values[r]) {
      JoinLoadTuple(rows[r], sep, parse, values[r]);
    }
    LoadAllEach(lines, load);
    assert LoadAll(lines, load).value == values;
  }
}
