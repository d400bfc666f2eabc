/**
 * Reading the daily reports: parse_data_file turns one report (its path and
 * its rows, already split into fields) into a snapshot, and collect_data
 * does so for every report, all or nothing.
 *
 * Every report is read with the same fixed column positions. The first row
 * is a header and is dropped; in every other row the Country field is put
 * through the alias table and the Confirmed, Recovered and Deaths fields
 * become integers, a blank field counting as 0.
 */
module Ingest {
  import opened Wrappers
  import opened Errors
  import opened Text
  import opened SnapshotTime
  import opened Convert

  /** Column positions, the same for every report. */
  const Province := 0
  const Country := 1
  const LastUpdate := 2
  const Confirmed := 3
  const Deaths := 4
  const Recovered := 5

  /** A field of a row: the text read from the file, or a count it was converted to. */
  datatype Cell = Str(text: string) | Count(value: int)

  type Row = seq<Cell>

  /** The FileDataTuple namedtuple: a report's date and its normalised data rows. */
  datatype FileData = FileData(date: DateTimeTuple, data: seq<Row>)

  /** A report as it comes out of the directory listing and the CSV reader. */
  datatype SourceFile = SourceFile(path: string, rows: seq<seq<string>>)

  /** The corrections collect_data applies to country labels. */
  const CountryNameMap: map<string, string> := map["Mainland China" := "China", "Taiwan*" := "Taiwan"]

  /** country_name_map.get(name, name): the alias if there is one, else the name itself. */
  function Alias(aliases: map<string, string>, name: string): string {
    if name in aliases then aliases[name] else name
  }

  /** An alias table whose targets are never themselves aliased needs to be applied only once. */
  lemma AliasIdempotent(aliases: map<string, string>, name: string)
    requires forall k :: k in aliases ==> aliases[k] !in aliases
    ensures Alias(aliases, Alias(aliases, name)) == Alias(aliases, name)
  {
  }

  /**
   * The table in use corrects exactly its two labels, leaves every other
   * name alone, and applying it twice is applying it once.
   */
  lemma CountryNameMapProperties(name: string)
    ensures Alias(CountryNameMap, "Mainland China") == "China"
    ensures Alias(CountryNameMap, "Taiwan*") == "Taiwan"
    ensures name != "Mainland China" && name != "Taiwan*" ==> Alias(CountryNameMap, name) == name
    ensures Alias(CountryNameMap, Alias(CountryNameMap, name)) == Alias(CountryNameMap, name)
  {
    assert CountryNameMap.Keys == {"Mainland China", "Taiwan*"};
    assert "China" != "Mainland China" && "China" != "Taiwan*";
    assert "Taiwan" != "Mainland China" && "Taiwan" != "Taiwan*";
    AliasIdempotent(CountryNameMap, name);
  }

  /** int(text) if len(text) > 0 else 0. */
  function CountField(text: string): Result<int, Error> {
    if |text| > 0 then
      match ParseInt(text)
      case None => Failure(InvalidLiteral(text))
      case Some(n) => Success(n)
    else
      Success(0)
  }

  /**
   * A blank count is 0, the decimal text of any integer is that integer, and
   * text that is not a decimal integer is a ValueError naming it.
   */
  lemma CountFieldValues(n: int, text: string)
    ensures CountField("") == Success(0)
    ensures CountField(FormatInt(n)) == Success(n)
    ensures text != "" && ParseInt(text).None? ==> CountField(text) == Failure(InvalidLiteral(text))
  {
    ParseIntFormat(n);
  }

  /** A row as the CSV reader yields it: every field text. */
  function Strs(fields: seq<string>): (row: Row)
    ensures |row| == |fields| && forall k :: 0 <= k < |fields| ==> row[k] == Str(fields[k])
  {
    seq(|fields|, k requires 0 <= k < |fields| => Str(fields[k]))
  }

  /**
   * What normalisation promises of a row: same length, Country aliased,
   * the three counts converted, and every other field untouched.
   */
  ghost predicate NormalisedFrom(fields: seq<string>, aliases: map<string, string>, row: Row) {
    && |row| == |fields| && |fields| > Recovered
    && row[Country] == Str(Alias(aliases, fields[Country]))
    && row[Confirmed].Count? && CountField(fields[Confirmed]) == Success(row[Confirmed].value)
    && row[Deaths].Count? && CountField(fields[Deaths]) == Success(row[Deaths].value)
    && row[Recovered].Count? && CountField(fields[Recovered]) == Success(row[Recovered].value)
    && forall k :: 0 <= k < |fields| && k != Country && k != Confirmed && k != Deaths && k != Recovered
         ==> row[k] == Str(fields[k])
  }

  /**
   * The in-place update one data row receives, as a value. Fields are read in
   * the order of the source: Country, Confirmed, Recovered, then Deaths; the
   * first missing index or malformed count is the error.
   */
  function NormaliseRow(fields: seq<string>, aliases: map<string, string>): Result<Row, Error> {
    if |fields| <= Country then
      Failure(IndexOutOfRange(Country))
    else if |fields| <= Confirmed then
      Failure(IndexOutOfRange(Confirmed))
    else
      match CountField(fields[Confirmed])
      case Failure(e) => Failure(e)
      case Success(confirmed) =>
        if |fields| <= Recovered then
          Failure(IndexOutOfRange(Recovered))
        else
          match CountField(fields[Recovered])
          case Failure(e) => Failure(e)
          case Success(recovered) =>
            match CountField(fields[Deaths])
            case Failure(e) => Failure(e)
            case Success(deaths) =>
              Success(Strs(fields)[Country := Str(Alias(aliases, fields[Country]))]
                                  [Confirmed := Count(confirmed)]
                                  [Recovered := Count(recovered)]
                                  [Deaths := Count(deaths)])
  }

  /**
   * A row normalises exactly when it has all six columns and its three counts
   * are blank or integers; the result then keeps the row's length, changes
   * only Country and the counts. A short row fails on the first index it
   * lacks, in the order the fields are read (Country, Confirmed, Recovered),
   * unless a count read before that index is malformed.
   */
  lemma NormaliseRowShape(fields: seq<string>, aliases: map<string, string>)
    ensures NormaliseRow(fields, aliases).Success? <==>
      && |fields| > Recovered
      && CountField(fields[Confirmed]).Success?
      && CountField(fields[Deaths]).Success?
      && CountField(fields[Recovered]).Success?
    ensures NormaliseRow(fields, aliases).Success? ==> NormalisedFrom(fields, aliases, NormaliseRow(fields, aliases).value)
    ensures |fields| <= Country ==> NormaliseRow(fields, aliases) == Failure(IndexOutOfRange(Country))
    ensures Country < |fields| <= Confirmed ==> NormaliseRow(fields, aliases) == Failure(IndexOutOfRange(Confirmed))
    ensures Confirmed < |fields| && CountField(fields[Confirmed]).Failure? ==>
      NormaliseRow(fields, aliases) == Failure(CountField(fields[Confirmed]).error)
    ensures Confirmed < |fields| <= Recovered && CountField(fields[Confirmed]).Success? ==>
      NormaliseRow(fields, aliases) == Failure(IndexOutOfRange(Recovered))
  {
  }

  /** The conversion parse_data_file applies to every data row. */
  function RowNormaliser(aliases: map<string, string>): seq<string> -> Result<Row, Error> {
    fields => NormaliseRow(fields, aliases)
  }

  /** The rows after the header. */
  function DataRows(rows: seq<seq<string>>): seq<seq<string>> {
    if rows == [] then [] else rows[1..]
  }

  /**
   * What parse_data_file yields for a report: the date taken from the path
   * before the file is read, then the data rows normalised in file order.
   */
  function ParsedFile(path: string, rows: seq<seq<string>>, aliases: map<string, string>): Result<FileData, Error> {
    match TimeFromFilename(path)
    case Failure(e) => Failure(e)
    case Success(fileTime) =>
      match ConvertAll(DataRows(rows), RowNormaliser(aliases))
      case Failure(e) => Failure(e)
      case Success(data) => Success(FileData(fileTime, data))
  }

  /** A bad file name fails the report before any row is looked at; a good one dates it. */
  lemma ParsedFileDate(path: string, rows: seq<seq<string>>, aliases: map<string, string>)
    ensures TimeFromFilename(path).Failure? ==>
      ParsedFile(path, rows, aliases) == Failure(TimeFromFilename(path).error)
    ensures ParsedFile(path, rows, aliases).Success? ==>
      TimeFromFilename(path).Success? && ParsedFile(path, rows, aliases).value.date == TimeFromFilename(path).value
  {
  }

  /**
   * A report with a good file name parses exactly when every row after the
   * header normalises; the header never reaches the data, which then holds
   * one normalised row per later row, in file order.
   */
  lemma ParsedFileRows(path: string, rows: seq<seq<string>>, aliases: map<string, string>)
    requires TimeFromFilename(path).Success?
    ensures ParsedFile(path, rows, aliases).Success? <==>
      forall i :: 1 <= i < |rows| ==> NormaliseRow(rows[i], aliases).Success?
    ensures ParsedFile(path, rows, aliases).Success? ==>
      var data := ParsedFile(path, rows, aliases).value.data;
      && |data| == (if rows == [] then 0 else |rows| - 1)
      && forall i :: 1 <= i < |rows| ==> NormaliseRow(rows[i], aliases) == Success(data[i - 1])
  {
    if rows != [] {
      ConvertAllButFirst(rows, RowNormaliser(aliases));
    }
  }

  /**
   * When a report with a good file name does not parse, the error is the
   * one of the first data row that does not normalise.
   */
  lemma ParsedFileRowFailure(path: string, rows: seq<seq<string>>, aliases: map<string, string>)
    requires TimeFromFilename(path).Success? && ParsedFile(path, rows, aliases).Failure?
    ensures exists i :: (1 <= i < |rows|
      && NormaliseRow(rows[i], aliases) == Failure(ParsedFile(path, rows, aliases).error)
      && (forall j :: 1 <= j < i ==> NormaliseRow(rows[j], aliases).Success?))
  {
    ConvertAllButFirstFailure(rows, RowNormaliser(aliases));
  }

  /**
   * The body of parse_data_file's loop for one data row: the row is changed
   * field by field, Country first, then Confirmed, Recovered and Deaths, and
   * the first missing index or malformed count stops it.
   */
  method UpdateRow(fields: seq<string>, aliases: map<string, string>) returns (r: Result<Row, Error>)
    ensures r == NormaliseRow(fields, aliases)
  {
    var row := Strs(fields);
    if |row| <= Country {
      return Failure(IndexOutOfRange(Country));
    }
    row := row[Country := Str(Alias(aliases, row[Country].text))];
    if |row| <= Confirmed {
      return Failure(IndexOutOfRange(Confirmed));
    }
    assert row[Confirmed] == Str(fields[Confirmed]);
    var confirmed := CountField(row[Confirmed].text);
    if confirmed.Failure? {
      return Failure(confirmed.error);
    }
    row := row[Confirmed := Count(confirmed.value)];
    if |row| <= Recovered {
      return Failure(IndexOutOfRange(Recovered));
    }
    assert row[Recovered] == Str(fields[Recovered]);
    var recovered := CountField(row[Recovered].text);
    if recovered.Failure? {
      return Failure(recovered.error);
    }
    row := row[Recovered := Count(recovered.value)];
    assert row[Deaths] == Str(fields[Deaths]);
    var deaths := CountField(row[Deaths].text);
    if deaths.Failure? {
      return Failure(deaths.error);
    }
    row := row[Deaths := Count(deaths.value)];
    return Success(row);
  }

  /**
   * The loop of parse_data_file over the csv reader: the first row (the
   * header) only clears the first-row flag; every later row is normalised
   * and appended, and the first row that fails ends the loop with its error.
   */
  method NormaliseDataRows(rows: seq<seq<string>>, aliases: map<string, string>)
    returns (r: Result<seq<Row>, Error>)
    ensures r == ConvertAll(DataRows(rows), RowNormaliser(aliases))
  {
    ghost var normalise := RowNormaliser(aliases);
    ghost var dataRows := DataRows(rows);
    var firstRow := true;
    var data: seq<Row> := [];
    var i := 0;
    while i < |rows|
      invariant 0 <= i <= |rows|
      invariant firstRow <==> i == 0
      invariant i > 0 ==> ConvertAll(dataRows[..i - 1], normalise) == Success(data)
      invariant i == 0 ==> data == []
    {
      if !firstRow {
        var row := UpdateRow(rows[i], aliases);
        assert dataRows[i - 1] == rows[i];
        if row.Failure? {
          ConvertAllStops(dataRows, i - 1, normalise, row.error);
          return Failure(row.error);
        }
        ConvertAllPrefix(dataRows, i - 1, normalise);
        data := data + [row.value];
      }
      firstRow := false;
      i := i + 1;
    }
    assert rows == [] || dataRows[..i - 1] == dataRows;
    return Success(data);
  }

  /**
   * parse_data_file: the date from the path first, then the rows of the file.
   * This is the same composition ParsedFile states; the method exists because
   * the loop it calls, NormaliseDataRows, is imperative.
   */
  method ParseDataFile(path: string, rows: seq<seq<string>>, aliases: map<string, string>)
    returns (r: Result<FileData, Error>)
    ensures r == ParsedFile(path, rows, aliases)
  {
    var fileTime := TimeFromFilename(path);
    if fileTime.Failure? {
      return Failure(fileTime.error);
    }
    var data := NormaliseDataRows(rows, aliases);
    if data.Failure? {
      return Failure(data.error);
    }
    return Success(FileData(fileTime.value, data.value));
  }

  /** A row the aggregation can read: counts where the counts are, the country as text. */
  predicate WellFormedEntry(row: Row) {
    |row| > Recovered && row[Country].Str? && row[Confirmed].Count? && row[Deaths].Count? && row[Recovered].Count?
  }

  /** Every row of a parsed report has its country as text and its three counts as numbers. */
  lemma ParsedFileWellFormed(path: string, rows: seq<seq<string>>, aliases: map<string, string>)
    requires ParsedFile(path, rows, aliases).Success?
    ensures forall k :: 0 <= k < |ParsedFile(path, rows, aliases).value.data| ==>
      WellFormedEntry(ParsedFile(path, rows, aliases).value.data[k])
  {
    ParsedFileDate(path, rows, aliases);
    ParsedFileRows(path, rows, aliases);
    var data := ParsedFile(path, rows, aliases).value.data;
    forall k | 0 <= k < |data|
      ensures WellFormedEntry(data[k])
    {
      NormaliseRowShape(rows[k + 1], aliases);
    }
  }

  /** The conversion collect_data applies to every report: parse_data_file with the alias table. */
  function FileParser(): SourceFile -> Result<FileData, Error> {
    (file: SourceFile) => ParsedFile(file.path, file.rows, CountryNameMap)
  }

  /**
   * collect_data: every report is parsed with the alias table, in the order
   * the directory listing gives them. Any failing report fails the whole
   * collection with its error; nothing partial is returned.
   */
  method CollectData(files: seq<SourceFile>) returns (r: Result<seq<FileData>, Error>)
    ensures r == ConvertAll(files, FileParser())
  {
    ghost var parse := FileParser();
    var allData: seq<FileData> := [];
    var i := 0;
    while i < |files|
      invariant 0 <= i <= |files|
      invariant ConvertAll(files[..i], parse) == Success(allData)
    {
      var fileData := ParseDataFile(files[i].path, files[i].rows, CountryNameMap);
      if fileData.Failure? {
        ConvertAllStops(files, i, parse, fileData.error);
        return Failure(fileData.error);
      }
      ConvertAllPrefix(files, i, parse);
      allData := allData + [fileData.value];
      i := i + 1;
    }
    assert files[..i] == files;
    return Success(allData);
  }

  /**
   * The collection succeeds exactly when every report parses, and then holds
   * each report's data at that report's position; otherwise its error is
   * that of the first report that does not parse.
   */
  lemma CollectedDataShape(files: seq<SourceFile>)
    ensures ConvertAll(files, FileParser()).Success? <==>
      forall i :: 0 <= i < |files| ==> ParsedFile(files[i].path, files[i].rows, CountryNameMap).Success?
    ensures ConvertAll(files, FileParser()).Success? ==>
      var collected := ConvertAll(files, FileParser()).value;
      && |collected| == |files|
      && forall i :: 0 <= i < |files| ==> ParsedFile(files[i].path, files[i].rows, CountryNameMap) == Success(collected[i])
    ensures ConvertAll(files, FileParser()).Failure? ==>
      exists i :: (0 <= i < |files|
        && ParsedFile(files[i].path, files[i].rows, CountryNameMap) == Failure(ConvertAll(files, FileParser()).error)
        && (forall j :: 0 <= j < i ==> ParsedFile(files[j].path, files[j].rows, CountryNameMap).Success?))
  {
    ConvertAllSuccess(files, FileParser());
    if ConvertAll(files, FileParser()).Failure? {
      ConvertAllFailure(files, FileParser());
    }
  }

  /** Every row of collected data has its country as text and its three counts as numbers. */
  lemma CollectedDataWellFormed(files: seq<SourceFile>)
    requires ConvertAll(files, FileParser()).Success?
    ensures forall i, k :: 0 <= i < |files| && 0 <= k < |ConvertAll(files, FileParser()).value[i].data| ==>
      WellFormedEntry(ConvertAll(files, FileParser()).value[i].data[k])
  {
    CollectedDataShape(files);
    var collected := ConvertAll(files, FileParser()).value;
    forall i | 0 <= i < |files|
      ensures forall k :: 0 <= k < |collected[i].data| ==> WellFormedEntry(collected[i].data[k])
    {
      ParsedFileWellFormed(files[i].path, files[i].rows, CountryNameMap);
    }
  }
}
