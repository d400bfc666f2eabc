/**
 * get_time_from_filename: a daily report named MM-DD-YYYY.csv is dated by
 * its name. The name's stem is split on '-', read as month, day and year,
 * turned into a calendar date, and reported as the date's ISO text together
 * with its day offset from 2020-01-22.
 */
module SnapshotTime {
  import opened Wrappers
  import opened Errors
  import opened Text
  import opened Calendar

  /** The DateTimeTuple namedtuple: the ISO text of the date and its day offset. */
  datatype DateTimeTuple = DateTimeTuple(iso: string, days: int)

  /** datetime.isoformat() of a date at midnight: YYYY-MM-DDT00:00:00. */
  function IsoFormat(d: Date): (iso: string)
    requires IsValid(d)
    ensures |iso| == 19
  {
    PadDigits(d.year, 4) + "-" + PadDigits(d.month, 2) + "-" + PadDigits(d.day, 2) + "T00:00:00"
  }

  /** The '-'-separated tokens of the file name with its directory and extension removed. */
  function DateTokens(path: string): seq<string> {
    Split(StripExtension(BaseName(path)), '-')
  }

  /**
   * datetime(int(tokens[2]), int(tokens[0]), int(tokens[1])). The arguments
   * are evaluated year token first, then month, then day; the first one that
   * fails decides the error.
   */
  function DateFromTokens(tokens: seq<string>): (r: Result<Date, Error>)
    ensures |tokens| < 3 ==> r == Failure(IndexOutOfRange(2))
    ensures r.Success? ==>
      && |tokens| >= 3
      && ParseInt(tokens[0]) == Some(r.value.month)
      && ParseInt(tokens[1]) == Some(r.value.day)
      && ParseInt(tokens[2]) == Some(r.value.year)
      && IsValid(r.value)
  {
    if |tokens| < 3 then
      Failure(IndexOutOfRange(2))
    else
      match ParseInt(tokens[2])
      case None => Failure(InvalidLiteral(tokens[2]))
      case Some(year) =>
        match ParseInt(tokens[0])
        case None => Failure(InvalidLiteral(tokens[0]))
        case Some(month) =>
          match ParseInt(tokens[1])
          case None => Failure(InvalidLiteral(tokens[1]))
          case Some(day) =>
            var date := Date(year, month, day);
            if IsValid(date) then Success(date) else Failure(DateOutOfRange(year, month, day))
  }

  /** The date of a snapshot file: its ISO text and its day offset from the epoch. */
  function TimeFromFilename(path: string): Result<DateTimeTuple, Error> {
    match DateFromTokens(DateTokens(path))
    case Failure(e) => Failure(e)
    case Success(date) => Success(DateTimeTuple(IsoFormat(date), DaysSinceEpoch(date)))
  }

  /** The ISO text reads back as the date it was made from. */
  lemma IsoFormatFields(d: Date)
    requires IsValid(d)
    ensures var iso := IsoFormat(d);
      && AllDigits(iso[..4]) && AllDigits(iso[5..7]) && AllDigits(iso[8..10])
      && DigitsValue(iso[..4]) == d.year
      && DigitsValue(iso[5..7]) == d.month
      && DigitsValue(iso[8..10]) == d.day
      && iso[4] == '-' && iso[7] == '-' && iso[10..] == "T00:00:00"
  {
    var iso := IsoFormat(d);
    var y, m, dd := PadDigits(d.year, 4), PadDigits(d.month, 2), PadDigits(d.day, 2);
    assert iso == y + "-" + m + "-" + dd + "T00:00:00";
    assert iso[..4] == y && iso[5..7] == m && iso[8..10] == dd;
    PadDigitsValue(d.year, 4);
    PadDigitsValue(d.month, 2);
    PadDigitsValue(d.day, 2);
  }

  /** A report name M-D-Y.csv whose fields are written with the given numbers of digits. */
  function DigitsFileName(year: nat, month: nat, day: nat, yearWidth: nat, monthWidth: nat, dayWidth: nat): string {
    PadDigits(month, monthWidth) + "-" + PadDigits(day, dayWidth) + "-" + PadDigits(year, yearWidth) + ".csv"
  }

  /** The conventional name of the report for a month, day and year: zero-padded MM-DD-YYYY.csv. */
  function SnapshotFileName(year: nat, month: nat, day: nat): string {
    DigitsFileName(year, month, day, 4, 2, 2)
  }

  lemma NoSeparatorInDigits(s: string)
    requires AllDigits(s)
    ensures '/' !in s && '.' !in s && '-' !in s
  {
  }

  /** Inside a directory, the base name of a '/'-free file name is that name. */
  lemma BaseNameInDirectory(dir: string, name: string)
    requires '/' !in name
    requires dir == [] || dir[|dir| - 1] == '/'
    ensures BaseName(dir + name) == name
  {
    var path := dir + name;
    assert path[|path| - |name|..] == name;
  }

  /** splitext removes a trailing ".csv" from a name that does not start with a dot. */
  lemma StripCsv(stem: string)
    requires |stem| > 0 && stem[0] != '.' && '/' !in stem
    ensures StripExtension(stem + ".csv") == stem
  {
    var name := stem + ".csv";
    assert '/' !in name by {
      forall i | 0 <= i < |name| ensures name[i] != '/' {
        if i < |stem| { assert name[i] == stem[i]; }
      }
    }
    var dotIndex := LastIndexOf(name, '.');
    assert name[|stem|] == '.' && name[|stem| + 1] == 'c' && name[|stem| + 2] == 's' && name[|stem| + 3] == 'v';
    assert dotIndex == |stem|;
    assert LastIndexOf(name, '/') == -1;
    assert !AllDots(name[0..dotIndex]) by {
      assert name[0..dotIndex][0] == stem[0];
    }
    assert name[..dotIndex] == stem;
  }

  /** MM-DD-YYYY splits on '-' into its three fields. */
  lemma SplitDateStem(mm: string, dd: string, yyyy: string)
    requires '-' !in mm && '-' !in dd && '-' !in yyyy
    ensures Split(mm + "-" + dd + "-" + yyyy, '-') == [mm, dd, yyyy]
  {
    var parts := [mm, dd, yyyy];
    assert parts[1..] == [dd, yyyy] && parts[1..][1..] == [yyyy];
    assert Join([dd, yyyy], '-') == dd + ['-'] + yyyy;
    assert Join(parts, '-') == mm + ['-'] + (dd + ['-'] + yyyy);
    assert mm + "-" + dd + "-" + yyyy == mm + ['-'] + (dd + ['-'] + yyyy);
    SplitJoin([mm, dd, yyyy], '-');
  }

  /** The tokens of M-D-Y.csv, in any directory, are its three digit fields, whatever their widths. */
  lemma DigitFileTokens(dir: string, mm: string, dd: string, yyyy: string)
    requires AllDigits(mm) && AllDigits(dd) && AllDigits(yyyy) && |mm| > 0
    requires dir == [] || dir[|dir| - 1] == '/'
    ensures DateTokens(dir + (mm + "-" + dd + "-" + yyyy + ".csv")) == [mm, dd, yyyy]
  {
    NoSeparatorInDigits(mm);
    NoSeparatorInDigits(dd);
    NoSeparatorInDigits(yyyy);
    var stem := mm + "-" + dd + "-" + yyyy;
    assert '/' !in stem;
    assert stem[0] == mm[0] && IsDigit(mm[0]);
    StripCsv(stem);
    BaseNameInDirectory(dir, stem + ".csv");
    SplitDateStem(mm, dd, yyyy);
  }

  /** Digit tokens of any widths, month first, make the date they spell, or a datetime() ValueError. */
  lemma DigitTokensDate(year: nat, month: nat, day: nat, yearWidth: nat, monthWidth: nat, dayWidth: nat)
    requires yearWidth >= 1 && monthWidth >= 1 && dayWidth >= 1
    requires year < Pow10(yearWidth) && month < Pow10(monthWidth) && day < Pow10(dayWidth)
    ensures var date := Date(year, month, day);
      DateFromTokens([PadDigits(month, monthWidth), PadDigits(day, dayWidth), PadDigits(year, yearWidth)])
        == if IsValid(date) then Success(date) else Failure(DateOutOfRange(year, month, day))
  {
    ParseIntPadded(year, yearWidth);
    ParseIntPadded(month, monthWidth);
    ParseIntPadded(day, dayWidth);
  }

  /**
   * A report named M-D-Y.csv with decimal fields of any widths, in any
   * directory, is dated month M, day D of year Y: its offset is that date's
   * distance from the epoch, and a date the calendar does not have is a
   * ValueError.
   */
  lemma TimeFromDigitsFileName(dir: string, year: nat, month: nat, day: nat, yearWidth: nat, monthWidth: nat, dayWidth: nat)
    requires yearWidth >= 1 && monthWidth >= 1 && dayWidth >= 1
    requires year < Pow10(yearWidth) && month < Pow10(monthWidth) && day < Pow10(dayWidth)
    requires dir == [] || dir[|dir| - 1] == '/'
    ensures var date := Date(year, month, day);
      TimeFromFilename(dir + DigitsFileName(year, month, day, yearWidth, monthWidth, dayWidth))
        == if IsValid(date) then Success(DateTimeTuple(IsoFormat(date), DaysSinceEpoch(date)))
           else Failure(DateOutOfRange(year, month, day))
  {
    DigitFileTokens(dir, PadDigits(month, monthWidth), PadDigits(day, dayWidth), PadDigits(year, yearWidth));
    DigitTokensDate(year, month, day, yearWidth, monthWidth, dayWidth);
  }

  /** The conventional zero-padded MM-DD-YYYY.csv names, in any directory. */
  lemma TimeFromSnapshotFileName(dir: string, year: nat, month: nat, day: nat)
    requires year < 10000 && month < 100 && day < 100
    requires dir == [] || dir[|dir| - 1] == '/'
    ensures var date := Date(year, month, day);
      TimeFromFilename(dir + SnapshotFileName(year, month, day))
        == if IsValid(date) then Success(DateTimeTuple(IsoFormat(date), DaysSinceEpoch(date)))
           else Failure(DateOutOfRange(year, month, day))
  {
    assert Pow10(2) == 100 && Pow10(4) == 10000;
    TimeFromDigitsFileName(dir, year, month, day, 4, 2, 2);
  }

  /** Names written without padding, as str() writes the numbers (3-5-2020.csv), in any directory. */
  lemma TimeFromUnpaddedFileName(dir: string, year: nat, month: nat, day: nat)
    requires dir == [] || dir[|dir| - 1] == '/'
    ensures var date := Date(year, month, day);
      TimeFromFilename(dir + (FormatInt(month) + "-" + FormatInt(day) + "-" + FormatInt(year) + ".csv"))
        == if IsValid(date) then Success(DateTimeTuple(IsoFormat(date), DaysSinceEpoch(date)))
           else Failure(DateOutOfRange(year, month, day))
  {
    assert FormatInt(month) == PadDigits(month, NumDigits(month));
    assert FormatInt(day) == PadDigits(day, NumDigits(day));
    assert FormatInt(year) == PadDigits(year, NumDigits(year));
    TimeFromDigitsFileName(dir, year, month, day, NumDigits(year), NumDigits(month), NumDigits(day));
  }

  /** A conventional name of a calendar date dates its report with that date's offset from the epoch. */
  lemma SnapshotFileNameDays(dir: string, year: nat, month: nat, day: nat)
    requires year < 10000 && month < 100 && day < 100
    requires dir == [] || dir[|dir| - 1] == '/'
    requires IsValid(Date(year, month, day))
    ensures TimeFromFilename(dir + SnapshotFileName(year, month, day)).Success?
    ensures TimeFromFilename(dir + SnapshotFileName(year, month, day)).value.days == DaysSinceEpoch(Date(year, month, day))
  {
    TimeFromSnapshotFileName(dir, year, month, day);
  }

  /** A conventional name whose date the calendar does not have is a datetime() ValueError. */
  lemma SnapshotFileNameRejected(dir: string, year: nat, month: nat, day: nat)
    requires year < 10000 && month < 100 && day < 100
    requires dir == [] || dir[|dir| - 1] == '/'
    requires !IsValid(Date(year, month, day))
    ensures TimeFromFilename(dir + SnapshotFileName(year, month, day)) == Failure(DateOutOfRange(year, month, day))
  {
    TimeFromSnapshotFileName(dir, year, month, day);
  }

  // The examples below name their file through a parameter fixed by the
  // precondition, which keeps the verifier from evaluating the whole parse
  // on a literal string; the names themselves are spelled out one at a time.

  lemma Pad01() ensures PadDigits(1, 2) == "01" {}
  lemma Pad02() ensures PadDigits(2, 2) == "02" {}
  lemma Pad03() ensures PadDigits(3, 2) == "03" {}
  lemma Pad05() ensures PadDigits(5, 2) == "05" {}
  lemma Pad13() ensures PadDigits(13, 2) == "13" {}
  lemma Pad22() ensures PadDigits(22, 2) == "22" {}
  lemma Pad30() ensures PadDigits(30, 2) == "30" {}
  lemma Pad2020() ensures PadDigits(2020, 4) == "2020" {}

  lemma EpochFileName()
    ensures SnapshotFileName(2020, 1, 22) == "01-22-2020.csv"
  {
    Pad01();
    Pad22();
    Pad2020();
  }

  lemma MarchFifthFileName()
    ensures SnapshotFileName(2020, 3, 5) == "03-05-2020.csv"
  {
    Pad03();
    Pad05();
    Pad2020();
  }

  lemma MonthThirteenFileName()
    ensures SnapshotFileName(2020, 13, 1) == "13-01-2020.csv"
  {
    Pad13();
    Pad01();
    Pad2020();
  }

  lemma FebruaryThirtiethFileName()
    ensures SnapshotFileName(2020, 2, 30) == "02-30-2020.csv"
  {
    Pad02();
    Pad30();
    Pad2020();
  }

  /** 01-22-2020.csv is the epoch itself: day 0. */
  lemma EpochFileOffset(name: string)
    requires name == "01-22-2020.csv"
    ensures TimeFromFilename(name).Success? && TimeFromFilename(name).value.days == 0
  {
    EpochFileName();
    assert "" + name == name;
    SnapshotFileNameDays("", 2020, 1, 22);
  }

  /** 03-05-2020.csv is day 43. */
  lemma MarchFifthFileOffset(name: string)
    requires name == "03-05-2020.csv"
    ensures TimeFromFilename(name).Success? && TimeFromFilename(name).value.days == 43
  {
    MarchFifthFileName();
    assert "" + name == name;
    SnapshotFileNameDays("", 2020, 3, 5);
    MarchFifthOffset();
  }

  /** Month 13 is not a month: datetime() raises. */
  lemma MonthThirteenRejected(name: string)
    requires name == "13-01-2020.csv"
    ensures TimeFromFilename(name) == Failure(DateOutOfRange(2020, 13, 1))
  {
    MonthThirteenFileName();
    assert "" + name == name;
    SnapshotFileNameRejected("", 2020, 13, 1);
  }

  /** February 2020 has 29 days, so February 30 is rejected. */
  lemma FebruaryThirtiethRejected(name: string)
    requires name == "02-30-2020.csv"
    ensures TimeFromFilename(name) == Failure(DateOutOfRange(2020, 2, 30))
  {
    FebruaryThirtiethFileName();
    assert "" + name == name;
    SnapshotFileNameRejected("", 2020, 2, 30);
  }

  /**
   * A month, day or year token that is not an integer literal is a
   * ValueError naming that token; the year is converted first, then the
   * month, then the day, so the first of those that fails is named.
   */
  lemma NonNumericTokenRejected(path: string)
    requires var t := DateTokens(path);
      |t| >= 3 && (ParseInt(t[0]).None? || ParseInt(t[1]).None? || ParseInt(t[2]).None?)
    ensures var t := DateTokens(path);
      TimeFromFilename(path) == Failure(InvalidLiteral(
        if ParseInt(t[2]).None? then t[2] else if ParseInt(t[0]).None? then t[0] else t[1]))
  {
  }
}
