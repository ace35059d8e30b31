/**
 * `WeatherSearchTool._run` of agents/tools/weather.py: the argument "city,date" is
 * split on ',' and unpacked into exactly two pieces, and a fixed placeholder report
 * is built from the unstripped pieces. The console message is not modelled.
 */
module Weather {
  import opened Wrappers
  import opened Strings

  /** The `ValueError` raised by unpacking a list of `got` pieces into two names. */
  datatype UnpackError = NotEnoughValues(got: nat) | TooManyValues(got: nat)

  /** The weather clause every report ends with; it does not depend on the argument. */
  const FixedWeather := " 날씨는 '맑음', 최고 기온 25°C, 최저 기온 15°C 입니다."

  /** `city, date = argument.split(',')`. */
  function ParseArgument(argument: string): (r: Result<(string, string), UnpackError>)
    ensures r.Ok? <==> Occurrences(argument, ',') == 1
    ensures r.Err? ==> r.error == (if Occurrences(argument, ',') == 0 then NotEnoughValues(1)
                                   else TooManyValues(Occurrences(argument, ',') + 1))
  {
    var parts := Split(argument, ',');
    if |parts| < 2 then Err(NotEnoughValues(|parts|))
    else if |parts| > 2 then Err(TooManyValues(|parts|))
    else Ok((parts[0], parts[1]))
  }

  /** The tool's result: the report text, or the unpacking error it lets escape. */
  function WeatherReport(argument: string): (r: Result<string, UnpackError>)
    ensures r.Ok? <==> Occurrences(argument, ',') == 1
    ensures r.Err? ==> ParseArgument(argument) == Err(r.error)
    ensures r.Ok? ==> |r.value| >= |FixedWeather| && r.value[|r.value| - |FixedWeather|..] == FixedWeather
  {
    match ParseArgument(argument)
    case Err(e) => Err(e)
    case Ok((city, date)) => Ok(date + "의 " + city + FixedWeather)
  }

  /** The argument parses to (city, date) exactly when it is city + "," + date with no other comma. */
  lemma ParseArgumentIff(argument: string, city: string, date: string)
    ensures ParseArgument(argument) == Ok((city, date))
            <==> argument == city + "," + date && ',' !in city && ',' !in date
  {
    if ParseArgument(argument) == Ok((city, date)) {
      var parts := Split(argument, ',');
      assert parts == [city, date];
      SplitJoin(argument, ',');
      SplitPiecesFree(argument, ',');
      assert parts[0] == city && parts[1] == date;
      assert Join(parts, ',') == city + [','] + Join(parts[1..], ',');
      assert parts[1..] == [date];
    }
    if argument == city + "," + date && ',' !in city && ',' !in date {
      SplitAfterHead(city, ',', date);
      SplitFree(date, ',');
      assert Split(argument, ',') == [city, date];
    }
  }

  /** The report uses the pieces exactly as split (no stripping), date first and city second. */
  lemma ReportUsesRawPieces(city: string, date: string)
    requires ',' !in city && ',' !in date
    ensures WeatherReport(city + "," + date)
            == Ok(date + "의 " + city + FixedWeather)
  {
    ParseArgumentIff(city + "," + date, city, date);
  }

  /** Two accepted arguments yield reports that differ only in the date and city they echo. */
  lemma ReportIndependentOfWeather(a1: string, a2: string)
    requires WeatherReport(a1).Ok? && WeatherReport(a2).Ok?
    ensures var (c1, d1) := ParseArgument(a1).value;
            var (c2, d2) := ParseArgument(a2).value;
            WeatherReport(a1).value[|d1 + "의 " + c1|..] == WeatherReport(a2).value[|d2 + "의 " + c2|..]
  {
  }

  /** "," is accepted: both pieces are empty. */
  lemma EmptyPieces()
    ensures ParseArgument(",") == Ok(("", ""))
    ensures WeatherReport(",") == Ok("의 " + FixedWeather)
  {
    assert "" + "," + "" == ",";
    ParseArgumentIff(",", "", "");
    var text := "" + "의 " + "" + FixedWeather;
    assert WeatherReport(",") == Ok(text);
    assert text == "의 " + FixedWeather;
  }
}
