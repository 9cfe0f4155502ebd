/** The behaviours the repository's tests check, and sample inputs for the parser, on concrete data. */
module Scenarios {
  import opened JsonValue
  import opened Errors
  import opened StyleEngine
  import opened Strings
  import opened TolerantParser

  function Movie(title: string, gross: int, year: int): Json
  {
    Obj(map["title" := Str(title), "gross" := Num(gross), "year" := Num(year)])
  }

  lemma MovieFields(title: string, gross: int, year: int)
    ensures Get(Movie(title, gross, year), "title") == Str(title)
    ensures Get(Movie(title, gross, year), "gross") == Num(gross)
    ensures Get(Movie(title, gross, year), "year") == Num(year)
  {
    assert "title" != "gross" && "title" != "year" && "gross" != "year";
  }

  /** The five records of the style tests. */
  function Movies(): seq<Json>
  {
    [ Movie("Avatar", 2782275172, 2009),
      Movie("Titanic", 2185372302, 1997),
      Movie("The Avengers", 1511757910, 2012),
      Movie("Harry Potter and the Deathly Hallows - Part 2", 1328111219, 2011),
      Movie("Transformers: Dark of the Moon", 1123746996, 2011) ]
  }

  /** A number's value; the tests only add numbers. */
  function NumOf(j: Json): int
  {
    if j.Num? then j.n else 0
  }

  /** The predicate of the filter test: `data.year === 2012`. */
  predicate In2012(m: Json)
  {
    Get(m, "year") == Num(2012)
  }

  lemma FilterMoviesIn2012()
    ensures FilterSeq(Movies(), In2012) == [Movies()[2]]
  {
    var xs := Movies();
    MovieFields("Avatar", 2782275172, 2009);
    MovieFields("Titanic", 2185372302, 1997);
    MovieFields("The Avengers", 1511757910, 2012);
    MovieFields("Harry Potter and the Deathly Hallows - Part 2", 1328111219, 2011);
    MovieFields("Transformers: Dark of the Moon", 1123746996, 2011);
    assert !In2012(xs[0]) && !In2012(xs[1]) && In2012(xs[2]) && !In2012(xs[3]) && !In2012(xs[4]);
    assert FilterSeq(xs[4..], In2012) == [];
    assert FilterSeq(xs[3..], In2012) == [];
    assert FilterSeq(xs[2..], In2012) == [xs[2]];
    assert FilterSeq(xs[1..], In2012) == [xs[2]];
  }

  /** `{filter: data => data.year === 2012}` keeps only 'The Avengers'. */
  lemma FilterByYear()
    ensures var r := Styled(Arr(Movies()), Inline(Style(Some(In2012), None, None, None)), map[]);
      r.Ok? && r.value.Arr? && |r.value.elems| == 1 && Get(r.value.elems[0], "title") == Str("The Avengers")
  {
    FilterMoviesIn2012();
    MovieFields("The Avengers", 1511757910, 2012);
    var s := Style(Some(In2012), None, None, None);
    assert FilterStep(Arr(Movies()), s) == Some(Arr([Movies()[2]]));
    assert StyledOne(Arr(Movies()), s) == Ok(Arr([Movies()[2]]));
  }

  /** The reducer of the tests, on the tests' data: `(prev.gross ? prev.gross : prev) + curr.gross`. */
  function AddGross(prev: Json, curr: Json): Json
  {
    Num((if Truthy(Get(prev, "gross")) then NumOf(Get(prev, "gross")) else NumOf(prev)) + NumOf(Get(curr, "gross")))
  }

  /** A running total plus one record's gross. */
  lemma AddGrossToTotal(total: int, title: string, gross: int, year: int)
    ensures AddGross(Num(total), Movie(title, gross, year)) == Num(total + gross)
  {
    MovieFields(title, gross, year);
    assert Get(Num(total), "gross") == Null;
  }

  /** Reducing without a seed sums the grosses, as the builtin reduce without a seed does. */
  lemma ReduceGrossWithoutSeed()
    ensures var s := Style(None, Some(AddGross), None, None);
      && Styled(Arr(Movies()), Inline(s), map[]) == NativeReduce(Movies(), AddGross, None)
      && Styled(Arr(Movies()), Inline(s), map[]) == Ok(Num(8931263599))
  {
    var xs := Movies();
    MovieFields("Avatar", 2782275172, 2009);
    MovieFields("Titanic", 2185372302, 1997);
    assert AddGross(xs[0], xs[1]) == Num(4967647474);
    AddGrossToTotal(4967647474, "The Avengers", 1511757910, 2012);
    AddGrossToTotal(6479405384, "Harry Potter and the Deathly Hallows - Part 2", 1328111219, 2011);
    AddGrossToTotal(7807516603, "Transformers: Dark of the Moon", 1123746996, 2011);
    assert xs[1..][1..] == xs[2..];
    assert xs[2..][1..] == xs[3..];
    assert xs[3..][1..] == xs[4..];
    assert xs[4..][1..] == [];
    assert FoldLeft(AddGross, Num(8931263599), []) == Num(8931263599);
    assert FoldLeft(AddGross, Num(7807516603), xs[4..]) == Num(8931263599);
    assert FoldLeft(AddGross, Num(6479405384), xs[3..]) == Num(8931263599);
    assert FoldLeft(AddGross, Num(4967647474), xs[2..]) == Num(8931263599);
  }

  /** `[{gross:10},{gross:20},{gross:30}]` reduced without a seed is 60. */
  lemma ReduceSmallGross()
    ensures var xs := [Obj(map["gross" := Num(10)]), Obj(map["gross" := Num(20)]), Obj(map["gross" := Num(30)])];
      Styled(Arr(xs), Inline(Style(None, Some(AddGross), None, None)), map[]) == Ok(Num(60))
  {
  }

  /** The decimal representation JavaScript uses for a non-negative integer property key. */
  function Decimal(n: nat): string
  {
    if n < 10 then [(48 + n) as char] else Decimal(n / 10) + [(48 + n % 10) as char]
  }

  /** The tallying reducer of the tests, on the tests' data and without its in-place update: `years[movie.year]` counted up. */
  function TallyYear(years: Json, movie: Json): Json
  {
    var key := Decimal(if NumOf(Get(movie, "year")) >= 0 then NumOf(Get(movie, "year")) else 0);
    var count := Get(years, key);
    if !years.Obj? then years
    else Obj(years.fields[key := Num(if Truthy(count) then NumOf(count) + 1 else 1)])
  }

  lemma TallyMovie(fields: map<string, Json>, title: string, gross: int, year: nat)
    ensures TallyYear(Obj(fields), Movie(title, gross, year)) ==
      Obj(fields[Decimal(year) := Num(if Decimal(year) in fields && Truthy(fields[Decimal(year)]) then NumOf(fields[Decimal(year)]) + 1 else 1)])
  {
    MovieFields(title, gross, year);
  }

  lemma YearKeys()
    ensures Decimal(2009) == "2009" && Decimal(1997) == "1997" && Decimal(2012) == "2012" && Decimal(2011) == "2011"
  {
  }

  /** The tallies after each of the five movies. */
  function Tallies(): seq<map<string, Json>>
  {
    [ map[],
      map["2009" := Num(1)],
      map["2009" := Num(1), "1997" := Num(1)],
      map["2009" := Num(1), "1997" := Num(1), "2012" := Num(1)],
      map["2009" := Num(1), "1997" := Num(1), "2012" := Num(1), "2011" := Num(1)],
      map["2009" := Num(1), "1997" := Num(1), "2012" := Num(1), "2011" := Num(2)] ]
  }

  lemma TallyFirstTwo()
    ensures TallyYear(Obj(Tallies()[0]), Movies()[0]) == Obj(Tallies()[1])
    ensures TallyYear(Obj(Tallies()[1]), Movies()[1]) == Obj(Tallies()[2])
  {
    YearKeys();
    TallyMovie(Tallies()[0], "Avatar", 2782275172, 2009);
    TallyMovie(Tallies()[1], "Titanic", 2185372302, 1997);
    assert "1997"[1] != "2009"[1];
  }

  lemma TallyLastThree()
    ensures TallyYear(Obj(Tallies()[2]), Movies()[2]) == Obj(Tallies()[3])
    ensures TallyYear(Obj(Tallies()[3]), Movies()[3]) == Obj(Tallies()[4])
    ensures TallyYear(Obj(Tallies()[4]), Movies()[4]) == Obj(Tallies()[5])
  {
    YearKeys();
    TallyMovie(Tallies()[2], "The Avengers", 1511757910, 2012);
    TallyMovie(Tallies()[3], "Harry Potter and the Deathly Hallows - Part 2", 1328111219, 2011);
    TallyMovie(Tallies()[4], "Transformers: Dark of the Moon", 1123746996, 2011);
    assert "2012"[3] != "2009"[3] && "2012"[1] != "1997"[1];
    assert "2011"[3] != "2009"[3] && "2011"[1] != "1997"[1] && "2011"[3] != "2012"[3];
  }

  /** Reducing with the seed `{}` (an empty object, which is truthy) tallies the years. */
  lemma TallyYearsWithSeed()
    ensures Styled(Arr(Movies()), Inline(Style(None, Some(TallyYear), Some(Obj(map[])), None)), map[])
      == Ok(Obj(map["2009" := Num(1), "1997" := Num(1), "2012" := Num(1), "2011" := Num(2)]))
  {
    TallyFirstTwo();
    TallyLastThree();
    var xs, t := Movies(), Tallies();
    assert xs[1..][1..] == xs[2..];
    assert xs[2..][1..] == xs[3..];
    assert xs[3..][1..] == xs[4..];
    assert xs[4..][1..] == [];
    assert FoldLeft(TallyYear, Obj(t[4]), xs[4..]) == Obj(t[5]);
    assert FoldLeft(TallyYear, Obj(t[3]), xs[3..]) == Obj(t[5]);
    assert FoldLeft(TallyYear, Obj(t[2]), xs[2..]) == Obj(t[5]);
    assert FoldLeft(TallyYear, Obj(t[1]), xs[1..]) == Obj(t[5]);
    assert FoldLeft(TallyYear, Obj(t[0]), xs) == Obj(t[5]);
  }

  /** `{map: data => data.title}` keeps the length and the order of the titles. */
  lemma MapTitles()
    ensures var r := Styled(Arr(Movies()), Inline(Style(None, None, None, Some(m => Get(m, "title")))), map[]);
      r.Ok? && r.value.Arr? && |r.value.elems| == 5 && r.value.elems[0] == Str("Avatar")
  {
  }

  /** An empty array reduced without a usable seed is an error, and a seed of 0 is not usable. */
  lemma EmptyReduceScenarios()
    ensures Styled(Arr([]), Inline(Style(None, Some(AddGross), None, None)), map[]) == Err(EmptyReduce)
    ensures Styled(Arr([]), Inline(Style(None, Some(AddGross), Some(Num(0)), None)), map[]) == Err(EmptyReduce)
    ensures Styled(Arr([]), Inline(Style(None, Some(AddGross), Some(Num(5)), None)), map[]) == Ok(Num(5))
  {
  }

  /** A missing name is reported with that name. */
  lemma MissingStyleName(data: Json)
    ensures Styled(data, Named("top"), map[]) == Err(StyleNotFound("top"))
  {
  }

  lemma EmbeddedSpan()
    ensures IsRegexMatch("blah {\"a\":1} blah", 5, 11)
    ensures "blah {\"a\":1} blah"[5..12] == "{\"a\":1}"
  {
    var data := "blah {\"a\":1} blah";
    assert IsBraceMatch(data, 5, 11);
    forall j | IsBraceMatch(data, 5, j) ensures j <= 11 {
      assert j < 17 && data[j] == '}';
    }
    forall i, j | 0 <= i < 5 ensures !IsBraceMatch(data, i, j) {
      assert data[i] != '{';
    }
  }

  lemma EmbeddedResidue()
    ensures Split("blah {\"a\":1} blah", "{\"a\":1}") == ["blah ", " blah"]
  {
    var data := "blah {\"a\":1} blah";
    EmbeddedSpan();
    ExtraSurroundsMatch(data, 5, 11);
    assert data[..5] == "blah ";
    assert data[12..] == " blah";
    assert Split(" blah", "{\"a\":1}") == [" blah"];
  }

  /** `"blah {\"a\":1} blah"` recovers `{a: 1, _extra: ["blah ", " blah"]}`. */
  lemma RecoverEmbeddedObject(jsonParse: JsonParser)
    requires jsonParse("blah {\"a\":1} blah").None?
    requires jsonParse("{\"a\":1}") == Some(Obj(map["a" := Num(1)]))
    ensures Parse("blah {\"a\":1} blah", false, jsonParse)
      == Ok(Obj(map["a" := Num(1), "_extra" := Arr([Str("blah "), Str(" blah")])]))
  {
    var data, m := "blah {\"a\":1} blah", "{\"a\":1}";
    EmbeddedSpan();
    EmbeddedResidue();
    SpanRecovered(data, 5, 11, jsonParse, map["a" := Num(1)]);
    EmbeddedExtra();
  }

  lemma EmbeddedExtra()
    ensures ExtraValue(Split("blah {\"a\":1} blah", "blah {\"a\":1} blah"[5..12])) == Arr([Str("blah "), Str(" blah")])
  {
    EmbeddedSpan();
    EmbeddedResidue();
    var extra := ExtraValue(["blah ", " blah"]);
    assert extra.elems[0] == Str("blah ") && extra.elems[1] == Str(" blah");
    assert extra == Arr([Str("blah "), Str(" blah")]);
  }

  /** Text with no braces is wrapped. */
  lemma WrapPlainText(jsonParse: JsonParser)
    requires jsonParse("not json at all").None?
    ensures Parse("not json at all", false, jsonParse) == Ok(Obj(map["text" := Str("not json at all")]))
  {
    var data := "not json at all";
    forall i, j ensures !IsBraceMatch(data, i, j) {
      if 0 <= i < |data| {
        assert data[i] != '{';
      }
    }
    WrapsTextWithoutSpan(data, jsonParse);
  }

  /** `"{bad"` in strict mode is a parse error. */
  lemma StrictRejectsBadText(jsonParse: JsonParser)
    requires jsonParse("{bad").None?
    ensures Parse("{bad", true, jsonParse) == Err(ParseError("{bad"))
  {
  }
}
