/** Choice of the yearly CSV download addresses from the distributions
    listed by the open-data dataset (the loop of `get_csv_urls` in
    scripts/update_calendar.py, after the dataset description has been
    fetched and decoded). */
module CsvSources {
  import opened Wrappers
  import opened Strings
  import opened Sequences

  /** One entry of `result.distribution`, with the three fields the loop
      reads. */
  datatype Distribution = Distribution(resourceFormat: string, resourceDescription: string, resourceDownloadUrl: string)

  /** A decoded JSON object read with `dist.get(name, "")`: a missing field
      reads as the empty string. */
  function FromObject(obj: map<string, string>): (d: Distribution)
    ensures "resourceFormat" in obj ==> d.resourceFormat == obj["resourceFormat"]
    ensures "resourceFormat" !in obj ==> d.resourceFormat == ""
    ensures "resourceDescription" in obj ==> d.resourceDescription == obj["resourceDescription"]
    ensures "resourceDescription" !in obj ==> d.resourceDescription == ""
    ensures "resourceDownloadUrl" in obj ==> d.resourceDownloadUrl == obj["resourceDownloadUrl"]
    ensures "resourceDownloadUrl" !in obj ==> d.resourceDownloadUrl == ""
  {
    Distribution(
      GetOr(obj, "resourceFormat", ""),
      GetOr(obj, "resourceDescription", ""),
      GetOr(obj, "resourceDownloadUrl", ""))
  }

  /** `format.upper() == "CSV"`. */
  predicate IsCsvFormat(format: string)
  {
    Upper(format) == "CSV"
  }

  /** The formats accepted are exactly the three-letter spellings of "csv"
      in any mix of cases (with U+017F, long s, standing for s). */
  lemma IsCsvFormatSpellings(format: string)
    ensures IsCsvFormat(format) <==>
      |format| == 3 && format[0] in "cC" && format[1] in "sS\U{17F}" && format[2] in "vV"
  {
    if |format| == 3 {
      var u := Upper(format);
      assert u == [UpperChar(format[0]), UpperChar(format[1]), UpperChar(format[2])];
    }
  }

  /** The filter before the year is looked for: a CSV file, with a
      download address, that is not the Google-format copy. */
  predicate Eligible(d: Distribution)
  {
    && IsCsvFormat(d.resourceFormat)
    && d.resourceDownloadUrl != ""
    && !Contains(d.resourceDescription, "Google")
  }

  /** `(\d{3})年` matches at position `i`: three digits and then 年. */
  predicate YearTagAt(s: string, i: int)
  {
    0 <= i && i + 4 <= |s|
    && IsAsciiDigit(s[i]) && IsAsciiDigit(s[i + 1]) && IsAsciiDigit(s[i + 2])
    && s[i + 3] == '年'
  }

  /** `re.search(r"(\d{3})年", s)` started at `from`: the leftmost match
      at or after `from`, or `None` when there is none. */
  function FindYearTag(s: string, from: nat): (r: Option<nat>)
    ensures r.Some? ==> from <= r.value && YearTagAt(s, r.value)
    ensures r.Some? ==> forall j :: from <= j < r.value ==> !YearTagAt(s, j)
    ensures r.None? ==> forall j :: from <= j ==> !YearTagAt(s, j)
    decreases |s| - from
  {
    if from + 4 > |s| then None
    else if YearTagAt(s, from) then Some(from)
    else FindYearTag(s, from + 1)
  }

  function DigitValue(c: char): (v: nat)
    requires IsAsciiDigit(c)
    ensures v <= 9
  {
    c as int - '0' as int
  }

  /** `int(match.group(1))`: the three digits read as a decimal number. */
  function TagNumber(s: string, i: int): (n: nat)
    requires YearTagAt(s, i)
    ensures n <= 999
    ensures n / 100 == DigitValue(s[i]) && n / 10 % 10 == DigitValue(s[i + 1]) && n % 10 == DigitValue(s[i + 2])
  {
    var a, b, c := DigitValue(s[i]), DigitValue(s[i + 1]), DigitValue(s[i + 2]);
    var n := 100 * a + 10 * b + c;
    assert n == 100 * a + (10 * b + c) && 0 <= 10 * b + c < 100;
    assert n == 10 * (10 * a + b) + c && n / 10 == 10 * a + b;
    assert (10 * a + b) % 10 == b;
    n
  }

  /** Offset from a Republic of China (Minguo) year to the Gregorian year. */
  const RocEpochOffset := 1911

  /** The Gregorian year an entry supplies a download for, if any: the
      entry must be eligible and its description must carry a year tag; the
      first tag is read as a Minguo year. */
  function ContributedYear(d: Distribution): (y: Option<int>)
    ensures y.Some? ==> Eligible(d) && RocEpochOffset <= y.value <= RocEpochOffset + 999
    ensures y.Some? <==> Eligible(d) && exists i :: YearTagAt(d.resourceDescription, i)
  {
    if !Eligible(d) then None
    else
      match FindYearTag(d.resourceDescription, 0)
      case None => None
      case Some(i) => Some(TagNumber(d.resourceDescription, i) + RocEpochOffset)
  }

  /** The year is read off the leftmost tag: in "1130年" that is "130年". */
  lemma ContributedYearUsesFirstTag(d: Distribution, i: nat)
    requires Eligible(d) && YearTagAt(d.resourceDescription, i)
    requires forall j :: 0 <= j < i ==> !YearTagAt(d.resourceDescription, j)
    ensures ContributedYear(d) == Some(TagNumber(d.resourceDescription, i) + RocEpochOffset)
  {
  }

  /** The description of the 113 (2024) office calendar carries its year
      tag at the front, and the tag reads as 113. */
  lemma YearTagExample()
    ensures FindYearTag("113年辦公日曆表", 0) == Some(0)
    ensures TagNumber("113年辦公日曆表", 0) == 113
  {
    var s := "113年辦公日曆表";
    assert s[0] == '1' && s[1] == '1' && s[2] == '3' && s[3] == '年';
  }

  /** A year-tagged CSV entry: Minguo year 113 is the Gregorian 2024. */
  lemma ContributedYearExample(url: string)
    requires url != ""
    ensures ContributedYear(Distribution("CSV", "113年辦公日曆表", url)) == Some(2024)
  {
    var s := "113年辦公日曆表";
    IsCsvFormatSpellings("CSV");
    NotContainsWithoutHead(s, "Google");
    assert Eligible(Distribution("CSV", s, url));
    YearTagExample();
  }

  /** The Google-calendar copy of the same file is skipped. */
  lemma GoogleCopyIgnored(url: string)
    ensures ContributedYear(Distribution("csv", "113年辦公日曆表(Google行事曆專用)", url)) == None
  {
    assert OccursAt("113年辦公日曆表(Google行事曆專用)", "Google", 10);
  }

  /** What one entry writes into the table, if anything: its download
      address under its Gregorian year. */
  function Entry(d: Distribution): Option<(int, string)>
  {
    match ContributedYear(d)
    case None => None
    case Some(y) => Some((y, d.resourceDownloadUrl))
  }

  /** The table after the loop has run over `dists`: every year in it is
      a Gregorian year of a three-digit Minguo year, and every address is
      non-empty. */
  function SelectUrls(dists: seq<Distribution>): (urls: map<int, string>)
    ensures forall y :: y in urls ==> RocEpochOffset <= y <= RocEpochOffset + 999 && urls[y] != ""
  {
    var urls := LastWins(Entry, dists);
    LastWinsStored(Entry, dists);
    urls
  }

  /** A year is in the table exactly when some entry contributes it. */
  lemma SelectUrlsKeys(dists: seq<Distribution>, y: int)
    ensures y in SelectUrls(dists) <==> exists i :: 0 <= i < |dists| && ContributedYear(dists[i]) == Some(y)
  {
    LastWinsKeys(Entry, dists, y);
  }

  /** Later entries win: a year's address is that of the last entry
      contributing that year. */
  lemma SelectUrlsLastWins(dists: seq<Distribution>, y: int)
    requires y in SelectUrls(dists)
    ensures exists i :: 0 <= i < |dists| && ContributedYear(dists[i]) == Some(y)
              && SelectUrls(dists)[y] == dists[i].resourceDownloadUrl
              && forall j :: i < j < |dists| ==> ContributedYear(dists[j]) != Some(y)
  {
    LastWinsValue(Entry, dists, y);
  }

  /** An entry that contributes nothing (another format, no address, a
      Google copy, no year tag) can be removed from anywhere in the list
      without changing the table. */
  lemma SelectUrlsIgnores(a: seq<Distribution>, d: Distribution, b: seq<Distribution>)
    requires ContributedYear(d).None?
    ensures SelectUrls(a + [d] + b) == SelectUrls(a + b)
  {
    LastWinsIgnores(Entry, a, d, b);
  }

  /** Extending the prefix by one entry performs one pass of the loop
      body. */
  lemma SelectUrlsPrefixStep(dists: seq<Distribution>, i: nat)
    requires i < |dists|
    ensures SelectUrls(dists[..i + 1]) ==
      match ContributedYear(dists[i])
      case None => SelectUrls(dists[..i])
      case Some(y) => SelectUrls(dists[..i])[y := dists[i].resourceDownloadUrl]
  {
    assert dists[..i + 1][..i] == dists[..i];
  }

  /** The loop of `get_csv_urls` over the decoded objects: each is read
      with `FromObject`, and for every eligible entry whose
      description names a Minguo year, record its download address under
      the Gregorian year, overwriting any earlier address for that year. */
  method GetCsvUrls(objects: seq<map<string, string>>) returns (csvUrls: map<int, string>)
    ensures csvUrls == SelectUrls(seq(|objects|, i requires 0 <= i < |objects| => FromObject(objects[i])))
    ensures forall y :: y in csvUrls ==> RocEpochOffset <= y <= RocEpochOffset + 999 && csvUrls[y] != ""
  {
    ghost var distributions := seq(|objects|, i requires 0 <= i < |objects| => FromObject(objects[i]));
    csvUrls := map[];
    for i := 0 to |objects|
      invariant csvUrls == SelectUrls(distributions[..i])
    {
      SelectUrlsPrefixStep(distributions, i);
      var dist := FromObject(objects[i]);
      if !IsCsvFormat(dist.resourceFormat) {
        continue;
      }
      var resourceName := dist.resourceDescription;
      var url := dist.resourceDownloadUrl;
      if url == "" || Contains(resourceName, "Google") {
        continue;
      }
      var found := FindYearTag(resourceName, 0);
      if found.Some? {
        var rocYear := TagNumber(resourceName, found.value);
        var adYear := rocYear + RocEpochOffset;
        csvUrls := csvUrls[adYear := url];
      }
    }
    assert distributions[..|distributions|] == distributions;
  }

}
