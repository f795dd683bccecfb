/**
 * The OpenSubtitles-specific values of OpenSubtitlesClient: its addresses,
 * the `type` enumerations, the decision on the bearer header and the
 * parameter dictionaries of the three "discover" endpoints.
 */
module OpenSubtitlesApi {
  import opened Wrappers
  import opened Ascii
  import opened UrlEncoding

  const ApiDefaultAddress := "https://api.opensubtitles.com/api/v1"
  const ApiVipAddress := "https://vip-api.opensubtitles.com/api/v1"
  const ApiMockAddress := "https://stoplight.io/mocks/opensubtitles/opensubtitles-api/2781383"

  /** The default address needs no trimming, so the setter stores it unchanged. */
  lemma DefaultAddressTrimmed()
    ensures Trim(ApiDefaultAddress) == ApiDefaultAddress
  {
    TrimmedByEnds(ApiDefaultAddress);
  }

  /** The default address starts and ends with a character the trim keeps. */
  lemma DefaultAddressClean()
    ensures IsTrimmed(ApiDefaultAddress)
  {
    var a := ApiDefaultAddress;
    assert a[0] == 'h' && a[|a| - 1] == '1';
  }

  /** The subtitle formats the service recognises. */
  const SubtitleFormats: seq<string> := ["srt", "sub", "mpl", "webvtt", "dfxp", "txt"]

  const PopularFeaturesPath := "discover/popular"
  const LatestSubtitlesPath := "discover/latest"
  const MostDownloadedPath := "discover/most_downloaded"

  /** `OpenSubtitlesMovieType`; its default is `Movie`. */
  datatype MovieType = Movie | TvShow | All

  /** `OpenSubtitlesEpisodeType`; its default is `Movie`. */
  datatype EpisodeType = EpisodeMovie | Episode

  /** The member name `ToString()` gives for a movie type. */
  function MovieTypeName(t: MovieType): string {
    match t
    case Movie => "Movie"
    case TvShow => "TvShow"
    case All => "All"
  }

  /** The member name `ToString()` gives for an episode type. */
  function EpisodeTypeName(t: EpisodeType): string {
    match t
    case EpisodeMovie => "Movie"
    case Episode => "Episode"
  }

  /** The `type` values the discover endpoints send for every enumeration member. */
  lemma TypeValues()
    ensures Lower(MovieTypeName(Movie)) == "movie"
    ensures Lower(MovieTypeName(TvShow)) == "tvshow"
    ensures Lower(MovieTypeName(All)) == "all"
    ensures Lower(EpisodeTypeName(EpisodeMovie)) == "movie"
    ensures Lower(EpisodeTypeName(Episode)) == "episode"
  {
    LowerMovie();
    LowerTvShow();
    LowerAll();
    LowerEpisode();
  }

  lemma LowerMovie()
    ensures Lower("Movie") == "movie"
  {
    LowerCapitalised("Movie");
    assert [LowerChar('M')] + "ovie" == "movie";
  }

  lemma LowerAll()
    ensures Lower("All") == "all"
  {
    LowerCapitalised("All");
    assert [LowerChar('A')] + "ll" == "all";
  }

  lemma LowerEpisode()
    ensures Lower("Episode") == "episode"
  {
    LowerCapitalised("Episode");
    assert [LowerChar('E')] + "pisode" == "episode";
  }

  lemma LowerTvShow()
    ensures Lower("TvShow") == "tvshow"
  {
    var tv := Lower("TvShow");
    assert tv[0] == 't' && tv[1] == 'v' && tv[2] == 's' && tv[3] == 'h' && tv[4] == 'o' && tv[5] == 'w';
  }

  /** A capitalised word lower-cases to its first letter lowered and the rest as it is. */
  lemma LowerCapitalised(s: string)
    requires s != [] && IsLower(s[1..])
    ensures Lower(s) == [LowerChar(s[0])] + s[1..]
  {
    LowerOfLower(s[1..]);
    assert Lower(s)[1..] == Lower(s[1..]);
  }

  /**
   * The token `OnBeforeSendRequestAsync` puts in a `Bearer` Authorization
   * header, if any: only when the client requires one and holds a non-empty token.
   */
  function BearerToken(requireAuthToken: bool, authToken: string): (r: Option<string>)
    ensures r.Some? <==> requireAuthToken && authToken != ""
    ensures r.Some? ==> r.value == authToken
  {
    if requireAuthToken && authToken != "" then Some(authToken) else None
  }

  /** The value stored under `key`, or None when the dictionary has no such key. */
  function Lookup(d: Dictionary, key: string): (r: Option<Value>)
    ensures r.Some? <==> exists i :: 0 <= i < |d| && d[i].0 == key
    ensures r.Some? ==>
      exists i :: 0 <= i < |d| && d[i].0 == key && r.value == d[i].1 && (forall j :: 0 <= j < i ==> d[j].0 != key)
  {
    if d == [] then None
    else if d[0].0 == key then Some(d[0].1)
    else
      var r := Lookup(d[1..], key);
      assert forall i :: 1 <= i < |d| ==> d[i] == d[1..][i - 1];
      r
  }

  /**
   * The dictionary the discover endpoints fill: `languages` (the codes
   * joined by commas) only when at least one code is given, then `type`.
   */
  function DiscoverParameters(typeName: string, languages: seq<string>): (d: Dictionary)
    ensures DistinctKeys(d)
    ensures |d| == if |languages| > 0 then 2 else 1
    ensures Lookup(d, "languages").Some? <==> |languages| > 0
    ensures |languages| > 0 ==> Lookup(d, "languages") == Some(Some(Join(languages, ',')))
    ensures Lookup(d, "type") == Some(Some(Lower(typeName)))
  {
    var withLanguages: Dictionary := if |languages| > 0 then [("languages", Some(Join(languages, ',')))] else [];
    withLanguages + [("type", Some(Lower(typeName)))]
  }

  /** The codes can be read back out of the `languages` value when none of them holds a comma. */
  lemma LanguagesRoundTrip(languages: seq<string>)
    requires |languages| > 0
    requires forall i :: 0 <= i < |languages| ==> ',' !in languages[i]
    ensures Split(Join(languages, ','), ',') == languages
  {
    SplitJoin(languages, ',');
  }

  /** `GetPopularFeaturesAsync(type, languages)`: the path and the parameters. */
  function PopularFeatures(t: MovieType, languages: seq<string>): (r: (string, Dictionary))
    ensures r.0 == "discover/popular" && DistinctKeys(r.1)
    ensures Lookup(r.1, "type") == Some(Some(Lower(MovieTypeName(t))))
    ensures Lookup(r.1, "languages").Some? <==> |languages| > 0
    ensures |languages| > 0 ==> Lookup(r.1, "languages") == Some(Some(Join(languages, ',')))
  {
    (PopularFeaturesPath, DiscoverParameters(MovieTypeName(t), languages))
  }

  /** `GetLatestSubtitlesAsync(type, languages)`: the path and the parameters. */
  function LatestSubtitles(t: MovieType, languages: seq<string>): (r: (string, Dictionary))
    ensures r.0 == "discover/latest" && DistinctKeys(r.1)
    ensures Lookup(r.1, "type") == Some(Some(Lower(MovieTypeName(t))))
    ensures Lookup(r.1, "languages").Some? <==> |languages| > 0
    ensures |languages| > 0 ==> Lookup(r.1, "languages") == Some(Some(Join(languages, ',')))
  {
    (LatestSubtitlesPath, DiscoverParameters(MovieTypeName(t), languages))
  }

  /** `GetMostDownloadedSubtitlesAsync(type, languages)`: the path and the parameters. */
  function MostDownloadedSubtitles(t: EpisodeType, languages: seq<string>): (r: (string, Dictionary))
    ensures r.0 == "discover/most_downloaded" && DistinctKeys(r.1)
    ensures Lookup(r.1, "type") == Some(Some(Lower(EpisodeTypeName(t))))
    ensures Lookup(r.1, "languages").Some? <==> |languages| > 0
    ensures |languages| > 0 ==> Lookup(r.1, "languages") == Some(Some(Join(languages, ',')))
  {
    (MostDownloadedPath, DiscoverParameters(EpisodeTypeName(t), languages))
  }

  /** A pair whose key and value are already lower case is sent as written. */
  lemma LowerPair(k: string, v: string)
    requires IsLower(k) && IsLower(v)
    ensures Pair((k, Some(v))) == k + "=" + v
  {
    LowerOfLower(k);
    LowerOfLower(v);
  }

  /** Two lower-case entries, already in key order, give `?k1=v1&k2=v2`. */
  lemma QueryOfTwo(k1: string, v1: string, k2: string, v2: string)
    requires IsLower(k1) && IsLower(v1) && IsLower(k2) && IsLower(v2)
    ensures Query([(k1, Some(v1)), (k2, Some(v2))]) == "?" + (k1 + "=" + v1) + "&" + (k2 + "=" + v2)
  {
    LowerPair(k1, v1);
    LowerPair(k2, v2);
    var e1, e2 := (k1, Some(v1)), (k2, Some(v2));
    assert Pairs([e1, e2]) == [Pair(e1), Pair(e2)];
    assert Join([Pair(e1), Pair(e2)], '&') == Pair(e1) + "&" + Pair(e2);
  }

  /** One lower-case entry gives `?k=v`. */
  lemma QueryOfOne(k: string, v: string)
    requires IsLower(k) && IsLower(v)
    ensures Query([(k, Some(v))]) == "?" + (k + "=" + v)
  {
    LowerPair(k, v);
    assert Pairs([(k, Some(v))]) == [Pair((k, Some(v)))];
  }

  /** The discover parameters once the languages' join and the lower-cased type name are known. */
  lemma DiscoverWithLanguages(typeName: string, languages: seq<string>, joined: string, lowered: string)
    requires |languages| > 0 && Join(languages, ',') == joined && Lower(typeName) == lowered
    ensures DiscoverParameters(typeName, languages) == [("languages", Some(joined)), ("type", Some(lowered))]
  {
  }

  /** Two parts joined by one separator. */
  lemma JoinTwo(a: string, b: string, sep: char)
    ensures Join([a, b], sep) == a + [sep] + b
  {
    assert [a, b][1..] == [b];
  }

  lemma PopularParameters()
    ensures PopularFeatures(Movie, ["en", "pt"]).1 == [("languages", Some("en,pt")), ("type", Some("movie"))]
  {
    LowerMovie();
    JoinTwo("en", "pt", ',');
    assert "en" + [','] + "pt" == "en,pt";
    DiscoverWithLanguages("Movie", ["en", "pt"], "en,pt", "movie");
  }

  lemma PopularSorted()
    ensures SortByKey([("languages", Some("en,pt")), ("type", Some("movie"))]) == [("languages", Some("en,pt")), ("type", Some("movie"))]
  {
    assert !Less("type", "languages");
  }

  lemma PopularPairs()
    ensures Query([("languages", Some("en,pt")), ("type", Some("movie"))]) == "?languages=en,pt&type=movie"
  {
    QueryOfTwo("languages", "en,pt", "type", "movie");
    PopularText();
  }

  lemma PopularText()
    ensures "?" + ("languages" + "=" + "en,pt") + "&" + ("type" + "=" + "movie") == "?languages=en,pt&type=movie"
  {
    assert "languages" + "=" == "languages=";
    assert "languages=" + "en,pt" == "languages=en,pt";
    assert "type" + "=" == "type=";
    assert "type=" + "movie" == "type=movie";
    assert "?" + "languages=en,pt" == "?languages=en,pt";
    assert "?languages=en,pt" + "&" == "?languages=en,pt&";
  }

  /** The request URL from a path that needs no trimming and a known query string. */
  lemma RequestUrlParts(address: string, path: string, parameters: Option<Dictionary>, query: string)
    requires Trim(path) == path && ParametersString(parameters) == query
    ensures RequestUrl(address, path, parameters) == address + "/" + path + query
  {
  }

  lemma PopularPathTrimmed()
    ensures Trim(PopularFeaturesPath) == PopularFeaturesPath
  {
    TrimmedByEnds(PopularFeaturesPath);
  }

  /**
   * Popular movies in English and Portuguese, from the default address:
   * `https://api.opensubtitles.com/api/v1/discover/popular?languages=en,pt&type=movie`.
   */
  lemma PopularFeaturesUrl()
    ensures RequestUrl(ApiDefaultAddress, PopularFeatures(Movie, ["en", "pt"]).0, Some(PopularFeatures(Movie, ["en", "pt"]).1))
      == ApiDefaultAddress + "/" + "discover/popular" + "?languages=en,pt&type=movie"
  {
    var d := [("languages", Some("en,pt")), ("type", Some("movie"))];
    PopularParameters();
    PopularSorted();
    PopularPairs();
    PopularPathTrimmed();
    RequestUrlParts(ApiDefaultAddress, PopularFeaturesPath, Some(d), "?languages=en,pt&type=movie");
  }

  lemma MostDownloadedParameters()
    ensures MostDownloadedSubtitles(Episode, []).1 == [("type", Some("episode"))]
  {
    TypeValues();
  }

  /** A one-entry dictionary needs no sorting. */
  lemma SingleEntry(e: Entry)
    ensures ParametersString(Some([e])) == Query([e])
  {
    assert [e][1..] == [];
  }

  lemma MostDownloadedPairs()
    ensures ParametersString(Some([("type", Some("episode"))])) == "?type=episode"
  {
    SingleEntry(("type", Some("episode")));
    QueryOfOne("type", "episode");
    MostDownloadedText();
  }

  lemma MostDownloadedText()
    ensures "?" + ("type" + "=" + "episode") == "?type=episode"
  {
    assert "type" + "=" == "type=";
    assert "type=" + "episode" == "type=episode";
  }

  lemma MostDownloadedPathTrimmed()
    ensures Trim(MostDownloadedPath) == MostDownloadedPath
  {
    TrimmedByEnds(MostDownloadedPath);
  }

  /**
   * The most-downloaded endpoint without languages sends only `type`:
   * `https://api.opensubtitles.com/api/v1/discover/most_downloaded?type=episode`.
   */
  lemma MostDownloadedUrl()
    ensures RequestUrl(ApiDefaultAddress, MostDownloadedSubtitles(Episode, []).0, Some(MostDownloadedSubtitles(Episode, []).1))
      == ApiDefaultAddress + "/" + "discover/most_downloaded" + "?type=episode"
  {
    MostDownloadedParameters();
    MostDownloadedPairs();
    MostDownloadedPathTrimmed();
    RequestUrlParts(ApiDefaultAddress, MostDownloadedPath, Some([("type", Some("episode"))]), "?type=episode");
  }
}
