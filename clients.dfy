/**
 * The state BaseClient and OpenSubtitlesClient keep and update: the stored
 * address, key and token, their setters and constructors, the request a
 * JSON call builds, and the pre-send hook that adds the headers.
 *
 * OpenSubtitlesClient derives from BaseClient and overrides its virtual
 * members; here one class carries a `kind` and the overridden members
 * dispatch on it.
 */
module Clients {
  import opened Wrappers
  import opened UrlEncoding
  import opened OpenSubtitlesApi

  /** The runtime type of a client. */
  datatype ClientKind = Base | OpenSubtitles

  /** `GetType().Name`. */
  function TypeName(kind: ClientKind): string {
    match kind
    case Base => "BaseClient"
    case OpenSubtitles => "OpenSubtitlesClient"
  }

  /** The virtual `Version`. */
  function Version(kind: ClientKind): int {
    match kind
    case Base => 0
    case OpenSubtitles => 1
  }

  /** The virtual `RequireApiKey`. */
  predicate RequireApiKey(kind: ClientKind) { kind == OpenSubtitles }

  /** The virtual `RequireAuthToken`. */
  predicate RequireAuthToken(kind: ClientKind) { kind == OpenSubtitles }

  /** Both client types have a name ending in "Client", which `ClientName` drops. */
  lemma ClientNames()
    ensures ClientName(TypeName(Base)) == Some("Base")
    ensures ClientName(TypeName(OpenSubtitles)) == Some("OpenSubtitles")
  {
    assert "OpenSubtitles" + "Client" == "OpenSubtitlesClient";
    assert "Base" + "Client" == "BaseClient";
  }

  datatype HttpMethod = Get | Post | Delete

  /** How the convenience entry points call: `PostJsonAsync` carries the serialized body. */
  datatype JsonCall = GetJson | DeleteJson | PostJson(json: string)

  function MethodOf(call: JsonCall): HttpMethod {
    match call
    case GetJson => Get
    case DeleteJson => Delete
    case PostJson(_) => Post
  }

  datatype Header = Header(name: string, value: string)

  /** An `AuthenticationHeaderValue`. */
  datatype Authorization = Authorization(scheme: string, parameter: string)

  /** The parts of an `HttpRequestMessage` the client touches. */
  class HttpRequest {
    var verb: HttpMethod
    var url: string
    var accept: seq<string>
    /** JSON body text, sent as UTF-8 `application/json`. */
    var content: Option<string>
    /** Headers added with `Headers.Add`, in the order they were added. */
    var headers: seq<Header>
    var authorization: Option<Authorization>

    constructor (verb: HttpMethod, url: string)
      ensures this.verb == verb && this.url == url
      ensures accept == [] && content == None && headers == [] && authorization == None
    {
      this.verb := verb;
      this.url := url;
      accept := [];
      content := None;
      headers := [];
      authorization := None;
    }
  }

  class Client {
    const kind: ClientKind
    var apiAddress: string
    var apiKey: string
    var authToken: string

    /** The stored address is always trimmed: every write goes through the `ApiAddress` setter. */
    ghost predicate Valid()
      reads this
    {
      IsTrimmed(apiAddress)
    }

    /** `BaseClient(apiAddress, apiKey)`; the shorter overloads pass "" for what they omit. */
    constructor Base(apiAddress: string, apiKey: string)
      ensures Valid()
      ensures kind == ClientKind.Base
      ensures this.apiAddress == Trim(apiAddress) && this.apiKey == apiKey && authToken == ""
    {
      kind := ClientKind.Base;
      this.apiAddress := Trim(apiAddress);
      this.apiKey := apiKey;
      authToken := "";
    }

    /** `OpenSubtitlesClient(apiKey)`: the default address and the given key. */
    constructor OpenSubtitles(apiKey: string)
      ensures Valid()
      ensures kind == ClientKind.OpenSubtitles
      ensures apiAddress == ApiDefaultAddress && this.apiKey == apiKey && authToken == ""
    {
      kind := ClientKind.OpenSubtitles;
      // the setter's trim leaves the default address as it is (DefaultAddressTrimmed)
      DefaultAddressClean();
      apiAddress := ApiDefaultAddress;
      this.apiKey := apiKey;
      authToken := "";
    }

    /** `OpenSubtitlesClient()`: the default address and an empty key. */
    constructor OpenSubtitlesDefault()
      ensures Valid()
      ensures kind == ClientKind.OpenSubtitles
      ensures apiAddress == ApiDefaultAddress && apiKey == "" && authToken == ""
    {
      kind := ClientKind.OpenSubtitles;
      // the setter's trim leaves the default address as it is (DefaultAddressTrimmed)
      DefaultAddressClean();
      apiAddress := ApiDefaultAddress;
      apiKey := "";
      authToken := "";
    }

    /** The `ApiAddress` setter: stores the value with leading and trailing spaces and slashes removed. */
    method SetApiAddress(value: string)
      modifies this`apiAddress
      ensures Valid()
      ensures apiAddress == Trim(value)
    {
      apiAddress := Trim(value);
    }

    /** The `ApiKey` setter: stores the value as given. */
    method SetApiKey(value: string)
      requires Valid()
      modifies this`apiKey
      ensures Valid()
      ensures apiKey == value
    {
      apiKey := value;
    }

    /** The `AuthToken` setter: stores the value as given. */
    method SetAuthToken(value: string)
      requires Valid()
      modifies this`authToken
      ensures Valid()
      ensures authToken == value
    {
      authToken := value;
    }

    /** `ClientName`. */
    function ClientName(): (r: Option<string>)
      ensures r.Some? && r.value + "Client" == TypeName(kind)
    {
      ClientNames();
      UrlEncoding.ClientName(TypeName(kind))
    }

    /**
     * `GetRequestUrl(path, parameters)`. Because the stored address and the
     * path are both trimmed, exactly one slash joins them.
     */
    function GetRequestUrl(path: string, parameters: Option<Dictionary>): (r: string)
      requires Valid()
      reads this
      ensures r == apiAddress + "/" + Trim(path) + ParametersString(parameters)
      ensures |r| > |apiAddress| && r[..|apiAddress|] == apiAddress && r[|apiAddress|] == '/'
      ensures apiAddress != [] ==> r[|apiAddress| - 1] != '/'
      ensures Trim(path) != [] ==> r[|apiAddress| + 1] != '/'
    {
      TrimmedJoin(apiAddress, path, parameters);
      RequestUrl(apiAddress, path, parameters)
    }

    /**
     * The request `GetJsonAsync`, `DeleteJsonAsync` and `PostJsonAsync` build
     * before handing it to `SendRequestAsync`.
     */
    method CreateRequest(call: JsonCall, path: string, parameters: Option<Dictionary>) returns (request: HttpRequest)
      requires Valid()
      ensures fresh(request)
      ensures request.verb == MethodOf(call)
      ensures request.url == GetRequestUrl(path, parameters)
      ensures request.accept == ["application/json"]
      ensures request.content == if call.PostJson? then Some(call.json) else None
      ensures request.headers == [] && request.authorization == None
    {
      var url := GetRequestUrl(path, parameters);
      request := new HttpRequest(MethodOf(call), url);
      request.accept := request.accept + ["application/json"];
      if call.PostJson? {
        request.content := Some(call.json);
      }
    }

    /**
     * `OnBeforeSendRequestAsync`: nothing for BaseClient; for
     * OpenSubtitlesClient an `Api-Key` header with the current key, always,
     * and a `Bearer` Authorization with the token when there is one.
     * Only the headers can change.
     */
    method OnBeforeSendRequest(request: HttpRequest)
      modifies request`headers, request`authorization
      ensures kind == ClientKind.Base ==>
        request.headers == old(request.headers) && request.authorization == old(request.authorization)
      ensures kind == ClientKind.OpenSubtitles ==>
        request.headers == old(request.headers) + [Header("Api-Key", apiKey)]
      ensures kind == ClientKind.OpenSubtitles ==>
        request.authorization ==
          match BearerToken(RequireAuthToken(kind), authToken)
          case Some(token) => Some(Authorization("Bearer", token))
          case None => old(request.authorization)
    {
      if kind == ClientKind.OpenSubtitles {
        request.headers := request.headers + [Header("Api-Key", apiKey)];
        if RequireAuthToken(kind) && authToken != "" {
          request.authorization := Some(Authorization("Bearer", authToken));
        }
      }
    }

    /**
     * What `SendRequestAsync` dispatches for a JSON call: the built request
     * after the pre-send hook has run.
     */
    method PrepareRequest(call: JsonCall, path: string, parameters: Option<Dictionary>) returns (request: HttpRequest)
      requires Valid()
      ensures fresh(request)
      ensures request.verb == MethodOf(call) && request.url == GetRequestUrl(path, parameters)
      ensures request.accept == ["application/json"]
      ensures request.content == if call.PostJson? then Some(call.json) else None
      ensures request.headers == if kind == ClientKind.OpenSubtitles then [Header("Api-Key", apiKey)] else []
      ensures request.authorization.Some? <==> kind == ClientKind.OpenSubtitles && authToken != ""
      ensures request.authorization.Some? ==> request.authorization == Some(Authorization("Bearer", authToken))
    {
      request := CreateRequest(call, path, parameters);
      OnBeforeSendRequest(request);
    }

    /**
     * `GetPopularFeaturesAsync(type, languages)`: a GET of `discover/popular`
     * with the discover parameters, prepared for sending.
     */
    method GetPopularFeatures(t: MovieType, languages: seq<string>) returns (request: HttpRequest)
      requires Valid()
      requires kind == ClientKind.OpenSubtitles
      ensures fresh(request)
      ensures request.verb == Get && request.content == None
      ensures request.accept == ["application/json"]
      ensures request.url == GetRequestUrl(PopularFeaturesPath, Some(DiscoverParameters(MovieTypeName(t), languages)))
      ensures request.headers == [Header("Api-Key", apiKey)]
      ensures request.authorization == if authToken != "" then Some(Authorization("Bearer", authToken)) else None
    {
      var (path, parameters) := PopularFeatures(t, languages);
      request := PrepareRequest(GetJson, path, Some(parameters));
    }

    /**
     * `GetLatestSubtitlesAsync(type, languages)`: a GET of `discover/latest`
     * with the discover parameters, prepared for sending.
     */
    method GetLatestSubtitles(t: MovieType, languages: seq<string>) returns (request: HttpRequest)
      requires Valid()
      requires kind == ClientKind.OpenSubtitles
      ensures fresh(request)
      ensures request.verb == Get && request.content == None
      ensures request.accept == ["application/json"]
      ensures request.url == GetRequestUrl(LatestSubtitlesPath, Some(DiscoverParameters(MovieTypeName(t), languages)))
      ensures request.headers == [Header("Api-Key", apiKey)]
      ensures request.authorization == if authToken != "" then Some(Authorization("Bearer", authToken)) else None
    {
      var (path, parameters) := LatestSubtitles(t, languages);
      request := PrepareRequest(GetJson, path, Some(parameters));
    }

    /**
     * `GetMostDownloadedSubtitlesAsync(type, languages)`: a GET of
     * `discover/most_downloaded` with the discover parameters, prepared for sending.
     */
    method GetMostDownloadedSubtitles(t: EpisodeType, languages: seq<string>) returns (request: HttpRequest)
      requires Valid()
      requires kind == ClientKind.OpenSubtitles
      ensures fresh(request)
      ensures request.verb == Get && request.content == None
      ensures request.accept == ["application/json"]
      ensures request.url == GetRequestUrl(MostDownloadedPath, Some(DiscoverParameters(EpisodeTypeName(t), languages)))
      ensures request.headers == [Header("Api-Key", apiKey)]
      ensures request.authorization == if authToken != "" then Some(Authorization("Bearer", authToken)) else None
    {
      var (path, parameters) := MostDownloadedSubtitles(t, languages);
      request := PrepareRequest(GetJson, path, Some(parameters));
    }
  }

  /**
   * A fresh OpenSubtitles client sends its popular-features request for Movie
   * in `en` and `pt` to the example URL: the default address followed by
   * `/discover/popular?languages=en,pt&type=movie`.
   */
  method PopularFeaturesExample() returns (request: HttpRequest)
    ensures request.url == ApiDefaultAddress + "/" + "discover/popular" + "?languages=en,pt&type=movie"
    ensures request.headers == [Header("Api-Key", "")] && request.authorization == None
  {
    var client := new Client.OpenSubtitlesDefault();
    PopularFeaturesUrl();
    request := client.GetPopularFeatures(Movie, ["en", "pt"]);
  }
}
