# SharpSubtitles core, modelled in Dafny

SharpSubtitles is a .NET client library for the OpenSubtitles REST API. This project models and proves its sequential core:

- **Base client** (`BaseClient`):
  - the stored API address, key and token, with the `ApiAddress` setter that trims spaces and slashes;
  - the query string `GetUrlParametersString` builds: keys in ascending order, lower-cased `key=value` pairs joined by `&` after a `?`;
  - the request URL `GetRequestUrl` composes;
  - `ClientName`;
  - the request a JSON call builds before it is sent.
- **OpenSubtitles client** (`OpenSubtitlesClient`):
  - its addresses and constructors;
  - the pre-send hook, which adds an `Api-Key` header always and a `Bearer` authorization only when a token is set;
  - the parameter maps of the three "discover" endpoints, with the exact URL of the example `discover/popular?languages=en,pt&type=movie`.
- **Movie hash** (`VideoFile.ComputeHash`):
  - a stream object with a position;
  - one reused 8-byte buffer, whose stale tail after a short read is added again;
  - two bounded loops with 64-bit wrap-around, and the big-endian result;
  - `ToHexadecimal` and `IsVideoFile` (through `Path.GetExtension`).
- **`VideoExtension`**: the extension table and the rules for equality with a string, another extension or any object.
- **`Language`**: equality, hashing and text form.
- **`JsonStringToArrayConverter`**: reading JSON null, a string or an array of strings as a nullable array, and writing it back. JSON is modelled as a sequence of tokens.

## Files

| File | Contents |
|---|---|
| `wrappers.dfy` | `Option` and `Result` |
| `ascii.dfy` | ASCII case folding, ordinal string order, `Join` and `Split` |
| `url_encoding.dfy` | trim, the key sort, the query-string encoder as a specification function and as the looping method, `RequestUrl`, `ClientName` |
| `open_subtitles_api.dfy` | OpenSubtitles constants, the `type` enumerations, the bearer decision, the discover parameter maps, example URLs |
| `clients.dfy` | classes `Client` (for both client types) and `HttpRequest`, the setters, request building and the pre-send hook |
| `video_extensions.dfy` | `VideoExtension`, its table and equality |
| `video_files.dfy` | `Stream`, the hash loops and their specification, `GetExtension`, `IsVideoFile`, hexadecimal text |
| `languages.dfy` | `Language` |
| `json_converters.dfy` | JSON tokens, `Read`, class `Writer`, `Write` |

Every file is given to Dafny together:

```
dafny verify --resource-limit 2000000 --verification-time-limit 0 --warn-contradictory-assumptions *.dfy
```

## Model

| member | source | states |
|---|---|---|
| UrlEncoding.Trim | SharpSubtitlesApi/Clients/BaseClient.cs:44-48 | The trimmed text has no space or slash at either end and is no longer than the input. |
| UrlEncoding.TrimStart | SharpSubtitlesApi/Clients/BaseClient.cs:47 | It drops only leading spaces and slashes, and stops at the first other character. |
| UrlEncoding.TrimEnd | SharpSubtitlesApi/Clients/BaseClient.cs:47 | It drops only trailing spaces and slashes, and stops at the last other character. |
| UrlEncoding.TrimFixesExactlyTrimmed | SharpSubtitlesApi/Clients/BaseClient.cs:44-48 | The setter stores a value unchanged exactly when it already has no space or slash at either end. |
| UrlEncoding.TrimIdempotent | SharpSubtitlesApi/Clients/BaseClient.cs:44-48 | Trimming twice is the same as trimming once. |
| UrlEncoding.TrimmedByEnds | SharpSubtitlesApi/Clients/BaseClient.cs:47 | Text that starts and ends with something other than a space or slash is stored as given. |
| UrlEncoding.Insert | SharpSubtitlesApi/Clients/BaseClient.cs:141-142 | Inserting one entry into the ordered dictionary adds exactly that entry (a permutation). |
| UrlEncoding.InsertSorted | SharpSubtitlesApi/Clients/BaseClient.cs:141-142 | Inserting into a key-ordered dictionary keeps it ordered. |
| UrlEncoding.SortByKey | SharpSubtitlesApi/Clients/BaseClient.cs:141-142 | `OrderBy(key)` gives a permutation of the entries. |
| UrlEncoding.SortByKeySorted | SharpSubtitlesApi/Clients/BaseClient.cs:141-142 | The ordered entries ascend by key, and distinct keys stay distinct. |
| UrlEncoding.SortByKeyMembers | SharpSubtitlesApi/Clients/BaseClient.cs:141-142 | Ordering neither loses nor adds an entry. |
| UrlEncoding.StrictlySortedUnique | SharpSubtitlesApi/Clients/BaseClient.cs:141-142 | Two dictionaries with strictly ascending keys and the same entries are equal. |
| UrlEncoding.SortedKeysAscend | SharpSubtitlesApi/Clients/BaseClient.cs:141-142 | With distinct keys the order is strictly ascending. |
| UrlEncoding.Pairs | SharpSubtitlesApi/Clients/BaseClient.cs:144-145 | The text of each entry, in entry order. |
| UrlEncoding.QueryAppend | SharpSubtitlesApi/Clients/BaseClient.cs:144-145 | Appending an entry adds `?` for the first pair and `&` otherwise, then the lower-cased `key=value`. |
| UrlEncoding.ParametersString | SharpSubtitlesApi/Clients/BaseClient.cs:135-149 | The query is empty exactly when the map is null or empty, and otherwise starts with `?`. |
| UrlEncoding.GetUrlParametersString | SharpSubtitlesApi/Clients/BaseClient.cs:135-149 | The `StringBuilder` loop over the sorted entries builds exactly the query the specification function describes. |
| UrlEncoding.ParametersIgnoreInsertionOrder | SharpSubtitlesApi/Clients/BaseClient.cs:141-142 | Maps with the same entries and distinct keys give the same query, whatever their insertion order. |
| UrlEncoding.ParsePairOfPair | SharpSubtitlesApi/Clients/BaseClient.cs:145 | A `key=value` pair whose key has no `=` splits back into its key and value. |
| UrlEncoding.ParseQueryOfQuery | SharpSubtitlesApi/Clients/BaseClient.cs:139-148 | The query holds exactly one pair per entry, separated by `&`. Each pair is the lower-cased key and value, in entry order, with no percent-encoding. |
| UrlEncoding.ParametersRoundTrip | SharpSubtitlesApi/Clients/BaseClient.cs:135-149 | For n entries with distinct keys, the query reads back as exactly n lower-cased pairs, in strictly ascending order of the original keys. |
| UrlEncoding.RequestUrl | SharpSubtitlesApi/Clients/BaseClient.cs:125-128 | The URL is the address, `/`, the trimmed path and then the query. The query is empty exactly when there are no parameters, and otherwise starts with `?`. |
| UrlEncoding.RequestUrlRoundTrip | SharpSubtitlesApi/Clients/BaseClient.cs:125-128 | The request URL is the address, `/` and the trimmed path, followed by a query from which every parameter is read back in key order. |
| UrlEncoding.ClientName | SharpSubtitlesApi/Clients/BaseClient.cs:82 | The name exists exactly when the type name has at least six characters; it is the type name without its last six characters. |
| Ascii.LowerChar | SharpSubtitlesApi/Clients/BaseClient.cs:145 | `ToLowerInvariant` on one character, for ASCII: an upper-case letter becomes its lower-case letter, and nothing else changes. |
| Ascii.Lower | SharpSubtitlesApi/VideoExtension.cs:30 | Lower-casing maps each character, keeping the length. |
| Ascii.LowerOfLower | SharpSubtitlesApi/VideoExtension.cs:30 | Lower-cased text is lower case, and lower-case text is left as it is. |
| Ascii.LowerKeepsNonLetter | SharpSubtitlesApi/Clients/BaseClient.cs:145 | Lower-casing neither adds nor removes a non-letter such as `=` or `&`. |
| Ascii.LessIrreflexive | SharpSubtitlesApi/Clients/BaseClient.cs:142 | No key sorts before itself. |
| Ascii.LessTransitive | SharpSubtitlesApi/Clients/BaseClient.cs:142 | The key order is transitive. |
| Ascii.LessTotal | SharpSubtitlesApi/Clients/BaseClient.cs:142 | Any two different keys are ordered one way or the other. |
| Ascii.LessAsymmetric | SharpSubtitlesApi/Clients/BaseClient.cs:142 | No two keys sort before each other. |
| Ascii.JoinAppend | SharpSubtitlesApi/Clients/OpenSubtitles/OpenSubtitlesClient.cs:225 | Joining one more code appends the separator and that code. |
| Ascii.SplitJoin | SharpSubtitlesApi/Clients/OpenSubtitles/OpenSubtitlesClient.cs:225 | Codes without a comma are recovered from their comma-joined text. |
| OpenSubtitlesApi.DefaultAddressTrimmed | SharpSubtitlesApi/Clients/OpenSubtitles/OpenSubtitlesClient.cs:17 | The setter stores the default address unchanged. |
| OpenSubtitlesApi.DefaultAddressClean | SharpSubtitlesApi/Clients/OpenSubtitles/OpenSubtitlesClient.cs:17 | The default address has no space or slash at either end. |
| OpenSubtitlesApi.TypeValues | SharpSubtitlesApi/Clients/OpenSubtitles/OpenSubtitlesEnumerations.cs:3-14 | Lower-casing the enumeration names gives the `type` values `movie`, `tvshow`, `all`, `movie` and `episode`. |
| OpenSubtitlesApi.BearerToken | SharpSubtitlesApi/Clients/OpenSubtitles/OpenSubtitlesClient.cs:143-146 | A bearer token is sent exactly when the client requires one and the token is not empty, and it is the token. |
| OpenSubtitlesApi.Lookup | SharpSubtitlesApi/Clients/OpenSubtitles/OpenSubtitlesClient.cs:221-228 | A key is found exactly when some entry has it, and the value returned is that of its first entry. |
| OpenSubtitlesApi.PopularFeatures | SharpSubtitlesApi/Clients/OpenSubtitles/OpenSubtitlesClient.cs:219-230 | The path is `discover/popular`. The map's keys are distinct, `type` holds the lower-cased movie type, and `languages` is present exactly when a code is given, holding the codes comma-joined. |
| OpenSubtitlesApi.LatestSubtitles | SharpSubtitlesApi/Clients/OpenSubtitles/OpenSubtitlesClient.cs:250-261 | The path is `discover/latest`, with the same map as for popular features. |
| OpenSubtitlesApi.MostDownloadedSubtitles | SharpSubtitlesApi/Clients/OpenSubtitles/OpenSubtitlesClient.cs:281-292 | The path is `discover/most_downloaded`. The map is the same, with the lower-cased episode type under `type`. |
| OpenSubtitlesApi.DiscoverParameters | SharpSubtitlesApi/Clients/OpenSubtitles/OpenSubtitlesClient.cs:221-228 | The map's keys are distinct. `languages` is present exactly when a code is passed, holding the codes comma-joined in argument order. `type` is always present, holding the lower-cased enumeration name. |
| OpenSubtitlesApi.LanguagesRoundTrip | SharpSubtitlesApi/Clients/OpenSubtitles/OpenSubtitlesClient.cs:223-226 | The `languages` value splits back into the codes passed. |
| OpenSubtitlesApi.DiscoverWithLanguages | SharpSubtitlesApi/Clients/OpenSubtitles/OpenSubtitlesClient.cs:221-228 | With codes passed, the map is `languages`, then `type`, in insertion order. |
| OpenSubtitlesApi.PopularParameters | SharpSubtitlesApi/Clients/OpenSubtitles/OpenSubtitlesClient.cs:219-231 | Popular features for Movie with `en` and `pt` send `languages=en,pt` and `type=movie`. |
| OpenSubtitlesApi.PopularFeaturesUrl | SharpSubtitlesApi/Clients/OpenSubtitles/OpenSubtitlesClient.cs:219-231 | On the default address, that request goes to `https://api.opensubtitles.com/api/v1/discover/popular?languages=en,pt&type=movie`. |
| OpenSubtitlesApi.MostDownloadedParameters | SharpSubtitlesApi/Clients/OpenSubtitles/OpenSubtitlesClient.cs:281-293 | Most downloaded for Episode with no codes sends only `type=episode`. |
| OpenSubtitlesApi.MostDownloadedUrl | SharpSubtitlesApi/Clients/OpenSubtitles/OpenSubtitlesClient.cs:281-293 | That request goes to `https://api.opensubtitles.com/api/v1/discover/most_downloaded?type=episode`. |
| Clients.ClientNames | SharpSubtitlesApi/Clients/BaseClient.cs:82 | `ClientName` is `Base` and `OpenSubtitles` for the two client types. |
| Clients.HttpRequest.constructor | SharpSubtitlesApi/Clients/BaseClient.cs:168 | A new request has its method and URL, and no accept type, content, headers or authorization yet. |
| Clients.Client.Base | SharpSubtitlesApi/Clients/BaseClient.cs:100-108 | The constructor stores the trimmed address and the key unchanged. |
| Clients.Client.OpenSubtitles | SharpSubtitlesApi/Clients/OpenSubtitles/OpenSubtitlesClient.cs:130-134 | The key-taking constructor starts at the default address with the given key. |
| Clients.Client.OpenSubtitlesDefault | SharpSubtitlesApi/Clients/OpenSubtitles/OpenSubtitlesClient.cs:130-134 | The parameterless constructor starts at the default address with an empty key. |
| Clients.Client.SetApiAddress | SharpSubtitlesApi/Clients/BaseClient.cs:44-48 | The setter stores the trimmed value, keeping the client's invariant that the address is trimmed. |
| Clients.Client.SetApiKey | SharpSubtitlesApi/Clients/BaseClient.cs:58-62 | The key is stored as given, and the stored address stays trimmed. |
| Clients.Client.SetAuthToken | SharpSubtitlesApi/Clients/BaseClient.cs:73-77 | The token is stored as given, and the stored address stays trimmed. |
| Clients.Client.ClientName | SharpSubtitlesApi/Clients/BaseClient.cs:82 | The client's name followed by `Client` is its type name. |
| Clients.Client.GetRequestUrl | SharpSubtitlesApi/Clients/BaseClient.cs:125-128 | The URL is the stored address, `/`, the trimmed path and the parameter query. Because the address and the path are trimmed, exactly one slash joins them: no slash ends the address or starts the path. |
| Clients.Client.CreateRequest | SharpSubtitlesApi/Clients/BaseClient.cs:151-181 | A JSON call's request has the call's method, the request URL, `application/json` accepted and a body only for POST. |
| Clients.Client.OnBeforeSendRequest | SharpSubtitlesApi/Clients/OpenSubtitles/OpenSubtitlesClient.cs:139-149 | The base hook changes nothing. The OpenSubtitles hook appends `Api-Key` with the current key, even when it is empty, and sets `Bearer` authorization exactly when the token is not empty. Only headers and authorization may change. |
| Clients.Client.PrepareRequest | SharpSubtitlesApi/Clients/BaseClient.cs:203-207 | The request handed to `SendAsync` has the call's method, URL and body, `application/json` accepted, and exactly the hook's headers. |
| Clients.Client.GetPopularFeatures | SharpSubtitlesApi/Clients/OpenSubtitles/OpenSubtitlesClient.cs:219-231 | A GET of `discover/popular` with the discover map, `application/json` accepted, the `Api-Key` header, and a bearer exactly when a token is set. |
| Clients.Client.GetLatestSubtitles | SharpSubtitlesApi/Clients/OpenSubtitles/OpenSubtitlesClient.cs:250-262 | The same for `discover/latest`: a GET with the discover map, `application/json` accepted, the `Api-Key` header, and a bearer exactly when a token is set. |
| Clients.Client.GetMostDownloadedSubtitles | SharpSubtitlesApi/Clients/OpenSubtitles/OpenSubtitlesClient.cs:281-293 | The same for `discover/most_downloaded`, with the episode type: a GET with the discover map, `application/json` accepted, the `Api-Key` header, and a bearer exactly when a token is set. |
| Clients.PopularFeaturesExample | SharpSubtitlesApi/Clients/OpenSubtitles/OpenSubtitlesClient.cs:130-149 | A fresh parameterless client sends popular features for Movie with `en` and `pt` to the example URL, the default address followed by `/discover/popular?languages=en,pt&type=movie`. It sends an empty `Api-Key` and no authorization. |
| VideoFiles.ReadCount | SharpSubtitlesApi/VideoFile.cs:41-49 | A read returns the bytes left, at most the count asked for, and zero only at the end. |
| VideoFiles.Stream.Read | SharpSubtitlesApi/VideoFile.cs:41-53 | A read overwrites only the front of the buffer. The rest keeps its old bytes, and the position advances by what was read. |
| VideoFiles.Stream.SetPosition | SharpSubtitlesApi/VideoFile.cs:47 | The seek sets the position. |
| VideoFiles.Advance | SharpSubtitlesApi/VideoFile.cs:43-44 | One read adds the whole buffer, stale tail included, as a little-endian word, and moves past the bytes read. |
| VideoFiles.HashWords | SharpSubtitlesApi/VideoFile.cs:41-45 | One loop leaves the hash, the position and the buffer as the specification pass does, with wrap-around at each addition. |
| VideoFiles.ComputeHash | SharpSubtitlesApi/VideoFile.cs:34-58 | The result is the eight big-endian bytes of the stream length plus every word both loops add, modulo 2^64. The second loop starts at max(0, length - 65536). |
| VideoFiles.FileHash | SharpSubtitlesApi/VideoFile.cs:34-58 | The hash fits in 64 bits. |
| VideoFiles.BigEndian | SharpSubtitlesApi/VideoFile.cs:55-57 | The hash is emitted as exactly eight bytes. |
| VideoFiles.BigEndianRoundTrip | SharpSubtitlesApi/VideoFile.cs:55-57 | The eight bytes, most significant first, give the hash back. |
| VideoFiles.LittleEndianRoundTrip | SharpSubtitlesApi/VideoFile.cs:44-56 | `BitConverter` reads back the bytes it wrote. |
| VideoFiles.ModAdd | SharpSubtitlesApi/VideoFile.cs:44-52 | Wrapping at every addition gives what wrapping once at the end does. |
| VideoFiles.PassBounds | SharpSubtitlesApi/VideoFile.cs:41-45 | A loop advances at most eight bytes per iteration, and the sum never decreases. |
| VideoFiles.PassReadsAtMostChunk | SharpSubtitlesApi/VideoFile.cs:41-53 | A loop of at most 8192 reads covers no more than 64 KiB. |
| VideoFiles.PassSplit | SharpSubtitlesApi/VideoFile.cs:41-45 | A loop with a budget of a + b iterations ends where a loop of b iterations, started where one of a iterations stopped, ends. |
| VideoFiles.PassOfFullReads | SharpSubtitlesApi/VideoFile.cs:41-45 | While the reads fill the buffer, a loop adds the next words of the stream, one per iteration, and its buffer ends holding the last of them. |
| VideoFiles.ShortLastRead | SharpSubtitlesApi/VideoFile.cs:41-45 | A read of the last, fewer than eight, bytes puts them before the buffer's stale tail, and then the loop stops. |
| VideoFiles.PassShift | SharpSubtitlesApi/VideoFile.cs:41-45 | A loop adds the same words whatever the running hash it starts from. |
| VideoFiles.FullReadForgetsBuffer | SharpSubtitlesApi/VideoFile.cs:40-52 | When the first read fills the buffer, what the buffer held before makes no difference. |
| VideoFiles.FirstPassOfWords | SharpSubtitlesApi/VideoFile.cs:36-45 | With budget enough for the whole stream, the first loop adds the whole words and then, for a length that is not a multiple of eight, one word made of the last bytes followed by the stale tail of the word before them. |
| VideoFiles.SmallStreamFirstPass | SharpSubtitlesApi/VideoFile.cs:36-45 | That closed form for the first loop holds for every stream of at most 64 KiB. |
| VideoFiles.SecondPassRepeats | SharpSubtitlesApi/VideoFile.cs:47-53 | A second loop from the start, on the first loop's buffer, adds exactly what the first loop added. |
| VideoFiles.ShortStreamRepeats | SharpSubtitlesApi/VideoFile.cs:47-53 | For a stream under eight bytes, both loops add the same single word, the bytes followed by zeros. |
| VideoFiles.SmallStreamHash | SharpSubtitlesApi/VideoFile.cs:36-53 | For every stream of at most 64 KiB, the second loop adds exactly what the first did, stale tail included: the length plus twice the first loop's words. |
| VideoFiles.LargeStreamHash | SharpSubtitlesApi/VideoFile.cs:36-53 | For every stream of at least 64 KiB, whatever its length, the length plus the first 8192 and the last 8192 words are added. |
| VideoFiles.EmptyStreamHash | SharpSubtitlesApi/VideoFile.cs:36-57 | An empty stream hashes to eight zero bytes. |
| VideoFiles.NineBytesPass | SharpSubtitlesApi/VideoFile.cs:41-45 | On a 9-byte stream the short second read re-adds the seven stale bytes, whatever the buffer held before. |
| VideoFiles.StaleTailExample | SharpSubtitlesApi/VideoFile.cs:40-53 | Because the buffer is never cleared, a concrete 9-byte stream hashes to 19 + 4·2^56, where a cleared buffer would give a different value. |
| VideoFiles.DotIndex | SharpSubtitlesApi/VideoFile.cs:17 | The scan stops at a dot that does not end the path, or finds none. |
| VideoFiles.GetExtension | SharpSubtitlesApi/VideoFile.cs:17 | The extension is empty, or a dot plus a non-empty tail of the path with no dot or separator. |
| VideoFiles.ExtensionOfName | SharpSubtitlesApi/VideoFile.cs:17 | `name.ext` has the extension `.ext`. |
| VideoFiles.NoDotInName | SharpSubtitlesApi/VideoFile.cs:17-18 | A file name without a dot has no extension and is no video file. |
| VideoFiles.TrailingDot | SharpSubtitlesApi/VideoFile.cs:17-18 | A path ending in a dot has no extension and is no video file. |
| VideoFiles.IsVideoFile | SharpSubtitlesApi/VideoFile.cs:15-21 | A path is a video file exactly when some table entry equals its extension under the string rule. Such a path has a non-empty extension. |
| VideoFiles.AnyEqualsIff | SharpSubtitlesApi/VideoFile.cs:20 | `Any` holds exactly when some entry matches. |
| VideoFiles.IsVideoFileIff | SharpSubtitlesApi/VideoFile.cs:15-21 | A path is a video file exactly when it has an extension and some table entry equals that extension without its dot, ignoring case. |
| VideoFiles.VideoFileOfName | SharpSubtitlesApi/VideoFile.cs:15-21 | A name ending in a table extension, in any case, is a video file. |
| VideoFiles.NotVideoFileOfName | SharpSubtitlesApi/VideoFile.cs:15-21 | A name ending in an extension outside the table is not. |
| VideoFiles.HexDigit | SharpSubtitlesApi/VideoFile.cs:98 | A digit of `x2` is `0`-`9` or lower-case `a`-`f`. |
| VideoFiles.HexPair | SharpSubtitlesApi/VideoFile.cs:98 | A byte gives two digits, the high nibble's first. |
| VideoFiles.Hexadecimal | SharpSubtitlesApi/VideoFile.cs:93-101 | The text has two characters per byte. |
| VideoFiles.HexadecimalDigits | SharpSubtitlesApi/VideoFile.cs:93-101 | Byte j's digits sit at positions 2j and 2j+1, so the order follows the bytes. |
| VideoFiles.HexadecimalRoundTrip | SharpSubtitlesApi/VideoFile.cs:93-101 | The bytes are recovered from the text. |
| VideoFiles.ToHexadecimal | SharpSubtitlesApi/VideoFile.cs:93-101 | The `StringBuilder` loop builds exactly the digits of every byte, in order. |
| VideoExtensions.NewVideoExtension | SharpSubtitlesApi/VideoExtension.cs:28-32 | The stored extension is lower case, equal to the argument ignoring case, and of the same length. The name is stored unchanged. |
| VideoExtensions.Construct | SharpSubtitlesApi/VideoExtension.cs:10-22 | Each table row becomes one constructed value, in order. |
| VideoExtensions.ExtensionsTable | SharpSubtitlesApi/VideoExtension.cs:10-22 | The table holds eleven entries, each storing its row's extension, already lower case, and name. |
| VideoExtensions.TableLower | SharpSubtitlesApi/VideoExtension.cs:10-22 | Every extension of the table is written in lower case. |
| VideoExtensions.Deconstruct | SharpSubtitlesApi/VideoExtension.cs:34-38 | The extension and the name rebuild the value exactly. |
| VideoExtensions.ToString | SharpSubtitlesApi/VideoExtension.cs:40-43 | The text is the extension, ` (`, the name and `)`. |
| VideoExtensions.EqualsExtension | SharpSubtitlesApi/VideoExtension.cs:45-48 | Two extensions are equal exactly when they have the same length and agree character by character ignoring ASCII case. |
| VideoExtensions.EqualsText | SharpSubtitlesApi/VideoExtension.cs:50-55 | A string matches only if it is not blank. It matches exactly when, with one leading dot dropped, it agrees with the extension character by character ignoring case. |
| VideoExtensions.Equals | SharpSubtitlesApi/VideoExtension.cs:57-64 | Only a string or another extension can be equal. A string goes to the string rule and an extension to the extension rule. |
| VideoExtensions.GetHashCode | SharpSubtitlesApi/VideoExtension.cs:66-69 | Any lower-case extension equal to this one has the same hash. |
| VideoExtensions.StripDot | SharpSubtitlesApi/VideoExtension.cs:53 | At most one leading dot is removed. |
| VideoExtensions.MkvConstructed | SharpSubtitlesApi/VideoExtension.cs:16 | The `mkv` entry is stored as written. |
| VideoExtensions.TextMatchExamples | SharpSubtitlesApi/VideoExtension.cs:50-55 | `.MKV`, `mkv` and `Mkv` equal `mkv`. |
| VideoExtensions.TextMismatchExamples | SharpSubtitlesApi/VideoExtension.cs:50-55 | `..mkv`, the empty string, a blank and `avi` do not. |
| VideoExtensions.EqualsReflexive | SharpSubtitlesApi/VideoExtension.cs:57-64 | An extension equals itself. |
| VideoExtensions.EqualsSymmetric | SharpSubtitlesApi/VideoExtension.cs:45-48 | The equality between extensions is symmetric. |
| VideoExtensions.EqualsTransitive | SharpSubtitlesApi/VideoExtension.cs:45-48 | The equality between extensions is transitive. |
| VideoExtensions.EqualsIgnoresName | SharpSubtitlesApi/VideoExtension.cs:45-48 | The same extension with another name is equal. |
| VideoExtensions.EqualsImpliesSameHash | SharpSubtitlesApi/VideoExtension.cs:66-69 | Equal constructed extensions have equal hash codes. |
| Languages.EqualsLanguage | SharpSubtitlesApi/Language.cs:111-114 | Two languages are equal exactly when their codes agree character by character, as ordinal string equality does. |
| Languages.Equals | SharpSubtitlesApi/Language.cs:116-122 | Only another language can be equal, and it is equal exactly when the codes are. |
| Languages.GetHashCode | SharpSubtitlesApi/Language.cs:124-127 | Every language equal to this one has the same hash. |
| Languages.ToString | SharpSubtitlesApi/Language.cs:106-109 | The text is the code, `: ` and the name. |
| Languages.EqualsIffSameCode | SharpSubtitlesApi/Language.cs:111-122 | Two languages are equal exactly when their codes are, whatever their names. |
| Languages.EqualsReflexive | SharpSubtitlesApi/Language.cs:116-122 | A language equals itself. |
| Languages.EqualsSymmetric | SharpSubtitlesApi/Language.cs:111-114 | Language equality is symmetric. |
| Languages.EqualsTransitive | SharpSubtitlesApi/Language.cs:111-114 | Language equality is transitive. |
| Languages.EqualsImpliesSameHash | SharpSubtitlesApi/Language.cs:124-127 | Equal languages have equal hash codes. |
| JsonConverters.Encode | SharpSubtitlesApi/Converters/JsonStringToArrayConverter.cs:28-51 | Null is the single null token. An array is a start token, one token per element in order, and an end token. No bracket appears between the two ends. |
| JsonConverters.Elements | SharpSubtitlesApi/Converters/JsonStringToArrayConverter.cs:43-49 | One token per element. |
| JsonConverters.ReadElements | SharpSubtitlesApi/Converters/JsonStringToArrayConverter.cs:15-18 | A successful array read consumes at least the closing bracket and returns what follows it. |
| JsonConverters.ReadMore | SharpSubtitlesApi/Converters/JsonStringToArrayConverter.cs:15-18 | An element is prepended to what the rest of the array reads to, and errors pass through. |
| JsonConverters.Read | SharpSubtitlesApi/Converters/JsonStringToArrayConverter.cs:9-26 | An empty stream fails, and a successful read consumes at least one token. |
| JsonConverters.Writer.constructor | SharpSubtitlesApi/Converters/JsonStringToArrayConverter.cs:28 | A new writer has written nothing. |
| JsonConverters.Writer.WriteNullValue | SharpSubtitlesApi/Converters/JsonStringToArrayConverter.cs:33 | It appends a null. |
| JsonConverters.Writer.WriteStartArray | SharpSubtitlesApi/Converters/JsonStringToArrayConverter.cs:37 | It appends an opening bracket. |
| JsonConverters.Writer.WriteEndArray | SharpSubtitlesApi/Converters/JsonStringToArrayConverter.cs:50 | It appends a closing bracket. |
| JsonConverters.Writer.WriteStringValue | SharpSubtitlesApi/Converters/JsonStringToArrayConverter.cs:39-48 | It appends a string, or a null for a null element. |
| JsonConverters.Write | SharpSubtitlesApi/Converters/JsonStringToArrayConverter.cs:28-51 | Null is written as JSON null. An array is written as exactly its elements, in order, between brackets, and the one-element branch writes the same as the loop. |
| JsonConverters.ReadElementsOfElements | SharpSubtitlesApi/Converters/JsonStringToArrayConverter.cs:15-18 | An array of strings and nulls reads as those elements, in order. |
| JsonConverters.RoundTrip | SharpSubtitlesApi/Converters/JsonStringToArrayConverter.cs:9-51 | Reading what `Write` wrote gives back the value, null or the same array, and consumes nothing more. |
| JsonConverters.StringReadsAsArray | SharpSubtitlesApi/Converters/JsonStringToArrayConverter.cs:20-23 | A single string reads as the one-element array of it, and is written back as an array. |
| JsonConverters.NonStringElementFails | SharpSubtitlesApi/Converters/JsonStringToArrayConverter.cs:15-18 | An array element that is neither a string nor null makes the read fail. |
| JsonConverters.UnclosedArrayFails | SharpSubtitlesApi/Converters/JsonStringToArrayConverter.cs:15-18 | An array left open makes the read fail. |

## Left out

- **Sending requests:**
  - `SendRequestAsync`, `HttpClient.SendAsync`, the JSON (de)serialisation of bodies and responses, and the shared `HttpClient` are network I/O and foreign libraries.
  - The model stops at the request handed to `SendAsync`: method, URL, accept type, body, headers and authorization.
- **Fixed-path endpoints:** these compute nothing beyond a path, so they are not modelled one by one. `PrepareRequest` states the request each one sends.
  - `GetSubtitleFormatsAsync`, `GetLanguagesAsync` and `GetUserInformationAsync` each send a GET of a fixed path (`infos/formats`, `infos/languages`, `infos/user`) with no parameters.
  - `LogoutAsync` sends a DELETE of `logout` with no parameters.
  - `LoginAsync` and `DownloadAsync` send a POST of `login` or `download` with their body object. Their overloads build that object from a user name and password, or from a file id.
- **`WebsiteUrl`:** it relies on `Uri` parsing and `Regex.Replace`, so it is not modelled.
- **Property-change notification:** it belongs to a base class outside this model. Only the stored values are modelled.
- **Values, case and order:**
  - Dictionary values are modelled as the text their `ToString` gives, with `None` for a null result.
  - A null value itself, on which the source would throw, is not modelled.
  - Case mapping is ASCII only.
  - White space, as `string.IsNullOrWhiteSpace` sees it, is the ASCII white-space characters only; Unicode spaces such as U+00A0 are not treated as white space.
  - The key sort uses ordinal character order, not the culture-sensitive default comparer.
  - The key sort is an insertion sort whose result is stable, like `OrderBy`.
- **Enumerations:** values outside the declared members of an enumeration are not modelled. The client names the enumerations in the plural form, which does not match their declaration; the model uses the declared members.
- **Clients.Client.GetPopularFeatures, GetLatestSubtitles and GetMostDownloadedSubtitles:** they require an OpenSubtitles client. This is because the methods exist only on `OpenSubtitlesClient`, and one class models both client types.
- **Clients.Client.OpenSubtitles and Clients.Client.OpenSubtitlesDefault:** they store the default address directly rather than through the setter's trim. `OpenSubtitlesApi.DefaultAddressTrimmed` proves that the trim would store it unchanged.
- **Hashing around the stream:**
  - The asynchronous twins of `ComputeHash` are left out; they run the same loops.
  - The file-opening overloads and `Close` are I/O.
  - The stream is a byte sequence with a position, whose reads return the bytes left, at most eight.
  - `BitConverter` is taken to be little-endian.
- **The hash's integer type:** it is kept as its unsigned 64-bit pattern, i.e. the C# `long` modulo 2^64. The bytes emitted are the same.
- **VideoFiles.SmallStreamHash:** it states the sum of the length and the words before wrapping. The hash is that sum modulo 2^64, which `FileHash` states.
- **VideoFiles.LargeStreamHash:** the same as for `SmallStreamHash`.
- **VideoFiles.GetExtension:**
  - It models `Path.GetExtension` as the text from the last dot of the final path segment, taking both `/` and `\` as separators.
  - Invalid path characters and drive or volume syntax are not modelled.
- **Hash codes:** the string hash of `GetHashCode` is a parameter; the runtime's randomised string hash is not modelled.
- **`Language.List`:** the fixed list of languages is data that no modelled operation reads, so it is not included.
- **Languages dictionary:** the OpenSubtitles dictionary of language codes and names is data that no modelled operation reads, so it is not included. The subtitle format list is kept as a constant.
- **VideoExtensions.ExtensionsTable:** it does not state that the table's extensions are distinct.
- **JsonConverters.Read:**
  - `GetString` on a token that holds no string is modelled as an `InvalidOperation` error.
  - The reader's own validation of malformed JSON text and the writer's output formatting are not modelled.
- **DTOs:** the data transfer classes of the API responses are field bags without logic, so they are not modelled.
- **Percent-encoding:** the code does none, so the query carries `languages=en,pt` verbatim; the model follows the code.
