/**
 * The text-building part of BaseClient: trimming of addresses and paths,
 * the query-string encoder `GetUrlParametersString`, the request URL and
 * the client name derived from the type name.
 */
module UrlEncoding {
  import opened Wrappers
  import opened Ascii

  /** A parameter value seen through its `ToString()`: None stands for a null string. */
  type Value = Option<string>

  /** One key/value pair of a `Dictionary<string, object>`. */
  type Entry = (string, Value)

  /** A dictionary as the sequence of its entries in enumeration (insertion) order. */
  type Dictionary = seq<Entry>

  /** A dictionary never holds two entries with the same key. */
  ghost predicate DistinctKeys(d: Dictionary) {
    forall i, j :: 0 <= i < j < |d| ==> d[i].0 != d[j].0
  }

  /** The text `$"{value}"` gives for a value whose `ToString()` is `v`. */
  function ValueText(v: Value): string {
    match v
    case None => ""
    case Some(s) => s
  }

  // ---------------------------------------------------------------------
  // Trim(' ', '/')
  // ---------------------------------------------------------------------

  /** The characters `Trim(' ', '/')` removes. */
  predicate IsTrimChar(c: char) { c == ' ' || c == '/' }

  /** A string that neither starts nor ends with a trim character. */
  predicate IsTrimmed(s: string) {
    s == [] || (!IsTrimChar(s[0]) && !IsTrimChar(s[|s| - 1]))
  }

  /** Removes every leading trim character, and only those. */
  function TrimStart(s: string): (r: string)
    ensures |r| <= |s| && r == s[|s| - |r|..]
    ensures forall i :: 0 <= i < |s| - |r| ==> IsTrimChar(s[i])
    ensures r != [] ==> !IsTrimChar(r[0])
  {
    if s != [] && IsTrimChar(s[0]) then TrimStart(s[1..]) else s
  }

  /** Removes every trailing trim character, and only those. */
  function TrimEnd(s: string): (r: string)
    ensures |r| <= |s| && r == s[..|r|]
    ensures forall i :: |r| <= i < |s| ==> IsTrimChar(s[i])
    ensures r != [] ==> !IsTrimChar(r[|r| - 1])
  {
    if s != [] && IsTrimChar(s[|s| - 1]) then TrimEnd(s[..|s| - 1]) else s
  }

  /** `s.Trim(' ', '/')`: the longest middle part of `s` with no trim character at either end. */
  function Trim(s: string): (r: string)
    ensures IsTrimmed(r)
    ensures |r| <= |s|
  {
    TrimEnd(TrimStart(s))
  }

  /** A string that is already trimmed is left unchanged, and only such a string is. */
  lemma TrimFixesExactlyTrimmed(s: string)
    ensures Trim(s) == s <==> IsTrimmed(s)
  {
    if IsTrimmed(s) {
      assert TrimStart(s) == s;
    }
  }

  /** A string that neither starts nor ends with a trim character is left unchanged. */
  lemma TrimmedByEnds(s: string)
    requires s != [] && !IsTrimChar(s[0]) && !IsTrimChar(s[|s| - 1])
    ensures IsTrimmed(s) && Trim(s) == s
  {
    TrimFixesExactlyTrimmed(s);
  }

  /** Trimming twice is trimming once. */
  lemma TrimIdempotent(s: string)
    ensures Trim(Trim(s)) == Trim(s)
  {
    TrimFixesExactlyTrimmed(Trim(s));
  }

  // ---------------------------------------------------------------------
  // parameters.OrderBy(x => x.Key)
  // ---------------------------------------------------------------------

  /** Entries in non-decreasing ordinal order of their (original) keys. */
  ghost predicate SortedByKey(d: Dictionary) {
    forall i, j :: 0 <= i < j < |d| ==> !Less(d[j].0, d[i].0)
  }

  /** Entries in strictly increasing ordinal order of their keys. */
  ghost predicate StrictlySortedByKey(d: Dictionary) {
    forall i, j :: 0 <= i < j < |d| ==> Less(d[i].0, d[j].0)
  }

  /** "Not less" is transitive: a <= b and b <= c give a <= c. */
  lemma NotLessTransitive(a: string, b: string, c: string)
    requires !Less(b, a) && !Less(c, b)
    ensures !Less(c, a)
  {
    if Less(c, a) {
      LessTotal(a, b);
      LessTotal(b, c);
      if a == b {
        LessAsymmetric(c, a);
      } else if b == c {
        LessAsymmetric(c, a);
      } else {
        LessTransitive(a, b, c);
        LessAsymmetric(a, c);
      }
    }
  }

  /** Inserts one entry in front of the first entry whose key is not below its own. */
  function Insert(e: Entry, d: Dictionary): (r: Dictionary)
    ensures |r| == |d| + 1 && multiset(r) == multiset(d) + multiset{e}
  {
    if d == [] then [e]
    else if !Less(d[0].0, e.0) then [e] + d
    else
      assert d == [d[0]] + d[1..];
      [d[0]] + Insert(e, d[1..])
  }

  lemma InsertMembers(e: Entry, d: Dictionary)
    ensures forall x :: x in Insert(e, d) <==> x == e || x in d
  {
    var r := Insert(e, d);
    forall x ensures x in r <==> x == e || x in d {
      assert x in r <==> x in multiset(r);
      assert x in d <==> x in multiset(d);
    }
  }

  lemma {:induction false} InsertSorted(e: Entry, d: Dictionary)
    requires SortedByKey(d)
    ensures SortedByKey(Insert(e, d))
    decreases |d|
  {
    if d == [] {
    } else if !Less(d[0].0, e.0) {
      forall j | 0 <= j < |d| ensures !Less(d[j].0, e.0) {
        if j > 0 { NotLessTransitive(e.0, d[0].0, d[j].0); }
      }
    } else {
      InsertSorted(e, d[1..]);
      InsertMembers(e, d[1..]);
      var rest := Insert(e, d[1..]);
      LessAsymmetric(d[0].0, e.0);
      forall x | x in rest ensures !Less(x.0, d[0].0) {
        if x != e {
          var j :| 1 <= j < |d| && d[j] == x;
        }
      }
      var r := [d[0]] + rest;
      forall i, j | 0 <= i < j < |r| ensures !Less(r[j].0, r[i].0) {
        if i == 0 { assert r[j] in rest; }
        else { assert r[i] == rest[i - 1] && r[j] == rest[j - 1]; }
      }
    }
  }

  lemma {:induction false} InsertDistinct(e: Entry, d: Dictionary)
    requires DistinctKeys(d)
    requires forall x :: x in d ==> x.0 != e.0
    ensures DistinctKeys(Insert(e, d))
    decreases |d|
  {
    if d != [] && Less(d[0].0, e.0) {
      InsertDistinct(e, d[1..]);
      InsertMembers(e, d[1..]);
      var rest := Insert(e, d[1..]);
      forall x | x in rest ensures x.0 != d[0].0 {
        if x != e {
          var j :| 1 <= j < |d| && d[j] == x;
        }
      }
      var r := [d[0]] + rest;
      forall i, j | 0 <= i < j < |r| ensures r[i].0 != r[j].0 {
        if i == 0 { assert r[j] in rest; }
        else { assert r[i] == rest[i - 1] && r[j] == rest[j - 1]; }
      }
    }
  }

  /** The ordering `OrderBy(x => x.Key)` gives: a permutation of the entries (sorted by SortByKeySorted). */
  function SortByKey(d: Dictionary): (r: Dictionary)
    ensures |r| == |d| && multiset(r) == multiset(d)
  {
    if d == [] then []
    else
      assert d == [d[0]] + d[1..];
      Insert(d[0], SortByKey(d[1..]))
  }

  /** Sorting keeps exactly the entries it was given. */
  lemma SortByKeyMembers(d: Dictionary)
    ensures forall x :: x in SortByKey(d) <==> x in d
  {
    var r := SortByKey(d);
    forall x ensures x in r <==> x in d {
      assert x in r <==> x in multiset(r);
      assert x in d <==> x in multiset(d);
    }
  }

  /** The entries come out in non-decreasing key order, and distinct keys stay distinct. */
  lemma {:induction false} SortByKeySorted(d: Dictionary)
    ensures SortedByKey(SortByKey(d))
    ensures DistinctKeys(d) ==> DistinctKeys(SortByKey(d))
    decreases |d|
  {
    if d != [] {
      var rest := SortByKey(d[1..]);
      SortByKeySorted(d[1..]);
      InsertSorted(d[0], rest);
      if DistinctKeys(d) {
        SortByKeyMembers(d[1..]);
        forall x | x in rest ensures x.0 != d[0].0 {
          var j :| 1 <= j < |d| && d[j] == x;
        }
        InsertDistinct(d[0], rest);
      }
    }
  }

  /** Sorted with distinct keys is strictly sorted. */
  lemma SortedDistinctIsStrict(d: Dictionary)
    requires SortedByKey(d) && DistinctKeys(d)
    ensures StrictlySortedByKey(d)
  {
    forall i, j | 0 <= i < j < |d| ensures Less(d[i].0, d[j].0) {
      LessTotal(d[i].0, d[j].0);
    }
  }

  lemma FirstIsMember(d: Dictionary)
    ensures d == [] || d[0] in d
  {
  }

  /** Two strictly key-sorted dictionaries with the same entries are the same sequence. */
  lemma {:induction false} StrictlySortedUnique(a: Dictionary, b: Dictionary)
    requires StrictlySortedByKey(a) && StrictlySortedByKey(b)
    requires forall x :: x in a <==> x in b
    ensures a == b
    decreases |a|
  {
    if a == [] {
      FirstIsMember(b);
    } else {
      assert a[0] in b && b != [];
      assert b[0] in a;
      var i :| 0 <= i < |a| && a[i] == b[0];
      var j :| 0 <= j < |b| && b[j] == a[0];
      if i > 0 && j > 0 {
        LessAsymmetric(a[0].0, a[i].0);
      } else if i > 0 {
        LessIrreflexive(a[0].0);
      } else if j > 0 {
        LessIrreflexive(b[0].0);
      }
      assert a[0] == b[0];
      forall x ensures x in a[1..] <==> x in b[1..] {
        if x in a[1..] {
          var k :| 1 <= k < |a| && a[k] == x;
          assert x != a[0] by { LessIrreflexive(a[0].0); }
          assert x in b;
          var m :| 0 <= m < |b| && b[m] == x;
          assert m != 0;
          assert x == b[1..][m - 1];
        }
        if x in b[1..] {
          var k :| 1 <= k < |b| && b[k] == x;
          assert x != b[0] by { LessIrreflexive(b[0].0); }
          assert x in a;
          var m :| 0 <= m < |a| && a[m] == x;
          assert m != 0;
          assert x == a[1..][m - 1];
        }
      }
      StrictlySortedUnique(a[1..], b[1..]);
      assert a == [a[0]] + a[1..] && b == [b[0]] + b[1..];
    }
  }

  /** Sorting a dictionary orders its keys strictly: no key is repeated and each is below the next. */
  lemma SortedKeysAscend(d: Dictionary)
    requires DistinctKeys(d)
    ensures StrictlySortedByKey(SortByKey(d))
  {
    SortByKeySorted(d);
    SortedDistinctIsStrict(SortByKey(d));
  }

  // ---------------------------------------------------------------------
  // GetUrlParametersString
  // ---------------------------------------------------------------------

  /** One `key=value` pair as emitted, both halves lower-cased, nothing escaped. */
  function Pair(e: Entry): string {
    Lower(e.0) + "=" + Lower(ValueText(e.1))
  }

  function Pairs(d: Dictionary): (r: seq<string>)
    ensures |r| == |d| && forall i :: 0 <= i < |d| ==> r[i] == Pair(d[i])
  {
    seq(|d|, i requires 0 <= i < |d| => Pair(d[i]))
  }

  /** The pairs of `d`, in the given order, behind a `?` and separated by `&`. */
  function Query(d: Dictionary): string {
    if d == [] then "" else "?" + Join(Pairs(d), '&')
  }

  /** The text the string builder holds after one more entry has been appended. */
  lemma QueryAppend(d: Dictionary, e: Entry)
    ensures Query(d + [e]) == Query(d) + (if d == [] then "?" else "&") + Pair(e)
  {
    assert Pairs(d + [e]) == Pairs(d) + [Pair(e)];
    if d != [] {
      JoinAppend(Pairs(d), Pair(e), '&');
    }
  }

  /** Appending the key, `=` and the value piece by piece appends the pair. */
  lemma AppendPair(text: string, e: Entry)
    ensures text + Lower(e.0) + "=" + Lower(ValueText(e.1)) == text + Pair(e)
  {
  }

  /** One turn of the builder loop: the separator, then the pair, extends the query by one entry. */
  lemma QueryStep(d: Dictionary, i: nat)
    requires i < |d|
    ensures var text := Query(d[..i]);
      text + (if |text| == 0 then "?" else "&") + Lower(d[i].0) + "=" + Lower(ValueText(d[i].1)) == Query(d[..i + 1])
  {
    var text, before := Query(d[..i]), d[..i];
    assert |text| == 0 <==> before == [] by {
      if before != [] {
        assert text == "?" + Join(Pairs(before), '&');
      }
    }
    var separated := text + (if before == [] then "?" else "&");
    AppendPair(separated, d[i]);
    QueryAppend(before, d[i]);
    assert d[..i + 1] == before + [d[i]];
  }

  /** The string `GetUrlParametersString(parameters)` returns. */
  function ParametersString(parameters: Option<Dictionary>): (r: string)
    ensures r == "" <==> parameters.None? || parameters.value == []
    ensures r != "" ==> r[0] == '?'
  {
    match parameters
    case None => ""
    case Some(d) => Query(SortByKey(d))
  }

  /**
   * `GetUrlParametersString`: appends `?` before the first pair and `&`
   * before every other, walking the entries in key order.
   */
  method GetUrlParametersString(parameters: Option<Dictionary>) returns (s: string)
    ensures s == ParametersString(parameters)
  {
    if parameters.None? || |parameters.value| == 0 {
      return "";
    }
    var sorted := SortByKey(parameters.value);
    s := "";
    for i := 0 to |sorted|
      invariant s == Query(sorted[..i])
    {
      QueryStep(sorted, i);
      s := s + (if |s| == 0 then "?" else "&");
      s := s + Lower(sorted[i].0) + "=" + Lower(ValueText(sorted[i].1));
    }
    assert sorted[..|sorted|] == sorted;
  }

  /** The encoded string depends only on the entries, never on the order they were added in. */
  lemma ParametersIgnoreInsertionOrder(d1: Dictionary, d2: Dictionary)
    requires DistinctKeys(d1) && DistinctKeys(d2)
    requires forall x :: x in d1 <==> x in d2
    ensures ParametersString(Some(d1)) == ParametersString(Some(d2))
  {
    SortedKeysAscend(d1);
    SortedKeysAscend(d2);
    SortByKeyMembers(d1);
    SortByKeyMembers(d2);
    StrictlySortedUnique(SortByKey(d1), SortByKey(d2));
  }

  // ---------------------------------------------------------------------
  // An inverse: reading the pairs back out of a query string
  // ---------------------------------------------------------------------

  /** Cuts `key=value` at its first `=`. */
  function ParsePair(p: string): (string, string)
    decreases |p|
  {
    if p == [] then ("", "")
    else if p[0] == '=' then ("", p[1..])
    else
      var kv := ParsePair(p[1..]);
      ([p[0]] + kv.0, kv.1)
  }

  lemma {:induction false} ParsePairOfPair(k: string, v: string)
    requires '=' !in k
    ensures ParsePair(k + "=" + v) == (k, v)
    decreases |k|
  {
    if k == [] {
      assert k + "=" + v == "=" + v;
      assert ("=" + v)[1..] == v;
    } else {
      assert (k + "=" + v)[1..] == k[1..] + "=" + v;
      ParsePairOfPair(k[1..], v);
      assert [k[0]] + k[1..] == k;
    }
  }

  /** Reads the pairs of a query string: drops the leading `?`, splits at `&`, then at `=`. */
  function ParseQuery(q: string): seq<(string, string)> {
    if q == [] then []
    else
      var parts := Split(q[1..], '&');
      seq(|parts|, i requires 0 <= i < |parts| => ParsePair(parts[i]))
  }

  /** An entry whose key has no `&` or `=` and whose value has no `&`. */
  predicate IsPlain(e: Entry) {
    '&' !in e.0 && '=' !in e.0 && '&' !in ValueText(e.1)
  }

  /** The lower-cased key and value an entry is sent as. */
  function Sent(e: Entry): (string, string) {
    (Lower(e.0), Lower(ValueText(e.1)))
  }

  /** Reading the pairs back out of `Query(d)` gives every entry, lower-cased, in order. */
  lemma ParseQueryOfQuery(d: Dictionary)
    requires forall x :: x in d ==> IsPlain(x)
    ensures ParseQuery(Query(d)) == seq(|d|, i requires 0 <= i < |d| => Sent(d[i]))
  {
    if d != [] {
      var ps := Pairs(d);
      forall i | 0 <= i < |ps| ensures '&' !in ps[i] && ParsePair(ps[i]) == Sent(d[i]) {
        assert d[i] in d;
        LowerKeepsNonLetter(d[i].0, '&');
        LowerKeepsNonLetter(d[i].0, '=');
        LowerKeepsNonLetter(ValueText(d[i].1), '&');
        ParsePairOfPair(Lower(d[i].0), Lower(ValueText(d[i].1)));
      }
      SplitJoin(ps, '&');
      assert ("?" + Join(ps, '&'))[1..] == Join(ps, '&');
    }
  }

  /**
   * The encoder's output read back: exactly one `key=value` pair per entry,
   * lower-cased, in ascending order of the original keys.
   */
  lemma ParametersRoundTrip(d: Dictionary)
    requires DistinctKeys(d)
    requires forall x :: x in d ==> IsPlain(x)
    ensures var sorted := SortByKey(d);
      StrictlySortedByKey(sorted) &&
      ParseQuery(ParametersString(Some(d))) == seq(|d|, i requires 0 <= i < |d| => Sent(sorted[i]))
  {
    SortedKeysAscend(d);
    SortByKeyMembers(d);
    ParseQueryOfQuery(SortByKey(d));
  }

  // ---------------------------------------------------------------------
  // GetRequestUrl and ClientName
  // ---------------------------------------------------------------------

  /** `GetRequestUrl(path, parameters)` for a client whose stored address is `address`. */
  function RequestUrl(address: string, path: string, parameters: Option<Dictionary>): (r: string)
    ensures address + "/" + Trim(path) <= r
    ensures r[|address| + 1 + |Trim(path)|..] == ParametersString(parameters)
    ensures |r| == |address| + 1 + |Trim(path)| <==> parameters.None? || parameters.value == []
    ensures |r| > |address| + 1 + |Trim(path)| ==> r[|address| + 1 + |Trim(path)|] == '?'
  {
    var prefix, query := address + "/" + Trim(path), ParametersString(parameters);
    PrefixThenRest(prefix, query);
    prefix + query
  }

  /** With a trimmed address, the one slash `RequestUrl` inserts is the only one where address and path meet. */
  lemma TrimmedJoin(address: string, path: string, parameters: Option<Dictionary>)
    requires IsTrimmed(address)
    ensures var r := RequestUrl(address, path, parameters);
      r == address + "/" + Trim(path) + ParametersString(parameters) &&
      |r| > |address| && r[..|address|] == address && r[|address|] == '/' &&
      (address != [] ==> r[|address| - 1] != '/') &&
      (Trim(path) != [] ==> r[|address| + 1] != '/')
  {
    var prefix, query := address + "/" + Trim(path), ParametersString(parameters);
    assert prefix[..|address|] == address && prefix[|address|] == '/';
    assert Trim(path) != [] ==> prefix[|address| + 1] == Trim(path)[0];
    PrefixThenRest(prefix, query);
    assert RequestUrl(address, path, parameters) == prefix + query;
  }

  /** A concatenation starts with its first part and continues with the second. */
  lemma PrefixThenRest(prefix: string, rest: string)
    ensures prefix <= prefix + rest && (prefix + rest)[|prefix|..] == rest
  {
    assert (prefix + rest)[..|prefix|] == prefix;
  }

  /**
   * A request URL is the address, a slash and the trimmed path, followed by
   * a query from which every parameter is read back, in key order.
   */
  lemma RequestUrlRoundTrip(address: string, path: string, d: Dictionary)
    requires DistinctKeys(d)
    requires forall x :: x in d ==> IsPlain(x)
    ensures var url := RequestUrl(address, path, Some(d));
      var n := |address| + 1 + |Trim(path)|;
      n <= |url| && url[..n] == address + "/" + Trim(path) &&
      ParseQuery(url[n..]) == seq(|d|, i requires 0 <= i < |d| => Sent(SortByKey(d)[i]))
  {
    var prefix, query := address + "/" + Trim(path), ParametersString(Some(d));
    assert RequestUrl(address, path, Some(d)) == prefix + query;
    assert |prefix| == |address| + 1 + |Trim(path)|;
    ConcatParts(prefix, query);
    ParametersRoundTrip(d);
  }

  lemma ConcatParts(a: string, b: string)
    ensures (a + b)[..|a|] == a && (a + b)[|a|..] == b
  {
  }

  /** `GetType().Name[..^6]`: the type name without its last six characters; None where the slice throws. */
  function ClientName(typeName: string): (r: Option<string>)
    ensures r.Some? <==> |typeName| >= 6
    ensures r.Some? ==> |r.value| == |typeName| - 6 && r.value + typeName[|typeName| - 6..] == typeName
  {
    if |typeName| >= 6 then Some(typeName[..|typeName| - 6]) else None
  }
}
