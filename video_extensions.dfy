/**
 * VideoExtension: a file extension with a display name, the table of known
 * video extensions, and its equality rules, which compare extensions
 * without regard to case and accept a string with or without one leading dot.
 */
module VideoExtensions {
  import opened Ascii

  datatype VideoExtension = VideoExtension(extension: string, name: string)

  /** The constructor: the extension is stored lower-cased, the name as given. */
  function NewVideoExtension(extension: string, name: string): (v: VideoExtension)
    ensures IsLower(v.extension) && EqualsIgnoreCase(v.extension, extension)
    ensures |v.extension| == |extension|
    ensures v.name == name
  {
    LowerOfLower(extension);
    VideoExtension(Lower(extension), name)
  }

  /** The (extension, name) pairs of `VideoExtension.Extensions`, in table order. */
  const Table: seq<(string, string)> := [
    ("3gp", "3rd Generation Partnership Project"),
    ("avi", "Audio Video Interleave"),
    ("divx", "DivX video format"),
    ("mp4", "MPEG-4 Part 14"),
    ("m4v", "MPEG-4 Video File"),
    ("mkv", "Matroska Video"),
    ("mpeg", "MPEG"),
    ("mpg", "MPEG"),
    ("ogv", "Ogg Video"),
    ("wmv", "Windows Media Video"),
    ("webm", "WebM")
  ]

  /** One constructed value per row, in row order. */
  function Construct(rows: seq<(string, string)>): (r: seq<VideoExtension>)
    ensures |r| == |rows|
    ensures forall i :: 0 <= i < |rows| ==> r[i] == NewVideoExtension(rows[i].0, rows[i].1)
  {
    if rows == [] then [] else [NewVideoExtension(rows[0].0, rows[0].1)] + Construct(rows[1..])
  }

  /** `VideoExtension.Extensions`: the table's rows, constructed. */
  const Extensions: seq<VideoExtension> := Construct(Table)

  /** `Deconstruct`: the extension and the name, from which the value is rebuilt exactly. */
  function Deconstruct(v: VideoExtension): (r: (string, string))
    ensures VideoExtension(r.0, r.1) == v
  {
    (v.extension, v.name)
  }

  /** `ToString()`: the extension, a space, and the name in parentheses. */
  function ToString(v: VideoExtension): (r: string)
    ensures |r| == |v.extension| + |v.name| + 3
    ensures r[..|v.extension|] == v.extension
    ensures r[|v.extension|..|v.extension| + 2] == " ("
    ensures r[|v.extension| + 2..|r| - 1] == v.name
    ensures r[|r| - 1] == ')'
  {
    v.extension + " (" + v.name + ")"
  }

  /** `Equals(VideoExtension)`: the extensions agree ignoring case; names do not matter. */
  predicate EqualsExtension(v: VideoExtension, other: VideoExtension): (r: bool)
    ensures r <==>
      (|v.extension| == |other.extension| &&
       forall i :: 0 <= i < |v.extension| ==> LowerChar(v.extension[i]) == LowerChar(other.extension[i]))
  {
    EqualsIgnoreCase(v.extension, other.extension)
  }

  /** The text with one leading dot removed, if it has one. */
  function StripDot(s: string): (r: string)
    ensures s != [] && s[0] == '.' ==> r == s[1..]
    ensures s == [] || s[0] != '.' ==> r == s
  {
    if s != [] && s[0] == '.' then s[1..] else s
  }

  /** `Equals(string)`: false for blank text; otherwise one leading dot is dropped and case is ignored. */
  predicate EqualsText(v: VideoExtension, s: string): (r: bool)
    ensures r ==> exists i :: 0 <= i < |s| && !IsWhiteSpace(s[i])
    ensures r <==>
      (!IsEmptyOrWhiteSpace(s) && |StripDot(s)| == |v.extension| &&
       forall i :: 0 <= i < |v.extension| ==> LowerChar(v.extension[i]) == LowerChar(StripDot(s)[i]))
  {
    !IsEmptyOrWhiteSpace(s) && EqualsIgnoreCase(v.extension, StripDot(s))
  }

  /** What `Equals(object)` can be handed. */
  datatype Object = Null | Text(text: string) | Instance(value: VideoExtension) | Foreign

  /**
   * `Equals(object)`: null and foreign types are unequal, a string goes to
   * the text rule, another VideoExtension to the extension rule (the
   * same-reference shortcut returns what that rule does, see EqualsReflexive).
   */
  predicate Equals(v: VideoExtension, obj: Object): (r: bool)
    ensures r ==> obj.Text? || obj.Instance?
    ensures obj.Text? ==> (r <==> EqualsText(v, obj.text))
    ensures obj.Instance? ==> (r <==> EqualsExtension(v, obj.value))
  {
    match obj
    case Null => false
    case Text(s) => EqualsText(v, s)
    case Instance(other) => EqualsExtension(v, other)
    case Foreign => false
  }

  /** `GetHashCode()`: the hash of the extension under the runtime's string hash. */
  function GetHashCode(v: VideoExtension, stringHash: string -> int): (r: int)
    ensures forall other: VideoExtension ::
      IsLower(v.extension) && IsLower(other.extension) && EqualsExtension(v, other) ==> r == stringHash(other.extension)
  {
    LowerCaseIsEqual(v.extension);
    stringHash(v.extension)
  }

  /** The constructor stores "mkv" as given: it is already lower case. */
  lemma MkvConstructed()
    ensures NewVideoExtension("mkv", "Matroska Video") == VideoExtension("mkv", "Matroska Video")
  {
    LowerOfLower("mkv");
  }

  /** A leading dot and upper case do not matter. */
  lemma TextMatchExamples()
    ensures var mkv := VideoExtension("mkv", "Matroska Video");
      EqualsText(mkv, ".MKV") && EqualsText(mkv, "mkv") && EqualsText(mkv, "Mkv")
  {
    assert ".MKV"[1..] == "MKV";
    assert Lower("MKV") == "mkv";
    assert Lower("Mkv") == "mkv";
  }

  /** Two dots do, blank text never matches, and neither does another extension. */
  lemma TextMismatchExamples()
    ensures var mkv := VideoExtension("mkv", "Matroska Video");
      !EqualsText(mkv, "..mkv") && !EqualsText(mkv, "") && !EqualsText(mkv, " ") && !EqualsText(mkv, "avi")
  {
    assert Lower("..mkv"[1..])[0] == '.';
    assert Lower("avi")[0] == 'a';
  }

  /** The equality is an equivalence on VideoExtension values. */
  lemma EqualsReflexive(v: VideoExtension)
    ensures Equals(v, Instance(v))
  {
  }

  lemma EqualsSymmetric(a: VideoExtension, b: VideoExtension)
    ensures Equals(a, Instance(b)) <==> Equals(b, Instance(a))
  {
  }

  lemma EqualsTransitive(a: VideoExtension, b: VideoExtension, c: VideoExtension)
    requires Equals(a, Instance(b)) && Equals(b, Instance(c))
    ensures Equals(a, Instance(c))
  {
  }

  /** Names are ignored: the same extension with another name is equal. */
  lemma EqualsIgnoresName(extension: string, name1: string, name2: string)
    ensures Equals(NewVideoExtension(extension, name1), Instance(NewVideoExtension(extension, name2)))
  {
  }

  /** Constructed values that are equal have one stored extension, hence equal hash codes. */
  lemma EqualsImpliesSameHash(e1: string, n1: string, e2: string, n2: string, stringHash: string -> int)
    requires Equals(NewVideoExtension(e1, n1), Instance(NewVideoExtension(e2, n2)))
    ensures GetHashCode(NewVideoExtension(e1, n1), stringHash) == GetHashCode(NewVideoExtension(e2, n2), stringHash)
  {
    var a, b := NewVideoExtension(e1, n1), NewVideoExtension(e2, n2);
    LowerOfLower(a.extension);
    LowerOfLower(b.extension);
    assert a.extension == b.extension;
  }

  /** Each extension of the table is written in lower case. */
  lemma TableRowLower(i: nat)
    requires i < |Table|
    ensures IsLower(Table[i].0)
  {
    if i == 0 { assert Table[0].0 == "3gp"; }
    else if i == 1 { assert Table[1].0 == "avi"; }
    else if i == 2 { assert Table[2].0 == "divx"; }
    else if i == 3 { assert Table[3].0 == "mp4"; }
    else if i == 4 { assert Table[4].0 == "m4v"; }
    else if i == 5 { assert Table[5].0 == "mkv"; }
    else if i == 6 { assert Table[6].0 == "mpeg"; }
    else if i == 7 { assert Table[7].0 == "mpg"; }
    else if i == 8 { assert Table[8].0 == "ogv"; }
    else if i == 9 { assert Table[9].0 == "wmv"; }
    else { assert Table[10].0 == "webm"; }
  }

  /** Lower-casing leaves each extension of the table unchanged. */
  lemma TableLower()
    ensures forall i :: 0 <= i < |Table| ==> IsLower(Table[i].0) && Lower(Table[i].0) == Table[i].0
  {
    forall i | 0 <= i < |Table|
      ensures IsLower(Table[i].0) && Lower(Table[i].0) == Table[i].0
    {
      TableRowLower(i);
      LowerOfLower(Table[i].0);
    }
  }

  /** The table holds eleven entries whose stored extensions are the table's lower-case extensions. */
  lemma ExtensionsTable()
    ensures |Extensions| == 11
    ensures forall i :: 0 <= i < |Extensions| ==> Extensions[i] == VideoExtension(Table[i].0, Table[i].1) && IsLower(Extensions[i].extension)
  {
    TableLower();
    forall i | 0 <= i < |Extensions|
      ensures Extensions[i] == VideoExtension(Table[i].0, Table[i].1)
    {
      assert Extensions[i] == NewVideoExtension(Table[i].0, Table[i].1);
    }
  }
}
