/** Language: an ISO 639-1 code with a display name; two languages are equal when their codes are. */
module Languages {

  /** The constructor stores both parts exactly as given. */
  datatype Language = Language(shortName: string, name: string)

  /** `ToString()`: the code, a colon and a space, then the name. */
  function ToString(l: Language): (r: string)
    ensures |r| == |l.shortName| + 2 + |l.name|
    ensures r[..|l.shortName|] == l.shortName
    ensures r[|l.shortName|..|l.shortName| + 2] == ": "
    ensures r[|l.shortName| + 2..] == l.name
  {
    l.shortName + ": " + l.name
  }

  /** `Equals(Language)`: the codes are equal. */
  predicate EqualsLanguage(a: Language, b: Language): (r: bool)
    ensures r <==>
      (|a.shortName| == |b.shortName| && forall i :: 0 <= i < |a.shortName| ==> a.shortName[i] == b.shortName[i])
  {
    a.shortName == b.shortName
  }

  /** What `Equals(object)` can be handed; any other runtime type, a subclass included, is Foreign. */
  datatype Object = Null | Instance(value: Language) | Foreign

  /** `Equals(object)`: null and other types are unequal, a Language compares by code. */
  predicate Equals(l: Language, obj: Object): (r: bool)
    ensures r ==> obj.Instance?
    ensures obj.Instance? ==> (r <==> EqualsLanguage(l, obj.value))
  {
    match obj
    case Null => false
    case Instance(other) => EqualsLanguage(l, other)
    case Foreign => false
  }

  /** `GetHashCode()`: the hash of the code under the runtime's string hash. */
  function GetHashCode(l: Language, stringHash: string -> int): (r: int)
    ensures forall other: Language :: EqualsLanguage(l, other) ==> r == stringHash(other.shortName)
  {
    stringHash(l.shortName)
  }

  /** Languages with one code are equal whatever their names; different codes never are. */
  lemma EqualsIffSameCode(a: Language, b: Language)
    ensures Equals(a, Instance(b)) <==> a.shortName == b.shortName
    ensures a.shortName == b.shortName ==> Equals(a, Instance(Language(b.shortName, a.name + "x")))
  {
  }

  /** The same object is equal to itself, as the reference shortcut says. */
  lemma EqualsReflexive(l: Language)
    ensures Equals(l, Instance(l))
  {
  }

  lemma EqualsSymmetric(a: Language, b: Language)
    ensures Equals(a, Instance(b)) <==> Equals(b, Instance(a))
  {
  }

  lemma EqualsTransitive(a: Language, b: Language, c: Language)
    requires Equals(a, Instance(b)) && Equals(b, Instance(c))
    ensures Equals(a, Instance(c))
  {
  }

  /** Equal languages hash alike, whatever string hash the runtime uses. */
  lemma EqualsImpliesSameHash(a: Language, b: Language, stringHash: string -> int)
    requires Equals(a, Instance(b))
    ensures GetHashCode(a, stringHash) == GetHashCode(b, stringHash)
  {
  }
}
