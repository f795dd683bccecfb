/**
 * JsonStringToArrayConverter: a JSON property that may hold null, a single
 * string or an array of strings is read as a nullable string array, and
 * written back as null or an array. JSON text is modelled as the sequence of
 * tokens a reader sees and a writer emits.
 */
module JsonConverters {
  import opened Wrappers

  /** The JSON tokens the converter can meet; `text` and `name` are already unescaped. */
  datatype Token =
    | Null
    | Str(text: string)
    | StartArray
    | EndArray
    | StartObject
    | EndObject
    | PropertyName(name: string)
    | Number(digits: string)
    | True
    | False

  /** What the reader can throw. */
  datatype JsonError =
    | UnexpectedEnd        // the token stream ends inside a value
    | UnexpectedToken      // `JsonException`: an array element that is not a string or null
    | InvalidOperation     // `GetString` on a token that holds no string

  /** A `string[]?` whose elements may themselves be null. */
  type Values = Option<seq<Option<string>>>

  /** The token `WriteStringValue` emits for one element: a null element is written as JSON null. */
  function ElementToken(value: Option<string>): Token {
    match value
    case None => Null
    case Some(s) => Str(s)
  }

  /** The tokens of an array's elements, in order. */
  function Elements(values: seq<Option<string>>): (r: seq<Token>)
    ensures |r| == |values|
  {
    seq(|values|, i requires 0 <= i < |values| => ElementToken(values[i]))
  }

  /** What `Write` emits: JSON null, or an array of exactly the elements, in order. */
  function Encode(values: Values): (r: seq<Token>)
    ensures values.None? ==> r == [Null]
    ensures values.Some? ==> |r| == |values.value| + 2 && r[0] == StartArray && r[|r| - 1] == EndArray
    ensures values.Some? ==> forall i :: 0 < i < |r| - 1 ==> r[i] == ElementToken(values.value[i - 1])
    ensures forall i :: 0 < i < |r| - 1 ==> r[i].Null? || r[i].Str?
  {
    match values
    case None => [Null]
    case Some(vs) => [StartArray] + Elements(vs) + [EndArray]
  }

  /**
   * `JsonSerializer.Deserialize<string[]>` after the opening bracket: string
   * and null elements up to the closing bracket; anything else throws. On
   * success it also returns the tokens after the closing bracket.
   */
  function ReadElements(tokens: seq<Token>): (r: Result<(seq<Option<string>>, seq<Token>), JsonError>)
    ensures r.Ok? ==> |r.value.1| < |tokens| && r.value.1 == tokens[|tokens| - |r.value.1|..]
    decreases |tokens|
  {
    if tokens == [] then Err(UnexpectedEnd)
    else
      match tokens[0]
      case EndArray => Ok(([], tokens[1..]))
      case Null => ReadMore(None, ReadElements(tokens[1..]))
      case Str(s) => ReadMore(Some(s), ReadElements(tokens[1..]))
      case _ => Err(UnexpectedToken)
  }

  /** One element, then what the rest of the array read to. */
  function ReadMore(first: Option<string>, rest: Result<(seq<Option<string>>, seq<Token>), JsonError>)
    : (r: Result<(seq<Option<string>>, seq<Token>), JsonError>)
    ensures r.Ok? <==> rest.Ok?
    ensures r.Ok? ==> r.value == ([first] + rest.value.0, rest.value.1)
  {
    match rest
    case Ok((values, after)) => Ok(([first] + values, after))
    case Err(e) => Err(e)
  }

  /**
   * `Read`: null reads as null, an array through the array reader, a string
   * as the one-element array of it, and any other token through `GetString`,
   * which yields a property name and throws on the rest. On success it
   * returns the value and the tokens after it.
   */
  function Read(tokens: seq<Token>): (r: Result<(Values, seq<Token>), JsonError>)
    ensures tokens == [] ==> r == Err(UnexpectedEnd)
    ensures r.Ok? ==> |r.value.1| < |tokens| && r.value.1 == tokens[|tokens| - |r.value.1|..]
  {
    if tokens == [] then Err(UnexpectedEnd)
    else
      match tokens[0]
      case Null => Ok((None, tokens[1..]))
      case StartArray =>
        (match ReadElements(tokens[1..])
         case Ok((values, after)) => Ok((Some(values), after))
         case Err(e) => Err(e))
      case Str(s) => Ok((Some([Some(s)]), tokens[1..]))
      case PropertyName(name) => Ok((Some([Some(name)]), tokens[1..]))
      case _ => Err(InvalidOperation)
  }

  /** A `Utf8JsonWriter`, as the tokens written so far. */
  class Writer {
    var tokens: seq<Token>

    constructor()
      ensures tokens == []
    {
      tokens := [];
    }

    method WriteNullValue()
      modifies this
      ensures tokens == old(tokens) + [Null]
    {
      tokens := tokens + [Null];
    }

    method WriteStartArray()
      modifies this
      ensures tokens == old(tokens) + [StartArray]
    {
      tokens := tokens + [StartArray];
    }

    method WriteEndArray()
      modifies this
      ensures tokens == old(tokens) + [EndArray]
    {
      tokens := tokens + [EndArray];
    }

    /** `WriteStringValue(string?)`: a string, or JSON null for a null string. */
    method WriteStringValue(value: Option<string>)
      modifies this
      ensures tokens == old(tokens) + [ElementToken(value)]
    {
      tokens := tokens + [ElementToken(value)];
    }
  }

  /**
   * `Write`: null as JSON null; otherwise the opening bracket, the elements
   * (the single-element case on its own branch), and the closing bracket.
   */
  method Write(writer: Writer, values: Values)
    modifies writer
    ensures writer.tokens == old(writer.tokens) + Encode(values)
  {
    if values == None {
      writer.WriteNullValue();
      return;
    }
    var vs := values.value;
    writer.WriteStartArray();
    if |vs| == 1 {
      writer.WriteStringValue(vs[0]);
      assert Elements(vs) == [ElementToken(vs[0])];
    } else {
      for i := 0 to |vs|
        invariant writer.tokens == old(writer.tokens) + [StartArray] + Elements(vs[..i])
      {
        assert Elements(vs[..i + 1]) == Elements(vs[..i]) + [ElementToken(vs[i])];
        writer.WriteStringValue(vs[i]);
      }
      assert vs[..|vs|] == vs;
    }
    writer.WriteEndArray();
  }

  /** The array reader returns the elements it is given, and the tokens after the closing bracket. */
  lemma {:induction false} ReadElementsOfElements(values: seq<Option<string>>, rest: seq<Token>)
    ensures ReadElements(Elements(values) + [EndArray] + rest) == Ok((values, rest))
  {
    var tokens := Elements(values) + [EndArray] + rest;
    if values == [] {
      assert tokens == [EndArray] + rest;
    } else {
      assert tokens[0] == ElementToken(values[0]);
      assert tokens[1..] == Elements(values[1..]) + [EndArray] + rest;
      ReadElementsOfElements(values[1..], rest);
      assert [values[0]] + values[1..] == values;
    }
  }

  /** Reading what `Write` produced gives back the value written, and nothing more is consumed. */
  lemma RoundTrip(values: Values, rest: seq<Token>)
    ensures Read(Encode(values) + rest) == Ok((values, rest))
  {
    match values
    case None =>
      assert (Encode(values) + rest)[1..] == rest;
    case Some(vs) =>
      var tokens := Encode(values) + rest;
      assert tokens[1..] == Elements(vs) + [EndArray] + rest;
      ReadElementsOfElements(vs, rest);
  }

  /**
   * A single string reads as the one-element array of it, which is written
   * back as an array: the converter normalises a string to an array.
   */
  lemma StringReadsAsArray(s: string, rest: seq<Token>)
    ensures Read([Str(s)] + rest) == Ok((Some([Some(s)]), rest))
    ensures Encode(Some([Some(s)])) == [StartArray, Str(s), EndArray]
  {
    assert ([Str(s)] + rest)[1..] == rest;
    assert Elements([Some(s)]) == [Str(s)];
  }

  /** Array elements that are neither strings nor null make the read fail. */
  lemma NonStringElementFails(values: seq<Option<string>>, bad: Token, rest: seq<Token>)
    requires !bad.Str? && !bad.Null? && bad != EndArray
    ensures Read([StartArray] + Elements(values) + [bad] + rest) == Err(UnexpectedToken)
  {
    ElementsThenBad(values, bad, rest);
    assert ([StartArray] + Elements(values) + [bad] + rest)[1..] == Elements(values) + [bad] + rest;
  }

  lemma {:induction false} ElementsThenBad(values: seq<Option<string>>, bad: Token, rest: seq<Token>)
    requires !bad.Str? && !bad.Null? && bad != EndArray
    ensures ReadElements(Elements(values) + [bad] + rest) == Err(UnexpectedToken)
  {
    var tokens := Elements(values) + [bad] + rest;
    if values == [] {
      assert tokens == [bad] + rest;
    } else {
      assert tokens[0] == ElementToken(values[0]);
      assert tokens[1..] == Elements(values[1..]) + [bad] + rest;
      ElementsThenBad(values[1..], bad, rest);
    }
  }

  /** An array left open makes the read fail. */
  lemma {:induction false} UnclosedArrayFails(values: seq<Option<string>>)
    ensures ReadElements(Elements(values)) == Err(UnexpectedEnd)
  {
    if values != [] {
      assert Elements(values)[1..] == Elements(values[1..]);
      UnclosedArrayFails(values[1..]);
    }
  }
}
