/**
 * The parsed document tree (Jackson's JsonNode) and the accessors the ingestion
 * walk uses: path, get(0), asText, asInt, asBoolean, isEmpty, has, fieldNames and
 * iteration. `path` never yields null: a field that is not there is the Missing
 * node, whose text is "", whose int is 0, whose boolean is false and which has
 * no elements.
 */
module JsonTree {
  import opened Base
  import opened Text

  datatype Json =
    | JNull
    | JBool(b: bool)
    | JNum(n: int)                 // an integral number, of any size
    | JStr(s: string)
    | JArr(items: seq<Json>)
    | JObj(fields: seq<Field>)     // in document order
    | Missing                      // MissingNode: what `path` returns for an absent field

  datatype Field = Field(name: string, value: Json)

  const IntMin: int := -0x8000_0000
  const IntMax: int := 0x7fff_ffff

  /** The (int) cast Java applies to a long or BigInteger: keep the low 32 bits, signed. */
  function Int32(n: int): (r: int)
    ensures IntMin <= r <= IntMax
    ensures (r - n) % 0x1_0000_0000 == 0
    ensures IntMin <= n <= IntMax ==> r == n
  {
    (n - IntMin) % 0x1_0000_0000 + IntMin
  }

  /** node.path(name): the field's value on an object, Missing everywhere else. */
  function Path(node: Json, name: string): (r: Json)
    ensures !node.JObj? ==> r == Missing
    ensures r != Missing ==> exists i :: 0 <= i < |node.fields| && node.fields[i] == Field(name, r)
  {
    if node.JObj? then FieldValue(node.fields, name) else Missing
  }

  function FieldValue(fields: seq<Field>, name: string): (r: Json)
    ensures r != Missing ==> exists i :: 0 <= i < |fields| && fields[i] == Field(name, r)
  {
    if fields == [] then Missing
    else if fields[0].name == name then fields[0].value
    else
      var r := FieldValue(fields[1..], name);
      assert r != Missing ==> exists i :: 0 <= i < |fields[1..]| && fields[1..][i] == Field(name, r);
      r
  }

  /** node.has(name): true when an object has that field, even one holding null. */
  predicate Has(node: Json, name: string)
  {
    node.JObj? && exists i | 0 <= i < |node.fields| :: node.fields[i].name == name
  }

  /** `for (JsonNode e : node)`: array elements, object values, nothing otherwise. */
  function Elements(node: Json): (r: seq<Json>)
    ensures !node.JArr? && !node.JObj? ==> r == []
    ensures node.JArr? ==> r == node.items
    ensures node.JObj? ==> |r| == |node.fields| && forall i | 0 <= i < |r| :: r[i] == node.fields[i].value
  {
    match node
    case JArr(items) => items
    case JObj(fields) => seq(|fields|, i requires 0 <= i < |fields| => fields[i].value)
    case _ => []
  }

  /** node.fieldNames(): the field names of an object in order; nothing otherwise. */
  function FieldNames(node: Json): (r: seq<string>)
    ensures node.JObj? ==> |r| == |node.fields| && forall i | 0 <= i < |r| :: r[i] == node.fields[i].name
    ensures !node.JObj? ==> r == []
  {
    if node.JObj? then seq(|node.fields|, i requires 0 <= i < |node.fields| => node.fields[i].name) else []
  }

  /** node.get(0): the first element of a non-empty array; Java null (None) otherwise. */
  function First(node: Json): (r: Option<Json>)
    ensures r.Some? <==> node.JArr? && |node.items| > 0
    ensures r.Some? ==> r.value == node.items[0]
  {
    if node.JArr? && |node.items| > 0 then Some(node.items[0]) else None
  }

  /** node.isMissingNode() */
  predicate IsMissing(node: Json) { node.Missing? }

  /** node.isEmpty(), which is size() == 0: only a non-empty array or object is not empty. */
  predicate IsEmpty(node: Json)
  {
    match node
    case JArr(items) => |items| == 0
    case JObj(fields) => |fields| == 0
    case _ => true
  }

  /** node.asText(): a string's value, a number's decimal form, "" for containers and Missing. */
  function AsText(node: Json): (r: string)
    ensures node.JStr? ==> r == node.s
    ensures node.Missing? || node.JArr? || node.JObj? ==> r == ""
  {
    match node
    case JNull => "null"
    case JBool(b) => if b then "true" else "false"
    case JNum(n) => IntToString(n)
    case JStr(s) => s
    case _ => ""
  }

  /**
   * node.asInt(): numbers are cast to a 32-bit int; text holding an optionally
   * signed run of digits (after trimming) is read as Integer.parseInt reads it,
   * and gives the default 0 when it does not fit in an int; booleans give 1 or
   * 0; everything else, Missing included, gives 0.
   */
  function AsInt(node: Json): (r: int)
    ensures IntMin <= r <= IntMax
    ensures node.Missing? || node.JNull? || node.JArr? || node.JObj? ==> r == 0
  {
    match node
    case JNum(n) => Int32(n)
    case JBool(b) => if b then 1 else 0
    case JStr(s) => (match ParseInt(Trim(s)) case Some(v) => if IntMin <= v <= IntMax then v else 0 case None => 0)
    case _ => 0
  }

  /** node.asBoolean(): a boolean's value, a non-zero number, the text "true"; false otherwise. */
  function AsBoolean(node: Json): (r: bool)
    ensures node.Missing? || node.JNull? || node.JArr? || node.JObj? ==> !r
    ensures node.JBool? ==> r == node.b
  {
    match node
    case JBool(b) => b
    case JNum(n) => n != 0
    case JStr(s) => Trim(s) == "true"
    case _ => false
  }

  /** Reading a 32-bit number back from its own text gives the number again. */
  lemma TextOfNumberReadsBack(n: int)
    requires IntMin <= n <= IntMax
    ensures AsInt(JStr(AsText(JNum(n)))) == n
  {
    var s := IntToString(n);
    TrimOfSignedDigits(s);
    ParseIntRoundTrip(n);
  }

  /** Digit text too large or too small for an int reads as the default 0, not as a bound. */
  lemma OverflowingTextReadsZero(n: int)
    requires n < IntMin || IntMax < n
    ensures AsInt(JStr(IntToString(n))) == 0
  {
    var s := IntToString(n);
    TrimOfSignedDigits(s);
    ParseIntRoundTrip(n);
  }

  lemma TrimOfSignedDigits(s: string)
    requires |s| > 0 && AllDigits(s[1..]) && (s[0] == '-' || IsDigit(s[0]))
    ensures Trim(s) == s
  {
    assert s[|s| - 1] > ' ' by {
      if |s| > 1 { assert IsDigit(s[1..][|s| - 2]); }
    }
  }
}
