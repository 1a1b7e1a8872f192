/** The slice of Avro the runner touches: the schema's field lookup, the
    generated record's field lookup, and `toString` of a field value. The
    random generator itself is not part of this model; records are inputs. */
module Avro {
  import opened Wrappers

  /** A field value of a generated record. `Null` is the Java null that a
      nullable (union with "null") field can hold; `Other` stands for every
      remaining Avro type (float, bytes, enum, nested record, ...) by the text
      its `toString` produces. */
  datatype Value =
    | Null
    | Str(text: string)
    | Long(n: int)
    | Bool(b: bool)
    | Other(rendered: string)

  /** The record schema's field names in declaration order. */
  type Schema = seq<string>

  /** Avro requires the field names of a record schema to be distinct. */
  predicate WellFormed(schema: Schema) {
    forall i, j :: 0 <= i < j < |schema| ==> schema[i] != schema[j]
  }

  /** `schema.getField(name)`: the position of the field, or None for the
      Java null returned when there is no such field. */
  function GetField(schema: Schema, name: string): (r: Option<nat>)
    ensures r.None? <==> name !in schema
    ensures r.Some? ==> r.value < |schema| && schema[r.value] == name && name !in schema[..r.value]
  {
    if |schema| == 0 then None
    else if schema[0] == name then Some(0)
    else match GetField(schema[1..], name)
      case None => None
      case Some(p) =>
        assert schema[1..][..p] == schema[1..p + 1];
        Some(p + 1)
  }

  /** In a well-formed schema a field's position is the only one holding its name. */
  lemma GetFieldUnique(schema: Schema, name: string, i: nat)
    requires WellFormed(schema) && i < |schema| && schema[i] == name
    ensures GetField(schema, name) == Some(i)
  {
  }

  /** One generated record: its field values by name. */
  type Record = map<string, Value>

  /** A record generated from `schema` has exactly the schema's fields. */
  predicate Conforms(record: Record, schema: Schema) {
    && (forall name :: name in record ==> name in schema)
    && (forall name :: name in schema ==> name in record)
  }

  /** The decimal digit for `d`. */
  function Digit(d: nat): char
    requires d < 10
  {
    ('0' as int + d) as char
  }

  /** The value of a string of decimal digits. */
  function DigitsValue(s: string): nat
    requires forall i :: 0 <= i < |s| ==> '0' <= s[i] <= '9'
  {
    if |s| == 0 then 0
    else 10 * DigitsValue(s[..|s| - 1]) + (s[|s| - 1] as int - '0' as int)
  }

  /** `Long.toString` of a non-negative number: decimal digits without
      leading zeros. */
  function Decimal(n: nat): (r: string)
    ensures |r| >= 1
    ensures forall i :: 0 <= i < |r| ==> '0' <= r[i] <= '9'
    ensures r[0] == '0' ==> n == 0
    ensures |r| > 1 ==> r[0] != '0'
  {
    if n < 10 then [Digit(n)] else Decimal(n / 10) + [Digit(n % 10)]
  }

  /** Reading the decimal text back gives the number. */
  lemma {:induction false} DecimalValue(n: nat)
    ensures DigitsValue(Decimal(n)) == n
  {
    if n >= 10 {
      DecimalValue(n / 10);
      var r := Decimal(n);
      assert r[..|r| - 1] == Decimal(n / 10);
      assert DigitsValue(r) == 10 * (n / 10) + n % 10;
    }
  }

  /** `Long.toString`: a minus sign before the digits of a negative number.
      The digits read back to the magnitude and have no leading zero. */
  function LongToString(n: int): (r: string)
    ensures |r| >= 1
    ensures n < 0 <==> r[0] == '-'
    ensures n >= 0 ==>
      ((forall i :: 0 <= i < |r| ==> '0' <= r[i] <= '9') && DigitsValue(r) == n && (|r| > 1 ==> r[0] != '0'))
    ensures n < 0 ==>
      (|r| >= 2 && (forall i :: 1 <= i < |r| ==> '0' <= r[i] <= '9')
       && DigitsValue(r[1..]) == -n && (|r| > 2 ==> r[1] != '0'))
  {
    if n < 0 then
      DecimalValue(-n);
      assert ("-" + Decimal(-n))[1..] == Decimal(-n);
      "-" + Decimal(-n)
    else
      DecimalValue(n);
      Decimal(n)
  }

  /** `value.toString()`, or None for the NullPointerException a null
      value throws. */
  function ToStr(v: Value): (r: Option<string>)
    ensures r.None? <==> v.Null?
  {
    match v
    case Null => None
    case Str(text) => Some(text)
    case Long(n) => Some(LongToString(n))
    case Bool(b) => Some(if b then "true" else "false")
    case Other(rendered) => Some(rendered)
  }
}
