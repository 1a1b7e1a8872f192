/** `ValidationService`: a second set of placeholder and topic predicates,
    modelled as written. Its topic predicate is not the runner's: it is
    existential, and it looks up the raw level, braces included. */
module ValidationService {
  import opened Wrappers
  import opened JavaString
  import Placeholder
  import opened Avro
  import Templates

  /** `isPlaceholder`: the same anchored `\{\w+\}` match the runner uses. */
  function IsPlaceholder(value: string): (r: bool)
    ensures r <==> Placeholder.ProcessPlaceholder(value) != value
  {
    Placeholder.ChangedIffPlaceholder(value);
    Placeholder.IsPlaceholder(value)
  }

  /** `isPlaceholder` accepts exactly the wrapped field names. */
  lemma IsPlaceholderIffWrappedName(value: string)
    ensures IsPlaceholder(value) <==> exists name :: Placeholder.IsFieldName(name) && value == Placeholder.Wrap(name)
  {
    Placeholder.PlaceholderIsWrappedName(value);
  }

  /** `isSchemaElement`: `schema.getField(field)` is not null. */
  function IsSchemaElement(field: string, schema: Schema): (r: bool)
    ensures r <==> field in schema
  {
    GetField(schema, field).Some?
  }

  /** A level `isValidTopic` accepts: a placeholder that, braces and all,
      is a field name of the schema. */
  predicate Accepted(level: string, schema: Schema) {
    IsPlaceholder(level) && IsSchemaElement(level, schema)
  }

  /** A for-each loop that returns at the first element satisfying `p`,
      from position `i` on: that element's position, or None. */
  function FirstFrom<T>(xs: seq<T>, p: T -> bool, i: nat): (r: Option<nat>)
    requires i <= |xs|
    ensures r.None? <==> forall j :: i <= j < |xs| ==> !p(xs[j])
    ensures r.Some? ==> i <= r.value < |xs| && p(xs[r.value])
    ensures r.Some? ==> forall j :: i <= j < r.value ==> !p(xs[j])
    decreases |xs| - i
  {
    if i == |xs| then None
    else if p(xs[i]) then Some(i)
    else FirstFrom(xs, p, i + 1)
  }

  /** The loop of `isValidTopic`: the position of the first accepted level,
      where the method returns true. */
  function FirstAcceptedLevel(levels: seq<string>, schema: Schema): (r: Option<nat>)
    ensures r.None? <==> forall i :: 0 <= i < |levels| ==> !Accepted(levels[i], schema)
    ensures r.Some? ==> r.value < |levels| && Accepted(levels[r.value], schema)
    ensures r.Some? ==> forall j :: 0 <= j < r.value ==> !Accepted(levels[j], schema)
  {
    FirstFrom(levels, l => Accepted(l, schema), 0)
  }

  /** `isValidTopic`: true exactly when some level is a placeholder whose
      raw text is a schema field name. */
  function IsValidTopic(topic: string, schema: Schema): (r: bool)
    ensures r <==> exists i :: 0 <= i < |Split(topic)| && IsPlaceholder(Split(topic)[i]) && Split(topic)[i] in schema
  {
    FirstAcceptedLevel(Split(topic), schema).Some?
  }

  /** A topic with no placeholder level is never valid for this predicate,
      while the runner's check always accepts it. */
  lemma NoPlaceholderTopicNeverValid(topic: string, schema: Schema)
    requires forall i :: 0 <= i < |Split(topic)| ==> !Placeholder.IsPlaceholder(Split(topic)[i])
    ensures !IsValidTopic(topic, schema)
    ensures Templates.ValidateTopic(topic, schema)
  {
  }

  /** When no field name contains `{` (as with every legal Avro name), no
      topic is valid for this predicate. */
  lemma BraceFreeSchemaNeverValid(topic: string, schema: Schema)
    requires forall k :: 0 <= k < |schema| ==> '{' !in schema[k]
    ensures !IsValidTopic(topic, schema)
  {
    var levels := Split(topic);
    forall i | 0 <= i < |levels| && IsPlaceholder(levels[i])
      ensures levels[i] !in schema
    {
      assert levels[i][0] == '{';
    }
  }

  /** The two topic checks disagree in both directions: a placeholder that
      names a real field passes the runner's check and fails this one, and a
      placeholder whose braced text is itself a field name fails the
      runner's check and passes this one. */
  lemma TopicChecksDisagree(name: string)
    requires Placeholder.IsFieldName(name)
    ensures Templates.ValidateTopic(Placeholder.Wrap(name), [name])
    ensures !IsValidTopic(Placeholder.Wrap(name), [name])
    ensures !Templates.ValidateTopic(Placeholder.Wrap(name), [Placeholder.Wrap(name)])
    ensures IsValidTopic(Placeholder.Wrap(name), [Placeholder.Wrap(name)])
  {
    var w := Placeholder.Wrap(name);
    Placeholder.ProcessWrap(name);
    Templates.PlaceholderIsOneLevel(name);
    assert Split(w) == [w];
    assert w != name;
  }
}
