/** The runner's template helpers: topic validation (`validateTopic`), topic
    resolution (`buildTopic`) and the handling of the configured key. */
module Templates {
  import opened Wrappers
  import opened JavaString
  import opened Placeholder
  import opened Avro

  /** Why a record could not fill in a template. Either way the Java code
      ends up with a RuntimeException: `record.get` of a name that is not a
      field returns null or throws, and a null value makes `toString` or
      `Properties.put` throw a NullPointerException. */
  datatype ResolveError = MissingField(name: string) | NullValue(name: string)

  /** The field a placeholder level names is missing from the schema. */
  predicate UnknownReference(level: string, schema: Schema) {
    IsPlaceholder(level) && ProcessPlaceholder(level) !in schema
  }

  /** The loop of `validateTopic` over the levels, returning false at the
      first placeholder whose field the schema lacks. */
  function ValidateLevels(levels: seq<string>, schema: Schema): (ok: bool)
    ensures ok <==> forall i :: 0 <= i < |levels| ==> !UnknownReference(levels[i], schema)
  {
    if |levels| == 0 then true
    else
      var name := ProcessPlaceholder(levels[0]);
      ChangedIffPlaceholder(levels[0]);
      if name != levels[0] && GetField(schema, name).None? then false
      else
        assert forall i :: 1 <= i < |levels| ==> levels[i] == levels[1..][i - 1];
        ValidateLevels(levels[1..], schema)
  }

  /** `validateTopic`: every placeholder level of the topic names a schema
      field; literal levels are never checked. */
  function ValidateTopic(topic: string, schema: Schema): (ok: bool)
    ensures ok <==> forall i :: 0 <= i < |Split(topic)| ==> !UnknownReference(Split(topic)[i], schema)
  {
    ValidateLevels(Split(topic), schema)
  }

  /** One level of `buildTopic`: a placeholder becomes the text of the
      record's value, a literal stays as it is. */
  function ResolveLevel(level: string, record: Record): (r: Result<string, ResolveError>)
    ensures !IsPlaceholder(level) ==> r == Success(level)
    ensures IsPlaceholder(level) ==>
      var name := ProcessPlaceholder(level);
      (r.Success? <==> name in record && !record[name].Null?)
      && (r.Success? ==> ToStr(record[name]) == Some(r.value))
  {
    var name := ProcessPlaceholder(level);
    ChangedIffPlaceholder(level);
    if name == level then Success(level)
    else if name !in record then Failure(MissingField(name))
    else match ToStr(record[name])
      case None => Failure(NullValue(name))
      case Some(text) => Success(text)
  }

  /** `resolved` is the level-by-level resolution of `levels`. */
  predicate ResolvesTo(levels: seq<string>, record: Record, resolved: seq<string>) {
    |resolved| == |levels|
    && forall i :: 0 <= i < |levels| ==> ResolveLevel(levels[i], record) == Success(resolved[i])
  }

  /** The loop of `buildTopic`, which throws at the first level the record
      cannot fill. */
  function BuildLevels(levels: seq<string>, record: Record): (r: Result<seq<string>, ResolveError>)
    ensures r.Success? ==> ResolvesTo(levels, record, r.value)
    ensures r.Failure? <==> exists i :: 0 <= i < |levels| && ResolveLevel(levels[i], record).Failure?
  {
    if |levels| == 0 then Success([])
    else match ResolveLevel(levels[0], record)
      case Failure(e) => Failure(e)
      case Success(first) =>
        assert forall i :: 1 <= i < |levels| ==> levels[i] == levels[1..][i - 1];
        match BuildLevels(levels[1..], record)
        case Failure(e) => Failure(e)
        case Success(rest) => Success([first] + rest)
  }

  /** `buildTopic`: split the topic, resolve each level, join with `/`. */
  function BuildTopic(topic: string, record: Record): (r: Result<string, ResolveError>)
    ensures r.Success? <==> forall i :: 0 <= i < |Split(topic)| ==> ResolveLevel(Split(topic)[i], record).Success?
    ensures r.Success? ==> exists resolved :: ResolvesTo(Split(topic), record, resolved) && r.value == Join(resolved)
  {
    match BuildLevels(Split(topic), record)
    case Failure(e) => Failure(e)
    case Success(resolved) => Success(Join(resolved))
  }

  /** A level resolution is unique, so the resolved levels are determined
      by the topic and the record. */
  lemma ResolvesToUnique(levels: seq<string>, record: Record, a: seq<string>, b: seq<string>)
    requires ResolvesTo(levels, record, a) && ResolvesTo(levels, record, b)
    ensures a == b
  {
    assert forall i :: 0 <= i < |a| ==> Success(a[i]) == ResolveLevel(levels[i], record) == Success(b[i]);
  }

  /** Any resolution of the topic's levels, joined, is what `buildTopic` returns. */
  lemma BuildTopicIsJoinedResolution(topic: string, record: Record, resolved: seq<string>)
    requires ResolvesTo(Split(topic), record, resolved)
    ensures BuildTopic(topic, record) == Success(Join(resolved))
  {
    var levels := Split(topic);
    assert forall i :: 0 <= i < |levels| ==> ResolveLevel(levels[i], record).Success?;
    var other :| ResolvesTo(levels, record, other) && BuildTopic(topic, record).value == Join(other);
    ResolvesToUnique(levels, record, resolved, other);
  }

  /** A topic without placeholder levels resolves, for any record, to the
      topic with its trailing slashes removed by `split`. */
  lemma LiteralTopicResolvesToItself(topic: string, record: Record)
    requires forall i :: 0 <= i < |Split(topic)| ==> !IsPlaceholder(Split(topic)[i])
    ensures BuildTopic(topic, record) == Success(StripTrailingSlashes(topic))
  {
    assert ResolvesTo(Split(topic), record, Split(topic));
    BuildTopicIsJoinedResolution(topic, record, Split(topic));
    JoinSplit(topic);
  }

  /** ... and to the topic itself when it has no trailing slash. */
  lemma LiteralTopicUnchanged(topic: string, record: Record)
    requires |topic| == 0 || topic[|topic| - 1] != Slash
    requires forall i :: 0 <= i < |Split(topic)| ==> !IsPlaceholder(Split(topic)[i])
    ensures BuildTopic(topic, record) == Success(topic)
  {
    LiteralTopicResolvesToItself(topic, record);
  }

  /** A placeholder never contains the level delimiter. */
  lemma PlaceholderIsOneLevel(name: string)
    requires IsFieldName(name)
    ensures SlashFree(Wrap(name))
  {
    var w := Wrap(name);
    assert !IsWordChar(Slash);
    forall i | 0 <= i < |w| ensures w[i] != Slash {
      if 0 < i < |w| - 1 {
        assert w[i] == name[i - 1];
      }
    }
  }

  /** A three-level topic `a/{name}/c` with literal outer levels: it
      validates exactly when the schema has the field, and resolves to
      `a/<value>/c`, or fails when the record lacks the field. */
  lemma OnePlaceholderTopic(a: string, name: string, c: string, schema: Schema, record: Record)
    requires SlashFree(a) && SlashFree(c) && c != ""
    requires !IsPlaceholder(a) && !IsPlaceholder(c) && IsFieldName(name)
    ensures Split(Join([a, Wrap(name), c])) == [a, Wrap(name), c]
    ensures ValidateTopic(Join([a, Wrap(name), c]), schema) <==> name in schema
    ensures name in record && ToStr(record[name]).Some? ==>
      BuildTopic(Join([a, Wrap(name), c]), record) == Success(Join([a, ToStr(record[name]).value, c]))
    ensures name !in record ==> BuildTopic(Join([a, Wrap(name), c]), record).Failure?
  {
    var levels := [a, Wrap(name), c];
    PlaceholderIsOneLevel(name);
    SplitJoin(levels);
    ProcessWrap(name);
    assert UnknownReference(levels[1], schema) <==> name !in schema;
    if name in record && ToStr(record[name]).Some? {
      var resolved := [a, ToStr(record[name]).value, c];
      assert ResolvesTo(levels, record, resolved);
      BuildTopicIsJoinedResolution(Join(levels), record, resolved);
    }
    if name !in record {
      assert ResolveLevel(levels[1], record).Failure?;
    }
  }

  /** A string value holding `/` adds levels: the topic `{name}` resolves to
      a topic that `split` cuts into two levels. */
  lemma SlashInValueAddsLevel(name: string, record: Record, x: string, y: string)
    requires IsFieldName(name) && SlashFree(x) && SlashFree(y) && y != ""
    requires name in record && record[name] == Str(Join([x, y]))
    ensures BuildTopic(Wrap(name), record) == Success(Join([x, y]))
    ensures |Split(Wrap(name))| == 1 && |Split(Join([x, y]))| == 2
  {
    PlaceholderIsOneLevel(name);
    ProcessWrap(name);
    SplitJoin([Wrap(name)]);
    assert Split(Wrap(name)) == [Wrap(name)];
    assert ResolvesTo([Wrap(name)], record, [Join([x, y])]);
    BuildTopicIsJoinedResolution(Wrap(name), record, [Join([x, y])]);
    SplitJoin([x, y]);
  }

  /** A topic that validates against the schema resolves against every
      record of that schema whose fields are not null. */
  lemma ValidatedTopicResolves(topic: string, schema: Schema, record: Record)
    requires ValidateTopic(topic, schema)
    requires Conforms(record, schema)
    requires forall name :: name in record ==> !record[name].Null?
    ensures BuildTopic(topic, record).Success?
  {
  }

  /** The key check in `run`: only a placeholder key is checked, and it must
      name a schema field. */
  function ValidateKey(key: string, schema: Schema): (ok: bool)
    ensures ok <==> !UnknownReference(key, schema)
  {
    var newKey := ProcessPlaceholder(key);
    ChangedIffPlaceholder(key);
    !(newKey != key && GetField(schema, newKey).None?)
  }

  /** A literal key always passes the key check. */
  lemma LiteralKeyValidates(key: string, schema: Schema)
    requires !IsPlaceholder(key)
    ensures ValidateKey(key, schema)
  {
  }

  /** `record.get(newKey)` as the partition key: the placeholder's field for
      a placeholder key, and for a literal key the field named by the literal
      itself (the code looks it up rather than using it verbatim). */
  function ResolveKey(key: string, record: Record): (r: Result<Value, ResolveError>)
    ensures r.Success? <==> ProcessPlaceholder(key) in record && !record[ProcessPlaceholder(key)].Null?
    ensures r.Success? ==> r.value == record[ProcessPlaceholder(key)]
  {
    var newKey := ProcessPlaceholder(key);
    if newKey !in record then Failure(MissingField(newKey))
    else if record[newKey].Null? then Failure(NullValue(newKey))
    else Success(record[newKey])
  }

  /** A literal key that is not a field name of the record can never be
      set, whatever the record's values. */
  lemma LiteralKeyIsLookedUp(key: string, record: Record)
    requires !IsPlaceholder(key)
    ensures ResolveKey(key, record).Success? <==> key in record && !record[key].Null?
    ensures key !in record ==> ResolveKey(key, record) == Failure(MissingField(key))
  {
  }
}
