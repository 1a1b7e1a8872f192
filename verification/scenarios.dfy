/** End-to-end behaviours of `run`, stated for arbitrary topics, keys and
    records of the shapes involved. */
module Scenarios {
  import opened Wrappers
  import opened JavaString
  import opened Placeholder
  import opened Avro
  import opened Templates
  import opened Runner

  /** `sensors/{region}/reading` with a record whose `region` is `west`
      resolves to `sensors/west/reading`: any topic `a/{name}/c` whose field
      is a string resolves to `a/<string>/c`. */
  lemma StringFieldFillsTopic(a: string, name: string, c: string, record: Record, text: string)
    requires SlashFree(a) && SlashFree(c) && c != ""
    requires !IsPlaceholder(a) && !IsPlaceholder(c) && IsFieldName(name)
    requires name in record && record[name] == Str(text)
    ensures BuildTopic(Join([a, Wrap(name), c]), record) == Success(Join([a, text, c]))
  {
    OnePlaceholderTopic(a, name, c, [], record);
  }

  /** The key `{temp}` resolves to the record's typed `temp` value itself,
      e.g. the long 42, not its text. */
  lemma PlaceholderKeyResolves(name: string, schema: Schema, record: Record)
    requires IsFieldName(name) && name in schema
    requires name in record && !record[name].Null?
    ensures ValidateKey(Wrap(name), schema)
    ensures ResolveKey(Wrap(name), record) == Success(record[name])
  {
    ProcessWrap(name);
  }

  /** A literal key that is not a field name passes the pre-flight check,
      but the first body that gets a record then fails at the key step. */
  lemma LiteralKeyFailsFirstBody(cfg: Settings, t: Tick)
    requires !IsPlaceholder(cfg.key) && cfg.schemaFile.Some?
    requires t.generated.Some? && cfg.key !in t.generated.value && t.built
    ensures ValidateKey(cfg.key, cfg.schemaFile.value)
    ensures Iterate(cfg, t) == Failed(SettingKey, None)
  {
  }

  /** `sensors/{zone}/reading` against a schema without `zone` is rejected
      before connecting, and `shutdownApplication` exits with code 0. */
  lemma UnknownTopicFieldRejected(a: string, name: string, c: string, schema: Schema, key: string,
                                  delayMillis: int, connects: bool, ticks: seq<Tick>)
    requires SlashFree(a) && SlashFree(c) && c != ""
    requires !IsPlaceholder(a) && !IsPlaceholder(c) && IsFieldName(name) && name !in schema
    ensures Execute(Settings(Join([a, Wrap(name), c]), key, Some(schema), delayMillis), connects, ticks)
      == Run([Exit(0)], TopicRejected)
  {
    OnePlaceholderTopic(a, name, c, schema, map[]);
  }

  /** The publish of the fifth body fails: five bodies run, the first four
      messages go out and no sixth body starts. The sixth guard evaluation
      ends the loop, and the run then terminates the publisher and
      disconnects. */
  lemma PublishFailsOnFifthIteration(passes: seq<Pass>)
    requires 5 <= |passes| && forall j :: 0 <= j < 5 ==> !passes[j].inputWaiting
    requires forall j :: 0 <= j < 4 ==> passes[j].outcome.Completed?
    requires passes[4].outcome == Failed(Publishing, None)
    ensures var r := Loop(Start, passes);
      r.state.isShutdown && r.state.iterations == 5
      && (r.exited <==> 6 <= |passes|) && r.consumed == (if 6 <= |passes| then 6 else 5)
      && |r.state.published| == 4
      && forall j :: 0 <= j < 4 ==> r.state.published[j] == passes[j].outcome.msg
    ensures var e := Connected(Loop(Start, passes)).events;
      (6 <= |passes| ==> |e| == 7 && e[5] == Terminate && e[6] == Disconnect)
      && forall j :: 0 <= j < 4 ==> e[j + 1] == Publish(passes[j].outcome.msg)
  {
    FailureOnIteration(Start, passes, 4);
    LoopPublishesInOrder(Start, passes);
    var first := passes[..4];
    assert passes[..5] == first + [passes[4]];
    MessagesOfPublishingBodies(first);
    MessagesAppend(first, [passes[4]]);
    MessagesCons([passes[4]]);
  }

  /** The third body's sleep is interrupted: it has still published, the
      loop goes on to the fourth body, and input then stops it cleanly. */
  lemma SleepInterruptedOnThirdIteration(passes: seq<Pass>)
    requires 5 <= |passes| && passes[4].inputWaiting && forall j :: 0 <= j < 4 ==> !passes[j].inputWaiting
    requires passes[2].outcome.Interrupted?
    requires forall j :: 0 <= j < 4 && j != 2 ==> passes[j].outcome.Completed?
    ensures var r := Loop(Start, passes);
      r.exited && !r.state.isShutdown && r.state.iterations == 4 && r.consumed == 5
      && |r.state.published| == 4
      && forall j :: 0 <= j < 4 ==> r.state.published[j] == passes[j].outcome.msg
  {
    InputOnIteration(Start, passes, 4);
    LoopPublishesInOrder(Start, passes);
    MessagesOfPublishingBodies(passes[..4]);
  }
}
