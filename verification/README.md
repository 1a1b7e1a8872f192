# Dynamic topic and key templating of the Solace random data generator

The data generator publishes randomly generated Avro records to a Solace
PubSub+ broker. Its topic (`datagen.topic`) and partition key
(`datagen.key`) may contain placeholders such as `{region}`, which name fields
of the Avro schema and are filled from each generated record. This project
models, in Dafny, the runner's templating logic and the control flow of its
publish loop, and proves properties of them:

- `wrappers.dfy` (`Wrappers`): `Option` and `Result`.
- `java_string.dfy` (`JavaString`): `String.split("/")` and `String.join("/", …)`.
  A `split` with no delimiter returns `[s]`, so `""` gives `[""]`. Otherwise it
  keeps leading empty segments and drops trailing ones. Also the round trips
  between the two.
- `placeholder.dfy` (`Placeholder`): the `\{\w+\}` grammar, an explicit scanner
  for it, and `processPlaceholder`.
- `avro.dfy` (`Avro`): field values and their `toString`. Also the schema as its
  ordered field names, with `getField`, and the record as a map from field name
  to value.
- `templates.dfy` (`Templates`): `validateTopic`, `buildTopic`, and the key
  check and key lookup in `run`.
- `validation_service.dfy` (`ValidationService`): `isPlaceholder`,
  `isSchemaElement` and `isValidTopic`, modelled as written.
- `runner.dfy` (`Runner`): `run` as pure functions.
  - The pre-flight checks run in order: schema file, topic, key, then connect.
  - One loop body runs generate, build message, set key, build topic,
    publish, sleep. It ends as `Completed`, `Interrupted` or `Failed(stage)`.
  - The `while` loop is a state-transition function over a sequence of
    per-iteration outcomes, each with a stop flag.
  - The event trace of the whole run: connect, publishes, terminate,
    disconnect, or exit.
- `scenarios.dfy` (`Scenarios`): the end-to-end behaviours, stated for arbitrary
  topics, records and outcome sequences of the relevant shapes.

Everything outside the runner is an input. That covers the schema found (or
not) on the classpath, whether the broker connect succeeds, and, for each
evaluation of the loop guard, a `Tick`. A tick says whether standard input
has bytes waiting, which record the generator produced (or that it threw),
and whether message building and publishing succeed and the sleep is
interrupted.

## Behaviour of the code worth knowing

- A literal key is looked up as a field name. `run` calls
  `record.get(newKey)` for every key, and for a literal key `newKey` is the
  key itself. A literal that is no field name passes the pre-flight check,
  and then the first body fails at the key step
  (`Templates.LiteralKeyIsLookedUp`, `Scenarios.LiteralKeyFailsFirstBody`).
- A rejected topic or key ends the process through `shutdownApplication`,
  which exits with code 0.
- `validateTopic` returns a bare boolean at the first unknown field. Which
  field was unknown is not reported.
- `ValidationService.isValidTopic` accepts a topic when some level passes,
  not when all levels do. It looks up the raw level, braces included. So it
  is false for every schema whose names have no `{` (every legal Avro
  schema), and it disagrees with the runner's `validateTopic` both ways.
- `split` drops trailing empty levels, so a trailing `/` of the topic is lost.
  A string value holding `/` adds topic levels, so resolution does not preserve
  the topic's depth.
- A negative `datagen.publishdelayms` makes `Thread.sleep` throw
  IllegalArgumentException, a RuntimeException, after the publish. So the loop
  then stops after one message.
- The loop guard calls `System.in.available()` before it reads `isShutdown`.
  So after a RuntimeException one more guard evaluation happens before the
  loop exits.

## Model

| member | source | states |
|---|---|---|
| JavaString.Segments | src/main/java/com/solace/datagenerator/DatagenRunner.java:174 | The raw split has at least one segment and no segment contains `/` |
| JavaString.DropTrailingEmpty | src/main/java/com/solace/datagenerator/DatagenRunner.java:174 | The result is a prefix of the input that does not end with an empty element, and only empty elements were removed |
| JavaString.Split | src/main/java/com/solace/datagenerator/DatagenRunner.java:174 | No level of `split("/")` contains `/`; the result ends in an empty level only when the input is empty (result `[""]`) |
| JavaString.StripTrailingSlashes | src/main/java/com/solace/datagenerator/DatagenRunner.java:209 | The result is the longest prefix not ending in `/` such that everything removed is `/` |
| JavaString.Join | src/main/java/com/solace/datagenerator/DatagenRunner.java:209 | `String.join("/", …)`: the elements with `/` between neighbours. It has no contract of its own. Its length is given by `JavaString.JoinLength`, and `JavaString.JoinSegments` and `JavaString.SegmentsOfJoin` make it the inverse of segmentation |
| JavaString.JoinLength | src/main/java/com/solace/datagenerator/DatagenRunner.java:209 | A join's length is the elements' total length plus one delimiter for each pair of neighbours |
| JavaString.JoinSegments | src/main/java/com/solace/datagenerator/DatagenRunner.java:194-209 | Joining the raw segments with `/` gives back the original string |
| JavaString.SegmentsOfJoin | src/main/java/com/solace/datagenerator/DatagenRunner.java:194-209 | Segmenting a join of delimiter-free elements gives the elements back (the segmentation is unique) |
| JavaString.JoinDropTrailingEmpty | src/main/java/com/solace/datagenerator/DatagenRunner.java:194-209 | Dropping trailing empty levels before joining is stripping trailing `/` after joining |
| JavaString.JoinSplit | src/main/java/com/solace/datagenerator/DatagenRunner.java:194-209 | `join("/", s.split("/"))` is `s` without its trailing `/` characters |
| JavaString.JoinSplitNoTrailingSlash | src/main/java/com/solace/datagenerator/DatagenRunner.java:194-209 | A topic not ending in `/` survives split and join unchanged |
| JavaString.SplitJoin | src/main/java/com/solace/datagenerator/DatagenRunner.java:194-209 | Splitting a join of delimiter-free levels whose last is non-empty gives the levels back |
| Placeholder.IsPlaceholder | src/main/java/com/solace/datagenerator/DatagenRunner.java:217 | `matches("\\{\\w+\\}")` as a predicate. A matching string has at least three characters and no `/`, and it has a brace only at its ends: `{` first and `}` last |
| Placeholder.PlaceholderIsWrappedName | src/main/java/com/solace/datagenerator/DatagenRunner.java:217 | A string matches `\{\w+\}` exactly when it is `{`, a non-empty run of `[A-Za-z0-9_]`, `}` |
| Placeholder.MatchPlaceholder | src/main/java/com/solace/datagenerator/DatagenRunner.java:217 | The left-to-right scanner accepts exactly the strings matching the anchored placeholder pattern |
| Placeholder.ProcessPlaceholder | src/main/java/com/solace/datagenerator/DatagenRunner.java:215-221 | For a placeholder the result is a field name that, wrapped in braces, is the input; otherwise the input is returned unchanged |
| Placeholder.ChangedIffPlaceholder | src/main/java/com/solace/datagenerator/DatagenRunner.java:217-220 | `!processPlaceholder(s).equals(s)` holds exactly when `s` is a placeholder, so the runner's inequality tests are placeholder tests |
| Placeholder.FieldNameIsNotPlaceholder | src/main/java/com/solace/datagenerator/DatagenRunner.java:217-218 | An extracted field name is never itself a placeholder |
| Placeholder.ProcessIdempotent | src/main/java/com/solace/datagenerator/DatagenRunner.java:215-221 | Processing twice is processing once |
| Placeholder.ProcessWrap | src/main/java/com/solace/datagenerator/DatagenRunner.java:217-218 | A braced field name is a placeholder and processing it yields the name |
| Avro.GetField | src/main/java/com/solace/datagenerator/DatagenRunner.java:110 | `getField` is null exactly for names not in the schema, and otherwise gives the first position holding the name |
| Avro.GetFieldUnique | src/main/java/com/solace/datagenerator/DatagenRunner.java:180 | In a schema with distinct names, `getField` gives the field's own position |
| Avro.Decimal | src/main/java/com/solace/datagenerator/DatagenRunner.java:204 | The text of a non-negative long is a non-empty digit string with no leading zero: only a one-character text may start with `0`, and only for zero |
| Avro.DecimalValue | src/main/java/com/solace/datagenerator/DatagenRunner.java:204 | Reading the decimal text of a number back gives the number |
| Avro.LongToString | src/main/java/com/solace/datagenerator/DatagenRunner.java:204 | A long's text starts with `-` exactly when it is negative. The rest is decimal digits with no leading zero, and they read back to the number's magnitude |
| Avro.ToStr | src/main/java/com/solace/datagenerator/DatagenRunner.java:204 | `toString` yields text for every value except null, where it throws |
| Templates.ValidateLevels | src/main/java/com/solace/datagenerator/DatagenRunner.java:176-183 | The early-return loop is true exactly when no placeholder level names a field missing from the schema |
| Templates.ValidateTopic | src/main/java/com/solace/datagenerator/DatagenRunner.java:172-184 | `validateTopic` is false exactly when some level of `split("/")` is a placeholder whose field the schema lacks |
| Templates.ResolveLevel | src/main/java/com/solace/datagenerator/DatagenRunner.java:201-205 | A literal level is kept; a placeholder level resolves exactly when the record has its field with a non-null value, to that value's text |
| Templates.BuildLevels | src/main/java/com/solace/datagenerator/DatagenRunner.java:200-207 | Success gives one resolved level per level, each its own resolution; failure happens exactly when some level cannot be resolved |
| Templates.BuildTopic | src/main/java/com/solace/datagenerator/DatagenRunner.java:192-210 | `buildTopic` succeeds exactly when every level resolves, and yields the join of the level-by-level resolution |
| Templates.ResolvesToUnique | src/main/java/com/solace/datagenerator/DatagenRunner.java:200-207 | The resolution of a topic against a record is unique |
| Templates.BuildTopicIsJoinedResolution | src/main/java/com/solace/datagenerator/DatagenRunner.java:192-210 | Any level-by-level resolution, joined with `/`, is what `buildTopic` returns |
| Templates.LiteralTopicResolvesToItself | src/main/java/com/solace/datagenerator/DatagenRunner.java:192-210 | A topic without placeholder levels resolves, for every record, to itself minus trailing `/` |
| Templates.LiteralTopicUnchanged | src/main/java/com/solace/datagenerator/DatagenRunner.java:192-210 | A placeholder-free topic not ending in `/` resolves to itself for every record |
| Templates.PlaceholderIsOneLevel | src/main/java/com/solace/datagenerator/DatagenRunner.java:194 | A placeholder never contains `/`, so it is always a single topic level |
| Templates.OnePlaceholderTopic | src/main/java/com/solace/datagenerator/DatagenRunner.java:172-210 | For `a/{f}/c`: split gives the three levels, it validates exactly when `f` is in the schema, and it resolves to `a/<text of f>/c` or fails when the record lacks `f` |
| Templates.SlashInValueAddsLevel | src/main/java/com/solace/datagenerator/DatagenRunner.java:204-209 | A value containing `/` turns the one-level topic `{f}` into a two-level topic |
| Templates.ValidatedTopicResolves | src/main/java/com/solace/datagenerator/DatagenRunner.java:172-210 | A validated topic resolves against every record of the schema whose values are non-null |
| Templates.ValidateKey | src/main/java/com/solace/datagenerator/DatagenRunner.java:106-113 | The key check fails exactly for a placeholder key whose field the schema lacks |
| Templates.LiteralKeyValidates | src/main/java/com/solace/datagenerator/DatagenRunner.java:107-110 | A literal key always passes the key check |
| Templates.ResolveKey | src/main/java/com/solace/datagenerator/DatagenRunner.java:150 | The key is set exactly when the processed key names a non-null record field, and it is that typed value |
| Templates.LiteralKeyIsLookedUp | src/main/java/com/solace/datagenerator/DatagenRunner.java:150 | A literal key is looked up as a field name; if the record has no such field, setting the key fails |
| ValidationService.IsPlaceholder | src/main/java/com/solace/datagenerator/validation/ValidationService.java:28-33 | `isPlaceholder` agrees with the runner's `!processPlaceholder(s).equals(s)` |
| ValidationService.IsPlaceholderIffWrappedName | src/main/java/com/solace/datagenerator/validation/ValidationService.java:29 | `isPlaceholder` accepts exactly `{`, a non-empty run of word characters, `}` |
| ValidationService.IsSchemaElement | src/main/java/com/solace/datagenerator/validation/ValidationService.java:35-41 | `isSchemaElement` is membership of the name in the schema's fields |
| ValidationService.FirstFrom | src/main/java/com/solace/datagenerator/validation/ValidationService.java:46-50 | The early-return for-each loop finds nothing exactly when no element from the start position on satisfies the test, and otherwise finds the first that does |
| ValidationService.FirstAcceptedLevel | src/main/java/com/solace/datagenerator/validation/ValidationService.java:46-50 | The loop returns at the first level that is a placeholder and, braces included, a field name; it finds none exactly when there is none |
| ValidationService.IsValidTopic | src/main/java/com/solace/datagenerator/validation/ValidationService.java:43-52 | `isValidTopic` is true exactly when some level is a placeholder whose raw text is a schema field name |
| ValidationService.NoPlaceholderTopicNeverValid | src/main/java/com/solace/datagenerator/validation/ValidationService.java:43-52 | A topic without placeholder levels is invalid here, although the runner's check accepts it |
| ValidationService.BraceFreeSchemaNeverValid | src/main/java/com/solace/datagenerator/validation/ValidationService.java:47 | If no field name contains `{`, no topic is valid here |
| ValidationService.TopicChecksDisagree | src/main/java/com/solace/datagenerator/validation/ValidationService.java:43-52 | The runner's check and this one disagree in both directions on `{f}` |
| Runner.Iterate | src/main/java/com/solace/datagenerator/DatagenRunner.java:143-161 | A body hands at most one message to the publisher, and a throwing body has published only when the sleep threw |
| Runner.IterateOutcome | src/main/java/com/solace/datagenerator/DatagenRunner.java:143-161 | A body publishes exactly when generate, build, key, topic and publish succeed, with the resolved topic and key. It fails exactly when a step fails or the delay is negative, and it is interrupted only after publishing |
| Runner.Loop | src/main/java/com/solace/datagenerator/DatagenRunner.java:140-162 | The loop only appends to what was published. A loop that exited ran one body fewer than its guard evaluations, and its last guard saw input waiting or `isShutdown` set. A loop that has not exited used every pass and ran one body per pass. A shut-down state exits at the next guard evaluation, which still uses a pass |
| Runner.Step | src/main/java/com/solace/datagenerator/DatagenRunner.java:156-161 | One body under the try/catch. It counts one iteration. A RuntimeException sets `isShutdown` and an InterruptedException leaves it alone. A body that did not throw adds exactly its message, and a throwing body adds at most the message published before the throw |
| Runner.LoopPublishesInOrder | src/main/java/com/solace/datagenerator/DatagenRunner.java:141-153 | The loop publishes exactly the messages of the bodies it ran, in order |
| Runner.LoopKeepsOneMessagePerIteration | src/main/java/com/solace/datagenerator/DatagenRunner.java:141-161 | Every body publishes one message, except the body that set `isShutdown`, which may publish none |
| Runner.FailureEndsLoop | src/main/java/com/solace/datagenerator/DatagenRunner.java:141-158 | A RuntimeException sets `isShutdown`. No further body starts, and the next guard evaluation (which still calls `available()`) ends the loop |
| Runner.InterruptionContinues | src/main/java/com/solace/datagenerator/DatagenRunner.java:153-161 | An interrupted sleep leaves `isShutdown` false; its message was already published and the loop goes on |
| Runner.InputStopsBeforeIteration | src/main/java/com/solace/datagenerator/DatagenRunner.java:141 | Waiting input stops the loop at the guard, before a record is generated, whatever `isShutdown` is |
| Runner.FailureOnIteration | src/main/java/com/solace/datagenerator/DatagenRunner.java:140-162 | If bodies 0..k-1 succeed and body k throws, exactly k+1 bodies run and the loop is shut down. It exits at guard k+1, if there is a pass for it |
| Runner.InputOnIteration | src/main/java/com/solace/datagenerator/DatagenRunner.java:140-162 | If bodies 0..k-1 succeed and input waits at guard k, exactly k bodies run and the loop exits cleanly |
| Runner.ShutdownIffFailure | src/main/java/com/solace/datagenerator/DatagenRunner.java:141-161 | From a running state, the loop ends shut down exactly when some body it ran threw a RuntimeException |
| Runner.NoStopKeepsRunning | src/main/java/com/solace/datagenerator/DatagenRunner.java:141-161 | With no input waiting and no body throwing, the loop does not exit or shut down: it uses every pass and runs one body for each |
| Runner.Connected | src/main/java/com/solace/datagenerator/DatagenRunner.java:139-166 | After connecting: one publish event per message. Once the loop has exited, terminate and then disconnect come last, each exactly once |
| Runner.Execute | src/main/java/com/solace/datagenerator/DatagenRunner.java:81-167 | Checks run in order: schema file, topic, key. A rejected topic or key gives exactly the event `Exit(0)` of `shutdownApplication`. A connect is attempted exactly when all checks pass. It fails, with no event, exactly when the connect throws, and otherwise the run is the connected loop. A missing schema gives no event |
| Scenarios.StringFieldFillsTopic | src/main/java/com/solace/datagenerator/DatagenRunner.java:192-210 | `sensors/{region}/reading` with region `west` gives `sensors/west/reading`, for any such topic and string value |
| Scenarios.PlaceholderKeyResolves | src/main/java/com/solace/datagenerator/DatagenRunner.java:150 | The key `{temp}` resolves to the record's typed `temp` value, not its text |
| Scenarios.LiteralKeyFailsFirstBody | src/main/java/com/solace/datagenerator/DatagenRunner.java:150 | A literal key that is not a field passes pre-flight but makes the first body fail at the key step |
| Scenarios.UnknownTopicFieldRejected | src/main/java/com/solace/datagenerator/DatagenRunner.java:99-104 | `sensors/{zone}/reading` without a `zone` field is rejected before connecting, with exit code 0 |
| Scenarios.PublishFailsOnFifthIteration | src/main/java/com/solace/datagenerator/DatagenRunner.java:140-166 | If the fifth publish fails, five bodies run and four messages go out. No sixth body starts. Given a sixth guard evaluation, terminate then disconnect end the run |
| Scenarios.SleepInterruptedOnThirdIteration | src/main/java/com/solace/datagenerator/DatagenRunner.java:154-161 | An interrupted third sleep still counts its publish and the fourth body runs |

## Left out

- Spring wiring, `Application.main`, and the configuration holders (`SolaceConfiguration`,
  `DatageneratorConfiguration`): they only read and return settings.
- `ValidationService.schemaExists` and the classpath lookup of the schema file: resource
  I/O. The schema file is an `Option<Schema>` input.
- The Avro random generator: records are inputs, and a generator failure is a tick flag.
- The record payload (`GenericRecord.toString()` passed to the message builder) is opaque.
  It is left out of `Message`, and a message-builder failure is a tick flag.
- Field values other than strings, longs and booleans: they are `Other`, carrying the
  text their `toString` produces.
- The Solace messaging API. Connecting and starting the publisher are one boolean input.
  Publish success is a tick flag.
- The backpressure watermark `onBackPressureWait(1)` and the 500 ms grace period of
  `terminate(500)`: these are timing and blocking behaviour, and only the terminate event
  is modelled.
- `Thread.sleep` timing and `System.in.available()`: these are only the flags of a tick.
  An IOException from `available()` is not modelled. It would leave `run` without
  terminating or disconnecting.
- The exit status of the process when the schema file is missing (the FileNotFoundException
  leaves `run`): the model ends with `SchemaMissing` and no events.
- Avro's `getField` on a schema that is not a record type: the schema is always a record's
  field list.
- `record.get` of a name that is not a field returns null in some Avro versions and throws
  in others. Both end in a RuntimeException in the loop, so the model treats both as one
  failure.
- Runner.Loop: the passes are a finite prefix of the environment. A loop whose guard has not
  yet been false when they run out ends as `StillRunning`, and its run has no terminate or
  disconnect. This holds even when `isShutdown` is already set and only the final guard
  evaluation is missing.
- Runner.Execute: a missing schema file (`FileNotFoundException`, DatagenRunner.java:96) and a
  throwing `connect()` or publisher `start()` (DatagenRunner.java:124-135) leave `run` with an
  exception rather than through `shutdownApplication`. The model records these as
  `SchemaMissing` and `ConnectFailed` with no event. The exit status that the exception
  gives the process is not modelled.
