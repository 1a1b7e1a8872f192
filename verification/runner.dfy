/** `DatagenRunner.run`: the pre-flight checks, the broker connection and
    the publish loop, as pure functions over what the environment does.

    Everything outside the runner's own code is an input: whether the schema
    file is on the classpath (and the schema it holds), whether the blocking
    connect succeeds, and one `Tick` per evaluation of the loop guard. */
module Runner {
  import opened Wrappers
  import opened Avro
  import opened Templates

  /** The settings `run` reads: the topic template, the key, the schema
      loaded from the schema file (None when the file is not on the
      classpath) and the delay between publishes in milliseconds. */
  datatype Settings = Settings(topic: string, key: string, schemaFile: Option<Schema>, delayMillis: int)

  /** What `publisher.publish` is handed: the resolved topic and the
      partition key. The payload (`record.toString()`) is not modelled. */
  datatype Message = Message(topic: string, key: Value)

  /** The steps of one loop body, in the order the code runs them. */
  datatype Stage = Generating | BuildingMessage | SettingKey | BuildingTopic | Publishing | Sleeping

  /** What the environment does at one evaluation of the loop guard and, if
      the body runs, during that body: whether `System.in.available()` is
      non-zero, the generated record (None when the generator throws), and
      whether the message builder and the publisher succeed and the sleep is
      interrupted. */
  datatype Tick = Tick(inputWaiting: bool, generated: Option<Record>, built: bool, sent: bool, interrupted: bool)

  /** How one loop body ends: it slept through, its sleep was interrupted
      (InterruptedException, swallowed), or a step threw a RuntimeException,
      possibly after the message went out. */
  datatype Outcome =
    | Completed(msg: Message)
    | Interrupted(msg: Message)
    | Failed(at: Stage, published: Option<Message>)

  /** The messages an iteration handed to the publisher. */
  function Published(o: Outcome): seq<Message> {
    match o
    case Completed(m) => [m]
    case Interrupted(m) => [m]
    case Failed(_, p) => if p.Some? then [p.value] else []
  }

  /** The steps before the sleep all succeed on this tick. */
  predicate Publishes(cfg: Settings, t: Tick) {
    && t.generated.Some?
    && t.built
    && ResolveKey(cfg.key, t.generated.value).Success?
    && BuildTopic(cfg.topic, t.generated.value).Success?
    && t.sent
  }

  /** One loop body: generate, build the message, set the key, build the
      topic, publish, sleep. `Thread.sleep` of a negative delay throws
      IllegalArgumentException after the publish. */
  function Iterate(cfg: Settings, t: Tick): (o: Outcome)
    ensures |Published(o)| <= 1
    ensures o.Failed? && o.published.Some? ==> o.at == Sleeping
  {
    match t.generated
    case None => Failed(Generating, None)
    case Some(record) =>
      if !t.built then Failed(BuildingMessage, None)
      else match ResolveKey(cfg.key, record)
        case Failure(_) => Failed(SettingKey, None)
        case Success(key) =>
          match BuildTopic(cfg.topic, record)
          case Failure(_) => Failed(BuildingTopic, None)
          case Success(topic) =>
            var m := Message(topic, key);
            if !t.sent then Failed(Publishing, None)
            else if cfg.delayMillis < 0 then Failed(Sleeping, Some(m))
            else if t.interrupted then Interrupted(m)
            else Completed(m)
  }

  /** A body hands exactly one message to the publisher when generation,
      message building, the key, the topic and the publish all succeed, and
      none otherwise; that message carries the resolved topic and key. It
      ends in a RuntimeException when a step fails or the delay is negative,
      and is interrupted only after publishing. */
  lemma IterateOutcome(cfg: Settings, t: Tick)
    ensures var o := Iterate(cfg, t);
      && |Published(o)| == (if Publishes(cfg, t) then 1 else 0)
      && (Publishes(cfg, t) ==>
           Published(o)[0] == Message(BuildTopic(cfg.topic, t.generated.value).value,
                                      ResolveKey(cfg.key, t.generated.value).value))
      && (o.Failed? <==> !Publishes(cfg, t) || cfg.delayMillis < 0)
      && (o.Interrupted? <==> Publishes(cfg, t) && cfg.delayMillis >= 0 && t.interrupted)
  {
  }

  /** One evaluation of the loop guard (whether input is waiting) and, if
      the body runs, how it ends. */
  datatype Pass = Pass(inputWaiting: bool, outcome: Outcome)

  /** The passes the environment's ticks produce. */
  function Passes(cfg: Settings, ticks: seq<Tick>): (ps: seq<Pass>)
    ensures |ps| == |ticks|
    ensures forall i :: 0 <= i < |ticks| ==> ps[i].inputWaiting == ticks[i].inputWaiting
  {
    seq(|ticks|, i requires 0 <= i < |ticks| => Pass(ticks[i].inputWaiting, Iterate(cfg, ticks[i])))
  }

  /** The loop's variables: the `isShutdown` flag, and (for the proofs) the
      number of bodies run and the messages published so far. */
  datatype LoopState = LoopState(isShutdown: bool, iterations: nat, published: seq<Message>)

  const Start := LoopState(false, 0, [])

  /** One execution of the body with its try/catch: a RuntimeException sets
      `isShutdown`, an InterruptedException changes nothing. */
  function Step(s: LoopState, o: Outcome): (r: LoopState)
    ensures r.iterations == s.iterations + 1
    ensures r.isShutdown <==> s.isShutdown || o.Failed?
    ensures !o.Failed? ==> r.published == s.published + [o.msg]
    ensures o.Failed? ==>
      (|s.published| <= |r.published| <= |s.published| + 1 && r.published[..|s.published|] == s.published)
  {
    LoopState(s.isShutdown || o.Failed?, s.iterations + 1, s.published + Published(o))
  }

  /** Where the loop got to: the final variables, whether the guard became
      false, and how many guard evaluations were used. */
  datatype LoopEnd = LoopEnd(state: LoopState, exited: bool, consumed: nat)

  /** The `while (System.in.available() == 0 && !isShutdown)` loop. Every
      guard evaluation calls `available()` first, and so uses one pass, even
      when `isShutdown` is already set. When the passes run out before the
      guard is false the loop is still running. */
  function Loop(s: LoopState, passes: seq<Pass>): (r: LoopEnd)
    ensures r.consumed <= |passes|
    ensures |s.published| <= |r.state.published| && r.state.published[..|s.published|] == s.published
    ensures !r.exited ==> r.consumed == |passes| && r.state.iterations == s.iterations + r.consumed
    ensures r.exited ==>
      (1 <= r.consumed && r.state.iterations == s.iterations + r.consumed - 1
       && (passes[r.consumed - 1].inputWaiting || r.state.isShutdown))
    ensures s.isShutdown ==> r == (if |passes| == 0 then LoopEnd(s, false, 0) else LoopEnd(s, true, 1))
    decreases |passes|
  {
    if |passes| == 0 then LoopEnd(s, false, 0)
    else if passes[0].inputWaiting || s.isShutdown then LoopEnd(s, true, 1)
    else
      var s' := Step(s, passes[0].outcome);
      var r := Loop(s', passes[1..]);
      assert s'.published[..|s.published|] == s.published;
      assert r.state.published[..|s.published|] == r.state.published[..|s'.published|][..|s.published|];
      LoopEnd(r.state, r.exited, r.consumed + 1)
  }

  /** The messages the given bodies publish, in order. */
  function Messages(passes: seq<Pass>): seq<Message>
  {
    if |passes| == 0 then [] else Published(passes[0].outcome) + Messages(passes[1..])
  }

  /** The loop publishes exactly the messages of the bodies it ran, in order. */
  lemma {:induction false} LoopPublishesInOrder(s: LoopState, passes: seq<Pass>)
    ensures var r := Loop(s, passes);
      r.state.iterations - s.iterations <= |passes|
      && r.state.published == s.published + Messages(passes[..r.state.iterations - s.iterations])
    decreases |passes|
  {
    if !s.isShutdown && |passes| > 0 && !passes[0].inputWaiting {
      var s' := Step(s, passes[0].outcome);
      LoopPublishesInOrder(s', passes[1..]);
      var r' := Loop(s', passes[1..]);
      var n := r'.state.iterations - s'.iterations;
      assert Loop(s, passes).state == r'.state;
      var ran := passes[..n + 1];
      assert ran[0] == passes[0] && ran[1..] == passes[1..][..n];
      assert Messages(ran) == Published(passes[0].outcome) + Messages(passes[1..][..n]);
    }
  }

  /** Every body publishes one message, except that the body which sets
      `isShutdown` may publish none. */
  predicate OneMessagePerIteration(s: LoopState) {
    if s.isShutdown then s.iterations - 1 <= |s.published| <= s.iterations
    else |s.published| == s.iterations
  }

  lemma {:induction false} LoopKeepsOneMessagePerIteration(s: LoopState, passes: seq<Pass>)
    requires OneMessagePerIteration(s)
    ensures OneMessagePerIteration(Loop(s, passes).state)
    decreases |passes|
  {
    if !s.isShutdown && |passes| > 0 && !passes[0].inputWaiting {
      LoopKeepsOneMessagePerIteration(Step(s, passes[0].outcome), passes[1..]);
    }
  }

  /** Fail-fast: a body that throws a RuntimeException is the last one. The
      next guard still calls `available()`, and then finds `isShutdown` set. */
  lemma FailureEndsLoop(s: LoopState, p: Pass, rest: seq<Pass>)
    requires !s.isShutdown && !p.inputWaiting && p.outcome.Failed?
    ensures Step(s, p.outcome).isShutdown
    ensures Loop(s, [p] + rest) ==
      if |rest| == 0 then LoopEnd(Step(s, p.outcome), false, 1) else LoopEnd(Step(s, p.outcome), true, 2)
  {
    assert ([p] + rest)[1..] == rest;
  }

  /** An interrupted sleep does not stop the loop: its message went out and
      the next guard is evaluated as usual. */
  lemma InterruptionContinues(s: LoopState, p: Pass, rest: seq<Pass>)
    requires !s.isShutdown && !p.inputWaiting && p.outcome.Interrupted?
    ensures var s' := Step(s, p.outcome);
      !s'.isShutdown
      && s'.published == s.published + [p.outcome.msg]
      && Loop(s, [p] + rest).state == Loop(s', rest).state
  {
    assert ([p] + rest)[1..] == rest;
  }

  /** Input on standard input stops the loop at the top of an iteration,
      before anything is generated. */
  lemma InputStopsBeforeIteration(s: LoopState, passes: seq<Pass>)
    requires |passes| > 0 && passes[0].inputWaiting
    ensures Loop(s, passes) == LoopEnd(s, true, 1)
  {
  }

  /** When bodies 0..k-1 all get through and body k throws, exactly k+1
      bodies run, whatever passes follow; the loop exits at the next guard
      evaluation, if there is a pass for it. */
  lemma {:induction false} FailureOnIteration(s: LoopState, passes: seq<Pass>, k: nat)
    requires !s.isShutdown && k < |passes|
    requires forall j :: 0 <= j <= k ==> !passes[j].inputWaiting
    requires forall j :: 0 <= j < k ==> !passes[j].outcome.Failed?
    requires passes[k].outcome.Failed?
    ensures var r := Loop(s, passes);
      r.state.isShutdown && r.state.iterations == s.iterations + k + 1
      && (r.exited <==> k + 1 < |passes|)
      && r.consumed == (if k + 1 < |passes| then k + 2 else k + 1)
    decreases k
  {
    if k > 0 {
      FailureOnIteration(Step(s, passes[0].outcome), passes[1..], k - 1);
    }
  }

  /** When bodies 0..k-1 all get through without throwing and input is
      waiting at guard k, exactly k bodies run and the loop exits cleanly. */
  lemma {:induction false} InputOnIteration(s: LoopState, passes: seq<Pass>, k: nat)
    requires !s.isShutdown && k < |passes| && passes[k].inputWaiting
    requires forall j :: 0 <= j < k ==> !passes[j].inputWaiting && !passes[j].outcome.Failed?
    ensures var r := Loop(s, passes);
      r.exited && !r.state.isShutdown && r.consumed == k + 1 && r.state.iterations == s.iterations + k
    decreases k
  {
    if k > 0 {
      InputOnIteration(Step(s, passes[0].outcome), passes[1..], k - 1);
    }
  }

  /** The loop ends up shut down exactly when one of the bodies it ran
      threw a RuntimeException. */
  lemma {:induction false} ShutdownIffFailure(s: LoopState, passes: seq<Pass>)
    requires !s.isShutdown
    ensures var r := Loop(s, passes);
      r.state.iterations - s.iterations <= |passes|
      && (r.state.isShutdown <==>
          exists j :: 0 <= j < r.state.iterations - s.iterations && passes[j].outcome.Failed?)
    decreases |passes|
  {
    if |passes| > 0 && !passes[0].inputWaiting {
      var s' := Step(s, passes[0].outcome);
      if !passes[0].outcome.Failed? {
        ShutdownIffFailure(s', passes[1..]);
        var r := Loop(s, passes);
        var n := r.state.iterations - s.iterations;
        if r.state.isShutdown {
          var j :| 0 <= j < n - 1 && passes[1..][j].outcome.Failed?;
          assert passes[j + 1].outcome.Failed?;
        } else {
          forall j | 0 < j < n ensures !passes[j].outcome.Failed? {
            assert passes[j] == passes[1..][j - 1];
          }
        }
      }
    }
  }

  /** With no input waiting and no body throwing, the loop never stops: it
      runs one body per pass and is not shut down. */
  lemma {:induction false} NoStopKeepsRunning(s: LoopState, passes: seq<Pass>)
    requires !s.isShutdown
    requires forall j :: 0 <= j < |passes| ==> !passes[j].inputWaiting && !passes[j].outcome.Failed?
    ensures var r := Loop(s, passes);
      !r.exited && !r.state.isShutdown && r.consumed == |passes| && r.state.iterations == s.iterations + |passes|
    decreases |passes|
  {
    if |passes| > 0 {
      NoStopKeepsRunning(Step(s, passes[0].outcome), passes[1..]);
    }
  }

  /** Unfolds `Messages` at the front. */
  lemma MessagesCons(passes: seq<Pass>)
    requires |passes| > 0
    ensures Messages(passes) == Published(passes[0].outcome) + Messages(passes[1..])
  {
  }

  /** `Messages` distributes over concatenation. */
  lemma {:induction false} MessagesAppend(a: seq<Pass>, b: seq<Pass>)
    ensures Messages(a + b) == Messages(a) + Messages(b)
  {
    if |a| > 0 {
      MessagesCons(a + b);
      assert (a + b)[1..] == a[1..] + b;
      MessagesAppend(a[1..], b);
      MessagesCons(a);
    } else {
      assert a + b == b;
    }
  }

  /** Bodies that each complete or are interrupted publish one message each. */
  lemma {:induction false} MessagesOfPublishingBodies(passes: seq<Pass>)
    requires forall j :: 0 <= j < |passes| ==> passes[j].outcome.Completed? || passes[j].outcome.Interrupted?
    ensures |Messages(passes)| == |passes|
    ensures forall j :: 0 <= j < |passes| ==> Messages(passes)[j] == passes[j].outcome.msg
  {
    if |passes| > 0 {
      MessagesCons(passes);
      MessagesOfPublishingBodies(passes[1..]);
    }
  }

  /** Side effects `run` has on the outside world, in order. */
  datatype Event = Connect | Publish(msg: Message) | Terminate | Disconnect | Exit(code: int)

  /** How `run` ended: the schema file was missing (FileNotFoundException),
      a pre-flight check called `shutdownApplication`, the connect threw,
      the loop exited (after a failure or on input), or the loop is still
      running when the ticks run out. */
  datatype RunEnd = SchemaMissing | TopicRejected | KeyRejected | ConnectFailed | Stopped(byFailure: bool) | StillRunning

  datatype Run = Run(events: seq<Event>, end: RunEnd)

  function PublishEvents(ms: seq<Message>): (r: seq<Event>)
    ensures |r| == |ms|
    ensures forall i :: 0 <= i < |r| ==> r[i] == Publish(ms[i])
  {
    if |ms| == 0 then [] else [Publish(ms[0])] + PublishEvents(ms[1..])
  }

  /** What happens once connected: one publish per published message, and,
      once the loop has exited, `terminate(500)` and then `disconnect()`,
      each exactly once and as the last two acts. */
  function Connected(l: LoopEnd): (r: Run)
    ensures |r.events| >= 1 && r.events[0] == Connect
    ensures r.end.Stopped? <==> l.exited
    ensures r.end.Stopped? ==> r.end.byFailure == l.state.isShutdown
    ensures |r.events| == 1 + |l.state.published| + (if l.exited then 2 else 0)
    ensures forall i :: 0 <= i < |l.state.published| ==> r.events[i + 1] == Publish(l.state.published[i])
    ensures Terminate in r.events <==> l.exited
    ensures forall i :: 0 <= i < |r.events| && r.events[i] == Terminate ==>
      i == |r.events| - 2 && r.events[i + 1] == Disconnect
    ensures forall i :: 0 <= i < |r.events| && r.events[i] == Disconnect ==>
      i == |r.events| - 1 && r.events[i - 1] == Terminate
    ensures forall i :: 1 <= i < |r.events| ==> r.events[i] != Connect && !r.events[i].Exit?
  {
    var p := PublishEvents(l.state.published);
    var sent := [Connect] + p;
    assert forall i :: 1 <= i < |sent| ==> sent[i] == p[i - 1];
    if l.exited then Run(sent + [Terminate, Disconnect], Stopped(l.state.isShutdown))
    else Run(sent, StillRunning)
  }

  /** `run`: load the schema, check the topic, check the key, connect, loop,
      then `terminate(500)` and `disconnect()`. A rejected topic or key ends
      the run through `shutdownApplication`, which exits with code 0. A missing
      schema file and a failed connect end it with an exception instead, and
      no event. Each check is reached only when the ones before it passed,
      and a connect is attempted exactly when all passed. */
  function Execute(cfg: Settings, connects: bool, ticks: seq<Tick>): (r: Run)
    ensures r.end.SchemaMissing? <==> cfg.schemaFile.None?
    ensures r.end.TopicRejected? <==> cfg.schemaFile.Some? && !ValidateTopic(cfg.topic, cfg.schemaFile.value)
    ensures r.end.KeyRejected? <==>
      cfg.schemaFile.Some? && ValidateTopic(cfg.topic, cfg.schemaFile.value) && !ValidateKey(cfg.key, cfg.schemaFile.value)
    ensures (Connect in r.events) <==>
      cfg.schemaFile.Some? && ValidateTopic(cfg.topic, cfg.schemaFile.value)
      && ValidateKey(cfg.key, cfg.schemaFile.value) && connects
    ensures r.end.ConnectFailed? <==>
      cfg.schemaFile.Some? && ValidateTopic(cfg.topic, cfg.schemaFile.value)
      && ValidateKey(cfg.key, cfg.schemaFile.value) && !connects
    ensures r.end.TopicRejected? || r.end.KeyRejected? ==> r.events == [Exit(0)]
    ensures r.end.SchemaMissing? || r.end.ConnectFailed? ==> r.events == []
    ensures Connect in r.events ==> r == Connected(Loop(Start, Passes(cfg, ticks)))
    ensures forall i :: 0 <= i < |r.events| && r.events[i].Exit? ==> r.events[i].code == 0
  {
    match cfg.schemaFile
    case None => Run([], SchemaMissing)
    case Some(schema) =>
      if !ValidateTopic(cfg.topic, schema) then Run([Exit(0)], TopicRejected)
      else if !ValidateKey(cfg.key, schema) then Run([Exit(0)], KeyRejected)
      else if !connects then Run([], ConnectFailed)
      else Connected(Loop(Start, Passes(cfg, ticks)))
  }
}
