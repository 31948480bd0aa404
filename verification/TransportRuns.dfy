/** The two transports on top of the protocol: one call executed with its opening
    of the adapter, and one key, which is a single call locally and two requests
    through the daemon. */
module TransportRuns {
  import opened Prelude
  import opened OpenGuards
  import opened Bindings
  import opened AdapterProtocol
  import opened Sequential
  import opened Transports

  /** There is no driver yet, and the guard lets the call try to open one. */
  predicate TriesToOpen(store: Store, env: Env) {
    store.driver.None? && Verdict(store.guard, OPEN_COOLDOWN_SECONDS, env.asked) == ""
  }

  /** The driver method is reached. */
  predicate GetsDriver(store: Store, env: Env) {
    store.driver.Some? || (TriesToOpen(store, env) && env.wait.Opens?)
  }

  function Outcome(setup: Setup, store: Store, task: nat, m: Method, env: Env): CallOutcome
    requires LegalEnv(setup, Call(m), env)
  {
    Execute(setup, store, task, Call(m), env).outcome
  }

  function Behind(outcome: CallOutcome, entries: seq<Entry>): Adapter {
    Adapter(_ => outcome, entries)
  }

  predicate IsSuccess(reply: Reply) {
    reply.Success? || reply.Devices?
  }

  /** Whatever the stored driver, the guard and the opening: both transports
      succeed or neither does, and then the daemon's client always raises a
      `BackendError`.  The local backend does so exactly unless the open raised
      something other than a TimeoutError, or the driver method something other
      than a DriverError; that escapes. */
  lemma LocalFailureIsBackendError(
    setup: Setup, store: Store, task: nat, m: Method, env: Env, entries: seq<Entry>)
    requires !m.SendKey? && InRange(m) && LegalEnv(setup, Call(m), env)
    ensures var adapter := Behind(Outcome(setup, store, task, m, env), entries);
            var local, remote := Local(adapter, m).reply, ViaDaemon(adapter, m).reply;
            && (IsSuccess(local) <==> GetsDriver(store, env) && env.end.Returned? && (m.Scan? || env.end.ok))
            && (IsSuccess(local) <==> IsSuccess(remote))
            && (IsSuccess(local) ==> local == remote)
            && (!IsSuccess(remote) ==> remote.Failure?)
            && (local.Escaped? <==>
                  || (TriesToOpen(store, env) && env.wait.Fails? && !env.wait.error.TimeoutError?)
                  || (GetsDriver(store, env) && env.end.Threw? && !env.end.error.DriverError?))
            && (local.Failure? ==> remote.error.message == local.error.message)
  {
    TransportsAgree(Behind(Outcome(setup, store, task, m, env), entries), m);
  }

  /** A call is answered exactly if it gets a driver and the method returns. */
  lemma AnsweredWhenReached(setup: Setup, store: Store, task: nat, m: Method, env: Env)
    requires LegalEnv(setup, Call(m), env)
    ensures var outcome := Execute(setup, store, task, Call(m), env).outcome;
            && (outcome.Answered? <==> GetsDriver(store, env) && env.end.Returned?)
            && (outcome.Answered? ==> outcome.ok == env.end.ok)
            && !outcome.Released?
  {
  }

  /** /health calls the adapter usable exactly if it has a driver, or gets one, and
      a scan returns. */
  lemma HealthFollowsOpening(
    setup: Setup, store: Store, task: nat, env: Env, entries: seq<Entry>, request: HttpRequest)
    requires LegalEnv(setup, Call(Scan), env) && IsHealth(request)
    ensures var response := Serve(Behind(Outcome(setup, store, task, Scan, env), entries), request).1;
            response.status == 200 ==>
              response.body.Health? && (response.body.ok <==> GetsDriver(store, env) && env.end.Returned?)
  {
    HealthTellsAdapter(Behind(Outcome(setup, store, task, Scan, env), entries), request);
    AnsweredWhenReached(setup, store, task, Scan, env);
  }

  /** An unplugged adapter, for instance. */
  lemma UnpluggedAdapterEscapes(setup: Setup, at: real)
    ensures var thrown := DriverError(true, "no CEC adapter found");
            var env := Env(at, at, Fails(thrown), [true], Returned(true));
            var adapter := Behind(Outcome(setup, EMPTY_STORE, 0, Scan, env), []);
            && Local(adapter, Scan).reply == Escaped(thrown)
            && ViaDaemon(adapter, Scan).reply == Failure(BackendFailure(true, "no CEC adapter found"))
  {
  }

  // -------------------------------------------------------------------- keys

  function Press(destination: int, key: byte): Method {
    Transmit(destination, OPCODE_USER_CONTROL_PRESSED, [key])
  }

  function Release(destination: int): Method {
    Transmit(destination, OPCODE_USER_CONTROL_RELEASE, [])
  }

  /** The binding answers the one message of a transmit like this. */
  function MessageEnv(env: Env, answer: CallEnd): Env {
    env.(acks := if answer.Returned? then [answer.ok] else [], end := answer)
  }

  /** It answers a key's press and release like this. */
  function KeyEnv(env: Env, press: CallEnd, release: CallEnd): Env {
    if press.Threw? then MessageEnv(env, press)
    else if release.Threw? then env.(acks := [press.ok], end := release)
    else env.(acks := [press.ok, release.ok], end := Returned(press.ok && release.ok))
  }

  predicate Timely(env: Env) {
    && env.asked <= env.ended
    && (env.wait.Opens? ==> env.asked <= env.wait.at <= env.ended)
    && (env.wait.Expires? ==> env.ended >= env.asked + OPEN_WAIT_SECONDS)
  }

  lemma AnswersAreLegal(setup: Setup, destination: int, key: byte, env: Env, press: CallEnd, release: CallEnd)
    requires Timely(env)
    ensures LegalEnv(setup, Call(Press(destination, key)), MessageEnv(env, press))
    ensures LegalEnv(setup, Call(Release(destination)), MessageEnv(env, release))
    ensures LegalEnv(setup, Call(SendKey(destination, key)), KeyEnv(env, press, release))
  {
    if press.Returned? {
      var acks := [press.ok];
      assert AllTrue(acks) ==> acks[0];
    }
    if release.Returned? {
      var acks := [release.ok];
      assert AllTrue(acks) ==> acks[0];
    }
    if press.Returned? && release.Returned? {
      var acks := [press.ok, release.ok];
      assert AllTrue(acks) ==> acks[0] && acks[1];
    }
  }

  /** What the bus is asked for: each message and whether it was accepted. */
  function Messages(events: seq<Event>): seq<(Meaning, bool)> {
    if events == [] then [] else
    var last := events[|events| - 1];
    Messages(events[..|events| - 1]) + if last.BusSent? then [(MeaningOf(last.op), last.ack)] else []
  }

  lemma {:induction false} MessagesConcat(a: seq<Event>, b: seq<Event>)
    ensures Messages(a + b) == Messages(a) + Messages(b)
  {
    if b == [] {
      assert a + b == a;
    } else {
      MessagesConcat(a, b[..|b| - 1]);
      assert (a + b)[..|a + b| - 1] == a + b[..|b| - 1];
    }
  }

  function Answers(meanings: seq<Meaning>, acks: seq<bool>): seq<(Meaning, bool)>
    requires |acks| <= |meanings|
  {
    seq(|acks|, i requires 0 <= i < |acks| => (meanings[i], acks[i]))
  }

  lemma {:induction false} MessagesOfSends(task: nat, driver: nat, ops: seq<BusOp>, acks: seq<bool>)
    requires |acks| <= |ops|
    ensures Messages(SendEvents(task, driver, ops, acks)) == Answers(MeaningsOf(ops), acks)
  {
    if acks != [] {
      var n := |acks| - 1;
      MessagesOfSends(task, driver, ops, acks[..n]);
      assert SendEvents(task, driver, ops, acks)[..n] == SendEvents(task, driver, ops, acks[..n]);
      assert Answers(MeaningsOf(ops), acks) == Answers(MeaningsOf(ops), acks[..n]) + [(MeaningOf(ops[n]), acks[n])];
    }
  }

  lemma MessagesOfCall(setup: Setup, task: nat, driver: nat, m: Method, env: Env)
    requires LegalEnv(setup, Call(m), env)
    ensures Messages(CallEvents(setup, task, driver, m, env.acks, Some(env.end))) ==
              Answers(MeaningsOf(Program(setup.binding, m)), env.acks)
  {
    var first, last := [CallStarted(task, driver, m)], [CallEnded(task, driver, env.end)];
    var sends := SendEvents(task, driver, Program(setup.binding, m), env.acks);
    MessagesConcat(first, sends);
    MessagesConcat(first + sends, last);
    MessagesOfSends(task, driver, Program(setup.binding, m), env.acks);
    assert Messages(first) == [] && Messages(last) == [];
  }

  lemma MessagesOfExecution(setup: Setup, store: Store, task: nat, m: Method, env: Env)
    requires LegalEnv(setup, Call(m), env)
    ensures Messages(Execute(setup, store, task, Call(m), env).events) ==
              if GetsDriver(store, env) then Answers(MeaningsOf(Program(setup.binding, m)), env.acks) else []
  {
    var d := if store.driver.Some? then store.driver.value else task;
    MessagesOfCall(setup, task, d, m, env);
    assert Messages([OpenStarted(task)]) == [];
    MessagesConcat([OpenStarted(task)], CallEvents(setup, task, d, m, env.acks, Some(env.end)));
  }

  datatype KeyRun = KeyRun(messages: seq<(Meaning, bool)>, reply: Reply)

  /** One key by `LocalBackend.async_send_key`. */
  function KeyLocally(
    setup: Setup, store: Store, task: nat, destination: int, key: byte, env: Env, press: CallEnd, release: CallEnd)
    : KeyRun
    requires Timely(env)
  {
    AnswersAreLegal(setup, destination, key, env, press, release);
    var m := SendKey(destination, key);
    var ran := Execute(setup, store, task, Call(m), KeyEnv(env, press, release));
    KeyRun(Messages(ran.events), LocalReply(m, ran.outcome, []))
  }

  datatype FrameRun = FrameRun(store: Store, run: KeyRun)

  /** One of its two messages through the daemon. */
  function FrameViaDaemon(setup: Setup, store: Store, task: nat, m: Method, env: Env, answer: CallEnd): FrameRun
    requires m.Transmit? && LegalEnv(setup, Call(m), MessageEnv(env, answer))
  {
    var ran := Execute(setup, store, task, Call(m), MessageEnv(env, answer));
    FrameRun(ran.store, KeyRun(Messages(ran.events), ViaDaemon(Behind(ran.outcome, []), m).reply))
  }

  /** One key by `CecBackend.async_send_key` through a daemon that does nothing
      else in between: the release is requested only if the press succeeded. */
  function KeyViaDaemon(
    setup: Setup, store: Store, task: nat, destination: int, key: byte, env: Env, press: CallEnd, release: CallEnd,
    later: Env): KeyRun
    requires Timely(env) && Timely(later)
  {
    AnswersAreLegal(setup, destination, key, env, press, release);
    AnswersAreLegal(setup, destination, key, later, press, release);
    var pressed := FrameViaDaemon(setup, store, task, Press(destination, key), env, press);
    if !pressed.run.reply.Success? then pressed.run
    else
      var released := FrameViaDaemon(setup, pressed.store, task + 1, Release(destination), later, release);
      KeyRun(pressed.run.messages + released.run.messages, released.run.reply)
  }

  lemma KeyAnswers(b: Binding, destination: int, key: byte, env: Env, press: CallEnd, release: CallEnd)
    ensures var acks, ops := KeyEnv(env, press, release).acks, Program(b, SendKey(destination, key));
            |acks| <= |ops| &&
            Answers(MeaningsOf(ops), acks) ==
              if press.Threw? then []
              else [(KeyPressed(destination, key), press.ok)] +
                   if release.Threw? then [] else [(KeyReleased(destination), release.ok)]
  {
    KeyIsTwoTransmits(b, b, destination, key);
  }

  lemma KeyLocallyIs(
    setup: Setup, store: Store, task: nat, destination: int, key: byte, env: Env, press: CallEnd, release: CallEnd)
    requires Timely(env)
    ensures var local := KeyLocally(setup, store, task, destination, key, env, press, release);
            && (local.reply.Success? <==>
                  GetsDriver(store, env) && press == Returned(true) && release == Returned(true))
            && !local.reply.Devices?
            && local.messages ==
                 if !GetsDriver(store, env) || press.Threw? then []
                 else [(KeyPressed(destination, key), press.ok)] +
                      if release.Threw? then [] else [(KeyReleased(destination), release.ok)]
  {
    var m, keyEnv := SendKey(destination, key), KeyEnv(env, press, release);
    AnswersAreLegal(setup, destination, key, env, press, release);
    MessagesOfExecution(setup, store, task, m, keyEnv);
    KeyAnswers(setup.binding, destination, key, env, press, release);
    AnsweredWhenReached(setup, store, task, m, keyEnv);
  }

  lemma FrameReplyIs(setup: Setup, store: Store, task: nat, m: Method, env: Env, answer: CallEnd)
    requires m.Transmit? && InRange(m) && LegalEnv(setup, Call(m), MessageEnv(env, answer))
    ensures var ran := Execute(setup, store, task, Call(m), MessageEnv(env, answer));
            && !ran.outcome.Released?
            && (GetsDriver(store, env) ==> ran.store.driver.Some?)
            && var reply := ViaDaemon(Behind(ran.outcome, []), m).reply;
               if GetsDriver(store, env) && answer == Returned(true) then reply.Success? else reply.Failure?
  {
    LocalFailureIsBackendError(setup, store, task, m, MessageEnv(env, answer), []);
  }

  lemma FrameViaDaemonIs(setup: Setup, store: Store, task: nat, m: Method, env: Env, answer: CallEnd)
    requires m.Transmit? && InRange(m) && LegalEnv(setup, Call(m), MessageEnv(env, answer))
    ensures var frame := FrameViaDaemon(setup, store, task, m, env, answer);
            && (if GetsDriver(store, env) && answer == Returned(true)
                then frame.run.reply.Success? else frame.run.reply.Failure?)
            && (GetsDriver(store, env) ==> frame.store.driver.Some?)
            && frame.run.messages ==
                 if !GetsDriver(store, env) || answer.Threw? then []
                 else [(MeaningOf(Frame(m.destination, m.opcode, m.params)), answer.ok)]
  {
    MessagesOfExecution(setup, store, task, m, MessageEnv(env, answer));
    FrameReplyIs(setup, store, task, m, env, answer);
  }

  lemma KeyViaDaemonIs(
    setup: Setup, store: Store, task: nat, destination: int, key: byte, env: Env, press: CallEnd, release: CallEnd,
    later: Env)
    requires Timely(env) && Timely(later) && 0 <= destination <= 15
    ensures var remote := KeyViaDaemon(setup, store, task, destination, key, env, press, release, later);
            && (if GetsDriver(store, env) && press == Returned(true) && release == Returned(true)
                then remote.reply.Success? else remote.reply.Failure?)
            && remote.messages ==
                 if !GetsDriver(store, env) || press.Threw? then []
                 else [(KeyPressed(destination, key), press.ok)] +
                      if !press.ok || release.Threw? then [] else [(KeyReleased(destination), release.ok)]
  {
    AnswersAreLegal(setup, destination, key, env, press, release);
    AnswersAreLegal(setup, destination, key, later, press, release);
    FrameViaDaemonIs(setup, store, task, Press(destination, key), env, press);
    var pressed := FrameViaDaemon(setup, store, task, Press(destination, key), env, press);
    if pressed.run.reply.Success? {
      FrameViaDaemonIs(setup, pressed.store, task + 1, Release(destination), later, release);
      assert GetsDriver(store, env) && press.ok && GetsDriver(pressed.store, later);
    }
  }

  /** One key on both transports, each with its own binding, its own stored driver
      and guard, and the same answers to the press and to the release: if both get
      at a driver or neither does, both succeed or neither does.  The bus is asked
      for the same exactly unless the press was refused and the local driver went
      on to release the key; the daemon's client never asks for that release. */
  lemma KeyTransportsAgree(
    here: Setup, there: Setup, store: Store, store': Store, task: nat, destination: int, key: byte,
    env: Env, env': Env, press: CallEnd, release: CallEnd, later: Env)
    requires Timely(env) && Timely(env') && Timely(later) && 0 <= destination <= 15
    requires GetsDriver(store, env) <==> GetsDriver(store', env')
    ensures var local := KeyLocally(here, store, task, destination, key, env, press, release);
            var remote := KeyViaDaemon(there, store', task, destination, key, env', press, release, later);
            && (local.reply.Success? <==> remote.reply.Success?)
            && (!remote.reply.Success? ==>
                  remote.reply.Failure? && (local.reply.Failure? || local.reply.Escaped?))
            && remote.messages <= local.messages
            && (local.messages == remote.messages <==>
                  !(GetsDriver(store, env) && press == Returned(false) && release.Returned?))
  {
    KeyLocallyIs(here, store, task, destination, key, env, press, release);
    KeyViaDaemonIs(there, store', task, destination, key, env', press, release, later);
  }

  /** A refused press, for instance. */
  lemma RefusedPressIsReleasedLocally(here: Setup, there: Setup, guard: GuardState, at: real)
    ensures var store, env := Store(Some(0), guard), Env(at, at, Opens(at), [], Returned(true));
            var press, release := Returned(false), Returned(true);
            var local := KeyLocally(here, store, 1, 0, 0x41, env, press, release);
            var remote := KeyViaDaemon(there, store, 1, 0, 0x41, env, press, release, env);
            local.messages != remote.messages
  {
    var store, env := Store(Some(0), guard), Env(at, at, Opens(at), [], Returned(true));
    KeyTransportsAgree(here, there, store, store, 1, 0, 0x41, env, env, Returned(false), Returned(true), env);
  }
}
