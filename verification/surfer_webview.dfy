/** One embedded viewer session: readiness, the file last asked for, and the
    `loadFile` calls still waiting for the viewer to signal readiness. Every
    event is a pure step that returns the next state, the messages posted to
    the viewer and the notifications fired to listeners, in order. */
module SurferWebview {
  import opened Wrappers
  import opened Surfer

  /** The session state. `waiting` holds, in call order, the resources of
      the `loadFile` calls suspended until the viewer is ready. */
  datatype Session = Session(
    options: ViewOptions,
    loaded: bool,
    currentFile: Option<Uri>,
    waiting: seq<Uri>,
    disposed: bool)

  /** A new viewer: not loaded, no file, nothing waiting. */
  function NewSession(options: ViewOptions): (s: Session)
    ensures !s.loaded && s.currentFile.None? && s.waiting == [] && !s.disposed
    ensures s.options == options
    ensures Invariant(s)
  {
    Session(options, false, None, [], false)
  }

  /** Calls wait only while the viewer is not ready, and never after the
      session was disposed. */
  predicate Invariant(s: Session) {
    s.waiting != [] ==> !s.loaded && !s.disposed
  }

  /** The configuration sent to the viewer. */
  datatype ViewerConfig = ViewerConfig(initialZoom: real, showMinimap: bool, theme: Theme)

  /** Messages from the host to the viewer. */
  datatype Outbound = Configure(config: ViewerConfig) | LoadFile(fileUrl: string)

  /** The `type` tag each outbound message carries. */
  function OutboundType(m: Outbound): string {
    match m
    case Configure(_) => "configure"
    case LoadFile(_) => "loadFile"
  }

  /** Notifications fired to the session's listeners. */
  datatype Notification =
    | DidReceiveMessage(message: SurferMessage)
    | DidLoadSurfer
    | DidSelectWaveform(data: Payload)
    | DidLoadFile(resource: Uri)

  /** What can happen to a session: a message from the viewer, a
      `loadFile` call, or `dispose`. */
  datatype Event = Incoming(message: SurferMessage) | LoadFileCall(resource: Uri) | DisposeCall

  /** The result of one step, or of a run of steps. */
  datatype Outcome = Outcome(session: Session, posted: seq<Outbound>, fired: seq<Notification>)

  /** The configuration a viewer with these options receives when the
      service reports `config`: each viewer option wins when defined,
      otherwise the service value is used; the theme falls back to the
      service's default theme. */
  function EffectiveViewerConfig(options: ViewOptions, config: Config): (r: ViewerConfig)
    ensures options.initialZoom.Some? ==> r.initialZoom == options.initialZoom.value
    ensures options.initialZoom.None? ==> r.initialZoom == config.initialZoom
    ensures options.showMinimap.Some? ==> r.showMinimap == options.showMinimap.value
    ensures options.showMinimap.None? ==> r.showMinimap == config.showMinimap
    ensures options.theme.Some? ==> r.theme == options.theme.value
    ensures options.theme.None? ==> r.theme == config.defaultTheme
  {
    ViewerConfig(
      options.initialZoom.GetOr(config.initialZoom),
      options.showMinimap.GetOr(config.showMinimap),
      options.theme.GetOr(config.defaultTheme))
  }

  /** Without options the viewer follows the service configuration. */
  lemma EmptyOptionsFollowService(config: Config)
    ensures EffectiveViewerConfig(NoViewOptions, config)
         == ViewerConfig(config.initialZoom, config.showMinimap, config.defaultTheme)
  {
  }

  /** A field the viewer options define takes the option's value whatever
      the service reports, and a field they leave undefined tracks the
      service: two service configurations give the same viewer field
      exactly when the option is defined or the service values agree. */
  lemma OverridesArePerField(options: ViewOptions, c1: Config, c2: Config)
    ensures var r1 := EffectiveViewerConfig(options, c1);
      && (options.initialZoom.Some? ==> r1.initialZoom == options.initialZoom.value)
      && (options.showMinimap.Some? ==> r1.showMinimap == options.showMinimap.value)
      && (options.theme.Some? ==> r1.theme == options.theme.value)
    ensures var r1, r2 := EffectiveViewerConfig(options, c1), EffectiveViewerConfig(options, c2);
      && (r1.initialZoom == r2.initialZoom <==> options.initialZoom.Some? || c1.initialZoom == c2.initialZoom)
      && (r1.showMinimap == r2.showMinimap <==> options.showMinimap.Some? || c1.showMinimap == c2.showMinimap)
      && (r1.theme == r2.theme <==> options.theme.Some? || c1.defaultTheme == c2.defaultTheme)
  {
  }

  /** `_applySurferConfiguration`: one `configure` message when the viewer
      is loaded, nothing otherwise. */
  function ApplySurferConfiguration(s: Session, config: Config): (r: seq<Outbound>)
    ensures |r| == (if s.loaded then 1 else 0)
    ensures forall m :: m in r ==> m == Configure(EffectiveViewerConfig(s.options, config))
  {
    if !s.loaded then [] else [Configure(EffectiveViewerConfig(s.options, config))]
  }

  /** The `loadFile` messages for the waiting calls, in call order. */
  function LoadMessages(waiting: seq<Uri>): (r: seq<Outbound>)
    ensures |r| == |waiting|
    ensures forall i :: 0 <= i < |r| ==> r[i] == LoadFile(waiting[i].text)
  {
    seq(|waiting|, i requires 0 <= i < |waiting| => LoadFile(waiting[i].text))
  }

  /** One event. `config` is what the service's `getConfiguration` returns
      at that moment.
      - A message from the viewer is first re-emitted to listeners, then
        dispatched on its command: `surfer-loaded` marks the viewer loaded,
        fires the readiness notification and posts the configuration; the
        waiting calls then resume in call order, each posting its own file.
        `waveform-selected` forwards its data; `file-loaded` reports the
        file last asked for, if any; other commands do nothing more.
      - `loadFile` records its resource at once, then posts it if the viewer
        is loaded and waits otherwise.
      - `dispose` drops the waiting calls; afterwards messages are no longer
        received and nothing reaches the viewer. */
  function Step(s: Session, e: Event, config: Config): (r: Outcome)
    ensures r.session.options == s.options
    ensures r.session.disposed == (s.disposed || e.DisposeCall?)
    ensures s.disposed ==> r.posted == [] && r.fired == []
    ensures e.LoadFileCall? ==> r.session.currentFile == Some(e.resource)
    ensures !e.LoadFileCall? ==> r.session.currentFile == s.currentFile
    ensures e.Incoming? && !s.disposed ==> |r.fired| >= 1 && r.fired[0] == DidReceiveMessage(e.message)
    ensures !e.Incoming? ==> r.fired == []
    ensures r.posted != [] ==> r.session.loaded && !r.session.disposed
    ensures Invariant(s) ==> Invariant(r.session)
  {
    match e
    case DisposeCall =>
      Outcome(s.(disposed := true, waiting := []), [], [])
    case LoadFileCall(resource) =>
      var s' := s.(currentFile := Some(resource));
      if s.disposed then Outcome(s', [], [])
      else if s.loaded then Outcome(s', [LoadFile(resource.text)], [])
      else Outcome(s'.(waiting := s.waiting + [resource]), [], [])
    case Incoming(message) =>
      if s.disposed then Outcome(s, [], [])
      else
        var received := [DidReceiveMessage(message)];
        if message.command == SurferLoadedCommand then
          var s' := s.(loaded := true, waiting := []);
          Outcome(s', ApplySurferConfiguration(s', config) + LoadMessages(s.waiting), received + [DidLoadSurfer])
        else if message.command == WaveformSelectedCommand then
          Outcome(s, [], received + [DidSelectWaveform(message.data)])
        else if message.command == FileLoadedCommand then
          if s.currentFile.Some? then Outcome(s, [], received + [DidLoadFile(s.currentFile.value)])
          else Outcome(s, [], received)
        else Outcome(s, [], received)
  }

  /** The readiness signal posts exactly one `configure`, built from the
      options and the configuration of that moment, followed by one
      `loadFile` per waiting call in call order, and empties the queue. It
      does so every time it arrives: a repeated signal posts `configure`
      again. */
  lemma ReadySignalConfiguresThenFlushes(s: Session, m: SurferMessage, config: Config)
    requires !s.disposed && m.command == SurferLoadedCommand
    ensures var r := Step(s, Incoming(m), config);
      && r.session.loaded && r.session.waiting == []
      && r.fired == [DidReceiveMessage(m), DidLoadSurfer]
      && |r.posted| == |s.waiting| + 1
      && r.posted[0] == Configure(EffectiveViewerConfig(s.options, config))
      && (forall i :: 0 <= i < |s.waiting| ==> r.posted[i + 1] == LoadFile(s.waiting[i].text))
      && OutboundType(r.posted[0]) == "configure"
      && (forall i :: 1 <= i < |r.posted| ==> OutboundType(r.posted[i]) == "loadFile")
  {
  }

  /** A `loadFile` call on a loaded viewer posts its resource at once; on a
      viewer not yet loaded it posts nothing and joins the end of the
      queue. */
  lemma LoadFileDependsOnReadiness(s: Session, u: Uri, config: Config)
    requires !s.disposed
    ensures var r := Step(s, LoadFileCall(u), config);
      && r.fired == []
      && (s.loaded ==> r.posted == [LoadFile(u.text)] && r.session.waiting == s.waiting)
      && (s.loaded ==> OutboundType(r.posted[0]) == "loadFile")
      && (!s.loaded ==> r.posted == [] && r.session.waiting == s.waiting + [u])
  {
  }

  /** `file-loaded` reports the file last asked for and ignores its own
      payload; when no file was ever asked for, only the message itself is
      re-emitted. */
  lemma FileLoadedReportsCurrentFile(s: Session, m: SurferMessage, config: Config)
    requires !s.disposed && m.command == FileLoadedCommand
    ensures var r := Step(s, Incoming(m), config);
      && r.session == s && r.posted == []
      && (s.currentFile.Some? ==> r.fired == [DidReceiveMessage(m), DidLoadFile(s.currentFile.value)])
      && (s.currentFile.None? ==> r.fired == [DidReceiveMessage(m)])
  {
  }

  /** A selection is forwarded with the message's data, nothing else. */
  lemma SelectionForwarded(s: Session, m: SurferMessage, config: Config)
    requires !s.disposed && m.command == WaveformSelectedCommand
    ensures var r := Step(s, Incoming(m), config);
      r.session == s && r.posted == [] && r.fired == [DidReceiveMessage(m), DidSelectWaveform(m.data)]
  {
  }

  /** A message with an unknown command is re-emitted and does nothing
      else. */
  lemma UnknownCommandIgnored(s: Session, m: SurferMessage, config: Config)
    requires !s.disposed
    requires m.command !in {SurferLoadedCommand, WaveformSelectedCommand, FileLoadedCommand}
    ensures var r := Step(s, Incoming(m), config);
      r.session == s && r.posted == [] && r.fired == [DidReceiveMessage(m)]
  {
  }

  /** Disposing drops every waiting call without output, and a second
      dispose changes nothing. */
  lemma DisposeDropsWaitersAndIsIdempotent(s: Session, config: Config)
    ensures var r := Step(s, DisposeCall, config);
      && r.session.disposed && r.session.waiting == [] && r.posted == [] && r.fired == []
      && Step(r.session, DisposeCall, config).session == r.session
  {
  }

  /** One input of a run: an event and the service configuration when it
      is handled. */
  datatype Input = Input(event: Event, config: Config)

  /** The steps of `inputs` taken in order from `s`: the final state and
      everything posted and fired on the way. */
  function Run(s: Session, inputs: seq<Input>): (r: Outcome)
    ensures r.session.options == s.options
    decreases |inputs|
  {
    if inputs == [] then Outcome(s, [], [])
    else
      var prev := Run(s, inputs[..|inputs| - 1]);
      var last := inputs[|inputs| - 1];
      var next := Step(prev.session, last.event, last.config);
      Outcome(next.session, prev.posted + next.posted, prev.fired + next.fired)
  }

  /** Every state a run reaches from a new session keeps the invariant. */
  lemma {:induction false} RunKeepsInvariant(s: Session, inputs: seq<Input>)
    requires Invariant(s)
    ensures Invariant(Run(s, inputs).session)
    decreases |inputs|
  {
    if inputs != [] {
      RunKeepsInvariant(s, inputs[..|inputs| - 1]);
    }
  }

  /** The resources of the `loadFile` calls among the inputs, in call order. */
  function LoadCalls(inputs: seq<Input>): seq<Uri>
    decreases |inputs|
  {
    if inputs == [] then []
    else
      var e := inputs[|inputs| - 1].event;
      LoadCalls(inputs[..|inputs| - 1]) + (if e.LoadFileCall? then [e.resource] else [])
  }

  /** The file URLs of the `loadFile` messages among the posted ones. */
  function PostedFiles(posted: seq<Outbound>): seq<string>
    decreases |posted|
  {
    if posted == [] then []
    else
      var m := posted[|posted| - 1];
      PostedFiles(posted[..|posted| - 1]) + (if m.LoadFile? then [m.fileUrl] else [])
  }

  lemma {:induction false} PostedFilesOfConcat(a: seq<Outbound>, b: seq<Outbound>)
    ensures PostedFiles(a + b) == PostedFiles(a) + PostedFiles(b)
    decreases |b|
  {
    if b == [] {
      assert a + b == a;
    } else {
      assert (a + b)[..|a + b| - 1] == a + b[..|b| - 1];
      PostedFilesOfConcat(a, b[..|b| - 1]);
    }
  }

  lemma {:induction false} PostedFilesOfLoadMessages(w: seq<Uri>)
    ensures PostedFiles(LoadMessages(w)) == Texts(w)
    decreases |w|
  {
    if w != [] {
      var n := |w| - 1;
      assert LoadMessages(w)[..n] == LoadMessages(w[..n]);
      PostedFilesOfLoadMessages(w[..n]);
      assert Texts(w) == Texts(w[..n]) + [w[n].text];
    }
  }

  /** The serialised forms of a sequence of resources. */
  function Texts(us: seq<Uri>): (r: seq<string>)
    ensures |r| == |us| && forall i :: 0 <= i < |us| ==> r[i] == us[i].text
  {
    seq(|us|, i requires 0 <= i < |us| => us[i].text)
  }

  /** The files posted so far followed by the waiting ones form a prefix
      of the files asked for, and all of them while not disposed. */
  predicate Accounted(s: Session, posted: seq<string>, asked: seq<string>) {
    && posted + Texts(s.waiting) <= asked
    && (!s.disposed ==> posted + Texts(s.waiting) == asked)
  }

  /** The files one event asks for. */
  function Asked(e: Event): seq<string> {
    if e.LoadFileCall? then [e.resource.text] else []
  }

  lemma StepKeepsAccounted(s: Session, e: Event, config: Config, posted: seq<string>, asked: seq<string>)
    requires Invariant(s) && Accounted(s, posted, asked)
    ensures var r := Step(s, e, config);
      Accounted(r.session, posted + PostedFiles(r.posted), asked + Asked(e))
  {
    var r := Step(s, e, config);
    match e {
      case DisposeCall =>
        assert posted + PostedFiles(r.posted) == posted;
      case LoadFileCall(u) =>
        if s.disposed {
          assert posted + PostedFiles(r.posted) == posted;
        } else if s.loaded {
          assert PostedFiles(r.posted) == [u.text] by {
            assert r.posted[..0] == [];
          }
        } else {
          assert posted + PostedFiles(r.posted) == posted;
          assert Texts(r.session.waiting) == Texts(s.waiting) + [u.text];
        }
      case Incoming(m) =>
        if !s.disposed && m.command == SurferLoadedCommand {
          var configure := ApplySurferConfiguration(r.session, config);
          PostedFilesOfConcat(configure, LoadMessages(s.waiting));
          PostedFilesOfLoadMessages(s.waiting);
          assert PostedFiles(configure) == [] by {
            assert configure[..0] == [];
          }
        } else {
          assert posted + PostedFiles(r.posted) == posted;
        }
    }
  }

  /** Every `loadFile` call is either posted or still waiting, each exactly
      once and in call order: the files posted so far followed by the
      waiting ones are the files asked for, as long as the session is not
      disposed. After disposal nothing more is posted, so the posted files
      remain a prefix of those asked for. */
  lemma {:induction false} LoadsPostedInCallOrder(options: ViewOptions, inputs: seq<Input>)
    ensures var r := Run(NewSession(options), inputs);
      && PostedFiles(r.posted) + Texts(r.session.waiting) <= Texts(LoadCalls(inputs))
      && (!r.session.disposed ==> PostedFiles(r.posted) + Texts(r.session.waiting) == Texts(LoadCalls(inputs)))
    decreases |inputs|
  {
    if inputs != [] {
      var init := inputs[..|inputs| - 1];
      var last := inputs[|inputs| - 1];
      LoadsPostedInCallOrder(options, init);
      RunKeepsInvariant(NewSession(options), init);
      var prev := Run(NewSession(options), init);
      var next := Step(prev.session, last.event, last.config);
      StepKeepsAccounted(prev.session, last.event, last.config, PostedFiles(prev.posted), Texts(LoadCalls(init)));
      PostedFilesOfConcat(prev.posted, next.posted);
      assert Texts(LoadCalls(inputs)) == Texts(LoadCalls(init)) + Asked(last.event);
    }
  }

  /** Until the viewer signals readiness nothing is posted to it. */
  lemma {:induction false} NothingPostedBeforeReady(options: ViewOptions, inputs: seq<Input>)
    requires forall i :: 0 <= i < |inputs| ==>
               !(inputs[i].event.Incoming? && inputs[i].event.message.command == SurferLoadedCommand)
    ensures Run(NewSession(options), inputs).posted == []
    ensures !Run(NewSession(options), inputs).session.loaded
    decreases |inputs|
  {
    if inputs != [] {
      NothingPostedBeforeReady(options, inputs[..|inputs| - 1]);
    }
  }

  /** The resource of the last `loadFile` call, if any. */
  function LastLoadCall(inputs: seq<Input>): (r: Option<Uri>)
    ensures r.None? <==> LoadCalls(inputs) == []
    ensures r.Some? ==> r.value == LoadCalls(inputs)[|LoadCalls(inputs)| - 1]
    decreases |inputs|
  {
    if inputs == [] then None
    else
      var e := inputs[|inputs| - 1].event;
      if e.LoadFileCall? then Some(e.resource) else LastLoadCall(inputs[..|inputs| - 1])
  }

  /** The recorded file is always the one of the most recent `loadFile`
      call, so a `file-loaded` message is attributed to that call whatever
      its payload says, and to nothing when there was none. */
  lemma {:induction false} CurrentFileIsLastRequest(options: ViewOptions, inputs: seq<Input>)
    ensures Run(NewSession(options), inputs).session.currentFile == LastLoadCall(inputs)
    decreases |inputs|
  {
    if inputs != [] {
      CurrentFileIsLastRequest(options, inputs[..|inputs| - 1]);
    }
  }

  /** Every incoming message of the inputs has the shape its command's
      interface declares. */
  predicate IncomingWellShaped(inputs: seq<Input>) {
    forall i :: 0 <= i < |inputs| && inputs[i].event.Incoming? ==> WellShaped(inputs[i].event.message)
  }

  /** Every selection notification among `fired` carries a selection. */
  predicate SelectionsAreSelections(fired: seq<Notification>) {
    forall j :: 0 <= j < |fired| && fired[j].DidSelectWaveform? ==> fired[j].data.Selection?
  }

  /** When the viewer sends messages of the declared shapes, every
      selection notification fired to listeners carries a selection (a
      signal name and a time position), since the handler forwards only the
      data of `waveform-selected` messages. */
  lemma {:induction false} SelectionsCarrySelectionData(s: Session, inputs: seq<Input>)
    requires IncomingWellShaped(inputs)
    ensures SelectionsAreSelections(Run(s, inputs).fired)
    decreases |inputs|
  {
    if inputs != [] {
      var init := inputs[..|inputs| - 1];
      var last := inputs[|inputs| - 1];
      assert IncomingWellShaped(init) by {
        forall i | 0 <= i < |init| && init[i].event.Incoming?
          ensures WellShaped(init[i].event.message)
        {
          assert init[i] == inputs[i];
        }
      }
      SelectionsCarrySelectionData(s, init);
      var prev := Run(s, init);
      var next := Step(prev.session, last.event, last.config);
      if last.event.Incoming? {
        assert WellShaped(last.event.message);
      }
      assert SelectionsAreSelections(next.fired);
      var fired := prev.fired + next.fired;
      assert Run(s, inputs).fired == fired;
      forall j | 0 <= j < |fired| && fired[j].DidSelectWaveform?
        ensures fired[j].data.Selection?
      {
        if j < |prev.fired| {
          assert fired[j] == prev.fired[j];
        } else {
          assert fired[j] == next.fired[j - |prev.fired|];
        }
      }
    }
  }
}
