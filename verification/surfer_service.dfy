/** The viewer service: reading the `surfer` configuration section with
    defaults, writing settings back, the configuration-change filter, and
    the registry of created viewers with its bulk dispose. */
module SurferService {
  import opened Wrappers
  import opened JsString
  import opened Surfer
  import opened SurferConfiguration
  import opened SurferWebview

  // ---------------------------------------------------------------- reading

  /** The stored `surfer` section as the configuration store returns it:
      every property may be missing (`undefined` or `null`). */
  datatype StoredSection = StoredSection(
    maxFileSize: Option<real>,
    enableBackgroundParsing: Option<bool>,
    wasmCacheEnabled: Option<bool>,
    defaultTheme: Option<Theme>,
    initialZoom: Option<real>,
    showMinimap: Option<bool>,
    openLinkedFiles: Option<bool>,
    syncWithEditor: Option<bool>,
    autoOpen: Option<bool>)

  /** The empty object `{}`. */
  const EmptySection := StoredSection(None, None, None, None, None, None, None, None, None)

  /** The stored value of one field, if any. */
  function Stored(s: StoredSection, f: Field): (v: Option<Value>)
    ensures v.Some? ==> WellTyped(f, v.value)
  {
    match f
    case MaxFileSize => if s.maxFileSize.Some? then Some(NumberValue(s.maxFileSize.value)) else None
    case EnableBackgroundParsing =>
      if s.enableBackgroundParsing.Some? then Some(BooleanValue(s.enableBackgroundParsing.value)) else None
    case WasmCacheEnabled => if s.wasmCacheEnabled.Some? then Some(BooleanValue(s.wasmCacheEnabled.value)) else None
    case DefaultTheme => if s.defaultTheme.Some? then Some(StringValue(ThemeName(s.defaultTheme.value))) else None
    case InitialZoom => if s.initialZoom.Some? then Some(NumberValue(s.initialZoom.value)) else None
    case ShowMinimap => if s.showMinimap.Some? then Some(BooleanValue(s.showMinimap.value)) else None
    case OpenLinkedFiles => if s.openLinkedFiles.Some? then Some(BooleanValue(s.openLinkedFiles.value)) else None
    case SyncWithEditor => if s.syncWithEditor.Some? then Some(BooleanValue(s.syncWithEditor.value)) else None
    case AutoOpen => if s.autoOpen.Some? then Some(BooleanValue(s.autoOpen.value)) else None
  }

  /** `getConfiguration`: every field is the stored value when one is
      present (even `false` or `0`, since the fallback applies only to a
      missing value), otherwise the default the schema declares for it. A
      missing section reads as `{}`. */
  function GetConfiguration(section: Option<StoredSection>): (c: Config)
    ensures forall f :: Get(c, f) ==
              (var stored := Stored(section.GetOr(EmptySection), f);
               if stored.Some? then stored.value else SchemaDefault(f))
  {
    var s := section.GetOr(EmptySection);
    Config(
      maxFileSize := s.maxFileSize.GetOr(100.0 * 1024.0 * 1024.0),
      enableBackgroundParsing := s.enableBackgroundParsing.GetOr(true),
      wasmCacheEnabled := s.wasmCacheEnabled.GetOr(true),
      defaultTheme := s.defaultTheme.GetOr(Auto),
      initialZoom := s.initialZoom.GetOr(1.0),
      showMinimap := s.showMinimap.GetOr(true),
      openLinkedFiles := s.openLinkedFiles.GetOr(true),
      syncWithEditor := s.syncWithEditor.GetOr(true),
      autoOpen := s.autoOpen.GetOr(true))
  }

  /** With nothing stored, every field takes its default. */
  lemma AbsentSectionGivesDefaults()
    ensures GetConfiguration(None) == GetConfiguration(Some(EmptySection))
    ensures GetConfiguration(None)
         == Config(104857600.0, true, true, Auto, 1.0, true, true, true, true)
  {
  }

  /** Each schema default equals the value `getConfiguration` falls back to
      for the field that entry documents. */
  lemma SchemaDefaultsAreFallbacks()
    ensures forall i :: 0 <= i < |Properties| ==>
              DocumentedField(Properties[i].name).Some? &&
              Properties[i].default == Get(GetConfiguration(None), DocumentedField(Properties[i].name).value)
  {
    EachFieldDocumentedOnce();
  }

  /** The section with one field set to a well-typed value. */
  function SetStored(s: StoredSection, f: Field, v: Value): (r: StoredSection)
    requires WellTyped(f, v)
    ensures Stored(r, f) == Some(v)
    ensures forall g :: g != f ==> Stored(r, g) == Stored(s, g)
  {
    match f
    case MaxFileSize => s.(maxFileSize := Some(v.n))
    case EnableBackgroundParsing => s.(enableBackgroundParsing := Some(v.b))
    case WasmCacheEnabled => s.(wasmCacheEnabled := Some(v.b))
    case DefaultTheme => s.(defaultTheme := ParseTheme(v.s))
    case InitialZoom => s.(initialZoom := Some(v.n))
    case ShowMinimap => s.(showMinimap := Some(v.b))
    case OpenLinkedFiles => s.(openLinkedFiles := Some(v.b))
    case SyncWithEditor => s.(syncWithEditor := Some(v.b))
    case AutoOpen => s.(autoOpen := Some(v.b))
  }

  /** The section with one field removed, as writing `undefined` does. */
  function ClearStored(s: StoredSection, f: Field): (r: StoredSection)
    ensures Stored(r, f) == None
    ensures forall g :: g != f ==> Stored(r, g) == Stored(s, g)
  {
    match f
    case MaxFileSize => s.(maxFileSize := None)
    case EnableBackgroundParsing => s.(enableBackgroundParsing := None)
    case WasmCacheEnabled => s.(wasmCacheEnabled := None)
    case DefaultTheme => s.(defaultTheme := None)
    case InitialZoom => s.(initialZoom := None)
    case ShowMinimap => s.(showMinimap := None)
    case OpenLinkedFiles => s.(openLinkedFiles := None)
    case SyncWithEditor => s.(syncWithEditor := None)
    case AutoOpen => s.(autoOpen := None)
  }

  /** The section after writing a value to one field: a defined value is
      stored, and `undefined` (`None`) removes the field. */
  function WriteStored(s: StoredSection, f: Field, v: Option<Value>): (r: StoredSection)
    requires v.Some? ==> WellTyped(f, v.value)
    ensures Stored(r, f) == v
    ensures forall g :: g != f ==> Stored(r, g) == Stored(s, g)
  {
    if v.None? then ClearStored(s, f) else SetStored(s, f, v.value)
  }

  /** Storing one field changes that field of the configuration to the
      stored value and leaves every other field as it was. */
  lemma StoringOneFieldChangesOnlyIt(s: StoredSection, f: Field, v: Value)
    requires WellTyped(f, v)
    ensures Get(GetConfiguration(Some(SetStored(s, f, v))), f) == v
    ensures forall g :: g != f ==>
              Get(GetConfiguration(Some(SetStored(s, f, v))), g) == Get(GetConfiguration(Some(s)), g)
  {
  }

  /** The section that stores every field of a configuration. */
  function SectionOf(c: Config): (s: StoredSection)
    ensures forall f :: Stored(s, f) == Some(Get(c, f))
  {
    StoredSection(Some(c.maxFileSize), Some(c.enableBackgroundParsing), Some(c.wasmCacheEnabled),
                  Some(c.defaultTheme), Some(c.initialZoom), Some(c.showMinimap),
                  Some(c.openLinkedFiles), Some(c.syncWithEditor), Some(c.autoOpen))
  }

  /** Reading back a stored configuration gives it unchanged, so feeding the
      result of `getConfiguration` back as the section is a fixed point. */
  lemma GetConfigurationIdempotent(section: Option<StoredSection>)
    ensures forall c :: GetConfiguration(Some(SectionOf(c))) == c
    ensures GetConfiguration(Some(SectionOf(GetConfiguration(section)))) == GetConfiguration(section)
  {
    forall c ensures GetConfiguration(Some(SectionOf(c))) == c {
      ConfigDeterminedByFields(GetConfiguration(Some(SectionOf(c))), c);
    }
  }

  // ---------------------------------------------------------------- writing

  /** One own property of the partial configuration passed to
      `updateConfiguration`, in `Object.entries` order. A property
      explicitly set to `undefined` is kept by `Object.entries`; its value
      is `None`. */
  datatype Entry = Entry(field: Field, value: Option<Value>)

  /** One call of the store's `updateValue(key, value)`; `None` passes
      `undefined`. */
  datatype Update = Update(key: string, value: Option<Value>)

  /** The field a flat `surfer.<name>` key writes, if any. */
  function KeyField(key: string): Option<Field> {
    var prefix := SurferConfigurationId + ".";
    if |prefix| <= |key| && key[..|prefix|] == prefix then FieldNamed(key[|prefix|..]) else None
  }

  /** `updateConfiguration`: one update per supplied entry, in order, keyed
      `surfer.` followed by the entry's name and carrying its value. Reading
      each key back names the entry's field. */
  function UpdateConfiguration(partial: seq<Entry>): (updates: seq<Update>)
    ensures |updates| == |partial|
    ensures forall i :: 0 <= i < |partial| ==>
              updates[i] == Update(KeyOf(partial[i].field), partial[i].value)
    ensures forall i :: 0 <= i < |partial| ==> KeyField(updates[i].key) == Some(partial[i].field)
  {
    seq(|partial|, i requires 0 <= i < |partial| => Update(KeyOf(partial[i].field), partial[i].value))
  }

  /** The flat key `surfer.<name>` a field is written under. */
  function KeyOf(f: Field): (key: string)
    ensures KeyField(key) == Some(f)
  {
    var prefix := SurferConfigurationId + ".";
    var key := prefix + FieldName(f);
    assert key[..|prefix|] == prefix;
    assert key[|prefix|..] == FieldName(f);
    key
  }

  /** An update the store can apply to the section: its key names a field
      and its value is `undefined` or has that field's type. */
  predicate Applicable(u: Update) {
    KeyField(u.key).Some? && (u.value.Some? ==> WellTyped(KeyField(u.key).value, u.value.value))
  }

  /** The store's `updateValue` seen from the `surfer` section: the flat
      property the key names takes the value, and is removed by
      `undefined`. An update that names no field
      of the section, or gives a value of another type, is outside this
      model of the section and leaves it as it was. */
  function ApplyUpdates(s: StoredSection, updates: seq<Update>): StoredSection
    decreases |updates|
  {
    if updates == [] then s
    else
      var rest := ApplyUpdates(s, updates[..|updates| - 1]);
      var last := updates[|updates| - 1];
      if Applicable(last) then WriteStored(rest, KeyField(last.key).value, last.value) else rest
  }

  /** The fields a partial configuration supplies. */
  function Supplied(partial: seq<Entry>): set<Field> {
    set i | 0 <= i < |partial| :: partial[i].field
  }

  /** A JavaScript object has each property at most once. */
  predicate DistinctFields(partial: seq<Entry>) {
    forall i, j :: 0 <= i < j < |partial| ==> partial[i].field != partial[j].field
  }

  /** Every defined value has its field's type. */
  predicate AllWellTyped(partial: seq<Entry>) {
    forall i :: 0 <= i < |partial| && partial[i].value.Some? ==> WellTyped(partial[i].field, partial[i].value.value)
  }

  /** Writing the updates of `updateConfiguration` stores every supplied
      value under its field, removes every field supplied as `undefined`,
      and leaves every other stored field as it was. */
  lemma {:induction false} UpdatesAreStored(s: StoredSection, partial: seq<Entry>)
    requires DistinctFields(partial) && AllWellTyped(partial)
    ensures var r := ApplyUpdates(s, UpdateConfiguration(partial));
      && (forall i :: 0 <= i < |partial| ==> Stored(r, partial[i].field) == partial[i].value)
      && (forall f :: f !in Supplied(partial) ==> Stored(r, f) == Stored(s, f))
    decreases |partial|
  {
    if partial != [] {
      var n := |partial| - 1;
      var init := partial[..n];
      var last := partial[n];
      assert partial == init + [last];
      assert forall i :: 0 <= i < n ==> init[i] == partial[i];
      UpdatesAreStored(s, init);
      LastUpdateApplied(s, init, last);
      var r := ApplyUpdates(s, UpdateConfiguration(partial));
      forall i | 0 <= i < n
        ensures Stored(r, partial[i].field) == partial[i].value
      {
        assert partial[i].field != last.field;
      }
      forall f | f !in Supplied(partial)
        ensures Stored(r, f) == Stored(s, f)
      {
        assert f != last.field;
        assert f !in Supplied(init);
      }
    }
  }

  /** The update for the last entry is applied after the others. */
  lemma LastUpdateApplied(s: StoredSection, init: seq<Entry>, last: Entry)
    requires last.value.Some? ==> WellTyped(last.field, last.value.value)
    ensures ApplyUpdates(s, UpdateConfiguration(init + [last]))
         == WriteStored(ApplyUpdates(s, UpdateConfiguration(init)), last.field, last.value)
  {
    var partial := init + [last];
    var n := |init|;
    assert partial[..n] == init;
    var updates := UpdateConfiguration(partial);
    assert updates[..n] == UpdateConfiguration(init);
    assert Applicable(updates[n]) && KeyField(updates[n].key).value == last.field;
  }

  /** Writing the updates of `updateConfiguration` and reading the
      configuration back gives every supplied field its supplied value, or
      its schema default when it was supplied as `undefined`, and leaves
      every other field as before. */
  lemma UpdatesAreReadBack(s: StoredSection, partial: seq<Entry>)
    requires DistinctFields(partial) && AllWellTyped(partial)
    ensures var c := GetConfiguration(Some(ApplyUpdates(s, UpdateConfiguration(partial))));
      && (forall i :: 0 <= i < |partial| ==>
            Get(c, partial[i].field) == partial[i].value.GetOr(SchemaDefault(partial[i].field)))
      && (forall f :: f !in Supplied(partial) ==> Get(c, f) == Get(GetConfiguration(Some(s)), f))
  {
    UpdatesAreStored(s, partial);
  }

  // ------------------------------------------------- configuration changes

  /** `affectsConfiguration("surfer")` for a change of the given keys: some
      changed key is the section itself or lies beneath it. */
  predicate AffectsSurfer(changedKeys: seq<string>) {
    exists i :: 0 <= i < |changedKeys| && UnderSection(changedKeys[i], SurferConfigurationId)
  }

  predicate UnderSection(key: string, section: string) {
    key == section || (|section| + 1 <= |key| && key[..|section| + 1] == section + ".")
  }

  // ------------------------------------------------------------- registry

  type ViewerId = nat

  /** The service: the viewers it created, in creation order, the next
      fresh viewer identity, and whether it was disposed. */
  datatype Service = Service(viewers: seq<ViewerId>, nextId: ViewerId, disposed: bool)

  const NewService := Service([], 0, false)

  /** The tracked viewers are distinct and were all handed out already. */
  predicate Valid(s: Service) {
    && (forall i, j :: 0 <= i < j < |s.viewers| ==> s.viewers[i] != s.viewers[j])
    && (forall i :: 0 <= i < |s.viewers| ==> s.viewers[i] < s.nextId)
  }

  /** Service events. */
  datatype ServiceEvent = DidChangeConfiguration | DidCreateViewer(viewer: ViewerId)

  /** `onDidChangeConfiguration` fires for a change that affects the
      `surfer` section, and for no other; once the service is disposed its
      listener is gone. */
  function ConfigurationChanged(s: Service, changedKeys: seq<string>): (events: seq<ServiceEvent>)
    ensures events == [] || events == [DidChangeConfiguration]
    ensures events != [] <==> !s.disposed && AffectsSurfer(changedKeys)
  {
    if !s.disposed && AffectsSurfer(changedKeys) then [DidChangeConfiguration] else []
  }

  /** Every key that names a field of the configuration lies beneath the
      `surfer` section. */
  lemma FieldKeysUnderSection(key: string)
    ensures KeyField(key).Some? ==> UnderSection(key, SurferConfigurationId)
  {
  }

  /** The keys an `updateConfiguration` call writes, in order. */
  function WrittenKeys(updates: seq<Update>): (keys: seq<string>)
    ensures |keys| == |updates|
    ensures forall i :: 0 <= i < |updates| ==> keys[i] == updates[i].key
  {
    seq(|updates|, i requires 0 <= i < |updates| => updates[i].key)
  }

  /** A change made through `updateConfiguration` is seen by the service's
      own filter. Every key it writes lies beneath `surfer`. How the store
      groups the writes into change events is up to the store, so the
      property is stated per event: any change event whose keys are among
      the written ones and not empty makes a live service fire its change
      event exactly once, and a disposed one fire nothing. */
  lemma UpdatesFireChange(s: Service, partial: seq<Entry>)
    ensures var keys := WrittenKeys(UpdateConfiguration(partial));
      && (forall i :: 0 <= i < |keys| ==> UnderSection(keys[i], SurferConfigurationId))
      && (forall changed: seq<string> | changed != [] && (forall k :: k in changed ==> k in keys) ::
            ConfigurationChanged(s, changed) == (if s.disposed then [] else [DidChangeConfiguration]))
  {
    var updates := UpdateConfiguration(partial);
    var keys := WrittenKeys(updates);
    forall i | 0 <= i < |keys| ensures UnderSection(keys[i], SurferConfigurationId) {
      FieldKeysUnderSection(keys[i]);
    }
    forall changed: seq<string> | changed != [] && (forall k :: k in changed ==> k in keys)
      ensures ConfigurationChanged(s, changed) == (if s.disposed then [] else [DidChangeConfiguration])
    {
      assert changed[0] in keys;
      assert UnderSection(changed[0], SurferConfigurationId);
    }
  }

  /** A key beside the section is not beneath it: `surferX.a` is not under
      `surfer`, `surfer.display.theme` is. */
  lemma SectionFilterExamples()
    ensures !UnderSection("surferX.a", SurferConfigurationId)
    ensures UnderSection("surfer.display.theme", SurferConfigurationId)
    ensures !AffectsSurfer([])
  {
    assert "surferX.a"[6] == 'X';
    assert "surfer.display.theme"[..7] == "surfer.";
  }

  /** The result of `createWaveformViewer`. */
  datatype Created = Created(service: Service, viewer: ViewerId, options: ViewOptions, events: seq<ServiceEvent>)

  /** `createWaveformViewer`: a fresh viewer, with `{}` for omitted options,
      joins the registry and `onDidCreateViewer` fires once with it. After
      the service is disposed the viewer is still tracked, but the event
      emitter no longer fires. */
  function CreateWaveformViewer(s: Service, options: Option<ViewOptions>): (r: Created)
    requires Valid(s)
    ensures Valid(r.service)
    ensures r.viewer !in s.viewers
    ensures r.service.viewers == s.viewers + [r.viewer]
    ensures r.service.disposed == s.disposed
    ensures r.options == (if options.Some? then options.value else NoViewOptions)
    ensures r.events == (if s.disposed then [] else [DidCreateViewer(r.viewer)])
  {
    var id := s.nextId;
    Created(Service(s.viewers + [id], id + 1, s.disposed), id, options.GetOr(NoViewOptions),
            if s.disposed then [] else [DidCreateViewer(id)])
  }

  /** The result of the service's `dispose`. */
  datatype Disposal = Disposal(service: Service, disposedViewers: seq<ViewerId>)

  /** `dispose`: every tracked viewer is disposed, in creation order, and
      the registry is left empty. */
  function DisposeService(s: Service): (r: Disposal)
    ensures r.disposedViewers == s.viewers
    ensures r.service.viewers == [] && r.service.disposed
    ensures Valid(r.service)
  {
    Disposal(Service([], s.nextId, true), s.viewers)
  }

  /** Operations on the service. */
  datatype ServiceOp = CreateOp(options: Option<ViewOptions>) | ChangeOp(changedKeys: seq<string>) | DisposeOp

  function Perform(s: Service, op: ServiceOp): (r: Service)
    requires Valid(s)
    ensures Valid(r)
  {
    match op
    case CreateOp(options) => CreateWaveformViewer(s, options).service
    case ChangeOp(_) => s
    case DisposeOp => DisposeService(s).service
  }

  function PerformAll(s: Service, ops: seq<ServiceOp>): (r: Service)
    requires Valid(s)
    ensures Valid(r)
    decreases |ops|
  {
    if ops == [] then s else Perform(PerformAll(s, ops[..|ops| - 1]), ops[|ops| - 1])
  }

  /** Viewers leave the registry only through `dispose`: without it every
      tracked viewer stays tracked, in place, and new ones are appended. */
  lemma {:induction false} ViewersOnlyGrowUntilDispose(s: Service, ops: seq<ServiceOp>)
    requires Valid(s)
    requires forall i :: 0 <= i < |ops| ==> !ops[i].DisposeOp?
    ensures s.viewers <= PerformAll(s, ops).viewers
    ensures |PerformAll(s, ops).viewers| == |s.viewers| + |set i | 0 <= i < |ops| && ops[i].CreateOp?|
    decreases |ops|
  {
    if ops != [] {
      var n := |ops| - 1;
      ViewersOnlyGrowUntilDispose(s, ops[..n]);
      var before := set i | 0 <= i < n && ops[..n][i].CreateOp?;
      var after := set i | 0 <= i < |ops| && ops[i].CreateOp?;
      if ops[n].CreateOp? {
        assert after == before + {n};
      } else {
        assert after == before;
      }
    }
  }

  // ---------------------------------------------- service with its viewers

  /** The service together with the session state of every viewer it
      created. */
  datatype Host = Host(service: Service, sessions: map<ViewerId, Session>)

  predicate HostValid(h: Host) {
    && Valid(h.service)
    && (forall i :: 0 <= i < |h.service.viewers| ==> h.service.viewers[i] in h.sessions)
    && (forall id :: id in h.sessions ==> id < h.service.nextId)
  }

  /** Creating a viewer through the host starts its session. */
  function HostCreate(h: Host, options: Option<ViewOptions>): (r: Host)
    requires HostValid(h)
    ensures HostValid(r)
    ensures var id := h.service.nextId;
      id !in h.sessions && r.sessions == h.sessions[id := NewSession(options.GetOr(NoViewOptions))]
  {
    var c := CreateWaveformViewer(h.service, options);
    Host(c.service, h.sessions[c.viewer := NewSession(c.options)])
  }

  /** Dispose the sessions of the listed viewers, one after the other. */
  function DisposeSessions(sessions: map<ViewerId, Session>, ids: seq<ViewerId>, config: Config): map<ViewerId, Session>
    decreases |ids|
  {
    if ids == [] then sessions
    else
      var rest := DisposeSessions(sessions, ids[..|ids| - 1], config);
      var id := ids[|ids| - 1];
      if id in rest then rest[id := Step(rest[id], DisposeCall, config).session] else rest
  }

  lemma {:induction false} DisposeSessionsEffect(sessions: map<ViewerId, Session>, ids: seq<ViewerId>, config: Config)
    ensures var r := DisposeSessions(sessions, ids, config);
      && r.Keys == sessions.Keys
      && (forall id :: id in sessions && id in ids ==>
            r[id] == sessions[id].(disposed := true, waiting := []))
      && (forall id :: id in sessions && id !in ids ==> r[id] == sessions[id])
    decreases |ids|
  {
    if ids != [] {
      var n := |ids| - 1;
      DisposeSessionsEffect(sessions, ids[..n], config);
      forall id | id in ids ensures id in ids[..n] || id == ids[n] {
        var k :| 0 <= k < |ids| && ids[k] == id;
        if k < n { assert ids[..n][k] == id; }
      }
    }
  }

  /** The service's `dispose` with its viewers: every tracked session is
      disposed (its waiting calls dropped), sessions no longer tracked are
      untouched, and the registry is empty afterwards. A viewer disposed
      earlier by its editor is disposed again, which changes nothing. */
  function HostDispose(h: Host, config: Config): (r: Host)
    requires HostValid(h)
    ensures HostValid(r)
    ensures r.service.viewers == [] && r.service.disposed
    ensures r.sessions.Keys == h.sessions.Keys
    ensures forall id :: id in h.service.viewers ==> r.sessions[id].disposed && r.sessions[id].waiting == []
    ensures forall id :: id in h.service.viewers ==> r.sessions[id].currentFile == h.sessions[id].currentFile
    ensures forall id :: id in h.sessions && id !in h.service.viewers ==> r.sessions[id] == h.sessions[id]
  {
    var d := DisposeService(h.service);
    DisposeSessionsEffect(h.sessions, d.disposedViewers, config);
    Host(d.service, DisposeSessions(h.sessions, d.disposedViewers, config))
  }
}
