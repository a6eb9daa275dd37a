/** The shared vocabulary of the waveform viewer: resources and the
    waveform-file test, the configuration and view-option shapes, and the
    messages the embedded viewer sends to the host. */
module Surfer {
  import opened Wrappers
  import opened JsString

  /** A resource. `path` is the URI's path component; `text` is its
      serialised form (what `URI.toString()` returns), which the core only
      compares and forwards. */
  datatype Uri = Uri(path: string, text: string)

  /** The recognised waveform file extensions, in declaration order. */
  const WaveformExtensions: seq<string> := [".vcd", ".fst", ".ghw"]

  /** Each extension is its own lower case, unit by unit. */
  lemma ExtensionIsLowerCase(i: int)
    requires 0 <= i < |WaveformExtensions|
    ensures forall k :: 0 <= k < |WaveformExtensions[i]| ==> NoCapital(WaveformExtensions[i][k])
    ensures ToLowerCase(WaveformExtensions[i]) == WaveformExtensions[i]
  {
    if i == 0 {
      FourLowerCaseUnits(".vcd");
    } else if i == 1 {
      FourLowerCaseUnits(".fst");
    } else {
      FourLowerCaseUnits(".ghw");
    }
  }

  lemma FourLowerCaseUnits(ext: string)
    requires |ext| == 4 && NoCapital(ext[0]) && NoCapital(ext[1]) && NoCapital(ext[2]) && NoCapital(ext[3])
    ensures forall k :: 0 <= k < |ext| ==> NoCapital(ext[k])
    ensures ToLowerCase(ext) == ext
  {
    assert ext == [ext[0], ext[1], ext[2], ext[3]];
    LowerOfLowerCase(ext);
  }

  /** True when the string ends with one of the waveform extensions. */
  predicate HasWaveformSuffix(s: string) {
    exists i :: 0 <= i < |WaveformExtensions| && EndsWith(s, WaveformExtensions[i])
  }

  /** `isWaveformFile` as written: the position of the last '.' is taken in
      the ORIGINAL path, but the text from that position is cut out of the
      LOWER-CASED path. A missing resource or an empty path is rejected. */
  function IsWaveformFile(resource: Option<Uri>): (r: bool)
    ensures r ==> resource.Some? && resource.value.path != []
    ensures resource.Some? && '.' !in resource.value.path ==> !r
  {
    if resource.None? || resource.value.path == [] then false
    else
      var path := resource.value.path;
      LowerKeepsDots(path);
      Substring(ToLowerCase(path), LastIndexOf(path, '.')) in WaveformExtensions
  }

  /** The text from the last '.' of a lower-cased path to its end, with the
      position taken in the lower-cased path itself. */
  function FinalExtension(path: string): string {
    var lower := ToLowerCase(path);
    Substring(lower, LastIndexOf(lower, '.'))
  }

  /** `isWaveformFile` as evidently intended: the lower-cased final
      extension is one of the three. */
  function IsWaveformFileCorrected(resource: Option<Uri>): (r: bool)
    ensures r <==> resource.Some? && HasWaveformSuffix(ToLowerCase(resource.value.path))
  {
    if resource.None? || resource.value.path == [] then false
    else
      SuffixFromLastDot(ToLowerCase(resource.value.path));
      FinalExtension(resource.value.path) in WaveformExtensions
  }

  /** Each extension has its only '.' in front, so the text from the last
      '.' is an extension exactly when the string ends with one. A string
      without '.' is compared whole and never matches. */
  lemma SuffixFromLastDot(s: string)
    ensures Substring(s, LastIndexOf(s, '.')) in WaveformExtensions <==> HasWaveformSuffix(s)
  {
    var d := LastIndexOf(s, '.');
    var ext := Substring(s, d);
    if ext in WaveformExtensions {
      var k :| 0 <= k < |WaveformExtensions| && WaveformExtensions[k] == ext;
      assert s[|s| - |ext|..] == ext;
      assert EndsWith(s, WaveformExtensions[k]);
    }
    if HasWaveformSuffix(s) {
      var k :| 0 <= k < |WaveformExtensions| && EndsWith(s, WaveformExtensions[k]);
      var e := WaveformExtensions[k];
      ExtensionShape(k);
      var start := |s| - 4;
      forall j | start < j < |s| ensures s[j] != '.' {
        assert s[j] == e[j - start];
      }
      assert s[start] == e[0];
      LastIndexOfAt(s, '.', start);
    }
  }

  /** Every extension is four units long with its only '.' in front. */
  lemma ExtensionShape(k: int)
    requires 0 <= k < |WaveformExtensions|
    ensures var e := WaveformExtensions[k];
      |e| == 4 && e[0] == '.' && forall j :: 0 < j < |e| ==> e[j] != '.'
  {
  }

  /** Without U+0130 the two definitions agree: lower-casing keeps every
      position, so the last '.' is at the same index in both strings. */
  lemma AsWrittenAgreesWithoutDottedCapitalI(u: Uri)
    requires DottedCapitalI !in u.path
    ensures IsWaveformFile(Some(u)) == IsWaveformFileCorrected(Some(u))
  {
    var p := u.path;
    var lower := ToLowerCase(p);
    LowerKeepsPositions(p);
    assert forall i :: 0 <= i < |p| ==> (lower[i] == '.' <==> p[i] == '.');
    SameDotsSameLastDot(p, lower);
  }

  lemma SameDotsSameLastDot(p: string, q: string)
    requires |p| == |q|
    requires forall i :: 0 <= i < |p| ==> (p[i] == '.' <==> q[i] == '.')
    ensures LastIndexOf(p, '.') == LastIndexOf(q, '.')
  {
  }

  /** As written, a path with U+0130 before its final extension is
      rejected although it ends in ".vcd": the index of the last '.' in the
      original path points one unit too early in the lower-cased one. */
  lemma DottedCapitalIMisjudged(u: Uri)
    requires u.path == [DottedCapitalI] + ".vcd"
    ensures !IsWaveformFile(Some(u))
    ensures IsWaveformFileCorrected(Some(u))
  {
    var p := u.path;
    LastIndexOfAt(p, '.', 1);
    var lower := ToLowerCase(p);
    ExtensionIsLowerCase(0);
    LowerOfDottedCapitalI(".vcd");
    assert lower[1..] == [CombiningDotAbove] + ".vcd";
    assert lower[2..] == WaveformExtensions[0];
  }

  lemma LowerOfDottedCapitalI(rest: string)
    requires forall i :: 0 <= i < |rest| ==> NoCapital(rest[i])
    ensures ToLowerCase([DottedCapitalI] + rest) == ['i', CombiningDotAbove] + rest
  {
    LowerOfConcat([DottedCapitalI], rest);
    LowerOfLowerCase(rest);
    var one := [DottedCapitalI];
    assert one[..0] == [];
    assert ToLowerCase(one) == ToLowerCase([]) + LowerUnits(DottedCapitalI);
  }

  /** Two paths that differ only in the case of ASCII letters. */
  predicate SameUpToAsciiCase(p: string, q: string) {
    && |p| == |q|
    && forall i :: 0 <= i < |p| ==>
         p[i] == q[i] || (IsAsciiLetter(p[i]) && IsAsciiLetter(q[i]) && LowerAscii(p[i]) == LowerAscii(q[i]))
  }

  predicate IsAsciiLetter(c: char) {
    'A' <= c <= 'Z' || 'a' <= c <= 'z'
  }

  lemma {:induction false} SameUpToAsciiCaseSameLower(p: string, q: string)
    requires SameUpToAsciiCase(p, q)
    ensures ToLowerCase(p) == ToLowerCase(q)
    decreases |p|
  {
    if p != [] {
      var n := |p| - 1;
      assert SameUpToAsciiCase(p[..n], q[..n]);
      SameUpToAsciiCaseSameLower(p[..n], q[..n]);
      assert LowerUnits(p[n]) == LowerUnits(q[n]);
    }
  }

  /** Changing the case of ASCII letters in a path never changes whether it
      is a waveform file. */
  lemma CaseOfAsciiLettersIrrelevant(u: Uri, v: Uri)
    requires SameUpToAsciiCase(u.path, v.path)
    ensures IsWaveformFile(Some(u)) == IsWaveformFile(Some(v))
  {
    SameUpToAsciiCaseSameLower(u.path, v.path);
    SameDotsSameLastDot(u.path, v.path);
  }

  /** For paths without U+0130, a waveform file is one whose lower-cased
      path ends with one of the extensions; equivalently, whose text from
      the last '.' on, lower-cased, is one of them. */
  lemma IsWaveformFileIffFinalExtension(u: Uri)
    requires DottedCapitalI !in u.path
    ensures IsWaveformFile(Some(u)) <==> HasWaveformSuffix(ToLowerCase(u.path))
    ensures IsWaveformFile(Some(u)) <==> FinalExtension(u.path) in WaveformExtensions
  {
    AsWrittenAgreesWithoutDottedCapitalI(u);
    SuffixFromLastDot(ToLowerCase(u.path));
  }

  /** Only the final extension counts: "a.vcd.txt" is rejected. */
  lemma InnerExtensionRejected(u: Uri)
    requires u.path == "a.vcd.txt"
    ensures !IsWaveformFile(Some(u))
  {
    LowerKeepsPositions(u.path);
    LastIndexOfAt(u.path, '.', 5);
    assert ToLowerCase(u.path)[5..] == ".txt";
  }

  /** Only the final extension counts: "a.txt.vcd" is accepted. */
  lemma FinalExtensionAccepted(u: Uri)
    requires u.path == "a.txt.vcd"
    ensures IsWaveformFile(Some(u))
  {
    LowerKeepsPositions(u.path);
    LastIndexOfAt(u.path, '.', 5);
    assert ToLowerCase(u.path)[5..] == ".vcd";
  }

  /** Upper-case extensions are recognised: "TRACE.VCD" is accepted. */
  lemma UpperCaseExtensionAccepted(u: Uri)
    requires u.path == "TRACE.VCD"
    ensures IsWaveformFile(Some(u))
  {
    LowerKeepsPositions(u.path);
    LastIndexOfAt(u.path, '.', 5);
    assert ToLowerCase(u.path)[5..] == ".vcd";
  }

  /** The colour theme of the viewer. */
  datatype Theme = Dark | Light | Auto

  /** The theme as the configuration writes it. */
  function ThemeName(t: Theme): string {
    match t
    case Dark => "dark"
    case Light => "light"
    case Auto => "auto"
  }

  /** The theme a configuration string names, if any. */
  function ParseTheme(s: string): (r: Option<Theme>)
    ensures r.Some? ==> ThemeName(r.value) == s
    ensures forall t :: ThemeName(t) == s ==> r == Some(t)
  {
    if s == "dark" then Some(Dark)
    else if s == "light" then Some(Light)
    else if s == "auto" then Some(Auto)
    else None
  }

  /** Per-viewer options; each field may be left undefined. */
  datatype ViewOptions = ViewOptions(
    theme: Option<Theme>,
    initialZoom: Option<real>,
    showMinimap: Option<bool>,
    retainContextWhenHidden: Option<bool>)

  /** The empty options object `{}`. */
  const NoViewOptions := ViewOptions(None, None, None, None)

  /** The effective configuration: every field has a value. Numbers are
      JavaScript numbers, modelled as reals. */
  datatype Config = Config(
    maxFileSize: real,
    enableBackgroundParsing: bool,
    wasmCacheEnabled: bool,
    defaultTheme: Theme,
    initialZoom: real,
    showMinimap: bool,
    openLinkedFiles: bool,
    syncWithEditor: bool,
    autoOpen: bool)

  /** The configuration fields, one per property of the configuration
      record. */
  datatype Field =
    | MaxFileSize | EnableBackgroundParsing | WasmCacheEnabled
    | DefaultTheme | InitialZoom | ShowMinimap
    | OpenLinkedFiles | SyncWithEditor | AutoOpen

  /** The property name of each field. */
  function FieldName(f: Field): string {
    match f
    case MaxFileSize => "maxFileSize"
    case EnableBackgroundParsing => "enableBackgroundParsing"
    case WasmCacheEnabled => "wasmCacheEnabled"
    case DefaultTheme => "defaultTheme"
    case InitialZoom => "initialZoom"
    case ShowMinimap => "showMinimap"
    case OpenLinkedFiles => "openLinkedFiles"
    case SyncWithEditor => "syncWithEditor"
    case AutoOpen => "autoOpen"
  }

  /** The field a property name denotes: the inverse of `FieldName`. */
  function FieldNamed(name: string): (r: Option<Field>)
    ensures r.Some? ==> FieldName(r.value) == name
    ensures forall f :: FieldName(f) == name ==> r == Some(f)
  {
    if name == "maxFileSize" then Some(MaxFileSize)
    else if name == "enableBackgroundParsing" then Some(EnableBackgroundParsing)
    else if name == "wasmCacheEnabled" then Some(WasmCacheEnabled)
    else if name == "defaultTheme" then Some(DefaultTheme)
    else if name == "initialZoom" then Some(InitialZoom)
    else if name == "showMinimap" then Some(ShowMinimap)
    else if name == "openLinkedFiles" then Some(OpenLinkedFiles)
    else if name == "syncWithEditor" then Some(SyncWithEditor)
    else if name == "autoOpen" then Some(AutoOpen)
    else None
  }

  /** A configuration value as the configuration store holds it. */
  datatype Value = NumberValue(n: real) | BooleanValue(b: bool) | StringValue(s: string)

  /** The value has the type the field declares (a theme must name one). */
  predicate WellTyped(f: Field, v: Value) {
    match f
    case MaxFileSize => v.NumberValue?
    case InitialZoom => v.NumberValue?
    case DefaultTheme => v.StringValue? && ParseTheme(v.s).Some?
    case _ => v.BooleanValue?
  }

  /** The value of one field of a configuration. */
  function Get(c: Config, f: Field): (v: Value)
    ensures WellTyped(f, v)
  {
    match f
    case MaxFileSize => NumberValue(c.maxFileSize)
    case EnableBackgroundParsing => BooleanValue(c.enableBackgroundParsing)
    case WasmCacheEnabled => BooleanValue(c.wasmCacheEnabled)
    case DefaultTheme => StringValue(ThemeName(c.defaultTheme))
    case InitialZoom => NumberValue(c.initialZoom)
    case ShowMinimap => BooleanValue(c.showMinimap)
    case OpenLinkedFiles => BooleanValue(c.openLinkedFiles)
    case SyncWithEditor => BooleanValue(c.syncWithEditor)
    case AutoOpen => BooleanValue(c.autoOpen)
  }

  /** Two configurations are equal exactly when every field agrees. */
  lemma ConfigDeterminedByFields(c: Config, d: Config)
    requires forall f :: Get(c, f) == Get(d, f)
    ensures c == d
  {
    assert Get(c, MaxFileSize) == Get(d, MaxFileSize);
    assert Get(c, EnableBackgroundParsing) == Get(d, EnableBackgroundParsing);
    assert Get(c, WasmCacheEnabled) == Get(d, WasmCacheEnabled);
    assert Get(c, DefaultTheme) == Get(d, DefaultTheme);
    assert ParseTheme(ThemeName(c.defaultTheme)) == Some(c.defaultTheme);
    assert Get(c, InitialZoom) == Get(d, InitialZoom);
    assert Get(c, ShowMinimap) == Get(d, ShowMinimap);
    assert Get(c, OpenLinkedFiles) == Get(d, OpenLinkedFiles);
    assert Get(c, SyncWithEditor) == Get(d, SyncWithEditor);
    assert Get(c, AutoOpen) == Get(d, AutoOpen);
  }

  /** The `data` of a message from the viewer. The source types it `any`;
      these are the shapes the message interfaces declare, plus anything
      else. */
  datatype Payload =
    | NoData
    | Selection(signalName: string, timePosition: real)
    | FileInfo(filename: string, signalCount: real, timespan: real)
    | OtherData

  /** A message from the viewer: a command tag and its data. */
  datatype SurferMessage = SurferMessage(command: string, data: Payload)

  const SurferLoadedCommand := "surfer-loaded"
  const WaveformSelectedCommand := "waveform-selected"
  const FileLoadedCommand := "file-loaded"

  /** The message has the shape its tag's interface declares: no data for
      `surfer-loaded`, a selection for `waveform-selected`, file facts for
      `file-loaded`. Other tags are unconstrained. */
  predicate WellShaped(m: SurferMessage) {
    && (m.command == SurferLoadedCommand ==> m.data.NoData?)
    && (m.command == WaveformSelectedCommand ==> m.data.Selection?)
    && (m.command == FileLoadedCommand ==> m.data.FileInfo?)
  }
}
