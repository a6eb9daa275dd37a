/** The editor input for one waveform resource: its name, title and
    description, the checks made before it opens, and when two inputs
    denote the same editor. */
module SurferEditorInput {
  import opened Wrappers
  import opened JsString
  import opened Surfer

  /** The type id of waveform editor inputs. */
  const TypeId := "workbench.input.surferWaveform"

  /** The id of the editor that opens these inputs. */
  const EditorId := "surfer.waveformEditor"

  /** The name shown for a resource when its path has no last segment. */
  const FallbackName := "waveform"

  /** An editor input: a waveform input for a resource, or an input of some
      other type. */
  datatype EditorInput = WaveformInput(resource: Uri) | OtherInput(typeId: string)

  function TypeIdOf(input: EditorInput): string {
    match input
    case WaveformInput(_) => TypeId
    case OtherInput(t) => t
  }

  /** `getName`: the last '/'-separated segment of the path, or the
      fallback name when that segment is empty (an empty path, or one
      ending in '/'). The name is the text after the last '/', never empty
      and never contains '/'. */
  function GetName(resource: Uri): (r: string)
    ensures var tail := resource.path[LastIndexOf(resource.path, '/') + 1..];
      r == (if tail == [] then FallbackName else tail)
    ensures r != [] && '/' !in r
  {
    var segment := LastPart(resource.path, '/');
    LastPartAfterLastSeparator(resource.path, '/');
    if segment == [] then FallbackName else segment
  }

  /** The name of `dir/name` is `name` whatever the directory, as long as
      `name` is a non-empty segment. */
  lemma NameIsLastSegment(dir: string, name: string, text: string)
    requires name != [] && '/' !in name
    ensures GetName(Uri(dir + "/" + name, text)) == name
  {
    var path := dir + "/" + name;
    LastIndexOfAt(path, '/', |dir|);
    assert path[|dir| + 1..] == name;
  }

  /** A path that ends in '/' is named by the fallback. */
  lemma DirectoryPathGetsFallbackName(dir: string, text: string)
    ensures GetName(Uri(dir + "/", text)) == FallbackName
  {
    LastIndexOfAt(dir + "/", '/', |dir|);
  }

  /** `getDescription`: the full path. */
  function GetDescription(resource: Uri): (r: string)
    ensures r == resource.path
  {
    resource.path
  }

  /** `getTitle`: the same text as the name. */
  function GetTitle(resource: Uri): (r: string)
    ensures r == GetName(resource)
  {
    GetName(resource)
  }

  /** Why an input failed to resolve. */
  datatype ResolveError = FileNotFound(resource: Uri) | InvalidWaveformFile(resource: Uri)

  /** The message of the error `resolve` throws. */
  function ErrorMessage(e: ResolveError): string {
    match e
    case FileNotFound(u) => "Waveform file not found: " + u.text
    case InvalidWaveformFile(u) => "Invalid waveform file: " + u.text
  }

  /** `resolve`, given whether the file service reports the resource as
      existing: a missing file is reported first, then a resource that
      `isWaveformFile`, as written, rejects; otherwise the input resolves. */
  function Resolve(resource: Uri, fileExists: bool): (r: Result<(), ResolveError>)
    ensures r.Success? <==> fileExists && IsWaveformFile(Some(resource))
    ensures !fileExists ==> r == Failure(FileNotFound(resource))
    ensures fileExists && r.Failure? ==> r == Failure(InvalidWaveformFile(resource))
  {
    if !fileExists then Failure(FileNotFound(resource))
    else if !IsWaveformFile(Some(resource)) then Failure(InvalidWaveformFile(resource))
    else Success(())
  }

  /** For a path without U+0130 an existing resource resolves exactly when
      its lower-cased path ends with a waveform extension. */
  lemma ResolveWithoutDottedCapitalI(resource: Uri, fileExists: bool)
    requires DottedCapitalI !in resource.path
    ensures Resolve(resource, fileExists).Success?
        <==> fileExists && HasWaveformSuffix(ToLowerCase(resource.path))
  {
    IsWaveformFileIffFinalExtension(resource);
  }

  /** An existing resource with path `İ.vcd` fails as not a waveform file,
      although its lower-cased path ends in `.vcd`. */
  lemma ResolveRejectsDottedCapitalI(resource: Uri)
    requires resource.path == [DottedCapitalI] + ".vcd"
    ensures Resolve(resource, true) == Failure(InvalidWaveformFile(resource))
    ensures ResolveCorrected(resource, true) == Success(())
  {
    DottedCapitalIMisjudged(resource);
  }

  /** `resolve` with the corrected waveform-file test: an existing resource
      resolves exactly when its lower-cased path ends with a waveform
      extension, the same test the editor resolver applies. */
  function ResolveCorrected(resource: Uri, fileExists: bool): (r: Result<(), ResolveError>)
    ensures r.Success? <==> fileExists && HasWaveformSuffix(ToLowerCase(resource.path))
    ensures !fileExists ==> r == Failure(FileNotFound(resource))
    ensures fileExists && r.Failure? ==> r == Failure(InvalidWaveformFile(resource))
  {
    if !fileExists then Failure(FileNotFound(resource))
    else if !IsWaveformFileCorrected(Some(resource)) then Failure(InvalidWaveformFile(resource))
    else Success(())
  }

  /** The two failures are told apart by their messages, and each message
      names the resource. */
  lemma ErrorMessagesDistinguishCauses(u: Uri, v: Uri)
    ensures ErrorMessage(FileNotFound(u)) != ErrorMessage(InvalidWaveformFile(v))
    ensures EndsWith(ErrorMessage(FileNotFound(u)), u.text)
    ensures EndsWith(ErrorMessage(InvalidWaveformFile(u)), u.text)
  {
    assert ErrorMessage(FileNotFound(u))[0] == 'W';
    assert ErrorMessage(InvalidWaveformFile(v))[0] == 'I';
    var m := ErrorMessage(FileNotFound(u));
    assert m[|m| - |u.text|..] == u.text;
    var n := ErrorMessage(InvalidWaveformFile(u));
    assert n[|n| - |u.text|..] == u.text;
  }

  /** `matches`: a waveform input matches only another waveform input whose
      resource has the same serialised form. */
  function Matches(self: Uri, other: EditorInput): (r: bool)
    ensures r <==> TypeIdOf(other) == TypeId && other.WaveformInput? && other.resource.text == self.text
  {
    match other
    case WaveformInput(u) => self.text == u.text
    case OtherInput(_) => false
  }

  /** Among waveform inputs, `matches` is an equivalence: reflexive,
      symmetric and transitive. */
  lemma MatchesIsEquivalence(a: Uri, b: Uri, c: Uri)
    ensures Matches(a, WaveformInput(a))
    ensures Matches(a, WaveformInput(b)) ==> Matches(b, WaveformInput(a))
    ensures Matches(a, WaveformInput(b)) && Matches(b, WaveformInput(c)) ==> Matches(a, WaveformInput(c))
  {
  }
}
