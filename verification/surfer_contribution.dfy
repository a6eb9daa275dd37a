/** The workbench contribution: one editor registration per waveform
    extension, each with the resource test that decides whether the
    waveform editor can open a resource. */
module SurferContribution {
  import opened Wrappers
  import opened JsString
  import opened Surfer
  import SurferEditorInput

  /** The id of the waveform editor pane. */
  const SurferEditorPaneId := "surfer.waveformEditor"

  /** One editor registration: the file glob and the editor it opens. */
  datatype Registration = Registration(glob: string, editorId: string)

  /** `exts.some(ext => s.endsWith(ext))`. */
  function SomeEndsWith(exts: seq<string>, s: string): (r: bool)
    ensures r <==> exists i :: 0 <= i < |exts| && EndsWith(s, exts[i])
    decreases |exts|
  {
    if exts == [] then false
    else if EndsWith(s, exts[0]) then true
    else
      var rest := SomeEndsWith(exts[1..], s);
      assert forall i :: 1 <= i < |exts| ==> exts[i] == exts[1..][i - 1];
      rest
  }

  /** `canSupportResource`: the lower-cased path ends with a waveform
      extension. It is exactly the corrected waveform-file test. */
  function CanSupportResource(resource: Uri): (r: bool)
    ensures r <==> IsWaveformFileCorrected(Some(resource))
  {
    SomeEndsWith(WaveformExtensions, ToLowerCase(resource.path))
  }

  /** For paths without U+0130 the editor resolver and `isWaveformFile` as
      written agree; for the path "İ.vcd" they do not. */
  lemma CanSupportAgreesWithIsWaveformFile(u: Uri)
    ensures DottedCapitalI !in u.path ==> (CanSupportResource(u) <==> IsWaveformFile(Some(u)))
    ensures u.path == [DottedCapitalI] + ".vcd" ==> CanSupportResource(u) && !IsWaveformFile(Some(u))
  {
    if DottedCapitalI !in u.path {
      AsWrittenAgreesWithoutDottedCapitalI(u);
    }
    if u.path == [DottedCapitalI] + ".vcd" {
      DottedCapitalIMisjudged(u);
    }
  }

  /** The registrations made for a list of extensions, in order: glob
      `*<ext>`, opening the waveform editor. */
  function RegisterWaveformEditors(exts: seq<string>): (r: seq<Registration>)
    ensures |r| == |exts|
    ensures forall i :: 0 <= i < |r| ==> r[i] == Registration("*" + exts[i], SurferEditorPaneId)
    decreases |exts|
  {
    if exts == [] then []
    else
      var n := |exts| - 1;
      var init := RegisterWaveformEditors(exts[..n]);
      assert forall i :: 0 <= i < n ==> exts[..n][i] == exts[i];
      init + [Registration("*" + exts[n], SurferEditorPaneId)]
  }

  /** The registrations the contribution makes. */
  function Registrations(): (r: seq<Registration>)
    ensures |r| == |WaveformExtensions|
  {
    RegisterWaveformEditors(WaveformExtensions)
  }

  /** Three registrations, `*.vcd`, `*.fst` and `*.ghw`, all for the editor
      that waveform inputs name as theirs. */
  lemma {:induction false} ThreeRegistrations()
    ensures Registrations() == [
      Registration("*.vcd", SurferEditorPaneId),
      Registration("*.fst", SurferEditorPaneId),
      Registration("*.ghw", SurferEditorPaneId)]
    ensures forall i :: 0 <= i < |Registrations()| ==>
              Registrations()[i].editorId == SurferEditorInput.EditorId
  {
    var r := Registrations();
    assert r[0].glob == "*.vcd" && r[1].glob == "*.fst" && r[2].glob == "*.ghw";
  }

  /** Every file a registration's glob names by its suffix can be opened:
      registration `i` has glob `*` followed by extension `i`, and a path
      ending in that extension passes the resource test, whatever comes
      before the extension. */
  lemma {:induction false} GlobSuffixSupported(prefix: string, text: string, i: int)
    requires 0 <= i < |WaveformExtensions|
    ensures Registrations()[i].glob == "*" + WaveformExtensions[i]
    ensures CanSupportResource(Uri(prefix + WaveformExtensions[i], text))
  {
    var ext := WaveformExtensions[i];
    LowerOfConcat(prefix, ext);
    ExtensionIsLowerCase(i);
    var lower := ToLowerCase(prefix + ext);
    assert lower == ToLowerCase(prefix) + ext;
    assert lower[|lower| - |ext|..] == ext;
    assert EndsWith(lower, WaveformExtensions[i]);
  }
}
