/** The declared settings schema of the viewer: nine entries under the
    `surfer` configuration node, with their types, defaults and bounds. */
module SurferConfiguration {
  import opened Wrappers
  import opened Surfer
  import opened JsString

  /** The id of the configuration node, also the section the service reads. */
  const SurferConfigurationId := "surfer"

  const MiB: real := 1024.0 * 1024.0

  /** The JSON schema type of a setting. */
  datatype SettingType = NumberType | BooleanType | StringType

  /** One schema property, keyed `surfer.<group>.<name>`: type, default,
      optional bounds and, for strings, the allowed values (empty when
      unrestricted). */
  datatype SchemaEntry = SchemaEntry(
    group: string,
    name: string,
    kind: SettingType,
    default: Value,
    minimum: Option<real>,
    maximum: Option<real>,
    enumValues: seq<string>)
  {
    /** The property key, e.g. `surfer.performance.maxFileSize`. */
    function Key(): string {
      SurferConfigurationId + "." + group + "." + name
    }
  }

  function BooleanEntry(group: string, name: string): SchemaEntry {
    SchemaEntry(group, name, BooleanType, BooleanValue(true), None, None, [])
  }

  /** The schema properties in declaration order. */
  const Properties: seq<SchemaEntry> := [
    SchemaEntry("performance", "maxFileSize", NumberType, NumberValue(100.0 * MiB),
                Some(MiB), Some(1024.0 * MiB), []),
    BooleanEntry("performance", "enableBackgroundParsing"),
    BooleanEntry("performance", "wasmCacheEnabled"),
    SchemaEntry("display", "theme", StringType, StringValue("auto"),
                None, None, ["dark", "light", "auto"]),
    SchemaEntry("display", "initialZoom", NumberType, NumberValue(1.0),
                Some(0.1), Some(10.0), []),
    BooleanEntry("display", "showMinimap"),
    BooleanEntry("integration", "autoOpen"),
    BooleanEntry("integration", "syncWithEditor"),
    BooleanEntry("integration", "openLinkedFiles")
  ]

  /** The setting groups a key may name. */
  const Groups: seq<string> := ["performance", "display", "integration"]

  /** The configuration field a schema entry documents, by its name. The
      schema's `theme` documents the field `defaultTheme`. */
  function DocumentedField(name: string): Option<Field> {
    if name == "theme" then Some(DefaultTheme)
    else if name == "defaultTheme" then None
    else FieldNamed(name)
  }

  /** A key is determined by its group and name as long as the group has
      no '.': the first '.' after the prefix ends the group. */
  lemma {:induction false} KeyDeterminesGroupAndName(e1: SchemaEntry, e2: SchemaEntry)
    requires '.' !in e1.group && '.' !in e2.group
    requires e1.Key() == e2.Key()
    ensures e1.group == e2.group && e1.name == e2.name
  {
    var prefix := SurferConfigurationId + ".";
    var t1 := e1.group + "." + e1.name;
    var t2 := e2.group + "." + e2.name;
    assert e1.Key() == prefix + t1 && e2.Key() == prefix + t2;
    assert t1 == e1.Key()[|prefix|..] == t2;
    FirstDotEndsGroup(e1.group, e1.name);
    FirstDotEndsGroup(e2.group, e2.name);
    assert |e1.group| == |e2.group|;
    assert e1.group == t1[..|e1.group|];
    assert e2.group == t2[..|e2.group|];
    assert e1.name == t1[|e1.group| + 1..];
    assert e2.name == t2[|e2.group| + 1..];
  }

  lemma FirstDotEndsGroup(group: string, name: string)
    requires '.' !in group
    ensures IndexOf(group + "." + name, '.') == |group|
  {
    var t := group + "." + name;
    assert t[|group|] == '.';
    assert forall j :: 0 <= j < |group| ==> t[j] == group[j];
  }

  /** Every entry is in a known group and has a dot-free name. */
  lemma EntriesAreGrouped()
    ensures |Properties| == 9
    ensures forall i :: 0 <= i < |Properties| ==>
              Properties[i].group in Groups && Properties[i].name != [] && '.' !in Properties[i].name
  {
    forall i | 0 <= i < |Properties|
      ensures Properties[i].group in Groups && Properties[i].name != [] && '.' !in Properties[i].name
    {
      var n := Properties[i].name;
      assert forall k :: 0 <= k < |n| ==> n[k] != '.';
    }
  }

  /** The nine names are pairwise distinct. */
  lemma NamesDistinct()
    ensures forall i, j :: 0 <= i < j < |Properties| ==> Properties[i].name != Properties[j].name
  {
    forall i, j | 0 <= i < j < |Properties|
      ensures Properties[i].name != Properties[j].name
    {
      assert DocumentedField(Properties[i].name) != DocumentedField(Properties[j].name);
    }
  }

  /** There are nine entries, each keyed `surfer.<group>.<name>` in a known
      group, with pairwise distinct keys. */
  lemma NineDistinctGroupedKeys()
    ensures |Properties| == 9
    ensures forall i :: 0 <= i < |Properties| ==> Properties[i].group in Groups
    ensures forall i, j :: 0 <= i < j < |Properties| ==> Properties[i].Key() != Properties[j].Key()
  {
    EntriesAreGrouped();
    NamesDistinct();
    forall i, j | 0 <= i < j < |Properties|
      ensures Properties[i].Key() != Properties[j].Key()
    {
      if Properties[i].Key() == Properties[j].Key() {
        KeyDeterminesGroupAndName(Properties[i], Properties[j]);
      }
    }
  }

  /** The index of the entry documenting each field. */
  function EntryOf(f: Field): (i: nat)
    ensures i < |Properties| && DocumentedField(Properties[i].name) == Some(f)
  {
    match f
    case MaxFileSize => 0
    case EnableBackgroundParsing => 1
    case WasmCacheEnabled => 2
    case DefaultTheme => 3
    case InitialZoom => 4
    case ShowMinimap => 5
    case AutoOpen => 6
    case SyncWithEditor => 7
    case OpenLinkedFiles => 8
  }

  /** The default the schema declares for the property documenting each
      field. */
  function SchemaDefault(f: Field): (v: Value)
    ensures v == Properties[EntryOf(f)].default
    ensures WellTyped(f, v)
  {
    match f
    case MaxFileSize => NumberValue(100.0 * MiB)
    case DefaultTheme => StringValue("auto")
    case InitialZoom => NumberValue(1.0)
    case _ => BooleanValue(true)
  }

  /** The schema documents every configuration field exactly once. */
  lemma EachFieldDocumentedOnce()
    ensures forall i :: 0 <= i < |Properties| ==> DocumentedField(Properties[i].name).Some?
    ensures forall i, j :: 0 <= i < j < |Properties| ==>
              DocumentedField(Properties[i].name) != DocumentedField(Properties[j].name)
    ensures forall f :: DocumentedField(Properties[EntryOf(f)].name) == Some(f)
  {
  }

  /** Every default satisfies its own entry: numbers lie within the declared
      bounds, strings are among the declared values, and the value has the
      declared type. The file-size default is 100 MiB within [1 MiB, 1 GiB];
      the zoom default 1.0 within [0.1, 10.0]; the theme enum is exactly
      dark, light, auto. */
  lemma DefaultsWithinDeclaredBounds()
    ensures forall e :: e in Properties ==> DefaultAdmissible(e)
    ensures Properties[0].default == NumberValue(100.0 * MiB)
    ensures Properties[0].minimum == Some(MiB) && Properties[0].maximum == Some(1024.0 * MiB)
    ensures Properties[3].enumValues == ["dark", "light", "auto"]
  {
  }

  /** The default has the declared type, within the bounds and among the
      enumerated values the entry declares. */
  predicate DefaultAdmissible(e: SchemaEntry) {
    && (e.kind == NumberType <==> e.default.NumberValue?)
    && (e.kind == BooleanType <==> e.default.BooleanValue?)
    && (e.kind == StringType <==> e.default.StringValue?)
    && (e.minimum.Some? ==> e.default.NumberValue? && e.minimum.value <= e.default.n)
    && (e.maximum.Some? ==> e.default.NumberValue? && e.default.n <= e.maximum.value)
    && (e.enumValues != [] ==> e.default.StringValue? && e.default.s in e.enumValues)
  }

  /** All entries but the file size, the theme and the zoom (six in all) are
      booleans, and every boolean defaults to true. */
  lemma BooleanDefaultsTrue()
    ensures forall i :: 0 <= i < |Properties| ==>
              (Properties[i].kind == BooleanType <==> i !in {0, 3, 4})
    ensures forall e :: e in Properties && e.kind == BooleanType ==> e.default == BooleanValue(true)
  {
  }
}
