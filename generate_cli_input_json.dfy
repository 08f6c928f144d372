/** A model of the script that turns parsed command-line parameters into the
    input document of a stack create/update call: one parameter entry per
    `--key value` pair, plus the capabilities list selected by `--iam`.
    Argument parsing itself is done by a library and is represented here by
    its result, the action, the flag and the ordered list of (key, value)
    pairs. */
module GenerateCliInputJson {

  /** The sentinel (USE_PREVIOUS_VALUE in the script) that, under `update`,
      means "keep the deployed value". */
  const Keep: string := "keep"

  /** The only capability the script can request. */
  const CapabilityIam: string := "CAPABILITY_IAM"

  /** The positional action; the parser accepts no other choice. */
  datatype Action = Create | Update

  /** One element of the Parameters list: either a literal value or a marker
      asking to reuse the previous value. Both carry the parameter's key. */
  datatype Entry =
    | WithValue(key: string, value: string)
    | UsePrevious(key: string)

  /** The document written out: exactly the two lists. */
  datatype Output = Output(parameters: seq<Entry>, capabilities: seq<string>)

  /** JSON values, as far as the document needs them. */
  datatype Json =
    | JString(s: string)
    | JBool(b: bool)
    | JArray(items: seq<Json>)
    | JObject(fields: map<string, Json>)

  datatype Option<T> = None | Some(value: T)

  /** One parsed `--key value` pair. */
  type Param = (string, string)

  // ---------------------------------------------------------------------
  // Specification functions
  // ---------------------------------------------------------------------

  /** The entry one parsed parameter becomes. */
  function MapParam(action: Action, key: string, value: string): (e: Entry)
    ensures e.key == key
    ensures e.UsePrevious? <==> action == Update && value == Keep
    ensures e.WithValue? ==> e.value == value
  {
    if action == Update && value == Keep then UsePrevious(key)
    else WithValue(key, value)
  }

  /** The Parameters list built by appending one entry per parameter, in the
      order the parameters are iterated. */
  function EntriesOf(action: Action, params: seq<Param>): (r: seq<Entry>)
    ensures |r| == |params|
  {
    if |params| == 0 then []
    else
      var last := params[|params| - 1];
      EntriesOf(action, params[..|params| - 1]) + [MapParam(action, last.0, last.1)]
  }

  /** The capabilities list selected by the `--iam` flag. */
  function Capabilities(iam: bool): (caps: seq<string>)
    ensures |caps| <= 1
    ensures CapabilityIam in caps <==> iam
    ensures forall c :: c in caps ==> c == CapabilityIam
  {
    if iam then [CapabilityIam] else []
  }

  /** The whole document for one invocation. */
  function Generate(action: Action, iam: bool, params: seq<Param>): (out: Output)
    ensures |out.parameters| == |params|
    ensures forall i :: 0 <= i < |params| ==>
              out.parameters[i] == MapParam(action, params[i].0, params[i].1)
    ensures |out.capabilities| <= 1
    ensures CapabilityIam in out.capabilities <==> iam
    ensures forall c :: c in out.capabilities ==> c == CapabilityIam
  {
    EachEntryMapped(action, params);
    Output(EntriesOf(action, params), Capabilities(iam))
  }

  /** The ParameterKey of each entry, in order. */
  function ParameterKeys(entries: seq<Entry>): (ks: seq<string>)
    ensures |ks| == |entries|
    ensures forall i :: 0 <= i < |entries| ==> ks[i] == entries[i].key
  {
    if |entries| == 0 then [] else ParameterKeys(entries[..|entries| - 1]) + [entries[|entries| - 1].key]
  }

  /** No element occurs twice. */
  predicate Distinct(s: seq<string>)
  {
    forall i, j :: 0 <= i < j < |s| ==> s[i] != s[j]
  }

  // ---------------------------------------------------------------------
  // Rendering as JSON objects
  // ---------------------------------------------------------------------

  /** The dictionary an entry is appended as. Exactly one of ParameterValue and
      UsePreviousValue is present, next to ParameterKey. */
  function EntryFields(e: Entry): (m: map<string, Json>)
    ensures "ParameterKey" in m && m["ParameterKey"] == JString(e.key)
    ensures ("ParameterValue" in m) != ("UsePreviousValue" in m)
    ensures "UsePreviousValue" in m <==> e.UsePrevious?
    ensures e.WithValue? ==> m["ParameterValue"] == JString(e.value)
    ensures e.UsePrevious? ==> m["UsePreviousValue"] == JBool(true)
    ensures |m.Keys| == 2
  {
    match e
    case WithValue(k, v) =>
      var m := map["ParameterKey" := JString(k), "ParameterValue" := JString(v)];
      assert m.Keys == {"ParameterKey", "ParameterValue"};
      m
    case UsePrevious(k) =>
      var m := map["ParameterKey" := JString(k), "UsePreviousValue" := JBool(true)];
      assert m.Keys == {"ParameterKey", "UsePreviousValue"};
      m
  }

  /** Reads an entry back from its dictionary; the partner of EntryFields. */
  function EntryFromFields(m: map<string, Json>): (r: Option<Entry>)
  {
    if "ParameterKey" in m && m["ParameterKey"].JString? then
      var k := m["ParameterKey"].s;
      if "UsePreviousValue" in m && "ParameterValue" !in m && m["UsePreviousValue"] == JBool(true) then
        Some(UsePrevious(k))
      else if "ParameterValue" in m && "UsePreviousValue" !in m && m["ParameterValue"].JString? then
        Some(WithValue(k, m["ParameterValue"].s))
      else None
    else None
  }

  /** The Parameters array: one rendered dictionary per entry, same order. */
  function EntriesJson(entries: seq<Entry>): (r: seq<Json>)
    ensures |r| == |entries|
    ensures forall i :: 0 <= i < |entries| ==> r[i] == JObject(EntryFields(entries[i]))
  {
    if |entries| == 0 then []
    else EntriesJson(entries[..|entries| - 1]) + [JObject(EntryFields(entries[|entries| - 1]))]
  }

  /** The Capabilities array: one JSON string per capability, same order. */
  function StringsJson(ss: seq<string>): (r: seq<Json>)
    ensures |r| == |ss|
    ensures forall i :: 0 <= i < |ss| ==> r[i] == JString(ss[i])
  {
    if |ss| == 0 then [] else StringsJson(ss[..|ss| - 1]) + [JString(ss[|ss| - 1])]
  }

  /** The document as the dictionary handed to the serialiser. */
  function ToJson(out: Output): (j: Json)
    ensures j.JObject? && j.fields.Keys == {"Parameters", "Capabilities"}
    ensures j.fields["Parameters"] == JArray(EntriesJson(out.parameters))
    ensures j.fields["Capabilities"] == JArray(StringsJson(out.capabilities))
  {
    JObject(map["Parameters" := JArray(EntriesJson(out.parameters)),
                "Capabilities" := JArray(StringsJson(out.capabilities))])
  }

  // ---------------------------------------------------------------------
  // The script's main body
  // ---------------------------------------------------------------------

  /** Builds the Parameters list by appending inside a loop over the
      parameters, then the capabilities list by a conditional append. */
  method GenerateOutput(action: Action, iam: bool, params: seq<Param>) returns (out: Output)
    ensures out == Generate(action, iam, params)
    ensures |out.parameters| == |params|
    ensures forall i :: 0 <= i < |params| ==>
              out.parameters[i] == MapParam(action, params[i].0, params[i].1)
  {
    var outputParameters: seq<Entry> := [];
    var i := 0;
    while i < |params|
      invariant 0 <= i <= |params|
      invariant outputParameters == EntriesOf(action, params[..i])
    {
      var (key, value) := params[i];
      if action == Update && value == Keep {
        outputParameters := outputParameters + [UsePrevious(key)];
      } else {
        outputParameters := outputParameters + [WithValue(key, value)];
      }
      assert params[..i + 1][..i] == params[..i];
      i := i + 1;
    }
    assert params[..i] == params;

    var outputCapabilities: seq<string> := [];
    if iam {
      outputCapabilities := outputCapabilities + [CapabilityIam];
    }

    out := Output(outputParameters, outputCapabilities);
  }

  // ---------------------------------------------------------------------
  // Properties
  // ---------------------------------------------------------------------

  /** Entry i of the Parameters list comes from parameter i, and from no other. */
  lemma {:induction false} EntryAt(action: Action, params: seq<Param>, i: nat)
    requires i < |params|
    ensures EntriesOf(action, params)[i] == MapParam(action, params[i].0, params[i].1)
  {
    if i < |params| - 1 {
      var init := params[..|params| - 1];
      EntryAt(action, init, i);
      assert init[i] == params[i];
    }
  }

  /** Every entry of the Parameters list is the mapping of its parameter. */
  lemma EachEntryMapped(action: Action, params: seq<Param>)
    ensures forall i :: 0 <= i < |params| ==>
              EntriesOf(action, params)[i] == MapParam(action, params[i].0, params[i].1)
  {
    forall i | 0 <= i < |params|
      ensures EntriesOf(action, params)[i] == MapParam(action, params[i].0, params[i].1)
    {
      EntryAt(action, params, i);
    }
  }

  /** The mapper never alters keys: ParameterKey i is the key of parameter i. */
  lemma KeysPreserved(action: Action, params: seq<Param>)
    ensures forall i :: 0 <= i < |params| ==>
              ParameterKeys(EntriesOf(action, params))[i] == params[i].0
  {
    forall i | 0 <= i < |params|
      ensures ParameterKeys(EntriesOf(action, params))[i] == params[i].0
    {
      EntryAt(action, params, i);
    }
  }

  /** Distinct input keys, as dictionary keys are, give distinct ParameterKeys. */
  lemma DistinctKeysPreserved(action: Action, params: seq<Param>)
    requires forall i, j :: 0 <= i < j < |params| ==> params[i].0 != params[j].0
    ensures Distinct(ParameterKeys(EntriesOf(action, params)))
  {
    KeysPreserved(action, params);
  }

  /** Under update, a "keep" value yields a use-previous entry with no
      value, and every other value passes through unchanged. */
  lemma UpdateEntry(params: seq<Param>, i: nat)
    requires i < |params|
    ensures params[i].1 == Keep ==>
              EntriesOf(Update, params)[i] == UsePrevious(params[i].0) &&
              "ParameterValue" !in EntryFields(EntriesOf(Update, params)[i]) &&
              EntryFields(EntriesOf(Update, params)[i])["UsePreviousValue"] == JBool(true)
    ensures params[i].1 != Keep ==>
              EntriesOf(Update, params)[i] == WithValue(params[i].0, params[i].1) &&
              EntryFields(EntriesOf(Update, params)[i])["ParameterValue"] == JString(params[i].1)
  {
    EntryAt(Update, params, i);
  }

  /** Under create, every entry carries its value, "keep" included. */
  lemma CreateCarriesEveryValue(params: seq<Param>, i: nat)
    requires i < |params|
    ensures EntriesOf(Create, params)[i] == WithValue(params[i].0, params[i].1)
    ensures EntryFields(EntriesOf(Create, params)[i])["ParameterValue"] == JString(params[i].1)
  {
    EntryAt(Create, params, i);
  }

  /** A use-previous entry appears exactly where the action is update and the
      value is the sentinel. */
  lemma UsePreviousExactlyWhenKeep(action: Action, params: seq<Param>, i: nat)
    requires i < |params|
    ensures EntriesOf(action, params)[i].UsePrevious? <==>
              (action == Update && params[i].1 == Keep)
  {
    EntryAt(action, params, i);
  }

  /** The Parameters list does not depend on the `--iam` flag, and the
      capabilities list depends on nothing else. */
  lemma IamOnlyAffectsCapabilities(action: Action, params: seq<Param>, iam: bool)
    ensures Generate(action, true, params).parameters == Generate(action, false, params).parameters
    ensures Generate(action, iam, params).capabilities == (if iam then [CapabilityIam] else [])
  {
  }

  /** Each dictionary in the rendered list reads back as the entry it came from. */
  lemma EntryFieldsRoundTrip(e: Entry)
    ensures EntryFromFields(EntryFields(e)) == Some(e)
  {
  }

  /** The rendered Parameters array reads back, element by element, as the
      entries built from the parameters. */
  lemma RenderedParametersRoundTrip(action: Action, iam: bool, params: seq<Param>, i: nat)
    requires i < |params|
    ensures var j := ToJson(Generate(action, iam, params));
            j.fields["Parameters"].items[i].JObject? &&
            EntryFromFields(j.fields["Parameters"].items[i].fields)
              == Some(MapParam(action, params[i].0, params[i].1))
  {
    EntryAt(action, params, i);
  }

  /** `create --iam --Env prod` renders as
      {"Capabilities": ["CAPABILITY_IAM"],
       "Parameters": [{"ParameterKey": "Env", "ParameterValue": "prod"}]}. */
  lemma ExampleCreateWithIam()
    ensures Generate(Create, true, [("Env", "prod")])
              == Output([WithValue("Env", "prod")], [CapabilityIam])
    ensures ToJson(Generate(Create, true, [("Env", "prod")]))
              == JObject(map[
                   "Capabilities" := JArray([JString("CAPABILITY_IAM")]),
                   "Parameters" := JArray([JObject(map[
                     "ParameterKey" := JString("Env"),
                     "ParameterValue" := JString("prod")])])])
  {
    var out := Generate(Create, true, [("Env", "prod")]);
    assert out == Output([WithValue("Env", "prod")], [CapabilityIam]);
    assert EntriesJson(out.parameters) == [JObject(EntryFields(WithValue("Env", "prod")))];
    assert StringsJson(out.capabilities) == [JString(CapabilityIam)];
  }

  /** `update --Env keep` renders as
      {"Capabilities": [],
       "Parameters": [{"ParameterKey": "Env", "UsePreviousValue": true}]}. */
  lemma ExampleUpdateKeep()
    ensures Generate(Update, false, [("Env", Keep)])
              == Output([UsePrevious("Env")], [])
    ensures ToJson(Generate(Update, false, [("Env", Keep)]))
              == JObject(map[
                   "Capabilities" := JArray([]),
                   "Parameters" := JArray([JObject(map[
                     "ParameterKey" := JString("Env"),
                     "UsePreviousValue" := JBool(true)])])])
  {
    var out := Generate(Update, false, [("Env", Keep)]);
    assert out == Output([UsePrevious("Env")], []);
    assert EntriesJson(out.parameters) == [JObject(EntryFields(UsePrevious("Env")))];
    assert StringsJson(out.capabilities) == [];
  }
}
