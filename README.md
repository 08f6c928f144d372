# generate-cli-input-json, modelled in Dafny

The script `generate-cli-input-json.py` turns the command line
`{create|update} [--iam] [--<key> <value> ...]` into the input document of a
stack create/update call. The document has two fields:

- `Parameters`: one dictionary per key of the parsed parameter dictionary, in
  the order that dictionary is iterated. Each dictionary holds `ParameterKey` and
  either `ParameterValue` or, under `update` when the value is the sentinel
  `"keep"`, `UsePreviousValue: true`.
- `Capabilities`: `["CAPABILITY_IAM"]` when `--iam` was given, `[]` otherwise.

`generate_cli_input_json.dfy` (module `GenerateCliInputJson`) models this.
`argparse` has already done its work when the model starts, so its result is the
model's input:

- an `Action` (`Create | Update`), since the parser admits no other choice;
- the `--iam` boolean;
- a `seq<(string, string)>` of parameters, standing in for the parsed dictionary
  in its iteration order.

The sentinel `"keep"` is the constant `Keep`. The mapping from one parameter to one entry is the pure function `MapParam`.
`EntriesOf` is the list built by appending one entry per parameter.
`Capabilities` is the capabilities list. `Generate` is the whole `Output`
document. The method `GenerateOutput` mirrors the script step by step: an
append loop over the parameters, then a conditional append for the capability.
It is proved equal to `Generate`. `EntryFields` and `ToJson` give the
dictionaries handed to the serialiser. `EntryFromFields` reads an entry back
from its dictionary.

The capabilities are modelled as a list, as the code builds them, not as a set.

## Model

| member | source | states |
|---|---|---|
| GenerateCliInputJson.MapParam | generate-cli-input-json.py:32-35 | the entry keeps the key; it is a use-previous entry exactly when the action is update and the value is "keep"; otherwise it carries the value unchanged |
| GenerateCliInputJson.EntriesOf | generate-cli-input-json.py:29-35 | the Parameters list has exactly one entry per parsed parameter |
| GenerateCliInputJson.Capabilities | generate-cli-input-json.py:37-39 | at most one capability; "CAPABILITY_IAM" is in the list exactly when --iam was set, and nothing else ever is |
| GenerateCliInputJson.Generate | generate-cli-input-json.py:29-41 | the document's Parameters entry i is the mapping of parameter i, one entry per parameter; its Capabilities hold "CAPABILITY_IAM" exactly when --iam was set, at most once and with nothing else |
| GenerateCliInputJson.GenerateOutput | generate-cli-input-json.py:29-41 | the append loop and the conditional append produce the document of Generate: one entry per parameter, entry i mapped from parameter i |
| GenerateCliInputJson.EntryAt | generate-cli-input-json.py:29-35 | entry i of the list is the mapping of parameter i, so order is preserved |
| GenerateCliInputJson.EachEntryMapped | generate-cli-input-json.py:29-35 | every entry of the Parameters list is the mapping of the parameter at the same position |
| GenerateCliInputJson.KeysPreserved | generate-cli-input-json.py:30-35 | ParameterKey i equals the key of parameter i, for every i; keys are never altered or reordered |
| GenerateCliInputJson.DistinctKeysPreserved | generate-cli-input-json.py:27-35 | distinct input keys, as dictionary keys are, give distinct ParameterKeys |
| GenerateCliInputJson.UpdateEntry | generate-cli-input-json.py:32-35 | under update a "keep" value gives UsePreviousValue true and no ParameterValue; any other value is passed through as ParameterValue |
| GenerateCliInputJson.CreateCarriesEveryValue | generate-cli-input-json.py:32-35 | under create every entry carries ParameterValue equal to the parsed value, "keep" included |
| GenerateCliInputJson.UsePreviousExactlyWhenKeep | generate-cli-input-json.py:32-33 | an entry is a use-previous entry if and only if the action is update and the value is "keep" |
| GenerateCliInputJson.IamOnlyAffectsCapabilities | generate-cli-input-json.py:37-41 | the Parameters list does not depend on --iam, and the capabilities list depends on nothing but --iam |
| GenerateCliInputJson.EntryFields | generate-cli-input-json.py:33-35 | each dictionary has exactly two keys: ParameterKey and exactly one of ParameterValue or UsePreviousValue (true) |
| GenerateCliInputJson.EntryFieldsRoundTrip | generate-cli-input-json.py:33-35 | each entry's dictionary reads back as that entry, so no information is lost in rendering |
| GenerateCliInputJson.EntriesJson | generate-cli-input-json.py:33-35 | the Parameters array holds one rendered dictionary per entry, in the same order |
| GenerateCliInputJson.ToJson | generate-cli-input-json.py:41 | the document object has exactly the two keys Parameters and Capabilities, holding the rendered lists |
| GenerateCliInputJson.RenderedParametersRoundTrip | generate-cli-input-json.py:29-41 | element i of the rendered Parameters array reads back as the mapping of parameter i |
| GenerateCliInputJson.ExampleCreateWithIam | generate-cli-input-json.py:29-41 | `create --iam --Env prod` gives the object {"Capabilities": ["CAPABILITY_IAM"], "Parameters": [{"ParameterKey": "Env", "ParameterValue": "prod"}]} |
| GenerateCliInputJson.ExampleUpdateKeep | generate-cli-input-json.py:29-41 | `update --Env keep` gives the object {"Capabilities": [], "Parameters": [{"ParameterKey": "Env", "UsePreviousValue": true}]} |

## Left out

- Argument parsing by `argparse` (generate-cli-input-json.py:14-27) is a library whose code is not part of this model. This covers rejecting actions other than create/update, splitting known from unknown arguments, registering every `--flag`, turning dashes in flag names into underscores, and the usage errors for missing values. The model takes the parser's result as its input.
- Repeated flags never reach the mapping: `--Env a --Env b` makes generate-cli-input-json.py:25 register `--Env` twice, and `argparse` fails with a conflicting-option error. Flags that differ only in `-` and `_` (`--a-b x --a_b y`) are two distinct options to `argparse`, so they raise no conflict; both land on the dictionary key `a_b` inside `argparse`, the later value wins, and the script sees one parameter. The model's input sequence does accept repeated keys and maps each to its own entry; that behaviour is the model's, not the script's. The requires of `DistinctKeysPreserved` stands in for the dictionary's guarantee of distinct keys.
- Odd tokens such as values that start with `--` or `--key=value` are not modelled. How they behave is decided entirely inside `argparse`.
- JSON serialisation with sorted keys and four-space indentation, and printing to standard output (generate-cli-input-json.py:42), are a library call plus I/O. The model stops at the dictionary handed to `json.dumps`.
- Logging setup (generate-cli-input-json.py:7-8) is never used by the mapping.
