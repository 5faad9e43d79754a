# Handelsregister command-line helpers in Dafny

This project models the two pure text helpers of the Handelsregister.ai command-line
front end (`handelsregister/cli.py`):

- `parse_query_properties` turns the `enrich` command's `--query-properties`
  arguments (`name=company_name location=city`) into a mapping from query role to
  dataset column. It splits each argument at its first `=`, skips arguments without `=`,
  and lets a later argument for the same role overwrite an earlier one.
- `format_output`, which the source defines inside `main`, is lifted here to the
  top-level function `Format.FormatOutput`. It renders an organization record as one
  `Label: value` line per requested field name. Its `field_map` knows `name`, `status`,
  `registration`, `address` and `purpose`. Other names are dropped, absent keys read
  as empty text, and the lines are joined with newlines. The `search` command requests
  `name, registration, status`. The `fetch` command requests its `--field` names, or
  `name, registration, status, address` when none are given.

Files:

- `wrappers.dfy`: `Option` and `Result`.
- `strings.dfy`: the Python string operations the helpers use: `sep in s`,
  `s.split(sep, 1)`, `sep.join` and `str.capitalize` on ASCII. It also defines
  `s.split(sep)`, which `cli.py` never calls. It is used only to state which lines
  a joined output holds (`Format.OutputLines`).
- `query_properties.dfy`: `parse_query_properties`.
- `record.dfy`: the JSON-like record (`Str` leaves, `Obj` maps) and the
  `.get(key, "")` / `.get(key, {})` accessors.
- `format_output.dfy`: `field_map`, the formatting loop, the join, and the default field lists.

A record read can fail. In the source, calling `.get` on `registration` or `address`
when it holds text raises `AttributeError`. The model returns
`Failure(NotAnObject(path))` there, and the first failing field in request order
decides the error, as the loop's first exception would.

`fetch` always prints formatted fields; `cli.py` has no JSON output mode. `search`
formats name, registration and status (`Format.SearchFieldsRecognized`).

## Model

| member | source | states |
|---|---|---|
| Strings.SplitOnce | handelsregister/cli.py:11-12 | `'=' in p` fails exactly when there is no `=`; otherwise `p.split('=', 1)` gives a head free of `=` and a tail with `head + "=" + tail == p` |
| Strings.SplitOnceUnique | handelsregister/cli.py:12 | the split at the first `=` is the only split whose head has no `=`, so the tail keeps every later `=` |
| QueryProperties.ParseQueryProperties | handelsregister/cli.py:8-14 | the loop over the arguments; no stored role contains `=`, because a role is the text before the first `=` |
| QueryProperties.ParseKeys | handelsregister/cli.py:8-14 | a role is in the mapping exactly when some argument contains `=` and has that role before its first `=`; nothing else is added |
| QueryProperties.SkippedArgumentsIrrelevant | handelsregister/cli.py:11 | removing every argument without `=` does not change the mapping |
| QueryProperties.NoSeparatorGivesEmpty | handelsregister/cli.py:9-11 | when no argument contains `=`, the mapping is empty |
| QueryProperties.LastEntryWins | handelsregister/cli.py:10-13 | the last argument that names a role decides that role's field |
| QueryProperties.ValueFromLastEntry | handelsregister/cli.py:10-13 | every stored field is the value of the last argument that names its role |
| QueryProperties.FieldKeepsLaterSeparators | handelsregister/cli.py:12-13 | for `role=field`, the field may contain `=` and is kept whole |
| QueryProperties.ParseArgumentsFor | handelsregister/cli.py:8-14 | writing a mapping out as `role=field` arguments and parsing them returns the mapping, restricted to the listed roles; repeats are allowed |
| QueryProperties.ParseArgumentsForAll | handelsregister/cli.py:8-14 | parsing the arguments written out from a whole `=`-free mapping returns that mapping |
| QueryProperties.TwoArguments | handelsregister/cli.py:10-13 | two `role=field` arguments for roles without `=` give `{role1: field1}` updated with `role2: field2`: both entries for different roles, only the second field for the same role |
| QueryProperties.CommandLineExample | handelsregister/cli.py:45-50 | `name=company_name location=city` parses to `{name: company_name, location: city}` |
| Record.TextAt | handelsregister/cli.py:58-59 | `d.get(key, "")`: an absent key reads as `""`, a text value reads as itself; it fails (with the key as path) exactly when the key holds an object |
| Record.ObjectAt | handelsregister/cli.py:61-69 | `d.get(key, {})`: an absent key reads as the empty object; it fails with `NotAnObject([key])` exactly when the key holds text, where Python's next `.get` raises `AttributeError` |
| Record.NestedTextAt | handelsregister/cli.py:61-69 | `d.get(outer, {}).get(inner, "")`: an absent outer key, or an inner key missing from the outer object, reads as `""`; it succeeds exactly when the outer value is absent or an object whose inner value is absent or text |
| Format.FieldOf | handelsregister/cli.py:57-72 | `field_map.get(name)` finds the renderer whose key is exactly `name`, and finds nothing when no key equals `name` |
| Format.FieldOfFieldName | handelsregister/cli.py:57-72 | every renderer is found under its own key |
| Format.Render | handelsregister/cli.py:57-72 | each renderer succeeds when its own key is absent, and any error it reports lies under its own key |
| Format.RegistrationText | handelsregister/cli.py:60-64 | the registration renderer succeeds exactly when `registration` is absent or an object whose three inner keys are absent or text; its errors lie under `registration` (its text: `Format.RegistrationLine`) |
| Format.RegistrationLine | handelsregister/cli.py:60-64 | when it succeeds, the registration line is `type number (court)`, each part the inner text or `""` when absent |
| Format.AddressText | handelsregister/cli.py:65-70 | the address renderer succeeds exactly when `address` is absent or an object whose four inner keys are absent or text; its errors lie under `address` (its text: `Format.AddressLine`) |
| Format.AddressLine | handelsregister/cli.py:65-70 | when it succeeds, the address line is `street, postal_code city, country_code`, each part the inner text or `""` when absent |
| Format.PartialRegistration | handelsregister/cli.py:60-64 | a registration with type and number but no court renders as `type number ()` |
| Format.Label | handelsregister/cli.py:78 | `f.capitalize()` of a field name is the name with its first letter upper-cased and the rest unchanged |
| Strings.Capitalize | handelsregister/cli.py:78 | `f.capitalize()` keeps the length, upper-cases the first character and lower-cases the rest (ASCII) |
| Format.LabelLetters | handelsregister/cli.py:78 | each label consists of ASCII letters only |
| Format.LabelText | handelsregister/cli.py:78 | the five labels are `Name`, `Status`, `Registration`, `Address`, `Purpose` |
| Format.LabelHasNoNewline | handelsregister/cli.py:78 | no label contains a newline |
| Format.Recognized | handelsregister/cli.py:75-77 | the names `field_map.get(f)` finds, in request order; at most one field per requested name (membership: `Format.RecognizedMembers`) |
| Format.RecognizedMembers | handelsregister/cli.py:75-77 | a field is recognized exactly when some requested name is its key |
| Format.RecognizedAppend | handelsregister/cli.py:75-77 | each requested name is judged on its own: recognizing a concatenation concatenates the recognized fields, so order and repeats are kept |
| Format.Lines | handelsregister/cli.py:74-78 | the loop `for f in fields`; on success it holds one line per recognized name |
| Format.LinesSpec | handelsregister/cli.py:74-78 | the loop succeeds exactly when every recognized field renders; it then yields one line `Label: value` per recognized name, in request order, repeats included; otherwise it yields the error of the first field that fails |
| Format.LinesDependOnlyOnRecognized | handelsregister/cli.py:75-77 | the loop's outcome depends only on the recognized fields in order, not on unknown names |
| Format.UnknownNameIgnored | handelsregister/cli.py:76-77 | a name `field_map` does not know produces no line, wherever it is requested |
| Format.FormatOutput | handelsregister/cli.py:56-79 | no recognized name gives the empty text; success exactly when every recognized field renders; the output is then the newline join of the `Label: value` lines of the recognized names in request order, whatever the values contain; failure carries the first field's error; one recognized name gives just its line |
| Strings.Join | handelsregister/cli.py:79 | `"\n".join(lines)`: empty for no lines, and the output starts with the first line |
| Strings.JoinSplit | handelsregister/cli.py:79 | joining the pieces of a newline split restores the text |
| Strings.SplitJoin | handelsregister/cli.py:79 | splitting a newline join of newline-free lines gives the lines back |
| Format.OutputLines | handelsregister/cli.py:74-79 | when no value contains a newline, splitting the output at newlines gives exactly one `Label: value` line per recognized name, in request order |
| Format.WellShapedFormats | handelsregister/cli.py:57-72 | a record whose read positions are absent or of the expected kind formats without error for any requested names |
| Format.FormatsOnlyIfWellShaped | handelsregister/cli.py:57-72 | a record that formats with all five fields requested is well shaped |
| Format.RenderReadsOnlyTopKey | handelsregister/cli.py:58-71 | each renderer reads only its own record key |
| Format.AbsentReadsAsDefault | handelsregister/cli.py:58-71 | an absent top-level key renders exactly as the `.get` default (`""` or `{}`) would, and never fails (missing inner keys: `Record.NestedTextAt`, `Format.PartialRegistration`) |
| Format.EmptyRecordRendering | handelsregister/cli.py:58-70 | on an empty record, name renders as empty, registration as `  ()` and address as `,  , ` |
| Format.FetchFields | handelsregister/cli.py:95 | `fetch` uses the requested names when any are given, and otherwise name, registration, status, address in that order |
| Format.SearchFieldsRecognized | handelsregister/cli.py:87 | `search` formats name, registration and status, in that order |
| Format.FetchTextExample | tests/test_cli.py:21-31 | any well-shaped record with name `KONUX GmbH` and status `ACTIVE`, formatted with the `fetch` defaults, gives four lines, the first `Name: KONUX GmbH` and the third `Status: ACTIVE`; the test's fixture file is not part of this model |
| Format.FetchTextOutput | tests/test_cli.py:28-31 | for the same records, the printed text is `Name: KONUX GmbH`, the registration line, `Status: ACTIVE` and the address line, joined by newlines, so it contains both asserted texts |

## Left out

- `main`'s argument parser, command dispatch and printing (handelsregister/cli.py:17-55, 81-106): these are glue and side effects. Only the field lists the commands pass to `format_output` are modelled.
- `Handelsregister.fetch_organization` and `Handelsregister.enrich` (handelsregister/client.py): these do network and file I/O, and handelsregister/client.py is not part of this model. The record they return is an input of `FormatOutput`.
- The `fetch json` mode driven by tests/test_cli.py:9-18: the code does not implement it.
- The example scripts and the test fixtures: they are demos, HTTP mocks and file creation.
- Format.LinesSpec: where a leaf position (such as `name`, or `court` inside `registration`) holds an object, Python prints the dict's `repr`. The model reports `NotText(path)` instead, because Python's dict `repr` (quoting, escaping, key order) is not modelled.
- Format.FormatOutput: for the same reason, a record with an object at a leaf position fails with `NotText`. Python prints, for example, `Name: {}` for `{"name": {}}`.
- Format.FormatsOnlyIfWellShaped: the converse holds only because of the `NotText` deviation. In Python, a record with an object at a leaf position still formats. Only text where `registration` or `address` must be an object makes Python fail.
- Record.TextAt: reports `NotText` for an object where Python's f-string prints its `repr`.
- Record.NestedTextAt: reports `NotText` for an inner object where Python's f-string prints its `repr`.
- Format.RegistrationText: fails with `NotText` when an inner value of `registration` is an object. Python prints its `repr`, for example `  ({})` for `{"registration": {"court": {}}}`. Its success condition therefore holds for text or absent inner values only.
- Format.AddressText: fails with `NotText` when an inner value of `address` is an object, where Python prints its `repr`. Its success condition therefore holds for text or absent inner values only.
- QueryProperties.ParseQueryProperties: returns a `map`, so the insertion order of the Python dict is not modelled. In Python a role that is repeated keeps the position of its first occurrence.
- JSON values other than text and objects (numbers, booleans, `null`, lists): records are modelled with text leaves only. A `null` `registration` or `address` would raise `AttributeError` in Python.
- Strings.Capitalize: models `str.capitalize` for ASCII only, because Unicode case mapping is not modelled. Only the five lower-case ASCII field names can reach it.
- Format.FetchFields: an empty `requested` stands for argparse's `None` when no `--field` is given. argparse never produces an empty list, and `or` treats both the same.
