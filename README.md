# ETLTask logic, modelled in Dafny

The ETLTask repository is almost entirely pipeline configuration: Airflow DAGs
that start a Google-provided Dataflow template, and a Cloud Run function. Two
pieces of it hold logic of their own, and this project models both:

- **`transformCSVtoJSON`**, the JavaScript text-transform UDF for the
  `GCS_CSV_to_BigQuery` template (`configs/etltasktransformCSVtoJSON.js`).
  It turns one CSV line of the initial-claims (ICSA) series into one JSON
  object text. The line is split at every comma. The field at index 0 is
  stored as `observation_date` and the field at index 1 as `icsa`. Every
  later field is stored under the key `undefined`, because the name list
  has no entry for it. A field that reads exactly `null` is skipped. The
  object is then serialised with `JSON.stringify`.
- **`hello_http`**, the HTTP Cloud Run function
  (`configs/wb-cloud-run-main.py`). It answers `Hello <name>!`. The name
  comes from the JSON body's `name`. Failing that, it is the first `name`
  query argument. Failing both, it is `World`.

Modules (one per file):

| file | module | what it holds |
|---|---|---|
| `optional.dfy` | `Optional` | `Option` |
| `csv_split.dfy` | `CsvSplit` | `String.prototype.split(',')` and its inverse `Join` |
| `json_text.dfy` | `JsonText` | `JSON.stringify` of a flat string-valued object, with string escaping per section 7 of RFC 8259 and ECMA-262 QuoteJSONString; a parser for the same form, used as its inverse |
| `js_object.dfy` | `JsObjects` | a JavaScript object as a class: keys in insertion order plus a map of values; `Set` is `obj[key] = value` |
| `csv_to_json_udf.dfy` | `CsvToJsonUdf` | the UDF as a method whose loop walks the fields and assigns into a fresh `JsObject`, proved against a declarative description of the result |
| `hello_http.dfy` | `CloudRunMain` | name selection and the greeting |

The UDF is written step by step in the source, so it is modelled the same way.
`TransformCsvToJson` is a method with the source's counting loop. It assigns
into a heap object whose `Set` keeps JavaScript's rule for property order:
a new key goes after all others, and an existing key keeps its place.

The method is proved against `ExpectedEntries`. That function says what ends up
under each key without mentioning the loop, so the proof covers the
overwriting of `undefined` by later fields. Its result is also proved to read
back through the JSON parser as exactly those properties.

`hello_http` is a plain if/elif/else chain, so it is modelled as functions. The
request is modelled as two parts:

- the parsed JSON body, as `Option<map<string, string>>`. It is `None` when the
  body is absent or does not parse, which is what `get_json(silent=True)`
  reports.
- the query arguments, as `(key, value)` pairs in query order. Werkzeug's
  `request.args['name']` returns the first value of a repeated key, so the model
  does too.

## Model

| member | source | states |
|---|---|---|
| `CsvSplit.Split` | configs/etltasktransformCSVtoJSON.js:18 | splitting at every comma gives (number of commas + 1) fields, none containing a comma |
| `CsvSplit.JoinSplit` | configs/etltasktransformCSVtoJSON.js:18 | the fields joined back with commas are the line: nothing is dropped, trimmed or unquoted |
| `CsvSplit.SplitJoin` | configs/etltasktransformCSVtoJSON.js:18 | comma-free fields joined with commas split back into the same fields |
| `CsvSplit.SplitWithoutComma` | configs/etltasktransformCSVtoJSON.js:18 | a line without a comma (the empty line included) is one field, the whole line |
| `JsonText.Stringify` | configs/etltasktransformCSVtoJSON.js:31 | the serialised object starts with `{` and ends with `}`, and is `{}` exactly when the object has no property |
| `JsonText.EscapeChar` | configs/etltasktransformCSVtoJSON.js:31 | as in QuoteJSONString, a character is escaped (its text starts with a backslash) exactly when it is `"`, `\` or a control character below U+0020; any other character is written as it is; the text never contains a raw control character |
| `JsonText.Quote` | configs/etltasktransformCSVtoJSON.js:31 | the string literal starts and ends with `"`, and a string with nothing to escape is written between the quotes unchanged |
| `JsonText.QuoteRoundTrip` | configs/etltasktransformCSVtoJSON.js:31 | every string literal written with RFC 8259 escapes is well formed and decodes to the original text |
| `JsonText.StringifyRoundTrip` | configs/etltasktransformCSVtoJSON.js:31 | the serialised object always parses as a JSON object with exactly the same members in the same order |
| `JsonText.StringifyInjective` | configs/etltasktransformCSVtoJSON.js:31 | two different objects never serialise to the same text |
| `JsonText.StringifyPlainSingle` | configs/etltasktransformCSVtoJSON.js:31 | a one-property object whose key and value need no escaping is written `{"key":"value"}` |
| `JsObjects.Put` | configs/etltasktransformCSVtoJSON.js:27 | an assignment adds exactly one property when the key is missing, and none when the object already has the key |
| `JsObjects.PutAppendsNewKey` | configs/etltasktransformCSVtoJSON.js:27 | assigning a key the object lacks adds it after all existing properties |
| `JsObjects.PutOverwritesInPlace` | configs/etltasktransformCSVtoJSON.js:27 | assigning an existing key replaces its value where it stands; nothing else moves |
| `JsObjects.PutLookup` | configs/etltasktransformCSVtoJSON.js:27 | after an assignment the key reads the new value and every other key reads what it did before |
| `JsObjects.PutKeepsDistinct` | configs/etltasktransformCSVtoJSON.js:23-29 | assignments never create a second property with the same key |
| `JsObjects.JsObject.constructor` | configs/etltasktransformCSVtoJSON.js:23 | a new object has no properties |
| `JsObjects.JsObject.Set` | configs/etltasktransformCSVtoJSON.js:27 | an assignment keeps the object well formed, and its properties become `Put` of the previous ones |
| `CsvToJsonUdf.PropertyKey` | configs/etltasktransformCSVtoJSON.js:19-27 | index 0 names `observation_date` and index 1 names `icsa` (their output positions 0 and 1); every index from 2 on reads past `properties` and names `undefined` |
| `CsvToJsonUdf.LastKept` | configs/etltasktransformCSVtoJSON.js:25-28 | gives the last field that is not `null` (nothing after it except `null`s), and gives none exactly when every field is `null` |
| `CsvToJsonUdf.SkipNullField` | configs/etltasktransformCSVtoJSON.js:25-26 | one loop iteration over a `null` field leaves the object unchanged |
| `CsvToJsonUdf.AssignField` | configs/etltasktransformCSVtoJSON.js:19-29 | one loop iteration over any other field assigns it to the key its index names: `observation_date`, `icsa`, and `undefined` from index 2 on |
| `CsvToJsonUdf.ExpectedLookup` | configs/etltasktransformCSVtoJSON.js:19-28 | `observation_date` holds field 0 and `icsa` holds field 1, verbatim, each present exactly when the field exists and is not `null`. `undefined` holds the last non-`null` field from index 2 on and is absent if there is none. No other key is present |
| `CsvToJsonUdf.ExpectedEntriesOrdered` | configs/etltasktransformCSVtoJSON.js:25-31 | no stored value is `null`; keys come in the order `observation_date`, `icsa`, `undefined`, each at most once |
| `CsvToJsonUdf.EmptyLine` | configs/etltasktransformCSVtoJSON.js:17-33 | the empty line yields `{"observation_date":""}` |
| `CsvToJsonUdf.NullLine` | configs/etltasktransformCSVtoJSON.js:17-33 | the line `null` yields `{}` |
| `CsvToJsonUdf.TransformCsvToJson` | configs/etltasktransformCSVtoJSON.js:17-33 | for every line (no precondition, no failure) the result is the serialisation of the expected properties and parses back as a JSON object with exactly those properties |
| `CloudRunMain.FirstArg` | configs/wb-cloud-run-main.py:21-22 | indexing the query arguments by key gives the first value for that key, and nothing exactly when no argument has that key |
| `CloudRunMain.SelectName` | configs/wb-cloud-run-main.py:16-24 | the body's `name` wins whenever it is present. Otherwise the query's first `name` is used. Otherwise `World`. The truthiness tests in the guards make no difference: key presence alone decides |
| `CloudRunMain.HelloHttp` | configs/wb-cloud-run-main.py:25 | the response is `Hello `, then the selected name, then `!` |
| `CloudRunMain.GreetingRoundTrip` | configs/wb-cloud-run-main.py:25 | the name can be read back out of the response and is exactly the selected one |
| `CloudRunMain.BodyNameOverridesArgs` | configs/wb-cloud-run-main.py:19-20 | when the body has `name`, the query arguments do not affect the response |
| `CloudRunMain.MissingBodyLikeNameless` | configs/wb-cloud-run-main.py:16-19 | a missing or unparsable body gives the same response as a body without `name` |
| `CloudRunMain.EmptyNameIsUsed` | configs/wb-cloud-run-main.py:19-25 | an empty `name`, from the body or from the query, is used as it is and gives `Hello !` |
| `CloudRunMain.DefaultGreeting` | configs/wb-cloud-run-main.py:23-25 | with no `name` in the body or the query, the response is `Hello World!` |

## Left out

- The module-level download and unzip in `configs/wb-cloud-run-main.py:27-33` is left out. It is network and filesystem I/O run at import time.
- `configs/core_pipeline_dag.py` and `configs/wb_life_dl_dag.py` are left out. They are static Airflow DAG and operator declarations. Their one function, `download_file`, is network and file I/O. The scheduling and job execution they configure happen in Airflow and in the managed Dataflow template, and neither is part of this model.
- `configs/core_pipeline_dag.py` only declares `DataflowTemplatedJobStartOperator` parameters. Submitting the job is Airflow's work and is not modelled.
- The DAG refers to this UDF only in commented-out parameters, and under another function name. The model covers the function as it is written.
- Strings are sequences of Unicode scalar values, not of UTF-16 code units. So lone surrogates, which `JSON.stringify` writes as `\u` escapes, do not occur.
- The property order of `JSON.stringify` is modelled as insertion order. JavaScript lists integer-like keys first, but the UDF's three keys are never integer-like.
- The partner parser `JsonText.ParseObject` reads only the compact form that `JSON.stringify` writes: no insignificant whitespace, and string values only. It decodes a `\u` escape only when it names a scalar value, so it rejects surrogate pairs. It is a tool for stating the round trip and is not part of the source.
- `hello_http` is modelled only for JSON bodies that are objects with string members. A non-string `name`, a body that parses to a list or a scalar, and how Flask turns the returned string into a response are left out.
