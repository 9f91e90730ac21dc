/** The HTTP-triggered function `hello_http`: it greets the caller by a name
    taken from the request's JSON body, else from the query string, else the
    default `World`. The request is given as its parsed JSON body (`None` when
    there is no body or it does not parse, as `get_json(silent=True)` reports)
    and its query arguments in the order they appear. */
module CloudRunMain {
  import opened Optional

  /** A JSON body that parsed to an object of string members. */
  type JsonBody = map<string, string>

  /** Query arguments as (key, value) pairs in query-string order; a key may
      occur more than once, and indexing by key gives its first value. */
  type QueryArgs = seq<(string, string)>

  const NameKey: string := "name"
  const DefaultName: string := "World"
  const Greeting: string := "Hello "

  /** `args[key]` on the multi-valued query dictionary: the first value given
      for `key`, if any. */
  function FirstArg(args: QueryArgs, key: string): (r: Option<string>)
    ensures r.None? <==> forall i :: 0 <= i < |args| ==> args[i].0 != key
    ensures r.Some? ==> exists i :: 0 <= i < |args| && args[i] == (key, r.value) &&
                                   forall j :: 0 <= j < i ==> args[j].0 != key
  {
    if |args| == 0 then None
    else if args[0].0 == key then Some(args[0].1)
    else FirstArg(args[1..], key)
  }

  /** `request_json and 'name' in request_json`: the body is present, is a
      non-empty dictionary (Python truthiness), and has the key. */
  predicate BodyNamesCaller(body: Option<JsonBody>)
  {
    body.Some? && |body.value| > 0 && NameKey in body.value
  }

  /** `request_args and 'name' in request_args`. */
  predicate ArgsNameCaller(args: QueryArgs)
  {
    |args| > 0 && FirstArg(args, NameKey).Some?
  }

  /** The name to greet. The truthiness tests in the guards make no difference:
      only the presence of the key decides. The body's `name` wins whatever
      the query says; failing that the query's first `name`; failing both,
      `World`. A present but empty name is used as it is. */
  function SelectName(body: Option<JsonBody>, args: QueryArgs): (name: string)
    ensures body.Some? && NameKey in body.value ==> name == body.value[NameKey]
    ensures (body.None? || NameKey !in body.value) && FirstArg(args, NameKey).Some? ==>
              name == FirstArg(args, NameKey).value
    ensures (body.None? || NameKey !in body.value) && FirstArg(args, NameKey).None? ==>
              name == DefaultName
  {
    if BodyNamesCaller(body) then body.value[NameKey]
    else if ArgsNameCaller(args) then FirstArg(args, NameKey).value
    else DefaultName
  }

  /** `'Hello {}!'.format(name)`: the response text. */
  function HelloHttp(body: Option<JsonBody>, args: QueryArgs): (response: string)
    ensures |response| == |Greeting| + |SelectName(body, args)| + 1
    ensures response[..|Greeting|] == Greeting
    ensures response[|Greeting|..|response| - 1] == SelectName(body, args)
    ensures response[|response| - 1] == '!'
  {
    Greeting + SelectName(body, args) + "!"
  }

  /** Reads the name back out of a greeting. */
  function GreetedName(response: string): Option<string>
  {
    if |response| > |Greeting| && response[..|Greeting|] == Greeting && response[|response| - 1] == '!'
    then Some(response[|Greeting|..|response| - 1])
    else None
  }

  /** The greeting always has the `Hello <name>!` shape, and the name in it is
      exactly the selected one. */
  lemma GreetingRoundTrip(body: Option<JsonBody>, args: QueryArgs)
    ensures GreetedName(HelloHttp(body, args)) == Some(SelectName(body, args))
  {
  }

  /** When the body names the caller, the query string is irrelevant. */
  lemma BodyNameOverridesArgs(body: Option<JsonBody>, args: QueryArgs, otherArgs: QueryArgs)
    requires body.Some? && NameKey in body.value
    ensures HelloHttp(body, args) == HelloHttp(body, otherArgs)
  {
  }

  /** A missing or unparsable body behaves exactly like a body without `name`. */
  lemma MissingBodyLikeNameless(body: JsonBody, args: QueryArgs)
    requires NameKey !in body
    ensures HelloHttp(None, args) == HelloHttp(Some(body), args)
  {
  }

  /** Presence, not truthiness: an empty name is used, giving `Hello !`. */
  lemma EmptyNameIsUsed(args: QueryArgs)
    ensures HelloHttp(Some(map[NameKey := ""]), args) == "Hello !"
    ensures HelloHttp(None, [(NameKey, "")] + args) == "Hello !"
  {
  }

  /** Without a name anywhere the caller is greeted as `World`. */
  lemma DefaultGreeting(body: Option<JsonBody>, args: QueryArgs)
    requires body.None? || NameKey !in body.value
    requires forall i :: 0 <= i < |args| ==> args[i].0 != NameKey
    ensures HelloHttp(body, args) == "Hello World!"
  {
  }
}
