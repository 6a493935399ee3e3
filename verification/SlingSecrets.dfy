/** Sling connections: revealing secret values and environment references in
    nested properties, and collecting them for masking.  */
module SlingSecrets {
  import opened Wrappers
  import opened Masking

  /** A connection property: a secret string, a string, a dictionary, a list,
      or any other value. */
  datatype Value =
    | Secret(text: string)
    | Text(text: string)
    | Dict(fields: seq<Field>)
    | List(items: seq<Value>)
    | Other
  datatype Field = Field(key: string, value: Value)

  /** The value after expansion. */
  datatype Json = JText(text: string) | JDict(fields: seq<(string, Json)>) | JList(items: seq<Json>) | JOther

  /** An expanded value and the secrets met on the way. */
  datatype Expansion<T> = Expansion(value: T, secrets: seq<string>)

  type Environment = map<string, string>

  /** How many characters at the front are word characters. */
  function WordLength(text: string, isWord: char -> bool): (n: nat)
    ensures n <= |text|
  {
    if text == "" || !isWord(text[0]) then 0 else 1 + WordLength(text[1..], isWord)
  }

  /** The variable of a `${VAR}` reference at the front of the text. */
  function ReferenceAt(text: string, isWord: char -> bool): (r: Option<string>)
    ensures r.Some? ==> |r.value| + 3 <= |text|
  {
    if !("${" <= text) then None
    else
      var n := WordLength(text[2..], isWord);
      if n > 0 && n + 2 < |text| && text[n + 2] == '}' then Some(text[2..n + 2]) else None
  }

  /** The text with each reference replaced; fails with an unset variable. */
  function Substitute(text: string, env: Environment, isWord: char -> bool): Result<Expansion<string>, string>
    decreases |text|
  {
    if text == "" then Success(Expansion("", []))
    else
      match ReferenceAt(text, isWord)
      case None =>
        var rest := Substitute(text[1..], env, isWord);
        if rest.Failure? then rest else Success(Expansion([text[0]] + rest.value.value, rest.value.secrets))
      case Some(name) =>
        if name !in env then Failure(name)
        else
          var rest := Substitute(text[|name| + 3..], env, isWord);
          if rest.Failure? then rest
          else Success(Expansion(env[name] + rest.value.value, [env[name]] + rest.value.secrets))
  }

  /** `_expand` */
  function Expand(value: Value, env: Environment, isWord: char -> bool): Result<Expansion<Json>, string>
    decreases value
  {
    match value
    case Other => Success(Expansion(JOther, []))
    case Text(text) =>
      var r := Substitute(text, env, isWord);
      if r.Failure? then Failure(r.error) else Success(Expansion(JText(r.value.value), r.value.secrets))
    case Secret(text) =>
      var r := Substitute(text, env, isWord);
      if r.Failure? then Failure(r.error)
      else Success(Expansion(JText(r.value.value), r.value.secrets + [r.value.value]))
    case List(items) =>
      var r := ExpandItems(items, env, isWord);
      if r.Failure? then Failure(r.error) else Success(Expansion(JList(r.value.value), r.value.secrets))
    case Dict(fields) =>
      var r := ExpandFields(fields, env, isWord);
      if r.Failure? then Failure(r.error) else Success(Expansion(JDict(r.value.value), r.value.secrets))
  }

  function ExpandItems(items: seq<Value>, env: Environment, isWord: char -> bool): Result<Expansion<seq<Json>>, string>
    decreases items
  {
    if items == [] then Success(Expansion([], []))
    else
      var first := Expand(items[0], env, isWord);
      if first.Failure? then Failure(first.error)
      else
        var rest := ExpandItems(items[1..], env, isWord);
        if rest.Failure? then rest
        else Success(Expansion([first.value.value] + rest.value.value, first.value.secrets + rest.value.secrets))
  }

  function ExpandFields(fields: seq<Field>, env: Environment, isWord: char -> bool): Result<Expansion<seq<(string,
                        Json)>>, string>
    decreases fields
  {
    if fields == [] then Success(Expansion([], []))
    else
      var first := Expand(fields[0].value, env, isWord);
      if first.Failure? then Failure(first.error)
      else
        var rest := ExpandFields(fields[1..], env, isWord);
        if rest.Failure? then rest
        else
          var field := (fields[0].key, first.value.value);
          Success(Expansion([field] + rest.value.value, first.value.secrets + rest.value.secrets))
  }

  // ----------------------------------------------------------- what is secret

  /** The variables a text refers to. */
  ghost function References(text: string, isWord: char -> bool): set<string>
    decreases |text|
  {
    if text == "" then {}
    else
      match ReferenceAt(text, isWord)
      case None => References(text[1..], isWord)
      case Some(name) => {name} + References(text[|name| + 3..], isWord)
  }

  /** The value itself or one nested in it, at any depth. */
  ghost predicate Inside(inner: Value, value: Value)
    decreases value
  {
    || inner == value
    || (value.List? && exists i :: 0 <= i < |value.items| && Inside(inner, value.items[i]))
    || (value.Dict? && exists i :: 0 <= i < |value.fields| && Inside(inner, value.fields[i].value))
  }

  ghost predicate Refers(value: Value, name: string, isWord: char -> bool) {
    (value.Text? || value.Secret?) && name in References(value.text, isWord)
  }

  /** What a single value reveals: the variables in a text, and the whole text
      of a secret string. */
  ghost predicate Reveals(value: Value, env: Environment, isWord: char -> bool, secret: string) {
    || (exists name :: Refers(value, name, isWord) && name in env && env[name] == secret)
    || (value.Secret? && Substitute(value.text, env, isWord).Success?
        && Substitute(value.text, env, isWord).value.value == secret)
  }

  ghost predicate RevealedIn(value: Value, env: Environment, isWord: char -> bool, secret: string) {
    exists inner :: Inside(inner, value) && Reveals(inner, env, isWord, secret)
  }

  lemma {:induction false} SubstituteCollects(text: string, env: Environment, isWord: char -> bool)
    ensures Substitute(text, env, isWord).Success? <==> References(text, isWord) <= env.Keys
    ensures Substitute(text, env, isWord).Success? ==> forall s ::
      s in Substitute(text, env, isWord).value.secrets <==>
      exists name :: name in References(text, isWord) && name in env && env[name] == s
    decreases |text|
  {
    if text != "" {
      match ReferenceAt(text, isWord)
      case None => SubstituteCollects(text[1..], env, isWord);
      case Some(name) => SubstituteCollects(text[|name| + 3..], env, isWord);
    }
  }

  ghost predicate Collects(value: Value, env: Environment, isWord: char -> bool, secrets: seq<string>) {
    forall s :: s in secrets <==> RevealedIn(value, env, isWord, s)
  }

  lemma LeafCollects(value: Value, env: Environment, isWord: char -> bool)
    requires !value.List? && !value.Dict? && Expand(value, env, isWord).Success?
    ensures Collects(value, env, isWord, Expand(value, env, isWord).value.secrets)
  {
    assert forall inner :: Inside(inner, value) <==> inner == value;
    if value.Text? || value.Secret? {
      SubstituteCollects(value.text, env, isWord);
      assert forall name :: Refers(value, name, isWord) <==> name in References(value.text, isWord);
    }
    forall s
      ensures RevealedIn(value, env, isWord, s) <==> Reveals(value, env, isWord, s)
    {
      assert Inside(value, value);
    }
  }

  /** A list reveals what its items reveal. */
  lemma ListReveals(items: seq<Value>, env: Environment, isWord: char -> bool, s: string)
    ensures RevealedIn(List(items), env, isWord, s) <==>
      exists i :: 0 <= i < |items| && RevealedIn(items[i], env, isWord, s)
  {
    if RevealedIn(List(items), env, isWord, s) {
      var inner :| Inside(inner, List(items)) && Reveals(inner, env, isWord, s);
      var i :| 0 <= i < |items| && Inside(inner, items[i]);
      assert RevealedIn(items[i], env, isWord, s);
    }
    if i :| 0 <= i < |items| && RevealedIn(items[i], env, isWord, s) {
      var inner :| Inside(inner, items[i]) && Reveals(inner, env, isWord, s);
      assert Inside(inner, List(items).items[i]);
      assert Inside(inner, List(items));
    }
  }

  lemma DictReveals(fields: seq<Field>, env: Environment, isWord: char -> bool, s: string)
    ensures RevealedIn(Dict(fields), env, isWord, s) <==>
      exists i :: 0 <= i < |fields| && RevealedIn(fields[i].value, env, isWord, s)
  {
    if RevealedIn(Dict(fields), env, isWord, s) {
      var inner :| Inside(inner, Dict(fields)) && Reveals(inner, env, isWord, s);
      var i :| 0 <= i < |fields| && Inside(inner, fields[i].value);
      assert RevealedIn(fields[i].value, env, isWord, s);
    }
    if i :| 0 <= i < |fields| && RevealedIn(fields[i].value, env, isWord, s) {
      var inner :| Inside(inner, fields[i].value) && Reveals(inner, env, isWord, s);
      assert Inside(inner, Dict(fields).fields[i].value);
      assert Inside(inner, Dict(fields));
    }
  }

  lemma {:induction false} ItemsCollect(items: seq<Value>, env: Environment, isWord: char -> bool)
    requires ExpandItems(items, env, isWord).Success?
    ensures forall s :: s in ExpandItems(items, env, isWord).value.secrets <==>
      exists i :: 0 <= i < |items| && RevealedIn(items[i], env, isWord, s)
    decreases items
  {
    hide RevealedIn;
    if items != [] {
      ExpandCollects(items[0], env, isWord);
      ItemsCollect(items[1..], env, isWord);
      assert forall i :: 0 < i < |items| ==> items[i] == items[1..][i - 1];
    }
  }

  lemma {:induction false} FieldsCollect(fields: seq<Field>, env: Environment, isWord: char -> bool)
    requires ExpandFields(fields, env, isWord).Success?
    ensures forall s :: s in ExpandFields(fields, env, isWord).value.secrets <==>
      exists i :: 0 <= i < |fields| && RevealedIn(fields[i].value, env, isWord, s)
    decreases fields
  {
    hide RevealedIn;
    if fields != [] {
      ExpandCollects(fields[0].value, env, isWord);
      FieldsCollect(fields[1..], env, isWord);
      assert forall i :: 0 < i < |fields| ==> fields[i] == fields[1..][i - 1];
    }
  }

  /** Expansion collects exactly what the values inside reveal, at any depth. */
  lemma {:induction false} ExpandCollects(value: Value, env: Environment, isWord: char -> bool)
    requires Expand(value, env, isWord).Success?
    ensures Collects(value, env, isWord, Expand(value, env, isWord).value.secrets)
    decreases value
  {
    hide RevealedIn;
    match value
    case List(items) =>
      ItemsCollect(items, env, isWord);
      forall s { ListReveals(items, env, isWord, s); }
    case Dict(fields) =>
      FieldsCollect(fields, env, isWord);
      forall s { DictReveals(fields, env, isWord, s); }
    case _ => LeafCollects(value, env, isWord);
  }

  // ----------------------------------------------------------- when it succeeds

  /** Every variable referred to inside the value is set. */
  ghost predicate AllSet(value: Value, env: Environment, isWord: char -> bool) {
    forall inner, name :: Inside(inner, value) && Refers(inner, name, isWord) ==> name in env
  }

  lemma LeafSucceeds(value: Value, env: Environment, isWord: char -> bool)
    requires !value.List? && !value.Dict?
    ensures Expand(value, env, isWord).Success? <==> AllSet(value, env, isWord)
  {
    assert forall inner :: Inside(inner, value) <==> inner == value;
    if value.Text? || value.Secret? {
      SubstituteCollects(value.text, env, isWord);
      assert forall name :: Refers(value, name, isWord) <==> name in References(value.text, isWord);
    }
  }

  lemma ListSet(items: seq<Value>, env: Environment, isWord: char -> bool)
    ensures AllSet(List(items), env, isWord) <==> forall i :: 0 <= i < |items| ==> AllSet(items[i], env, isWord)
  {
    var list := List(items);
    forall i, inner | 0 <= i < |items| && Inside(inner, items[i])
      ensures Inside(inner, list)
    {
      assert Inside(inner, list.items[i]);
    }
  }

  lemma DictSet(fields: seq<Field>, env: Environment, isWord: char -> bool)
    ensures AllSet(Dict(fields), env, isWord) <==>
      forall i :: 0 <= i < |fields| ==> AllSet(fields[i].value, env, isWord)
  {
    var dict := Dict(fields);
    forall i, inner | 0 <= i < |fields| && Inside(inner, fields[i].value)
      ensures Inside(inner, dict)
    {
      assert Inside(inner, dict.fields[i].value);
    }
  }

  lemma {:induction false} ItemsSucceed(items: seq<Value>, env: Environment, isWord: char -> bool)
    ensures ExpandItems(items, env, isWord).Success? <==> forall i :: 0 <= i < |items| ==> AllSet(items[i], env, isWord)
    decreases items
  {
    hide AllSet;
    if items != [] {
      ExpandSucceedsExactlyWhen(items[0], env, isWord);
      ItemsSucceed(items[1..], env, isWord);
      assert forall i :: 0 < i < |items| ==> items[i] == items[1..][i - 1];
    }
  }

  lemma {:induction false} FieldsSucceed(fields: seq<Field>, env: Environment, isWord: char -> bool)
    ensures ExpandFields(fields, env, isWord).Success? <==>
      forall i :: 0 <= i < |fields| ==> AllSet(fields[i].value, env, isWord)
    decreases fields
  {
    hide AllSet;
    if fields != [] {
      ExpandSucceedsExactlyWhen(fields[0].value, env, isWord);
      FieldsSucceed(fields[1..], env, isWord);
      assert forall i :: 0 < i < |fields| ==> fields[i] == fields[1..][i - 1];
    }
  }

  /** Expansion fails exactly for an unset variable, at any depth. */
  lemma {:induction false} ExpandSucceedsExactlyWhen(value: Value, env: Environment, isWord: char -> bool)
    ensures Expand(value, env, isWord).Success? <==> AllSet(value, env, isWord)
    decreases value
  {
    hide AllSet;
    match value
    case List(items) =>
      ItemsSucceed(items, env, isWord);
      ListSet(items, env, isWord);
    case Dict(fields) =>
      FieldsSucceed(fields, env, isWord);
      DictSet(fields, env, isWord);
    case _ => LeafSucceeds(value, env, isWord);
  }

  // -------------------------------------------------------------- when it fails

  /** Some value inside refers to this variable, which is not set. */
  ghost predicate Unset(value: Value, env: Environment, isWord: char -> bool, name: string) {
    name !in env && exists inner :: Inside(inner, value) && Refers(inner, name, isWord)
  }

  lemma {:induction false} SubstituteBlames(text: string, env: Environment, isWord: char -> bool)
    requires Substitute(text, env, isWord).Failure?
    ensures Substitute(text, env, isWord).error in References(text, isWord)
    ensures Substitute(text, env, isWord).error !in env
    decreases |text|
  {
    if text != "" {
      match ReferenceAt(text, isWord)
      case None => SubstituteBlames(text[1..], env, isWord);
      case Some(name) =>
        if name in env {
          SubstituteBlames(text[|name| + 3..], env, isWord);
        }
    }
  }

  lemma {:induction false} ItemsBlame(items: seq<Value>, env: Environment, isWord: char -> bool)
    requires ExpandItems(items, env, isWord).Failure?
    ensures Unset(List(items), env, isWord, ExpandItems(items, env, isWord).error)
    decreases items
  {
    var list, first := List(items), Expand(items[0], env, isWord);
    if first.Failure? {
      ExpandBlames(items[0], env, isWord);
      var inner :| Inside(inner, items[0]) && Refers(inner, first.error, isWord);
      assert Inside(inner, list.items[0]) && Inside(inner, list);
    } else {
      ItemsBlame(items[1..], env, isWord);
      var name := ExpandItems(items[1..], env, isWord).error;
      var inner :| Inside(inner, List(items[1..])) && Refers(inner, name, isWord);
      var i :| 0 <= i < |items[1..]| && Inside(inner, items[1..][i]);
      assert Inside(inner, list.items[i + 1]) && Inside(inner, list);
    }
  }

  lemma {:induction false} FieldsBlame(fields: seq<Field>, env: Environment, isWord: char -> bool)
    requires ExpandFields(fields, env, isWord).Failure?
    ensures Unset(Dict(fields), env, isWord, ExpandFields(fields, env, isWord).error)
    decreases fields
  {
    var dict, first := Dict(fields), Expand(fields[0].value, env, isWord);
    if first.Failure? {
      ExpandBlames(fields[0].value, env, isWord);
      var inner :| Inside(inner, fields[0].value) && Refers(inner, first.error, isWord);
      assert Inside(inner, dict.fields[0].value) && Inside(inner, dict);
    } else {
      FieldsBlame(fields[1..], env, isWord);
      var name := ExpandFields(fields[1..], env, isWord).error;
      var inner :| Inside(inner, Dict(fields[1..])) && Refers(inner, name, isWord);
      var i :| 0 <= i < |fields[1..]| && Inside(inner, fields[1..][i].value);
      assert Inside(inner, dict.fields[i + 1].value) && Inside(inner, dict);
    }
  }

  /** The error of an expansion names a variable that is not set and that a
      value inside refers to. */
  lemma {:induction false} ExpandBlames(value: Value, env: Environment, isWord: char -> bool)
    requires Expand(value, env, isWord).Failure?
    ensures Unset(value, env, isWord, Expand(value, env, isWord).error)
    decreases value
  {
    match value
    case List(items) => ItemsBlame(items, env, isWord);
    case Dict(fields) => FieldsBlame(fields, env, isWord);
    case Text(text) =>
      SubstituteBlames(text, env, isWord);
      assert Inside(value, value);
    case Secret(text) =>
      SubstituteBlames(text, env, isWord);
      assert Inside(value, value);
    case Other =>
  }

  // --------------------------------------------------------- sling's environment

  datatype Variable = Inherited(value: string) | FromConnection(properties: Json)

  function Inherit(env: Environment): map<string, Variable> {
    map name | name in env :: Inherited(env[name])
  }

  /** The environment for the first `n` connections, later ones winning. */
  ghost function WithConnections(connections: seq<Field>, env: Environment, isWord: char -> bool,
                                 n: nat): map<string, Variable>
    requires n <= |connections|
    requires forall i :: 0 <= i < n ==> Expand(connections[i].value, env, isWord).Success?
  {
    if n == 0 then Inherit(env)
    else
      var c := connections[n - 1];
      var properties := Expand(c.value, env, isWord).value.value;
      WithConnections(connections, env, isWord, n - 1)[c.key := FromConnection(properties)]
  }

  /** `_environment`: expands every connection against the process environment,
      and fails on the first that refers to an unset variable. */
  method SlingEnvironment(connections: seq<Field>, env: Environment, isWord: char -> bool)
    returns (r: Result<Expansion<map<string, Variable>>, (string, string)>)
    ensures r.Success? <==> forall i :: 0 <= i < |connections| ==> AllSet(connections[i].value, env, isWord)
    ensures r.Failure? ==> exists i ::
      && 0 <= i < |connections| && connections[i].key == r.error.0
      && Unset(connections[i].value, env, isWord, r.error.1)
      && forall j :: 0 <= j < i ==> AllSet(connections[j].value, env, isWord)
    ensures r.Success? ==> forall i :: 0 <= i < |connections| ==> Expand(connections[i].value, env, isWord).Success?
    ensures r.Success? ==>
      r.value.value == WithConnections(connections, env, isWord, |connections|)["SLING_LOGGING" := Inherited("JSON")]
    ensures r.Success? ==> forall s ::
      s in r.value.secrets <==> exists i :: 0 <= i < |connections| && RevealedIn(connections[i].value, env, isWord, s)
  {
    hide AllSet, RevealedIn, Expand, Unset;
    var variables, secrets := Inherit(env), [];
    for i := 0 to |connections|
      invariant forall j :: 0 <= j < i ==> AllSet(connections[j].value, env, isWord)
      invariant forall j :: 0 <= j < i ==> Expand(connections[j].value, env, isWord).Success?
      invariant variables == WithConnections(connections, env, isWord, i)
      invariant forall s :: s in secrets <==> exists j :: 0 <= j < i && RevealedIn(connections[j].value, env, isWord, s)
    {
      var c := connections[i];
      ExpandSucceedsExactlyWhen(c.value, env, isWord);
      var expanded := Expand(c.value, env, isWord);
      if expanded.Failure? {
        ExpandBlames(c.value, env, isWord);
        return Failure((c.key, expanded.error));
      }
      ExpandCollects(c.value, env, isWord);
      variables := variables[c.key := FromConnection(expanded.value.value)];
      secrets := secrets + expanded.value.secrets;
    }
    r := Success(Expansion(variables["SLING_LOGGING" := Inherited("JSON")], secrets));
  }

  /** No message shows a maskable secret that some connection reveals, at any
      depth of its properties. */
  lemma RevealedHidden(value: Value, env: Environment, isWord: char -> bool, secrets: seq<string>, message: string,
                       s: string)
    requires Expand(value, env, isWord).Success?
    requires forall t :: t in Expand(value, env, isWord).value.secrets ==> t in secrets
    requires RevealedIn(value, env, isWord, s) && Maskable(s)
    ensures !Occurs(s, MaskAll(message, secrets))
  {
    ExpandCollects(value, env, isWord);
    SecretHidden(message, secrets, s);
  }
}
