/** Environment references said of the text itself: where `${VAR}` stands, what
    replacing them gives, and what sling's variables become.  */
module SecretsMeaning {
  import opened Wrappers
  import opened Masking
  import opened SlingSecrets

  ghost predicate Word(name: string, isWord: char -> bool) {
    name != "" && forall k :: 0 <= k < |name| ==> isWord(name[k])
  }

  /** The characters of the syntax are no word characters. */
  ghost predicate Apart(isWord: char -> bool) {
    !isWord('$') && !isWord('}')
  }

  /** A reference to the variable stands at `i`. */
  ghost predicate RefersAt(text: string, isWord: char -> bool, i: int, name: string) {
    Word(name, isWord) && At(text, "${" + name + "}", i)
  }

  /** No reference stands before `i`. */
  ghost predicate NoneBefore(text: string, isWord: char -> bool, i: int) {
    forall j, name :: 0 <= j < i ==> !RefersAt(text, isWord, j, name)
  }

  lemma {:induction false} WordLengthMeaning(text: string, isWord: char -> bool, n: nat)
    requires n <= |text| && (forall k :: 0 <= k < n ==> isWord(text[k])) && (n < |text| ==> !isWord(text[n]))
    ensures WordLength(text, isWord) == n
  {
    if n > 0 {
      WordLengthMeaning(text[1..], isWord, n - 1);
    }
  }

  lemma {:induction false} WordLengthWords(text: string, isWord: char -> bool)
    ensures forall k :: 0 <= k < WordLength(text, isWord) ==> isWord(text[k])
  {
    if text != "" && isWord(text[0]) {
      WordLengthWords(text[1..], isWord);
      assert forall k :: 0 < k < |text| ==> text[k] == text[1..][k - 1];
    }
  }

  lemma Spelled(text: string, name: string)
    requires At(text, "${" + name + "}", 0)
    ensures "${" <= text && |name| + 2 < |text| && text[|name| + 2] == '}' && text[2..|name| + 2] == name
  {
    var whole, n := "${" + name + "}", |name|;
    CharAt(text, whole, 0, 0);
    CharAt(text, whole, 0, 1);
    CharAt(text, whole, 0, n + 2);
    var word := text[2..n + 2];
    forall k | 0 <= k < n
      ensures word[k] == name[k]
    {
      CharAt(text, whole, 0, k + 2);
      assert whole[k + 2] == name[k];
    }
    assert word == name;
  }

  /** The front of the text is a reference to the variable exactly when it is a
      non-empty word between `${` and `}`. */
  lemma ReferenceExactlyWhen(text: string, isWord: char -> bool, name: string)
    requires Apart(isWord)
    ensures ReferenceAt(text, isWord) == Some(name) <==> RefersAt(text, isWord, 0, name)
  {
    var whole := "${" + name + "}";
    var n := |name|;
    if RefersAt(text, isWord, 0, name) {
      Spelled(text, name);
      WordLengthMeaning(text[2..], isWord, n);
    }
    if ReferenceAt(text, isWord) == Some(name) {
      WordLengthWords(text[2..], isWord);
      assert text[..n + 3] == whole;
      assert text[0..n + 3] == whole;
    }
  }

  lemma RefersLater(text: string, isWord: char -> bool, n: nat, j: int, name: string)
    requires n <= |text| && 0 <= j
    ensures RefersAt(text[n..], isWord, j, name) <==> RefersAt(text, isWord, n + j, name)
  {
    AtLater(text, "${" + name + "}", n, j);
  }

  lemma NoneLater(text: string, isWord: char -> bool, i: nat)
    requires 0 < i <= |text| && NoneBefore(text, isWord, i)
    ensures NoneBefore(text[1..], isWord, i - 1)
  {
    forall j, name | 0 <= j < i - 1
      ensures !RefersAt(text[1..], isWord, j, name)
    {
      RefersLater(text, isWord, 1, j, name);
    }
  }

  lemma NotAtFront(text: string, isWord: char -> bool)
    requires Apart(isWord) && NoneBefore(text, isWord, 1)
    ensures ReferenceAt(text, isWord).None?
  {
    forall name
      ensures ReferenceAt(text, isWord) != Some(name)
    {
      ReferenceExactlyWhen(text, isWord, name);
    }
  }

  /** A text without a reference stays as it is. */
  lemma {:induction false} WithoutReference(text: string, env: Environment, isWord: char -> bool)
    requires Apart(isWord) && NoneBefore(text, isWord, |text|)
    ensures Substitute(text, env, isWord) == Success(Expansion(text, []))
    decreases |text|
  {
    if text != "" {
      NotAtFront(text, isWord);
      NoneLater(text, isWord, |text|);
      WithoutReference(text[1..], env, isWord);
      assert [text[0]] + text[1..] == text;
    }
  }

  /** The front, the value and what the rest gave, unless it failed. */
  ghost function Joined(front: string, value: string, rest: Result<Expansion<string>, string>):
    Result<Expansion<string>, string> {
    if rest.Failure? then rest
    else Success(Expansion(front + value + rest.value.value, [value] + rest.value.secrets))
  }

  /** The value of the variable takes the place of the first reference, or an
      unset variable ends it; then the text after it is replaced in the same way. */
  lemma {:induction false} FirstReference(text: string, env: Environment, isWord: char -> bool, i: nat, name: string)
    requires Apart(isWord) && RefersAt(text, isWord, i, name) && NoneBefore(text, isWord, i)
    ensures Substitute(text, env, isWord) ==
      if name !in env then Failure(name)
      else Joined(text[..i], env[name], Substitute(text[i + |name| + 3..], env, isWord))
    decreases |text|
  {
    if i == 0 {
      ReferenceExactlyWhen(text, isWord, name);
      assert text[..i] == "";
      assert name in env ==> "" + env[name] == env[name];
    } else {
      NotAtFront(text, isWord);
      NoneLater(text, isWord, i);
      RefersLater(text, isWord, 1, i - 1, name);
      FirstReference(text[1..], env, isWord, i - 1, name);
      assert text[1..][i - 1 + |name| + 3..] == text[i + |name| + 3..];
      assert [text[0]] + text[1..][..i - 1] == text[..i];
      FrontStays(text, env, isWord);
      if name in env {
        hide Substitute, RefersAt, NoneBefore;
        JoinedMore(text[0], text[1..][..i - 1], env[name], Substitute(text[i + |name| + 3..], env, isWord));
      }
    }
  }

  lemma FrontStays(text: string, env: Environment, isWord: char -> bool)
    requires text != "" && ReferenceAt(text, isWord).None?
    ensures Substitute(text, env, isWord) == Kept(text[0], Substitute(text[1..], env, isWord))
  {
  }

  ghost function Kept(c: char, rest: Result<Expansion<string>, string>): Result<Expansion<string>, string> {
    if rest.Failure? then rest else Success(Expansion([c] + rest.value.value, rest.value.secrets))
  }

  lemma JoinedMore(c: char, front: string, value: string, rest: Result<Expansion<string>, string>)
    ensures Kept(c, Joined(front, value, rest)) == Joined([c] + front, value, rest)
  {
    if rest.Success? {
      assert [c] + (front + value + rest.value.value) == [c] + front + value + rest.value.value;
    }
  }

  /** Inside a reference no other one starts. */
  lemma NoOverlap(text: string, isWord: char -> bool, name: string, j: int, other: string)
    requires Apart(isWord) && RefersAt(text, isWord, 0, name) && RefersAt(text, isWord, j, other)
    ensures j == 0 || j >= |name| + 3
  {
    CharAt(text, "${" + other + "}", j, 0);
    if 0 <= j < |name| + 3 {
      CharAt(text, "${" + name + "}", 0, j);
    }
  }

  lemma SameName(text: string, isWord: char -> bool, a: string, b: string)
    requires Apart(isWord) && RefersAt(text, isWord, 0, a) && RefersAt(text, isWord, 0, b)
    ensures a == b
  {
    ReferenceExactlyWhen(text, isWord, a);
    ReferenceExactlyWhen(text, isWord, b);
  }

  ghost predicate RefersSomewhere(text: string, isWord: char -> bool, name: string) {
    exists i :: RefersAt(text, isWord, i, name)
  }

  /** The variables referred to are those with a reference anywhere in the text. */
  lemma {:induction false} ReferencesExactlyWhen(text: string, isWord: char -> bool, name: string)
    requires Apart(isWord)
    ensures name in References(text, isWord) <==> RefersSomewhere(text, isWord, name)
    decreases |text|
  {
    if text != "" {
      match ReferenceAt(text, isWord)
      case None =>
        ReferenceExactlyWhen(text, isWord, name);
        ReferencesExactlyWhen(text[1..], isWord, name);
        SomewhereLater(text, isWord, 1, name);
      case Some(first) =>
        var n := |first| + 3;
        ReferenceExactlyWhen(text, isWord, first);
        ReferencesExactlyWhen(text[n..], isWord, name);
        SomewhereLater(text, isWord, n, name);
        if i :| RefersAt(text, isWord, i, name) && i < n {
          NoOverlap(text, isWord, first, i, name);
          SameName(text, isWord, first, name);
        }
    }
  }

  lemma SomewhereLater(text: string, isWord: char -> bool, n: nat, name: string)
    requires n <= |text|
    ensures RefersSomewhere(text[n..], isWord, name) <==> exists i :: i >= n && RefersAt(text, isWord, i, name)
  {
    if i :| RefersAt(text[n..], isWord, i, name) {
      RefersLater(text, isWord, n, i, name);
      var later := n + i;
      assert RefersAt(text, isWord, later, name);
    }
    if i :| i >= n && RefersAt(text, isWord, i, name) {
      RefersLater(text, isWord, n, i - n, name);
    }
  }

  // ------------------------------------------------------------ nested values

  /** The expanded value: each text with its references replaced, lists and
      dictionaries element by element under the same keys. */
  ghost predicate Becomes(value: Value, env: Environment, isWord: char -> bool, json: Json)
    decreases value
  {
    match value
    case Other => json == JOther
    case Text(text) => Substituted(text, env, isWord, json)
    case Secret(text) => Substituted(text, env, isWord, json)
    case List(items) =>
      && json.JList? && |json.items| == |items|
      && forall i :: 0 <= i < |items| ==> Becomes(items[i], env, isWord, json.items[i])
    case Dict(fields) =>
      && json.JDict? && |json.fields| == |fields|
      && forall i :: 0 <= i < |fields| ==>
           json.fields[i].0 == fields[i].key && Becomes(fields[i].value, env, isWord, json.fields[i].1)
  }

  ghost predicate Substituted(text: string, env: Environment, isWord: char -> bool, json: Json) {
    && Substitute(text, env, isWord).Success?
    && json == JText(Substitute(text, env, isWord).value.value)
  }

  lemma {:induction false} ItemsBecome(items: seq<Value>, env: Environment, isWord: char -> bool)
    requires ExpandItems(items, env, isWord).Success?
    ensures Becomes(List(items), env, isWord, JList(ExpandItems(items, env, isWord).value.value))
    decreases items
  {
    if items != [] {
      ExpandBecomes(items[0], env, isWord);
      ItemsBecome(items[1..], env, isWord);
    }
  }

  lemma {:induction false} FieldsBecome(fields: seq<Field>, env: Environment, isWord: char -> bool)
    requires ExpandFields(fields, env, isWord).Success?
    ensures Becomes(Dict(fields), env, isWord, JDict(ExpandFields(fields, env, isWord).value.value))
    decreases fields
  {
    if fields != [] {
      ExpandBecomes(fields[0].value, env, isWord);
      FieldsBecome(fields[1..], env, isWord);
    }
  }

  /** Expansion keeps the shape of the value and replaces in every text of it. */
  lemma {:induction false} ExpandBecomes(value: Value, env: Environment, isWord: char -> bool)
    requires Expand(value, env, isWord).Success?
    ensures Becomes(value, env, isWord, Expand(value, env, isWord).value.value)
    decreases value
  {
    match value
    case List(items) => ItemsBecome(items, env, isWord);
    case Dict(fields) => FieldsBecome(fields, env, isWord);
    case _ =>
  }

  // ------------------------------------------------------------ the environment

  /** The last connection of that name among the first `n`. */
  ghost predicate LastNamed(connections: seq<Field>, n: int, name: string, i: int) {
    && 0 <= i < n <= |connections| && connections[i].key == name
    && forall j :: i < j < n ==> connections[j].key != name
  }

  /** A variable comes from the last connection of its name, else from the
      process environment. */
  lemma {:induction false} VariableComesFrom(connections: seq<Field>, env: Environment, isWord: char -> bool, n: nat,
                                             name: string)
    requires n <= |connections|
    requires forall i :: 0 <= i < n ==> Expand(connections[i].value, env, isWord).Success?
    ensures var variables := WithConnections(connections, env, isWord, n);
      && (forall i :: LastNamed(connections, n, name, i) ==>
            && name in variables && variables[name].FromConnection?
            && Becomes(connections[i].value, env, isWord, variables[name].properties))
      && ((forall i :: !LastNamed(connections, n, name, i)) ==>
            (name in variables <==> name in env) && (name in env ==> variables[name] == Inherited(env[name])))
  {
    if n > 0 {
      var last := n - 1;
      hide Expand, Becomes;
      ExpandBecomes(connections[last].value, env, isWord);
      VariableComesFrom(connections, env, isWord, last, name);
      if connections[last].key == name {
        assert LastNamed(connections, n, name, last);
        assert forall i :: LastNamed(connections, n, name, i) ==> i == last;
      } else {
        assert forall i :: LastNamed(connections, n, name, i) <==> LastNamed(connections, last, name, i);
      }
    }
  }
}
