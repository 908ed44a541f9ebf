/** How `main` and `register_store_handler` turn the `register_store_handler`
    option into store-handler registrations: the default list replaces an
    empty one, each entry must be (or parse to) a JSON object, the object
    must name its handler module, and its model patterns select the model
    types the handler serves.

    The foreign parts are parameters: `json.loads` on a string entry, whether
    `importlib` can load the named module, the set of model class names the
    models module defines, and `fnmatch` glob matching. */
module StoreHandlers {
  import opened Wrappers
  import opened Json

  const NameKey := "name"
  const ModelsKey := "models"

  /** What the script does not model itself. */
  datatype Env = Env(
    loads: string -> Option<Value>,      // json.loads; None when it raises
    loadable: Value -> bool,             // the handler module imports and defines StoreHandler
    available: set<string>,              // names of the Model subclasses in commissaire.handlers.models
    matches: (string, string) -> bool,   // fnmatch: does the name match the pattern?
    kubernetesDefault: Value,            // C.DEFAULT_KUBERNETES_STORE_HANDLER
    etcdDefault: Value)                  // C.DEFAULT_ETCD_STORE_HANDLER

  /** The one fact about glob matching the model relies on. */
  ghost predicate StarMatchesAll(env: Env) {
    forall name :: env.matches(name, "*")
  }

  /** The ways configuring a store handler stops the server. */
  datatype HandlerError =
    | NotAnObject(entry: Value)         // entry is not (and does not parse to) a JSON object
    | InvalidJson(text: string)         // json.loads raised on a string entry
    | MissingName(config: Members)      // no "name" member
    | InvalidModule(name: Value)        // the handler module cannot be loaded
    | NotIterable(models: Value)        // "models" is a value a for loop cannot iterate
    | PatternNotString(given: Value)  // fnmatch was given a non-string pattern
    | NoMatch(pattern: string)          // a pattern matched no available model

  /** What is handed to `store_manager.register_store_handler`: the handler
      module, the configuration without `name` and `models`, and the
      selected model names. */
  datatype Registration = Registration(handler: Value, config: Members, models: set<string>)

  /** The list of handler configurations actually used: an empty list is
      replaced by the Kubernetes default followed by the etcd default. */
  function EffectiveHandlers(env: Env, entries: seq<Value>): (r: seq<Value>)
    ensures |entries| == 0 ==> r == [env.kubernetesDefault, env.etcdDefault]
    ensures |entries| > 0 ==> r == entries
  {
    if |entries| == 0 then [env.kubernetesDefault, env.etcdDefault] else entries
  }

  /** The items `for pattern in models` visits: a list's elements, a string's
      characters, a dict's keys; anything else raises TypeError. */
  function Patterns(models: Value): (r: Result<seq<Value>, HandlerError>)
    ensures models.Arr? ==> r == Success(models.items)
    ensures models.Str? ==>
              && r.Success? && |r.value| == |models.s|
              && forall i :: 0 <= i < |models.s| ==> r.value[i] == Str([models.s[i]])
    ensures models.Obj? ==>
              && r.Success? && |r.value| == |FromPairs(models.members)|
              && forall i :: 0 <= i < |r.value| ==> r.value[i] == Str(FromPairs(models.members)[i].0)
    ensures r.Failure? <==> models.Null? || models.Bool? || models.Num?
  {
    match models
    case Arr(items) => Success(items)
    case Str(s) => Success(seq(|s|, i requires 0 <= i < |s| => Str([s[i]])))
    case Obj(m) =>
      var keys := KeyList(FromPairs(m));
      Success(seq(|keys|, i requires 0 <= i < |keys| => Str(keys[i])))
    case _ => Failure(NotIterable(models))
  }

  /** `fnmatch.filter(available.keys(), pattern)` as a set. */
  function MatchesOf(env: Env, pattern: string): (r: set<string>)
    ensures r <= env.available
    ensures forall name :: name in env.available ==> (name in r <==> env.matches(name, pattern))
  {
    set name | name in env.available && env.matches(name, pattern)
  }

  /** Every pattern is a string that matches some available model. */
  predicate AllPatternsMatch(env: Env, patterns: seq<Value>) {
    forall i :: 0 <= i < |patterns| ==> patterns[i].Str? && MatchesOf(env, patterns[i].s) != {}
  }

  /** Pattern `i` is the first that fails, with error `e`: a non-string
      pattern, or a string pattern that matches nothing. */
  predicate FirstMismatch(env: Env, patterns: seq<Value>, i: int, e: HandlerError) {
    && 0 <= i < |patterns|
    && AllPatternsMatch(env, patterns[..i])
    && (if patterns[i].Str? then e == NoMatch(patterns[i].s) && MatchesOf(env, patterns[i].s) == {}
        else e == PatternNotString(patterns[i]))
  }

  /** The selection loop: it fails at the first pattern that is not a string
      or matches nothing; otherwise the selected models are exactly those
      matched by some pattern, all of them available. */
  function SelectModels(env: Env, patterns: seq<Value>): (r: Result<set<string>, HandlerError>)
    ensures r.Success? <==> AllPatternsMatch(env, patterns)
    ensures r.Success? ==> r.value <= env.available
    ensures r.Success? ==> forall name :: name in r.value <==>
      exists i :: 0 <= i < |patterns| && name in MatchesOf(env, patterns[i].s)
    ensures r.Failure? ==> exists i :: FirstMismatch(env, patterns, i, r.error)
    decreases |patterns|
  {
    if |patterns| == 0 then Success({})
    else
      var rest := patterns[1..];
      match patterns[0]
      case Str(p) =>
        var found := MatchesOf(env, p);
        if found == {} then
          assert FirstMismatch(env, patterns, 0, NoMatch(p));
          Failure(NoMatch(p))
        else
          (match SelectModels(env, rest)
           case Failure(e) =>
             MismatchAfterMatch(env, patterns, e);
             Failure(e)
           case Success(more) =>
             MatchedUnion(env, patterns, more);
             Success(found + more))
      case _ =>
        assert FirstMismatch(env, patterns, 0, PatternNotString(patterns[0]));
        Failure(PatternNotString(patterns[0]))
  }

  /** A mismatch after a matching first pattern is a mismatch of the whole
      list, one position further on. */
  lemma MismatchAfterMatch(env: Env, patterns: seq<Value>, e: HandlerError)
    requires |patterns| > 0 && patterns[0].Str? && MatchesOf(env, patterns[0].s) != {}
    requires exists i :: FirstMismatch(env, patterns[1..], i, e)
    ensures exists i :: FirstMismatch(env, patterns, i, e)
  {
    var rest := patterns[1..];
    var i :| FirstMismatch(env, rest, i, e);
    assert patterns[i + 1] == rest[i];
    assert AllPatternsMatch(env, patterns[..i + 1]) by {
      forall j | 0 <= j < i + 1
        ensures patterns[j].Str? && MatchesOf(env, patterns[j].s) != {}
      {
        if j > 0 {
          assert patterns[j] == rest[..i][j - 1];
        }
      }
    }
    assert FirstMismatch(env, patterns, i + 1, e);
  }

  /** The models of the first pattern together with those of the rest are
      the models of some pattern of the list. */
  lemma MatchedUnion(env: Env, patterns: seq<Value>, more: set<string>)
    requires |patterns| > 0 && AllPatternsMatch(env, patterns)
    requires forall name :: name in more <==>
      exists i :: 0 <= i < |patterns[1..]| && name in MatchesOf(env, patterns[1..][i].s)
    ensures forall name :: name in MatchesOf(env, patterns[0].s) + more <==>
      exists i :: 0 <= i < |patterns| && name in MatchesOf(env, patterns[i].s)
  {
    var rest := patterns[1..];
    var found := MatchesOf(env, patterns[0].s);
    forall name | name in found + more
      ensures exists i :: 0 <= i < |patterns| && name in MatchesOf(env, patterns[i].s)
    {
      if name !in found {
        var i :| 0 <= i < |rest| && name in MatchesOf(env, rest[i].s);
        assert patterns[i + 1] == rest[i];
      }
    }
    forall name | exists i :: 0 <= i < |patterns| && name in MatchesOf(env, patterns[i].s)
      ensures name in found + more
    {
      var i :| 0 <= i < |patterns| && name in MatchesOf(env, patterns[i].s);
      if i > 0 {
        assert rest[i - 1] == patterns[i];
      }
    }
  }

  /** `config.pop('models', ['*'])`: the model patterns, by default all models. */
  function ModelsOption(config: Members): (r: Value)
    ensures ModelsKey in Keys(config) ==> Lookup(config, ModelsKey) == Some(r)
    ensures ModelsKey !in Keys(config) ==> r == Arr([Str("*")])
  {
    Lookup(config, ModelsKey).GetOr(Arr([Str("*")]))
  }

  /** `register_store_handler` up to the foreign registration call: pop the
      module name (required), load the module, pop the model patterns
      (defaulting to `['*']`) and select the models they match. */
  function Register(env: Env, config: Members): (r: Result<Registration, HandlerError>)
    ensures Lookup(config, NameKey).None? ==> r == Failure(MissingName(config))
    ensures Lookup(config, NameKey).Some? && !env.loadable(Lookup(config, NameKey).value) ==>
      r == Failure(InvalidModule(Lookup(config, NameKey).value))
    ensures r.Success? ==> Lookup(config, NameKey) == Some(r.value.handler)
    ensures r.Success? ==> Lookup(r.value.config, NameKey).None? && Lookup(r.value.config, ModelsKey).None?
    ensures r.Success? ==> forall k :: k != NameKey && k != ModelsKey ==> Lookup(r.value.config, k) == Lookup(config, k)
    ensures r.Success? ==> r.value.models <= env.available
    ensures r.Success? ==>
              && Patterns(ModelsOption(config)).Success?
              && SelectModels(env, Patterns(ModelsOption(config)).value) == Success(r.value.models)
    ensures Lookup(config, NameKey).Some? && env.loadable(Lookup(config, NameKey).value) ==>
      var patterns := Patterns(ModelsOption(config));
      && (r.Success? <==> patterns.Success? && SelectModels(env, patterns.value).Success?)
      && (patterns.Failure? ==> r == Failure(patterns.error))
      && (patterns.Success? && SelectModels(env, patterns.value).Failure? ==>
            r == Failure(SelectModels(env, patterns.value).error))
  {
    match Lookup(config, NameKey)
    case None => Failure(MissingName(config))
    case Some(name) =>
      var rest := Remove(config, NameKey);
      if !env.loadable(name) then Failure(InvalidModule(name))
      else
        assert NameKey != ModelsKey;
        var models := ModelsOption(rest);
        var passOn := Remove(rest, ModelsKey);
        var patterns :- Patterns(models);
        var selected :- SelectModels(env, patterns);
        Success(Registration(name, passOn, selected))
  }

  /** Without a `models` member the single pattern `*` selects every
      available model, and is an error when no model is available. */
  lemma DefaultModelsSelectAll(env: Env, config: Members)
    requires StarMatchesAll(env)
    requires Lookup(config, NameKey).Some? && env.loadable(Lookup(config, NameKey).value)
    requires Lookup(config, ModelsKey).None?
    ensures env.available != {} ==> Register(env, config).Success? && Register(env, config).value.models == env.available
    ensures env.available == {} ==> Register(env, config) == Failure(NoMatch("*"))
  {
    assert MatchesOf(env, "*") == env.available;
    var patterns := [Str("*")];
    assert Patterns(Arr(patterns)) == Success(patterns);
    if env.available != {} {
      assert SelectModels(env, patterns[1..]) == Success({});
    }
  }

  /** One entry of the handler list: a string is parsed as JSON first; the
      (parsed) entry must be an object, which is then registered. */
  function ResolveEntry(env: Env, entry: Value): (r: Result<Registration, HandlerError>)
    ensures entry.Obj? ==> r == Register(env, entry.members)
    ensures entry.Str? && env.loads(entry.s).None? ==> r == Failure(InvalidJson(entry.s))
    ensures entry.Str? && env.loads(entry.s).Some? ==>
      var parsed := env.loads(entry.s).value;
      r == if parsed.Obj? then Register(env, parsed.members) else Failure(NotAnObject(parsed))
    ensures !entry.Str? && !entry.Obj? ==> r == Failure(NotAnObject(entry))
  {
    match entry
    case Str(text) =>
      (match env.loads(text)
       case None => Failure(InvalidJson(text))
       case Some(Obj(m)) => Register(env, m)
       case Some(parsed) => Failure(NotAnObject(parsed)))
    case Obj(m) => Register(env, m)
    case _ => Failure(NotAnObject(entry))
  }

  /** Entry `i` is the first whose registration fails, with error `e`. */
  predicate FirstRejected(env: Env, entries: seq<Value>, i: int, e: HandlerError) {
    && 0 <= i < |entries|
    && ResolveEntry(env, entries[i]) == Failure(e)
    && forall j :: 0 <= j < i ==> ResolveEntry(env, entries[j]).Success?
  }

  /** The registration loop over a list of entries: every entry is
      registered in order, and the first entry that fails stops the server. */
  function RegisterAll(env: Env, entries: seq<Value>): (r: Result<seq<Registration>, HandlerError>)
    ensures r.Success? <==> forall i :: 0 <= i < |entries| ==> ResolveEntry(env, entries[i]).Success?
    ensures r.Success? ==>
              && |r.value| == |entries|
              && forall i :: 0 <= i < |entries| ==> ResolveEntry(env, entries[i]) == Success(r.value[i])
    ensures r.Failure? ==> exists i :: FirstRejected(env, entries, i, r.error)
    decreases |entries|
  {
    if |entries| == 0 then Success([])
    else
      var rest := entries[1..];
      assert forall i :: 0 < i < |entries| ==> entries[i] == rest[i - 1];
      match ResolveEntry(env, entries[0])
      case Failure(e) =>
        assert FirstRejected(env, entries, 0, e);
        Failure(e)
      case Success(first) =>
        (match RegisterAll(env, rest)
         case Failure(e) =>
           assert exists i :: FirstRejected(env, entries, i, e) by {
             var i :| FirstRejected(env, rest, i, e);
             assert entries[i + 1] == rest[i];
             assert FirstRejected(env, entries, i + 1, e);
           }
           Failure(e)
         case Success(more) =>
           Success([first] + more))
  }

  /** The store-handler configuration of `main`: the effective list,
      registered entry by entry. */
  function ConfigureStoreHandlers(env: Env, entries: seq<Value>): (r: Result<seq<Registration>, HandlerError>)
    ensures |entries| > 0 ==> r == RegisterAll(env, entries)
    ensures |entries| == 0 ==> r == RegisterAll(env, [env.kubernetesDefault, env.etcdDefault])
    ensures r.Success? ==> |r.value| == if |entries| == 0 then 2 else |entries|
  {
    RegisterAll(env, EffectiveHandlers(env, entries))
  }

  /** With no handlers configured, the Kubernetes default is registered
      first and the etcd default second. */
  lemma DefaultsInOrder(env: Env)
    requires ConfigureStoreHandlers(env, []).Success?
    ensures var regs := ConfigureStoreHandlers(env, []).value;
      && ResolveEntry(env, env.kubernetesDefault) == Success(regs[0])
      && ResolveEntry(env, env.etcdDefault) == Success(regs[1])
  {
    var effective := EffectiveHandlers(env, []);
    assert effective[0] == env.kubernetesDefault && effective[1] == env.etcdDefault;
  }
}
