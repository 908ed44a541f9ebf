/** The normalisation `_read_config_file` applies to the JSON value read from
    the server's configuration file, before it becomes the argument
    namespace. Opening and parsing the file are outside the model: the
    parsed value is the input. */
module ConfigFile {
  import opened Wrappers
  import opened Json
  import Text

  const AuthKey := "authentication_plugin"
  const AuthKwargsKey := "authentication_plugin_kwargs"
  const HandlerKey := "register_store_handler"
  const NameKey := "name"

  /** The exceptions `_read_config_file` raises on a parsed file. */
  datatype ConfigError =
    | NotAnObject            // TypeError: file content must be a JSON object
    | AuthPluginMissingName  // ValueError: "authentication_plugin" is missing a "name" member

  /** A member name as an option name: every `-` becomes `_`. */
  function NormalizeKey(k: string): string {
    Text.ReplaceChar(k, '-', '_')
  }

  /** The members with their names normalised, one pair per original member,
      before any collision is resolved. */
  function Renamed(m: Members): (r: Members)
    ensures |r| == |m|
    ensures forall i :: 0 <= i < |m| ==> r[i] == (NormalizeKey(m[i].0), m[i].1)
  {
    seq(|m|, i requires 0 <= i < |m| => (NormalizeKey(m[i].0), m[i].1))
  }

  /** `{k.replace('-', '_'): v for k, v in json_object.items()}`: a dict whose
      keys hold no hyphen, where every original member's normalised name is
      present and two names that normalise alike keep the later value. */
  function NormalizeMembers(m: Members): (r: Members)
    ensures UniqueKeys(r)
    ensures NoHyphen(r)
    ensures forall i :: 0 <= i < |m| ==> NormalizeKey(m[i].0) in Keys(r)
    ensures forall k :: k in Keys(r) ==> exists i :: 0 <= i < |m| && k == NormalizeKey(m[i].0)
    ensures forall k :: Lookup(r, k) == Lookup(Renamed(m), k)
  {
    var ps := Renamed(m);
    var r := FromPairs(ps);
    assert forall i :: 0 <= i < |m| ==> NormalizeKey(m[i].0) in Keys(ps) by {
      forall i | 0 <= i < |m|
        ensures NormalizeKey(m[i].0) in Keys(ps)
      {
        assert ps[i].0 == NormalizeKey(m[i].0);
      }
    }
    r
  }

  /** A member whose normalised name no later member shares keeps its value
      under that name. */
  lemma NormalizedValueKept(m: Members, i: int)
    requires 0 <= i < |m|
    requires forall j :: i < j < |m| ==> NormalizeKey(m[j].0) != NormalizeKey(m[i].0)
    ensures Lookup(NormalizeMembers(m), NormalizeKey(m[i].0)) == Some(m[i].1)
  {
    var ps := Renamed(m);
    LookupIsLastBinding(ps, NormalizeKey(m[i].0), m[i].1);
  }

  /** The option `k` is present and holds a JSON object (`type(...) is dict`). */
  predicate ObjectAt(m: Members, k: string) {
    Lookup(m, k).Some? && Lookup(m, k).value.Obj?
  }

  function MembersAt(m: Members, k: string): Members
    requires ObjectAt(m, k)
  {
    Lookup(m, k).value.members
  }

  /** The `authentication_plugin` special case: an object value is split into
      the plugin name and its keyword arguments (the object minus `name`);
      an object without `name` is an error; any other value is left alone. */
  function SplitAuthPlugin(m: Members): (r: Result<Members, ConfigError>)
    ensures ObjectAt(m, AuthKey) && Lookup(MembersAt(m, AuthKey), NameKey).None? ==>
      r == Failure(AuthPluginMissingName)
    ensures ObjectAt(m, AuthKey) && Lookup(MembersAt(m, AuthKey), NameKey).Some? ==>
      var a := MembersAt(m, AuthKey);
      && r.Success?
      && Lookup(r.value, AuthKey) == Lookup(a, NameKey)
      && Lookup(r.value, AuthKwargsKey) == Some(Obj(Remove(a, NameKey)))
      && Lookup(Remove(a, NameKey), NameKey).None?
    ensures !ObjectAt(m, AuthKey) ==> r == Success(m)
    ensures r.Success? ==> forall k :: k != AuthKey && k != AuthKwargsKey ==> Lookup(r.value, k) == Lookup(m, k)
    ensures r.Success? ==> Keys(r.value) <= Keys(m) + {AuthKwargsKey}
    ensures r.Success? && UniqueKeys(m) ==> UniqueKeys(r.value)
  {
    match Lookup(m, AuthKey)
    case Some(Obj(a)) =>
      (match Lookup(a, NameKey)
       case None => Failure(AuthPluginMissingName)
       case Some(name) =>
         var kwargs := Remove(a, NameKey);
         Success(Put(Put(m, AuthKey, name), AuthKwargsKey, Obj(kwargs))))
    case _ => Success(m)
  }

  /** The `register_store_handler` special case: a single object becomes a
      one-element list; a list or any other value is left alone. */
  function WrapStoreHandler(m: Members): (r: Members)
    ensures ObjectAt(m, HandlerKey) ==> Lookup(r, HandlerKey) == Some(Arr([Lookup(m, HandlerKey).value]))
    ensures !ObjectAt(m, HandlerKey) ==> r == m
    ensures forall k :: k != HandlerKey ==> Lookup(r, k) == Lookup(m, k)
    ensures Keys(r) == Keys(m)
    ensures UniqueKeys(m) ==> UniqueKeys(r)
  {
    match Lookup(m, HandlerKey)
    case Some(Obj(h)) => Put(m, HandlerKey, Arr([Obj(h)]))
    case _ => m
  }

  /** No option name holds a hyphen. */
  predicate NoHyphen(m: Members) {
    forall k :: k in Keys(m) ==> '-' !in k
  }

  /** The two special cases applied, in order, to the normalised options:
      failure happens exactly for an object-valued plugin without a name; on
      success the plugin and handler options are rewritten and every other
      option keeps its value. */
  function SpecialCases(n: Members): (r: Result<Members, ConfigError>)
    ensures r.Failure? <==> ObjectAt(n, AuthKey) && Lookup(MembersAt(n, AuthKey), NameKey).None?
    ensures r.Failure? ==> r.error == AuthPluginMissingName
    ensures r.Success? ==> forall k :: k != AuthKey && k != AuthKwargsKey && k != HandlerKey ==>
      Lookup(r.value, k) == Lookup(n, k)
    ensures r.Success? ==> Keys(r.value) <= Keys(n) + {AuthKwargsKey}
    ensures r.Success? && UniqueKeys(n) ==> UniqueKeys(r.value)
    ensures r.Success? && NoHyphen(n) ==> NoHyphen(r.value)
    ensures r.Success? ==>
      && (ObjectAt(n, AuthKey) ==>
            && Lookup(r.value, AuthKey) == Lookup(MembersAt(n, AuthKey), NameKey)
            && Lookup(r.value, AuthKwargsKey) == Some(Obj(Remove(MembersAt(n, AuthKey), NameKey))))
      && (!ObjectAt(n, AuthKey) ==>
            && Lookup(r.value, AuthKey) == Lookup(n, AuthKey)
            && Lookup(r.value, AuthKwargsKey) == Lookup(n, AuthKwargsKey))
      && (ObjectAt(n, HandlerKey) ==>
            Lookup(r.value, HandlerKey) == Some(Arr([Lookup(n, HandlerKey).value])))
      && (!ObjectAt(n, HandlerKey) ==> Lookup(r.value, HandlerKey) == Lookup(n, HandlerKey))
  {
    var a :- SplitAuthPlugin(n);
    NoHyphenWithKwargs(a, n);
    Success(WrapStoreHandler(a))
  }

  /** Adding the keyword-arguments option keeps option names hyphen-free. */
  lemma NoHyphenWithKwargs(a: Members, n: Members)
    requires Keys(a) <= Keys(n) + {AuthKwargsKey}
    ensures NoHyphen(n) ==> NoHyphen(a)
  {
    assert '-' !in AuthKwargsKey;
  }

  /** `_read_config_file` after the file has been read: the JSON text's
      members `m` become a dict as `json.load` builds it (a repeated member
      name keeps its last value), the value must be
      a JSON object, its member names are normalised, then the two special
      cases are applied. Failure happens exactly for a non-object or for an
      object-valued plugin without a name; on success no option name holds a
      hyphen and every option other than the three special ones has the value
      the comprehension gives it from the loaded dict. */
  function ReadConfig(v: Value): (r: Result<Members, ConfigError>)
    ensures !v.Obj? ==> r == Failure(NotAnObject)
    ensures v.Obj? ==>
      var n := NormalizeMembers(FromPairs(v.members));
      (r.Failure? <==> ObjectAt(n, AuthKey) && Lookup(MembersAt(n, AuthKey), NameKey).None?)
    ensures r.Failure? ==> r.error == NotAnObject || r.error == AuthPluginMissingName
    ensures r.Success? ==> UniqueKeys(r.value)
    ensures r.Success? ==> NoHyphen(r.value)
    ensures r.Success? ==> forall k :: k != AuthKey && k != AuthKwargsKey && k != HandlerKey ==>
      Lookup(r.value, k) == Lookup(Renamed(FromPairs(v.members)), k)
    ensures v.Obj? ==> r == SpecialCases(NormalizeMembers(FromPairs(v.members)))
  {
    if !v.Obj? then Failure(NotAnObject)
    else SpecialCases(NormalizeMembers(FromPairs(v.members)))
  }

  /** In a loaded dict, a key that no other key normalises alike keeps its
      value under its normalised name. */
  lemma NormalizedKeyKept(d: Members, k: string, v: Value)
    requires UniqueKeys(d)
    requires Lookup(d, k) == Some(v)
    requires forall k2 :: k2 in Keys(d) && k2 != k ==> NormalizeKey(k2) != NormalizeKey(k)
    ensures Lookup(NormalizeMembers(d), NormalizeKey(k)) == Some(v)
  {
    var i :| 0 <= i < |d| && d[i].0 == k;
    UniqueLookup(d, i);
    forall j | i < j < |d|
      ensures NormalizeKey(d[j].0) != NormalizeKey(d[i].0)
    {
      assert d[j].0 in Keys(d);
    }
    NormalizedValueKept(d, i);
  }

  /** The hyphenated spelling `authentication-plugin` is normalised before the
      special case looks, so an object given under it is split too, provided
      no other member name also normalises to `authentication_plugin`. */
  lemma HyphenatedAuthPluginSplit(m: Members, a: Members, name: Value)
    requires Lookup(m, "authentication-plugin") == Some(Obj(a))
    requires forall i :: 0 <= i < |m| && m[i].0 != "authentication-plugin" ==> NormalizeKey(m[i].0) != AuthKey
    requires Lookup(a, NameKey) == Some(name)
    ensures ReadConfig(Obj(m)).Success?
    ensures Lookup(ReadConfig(Obj(m)).value, AuthKey) == Some(name)
    ensures Lookup(ReadConfig(Obj(m)).value, AuthKwargsKey) == Some(Obj(Remove(a, NameKey)))
  {
    var k := "authentication-plugin";
    var d := FromPairs(m);
    HyphenatedAuthKey();
    assert Lookup(d, k) == Some(Obj(a));
    assert forall k2 :: k2 in Keys(d) && k2 != k ==> NormalizeKey(k2) != NormalizeKey(k) by {
      forall k2 | k2 in Keys(d) && k2 != k
        ensures NormalizeKey(k2) != AuthKey
      {
        assert k2 in Keys(m);
      }
    }
    NormalizedKeyKept(d, k, Obj(a));
    var n := NormalizeMembers(d);
    assert ObjectAt(n, AuthKey) && MembersAt(n, AuthKey) == a;
  }

  /** The hyphenated spelling normalises to the plugin option's name. */
  lemma HyphenatedAuthKey()
    ensures NormalizeKey("authentication-plugin") == AuthKey
  {
  }

  /** A member name given twice in the file counts once, with its last value,
      before names are normalised: the options depend only on the dict
      `json.load` builds from the members. */
  lemma RepeatedMembersLoadedFirst(m: Members)
    ensures ReadConfig(Obj(m)) == ReadConfig(Obj(FromPairs(m)))
  {
    FromPairsOfDict(FromPairs(m));
  }
}
