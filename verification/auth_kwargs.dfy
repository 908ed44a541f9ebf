/** How `main` turns the `authentication_plugin_kwargs` option into the
    keyword arguments of the authentication plugin: a `key=value,...`
    string is parsed, a dict (as the configuration file's special case
    produces) is passed through, anything else yields no arguments. */
module AuthKwargs {
  import opened Wrappers
  import opened Json
  import Text
  import ConfigFile

  /** The ValueError of `key, value = item.split('=')` when the item does
      not split into exactly two pieces. */
  datatype KwargsError = CannotUnpack(item: string, pieces: nat)

  /** The item unpacks into a key and a value. */
  predicate Unpacks(item: string) {
    |Text.Split(item, '=')| == 2
  }

  /** An item unpacks exactly when it holds one `=`. */
  lemma UnpacksIffOneEquals(item: string)
    ensures Unpacks(item) <==> Text.Count(item, '=') == 1
  {
    Text.SplitCount(item, '=');
  }

  /** The stripped key and stripped value of an item that unpacks. */
  function ItemPair(item: string): (string, Value)
    requires Unpacks(item)
  {
    var parts := Text.Split(item, '=');
    (Text.Strip(parts[0]), Str(Text.Strip(parts[1])))
  }

  predicate AllUnpack(items: seq<string>) {
    forall item :: item in items ==> Unpacks(item)
  }

  /** Every item unpacks exactly when every item holds exactly one `=`. */
  lemma AllUnpackIffOneEquals(items: seq<string>)
    ensures AllUnpack(items) <==> forall item :: item in items ==> Text.Count(item, '=') == 1
  {
    forall item | item in items {
      UnpacksIffOneEquals(item);
    }
  }

  /** Item `i` is the first one that does not unpack. */
  predicate FirstFailure(items: seq<string>, i: int) {
    0 <= i < |items| && !Unpacks(items[i]) && AllUnpack(items[..i])
  }

  function ItemPairs(items: seq<string>): (ps: Members)
    requires AllUnpack(items)
    ensures |ps| == |items|
    ensures forall i :: 0 <= i < |items| ==> ps[i] == ItemPair(items[i])
  {
    seq(|items|, i requires 0 <= i < |items| => ItemPair(items[i]))
  }

  /** The loop over the comma-separated items: it succeeds exactly when every
      item unpacks, assigning each stripped key its stripped value in order. */
  function ParseItems(items: seq<string>): (r: Result<Members, KwargsError>)
    ensures r.Success? <==> AllUnpack(items)
    decreases |items|
  {
    if |items| == 0 then Success([])
    else
      var n := |items| - 1;
      var prefix := items[..n];
      match ParseItems(prefix)
      case Failure(e) =>
        Failure(e)
      case Success(init) =>
        var parts := Text.Split(items[n], '=');
        if |parts| != 2 then
          assert items[n] in items;
          Failure(CannotUnpack(items[n], |parts|))
        else
          var kv := ItemPair(items[n]);
          assert items == prefix + [items[n]];
          Success(Put(init, kv.0, kv.1))
  }

  /** On success the arguments are the dict built by assigning the stripped
      pairs in order, so a later duplicate key overwrites an earlier one. */
  lemma {:induction false} ParseItemsValue(items: seq<string>)
    requires AllUnpack(items)
    ensures ParseItems(items) == Success(FromPairs(ItemPairs(items)))
    decreases |items|
  {
    if |items| > 0 {
      var n := |items| - 1;
      var prefix := items[..n];
      var ps := ItemPairs(items);
      assert AllUnpack(prefix) by {
        assert items == prefix + [items[n]];
      }
      ParseItemsValue(prefix);
      assert FromPairs(ps) == Put(FromPairs(ItemPairs(prefix)), ps[n].0, ps[n].1) by {
        assert ps[..n] == ItemPairs(prefix);
      }
      assert ParseItems(items) == Success(Put(FromPairs(ItemPairs(prefix)), ps[n].0, ps[n].1)) by {
        assert items[n] in items;
      }
    }
  }

  /** On failure the error names the first item that does not unpack, with
      the number of pieces it split into. */
  lemma {:induction false} ParseItemsFirstFailure(items: seq<string>)
    requires !AllUnpack(items)
    ensures exists i :: FirstFailure(items, i) &&
                        ParseItems(items) == Failure(CannotUnpack(items[i], |Text.Split(items[i], '=')|))
    decreases |items|
  {
    var n := |items| - 1;
    var prefix := items[..n];
    if AllUnpack(prefix) {
      assert items == prefix + [items[n]];
      assert FirstFailure(items, n);
      assert ParseItems(items) == Failure(CannotUnpack(items[n], |Text.Split(items[n], '=')|));
    } else {
      ParseItemsFirstFailure(prefix);
      var i :| FirstFailure(prefix, i) &&
               ParseItems(prefix) == Failure(CannotUnpack(prefix[i], |Text.Split(prefix[i], '=')|));
      assert items[..i] == prefix[..i];
      assert FirstFailure(items, i);
      assert ParseItems(items) == ParseItems(prefix);
    }
  }

  /** The authentication keyword arguments `main` hands to `create_app`:
      a string without `=` and a value that is neither string nor object give
      no arguments, an object passes through unchanged, and a string with `=`
      parses successfully exactly when each of its comma-separated items holds
      exactly one `=`. */
  function ParseKwargs(v: Value): (r: Result<Members, KwargsError>)
    ensures v.Str? && '=' !in v.s ==> r == Success([])
    ensures v.Str? && '=' in v.s ==>
      (r.Success? <==> forall item :: item in Text.Split(v.s, ',') ==> Text.Count(item, '=') == 1)
    ensures v.Str? && '=' in v.s ==> r == ParseItems(Text.Split(v.s, ','))
    ensures v.Obj? ==> r == Success(v.members)
    ensures !v.Str? && !v.Obj? ==> r == Success([])
  {
    match v
    case Str(s) =>
      if '=' in s then
        var items := Text.Split(s, ',');
        AllUnpackIffOneEquals(items);
        ParseItems(items)
      else Success([])
    case Obj(m) => Success(m)
    case _ => Success([])
  }

  /** Keys hold no separator and no surrounding whitespace, and every value
      is a string. */
  predicate KwargsShape(r: Members) {
    forall k :: k in Keys(r) ==>
      && '=' !in k && ',' !in k
      && Lookup(r, k).Some? && Lookup(r, k).value.Str?
      && (|k| > 0 ==> !Text.IsSpace(k[0]) && !Text.IsSpace(k[|k| - 1]))
  }

  /** The dict assigned from comma-free items has the shape of parsed
      arguments. */
  lemma PairsShape(items: seq<string>)
    requires AllUnpack(items)
    requires forall item :: item in items ==> ',' !in item
    ensures KwargsShape(FromPairs(ItemPairs(items)))
  {
    var ps := ItemPairs(items);
    var r := FromPairs(ps);
    forall k | k in Keys(r)
      ensures '=' !in k && ',' !in k && Lookup(r, k).Some? && Lookup(r, k).value.Str?
      ensures |k| > 0 ==> !Text.IsSpace(k[0]) && !Text.IsSpace(k[|k| - 1])
    {
      assert k in Keys(ps);
      var i :| 0 <= i < |ps| && ps[i].0 == k;
      assert items[i] in items;
      StrippedKeyFree(items[i]);
      LastValueIsString(ps, k);
    }
  }

  /** Parsed from a string, the arguments form a dict whose keys hold no
      separator and no surrounding whitespace and whose values are strings. */
  lemma ParsedKwargsShape(s: string)
    requires ParseKwargs(Str(s)).Success?
    ensures UniqueKeys(ParseKwargs(Str(s)).value)
    ensures KwargsShape(ParseKwargs(Str(s)).value)
  {
    if '=' in s {
      var items := Text.Split(s, ',');
      ParseItemsValue(items);
      PairsShape(items);
    }
  }

  /** A key obtained from an item contains neither separator. */
  lemma StrippedKeyFree(item: string)
    requires Unpacks(item)
    requires ',' !in item
    ensures '=' !in ItemPair(item).0 && ',' !in ItemPair(item).0
  {
    var parts := Text.Split(item, '=');
    Text.SplitKeepsAbsent(item, '=', ',');
    Text.StripKeepsAbsent(parts[0], '=');
    Text.StripKeepsAbsent(parts[0], ',');
  }

  lemma LastValueIsString(ps: Members, k: string)
    requires forall i :: 0 <= i < |ps| ==> ps[i].1.Str?
    requires k in Keys(ps)
    ensures Lookup(FromPairs(ps), k).value.Str?
  {
    LookupFindsLastBinding(ps, k);
  }

  /** A formatted clean pair is one item that unpacks back into that pair. */
  lemma FormatItem(k: string, v: string)
    requires Clean(k) && Clean(v)
    ensures ',' !in k + "=" + v
    ensures Unpacks(k + "=" + v)
    ensures ItemPair(k + "=" + v) == (k, Str(v))
  {
    var item := k + "=" + v;
    var kv := [k, v];
    assert Text.Join(kv, '=') == item by {
      assert kv[1..] == [v];
    }
    Text.SplitJoin(kv, '=');
  }

  function FormatItems(pairs: seq<(string, string)>): (items: seq<string>)
    ensures |items| == |pairs|
    ensures forall i :: 0 <= i < |pairs| ==> items[i] == pairs[i].0 + "=" + pairs[i].1
  {
    seq(|pairs|, i requires 0 <= i < |pairs| => pairs[i].0 + "=" + pairs[i].1)
  }

  function StrPairs(pairs: seq<(string, string)>): (ps: Members)
    ensures |ps| == |pairs|
    ensures forall i :: 0 <= i < |pairs| ==> ps[i] == (pairs[i].0, Str(pairs[i].1))
  {
    seq(|pairs|, i requires 0 <= i < |pairs| => (pairs[i].0, Str(pairs[i].1)))
  }

  /** `','.join(k + '=' + v for k, v in pairs)`: the inverse of parsing. */
  function Format(pairs: seq<(string, string)>): string
    requires |pairs| >= 1
  {
    Text.Join(FormatItems(pairs), ',')
  }

  /** A piece that survives formatting and parsing unchanged: no separator
      and no surrounding whitespace. */
  predicate Clean(s: string) {
    '=' !in s && ',' !in s && Text.Strip(s) == s
  }

  /** Parsing a formatted list of clean pairs gives back the dict that
      assigns those pairs in order. */
  lemma ParseFormat(pairs: seq<(string, string)>)
    requires |pairs| >= 1
    requires forall i :: 0 <= i < |pairs| ==> Clean(pairs[i].0) && Clean(pairs[i].1)
    ensures ParseKwargs(Str(Format(pairs))) == Success(FromPairs(StrPairs(pairs)))
  {
    var items := FormatItems(pairs);
    var s := Format(pairs);
    forall i | 0 <= i < |items|
      ensures ',' !in items[i]
      ensures Unpacks(items[i]) && ItemPair(items[i]) == (pairs[i].0, Str(pairs[i].1))
    {
      FormatItem(pairs[i].0, pairs[i].1);
    }
    Text.SplitJoin(items, ',');
    assert '=' in s by {
      assert items[0][|pairs[0].0|] == '=';
      JoinHead(items, ',');
      assert s[|pairs[0].0|] == '=';
    }
    assert ItemPairs(items) == StrPairs(pairs);
    ParseItemsValue(items);
  }

  lemma JoinHead(parts: seq<string>, sep: char)
    requires |parts| >= 1
    ensures |Text.Join(parts, sep)| >= |parts[0]|
    ensures Text.Join(parts, sep)[..|parts[0]|] == parts[0]
  {
  }

  /** An object-valued plugin in the configuration file reaches the plugin
      as its keyword arguments: everything in the object except `name`. */
  lemma ConfigFileKwargsPassThrough(v: Value)
    requires ConfigFile.ReadConfig(v).Success?
    requires ConfigFile.ObjectAt(ConfigFile.NormalizeMembers(FromPairs(v.members)), ConfigFile.AuthKey)
    ensures ConfigFile.AuthKwargsKey in Keys(ConfigFile.ReadConfig(v).value)
    ensures ParseKwargs(Lookup(ConfigFile.ReadConfig(v).value, ConfigFile.AuthKwargsKey).value) ==
      Success(Remove(ConfigFile.MembersAt(ConfigFile.NormalizeMembers(FromPairs(v.members)), ConfigFile.AuthKey), ConfigFile.NameKey))
  {
  }
}
