# commissaire server start-up decisions, in Dafny

This project models the decision logic of the commissaire server entry
script (`src/commissaire/script.py`). The script reads a JSON configuration
file, merges it with the command line and starts a cherrypy/falcon server.
The model takes everything around that logic as given: files, argparse,
cherrypy, falcon and importlib. It keeps the four decisions the script
makes itself:

1. **Configuration-file normalisation** (`_read_config_file`). The parsed
   file must be a JSON object. Member names have `-` rewritten to `_`. An
   object-valued `authentication_plugin` is split into the plugin name plus
   `authentication_plugin_kwargs`. A single-object `register_store_handler`
   becomes a one-element list.
2. **Authentication keyword arguments** (in `main`). A `k=v, k2 = v2` string
   becomes a dict with stripped keys and values, and a later key overwrites
   an earlier one. A string without `=` gives no arguments. A dict passes
   through unchanged. An item that does not split into exactly two pieces on
   `=` is the `ValueError` of the tuple unpacking.
3. **TLS option check** (in `main`). Start-up is rejected when exactly one
   of keyfile and certfile is given, or when a client verify file is given
   without a certfile. TLS is enabled exactly when both key and cert are
   given.
4. **Store-handler configuration** (`main` and `register_store_handler`).
   An empty handler list is replaced by the Kubernetes default and then the
   etcd default. Each entry must be, or parse to, a JSON object that names
   its handler module. Its `models` patterns default to `['*']`. Every
   pattern must match an available model. The selected models are the union
   of the matches.

Layout, one module per file:

- `wrappers.dfy` (`Wrappers`): `Option` and `Result`. A `Failure` stands for
  the exception the script raises, or the `parser.error` exit it takes.
- `json.dfy` (`Json`): JSON values and dicts. A dict is an association list
  `seq<(string, Value)>`. `Lookup` returns the last binding, so "the later
  key wins" is explicit. `Put` is `d[k] = v`: an existing key keeps its
  position. `Remove` is `pop`. `FromPairs` builds a dict by assigning pairs
  in order, as a dict comprehension does.
- `text.dfy` (`Text`): the Python string methods the script uses. These are
  single-character `replace`, `split(sep)` and argument-less `strip()`.
  `strip()` uses Python's `str.isspace` whitespace set.
- `config_file.dfy` (`ConfigFile`): `_read_config_file` from the parsed JSON
  value onwards.
- `auth_kwargs.dfy` (`AuthKwargs`): the parsing of
  `authentication_plugin_kwargs`.
- `server_tls.dfy` (`ServerTls`): the TLS consistency check and the
  resulting server mode. An option counts as given when its value is truthy
  in Python's sense. An empty string, `null` or a missing option therefore
  counts as absent. A value from the configuration file can be any JSON
  value, so the options are JSON values.
- `store_handlers.dfy` (`StoreHandlers`): the handler list and the model
  selection. The foreign parts are fields of an `Env` parameter:
  - `json.loads` on string entries;
  - whether the named handler module can be imported;
  - the names of the model classes in `commissaire.handlers.models`;
  - `fnmatch` matching, as an arbitrary relation. Only the fact that `*`
    matches every name (`StarMatchesAll`) is assumed, and only where a
    lemma needs it;
  - the two default handler configurations.

## Model

| member | source | states |
|---|---|---|
| ConfigFile.ReadConfig | src/commissaire/script.py:152-183 | A value that is not a JSON object is rejected with the type error. An object's members are first built into a dict as `json.load` does, so a repeated member name keeps its last value. Failure happens exactly when the normalised `authentication_plugin` is an object without `name`. On success the dict has unique keys and no key holds `-`. Every option other than the three special ones has the value the comprehension gives it from the loaded dict. The special options are those `ConfigFile.SpecialCases` gives for the normalised dict. |
| ConfigFile.SpecialCases | src/commissaire/script.py:164-181 | On the normalised options, failure happens exactly for an object plugin without `name`. `authentication_plugin` becomes the name and `authentication_plugin_kwargs` the object minus `name` when the plugin is an object; both are untouched otherwise. A single-object `register_store_handler` becomes a one-element list, and other values are untouched. No other option changes, unique keys are preserved, and the only key added is the kwargs option, so a hyphen-free dict stays hyphen-free. |
| ConfigFile.NormalizeMembers | src/commissaire/script.py:156-157 | The hyphen-normalising comprehension gives a dict with unique keys and no `-` in any key. Every original member's normalised name is present, and every key comes from some member. Each lookup agrees with the pairwise renaming under last-wins, so two names that normalise alike keep the later value. |
| ConfigFile.NormalizedValueKept | src/commissaire/script.py:157 | A member whose normalised name no later member shares keeps its value, unchanged, under the name with `-` replaced by `_`. |
| ConfigFile.SplitAuthPlugin | src/commissaire/script.py:164-172 | An object plugin without `name` is a ValueError. With `name`, the plugin option becomes that name and the kwargs option becomes the object minus `name`, which no longer holds `name`. A non-object plugin leaves the dict unchanged. No other option changes, and unique keys are preserved. |
| ConfigFile.HyphenatedAuthPluginSplit | src/commissaire/script.py:157-172 | An object given under the hyphenated name `authentication-plugin`, at any position in the file, is split like one given as `authentication_plugin`. This is because names are normalised before the special case looks. It holds when no other member name normalises to `authentication_plugin`. |
| ConfigFile.NormalizedKeyKept | src/commissaire/script.py:157 | In a loaded dict, a key that no other key normalises alike keeps its value under its normalised name. |
| ConfigFile.RepeatedMembersLoadedFirst | src/commissaire/script.py:144-157 | The options read from an object are those read from the dict `json.load` builds from its members. So a repeated member name counts once, with its last value, before names are normalised. |
| ConfigFile.WrapStoreHandler | src/commissaire/script.py:178-181 | A single-object `register_store_handler` becomes a one-element list holding that object. Any other value leaves the dict unchanged. No other option changes, and the key set stays the same. |
| AuthKwargs.ParseKwargs | src/commissaire/script.py:414-422 | A string without `=` gives the empty dict. A dict is returned unchanged. Any other value gives the empty dict. A string with `=` parses successfully exactly when each comma-separated item holds exactly one `=`, and then the result is the item loop's result. |
| AuthKwargs.ParseItems | src/commissaire/script.py:417-419 | The item loop succeeds exactly when every item splits on `=` into two pieces. |
| AuthKwargs.ParseItemsValue | src/commissaire/script.py:417-419 | On success the result is the dict built by assigning each stripped key its stripped value in item order, so a later duplicate key overwrites an earlier one. |
| AuthKwargs.ParseItemsFirstFailure | src/commissaire/script.py:417-418 | On failure the error names the first item that does not unpack, with the number of pieces it split into, and every earlier item unpacks. |
| AuthKwargs.UnpacksIffOneEquals | src/commissaire/script.py:418 | `key, value = item.split('=')` succeeds exactly when the item holds one `=`. |
| AuthKwargs.AllUnpackIffOneEquals | src/commissaire/script.py:417-418 | Every item unpacks exactly when every item holds exactly one `=`. |
| AuthKwargs.ParsedKwargsShape | src/commissaire/script.py:414-419 | Arguments parsed from a string form a dict with unique keys and string values. No key holds `=` or `,`, or starts or ends with whitespace. |
| AuthKwargs.PairsShape | src/commissaire/script.py:416-419 | The dict assigned from comma-free items that all unpack has string values. None of its keys holds `=` or `,`, or starts or ends with whitespace. |
| AuthKwargs.ParseFormat | src/commissaire/script.py:414-419 | Formatting clean pairs as `k=v,...` and parsing the result gives back the dict that assigns those pairs in order. Clean means no separator and no surrounding whitespace. |
| AuthKwargs.ConfigFileKwargsPassThrough | src/commissaire/script.py:420-422 | When the configuration file gives the plugin as an object, and the command line does not also pass `--authentication-plugin-kwargs` (which would override the file), the keyword arguments reaching the plugin are that object without `name`. |
| ServerTls.CheckTls | src/commissaire/script.py:356-369 | Start-up is accepted exactly when both key and cert are given, or none of key, cert and verify file is. A key/cert mismatch is reported exactly when exactly one of them is given. The verify-file error occurs only with a verify file and neither key nor cert. TLS is enabled exactly when both are given, with that certificate and key. The verify location is passed on in every accepted mode. |
| ServerTls.VerifyNeedsKeyAndCert | src/commissaire/script.py:360-369 | With a client verify file given, start-up is accepted exactly when key and cert are both given, and then TLS is on. |
| StoreHandlers.EffectiveHandlers | src/commissaire/script.py:386-391 | An empty list is replaced by the Kubernetes default followed by the etcd default. A non-empty list is used unchanged. |
| StoreHandlers.ConfigureStoreHandlers | src/commissaire/script.py:386-400 | A non-empty list is registered as given. An empty list is registered as the Kubernetes default followed by the etcd default, so a failing default is reported like any failing entry. On success there is one registration per entry of the effective list, so two for an empty list. |
| StoreHandlers.DefaultsInOrder | src/commissaire/script.py:386-391 | With no handlers configured, the first registration comes from the Kubernetes default and the second from the etcd default. |
| StoreHandlers.RegisterAll | src/commissaire/script.py:392-400 | Registration succeeds exactly when every entry resolves. The registrations come in entry order, one per entry. A failure reports the first entry that fails, after all earlier entries succeeded. |
| StoreHandlers.ResolveEntry | src/commissaire/script.py:393-400 | An object entry is registered. A string entry is parsed first: a parse failure is an error, a parsed object is registered, and any other parsed value is the "must be a JSON object" error. Any other entry is that error too. |
| StoreHandlers.Register | src/commissaire/script.py:265-288 | A config without `name` is an error. A module that cannot be loaded is an error. On success the handler is the config's `name`. The config passed on holds neither `name` nor `models`, and every other key is unchanged. The models are the selection for `models`, defaulting to `['*']`, and are a subset of the available models. For a named, loadable config, registration succeeds exactly when the `models` value can be iterated and every pattern matches. Otherwise the error is that of the iteration (`NotIterable`) or of the pattern selection (`PatternNotString`, `NoMatch`). |
| StoreHandlers.Patterns | src/commissaire/script.py:284 | `for pattern in models` visits a list's elements, a string's characters or a dict's keys in order. Null, booleans and numbers are the TypeError. |
| StoreHandlers.ModelsOption | src/commissaire/script.py:284 | `config.pop('models', ['*'])` is the `models` value when the member is present, and `['*']` otherwise. |
| StoreHandlers.MatchesOf | src/commissaire/script.py:285 | `fnmatch.filter` over the available model names keeps exactly the available names that match the pattern, so it never names a model outside the available ones. |
| StoreHandlers.SelectModels | src/commissaire/script.py:283-288 | Selection succeeds exactly when every pattern is a string matching some available model. The selected set is exactly the union of the per-pattern matches and is a subset of the available models. A failure names the first pattern that is not a string or matches nothing. |
| StoreHandlers.DefaultModelsSelectAll | src/commissaire/script.py:284-287 | When `*` matches every name and `models` is absent, every available model is selected. When no model is available, the default `*` is the no-match error. |
| Json.LookupIsLastBinding | src/commissaire/script.py:157 | A dict lookup returns `v` for `k` exactly when `(k, v)` is bound at some position and no later position binds `k`. |
| Json.Truthy | src/commissaire/script.py:356-365 | `bool(x)` of a JSON value is false exactly for `null`, `false`, `0`, `""`, `[]` and `{}`. |
| Json.Lookup | src/commissaire/script.py:165 | `dict.get(k)` finds a value exactly when `k` is one of the dict's keys. The same lookup serves the handler option at line 179. |
| Json.Put | src/commissaire/script.py:171-172 | After `d[k] = v`, `k` maps to `v` and every other key keeps its value. The key set gains `k`, and unique keys are preserved. An existing key keeps its position and every other pair is unchanged; a new key is appended. |
| Json.Remove | src/commissaire/script.py:171 | After the pop, the key is absent and every other key keeps its value. The key set loses the key, and unique keys are preserved. |
| Json.FromPairs | src/commissaire/script.py:157 | Building a dict by assigning pairs in order gives unique keys, the same key set, and for each key the last value it was given. |
| Text.ReplaceChar | src/commissaire/script.py:157 | `replace('-', '_')` keeps the length, leaves no `-`, changes exactly the `-` positions to `_` and keeps every other character. |
| Text.ReplaceCharFixpoint | src/commissaire/script.py:157 | Replacing is idempotent, and it leaves a string unchanged exactly when the string holds no `-`. |
| Text.Split | src/commissaire/script.py:417-418 | `split(sep)` yields at least one piece, no piece holds the separator, and joining the pieces with the separator gives back the input. |
| Text.SplitJoin | src/commissaire/script.py:417-418 | Splitting the join of separator-free pieces gives back those pieces. |
| Text.SplitCount | src/commissaire/script.py:418 | A string splits into one more piece than it has separators. |
| Text.SplitKeepsAbsent | src/commissaire/script.py:417-418 | A character absent from the string is absent from every piece. |
| Text.Strip | src/commissaire/script.py:419 | `strip()` never lengthens the string, and a non-empty result neither starts nor ends with whitespace. |
| Text.StripIsSlice | src/commissaire/script.py:419 | The stripped string is a contiguous slice of the input with only whitespace on either side. |
| Text.StripKeepsAbsent | src/commissaire/script.py:419 | A character absent from the input is absent from the stripped string. |
| Text.StripIdempotent | src/commissaire/script.py:419 | Stripping twice is stripping once. |
| Text.TrimStartIsSuffix | src/commissaire/script.py:419 | Dropping leading whitespace keeps a suffix and drops only whitespace. |
| Text.TrimEndIsPrefix | src/commissaire/script.py:419 | Dropping trailing whitespace keeps a prefix and drops only whitespace. |

## Left out

- Opening and reading the configuration file, the default path, the
  `IOError` rule for explicit versus default paths, and the "Using
  configuration" message (script.py:135-150). These are file I/O. The
  parsed JSON value is the input of `ConfigFile.ReadConfig`, and a JSON
  parse error is outside the model.
- `parse_args` (script.py:186-248). It parses the command line twice with
  argparse and overlays it on the file's namespace. This is library
  behaviour. In particular, `--register-store-handler` appending to a list
  from the file is not modelled.
- `create_app` (script.py:48-96). It imports the authentication plugin and
  registers falcon routes, a thin wrapper over libraries.
- `parse_uri` (script.py:99-117). The parse is `urlparse`, and nothing in
  the modelled paths calls it.
- Logging set-up, cherrypy configuration, the SSL adapter class, signal
  handlers, plugins and the engine lifecycle in `main` (script.py:299-354,
  370-385, 401-411, 423-434). These are server plumbing. `ServerTls.CheckTls` only
  reports which server mode results.
- Importing the handler module (script.py:272-277), `json.loads` on string
  entries (script.py:394) and `fnmatch` (script.py:285). These are the
  `loadable`, `loads` and `matches` parameters of `StoreHandlers.Env`. A
  module that imports but lacks `StoreHandler` counts as not loadable.
- `store_manager.register_store_handler` and its `ConfigurationError`
  (script.py:290-296). This is a foreign call. `StoreHandlers.Register`
  returns what would be passed to it.
- `C.DEFAULT_KUBERNETES_STORE_HANDLER` and `C.DEFAULT_ETCD_STORE_HANDLER`.
  The constants module is not part of this model, so both values are `Env`
  fields.
- A non-list `register_store_handler` value other than a single object,
  such as a string or a number from the configuration file.
  `StoreHandlers.ConfigureStoreHandlers` takes the list of entries.
- Python 2. The script also runs under Python 2 (script.py:345-348), but
  the model follows Python 3 `str` semantics throughout. Under Python 2,
  `json.load` returns `unicode` strings, so `type(x) is str` is false at
  script.py:393 and script.py:415. A string `authentication_plugin_kwargs`
  from the configuration file would then give no arguments instead of being
  parsed. A string store-handler entry from the file would be rejected as
  not a JSON object instead of being parsed with `json.loads`. Python 2's
  byte-string `strip()` also removes only ASCII whitespace, not 0x1C-0x1F
  or 0x85 as `Text.IsSpace` does.
- ConfigFile.NormalizeMembers: follows dicts that iterate in insertion
  order (Python 3.7 and later). The comprehension at script.py:157 walks
  `json_object.items()` in that order, so of two names that normalise
  alike the later one wins. Likewise `StoreHandlers.Patterns` tries the
  keys of a dict-valued `models` in insertion order (script.py:284), so
  `NoMatch` names the first failing key. Under Python 2 or Python 3 before
  3.6, dicts iterate in hash order, and either choice is possible.
- Floating-point JSON numbers. `Json.Value` has integers only, so a float
  option's truthiness is not modelled.
- The distinction between `parser.error` exits and uncaught exceptions.
  Both are a `Failure` carrying the reason.
- test/test_transport_ansibleapi.py. It exercises the Ansible transport
  module, whose source is not part of this model, through Ansible and mocks.
