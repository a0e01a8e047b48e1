# py-de-id in Dafny

A model of the transform-and-deliver pipeline of py-de-id. The service takes
a FHIR search bundle for one patient and turns it into a transaction bundle.
On the way it de-identifies each record under a rule table, gives every record
a fresh id and rewrites every internal `Type/id` reference to match. It also
makes placeholder records for references to organisations, practitioners and
locations that the bundle lacks. Finally it posts the entries to the
destination in batches of 15.

The repository has three copies of the pipeline:

- `py_de_id/pydeid.py` is the reference version. De-identification is a flag, and the reference walk makes placeholders.
- `py_de_id/app.py` and `py_de_id/py-de-id.py` always de-identify and never make placeholders.

The model holds all three behind one switch pair, `Clone.Switches(deidentify, placeholders)`.
`app.py` also has two helpers of its own: a top-level `replace_reference(obj, old_ref, new_ref)` and `find_entry`.

Modules, leaves first:

| module | file | models |
|---|---|---|
| `Json` | json.dfy | JSON values: objects are ordered key/value lists, as Python dicts keep insertion order. Also the Python operators the code uses on them (`in`, `[]`, iteration) and their exceptions. |
| `Randomization` | randomize.dfy | `randomize`: date, integer and string branches. |
| `Deidentify` | deidentify.dfy | `deidentify_fhir_resource`: `meta` removal, then the `erase`, `replace`, `randomize` and `merge` rules, wildcard rules first. |
| `References` | references.dfy | The reference walk nested in `clone_bundle`, including placeholder records. |
| `Clone` | clone.dfy | `clone_bundle`: pass 1 (fresh ids and the two-way address map), then pass 2 (the walk over a list that grows as placeholders are appended). |
| `Delivery` | delivery.dfy | The `deliver_clone` loop: as written, and as evidently intended. |
| `App` | app.dfy | `app.py`'s `replace_reference` and `find_entry`. |

How the model treats things outside the program:

- **Exceptions.** Python exceptions are `Err(fault)` values that propagate the way the exception would.
- **Randomness.** `random` is a tape of draws `nat -> nat` read from a cursor. `randint` takes one draw; `choices(string.printable, k=n)` takes `n` draws.
- **Fresh ids.** `uuid1()` is a supply `nat -> string` read from a cursor.
- **Merge expressions.** The `eval` of a merge expression is an oracle. It gets the expression after `%input%` has become `input`, plus the running value, and answers a value or `None` when evaluation raises.
- **The destination.** The HTTP destination is a finite script of replies: the k-th post gets the k-th reply.

Three behaviours of the code that the model keeps as they are:

- **Placeholders are bare resources.** In `pydeid.py` a placeholder is appended to the entry list as a bare resource (pydeid.py:226, 281-282). It is not wrapped in an entry with a POST request.
- **The triggering reference is left alone.** The reference that caused the placeholder keeps its old value. Later occurrences of the same reference are rewritten through the map entry the placeholder added. So pass 2 makes one placeholder per distinct missing reference per bundle, not one per occurrence (`References.SecondOccurrenceReusesPlaceholder`, `Clone.OnePlaceholderPerReference`).
- **`meta` is required.** `deidentify_fhir_resource` raises `KeyError` on a record without `meta` (pydeid.py:62).

## Model

| member | source | states |
|---|---|---|
| Json.In | py_de_id/pydeid.py:55 | `key in v`: on a dict, whether the key is present. It raises TypeError exactly on null, booleans and numbers. |
| Json.Subscript | py_de_id/pydeid.py:63 | `v[key]` succeeds exactly on a dict holding the key, with the key's value. A dict without it raises KeyError(key); anything else raises TypeError. |
| Json.Iterate | py_de_id/pydeid.py:86 | `for item in v`: a list gives its elements, a dict its keys in order and a string its characters. Null, booleans and numbers raise TypeError. |
| Json.Set | py_de_id/pydeid.py:75 | `d[k] = v`: afterwards `d[k]` is `v` and every other key reads as before. An existing key keeps its place; a new key goes last. |
| Json.Delete | py_de_id/pydeid.py:62 | `del d[k]`: afterwards `k` is gone, every other key reads as before, and no key is added. |
| Json.Text | py_de_id/app.py:147-148 | The text a value compares equal to: a string's own text, a date's ISO text (`IsoText` of its day), and none for other values. |
| Json.Truthy | py_de_id/pydeid.py:134-136 | `bool(v)` is false exactly on None, False, zero, and the empty string, list and dict. |
| Json.NewYear2020 | py_de_id/app.py:147-148 | Day 737425 has the ISO text "2020-01-01", the text `date.isoformat` gives it. |
| Randomization.RandInt | py_de_id/pydeid.py:42 | `random.randint(lo, hi)` on a non-empty range returns a number in [lo, hi]. |
| Randomization.IntParam | py_de_id/pydeid.py:39-40 | `params[key]` as a number of days: it succeeds exactly when the key is present and holds an int or a bool, and gives that int. A missing key or a non-dict raises as the lookup does. |
| Randomization.PrintableText | py_de_id/pydeid.py:57 | `choices(string.printable, k=n)` joined has n characters (none for negative n), each from `string.printable`. |
| Randomization.RandomizeDate | py_de_id/pydeid.py:37-44 | A moved date lies in [seed - min, seed + max]. With integer `min` and `max` it succeeds exactly when that window lies inside the calendar and is non-empty. Text that is not an ISO date raises ValueError; other non-dates raise TypeError. One draw is used. |
| Randomization.RandomizeInt | py_de_id/pydeid.py:49-52 | The result lies in [v - abs(min), v + max] and exists exactly when that range is non-empty. One draw is used. |
| Randomization.RandomizeText | py_de_id/pydeid.py:54-58 | The new string has the integer `length` parameter's length when given, else the old value's length. It uses only `string.printable` characters and one draw per character. It raises exactly when `len` or the `length` lookup raises. |
| Randomization.TextLength | py_de_id/pydeid.py:54 | `len` of a string, list or dict is its size. It fails exactly on null, booleans and numbers. |
| Randomization.LengthOverride | py_de_id/pydeid.py:55-56 | A present integer `length` overrides (a boolean counts as 0 or 1). An absent key, or a present value of any other type, gives no override. The `in` test or the lookup raising makes the result raise the same. |
| Randomization.Randomize | py_de_id/pydeid.py:36-58 | The branch order: a field whose lowered name contains "date" is a date, whatever the value; then float, int (bool included), then text. |
| Randomization.DateStaysInWindow | py_de_id/pydeid.py:38-44 | For a date field with `{min, max}` whose window fits the calendar, the result is always a date inside the window. |
| Randomization.EveryDayReachable | py_de_id/pydeid.py:41-44 | Every day of [seed - min, seed + max] is the outcome of some draw, so no day of the window is missed. |
| Randomization.WindowBeyondCalendarOverflows | py_de_id/pydeid.py:40 | A window reaching past 9999-12-31 raises OverflowError. |
| Randomization.EveryIntReachable | py_de_id/pydeid.py:50-52 | Every integer of [v - abs(min), v + max] is reachable. |
| Randomization.TextLengthKept | tests/test_py_de_id.py:63-67 | Without `length`, or with a text `length`, the old string's length is kept; with `length: n` the result has length n. |
| Randomization.EveryPrintableTextReachable | py_de_id/pydeid.py:57 | Every string over `string.printable` is some draw of `choices`. |
| Deidentify.MergeStep | py_de_id/pydeid.py:87-96 | A text item whose expression, with `%input%` replaced by `input`, evaluates makes the running value that evaluation's result. A date item is evaluated as it is. An item that is not text (`.replace` raises), or an expression whose evaluation raises, leaves the running value unchanged. |
| Deidentify.Merge | py_de_id/pydeid.py:85-97 | The merge loop computes the left fold of `MergeStep` over the params. |
| Deidentify.MergeFoldAppend | py_de_id/pydeid.py:86-92 | Merging `xs + ys` is merging `ys` into the result of `xs`. |
| Deidentify.MergeWithoutSuccessKeepsValue | py_de_id/pydeid.py:86-97 | If every evaluation raises, merge leaves the field as it was. |
| Deidentify.LastSuccessfulExpressionWins | py_de_id/pydeid.py:86-97 | The last expression, when it always evaluates, decides the field. |
| Deidentify.ApplyRule | py_de_id/pydeid.py:69-102 | A rule changes only its own field and adds none. Absent fields and unknown actions are no-ops. `erase` removes the field and `replace` sets it to `params`. `randomize` sets it to the `Randomize` result and fails exactly when that fails. `merge` sets it to the fold of the expressions and fails exactly when `params` cannot be iterated. Without `params` the last three raise KeyError. |
| Deidentify.ApplyOneRule | py_de_id/pydeid.py:69-102 | The in-place rule body, with its merge loop, computes `ApplyRule`. |
| Deidentify.DeidentifyResource | py_de_id/pydeid.py:61-103 | The nested loops over keys and rules compute `Deidentified`. |
| Deidentify.RulesErrorSticks | py_de_id/pydeid.py:68-81 | A rule that raises ends the pass with that exception. |
| Deidentify.KeysErrorSticks | py_de_id/pydeid.py:67-68 | An exception in the wildcard rules ends the pass; the type's own rules do not run. |
| Deidentify.ApplyRulesAppend | py_de_id/pydeid.py:67-68 | Running two rule lists in a row is running their concatenation. |
| Deidentify.WildcardRulesRunFirst | py_de_id/pydeid.py:67 | The keys loop is the wildcard rules followed by the type's rules, as one list. |
| Deidentify.RulesOnlyTouchNamedFields | py_de_id/pydeid.py:68-102 | Rules add no field, and a field that no rule names keeps its value. |
| Deidentify.MetaAlwaysRemoved | py_de_id/pydeid.py:62 | A de-identified record never has `meta`. A record without `meta` raises KeyError. |
| Deidentify.ConfiguredTypeRunsItsRules | py_de_id/pydeid.py:63-68 | For a configured type, the result is the wildcard-then-type rules on the record without `meta`. A table without "*" raises KeyError. |
| Deidentify.UnconfiguredTypeOnlyLosesMeta | py_de_id/pydeid.py:62-63 | A type the table does not name only loses `meta`. |
| Deidentify.UnnamedFieldsKept | py_de_id/pydeid.py:61-103 | A field no rule of any key names, other than `meta`, is kept. No field is added. |
| Deidentify.BirthDateIsDateField | py_de_id/pydeid.py:37 | `birthDate` takes the date branch. |
| Deidentify.PatientRulesApply | tests/test_py_de_id.py:32-40 | The Patient rules erase `name`, move `birthDate` at most one day back or two on, and set `gender` to "unknown". Every other field is kept. |
| Deidentify.PatientRulesScrub | tests/test_py_de_id.py:30-41 | De-identifying a Patient record under the test's rule table succeeds. `name` and `meta` are gone, `gender` is "unknown", the type is kept and the birth date stays in its window. |
| References.Dummy | py_de_id/pydeid.py:212-222 | The placeholder has exactly the keys resourceType, id, name and identifier, in that order. It has the given type and id and the "unknown-" name. |
| References.Probe | py_de_id/pydeid.py:201-202 | A node is a candidate exactly when its `reference` is a string holding "/"; a node without `reference` is not one. |
| References.Retarget | py_de_id/pydeid.py:229-231 | `reference`, and `display` when present, become the new address. Every other field and the key order are kept. |
| References.VisitReference | py_de_id/pydeid.py:201-231 | The node's own fields keep their keys, and only `reference` or `display` may change. The walk state only grows, and the map gains one entry per placeholder made. |
| References.PlaceholderGrows | py_de_id/pydeid.py:223-226 | Making a placeholder appends one record, adds one map entry and uses one id. |
| References.NodeOneKeyEach | py_de_id/pydeid.py:199-237 | Over a whole walk, the map gains exactly one new entry per placeholder made. As the map keeps its earlier entries, no reference gets a second placeholder. |
| References.ChildrenOneKeyEach | py_de_id/pydeid.py:232-236 | The same count over the walk of a node's children. |
| References.RewriteNode | py_de_id/pydeid.py:199-237 | A successful walk returns an object with the same keys in the same order. The state it threads only grows: earlier map entries are kept, new entries are Organization, Practitioner or Location references, and each new placeholder carries the next id. With placeholders off the state does not change. |
| References.RewriteChildren | py_de_id/pydeid.py:232-236 | Only dict-valued fields are entered, and they stay dicts. Other fields are kept and the key order is kept. |
| References.ReplaceReferences | py_de_id/pydeid.py:199-237 | The recursive procedure with its loop over the fields computes `RewriteNode`. |
| References.WalkChildren | py_de_id/pydeid.py:232-236 | The loop over `obj.items()` computes `RewriteChildren`. |
| References.ChildrenErrorSticks | py_de_id/pydeid.py:232-236 | An exception in one child ends the walk with that exception. |
| References.MappedReferenceIsRewritten | py_de_id/pydeid.py:228-231 | A mapped reference, and its display, point at the mapped address. |
| References.MissingStubReferenceMakesOnePlaceholder | py_de_id/pydeid.py:204-226 | A missing Organization, Practitioner or Location reference keeps its value. The map sends it to the placeholder's address, and the next placeholder made is that record. |
| References.UnmappedReferenceUnchanged | py_de_id/pydeid.py:204-227 | Any other missing reference stays unchanged and unmapped. |
| References.ListsAreNotEntered | py_de_id/pydeid.py:232-233 | A list-valued (or other non-dict) field other than reference and display is left exactly as it was. |
| References.WalkKeepsVisitedScalars | py_de_id/pydeid.py:232-236 | A scalar field keeps the value the reference step gave it. |
| References.FlatChildrenUnchanged | py_de_id/pydeid.py:232-233 | A node without dict-valued fields has nothing to enter. |
| References.PlaceholderIsLeftAlone | py_de_id/pydeid.py:212-236 | Walking a placeholder changes neither it nor the state. |
| References.SecondOccurrenceReusesPlaceholder | py_de_id/pydeid.py:204-231 | Two occurrences of the same missing stub reference make one placeholder. The first occurrence is left as it was; the second is pointed at the placeholder. (`Clone.OnePlaceholderPerReference` states the count over any entry list.) |
| Clone.Label | py_de_id/pydeid.py:259 | The f-string of a string is that string. |
| Clone.Located | py_de_id/pydeid.py:247 | The entry's resource is found exactly when the entry has a resource with an `id`. An entry without a resource is skipped. |
| Clone.Prepared | py_de_id/pydeid.py:251-254 | With de-identification off the resource is kept. With it on, the result is the de-identified record, and de-identification failing fails the entry. |
| Clone.TypeAndId | py_de_id/pydeid.py:258-260 | The type and the old id are read from the resource. A missing key raises KeyError. |
| Clone.Reissued | py_de_id/pydeid.py:266-276 | The resource gets the new id. `search` and `fullUrl` go, `request` becomes a POST to the type, and every other field is kept. |
| Clone.RenameEntry | py_de_id/pydeid.py:247-276 | A successful visit renames the entry exactly when it has a resource with an id, and then uses one fresh id. |
| Clone.FirstPass | py_de_id/pydeid.py:246-276 | Pass 1 keeps the entry count and uses one id per renamed entry. The map is the two-way writes of the renamed pairs in order. |
| Clone.IdentifiedCount | py_de_id/pydeid.py:247-249 | The number of entries that have a resource with an id is at most the number of entries. |
| Clone.FirstPassCount | py_de_id/pydeid.py:246-270 | Pass 1 records exactly one pair per entry that has a resource with an id. |
| Clone.FirstPassExtendsPrefix | py_de_id/pydeid.py:246-276 | Pass 1 over a prefix of the entries succeeds whenever the whole pass does, and its entries and pairs are prefixes of the whole pass's. |
| Clone.FirstPassAt | py_de_id/pydeid.py:246-276 | An entry with a resource and an id at position i is renamed by `RenameEntry` at the cursor reached after the first i entries. Its pair is recorded right after the pairs of those entries. |
| Clone.RenameEntryRenamedAs | py_de_id/pydeid.py:256-276 | A renamed entry's resource carries the fresh id and its type, its new address is that type and id, and its request posts to the type. Without de-identification its old address is its original type and id. |
| Clone.FirstPassRenames | py_de_id/pydeid.py:246-276 | The k-th recorded pair belongs to the k-th entry with a resource and an id. That entry now carries the k-th fresh id, and the pair's new address is its type and that id. Without de-identification the pair's old address is the entry's original type and id. |
| Clone.NewAddressesEndInFreshIds | py_de_id/pydeid.py:256-262 | The new address of the k-th recorded pair ends in "/" and the k-th fresh id. |
| Clone.FreshSupplyDistinct | py_de_id/pydeid.py:256-264 | The recorded addresses satisfy `TwoWayMap`'s premise under three conditions: the fresh ids are distinct and hold no "/", no old address ends in one of them, and the old addresses are distinct. |
| Clone.AssignIds | py_de_id/pydeid.py:246-276 | The in-place pass 1 loop computes `FirstPass`. |
| Clone.UnidentifiedEntriesUntouched | py_de_id/pydeid.py:247-249 | An entry without a resource, or whose resource has no id, is left exactly as it was. |
| Clone.SkippedWhenUnidentified | py_de_id/pydeid.py:247-249 | Such an entry is skipped, unless one of the tests raises. |
| Clone.TwoWayMap | py_de_id/pydeid.py:258-264 | With distinct addresses, each old address maps to its new one and each new address back to its old one. |
| Clone.TwoWayMapKeys | py_de_id/pydeid.py:258-264 | The map's keys are exactly the old and new addresses of the renamed entries. |
| Clone.RenamedEntryShape | py_de_id/pydeid.py:256-276 | A renamed entry's resource carries the fresh id. Its new address is `Type/newId`, its request is a POST to the type, `search` and `fullUrl` are gone, and all other fields are kept. |
| Clone.RenamedResource | py_de_id/pydeid.py:251-266 | Without de-identification the resource keeps every field but `id`, and the old address is `Type/oldId`. With it, the resource is the de-identified record with the new id, and without `meta`. |
| Clone.SecondPass | py_de_id/pydeid.py:278-279 | Pass 2 over the original entries keeps their count; its state only grows. |
| Clone.SecondPassOneKeyEach | py_de_id/pydeid.py:278-279 | Over any entry list, pass 2 adds one map entry per placeholder it makes. |
| Clone.OnePlaceholderPerReference | py_de_id/pydeid.py:278-282 | After pass 2, every earlier mapping is kept, the number of new map entries equals the number of placeholders, and every new key is an Organization, Practitioner or Location reference. So each missing reference gets at most one placeholder, however often it occurs. |
| Clone.Rewritten | py_de_id/pydeid.py:278-282 | The list after pass 2 is the rewritten entries followed by every placeholder, in order, each carrying its id. Without placeholders the map and the list length are unchanged. |
| Clone.RewriteEntries | py_de_id/pydeid.py:278-282 | The loop over a list that grows while it runs computes `Rewritten`; the placeholders it reaches are visited and left alone. |
| Clone.RewrittenTail | py_de_id/pydeid.py:281-282 | Every entry past the originals is a placeholder. |
| Clone.Cloned | py_de_id/pydeid.py:239-282 | The clone has type "transaction" and no `link`. A bundle without `link`, or without `entry`, raises KeyError. |
| Clone.CloneBundle | py_de_id/pydeid.py:239-282 | The whole procedure computes `Cloned`. |
| Clone.ClonedKeepsOtherFields | py_de_id/pydeid.py:241-242 | Bundle fields other than type, link and entry are kept. |
| Clone.ClonedEntryList | py_de_id/pydeid.py:278-282 | The entry list only grows, only by placeholders, and not at all when placeholders are off (app.py and py-de-id.py). |
| Delivery.LoggedBatchCount | py_de_id/pydeid.py:134-136 | The count the log line announces, `n // 15 + bool(divmod(n, 15))`, is always `n // 15 + 1`: the `divmod` pair is a non-empty tuple, which is true. |
| Delivery.Take | py_de_id/pydeid.py:147 | A batch is the first min(15, n) queued entries. |
| Delivery.Drop | py_de_id/pydeid.py:185 | Dropping a batch leaves exactly what follows it. |
| Delivery.StepAsWritten | py_de_id/pydeid.py:144-188 | One pass as written. A throttled entry raises AttributeError. A 200 drops the batch; any other status prepends the batch to a queue that still holds it. |
| Delivery.RunAsWritten | py_de_id/pydeid.py:139-188 | At most one post per reply; each batch holds 1 to 15 entries. |
| Delivery.DeliverClone | py_de_id/pydeid.py:128-188 | The loop computes `RunAsWritten`, and the logged batch count is `LoggedBatchCount`. |
| Delivery.Step | py_de_id/pydeid.py:144-188 | One pass as intended: an accepted batch leaves the queue; a refused or throttled one stays in place, once. |
| Delivery.Run | py_de_id/pydeid.py:139-188 | Whatever the replies, the accepted batches followed by the queue are the original entries. Nothing is lost or duplicated, the order is kept, and every batch has 1 to 15 entries. |
| Delivery.BatchCount | py_de_id/pydeid.py:134-136 | The least number of batches of 15 that covers n entries. |
| Delivery.AcceptedPrefix | py_de_id/pydeid.py:139-186 | While every reply accepts, the accepted batches are consecutive 15-entry slices of the entries. |
| Delivery.AllAcceptedDelivers | py_de_id/pydeid.py:139-186 | With enough accepting replies the queue empties after exactly `BatchCount(n)` posts, and batch i is slice i. |
| Delivery.AsWrittenAgreesWhenAllAccepted | py_de_id/pydeid.py:139-188 | When every reply accepts, the code as written and the intended loop agree. |
| Delivery.ThirtyTwoEntries | py_de_id/pydeid.py:130-148 | 32 entries go out as batches of 15, 15 and 2, in order. |
| Delivery.RetryPostsBatchTwice | py_de_id/pydeid.py:187-188 | As written, a refused one-entry batch followed by a 200 posts `[e, e]`, so the entry is created twice. |
| Delivery.RetryPostsBatchOnce | py_de_id/pydeid.py:187-188 | As intended, the same replies post `[e]` again and deliver it once. |
| Delivery.ThrottleRaises | py_de_id/pydeid.py:168-172 | As written, a 429 entry raises AttributeError. As intended, the batch stays queued. |
| Delivery.ThrottledBatchIsRetried | py_de_id/pydeid.py:168-180 | As intended, a throttled reply re-posts the same batch and changes nothing else. |
| Delivery.LoggedBatchCountOffByOne | py_de_id/pydeid.py:134-136 | The logged count `n // 15 + 1` equals the real count exactly when n is not a multiple of 15; for 30 it logs 3 instead of 2. |
| App.Matches | py_de_id/app.py:127-129 | A node is retargeted exactly when its `reference` equals `old_ref` and `old_ref` holds "/". It raises exactly when the `"/" in` test on the reference raises, and then with TypeError. |
| App.Visited | py_de_id/app.py:127-132 | Retargeting keeps the keys and never makes a dict. A non-match changes nothing. |
| App.ReplaceNode | py_de_id/app.py:126-139 | A result has the input's shape and size. A list holding the string "reference" raises TypeError. A number, bool or null raises TypeError. A date raises AttributeError. A string raises TypeError or AttributeError, depending on whether it contains "reference". |
| App.ReplaceFields | py_de_id/app.py:137-139 | Only dict-valued fields are entered. Other fields are kept, as are the keys. |
| App.ReplaceItems | py_de_id/app.py:133-135 | Every item of a list is walked, whatever its type. |
| App.ReplaceReference | py_de_id/app.py:126-139 | The recursive procedure computes `ReplaceNode`. |
| App.WalkFields | py_de_id/app.py:137-139 | The loop over `obj.items()` computes `ReplaceFields`. |
| App.WalkItems | py_de_id/app.py:133-135 | The loop over the list computes `ReplaceItems`. |
| App.FieldsErrorSticks | py_de_id/app.py:137-139 | An exception in a field ends the walk with that exception. |
| App.MatchingReferenceRewritten | py_de_id/app.py:129-132 | The matching node's reference, and its display, become `new_ref`. |
| App.OtherReferenceKept | py_de_id/app.py:127-132 | A non-matching node keeps every scalar field. |
| App.ListsInDictsNotVisited | py_de_id/app.py:137-139 | A list inside a dict is not walked. |
| App.TopLevelListWalked | py_de_id/app.py:133-135 | A list passed in directly has every item walked. |
| App.NoSlashNoChange | py_de_id/app.py:127 | An `old_ref` without "/" never changes anything. |
| App.IsMatch | py_de_id/app.py:147-148 | An entry matches exactly when its resource's type and id have the texts sought. A date-shaped id compares by its ISO text, and any non-string never matches. A missing `resource` raises. |
| App.DateShapedIdFound | py_de_id/app.py:142-153 | A resource whose id is the text "2020-01-01" is found by that id. |
| App.FindEntry | py_de_id/app.py:142-153 | A found entry is in the list and matches. |
| App.FindsFirstMatch | py_de_id/app.py:143-151 | The first matching entry is returned when no earlier entry raises. |
| App.NoneWhenNothingMatches | py_de_id/app.py:150 | The result is None exactly when every entry is checked and none matches. |
| App.MalformedEntryRaises | py_de_id/app.py:147 | The first entry whose check raises, before any match, ends the search with that exception. |

`randomize` and `deidentify_fhir_resource` in `app.py` (62-123) and `py-de-id.py` (34-104) differ from `pydeid.py` only in logging, so the same members model them. The walk in `app.py` (263-276) and `py-de-id.py` (200-213) is `References.RewriteNode` with placeholders off. Their pass 1 (app.py:293-320, py-de-id.py:222-251) is `Clone.FirstPass` with de-identification on. Their delivery loops (app.py:190-237, py-de-id.py:140-191) are `Delivery.RunAsWritten`.

## Left out

- File reading and writing, logging, `time.sleep`, and the cleanup of the staging directory. These are I/O around the core.
- The destination is modelled only through the reply script. `Delivery.RunAsWritten` ends when the script runs out, where the source loop may run forever against a destination that never accepts.
- The 201 branch reads `location` only to log it. It is not modelled. That includes its exception: the f-string at pydeid.py:166 is evaluated before the call to the logger, so an entry without `location` raises KeyError there, and the model does not raise it.
- A null or empty JSON reply is only logged. The model has it as a reply whose HTTP status decides and which carries no entry statuses.
- Delivery.ThrottleRaises: the 429 branch can also raise KeyError, IndexError or a JSON decoding error before it reaches `_msBeforeNext`. The model folds all of these into the single AttributeError it always ends with.
- Randomization.Randomize: the float branch (`random.uniform` and `round`) is not modelled and yields `NotModelled`, because floating point is out of scope.
- Randomization.RandomizeDate: a date is a JSON string that `date.fromisoformat` accepts. The model keeps these as the `Date(ordinal)` value and every other string as text, so ISO parsing is not modelled. The ISO text of a date (`Json.IsoText`) is computed only where the code compares strings.
- Clone.Label: an f-string of a non-string type or id yields `NotModelled` instead of its text. This covers an integer id, and also a string id whose text is an ISO date, since the model holds that string as a date value.
- Deidentify.Deidentified: a resource type whose text is an ISO date is never looked up in the rule table. The model holds such a type as a date value, and a date value is not a table key.
- Json.Iterate: iterating over a string whose text is an ISO date yields `NotModelled` instead of its characters.
- Clone.RenameEntry: the contract does not state that de-identification only moves the random-draw cursor forward.
- `oldest_files_first`, `process_request`, the web handlers, the `Deidentifier` class, configuration loading and credential handling are not part of this model.
- In-place mutation is modelled by value: each pass returns the updated entry list.
- Clone.TwoWayMap: the two-way property is proved only for distinct addresses (`Clone.FreshSupplyDistinct` gives the conditions). Two entries with the same type and id, or with the same id after a `replace` rule on `id`, have the same old address. The later write then overwrites the map entry for that address (pydeid.py:258-264), and the model writes it the same way without proving anything about that case.
- Deidentify.ApplyRule: a `replace` rule stores the rule table's own `params` object in every record it touches (pydeid.py:75), so all those records share one dict. The model gives each record its own copy.
- Clone.Rewritten: pass 2 rewrites such a shared dict once per visit, and the two-way map can send its reference to the new address and back again. Rewriting also changes the module-level rule table, which the next bundle then sees. The model rewrites each copy once and leaves the table alone.

## Findings

| source | as written | input that shows it | evidently intended | confidence | as-written member | corrected member |
|---|---|---|---|---|---|---|
| py_de_id/pydeid.py:187-188 | A refused batch is prepended with `newBundleEntry[:0] = request["entry"]` while it is still in the queue. | One entry `e`; replies 500 then 200. The second post is `[e, e]`, so `e` is created twice. | A retry posts the same batch again, and the queue is left unchanged. | not executed | Delivery.RetryPostsBatchTwice | Delivery.RetryPostsBatchOnce |
| py_de_id/pydeid.py:169-172 | `json.loads(...)` gives a dict, and `._msBeforeNext` reads it as an attribute. | One entry; reply 200 whose entry has status 429. The loop raises AttributeError. | Read the key, wait, and retry the batch. | not executed | Delivery.ThrottleRaises | Delivery.ThrottledBatchIsRetried |
| py_de_id/pydeid.py:134-136 | `bool(divmod(n, 15))` tests a non-empty tuple, so it is always 1. | 30 entries: it logs 3 batches where 2 are posted. | `n // 15 + bool(n % 15)`, the ceiling of n / 15. | not executed | Delivery.LoggedBatchCountOffByOne | Delivery.AllAcceptedDelivers |
