# ModelItem: the admin entity descriptor

SleepingOwl Admin describes every administered Eloquent model by a `ModelItem`. A
`ModelItem` holds the model class, a URL alias, the table columns, the eager-load list,
the filters, an orderable flag, three permission gates (creatable, editable, deletable),
a title and a form. Fluent setters configure it. The `__call` dispatcher turns `as(...)`
into `setAlias` and `deny<Types>(...)` into property assignments: to the three gates,
to a declared property such as `orderable` or `title`, or to a dynamic property. The `columns`,
`filters` and `form` methods point a static `$current` slot at the descriptor while a
configuration callback runs, so that builder functions called inside it can register
with "the current descriptor".

The model has these modules:

- `Php` (php.dfy): the PHP values the descriptor stores and PHP truthiness. `call_user_func` is a function parameter (`Caller`).
- `Strings` (strings.dfy): `str_replace` with one search string, ASCII `strtolower`, `explode` and `implode`, each with lemmas about concatenation and round trips.
- `DenyName` (deny_name.dfy): the PCRE match `^deny(?<types>.+)$` and the decoding of the captured part into property names.
- `ModelItem` (model_item.dfy): the descriptor as an immutable record. It covers the gates, the setters and getters, `renderTableAttributes`, and `__call` with its error cases.
- `Filters` (apply_filters.dfy): `applyFilters` as a loop, checked against a recursive reference definition.
- `CurrentSlot` (current_slot.dfy): the `$current` slot and the three context-swapping methods. It proves that the global save/restore behaves exactly like passing the context down the nesting of callbacks.

The deny decoding is not a per-word suffix rewrite. `str_replace('ing', 'able', …)` runs
on the whole captured part, then `strtolower`, then `explode('and', …)`. So
`denyLoggingAndBinding` decodes to `loggable` and `bindable`, and `denyStringing` to
`strableable`, because every occurrence of `ing` is replaced. The split is on the
lower-cased `and` anywhere, not only on the word `And`, so `denyHandling` assigns `h` and
`lable`, and `denyAnd` assigns the empty property name twice.

The model follows PHP 7.1 and later. There, a property may be named `""`, and only a name
starting with a NUL byte is refused. Calling `as()` with no argument raises an error.

## Model

| member | source | states |
|---|---|---|
| ModelItem.Create | src/SleepingOwl/Admin/Models/ModelItem.php:81-100 | The constructor. It carries no contract of its own. `CreateAllowsEverything` states what a fresh descriptor holds. |
| ModelItem.CreateAllowsEverything | src/SleepingOwl/Admin/Models/ModelItem.php:56-64 | A fresh descriptor allows creating, editing and deleting for any instance and any closure behaviour. It starts with the given default alias, no columns, no filters, an empty eager-load array, no title, and the probed orderable flag. |
| ModelItem.IsCreatable | src/SleepingOwl/Admin/Models/ModelItem.php:126-130 | A boolean gate answers itself. A stored closure is called with no arguments, and creating is allowed exactly when its result is falsy under PHP truthiness. |
| ModelItem.IsEditable | src/SleepingOwl/Admin/Models/ModelItem.php:136-140 | A boolean gate answers itself. Otherwise the closure is called with exactly the record instance, and the negation of its truthiness is returned. |
| ModelItem.IsDeletable | src/SleepingOwl/Admin/Models/ModelItem.php:146-150 | A boolean gate answers itself. Otherwise the closure is called with exactly the record instance, and the negation of its truthiness is returned. |
| ModelItem.SetAlias | src/SleepingOwl/Admin/Models/ModelItem.php:155-168 | After `setAlias($v)`, `getAlias()` returns `$v`. Every other field is unchanged. |
| ModelItem.With | src/SleepingOwl/Admin/Models/ModelItem.php:173-192 | An array first argument becomes the eager-load list itself, and later arguments are dropped. Otherwise the array of all arguments becomes it, so `with()` gives `[]`. The list is replaced, not extended, and is always an array. Nothing else changes. |
| ModelItem.WithCallShapesAgree | src/SleepingOwl/Admin/Models/ModelItem.php:184-191 | `with([a, …])` and `with(a, …)` set the same list when `a` is not an array. A second `with` call overrides the first. |
| ModelItem.AddColumn | src/SleepingOwl/Admin/Models/ModelItem.php:233-236 | The column is appended at the end. The earlier columns keep their order. Nothing else changes. |
| ModelItem.SetTitle | src/SleepingOwl/Admin/Models/ModelItem.php:242-246 | `title($t)` makes the title `$t` and changes nothing else. |
| ModelItem.AddFilter | src/SleepingOwl/Admin/Models/ModelItem.php:281-284 | The filter is appended at the end. The earlier filters keep their order. Nothing else changes. |
| ModelItem.TableAttributes | src/SleepingOwl/Admin/Models/ModelItem.php:105-113 | The only possible attribute is `data-ordering`. It is present exactly when the orderable flag is falsy under PHP truthiness, and its value is then `'false'`. |
| ModelItem.RenderTableAttributes | src/SleepingOwl/Admin/Models/ModelItem.php:105-113 | The HTML builder is handed the empty attribute map for an orderable entity and exactly `data-ordering => 'false'` otherwise. |
| ModelItem.DenyValue | src/SleepingOwl/Admin/Models/ModelItem.php:351-352 | No argument, null or `true` stores "deny". `false` stores "allow". Any other value is stored as the closure to call. Each case holds in both directions. |
| ModelItem.DenyValueAllows | src/SleepingOwl/Admin/Models/ModelItem.php:351-352 | Asking a gate set by a deny call: no argument or null denies, a boolean `b` allows exactly when `b` is false, and a closure `$f` allows exactly when `$f(...)` is falsy. |
| ModelItem.Assign | src/SleepingOwl/Admin/Models/ModelItem.php:359 | `$this->$type = $closure` changes the named property only. A gate takes the stored gate, a declared property (`alias`, `with`, `orderable`, `title`, `form`) takes the PHP value, and any other name becomes a dynamic property. Every other property reads as before, and the model class, columns and filters are untouched. |
| ModelItem.AssignAll | src/SleepingOwl/Admin/Models/ModelItem.php:357-360 | The `foreach` returns exactly when PHP accepts every name. When it raises, the error names a listed name that PHP refuses. The model class, columns and filters never change. `AssignAllConcat`, `AssignAllValid` and `DenyStopsAtBadName` fix the state it leaves. |
| ModelItem.AssignAllConcat | src/SleepingOwl/Admin/Models/ModelItem.php:357-360 | Assigning a list of names `n1 + n2` is assigning `n1`, then `n2` only if no name in `n1` was refused. |
| ModelItem.AssignAllValid | src/SleepingOwl/Admin/Models/ModelItem.php:357-360 | When no name starts with a NUL byte (the empty name included), the loop returns. Afterwards exactly the listed names hold the value, every other property keeps its value, and the model class, columns and filters are unchanged. |
| ModelItem.Call | src/SleepingOwl/Admin/Models/ModelItem.php:340-364 | The dispatcher. `as` with an argument returns with that alias. A too-few-arguments error happens exactly for `as()`. MethodNotFound happens exactly for a name other than `as` that the deny pattern does not match, and carries the ModelItem class and the name. Every error except a refused property name leaves the descriptor untouched. The model class, columns and filters never change. |
| ModelItem.AsIsSetAlias | src/SleepingOwl/Admin/Models/ModelItem.php:342-348 | `as($v, …)` is `setAlias($v)`, after which `getAlias()` is `$v`. `as()` with no argument raises a too-few-arguments error for `setAlias` and changes nothing. |
| ModelItem.UnknownMethodFails | src/SleepingOwl/Admin/Models/ModelItem.php:363 | A method name that is neither `as` nor matched by the deny pattern raises MethodNotFound. The error carries the ModelItem class name and the method name, and the descriptor is unchanged. |
| ModelItem.FrobnicateFails | src/SleepingOwl/Admin/Models/ModelItem.php:363 | `frobnicate()` is such a name. |
| ModelItem.DenySetsExactlyDecodedNames | src/SleepingOwl/Admin/Models/ModelItem.php:349-362 | A deny call whose decoded names PHP accepts returns the descriptor. Afterwards the decoded names, and only those, hold the deny value. The model class, columns and filters are unchanged. |
| ModelItem.DenyStopsAtBadName | src/SleepingOwl/Admin/Models/ModelItem.php:357-360 | If the `k`-th decoded name is the first one PHP refuses (one starting with a NUL byte), the call raises at that name. Names `0..k-1` have been assigned and the rest have not. |
| ModelItem.DenyAndWritesEmptyName | src/SleepingOwl/Admin/Models/ModelItem.php:349-362 | `denyAnd(...)` decodes to two empty names. It writes the dynamic property `""` with the deny value and returns, changing nothing else. |
| ModelItem.DenyAndIsSequential | src/SleepingOwl/Admin/Models/ModelItem.php:349-362 | `deny<A>And<B>(…)` behaves exactly as `deny<A>(…)` followed, if that returned, by `deny<B>(…)` with the same arguments. |
| ModelItem.DenySingleSets | src/SleepingOwl/Admin/Models/ModelItem.php:349-362 | A `deny<types>` call whose part decodes to one name that PHP accepts assigns the deny value to that name and returns. |
| ModelItem.DenyCreatingSets | src/SleepingOwl/Admin/Models/ModelItem.php:349-362 | `denyCreating(…)` sets `creatable` to the deny value and changes nothing else. |
| ModelItem.DenyEditingSets | src/SleepingOwl/Admin/Models/ModelItem.php:349-362 | `denyEditing(…)` sets `editable` to the deny value and changes nothing else. |
| ModelItem.DenyDeletingSets | src/SleepingOwl/Admin/Models/ModelItem.php:349-362 | `denyDeleting(…)` sets `deletable` to the deny value and changes nothing else. |
| ModelItem.DenyEditingAndDeletingSetsBoth | src/SleepingOwl/Admin/Models/ModelItem.php:349-362 | `denyEditingAndDeleting(…)` sets `editable` and `deletable`, and nothing else. It equals `denyEditing(…)` followed by `denyDeleting(…)`. |
| ModelItem.DenyOrderingSetsOrderable | src/SleepingOwl/Admin/Models/ModelItem.php:349-362 | `denyOrdering(…)` overwrites the declared `orderable` flag with the deny value and changes nothing else. |
| ModelItem.DenyOrderingDisablesOrdering | src/SleepingOwl/Admin/Models/ModelItem.php:105-121 | After `denyOrdering()`, `isOrderable()` is false and the table attributes are exactly `data-ordering => 'false'`. |
| ModelItem.DenyTitleSetsTitle | src/SleepingOwl/Admin/Models/ModelItem.php:349-362 | `denyTitle(…)` overwrites the declared title with the deny value and changes nothing else. |
| ModelItem.DenyCreatingThenAsk | src/SleepingOwl/Admin/Models/ModelItem.php:126-130 | After `denyCreating()` or `denyCreating(true)`, `isCreatable()` is false. After `denyCreating(false)` it is true. After `denyCreating($f)` it is `!$f()`. |
| DenyName.MatchDeny | src/SleepingOwl/Admin/Models/ModelItem.php:349 | A match captures a non-empty, newline-free part, and the name is `deny` + that part, optionally followed by one final line feed. Every name `deny` + a non-empty newline-free part matches with exactly that part, and so does that name followed by one line feed. A name not starting with `deny` does not match. |
| DenyName.MatchDenyPrefixed | src/SleepingOwl/Admin/Models/ModelItem.php:349 | `deny` followed by any non-empty part without line feeds matches, capturing exactly that part. |
| DenyName.Decode | src/SleepingOwl/Admin/Models/ModelItem.php:354-356 | Decoding always yields at least one name, because `explode` never returns an empty array. |
| DenyName.DecodeRoundTrip | src/SleepingOwl/Admin/Models/ModelItem.php:354-356 | Joining the decoded names with `and` gives back the replaced, lower-cased string. No decoded name contains `and`. |
| DenyName.DecodeAnd | src/SleepingOwl/Admin/Models/ModelItem.php:354-356 | Decoding `A` + `And` + `B` gives the names of `A` followed by those of `B`. |
| DenyName.DecodeSingle | src/SleepingOwl/Admin/Models/ModelItem.php:354-356 | A part whose replaced, lower-cased form holds no `and` decodes to that single name. |
| DenyName.VerbDecodes | src/SleepingOwl/Admin/Models/ModelItem.php:354-356 | A verb `<stem>ing` whose only `ing` is the final one decodes to the single name `strtolower(<stem>able)`, when that name holds no `and`. |
| DenyName.PlainDecodes | src/SleepingOwl/Admin/Models/ModelItem.php:354-356 | A word without `ing` decodes to its lower-cased self, when that holds no `and`. |
| DenyName.DecodeCreating | src/SleepingOwl/Admin/Models/ModelItem.php:354-356 | `Creating` decodes to exactly `creatable`. |
| DenyName.DecodeEditing | src/SleepingOwl/Admin/Models/ModelItem.php:354-356 | `Editing` decodes to exactly `editable`. |
| DenyName.DecodeDeleting | src/SleepingOwl/Admin/Models/ModelItem.php:354-356 | `Deleting` decodes to exactly `deletable`. |
| DenyName.DecodeOrdering | src/SleepingOwl/Admin/Models/ModelItem.php:354-356 | `Ordering` decodes to exactly `orderable`. |
| DenyName.DecodeTitle | src/SleepingOwl/Admin/Models/ModelItem.php:354-356 | `Title` decodes to exactly `title`. |
| DenyName.DecodeBareAnd | src/SleepingOwl/Admin/Models/ModelItem.php:354-356 | `And` decodes to two empty names. |
| DenyName.DecodeEditingAndDeleting | src/SleepingOwl/Admin/Models/ModelItem.php:354-356 | `EditingAndDeleting` decodes to `editable`, then `deletable`. |
| Strings.ReplaceAbsent | src/SleepingOwl/Admin/Models/ModelItem.php:355 | `str_replace` leaves a string without the search string unchanged. |
| Strings.ReplaceSuffix | src/SleepingOwl/Admin/Models/ModelItem.php:355 | When the search string occurs in `stem + pat` only at the end, `str_replace` gives `stem + rep`. |
| Strings.ReplaceConcat | src/SleepingOwl/Admin/Models/ModelItem.php:355 | `str_replace` distributes over a concatenation when no occurrence of the search string straddles the seam. |
| Strings.Lower | src/SleepingOwl/Admin/Models/ModelItem.php:355 | `strtolower` keeps the length, maps each character independently, and leaves no ASCII capital. |
| Strings.LowerConcat | src/SleepingOwl/Admin/Models/ModelItem.php:355 | `strtolower` distributes over concatenation. |
| Strings.ExplodeJoin | src/SleepingOwl/Admin/Models/ModelItem.php:356 | `implode` of the `explode`d pieces with the same separator gives back the string. |
| Strings.ExplodeClean | src/SleepingOwl/Admin/Models/ModelItem.php:356 | No piece of `explode` contains the separator. |
| Strings.ExplodeAbsent | src/SleepingOwl/Admin/Models/ModelItem.php:356 | A string without the separator explodes to itself alone. |
| Strings.ExplodeConcat | src/SleepingOwl/Admin/Models/ModelItem.php:356 | Exploding `x + sep + y` gives the pieces of `x` followed by those of `y`, when no separator occurrence straddles the seam into the inserted separator. |
| Strings.ContainsOccurs | src/SleepingOwl/Admin/Models/ModelItem.php:355-356 | The character-wise `Contains` holds exactly when the pattern occurs at some position. |
| Filters.Reports | src/SleepingOwl/Admin/Models/ModelItem.php:294-296 | Every filter reports exactly once, in registration order. |
| Filters.KeepTruthy | src/SleepingOwl/Admin/Models/ModelItem.php:297-300 | The kept titles are exactly the truthy ones, never more than were reported. |
| Filters.KeepTruthyConcat | src/SleepingOwl/Admin/Models/ModelItem.php:297-300 | Keeping the truthy titles of a concatenation keeps those of each part, in order. |
| Filters.RunConcat | src/SleepingOwl/Admin/Models/ModelItem.php:294-301 | Running filters `a + b` is running `a`, then `b` on the query `a` left, for both the final query and the reports. |
| Filters.ReportAt | src/SleepingOwl/Admin/Models/ModelItem.php:294-296 | The `i`-th report is what the `i`-th filter returns on the query that the filters before it produced. |
| Filters.TitlesConcat | src/SleepingOwl/Admin/Models/ModelItem.php:291-303 | The titles for filters `a + b` are those for `a`, followed by those for `b` run on the query `a` left. |
| Filters.ApplyFilters | src/SleepingOwl/Admin/Models/ModelItem.php:291-303 | The returned titles are the truthy reports in registration order. They are all truthy and never more than there are filters. The query has been narrowed by every filter, reporting or not. |
| CurrentSlot.Register | src/SleepingOwl/Admin/Models/ModelItem.php:233-236 | A builder registering with `ModelItem::$current` succeeds exactly when the slot points at a known descriptor. It appends the column or filter to that descriptor alone. |
| CurrentSlot.Run | src/SleepingOwl/Admin/Models/ModelItem.php:220-228 | A callback that runs to the end leaves `$current` as it found it and adds no descriptor. It only appends to the `Column::control()` log. `RunIsLexicallyScoped` gives its full result. |
| CurrentSlot.Swap | src/SleepingOwl/Admin/Models/ModelItem.php:309-316 | `columns`, `filters` and `form` return `$this` and restore `$current`, however the callback nests further blocks. The set of descriptors is unchanged, and the control log only grows. |
| CurrentSlot.RunIsLexicallyScoped | src/SleepingOwl/Admin/Models/ModelItem.php:220-228 | Running callbacks against the global `$current` slot with save and restore is the same as passing each block's own descriptor down as its context. The slot ends as it began. |
| CurrentSlot.SwapIsLexicallyScoped | src/SleepingOwl/Admin/Models/ModelItem.php:260-267 | `columns`, `filters` and `form` run their body with `$this` current and succeed exactly when the body does. `columns` logs a `Column::control()` call while `$this` is still current. Then the slot is restored and `$this` is returned. |
| CurrentSlot.NestedBlocksRegisterWithTheirOwner | src/SleepingOwl/Admin/Models/ModelItem.php:220-228 | In `outer.columns(X; inner.filters(Y); Z)`, X and Z register with `outer` and Y with `inner`. Other descriptors are untouched. `Column::control()` runs once with `outer` current, and the slot is restored. |

## Left out

- Registration with `Admin::instance()->models` and the fetch of the HTML builder in the constructor: these are global singletons outside the descriptor.
- The orderable probe: instantiating the model class and testing for `ModelWithOrderFieldInterface`. The probe's result is an input to `Create`.
- The default alias from `Str::snake(Str::plural(class_basename(...)))`: inflection is library code, and its result is an input to `Create`.
- `getModelTable`: it instantiates the Eloquent model and asks it for its table.
- The static `filter($name)` factory: it only constructs a `Filter`, whose internals are not part of this model.
- `Filter::filter`: its effect on the query and the title it reports are a parameter of `ApplyFilters`. The query builder is an opaque state threaded through the filters.
- `Column::control()`: only the fact that it is called, and with which descriptor current, is recorded in the `controlLog`.
- `HtmlBuilder::attributes` rendering: `RenderTableAttributes` takes it as a parameter, and only the attribute map is specified.
- `Form` construction: the form is an opaque handle given to `Create`.
- Exceptions thrown by a callback inside `columns`, `filters` or `form`: the source does not restore `$current` in that case. A failing callback is modelled as a failed run, with no world afterwards.
- Callbacks that assign `$current` directly, or that call arbitrary descriptor methods: the callback language has only column registration, filter registration and nested blocks.
- `getModelClass`, `getColumns`, `getTitle` and `getForm` are plain field reads of the record.
- PHP floats and array keys: arrays are modelled as lists of values.
- ModelItem.Assign: `denyColumns(…)` and `denyFilters(…)` overwrite the column or filter array with the deny value in PHP. After that, `addColumn`/`addFilter` fail or convert the value. The model keeps columns and filters as typed lists of opaque objects, so it records those two writes as dynamic properties. A write to `current` (a static property, which PHP then treats as a dynamic one) is recorded the same way. The mixed-case names `modelClass` and `htmlBuilder` never come out of the lower-casing decoder.
- ModelItem.DenySetsExactlyDecodedNames: "the model class, columns and filters are unchanged" holds in the model, but not in PHP for `denyColumns` and `denyFilters`, for the reason given for ModelItem.Assign.
- ModelItem.Call: its "columns and filters never change" has the same `denyColumns`/`denyFilters` gap as ModelItem.Assign.
- ModelItem.AssignAll: its "the model class, columns and filters never change" holds in the model only, because of the `denyColumns`/`denyFilters` writes described for ModelItem.Assign.
- ModelItem.AssignAllValid: its "the model class, columns and filters are unchanged" has the same gap, for the reason given for ModelItem.Assign.
- ModelItem.IsCreatable: `call_user_func` is modelled as a total function (`Caller`), so a gate closure that throws is not represented. The same goes for a stored value that is not callable at all, such as the string from `denyCreating('yes')`: PHP 8 raises a TypeError, PHP 7 warns and gets null. The model returns the negated truthiness of whatever `Caller` gives.
- ModelItem.IsEditable: the same total-call gap as ModelItem.IsCreatable.
- ModelItem.IsDeletable: the same total-call gap as ModelItem.IsCreatable.
- Filters.ApplyFilters: `Filter::filter` is a total function parameter, so a filter that throws part-way is not represented. PHP would then leave the query narrowed by the earlier filters and return no titles.
- Strings.Lower: models `strtolower` on ASCII letters only, since the deny names are ASCII method names.
- ModelItem.AsIsSetAlias: follows PHP 7.1 and later, like the rest of the model. PHP 7.0 passes null to `setAlias` for `as()`, and it refuses the empty property name that `denyAnd` writes.
- ModelItem.ValidPropertyName: only the PHP 7.1+ refusal of a name starting with a NUL byte is modelled. The PHP 8.2 deprecation notice for dynamic properties is a diagnostic and is left out.
