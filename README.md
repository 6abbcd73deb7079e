# ThunderCats actions, modelled in Dafny

ThunderCats is a Flux library built on RxJS. Its *actions* are functions that
are also observables: calling `action(value)` maps the value, pushes the
result to every subscribed observer and returns it. This project models the
action layer in the two versions the repository ships:

- `src/Actions.js`, the newer source (module `SrcActions`, file
  `src_actions.dfy`):
  - `getActionDef` turns the own properties of a definition object into
    action definitions. It filters names through the `protectedProperties`
    text. `join` is handed an array as its separator, so that text is one
    long string, and `indexOf` makes the filter a substring test.
  - `create` builds an action. Its observer list gets `push` on subscribe
    and `splice(indexOf(o), 1)` on dispose. Its call catches what `map`
    throws and notifies every observer with `onNext` or `onError`.
  - `createMany` folds the actions into an object keyed by display name.
- `lib/Actions.js`, the older compiled class (module `LibActions`, file
  `lib_actions.dfy`):
  - `__getActionNames` selects the prototype's action names.
  - `_create` builds an action. Its call has no `try`. It notifies a copy of
    the observer list, so observers that subscribe or dispose during the
    call do not change who is notified. Its dispose has no guard.
  - `_createActions` validates a list of `{ name, map }` items and writes one
    action per item into a target object.
  - The class constructor feeds its own action names to `_createActions`.

Shared pieces:
- `js.dfy`: JavaScript values, `typeof`, truthiness, property reads and
  plain objects with ordered own property names.
- `sequences.dfy`: `filter`, `indexOf` and `splice(start, 1)` on arrays.
- `strings.dfy`: `indexOf` and `join` on strings.
- `observers.dfy`: the observer list and the notifications of one call.
- `wrappers.dfy`: `Option` and `Result`.

Observer lists and actions are classes whose methods update them in place.
The name filters and the per-item checks are functions. Each dispatch loop is
a method proved equal to a function of the list, and the lemmas about that
function state what the source promises.

## Model

| member | source | states |
|---|---|---|
| Sequences.IndexOf | src/Actions.js:85 | `Array.prototype.indexOf`: -1 exactly when the element is absent, otherwise the position of its first occurrence |
| Sequences.SpliceOne | lib/Actions.js:65 | `splice(start, 1)`: a start inside the array removes that element, a negative start counts from the end, a start past the end removes nothing |
| Sequences.Filter | src/Actions.js:27-31 | `filter` keeps exactly the elements that pass, in their order (the result is a subsequence), each as often as it occurs in the input |
| Sequences.FilterDistinct | src/Actions.js:27-31 | filtering a list without repeats gives a list without repeats |
| Strings.IndexOf | src/Actions.js:29-30 | `String.prototype.indexOf`: -1 exactly when the needle occurs nowhere, otherwise its first occurrence |
| Strings.Join | src/Actions.js:20-24 | `join`: an empty array gives the empty string; otherwise the result has the parts' lengths plus one separator between each two, and starts with the first part |
| Strings.JoinThree | src/Actions.js:20-24 | joining three elements puts the separator between each two of them |
| Strings.JoinHasPart | src/Actions.js:20-24 | every element of a joined array occurs in the joined string |
| Strings.JoinHasSeparator | src/Actions.js:20-24 | joining two or more elements puts the separator into the result |
| Strings.CharNotInJoin | src/Actions.js:20-24 | a character in no element and not in the separator is not in the joined string |
| Js.Truthy | src/Actions.js:59 | `if (err)`: a value is falsy exactly when it is `undefined`, `null`, `false`, `0` or the empty string |
| Js.TypeOf | lib/Actions.js:116 | `typeof`: "object" for objects, arrays and `null`, "function" for functions only, "string" for strings only |
| Js.Get | lib/Actions.js:136 | reading a property throws on `null` and `undefined` and yields the own property of an object |
| Observers.Subscribed | src/Actions.js:83 | `push` puts the observer at the end and keeps the list before it |
| Observers.Disposed | src/Actions.js:85 | `splice(indexOf(o), 1)` on the observer list (the same line as lib/Actions.js:65): an empty list stays empty, any other list loses exactly one entry, and no observer is added |
| Observers.Broadcast | src/Actions.js:58-63 | one notification per list entry, in list order |
| Observers.BroadcastSnoc | src/Actions.js:58-63 | notifying one more observer adds its notification at the end |
| Observers.BroadcastReachesEachOnce | src/Actions.js:58-63 | an observer is notified once per occurrence in the list, and an absent one never |
| Observers.DisposeRemovesFirstOccurrence | src/Actions.js:85 | disposing a subscribed observer removes its first occurrence; the others stay, in order (also as multisets) |
| Observers.DisposeAbsentDropsLast | lib/Actions.js:64-66 | disposing an observer that is not in the list removes the last observer (`splice(-1, 1)`) |
| Observers.SubscribeDisposeRoundTrip | lib/Actions.js:61-66 | subscribing a new observer and disposing it restores the list |
| Observers.DoubleDisposeDropsInnocent | lib/Actions.js:63-66 | disposing the same subscription twice removes, the second time, the last observer, which never unsubscribed |
| SrcActions.ArrayToString | src/Actions.js:20-24 | `String(array)`, which `join` applies to its array separator: every element occurs in the text, two or more elements put a comma in it, and its length is the elements' lengths plus one comma between each two |
| SrcActions.ProtectedPropertiesShape | src/Actions.js:9-24 | the protected text is the three reserved names separated by the comma-joined builder vocabulary |
| SrcActions.CharOutsideProtected | src/Actions.js:9-24 | a character found in no builder option, no reserved name and not a comma is not in the protected text |
| SrcActions.FragmentOfReservedIsProtected | src/Actions.js:9-24 | every fragment of a builder option or a reserved name occurs in the protected text |
| SrcActions.Exposed | src/Actions.js:28-31 | the filter keeps a name exactly when it occurs nowhere in the protected text and holds no underscore |
| SrcActions.ExposedNames | src/Actions.js:27-31 | the names kept are exactly the own property names that occur nowhere in the protected text and hold no underscore, in property order and without repeats |
| SrcActions.GetActionDef | src/Actions.js:26-39 | the definitions name exactly the own properties that pass the filter, in property order and without repeats; a function value is the mapping, any other value gives the identity |
| SrcActions.DefsFor | src/Actions.js:32-37 | one definition per name, in order; a function value is the mapping, any other value gives the identity |
| SrcActions.ProtectedFragments | src/Actions.js:20-24 | `init`, `Name`, `a` and `e` occur in the protected text |
| SrcActions.InitIsProtected | src/Actions.js:9-24 | `init` occurs in the protected text |
| SrcActions.NameIsProtected | src/Actions.js:9-24 | `Name` occurs in the protected text |
| SrcActions.LetterAIsProtected | src/Actions.js:9-24 | `a` occurs in the protected text |
| SrcActions.LetterEIsProtected | src/Actions.js:9-24 | `e` occurs in the protected text |
| SrcActions.CharOfReservedIsProtected | src/Actions.js:9-24 | every character of a builder option or a reserved name occurs in the protected text |
| SrcActions.FragmentsAreDropped | src/Actions.js:26-31 | so no object ever gets actions named `init`, `Name`, `a` or `e` |
| SrcActions.ForeignCharacterSurvives | src/Actions.js:26-31 | a name without underscore holding a character the protected text lacks always becomes an action |
| SrcActions.ToggleSurvives | src/Actions.js:26-31 | a property named `toggle` always becomes an action |
| SrcActions.Settle | src/Actions.js:50-63 | a returning `map` settles on its result; a throwing one keeps the argument; observers get `onError(err)` exactly when `map` threw a truthy `err`, and otherwise `onNext` of the settled value |
| SrcActions.Dispatch | src/Actions.js:49-65 | a call returns `map(value)` when `map` returns and the argument when it throws; it publishes the start tick with that value, then one notification per observer in list order, an `onError` exactly when `map` threw a truthy value |
| SrcActions.CallDeliversMappedValue | src/Actions.js:49-65 | when `map` returns, the call returns `map(value)`, publishes it first, and each observer gets one `onNext(map(value))` per subscription, in list order |
| SrcActions.CallReportsError | src/Actions.js:50-64 | when `map` throws a truthy value, the call returns its argument unchanged and every observer gets `onError(err)` and no `onNext` |
| SrcActions.CallMissesFalsyError | src/Actions.js:50-62 | when `map` throws a falsy value, `if (err)` lets it through: every observer gets `onNext` of the unchanged argument |
| SrcActions.Action.constructor | src/Actions.js:42-48 | a new action has the definition's name and mapping and no observers |
| SrcActions.Action.HasObservers | src/Actions.js:72-75 | true exactly when some observer is subscribed or the start subject is observed |
| SrcActions.Action.Subscribe | src/Actions.js:82-87 | the observer is appended, and a fresh, undisposed subscription for it is returned |
| SrcActions.Action.Call | src/Actions.js:49-66 | the loop's result and events are those of one dispatch: the settled value, the start tick, then one notification per observer in order |
| SrcActions.Subscription.constructor | src/Actions.js:84-86 | a new subscription is bound to its action and observer and not yet disposed |
| SrcActions.Subscription.Dispose | src/Actions.js:84-86 | the first dispose removes the observer's first occurrence; later ones change nothing |
| SrcActions.CreateMany | src/Actions.js:95-102 | the keys are exactly the definition names; each entry is a fresh action without observers whose display name is its key; the last definition of a name supplies its mapping |
| SrcActions.ActionMethods | src/Actions.js:115 | `getActionDef(obj)::createMany(...)`, the map of actions the builder's `init` step computes: one fresh action without observers per name the filter keeps, keyed by that name |
| LibActions.IsActionName | lib/Actions.js:31-35 | a name is an action name exactly when it is not `constructor`, holds no `__` and names a function |
| LibActions.ActionNames | lib/Actions.js:24-36 | the names are exactly the prototype's own names that are not `constructor`, hold no `__` and name functions, in property order and without repeats |
| LibActions.Mapped | lib/Actions.js:45-47 | the value is passed through `map` when `map` is a function and left as it is otherwise |
| LibActions.SnapshotNotifiedOnce | lib/Actions.js:49-54 | a call publishes the start tick, then one `onNext(v)` per entry of the copied list in order, then the end tick; each observer gets one per subscription |
| LibActions.QuietDispatchKeepsList | lib/Actions.js:50-53 | observers that change nothing while notified leave the list as it was |
| LibActions.SelfDisposingObserversLeave | lib/Actions.js:50-53 | observers that each dispose themselves while notified are all notified (the copy) and leave the list empty |
| LibActions.SelfDisposingPrefix | lib/Actions.js:50-53 | after the first k of them disposed themselves, the rest of the list remains |
| LibActions.Action.constructor | lib/Actions.js:38-39 | a new action keeps its `map` argument and has no observers |
| LibActions.Action.HasObservers | lib/Actions.js:73-77 | true exactly when some observer is subscribed or the start or end subject is observed |
| LibActions.Action.Subscribe | lib/Actions.js:61-62 | the observer is appended |
| LibActions.Action.Dispose | lib/Actions.js:64-66 | `splice(indexOf(o), 1)` with no guard against a second dispose |
| LibActions.Action.ApplyChanges | lib/Actions.js:61-66 | the subscribes and disposes an observer makes are applied in order |
| LibActions.Action.Notify | lib/Actions.js:50-53 | the counted loop over the copy sends one `onNext(v)` per entry of the copy, in order, while every change the observers make goes to the live list |
| LibActions.Action.Call | lib/Actions.js:44-57 | the value is mapped when `map` is a function; a throw escapes with nothing published and the list unchanged; otherwise exactly the observers of the list as it was before the loop are notified, while the live list takes every change they make |
| LibActions.CtxKind | lib/Actions.js:114-119 | `ctx || {}` then `typeof ctx === 'object'`: `undefined`, `null`, `false`, `0` and `""` are replaced by a new object; objects, arrays and references pass; functions and other truthy primitives fail |
| LibActions.Verdict | lib/Actions.js:113-148 | the call succeeds exactly when `ctx` passes, `actions` is an array and every item passes; otherwise it fails on `ctx` first, then on `actions`, then with the failure of the first failing item |
| LibActions.Namespace.constructor | lib/Actions.js:114 | the object a falsy `ctx` is replaced with starts empty |
| LibActions.ItemFailure | lib/Actions.js:128-148 | an item passes exactly when it is an object with a string `name` whose `map`, when truthy, is a function; `null` fails with a TypeError and a non-object fails the object check |
| LibActions.FirstBad | lib/Actions.js:127-153 | the position of the first item that fails its checks; every item before it passes |
| LibActions.FirstBadAt | lib/Actions.js:127-153 | a position with only passing items before it and a failing item (or the end) at it is FirstBad |
| LibActions.OverwrittenStep | lib/Actions.js:150 | writing the next valid item's action into the object keeps "every name written holds the action of its last item; other keys are untouched" |
| LibActions.WriteItem | lib/Actions.js:150 | writing a valid item's fresh action under its name changes that key only and keeps "every name written holds the action of its last item" |
| LibActions.WriteActions | lib/Actions.js:127-153 | the fold writes the items until the first failing one and reports its failure; every name written holds a fresh action from the last item with that name; other keys are untouched |
| LibActions.CreateActions | lib/Actions.js:113-154 | fails exactly in the code's order: `ctx` is not an object, `actions` is not an array, then the first failing item; the actions written before a failure stay; which check fails follows from the `ctx` value itself (`LibActions.CtxKind`); on success it returns the object `ctx` refers to, or a new object for a falsy `ctx` |
| LibActions.DefsOf | lib/Actions.js:13-19 | one `{ name, map: this[name] }` per action name |
| LibActions.DefsOfEach | lib/Actions.js:13-19 | each such definition passes the checks and carries its name and the prototype's function |
| LibActions.DefsOfNames | lib/Actions.js:13-21 | the first k definitions name exactly the first k action names |
| LibActions.DefsOfMaps | lib/Actions.js:13-21 | among the first k definitions, the last one of each name carries that name's function |
| LibActions.DefsOfValid | lib/Actions.js:12-21 | the constructor's definitions all pass, name exactly the action names and map with the prototype's functions |
| LibActions.Construct | lib/Actions.js:12-22 | the instance gets exactly one fresh action per action name, with no observers and the prototype's function as its `map` |

## Left out

- `waitFor` (src/Actions.js:77-80, lib/Actions.js:79-108) is asynchronous: it is built from `flatMap`, `combineLatest` and `publish`.
- The observers of the internal `actionStart` and `actionEnd` subjects are outside the model. `HasObservers` takes whether they are observed as input.
- Rx itself is outside the model. This covers `Rx.Observable.call`, the prototype merging by `assign`, and the observers' `onNext` and `onError`. Observers are identities, and notifications are events in a log.
- SrcActions.Action.Call: observers that subscribe or dispose while being notified are not modelled. The live `forEach` over the list is taken to run on an unchanged list. The lib version does model such changes, through the `react` parameter of `LibActions.Action.Call`.
- Observer callbacks that throw are left out. Such an exception would abort the notification loop in both versions.
- The `Actions` builder (src/Actions.js:104-122) is left out because it is `stampit` composition. The map of actions its `init` step computes, `getActionDef(obj)::createMany(...)`, is modelled as `SrcActions.ActionMethods`. Copying that map into the instance, `assign(instance, actionMethods)` (src/Actions.js:116), is left out.
- `map.bind(this)` for `shouldBindMethods` is left out: mappings are plain functions of their argument.
- `debug` logging and the messages of `invariant` are left out. A failed invariant is a `Failure` value naming the violated check.
- LibActions.ActionNames: the `instanceof` guard of `__getActionNames` is not modelled, because it always holds when the constructor calls it. Instance properties that shadow prototype functions are not modelled either.
- Numbers are integers. There are no floating point values, `NaN` or `-0`.
- Js.Get: properties inherited from prototypes (e.g. `name` of a function, or a string's `length`) are not modelled.
- On a thrown error, the call of `src/Actions.js` returns its original argument, because the failed assignment leaves `value` as it was. A description of the call as returning `undefined` then would not match the code. The model follows the code.
- The `Cat` container exercised by `test/cat.js` is not part of this model, and neither is `examples/todomvc/js/app.jsx`, which is UI wiring.
