/** The action layer of the newer source (src/Actions.js): deriving action
    definitions from an object's own properties, the callable action with its
    observer list, and the fold of created actions into a namespace. */
module SrcActions {
  import opened Js
  import opened Sequences
  import opened Strings
  import opened Observers

  /** `currentStampSpec`: the vocabulary of the object builder. */
  const CurrentStampSpec: seq<string> :=
    ["methods", "statics", "props", "refs", "init", "compose", "create", "isStamp"]

  /** The three names joined by `protectedProperties`. */
  const ReservedNames: seq<string> := ["shouldBindMethods", "displayName", "constructor"]

  /** `String(array)`, i.e. `Array.prototype.toString`: the elements joined by commas. */
  function ArrayToString(a: seq<string>): (r: string)
    ensures forall i :: 0 <= i < |a| ==> IsSubstring(a[i], r)
    ensures |a| >= 2 ==> IsSubstring(",", r)
    ensures |a| > 0 ==> |r| == TotalLength(a) + |a| - 1
  {
    assert forall i :: 0 <= i < |a| ==> IsSubstring(a[i], Join(a, ",")) by {
      forall i | 0 <= i < |a| ensures IsSubstring(a[i], Join(a, ",")) {
        JoinHasPart(a, ",", i);
      }
    }
    if |a| >= 2 then JoinHasSeparator(a, ","); Join(a, ",") else Join(a, ",")
  }

  /** `protectedProperties`: `join` is handed an array as its separator, which
      turns into its comma-joined text, so the result is one long string and
      not a list of names. */
  const ProtectedProperties: string := Join(ReservedNames, ArrayToString(CurrentStampSpec))

  /** The protected text: the three names with the builder vocabulary,
      comma-joined, between each two of them. */
  lemma ProtectedPropertiesShape()
    ensures ProtectedProperties ==
      "shouldBindMethods" + ArrayToString(CurrentStampSpec) + "displayName" +
      ArrayToString(CurrentStampSpec) + "constructor"
  {
    JoinThree(ReservedNames, ArrayToString(CurrentStampSpec));
  }

  /** A character found in none of the builder options and none of the
      reserved names (nor the comma) is not in the protected text. */
  lemma CharOutsideProtected(c: char)
    requires c != ','
    requires forall i :: 0 <= i < |CurrentStampSpec| ==> c !in CurrentStampSpec[i]
    requires forall i :: 0 <= i < |ReservedNames| ==> c !in ReservedNames[i]
    ensures c !in ProtectedProperties
  {
    CharNotInJoin(CurrentStampSpec, ",", c);
    CharNotInJoin(ReservedNames, ArrayToString(CurrentStampSpec), c);
  }

  /** Each builder option and each reserved name occurs in the protected text,
      and so does every fragment of one of them. */
  lemma FragmentOfReservedIsProtected(fragment: string, name: string)
    requires name in CurrentStampSpec || name in ReservedNames
    requires IsSubstring(fragment, name)
    ensures IsSubstring(fragment, ProtectedProperties)
  {
    var sep := ArrayToString(CurrentStampSpec);
    if name in ReservedNames {
      var i :| 0 <= i < |ReservedNames| && ReservedNames[i] == name;
      JoinHasPart(ReservedNames, sep, i);
      SubstringTransitive(fragment, name, ProtectedProperties);
    } else {
      var i :| 0 <= i < |CurrentStampSpec| && CurrentStampSpec[i] == name;
      JoinHasPart(CurrentStampSpec, ",", i);
      JoinHasSeparator(ReservedNames, sep);
      SubstringTransitive(name, sep, ProtectedProperties);
      SubstringTransitive(fragment, name, ProtectedProperties);
    }
  }

  /** The filter of `getActionDef`: the name is not found in the protected
      text and holds no underscore. */
  predicate Exposed(name: string): (b: bool)
    ensures b <==> !IsSubstring(name, ProtectedProperties) && '_' !in name
  {
    CharSubstring('_', name);
    Strings.IndexOf(ProtectedProperties, name) == -1 && Strings.IndexOf(name, "_") == -1
  }

  /** An action definition: its name and its mapping function. */
  datatype ActionDef = ActionDef(name: string, mapping: MapFn)

  /** The mapping of a property value: functions are kept, anything else
      becomes the identity. */
  function DefMap(x: JsVal): MapFn {
    if x.Func? then x.f else Identity
  }

  function Names(defs: seq<ActionDef>): (names: seq<string>)
    ensures |names| == |defs| && forall i :: 0 <= i < |defs| ==> names[i] == defs[i].name
  {
    seq(|defs|, i requires 0 <= i < |defs| => defs[i].name)
  }

  /** `getActionDef(ctx)`: one definition per own property name that survives
      the filter, in property order; non-function values get the identity. */
  function GetActionDef(obj: JsObject): (defs: seq<ActionDef>)
    ensures IsSubsequence(Names(defs), obj.keys)
    ensures Distinct(Names(defs))
    ensures forall name :: name in Names(defs) <==>
      name in obj.keys && !IsSubstring(name, ProtectedProperties) && '_' !in name
    ensures forall d :: d in defs ==>
      && d.name in obj.props
      && (obj.props[d.name].Func? ==> d.mapping == obj.props[d.name].f)
      && (!obj.props[d.name].Func? ==> forall v :: d.mapping(v) == Normal(v))
  {
    var names := ExposedNames(obj);
    DefsFor(obj, names)
  }

  /** The `filter` step of `getActionDef`: the own property names that pass
      the filter, in property order. */
  function ExposedNames(obj: JsObject): (names: seq<string>)
    ensures IsSubsequence(names, obj.keys)
    ensures Distinct(names)
    ensures forall name :: name in names <==>
      name in obj.keys && !IsSubstring(name, ProtectedProperties) && '_' !in name
  {
    FilterDistinct(obj.keys, Exposed);
    Filter(obj.keys, Exposed)
  }

  /** The `map` steps of `getActionDef`: one definition per name, with the
      property's value as mapping when it is a function. */
  function DefsFor(obj: JsObject, names: seq<string>): (defs: seq<ActionDef>)
    requires forall i :: 0 <= i < |names| ==> names[i] in obj.props
    ensures Names(defs) == names
    ensures forall d :: d in defs ==>
      && d.name in obj.props
      && (obj.props[d.name].Func? ==> d.mapping == obj.props[d.name].f)
      && (!obj.props[d.name].Func? ==> forall v :: d.mapping(v) == Normal(v))
  {
    var defs := seq(|names|, i requires 0 <= i < |names| => ActionDef(names[i], DefMap(obj.props[names[i]])));
    assert Names(defs) == names;
    defs
  }

  /** Fragments of reserved words that are no reserved name themselves:
      `init`, `Name`, `a` and `e` all occur in the protected text. */
  lemma ProtectedFragments()
    ensures IsSubstring("init", ProtectedProperties) && IsSubstring("Name", ProtectedProperties)
    ensures IsSubstring("a", ProtectedProperties) && IsSubstring("e", ProtectedProperties)
  {
    InitIsProtected();
    NameIsProtected();
    LetterAIsProtected();
    LetterEIsProtected();
  }

  lemma LetterAIsProtected()
    ensures IsSubstring("a", ProtectedProperties)
  {
    CharOfReservedIsProtected('a', "displayName", 5);
  }

  lemma LetterEIsProtected()
    ensures IsSubstring("e", ProtectedProperties)
  {
    CharOfReservedIsProtected('e', "create", 2);
  }

  lemma InitIsProtected()
    ensures IsSubstring("init", ProtectedProperties)
  {
    assert OccursAt("init", "init", 0);
    FragmentOfReservedIsProtected("init", "init");
  }

  lemma NameIsProtected()
    ensures IsSubstring("Name", ProtectedProperties)
  {
    assert "display" + "Name" == "displayName";
    ConcatHasParts("display", "Name");
    FragmentOfReservedIsProtected("Name", "displayName");
  }

  /** A character of a builder option or reserved name occurs in the protected text. */
  lemma CharOfReservedIsProtected(c: char, name: string, i: nat)
    requires name in CurrentStampSpec || name in ReservedNames
    requires i < |name| && name[i] == c
    ensures IsSubstring([c], ProtectedProperties)
  {
    CharSubstring(c, name);
    FragmentOfReservedIsProtected([c], name);
  }

  /** So the substring test drops `init`, `Name`, `a` and `e` from every object. */
  lemma FragmentsAreDropped(obj: JsObject)
    ensures var names := Names(GetActionDef(obj));
      "init" !in names && "Name" !in names && "a" !in names && "e" !in names
  {
    ProtectedFragments();
  }

  /** A name without underscore that holds a character the protected text
      lacks (a `g`, a `T`, ...) always becomes an action, e.g. `toggle` and
      `addTodo`. */
  lemma ForeignCharacterSurvives(obj: JsObject, name: string, c: char)
    requires name in obj.keys && '_' !in name && c in name
    requires c != ','
    requires forall i :: 0 <= i < |CurrentStampSpec| ==> c !in CurrentStampSpec[i]
    requires forall i :: 0 <= i < |ReservedNames| ==> c !in ReservedNames[i]
    ensures name in Names(GetActionDef(obj))
  {
    CharOutsideProtected(c);
    AbsentCharNotSubstring(name, ProtectedProperties, c);
  }

  lemma ToggleSurvives(obj: JsObject)
    requires "toggle" in obj.keys
    ensures "toggle" in Names(GetActionDef(obj))
  {
    ForeignCharacterSurvives(obj, "toggle", 'g');
  }

  /** What a call settles on, from the completion of `mapping(value)`: the value it
      returns (and publishes on its start subject) and the notification every
      observer gets. The catch keeps the argument; `if (err)` tests the thrown
      value's truthiness, so a falsy throw is reported as a success. */
  function Settle(c: Completion, arg: Value): (r: (Value, Notification))
    ensures c.Normal? ==> r.0 == c.value
    ensures c.Throw? ==> r.0 == arg
    ensures r.1.OnError? <==> c.Throw? && Truthy(c.error)
    ensures r.1.OnError? ==> r.1.error == c.error
    ensures r.1.OnNext? ==> r.1.value == r.0
  {
    match c
    case Normal(v) => (v, OnNext(v))
    case Throw(e) => if Truthy(e) then (arg, OnError(e)) else (arg, OnNext(arg))
  }

  /** One call of an action: its result and the events it causes. */
  function Dispatch(mapping: MapFn, observers: seq<ObserverId>, value: Value): (r: (Value, seq<Event>))
    ensures r.0 == if mapping(value).Normal? then mapping(value).value else value
    ensures |r.1| == |observers| + 1 && r.1[0] == Started(r.0)
    ensures forall i :: 0 <= i < |observers| ==>
      r.1[i + 1].Delivered? && r.1[i + 1].observer == observers[i] &&
      (r.1[i + 1].note.OnError? <==> mapping(value).Throw? && Truthy(mapping(value).error))
  {
    var (result, note) := Settle(mapping(value), value);
    (result, [Started(result)] + Broadcast(observers, note))
  }

  /** When map succeeds, the call returns mapping(value), and every observer gets
      one onNext(mapping(value)) per subscription, in list order. */
  lemma {:induction false} CallDeliversMappedValue(mapping: MapFn, observers: seq<ObserverId>, value: Value, o: ObserverId)
    requires mapping(value).Normal?
    ensures var (result, log) := Dispatch(mapping, observers, value);
      && result == mapping(value).value
      && |log| == |observers| + 1
      && log[0] == Started(result)
      && (forall i :: 0 <= i < |observers| ==> log[i + 1] == Delivered(observers[i], OnNext(result)))
      && DeliveriesTo(log, o) == Count(observers, o)
  {
    var (result, log) := Dispatch(mapping, observers, value);
    var note := OnNext(result);
    BroadcastReachesEachOnce(observers, note, o);
    DeliveriesToConcat([Started(result)], Broadcast(observers, note), o);
  }

  /** When map throws a truthy value, the call does not throw: it returns its
      argument unchanged and every observer gets onError and never onNext. */
  lemma {:induction false} CallReportsError(mapping: MapFn, observers: seq<ObserverId>, value: Value, o: ObserverId)
    requires mapping(value).Throw? && Truthy(mapping(value).error)
    ensures var (result, log) := Dispatch(mapping, observers, value);
      && result == value
      && (forall i :: 0 <= i < |observers| ==> log[i + 1] == Delivered(observers[i], OnError(mapping(value).error)))
      && (forall e :: e in log && e.Delivered? ==> e.note.OnError?)
      && DeliveriesTo(log, o) == Count(observers, o)
  {
    var (result, log) := Dispatch(mapping, observers, value);
    var note := OnError(mapping(value).error);
    BroadcastReachesEachOnce(observers, note, o);
    DeliveriesToConcat([Started(result)], Broadcast(observers, note), o);
  }

  /** When map throws a falsy value (`throw null`, `throw 0`, ...), `if (err)`
      lets it pass: observers get onNext of the unchanged argument. */
  lemma CallMissesFalsyError(mapping: MapFn, observers: seq<ObserverId>, value: Value)
    requires mapping(value).Throw? && !Truthy(mapping(value).error)
    ensures var (result, log) := Dispatch(mapping, observers, value);
      && result == value
      && forall e :: e in log && e.Delivered? ==> e.note == OnNext(value)
  {
  }

  /** An action made by `create`: a display name, a mapping and the list of
      its current observers. */
  class Action {
    const displayName: string
    const mapping: MapFn
    var observers: seq<ObserverId>

    /** `create(shouldBind, { name, map })`. */
    constructor (def: ActionDef)
      ensures displayName == def.name && mapping == def.mapping && observers == []
    {
      displayName := def.name;
      mapping := def.mapping;
      observers := [];
    }

    /** `hasObservers()`; the start subject's own observers are an input. */
    function HasObservers(startObserved: bool): (r: bool)
      reads this
      ensures r <==> (exists o :: o in observers) || startObserved
    {
      assert observers != [] ==> observers[0] in observers;
      |observers| > 0 || startObserved
    }

    /** `_subscribe(observer)`: appends the observer and hands back the
        disposable that removes it. */
    method Subscribe(o: ObserverId) returns (sub: Subscription)
      modifies this
      ensures observers == Subscribed(old(observers), o)
      ensures fresh(sub) && sub.action == this && sub.observer == o && !sub.isDisposed
    {
      observers := Subscribed(observers, o);
      sub := new Subscription(this, o);
    }

    /** `action(value)`: apply the mapping, catch what it throws, publish the
        start tick, then notify every observer in list order. The list does not
        change during the call. */
    method Call(value: Value) returns (result: Value, log: seq<Event>)
      ensures (result, log) == Dispatch(mapping, observers, value)
    {
      var err := Null;
      var v := value;
      var c := mapping(value);
      match c {
        case Normal(x) => v := x;
        case Throw(e) => err := e;
      }
      log := [Started(v)];
      var i := 0;
      while i < |observers|
        invariant 0 <= i <= |observers|
        invariant |log| == i + 1 && log[0] == Started(v)
        invariant forall k :: 0 <= k < i ==> log[k + 1] == Delivered(observers[k], Settle(c, value).1)
      {
        if Truthy(err) {
          log := log + [Delivered(observers[i], OnError(err))];
        } else {
          log := log + [Delivered(observers[i], OnNext(v))];
        }
        i := i + 1;
      }
      result := v;
      assert log == [Started(v)] + Broadcast(observers, Settle(c, value).1);
    }
  }

  /** The disposable `_subscribe` returns: an `Rx.Disposable`, which runs its
      removal at most once. */
  class Subscription {
    const action: Action
    const observer: ObserverId
    var isDisposed: bool

    constructor (action: Action, observer: ObserverId)
      ensures this.action == action && this.observer == observer && !isDisposed
    {
      this.action := action;
      this.observer := observer;
      isDisposed := false;
    }

    /** `dispose()`: the first time, `observers.splice(observers.indexOf(observer), 1)`;
        afterwards nothing. */
    method Dispose()
      modifies this, action
      ensures isDisposed
      ensures action.observers ==
        if old(isDisposed) then old(action.observers) else Disposed(old(action.observers), observer)
    {
      if !isDisposed {
        action.observers := Disposed(action.observers, observer);
        isDisposed := true;
      }
    }
  }

  /** `createMany`: creates one action per definition and folds them into an
      object keyed by display name; a later definition of a name wins. */
  method CreateMany(defs: seq<ActionDef>) returns (actions: map<string, Action>)
    ensures forall name :: name in actions <==> name in Names(defs)
    ensures forall name :: name in actions ==>
      fresh(actions[name]) && actions[name].displayName == name && actions[name].observers == []
    ensures forall i :: 0 <= i < |defs| && (forall j :: i < j < |defs| ==> defs[j].name != defs[i].name) ==>
      actions[defs[i].name].mapping == defs[i].mapping
  {
    actions := map[];
    var i := 0;
    while i < |defs|
      invariant 0 <= i <= |defs|
      invariant forall name :: name in actions <==> name in Names(defs)[..i]
      invariant forall name :: name in actions ==>
        fresh(actions[name]) && actions[name].displayName == name && actions[name].observers == []
      invariant forall k :: 0 <= k < i && (forall j :: k < j < i ==> defs[j].name != defs[k].name) ==>
        actions[defs[k].name].mapping == defs[k].mapping
    {
      var a := new Action(defs[i]);
      assert Names(defs)[..i + 1] == Names(defs)[..i] + [defs[i].name];
      actions := actions[a.displayName := a];
      i := i + 1;
    }
    assert Names(defs)[..i] == Names(defs);
  }

  /** In definitions with distinct names, no later definition shares a name. */
  lemma DistinctNamesUnique(defs: seq<ActionDef>)
    requires Distinct(Names(defs))
    ensures forall i, j :: 0 <= i < j < |defs| ==> defs[j].name != defs[i].name
  {
    forall i, j | 0 <= i < j < |defs| ensures defs[j].name != defs[i].name {
      assert Names(defs)[i] == defs[i].name && Names(defs)[j] == defs[j].name;
    }
  }

  /** The actions an `Actions` instance gets from its definition object:
      `getActionDef(obj)::createMany(...)`. */
  method ActionMethods(obj: JsObject) returns (actions: map<string, Action>)
    ensures forall name :: name in actions <==>
      name in obj.keys && !IsSubstring(name, ProtectedProperties) && '_' !in name
    ensures forall name :: name in actions ==>
      && fresh(actions[name]) && actions[name].displayName == name && actions[name].observers == []
      && name in obj.props
      && (obj.props[name].Func? ==> actions[name].mapping == obj.props[name].f)
      && (!obj.props[name].Func? ==> forall v :: actions[name].mapping(v) == Normal(v))
  {
    var defs := GetActionDef(obj);
    actions := CreateMany(defs);
    DistinctNamesUnique(defs);
    forall name | name in actions
      ensures exists i :: 0 <= i < |defs| && defs[i].name == name && defs[i] in defs
    {
      var i :| 0 <= i < |defs| && Names(defs)[i] == name;
    }
  }
}
