/** The action layer of the older compiled class (lib/Actions.js): the names
    an `Actions` subclass turns into actions, the action `_create` makes, with
    its snapshot dispatch, and the validating fold `_createActions`. */
module LibActions {
  import opened Wrappers
  import opened Js
  import opened Sequences
  import Strings
  import opened Observers

  /** The filter of `__getActionNames`: not `constructor`, no `__`, and a
      function on the prototype. */
  predicate IsActionName(proto: JsObject, name: string): (b: bool)
    ensures b <==> (name != "constructor" && !Strings.IsSubstring("__", name) &&
                    name in proto.props && proto.props[name].Func?)
  {
    name != "constructor" && Strings.IndexOf(name, "__") == -1 &&
    name in proto.props && TypeOf(proto.props[name]) == FunctionType
  }

  /** `__getActionNames(ctx)`: the prototype's own names that name actions,
      in property order. The `instanceof` guard always holds when the
      constructor calls it and is left out. */
  function ActionNames(proto: JsObject): (names: seq<string>)
    ensures IsSubsequence(names, proto.keys)
    ensures Distinct(names)
    ensures forall name :: name in names <==>
      name in proto.keys && name != "constructor" && !Strings.IsSubstring("__", name) && proto.props[name].Func?
  {
    FilterDistinct(proto.keys, name => IsActionName(proto, name));
    Filter(proto.keys, name => IsActionName(proto, name))
  }

  /** What the observers of an action do to its list while they are being
      notified: subscribe or dispose observers. */
  datatype Change = Subscribe(observer: ObserverId) | Dispose(observer: ObserverId)

  function Apply(observers: seq<ObserverId>, c: Change): seq<ObserverId> {
    match c
    case Subscribe(o) => Subscribed(observers, o)
    case Dispose(o) => Disposed(observers, o)
  }

  /** The list after a series of changes, applied in order. */
  function ApplyAll(observers: seq<ObserverId>, changes: seq<Change>): seq<ObserverId> {
    if changes == [] then observers
    else Apply(ApplyAll(observers, changes[..|changes| - 1]), changes[|changes| - 1])
  }

  /** The live list after each observer of the snapshot, in turn, made the
      changes `react` says it makes when notified. */
  function AfterDispatch(live: seq<ObserverId>, snapshot: seq<ObserverId>, react: ObserverId -> seq<Change>): seq<ObserverId> {
    if snapshot == [] then live
    else ApplyAll(AfterDispatch(live, snapshot[..|snapshot| - 1], react), react(snapshot[|snapshot| - 1]))
  }

  /** An observer that changes nothing when notified. */
  function Quiet(o: ObserverId): seq<Change> {
    []
  }

  /** An observer that disposes its own subscription when notified. */
  function SelfDispose(o: ObserverId): seq<Change> {
    [Dispose(o)]
  }

  /** Observers that change nothing while notified leave the list as it was. */
  lemma {:induction false} QuietDispatchKeepsList(live: seq<ObserverId>, snapshot: seq<ObserverId>)
    ensures AfterDispatch(live, snapshot, Quiet) == live
  {
    if snapshot != [] {
      QuietDispatchKeepsList(live, snapshot[..|snapshot| - 1]);
    }
  }

  /** Observers that each dispose their own subscription when notified all
      leave: every one of them is still notified (the snapshot) and the list
      ends empty. */
  lemma SelfDisposingObserversLeave(live: seq<ObserverId>)
    ensures AfterDispatch(live, live, SelfDispose) == []
  {
    SelfDisposingPrefix(live, |live|);
    assert live[..|live|] == live;
  }

  /** After the first k observers disposed themselves, the rest of the list remains. */
  lemma {:induction false} SelfDisposingPrefix(live: seq<ObserverId>, k: nat)
    requires k <= |live|
    ensures AfterDispatch(live, live[..k], SelfDispose) == live[k..]
  {
    if k > 0 {
      assert live[..k][..k - 1] == live[..k - 1];
      SelfDisposingPrefix(live, k - 1);
      var o := live[k - 1];
      assert ApplyAll(live[k - 1..], SelfDispose(o)) == Disposed(live[k - 1..], o) by {
        assert SelfDispose(o)[..0] == [];
      }
      assert IndexOf(live[k - 1..], o) == 0;
      assert live[k - 1..][1..] == live[k..];
    }
  }

  /** What the mapping does to the argument of a call: `map(value)` when map
      is a function (an exception escapes to the caller), the value
      unchanged otherwise. */
  function Mapped(mapArg: JsVal, value: Value): (c: Completion)
    ensures !mapArg.Func? ==> c == Normal(value)
    ensures mapArg.Func? ==> c == mapArg.f(value)
  {
    if TypeOf(mapArg) == FunctionType then mapArg.f(value) else Normal(value)
  }

  /** The events of a call that settled on v, for the observers of the snapshot. */
  function Notifications(v: Value, snapshot: seq<ObserverId>): seq<Event> {
    [Started(v)] + Broadcast(snapshot, OnNext(v)) + [Ended]
  }

  /** Every observer of the snapshot gets exactly one onNext(v) per
      subscription, between the start and the end tick; no other observer
      gets anything. */
  lemma {:induction false} SnapshotNotifiedOnce(v: Value, snapshot: seq<ObserverId>, o: ObserverId)
    ensures var log := Notifications(v, snapshot);
      && log[0] == Started(v) && log[|log| - 1] == Ended
      && (forall i :: 0 <= i < |snapshot| ==> log[i + 1] == Delivered(snapshot[i], OnNext(v)))
      && DeliveriesTo(log, o) == Count(snapshot, o)
  {
    var b := Broadcast(snapshot, OnNext(v));
    BroadcastReachesEachOnce(snapshot, OnNext(v), o);
    DeliveriesToConcat([Started(v)], b, o);
    DeliveriesToConcat([Started(v)] + b, [Ended], o);
  }

  /** An action made by `_create(map)`. */
  class Action {
    const mapArg: JsVal
    var observers: seq<ObserverId>

    constructor (mapArg: JsVal)
      ensures this.mapArg == mapArg && observers == []
    {
      this.mapArg := mapArg;
      observers := [];
    }

    /** `hasObservers()`; the observers of the start and end subjects are inputs. */
    function HasObservers(startObserved: bool, endObserved: bool): (r: bool)
      reads this
      ensures r <==> (exists o :: o in observers) || startObserved || endObserved
    {
      assert observers != [] ==> observers[0] in observers;
      |observers| > 0 || startObserved || endObserved
    }

    /** The subscribe function: appends the observer. */
    method Subscribe(o: ObserverId)
      modifies this
      ensures observers == Subscribed(old(observers), o)
    {
      observers := Subscribed(observers, o);
    }

    /** `dispose()` of the subscription of o: splices out the first
        occurrence of o; with none left, `splice(-1, 1)` drops the last one. */
    method Dispose(o: ObserverId)
      modifies this
      ensures observers == Disposed(old(observers), o)
    {
      observers := SpliceOne(observers, IndexOf(observers, o));
    }

    /** What an observer does to the list while it is notified, change by change. */
    method ApplyChanges(changes: seq<Change>)
      modifies this
      ensures observers == ApplyAll(old(observers), changes)
    {
      var j := 0;
      while j < |changes|
        invariant 0 <= j <= |changes|
        invariant observers == ApplyAll(old(observers), changes[..j])
      {
        ghost var prev := observers;
        match changes[j] {
          case Subscribe(o) => Subscribe(o);
          case Dispose(o) => Dispose(o);
        }
        assert observers == Apply(prev, changes[j]);
        assert changes[..j + 1][..j] == changes[..j] && changes[..j + 1][j] == changes[j];
        j := j + 1;
      }
      assert changes[..j] == changes;
    }

    /** The counted loop over the copy `os`: notifies each observer of the
        copy in turn, while the changes it makes go to the live list. */
    method Notify(os: seq<ObserverId>, v: Value, react: ObserverId -> seq<Change>) returns (deliveries: seq<Event>)
      modifies this
      requires observers == os
      ensures deliveries == Broadcast(os, OnNext(v))
      ensures observers == AfterDispatch(os, os, react)
    {
      deliveries := [];
      var i := 0;
      while i < |os|
        invariant 0 <= i <= |os|
        invariant deliveries == Broadcast(os[..i], OnNext(v))
        invariant observers == AfterDispatch(os, os[..i], react)
      {
        BroadcastSnoc(os[..i], os[i], OnNext(v));
        deliveries := deliveries + [Delivered(os[i], OnNext(v))];
        ApplyChanges(react(os[i]));
        assert os[..i + 1][..i] == os[..i] && os[..i + 1][i] == os[i];
        assert os[..i + 1] == os[..i] + [os[i]];
        i := i + 1;
      }
      assert os[..i] == os;
    }

    /** `action(value)`: map the value (an exception escapes before anything is
        published), tick the start subject, notify a copy of the list taken
        before the loop while the observers change the live list, tick the
        end subject, return the value. */
    method Call(value: Value, react: ObserverId -> seq<Change>) returns (c: Completion, log: seq<Event>)
      modifies this
      ensures c == Mapped(mapArg, value)
      ensures c.Throw? ==> log == [] && observers == old(observers)
      ensures c.Normal? ==> log == Notifications(c.value, old(observers))
      ensures c.Normal? ==> observers == AfterDispatch(old(observers), old(observers), react)
    {
      c := Normal(value);
      if TypeOf(mapArg) == FunctionType {
        c := mapArg.f(value);
        if c.Throw? {
          return c, [];
        }
      }
      var v := c.value;
      var deliveries := Notify(observers, v, react);
      log := [Started(v)] + deliveries + [Ended];
    }
  }

  /** The checks of `_createActions`, by the invariant that fails. */
  datatype Check = CtxNotObject | ActionsNotArray | ItemNotObject | NameNotString | MapNotFunction

  /** How `_createActions` fails: a violated invariant, or the TypeError of
      reading `name` from a `null` item (which passes the `typeof` test). */
  datatype Failure = Violated(check: Check) | TypeError

  /** The `ctx` argument, by what the code distinguishes: an object, a falsy
      value (replaced by `{}`), or a truthy value that is no object. */
  datatype CtxClass = ObjectCtx | FalsyCtx | NonObjectCtx

  /** `ctx = ctx || {}` followed by the test `typeof ctx === 'object'`. */
  function CtxKind(ctx: JsVal): (k: CtxClass)
    ensures k == FalsyCtx <==>
      ctx.Prim? && (ctx.v == Undefined || ctx.v == Null || ctx.v == Bool(false) || ctx.v == Num(0) || ctx.v == Str(""))
    ensures k == ObjectCtx <==> ctx.Obj? || ctx.Arr? || (ctx.Prim? && ctx.v.Ref?)
    ensures k == NonObjectCtx <==> (ctx.Func? ||
      (ctx.Prim? && (ctx.v == Bool(true) || (ctx.v.Num? && ctx.v.n != 0) || (ctx.v.Str? && ctx.v.s != ""))))
  {
    if !JsTruthy(ctx) then FalsyCtx
    else if TypeOf(ctx) == ObjectType then ObjectCtx
    else NonObjectCtx
  }

  /** A property of the target object: a value it already had, or an action
      written by `_createActions`. */
  datatype Slot = Data(v: JsVal) | Bound(action: Action)

  /** The object `_createActions` writes the actions into. */
  class Namespace {
    var slots: map<string, Slot>

    constructor ()
      ensures slots == map[]
    {
      slots := map[];
    }
  }

  /** An item that passes every check: an object with a string `name` and a
      `map` that is a function when it is truthy. */
  predicate ValidItem(item: JsVal) {
    && item.Obj? && "name" in item.props && item.props["name"].Prim? && item.props["name"].v.Str?
    && ("map" in item.props && JsTruthy(item.props["map"]) ==> item.props["map"].Func?)
  }

  /** The checks of one item of `actions`, in the order the code makes them. */
  function ItemFailure(item: JsVal): (r: Option<Failure>)
    ensures r.None? <==> ValidItem(item)
    ensures item == Prim(Null) ==> r == Some(TypeError)
    ensures item.Func? || (item.Prim? && !item.v.Null? && !item.v.Ref?) ==> r == Some(Violated(ItemNotObject))
  {
    if TypeOf(item) != ObjectType then Some(Violated(ItemNotObject))
    else
      match Get(item, "name")
      case None => Some(TypeError)
      case Some(name) =>
        if TypeOf(name) != StringType then Some(Violated(NameNotString))
        else
          var m := Get(item, "map").value;
          if JsTruthy(m) && TypeOf(m) != FunctionType then Some(Violated(MapNotFunction))
          else None
  }

  /** The name of a valid item. */
  function NameOf(item: JsVal): string {
    if ValidItem(item) then item.props["name"].v.s else ""
  }

  /** The `map` field of an item, `undefined` when it has none. */
  function MapOf(item: JsVal): JsVal {
    if item.Obj? && "map" in item.props then item.props["map"] else Prim(Undefined)
  }

  /** The names the valid items among the first n of a list write. */
  function ItemNames(items: seq<JsVal>, n: nat): set<string>
    requires n <= |items|
  {
    if n == 0 then {}
    else ItemNames(items, n - 1) + (if ValidItem(items[n - 1]) then {NameOf(items[n - 1])} else {})
  }

  /** The `map` of the last of the first n items named `name`: the one whose
      action survives. */
  function LastMap(items: seq<JsVal>, n: nat, name: string): JsVal
    requires n <= |items|
  {
    if n == 0 then Prim(Undefined)
    else if NameOf(items[n - 1]) == name then MapOf(items[n - 1])
    else LastMap(items, n - 1, name)
  }

  /** The position of the first item that fails its checks, |items| if none does. */
  function FirstBad(items: seq<JsVal>): (k: nat)
    ensures k <= |items|
    ensures forall i :: 0 <= i < k ==> ValidItem(items[i])
    ensures k < |items| ==> !ValidItem(items[k])
  {
    if items == [] then 0
    else if !ValidItem(items[0]) then 0
    else 1 + FirstBad(items[1..])
  }

  /** FirstBad is the position of the first failing item. */
  lemma {:induction false} FirstBadAt(items: seq<JsVal>, k: nat)
    requires k <= |items|
    requires forall i :: 0 <= i < k ==> ValidItem(items[i])
    requires k < |items| ==> !ValidItem(items[k])
    ensures FirstBad(items) == k
  {
    if items != [] && k > 0 {
      FirstBadAt(items[1..], k - 1);
    }
  }

  /** How a call of `_createActions` fails, checked in the code's order, or None. */
  function Verdict(actions: JsVal, ctx: JsVal): (r: Option<Failure>)
    ensures r.None? <==> (CtxKind(ctx) != NonObjectCtx && actions.Arr? &&
      forall i :: 0 <= i < |actions.items| ==> ValidItem(actions.items[i]))
    ensures CtxKind(ctx) == NonObjectCtx ==> r == Some(Violated(CtxNotObject))
    ensures CtxKind(ctx) != NonObjectCtx && !actions.Arr? ==> r == Some(Violated(ActionsNotArray))
    ensures CtxKind(ctx) != NonObjectCtx && actions.Arr? ==>
      forall k :: (0 <= k < |actions.items| && !ValidItem(actions.items[k]) &&
                   (forall i :: 0 <= i < k ==> ValidItem(actions.items[i]))) ==> r == ItemFailure(actions.items[k])
  {
    if CtxKind(ctx) == NonObjectCtx then Some(Violated(CtxNotObject))
    else if !actions.Arr? then Some(Violated(ActionsNotArray))
    else if FirstBad(actions.items) < |actions.items| then ItemFailure(actions.items[FirstBad(actions.items)])
    else None
  }

  /** The items of `actions`, none when it is no array. */
  function Items(actions: JsVal): seq<JsVal> {
    if actions.Arr? then actions.items else []
  }

  /** How many items get their actions written before the call returns or throws. */
  function Reached(actions: JsVal, ctx: JsVal): (n: nat)
    ensures n <= |Items(actions)|
  {
    if CtxKind(ctx) == NonObjectCtx || !actions.Arr? then 0 else FirstBad(actions.items)
  }

  /** ns holds what `before` held, overwritten by one action per name of the
      first n items, made from the last of them with that name. */
  ghost predicate SlotsAfter(ns: Namespace, before: map<string, Slot>, items: seq<JsVal>, n: nat)
    requires n <= |items|
    reads ns
  {
    Overwritten(ns.slots, before, items, n)
  }

  /** SlotsAfter, on the property map itself. */
  ghost predicate Overwritten(slots: map<string, Slot>, before: map<string, Slot>, items: seq<JsVal>, n: nat)
    requires n <= |items|
  {
    && slots.Keys == before.Keys + ItemNames(items, n)
    && (forall k :: k in before && k !in ItemNames(items, n) ==> slots[k] == before[k])
    && (forall k :: k in ItemNames(items, n) ==> slots[k].Bound? && slots[k].action.mapArg == LastMap(items, n, k))
  }

  /** Writing the action of the next valid item keeps Overwritten. */
  lemma OverwrittenStep(slots: map<string, Slot>, before: map<string, Slot>, items: seq<JsVal>, i: nat, a: Action)
    requires i < |items|
    requires Overwritten(slots, before, items, i)
    requires ValidItem(items[i]) && a.mapArg == MapOf(items[i])
    ensures Overwritten(slots[NameOf(items[i]) := Bound(a)], before, items, i + 1)
  {
  }

  /** A valid item after valid ones makes a longer valid prefix. */
  lemma ValidPrefixGrows(items: seq<JsVal>, i: nat)
    requires i < |items| && ValidItem(items[i])
    requires forall k :: 0 <= k < i ==> ValidItem(items[k])
    ensures forall k :: 0 <= k < i + 1 ==> ValidItem(items[k])
  {
  }

  /** One step of the reduce: `ctx[item.name] = _create(item.map)` for a valid item. */
  method WriteItem(ns: Namespace, ghost before: map<string, Slot>, items: seq<JsVal>, i: nat)
    requires i < |items| && ValidItem(items[i])
    requires Overwritten(ns.slots, before, items, i)
    modifies ns
    ensures Overwritten(ns.slots, before, items, i + 1)
    ensures ns.slots == old(ns.slots)[NameOf(items[i]) := ns.slots[NameOf(items[i])]]
    ensures ns.slots[NameOf(items[i])].Bound?
    ensures fresh(ns.slots[NameOf(items[i])].action) && ns.slots[NameOf(items[i])].action.observers == []
  {
    var a := new Action(MapOf(items[i]));
    OverwrittenStep(ns.slots, before, items, i, a);
    ns.slots := ns.slots[NameOf(items[i]) := Bound(a)];
  }

  /** The reduce of `_createActions` over the items: writes
      `ns[item.name] = _create(item.map)` in order until an item fails its
      checks, and reports that item's failure. */
  method WriteActions(ns: Namespace, items: seq<JsVal>) returns (failure: Option<Failure>)
    modifies ns
    ensures failure == if FirstBad(items) < |items| then ItemFailure(items[FirstBad(items)]) else None
    ensures SlotsAfter(ns, old(ns.slots), items, FirstBad(items))
    ensures forall k :: k in ItemNames(items, FirstBad(items)) ==>
      k in ns.slots && ns.slots[k].Bound? && fresh(ns.slots[k].action) && ns.slots[k].action.observers == []
  {
    ghost var before := ns.slots;
    var i := 0;
    while i < |items|
      invariant 0 <= i <= |items|
      invariant forall k :: 0 <= k < i ==> ValidItem(items[k])
      invariant Overwritten(ns.slots, before, items, i)
      invariant forall k :: k in ItemNames(items, i) ==>
        k in ns.slots && ns.slots[k].Bound? && fresh(ns.slots[k].action) && ns.slots[k].action.observers == []
    {
      var f := ItemFailure(items[i]);
      if f.Some? {
        FirstBadAt(items, i);
        return f;
      }
      WriteItem(ns, before, items, i);
      ValidPrefixGrows(items, i);
      i := i + 1;
    }
    FirstBadAt(items, i);
    return None;
  }

  /** `Actions._createActions(actions, ctx)`: checks `ctx` and `actions`, then
      writes the actions of the items into `ctx` (or into a fresh object when
      `ctx` is falsy), stopping at the first item that fails its checks; the
      actions written until then stay written. Returns the object written.
      `target` is the object an object-valued `ctx` refers to. */
  method CreateActions(actions: JsVal, ctx: JsVal, target: Namespace) returns (r: Result<Namespace, Failure>)
    modifies if CtxKind(ctx) == ObjectCtx then {target} else {}
    ensures r.Failure? <==> Verdict(actions, ctx).Some?
    ensures r.Failure? ==> r.error == Verdict(actions, ctx).value
    ensures r.Success? && CtxKind(ctx) == ObjectCtx ==> r.value == target
    ensures r.Success? && CtxKind(ctx) == FalsyCtx ==>
      fresh(r.value) && SlotsAfter(r.value, map[], Items(actions), Reached(actions, ctx))
    ensures r.Success? ==> forall k :: k in ItemNames(Items(actions), Reached(actions, ctx)) ==>
      k in r.value.slots && r.value.slots[k].Bound? &&
      fresh(r.value.slots[k].action) && r.value.slots[k].action.observers == []
    ensures CtxKind(ctx) == ObjectCtx ==> SlotsAfter(target, old(target.slots), Items(actions), Reached(actions, ctx))
    ensures CtxKind(ctx) == ObjectCtx ==> forall k :: k in ItemNames(Items(actions), Reached(actions, ctx)) ==>
      k in target.slots && target.slots[k].Bound? &&
      fresh(target.slots[k].action) && target.slots[k].action.observers == []
  {
    var ns: Namespace;
    match CtxKind(ctx) {
      case NonObjectCtx => return Failure(Violated(CtxNotObject));
      case FalsyCtx => ns := new Namespace();
      case ObjectCtx => ns := target;
    }
    if !actions.Arr? {
      return Failure(Violated(ActionsNotArray));
    }
    var failure := WriteActions(ns, actions.items);
    if failure.Some? {
      return Failure(failure.value);
    }
    return Success(ns);
  }

  /** The definitions the constructor hands to `_createActions`: one
      `{ name, map: this[name] }` per action name. */
  function ConstructorDefs(proto: JsObject): seq<JsVal> {
    DefsOf(proto, ActionNames(proto))
  }

  function DefsOf(proto: JsObject, names: seq<string>): (defs: seq<JsVal>)
    requires forall i :: 0 <= i < |names| ==> names[i] in proto.props
    ensures |defs| == |names|
  {
    seq(|names|, i requires 0 <= i < |names| =>
      Obj(map["name" := Prim(Str(names[i])), "map" := proto.props[names[i]]]))
  }

  /** Definitions built from function-valued names pass every check, name
      exactly those names, and carry each name's own function. */
  lemma DefsOfValid(proto: JsObject, names: seq<string>)
    requires forall i :: 0 <= i < |names| ==> names[i] in proto.props && proto.props[names[i]].Func?
    ensures FirstBad(DefsOf(proto, names)) == |names|
    ensures forall n :: n in ItemNames(DefsOf(proto, names), |names|) <==> n in names
    ensures forall n :: n in names ==> LastMap(DefsOf(proto, names), |names|, n) == proto.props[n]
  {
    DefsOfEach(proto, names);
    FirstBadAt(DefsOf(proto, names), |names|);
    DefsOfNames(proto, names, |names|);
    DefsOfMaps(proto, names, |names|);
    assert names[..|names|] == names;
    forall n | n in names ensures LastMap(DefsOf(proto, names), |names|, n) == proto.props[n] {
      var i :| 0 <= i < |names| && names[i] == n;
    }
  }

  /** Each definition passes the checks and carries its name and function. */
  lemma DefsOfEach(proto: JsObject, names: seq<string>)
    requires forall i :: 0 <= i < |names| ==> names[i] in proto.props && proto.props[names[i]].Func?
    ensures forall i :: 0 <= i < |names| ==>
      var d := DefsOf(proto, names)[i];
      ValidItem(d) && NameOf(d) == names[i] && MapOf(d) == proto.props[names[i]]
  {
  }

  /** The first k definitions name exactly the first k names. */
  lemma {:induction false} DefsOfNames(proto: JsObject, names: seq<string>, k: nat)
    requires forall i :: 0 <= i < |names| ==> names[i] in proto.props && proto.props[names[i]].Func?
    requires k <= |names|
    ensures forall n :: n in ItemNames(DefsOf(proto, names), k) <==> n in names[..k]
  {
    DefsOfEach(proto, names);
    if k > 0 {
      DefsOfNames(proto, names, k - 1);
      assert names[..k] == names[..k - 1] + [names[k - 1]];
    }
  }

  /** Among the first k definitions, the last one of each name carries that
      name's function (all of them do). */
  lemma {:induction false} DefsOfMaps(proto: JsObject, names: seq<string>, k: nat)
    requires forall i :: 0 <= i < |names| ==> names[i] in proto.props && proto.props[names[i]].Func?
    requires k <= |names|
    ensures forall i :: 0 <= i < k ==> LastMap(DefsOf(proto, names), k, names[i]) == proto.props[names[i]]
  {
    if k > 0 {
      var defs := DefsOf(proto, names);
      DefsOfMaps(proto, names, k - 1);
      var d := defs[k - 1];
      assert NameOf(d) == names[k - 1] && MapOf(d) == proto.props[names[k - 1]];
    }
  }

  /** The constructor: `_createActions(defs, this)` cannot fail on the
      definitions `__getActionNames` yields, and the instance gets one fresh
      action per action name, mapping with the prototype's function. */
  method Construct(proto: JsObject) returns (instance: Namespace)
    ensures fresh(instance)
    ensures forall n :: n in instance.slots <==> n in ActionNames(proto)
    ensures forall n :: n in ActionNames(proto) ==>
      && instance.slots[n].Bound?
      && fresh(instance.slots[n].action)
      && instance.slots[n].action.observers == []
      && instance.slots[n].action.mapArg == proto.props[n]
  {
    instance := new Namespace();
    var defs := ConstructorDefs(proto);
    DefsOfValid(proto, ActionNames(proto));
    // `this`: a reference to the instance under construction.
    var r := CreateActions(Arr(defs), Prim(Ref(0)), instance);
  }
}
