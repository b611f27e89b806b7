/**
 * Copying RRULE, EXDATE and RDATE of an event up to its calendar, with the arrays as the
 * objects they are: the calendar and the event come to hold the same one. And what that has
 * to do with the reader's `MergeEvent`, which has the arrays as values and remembers whose
 * they are.
 */
module ICalMerge {
  import opened ICalendar

  /** A list of values, shared by whoever holds it. */
  class Values {
    var items: seq<Held>

    constructor (items: seq<Held>)
      ensures this.items == items
    {
      this.items := items;
    }
  }

  datatype Held = Text(s: string) | List(list: Values)

  class Component {
    var props: map<string, Held>

    constructor ()
      ensures props == map[]
    {
      props := map[];
    }

    predicate Has(name: string)
      reads this
    {
      name in props && props[name] != Text("")
    }

    /** The list a merge under this name would push onto. */
    ghost function Pushed(name: string): set<object>
      reads this
    {
      if Has(name) && props[name].List? then {props[name].list} else {}
    }
  }

  /**
   * One name of `mergeEventProperties`: nothing when the event has no value, the event's own
   * value when the calendar has none, else one more value at the end of the calendar's.
   */
  method MergeProperty(parent: Component, event: Component, name: string)
    requires parent != event
    modifies parent, parent.Pushed(name)
    ensures !event.Has(name) ==> parent.props == old(parent.props)
    ensures event.Has(name) && !old(parent.Has(name)) ==> parent.props == old(parent.props)[name := event.props[name]]
    ensures event.Has(name) && old(parent.Has(name)) && old(parent.props[name]).Text? ==>
              && name in parent.props && parent.props[name].List? && fresh(parent.props[name].list)
              && parent.props == old(parent.props)[name := parent.props[name]]
              && parent.props[name].list.items == [old(parent.props[name]), event.props[name]]
    ensures event.Has(name) && old(parent.Has(name)) && old(parent.props[name]).List? ==>
              && parent.props == old(parent.props)
              && parent.props[name].list.items == old(parent.props[name].list.items) + [event.props[name]]
    ensures !(event.Has(name) && old(parent.Has(name))) ==> forall l: Values :: l in old(parent.Pushed(name)) ==> unchanged(l)
  {
    if event.Has(name) {
      if !parent.Has(name) {
        parent.props := parent.props[name := event.props[name]];
      } else {
        match parent.props[name]
        case Text(_) =>
          var both := new Values([parent.props[name], event.props[name]]);
          parent.props := parent.props[name := List(both)];
        case List(list) =>
          list.items := list.items + [event.props[name]];
      }
    }
  }

  // ----- objects and values -----

  type Props = map<string, Held>

  /** What the arrays hold, and what value each of them comes to. */
  type Items = map<Values, seq<Held>>
  type Meaning = map<Values, Value>

  ghost predicate Comes(h: Held, v: Value, m: Meaning) {
    match h
    case Text(s) => v == One(s)
    case List(l) => l in m && v == m[l]
  }

  ghost predicate AllCome(hs: seq<Held>, vs: seq<Value>, m: Meaning) {
    |hs| == |vs| && forall i :: 0 <= i < |hs| ==> Comes(hs[i], vs[i], m)
  }

  /** Every array comes to the array of what its items come to. */
  ghost predicate Sound(items: Items, m: Meaning) {
    items.Keys == m.Keys && forall l :: l in items ==> m[l].Many? && AllCome(items[l], m[l].vs, m)
  }

  ghost predicate Shows(props: Props, values: map<string, Value>, m: Meaning) {
    props.Keys == values.Keys && forall n :: n in props ==> Comes(props[n], values[n], m)
  }

  predicate Holds(props: Props, n: string, l: Values) {
    n in props && props[n] == List(l)
  }

  predicate Unnested(l: Values, items: Items) {
    forall outer :: outer in items ==> List(l) !in items[outer]
  }

  /** Child number `j` holds the array under the name. */
  predicate KidHolds(kids: seq<Props>, j: nat, n: string, l: Values) {
    j < |kids| && Holds(kids[j], n, l)
  }

  /** A child's array is its own, under one name. */
  ghost predicate OwnArrays(kids: seq<Props>, items: Items) {
    forall l, i: nat, n, j: nat, o :: l in items && KidHolds(kids, i, n, l) && KidHolds(kids, j, o, l) ==> i == j && n == o
  }

  /** A calendar's array is under one name. */
  ghost predicate CalOwn(cal: Props, items: Items) {
    forall l, n, o :: l in items && Holds(cal, n, l) && Holds(cal, o, l) ==> n == o
  }

  /** If it is a child's as well, `shared` says so. */
  ghost predicate CalShared(cal: Props, kids: seq<Props>, shared: map<string, nat>, items: Items) {
    forall l, n, j: nat, o :: l in items && Holds(cal, n, l) && KidHolds(kids, j, o, l) ==>
      o == n && n in shared && shared[n] == j
  }

  /** And what `shared` says is so. */
  ghost predicate SharedHeld(cal: Props, kids: seq<Props>, shared: map<string, nat>) {
    forall n :: n in shared ==> n in cal && cal[n].List? && KidHolds(kids, shared[n], n, cal[n].list)
  }

  /** No array of the calendar is an item of another. */
  ghost predicate CalUnnested(cal: Props, items: Items) {
    forall l, n :: l in items && Holds(cal, n, l) ==> Unnested(l, items)
  }

  ghost predicate Sharing(cal: Props, kids: seq<Props>, shared: map<string, nat>, items: Items) {
    && OwnArrays(kids, items) && CalOwn(cal, items) && CalShared(cal, kids, shared, items)
    && SharedHeld(cal, kids, shared) && CalUnnested(cal, items)
  }

  ghost predicate KidsShow(kids: seq<Props>, children: seq<Parsed>, m: Meaning) {
    |kids| == |children| && forall j :: 0 <= j < |kids| ==> Shows(kids[j], children[j].props, m)
  }

  /** Objects and values say the same of a calendar and its children. */
  ghost predicate Same(cal: Props, kids: seq<Props>, items: Items, m: Meaning, p: Parsed) {
    Sound(items, m) && Shows(cal, p.props, m) && KidsShow(kids, p.children, m) && Sharing(cal, kids, p.shared, items)
  }

  /** Child `k` has not been merged under this name. */
  ghost predicate Unmerged(kids: seq<Props>, k: nat, shared: map<string, nat>, items: Items, name: string) {
    && k < |kids| && !(name in shared && shared[name] == k)
    && forall l :: l in items && Holds(kids[k], name, l) ==> Unnested(l, items)
  }

  // ----- one name, on both sides -----

  lemma SameTruth(props: Props, values: map<string, Value>, m: Meaning, items: Items, name: string)
    requires Shows(props, values, m) && Sound(items, m)
    ensures Truthy(values, name) <==> name in props && props[name] != Text("")
    ensures name in props ==> name in values && Comes(props[name], values[name], m)
    ensures name in props && props[name].Text? ==> values[name] == One(props[name].s)
    ensures name in props && props[name].List? ==>
              props[name].list in items && values[name] == m[props[name].list] && values[name].Many?
  {
  }

  lemma ShowsPut(props: Props, values: map<string, Value>, m: Meaning, name: string, h: Held, v: Value)
    requires Shows(props, values, m) && Comes(h, v, m)
    ensures Shows(props[name := h], values[name := v], m)
  {
  }

  lemma HoldsPut(cal: Props, name: string, h: Held, n: string, l: Values)
    ensures Holds(cal[name := h], n, l) <==> if n == name then h == List(l) else Holds(cal, n, l)
  {
  }

  /** A child that has not been merged holds none of the calendar's arrays. */
  lemma NotTheCalendars(cal: Props, kids: seq<Props>, shared: map<string, nat>, items: Items, k: nat, name: string,
                        l: Values, n: string)
    requires CalShared(cal, kids, shared, items) && Unmerged(kids, k, shared, items, name)
    requires l in items && KidHolds(kids, k, name, l)
    ensures !Holds(cal, n, l)
  {
    hide Unnested;
  }

  lemma TakesOverShares(cal: Props, kids: seq<Props>, shared: map<string, nat>, items: Items, k: nat, name: string)
    requires Sharing(cal, kids, shared, items) && Unmerged(kids, k, shared, items, name)
    requires name in kids[k] && (kids[k][name].List? ==> kids[k][name].list in items)
    requires name in cal ==> cal[name].Text?
    ensures Sharing(cal[name := kids[k][name]], kids, if kids[k][name].List? then shared[name := k] else shared, items)
  {
    var h := kids[k][name];
    var cal', shared' := cal[name := h], if h.List? then shared[name := k] else shared;
    assert name !in shared;
    assert SharedHeld(cal', kids, shared');
    hide SharedHeld, Unnested;
    forall l, n, o | l in items && Holds(cal', n, l) && Holds(cal', o, l) ensures n == o {
      HoldsPut(cal, name, h, n, l);
      HoldsPut(cal, name, h, o, l);
      if h == List(l) {
        KidHas(kids, k, name, l);
        NotTheCalendars(cal, kids, shared, items, k, name, l, n);
        NotTheCalendars(cal, kids, shared, items, k, name, l, o);
      }
    }
    forall l, n, j: nat, o | l in items && Holds(cal', n, l) && KidHolds(kids, j, o, l)
      ensures o == n && n in shared' && shared'[n] == j
    {
      HoldsPut(cal, name, h, n, l);
      if n == name { KidHas(kids, k, name, l); }
    }
    forall l, n | l in items && Holds(cal', n, l) ensures Unnested(l, items) {
      HoldsPut(cal, name, h, n, l);
      if n == name { KidHas(kids, k, name, l); }
    }
  }

  lemma KidHas(kids: seq<Props>, k: nat, name: string, l: Values)
    requires k < |kids| && name in kids[k] && kids[k][name] == List(l)
    ensures KidHolds(kids, k, name, l) && Holds(kids[k], name, l)
  {
  }

  /** The calendar takes over what the event holds. */
  lemma TakesOver(cal: Props, kids: seq<Props>, items: Items, m: Meaning, p: Parsed, k: nat, name: string)
    requires Same(cal, kids, items, m, p) && Unmerged(kids, k, p.shared, items, name)
    requires Truthy(p.children[k].props, name) && !Truthy(p.props, name)
    ensures name in kids[k] && Same(cal[name := kids[k][name]], kids, items, m, MergeName(p, k, name))
  {
    SameTruth(kids[k], p.children[k].props, m, items, name);
    SameTruth(cal, p.props, m, items, name);
    ShowsPut(cal, p.props, m, name, kids[k][name], p.children[k].props[name]);
    hide Shows, Sound, Sharing, Comes, Truthy, Unmerged;
    TakesOverShares(cal, kids, p.shared, items, k, name);
  }

  // ----- a new array -----

  lemma ShowsMore(props: Props, values: map<string, Value>, m: Meaning, both: Values, v: Value)
    requires Shows(props, values, m) && both !in m
    ensures Shows(props, values, m[both := v])
  {
  }

  lemma SoundMore(items: Items, m: Meaning, both: Values, hs: seq<Held>, vs: seq<Value>)
    requires Sound(items, m) && both !in items && AllCome(hs, vs, m)
    ensures Sound(items[both := hs], m[both := Many(vs)])
  {
  }

  lemma BecomesArrayShares(cal: Props, kids: seq<Props>, shared: map<string, nat>, items: Items, k: nat, name: string,
                           both: Values)
    requires Sharing(cal, kids, shared, items) && Unmerged(kids, k, shared, items, name)
    requires name in kids[k] && name in cal && cal[name].Text? && both !in items
    requires forall j: nat, n :: !KidHolds(kids, j, n, both)
    requires forall n :: !Holds(cal, n, both)
    requires forall l :: l in items ==> List(both) !in items[l]
    requires kids[k][name].List? ==> kids[k][name].list in items
    ensures Sharing(cal[name := List(both)], kids, shared, items[both := [cal[name], kids[k][name]]])
  {
    var h := List(both);
    var cal', more := cal[name := h], items[both := [cal[name], kids[k][name]]];
    assert name !in shared;
    assert SharedHeld(cal', kids, shared);
    hide SharedHeld;
    forall l, n, o | l in more && Holds(cal', n, l) && Holds(cal', o, l) ensures n == o {
      HoldsPut(cal, name, h, n, l);
      HoldsPut(cal, name, h, o, l);
    }
    forall l, n, j: nat, o | l in more && Holds(cal', n, l) && KidHolds(kids, j, o, l)
      ensures o == n && n in shared && shared[n] == j
    {
      HoldsPut(cal, name, h, n, l);
    }
    forall l, n | l in more && Holds(cal', n, l) ensures Unnested(l, more) {
      HoldsPut(cal, name, h, n, l);
      if l != both {
        assert Unnested(l, items);
        if kids[k][name] == List(l) {
          KidHas(kids, k, name, l);
          NotTheCalendars(cal, kids, shared, items, k, name, l, n);
        }
      }
    }
  }

  lemma HeldIsKnown(props: Props, values: map<string, Value>, m: Meaning, l: Values)
    requires Shows(props, values, m) && l !in m
    ensures forall n :: !Holds(props, n, l)
  {
  }

  lemma ItemIsKnown(items: Items, m: Meaning, l: Values)
    requires Sound(items, m) && l !in m
    ensures forall outer :: outer in items ==> List(l) !in items[outer]
  {
    forall outer | outer in items ensures List(l) !in items[outer] {
      assert AllCome(items[outer], m[outer].vs, m);
    }
  }

  /** Two plain values, or a plain one and an array, become a new array. */
  lemma BecomesArray(cal: Props, kids: seq<Props>, items: Items, m: Meaning, p: Parsed, k: nat, name: string, both: Values)
    returns (m': Meaning)
    requires Same(cal, kids, items, m, p) && Unmerged(kids, k, p.shared, items, name)
    requires Truthy(p.children[k].props, name) && Truthy(p.props, name) && name in cal && cal[name].Text?
    requires both !in items
    ensures name in kids[k]
    ensures Same(cal[name := List(both)], kids, items[both := [cal[name], kids[k][name]]], m', MergeName(p, k, name))
    ensures m'.Keys == m.Keys + {both}
  {
    SameTruth(kids[k], p.children[k].props, m, items, name);
    SameTruth(cal, p.props, m, items, name);
    var vs := [p.props[name], p.children[k].props[name]];
    m' := m[both := Many(vs)];
    assert AllCome([cal[name], kids[k][name]], vs, m);
    assert m.Keys == items.Keys;
    forall j: nat, n ensures !KidHolds(kids, j, n, both) {
      if j < |kids| { HeldIsKnown(kids[j], p.children[j].props, m, both); }
    }
    HeldIsKnown(cal, p.props, m, both);
    ItemIsKnown(items, m, both);
    SoundMore(items, m, both, [cal[name], kids[k][name]], vs);
    ShowsMore(cal, p.props, m, both, Many(vs));
    ShowsPut(cal, p.props, m', name, List(both), Many(vs));
    forall j | 0 <= j < |kids| ensures Shows(kids[j], p.children[j].props, m') {
      ShowsMore(kids[j], p.children[j].props, m, both, Many(vs));
    }
    BecomesArrayShares(cal, kids, p.shared, items, k, name, both);
    hide Shows, Sound, Sharing, Comes, Truthy, Unmerged;
  }

  // ----- one more in an array there is -----

  lemma ShowsLonger(props: Props, values: map<string, Value>, m: Meaning, l: Values, v: Value)
    requires Shows(props, values, m) && l in m && forall n :: !Holds(props, n, l)
    ensures Shows(props, values, m[l := v])
  {
    forall n | n in props ensures Comes(props[n], values[n], m[l := v]) {
      assert !Holds(props, n, l);
    }
  }

  lemma ShowsLongerAt(props: Props, values: map<string, Value>, m: Meaning, l: Values, v: Value, name: string)
    requires Shows(props, values, m) && l in m && Holds(props, name, l) && forall n :: Holds(props, n, l) ==> n == name
    ensures Shows(props, values[name := v], m[l := v])
  {
    forall n | n in props ensures Comes(props[n], values[name := v][n], m[l := v]) {
      if n != name { assert !Holds(props, n, l); }
    }
  }

  lemma SoundLonger(items: Items, m: Meaning, l: Values, h: Held, v: Value)
    requires Sound(items, m) && l in items && Unnested(l, items) && h != List(l) && Comes(h, v, m)
    ensures Sound(items[l := items[l] + [h]], m[l := Many(m[l].vs + [v])])
  {
    var m' := m[l := Many(m[l].vs + [v])];
    forall o | o in items ensures AllCome(items[l := items[l] + [h]][o], m'[o].vs, m') {
      assert AllCome(items[o], m[o].vs, m) && List(l) !in items[o];
    }
  }

  lemma PushesShare(cal: Props, kids: seq<Props>, shared: map<string, nat>, items: Items, k: nat, name: string)
    requires Sharing(cal, kids, shared, items) && Unmerged(kids, k, shared, items, name)
    requires name in kids[k] && name in cal && cal[name].List? && cal[name].list in items
    requires kids[k][name].List? ==> kids[k][name].list in items
    ensures kids[k][name] != cal[name]
    ensures Sharing(cal, kids, shared, items[cal[name].list := items[cal[name].list] + [kids[k][name]]])
  {
    var l := cal[name].list;
    assert Holds(cal, name, l);
    if kids[k][name].List? { assert KidHolds(kids, k, name, kids[k][name].list); }
    var more := items[l := items[l] + [kids[k][name]]];
    forall o, n | o in more && Holds(cal, n, o) ensures Unnested(o, more) {
      assert Unnested(o, items);
    }
    hide Unnested;
  }

  /** Who else holds the array that is pushed onto: the child `shared` names, and nobody. */
  lemma OthersHolding(cal: Props, kids: seq<Props>, shared: map<string, nat>, items: Items, name: string)
    requires Sharing(cal, kids, shared, items) && name in cal && cal[name].List? && cal[name].list in items
    ensures var l := cal[name].list;
            && (forall n :: Holds(cal, n, l) ==> n == name)
            && (forall j: nat, n :: KidHolds(kids, j, n, l) ==> n == name && name in shared && shared[name] == j)
            && (name in shared ==> KidHolds(kids, shared[name], name, l))
  {
    assert Holds(cal, name, cal[name].list);
    hide Unnested;
  }

  lemma PushedChildren(cal: Props, kids: seq<Props>, items: Items, m: Meaning, p: Parsed, name: string, v: Value)
    requires Same(cal, kids, items, m, p) && name in cal && cal[name].List? && cal[name].list in items
    requires name in p.props && p.props[name] == m[cal[name].list] && p.props[name].Many?
    ensures var longer := Many(p.props[name].vs + [v]);
            KidsShow(kids, Push(p, name, v).children, m[cal[name].list := longer])
  {
    OthersHolding(cal, kids, p.shared, items, name);
    var l, longer := cal[name].list, Many(p.props[name].vs + [v]);
    var children := Push(p, name, v).children;
    forall j | 0 <= j < |kids| ensures Shows(kids[j], children[j].props, m[l := longer]) {
      assert forall n :: KidHolds(kids, j, n, l) <==> Holds(kids[j], n, l);
      if name in p.shared && p.shared[name] == j {
        ShowsLongerAt(kids[j], p.children[j].props, m, l, longer, name);
      } else {
        ShowsLonger(kids[j], p.children[j].props, m, l, longer);
      }
    }
  }

  /** One more value in the calendar's array, and so in the event's that has the same one. */
  lemma Pushes(cal: Props, kids: seq<Props>, items: Items, m: Meaning, p: Parsed, k: nat, name: string)
    returns (m': Meaning)
    requires Same(cal, kids, items, m, p) && Unmerged(kids, k, p.shared, items, name)
    requires Truthy(p.children[k].props, name) && name in cal && cal[name].List?
    ensures name in kids[k] && cal[name].list in items
    ensures Same(cal, kids, items[cal[name].list := items[cal[name].list] + [kids[k][name]]], m', MergeName(p, k, name))
    ensures m'.Keys == m.Keys
  {
    SameTruth(kids[k], p.children[k].props, m, items, name);
    SameTruth(cal, p.props, m, items, name);
    var l, v := cal[name].list, p.children[k].props[name];
    m' := m[l := Many(m[l].vs + [v])];
    PushesShare(cal, kids, p.shared, items, k, name);
    OthersHolding(cal, kids, p.shared, items, name);
    assert Unnested(l, items) by { assert Holds(cal, name, l); }
    SoundLonger(items, m, l, kids[k][name], v);
    ShowsLongerAt(cal, p.props, m, l, Many(m[l].vs + [v]), name);
    PushedChildren(cal, kids, items, m, p, name, v);
    hide Shows, Sound, Sharing, Comes, Unmerged, KidsShow;
  }

  // ----- the event's other names -----

  /** These items, or an array grown by a plain value and what the event holds under `name`. */
  predicate GrownBy(items: Items, more: Items, held: Held) {
    forall o :: o in more ==> forall h :: h in more[o] ==> h.Text? || h == held || (o in items && h in items[o])
  }

  lemma PairGrows(items: Items, both: Values, plain: Held, held: Held)
    requires plain.Text?
    ensures GrownBy(items, items[both := [plain, held]], held)
  {
  }

  lemma PushGrows(items: Items, l: Values, held: Held)
    requires l in items
    ensures GrownBy(items, items[l := items[l] + [held]], held)
  {
  }

  lemma OtherStaysUnmerged(kids: seq<Props>, k: nat, shared: map<string, nat>, shared': map<string, nat>, items: Items,
                           more: Items, name: string, other: string)
    requires Unmerged(kids, k, shared, items, other) && OwnArrays(kids, items) && other != name
    requires name in kids[k] && GrownBy(items, more, kids[k][name])
    requires other in shared' ==> other in shared && shared[other] == shared'[other]
    requires other in kids[k] && kids[k][other].List? ==> kids[k][other].list in items
    ensures Unmerged(kids, k, shared', more, other)
  {
    forall l | l in more && Holds(kids[k], other, l) ensures Unnested(l, more) {
      KidHas(kids, k, other, l);
      if kids[k][name] == List(l) { KidHas(kids, k, name, l); }
    }
  }

  // ----- the objects -----

  ghost function ItemsOf(lists: set<Values>): (r: Items)
    reads lists
  {
    map l | l in lists :: l.items
  }

  ghost function PropsOf(children: seq<Component>): seq<Props>
    reads children
  {
    seq(|children|, i requires 0 <= i < |children| reads children => children[i].props)
  }

  /** The calendar, its children and the arrays they hold are what the parsed value says. */
  ghost predicate Stands(cal: Component, children: seq<Component>, m: Meaning, p: Parsed)
    reads cal, children, m.Keys
  {
    cal !in children && Same(cal.props, PropsOf(children), ItemsOf(m.Keys), m, p)
  }

  ghost predicate Awaits(children: seq<Component>, m: Meaning, p: Parsed, name: string)
    reads children, m.Keys
  {
    children != [] && Unmerged(PropsOf(children), |children| - 1, p.shared, ItemsOf(m.Keys), name)
  }

  /** Calendar and event have a value exactly where the values have one, and their arrays are known. */
  lemma BothHave(cal: Props, kids: seq<Props>, items: Items, m: Meaning, p: Parsed, k: nat, name: string)
    requires Same(cal, kids, items, m, p) && k < |kids|
    ensures items.Keys == m.Keys && k < |p.children|
    ensures Truthy(p.props, name) <==> name in cal && cal[name] != Text("")
    ensures Truthy(p.children[k].props, name) <==> name in kids[k] && kids[k][name] != Text("")
    ensures name in cal && cal[name].List? ==> cal[name].list in items
    ensures !Truthy(p.children[k].props, name) ==> MergeName(p, k, name) == p
  {
    SameTruth(cal, p.props, m, items, name);
    SameTruth(kids[k], p.children[k].props, m, items, name);
  }

  /** `MergeProperty`, seen from the calendar's properties, the children's and the arrays together. */
  method MergeSeen(parent: Component, event: Component, name: string, ghost children: seq<Component>,
                   ghost lists: set<Values>)
    requires parent !in children && event in children && parent.Pushed(name) <= lists
    modifies parent, lists
    ensures PropsOf(children) == old(PropsOf(children))
    ensures !event.Has(name) ==> parent.props == old(parent.props) && ItemsOf(lists) == old(ItemsOf(lists))
    ensures event.Has(name) && !old(parent.Has(name)) ==>
              parent.props == old(parent.props)[name := event.props[name]] && ItemsOf(lists) == old(ItemsOf(lists))
    ensures event.Has(name) && old(parent.Has(name)) && old(parent.props[name]).Text? ==>
              && name in parent.props && parent.props[name].List? && fresh(parent.props[name].list)
              && var both := parent.props[name].list;
                 && parent.props == old(parent.props)[name := List(both)]
                 && ItemsOf(lists + {both}) == old(ItemsOf(lists))[both := [old(parent.props[name]), event.props[name]]]
    ensures event.Has(name) && old(parent.Has(name)) && old(parent.props[name]).List? ==>
              && parent.props == old(parent.props)
              && var l := parent.props[name].list;
                 l in lists && ItemsOf(lists) == old(ItemsOf(lists))[l := old(ItemsOf(lists))[l] + [event.props[name]]]
  {
    ghost var items := ItemsOf(lists);
    assert event.Has(name) && parent.Has(name) && parent.props[name].List? ==>
             parent.props[name].list in parent.Pushed(name);
    MergeProperty(parent, event, name);
  }

  lemma SharesOnly(p: Parsed, k: nat, name: string, other: string)
    requires k < |p.children| && other != name
    ensures var s := MergeName(p, k, name).shared; other in s ==> other in p.shared && s[other] == p.shared[other]
  {
  }

  lemma OthersAwait(cal: Props, kids: seq<Props>, items: Items, m: Meaning, p: Parsed, k: nat, name: string, more: Items,
                    other: string)
    requires Same(cal, kids, items, m, p) && Unmerged(kids, k, p.shared, items, other) && other != name
    requires more == items || (name in kids[k] && GrownBy(items, more, kids[k][name]))
    ensures Unmerged(kids, k, MergeName(p, k, name).shared, more, other)
  {
    SharesOnly(p, k, name, other);
    SameTruth(kids[k], p.children[k].props, m, items, other);
    hide MergeName, Unnested, Shows, Sound, SharedHeld, CalOwn, CalShared, CalUnnested;
    if more != items {
      OtherStaysUnmerged(kids, k, p.shared, MergeName(p, k, name).shared, items, more, name, other);
    }
  }

  /** What one name does to the objects is what `MergeName` does to the values. */
  method MergeOne(parent: Component, event: Component, name: string, ghost children: seq<Component>, ghost m: Meaning,
                  ghost p: Parsed) returns (ghost m': Meaning)
    requires Stands(parent, children, m, p) && Awaits(children, m, p, name) && event == children[|children| - 1]
    modifies parent, m.Keys
    ensures m.Keys <= m'.Keys && fresh(m'.Keys - m.Keys)
    ensures Stands(parent, children, m', MergeName(p, |children| - 1, name))
    ensures forall other :: other != name && old(Awaits(children, m, p, other)) ==>
              Awaits(children, m', MergeName(p, |children| - 1, name), other)
  {
    ghost var k: nat := |children| - 1;
    ghost var cal, kids, items := parent.props, PropsOf(children), ItemsOf(m.Keys);
    BothHave(cal, kids, items, m, p, k, name);
    hide Same, Unmerged, MergeName, Truthy, ItemsOf, GrownBy;
    MergeSeen(parent, event, name, children, m.Keys);
    m' := m;
    if event.Has(name) {
      if !Truthy(p.props, name) {
        TakesOver(cal, kids, items, m, p, k, name);
      } else if cal[name].Text? {
        m' := BecomesArray(cal, kids, items, m, p, k, name, parent.props[name].list);
        PairGrows(items, parent.props[name].list, cal[name], kids[k][name]);
      } else {
        m' := Pushes(cal, kids, items, m, p, k, name);
        PushGrows(items, cal[name].list, kids[k][name]);
      }
    }
    ghost var more := ItemsOf(m'.Keys);
    forall other | other != name && old(Awaits(children, m, p, other))
      ensures Awaits(children, m', MergeName(p, k, name), other)
    {
      OthersAwait(cal, kids, items, m, p, k, name, more, other);
    }
  }

  /** `mergeEventProperties` on the objects is `MergeEvent` on the values, and leaves the two saying the same. */
  method MergeEventProperties(parent: Component, event: Component, ghost children: seq<Component>, ghost m: Meaning,
                              ghost p: Parsed) returns (ghost m': Meaning)
    requires Stands(parent, children, m, p) && children != [] && event == children[|children| - 1]
    requires forall name :: Awaits(children, m, p, name)
    modifies parent, m.Keys
    ensures m.Keys <= m'.Keys && fresh(m'.Keys - m.Keys)
    ensures Stands(parent, children, m', MergeEvent(p, |children| - 1))
  {
    assert |children| == |p.children|;
    hide Stands, Awaits, MergeName;
    var propertiesToMerge := ["RRULE", "EXDATE", "RDATE"];
    ghost var k: nat := |children| - 1;
    ghost var q := p;
    m' := m;
    for i := 0 to 3
      invariant m.Keys <= m'.Keys && fresh(m'.Keys - m.Keys)
      invariant |q.children| == |p.children| && Stands(parent, children, m', q)
      invariant forall name :: name !in propertiesToMerge[..i] ==> Awaits(children, m', q, name)
      invariant q == MergedFirst(p, k, i)
    {
      var propName := propertiesToMerge[i];
      assert propName !in propertiesToMerge[..i];
      assert propertiesToMerge[..i + 1] == propertiesToMerge[..i] + [propName];
      m' := MergeOne(parent, event, propName, children, m', q);
      q := MergeName(q, k, propName);
    }
    MergedAll(p, k);
  }

  lemma MergedAll(p: Parsed, k: nat)
    requires k < |p.children|
    ensures MergedFirst(p, k, 3) == MergeEvent(p, k)
  {
    hide MergeName;
    assert MergedFirst(p, k, 1) == MergeName(p, k, "RRULE");
    assert MergedFirst(p, k, 2) == MergeName(MergedFirst(p, k, 1), k, "EXDATE");
  }

  ghost function MergedFirst(p: Parsed, k: nat, i: nat): (q: Parsed)
    requires k < |p.children| && i <= 3
    ensures |q.children| == |p.children|
  {
    if i == 0 then p else MergeName(MergedFirst(p, k, i - 1), k, ["RRULE", "EXDATE", "RDATE"][i - 1])
  }
}
