/**
 * What the parsed calendar says, stated from the printed tree alone: when the reader
 * throws, the types, the nesting, and name by name whether the values come back.
 */
module ICalFaithful {
  import opened Outcomes
  import opened ICalendar
  import opened ICalRoundTrip

  // ----- what a component is given under a name -----

  predicate Merged(name: string) {
    name in {"RRULE", "EXDATE", "RDATE"}
  }

  predicate TakesOver(ctype: string, child: string, name: string) {
    ctype == "VCALENDAR" && child == "VEVENT" && Merged(name)
  }

  /** One line or one event's share: a string, or something that makes or is an array. */
  datatype Contribution = Text(s: string) | Array

  predicate AllEmpty(cs: seq<Contribution>) {
    forall i :: 0 <= i < |cs| ==> cs[i] == Text("")
  }

  /** Empty strings, if any, and then one string that is not: what leaves a bare string behind. */
  predicate Lone(cs: seq<Contribution>) {
    cs != [] && cs[|cs| - 1].Text? && cs[|cs| - 1].s != "" && AllEmpty(cs[..|cs| - 1])
  }

  /** What an event given all this hands up to its calendar. */
  function HandedUp(cs: seq<Contribution>): seq<Contribution> {
    if AllEmpty(cs) then [] else if Lone(cs) then [cs[|cs| - 1]] else [Array]
  }

  function Contributes(ctype: string, n: Node, name: string): seq<Contribution>
    decreases n, 0
  {
    match n
    case Prop(own, params, value) => if own != name then [] else if params == "" then [Text(value)] else [Array]
    case Comp(child, body) => if TakesOver(ctype, child, name) then HandedUp(Contributions(child, body, name)) else []
  }

  /** Everything a component is given under a name, in order. */
  function Contributions(ctype: string, nodes: seq<Node>, name: string): seq<Contribution>
    decreases nodes
  {
    if nodes == [] then []
    else
      var n := |nodes| - 1;
      Contributions(ctype, nodes[..n], name) + Contributes(ctype, nodes[n], name)
  }

  /**
   * Reading throws at a line with parameters when what came before under its name has left
   * a bare string, and inside a component when it throws there.
   */
  predicate ThrowsAt(ctype: string, nodes: seq<Node>, i: nat)
    requires i < |nodes|
    decreases nodes, 0
  {
    match nodes[i]
    case Prop(name, params, _) => name != "" && params != "" && Lone(Contributions(ctype, nodes[..i], name))
    case Comp(child, body) => Throws(child, body)
  }

  predicate Throws(ctype: string, nodes: seq<Node>)
    decreases nodes, 1
  {
    exists i :: 0 <= i < |nodes| && ThrowsAt(ctype, nodes, i)
  }

  // ----- printed and held values -----

  function Ones(values: seq<string>): (r: seq<Value>)
    ensures |r| == |values|
    ensures forall i :: 0 <= i < |values| ==> r[i] == One(values[i])
  {
    if values == [] then [] else Ones(values[..|values| - 1]) + [One(values[|values| - 1])]
  }

  /** The values held for a name, in order. */
  function Held(props: map<string, Value>, name: string): seq<Value> {
    if name !in props then []
    else
      match props[name]
      case One(s) => [One(s)]
      case Many(vs) => vs
  }

  /** The values printed for a name in a component, in order. */
  function ValuesOf(nodes: seq<Node>, name: string): seq<string> {
    if nodes == [] then []
    else
      var n := |nodes| - 1;
      ValuesOf(nodes[..n], name) + (if nodes[n].Prop? && nodes[n].name == name then [nodes[n].value] else [])
  }

  /** Nothing printed is dropped: a name given more than once is not given an empty string first. */
  predicate FirstKept(cs: seq<Contribution>) {
    |cs| <= 1 || cs[0] != Text("")
  }

  /** How many empty strings at the beginning are dropped. */
  function Dropped(cs: seq<Contribution>): nat {
    if |cs| <= 1 || cs[0] != Text("") then 0 else 1 + Dropped(cs[1..])
  }

  // ----- the array an event shares with its calendar -----

  /** Node `i` is the event whose own array the calendar takes for its own. */
  predicate Shares(ctype: string, nodes: seq<Node>, i: nat, name: string)
    requires i < |nodes|
  {
    nodes[i].Comp? && AllEmpty(Contributions(ctype, nodes[..i], name)) && Contributes(ctype, nodes[i], name) == [Array]
  }

  predicate UsedAfter(ctype: string, nodes: seq<Node>, i: nat, name: string) {
    exists j :: i < j < |nodes| && Contributes(ctype, nodes[j], name) != []
  }

  /**
   * An event's values under a name are changed after it was read: it is the first to give the
   * calendar any, it holds an array, and the calendar is given more afterwards.
   */
  predicate Altered(ctype: string, nodes: seq<Node>, i: nat, name: string)
    requires i < |nodes|
  {
    Shares(ctype, nodes, i, name) && UsedAfter(ctype, nodes, i, name)
  }

  function Comps(nodes: seq<Node>): nat {
    if nodes == [] then 0 else Comps(nodes[..|nodes| - 1]) + (if nodes[|nodes| - 1].Comp? then 1 else 0)
  }

  /**
   * The parsed component says what was printed: the same type, the same components in it,
   * and under every name the printed values, exactly when none was dropped and none came in
   * through the calendar. Names a calendar takes over are its events', not its own.
   */
  ghost predicate Faithful(p: Parsed, ctype: string, nodes: seq<Node>, altered: iset<string>)
    decreases nodes
  {
    && p.ctype == ctype
    && (forall name :: Watched(ctype, name) ==> ValuesComeBack(p, ctype, nodes, name, name in altered))
    && |p.children| == Comps(nodes)
    && (forall i :: 0 <= i < |nodes| && nodes[i].Comp? ==>
          && Comps(nodes[..i]) < |p.children|
          && Faithful(p.children[Comps(nodes[..i])], nodes[i].ctype, nodes[i].body,
                      iset name: string | Altered(ctype, nodes, i, name)))
  }

  predicate Watched(ctype: string, name: string) {
    name != "" && !(ctype == "VCALENDAR" && Merged(name))
  }

  predicate ValuesComeBack(p: Parsed, ctype: string, nodes: seq<Node>, name: string, altered: bool) {
    var kept := FirstKept(Contributions(ctype, nodes, name));
    kept || !altered ==> (Held(p.props, name) == Ones(ValuesOf(nodes, name)) <==> kept && !altered)
  }

  // ----- one thing more -----

  lemma {:induction false} AddAllSnoc(c: Parsed, nodes: seq<Node>, last: Node)
    ensures AddAll(c, nodes + [last])
         == if AddAll(c, nodes).None? then None else AddNode(AddAll(c, nodes).value, last)
    decreases nodes
  {
    hide AddNode;
    var all := nodes + [last];
    if nodes == [] {
      assert all == [last] && [last][1..] == [];
    } else {
      assert all[0] == nodes[0] && all[1..] == nodes[1..] + [last];
      if AddNode(c, nodes[0]).Some? { AddAllSnoc(AddNode(c, nodes[0]).value, nodes[1..], last); }
    }
  }

  lemma Snoc(ctype: string, nodes: seq<Node>)
    requires nodes != []
    ensures var before, last := nodes[..|nodes| - 1], nodes[|nodes| - 1];
            && (AddAll(Empty(ctype), nodes)
                == if AddAll(Empty(ctype), before).None? then None else AddNode(AddAll(Empty(ctype), before).value, last))
            && (AddAll(Empty(ctype), nodes).Some? ==> AddAll(Empty(ctype), nodes).value.ctype == ctype)
            && (AddAll(Empty(ctype), before).Some? ==> AddAll(Empty(ctype), before).value.ctype == ctype)
  {
    hide AddAll, AddNode;
    var before, last := nodes[..|nodes| - 1], nodes[|nodes| - 1];
    assert before + [last] == nodes;
    AddAllSnoc(Empty(ctype), before, last);
    AddAllType(Empty(ctype), before);
    AddAllType(Empty(ctype), nodes);
  }

  /** Two components agree about one name: its value, whose array it is, and every child's value. */
  predicate Agree(a: Parsed, b: Parsed, name: string) {
    && a.ctype == b.ctype && SameValue(a.props, b.props, name)
    && (name in a.shared <==> name in b.shared) && (name in a.shared ==> a.shared[name] == b.shared[name])
    && |a.children| == |b.children|
    && forall k :: 0 <= k < |a.children| ==> SameChild(a.children[k], b.children[k], name)
  }

  predicate SameValue(a: map<string, Value>, b: map<string, Value>, name: string) {
    (name in a <==> name in b) && (name in a ==> a[name] == b[name])
  }

  predicate SameChild(a: Parsed, b: Parsed, name: string) {
    a.ctype == b.ctype && a.children == b.children && a.shared == b.shared && SameValue(a.props, b.props, name)
  }

  lemma MergeOther(c: Parsed, k: nat, other: string, name: string)
    requires k < |c.children| && other != name
    ensures Agree(MergeName(c, k, other), c, name)
  {
  }

  lemma MergeAlike(a: Parsed, b: Parsed, k: nat, name: string)
    requires k < |a.children| && Agree(a, b, name)
    ensures Agree(MergeName(a, k, name), MergeName(b, k, name), name)
  {
    assert SameChild(a.children[k], b.children[k], name);
  }

  lemma AgreeTrans(a: Parsed, b: Parsed, c: Parsed, name: string)
    requires Agree(a, b, name) && Agree(b, c, name)
    ensures Agree(a, c, name)
  {
    forall k | 0 <= k < |a.children| ensures SameChild(a.children[k], c.children[k], name) {
      assert SameChild(a.children[k], b.children[k], name) && SameChild(b.children[k], c.children[k], name);
    }
  }

  /** Of the three names merged, each is merged as if it were the only one. */
  lemma MergeOne(d: Parsed, k: nat, name: string)
    requires k < |d.children|
    ensures Agree(MergeEvent(d, k), if Merged(name) then MergeName(d, k, name) else d, name)
  {
    hide MergeName, Agree;
    var a := MergeName(d, k, "RRULE");
    var b := MergeName(a, k, "EXDATE");
    var e := MergeName(b, k, "RDATE");
    if name == "RRULE" {
      MergeOther(a, k, "EXDATE", name);
      MergeOther(b, k, "RDATE", name);
      AgreeTrans(e, b, a, name);
    } else {
      MergeOther(d, k, "RRULE", name);
      if name == "EXDATE" {
        Lengths(a, d, k, name);
        MergeAlike(a, d, k, name);
        MergeOther(b, k, "RDATE", name);
        AgreeTrans(e, b, MergeName(d, k, name), name);
      } else {
        MergeOther(a, k, "EXDATE", name);
        AgreeTrans(b, a, d, name);
        if name == "RDATE" {
          Lengths(b, d, k, name);
          MergeAlike(b, d, k, name);
        } else {
          MergeOther(b, k, "RDATE", name);
          AgreeTrans(e, b, d, name);
        }
      }
    }
  }

  lemma Lengths(a: Parsed, b: Parsed, k: nat, name: string)
    requires Agree(a, b, name) && k < |b.children|
    ensures k < |a.children|
  {
  }

  // ----- how a name stands -----

  /** What is held for a name, told from what was given: nothing to speak of, a bare string, or an array. */
  predicate Shape(props: map<string, Value>, name: string, cs: seq<Contribution>) {
    && (AllEmpty(cs) <==> !Truthy(props, name))
    && (Lone(cs) <==> Truthy(props, name) && props[name].One?)
    && (Lone(cs) ==> name in props && props[name] == One(cs[|cs| - 1].s))
    && (cs == [] <==> name !in props)
  }

  lemma ShapeText(props: map<string, Value>, after: map<string, Value>, name: string, cs: seq<Contribution>, s: string)
    requires Shape(props, name, cs) && name in after
    requires after[name] == (if !Truthy(props, name) then One(s)
                             else if props[name].Many? then Many(props[name].vs + [One(s)])
                             else Many([props[name], One(s)]))
    ensures Shape(after, name, cs + [Text(s)])
  {
    var all := cs + [Text(s)];
    assert all[..|all| - 1] == cs && all[|all| - 1] == Text(s);
    assert AllEmpty(all) <==> AllEmpty(cs) && s == "";
  }

  lemma ShapeArray(props: map<string, Value>, after: map<string, Value>, name: string, cs: seq<Contribution>)
    requires Shape(props, name, cs) && name in after && after[name].Many?
    ensures Shape(after, name, cs + [Array])
  {
    var all := cs + [Array];
    assert all[|all| - 1] == Array;
  }

  lemma GivenSnoc(ctype: string, nodes: seq<Node>, name: string)
    requires nodes != []
    ensures Contributions(ctype, nodes, name)
         == Contributions(ctype, nodes[..|nodes| - 1], name) + Contributes(ctype, nodes[|nodes| - 1], name)
  {
  }

  /** What the next thing in a component does to one name of it. */
  lemma NodeShape(c: Parsed, n: Node, name: string, cs: seq<Contribution>)
    requires name != "" && Shape(c.props, name, cs) && AddNode(c, n).Some?
    requires n.Comp? ==> AddAll(Empty(n.ctype), n.body).Some?
                         && Shape(AddAll(Empty(n.ctype), n.body).value.props, name, Contributions(n.ctype, n.body, name))
                         && AddAll(Empty(n.ctype), n.body).value.ctype == n.ctype
    ensures Shape(AddNode(c, n).value.props, name, cs + Contributes(c.ctype, n, name))
  {
    assert cs + [] == cs;
    if n.Prop? {
      hide Shape;
      if n.name != name {
        PropOther(c, n, name);
        ShapeSame(c.props, AddNode(c, n).value.props, name, cs);
      } else if n.params == "" {
        PropText(c, n);
        ShapeText(c.props, AddNode(c, n).value.props, name, cs, n.value);
      } else {
        PropArray(c, n);
        ShapeArray(c.props, AddNode(c, n).value.props, name, cs);
      }
    } else {
      hide AddAll, Contributions;
      ChildShape(c, AddAll(Empty(n.ctype), n.body).value, name, cs, Contributions(n.ctype, n.body, name));
    }
  }

  lemma ShapeSame(a: map<string, Value>, b: map<string, Value>, name: string, cs: seq<Contribution>)
    requires SameValue(a, b, name) && Shape(a, name, cs)
    ensures Shape(b, name, cs)
  {
  }

  lemma PropOther(c: Parsed, n: Node, name: string)
    requires n.Prop? && n.name != name && AddNode(c, n).Some?
    ensures Agree(AddNode(c, n).value, c, name)
  {
  }

  lemma PropText(c: Parsed, n: Node)
    requires n.Prop? && n.name != "" && n.params == ""
    ensures AddNode(c, n).Some? && n.name in AddNode(c, n).value.props
    ensures AddNode(c, n).value.props[n.name]
         == (if !Truthy(c.props, n.name) then One(n.value)
             else if c.props[n.name].Many? then Many(c.props[n.name].vs + [One(n.value)])
             else Many([c.props[n.name], One(n.value)]))
  {
  }

  lemma PropArray(c: Parsed, n: Node)
    requires n.Prop? && n.name != "" && n.params != ""
    ensures AddNode(c, n).Some? <==> !(Truthy(c.props, n.name) && c.props[n.name].One?)
    ensures AddNode(c, n).Some? ==>
              && n.name in AddNode(c, n).value.props
              && AddNode(c, n).value.props[n.name]
                 == if Truthy(c.props, n.name) then Many(c.props[n.name].vs + [One(n.value)]) else Many([One(n.value)])
  {
  }

  /** What a component does to one name of the one it is in. */
  lemma ChildAgrees(c: Parsed, child: Parsed, name: string)
    ensures var d := c.(children := c.children + [child]);
            Agree(AddChild(c, child), if TakesOver(c.ctype, child.ctype, name) then MergeName(d, |c.children|, name) else d, name)
  {
    var d := c.(children := c.children + [child]);
    MergeOne(d, |c.children|, name);
    hide MergeEvent, MergeName;
  }

  lemma ChildShape(c: Parsed, child: Parsed, name: string, cs: seq<Contribution>, own: seq<Contribution>)
    requires Shape(c.props, name, cs) && Shape(child.props, name, own)
    ensures Shape(AddChild(c, child).props, name,
                  cs + (if TakesOver(c.ctype, child.ctype, name) then HandedUp(own) else []))
  {
    ChildAgrees(c, child, name);
    hide AddChild;
    assert cs + [] == cs;
    var d := c.(children := c.children + [child]);
    var after := AddChild(c, child).props;
    if TakesOver(c.ctype, child.ctype, name) && Truthy(child.props, name) {
      assert d.children[|c.children|] == child;
      var merged := MergeName(d, |c.children|, name).props;
      assert merged[name] == (if !Truthy(c.props, name) then child.props[name]
                              else if c.props[name].Many? then Many(c.props[name].vs + [child.props[name]])
                              else Many([c.props[name], child.props[name]]));
      hide MergeName;
      if child.props[name].One? {
        assert Lone(own) && own[|own| - 1] == Text(child.props[name].s);
        ShapeText(c.props, after, name, cs, child.props[name].s);
      } else {
        ShapeArray(c.props, after, name, cs);
      }
    }
  }

  // ----- when the reader throws -----

  lemma ThrowsSnoc(ctype: string, nodes: seq<Node>)
    requires nodes != []
    ensures Throws(ctype, nodes) <==> Throws(ctype, nodes[..|nodes| - 1]) || ThrowsAt(ctype, nodes, |nodes| - 1)
  {
    hide Contributions;
    var n := |nodes| - 1;
    forall i | 0 <= i < n ensures ThrowsAt(ctype, nodes[..n], i) <==> ThrowsAt(ctype, nodes, i) {
      assert nodes[..n][..i] == nodes[..i];
    }
  }

  ghost predicate AllShapes(c: Parsed, ctype: string, nodes: seq<Node>) {
    forall name :: name != "" ==> Shape(c.props, name, Contributions(ctype, nodes, name))
  }

  /** Both at once: whether reading throws, and how every name stands if it does not. */
  lemma {:induction false} Reads(ctype: string, nodes: seq<Node>)
    ensures AddAll(Empty(ctype), nodes).None? <==> Throws(ctype, nodes)
    ensures AddAll(Empty(ctype), nodes).Some? ==> AllShapes(AddAll(Empty(ctype), nodes).value, ctype, nodes)
    decreases nodes
  {
    if nodes == [] {
      hide Contributes;
    } else {
      var n := |nodes| - 1;
      var last := nodes[n];
      Reads(ctype, nodes[..n]);
      if last.Comp? { Reads(last.ctype, last.body); }
      Snoc(ctype, nodes);
      ThrowsSnoc(ctype, nodes);
      hide AddAll, Shape, Contributions, Throws;
      var c := AddAll(Empty(ctype), nodes[..n]);
      if c.Some? {
        NodeThrows(c.value, last, ctype, nodes);
        if AddNode(c.value, last).Some? {
          forall name | name != ""
            ensures Shape(AddNode(c.value, last).value.props, name, Contributions(ctype, nodes, name))
          {
            if last.Comp? { OwnShape(c.value, last, name); }
            NodeShape(c.value, last, name, Contributions(ctype, nodes[..n], name));
            GivenSnoc(ctype, nodes, name);
          }
        }
      }
    }
  }

  lemma OwnShape(c: Parsed, n: Node, name: string)
    requires n.Comp? && AddNode(c, n).Some?
    ensures AddAll(Empty(n.ctype), n.body).Some? && AddAll(Empty(n.ctype), n.body).value.ctype == n.ctype
  {
    AddAllType(Empty(n.ctype), n.body);
    hide AddAll;
  }

  lemma NodeThrows(c: Parsed, n: Node, ctype: string, nodes: seq<Node>)
    requires nodes != [] && n == nodes[|nodes| - 1]
    requires AllShapes(c, ctype, nodes[..|nodes| - 1])
    requires n.Comp? ==> (AddAll(Empty(n.ctype), n.body).None? <==> Throws(n.ctype, n.body))
    ensures AddNode(c, n).None? <==> ThrowsAt(ctype, nodes, |nodes| - 1)
  {
    hide AddAll, Throws, Contributions;
    if n.Prop? && n.name != "" {
      assert Shape(c.props, n.name, Contributions(ctype, nodes[..|nodes| - 1], n.name));
      if n.params == "" { PropText(c, n); } else { PropArray(c, n); }
    }
  }

  // ----- the values of a component's own names -----

  lemma OnesSnoc(values: seq<string>, v: string)
    ensures Ones(values + [v]) == Ones(values) + [One(v)]
  {
    assert (values + [v])[..|values|] == values;
  }

  lemma {:induction false} DroppedSnoc(cs: seq<Contribution>, c: Contribution)
    ensures Dropped(cs) <= |cs| && (cs != [] ==> Dropped(cs) < |cs|)
    ensures Dropped(cs + [c]) == if AllEmpty(cs) then |cs| else Dropped(cs)
    ensures Dropped(cs) == 0 <==> FirstKept(cs)
  {
    if cs == [] {
      assert cs + [c] == [c];
    } else {
      var rest := cs[1..];
      assert (cs + [c])[1..] == rest + [c];
      assert forall i :: 0 <= i < |rest| ==> rest[i] == cs[i + 1];
      DroppedSnoc(rest, c);
      assert AllEmpty(cs) <==> cs[0] == Text("") && AllEmpty(rest) by {
        if cs[0] == Text("") && AllEmpty(rest) {
          forall i | 0 <= i < |cs| ensures cs[i] == Text("") { if i > 0 { assert cs[i] == rest[i - 1]; } }
        }
      }
    }
  }

  /** The values held are the printed ones without the empty strings dropped in front. */
  predicate Kept(props: map<string, Value>, name: string, cs: seq<Contribution>, values: seq<string>) {
    |cs| == |values| && Dropped(cs) <= |values| && Held(props, name) == Ones(values)[Dropped(cs)..]
  }

  lemma OneMoreKept(props: map<string, Value>, after: map<string, Value>, name: string, cs: seq<Contribution>,
                    values: seq<string>, c: Contribution, v: string)
    requires Shape(props, name, cs) && Kept(props, name, cs, values)
    requires Held(after, name) == if Truthy(props, name) then Held(props, name) + [One(v)] else [One(v)]
    ensures Kept(after, name, cs + [c], values + [v])
  {
    OnesSnoc(values, v);
    DroppedSnoc(cs, c);
    var k := Dropped(cs);
    hide Ones, Dropped, Shape;
    assert Truthy(props, name) <==> !AllEmpty(cs) by { ShapeTruth(props, name, cs); }
    if Truthy(props, name) {
      assert (Ones(values) + [One(v)])[k..] == Ones(values)[k..] + [One(v)];
    } else {
      assert (Ones(values) + [One(v)])[|values|..] == [One(v)];
    }
  }

  lemma ShapeTruth(props: map<string, Value>, name: string, cs: seq<Contribution>)
    requires Shape(props, name, cs)
    ensures Truthy(props, name) <==> !AllEmpty(cs)
  {
  }

  lemma {:induction false} HeldExactly(ctype: string, nodes: seq<Node>, name: string)
    requires Watched(ctype, name) && AddAll(Empty(ctype), nodes).Some?
    ensures Kept(AddAll(Empty(ctype), nodes).value.props, name, Contributions(ctype, nodes, name), ValuesOf(nodes, name))
    decreases nodes
  {
    if nodes == [] {
      assert Ones([]) == [];
    } else {
      var n := |nodes| - 1;
      var last := nodes[n];
      Snoc(ctype, nodes);
      hide AddAll;
      var c := AddAll(Empty(ctype), nodes[..n]).value;
      HeldExactly(ctype, nodes[..n], name);
      Reads(ctype, nodes[..n]);
      assert Shape(c.props, name, Contributions(ctype, nodes[..n], name));
      GivenSnoc(ctype, nodes, name);
      if last.Prop? && last.name == name {
        if last.params == "" { PropText(c, last); } else { PropArray(c, last); }
        hide Contributions, AddNode, Shape, Ones, Kept;
        OneMoreKept(c.props, AddNode(c, last).value.props, name, Contributions(ctype, nodes[..n], name),
                    ValuesOf(nodes[..n], name), if last.params == "" then Text(last.value) else Array, last.value);
      } else {
        if last.Prop? { PropOther(c, last, name); } else { CompOther(c, last, name); }
        hide Contributions, AddNode, Shape, Ones, Dropped;
        var before := Contributions(ctype, nodes[..n], name);
        assert before + [] == before && ValuesOf(nodes[..n], name) + [] == ValuesOf(nodes[..n], name);
      }
    }
  }

  lemma CompOther(c: Parsed, n: Node, name: string)
    requires n.Comp? && AddNode(c, n).Some? && Watched(c.ctype, name)
    ensures SameValue(AddNode(c, n).value.props, c.props, name)
    ensures Contributes(c.ctype, n, name) == []
  {
    hide AddAll;
    ChildAgrees(c, AddAll(Empty(n.ctype), n.body).value, name);
    hide AddChild;
  }

  /** All printed values are held exactly when no empty string was dropped. */
  lemma ValuesComeBackExactly(ctype: string, nodes: seq<Node>, name: string)
    requires Watched(ctype, name) && AddAll(Empty(ctype), nodes).Some?
    ensures Held(AddAll(Empty(ctype), nodes).value.props, name) == Ones(ValuesOf(nodes, name))
       <==> FirstKept(Contributions(ctype, nodes, name))
  {
    HeldExactly(ctype, nodes, name);
    var cs, values := Contributions(ctype, nodes, name), ValuesOf(nodes, name);
    DroppedSnoc(cs, Array);
    hide AddAll, Contributions, ValuesOf, Held, Ones;
    assert Ones(values)[0..] == Ones(values);
  }

  // ----- what a calendar gathers from its events -----

  /** All strings in a value, in order, however deep in arrays. */
  function Strings(v: Value): seq<string>
    decreases v, 0
  {
    match v
    case One(s) => [s]
    case Many(vs) => StringsOf(vs)
  }

  function StringsOf(vs: seq<Value>): seq<string>
    decreases vs, 1
  {
    if vs == [] then [] else StringsOf(vs[..|vs| - 1]) + Strings(vs[|vs| - 1])
  }

  function StringsUnder(props: map<string, Value>, name: string): seq<string> {
    if name in props then Strings(props[name]) else []
  }

  /** What one line or one event brings: its value, or the event's values without the empty strings it dropped. */
  function Brought(n: Node, name: string): seq<string> {
    match n
    case Prop(_, _, value) => [value]
    case Comp(child, body) =>
      var values, k := ValuesOf(body, name), Dropped(Contributions(child, body, name));
      if k <= |values| then values[k..] else []
  }

  /** Everything brought, in order; what came before is dropped while it was empty strings only. */
  function Gathered(nodes: seq<Node>, name: string): seq<string> {
    if nodes == [] then []
    else
      var before, last := nodes[..|nodes| - 1], nodes[|nodes| - 1];
      if Contributes("VCALENDAR", last, name) == [] then Gathered(before, name)
      else
        (if AllEmpty(Contributions("VCALENDAR", before, name)) then [] else Gathered(before, name)) + Brought(last, name)
  }

  lemma StringsSnoc(vs: seq<Value>, v: Value)
    ensures StringsOf(vs + [v]) == StringsOf(vs) + Strings(v)
    ensures StringsOf([v]) == Strings(v)
  {
    assert (vs + [v])[..|vs|] == vs;
    assert [v][..0] == [] && [] + Strings(v) == Strings(v);
  }

  lemma {:induction false} StringsOfOnes(values: seq<string>)
    ensures StringsOf(Ones(values)) == values
  {
    if values != [] {
      var n := |values| - 1;
      StringsOfOnes(values[..n]);
      StringsSnoc(Ones(values[..n]), One(values[n]));
      assert values == values[..n] + [values[n]] && Ones(values) == Ones(values[..n]) + [One(values[n])];
      assert Strings(One(values[n])) == [values[n]];
      hide StringsOf, Ones, Strings;
    }
  }

  /** One value more under a name: the strings it holds come behind those held, if those count for anything. */
  lemma MoreStrings(before: map<string, Value>, after: map<string, Value>, name: string, v: Value)
    requires name in after
    requires after[name] == v || (v.One? && after[name] == Many([v])) || Truthy(before, name)
    requires Truthy(before, name) ==>
               after[name] == if before[name].Many? then Many(before[name].vs + [v]) else Many([before[name], v])
    ensures StringsUnder(after, name)
         == (if Truthy(before, name) then StringsUnder(before, name) else []) + Strings(v)
  {
    if Truthy(before, name) {
      if before[name].Many? {
        StringsSnoc(before[name].vs, v);
      } else {
        StringsSnoc([before[name]], v);
        StringsSnoc([], before[name]);
        assert [before[name]] + [v] == [before[name], v];
      }
    } else {
      StringsSnoc([], v);
      assert [] + Strings(v) == Strings(v);
    }
  }

  /** The strings an event hands up are those it brings. */
  lemma EventBrings(n: Node, name: string)
    requires n.Comp? && n.ctype == "VEVENT" && Merged(name) && AddAll(Empty(n.ctype), n.body).Some?
    ensures Brought(n, name) == StringsUnder(AddAll(Empty(n.ctype), n.body).value.props, name)
  {
    HeldExactly(n.ctype, n.body, name);
    var cs, values := Contributions(n.ctype, n.body, name), ValuesOf(n.body, name);
    var props, k := AddAll(Empty(n.ctype), n.body).value.props, Dropped(cs);
    hide AddAll, Contributions, ValuesOf, Dropped, Held, Ones, Strings, StringsOf, StringsUnder;
    HeldStrings(props, name);
    OnesFrom(values, k);
    StringsOfOnes(values[k..]);
  }

  lemma HeldStrings(props: map<string, Value>, name: string)
    ensures StringsUnder(props, name) == StringsOf(Held(props, name))
  {
    if name in props && props[name].One? { StringsSnoc([], props[name]); }
  }

  lemma OnesFrom(values: seq<string>, k: nat)
    requires k <= |values|
    ensures Ones(values)[k..] == Ones(values[k..])
  {
    hide Ones;
    var a, b := Ones(values)[k..], Ones(values[k..]);
    forall i | 0 <= i < |a| ensures a[i] == b[i] { assert b[i] == One(values[k..][i]); }
    assert a == b;
  }

  lemma EventGathered(c: Parsed, n: Node, name: string)
    requires c.ctype == "VCALENDAR" && n.Comp? && AddNode(c, n).Some? && Merged(name)
    requires n.ctype == "VEVENT" && Truthy(AddAll(Empty(n.ctype), n.body).value.props, name)
    ensures AddAll(Empty(n.ctype), n.body).Some?
    ensures StringsUnder(AddNode(c, n).value.props, name)
         == (if Truthy(c.props, name) then StringsUnder(c.props, name) else [])
            + StringsUnder(AddAll(Empty(n.ctype), n.body).value.props, name)
  {
    OwnShape(c, n, name);
    var child := AddAll(Empty(n.ctype), n.body).value;
    assert AddNode(c, n).value == AddChild(c, child);
    hide AddAll, Strings;
    ChildAgrees(c, child, name);
    var d := c.(children := c.children + [child]);
    var after := AddChild(c, child).props;
    hide AddChild;
    assert d.children[|c.children|] == child;
    assert SameValue(after, MergeName(d, |c.children|, name).props, name);
    MoreStrings(c.props, after, name, child.props[name]);
  }

  /**
   * What a calendar holds for the rules it takes over: under RRULE, EXDATE and RDATE the strings
   * of its own lines and of its events, all of them in order, but for the empty strings in front
   * that an event or the calendar itself dropped.
   */
  lemma {:induction false} GathersExactly(nodes: seq<Node>, name: string)
    requires Merged(name) && AddAll(Empty("VCALENDAR"), nodes).Some?
    ensures StringsUnder(AddAll(Empty("VCALENDAR"), nodes).value.props, name) == Gathered(nodes, name)
    decreases |nodes|
  {
    if nodes != [] {
      var n := |nodes| - 1;
      var before, last := nodes[..n], nodes[n];
      Snoc("VCALENDAR", nodes);
      hide AddAll;
      var c := AddAll(Empty("VCALENDAR"), before).value;
      GathersExactly(before, name);
      Reads("VCALENDAR", before);
      assert Shape(c.props, name, Contributions("VCALENDAR", before, name));
      ShapeTruth(c.props, name, Contributions("VCALENDAR", before, name));
      GatheredNode(c, last, name);
      hide AddNode, Contributions, Contributes, Brought, Strings, Shape;
    }
  }

  lemma GatheredNode(c: Parsed, n: Node, name: string)
    requires c.ctype == "VCALENDAR" && AddNode(c, n).Some? && Merged(name)
    ensures StringsUnder(AddNode(c, n).value.props, name)
         == if Contributes("VCALENDAR", n, name) == [] then StringsUnder(c.props, name)
            else (if Truthy(c.props, name) then StringsUnder(c.props, name) else []) + Brought(n, name)
  {
    hide Contributions, Strings, AddAll;
    if n.Prop? {
      if n.name != name {
        PropOther(c, n, name);
      } else {
        if n.params == "" { PropText(c, n); } else { PropArray(c, n); }
        MoreStrings(c.props, AddNode(c, n).value.props, name, One(n.value));
        OneString(n.value);
      }
    } else {
      OwnShape(c, n, name);
      var child := AddAll(Empty(n.ctype), n.body).value;
      if TakesOver(c.ctype, n.ctype, name) {
        Reads(n.ctype, n.body);
        HandsArray(child.props, name, Contributions(n.ctype, n.body, name));
        if Truthy(child.props, name) {
          EventGathered(c, n, name);
          EventBrings(n, name);
          return;
        }
      }
      NothingGathered(c, n, name);
    }
  }

  lemma OneString(s: string)
    ensures Strings(One(s)) == [s]
  {
  }

  lemma NothingGathered(c: Parsed, n: Node, name: string)
    requires n.Comp? && AddNode(c, n).Some? && AddAll(Empty(n.ctype), n.body).Some?
    requires AddAll(Empty(n.ctype), n.body).value.ctype == n.ctype
    requires TakesOver(c.ctype, n.ctype, name) ==> !Truthy(AddAll(Empty(n.ctype), n.body).value.props, name)
    ensures SameValue(AddNode(c, n).value.props, c.props, name)
  {
    hide AddAll;
    var child := AddAll(Empty(n.ctype), n.body).value;
    ChildAgrees(c, child, name);
    hide AddChild;
    assert (c.children + [child])[|c.children|] == child;
  }

  /** The value of one line under a name, or the values of one event. */
  function PrintedBy(n: Node, name: string): seq<string> {
    if n.Prop? then (if n.name == name then [n.value] else [])
    else if n.ctype == "VEVENT" then ValuesOf(n.body, name) else []
  }

  /** The values printed under a name in a calendar and in its events, in order. */
  function PrintedUnder(nodes: seq<Node>, name: string): seq<string> {
    if nodes == [] then [] else PrintedUnder(nodes[..|nodes| - 1], name) + PrintedBy(nodes[|nodes| - 1], name)
  }

  predicate NoneEmpty(values: seq<string>) {
    forall i :: 0 <= i < |values| ==> values[i] != ""
  }

  /** In particular all of them, if none is empty. */
  lemma CalendarHoldsAll(nodes: seq<Node>, name: string)
    requires Merged(name) && AddAll(Empty("VCALENDAR"), nodes).Some? && NoneEmpty(PrintedUnder(nodes, name))
    ensures StringsUnder(AddAll(Empty("VCALENDAR"), nodes).value.props, name) == PrintedUnder(nodes, name)
  {
    GathersExactly(nodes, name);
    hide AddAll;
    NothingDropped(nodes, name);
  }

  lemma {:induction false} OwnPrinted(ctype: string, nodes: seq<Node>, name: string)
    requires ctype == "VEVENT" && NoneEmpty(ValuesOf(nodes, name))
    ensures var cs := Contributions(ctype, nodes, name);
            |cs| == |ValuesOf(nodes, name)| && (cs != [] ==> !AllEmpty(cs) && cs[0] != Text(""))
    decreases |nodes|
  {
    if nodes != [] {
      var n := |nodes| - 1;
      var before := ValuesOf(nodes[..n], name);
      assert forall i :: 0 <= i < |before| ==> before[i] == ValuesOf(nodes, name)[i];
      OwnPrinted(ctype, nodes[..n], name);
      var earlier, given := Contributions(ctype, nodes[..n], name), Contributes(ctype, nodes[n], name);
      assert Contributions(ctype, nodes, name) == earlier + given;
      if nodes[n].Prop? && nodes[n].name == name {
        assert ValuesOf(nodes, name)[|before|] == nodes[n].value;
        assert given[0] != Text("");
        AllEmptyParts(earlier, given);
      } else {
        assert given == [] && earlier + given == earlier;
      }
    }
  }

  lemma NoneEmptyParts(a: seq<string>, b: seq<string>)
    requires NoneEmpty(a + b)
    ensures NoneEmpty(a) && NoneEmpty(b)
  {
    assert forall i :: 0 <= i < |a| ==> (a + b)[i] == a[i];
    assert forall i :: 0 <= i < |b| ==> (a + b)[|a| + i] == b[i];
  }

  lemma {:induction false} NothingDropped(nodes: seq<Node>, name: string)
    requires Merged(name) && NoneEmpty(PrintedUnder(nodes, name))
    ensures Gathered(nodes, name) == PrintedUnder(nodes, name)
    ensures AllEmpty(Contributions("VCALENDAR", nodes, name)) ==> PrintedUnder(nodes, name) == []
    decreases |nodes|
  {
    if nodes != [] {
      hide Contributes, PrintedBy, Brought, NoneEmpty, AllEmpty, Merged;
      var n := |nodes| - 1;
      var last, before := nodes[n], PrintedUnder(nodes[..n], name);
      NoneEmptyParts(before, PrintedBy(last, name));
      NothingDropped(nodes[..n], name);
      BroughtInFull(last, name);
      var earlier, given := Contributions("VCALENDAR", nodes[..n], name), Contributes("VCALENDAR", last, name);
      AllEmptyParts(earlier, given);
      NotAllEmpty(given);
      hide Contributions, PrintedUnder;
      assert [] + PrintedBy(last, name) == PrintedBy(last, name) && before + [] == before;
    }
  }

  lemma NotAllEmpty(cs: seq<Contribution>)
    ensures cs != [] && cs[0] != Text("") ==> !AllEmpty(cs)
  {
  }

  lemma AllEmptyParts(a: seq<Contribution>, b: seq<Contribution>)
    ensures AllEmpty(a + b) ==> AllEmpty(a) && AllEmpty(b)
  {
    if AllEmpty(a + b) {
      assert forall i :: 0 <= i < |a| ==> (a + b)[i] == a[i];
      assert forall i :: 0 <= i < |b| ==> (a + b)[|a| + i] == b[i];
    }
  }

  lemma BroughtInFull(n: Node, name: string)
    requires Merged(name) && NoneEmpty(PrintedBy(n, name))
    ensures var given := Contributes("VCALENDAR", n, name);
            if given == [] then PrintedBy(n, name) == []
            else Brought(n, name) == PrintedBy(n, name) && given[0] != Text("")
  {
    if n.Comp? && n.ctype == "VEVENT" {
      OwnPrinted(n.ctype, n.body, name);
      var cs := Contributions(n.ctype, n.body, name);
      hide Contributions, ValuesOf;
      DroppedSnoc(cs, Array);
    } else if n.Prop? && n.name == name {
      assert PrintedBy(n, name)[0] == n.value;
    }
  }

  // ----- the arrays a calendar shares with its events -----

  /** If the calendar's array for this name is a child's, it is that: one array under both. */
  predicate OneArray(c: Parsed, name: string) {
    name in c.shared ==>
      && c.shared[name] < |c.children|
      && name in c.props && c.props[name].Many?
      && name in c.children[c.shared[name]].props && c.children[c.shared[name]].props[name] == c.props[name]
  }

  /** The longer list is the other with something behind it, exactly when there is more. */
  predicate Extends(longer: seq<Value>, list: seq<Value>, more: bool) {
    |list| <= |longer| && longer[..|list|] == list && (|longer| > |list| <==> more)
  }

  /** What one step does to the children, as far as one name is concerned. */
  predicate Effect(c: Parsed, e: Parsed, name: string, cs: seq<Contribution>) {
    && OneArray(e, name) && |c.children| <= |e.children|
    && (forall k :: 0 <= k < |c.children| && !(name in c.shared && c.shared[name] == k) ==>
          SameChild(e.children[k], c.children[k], name))
    && (name in c.shared ==>
          && c.shared[name] < |c.children|
          && name in e.shared && e.shared[name] == c.shared[name]
          && SameButValues(e.children[c.shared[name]], c.children[c.shared[name]])
          && Extends(Held(e.props, name), Held(c.props, name), cs != []))
  }

  predicate SameButValues(a: Parsed, b: Parsed) {
    a.ctype == b.ctype && a.children == b.children && a.shared == b.shared
  }

  lemma PropEffect(c: Parsed, n: Node, name: string)
    requires name != "" && n.Prop? && AddNode(c, n).Some? && OneArray(c, name)
    ensures var e := AddNode(c, n).value;
            Effect(c, e, name, Contributes(c.ctype, n, name)) && (name in e.shared <==> name in c.shared)
            && |e.children| == |c.children|
  {
    if n.name != name {
      PropOther(c, n, name);
      var e := AddNode(c, n).value;
      hide AddNode;
      forall k | 0 <= k < |c.children| ensures SameChild(e.children[k], c.children[k], name) {}
    } else if name in c.shared {
      var e := AddNode(c, n).value;
      assert e == Push(c, name, One(n.value));
      assert e.props[name] == Many(c.props[name].vs + [One(n.value)]);
    }
  }

  lemma ChildEffect(c: Parsed, child: Parsed, name: string, own: seq<Contribution>)
    requires OneArray(c, name) && Shape(child.props, name, own)
    ensures var e := AddChild(c, child);
            var cs := if TakesOver(c.ctype, child.ctype, name) then HandedUp(own) else [];
            && Effect(c, e, name, cs) && |e.children| == |c.children| + 1
            && SameChild(e.children[|c.children|], child, name)
            && (name !in c.shared ==>
                  && (name in e.shared <==> !Truthy(c.props, name) && cs == [Array])
                  && (name in e.shared ==> e.shared[name] == |c.children|))
  {
    ChildAgrees(c, child, name);
    var d := c.(children := c.children + [child]);
    var m := if TakesOver(c.ctype, child.ctype, name) then MergeName(d, |c.children|, name) else d;
    MergeEffect(c, child, name, own);
    var e := AddChild(c, child);
    hide AddChild, MergeName, Shape;
    AgreeEffect(c, e, m, name, if TakesOver(c.ctype, child.ctype, name) then HandedUp(own) else []);
    assert SameChild(e.children[|c.children|], m.children[|c.children|], name);
  }

  lemma AgreeEffect(c: Parsed, e: Parsed, m: Parsed, name: string, cs: seq<Contribution>)
    requires Agree(e, m, name) && Effect(c, m, name, cs)
    ensures Effect(c, e, name, cs)
  {
    forall k | 0 <= k < |c.children| && !(name in c.shared && c.shared[name] == k)
      ensures SameChild(e.children[k], c.children[k], name)
    {
      assert SameChild(e.children[k], m.children[k], name) && SameChild(m.children[k], c.children[k], name);
    }
    if name in e.shared { assert SameChild(e.children[e.shared[name]], m.children[e.shared[name]], name); }
    if name in c.shared { assert SameChild(e.children[c.shared[name]], m.children[c.shared[name]], name); }
  }

  lemma MergeEffect(c: Parsed, child: Parsed, name: string, own: seq<Contribution>)
    requires OneArray(c, name) && Shape(child.props, name, own)
    ensures var d := c.(children := c.children + [child]);
            var takes := TakesOver(c.ctype, child.ctype, name);
            var m := if takes then MergeName(d, |c.children|, name) else d;
            var cs := if takes then HandedUp(own) else [];
            && Effect(c, m, name, cs) && |m.children| == |c.children| + 1
            && SameChild(m.children[|c.children|], child, name)
            && (name !in c.shared ==>
                  && (name in m.shared <==> !Truthy(c.props, name) && cs == [Array])
                  && (name in m.shared ==> m.shared[name] == |c.children|))
  {
    var d := c.(children := c.children + [child]);
    var takes := TakesOver(c.ctype, child.ctype, name);
    var m := if takes then MergeName(d, |c.children|, name) else d;
    assert d.children[|c.children|] == child;
    assert forall k :: 0 <= k < |c.children| ==> d.children[k] == c.children[k];
    if takes {
      HandsArray(child.props, name, own);
      if Truthy(child.props, name) && name in c.shared {
        assert m == Push(d, name, child.props[name]);
        assert m.props[name] == Many(c.props[name].vs + [child.props[name]]);
      }
    }
    hide Shape;
  }

  lemma HandsArray(props: map<string, Value>, name: string, own: seq<Contribution>)
    requires Shape(props, name, own)
    ensures HandedUp(own) == [] <==> !Truthy(props, name)
    ensures HandedUp(own) == [Array] <==> Truthy(props, name) && props[name].Many?
  {
  }

  lemma {:induction false} CompsBound(nodes: seq<Node>, i: nat)
    requires i < |nodes| && nodes[i].Comp?
    ensures Comps(nodes[..i]) < Comps(nodes)
  {
    var n := |nodes| - 1;
    if i < n {
      CompsBound(nodes[..n], i);
      assert nodes[..n][..i] == nodes[..i];
    }
  }

  lemma {:induction false} CompsDiffer(nodes: seq<Node>, i: nat, j: nat)
    requires i < j < |nodes| && nodes[i].Comp?
    ensures Comps(nodes[..i]) < Comps(nodes[..j])
  {
    CompsBound(nodes[..j], i);
    assert nodes[..j][..i] == nodes[..i];
  }

  /** The calendar's array is an event's exactly when the tree says so, and it is that event's. */
  ghost predicate SharedRightly(p: Parsed, ctype: string, nodes: seq<Node>, name: string) {
    && OneArray(p, name) && |p.children| == Comps(nodes)
    && (forall i :: 0 <= i < |nodes| && Shares(ctype, nodes, i, name) ==>
          name in p.shared && p.shared[name] == Comps(nodes[..i]))
    && (name in p.shared ==> exists i :: 0 <= i < |nodes| && Shares(ctype, nodes, i, name))
  }

  /** Child for node `i`: as it was read, but for the name whose array it shares. */
  ghost predicate ChildStands(p: Parsed, ctype: string, nodes: seq<Node>, i: nat, name: string)
    requires i < |nodes| && nodes[i].Comp?
  {
    var k := Comps(nodes[..i]);
    var own := AddAll(Empty(nodes[i].ctype), nodes[i].body);
    && k < |p.children| && own.Some? && SameButValues(p.children[k], own.value)
    && Extends(Held(p.children[k].props, name), Held(own.value.props, name), Altered(ctype, nodes, i, name))
  }

  lemma SharesBefore(ctype: string, nodes: seq<Node>, i: nat, name: string)
    requires i + 1 < |nodes|
    ensures var before := nodes[..|nodes| - 1];
            && (Shares(ctype, nodes, i, name) <==> Shares(ctype, before, i, name))
            && (UsedAfter(ctype, nodes, i, name) <==>
                  UsedAfter(ctype, before, i, name) || Contributes(ctype, nodes[|nodes| - 1], name) != [])
  {
    hide Contributions, Contributes;
    var n := |nodes| - 1;
    assert nodes[..n][..i] == nodes[..i];
    if UsedAfter(ctype, nodes[..n], i, name) {
      var j :| i < j < n && Contributes(ctype, nodes[..n][j], name) != [];
      assert Contributes(ctype, nodes[j], name) != [];
    }
    if UsedAfter(ctype, nodes, i, name) {
      var j :| i < j < |nodes| && Contributes(ctype, nodes[j], name) != [];
      if j < n { assert Contributes(ctype, nodes[..n][j], name) != []; }
    }
  }

  /** After the event that shares its array something is held. */
  lemma {:induction false} SharesFills(ctype: string, nodes: seq<Node>, i: nat, name: string)
    requires i < |nodes| && Shares(ctype, nodes, i, name)
    ensures !AllEmpty(Contributions(ctype, nodes, name))
  {
    var n := |nodes| - 1;
    GivenSnoc(ctype, nodes, name);
    hide Contributes;
    if i < n {
      SharesBefore(ctype, nodes, i, name);
      SharesFills(ctype, nodes[..n], i, name);
      var before := Contributions(ctype, nodes[..n], name);
      var j :| 0 <= j < |before| && before[j] != Text("");
      assert Contributions(ctype, nodes, name)[j] == before[j];
    } else {
      assert Contributions(ctype, nodes, name)[|Contributions(ctype, nodes[..n], name)|] == Array;
    }
  }

  /** The effect of the last thing in a component on one name, told from the tree. */
  lemma LastEffect(ctype: string, nodes: seq<Node>, name: string)
    requires nodes != [] && name != "" && AddAll(Empty(ctype), nodes).Some?
    requires AddAll(Empty(ctype), nodes[..|nodes| - 1]).Some?
    requires OneArray(AddAll(Empty(ctype), nodes[..|nodes| - 1]).value, name)
    ensures var c, e, last := AddAll(Empty(ctype), nodes[..|nodes| - 1]).value, AddAll(Empty(ctype), nodes).value, nodes[|nodes| - 1];
            && Effect(c, e, name, Contributes(ctype, last, name))
            && |e.children| == |c.children| + (if last.Comp? then 1 else 0)
            && (last.Comp? ==>
                  && AddAll(Empty(last.ctype), last.body).Some?
                  && SameChild(e.children[|c.children|], AddAll(Empty(last.ctype), last.body).value, name))
            && (name !in c.shared ==>
                  && (name in e.shared <==> Shares(ctype, nodes, |nodes| - 1, name))
                  && (name in e.shared ==> e.shared[name] == |c.children|))
  {
    Snoc(ctype, nodes);
    var n := |nodes| - 1;
    var c, last := AddAll(Empty(ctype), nodes[..n]).value, nodes[n];
    Reads(ctype, nodes[..n]);
    assert Shape(c.props, name, Contributions(ctype, nodes[..n], name));
    ShapeTruth(c.props, name, Contributions(ctype, nodes[..n], name));
    if last.Prop? {
      hide AddAll;
      PropEffect(c, last, name);
    } else {
      OwnShape(c, last, name);
      Reads(last.ctype, last.body);
      hide AddAll;
      var child := AddAll(Empty(last.ctype), last.body).value;
      ChildEffect(c, child, name, Contributions(last.ctype, last.body, name));
      hide AddChild;
    }
  }

  lemma {:induction false} Sharing(ctype: string, nodes: seq<Node>, name: string)
    requires name != "" && AddAll(Empty(ctype), nodes).Some?
    ensures SharedRightly(AddAll(Empty(ctype), nodes).value, ctype, nodes, name)
    decreases |nodes|
  {
    if nodes != [] {
      var n := |nodes| - 1;
      Snoc(ctype, nodes);
      hide AddAll, AddNode, Contributions, Contributes;
      Sharing(ctype, nodes[..n], name);
      LastEffect(ctype, nodes, name);
      var c, e := AddAll(Empty(ctype), nodes[..n]).value, AddAll(Empty(ctype), nodes).value;
      hide Effect, OneArray;
      SharedStep(c, e, ctype, nodes, name);
    }
  }

  lemma SharedStep(c: Parsed, e: Parsed, ctype: string, nodes: seq<Node>, name: string)
    requires nodes != [] && SharedRightly(c, ctype, nodes[..|nodes| - 1], name)
    requires var last := nodes[|nodes| - 1];
             && Effect(c, e, name, Contributes(ctype, last, name))
             && |e.children| == |c.children| + (if last.Comp? then 1 else 0)
             && (name !in c.shared ==>
                   && (name in e.shared <==> Shares(ctype, nodes, |nodes| - 1, name))
                   && (name in e.shared ==> e.shared[name] == |c.children|))
    ensures SharedRightly(e, ctype, nodes, name)
  {
    var n := |nodes| - 1;
    hide Contributions, Contributes;
    forall i | 0 <= i < |nodes| && Shares(ctype, nodes, i, name)
      ensures name in e.shared && e.shared[name] == Comps(nodes[..i])
    {
      if i < n {
        SharesBefore(ctype, nodes, i, name);
        assert nodes[..n][..i] == nodes[..i];
      } else if name in c.shared {
        var j :| 0 <= j < n && Shares(ctype, nodes[..n], j, name);
        SharesFills(ctype, nodes[..n], j, name);
      }
    }
    if name in e.shared {
      if name in c.shared {
        var j :| 0 <= j < n && Shares(ctype, nodes[..n], j, name);
        SharesBefore(ctype, nodes, j, name);
        assert Shares(ctype, nodes, j, name);
      } else {
        assert Shares(ctype, nodes, n, name);
      }
    }
  }

  /** Every event comes out as it was read, but for the arrays that are altered; those hold more. */
  lemma {:induction false} ChildComesOut(ctype: string, nodes: seq<Node>, i: nat, name: string)
    requires name != "" && AddAll(Empty(ctype), nodes).Some? && i < |nodes| && nodes[i].Comp?
    ensures ChildStands(AddAll(Empty(ctype), nodes).value, ctype, nodes, i, name)
    decreases |nodes|
  {
    var n := |nodes| - 1;
    Snoc(ctype, nodes);
    hide AddAll, AddNode, Contributions, Contributes;
    Sharing(ctype, nodes[..n], name);
    Sharing(ctype, nodes, name);
    LastEffect(ctype, nodes, name);
    var c, e := AddAll(Empty(ctype), nodes[..n]).value, AddAll(Empty(ctype), nodes).value;
    if i == n {
      hide Effect, OneArray, Shares;
      assert !UsedAfter(ctype, nodes, n, name);
    } else {
      ChildComesOut(ctype, nodes[..n], i, name);
      ChildStep(c, e, ctype, nodes, i, name);
    }
  }

  lemma ChildStep(c: Parsed, e: Parsed, ctype: string, nodes: seq<Node>, i: nat, name: string)
    requires i + 1 < |nodes| && nodes[i].Comp? && SharedRightly(c, ctype, nodes[..|nodes| - 1], name)
    requires ChildStands(c, ctype, nodes[..|nodes| - 1], i, name)
    requires Effect(c, e, name, Contributes(ctype, nodes[|nodes| - 1], name))
    ensures ChildStands(e, ctype, nodes, i, name)
  {
    hide AddAll, Contributions, Contributes;
    var n := |nodes| - 1;
    assert nodes[..n][..i] == nodes[..i];
    SharesBefore(ctype, nodes, i, name);
    var k := Comps(nodes[..i]);
    if name in c.shared && c.shared[name] == k {
      var j :| 0 <= j < n && Shares(ctype, nodes[..n], j, name);
      if j < i { CompsDiffer(nodes[..n], j, i); } else if i < j { CompsDiffer(nodes[..n], i, j); }
      assert nodes[..n][..j] == nodes[..j];
      assert j == i;
    }
    hide Shares, UsedAfter;
  }

  /**
   * An event's values under a name are, in the parsed calendar, those read in the event
   * itself, exactly when the tree does not alter them.
   */
  lemma EventKeepsExactly(nodes: seq<Node>, i: nat, name: string)
    requires name != "" && AddAll(Empty("VCALENDAR"), nodes).Some? && i < |nodes| && nodes[i].Comp?
    ensures Comps(nodes[..i]) < |AddAll(Empty("VCALENDAR"), nodes).value.children|
    ensures AddAll(Empty(nodes[i].ctype), nodes[i].body).Some?
    ensures Held(AddAll(Empty("VCALENDAR"), nodes).value.children[Comps(nodes[..i])].props, name)
         == Held(AddAll(Empty(nodes[i].ctype), nodes[i].body).value.props, name)
       <==> !Altered("VCALENDAR", nodes, i, name)
  {
    ChildComesOut("VCALENDAR", nodes, i, name);
    hide AddAll, Held;
  }

  /** Two events: the first one's only exception date, given with parameters, is no longer all it holds. */
  lemma TwoEventsAlter(params: string, a: string, b: string)
    requires params != "" && b != ""
    ensures Altered("VCALENDAR", [Comp("VEVENT", [Prop("EXDATE", params, a)]), Comp("VEVENT", [Prop("EXDATE", "", b)])],
                    0, "EXDATE")
  {
    var one, two := [Prop("EXDATE", params, a)], [Prop("EXDATE", "", b)];
    var nodes := [Comp("VEVENT", one), Comp("VEVENT", two)];
    OneLine(params, a);
    OneLine("", b);
    OneHandedUp(Array);
    OneHandedUp(Text(b));
    hide Contributions, HandedUp;
    assert Contributes("VCALENDAR", nodes[0], "EXDATE") == [Array];
    assert Contributes("VCALENDAR", nodes[1], "EXDATE") == [Text(b)];
    hide Contributes;
    NothingGiven(nodes);
  }

  lemma OneHandedUp(c: Contribution)
    requires c != Text("")
    ensures HandedUp([c]) == [c]
  {
    var cs := [c];
    assert cs[0] == c && cs[..0] == [];
  }

  lemma OneLine(params: string, value: string)
    ensures Contributions("VEVENT", [Prop("EXDATE", params, value)], "EXDATE")
         == if params == "" then [Text(value)] else [Array]
  {
    var line := [Prop("EXDATE", params, value)];
    assert line[..0] == [];
    assert Contributions("VEVENT", line, "EXDATE") == [] + Contributes("VEVENT", line[0], "EXDATE");
  }

  lemma NothingGiven(nodes: seq<Node>)
    ensures Contributions("VCALENDAR", nodes[..0], "EXDATE") == []
  {
    hide Contributes;
  }

  // ----- the round trip -----

  /** A component whose lists are those read, longer where altered, says what was printed. */
  lemma {:induction false} SaysWhatWasPrinted(p: Parsed, ctype: string, nodes: seq<Node>, altered: iset<string>)
    requires AddAll(Empty(ctype), nodes).Some? && SameButValues(p, AddAll(Empty(ctype), nodes).value)
    requires forall name :: name != "" ==>
               Extends(Held(p.props, name), Held(AddAll(Empty(ctype), nodes).value.props, name), name in altered)
    ensures Faithful(p, ctype, nodes, altered)
    decreases nodes
  {
    var own := AddAll(Empty(ctype), nodes).value;
    AddAllType(Empty(ctype), nodes);
    hide AddAll, Contributions, Contributes, Held, ValuesOf, FirstKept, Extends;
    forall name | Watched(ctype, name) ensures ValuesComeBack(p, ctype, nodes, name, name in altered) {
      ValuesComeBackExactly(ctype, nodes, name);
      NameComesBack(p, own, ctype, nodes, name, name in altered);
    }
    Sharing(ctype, nodes, "RRULE");
    forall i | 0 <= i < |nodes| && nodes[i].Comp?
      ensures Comps(nodes[..i]) < |p.children|
      ensures Faithful(p.children[Comps(nodes[..i])], nodes[i].ctype, nodes[i].body,
                       iset name: string | Altered(ctype, nodes, i, name))
    {
      var k := Comps(nodes[..i]);
      ChildComesOut(ctype, nodes, i, "RRULE");
      var child, theirs := p.children[k], iset name: string | Altered(ctype, nodes, i, name);
      forall name | name != ""
        ensures Extends(Held(child.props, name), Held(AddAll(Empty(nodes[i].ctype), nodes[i].body).value.props, name),
                        name in theirs)
      {
        ChildComesOut(ctype, nodes, i, name);
      }
      SaysWhatWasPrinted(child, nodes[i].ctype, nodes[i].body, theirs);
    }
  }

  lemma NameComesBack(p: Parsed, own: Parsed, ctype: string, nodes: seq<Node>, name: string, altered: bool)
    requires Extends(Held(p.props, name), Held(own.props, name), altered)
    requires Held(own.props, name) == Ones(ValuesOf(nodes, name)) <==> FirstKept(Contributions(ctype, nodes, name))
    ensures ValuesComeBack(p, ctype, nodes, name, altered)
  {
    hide Contributions, ValuesOf, Ones, Held, FirstKept;
    var mine, theirs := Held(p.props, name), Held(own.props, name);
    if !altered { assert mine[..|theirs|] == mine; }
  }

  /**
   * The round trip, with nothing of the parser in what it says. Any printed calendar, its names
   * and types in upper or lower case, folded and broken in any way the standard allows, either
   * makes the reader throw, exactly where the tree says so, or parses into the same types and the
   * same components nested the same way, with the same values in the same order under every name:
   * exactly those whose first value is not a dropped empty string, and which no later event has
   * added to.
   */
  lemma {:induction false} CalendarRoundTrip(ctype: string, body: seq<Node>, folded: seq<Folded>)
    requires SameLetters(ctype, "VCALENDAR")
    requires GoodNode(Comp(ctype, body)) && LinesOf(folded) == Print([Comp(ctype, body)])
    requires forall i :: 0 <= i < |folded| ==> folded[i].first != ""
    ensures var nodes := RaiseAll(body);
            && (ParseIcal(TextOf(folded)).None? <==> Throws("VCALENDAR", nodes))
            && (ParseIcal(TextOf(folded)).Some? ==> Faithful(ParseIcal(TextOf(folded)).value, "VCALENDAR", nodes, iset{}))
  {
    RaisedAlikeExactly(ctype, "VCALENDAR");
    CalendarIsRaised();
    hide AddAll, Throws, Faithful, ParseIcal, Print, GoodNode, LinesOf, TextOf, Held, RaiseAll, Upper, SameLetters;
    TextRoundTrip(ctype, body, folded);
    var nodes := RaiseAll(body);
    Reads("VCALENDAR", nodes);
    if ParseIcal(TextOf(folded)).Some? {
      var p := ParseIcal(TextOf(folded)).value;
      SaysWhatWasPrinted(p, "VCALENDAR", nodes, iset{});
    }
  }
}
