/**
 * The iCalendar reader of the Graph calendar source: unfold, split into lines, parse
 * components recursively; and the printer it is read against.
 */
module ICalendar {
  import opened Outcomes

  // ----- lines -----

  predicate IsFoldSpace(c: char) {
    c == ' ' || c == '\t'
  }

  /** Remove every line break that is followed by a space or a tab, with that one character. */
  function Unfold(s: string): string {
    if s == "" then ""
    else if |s| >= 3 && s[0] == '\r' && s[1] == '\n' && IsFoldSpace(s[2]) then Unfold(s[3..])
    else if |s| >= 2 && s[0] == '\n' && IsFoldSpace(s[1]) then Unfold(s[2..])
    else [s[0]] + Unfold(s[1..])
  }

  /** Split at line breaks, `\n` with or without a `\r` before it. */
  function SplitBreaks(s: string): (r: seq<string>)
    ensures |r| >= 1
  {
    if s == "" then [""]
    else if s[0] == '\n' then [""] + SplitBreaks(s[1..])
    else if |s| >= 2 && s[0] == '\r' && s[1] == '\n' then [""] + SplitBreaks(s[2..])
    else
      var rest := SplitBreaks(s[1..]);
      [[s[0]] + rest[0]] + rest[1..]
  }

  function NonEmpty(lines: seq<string>): seq<string> {
    if lines == [] then []
    else (if lines[0] != "" then [lines[0]] else []) + NonEmpty(lines[1..])
  }

  function SplitIcalLines(data: string): seq<string> {
    NonEmpty(SplitBreaks(Unfold(data)))
  }

  // ----- components -----

  /** A property's value or values, as the parser holds them. */
  datatype Value = One(s: string) | Many(vs: seq<Value>)

  /**
   * A component. A calendar takes over arrays of its events: `shared` says for which names
   * its own array is the very array of the child with that number.
   */
  datatype Parsed = Parsed(ctype: string, props: map<string, Value>, children: seq<Parsed>, shared: map<string, nat>)

  /** JavaScript's truth: an empty string is false, an array never is. */
  predicate Truthy(props: map<string, Value>, name: string) {
    name in props && props[name] != One("")
  }

  function UpperChar(c: char): char {
    if 'a' <= c <= 'z' then c - 32 as char else c
  }

  function Upper(s: string): string {
    seq(|s|, i requires 0 <= i < |s| => UpperChar(s[i]))
  }

  function IndexOfChar(s: string, c: char): (r: nat)
    ensures r <= |s|
    ensures c !in s[..r]
    ensures r < |s| ==> s[r] == c
  {
    if s == "" || s[0] == c then 0
    else
      var r := IndexOfChar(s[1..], c);
      assert s[..r + 1] == [s[0]] + s[1..][..r];
      r + 1
  }

  /** `BEGIN:` and `END:`, matched as they are spelled. */
  predicate IsBegin(line: string) { "BEGIN:" <= line }

  predicate IsEnd(line: string) { "END:" <= line }

  /** A fresh value under a name. */
  function Put(c: Parsed, name: string, v: Value): Parsed {
    c.(props := c.props[name := v])
  }

  /** Push onto the array held under a name; a child that holds the same array sees it. */
  function Push(c: Parsed, name: string, v: Value): (r: Parsed)
    requires name in c.props && c.props[name].Many?
    ensures |r.children| == |c.children|
  {
    var longer := Many(c.props[name].vs + [v]);
    if name in c.shared && c.shared[name] < |c.children| then
      var k := c.shared[name];
      Put(c, name, longer).(children := c.children[k := Put(c.children[k], name, longer)])
    else Put(c, name, longer)
  }

  /** Add a property with parameters; `None` is the TypeError of pushing onto a string. */
  function AddWithParams(c: Parsed, name: string, value: string): Option<Parsed> {
    if !Truthy(c.props, name) then Some(Put(c, name, Many([One(value)])))
    else if c.props[name].Many? then Some(Push(c, name, One(value)))
    else None
  }

  function AddSimple(c: Parsed, name: string, value: string): Parsed {
    if !Truthy(c.props, name) then Put(c, name, One(value))
    else if c.props[name].Many? then Push(c, name, One(value))
    else Put(c, name, Many([c.props[name], One(value)]))
  }

  function AddProperty(c: Parsed, name: string, params: string, value: string): Option<Parsed> {
    if name == "" then Some(c)
    else if params != "" then AddWithParams(c, name, value)
    else Some(AddSimple(c, name, value))
  }

  /** What follows the first colon. */
  function LineValue(line: string): string
    requires IndexOfChar(line, ':') < |line|
  {
    line[IndexOfChar(line, ':') + 1..]
  }

  /** What one line that is neither BEGIN nor END does to the component. */
  function AddLine(c: Parsed, line: string): Option<Parsed> {
    var colon := IndexOfChar(line, ':');
    if colon == |line| then Some(c)
    else
      var name := Upper(line[..colon]);
      var semi := IndexOfChar(name, ';');
      AddProperty(c, name[..semi], if semi == |name| then "" else name[semi + 1..], LineValue(line))
  }

  /** RRULE, EXDATE or RDATE of child number `k`, taken over by its calendar. */
  function MergeName(c: Parsed, k: nat, name: string): (r: Parsed)
    requires k < |c.children|
    ensures |r.children| == |c.children|
  {
    var event := c.children[k].props;
    if !Truthy(event, name) then c
    else if !Truthy(c.props, name) then
      Put(c, name, event[name]).(shared := if event[name].Many? then c.shared[name := k] else c.shared)
    else if c.props[name].Many? then Push(c, name, event[name])
    else Put(c, name, Many([c.props[name], event[name]]))
  }

  function MergeEvent(c: Parsed, k: nat): (r: Parsed)
    requires k < |c.children|
    ensures |r.children| == |c.children|
  {
    MergeName(MergeName(MergeName(c, k, "RRULE"), k, "EXDATE"), k, "RDATE")
  }

  function AddChild(c: Parsed, child: Parsed): Parsed {
    var d := c.(children := c.children + [child]);
    if c.ctype == "VCALENDAR" && child.ctype == "VEVENT" then MergeEvent(d, |c.children|) else d
  }

  function Empty(ctype: string): Parsed {
    Parsed(ctype, map[], [], map[])
  }

  /**
   * The lines from `idx` on, read into `c` until an END or the end of the lines; with
   * where that was. `None` where the source throws.
   */
  function Body(lines: seq<string>, idx: nat, c: Parsed): (r: Option<(Parsed, nat)>)
    ensures r.Some? ==> r.value.1 >= idx
    decreases if idx < |lines| then |lines| - idx else 0
  {
    if idx >= |lines| then Some((c, idx))
    else
      var line := lines[idx];
      if line == "" then Body(lines, idx + 1, c)
      else if IsBegin(line) then
        var nested := Body(lines, idx + 1, Empty(Upper(line[6..])));
        if nested.None? then None else Body(lines, nested.value.1 + 1, AddChild(c, nested.value.0))
      else if IsEnd(line) then Some((c, idx))
      else
        var more := AddLine(c, line);
        if more.None? then None else Body(lines, idx + 1, more.value)
  }

  function ParseComponent(lines: seq<string>, start: nat): Option<(Parsed, nat)> {
    if start < |lines| && IsBegin(lines[start]) then Body(lines, start + 1, Empty(Upper(lines[start][6..])))
    else Body(lines, start, Empty(""))
  }

  function ParseIcal(data: string): Option<Parsed> {
    var r := ParseComponent(SplitIcalLines(data), 0);
    if r.None? || r.value.0.ctype != "VCALENDAR" then None else Some(r.value.0)
  }

  // ----- the parser as it is written -----

  method ParseIcalComponent(lines: seq<string>, startIdx: nat) returns (r: Option<(Parsed, nat)>)
    ensures r == ParseComponent(lines, startIdx)
    decreases if startIdx < |lines| then |lines| - startIdx else 0
  {
    hide AddLine, AddChild, Upper;
    var component := Empty("");
    var idx := startIdx;
    if idx < |lines| && IsBegin(lines[idx]) {
      component := Empty(Upper(lines[idx][6..]));
      idx := idx + 1;
    }
    ghost var from := idx;
    while idx < |lines|
      invariant idx >= from
      invariant ParseComponent(lines, startIdx) == Body(lines, idx, component)
      decreases |lines| - idx
    {
      var line := lines[idx];
      if line == "" {
        idx := idx + 1;
        continue;
      }
      if IsBegin(line) {
        var nested := ParseIcalComponent(lines, idx);
        if nested.None? { return None; }
        component := AddChild(component, nested.value.0);
        idx := nested.value.1 + 1;
        continue;
      }
      if IsEnd(line) { return Some((component, idx)); }
      var more := AddLine(component, line);
      if more.None? { return None; }
      component := more.value;
      idx := idx + 1;
    }
    return Some((component, idx));
  }
}
