/**
 * Print a tree of components, fold the lines as section 3.1 of RFC 5545 allows, and read
 * the text back.
 */
module ICalRoundTrip {
  import opened Outcomes
  import opened ICalendar

  /** One thing in a component: a property, or a component inside it. */
  datatype Node = Prop(name: string, params: string, value: string) | Comp(ctype: string, body: seq<Node>)

  predicate IsBreak(c: char) { c == '\r' || c == '\n' }

  predicate NoBreaks(s: string) {
    forall i :: 0 <= i < |s| ==> !IsBreak(s[i])
  }

  // ----- printing -----

  function PropLine(name: string, params: string, value: string): string {
    name + (if params == "" then "" else ";" + params) + ":" + value
  }

  function Print(nodes: seq<Node>): seq<string>
    decreases nodes
  {
    if nodes == [] then [] else PrintOne(nodes[0]) + Print(nodes[1..])
  }

  function PrintOne(n: Node): seq<string>
    decreases n, 0
  {
    match n
    case Prop(name, params, value) => [PropLine(name, params, value)]
    case Comp(ctype, body) => ["BEGIN:" + ctype] + Print(body) + ["END:" + ctype]
  }

  /** A property name as it is printed: none of the characters that end it. */
  predicate GoodName(name: string, params: string) {
    && name != "" && ':' !in name && ';' !in name
    && !IsFoldSpace(name[0])
    && (params == "" ==> name != "BEGIN" && name != "END")
  }

  /** Everything but colons in parameters, which the reader cannot tell from the end of the name. */
  predicate GoodNode(n: Node)
    decreases n, 0
  {
    match n
    case Prop(name, params, value) =>
      GoodName(name, params) && ':' !in params && NoBreaks(name) && NoBreaks(params) && NoBreaks(value)
    case Comp(ctype, body) => NoBreaks(ctype) && GoodNodes(body)
  }

  predicate GoodNodes(nodes: seq<Node>)
    decreases nodes
  {
    nodes != [] ==> GoodNode(nodes[0]) && GoodNodes(nodes[1..])
  }

  // ----- what reading should give: each thing added in turn, names and types in upper case -----

  function Raise(n: Node): Node
    decreases n, 0
  {
    match n
    case Prop(name, params, value) => Prop(Upper(name), params, value)
    case Comp(ctype, body) => Comp(Upper(ctype), RaiseAll(body))
  }

  function RaiseAll(nodes: seq<Node>): (r: seq<Node>)
    ensures |r| == |nodes|
    decreases nodes
  {
    if nodes == [] then [] else [Raise(nodes[0])] + RaiseAll(nodes[1..])
  }

  /** Letter by letter the same, upper or lower case apart. */
  predicate SameLetters(a: string, b: string) {
    && |a| == |b|
    && forall i :: 0 <= i < |a| ==>
         || a[i] == b[i]
         || ('a' <= a[i] <= 'z' && a[i] as int - 32 == b[i] as int)
         || ('a' <= b[i] <= 'z' && b[i] as int - 32 == a[i] as int)
  }

  /** Names are raised alike exactly when they are the same but for upper and lower case. */
  lemma RaisedAlikeExactly(a: string, b: string)
    ensures Upper(a) == Upper(b) <==> SameLetters(a, b)
  {
    if Upper(a) == Upper(b) {
      assert |a| == |Upper(a)| == |Upper(b)| == |b|;
      forall i | 0 <= i < |a|
        ensures || a[i] == b[i]
                || ('a' <= a[i] <= 'z' && a[i] as int - 32 == b[i] as int)
                || ('a' <= b[i] <= 'z' && b[i] as int - 32 == a[i] as int)
      {
        assert Upper(a)[i] == Upper(b)[i];
      }
    }
    if SameLetters(a, b) {
      forall i | 0 <= i < |a| ensures Upper(a)[i] == Upper(b)[i] {}
      assert Upper(a) == Upper(b);
    }
  }

  function AddNode(c: Parsed, n: Node): Option<Parsed>
    decreases n, 0
  {
    match n
    case Prop(name, params, value) =>
      AddProperty(c, name, params, value)
    case Comp(ctype, body) =>
      var child := AddAll(Empty(ctype), body);
      if child.None? then None else Some(AddChild(c, child.value))
  }

  function AddAll(c: Parsed, nodes: seq<Node>): Option<Parsed>
    decreases nodes
  {
    if nodes == [] then Some(c)
    else
      var first := AddNode(c, nodes[0]);
      if first.None? then None else AddAll(first.value, nodes[1..])
  }

  // ----- one property line -----

  lemma {:induction false} FirstIndex(a: string, c: char, b: string)
    requires c !in a
    ensures IndexOfChar(a + [c] + b, c) == |a|
  {
    if a == "" {
      assert (a + [c] + b)[0] == c;
    } else {
      assert (a + [c] + b)[1..] == a[1..] + [c] + b;
      FirstIndex(a[1..], c, b);
    }
  }

  lemma {:induction false} NoIndex(a: string, c: char)
    requires c !in a
    ensures IndexOfChar(a, c) == |a|
  {
    if a != "" { NoIndex(a[1..], c); }
  }

  lemma UpperKeeps(s: string, c: char)
    requires c !in s && !('A' <= c <= 'Z')
    ensures c !in Upper(s)
  {
  }

  lemma PropLineReads(c: Parsed, name: string, params: string, value: string)
    requires GoodName(name, params) && ':' !in params
    ensures AddLine(c, PropLine(name, params, value)) == AddProperty(c, Upper(name), params, value)
  {
    hide IndexOfChar;
    UpperKeeps(name, ';');
    var head := name + (if params == "" then "" else ";" + params);
    var line := PropLine(name, params, value);
    assert line == head + [':'] + value;
    FirstIndex(head, ':', value);
    assert line[..|head|] == head && line[|head| + 1..] == value;
    hide PropLine;
    if params == "" {
      assert head == name;
      NoIndex(Upper(name), ';');
      assert Upper(name)[..|name|] == Upper(name);
    } else {
      assert Upper(head) == Upper(name) + [';'] + Upper(params);
      FirstIndex(Upper(name), ';', Upper(params));
      assert Upper(head)[..|name|] == Upper(name);
      assert Upper(head)[|name| + 1..] == Upper(params) != "";
    }
  }

  /** The reader finds the value exactly when the parameters hold no colon, quoted or not. */
  lemma ValueReadExactly(name: string, params: string, value: string)
    requires GoodName(name, params)
    ensures IndexOfChar(PropLine(name, params, value), ':') < |PropLine(name, params, value)|
    ensures LineValue(PropLine(name, params, value)) == value <==> ':' !in params
  {
    hide IndexOfChar, Upper;
    var line := PropLine(name, params, value);
    if ':' !in params {
      var head := name + (if params == "" then "" else ";" + params);
      assert line == head + [':'] + value;
      FirstIndex(head, ':', value);
      assert line[|head|] == ':';
    } else {
      var k := IndexOfChar(params, ':');
      var found :| 0 <= found < |params| && params[found] == ':';
      assert params[..|params|] == params;
      assert k < |params|;
      var head := name + ";" + params[..k];
      var rest := params[k + 1..] + ":" + value;
      assert params == params[..k] + [':'] + params[k + 1..];
      assert line == head + [':'] + rest;
      FirstIndex(head, ':', rest);
      assert line[|head|] == ':';
      assert |rest| > |value|;
    }
  }

  /** Lines that say nothing: without a colon, or with no name before the parameters and the colon. */
  lemma SaysNothing(c: Parsed, line: string)
    requires ':' !in line || line[0] == ':' || line[0] == ';'
    ensures AddLine(c, line) == Some(c)
  {
    if ':' !in line {
      NoIndex(line, ':');
    } else {
      var colon := IndexOfChar(line, ':');
      if colon > 0 && colon < |line| {
        assert Upper(line[..colon])[0] == ';';
        assert IndexOfChar(Upper(line[..colon]), ';') == 0;
      }
    }
  }

  /** What is read at all is a calendar: its first line that is not empty begins one. */
  lemma OnlyCalendars(data: string)
    requires ParseIcal(data).Some?
    ensures var lines := SplitIcalLines(data);
            lines != [] && "BEGIN:" <= lines[0] && SameLetters(lines[0][6..], "VCALENDAR")
  {
    hide Body, SplitIcalLines, Upper, SameLetters;
    var lines := SplitIcalLines(data);
    CalendarIsRaised();
    if lines != [] && IsBegin(lines[0]) {
      BodyKeepsType(lines, 1, Empty(Upper(lines[0][6..])));
      RaisedAlikeExactly(lines[0][6..], "VCALENDAR");
    } else {
      BodyKeepsType(lines, 0, Empty(""));
    }
  }

  lemma CalendarIsRaised()
    ensures Upper("VCALENDAR") == "VCALENDAR"
  {
  }

  lemma {:induction false} BodyKeepsType(lines: seq<string>, idx: nat, c: Parsed)
    ensures Body(lines, idx, c).Some? ==> Body(lines, idx, c).value.0.ctype == c.ctype
    decreases if idx < |lines| then |lines| - idx else 0
  {
    hide AddLine, AddChild, Upper;
    if idx < |lines| {
      var line := lines[idx];
      if line == "" {
        BodyKeepsType(lines, idx + 1, c);
      } else if IsBegin(line) {
        var nested := Body(lines, idx + 1, Empty(Upper(line[6..])));
        if nested.Some? {
          ChildKeepsType(c, nested.value.0);
          BodyKeepsType(lines, nested.value.1 + 1, AddChild(c, nested.value.0));
        }
      } else if !IsEnd(line) && AddLine(c, line).Some? {
        LineKeepsType(c, line);
        BodyKeepsType(lines, idx + 1, AddLine(c, line).value);
      }
    }
  }

  lemma LineKeepsType(c: Parsed, line: string)
    requires AddLine(c, line).Some?
    ensures AddLine(c, line).value.ctype == c.ctype
  {
    hide IndexOfChar, Upper;
  }

  // ----- the lines of a tree -----

  lemma NotAMarker(name: string, params: string, value: string)
    requires GoodName(name, params)
    ensures var line := PropLine(name, params, value); line != "" && !IsBegin(line) && !IsEnd(line)
  {
    var line := PropLine(name, params, value);
    var stop := if params == "" then ':' else ';';
    assert line[|name|] == stop && line[..|name|] == name;
    if IsBegin(line) { MarkerName(line, name, "BEGIN", stop); }
    if IsEnd(line) { MarkerName(line, name, "END", stop); }
  }

  lemma MarkerName(line: string, name: string, marker: string, stop: char)
    requires marker + ":" <= line && ':' !in marker && ';' !in marker
    requires |name| < |line| && line[..|name|] == name && ':' !in name && line[|name|] == stop
    requires stop == ':' || stop == ';'
    ensures stop == ':' && name == marker
  {
    assert line[|marker|] == ':' && line[..|marker|] == marker;
    assert forall i :: 0 <= i < |marker| ==> line[i] in marker;
    assert forall i :: 0 <= i < |name| ==> line[i] in name;
  }

  /** The printed lines stand in `lines` from `idx` on. */
  predicate StandAt(lines: seq<string>, idx: nat, printed: seq<string>) {
    idx + |printed| <= |lines| && lines[idx..idx + |printed|] == printed
  }

  lemma StandApart(lines: seq<string>, idx: nat, a: seq<string>, b: seq<string>)
    requires StandAt(lines, idx, a + b)
    ensures StandAt(lines, idx, a) && StandAt(lines, idx + |a|, b)
  {
    assert lines[idx..idx + |a|] == (a + b)[..|a|];
    assert lines[idx + |a|..idx + |a| + |b|] == (a + b)[|a|..];
  }

  /** Reading past the printed nodes adds them, and goes on behind them; each nested END is where it was printed. */
  lemma {:induction false} BodyReads(lines: seq<string>, idx: nat, nodes: seq<Node>, c: Parsed)
    requires GoodNodes(nodes) && StandAt(lines, idx, Print(nodes))
    ensures Body(lines, idx, c)
         == (var all := AddAll(c, RaiseAll(nodes));
             if all.None? then None else Body(lines, idx + |Print(nodes)|, all.value))
    decreases nodes, 2
  {
    hide *;
    if nodes == [] {
      NothingAdds(c);
    } else {
      FirstReads(lines, idx, nodes, c);
      FirstAdds(c, nodes);
      var first := AddNode(c, Raise(nodes[0]));
      if first.Some? { BodyReads(lines, idx + |PrintOne(nodes[0])|, nodes[1..], first.value); }
    }
  }

  lemma NothingAdds(c: Parsed)
    ensures Print([]) == [] && RaiseAll([]) == [] && AddAll(c, []) == Some(c)
  {
  }

  lemma FirstAdds(c: Parsed, nodes: seq<Node>)
    requires nodes != []
    ensures var first := AddNode(c, Raise(nodes[0]));
            AddAll(c, RaiseAll(nodes)) == if first.None? then None else AddAll(first.value, RaiseAll(nodes[1..]))
    ensures |Print(nodes)| == |PrintOne(nodes[0])| + |Print(nodes[1..])|
    ensures GoodNodes(nodes) ==> GoodNodes(nodes[1..])
  {
    assert RaiseAll(nodes)[0] == Raise(nodes[0]) && RaiseAll(nodes)[1..] == RaiseAll(nodes[1..]);
    hide AddNode, PrintOne, GoodNode, Raise;
  }

  lemma {:induction false} FirstReads(lines: seq<string>, idx: nat, nodes: seq<Node>, c: Parsed)
    requires nodes != [] && GoodNodes(nodes) && StandAt(lines, idx, Print(nodes))
    ensures var first, next := AddNode(c, Raise(nodes[0])), idx + |PrintOne(nodes[0])|;
            && StandAt(lines, next, Print(nodes[1..]))
            && Body(lines, idx, c) == if first.None? then None else Body(lines, next, first.value)
    decreases nodes, 1
  {
    assert Print(nodes) == PrintOne(nodes[0]) + Print(nodes[1..]);
    StandApart(lines, idx, PrintOne(nodes[0]), Print(nodes[1..]));
    if nodes[0].Prop? {
      PropReads(lines, idx, nodes, c);
    } else {
      CompReads(lines, idx, nodes[0].ctype, nodes[0].body, nodes[1..], c);
    }
    hide Body, AddAll, AddChild, StandAt, RaiseAll;
  }

  lemma PropReads(lines: seq<string>, idx: nat, nodes: seq<Node>, c: Parsed)
    requires nodes != [] && nodes[0].Prop? && GoodNodes(nodes) && StandAt(lines, idx, Print(nodes))
    ensures var first := AddNode(c, Raise(nodes[0]));
            Body(lines, idx, c) == if first.None? then None else Body(lines, idx + 1, first.value)
  {
    var Prop(name, params, value) := nodes[0];
    var line := PropLine(name, params, value);
    StandApart(lines, idx, [line], Print(nodes[1..]));
    assert lines[idx] == line;
    NotAMarker(name, params, value);
    PropLineReads(c, name, params, value);
    hide AddLine, AddProperty, IsBegin, IsEnd, Upper, GoodName, PropLine, StandAt, Print;
  }

  lemma {:induction false} CompReads(lines: seq<string>, idx: nat, ctype: string, body: seq<Node>, rest: seq<Node>, c: Parsed)
    requires GoodNodes(body)
    requires StandAt(lines, idx, ["BEGIN:" + ctype] + Print(body) + ["END:" + ctype] + Print(rest))
    ensures StandAt(lines, idx + |Print(body)| + 2, Print(rest))
    ensures Body(lines, idx, c)
         == (var child := AddAll(Empty(Upper(ctype)), RaiseAll(body));
             if child.None? then None else Body(lines, idx + |Print(body)| + 2, AddChild(c, child.value)))
    decreases body, 3
  {
    hide *;
    var begin, end := "BEGIN:" + ctype, "END:" + ctype;
    Markers(ctype);
    CompStands(lines, idx, begin, Print(body), end, Print(rest));
    BodyReads(lines, idx + 1, body, Empty(Upper(ctype)));
    var child := AddAll(Empty(Upper(ctype)), RaiseAll(body));
    BodyBegin(lines, idx, c);
    if child.Some? { BodyEnd(lines, idx + 1 + |Print(body)|, child.value); }
  }

  lemma BodyBegin(lines: seq<string>, idx: nat, c: Parsed)
    requires idx < |lines| && lines[idx] != "" && IsBegin(lines[idx])
    ensures var nested := Body(lines, idx + 1, Empty(Upper(lines[idx][6..])));
            Body(lines, idx, c) == if nested.None? then None else Body(lines, nested.value.1 + 1, AddChild(c, nested.value.0))
  {
    hide AddLine, AddChild, Upper;
  }

  lemma BodyEnd(lines: seq<string>, idx: nat, c: Parsed)
    requires idx < |lines| && lines[idx] != "" && !IsBegin(lines[idx]) && IsEnd(lines[idx])
    ensures Body(lines, idx, c) == Some((c, idx))
  {
    hide AddLine, AddChild, Upper;
  }

  lemma CompStands(lines: seq<string>, idx: nat, begin: string, body: seq<string>, end: string, rest: seq<string>)
    requires StandAt(lines, idx, [begin] + body + [end] + rest)
    ensures idx + 1 + |body| < |lines|
    ensures StandAt(lines, idx + 1, body) && StandAt(lines, idx + |body| + 2, rest)
    ensures lines[idx] == begin && lines[idx + 1 + |body|] == end
  {
    StandApart(lines, idx, [begin] + body + [end], rest);
    StandApart(lines, idx, [begin] + body, [end]);
    StandApart(lines, idx, [begin], body);
  }

  lemma Markers(ctype: string)
    ensures var begin, end := "BEGIN:" + ctype, "END:" + ctype;
            && IsBegin(begin) && begin[6..] == ctype && begin != ""
            && !IsBegin(end) && IsEnd(end) && end != ""
            && begin == "BEGIN:" + ctype && end == "END:" + ctype
  {
    assert ("END:" + ctype)[0] == 'E' && "BEGIN:"[0] == 'B';
  }

  /** Parsing the printed lines of a component gives it back, and ends at its own END. */
  lemma LinesRoundTrip(ctype: string, body: seq<Node>)
    requires GoodNode(Comp(ctype, body))
    ensures var lines := Print([Comp(ctype, body)]);
            var r := AddAll(Empty(Upper(ctype)), RaiseAll(body));
            ParseComponent(lines, 0) == if r.None? then None else Some((r.value, |lines| - 1))
  {
    hide *;
    var lines := Print([Comp(ctype, body)]);
    var begin, end := "BEGIN:" + ctype, "END:" + ctype;
    OneComponent(ctype, body);
    Markers(ctype);
    CompStands(lines, 0, begin, Print(body), end, []);
    ParseBegins(lines, Upper(ctype));
    BodyReads(lines, 1, body, Empty(Upper(ctype)));
    var all := AddAll(Empty(Upper(ctype)), RaiseAll(body));
    if all.Some? { BodyEnd(lines, 1 + |Print(body)|, all.value); }
  }

  lemma OneComponent(ctype: string, body: seq<Node>)
    ensures var lines, stood := Print([Comp(ctype, body)]), ["BEGIN:" + ctype] + Print(body) + ["END:" + ctype] + [];
            && lines == stood && |lines| == |Print(body)| + 2 && StandAt(lines, 0, stood)
    ensures GoodNode(Comp(ctype, body)) ==> GoodNodes(body)
  {
    assert [Comp(ctype, body)][1..] == [] && Print([]) == [];
    assert Print([Comp(ctype, body)]) == PrintOne(Comp(ctype, body)) + Print([]);
    hide Upper;
  }

  lemma ParseBegins(lines: seq<string>, ctype: string)
    requires lines != [] && IsBegin(lines[0]) && Upper(lines[0][6..]) == ctype
    ensures ParseComponent(lines, 0) == Body(lines, 1, Empty(ctype))
  {
    hide Body, Upper;
  }

  // ----- folding -----

  /** A line break, with or without the carriage return. */
  function Break(crlf: bool): string {
    if crlf then "\r\n" else "\n"
  }

  /** One fold: a break, the white space that marks the continuation, and what goes on there. */
  datatype Fold = Fold(crlf: bool, tab: bool, more: string)

  /** A line as it is sent: a beginning, any number of folds anywhere in it, and the final break. */
  datatype Folded = Folded(first: string, folds: seq<Fold>, crlf: bool)

  function Text(folds: seq<Fold>): string {
    if folds == [] then ""
    else Break(folds[0].crlf) + (if folds[0].tab then "\t" else " ") + folds[0].more + Text(folds[1..])
  }

  function Joined(folds: seq<Fold>): string {
    if folds == [] then "" else folds[0].more + Joined(folds[1..])
  }

  /** The line that was folded. */
  function LineOf(f: Folded): string {
    f.first + Joined(f.folds)
  }

  function TextOf(folded: seq<Folded>): string {
    if folded == [] then ""
    else folded[0].first + Text(folded[0].folds) + Break(folded[0].crlf) + TextOf(folded[1..])
  }

  function LinesOf(folded: seq<Folded>): (r: seq<string>)
    ensures |r| == |folded|
    ensures forall i :: 0 <= i < |r| ==> r[i] == LineOf(folded[i])
  {
    if folded == [] then [] else [LineOf(folded[0])] + LinesOf(folded[1..])
  }

  /** A line that can be told from a continuation, and has no breaks of its own. */
  predicate GoodLine(line: string) {
    line != "" && NoBreaks(line) && !IsFoldSpace(line[0])
  }

  /** A fold falls between two characters, so something comes before it. */
  predicate GoodFolded(f: Folded) {
    f.first != "" && GoodLine(LineOf(f))
  }

  predicate AllGood(folded: seq<Folded>) {
    forall i :: 0 <= i < |folded| ==> GoodFolded(folded[i])
  }

  lemma {:induction false} UnfoldPlain(a: string, rest: string)
    requires NoBreaks(a)
    ensures Unfold(a + rest) == a + Unfold(rest)
  {
    if a == "" {
      assert a + rest == rest;
    } else {
      assert (a + rest)[1..] == a[1..] + rest;
      UnfoldPlain(a[1..], rest);
      assert a == [a[0]] + a[1..];
    }
  }

  lemma UnfoldFold(crlf: bool, tab: bool, rest: string)
    ensures Unfold(Break(crlf) + (if tab then "\t" else " ") + rest) == Unfold(rest)
  {
    var s := Break(crlf) + (if tab then "\t" else " ") + rest;
    if crlf { assert s[3..] == rest; } else { assert s[2..] == rest; }
  }

  lemma UnfoldBreak(crlf: bool, rest: string)
    requires rest == "" || !IsFoldSpace(rest[0])
    ensures Unfold(Break(crlf) + rest) == Break(crlf) + Unfold(rest)
  {
    hide Unfold, IsFoldSpace;
    UnfoldLf(rest);
    if crlf {
      assert Break(crlf) + rest == ['\r'] + (['\n'] + rest);
      UnfoldCr(rest);
      assert ['\r'] + (['\n'] + Unfold(rest)) == Break(crlf) + Unfold(rest);
    }
  }

  lemma UnfoldCr(rest: string)
    requires rest == "" || !IsFoldSpace(rest[0])
    ensures Unfold(['\r'] + (['\n'] + rest)) == ['\r'] + Unfold(['\n'] + rest)
  {
    var s := ['\r'] + (['\n'] + rest);
    assert s[1..] == ['\n'] + rest && s[1] == '\n' && (|s| > 2 ==> s[2] == rest[0]);
  }

  lemma UnfoldLf(rest: string)
    requires rest == "" || !IsFoldSpace(rest[0])
    ensures Unfold(['\n'] + rest) == ['\n'] + Unfold(rest)
  {
    assert (['\n'] + rest)[1..] == rest;
  }

  lemma {:induction false} UnfoldFolds(folds: seq<Fold>, rest: string)
    requires NoBreaks(Joined(folds))
    ensures Unfold(Text(folds) + rest) == Joined(folds) + Unfold(rest)
  {
    hide Unfold, Break;
    if folds == [] {
      assert Text(folds) + rest == rest;
      assert Joined(folds) + Unfold(rest) == Unfold(rest);
    } else {
      var f := folds[0];
      var tail := Text(folds[1..]) + rest;
      assert Joined(folds)[..|f.more|] == f.more && Joined(folds)[|f.more|..] == Joined(folds[1..]);
      UnfoldOne(f, Text(folds[1..]), rest);
      UnfoldFolds(folds[1..], rest);
      assert Joined(folds) + Unfold(rest) == f.more + (Joined(folds[1..]) + Unfold(rest));
    }
  }

  lemma UnfoldOne(f: Fold, text: string, rest: string)
    requires NoBreaks(f.more)
    ensures Unfold(Break(f.crlf) + (if f.tab then "\t" else " ") + f.more + text + rest) == f.more + Unfold(text + rest)
  {
    hide Unfold, Break;
    var space := if f.tab then "\t" else " ";
    assert Break(f.crlf) + space + f.more + text + rest == Break(f.crlf) + space + (f.more + (text + rest));
    UnfoldFold(f.crlf, f.tab, f.more + (text + rest));
    UnfoldPlain(f.more, text + rest);
  }

  /** The unfolded text: each line as it was before folding, with its break. */
  function Unfolded(folded: seq<Folded>): string {
    if folded == [] then "" else LineOf(folded[0]) + Break(folded[0].crlf) + Unfolded(folded[1..])
  }

  lemma {:induction false} UnfoldText(folded: seq<Folded>)
    requires AllGood(folded)
    ensures Unfold(TextOf(folded)) == Unfolded(folded)
  {
    if folded != [] {
      var rest := folded[1..];
      assert forall i :: 0 <= i < |rest| ==> rest[i] == folded[i + 1];
      UnfoldText(rest);
      StartsGood(rest);
      UnfoldLine(folded[0], TextOf(rest));
    }
  }

  lemma UnfoldLine(f: Folded, rest: string)
    requires GoodFolded(f) && (rest == "" || !IsFoldSpace(rest[0]))
    ensures Unfold(f.first + Text(f.folds) + Break(f.crlf) + rest) == LineOf(f) + Break(f.crlf) + Unfold(rest)
  {
    assert LineOf(f)[..|f.first|] == f.first && LineOf(f)[|f.first|..] == Joined(f.folds);
    assert NoBreaks(f.first) && NoBreaks(Joined(f.folds));
    hide Unfold, Break, Text, IsFoldSpace, Joined, NoBreaks;
    UnfoldBreak(f.crlf, rest);
    Regroup(f.first, Text(f.folds), Break(f.crlf), rest);
    UnfoldFolds(f.folds, Break(f.crlf) + rest);
    UnfoldPlain(f.first, Text(f.folds) + (Break(f.crlf) + rest));
    Regroup(f.first, Joined(f.folds), Break(f.crlf), Unfold(rest));
  }

  lemma Regroup(a: string, b: string, c: string, d: string)
    ensures a + b + c + d == a + (b + (c + d))
  {
  }

  /** A text of good lines does not begin like a continuation. */
  lemma StartsGood(folded: seq<Folded>)
    requires AllGood(folded)
    ensures TextOf(folded) == "" || !IsFoldSpace(TextOf(folded)[0])
  {
    if folded != [] { assert TextOf(folded)[0] == folded[0].first[0] == LineOf(folded[0])[0]; }
  }

  lemma {:induction false} SplitPlainBreak(a: string, crlf: bool, rest: string)
    requires NoBreaks(a)
    ensures SplitBreaks(a + Break(crlf) + rest) == [a] + SplitBreaks(rest)
  {
    var s := a + Break(crlf) + rest;
    if a == "" {
      if crlf { assert s[2..] == rest; } else { assert s[1..] == rest; }
    } else {
      assert s[1..] == a[1..] + Break(crlf) + rest;
      SplitPlainBreak(a[1..], crlf, rest);
      assert a == [a[0]] + a[1..];
      assert ([a[1..]] + SplitBreaks(rest))[1..] == SplitBreaks(rest);
    }
  }

  lemma {:induction false} SplitUnfolded(folded: seq<Folded>)
    requires AllGood(folded)
    ensures NonEmpty(SplitBreaks(Unfolded(folded))) == LinesOf(folded)
  {
    if folded == [] {
      assert [""][1..] == [];
    } else {
      var line := LineOf(folded[0]);
      SplitUnfolded(folded[1..]);
      SplitPlainBreak(line, folded[0].crlf, Unfolded(folded[1..]));
      assert ([line] + SplitBreaks(Unfolded(folded[1..])))[1..] == SplitBreaks(Unfolded(folded[1..]));
      assert LinesOf(folded) == [line] + LinesOf(folded[1..]);
    }
  }

  /** However the lines were folded and broken, splitting gives the lines back. */
  lemma LinesComeBack(folded: seq<Folded>)
    requires AllGood(folded)
    ensures SplitIcalLines(TextOf(folded)) == LinesOf(folded)
  {
    UnfoldText(folded);
    SplitUnfolded(folded);
  }

  lemma {:induction false} PrintedLinesGood(nodes: seq<Node>)
    requires GoodNodes(nodes)
    ensures forall i :: 0 <= i < |Print(nodes)| ==> GoodLine(Print(nodes)[i])
    decreases nodes
  {
    if nodes != [] {
      PrintedLinesGood(nodes[1..]);
      match nodes[0] {
        case Prop(name, params, value) => PropLineGood(name, params, value);
        case Comp(ctype, body) =>
          PrintedLinesGood(body);
          assert GoodLine("BEGIN:" + ctype) && GoodLine("END:" + ctype) by {
            assert ("BEGIN:" + ctype)[0] == 'B' && ("END:" + ctype)[0] == 'E';
          }
          var own := ["BEGIN:" + ctype] + Print(body) + ["END:" + ctype];
          hide GoodLine;
          assert forall i :: 0 <= i < |own| ==> GoodLine(own[i]);
      }
    }
  }

  lemma PropLineGood(name: string, params: string, value: string)
    requires GoodNode(Prop(name, params, value))
    ensures GoodLine(PropLine(name, params, value))
  {
    assert PropLine(name, params, value)[0] == name[0];
  }

  /**
   * The round trip: print a calendar, its names and types in upper or lower case, fold and break
   * its lines in any way the standard allows, and the reader gives back exactly what adding its
   * parts one by one gives, or throws exactly when that does.
   */
  lemma {:induction false} TextRoundTrip(ctype: string, body: seq<Node>, folded: seq<Folded>)
    requires Upper(ctype) == "VCALENDAR"
    requires GoodNode(Comp(ctype, body)) && LinesOf(folded) == Print([Comp(ctype, body)])
    requires forall i :: 0 <= i < |folded| ==> folded[i].first != ""
    ensures ParseIcal(TextOf(folded)) == AddAll(Empty("VCALENDAR"), RaiseAll(body))
  {
    var nodes := [Comp(ctype, body)];
    assert nodes[1..] == [];
    assert GoodNodes(nodes);
    PrintedLinesGood(nodes);
    assert forall i :: 0 <= i < |folded| ==> LinesOf(folded)[i] == LineOf(folded[i]);
    assert AllGood(folded);
    LinesComeBack(folded);
    LinesRoundTrip(ctype, body);
    hide Print, ParseComponent, SplitIcalLines, GoodNode, RaiseAll;
    AddAllType(Empty("VCALENDAR"), RaiseAll(body));
  }

  lemma {:induction false} AddAllType(c: Parsed, nodes: seq<Node>)
    ensures AddAll(c, nodes).Some? ==> AddAll(c, nodes).value.ctype == c.ctype
    decreases nodes
  {
    if nodes != [] {
      NodeKeepsType(c, nodes[0]);
      hide AddNode;
      if AddNode(c, nodes[0]).Some? { AddAllType(AddNode(c, nodes[0]).value, nodes[1..]); }
    }
  }

  lemma NodeKeepsType(c: Parsed, n: Node)
    ensures AddNode(c, n).Some? ==> AddNode(c, n).value.ctype == c.ctype
  {
    hide AddAll, Push, MergeName;
    if n.Comp? && AddNode(c, n).Some? { ChildKeepsType(c, AddAll(Empty(n.ctype), n.body).value); }
    else if n.Prop? && n.name in c.props && c.props[n.name].Many? { PushKeeps(c, n.name, One(n.value)); }
  }

  lemma PushKeeps(c: Parsed, name: string, v: Value)
    requires name in c.props && c.props[name].Many?
    ensures Push(c, name, v).ctype == c.ctype && Push(c, name, v).shared == c.shared
    ensures Push(c, name, v).props == c.props[name := Many(c.props[name].vs + [v])]
  {
  }

  lemma MergeKeepsType(c: Parsed, k: nat, name: string)
    requires k < |c.children|
    ensures MergeName(c, k, name).ctype == c.ctype
  {
  }

  lemma ChildKeepsType(c: Parsed, child: Parsed)
    ensures AddChild(c, child).ctype == c.ctype
  {
    hide MergeName;
    var d := c.(children := c.children + [child]);
    var k := |c.children|;
    MergeKeepsType(d, k, "RRULE");
    MergeKeepsType(MergeName(d, k, "RRULE"), k, "EXDATE");
    MergeKeepsType(MergeName(MergeName(d, k, "RRULE"), k, "EXDATE"), k, "RDATE");
  }
}
