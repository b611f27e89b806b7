/**
 * How the Graph contacts source escapes a vCard value, and how the CardDAV source decodes
 * one: the round trip, exactly where it holds, and the structured values built from escaped
 * parts.
 */
module VCard {
  import opened Outcomes
  import opened Text

  const ESCAPED: set<char> := {'\\', ';', ',', '\n'}

  // ----- the two programs -----

  /** `s.replace(/c/g, instead)`. */
  function Replace(s: string, c: char, instead: string): string {
    if s == "" then "" else (if s[0] == c then instead else [s[0]]) + Replace(s[1..], c, instead)
  }

  function Chain(s: string): string {
    Replace(Replace(Replace(Replace(Replace(s, '\\', "\\\\"), ';', "\\;"), ',', "\\,"), '\n', "\\n"), '\r', "")
  }

  function EscapeVCardValue(value: string): string {
    if value == "" then "" else Chain(value)
  }

  /** Replace every backslash followed by one of `xs`, with that character, by `y`. */
  function ReplacePairs(s: string, xs: set<char>, y: char): string {
    if |s| >= 2 && s[0] == '\\' && s[1] in xs then [y] + ReplacePairs(s[2..], xs, y)
    else if s == "" then ""
    else [s[0]] + ReplacePairs(s[1..], xs, y)
  }

  /** Remove every line break that is followed by white space, with all of that white space. */
  function Unfold(s: string): string
    decreases |s|
  {
    if s == "" then ""
    else if |s| >= 3 && s[0] == '\r' && s[1] == '\n' && IsSpace(s[2]) then Unfold(TrimStart(s[3..]))
    else if |s| >= 2 && s[0] == '\n' && IsSpace(s[1]) then Unfold(TrimStart(s[2..]))
    else [s[0]] + Unfold(s[1..])
  }

  function UnfoldAndDecode(s: string): string {
    ReplacePairs(ReplacePairs(ReplacePairs(ReplacePairs(Unfold(s), {'n', 'N'}, '\n'), {','}, ','), {';'}, ';'),
                 {'\\'}, '\\')
  }

  // ----- escaping is one map over the characters -----

  function EscapeChar(c: char, todo: set<char>): string {
    if c !in todo then [c] else if c == '\n' then "\\n" else ['\\', c]
  }

  function Escaped(s: string, todo: set<char>): string {
    if s == "" then "" else EscapeChar(s[0], todo) + Escaped(s[1..], todo)
  }

  function WithoutCr(s: string): (r: string)
    ensures '\r' !in r
    ensures '\r' !in s ==> r == s
    ensures |r| == |s| ==> '\r' !in s
    ensures |r| <= |s|
  {
    if s == "" then "" else (if s[0] == '\r' then "" else [s[0]]) + WithoutCr(s[1..])
  }

  lemma {:induction false} ReplaceAppend(a: string, b: string, c: char, instead: string)
    ensures Replace(a + b, c, instead) == Replace(a, c, instead) + Replace(b, c, instead)
  {
    if a == "" {
      assert a + b == b;
    } else {
      assert (a + b)[1..] == a[1..] + b;
      ReplaceAppend(a[1..], b, c, instead);
    }
  }

  lemma ReplaceOne(x: char, c: char, instead: string)
    ensures Replace([x], c, instead) == if x == c then instead else [x]
  {
    assert [x][1..] == "";
    assert instead + "" == instead;
  }

  lemma ChainAppend(a: string, b: string)
    ensures Chain(a + b) == Chain(a) + Chain(b)
  {
    hide Replace;
    ReplaceAppend(a, b, '\\', "\\\\");
    var a1, b1 := Replace(a, '\\', "\\\\"), Replace(b, '\\', "\\\\");
    ReplaceAppend(a1, b1, ';', "\\;");
    var a2, b2 := Replace(a1, ';', "\\;"), Replace(b1, ';', "\\;");
    ReplaceAppend(a2, b2, ',', "\\,");
    var a3, b3 := Replace(a2, ',', "\\,"), Replace(b2, ',', "\\,");
    ReplaceAppend(a3, b3, '\n', "\\n");
    ReplaceAppend(Replace(a3, '\n', "\\n"), Replace(b3, '\n', "\\n"), '\r', "");
  }

  lemma ReplaceTwo(x: char, y: char, c: char, instead: string)
    requires x != c && y != c
    ensures Replace([x, y], c, instead) == [x, y]
  {
    assert [x, y] == [x] + [y];
    ReplaceAppend([x], [y], c, instead);
    ReplaceOne(x, c, instead);
    ReplaceOne(y, c, instead);
  }

  lemma ChainOne(x: char)
    ensures Chain([x]) == if x == '\r' then "" else EscapeChar(x, ESCAPED)
  {
    ReplaceOne(x, '\\', "\\\\");
    ReplaceOne(x, ';', "\\;");
    ReplaceOne(x, ',', "\\,");
    ReplaceOne(x, '\n', "\\n");
    ReplaceOne(x, '\r', "");
    if x in ESCAPED {
      var y := if x == '\n' then 'n' else x;
      assert EscapeChar(x, ESCAPED) == ['\\', y];
      if x == '\\' { ReplaceTwo('\\', y, ';', "\\;"); }
      if x == '\\' || x == ';' { ReplaceTwo('\\', y, ',', "\\,"); }
      if x != '\n' { ReplaceTwo('\\', y, '\n', "\\n"); }
      ReplaceTwo('\\', y, '\r', "");
    }
    hide Replace;
  }

  /** The five replacements one after the other are one character-by-character map. */
  lemma {:induction false} EscapeIsMap(value: string)
    ensures EscapeVCardValue(value) == Escaped(WithoutCr(value), ESCAPED)
  {
    hide Replace, EscapeChar;
    if value != "" {
      var x, more := value[0], value[1..];
      assert value == [x] + more;
      ChainAppend([x], more);
      ChainOne(x);
      ChainNothing();
      EscapeIsMap(more);
      hide Chain;
      EscapedCons(x, WithoutCr(more));
      assert WithoutCr(value) == if x == '\r' then WithoutCr(more) else [x] + WithoutCr(more);
      assert "" + Escaped(WithoutCr(more), ESCAPED) == Escaped(WithoutCr(more), ESCAPED);
      hide Escaped, WithoutCr;
    }
  }

  lemma ChainNothing()
    ensures Chain("") == ""
  {
  }

  lemma EscapedCons(x: char, s: string)
    ensures Escaped([x] + s, ESCAPED) == EscapeChar(x, ESCAPED) + Escaped(s, ESCAPED)
  {
    assert ([x] + s)[1..] == s;
    hide EscapeChar;
  }

  /** No line break is left in an escaped value. */
  lemma {:induction false} NoRawBreak(value: string)
    ensures '\n' !in EscapeVCardValue(value) && '\r' !in EscapeVCardValue(value)
  {
    EscapeIsMap(value);
    EscapedHasNoBreak(WithoutCr(value));
  }

  lemma {:induction false} EscapedHasNoBreak(s: string)
    requires '\r' !in s
    ensures '\n' !in Escaped(s, ESCAPED) && '\r' !in Escaped(s, ESCAPED)
  {
    if s != "" { EscapedHasNoBreak(s[1..]); }
  }

  lemma {:induction false} EscapedApart(a: string, b: string)
    requires Escaped(a, ESCAPED) == Escaped(b, ESCAPED)
    ensures a == b
  {
    var ea, eb := Escaped(a, ESCAPED), Escaped(b, ESCAPED);
    if a != "" && b != "" {
      var ca, cb := EscapeChar(a[0], ESCAPED), EscapeChar(b[0], ESCAPED);
      assert ea[0] == ca[0] && eb[0] == cb[0];
      if a[0] in ESCAPED { assert ea[1] == ca[1]; }
      if b[0] in ESCAPED { assert eb[1] == cb[1]; }
      assert a[0] == b[0];
      assert ea[|ca|..] == Escaped(a[1..], ESCAPED) && eb[|ca|..] == Escaped(b[1..], ESCAPED);
      EscapedApart(a[1..], b[1..]);
      assert a == [a[0]] + a[1..];
    }
  }

  /** Two values are escaped alike exactly when they differ in carriage returns only. */
  lemma EscapedAlikeExactly(a: string, b: string)
    ensures EscapeVCardValue(a) == EscapeVCardValue(b) <==> WithoutCr(a) == WithoutCr(b)
  {
    EscapeIsMap(a);
    EscapeIsMap(b);
    if EscapeVCardValue(a) == EscapeVCardValue(b) { EscapedApart(WithoutCr(a), WithoutCr(b)); }
  }

  // ----- decoding, one replacement at a time -----

  /** A backslash with an `n` behind it: escaped, the second backslash and the `n` read as a line break. */
  predicate SlipAt(s: string, i: nat) {
    i + 1 < |s| && s[i] == '\\' && s[i + 1] in {'n', 'N'}
  }

  predicate Slips(s: string) {
    exists i :: 0 <= i < |s| && SlipAt(s, i)
  }

  function Letter(c: char): char {
    if c == '\n' then 'n' else c
  }

  /** One replacement undoes the escaping of one character and leaves the others as they were. */
  lemma {:induction false} PassUndoes(s: string, todo: set<char>, xs: set<char>, c: char)
    requires '\\' in todo && c in todo && Letter(c) in xs && todo <= ESCAPED
    requires forall d :: d in todo && d != c ==> Letter(d) !in xs
    requires forall i :: 0 <= i && i + 1 < |s| && s[i] == '\\' && s[i + 1] in xs ==> s[i + 1] in todo
    ensures ReplacePairs(Escaped(s, todo), xs, c) == Escaped(s, todo - {c})
  {
    if s != "" {
      var rest := s[1..];
      var tail := Escaped(rest, todo);
      assert forall i :: 0 <= i < |rest| ==> rest[i] == s[i + 1];
      PassUndoes(rest, todo, xs, c);
      if s[0] == '\\' && c != '\\' { FirstOfRest(s, todo, xs, c); }
      if s[0] !in todo {
        PassPlain(s[0], tail, xs, c);
      } else if s[0] == c {
        PassHit(Letter(c), tail, xs, c);
      } else {
        PassMiss(Letter(s[0]), tail, xs, c);
      }
      hide ReplacePairs;
    }
  }

  lemma PassPlain(x: char, tail: string, xs: set<char>, c: char)
    requires x != '\\'
    ensures ReplacePairs([x] + tail, xs, c) == [x] + ReplacePairs(tail, xs, c)
  {
    assert ([x] + tail)[1..] == tail;
  }

  lemma PassHit(y: char, tail: string, xs: set<char>, c: char)
    requires y in xs
    ensures ReplacePairs(['\\', y] + tail, xs, c) == [c] + ReplacePairs(tail, xs, c)
  {
    assert (['\\', y] + tail)[2..] == tail;
  }

  lemma PassMiss(y: char, tail: string, xs: set<char>, c: char)
    requires y !in xs && (y == '\\' && tail != "" ==> tail[0] !in xs)
    ensures ReplacePairs(['\\', y] + tail, xs, c) == ['\\', y] + ReplacePairs(tail, xs, c)
  {
    var e := ['\\', y] + tail;
    assert e[1..] == [y] + tail && ([y] + tail)[1..] == tail;
    assert ReplacePairs([y] + tail, xs, c) == [y] + ReplacePairs(tail, xs, c);
    assert ReplacePairs(e, xs, c) == ['\\'] + ReplacePairs([y] + tail, xs, c);
  }

  lemma FirstOfRest(s: string, todo: set<char>, xs: set<char>, c: char)
    requires s != "" && s[0] == '\\' && c != '\\' && '\\' in todo
    requires forall d :: d in todo && d != c ==> Letter(d) !in xs
    requires |s| > 1 && s[1] in xs ==> s[1] in todo
    ensures var tail := Escaped(s[1..], todo); tail == "" || tail[0] !in xs
  {
    var rest := s[1..];
    if rest != "" { assert Escaped(rest, todo)[0] == EscapeChar(rest[0], todo)[0]; }
  }

  function LineFeeds(s: string): nat {
    if s == "" then 0 else (if s[0] == '\n' then 1 else 0) + LineFeeds(s[1..])
  }

  function SlipCount(s: string): nat {
    if s == "" then 0 else (if SlipAt(s, 0) then 1 else 0) + SlipCount(s[1..])
  }

  const BREAKS: set<char> := {'n', 'N'}

  lemma CountCons(c: char, s: string)
    ensures LineFeeds([c] + s) == (if c == '\n' then 1 else 0) + LineFeeds(s)
  {
    assert ([c] + s)[1..] == s;
  }

  lemma CountTwo(c: char, d: char, s: string)
    requires c != '\n' && d != '\n'
    ensures LineFeeds([c, d] + s) == LineFeeds(s)
  {
    assert [c, d] + s == [c] + ([d] + s);
    CountCons(c, [d] + s);
    CountCons(d, s);
  }

  lemma CountPlain(x: char, tail: string)
    requires x !in ESCAPED
    ensures LineFeeds(ReplacePairs([x] + tail, BREAKS, '\n')) == LineFeeds(ReplacePairs(tail, BREAKS, '\n'))
  {
    PassPlain(x, tail, BREAKS, '\n');
    hide ReplacePairs;
    CountCons(x, ReplacePairs(tail, BREAKS, '\n'));
  }

  lemma CountBreak(tail: string)
    ensures LineFeeds(ReplacePairs(['\\', 'n'] + tail, BREAKS, '\n')) == 1 + LineFeeds(ReplacePairs(tail, BREAKS, '\n'))
  {
    PassHit('n', tail, BREAKS, '\n');
    hide ReplacePairs;
    CountCons('\n', ReplacePairs(tail, BREAKS, '\n'));
  }

  lemma CountOther(x: char, tail: string)
    requires x in {'\\', ';', ','} && (x == '\\' && tail != "" ==> tail[0] !in BREAKS)
    ensures LineFeeds(ReplacePairs(['\\', x] + tail, BREAKS, '\n')) == LineFeeds(ReplacePairs(tail, BREAKS, '\n'))
  {
    PassMiss(x, tail, BREAKS, '\n');
    hide ReplacePairs;
    CountTwo('\\', x, ReplacePairs(tail, BREAKS, '\n'));
  }

  /** The second backslash of an escaped one is taken together with the `n` behind it. */
  lemma CountSlip(n: char, more: string)
    requires n in BREAKS
    ensures LineFeeds(ReplacePairs(['\\', '\\'] + ([n] + more), BREAKS, '\n'))
         == 1 + LineFeeds(ReplacePairs([n] + more, BREAKS, '\n'))
  {
    var s := ['\\', n] + more;
    assert ['\\', '\\'] + ([n] + more) == ['\\'] + s && (['\\'] + s)[1..] == s;
    assert ReplacePairs(['\\'] + s, BREAKS, '\n') == ['\\'] + ReplacePairs(s, BREAKS, '\n');
    PassHit(n, more, BREAKS, '\n');
    PassPlain(n, more, BREAKS, '\n');
    hide ReplacePairs;
    var rest := ReplacePairs(more, BREAKS, '\n');
    CountCons('\\', ['\n'] + rest);
    CountCons('\n', rest);
    CountCons(n, rest);
  }

  lemma EscapedFirst(s: string)
    ensures var e := Escaped(s, ESCAPED);
            if s == "" then e == "" else e != "" && e[0] == EscapeChar(s[0], ESCAPED)[0]
    ensures s != "" && s[0] in BREAKS ==> Escaped(s, ESCAPED) == [s[0]] + Escaped(s[1..], ESCAPED)
  {
  }

  /** What the first replacement really does: a line feed for every one escaped, and one more for every slip. */
  lemma {:induction false} FirstPassCount(s: string)
    ensures LineFeeds(ReplacePairs(Escaped(s, ESCAPED), BREAKS, '\n')) == LineFeeds(s) + SlipCount(s)
  {
    if s != "" {
      var x, rest := s[0], s[1..];
      var tail := Escaped(rest, ESCAPED);
      FirstPassCount(rest);
      EscapedFirst(rest);
      assert Escaped(s, ESCAPED) == EscapeChar(x, ESCAPED) + tail;
      hide ReplacePairs, Escaped;
      if x !in ESCAPED {
        CountPlain(x, tail);
      } else if x == '\n' {
        CountBreak(tail);
      } else if SlipAt(s, 0) {
        CountSlip(rest[0], Escaped(rest[1..], ESCAPED));
      } else {
        CountOther(x, tail);
      }
    }
  }

  lemma {:induction false} SlipCounted(s: string)
    ensures SlipCount(s) > 0 <==> Slips(s)
  {
    if s != "" {
      SlipCounted(s[1..]);
      if SlipAt(s, 0) { assert Slips(s); }
      if Slips(s[1..]) {
        var i :| 0 <= i < |s[1..]| && SlipAt(s[1..], i);
        assert SlipAt(s, i + 1);
      }
      if Slips(s) && !SlipAt(s, 0) {
        var i :| 0 <= i < |s| && SlipAt(s, i);
        assert SlipAt(s[1..], i - 1);
      }
    }
  }

  lemma {:induction false} PassKeeps(s: string, xs: set<char>, y: char)
    requires '\n' !in xs && y != '\n' && y != '\r'
    ensures LineFeeds(ReplacePairs(s, xs, y)) == LineFeeds(s)
    ensures '\r' !in s ==> '\r' !in ReplacePairs(s, xs, y)
    decreases |s|
  {
    if |s| >= 2 && s[0] == '\\' && s[1] in xs {
      PassKeeps(s[2..], xs, y);
      CountCons(y, ReplacePairs(s[2..], xs, y));
      assert s[1..][1..] == s[2..];
    } else if s != "" {
      PassKeeps(s[1..], xs, y);
      CountCons(s[0], ReplacePairs(s[1..], xs, y));
    }
  }

  lemma {:induction false} FirstPassKeeps(s: string)
    requires '\r' !in s
    ensures '\r' !in ReplacePairs(s, {'n', 'N'}, '\n')
    decreases |s|
  {
    if |s| >= 2 && s[0] == '\\' && s[1] in {'n', 'N'} { FirstPassKeeps(s[2..]); }
    else if s != "" { FirstPassKeeps(s[1..]); }
  }

  lemma {:induction false} UnfoldFlat(s: string)
    requires '\n' !in s
    ensures Unfold(s) == s
  {
    if s != "" { UnfoldFlat(s[1..]); }
  }

  lemma {:induction false} EscapedNothing(s: string)
    ensures Escaped(s, {}) == s
  {
    if s != "" { EscapedNothing(s[1..]); }
  }

  lemma DecodesClean(s: string)
    requires '\r' !in s && !Slips(s)
    ensures UnfoldAndDecode(Escaped(s, ESCAPED)) == s
  {
    EscapedHasNoBreak(s);
    UnfoldFlat(Escaped(s, ESCAPED));
    FirstPass(s);
    LaterPasses(s);
    EscapedNothing(s);
    hide Unfold, ReplacePairs, Escaped;
  }

  lemma FirstPass(s: string)
    requires !Slips(s)
    ensures ReplacePairs(Escaped(s, ESCAPED), {'n', 'N'}, '\n') == Escaped(s, {'\\', ';', ','})
  {
    hide ReplacePairs, Escaped;
    assert forall i :: 0 <= i && i + 1 < |s| && s[i] == '\\' && s[i + 1] in {'n', 'N'} ==> SlipAt(s, i);
    PassUndoes(s, ESCAPED, {'n', 'N'}, '\n');
    assert ESCAPED - {'\n'} == {'\\', ';', ','};
  }

  lemma LaterPasses(s: string)
    ensures ReplacePairs(Escaped(s, {'\\', ';', ','}), {','}, ',') == Escaped(s, {'\\', ';'})
    ensures ReplacePairs(Escaped(s, {'\\', ';'}), {';'}, ';') == Escaped(s, {'\\'})
    ensures ReplacePairs(Escaped(s, {'\\'}), {'\\'}, '\\') == Escaped(s, {})
  {
    hide ReplacePairs, Escaped;
    PassUndoes(s, {'\\', ';', ','}, {','}, ',');
    assert {'\\', ';', ','} - {','} == {'\\', ';'};
    PassUndoes(s, {'\\', ';'}, {';'}, ';');
    assert {'\\', ';'} - {';'} == {'\\'};
    PassUndoes(s, {'\\'}, {'\\'}, '\\');
    assert {'\\'} - {'\\'} == {};
  }

  /**
   * The CardDAV decoder gives back exactly the values that have no carriage return and no
   * backslash directly before an `n`: every other value comes back changed.
   */
  lemma DecodesExactly(value: string)
    ensures UnfoldAndDecode(EscapeVCardValue(value)) == value <==> '\r' !in value && !Slips(value)
  {
    EscapeIsMap(value);
    if '\r' !in value && !Slips(value) {
      DecodesClean(value);
    } else {
      var s := WithoutCr(value);
      EscapedHasNoBreak(s);
      UnfoldFlat(Escaped(s, ESCAPED));
      var first := ReplacePairs(Escaped(s, ESCAPED), {'n', 'N'}, '\n');
      FirstPassKeeps(Escaped(s, ESCAPED));
      FirstPassCount(s);
      SlipCounted(s);
      PassKeeps(first, {','}, ',');
      var second := ReplacePairs(first, {','}, ',');
      PassKeeps(second, {';'}, ';');
      PassKeeps(ReplacePairs(second, {';'}, ';'), {'\\'}, '\\');
    }
  }

  // ----- unfolding -----

  lemma {:induction false} UnfoldPlain(a: string, rest: string)
    requires '\n' !in a && '\r' !in a
    ensures Unfold(a + rest) == a + Unfold(rest)
  {
    if a == "" {
      assert a + rest == rest;
    } else {
      assert (a + rest)[1..] == a[1..] + rest;
      UnfoldPlain(a[1..], rest);
      assert a == [a[0]] + a[1..];
    }
  }

  /** A fold of a line: a line break, one space or tab, and what goes on behind it. */
  datatype Fold = Fold(cr: bool, tab: bool, piece: string) {
    function Break(): (r: string)
      ensures |r| >= 2 && r[|r| - 2] == '\n'
    {
      (if cr then "\r\n" else "\n") + (if tab then "\t" else " ")
    }
  }

  predicate Flat(s: string) {
    '\n' !in s && '\r' !in s
  }

  function Folds(folds: seq<Fold>): string {
    if folds == [] then "" else folds[0].Break() + folds[0].piece + Folds(folds[1..])
  }

  function Pieces(folds: seq<Fold>): string {
    if folds == [] then "" else folds[0].piece + Pieces(folds[1..])
  }

  function TrimmedPieces(folds: seq<Fold>): (r: string)
    ensures |r| <= |Pieces(folds)|
  {
    if folds == [] then "" else TrimStart(folds[0].piece) + TrimmedPieces(folds[1..])
  }

  lemma UnfoldBreak(f: Fold, more: string)
    ensures Unfold(f.Break() + more) == Unfold(TrimStart(more))
    ensures TrimStart(f.Break() + more) == TrimStart(more)
  {
    var s := f.Break() + more;
    assert s[|f.Break()|..] == more;
    if f.cr {
      assert s[1..][1..][1..] == more;
      assert TrimStart(s) == TrimStart(s[1..]) == TrimStart(s[1..][1..]) == TrimStart(more);
    } else {
      assert s[1..][1..] == more;
      assert TrimStart(s) == TrimStart(s[1..]) == TrimStart(more);
    }
  }

  lemma {:induction false} TrimStartAppend(a: string, b: string)
    ensures TrimStart(a + b) == if TrimStart(a) == "" then TrimStart(b) else TrimStart(a) + b
  {
    if a == "" {
      assert a + b == b;
    } else {
      assert (a + b)[1..] == a[1..] + b;
      if IsSpace(a[0]) { TrimStartAppend(a[1..], b); }
    }
  }

  lemma {:induction false} UnfoldBehind(p: string, folds: seq<Fold>)
    requires Flat(p) && forall f :: f in folds ==> Flat(f.piece)
    ensures Unfold(TrimStart(p + Folds(folds))) == TrimStart(p) + TrimmedPieces(folds)
    decreases |folds|
  {
    hide Unfold, IsSpace, TrimStart;
    TrimStartKeeps(p, '\n');
    TrimStartKeeps(p, '\r');
    TrimStartAppend(p, Folds(folds));
    if folds == [] {
      assert p + "" == p && TrimStart(p) + "" == TrimStart(p);
      UnfoldFlat(TrimStart(p));
    } else {
      var f, rest := folds[0], folds[1..];
      var more := f.piece + Folds(rest);
      assert Folds(folds) == f.Break() + more;
      UnfoldBreak(f, more);
      UnfoldBehind(f.piece, rest);
      UnfoldPlain(TrimStart(p), Folds(folds));
    }
  }

  lemma {:induction false} TrimsNothingExactly(folds: seq<Fold>)
    ensures TrimmedPieces(folds) == Pieces(folds)
       <==> forall f :: f in folds ==> f.piece == "" || !IsSpace(f.piece[0])
  {
    hide IsSpace;
    if folds != [] {
      var f, rest := folds[0], folds[1..];
      TrimStartKeeps(f.piece, ' ');
      TrimsNothingExactly(rest);
      var a, b := TrimStart(f.piece) + TrimmedPieces(rest), f.piece + Pieces(rest);
      assert folds == [f] + rest;
      if a == b {
        assert a[..|f.piece|] == f.piece && a[|f.piece|..] == TrimmedPieces(rest) && b[|f.piece|..] == Pieces(rest);
        assert a[..|f.piece|] == TrimStart(f.piece);
      }
    }
  }

  /**
   * A line folded any number of times, with either line break and a space or a tab (section
   * 3.2 of RFC 6350), loses all white space that follows a fold, and so unfolds to what it
   * was exactly when no part behind a fold begins with white space.
   */
  lemma UnfoldsExactly(first: string, folds: seq<Fold>)
    requires Flat(first) && forall f :: f in folds ==> Flat(f.piece)
    ensures Unfold(first + Folds(folds)) == first + TrimmedPieces(folds)
    ensures Unfold(first + Folds(folds)) == first + Pieces(folds)
       <==> forall f :: f in folds ==> f.piece == "" || !IsSpace(f.piece[0])
  {
    hide Unfold, IsSpace, TrimStart;
    UnfoldPlain(first, Folds(folds));
    if folds == [] {
      UnfoldFlat("");
    } else {
      var f, more := folds[0], folds[0].piece + Folds(folds[1..]);
      assert Folds(folds) == f.Break() + more;
      UnfoldBreak(f, more);
      UnfoldBehind(f.piece, folds[1..]);
    }
    TrimsNothingExactly(folds);
    assert (first + TrimmedPieces(folds))[|first|..] == TrimmedPieces(folds);
    assert (first + Pieces(folds))[|first|..] == Pieces(folds);
  }

  lemma {:induction false} TrimStartKeeps(b: string, c: char)
    ensures c !in b ==> c !in TrimStart(b)
    ensures TrimStart(b) == b <==> b == "" || !IsSpace(b[0])
    ensures TrimStart(b) == b <==> |TrimStart(b)| == |b|
  {
    if b != "" && IsSpace(b[0]) { TrimStartKeeps(b[1..], c); }
  }

  // ----- values made of several parts -----

  function EscapeAll(parts: seq<string>): (r: seq<string>)
    ensures |r| == |parts|
  {
    seq(|parts|, i requires 0 <= i < |parts| => EscapeVCardValue(parts[i]))
  }

  /** Split at the separators that no backslash escapes, as section 3.4 of RFC 6350 has it. */
  function SplitUnescaped(s: string, sep: char): (r: seq<string>)
    ensures |r| >= 1
  {
    if s == "" then [""]
    else if s[0] == sep then [""] + SplitUnescaped(s[1..], sep)
    else if s[0] == '\\' && |s| >= 2 then
      var rest := SplitUnescaped(s[2..], sep);
      [s[..2] + rest[0]] + rest[1..]
    else
      var rest := SplitUnescaped(s[1..], sep);
      [[s[0]] + rest[0]] + rest[1..]
  }

  lemma {:induction false} EscapedStaysWhole(s: string, more: string, sep: char)
    requires sep == ';' || sep == ','
    ensures var r := SplitUnescaped(more, sep);
            SplitUnescaped(Escaped(s, ESCAPED) + more, sep) == [Escaped(s, ESCAPED) + r[0]] + r[1..]
  {
    var r := SplitUnescaped(more, sep);
    if s == "" {
      assert "" + more == more && "" + r[0] == r[0];
      assert r == [r[0]] + r[1..];
    } else {
      var one, tail := EscapeChar(s[0], ESCAPED), Escaped(s[1..], ESCAPED);
      EscapedStaysWhole(s[1..], more, sep);
      CharStaysWhole(s[0], tail + more, sep);
      hide SplitUnescaped, EscapeChar;
      assert one + (tail + more) == one + tail + more;
      assert one + (tail + r[0]) == one + tail + r[0];
      assert ([tail + r[0]] + r[1..])[1..] == r[1..];
    }
  }

  lemma CharStaysWhole(c: char, more: string, sep: char)
    requires sep == ';' || sep == ','
    ensures var r := SplitUnescaped(more, sep);
            SplitUnescaped(EscapeChar(c, ESCAPED) + more, sep) == [EscapeChar(c, ESCAPED) + r[0]] + r[1..]
  {
    var one := EscapeChar(c, ESCAPED);
    assert (one + more)[..|one|] == one && (one + more)[|one|..] == more;
  }

  /** Parts that were escaped and joined, as the name, the address and the categories are, come apart again. */
  lemma {:induction false} PartsComeBack(parts: seq<string>, sep: char)
    requires |parts| >= 1 && (sep == ';' || sep == ',')
    ensures SplitUnescaped(Join(EscapeAll(parts), sep), sep) == EscapeAll(parts)
  {
    hide SplitUnescaped, EscapeVCardValue;
    var first, rest := EscapeVCardValue(parts[0]), EscapeAll(parts[1..]);
    assert EscapeAll(parts) == [first] + rest;
    hide EscapeAll;
    if |parts| == 1 {
      WholeThen(parts[0], "", sep);
      SplitNothing(sep);
      assert rest == [] && first + "" == first;
    } else {
      var tail := Join(rest, sep);
      assert ([first] + rest)[1..] == rest;
      assert Join([first] + rest, sep) == first + ([sep] + tail);
      hide Join;
      PartsComeBack(parts[1..], sep);
      SplitAtSeparator(tail, sep);
      WholeThen(parts[0], [sep] + tail, sep);
      assert first + "" == first && ([""] + rest)[1..] == rest;
    }
  }

  lemma SplitNothing(sep: char)
    ensures SplitUnescaped("", sep) == [""]
  {
  }

  lemma WholeThen(value: string, more: string, sep: char)
    requires sep == ';' || sep == ','
    ensures var r := SplitUnescaped(more, sep);
            SplitUnescaped(EscapeVCardValue(value) + more, sep) == [EscapeVCardValue(value) + r[0]] + r[1..]
  {
    EscapeIsMap(value);
    EscapedStaysWhole(WithoutCr(value), more, sep);
  }

  lemma SplitAtSeparator(tail: string, sep: char)
    ensures SplitUnescaped([sep] + tail, sep) == [""] + SplitUnescaped(tail, sep)
  {
    assert ([sep] + tail)[1..] == tail;
  }

  lemma {:induction false} EscapedHas(s: string, c: char)
    requires c == ';' || c == ','
    ensures c in Escaped(s, ESCAPED) <==> c in s
  {
    if s != "" {
      EscapedHas(s[1..], c);
      var one := EscapeChar(s[0], ESCAPED);
      assert c in one <==> s[0] == c by {
        if s[0] == c { assert one[1] == c; }
      }
    }
  }

  // ----- categories -----

  function ReadParts(pieces: seq<string>): (r: seq<string>)
    ensures |r| == |pieces|
  {
    seq(|pieces|, i requires 0 <= i < |pieces| => UnfoldAndDecode(Trim(pieces[i])))
  }

  /** The CardDAV reader: an empty value is no match; otherwise split at every comma, trim, decode. */
  function ReadCategories(value: string): Option<seq<string>> {
    if value == "" then None else Some(ReadParts(Split(value, ',')))
  }

  /** White space that escaping leaves as it is. */
  predicate RawSpace(c: char) {
    IsSpace(c) && c != '\n'
  }

  predicate Padded(s: string) {
    s != "" && (RawSpace(s[0]) || RawSpace(s[|s| - 1]))
  }

  /** No comma, carriage return or backslash before an `n` in it, and no white space but line feeds around it. */
  predicate Readable(category: string) {
    ',' !in category && '\r' !in category && !Slips(category) && !Padded(category)
  }

  lemma {:induction false} ReplacePairsEnds(s: string, xs: set<char>, y: char)
    requires s != ""
    ensures var r := ReplacePairs(s, xs, y);
            r != "" && r[0] in {s[0], y} && r[|r| - 1] in {s[|s| - 1], y}
    decreases |s|
  {
    if |s| >= 2 && s[0] == '\\' && s[1] in xs {
      if |s| > 2 { ReplacePairsEnds(s[2..], xs, y); }
    } else if |s| > 1 {
      ReplacePairsEnds(s[1..], xs, y);
    }
  }

  /** A decoded value begins and ends as the text did, or with a character that had been escaped. */
  lemma DecodedEnds(t: string)
    requires '\n' !in t && t != ""
    ensures var d := UnfoldAndDecode(t);
            d != "" && d[0] in ESCAPED + {t[0]} && d[|d| - 1] in ESCAPED + {t[|t| - 1]}
  {
    UnfoldFlat(t);
    hide ReplacePairs, Unfold;
    ReplacePairsEnds(t, {'n', 'N'}, '\n');
    var t1 := ReplacePairs(t, {'n', 'N'}, '\n');
    ReplacePairsEnds(t1, {','}, ',');
    var t2 := ReplacePairs(t1, {','}, ',');
    ReplacePairsEnds(t2, {';'}, ';');
    ReplacePairsEnds(ReplacePairs(t2, {';'}, ';'), {'\\'}, '\\');
  }

  lemma DecodedHasNoCr(t: string)
    requires '\n' !in t && '\r' !in t
    ensures '\r' !in UnfoldAndDecode(t)
  {
    UnfoldFlat(t);
    hide ReplacePairs, Unfold;
    FirstPassKeeps(t);
    var t1 := ReplacePairs(t, {'n', 'N'}, '\n');
    PassKeeps(t1, {','}, ',');
    var t2 := ReplacePairs(t1, {','}, ',');
    PassKeeps(t2, {';'}, ';');
    PassKeeps(ReplacePairs(t2, {';'}, ';'), {'\\'}, '\\');
  }

  lemma {:induction false} TrimEndKeeps(s: string, c: char)
    ensures c !in s ==> c !in TrimEnd(s)
  {
    if s != "" && IsSpace(s[|s| - 1]) { TrimEndKeeps(s[..|s| - 1], c); }
  }

  lemma {:induction false} EscapedEnds(s: string)
    requires s != ""
    ensures var e := Escaped(s, ESCAPED);
            && e != ""
            && e[0] == (if s[0] in ESCAPED then '\\' else s[0])
            && e[|e| - 1] == Letter(s[|s| - 1])
  {
    if |s| > 1 {
      EscapedEnds(s[1..]);
      assert Escaped(s, ESCAPED)[|Escaped(s, ESCAPED)| - 1] == Escaped(s[1..], ESCAPED)[|Escaped(s[1..], ESCAPED)| - 1];
    } else {
      assert Escaped(s[1..], ESCAPED) == "";
      assert Escaped(s, ESCAPED) == EscapeChar(s[0], ESCAPED);
    }
  }

  lemma SpacesAreNotEscaped()
    ensures forall c :: c in ESCAPED ==> !RawSpace(c)
    ensures !IsSpace('\\') && !IsSpace('n')
  {
  }

  /** Escaped, a value that is not padded begins and ends with something other than white space. */
  lemma NotPaddedIsKept(c: string)
    requires c != "" && '\r' !in c && !Padded(c)
    ensures Trim(Escaped(c, ESCAPED)) == Escaped(c, ESCAPED)
  {
    EscapedEnds(c);
    SpacesAreNotEscaped();
    TrimmedIsFixed(Escaped(c, ESCAPED));
    hide Escaped, IsSpace, TrimStart, TrimEnd, Trim;
  }

  /** What has been trimmed does not decode to a padded value. */
  lemma TrimmedIsNotPadded(t: string)
    requires '\n' !in t && (t == "" || (!IsSpace(t[0]) && !IsSpace(t[|t| - 1])))
    ensures !Padded(UnfoldAndDecode(t))
  {
    if t == "" {
      assert UnfoldAndDecode(t) == "";
    } else {
      DecodedEnds(t);
      SpacesAreNotEscaped();
      hide UnfoldAndDecode, IsSpace;
    }
  }

  /** A category on its own, escaped, trimmed and decoded. */
  lemma PieceReadExactly(c: string)
    ensures UnfoldAndDecode(Trim(EscapeVCardValue(c))) == c <==> '\r' !in c && !Slips(c) && !Padded(c)
  {
    EscapeIsMap(c);
    NoRawBreak(c);
    DecodesExactly(c);
    hide EscapeVCardValue, UnfoldAndDecode, IsSpace, TrimStart, TrimEnd, Slips, Escaped, WithoutCr, Padded;
    var e := EscapeVCardValue(c);
    TrimStartKeeps(e, '\n');
    TrimEndKeeps(TrimStart(e), '\n');
    TrimStartKeeps(e, '\r');
    TrimEndKeeps(TrimStart(e), '\r');
    DecodedHasNoCr(Trim(e));
    TrimmedIsNotPadded(Trim(e));
    if '\r' !in c && !Padded(c) {
      NoCrIsKept(c);
      if c == "" { EmptyIsKept(); } else { NotPaddedIsKept(c); }
    }
  }

  lemma NoCrIsKept(c: string)
    requires '\r' !in c
    ensures WithoutCr(c) == c
  {
  }

  lemma EmptyIsKept()
    ensures Trim(Escaped("", ESCAPED)) == Escaped("", ESCAPED)
  {
  }

  /** Joined parts split into at least as many, and into as many only if no part has the separator. */
  lemma {:induction false} SplitsApart(parts: seq<string>, c: char)
    requires |parts| >= 1
    ensures |Split(Join(parts, c), c)| >= |parts|
    ensures |Split(Join(parts, c), c)| == |parts| <==> forall i :: 0 <= i < |parts| ==> c !in parts[i]
  {
    var first := Split(parts[0], c);
    assert |first| == 1 <==> c !in parts[0] by {
      if c !in parts[0] { SplitPlain(parts[0], c); }
      if |first| == 1 { assert Join(first, c) == first[0]; }
    }
    if |parts| > 1 {
      hide Split;
      SplitApart(parts[0], Join(parts[1..], c), c);
      SplitsApart(parts[1..], c);
      assert forall i :: 1 <= i < |parts| ==> parts[i] == parts[1..][i - 1];
    }
  }

  lemma {:induction false} JoinsToNothing(parts: seq<string>, c: char)
    requires |parts| >= 1
    ensures Join(parts, c) == "" <==> parts == [""]
  {
  }

  lemma EscapesToNothing(categories: seq<string>)
    ensures categories == [""] ==> EscapeAll(categories) == [""]
  {
  }

  /** Every escaped category keeps its commas. */
  lemma EscapeKeepsCommas(c: string)
    ensures ',' in EscapeVCardValue(c) <==> ',' in c
  {
    EscapeIsMap(c);
    EscapedHas(WithoutCr(c), ',');
    KeptByCr(c, ',');
  }

  /** Reading the written categories one by one. */
  lemma PartsReadExactly(categories: seq<string>)
    ensures ReadParts(EscapeAll(categories)) == categories
       <==> forall c :: c in categories ==> '\r' !in c && !Slips(c) && !Padded(c)
  {
    hide UnfoldAndDecode, EscapeVCardValue, Trim, Slips, Padded;
    var read := ReadParts(EscapeAll(categories));
    forall i | 0 <= i < |categories|
      ensures read[i] == categories[i] <==> '\r' !in categories[i] && !Slips(categories[i]) && !Padded(categories[i])
    {
      PieceReadExactly(categories[i]);
    }
    hide ReadParts, EscapeAll;
    if forall c :: c in categories ==> '\r' !in c && !Slips(c) && !Padded(c) {
      assert forall i :: 0 <= i < |categories| ==> categories[i] in categories;
    }
  }

  /** The pieces the reader finds are those written exactly when no category has a comma. */
  lemma PiecesFoundExactly(categories: seq<string>)
    requires |categories| >= 1
    ensures var pieces := Split(Join(EscapeAll(categories), ','), ',');
            var plain := forall c :: c in categories ==> ',' !in c;
            (plain ==> pieces == EscapeAll(categories)) && (|pieces| == |categories| <==> plain)
  {
    hide EscapeVCardValue, Split, Join;
    var escaped := EscapeAll(categories);
    forall i | 0 <= i < |categories| ensures ',' in escaped[i] <==> ',' in categories[i] {
      EscapeKeepsCommas(categories[i]);
    }
    hide EscapeAll;
    SplitsApart(escaped, ',');
    if forall c :: c in categories ==> ',' !in c {
      assert forall i :: 0 <= i < |categories| ==> categories[i] in categories;
      SplitJoin(escaped, ',');
    }
  }

  /** Nothing is written for one category that is empty, or nothing but carriage returns. */
  lemma NothingIsWritten(categories: seq<string>)
    requires |categories| >= 1
    ensures categories == [""] ==> Join(EscapeAll(categories), ',') == ""
    ensures Join(EscapeAll(categories), ',') == "" && categories != [""] ==> '\r' in categories[0]
  {
    JoinsToNothing(EscapeAll(categories), ',');
    EscapesToNothing(categories);
    if EscapeAll(categories) == [""] && categories != [""] {
      assert |categories| == 1 && categories[0] != "";
      EscapeIsMap(categories[0]);
      if '\r' !in categories[0] { EscapedEnds(categories[0]); }
    }
  }

  /**
   * What the CardDAV reader makes of the categories the Graph writer wrote: it reads them back
   * exactly when each is readable and they are not one empty category alone.
   */
  lemma CategoriesReadExactly(categories: seq<string>)
    requires |categories| >= 1
    ensures ReadCategories(Join(EscapeAll(categories), ',')) == Some(categories)
       <==> categories != [""] && forall c :: c in categories ==> Readable(c)
  {
    PiecesFoundExactly(categories);
    PartsReadExactly(categories);
    NothingIsWritten(categories);
    hide ReadParts, EscapeAll, Split, Join, Slips, Padded;
  }

  lemma {:induction false} KeptByCr(s: string, c: char)
    requires c != '\r'
    ensures c in WithoutCr(s) <==> c in s
  {
    if s != "" { KeptByCr(s[1..], c); }
  }
}
