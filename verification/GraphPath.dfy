/**
 * The OneDrive source's paths: `normalizePath` with its segment stack, and `itemPath`, the
 * natural key of a file, built with it.
 */
module GraphPath {
  import opened Outcomes
  import opened Text

  datatype Options = Options(collapseSlashes: bool, resolveDots: bool, removeTrailingSlash: bool)

  const DEFAULT: Options := Options(true, true, true)

  // ----- the program -----

  function Rooted(path: string): string {
    if path != "" && path[0] == '/' then path else "/" + path
  }

  /** `s.replace(/\/+/g, '/')`. */
  function Collapse(s: string): string {
    if s == "" then ""
    else if |s| >= 2 && s[0] == '/' && s[1] == '/' then Collapse(s[1..])
    else [s[0]] + Collapse(s[1..])
  }

  function Step(stack: seq<string>, segment: string): seq<string> {
    if segment == "." || segment == "" then stack
    else if segment == ".." then (if |stack| > 0 then stack[..|stack| - 1] else stack)
    else stack + [segment]
  }

  function Resolve(segments: seq<string>, stack: seq<string>): seq<string>
    decreases segments
  {
    if segments == [] then stack else Resolve(segments[1..], Step(stack, segments[0]))
  }

  function DropSlash(s: string): string {
    if |s| > 1 && s[|s| - 1] == '/' then s[..|s| - 1] else s
  }

  function NormalizePath(path: string, o: Options): string {
    if path == "" then "/"
    else
      var collapsed := if o.collapseSlashes then Collapse(Rooted(path)) else Rooted(path);
      var resolved := if o.resolveDots then "/" + Join(Resolve(Split(collapsed, '/'), []), '/') else collapsed;
      var short := if o.removeTrailingSlash then DropSlash(resolved) else resolved;
      if short == "" then "/" else short
  }

  /** `normalizePath` with its stack pushed and popped. */
  method Normalize(path: string, o: Options) returns (result: string)
    ensures result == NormalizePath(path, o)
  {
    hide Rooted, Collapse, Split, Join;
    if path == "" { return "/"; }
    result := Rooted(path);
    if o.collapseSlashes { result := Collapse(result); }
    if o.resolveDots {
      var segments := Split(result, '/');
      var resolved: seq<string> := [];
      assert segments[0..] == segments;
      for i := 0 to |segments|
        invariant Resolve(segments[i..], resolved) == Resolve(segments, [])
      {
        var segment := segments[i];
        assert segments[i..][0] == segment && segments[i..][1..] == segments[i + 1..];
        if segment == "." || segment == "" {
        } else if segment == ".." {
          if |resolved| > 0 { resolved := resolved[..|resolved| - 1]; }
        } else {
          resolved := resolved + [segment];
        }
      }
      result := "/" + Join(resolved, '/');
    }
    if o.removeTrailingSlash && |result| > 1 && result[|result| - 1] == '/' { result := result[..|result| - 1]; }
    if result == "" { result := "/"; }
  }

  // ----- what the path names -----

  /** A name as a folder or a file has it. */
  predicate Ordinary(name: string) {
    name != "" && name != "." && name != ".." && '/' !in name
  }

  predicate AllOrdinary(names: seq<string>) {
    forall i :: 0 <= i < |names| ==> Ordinary(names[i])
  }

  /** The names a path leads through, `.` and `..` taken as meant. */
  function Names(path: string): seq<string> {
    Resolve(Split(path, '/'), [])
  }

  lemma {:induction false} ResolveAppend(a: seq<string>, b: seq<string>, stack: seq<string>)
    ensures Resolve(a + b, stack) == Resolve(b, Resolve(a, stack))
    decreases a
  {
    if a == [] {
      assert a + b == b;
    } else {
      assert (a + b)[1..] == a[1..] + b;
      ResolveAppend(a[1..], b, Step(stack, a[0]));
    }
  }

  lemma {:induction false} ResolveOrdinary(segments: seq<string>, stack: seq<string>)
    requires AllOrdinary(stack) && forall i :: 0 <= i < |segments| ==> '/' !in segments[i]
    ensures AllOrdinary(Resolve(segments, stack))
    decreases segments
  {
    if segments != [] { ResolveOrdinary(segments[1..], Step(stack, segments[0])); }
  }

  lemma {:induction false} ResolveFixed(names: seq<string>, stack: seq<string>)
    requires AllOrdinary(names)
    ensures Resolve(names, stack) == stack + names
    decreases names
  {
    if names != [] {
      assert Ordinary(names[0]);
      ResolveFixed(names[1..], stack + [names[0]]);
      assert stack + [names[0]] + names[1..] == stack + names;
    }
  }

  /** Collapsing slashes changes neither the first segment nor what the later ones resolve to. */
  lemma {:induction false} CollapseResolves(s: string, stack: seq<string>)
    ensures Split(Collapse(s), '/')[0] == Split(s, '/')[0]
    ensures Resolve(Split(Collapse(s), '/')[1..], stack) == Resolve(Split(s, '/')[1..], stack)
  {
    if s != "" {
      SplitHead(s, '/');
      if |s| >= 2 && s[0] == '/' && s[1] == '/' {
        CollapseResolves(s[1..], stack);
        SplitHead(s[1..], '/');
        assert ([""] + Split(s[1..], '/'))[1..] == Split(s[1..], '/');
      } else {
        var short := Collapse(s[1..]);
        assert Collapse(s) == [s[0]] + short && ([s[0]] + short)[1..] == short;
        SplitHead(Collapse(s), '/');
        if s[0] == '/' {
          CollapseResolves(s[1..], Step(stack, Split(s[1..], '/')[0]));
          assert ([""] + Split(short, '/'))[1..] == Split(short, '/');
          assert ([""] + Split(s[1..], '/'))[1..] == Split(s[1..], '/');
        } else {
          CollapseResolves(s[1..], stack);
        }
      }
    }
  }

  lemma NamesOfCollapsed(s: string)
    ensures Names(Collapse(s)) == Names(s)
  {
    CollapseResolves(s, Step([], Split(s, '/')[0]));
  }

  lemma NamesOfRooted(path: string)
    ensures Names(Rooted(path)) == Names(path)
  {
    if !(path != "" && path[0] == '/') {
      SplitApart("", path, '/');
      assert "" + ['/'] + path == "/" + path;
      assert Split("", '/') == [""];
      ResolveAppend([""], Split(path, '/'), []);
      assert Resolve([""], []) == [];
    }
  }

  lemma {:induction false} JoinEnds(parts: seq<string>, c: char)
    requires |parts| >= 1 && forall i :: 0 <= i < |parts| ==> parts[i] != "" && c !in parts[i]
    ensures Join(parts, c) != "" && Join(parts, c)[|Join(parts, c)| - 1] != c
  {
    if |parts| > 1 {
      JoinEnds(parts[1..], c);
      var s, rest := Join(parts, c), Join(parts[1..], c);
      assert s == parts[0] + [c] + rest;
      assert s[|s| - 1] == rest[|rest| - 1];
    } else {
      assert parts[0][|parts[0]| - 1] in parts[0];
    }
  }

  /** The path with these names. */
  function PathOf(names: seq<string>): string {
    "/" + Join(names, '/')
  }

  lemma NamesAreOrdinary(path: string)
    ensures AllOrdinary(Names(path))
  {
    ResolveOrdinary(Split(path, '/'), []);
  }

  /** The normal form is the path of the names, whatever the slashes were. */
  lemma NormalForm(path: string)
    ensures NormalizePath(path, DEFAULT) == PathOf(Names(path)) && AllOrdinary(Names(path))
  {
    NamesAreOrdinary(path);
    NamesOfRooted(path);
    NamesOfCollapsed(Rooted(path));
    RootHasNoNames();
    assert Names(path) == Resolve(Split(Collapse(Rooted(path)), '/'), []);
    hide Names, Collapse, Resolve, Rooted, Split, Join;
    NoSlashToDrop(Names(path));
  }

  lemma RootHasNoNames()
    ensures Names("") == [] && PathOf([]) == "/"
  {
    assert Split("", '/') == [""];
    assert Resolve([""], []) == [];
  }

  lemma NoSlashToDrop(names: seq<string>)
    requires AllOrdinary(names)
    ensures DropSlash(PathOf(names)) == PathOf(names) != ""
  {
    if names != [] {
      JoinEnds(names, '/');
      assert PathOf(names)[|PathOf(names)| - 1] == Join(names, '/')[|Join(names, '/')| - 1];
    }
  }

  lemma NamesOfPath(names: seq<string>)
    requires AllOrdinary(names)
    ensures Names(PathOf(names)) == names
    ensures names != [] ==> Split(PathOf(names), '/') == [""] + names
  {
    SplitApart("", Join(names, '/'), '/');
    assert "" + ['/'] + Join(names, '/') == PathOf(names);
    assert Split("", '/') == [""];
    if names == [] {
      assert [""] + [""] == ["", ""] && ["", ""][1..] == [""] && [""][1..] == [];
      assert Resolve([""], []) == [];
    } else {
      SplitJoin(names, '/');
      ResolveFixed([""][1..] + names, []);
      assert ([""] + names)[1..] == names;
      ResolveFixed(names, []);
      assert [] + names == names;
    }
  }

  /** The result is the root, or a slash and names with nothing left to resolve. */
  lemma NothingLeftToResolve(path: string)
    ensures var result := NormalizePath(path, DEFAULT);
            result == "/" || exists names :: names != [] && AllOrdinary(names) && Split(result, '/') == [""] + names
  {
    NormalForm(path);
    NamesOfPath(Names(path));
    if Names(path) == [] { assert Join([], '/') == ""; }
  }

  lemma NormalNames(path: string)
    ensures Names(NormalizePath(path, DEFAULT)) == Names(path)
  {
    NormalForm(path);
    NamesOfPath(Names(path));
  }

  /** Two paths have one normal form exactly when they lead through the same names. */
  lemma SameNormalExactly(a: string, b: string)
    ensures NormalizePath(a, DEFAULT) == NormalizePath(b, DEFAULT) <==> Names(a) == Names(b)
  {
    NormalForm(a);
    NormalForm(b);
    NormalNames(a);
    NormalNames(b);
  }

  lemma Idempotent(path: string)
    ensures NormalizePath(NormalizePath(path, DEFAULT), DEFAULT) == NormalizePath(path, DEFAULT)
  {
    NormalNames(path);
    SameNormalExactly(NormalizePath(path, DEFAULT), path);
  }

  lemma NamesJoined(dir: string, name: string)
    ensures Names(dir + "/" + name) == Resolve(Split(name, '/'), Names(dir))
    ensures Ordinary(name) ==> Names(dir + "/" + name) == Names(dir) + [name]
  {
    SplitApart(dir, name, '/');
    ResolveAppend(Split(dir, '/'), Split(name, '/'), []);
    if Ordinary(name) {
      SplitPlain(name, '/');
      ResolveFixed([name], Names(dir));
    }
  }

  /** What the dots are for: `..` takes back the name before it, and `.` and nothing at all change nothing. */
  lemma DotsAreMeant(dir: string, name: string)
    requires Ordinary(name)
    ensures NormalizePath(dir + "/" + name + "/..", DEFAULT) == NormalizePath(dir, DEFAULT)
    ensures NormalizePath(dir + "/.", DEFAULT) == NormalizePath(dir, DEFAULT) == NormalizePath(dir + "/", DEFAULT)
    ensures Names(dir + "/" + name + "/..") == Names(dir) == Names(dir + "/.") == Names(dir + "/")
    ensures NormalizePath("/..", DEFAULT) == "/"
  {
    DotNames(dir, name);
    SameNormalExactly(dir + "/" + name + "/..", dir);
    SameNormalExactly(dir + "/.", dir);
    SameNormalExactly(dir + "/", dir);
    NormalForm("/..");
    AboveTheRoot();
  }

  lemma DotNames(dir: string, name: string)
    requires Ordinary(name)
    ensures Names(dir + "/" + name + "/..") == Names(dir) == Names(dir + "/.") == Names(dir + "/")
  {
    SplitPlain("..", '/');
    SplitPlain(".", '/');
    SplitPlain("", '/');
    NamesJoined(dir, name);
    NamesJoined(dir + "/" + name, "..");
    NamesJoined(dir, ".");
    NamesJoined(dir, "");
    assert dir + "/" + name + "/" + ".." == dir + "/" + name + "/..";
    assert dir + "/" + "." == dir + "/." && dir + "/" + "" == dir + "/";
    hide Split, Names;
    var names := Names(dir);
    assert Resolve([".."], names + [name]) == Resolve([], names) by {
      assert [".."][1..] == [] && (names + [name])[..|names + [name]| - 1] == names;
    }
    assert ["."][1..] == [] && [""][1..] == [];
  }

  lemma AboveTheRoot()
    ensures Names("/..") == [] && PathOf([]) == "/"
  {
    RootHasNoNames();
    SplitPlain("..", '/');
    NamesJoined("", "..");
    assert "" + "/" + ".." == "/..";
    assert [".."][1..] == [];
  }

  /** Normalising the directory first makes no difference to what is appended to it, whatever that is. */
  lemma DirectoryFirst(dir: string, name: string)
    ensures NormalizePath(NormalizePath(dir, DEFAULT) + "/" + name, DEFAULT) == NormalizePath(dir + "/" + name, DEFAULT)
  {
    var normal := NormalizePath(dir, DEFAULT);
    NormalNames(dir);
    NamesJoined(dir, name);
    NamesJoined(normal, name);
    SameNormalExactly(normal + "/" + name, dir + "/" + name);
  }

  // ----- normalising with other options -----

  predicate NoDoubles(s: string) {
    forall i :: 0 <= i && i + 1 < |s| ==> !(s[i] == '/' && s[i + 1] == '/')
  }

  lemma {:induction false} CollapseHasNoDoubles(s: string)
    ensures NoDoubles(Collapse(s))
    ensures s != "" ==> Collapse(s) != "" && Collapse(s)[0] == s[0]
  {
    if s != "" {
      CollapseHasNoDoubles(s[1..]);
      if !(|s| >= 2 && s[0] == '/' && s[1] == '/') {
        var c, rest := Collapse(s), Collapse(s[1..]);
        assert c == [s[0]] + rest;
        assert forall i :: 0 <= i < |rest| ==> c[i + 1] == rest[i];
        forall i | 0 <= i && i + 1 < |c| ensures !(c[i] == '/' && c[i + 1] == '/') {
          if i > 0 { assert c[i] == rest[i - 1]; }
        }
      }
    }
  }

  lemma {:induction false} CollapseFixed(s: string)
    requires NoDoubles(s)
    ensures Collapse(s) == s
  {
    if s != "" {
      assert forall i :: 0 <= i < |s[1..]| ==> s[1..][i] == s[i + 1];
      CollapseFixed(s[1..]);
    }
  }

  /**
   * For which options normalising twice is normalising once: not when a trailing slash is to
   * go while slashes are neither collapsed nor resolved, because one slash goes each time.
   */
  lemma IdempotentExactly(o: Options)
    ensures (forall path :: NormalizePath(NormalizePath(path, o), o) == NormalizePath(path, o))
       <==> o.collapseSlashes || o.resolveDots || !o.removeTrailingSlash
  {
    if o.collapseSlashes || o.resolveDots || !o.removeTrailingSlash {
      forall path ensures NormalizePath(NormalizePath(path, o), o) == NormalizePath(path, o) {
        if o.resolveDots { IdempotentResolving(path, o); } else { IdempotentPlain(path, o); }
      }
    } else {
      var path := "/a//";
      assert NormalizePath(path, o) == "/a/";
      assert NormalizePath("/a/", o) == "/a";
    }
  }

  lemma ResolvedForm(path: string, o: Options)
    requires o.resolveDots
    ensures NormalizePath(path, o) == NormalizePath(path, DEFAULT)
  {
    NormalForm(path);
    NamesOfRooted(path);
    if o.collapseSlashes { NamesOfCollapsed(Rooted(path)); }
    RootHasNoNames();
    var collapsed := if o.collapseSlashes then Collapse(Rooted(path)) else Rooted(path);
    assert Names(path) == Resolve(Split(collapsed, '/'), []);
    hide Names, Collapse, Resolve, Rooted, Split, Join;
    NoSlashToDrop(Names(path));
  }

  lemma IdempotentResolving(path: string, o: Options)
    requires o.resolveDots
    ensures NormalizePath(NormalizePath(path, o), o) == NormalizePath(path, o)
  {
    ResolvedForm(path, o);
    ResolvedForm(NormalizePath(path, o), o);
    Idempotent(path);
  }

  lemma IdempotentPlain(path: string, o: Options)
    requires !o.resolveDots && (o.collapseSlashes || !o.removeTrailingSlash)
    ensures NormalizePath(NormalizePath(path, o), o) == NormalizePath(path, o)
  {
    CollapseHasNoDoubles(Rooted(path));
    var once := NormalizePath(path, o);
    assert once != "" && once[0] == '/';
    assert Rooted(once) == once;
    if o.collapseSlashes {
      assert NoDoubles(once);
      CollapseFixed(once);
    }
  }

  // ----- the natural key of a file -----

  /** `s.indexOf(what)`; `None` is -1. */
  function Find(s: string, what: string): (r: Option<nat>)
    ensures r.Some? ==> r.value + |what| <= |s| && s[r.value..r.value + |what|] == what
  {
    if what <= s then Some(0)
    else if s == "" then None
    else
      match Find(s[1..], what)
      case None => None
      case Some(k) =>
        assert s[1..][k..k + |what|] == s[k + 1..k + 1 + |what|];
        Some(k + 1)
  }

  const MARKER := "root:"

  /** The directory in a parent reference: what follows `root:`. */
  function DirOf(parent: string): Option<string> {
    match Find(parent, MARKER)
    case None => None
    case Some(k) => Some(parent[k + |MARKER|..])
  }

  /** Where an item lives; `None` when that cannot be derived. The empty name is an absent one. */
  function ItemPath(name: string, parent: Option<string>): Option<string> {
    if name == "" || parent.None? || DirOf(parent.value).None? then None
    else Some(NormalizePath(DirOf(parent.value).value + "/" + name, DEFAULT))
  }

  predicate MarkerAt(parent: string, k: nat) {
    k + 5 <= |parent| && parent[k..k + 5] == "root:"
  }

  lemma {:induction false} FindIsFirst(s: string)
    ensures Find(s, MARKER).None? <==> forall k: nat :: !MarkerAt(s, k)
    ensures Find(s, MARKER).Some? ==>
              MarkerAt(s, Find(s, MARKER).value) && forall j: nat :: j < Find(s, MARKER).value ==> !MarkerAt(s, j)
  {
    if s == "" {
    } else if MARKER <= s {
      assert MarkerAt(s, 0);
    } else {
      FindIsFirst(s[1..]);
      forall k: nat ensures MarkerAt(s, k) <==> k > 0 && MarkerAt(s[1..], k - 1) {
        if k > 0 && k + 5 <= |s| { assert s[1..][k - 1..k + 4] == s[k..k + 5]; }
      }
      if k: nat :| MarkerAt(s[1..], k) { assert MarkerAt(s, k + 1); }
    }
  }

  /**
   * An item has a place exactly if it has a name and a parent with the marker in it: the name in what
   * follows the first one.
   */
  lemma PlaceExactly(name: string, parent: Option<string>)
    ensures ItemPath(name, parent).Some? <==> name != "" && parent.Some? && exists k: nat :: MarkerAt(parent.value, k)
    ensures forall k: nat :: name != "" && parent.Some? && MarkerAt(parent.value, k)
                             && (forall j: nat :: j < k ==> !MarkerAt(parent.value, j)) ==>
              ItemPath(name, parent) == Some(NormalizePath(parent.value[k + 5..] + "/" + name, DEFAULT))
  {
    hide Find, MarkerAt, NormalizePath;
    if parent.Some? {
      FindIsFirst(parent.value);
      forall k: nat | name != "" && MarkerAt(parent.value, k) && (forall j: nat :: j < k ==> !MarkerAt(parent.value, j))
        ensures k + 5 <= |parent.value|
        ensures ItemPath(name, parent) == Some(NormalizePath(parent.value[k + 5..] + "/" + name, DEFAULT))
      {
        assert Find(parent.value, MARKER) == Some(k);
      }
    }
  }

  /** A key is the normalised directory with the name behind it. */
  lemma KeyIsDirectoryAndName(dir: string, name: string)
    requires Ordinary(name)
    ensures var normal := NormalizePath(dir, DEFAULT);
            NormalizePath(dir + "/" + name, DEFAULT) == (if normal == "/" then "/" + name else normal + "/" + name)
  {
    NormalForm(dir);
    NormalForm(dir + "/" + name);
    NamesJoined(dir, name);
    hide NormalizePath, Names;
    PathSnoc(Names(dir), name);
  }

  lemma PathSnoc(names: seq<string>, name: string)
    requires AllOrdinary(names)
    ensures PathOf(names + [name]) == (if PathOf(names) == "/" then "/" + name else PathOf(names) + "/" + name)
  {
    if names == [] {
      assert Join([], '/') == "" && [] + [name] == [name];
    } else {
      JoinSnoc(names, name, '/');
      JoinEnds(names, '/');
      assert PathOf(names) != "/";
      assert "/" + (Join(names, '/') + ['/'] + name) == PathOf(names) + "/" + name;
    }
  }

  /** Two files with ordinary names share a key exactly when they share the normalised directory and the name. */
  lemma SameKeyExactly(parentA: string, a: string, parentB: string, b: string)
    requires Ordinary(a) && Ordinary(b) && DirOf(parentA).Some? && DirOf(parentB).Some?
    ensures ItemPath(a, Some(parentA)) == ItemPath(b, Some(parentB))
       <==> NormalizePath(DirOf(parentA).value, DEFAULT) == NormalizePath(DirOf(parentB).value, DEFAULT) && a == b
  {
    var dirA, dirB := DirOf(parentA).value, DirOf(parentB).value;
    SameNormalExactly(dirA, dirB);
    SameNormalExactly(dirA + "/" + a, dirB + "/" + b);
    NamesJoined(dirA, a);
    NamesJoined(dirB, b);
    hide Names, NormalizePath;
    if Names(dirA) + [a] == Names(dirB) + [b] {
      assert (Names(dirA) + [a])[..|Names(dirA)|] == Names(dirA) && (Names(dirB) + [b])[..|Names(dirB)|] == Names(dirB);
      assert (Names(dirA) + [a])[|Names(dirA)|] == a;
    }
  }
}
