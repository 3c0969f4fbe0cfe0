/**
 * Slash-separated path strings: splitting and joining, the segment stack that
 * both of the agent's normalisers maintain, and what pathname resolution does
 * with the same string on a tree without symbolic links (section 4.13 of the
 * POSIX.1-2017 Base Definitions).
 */
module PathNames {
  import opened Wrappers

  /** `str::split('/')`. */
  function Split(s: string): (parts: seq<string>)
    ensures |parts| > 0
    ensures forall p <- parts :: '/' !in p
  {
    if s == "" then [""]
    else
      var rest := Split(s[1..]);
      if s[0] == '/' then [""] + rest else [[s[0]] + rest[0]] + rest[1..]
  }

  function Join(parts: seq<string>): string {
    if parts == [] then "" else if |parts| == 1 then parts[0] else parts[0] + "/" + Join(parts[1..])
  }

  lemma {:induction false} JoinSplit(s: string)
    ensures Join(Split(s)) == s
  {
    if s == "" {
    } else {
      var rest := Split(s[1..]);
      JoinSplit(s[1..]);
      if s[0] == '/' {
        assert Split(s)[1..] == rest;
      } else {
        assert Split(s)[1..] == rest[1..];
      }
    }
  }

  lemma {:induction false} SplitPlain(p: string)
    requires '/' !in p
    ensures Split(p) == [p]
  {
    if p == "" {
    } else {
      SplitPlain(p[1..]);
      assert [p[0]] + p[1..] == p;
    }
  }

  /** Splitting at a known slash. */
  lemma {:induction false} SplitAtSlash(a: string, b: string)
    ensures Split(a + "/" + b) == Split(a) + Split(b)
  {
    if a == "" {
      assert (a + "/" + b)[1..] == b;
    } else {
      assert (a + "/" + b)[1..] == a[1..] + "/" + b;
      SplitAtSlash(a[1..], b);
    }
  }

  lemma {:induction false} SplitJoin(parts: seq<string>)
    requires parts != [] && forall p <- parts :: '/' !in p
    ensures Split(Join(parts)) == parts
  {
    SplitPlain(parts[0]);
    if |parts| <= 1 {
    } else {
      SplitAtSlash(parts[0], Join(parts[1..]));
      SplitJoin(parts[1..]);
      assert parts == [parts[0]] + parts[1..];
    }
  }

  lemma {:induction false} JoinAppend(a: seq<string>, b: seq<string>)
    requires a != [] && b != []
    ensures Join(a + b) == Join(a) + "/" + Join(b)
  {
    if |a| == 1 {
      assert (a + b)[1..] == b;
    } else {
      assert (a + b)[1..] == a[1..] + b;
      JoinAppend(a[1..], b);
    }
  }

  /** `p` is a prefix of `s` part by part, its last part only needing to start the corresponding one. */
  predicate PartsStartWith(s: seq<string>, p: seq<string>)
    requires p != []
  {
    s != [] && if |p| == 1 then p[0] <= s[0] else s[0] == p[0] && PartsStartWith(s[1..], p[1..])
  }

  /** A string prefix is exactly a part-by-part prefix. */
  lemma {:induction false} PrefixByParts(s: string, p: string)
    ensures p <= s <==> PartsStartWith(Split(s), Split(p))
  {
    if p == "" {
      assert Split(p)[0] <= Split(s)[0];
    } else if s != "" {
      PrefixByParts(s[1..], p[1..]);
      var sp, pp := Split(s[1..]), Split(p[1..]);
      assert p <= s <==> p[0] == s[0] && p[1..] <= s[1..];
      if s[0] != p[0] {
        DifferentHead(s, p);
      } else if s[0] == '/' {
        assert Split(s)[1..] == sp && Split(p)[1..] == pp;
      } else {
        SameHead(sp, pp, s[0]);
      }
    }
  }

  lemma SameHead(s: seq<string>, p: seq<string>, c: char)
    requires s != [] && p != []
    ensures PartsStartWith([[c] + s[0]] + s[1..], [[c] + p[0]] + p[1..]) <==> PartsStartWith(s, p)
  {
    var s', p' := [[c] + s[0]] + s[1..], [[c] + p[0]] + p[1..];
    assert s'[1..] == s[1..] && p'[1..] == p[1..];
    assert s'[0][1..] == s[0] && p'[0][1..] == p[0];
    assert p'[0] <= s'[0] <==> p[0] <= s[0];
  }

  lemma DifferentHead(s: string, p: string)
    requires s != "" && p != "" && s[0] != p[0]
    ensures !PartsStartWith(Split(s), Split(p))
  {
    assert s[0] != '/' ==> Split(s)[0][0] == s[0];
    assert p[0] != '/' ==> Split(p)[0][0] == p[0];
  }

  predicate EndsWith(s: string, suffix: string) {
    |suffix| <= |s| && s[|s| - |suffix|..] == suffix
  }

  /** A string ends in a slash and `name1/…/namek` exactly when those names are its last parts, but not all. */
  lemma SuffixByParts(s: string, names: seq<string>)
    requires names != [] && forall n <- names :: '/' !in n
    ensures EndsWith(s, "/" + Join(names)) <==> |Split(s)| > |names| && Split(s)[|Split(s)| - |names|..] == names
  {
    if EndsWith(s, "/" + Join(names)) { SuffixHasParts(s, names); }
    var k := |Split(s)| - |names|;
    if k > 0 && Split(s)[k..] == names { PartsGiveSuffix(s, names); }
  }

  lemma SuffixHasParts(s: string, names: seq<string>)
    requires names != [] && forall n <- names :: '/' !in n
    requires EndsWith(s, "/" + Join(names))
    ensures |Split(s)| > |names| && Split(s)[|Split(s)| - |names|..] == names
  {
    var q := Join(names);
    SplitJoin(names);
    var a := s[..|s| - |"/" + q|];
    TailOf(s, a, q);
    SplitAtSlash(a, q);
    assert Split(s) == Split(a) + names;
  }

  lemma TailOf(s: string, a: string, q: string)
    requires EndsWith(s, "/" + q) && a == s[..|s| - |"/" + q|]
    ensures s == a + "/" + q
  {
    assert s == a + ("/" + q);
    assert a + ("/" + q) == a + "/" + q;
  }

  lemma TailIs(s: string, a: string, q: string)
    requires s == a + "/" + q
    ensures EndsWith(s, "/" + q)
  {
    assert s == a + ("/" + q);
  }

  lemma PartsGiveSuffix(s: string, names: seq<string>)
    requires names != [] && |Split(s)| > |names| && Split(s)[|Split(s)| - |names|..] == names
    ensures EndsWith(s, "/" + Join(names))
  {
    var front := Split(s)[..|Split(s)| - |names|];
    assert Split(s) == front + names;
    JoinSplit(s);
    JoinAppend(front, names);
    TailIs(s, Join(front), Join(names));
  }

  // ---- The segment stack ----

  /** One segment: empty and "." do nothing, ".." pops if it can, a name is pushed. */
  function StackStep(stack: seq<string>, segment: string): seq<string> {
    if segment == "" || segment == "." then stack
    else if segment == ".." then if stack == [] then [] else stack[..|stack| - 1]
    else stack + [segment]
  }

  function Stack(start: seq<string>, segments: seq<string>): seq<string>
    decreases |segments|
  {
    if segments == [] then start else Stack(StackStep(start, segments[0]), segments[1..])
  }

  /** A component that names an entry, rather than standing still or going up. */
  predicate IsOrdinary(component: string) {
    component != "" && component != "." && component != ".."
  }

  predicate IsName(segment: string) {
    IsOrdinary(segment) && '/' !in segment
  }

  predicate AllNames(segments: seq<string>) {
    forall s <- segments :: IsName(s)
  }

  /** The normal form of a path: the names that lead to it from its start. */
  function Normal(path: string): seq<string> {
    Stack([], Split(path))
  }

  lemma {:induction false} StackAppend(start: seq<string>, a: seq<string>, b: seq<string>)
    ensures Stack(start, a + b) == Stack(Stack(start, a), b)
    decreases |a|
  {
    if a == [] {
      assert a + b == b;
    } else {
      assert (a + b)[1..] == a[1..] + b;
      StackAppend(StackStep(start, a[0]), a[1..], b);
    }
  }

  lemma StackSnoc(start: seq<string>, a: seq<string>, segment: string)
    ensures Stack(start, a + [segment]) == StackStep(Stack(start, a), segment)
  {
    StackAppend(start, a, [segment]);
  }

  /** Only names ever reach the stack. */
  lemma {:induction false} StackHoldsNames(start: seq<string>, segments: seq<string>)
    requires AllNames(start) && forall s <- segments :: '/' !in s
    ensures AllNames(Stack(start, segments))
    decreases |segments|
  {
    if segments == [] {
    } else {
      StackHoldsNames(StackStep(start, segments[0]), segments[1..]);
    }
  }

  lemma {:induction false} StackOfNames(start: seq<string>, names: seq<string>)
    requires AllNames(names)
    ensures Stack(start, names) == start + names
    decreases |names|
  {
    if names == [] {
    } else {
      assert IsName(names[0]);
      StackOfNames(start + [names[0]], names[1..]);
      assert start + names == start + [names[0]] + names[1..];
    }
  }

  lemma NormalIsNames(path: string)
    ensures AllNames(Normal(path))
  {
    StackHoldsNames([], Split(path));
  }

  // ---- Resolution on a tree without symbolic links ----

  datatype Tree = File(content: nat) | Directory(entries: map<string, Tree>)

  /** The node that a list of names leads to. */
  function Descend(t: Tree, names: seq<string>): Option<Tree> {
    if names == [] then Some(t)
    else if t.Directory? && names[0] in t.entries then Descend(t.entries[names[0]], names[1..])
    else None
  }

  predicate IsDirectory(root: Tree, names: seq<string>) {
    Descend(root, names).Some? && Descend(root, names).value.Directory?
  }

  /**
   * Resolution, one component after the other. A component is looked up only in a
   * directory; ".." is the parent, and the root's parent is the root.
   */
  function Walk(root: Tree, at: seq<string>, components: seq<string>): Option<seq<string>>
    decreases |components|
  {
    if components == [] then (if Descend(root, at).Some? then Some(at) else None)
    else if !IsDirectory(root, at) then None
    else
      var c := components[0];
      if c == "" || c == "." then Walk(root, at, components[1..])
      else if c == ".." then Walk(root, if at == [] then [] else at[..|at| - 1], components[1..])
      else if c in Descend(root, at).value.entries then Walk(root, at + [c], components[1..])
      else None
  }

  lemma {:induction false} DescendSnoc(t: Tree, names: seq<string>, name: string)
    ensures Descend(t, names + [name])
            == if IsDirectory(t, names) && name in Descend(t, names).value.entries
               then Some(Descend(t, names).value.entries[name]) else None
  {
    if names != [] {
      assert (names + [name])[1..] == names[1..] + [name];
      if t.Directory? && names[0] in t.entries { DescendSnoc(t.entries[names[0]], names[1..], name); }
    } else {
      assert names + [name] == [name];
    }
  }

  /** Every component but the last has to lead to a directory, and the last one somewhere. */
  ghost predicate Reaches(root: Tree, at: seq<string>, components: seq<string>) {
    && (forall k :: 0 <= k < |components| ==> IsDirectory(root, Stack(at, components[..k])))
    && Descend(root, Stack(at, components)).Some?
  }

  lemma ReachesFirst(root: Tree, at: seq<string>, components: seq<string>)
    requires components != []
    ensures Reaches(root, at, components)
            <==> IsDirectory(root, at) && Reaches(root, StackStep(at, components[0]), components[1..])
  {
    var rest, next := components[1..], StackStep(at, components[0]);
    assert forall k :: 0 < k <= |components| ==> components[..k][1..] == rest[..k - 1];
    assert components[..0] == [];
    assert forall k :: 0 < k < |components| ==> Stack(at, components[..k]) == Stack(next, rest[..k - 1]);
    if IsDirectory(root, at) && Reaches(root, next, rest) {
      forall k | 0 <= k < |components| ensures IsDirectory(root, Stack(at, components[..k])) {
        if k > 0 { assert IsDirectory(root, Stack(next, rest[..k - 1])); }
      }
    }
    if Reaches(root, at, components) {
      forall j | 0 <= j < |rest| ensures IsDirectory(root, Stack(next, rest[..j])) {
        assert IsDirectory(root, Stack(at, components[..j + 1]));
      }
    }
  }

  /** What a walk from a missing node cannot do. */
  lemma MissingNeverReaches(root: Tree, at: seq<string>, components: seq<string>)
    requires Descend(root, at).None?
    ensures !Reaches(root, at, components)
  {
    if components != [] { assert components[..0] == []; }
  }

  /**
   * Resolution against the stack, exactly: on any tree, resolving a path reaches a
   * node if and only if every intermediate stack is a directory of the tree and
   * the final one exists; and then the final stack is where it leads.
   */
  lemma {:induction false} ResolutionIsStack(root: Tree, at: seq<string>, components: seq<string>)
    ensures Walk(root, at, components)
            == if Reaches(root, at, components) then Some(Stack(at, components)) else None
    decreases |components|
  {
    if components == [] {
    } else {
      ReachesFirst(root, at, components);
      if IsDirectory(root, at) {
        var c := components[0];
        ResolutionIsStack(root, StackStep(at, c), components[1..]);
        if IsOrdinary(c) && c !in Descend(root, at).value.entries {
          DescendSnoc(root, at, c);
          MissingNeverReaches(root, at + [c], components[1..]);
        }
      }
    }
  }

  /** A list of names resolves wherever it leads. */
  lemma NamesResolve(root: Tree, names: seq<string>)
    requires AllNames(names)
    ensures Walk(root, [], names) == if Descend(root, names).Some? then Some(names) else None
  {
    ResolutionIsStack(root, [], names);
    StackOfNames([], names);
    assert [] + names == names;
    if Descend(root, names).Some? {
      forall k | 0 <= k < |names| ensures IsDirectory(root, Stack([], names[..k])) {
        StackOfNames([], names[..k]);
        AncestorIsDirectory(root, names, k);
      }
    }
  }

  /** A path that resolves at all and its normal form resolve to the same node. */
  lemma NormalFormResolvesTheSame(root: Tree, path: string)
    requires Walk(root, [], Split(path)).Some?
    ensures Walk(root, [], Split(path)) == Some(Normal(path)) == Walk(root, [], Normal(path))
  {
    ResolutionIsStack(root, [], Split(path));
    NormalIsNames(path);
    NamesResolve(root, Normal(path));
  }

  /** When normalising first makes no difference: the path reaches its end, or its normal form does not exist. */
  lemma ResolvesAlikeIff(root: Tree, path: string)
    ensures Walk(root, [], Split(path)) == Walk(root, [], Normal(path))
            <==> Reaches(root, [], Split(path)) || Descend(root, Normal(path)).None?
  {
    ResolutionIsStack(root, [], Split(path));
    NormalIsNames(path);
    NamesResolve(root, Normal(path));
  }

  lemma {:induction false} AncestorIsDirectory(root: Tree, names: seq<string>, k: nat)
    requires Descend(root, names).Some? && k < |names|
    ensures IsDirectory(root, [] + names[..k])
  {
    assert [] + names[..k] == names[..k];
    var short := names[..|names| - 1];
    assert names == short + [names[|names| - 1]];
    DescendSnoc(root, short, names[|names| - 1]);
    if k < |short| {
      AncestorIsDirectory(root, short, k);
      assert short[..k] == names[..k];
    } else {
      assert short == names[..k];
    }
  }

  lemma StackFour(a: string, b: string, c: string, d: string)
    ensures Stack([], [a, b, c, d]) == StackStep(StackStep(StackStep(StackStep([], a), b), c), d)
    ensures Stack([], [a, b]) == StackStep(StackStep([], a), b)
  {
    var s1 := StackStep([], a);
    var s2 := StackStep(s1, b);
    var s3 := StackStep(s2, c);
    assert [a, b, c, d][1..] == [b, c, d];
    assert [b, c, d][1..] == [c, d];
    assert [c, d][1..] == [d];
    assert [a, b][1..] == [b];
    assert Stack(s3, [d]) == Stack(StackStep(s3, d), []);
    assert Stack(s2, [c, d]) == Stack(s3, [d]);
    assert Stack(s1, [b, c, d]) == Stack(s2, [c, d]);
    assert Stack(s1, [b]) == Stack(s2, []);
  }

  /** The converse fails: where only `name` exists, "/missing/../name" does not resolve but its normal form does. */
  lemma NormalFormMayResolveMore(missing: string, name: string, path: string)
    requires IsName(missing) && IsName(name) && missing != name
    requires path == Join(["", missing, "..", name])
    ensures var root := Directory(map[name := Directory(map[])]);
            && Walk(root, [], Split(path)) == None
            && Walk(root, [], Normal(path)) == Some([name])
  {
    var root := Directory(map[name := Directory(map[])]);
    var parts := ["", missing, "..", name];
    SplitJoin(parts);
    StackFour("", missing, "..", name);
    assert StackStep(StackStep([], ""), missing) == [missing];
    assert Normal(path) == [name];
    assert parts[..2] == ["", missing];
    assert Descend(root, [missing]).None?;
    ResolutionIsStack(root, [], parts);
    NormalFormWalks(root, name);
  }

  lemma NormalFormWalks(root: Tree, name: string)
    requires IsName(name) && root.Directory? && name in root.entries
    ensures Walk(root, [], [name]) == Some([name])
  {
    assert [name][1..] == [] && [] + [name] == [name];
    assert Descend(root, [name]).Some?;
  }
}
