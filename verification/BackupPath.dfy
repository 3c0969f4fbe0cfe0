/**
 * The lexical containment test of `src/backup.rs`: `normalize_lexical` over
 * `Path::components` and a growing `PathBuf`, and the lexical part of
 * `within_roots`.
 */
module BackupPath {
  import opened Wrappers
  import opened PathNames
  import ConfigPath

  datatype Component = RootDir | CurDir | ParentDir | Normal(name: string)

  predicate IsAbsolute(path: string) {
    path != "" && path[0] == '/'
  }

  /** `Path::components` on Unix: empty and "." parts vanish, except a "." that starts a relative path. */
  function Components(path: string): seq<Component> {
    if IsAbsolute(path) then [RootDir] + PartComponents(Split(path))
    else if Split(path)[0] == "." then [CurDir] + PartComponents(Split(path)[1..])
    else PartComponents(Split(path))
  }

  function PartComponents(parts: seq<string>): seq<Component> {
    if parts == [] then []
    else if parts[0] == "" || parts[0] == "." then PartComponents(parts[1..])
    else [if parts[0] == ".." then ParentDir else Normal(parts[0])] + PartComponents(parts[1..])
  }

  /** `PathBuf::push`: an absolute argument replaces, any other is appended after one separator. */
  function Push(buffer: string, s: string): string {
    if IsAbsolute(s) then s
    else if buffer == "" || buffer[|buffer| - 1] == '/' then buffer + s
    else buffer + "/" + s
  }

  function LastSlash(s: string): (at: Option<nat>)
    ensures at.Some? ==> at.value < |s|
  {
    if s == "" then None
    else if s[|s| - 1] == '/' then Some(|s| - 1)
    else LastSlash(s[..|s| - 1])
  }

  /**
   * `PathBuf::pop` on a buffer without doubled or trailing slashes: cut to the
   * parent; "" and "/" have none and stay.
   */
  function Pop(buffer: string): string {
    if buffer == "" || buffer == "/" then buffer
    else match LastSlash(buffer)
         case None => ""
         case Some(at) => if at == 0 then "/" else buffer[..at]
  }

  /** The buffer that holds these names. */
  function Buffer(absolute: bool, names: seq<string>): string {
    (if absolute then "/" else "") + Join(names)
  }

  method NormalizeLexical(path: string) returns (out: string)
    ensures out == Buffer(IsAbsolute(path), PathNames.Normal(path))
  {
    var components := Components(path);
    ghost var names: seq<string> := [];
    out := "";
    for i := 0 to |components|
      invariant AllNames(names) && names == Fold([], components[..i])
      invariant out == if i == 0 then "" else Buffer(IsAbsolute(path), names)
    {
      ComponentShape(path, i);
      FoldSnoc([], components[..i], components[i]);
      assert components[..i + 1] == components[..i] + [components[i]];
      match components[i] {
        case ParentDir =>
          PopBuffer(IsAbsolute(path), names);
          out := Pop(out);
          names := if names == [] then [] else names[..|names| - 1];
        case CurDir =>
        case RootDir => out := Push(out, "/");
        case Normal(name) =>
          PushBuffer(IsAbsolute(path), names, name);
          out := Push(out, name);
          names := names + [name];
      }
    }
    assert components[..|components|] == components;
    FoldIsStack(path);
    NothingToNormalize(path);
  }

  // ---- The buffer ----

  lemma {:induction false} LastSlashAfter(a: string, name: string)
    requires '/' !in name
    ensures LastSlash(a + "/" + name) == Some(|a|)
    decreases |name|
  {
    var s := a + "/" + name;
    if name == "" {
    } else {
      assert s[..|s| - 1] == a + "/" + name[..|name| - 1];
      LastSlashAfter(a, name[..|name| - 1]);
    }
  }

  lemma {:induction false} NoLastSlash(name: string)
    requires '/' !in name
    ensures LastSlash(name).None?
  {
    if name == "" {
    } else {
      NoLastSlash(name[..|name| - 1]);
    }
  }

  lemma JoinSnoc(names: seq<string>, name: string)
    ensures Join(names + [name]) == if names == [] then name else Join(names) + "/" + name
  {
    if names == [] {
      assert names + [name] == [name];
    } else {
      JoinAppend(names, [name]);
    }
  }

  /** A joined list of names is not empty and does not end in a slash. */
  lemma JoinEnds(names: seq<string>)
    requires AllNames(names) && names != []
    ensures Join(names) != "" && Join(names)[|Join(names)| - 1] != '/'
  {
    var last := names[|names| - 1];
    assert IsName(last);
    assert names == names[..|names| - 1] + [last];
    JoinSnoc(names[..|names| - 1], last);
  }

  lemma PushBuffer(absolute: bool, names: seq<string>, name: string)
    requires AllNames(names) && IsName(name)
    ensures Push(Buffer(absolute, names), name) == Buffer(absolute, names + [name])
    ensures AllNames(names + [name])
  {
    var b := Buffer(absolute, names);
    JoinSnoc(names, name);
    assert !IsAbsolute(name) by { assert name[0] in name; }
    if names != [] {
      BufferEnds(absolute, names);
      assert Push(b, name) == b + "/" + name;
      BufferSnoc(absolute, names, name);
    }
  }

  lemma BufferEnds(absolute: bool, names: seq<string>)
    requires AllNames(names) && names != []
    ensures var b := Buffer(absolute, names); b != "" && b != "/" && b[|b| - 1] != '/'
  {
    JoinEnds(names);
    var b, j := Buffer(absolute, names), Join(names);
    assert b[|b| - 1] == j[|j| - 1];
  }

  lemma BufferSnoc(absolute: bool, names: seq<string>, name: string)
    requires names != []
    ensures Buffer(absolute, names + [name]) == Buffer(absolute, names) + "/" + name
  {
    JoinSnoc(names, name);
    Reassociate(if absolute then "/" else "", Join(names), "/" + name);
    Reassociate(Join(names), "/", name);
    Reassociate(Buffer(absolute, names), "/", name);
  }

  lemma Reassociate(a: string, b: string, c: string)
    ensures (a + b) + c == a + (b + c)
  {
  }

  lemma PopBuffer(absolute: bool, names: seq<string>)
    requires AllNames(names)
    ensures Pop(Buffer(absolute, names)) == Buffer(absolute, if names == [] then [] else names[..|names| - 1])
  {
    if names != [] {
      var front, last := names[..|names| - 1], names[|names| - 1];
      assert names == front + [last] && IsName(last);
      BufferEnds(absolute, names);
      if front == [] {
        PopSingle(absolute, last);
      } else {
        BufferSnoc(absolute, front, last);
        BufferEnds(absolute, front);
        PopLast(Buffer(absolute, front), last);
      }
    }
  }

  lemma PopLast(a: string, last: string)
    requires a != "" && '/' !in last && last != ""
    ensures Pop(a + "/" + last) == a
  {
    LastSlashAfter(a, last);
    assert (a + "/" + last)[..|a|] == a;
    assert |a + "/" + last| > 1;
  }

  lemma PopSingle(absolute: bool, last: string)
    requires IsName(last)
    ensures Pop(Buffer(absolute, [last])) == Buffer(absolute, [])
  {
    if absolute {
      LastSlashAfter("", last);
      assert Buffer(true, [last]) == "" + "/" + last;
    } else {
      NoLastSlash(last);
      assert Buffer(false, [last]) == last;
    }
  }

  // ---- Components against segments ----

  /** One turn of the normalising loop, on the names the buffer holds. */
  function FoldStep(names: seq<string>, c: Component): seq<string> {
    match c
    case ParentDir => if names == [] then [] else names[..|names| - 1]
    case Normal(name) => names + [name]
    case _ => names
  }

  function Fold(start: seq<string>, components: seq<Component>): seq<string>
    decreases |components|
  {
    if components == [] then start else Fold(FoldStep(start, components[0]), components[1..])
  }

  lemma {:induction false} FoldSnoc(start: seq<string>, components: seq<Component>, c: Component)
    ensures Fold(start, components + [c]) == FoldStep(Fold(start, components), c)
    decreases |components|
  {
    if components == [] {
      assert (components + [c])[1..] == [];
    } else {
      assert (components + [c])[1..] == components[1..] + [c];
      FoldSnoc(FoldStep(start, components[0]), components[1..], c);
    }
  }

  lemma {:induction false} FoldParts(start: seq<string>, parts: seq<string>)
    ensures Fold(start, PartComponents(parts)) == Stack(start, parts)
    decreases |parts|
  {
    if parts == [] {
    } else {
      FoldParts(StackStep(start, parts[0]), parts[1..]);
      var rest := PartComponents(parts[1..]);
      if parts[0] != "" && parts[0] != "." {
        assert PartComponents(parts)[1..] == rest;
      }
    }
  }

  /** Popping and pushing components yields the segments of the other normaliser's stack, on every path. */
  lemma FoldIsStack(path: string)
    ensures Fold([], Components(path)) == PathNames.Normal(path)
  {
    var parts := Split(path);
    FoldParts([], parts);
    FoldParts([], parts[1..]);
    if IsAbsolute(path) {
      assert Components(path)[1..] == PartComponents(parts);
    } else if parts[0] == "." {
      assert Components(path)[1..] == PartComponents(parts[1..]);
    }
  }

  lemma {:induction false} PartComponentShape(parts: seq<string>, i: nat)
    requires i < |PartComponents(parts)| && forall p <- parts :: '/' !in p
    ensures var c := PartComponents(parts)[i]; c.ParentDir? || (c.Normal? && IsName(c.name))
  {
    if parts[0] == "" || parts[0] == "." {
      PartComponentShape(parts[1..], i);
    } else if i > 0 {
      PartComponentShape(parts[1..], i - 1);
    }
  }

  /** A root comes first or not at all, exactly when the path is absolute. */
  lemma ComponentShape(path: string, i: nat)
    requires i < |Components(path)|
    ensures var c := Components(path)[i];
            && (c.RootDir? <==> IsAbsolute(path) && i == 0)
            && (c.CurDir? ==> i == 0)
            && (c.Normal? ==> IsName(c.name))
  {
    if IsAbsolute(path) {
      if i > 0 { PartComponentShape(Split(path), i - 1); }
    } else if Split(path)[0] == "." {
      if i > 0 { PartComponentShape(Split(path)[1..], i - 1); }
    } else {
      PartComponentShape(Split(path), i);
    }
  }

  lemma NothingToNormalize(path: string)
    ensures Components(path) == [] ==> !IsAbsolute(path) && Buffer(false, PathNames.Normal(path)) == ""
  {
    FoldIsStack(path);
  }

  // ---- Containment ----

  /** `Path::starts_with`: component by component. */
  predicate StartsWith(path: string, base: string) {
    Components(base) <= Components(path)
  }

  function Lexical(path: string): string {
    Buffer(IsAbsolute(path), PathNames.Normal(path))
  }

  /** The two normalisers of the agent agree character by character, up to the trailing slash `check` keeps. */
  lemma NormalisersAgree(path: string)
    requires ConfigPath.Checked(path).Ok?
    ensures ConfigPath.Checked(path).value == Lexical(path) + (if ConfigPath.EndsInSlash(path) then "/" else "")
  {
    ConfigPath.AcceptedIsNormal(path);
  }

  predicate WithinRootsLexically(path: string, roots: seq<string>) {
    exists r <- roots :: StartsWith(Lexical(path), Lexical(r))
  }

  function NameComponents(names: seq<string>): (cs: seq<Component>)
    ensures |cs| == |names|
  {
    if names == [] then [] else [Normal(names[0])] + NameComponents(names[1..])
  }

  function FullComponents(absolute: bool, names: seq<string>): seq<Component> {
    (if absolute then [RootDir] else []) + NameComponents(names)
  }

  lemma {:induction false} NamesAreComponents(names: seq<string>)
    requires AllNames(names)
    ensures PartComponents(names) == NameComponents(names)
  {
    if names == [] {
    } else {
      assert IsName(names[0]);
      NamesAreComponents(names[1..]);
    }
  }

  lemma BufferComponents(absolute: bool, names: seq<string>)
    requires AllNames(names)
    ensures Components(Buffer(absolute, names)) == FullComponents(absolute, names)
  {
    NamesAreComponents(names);
    if absolute {
      AbsoluteComponents(names);
    } else {
      assert Buffer(false, names) == Join(names);
      assert [] + NameComponents(names) == NameComponents(names);
      if names != [] {
        SplitJoin(names);
        assert IsName(names[0]);
        JoinStart(names);
      }
    }
  }

  lemma AbsoluteComponents(names: seq<string>)
    requires AllNames(names)
    ensures Components(Buffer(true, names)) == [RootDir] + PartComponents(names)
  {
    var parts := if names == [] then [""] else names;
    assert forall p <- parts :: '/' !in p;
    assert Buffer(true, names) == "" + "/" + Join(parts);
    SplitAtSlash("", Join(parts));
    SplitJoin(parts);
    assert ([""] + parts)[1..] == parts;
    assert PartComponents([""]) == PartComponents([]);
  }

  lemma JoinStart(names: seq<string>)
    requires AllNames(names) && names != []
    ensures Join(names) != "" && Join(names)[0] != '/'
  {
    assert IsName(names[0]);
    assert names[0][0] in names[0];
  }

  lemma {:induction false} NamePrefix(a: seq<string>, b: seq<string>)
    ensures NameComponents(a) <= NameComponents(b) <==> a <= b
  {
    if a == [] || b == [] {
    } else {
      NamePrefix(a[1..], b[1..]);
      assert NameComponents(a)[1..] == NameComponents(a[1..]) && NameComponents(b)[1..] == NameComponents(b[1..]);
      assert a <= b <==> a[0] == b[0] && a[1..] <= b[1..];
      assert NameComponents(a) <= NameComponents(b)
             <==> NameComponents(a)[0] == NameComponents(b)[0] && NameComponents(a)[1..] <= NameComponents(b)[1..];
    }
  }

  lemma FullPrefix(ra: bool, r: seq<string>, pa: bool, p: seq<string>)
    ensures FullComponents(ra, r) <= FullComponents(pa, p) <==> (ra == pa && r <= p) || (!ra && r == [])
  {
    var cr, cp := FullComponents(ra, r), FullComponents(pa, p);
    NamePrefix(r, p);
    if ra && pa {
      assert cp[1..] == NameComponents(p) && cr[1..] == NameComponents(r);
      assert cr <= cp <==> cr[1..] <= cp[1..];
    } else if !ra && !pa {
      assert cp == NameComponents(p) && cr == NameComponents(r);
    } else if ra {
      assert cr[0] == RootDir;
      if p != [] { assert cp[0] == Normal(p[0]); }
    } else if r != [] {
      assert cr[0] == Normal(r[0]) && cp[0] == RootDir;
    }
  }

  /** What acceptance compares: the kind of both paths, and the names of their normal forms. */
  lemma AcceptanceByNames(path: string, root: string)
    ensures StartsWith(Lexical(path), Lexical(root))
            <==> (IsAbsolute(root) == IsAbsolute(path) && PathNames.Normal(root) <= PathNames.Normal(path))
                 || (!IsAbsolute(root) && PathNames.Normal(root) == [])
  {
    NormalIsNames(path);
    NormalIsNames(root);
    BufferComponents(IsAbsolute(path), PathNames.Normal(path));
    BufferComponents(IsAbsolute(root), PathNames.Normal(root));
    FullPrefix(IsAbsolute(root), PathNames.Normal(root), IsAbsolute(path), PathNames.Normal(path));
  }

  // ---- Containment of what the two paths name ----

  /** Where a path leads from the working directory `cwd`, if it leads anywhere. */
  function Target(cwd: seq<string>, path: string): seq<string> {
    Stack(if IsAbsolute(path) then [] else cwd, Split(path))
  }

  /** From this working directory the path lies in the directory tree that the root names. */
  predicate Contained(cwd: seq<string>, path: string, root: string) {
    Target(cwd, root) <= Target(cwd, path)
  }

  ghost predicate AlwaysContained(path: string, root: string) {
    forall cwd | AllNames(cwd) :: Contained(cwd, path, root)
  }

  /** The target is where the path resolves, on any tree without symbolic links. */
  lemma TargetIsResolution(tree: Tree, cwd: seq<string>, path: string)
    ensures var at := Walk(tree, if IsAbsolute(path) then [] else cwd, Split(path));
            at.Some? ==> at.value == Target(cwd, path)
  {
    ResolutionIsStack(tree, if IsAbsolute(path) then [] else cwd, Split(path));
  }

  /** How far a relative path rises above where it starts: the ".." components that find an empty stack. */
  function Climb(stack: seq<string>, parts: seq<string>): nat
    decreases |parts|
  {
    if parts == [] then 0
    else (if parts[0] == ".." && stack == [] then 1 else 0) + Climb(StackStep(stack, parts[0]), parts[1..])
  }

  function Rises(path: string): nat {
    Climb([], Split(path))
  }

  /** `cwd` after going up `n` times. */
  function Up(cwd: seq<string>, n: nat): seq<string> {
    if n <= |cwd| then cwd[..|cwd| - n] else []
  }

  lemma {:induction false} StackOnTop(base: seq<string>, stack: seq<string>, parts: seq<string>)
    ensures Stack(base + stack, parts) == Up(base, Climb(stack, parts)) + Stack(stack, parts)
    decreases |parts|
  {
    if parts == [] {
      assert Up(base, 0) == base;
    } else if parts[0] == ".." && stack == [] {
      assert base + [] == base && Up(base, 1) + [] == Up(base, 1);
      assert StackStep(base, "..") == Up(base, 1);
      StackOnTop(Up(base, 1), [], parts[1..]);
      UpTwice(base, 1, Climb([], parts[1..]));
    } else {
      assert StackStep(base + stack, parts[0]) == base + StackStep(stack, parts[0]);
      StackOnTop(base, StackStep(stack, parts[0]), parts[1..]);
    }
  }

  lemma UpTwice(cwd: seq<string>, m: nat, n: nat)
    ensures Up(Up(cwd, m), n) == Up(cwd, m + n)
  {
  }

  /** A relative path leads to its normal form in the directory it rises to. */
  lemma RelativeTarget(cwd: seq<string>, path: string)
    requires !IsAbsolute(path)
    ensures Target(cwd, path) == Up(cwd, Rises(path)) + PathNames.Normal(path)
  {
    assert cwd + [] == cwd;
    StackOnTop(cwd, [], Split(path));
  }

  /** A name other than the first of these. */
  function OtherName(names: seq<string>): (n: string)
    ensures IsName(n) && (names == [] || names[0] != n)
  {
    if names != [] && names[0] == "a" then "b" else "a"
  }

  /** A working directory deep enough, all of one name. */
  function Deep(name: string, n: nat): (cwd: seq<string>)
    ensures |cwd| == n && forall c <- cwd :: c == name
  {
    seq(n, _ => name)
  }

  /** A relative pair, exactly: the path lies in the root wherever the agent runs. */
  lemma RelativePair(path: string, root: string)
    requires !IsAbsolute(path) && !IsAbsolute(root)
    ensures AlwaysContained(path, root)
            <==> PathNames.Normal(root) <= PathNames.Normal(path)
                 && (Rises(path) == Rises(root) || (PathNames.Normal(root) == [] && Rises(path) <= Rises(root)))
  {
    var r, p := PathNames.Normal(root), PathNames.Normal(path);
    if r <= p && (Rises(path) == Rises(root) || (r == [] && Rises(path) <= Rises(root))) {
      forall cwd | AllNames(cwd) ensures Contained(cwd, path, root) {
        RelativeTarget(cwd, path);
        RelativeTarget(cwd, root);
      }
    } else {
      var cwd := Escape(path, root);
      assert !Contained(cwd, path, root);
    }
  }

  /** A working directory from which the path is outside the root. */
  lemma Escape(path: string, root: string) returns (cwd: seq<string>)
    requires !IsAbsolute(path) && !IsAbsolute(root)
    requires var r, p := PathNames.Normal(root), PathNames.Normal(path);
             !(r <= p) || Rises(path) > Rises(root) || (Rises(path) < Rises(root) && r != [])
    ensures AllNames(cwd) && !Contained(cwd, path, root)
  {
    var r, p := PathNames.Normal(root), PathNames.Normal(path);
    cwd := if !(r <= p) then []
           else if Rises(path) > Rises(root) then Deep(OtherName(p), Rises(path))
           else Deep(OtherName(r), Rises(root));
    RelativeTarget(cwd, path);
    RelativeTarget(cwd, root);
    if r <= p {
      if Rises(path) > Rises(root) {
        assert Target(cwd, path) == p && Target(cwd, root)[0] == OtherName(p);
      } else {
        assert Target(cwd, root) == r && Target(cwd, path)[0] == OtherName(r);
      }
    }
  }

  /** Of two different kinds: a relative root never holds from everywhere, an absolute one only if it is "/". */
  lemma MixedPair(path: string, root: string)
    requires IsAbsolute(path) != IsAbsolute(root)
    ensures AlwaysContained(path, root) <==> IsAbsolute(root) && PathNames.Normal(root) == []
  {
    var r, p := PathNames.Normal(root), PathNames.Normal(path);
    if IsAbsolute(root) && r != [] {
      var cwd := Deep(OtherName(r), Rises(path) + 1);
      RelativeTarget(cwd, path);
      assert Target(cwd, path)[0] == OtherName(r) && !Contained(cwd, path, root);
    } else if !IsAbsolute(root) {
      var cwd := Deep(OtherName(p), Rises(root) + 1);
      RelativeTarget(cwd, root);
      assert Target(cwd, root)[0] == OtherName(p) && !Contained(cwd, path, root);
    }
  }

  /** Names alone decide: both are absolute, or both relative and neither climbs further than the test can see. */
  predicate Comparable(path: string, root: string) {
    || (IsAbsolute(path) && IsAbsolute(root))
    || (!IsAbsolute(path) && !IsAbsolute(root)
        && (Rises(path) == Rises(root) || (PathNames.Normal(root) == [] && Rises(path) <= Rises(root))))
  }

  /**
   * Acceptance against containment, exactly. An accepted path lies in the root from
   * every working directory if and only if the two are comparable; and the only
   * paths contained from everywhere that are refused are relative ones under "/".
   */
  lemma AcceptanceIsContainment(path: string, root: string)
    ensures StartsWith(Lexical(path), Lexical(root)) ==> (AlwaysContained(path, root) <==> Comparable(path, root))
    ensures AlwaysContained(path, root) && !StartsWith(Lexical(path), Lexical(root))
            <==> IsAbsolute(root) && PathNames.Normal(root) == [] && !IsAbsolute(path)
  {
    AcceptanceByNames(path, root);
    if IsAbsolute(path) && IsAbsolute(root) {
      assert Contained([], path, root) <==> PathNames.Normal(root) <= PathNames.Normal(path);
    } else if IsAbsolute(path) != IsAbsolute(root) {
      MixedPair(path, root);
    } else {
      RelativePair(path, root);
    }
  }

  /** For two absolute paths the working directory plays no part: accepted is contained. */
  lemma AbsoluteAcceptance(cwd: seq<string>, path: string, root: string)
    requires IsAbsolute(path) && IsAbsolute(root)
    ensures StartsWith(Lexical(path), Lexical(root)) <==> Contained(cwd, path, root)
  {
    AcceptanceByNames(path, root);
  }

  /** The names that lie between where two relative paths start, after each has risen from `cwd`. */
  function Between(cwd: seq<string>, higher: nat, lower: nat): seq<string>
    requires lower <= higher
  {
    Up(cwd, lower)[|Up(cwd, higher)|..]
  }

  lemma UpBetween(cwd: seq<string>, higher: nat, lower: nat)
    requires lower <= higher
    ensures |Up(cwd, higher)| <= |Up(cwd, lower)|
    ensures Up(cwd, lower) == Up(cwd, higher) + Between(cwd, higher, lower)
    ensures |cwd| <= lower ==> Between(cwd, higher, lower) == []
  {
  }

  lemma SamePrefix(a: seq<string>, b: seq<string>, c: seq<string>)
    ensures a + b <= a + c <==> b <= c
  {
    assert (a + b)[|a|..] == b && (a + c)[|a|..] == c;
    if a + b <= a + c {
      assert forall i :: 0 <= i < |b| ==> b[i] == (a + b)[|a| + i] == (a + c)[|a| + i] == c[i];
    }
  }

  /**
   * Whether an accepted path continues where the root leads from `cwd`: always for
   * an absolute root; for two relative ones, when the names between their starting
   * points make up the difference.
   */
  predicate ContinuesFrom(cwd: seq<string>, path: string, root: string) {
    var r, p := PathNames.Normal(root), PathNames.Normal(path);
    if IsAbsolute(root) then true
    else if IsAbsolute(path) then Up(cwd, Rises(root)) + r <= p
    else if Rises(root) <= Rises(path) then Between(cwd, Rises(path), Rises(root)) + r <= p
    else r <= Between(cwd, Rises(root), Rises(path)) + p
  }

  /** From one given working directory, exactly which accepted paths lie in the root; from "/" all do. */
  lemma AcceptedFrom(cwd: seq<string>, path: string, root: string)
    requires StartsWith(Lexical(path), Lexical(root))
    ensures Contained(cwd, path, root) <==> ContinuesFrom(cwd, path, root)
    ensures cwd == [] ==> Contained(cwd, path, root)
  {
    var r, p := PathNames.Normal(root), PathNames.Normal(path);
    AcceptanceByNames(path, root);
    if !IsAbsolute(root) {
      RelativeTarget(cwd, root);
      if !IsAbsolute(path) {
        RelativeTarget(cwd, path);
        RelativeFrom(cwd, Rises(path), p, Rises(root), r);
      }
    }
  }

  lemma RelativeFrom(cwd: seq<string>, m: nat, p: seq<string>, n: nat, r: seq<string>)
    ensures Up(cwd, n) + r <= Up(cwd, m) + p
            <==> if n <= m then Between(cwd, m, n) + r <= p else r <= Between(cwd, n, m) + p
  {
    if n <= m {
      UpBetween(cwd, m, n);
      assert Up(cwd, n) + r == Up(cwd, m) + (Between(cwd, m, n) + r);
      SamePrefix(Up(cwd, m), Between(cwd, m, n) + r, p);
    } else {
      UpBetween(cwd, n, m);
      assert Up(cwd, m) + p == Up(cwd, n) + (Between(cwd, n, m) + p);
      SamePrefix(Up(cwd, n), r, Between(cwd, n, m) + p);
    }
  }

  /** In the root directory the test is containment, up to pairs of different kinds. */
  lemma AcceptanceAtRoot(path: string, root: string)
    ensures StartsWith(Lexical(path), Lexical(root))
            <==> Contained([], path, root)
                 && (IsAbsolute(path) == IsAbsolute(root) || (!IsAbsolute(root) && PathNames.Normal(root) == []))
  {
    AcceptanceByNames(path, root);
  }

  /** An accepted path that resolves at all, and is comparable or used from "/", resolves into the root's tree. */
  lemma AcceptedTargetResolvesInside(tree: Tree, cwd: seq<string>, path: string, root: string)
    requires AllNames(cwd) && StartsWith(Lexical(path), Lexical(root)) && (Comparable(path, root) || cwd == [])
    requires Walk(tree, if IsAbsolute(path) then [] else cwd, Split(path)).Some?
    ensures Target(cwd, root) <= Walk(tree, if IsAbsolute(path) then [] else cwd, Split(path)).value
  {
    AcceptanceIsContainment(path, root);
    AcceptanceAtRoot(path, root);
    TargetIsResolution(tree, cwd, path);
    assert Contained(cwd, path, root);
  }

  lemma {:induction false} NoClimb(stack: seq<string>, names: seq<string>)
    requires AllNames(names)
    ensures Climb(stack, names) == 0
    decreases |names|
  {
    if names == [] {
    } else {
      assert IsName(names[0]);
      NoClimb(StackStep(stack, names[0]), names[1..]);
    }
  }

  lemma NameTarget(name: string)
    requires IsName(name)
    ensures !IsAbsolute(name) && PathNames.Normal(name) == [name] && Rises(name) == 0
  {
    assert name[0] in name;
    SplitPlain(name);
    StackOfNames([], [name]);
    NoClimb([], [name]);
    assert [] + [name] == [name];
  }

  lemma SiblingTarget(path: string, names: seq<string>)
    requires AllNames(names) && names != [] && path == Join([".."] + names)
    ensures !IsAbsolute(path) && PathNames.Normal(path) == names && Rises(path) == 1
  {
    var parts := [".."] + names;
    assert parts[1..] == names;
    assert path == ".." + "/" + Join(names);
    SplitJoin(parts);
    StackOfNames([], names);
    NoClimb([], names);
    assert [] + names == names;
  }

  /**
   * A relative root `name` accepts "../name/leaf", which from any directory other
   * than one called `name` leads beside the root: with the root "data", the path
   * "../data/x" leads from /srv to /data/x instead of below /srv/data.
   */
  lemma AcceptedMayEscape(cwd: seq<string>, name: string, leaf: string, path: string)
    requires IsName(name) && IsName(leaf) && path == Join(["..", name, leaf])
    ensures StartsWith(Lexical(path), Lexical(name)) && !Comparable(path, name)
    ensures Target(cwd, name) == cwd + [name] && Target(cwd, path) == Up(cwd, 1) + [name, leaf]
    ensures cwd != [] && cwd[|cwd| - 1] != name ==> !Contained(cwd, path, name)
  {
    assert [".."] + [name, leaf] == ["..", name, leaf];
    NameTarget(name);
    SiblingTarget(path, [name, leaf]);
    AcceptanceByNames(path, name);
    RelativeTarget(cwd, name);
    RelativeTarget(cwd, path);
    if cwd != [] && cwd[|cwd| - 1] != name {
      assert Target(cwd, path)[|cwd| - 1] == name && Target(cwd, name)[|cwd| - 1] == cwd[|cwd| - 1];
    }
  }

  /**
   * The test over all roots. For an absolute path and absolute roots it is exactly
   * containment in one of them; in general, some root accepts the path and is
   * comparable with it exactly when a root of its own kind holds it from everywhere.
   */
  lemma WithinRootsExactly(cwd: seq<string>, path: string, roots: seq<string>)
    ensures IsAbsolute(path) && (forall r <- roots :: IsAbsolute(r))
            ==> (WithinRootsLexically(path, roots) <==> exists r <- roots :: Contained(cwd, path, r))
    ensures (exists r <- roots :: StartsWith(Lexical(path), Lexical(r)) && Comparable(path, r))
            <==> exists r <- roots :: AlwaysContained(path, r) && IsAbsolute(path) == IsAbsolute(r)
  {
    forall r <- roots
      ensures IsAbsolute(path) && IsAbsolute(r) ==> (StartsWith(Lexical(path), Lexical(r)) <==> Contained(cwd, path, r))
      ensures StartsWith(Lexical(path), Lexical(r)) && Comparable(path, r)
              <==> AlwaysContained(path, r) && IsAbsolute(path) == IsAbsolute(r)
    {
      AcceptanceIsContainment(path, r);
      AcceptanceByNames(path, r);
      if IsAbsolute(path) && IsAbsolute(r) { AbsoluteAcceptance(cwd, path, r); }
      if IsAbsolute(path) != IsAbsolute(r) { MixedPair(path, r); }
    }
  }

  /** Ordinary components less ".." components. */
  function Rise(parts: seq<string>): int {
    if parts == [] then 0
    else Rise(parts[..|parts| - 1]) + Weight(parts[|parts| - 1])
  }

  function Weight(part: string): int {
    if part == "" || part == "." then 0 else if part == ".." then -1 else 1
  }

  lemma {:induction false} RiseCons(part: string, parts: seq<string>)
    ensures Rise([part] + parts) == Weight(part) + Rise(parts)
  {
    var whole := [part] + parts;
    if parts == [] {
      assert whole[..0] == [];
    } else {
      assert whole[..|whole| - 1] == [part] + parts[..|parts| - 1];
      RiseCons(part, parts[..|parts| - 1]);
    }
  }

  /** No prefix of the parts has more ".." than ordinary components beyond `slack`. */
  ghost predicate NeverRisesAbove(parts: seq<string>, slack: nat) {
    forall k :: 0 <= k <= |parts| ==> slack + Rise(parts[..k]) >= 0
  }

  ghost predicate StaysBelow(base: seq<string>, extra: seq<string>, parts: seq<string>) {
    forall k :: 0 <= k <= |parts| ==> base <= Stack(base + extra, parts[..k])
  }

  /** Both conditions, one part at a time. */
  lemma TakeFirst(base: seq<string>, extra: seq<string>, parts: seq<string>, extra': seq<string>)
    requires parts != [] && StackStep(base + extra, parts[0]) == base + extra'
    requires |extra'| == |extra| + Weight(parts[0])
    ensures StaysBelow(base, extra, parts) <==> StaysBelow(base, extra', parts[1..])
    ensures NeverRisesAbove(parts, |extra|) <==> NeverRisesAbove(parts[1..], |extra'|)
  {
    var rest := parts[1..];
    forall k | 0 <= k <= |rest|
      ensures Stack(base + extra, parts[..k + 1]) == Stack(base + extra', rest[..k])
      ensures Rise(parts[..k + 1]) == Weight(parts[0]) + Rise(rest[..k])
    {
      assert parts[..k + 1][1..] == rest[..k];
      assert parts[..k + 1] == [parts[0]] + rest[..k];
      RiseCons(parts[0], rest[..k]);
    }
    assert parts[..0] == [];
    assert base <= base + extra;
    if StaysBelow(base, extra, parts) {
      forall k | 0 <= k <= |rest| ensures base <= Stack(base + extra', rest[..k]) {
        assert base <= Stack(base + extra, parts[..k + 1]);
      }
    }
    if StaysBelow(base, extra', rest) {
      forall k | 0 <= k <= |parts| ensures base <= Stack(base + extra, parts[..k]) {
        if k > 0 { assert base <= Stack(base + extra', rest[..k - 1]); }
      }
    }
    if NeverRisesAbove(parts, |extra|) {
      forall k | 0 <= k <= |rest| ensures |extra'| + Rise(rest[..k]) >= 0 {
        assert |extra| + Rise(parts[..k + 1]) >= 0;
      }
    }
    if NeverRisesAbove(rest, |extra'|) {
      forall k | 0 <= k <= |parts| ensures |extra| + Rise(parts[..k]) >= 0 {
        if k > 0 { assert |extra'| + Rise(rest[..k - 1]) >= 0; }
      }
    }
  }

  /** Walking on from `base/extra` stays under `base` all the way exactly when ".." never outweighs what is below it. */
  lemma {:induction false} DescentIsExact(base: seq<string>, extra: seq<string>, parts: seq<string>)
    requires base != []
    ensures StaysBelow(base, extra, parts) <==> NeverRisesAbove(parts, |extra|)
    decreases |parts|
  {
    if parts == [] {
      assert parts[..0] == [] && base <= base + extra;
    } else if parts[0] == ".." && extra == [] {
      assert parts[..1] == [".."] && parts[..1][1..] == [] && parts[..1][..0] == [];
      assert base + extra == base;
      assert Stack(base + extra, parts[..1]) == base[..|base| - 1];
      assert !(base <= Stack(base + extra, parts[..1]));
      assert Rise(parts[..1]) == -1;
    } else {
      var extra' := if Weight(parts[0]) == 0 then extra
                    else if parts[0] == ".." then extra[..|extra| - 1] else extra + [parts[0]];
      assert StackStep(base + extra, parts[0]) == base + extra';
      TakeFirst(base, extra, parts, extra');
      DescentIsExact(base, extra', parts[1..]);
    }
  }

  /**
   * Closed under descent: appending to an absolute root any relative suffix in
   * which no prefix has more ".." than ordinary components is accepted.
   */
  lemma DescentIsAccepted(root: string, suffix: string)
    requires IsAbsolute(root) && NeverRisesAbove(Split(suffix), 0)
    ensures StartsWith(Lexical(root + "/" + suffix), Lexical(root))
  {
    var base, parts := PathNames.Normal(root), Split(suffix);
    SplitAtSlash(root, suffix);
    StackAppend([], Split(root), parts);
    AcceptanceByNames(root + "/" + suffix, root);
    if base != [] {
      DescentIsExact(base, [], parts);
      assert base + [] == base && parts[..|parts|] == parts;
      assert base <= Stack(base + [], parts[..|parts|]);
    }
  }

  /**
   * And exactly: below a root other than "/", every intermediate point of the
   * suffix is accepted if and only if the suffix never rises above the root.
   */
  lemma EveryStepAcceptedIff(root: string, suffix: string)
    requires IsAbsolute(root) && PathNames.Normal(root) != []
    ensures (forall k :: 0 <= k <= |Split(suffix)| ==>
               PathNames.Normal(root) <= Stack([], Split(root) + Split(suffix)[..k]))
            <==> NeverRisesAbove(Split(suffix), 0)
  {
    var base, parts := PathNames.Normal(root), Split(suffix);
    DescentIsExact(base, [], parts);
    assert base + [] == base;
    forall k | 0 <= k <= |parts| ensures Stack([], Split(root) + parts[..k]) == Stack(base + [], parts[..k]) {
      StackAppend([], Split(root), parts[..k]);
    }
    if forall k :: 0 <= k <= |parts| ==> base <= Stack([], Split(root) + parts[..k]) {
      forall k | 0 <= k <= |parts| ensures base <= Stack(base + [], parts[..k]) {
        assert base <= Stack([], Split(root) + parts[..k]);
      }
    }
  }
}
