/** The lexical guard on config-file paths, `check` in `src/config.rs`. */
module ConfigPath {
  import opened Wrappers
  import opened PathNames

  const ALLOW_PREFIXES: seq<string> := ["/etc/", "/opt/", "/usr/local/etc/", "/srv/", "/home/", "/var/log/"]

  /** The directories that the allow rules name. */
  const ALLOWED_DIRECTORIES: seq<seq<string>> :=
    [["etc"], ["opt"], ["usr", "local", "etc"], ["srv"], ["home"], ["var", "log"]]

  const DENY_PREFIXES: seq<string> := [
    "/etc/shadow", "/etc/gshadow", "/etc/sudoers", "/etc/ssh/", "/etc/letsencrypt/", "/etc/ssl/private/",
    "/etc/kubernetes/", "/etc/shellfleet/agent-token", "/root/", "/home/.ssh/", "/proc/", "/sys/", "/dev/"]

  const SECRET_DIRECTORIES: seq<string> := [".ssh", ".aws", ".kube", ".gnupg"]

  datatype DenyReason = UnderPrefix(prefix: string) | AnyDirectory(name: string) | AnyNetrc | AnyDockerConfig

  datatype PathError =
    | NotAbsolute
    | BlockedByDenyList(reason: DenyReason)
    | OutsideAllowList
    | InvalidUtf8
    | Empty

  function ToLower(c: char): char {
    if 'A' <= c <= 'Z' then ((c as int) + 32) as char else c
  }

  function Lower(s: string): (r: string)
    ensures |r| == |s|
  {
    if s == "" then "" else [ToLower(s[0])] + Lower(s[1..])
  }

  function LowerAll(parts: seq<string>): (r: seq<string>)
    ensures |r| == |parts|
  {
    if parts == [] then [] else [Lower(parts[0])] + LowerAll(parts[1..])
  }

  /** The first of the prefixes that the path starts with. */
  function FirstPrefix(prefixes: seq<string>, path: string): (r: Option<string>)
    ensures r.Some? ==> r.value in prefixes && r.value <= path
    ensures r.None? ==> forall p <- prefixes :: !(p <= path)
  {
    if prefixes == [] then None
    else if prefixes[0] <= path then Some(prefixes[0])
    else assert forall p <- prefixes :: p == prefixes[0] || p in prefixes[1..]; FirstPrefix(prefixes[1..], path)
  }

  function FirstAmong(parts: seq<string>, names: seq<string>): (r: Option<string>)
    ensures r.Some? <==> exists p <- parts :: p in names
  {
    if parts == [] then None
    else if parts[0] in names then Some(parts[0])
    else FirstAmong(parts[1..], names)
  }

  function DeniedPath(path: string): Option<DenyReason> {
    var prefix := FirstPrefix(DENY_PREFIXES, path);
    var directory := FirstAmong(Split(path), SECRET_DIRECTORIES);
    if prefix.Some? then Some(UnderPrefix(prefix.value))
    else if directory.Some? then Some(AnyDirectory(directory.value))
    else if ".netrc" in Split(path) then Some(AnyNetrc)
    else if EndsWith(path, "/.docker/config.json") then Some(AnyDockerConfig)
    else None
  }

  predicate EndsInSlash(path: string) {
    path != "" && path[|path| - 1] == '/'
  }

  function Render(names: seq<string>, trailing: bool): string {
    "/" + Join(names) + (if trailing && names != [] then "/" else "")
  }

  /** The verdict on an already normalised path. */
  function Verdict(s: string): Result<string, PathError> {
    var lower := Lower(s);
    var denied := DeniedPath(lower);
    if denied.Some? then Err(BlockedByDenyList(denied.value))
    else if FirstPrefix(ALLOW_PREFIXES, lower).None? then Err(OutsideAllowList)
    else Ok(s)
  }

  /** What `check` answers, said through the normal form of the path. */
  function Checked(path: string): Result<string, PathError> {
    if path == "" then Err(Empty)
    else if path[0] != '/' then Err(NotAbsolute)
    else if '\0' in path then Err(InvalidUtf8)
    else Verdict(Render(Normal(path), EndsInSlash(path)))
  }

  method Check(path: string) returns (r: Result<string, PathError>)
    ensures r == Checked(path)
  {
    if path == "" {
      return Err(Empty);
    }
    if path[0] != '/' {
      return Err(NotAbsolute);
    }
    if '\0' in path {
      return Err(InvalidUtf8);
    }
    var segments := Split(path);
    var stack: seq<string> := [];
    for i := 0 to |segments|
      invariant stack == Stack([], segments[..i])
    {
      StackSnoc([], segments[..i], segments[i]);
      assert segments[..i + 1] == segments[..i] + [segments[i]];
      var segment := segments[i];
      if segment != "" && segment != "." {
        if segment == ".." {
          if |stack| > 0 {
            stack := stack[..|stack| - 1];
          }
        } else {
          stack := stack + [segment];
        }
      }
    }
    assert segments[..|segments|] == segments;
    var s := "/";
    for i := 0 to |stack|
      invariant s == "/" + Join(stack[..i])
    {
      assert stack[..i + 1] == stack[..i] + [stack[i]];
      if i > 0 {
        JoinAppend(stack[..i], [stack[i]]);
        s := s + "/";
      }
      s := s + stack[i];
    }
    assert stack[..|stack|] == stack;
    if path[|path| - 1] == '/' && |stack| > 0 {
      s := s + "/";
    }
    assert s == Render(Normal(path), EndsInSlash(path));
    var lower := Lower(s);
    var denied := DeniedPath(lower);
    if denied.Some? {
      return Err(BlockedByDenyList(denied.value));
    }
    if FirstPrefix(ALLOW_PREFIXES, lower).None? {
      return Err(OutsideAllowList);
    }
    return Ok(s);
  }

  // ---- Parts of a normalised path ----

  /** The parts of `Render(names, trailing)`. */
  function Parts(names: seq<string>, trailing: bool): (parts: seq<string>)
    ensures parts != []
  {
    [""] + names + (if trailing || names == [] then [""] else [])
  }

  lemma SplitRender(names: seq<string>, trailing: bool)
    requires AllNames(names)
    ensures Split(Render(names, trailing)) == Parts(names, trailing)
  {
    if names == [] {
      assert Render(names, trailing) == "/";
    } else {
      SplitJoin(names);
      SplitAtSlash("", Join(names));
      var plain := "/" + Join(names);
      assert plain == "" + "/" + Join(names);
      if trailing {
        SplitAtSlash(plain, "");
        assert Render(names, trailing) == plain + "/" + "";
      } else {
        assert Render(names, trailing) == plain;
      }
    }
  }

  lemma SlashEndsByParts(s: string)
    requires s != ""
    ensures EndsInSlash(s) <==> Split(s)[|Split(s)| - 1] == ""
  {
    var parts := Split(s);
    JoinSplit(s);
    if EndsInSlash(s) {
      assert s == s[..|s| - 1] + "/" + "";
      SplitAtSlash(s[..|s| - 1], "");
    }
    if parts[|parts| - 1] == "" && |parts| > 1 {
      JoinAppend(parts[..|parts| - 1], [""]);
      assert parts == parts[..|parts| - 1] + [""];
    }
  }

  lemma StackOfParts(names: seq<string>, trailing: bool)
    requires AllNames(names)
    ensures Stack([], Parts(names, trailing)) == names
  {
    StackOfNames([], names);
    assert [] + names == names;
    var tail := if trailing || names == [] then [""] else [];
    assert Parts(names, trailing) == [""] + (names + tail);
    assert ([""] + (names + tail))[1..] == names + tail;
    StackAppend([], names, tail);
    assert Stack(names, tail) == names;
  }

  /** Checking an accepted path again accepts it and changes nothing. */
  lemma CheckIsIdempotent(path: string)
    requires Checked(path).Ok?
    ensures Checked(Checked(path).value) == Checked(path)
  {
    var names, trailing := Normal(path), EndsInSlash(path);
    var s := Render(names, trailing);
    AcceptedIsNormal(path);
    SplitRender(names, trailing);
    StackOfParts(names, trailing);
    NulFree(path);
    SlashEndsByParts(s);
    LastPart(names, trailing);
  }

  lemma LastPart(names: seq<string>, trailing: bool)
    requires AllNames(names) && names != []
    ensures var parts := Parts(names, trailing); parts[|parts| - 1] == "" <==> trailing
  {
    assert IsName(names[|names| - 1]);
  }

  lemma NothingAllowsRoot()
    ensures Verdict("/").Err?
  {
    assert Lower("/") == "/";
    forall p <- ALLOW_PREFIXES ensures !(p <= "/") { assert |p| > 1; }
  }

  /** The output holds no character that the input did not. */
  lemma NulFree(path: string)
    requires '\0' !in path
    ensures '\0' !in Render(Normal(path), EndsInSlash(path))
  {
    PartsFrom(path, '\0');
    StackFrom([], Split(path), '\0');
    JoinFrom(Normal(path), '\0');
  }

  lemma {:induction false} PartsFrom(s: string, c: char)
    requires c !in s
    ensures forall p <- Split(s) :: c !in p
  {
    if s == "" {
    } else {
      PartsFrom(s[1..], c);
    }
  }

  lemma {:induction false} StackFrom(start: seq<string>, segments: seq<string>, c: char)
    requires (forall p <- start :: c !in p) && (forall p <- segments :: c !in p)
    ensures forall p <- Stack(start, segments) :: c !in p
    decreases |segments|
  {
    if segments == [] {
    } else {
      StackFrom(StackStep(start, segments[0]), segments[1..], c);
    }
  }

  lemma {:induction false} JoinFrom(parts: seq<string>, c: char)
    requires c != '/' && forall p <- parts :: c !in p
    ensures c !in Join(parts)
  {
    if |parts| <= 1 {
    } else {
      JoinFrom(parts[1..], c);
    }
  }

  /** The accepted string is an absolute path of plain names, with the trailing slash of the input. */
  lemma AcceptedIsNormal(path: string)
    requires Checked(path).Ok?
    ensures Checked(path).value == Render(Normal(path), EndsInSlash(path))
    ensures AllNames(Normal(path)) && Normal(path) != []
    ensures Split(Checked(path).value) == [""] + Normal(path) + (if EndsInSlash(path) then [""] else [])
  {
    NormalIsNames(path);
    SplitRender(Normal(path), EndsInSlash(path));
    AcceptedIsRendered(path);
    if Normal(path) == [] { RootIsRefused(path); }
  }

  lemma RootIsRefused(path: string)
    requires Normal(path) == []
    ensures Checked(path).Err?
  {
    RootRenders(EndsInSlash(path));
    NothingAllowsRoot();
    if path != "" && path[0] == '/' && '\0' !in path {
      assert Checked(path) == Verdict(Render([], EndsInSlash(path)));
    }
  }

  lemma RootRenders(trailing: bool)
    ensures Render([], trailing) == "/"
  {
  }

  lemma AcceptedIsRendered(path: string)
    requires Checked(path).Ok?
    ensures Checked(path).value == Render(Normal(path), EndsInSlash(path))
    ensures Verdict(Render(Normal(path), EndsInSlash(path))).Ok?
  {
  }

  // ---- The verdict, component by component ----

  lemma {:induction false} SplitLower(s: string)
    ensures Split(Lower(s)) == LowerAll(Split(s))
  {
    if s == "" {
    } else {
      SplitLower(s[1..]);
      var rest := Split(s[1..]);
      assert Lower(s)[1..] == Lower(s[1..]);
      assert ToLower(s[0]) == '/' <==> s[0] == '/';
      if s[0] == '/' {
        assert Split(s)[1..] == rest;
      } else {
        assert ([s[0]] + rest[0])[1..] == rest[0];
        assert Split(s)[1..] == rest[1..];
      }
    }
  }

  /** The parts the verdict looks at: the lower-cased names of the normal form, and the trailing slash. */
  function Seen(path: string): (parts: seq<string>)
    ensures parts != []
  {
    LowerAll(Parts(Normal(path), EndsInSlash(path)))
  }

  lemma SeenIsSplit(path: string)
    ensures Split(Lower(Render(Normal(path), EndsInSlash(path)))) == Seen(path)
  {
    NormalIsNames(path);
    SplitRender(Normal(path), EndsInSlash(path));
    SplitLower(Render(Normal(path), EndsInSlash(path)));
  }

  /** One of the prefix rules matches, whole component by whole component. */
  ghost predicate MatchesRule(prefixes: seq<string>, parts: seq<string>) {
    exists p <- prefixes :: PartsStartWith(parts, Split(p))
  }

  lemma RulesByParts(prefixes: seq<string>, path: string)
    ensures FirstPrefix(prefixes, path).Some? <==> MatchesRule(prefixes, Split(path))
  {
    forall p <- prefixes ensures p <= path <==> PartsStartWith(Split(path), Split(p)) { PrefixByParts(path, p); }
  }

  ghost predicate DeniedParts(parts: seq<string>) {
    || MatchesRule(DENY_PREFIXES, parts)
    || (exists p <- parts :: p in SECRET_DIRECTORIES || p == ".netrc")
    || (|parts| > 2 && parts[|parts| - 2..] == [".docker", "config.json"])
  }

  ghost predicate AllowedParts(parts: seq<string>) {
    MatchesRule(ALLOW_PREFIXES, parts)
  }

  lemma DockerSuffix(path: string)
    ensures EndsWith(path, "/.docker/config.json")
            <==> |Split(path)| > 2 && Split(path)[|Split(path)| - 2..] == [".docker", "config.json"]
  {
    var names := [".docker", "config.json"];
    assert Join(names[1..]) == "config.json";
    assert "/" + Join(names) == "/.docker/config.json";
    SuffixByParts(path, names);
  }

  lemma DeniedByParts(path: string)
    ensures DeniedPath(path).Some? <==> DeniedParts(Split(path))
  {
    RulesByParts(DENY_PREFIXES, path);
    DockerSuffix(path);
  }

  /**
   * Exactly which paths are accepted: absolute ones without NUL whose lower-cased
   * normal form matches an allow rule and no deny rule, where every prefix rule is
   * a rule on whole components (the last one may be partial).
   */
  lemma AcceptedExactly(path: string)
    ensures Checked(path).Ok?
            <==> path != "" && path[0] == '/' && '\0' !in path
                 && AllowedParts(Seen(path)) && !DeniedParts(Seen(path))
  {
    if path != "" && path[0] == '/' && '\0' !in path {
      var lower := Lower(Render(Normal(path), EndsInSlash(path)));
      SeenIsSplit(path);
      DeniedByParts(lower);
      RulesByParts(ALLOW_PREFIXES, lower);
    }
  }

  /** The verdict depends on nothing but the lower-cased normal form and the trailing slash. */
  lemma VerdictDependsOnNormalForm(p: string, q: string)
    requires p != "" && q != "" && p[0] == '/' && q[0] == '/' && '\0' !in p && '\0' !in q
    requires LowerAll(Normal(p)) == LowerAll(Normal(q))
    requires Normal(p) == [] || EndsInSlash(p) == EndsInSlash(q)
    ensures Checked(p).Ok? <==> Checked(q).Ok?
    ensures Checked(p).Err? ==> Checked(p) == Checked(q)
  {
    LowerParts(Normal(p), EndsInSlash(p));
    LowerParts(Normal(q), EndsInSlash(q));
    SeenIsSplit(p);
    SeenIsSplit(q);
    JoinSplit(Lower(Render(Normal(p), EndsInSlash(p))));
    JoinSplit(Lower(Render(Normal(q), EndsInSlash(q))));
  }

  lemma LowerParts(names: seq<string>, trailing: bool)
    ensures LowerAll(Parts(names, trailing)) == Parts(LowerAll(names), trailing)
  {
    var tail := if trailing || names == [] then [""] else [];
    LowerAllAppend([""] + names, tail);
    LowerAllAppend([""], names);
    assert LowerAll([""]) == [""];
    assert LowerAll(tail) == tail;
  }

  lemma {:induction false} LowerAllAppend(a: seq<string>, b: seq<string>)
    ensures LowerAll(a + b) == LowerAll(a) + LowerAll(b)
  {
    if a == [] {
      assert a + b == b;
    } else {
      assert (a + b)[1..] == a[1..] + b;
      LowerAllAppend(a[1..], b);
    }
  }

  /** An allow prefix that ends in a slash: strictly below the directory, or the directory itself with a slash. */
  lemma AllowPrefixIsDirectoryPrefix(directory: seq<string>, names: seq<string>, trailing: bool)
    requires AllNames(directory) && directory != [] && AllNames(names) && names != []
    ensures Render(directory, true) <= Render(names, trailing)
            <==> directory <= names && (|directory| < |names| || trailing)
  {
    var tail := if trailing then [""] else [];
    SplitRender(directory, true);
    SplitRender(names, trailing);
    PrefixByParts(Render(names, trailing), Render(directory, true));
    AfterRoot(names + tail, directory + [""]);
    assert Parts(names, trailing) == [""] + (names + tail);
    assert Parts(directory, true) == [""] + (directory + [""]);
    DirectoryPrefix(directory, names, tail);
  }

  lemma AfterRoot(s: seq<string>, p: seq<string>)
    requires p != []
    ensures PartsStartWith([""] + s, [""] + p) <==> PartsStartWith(s, p)
  {
    assert ([""] + s)[1..] == s && ([""] + p)[1..] == p;
  }

  lemma {:induction false} DirectoryPrefix(directory: seq<string>, names: seq<string>, tail: seq<string>)
    requires AllNames(directory) && AllNames(names) && (tail == [] || tail == [""])
    ensures PartsStartWith(names + tail, directory + [""]) <==> directory <= names && (|directory| < |names| || tail != [])
  {
    if directory == [] || names == [] {
    } else {
      assert (directory + [""])[1..] == directory[1..] + [""];
      assert (names + tail)[1..] == names[1..] + tail;
      DirectoryPrefix(directory[1..], names[1..], tail);
      assert directory <= names <==> directory[0] == names[0] && directory[1..] <= names[1..];
    }
  }

  /** A path that ends in a slash resolves only to a directory. */
  lemma TrailingSlashNeedsDirectory(root: Tree, path: string)
    requires path != "" && EndsInSlash(path) && Reaches(root, [], Split(path))
    ensures IsDirectory(root, Normal(path))
  {
    SlashEndsByParts(path);
    var parts := Split(path);
    assert parts == parts[..|parts| - 1] + [""];
    StackSnoc([], parts[..|parts| - 1], "");
  }

  /** The normal form with its trailing slash resolves wherever the names do. */
  lemma PartsResolve(root: Tree, names: seq<string>, trailing: bool)
    requires AllNames(names) && names != [] && Descend(root, names).Some?
    requires trailing ==> IsDirectory(root, names)
    ensures Walk(root, [], Parts(names, trailing)) == Some(names)
  {
    var parts := Parts(names, trailing);
    StackOfParts(names, trailing);
    ResolutionIsStack(root, [], parts);
    forall k | 0 <= k < |parts| ensures IsDirectory(root, Stack([], parts[..k])) {
      if k == 0 {
        assert parts[..0] == [];
        AncestorIsDirectory(root, names, 0);
      } else {
        assert parts[..k] == [""] + names[..k - 1];
        assert ([""] + names[..k - 1])[1..] == names[..k - 1];
        StackOfNames([], names[..k - 1]);
        assert [] + names[..k - 1] == names[..k - 1];
        if k - 1 < |names| { AncestorIsDirectory(root, names, k - 1); } else { assert names[..k - 1] == names; }
      }
    }
  }

  // ---- Where an accepted path leads ----

  /** The first of the directories that the names lead into, or to. */
  function Holder(directories: seq<seq<string>>, names: seq<string>): (d: Option<seq<string>>)
    ensures d.Some? ==> d.value in directories && d.value <= names
    ensures d.None? ==> forall e <- directories :: !(e <= names)
  {
    if directories == [] then None
    else if directories[0] <= names then Some(directories[0])
    else
      assert forall e <- directories :: e == directories[0] || e in directories[1..];
      Holder(directories[1..], names)
  }

  predicate InsideAllowed(names: seq<string>) {
    Holder(ALLOWED_DIRECTORIES, names).Some?
  }

  /** The leading names of an accepted path that its allow rule compared, in lower case. */
  function Matched(names: seq<string>): Option<seq<string>> {
    Holder(ALLOWED_DIRECTORIES, LowerAll(names))
  }

  lemma AllowRulesAreDirectories()
    ensures forall p <- ALLOW_PREFIXES :: exists d <- ALLOWED_DIRECTORIES :: p == Render(d, true)
  {
    var d := ALLOWED_DIRECTORIES;
    assert Render(d[0], true) == "/etc/" && Render(d[1], true) == "/opt/" && Render(d[2], true) == "/usr/local/etc/";
    assert Render(d[3], true) == "/srv/" && Render(d[4], true) == "/home/" && Render(d[5], true) == "/var/log/";
  }

  lemma AllowedDirectoriesAreNames()
    ensures forall d <- ALLOWED_DIRECTORIES :: d != [] && AllNames(d) && forall name <- d :: NoCapitals(name)
  {
  }

  predicate NoCapitals(s: string) {
    forall c <- s :: !('A' <= c <= 'Z')
  }

  lemma {:induction false} LowerFixes(s: string)
    requires NoCapitals(s)
    ensures Lower(s) == s
  {
    if s == "" {
    } else {
      assert forall c <- s[1..] :: c in s;
      LowerFixes(s[1..]);
      assert s[0] in s;
      assert s == [s[0]] + s[1..];
    }
  }

  lemma {:induction false} LowerAllFixes(parts: seq<string>)
    requires forall p <- parts :: NoCapitals(p)
    ensures LowerAll(parts) == parts
  {
    if parts == [] {
    } else {
      assert forall p <- parts[1..] :: p in parts;
      LowerFixes(parts[0]);
      LowerAllFixes(parts[1..]);
      assert parts == [parts[0]] + parts[1..];
    }
  }

  /** At most one allowed directory holds any given names. */
  lemma AllowedDirectoriesAreApart(d: seq<string>, e: seq<string>, names: seq<string>)
    requires d in ALLOWED_DIRECTORIES && e in ALLOWED_DIRECTORIES && d <= names && e <= names
    ensures d == e
  {
    assert d[0] == e[0];
  }

  lemma {:induction false} LowerAllPrefix(names: seq<string>, k: nat)
    requires k <= |names|
    ensures LowerAll(names[..k]) == LowerAll(names)[..k]
  {
    if k == 0 {
    } else {
      LowerAllPrefix(names[1..], k - 1);
      assert names[..k][1..] == names[1..][..k - 1];
    }
  }

  lemma {:induction false} LowerNames(names: seq<string>)
    requires AllNames(names)
    ensures AllNames(LowerAll(names))
  {
    if names == [] {
    } else {
      LowerNames(names[1..]);
      LowerName(names[0]);
    }
  }

  lemma LowerName(name: string)
    requires IsName(name)
    ensures IsName(Lower(name))
  {
    SplitPlain(name);
    SplitLower(name);
    assert Lower(name)[0] == ToLower(name[0]);
    if |name| > 1 { assert Lower(name)[1] == ToLower(name[1]); }
  }

  /** An accepted path's lower-cased names lie in an allowed directory. */
  lemma AcceptedIsMatched(path: string)
    requires Checked(path).Ok?
    ensures Matched(Normal(path)).Some?
  {
    var names, trailing := Normal(path), EndsInSlash(path);
    AcceptedIsNormal(path);
    AcceptedExactly(path);
    AllowRulesAreDirectories();
    AllowedDirectoriesAreNames();
    LowerNames(names);
    LowerParts(names, trailing);
    SplitRender(LowerAll(names), trailing);
    RulesByParts(ALLOW_PREFIXES, Render(LowerAll(names), trailing));
    var p := FirstPrefix(ALLOW_PREFIXES, Render(LowerAll(names), trailing)).value;
    var d :| d in ALLOWED_DIRECTORIES && p == Render(d, true);
    AllowPrefixIsDirectoryPrefix(d, LowerAll(names), trailing);
  }

  /** Names that lie in one of the directories in lower case do so as spelt exactly when the matched ones are lower-case. */
  lemma InsideIffSpeltLower(directories: seq<seq<string>>, names: seq<string>)
    requires forall d <- directories :: forall name <- d :: NoCapitals(name)
    requires forall d, e | d in directories && e in directories ::
               d <= LowerAll(names) && e <= LowerAll(names) ==> d == e
    requires Holder(directories, LowerAll(names)).Some?
    ensures var k := |Holder(directories, LowerAll(names)).value|;
            Holder(directories, names).Some? <==> LowerAll(names[..k]) == names[..k]
  {
    var d := Holder(directories, LowerAll(names)).value;
    LowerAllPrefix(names, |d|);
    assert LowerAll(names[..|d|]) == names[..|d|] ==> d <= names;
    var found := Holder(directories, names);
    if found.Some? {
      var e := found.value;
      LowerAllPrefix(names, |e|);
      LowerAllFixes(e);
      assert names[..|e|] == e;
      assert e <= LowerAll(names);
    }
  }

  /** An accepted path's own names lie in an allowed directory exactly when the matched ones are in lower case. */
  lemma AcceptedInsideIff(path: string)
    requires Checked(path).Ok?
    ensures Matched(Normal(path)).Some?
    ensures var k := |Matched(Normal(path)).value|;
            InsideAllowed(Normal(path)) <==> LowerAll(Normal(path)[..k]) == Normal(path)[..k]
  {
    var names := Normal(path);
    AcceptedIsMatched(path);
    AllowedDirectoriesAreNames();
    forall d, e | d in ALLOWED_DIRECTORIES && e in ALLOWED_DIRECTORIES
      ensures d <= LowerAll(names) && e <= LowerAll(names) ==> d == e
    {
      if d <= LowerAll(names) && e <= LowerAll(names) { AllowedDirectoriesAreApart(d, e, LowerAll(names)); }
    }
    InsideIffSpeltLower(ALLOWED_DIRECTORIES, names);
  }

  lemma DenyPrefixesHaveNoCapitals()
    ensures forall p <- DENY_PREFIXES :: NoCapitals(p)
  {
  }

  lemma SecretNamesHaveNoCapitals()
    ensures forall d <- SECRET_DIRECTORIES :: NoCapitals(d)
    ensures NoCapitals(".netrc") && NoCapitals(".docker") && NoCapitals("config.json")
  {
  }

  lemma {:induction false} LowerPrefix(s: string, p: string)
    requires p <= s
    ensures Lower(p) <= Lower(s)
  {
    if p == "" {
    } else {
      LowerPrefix(s[1..], p[1..]);
    }
  }

  lemma {:induction false} LowerKeepsMatch(s: seq<string>, p: seq<string>)
    requires p != [] && PartsStartWith(s, p)
    ensures PartsStartWith(LowerAll(s), LowerAll(p))
  {
    LowerPrefix(s[0], p[0]);
    if |p| == 1 {
    } else {
      LowerKeepsMatch(s[1..], p[1..]);
      assert LowerAll(s)[1..] == LowerAll(s[1..]) && LowerAll(p)[1..] == LowerAll(p[1..]);
    }
  }

  lemma {:induction false} LowerAllAt(parts: seq<string>, i: nat)
    requires i < |parts|
    ensures LowerAll(parts)[i] == Lower(parts[i])
  {
    if i == 0 {
    } else {
      LowerAllAt(parts[1..], i - 1);
    }
  }

  lemma SpeltPrefix(parts: seq<string>)
    requires MatchesRule(DENY_PREFIXES, parts)
    ensures MatchesRule(DENY_PREFIXES, LowerAll(parts))
  {
    var p :| p in DENY_PREFIXES && PartsStartWith(parts, Split(p));
    DenyPrefixesHaveNoCapitals();
    LowerFixes(p);
    SplitLower(p);
    LowerKeepsMatch(parts, Split(p));
  }

  lemma SpeltAt(parts: seq<string>, i: nat)
    requires i < |parts| && NoCapitals(parts[i])
    ensures LowerAll(parts)[i] == parts[i]
  {
    LowerAllAt(parts, i);
    LowerFixes(parts[i]);
  }

  lemma SpeltPart(parts: seq<string>, p: string)
    requires p in parts && NoCapitals(p)
    ensures p in LowerAll(parts)
  {
    var i :| 0 <= i < |parts| && parts[i] == p;
    SpeltAt(parts, i);
  }

  /** Two last parts without capitals stay as they are. */
  lemma SpeltLast(parts: seq<string>, p: string, q: string)
    requires |parts| > 2 && parts[|parts| - 2..] == [p, q] && NoCapitals(p) && NoCapitals(q)
    ensures LowerAll(parts)[|parts| - 2..] == [p, q]
  {
    var k, lower := |parts| - 2, LowerAll(parts);
    assert parts[k..][0] == parts[k] && parts[k..][1] == parts[k + 1];
    SpeltAt(parts, k);
    SpeltAt(parts, k + 1);
    assert lower[k..] == [lower[k], lower[k + 1]];
  }

  /** What the deny rules catch as spelt they also catch in lower case. */
  lemma DeniedAsSpelt(parts: seq<string>)
    requires DeniedParts(parts)
    ensures DeniedParts(LowerAll(parts))
  {
    if MatchesRule(DENY_PREFIXES, parts) {
      SpeltPrefix(parts);
    } else if exists p <- parts :: p in SECRET_DIRECTORIES || p == ".netrc" {
      var p :| p in parts && (p in SECRET_DIRECTORIES || p == ".netrc");
      SecretNamesHaveNoCapitals();
      SpeltPart(parts, p);
    } else {
      SecretNamesHaveNoCapitals();
      SpeltLast(parts, ".docker", "config.json");
    }
  }

  /** Some deny rule matches the node of these names, written with or without a trailing slash. */
  ghost predicate DeniedNode(names: seq<string>) {
    DeniedParts(Parts(names, false)) || DeniedParts(Parts(names, true))
  }

  /** The rules that look at the trailing slash: directories that are denied with one, and a file denied without. */
  predicate OtherSpellingDenied(names: seq<string>, trailing: bool) {
    if trailing then |names| >= 2 && names[|names| - 2..] == [".docker", "config.json"]
    else Render(names, true) in DENY_PREFIXES
  }

  lemma SameNames(names: seq<string>)
    requires names != []
    ensures Parts(names, true) == Parts(names, false) + [""]
    ensures forall p | p != "" :: p in Parts(names, true) <==> p in Parts(names, false)
  {
  }

  lemma DeniedPrefixIffRendered(names: seq<string>, trailing: bool)
    requires AllNames(names)
    ensures MatchesRule(DENY_PREFIXES, Parts(names, trailing))
            <==> exists p <- DENY_PREFIXES :: p <= Render(names, trailing)
  {
    SplitRender(names, trailing);
    RulesByParts(DENY_PREFIXES, Render(names, trailing));
  }

  /** Of the prefix rules, only one that is the whole path with its slash can tell the two spellings apart. */
  lemma PrefixTellsSlash(names: seq<string>)
    requires AllNames(names) && names != []
    ensures MatchesRule(DENY_PREFIXES, Parts(names, true))
            <==> MatchesRule(DENY_PREFIXES, Parts(names, false)) || Render(names, true) in DENY_PREFIXES
  {
    DeniedPrefixIffRendered(names, true);
    DeniedPrefixIffRendered(names, false);
    var plain, slashed := Render(names, false), Render(names, true);
    assert slashed == plain + "/";
    forall p <- DENY_PREFIXES ensures p <= slashed <==> p <= plain || p == slashed { PrefixOfSnoc(plain, '/', p); }
  }

  lemma PrefixOfSnoc(s: string, c: char, p: string)
    ensures p <= s + [c] <==> p <= s || p == s + [c]
  {
    if p <= s + [c] && |p| == |s| + 1 { assert p == (s + [c])[..|p|]; }
  }

  lemma DockerLast(names: seq<string>, trailing: bool)
    requires names != []
    ensures var parts := Parts(names, trailing);
            |parts| > 2 && parts[|parts| - 2..] == [".docker", "config.json"]
            <==> !trailing && |names| >= 2 && names[|names| - 2..] == [".docker", "config.json"]
  {
    var parts := Parts(names, trailing);
    if |parts| > 2 {
      assert parts[|parts| - 2..] == [parts[|parts| - 2], parts[|parts| - 1]];
      if !trailing { assert parts[|parts| - 2..] == names[|names| - 2..]; }
    }
  }

  /** A node not denied in one spelling is denied in the other exactly by a rule that looks at the slash. */
  lemma DeniedNodeIff(names: seq<string>, trailing: bool)
    requires AllNames(names) && names != [] && !DeniedParts(Parts(names, trailing))
    ensures DeniedNode(names) <==> OtherSpellingDenied(names, trailing)
  {
    SameNames(names);
    PrefixTellsSlash(names);
    DockerLast(names, true);
    DockerLast(names, false);
  }

  /** When the node of an accepted path is denied after all, in its own spelling and in lower case. */
  lemma AcceptedNodeDeniedIff(path: string)
    requires Checked(path).Ok?
    ensures DeniedNode(Normal(path)) <==> OtherSpellingDenied(Normal(path), EndsInSlash(path))
    ensures DeniedNode(LowerAll(Normal(path))) <==> OtherSpellingDenied(LowerAll(Normal(path)), EndsInSlash(path))
  {
    var names, trailing := Normal(path), EndsInSlash(path);
    AcceptedIsNormal(path);
    AcceptedExactly(path);
    if DeniedParts(Parts(names, trailing)) { DeniedAsSpelt(Parts(names, trailing)); }
    DeniedNodeIff(names, trailing);
    LowerNames(names);
    LowerParts(names, trailing);
    DeniedNodeIff(LowerAll(names), trailing);
  }

  /**
   * Where the guard sends a request, on any tree without symbolic links. If the
   * request path resolves, it resolves to the node its normal form names, and so
   * does the string handed on. A deny rule matches that node in some spelling if
   * and only if it is one that looks at the trailing slash. The node lies in an
   * allowed directory if and only if the names that the allow rule matched are in
   * lower case: the rules are compared with a lower-cased copy.
   */
  lemma AcceptedPathResolvesInside(root: Tree, path: string)
    requires Checked(path).Ok? && Walk(root, [], Split(path)).Some?
    ensures Walk(root, [], Split(path)) == Some(Normal(path))
    ensures Walk(root, [], Split(Checked(path).value)) == Some(Normal(path))
    ensures !DeniedParts(Parts(Normal(path), EndsInSlash(path)))
    ensures DeniedNode(Normal(path)) <==> OtherSpellingDenied(Normal(path), EndsInSlash(path))
    ensures Matched(Normal(path)).Some?
    ensures var k := |Matched(Normal(path)).value|;
            InsideAllowed(Normal(path)) <==> LowerAll(Normal(path)[..k]) == Normal(path)[..k]
  {
    AcceptedIsNormal(path);
    SplitRender(Normal(path), EndsInSlash(path));
    AcceptedExactly(path);
    AcceptedInsideIff(path);
    AcceptedNodeDeniedIff(path);
    if DeniedParts(Parts(Normal(path), EndsInSlash(path))) { DeniedAsSpelt(Parts(Normal(path), EndsInSlash(path))); }
    NormalFormResolvesTheSame(root, path);
    ResolutionIsStack(root, [], Split(path));
    if EndsInSlash(path) { TrailingSlashNeedsDirectory(root, path); }
    PartsResolve(root, Normal(path), EndsInSlash(path));
  }

  /** Where the only directory is ETC, "/ETC/x" is accepted and resolves outside every allowed directory. */
  lemma AcceptedMayResolveOutside(path: string)
    requires path == "/ETC/x"
    ensures var root := Directory(map["ETC" := Directory(map["x" := File(0)])]);
            && Checked(path) == Ok(path)
            && Walk(root, [], Split(path)) == Some(["ETC", "x"])
            && !InsideAllowed(["ETC", "x"])
  {
    CapitalsAreAccepted(path);
    SpeltInCapitals(path);
    CapitalsResolve();
    CapitalsAreOutside(["ETC", "x"]);
  }

  lemma SpeltInCapitals(path: string)
    requires path == "/ETC/x"
    ensures Split(path) == ["", "ETC", "x"] && Normal(path) == ["ETC", "x"]
    ensures Render(Normal(path), EndsInSlash(path)) == path
  {
    var names := ["ETC", "x"];
    SplitJoin([""] + names);
    assert ([""] + names)[1..] == names;
    assert Join([""] + names) == path;
    StackOfParts(names, false);
    assert Parts(names, false) == [""] + names;
    assert Render(names, false) == path;
  }

  lemma {:induction false} LowerAt(s: string, i: nat)
    requires i < |s|
    ensures Lower(s)[i] == ToLower(s[i])
  {
    if i == 0 {
    } else {
      LowerAt(s[1..], i - 1);
    }
  }

  lemma CapitalsInLowerCase(path: string)
    requires path == "/ETC/x"
    ensures Lower(path) == "/etc/x"
  {
    forall i | 0 <= i < 6 ensures Lower(path)[i] == ToLower(path[i]) { LowerAt(path, i); }
    assert |Lower(path)| == 6;
  }

  lemma AllowedInLowerCase(s: string)
    requires s == "/etc/x"
    ensures DeniedPath(s).None? && FirstPrefix(ALLOW_PREFIXES, s).Some?
  {
    var parts := ["", "etc", "x"];
    SplitJoin(parts);
    assert parts[1..] == ["etc", "x"];
    assert Join(parts) == s;
    forall p <- DENY_PREFIXES ensures !(p <= s) { assert p[1] != 'e' || |p| > |s|; }
    assert ALLOW_PREFIXES[0] <= s;
  }

  lemma CapitalsAreAccepted(path: string)
    requires path == "/ETC/x"
    ensures Checked(path) == Ok(path)
  {
    SpeltInCapitals(path);
    CapitalsInLowerCase(path);
    AllowedInLowerCase(Lower(path));
    assert Verdict(path) == Ok(path);
  }

  lemma CapitalsResolve()
    ensures var root := Directory(map["ETC" := Directory(map["x" := File(0)])]);
            Walk(root, [], ["", "ETC", "x"]) == Some(["ETC", "x"])
  {
    var etc := Directory(map["x" := File(0)]);
    var root := Directory(map["ETC" := etc]);
    var names := ["ETC", "x"];
    assert [""] + names == ["", "ETC", "x"] && ([""] + names)[1..] == names && names[1..] == ["x"];
    assert Descend(root, names) == Descend(etc, ["x"]);
    NamesResolve(root, names);
  }

  lemma CapitalsAreOutside(names: seq<string>)
    requires names == ["ETC", "x"]
    ensures !InsideAllowed(names)
  {
    forall d <- ALLOWED_DIRECTORIES ensures !(d <= names) { assert d[0] != "ETC"; }
  }

  /** A path that is already in normal form and in lower case is judged as it stands. */
  lemma PlainPath(path: string, names: seq<string>, trailing: bool)
    requires AllNames(names) && names != [] && path == Render(names, trailing)
    requires NoCapitals(path) && '\0' !in path
    ensures Normal(path) == names && EndsInSlash(path) == trailing && Split(path) == Parts(names, trailing)
    ensures Lower(path) == path && Checked(path) == Verdict(path)
  {
    SplitRender(names, trailing);
    StackOfParts(names, trailing);
    SlashEndsByParts(path);
    LastPart(names, trailing);
    LowerFixes(path);
  }

  lemma NoneMatches(prefixes: seq<string>, path: string)
    requires forall p <- prefixes :: !(p <= path)
    ensures FirstPrefix(prefixes, path).None?
  {
  }

  lemma OneMatches(prefixes: seq<string>, path: string, q: string)
    requires q in prefixes && q <= path && forall p <- prefixes :: p == q || !(p <= path)
    ensures FirstPrefix(prefixes, path) == Some(q)
  {
  }

  lemma NoneAmong(parts: seq<string>, names: seq<string>)
    requires forall p <- parts :: p !in names
    ensures FirstAmong(parts, names).None?
  {
  }

  lemma FirstIsAllowed(prefixes: seq<string>, path: string, p: string)
    requires p in prefixes && p <= path
    ensures FirstPrefix(prefixes, path).Some?
  {
  }

  /** The verdict on a path in normal form and lower case, from what the rules find in it. */
  lemma PlainAccepted(path: string, names: seq<string>, trailing: bool, allowed: string)
    requires AllNames(names) && names != [] && path == Render(names, trailing)
    requires NoCapitals(path) && '\0' !in path
    requires allowed in ALLOW_PREFIXES && allowed <= path
    requires forall p <- DENY_PREFIXES :: !(p <= path)
    requires forall part <- Parts(names, trailing) :: part !in SECRET_DIRECTORIES && part != ".netrc"
    requires !trailing && |names| >= 2 ==> names[|names| - 2..] != [".docker", "config.json"]
    ensures Checked(path) == Ok(path) && Normal(path) == names
  {
    PlainPath(path, names, trailing);
    NoneMatches(DENY_PREFIXES, path);
    NoneAmong(Split(path), SECRET_DIRECTORIES);
    DockerSuffix(path);
    DockerLast(names, trailing);
    FirstIsAllowed(ALLOW_PREFIXES, path, allowed);
  }

  lemma PlainDeniedByPrefix(path: string, names: seq<string>, trailing: bool, denied: string)
    requires AllNames(names) && names != [] && path == Render(names, trailing)
    requires NoCapitals(path) && '\0' !in path
    requires denied in DENY_PREFIXES && denied <= path && forall p <- DENY_PREFIXES :: p == denied || !(p <= path)
    ensures Checked(path) == Err(BlockedByDenyList(UnderPrefix(denied))) && Normal(path) == names
  {
    PlainPath(path, names, trailing);
    OneMatches(DENY_PREFIXES, path, denied);
  }

  lemma PlainDeniedByDocker(path: string, names: seq<string>)
    requires AllNames(names) && |names| >= 2 && path == Render(names, false)
    requires NoCapitals(path) && '\0' !in path
    requires forall p <- DENY_PREFIXES :: !(p <= path)
    requires forall part <- Parts(names, false) :: part !in SECRET_DIRECTORIES && part != ".netrc"
    requires names[|names| - 2..] == [".docker", "config.json"]
    ensures Checked(path) == Err(BlockedByDenyList(AnyDockerConfig)) && Normal(path) == names
  {
    PlainPath(path, names, false);
    NoneMatches(DENY_PREFIXES, path);
    NoneAmong(Split(path), SECRET_DIRECTORIES);
    DockerSuffix(path);
    DockerLast(names, false);
  }

  /** The directory /etc/ssh is accepted, though denied with a slash. */
  lemma AcceptedThoughDeniedWithSlash(plain: string, slashed: string)
    requires plain == Render(["etc", "ssh"], false) && slashed == Render(["etc", "ssh"], true)
    ensures Checked(plain) == Ok(plain) && Checked(slashed) == Err(BlockedByDenyList(UnderPrefix(slashed)))
    ensures Normal(plain) == Normal(slashed) == ["etc", "ssh"]
  {
    var names := ["etc", "ssh"];
    SshStrings(plain, slashed, names);
    SshParts(names);
    ShortMatches(DENY_PREFIXES, plain, slashed);
    PlainAccepted(plain, names, false, ALLOW_PREFIXES[0]);
    PlainDeniedByPrefix(slashed, names, true, slashed);
  }

  lemma SshStrings(plain: string, slashed: string, names: seq<string>)
    requires names == ["etc", "ssh"] && plain == Render(names, false) && slashed == Render(names, true)
    ensures NoCapitals(plain) && NoCapitals(slashed) && '\0' !in plain && '\0' !in slashed
    ensures slashed == plain + "/" && slashed in DENY_PREFIXES && ALLOW_PREFIXES[0] <= plain
    ensures |plain| > 1 && forall p <- DENY_PREFIXES :: |p| > 1 && (p[1] != plain[1] || |p| > |slashed| || p == slashed)
  {
    assert names[1..] == ["ssh"];
    assert Join(names) == "etc" + "/" + "ssh";
    assert plain == "/etc/ssh" && slashed == "/etc/ssh/";
    assert DENY_PREFIXES[3] == slashed;
  }

  lemma SshParts(names: seq<string>)
    requires names == ["etc", "ssh"]
    ensures AllNames(names) && names[|names| - 2..] != [".docker", "config.json"]
    ensures forall part <- Parts(names, false) :: part !in SECRET_DIRECTORIES && part != ".netrc"
  {
    assert names[|names| - 2..][0] == "etc";
  }

  /** Where every prefix but `slashed` differs in its second character or is longer, only `slashed` can match. */
  lemma ShortMatches(prefixes: seq<string>, plain: string, slashed: string)
    requires |plain| > 1 && slashed == plain + "/"
    requires forall p <- prefixes :: |p| > 1 && (p[1] != plain[1] || |p| > |slashed| || p == slashed)
    ensures forall p <- prefixes :: !(p <= plain) && (p == slashed || !(p <= slashed))
  {
    assert slashed[1] == plain[1];
  }

  /** /srv/.docker/config.json is refused, but accepted with a slash, although both lead to one directory. */
  lemma AcceptedThoughDeniedWithoutSlash(root: Tree, plain: string, slashed: string)
    requires var names := ["srv", ".docker", "config.json"];
             plain == Render(names, false) && slashed == Render(names, true)
    ensures var names := ["srv", ".docker", "config.json"];
            && Checked(slashed) == Ok(slashed) && Checked(plain) == Err(BlockedByDenyList(AnyDockerConfig))
            && Normal(plain) == Normal(slashed) == names
            && (IsDirectory(root, names) ==>
                  Walk(root, [], Split(plain)) == Walk(root, [], Split(slashed)) == Some(names))
  {
    var names := ["srv", ".docker", "config.json"];
    DockerCharacters(plain, slashed, names);
    DockerHeads(plain, slashed, names);
    NothingDeniedIsSrv(plain[1], plain[2]);
    OtherHeads(DENY_PREFIXES, plain);
    OtherHeads(DENY_PREFIXES, slashed);
    DockerParts(names);
    PlainDeniedByDocker(plain, names);
    PlainAccepted(slashed, names, true, ALLOW_PREFIXES[3]);
    if IsDirectory(root, names) {
      SplitRender(names, false);
      SplitRender(names, true);
      PartsResolve(root, names, false);
      PartsResolve(root, names, true);
    }
  }

  lemma DockerCharacters(plain: string, slashed: string, names: seq<string>)
    requires names == ["srv", ".docker", "config.json"]
    requires plain == Render(names, false) && slashed == Render(names, true)
    ensures NoCapitals(plain) && NoCapitals(slashed) && '\0' !in plain && '\0' !in slashed
  {
    DockerRendered(plain, slashed, names);
  }

  lemma DockerHeads(plain: string, slashed: string, names: seq<string>)
    requires names == ["srv", ".docker", "config.json"]
    requires plain == Render(names, false) && slashed == Render(names, true)
    ensures |plain| > 2 && plain[1] == 's' && plain[2] == 'r' && ALLOW_PREFIXES[3] <= slashed
    ensures |slashed| > 2 && slashed[1] == plain[1] && slashed[2] == plain[2]
  {
    DockerRendered(plain, slashed, names);
  }

  lemma DockerRendered(plain: string, slashed: string, names: seq<string>)
    requires names == ["srv", ".docker", "config.json"]
    requires plain == Render(names, false) && slashed == Render(names, true)
    ensures plain == "/srv/.docker/config.json" && slashed == "/srv/.docker/config.json/"
  {
    var rest := names[1..];
    assert rest == [".docker", "config.json"] && rest[1..] == ["config.json"];
    assert Join(rest) == ".docker/config.json";
    assert Join(names) == "srv" + "/" + Join(rest);
  }

  lemma NothingDeniedIsSrv(c: char, d: char)
    requires c == 's' && d == 'r'
    ensures forall p <- DENY_PREFIXES :: |p| > 2 && (p[1] != c || p[2] != d)
  {
  }

  lemma OtherHeads(prefixes: seq<string>, path: string)
    requires |path| > 2 && forall p <- prefixes :: |p| > 2 && (p[1] != path[1] || p[2] != path[2])
    ensures forall p <- prefixes :: !(p <= path)
  {
  }

  lemma DockerParts(names: seq<string>)
    requires names == ["srv", ".docker", "config.json"]
    ensures AllNames(names) && names[|names| - 2..] == [".docker", "config.json"]
    ensures forall part <- Parts(names, false) :: part !in SECRET_DIRECTORIES && part != ".netrc"
    ensures forall part <- Parts(names, true) :: part !in SECRET_DIRECTORIES && part != ".netrc"
  {
  }

  // ---- The rules, place by place ----

  /** Trees of which nothing inside may be touched. */
  const PROTECTED_TREES: seq<seq<string>> := [
    ["etc", "ssh"], ["etc", "letsencrypt"], ["etc", "ssl", "private"], ["etc", "kubernetes"],
    ["root"], ["home", ".ssh"], ["proc"], ["sys"], ["dev"]]

  /** Files that may not be touched, nor anything whose name only continues theirs. */
  const PROTECTED_FILES: seq<seq<string>> := [
    ["etc", "shadow"], ["etc", "gshadow"], ["etc", "sudoers"], ["etc", "shellfleet", "agent-token"]]

  /** Strictly below the directory, or the directory itself written with a slash. */
  predicate Below(names: seq<string>, trailing: bool, directory: seq<string>) {
    directory <= names && (|directory| < |names| || trailing)
  }

  /** The file, something below it, or a sibling whose name begins with its name. */
  predicate Continues(names: seq<string>, file: seq<string>)
    requires file != []
  {
    var k := |file| - 1;
    k < |names| && names[..k] == file[..k] && file[k] <= names[k]
  }

  lemma ContinuesFirst(names: seq<string>, file: seq<string>)
    requires names != [] && |file| > 1
    ensures Continues(names, file) <==> names[0] == file[0] && Continues(names[1..], file[1..])
  {
    var k := |file| - 1;
    if k < |names| {
      assert names[..k] == [names[0]] + names[1..][..k - 1];
      assert file[..k] == [file[0]] + file[1..][..k - 1];
    }
  }

  lemma {:induction false} NamesContinue(names: seq<string>, tail: seq<string>, file: seq<string>)
    requires file != [] && AllNames(file) && (tail == [] || tail == [""])
    ensures PartsStartWith(names + tail, file) <==> Continues(names, file)
  {
    assert IsName(file[0]);
    if names == [] {
      if tail == [""] { assert (names + tail)[0] == ""; }
    } else if |file| == 1 {
      assert names[..0] == file[..0];
    } else {
      assert (names + tail)[1..] == names[1..] + tail;
      assert forall f <- file[1..] :: f in file;
      NamesContinue(names[1..], tail, file[1..]);
      ContinuesFirst(names, file);
    }
  }

  /** A rule that names a file matches that file, what is below it, and names that continue its own. */
  lemma FilePrefixIs(file: seq<string>, names: seq<string>, trailing: bool)
    requires AllNames(file) && file != [] && AllNames(names) && names != []
    ensures Render(file, false) <= Render(names, trailing) <==> Continues(names, file)
  {
    var tail := if trailing then [""] else [];
    SplitRender(file, false);
    SplitRender(names, trailing);
    PrefixByParts(Render(names, trailing), Render(file, false));
    assert Parts(names, trailing) == [""] + (names + tail);
    assert Parts(file, false) == [""] + file;
    AfterRoot(names + tail, file);
    NamesContinue(names, tail, file);
  }

  lemma JoinTwo(a: string, b: string)
    ensures Join([a, b]) == a + "/" + b
  {
    assert [a, b][1..] == [b];
  }

  lemma JoinThree(a: string, b: string, c: string)
    ensures Join([a, b, c]) == a + "/" + (b + "/" + c)
  {
    assert [a, b, c][1..] == [b, c];
    JoinTwo(b, c);
  }

  lemma TreesUnderEtc()
    ensures Render(PROTECTED_TREES[0], true) == DENY_PREFIXES[3]
    ensures Render(PROTECTED_TREES[1], true) == DENY_PREFIXES[4]
    ensures Render(PROTECTED_TREES[2], true) == DENY_PREFIXES[5]
    ensures Render(PROTECTED_TREES[3], true) == DENY_PREFIXES[6]
  {
    JoinTwo("etc", "ssh");
    JoinTwo("etc", "letsencrypt");
    JoinThree("etc", "ssl", "private");
    JoinTwo("etc", "kubernetes");
  }

  lemma TreesElsewhere()
    ensures Render(PROTECTED_TREES[4], true) == DENY_PREFIXES[8]
    ensures Render(PROTECTED_TREES[5], true) == DENY_PREFIXES[9]
    ensures Render(PROTECTED_TREES[6], true) == DENY_PREFIXES[10]
    ensures Render(PROTECTED_TREES[7], true) == DENY_PREFIXES[11]
    ensures Render(PROTECTED_TREES[8], true) == DENY_PREFIXES[12]
  {
    JoinTwo("home", ".ssh");
  }

  lemma FilesUnderEtc()
    ensures Render(PROTECTED_FILES[0], false) == DENY_PREFIXES[0]
    ensures Render(PROTECTED_FILES[1], false) == DENY_PREFIXES[1]
    ensures Render(PROTECTED_FILES[2], false) == DENY_PREFIXES[2]
  {
    JoinTwo("etc", "shadow");
    JoinTwo("etc", "gshadow");
    JoinTwo("etc", "sudoers");
  }

  lemma TokenUnderEtc()
    ensures Render(PROTECTED_FILES[3], false) == DENY_PREFIXES[7]
  {
    JoinThree("etc", "shellfleet", "agent-token");
  }

  lemma TreesAreNames()
    ensures forall tree <- PROTECTED_TREES :: tree != [] && AllNames(tree)
  {
  }

  lemma FilesAreNames()
    ensures forall file <- PROTECTED_FILES :: file != [] && AllNames(file)
  {
  }

  /** The place of a rule: a tree for the rules that end in a slash, a file for the others. */
  lemma RulesArePlaces(i: nat)
    requires i < |DENY_PREFIXES|
    ensures if 3 <= i < 7 then DENY_PREFIXES[i] == Render(PROTECTED_TREES[i - 3], true)
            else if 8 <= i then DENY_PREFIXES[i] == Render(PROTECTED_TREES[i - 4], true)
            else DENY_PREFIXES[i] == Render(PROTECTED_FILES[if i < 3 then i else 3], false)
  {
    TreesUnderEtc();
    TreesElsewhere();
    FilesUnderEtc();
    TokenUnderEtc();
  }

  /** The rule of a place, in the table of prefixes. */
  lemma PlacesAreRules()
    ensures forall tree <- PROTECTED_TREES :: Render(tree, true) in DENY_PREFIXES
    ensures forall file <- PROTECTED_FILES :: Render(file, false) in DENY_PREFIXES
  {
    forall tree <- PROTECTED_TREES ensures Render(tree, true) in DENY_PREFIXES {
      var i :| 0 <= i < |PROTECTED_TREES| && PROTECTED_TREES[i] == tree;
      RulesArePlaces(if i < 4 then i + 3 else i + 4);
    }
    forall file <- PROTECTED_FILES ensures Render(file, false) in DENY_PREFIXES {
      var i :| 0 <= i < |PROTECTED_FILES| && PROTECTED_FILES[i] == file;
      RulesArePlaces(if i < 3 then i else 7);
    }
  }

  lemma DeniedPrefixIffPlace(names: seq<string>, trailing: bool)
    requires AllNames(names) && names != []
    ensures (exists p <- DENY_PREFIXES :: p <= Render(names, trailing))
            <==> || (exists tree <- PROTECTED_TREES :: Below(names, trailing, tree))
                 || (exists file <- PROTECTED_FILES :: Continues(names, file))
  {
    TreesAreNames();
    FilesAreNames();
    PlacesAreRules();
    forall tree <- PROTECTED_TREES ensures Render(tree, true) <= Render(names, trailing) <==> Below(names, trailing, tree) {
      AllowPrefixIsDirectoryPrefix(tree, names, trailing);
    }
    forall file <- PROTECTED_FILES ensures Render(file, false) <= Render(names, trailing) <==> Continues(names, file) {
      FilePrefixIs(file, names, trailing);
    }
    if p :| p in DENY_PREFIXES && p <= Render(names, trailing) {
      var i :| 0 <= i < |DENY_PREFIXES| && DENY_PREFIXES[i] == p;
      RulesArePlaces(i);
      if 3 <= i < 7 {
        assert Below(names, trailing, PROTECTED_TREES[i - 3]);
      } else if 8 <= i {
        assert Below(names, trailing, PROTECTED_TREES[i - 4]);
      } else {
        assert Continues(names, PROTECTED_FILES[if i < 3 then i else 3]);
      }
    }
  }

  lemma AllowedPrefixIffPlace(names: seq<string>, trailing: bool)
    requires AllNames(names) && names != []
    ensures (exists p <- ALLOW_PREFIXES :: p <= Render(names, trailing))
            <==> exists d <- ALLOWED_DIRECTORIES :: Below(names, trailing, d)
  {
    AllowRulesAreDirectories();
    AllowedDirectoriesAreNames();
    forall d <- ALLOWED_DIRECTORIES ensures Render(d, true) <= Render(names, trailing) <==> Below(names, trailing, d) {
      AllowPrefixIsDirectoryPrefix(d, names, trailing);
    }
    if d :| d in ALLOWED_DIRECTORIES && Below(names, trailing, d) { DirectoryIsRule(d); }
  }

  lemma DirectoryIsRule(d: seq<string>)
    requires d in ALLOWED_DIRECTORIES
    ensures Render(d, true) in ALLOW_PREFIXES
  {
    JoinThree("usr", "local", "etc");
    JoinTwo("var", "log");
    var i :| 0 <= i < |ALLOWED_DIRECTORIES| && ALLOWED_DIRECTORIES[i] == d;
    assert Render(d, true) == ALLOW_PREFIXES[i];
  }

  /** Names that no request may pass through. */
  predicate HoldsSecret(names: seq<string>, trailing: bool) {
    || ".ssh" in names || ".aws" in names || ".kube" in names || ".gnupg" in names || ".netrc" in names
    || (!trailing && |names| >= 2 && names[|names| - 2..] == [".docker", "config.json"])
  }

  /**
   * The guard without its tables of strings: a path is accepted if and only if it is
   * absolute, holds no NUL, lies in lower case in /etc, /opt, /usr/local/etc, /srv,
   * /home or /var/log, and neither in a protected tree, nor at a protected file,
   * nor does it hold a secret name.
   */
  lemma AcceptedPlaces(path: string)
    ensures var names, trailing := LowerAll(Normal(path)), EndsInSlash(path);
            Checked(path).Ok?
            <==> && path != "" && path[0] == '/' && '\0' !in path && names != []
                 && (exists d <- ALLOWED_DIRECTORIES :: Below(names, trailing, d))
                 && !(exists tree <- PROTECTED_TREES :: Below(names, trailing, tree))
                 && !(exists file <- PROTECTED_FILES :: Continues(names, file))
                 && !HoldsSecret(names, trailing)
  {
    var names, trailing := LowerAll(Normal(path)), EndsInSlash(path);
    if Normal(path) == [] {
      RootIsRefused(path);
    } else {
      NormalIsNames(path);
      LowerNames(Normal(path));
      LowerParts(Normal(path), trailing);
      AcceptedExactly(path);
      SplitRender(names, trailing);
      RulesByParts(ALLOW_PREFIXES, Render(names, trailing));
      DeniedPrefixIffRendered(names, trailing);
      DeniedPrefixIffPlace(names, trailing);
      AllowedPrefixIffPlace(names, trailing);
      SecretParts(names, trailing);
    }
  }

  lemma SecretParts(names: seq<string>, trailing: bool)
    requires names != []
    ensures var parts := Parts(names, trailing);
            HoldsSecret(names, trailing)
            <==> || (exists p <- parts :: p in SECRET_DIRECTORIES || p == ".netrc")
                 || (|parts| > 2 && parts[|parts| - 2..] == [".docker", "config.json"])
  {
    var parts := Parts(names, trailing);
    DockerLast(names, trailing);
    assert forall p | p != "" :: p in parts <==> p in names;
  }

  /** Lower case is that of the ASCII letters, and of nothing else. */
  lemma LowerIsAscii(c: char)
    ensures if 'A' <= c <= 'Z' then ToLower(c) == "abcdefghijklmnopqrstuvwxyz"[c as int - 'A' as int] else ToLower(c) == c
  {
  }

  /** The refusals that come before the rules. */
  lemma RefusalKinds(path: string)
    ensures Checked(path) == Err(Empty) <==> path == ""
    ensures Checked(path) == Err(NotAbsolute) <==> path != "" && path[0] != '/'
    ensures Checked(path) == Err(InvalidUtf8) <==> path != "" && path[0] == '/' && '\0' in path
  {
  }

  /** A protected place: in a protected tree, at a protected file, or under a secret name. */
  ghost predicate ProtectedPlace(names: seq<string>, trailing: bool) {
    || (exists tree <- PROTECTED_TREES :: Below(names, trailing, tree))
    || (exists file <- PROTECTED_FILES :: Continues(names, file))
    || HoldsSecret(names, trailing)
  }

  lemma DeniedPartsArePlaces(names: seq<string>, trailing: bool)
    requires AllNames(names) && names != []
    ensures DeniedParts(Parts(names, trailing)) <==> ProtectedPlace(names, trailing)
  {
    DeniedPrefixIffRendered(names, trailing);
    DeniedPrefixIffPlace(names, trailing);
    SecretParts(names, trailing);
  }

  lemma BlockedIffDenied(path: string)
    requires path != "" && path[0] == '/' && '\0' !in path
    ensures Checked(path).Err? && Checked(path).error.BlockedByDenyList? <==> DeniedParts(Seen(path))
  {
    SeenIsSplit(path);
    DeniedByParts(Lower(Render(Normal(path), EndsInSlash(path))));
  }

  lemma LongPrefixes(prefixes: seq<string>, s: string)
    requires |s| <= 1 && forall p <- prefixes :: |p| > 1
    ensures FirstPrefix(prefixes, s).None?
  {
    NoneMatches(prefixes, s);
  }

  lemma DenyPrefixesAreLong()
    ensures forall p <- DENY_PREFIXES :: |p| > 1
  {
  }

  lemma EmptyPartsAreNotDenied(parts: seq<string>, s: string)
    requires |s| <= 1 && Split(s) == parts && forall p <- parts :: p == ""
    ensures !DeniedParts(parts)
  {
    NoRuleMatches(parts, s);
    NoSecretAmong(parts);
  }

  lemma NoRuleMatches(parts: seq<string>, s: string)
    requires |s| <= 1 && Split(s) == parts
    ensures !MatchesRule(DENY_PREFIXES, parts)
  {
    DenyPrefixesAreLong();
    LongPrefixes(DENY_PREFIXES, s);
    RulesByParts(DENY_PREFIXES, s);
  }

  lemma NoSecretAmong(parts: seq<string>)
    requires forall p <- parts :: p == ""
    ensures forall p <- parts :: p !in SECRET_DIRECTORIES && p != ".netrc"
  {
    assert "" !in SECRET_DIRECTORIES;
  }

  lemma RootIsNotDenied(trailing: bool)
    ensures !DeniedParts(LowerAll(Parts([], trailing)))
  {
    LowerParts([], trailing);
    SplitRender([], trailing);
    EmptyPartsAreNotDenied(Parts([], trailing), Render([], trailing));
  }

  /** And what is blocked: an absolute path without NUL at a protected place, allowed or not. Deny comes first. */
  lemma BlockedPlaces(path: string)
    ensures Checked(path).Err? && Checked(path).error.BlockedByDenyList?
            <==> && path != "" && path[0] == '/' && '\0' !in path && Normal(path) != []
                 && ProtectedPlace(LowerAll(Normal(path)), EndsInSlash(path))
  {
    RefusalKinds(path);
    if path != "" && path[0] == '/' && '\0' !in path {
      BlockedIffDenied(path);
      if Normal(path) == [] {
        RootIsNotDenied(EndsInSlash(path));
      } else {
        NormalIsNames(path);
        LowerNames(Normal(path));
        LowerParts(Normal(path), EndsInSlash(path));
        DeniedPartsArePlaces(LowerAll(Normal(path)), EndsInSlash(path));
      }
    }
  }
}
