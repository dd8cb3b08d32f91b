/** The boundary checker: layering rules on single imports and cycle detection by depth-first search. */
module ImportGraph {
  import opened Wrappers

  /** A repository path split at `/`. */
  type File = seq<string>

  type Graph = map<File, seq<File>>

  function Edges(g: Graph, f: File): seq<File> {
    if f in g then g[f] else []
  }

  predicate HasEdge(g: Graph, a: File, b: File) {
    b in Edges(g, a)
  }

  // ----- Cycles -----

  /** Consecutive files import each other. */
  ghost predicate Path(g: Graph, p: seq<File>) {
    forall i | 0 <= i < |p| - 1 :: HasEdge(g, p[i], p[i + 1])
  }

  /** A closed path: the last file imports the first. */
  ghost predicate Cycle(g: Graph, p: seq<File>) {
    p != [] && Path(g, p) && HasEdge(g, p[|p| - 1], p[0])
  }

  ghost predicate OnCycle(g: Graph, f: File) {
    exists p :: Cycle(g, p) && f in p
  }

  ghost predicate Distinct(s: seq<File>) {
    forall i, j | 0 <= i < j < |s| :: s[i] != s[j]
  }

  /** Every file that can ever be visited. */
  ghost function Universe(g: Graph): set<File> {
    g.Keys + set f, t | f in g && t in g[f] :: t
  }

  /** `finished` lists files in the order in which their visits ended: every import of a finished
      file points to one finished earlier or to one that has been reported. */
  ghost predicate Closed(g: Graph, finished: seq<File>, reported: seq<File>) {
    forall i, t | 0 <= i < |finished| && HasEdge(g, finished[i], t) :: t in finished[..i] || t in reported
  }

  /** A cycle through finished files contains a reported one: its earliest finished file cannot
      point to an earlier one. */
  lemma CycleIsReported(g: Graph, finished: seq<File>, reported: seq<File>, p: seq<File>)
    requires Closed(g, finished, reported) && Cycle(g, p)
    requires forall f | f in p :: f in finished
    ensures exists f :: f in p && f in reported
  {
    var k := FirstFinished(finished, p);
    var i :| 0 <= i < |p| && p[i] == finished[k];
    var next := if i + 1 < |p| then p[i + 1] else p[0];
    assert HasEdge(g, finished[k], next);
    assert next in p;
    assert next !in finished[..k];
  }

  lemma FirstFinished(finished: seq<File>, p: seq<File>) returns (k: nat)
    requires p != [] && forall f | f in p :: f in finished
    ensures k < |finished| && finished[k] in p
    ensures forall j | 0 <= j < k :: finished[j] !in p
  {
    k := 0;
    assert p[0] in finished;
    var m :| 0 <= m < |finished| && finished[m] == p[0];
    while finished[k] !in p
      invariant k <= m
      invariant forall j | 0 <= j < k :: finished[j] !in p
      decreases m - k
    {
      k := k + 1;
    }
  }

  /** What holds whenever no visit is half-way through a step: `stack` lists the active files
      from the outermost visit inwards. */
  ghost predicate Searching(g: Graph, done: set<File>, active: set<File>, reported: seq<File>,
                            finished: seq<File>, stack: seq<File>)
  {
    && Distinct(stack) && Path(g, stack)
    && (forall f :: f in active <==> f in stack)
    && (forall f :: f in done <==> f in finished)
    && Closed(g, finished, reported)
    && (forall f | f in reported :: OnCycle(g, f))
  }

  ghost predicate Grows(a: seq<File>, b: seq<File>) {
    a <= b && forall f | f in a :: f in b
  }

  ghost predicate Seen(finished: seq<File>, reported: seq<File>, f: File) {
    f in finished || f in reported
  }

  lemma ReportStep(g: Graph, done: set<File>, active: set<File>, reported: seq<File>,
                   finished: seq<File>, stack: seq<File>, file: File)
    requires Searching(g, done, active, reported, finished, stack)
    requires file in active && HasEdge(g, stack[|stack| - 1], file)
    ensures Searching(g, done, active, reported + [file], finished, stack)
    ensures Grows(reported, reported + [file])
  {
    ActiveIsOnCycle(g, stack, file);
  }

  lemma EnterStep(g: Graph, done: set<File>, active: set<File>, reported: seq<File>,
                  finished: seq<File>, stack: seq<File>, file: File)
    requires Searching(g, done, active, reported, finished, stack)
    requires file !in active && (stack != [] ==> HasEdge(g, stack[|stack| - 1], file))
    ensures Searching(g, done, active + {file}, reported, finished, stack + [file])
  {
    assert forall f :: f in stack + [file] <==> f in stack || f == file;
  }

  lemma LeaveStep(g: Graph, done: set<File>, active: set<File>, reported: seq<File>,
                  finished: seq<File>, stack: seq<File>, file: File)
    requires file !in active
    requires Searching(g, done, active + {file}, reported, finished, stack + [file])
    requires forall t | HasEdge(g, file, t) :: Seen(finished, reported, t)
    ensures Searching(g, done + {file}, active, reported, finished + [file], stack)
    ensures Grows(finished, finished + [file])
  {
    var longer := stack + [file];
    assert forall i | 0 <= i < |stack| :: longer[i] == stack[i];
    forall f ensures f in active <==> f in stack {
      if f in active { assert f in longer; }
      if f in stack { assert f in longer; assert f != file by { assert longer[|stack|] == file; } }
    }
    assert Closed(g, finished + [file], reported) by {
      forall i, t | 0 <= i < |finished + [file]| && HasEdge(g, (finished + [file])[i], t)
        ensures t in (finished + [file])[..i] || t in reported
      {
        if i < |finished| {
          assert (finished + [file])[..i] == finished[..i];
        } else {
          assert (finished + [file])[..i] == finished;
          assert Seen(finished, reported, t);
        }
      }
    }
  }

  lemma GrowsOn(a: seq<File>, b: seq<File>, c: seq<File>)
    requires Grows(a, b) && Grows(b, c)
    ensures Grows(a, c)
  {
  }

  class CycleChecker {
    var done: set<File>
    var active: set<File>
    var reported: seq<File>
    ghost var finished: seq<File>
    ghost var stack: seq<File>

    constructor ()
      ensures done == {} && active == {} && reported == [] && finished == [] && stack == []
    {
      done, active, reported := {}, {}, [];
      finished, stack := [], [];
    }

    ghost predicate Valid(g: Graph)
      reads this
    {
      Searching(g, done, active, reported, finished, stack) && active <= Universe(g)
    }

    /** The recursive visit. */
    method Walk(g: Graph, file: File)
      requires Valid(g) && file in Universe(g)
      requires stack != [] ==> HasEdge(g, stack[|stack| - 1], file)
      modifies this
      ensures Valid(g) && active == old(active) && stack == old(stack)
      ensures Grows(old(finished), finished) && Grows(old(reported), reported)
      ensures Seen(finished, reported, file)
      ensures file !in active ==> file in finished
      ensures file in active ==> reported == old(reported) + [file]
      decreases Universe(g) - active, 0
    {
      if file in active {
        ReportStep(g, done, active, reported, finished, stack, file);
        reported := reported + [file];
        return;
      }
      if file in done {
        return;
      }
      ghost var outer, around, first := stack, active, finished;
      EnterStep(g, done, active, reported, finished, stack, file);
      active := active + {file};
      stack := stack + [file];
      WalkAll(g, file);
      LeaveStep(g, done, around, reported, finished, outer, file);
      GrowsOn(first, finished, finished + [file]);
      active := active - {file};
      assert active == around;
      stack := outer;
      done := done + {file};
      finished := finished + [file];
    }

    /** The loop over the imports of the file on top of the stack. */
    method WalkAll(g: Graph, file: File)
      requires Valid(g) && stack != [] && stack[|stack| - 1] == file
      modifies this
      ensures Valid(g) && active == old(active) && stack == old(stack)
      ensures Grows(old(finished), finished) && Grows(old(reported), reported)
      ensures forall t | HasEdge(g, file, t) :: Seen(finished, reported, t)
      decreases Universe(g) - active, 1
    {
      var targets := Edges(g, file);
      var i := 0;
      while i < |targets|
        invariant 0 <= i <= |targets|
        invariant Valid(g) && active == old(active) && stack == old(stack)
        invariant Grows(old(finished), finished) && Grows(old(reported), reported)
        invariant forall j | 0 <= j < i :: Seen(finished, reported, targets[j])
      {
        assert HasEdge(g, file, targets[i]);
        Walk(g, targets[i]);
        i := i + 1;
      }
    }
  }

  /** A file met again while it is active closes a cycle along the stack. */
  lemma ActiveIsOnCycle(g: Graph, stack: seq<File>, file: File)
    requires Path(g, stack) && file in stack && HasEdge(g, stack[|stack| - 1], file)
    ensures OnCycle(g, file)
  {
    var i :| 0 <= i < |stack| && stack[i] == file;
    var p := stack[i..];
    assert Cycle(g, p) && p[0] == file;
  }

  // ----- Layering -----

  datatype Rule = PackagesUpward | ModulesUpward | AppsIsolated | PublicIndexOnly | InnerToOuter | ImpureDomain

  function Segment(f: File, i: nat): Option<string> {
    if i < |f| then Some(f[i]) else None
  }

  function Area(f: File): Option<string> {
    Segment(f, 0)
  }

  const APPS := Some("apps")
  const MODULES := Some("modules")
  const PACKAGES := Some("packages")

  function Violation(s: File, t: File): Option<Rule> {
    if Area(s) == PACKAGES && (Area(t) == MODULES || Area(t) == APPS) then Some(PackagesUpward)
    else if Area(s) == MODULES && Area(t) == APPS then Some(ModulesUpward)
    else if Area(s) == APPS && Area(t) == APPS && Segment(s, 1) != Segment(t, 1) then Some(AppsIsolated)
    else if Area(s) == MODULES && Area(t) == MODULES && Segment(s, 1) != Segment(t, 1)
            && !(|t| == 3 && t[2] == "index.ts") then Some(PublicIndexOnly)
    else if Area(s) == MODULES && (Segment(s, 2) == Some("domain") || Segment(s, 2) == Some("application"))
            && (Segment(t, 2) == Some("infrastructure") || Segment(t, 2) == Some("interfaces")) then Some(InnerToOuter)
    else if Area(s) == MODULES && Segment(s, 2) == Some("domain")
            && (Segment(t, 2) == Some("application")
                || (Area(t) == PACKAGES && Segment(t, 1) != Some("shared-kernel")
                    && Segment(t, 1) != Some("event-contracts"))) then Some(ImpureDomain)
    else None
  }

  /** What the scan guarantees of an accepted tree. */
  ghost predicate Layered(g: Graph) {
    && (forall f | f in g :: Area(f) == APPS || Area(f) == MODULES || Area(f) == PACKAGES)
    && (forall a, b | HasEdge(g, a, b) :: Violation(a, b) == None)
  }

  /** May a file that depends on `s`, however indirectly, reach `t`? */
  predicate Allowed(s: File, t: File) {
    && (Area(s) == PACKAGES ==> Area(t) != MODULES && Area(t) != APPS)
    && (Area(s) == MODULES ==> Area(t) != APPS)
    && (Area(s) == APPS && Area(t) == APPS ==> Segment(s, 1) == Segment(t, 1))
  }

  /** The rules on single imports bound everything reachable: packages never reach modules or
      apps, modules never reach apps, and an app never reaches another app. */
  lemma {:induction false} LayeringIsTransitive(g: Graph, p: seq<File>)
    requires Layered(g) && Path(g, p) && |p| >= 2
    ensures Allowed(p[0], p[|p| - 1])
    decreases |p|
  {
    var last, before := p[|p| - 1], p[|p| - 2];
    assert HasEdge(g, before, last);
    assert Violation(before, last) == None;
    if |p| > 2 {
      var q := p[..|p| - 1];
      assert forall i | 0 <= i < |q| :: q[i] == p[i];
      LayeringIsTransitive(g, q);
      assert before in g;
    }
  }

  /** The files of the two outer layers of a module, by the third part of their path. */
  predicate Outer(f: File) {
    |f| > 2 && f[2] in {"infrastructure", "interfaces"}
  }

  predicate InLayer(f: File, layer: string) {
    |f| > 2 && f[0] == "modules" && f[2] == layer
  }

  /** What an import breaks that is forbidden by a rule. */
  predicate Breaks(s: File, t: File, rule: Rule) {
    && s != [] && t != []
    && match rule
       case PackagesUpward => s[0] == "packages" && t[0] in {"modules", "apps"}
       case ModulesUpward => s[0] == "modules" && t[0] == "apps"
       case AppsIsolated => s[0] == "apps" && t[0] == "apps" && s[..Two(s)] != t[..Two(t)]
       case PublicIndexOnly =>
         s[0] == "modules" && t[0] == "modules" && s[..Two(s)] != t[..Two(t)] && !(|t| == 3 && t[2] == "index.ts")
       case InnerToOuter => (InLayer(s, "domain") || InLayer(s, "application")) && Outer(t)
       case ImpureDomain =>
         && InLayer(s, "domain")
         && ((|t| > 2 && t[2] == "application")
             || (t[0] == "packages" && !(|t| > 1 && t[1] in {"shared-kernel", "event-contracts"})))
  }

  /** Up to two parts of a path: the name of an app, a module or a package. */
  function Two(f: File): nat {
    if |f| < 2 then |f| else 2
  }

  lemma SameHead(s: File, t: File)
    requires s != [] && t != [] && s[0] == t[0]
    ensures s[..Two(s)] == t[..Two(t)] <==> Segment(s, 1) == Segment(t, 1)
  {
    if |s| >= 2 && |t| >= 2 {
      assert s[..2] == [s[0], s[1]] && t[..2] == [t[0], t[1]];
    } else if |s| == 1 && |t| == 1 {
      assert s[..1] == [s[0]] && t[..1] == [t[0]];
    }
  }

  /** An import is let through exactly if it breaks no rule, and otherwise one that it breaks is named. */
  lemma ViolationExactly(s: File, t: File)
    requires s != [] && t != []
    ensures Violation(s, t) == None <==> forall rule :: !Breaks(s, t, rule)
    ensures Violation(s, t).Some? ==> Breaks(s, t, Violation(s, t).value)
  {
    if s[0] == t[0] {
      SameHead(s, t);
    }
    if Violation(s, t) == None {
      forall rule ensures !Breaks(s, t, rule) {
        NotBroken(s, t, rule);
      }
    } else {
      assert Breaks(s, t, Violation(s, t).value);
    }
  }

  lemma NotBroken(s: File, t: File, rule: Rule)
    requires s != [] && t != [] && Violation(s, t) == None
    ensures !Breaks(s, t, rule)
  {
    if s[0] == t[0] {
      SameHead(s, t);
    }
  }

  lemma StaysInModules(g: Graph, p: seq<File>, i: nat)
    requires Layered(g) && Path(g, p) && i < |p| - 1
    requires Area(p[0]) == MODULES && Area(p[|p| - 1]) == MODULES
    ensures Area(p[i]) == MODULES
  {
    assert HasEdge(g, p[i], p[i + 1]) && p[i] in g;
    var rest := p[i..];
    assert forall k | 0 <= k < |rest| :: rest[k] == p[i + k];
    LayeringIsTransitive(g, rest);
    if i > 0 {
      var before := p[..i + 1];
      assert forall k | 0 <= k < |before| :: before[k] == p[k];
      LayeringIsTransitive(g, before);
    }
  }

  /** In an accepted tree every way from one module into another leads through the other's index.ts,
      however many files and modules lie between. */
  lemma {:induction false} ModulesMeetAtIndex(g: Graph, p: seq<File>)
    requires Layered(g) && Path(g, p) && |p| >= 2
    requires Area(p[0]) == MODULES && Area(p[|p| - 1]) == MODULES
    requires |p[|p| - 1]| > 1 && Segment(p[0], 1) != Segment(p[|p| - 1], 1)
    ensures exists i | 0 < i < |p| :: p[i] == ["modules", p[|p| - 1][1], "index.ts"]
    decreases |p|
  {
    var last := p[|p| - 1];
    var q := p[1..];
    assert forall k | 0 <= k < |q| :: q[k] == p[k + 1];
    assert HasEdge(g, p[0], p[1]) && Violation(p[0], p[1]) == None;
    if |p| > 2 {
      StaysInModules(g, p, 1);
    }
    if Segment(p[1], 1) == Segment(last, 1) {
      assert p[1] == ["modules", last[1], "index.ts"];
    } else {
      ModulesMeetAtIndex(g, q);
      var i :| 0 < i < |q| && q[i] == ["modules", last[1], "index.ts"];
      assert p[i + 1] == q[i];
    }
  }

  // ----- The whole check -----

  /** Specifiers that are looked at for what they are: no literal, a path into a package, or a name
      from outside the repository. */
  datatype Specifier = Nonliteral | DeepPackage | External

  /** A file, the files it imports, and its other specifiers. */
  datatype Source = Source(path: File, imports: seq<File>, specifiers: seq<Specifier>)

  datatype Finding =
    | Forbidden(source: File, target: File, rule: Rule)
    | Unfit(path: File, specifier: Specifier)
    | Circular(file: File)

  /** Names from outside are an error in the domain layer of a module only. */
  predicate IsUnfit(path: File, specifier: Specifier) {
    specifier == External ==> Area(path) == MODULES && Segment(path, 2) == Some("domain")
  }

  /** Computed imports and paths into packages are unfit anywhere, names from outside in a domain layer. */
  lemma UnfitExactly(path: File)
    ensures IsUnfit(path, Nonliteral) && IsUnfit(path, DeepPackage)
    ensures IsUnfit(path, External) <==> InLayer(path, "domain")
  {
  }

  ghost predicate DistinctPaths(sources: seq<Source>) {
    forall i, j | 0 <= i < j < |sources| :: sources[i].path != sources[j].path
  }

  function GraphOf(sources: seq<Source>): Graph {
    if sources == [] then map[]
    else
      var n := |sources| - 1;
      GraphOf(sources[..n])[sources[n].path := sources[n].imports]
  }

  lemma {:induction false} GraphOfMeans(sources: seq<Source>)
    requires DistinctPaths(sources)
    ensures forall i | 0 <= i < |sources| ::
              sources[i].path in GraphOf(sources) && GraphOf(sources)[sources[i].path] == sources[i].imports
    ensures forall f | f in GraphOf(sources) :: exists i | 0 <= i < |sources| :: sources[i].path == f
  {
    if sources != [] {
      var n := |sources| - 1;
      var init := sources[..n];
      assert forall i | 0 <= i < n :: init[i] == sources[i];
      GraphOfMeans(init);
      forall f | f in GraphOf(sources) ensures exists i | 0 <= i < |sources| :: sources[i].path == f {
        if f != sources[n].path {
          var i :| 0 <= i < |init| && init[i].path == f;
          assert sources[i].path == f;
        } else {
          assert sources[n].path == f;
        }
      }
    }
  }

  ghost predicate Acyclic(g: Graph) {
    forall p :: !Cycle(g, p)
  }

  /** Exactly the forbidden imports of the sources. */
  ghost predicate Reports(findings: seq<Finding>, sources: seq<Source>) {
    && (forall i, t, r | 0 <= i < |sources| && t in sources[i].imports && Violation(sources[i].path, t) == Some(r) ::
          Forbidden(sources[i].path, t, r) in findings)
    && (forall x | x in findings && x.Forbidden? ::
          Violation(x.source, x.target) == Some(x.rule)
          && exists i | 0 <= i < |sources| :: sources[i].path == x.source && x.target in sources[i].imports)
  }

  /** Exactly the unfit specifiers of the sources. */
  ghost predicate ReportsUnfit(findings: seq<Finding>, sources: seq<Source>) {
    && (forall i, x | 0 <= i < |sources| && x in sources[i].specifiers && IsUnfit(sources[i].path, x) ::
          Unfit(sources[i].path, x) in findings)
    && (forall f | f in findings && f.Unfit? ::
          && IsUnfit(f.path, f.specifier)
          && exists i | 0 <= i < |sources| :: sources[i].path == f.path && f.specifier in sources[i].specifiers)
  }

  ghost predicate NoneUnfit(sources: seq<Source>) {
    forall i, x | 0 <= i < |sources| && x in sources[i].specifiers :: !IsUnfit(sources[i].path, x)
  }

  method SpecifierFindings(path: File, specifiers: seq<Specifier>) returns (findings: seq<Finding>)
    ensures forall x | x in specifiers && IsUnfit(path, x) :: Unfit(path, x) in findings
    ensures forall f | f in findings ::
              f.Unfit? && f.path == path && f.specifier in specifiers && IsUnfit(path, f.specifier)
  {
    findings := [];
    for i := 0 to |specifiers|
      invariant forall j | 0 <= j < i && IsUnfit(path, specifiers[j]) :: Unfit(path, specifiers[j]) in findings
      invariant forall f | f in findings ::
                  f.Unfit? && f.path == path && f.specifier in specifiers && IsUnfit(path, f.specifier)
    {
      if specifiers[i] != External || (Area(path) == MODULES && Segment(path, 2) == Some("domain")) {
        findings := findings + [Unfit(path, specifiers[i])];
      }
    }
  }

  lemma ReportsUnfitGrow(findings: seq<Finding>, sources: seq<Source>, more: seq<Finding>, next: Source)
    requires ReportsUnfit(findings, sources)
    requires forall x | x in next.specifiers && IsUnfit(next.path, x) :: Unfit(next.path, x) in more
    requires forall f | f in more ::
               f.Unfit? && f.path == next.path && f.specifier in next.specifiers && IsUnfit(next.path, f.specifier)
    ensures ReportsUnfit(findings + more, sources + [next])
  {
    var all := sources + [next];
    forall f | f in findings + more && f.Unfit?
      ensures exists i | 0 <= i < |all| :: all[i].path == f.path && f.specifier in all[i].specifiers
    {
      if f in findings {
        var i :| 0 <= i < |sources| && sources[i].path == f.path && f.specifier in sources[i].specifiers;
        assert all[i] == sources[i];
      } else {
        assert all[|sources|] == next;
      }
    }
  }

  method UnfitSpecifiers(sources: seq<Source>) returns (findings: seq<Finding>)
    ensures ReportsUnfit(findings, sources) && forall f | f in findings :: f.Unfit?
  {
    findings := [];
    for i := 0 to |sources|
      invariant ReportsUnfit(findings, sources[..i])
      invariant forall f | f in findings :: f.Unfit?
    {
      var more := SpecifierFindings(sources[i].path, sources[i].specifiers);
      ReportsUnfitGrow(findings, sources[..i], more, sources[i]);
      assert sources[..i + 1] == sources[..i] + [sources[i]];
      findings := findings + more;
    }
    assert sources[..|sources|] == sources;
  }

  lemma NoneUnfitReported(sources: seq<Source>, unfit: seq<Finding>)
    requires ReportsUnfit(unfit, sources) && forall f | f in unfit :: f.Unfit?
    ensures unfit == [] <==> NoneUnfit(sources)
  {
    if unfit != [] {
      var f := unfit[0];
      assert f in unfit;
      var i :| 0 <= i < |sources| && sources[i].path == f.path && f.specifier in sources[i].specifiers;
      assert IsUnfit(sources[i].path, f.specifier);
    }
    forall i, x | 0 <= i < |sources| && x in sources[i].specifiers && IsUnfit(sources[i].path, x)
      ensures unfit != []
    {
      assert Unfit(sources[i].path, x) in unfit;
    }
  }

  method ImportFindings(path: File, imports: seq<File>) returns (findings: seq<Finding>)
    ensures forall t, r | t in imports && Violation(path, t) == Some(r) :: Forbidden(path, t, r) in findings
    ensures forall x | x in findings ::
              x.Forbidden? && x.source == path && x.target in imports && Violation(path, x.target) == Some(x.rule)
  {
    findings := [];
    for i := 0 to |imports|
      invariant forall j, r | 0 <= j < i && Violation(path, imports[j]) == Some(r) ::
                  Forbidden(path, imports[j], r) in findings
      invariant forall x | x in findings ::
                  x.Forbidden? && x.source == path && x.target in imports && Violation(path, x.target) == Some(x.rule)
    {
      match Violation(path, imports[i]) {
        case Some(rule) => findings := findings + [Forbidden(path, imports[i], rule)];
        case None =>
      }
    }
  }

  method ForbiddenImports(sources: seq<Source>) returns (findings: seq<Finding>)
    ensures Reports(findings, sources) && forall x | x in findings :: x.Forbidden?
  {
    findings := [];
    for i := 0 to |sources|
      invariant Reports(findings, sources[..i])
      invariant forall x | x in findings :: x.Forbidden?
    {
      var more := ImportFindings(sources[i].path, sources[i].imports);
      ReportsGrow(findings, sources[..i], more, sources[i]);
      assert sources[..i + 1] == sources[..i] + [sources[i]];
      findings := findings + more;
    }
    assert sources[..|sources|] == sources;
  }

  function CircularFindings(reported: seq<File>): (findings: seq<Finding>)
    ensures |findings| == |reported|
    ensures forall f :: Circular(f) in findings <==> f in reported
    ensures forall x | x in findings :: x.Circular?
  {
    if reported == [] then [] else [Circular(reported[0])] + CircularFindings(reported[1..])
  }

  ghost predicate NoneForbidden(sources: seq<Source>) {
    forall i, t | 0 <= i < |sources| && t in sources[i].imports :: Violation(sources[i].path, t) == None
  }

  /** Every cycle goes through a named file and every named file lies on a cycle. */
  ghost predicate NamesCycles(g: Graph, named: set<File>) {
    && (forall f | f in named :: OnCycle(g, f))
    && (forall p | Cycle(g, p) :: exists f :: f in p && f in named)
  }

  function Named(findings: seq<Finding>): set<File> {
    set x | x in findings && x.Circular? :: x.file
  }

  /** Forbidden imports, unfit specifiers, and one finding for each import that closes a cycle: the
      tree is accepted exactly when it has none of them. */
  method Check(sources: seq<Source>) returns (findings: seq<Finding>)
    requires DistinctPaths(sources)
    ensures Reports(findings, sources) && ReportsUnfit(findings, sources)
    ensures NamesCycles(GraphOf(sources), Named(findings))
    ensures findings == [] <==> Acyclic(GraphOf(sources)) && NoneForbidden(sources) && NoneUnfit(sources)
  {
    var forbidden := ForbiddenImports(sources);
    var unfit := UnfitSpecifiers(sources);
    var circular := Cycles(sources);
    NoneNamed(GraphOf(sources), circular);
    NoneReported(sources, forbidden);
    NoneUnfitReported(sources, unfit);
    Combined(sources, forbidden, unfit, circular);
    findings := forbidden + unfit + CircularFindings(circular);
  }

  lemma Combined(sources: seq<Source>, forbidden: seq<Finding>, unfit: seq<Finding>, circular: seq<File>)
    requires Reports(forbidden, sources) && forall x | x in forbidden :: x.Forbidden?
    requires ReportsUnfit(unfit, sources) && forall x | x in unfit :: x.Unfit?
    ensures Reports(forbidden + unfit + CircularFindings(circular), sources)
    ensures ReportsUnfit(forbidden + unfit + CircularFindings(circular), sources)
    ensures Named(forbidden + unfit + CircularFindings(circular)) == set f | f in circular
  {
    var findings := forbidden + unfit + CircularFindings(circular);
    forall f | f in circular ensures f in Named(findings) {
      assert Circular(f) in findings;
    }
  }

  lemma ViolationIsReported(sources: seq<Source>, forbidden: seq<Finding>, i: nat, t: File)
    requires Reports(forbidden, sources)
    requires i < |sources| && t in sources[i].imports && Violation(sources[i].path, t) != None
    ensures forbidden != []
  {
    assert Forbidden(sources[i].path, t, Violation(sources[i].path, t).value) in forbidden;
  }

  lemma NoneReported(sources: seq<Source>, forbidden: seq<Finding>)
    requires Reports(forbidden, sources) && forall x | x in forbidden :: x.Forbidden?
    ensures forbidden == [] <==> NoneForbidden(sources)
  {
    if forbidden != [] {
      var x := forbidden[0];
      assert x in forbidden;
      var i :| 0 <= i < |sources| && sources[i].path == x.source && x.target in sources[i].imports;
      assert Violation(sources[i].path, x.target) != None;
    }
    forall i, t | 0 <= i < |sources| && t in sources[i].imports && Violation(sources[i].path, t) != None
      ensures forbidden != []
    {
      ViolationIsReported(sources, forbidden, i, t);
    }
  }

  lemma NoneNamed(g: Graph, circular: seq<File>)
    requires NamesCycles(g, set f | f in circular)
    ensures circular == [] <==> Acyclic(g)
  {
    if circular != [] {
      assert circular[0] in circular && OnCycle(g, circular[0]);
      var p :| Cycle(g, p) && circular[0] in p;
    }
  }

  lemma ReportsGrow(findings: seq<Finding>, sources: seq<Source>, more: seq<Finding>, next: Source)
    requires Reports(findings, sources)
    requires forall t, r | t in next.imports && Violation(next.path, t) == Some(r) :: Forbidden(next.path, t, r) in more
    requires forall x | x in more ::
               x.Forbidden? && x.source == next.path && x.target in next.imports
               && Violation(next.path, x.target) == Some(x.rule)
    ensures Reports(findings + more, sources + [next])
  {
    var all := sources + [next];
    forall x | x in findings + more && x.Forbidden?
      ensures exists i | 0 <= i < |all| :: all[i].path == x.source && x.target in all[i].imports
    {
      if x in findings {
        var i :| 0 <= i < |sources| && sources[i].path == x.source && x.target in sources[i].imports;
        assert all[i] == sources[i];
      } else {
        assert all[|sources|] == next;
      }
    }
  }

  method Cycles(sources: seq<Source>) returns (reported: seq<File>)
    requires DistinctPaths(sources)
    ensures NamesCycles(GraphOf(sources), set f | f in reported)
  {
    var g := GraphOf(sources);
    GraphOfMeans(sources);
    var checker := new CycleChecker();
    for i := 0 to |sources|
      invariant fresh(checker) && checker.Valid(g) && checker.active == {} && checker.stack == []
      invariant forall j | 0 <= j < i :: sources[j].path in checker.finished
    {
      checker.Walk(g, sources[i].path);
    }
    reported := checker.reported;
    forall p | Cycle(g, p) ensures exists f :: f in p && f in reported {
      forall f | f in p ensures f in checker.finished {
        OnCycleIsKey(g, p, f);
      }
      CycleIsReported(g, checker.finished, reported, p);
    }
  }

  lemma OnCycleIsKey(g: Graph, p: seq<File>, f: File)
    requires Cycle(g, p) && f in p
    ensures f in g
  {
    var i :| 0 <= i < |p| && p[i] == f;
    assert HasEdge(g, p[i], if i + 1 < |p| then p[i + 1] else p[0]);
  }

  /** In a tree without forbidden imports the layering rules hold along every import chain. */
  lemma AcceptedIsLayered(sources: seq<Source>)
    requires DistinctPaths(sources)
    requires forall i | 0 <= i < |sources| ::
               Area(sources[i].path) == APPS || Area(sources[i].path) == MODULES || Area(sources[i].path) == PACKAGES
    requires NoneForbidden(sources)
    ensures forall p | Path(GraphOf(sources), p) && |p| >= 2 :: Allowed(p[0], p[|p| - 1])
  {
    var g := GraphOf(sources);
    GraphOfMeans(sources);
    forall a, b | HasEdge(g, a, b) ensures Violation(a, b) == None {
      var i :| 0 <= i < |sources| && sources[i].path == a;
    }
    forall p | Path(g, p) && |p| >= 2 ensures Allowed(p[0], p[|p| - 1]) {
      LayeringIsTransitive(g, p);
    }
  }
}
