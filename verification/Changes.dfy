/**
 Which kinds of job and which crates a change can affect, by rules that place one file. When unsure,
 everything runs: a Rust file no crate holds is the whole workspace.
 */
module Changes {
  import opened Outcomes
  import opened Closure

  datatype Class = Rust | RustAll | Ui | Dashboard | Shared | DocsOnly | Workflows | Deploy

  /** What the rules say of one file: the classes it adds, whether it leaves a change documentation
      only, and the crates that read it. */
  datatype Rules = Rules(classesOf: string -> set<Class>, leavesDocsOnly: string -> bool,
                         readers: string -> set<string>)

  // --- The classes of a change --------------------------------------------------------------------------

  function Added(rules: Rules, paths: seq<string>): set<Class> {
    set i, kind | 0 <= i < |paths| && kind in rules.classesOf(paths[i]) :: kind
  }

  predicate OnlyDocs(rules: Rules, paths: seq<string>) {
    forall i :: 0 <= i < |paths| ==> rules.leavesDocsOnly(paths[i])
  }

  /** What the files add, every Rust job where one of them is run-everything, and documentation only
      when all of them are. */
  function Classes(rules: Rules, paths: seq<string>): set<Class> {
    var added := Added(rules, paths);
    added + (if RustAll in added then {Rust} else {}) + (if OnlyDocs(rules, paths) then {DocsOnly} else {})
  }

  lemma AddedStep(rules: Rules, paths: seq<string>, path: string)
    ensures Added(rules, paths + [path]) == Added(rules, paths) + rules.classesOf(path)
  {
    var longer := paths + [path];
    forall kind ensures kind in Added(rules, longer) <==> kind in Added(rules, paths) + rules.classesOf(path) {
      if kind in rules.classesOf(path) { assert kind in rules.classesOf(longer[|paths|]); }
      if kind in Added(rules, paths) {
        var i :| 0 <= i < |paths| && kind in rules.classesOf(paths[i]);
        assert kind in rules.classesOf(longer[i]);
      }
    }
  }

  method ClassifyBy(rules: Rules, paths: seq<string>) returns (classes: set<Class>)
    ensures classes == Classes(rules, paths)
  {
    classes := {};
    var onlyDocs := true;
    for n := 0 to |paths|
      invariant classes == Added(rules, paths[..n])
      invariant onlyDocs == OnlyDocs(rules, paths[..n])
    {
      assert paths[..n + 1] == paths[..n] + [paths[n]];
      AddedStep(rules, paths[..n], paths[n]);
      classes := classes + rules.classesOf(paths[n]);
      if !rules.leavesDocsOnly(paths[n]) {
        onlyDocs := false;
      }
    }
    assert paths[..|paths|] == paths;
    if RustAll in classes {
      classes := classes + {Rust};
    }
    if onlyDocs {
      classes := classes + {DocsOnly};
    }
  }

  lemma {:induction false} AddedConcat(rules: Rules, a: seq<string>, b: seq<string>)
    ensures Added(rules, a + b) == Added(rules, a) + Added(rules, b)
  {
    if b == [] {
      assert a + b == a;
    } else {
      var shorter, last := b[..|b| - 1], b[|b| - 1];
      AddedConcat(rules, a, shorter);
      AddedStep(rules, a + shorter, last);
      AddedStep(rules, shorter, last);
      assert a + b == (a + shorter) + [last] && b == shorter + [last];
    }
  }

  /** No file is documentation only by itself adding that class. */
  ghost predicate NeverDocsOnly(rules: Rules) {
    forall path :: DocsOnly !in rules.classesOf(path)
  }

  /** Two changes together are of the classes either is, and documentation only exactly when both are. */
  lemma ClassesOfBoth(rules: Rules, a: seq<string>, b: seq<string>)
    requires NeverDocsOnly(rules)
    ensures Classes(rules, a + b) - {DocsOnly} == (Classes(rules, a) + Classes(rules, b)) - {DocsOnly}
    ensures DocsOnly in Classes(rules, a + b) <==> DocsOnly in Classes(rules, a) && DocsOnly in Classes(rules, b)
  {
    AddedConcat(rules, a, b);
    assert forall i :: 0 <= i < |a| ==> (a + b)[i] == a[i];
    assert forall i :: 0 <= i < |b| ==> (a + b)[|a| + i] == b[i];
    assert OnlyDocs(rules, a + b) <==> OnlyDocs(rules, a) && OnlyDocs(rules, b);
  }

  // --- The crates a change affects ----------------------------------------------------------------------------

  datatype Packages = Workspace | Listed(names: set<string>)

  predicate HeldBy(path: string, krate: Crate) {
    krate.dir + "/" <= path
  }

  /** The crate whose directory holds the path: the deepest one, the last of those as deep. */
  function Owner(path: string, crates: seq<Crate>): (owner: Option<nat>)
    ensures owner.None? <==> forall i :: 0 <= i < |crates| ==> !HeldBy(path, crates[i])
    ensures owner.Some? ==>
              && owner.value < |crates| && HeldBy(path, crates[owner.value])
              && forall i :: 0 <= i < |crates| && HeldBy(path, crates[i]) ==>
                   |crates[i].dir| <= |crates[owner.value].dir|
  {
    if crates == [] then None
    else
      var last := |crates| - 1;
      var before := Owner(path, crates[..last]);
      assert forall i :: 0 <= i < last ==> crates[..last][i] == crates[i];
      if HeldBy(path, crates[last]) && (before.None? || |crates[before.value].dir| <= |crates[last].dir|)
      then Some(last)
      else before
  }

  /** A Rust file that no crate reads and no crate holds. */
  predicate Unsure(rules: Rules, path: string, crates: seq<Crate>) {
    rules.readers(path) == {} && Rust in Classes(rules, [path]) && Owner(path, crates).None?
  }

  /** The crates one file belongs to or is read by. */
  function SeedsOf(rules: Rules, path: string, crates: seq<Crate>): set<string> {
    if rules.readers(path) != {} then rules.readers(path)
    else if Rust in Classes(rules, [path]) && Owner(path, crates).Some? then {crates[Owner(path, crates).value].name}
    else {}
  }

  function Seeds(rules: Rules, paths: seq<string>, crates: seq<Crate>): set<string> {
    set i, name | 0 <= i < |paths| && name in SeedsOf(rules, paths[i], crates) :: name
  }

  predicate RunsEverything(rules: Rules, paths: seq<string>, crates: seq<Crate>) {
    RustAll in Classes(rules, paths) || exists i :: 0 <= i < |paths| && Unsure(rules, paths[i], crates)
  }

  /** What a change affects: everything when a run-everything path changed or a file is unsure, and
      otherwise exactly the least set of crates that holds the changed and the reading ones and every
      crate that depends on one it holds. */
  ghost predicate Affects(rules: Rules, paths: seq<string>, crates: seq<Crate>, packages: Packages) {
    if RunsEverything(rules, paths, crates) then packages == Workspace
    else packages.Listed? && LeastClosed(crates, Seeds(rules, paths, crates), packages.names)
  }

  lemma SeedsStep(rules: Rules, paths: seq<string>, path: string, crates: seq<Crate>)
    ensures Seeds(rules, paths + [path], crates) == Seeds(rules, paths, crates) + SeedsOf(rules, path, crates)
  {
    var longer := paths + [path];
    forall name
      ensures name in Seeds(rules, longer, crates) <==>
              name in Seeds(rules, paths, crates) + SeedsOf(rules, path, crates)
    {
      if name in SeedsOf(rules, path, crates) { assert name in SeedsOf(rules, longer[|paths|], crates); }
      if name in Seeds(rules, paths, crates) {
        var i :| 0 <= i < |paths| && name in SeedsOf(rules, paths[i], crates);
        assert name in SeedsOf(rules, longer[i], crates);
      }
    }
  }

  method AffectedBy(rules: Rules, paths: seq<string>, crates: seq<Crate>) returns (packages: Packages)
    ensures Affects(rules, paths, crates, packages)
  {
    var classes := ClassifyBy(rules, paths);
    if RustAll in classes {
      return Workspace;
    }
    var affected := {};
    for n := 0 to |paths|
      invariant affected == Seeds(rules, paths[..n], crates)
      invariant forall i :: 0 <= i < n ==> !Unsure(rules, paths[i], crates)
    {
      assert paths[..n + 1] == paths[..n] + [paths[n]];
      SeedsStep(rules, paths[..n], paths[n], crates);
      if Unsure(rules, paths[n], crates) {
        return Workspace;
      }
      affected := affected + SeedsOf(rules, paths[n], crates);
    }
    assert paths[..|paths|] == paths;
    var names := DependentClosure(crates, affected);
    return Listed(names);
  }

  predicate Within(less: Packages, more: Packages) {
    more == Workspace || (less.Listed? && less.names <= more.names)
  }

  /** Every changed file of `a` is one of `b`. */
  predicate Includes(b: seq<string>, a: seq<string>) {
    forall i :: 0 <= i < |a| ==> a[i] in b
  }

  lemma MoreFilesAddMore(rules: Rules, a: seq<string>, b: seq<string>, crates: seq<Crate>)
    requires Includes(b, a)
    ensures Added(rules, a) <= Added(rules, b) && Seeds(rules, a, crates) <= Seeds(rules, b, crates)
    ensures RunsEverything(rules, a, crates) ==> RunsEverything(rules, b, crates)
  {
    forall i | 0 <= i < |a| ensures exists j :: 0 <= j < |b| && b[j] == a[i] { assert a[i] in b; }
    forall kind | kind in Added(rules, a) ensures kind in Added(rules, b) {
      var i :| 0 <= i < |a| && kind in rules.classesOf(a[i]);
      var j :| 0 <= j < |b| && b[j] == a[i];
      assert kind in rules.classesOf(b[j]);
    }
    forall name | name in Seeds(rules, a, crates) ensures name in Seeds(rules, b, crates) {
      var i :| 0 <= i < |a| && name in SeedsOf(rules, a[i], crates);
      var j :| 0 <= j < |b| && b[j] == a[i];
      assert name in SeedsOf(rules, b[j], crates);
    }
    if i :| 0 <= i < |a| && Unsure(rules, a[i], crates) {
      var j :| 0 <= j < |b| && b[j] == a[i];
      assert Unsure(rules, b[j], crates);
    }
  }

  /** When unsure, run: more changed files, in any order, never affect fewer crates, the whole workspace being
      the most. */
  lemma MoreFilesAffectMore(rules: Rules, a: seq<string>, b: seq<string>, crates: seq<Crate>, less: Packages,
                            more: Packages)
    requires Affects(rules, a, crates, less) && Affects(rules, b, crates, more) && Includes(b, a)
    ensures Within(less, more)
  {
    MoreFilesAddMore(rules, a, b, crates);
    hide RunsEverything, Seeds;
    if !RunsEverything(rules, b, crates) {
      ClosureMonotone(crates, Seeds(rules, a, crates), Seeds(rules, b, crates), less.names, more.names);
    }
  }
}
