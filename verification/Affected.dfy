/** The rules that place this repository's files, and what a change of them affects. */
module Affected {
  import opened Closure
  import opened Changes

  const RUST_ALL := ["crates/pos-proto/", "crates/pos-core/", "crates/pos-ports/", "Cargo.lock", "Cargo.toml",
                     "rust-toolchain.toml", "rustfmt.toml", "clippy.toml", "deny.toml", ".cargo/", ".config/",
                     ".github/", "xtask/", "tools/"]

  const DOCS := ["docs/", "changes/", ".jules/", "LICENSE", "CODEOWNERS", ".gitignore", ".gitattributes",
                 ".editorconfig", ".git-blame-ignore-revs", "README.md"]

  /** A file no crate holds, paired with the crate whose build or tests depend on it. */
  const READ_BY := [
    ("docs/snapshots/events.txt", "pos-proto"),
    ("docs/snapshots/actions.txt", "pos-proto"),
    ("ui/src/package/actions.ts", "pos-proto"),
    ("docs/snapshots/components.txt", "pos-proto"),
    ("ui/src/package/components.ts", "pos-proto"),
    ("ui/src/package/default-package.json", "pos-core"),
    ("docs/snapshots/settings.txt", "pos-proto"),
    ("docs/configuration.md", "pos-proto"),
    ("docs/snapshots/permissions.txt", "pos-core"),
    ("docs/snapshots/capabilities.txt", "pos-core"),
    ("docs/permissions.md", "pos-core"),
    ("docs/state-machines.md", "pos-core"),
    ("docs/snapshots/routes.txt", "pos-edge"),
    ("docs/openapi-edge.json", "pos-edge"),
    ("docs/guides/add-a-setting.md", "pos-edge"),
    ("deploy/edge/install-pos-edge.ps1", "pos-edge"),
    ("docs/openapi.json", "pos-cloud"),
    ("docs/openapi-admin.json", "pos-cloud"),
    ("docs/openapi-device.json", "pos-cloud"),
    ("dashboard/src/i18n/", "pos-cloud")]

  predicate EndsWith(path: string, suffix: string) {
    |suffix| <= |path| && path[|path| - |suffix|..] == suffix
  }

  /** A prefix with a closing slash names a directory and all it holds, any other a single file. */
  predicate Under(path: string, prefix: string) {
    if EndsWith(prefix, "/") then prefix <= path else path == prefix
  }

  predicate UnderAny(path: string, prefixes: seq<string>) {
    exists i :: 0 <= i < |prefixes| && Under(path, prefixes[i])
  }

  /** The crates that read `path`. */
  function Readers(path: string): set<string> {
    set i | 0 <= i < |READ_BY| && Under(path, READ_BY[i].0) :: READ_BY[i].1
  }

  // --- One file --------------------------------------------------------------------------------------

  predicate Documentation(path: string) {
    UnderAny(path, DOCS) || (EndsWith(path, ".md") && !(".github/" <= path))
  }

  /** The classes a file's own place gives it; nothing for documentation. */
  function PlaceOf(path: string): set<Class> {
    if UnderAny(path, RUST_ALL) then {RustAll}
    else if Documentation(path) then {}
    else if UnderAny(path, ["crates/", "countries/", "examples/", "apps/"]) || EndsWith(path, ".rs")
            || EndsWith(path, "/Cargo.toml") || path == "justfile" then {Rust}
    else if "ui/" <= path then {Ui}
    else if "dashboard/" <= path then {Dashboard}
    else if "packages/shared/" <= path then {Shared}
    else if "deploy/" <= path || "k8s/" <= path || path == ".dockerignore" then {Deploy}
    else {RustAll, Ui, Dashboard}
  }

  /** Every class one file adds. */
  function ClassesOf(path: string): set<Class> {
    PlaceOf(path) + (if ".github/" <= path then {Workflows} else {}) + (if Readers(path) != {} then {Rust} else {})
  }

  /** A file that leaves a change documentation only: documentation that no crate reads. */
  predicate LeavesDocsOnly(path: string) {
    PlaceOf(path) == {} && Readers(path) == {}
  }

  /** The rules this repository's files are placed by. */
  function FileRules(): Rules {
    Rules(ClassesOf, LeavesDocsOnly, Readers)
  }

  method Classify(paths: seq<string>) returns (classes: set<Class>)
    ensures classes == Classes(FileRules(), paths)
  {
    classes := ClassifyBy(FileRules(), paths);
  }

  method AffectedPackages(paths: seq<string>, crates: seq<Crate>) returns (packages: Packages)
    ensures Affects(FileRules(), paths, crates, packages)
  {
    packages := AffectedBy(FileRules(), paths, crates);
  }

  /** No file adds the documentation class by itself, so that the classes of two changes join. */
  lemma FileRulesNeverDocsOnly()
    ensures NeverDocsOnly(FileRules())
  {
    forall path ensures DocsOnly !in FileRules().classesOf(path) {
      NoDocsOnly(path);
    }
  }

  lemma NoDocsOnly(path: string)
    ensures DocsOnly !in ClassesOf(path)
  {
  }

  /** Two changes of this repository together are of the classes either is, and documentation only exactly when
      both are. */
  lemma ClassesOfTwoChanges(a: seq<string>, b: seq<string>)
    ensures var rules := FileRules();
            && Classes(rules, a + b) - {DocsOnly} == (Classes(rules, a) + Classes(rules, b)) - {DocsOnly}
            && (DocsOnly in Classes(rules, a + b) <==>
                 DocsOnly in Classes(rules, a) && DocsOnly in Classes(rules, b))
  {
    FileRulesNeverDocsOnly();
    ClassesOfBoth(FileRules(), a, b);
  }
}
