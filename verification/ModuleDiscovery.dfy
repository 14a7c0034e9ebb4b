/**
 * The walk that finds the modules of a convention folder: which directories it
 * claims, which files it takes from the others, and in what order it lists them.
 */
module ModuleDiscovery {
  import opened Basics
  import opened JsText

  /** What a directory holds, in the order it happens to be listed. */
  datatype Entries = End | Entry(name: JsString, node: Node, rest: Entries)

  /** A link is resolved only to ask whether it leads to a file. */
  datatype Node = File | Link(toFile: bool) | Dir(entries: Entries) | Special

  /** A path below the root of the walk. */
  type Path = seq<JsString>

  const SLASH: CodeUnit := '/' as int
  const DOT: CodeUnit := '.' as int

  const MODULE_EXTENSIONS := [Ascii(".ts"), Ascii(".mts"), Ascii(".cts"), Ascii(".js"), Ascii(".mjs"), Ascii(".cjs")]

  const SKIPPED_DIRECTORIES := {Ascii("node_modules"), Ascii("__tests__"), Ascii("__fixtures__"), Ascii("__mocks__"),
                                Ascii("__snapshots__")}

  // ----- names -----

  predicate EndsWith(s: JsString, suffix: JsString) {
    |suffix| <= |s| && s[|s| - |suffix|..] == suffix
  }

  /** `extname(name)` is this extension: it ends the name, and something precedes it. */
  predicate HasExtension(name: JsString, extension: JsString) {
    |name| > |extension| && EndsWith(name, extension)
  }

  predicate IsDeclaration(name: JsString) {
    EndsWith(name, Ascii(".d.ts")) || EndsWith(name, Ascii(".d.cts")) || EndsWith(name, Ascii(".d.mts"))
  }

  /** A `.test` or `.spec` right before the extension. */
  predicate IsTestWith(name: JsString, extension: JsString) {
    EndsWith(name, Ascii(".test") + extension) || EndsWith(name, Ascii(".spec") + extension)
  }

  predicate IsImportableModule(name: JsString) {
    exists extension | extension in MODULE_EXTENSIONS ::
      HasExtension(name, extension) && !IsDeclaration(name) && !IsTestWith(name, extension)
  }

  /** `name` is `stem` with an extension behind it that the walk takes. */
  predicate HasStem(name: JsString, stem: JsString, extension: JsString) {
    && stem != [] && name == stem + extension
    && extension in {Ascii(".ts"), Ascii(".mts"), Ascii(".cts"), Ascii(".js"), Ascii(".mjs"), Ascii(".cjs")}
  }

  /** The stem of a module that may be imported: neither a declaration's nor a test's. */
  predicate StemImportable(stem: JsString, extension: JsString) {
    && !(EndsWith(stem, Ascii(".d")) && extension in {Ascii(".ts"), Ascii(".mts"), Ascii(".cts")})
    && !EndsWith(stem, Ascii(".test")) && !EndsWith(stem, Ascii(".spec"))
  }

  /** What may be imported, by the stem in front of the extension. */
  lemma ImportableIff(name: JsString)
    ensures IsImportableModule(name) <==>
            exists stem, extension :: HasStem(name, stem, extension) && StemImportable(stem, extension)
  {
    forall extension | extension in MODULE_EXTENSIONS
      ensures HasExtension(name, extension) && !IsDeclaration(name) && !IsTestWith(name, extension) <==>
              exists stem :: HasStem(name, stem, extension) && StemImportable(stem, extension)
    {
      ImportableWith(name, extension);
    }
    if stem, extension :| HasStem(name, stem, extension) && StemImportable(stem, extension) {
      ExtensionListed(extension);
    }
  }

  lemma ExtensionListed(extension: JsString)
    ensures extension in MODULE_EXTENSIONS <==>
            extension in {Ascii(".ts"), Ascii(".mts"), Ascii(".cts"), Ascii(".js"), Ascii(".mjs"), Ascii(".cjs")}
  {
    var e := MODULE_EXTENSIONS;
    assert e[0] == Ascii(".ts") && e[1] == Ascii(".mts") && e[2] == Ascii(".cts");
    assert e[3] == Ascii(".js") && e[4] == Ascii(".mjs") && e[5] == Ascii(".cjs");
  }

  lemma EndsWithTwice(stem: JsString, a: JsString, b: JsString)
    ensures EndsWith(stem + b, a + b) <==> EndsWith(stem, a)
  {
    var s := stem + b;
    if |a| <= |stem| {
      assert s[|s| - |a + b|..] == stem[|stem| - |a|..] + b;
      if s[|s| - |a + b|..] == a + b {
        assert (stem[|stem| - |a|..] + b)[..|a|] == (a + b)[..|a|];
      }
    }
  }

  lemma ImportableWith(name: JsString, extension: JsString)
    requires extension in MODULE_EXTENSIONS
    ensures HasExtension(name, extension) && !IsDeclaration(name) && !IsTestWith(name, extension) <==>
            exists stem :: HasStem(name, stem, extension) && StemImportable(stem, extension)
  {
    ExtensionListed(extension);
    if HasExtension(name, extension) {
      var stem := name[..|name| - |extension|];
      assert name == stem + extension;
      ImportableStem(name, stem, extension);
    }
    if stem :| HasStem(name, stem, extension) && StemImportable(stem, extension) {
      assert name[|name| - |extension|..] == extension;
      ImportableStem(name, stem, extension);
    }
  }

  lemma ImportableStem(name: JsString, stem: JsString, extension: JsString)
    requires HasStem(name, stem, extension)
    ensures StemImportable(stem, extension) <==> !IsDeclaration(name) && !IsTestWith(name, extension)
  {
    EndsWithTwice(stem, Ascii(".test"), extension);
    EndsWithTwice(stem, Ascii(".spec"), extension);
    DeclarationStem(name, stem, extension);
  }

  /** An extension is a dot and what follows the last dot, so a name has only one. */
  predicate IsExtension(e: JsString) {
    e != [] && e[0] == DOT && DOT !in e[1..]
  }

  lemma OneExtension(name: JsString, a: JsString, b: JsString)
    requires IsExtension(a) && IsExtension(b) && EndsWith(name, a) && EndsWith(name, b)
    ensures a == b
  {
    NotLonger(name, a, b);
    NotLonger(name, b, a);
  }

  lemma NotLonger(name: JsString, a: JsString, b: JsString)
    requires IsExtension(a) && IsExtension(b) && EndsWith(name, a) && EndsWith(name, b)
    ensures |a| <= |b|
  {
    assert name[|name| - |b|] == name[|name| - |b|..][0] == DOT;
    forall p | |name| - |a| < p < |name| ensures name[p] != DOT {
      var k := p - (|name| - |a|);
      assert name[p] == name[|name| - |a|..][k] == a[1..][k - 1];
    }
  }

  /** A name with this extension ends with `.d` and that one only if it is this one. */
  lemma DeclarationWith(name: JsString, stem: JsString, extension: JsString, other: JsString)
    requires name == stem + extension && IsExtension(extension) && IsExtension(other)
    ensures EndsWith(name, Ascii(".d") + other) <==> EndsWith(stem, Ascii(".d")) && extension == other
  {
    EndsWithTwice(stem, Ascii(".d"), extension);
    assert EndsWith(name, extension);
    if EndsWith(name, Ascii(".d") + other) {
      assert name[|name| - |other|..] == (Ascii(".d") + other)[2..] == other;
      OneExtension(name, extension, other);
    }
  }

  lemma DeclarationStem(name: JsString, stem: JsString, extension: JsString)
    requires HasStem(name, stem, extension)
    ensures IsDeclaration(name) <==>
            EndsWith(stem, Ascii(".d")) && extension in {Ascii(".ts"), Ascii(".mts"), Ascii(".cts")}
  {
    assert Ascii(".d") + Ascii(".ts") == Ascii(".d.ts");
    assert Ascii(".d") + Ascii(".mts") == Ascii(".d.mts");
    assert Ascii(".d") + Ascii(".cts") == Ascii(".d.cts");
    DeclarationWith(name, stem, extension, Ascii(".ts"));
    DeclarationWith(name, stem, extension, Ascii(".mts"));
    DeclarationWith(name, stem, extension, Ascii(".cts"));
  }

  predicate IsSkippedProjectDirectory(name: JsString) {
    (name != [] && name[0] == DOT) || name in SKIPPED_DIRECTORIES
  }

  /** Hidden directories are skipped, and those of dependencies and of tests. */
  lemma SkippedIff(name: JsString)
    ensures IsSkippedProjectDirectory(name) <==>
            || (|name| > 0 && name[0] == '.' as int)
            || name == Ascii("node_modules") || name == Ascii("__tests__") || name == Ascii("__fixtures__")
            || name == Ascii("__mocks__") || name == Ascii("__snapshots__")
  {
  }

  function SentinelName(i: nat): JsString
    requires i < |MODULE_EXTENSIONS|
  {
    Ascii("route") + MODULE_EXTENSIONS[i]
  }

  // ----- the tree, whatever order it is listed in -----

  datatype Kind = Absent | IsFile | IsLink(toFile: bool) | IsDir | IsSpecial

  function KindOf(node: Node): Kind {
    match node
    case File => IsFile
    case Link(toFile) => IsLink(toFile)
    case Dir(_) => IsDir
    case Special => IsSpecial
  }

  function Find(entries: Entries, name: JsString): Option<Node> {
    match entries
    case End => None
    case Entry(n, node, rest) => if n == name then Some(node) else Find(rest, name)
  }

  /** What stands at a path. */
  function KindAt(entries: Entries, path: Path): Kind
    decreases |path|
  {
    if path == [] then IsDir
    else
      match Find(entries, path[0])
      case None => Absent
      case Some(node) =>
        if |path| == 1 then KindOf(node)
        else if node.Dir? then KindAt(node.entries, path[1..])
        else Absent
  }

  /** `statSync(path).isFile()`, which follows links. */
  predicate FileLike(kind: Kind) {
    kind == IsFile || kind == IsLink(true)
  }

  /** Two listings of one tree. */
  ghost predicate SameTree(a: Entries, b: Entries) {
    forall path: Path :: KindAt(a, path) == KindAt(b, path)
  }

  predicate IsName(name: JsString) {
    name != [] && SLASH !in name
  }

  predicate Named(entries: Entries, name: JsString) {
    entries.Entry? && (entries.name == name || Named(entries.rest, name))
  }

  /** A file system's guarantees: names are names, and no directory holds one twice. */
  predicate WellFormed(entries: Entries) {
    entries.Entry? ==>
      && IsName(entries.name) && !Named(entries.rest, entries.name)
      && (entries.node.Dir? ==> WellFormed(entries.node.entries))
      && WellFormed(entries.rest)
  }

  // ----- the sentinel that claims a directory -----

  function SentinelFrom(entries: Entries, dir: Path, i: nat): Option<JsString>
    requires i <= |MODULE_EXTENSIONS|
    decreases |MODULE_EXTENSIONS| - i
  {
    if i == |MODULE_EXTENSIONS| then None
    else if FileLike(KindAt(entries, dir + [SentinelName(i)])) then Some(SentinelName(i))
    else SentinelFrom(entries, dir, i + 1)
  }

  /** The first sentinel file a directory holds, in the order of the extensions. */
  function SentinelAt(entries: Entries, dir: Path): Option<JsString> {
    SentinelFrom(entries, dir, 0)
  }

  method CapabilityFile(entries: Entries) returns (found: Option<JsString>)
    ensures found == SentinelAt(entries, [])
  {
    var i := 0;
    while i < |MODULE_EXTENSIONS|
      invariant 0 <= i <= |MODULE_EXTENSIONS|
      invariant SentinelAt(entries, []) == SentinelFrom(entries, [], i)
    {
      var candidate := SentinelName(i);
      assert [] + [candidate] == [candidate];
      if FileLike(KindAt(entries, [candidate])) {
        return Some(candidate);
      }
      i := i + 1;
    }
    return None;
  }

  /** `route` with the `i`th extension is a file in the directory. */
  predicate HoldsRoute(entries: Entries, dir: Path, i: nat)
    requires i < |MODULE_EXTENSIONS|
  {
    FileLike(KindAt(entries, dir + [Ascii("route") + MODULE_EXTENSIONS[i]]))
  }

  /** A directory is claimed by the first of `route.ts`, `route.mts`, ... that is a file in it. */
  lemma {:induction false} SentinelIff(entries: Entries, dir: Path, name: JsString)
    ensures SentinelAt(entries, dir) == Some(name) <==>
            exists i: nat | i < |MODULE_EXTENSIONS| ::
              && HoldsRoute(entries, dir, i) && name == Ascii("route") + MODULE_EXTENSIONS[i]
              && forall j: nat | j < i :: !HoldsRoute(entries, dir, j)
  {
    var i := FirstRoute(entries, dir, 0);
    if j: nat :|
        && j < |MODULE_EXTENSIONS| && HoldsRoute(entries, dir, j) && name == Ascii("route") + MODULE_EXTENSIONS[j]
        && forall k: nat | k < j :: !HoldsRoute(entries, dir, k) {
      assert i <= j;
    }
  }

  lemma {:induction false} FirstRoute(entries: Entries, dir: Path, from: nat) returns (i: nat)
    requires from <= |MODULE_EXTENSIONS|
    ensures from <= i <= |MODULE_EXTENSIONS| && forall j: nat | from <= j < i :: !HoldsRoute(entries, dir, j)
    ensures i < |MODULE_EXTENSIONS| ==>
              HoldsRoute(entries, dir, i)
              && SentinelFrom(entries, dir, from) == Some(Ascii("route") + MODULE_EXTENSIONS[i])
    ensures i == |MODULE_EXTENSIONS| ==> SentinelFrom(entries, dir, from) == None
    decreases |MODULE_EXTENSIONS| - from
  {
    i := from;
    if from < |MODULE_EXTENSIONS| && !HoldsRoute(entries, dir, from) {
      i := FirstRoute(entries, dir, from + 1);
    }
  }

  // ----- the walk -----

  function Under(name: JsString, paths: seq<Path>): (r: seq<Path>)
    ensures |r| == |paths| && forall i | 0 <= i < |r| :: r[i] == [name] + paths[i]
  {
    if paths == [] then [] else [[name] + paths[0]] + Under(name, paths[1..])
  }

  /** What one entry contributes to the listing; `claiming` walks take a sentinel's directory as one unit. */
  function Contribution(claiming: bool, name: JsString, node: Node): seq<Path>
    decreases node, 1
  {
    match node
    case File => if IsImportableModule(name) then [[name]] else []
    case Link(toFile) => if IsImportableModule(name) && toFile then [[name]] else []
    case Special => []
    case Dir(inner) =>
      if IsSkippedProjectDirectory(name) then []
      else if claiming && SentinelAt(inner, []).Some? then [[name, SentinelAt(inner, []).value]]
      else Under(name, Collect(claiming, inner))
  }

  function Collect(claiming: bool, entries: Entries): seq<Path>
    decreases entries, 0
  {
    match entries
    case End => []
    case Entry(name, node, rest) => Contribution(claiming, name, node) + Collect(claiming, rest)
  }

  /** `join(dir, ...path)` */
  function Render(dir: JsString, path: Path): JsString
    decreases |path|
  {
    if path == [] then dir else Render(dir + [SLASH] + path[0], path[1..])
  }

  /** A path is spelled name by name, each behind a slash. */
  lemma {:induction false} RenderAppend(dir: JsString, path: Path, name: JsString)
    ensures Render(dir, []) == dir
    ensures Render(dir, path + [name]) == Render(dir, path) + [SLASH] + name
    decreases |path|
  {
    if path == [] {
      assert [name][1..] == [] && [] + [name] == [name];
    } else {
      assert (path + [name])[1..] == path[1..] + [name];
      RenderAppend(dir + [SLASH] + path[0], path[1..], name);
    }
  }

  function Rendered(dir: JsString, paths: seq<Path>): (r: seq<JsString>)
    ensures |r| == |paths| && forall i | 0 <= i < |r| :: r[i] == Render(dir, paths[i])
  {
    if paths == [] then [] else [Render(dir, paths[0])] + Rendered(dir, paths[1..])
  }

  lemma RenderedConcat(dir: JsString, a: seq<Path>, b: seq<Path>)
    ensures Rendered(dir, a + b) == Rendered(dir, a) + Rendered(dir, b)
  {
  }

  method CollectModules(claiming: bool, dir: JsString, entries: Entries) returns (out: seq<JsString>)
    ensures out == Rendered(dir, Collect(claiming, entries))
    decreases entries, 0
  {
    out := [];
    var left := entries;
    ghost var done: seq<Path> := [];
    while left.Entry?
      invariant left == entries || left < entries
      invariant Collect(claiming, entries) == done + Collect(claiming, left)
      invariant out == Rendered(dir, done)
      decreases left
    {
      var more := CollectEntry(claiming, dir, left.name, left.node);
      ghost var contributed := Contribution(claiming, left.name, left.node);
      RenderedConcat(dir, done, contributed);
      Regroup(done, contributed, Collect(claiming, left.rest));
      out := out + more;
      done := done + contributed;
      left := left.rest;
    }
    assert done + [] == done;
  }

  lemma RenderedOne(dir: JsString, name: JsString)
    ensures Rendered(dir, [[name]]) == [dir + [SLASH] + name]
  {
    assert [name][1..] == [];
    assert Render(dir, [name]) == Render(dir + [SLASH] + name, []);
  }

  lemma RenderedPair(dir: JsString, name: JsString, file: JsString)
    ensures Rendered(dir, [[name, file]]) == [dir + [SLASH] + name + [SLASH] + file]
  {
    assert [name, file][1..] == [file] && [file][1..] == [];
    assert Render(dir, [name, file]) == Render(dir + [SLASH] + name + [SLASH] + file, []);
  }

  /** The body of the walk's loop. */
  method CollectEntry(claiming: bool, dir: JsString, name: JsString, node: Node) returns (out: seq<JsString>)
    ensures out == Rendered(dir, Contribution(claiming, name, node))
    decreases node, 1
  {
    var child := dir + [SLASH] + name;
    RenderedOne(dir, name);
    out := [];
    match node
    case File =>
      if IsImportableModule(name) {
        out := [child];
      }
    case Link(toFile) =>
      if IsImportableModule(name) && toFile {
        out := [child];
      }
    case Special =>
    case Dir(inner) =>
      if !IsSkippedProjectDirectory(name) {
        var claimed := None;
        if claiming {
          claimed := CapabilityFile(inner);
        }
        if claimed.Some? {
          out := [child + [SLASH] + claimed.value];
          RenderedPair(dir, name, claimed.value);
        } else {
          out := CollectModules(claiming, child, inner);
        }
      }
  }

  // ----- what the walk finds -----

  predicate Claimed(claiming: bool, entries: Entries, dir: Path) {
    claiming && SentinelAt(entries, dir).Some?
  }

  /** No skipped directory lies above the file, and no claimed one between the root and its own directory. */
  ghost predicate ClearAbove(claiming: bool, entries: Entries, path: Path) {
    && (forall k | 0 <= k < |path| - 1 :: !IsSkippedProjectDirectory(path[k]))
    && (forall k | 1 <= k < |path| - 1 :: !Claimed(claiming, entries, path[..k]))
  }

  /** In a claimed directory only the sentinel counts, elsewhere any importable module. */
  predicate Fits(claiming: bool, entries: Entries, path: Path)
    requires path != []
  {
    var name, dir := path[|path| - 1], path[..|path| - 1];
    if dir != [] && Claimed(claiming, entries, dir)
    then SentinelAt(entries, dir) == Some(name)
    else IsImportableModule(name)
  }

  /**
   * A file belongs to the listing: no skipped directory lies above it, and it
   * is either an importable module with no claimed directory between it and
   * the root, or the very sentinel that claims the directory holding it.
   */
  ghost predicate Listed(claiming: bool, entries: Entries, path: Path) {
    && path != []
    && FileLike(KindAt(entries, path))
    && ClearAbove(claiming, entries, path)
    && Fits(claiming, entries, path)
  }

  /** The same, one directory at a time. */
  predicate Selected(claiming: bool, entries: Entries, path: Path)
    decreases |path|
  {
    && path != []
    && var found := Find(entries, path[0]);
       found.Some?
       && if |path| == 1 then FileLike(KindOf(found.value)) && IsImportableModule(path[0])
          else
            && found.value.Dir? && !IsSkippedProjectDirectory(path[0])
            && var inner := found.value.entries;
               if claiming && SentinelAt(inner, []).Some? then path[1..] == [SentinelAt(inner, []).value]
               else Selected(claiming, inner, path[1..])
  }

  lemma {:induction false} FindNamed(entries: Entries, name: JsString)
    ensures Find(entries, name).Some? <==> Named(entries, name)
  {
    if entries.Entry? {
      FindNamed(entries.rest, name);
    }
  }

  lemma {:induction false} CollectedIsNamed(claiming: bool, entries: Entries, path: Path)
    requires path in Collect(claiming, entries)
    ensures path != [] && Named(entries, path[0])
  {
    if path in Contribution(claiming, entries.name, entries.node) {
      ContributionBearsName(claiming, entries.name, entries.node, path);
    } else {
      CollectedIsNamed(claiming, entries.rest, path);
    }
  }

  lemma ContributionBearsName(claiming: bool, name: JsString, node: Node, path: Path)
    requires path in Contribution(claiming, name, node)
    ensures path != [] && path[0] == name
  {
  }

  lemma UnderMember(name: JsString, paths: seq<Path>, path: Path)
    ensures path in Under(name, paths) <==> path != [] && path[0] == name && path[1..] in paths
  {
    var under := Under(name, paths);
    if path in under {
      var i :| 0 <= i < |under| && under[i] == path;
      assert path[1..] == paths[i];
    }
    if path != [] && path[0] == name && path[1..] in paths {
      var i :| 0 <= i < |paths| && paths[i] == path[1..];
      assert under[i] == path;
    }
  }

  lemma ContributedIff(claiming: bool, name: JsString, node: Node, path: Path)
    requires path != [] && path[0] == name
    requires node.Dir? ==>
               forall p: Path :: p in Collect(claiming, node.entries) <==> Selected(claiming, node.entries, p)
    ensures path in Contribution(claiming, name, node) <==> Selected(claiming, Entry(name, node, End), path)
  {
    if |path| == 1 {
      assert path == [name];
    } else {
      assert path == [name] + path[1..];
    }
    if node.Dir? {
      UnderMember(name, Collect(claiming, node.entries), path);
      var claimed := SentinelAt(node.entries, []);
      if claimed.Some? {
        assert path == [name, claimed.value] <==> path[1..] == [claimed.value];
      }
    }
  }

  lemma {:induction false} CollectedIff(claiming: bool, entries: Entries, path: Path)
    requires WellFormed(entries)
    ensures path in Collect(claiming, entries) <==> Selected(claiming, entries, path)
    decreases entries
  {
    if entries.Entry? {
      var name, node, rest := entries.name, entries.node, entries.rest;
      CollectedIff(claiming, rest, path);
      if path != [] && path[0] == name {
        if node.Dir? {
          forall p: Path ensures p in Collect(claiming, node.entries) <==> Selected(claiming, node.entries, p) {
            CollectedIff(claiming, node.entries, p);
          }
        }
        ContributedIff(claiming, name, node, path);
        if path in Collect(claiming, rest) {
          CollectedIsNamed(claiming, rest, path);
        }
      } else if path in Contribution(claiming, name, node) {
        ContributionBearsName(claiming, name, node, path);
      }
    }
  }

  /** At the root a module counts when it is a file or a link to one; a directory link never does. */
  lemma RootModuleIff(claiming: bool, entries: Entries, name: JsString, node: Node)
    requires WellFormed(entries) && Find(entries, name) == Some(node) && IsImportableModule(name)
    ensures [name] in Collect(claiming, entries) <==> node == File || node == Link(true)
  {
    CollectedIff(claiming, entries, [name]);
  }

  lemma {:induction false} SentinelBelow(entries: Entries, name: JsString, inner: Entries, dir: Path, i: nat)
    requires Find(entries, name) == Some(Dir(inner)) && i <= |MODULE_EXTENSIONS|
    ensures SentinelFrom(entries, [name] + dir, i) == SentinelFrom(inner, dir, i)
    decreases |MODULE_EXTENSIONS| - i
  {
    if i < |MODULE_EXTENSIONS| {
      SentinelBelow(entries, name, inner, dir, i + 1);
      assert [name] + dir + [SentinelName(i)] == [name] + (dir + [SentinelName(i)]);
    }
  }

  lemma ClearBelow(claiming: bool, entries: Entries, name: JsString, inner: Entries, rest: Path)
    requires Find(entries, name) == Some(Dir(inner)) && rest != [] && !Claimed(claiming, inner, [])
    ensures ClearAbove(claiming, entries, [name] + rest) <==>
            !IsSkippedProjectDirectory(name) && ClearAbove(claiming, inner, rest)
  {
    var path := [name] + rest;
    forall k | 0 <= k <= |rest|
      ensures Claimed(claiming, entries, path[..k + 1]) == Claimed(claiming, inner, rest[..k])
    {
      assert path[..k + 1] == [name] + rest[..k];
      SentinelBelow(entries, name, inner, rest[..k], 0);
    }
    if ClearAbove(claiming, entries, path) {
      assert path[0] == name;
      forall k | 0 <= k < |rest| - 1 ensures !IsSkippedProjectDirectory(rest[k]) {
        assert path[k + 1] == rest[k];
      }
      forall k | 1 <= k < |rest| - 1 ensures !Claimed(claiming, inner, rest[..k]) {
        assert !Claimed(claiming, entries, path[..k + 1]);
      }
    }
    if !IsSkippedProjectDirectory(name) && ClearAbove(claiming, inner, rest) {
      forall k | 1 <= k < |path| - 1 ensures !Claimed(claiming, entries, path[..k]) {
        assert Claimed(claiming, entries, path[..(k - 1) + 1]) == Claimed(claiming, inner, rest[..k - 1]);
        assert rest[..0] == [];
      }
    }
  }

  lemma FitsBelow(claiming: bool, entries: Entries, name: JsString, inner: Entries, rest: Path)
    requires Find(entries, name) == Some(Dir(inner)) && rest != [] && !Claimed(claiming, inner, [])
    ensures Fits(claiming, entries, [name] + rest) <==> Fits(claiming, inner, rest)
  {
    var path := [name] + rest;
    assert path[..|path| - 1] == [name] + rest[..|rest| - 1];
    SentinelBelow(entries, name, inner, rest[..|rest| - 1], 0);
    assert |rest| == 1 ==> rest[..|rest| - 1] == [];
  }

  /** Taking the directories one at a time is looking at all of them at once. */
  lemma {:induction false} SelectedIffListed(claiming: bool, entries: Entries, path: Path)
    ensures Selected(claiming, entries, path) <==> Listed(claiming, entries, path)
    decreases |path|
  {
    if path != [] {
      var found := Find(entries, path[0]);
      if |path| > 1 && found.Some? && found.value.Dir? {
        BelowDirectory(claiming, entries, path, found.value.entries);
      }
    }
  }

  lemma {:induction false} BelowDirectory(claiming: bool, entries: Entries, path: Path, inner: Entries)
    requires |path| > 1 && Find(entries, path[0]) == Some(Dir(inner))
    ensures Selected(claiming, entries, path) <==> Listed(claiming, entries, path)
    decreases |path|, 0
  {
    var name, rest := path[0], path[1..];
    assert path == [name] + rest;
    if Claimed(claiming, inner, []) {
      SentinelBelow(entries, name, inner, [], 0);
      assert [name] + [] == [name];
      if |path| > 2 {
        assert path[..1] == [name];
        assert Claimed(claiming, entries, path[..1]);
      } else {
        assert path[..1] == [name] && rest == [path[1]];
      }
    } else {
      SelectedIffListed(claiming, inner, rest);
      ClearBelow(claiming, entries, name, inner, rest);
      FitsBelow(claiming, entries, name, inner, rest);
    }
  }

  // ----- no path twice -----

  lemma {:induction false} FoundIsWellFormed(entries: Entries, name: JsString)
    requires WellFormed(entries) && Find(entries, name).Some?
    ensures IsName(name) && (Find(entries, name).value.Dir? ==> WellFormed(Find(entries, name).value.entries))
  {
    if entries.name != name {
      FoundIsWellFormed(entries.rest, name);
    }
  }

  lemma {:induction false} SelectedIsNames(claiming: bool, entries: Entries, path: Path)
    requires WellFormed(entries) && Selected(claiming, entries, path)
    ensures forall name | name in path :: IsName(name)
    decreases |path|
  {
    FoundIsWellFormed(entries, path[0]);
    assert path == [path[0]] + path[1..];
    if |path| > 1 {
      var inner := Find(entries, path[0]).value.entries;
      if !(claiming && SentinelAt(inner, []).Some?) {
        SelectedIsNames(claiming, inner, path[1..]);
      }
    }
  }

  lemma {:induction false} CollectDistinct(claiming: bool, entries: Entries)
    requires WellFormed(entries)
    ensures Distinct(Collect(claiming, entries))
    decreases entries
  {
    if entries.Entry? {
      var name, node, rest := entries.name, entries.node, entries.rest;
      var first, others := Contribution(claiming, name, node), Collect(claiming, rest);
      CollectDistinct(claiming, rest);
      if node.Dir? {
        CollectDistinct(claiming, node.entries);
        UnderDistinct(name, Collect(claiming, node.entries));
      }
      forall i, j | 0 <= i < |first| && 0 <= j < |others| ensures first[i] != others[j] {
        ContributionBearsName(claiming, name, node, first[i]);
        CollectedIsNamed(claiming, rest, others[j]);
      }
    }
  }

  lemma UnderDistinct(name: JsString, paths: seq<Path>)
    requires Distinct(paths)
    ensures Distinct(Under(name, paths))
  {
    var under := Under(name, paths);
    forall i, j | 0 <= i < j < |under| ensures under[i] != under[j] {
      assert under[i][1..] == paths[i] && under[j][1..] == paths[j];
    }
  }

  // ----- a path and its spelling -----

  function Tail(path: Path): JsString {
    if path == [] then [] else [SLASH] + path[0] + Tail(path[1..])
  }

  lemma {:induction false} RenderIsTail(dir: JsString, path: Path)
    ensures Render(dir, path) == dir + Tail(path)
    decreases |path|
  {
    if path != [] {
      RenderIsTail(dir + [SLASH] + path[0], path[1..]);
    }
  }

  lemma FirstSegment(p: JsString, q: JsString, a: JsString, b: JsString)
    requires IsName(p) && IsName(q) && p + a == q + b && |p| <= |q|
    requires a == [] || a[0] == SLASH
    requires b == [] || b[0] == SLASH
    ensures p == q && a == b
  {
    var whole := p + a;
    assert |p| < |whole| ==> whole[|p|] == SLASH;
    assert forall k | 0 <= k < |q| :: whole[k] == q[k] && q[k] != SLASH;
    assert (p + a)[..|p|] == p && (q + b)[..|q|] == q;
    assert (p + a)[|p|..] == a && (q + b)[|q|..] == b;
  }

  lemma {:induction false} TailInjective(p: Path, q: Path)
    requires Tail(p) == Tail(q)
    requires (forall name | name in p :: IsName(name)) && forall name | name in q :: IsName(name)
    ensures p == q
    decreases |p|
  {
    if p != [] && q != [] {
      var a, b := Tail(p[1..]), Tail(q[1..]);
      assert Tail(p)[1..] == p[0] + a && Tail(q)[1..] == q[0] + b;
      if |p[0]| <= |q[0]| {
        FirstSegment(p[0], q[0], a, b);
      } else {
        FirstSegment(q[0], p[0], b, a);
      }
      TailInjective(p[1..], q[1..]);
      assert p == [p[0]] + p[1..] && q == [q[0]] + q[1..];
    }
  }

  lemma RenderInjective(dir: JsString, p: Path, q: Path)
    requires Render(dir, p) == Render(dir, q)
    requires (forall name | name in p :: IsName(name)) && forall name | name in q :: IsName(name)
    ensures p == q
  {
    RenderIsTail(dir, p);
    RenderIsTail(dir, q);
    assert (dir + Tail(p))[|dir|..] == Tail(p) && (dir + Tail(q))[|dir|..] == Tail(q);
    TailInjective(p, q);
  }

  // ----- discovery -----

  /** `collectModules(dir, claim).sort(byPath)` */
  function Discovered(claiming: bool, dir: JsString, entries: Entries): seq<JsString> {
    Sort(Rendered(dir, Collect(claiming, entries)))
  }

  method DiscoverCapabilityModules(dir: JsString, entries: Entries) returns (modules: seq<JsString>)
    ensures modules == Discovered(true, dir, entries)
  {
    var found := CollectModules(true, dir, entries);
    modules := Sort(found);
  }

  method DiscoverPluginModules(dir: JsString, entries: Entries) returns (modules: seq<JsString>)
    ensures modules == Discovered(false, dir, entries)
  {
    var found := CollectModules(false, dir, entries);
    modules := Sort(found);
  }

  lemma RenderedDistinct(claiming: bool, dir: JsString, entries: Entries)
    requires WellFormed(entries)
    ensures Distinct(Rendered(dir, Collect(claiming, entries)))
  {
    var paths := Collect(claiming, entries);
    CollectDistinct(claiming, entries);
    forall i, j | 0 <= i < j < |paths| ensures Render(dir, paths[i]) != Render(dir, paths[j]) {
      CollectedIff(claiming, entries, paths[i]);
      CollectedIff(claiming, entries, paths[j]);
      SelectedIsNames(claiming, entries, paths[i]);
      SelectedIsNames(claiming, entries, paths[j]);
      if Render(dir, paths[i]) == Render(dir, paths[j]) {
        RenderInjective(dir, paths[i], paths[j]);
      }
    }
  }

  lemma FoundIsListed(claiming: bool, dir: JsString, entries: Entries, file: JsString) returns (path: Path)
    requires WellFormed(entries) && file in Rendered(dir, Collect(claiming, entries))
    ensures Listed(claiming, entries, path) && Render(dir, path) == file
  {
    var paths := Collect(claiming, entries);
    var found := Rendered(dir, paths);
    var i :| 0 <= i < |found| && found[i] == file;
    path := paths[i];
    CollectedIff(claiming, entries, path);
    SelectedIffListed(claiming, entries, path);
  }

  lemma ListedIsFound(claiming: bool, dir: JsString, entries: Entries, path: Path)
    requires WellFormed(entries) && Listed(claiming, entries, path)
    ensures Render(dir, path) in Rendered(dir, Collect(claiming, entries))
  {
    var paths := Collect(claiming, entries);
    SelectedIffListed(claiming, entries, path);
    CollectedIff(claiming, entries, path);
    var i :| 0 <= i < |paths| && paths[i] == path;
    assert Rendered(dir, paths)[i] == Render(dir, path);
  }

  /** What is discovered is strictly sorted, and is exactly the listed files. */
  lemma DiscoveredIff(claiming: bool, dir: JsString, entries: Entries, file: JsString)
    requires WellFormed(entries)
    ensures StrictlySorted(Discovered(claiming, dir, entries))
    ensures file in Discovered(claiming, dir, entries) <==>
            exists path: Path :: Listed(claiming, entries, path) && Render(dir, path) == file
  {
    RenderedDistinct(claiming, dir, entries);
    SortDistinct(Rendered(dir, Collect(claiming, entries)));
    if file in Discovered(claiming, dir, entries) {
      var path := FoundIsListed(claiming, dir, entries, file);
    }
    if path: Path :| Listed(claiming, entries, path) && Render(dir, path) == file {
      ListedIsFound(claiming, dir, entries, path);
    }
  }

  lemma ListedSame(claiming: bool, a: Entries, b: Entries, path: Path)
    requires SameTree(a, b) && Listed(claiming, a, path)
    ensures Listed(claiming, b, path)
  {
    assert KindAt(a, path) == KindAt(b, path);
    forall dir: Path ensures SentinelAt(a, dir) == SentinelAt(b, dir) {
    }
    forall k | 1 <= k < |path| - 1 ensures !Claimed(claiming, b, path[..k]) {
      assert Claimed(claiming, a, path[..k]) == Claimed(claiming, b, path[..k]);
    }
  }

  /** The order directories happen to be listed in does not matter. */
  lemma {:induction false} DiscoveryIgnoresListingOrder(claiming: bool, dir: JsString, a: Entries, b: Entries)
    requires WellFormed(a) && WellFormed(b) && SameTree(a, b)
    ensures Discovered(claiming, dir, a) == Discovered(claiming, dir, b)
  {
    forall file ensures file in Discovered(claiming, dir, a) <==> file in Discovered(claiming, dir, b) {
      DiscoveredIff(claiming, dir, a, file);
      DiscoveredIff(claiming, dir, b, file);
      if path: Path :| Listed(claiming, a, path) && Render(dir, path) == file {
        ListedSame(claiming, a, b, path);
      }
      if path: Path :| Listed(claiming, b, path) && Render(dir, path) == file {
        ListedSame(claiming, b, a, path);
      }
    }
    DiscoveredIff(claiming, dir, a, []);
    DiscoveredIff(claiming, dir, b, []);
    SortedUnique(Discovered(claiming, dir, a), Discovered(claiming, dir, b));
  }
}
