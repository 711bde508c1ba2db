/** Extracting an app archive and hashing what it left (services/candaceos/source_materialization.go, source_digest.go). */
module SourceMaterialization {
  import opened Sequences
  import opened Wrappers
  import opened SourceDigest
  import opened SourceBudget

  datatype Kind = DirectoryEntry | RegularEntry | UnsupportedEntry

  /** One archive header with the content bytes the reader delivers for it. */
  datatype Header = Header(rawName: Bytes, kind: Kind, size: int, executable: bool, content: Bytes)

  datatype Node = Directory | File(content: Bytes, executable: bool)

  type Tree = map<Bytes, Node>

  /** strings.TrimSuffix of one slash. */
  function NameOf(header: Header): Bytes {
    var raw := header.rawName;
    if raw != [] && raw[|raw| - 1] == SLASH then raw[..|raw| - 1] else raw
  }

  // ---- What an archive leaves on disk ----

  function NamesOf(archive: seq<Header>): set<Bytes> {
    set header | header in archive && NameOf(header) != [] :: NameOf(header)
  }

  function Regular(header: Header): bool {
    NameOf(header) != [] && header.kind.RegularEntry? && 0 <= header.size <= |header.content|
  }

  /** The regular files of an archive by name. */
  function FilesOf(archive: seq<Header>): Tree {
    if archive == [] then map[]
    else
      var before := FilesOf(archive[..|archive| - 1]);
      var last := archive[|archive| - 1];
      if Regular(last) then before[NameOf(last) := File(last.content[..last.size], last.executable)] else before
  }

  /** Every named entry and every directory above it; what is not a regular file is a directory. */
  function TreeOf(archive: seq<Header>): Tree {
    var files := FilesOf(archive);
    map path | path in Closure(NamesOf(archive)) :: if path in files then files[path] else Directory
  }

  /** The files of a tree. */
  function Files(tree: Tree): Tree {
    map path | path in tree && tree[path].File? :: tree[path]
  }

  function Size(node: Node): nat {
    if node.File? then |node.content| else 0
  }

  /** The bytes of a set of files. */
  ghost function Total(files: Tree): nat {
    if files == map[] then 0
    else
      var path :| path in files;
      Size(files[path]) + Total(files - {path})
  }

  lemma {:induction false} TotalRemoves(files: Tree, path: Bytes)
    requires path in files
    ensures Total(files) == Size(files[path]) + Total(files - {path})
    decreases |files|
  {
    var first :| first in files && Total(files) == Size(files[first]) + Total(files - {first});
    if first != path {
      TotalRemoves(files - {first}, path);
      TotalRemoves(files - {path}, first);
      assert files - {first} - {path} == files - {path} - {first};
    }
  }

  lemma TotalAdds(files: Tree, path: Bytes, file: Node)
    requires path !in files
    ensures Total(files[path := file]) == Total(files) + Size(file)
    ensures |files[path := file]| == |files| + 1
  {
    TotalRemoves(files[path := file], path);
    assert files[path := file] - {path} == files;
  }

  /** What the budget has to hold for a tree. */
  ghost predicate Admissible(policy: Policy, tree: Tree) {
    && (forall path | path in tree :: ValidPath(policy, path))
    && |Closure(tree.Keys)| <= 2 * policy.maxFiles
    && |Files(tree)| <= policy.maxFiles && Total(Files(tree)) <= policy.maxBytes
  }

  // ---- Which archives are extracted ----

  /** An entry that can follow the ones before it. */
  ghost predicate Follows(policy: Policy, before: seq<Header>, header: Header) {
    var name := NameOf(header);
    name == [] ||
    (&& name !in NamesOf(before) && ValidPath(policy, name) && !header.kind.UnsupportedEntry?
     && |Closure(NamesOf(before)) + Ancestors(name)| <= 2 * policy.maxFiles
     && (forall above | above in Ancestors(name) :: above !in FilesOf(before))
     && (header.kind.RegularEntry? ==>
           && Regular(header) && name !in Closure(NamesOf(before))
           && |FilesOf(before)| + 1 <= policy.maxFiles && Total(FilesOf(before)) + header.size <= policy.maxBytes))
  }

  lemma {:induction false} FilesOfAreFiles(archive: seq<Header>)
    ensures forall path | path in FilesOf(archive) :: FilesOf(archive)[path].File?
    ensures FilesOf(archive).Keys <= NamesOf(archive)
  {
    if archive != [] {
      FilesOfAreFiles(archive[..|archive| - 1]);
      assert archive[|archive| - 1] in archive;
    }
  }

  ghost predicate Extractable(policy: Policy, archive: seq<Header>) {
    forall k | 0 <= k < |archive| :: Follows(policy, archive[..k], archive[k])
  }

  // ---- The destination directory ----

  /** A tree with the missing directories down to a path. */
  function WithDirectories(tree: Tree, path: Bytes): Tree {
    map p | p in tree.Keys + Ancestors(path) :: if p in tree then tree[p] else Directory
  }

  class SourceRoot {
    var nodes: Tree

    constructor ()
      ensures nodes == map[]
    {
      nodes := map[];
    }

    /** Fails on a file where a directory is needed. That file's own directories exist, so nothing is made before it. */
    method MkdirAll(path: Bytes) returns (ok: bool)
      modifies this
      ensures ok <==> forall above | above in Ancestors(path) && above in old(nodes) :: old(nodes)[above].Directory?
      ensures nodes == if ok then WithDirectories(old(nodes), path) else old(nodes)
    {
      if exists above :: above in Ancestors(path) && above in nodes && !nodes[above].Directory? {
        return false;
      }
      nodes := WithDirectories(nodes, path);
      return true;
    }

    /** OpenFile with O_EXCL, and the copy of the declared size out of what the archive delivers. */
    method CreateFile(path: Bytes, size: int, content: Bytes, executable: bool) returns (ok: bool)
      requires 0 <= size
      modifies this
      ensures ok <==> path !in old(nodes) && size <= |content|
      ensures ok ==> nodes == old(nodes)[path := File(content[..size], executable)]
    {
      if path in nodes {
        return false;
      }
      if |content| < size {
        nodes := nodes[path := File(content, executable)];
        return false;
      }
      nodes := nodes[path := File(content[..size], executable)];
      return true;
    }
  }

  // ---- extractAppArchive ----

  lemma NamesExtend(before: seq<Header>, header: Header)
    ensures NamesOf(before + [header]) == NamesOf(before) + (if NameOf(header) == [] then {} else {NameOf(header)})
    ensures Closure(NamesOf(before + [header]))
            == Closure(NamesOf(before)) + (if NameOf(header) == [] then {} else Ancestors(NameOf(header)))
  {
    assert forall h :: h in before + [header] <==> h in before || h == header;
    assert NamesOf(before + [header]) == NamesOf(before) + (if NameOf(header) == [] then {} else {NameOf(header)});
  }

  lemma FilesExtend(before: seq<Header>, header: Header)
    ensures FilesOf(before + [header])
            == if Regular(header) then FilesOf(before)[NameOf(header) := File(header.content[..header.size], header.executable)]
               else FilesOf(before)
  {
    assert (before + [header])[..|before|] == before;
  }

  /** An entry that follows adds its missing directories, and itself when it is a regular file. */
  lemma TreeExtends(policy: Policy, before: seq<Header>, header: Header)
    requires Follows(policy, before, header)
    ensures var name := NameOf(header);
            TreeOf(before + [header])
            == if name == [] then TreeOf(before)
               else if header.kind.RegularEntry? then
                 WithDirectories(TreeOf(before), name)[name := File(header.content[..header.size], header.executable)]
               else WithDirectories(TreeOf(before), name)
  {
    NamesExtend(before, header);
    FilesExtend(before, header);
    PathIsItsAncestor(NameOf(header));
    hide Closure, NamesOf, FilesOf, Ancestors;
  }

  lemma TreeKeys(archive: seq<Header>)
    ensures TreeOf(archive).Keys == Closure(NamesOf(archive))
    ensures Files(TreeOf(archive)) == FilesOf(archive)
  {
    FilesOfAreFiles(archive);
    ClosureIsClosed(NamesOf(archive));
    hide Closure, NamesOf, FilesOf;
  }

  /** path.Dir of a valid path: nothing above a path of one component. */
  function Parent(path: Bytes): Option<Bytes> {
    var parts := Split(path);
    if |parts| == 1 then None else Some(Join(parts[..|parts| - 1]))
  }

  lemma NotAboveItself(path: Bytes, k: nat)
    requires k < |Split(path)|
    ensures path !in Above(Split(path), k)
  {
    var parts := Split(path);
    forall j | 1 <= j <= k
      ensures Join(parts[..j]) != path
    {
      SplitJoin(parts[..j]);
    }
  }

  lemma ParentIsAbove(path: Bytes)
    requires |Split(path)| > 1
    ensures Parent(path).Some? && Ancestors(Parent(path).value) == Above(Split(path), |Split(path)| - 1)
  {
    var parts := Split(path);
    var n := |parts| - 1;
    assert forall part | part in parts[..n] :: part in parts;
    SplitJoin(parts[..n]);
    AbovePrefix(parts, n, n);
    hide Join, Split, Above;
    assert parts[..n] == parts[..n][..n];
  }

  lemma ParentAncestors(path: Bytes)
    ensures Ancestors(path) == (if Parent(path).None? then {} else Ancestors(Parent(path).value)) + {path}
    ensures Parent(path).Some? ==> path !in Ancestors(Parent(path).value)
  {
    var parts := Split(path);
    var n := |parts|;
    JoinSplit(path);
    assert parts[..n] == parts;
    NextAncestor(parts, n - 1);
    NotAboveItself(path, n - 1);
    assert Above(parts, 0) == {};
    hide Join, Split, Above;
    if n > 1 {
      ParentIsAbove(path);
    }
  }

  /** The directories of a path without the path itself, then the path: the same tree as with all of them. */
  lemma ParentThenPath(tree: Tree, path: Bytes, file: Node)
    ensures (if Parent(path).None? then tree else WithDirectories(tree, Parent(path).value))[path := file]
            == WithDirectories(tree, path)[path := file]
  {
    ParentAncestors(path);
    hide Ancestors;
  }

  /** The destination and the budget stand where the entries so far have brought them. */
  ghost predicate Progress(root: SourceRoot, budget: AppSourceBudget, before: seq<Header>)
    reads root, budget
  {
    && root.nodes == TreeOf(before) && budget.entries == Closure(NamesOf(before))
    && budget.files == |FilesOf(before)| && budget.bytes == Total(FilesOf(before))
  }

  lemma ExtractableExtends(policy: Policy, before: seq<Header>, header: Header)
    ensures Extractable(policy, before + [header]) <==> Extractable(policy, before) && Follows(policy, before, header)
  {
    var all := before + [header];
    assert all[..|before|] == before && all[|before|] == header;
    forall k | 0 <= k < |before|
      ensures all[..k] == before[..k] && all[k] == before[k]
    {
    }
    hide Follows;
    if Extractable(policy, all) {
      assert Follows(policy, all[..|before|], all[|before|]);
      forall k | 0 <= k < |before|
        ensures Follows(policy, before[..k], before[k])
      {
        assert Follows(policy, all[..k], all[k]);
      }
    }
  }

  /** A directory entry: its path is admitted, then made. */
  method ExtractDirectory(root: SourceRoot, budget: AppSourceBudget, header: Header, ghost before: seq<Header>)
    returns (ok: bool)
    requires Progress(root, budget, before) && budget.Valid()
    requires NameOf(header) != [] && NameOf(header) !in NamesOf(before) && header.kind.DirectoryEntry?
    modifies root, budget
    ensures budget.Valid()
    ensures ok <==> Follows(budget.policy, before, header)
    ensures ok ==> Progress(root, budget, before + [header])
  {
    var name := NameOf(header);
    TreeFiles(before, name);
    NamesExtend(before, header);
    FilesExtend(before, header);
    hide Ancestors, Closure, NamesOf, TreeOf, FilesOf, WithDirectories, Total, ValidPath;
    ok := budget.AdmitPath(name);
    if ok {
      ok := root.MkdirAll(name);
      if ok {
        TreeExtends(budget.policy, before, header);
      }
    }
  }

  /** Among the ancestors of a new name, the tree's files are the archive's files. */
  lemma TreeFiles(before: seq<Header>, name: Bytes)
    ensures (forall above | above in Ancestors(name) && above in TreeOf(before) :: TreeOf(before)[above].Directory?)
            <==> (forall above | above in Ancestors(name) :: above !in FilesOf(before))
  {
    FilesOfAreFiles(before);
    ClosureIsClosed(NamesOf(before));
    hide Closure, NamesOf, FilesOf, Ancestors;
  }

  /** A regular file follows when the budget takes it and the destination has room for it. */
  lemma FileFollows(policy: Policy, before: seq<Header>, header: Header)
    requires NameOf(header) != [] && NameOf(header) !in NamesOf(before) && header.kind.RegularEntry?
    ensures var name := NameOf(header);
            Follows(policy, before, header)
            <==> && Admitted(policy, Closure(NamesOf(before)), name).Some?
                 && 0 <= header.size && |FilesOf(before)| + 1 <= policy.maxFiles
                 && Total(FilesOf(before)) + header.size <= policy.maxBytes
                 && name !in TreeOf(before) && header.size <= |header.content|
                 && forall above | above in Ancestors(name) && above in TreeOf(before) :: TreeOf(before)[above].Directory?
  {
    TreeFiles(before, NameOf(header));
    TreeKeys(before);
    hide ValidPath, Closure, NamesOf, FilesOf, Ancestors, TreeOf, Total, NameOf;
  }

  /** What a regular file that follows adds to each count. */
  lemma FileAdds(policy: Policy, before: seq<Header>, header: Header)
    requires Follows(policy, before, header) && NameOf(header) != [] && header.kind.RegularEntry?
    ensures var name := NameOf(header);
            var all := before + [header];
            && TreeOf(all)
               == WithDirectories(TreeOf(before), name)[name := File(header.content[..header.size], header.executable)]
            && Closure(NamesOf(all)) == Closure(NamesOf(before)) + Ancestors(name)
            && |FilesOf(all)| == |FilesOf(before)| + 1 && Total(FilesOf(all)) == Total(FilesOf(before)) + header.size
  {
    FilesOfAreFiles(before);
    NamesExtend(before, header);
    FilesExtend(before, header);
    TreeExtends(policy, before, header);
    TotalAdds(FilesOf(before), NameOf(header), File(header.content[..header.size], header.executable));
  }

  /** A regular file: its path and size are admitted, then its directories are made and its content is copied. */
  method ExtractFile(root: SourceRoot, budget: AppSourceBudget, header: Header, ghost before: seq<Header>)
    returns (ok: bool)
    requires Progress(root, budget, before) && budget.Valid()
    requires NameOf(header) != [] && NameOf(header) !in NamesOf(before) && header.kind.RegularEntry?
    modifies root, budget
    ensures budget.Valid()
    ensures ok <==> Follows(budget.policy, before, header)
    ensures ok ==> Progress(root, budget, before + [header])
  {
    var name := NameOf(header);
    FileFollows(budget.policy, before, header);
    assert budget.entries == Closure(NamesOf(before)) && root.nodes == TreeOf(before)
        && budget.files == |FilesOf(before)| && budget.bytes == Total(FilesOf(before));
    hide *;
    ok := AdmitRegular(budget, name, header.size);
    if !ok {
      return;
    }
    AdmittedIs(budget.policy, Closure(NamesOf(before)), name);
    ok := WriteAppArchiveFile(root, name, header);
    if !ok {
      return;
    }
    FileAdds(budget.policy, before, header);
    ProgressIs(root, budget, before + [header]);
  }

  lemma ProgressIs(root: SourceRoot, budget: AppSourceBudget, before: seq<Header>)
    ensures Progress(root, budget, before)
            <==> && root.nodes == TreeOf(before) && budget.entries == Closure(NamesOf(before))
                 && budget.files == |FilesOf(before)| && budget.bytes == Total(FilesOf(before))
  {
  }

  lemma AdmittedIs(policy: Policy, entries: set<Bytes>, path: Bytes)
    requires Admitted(policy, entries, path).Some?
    ensures Admitted(policy, entries, path).value == entries + Ancestors(path)
  {
  }

  /** Both admissions of a regular file, the path first. */
  method AdmitRegular(budget: AppSourceBudget, name: Bytes, size: int) returns (ok: bool)
    requires budget.Valid()
    modifies budget
    ensures budget.Valid()
    ensures ok <==> && Admitted(budget.policy, old(budget.entries), name).Some?
                    && 0 <= size && old(budget.files) + 1 <= budget.policy.maxFiles
                    && old(budget.bytes) + size <= budget.policy.maxBytes
    ensures ok ==> && budget.entries == Admitted(budget.policy, old(budget.entries), name).value
                   && budget.files == old(budget.files) + 1 && budget.bytes == old(budget.bytes) + size
  {
    hide Admitted, Ancestors;
    ok := budget.AdmitPath(name);
    if ok {
      ok := budget.AdmitFile(size);
    }
  }

  method WriteAppArchiveFile(root: SourceRoot, name: Bytes, header: Header) returns (ok: bool)
    requires 0 <= header.size
    modifies root
    ensures ok <==> && name !in old(root.nodes) && header.size <= |header.content|
                    && forall above | above in Ancestors(name) && above in old(root.nodes) :: old(root.nodes)[above].Directory?
    ensures ok ==> root.nodes
                   == WithDirectories(old(root.nodes), name)[name := File(header.content[..header.size], header.executable)]
  {
    ParentAncestors(name);
    var parent := Parent(name);
    ghost var tree := root.nodes;
    if parent.Some? {
      ok := root.MkdirAll(parent.value);
      if !ok {
        return;
      }
    }
    ok := root.CreateFile(name, header.size, header.content, header.executable);
    if ok {
      ParentThenPath(tree, name, File(header.content[..header.size], header.executable));
    }
  }

  /** A named entry that no earlier one repeats. */
  method ExtractEntry(root: SourceRoot, budget: AppSourceBudget, header: Header, ghost before: seq<Header>)
    returns (ok: bool)
    requires Progress(root, budget, before) && budget.Valid() && NameOf(header) != [] && NameOf(header) !in NamesOf(before)
    modifies root, budget
    ensures budget.Valid()
    ensures ok <==> Follows(budget.policy, before, header)
    ensures ok ==> Progress(root, budget, before + [header])
  {
    match header.kind {
      case DirectoryEntry => ok := ExtractDirectory(root, budget, header, before);
      case RegularEntry => ok := ExtractFile(root, budget, header, before);
      case UnsupportedEntry =>
        var admitted := budget.AdmitPath(NameOf(header));
        ok := false;
    }
  }

  lemma UnnamedIsSkipped(policy: Policy, root: SourceRoot, budget: AppSourceBudget, before: seq<Header>, header: Header)
    requires Progress(root, budget, before) && NameOf(header) == []
    ensures Follows(policy, before, header) && Progress(root, budget, before + [header])
  {
    NamesExtend(before, header);
    FilesExtend(before, header);
    TreeExtends(policy, before, header);
    hide Closure, NamesOf, FilesOf, TreeOf, Total;
    assert Closure(NamesOf(before)) + {} == Closure(NamesOf(before));
  }

  lemma RepeatedDoesNotFollow(policy: Policy, before: seq<Header>, header: Header)
    requires NameOf(header) in NamesOf(before) && NameOf(header) != []
    ensures !Follows(policy, before, header)
  {
  }

  lemma EmptyArchive(policy: Policy)
    ensures TreeOf([]) == map[] && Closure(NamesOf([])) == {} && NamesOf([]) == {} && FilesOf([]) == map[]
    ensures Total(FilesOf([])) == 0 && Extractable(policy, [])
  {
    assert NamesOf([]) == {} && Closure({}) == {};
  }

  // extractAppArchive succeeds exactly on the archives whose entries follow one another, and then the destination holds
  // the archive's tree and the budget has been charged for exactly it.
  method ExtractAppArchive(archive: seq<Header>, root: SourceRoot, budget: AppSourceBudget) returns (ok: bool)
    requires root.nodes == map[] && budget.entries == {} && budget.files == 0 && budget.bytes == 0 && budget.Valid()
    modifies root, budget
    ensures ok <==> Extractable(budget.policy, archive)
    ensures ok ==> Progress(root, budget, archive)
  {
    var seen: set<Bytes> := {};
    EmptyArchive(budget.policy);
    assert Progress(root, budget, []);
    hide *;
    for k := 0 to |archive|
      invariant budget.Valid() && Progress(root, budget, archive[..k])
      invariant seen == NamesOf(archive[..k]) && Extractable(budget.policy, archive[..k])
    {
      var header := archive[k];
      ghost var before := archive[..k];
      TakeOneMore(archive, k);
      ExtractableExtends(budget.policy, before, header);
      ExtractablePrefix(budget.policy, archive, k + 1);
      NamesExtend(before, header);
      var name := NameOf(header);
      if name == [] {
        UnnamedIsSkipped(budget.policy, root, budget, before, header);
        assert NamesOf(before) + {} == NamesOf(before);
        continue;
      }
      if name in seen {
        RepeatedDoesNotFollow(budget.policy, before, header);
        return false;
      }
      seen := seen + {name};
      ok := ExtractEntry(root, budget, header, before);
      if !ok {
        return;
      }
    }
    assert archive[..|archive|] == archive;
    return true;
  }

  lemma ExtractablePrefix(policy: Policy, archive: seq<Header>, k: nat)
    requires k <= |archive|
    ensures Extractable(policy, archive) ==> Extractable(policy, archive[..k])
  {
    if Extractable(policy, archive) {
      forall j | 0 <= j < k
        ensures Follows(policy, archive[..k][..j], archive[..k][j])
      {
        assert archive[..k][..j] == archive[..j];
      }
    }
  }

  // What was extracted fits the same policy again: the tree's paths are closed under ancestors, and its files are the
  // archive's.
  lemma ExtractedIsAdmissible(policy: Policy, archive: seq<Header>)
    requires Extractable(policy, archive)
    ensures Admissible(policy, TreeOf(archive))
  {
    hide *;
    TreeKeys(archive);
    ClosureIsClosed(NamesOf(archive));
    ExtractedNamesAreValid(policy, archive);
    ExtractedFits(policy, archive);
    ClosureIsValid(policy, NamesOf(archive));
    AdmissibleWhen(policy, TreeOf(archive));
  }

  lemma AdmissibleWhen(policy: Policy, tree: Tree)
    requires forall path | path in tree.Keys :: ValidPath(policy, path)
    requires |Closure(tree.Keys)| <= 2 * policy.maxFiles
    requires |Files(tree)| <= policy.maxFiles && Total(Files(tree)) <= policy.maxBytes
    ensures Admissible(policy, tree)
  {
    hide ValidPath, Closure, Files, Total;
  }

  lemma ExtractedNamesAreValid(policy: Policy, archive: seq<Header>)
    requires Extractable(policy, archive)
    ensures forall name | name in NamesOf(archive) :: ValidPath(policy, name)
  {
    hide ValidPath, Closure, FilesOf, Ancestors;
    forall name | name in NamesOf(archive)
      ensures ValidPath(policy, name)
    {
      var header :| header in archive && NameOf(header) == name && name != [];
      var k :| 0 <= k < |archive| && archive[k] == header;
      assert Follows(policy, archive[..k], archive[k]);
    }
  }

  lemma EntryFits(policy: Policy, before: seq<Header>, last: Header)
    requires Follows(policy, before, last) && |Closure(NamesOf(before))| <= 2 * policy.maxFiles
    requires |FilesOf(before)| <= policy.maxFiles && Total(FilesOf(before)) <= policy.maxBytes
    ensures |Closure(NamesOf(before + [last]))| <= 2 * policy.maxFiles
    ensures |FilesOf(before + [last])| <= policy.maxFiles && Total(FilesOf(before + [last])) <= policy.maxBytes
  {
    FilesOfAreFiles(before);
    NamesExtend(before, last);
    FilesExtend(before, last);
    hide Closure, NamesOf, FilesOf, Ancestors, ValidPath, Total, NameOf;
    if NameOf(last) == [] {
      assert Closure(NamesOf(before)) + {} == Closure(NamesOf(before));
    } else if last.kind.RegularEntry? {
      TotalAdds(FilesOf(before), NameOf(last), File(last.content[..last.size], last.executable));
    }
  }

  lemma {:induction false} ExtractedFits(policy: Policy, archive: seq<Header>)
    requires Extractable(policy, archive)
    ensures |Closure(NamesOf(archive))| <= 2 * policy.maxFiles
    ensures |FilesOf(archive)| <= policy.maxFiles && Total(FilesOf(archive)) <= policy.maxBytes
  {
    if archive == [] {
      assert NamesOf(archive) == {} && Closure({}) == {};
    } else {
      var before := archive[..|archive| - 1];
      var last := archive[|archive| - 1];
      assert archive == before + [last];
      ExtractableExtends(policy, before, last);
      ExtractedFits(policy, before);
      hide *;
      EntryFits(policy, before, last);
    }
  }

  // ---- Which archives are extracted, without their order ----

  predicate Supported(policy: Policy, header: Header) {
    NameOf(header) == []
    || (ValidPath(policy, NameOf(header)) && !header.kind.UnsupportedEntry? && (header.kind.RegularEntry? ==> Regular(header)))
  }

  predicate DistinctNames(archive: seq<Header>) {
    forall i, j | 0 <= i < j < |archive| && NameOf(archive[j]) != [] :: NameOf(archive[i]) != NameOf(archive[j])
  }

  /** No file is a directory above another entry. */
  predicate FilesAreLeaves(archive: seq<Header>) {
    forall file, name | file in FilesOf(archive) && name in NamesOf(archive) && file in Ancestors(name) :: file == name
  }

  predicate AllSupported(policy: Policy, archive: seq<Header>) {
    forall header | header in archive :: Supported(policy, header)
  }

  ghost predicate FitsAsAWhole(policy: Policy, archive: seq<Header>) {
    && AllSupported(policy, archive) && DistinctNames(archive) && FilesAreLeaves(archive)
    && |Closure(NamesOf(archive))| <= 2 * policy.maxFiles
    && |FilesOf(archive)| <= policy.maxFiles && Total(FilesOf(archive)) <= policy.maxBytes
  }

  lemma RepeatedIsNotDistinct(before: seq<Header>, header: Header)
    requires NameOf(header) != [] && NameOf(header) in NamesOf(before)
    ensures !DistinctNames(before + [header])
  {
    hide NameOf;
    var all := before + [header];
    var other :| other in before && NameOf(other) == NameOf(header);
    var i :| 0 <= i < |before| && before[i] == other;
    assert NameOf(all[i]) == NameOf(all[|before|]);
  }

  lemma CoveredIsNoLeaf(before: seq<Header>, header: Header)
    requires Regular(header) && NameOf(header) !in NamesOf(before) && NameOf(header) in Closure(NamesOf(before))
    ensures !FilesAreLeaves(before + [header])
  {
    NamesExtend(before, header);
    FilesExtend(before, header);
    var name := NameOf(header);
    hide NameOf, NamesOf, FilesOf, Ancestors;
    var n :| n in NamesOf(before) && name in Ancestors(n);
    assert name in FilesOf(before + [header]) && n in NamesOf(before + [header]);
  }

  lemma DistinctExtends(before: seq<Header>, header: Header)
    ensures DistinctNames(before + [header])
            <==> DistinctNames(before) && (NameOf(header) != [] ==> NameOf(header) !in NamesOf(before))
  {
    hide NameOf;
    var all := before + [header];
    assert forall i | 0 <= i < |before| :: all[i] == before[i];
    if NameOf(header) != [] && NameOf(header) in NamesOf(before) {
      RepeatedIsNotDistinct(before, header);
    }
    if DistinctNames(before) && (NameOf(header) != [] ==> NameOf(header) !in NamesOf(before)) {
      forall i, j | 0 <= i < j < |all| && NameOf(all[j]) != []
        ensures NameOf(all[i]) != NameOf(all[j])
      {
        if j == |before| {
          assert all[i] in before;
        }
      }
    }
  }

  /** A supported new entry keeps files leaves when no file is above it and, if it is a file, nothing is below it. */
  lemma LeavesExtend(before: seq<Header>, header: Header)
    requires NameOf(header) != [] && NameOf(header) !in NamesOf(before)
    ensures FilesAreLeaves(before + [header])
            <==> && FilesAreLeaves(before)
                 && (forall above | above in Ancestors(NameOf(header)) :: above !in FilesOf(before))
                 && (Regular(header) ==> NameOf(header) !in Closure(NamesOf(before)))
  {
    NamesExtend(before, header);
    FilesExtend(before, header);
    FilesOfAreFiles(before);
    var name := NameOf(header);
    var all := before + [header];
    hide NameOf, NamesOf, FilesOf, Ancestors;
    assert name in NamesOf(all) && forall n | n in NamesOf(before) :: n in NamesOf(all);
    assert forall f | f in FilesOf(before) :: f in FilesOf(all);
    if Regular(header) && name in Closure(NamesOf(before)) {
      CoveredIsNoLeaf(before, header);
    }
  }

  // extractAppArchive succeeds if and only if the archive fits as a whole, whatever the order of its entries: supported
  // entries under distinct names, files only at the leaves, and path closure, file count and bytes within the policy.
  lemma {:induction false} ExtractableExactly(policy: Policy, archive: seq<Header>)
    ensures Extractable(policy, archive) <==> FitsAsAWhole(policy, archive)
  {
    if archive == [] {
      EmptyArchive(policy);
    } else {
      var before := archive[..|archive| - 1];
      var last := archive[|archive| - 1];
      assert archive == before + [last];
      ExtractableExactly(policy, before);
      ExtractableExtends(policy, before, last);
      hide Extractable;
      FitsExtends(policy, before, last);
    }
  }

  lemma SameLeaves(a: seq<Header>, b: seq<Header>)
    requires NamesOf(a) == NamesOf(b) && FilesOf(a) == FilesOf(b)
    ensures FilesAreLeaves(a) <==> FilesAreLeaves(b)
  {
    hide NamesOf, FilesOf, Ancestors;
  }

  lemma SameFits(policy: Policy, a: seq<Header>, b: seq<Header>)
    requires NamesOf(a) == NamesOf(b) && FilesOf(a) == FilesOf(b)
    requires AllSupported(policy, a) <==> AllSupported(policy, b)
    requires DistinctNames(a) <==> DistinctNames(b)
    ensures FitsAsAWhole(policy, a) <==> FitsAsAWhole(policy, b)
  {
    SameLeaves(a, b);
    hide Closure, NamesOf, FilesOf, Total, DistinctNames, FilesAreLeaves, Supported;
  }

  lemma SupportedExtends(policy: Policy, before: seq<Header>, last: Header)
    ensures AllSupported(policy, before + [last]) <==> AllSupported(policy, before) && Supported(policy, last)
  {
    hide Supported;
    assert forall header :: header in before + [last] <==> header in before || header == last;
  }

  lemma UnnamedFits(policy: Policy, before: seq<Header>, last: Header)
    requires NameOf(last) == []
    ensures FitsAsAWhole(policy, before + [last]) <==> FitsAsAWhole(policy, before) && Follows(policy, before, last)
  {
    NamesExtend(before, last);
    FilesExtend(before, last);
    DistinctExtends(before, last);
    SupportedExtends(policy, before, last);
    assert NamesOf(before) + {} == NamesOf(before);
    assert Supported(policy, last) && Follows(policy, before, last) && !Regular(last);
    hide *;
    SameFits(policy, before, before + [last]);
  }

  /** What an entry under a new name adds, file or not. */
  lemma CountsExtend(before: seq<Header>, last: Header)
    requires NameOf(last) != [] && NameOf(last) !in NamesOf(before)
    ensures var all := before + [last];
            && |FilesOf(all)| == |FilesOf(before)| + (if Regular(last) then 1 else 0)
            && Total(FilesOf(all)) == Total(FilesOf(before)) + (if Regular(last) then last.size else 0)
            && Closure(NamesOf(all)) == Closure(NamesOf(before)) + Ancestors(NameOf(last))
            && |Closure(NamesOf(before))| <= |Closure(NamesOf(all))|
  {
    NamesExtend(before, last);
    FilesExtend(before, last);
    FilesOfAreFiles(before);
    hide Closure, NamesOf, FilesOf, Ancestors, Total;
    SubsetSize(Closure(NamesOf(before)), Closure(NamesOf(before + [last])));
    if Regular(last) {
      TotalAdds(FilesOf(before), NameOf(last), File(last.content[..last.size], last.executable));
    }
  }

  lemma FitsExtends(policy: Policy, before: seq<Header>, last: Header)
    ensures FitsAsAWhole(policy, before + [last]) <==> FitsAsAWhole(policy, before) && Follows(policy, before, last)
  {
    if NameOf(last) == [] {
      UnnamedFits(policy, before, last);
    } else {
      DistinctExtends(before, last);
      if NameOf(last) !in NamesOf(before) {
        LeavesExtend(before, last);
        CountsExtend(before, last);
        SupportedExtends(policy, before, last);
        hide AllSupported, Closure, NamesOf, FilesOf, Total, NameOf, DistinctNames, FilesAreLeaves, ValidPath, Ancestors;
        assert FitsAsAWhole(policy, before + [last]) <==> FitsAsAWhole(policy, before) && Follows(policy, before, last);
      }
    }
  }

  // What an entry is: its name is the raw one without one slash at its end, and it is taken when it has none, or a valid one
  // and is a directory, or a regular file whose content is there in full.
  lemma HeadersExactly(policy: Policy, header: Header)
    ensures var raw, name := header.rawName, NameOf(header);
            (raw == name + [47]) || (raw == name && (raw == [] || raw[|raw| - 1] != 47))
    ensures Supported(policy, header) <==>
            NameOf(header) == []
            || (ValidPath(policy, NameOf(header))
                && (header.kind == DirectoryEntry
                    || (header.kind == RegularEntry && 0 <= header.size && header.size <= |header.content|)))
  {
    hide ValidPath;
  }

  lemma {:induction false} FilesHold(archive: seq<Header>, k: nat)
    requires DistinctNames(archive) && k < |archive| && Regular(archive[k])
    ensures NameOf(archive[k]) in FilesOf(archive)
    ensures FilesOf(archive)[NameOf(archive[k])] == File(archive[k].content[..archive[k].size], archive[k].executable)
  {
    var n := |archive| - 1;
    assert archive == archive[..n] + [archive[n]];
    FilesExtend(archive[..n], archive[n]);
    if k < n {
      assert forall i | 0 <= i < n :: archive[..n][i] == archive[i];
      FilesHold(archive[..n], k);
      hide NameOf, FilesOf;
      assert NameOf(archive[n]) == NameOf(archive[k]) ==> NameOf(archive[n]) == [];
    }
  }

  lemma {:induction false} OnlyArchiveFiles(archive: seq<Header>, path: Bytes)
    requires path in FilesOf(archive)
    ensures exists k :: 0 <= k < |archive| && Regular(archive[k]) && NameOf(archive[k]) == path
  {
    var n := |archive| - 1;
    if path in FilesOf(archive[..n]) {
      OnlyArchiveFiles(archive[..n], path);
      var k :| 0 <= k < n && Regular(archive[..n][k]) && NameOf(archive[..n][k]) == path;
      assert archive[..n][k] == archive[k];
    } else {
      assert Regular(archive[n]) && NameOf(archive[n]) == path;
    }
  }

  lemma TreeHolds(archive: seq<Header>, path: Bytes)
    requires path in NamesOf(archive)
    ensures path in TreeOf(archive)
    ensures TreeOf(archive)[path] == if path in FilesOf(archive) then FilesOf(archive)[path] else Directory
  {
    ClosureIsClosed(NamesOf(archive));
    hide Closure, NamesOf, FilesOf;
  }

  lemma NotAFile(archive: seq<Header>, k: nat)
    requires DistinctNames(archive) && k < |archive| && NameOf(archive[k]) != [] && !Regular(archive[k])
    ensures NameOf(archive[k]) !in FilesOf(archive)
  {
    if NameOf(archive[k]) in FilesOf(archive) {
      OnlyArchiveFiles(archive, NameOf(archive[k]));
    }
  }

  // The extracted tree holds every regular file of the archive with the declared bytes of its content and its executable
  // bit; every other path that the archive names is a directory.
  lemma ExtractedTreeHolds(policy: Policy, archive: seq<Header>, k: nat)
    requires Extractable(policy, archive) && k < |archive| && NameOf(archive[k]) != []
    ensures NameOf(archive[k]) in TreeOf(archive)
    ensures archive[k].kind == RegularEntry ==>
              && 0 <= archive[k].size <= |archive[k].content|
              && TreeOf(archive)[NameOf(archive[k])] == File(archive[k].content[..archive[k].size], archive[k].executable)
    ensures archive[k].kind != RegularEntry ==> TreeOf(archive)[NameOf(archive[k])] == Directory
  {
    ExtractableExactly(policy, archive);
    var header := archive[k];
    assert header in archive && Supported(policy, header);
    assert NameOf(header) in NamesOf(archive);
    hide Closure, FilesOf, NamesOf, Extractable, TreeOf, NameOf, ValidPath, Total, FilesAreLeaves;
    TreeHolds(archive, NameOf(header));
    if header.kind == RegularEntry {
      FilesHold(archive, k);
    } else {
      NotAFile(archive, k);
    }
  }

  // ---- digestAppSourceRoot ----

  /** The regular files that a walk in this order records. */
  function Recorded(tree: Tree, order: seq<Bytes>): seq<SourceFile>
    requires forall path | path in order :: path in tree
  {
    if order == [] then []
    else
      var last := order[|order| - 1];
      var before := Recorded(tree, order[..|order| - 1]);
      if tree[last].File? then before + [SourceFile(last, tree[last].executable, tree[last].content)] else before
  }

  // The records are the files among the walked paths, each with its own bit and content.
  lemma {:induction false} RecordedExactly(tree: Tree, order: seq<Bytes>, file: SourceFile)
    requires forall path | path in order :: path in tree
    ensures file in Recorded(tree, order) <==> file.path in order && tree[file.path] == File(file.content, file.executable)
  {
    if order != [] {
      var n := |order| - 1;
      RecordedExactly(tree, order[..n], file);
      assert forall path :: path in order <==> path in order[..n] || path == order[n];
    }
  }

  /** What the walk writes for one path. */
  function RecordOf(tree: Tree, path: Bytes): Bytes
    requires path in tree
  {
    if tree[path].File? then EncodeRecord(SourceFile(path, tree[path].executable, tree[path].content)) else []
  }

  /** A walk meets every path once. */
  predicate Enumerates(order: seq<Bytes>, paths: set<Bytes>) {
    && (forall path | path in order :: path in paths) && (forall path | path in paths :: path in order)
    && (forall i, j | 0 <= i < j < |order| :: order[i] != order[j])
  }

  /** The files among the paths that a walk has met. */
  function Met(tree: Tree, order: seq<Bytes>): Tree
    requires forall path | path in order :: path in tree
  {
    map path | path in order && tree[path].File? :: tree[path]
  }

  lemma MetExtends(tree: Tree, before: seq<Bytes>, path: Bytes)
    requires (forall p | p in before :: p in tree) && path in tree && path !in before
    ensures Met(tree, before + [path]) == if tree[path].File? then Met(tree, before)[path := tree[path]] else Met(tree, before)
    ensures |Met(tree, before + [path])| == |Met(tree, before)| + (if tree[path].File? then 1 else 0)
    ensures Total(Met(tree, before + [path])) == Total(Met(tree, before)) + Size(tree[path])
  {
    assert forall p :: p in before + [path] <==> p in before || p == path;
    if tree[path].File? {
      assert Met(tree, before + [path]) == Met(tree, before)[path := tree[path]];
      TotalAdds(Met(tree, before), path, tree[path]);
    } else {
      assert Met(tree, before + [path]) == Met(tree, before);
    }
  }

  lemma TotalMonotone(small: Tree, large: Tree)
    requires small.Keys <= large.Keys && forall p | p in small :: small[p] == large[p]
    ensures |small| <= |large| && Total(small) <= Total(large)
    decreases |large|
  {
    SubsetSize(small.Keys, large.Keys);
    assert |small| == |small.Keys| && |large| == |large.Keys|;
    if small != map[] {
      var path :| path in small;
      TotalRemoves(small, path);
      TotalRemoves(large, path);
      TotalMonotone(small - {path}, large - {path});
    }
  }

  /** The budget has been charged for what the walk has met. */
  ghost predicate Charged(tree: Tree, budget: AppSourceBudget, met: seq<Bytes>)
    requires forall path | path in met :: path in tree
    reads budget
  {
    && budget.entries == Closure(Elements(met)) && (forall path | path in met :: ValidPath(budget.policy, path))
    && budget.files == |Met(tree, met)| && budget.bytes == Total(Met(tree, met))
  }

  /** What the walk needs of the budget for its next path. */
  ghost predicate NextFits(policy: Policy, tree: Tree, met: seq<Bytes>, path: Bytes)
    requires (forall p | p in met :: p in tree) && path in tree
  {
    && ValidPath(policy, path) && |Closure(Elements(met)) + Ancestors(path)| <= 2 * policy.maxFiles
    && (tree[path].File? ==>
          |Met(tree, met)| + 1 <= policy.maxFiles && Total(Met(tree, met)) + |tree[path].content| <= policy.maxBytes)
  }

  /** An admissible tree fits at every step of any walk. */
  lemma AdmissibleFits(policy: Policy, tree: Tree, order: seq<Bytes>, k: nat)
    requires Enumerates(order, tree.Keys) && k < |order| && Admissible(policy, tree)
    ensures NextFits(policy, tree, order[..k], order[k])
  {
    var met := order[..k];
    var path := order[k];
    assert path in order && path !in met;
    MetExtends(tree, met, path);
    ClosureExtends(met, path);
    assert Elements(met + [path]) <= tree.Keys;
    SubsetSize(Closure(Elements(met + [path])), Closure(tree.Keys));
    TotalMonotone(Met(tree, met + [path]), Files(tree));
  }

  /** When every step fitted, the tree is admissible. */
  lemma WalkedIsAdmissible(policy: Policy, tree: Tree, order: seq<Bytes>)
    requires Enumerates(order, tree.Keys) && (forall path | path in order :: ValidPath(policy, path))
    requires |Closure(Elements(order))| <= 2 * policy.maxFiles
    requires |Met(tree, order)| <= policy.maxFiles && Total(Met(tree, order)) <= policy.maxBytes
    ensures Admissible(policy, tree)
  {
    assert Elements(order) == tree.Keys;
    assert Met(tree, order) == Files(tree);
  }

  /** The walk's step on one path, which nothing changes meanwhile. */
  method DigestPath(tree: Tree, budget: AppSourceBudget, hash: DigestHash, path: Bytes, ghost met: seq<Bytes>)
    returns (ok: bool)
    requires path in tree && (forall p | p in met :: p in tree) && path !in met
    requires budget.Valid() && Charged(tree, budget, met)
    modifies budget, hash
    ensures budget.Valid()
    ensures ok <==> NextFits(budget.policy, tree, met, path)
    ensures ok ==> Charged(tree, budget, met + [path])
    ensures ok ==> hash.written == old(hash.written)
                     + RecordOf(tree, path)
  {
    ClosureExtends(met, path);
    MetExtends(tree, met, path);
    hide Ancestors, Closure, Elements, Met, Total, EncodeRecord;
    var node := tree[path];
    ok := budget.AdmitPath(path);
    if ok && node.File? {
      ok := budget.AdmitFile(|node.content|);
      if ok {
        var info := FileInfo(true, |node.content|, node.executable);
        ok := hash.WriteRecord(path, info, info, node.content, info);
      }
    }
  }

  lemma RecordedExtends(tree: Tree, order: seq<Bytes>, path: Bytes)
    requires (forall p | p in order :: p in tree) && path in tree
    ensures forall p | p in order + [path] :: p in tree
    ensures Encode(Recorded(tree, order + [path]))
            == Encode(Recorded(tree, order))
               + RecordOf(tree, path)
  {
    assert (order + [path])[..|order|] == order;
    if tree[path].File? {
      EncodeAppends(Recorded(tree, order), SourceFile(path, tree[path].executable, tree[path].content));
    }
  }

  // The digest walk of a quiet tree succeeds exactly when the tree is admissible, whatever the order of the walk, and
  // then what reached the hash is the domain and the encoding of the tree's files in that order.
  method DigestAppSourceRoot(root: SourceRoot, order: seq<Bytes>, budget: AppSourceBudget, hash: DigestHash)
    returns (ok: bool)
    requires Enumerates(order, root.nodes.Keys)
    requires budget.Valid() && budget.entries == {} && budget.files == 0 && budget.bytes == 0 && hash.written == []
    modifies budget, hash
    ensures ok <==> Admissible(budget.policy, root.nodes)
    ensures ok ==> hash.written == Domain() + Encode(Recorded(root.nodes, order))
  {
    hide Domain;
    var tree := root.nodes;
    hash.Write(Domain());
    assert Charged(tree, budget, []) by { assert Elements([]) == {} && Closure({}) == {} && Met(tree, []) == map[]; }
    for k := 0 to |order|
      invariant budget.Valid() && Charged(tree, budget, order[..k])
      invariant hash.written == Domain() + Encode(Recorded(tree, order[..k]))
    {
      ghost var met := order[..k];
      var path := order[k];
      assert path in order && path !in met;
      TakeOneMore(order, k);
      RecordedExtends(tree, met, path);
      Associative(Domain(), Encode(Recorded(tree, met)), RecordOf(tree, path));
      if Admissible(budget.policy, tree) { AdmissibleFits(budget.policy, tree, order, k); }
      hide *;
      ok := DigestPath(tree, budget, hash, path, met);
      if !ok {
        return;
      }
    }
    assert order[..|order|] == order;
    WalkedIsAdmissible(budget.policy, tree, order);
    return true;
  }

  // Materializing an archive: its digest is computed exactly when it is extracted, since the tree that the budget of
  // the extraction admitted is admitted again by the digest's own.
  method MaterializeArchive(policy: Policy, archive: seq<Header>, walk: set<Bytes> -> seq<Bytes>)
    returns (ok: bool, hashed: Bytes)
    requires forall paths :: Enumerates(walk(paths), paths)
    ensures ok <==> 1 <= policy.maxFiles <= 1_073_741_823 && 1 <= policy.maxBytes <= 1_099_511_627_776
                    && Extractable(policy, archive)
    ensures ok ==> Enumerates(walk(TreeOf(archive).Keys), TreeOf(archive).Keys)
                   && hashed == Domain() + Encode(Recorded(TreeOf(archive), walk(TreeOf(archive).Keys)))
  {
    if !ValidLimits(policy) {
      return false, [];
    }
    var root := new SourceRoot();
    var budget := new AppSourceBudget(policy);
    ok := ExtractAppArchive(archive, root, budget);
    if !ok {
      return false, [];
    }
    ExtractedIsAdmissible(policy, archive);
    assert root.nodes == TreeOf(archive);
    hide Extractable, Admissible, TreeOf, Recorded, Encode;
    var digestBudget := new AppSourceBudget(policy);
    var hash := new DigestHash();
    ok := DigestAppSourceRoot(root, walk(root.nodes.Keys), digestBudget, hash);
    hashed := hash.written;
  }
}
