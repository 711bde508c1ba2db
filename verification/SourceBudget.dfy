/** The resource budget of an app revision, spent by extraction and again by the digest walk
    (services/candaceos/source_digest.go, source_materialization.go). */
module SourceBudget {
  import opened Sequences
  import opened Wrappers
  import opened SourceDigest

  const SLASH: byte := 47
  const DOT: byte := 46
  const BACKSLASH: byte := 92

  /** Per-revision limits; short says that a path component has fewer than 256 characters. */
  datatype Policy = Policy(maxFiles: nat, maxBytes: nat, short: Bytes -> bool)

  /** The generated validation of AppSourceLimits. */
  predicate ValidLimits(policy: Policy) {
    1 <= policy.maxFiles <= 1_073_741_823 && 1 <= policy.maxBytes <= 1_099_511_627_776
  }

  // ---- Slash-separated paths ----

  /** strings.Split at every slash. */
  function Split(path: Bytes): (parts: seq<Bytes>)
    ensures |parts| >= 1
    ensures forall part | part in parts :: SLASH !in part
  {
    if path == [] then [[]]
    else
      var rest := Split(path[1..]);
      if path[0] == SLASH then [[]] + rest else [[path[0]] + rest[0]] + rest[1..]
  }

  function Join(parts: seq<Bytes>): Bytes
    requires |parts| >= 1
  {
    if |parts| == 1 then parts[0] else parts[0] + ([SLASH] + Join(parts[1..]))
  }

  /** Lengthening the first component lengthens the path. */
  lemma JoinLonger(first: byte, rest: seq<Bytes>)
    requires |rest| >= 1
    ensures Join([[first] + rest[0]] + rest[1..]) == [first] + Join(rest)
  {
    var all := [[first] + rest[0]] + rest[1..];
    if |rest| == 1 {
      assert all == [[first] + rest[0]];
    } else {
      assert all[1..] == rest[1..];
      assert Join(all) == ([first] + rest[0]) + ([SLASH] + Join(rest[1..]));
      assert Join(rest) == rest[0] + ([SLASH] + Join(rest[1..]));
      hide Join;
      Associative([first], rest[0], [SLASH] + Join(rest[1..]));
    }
  }

  lemma {:induction false} JoinSplit(path: Bytes)
    ensures Join(Split(path)) == path
  {
    if path != [] {
      JoinSplit(path[1..]);
      var rest := Split(path[1..]);
      assert path == [path[0]] + path[1..];
      if path[0] == SLASH {
        assert ([[]] + rest)[1..] == rest;
      } else {
        JoinLonger(path[0], rest);
        hide Join;
      }
    }
  }

  /** Appending a component appends it to the path after a slash. */
  lemma {:induction false} JoinAppend(parts: seq<Bytes>, last: Bytes)
    requires |parts| >= 1
    ensures Join(parts + [last]) == Join(parts) + ([SLASH] + last)
  {
    var all := parts + [last];
    if |parts| == 1 {
      assert all[1..] == [last];
    } else {
      JoinAppend(parts[1..], last);
      assert all[1..] == parts[1..] + [last];
      assert Join(all) == parts[0] + ([SLASH] + (Join(parts[1..]) + ([SLASH] + last)));
      assert Join(parts) == parts[0] + ([SLASH] + Join(parts[1..]));
      hide Join;
      Associative([SLASH], Join(parts[1..]), [SLASH] + last);
      Associative(parts[0], [SLASH] + Join(parts[1..]), [SLASH] + last);
    }
  }

  lemma {:induction false} SplitFront(first: Bytes, rest: Bytes)
    requires SLASH !in first
    ensures Split(first) == [first]
    ensures Split(first + ([SLASH] + rest)) == [first] + Split(rest)
  {
    var path := first + ([SLASH] + rest);
    if first == [] {
      assert path[1..] == rest;
    } else {
      SplitFront(first[1..], rest);
      assert path[1..] == first[1..] + ([SLASH] + rest);
      assert first == [first[0]] + first[1..];
    }
  }

  lemma {:induction false} SplitJoin(parts: seq<Bytes>)
    requires |parts| >= 1 && forall part | part in parts :: SLASH !in part
    ensures Split(Join(parts)) == parts
  {
    if |parts| == 1 {
      SplitFront(parts[0], []);
    } else {
      SplitJoin(parts[1..]);
      SplitFront(parts[0], Join(parts[1..]));
      hide Split;
      assert parts == [parts[0]] + parts[1..];
    }
  }

  lemma {:induction false} JoinPrefixShorter(parts: seq<Bytes>, k: nat)
    requires 1 <= k <= |parts|
    ensures |Join(parts[..k])| <= |Join(parts)|
    decreases |parts|
  {
    if 1 < k {
      assert parts[..k][1..] == parts[1..][..k - 1];
      JoinPrefixShorter(parts[1..], k - 1);
    }
  }

  /** The paths that the first components of a path spell, one by one. */
  function Above(parts: seq<Bytes>, count: nat): set<Bytes>
    requires count <= |parts|
  {
    set k | 1 <= k <= count :: Join(parts[..k])
  }

  /** The path and every directory above it. */
  function Ancestors(path: Bytes): set<Bytes> {
    Above(Split(path), |Split(path)|)
  }

  function Closure(paths: set<Bytes>): set<Bytes> {
    set path, above | path in paths && above in Ancestors(path) :: above
  }

  /** The generated validation of AppSourceEntry. */
  predicate ValidPath(policy: Policy, path: Bytes) {
    && 1 <= |path| <= 1024 && BACKSLASH !in path && |Split(path)| <= 64
    && forall part | part in Split(path) :: part != [] && part != [DOT] && part != [DOT, DOT] && policy.short(part)
  }

  predicate SoundComponent(policy: Policy, part: Bytes) {
    47 !in part && part != [] && part != [46] && part != [46, 46] && policy.short(part)
  }

  /** One to 64 sound components that a path joins by slashes. */
  ghost predicate Spells(policy: Policy, parts: seq<Bytes>, path: Bytes) {
    1 <= |parts| <= 64 && Join(parts) == path && forall part | part in parts :: SoundComponent(policy, part)
  }

  lemma SpelledIsSplit(policy: Policy, parts: seq<Bytes>, path: Bytes)
    requires Spells(policy, parts, path)
    ensures parts == Split(path) && path != []
  {
    SplitJoin(parts);
    assert parts[0] in parts;
    assert Split([]) == [[]];
  }

  // A valid path is one to 64 components joined by slashes, each with fewer than 256 characters and none of them empty,
  // "." or "..", within 1024 bytes and without a backslash.
  lemma ValidPathExactly(policy: Policy, path: Bytes)
    ensures ValidPath(policy, path) <==>
            |path| <= 1024 && 92 !in path && exists parts: seq<Bytes> :: Spells(policy, parts, path)
  {
    JoinSplit(path);
    if ValidPath(policy, path) {
      assert Spells(policy, Split(path), path);
    }
    forall parts: seq<Bytes> | Spells(policy, parts, path)
      ensures parts == Split(path) && path != [] && forall part | part in Split(path) :: SoundComponent(policy, part)
    {
      SpelledIsSplit(policy, parts, path);
    }
    hide Split, Join;
  }

  lemma AbovePrefix(parts: seq<Bytes>, m: nat, k: nat)
    requires k <= m <= |parts|
    ensures Above(parts[..m], k) == Above(parts, k)
  {
    assert forall j | 1 <= j <= k :: parts[..m][..j] == parts[..j];
  }

  lemma AncestorsOfAncestor(path: Bytes, k: nat)
    requires 1 <= k <= |Split(path)|
    ensures Split(Join(Split(path)[..k])) == Split(path)[..k]
    ensures Ancestors(Join(Split(path)[..k])) <= Ancestors(path)
  {
    var parts := Split(path);
    SplitJoin(parts[..k]);
    forall above | above in Ancestors(Join(parts[..k]))
      ensures above in Ancestors(path)
    {
      var j :| 1 <= j <= k && above == Join(parts[..k][..j]);
      assert parts[..k][..j] == parts[..j];
    }
  }

  lemma PathIsItsAncestor(path: Bytes)
    ensures path in Ancestors(path)
  {
    JoinSplit(path);
    assert Split(path)[..|Split(path)|] == Split(path);
  }

  lemma {:induction false} JoinBytes(parts: seq<Bytes>, b: byte)
    requires |parts| >= 1 && b != SLASH
    ensures b in Join(parts) <==> exists i :: 0 <= i < |parts| && b in parts[i]
  {
    if |parts| > 1 {
      JoinBytes(parts[1..], b);
      assert b in Join(parts) <==> b in parts[0] || b in Join(parts[1..]);
      hide Join;
      assert forall i | 1 <= i < |parts| :: parts[i] == parts[1..][i - 1];
    }
  }

  /** The directories above a valid path are valid paths. */
  lemma AncestorsAreValid(policy: Policy, path: Bytes, above: Bytes)
    requires ValidPath(policy, path) && above in Ancestors(path)
    ensures ValidPath(policy, above)
  {
    var parts := Split(path);
    var k :| 1 <= k <= |parts| && above == Join(parts[..k]);
    AncestorsOfAncestor(path, k);
    JoinSplit(path);
    JoinPrefixShorter(parts, k);
    JoinBytes(parts, BACKSLASH);
    JoinBytes(parts[..k], BACKSLASH);
    assert parts[..k][0] == parts[0] && parts[0] in parts;
    JoinPrefixShorter(parts[..k], 1);
    assert parts[..k][..1] == [parts[0]];
    hide Join, Ancestors, Split;
    assert parts[..k] <= parts;
    assert forall part | part in parts[..k] :: part in parts;
  }

  lemma ClosureIsValid(policy: Policy, paths: set<Bytes>)
    requires forall path | path in paths :: ValidPath(policy, path)
    ensures forall above | above in Closure(paths) :: ValidPath(policy, above)
  {
    hide ValidPath, Ancestors;
    forall above | above in Closure(paths)
      ensures ValidPath(policy, above)
    {
      var path :| path in paths && above in Ancestors(path);
      AncestorsAreValid(policy, path, above);
    }
  }

  lemma AncestorsNest(path: Bytes, middle: Bytes)
    requires middle in Ancestors(path)
    ensures Ancestors(middle) <= Ancestors(path)
  {
    var k :| 1 <= k <= |Split(path)| && middle == Join(Split(path)[..k]);
    hide Join, Split;
    AncestorsOfAncestor(path, k);
  }

  lemma ClosureIsClosed(paths: set<Bytes>)
    ensures paths <= Closure(paths) && Closure(Closure(paths)) == Closure(paths)
  {
    hide Ancestors;
    forall path
      ensures path in Ancestors(path)
    {
      PathIsItsAncestor(path);
    }
    forall path, middle | middle in Ancestors(path)
      ensures Ancestors(middle) <= Ancestors(path)
    {
      AncestorsNest(path, middle);
    }
    assert forall path | path in paths :: path in Ancestors(path) && path in Closure(paths);
  }

  // ---- Admission ----

  /** The entries after one path is admitted, or nothing if it is refused. */
  function Admitted(policy: Policy, entries: set<Bytes>, path: Bytes): Option<set<Bytes>> {
    if ValidPath(policy, path) && |entries + Ancestors(path)| <= 2 * policy.maxFiles then Some(entries + Ancestors(path))
    else None
  }

  function AdmittedAll(policy: Policy, entries: set<Bytes>, paths: seq<Bytes>): Option<set<Bytes>> {
    if paths == [] then Some(entries)
    else
      var before := AdmittedAll(policy, entries, paths[..|paths| - 1]);
      if before.None? then None else Admitted(policy, before.value, paths[|paths| - 1])
  }

  lemma SubsetSize<T>(a: set<T>, b: set<T>)
    requires a <= b
    ensures |a| <= |b|
  {
    assert b == a + (b - a);
  }

  function Elements(paths: seq<Bytes>): set<Bytes> {
    set path | path in paths
  }

  lemma ClosureExtends(paths: seq<Bytes>, last: Bytes)
    ensures Closure(Elements(paths + [last])) == Closure(Elements(paths)) + Ancestors(last)
  {
    assert Elements(paths + [last]) == Elements(paths) + {last};
  }

  // A list of paths is admitted, one after the other, if and only if every path is valid and their ancestor closure
  // fits; neither side of which depends on the order.
  lemma {:induction false} AdmitsExactlyFittingClosures(policy: Policy, paths: seq<Bytes>)
    ensures AdmittedAll(policy, {}, paths)
            == if (forall path | path in paths :: ValidPath(policy, path))
                  && |Closure(Elements(paths))| <= 2 * policy.maxFiles
               then Some(Closure(Elements(paths))) else None
  {
    if paths == [] {
      assert Closure(Elements([])) == {};
    } else {
      var before := paths[..|paths| - 1];
      var last := paths[|paths| - 1];
      AdmitsExactlyFittingClosures(policy, before);
      assert paths == before + [last];
      ClosureExtends(before, last);
      SubsetSize(Closure(Elements(before)), Closure(Elements(paths)));
      assert forall path :: path in paths <==> path in before || path == last;
    }
  }

  lemma NextAncestor(parts: seq<Bytes>, k: nat)
    requires k < |parts|
    ensures Above(parts, k + 1) == Above(parts, k) + {Join(parts[..k + 1])}
    ensures Above(parts, k + 1) <= Above(parts, |parts|)
    ensures Join(parts[..k + 1]) == if k == 0 then parts[0] else Join(parts[..k]) + ([SLASH] + parts[k])
  {
    if k > 0 {
      assert parts[..k + 1] == parts[..k] + [parts[k]];
      JoinAppend(parts[..k], parts[k]);
    }
  }

  /** The path one component further down. */
  function Descend(current: Bytes, component: Bytes): Bytes {
    if current == [] then component else current + ([SLASH] + component)
  }

  lemma DescendsTo(parts: seq<Bytes>, k: nat, current: Bytes)
    requires k < |parts| && parts[k] != []
    requires if k == 0 then current == [] else current == Join(parts[..k]) && current != []
    ensures Descend(current, parts[k]) == Join(parts[..k + 1]) && Descend(current, parts[k]) != []
  {
    NextAncestor(parts, k);
  }

  /** The entries after the first ancestors of a path are added. */
  ghost function Grown(entries: set<Bytes>, parts: seq<Bytes>, count: nat): set<Bytes>
    requires count <= |parts|
  {
    if count == 0 then entries else Grown(entries, parts, count - 1) + {Join(parts[..count])}
  }

  lemma {:induction false} GrownMonotone(entries: set<Bytes>, parts: seq<Bytes>, j: nat, k: nat)
    requires j <= k <= |parts|
    ensures Grown(entries, parts, j) <= Grown(entries, parts, k)
    ensures |Grown(entries, parts, j)| <= |Grown(entries, parts, k)|
    ensures Grown(entries, parts, 0) == entries
  {
    if j < k {
      GrownMonotone(entries, parts, j, k - 1);
      SubsetSize(Grown(entries, parts, k - 1), Grown(entries, parts, k));
    }
  }

  lemma {:induction false} GrownIsUnion(entries: set<Bytes>, parts: seq<Bytes>, count: nat)
    requires count <= |parts|
    ensures Grown(entries, parts, count) == entries + Above(parts, count)
  {
    if count > 0 {
      GrownIsUnion(entries, parts, count - 1);
      NextAncestor(parts, count - 1);
      hide Above, Join;
      assert entries + (Above(parts, count - 1) + {Join(parts[..count])})
          == (entries + Above(parts, count - 1)) + {Join(parts[..count])};
    } else {
      assert Above(parts, 0) == {};
    }
  }

  class AppSourceBudget {
    const policy: Policy
    var entries: set<Bytes>
    var files: nat
    var bytes: nat

    ghost predicate Valid()
      reads this
    {
      ValidLimits(policy) && |entries| <= 2 * policy.maxFiles && files <= policy.maxFiles && bytes <= policy.maxBytes
    }

    constructor (policy: Policy)
      requires ValidLimits(policy)
      ensures this.policy == policy && entries == {} && files == 0 && bytes == 0 && Valid()
    {
      this.policy := policy;
      entries, files, bytes := {}, 0, 0;
    }

    /** Admits one entry, which costs nothing when it is there already. */
    method AdmitEntry(current: Bytes) returns (ok: bool)
      requires Valid()
      modifies this`entries
      ensures Valid()
      ensures ok <==> |old(entries) + {current}| <= 2 * policy.maxFiles
      ensures entries == if ok then old(entries) + {current} else old(entries)
    {
      if current in entries {
        assert entries + {current} == entries;
        return true;
      }
      if |entries| >= 2 * policy.maxFiles {
        return false;
      }
      entries := entries + {current};
      return true;
    }

    /** The loop over the components of a valid path; when it stops early it leaves the ancestors it admitted. */
    method AdmitComponents(components: seq<Bytes>) returns (ok: bool)
      requires Valid() && |components| >= 1 && forall k | 0 <= k < |components| :: components[k] != []
      modifies this`entries
      ensures Valid()
      ensures ok <==> |Grown(old(entries), components, |components|)| <= 2 * policy.maxFiles
      ensures ok ==> entries == Grown(old(entries), components, |components|)
      ensures old(entries) <= entries <= Grown(old(entries), components, |components|)
    {
      var current: Bytes := [];
      ghost var before := entries;
      hide Descend;
      for k := 0 to |components|
        invariant Valid()
        invariant entries == Grown(before, components, k)
        invariant if k == 0 then current == [] else current == Join(components[..k]) && current != []
      {
        DescendsTo(components, k, current);
        current := Descend(current, components[k]);
        assert Grown(before, components, k + 1) == entries + {current};
        hide Grown, Join;
        GrownMonotone(before, components, 0, k);
        GrownMonotone(before, components, k, |components|);
        GrownMonotone(before, components, k + 1, |components|);
        ok := AdmitEntry(current);
        if !ok {
          return;
        }
      }
      GrownMonotone(before, components, 0, |components|);
      return true;
    }

    /** Admits a path with its missing ancestors; a refused path may leave some of them behind. */
    method AdmitPath(relative: Bytes) returns (ok: bool)
      requires Valid()
      modifies this`entries
      ensures Valid()
      ensures ok <==> Admitted(policy, old(entries), relative).Some?
      ensures ok ==> entries == Admitted(policy, old(entries), relative).value
      ensures old(entries) <= entries <= old(entries) + Ancestors(relative)
    {
      var components := Split(relative);
      if !(1 <= |relative| <= 1024 && BACKSLASH !in relative && |components| <= 64
           && forall part | part in components :: part != [] && part != [DOT] && part != [DOT, DOT] && policy.short(part)) {
        return false;
      }
      GrownIsUnion(entries, components, |components|);
      assert forall k | 0 <= k < |components| :: components[k] in components;
      ok := AdmitComponents(components);
    }

    method AdmitFile(size: int) returns (ok: bool)
      requires Valid()
      modifies this`files, this`bytes
      ensures Valid()
      ensures ok <==> 0 <= size && old(files) + 1 <= policy.maxFiles && old(bytes) + size <= policy.maxBytes
      ensures files == old(files) + (if ok then 1 else 0) && bytes == old(bytes) + (if ok then size else 0)
    {
      if size < 0 || files >= policy.maxFiles || size > policy.maxBytes - bytes {
        return false;
      }
      files := files + 1;
      bytes := bytes + size;
      return true;
    }
  }
}
