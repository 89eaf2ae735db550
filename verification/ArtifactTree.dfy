/**
 Writing the scanned members below the destination directory, and the check of the written tree.

 The file system below the destination is a map from path to node; the destination itself is [].
 An inode number stands for a (device, inode) pair, a signature for the stat fields of a file.
 */
module ArtifactTree {
  import opened Prelude
  import opened ArtifactPaths
  import opened ArtifactScan
  import ArtifactTrie

  datatype Signature = Signature(inode: nat, size: nat)

  /** `secure`: owned by the caller with mode 0700.  `OtherNode`: a link, device or the like. */
  datatype Node = DirNode(inode: nat, secure: bool) | FileNode(signature: Signature) | OtherNode

  type Tree = map<Path, Node>

  function Init(p: Path): Path
    requires p != []
  {
    p[..|p| - 1]
  }

  function Last(p: Path): string
    requires p != []
  {
    p[|p| - 1]
  }

  /** A file system: whatever is there lies in a directory that is there. */
  ghost predicate FileSystem(tree: Tree) {
    forall p | p in tree :: p != [] && (Init(p) == [] || (Init(p) in tree && tree[Init(p)].DirNode?))
  }

  /** The tree that the two records describe. */
  function Image(directories: map<Path, nat>, files: map<Path, Signature>): Tree {
    map p | p in directories.Keys + files.Keys ::
      if p in files then FileNode(files[p]) else DirNode(directories[p], true)
  }

  ghost predicate IsDirPath(entries: seq<Entry>, p: Path) {
    p != [] && exists e | e in entries :: (p == e.parts && e.kind.DirKind?) || ProperPrefix(p, e.parts)
  }

  ghost predicate IsFilePath(entries: seq<Entry>, p: Path) {
    exists e | e in entries :: e.kind.FileKind? && e.parts == p
  }

  /** Exactly the members and the directories above them. */
  ghost predicate Covered(directories: map<Path, nat>, files: map<Path, Signature>, entries: seq<Entry>) {
    && (forall p :: p in directories <==> IsDirPath(entries, p))
    && (forall p :: p in files <==> IsFilePath(entries, p))
    && (forall e | e in entries && e.kind.FileKind? :: e.parts in files && files[e.parts].size == e.size)
  }

  ghost predicate NoRoot(entries: seq<Entry>) {
    forall e | e in entries :: e.parts != []
  }

  lemma ClearParts(entries: seq<Entry>, i: nat)
    requires PairwiseClear(entries) && i < |entries|
    ensures !Conflicts(entries[..i], entries[i])
  {
    forall x | x in entries[..i] ensures !Clash(x, entries[i]) {
      var j :| 0 <= j < i && entries[j] == x;
    }
  }

  /** Nothing that was there has changed. */
  ghost predicate Kept(before: Tree, after: Tree) {
    forall p | p in before :: p in after && after[p] == before[p]
  }

  /** The tree is the one the two records describe. */
  ghost predicate Recorded(tree: Tree, directories: map<Path, nat>, files: map<Path, Signature>) {
    && directories.Keys !! files.Keys
    && tree.Keys == directories.Keys + files.Keys
    && (forall p | p in directories :: tree[p] == DirNode(directories[p], true))
    && (forall p | p in files :: tree[p] == FileNode(files[p]))
  }

  lemma RecordedIsImage(tree: Tree, directories: map<Path, nat>, files: map<Path, Signature>)
    ensures Recorded(tree, directories, files) <==>
              directories.Keys !! files.Keys && tree == Image(directories, files)
  {
  }

  /** The two records describe what has come to the tree, none of it on a path that was taken. */
  ghost predicate Over(base: Tree, tree: Tree, directories: map<Path, nat>, files: map<Path, Signature>) {
    && directories.Keys !! files.Keys && base.Keys !! directories.Keys + files.Keys
    && tree.Keys == base.Keys + directories.Keys + files.Keys
    && (forall p | p in base :: tree[p] == base[p])
    && (forall p | p in directories :: tree[p] == DirNode(directories[p], true))
    && (forall p | p in files :: tree[p] == FileNode(files[p]))
  }

  lemma OverIsSum(base: Tree, tree: Tree, directories: map<Path, nat>, files: map<Path, Signature>)
    requires Over(base, tree, directories, files)
    ensures tree == base + Image(directories, files)
    ensures base == map[] ==> tree == Image(directories, files)
  {
  }

  /** The directories of the members `seen`, and the first `depth` of the path being opened. */
  ghost predicate Directories(directories: map<Path, nat>, seen: seq<Entry>, opening: Path, depth: nat) {
    forall p :: p in directories <==> IsDirPath(seen, p) || (p != [] && p <= opening && |p| <= depth)
  }

  ghost predicate Files(files: map<Path, Signature>, seen: seq<Entry>) {
    && (forall p :: p in files <==> IsFilePath(seen, p))
    && (forall e | e in seen && e.kind.FileKind? :: e.parts in files && files[e.parts].size == e.size)
  }

  /** What holds while the members `seen` have been written and a path is being opened. */
  ghost predicate Clean(base: Tree, tree: Tree, directories: map<Path, nat>, files: map<Path, Signature>,
                        seen: seq<Entry>, opening: Path, depth: nat)
  {
    && Over(base, tree, directories, files)
    && Directories(directories, seen, opening, depth)
    && Files(files, seen)
  }

  ghost predicate Admissible(seen: seq<Entry>, e: Entry) {
    !Conflicts(seen, e) && e.parts != []
  }

  /** The member needs a directory at this depth of its path. */
  predicate NeedsDirectory(e: Entry, k: nat) {
    k < |e.parts| && (k + 1 < |e.parts| || e.kind.DirKind?)
  }

  /** One more directory on the way down: it is known, or its name is free unless it was taken before. */
  lemma DirectoryAt(base: Tree, tree: Tree, directories: map<Path, nat>, files: map<Path, Signature>,
                    seen: seq<Entry>, e: Entry, k: nat)
    requires Admissible(seen, e) && Clean(base, tree, directories, files, seen, e.parts, k) && NeedsDirectory(e, k)
    ensures var p := e.parts[..k + 1];
            && (p in directories ==> p !in base && p in tree && tree[p] == DirNode(directories[p], true))
            && (p !in directories ==> (p in tree <==> p in base))
  {
    NoFileThere(seen, e, k);
  }

  lemma NoFileThere(seen: seq<Entry>, e: Entry, k: nat)
    requires Admissible(seen, e) && NeedsDirectory(e, k)
    ensures !IsFilePath(seen, e.parts[..k + 1])
  {
    forall x | x in seen ensures !(x.kind.FileKind? && x.parts == e.parts[..k + 1]) {
      assert !Clash(x, e);
    }
  }

  lemma DirectoryOpened(base: Tree, tree: Tree, directories: map<Path, nat>, files: map<Path, Signature>,
                        seen: seq<Entry>, e: Entry, k: nat, inode: nat)
    requires Admissible(seen, e) && Clean(base, tree, directories, files, seen, e.parts, k) && NeedsDirectory(e, k)
    requires e.parts[..k + 1] !in base
    requires e.parts[..k + 1] in directories ==> inode == directories[e.parts[..k + 1]]
    ensures var p := e.parts[..k + 1];
            Clean(base, tree[p := DirNode(inode, true)], directories[p := inode], files, seen, e.parts, k + 1)
  {
    var p := e.parts[..k + 1];
    NoFileThere(seen, e, k);
    DirectoryRecorded(base, tree, directories, files, p, inode);
    OneDeeper(e.parts, k);
  }

  lemma DirectoryRecorded(base: Tree, tree: Tree, directories: map<Path, nat>, files: map<Path, Signature>, p: Path,
                          inode: nat)
    requires Over(base, tree, directories, files) && p !in files && p !in base
    ensures Over(base, tree[p := DirNode(inode, true)], directories[p := inode], files)
  {
  }

  lemma OneDeeper(parts: Path, k: nat)
    requires k < |parts|
    ensures forall q: Path :: (q != [] && q <= parts && |q| <= k + 1) <==>
            (q != [] && q <= parts && |q| <= k) || q == parts[..k + 1]
  {
    forall q: Path
      ensures (q != [] && q <= parts && |q| <= k + 1) <==> (q != [] && q <= parts && |q| <= k) || q == parts[..k + 1]
    {
      if q <= parts && |q| == k + 1 { assert q == parts[..k + 1]; }
    }
  }

  class Extraction {
    var nodes: Tree
    var nextInode: nat
    var directories: map<Path, nat>
    var files: map<Path, Signature>

    constructor (tree: Tree)
      ensures nodes == tree && directories == map[] && files == map[]
    {
      nodes, nextInode, directories, files := tree, 0, map[], map[];
    }

    /** Clean over what was there at the start. */
    ghost predicate IsClean(base: Tree, seen: seq<Entry>, opening: Path, depth: nat)
      reads this
    {
      Clean(base, nodes, directories, files, seen, opening, depth)
    }

    /** Open the directory `p`, made here if it is not known yet. */
    method OpenChildDirectory(p: Path, expected: Option<nat>) returns (r: Result<nat, Code>)
      modifies `nodes, `nextInode
      ensures r.Ok? <==> if expected.None? then p !in old(nodes)
                         else p in old(nodes) && old(nodes)[p] == DirNode(expected.value, true)
      ensures r.Ok? ==> nodes == old(nodes)[p := DirNode(r.value, true)]
      ensures r.Ok? && expected.Some? ==> r.value == expected.value
      ensures r.Err? ==> nodes == old(nodes) && r.error == DestinationUnsafe
    {
      if expected.None? {
        if p in nodes {
          return Err(DestinationUnsafe);
        }
        nodes := nodes[p := DirNode(nextInode, true)];
        nextInode := nextInode + 1;
      }
      if p !in nodes {
        return Err(DestinationUnsafe);
      }
      match nodes[p]
      case DirNode(inode, secure) =>
        if !secure || (expected.Some? && inode != expected.value) {
          return Err(DestinationUnsafe);
        }
        r := Ok(inode);
      case _ => r := Err(DestinationUnsafe);
    }

    /** Open the directory `e.parts[..k + 1]` below its parent, and remember its inode. */
    method EnterDirectory(e: Entry, k: nat, ghost base: Tree, ghost seen: seq<Entry>) returns (r: Result<(), Code>)
      requires k < |e.parts|
      modifies `nodes, `nextInode, `directories
      ensures Kept(old(nodes), nodes)
      ensures Admissible(seen, e) && old(IsClean(base, seen, e.parts, k)) && NeedsDirectory(e, k) ==>
                if e.parts[..k + 1] in base then r == Err(DestinationUnsafe)
                else r.Ok? && IsClean(base, seen, e.parts, k + 1)
    {
      var p := e.parts[..k + 1];
      ghost var clean := Admissible(seen, e) && IsClean(base, seen, e.parts, k) && NeedsDirectory(e, k);
      if clean { DirectoryAt(base, nodes, directories, files, seen, e, k); }
      var child := OpenChildDirectory(p, if p in directories then Some(directories[p]) else None);
      if child.Err? {
        return Err(child.error);
      }
      if clean {
        DirectoryOpened(base, old(nodes), directories, files, seen, e, k, child.value);
        assert p in directories ==> directories[p := child.value] == directories;
      }
      if p !in directories {
        directories := directories[p := child.value];
      }
      r := Ok(());
    }

    /** Open (or make) every directory above `e`. */
    method OpenMemberParent(e: Entry, ghost base: Tree, ghost seen: seq<Entry>) returns (r: Result<(), Code>)
      modifies `nodes, `nextInode, `directories
      ensures Kept(old(nodes), nodes)
      ensures Admissible(seen, e) && old(IsClean(base, seen, e.parts, 0)) ==>
                && (r.Ok? <==> forall k | 0 < k < |e.parts| :: e.parts[..k] !in base)
                && (r.Ok? ==> IsClean(base, seen, e.parts, |e.parts| - 1))
                && (r.Err? ==> r.error == DestinationUnsafe)
    {
      ghost var clean := Admissible(seen, e) && IsClean(base, seen, e.parts, 0);
      for k := 0 to if e.parts == [] then 0 else |e.parts| - 1
        invariant Kept(old(nodes), nodes)
        invariant clean ==> IsClean(base, seen, e.parts, k) && forall i | 0 < i <= k :: e.parts[..i] !in base
      {
        var entered := EnterDirectory(e, k, base, seen);
        if entered.Err? {
          assert clean ==> e.parts[..k + 1] in base;
          return entered;
        }
      }
      r := Ok(());
    }

    /** Create a file that must not exist; its source yields exactly the declared size. */
    method WriteMemberFile(e: Entry, ghost base: Tree, ghost seen: seq<Entry>) returns (r: Result<Signature, Code>)
      modifies `nodes, `nextInode, `directories
      ensures Kept(old(nodes), nodes)
      ensures r.Ok? ==> e.parts in nodes && nodes[e.parts] == FileNode(r.value) && r.value.size == e.size
      ensures Admissible(seen, e) && old(IsClean(base, seen, e.parts, 0)) && e.kind.FileKind? ==>
                && (r.Ok? <==> forall k | 0 < k <= |e.parts| :: e.parts[..k] !in base)
                && (r.Ok? ==> Clean(base, nodes, directories, files[e.parts := r.value], seen + [e], [], 0))
                && (r.Err? ==> r.error == if e.parts in base && forall k | 0 < k < |e.parts| :: e.parts[..k] !in base
                                          then ExtractFailed else DestinationUnsafe)
    {
      ghost var clean := Admissible(seen, e) && IsClean(base, seen, e.parts, 0) && e.kind.FileKind?;
      assert e.parts[..|e.parts|] == e.parts;
      var parent := OpenMemberParent(e, base, seen);
      if parent.Err? {
        return Err(parent.error);
      }
      var signature := Signature(nextInode, e.size);
      if clean { FileWritten(base, nodes, directories, files, seen, e, signature); }
      if e.parts in nodes {
        return Err(ExtractFailed);
      }
      nodes := nodes[e.parts := FileNode(signature)];
      nextInode := nextInode + 1;
      r := Ok(signature);
    }

    method WriteDirectory(e: Entry, ghost base: Tree, ghost seen: seq<Entry>) returns (r: Result<(), Code>)
      requires e.parts != []
      modifies `nodes, `nextInode, `directories
      ensures Kept(old(nodes), nodes)
      ensures Admissible(seen, e) && old(IsClean(base, seen, e.parts, 0)) && e.kind.DirKind? ==>
                && (r.Ok? <==> forall k | 0 < k <= |e.parts| :: e.parts[..k] !in base)
                && (r.Ok? ==> IsClean(base, seen + [e], [], 0))
                && (r.Err? ==> r.error == DestinationUnsafe)
    {
      ghost var clean := Admissible(seen, e) && IsClean(base, seen, e.parts, 0) && e.kind.DirKind?;
      assert e.parts[..|e.parts|] == e.parts;
      var parent := OpenMemberParent(e, base, seen);
      if parent.Err? {
        return parent;
      }
      r := EnterDirectory(e, |e.parts| - 1, base, seen);
      if clean && r.Ok? { DirectoryWritten(base, nodes, directories, files, seen, e); }
    }

    /** A scanned list is written exactly if none of its paths, and none of the directories above them, is taken
        in the destination.  Then the members and the directories above them have come to what was there, and
        nothing else.  Whatever the destination holds, nothing in it is changed. */
    method WriteMembers(entries: seq<Entry>) returns (r: Result<(), Code>)
      requires NoRoot(entries)
      modifies this
      ensures Kept(old(nodes), nodes)
      ensures PairwiseClear(entries) ==>
                (r.Ok? <==> forall p | p in old(nodes) :: !IsDirPath(entries, p) && !IsFilePath(entries, p))
      ensures PairwiseClear(entries) && r.Ok? ==>
                && nodes == old(nodes) + Image(directories, files)
                && old(nodes).Keys !! directories.Keys + files.Keys && Covered(directories, files, entries)
      ensures PairwiseClear(entries) && r.Err? ==>
                exists p :: p in old(nodes) && if r.error == ExtractFailed then IsFilePath(entries, p)
                                               else r.error == DestinationUnsafe && IsDirPath(entries, p)
    {
      ghost var base, clean := nodes, PairwiseClear(entries);
      directories, files := map[], map[];
      for i := 0 to |entries|
        invariant Kept(base, nodes)
        invariant clean ==> IsClean(base, entries[..i], [], 0)
      {
        var e := entries[i];
        ghost var seen := entries[..i];
        assert entries[..i + 1] == seen + [e];
        if clean {
          ClearParts(entries, i);
          StartOpening(base, nodes, directories, files, seen, e.parts);
        }
        if e.kind.DirKind? {
          var written := WriteDirectory(e, base, seen);
          if written.Err? {
            if clean { DirectoryBlocked(base, entries, i); }
            return written;
          }
        } else {
          var written := WriteMemberFile(e, base, seen);
          if written.Err? {
            if clean { FileBlocked(base, entries, i, written.error); }
            return Err(written.error);
          }
          files := files[e.parts := written.value];
        }
      }
      assert entries[..|entries|] == entries;
      r := Ok(());
      if clean { OverIsSum(base, nodes, directories, files); }
    }
  }

  lemma PathsOfMember(entries: seq<Entry>, i: nat, k: nat)
    requires i < |entries| && 0 < k <= |entries[i].parts|
    ensures var e, p := entries[i], entries[i].parts[..k];
            if k < |e.parts| || e.kind.DirKind? then IsDirPath(entries, p) else IsFilePath(entries, p)
  {
    var e := entries[i];
    assert e in entries;
    if k == |e.parts| { assert e.parts[..k] == e.parts; } else { assert ProperPrefix(e.parts[..k], e.parts); }
  }

  lemma DirectoryBlocked(base: Tree, entries: seq<Entry>, i: nat)
    requires i < |entries| && entries[i].kind.DirKind?
    requires exists k :: 0 < k <= |entries[i].parts| && entries[i].parts[..k] in base
    ensures exists p :: p in base && IsDirPath(entries, p)
  {
    var k :| 0 < k <= |entries[i].parts| && entries[i].parts[..k] in base;
    PathsOfMember(entries, i, k);
  }

  lemma FileBlocked(base: Tree, entries: seq<Entry>, i: nat, error: Code)
    requires i < |entries| && entries[i].kind.FileKind? && entries[i].parts != []
    requires exists k :: 0 < k <= |entries[i].parts| && entries[i].parts[..k] in base
    requires var parts := entries[i].parts;
             error == if parts in base && forall k | 0 < k < |parts| :: parts[..k] !in base
                      then ExtractFailed else DestinationUnsafe
    ensures exists p :: p in base && if error == ExtractFailed then IsFilePath(entries, p)
                                     else error == DestinationUnsafe && IsDirPath(entries, p)
  {
    var parts := entries[i].parts;
    if error == ExtractFailed {
      PathsOfMember(entries, i, |parts|);
      assert parts[..|parts|] == parts;
    } else {
      var k :| 0 < k <= |parts| && parts[..k] in base;
      if k == |parts| {
        assert parts[..k] == parts;
        var l :| 0 < l < |parts| && parts[..l] in base;
        PathsOfMember(entries, i, l);
      } else {
        PathsOfMember(entries, i, k);
      }
    }
  }

  lemma StartOpening(base: Tree, tree: Tree, directories: map<Path, nat>, files: map<Path, Signature>,
                     seen: seq<Entry>, parts: Path)
    requires Clean(base, tree, directories, files, seen, [], 0)
    ensures Clean(base, tree, directories, files, seen, parts, 0)
  {
  }

  lemma FileWritten(base: Tree, tree: Tree, directories: map<Path, nat>, files: map<Path, Signature>,
                    seen: seq<Entry>, e: Entry, signature: Signature)
    requires Admissible(seen, e) && e.kind.FileKind? && signature.size == e.size
    requires Clean(base, tree, directories, files, seen, e.parts, |e.parts| - 1)
    ensures e.parts in tree <==> e.parts in base
    ensures e.parts !in base ==>
              Clean(base, tree[e.parts := FileNode(signature)], directories, files[e.parts := signature],
                    seen + [e], [], 0)
  {
    FileNameFree(seen, e);
    assert e.parts !in directories && e.parts !in files;
    if e.parts !in base {
      FileRecorded(base, tree, directories, files, e.parts, signature);
      FileDirectories(directories, seen, e);
      FileFiles(files, seen, e, signature);
    }
  }

  lemma FileDirectories(directories: map<Path, nat>, seen: seq<Entry>, e: Entry)
    requires e.kind.FileKind? && e.parts != [] && Directories(directories, seen, e.parts, |e.parts| - 1)
    ensures Directories(directories, seen + [e], [], 0)
  {
    DirPathsGrow(seen, e);
  }

  lemma FileFiles(files: map<Path, Signature>, seen: seq<Entry>, e: Entry, signature: Signature)
    requires e.kind.FileKind? && signature.size == e.size && Files(files, seen) && e.parts !in files
    ensures Files(files[e.parts := signature], seen + [e])
  {
    FilePathsGrow(seen, e);
  }

  lemma FileNameFree(seen: seq<Entry>, e: Entry)
    requires Admissible(seen, e) && e.kind.FileKind?
    ensures !IsFilePath(seen, e.parts) && !IsDirPath(seen, e.parts)
  {
    forall x | x in seen ensures x.parts != e.parts && !ProperPrefix(e.parts, x.parts) {
      assert !Clash(x, e);
    }
  }

  lemma FileRecorded(base: Tree, tree: Tree, directories: map<Path, nat>, files: map<Path, Signature>, p: Path,
                     signature: Signature)
    requires Over(base, tree, directories, files) && p !in directories && p !in files && p !in base
    ensures Over(base, tree[p := FileNode(signature)], directories, files[p := signature])
  {
  }

  lemma DirectoryWritten(base: Tree, tree: Tree, directories: map<Path, nat>, files: map<Path, Signature>,
                         seen: seq<Entry>, e: Entry)
    requires Admissible(seen, e) && e.kind.DirKind?
    requires Clean(base, tree, directories, files, seen, e.parts, |e.parts|)
    ensures Clean(base, tree, directories, files, seen + [e], [], 0)
  {
    DirPathsGrow(seen, e);
    FilePathsGrow(seen, e);
  }

  lemma DirPathsGrow(seen: seq<Entry>, e: Entry)
    ensures forall p :: IsDirPath(seen + [e], p) <==>
              IsDirPath(seen, p) || (p != [] && ((p == e.parts && e.kind.DirKind?) || ProperPrefix(p, e.parts)))
  {
    assert forall x :: x in seen + [e] <==> x in seen || x == e;
  }

  lemma FilePathsGrow(seen: seq<Entry>, e: Entry)
    ensures forall p :: IsFilePath(seen + [e], p) <==> IsFilePath(seen, p) || (e.kind.FileKind? && p == e.parts)
    ensures forall x :: x in seen + [e] <==> x in seen || x == e
  {
  }

  // ---------------------------------------------------------------- the check of the written tree

  /** `os.listdir` */
  function Listing(tree: Tree, parent: Path): set<string> {
    set p | p in tree && p != [] && Init(p) == parent :: Last(p)
  }

  /** Each recorded path is a name in the destination or in a recorded directory. */
  ghost predicate Closed(directories: map<Path, nat>, files: map<Path, Signature>) {
    forall p | p in directories.Keys + files.Keys :: p != [] && (Init(p) == [] || Init(p) in directories)
  }

  function ChildrenOf(paths: set<Path>, parent: Path): set<string> {
    set p | p in paths && p != [] && Init(p) == parent :: Last(p)
  }

  ghost predicate HasChild(paths: set<Path>, p: Path) {
    exists q :: q in paths && q != [] && Init(q) == p
  }

  ghost predicate IsParent(directories: set<Path>, paths: set<Path>, p: Path) {
    p == [] || (p in directories && p in paths) || HasChild(paths, p)
  }

  /** `expected_children` after the paths `done` have been entered. */
  ghost predicate Expects(expected: map<Path, set<string>>, directories: set<Path>, done: set<Path>) {
    && (forall p :: p in expected <==> IsParent(directories, done, p))
    && (forall p | p in expected :: expected[p] == ChildrenOf(done, p))
  }

  function AddName(expected: map<Path, set<string>>, directories: set<Path>, parts: Path): map<Path, set<string>>
    requires parts != []
  {
    var parent := Init(parts);
    var names := if parent in expected then expected[parent] else {};
    var named := expected[parent := names + {Last(parts)}];
    if parts in directories && parts !in named then named[parts := {}] else named
  }

  lemma NamesGrow(done: set<Path>, parts: Path, p: Path)
    requires parts != []
    ensures ChildrenOf(done + {parts}, p) == ChildrenOf(done, p) + if Init(parts) == p then {Last(parts)} else {}
    ensures HasChild(done + {parts}, p) <==> HasChild(done, p) || Init(parts) == p
    ensures !HasChild(done, p) ==> ChildrenOf(done, p) == {}
  {
  }

  lemma NameAdded(expected: map<Path, set<string>>, directories: set<Path>, done: set<Path>, parts: Path)
    requires parts != [] && Expects(expected, directories, done)
    ensures Expects(AddName(expected, directories, parts), directories, done + {parts})
  {
    var after := AddName(expected, directories, parts);
    forall p ensures p in after <==> IsParent(directories, done + {parts}, p) {
      NamesGrow(done, parts, p);
    }
    forall p | p in after ensures after[p] == ChildrenOf(done + {parts}, p) {
      NamesGrow(done, parts, p);
      assert p !in expected ==> !IsParent(directories, done, p);
    }
  }

  /** The recorded names below each recorded directory, and below the destination. */
  method ExpectedChildren(directories: map<Path, nat>, files: map<Path, Signature>)
    returns (expected: map<Path, set<string>>)
    requires [] !in directories.Keys + files.Keys
    ensures Expects(expected, directories.Keys, directories.Keys + files.Keys)
  {
    expected := map[[] := {}];
    var todo := directories.Keys + files.Keys;
    ghost var done: set<Path> := {};
    while todo != {}
      invariant done !! todo && done + todo == directories.Keys + files.Keys
      invariant Expects(expected, directories.Keys, done)
    {
      var parts :| parts in todo;
      NameAdded(expected, directories.Keys, done, parts);
      expected := AddName(expected, directories.Keys, parts);
      todo, done := todo - {parts}, done + {parts};
    }
    assert done == directories.Keys + files.Keys;
  }

  // ---------------------------------------------------------------- opening what was recorded

  ghost predicate DirectoryThere(tree: Tree, directories: map<Path, nat>, p: Path) {
    p in directories && p in tree && tree[p] == DirNode(directories[p], true)
  }

  lemma {:induction false} ShortestExists(paths: set<Path>)
    requires paths != {}
    ensures exists p :: p in paths && forall q | q in paths :: |p| <= |q|
  {
    var p :| p in paths;
    var rest := paths - {p};
    if rest == {} {
      assert paths == {p};
    } else {
      ShortestExists(rest);
      var r :| r in rest && forall q | q in rest :: |r| <= |q|;
      var best := if |p| <= |r| then p else r;
      assert best in paths && forall q | q in paths :: |best| <= |q|;
    }
  }

  /** Shortest first, so that a parent comes before what it contains.  Succeeds exactly when every
      recorded directory is there, with its inode, below the destination or a recorded directory. */
  method OpenDirectories(tree: Tree, directories: map<Path, nat>) returns (handles: Option<set<Path>>)
    requires [] !in directories
    ensures handles.Some? <==> forall p | p in directories ::
              DirectoryThere(tree, directories, p) && (Init(p) == [] || Init(p) in directories)
    ensures handles.Some? ==> handles.value == directories.Keys + {[]}
  {
    var known: set<Path> := {[]};
    var todo := directories.Keys;
    while todo != {}
      invariant known == (directories.Keys - todo) + {[]} && todo <= directories.Keys
      invariant forall p, q | p in todo && q in directories && q !in todo :: |q| <= |p|
      invariant forall p | p in directories && p !in todo ::
                  DirectoryThere(tree, directories, p) && (Init(p) == [] || Init(p) in directories)
    {
      ShortestExists(todo);
      var parts :| parts in todo && forall q | q in todo :: |parts| <= |q|;
      if Init(parts) !in known {
        assert Init(parts) !in directories;
        return None;
      }
      if parts !in tree || tree[parts] != DirNode(directories[parts], true) {
        assert !DirectoryThere(tree, directories, parts);
        return None;
      }
      known, todo := known + {parts}, todo - {parts};
    }
    handles := Some(known);
  }

  // ---------------------------------------------------------------- verdict

  method ListingsMatch(tree: Tree, handles: set<Path>, expected: map<Path, set<string>>) returns (ok: bool)
    ensures ok <==> forall p | p in expected :: p in handles && Listing(tree, p) == expected[p]
  {
    var todo := expected.Keys;
    while todo != {}
      invariant todo <= expected.Keys
      invariant forall p | p in expected && p !in todo :: p in handles && Listing(tree, p) == expected[p]
    {
      var parent :| parent in todo;
      if parent !in handles || Listing(tree, parent) != expected[parent] {
        return false;
      }
      todo := todo - {parent};
    }
    ok := true;
  }

  method FilesMatch(tree: Tree, handles: set<Path>, files: map<Path, Signature>) returns (ok: bool)
    requires [] !in files
    ensures ok <==> forall p | p in files :: Init(p) in handles && p in tree && tree[p] == FileNode(files[p])
  {
    var todo := files.Keys;
    while todo != {}
      invariant todo <= files.Keys
      invariant forall p | p in files && p !in todo :: Init(p) in handles && p in tree && tree[p] == FileNode(files[p])
    {
      var parts :| parts in todo;
      if Init(parts) !in handles || parts !in tree || tree[parts] != FileNode(files[parts]) {
        return false;
      }
      todo := todo - {parts};
    }
    ok := true;
  }

  /** What the three passes of the check establish together. */
  ghost predicate PassesAgree(tree: Tree, directories: map<Path, nat>, files: map<Path, Signature>)
    requires [] !in directories.Keys + files.Keys
  {
    var all := directories.Keys + files.Keys;
    && (forall p | p in directories ::
          DirectoryThere(tree, directories, p) && (Init(p) == [] || Init(p) in directories))
    && (forall p | IsParent(directories.Keys, all, p) ::
          (p == [] || p in directories) && Listing(tree, p) == ChildrenOf(all, p))
    && (forall p | p in files ::
          (Init(p) == [] || Init(p) in directories) && p in tree && tree[p] == FileNode(files[p]))
  }

  lemma ListingIsChildren(tree: Tree, all: set<Path>)
    requires tree.Keys == all
    ensures forall p :: Listing(tree, p) == ChildrenOf(all, p)
  {
  }

  /** By depth: a node lies in a recorded directory, whose listing shows only recorded names. */
  lemma {:induction false} NodeIsRecorded(tree: Tree, directories: map<Path, nat>, files: map<Path, Signature>, p: Path)
    requires [] !in directories.Keys + files.Keys
    requires FileSystem(tree) && PassesAgree(tree, directories, files) && p in tree
    ensures p in directories.Keys + files.Keys
    decreases |p|
  {
    var all := directories.Keys + files.Keys;
    var parent := Init(p);
    if parent != [] {
      NodeIsRecorded(tree, directories, files, parent);
      assert parent in directories;
    }
    assert IsParent(directories.Keys, all, parent);
    assert Last(p) in Listing(tree, parent);
    NameDecidesPath(all, p);
  }

  lemma NameDecidesPath(all: set<Path>, p: Path)
    requires p != [] && Last(p) in ChildrenOf(all, Init(p))
    ensures p in all
  {
    var q :| q in all && q != [] && Init(q) == Init(p) && Last(q) == Last(p);
    assert q == Init(q) + [Last(q)] && p == Init(p) + [Last(p)];
  }

  lemma AgreementRecords(tree: Tree, directories: map<Path, nat>, files: map<Path, Signature>)
    requires FileSystem(tree) && [] !in directories.Keys + files.Keys && PassesAgree(tree, directories, files)
    ensures Closed(directories, files) && Recorded(tree, directories, files)
  {
    forall p | p in tree ensures p in directories.Keys + files.Keys {
      NodeIsRecorded(tree, directories, files, p);
    }
    forall p | p in directories ensures p !in files && p in tree && tree[p] == DirNode(directories[p], true) {
      assert DirectoryThere(tree, directories, p);
    }
    assert tree.Keys == directories.Keys + files.Keys;
  }

  lemma ParentsAreDirectories(directories: map<Path, nat>, files: map<Path, Signature>, p: Path)
    requires Closed(directories, files) && IsParent(directories.Keys, directories.Keys + files.Keys, p)
    ensures p == [] || p in directories
  {
    if HasChild(directories.Keys + files.Keys, p) {
      var q :| q in directories.Keys + files.Keys && q != [] && Init(q) == p;
    }
  }

  lemma RecordAgrees(tree: Tree, directories: map<Path, nat>, files: map<Path, Signature>)
    requires FileSystem(tree) && [] !in directories.Keys + files.Keys
    requires Closed(directories, files) && Recorded(tree, directories, files)
    ensures PassesAgree(tree, directories, files)
  {
    ListingIsChildren(tree, directories.Keys + files.Keys);
    forall p | IsParent(directories.Keys, directories.Keys + files.Keys, p) ensures p == [] || p in directories {
      ParentsAreDirectories(directories, files, p);
    }
  }

  lemma AgreementIsEquality(tree: Tree, directories: map<Path, nat>, files: map<Path, Signature>)
    requires FileSystem(tree) && [] !in directories.Keys + files.Keys
    ensures PassesAgree(tree, directories, files) <==>
              Closed(directories, files) && directories.Keys !! files.Keys && tree == Image(directories, files)
  {
    RecordedIsImage(tree, directories, files);
    if PassesAgree(tree, directories, files) {
      AgreementRecords(tree, directories, files);
    } else if Closed(directories, files) && Recorded(tree, directories, files) {
      RecordAgrees(tree, directories, files);
    }
  }

  /** The check accepts a destination, whatever has happened to it, exactly when its content is the
      recorded tree: the same directories, the same files, nothing else. */
  method VerifyWrittenTree(tree: Tree, directories: map<Path, nat>, files: map<Path, Signature>)
    returns (r: Result<(), Code>)
    requires FileSystem(tree) && [] !in directories.Keys + files.Keys
    ensures r.Ok? <==> Closed(directories, files) && directories.Keys !! files.Keys && tree == Image(directories, files)
    ensures r.Err? ==> r.error == DestinationUnsafe
  {
    AgreementIsEquality(tree, directories, files);
    var expected := ExpectedChildren(directories, files);
    var handles := OpenDirectories(tree, directories);
    if handles.None? {
      return Err(DestinationUnsafe);
    }
    var listed := ListingsMatch(tree, handles.value, expected);
    if !listed {
      return Err(DestinationUnsafe);
    }
    var matched := FilesMatch(tree, handles.value, files);
    if !matched {
      return Err(DestinationUnsafe);
    }
    r := Ok(());
  }

  // ---------------------------------------------------------------- scan, write and verify together

  lemma CoveredIsClosed(directories: map<Path, nat>, files: map<Path, Signature>, entries: seq<Entry>)
    requires NoRoot(entries) && PairwiseClear(entries) && Covered(directories, files, entries)
    ensures Closed(directories, files) && directories.Keys !! files.Keys
    ensures [] !in directories.Keys + files.Keys && FileSystem(Image(directories, files))
  {
    forall p | p in directories.Keys + files.Keys && Init(p) != [] ensures Init(p) in directories {
      var e :| e in entries && p <= e.parts;
      assert ProperPrefix(Init(p), e.parts);
    }
    forall p | p in directories ensures p !in files {
      NoPathIsBoth(entries, p);
    }
  }

  lemma NoPathIsBoth(entries: seq<Entry>, p: Path)
    requires PairwiseClear(entries)
    ensures !(IsDirPath(entries, p) && IsFilePath(entries, p))
  {
    forall d, f | d in entries && f in entries && f.kind.FileKind? && f.parts == p
      ensures !((p == d.parts && d.kind.DirKind?) || ProperPrefix(p, d.parts))
    {
      var i :| 0 <= i < |entries| && entries[i] == d;
      var j :| 0 <= j < |entries| && entries[j] == f;
      if i < j { assert !Clash(entries[i], entries[j]); } else if j < i { assert !Clash(entries[j], entries[i]); }
    }
  }

  lemma ScannedAdmissible(members: seq<Member>)
    requires Scanned(members).Ok?
    ensures PairwiseClear(Scanned(members).value) && NoRoot(Scanned(members).value)
  {
    ScanIsCoherent(members);
    forall e | e in Scanned(members).value ensures e.parts != [] {
      var i :| 0 <= i < |members| && Entries(members)[i] == e;
      CheckedHasPath(members[i]);
    }
  }

  lemma SumIsFileSystem(base: Tree, directories: map<Path, nat>, files: map<Path, Signature>)
    requires FileSystem(base) && base.Keys !! directories.Keys + files.Keys && directories.Keys !! files.Keys
    requires Closed(directories, files)
    ensures FileSystem(base + Image(directories, files))
  {
    var tree := base + Image(directories, files);
    forall p | p in tree ensures p != [] && (Init(p) == [] || (Init(p) in tree && tree[Init(p)].DirNode?)) {
      if p in base && Init(p) != [] { assert Init(p) in base && Init(p) !in directories.Keys + files.Keys; }
    }
  }

  lemma SumIsImage(base: Tree, directories: map<Path, nat>, files: map<Path, Signature>)
    requires base.Keys !! directories.Keys + files.Keys
    ensures base + Image(directories, files) == Image(directories, files) <==> base == map[]
  {
    var image := Image(directories, files);
    if base + image == image {
      forall p ensures p !in base { assert p in base ==> p in base + image; }
      assert base == map[];
    }
  }

  /** Scan, write and verify: an archive is extracted exactly if the scan accepts it and the destination is
      empty, and then the destination holds exactly the members and the directories above them. */
  method Extract(members: seq<Member>, destination: Tree) returns (accepted: bool, x: Extraction)
    requires FileSystem(destination)
    ensures accepted <==> Scanned(members).Ok? && destination == map[]
    ensures accepted ==>
              && x.nodes == Image(x.directories, x.files)
              && Covered(x.directories, x.files, Scanned(members).value)
  {
    x := new Extraction(destination);
    var scan := ArtifactTrie.ScanMembers(members);
    if scan.Err? {
      return false, x;
    }
    ScannedAdmissible(members);
    var written := x.WriteMembers(scan.value);
    if written.Err? {
      return false, x;
    }
    CoveredIsClosed(x.directories, x.files, scan.value);
    SumIsFileSystem(destination, x.directories, x.files);
    SumIsImage(destination, x.directories, x.files);
    var verified := VerifyWrittenTree(x.nodes, x.directories, x.files);
    accepted := verified.Ok?;
  }
}
