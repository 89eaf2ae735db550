/** The scan as the code runs it: one pass that grows a mutable trie of path components. */
module ArtifactTrie {
  import opened Prelude
  import opened ArtifactPaths
  import opened ArtifactScan

  class PathNode {
    var children: map<string, PathNode>
    var kind: Option<Kind>

    constructor ()
      ensures children == map[] && kind == None
    {
      children, kind := map[], None;
    }
  }

  function Child(p: Path, component: string): Path {
    p + [component]
  }

  /** `table` lists every node of the trie under its path. */
  ghost predicate Linked(table: map<Path, PathNode>)
    reads table.Values
  {
    && [] in table
    && (forall p, q | p in table && q in table && p != q :: table[p] != table[q])
    && (forall p, c | p in table && c in table[p].children ::
          Child(p, c) in table && table[p].children[c] == table[Child(p, c)])
    && (forall p, c | Child(p, c) in table :: p in table && c in table[p].children)
  }

  ghost predicate Leads(seen: seq<Entry>, p: Path) {
    exists e | e in seen :: p <= e.parts
  }

  /** The nodes are the prefixes of the seen paths and of the path being walked. */
  ghost predicate Covers(table: map<Path, PathNode>, seen: seq<Entry>, walked: Path) {
    forall p :: p in table <==> p == [] || p <= walked || Leads(seen, p)
  }

  ghost predicate Kinds(table: map<Path, PathNode>, seen: seq<Entry>)
    reads table.Values
  {
    && (forall e | e in seen :: e.parts in table && table[e.parts].kind == Some(e.kind))
    && (forall p | p in table && table[p].kind.Some? :: exists e :: e in seen && e.parts == p)
  }

  /** One step down, making the node if it is missing (`children.setdefault`). */
  method Descend(node: PathNode, component: string, ghost table: map<Path, PathNode>, ghost at: Path,
                 ghost seen: seq<Entry>)
    returns (next: PathNode, ghost grown: map<Path, PathNode>)
    requires Linked(table) && Kinds(table, seen) && at in table && table[at] == node
    modifies node`children
    ensures Linked(grown) && Kinds(grown, seen)
    ensures grown.Keys == table.Keys + {Child(at, component)} && grown[Child(at, component)] == next
    ensures Grown(table, grown)
    ensures forall p | p in grown && p !in table :: fresh(grown[p])
  {
    var path := Child(at, component);
    if component in node.children {
      grown := table;
      next := node.children[component];
    } else {
      assert path !in table;
      next := new PathNode();
      node.children := node.children[component := next];
      grown := table[path := next];
      forall p, c | Child(p, c) in grown ensures p in grown && c in grown[p].children {
        if Child(p, c) == path { SameChild(p, c, at, component); }
      }
      forall p, c | p in grown && c in grown[p].children
        ensures Child(p, c) in grown && grown[p].children[c] == grown[Child(p, c)]
      {
        if p != path && Child(p, c) == path { SameChild(p, c, at, component); }
      }
    }
  }

  ghost predicate Grown(table: map<Path, PathNode>, grown: map<Path, PathNode>) {
    forall p | p in table :: p in grown && grown[p] == table[p]
  }

  lemma SameChild(p: Path, c: string, q: Path, d: string)
    requires Child(p, c) == Child(q, d)
    ensures p == q && c == d
  {
    assert Child(p, c)[|p|] == c && Child(q, d)[|q|] == d;
    assert p == Child(p, c)[..|p|] && q == Child(q, d)[..|q|];
  }

  // ---------------------------------------------------------------- what a walk down the trie finds

  /** Some file lies above `parts`, no deeper than `depth` components. */
  ghost predicate FileAbove(seen: seq<Entry>, parts: Path, depth: nat) {
    exists e | e in seen :: e.kind.FileKind? && e.parts <= parts && |e.parts| < depth
  }

  lemma ConflictSplits(seen: seq<Entry>, e: Entry)
    ensures Conflicts(seen, e) <==>
      || FileAbove(seen, e.parts, |e.parts|)
      || (exists x | x in seen :: x.parts == e.parts)
      || (e.kind.FileKind? && LeadsBelow(seen, e.parts))
  {
    if Conflicts(seen, e) {
      var x :| x in seen && Clash(x, e);
    }
  }

  ghost predicate LeadsBelow(seen: seq<Entry>, p: Path) {
    exists e | e in seen :: ProperPrefix(p, e.parts)
  }

  lemma StepBelow(seen: seq<Entry>, p: Path)
    ensures LeadsBelow(seen, p) <==> exists c :: Leads(seen, Child(p, c))
  {
    if LeadsBelow(seen, p) {
      var e :| e in seen && ProperPrefix(p, e.parts);
      assert Child(p, e.parts[|p|]) <= e.parts;
    }
    if c :| Leads(seen, Child(p, c)) {
      var e :| e in seen && Child(p, c) <= e.parts;
      assert ProperPrefix(p, e.parts);
    }
  }

  /** The last node of the walk has children exactly when some seen path goes on below it. */
  lemma ChildrenMeanDeeper(table: map<Path, PathNode>, seen: seq<Entry>, parts: Path)
    requires Linked(table) && Covers(table, seen, parts) && parts in table
    ensures table[parts].children != map[] <==> LeadsBelow(seen, parts)
  {
    StepBelow(seen, parts);
    if table[parts].children != map[] {
      var c :| c in table[parts].children;
      assert Child(parts, c) in table;
    }
    if c :| Leads(seen, Child(parts, c)) {
      assert Child(parts, c) in table;
    }
  }

  lemma {:induction false} ScanStopsAtError(members: seq<Member>, n: nat)
    requires n <= |members| && Scanned(members[..n]).Err?
    ensures Scanned(members) == Scanned(members[..n])
    decreases |members|
  {
    if n == |members| {
      assert members[..n] == members;
    } else {
      var front := members[..|members| - 1];
      assert front[..n] == members[..n];
      ScanStopsAtError(front, n);
    }
  }

  lemma NoFileHere(table: map<Path, PathNode>, seen: seq<Entry>, parts: Path, k: nat)
    requires Kinds(table, seen) && k < |parts| && parts[..k] in table
    requires table[parts[..k]].kind != Some(FileKind) && !FileAbove(seen, parts, k)
    ensures !FileAbove(seen, parts, k + 1)
  {
    assert forall e | e in seen && e.parts <= parts && |e.parts| == k :: e.parts == parts[..k];
  }

  lemma CoversOneMore(table: map<Path, PathNode>, grown: map<Path, PathNode>, seen: seq<Entry>, parts: Path, k: nat)
    requires k < |parts| && Covers(table, seen, parts[..k]) && grown.Keys == table.Keys + {parts[..k + 1]}
    ensures Covers(grown, seen, parts[..k + 1])
  {
    forall p: Path ensures p in grown <==> p == [] || p <= parts[..k + 1] || Leads(seen, p) {
      assert p in grown <==> p in table || p == parts[..k + 1];
      if p <= parts[..k + 1] && |p| == k + 1 { assert p == parts[..k + 1]; }
      if p <= parts[..k + 1] && |p| <= k { assert p <= parts[..k]; }
    }
  }

  lemma NowCovered(table: map<Path, PathNode>, seen: seq<Entry>, e: Entry)
    requires Covers(table, seen, e.parts)
    ensures Covers(table, seen + [e], [])
  {
    forall p: Path ensures p in table <==> p == [] || p <= [] || Leads(seen + [e], p) {
      assert e in seen + [e];
      assert p in table <==> p == [] || p <= e.parts || Leads(seen, p);
      if Leads(seen, p) {
        var x :| x in seen && p <= x.parts;
        assert x in seen + [e];
      }
    }
  }

  /** The first `k` components of `parts` lead to `node`, and no file lies on the way. */
  ghost predicate Walking(table: map<Path, PathNode>, seen: seq<Entry>, parts: Path, k: nat, node: PathNode)
    reads table.Values
  {
    && Linked(table) && Kinds(table, seen)
    && k <= |parts| && Covers(table, seen, parts[..k])
    && parts[..k] in table && table[parts[..k]] == node
    && !FileAbove(seen, parts, k)
  }

  method StepDown(node: PathNode, parts: Path, k: nat, ghost table: map<Path, PathNode>, ghost seen: seq<Entry>)
    returns (next: PathNode, ghost grown: map<Path, PathNode>)
    requires k < |parts| && Walking(table, seen, parts, k, node) && node.kind != Some(FileKind)
    modifies node`children
    ensures Walking(grown, seen, parts, k + 1, next)
    ensures Grown(table, grown) && forall p | p in grown && p !in table :: fresh(grown[p])
  {
    assert !FileAbove(seen, parts, k + 1) by { NoFileHere(table, seen, parts, k); }
    assert Child(parts[..k], parts[k]) == parts[..k + 1];
    next, grown := Descend(node, parts[k], table, parts[..k], seen);
    assert Covers(grown, seen, parts[..k + 1]) by { CoversOneMore(table, grown, seen, parts, k); }
  }

  /** Walk to the node of `parts`, making missing nodes, unless a file lies on the way. */
  method Walk(root: PathNode, parts: Path, ghost table: map<Path, PathNode>, ghost seen: seq<Entry>)
    returns (found: Option<PathNode>, ghost grown: map<Path, PathNode>)
    requires Walking(table, seen, parts, 0, root)
    modifies table.Values
    ensures found.None? <==> FileAbove(seen, parts, |parts|)
    ensures found.Some? ==> Walking(grown, seen, parts, |parts|, found.value)
    ensures Grown(table, grown) && forall p | p in grown && p !in table :: fresh(grown[p])
  {
    var node := root;
    grown := table;
    for k := 0 to |parts|
      invariant Walking(grown, seen, parts, k, node)
      invariant Grown(table, grown) && forall p | p in grown && p !in table :: fresh(grown[p])
    {
      if node.kind == Some(FileKind) {
        ghost var x :| x in seen && x.parts == parts[..k];
        assert FileAbove(seen, parts, |parts|);
        return None, grown;
      }
      ghost var before := grown;
      node, grown := StepDown(node, parts, k, grown, seen);
    }
    found := Some(node);
  }

  lemma WalkFinds(table: map<Path, PathNode>, seen: seq<Entry>, e: Entry, node: PathNode)
    requires Walking(table, seen, e.parts, |e.parts|, node)
    ensures Conflicts(seen, e) <==> node.kind.Some? || (e.kind.FileKind? && node.children != map[])
    ensures Covers(table, seen, e.parts)
  {
    assert e.parts[..|e.parts|] == e.parts;
    ConflictSplits(seen, e);
    ChildrenMeanDeeper(table, seen, e.parts);
  }

  /** Reject a file on the way, a node that is already a member, and a file that would have children;
      otherwise mark the node. */
  method Place(root: PathNode, e: Entry, ghost table: map<Path, PathNode>, ghost seen: seq<Entry>)
    returns (ok: bool, ghost grown: map<Path, PathNode>)
    requires Walking(table, seen, [], 0, root)
    modifies table.Values
    ensures ok <==> !Conflicts(seen, e)
    ensures ok ==> Walking(grown, seen + [e], [], 0, root)
    ensures forall p | p in grown && p !in table :: fresh(grown[p])
    ensures Grown(table, grown)
  {
    assert e.parts[..0] == [];
    var found;
    found, grown := Walk(root, e.parts, table, seen);
    if found.None? {
      ConflictSplits(seen, e);
      return false, grown;
    }
    var node := found.value;
    WalkFinds(grown, seen, e, node);
    if node.kind.Some? || (e.kind.FileKind? && node.children != map[]) {
      return false, grown;
    }
    assert node in grown.Values;
    Mark(node, e, grown, seen);
    ok := true;
  }

  method Mark(node: PathNode, e: Entry, ghost table: map<Path, PathNode>, ghost seen: seq<Entry>)
    requires Walking(table, seen, e.parts, |e.parts|, node) && node.kind.None?
    modifies node`kind
    ensures Linked(table) && Kinds(table, seen + [e]) && Covers(table, seen + [e], [])
  {
    assert e.parts[..|e.parts|] == e.parts;
    assert forall x | x in seen :: table[x.parts] != node;
    node.kind := Some(e.kind);
    NowCovered(table, seen, e);
  }

  /** The checks of one member; on success the trie stands for one entry more. */
  method AdmitMember(root: PathNode, member: Member, scanned: seq<Entry>, total: nat, ghost table: map<Path, PathNode>)
    returns (r: Result<Entry, Code>, newTotal: nat, ghost grown: map<Path, PathNode>)
    requires total == Total(scanned) <= MAX_EXTRACTED_BYTES
    requires Walking(table, scanned, [], 0, root)
    modifies table.Values
    ensures match r
            case Err(code) => Admit(scanned, member) == Err(code)
            case Ok(entry) =>
              && Admit(scanned, member) == Ok(scanned + [entry])
              && newTotal == Total(scanned + [entry]) <= MAX_EXTRACTED_BYTES
              && Walking(grown, scanned + [entry], [], 0, root)
              && Grown(table, grown)
              && forall p | p in grown && p !in table :: fresh(grown[p])
  {
    grown, newTotal := table, total;
    if |scanned| >= MAX_MEMBERS {
      return Err(ArchiveLimitExceeded), newTotal, grown;
    }
    r := Checked(member);
    if r.Err? {
      return r, newTotal, grown;
    }
    var entry := r.value;
    if entry.kind.FileKind? {
      newTotal := total + entry.size;
      if newTotal > MAX_EXTRACTED_BYTES {
        return Err(ArchiveLimitExceeded), newTotal, grown;
      }
    }
    DirectoriesHaveNoSize(member);
    var placed;
    placed, grown := Place(root, entry, table, scanned);
    if !placed {
      return Err(ArchiveInvalid), newTotal, grown;
    }
    TotalAppend(scanned, entry);
  }

  lemma DirectoriesHaveNoSize(m: Member)
    ensures Checked(m).Ok? && Checked(m).value.kind.DirKind? ==> Checked(m).value.size == 0
  {
  }

  lemma TotalAppend(seen: seq<Entry>, e: Entry)
    ensures Total(seen + [e]) == Total(seen) + e.size
  {
    assert (seen + [e])[..|seen|] == seen;
  }

  lemma ScanStep(members: seq<Member>, i: nat, scanned: seq<Entry>)
    requires i < |members| && Scanned(members[..i]) == Ok(scanned)
    ensures Scanned(members[..i + 1]) == Admit(scanned, members[i])
    ensures Admit(scanned, members[i]).Err? ==> Scanned(members) == Admit(scanned, members[i])
  {
    assert members[..i + 1][..i] == members[..i];
    if Scanned(members[..i + 1]).Err? { ScanStopsAtError(members, i + 1); }
  }

  method ScanMembers(members: seq<Member>) returns (r: Result<seq<Entry>, Code>)
    ensures r == Scanned(members) && Decides(r, members)
  {
    ScanDecides(members);
    var scanned: seq<Entry> := [];
    var root := new PathNode();
    var total := 0;
    ghost var table: map<Path, PathNode> := map[[] := root];
    for i := 0 to |members|
      invariant Scanned(members[..i]) == Ok(scanned) && total == Total(scanned) <= MAX_EXTRACTED_BYTES
      invariant Walking(table, scanned, [], 0, root)
      invariant forall p | p in table :: fresh(table[p])
    {
      ScanStep(members, i, scanned);
      var admitted;
      admitted, total, table := AdmitMember(root, members[i], scanned, total, table);
      if admitted.Err? {
        return Err(admitted.error);
      }
      scanned := scanned + [admitted.value];
    }
    assert members[..|members|] == members;
    r := Ok(scanned);
  }
}
