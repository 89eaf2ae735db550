/**
 The member scan of an archive: what it accepts, stated once as a sequence of checks in archive
 order and once as a condition on the whole list, where order plays no part.
 */
module ArtifactScan {
  import opened Prelude
  import opened ArtifactPaths

  datatype Type = DirType | RegType | OtherType

  datatype Member = Member(name: string, kind: Type, sparse: bool, size: int)

  datatype Kind = DirKind | FileKind

  datatype Entry = Entry(parts: Path, kind: Kind, size: nat)

  const MAX_MEMBERS := 10_000
  const MAX_MEMBER_BYTES := 8 * 1024 * 1024 * 1024
  const MAX_EXTRACTED_BYTES := 16 * 1024 * 1024 * 1024

  // ---------------------------------------------------------------- in archive order

  /** The checks that look at one member alone. */
  function Checked(m: Member): Result<Entry, Code> {
    match MemberPath(m.name, m.kind.DirType?)
    case Err(code) => Err(code)
    case Ok(parts) =>
      if m.sparse || m.kind.OtherType? then Err(ArchiveInvalid)
      else if m.size < 0 then Err(ArchiveInvalid)
      else if m.kind.DirType? then
        if m.size != 0 then Err(ArchiveInvalid) else Ok(Entry(parts, DirKind, 0))
      else
        if m.size > MAX_MEMBER_BYTES then Err(ArchiveLimitExceeded) else Ok(Entry(parts, FileKind, m.size))
  }

  predicate ProperPrefix(p: Path, q: Path) {
    p <= q && |p| < |q|
  }

  /** The two entries cannot both exist in one tree. */
  predicate Clash(a: Entry, b: Entry) {
    || a.parts == b.parts
    || (a.kind.FileKind? && ProperPrefix(a.parts, b.parts))
    || (b.kind.FileKind? && ProperPrefix(b.parts, a.parts))
  }

  predicate Conflicts(seen: seq<Entry>, e: Entry) {
    exists x | x in seen :: Clash(x, e)
  }

  function Total(seen: seq<Entry>): nat {
    if seen == [] then 0 else Total(seen[..|seen| - 1]) + seen[|seen| - 1].size
  }

  function Admit(seen: seq<Entry>, m: Member): Result<seq<Entry>, Code> {
    if |seen| >= MAX_MEMBERS then Err(ArchiveLimitExceeded)
    else
      match Checked(m)
      case Err(code) => Err(code)
      case Ok(e) =>
        if Total(seen) + e.size > MAX_EXTRACTED_BYTES then Err(ArchiveLimitExceeded)
        else if Conflicts(seen, e) then Err(ArchiveInvalid)
        else Ok(seen + [e])
  }

  /** The first failing member decides the error. */
  function Scanned(members: seq<Member>): Result<seq<Entry>, Code> {
    if members == [] then Ok([])
    else
      match Scanned(members[..|members| - 1])
      case Err(code) => Err(code)
      case Ok(seen) => Admit(seen, members[|members| - 1])
  }

  // ---------------------------------------------------------------- the whole list

  predicate AllChecked(members: seq<Member>) {
    forall m | m in members :: Checked(m).Ok?
  }

  function Entries(members: seq<Member>): (r: seq<Entry>)
    requires AllChecked(members)
    ensures |r| == |members| && forall i | 0 <= i < |r| :: r[i] == Checked(members[i]).value
  {
    seq(|members|, i requires 0 <= i < |members| => Checked(members[i]).value)
  }

  ghost predicate PairwiseClear(entries: seq<Entry>) {
    forall i, j | 0 <= i < j < |entries| :: !Clash(entries[i], entries[j])
  }

  /** Count and total within bounds, paths pairwise distinct, no file above another member. */
  ghost predicate Coherent(members: seq<Member>) {
    && |members| <= MAX_MEMBERS
    && AllChecked(members)
    && Total(Entries(members)) <= MAX_EXTRACTED_BYTES
    && PairwiseClear(Entries(members))
  }

  lemma {:induction false} EntriesSplit(members: seq<Member>)
    requires members != [] && AllChecked(members)
    ensures var front, last := members[..|members| - 1], members[|members| - 1];
            AllChecked(front) && Entries(members) == Entries(front) + [Checked(last).value]
            && Entries(members)[..|front|] == Entries(front)
  {
    var front, last := members[..|members| - 1], members[|members| - 1];
    assert last in members;
    assert AllChecked(front) by {
      forall m | m in front ensures Checked(m).Ok? { assert m in members; }
    }
    var whole, head := Entries(members), Entries(front);
    forall i | 0 <= i < |head| ensures whole[i] == head[i] { assert members[i] == front[i]; }
  }

  /** Whether one more member still fits. */
  ghost predicate Fits(seen: seq<Entry>, m: Member) {
    && |seen| < MAX_MEMBERS
    && Checked(m).Ok?
    && Total(seen) + Checked(m).value.size <= MAX_EXTRACTED_BYTES
    && !Conflicts(seen, Checked(m).value)
  }

  lemma AllCheckedSplit(members: seq<Member>)
    requires members != []
    ensures AllChecked(members) <==> AllChecked(members[..|members| - 1]) && Checked(members[|members| - 1]).Ok?
  {
    var front, last := members[..|members| - 1], members[|members| - 1];
    assert forall m :: m in members <==> m in front || m == last;
  }

  lemma {:induction false} CoherentSplit(members: seq<Member>)
    requires members != []
    ensures var front, last := members[..|members| - 1], members[|members| - 1];
            Coherent(members) <==> Coherent(front) && Fits(Entries(front), last)
  {
    AllCheckedSplit(members);
    if AllChecked(members) {
      EntriesSplit(members);
      LastClear(Entries(members[..|members| - 1]), Checked(members[|members| - 1]).value);
    }
  }

  lemma {:induction false} ScanIsCoherent(members: seq<Member>)
    ensures Scanned(members).Ok? <==> Coherent(members)
    ensures Scanned(members).Ok? ==> Scanned(members).value == Entries(members)
  {
    if members != [] {
      ScanIsCoherent(members[..|members| - 1]);
      CoherentSplit(members);
      if Coherent(members) { EntriesSplit(members); }
    }
  }

  lemma LastClear(entries: seq<Entry>, e: Entry)
    ensures PairwiseClear(entries + [e]) <==> PairwiseClear(entries) && !Conflicts(entries, e)
  {
    var all := entries + [e];
    if PairwiseClear(all) {
      forall i, j | 0 <= i < j < |entries| ensures !Clash(entries[i], entries[j]) {
        assert all[i] == entries[i] && all[j] == entries[j];
      }
      forall x | x in entries ensures !Clash(x, e) {
        var i :| 0 <= i < |entries| && entries[i] == x;
        assert all[i] == x && all[|entries|] == e;
      }
    }
    if PairwiseClear(entries) && !Conflicts(entries, e) {
      forall i, j | 0 <= i < j < |all| ensures !Clash(all[i], all[j]) {
        assert entries[i] in entries;
      }
    }
  }

  lemma CheckedHasPath(m: Member)
    ensures Checked(m).Ok? ==> Checked(m).value.parts != []
  {
  }

  // ---------------------------------------------------------------- what is accepted, and as what

  /** The member is a directory, or a regular file of at most 8 GiB, under a safe name, and this is its entry.
      Links, devices and sparse files are none of these. */
  predicate Describes(m: Member, e: Entry) {
    && SafePath(e.parts) && !m.sparse
    && (|| (&& m.kind.DirType? && e.kind.DirKind? && m.size == 0 && e.size == 0
            && (m.name == Join(e.parts) || m.name == Join(e.parts) + "/"))
        || (&& m.kind.RegType? && e.kind.FileKind? && 0 <= m.size <= 8_589_934_592 && e.size == m.size
            && m.name == Join(e.parts)))
  }

  lemma CheckedExact(m: Member, e: Entry)
    ensures Checked(m) == Ok(e) <==> Describes(m, e)
  {
    MemberPathExact(m.name, m.kind.DirType?, e.parts);
  }

  /** Which limit a member alone can be over: a length of its name, or the size of a file. */
  ghost predicate OverLimit(m: Member) {
    exists p :: Spells(m.name, m.kind.DirType?, p) &&
      (Oversized(p) || (m.kind.RegType? && !m.sparse && m.size > 8_589_934_592))
  }

  lemma CheckedErrorExact(m: Member)
    requires Checked(m).Err?
    ensures Checked(m).error == if OverLimit(m) then ArchiveLimitExceeded else ArchiveInvalid
  {
    var isDir := m.kind.DirType?;
    if MemberPath(m.name, isDir).Ok? {
      var p := MemberPath(m.name, isDir).value;
      MemberPathExact(m.name, isDir, p);
      assert Spells(m.name, isDir, p);
      forall q | Spells(m.name, isDir, q) ensures q == p {
        SpelledParts(m.name, isDir, p);
        SpelledParts(m.name, isDir, q);
      }
      SizesAre(p);
    } else {
      MemberPathExact(m.name, isDir, []);
      forall q | Spells(m.name, isDir, q) ensures MemberPath(m.name, isDir) == Err(ArchiveLimitExceeded) {
        MemberPathExact(m.name, isDir, q);
        SizesAre(q);
      }
    }
  }

  /** At most 10 000 members, each with its entry; at most 16 GiB together; paths pairwise distinct and no file
      above another member. */
  ghost predicate Consistent(members: seq<Member>, entries: seq<Entry>) {
    && |entries| == |members| <= 10_000
    && (forall i | 0 <= i < |members| :: Describes(members[i], entries[i]))
    && Total(entries) <= 17_179_869_184
    && (forall i, j | 0 <= i < j < |entries| :: !Clash(entries[i], entries[j]))
  }

  lemma CoherentIsConsistent(members: seq<Member>, entries: seq<Entry>)
    ensures Consistent(members, entries) <==> Coherent(members) && entries == Entries(members)
  {
    if Consistent(members, entries) {
      forall i | 0 <= i < |members| ensures Checked(members[i]) == Ok(entries[i]) {
        CheckedExact(members[i], entries[i]);
      }
      assert entries == Entries(members);
    }
    if Coherent(members) && entries == Entries(members) {
      forall i | 0 <= i < |members| ensures Describes(members[i], entries[i]) {
        assert members[i] in members;
        CheckedExact(members[i], entries[i]);
      }
    }
  }

  /** The incremental scan decides the quadratic condition, and returns the entries in order. */
  lemma ScanExact(members: seq<Member>, entries: seq<Entry>)
    ensures Scanned(members) == Ok(entries) <==> Consistent(members, entries)
  {
    ScanIsCoherent(members);
    CoherentIsConsistent(members, entries);
  }

  ghost predicate Inconsistent(members: seq<Member>) {
    forall entries :: !Consistent(members, entries)
  }

  /** What a scan that ends with this result says of the archive. */
  ghost predicate Decides(r: Result<seq<Entry>, Code>, members: seq<Member>) {
    match r
    case Ok(entries) => Consistent(members, entries)
    case Err(_) => Inconsistent(members)
  }

  lemma ScanDecides(members: seq<Member>)
    ensures Decides(Scanned(members), members)
  {
    forall entries ensures Scanned(members) == Ok(entries) <==> Consistent(members, entries) {
      ScanExact(members, entries);
    }
  }

  /** Why the member after an accepted list is refused: as over a limit, or as invalid. */
  ghost predicate NextOverLimit(entries: seq<Entry>, m: Member) {
    || |entries| >= 10_000 || OverLimit(m)
    || exists e :: Describes(m, e) && Total(entries) + e.size > 17_179_869_184
  }

  /** A refused archive is refused at its first member that does not fit, for the reason found there: the
      count, the member itself, or the total may be over a limit, and everything else is invalid. */
  lemma {:induction false} ScanErrorExact(members: seq<Member>) returns (i: nat, entries: seq<Entry>)
    requires Scanned(members).Err?
    ensures i < |members| && Consistent(members[..i], entries) && Inconsistent(members[..i + 1])
    ensures Scanned(members).error ==
            if NextOverLimit(entries, members[i]) then ArchiveLimitExceeded else ArchiveInvalid
  {
    var front, last := members[..|members| - 1], members[|members| - 1];
    if Scanned(front).Err? {
      i, entries := ScanErrorExact(front);
      assert front[..i] == members[..i] && front[..i + 1] == members[..i + 1];
    } else {
      i, entries := |members| - 1, Scanned(front).value;
      ScanExact(front, entries);
      assert members[..i + 1] == members;
      ScanDecides(members);
      AdmitErrorExact(entries, last);
    }
  }

  lemma AdmitErrorExact(entries: seq<Entry>, m: Member)
    requires Admit(entries, m).Err?
    ensures Admit(entries, m).error == if NextOverLimit(entries, m) then ArchiveLimitExceeded else ArchiveInvalid
  {
    forall e ensures Checked(m) == Ok(e) <==> Describes(m, e) { CheckedExact(m, e); }
    if Checked(m).Err? { CheckedErrorExact(m); } else { NotOverLimit(m); }
  }

  lemma NotOverLimit(m: Member)
    requires Checked(m).Ok?
    ensures !OverLimit(m)
  {
    var isDir, p := m.kind.DirType?, Checked(m).value.parts;
    MemberPathExact(m.name, isDir, p);
    SizesAre(p);
    forall q | Spells(m.name, isDir, q) ensures q == p {
      SpelledParts(m.name, isDir, p);
      SpelledParts(m.name, isDir, q);
    }
  }

  // ---------------------------------------------------------------- order does not matter

  function SizeOf(m: Member): nat {
    if Checked(m).Ok? then Checked(m).value.size else 0
  }

  function SizeSum(members: seq<Member>): nat {
    if members == [] then 0 else SizeSum(members[..|members| - 1]) + SizeOf(members[|members| - 1])
  }

  lemma TotalSplit(members: seq<Member>)
    requires members != [] && AllChecked(members)
    ensures AllChecked(members[..|members| - 1])
    ensures Total(Entries(members)) == Total(Entries(members[..|members| - 1])) + SizeOf(members[|members| - 1])
  {
    EntriesSplit(members);
    assert members[|members| - 1] in members;
  }

  lemma {:induction false} TotalIsSizeSum(members: seq<Member>)
    requires AllChecked(members)
    ensures Total(Entries(members)) == SizeSum(members)
  {
    if members != [] {
      TotalSplit(members);
      TotalIsSizeSum(members[..|members| - 1]);
    }
  }

  lemma {:induction false} SizeSumConcat(a: seq<Member>, b: seq<Member>)
    ensures SizeSum(a + b) == SizeSum(a) + SizeSum(b)
  {
    if b == [] {
      assert a + b == a;
    } else {
      SizeSumConcat(a, b[..|b| - 1]);
      assert (a + b)[..|a + b| - 1] == a + b[..|b| - 1];
    }
  }

  lemma SplitMultiset(s: seq<Member>, i: nat)
    requires i < |s|
    ensures multiset(s) == multiset(s[..i] + s[i + 1..]) + multiset{s[i]}
  {
    assert s == s[..i] + [s[i]] + s[i + 1..];
  }

  lemma SameRest(a: multiset<Member>, b: multiset<Member>, m: Member)
    requires a + multiset{m} == b + multiset{m}
    ensures a == b
  {
    forall x ensures a[x] == b[x] { assert (a + multiset{m})[x] == (b + multiset{m})[x]; }
  }

  lemma RemoveLast(a: seq<Member>, b: seq<Member>, i: nat)
    requires a != [] && i < |b| && b[i] == a[|a| - 1] && multiset(a) == multiset(b)
    ensures multiset(a[..|a| - 1]) == multiset(b[..i] + b[i + 1..])
  {
    SplitMultiset(a, |a| - 1);
    SplitMultiset(b, i);
    assert a[..|a| - 1] + a[|a|..] == a[..|a| - 1];
    SameRest(multiset(a[..|a| - 1]), multiset(b[..i] + b[i + 1..]), b[i]);
  }

  lemma SumWithout(b: seq<Member>, i: nat)
    requires i < |b|
    ensures SizeSum(b) == SizeSum(b[..i] + b[i + 1..]) + SizeOf(b[i])
  {
    SumSplit(b, i + 1);
    SumOneMore(b, i);
    SizeSumConcat(b[..i], b[i + 1..]);
  }

  lemma SumSplit(b: seq<Member>, i: nat)
    requires i <= |b|
    ensures SizeSum(b) == SizeSum(b[..i]) + SizeSum(b[i..])
  {
    SizeSumConcat(b[..i], b[i..]);
    assert b == b[..i] + b[i..];
  }

  lemma SumOneMore(b: seq<Member>, i: nat)
    requires i < |b|
    ensures SizeSum(b[..i + 1]) == SizeSum(b[..i]) + SizeOf(b[i])
  {
    assert b[..i + 1][..i] == b[..i];
  }

  lemma {:induction false} SizeSumOfPermutation(a: seq<Member>, b: seq<Member>)
    requires multiset(a) == multiset(b)
    ensures SizeSum(a) == SizeSum(b)
  {
    if a == [] {
      assert forall m :: m !in multiset(b);
      assert b == [];
    } else {
      assert a[|a| - 1] in multiset(a);
      var i :| 0 <= i < |b| && b[i] == a[|a| - 1];
      RemoveLast(a, b, i);
      SizeSumOfPermutation(a[..|a| - 1], b[..i] + b[i + 1..]);
      SumWithout(b, i);
    }
  }

  /** A value that occurs twice has two positions. */
  lemma {:induction false} TwoPositions(s: seq<Member>, m: Member) returns (i: nat, j: nat)
    requires multiset(s)[m] >= 2
    ensures i < j < |s| && s[i] == s[j] == m
  {
    assert s == s[..|s| - 1] + [s[|s| - 1]];
    if s[|s| - 1] == m {
      assert multiset(s[..|s| - 1])[m] >= 1;
      assert m in s[..|s| - 1];
      i :| 0 <= i < |s| - 1 && s[i] == m;
      j := |s| - 1;
    } else {
      assert multiset(s[..|s| - 1])[m] >= 2;
      i, j := TwoPositions(s[..|s| - 1], m);
    }
  }

  lemma {:induction false} TwicePresent(s: seq<Member>, i: nat, j: nat)
    requires i < j < |s| && s[i] == s[j]
    ensures multiset(s)[s[i]] >= 2
  {
    assert s == s[..j] + ([s[j]] + s[j + 1..]);
    assert s[i] in s[..j];
    assert multiset(s[..j])[s[i]] >= 1;
    assert multiset(s) == multiset(s[..j]) + multiset([s[j]]) + multiset(s[j + 1..]);
  }

  lemma SamePositionsClash(s: seq<Member>, i: nat, j: nat)
    requires AllChecked(s) && i < j < |s| && s[i] == s[j]
    ensures !PairwiseClear(Entries(s))
  {
    assert Clash(Entries(s)[i], Entries(s)[j]);
  }

  lemma SameElements(a: seq<Member>, b: seq<Member>)
    requires multiset(a) == multiset(b)
    ensures |a| == |b| && forall m :: m in a <==> m in b
  {
    assert |multiset(a)| == |a| && |multiset(b)| == |b|;
    assert forall m :: m in b <==> m in multiset(b);
    assert forall m :: m in a <==> m in multiset(a);
  }

  lemma DifferentMembersClear(a: seq<Member>, x: Member, y: Member)
    requires AllChecked(a) && PairwiseClear(Entries(a)) && x in a && y in a && x != y
    ensures !Clash(Checked(x).value, Checked(y).value)
  {
    var k :| 0 <= k < |a| && a[k] == x;
    var l :| 0 <= l < |a| && a[l] == y;
    if k < l { assert !Clash(Entries(a)[k], Entries(a)[l]); } else { assert !Clash(Entries(a)[l], Entries(a)[k]); }
  }

  lemma NoRepeats(a: seq<Member>, b: seq<Member>, i: nat, j: nat)
    requires multiset(a) == multiset(b) && AllChecked(a) && PairwiseClear(Entries(a)) && i < j < |b|
    ensures b[i] != b[j]
  {
    if b[i] == b[j] {
      TwicePresent(b, i, j);
      var k, l := TwoPositions(a, b[i]);
      SamePositionsClash(a, k, l);
    }
  }

  lemma PermutationClear(a: seq<Member>, b: seq<Member>, i: nat, j: nat)
    requires multiset(a) == multiset(b) && AllChecked(a) && AllChecked(b) && PairwiseClear(Entries(a))
    requires i < j < |b|
    ensures !Clash(Entries(b)[i], Entries(b)[j])
  {
    NoRepeats(a, b, i, j);
    SameElements(a, b);
    DifferentMembersClear(a, b[i], b[j]);
  }

  lemma PermutationKeepsCoherence(a: seq<Member>, b: seq<Member>)
    requires multiset(a) == multiset(b) && Coherent(a)
    ensures Coherent(b)
  {
    SameElements(a, b);
    SizeSumOfPermutation(a, b);
    TotalIsSizeSum(a);
    TotalIsSizeSum(b);
    forall i, j | 0 <= i < j < |Entries(b)| ensures !Clash(Entries(b)[i], Entries(b)[j]) {
      PermutationClear(a, b, i, j);
    }
  }

  /** Whether an archive is accepted depends on its members, not on their order. */
  lemma AcceptanceIgnoresOrder(a: seq<Member>, b: seq<Member>)
    requires multiset(a) == multiset(b)
    ensures Scanned(a).Ok? <==> Scanned(b).Ok?
  {
    ScanIsCoherent(a);
    ScanIsCoherent(b);
    if Coherent(a) { PermutationKeepsCoherence(a, b); }
    if Coherent(b) { PermutationKeepsCoherence(b, a); }
  }
}
